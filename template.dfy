/**
 * The data map Render hands to text/template (template.go:32-41): the two
 * standard entries, then every dynamic field of the contact copied over them.
 * Parsing and executing the template are not part of this model.
 */
module Templates {
  import opened CsvParser

  /** The map after the two standard entries are written. */
  function StandardData(contact: Contact): (r: map<string, string>)
    ensures r.Keys == {"Name", "PhoneNumber"}
    ensures r["Name"] == contact.name && r["PhoneNumber"] == contact.phoneNumber
  {
    map["Name" := contact.name, "PhoneNumber" := contact.phoneNumber]
  }

  /** The data map of Render: its keys are the two standard names and the
      field names; every field keeps its value, so a field called "Name" or
      "PhoneNumber" overrides the standard entry, which otherwise holds. */
  function TemplateData(contact: Contact): (r: map<string, string>)
    ensures r.Keys == {"Name", "PhoneNumber"} + contact.fields.Keys
    ensures forall k :: k in contact.fields ==> r[k] == contact.fields[k]
    ensures "Name" !in contact.fields ==> r["Name"] == contact.name
    ensures "PhoneNumber" !in contact.fields ==> r["PhoneNumber"] == contact.phoneNumber
  {
    StandardData(contact) + contact.fields
  }

  /** Render's construction of the map: the standard entries, then one field
      at a time in whatever order the keys are taken. */
  method RenderData(contact: Contact) returns (data: map<string, string>)
    ensures data == TemplateData(contact)
  {
    data := map[];
    data := data["Name" := contact.name];
    data := data["PhoneNumber" := contact.phoneNumber];
    var pending := contact.fields.Keys;
    while pending != {}
      invariant pending <= contact.fields.Keys
      invariant data.Keys == {"Name", "PhoneNumber"} + (contact.fields.Keys - pending)
      invariant forall k :: k in contact.fields.Keys - pending ==> data[k] == contact.fields[k]
      invariant forall k :: k in data && k !in contact.fields.Keys - pending ==> data[k] == StandardData(contact)[k]
      decreases pending
    {
      var key :| key in pending;
      data := data[key := contact.fields[key]];
      pending := pending - {key};
    }
    assert contact.fields.Keys - pending == contact.fields.Keys;
  }
}
