/**
 * The text transforms of the WhatsApp client (whatsapp_client.go): phone
 * cleaning, line-ending normalisation, the keystroke plan that types a
 * multi-line message, the HTML fragment built for the DOM fallback, and
 * escapeJSString. The browser runs each keystroke; whether it succeeds is
 * an oracle `ok(n)` for the n-th event.
 */
module MessageText {
  import opened GoStrings

  /** Each character of `s` replaced by its image under `esc`: the one-pass reference
      for a chain of ReplaceAll calls that never rewrite one another's output. */
  function MapChars(s: string, esc: char -> string): string {
    if s == [] then [] else esc(s[0]) + MapChars(s[1..], esc)
  }

  lemma {:induction false} MapCharsAppend(a: string, b: string, esc: char -> string)
    ensures MapChars(a + b, esc) == MapChars(a, esc) + MapChars(b, esc)
  {
    if a != [] {
      assert (a + b)[1..] == a[1..] + b;
      MapCharsAppend(a[1..], b, esc);
    } else {
      assert a + b == b;
    }
  }

  /** A chain of ReplaceAll calls agrees with MapChars once it agrees on every single character. */
  lemma {:induction false} ChainIsMapChars(s: string, chain: string -> string, esc: char -> string)
    requires chain([]) == []
    requires forall a, b :: chain(a + b) == chain(a) + chain(b)
    requires forall c :: chain([c]) == esc(c)
    ensures chain(s) == MapChars(s, esc)
  {
    if s != [] {
      assert s == [s[0]] + s[1..];
      assert chain(s) == chain([s[0]]) + chain(s[1..]);
      ChainIsMapChars(s[1..], chain, esc);
    }
  }

  lemma ReplaceCharSingle(c: char, target: char, rep: string)
    ensures ReplaceChar([c], target, rep) == if c == target then rep else [c]
  {
    assert [c][1..] == [];
  }

  // ---------------------------------------------------------------------------
  // Phone cleaning, whatsapp_client.go:205

  /** The number used in the chat URL: every '+' and then every ' ' removed. */
  function CleanPhone(phone: string): string {
    ReplaceChar(ReplaceChar(phone, '+', ""), ' ', "")
  }

  function DropPlusAndSpace(c: char): string {
    if c == '+' || c == ' ' then "" else [c]
  }

  /** CleanPhone keeps every character other than '+' and ' ', in order. */
  lemma CleanPhoneIsFilter(phone: string)
    ensures CleanPhone(phone) == MapChars(phone, DropPlusAndSpace)
  {
    forall a, b ensures CleanPhone(a + b) == CleanPhone(a) + CleanPhone(b) {
      ReplaceCharAppend(a, b, '+', "");
      ReplaceCharAppend(ReplaceChar(a, '+', ""), ReplaceChar(b, '+', ""), ' ', "");
    }
    forall c ensures CleanPhone([c]) == DropPlusAndSpace(c) {
      ReplaceCharSingle(c, '+', "");
      ReplaceCharSingle(c, ' ', "");
      assert ReplaceChar([], ' ', "") == [];
    }
    ChainIsMapChars(phone, CleanPhone, DropPlusAndSpace);
  }

  lemma {:induction false} MapCharsDropAbsent(s: string)
    ensures '+' !in MapChars(s, DropPlusAndSpace) && ' ' !in MapChars(s, DropPlusAndSpace)
  {
    if s != [] {
      MapCharsDropAbsent(s[1..]);
    }
  }

  /** The cleaned number has no '+' and no ' ', and cleaning it again changes nothing. */
  lemma CleanPhoneIdempotent(phone: string)
    ensures '+' !in CleanPhone(phone) && ' ' !in CleanPhone(phone)
    ensures CleanPhone(CleanPhone(phone)) == CleanPhone(phone)
  {
    CleanPhoneIsFilter(phone);
    MapCharsDropAbsent(phone);
    var once := CleanPhone(phone);
    ReplaceCharAbsent(once, '+', "");
    ReplaceCharAbsent(once, ' ', "");
  }

  // ---------------------------------------------------------------------------
  // Line endings, whatsapp_client.go:361-362

  /** Every "\r\n" replaced by "\n", then every remaining '\r' by "\n". */
  function NormalizeNewlines(message: string): string {
    ReplaceChar(ReplacePair(message, '\r', '\n', "\n"), '\r', "\n")
  }

  /** One left-to-right pass: "\r\n" and a lone '\r' each become one '\n'. */
  function OnePassNewlines(s: string): string {
    if s == [] then []
    else if |s| >= 2 && s[0] == '\r' && s[1] == '\n' then "\n" + OnePassNewlines(s[2..])
    else if s[0] == '\r' then "\n" + OnePassNewlines(s[1..])
    else [s[0]] + OnePassNewlines(s[1..])
  }

  /** The two ReplaceAll calls are the one-pass rewrite. */
  lemma {:induction false} NormalizeIsOnePass(s: string)
    ensures NormalizeNewlines(s) == OnePassNewlines(s)
  {
    if |s| >= 2 && s[0] == '\r' && s[1] == '\n' {
      NormalizeIsOnePass(s[2..]);
      ReplaceCharAppend("\n", ReplacePair(s[2..], '\r', '\n', "\n"), '\r', "\n");
    } else if s != [] {
      NormalizeIsOnePass(s[1..]);
      ReplaceCharAppend([s[0]], ReplacePair(s[1..], '\r', '\n', "\n"), '\r', "\n");
    }
  }

  lemma {:induction false} OnePassProperties(s: string)
    ensures '\r' !in OnePassNewlines(s)
    ensures '\r' !in s ==> OnePassNewlines(s) == s
  {
    if |s| >= 2 && s[0] == '\r' && s[1] == '\n' {
      OnePassProperties(s[2..]);
    } else if s != [] {
      OnePassProperties(s[1..]);
      if '\r' !in s {
        assert '\r' !in s[1..];
      }
    }
  }

  /** The normalised message has no '\r'; text without '\r' is left unchanged, so
      normalising twice is normalising once. */
  lemma NormalizeNewlinesProperties(message: string)
    ensures '\r' !in NormalizeNewlines(message)
    ensures '\r' !in message ==> NormalizeNewlines(message) == message
    ensures NormalizeNewlines(NormalizeNewlines(message)) == NormalizeNewlines(message)
  {
    NormalizeIsOnePass(message);
    OnePassProperties(message);
    NormalizeIsOnePass(NormalizeNewlines(message));
    OnePassProperties(NormalizeNewlines(message));
  }

  // ---------------------------------------------------------------------------
  // Keystroke plan, whatsapp_client.go:369-396

  /** A browser action of the typing loop. */
  datatype Keystroke = ShiftEnter | TypeText(text: string)

  /** The actions for the lines, in order: Shift+Enter before every line but the
      first, and the line's text when it is not empty. */
  function Plan(lines: seq<string>): seq<Keystroke> {
    if lines == [] then []
    else
      var i := |lines| - 1;
      Plan(lines[..i]) + (if i > 0 then [ShiftEnter] else []) + (if lines[i] != "" then [TypeText(lines[i])] else [])
  }

  function ShiftEnters(plan: seq<Keystroke>): nat {
    if plan == [] then 0 else ShiftEnters(plan[..|plan| - 1]) + (if plan[|plan| - 1] == ShiftEnter then 1 else 0)
  }

  /** The texts typed, in order. */
  function Typed(plan: seq<Keystroke>): seq<string> {
    if plan == [] then []
    else Typed(plan[..|plan| - 1]) + (if plan[|plan| - 1].TypeText? then [plan[|plan| - 1].text] else [])
  }

  /** The non-empty lines, in order. */
  function NonEmptyLines(lines: seq<string>): seq<string> {
    if lines == [] then []
    else NonEmptyLines(lines[..|lines| - 1]) + (if lines[|lines| - 1] != "" then [lines[|lines| - 1]] else [])
  }

  lemma {:induction false} CountsAppend(a: seq<Keystroke>, b: seq<Keystroke>)
    ensures ShiftEnters(a + b) == ShiftEnters(a) + ShiftEnters(b)
    ensures Typed(a + b) == Typed(a) + Typed(b)
    decreases |b|
  {
    if b == [] {
      assert a + b == a;
    } else {
      var b' := b[..|b| - 1];
      assert (a + b)[..|a + b| - 1] == a + b';
      CountsAppend(a, b');
    }
  }

  /** The counts of a one-action plan. */
  lemma SingleCounts(k: Keystroke)
    ensures ShiftEnters([k]) == (if k == ShiftEnter then 1 else 0)
    ensures Typed([k]) == (if k.TypeText? then [k.text] else [])
  {
    assert [k][..0] == [];
  }

  /** For k lines the plan holds k - 1 Shift+Enter actions and types exactly the
      non-empty lines, in order. */
  lemma {:induction false} PlanCounts(lines: seq<string>)
    ensures ShiftEnters(Plan(lines)) == if lines == [] then 0 else |lines| - 1
    ensures Typed(Plan(lines)) == NonEmptyLines(lines)
  {
    if lines != [] {
      var i := |lines| - 1;
      var init := lines[..i];
      PlanCounts(init);
      var sep: seq<Keystroke> := if i > 0 then [ShiftEnter] else [];
      var typed: seq<Keystroke> := if lines[i] != "" then [TypeText(lines[i])] else [];
      assert Plan(lines) == Plan(init) + sep + typed;
      assert NonEmptyLines(lines) == NonEmptyLines(init) + (if lines[i] != "" then [lines[i]] else []);
      CountsAppend(Plan(init), sep);
      CountsAppend(Plan(init) + sep, typed);
      if i > 0 {
        SingleCounts(ShiftEnter);
      }
      if lines[i] != "" {
        SingleCounts(TypeText(lines[i]));
      }
    }
  }

  lemma PlanStep(lines: seq<string>, i: nat)
    requires i < |lines|
    ensures Plan(lines[..i + 1]) ==
      Plan(lines[..i]) + (if i > 0 then [ShiftEnter] else []) + (if lines[i] != "" then [TypeText(lines[i])] else [])
  {
    assert lines[..i + 1][..i] == lines[..i];
  }

  /** The typing loop: the actions of Plan(lines) run in order until one fails.
      `events` are the actions run, the failed one included. `typingOk` is whether
      the loop leaves no error behind: with no action run, that is the outcome of
      clearing the input box before it (whatsapp_client.go:349-357), since the
      loop then never assigns the error. */
  method TypeMessage(lines: seq<string>, ok: nat -> bool, clearOk: bool) returns (events: seq<Keystroke>, typingOk: bool)
    ensures |events| <= |Plan(lines)| && events == Plan(lines)[..|events|]
    ensures forall n :: 0 <= n < |events| - 1 ==> ok(n)
    ensures events != Plan(lines) ==> events != [] && !ok(|events| - 1)
    ensures (forall n :: 0 <= n < |Plan(lines)| ==> ok(n)) ==> events == Plan(lines)
    ensures typingOk <==> if events == [] then clearOk else ok(|events| - 1)
  {
    ghost var plan := Plan(lines);
    events := [];
    typingOk := clearOk;
    var i := 0;
    while i < |lines|
      invariant 0 <= i <= |lines|
      invariant events == Plan(lines[..i])
      invariant AllOk(ok, |events|)
      invariant typingOk <==> if events == [] then clearOk else ok(|events| - 1)
      invariant |events| <= |plan| && events == plan[..|events|]
    {
      PlanStep(lines, i);
      PlanPrefix(lines, i + 1);
      ghost var start := events;
      ghost var step := Plan(lines[..i + 1]);
      if i > 0 {
        typingOk := ok(|events|);
        events := events + [ShiftEnter];
        if !typingOk {
          assert events == step[..|events|];
          return;
        }
        AllOkStep(ok, |start|);
      }
      if lines[i] != "" {
        ghost var before := events;
        typingOk := ok(|events|);
        events := events + [TypeText(lines[i])];
        if !typingOk {
          assert events == step[..|events|];
          return;
        }
        AllOkStep(ok, |before|);
      }
      assert events == step;
      i := i + 1;
    }
    assert lines[..|lines|] == lines;
  }

  predicate AllOk(ok: nat -> bool, k: nat) {
    forall n :: 0 <= n < k ==> ok(n)
  }

  lemma AllOkStep(ok: nat -> bool, k: nat)
    requires AllOk(ok, k) && ok(k)
    ensures AllOk(ok, k + 1)
  {
  }

  /** The plan of a prefix of the lines is a prefix of the plan. */
  lemma {:induction false} PlanPrefix(lines: seq<string>, i: nat)
    requires i <= |lines|
    ensures |Plan(lines[..i])| <= |Plan(lines)| && Plan(lines[..i]) == Plan(lines)[..|Plan(lines[..i])|]
    decreases |lines| - i
  {
    if i < |lines| {
      PlanPrefix(lines, i + 1);
      PlanStep(lines, i);
    } else {
      assert lines[..i] == lines;
    }
  }

  // ---------------------------------------------------------------------------
  // HTML fragment, whatsapp_client.go:420-432

  /** '&' first, then '<', then '>'. */
  function EscapeHtml(line: string): string {
    ReplaceChar(ReplaceChar(ReplaceChar(line, '&', "&amp;"), '<', "&lt;"), '>', "&gt;")
  }

  function EscapeHtmlChar(c: char): string {
    if c == '&' then "&amp;" else if c == '<' then "&lt;" else if c == '>' then "&gt;" else [c]
  }

  /** Because '&' is escaped first, the chain escapes each character of the input exactly once. */
  lemma EscapeHtmlIsPerChar(line: string)
    ensures EscapeHtml(line) == MapChars(line, EscapeHtmlChar)
  {
    forall a, b ensures EscapeHtml(a + b) == EscapeHtml(a) + EscapeHtml(b) {
      ReplaceCharAppend(a, b, '&', "&amp;");
      var a1, b1 := ReplaceChar(a, '&', "&amp;"), ReplaceChar(b, '&', "&amp;");
      ReplaceCharAppend(a1, b1, '<', "&lt;");
      ReplaceCharAppend(ReplaceChar(a1, '<', "&lt;"), ReplaceChar(b1, '<', "&lt;"), '>', "&gt;");
    }
    forall c ensures EscapeHtml([c]) == EscapeHtmlChar(c) {
      EscapeHtmlOneChar(c);
    }
    ChainIsMapChars(line, EscapeHtml, EscapeHtmlChar);
  }

  lemma EscapeHtmlOneChar(c: char)
    ensures EscapeHtml([c]) == EscapeHtmlChar(c)
  {
    ReplaceCharSingle(c, '&', "&amp;");
    if c == '&' {
      ReplaceCharAbsent("&amp;", '<', "&lt;");
      ReplaceCharAbsent("&amp;", '>', "&gt;");
    } else {
      ReplaceCharSingle(c, '<', "&lt;");
      if c == '<' {
        ReplaceCharAbsent("&lt;", '>', "&gt;");
      } else {
        ReplaceCharSingle(c, '>', "&gt;");
      }
    }
  }

  lemma {:induction false} EscapedHtmlHasNoBrackets(s: string)
    ensures '<' !in MapChars(s, EscapeHtmlChar) && '>' !in MapChars(s, EscapeHtmlChar)
  {
    if s != [] {
      EscapedHtmlHasNoBrackets(s[1..]);
    }
  }

  /** Decodes the three entities EscapeHtml writes. */
  function UnescapeHtml(s: string): string {
    if s == [] then []
    else if |s| >= 5 && s[..5] == "&amp;" then "&" + UnescapeHtml(s[5..])
    else if |s| >= 4 && s[..4] == "&lt;" then "<" + UnescapeHtml(s[4..])
    else if |s| >= 4 && s[..4] == "&gt;" then ">" + UnescapeHtml(s[4..])
    else [s[0]] + UnescapeHtml(s[1..])
  }

  lemma {:induction false} UnescapeEscapedHtml(s: string)
    ensures UnescapeHtml(MapChars(s, EscapeHtmlChar)) == s
  {
    if s != [] {
      UnescapeEscapedHtml(s[1..]);
      var e := MapChars(s, EscapeHtmlChar);
      var rest := MapChars(s[1..], EscapeHtmlChar);
      var head := EscapeHtmlChar(s[0]);
      assert e == head + rest;
      if s[0] == '&' {
        assert e[..5] == "&amp;" && e[5..] == rest;
      } else if s[0] == '<' {
        assert |e| >= 5 ==> e[..5] != "&amp;" by { assert e[1] == 'l'; }
        assert e[..4] == "&lt;" && e[4..] == rest;
      } else if s[0] == '>' {
        assert |e| >= 5 ==> e[..5] != "&amp;" by { assert e[1] == 'g'; }
        assert e[..4] != "&lt;" by { assert e[1] == 'g'; }
        assert e[..4] == "&gt;" && e[4..] == rest;
      } else {
        assert e[0] == s[0] && e[1..] == rest;
        assert |e| >= 5 ==> e[..5] != "&amp;" by { if |e| >= 5 { assert e[..5][0] == s[0]; } }
        assert |e| >= 4 ==> e[..4] != "&lt;" && e[..4] != "&gt;" by { if |e| >= 4 { assert e[..4][0] == s[0]; } }
      }
    }
  }

  /** The escaped line has no '<' or '>', and decoding the entities gives the line back. */
  lemma EscapeHtmlProperties(line: string)
    ensures '<' !in EscapeHtml(line) && '>' !in EscapeHtml(line)
    ensures UnescapeHtml(EscapeHtml(line)) == line
  {
    EscapeHtmlIsPerChar(line);
    EscapedHtmlHasNoBrackets(line);
    UnescapeEscapedHtml(line);
  }

  /** The fragment of one line: "<br>" for an empty line, else the escaped line in a div. */
  function Fragment(line: string): string {
    if line == "" then "<br>" else "<div>" + EscapeHtml(line) + "</div>"
  }

  /** The fragments of the lines, concatenated in order. */
  function HtmlOf(lines: seq<string>): string {
    if lines == [] then "" else HtmlOf(lines[..|lines| - 1]) + Fragment(lines[|lines| - 1])
  }

  /** The HTML loop, whatsapp_client.go:421-432. */
  method BuildHtml(lines: seq<string>) returns (htmlContent: string)
    ensures htmlContent == HtmlOf(lines)
  {
    htmlContent := "";
    for i := 0 to |lines|
      invariant htmlContent == HtmlOf(lines[..i])
    {
      assert lines[..i + 1][..i] == lines[..i];
      var line := lines[i];
      if line == "" {
        htmlContent := htmlContent + "<br>";
      } else {
        var escapedLine := ReplaceChar(line, '&', "&amp;");
        escapedLine := ReplaceChar(escapedLine, '<', "&lt;");
        escapedLine := ReplaceChar(escapedLine, '>', "&gt;");
        htmlContent := htmlContent + "<div>" + escapedLine + "</div>";
      }
    }
    assert lines[..|lines|] == lines;
  }

  lemma {:induction false} HtmlOfCons(line: string, lines: seq<string>)
    ensures HtmlOf([line] + lines) == Fragment(line) + HtmlOf(lines)
    decreases |lines|
  {
    var l := [line] + lines;
    if lines != [] {
      var init := lines[..|lines| - 1];
      assert l[..|l| - 1] == [line] + init;
      assert l[|l| - 1] == lines[|lines| - 1];
      assert HtmlOf(l) == HtmlOf([line] + init) + Fragment(lines[|lines| - 1]);
      HtmlOfCons(line, init);
      assert HtmlOf(lines) == HtmlOf(init) + Fragment(lines[|lines| - 1]);
    } else {
      assert l[..0] == [];
      assert HtmlOf(l) == HtmlOf([]) + Fragment(line);
    }
  }

  /** Index of the first '<' in `s`, or |s|. */
  function IndexOfOpen(s: string): (k: nat)
    ensures k <= |s|
    ensures forall j :: 0 <= j < k ==> s[j] != '<'
    ensures k < |s| ==> s[k] == '<'
  {
    if s == [] || s[0] == '<' then 0 else 1 + IndexOfOpen(s[1..])
  }

  lemma {:induction false} IndexOfOpenPast(e: string, t: string)
    requires '<' !in e && t != [] && t[0] == '<'
    ensures IndexOfOpen(e + t) == |e|
  {
    if e != [] {
      assert (e + t)[1..] == e[1..] + t;
      IndexOfOpenPast(e[1..], t);
    }
  }

  /** Reads the fragments back: one line per "<br>" or "<div>…</div>". */
  function ParseHtml(s: string): seq<string>
    decreases |s|
  {
    if |s| >= 4 && s[..4] == "<br>" then [""] + ParseHtml(s[4..])
    else if |s| >= 5 && s[..5] == "<div>" then
      var k := IndexOfOpen(s[5..]);
      var rest := s[5 + k..];
      [UnescapeHtml(s[5..5 + k])] + (if |rest| >= 6 then ParseHtml(rest[6..]) else [])
    else []
  }

  lemma ParseDiv(e: string, tail: string)
    requires '<' !in e
    ensures ParseHtml("<div>" + e + "</div>" + tail) == [UnescapeHtml(e)] + ParseHtml(tail)
  {
    var closeTail := "</div>" + tail;
    var after := e + closeTail;
    var s := "<div>" + e + "</div>" + tail;
    assert s == "<div>" + after;
    assert s[1] == 'd';
    assert s[..5] == "<div>" && s[5..] == after;
    IndexOfOpenPast(e, closeTail);
    var k := IndexOfOpen(s[5..]);
    assert k == |e|;
    assert after[..|e|] == e && after[|e|..] == closeTail;
    assert s[5..5 + k] == e;
    var rest := s[5 + k..];
    assert rest == closeTail;
    assert |rest| >= 6 && rest[6..] == tail;
    assert !(|s| >= 4 && s[..4] == "<br>");
    assert ParseHtml(s) == [UnescapeHtml(s[5..5 + k])] + ParseHtml(rest[6..]);
  }

  lemma ParseFragment(line: string, tail: string)
    ensures ParseHtml(Fragment(line) + tail) == [line] + ParseHtml(tail)
  {
    if line == "" {
      var s := Fragment(line) + tail;
      assert s[..4] == "<br>" && s[4..] == tail;
    } else {
      EscapeHtmlProperties(line);
      ParseDiv(EscapeHtml(line), tail);
    }
  }

  /** The HTML has exactly one fragment per line: reading it back gives the lines. */
  lemma {:induction false} ParseHtmlOf(lines: seq<string>)
    ensures ParseHtml(HtmlOf(lines)) == lines
  {
    if lines != [] {
      ParseHtmlOf(lines[1..]);
      assert lines == [lines[0]] + lines[1..];
      HtmlOfCons(lines[0], lines[1..]);
      ParseFragment(lines[0], HtmlOf(lines[1..]));
    } else {
      assert HtmlOf(lines) == "";
    }
  }

  // ---------------------------------------------------------------------------
  // escapeJSString, whatsapp_client.go:974-985

  /** The seven ReplaceAll calls in source order. */
  function EscapeJSBody(s: string): string {
    var e1 := ReplaceChar(s, '\\', "\\\\");
    var e2 := ReplaceChar(e1, '`', "\\`");
    var e3 := ReplaceChar(e2, '\n', "\\n");
    var e4 := ReplaceChar(e3, '\r', "\\r");
    var e5 := ReplaceChar(e4, '\t', "\\t");
    var e6 := ReplaceChar(e5, '"', "\\\"");
    ReplaceChar(e6, '\'', "\\'")
  }

  function EscapeJSString(s: string): string {
    "\"" + EscapeJSBody(s) + "\""
  }

  function EscapeJSChar(c: char): string {
    if c == '\\' then "\\\\"
    else if c == '`' then "\\`"
    else if c == '\n' then "\\n"
    else if c == '\r' then "\\r"
    else if c == '\t' then "\\t"
    else if c == '"' then "\\\""
    else if c == '\'' then "\\'"
    else [c]
  }

  lemma EscapeJSBodyAppend(a: string, b: string)
    ensures EscapeJSBody(a + b) == EscapeJSBody(a) + EscapeJSBody(b)
  {
    var a1, b1 := ReplaceChar(a, '\\', "\\\\"), ReplaceChar(b, '\\', "\\\\");
    ReplaceCharAppend(a, b, '\\', "\\\\");
    var a2, b2 := ReplaceChar(a1, '`', "\\`"), ReplaceChar(b1, '`', "\\`");
    ReplaceCharAppend(a1, b1, '`', "\\`");
    var a3, b3 := ReplaceChar(a2, '\n', "\\n"), ReplaceChar(b2, '\n', "\\n");
    ReplaceCharAppend(a2, b2, '\n', "\\n");
    var a4, b4 := ReplaceChar(a3, '\r', "\\r"), ReplaceChar(b3, '\r', "\\r");
    ReplaceCharAppend(a3, b3, '\r', "\\r");
    var a5, b5 := ReplaceChar(a4, '\t', "\\t"), ReplaceChar(b4, '\t', "\\t");
    ReplaceCharAppend(a4, b4, '\t', "\\t");
    var a6, b6 := ReplaceChar(a5, '"', "\\\""), ReplaceChar(b5, '"', "\\\"");
    ReplaceCharAppend(a5, b5, '"', "\\\"");
    ReplaceCharAppend(a6, b6, '\'', "\\'");
  }

  /** Replacing in a string that is the escape of one character: later steps never
      touch what an earlier step wrote. */
  lemma EscapeJSOneChar(c: char)
    ensures EscapeJSBody([c]) == EscapeJSChar(c)
  {
    var e1 := ReplaceChar([c], '\\', "\\\\");
    var e2 := ReplaceChar(e1, '`', "\\`");
    var e3 := ReplaceChar(e2, '\n', "\\n");
    var e4 := ReplaceChar(e3, '\r', "\\r");
    var e5 := ReplaceChar(e4, '\t', "\\t");
    var e6 := ReplaceChar(e5, '"', "\\\"");
    ReplaceStepOnEscape(c, [c], '\\', "\\\\");
    ReplaceStepOnEscape(c, e1, '`', "\\`");
    ReplaceStepOnEscape(c, e2, '\n', "\\n");
    ReplaceStepOnEscape(c, e3, '\r', "\\r");
    ReplaceStepOnEscape(c, e4, '\t', "\\t");
    ReplaceStepOnEscape(c, e5, '"', "\\\"");
    ReplaceStepOnEscape(c, e6, '\'', "\\'");
  }

  /** One step of the chain on a one-character input: it either meets the character
      itself (and writes its escape) or finds nothing to replace. */
  lemma ReplaceStepOnEscape(c: char, cur: string, target: char, rep: string)
    requires cur == [c] || (|cur| == 2 && cur[0] == '\\' && cur[1] != target && target != '\\')
    ensures ReplaceChar(cur, target, rep) == if cur == [c] && c == target then rep else cur
  {
    if cur == [c] {
      ReplaceCharSingle(c, target, rep);
    } else {
      ReplaceCharAbsent(cur, target, rep);
    }
  }

  /** The chain escapes each character exactly once. */
  lemma EscapeJSIsPerChar(s: string)
    ensures EscapeJSBody(s) == MapChars(s, EscapeJSChar)
  {
    forall a, b ensures EscapeJSBody(a + b) == EscapeJSBody(a) + EscapeJSBody(b) {
      EscapeJSBodyAppend(a, b);
    }
    forall c ensures EscapeJSBody([c]) == EscapeJSChar(c) {
      EscapeJSOneChar(c);
    }
    ChainIsMapChars(s, EscapeJSBody, EscapeJSChar);
  }

  /** Decodes the backslash escapes EscapeJSString writes. */
  function UnescapeJS(s: string): string {
    if s == [] then []
    else if |s| >= 2 && s[0] == '\\' then [DecodeJSChar(s[1])] + UnescapeJS(s[2..])
    else [s[0]] + UnescapeJS(s[1..])
  }

  /** The character a backslash escape stands for. */
  function DecodeJSChar(c: char): char {
    if c == 'n' then '\n' else if c == 'r' then '\r' else if c == 't' then '\t' else c
  }

  /** Each escape of one character is that character, or a backslash and a
      character that decodes back to it. */
  lemma EscapeJSCharDecodes(c: char)
    ensures var e := EscapeJSChar(c);
      || (e == [c] && c != '\\' && c != '\n' && c != '\r' && c != '\t')
      || (|e| == 2 && e[0] == '\\' && DecodeJSChar(e[1]) == c && e[1] != '\n' && e[1] != '\r' && e[1] != '\t')
  {
  }

  lemma {:induction false} EscapedJSProperties(s: string)
    ensures '\n' !in MapChars(s, EscapeJSChar) && '\r' !in MapChars(s, EscapeJSChar) && '\t' !in MapChars(s, EscapeJSChar)
    ensures UnescapeJS(MapChars(s, EscapeJSChar)) == s
  {
    if s != [] {
      EscapedJSProperties(s[1..]);
      var head := EscapeJSChar(s[0]);
      EscapeJSCharDecodes(s[0]);
      var rest := MapChars(s[1..], EscapeJSChar);
      var e := head + rest;
      assert MapChars(s, EscapeJSChar) == e;
      if |head| == 2 {
        assert e[0] == '\\' && e[1] == head[1] && e[2..] == rest;
        assert UnescapeJS(e) == [s[0]] + UnescapeJS(rest);
      } else {
        assert e[0] == s[0] && e[1..] == rest;
        assert UnescapeJS(e) == [s[0]] + UnescapeJS(rest);
      }
    }
  }

  /** The result is quoted at both ends, holds no raw newline, carriage return or tab,
      and decoding its escapes gives the input back. */
  lemma EscapeJSStringProperties(s: string)
    ensures var r := EscapeJSString(s);
      && |r| >= 2 && r[0] == '"' && r[|r| - 1] == '"'
      && '\n' !in r && '\r' !in r && '\t' !in r
      && UnescapeJS(r[1..|r| - 1]) == s
  {
    EscapeJSIsPerChar(s);
    EscapedJSProperties(s);
    var r := EscapeJSString(s);
    assert r[1..|r| - 1] == EscapeJSBody(s);
  }
}
