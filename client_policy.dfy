/**
 * The decisions of the WhatsApp client that do not depend on the page:
 * the rate-limit interval (whatsapp_client.go:30-33), the retry loop and its
 * backoff schedule (whatsapp_client.go:174-200), the MIME type chosen from
 * the image's extension (whatsapp_client.go:659-670), and the selector
 * searches that stop at the first visible element (whatsapp_client.go:311-321,
 * 780-800). The browser is an oracle: `attemptOk(k)` is the outcome of the
 * k-th send attempt, `visible(selector, bySearch)` whether waiting for the
 * selector succeeds.
 */
module ClientPolicy {
  import opened Wrappers
  import opened GoStrings

  // ---------------------------------------------------------------------------
  // Rate limiting, whatsapp_client.go:30-33

  const NanosPerSecond: nat := 1_000_000_000

  /** The interval of the rate-limit ticker, in nanoseconds: one second divided by
      the messages per second, truncated. `time.Tick` gives no channel for a zero
      interval, so no limiter is installed then either. */
  function TickInterval(enabled: bool, messagesPerSecond: int): Option<nat> {
    if enabled && messagesPerSecond > 0 && NanosPerSecond / messagesPerSecond > 0
    then Some(NanosPerSecond / messagesPerSecond)
    else None
  }

  /** A limiter exists iff limiting is enabled with 1..10^9 messages per second, and its
      interval is the largest whole number of nanoseconds that fits `messagesPerSecond`
      times into one second. */
  lemma TickIntervalProperties(enabled: bool, messagesPerSecond: int)
    ensures TickInterval(enabled, messagesPerSecond).Some? <==>
      enabled && 0 < messagesPerSecond <= NanosPerSecond
    ensures TickInterval(enabled, messagesPerSecond).Some? ==>
      var r := TickInterval(enabled, messagesPerSecond).value;
      r > 0 && r * messagesPerSecond <= NanosPerSecond < (r + 1) * messagesPerSecond
  {
    if enabled && messagesPerSecond > 0 {
      var q := NanosPerSecond / messagesPerSecond;
      assert NanosPerSecond == q * messagesPerSecond + NanosPerSecond % messagesPerSecond;
      if messagesPerSecond <= NanosPerSecond {
        assert q >= 1;
      } else {
        assert q == 0;
      }
    }
  }

  // ---------------------------------------------------------------------------
  // Retry schedule, whatsapp_client.go:174-200

  /** The delay after one backoff step: `grow` is the multiplication by the
      backoff multiplier, and the result is capped at `maxDelay`. */
  function Backoff(delay: int, maxDelay: int, grow: int -> int): int {
    if grow(delay) > maxDelay then maxDelay else grow(delay)
  }

  /** The wait before retry k + 1. */
  function NthDelay(initialDelay: int, maxDelay: int, grow: int -> int, k: nat): int {
    if k == 0 then initialDelay else Backoff(NthDelay(initialDelay, maxDelay, grow, k - 1), maxDelay, grow)
  }

  /** The waits before the first n retries, in order. */
  function Waits(initialDelay: int, maxDelay: int, grow: int -> int, n: nat): (r: seq<int>)
    ensures |r| == n
  {
    if n == 0 then [] else Waits(initialDelay, maxDelay, grow, n - 1) + [NthDelay(initialDelay, maxDelay, grow, n - 1)]
  }

  /** Attempts the loop allows: MaxRetries + 1, and none when MaxRetries is negative. */
  function AttemptBudget(maxRetries: int): nat {
    if maxRetries < 0 then 0 else maxRetries + 1
  }

  /** The first wait is the initial delay, uncapped; every later wait is at most the cap. */
  lemma {:induction false} WaitsBounds(initialDelay: int, maxDelay: int, grow: int -> int, n: nat)
    ensures n > 0 ==> Waits(initialDelay, maxDelay, grow, n)[0] == initialDelay
    ensures forall k :: 1 <= k < n ==> Waits(initialDelay, maxDelay, grow, n)[k] <= maxDelay
  {
    if n > 0 {
      WaitsBounds(initialDelay, maxDelay, grow, n - 1);
      var w := Waits(initialDelay, maxDelay, grow, n);
      assert w[..n - 1] == Waits(initialDelay, maxDelay, grow, n - 1);
      assert n - 1 > 0 ==> w[n - 1] <= maxDelay;
      forall k | 1 <= k < n
        ensures w[k] <= maxDelay
      {
        if k < n - 1 {
          assert w[k] == w[..n - 1][k];
        }
      }
    }
  }

  /** With a multiplier that does not shrink non-negative delays and a non-negative
      initial delay within the cap, the waits never shrink. */
  lemma {:induction false} WaitsNondecreasing(initialDelay: int, maxDelay: int, grow: int -> int, n: nat)
    requires forall d :: 0 <= d ==> grow(d) >= d
    requires 0 <= initialDelay <= maxDelay
    ensures forall j, k :: 0 <= j < k < n ==> Waits(initialDelay, maxDelay, grow, n)[j] <= Waits(initialDelay, maxDelay, grow, n)[k]
    ensures forall k :: 0 <= k < n ==> Waits(initialDelay, maxDelay, grow, n)[k] <= maxDelay
  {
    if n > 0 {
      WaitsNondecreasing(initialDelay, maxDelay, grow, n - 1);
      WaitsBounds(initialDelay, maxDelay, grow, n);
      var w := Waits(initialDelay, maxDelay, grow, n);
      var prev := Waits(initialDelay, maxDelay, grow, n - 1);
      assert w == prev + [NthDelay(initialDelay, maxDelay, grow, n - 1)];
      if n > 1 {
        assert prev[n - 2] == NthDelay(initialDelay, maxDelay, grow, n - 2) by {
          assert prev == Waits(initialDelay, maxDelay, grow, n - 2) + [NthDelay(initialDelay, maxDelay, grow, n - 2)];
        }
        assert w[n - 2] <= w[n - 1];
      }
    }
  }

  /** The send loop: up to AttemptBudget(maxRetries) attempts, each but the first
      after a wait, stopping at the first success. Returns whether a send
      succeeded, how many attempts were made and the waits between them. */
  method SendWithRetry(maxRetries: int, initialDelay: int, maxDelay: int, grow: int -> int, attemptOk: nat -> bool)
    returns (sent: bool, attempts: nat, waits: seq<int>)
    ensures attempts <= AttemptBudget(maxRetries)
    ensures sent <==> attempts > 0 && attemptOk(attempts - 1)
    ensures forall k :: 0 <= k < attempts - 1 ==> !attemptOk(k)
    ensures !sent ==> attempts == AttemptBudget(maxRetries)
    ensures waits == Waits(initialDelay, maxDelay, grow, if attempts == 0 then 0 else attempts - 1)
  {
    var retryDelay := initialDelay;
    var attempt: nat := 0;
    waits := [];
    while attempt <= maxRetries
      invariant attempt <= AttemptBudget(maxRetries)
      invariant forall k :: 0 <= k < attempt ==> !attemptOk(k)
      invariant retryDelay == NthDelay(initialDelay, maxDelay, grow, if attempt == 0 then 0 else attempt - 1)
      invariant waits == Waits(initialDelay, maxDelay, grow, if attempt == 0 then 0 else attempt - 1)
      decreases maxRetries - attempt
    {
      if attempt > 0 {
        waits := waits + [retryDelay];
        retryDelay := grow(retryDelay);
        if retryDelay > maxDelay {
          retryDelay := maxDelay;
        }
      }
      if attemptOk(attempt) {
        return true, attempt + 1, waits;
      }
      attempt := attempt + 1;
    }
    return false, attempt, waits;
  }

  // ---------------------------------------------------------------------------
  // MIME type, whatsapp_client.go:659-670

  /** The scan of filepath.Ext over path[..i], from the back: the index of the
      first '.' met before any '/', or None. */
  function ExtIndex(path: string, i: nat): (r: Option<nat>)
    requires i <= |path|
    ensures r.Some? ==> r.value < i
  {
    if i == 0 || path[i - 1] == '/' then None
    else if path[i - 1] == '.' then Some(i - 1)
    else ExtIndex(path, i - 1)
  }

  /** filepath.Ext on a '/'-separated path. */
  function Ext(path: string): string {
    match ExtIndex(path, |path|)
    case None => ""
    case Some(k) => path[k..]
  }

  /** A dot followed by characters that are neither '.' nor '/'. */
  predicate IsDotSuffix(e: string) {
    |e| >= 1 && e[0] == '.' && forall i :: 1 <= i < |e| ==> e[i] != '.' && e[i] != '/'
  }

  /** No '.' in path[..i] without a '/' after it, still inside path[..i]. */
  predicate NoDotAfterSlash(path: string, i: nat)
    requires i <= |path|
  {
    forall k :: 0 <= k < i && path[k] == '.' ==> exists j :: k < j < i && path[j] == '/'
  }

  lemma {:induction false} ExtIndexProperties(path: string, i: nat)
    requires i <= |path|
    ensures ExtIndex(path, i).None? <==> NoDotAfterSlash(path, i)
    ensures ExtIndex(path, i).Some? ==>
      var k := ExtIndex(path, i).value;
      path[k] == '.' && forall j :: k < j < i ==> path[j] != '.' && path[j] != '/'
  {
    if i > 0 && path[i - 1] == '/' {
      assert NoDotAfterSlash(path, i) by {
        forall k | 0 <= k < i && path[k] == '.'
          ensures exists j :: k < j < i && path[j] == '/'
        {
          assert k < i - 1 && path[i - 1] == '/';
        }
      }
    } else if i > 0 && path[i - 1] != '.' {
      ExtIndexProperties(path, i - 1);
      if NoDotAfterSlash(path, i - 1) {
        forall k | 0 <= k < i && path[k] == '.'
          ensures exists j :: k < j < i && path[j] == '/'
        {
          var j :| k < j < i - 1 && path[j] == '/';
        }
      } else {
        var k :| 0 <= k < i - 1 && path[k] == '.' && !(exists j :: k < j < i - 1 && path[j] == '/');
        assert !(exists j :: k < j < i && path[j] == '/');
      }
    }
  }

  /** The extension is empty exactly when no '.' follows the last '/'; otherwise it
      is a dot suffix of the path. */
  lemma ExtProperties(path: string)
    ensures Ext(path) == "" <==> NoDotAfterSlash(path, |path|)
    ensures Ext(path) != "" ==> IsDotSuffix(Ext(path)) && Ext(path) == path[|path| - |Ext(path)|..]
  {
    ExtIndexProperties(path, |path|);
  }

  lemma {:induction false} ExtIndexOfDot(p: string, lo: nat, i: nat)
    requires lo < i <= |p| && p[lo] == '.'
    requires forall j :: lo < j < i ==> p[j] != '.' && p[j] != '/'
    ensures ExtIndex(p, i) == Some(lo)
  {
    if i - 1 > lo {
      ExtIndexOfDot(p, lo, i - 1);
    }
  }

  /** The extension of `stem + e` is `e` whenever `e` is a dot suffix. */
  lemma ExtOfDotSuffix(stem: string, e: string)
    requires IsDotSuffix(e)
    ensures Ext(stem + e) == e
  {
    var p := stem + e;
    assert forall j :: |stem| < j < |p| ==> p[j] == e[j - |stem|];
    ExtIndexOfDot(p, |stem|, |p|);
    assert p[|stem|..] == e;
  }

  /** The switch on the lower-cased extension; image/png for anything else. */
  function MimeForExtension(ext: string): string {
    if ext == ".jpg" || ext == ".jpeg" then "image/jpeg"
    else if ext == ".png" then "image/png"
    else if ext == ".gif" then "image/gif"
    else if ext == ".webp" then "image/webp"
    else "image/png"
  }

  function MimeType(path: string): string {
    MimeForExtension(ToLower(Ext(path)))
  }

  /** The type depends only on the extension, compared case-insensitively, and is
      one of the four image types. */
  lemma MimeTypeOfExtension(stem: string, e: string)
    requires IsDotSuffix(e)
    ensures MimeType(stem + e) == MimeForExtension(ToLower(e))
    ensures MimeType(stem + e) in {"image/jpeg", "image/png", "image/gif", "image/webp"}
  {
    ExtOfDotSuffix(stem, e);
  }

  /** A path with no extension gets image/png. */
  lemma MimeTypeWithoutExtension(path: string)
    requires NoDotAfterSlash(path, |path|)
    ensures MimeType(path) == "image/png"
  {
    ExtProperties(path);
  }

  // ---------------------------------------------------------------------------
  // Selector searches, whatsapp_client.go:311-321 and 780-800

  /** A caption selector is an XPath query iff it starts with "//" or "(". */
  function IsXPath(selector: string): (r: bool)
    ensures r <==> (|selector| >= 2 && selector[0] == '/' && selector[1] == '/') || (|selector| >= 1 && selector[0] == '(')
  {
    HasPrefix(selector, "//") || HasPrefix(selector, "(")
  }

  function HasPrefix(s: string, prefix: string): bool {
    |prefix| <= |s| && s[..|prefix|] == prefix
  }

  /** The query mode: the input box is always searched by XPath, a caption
      selector by what IsXPath says of it. */
  function BySearch(caption: bool, selector: string): bool {
    if caption then IsXPath(selector) else true
  }

  /** Tries the selectors in order and returns the index of the first one that
      becomes visible, or None. */
  method FindSelector(selectors: seq<string>, caption: bool, visible: (string, bool) -> bool) returns (found: Option<nat>)
    ensures found.Some? ==> found.value < |selectors| && visible(selectors[found.value], BySearch(caption, selectors[found.value]))
    ensures found.Some? ==> forall j :: 0 <= j < found.value ==> !visible(selectors[j], BySearch(caption, selectors[j]))
    ensures found.None? <==> forall j :: 0 <= j < |selectors| ==> !visible(selectors[j], BySearch(caption, selectors[j]))
  {
    found := None;
    for i := 0 to |selectors|
      invariant forall j :: 0 <= j < i ==> !visible(selectors[j], BySearch(caption, selectors[j]))
    {
      var selector := selectors[i];
      var bySearch := if caption then HasPrefix(selector, "//") || HasPrefix(selector, "(") else true;
      if visible(selector, bySearch) {
        found := Some(i);
        return;
      }
    }
  }
}
