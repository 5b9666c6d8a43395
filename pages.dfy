/**
 * The "sample the first pages for text" check the combiner runs in several
 * places before deciding on OCR. A page has text when PyPDF2 extracts
 * something that is not blank after `strip()`; the callers differ in how
 * many pages they look at and in what they do when extraction raises.
 */
module Pages {
  import opened Strings
  import opened Exceptions
  import opened World

  /** How many pages `pages[:k]` selects from `n` pages (a negative `k` drops pages from the end). */
  function SliceCount(n: nat, k: int): (c: nat)
    ensures c <= n
    ensures k >= 0 ==> c == (if k < n then k else n)
    ensures k < 0 ==> c == (if n + k > 0 then n + k else 0)
  {
    if k >= 0 then (if k < n then k else n)
    else if n + k > 0 then n + k else 0
  }

  /** How many pages `range(min(k, n))` visits from `n` pages (none for a negative `k`). */
  function RangeCount(n: nat, k: int): (c: nat)
    ensures c <= n
    ensures k <= 0 ==> c == 0
    ensures k > 0 ==> c == (if k < n then k else n)
  {
    if k <= 0 then 0 else if k < n then k else n
  }

  /** `text and text.strip()`: the page's text was extracted and is not blank. */
  predicate HasText(p: PageText)
  {
    p.Extracted? && !IsBlank(p.text)
  }

  /** The page's text was extracted and is blank. */
  predicate Blank(p: PageText)
  {
    p.Extracted? && IsBlank(p.text)
  }

  /** Extracting the page's text raises. */
  predicate Fails(p: PageText)
  {
    p.ExtractFails?
  }

  /** How a scan of sample pages ends: a page with text, no text at all, or an extraction that raised. */
  datatype Scan = FoundText | NoText | ScanFailed(error: Error)

  /**
   * The pages in order, stopping at the first with text or the first whose
   * extraction raises.
   */
  function ScanPages(ps: seq<PageText>): (r: Scan)
    ensures r == FoundText <==> FirstAfterBlank(ps, HasText)
    ensures r == NoText <==> forall i :: 0 <= i < |ps| ==> Blank(ps[i])
    ensures r.ScanFailed? <==> FirstAfterBlank(ps, Fails)
    ensures r.ScanFailed? ==> FirstAfterBlank(ps, (p: PageText) => p == ExtractFails(r.error))
  {
    if ps == [] then NoText
    else
      var rest := ScanPages(ps[1..]);
      AllBlankShift(ps);
      match ps[0]
      case ExtractFails(e) =>
        assert ((p: PageText) => p == ExtractFails(e))(ps[0]);
        ScanFailed(e)
      case Extracted(text) =>
        if !IsBlank(text) then FoundText
        else
          ShiftFirst(ps, HasText);
          ShiftFirst(ps, Fails);
          if rest.ScanFailed? then
            ShiftFirst(ps, (p: PageText) => p == ExtractFails(rest.error));
            rest
          else rest
  }

  /** Some page satisfies `stop`, and every page before it is blank. */
  predicate FirstAfterBlank(ps: seq<PageText>, stop: PageText -> bool)
  {
    exists i :: 0 <= i < |ps| && stop(ps[i]) && forall j :: 0 <= j < i ==> Blank(ps[j])
  }

  /** Past a blank first page, the search goes on in the rest of the pages. */
  lemma {:induction false} ShiftFirst(ps: seq<PageText>, stop: PageText -> bool)
    requires ps != [] && Blank(ps[0]) && !stop(ps[0])
    ensures FirstAfterBlank(ps, stop) <==> FirstAfterBlank(ps[1..], stop)
  {
    var tail := ps[1..];
    if FirstAfterBlank(tail, stop) {
      var i :| 0 <= i < |tail| && stop(tail[i]) && forall j :: 0 <= j < i ==> Blank(tail[j]);
      assert ps[i + 1] == tail[i];
      forall j | 0 <= j < i + 1 ensures Blank(ps[j]) {
        if j > 0 {
          assert ps[j] == tail[j - 1];
        }
      }
    }
    if FirstAfterBlank(ps, stop) {
      var i :| 0 <= i < |ps| && stop(ps[i]) && forall j :: 0 <= j < i ==> Blank(ps[j]);
      if i > 0 {
        assert tail[i - 1] == ps[i];
        forall j | 0 <= j < i - 1 ensures Blank(tail[j]) {
          assert tail[j] == ps[j + 1];
        }
      }
    }
  }

  /** All pages are blank when the first is and all the rest are. */
  lemma {:induction false} AllBlankShift(ps: seq<PageText>)
    requires ps != []
    ensures (forall i :: 0 <= i < |ps| ==> Blank(ps[i])) <==> Blank(ps[0]) && forall i :: 0 <= i < |ps[1..]| ==> Blank(ps[1..][i])
  {
    assert forall i :: 0 <= i < |ps[1..]| ==> ps[1..][i] == ps[i + 1];
  }

  /** The tolerant scan: true when some page has text; a page whose extraction raises is passed over. */
  function AnyText(ps: seq<PageText>): (r: bool)
    ensures r <==> exists i :: 0 <= i < |ps| && HasText(ps[i])
  {
    if ps == [] then false
    else
      assert forall i :: 0 < i < |ps| ==> ps[i] == ps[1..][i - 1];
      HasText(ps[0]) || AnyText(ps[1..])
  }

  /** When no extraction raises, the strict scan and the tolerant scan agree. */
  lemma {:induction false} ScansAgree(ps: seq<PageText>)
    requires forall i :: 0 <= i < |ps| ==> ps[i].Extracted?
    ensures ScanPages(ps) == (if AnyText(ps) then FoundText else NoText)
  {
    if AnyText(ps) {
      var i :| 0 <= i < |ps| && HasText(ps[i]);
      var k := FirstText(ps, i);
    }
  }

  /** Some page has text, so there is a first one, and every page before it is blank. */
  lemma {:induction false} FirstText(ps: seq<PageText>, i: int) returns (k: int)
    requires forall j :: 0 <= j < |ps| ==> ps[j].Extracted?
    requires 0 <= i < |ps| && HasText(ps[i])
    ensures 0 <= k <= i && HasText(ps[k]) && forall j :: 0 <= j < k ==> Blank(ps[j])
    decreases i
  {
    if exists j :: 0 <= j < i && HasText(ps[j]) {
      var j :| 0 <= j < i && HasText(ps[j]);
      k := FirstText(ps, j);
    } else {
      k := i;
    }
  }

  /** How many of the pages have text. */
  function CountText(ps: seq<PageText>): (c: nat)
    ensures c <= |ps|
    ensures c == 0 <==> forall i :: 0 <= i < |ps| ==> !HasText(ps[i])
    decreases |ps|
  {
    if ps == [] then 0
    else
      var init := ps[..|ps| - 1];
      assert forall i :: 0 <= i < |init| ==> init[i] == ps[i];
      CountText(init) + (if HasText(ps[|ps| - 1]) then 1 else 0)
  }
}
