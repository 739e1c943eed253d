/** `extractNextDataJson`: slicing the JSON payload out of the page's
    `__NEXT_DATA__` script element and handing it to the JSON parser. */
module NextData {
  import opened Wrappers
  import opened Text
  import opened Json

  /** The exact start tag searched for. */
  const StartTag: string := "<script id=\"__NEXT_DATA__\" type=\"application/json\">"

  /** The end tag searched for after the start tag. */
  const EndTag: string := "</script>"

  /** `k` is the first index at or after `from` where `pat` occurs. */
  ghost predicate FirstOccurrence(s: string, pat: string, from: nat, k: nat) {
    from <= k && OccursAt(s, pat, k) && forall j :: from <= j < k ==> !OccursAt(s, pat, j)
  }

  /** `e` is where the first `close` after the `open` at `s` begins. */
  ghost predicate CloseAfter(html: string, open: string, close: string, s: nat, e: nat) {
    FirstOccurrence(html, close, s + |open|, e)
  }

  /** `e` is where the first end tag after the start tag at `s` begins. */
  ghost predicate EndAfter(html: string, s: nat, e: nat) {
    CloseAfter(html, StartTag, EndTag, s, e)
  }

  /** The text between the first `open` and the first `close` after it. */
  function Enclosed(html: string, open: string, close: string): (r: Option<string>)
    ensures (forall k :: !OccursAt(html, open, k)) ==> r == None
    ensures forall s: nat ::
              (FirstOccurrence(html, open, 0, s) && forall e :: !CloseAfter(html, open, close, s, e))
              ==> r == None
    ensures forall s: nat, e: nat ::
              (FirstOccurrence(html, open, 0, s) && CloseAfter(html, open, close, s, e))
              ==> r == Some(html[s + |open|..e])
  {
    var start := IndexOf(html, open, 0);
    if start.None? then None
    else
      var from := start.value + |open|;
      var end := IndexOf(html, close, from);
      if end.None? then None
      else
        assert CloseAfter(html, open, close, start.value, end.value);
        FirstOccurrenceUnique(html, open, 0, start.value);
        Some(html[from..end.value])
  }

  /** There is only one first occurrence. */
  lemma FirstOccurrenceUnique(s: string, pat: string, from: nat, k: nat)
    requires FirstOccurrence(s, pat, from, k)
    ensures forall k' :: FirstOccurrence(s, pat, from, k') ==> k' == k
  {
  }

  /** The parsed payload, or `None` (the source's `null`) when the start tag
      is absent, when no end tag follows it, or when `parse` rejects the
      trimmed text. `parse` stands for `JSON.parse`, with `None` for a
      thrown exception. */
  function ExtractNextData(html: string, parse: string -> Option<Json>): (r: Option<Json>)
    ensures (forall k :: !OccursAt(html, StartTag, k)) ==> r == None
    ensures forall s: nat ::
              (FirstOccurrence(html, StartTag, 0, s) && forall e :: !EndAfter(html, s, e))
              ==> r == None
    ensures forall s: nat, e: nat ::
              (FirstOccurrence(html, StartTag, 0, s) && EndAfter(html, s, e))
              ==> r == parse(Trim(html[s + |StartTag|..e]))
  {
    var e := Enclosed(html, StartTag, EndTag);
    assert forall s: nat, e: nat :: EndAfter(html, s, e) == CloseAfter(html, StartTag, EndTag, s, e);
    if e.None? then None else parse(Trim(e.value))
  }
}
