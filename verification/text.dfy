/** String searching and trimming with the meaning JavaScript gives to
    `String.prototype.indexOf`, `includes`, `startsWith` and `trim`. */
module Text {
  import opened Wrappers

  /** `pat` occurs in `s` starting at index `k`. */
  predicate OccursAt(s: string, pat: string, k: nat) {
    k + |pat| <= |s| && s[k..k + |pat|] == pat
  }

  /** `s.startsWith(p)`. */
  predicate StartsWith(s: string, p: string) {
    p <= s
  }

  /** The first index at or after `k` where `pat` occurs, if any. */
  function FirstFrom(s: string, pat: string, k: nat): (r: Option<nat>)
    requires k <= |s|
    decreases |s| - k
    ensures r.Some? ==> k <= r.value && OccursAt(s, pat, r.value)
    ensures r.Some? ==> forall j :: k <= j < r.value ==> !OccursAt(s, pat, j)
    ensures r.None? ==> forall j :: k <= j ==> !OccursAt(s, pat, j)
  {
    if OccursAt(s, pat, k) then Some(k)
    else if k == |s| then None
    else FirstFrom(s, pat, k + 1)
  }

  /** `s.indexOf(pat, position)`: the search starts at `position` clamped to
      the length of `s`; `None` stands for JavaScript's `-1`. */
  function IndexOf(s: string, pat: string, position: nat): (r: Option<nat>)
    ensures r.Some? ==> OccursAt(s, pat, r.value)
    ensures r.Some? ==> (position <= r.value || (position > |s| && r.value == |s|))
    ensures r.Some? ==> forall j :: position <= j < r.value ==> !OccursAt(s, pat, j)
    ensures r.None? <==> forall j :: (if position <= |s| then position else |s|) <= j ==> !OccursAt(s, pat, j)
  {
    FirstFrom(s, pat, if position <= |s| then position else |s|)
  }

  /** `s.includes(pat)`. */
  function Includes(s: string, pat: string): (b: bool)
    ensures b <==> exists k: nat :: OccursAt(s, pat, k)
  {
    IndexOf(s, pat, 0).Some?
  }

  /** The characters `String.prototype.trim` removes: the ECMAScript
      WhiteSpace code points (TAB, VT, FF, ZWNBSP and the Unicode "Zs"
      space separators) and the LineTerminator code points. */
  predicate IsSpace(c: char) {
    || c == '\t' || c == '\U{B}' || c == '\U{C}' || c == ' ' || c == '\U{A0}'
    || c == '\U{FEFF}' || c == '\U{1680}' || ('\U{2000}' <= c <= '\U{200A}')
    || c == '\U{202F}' || c == '\U{205F}' || c == '\U{3000}'
    || c == '\n' || c == '\r' || c == '\U{2028}' || c == '\U{2029}'
  }

  /** `s[i..j]` is what is left of `s` once leading and trailing spaces are
      removed: everything outside it is space and it neither starts nor ends
      with a space. */
  ghost predicate TrimmedSlice(s: string, i: int, j: int) {
    && 0 <= i <= j <= |s|
    && (forall k :: 0 <= k < i ==> IsSpace(s[k]))
    && (forall k :: j <= k < |s| ==> IsSpace(s[k]))
    && (i < j ==> !IsSpace(s[i]) && !IsSpace(s[j - 1]))
  }

  /** Number of leading spaces of `s`. */
  function LeadingSpaces(s: string): (n: nat)
    ensures n <= |s|
    ensures forall k :: 0 <= k < n ==> IsSpace(s[k])
    ensures n < |s| ==> !IsSpace(s[n])
  {
    if |s| > 0 && IsSpace(s[0]) then 1 + LeadingSpaces(s[1..]) else 0
  }

  /** Number of trailing spaces of `s`. */
  function TrailingSpaces(s: string): (n: nat)
    ensures n <= |s|
    ensures forall k :: |s| - n <= k < |s| ==> IsSpace(s[k])
    ensures n < |s| ==> !IsSpace(s[|s| - n - 1])
  {
    if |s| > 0 && IsSpace(s[|s| - 1]) then 1 + TrailingSpaces(s[..|s| - 1]) else 0
  }

  /** `s.trim()`. The result is the one trimmed slice of `s`: any way of
      cutting `s` into spaces, a core without border spaces, and spaces
      yields exactly this core. */
  function Trim(s: string): (r: string)
    ensures |r| <= |s|
    ensures forall i, j :: TrimmedSlice(s, i, j) ==> r == s[i..j]
    ensures exists i, j :: TrimmedSlice(s, i, j) && r == s[i..j]
  {
    var a := LeadingSpaces(s);
    var b := |s| - TrailingSpaces(s[a..]);
    TrimUnique(s, a, b);
    s[a..b]
  }

  /** Two trimmed slices of the same string have the same contents. */
  lemma TrimUnique(s: string, a: nat, b: nat)
    requires a <= |s| && a <= b <= |s|
    requires forall k :: 0 <= k < a ==> IsSpace(s[k])
    requires a < |s| ==> !IsSpace(s[a])
    requires forall k :: b <= k < |s| ==> IsSpace(s[k])
    requires a < b ==> !IsSpace(s[b - 1])
    ensures forall i, j :: TrimmedSlice(s, i, j) ==> s[a..b] == s[i..j]
  {
  }
}
