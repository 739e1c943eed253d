/** The Vercel handler: scan each organisation's page left to right for
    links of the form href="/dog/..." or href="/cat/...", keep the first
    occurrence of each path per page, and emit one record per path. */
module LinkScan {
  import opened Wrappers
  import opened Text
  import opened Seqs
  import opened Site

  /** The literal text before the path. */
  const HrefOpen: string := "href=\""

  const DogPrefix: string := "/dog/"

  const CatPrefix: string := "/cat/"

  /** The name every record carries. */
  const LinkName: string := "View Pet"

  /** A path the pattern captures: "/dog/" or "/cat/" followed by at least
      one character, with no double quote anywhere. */
  ghost predicate IsLinkPath(p: string) {
    && (StartsWith(p, DogPrefix) || StartsWith(p, CatPrefix))
    && |p| > 5
    && forall k :: 0 <= k < |p| ==> p[k] != '"'
  }

  /** `html[i..j]` is a match of the pattern `href="(/(dog|cat)/[^"]+)"`:
      the opening text, a link path, and the closing quote. */
  ghost predicate LinkAt(html: string, i: nat, j: nat) {
    && i + |HrefOpen| + 1 < j <= |html|
    && html[i..i + |HrefOpen|] == HrefOpen
    && IsLinkPath(html[i + |HrefOpen|..j - 1])
    && html[j - 1] == '"'
  }

  /** Where the path part of a match starting at `i` begins. */
  function PathStart(i: nat): nat {
    i + |HrefOpen|
  }

  /** Where the first character after the "/dog/" or "/cat/" prefix of a
      match starting at `i` sits. */
  function TailStart(i: nat): nat {
    i + |HrefOpen| + |DogPrefix|
  }

  /** The text at `i` opens a link: the opening text then a prefix. */
  predicate OpensLink(html: string, i: nat) {
    && TailStart(i) <= |html|
    && OccursAt(html, HrefOpen, i)
    && (OccursAt(html, DogPrefix, PathStart(i)) || OccursAt(html, CatPrefix, PathStart(i)))
  }

  /** The match starting at `i`, as its captured path and the index just
      past its closing quote. When the pattern matches `html[i..j]`, this
      is `Some` with that `j`; otherwise it is `None`. */
  function MatchAt(html: string, i: nat): (r: Option<(string, nat)>)
    ensures r.Some? ==> LinkAt(html, i, r.value.1) && r.value.0 == html[PathStart(i)..r.value.1 - 1]
    ensures forall j: nat :: LinkAt(html, i, j) ==> r == Some((html[PathStart(i)..j - 1], j))
  {
    LinkFactsAll(html, i);
    if OpensLink(html, i) then
      var q := IndexOf(html, "\"", TailStart(i));
      if q.Some? && q.value > TailStart(i) then
        MatchShape(html, i, q.value);
        Some((html[PathStart(i)..q.value], q.value + 1))
      else
        None
    else
      None
  }

  /** A quote closing a non-empty run of non-quotes after the prefix makes
      a match. */
  lemma MatchShape(html: string, i: nat, q: nat)
    requires OpensLink(html, i)
    requires TailStart(i) < q < |html|
    requires OccursAt(html, "\"", q)
    requires forall k :: TailStart(i) <= k < q ==> !OccursAt(html, "\"", k)
    ensures LinkAt(html, i, q + 1)
  {
    var p := PathStart(i);
    var path := html[p..q];
    assert html[q] == '"' by { assert html[q..q + 1] == "\""; }
    forall k | 0 <= k < |path|
      ensures path[k] != '"'
    {
      if k < |DogPrefix| {
        if OccursAt(html, DogPrefix, p) {
          assert path[k] == html[p..p + |DogPrefix|][k] == DogPrefix[k];
        } else {
          assert path[k] == html[p..p + |CatPrefix|][k] == CatPrefix[k];
        }
      } else {
        assert !OccursAt(html, "\"", p + k);
        assert html[p + k..p + k + 1] == [html[p + k]];
      }
    }
    if OccursAt(html, DogPrefix, p) {
      assert path[..|DogPrefix|] == html[p..p + |DogPrefix|];
    } else {
      assert path[..|CatPrefix|] == html[p..p + |CatPrefix|];
    }
  }

  /** What a match at `html[i..j]` implies about the text: it opens a link
      at `i` and its closing quote is the first quote after the prefix. */
  lemma LinkFacts(html: string, i: nat, j: nat)
    requires LinkAt(html, i, j)
    ensures OpensLink(html, i)
    ensures IndexOf(html, "\"", TailStart(i)) == Some(j - 1)
  {
    var p := PathStart(i);
    var path := html[p..j - 1];
    assert OccursAt(html, HrefOpen, i);
    if StartsWith(path, DogPrefix) {
      assert html[p..p + |DogPrefix|] == path[..|DogPrefix|];
      assert OccursAt(html, DogPrefix, p);
    } else {
      assert html[p..p + |CatPrefix|] == path[..|CatPrefix|];
      assert OccursAt(html, CatPrefix, p);
    }
    assert OccursAt(html, "\"", j - 1) by { assert html[j - 1..j] == [html[j - 1]]; }
    forall k | TailStart(i) <= k < j - 1
      ensures !OccursAt(html, "\"", k)
    {
      assert html[k] == path[k - p];
      assert html[k..k + 1] == [html[k]];
    }
  }

  lemma LinkFactsAll(html: string, i: nat)
    ensures forall j: nat :: LinkAt(html, i, j) ==>
              OpensLink(html, i) && IndexOf(html, "\"", TailStart(i)) == Some(j - 1)
  {
    forall j: nat | LinkAt(html, i, j)
      ensures OpensLink(html, i) && IndexOf(html, "\"", TailStart(i)) == Some(j - 1)
    {
      LinkFacts(html, i, j);
    }
  }

  /** A match found by the scan: where it starts, its path, and where the
      scan resumes. */
  datatype Match = Match(start: nat, path: string, end: nat)

  /** No match starts in `[a, b)`. */
  ghost predicate NoLinkIn(html: string, a: nat, b: nat) {
    forall i: nat, j: nat :: a <= i < b ==> !LinkAt(html, i, j)
  }

  /** No match starts at or after `a`. */
  ghost predicate NoLinkFrom(html: string, a: nat) {
    forall i: nat, j: nat :: a <= i ==> !LinkAt(html, i, j)
  }

  /** `m` is a match of the pattern, with its captured path. */
  ghost predicate IsMatch(html: string, m: Match) {
    LinkAt(html, m.start, m.end) && m.path == html[PathStart(m.start)..m.end - 1]
  }

  /** `linkRe.exec(html)` with `lastIndex == pos`: the first position at
      or after `pos` where the pattern matches (see `NextMatchIsLeftmost`). */
  function NextMatch(html: string, pos: nat): (r: Option<Match>)
    requires pos <= |html|
    decreases |html| - pos
    ensures r.Some? ==> pos <= r.value.start < r.value.end <= |html|
  {
    match MatchAt(html, pos)
    case Some((path, end)) => Some(Match(pos, path, end))
    case None => if pos == |html| then None else NextMatch(html, pos + 1)
  }

  /** `NextMatch` finds the leftmost match at or after `pos`, and `None`
      only when there is no match there at all. */
  lemma {:induction false} NextMatchIsLeftmost(html: string, pos: nat)
    requires pos <= |html|
    decreases |html| - pos
    ensures NextMatch(html, pos).Some? ==>
              IsMatch(html, NextMatch(html, pos).value) && NoLinkIn(html, pos, NextMatch(html, pos).value.start)
    ensures NextMatch(html, pos).None? ==> NoLinkFrom(html, pos)
  {
    if MatchAt(html, pos).None? && pos < |html| {
      NextMatchIsLeftmost(html, pos + 1);
    }
  }

  /** `ms` is what a global regex finds from `pos`: the leftmost match at
      or after `pos`, then the leftmost match at or after its end, and so
      on until no match is left. */
  ghost predicate Exhaustive(html: string, pos: nat, ms: seq<Match>)
    decreases |ms|
  {
    if |ms| == 0 then NoLinkFrom(html, pos)
    else
      && pos <= ms[0].start
      && IsMatch(html, ms[0])
      && NoLinkIn(html, pos, ms[0].start)
      && Exhaustive(html, ms[0].end, ms[1..])
  }

  /** The successive matches of the global regex from `pos`, each search
      resuming just after the previous match (see `ScanIsExhaustive`). */
  function Scan(html: string, pos: nat): (ms: seq<Match>)
    requires pos <= |html|
    decreases |html| - pos
    ensures forall k :: 0 <= k < |ms| ==> pos <= ms[k].start < ms[k].end <= |html|
  {
    match NextMatch(html, pos)
    case None => []
    case Some(m) =>
      var rest := Scan(html, m.end);
      [m] + rest
  }

  /** The scan yields the leftmost non-overlapping matches, left to right,
      skipping none. */
  lemma {:induction false} ScanIsExhaustive(html: string, pos: nat)
    requires pos <= |html|
    decreases |html| - pos
    ensures Exhaustive(html, pos, Scan(html, pos))
    ensures forall k :: 0 <= k < |Scan(html, pos)| ==> IsMatch(html, Scan(html, pos)[k])
    ensures forall k, l :: 0 <= k < l < |Scan(html, pos)| ==> Scan(html, pos)[k].end <= Scan(html, pos)[l].start
  {
    NextMatchIsLeftmost(html, pos);
    var next := NextMatch(html, pos);
    if next.Some? {
      var m := next.value;
      ScanIsExhaustive(html, m.end);
      var ms := Scan(html, pos);
      assert ms == [m] + Scan(html, m.end);
      assert ms[1..] == Scan(html, m.end);
    }
  }

  /** The regex semantics determine the matches: any sequence that is
      exhaustive from `pos` is the scan from `pos`. */
  lemma {:induction false} ExhaustiveIsScan(html: string, pos: nat, ms: seq<Match>)
    requires pos <= |html|
    requires Exhaustive(html, pos, ms)
    decreases |ms|
    ensures ms == Scan(html, pos)
  {
    NextMatchIsLeftmost(html, pos);
    var next := NextMatch(html, pos);
    if |ms| == 0 {
      assert next.None?;
    } else {
      var m := ms[0];
      assert LinkAt(html, m.start, m.end);
      assert next.Some?;
      var n := next.value;
      assert n.start == m.start;
      assert MatchAt(html, m.start) == Some((m.path, m.end));
      assert MatchAt(html, m.start) == Some((n.path, n.end));
      assert n == m;
      ExhaustiveIsScan(html, m.end, ms[1..]);
    }
  }

  /** The captured paths of `ms`, in order. */
  function Paths(ms: seq<Match>): seq<string> {
    seq(|ms|, i requires 0 <= i < |ms| => ms[i].path)
  }

  /** The paths the page yields, duplicates included. */
  function PagePaths(html: string): seq<string> {
    Paths(Scan(html, 0))
  }

  /** One record of the feed. */
  datatype Pet = Pet(
    shelterId: string,
    shelterName: string,
    species: string,
    profileUrl: string,
    name: string)

  /** The record for `path` on `org`'s page. */
  function ToPet(org: Org, path: string): (p: Pet)
    ensures p.species == "Cat" <==> StartsWith(path, CatPrefix)
    ensures p.species == "Dog" || p.species == "Cat"
    ensures p.profileUrl == Origin + path
    ensures p.shelterId == org.id && p.shelterName == org.name && p.name == LinkName
  {
    Pet(org.id, org.name, if StartsWith(path, CatPrefix) then "Cat" else "Dog", Origin + path, LinkName)
  }

  /** The records for `paths`, in order. */
  function PetsFor(org: Org, paths: seq<string>): seq<Pet> {
    seq(|paths|, i requires 0 <= i < |paths| => ToPet(org, paths[i]))
  }

  /** The records of one page: one per distinct matched path, in order of
      first occurrence. */
  function PagePets(org: Org, html: string): seq<Pet> {
    PetsFor(org, Dedup(PagePaths(html)))
  }

  /** The records one organisation contributes. */
  function OrgStep(fetch: string -> string): Org -> seq<Pet> {
    (org: Org) => PagePets(org, fetch(org.url))
  }

  /** The `results` array of a run over `orgs`. */
  function Feed(orgs: seq<Org>, fetch: string -> string): seq<Pet> {
    FlatMap(OrgStep(fetch), orgs)
  }

  /** The profile URLs of `recs`, in order. */
  function ProfileUrls(recs: seq<Pet>): seq<string> {
    seq(|recs|, i requires 0 <= i < |recs| => recs[i].profileUrl)
  }

  /** Every path a page yields is the captured group of a match of the
      pattern somewhere in the page, so it is a link path. */
  lemma PagePathsFromLinks(html: string)
    ensures forall k :: 0 <= k < |PagePaths(html)| ==>
              IsLinkPath(PagePaths(html)[k])
              && exists i: nat, j: nat :: LinkAt(html, i, j) && PagePaths(html)[k] == html[PathStart(i)..j - 1]
  {
    ScanIsExhaustive(html, 0);
    var ms := Scan(html, 0);
    forall k | 0 <= k < |PagePaths(html)|
      ensures IsLinkPath(PagePaths(html)[k])
      ensures exists i: nat, j: nat :: LinkAt(html, i, j) && PagePaths(html)[k] == html[PathStart(i)..j - 1]
    {
      assert IsMatch(html, ms[k]);
      assert LinkAt(html, ms[k].start, ms[k].end);
    }
  }

  /** What one page contributes: one record per distinct matched path, in
      order of first occurrence, each path a "/dog/" or "/cat/" link taken
      from the page, its species read off the prefix, its profile URL the
      site origin followed by the path, its name the fixed placeholder and
      its shelter the organisation being scanned. */
  lemma PagePetsShape(org: Org, html: string)
    ensures var recs := PagePets(org, html);
            var d := Dedup(PagePaths(html));
            && |recs| == |d|
            && (forall k :: 0 <= k < |recs| ==>
                  && IsLinkPath(d[k])
                  && recs[k].profileUrl == Origin + d[k]
                  && (recs[k].species == "Cat" <==> StartsWith(d[k], CatPrefix))
                  && (recs[k].species == "Dog" || recs[k].species == "Cat")
                  && recs[k].name == LinkName
                  && recs[k].shelterId == org.id && recs[k].shelterName == org.name)
  {
    var ps := PagePaths(html);
    var d := Dedup(ps);
    PagePathsFromLinks(html);
    forall k | 0 <= k < |d|
      ensures IsLinkPath(d[k])
    {
      var k' :| 0 <= k' < |ps| && ps[k'] == d[k];
    }
  }

  /** The profile URLs of a page are pairwise distinct, and there are as
      many as there are distinct matched paths. */
  lemma PageUrlsDistinct(org: Org, html: string)
    ensures Distinct(ProfileUrls(PagePets(org, html)))
    ensures |PagePets(org, html)| == |Elems(PagePaths(html))|
  {
    var recs := PagePets(org, html);
    var ps := PagePaths(html);
    var d := Dedup(ps);
    forall k, l | 0 <= k < l < |recs|
      ensures recs[k].profileUrl != recs[l].profileUrl
    {
      assert d[k] != d[l];
      assert (Origin + d[k])[|Origin|..] == d[k];
      assert (Origin + d[l])[|Origin|..] == d[l];
    }
    DedupCount(ps);
  }

  /** A page's records come in the order their paths first occur: the
      record for the `k`th kept path precedes the record for the `l`th
      exactly when the first occurrence of the former comes first. */
  lemma PageOrder(org: Org, html: string)
    ensures var d := Dedup(PagePaths(html));
            forall k, l :: 0 <= k < |d| && 0 <= l < |d| ==>
              (k < l <==> FirstPos(PagePaths(html), d[k]) < FirstPos(PagePaths(html), d[l]))
  {
    var ps := PagePaths(html);
    var d := Dedup(ps);
    DedupOrder(ps);
  }

  /** No deduplication across organisations: the run over `a + b` is the
      run over `a` followed by the run over `b`. */
  lemma FeedConcat(a: seq<Org>, b: seq<Org>, fetch: string -> string)
    ensures Feed(a + b, fetch) == Feed(a, fetch) + Feed(b, fetch)
  {
    FlatMapConcat(OrgStep(fetch), a, b);
  }

  /** Two organisations showing the same page each get their own records:
      the same profile URLs appear once per organisation. */
  lemma SamePageTwoOrgs(o1: Org, o2: Org, fetch: string -> string)
    requires fetch(o1.url) == fetch(o2.url)
    ensures Feed([o1, o2], fetch) == PagePets(o1, fetch(o1.url)) + PagePets(o2, fetch(o2.url))
    ensures ProfileUrls(PagePets(o1, fetch(o1.url))) == ProfileUrls(PagePets(o2, fetch(o2.url)))
  {
    assert [o1, o2] == [o1] + [o2];
    FlatMapSnoc(OrgStep(fetch), [o1], o2);
    FlatMapSnoc(OrgStep(fetch), [], o1);
    assert [] + [o1] == [o1];
  }

  /** The inner `while ((m = linkRe.exec(html)) !== null)` loop, with the
      per-page `seen` set. */
  method ScanPage(org: Org, html: string) returns (recs: seq<Pet>)
    ensures recs == PagePets(org, html)
  {
    recs := [];
    var seen: set<string> := {};
    ghost var found: seq<Match> := [];
    assert Paths(found) == [];
    var pos := 0;
    var m := NextMatch(html, pos);
    while m.Some?
      invariant pos <= |html|
      invariant m == NextMatch(html, pos)
      invariant found + Scan(html, pos) == Scan(html, 0)
      invariant seen == SeenPaths(found)
      invariant recs == PetsFor(org, Dedup(Paths(found)))
      decreases |html| - pos
    {
      var mv := m.value;
      var path := mv.path;
      SeenStep(org, Paths(found), path);
      SeenPathsMembers(found);
      if path !in seen {
        seen := seen + {path};
        recs := recs + [ToPet(org, path)];
      }
      ScanAdvance(html, pos, found);
      PathsSnoc(found, mv);
      found := found + [mv];
      pos := mv.end;
      m := NextMatch(html, pos);
    }
    ScanDone(html, pos);
    assert found == Scan(html, 0);
  }

  /** The scan ends where `exec` finds nothing. */
  lemma ScanDone(html: string, pos: nat)
    requires pos <= |html| && NextMatch(html, pos).None?
    ensures Scan(html, pos) == []
  {
  }

  /** One round of the `exec` loop: the matches already seen followed by
      the scan from the end of the new match still make up the whole scan. */
  lemma ScanAdvance(html: string, pos: nat, found: seq<Match>)
    requires pos <= |html| && NextMatch(html, pos).Some?
    requires found + Scan(html, pos) == Scan(html, 0)
    ensures (found + [NextMatch(html, pos).value]) + Scan(html, NextMatch(html, pos).value.end) == Scan(html, 0)
  {
  }

  lemma PathsSnoc(ms: seq<Match>, m: Match)
    ensures Paths(ms + [m]) == Paths(ms) + [m.path]
    ensures SeenPaths(ms + [m]) == SeenPaths(ms) + {m.path}
  {
  }

  /** The `seen` set after the matches `ms`. */
  function SeenPaths(ms: seq<Match>): set<string> {
    if |ms| == 0 then {} else SeenPaths(ms[..|ms| - 1]) + {ms[|ms| - 1].path}
  }

  lemma {:induction false} SeenPathsMembers(ms: seq<Match>)
    ensures forall x :: x in SeenPaths(ms) <==> x in Paths(ms)
  {
    if |ms| > 0 {
      var front := ms[..|ms| - 1];
      SeenPathsMembers(front);
      assert Paths(ms) == Paths(front) + [ms[|ms| - 1].path];
    }
  }

  /** One step of the `seen` filter: a path already seen adds nothing, a new
      one adds its record. */
  lemma SeenStep(org: Org, paths: seq<string>, path: string)
    ensures path in paths ==> PetsFor(org, Dedup(paths + [path])) == PetsFor(org, Dedup(paths))
    ensures path !in paths ==>
              PetsFor(org, Dedup(paths + [path])) == PetsFor(org, Dedup(paths)) + [ToPet(org, path)]
  {
    DedupSnoc(paths, path);
    PetsForSnoc(org, Dedup(paths), path);
  }

  lemma PetsForSnoc(org: Org, paths: seq<string>, path: string)
    ensures PetsFor(org, paths + [path]) == PetsFor(org, paths) + [ToPet(org, path)]
  {
  }

  /** The handler's loop over organisations. */
  method Handler(orgs: seq<Org>, fetch: string -> string) returns (results: seq<Pet>)
    ensures results == Feed(orgs, fetch)
  {
    results := [];
    var i := 0;
    while i < |orgs|
      invariant 0 <= i <= |orgs|
      invariant results == Feed(orgs[..i], fetch)
    {
      var org := orgs[i];
      var html := fetch(org.url);
      var recs := ScanPage(org, html);
      assert orgs[..i + 1] == orgs[..i] + [org];
      FlatMapSnoc(OrgStep(fetch), orgs[..i], org);
      results := results + recs;
      i := i + 1;
    }
    assert orgs[..i] == orgs;
  }
}
