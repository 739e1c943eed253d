/** The Netlify handler: for each organisation, collect pet records from the
    page's embedded payload, give each an absolute profile URL, and write it
    into an insertion-ordered map keyed by that URL. */
module NetlifyFeed {
  import opened Wrappers
  import opened Text
  import opened Json
  import opened Seqs
  import OrderedMap
  import opened Site
  import NextData
  import opened Collect

  /** One entry of the feed's `pets` array. */
  datatype Pet = Pet(
    shelterId: string,
    shelterName: string,
    name: string,
    species: string,
    photo: Json,
    profileUrl: string)

  /** The name given to a pet whose collected name is empty. */
  const PlaceholderName: string := "View pet"

  /** The absolute profile URL for a collected URL: one that already starts
      with "http" is kept, anything else is taken as a path on the site. */
  function ProfileUrl(url: string): (r: string)
    ensures StartsWith(r, "http")
    ensures |url| <= |r| && r[|r| - |url|..] == url
    ensures r == url || r == Origin + url
    ensures r == url <==> StartsWith(url, "http")
  {
    if StartsWith(url, "http") then url else Origin + url
  }

  /** Normalising twice is normalising once. */
  lemma ProfileUrlIdempotent(url: string)
    ensures ProfileUrl(ProfileUrl(url)) == ProfileUrl(url)
  {
  }

  /** A site-relative path (such as "/dog/..." or "/cat/...") is placed under
      the site origin. */
  lemma RelativePathUnderOrigin(url: string)
    requires StartsWith(url, "/")
    ensures ProfileUrl(url) == Origin + url
    ensures StartsWith(ProfileUrl(url), Origin + "/")
  {
    assert url[0] == '/';
    assert !StartsWith(url, "http") by { assert "http"[0] != url[0]; }
  }

  /** What every record written to the map satisfies. */
  predicate GoodPet(p: Pet) {
    && (p.species == "Dog" || p.species == "Cat")
    && p.name != ""
    && StartsWith(p.profileUrl, "http")
    && (Truthy(Some(p.photo)) || p.photo == JNull)
  }

  /** The object written for `item` found on `org`'s page. */
  function ToPet(org: Org, item: Found): (p: Pet)
    requires WellFormed(item)
    ensures GoodPet(p)
    ensures p.shelterId == org.id && p.shelterName == org.name
    ensures p.profileUrl == ProfileUrl(item.url)
    ensures p.species == item.species
    ensures item.name != "" ==> p.name == item.name
    ensures item.name == "" ==> p.name == PlaceholderName
    ensures Truthy(Some(item.photo)) ==> p.photo == item.photo
    ensures !Truthy(Some(item.photo)) ==> p.photo == JNull
  {
    Pet(
      org.id,
      org.name,
      if item.name != "" then item.name else PlaceholderName,
      if item.species != "" then item.species else "",
      if Truthy(Some(item.photo)) then item.photo else JNull,
      ProfileUrl(item.url))
  }

  /** The records collected from one page: none when the payload is missing,
      unparsable or falsy. */
  function PageItems(html: string, parse: string -> Option<Json>): (items: seq<Found>)
    ensures forall k :: 0 <= k < |items| ==> WellFormed(items[k])
    ensures !Truthy(NextData.ExtractNextData(html, parse)) ==> items == []
  {
    match NextData.ExtractNextData(html, parse)
    case Some(d) =>
      if Truthy(Some(d)) then
        CollectAnimalsAppends(d, []);
        CollectAnimals(d, [])
      else []
    case None => []
  }

  /** The map writes for one organisation, in order: key and value. */
  function OrgWrites(org: Org, items: seq<Found>): (w: seq<(string, Pet)>)
    requires forall k :: 0 <= k < |items| ==> WellFormed(items[k])
  {
    seq(|items|, i requires 0 <= i < |items| => (ProfileUrl(items[i].url), ToPet(org, items[i])))
  }

  /** The map writes made while handling one organisation. */
  function OrgStep(fetch: string -> string, parse: string -> Option<Json>): Org -> seq<(string, Pet)> {
    (org: Org) => OrgWrites(org, PageItems(fetch(org.url), parse))
  }

  /** All map writes of a run over `orgs`, organisation by organisation. */
  function Writes(orgs: seq<Org>, fetch: string -> string, parse: string -> Option<Json>): seq<(string, Pet)> {
    FlatMap(OrgStep(fetch, parse), orgs)
  }

  /** Every write is keyed by its record's profile URL, holds a good record
      and names one of the organisations. */
  lemma WritesShape(orgs: seq<Org>, fetch: string -> string, parse: string -> Option<Json>)
    ensures forall e :: e in Writes(orgs, fetch, parse) ==>
              e.0 == e.1.profileUrl && GoodPet(e.1)
              && exists o :: o in orgs && o.id == e.1.shelterId && o.name == e.1.shelterName
  {
    var f := OrgStep(fetch, parse);
    FlatMapMembers(f, orgs);
    forall e | e in Writes(orgs, fetch, parse)
      ensures e.0 == e.1.profileUrl && GoodPet(e.1)
      ensures exists o :: o in orgs && o.id == e.1.shelterId && o.name == e.1.shelterName
    {
      var o :| o in orgs && e in f(o);
      var items := PageItems(fetch(o.url), parse);
      var w := OrgWrites(o, items);
      assert e in w;
      var k :| 0 <= k < |w| && w[k] == e;
      assert e == (ProfileUrl(items[k].url), ToPet(o, items[k]));
    }
  }

  /** The `pets` array: the values of the map in first-insertion order. */
  function Feed(orgs: seq<Org>, fetch: string -> string, parse: string -> Option<Json>): seq<Pet> {
    OrderedMap.Values(OrderedMap.PutAll([], Writes(orgs, fetch, parse)))
  }

  /** The profile URLs of `pets`, in order. */
  function ProfileUrls(pets: seq<Pet>): seq<string> {
    seq(|pets|, i requires 0 <= i < |pets| => pets[i].profileUrl)
  }

  /** Every entry of the final map is keyed by its record's profile URL and
      holds a good record from one of the organisations. */
  lemma MapEntry(orgs: seq<Org>, fetch: string -> string, parse: string -> Option<Json>, i: nat)
    requires i < |OrderedMap.PutAll([], Writes(orgs, fetch, parse))|
    ensures var e := OrderedMap.PutAll([], Writes(orgs, fetch, parse))[i];
            && e.0 == e.1.profileUrl && GoodPet(e.1)
            && exists o :: o in orgs && o.id == e.1.shelterId && o.name == e.1.shelterName
  {
    var w := Writes(orgs, fetch, parse);
    var m := OrderedMap.PutAll([], w);
    WritesShape(orgs, fetch, parse);
    assert m[i] in m;
    assert m[i] in w;
  }

  /** One record per distinct profile URL, listed in the order the URLs
      were first written. */
  lemma FeedUrls(orgs: seq<Org>, fetch: string -> string, parse: string -> Option<Json>)
    ensures Distinct(ProfileUrls(Feed(orgs, fetch, parse)))
    ensures ProfileUrls(Feed(orgs, fetch, parse)) == Dedup(OrderedMap.Keys(Writes(orgs, fetch, parse)))
  {
    var w := Writes(orgs, fetch, parse);
    var m := OrderedMap.PutAll([], w);
    OrderedMap.PutAllFromEmpty(w);
    forall i | 0 <= i < |m|
      ensures ProfileUrls(Feed(orgs, fetch, parse))[i] == OrderedMap.Keys(m)[i]
    {
      MapEntry(orgs, fetch, parse, i);
    }
    assert ProfileUrls(Feed(orgs, fetch, parse)) == OrderedMap.Keys(m);
  }

  /** Each record of the feed is the LAST one written under its URL,
      shelter attribution included. */
  lemma FeedLastWriteWins(orgs: seq<Org>, fetch: string -> string, parse: string -> Option<Json>)
    ensures var pets := Feed(orgs, fetch, parse);
            var w := Writes(orgs, fetch, parse);
            forall i :: 0 <= i < |pets| ==>
              pets[i].profileUrl in OrderedMap.Keys(w) && pets[i] == OrderedMap.LastValue(w, pets[i].profileUrl)
  {
    var pets := Feed(orgs, fetch, parse);
    forall i | 0 <= i < |pets|
      ensures pets[i].profileUrl in OrderedMap.Keys(Writes(orgs, fetch, parse))
      ensures pets[i] == OrderedMap.LastValue(Writes(orgs, fetch, parse), pets[i].profileUrl)
    {
      FeedEntry(orgs, fetch, parse, i);
    }
  }

  /** Entry `i` of the feed is the last record written under its URL. */
  lemma FeedEntry(orgs: seq<Org>, fetch: string -> string, parse: string -> Option<Json>, i: nat)
    requires i < |Feed(orgs, fetch, parse)|
    ensures var p := Feed(orgs, fetch, parse)[i];
            var w := Writes(orgs, fetch, parse);
            p.profileUrl in OrderedMap.Keys(w) && p == OrderedMap.LastValue(w, p.profileUrl)
  {
    var w := Writes(orgs, fetch, parse);
    var m := OrderedMap.PutAll([], w);
    OrderedMap.PutAllFromEmpty(w);
    MapEntry(orgs, fetch, parse, i);
    assert Feed(orgs, fetch, parse)[i] == m[i].1;
  }

  /** Every record of the feed is good and attributed to one of the
      organisations. */
  lemma FeedRecordsGood(orgs: seq<Org>, fetch: string -> string, parse: string -> Option<Json>)
    ensures var pets := Feed(orgs, fetch, parse);
            forall i :: 0 <= i < |pets| ==>
              GoodPet(pets[i]) && exists o :: o in orgs && o.id == pets[i].shelterId && o.name == pets[i].shelterName
  {
    var m := OrderedMap.PutAll([], Writes(orgs, fetch, parse));
    var pets := Feed(orgs, fetch, parse);
    forall i | 0 <= i < |pets|
      ensures GoodPet(pets[i]) && exists o :: o in orgs && o.id == pets[i].shelterId && o.name == pets[i].shelterName
    {
      MapEntry(orgs, fetch, parse, i);
      assert pets[i] == m[i].1;
    }
  }

  /** Whatever one organisation's writes leave under a key is attributed
      to that organisation. */
  lemma OrgWritesAttributed(org: Org, items: seq<Found>, k: string)
    requires forall i :: 0 <= i < |items| ==> WellFormed(items[i])
    requires k in OrderedMap.Keys(OrgWrites(org, items))
    ensures var p := OrderedMap.LastValue(OrgWrites(org, items), k);
            p.shelterId == org.id && p.shelterName == org.name
  {
    var w := OrgWrites(org, items);
    OrderedMap.LastValueWritten(w, k);
    var j :| 0 <= j < |w| && w[j] == (k, OrderedMap.LastValue(w, k));
    assert w[j].1 == ToPet(org, items[j]);
  }

  /** A later organisation's record replaces an earlier one wholesale: a
      profile URL written while scanning the last organisation ends up
      attributed to that organisation. */
  lemma LastOrgWins(orgs: seq<Org>, fetch: string -> string, parse: string -> Option<Json>)
    requires |orgs| > 0
    ensures var last := orgs[|orgs| - 1];
            var lastWrites := OrgWrites(last, PageItems(fetch(last.url), parse));
            var pets := Feed(orgs, fetch, parse);
            forall i :: 0 <= i < |pets| && pets[i].profileUrl in OrderedMap.Keys(lastWrites) ==>
              pets[i].shelterId == last.id && pets[i].shelterName == last.name
  {
    var last := orgs[|orgs| - 1];
    var items := PageItems(fetch(last.url), parse);
    var lastWrites := OrgWrites(last, items);
    var w := Writes(orgs, fetch, parse);
    var pets := Feed(orgs, fetch, parse);
    assert w == Writes(orgs[..|orgs| - 1], fetch, parse) + lastWrites by {
      assert orgs == orgs[..|orgs| - 1] + [last];
      FlatMapSnoc(OrgStep(fetch, parse), orgs[..|orgs| - 1], last);
    }
    forall i | 0 <= i < |pets| && pets[i].profileUrl in OrderedMap.Keys(lastWrites)
      ensures pets[i].shelterId == last.id && pets[i].shelterName == last.name
    {
      var k := pets[i].profileUrl;
      FeedEntry(orgs, fetch, parse, i);
      OrderedMap.LastValueConcat(Writes(orgs[..|orgs| - 1], fetch, parse), lastWrites, k);
      OrgWritesAttributed(last, items, k);
    }
  }

  /** The handler's inner loop: write each found item of `org` into the map. */
  method WriteItems(byUrl: seq<(string, Pet)>, org: Org, found: seq<Found>)
    returns (byUrl': seq<(string, Pet)>)
    requires forall k :: 0 <= k < |found| ==> WellFormed(found[k])
    ensures byUrl' == OrderedMap.PutAll(byUrl, OrgWrites(org, found))
  {
    ghost var writes := OrgWrites(org, found);
    byUrl' := byUrl;
    var j := 0;
    while j < |found|
      invariant 0 <= j <= |found|
      invariant byUrl' == OrderedMap.PutAll(byUrl, writes[..j])
    {
      var item := found[j];
      var profileUrl := ProfileUrl(item.url);
      assert writes[j] == (profileUrl, ToPet(org, item));
      OrderedMap.PutAllSnoc(byUrl, writes, j);
      byUrl' := OrderedMap.Put(byUrl', profileUrl, ToPet(org, item));
      j := j + 1;
    }
    assert writes[..j] == writes;
  }

  /** One more organisation: its writes follow the earlier ones, in the map
      as in the sequence of writes. */
  lemma WritesStep(orgs: seq<Org>, i: nat, fetch: string -> string, parse: string -> Option<Json>)
    requires i < |orgs|
    ensures var w := OrgWrites(orgs[i], PageItems(fetch(orgs[i].url), parse));
            OrderedMap.PutAll([], Writes(orgs[..i + 1], fetch, parse))
            == OrderedMap.PutAll(OrderedMap.PutAll([], Writes(orgs[..i], fetch, parse)), w)
  {
    assert orgs[..i + 1] == orgs[..i] + [orgs[i]];
    var w := OrgWrites(orgs[i], PageItems(fetch(orgs[i].url), parse));
    FlatMapSnoc(OrgStep(fetch, parse), orgs[..i], orgs[i]);
    assert Writes(orgs[..i + 1], fetch, parse) == Writes(orgs[..i], fetch, parse) + w;
    OrderedMap.PutAllConcat([], Writes(orgs[..i], fetch, parse), w);
  }

  /** The handler's loop over organisations, writing into the map as it goes. */
  method Handler(orgs: seq<Org>, fetch: string -> string, parse: string -> Option<Json>)
    returns (pets: seq<Pet>)
    ensures pets == Feed(orgs, fetch, parse)
  {
    var byUrl: seq<(string, Pet)> := [];
    var i := 0;
    while i < |orgs|
      invariant 0 <= i <= |orgs|
      invariant byUrl == OrderedMap.PutAll([], Writes(orgs[..i], fetch, parse))
    {
      var org := orgs[i];
      var html := fetch(org.url);
      var nextData := NextData.ExtractNextData(html, parse);
      var found: seq<Found> := [];
      if nextData.Some? && Truthy(nextData) {
        found := CollectAnimals(nextData.value, found);
      }
      assert found == PageItems(html, parse);
      byUrl := WriteItems(byUrl, org, found);
      WritesStep(orgs, i, fetch, parse);
      i := i + 1;
    }
    assert orgs[..i] == orgs;
    pets := OrderedMap.Values(byUrl);
  }
}
