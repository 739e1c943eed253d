/** `collectAnimals`: a pre-order walk over a parsed JSON tree that appends a
    record for every node that looks like a pet. */
module Collect {
  import opened Wrappers
  import opened Text
  import opened Json
  import opened Seqs

  /** The record pushed for a pet-like node. `photo` is `JNull` when no
      photo candidate is truthy. */
  datatype Found = Found(name: string, species: string, url: string, photo: Json)

  /** A URL the collector accepts: a site-relative dog or cat path, or any
      string mentioning the site's domain. */
  predicate IsPetUrl(u: string) {
    StartsWith(u, "/dog/") || StartsWith(u, "/cat/") || Includes(u, "petfinder.com/")
  }

  /** The four URL fields, in the order `||` tries them. */
  function UrlFields(v: Json): seq<Option<Json>> {
    var o := Some(v);
    [Member(o, "url"), Member(o, "seoUrl"), Member(o, "detailsUrl"), Member(o, "profileUrl")]
  }

  /** The ten photo candidates, in the order `||` tries them. */
  function PhotoFields(v: Json): seq<Option<Json>> {
    var o := Some(v);
    var cropped := Member(o, "primary_photo_cropped");
    var croppedCamel := Member(o, "primaryPhotoCropped");
    var first := At0(Member(o, "photos"));
    var mediaFirst := At0(Member(Member(o, "media"), "photos"));
    [ Member(cropped, "full"), Member(croppedCamel, "full"),
      Member(cropped, "large"), Member(croppedCamel, "large"),
      Member(first, "full"), Member(first, "large"), Member(first, "medium"),
      Member(mediaFirst, "full"), Member(mediaFirst, "large"), Member(mediaFirst, "medium") ]
  }

  /** `obj.url || obj.seoUrl || obj.detailsUrl || obj.profileUrl`. */
  function UrlOf(v: Json): Option<Json> {
    var fs := UrlFields(v);
    OrChain(fs[..3], fs[3])
  }

  /** The photo chain, ending in `|| null`. */
  function PhotoOf(v: Json): Json {
    OrChain(PhotoFields(v), Some(JNull)).GetOr(JNull)
  }

  /** The `looksLikePet` test: a string `name`, a `species` of exactly "Dog"
      or "Cat", and a string URL of an accepted shape. */
  predicate LooksLikePet(v: Json) {
    var o := Some(v);
    && Member(o, "name").Some? && Member(o, "name").value.JStr?
    && (Member(o, "species") == Some(JStr("Dog")) || Member(o, "species") == Some(JStr("Cat")))
    && UrlOf(v).Some? && UrlOf(v).value.JStr? && IsPetUrl(UrlOf(v).value.s)
  }

  /** `x` is the first truthy entry of `cands`. */
  ghost predicate IsFirstTruthy(cands: seq<Option<Json>>, x: Option<Json>) {
    exists i :: 0 <= i < |cands| && cands[i] == x && Truthy(x)
                && forall j :: 0 <= j < i ==> !Truthy(cands[j])
  }

  /** What every pushed record satisfies. */
  predicate WellFormed(f: Found) {
    && (f.species == "Dog" || f.species == "Cat")
    && IsPetUrl(f.url)
    && (Truthy(Some(f.photo)) || f.photo == JNull)
  }

  /** The record pushed for a pet-like node: its own name and species, the
      first truthy of the four URL fields, and the first truthy of the ten
      photo candidates or null. */
  function ToFound(v: Json): (f: Found)
    requires LooksLikePet(v)
    ensures Member(Some(v), "name") == Some(JStr(f.name))
    ensures Member(Some(v), "species") == Some(JStr(f.species))
    ensures IsFirstTruthy(UrlFields(v), Some(JStr(f.url)))
    ensures IsFirstTruthy(PhotoFields(v), Some(f.photo))
            || (f.photo == JNull && forall i :: 0 <= i < 10 ==> !Truthy(PhotoFields(v)[i]))
    ensures WellFormed(f)
  {
    var url := UrlOf(v).value.s;
    var fs := UrlFields(v);
    UrlIsFirstTruthy(v, url);
    PhotoIsFirstTruthy(v);
    Found(Member(Some(v), "name").value.s, Member(Some(v), "species").value.s, url, PhotoOf(v))
  }

  /** The URL picked by the `||` chain is the first truthy URL field when
      it is a non-empty string. */
  lemma UrlIsFirstTruthy(v: Json, url: string)
    requires UrlOf(v) == Some(JStr(url)) && url != ""
    ensures IsFirstTruthy(UrlFields(v), Some(JStr(url)))
  {
    var fs := UrlFields(v);
    var r := UrlOf(v);
    if Truthy(fs[0]) {
      assert r == fs[0];
    } else if Truthy(fs[1]) {
      assert r == fs[1];
    } else if Truthy(fs[2]) {
      assert r == fs[2];
    } else {
      assert r == fs[3];
      assert forall j :: 0 <= j < 3 ==> !Truthy(fs[j]);
    }
  }

  /** The photo picked by the `|| null` chain is the first truthy candidate,
      or null when there is none. */
  lemma PhotoIsFirstTruthy(v: Json)
    ensures IsFirstTruthy(PhotoFields(v), Some(PhotoOf(v)))
            || (PhotoOf(v) == JNull && forall i :: 0 <= i < 10 ==> !Truthy(PhotoFields(v)[i]))
  {
    var fs := PhotoFields(v);
    if exists i :: 0 <= i < |fs| && Truthy(fs[i]) {
      var i := FirstTruthyIndex(fs);
      assert OrChain(fs, Some(JNull)) == fs[i];
    }
  }

  /** The index of the first truthy entry, when there is one. */
  lemma FirstTruthyIndex(cands: seq<Option<Json>>) returns (i: nat)
    requires exists k :: 0 <= k < |cands| && Truthy(cands[k])
    ensures i < |cands| && Truthy(cands[i]) && forall j :: 0 <= j < i ==> !Truthy(cands[j])
  {
    if Truthy(cands[0]) {
      i := 0;
    } else {
      var k :| 0 <= k < |cands| && Truthy(cands[k]);
      assert Truthy(cands[1..][k - 1]);
      var i' := FirstTruthyIndex(cands[1..]);
      i := i' + 1;
      assert forall j :: 1 <= j < i ==> cands[j] == cands[1..][j - 1];
    }
  }

  /** Number of children the walk visits: array elements or object values. */
  function NumChildren(v: Json): nat {
    match v
    case JArr(items) => |items|
    case JObj(fields) => |fields|
    case _ => 0
  }

  /** `collectAnimals(obj, out)`, with `out` threaded through: nothing
      happens on a non-object; otherwise a pet-like node is pushed before
      its children are walked in order. */
  function CollectAnimals(v: Json, out: seq<Found>): seq<Found>
    decreases v, 1
  {
    if !(v.JArr? || v.JObj?) then out
    else
      var out' := if LooksLikePet(v) then out + [ToFound(v)] else out;
      CollectChildren(v, 0, out')
  }

  /** The loop over the children of `p` from index `i` on. */
  function CollectChildren(p: Json, i: nat, out: seq<Found>): seq<Found>
    decreases p, 0, NumChildren(p) - i
  {
    if i >= NumChildren(p) then out
    else
      CollectChildren(p, i + 1, CollectAnimals(Child(p, i), out))
  }

  /** Every node of the tree under `v` in pre-order: a node, then the nodes
      under each child in index order. */
  function Nodes(v: Json): (ns: seq<Json>)
    decreases v, 1
  {
    [v] + NodesFrom(v, 0)
  }

  /** The nodes under the children of `p` from index `i` on. */
  function NodesFrom(p: Json, i: nat): seq<Json>
    decreases p, 0, NumChildren(p) - i
  {
    if i >= NumChildren(p) then []
    else
      Nodes(Child(p, i)) + NodesFrom(p, i + 1)
  }

  /** The records of the pet-like nodes of `ns`, in order. */
  function Pets(ns: seq<Json>): seq<Found> {
    FlatMap(PetOf, ns)
  }

  /** The record a single node contributes, if any. */
  function PetOf(n: Json): seq<Found> {
    if LooksLikePet(n) then [ToFound(n)] else []
  }

  /** The walk appends to `out` exactly the records of the pet-like nodes of
      the tree, in pre-order. */
  lemma {:induction false} CollectIsPreorderFilter(v: Json, out: seq<Found>)
    decreases v, 1
    ensures CollectAnimals(v, out) == out + Pets(Nodes(v))
  {
    if v.JArr? || v.JObj? {
      var out' := if LooksLikePet(v) then out + [ToFound(v)] else out;
      assert out' == out + PetOf(v);
      assert CollectAnimals(v, out) == CollectChildren(v, 0, out');
      CollectChildrenIsPreorderFilter(v, 0, out');
      FlatMapConcat(PetOf, [v], NodesFrom(v, 0));
      assert Pets([v]) == PetOf(v) + Pets([]);
      AppendChain(out, out', PetOf(v), Pets(NodesFrom(v, 0)));
    }
  }

  lemma {:induction false} CollectChildrenIsPreorderFilter(p: Json, i: nat, out: seq<Found>)
    decreases p, 0, NumChildren(p) - i
    ensures CollectChildren(p, i, out) == out + Pets(NodesFrom(p, i))
  {
    if i < NumChildren(p) {
      var c := Child(p, i);
      var here := Pets(Nodes(c));
      var later := Pets(NodesFrom(p, i + 1));
      calc {
        CollectChildren(p, i, out);
      == { ChildStep(p, i, out); }
        CollectChildren(p, i + 1, CollectAnimals(c, out));
      == { CollectChildrenIsPreorderFilter(p, i + 1, CollectAnimals(c, out)); }
        CollectAnimals(c, out) + later;
      == { CollectIsPreorderFilter(c, out); AppendChain(out, CollectAnimals(c, out), here, later); }
        out + (here + later);
      == { ChildStep(p, i, out); FlatMapConcat(PetOf, Nodes(c), NodesFrom(p, i + 1)); }
        out + Pets(NodesFrom(p, i));
      }
    }
  }

  /** One round of the loop over children, for the walk and for the nodes. */
  lemma ChildStep(p: Json, i: nat, out: seq<Found>)
    requires i < NumChildren(p)
    ensures CollectChildren(p, i, out) == CollectChildren(p, i + 1, CollectAnimals(Child(p, i), out))
    ensures NodesFrom(p, i) == Nodes(Child(p, i)) + NodesFrom(p, i + 1)
  {
  }

  /** Child `i` of an array or object. */
  function Child(p: Json, i: nat): (c: Json)
    requires i < NumChildren(p)
    ensures c < p
  {
    match p
    case JArr(items) => items[i]
    case JObj(fields) => fields[i].1
  }

  /** Appending `here` and then `later` to `out` is appending both at once. */
  lemma AppendChain(out: seq<Found>, mid: seq<Found>, here: seq<Found>, later: seq<Found>)
    requires mid == out + here
    ensures mid + later == out + (here + later)
  {
  }

  /** Pre-order: a pet-like node's own record comes right after `out`,
      before anything found among its children. */
  lemma PetPushedBeforeChildren(v: Json, out: seq<Found>)
    requires LooksLikePet(v)
    ensures |CollectAnimals(v, out)| > |out| && CollectAnimals(v, out)[|out|] == ToFound(v)
  {
    assert v.JArr? || v.JObj? by {
      assert Member(Some(v), "name").Some?;
    }
    CollectIsPreorderFilter(v, out);
    FlatMapConcat(PetOf, [v], NodesFrom(v, 0));
    assert Pets([v]) == [ToFound(v)] + Pets([]);
    assert Pets(Nodes(v))[0] == ToFound(v);
  }

  /** `Pets` keeps a record for every pet-like node and for nothing else. */
  lemma PetsExactly(ns: seq<Json>)
    ensures forall n :: n in ns && LooksLikePet(n) ==> ToFound(n) in Pets(ns)
    ensures forall f :: f in Pets(ns) ==> exists n :: n in ns && LooksLikePet(n) && f == ToFound(n)
  {
    FlatMapMembers(PetOf, ns);
    forall n | n in ns && LooksLikePet(n)
      ensures ToFound(n) in Pets(ns)
    {
      assert ToFound(n) in PetOf(n);
    }
  }

  /** The walk only appends to `out`, appends only well-formed records, and
      leaves `out` alone on anything but an array or an object. */
  lemma CollectAnimalsAppends(v: Json, out: seq<Found>)
    ensures out <= CollectAnimals(v, out)
    ensures var r := CollectAnimals(v, out);
            forall k :: |out| <= k < |r| ==> WellFormed(r[k])
    ensures !(v.JArr? || v.JObj?) ==> CollectAnimals(v, out) == out
  {
    var r := CollectAnimals(v, out);
    var ps := Pets(Nodes(v));
    CollectIsPreorderFilter(v, out);
    PetsExactly(Nodes(v));
    forall k | |out| <= k < |r|
      ensures WellFormed(r[k])
    {
      assert r[k] == ps[k - |out|];
      assert r[k] in ps;
    }
  }
}
