/** Sequence facts shared by both handlers: distinctness and the
    "keep the first occurrence" filter that a `seen` set implements. */
module Seqs {

  /** No element occurs twice. */
  predicate Distinct<T(==)>(s: seq<T>) {
    forall i, j :: 0 <= i < j < |s| ==> s[i] != s[j]
  }

  /** The set of elements of `s`. */
  function Elems<T>(s: seq<T>): set<T> {
    set x | x in s
  }

  /** Index of the first occurrence of `x` in `s`. */
  function FirstPos<T(==)>(s: seq<T>, x: T): (k: nat)
    requires x in s
    ensures k < |s| && s[k] == x
    ensures forall j :: 0 <= j < k ==> s[j] != x
  {
    if s[0] == x then 0 else 1 + FirstPos(s[1..], x)
  }

  /** Appending after `a` does not move the first occurrence of anything in `a`. */
  lemma FirstPosAppend<T>(a: seq<T>, b: seq<T>, x: T)
    requires x in a
    ensures FirstPos(a + b, x) == FirstPos(a, x)
  {
    var k := FirstPos(a, x);
    var k' := FirstPos(a + b, x);
    assert (a + b)[k] == x;
    assert k' <= k;
    assert a[k'] == (a + b)[k'];
  }

  /** `s` with every element after its first occurrence dropped: the
      sequence of elements a scan with a `seen` set lets through. The result
      holds the same elements, each once (and in the order of their first
      occurrences, see `DedupOrder`). */
  function Dedup<T(==)>(s: seq<T>): (r: seq<T>)
    ensures forall i :: 0 <= i < |r| ==> r[i] in s
    ensures forall i :: 0 <= i < |s| ==> s[i] in r
    ensures Distinct(r)
  {
    if |s| == 0 then []
    else
      var front := s[..|s| - 1];
      var last := s[|s| - 1];
      assert s == front + [last];
      var d := Dedup(front);
      if last in front then d else d + [last]
  }

  /** `Dedup` lists the elements in the order of their first occurrences. */
  lemma {:induction false} DedupOrder<T>(s: seq<T>)
    ensures forall i, j :: 0 <= i < j < |Dedup(s)| ==> FirstPos(s, Dedup(s)[i]) < FirstPos(s, Dedup(s)[j])
  {
    if |s| > 0 {
      var front := s[..|s| - 1];
      var last := s[|s| - 1];
      assert s == front + [last];
      DedupOrder(front);
      DedupOrderStep(front, last, Dedup(front));
    }
  }

  /** The inductive step of `Dedup`'s order guarantee. */
  lemma DedupOrderStep<T>(front: seq<T>, last: T, d: seq<T>)
    requires forall i :: 0 <= i < |d| ==> d[i] in front
    requires forall i, j :: 0 <= i < j < |d| ==> FirstPos(front, d[i]) < FirstPos(front, d[j])
    ensures forall i, j :: 0 <= i < j < |d| ==> FirstPos(front + [last], d[i]) < FirstPos(front + [last], d[j])
    ensures last !in front ==>
      forall i, j :: 0 <= i < j < |d + [last]| ==>
        FirstPos(front + [last], (d + [last])[i]) < FirstPos(front + [last], (d + [last])[j])
  {
    forall x | x in front
      ensures FirstPos(front + [last], x) == FirstPos(front, x)
    {
      FirstPosAppend(front, [last], x);
    }
    if last !in front {
      var s := front + [last];
      assert FirstPos(s, last) == |front| by {
        assert forall j :: 0 <= j < |front| ==> s[j] == front[j];
        assert s[|front|] == last;
      }
      forall i, j | 0 <= i < j < |d + [last]|
        ensures FirstPos(s, (d + [last])[i]) < FirstPos(s, (d + [last])[j])
      {
        if j == |d| {
          assert (d + [last])[i] == d[i];
        } else {
          assert (d + [last])[i] == d[i] && (d + [last])[j] == d[j];
        }
      }
    }
  }

  /** A duplicate-free sequence has as many elements as its set. */
  lemma {:induction false} DistinctCard<T>(s: seq<T>)
    requires Distinct(s)
    ensures |Elems(s)| == |s|
  {
    if |s| > 0 {
      var front := s[..|s| - 1];
      var last := s[|s| - 1];
      assert Distinct(front);
      DistinctCard(front);
      assert forall k :: 0 <= k < |front| ==> front[k] == s[k] && s[k] != last;
      assert last !in Elems(front);
      assert s == front + [last];
      assert Elems(s) == Elems(front) + {last};
    }
  }

  /** `Dedup` keeps exactly one copy of each distinct element. */
  lemma DedupCount<T>(s: seq<T>)
    ensures |Dedup(s)| == |Elems(s)|
  {
    DistinctCard(Dedup(s));
    assert Elems(Dedup(s)) == Elems(s);
  }

  /** Extending the input by one element either leaves `Dedup` alone (the
      element was seen) or appends it. */
  lemma DedupSnoc<T>(s: seq<T>, x: T)
    ensures Dedup(s + [x]) == if x in s then Dedup(s) else Dedup(s) + [x]
  {
  }

  /** The concatenation of `f(x)` over the elements `x` of `s`, in order. */
  function FlatMap<A, B>(f: A -> seq<B>, s: seq<A>): seq<B> {
    if |s| == 0 then [] else f(s[0]) + FlatMap(f, s[1..])
  }

  lemma {:induction false} FlatMapConcat<A, B>(f: A -> seq<B>, a: seq<A>, b: seq<A>)
    ensures FlatMap(f, a + b) == FlatMap(f, a) + FlatMap(f, b)
  {
    if |a| == 0 {
      assert a + b == b;
    } else {
      assert (a + b)[0] == a[0];
      assert (a + b)[1..] == a[1..] + b;
      FlatMapConcat(f, a[1..], b);
    }
  }

  /** An element of the result comes from `f(x)` for some `x` of `s`, and
      everything of every such `f(x)` is in the result. */
  lemma {:induction false} FlatMapMembers<A, B>(f: A -> seq<B>, s: seq<A>)
    ensures forall x, y :: x in s && y in f(x) ==> y in FlatMap(f, s)
    ensures forall y :: y in FlatMap(f, s) ==> exists x :: x in s && y in f(x)
  {
    if |s| > 0 {
      FlatMapMembers(f, s[1..]);
      assert s == [s[0]] + s[1..];
    }
  }

  /** One more element appends its image. */
  lemma FlatMapSnoc<A, B>(f: A -> seq<B>, s: seq<A>, x: A)
    ensures FlatMap(f, s + [x]) == FlatMap(f, s) + f(x)
  {
    FlatMapConcat(f, s, [x]);
    assert FlatMap(f, [x]) == f(x) + FlatMap(f, []);
  }
}
