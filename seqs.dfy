/** Sequence operations that stand for the repository queries: a table is a sequence of rows
    in insertion order, `findOne` is the first matching row, `find` is a filter, and
    `order: { id: "DESC" }` over a table kept in ascending id order is a reversal. */
module Seqs {
  import opened Wrappers

  /** The index of the first element that satisfies `p`. */
  function FindFirst<T>(s: seq<T>, p: T -> bool): (r: Option<nat>)
    ensures r.Some? ==> r.value < |s| && p(s[r.value])
    ensures r.Some? ==> forall k :: 0 <= k < r.value ==> !p(s[k])
    ensures r.None? ==> forall k :: 0 <= k < |s| ==> !p(s[k])
  {
    if |s| == 0 then None
    else if p(s[0]) then Some(0)
    else match FindFirst(s[1..], p)
      case None => None
      case Some(i) => Some(i + 1)
  }

  /** The elements that satisfy `p`, in their original order. */
  function Filter<T(!new)>(s: seq<T>, p: T -> bool): (r: seq<T>)
    ensures |r| <= |s|
    ensures forall x :: x in r <==> x in s && p(x)
    ensures forall k :: 0 <= k < |r| ==> r[k] in s && p(r[k])
  {
    if |s| == 0 then []
    else
      var rest := Filter(s[1..], p);
      assert forall x :: x in s <==> x == s[0] || x in s[1..];
      if p(s[0]) then [s[0]] + rest else rest
  }

  /** A filter keeps every matching element as often as it occurs and drops the rest: it
      never repeats an element. */
  lemma {:induction false} FilterCounts<T(!new)>(s: seq<T>, p: T -> bool)
    ensures forall x :: multiset(Filter(s, p))[x] == if p(x) then multiset(s)[x] else 0
  {
    if |s| > 0 {
      FilterCounts(s[1..], p);
      assert s == [s[0]] + s[1..];
    }
  }

  /** The sequence backwards. */
  function Reverse<T>(s: seq<T>): (r: seq<T>)
    ensures |r| == |s|
    ensures forall k :: 0 <= k < |s| ==> r[k] == s[|s| - 1 - k]
  {
    if |s| == 0 then [] else Reverse(s[1..]) + [s[0]]
  }

  /** `f` applied to every element. */
  function MapSeq<T, U>(f: T -> U, s: seq<T>): (r: seq<U>)
    ensures |r| == |s|
    ensures forall k :: 0 <= k < |s| ==> r[k] == f(s[k])
  {
    if |s| == 0 then [] else [f(s[0])] + MapSeq(f, s[1..])
  }

  /** The image of every element is in the mapped sequence, and every element of the mapped
      sequence is the image of an element. */
  lemma MapSeqMembers<T, U>(f: T -> U, s: seq<T>)
    ensures forall x :: x in s ==> f(x) in MapSeq(f, s)
    ensures forall k :: 0 <= k < |MapSeq(f, s)| ==> s[k] in s && MapSeq(f, s)[k] == f(s[k])
  {
    forall x | x in s ensures f(x) in MapSeq(f, s) {
      var k :| 0 <= k < |s| && s[k] == x;
      assert MapSeq(f, s)[k] == f(x);
    }
  }

  /** Reversal keeps exactly the elements it was given. */
  lemma ReverseKeepsElements<T>(s: seq<T>)
    ensures forall x :: x in Reverse(s) <==> x in s
  {
    var r := Reverse(s);
    forall x | x in r ensures x in s {
      var k :| 0 <= k < |r| && r[k] == x;
      assert s[|s| - 1 - k] == x;
    }
    forall x | x in s ensures x in r {
      var k :| 0 <= k < |s| && s[k] == x;
      assert r[|s| - 1 - k] == x;
    }
  }

  /** The matching elements, newest (last inserted) first. */
  function NewestFirst<T(!new)>(s: seq<T>, p: T -> bool): (r: seq<T>)
    ensures forall x :: x in r <==> x in s && p(x)
    ensures r == Reverse(Filter(s, p))
  {
    ReverseKeepsElements(Filter(s, p));
    Reverse(Filter(s, p))
  }

  /** `rel` holds of every pair of elements in sequence order. */
  predicate Pairwise<T>(s: seq<T>, rel: (T, T) -> bool)
  {
    forall i, j :: 0 <= i < j < |s| ==> rel(s[i], s[j])
  }

  /** A filter keeps every pairwise property of the sequence: it only drops elements. */
  lemma {:induction false} FilterKeepsPairwise<T(!new)>(s: seq<T>, p: T -> bool, rel: (T, T) -> bool)
    requires Pairwise(s, rel)
    ensures Pairwise(Filter(s, p), rel)
  {
    if |s| > 0 {
      var tail := s[1..];
      assert Pairwise(tail, rel) by {
        forall i, j | 0 <= i < j < |tail| ensures rel(tail[i], tail[j]) {
          assert tail[i] == s[i + 1] && tail[j] == s[j + 1];
        }
      }
      FilterKeepsPairwise(tail, p, rel);
      var rest := Filter(tail, p);
      if p(s[0]) {
        var r := [s[0]] + rest;
        forall i, j | 0 <= i < j < |r| ensures rel(r[i], r[j]) {
          if i == 0 {
            assert r[j] == rest[j - 1] && rest[j - 1] in tail;
            var m :| 0 <= m < |tail| && tail[m] == rest[j - 1];
            assert s[m + 1] == r[j];
          } else {
            assert r[i] == rest[i - 1] && r[j] == rest[j - 1];
          }
        }
      }
    }
  }

  /** Reversing a sequence in strictly ascending key order gives strictly descending order. */
  lemma ReverseDescends<T>(f: seq<T>, key: T -> int)
    requires forall i, j :: 0 <= i < j < |f| ==> key(f[i]) < key(f[j])
    ensures forall i, j :: 0 <= i < j < |Reverse(f)| ==> key(Reverse(f)[i]) > key(Reverse(f)[j])
  {
    var r := Reverse(f);
    forall i, j | 0 <= i < j < |r| ensures key(r[i]) > key(r[j]) {
      assert r[i] == f[|f| - 1 - i] && r[j] == f[|f| - 1 - j];
    }
  }

  /** A filter keeps a strictly ascending key order. */
  lemma FilterAscends<T(!new)>(s: seq<T>, p: T -> bool, key: T -> int)
    requires forall i, j :: 0 <= i < j < |s| ==> key(s[i]) < key(s[j])
    ensures forall i, j :: 0 <= i < j < |Filter(s, p)| ==> key(Filter(s, p)[i]) < key(Filter(s, p)[j])
  {
    var rel := (a: T, b: T) => key(a) < key(b);
    assert Pairwise(s, rel);
    FilterKeepsPairwise(s, p, rel);
  }

  /** Reversing a table kept in ascending key order, after any filter, lists it in
      strictly descending key order. */
  lemma NewestFirstDescends<T(!new)>(s: seq<T>, p: T -> bool, key: T -> int)
    requires forall i, j :: 0 <= i < j < |s| ==> key(s[i]) < key(s[j])
    ensures var r := NewestFirst(s, p);
      forall i, j :: 0 <= i < j < |r| ==> key(r[i]) > key(r[j])
  {
    FilterAscends(s, p, key);
    ReverseDescends(Filter(s, p), key);
  }
}
