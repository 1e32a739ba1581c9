/**
  AS numbers, and the sorted duplicate-free arrays that bgpd keeps for AS_SET
  and AS_CONFED_SET segments.
 */
module Asns {

  /** A 32-bit AS number (`as_t`). */
  type Asn = x: int | 0 <= x < 0x1_0000_0000

  /** The largest AS number a 2-byte speaker can carry. */
  const BGP_AS_MAX: Asn := 65535
  /** The 2-byte stand-in for every larger AS number. */
  const BGP_AS_TRANS: Asn := 23456

  ghost function Elems(s: seq<Asn>): set<Asn> {
    set x | x in s
  }

  ghost predicate StrictlyIncreasing(s: seq<Asn>) {
    forall i, j :: 0 <= i < j < |s| ==> s[i] < s[j]
  }

  ghost predicate Sorted(s: seq<Asn>) {
    forall i, j :: 0 <= i < j < |s| ==> s[i] <= s[j]
  }

  lemma ElemsCons(x: Asn, s: seq<Asn>)
    ensures Elems([x] + s) == {x} + Elems(s)
  {
    assert forall y :: y in [x] + s <==> y == x || y in s;
  }

  lemma ElemsSnoc(s: seq<Asn>, x: Asn)
    ensures Elems(s + [x]) == Elems(s) + {x}
  {
    assert forall y :: y in s + [x] <==> y == x || y in s;
  }

  /** Insertion into a strictly increasing array, dropping a repeated value. */
  function Insert(x: Asn, s: seq<Asn>): (r: seq<Asn>) {
    if s == [] || x < s[0] then [x] + s
    else if x == s[0] then s
    else [s[0]] + Insert(x, s[1..])
  }

  lemma {:induction false} InsertElems(x: Asn, s: seq<Asn>)
    ensures Elems(Insert(x, s)) == Elems(s) + {x}
  {
    if s == [] || x < s[0] {
      ElemsCons(x, s);
    } else if x != s[0] {
      InsertElems(x, s[1..]);
      ElemsCons(s[0], s[1..]);
      assert [s[0]] + s[1..] == s;
      ElemsCons(s[0], Insert(x, s[1..]));
    }
  }

  lemma IncreasingCons(x: Asn, s: seq<Asn>)
    requires StrictlyIncreasing(s)
    requires forall y :: y in Elems(s) ==> x < y
    ensures StrictlyIncreasing([x] + s)
  {
    forall j | 0 <= j < |s| ensures x < s[j] { assert s[j] in Elems(s); }
  }

  lemma {:induction false} InsertIncreasing(x: Asn, s: seq<Asn>)
    requires StrictlyIncreasing(s)
    ensures StrictlyIncreasing(Insert(x, s))
  {
    if s != [] && x > s[0] {
      InsertIncreasing(x, s[1..]);
      InsertElems(x, s[1..]);
      IncreasingCons(s[0], Insert(x, s[1..]));
    }
  }

  /** The canonical array of a set of AS numbers: strictly increasing, same members. */
  function CanonSet(s: seq<Asn>): (r: seq<Asn>)
    ensures StrictlyIncreasing(r)
    ensures Elems(r) == Elems(s)
    ensures s != [] ==> r != []
  {
    if s == [] then [] else
      var t := CanonSet(s[1..]);
      ElemsCons(s[0], s[1..]);
      assert [s[0]] + s[1..] == s;
      InsertElems(s[0], t);
      InsertIncreasing(s[0], t);
      Insert(s[0], t)
  }

  /** A set of AS numbers has exactly one strictly increasing array. */
  lemma {:induction false} StrictlyIncreasingUnique(a: seq<Asn>, b: seq<Asn>)
    requires StrictlyIncreasing(a) && StrictlyIncreasing(b)
    requires Elems(a) == Elems(b)
    ensures a == b
  {
    if a == [] {
      assert forall i :: 0 <= i < |b| ==> b[i] in Elems(b);
    } else {
      assert a[0] in Elems(a);
      assert b != [] by { assert a[0] in Elems(b); }
      assert b[0] in Elems(b);
      assert a[0] in b && b[0] in a;
      assert a[0] == b[0];
      forall x
        ensures x in Elems(a[1..]) <==> x in Elems(b[1..])
      {
        assert x in Elems(a[1..]) <==> x in Elems(a) && x != a[0];
        assert x in Elems(b[1..]) <==> x in Elems(b) && x != b[0];
      }
      StrictlyIncreasingUnique(a[1..], b[1..]);
    }
  }

  /** Insertion into a sorted array, keeping repeated values. */
  function InsertSorted(x: Asn, s: seq<Asn>): (r: seq<Asn>)
    ensures multiset(r) == multiset(s) + multiset{x}
  {
    if s == [] || x <= s[0] then
      [x] + s
    else
      assert s == [s[0]] + s[1..];
      [s[0]] + InsertSorted(x, s[1..])
  }

  lemma {:induction false} InsertSortedSorted(x: Asn, s: seq<Asn>)
    requires Sorted(s)
    ensures Sorted(InsertSorted(x, s))
  {
    if s != [] && x > s[0] {
      InsertSortedSorted(x, s[1..]);
      var t := InsertSorted(x, s[1..]);
      forall j | 0 <= j < |t|
        ensures s[0] <= t[j]
      {
        assert t[j] in multiset(t);
      }
    }
  }

  /** `qsort`: a sorted permutation of its input. */
  function Qsort(s: seq<Asn>): (r: seq<Asn>)
    ensures Sorted(r)
    ensures multiset(r) == multiset(s)
  {
    if s == [] then [] else
      assert s == [s[0]] + s[1..];
      InsertSortedSorted(s[0], Qsort(s[1..]));
      InsertSorted(s[0], Qsort(s[1..]))
  }

  /**
    The duplicate weeding loop of segment normalisation: the array is already
    sorted, `tail` is the last slot kept.
   */
  method WeedDupes(sorted: seq<Asn>) returns (r: seq<Asn>)
    requires Sorted(sorted)
    ensures r == CanonSet(sorted)
  {
    if |sorted| == 0 {
      return [];
    }
    var buf := sorted;
    var tail := 0;
    ghost var kept := [sorted[0]];
    for i := 1 to |sorted|
      invariant |buf| == |sorted| && 0 <= tail < i
      invariant forall j :: i <= j < |sorted| ==> buf[j] == sorted[j]
      invariant buf[..tail + 1] == kept
      invariant kept[tail] == sorted[i - 1]
      invariant StrictlyIncreasing(kept) && Elems(kept) == Elems(sorted[..i])
    {
      hide Elems, StrictlyIncreasing;
      WeedStep(kept, sorted, i);
      if buf[tail] != buf[i] {
        tail := tail + 1;
        if tail < i {
          buf := buf[tail := buf[i]];
        }
        kept := kept + [sorted[i]];
      }
    }
    assert sorted[..|sorted|] == sorted;
    r := buf[..tail + 1];
    StrictlyIncreasingUnique(r, CanonSet(sorted));
  }

  lemma WeedStep(kept: seq<Asn>, sorted: seq<Asn>, i: nat)
    requires 0 < i < |sorted| && Sorted(sorted)
    requires kept != [] && kept[|kept| - 1] == sorted[i - 1]
    requires StrictlyIncreasing(kept) && Elems(kept) == Elems(sorted[..i])
    ensures sorted[i] == sorted[i - 1] ==> Elems(kept) == Elems(sorted[..i + 1])
    ensures sorted[i] != sorted[i - 1] ==>
      StrictlyIncreasing(kept + [sorted[i]]) && Elems(kept + [sorted[i]]) == Elems(sorted[..i + 1])
  {
    ElemsSnoc(sorted[..i], sorted[i]);
    assert sorted[..i + 1] == sorted[..i] + [sorted[i]];
    ElemsSnoc(kept, sorted[i]);
    assert kept[|kept| - 1] in Elems(kept);
  }

  /** Sorting first does not change the canonical array. */
  lemma CanonSetOfPermutation(a: seq<Asn>, b: seq<Asn>)
    requires multiset(a) == multiset(b)
    ensures CanonSet(a) == CanonSet(b)
  {
    forall x
      ensures x in Elems(a) <==> x in Elems(b)
    {
      assert x in a <==> x in multiset(a);
      assert x in b <==> x in multiset(b);
    }
    StrictlyIncreasingUnique(CanonSet(a), CanonSet(b));
  }

  /** A strictly increasing array is its own canonical array. */
  lemma CanonSetFixed(a: seq<Asn>)
    requires StrictlyIncreasing(a)
    ensures CanonSet(a) == a
  {
    StrictlyIncreasingUnique(a, CanonSet(a));
  }
}
