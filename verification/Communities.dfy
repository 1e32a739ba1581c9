/** Communities: sorted sets of 32-bit values, and their text. */
module Communities {
  import opened Asns
  import opened Options
  import opened Sequences

  /** A community value: 16 bits of AS number and 16 bits of value. */
  type CommunityVal = Asn

  // ---------------------------------------------------------------------
  // Sets

  /** The one-pass comparison of `community_match` and `ecommunity_match`: the values of `b` occur in `a` in their order. */
  function Within<T(==)>(a: seq<T>, b: seq<T>): bool {
    if b == [] then true
    else if a == [] then false
    else if a[0] == b[0] then Within(a[1..], b[1..])
    else Within(a[1..], b)
  }

  lemma {:induction false} WithinSize<T>(a: seq<T>, b: seq<T>)
    requires Within(a, b)
    ensures |b| <= |a|
    decreases |a|
  {
    if b != [] && a != [] {
      if a[0] == b[0] {
        WithinSize(a[1..], b[1..]);
      } else {
        WithinSize(a[1..], b);
      }
    }
  }

  /** The values of `b` are found in `a` at these places, one behind the other. */
  ghost predicate At<T>(a: seq<T>, b: seq<T>, places: seq<nat>) {
    && |places| == |b|
    && (forall i :: 0 <= i < |b| ==> places[i] < |a| && a[places[i]] == b[i])
    && (forall i, j :: 0 <= i < j < |b| ==> places[i] < places[j])
  }

  /** The one-pass comparison finds the values of `b` in `a` wherever they are in their order. */
  lemma {:induction false} WithinIff<T>(a: seq<T>, b: seq<T>)
    ensures Within(a, b) <==> exists places :: At(a, b, places)
  {
    if Within(a, b) {
      var places := WithinPlaces(a, b);
    }
    if places :| At(a, b, places) {
      PlacesWithin(a, b, places);
    }
  }

  lemma {:induction false} WithinPlaces<T>(a: seq<T>, b: seq<T>) returns (places: seq<nat>)
    requires Within(a, b)
    ensures At(a, b, places)
    decreases |a|
  {
    if b == [] {
      places := [];
    } else {
      var first := a[0] == b[0];
      var p := WithinPlaces(a[1..], if first then b[1..] else b);
      var q := seq(|p|, i requires 0 <= i < |p| => p[i] + 1);
      places := if first then [0] + q else q;
    }
  }

  lemma {:induction false} PlacesWithin<T>(a: seq<T>, b: seq<T>, places: seq<nat>)
    requires At(a, b, places)
    ensures Within(a, b)
    decreases |a|
  {
    if b != [] {
      assert places[0] < |a|;
      var rest := if a[0] == b[0] then b[1..] else b;
      var from := if a[0] == b[0] then places[1..] else places;
      forall i | 0 <= i < |rest| ensures from[i] > 0 {
        assert a[0] == b[0] ==> places[0] < places[i + 1];
        assert a[0] != b[0] ==> places[0] > 0 && (i > 0 ==> places[0] < places[i]);
      }
      var q := seq(|rest|, i requires 0 <= i < |rest| => from[i] - 1);
      PlacesWithin(a[1..], rest, q);
    }
  }

  /** On sorted sets the one-pass comparison is exactly inclusion. */
  lemma {:induction false} WithinIsSubset(a: seq<CommunityVal>, b: seq<CommunityVal>)
    requires StrictlyIncreasing(a) && StrictlyIncreasing(b)
    ensures Within(a, b) <==> Elems(b) <= Elems(a)
    decreases |a|
  {
    if b != [] {
      assert b[0] in Elems(b);
      if a != [] {
        TailElems(a);
        TailElems(b);
        if a[0] == b[0] {
          WithinIsSubset(a[1..], b[1..]);
          assert a[0] !in Elems(b[1..]);
        } else {
          WithinIsSubset(a[1..], b);
          if Elems(b) <= Elems(a) {
            assert a[0] !in Elems(b);
          }
        }
      }
    }
  }

  lemma TailElems(a: seq<CommunityVal>)
    requires a != [] && StrictlyIncreasing(a)
    ensures StrictlyIncreasing(a[1..])
    ensures Elems(a) == Elems(a[1..]) + {a[0]}
    ensures forall x :: x in Elems(a[1..]) ==> a[0] < x
  {
    assert a == [a[0]] + a[1..];
    ElemsCons(a[0], a[1..]);
    forall x | x in Elems(a[1..]) ensures a[0] < x {
      var i :| 0 <= i < |a| - 1 && a[1..][i] == x;
      assert a[i + 1] == x;
    }
  }

  /** Unsorted lists need their order: a list with the same values may not match. */
  lemma MatchNeedsOrder()
    ensures Elems([1, 2]) == Elems([2, 1]) && !Within([1, 2], [2, 1])
  {
    assert Elems([1, 2]) == {1, 2} == Elems([2, 1]);
    assert [1, 2][1..] == [2] && [2, 1][1..] == [1] && [2][1..] == [];
  }

  function WithoutAll(s: seq<CommunityVal>, t: seq<CommunityVal>): seq<CommunityVal>
    decreases |t|
  {
    if t == [] then s else WithoutAll(Remove(s, t[0]), t[1..])
  }

  lemma {:induction false} WithoutSet(s: seq<CommunityVal>, v: CommunityVal)
    requires StrictlyIncreasing(s)
    ensures StrictlyIncreasing(Remove(s, v)) && Elems(Remove(s, v)) == Elems(s) - {v}
  {
    if s != [] {
      TailElems(s);
      if s[0] != v {
        WithoutSet(s[1..], v);
        var t := Remove(s[1..], v);
        ElemsCons(s[0], t);
        IncreasingCons(s[0], t);
      }
    }
  }

  /** Deleting a list of values from a sorted set is set difference, and keeps it sorted. */
  lemma {:induction false} WithoutAllSet(s: seq<CommunityVal>, t: seq<CommunityVal>)
    requires StrictlyIncreasing(s)
    ensures StrictlyIncreasing(WithoutAll(s, t)) && Elems(WithoutAll(s, t)) == Elems(s) - Elems(t)
    decreases |t|
  {
    if t != [] {
      WithoutSet(s, t[0]);
      WithoutAllSet(Remove(s, t[0]), t[1..]);
      assert t == [t[0]] + t[1..];
      ElemsCons(t[0], t[1..]);
    }
  }

  /** `struct community`. */
  class Community {
    var val: seq<CommunityVal>

    constructor (v: seq<CommunityVal>)
      ensures val == v
    {
      val := v;
    }

    /** `community_include`. */
    method Include(v: CommunityVal) returns (found: bool)
      ensures found <==> v in val
    {
      for i := 0 to |val|
        invariant forall j :: 0 <= j < i ==> val[j] != v
      {
        if val[i] == v {
          return true;
        }
      }
      return false;
    }

    /** `community_add_val`. */
    method AddVal(v: CommunityVal)
      modifies this
      ensures val == old(val) + [v]
    {
      val := val + [v];
    }

    /** `community_del_val`: the first occurrence goes. */
    method DelVal(v: CommunityVal)
      modifies this
      ensures val == Remove(old(val), v)
    {
      hide Remove;
      var i := 0;
      assert val[..0] + Remove(val[0..], v) == Remove(val, v) by { assert val[0..] == val; }
      while i < |val|
        invariant 0 <= i <= |val| && val == old(val)
        invariant val[..i] + Remove(val[i..], v) == Remove(val, v)
      {
        RemoveFrom(val, i, v);
        if val[i] == v {
          val := val[..i] + val[i + 1..];
          return;
        }
        i := i + 1;
      }
      RemoveFrom(val, i, v);
    }

    /** `community_delete`. */
    method Delete(other: seq<CommunityVal>)
      modifies this
      ensures val == WithoutAll(old(val), other)
      ensures StrictlyIncreasing(old(val)) ==> StrictlyIncreasing(val) && Elems(val) == Elems(old(val)) - Elems(other)
    {
      var i := 0;
      while i < |other|
        invariant 0 <= i <= |other|
        invariant WithoutAll(val, other[i..]) == WithoutAll(old(val), other)
      {
        assert other[i..][1..] == other[i + 1..];
        DelVal(other[i]);
        i := i + 1;
      }
      assert other[|other|..] == [];
      if StrictlyIncreasing(old(val)) {
        WithoutAllSet(old(val), other);
      }
    }
  }

  /** `community_uniq_sort`: the strictly increasing array of the set of values. */
  method UniqSort(vals: seq<CommunityVal>) returns (r: seq<CommunityVal>)
    ensures r == CanonSet(vals)
  {
    var c := new Community([]);
    for i := 0 to |vals|
      invariant Elems(c.val) == Elems(vals[..i])
      invariant Distinct(c.val)
    {
      ElemsSnoc(vals[..i], vals[i]);
      assert vals[..i + 1] == vals[..i] + [vals[i]];
      ElemsSnoc(c.val, vals[i]);
      var found := c.Include(vals[i]);
      if !found {
        c.AddVal(vals[i]);
      }
    }
    assert vals[..|vals|] == vals;
    r := Qsort(c.val);
    SortedNoRepeat(c.val);
    CanonSetOfPermutation(r, c.val);
    StrictlyIncreasingUnique(r, CanonSet(vals));
  }

  /** Sorting a list without repetitions gives a strictly increasing one. */
  lemma {:induction false} SortedNoRepeat(s: seq<CommunityVal>)
    requires Distinct(s)
    ensures StrictlyIncreasing(Qsort(s)) && Elems(Qsort(s)) == Elems(s)
  {
    hide Qsort, Distinct;
    var r := Qsort(s);
    forall x ensures x in r <==> x in s {
      assert x in r <==> x in multiset(r);
      assert x in s <==> x in multiset(s);
    }
    forall i, j | 0 <= i < j < |r| ensures r[i] < r[j] {
      OnceEach(s, r[i]);
      TwiceIn(r, i, j);
    }
  }

  /** `community_match` and `ecommunity_match`; a missing set is `None`. */
  method Match<T(==)>(a: Option<seq<T>>, b: Option<seq<T>>) returns (same: bool)
    ensures same == if a.None? || b.None? then a.None? && b.None? else Within(a.value, b.value)
  {
    if a.None? && b.None? {
      return true;
    }
    if a.None? || b.None? {
      return false;
    }
    var x, y := a.value, b.value;
    if |x| < |y| {
      if Within(x, y) {
        WithinSize(x, y);
      }
      return false;
    }
    var i, j := 0, 0;
    while i < |x| && j < |y|
      invariant 0 <= i <= |x| && 0 <= j <= |y|
      invariant Within(x, y) == Within(x[i..], y[j..])
    {
      assert x[i..][1..] == x[i + 1..] && y[j..][1..] == y[j + 1..];
      if x[i] == y[j] {
        j := j + 1;
      }
      i := i + 1;
    }
    return j == |y|;
  }
}
