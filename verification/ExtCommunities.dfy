/**
  Extended communities: sorted sets of 8-byte values.  A value is taken as the
  number its bytes spell, so that comparing bytes is comparing numbers.
 */
module ExtCommunities {

  type ExtVal = x: int | 0 <= x < 0x1_0000_0000_0000_0000

  ghost predicate Rising(s: seq<ExtVal>) {
    forall i, j :: 0 <= i < j < |s| ==> s[i] < s[j]
  }

  ghost function ExtSet(s: seq<ExtVal>): set<ExtVal> {
    set x | x in s
  }

  function Added(s: seq<ExtVal>, v: ExtVal): seq<ExtVal> {
    if s == [] then [v]
    else if s[0] == v then s
    else if s[0] > v then [v] + s
    else [s[0]] + Added(s[1..], v)
  }

  function AddedAll(s: seq<ExtVal>, vals: seq<ExtVal>): seq<ExtVal>
    decreases |vals|
  {
    if vals == [] then s else AddedAll(Added(s, vals[0]), vals[1..])
  }

  class ExtCommunity {
    var val: seq<ExtVal>

    constructor ()
      ensures val == []
    {
      val := [];
    }

    /** `ecommunity_add_val`: the scan stops at the value or at the first larger one. */
    method AddVal(v: ExtVal) returns (added: bool)
      modifies this
      ensures val == Added(old(val), v)
      ensures added <==> |val| == |old(val)| + 1
    {
      hide Added;
      var c := 0;
      assert val[..0] + Added(val[0..], v) == Added(val, v) by { assert val[0..] == val; }
      while c < |val|
        invariant c <= |val| && val == old(val)
        invariant val[..c] + Added(val[c..], v) == Added(val, v)
        invariant forall k :: 0 <= k < c ==> val[k] < v
      {
        AddedFrom(val, c, v);
        if val[c] == v {
          return false;
        }
        if val[c] > v {
          break;
        }
        c := c + 1;
      }
      AddedFrom(val, c, v);
      val := val[..c] + [v] + val[c..];
      return true;
    }
  }

  /** The insertion seen from place `c`. */
  lemma {:induction false} AddedFrom(s: seq<ExtVal>, c: nat, v: ExtVal)
    requires c <= |s|
    ensures s[..c] + Added(s[c..], v) ==
      if c == |s| || s[c] > v then s[..c] + [v] + s[c..]
      else if s[c] == v then s
      else s[..c + 1] + Added(s[c + 1..], v)
  {
    var front, rest := s[..c], s[c..];
    if c < |s| {
      assert rest[0] == s[c] && rest[1..] == s[c + 1..];
      assert s[..c + 1] == front + [s[c]];
      var t := Added(s[c + 1..], v);
      assert front + ([s[c]] + t) == front + [s[c]] + t;
      assert front + ([v] + rest) == front + [v] + rest;
    }
  }

  /** `ecommunity_uniq_sort`. */
  method UniqSort(vals: seq<ExtVal>) returns (r: seq<ExtVal>)
    ensures r == AddedAll([], vals)
  {
    hide Added;
    var c := new ExtCommunity();
    assert vals[0..] == vals;
    for i := 0 to |vals|
      invariant AddedAll(c.val, vals[i..]) == AddedAll([], vals)
    {
      assert vals[i..][0] == vals[i] && vals[i..][1..] == vals[i + 1..];
      var added := c.AddVal(vals[i]);
    }
    return c.val;
  }

  lemma {:induction false} RisingCons(x: ExtVal, s: seq<ExtVal>)
    ensures Rising([x] + s) <==> Rising(s) && forall y :: y in ExtSet(s) ==> x < y
  {
    var t := [x] + s;
    assert forall i :: 0 <= i < |s| ==> t[i + 1] == s[i] && s[i] in ExtSet(s);
    if Rising(t) {
      forall i, j | 0 <= i < j < |s| ensures s[i] < s[j] {
        assert t[i + 1] < t[j + 1];
      }
      forall y | y in ExtSet(s) ensures x < y {
        var i :| 0 <= i < |s| && s[i] == y;
        assert t[0] < t[i + 1];
      }
    }
  }

  lemma {:induction false} AddedMeans(s: seq<ExtVal>, v: ExtVal)
    requires Rising(s)
    ensures Rising(Added(s, v)) && ExtSet(Added(s, v)) == ExtSet(s) + {v}
  {
    hide Rising, ExtSet;
    if s == [] {
      RisingCons(v, []);
      ExtSetCons(v, []);
      ExtSetNone(s);
      assert [v] + [] == [v];
    } else {
      var x, t := s[0], s[1..];
      assert s == [x] + t;
      ExtSetCons(x, t);
      RisingCons(x, t);
      if x > v {
        ExtSetCons(v, s);
        RisingCons(v, s);
      } else if x < v {
        AddedMeans(t, v);
        ExtSetCons(x, Added(t, v));
        RisingCons(x, Added(t, v));
      }
    }
  }

  lemma {:induction false} ExtSetNone(s: seq<ExtVal>)
    ensures ExtSet(s) == {} <==> s == []
    ensures s == [] ==> Rising(s)
  {
    if s != [] {
      assert s[0] in ExtSet(s);
    }
  }

  lemma {:induction false} ExtSetCons(x: ExtVal, s: seq<ExtVal>)
    ensures ExtSet([x] + s) == {x} + ExtSet(s)
  {
    assert forall y :: y in [x] + s <==> y == x || y in s;
  }

  lemma {:induction false} ExtSetConcat(a: seq<ExtVal>, b: seq<ExtVal>)
    ensures ExtSet(a + b) == ExtSet(a) + ExtSet(b)
  {
    assert forall y :: y in a + b <==> y in a || y in b;
  }

  /** Adding values one by one gives the sorted set of them all. */
  lemma {:induction false} AddedAllMeans(s: seq<ExtVal>, vals: seq<ExtVal>)
    requires Rising(s)
    ensures Rising(AddedAll(s, vals)) && ExtSet(AddedAll(s, vals)) == ExtSet(s) + ExtSet(vals)
    decreases |vals|
  {
    hide Added, Rising;
    if vals != [] {
      AddedMeans(s, vals[0]);
      AddedAllMeans(Added(s, vals[0]), vals[1..]);
      assert vals == [vals[0]] + vals[1..];
      ExtSetCons(vals[0], vals[1..]);
    }
  }

  /** A set of values has one sorted array. */
  lemma {:induction false} RisingUnique(a: seq<ExtVal>, b: seq<ExtVal>)
    requires Rising(a) && Rising(b) && ExtSet(a) == ExtSet(b)
    ensures a == b
  {
    if a == [] || b == [] {
      ExtSetNone(a);
      ExtSetNone(b);
    } else {
      FirstLeast(a, b);
      FirstLeast(b, a);
      TailSet(a);
      TailSet(b);
      RisingUnique(a[1..], b[1..]);
      assert a == [a[0]] + a[1..] && b == [b[0]] + b[1..];
    }
  }

  lemma {:induction false} FirstLeast(a: seq<ExtVal>, b: seq<ExtVal>)
    requires a != [] && b != [] && Rising(b) && ExtSet(a) <= ExtSet(b)
    ensures b[0] <= a[0]
  {
    assert a[0] in ExtSet(a);
    var j :| 0 <= j < |b| && b[j] == a[0];
  }

  lemma {:induction false} TailSet(a: seq<ExtVal>)
    requires a != [] && Rising(a)
    ensures Rising(a[1..]) && ExtSet(a[1..]) == ExtSet(a) - {a[0]}
  {
    assert a == [a[0]] + a[1..];
    ExtSetCons(a[0], a[1..]);
    assert a[0] !in ExtSet(a[1..]);
  }
}
