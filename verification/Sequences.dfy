/** Lists without repetitions, and removal of one element. */
module Sequences {

  predicate Distinct<T(==)>(s: seq<T>) {
    forall i, j :: 0 <= i < j < |s| ==> s[i] != s[j]
  }

  /** Without the first occurrence of `x`. */
  function Remove<T(==)>(s: seq<T>, x: T): seq<T> {
    if s == [] then [] else if s[0] == x then s[1..] else [s[0]] + Remove(s[1..], x)
  }

  lemma {:induction false} RemoveSize<T>(s: seq<T>, x: T)
    ensures |Remove(s, x)| == if x in s then |s| - 1 else |s|
    ensures x !in s ==> Remove(s, x) == s
  {
    if s != [] && s[0] != x {
      var t := s[1..];
      RemoveSize(t, x);
      assert s == [s[0]] + t;
      assert x in s <==> x in t;
      assert Remove(s, x) == [s[0]] + Remove(t, x);
    }
  }

  lemma {:induction false} RemoveMembers<T>(s: seq<T>, x: T)
    requires Distinct(s)
    ensures forall y :: y in Remove(s, x) <==> y in s && y != x
    ensures Distinct(Remove(s, x))
  {
    if s != [] && s[0] != x {
      assert Distinct(s[1..]);
      RemoveMembers(s[1..], x);
      assert forall y :: y in s <==> y == s[0] || y in s[1..];
      var r := Remove(s, x);
      assert forall y :: y in r <==> y == s[0] || y in Remove(s[1..], x);
      forall j | 0 < j < |r|
        ensures r[0] != r[j]
      {
        assert r[j] in Remove(s[1..], x);
      }
    } else if s != [] {
      assert forall y :: y in s <==> y == s[0] || y in s[1..];
    }
  }

  lemma {:induction false} RemoveIs<T>(s: seq<T>, k: nat)
    requires Distinct(s) && k < |s|
    ensures Remove(s, s[k]) == s[..k] + s[k + 1..]
  {
    if k > 0 {
      var t := s[1..];
      assert Distinct(t);
      assert t[k - 1] == s[k] && s[0] != s[k];
      RemoveIs(t, k - 1);
      assert [s[0]] + (t[..k - 1] + t[k..]) == s[..k] + s[k + 1..];
    }
  }

  lemma {:induction false} OnceEach<T>(s: seq<T>, x: T)
    requires Distinct(s)
    ensures multiset(s)[x] <= 1
  {
    if s != [] {
      assert s == [s[0]] + s[1..];
      OnceEach(s[1..], x);
      if x == s[0] {
        assert x !in s[1..];
      }
    }
  }

  lemma TwiceIn<T>(s: seq<T>, i: nat, j: nat)
    requires i < j < |s|
    ensures s[i] == s[j] ==> multiset(s)[s[i]] >= 2
  {
    assert s == s[..j] + [s[j]] + s[j + 1..];
    assert s[i] in multiset(s[..j]) by { assert s[i] in s[..j]; }
  }

  lemma NotLater<T>(s: seq<T>, i: nat)
    requires Distinct(s) && 0 < i <= |s|
    ensures s[i - 1] !in s[i..]
  {
  }

  lemma {:induction false} Regroup<T>(a: seq<T>, b: seq<T>, c: seq<T>, d: seq<T>)
    ensures a + (b + (c + d)) == a + b + c + d && a + (b + c + d) == a + b + c + d
  {
  }

  /** Removal seen from place `i`. */
  lemma {:induction false} RemoveFrom<T>(s: seq<T>, i: nat, x: T)
    requires i <= |s|
    ensures s[..i] + Remove(s[i..], x) ==
      if i == |s| then s else if s[i] == x then s[..i] + s[i + 1..] else s[..i + 1] + Remove(s[i + 1..], x)
  {
    if i < |s| {
      var front, rest := s[..i], s[i..];
      assert rest[0] == s[i] && rest[1..] == s[i + 1..];
      assert s[..i + 1] == front + [s[i]];
      var t := Remove(s[i + 1..], x);
      assert front + ([s[i]] + t) == front + [s[i]] + t;
    }
  }
}
