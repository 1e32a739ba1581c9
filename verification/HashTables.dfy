/**
  The chained hash table under the interned structures: entries remember the
  key of their data, a lookup compares only entries with the same key, and the
  index is doubled when a chain has grown long.
 */
module HashTables {
  import opened Options

  const HASH_THRESHOLD := 10

  datatype Backet<T> = Backet(key: nat, data: T)

  // ---------------------------------------------------------------------
  // What a table holds

  ghost function Entries<T>(index: seq<seq<Backet<T>>>): multiset<Backet<T>> {
    if index == [] then multiset{} else multiset(index[0]) + Entries(index[1..])
  }

  lemma {:induction false} EntriesUpdate<T>(index: seq<seq<Backet<T>>>, h: nat, c: seq<Backet<T>>)
    requires h < |index|
    ensures multiset(index[h]) <= Entries(index)
    ensures Entries(index[h := c]) == Entries(index) - multiset(index[h]) + multiset(c)
  {
    if h == 0 {
      assert index[h := c][1..] == index[1..];
    } else {
      EntriesUpdate(index[1..], h - 1, c);
      assert index[h := c][1..] == index[1..][h - 1 := c];
    }
  }

  lemma {:induction false} EntriesEmpty<T>(index: seq<seq<Backet<T>>>)
    requires forall h :: 0 <= h < |index| ==> index[h] == []
    ensures Entries(index) == multiset{}
  {
    if index != [] {
      EntriesEmpty(index[1..]);
    }
  }

  lemma {:induction false} EntriesFrom<T>(index: seq<seq<Backet<T>>>, i: nat)
    requires i < |index|
    ensures Entries(index[i..]) == multiset(index[i]) + Entries(index[i + 1..])
  {
    assert index[i..][0] == index[i] && index[i..][1..] == index[i + 1..];
  }

  lemma {:induction false} EntriesIn<T>(index: seq<seq<Backet<T>>>, e: Backet<T>) returns (h: nat)
    requires e in Entries(index)
    ensures h < |index| && e in index[h]
  {
    if e in multiset(index[0]) {
      h := 0;
    } else {
      var k := EntriesIn(index[1..], e);
      h := k + 1;
    }
  }

  /** Each entry is on the chain its key selects. */
  ghost predicate Placed<T>(index: seq<seq<Backet<T>>>) {
    |index| > 0 && forall h, e :: 0 <= h < |index| && e in index[h] ==> e.key % |index| == h
  }

  lemma {:induction false} PlacedAt<T>(index: seq<seq<Backet<T>>>, e: Backet<T>)
    requires Placed(index)
    ensures e in Entries(index) <==> e in index[e.key % |index|]
  {
    if e in Entries(index) {
      var h := EntriesIn(index, e);
    }
    if e in index[e.key % |index|] {
      EntriesUpdate(index, e.key % |index|, []);
      assert e in multiset(index[e.key % |index|]);
    }
  }

  lemma {:induction false} PlacedPush<T>(index: seq<seq<Backet<T>>>, e: Backet<T>)
    requires Placed(index)
    ensures
      var h := e.key % |index|;
      var next := index[h := [e] + index[h]];
      Placed(next) && Entries(next) == Entries(index) + multiset{e}
  {
    var h := e.key % |index|;
    var c := [e] + index[h];
    assert multiset(c) == multiset{e} + multiset(index[h]);
    EntriesUpdate(index, h, c);
    hide Entries;
    PlacedChain(index, h, c);
  }

  lemma {:induction false} PlacedChain<T>(index: seq<seq<Backet<T>>>, h: nat, c: seq<Backet<T>>)
    requires Placed(index) && h < |index| && forall e :: e in c ==> e.key % |index| == h
    ensures Placed(index[h := c])
  {
    var next := index[h := c];
    forall k, e: Backet<T> | 0 <= k < |next| && e in next[k] ensures e.key % |next| == k {
      assert k != h ==> e in index[k];
    }
  }

  // ---------------------------------------------------------------------
  // Keys and the compare function

  /** The entry a lookup of `data` would stop at: same key, and equal to it. */
  ghost predicate Matches<T(!new)>(hashKey: T -> nat, hashCmp: (T, T) -> bool, e: Backet<T>, data: T) {
    e.key == hashKey(data) && hashCmp(e.data, data)
  }

  ghost predicate Found<T(!new)>(hashKey: T -> nat, hashCmp: (T, T) -> bool, entries: multiset<Backet<T>>, data: T) {
    exists e :: e in entries && Matches(hashKey, hashCmp, e, data)
  }

  /** Entries carry the key of their data. */
  ghost predicate Keyed<T(!new)>(hashKey: T -> nat, entries: multiset<Backet<T>>) {
    forall e :: e in entries ==> e.key == hashKey(e.data)
  }

  /** Equal data have equal keys. */
  ghost predicate Respects<T(!new)>(hashKey: T -> nat, hashCmp: (T, T) -> bool) {
    forall a, b :: hashCmp(a, b) ==> hashKey(a) == hashKey(b)
  }

  ghost predicate Equivalence<T(!new)>(hashCmp: (T, T) -> bool) {
    && (forall a :: hashCmp(a, a))
    && (forall a, b :: hashCmp(a, b) ==> hashCmp(b, a))
    && (forall a, b, c :: hashCmp(a, b) && hashCmp(b, c) ==> hashCmp(a, c))
  }

  /** Is some entry equal to `data`, whatever its key? */
  ghost predicate Holds<T(!new)>(hashCmp: (T, T) -> bool, entries: multiset<Backet<T>>, data: T) {
    exists e :: e in entries && hashCmp(e.data, data)
  }

  /**
    Every table finds exactly what its compare function calls equal to one of
    its entries, if and only if equal data have equal keys.
   */
  lemma {:induction false} FindsByCompareIff<T(!new)>(hashKey: T -> nat, hashCmp: (T, T) -> bool)
    ensures Respects(hashKey, hashCmp) <==>
      forall entries, data :: Keyed(hashKey, entries) ==>
        (Found(hashKey, hashCmp, entries, data) <==> Holds(hashCmp, entries, data))
  {
    if Respects(hashKey, hashCmp) {
      forall entries, data | Keyed(hashKey, entries)
        ensures Found(hashKey, hashCmp, entries, data) <==> Holds(hashCmp, entries, data)
      {
        FindsByCompare(hashKey, hashCmp, entries, data);
      }
    } else {
      var a, b :| hashCmp(a, b) && hashKey(a) != hashKey(b);
      var entries := multiset{Backet(hashKey(a), a)};
      assert Keyed(hashKey, entries);
      assert Backet(hashKey(a), a) in entries;
      assert Holds(hashCmp, entries, b) && !Found(hashKey, hashCmp, entries, b);
    }
  }

  lemma {:induction false} FindsByCompare<T(!new)>(hashKey: T -> nat, hashCmp: (T, T) -> bool, entries: multiset<Backet<T>>, data: T)
    requires Respects(hashKey, hashCmp) && Keyed(hashKey, entries)
    ensures Found(hashKey, hashCmp, entries, data) <==> Holds(hashCmp, entries, data)
  {
    if Holds(hashCmp, entries, data) {
      var e :| e in entries && hashCmp(e.data, data);
      assert Matches(hashKey, hashCmp, e, data);
    }
  }

  /** No two entries are equal: the table is a map keyed by the compare function. */
  ghost predicate OneEach<T(!new)>(hashCmp: (T, T) -> bool, entries: multiset<Backet<T>>) {
    && (forall e :: entries[e] <= 1)
    && (forall e, f :: e in entries && f in entries && hashCmp(e.data, f.data) ==> e == f)
  }

  /** Entering data equal to nothing in the table keeps it a map. */
  lemma {:induction false} OneEachMore<T(!new)>(hashKey: T -> nat, hashCmp: (T, T) -> bool, entries: multiset<Backet<T>>, data: T, e: Backet<T>)
    requires Equivalence(hashCmp) && Respects(hashKey, hashCmp) && Keyed(hashKey, entries)
    requires OneEach(hashCmp, entries) && !Found(hashKey, hashCmp, entries, data)
    requires hashCmp(e.data, data)
    ensures OneEach(hashCmp, entries + multiset{e})
  {
    FindsByCompare(hashKey, hashCmp, entries, data);
    hide Found;
    forall f | f in entries ensures !hashCmp(f.data, e.data) && !hashCmp(e.data, f.data) {
      assert !hashCmp(f.data, data);
    }
  }

  lemma {:induction false} OneEachLess<T(!new)>(hashCmp: (T, T) -> bool, entries: multiset<Backet<T>>, e: Backet<T>)
    requires OneEach(hashCmp, entries) && e in entries
    ensures OneEach(hashCmp, entries - multiset{e})
    ensures forall f :: f in entries - multiset{e} <==> f in entries && f != e
  {
  }

  /** In a map, what is found is the one entry that is equal. */
  lemma {:induction false} FoundIsOnly<T(!new)>(hashCmp: (T, T) -> bool, entries: multiset<Backet<T>>, e: Backet<T>, data: T)
    requires Equivalence(hashCmp) && OneEach(hashCmp, entries) && e in entries && hashCmp(e.data, data)
    ensures forall f :: f in entries && hashCmp(f.data, data) ==> f == e
  {
  }

  lemma {:induction false} FoundHere<T(!new)>(hashKey: T -> nat, hashCmp: (T, T) -> bool, entries: multiset<Backet<T>>, e: Backet<T>, data: T)
    requires e in entries && Matches(hashKey, hashCmp, e, data)
    ensures Found(hashKey, hashCmp, entries, data) && e == Backet(hashKey(data), e.data)
  {
  }

  /** What a lookup in a map means: the one equal entry, or none and room for one. */
  lemma {:induction false} GetMap<T(!new)>(hashKey: T -> nat, hashCmp: (T, T) -> bool, entries: multiset<Backet<T>>, data: T)
    requires Equivalence(hashCmp) && Respects(hashKey, hashCmp) && OneEach(hashCmp, entries) && Keyed(hashKey, entries)
    ensures Found(hashKey, hashCmp, entries, data) <==> Holds(hashCmp, entries, data)
    ensures forall e, f :: e in entries && f in entries && hashCmp(e.data, data) && hashCmp(f.data, data) ==> e == f
    ensures !Holds(hashCmp, entries, data) ==>
      forall e: Backet<T> :: hashCmp(e.data, data) ==> OneEach(hashCmp, entries + multiset{e})
  {
    hide Found, Keyed, OneEach, Respects, Equivalence;
    FindsByCompare(hashKey, hashCmp, entries, data);
    forall e, f | e in entries && f in entries && hashCmp(e.data, data) && hashCmp(f.data, data) ensures e == f {
      FoundIsOnly(hashCmp, entries, e, data);
    }
    if !Holds(hashCmp, entries, data) {
      forall e: Backet<T> | hashCmp(e.data, data) ensures OneEach(hashCmp, entries + multiset{e}) {
        OneEachMore(hashKey, hashCmp, entries, data, e);
      }
    }
  }

  // ---------------------------------------------------------------------
  // The table

  class Hash<T(!new)> {
    const hashKey: T -> nat
    const hashCmp: (T, T) -> bool
    var index: seq<seq<Backet<T>>>
    var count: nat
    var noExpand: bool

    /** Entries carry the key of their data, on the chain it selects, and are counted. */
    ghost predicate Valid()
      reads this
    {
      && |index| > 0 && Placed(index)
      && Keyed(hashKey, Entries(index))
      && count == |Entries(index)|
    }

    /** `hash_create_size`. */
    constructor (size: nat, hashKey: T -> nat, hashCmp: (T, T) -> bool)
      requires size > 0
      ensures Valid() && Entries(index) == multiset{} && !noExpand
      ensures this.hashKey == hashKey && this.hashCmp == hashCmp
    {
      this.hashKey, this.hashCmp := hashKey, hashCmp;
      index := seq(size, i => []);
      count, noExpand := 0, false;
      new;
      EntriesEmpty(index);
    }

    /** `hash_expand`: the entries move to an index of twice the size. */
    method Expand()
      requires Valid()
      modifies this`index, this`noExpand
      ensures Valid() && Entries(index) == old(Entries(index)) && |index| == 2 * |old(index)|
    {
      var chains := index;
      var fresh_: seq<seq<Backet<T>>> := seq(2 * |chains|, i => []);
      EntriesEmpty(fresh_);
      assert chains[0..] == chains;
      for i := 0 to |chains|
        invariant index == chains && Placed(fresh_) && |fresh_| == 2 * |chains|
        invariant Entries(fresh_) + Entries(chains[i..]) == Entries(chains)
      {
        EntriesFrom(chains, i);
        fresh_ := MoveChain(chains[i], fresh_);
      }
      EntriesEmpty(chains[|chains|..]);
      index := fresh_;
      noExpand := TooLong(index, count, noExpand);
    }

    /** The losers of an expansion: does it pay to expand again? */
    method TooLong(index: seq<seq<Backet<T>>>, count: nat, was: bool) returns (now: bool)
      ensures was ==> now
      ensures now <==> was || Losers(index) > count / 2 || exists h :: 0 <= h < |index| && |index[h]| >= HASH_THRESHOLD
    {
      now := was;
      var losers := 0;
      assert index[0..] == index;
      for i := 0 to |index|
        invariant losers + Losers(index[i..]) == Losers(index)
        invariant now <==> was || exists h :: 0 <= h < i && |index[h]| >= HASH_THRESHOLD
      {
        assert index[i..][1..] == index[i + 1..];
        for len := 0 to |index[i]|
          invariant losers + Losers(index[i..]) == Losers(index) + Over(len)
          invariant now <==> was || len >= HASH_THRESHOLD || exists h :: 0 <= h < i && |index[h]| >= HASH_THRESHOLD
        {
          if len + 1 > HASH_THRESHOLD / 2 {
            losers := losers + 1;
          }
          if len + 1 >= HASH_THRESHOLD {
            now := true;
          }
        }
      }
      if losers > count / 2 {
        now := true;
      }
    }

    /**
      The table as a map keyed by the compare function: no two entries are
      equal, and equal data have equal keys.
     */
    ghost predicate IsMap()
      reads this
    {
      Equivalence(hashCmp) && Respects(hashKey, hashCmp) && OneEach(hashCmp, Entries(index))
    }

    /** The chain of `data` searched to the end: the place of the first match. */
    method Search(data: T) returns (n: nat)
      requires Valid()
      ensures
        var chain := index[hashKey(data) % |index|];
        && n <= |chain|
        && (n < |chain| ==> Matches(hashKey, hashCmp, chain[n], data) && chain[n] in Entries(index))
        && (n == |chain| ==> !Found(hashKey, hashCmp, Entries(index), data))
    {
      var key := hashKey(data);
      var chain := index[key % |index|];
      n := 0;
      while n < |chain|
        invariant n <= |chain|
        invariant forall i :: 0 <= i < n ==> !Matches(hashKey, hashCmp, chain[i], data)
      {
        if chain[n].key == key && hashCmp(chain[n].data, data) {
          PlacedAt(index, chain[n]);
          return;
        }
        n := n + 1;
      }
      forall e | e in Entries(index) ensures !Matches(hashKey, hashCmp, e, data) {
        PlacedAt(index, e);
      }
    }

    /** `hash_get`: the entry found, else the allocated data entered, if there is any. */
    method Get(data: T, alloc: Option<T>) returns (r: Option<T>)
      requires Valid() && (alloc.Some? ==> hashKey(alloc.value) == hashKey(data) && hashCmp(alloc.value, data))
      modifies this`index, this`count, this`noExpand
      ensures Valid()
      ensures Found(hashKey, hashCmp, old(Entries(index)), data) ==>
        && Entries(index) == old(Entries(index))
        && r.Some? && hashCmp(r.value, data) && Backet(hashKey(data), r.value) in Entries(index)
      ensures !Found(hashKey, hashCmp, old(Entries(index)), data) ==>
        && r == alloc
        && Entries(index) == old(Entries(index)) + if alloc.Some? then multiset{Backet(hashKey(data), alloc.value)} else multiset{}
      ensures old(IsMap()) ==> IsMap() && forall e :: e in old(Entries(index)) && hashCmp(e.data, data) ==> r == Some(e.data)
      // the index is doubled for a new entry behind more than ten others, unless that was given up
      ensures |index| == |old(index)| *
        if alloc.Some? && !Found(hashKey, hashCmp, old(Entries(index)), data) && !old(noExpand)
           && |old(index[hashKey(data) % |index|])| > 10 then 2 else 1
    {
      hide Placed, Entries, Found, Keyed, OneEach, Respects, Equivalence;
      ghost var was := Entries(index);
      var n := Search(data);
      var h := hashKey(data) % |index|;
      if IsMap() {
        GetMap(hashKey, hashCmp, was, data);
      }
      if n < |index[h]| {
        FoundHere(hashKey, hashCmp, was, index[h][n], data);
        return Some(index[h][n].data);
      }
      r := alloc;
      if alloc.Some? {
        Enter(Backet(hashKey(data), alloc.value), |index[h]|);
      }
    }

    /** A new entry, behind a chain of the given length. */
    method Enter(e: Backet<T>, len: nat)
      requires Valid() && e.key == hashKey(e.data)
      modifies this`index, this`count, this`noExpand
      ensures Valid() && Entries(index) == old(Entries(index)) + multiset{e}
      ensures |index| == (if len > 10 && !old(noExpand) then 2 else 1) * |old(index)|
    {
      if len > HASH_THRESHOLD && !noExpand {
        Expand();
      }
      PlacedPush(index, e);
      hide Placed, Entries;
      var h := e.key % |index|;
      index := index[h := [e] + index[h]];
      count := count + 1;
    }

    /** `hash_release`: the first match is unlinked. */
    method Release(data: T) returns (r: Option<T>)
      requires Valid()
      modifies this`index, this`count
      ensures Valid()
      ensures r.Some? <==> Found(hashKey, hashCmp, old(Entries(index)), data)
      ensures r.None? ==> Entries(index) == old(Entries(index))
      ensures r.Some? ==>
        && hashCmp(r.value, data) && Backet(hashKey(data), r.value) in old(Entries(index))
        && Entries(index) == old(Entries(index)) - multiset{Backet(hashKey(data), r.value)}
      ensures old(IsMap()) ==> IsMap() && !Holds(hashCmp, Entries(index), data)
    {
      ghost var was := Entries(index);
      var n := Search(data);
      var h := hashKey(data) % |index|;
      if IsMap() {
        FindsByCompare(hashKey, hashCmp, was, data);
      }
      if n == |index[h]| {
        return None;
      }
      ghost var e := index[h][n];
      PlacedCut(index, h, n);
      if IsMap() {
        OneEachLess(hashCmp, was, e);
        FoundIsOnly(hashCmp, was, e, data);
      }
      r := Some(index[h][n].data);
      index := index[h := index[h][..n] + index[h][n + 1..]];
      count := count - 1;
    }
  }

  /** The places of a chain beyond half the threshold. */
  function Over(len: nat): nat {
    if len > HASH_THRESHOLD / 2 then len - HASH_THRESHOLD / 2 else 0
  }

  function Losers<T>(index: seq<seq<Backet<T>>>): nat {
    if index == [] then 0 else Over(|index[0]|) + Losers(index[1..])
  }

  /** In a table of one chain, the losers are its entries behind the first five. */
  lemma {:induction false} LosersMean<T>(chain: seq<Backet<T>>)
    ensures Losers([chain]) == if |chain| > 5 then |chain| - 5 else 0
  {
    assert [chain][1..] == [];
  }

  method MoveChain<T>(chain: seq<Backet<T>>, to: seq<seq<Backet<T>>>) returns (index: seq<seq<Backet<T>>>)
    requires Placed(to)
    ensures Placed(index) && |index| == |to| && Entries(index) == Entries(to) + multiset(chain)
  {
    index := to;
    for n := 0 to |chain|
      invariant Placed(index) && |index| == |to|
      invariant Entries(index) == Entries(to) + multiset(chain[..n])
    {
      assert chain[..n + 1] == chain[..n] + [chain[n]];
      PlacedPush(index, chain[n]);
      var h := chain[n].key % |index|;
      index := index[h := [chain[n]] + index[h]];
    }
    assert chain[..|chain|] == chain;
  }

  lemma {:induction false} CutOne<T>(c: seq<Backet<T>>, n: nat)
    requires n < |c|
    ensures multiset(c[..n] + c[n + 1..]) == multiset(c) - multiset{c[n]}
  {
    assert c == c[..n] + [c[n]] + c[n + 1..];
  }

  lemma {:induction false} PlacedWithout<T>(index: seq<seq<Backet<T>>>, h: nat, c: seq<Backet<T>>)
    requires Placed(index) && h < |index| && multiset(c) <= multiset(index[h])
    ensures Placed(index[h := c])
  {
    forall e | e in c ensures e in index[h] {
      assert e in multiset(c);
    }
  }

  lemma {:induction false} PlacedCut<T>(index: seq<seq<Backet<T>>>, h: nat, n: nat)
    requires Placed(index) && h < |index| && n < |index[h]|
    ensures
      var next := index[h := index[h][..n] + index[h][n + 1..]];
      Placed(next) && Entries(next) == Entries(index) - multiset{index[h][n]}
  {
    hide Placed, Entries;
    var c := index[h][..n] + index[h][n + 1..];
    CutOne(index[h], n);
    PlacedWithout(index, h, c);
    EntriesUpdate(index, h, c);
    assert index[h][n] in multiset(index[h]);
  }
}
