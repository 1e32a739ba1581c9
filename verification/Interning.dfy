/**
  Attribute interning: reference-counted tables of path attributes and of the
  structures they point to.  An interned attribute holds one reference on each
  of its parts for every reference on itself; equal values share one object, so
  pointer equality is value equality.
 */
module Interning {

  // ---------------------------------------------------------------------
  // Sums over tables

  ghost function Sum<K>(m: map<K, nat>): nat {
    if m == map[] then 0
    else
      var k :| k in m;
      m[k] + Sum(m - {k})
  }

  lemma {:induction false} SumRemove<K>(m: map<K, nat>, k: K)
    requires k in m
    ensures Sum(m) == m[k] + Sum(m - {k})
    decreases |m|
  {
    var j :| j in m && Sum(m) == m[j] + Sum(m - {j});
    if j != k {
      SumRemove(m - {j}, k);
      SumRemove(m - {k}, j);
      assert (m - {j}) - {k} == (m - {k}) - {j};
    }
  }

  lemma SumUpdate<K>(m: map<K, nat>, k: K, v: nat)
    ensures Sum(m[k := v]) == Sum(m) - (if k in m then m[k] else 0) + v
  {
    SumRemove(m[k := v], k);
    assert m[k := v] - {k} == m - {k};
    if k in m {
      SumRemove(m, k);
    } else {
      assert m - {k} == m;
    }
  }

  // ---------------------------------------------------------------------
  // Tables

  /** Identity of an allocated object. */
  type Ref = nat

  /** The structures an attribute points to, one pointer for each kind. */
  datatype Kind = AsPath | Community | ExtCommunity | Cluster | Transit

  /** The value of an interned part. */
  datatype Value = Value(kind: Kind, content: seq<int>)

  datatype Part = Part(value: Value, refcnt: nat)

  /** What `attrhash_cmp` compares: the plain fields, and the parts by pointer. */
  datatype Key = Key(fields: seq<int>, slots: map<Kind, Ref>)

  datatype Attr = Attr(key: Key, refcnt: nat)

  /** An advertised attribute in the table of one update group. */
  datatype Baa = Baa(table: nat, attr: Ref)

  /** Allocated objects, and the hash tables that find them by value. */
  datatype Tables = Tables(
    parts: map<Ref, Part>,
    partIndex: map<Value, Ref>,
    attrs: map<Ref, Attr>,
    attrIndex: map<Key, Ref>,
    baas: map<Baa, nat>,
    next: Ref)

  /** References held by callers outside the tables. */
  datatype Held = Held(parts: multiset<Ref>, attrs: multiset<Ref>)

  datatype World = World(t: Tables, h: Held)

  ghost function Shares(attrs: map<Ref, Attr>, r: Ref): map<Ref, nat> {
    map a | a in attrs && r in attrs[a].key.slots.Values :: attrs[a].refcnt
  }

  /** References that interned attributes hold on a part. */
  ghost function HeldByAttrs(attrs: map<Ref, Attr>, r: Ref): nat {
    Sum(Shares(attrs, r))
  }

  ghost function BaaShares(baas: map<Baa, nat>, a: Ref): map<Baa, nat> {
    map b | b in baas && b.attr == a :: baas[b]
  }

  /** References that advertised attributes hold on an attribute. */
  ghost function HeldByBaas(baas: map<Baa, nat>, a: Ref): nat {
    Sum(BaaShares(baas, a))
  }

  lemma HeldByAttrsUpdate(attrs: map<Ref, Attr>, a: Ref, v: Attr, r: Ref)
    requires a in attrs ==> attrs[a].key == v.key
    ensures HeldByAttrs(attrs[a := v], r) ==
      HeldByAttrs(attrs, r) + if r in v.key.slots.Values then v.refcnt - (if a in attrs then attrs[a].refcnt else 0) else 0
  {
    var m := Shares(attrs, r);
    var attrs' := attrs[a := v];
    var m' := Shares(attrs', r);
    if r in v.key.slots.Values {
      assert m' == m[a := v.refcnt];
      SumUpdate(m, a, v.refcnt);
    } else {
      assert m' == m;
    }
  }

  lemma HeldByAttrsRemove(attrs: map<Ref, Attr>, a: Ref, r: Ref)
    requires a in attrs
    ensures HeldByAttrs(attrs - {a}, r) ==
      HeldByAttrs(attrs, r) - if r in attrs[a].key.slots.Values then attrs[a].refcnt else 0
  {
    var m := Shares(attrs, r);
    var attrs' := attrs - {a};
    var m' := Shares(attrs', r);
    if r in attrs[a].key.slots.Values {
      assert m' == m - {a};
      SumRemove(m, a);
    } else {
      assert m' == m;
    }
  }

  lemma HeldByBaasUpdate(baas: map<Baa, nat>, b: Baa, n: nat, a: Ref)
    ensures HeldByBaas(baas[b := n], a) ==
      HeldByBaas(baas, a) + if b.attr == a then n - (if b in baas then baas[b] else 0) else 0
  {
    var m := BaaShares(baas, a);
    var baas' := baas[b := n];
    var m' := BaaShares(baas', a);
    if b.attr == a {
      assert m' == m[b := n];
      SumUpdate(m, b, n);
    } else {
      assert m' == m;
    }
  }

  lemma HeldByBaasRemove(baas: map<Baa, nat>, b: Baa, a: Ref)
    requires b in baas
    ensures HeldByBaas(baas - {b}, a) == HeldByBaas(baas, a) - if b.attr == a then baas[b] else 0
  {
    var m := BaaShares(baas, a);
    var baas' := baas - {b};
    var m' := BaaShares(baas', a);
    if b.attr == a {
      assert m' == m - {b};
      SumRemove(m, b);
    } else {
      assert m' == m;
    }
  }

  // ---------------------------------------------------------------------
  // Conservation

  /** The hash table finds exactly the allocated parts: equal values share one object. */
  ghost predicate PartsIndexed(parts: map<Ref, Part>, index: map<Value, Ref>, next: Ref) {
    && (forall v :: v in index ==> index[v] in parts && parts[index[v]].value == v)
    && (forall r :: r in parts ==> r < next && parts[r].value in index && index[parts[r].value] == r)
  }

  ghost predicate AttrsIndexed(attrs: map<Ref, Attr>, index: map<Key, Ref>, next: Ref) {
    && (forall k :: k in index ==> index[k] in attrs && attrs[index[k]].key == k)
    && (forall a :: a in attrs ==> a < next && attrs[a].key in index && index[attrs[a].key] == a)
  }

  /** Every pointer goes to an allocated part of its kind. */
  ghost predicate Live(parts: map<Ref, Part>, slots: map<Kind, Ref>) {
    forall k :: k in slots ==> slots[k] in parts && parts[slots[k]].value.kind == k
  }

  ghost predicate AttrsLive(parts: map<Ref, Part>, attrs: map<Ref, Attr>) {
    forall a :: a in attrs ==> Live(parts, attrs[a].key.slots)
  }

  /** Every advertised attribute is allocated, and some advertisement uses it. */
  ghost predicate BaasLive(attrs: map<Ref, Attr>, baas: map<Baa, nat>) {
    forall b :: b in baas ==> baas[b] > 0 && b.attr in attrs
  }

  /** The count of a part is the number of references there are, and callers refer only to allocated ones. */
  ghost predicate PartsCounted(parts: map<Ref, Part>, attrs: map<Ref, Attr>, held: multiset<Ref>) {
    && (forall r :: r in parts ==> 0 < parts[r].refcnt == HeldByAttrs(attrs, r) + held[r])
    && (forall r :: r in held ==> r in parts)
  }

  ghost predicate AttrsCounted(attrs: map<Ref, Attr>, baas: map<Baa, nat>, held: multiset<Ref>) {
    && (forall a :: a in attrs ==> 0 < attrs[a].refcnt == HeldByBaas(baas, a) + held[a])
    && (forall a :: a in held ==> a in attrs)
  }

  ghost predicate Good(w: World) {
    && PartsIndexed(w.t.parts, w.t.partIndex, w.t.next)
    && AttrsIndexed(w.t.attrs, w.t.attrIndex, w.t.next)
    && AttrsLive(w.t.parts, w.t.attrs)
    && BaasLive(w.t.attrs, w.t.baas)
    && PartsCounted(w.t.parts, w.t.attrs, w.h.parts)
    && AttrsCounted(w.t.attrs, w.t.baas, w.h.attrs)
  }

  // ---------------------------------------------------------------------
  // Parts

  // Operations are total: on an object that is not allocated, which no reachable
  // state lets happen, they leave the tables alone.

  /** `refcnt++` on an allocated part. */
  function BumpPart(t: Tables, r: Ref): Tables {
    if r in t.parts then t.(parts := t.parts[r := t.parts[r].(refcnt := t.parts[r].refcnt + 1)]) else t
  }

  /** Finds the part with this value, or allocates it, and counts the new reference. */
  function InternPart(t: Tables, v: Value): (Tables, Ref) {
    if v in t.partIndex then
      (BumpPart(t, t.partIndex[v]), t.partIndex[v])
    else
      (t.(parts := t.parts[t.next := Part(v, 1)], partIndex := t.partIndex[v := t.next], next := t.next + 1), t.next)
  }

  /** Drops one reference and frees the part with its last one. */
  function UninternPart(t: Tables, r: Ref): Tables {
    if r !in t.parts then t
    else
      var n := if t.parts[r].refcnt > 0 then t.parts[r].refcnt - 1 else 0;
      if n == 0 then
        t.(parts := t.parts - {r}, partIndex := t.partIndex - {t.parts[r].value})
      else
        t.(parts := t.parts[r := t.parts[r].(refcnt := n)])
  }

  lemma PartsIndexedChange(parts: map<Ref, Part>, index: map<Value, Ref>, next: Ref, r: Ref, p: Part)
    requires PartsIndexed(parts, index, next) && r in parts && p.value == parts[r].value
    ensures PartsIndexed(parts[r := p], index, next)
  {
  }

  lemma PartsIndexedAdd(parts: map<Ref, Part>, index: map<Value, Ref>, next: Ref, v: Value, n: nat)
    requires PartsIndexed(parts, index, next) && v !in index
    ensures next !in parts
    ensures PartsIndexed(parts[next := Part(v, n)], index[v := next], next + 1)
  {
  }

  lemma PartsIndexedRemove(parts: map<Ref, Part>, index: map<Value, Ref>, next: Ref, r: Ref)
    requires PartsIndexed(parts, index, next) && r in parts
    ensures PartsIndexed(parts - {r}, index - {parts[r].value}, next)
  {
  }

  lemma AttrsIndexedNext(attrs: map<Ref, Attr>, index: map<Key, Ref>, next: Ref)
    requires AttrsIndexed(attrs, index, next)
    ensures AttrsIndexed(attrs, index, next + 1)
  {
  }

  lemma AttrsLiveChange(parts: map<Ref, Part>, attrs: map<Ref, Attr>, r: Ref, p: Part)
    requires AttrsLive(parts, attrs) && (r in parts ==> p.value == parts[r].value)
    ensures AttrsLive(parts[r := p], attrs)
  {
  }

  lemma AttrsLiveRemove(parts: map<Ref, Part>, attrs: map<Ref, Attr>, r: Ref)
    requires AttrsLive(parts, attrs)
    requires forall a :: a in attrs ==> r !in attrs[a].key.slots.Values
    ensures AttrsLive(parts - {r}, attrs)
  {
    forall a | a in attrs ensures Live(parts - {r}, attrs[a].key.slots) {
      var slots := attrs[a].key.slots;
      forall k | k in slots ensures slots[k] != r {
        assert slots[k] in slots.Values;
      }
    }
  }

  /** No attribute is counted for a part that is not allocated. */
  lemma UnallocatedUnshared(parts: map<Ref, Part>, attrs: map<Ref, Attr>, r: Ref)
    requires AttrsLive(parts, attrs) && r !in parts
    ensures HeldByAttrs(attrs, r) == 0
  {
    assert Shares(attrs, r) == map[];
  }

  /** A part that no attribute is counted for is not pointed to. */
  lemma UncountedUnshared(attrs: map<Ref, Attr>, baas: map<Baa, nat>, held: multiset<Ref>, r: Ref)
    requires AttrsCounted(attrs, baas, held)
    requires HeldByAttrs(attrs, r) == 0
    ensures forall a :: a in attrs ==> r !in attrs[a].key.slots.Values
  {
    forall a | a in attrs ensures r !in attrs[a].key.slots.Values {
      if r in attrs[a].key.slots.Values {
        SumRemove(Shares(attrs, r), a);
        assert false;
      }
    }
  }

  /** Counting survives a change at one part. */
  lemma PartsCountedSet(parts: map<Ref, Part>, attrs: map<Ref, Attr>, held: multiset<Ref>, held': multiset<Ref>, r: Ref, p: Part)
    requires PartsCounted(parts, attrs, held)
    requires forall s :: s != r ==> held[s] == held'[s]
    requires 0 < p.refcnt == HeldByAttrs(attrs, r) + held'[r]
    ensures PartsCounted(parts[r := p], attrs, held')
  {
    hide HeldByAttrs;
    forall s | s in held' ensures s in parts[r := p] {
      if s != r {
        assert s in held;
      }
    }
  }

  lemma PartsCountedAdd(parts: map<Ref, Part>, attrs: map<Ref, Attr>, held: multiset<Ref>, r: Ref, p: Part)
    requires PartsCounted(parts, attrs, held) && r !in parts
    requires HeldByAttrs(attrs, r) == 0 && p.refcnt == 1
    ensures PartsCounted(parts[r := p], attrs, held + multiset{r})
  {
    hide HeldByAttrs;
    assert held[r] == 0;
    PartsCountedSet(parts, attrs, held, held + multiset{r}, r, p);
  }

  lemma PartsCountedRemove(parts: map<Ref, Part>, attrs: map<Ref, Attr>, held: multiset<Ref>, r: Ref)
    requires PartsCounted(parts, attrs, held) && held[r] == 1
    ensures PartsCounted(parts - {r}, attrs, held - multiset{r})
  {
    hide HeldByAttrs;
    forall s | s in held - multiset{r} ensures s in parts - {r} {
      assert s in held;
    }
  }

  /** The count of an allocated part, in terms of who holds it. */
  lemma PartCount(w: World, r: Ref)
    requires Good(w) && r in w.t.parts
    ensures 0 < w.t.parts[r].refcnt == HeldByAttrs(w.t.attrs, r) + w.h.parts[r]
  {
    hide HeldByAttrs, PartsIndexed, AttrsIndexed, AttrsLive, BaasLive, AttrsCounted;
  }

  lemma HeldIsAllocated(w: World)
    requires Good(w)
    ensures forall r :: r in w.h.parts ==> r in w.t.parts
    ensures forall a :: a in w.h.attrs ==> a in w.t.attrs
  {
    hide HeldByAttrs, HeldByBaas, PartsIndexed, AttrsIndexed, AttrsLive, BaasLive;
  }

  ghost function HoldPart(h: Held, r: Ref): Held {
    h.(parts := h.parts + multiset{r})
  }

  ghost function LosePart(h: Held, r: Ref): Held {
    h.(parts := h.parts - multiset{r})
  }

  lemma SetCountGood(w: World, r: Ref, n: nat, h': Held)
    requires Good(w) && r in w.t.parts
    requires h'.attrs == w.h.attrs
    requires forall s :: s != r ==> w.h.parts[s] == h'.parts[s]
    requires 0 < n == HeldByAttrs(w.t.attrs, r) + h'.parts[r]
    ensures Good(World(w.t.(parts := w.t.parts[r := w.t.parts[r].(refcnt := n)]), h'))
  {
    hide PartsIndexed, AttrsIndexed, AttrsLive, BaasLive, PartsCounted, AttrsCounted, HeldByAttrs;
    var p := w.t.parts[r].(refcnt := n);
    PartsIndexedChange(w.t.parts, w.t.partIndex, w.t.next, r, p);
    AttrsLiveChange(w.t.parts, w.t.attrs, r, p);
    PartsCountedSet(w.t.parts, w.t.attrs, w.h.parts, h'.parts, r, p);
  }

  /** A caller's further reference on an allocated part. */
  lemma BumpPartGood(w: World, r: Ref)
    requires Good(w) && r in w.t.parts
    ensures Good(World(BumpPart(w.t, r), HoldPart(w.h, r)))
  {
    hide Good, HeldByAttrs;
    PartCount(w, r);
    SetCountGood(w, r, w.t.parts[r].refcnt + 1, HoldPart(w.h, r));
  }

  lemma NewPartGood(w: World, v: Value)
    requires Good(w) && v !in w.t.partIndex
    ensures
      var (t, r) := InternPart(w.t, v);
      Good(World(t, HoldPart(w.h, r)))
  {
    hide PartsIndexed, AttrsIndexed, AttrsLive, BaasLive, PartsCounted, AttrsCounted, HeldByAttrs;
    var r, p := w.t.next, Part(v, 1);
    PartsIndexedAdd(w.t.parts, w.t.partIndex, r, v, 1);
    AttrsIndexedNext(w.t.attrs, w.t.attrIndex, r);
    AttrsLiveChange(w.t.parts, w.t.attrs, r, p);
    UnallocatedUnshared(w.t.parts, w.t.attrs, r);
    PartsCountedAdd(w.t.parts, w.t.attrs, w.h.parts, r, p);
  }

  lemma Found(parts: map<Ref, Part>, index: map<Value, Ref>, next: Ref, v: Value)
    requires PartsIndexed(parts, index, next) && v in index
    ensures index[v] in parts && parts[index[v]].value == v
  {
  }

  /** Interning a value gives the caller one reference on its object. */
  lemma InternPartGood(w: World, v: Value)
    requires Good(w)
    ensures v in w.t.partIndex ==> w.t.partIndex[v] in w.t.parts
    ensures
      var (t, r) := InternPart(w.t, v);
      Good(World(t, HoldPart(w.h, r))) && r in t.parts && t.parts[r].value == v
  {
    hide PartsIndexed, AttrsIndexed, AttrsLive, BaasLive, PartsCounted, AttrsCounted, HeldByAttrs;
    if v in w.t.partIndex {
      Found(w.t.parts, w.t.partIndex, w.t.next, v);
      BumpPartGood(w, w.t.partIndex[v]);
    } else {
      NewPartGood(w, v);
    }
  }

  lemma FreePartGood(w: World, r: Ref)
    requires Good(w) && r in w.t.parts && r in w.h.parts && w.t.parts[r].refcnt == 1
    ensures Good(World(UninternPart(w.t, r), LosePart(w.h, r)))
  {
    hide PartsIndexed, AttrsIndexed, AttrsLive, BaasLive, PartsCounted, AttrsCounted, HeldByAttrs;
    PartCount(w, r);
    PartsIndexedRemove(w.t.parts, w.t.partIndex, w.t.next, r);
    UncountedUnshared(w.t.attrs, w.t.baas, w.h.attrs, r);
    AttrsLiveRemove(w.t.parts, w.t.attrs, r);
    PartsCountedRemove(w.t.parts, w.t.attrs, w.h.parts, r);
  }

  ghost predicate PointedTo(attrs: map<Ref, Attr>, r: Ref) {
    exists a :: a in attrs && r in attrs[a].key.slots.Values
  }

  /** Giving a reference back frees a part exactly when nothing else refers to it. */
  lemma UninternPartGood(w: World, r: Ref)
    requires Good(w) && r in w.h.parts
    ensures r in w.t.parts
    ensures Good(World(UninternPart(w.t, r), LosePart(w.h, r)))
    ensures r in UninternPart(w.t, r).parts <==> w.h.parts[r] > 1 || PointedTo(w.t.attrs, r)
  {
    hide PartsIndexed, AttrsIndexed, AttrsLive, BaasLive, PartsCounted, AttrsCounted, HeldByAttrs;
    HeldIsAllocated(w);
    PartCount(w, r);
    UnsharedIff(w, r);
    hide PointedTo;
    if w.t.parts[r].refcnt == 1 {
      FreePartGood(w, r);
    } else {
      SetCountGood(w, r, w.t.parts[r].refcnt - 1, LosePart(w.h, r));
    }
  }

  lemma UnsharedIff(w: World, r: Ref)
    requires Good(w)
    ensures HeldByAttrs(w.t.attrs, r) == 0 <==> !PointedTo(w.t.attrs, r)
  {
    hide PartsIndexed, AttrsIndexed, AttrsLive, BaasLive, PartsCounted;
    if HeldByAttrs(w.t.attrs, r) == 0 {
      UncountedUnshared(w.t.attrs, w.t.baas, w.h.attrs, r);
    }
    if !PointedTo(w.t.attrs, r) {
      assert Shares(w.t.attrs, r) == map[];
    }
  }

  // ---------------------------------------------------------------------
  // Attributes

  /** The references one attribute accounts for, one for each pointer. */
  ghost function SlotRefs(slots: map<Kind, Ref>): multiset<Ref> {
    multiset(slots.Values)
  }

  /** `refcnt++` on an allocated attribute. */
  function BumpAttr(t: Tables, a: Ref): Tables {
    if a in t.attrs then t.(attrs := t.attrs[a := t.attrs[a].(refcnt := t.attrs[a].refcnt + 1)]) else t
  }

  /** Finds the attribute with this key, or allocates it, and counts the new reference. */
  function TakeAttr(t: Tables, key: Key): (Tables, Ref) {
    if key in t.attrIndex then
      (BumpAttr(t, t.attrIndex[key]), t.attrIndex[key])
    else
      (t.(attrs := t.attrs[t.next := Attr(key, 1)], attrIndex := t.attrIndex[key := t.next], next := t.next + 1), t.next)
  }

  /** Drops one reference and frees the attribute with its last one. */
  function DropAttr(t: Tables, a: Ref): Tables {
    if a !in t.attrs then t
    else if t.attrs[a].refcnt <= 1 then
      t.(attrs := t.attrs - {a}, attrIndex := t.attrIndex - {t.attrs[a].key})
    else
      t.(attrs := t.attrs[a := t.attrs[a].(refcnt := t.attrs[a].refcnt - 1)])
  }

  /** The callers' references once one more reference on `a` accounts for those on its parts. */
  ghost function HoldAttr(h: Held, a: Ref, slots: map<Kind, Ref>): Held {
    Held(h.parts - SlotRefs(slots), h.attrs + multiset{a})
  }

  ghost function LoseAttr(h: Held, a: Ref, slots: map<Kind, Ref>): Held {
    Held(h.parts + SlotRefs(slots), h.attrs - multiset{a})
  }

  lemma AttrsIndexedChange(attrs: map<Ref, Attr>, index: map<Key, Ref>, next: Ref, a: Ref, v: Attr)
    requires AttrsIndexed(attrs, index, next) && a in attrs && v.key == attrs[a].key
    ensures AttrsIndexed(attrs[a := v], index, next)
  {
  }

  lemma AttrsIndexedAdd(attrs: map<Ref, Attr>, index: map<Key, Ref>, next: Ref, v: Attr)
    requires AttrsIndexed(attrs, index, next) && v.key !in index
    ensures next !in attrs
    ensures AttrsIndexed(attrs[next := v], index[v.key := next], next + 1)
  {
  }

  lemma AttrsIndexedRemove(attrs: map<Ref, Attr>, index: map<Key, Ref>, next: Ref, a: Ref)
    requires AttrsIndexed(attrs, index, next) && a in attrs
    ensures AttrsIndexed(attrs - {a}, index - {attrs[a].key}, next)
  {
  }

  lemma PartsIndexedNext(parts: map<Ref, Part>, index: map<Value, Ref>, next: Ref)
    requires PartsIndexed(parts, index, next)
    ensures PartsIndexed(parts, index, next + 1)
  {
  }

  lemma AttrsLiveSet(parts: map<Ref, Part>, attrs: map<Ref, Attr>, a: Ref, v: Attr)
    requires AttrsLive(parts, attrs) && Live(parts, v.key.slots)
    ensures AttrsLive(parts, attrs[a := v])
  {
    hide Live;
  }

  lemma AttrsLiveDrop(parts: map<Ref, Part>, attrs: map<Ref, Attr>, a: Ref)
    requires AttrsLive(parts, attrs)
    ensures AttrsLive(parts, attrs - {a})
  {
    hide Live;
  }

  lemma BaasLiveSet(attrs: map<Ref, Attr>, baas: map<Baa, nat>, a: Ref, v: Attr)
    requires BaasLive(attrs, baas)
    ensures BaasLive(attrs[a := v], baas)
  {
  }

  lemma BaasLiveDrop(attrs: map<Ref, Attr>, baas: map<Baa, nat>, held: multiset<Ref>, a: Ref)
    requires BaasLive(attrs, baas) && AttrsCounted(attrs, baas, held)
    requires a in attrs && attrs[a].refcnt == 1 && held[a] == 1
    ensures BaasLive(attrs - {a}, baas)
  {
    forall b | b in baas ensures b.attr != a {
      if b.attr == a {
        SumRemove(BaaShares(baas, a), b);
        assert false;
      }
    }
  }

  lemma AttrsCountedSet(attrs: map<Ref, Attr>, baas: map<Baa, nat>, held: multiset<Ref>, held': multiset<Ref>, a: Ref, v: Attr)
    requires AttrsCounted(attrs, baas, held)
    requires forall s :: s != a ==> held[s] == held'[s]
    requires 0 < v.refcnt == HeldByBaas(baas, a) + held'[a]
    ensures AttrsCounted(attrs[a := v], baas, held')
  {
    hide HeldByBaas;
    forall s | s in held' ensures s in attrs[a := v] {
      if s != a {
        assert s in held;
      }
    }
  }

  lemma AttrsCountedAdd(attrs: map<Ref, Attr>, baas: map<Baa, nat>, held: multiset<Ref>, a: Ref, v: Attr)
    requires AttrsCounted(attrs, baas, held) && BaasLive(attrs, baas) && a !in attrs
    requires v.refcnt == 1
    ensures AttrsCounted(attrs[a := v], baas, held + multiset{a})
  {
    assert BaaShares(baas, a) == map[];
    assert HeldByBaas(baas, a) == 0;
    hide HeldByBaas;
    assert held[a] == 0;
    AttrsCountedSet(attrs, baas, held, held + multiset{a}, a, v);
  }

  lemma AttrsCountedRemove(attrs: map<Ref, Attr>, baas: map<Baa, nat>, held: multiset<Ref>, a: Ref)
    requires AttrsCounted(attrs, baas, held) && held[a] == 1
    ensures AttrsCounted(attrs - {a}, baas, held - multiset{a})
  {
    hide HeldByBaas;
    forall s | s in held - multiset{a} ensures s in attrs - {a} {
      assert s in held;
    }
  }

  /** The references move with the attribute's count: what its parts count is unchanged. */
  lemma PartsCountedMove(parts: map<Ref, Part>, attrs: map<Ref, Attr>, attrs': map<Ref, Attr>, held: multiset<Ref>, held': multiset<Ref>)
    requires PartsCounted(parts, attrs, held)
    requires forall r :: HeldByAttrs(attrs', r) + held'[r] == HeldByAttrs(attrs, r) + held[r]
    requires forall r :: r in held' ==> r in parts
    ensures PartsCounted(parts, attrs', held')
  {
    hide HeldByAttrs;
  }

  lemma PartsCountedUp(parts: map<Ref, Part>, attrs: map<Ref, Attr>, held: multiset<Ref>, a: Ref, v: Attr)
    requires PartsCounted(parts, attrs, held)
    requires a in attrs ==> attrs[a].key == v.key
    requires v.refcnt == 1 + if a in attrs then attrs[a].refcnt else 0
    requires SlotRefs(v.key.slots) <= held
    ensures PartsCounted(parts, attrs[a := v], held - SlotRefs(v.key.slots))
  {
    var held' := held - SlotRefs(v.key.slots);
    hide HeldByAttrs;
    forall r ensures HeldByAttrs(attrs[a := v], r) + held'[r] == HeldByAttrs(attrs, r) + held[r] {
      HeldByAttrsUpdate(attrs, a, v, r);
      assert SlotRefs(v.key.slots)[r] == if r in v.key.slots.Values then 1 else 0;
    }
    forall r | r in held' ensures r in parts {
      assert r in held;
    }
    PartsCountedMove(parts, attrs, attrs[a := v], held, held');
  }

  lemma PartsCountedDown(parts: map<Ref, Part>, attrs: map<Ref, Attr>, held: multiset<Ref>, a: Ref)
    requires PartsCounted(parts, attrs, held) && AttrsLive(parts, attrs)
    requires a in attrs && attrs[a].refcnt > 0
    ensures
      var v := attrs[a].(refcnt := attrs[a].refcnt - 1);
      PartsCounted(parts, if v.refcnt == 0 then attrs - {a} else attrs[a := v], held + SlotRefs(v.key.slots))
  {
    var v := attrs[a].(refcnt := attrs[a].refcnt - 1);
    var attrs' := if v.refcnt == 0 then attrs - {a} else attrs[a := v];
    var held' := held + SlotRefs(v.key.slots);
    hide HeldByAttrs;
    forall r ensures HeldByAttrs(attrs', r) + held'[r] == HeldByAttrs(attrs, r) + held[r] {
      HeldByAttrsUpdate(attrs, a, v, r);
      HeldByAttrsRemove(attrs, a, r);
      assert SlotRefs(v.key.slots)[r] == if r in v.key.slots.Values then 1 else 0;
    }
    forall r | r in held' ensures r in parts {
      assert Live(parts, attrs[a].key.slots);
      assert r in held || r in v.key.slots.Values;
    }
    PartsCountedMove(parts, attrs, attrs', held, held');
  }

  lemma AttrCount(w: World, a: Ref)
    requires Good(w) && a in w.t.attrs
    ensures 0 < w.t.attrs[a].refcnt == HeldByBaas(w.t.baas, a) + w.h.attrs[a]
    ensures Live(w.t.parts, w.t.attrs[a].key.slots)
  {
    hide HeldByAttrs, HeldByBaas, PartsIndexed, AttrsIndexed, BaasLive, PartsCounted, Live;
  }

  lemma BumpAttrGood(w: World, a: Ref)
    requires Good(w) && a in w.t.attrs
    requires SlotRefs(w.t.attrs[a].key.slots) <= w.h.parts
    ensures Good(World(BumpAttr(w.t, a), HoldAttr(w.h, a, w.t.attrs[a].key.slots)))
  {
    hide PartsIndexed, AttrsIndexed, AttrsLive, BaasLive, PartsCounted, AttrsCounted, HeldByAttrs, HeldByBaas, Live, SlotRefs;
    var v := w.t.attrs[a].(refcnt := w.t.attrs[a].refcnt + 1);
    AttrCount(w, a);
    AttrsIndexedChange(w.t.attrs, w.t.attrIndex, w.t.next, a, v);
    AttrsLiveSet(w.t.parts, w.t.attrs, a, v);
    BaasLiveSet(w.t.attrs, w.t.baas, a, v);
    AttrsCountedSet(w.t.attrs, w.t.baas, w.h.attrs, w.h.attrs + multiset{a}, a, v);
    PartsCountedUp(w.t.parts, w.t.attrs, w.h.parts, a, v);
  }

  lemma NewAttrGood(w: World, key: Key)
    requires Good(w) && key !in w.t.attrIndex
    requires Live(w.t.parts, key.slots) && SlotRefs(key.slots) <= w.h.parts
    ensures
      var (t, a) := TakeAttr(w.t, key);
      Good(World(t, HoldAttr(w.h, a, key.slots)))
  {
    hide PartsIndexed, AttrsIndexed, AttrsLive, BaasLive, PartsCounted, AttrsCounted, HeldByAttrs, HeldByBaas, Live, SlotRefs;
    var a, v := w.t.next, Attr(key, 1);
    AttrsIndexedAdd(w.t.attrs, w.t.attrIndex, a, v);
    PartsIndexedNext(w.t.parts, w.t.partIndex, a);
    AttrsLiveSet(w.t.parts, w.t.attrs, a, v);
    BaasLiveSet(w.t.attrs, w.t.baas, a, v);
    AttrsCountedAdd(w.t.attrs, w.t.baas, w.h.attrs, a, v);
    PartsCountedUp(w.t.parts, w.t.attrs, w.h.parts, a, v);
  }

  lemma FoundAttr(attrs: map<Ref, Attr>, index: map<Key, Ref>, next: Ref, key: Key)
    requires AttrsIndexed(attrs, index, next) && key in index
    ensures index[key] in attrs && attrs[index[key]].key == key
  {
  }

  lemma TakeAttrGood(w: World, key: Key)
    requires Good(w)
    requires Live(w.t.parts, key.slots) && SlotRefs(key.slots) <= w.h.parts
    ensures
      var (t, a) := TakeAttr(w.t, key);
      && Good(World(t, HoldAttr(w.h, a, key.slots)))
      && a in t.attrs && t.attrs[a].key == key
      && t.parts == w.t.parts && t.baas == w.t.baas
  {
    hide PartsIndexed, AttrsIndexed, AttrsLive, BaasLive, PartsCounted, AttrsCounted, HeldByAttrs, HeldByBaas, Live, SlotRefs;
    if key in w.t.attrIndex {
      FoundAttr(w.t.attrs, w.t.attrIndex, w.t.next, key);
      BumpAttrGood(w, w.t.attrIndex[key]);
    } else {
      NewAttrGood(w, key);
    }
  }

  /** Dropping a reference on an attribute hands the caller the references on its parts. */
  lemma DropAttrGood(w: World, a: Ref)
    requires Good(w) && a in w.h.attrs
    ensures a in w.t.attrs
    ensures Good(World(DropAttr(w.t, a), LoseAttr(w.h, a, w.t.attrs[a].key.slots)))
    ensures Live(w.t.parts, w.t.attrs[a].key.slots)
  {
    hide PartsIndexed, AttrsIndexed, AttrsLive, BaasLive, PartsCounted, AttrsCounted, HeldByAttrs, HeldByBaas, Live, SlotRefs;
    HeldIsAllocated(w);
    AttrCount(w, a);
    PartsCountedDown(w.t.parts, w.t.attrs, w.h.parts, a);
    if w.t.attrs[a].refcnt == 1 {
      AttrsIndexedRemove(w.t.attrs, w.t.attrIndex, w.t.next, a);
      AttrsLiveDrop(w.t.parts, w.t.attrs, a);
      BaasLiveDrop(w.t.attrs, w.t.baas, w.h.attrs, a);
      AttrsCountedRemove(w.t.attrs, w.t.baas, w.h.attrs, a);
    } else {
      var v := w.t.attrs[a].(refcnt := w.t.attrs[a].refcnt - 1);
      AttrsIndexedChange(w.t.attrs, w.t.attrIndex, w.t.next, a, v);
      AttrsLiveSet(w.t.parts, w.t.attrs, a, v);
      BaasLiveSet(w.t.attrs, w.t.baas, a, v);
      AttrsCountedSet(w.t.attrs, w.t.baas, w.h.attrs, w.h.attrs - multiset{a}, a, v);
    }
  }
}
