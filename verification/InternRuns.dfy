/**
  The interning operations on whole attributes and on advertisements, and what
  holds after any sequence of them.
 */
module InternRuns {
  import opened Interning

  /** What a caller's attribute points to: its own object, or an interned one. */
  datatype Given = Fresh(content: seq<int>) | Interned(ref: Ref)

  /** An interned object that a caller's attribute points to is allocated and of the right kind. */
  ghost predicate GivenLive(parts: map<Ref, Part>, given: map<Kind, Given>) {
    forall k :: k in given && given[k].Interned? ==> given[k].ref in parts && parts[given[k].ref].value.kind == k
  }

  // ---------------------------------------------------------------------
  // Steps that change one pointer

  /** Interns a caller's own object, or counts a further reference on an interned one. */
  ghost function Acquire(w: World, k: Kind, g: Given): (World, Ref) {
    match g
    case Fresh(c) =>
      var (t, r) := InternPart(w.t, Value(k, c));
      (World(t, HoldPart(w.h, r)), r)
    case Interned(r) =>
      (World(BumpPart(w.t, r), HoldPart(w.h, r)), r)
  }

  datatype Got = Got(w: World, slots: map<Kind, Ref>)

  ghost function AcquireSlot(g: Got, given: map<Kind, Given>, k: Kind): Got {
    if k in given then
      var (w, r) := Acquire(g.w, k, given[k]);
      Got(w, g.slots[k := r])
    else
      g
  }

  ghost function AcquireSlots(w: World, given: map<Kind, Given>): Got {
    var g1 := AcquireSlot(Got(w, map[]), given, AsPath);
    var g2 := AcquireSlot(g1, given, Community);
    var g3 := AcquireSlot(g2, given, ExtCommunity);
    var g4 := AcquireSlot(g3, given, Cluster);
    AcquireSlot(g4, given, Transit)
  }

  ghost function ReleaseSlot(w: World, slots: map<Kind, Ref>, k: Kind): World {
    if k in slots then World(UninternPart(w.t, slots[k]), LosePart(w.h, slots[k])) else w
  }

  ghost function ReleaseSlots(w: World, slots: map<Kind, Ref>): World {
    var w1 := ReleaseSlot(w, slots, AsPath);
    var w2 := ReleaseSlot(w1, slots, Community);
    var w3 := ReleaseSlot(w2, slots, ExtCommunity);
    var w4 := ReleaseSlot(w3, slots, Cluster);
    ReleaseSlot(w4, slots, Transit)
  }

  // ---------------------------------------------------------------------
  // The operations

  ghost function InternAttr(w: World, fields: seq<int>, given: map<Kind, Given>): (World, Ref) {
    var g := AcquireSlots(w, given);
    var (t, a) := TakeAttr(g.w.t, Key(fields, g.slots));
    (World(t, HoldAttr(g.w.h, a, g.slots)), a)
  }

  ghost function Borrowed(slots: map<Kind, Ref>): map<Kind, Given> {
    map k | k in slots :: Interned(slots[k])
  }

  ghost function RefAttr(w: World, a: Ref): World
    requires a in w.t.attrs
  {
    var slots := w.t.attrs[a].key.slots;
    var g := AcquireSlots(w, Borrowed(slots));
    World(BumpAttr(g.w.t, a), HoldAttr(g.w.h, a, slots))
  }

  ghost function UninternAttr(w: World, a: Ref): World
    requires a in w.t.attrs
  {
    var slots := w.t.attrs[a].key.slots;
    ReleaseSlots(World(DropAttr(w.t, a), LoseAttr(w.h, a, slots)), slots)
  }

  /** An attribute advertised in one more update: its reference moves to the table entry. */
  ghost function TakeBaa(w: World, b: Baa): World {
    World(w.t.(baas := w.t.baas[b := 1 + if b in w.t.baas then w.t.baas[b] else 0]), w.h.(attrs := w.h.attrs - multiset{b.attr}))
  }

  /** The advertisements after one user of `b` is gone. */
  ghost function LessBaa(baas: map<Baa, nat>, b: Baa): map<Baa, nat>
    requires b in baas
  {
    if baas[b] <= 1 then baas - {b} else baas[b := baas[b] - 1]
  }

  ghost function DropBaa(w: World, b: Baa): World
    requires b in w.t.baas
  {
    World(w.t.(baas := LessBaa(w.t.baas, b)), w.h.(attrs := w.h.attrs + multiset{b.attr}))
  }

  ghost function Advertise(w: World, table: nat, fields: seq<int>, given: map<Kind, Given>): (World, Baa) {
    var (w1, a) := InternAttr(w, fields, given);
    (TakeBaa(w1, Baa(table, a)), Baa(table, a))
  }

  ghost function Unadvertise(w: World, b: Baa): World
    requires b in w.t.baas && b.attr in w.t.attrs
  {
    UninternAttr(DropBaa(w, b), b.attr)
  }

  // ---------------------------------------------------------------------
  // What the steps keep

  /** `r` is the object that the caller's pointer of kind `k` becomes. */
  ghost predicate Stands(parts: map<Ref, Part>, k: Kind, g: Given, r: Ref) {
    && r in parts && parts[r].value.kind == k
    && match g
       case Fresh(c) => parts[r].value.content == c
       case Interned(s) => r == s
  }

  /** Allocated parts stay allocated and keep their values. */
  ghost predicate Kept(parts: map<Ref, Part>, parts': map<Ref, Part>) {
    forall r :: r in parts ==> r in parts' && parts'[r].value == parts[r].value
  }

  lemma KeptLive(parts: map<Ref, Part>, parts': map<Ref, Part>, slots: map<Kind, Ref>)
    requires Kept(parts, parts') && Live(parts, slots)
    ensures Live(parts', slots)
  {
  }

  lemma KeptGiven(parts: map<Ref, Part>, parts': map<Ref, Part>, given: map<Kind, Given>)
    requires Kept(parts, parts') && GivenLive(parts, given)
    ensures GivenLive(parts', given)
  {
  }

  ghost predicate SlotsStand(parts: map<Ref, Part>, given: map<Kind, Given>, slots: map<Kind, Ref>) {
    forall k :: k in slots ==> k in given && Stands(parts, k, given[k], slots[k])
  }

  lemma StandLive(parts: map<Ref, Part>, given: map<Kind, Given>, slots: map<Kind, Ref>)
    requires SlotsStand(parts, given, slots)
    ensures Live(parts, slots)
  {
  }

  lemma StandsKept(parts: map<Ref, Part>, parts': map<Ref, Part>, given: map<Kind, Given>, slots: map<Kind, Ref>, k: Kind, r: Ref)
    requires Kept(parts, parts') && SlotsStand(parts, given, slots)
    requires k in given && Stands(parts', k, given[k], r)
    ensures SlotsStand(parts', given, slots[k := r])
  {
  }

  /** Pointers of different kinds are different pointers. */
  lemma SlotRefsAdd(parts: map<Ref, Part>, slots: map<Kind, Ref>, k: Kind, r: Ref)
    requires Live(parts, slots) && k !in slots && r in parts && parts[r].value.kind == k
    ensures SlotRefs(slots[k := r]) == SlotRefs(slots) + multiset{r}
  {
    var slots' := slots[k := r];
    assert r !in slots.Values;
    forall s ensures s in slots'.Values <==> s in slots.Values || s == r {
      if s in slots.Values {
        var j :| j in slots && slots[j] == s;
        assert slots'[j] == s;
      }
      if s == r {
        assert slots'[k] == s;
      }
    }
  }

  lemma NewIsUnused(parts: map<Ref, Part>, index: map<Value, Ref>, next: Ref)
    requires PartsIndexed(parts, index, next)
    ensures next !in parts
  {
  }

  lemma InternKeeps(w: World, v: Value)
    requires Good(w)
    ensures Kept(w.t.parts, InternPart(w.t, v).0.parts)
  {
    hide PartsIndexed, AttrsIndexed, AttrsLive, BaasLive, PartsCounted, AttrsCounted;
    NewIsUnused(w.t.parts, w.t.partIndex, w.t.next);
  }

  lemma AcquireGood(w: World, k: Kind, g: Given)
    requires Good(w) && (g.Interned? ==> g.ref in w.t.parts && w.t.parts[g.ref].value.kind == k)
    ensures
      var (w', r) := Acquire(w, k, g);
      && Good(w')
      && w'.h == HoldPart(w.h, r)
      && Stands(w'.t.parts, k, g, r)
      && Kept(w.t.parts, w'.t.parts)
      && w'.t.attrs == w.t.attrs && w'.t.attrIndex == w.t.attrIndex && w'.t.baas == w.t.baas
  {
    hide Good;
    if g.Fresh? {
      InternPartGood(w, Value(k, g.content));
      InternKeeps(w, Value(k, g.content));
      hide Kept;
    } else {
      BumpPartGood(w, g.ref);
    }
  }

  /** After some of the pointers are acquired. */
  ghost predicate Acquired(w: World, given: map<Kind, Given>, g: Got, done: set<Kind>) {
    && Good(g.w)
    && Kept(w.t.parts, g.w.t.parts)
    && SlotsStand(g.w.t.parts, given, g.slots)
    && g.slots.Keys == given.Keys * done
    && g.w.h == Held(w.h.parts + SlotRefs(g.slots), w.h.attrs)
    && g.w.t.attrs == w.t.attrs && g.w.t.attrIndex == w.t.attrIndex && g.w.t.baas == w.t.baas
  }

  lemma AcquireSlotAcquired(w: World, given: map<Kind, Given>, g: Got, done: set<Kind>, k: Kind)
    requires GivenLive(w.t.parts, given) && Acquired(w, given, g, done) && k !in done
    ensures Acquired(w, given, AcquireSlot(g, given, k), done + {k})
  {
    hide Good, Live, SlotRefs, Kept, SlotsStand, GivenLive, Acquire, HoldPart;
    if k in given {
      KeptGiven(w.t.parts, g.w.t.parts, given);
      if given[k].Interned? {
        GivenOne(g.w.t.parts, given, k);
      }
      AcquireGood(g.w, k, given[k]);
      var (w', r) := Acquire(g.w, k, given[k]);
      KeptTwice(w.t.parts, g.w.t.parts, w'.t.parts);
      StandsKept(g.w.t.parts, w'.t.parts, given, g.slots, k, r);
      StandLive(g.w.t.parts, given, g.slots);
      KeptLive(g.w.t.parts, w'.t.parts, g.slots);
      SlotRefsAdd(w'.t.parts, g.slots, k, r);
      HeldMore(w.h, g.slots, k, r);
      assert g.slots[k := r].Keys == given.Keys * (done + {k});
    } else {
      assert given.Keys * (done + {k}) == given.Keys * done;
    }
  }

  lemma HeldMore(h: Held, slots: map<Kind, Ref>, k: Kind, r: Ref)
    requires SlotRefs(slots[k := r]) == SlotRefs(slots) + multiset{r}
    ensures HoldPart(Held(h.parts + SlotRefs(slots), h.attrs), r) == Held(h.parts + SlotRefs(slots[k := r]), h.attrs)
  {
    hide SlotRefs;
  }

  lemma GivenOne(parts: map<Ref, Part>, given: map<Kind, Given>, k: Kind)
    requires GivenLive(parts, given) && k in given && given[k].Interned?
    ensures given[k].ref in parts && parts[given[k].ref].value.kind == k
  {
  }

  lemma KeptTwice(p: map<Ref, Part>, q: map<Ref, Part>, r: map<Ref, Part>)
    requires Kept(p, q) && Kept(q, r)
    ensures Kept(p, r)
  {
  }

  lemma NothingAcquired(w: World, given: map<Kind, Given>)
    requires Good(w)
    ensures Acquired(w, given, Got(w, map[]), {})
  {
    hide Good;
    assert SlotRefs(map[]) == multiset{};
    assert w.h.parts + multiset{} == w.h.parts;
  }

  /** Acquiring every pointer gives the caller exactly one reference on each. */
  lemma AcquireSlotsGood(w: World, given: map<Kind, Given>)
    requires Good(w) && GivenLive(w.t.parts, given)
    ensures Acquired(w, given, AcquireSlots(w, given), given.Keys)
  {
    hide Acquired, AcquireSlot, Good, GivenLive;
    NothingAcquired(w, given);
    var g1 := AcquireSlot(Got(w, map[]), given, AsPath);
    AcquireSlotAcquired(w, given, Got(w, map[]), {}, AsPath);
    var g2 := AcquireSlot(g1, given, Community);
    AcquireSlotAcquired(w, given, g1, {} + {AsPath}, Community);
    var g3 := AcquireSlot(g2, given, ExtCommunity);
    AcquireSlotAcquired(w, given, g2, {} + {AsPath} + {Community}, ExtCommunity);
    var g4 := AcquireSlot(g3, given, Cluster);
    AcquireSlotAcquired(w, given, g3, {} + {AsPath} + {Community} + {ExtCommunity}, Cluster);
    AcquireSlotAcquired(w, given, g4, {} + {AsPath} + {Community} + {ExtCommunity} + {Cluster}, Transit);
    var all := {} + {AsPath} + {Community} + {ExtCommunity} + {Cluster} + {Transit};
    forall k: Kind ensures k in all {
      match k case AsPath => case Community => case ExtCommunity => case Cluster => case Transit =>
    }
    AcquiredAll(w, given, AcquireSlots(w, given), all);
  }

  lemma AcquiredAll(w: World, given: map<Kind, Given>, g: Got, done: set<Kind>)
    requires Acquired(w, given, g, done)
    requires forall k: Kind :: k in done
    ensures Acquired(w, given, g, given.Keys)
  {
    hide Good;
    assert given.Keys * done == given.Keys * given.Keys;
  }

  /**
    Interning an attribute keeps the invariant and gives the caller one reference
    on an attribute with the given fields and parts; the caller's own references
    are otherwise unchanged.
   */
  lemma InternAttrGood(w: World, fields: seq<int>, given: map<Kind, Given>)
    requires Good(w) && GivenLive(w.t.parts, given)
    ensures
      var (w', a) := InternAttr(w, fields, given);
      && Good(w')
      && w'.h == Held(w.h.parts, w.h.attrs + multiset{a})
      && a in w'.t.attrs && w'.t.attrs[a].key.fields == fields
      && SlotsStand(w'.t.parts, given, w'.t.attrs[a].key.slots) && w'.t.attrs[a].key.slots.Keys == given.Keys
      && Kept(w.t.parts, w'.t.parts) && w'.t.baas == w.t.baas
  {
    hide Good, AcquireSlots, SlotsStand, Kept, SlotRefs, Live, GivenLive, TakeAttr;
    AcquireSlotsGood(w, given);
    var g := AcquireSlots(w, given);
    StandLive(g.w.t.parts, given, g.slots);
    TakeAttrGood(g.w, Key(fields, g.slots));
    var a := TakeAttr(g.w.t, Key(fields, g.slots)).1;
    assert w.h.parts + SlotRefs(g.slots) - SlotRefs(g.slots) == w.h.parts;
  }

  /** `bgp_attr_refcount` gives the caller one more reference on the attribute. */
  lemma RefAttrGood(w: World, a: Ref)
    requires Good(w) && a in w.t.attrs
    ensures Good(RefAttr(w, a))
    ensures RefAttr(w, a).h == Held(w.h.parts, w.h.attrs + multiset{a})
    ensures RefAttr(w, a).t.attrs == w.t.attrs[a := w.t.attrs[a].(refcnt := w.t.attrs[a].refcnt + 1)]
    ensures Kept(w.t.parts, RefAttr(w, a).t.parts) && RefAttr(w, a).t.baas == w.t.baas
  {
    hide Good, AcquireSlots, SlotsStand, Kept, SlotRefs, Live, GivenLive, Borrowed;
    var slots := w.t.attrs[a].key.slots;
    var given := Borrowed(slots);
    var g := AcquireSlots(w, given);
    AttrCount(w, a);
    BorrowedLive(w.t.parts, slots);
    AcquireSlotsGood(w, given);
    BorrowedBack(g.w.t.parts, slots, g.slots);
    BumpAttrGood(g.w, a);
    assert w.h.parts + SlotRefs(slots) - SlotRefs(slots) == w.h.parts;
  }

  lemma BorrowedLive(parts: map<Ref, Part>, slots: map<Kind, Ref>)
    requires Live(parts, slots)
    ensures GivenLive(parts, Borrowed(slots))
  {
  }

  lemma BorrowedBack(parts: map<Ref, Part>, slots: map<Kind, Ref>, got: map<Kind, Ref>)
    requires SlotsStand(parts, Borrowed(slots), got) && got.Keys == Borrowed(slots).Keys
    ensures got == slots
  {
  }

  /** While the pointers are given back, those not yet reached are still held. */
  ghost predicate Releasing(w0: World, base: multiset<Ref>, slots: map<Kind, Ref>, w: World, done: set<Kind>) {
    && Good(w)
    && w.h == Held(base + SlotRefs(slots - done), w0.h.attrs)
    && w.t.attrs == w0.t.attrs && w.t.attrIndex == w0.t.attrIndex && w.t.baas == w0.t.baas
  }

  ghost predicate Apart(slots: map<Kind, Ref>) {
    forall j, k :: j in slots && k in slots && j != k ==> slots[j] != slots[k]
  }

  lemma LiveApart(parts: map<Ref, Part>, slots: map<Kind, Ref>)
    requires Live(parts, slots)
    ensures Apart(slots)
  {
  }

  lemma SlotRefsRemove(slots: map<Kind, Ref>, k: Kind)
    requires Apart(slots) && k in slots
    ensures SlotRefs(slots) == SlotRefs(slots - {k}) + multiset{slots[k]}
  {
    var rest := slots - {k};
    forall s ensures s in slots.Values <==> s in rest.Values || s == slots[k] {
      if s in slots.Values && s != slots[k] {
        var j :| j in slots && slots[j] == s;
        assert j in rest && rest[j] == s;
      }
      if s in rest.Values {
        var j :| j in rest && rest[j] == s;
        assert slots[j] == s;
      }
    }
    assert slots[k] !in rest.Values;
  }

  lemma ReleaseSlotReleasing(w0: World, base: multiset<Ref>, slots: map<Kind, Ref>, w: World, done: set<Kind>, k: Kind)
    requires Releasing(w0, base, slots, w, done) && Apart(slots) && k !in done
    ensures Releasing(w0, base, slots, ReleaseSlot(w, slots, k), done + {k})
  {
    hide Good, SlotRefs, Apart;
    var rest := slots - done;
    RestOfRest(slots, done, k);
    if k in slots {
      ApartRest(slots, done);
      SlotRefsRemove(rest, k);
      UninternPartGood(w, slots[k]);
      GiveBack(base, SlotRefs(rest - {k}), slots[k]);
    }
  }

  lemma RestOfRest(slots: map<Kind, Ref>, done: set<Kind>, k: Kind)
    ensures slots - (done + {k}) == slots - done - {k}
    ensures k !in slots ==> slots - done - {k} == slots - done
    ensures k in slots && k !in done ==> k in slots - done && (slots - done)[k] == slots[k]
  {
  }

  lemma GiveBack(base: multiset<Ref>, rest: multiset<Ref>, r: Ref)
    ensures r in base + (rest + multiset{r})
    ensures base + (rest + multiset{r}) - multiset{r} == base + rest
  {
  }

  lemma ApartRest(slots: map<Kind, Ref>, done: set<Kind>)
    requires Apart(slots)
    ensures Apart(slots - done)
  {
  }

  lemma NothingReleased(w: World, base: multiset<Ref>, slots: map<Kind, Ref>)
    requires Good(w) && w.h.parts == base + SlotRefs(slots)
    ensures Releasing(w, base, slots, w, {})
  {
    hide Good, SlotRefs;
    assert slots - {} == slots;
  }

  /** Giving every pointer back takes exactly one reference on each. */
  lemma ReleaseSlotsGood(w: World, base: multiset<Ref>, slots: map<Kind, Ref>)
    requires Good(w) && Apart(slots) && w.h.parts == base + SlotRefs(slots)
    ensures Good(ReleaseSlots(w, slots))
    ensures ReleaseSlots(w, slots).h == Held(base, w.h.attrs)
    ensures ReleaseSlots(w, slots).t.attrs == w.t.attrs
    ensures ReleaseSlots(w, slots).t.attrIndex == w.t.attrIndex
    ensures ReleaseSlots(w, slots).t.baas == w.t.baas
  {
    hide Good, ReleaseSlot, Apart, Releasing, SlotRefs;
    NothingReleased(w, base, slots);
    var w1 := ReleaseSlot(w, slots, AsPath);
    ReleaseSlotReleasing(w, base, slots, w, {}, AsPath);
    var w2 := ReleaseSlot(w1, slots, Community);
    ReleaseSlotReleasing(w, base, slots, w1, {} + {AsPath}, Community);
    var w3 := ReleaseSlot(w2, slots, ExtCommunity);
    ReleaseSlotReleasing(w, base, slots, w2, {} + {AsPath} + {Community}, ExtCommunity);
    var w4 := ReleaseSlot(w3, slots, Cluster);
    ReleaseSlotReleasing(w, base, slots, w3, {} + {AsPath} + {Community} + {ExtCommunity}, Cluster);
    ReleaseSlotReleasing(w, base, slots, w4, {} + {AsPath} + {Community} + {ExtCommunity} + {Cluster}, Transit);
    ReleasedAll(w, base, slots, ReleaseSlots(w, slots), {} + {AsPath} + {Community} + {ExtCommunity} + {Cluster} + {Transit});
  }

  lemma ReleasedAll(w0: World, base: multiset<Ref>, slots: map<Kind, Ref>, w: World, done: set<Kind>)
    requires Releasing(w0, base, slots, w, done)
    requires done == {AsPath, Community, ExtCommunity, Cluster, Transit}
    ensures w.h == Held(base, w0.h.attrs) && Good(w)
    ensures w.t.attrs == w0.t.attrs && w.t.attrIndex == w0.t.attrIndex && w.t.baas == w0.t.baas
  {
    hide Good;
    forall k: Kind ensures k in done {
      match k case AsPath => case Community => case ExtCommunity => case Cluster => case Transit =>
    }
    assert slots - done == map[];
  }

  /**
    Giving back a reference on an attribute takes exactly that reference from the
    caller; the attribute is freed exactly with its last reference.
   */
  lemma UninternAttrGood(w: World, a: Ref)
    requires Good(w) && a in w.h.attrs
    ensures a in w.t.attrs && Good(UninternAttr(w, a))
    ensures UninternAttr(w, a).h == Held(w.h.parts, w.h.attrs - multiset{a})
    ensures UninternAttr(w, a).t.attrs == DropAttr(w.t, a).attrs
    ensures UninternAttr(w, a).t.baas == w.t.baas
  {
    hide Good, SlotRefs, Live, Apart, ReleaseSlots;
    DropAttrGood(w, a);
    var slots := w.t.attrs[a].key.slots;
    LiveApart(w.t.parts, slots);
    ReleaseSlotsGood(World(DropAttr(w.t, a), LoseAttr(w.h, a, slots)), w.h.parts, slots);
  }

  // ---------------------------------------------------------------------
  // Advertisements

  lemma AttrsCountedBaa(attrs: map<Ref, Attr>, baas: map<Baa, nat>, baas': map<Baa, nat>, held: multiset<Ref>, held': multiset<Ref>)
    requires AttrsCounted(attrs, baas, held)
    requires forall a :: HeldByBaas(baas', a) + held'[a] == HeldByBaas(baas, a) + held[a]
    requires forall a :: a in held' ==> a in attrs
    ensures AttrsCounted(attrs, baas', held')
  {
    hide HeldByBaas;
  }

  lemma TakeBaaCounted(attrs: map<Ref, Attr>, baas: map<Baa, nat>, held: multiset<Ref>, b: Baa)
    requires AttrsCounted(attrs, baas, held) && b.attr in held
    ensures
      var baas' := baas[b := 1 + if b in baas then baas[b] else 0];
      AttrsCounted(attrs, baas', held - multiset{b.attr})
  {
    var n := 1 + if b in baas then baas[b] else 0;
    var held' := held - multiset{b.attr};
    hide HeldByBaas;
    forall a ensures HeldByBaas(baas[b := n], a) + held'[a] == HeldByBaas(baas, a) + held[a] {
      HeldByBaasUpdate(baas, b, n, a);
    }
    forall a | a in held' ensures a in attrs {
      assert a in held;
    }
    AttrsCountedBaa(attrs, baas, baas[b := n], held, held');
  }

  lemma TakeBaaLive(attrs: map<Ref, Attr>, baas: map<Baa, nat>, held: multiset<Ref>, b: Baa)
    requires AttrsCounted(attrs, baas, held) && BaasLive(attrs, baas) && b.attr in held
    ensures BaasLive(attrs, baas[b := 1 + if b in baas then baas[b] else 0])
  {
    hide HeldByBaas;
  }

  lemma {:induction false} DropBaaHeld(baas: map<Baa, nat>, b: Baa, a: Ref)
    requires b in baas && baas[b] > 0
    ensures HeldByBaas(LessBaa(baas, b), a) + (if b.attr == a then 1 else 0) == HeldByBaas(baas, a)
  {
    hide HeldByBaas;
    if baas[b] <= 1 {
      HeldByBaasRemove(baas, b, a);
    } else {
      HeldByBaasUpdate(baas, b, baas[b] - 1, a);
    }
  }

  lemma {:induction false} DropBaaLive(attrs: map<Ref, Attr>, baas: map<Baa, nat>, b: Baa)
    requires BaasLive(attrs, baas) && b in baas
    ensures BaasLive(attrs, LessBaa(baas, b))
  {
    forall c | c in LessBaa(baas, b) ensures LessBaa(baas, b)[c] > 0 && c.attr in attrs {
      assert c in baas;
    }
  }

  lemma {:induction false} DropBaaCounted(attrs: map<Ref, Attr>, baas: map<Baa, nat>, held: multiset<Ref>, b: Baa)
    requires AttrsCounted(attrs, baas, held) && BaasLive(attrs, baas) && b in baas
    ensures AttrsCounted(attrs, LessBaa(baas, b), held + multiset{b.attr})
  {
    var held' := held + multiset{b.attr};
    hide HeldByBaas, LessBaa;
    forall a ensures HeldByBaas(LessBaa(baas, b), a) + held'[a] == HeldByBaas(baas, a) + held[a] {
      DropBaaHeld(baas, b, a);
    }
    forall a | a in held' ensures a in attrs {
      assert a in held || a == b.attr;
    }
    hide AttrsCounted;
    AttrsCountedBaa(attrs, baas, LessBaa(baas, b), held, held');
  }

  lemma TakeBaaGood(w: World, b: Baa)
    requires Good(w) && b.attr in w.h.attrs
    ensures Good(TakeBaa(w, b))
  {
    hide PartsIndexed, AttrsIndexed, AttrsLive, BaasLive, PartsCounted, AttrsCounted;
    TakeBaaCounted(w.t.attrs, w.t.baas, w.h.attrs, b);
    TakeBaaLive(w.t.attrs, w.t.baas, w.h.attrs, b);
  }

  lemma DropBaaGood(w: World, b: Baa)
    requires Good(w) && b in w.t.baas
    ensures Good(DropBaa(w, b))
  {
    hide PartsIndexed, AttrsIndexed, AttrsLive, BaasLive, PartsCounted, AttrsCounted;
    DropBaaCounted(w.t.attrs, w.t.baas, w.h.attrs, b);
    DropBaaLive(w.t.attrs, w.t.baas, b);
  }

  lemma BaaIsLive(w: World, b: Baa)
    requires Good(w) && b in w.t.baas
    ensures b.attr in w.t.attrs
  {
    hide PartsIndexed, AttrsIndexed, AttrsLive, PartsCounted, AttrsCounted;
  }

  /** An advertisement takes over the reference that interning its attribute gave. */
  lemma AdvertiseGood(w: World, table: nat, fields: seq<int>, given: map<Kind, Given>)
    requires Good(w) && GivenLive(w.t.parts, given)
    ensures
      var (w', b) := Advertise(w, table, fields, given);
      Good(w') && w'.h == w.h && b in w'.t.baas
  {
    hide Good, GivenLive, Kept, SlotsStand, InternAttr;
    InternAttrGood(w, fields, given);
    var (w1, a) := InternAttr(w, fields, given);
    TakeBaaGood(w1, Baa(table, a));
    assert w.h.attrs + multiset{a} - multiset{a} == w.h.attrs;
  }

  lemma UnadvertiseGood(w: World, b: Baa)
    requires Good(w) && b in w.t.baas
    ensures b.attr in w.t.attrs && Good(Unadvertise(w, b)) && Unadvertise(w, b).h == w.h
    ensures b in Unadvertise(w, b).t.baas <==> w.t.baas[b] > 1
    ensures b in Unadvertise(w, b).t.baas ==> b.attr in Unadvertise(w, b).t.attrs
  {
    hide Good, UninternAttr;
    BaaIsLive(w, b);
    DropBaaGood(w, b);
    var w1 := DropBaa(w, b);
    UninternAttrGood(w1, b.attr);
    assert w.h.attrs + multiset{b.attr} - multiset{b.attr} == w.h.attrs;
    if b in UninternAttr(w1, b.attr).t.baas {
      BaaIsLive(UninternAttr(w1, b.attr), b);
    }
  }

  // ---------------------------------------------------------------------
  // Attributes made by the router itself

  /**
    Makes an attribute with an interned path: the path is interned first, the
    attribute takes its own reference on it, and the first one is given back
    through the attribute's pointer.
   */
  ghost function MakeAttr(w: World, fields: seq<int>, path: seq<int>, given: map<Kind, Given>): (World, Ref) {
    var (w1, r) := Acquire(w, AsPath, Fresh(path));
    var (w2, a) := InternAttr(w1, fields, given[AsPath := Interned(r)]);
    (World(UninternPart(w2.t, r), LosePart(w2.h, r)), a)
  }

  /** Giving the first reference back never frees the path of the attribute returned. */
  lemma MakeAttrKeepsPath(w: World, fields: seq<int>, path: seq<int>, given: map<Kind, Given>)
    requires Good(w) && GivenLive(w.t.parts, given) && AsPath !in given
    ensures
      var (w', a) := MakeAttr(w, fields, path, given);
      && Good(w') && w'.h == Held(w.h.parts, w.h.attrs + multiset{a})
      && a in w'.t.attrs && AsPath in w'.t.attrs[a].key.slots
      && w'.t.attrs[a].key.slots[AsPath] in w'.t.parts
      && w'.t.parts[w'.t.attrs[a].key.slots[AsPath]].value == Value(AsPath, path)
      && w'.t.attrs[a].key.fields == fields && w'.t.attrs[a].key.slots.Keys == given.Keys + {AsPath}
  {
    hide Good, Acquire, InternAttr, GivenLive, Kept, SlotsStand, PointedTo, UninternPart;
    AcquireGood(w, AsPath, Fresh(path));
    var (w1, r) := Acquire(w, AsPath, Fresh(path));
    KeptGiven(w.t.parts, w1.t.parts, given);
    GivenPlus(w1.t.parts, given, AsPath, r);
    InternAttrGood(w1, fields, given[AsPath := Interned(r)]);
    var (w2, a) := InternAttr(w1, fields, given[AsPath := Interned(r)]);
    SlotIs(w2.t.parts, given[AsPath := Interned(r)], w2.t.attrs[a].key.slots, AsPath, r);
    PathKept(w1.t.parts, w2.t.parts, r);
    Points(w2.t.attrs, a, AsPath);
    UninternPartGood(w2, r);
    UninternKeeps(w2.t, r);
    assert w.h.parts + multiset{r} - multiset{r} == w.h.parts;
  }

  lemma GivenPlus(parts: map<Ref, Part>, given: map<Kind, Given>, k: Kind, r: Ref)
    requires GivenLive(parts, given) && r in parts && parts[r].value.kind == k
    ensures GivenLive(parts, given[k := Interned(r)])
  {
  }

  lemma SlotIs(parts: map<Ref, Part>, given: map<Kind, Given>, slots: map<Kind, Ref>, k: Kind, r: Ref)
    requires SlotsStand(parts, given, slots) && slots.Keys == given.Keys
    requires k in given && given[k] == Interned(r)
    ensures k in slots && slots[k] == r
  {
    assert k in slots.Keys;
  }

  lemma PathKept(parts: map<Ref, Part>, parts': map<Ref, Part>, r: Ref)
    requires Kept(parts, parts') && r in parts
    ensures r in parts' && parts'[r].value == parts[r].value
  {
  }

  lemma Points(attrs: map<Ref, Attr>, a: Ref, k: Kind)
    requires a in attrs && k in attrs[a].key.slots
    ensures PointedTo(attrs, attrs[a].key.slots[k])
  {
    assert attrs[a].key.slots[k] in attrs[a].key.slots.Values;
  }

  lemma UninternKeeps(t: Tables, r: Ref)
    ensures UninternPart(t, r).attrs == t.attrs && UninternPart(t, r).baas == t.baas
    ensures forall s :: s in UninternPart(t, r).parts ==> s in t.parts && UninternPart(t, r).parts[s].value == t.parts[s].value
  {
  }

  // ---------------------------------------------------------------------
  // Runs

  datatype Op =
    | PartIn(value: Value)
    | PartOut(part: Ref)
    | AttrIn(fields: seq<int>, given: map<Kind, Given>)
    | AttrRef(attr: Ref)
    | AttrOut(attr: Ref)
    | AttrMake(fields: seq<int>, path: seq<int>, given: map<Kind, Given>)
    | AdvIn(table: nat, fields: seq<int>, given: map<Kind, Given>)
    | AdvOut(baa: Baa)

  /** Callers pass pointers to allocated objects and give back only references they hold. */
  ghost predicate Allowed(w: World, op: Op) {
    match op
    case PartIn(v) => true
    case PartOut(r) => r in w.h.parts
    case AttrIn(f, given) => GivenLive(w.t.parts, given)
    case AttrRef(a) => a in w.t.attrs
    case AttrOut(a) => a in w.h.attrs && a in w.t.attrs
    case AttrMake(f, p, given) => GivenLive(w.t.parts, given) && AsPath !in given
    case AdvIn(n, f, given) => GivenLive(w.t.parts, given)
    case AdvOut(b) => b in w.t.baas && b.attr in w.t.attrs
  }

  ghost function Apply(w: World, op: Op): World
    requires Allowed(w, op)
  {
    match op
    case PartIn(v) => Acquire(w, v.kind, Fresh(v.content)).0
    case PartOut(r) => World(UninternPart(w.t, r), LosePart(w.h, r))
    case AttrIn(f, given) => InternAttr(w, f, given).0
    case AttrRef(a) => RefAttr(w, a)
    case AttrOut(a) => UninternAttr(w, a)
    case AttrMake(f, p, given) => MakeAttr(w, f, p, given).0
    case AdvIn(n, f, given) => Advertise(w, n, f, given).0
    case AdvOut(b) => Unadvertise(w, b)
  }

  lemma ApplyGood(w: World, op: Op)
    requires Good(w) && Allowed(w, op)
    ensures Good(Apply(w, op))
  {
    hide Good, Acquire, InternAttr, RefAttr, UninternAttr, MakeAttr, Advertise, Unadvertise, GivenLive, Kept, SlotsStand, UninternPart;
    match op
    case PartIn(v) => AcquireGood(w, v.kind, Fresh(v.content));
    case PartOut(r) => UninternPartGood(w, r);
    case AttrIn(f, given) => InternAttrGood(w, f, given);
    case AttrRef(a) => RefAttrGood(w, a);
    case AttrOut(a) => UninternAttrGood(w, a);
    case AttrMake(f, p, given) => MakeAttrKeepsPath(w, f, p, given);
    case AdvIn(n, f, given) => AdvertiseGood(w, n, f, given);
    case AdvOut(b) => UnadvertiseGood(w, b);
  }

  const Start := World(Tables(map[], map[], map[], map[], map[], 0), Held(multiset{}, multiset{}))

  ghost predicate IsRun(ops: seq<Op>, ws: seq<World>) {
    && |ws| == |ops| + 1
    && ws[0] == Start
    && forall i :: 0 <= i < |ops| ==> Allowed(ws[i], ops[i]) && ws[i + 1] == Apply(ws[i], ops[i])
  }

  lemma StartGood()
    ensures Good(Start)
  {
  }

  /**
    Reference conservation: in every state of every run each count is the number
    of references that attributes, advertisements and callers hold, everything
    referred to is allocated, and equal values share one object.
   */
  lemma {:induction false} RunGood(ops: seq<Op>, ws: seq<World>, n: nat)
    requires IsRun(ops, ws) && n < |ws|
    ensures Good(ws[n])
  {
    if n == 0 {
      StartGood();
    } else {
      RunGood(ops, ws, n - 1);
      assert Allowed(ws[n - 1], ops[n - 1]);
      ApplyGood(ws[n - 1], ops[n - 1]);
      hide Good, Allowed, Apply;
    }
  }

  /** The values an attribute's pointers stand for. */
  ghost function Deref(parts: map<Ref, Part>, slots: map<Kind, Ref>): map<Kind, Value>
    requires Live(parts, slots)
  {
    map k | k in slots :: parts[slots[k]].value
  }

  /** On interned parts, comparing pointers compares values. */
  lemma PointersCompareValues(w: World, p: Key, q: Key)
    requires Good(w) && Live(w.t.parts, p.slots) && Live(w.t.parts, q.slots)
    ensures p == q <==> p.fields == q.fields && Deref(w.t.parts, p.slots) == Deref(w.t.parts, q.slots)
  {
    if Deref(w.t.parts, p.slots) == Deref(w.t.parts, q.slots) {
      DerefInjective(w.t.parts, w.t.partIndex, w.t.next, p.slots, q.slots);
    }
  }

  lemma DerefInjective(parts: map<Ref, Part>, index: map<Value, Ref>, next: Ref, p: map<Kind, Ref>, q: map<Kind, Ref>)
    requires PartsIndexed(parts, index, next) && Live(parts, p) && Live(parts, q)
    requires Deref(parts, p) == Deref(parts, q)
    ensures p == q
  {
    var d := Deref(parts, p);
    assert p.Keys == d.Keys == Deref(parts, q).Keys == q.Keys;
    forall k | k in p ensures k in q && p[k] == q[k] {
      assert k in q.Keys;
      assert d[k] == parts[p[k]].value;
      assert Deref(parts, q)[k] == parts[q[k]].value;
      assert index[parts[p[k]].value] == p[k];
    }
  }

  /** Two interned attributes with the same fields and equal parts are one object. */
  lemma EqualAttrsShared(ops: seq<Op>, ws: seq<World>, n: nat, a: Ref, b: Ref)
    requires IsRun(ops, ws) && n < |ws|
    requires a in ws[n].t.attrs && b in ws[n].t.attrs
    ensures
      var t := ws[n].t;
      && Live(t.parts, t.attrs[a].key.slots) && Live(t.parts, t.attrs[b].key.slots)
      && (a == b <==>
          && t.attrs[a].key.fields == t.attrs[b].key.fields
          && Deref(t.parts, t.attrs[a].key.slots) == Deref(t.parts, t.attrs[b].key.slots))
  {
    hide IsRun, Live, Deref, PartsIndexed, AttrsLive, BaasLive, PartsCounted, AttrsCounted;
    RunGood(ops, ws, n);
    AttrCount(ws[n], a);
    AttrCount(ws[n], b);
    PointersCompareValues(ws[n], ws[n].t.attrs[a].key, ws[n].t.attrs[b].key);
  }

  /** Nothing leaks: once callers and advertisements have given everything back, the tables are empty. */
  lemma NothingLeaks(ops: seq<Op>, ws: seq<World>, n: nat)
    requires IsRun(ops, ws) && n < |ws|
    requires ws[n].h == Held(multiset{}, multiset{}) && ws[n].t.baas == map[]
    ensures ws[n].t.attrs == map[] && ws[n].t.parts == map[]
    ensures ws[n].t.attrIndex == map[] && ws[n].t.partIndex == map[]
  {
    hide IsRun, Good, HeldByAttrs, HeldByBaas;
    RunGood(ops, ws, n);
    var w := ws[n];
    forall a | a in w.t.attrs ensures false {
      AttrCount(w, a);
      NoBaas(a);
    }
    assert w.t.attrs == map[];
    forall r | r in w.t.parts ensures false {
      PartCount(w, r);
      NoAttrs(r);
    }
    assert w.t.parts == map[];
    EmptyIndexes(w);
  }

  lemma NoBaas(a: Ref)
    ensures HeldByBaas(map[], a) == 0
  {
    assert BaaShares(map[], a) == map[];
  }

  lemma NoAttrs(r: Ref)
    ensures HeldByAttrs(map[], r) == 0
  {
    assert Shares(map[], r) == map[];
  }

  lemma EmptyIndexes(w: World)
    requires Good(w) && w.t.attrs == map[] && w.t.parts == map[]
    ensures w.t.attrIndex == map[] && w.t.partIndex == map[]
  {
    hide AttrsLive, BaasLive, PartsCounted, AttrsCounted;
    assert forall k :: k !in w.t.attrIndex;
    assert forall v :: v !in w.t.partIndex;
  }
}
