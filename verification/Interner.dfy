/** The interning tables as they are updated in place. */
module Interner {
  import opened Interning
  import opened InternRuns

  lemma FoundAttrIn(w: World, key: Key)
    requires Good(w) && key in w.t.attrIndex
    ensures w.t.attrIndex[key] in w.t.attrs
  {
    hide PartsIndexed, AttrsIndexed, AttrsLive, BaasLive, PartsCounted, AttrsCounted;
    FoundAttr(w.t.attrs, w.t.attrIndex, w.t.next, key);
  }

  class InternTables {
    var parts: map<Ref, Part>
    var partIndex: map<Value, Ref>
    var attrs: map<Ref, Attr>
    var attrIndex: map<Key, Ref>
    var baas: map<Baa, nat>
    var next: Ref
    /** References held by callers. */
    ghost var held: Held

    ghost function View(): World
      reads this
    {
      World(Tables(parts, partIndex, attrs, attrIndex, baas, next), held)
    }

    ghost predicate Valid()
      reads this
    {
      Good(View())
    }

    constructor ()
      ensures Valid() && View() == Start
    {
      parts, partIndex, attrs, attrIndex, baas, next := map[], map[], map[], map[], map[], 0;
      held := Held(multiset{}, multiset{});
      new;
      StartGood();
    }

    /** `aspath_intern` and its likes: find or allocate, then count. */
    method InternValue(v: Value) returns (r: Ref)
      requires Valid()
      modifies this
      ensures Valid()
      ensures (View(), r) == Acquire(old(View()), v.kind, Fresh(v.content))
    {
      hide Good, Kept, Stands;
      ghost var w := View();
      AcquireGood(w, v.kind, Fresh(v.content));
      InternPartGood(w, v);
      assert Value(v.kind, v.content) == v;
      if v in partIndex {
        r := partIndex[v];
      } else {
        r := next;
        parts := parts[r := Part(v, 0)];
        partIndex := partIndex[v := r];
        next := next + 1;
      }
      parts := parts[r := parts[r].(refcnt := parts[r].refcnt + 1)];
      assert parts == InternPart(w.t, v).0.parts;
      held := HoldPart(held, r);
    }

    /** `aspath_unintern` and its likes: `freed` when the caller's pointer is set to NULL. */
    method Release(r: Ref) returns (freed: bool)
      requires Valid() && r in held.parts
      modifies this
      ensures Valid()
      ensures View() == World(UninternPart(old(View()).t, r), LosePart(old(held), r))
      ensures freed <==> !(old(held).parts[r] > 1 || PointedTo(old(attrs), r))
    {
      hide Good, PointedTo;
      ghost var w := View();
      UninternPartGood(w, r);
      if parts[r].refcnt > 0 {
        parts := parts[r := parts[r].(refcnt := parts[r].refcnt - 1)];
      }
      freed := parts[r].refcnt == 0;
      if freed {
        partIndex := partIndex - {parts[r].value};
        parts := parts - {r};
        assert parts == w.t.parts - {r};
      }
      held := LosePart(held, r);
    }

    /** One pointer of `bgp_attr_intern`: intern the caller's own object, or count an interned one. */
    method TakeSlot(given: map<Kind, Given>, k: Kind, slots: map<Kind, Ref>) returns (slots': map<Kind, Ref>)
      requires Valid() && GivenLive(parts, given)
      modifies this
      ensures Valid() && GivenLive(parts, given)
      ensures Got(View(), slots') == AcquireSlot(Got(old(View()), slots), given, k)
    {
      hide Good, Kept, GivenLive, Stands;
      slots' := slots;
      if k in given {
        ghost var w := View();
        if given[k].Interned? {
          GivenOne(parts, given, k);
        }
        AcquireGood(w, k, given[k]);
        KeptGiven(parts, Acquire(w, k, given[k]).0.t.parts, given);
        match given[k] {
          case Fresh(c) =>
            var r := InternValue(Value(k, c));
            slots' := slots[k := r];
          case Interned(r) =>
            parts := parts[r := parts[r].(refcnt := parts[r].refcnt + 1)];
            held := HoldPart(held, r);
            slots' := slots[k := r];
        }
      }
    }

    /** `bgp_attr_intern`. */
    method Intern(fields: seq<int>, given: map<Kind, Given>) returns (a: Ref)
      requires Valid() && GivenLive(parts, given)
      modifies this
      ensures Valid()
      ensures (View(), a) == InternAttr(old(View()), fields, given)
    {
      hide Good, AcquireSlot, GivenLive;
      ghost var w := View();
      InternAttrGood(w, fields, given);
      var slots := TakeSlot(given, AsPath, map[]);
      slots := TakeSlot(given, Community, slots);
      slots := TakeSlot(given, ExtCommunity, slots);
      slots := TakeSlot(given, Cluster, slots);
      slots := TakeSlot(given, Transit, slots);
      a := Lookup(Key(fields, slots));
      held := HoldAttr(held, a, slots);
    }

    /** The hash lookup of `bgp_attr_intern`, with the count. */
    method Lookup(key: Key) returns (a: Ref)
      requires Valid()
      modifies this
      ensures held == old(held)
      ensures (View().t, a) == TakeAttr(old(View()).t, key)
    {
      hide Good;
      ghost var w := View();
      if key in attrIndex {
        FoundAttrIn(w, key);
        a := attrIndex[key];
      } else {
        a := next;
        attrs := attrs[a := Attr(key, 0)];
        attrIndex := attrIndex[key := a];
        next := next + 1;
      }
      attrs := attrs[a := attrs[a].(refcnt := attrs[a].refcnt + 1)];
      assert attrs == TakeAttr(w.t, key).0.attrs;
    }

    /** `bgp_attr_refcount`. */
    method Count(a: Ref)
      requires Valid() && a in attrs
      modifies this
      ensures Valid() && View() == RefAttr(old(View()), a)
    {
      hide Good, AcquireSlot, GivenLive, Kept, SlotRefs;
      ghost var w := View();
      RefAttrGood(w, a);
      AttrCount(w, a);
      var slots := attrs[a].key.slots;
      ghost var given := Borrowed(slots);
      BorrowedLive(parts, slots);
      var given' := map k | k in slots :: Interned(slots[k]);
      ghost var g := AcquireSlots(w, given);
      AcquireSlotsGood(w, given);
      var got := TakeSlot(given', AsPath, map[]);
      got := TakeSlot(given', Community, got);
      got := TakeSlot(given', ExtCommunity, got);
      got := TakeSlot(given', Cluster, got);
      got := TakeSlot(given', Transit, got);
      attrs := attrs[a := attrs[a].(refcnt := attrs[a].refcnt + 1)];
      held := HoldAttr(held, a, slots);
    }

    /** One pointer of `bgp_attr_unintern_sub`. */
    method DropSlot(slots: map<Kind, Ref>, k: Kind)
      requires Valid() && (k in slots ==> slots[k] in held.parts)
      modifies this
      ensures Valid()
      ensures View() == ReleaseSlot(old(View()), slots, k)
    {
      hide Good;
      if k in slots {
        var freed := Release(slots[k]);
      }
    }

    /** `bgp_attr_unintern_sub`. */
    method DropSlots(slots: map<Kind, Ref>, ghost base: multiset<Ref>)
      requires Valid() && Apart(slots) && held.parts == base + SlotRefs(slots)
      modifies this
      ensures Valid()
      ensures View() == ReleaseSlots(old(View()), slots)
    {
      hide Good, ReleaseSlot, Apart, Releasing, SlotRefs;
      ghost var w := View();
      NothingReleased(w, base, slots);
      StillHeld(w, base, slots, w, {}, AsPath);
      DropSlot(slots, AsPath);
      ghost var done: set<Kind> := {} + {AsPath};
      StillHeld(w, base, slots, View(), done, Community);
      DropSlot(slots, Community);
      done := done + {Community};
      StillHeld(w, base, slots, View(), done, ExtCommunity);
      DropSlot(slots, ExtCommunity);
      done := done + {ExtCommunity};
      StillHeld(w, base, slots, View(), done, Cluster);
      DropSlot(slots, Cluster);
      done := done + {Cluster};
      StillHeld(w, base, slots, View(), done, Transit);
      DropSlot(slots, Transit);
    }

    /** `bgp_attr_unintern`: `freed` when the caller's pointer is set to NULL. */
    method Unintern(a: Ref) returns (freed: bool)
      requires Valid() && a in held.attrs
      modifies this
      ensures Valid()
      ensures a in old(attrs) && View() == UninternAttr(old(View()), a)
      ensures freed <==> a !in attrs
    {
      hide Good, SlotRefs, Live, Apart, ReleaseSlots;
      ghost var w := View();
      DropAttrGood(w, a);
      UninternAttrGood(w, a);
      AttrCount(w, a);
      var key := attrs[a].key;
      LiveApart(parts, key.slots);
      attrs := attrs[a := attrs[a].(refcnt := attrs[a].refcnt - 1)];
      freed := attrs[a].refcnt == 0;
      if freed {
        attrIndex := attrIndex - {key};
        attrs := attrs - {a};
        assert attrs == w.t.attrs - {a};
      }
      held := LoseAttr(held, a, key.slots);
      DropSlots(key.slots, w.h.parts);
    }

    /** `bgp_attr_default_intern` and `bgp_attr_aggregate_intern`: the path of the result is never freed. */
    method Make(fields: seq<int>, path: seq<int>, given: map<Kind, Given>) returns (a: Ref)
      requires Valid() && GivenLive(parts, given) && AsPath !in given
      modifies this
      ensures Valid()
      ensures (View(), a) == MakeAttr(old(View()), fields, path, given)
      ensures a in attrs && AsPath in attrs[a].key.slots && attrs[a].key.slots[AsPath] in parts
    {
      hide Good, Acquire, InternAttr, GivenLive, Kept, SlotsStand, PointedTo, UninternPart;
      ghost var w := View();
      MakeAttrKeepsPath(w, fields, path, given);
      AcquireGood(w, AsPath, Fresh(path));
      var r := InternValue(Value(AsPath, path));
      ghost var w1 := View();
      KeptGiven(w.t.parts, parts, given);
      GivenPlus(parts, given, AsPath, r);
      InternAttrGood(w1, fields, given[AsPath := Interned(r)]);
      a := Intern(fields, given[AsPath := Interned(r)]);
      SlotIs(parts, given[AsPath := Interned(r)], attrs[a].key.slots, AsPath, r);
      var freed := Release(attrs[a].key.slots[AsPath]);
    }

    /** `bgp_advertise_intern`. */
    method Advertised(table: nat, fields: seq<int>, given: map<Kind, Given>) returns (b: Baa)
      requires Valid() && GivenLive(parts, given)
      modifies this
      ensures Valid()
      ensures (View(), b) == Advertise(old(View()), table, fields, given)
    {
      hide Good, InternAttr, GivenLive;
      AdvertiseGood(View(), table, fields, given);
      var a := Intern(fields, given);
      b := Baa(table, a);
      ghost var w := View();
      if b !in baas {
        baas := baas[b := 0];
      }
      baas := baas[b := baas[b] + 1];
      held := held.(attrs := held.attrs - multiset{a});
      assert baas == TakeBaa(w, b).t.baas;
    }

    /** `bgp_advertise_unintern`: the attribute of an entry that stays is not freed. */
    method Unadvertised(b: Baa) returns (freed: bool)
      requires Valid() && b in baas
      modifies this
      ensures Valid()
      ensures b.attr in old(attrs) && View() == Unadvertise(old(View()), b)
      ensures freed <==> old(baas)[b] == 1
      ensures b in baas ==> b.attr in attrs
    {
      hide Good, UninternAttr;
      ghost var w := View();
      UnadvertiseGood(w, b);
      BaaCount(w, b);
      DropBaaGood(w, b);
      var n := if baas[b] > 0 then baas[b] - 1 else 0;
      freed := n == 0;
      if freed {
        baas := baas - {b};
      } else {
        baas := baas[b := n];
      }
      held := held.(attrs := held.attrs + multiset{b.attr});
      var gone := Unintern(b.attr);
    }
  }

  lemma BaaCount(w: World, b: Baa)
    requires Good(w) && b in w.t.baas
    ensures w.t.baas[b] > 0
  {
    hide PartsIndexed, AttrsIndexed, AttrsLive, PartsCounted, AttrsCounted;
  }

  /** A pointer not yet given back is still held, and giving it back goes on with the rest. */
  lemma StillHeld(w0: World, base: multiset<Ref>, slots: map<Kind, Ref>, w: World, done: set<Kind>, k: Kind)
    requires Releasing(w0, base, slots, w, done) && Apart(slots) && k !in done
    ensures k in slots ==> slots[k] in w.h.parts
    ensures Releasing(w0, base, slots, ReleaseSlot(w, slots, k), done + {k})
  {
    hide Good, ReleaseSlot, Apart;
    ReleaseSlotReleasing(w0, base, slots, w, done, k);
    if k in slots {
      assert (slots - done)[k] == slots[k];
      assert slots[k] in (slots - done).Values;
    }
  }
}
