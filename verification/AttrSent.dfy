/** What is sent: the records of an encoding, in the numbers of section 4.3 of RFC 4271 and of RFC 6793. */
module AttrSent {
  import opened Asns
  import opened AsPaths
  import opened AsPathObjects
  import opened AsPathWire
  import opened AsPathBytes
  import opened As4Transit
  import opened Options
  import opened Streams
  import opened Communities
  import opened AttrTlv
  import opened AttrCodec
  import opened AttrMeaning

  /** Flags, type, a length of two bytes where the fourth flag bit says so and else of one, and the value. */
  lemma {:induction false} HeaderMeans(t: Tlv)
    requires TlvFits(t)
    ensures
      var b := TlvBytes(t);
      var n := if t.flags / 16 % 2 == 1 then 2 else 1;
      && |b| == 2 + n + |t.value|
      && b[0] == t.flags && b[1] == t.typ && Spelled(b[2..2 + n]) == |t.value| && b[2 + n..] == t.value
  {
    FlagBits(t.flags);
    hide FlagsOf;
    var b := TlvBytes(t);
    if FlagsOf(t.flags).ext {
      assert b[2..4] == Be16(|t.value|);
      SpelledTwo(b[2..4]);
    } else {
      SpelledOne(b[2..3]);
    }
  }

  lemma {:induction false} SpelledOne(b: seq<Byte>)
    requires |b| == 1
    ensures Spelled(b) == b[0]
  {
    assert b[..0] == [];
  }

  lemma {:induction false} Word(v: U32)
    ensures |Be32(v)| == 4 && Spelled(Be32(v)) == v
  {
    NumberBytes(v, true);
  }

  /** The value of the record of one type, if the type is sent. */
  ghost predicate ValueSent(a: Attr, use32bit: bool, k: Byte, v: seq<Byte>) {
    if k == 1 then v == [a.origin]
    else if k == 2 then v == PutBytes(a.path, use32bit)
    else if k == 3 then a.nexthop.Some? && |v| == 4 && Spelled(v) == a.nexthop.value
    else if k == 4 then a.med.Some? && |v| == 4 && Spelled(v) == a.med.value
    else if k == 5 then |v| == 4 && Spelled(v) == a.localPref
    else if k == 6 then a.atomic && v == []
    else if k == 7 then
      var n := if use32bit then 4 else 2;
      && a.aggregator.Some? && |v| == n + 4
      && Spelled(v[..n]) == (if use32bit || a.aggregator.value.asn <= 65535 then a.aggregator.value.asn else 23456)
      && Spelled(v[n..]) == a.aggregator.value.addr
    else if k == 8 then
      && a.communities.Some? && |v| == 4 * |a.communities.value|
      && forall i :: 0 <= i < |a.communities.value| ==> Spelled(v[4 * i..4 * i + 4]) == a.communities.value[i]
    else if k == 17 then
      && !use32bit && (exists x :: x in Members(a.path) && x > 65535)
      && v == PutBytes(DropConfeds(a.path), true)
    else
      && k == 18 && !use32bit && a.aggregator.Some? && a.aggregator.value.asn > 65535 && |v| == 8
      && Spelled(v[..4]) == a.aggregator.value.asn && Spelled(v[4..]) == a.aggregator.value.addr
  }

  /** Is there anything to send under this type? */
  ghost predicate TypeSent(a: Attr, use32bit: bool, k: Byte) {
    || k in {1, 2, 5}
    || (k == 3 && a.nexthop.Some?)
    || (k == 4 && a.med.Some?)
    || (k == 6 && a.atomic)
    || (k == 7 && a.aggregator.Some?)
    || (k == 8 && a.communities.Some?)
    || (k == 17 && !use32bit && exists x :: x in Members(a.path) && x > 65535)
    || (k == 18 && !use32bit && a.aggregator.Some? && a.aggregator.value.asn > 65535)
  }

  lemma {:induction false} CommunityBytes(s: seq<CommunityVal>)
    ensures |CommBytes(s)| == 4 * |s|
    ensures forall i :: 0 <= i < |s| ==> Spelled(CommBytes(s)[4 * i..4 * i + 4]) == s[i]
  {
    hide Spelled, Be32;
    if s != [] {
      Word(s[0]);
      var b, t := Be32(s[0]), CommBytes(s[1..]);
      CommunityBytes(s[1..]);
      assert CommBytes(s) == b + t;
      forall i | 0 <= i < |s| ensures Spelled(CommBytes(s)[4 * i..4 * i + 4]) == s[i] {
        if i == 0 {
          assert (b + t)[0..4] == b;
        } else {
          assert (b + t)[4 * i..4 * i + 4] == t[4 * (i - 1)..4 * (i - 1) + 4];
        }
      }
    }
  }

  lemma {:induction false} AggregatorBytes(g: Aggregator, use32bit: bool)
    ensures
      var n := if use32bit then 4 else 2;
      var v := AggBytes(g, use32bit);
      && |v| == n + 4
      && Spelled(v[..n]) == (if use32bit || g.asn <= 65535 then g.asn else 23456)
      && Spelled(v[n..]) == g.addr
  {
    NumberBytes(g.asn, use32bit);
    Word(g.addr);
    hide Spelled, Be32;
    var n := if use32bit then 4 else 2;
    var x, v := EncodeAsn(g.asn, use32bit), AggBytes(g, use32bit);
    assert v == x + Be32(g.addr);
    assert v[..n] == x && v[n..] == Be32(g.addr);
  }

  lemma {:induction false} LargeIff(p: Path)
    ensures HoldsLarge(p) <==> exists x :: x in Members(p) && x > 65535
  {
    hide Members;
  }

  lemma {:induction false} RecordSent(a: Attr, use32bit: bool, k: Byte)
    ensures TlvFor(a, use32bit, k).Some? <==> TypeSent(a, use32bit, k)
    ensures TlvFor(a, use32bit, k).Some? ==>
      var t := TlvFor(a, use32bit, k).value;
      t.typ == k && FlagsRight(k, t.flags) && ValueSent(a, use32bit, k, t.value)
  {
    hide PutBytes, DropConfeds, HoldsLarge, Members, Spelled, Be32, CommBytes, AggBytes;
    LargeIff(a.path);
    if a.nexthop.Some? {
      Word(a.nexthop.value);
    }
    if a.med.Some? {
      Word(a.med.value);
    }
    Word(a.localPref);
    if a.aggregator.Some? {
      AggregatorBytes(a.aggregator.value, use32bit);
      AggregatorBytes(a.aggregator.value, true);
    }
    if a.communities.Some? {
      CommunityBytes(a.communities.value);
    }
  }

  /**
    The encoding is one record for each type there is something to send under, in
    ascending order, with the bits of its type and the value it should have.
   */
  lemma {:induction false} EncodingMeans(a: Attr, use32bit: bool) returns (ts: seq<Tlv>)
    requires SizesFit(a, use32bit)
    ensures forall i :: 0 <= i < |ts| ==> TlvFits(ts[i])
    ensures Encode(a, use32bit) == Concat(ts)
    ensures TypesAscend(ts)
    ensures forall t :: t in ts ==> FlagsRight(t.typ, t.flags) && ValueSent(a, use32bit, t.typ, t.value)
    ensures forall k :: TypeSent(a, use32bit, k) <==> exists t :: t in ts && t.typ == k
  {
    hide TlvFor, EncodeTypes, Records, SizesFit, TypeSent, ValueSent, FlagsRight, TlvFits, Concat;
    ts := Records(a, use32bit, Sent);
    EncodeIsRecords(a, use32bit, Sent);
    RecordsMembers(a, use32bit, Sent);
    RecordsAscend(a, use32bit, Sent);
    forall t | t in ts ensures FlagsRight(t.typ, t.flags) && ValueSent(a, use32bit, t.typ, t.value) {
      RecordSent(a, use32bit, t.typ);
    }
    forall k ensures TypeSent(a, use32bit, k) <==> exists t :: t in ts && t.typ == k {
      RecordSent(a, use32bit, k);
      if TypeSent(a, use32bit, k) {
        SentTypes(a, use32bit, k);
        assert TlvFor(a, use32bit, k).value in ts;
      }
    }
  }

  lemma {:induction false} SentTypes(a: Attr, use32bit: bool, k: Byte)
    requires TypeSent(a, use32bit, k)
    ensures k in Sent
  {
    hide Members;
    assert Sent[0] == 1 && Sent[1] == 2 && Sent[2] == 3 && Sent[3] == 4 && Sent[4] == 5;
    assert Sent[5] == 6 && Sent[6] == 7 && Sent[7] == 8 && Sent[8] == 17 && Sent[9] == 18;
  }

  ghost predicate TypesAscend(ts: seq<Tlv>) {
    forall i, j :: 0 <= i < j < |ts| ==> ts[i].typ < ts[j].typ
  }

  lemma {:induction false} AscendCons(t: Tlv, rest: seq<Tlv>)
    requires TypesAscend(rest) && forall u :: u in rest ==> t.typ < u.typ
    ensures TypesAscend([t] + rest)
  {
    var ts := [t] + rest;
    forall i, j | 0 <= i < j < |ts| ensures ts[i].typ < ts[j].typ {
      assert ts[j] == rest[j - 1] && ts[j] in rest;
      assert i > 0 ==> ts[i] == rest[i - 1];
    }
  }

  lemma {:induction false} TailAbove(types: seq<Byte>, k: Byte)
    requires Ascending(types) && types != [] && k in types[1..]
    ensures types[0] < k
  {
    var j :| 0 <= j < |types| - 1 && types[1..][j] == k;
    assert types[j + 1] == k;
  }

  lemma {:induction false} RecordsAscend(a: Attr, use32bit: bool, types: seq<Byte>)
    requires SizesFit(a, use32bit) && Ascending(types)
    ensures TypesAscend(Records(a, use32bit, types))
    decreases |types|
  {
    hide TlvFor, SizesFit, TypesAscend, TypeSent, ValueSent, FlagsRight;
    if types == [] {
      NoneAscend();
    } else {
      var rest := Records(a, use32bit, types[1..]);
      RecordsAscend(a, use32bit, types[1..]);
      RecordsMembers(a, use32bit, types[1..]);
      RecordSent(a, use32bit, types[0]);
      forall t | t in rest ensures types[0] < t.typ {
        TailAbove(types, t.typ);
      }
      if TlvFor(a, use32bit, types[0]).Some? {
        AscendCons(TlvFor(a, use32bit, types[0]).value, rest);
      } else {
        assert [] + rest == rest;
      }
    }
  }

  lemma {:induction false} NoneAscend()
    ensures TypesAscend([])
  {
  }
}
