/** The parser undoes the encoder, for 4-byte and for 2-byte internal peers. */
module AttrRoundTrip {
  import opened Asns
  import opened AsPaths
  import opened AsPathObjects
  import opened AsPathWire
  import opened AsPathParse
  import opened AsPathRoundTrip
  import opened As4Transit
  import opened As4Exact
  import opened Options
  import opened Streams
  import opened Communities
  import opened AttrTlv
  import opened AttrCodec

  // ---------------------------------------------------------------------
  // What each record of the encoding does

  function NextHopFine(peer: Peer, addr: U32): bool {
    peer.martians || !Martian(addr)
  }

  /** An internal peer, for which no AS number is prepended on receipt. */
  ghost predicate Internal(peer: Peer) {
    peer.sort == Ibgp && peer.localAs.None?
  }

  /** The effect of the record of one type, in terms of what was sent. */
  ghost function Expected(peer: Peer, a: Attr, typ: Byte): Effect {
    if typ == BGP_ATTR_ORIGIN then (if a.origin <= 2 then Store(Origin(a.origin)) else Stop(Error))
    else if typ == BGP_ATTR_AS_PATH then
      var p := ParsePath(PutBytes(a.path, peer.as4), peer.as4);
      if p.Some? then Store(PathValue(p.value)) else Stop(Error)
    else if typ == BGP_ATTR_NEXT_HOP && a.nexthop.Some? then
      (if NextHopFine(peer, a.nexthop.value) then Store(Addr(a.nexthop.value)) else Stop(Error))
    else if typ == BGP_ATTR_MULTI_EXIT_DISC && a.med.Some? then Store(Number(a.med.value))
    else if typ == BGP_ATTR_LOCAL_PREF then Store(Number(a.localPref))
    else if typ == BGP_ATTR_ATOMIC_AGGREGATE && a.atomic then Store(Present)
    else if typ == BGP_ATTR_AGGREGATOR && a.aggregator.Some? then
      var g := a.aggregator.value;
      Store(AggregatorValue(Aggregator(Narrow(g.asn, peer.as4), g.addr)))
    else if typ == BGP_ATTR_COMMUNITIES && a.communities.Some? then
      (if a.communities.value == [] then Skip else Store(Comms(CanonSet(a.communities.value))))
    else if typ == BGP_ATTR_AS4_PATH && !peer.as4 && HoldsLarge(a.path) then
      var p := ParsePath(PutBytes(DropConfeds(a.path), true), true);
      if p.Some? then Store(PathValue(p.value)) else Stop(Error)
    else if typ == BGP_ATTR_AS4_AGGREGATOR && !peer.as4 && a.aggregator.Some? && a.aggregator.value.asn > BGP_AS_MAX then
      Store(AggregatorValue(a.aggregator.value))
    else Skip
  }

  lemma FlagsFine(a: Attr, use32bit: bool, typ: Byte)
    requires TlvFor(a, use32bit, typ).Some?
    ensures
      var t := TlvFor(a, use32bit, typ).value;
      t.typ == typ && !FlagInvalid(typ, FlagsOf(t.flags))
  {
    hide PutBytes, DropConfeds, HoldsLarge, Be32, CommBytes, AggBytes;
    assert FlagsOf(FLAG_TRANS) == Flags(false, true, false, false);
    assert FlagsOf(FLAG_OPTIONAL) == Flags(true, false, false, false);
    assert FlagsOf(FLAG_OPTIONAL + FLAG_TRANS) == Flags(true, true, false, false);
    assert FlagsOf(FLAG_TRANS + FLAG_EXTLEN) == Flags(false, true, false, true);
    assert FlagsOf(FLAG_OPTIONAL + FLAG_TRANS + FLAG_EXTLEN) == Flags(true, true, false, true);
    hide FlagsOf;
  }

  lemma AggBack(g: Aggregator, use32bit: bool)
    ensures
      var b := AggBytes(g, use32bit);
      if use32bit then |b| == 8 && Val32(b[..4]) == g.asn && Val32(b[4..]) == g.addr
      else |b| == 6 && Val16(b[..2]) == Narrow(g.asn, false) && Val32(b[2..]) == g.addr
  {
    Val32OfBe32(g.addr);
    var b := AggBytes(g, use32bit);
    if use32bit {
      Val32OfBe32(g.asn);
      assert b[..4] == Be32(g.asn) && b[4..] == Be32(g.addr);
    } else {
      Val16OfBe16(Narrow(g.asn, false));
      assert b[..2] == Be16(Narrow(g.asn, false)) && b[2..] == Be32(g.addr);
    }
    hide Be32, Be16;
  }

  lemma CommBack(s: seq<CommunityVal>)
    ensures |CommBytes(s)| == 4 * |s| && (|CommBytes(s)| == 0 <==> s == [])
    ensures CommVals(CommBytes(s)) == s
  {
    CommValsOfBytes(s);
  }

  lemma NumberBack(v: U32)
    ensures |Be32(v)| == 4 && Val32(Be32(v)) == v
  {
    Val32OfBe32(v);
  }

  lemma EffectIs(others: Others, peer: Peer, a: Attr, typ: Byte)
    requires Internal(peer) && TlvFor(a, peer.as4, typ).Some?
    ensures EffectOf(others, peer, TlvFor(a, peer.as4, typ).value) == Expected(peer, a, typ)
  {
    hide PutBytes, DropConfeds, HoldsLarge, Be32, CommBytes, CommVals, CanonSet, ParsePath, AggBytes, FlagInvalid, Martian, FlagsOf, Bad, Narrow;
    var t := TlvFor(a, peer.as4, typ).value;
    FlagsFine(a, peer.as4, typ);
    BadStops(peer, t);
    if typ == BGP_ATTR_NEXT_HOP {
      NumberBack(a.nexthop.value);
    } else if typ == BGP_ATTR_MULTI_EXIT_DISC {
      NumberBack(a.med.value);
    } else if typ == BGP_ATTR_LOCAL_PREF {
      NumberBack(a.localPref);
    } else if typ == BGP_ATTR_AGGREGATOR {
      AggBack(a.aggregator.value, peer.as4);
      NarrowWideAsn(a.aggregator.value.asn);
    } else if typ == BGP_ATTR_AS4_AGGREGATOR {
      AggBack(a.aggregator.value, true);
    } else if typ == BGP_ATTR_COMMUNITIES {
      CommBack(a.communities.value);
    }
  }

  lemma BadStops(peer: Peer, t: Tlv)
    requires Internal(peer)
    ensures Bad(peer, t) == Stop(Error)
  {
  }

  lemma NarrowWideAsn(x: Asn)
    ensures Narrow(x, true) == x
  {
  }

  lemma NoRecordNoEffect(peer: Peer, a: Attr, typ: Byte)
    requires TlvFor(a, peer.as4, typ).None?
    ensures Expected(peer, a, typ) == Skip
  {
    hide PutBytes, DropConfeds, HoldsLarge, Be32, CommBytes, CanonSet, ParsePath, AggBytes, Martian, Narrow;
  }

  // ---------------------------------------------------------------------
  // What the records leave

  ghost function Get(f: map<Byte, Value>, k: Byte): Effect {
    if k in f then Store(f[k]) else Skip
  }

  ghost predicate AllExpected(peer: Peer, a: Attr, f: map<Byte, Value>) {
    forall k :: Get(f, k) == if k in Sent then Expected(peer, a, k) else Skip
  }

  /** The encoding is accepted exactly when no record stops the parse, and then leaves what was sent. */
  lemma EncodingParsed(others: Others, peer: Peer, a: Attr)
    requires Internal(peer) && SizesFit(a, peer.as4)
    ensures
      var r := ParseTlvs(others, peer, Encode(a, peer.as4), St(map[], {}));
      && (r.Accepted? <==> forall k :: k in Sent ==> !Expected(peer, a, k).Stop?)
      && (r.Accepted? ==> AllExpected(peer, a, r.st.fields))
  {
    hide ParseTlvs, FoldTlvs, EffectOf, TlvFor, Expected, Concat, EncodeTypes, Records, SizesFit, DistinctTypes, TlvFits, Leaves;
    var st := St(map[], {});
    var ts := Records(a, peer.as4, Sent);
    EncodeIsRecords(a, peer.as4, Sent);
    RecordsMembers(a, peer.as4, Sent);
    RecordsDistinct(a, peer.as4, Sent);
    ParseConcat(others, peer, ts, st);
    FoldAccepts(others, peer, ts, st);
    EffectsOfRecords(others, peer, a, ts);
    if FoldTlvs(others, peer, ts, st).Accepted? {
      FoldLeaves(others, peer, ts, st);
      LeavesExpected(others, peer, a, ts, FoldTlvs(others, peer, ts, st).st.fields);
    }
  }

  lemma EffectsOfRecords(others: Others, peer: Peer, a: Attr, ts: seq<Tlv>)
    requires Internal(peer)
    requires forall t :: t in ts <==> t.typ in Sent && TlvFor(a, peer.as4, t.typ) == Some(t)
    ensures NoneStops(others, peer, ts) <==> forall k :: k in Sent ==> !Expected(peer, a, k).Stop?
    ensures forall t :: t in ts ==> EffectOf(others, peer, t) == Expected(peer, a, t.typ)
  {
    hide EffectOf, TlvFor, Expected;
    forall t | t in ts ensures EffectOf(others, peer, t) == Expected(peer, a, t.typ) {
      EffectIs(others, peer, a, t.typ);
    }
    if NoneStops(others, peer, ts) {
      forall k | k in Sent ensures !Expected(peer, a, k).Stop? {
        RecordOrNone(peer, a, k, ts);
      }
    }
  }

  lemma RecordOrNone(peer: Peer, a: Attr, k: Byte, ts: seq<Tlv>)
    requires k in Sent
    requires forall t :: t in ts <==> t.typ in Sent && TlvFor(a, peer.as4, t.typ) == Some(t)
    ensures TlvFor(a, peer.as4, k).Some? ==> TlvFor(a, peer.as4, k).value in ts && TlvFor(a, peer.as4, k).value.typ == k
    ensures TlvFor(a, peer.as4, k).None? ==> Expected(peer, a, k) == Skip && forall t :: t in ts ==> t.typ != k
  {
    hide Expected;
    if TlvFor(a, peer.as4, k).Some? {
      FlagsFine(a, peer.as4, k);
    } else {
      NoRecordNoEffect(peer, a, k);
    }
    hide TlvFor;
  }

  lemma LeavesExpected(others: Others, peer: Peer, a: Attr, ts: seq<Tlv>, f: map<Byte, Value>)
    requires forall t :: t in ts <==> t.typ in Sent && TlvFor(a, peer.as4, t.typ) == Some(t)
    requires forall t :: t in ts ==> EffectOf(others, peer, t) == Expected(peer, a, t.typ)
    requires NoneStops(others, peer, ts)
    requires Leaves(others, peer, ts, map[], f)
    ensures AllExpected(peer, a, f)
  {
    hide EffectOf, TlvFor, Expected;
    forall k ensures Get(f, k) == if k in Sent then Expected(peer, a, k) else Skip {
      if k in Sent {
        RecordOrNone(peer, a, k, ts);
      }
    }
  }

  // ---------------------------------------------------------------------
  // The round trip

  /** The attribute as sent, type by type. */
  ghost function FieldOf(a: Attr, typ: Byte): Effect {
    if typ == BGP_ATTR_ORIGIN then Store(Origin(a.origin))
    else if typ == BGP_ATTR_AS_PATH then Store(PathValue(a.path))
    else if typ == BGP_ATTR_NEXT_HOP && a.nexthop.Some? then Store(Addr(a.nexthop.value))
    else if typ == BGP_ATTR_MULTI_EXIT_DISC && a.med.Some? then Store(Number(a.med.value))
    else if typ == BGP_ATTR_LOCAL_PREF then Store(Number(a.localPref))
    else if typ == BGP_ATTR_ATOMIC_AGGREGATE && a.atomic then Store(Present)
    else if typ == BGP_ATTR_AGGREGATOR && a.aggregator.Some? then Store(AggregatorValue(a.aggregator.value))
    else if typ == BGP_ATTR_COMMUNITIES && a.communities.Some? then Store(Comms(a.communities.value))
    else Skip
  }

  /** The parse gives back the attribute; the 4-byte helpers may still be noted beside it. */
  ghost predicate GivesBack(a: Attr, r: Final) {
    r.Attribute? && forall k :: 1 <= k <= 8 ==> Get(r.fields, k) == FieldOf(a, k)
  }

  /** Communities that survive: none, or a non-empty sorted set. */
  ghost predicate SameCommunities(a: Attr) {
    a.communities.Some? ==> a.communities.value != [] && StrictlyIncreasing(a.communities.value)
  }

  /** What can be sent: a defined origin, a usable next hop, and a non-empty sorted set of communities. */
  ghost predicate Sendable(peer: Peer, a: Attr) {
    && a.origin <= 2
    && a.nexthop.Some? && NextHopFine(peer, a.nexthop.value)
    && SameCommunities(a)
  }

  /** Paths that can be written: normal, and within the wire limits. */
  ghost predicate PathSendable(p: Path) {
    Normal(p) && HopsFit(Hops(p))
  }

  /** Paths that a peer of either kind reads back. */
  ghost predicate Returns(peer: Peer, p: Path) {
    peer.as4 || !HoldsLarge(p) || (Leads(p) && forall x :: x in ConfedMembers(p) ==> x <= BGP_AS_MAX)
  }

  /** The helper AS4_PATH, if one is sent, can be parsed. */
  ghost predicate HelperRead(peer: Peer, p: Path) {
    !peer.as4 && HoldsLarge(p) ==> ParsePath(PutBytes(DropConfeds(p), true), true).Some?
  }

  lemma NothingInFront(p: Path)
    ensures Singles([]) + Hops(p) == Hops(p)
  {
  }

  lemma WideReads(p: Path)
    requires Normal(p) && HopsFit(Hops(p))
    ensures ParsePath(PutBytes(p, true), true) == Some(p)
  {
    hide ParsePath, PutBytes, ReadBack, Normal, HopsFit, WireFits;
    HopsFitWire(p);
    ReadBackIsParse(p, true);
    WireRoundTrip(p);
  }

  /** The 2-byte path is read; with its helper it comes back as the path exactly in the cases named. */
  lemma {:induction false} NarrowReads(peer: Peer, p: Path)
    requires !peer.as4 && PathSendable(p)
    ensures
      var two, four := ParsePath(PutBytes(p, false), false), ParsePath(PutBytes(DropConfeds(p), true), true);
      && two.Some?
      && (HoldsLarge(p) ==> (Returns(peer, p) <==> four.Some? && Reconcile(two.value, four.value) == p))
      && (!HoldsLarge(p) ==> two.value == p)
  {
    hide ParsePath, PutBytes, Normal, HopsFit, HoldsLarge, Reconcile, DropConfeds, Norm, Leads, ConfedMembers;
    NothingInFront(p);
    As4TransparencyExact(p, []);
    NormalIsFixed(p);
    assert Prefixed([], p) == p;
    assert Relay(Announce(p), []) == Some(Announce(p));
    assert Transit(p, []) == Receive(Announce(p));
    var u, q := RelayHops(p, []);
  }

  lemma {:induction false} PathsRead(peer: Peer, a: Attr)
    requires PathSendable(a.path)
    ensures !Expected(peer, a, BGP_ATTR_AS_PATH).Stop?
    ensures !Expected(peer, a, BGP_ATTR_AS4_PATH).Stop? <==> HelperRead(peer, a.path)
    ensures Returns(peer, a.path) ==> HelperRead(peer, a.path)
  {
    hide ParsePath, PutBytes, Normal, HopsFit, HoldsLarge, Reconcile, DropConfeds, Leads, ConfedMembers;
    if peer.as4 {
      WideReads(a.path);
    } else {
      NarrowReads(peer, a.path);
    }
  }

  /** No record stops the parse exactly when origin and next hop are fine and the helper can be parsed. */
  lemma StopsIff(peer: Peer, a: Attr)
    requires PathSendable(a.path)
    ensures (forall k :: k in Sent ==> !Expected(peer, a, k).Stop?) <==>
      a.origin <= 2 && (a.nexthop.Some? ==> NextHopFine(peer, a.nexthop.value)) && HelperRead(peer, a.path)
  {
    hide ParsePath, PutBytes, HoldsLarge, DropConfeds, PathSendable, CanonSet, NextHopFine, Narrow, HelperRead, Returns;
    PathsRead(peer, a);
    assert Sent[0] == BGP_ATTR_ORIGIN && Sent[2] == BGP_ATTR_NEXT_HOP && Sent[8] == BGP_ATTR_AS4_PATH;
    assert Expected(peer, a, BGP_ATTR_ORIGIN).Stop? <==> a.origin > 2;
    assert Expected(peer, a, BGP_ATTR_NEXT_HOP).Stop? <==> a.nexthop.Some? && !NextHopFine(peer, a.nexthop.value);
    forall k ensures Expected(peer, a, k).Stop? ==> k in {BGP_ATTR_ORIGIN, BGP_ATTR_AS_PATH, BGP_ATTR_NEXT_HOP, BGP_ATTR_AS4_PATH} {
      StopsOnly(peer, a, k);
    }
    hide Expected;
  }

  lemma StopsOnly(peer: Peer, a: Attr, k: Byte)
    ensures Expected(peer, a, k).Stop? ==> k in {BGP_ATTR_ORIGIN, BGP_ATTR_AS_PATH, BGP_ATTR_NEXT_HOP, BGP_ATTR_AS4_PATH}
  {
    hide ParsePath, PutBytes, HoldsLarge, DropConfeds, CanonSet, NextHopFine, Narrow;
  }

  /** AS4_AGGREGATOR is only sent beside AS_TRANS, so it never makes the receiver ignore AS4_PATH. */
  lemma AggregatorMunged(peer: Peer, a: Attr, f: map<Byte, Value>)
    requires !peer.as4 && AllExpected(peer, a, f)
    ensures !IgnoreAs4Path(f)
    ensures Get(MungeAggregator(f), BGP_ATTR_AGGREGATOR) == FieldOf(a, BGP_ATTR_AGGREGATOR)
    ensures forall k :: k != BGP_ATTR_AGGREGATOR ==> Get(MungeAggregator(f), k) == Get(f, k)
  {
    hide ParsePath, PutBytes, HoldsLarge, DropConfeds, CanonSet, NextHopFine;
    assert BGP_ATTR_AGGREGATOR in Sent by { assert Sent[6] == BGP_ATTR_AGGREGATOR; }
    assert BGP_ATTR_AS4_AGGREGATOR in Sent by { assert Sent[9] == BGP_ATTR_AS4_AGGREGATOR; }
    assert Get(f, BGP_ATTR_AGGREGATOR) == Expected(peer, a, BGP_ATTR_AGGREGATOR);
    assert Get(f, BGP_ATTR_AS4_AGGREGATOR) == Expected(peer, a, BGP_ATTR_AS4_AGGREGATOR);
  }

  /** The reconciled path is the path that was sent exactly in the cases named. */
  lemma {:induction false} PathMunged(peer: Peer, a: Attr, f: map<Byte, Value>)
    requires !peer.as4 && PathSendable(a.path) && HelperRead(peer, a.path) && AllExpected(peer, a, f) && !IgnoreAs4Path(f)
    ensures PathAt(f, BGP_ATTR_AS_PATH).Some?
    ensures MungePath(f, PathAt(f, BGP_ATTR_AS_PATH).value) == a.path <==> Returns(peer, a.path)
  {
    hide ParsePath, PutBytes, HoldsLarge, DropConfeds, CanonSet, NextHopFine, PathSendable, Reconcile, IgnoreAs4Path, Leads, ConfedMembers;
    NarrowReads(peer, a.path);
    assert BGP_ATTR_AS_PATH in Sent by { assert Sent[1] == BGP_ATTR_AS_PATH; }
    assert BGP_ATTR_AS4_PATH in Sent by { assert Sent[8] == BGP_ATTR_AS4_PATH; }
    assert Get(f, BGP_ATTR_AS_PATH) == Expected(peer, a, BGP_ATTR_AS_PATH);
    assert Get(f, BGP_ATTR_AS4_PATH) == Expected(peer, a, BGP_ATTR_AS4_PATH);
  }

  lemma WidePath(peer: Peer, a: Attr, f: map<Byte, Value>)
    requires peer.as4 && PathSendable(a.path) && AllExpected(peer, a, f)
    ensures PathAt(f, BGP_ATTR_AS_PATH) == Some(a.path)
    ensures Get(f, BGP_ATTR_AGGREGATOR) == FieldOf(a, BGP_ATTR_AGGREGATOR)
  {
    hide ParsePath, PutBytes, HoldsLarge, DropConfeds, CanonSet, NextHopFine, Normal, HopsFit;
    WideReads(a.path);
    assert BGP_ATTR_AS_PATH in Sent by { assert Sent[1] == BGP_ATTR_AS_PATH; }
    assert BGP_ATTR_AGGREGATOR in Sent by { assert Sent[6] == BGP_ATTR_AGGREGATOR; }
    assert Get(f, BGP_ATTR_AS_PATH) == Expected(peer, a, BGP_ATTR_AS_PATH);
    assert Get(f, BGP_ATTR_AGGREGATOR) == Expected(peer, a, BGP_ATTR_AGGREGATOR);
  }

  /** After the 4-byte helpers are worked in, the aggregator is the one sent, the path too in the cases named, and the rest is untouched. */
  lemma {:induction false} Finished(peer: Peer, a: Attr, f: map<Byte, Value>)
    requires Internal(peer) && PathSendable(a.path) && HelperRead(peer, a.path) && AllExpected(peer, a, f) && !Missing(peer, f)
    ensures Finish(peer, f).Attribute?
    ensures
      var g := Finish(peer, f).fields;
      && (Get(g, BGP_ATTR_AS_PATH) == Store(PathValue(a.path)) <==> Returns(peer, a.path))
      && Get(g, BGP_ATTR_AGGREGATOR) == FieldOf(a, BGP_ATTR_AGGREGATOR)
      && forall k :: k != BGP_ATTR_AS_PATH && k != BGP_ATTR_AGGREGATOR ==> Get(g, k) == Get(f, k)
  {
    hide Missing, AllExpected, PathSendable, MungePath, MungeAggregator, IgnoreAs4Path, HelperRead, HoldsLarge, Leads, ConfedMembers;
    if peer.as4 {
      WidePath(peer, a, f);
    } else {
      hide Returns;
      AggregatorMunged(peer, a, f);
      PathMunged(peer, a, f);
    }
  }

  /** Internal updates need their next hop. */
  lemma MissingIff(peer: Peer, a: Attr, f: map<Byte, Value>)
    requires Internal(peer) && AllExpected(peer, a, f) && (forall k :: k in Sent ==> !Expected(peer, a, k).Stop?)
    ensures Missing(peer, f) <==> a.nexthop.None?
  {
    hide Expected, AllExpected;
    assert Sent[0] == BGP_ATTR_ORIGIN && Sent[1] == BGP_ATTR_AS_PATH && Sent[2] == BGP_ATTR_NEXT_HOP && Sent[4] == BGP_ATTR_LOCAL_PREF;
    forall k | k in {BGP_ATTR_ORIGIN, BGP_ATTR_AS_PATH, BGP_ATTR_NEXT_HOP, BGP_ATTR_LOCAL_PREF}
      ensures k in f <==> k != BGP_ATTR_NEXT_HOP || a.nexthop.Some?
    {
      StoredIff(peer, a, f, k);
      MandatorySent(peer, a, k);
    }
    assert BGP_ATTR_MP_REACH_NLRI !in f by { NotSent(peer, a, f, BGP_ATTR_MP_REACH_NLRI); }
    assert BGP_ATTR_ORIGIN in f.Keys;
  }

  lemma StoredIff(peer: Peer, a: Attr, f: map<Byte, Value>, k: Byte)
    requires AllExpected(peer, a, f) && k in Sent
    ensures k in f <==> Expected(peer, a, k).Store?
  {
    hide Expected;
    assert Get(f, k) == Expected(peer, a, k);
  }

  lemma NotSent(peer: Peer, a: Attr, f: map<Byte, Value>, k: Byte)
    requires AllExpected(peer, a, f) && k !in Sent
    ensures k !in f
  {
    hide Expected;
    assert Get(f, k) == Skip;
  }

  lemma MandatorySent(peer: Peer, a: Attr, k: Byte)
    requires k in {BGP_ATTR_ORIGIN, BGP_ATTR_AS_PATH, BGP_ATTR_NEXT_HOP, BGP_ATTR_LOCAL_PREF} && !Expected(peer, a, k).Stop?
    ensures Expected(peer, a, k).Store? <==> k != BGP_ATTR_NEXT_HOP || a.nexthop.Some?
  {
    hide ParsePath, PutBytes, HoldsLarge, DropConfeds, CanonSet, NextHopFine, Narrow;
  }

  lemma CommunitiesIff(peer: Peer, a: Attr)
    ensures Expected(peer, a, BGP_ATTR_COMMUNITIES) == FieldOf(a, BGP_ATTR_COMMUNITIES) <==> SameCommunities(a)
  {
    hide ParsePath, PutBytes, HoldsLarge, DropConfeds, CanonSet, StrictlyIncreasing;
    if a.communities.Some? && a.communities.value != [] {
      var s := a.communities.value;
      assert StrictlyIncreasing(CanonSet(s));
      if StrictlyIncreasing(s) {
        CanonSetFixed(s);
      }
    }
  }

  lemma OthersAsSent(peer: Peer, a: Attr, k: Byte)
    requires 1 <= k <= 8 && k !in {BGP_ATTR_AS_PATH, BGP_ATTR_AGGREGATOR, BGP_ATTR_COMMUNITIES}
    requires a.origin <= 2 && (a.nexthop.Some? ==> NextHopFine(peer, a.nexthop.value))
    ensures k in Sent && Expected(peer, a, k) == FieldOf(a, k)
  {
    hide ParsePath, PutBytes, HoldsLarge, DropConfeds, CanonSet, NextHopFine;
    assert Sent[k - 1] == k;
  }

  /**
    Codec round trip: for an internal peer of either kind, parsing what was
    encoded gives the attribute back exactly when it has a defined origin, a next
    hop the receiver takes, no communities or a non-empty sorted set of them, and
    a path that comes back: always from a 4-byte peer, and from a 2-byte peer when
    it has no number above 65535 or its confederation segments come first and
    have none.
   */
  lemma {:induction false} CodecRoundTrip(others: Others, peer: Peer, a: Attr)
    requires Internal(peer) && PathSendable(a.path) && SizesFit(a, peer.as4)
    ensures GivesBack(a, ParseAttributes(others, peer, Encode(a, peer.as4))) <==> Sendable(peer, a) && Returns(peer, a.path)
  {
    hide ParseTlvs, Encode, Finish, Expected, Missing, SizesFit, AllExpected, PathSendable, FieldOf, StrictlyIncreasing, NextHopFine, HelperRead, Returns;
    var r := ParseTlvs(others, peer, Encode(a, peer.as4), St(map[], {}));
    EncodingParsed(others, peer, a);
    StopsIff(peer, a);
    PathsRead(peer, a);
    if r.Accepted? {
      var f := r.st.fields;
      MissingIff(peer, a, f);
      if Missing(peer, f) {
        FinishMissing(peer, f);
      } else {
        Finished(peer, a, f);
        BackIff(peer, a, f, Finish(peer, f));
      }
    }
  }

  lemma FinishMissing(peer: Peer, f: map<Byte, Value>)
    requires Missing(peer, f)
    ensures Finish(peer, f).Failed?
  {
  }

  lemma BackIff(peer: Peer, a: Attr, f: map<Byte, Value>, r: Final)
    requires AllExpected(peer, a, f) && r.Attribute?
    requires a.origin <= 2 && a.nexthop.Some? && NextHopFine(peer, a.nexthop.value)
    requires Get(r.fields, BGP_ATTR_AGGREGATOR) == FieldOf(a, BGP_ATTR_AGGREGATOR)
    requires forall k :: k != BGP_ATTR_AS_PATH && k != BGP_ATTR_AGGREGATOR ==> Get(r.fields, k) == Get(f, k)
    ensures GivesBack(a, r) <==> SameCommunities(a) && Get(r.fields, BGP_ATTR_AS_PATH) == Store(PathValue(a.path))
  {
    CommunitiesIff(peer, a);
    assert FieldOf(a, BGP_ATTR_AS_PATH) == Store(PathValue(a.path));
    hide Expected, FieldOf, SameCommunities, NextHopFine;
    assert BGP_ATTR_COMMUNITIES in Sent by { assert Sent[7] == BGP_ATTR_COMMUNITIES; }
    assert Get(f, BGP_ATTR_COMMUNITIES) == Expected(peer, a, BGP_ATTR_COMMUNITIES);
    forall k | 1 <= k <= 8 && k !in {BGP_ATTR_AS_PATH, BGP_ATTR_AGGREGATOR, BGP_ATTR_COMMUNITIES}
      ensures Get(r.fields, k) == FieldOf(a, k)
    {
      OthersAsSent(peer, a, k);
    }
  }
}
