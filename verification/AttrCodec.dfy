/**
  The attribute encoder for an internal IPv4-unicast peer, and the end of
  the parser.
 */
module AttrCodec {
  import opened Asns
  import opened AsPaths
  import opened AsPathObjects
  import opened AsPathWire
  import opened As4Transit
  import opened Options
  import opened Streams
  import opened Communities
  import opened AttrTlv

  // ---------------------------------------------------------------------
  // The end of `bgp_attr_parse`

  datatype Final = Attribute(fields: map<Byte, Value>) | Failed(verdict: Verdict)

  function PathAt(fields: map<Byte, Value>, k: Byte): Option<Path> {
    if k in fields && fields[k].PathValue? then Some(fields[k].path) else None
  }

  function AggAt(fields: map<Byte, Value>, k: Byte): Option<Aggregator> {
    if k in fields && fields[k].AggregatorValue? then Some(fields[k].agg) else None
  }

  /** `bgp_attr_check`: is a mandatory attribute missing? */
  function Missing(peer: Peer, fields: map<Byte, Value>): bool {
    if peer.restart && fields == map[] then false
    else if fields.Keys == {BGP_ATTR_MP_UNREACH_NLRI} then false
    else
      || BGP_ATTR_ORIGIN !in fields
      || BGP_ATTR_AS_PATH !in fields
      || (BGP_ATTR_NEXT_HOP !in fields && BGP_ATTR_MP_REACH_NLRI !in fields)
      || (peer.sort == Ibgp && BGP_ATTR_LOCAL_PREF !in fields)
  }

  /**
    The aggregator part of `bgp_attr_munge_as4_attrs`: AS4_AGGREGATOR without
    AGGREGATOR stands in for it, but its address is not taken over.
   */
  function MungeAggregator(fields: map<Byte, Value>): map<Byte, Value> {
    match AggAt(fields, BGP_ATTR_AS4_AGGREGATOR)
    case None => fields
    case Some(four) =>
      match AggAt(fields, BGP_ATTR_AGGREGATOR)
      case None => fields[BGP_ATTR_AGGREGATOR := AggregatorValue(Aggregator(four.asn, 0))]
      case Some(two) => if two.asn != BGP_AS_TRANS then fields else fields[BGP_ATTR_AGGREGATOR := AggregatorValue(four)]
  }

  /** An AS4_AGGREGATOR that comes alone is taken over unchanged exactly when its address is zero. */
  lemma AggregatorAlone(fields: map<Byte, Value>, g: Aggregator)
    requires AggAt(fields, BGP_ATTR_AS4_AGGREGATOR) == Some(g) && AggAt(fields, BGP_ATTR_AGGREGATOR).None?
    ensures AggAt(MungeAggregator(fields), BGP_ATTR_AGGREGATOR) == Some(g) <==> g.addr == 0
  {
  }

  /** Both came and the 2-byte one does not say AS_TRANS: the 4-byte attributes are ignored. */
  function IgnoreAs4Path(fields: map<Byte, Value>): bool {
    && AggAt(fields, BGP_ATTR_AS4_AGGREGATOR).Some?
    && AggAt(fields, BGP_ATTR_AGGREGATOR).Some?
    && AggAt(fields, BGP_ATTR_AGGREGATOR).value.asn != BGP_AS_TRANS
  }

  ghost function MungePath(fields: map<Byte, Value>, path: Path): Path {
    if !IgnoreAs4Path(fields) && PathAt(fields, BGP_ATTR_AS4_PATH).Some? then
      Reconcile(path, PathAt(fields, BGP_ATTR_AS4_PATH).value)
    else path
  }

  /** `bgp_attr_munge_as4_attrs`. */
  ghost function Munge(peer: Peer, fields: map<Byte, Value>, path: Path): map<Byte, Value> {
    if peer.as4 then fields
    else MungeAggregator(fields)[BGP_ATTR_AS_PATH := PathValue(MungePath(fields, path))]
  }

  /** The checks of `bgp_attr_aspath_check`. */
  function PathRefused(peer: Peer, path: Path): bool {
    || (peer.sort == ConfedPeer && !(path != [] && IsConfed(path[0].kind)))
    || (peer.sort == Ebgp && exists i :: 0 <= i < |path| && IsConfed(path[i].kind))
    || (peer.firstAs.Some? && peer.sort == Ebgp && !(path != [] && path[0].kind == AsSequence && path[0].asns != [] && path[0].asns[0] == peer.firstAs.value))
  }

  function WithLocalAs(peer: Peer, path: Path): Path {
    if peer.localAs.Some? then AddAsns(path, peer.localAs.value, AsSequence, 1) else path
  }

  ghost function Finish(peer: Peer, fields: map<Byte, Value>): Final {
    if Missing(peer, fields) then Failed(Error)
    else match PathAt(fields, BGP_ATTR_AS_PATH)
      case None => Attribute(fields)
      case Some(path) =>
        var f := Munge(peer, fields, path);
        match PathAt(f, BGP_ATTR_AS_PATH)
        case None => Attribute(f)
        case Some(q) =>
          if PathRefused(peer, q) then Failed(Error)
          else Attribute(f[BGP_ATTR_AS_PATH := PathValue(WithLocalAs(peer, q))])
  }

  /** `bgp_attr_parse`. */
  ghost function ParseAttributes(others: Others, peer: Peer, b: seq<Byte>): Final {
    match ParseTlvs(others, peer, b, St(map[], {}))
    case Rejected(v) => Failed(v)
    case Accepted(st) => Finish(peer, st.fields)
  }

  /** The order of the records of a message does not change the attribute it gives. */
  lemma ParseOrderIndependent(others: Others, peer: Peer, ts: seq<Tlv>, us: seq<Tlv>)
    requires forall i :: 0 <= i < |ts| ==> TlvFits(ts[i])
    requires forall i :: 0 <= i < |us| ==> TlvFits(us[i])
    requires multiset(ts) == multiset(us)
    requires ParseAttributes(others, peer, Concat(ts)).Attribute?
    ensures ParseAttributes(others, peer, Concat(us)) == ParseAttributes(others, peer, Concat(ts))
  {
    hide ParseTlvs, Finish, Concat;
    OrderIndependent(others, peer, ts, us);
  }

  /** Every attribute accepted comes from records of pairwise different types that fill the bytes exactly. */
  lemma ParseConsumesAll(others: Others, peer: Peer, b: seq<Byte>) returns (ts: seq<Tlv>)
    requires ParseAttributes(others, peer, b).Attribute?
    ensures forall i :: 0 <= i < |ts| ==> TlvFits(ts[i])
    ensures Concat(ts) == b && DistinctTypes(ts) && NoneStops(others, peer, ts)
  {
    hide ParseTlvs, Finish, Concat, FoldTlvs;
    ts := AcceptedRecords(others, peer, b, St(map[], {}));
    FoldAccepts(others, peer, ts, St(map[], {}));
  }

  // ---------------------------------------------------------------------
  // Encoding

  /** An attribute to be sent to an internal peer, which always gets LOCAL_PREF. */
  datatype Attr = Attr(
    origin: Byte,
    path: Path,
    nexthop: Option<U32>,
    med: Option<U32>,
    localPref: U32,
    atomic: bool,
    aggregator: Option<Aggregator>,
    communities: Option<seq<CommunityVal>>)

  const Sent: seq<Byte> := [
    BGP_ATTR_ORIGIN, BGP_ATTR_AS_PATH, BGP_ATTR_NEXT_HOP, BGP_ATTR_MULTI_EXIT_DISC, BGP_ATTR_LOCAL_PREF,
    BGP_ATTR_ATOMIC_AGGREGATE, BGP_ATTR_AGGREGATOR, BGP_ATTR_COMMUNITIES, BGP_ATTR_AS4_PATH, BGP_ATTR_AS4_AGGREGATOR]

  function AggBytes(g: Aggregator, use32bit: bool): seq<Byte> {
    (if use32bit then Be32(g.asn) else Be16(Narrow(g.asn, false))) + Be32(g.addr)
  }

  /** An attribute with the path written behind a length patched in afterwards, cut to 16 bits. */
  function PathBytes(flags: Byte, typ: Byte, p: Path, use32bit: bool): seq<Byte> {
    [flags, typ] + Be16(PutCount(p, use32bit) % 0x1_0000) + PutBytes(p, use32bit)
  }

  /** What `bgp_packet_attribute` writes for one attribute type. */
  ghost function BytesFor(a: Attr, use32bit: bool, typ: Byte): seq<Byte> {
    if typ == BGP_ATTR_ORIGIN then
      [FLAG_TRANS, BGP_ATTR_ORIGIN, 1, a.origin]
    else if typ == BGP_ATTR_AS_PATH then
      PathBytes(FLAG_TRANS + FLAG_EXTLEN, BGP_ATTR_AS_PATH, a.path, use32bit)
    else if typ == BGP_ATTR_NEXT_HOP && a.nexthop.Some? then
      [FLAG_TRANS, BGP_ATTR_NEXT_HOP, 4] + Be32(a.nexthop.value)
    else if typ == BGP_ATTR_MULTI_EXIT_DISC && a.med.Some? then
      [FLAG_OPTIONAL, BGP_ATTR_MULTI_EXIT_DISC, 4] + Be32(a.med.value)
    else if typ == BGP_ATTR_LOCAL_PREF then
      [FLAG_TRANS, BGP_ATTR_LOCAL_PREF, 4] + Be32(a.localPref)
    else if typ == BGP_ATTR_ATOMIC_AGGREGATE && a.atomic then
      [FLAG_TRANS, BGP_ATTR_ATOMIC_AGGREGATE, 0]
    else if typ == BGP_ATTR_AGGREGATOR && a.aggregator.Some? then
      [FLAG_OPTIONAL + FLAG_TRANS, BGP_ATTR_AGGREGATOR, if use32bit then 8 else 6] + AggBytes(a.aggregator.value, use32bit)
    else if typ == BGP_ATTR_COMMUNITIES && a.communities.Some? then
      var n := 4 * |a.communities.value|;
      (if n > 255 then [FLAG_OPTIONAL + FLAG_TRANS + FLAG_EXTLEN, BGP_ATTR_COMMUNITIES] + Be16(n % 0x1_0000)
       else [FLAG_OPTIONAL + FLAG_TRANS, BGP_ATTR_COMMUNITIES, n]) + CommBytes(a.communities.value)
    else if typ == BGP_ATTR_AS4_PATH && !use32bit && HoldsLarge(a.path) then
      PathBytes(FLAG_TRANS + FLAG_OPTIONAL + FLAG_EXTLEN, BGP_ATTR_AS4_PATH, DropConfeds(a.path), true)
    else if typ == BGP_ATTR_AS4_AGGREGATOR && !use32bit && a.aggregator.Some? && a.aggregator.value.asn > BGP_AS_MAX then
      [FLAG_OPTIONAL + FLAG_TRANS, BGP_ATTR_AS4_AGGREGATOR, 8] + AggBytes(a.aggregator.value, true)
    else []
  }

  ghost function EncodeTypes(a: Attr, use32bit: bool, types: seq<Byte>): seq<Byte> {
    if types == [] then [] else BytesFor(a, use32bit, types[0]) + EncodeTypes(a, use32bit, types[1..])
  }

  /** `bgp_packet_attribute`: the types in ascending order. */
  ghost function Encode(a: Attr, use32bit: bool): seq<Byte> {
    EncodeTypes(a, use32bit, Sent)
  }

  // ---------------------------------------------------------------------
  // The encoding as records

  /** The record of one type. */
  ghost function TlvFor(a: Attr, use32bit: bool, typ: Byte): Option<Tlv> {
    if typ == BGP_ATTR_ORIGIN then Some(Tlv(FLAG_TRANS, typ, [a.origin]))
    else if typ == BGP_ATTR_AS_PATH then Some(Tlv(FLAG_TRANS + FLAG_EXTLEN, typ, PutBytes(a.path, use32bit)))
    else if typ == BGP_ATTR_NEXT_HOP && a.nexthop.Some? then Some(Tlv(FLAG_TRANS, typ, Be32(a.nexthop.value)))
    else if typ == BGP_ATTR_MULTI_EXIT_DISC && a.med.Some? then Some(Tlv(FLAG_OPTIONAL, typ, Be32(a.med.value)))
    else if typ == BGP_ATTR_LOCAL_PREF then Some(Tlv(FLAG_TRANS, typ, Be32(a.localPref)))
    else if typ == BGP_ATTR_ATOMIC_AGGREGATE && a.atomic then Some(Tlv(FLAG_TRANS, typ, []))
    else if typ == BGP_ATTR_AGGREGATOR && a.aggregator.Some? then
      Some(Tlv(FLAG_OPTIONAL + FLAG_TRANS, typ, AggBytes(a.aggregator.value, use32bit)))
    else if typ == BGP_ATTR_COMMUNITIES && a.communities.Some? then
      var b := CommBytes(a.communities.value);
      Some(Tlv(FLAG_OPTIONAL + FLAG_TRANS + (if |b| > 255 then FLAG_EXTLEN else 0), typ, b))
    else if typ == BGP_ATTR_AS4_PATH && !use32bit && HoldsLarge(a.path) then
      Some(Tlv(FLAG_TRANS + FLAG_OPTIONAL + FLAG_EXTLEN, typ, PutBytes(DropConfeds(a.path), true)))
    else if typ == BGP_ATTR_AS4_AGGREGATOR && !use32bit && a.aggregator.Some? && a.aggregator.value.asn > BGP_AS_MAX then
      Some(Tlv(FLAG_OPTIONAL + FLAG_TRANS, typ, AggBytes(a.aggregator.value, true)))
    else None
  }

  /** Lengths are written in full: byte counts are right and fit in their fields. */
  ghost predicate SizesFit(a: Attr, use32bit: bool) {
    && PutCount(a.path, use32bit) == |PutBytes(a.path, use32bit)| < 0x1_0000
    && PutCount(DropConfeds(a.path), true) == |PutBytes(DropConfeds(a.path), true)| < 0x1_0000
    && (a.communities.Some? ==> 4 * |a.communities.value| < 0x1_0000)
  }

  /** What is written for a type is exactly its record, or nothing. */
  ghost predicate IsRecord(a: Attr, use32bit: bool, typ: Byte) {
    match TlvFor(a, use32bit, typ)
    case None => BytesFor(a, use32bit, typ) == []
    case Some(t) => t.typ == typ && TlvFits(t) && BytesFor(a, use32bit, typ) == TlvBytes(t)
  }

  lemma BytesAreRecord(a: Attr, use32bit: bool, typ: Byte)
    requires SizesFit(a, use32bit)
    ensures IsRecord(a, use32bit, typ)
  {
    hide IsRecord, SizesFit;
    if typ == BGP_ATTR_AS_PATH || typ == BGP_ATTR_AS4_PATH {
      PathIsRecord(a, use32bit, typ);
    } else if typ == BGP_ATTR_COMMUNITIES {
      CommunitiesAreRecord(a, use32bit);
    } else if typ == BGP_ATTR_AGGREGATOR || typ == BGP_ATTR_AS4_AGGREGATOR {
      AggregatorIsRecord(a, use32bit, typ);
    } else {
      FixedIsRecord(a, use32bit, typ);
    }
  }

  lemma PathIsRecord(a: Attr, use32bit: bool, typ: Byte)
    requires SizesFit(a, use32bit) && typ in {BGP_ATTR_AS_PATH, BGP_ATTR_AS4_PATH}
    ensures IsRecord(a, use32bit, typ)
  {
    hide PutBytes, PutCount, DropConfeds, HoldsLarge, TlvBytes, FlagsOf, TlvFits;
    if TlvFor(a, use32bit, typ).Some? {
      LongRecord(TlvFor(a, use32bit, typ).value);
    }
  }

  lemma CommunitiesAreRecord(a: Attr, use32bit: bool)
    requires SizesFit(a, use32bit)
    ensures IsRecord(a, use32bit, BGP_ATTR_COMMUNITIES)
  {
    hide CommBytes, TlvBytes, FlagsOf, TlvFits, PutBytes, PutCount, DropConfeds;
    if a.communities.Some? {
      var t := TlvFor(a, use32bit, BGP_ATTR_COMMUNITIES).value;
      if |t.value| > 255 {
        LongRecord(t);
      } else {
        ShortRecord(t);
      }
    }
  }

  lemma AggregatorIsRecord(a: Attr, use32bit: bool, typ: Byte)
    requires typ in {BGP_ATTR_AGGREGATOR, BGP_ATTR_AS4_AGGREGATOR}
    ensures IsRecord(a, use32bit, typ)
  {
    hide TlvBytes, FlagsOf, TlvFits, Be32, Narrow;
    Be32Length();
    if TlvFor(a, use32bit, typ).Some? {
      ShortRecord(TlvFor(a, use32bit, typ).value);
    }
  }

  lemma FixedIsRecord(a: Attr, use32bit: bool, typ: Byte)
    requires typ !in {BGP_ATTR_AS_PATH, BGP_ATTR_AS4_PATH, BGP_ATTR_COMMUNITIES, BGP_ATTR_AGGREGATOR, BGP_ATTR_AS4_AGGREGATOR}
    ensures IsRecord(a, use32bit, typ)
  {
    hide TlvBytes, FlagsOf, TlvFits, Be32;
    Be32Length();
    if TlvFor(a, use32bit, typ).Some? {
      ShortRecord(TlvFor(a, use32bit, typ).value);
    }
  }

  /** A one-byte length. */
  lemma ShortRecord(t: Tlv)
    requires t.flags in {FLAG_TRANS, FLAG_OPTIONAL, FLAG_OPTIONAL + FLAG_TRANS} && |t.value| < 256
    ensures TlvFits(t) && TlvBytes(t) == [t.flags, t.typ, |t.value|] + t.value
  {
  }

  /** A two-byte length. */
  lemma LongRecord(t: Tlv)
    requires t.flags in {FLAG_TRANS + FLAG_EXTLEN, FLAG_OPTIONAL + FLAG_TRANS + FLAG_EXTLEN} && |t.value| < 0x1_0000
    ensures TlvFits(t) && TlvBytes(t) == [t.flags, t.typ] + Be16(|t.value|) + t.value
  {
  }

  lemma Be32Length()
    ensures forall v :: 0 <= v < 0x1_0000_0000 ==> |Be32(v)| == 4
  {
  }

  ghost function Records(a: Attr, use32bit: bool, types: seq<Byte>): seq<Tlv> {
    if types == [] then []
    else
      var t := TlvFor(a, use32bit, types[0]);
      (if t.None? then [] else [t.value]) + Records(a, use32bit, types[1..])
  }

  lemma {:induction false} EncodeIsRecords(a: Attr, use32bit: bool, types: seq<Byte>)
    requires SizesFit(a, use32bit)
    ensures forall i :: 0 <= i < |Records(a, use32bit, types)| ==> TlvFits(Records(a, use32bit, types)[i])
    ensures EncodeTypes(a, use32bit, types) == Concat(Records(a, use32bit, types))
    decreases |types|
  {
    hide BytesFor, TlvFor, TlvBytes, TlvFits, SizesFit;
    if types != [] {
      BytesAreRecord(a, use32bit, types[0]);
      EncodeIsRecords(a, use32bit, types[1..]);
      var rest := Records(a, use32bit, types[1..]);
      if TlvFor(a, use32bit, types[0]).Some? {
        assert Records(a, use32bit, types)[1..] == rest;
      } else {
        assert [] + rest == rest;
      }
    }
  }

  /** The records are those of the types, each with its own type. */
  lemma {:induction false} RecordsMembers(a: Attr, use32bit: bool, types: seq<Byte>)
    requires SizesFit(a, use32bit)
    ensures forall t :: t in Records(a, use32bit, types) <==> t.typ in types && TlvFor(a, use32bit, t.typ) == Some(t)
    decreases |types|
  {
    hide BytesFor, TlvFor, TlvBytes, TlvFits, SizesFit;
    if types != [] {
      BytesAreRecord(a, use32bit, types[0]);
      RecordsMembers(a, use32bit, types[1..]);
      assert types == [types[0]] + types[1..];
    }
  }

  ghost predicate Ascending(types: seq<Byte>) {
    forall i, j :: 0 <= i < j < |types| ==> types[i] < types[j]
  }

  lemma {:induction false} RecordsDistinct(a: Attr, use32bit: bool, types: seq<Byte>)
    requires SizesFit(a, use32bit) && Ascending(types)
    ensures DistinctTypes(Records(a, use32bit, types))
    decreases |types|
  {
    hide BytesFor, TlvFor, TlvBytes, TlvFits, SizesFit;
    if types != [] {
      BytesAreRecord(a, use32bit, types[0]);
      RecordsMembers(a, use32bit, types[1..]);
      RecordsDistinct(a, use32bit, types[1..]);
      var rest := Records(a, use32bit, types[1..]);
      forall t | t in rest ensures t.typ != types[0] {
        var i :| 0 <= i < |types| - 1 && types[1..][i] == t.typ;
        assert types[i + 1] == t.typ;
      }
      if TlvFor(a, use32bit, types[0]).Some? {
        var all := Records(a, use32bit, types);
        assert all[1..] == rest;
        DistinctCons(all);
      } else {
        assert [] + rest == rest;
      }
    }
  }
}
