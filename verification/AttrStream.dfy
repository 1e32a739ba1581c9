/** `bgp_attr_parse` and `bgp_packet_attribute` as they move over a stream. */
module AttrStream {
  import opened Asns
  import opened AsPaths
  import opened AsPathObjects
  import opened AsPathLaws
  import opened AsPathWire
  import opened AsPathParse
  import opened As4Transit
  import opened Options
  import opened Streams
  import opened Communities
  import opened AttrTlv
  import opened AttrCodec

  // ---------------------------------------------------------------------
  // Reading

  /** A malformed value, with the cursor moved behind the record when it is ignored. */
  method Reject(s: Stream, peer: Peer, t: Tlv, end: nat) returns (e: Effect)
    modifies s`getp
    ensures e == Bad(peer, t)
    ensures !e.Stop? ==> s.getp == end
  {
    var v := Malformed(peer, t.typ, FlagsOf(t.flags));
    s.getp := end;
    if v.None? {
      return Skip;
    }
    return Stop(if v.value == NotifyPls then Error else v.value);
  }

  /** The 4-byte value of NEXT_HOP, MULTI_EXIT_DISC or LOCAL_PREF. */
  method ReadWord(s: Stream, others: Others, peer: Peer, t: Tlv) returns (e: Effect)
    requires t.typ in {BGP_ATTR_NEXT_HOP, BGP_ATTR_MULTI_EXIT_DISC, BGP_ATTR_LOCAL_PREF}
    requires s.getp + |t.value| <= |s.data| && t.value == s.data[s.getp..s.getp + |t.value|]
    modifies s`getp
    ensures e == Handle(others, peer, t)
    ensures !e.Stop? ==> s.getp == old(s.getp) + |t.value|
  {
    hide Bad, Val32;
    var end := s.getp + |t.value|;
    if |t.value| != 4 {
      e := Reject(s, peer, t, end);
      return;
    }
    if t.typ == BGP_ATTR_LOCAL_PREF && peer.sort == Ebgp {
      s.getp := s.getp + 4;
      return Skip;
    }
    var v := s.GetL();
    assert v == Val32(t.value);
    if t.typ == BGP_ATTR_NEXT_HOP {
      if Martian(v) && !peer.martians {
        e := Reject(s, peer, t, end);
        return;
      }
      return Store(Addr(v));
    }
    return Store(Number(v));
  }

  /** AS_PATH or AS4_PATH. */
  method ReadPath(s: Stream, others: Others, peer: Peer, t: Tlv) returns (e: Effect)
    requires t.typ in {BGP_ATTR_AS_PATH, BGP_ATTR_AS4_PATH}
    requires s.getp + |t.value| <= |s.data| && t.value == s.data[s.getp..s.getp + |t.value|]
    modifies s`getp
    ensures e == Handle(others, peer, t)
    ensures !e.Stop? ==> s.getp == old(s.getp) + |t.value|
  {
    hide Bad, ParsePath;
    var end := s.getp + |t.value|;
    var p := AsPathParse.Parse(s, |t.value|, peer.as4 || t.typ == BGP_ATTR_AS4_PATH);
    if p.None? {
      e := Reject(s, peer, t, end);
      return;
    }
    return Store(PathValue(p.value));
  }

  /** AGGREGATOR or AS4_AGGREGATOR. */
  method ReadAggregator(s: Stream, others: Others, peer: Peer, t: Tlv) returns (e: Effect)
    requires t.typ in {BGP_ATTR_AGGREGATOR, BGP_ATTR_AS4_AGGREGATOR}
    requires s.getp + |t.value| <= |s.data| && t.value == s.data[s.getp..s.getp + |t.value|]
    modifies s`getp
    ensures e == Handle(others, peer, t)
    ensures !e.Stop? ==> s.getp == old(s.getp) + |t.value|
  {
    hide Bad, Val32, Val16;
    var wide := peer.as4 || t.typ == BGP_ATTR_AS4_AGGREGATOR;
    var wanted := if wide then 8 else 6;
    if |t.value| != wanted {
      e := Reject(s, peer, t, s.getp + |t.value|);
      return;
    }
    ghost var g := s.getp;
    if wide {
      var asn := s.GetL();
      var addr := s.GetL();
      assert t.value[..4] == s.data[g..g + 4] && t.value[4..] == s.data[g + 4..g + 8];
      return Store(AggregatorValue(Aggregator(asn, addr)));
    } else {
      var asn := s.GetW();
      var addr := s.GetL();
      assert t.value[..2] == s.data[g..g + 2] && t.value[2..] == s.data[g + 2..g + 6];
      return Store(AggregatorValue(Aggregator(asn, addr)));
    }
  }

  lemma CommValsSnoc(b: seq<Byte>, i: nat)
    requires 4 * i + 4 <= |b|
    ensures CommVals(b[..4 * i + 4]) == CommVals(b[..4 * i]) + [Val32(b[4 * i..4 * i + 4])]
    decreases i
  {
    hide Val32;
    if i == 0 {
      assert b[..4][..4] == b[0..4] && b[..4][4..] == [];
    } else {
      var c := b[4..];
      CommValsSnoc(c, i - 1);
      assert b[..4 * i + 4][4..] == c[..4 * (i - 1) + 4] && b[..4 * i + 4][..4] == b[..4];
      assert b[..4 * i][4..] == c[..4 * (i - 1)] && b[..4 * i][..4] == b[..4];
      assert c[4 * (i - 1)..4 * (i - 1) + 4] == b[4 * i..4 * i + 4];
    }
  }

  /** COMMUNITIES. */
  method ReadCommunities(s: Stream, others: Others, peer: Peer, t: Tlv) returns (e: Effect)
    requires t.typ == BGP_ATTR_COMMUNITIES
    requires s.getp + |t.value| <= |s.data| && t.value == s.data[s.getp..s.getp + |t.value|]
    modifies s`getp
    ensures e == Handle(others, peer, t)
    ensures !e.Stop? ==> s.getp == old(s.getp) + |t.value|
  {
    hide Bad, Val32, CommVals;
    var end := s.getp + |t.value|;
    if |t.value| == 0 {
      return Skip;
    }
    if |t.value| % 4 != 0 {
      e := Reject(s, peer, t, end);
      return;
    }
    ghost var g := s.getp;
    var vals: seq<CommunityVal> := [];
    NoComms(t.value[..0]);
    for i := 0 to |t.value| / 4
      invariant s.getp == g + 4 * i
      invariant vals == CommVals(t.value[..4 * i])
    {
      CommValsSnoc(t.value, i);
      var v := s.GetL();
      SliceOfSlice(s.data, g, |t.value|, 4 * i, 4 * i + 4);
      vals := vals + [v];
    }
    assert t.value[..4 * (|t.value| / 4)] == t.value;
    var sorted := UniqSort(vals);
    return Store(Comms(sorted));
  }

  lemma SliceOfSlice<T>(d: seq<T>, g: nat, n: nat, i: nat, j: nat)
    requires i <= j <= n && g + n <= |d|
    ensures d[g..g + n][i..j] == d[g + i..g + j]
  {
    var e := d[g..g + n];
    forall k | i <= k < j ensures e[k] == d[g + k] {
    }
    assert e[i..j] == d[g + i..g + j];
  }

  lemma NoComms(b: seq<Byte>)
    requires b == []
    ensures CommVals(b) == []
  {
  }

  /** The switch of `bgp_attr_parse`. */
  method ReadValue(s: Stream, others: Others, peer: Peer, t: Tlv) returns (e: Effect)
    requires s.getp + |t.value| <= |s.data| && t.value == s.data[s.getp..s.getp + |t.value|]
    modifies s`getp
    ensures e == Handle(others, peer, t)
    ensures !e.Stop? ==> s.getp == old(s.getp) + |t.value|
  {
    var end := s.getp + |t.value|;
    if t.typ in {BGP_ATTR_NEXT_HOP, BGP_ATTR_MULTI_EXIT_DISC, BGP_ATTR_LOCAL_PREF} {
      e := ReadWord(s, others, peer, t);
    } else if t.typ in {BGP_ATTR_AS_PATH, BGP_ATTR_AS4_PATH} {
      e := ReadPath(s, others, peer, t);
    } else if t.typ in {BGP_ATTR_AGGREGATOR, BGP_ATTR_AS4_AGGREGATOR} {
      e := ReadAggregator(s, others, peer, t);
    } else if t.typ == BGP_ATTR_COMMUNITIES {
      e := ReadCommunities(s, others, peer, t);
    } else if t.typ == BGP_ATTR_ORIGIN {
      if |t.value| != 1 {
        e := Reject(s, peer, t, end);
        return;
      }
      var code := s.GetC();
      if code > 2 {
        e := Reject(s, peer, t, end);
        return;
      }
      e := Store(Origin(code));
    } else if t.typ == BGP_ATTR_ATOMIC_AGGREGATE {
      if |t.value| != 0 {
        e := Reject(s, peer, t, end);
        return;
      }
      e := Store(Present);
    } else {
      var r := others(t.typ, t.flags, t.value);
      match r {
        case OtherStop(v) =>
          e := Stop(if v == NotifyPls then Error else v);
        case OtherOk(stores, consumed) =>
          s.getp := s.getp + consumed;
          e := if consumed != |t.value| then Stop(Error) else if stores then Store(Other(t.value)) else Skip;
      }
    }
  }

  /** One round of the loop behind the header: flags, then value. */
  method ReadBody(s: Stream, others: Others, peer: Peer, t: Tlv) returns (e: Effect)
    requires s.getp + |t.value| <= |s.data| && t.value == s.data[s.getp..s.getp + |t.value|]
    modifies s`getp
    ensures e == EffectOf(others, peer, t)
    ensures !e.Stop? ==> s.getp == old(s.getp) + |t.value|
  {
    hide Handle, FlagInvalid, Malformed;
    var f := FlagsOf(t.flags);
    if FlagInvalid(t.typ, f) {
      s.getp := s.getp + |t.value|;
      var v := Malformed(peer, t.typ, f);
      return if v.None? then Skip else Stop(v.value);
    }
    e := ReadValue(s, others, peer, t);
  }

  /** Flag, type and length of the next record, and its extent. */
  method ReadHeader(s: Stream, end: nat) returns (r: Option<Tlv>)
    requires s.getp < end <= |s.data|
    modifies s`getp
    ensures r.Some? <==> TakeTlv(s.data[old(s.getp)..end]).Some?
    ensures r.Some? ==>
      && r.value == TakeTlv(s.data[old(s.getp)..end]).value.0
      && s.getp + |r.value.value| == old(s.getp) + TakeTlv(s.data[old(s.getp)..end]).value.1
      && r.value.value == s.data[s.getp..s.getp + |r.value.value|]
  {
    hide FlagsOf;
    ghost var b := s.data[s.getp..end];
    var start := s.getp;
    if end - s.getp < 3 {
      return None;
    }
    var flags := s.GetC();
    var typ := s.GetC();
    var ext := FlagsOf(flags).ext;
    if ext && end - start < 4 {
      return None;
    }
    var length: int;
    if ext {
      length := s.GetW();
      SliceOfSlice(s.data, start, end - start, 2, 4);
    } else {
      var c := s.GetC();
      length := c;
    }
    if s.getp + length > end {
      return None;
    }
    SliceOfSlice(s.data, start, end - start, s.getp - start, s.getp - start + length);
    return Some(Tlv(flags, typ, s.data[s.getp..s.getp + length]));
  }

  /** The loop of `bgp_attr_parse`. */
  method ReadRecords(s: Stream, size: nat, others: Others, peer: Peer) returns (r: Parsed)
    requires s.getp + size <= |s.data|
    modifies s`getp
    ensures r == ParseTlvs(others, peer, s.data[old(s.getp)..old(s.getp) + size], St(map[], {}))
    ensures r.Accepted? ==> s.getp == old(s.getp) + size
  {
    hide EffectOf, TakeTlv, ParseTlvs, FlagsOf;
    var end := s.getp + size;
    var st := St(map[], {});
    ghost var whole := ParseTlvs(others, peer, s.data[s.getp..end], st);
    while s.getp < end
      invariant s.getp <= end
      invariant whole == ParseTlvs(others, peer, s.data[s.getp..end], st)
      decreases end - s.getp
    {
      ghost var start := s.getp;
      ghost var b := s.data[start..end];
      ParseOnce(others, peer, b, st);
      var t := ReadHeader(s, end);
      if t.None? {
        return Rejected(Error);
      }
      if t.value.typ in st.seen {
        return Rejected(Error);
      }
      var e := ReadBody(s, others, peer, t.value);
      assert !e.Stop? ==> b[s.getp - start..] == s.data[s.getp..end];
      match e {
        case Stop(v) =>
          return Rejected(v);
        case Skip =>
          st := St(st.fields, st.seen + {t.value.typ});
        case Store(v) =>
          st := St(st.fields[t.value.typ := v], st.seen + {t.value.typ});
      }
    }
    ParseNone(others, peer, s.data[s.getp..end], st);
    return Accepted(st);
  }

  lemma ParseOnce(others: Others, peer: Peer, b: seq<Byte>, st: St)
    requires b != []
    ensures TakeTlv(b).None? ==> ParseTlvs(others, peer, b, st) == Rejected(Error)
    ensures TakeTlv(b).Some? ==>
      var next := StepTlv(others, peer, TakeTlv(b).value.0, st);
      ParseTlvs(others, peer, b, st) == if next.Rejected? then next else ParseTlvs(others, peer, b[TakeTlv(b).value.1..], next.st)
  {
    hide TakeTlv, StepTlv;
  }

  lemma ParseNone(others: Others, peer: Peer, b: seq<Byte>, st: St)
    requires b == []
    ensures ParseTlvs(others, peer, b, st) == Accepted(st)
  {
  }

  /** `bgp_attr_munge_as4_attrs`. */
  method MungeAs4(peer: Peer, fields: map<Byte, Value>, path: Path) returns (f: map<Byte, Value>)
    ensures f == Munge(peer, fields, path)
  {
    hide Reconcile;
    f := fields;
    if peer.as4 {
      return;
    }
    var ignore := false;
    var four := AggAt(fields, BGP_ATTR_AS4_AGGREGATOR);
    if four.Some? {
      var two := AggAt(fields, BGP_ATTR_AGGREGATOR);
      if two.Some? {
        if two.value.asn != BGP_AS_TRANS {
          ignore := true;
        } else {
          f := f[BGP_ATTR_AGGREGATOR := AggregatorValue(four.value)];
        }
      } else {
        f := f[BGP_ATTR_AGGREGATOR := AggregatorValue(Aggregator(four.value.asn, 0))];
      }
    }
    var newpath := path;
    var as4 := PathAt(fields, BGP_ATTR_AS4_PATH);
    if !ignore && as4.Some? {
      var merged := ReconcileAs4(path, as4.value);
      newpath := merged.segments;
    }
    f := f[BGP_ATTR_AS_PATH := PathValue(newpath)];
  }

  /** `bgp_attr_parse`: the records, the mandatory ones, the 4-byte helpers, the path. */
  method ReadAttributes(s: Stream, size: nat, others: Others, peer: Peer) returns (r: Final)
    requires s.getp + size <= |s.data|
    modifies s`getp
    ensures r == ParseAttributes(others, peer, s.data[old(s.getp)..old(s.getp) + size])
    ensures r.Attribute? ==> s.getp == old(s.getp) + size
  {
    hide ParseTlvs, Munge, Missing;
    var p := ReadRecords(s, size, others, peer);
    if p.Rejected? {
      return Failed(p.verdict);
    }
    var fields := p.st.fields;
    if Missing(peer, fields) {
      return Failed(Error);
    }
    var path := PathAt(fields, BGP_ATTR_AS_PATH);
    if path.None? {
      return Attribute(fields);
    }
    fields := MungeAs4(peer, fields, path.value);
    path := PathAt(fields, BGP_ATTR_AS_PATH);
    if path.None? {
      return Attribute(fields);
    }
    if PathRefused(peer, path.value) {
      return Failed(Error);
    }
    return Attribute(fields[BGP_ATTR_AS_PATH := PathValue(WithLocalAs(peer, path.value))]);
  }

  // ---------------------------------------------------------------------
  // Writing

  /** A path attribute: the length is written as zero and patched when the path is out. */
  method WritePath(s: Stream, flags: Byte, typ: Byte, p: Path, use32bit: bool)
    modifies s`data
    ensures s.data == old(s.data) + PathBytes(flags, typ, p, use32bit)
  {
    hide PutBytes, PutCount;
    s.PutC(flags);
    s.PutC(typ);
    var sizep := |s.data|;
    ghost var front := s.data;
    s.PutW(0);
    var n := Put(s, p, use32bit);
    ghost var tail := PutBytes(p, use32bit);
    assert s.data == front + Be16(0) + tail;
    var len := n % 0x1_0000;
    s.PutCAt(sizep, len / 256);
    s.PutCAt(sizep + 1, len % 256);
    assert s.data == front + Be16(len) + tail;
  }

  method WriteCommunities(s: Stream, vals: seq<CommunityVal>)
    modifies s`data
    ensures s.data == old(s.data) + CommBytes(vals)
  {
    hide CommBytes, Be32;
    assert vals[0..] == vals;
    for i := 0 to |vals|
      invariant s.data + CommBytes(vals[i..]) == old(s.data) + CommBytes(vals)
    {
      CommBytesFrom(vals, i);
      ghost var before := s.data;
      s.PutL(vals[i]);
      assert before + (Be32(vals[i]) + CommBytes(vals[i + 1..])) == s.data + CommBytes(vals[i + 1..]);
    }
    CommBytesNone(vals[|vals|..]);
  }

  lemma CommBytesFrom(vals: seq<CommunityVal>, i: nat)
    requires i < |vals|
    ensures CommBytes(vals[i..]) == Be32(vals[i]) + CommBytes(vals[i + 1..])
  {
    hide Be32;
    assert vals[i..][1..] == vals[i + 1..];
  }

  lemma CommBytesNone(vals: seq<CommunityVal>)
    requires vals == []
    ensures CommBytes(vals) == []
  {
  }

  method WriteAggregator(s: Stream, typ: Byte, g: Aggregator, use32bit: bool)
    modifies s`data
    ensures s.data == old(s.data) + ([FLAG_OPTIONAL + FLAG_TRANS, typ, if use32bit then 8 else 6] + AggBytes(g, use32bit))
  {
    hide Be32, Be16;
    s.PutC(FLAG_OPTIONAL + FLAG_TRANS);
    s.PutC(typ);
    if use32bit {
      s.PutC(8);
      s.PutL(g.asn);
    } else {
      s.PutC(6);
      s.PutW(if g.asn > BGP_AS_MAX then BGP_AS_TRANS else g.asn);
    }
    s.PutL(g.addr);
  }

  method WriteWord(s: Stream, flags: Byte, typ: Byte, v: U32)
    modifies s`data
    ensures s.data == old(s.data) + ([flags, typ, 4] + Be32(v))
  {
    hide Be32;
    s.PutC(flags);
    s.PutC(typ);
    s.PutC(4);
    s.PutL(v);
  }

  /** The part of `bgp_packet_attribute` for one attribute type. */
  method WriteType(s: Stream, a: Attr, use32bit: bool, typ: Byte)
    requires typ != BGP_ATTR_AS4_PATH
    modifies s`data
    ensures s.data == old(s.data) + BytesFor(a, use32bit, typ)
  {
    hide Be32, PathBytes, AggBytes, CommBytes, DropConfeds, HoldsLarge;
    if typ == BGP_ATTR_ORIGIN {
      s.PutC(FLAG_TRANS);
      s.PutC(BGP_ATTR_ORIGIN);
      s.PutC(1);
      s.PutC(a.origin);
    } else if typ == BGP_ATTR_AS_PATH {
      WritePath(s, FLAG_TRANS + FLAG_EXTLEN, BGP_ATTR_AS_PATH, a.path, use32bit);
    } else if typ == BGP_ATTR_NEXT_HOP && a.nexthop.Some? {
      WriteWord(s, FLAG_TRANS, BGP_ATTR_NEXT_HOP, a.nexthop.value);
    } else if typ == BGP_ATTR_MULTI_EXIT_DISC && a.med.Some? {
      WriteWord(s, FLAG_OPTIONAL, BGP_ATTR_MULTI_EXIT_DISC, a.med.value);
    } else if typ == BGP_ATTR_LOCAL_PREF {
      WriteWord(s, FLAG_TRANS, BGP_ATTR_LOCAL_PREF, a.localPref);
    } else if typ == BGP_ATTR_ATOMIC_AGGREGATE && a.atomic {
      s.PutC(FLAG_TRANS);
      s.PutC(BGP_ATTR_ATOMIC_AGGREGATE);
      s.PutC(0);
    } else if typ == BGP_ATTR_AGGREGATOR && a.aggregator.Some? {
      WriteAggregator(s, BGP_ATTR_AGGREGATOR, a.aggregator.value, use32bit);
    } else if typ == BGP_ATTR_COMMUNITIES && a.communities.Some? {
      var n := 4 * |a.communities.value|;
      if n > 255 {
        s.PutC(FLAG_OPTIONAL + FLAG_TRANS + FLAG_EXTLEN);
        s.PutC(BGP_ATTR_COMMUNITIES);
        s.PutW(n % 0x1_0000);
      } else {
        s.PutC(FLAG_OPTIONAL + FLAG_TRANS);
        s.PutC(BGP_ATTR_COMMUNITIES);
        s.PutC(n);
      }
      WriteCommunities(s, a.communities.value);
    } else if typ == BGP_ATTR_AS4_AGGREGATOR && !use32bit && a.aggregator.Some? && a.aggregator.value.asn > BGP_AS_MAX {
      WriteAggregator(s, BGP_ATTR_AS4_AGGREGATOR, a.aggregator.value, true);
    }
  }

  /**
    `bgp_packet_attribute` for an internal peer.  The path object is the
    attribute's own, not a copy: writing AS4_PATH takes its confederation
    segments away for good.
   */
  method WriteAttributes(s: Stream, a: Attr, path: AsPath, use32bit: bool) returns (size: nat)
    requires path.segments == a.path
    modifies s`data, path
    ensures s.data == old(s.data) + Encode(a, use32bit)
    ensures size == |Encode(a, use32bit)|
    ensures path.segments == if !use32bit && HoldsLarge(a.path) then DropConfeds(a.path) else a.path
    ensures path.segments == a.path <==> use32bit || !HoldsLarge(a.path) || ConfedFree(a.path)
  {
    ConfedFreeKept(a.path);
    hide BytesFor, EncodeTypes, HoldsLarge, DropConfeds, PathBytes;
    var cp := |s.data|;
    var large := HasAs4(path.segments);
    assert Sent[0..] == Sent;
    for i := 0 to |Sent|
      invariant s.data + EncodeTypes(a, use32bit, Sent[i..]) == old(s.data) + EncodeTypes(a, use32bit, Sent)
      invariant path.segments == if i > 8 && !use32bit && HoldsLarge(a.path) then DropConfeds(a.path) else a.path
    {
      EncodeFrom(a, use32bit, i);
      ghost var before := s.data;
      if Sent[i] != BGP_ATTR_AS4_PATH {
        WriteType(s, a, use32bit, Sent[i]);
      } else {
        As4PathBytes(a, use32bit);
        if !use32bit && large {
          path.DeleteConfeds();
          WritePath(s, FLAG_TRANS + FLAG_OPTIONAL + FLAG_EXTLEN, BGP_ATTR_AS4_PATH, path.segments, true);
        }
      }
      assert s.data == before + BytesFor(a, use32bit, Sent[i]);
      assert before + (BytesFor(a, use32bit, Sent[i]) + EncodeTypes(a, use32bit, Sent[i + 1..])) == s.data + EncodeTypes(a, use32bit, Sent[i + 1..]);
    }
    EncodeNone(a, use32bit, Sent[|Sent|..]);
    size := |s.data| - cp;
  }

  lemma As4PathBytes(a: Attr, use32bit: bool)
    ensures BytesFor(a, use32bit, BGP_ATTR_AS4_PATH) ==
      if !use32bit && HoldsLarge(a.path) then PathBytes(FLAG_TRANS + FLAG_OPTIONAL + FLAG_EXTLEN, BGP_ATTR_AS4_PATH, DropConfeds(a.path), true) else []
  {
    hide HoldsLarge, PathBytes, DropConfeds;
  }

  /** Such a loss: a confederation segment goes when a path with a large number is sent to a 2-byte peer. */
  method SendingChangesPath(s: Stream) returns (path: AsPath, size: nat)
    modifies s`data
    ensures fresh(path) && path.segments == [Segment(AsSequence, [70000])]
    ensures s.data == old(s.data) + Encode(ChangedAttr, false)
    ensures ChangedAttr.path != path.segments
  {
    path := new AsPath(ChangedAttr.path);
    ghost var p := ChangedAttr.path;
    assert 70000 in p[1].asns;
    assert 70000 in Members(p);
    assert HoldsLarge(p);
    assert p[1..] == [Segment(AsSequence, [70000])] && p[1..][1..] == [];
    assert DropConfeds(p) == p[1..] by {
      assert DropConfeds([]) == [];
    }
    hide HoldsLarge, DropConfeds, Encode;
    size := WriteAttributes(s, ChangedAttr, path, false);
  }

  const ChangedAttr := Attr(0, [Segment(ConfedSequence, [1]), Segment(AsSequence, [70000])], Some(0x0A00_0001), None, 100, false, None, None)

  lemma EncodeFrom(a: Attr, use32bit: bool, i: nat)
    requires i < |Sent|
    ensures EncodeTypes(a, use32bit, Sent[i..]) == BytesFor(a, use32bit, Sent[i]) + EncodeTypes(a, use32bit, Sent[i + 1..])
  {
    hide BytesFor;
    assert Sent[i..][1..] == Sent[i + 1..];
  }

  lemma EncodeNone(a: Attr, use32bit: bool, types: seq<Byte>)
    requires types == []
    ensures EncodeTypes(a, use32bit, types) == []
  {
  }
}
