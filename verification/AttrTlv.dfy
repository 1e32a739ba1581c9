/**
  Path attributes as type-length-value records: what each record of an UPDATE
  does, and the loop of `bgp_attr_parse` over them.
 */
module AttrTlv {
  import opened Asns
  import opened AsPaths
  import opened AsPathParse
  import opened Options
  import opened Sequences
  import opened Streams
  import opened Communities

  type U32 = x: int | 0 <= x < 0x1_0000_0000

  const BGP_ATTR_ORIGIN: Byte := 1
  const BGP_ATTR_AS_PATH: Byte := 2
  const BGP_ATTR_NEXT_HOP: Byte := 3
  const BGP_ATTR_MULTI_EXIT_DISC: Byte := 4
  const BGP_ATTR_LOCAL_PREF: Byte := 5
  const BGP_ATTR_ATOMIC_AGGREGATE: Byte := 6
  const BGP_ATTR_AGGREGATOR: Byte := 7
  const BGP_ATTR_COMMUNITIES: Byte := 8
  const BGP_ATTR_ORIGINATOR_ID: Byte := 9
  const BGP_ATTR_CLUSTER_LIST: Byte := 10
  const BGP_ATTR_MP_REACH_NLRI: Byte := 14
  const BGP_ATTR_MP_UNREACH_NLRI: Byte := 15
  const BGP_ATTR_EXT_COMMUNITIES: Byte := 16
  const BGP_ATTR_AS4_PATH: Byte := 17
  const BGP_ATTR_AS4_AGGREGATOR: Byte := 18

  const FLAG_OPTIONAL: Byte := 0x80
  const FLAG_TRANS: Byte := 0x40
  const FLAG_EXTLEN: Byte := 0x10

  /** The flag bits that count; the low four are ignored. */
  datatype Flags = Flags(optional: bool, trans: bool, partial: bool, ext: bool)

  function FlagsOf(b: Byte): Flags {
    Flags(b / 128 == 1, b / 64 % 2 == 1, b / 32 % 2 == 1, b / 16 % 2 == 1)
  }

  datatype Sort = Ibgp | Ebgp | ConfedPeer

  datatype Peer = Peer(sort: Sort, as4: bool, restart: bool, martians: bool, firstAs: Option<Asn>, localAs: Option<Asn>)

  /** `bgp_attr_parse_ret_t`. */
  datatype Verdict = Error | NotifyPls | Withdraw

  datatype Aggregator = Aggregator(asn: Asn, addr: U32)

  /** What a record leaves in the attribute. */
  datatype Value =
    | Origin(code: Byte)
    | PathValue(path: Path)
    | Addr(addr: U32)
    | Number(number: U32)
    | Present
    | AggregatorValue(agg: Aggregator)
    | Comms(vals: seq<CommunityVal>)
    | Other(bytes: seq<Byte>)

  /** A record; `flags` is the flag byte as sent. */
  datatype Tlv = Tlv(flags: Byte, typ: Byte, value: seq<Byte>)

  /** Parsers of the attribute types that are not modelled: the value stored or not, and the bytes read. */
  datatype OtherResult = OtherOk(stores: bool, consumed: nat) | OtherStop(verdict: Verdict)

  type Others = (Byte, Byte, seq<Byte>) -> OtherResult

  /** A record's effect: a value stored, nothing, or the end of the parse. */
  datatype Effect = Store(value: Value) | Skip | Stop(verdict: Verdict)

  // ---------------------------------------------------------------------
  // One record

  /** `attr_flags_values`: Optional and Transitive bits a known type must have. */
  function Required(typ: Byte): Option<(bool, bool)> {
    if typ in {BGP_ATTR_ORIGIN, BGP_ATTR_AS_PATH, BGP_ATTR_NEXT_HOP, BGP_ATTR_LOCAL_PREF, BGP_ATTR_ATOMIC_AGGREGATE} then Some((false, true))
    else if typ in {BGP_ATTR_MULTI_EXIT_DISC, BGP_ATTR_ORIGINATOR_ID, BGP_ATTR_CLUSTER_LIST, BGP_ATTR_MP_REACH_NLRI, BGP_ATTR_MP_UNREACH_NLRI} then Some((true, false))
    else if typ in {BGP_ATTR_AGGREGATOR, BGP_ATTR_COMMUNITIES, BGP_ATTR_EXT_COMMUNITIES, BGP_ATTR_AS4_PATH, BGP_ATTR_AS4_AGGREGATOR} then Some((true, true))
    else None
  }

  /** `bgp_attr_flag_invalid`. */
  function FlagInvalid(typ: Byte, f: Flags): bool {
    if Required(typ).None? then false
    else if !f.optional && !f.trans then true
    else if f.partial && (!f.optional || !f.trans) then true
    else
      var partialLeft := f.partial && !(f.optional && f.trans);
      !((f.optional, f.trans) == Required(typ).value && !partialLeft)
  }

  /** Flags are right exactly when the two bits are the required ones and Partial is on optional transitive records only. */
  lemma FlagValidIff(typ: Byte, f: Flags)
    requires Required(typ).Some?
    ensures !FlagInvalid(typ, f) <==> (f.optional, f.trans) == Required(typ).value && (f.partial ==> f.optional && f.trans)
  {
  }

  /** `bgp_attr_malformed`: none when the record is merely ignored. */
  function Malformed(peer: Peer, typ: Byte, f: Flags): Option<Verdict> {
    if peer.sort != Ebgp then Some(Error)
    else if typ in {BGP_ATTR_AS4_AGGREGATOR, BGP_ATTR_AGGREGATOR, BGP_ATTR_ATOMIC_AGGREGATE} then None
    else if typ in {BGP_ATTR_ORIGIN, BGP_ATTR_AS_PATH, BGP_ATTR_NEXT_HOP, BGP_ATTR_MULTI_EXIT_DISC, BGP_ATTR_LOCAL_PREF, BGP_ATTR_COMMUNITIES,
                    BGP_ATTR_ORIGINATOR_ID, BGP_ATTR_CLUSTER_LIST, BGP_ATTR_MP_REACH_NLRI, BGP_ATTR_MP_UNREACH_NLRI, BGP_ATTR_EXT_COMMUNITIES} then Some(Error)
    else if f.trans && f.optional && f.partial then Some(Withdraw)
    else Some(NotifyPls)
  }

  /** A malformed value; asking for a notification ends in an error. */
  function Bad(peer: Peer, t: Tlv): Effect {
    match Malformed(peer, t.typ, FlagsOf(t.flags))
    case None => Skip
    case Some(v) => Stop(if v == NotifyPls then Error else v)
  }

  function Martian(addr: U32): bool {
    addr / 0x100_0000 == 0 || addr / 0x100_0000 == 127 || addr / 0x2000_0000 == 7
  }

  /** The 4-byte values of a COMMUNITIES record. */
  function CommVals(b: seq<Byte>): seq<CommunityVal>
    requires |b| % 4 == 0
  {
    if b == [] then [] else [Val32(b[..4])] + CommVals(b[4..])
  }

  function CommBytes(s: seq<CommunityVal>): (b: seq<Byte>)
    ensures |b| == 4 * |s|
  {
    if s == [] then [] else Be32(s[0]) + CommBytes(s[1..])
  }

  lemma {:induction false} CommValsOfBytes(s: seq<CommunityVal>)
    ensures CommVals(CommBytes(s)) == s
  {
    if s != [] {
      var b, t := Be32(s[0]), CommBytes(s[1..]);
      assert (b + t)[..4] == b && (b + t)[4..] == t;
      Val32OfBe32(s[0]);
      CommValsOfBytes(s[1..]);
    }
  }

  /** The parsers called by the switch of `bgp_attr_parse`. */
  function Handle(others: Others, peer: Peer, t: Tlv): Effect {
    var v := t.value;
    if t.typ == BGP_ATTR_ORIGIN then
      if |v| != 1 || v[0] > 2 then Bad(peer, t) else Store(Origin(v[0]))
    else if t.typ == BGP_ATTR_AS_PATH then
      var p := ParsePath(v, peer.as4);
      if p.None? then Bad(peer, t) else Store(PathValue(p.value))
    else if t.typ == BGP_ATTR_NEXT_HOP then
      if |v| != 4 || (Martian(Val32(v)) && !peer.martians) then Bad(peer, t) else Store(Addr(Val32(v)))
    else if t.typ == BGP_ATTR_MULTI_EXIT_DISC then
      if |v| != 4 then Bad(peer, t) else Store(Number(Val32(v)))
    else if t.typ == BGP_ATTR_LOCAL_PREF then
      if |v| != 4 then Bad(peer, t) else if peer.sort == Ebgp then Skip else Store(Number(Val32(v)))
    else if t.typ == BGP_ATTR_ATOMIC_AGGREGATE then
      if |v| != 0 then Bad(peer, t) else Store(Present)
    else if t.typ == BGP_ATTR_AGGREGATOR then
      if |v| != (if peer.as4 then 8 else 6) then Bad(peer, t)
      else if peer.as4 then Store(AggregatorValue(Aggregator(Val32(v[..4]), Val32(v[4..]))))
      else Store(AggregatorValue(Aggregator(Val16(v[..2]), Val32(v[2..]))))
    else if t.typ == BGP_ATTR_COMMUNITIES then
      if |v| == 0 then Skip
      else if |v| % 4 != 0 then Bad(peer, t)
      else Store(Comms(CanonSet(CommVals(v))))
    else if t.typ == BGP_ATTR_AS4_PATH then
      var p := ParsePath(v, true);
      if p.None? then Bad(peer, t) else Store(PathValue(p.value))
    else if t.typ == BGP_ATTR_AS4_AGGREGATOR then
      if |v| != 8 then Bad(peer, t) else Store(AggregatorValue(Aggregator(Val32(v[..4]), Val32(v[4..]))))
    else
      match others(t.typ, t.flags, v)
      case OtherStop(verdict) => Stop(if verdict == NotifyPls then Error else verdict)
      case OtherOk(stores, consumed) => if consumed != |v| then Stop(Error) else if stores then Store(Other(v)) else Skip
  }

  /** Flags first, then the value; bad flags are answered as they are. */
  function EffectOf(others: Others, peer: Peer, t: Tlv): Effect {
    var f := FlagsOf(t.flags);
    if FlagInvalid(t.typ, f) then
      match Malformed(peer, t.typ, f)
      case None => Skip
      case Some(v) => Stop(v)
    else Handle(others, peer, t)
  }

  // ---------------------------------------------------------------------
  // The records of a message

  ghost predicate TlvFits(t: Tlv) {
    |t.value| < if FlagsOf(t.flags).ext then 0x1_0000 else 256
  }

  function TlvBytes(t: Tlv): seq<Byte>
    requires TlvFits(t)
  {
    [t.flags, t.typ] + (if FlagsOf(t.flags).ext then Be16(|t.value|) else [|t.value|]) + t.value
  }

  /** The first record and its size; none when the bytes are too few for it. */
  function TakeTlv(b: seq<Byte>): (r: Option<(Tlv, nat)>)
    ensures r.Some? ==> 3 <= r.value.1 <= |b|
  {
    if |b| < 3 then None
    else
      var ext := FlagsOf(b[0]).ext;
      if ext && |b| < 4 then None
      else
        var start := if ext then 4 else 3;
        var length := if ext then Val16(b[2..4]) else b[2];
        if start + length > |b| then None
        else Some((Tlv(b[0], b[1], b[start..start + length]), start + length))
  }

  lemma TakeTlvOfBytes(t: Tlv, rest: seq<Byte>)
    requires TlvFits(t)
    ensures TakeTlv(TlvBytes(t) + rest) == Some((t, |TlvBytes(t)|))
  {
    var b := TlvBytes(t) + rest;
    var ext := FlagsOf(t.flags).ext;
    var start := if ext then 4 else 3;
    assert b[0] == t.flags && b[1] == t.typ;
    if ext {
      assert b[2..4] == Be16(|t.value|);
      Val16OfBe16(|t.value|);
    } else {
      assert b[2] == |t.value|;
    }
    assert b[start..start + |t.value|] == t.value;
  }

  lemma TakeTlvIsBytes(b: seq<Byte>)
    requires TakeTlv(b).Some?
    ensures
      var (t, n) := TakeTlv(b).value;
      TlvFits(t) && TlvBytes(t) == b[..n]
  {
    var (t, n) := TakeTlv(b).value;
    if FlagsOf(b[0]).ext {
      assert Be16(Val16(b[2..4])) == b[2..4];
      assert b[..n] == [b[0], b[1]] + b[2..4] + b[4..n];
    } else {
      assert b[..n] == [b[0], b[1]] + [b[2]] + b[3..n];
    }
  }

  datatype St = St(fields: map<Byte, Value>, seen: set<Byte>)

  datatype Parsed = Accepted(st: St) | Rejected(verdict: Verdict)

  function StepTlv(others: Others, peer: Peer, t: Tlv, st: St): Parsed {
    if t.typ in st.seen then Rejected(Error)
    else match EffectOf(others, peer, t)
      case Stop(v) => Rejected(v)
      case Skip => Accepted(St(st.fields, st.seen + {t.typ}))
      case Store(v) => Accepted(St(st.fields[t.typ := v], st.seen + {t.typ}))
  }

  /** The loop of `bgp_attr_parse`. */
  function ParseTlvs(others: Others, peer: Peer, b: seq<Byte>, st: St): Parsed
    decreases |b|
  {
    if b == [] then Accepted(st)
    else match TakeTlv(b)
      case None => Rejected(Error)
      case Some((t, n)) =>
        match StepTlv(others, peer, t, st)
        case Rejected(v) => Rejected(v)
        case Accepted(next) => ParseTlvs(others, peer, b[n..], next)
  }

  function Concat(ts: seq<Tlv>): seq<Byte>
    requires forall i :: 0 <= i < |ts| ==> TlvFits(ts[i])
  {
    if ts == [] then [] else TlvBytes(ts[0]) + Concat(ts[1..])
  }

  function FoldTlvs(others: Others, peer: Peer, ts: seq<Tlv>, st: St): Parsed
    decreases |ts|
  {
    if ts == [] then Accepted(st)
    else match StepTlv(others, peer, ts[0], st)
      case Rejected(v) => Rejected(v)
      case Accepted(next) => FoldTlvs(others, peer, ts[1..], next)
  }

  /** Parsing the bytes of a list of records does the records one after the other. */
  lemma {:induction false} ParseConcat(others: Others, peer: Peer, ts: seq<Tlv>, st: St)
    requires forall i :: 0 <= i < |ts| ==> TlvFits(ts[i])
    ensures ParseTlvs(others, peer, Concat(ts), st) == FoldTlvs(others, peer, ts, st)
    decreases |ts|
  {
    hide StepTlv, TakeTlv, TlvBytes;
    if ts != [] {
      var rest := Concat(ts[1..]);
      TakeTlvOfBytes(ts[0], rest);
      var n := |TlvBytes(ts[0])|;
      assert (TlvBytes(ts[0]) + rest)[n..] == rest;
      match StepTlv(others, peer, ts[0], st)
      case Rejected(v) =>
      case Accepted(next) => ParseConcat(others, peer, ts[1..], next);
    }
  }

  /** Accepted bytes are records to their very end. */
  lemma {:induction false} AcceptedRecords(others: Others, peer: Peer, b: seq<Byte>, st: St) returns (ts: seq<Tlv>)
    requires ParseTlvs(others, peer, b, st).Accepted?
    ensures forall i :: 0 <= i < |ts| ==> TlvFits(ts[i])
    ensures Concat(ts) == b
    ensures FoldTlvs(others, peer, ts, st) == ParseTlvs(others, peer, b, st)
    decreases |b|
  {
    hide StepTlv, TakeTlv, TlvBytes, TlvFits;
    if b == [] {
      ts := [];
    } else {
      var (t, n) := TakeTlv(b).value;
      TakeTlvIsBytes(b);
      var rest := AcceptedRecords(others, peer, b[n..], StepTlv(others, peer, t, st).st);
      ts := [t] + rest;
      assert ts[1..] == rest;
      assert b[..n] + b[n..] == b;
    }
  }

  // ---------------------------------------------------------------------
  // When records are accepted, and what they leave

  ghost predicate DistinctTypes(ts: seq<Tlv>) {
    forall i, j :: 0 <= i < j < |ts| ==> ts[i].typ != ts[j].typ
  }

  ghost predicate NoneStops(others: Others, peer: Peer, ts: seq<Tlv>) {
    forall t :: t in ts ==> !EffectOf(others, peer, t).Stop?
  }

  ghost predicate Unseen(ts: seq<Tlv>, seen: set<Byte>) {
    forall t :: t in ts ==> t.typ !in seen
  }

  /** The fields are those there were and those the records store. */
  ghost predicate Leaves(others: Others, peer: Peer, ts: seq<Tlv>, before: map<Byte, Value>, after: map<Byte, Value>) {
    && (forall t :: t in ts ==>
          match EffectOf(others, peer, t)
          case Store(v) => t.typ in after && after[t.typ] == v
          case _ => t.typ in after <==> t.typ in before)
    && (forall k :: (forall t :: t in ts ==> t.typ != k) ==> (k in after <==> k in before) && (k in before ==> after[k] == before[k]))
  }

  lemma DistinctCons(ts: seq<Tlv>)
    requires ts != []
    ensures DistinctTypes(ts) <==> DistinctTypes(ts[1..]) && forall t :: t in ts[1..] ==> t.typ != ts[0].typ
    ensures forall t :: t in ts <==> t == ts[0] || t in ts[1..]
  {
    var rest := ts[1..];
    if DistinctTypes(ts) {
      forall t | t in rest ensures t.typ != ts[0].typ {
        var i :| 0 <= i < |rest| && rest[i] == t;
        assert ts[i + 1] == t;
      }
    }
    if DistinctTypes(rest) && forall t :: t in rest ==> t.typ != ts[0].typ {
      forall i, j | 0 <= i < j < |ts| ensures ts[i].typ != ts[j].typ {
        assert ts[j] == rest[j - 1];
        if i > 0 {
          assert ts[i] == rest[i - 1];
        }
      }
    }
  }

  /** A message's records are accepted exactly when no type repeats and none of them stops the parse. */
  lemma {:induction false} FoldAccepts(others: Others, peer: Peer, ts: seq<Tlv>, st: St)
    ensures FoldTlvs(others, peer, ts, st).Accepted? <==>
      DistinctTypes(ts) && Unseen(ts, st.seen) && NoneStops(others, peer, ts)
    decreases |ts|
  {
    hide EffectOf;
    if ts != [] {
      DistinctCons(ts);
      hide DistinctTypes;
      var rest := ts[1..];
      if ts[0].typ in st.seen || EffectOf(others, peer, ts[0]).Stop? {
        assert ts[0] in ts;
      } else {
        var next := StepTlv(others, peer, ts[0], st).st;
        FoldAccepts(others, peer, rest, next);
        assert next.seen == st.seen + {ts[0].typ};
      }
    }
  }

  lemma {:induction false} FoldLeaves(others: Others, peer: Peer, ts: seq<Tlv>, st: St)
    requires FoldTlvs(others, peer, ts, st).Accepted?
    ensures Leaves(others, peer, ts, st.fields, FoldTlvs(others, peer, ts, st).st.fields)
    decreases |ts|
  {
    hide EffectOf;
    if ts != [] {
      FoldAccepts(others, peer, ts, st);
      DistinctCons(ts);
      hide DistinctTypes, NoneStops, Unseen;
      var next := StepTlv(others, peer, ts[0], st).st;
      FoldLeaves(others, peer, ts[1..], next);
      LeavesCons(others, peer, ts, st.fields, next.fields, FoldTlvs(others, peer, ts, st).st.fields);
    }
  }

  lemma LeavesCons(others: Others, peer: Peer, ts: seq<Tlv>, before: map<Byte, Value>, mid: map<Byte, Value>, after: map<Byte, Value>)
    requires ts != []
    requires forall t :: t in ts <==> t == ts[0] || t in ts[1..]
    requires forall t :: t in ts[1..] ==> t.typ != ts[0].typ
    requires mid == match EffectOf(others, peer, ts[0]) { case Store(v) => before[ts[0].typ := v] case _ => before }
    requires Leaves(others, peer, ts[1..], mid, after)
    ensures Leaves(others, peer, ts, before, after)
  {
    hide EffectOf;
  }

  /** Two lists that leave the same effects leave the same fields. */
  lemma LeavesUnique(others: Others, peer: Peer, ts: seq<Tlv>, us: seq<Tlv>, before: map<Byte, Value>, a: map<Byte, Value>, b: map<Byte, Value>)
    requires forall t :: t in ts <==> t in us
    requires Leaves(others, peer, ts, before, a) && Leaves(others, peer, us, before, b)
    requires forall t :: t in ts ==> t.typ !in before
    ensures a == b
  {
    hide EffectOf;
    forall k ensures (k in a <==> k in b) && (k in a ==> a[k] == b[k]) {
      if t :| t in ts && t.typ == k {
        assert t in us;
      }
    }
  }

  /** The order of the records does not matter: neither for acceptance nor for what they leave; unknown transitive records are in AttrTransit. */
  lemma OrderIndependent(others: Others, peer: Peer, ts: seq<Tlv>, us: seq<Tlv>)
    requires forall i :: 0 <= i < |ts| ==> TlvFits(ts[i])
    requires forall i :: 0 <= i < |us| ==> TlvFits(us[i])
    requires multiset(ts) == multiset(us)
    ensures
      var p, q := ParseTlvs(others, peer, Concat(ts), St(map[], {})), ParseTlvs(others, peer, Concat(us), St(map[], {}));
      && (p.Accepted? <==> q.Accepted?)
      && (p.Accepted? && q.Accepted? ==> p.st.fields == q.st.fields)
  {
    hide EffectOf, FoldTlvs, ParseTlvs, Concat, DistinctTypes, NoneStops, Leaves, Unseen, TlvFits;
    var st := St(map[], {});
    ParseConcat(others, peer, ts, st);
    ParseConcat(others, peer, us, st);
    FoldAccepts(others, peer, ts, st);
    FoldAccepts(others, peer, us, st);
    SameConditions(others, peer, ts, us);
    if FoldTlvs(others, peer, ts, st).Accepted? {
      FoldLeaves(others, peer, ts, st);
      FoldLeaves(others, peer, us, st);
      LeavesUnique(others, peer, ts, us, map[], FoldTlvs(others, peer, ts, st).st.fields, FoldTlvs(others, peer, us, st).st.fields);
    }
  }

  lemma SameConditions(others: Others, peer: Peer, ts: seq<Tlv>, us: seq<Tlv>)
    requires multiset(ts) == multiset(us)
    ensures forall t :: t in ts <==> t in us
    ensures DistinctTypes(ts) <==> DistinctTypes(us)
    ensures NoneStops(others, peer, ts) <==> NoneStops(others, peer, us)
    ensures Unseen(ts, {}) && Unseen(us, {})
  {
    hide EffectOf, DistinctTypes;
    forall t ensures t in ts <==> t in us {
      assert t in ts <==> t in multiset(ts);
      assert t in us <==> t in multiset(us);
    }
    if DistinctTypes(ts) {
      DistinctPermuted(ts, us);
    }
    if DistinctTypes(us) {
      DistinctPermuted(us, ts);
    }
  }

  lemma DistinctRecords(ts: seq<Tlv>)
    requires DistinctTypes(ts)
    ensures Distinct(ts)
  {
  }

  lemma DistinctPermuted(ts: seq<Tlv>, us: seq<Tlv>)
    requires multiset(ts) == multiset(us) && DistinctTypes(ts)
    ensures DistinctTypes(us)
  {
    forall i, j | 0 <= i < j < |us| ensures us[i].typ != us[j].typ {
      DistinctRecords(ts);
      OnceEach(ts, us[i]);
      TwiceIn(us, i, j);
      assert us[i] in multiset(ts) && us[j] in multiset(ts);
      var a :| 0 <= a < |ts| && ts[a] == us[i];
      var b :| 0 <= b < |ts| && ts[b] == us[j];
    }
  }
}
