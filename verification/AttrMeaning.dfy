/**
  What an UPDATE's path attributes mean, in the numbers of section 4.3 of RFC
  4271: which records are right, what each of them leaves, when a message gives an
  attribute, for peers of every sort, and which attribute it gives.
 */
module AttrMeaning {
  import opened Asns
  import opened AsPaths
  import opened AsPathObjects
  import opened AsPathLaws
  import opened AsPathParse
  import opened AsPathBytes
  import opened Options
  import opened Streams
  import opened Communities
  import opened AttrTlv
  import opened AttrCodec

  // ---------------------------------------------------------------------
  // One record

  /** Well-known types, optional ones that are not transitive, and optional transitive ones, with the bits they must have. */
  ghost predicate FlagsRight(typ: Byte, flags: Byte) {
    var optional, trans, partial := flags >= 128, flags / 64 % 2 == 1, flags / 32 % 2 == 1;
    if typ in {1, 2, 3, 5, 6} then !optional && trans && !partial
    else if typ in {4, 9, 10, 14, 15} then optional && !trans && !partial
    else if typ in {7, 8, 16, 17, 18} then optional && trans
    else true
  }

  /** Types whose values are modelled: ORIGIN to COMMUNITIES, AS4_PATH and AS4_AGGREGATOR. */
  ghost predicate Modelled(typ: Byte) {
    typ in {1, 2, 3, 4, 5, 6, 7, 8, 17, 18}
  }

  ghost predicate ValueRight(peer: Peer, t: Tlv)
    requires Modelled(t.typ)
  {
    var v := t.value;
    if t.typ == 1 then |v| == 1 && v[0] <= 2
    else if t.typ == 2 then ParsePath(v, peer.as4).Some?
    else if t.typ == 3 then |v| == 4 && (peer.martians || (v[0] != 0 && v[0] != 127 && v[0] < 224))
    else if t.typ == 4 || t.typ == 5 then |v| == 4
    else if t.typ == 6 then |v| == 0
    else if t.typ == 7 then |v| == if peer.as4 then 8 else 6
    else if t.typ == 8 then |v| % 4 == 0
    else if t.typ == 17 then ParsePath(v, true).Some?
    else |v| == 8
  }

  /** What a right record leaves. */
  ghost predicate RightLeaves(peer: Peer, t: Tlv, e: Effect)
    requires Modelled(t.typ) && ValueRight(peer, t)
  {
    var v := t.value;
    if t.typ == 1 then e == Store(Origin(v[0]))
    else if t.typ == 2 then e == Store(PathValue(ParsePath(v, peer.as4).value))
    else if t.typ == 3 then e == Store(Addr(Spelled(v)))
    else if t.typ == 4 then e == Store(Number(Spelled(v)))
    else if t.typ == 5 then e == if peer.sort == Ebgp then Skip else Store(Number(Spelled(v)))
    else if t.typ == 6 then e == Store(Present)
    else if t.typ == 7 then
      var n := if peer.as4 then 4 else 2;
      e == Store(AggregatorValue(Aggregator(Spelled(v[..n]), Spelled(v[n..]))))
    else if t.typ == 8 then
      if v == [] then e == Skip
      else
        && e.Store? && e.value.Comms? && StrictlyIncreasing(e.value.vals)
        && Elems(e.value.vals) == set k | 0 <= k < |v| / 4 :: Spelled(v[4 * k..4 * k + 4])
    else if t.typ == 17 then e == Store(PathValue(ParsePath(v, true).value))
    else e == Store(AggregatorValue(Aggregator(Spelled(v[..4]), Spelled(v[4..]))))
  }

  /**
    How a wrong record ends: the session is reset, but external peers get
    AGGREGATOR, AS4_AGGREGATOR and ATOMIC_AGGREGATE ignored, and a wrong AS4_PATH
    with the Partial bit withdraws the routes.
   */
  ghost predicate EndsWrong(peer: Peer, t: Tlv, e: Effect) {
    if peer.sort != Ebgp then e == Stop(Error)
    else if t.typ in {6, 7, 18} then e == Skip
    else if t.typ == 17 && FlagsRight(17, t.flags) && t.flags / 32 % 2 == 1 then e == Stop(Withdraw)
    else if t.typ == 17 && !FlagsRight(17, t.flags) then e == Stop(NotifyPls)
    else e == Stop(Error)
  }

  lemma {:induction false} FlagBits(b: Byte)
    ensures FlagsOf(b).optional <==> b >= 128
    ensures FlagsOf(b).trans <==> b / 64 % 2 == 1
    ensures FlagsOf(b).partial <==> b / 32 % 2 == 1
    ensures FlagsOf(b).ext <==> b / 16 % 2 == 1
  {
  }

  lemma {:induction false} FlagsRightIff(typ: Byte, flags: Byte)
    ensures !FlagInvalid(typ, FlagsOf(flags)) <==> FlagsRight(typ, flags)
  {
    FlagBits(flags);
    hide FlagsOf;
  }

  lemma {:induction false} Value16(b: seq<Byte>)
    requires |b| == 2
    ensures Val16(b) == Spelled(b)
  {
    SpelledTwo(b);
  }

  lemma {:induction false} Value32(b: seq<Byte>)
    requires |b| == 4
    ensures Val32(b) == Spelled(b)
  {
    SpelledFour(b);
  }

  lemma {:induction false} MartianIff(v: seq<Byte>)
    requires |v| == 4
    ensures Martian(Val32(v)) <==> v[0] == 0 || v[0] == 127 || v[0] >= 224
  {
    Value32(v);
    SpelledFour(v);
    hide Spelled, Val32;
    assert Val32(v) / 0x100_0000 == v[0];
  }

  /** The values of COMMUNITIES are the 4-byte numbers. */
  lemma {:induction false} CommunityNumbers(b: seq<Byte>)
    requires |b| % 4 == 0
    ensures |CommVals(b)| == |b| / 4
    ensures forall k :: 0 <= k < |b| / 4 ==> CommVals(b)[k] == Spelled(b[4 * k..4 * k + 4])
  {
    hide Spelled, Val32;
    if b != [] {
      Value32(b[..4]);
      CommunityNumbers(b[4..]);
      forall k | 0 <= k < |b| / 4 ensures CommVals(b)[k] == Spelled(b[4 * k..4 * k + 4]) {
        if k > 0 {
          assert b[4..][4 * (k - 1)..4 * (k - 1) + 4] == b[4 * k..4 * k + 4];
        }
      }
    }
  }

  lemma {:induction false} CommunitySet(b: seq<Byte>)
    requires |b| % 4 == 0
    ensures Elems(CanonSet(CommVals(b))) == set k | 0 <= k < |b| / 4 :: Spelled(b[4 * k..4 * k + 4])
  {
    hide Spelled, CommVals, CanonSet;
    CommunityNumbers(b);
    var s := CommVals(b);
    assert Elems(s) == set k | 0 <= k < |b| / 4 :: s[k];
    assert forall k :: 0 <= k < |b| / 4 ==> s[k] == Spelled(b[4 * k..4 * k + 4]);
    var t := set k | 0 <= k < |b| / 4 :: Spelled(b[4 * k..4 * k + 4]);
    forall x ensures x in Elems(s) <==> x in t {
      if x in Elems(s) {
        var k :| 0 <= k < |s| && s[k] == x;
        assert x == Spelled(b[4 * k..4 * k + 4]);
      }
      if x in t {
        var k :| 0 <= k < |b| / 4 && Spelled(b[4 * k..4 * k + 4]) == x;
        assert s[k] == x;
      }
    }
  }

  /** How a malformed value ends. */
  lemma {:induction false} BadEnds(peer: Peer, t: Tlv)
    requires Modelled(t.typ) && FlagsRight(t.typ, t.flags)
    ensures EndsWrong(peer, t, Bad(peer, t))
  {
    FlagBits(t.flags);
    hide FlagsOf;
  }

  lemma {:induction false} FlagsEnd(peer: Peer, t: Tlv)
    requires Modelled(t.typ) && !FlagsRight(t.typ, t.flags)
    ensures
      var m := Malformed(peer, t.typ, FlagsOf(t.flags));
      EndsWrong(peer, t, if m.None? then Skip else Stop(m.value))
  {
    FlagBits(t.flags);
    hide FlagsOf;
  }

  /** Every record of a modelled type, right or wrong. */
  lemma {:induction false} RecordMeans(others: Others, peer: Peer, t: Tlv)
    requires Modelled(t.typ)
    ensures
      var e := EffectOf(others, peer, t);
      if FlagsRight(t.typ, t.flags) && ValueRight(peer, t) then RightLeaves(peer, t, e) else EndsWrong(peer, t, e)
  {
    hide FlagInvalid, Malformed, ParsePath, Martian, Spelled, Val16, Val32, CommVals, CanonSet, FlagsOf, FlagsRight, EndsWrong, Bad;
    FlagsRightIff(t.typ, t.flags);
    if FlagsRight(t.typ, t.flags) {
      BadEnds(peer, t);
      ValueMeans(others, peer, t);
    } else {
      FlagsEnd(peer, t);
    }
  }

  lemma {:induction false} ValueMeans(others: Others, peer: Peer, t: Tlv)
    requires Modelled(t.typ)
    ensures if ValueRight(peer, t) then RightLeaves(peer, t, Handle(others, peer, t)) else Handle(others, peer, t) == Bad(peer, t)
  {
    hide ParsePath, Martian, Spelled, Val16, Val32, CommVals, CanonSet, Bad;
    var v := t.value;
    if |v| == 4 {
      MartianIff(v);
      Value32(v);
    }
    if t.typ == 7 || t.typ == 18 {
      AggregatorMeans(v);
    }
    if t.typ == 8 && |v| % 4 == 0 {
      CommunitySet(v);
      assert StrictlyIncreasing(CanonSet(CommVals(v)));
    }
  }

  lemma {:induction false} AggregatorMeans(v: seq<Byte>)
    ensures |v| == 8 ==> Val32(v[..4]) == Spelled(v[..4]) && Val32(v[4..]) == Spelled(v[4..])
    ensures |v| == 6 ==> Val16(v[..2]) == Spelled(v[..2]) && Val32(v[2..]) == Spelled(v[2..])
  {
    hide Spelled, Val16, Val32;
    if |v| == 8 {
      Value32(v[..4]);
      Value32(v[4..]);
    } else if |v| == 6 {
      Value16(v[..2]);
      Value32(v[2..]);
    }
  }

  // ---------------------------------------------------------------------
  // The records of a message

  /** Some record of the message leaves this value. */
  ghost predicate Carries(others: Others, peer: Peer, ts: seq<Tlv>, k: Byte, v: Value) {
    exists t :: t in ts && t.typ == k && EffectOf(others, peer, t) == Store(v)
  }

  ghost predicate Has(others: Others, peer: Peer, ts: seq<Tlv>, k: Byte) {
    exists t :: t in ts && t.typ == k && EffectOf(others, peer, t).Store?
  }

  /**
    The mandatory attributes are there: ORIGIN, AS_PATH and a next hop, and
    LOCAL_PREF from an internal peer.  None are needed where only MP_UNREACH_NLRI
    is left, or nothing at all by a peer that restarts.
   */
  ghost predicate Complete(others: Others, peer: Peer, ts: seq<Tlv>) {
    || (peer.restart && forall k :: !Has(others, peer, ts, k))
    || (Has(others, peer, ts, 15) && forall k :: Has(others, peer, ts, k) ==> k == 15)
    || (&& Has(others, peer, ts, 1) && Has(others, peer, ts, 2)
        && (Has(others, peer, ts, 3) || Has(others, peer, ts, 14))
        && (peer.sort == Ibgp ==> Has(others, peer, ts, 5)))
  }

  /** A 2-byte AGGREGATOR that is not AS_TRANS, 23456, beside AS4_AGGREGATOR makes the 4-byte attributes void. */
  ghost predicate Voided(others: Others, peer: Peer, ts: seq<Tlv>) {
    exists x, y ::
      && Carries(others, peer, ts, 7, AggregatorValue(x)) && Carries(others, peer, ts, 18, AggregatorValue(y))
      && x.asn != 23456
  }

  /** The path that an AS_PATH of `a` comes to. */
  ghost predicate Arrives(others: Others, peer: Peer, ts: seq<Tlv>, a: Path, q: Path) {
    if !peer.as4 && !Voided(others, peer, ts) && Has(others, peer, ts, 17) then
      exists f :: Carries(others, peer, ts, 17, PathValue(f)) && q == Reconcile(a, f)
    else q == a
  }

  /** What a path must be like for the sort of the peer. */
  ghost predicate PathAllowed(peer: Peer, q: Path) {
    match peer.sort
    case Ibgp => true
    case ConfedPeer => q != [] && q[0].kind in {ConfedSequence, ConfedSet}
    case Ebgp =>
      && (forall i :: 0 <= i < |q| ==> q[i].kind in {AsSequence, AsSet})
      && (peer.firstAs.Some? ==> q != [] && q[0].kind == AsSequence && q[0].asns != [] && q[0].asns[0] == peer.firstAs.value)
  }

  ghost predicate PathFine(others: Others, peer: Peer, ts: seq<Tlv>) {
    forall a, q :: Carries(others, peer, ts, 2, PathValue(a)) && Arrives(others, peer, ts, a, q) ==> PathAllowed(peer, q)
  }

  lemma {:induction false} AllowedIff(peer: Peer, q: Path)
    ensures PathAllowed(peer, q) <==> !PathRefused(peer, q)
  {
  }

  /** What the records leave, value by value. */
  ghost predicate Collected(others: Others, peer: Peer, ts: seq<Tlv>, f: map<Byte, Value>) {
    && (forall k :: k in f <==> Has(others, peer, ts, k))
    && (forall k, v :: k in f && f[k] == v <==> Carries(others, peer, ts, k, v))
  }

  lemma {:induction false} Collects(others: Others, peer: Peer, ts: seq<Tlv>, f: map<Byte, Value>)
    requires DistinctTypes(ts) && Leaves(others, peer, ts, map[], f)
    ensures Collected(others, peer, ts, f)
  {
    hide EffectOf;
    forall k ensures k in f <==> Has(others, peer, ts, k) {
      CollectsAt(others, peer, ts, f, k);
    }
    forall k, v ensures k in f && f[k] == v <==> Carries(others, peer, ts, k, v) {
      CollectsAt(others, peer, ts, f, k);
    }
  }

  lemma {:induction false} CollectsAt(others: Others, peer: Peer, ts: seq<Tlv>, f: map<Byte, Value>, k: Byte)
    requires DistinctTypes(ts) && Leaves(others, peer, ts, map[], f)
    ensures k in f <==> Has(others, peer, ts, k)
    ensures forall v :: k in f && f[k] == v <==> Carries(others, peer, ts, k, v)
  {
    hide EffectOf;
    if t :| t in ts && t.typ == k {
      OneOfType(ts, t);
      hide DistinctTypes;
      assert forall u :: u in ts && u.typ == k ==> u == t;
    }
  }

  lemma {:induction false} OneOfType(ts: seq<Tlv>, t: Tlv)
    requires DistinctTypes(ts) && t in ts
    ensures forall u :: u in ts && u.typ == t.typ ==> u == t
  {
  }

  lemma {:induction false} MissingIff(others: Others, peer: Peer, ts: seq<Tlv>, f: map<Byte, Value>)
    requires Collected(others, peer, ts, f)
    ensures Missing(peer, f) <==> !Complete(others, peer, ts)
  {
    hide Has, Carries;
    assert f == map[] <==> forall k :: !Has(others, peer, ts, k) by {
      if f != map[] {
        var k :| k in f;
      }
    }
    assert f.Keys == {BGP_ATTR_MP_UNREACH_NLRI} <==> Has(others, peer, ts, 15) && forall k :: Has(others, peer, ts, k) ==> k == 15;
  }

  // ---------------------------------------------------------------------
  // The end of the parse

  ghost predicate PathTyped(others: Others, peer: Peer, ts: seq<Tlv>) {
    && (forall v :: Carries(others, peer, ts, 2, v) || Carries(others, peer, ts, 17, v) ==> v.PathValue?)
    && (forall v :: Carries(others, peer, ts, 7, v) || Carries(others, peer, ts, 18, v) ==> v.AggregatorValue?)
  }

  lemma {:induction false} RecordsTyped(others: Others, peer: Peer, ts: seq<Tlv>)
    ensures PathTyped(others, peer, ts)
  {
    forall k, v | k in {2, 7, 17, 18} && Carries(others, peer, ts, k, v)
      ensures if k in {2, 17} then v.PathValue? else v.AggregatorValue?
    {
      var t :| t in ts && t.typ == k && EffectOf(others, peer, t) == Store(v);
      RecordMeans(others, peer, t);
      hide EffectOf, ParsePath, Spelled, FlagsRight;
    }
  }

  /** The fields with the 4-byte helpers worked in. */
  lemma {:induction false} MungedPath(others: Others, peer: Peer, ts: seq<Tlv>, f: map<Byte, Value>, a: Path)
    requires Collected(others, peer, ts, f) && PathTyped(others, peer, ts) && Carries(others, peer, ts, 2, PathValue(a))
    ensures PathAt(f, 2) == Some(a)
    ensures PathAt(Munge(peer, f, a), 2).Some?
    ensures forall q :: Arrives(others, peer, ts, a, q) <==> PathAt(Munge(peer, f, a), 2) == Some(q)
  {
    hide Has, Carries, Reconcile;
    assert 2 in f && f[2] == PathValue(a);
    VoidedIff(others, peer, ts, f);
    assert Has(others, peer, ts, 17) <==> 17 in f;
    if 17 in f {
      assert Carries(others, peer, ts, 17, f[17]);
    }
    MungeAggregatorKeeps(f);
    hide MungeAggregator, IgnoreAs4Path;
    forall q ensures Arrives(others, peer, ts, a, q) <==> PathAt(Munge(peer, f, a), 2) == Some(q) {
      if 17 in f {
        assert forall g :: Carries(others, peer, ts, 17, PathValue(g)) <==> f[17] == PathValue(g);
      }
    }
  }

  lemma {:induction false} VoidedIff(others: Others, peer: Peer, ts: seq<Tlv>, f: map<Byte, Value>)
    requires Collected(others, peer, ts, f) && PathTyped(others, peer, ts)
    ensures Voided(others, peer, ts) <==> IgnoreAs4Path(f)
  {
    hide Has, Carries;
    if Voided(others, peer, ts) {
      var x, y :| Carries(others, peer, ts, 7, AggregatorValue(x)) && Carries(others, peer, ts, 18, AggregatorValue(y)) && x.asn != 23456;
    }
    if IgnoreAs4Path(f) {
      assert Carries(others, peer, ts, 7, f[7]) && Carries(others, peer, ts, 18, f[18]);
      var x, y := f[7].agg, f[18].agg;
      assert Carries(others, peer, ts, 7, AggregatorValue(x)) && Carries(others, peer, ts, 18, AggregatorValue(y));
    }
  }

  lemma {:induction false} MungeAggregatorKeeps(f: map<Byte, Value>)
    ensures forall k :: k != 7 ==> (k in MungeAggregator(f) <==> k in f) && (k in f ==> MungeAggregator(f)[k] == f[k])
  {
  }

  /**
    When a message gives an attribute, for a peer of any sort: its records have
    different types, none of them ends the parse, the mandatory ones are there,
    and the path suits the sort of the peer.
   */
  lemma {:induction false} AttributeIff(others: Others, peer: Peer, ts: seq<Tlv>)
    requires forall i :: 0 <= i < |ts| ==> TlvFits(ts[i])
    ensures ParseAttributes(others, peer, Concat(ts)).Attribute? <==>
      DistinctTypes(ts) && NoneStops(others, peer, ts) && Complete(others, peer, ts) && PathFine(others, peer, ts)
  {
    hide EffectOf, FoldTlvs, ParseTlvs, Concat, Leaves, Finish, TlvFits, Complete, PathFine, Missing, NoneStops, DistinctTypes, Collected;
    var st := St(map[], {});
    ParseConcat(others, peer, ts, st);
    FoldAccepts(others, peer, ts, st);
    var r := FoldTlvs(others, peer, ts, st);
    if r.Accepted? {
      FoldLeaves(others, peer, ts, st);
      Collects(others, peer, ts, r.st.fields);
      MissingIff(others, peer, ts, r.st.fields);
      FinishIff(others, peer, ts, r.st.fields);
    } else {
      assert Unseen(ts, st.seen);
    }
  }

  lemma {:induction false} FinishIff(others: Others, peer: Peer, ts: seq<Tlv>, f: map<Byte, Value>)
    requires Collected(others, peer, ts, f)
    ensures Finish(peer, f).Attribute? <==> !Missing(peer, f) && PathFine(others, peer, ts)
  {
    hide Missing, Munge, PathRefused, PathAllowed, Carries, Has, Arrives;
    RecordsTyped(others, peer, ts);
    PathCarried(others, peer, ts, f);
    var p := PathAt(f, 2);
    if p.Some? {
      MungedPath(others, peer, ts, f, p.value);
      var q := PathAt(Munge(peer, f, p.value), 2).value;
      AllowedIff(peer, q);
      assert Arrives(others, peer, ts, p.value, q);
    }
  }

  lemma {:induction false} PathCarried(others: Others, peer: Peer, ts: seq<Tlv>, f: map<Byte, Value>)
    requires Collected(others, peer, ts, f) && PathTyped(others, peer, ts)
    ensures forall a :: PathAt(f, 2) == Some(a) <==> Carries(others, peer, ts, 2, PathValue(a))
    ensures PathAt(f, 2).None? <==> !Has(others, peer, ts, 2)
  {
    hide Has, Carries;
    if 2 in f {
      assert Carries(others, peer, ts, 2, f[2]);
    }
  }

  // ---------------------------------------------------------------------
  // The attribute

  /** The aggregator: a 4-byte one stands in for AS_TRANS, and alone keeps no address. */
  ghost predicate AggregatorGiven(others: Others, peer: Peer, ts: seq<Tlv>, g: map<Byte, Value>) {
    forall x ::
      (7 in g && g[7] == AggregatorValue(x)) <==>
        if peer.as4 || !Has(others, peer, ts, 18) || !Has(others, peer, ts, 2) then Carries(others, peer, ts, 7, AggregatorValue(x))
        else if !Has(others, peer, ts, 7) then
          exists y :: Carries(others, peer, ts, 18, AggregatorValue(y)) && x == Aggregator(y.asn, 0)
        else if Voided(others, peer, ts) then Carries(others, peer, ts, 7, AggregatorValue(x))
        else Carries(others, peer, ts, 18, AggregatorValue(x))
  }

  /** The path: what arrives, behind the local AS if one is prepended. */
  ghost predicate PathGiven(others: Others, peer: Peer, ts: seq<Tlv>, g: map<Byte, Value>) {
    && (2 in g <==> Has(others, peer, ts, 2))
    && forall a, q :: Carries(others, peer, ts, 2, PathValue(a)) && Arrives(others, peer, ts, a, q) ==>
         && 2 in g && g[2].PathValue? && Normal(g[2].path)
         && Hops(g[2].path) == (if peer.localAs.Some? then [One(peer.localAs.value)] else []) + Hops(q)
  }

  /** Everything else is what the records leave. */
  ghost predicate RestGiven(others: Others, peer: Peer, ts: seq<Tlv>, g: map<Byte, Value>) {
    forall k, v :: k != 2 && k != 7 ==> (k in g && g[k] == v <==> Carries(others, peer, ts, k, v))
  }

  /** The attribute that a message gives; an external peer's LOCAL_PREF is never in it. */
  lemma {:induction false} AttributeGiven(others: Others, peer: Peer, ts: seq<Tlv>)
    requires forall i :: 0 <= i < |ts| ==> TlvFits(ts[i])
    requires ParseAttributes(others, peer, Concat(ts)).Attribute?
    ensures
      var g := ParseAttributes(others, peer, Concat(ts)).fields;
      && RestGiven(others, peer, ts, g) && AggregatorGiven(others, peer, ts, g) && PathGiven(others, peer, ts, g)
      && (peer.sort == Ebgp ==> 5 !in g)
  {
    hide EffectOf, FoldTlvs, ParseTlvs, Concat, Leaves, Finish, TlvFits, Missing, NoneStops, DistinctTypes, Collected, RestGiven, AggregatorGiven, PathGiven;
    var st := St(map[], {});
    ParseConcat(others, peer, ts, st);
    FoldAccepts(others, peer, ts, st);
    var f := FoldTlvs(others, peer, ts, st).st.fields;
    FoldLeaves(others, peer, ts, st);
    Collects(others, peer, ts, f);
    RecordsTyped(others, peer, ts);
    FinishGives(others, peer, ts, f);
    if peer.sort == Ebgp {
      NoLocalPref(others, peer, ts, Finish(peer, f).fields);
    }
  }

  lemma {:induction false} NoLocalPref(others: Others, peer: Peer, ts: seq<Tlv>, g: map<Byte, Value>)
    requires peer.sort == Ebgp && RestGiven(others, peer, ts, g)
    ensures 5 !in g
  {
    forall v ensures !Carries(others, peer, ts, 5, v) {
      if Carries(others, peer, ts, 5, v) {
        var t :| t in ts && t.typ == 5 && EffectOf(others, peer, t) == Store(v);
        RecordMeans(others, peer, t);
      }
    }
    hide Carries;
    var v := if 5 in g then g[5] else Present;
    assert !Carries(others, peer, ts, 5, v);
  }

  lemma {:induction false} FinishGives(others: Others, peer: Peer, ts: seq<Tlv>, f: map<Byte, Value>)
    requires Collected(others, peer, ts, f) && PathTyped(others, peer, ts) && Finish(peer, f).Attribute?
    ensures
      var g := Finish(peer, f).fields;
      RestGiven(others, peer, ts, g) && AggregatorGiven(others, peer, ts, g) && PathGiven(others, peer, ts, g)
  {
    hide Missing, Munge, PathRefused, WithLocalAs, Carries, Has, Arrives, RestGiven, AggregatorGiven, PathGiven, PathTyped, Collected;
    PathCarried(others, peer, ts, f);
    var p := PathAt(f, 2);
    if p.None? {
      PlainGiven(others, peer, ts, f);
    } else {
      MungedPath(others, peer, ts, f, p.value);
      var m := Munge(peer, f, p.value);
      var q := PathAt(m, 2).value;
      MungedGiven(others, peer, ts, f, p.value, m[2 := PathValue(WithLocalAs(peer, q))]);
      ArrivedNormal(others, peer, ts, p.value, q);
      LocalAsHops(peer, q);
      PathIsGiven(others, peer, ts, p.value, q, m[2 := PathValue(WithLocalAs(peer, q))]);
    }
  }

  lemma {:induction false} PlainGiven(others: Others, peer: Peer, ts: seq<Tlv>, f: map<Byte, Value>)
    requires Collected(others, peer, ts, f) && !Has(others, peer, ts, 2)
    ensures RestGiven(others, peer, ts, f) && AggregatorGiven(others, peer, ts, f) && PathGiven(others, peer, ts, f)
  {
    hide Has, Arrives;
    forall v ensures !Carries(others, peer, ts, 2, v) {
      CarriesHas(others, peer, ts, 2, v);
    }
    hide Carries;
  }

  lemma {:induction false} CarriesHas(others: Others, peer: Peer, ts: seq<Tlv>, k: Byte, v: Value)
    ensures Carries(others, peer, ts, k, v) ==> Has(others, peer, ts, k)
  {
    hide EffectOf;
  }

  lemma {:induction false} MungedGiven(others: Others, peer: Peer, ts: seq<Tlv>, f: map<Byte, Value>, a: Path, g: map<Byte, Value>)
    requires Collected(others, peer, ts, f) && PathTyped(others, peer, ts) && Carries(others, peer, ts, 2, PathValue(a))
    requires forall k :: k != 2 ==> (k in g <==> k in Munge(peer, f, a)) && (k in g ==> g[k] == Munge(peer, f, a)[k])
    ensures RestGiven(others, peer, ts, g) && AggregatorGiven(others, peer, ts, g)
  {
    hide Has, Carries, Reconcile, MungePath;
    MungeAggregatorKeeps(f);
    assert Has(others, peer, ts, 2) by { assert 2 in f; }
    VoidedIff(others, peer, ts, f);
    assert RestGiven(others, peer, ts, g) by { hide MungeAggregator; }
    AggregatorMunges(others, peer, ts, f);
    hide MungeAggregator, Voided;
    assert Munge(peer, f, a) == f || forall k :: k != 2 ==> (k in Munge(peer, f, a) <==> k in MungeAggregator(f)) && (k in Munge(peer, f, a) ==> Munge(peer, f, a)[k] == MungeAggregator(f)[k]);
  }

  lemma {:induction false} AggregatorMunges(others: Others, peer: Peer, ts: seq<Tlv>, f: map<Byte, Value>)
    requires Collected(others, peer, ts, f) && PathTyped(others, peer, ts)
    ensures
      var g := MungeAggregator(f);
      forall x ::
        (7 in g && g[7] == AggregatorValue(x)) <==>
          if !Has(others, peer, ts, 18) then Carries(others, peer, ts, 7, AggregatorValue(x))
          else if !Has(others, peer, ts, 7) then
            exists y :: Carries(others, peer, ts, 18, AggregatorValue(y)) && x == Aggregator(y.asn, 0)
          else if Voided(others, peer, ts) then Carries(others, peer, ts, 7, AggregatorValue(x))
          else Carries(others, peer, ts, 18, AggregatorValue(x))
  {
    hide Has, Carries;
    VoidedIff(others, peer, ts, f);
    if 18 in f {
      assert Carries(others, peer, ts, 18, f[18]);
      assert forall y :: Carries(others, peer, ts, 18, AggregatorValue(y)) <==> f[18] == AggregatorValue(y);
    }
    if 7 in f {
      assert Carries(others, peer, ts, 7, f[7]);
    }
    hide Voided;
  }

  lemma {:induction false} ArrivedNormal(others: Others, peer: Peer, ts: seq<Tlv>, a: Path, q: Path)
    requires Carries(others, peer, ts, 2, PathValue(a)) && Arrives(others, peer, ts, a, q)
    ensures Normal(q)
  {
    hide Reconcile, Voided, Has;
    CarriedNormal(others, peer, ts, 2, a);
    hide Carries;
    if f :| Carries(others, peer, ts, 17, PathValue(f)) && q == Reconcile(a, f) {
      CarriedNormal(others, peer, ts, 17, f);
      hide Normal;
      NormalParts(a);
      NormalParts(f);
      ReconcileSafe(a, f);
    }
  }

  lemma {:induction false} NormalParts(p: Path)
    requires Normal(p)
    ensures NonEmptySegments(p)
  {
  }

  lemma {:induction false} CarriedNormal(others: Others, peer: Peer, ts: seq<Tlv>, k: Byte, a: Path)
    requires k in {2, 17} && Carries(others, peer, ts, k, PathValue(a))
    ensures Normal(a)
  {
    var t :| t in ts && t.typ == k && EffectOf(others, peer, t) == Store(PathValue(a));
    RecordMeans(others, peer, t);
    hide EffectOf;
    ParsedNormal(t.value, if k == 17 then true else peer.as4);
  }

  lemma {:induction false} ParsedNormal(b: seq<Byte>, use32bit: bool)
    requires ParsePath(b, use32bit).Some?
    ensures Normal(ParsePath(b, use32bit).value)
  {
    hide ParseSegments, Norm;
    var p := ParseSegments(b, use32bit).value;
    ParsedNonEmpty(b, use32bit);
    NormIsNormal(p);
  }

  lemma {:induction false} ParsedNonEmpty(b: seq<Byte>, use32bit: bool)
    requires ParseSegments(b, use32bit).Some?
    ensures NonEmptySegments(ParseSegments(b, use32bit).value)
    decreases |b|
  {
    hide ParseOne;
    if b != [] {
      SegmentRead(b, use32bit);
      var (seg, size) := ParseOne(b, use32bit).value;
      ParsedNonEmpty(b[size..], use32bit);
    }
  }

  lemma {:induction false} LocalAsHops(peer: Peer, q: Path)
    requires Normal(q)
    ensures
      var z := WithLocalAs(peer, q);
      Normal(z) && Hops(z) == (if peer.localAs.Some? then [One(peer.localAs.value)] else []) + Hops(q)
  {
    hide Normal, Hops, AddAsns;
    if peer.localAs.Some? {
      AddSequenceNormal(q, peer.localAs.value);
    } else {
      assert [] + Hops(q) == Hops(q);
    }
  }

  lemma {:induction false} PathIsGiven(others: Others, peer: Peer, ts: seq<Tlv>, a: Path, q: Path, g: map<Byte, Value>)
    requires Carries(others, peer, ts, 2, PathValue(a)) && 2 in g && g[2].PathValue? && Normal(g[2].path)
    requires forall b :: Carries(others, peer, ts, 2, PathValue(b)) ==> b == a
    requires forall r :: Arrives(others, peer, ts, a, r) <==> r == q
    requires Hops(g[2].path) == (if peer.localAs.Some? then [One(peer.localAs.value)] else []) + Hops(q)
    ensures PathGiven(others, peer, ts, g)
  {
    CarriesHas(others, peer, ts, 2, PathValue(a));
    hide Carries, Has, Arrives, Hops, Normal;
  }
}
