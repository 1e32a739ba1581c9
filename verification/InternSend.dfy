/**
  Sending an interned attribute.  Writing AS4_PATH takes the confederation
  segments out of the attribute's own path, which is an interned object shared by
  everything that refers to it, and stays in the hash table under its old key:
  no lookup finds it there any more.
 */
module InternSend {
  import opened Asns
  import opened AsPaths
  import opened AsPathWire
  import opened Interning
  import opened InternRuns
  import AsPathLaws
  import AsPathObjects
  import As4Transit

  // ---------------------------------------------------------------------
  // Paths as contents

  /** The content of an interned path, segment by segment. */
  function PathCode(p: Path): seq<int> {
    if p == [] then [] else [KindCode(p[0].kind) as int, |p[0].asns|] + p[0].asns + PathCode(p[1..])
  }

  lemma {:induction false} CodeInjective(p: Path, q: Path)
    requires PathCode(p) == PathCode(q)
    ensures p == q
  {
    if p == [] || q == [] {
      CodeNone(p);
      CodeNone(q);
    } else {
      CodeFirst(p);
      CodeFirst(q);
      var n := |p[0].asns|;
      assert PathCode(p)[0] == PathCode(q)[0] && PathCode(p)[1] == PathCode(q)[1];
      assert PathCode(p)[2..2 + n] == p[0].asns && PathCode(q)[2..2 + n] == q[0].asns;
      assert PathCode(p)[2 + n..] == PathCode(p[1..]) && PathCode(q)[2 + n..] == PathCode(q[1..]);
      hide PathCode;
      CodeInjective(p[1..], q[1..]);
      assert p == [p[0]] + p[1..] && q == [q[0]] + q[1..];
    }
  }

  lemma {:induction false} CodeNone(p: Path)
    ensures PathCode(p) == [] <==> p == []
  {
  }

  lemma {:induction false} CodeFirst(p: Path)
    requires p != []
    ensures |PathCode(p)| >= 2 + |p[0].asns| && PathCode(p)[0] == KindCode(p[0].kind) && PathCode(p)[1] == |p[0].asns|
  {
  }

  // ---------------------------------------------------------------------
  // A part changed in place

  /**
    The object has another value now; its entry in the table is found by neither
    value, which takes that the hash function tells their texts apart.
   */
  ghost function Rewritten(w: World, r: Ref, v: Value): World {
    if r !in w.t.parts || w.t.parts[r].value == v then w
    else
      World(w.t.(parts := w.t.parts[r := w.t.parts[r].(value := v)], partIndex := w.t.partIndex - {w.t.parts[r].value}), w.h)
  }

  /** All that does not depend on values: every count is right, every pointer goes to an allocated object of its kind. */
  ghost predicate Conserved(w: World) {
    && AttrsIndexed(w.t.attrs, w.t.attrIndex, w.t.next)
    && AttrsLive(w.t.parts, w.t.attrs)
    && BaasLive(w.t.attrs, w.t.baas)
    && PartsCounted(w.t.parts, w.t.attrs, w.h.parts)
    && AttrsCounted(w.t.attrs, w.t.baas, w.h.attrs)
  }

  /** A change in place keeps every count and every pointer. */
  lemma {:induction false} RewrittenConserved(w: World, r: Ref, v: Value)
    requires Conserved(w) && (r in w.t.parts ==> v.kind == w.t.parts[r].value.kind)
    ensures Conserved(Rewritten(w, r, v))
  {
    hide AttrsIndexed, BaasLive, AttrsCounted, HeldByAttrs;
    var parts := Rewritten(w, r, v).t.parts;
    assert parts.Keys == w.t.parts.Keys;
    forall a | a in w.t.attrs ensures Live(parts, w.t.attrs[a].key.slots) {
      assert Live(w.t.parts, w.t.attrs[a].key.slots);
    }
  }

  /** The table still finds exactly the allocated objects if and only if the value is what it was. */
  lemma {:induction false} RewrittenIndexedIff(w: World, r: Ref, v: Value)
    requires PartsIndexed(w.t.parts, w.t.partIndex, w.t.next) && r in w.t.parts
    ensures
      var t := Rewritten(w, r, v).t;
      PartsIndexed(t.parts, t.partIndex, t.next) <==> v == w.t.parts[r].value
  {
    var t := Rewritten(w, r, v).t;
    if v != w.t.parts[r].value {
      assert t.parts[r].value == v;
      assert v in t.partIndex ==> t.partIndex[v] == w.t.partIndex[v];
      assert v in w.t.partIndex ==> w.t.parts[w.t.partIndex[v]].value == v;
    }
  }

  /** Interning the value that the object has now finds the object if and only if it had that value before. */
  lemma {:induction false} RewrittenFoundIff(w: World, r: Ref, v: Value)
    requires PartsIndexed(w.t.parts, w.t.partIndex, w.t.next) && r in w.t.parts
    ensures
      var (t, s) := InternPart(Rewritten(w, r, v).t, v);
      && r in t.parts && s in t.parts && t.parts[r].value == t.parts[s].value == v
      && (s == r <==> v == w.t.parts[r].value)
  {
    var t := Rewritten(w, r, v).t;
    assert v in t.partIndex ==> t.partIndex[v] == w.t.partIndex[v] && w.t.parts[w.t.partIndex[v]].value == v;
  }

  // ---------------------------------------------------------------------
  // Runs with sending

  datatype SendOp = Other(op: Op) | Send(attr: Ref, path: Path, use32bit: bool)

  ghost predicate PathOf(t: Tables, a: Ref, p: Path) {
    && a in t.attrs && AsPath in t.attrs[a].key.slots
    && t.attrs[a].key.slots[AsPath] in t.parts
    && t.parts[t.attrs[a].key.slots[AsPath]].value == Value(AsPath, PathCode(p))
  }

  ghost predicate SendAllowed(w: World, op: SendOp) {
    match op
    case Other(o) => Allowed(w, o)
    case Send(a, p, _) => PathOf(w.t, a, p)
  }

  /** `bgp_packet_attribute` on the path object of an interned attribute. */
  ghost function SendApply(w: World, op: SendOp): World
    requires SendAllowed(w, op)
  {
    match op
    case Other(o) => Apply(w, o)
    case Send(a, p, use32bit) =>
      if !use32bit && As4Transit.HoldsLarge(p) then
        Rewritten(w, w.t.attrs[a].key.slots[AsPath], Value(AsPath, PathCode(AsPathObjects.DropConfeds(p))))
      else w
  }

  /** Sending that changes no path. */
  ghost predicate Harmless(op: SendOp) {
    match op
    case Other(_) => true
    case Send(_, p, use32bit) => use32bit || !As4Transit.HoldsLarge(p) || ConfedFree(p)
  }

  lemma {:induction false} SameCodeIff(p: Path)
    ensures PathCode(AsPathObjects.DropConfeds(p)) == PathCode(p) <==> ConfedFree(p)
  {
    hide PathCode;
    AsPathLaws.ConfedFreeKept(p);
    if PathCode(AsPathObjects.DropConfeds(p)) == PathCode(p) {
      CodeInjective(AsPathObjects.DropConfeds(p), p);
    }
  }

  lemma {:induction false} GoodParts(w: World)
    ensures Good(w) <==> Conserved(w) && PartsIndexed(w.t.parts, w.t.partIndex, w.t.next)
  {
    hide AttrsIndexed, BaasLive, AttrsCounted, PartsCounted, AttrsLive, PartsIndexed;
  }

  /** One step keeps every count, and sharing and the index exactly when it changes no path. */
  lemma {:induction false} SendStep(w: World, op: SendOp)
    requires Good(w) && SendAllowed(w, op)
    ensures Conserved(SendApply(w, op))
    ensures Good(SendApply(w, op)) <==> Harmless(op)
  {
    hide Good, Conserved, Apply, Allowed, Rewritten, PathCode, PartsIndexed;
    GoodParts(w);
    GoodParts(SendApply(w, op));
    match op
    case Other(o) => ApplyGood(w, o);
    case Send(a, p, use32bit) =>
      SameCodeIff(p);
      if !use32bit && As4Transit.HoldsLarge(p) {
        var r, v := w.t.attrs[a].key.slots[AsPath], Value(AsPath, PathCode(AsPathObjects.DropConfeds(p)));
        RewrittenConserved(w, r, v);
        RewrittenIndexedIff(w, r, v);
      }
  }

  ghost predicate IsSendRun(ops: seq<SendOp>, ws: seq<World>) {
    && |ws| == |ops| + 1
    && ws[0] == Start
    && forall i :: 0 <= i < |ops| ==> SendAllowed(ws[i], ops[i]) && ws[i + 1] == SendApply(ws[i], ops[i])
  }

  /**
    Runs in which attributes are also sent: reference conservation, sharing and
    the index hold in every state exactly when no sending changed a path, that
    is, every path sent with AS4_PATH was free of confederation segments.
   */
  lemma {:induction false} SendRunGoodIff(ops: seq<SendOp>, ws: seq<World>, n: nat)
    requires IsSendRun(ops, ws) && n < |ws|
    ensures (forall i :: 0 <= i <= n ==> Good(ws[i])) <==> (forall k :: 0 <= k < n ==> Harmless(ops[k]))
  {
    hide Good, SendAllowed, SendApply, Harmless;
    if n == 0 {
      StartGood();
    } else {
      SendRunGoodIff(ops, ws, n - 1);
      var good, harmless := forall i :: 0 <= i < n ==> Good(ws[i]), forall k :: 0 <= k < n - 1 ==> Harmless(ops[k]);
      assert good <==> harmless;
      if good {
        SendStep(ws[n - 1], ops[n - 1]);
      }
      assert (forall i :: 0 <= i <= n ==> Good(ws[i])) <==> good && Good(ws[n]);
      assert (forall k :: 0 <= k < n ==> Harmless(ops[k])) <==> harmless && Harmless(ops[n - 1]);
    }
  }

  /** The first sending that changes a path still leaves every count right. */
  lemma {:induction false} FirstChangeConserved(ops: seq<SendOp>, ws: seq<World>, n: nat)
    requires IsSendRun(ops, ws) && n < |ops| && forall k :: 0 <= k < n ==> Harmless(ops[k])
    ensures Conserved(ws[n + 1]) && (Good(ws[n + 1]) <==> Harmless(ops[n]))
  {
    hide Good, Conserved, SendAllowed, SendApply, Harmless;
    SendRunGoodIff(ops, ws, n);
    SendStep(ws[n], ops[n]);
  }

  // ---------------------------------------------------------------------
  // Such a run

  const SentPath: Path := [Segment(ConfedSequence, [1]), Segment(AsSequence, [70000])]

  /** An attribute is interned and sent to a 2-byte peer: every count is still right, but the table has lost its path. */
  lemma {:induction false} SendingUnshares() returns (ops: seq<SendOp>, ws: seq<World>)
    ensures |ops| == 2 && IsSendRun(ops, ws) && ops[1].Send? && ops[1].path == SentPath
    ensures Good(ws[1]) && Conserved(ws[2]) && !Good(ws[2])
  {
    hide PathCode, InternAttr, Good, Conserved, SendApply, Allowed, PathOf;
    var given := map[AsPath := Fresh(PathCode(SentPath))];
    var op := AttrIn([], given);
    StartGood();
    SentAllowed(given);
    ApplyGood(Start, op);
    var (w, a) := InternAttr(Start, [], given);
    assert Apply(Start, op) == w;
    ops := [Other(op), Send(a, SentPath, false)];
    assert SendAllowed(w, ops[1]);
    SentFirst(op, w);
    SentLarge();
    SendStep(w, ops[1]);
    ws := [Start, w, SendApply(w, ops[1])];
  }

  lemma {:induction false} SentFirst(op: Op, w: World)
    requires Allowed(Start, op) && w == Apply(Start, op)
    ensures SendAllowed(Start, Other(op)) && SendApply(Start, Other(op)) == w
  {
    hide Allowed, Apply;
  }

  lemma {:induction false} SentLarge()
    ensures As4Transit.HoldsLarge(SentPath) && !ConfedFree(SentPath)
  {
    assert 70000 in SentPath[1].asns;
    assert 70000 in Members(SentPath);
    assert IsConfed(SentPath[0].kind);
  }

  lemma {:induction false} SentAllowed(given: map<Kind, Given>)
    requires given == map[AsPath := Fresh(PathCode(SentPath))]
    ensures Allowed(Start, AttrIn([], given))
    ensures PathOf(InternAttr(Start, [], given).0.t, InternAttr(Start, [], given).1, SentPath)
  {
    hide PathCode;
  }
}
