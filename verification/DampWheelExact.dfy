/**
  When the walk that frees records leaves the lists whole: exactly when the
  records freed end the slot behind a record that is alone on its list, or are
  the whole slot while no record is outside the wheel.
 */
module DampWheelExact {
  import opened Options
  import opened DampLists
  import opened DampWheel

  // ---------------------------------------------------------------------
  // Ways for the lists to be broken

  /** On whole lists, neighbours link to each other, are different and are on one list. */
  lemma Neighbours(q: Ptrs, lists: seq<seq<Route>>, at: map<Route, nat>, x: Route)
    requires Filed(q.links, q.heads, lists, at) && x in at
    ensures x in q.links && at[x] < |q.heads| == |lists|
    ensures q.links[x].next.Some? ==>
      var y := q.links[x].next.value;
      y != x && y in at && at[y] == at[x] && y in q.links && q.links[y].prev == Some(x)
    ensures q.links[x].prev.Some? ==>
      var y := q.links[x].prev.value;
      y != x && y in at && at[y] == at[x] && y in q.links && q.links[y].next == Some(x)
    ensures q.heads[at[x]].Some?
  {
    hide Filed, Chain;
    var i := IndexIn(q.links, q.heads, lists, at, x);
    ChainNeighbours(q.links, q.heads[at[x]], lists[at[x]], i);
  }

  lemma IndexIn(links: Links, heads: Heads, lists: seq<seq<Route>>, at: map<Route, nat>, x: Route) returns (i: nat)
    requires Filed(links, heads, lists, at) && x in at
    ensures at[x] < |heads| == |lists|
    ensures i < |lists[at[x]]| && lists[at[x]][i] == x
    ensures Chain(links, heads[at[x]], lists[at[x]])
    ensures forall y :: y in lists[at[x]] ==> y in at && at[y] == at[x]
  {
    hide Chain;
    i :| 0 <= i < |lists[at[x]]| && lists[at[x]][i] == x;
  }

  lemma ChainNeighbours(links: Links, head: Option<Route>, s: seq<Route>, i: nat)
    requires Chain(links, head, s) && i < |s|
    ensures head.Some? && s[i] in links
    ensures links[s[i]].next.Some? ==>
      var y := links[s[i]].next.value;
      y != s[i] && y in s && y in links && links[y].prev == Some(s[i])
    ensures links[s[i]].prev.Some? ==>
      var y := links[s[i]].prev.value;
      y != s[i] && y in s && y in links && links[y].next == Some(s[i])
  {
    assert links[s[i]] == Link(After(s, i), Before(s, i));
    if i + 1 < |s| {
      assert links[s[i + 1]] == Link(After(s, i + 1), Before(s, i + 1));
    }
    if i > 0 {
      assert links[s[i - 1]] == Link(After(s, i - 1), Before(s, i - 1));
    }
  }

  lemma HeadsPlaced(q: Ptrs, lists: seq<seq<Route>>, at: map<Route, nat>, k: nat)
    requires Filed(q.links, q.heads, lists, at) && k < |q.heads|
    ensures q.heads[k].Some? ==> q.heads[k].value in at && at[q.heads[k].value] == k
  {
    assert Chain(q.links, q.heads[k], lists[k]);
    if q.heads[k].Some? {
      assert lists[k][0] in lists[k];
    }
  }

  /** The successor of `b` does not link back to it. */
  ghost predicate Stuck(q: Ptrs, b: Route, y: Route) {
    && b in q.links && q.links[b].next == Some(y)
    && (y == b || y !in q.links || q.links[y].prev != Some(b))
  }

  lemma StuckBroken(q: Ptrs, at: map<Route, nat>, b: Route, y: Route)
    requires Stuck(q, b, y) && b in at
    ensures !Whole(q, at)
  {
    hide Filed;
    forall lists | Filed(q.links, q.heads, lists, at) ensures false {
      Neighbours(q, lists, at, b);
    }
  }

  /** The predecessor of `x` does not link to it. */
  lemma TornBroken(q: Ptrs, at: map<Route, nat>, x: Route, v: Route)
    requires x in at && x in q.links && q.links[x].prev == Some(v)
    requires x == v || v !in q.links || q.links[v].next != Some(x)
    ensures !Whole(q, at)
  {
    hide Filed;
    forall lists | Filed(q.links, q.heads, lists, at) ensures false {
      Neighbours(q, lists, at, x);
    }
  }

  /** Neighbours that belong to different lists. */
  lemma CrossBroken(q: Ptrs, at: map<Route, nat>, x: Route, y: Route)
    requires x in at && y in at && at[x] != at[y]
    requires x in q.links && (q.links[x].next == Some(y) || q.links[x].prev == Some(y))
    ensures !Whole(q, at)
  {
    hide Filed;
    forall lists | Filed(q.links, q.heads, lists, at) ensures false {
      Neighbours(q, lists, at, x);
    }
  }

  lemma HeadBroken(q: Ptrs, at: map<Route, nat>, x: Route, k: nat)
    requires k < |q.heads| && x in at
    requires (q.heads[k] == Some(x) && at[x] != k) || (q.heads[k] == None && at[x] == k)
    ensures !Whole(q, at)
  {
    hide Filed;
    forall lists | Filed(q.links, q.heads, lists, at) ensures false {
      HeadsPlaced(q, lists, at, k);
      Neighbours(q, lists, at, x);
    }
  }

  // ---------------------------------------------------------------------
  // What the rest of the walk does not change

  ghost function NextPv(f: Fate, pv: Option<Route>): Option<Route> {
    if f.to.Some? then Some(f.r) else pv
  }

  /** Behind a kept record the walk goes on, and no list head is a record still to be visited. */
  lemma StepOn(p: Ptrs, fs: seq<Fate>, pv: Option<Route>)
    requires Queue(p, fs, pv) && pv.Some? && fs != [] && HeadsClear(p.heads, fs)
    ensures
      var q := Step(p, fs[0]);
      && Queue(q, fs[1..], NextPv(fs[0], pv))
      && HeadsClear(q.heads, fs[1..])
      && |q.heads| == |p.heads|
  {
    hide Step;
    ClearTail(p.heads, fs);
    if fs[0].to.Some? {
      PushQueue(p, fs, pv);
    } else {
      FreeQueue(p, fs, pv);
      hide Queue, InQ;
    }
  }

  /** A record that was visited keeps its successor, unless the next ones are freed. */
  lemma StepNext(p: Ptrs, fs: seq<Fate>, pv: Option<Route>, x: Route)
    requires Queue(p, fs, pv) && fs != []
    requires x in p.links && !InQ(x, fs) && pv != Some(x)
    ensures x in Step(p, fs[0]).links && Step(p, fs[0]).links[x].next == p.links[x].next
  {
  }

  lemma {:induction false} FoldNext(p: Ptrs, fs: seq<Fate>, pv: Option<Route>, x: Route)
    requires Queue(p, fs, pv) && pv.Some? && HeadsClear(p.heads, fs)
    requires x in p.links && !InQ(x, fs) && pv != Some(x)
    ensures x in Fold(p, fs).links && Fold(p, fs).links[x].next == p.links[x].next
    decreases |fs|
  {
    hide Step, Queue, HeadsClear;
    if fs != [] {
      StepOn(p, fs, pv);
      StepNext(p, fs, pv, x);
      FoldNext(Step(p, fs[0]), fs[1..], NextPv(fs[0], pv), x);
    }
  }

  /** No visited record becomes the predecessor of another. */
  lemma StepPrev(p: Ptrs, fs: seq<Fate>, pv: Option<Route>, x: Route, v: Route)
    requires Queue(p, fs, pv) && pv.Some? && fs != []
    requires !InQ(x, fs) && !InQ(v, fs)
    requires x !in p.links || p.links[x].prev != Some(v)
    ensures x !in Step(p, fs[0]).links || Step(p, fs[0]).links[x].prev != Some(v)
  {
    assert fs[1..] != [] ==> InQ(fs[1..][0].r, fs[1..]);
    assert p.links[fs[0].r] == Link(First(fs[1..]), pv);
    hide Queue;
  }

  lemma {:induction false} FoldPrev(p: Ptrs, fs: seq<Fate>, pv: Option<Route>, x: Route, v: Route)
    requires Queue(p, fs, pv) && pv.Some? && HeadsClear(p.heads, fs)
    requires !InQ(x, fs) && !InQ(v, fs)
    requires x !in p.links || p.links[x].prev != Some(v)
    ensures x !in Fold(p, fs).links || Fold(p, fs).links[x].prev != Some(v)
    decreases |fs|
  {
    hide Step, Queue, HeadsClear;
    if fs != [] {
      StepOn(p, fs, pv);
      StepPrev(p, fs, pv, x, v);
      FoldPrev(Step(p, fs[0]), fs[1..], NextPv(fs[0], pv), x, v);
    }
  }

  lemma StuckFold(p: Ptrs, fs: seq<Fate>, pv: Option<Route>, b: Route, y: Route)
    requires Queue(p, fs, pv) && pv.Some? && HeadsClear(p.heads, fs)
    requires !InQ(b, fs) && !InQ(y, fs) && pv != Some(b) && Stuck(p, b, y)
    ensures Stuck(Fold(p, fs), b, y)
  {
    hide Queue, HeadsClear, InQ, Fold;
    FoldNext(p, fs, pv, b);
    if y != b {
      FoldPrev(p, fs, pv, y, b);
    }
  }

  // ---------------------------------------------------------------------
  // A kept record behind freed ones

  ghost function FirstKept(fs: seq<Fate>): (m: nat)
    ensures m <= |fs|
    ensures AllFreed(fs[..m])
    ensures m < |fs| ==> fs[m].to.Some?
  {
    if fs == [] || fs[0].to.Some? then 0
    else
      var m := FirstKept(fs[1..]);
      assert fs[..m + 1] == [fs[0]] + fs[1..][..m];
      m + 1
  }

  /** Some freed record is followed, at any distance, by one that is kept. */
  ghost predicate Gap(fs: seq<Fate>) {
    !AllFreed(fs[FirstFreed(fs)..])
  }

  lemma GapTail(fs: seq<Fate>)
    requires fs != [] && fs[0].to.Some?
    ensures Gap(fs) <==> Gap(fs[1..])
    ensures FirstFreed(fs) == 1 + FirstFreed(fs[1..])
  {
    assert fs[FirstFreed(fs)..] == fs[1..][FirstFreed(fs[1..])..];
  }

  lemma InQSuffix(r: Route, fs: seq<Fate>, m: nat)
    requires m <= |fs| && InQ(r, fs[m..])
    ensures InQ(r, fs)
  {
    if m > 0 {
      assert fs[m..] == fs[1..][m - 1..];
      InQSuffix(r, fs[1..], m - 1);
    } else {
      assert fs[m..] == fs;
    }
  }

  lemma {:induction false} FoldSplit(p: Ptrs, fs: seq<Fate>, m: nat)
    requires m < |fs|
    ensures Fold(p, fs) == Fold(Step(Fold(p, fs[..m]), fs[m]), fs[m + 1..])
  {
    assert fs == fs[..m] + fs[m..];
    FoldConcat(p, fs[..m], fs[m..]);
    assert fs[m..][0] == fs[m] && fs[m..][1..] == fs[m + 1..];
  }

  /** Freed records between two kept ones leave the first with a successor that does not link back. */
  lemma {:induction false} GapStuck(p: Ptrs, fs: seq<Fate>, v: Route) returns (b: Route, y: Route)
    requires Queue(p, fs, Some(v)) && HeadsClear(p.heads, fs) && v in p.links
    requires Gap(fs)
    ensures Stuck(Fold(p, fs), b, y)
    ensures b == v || exists i :: 0 <= i < |fs| && fs[i].r == b && fs[i].to.Some?
    decreases |fs|
  {
    hide Step, Stuck;
    if fs[0].to.Some? {
      GapTail(fs);
      StepOn(p, fs, Some(v));
      StepHas(p, fs[0]);
      b, y := GapStuck(Step(p, fs[0]), fs[1..], fs[0].r);
      if b != fs[0].r {
        var i :| 0 <= i < |fs| - 1 && fs[1..][i].r == b && fs[1..][i].to.Some?;
        assert fs[i + 1].r == b;
      }
    } else {
      b := v;
      y := StuckAfterRun(p, fs, v);
    }
  }

  lemma StepHas(p: Ptrs, f: Fate)
    requires f.to.Some? && f.to.value < |p.heads|
    ensures f.r in Step(p, f).links
  {
  }

  lemma StuckAfterRun(p: Ptrs, fs: seq<Fate>, v: Route) returns (y: Route)
    requires Queue(p, fs, Some(v)) && HeadsClear(p.heads, fs) && v in p.links
    requires fs != [] && fs[0].to.None? && !AllFreed(fs)
    ensures Stuck(Fold(p, fs), v, y)
  {
    hide Step, Stuck;
    var m := FirstKept(fs);
    assert m < |fs| by {
      assert fs[..|fs|] == fs;
    }
    FreeRunSome(p, fs, v, m);
    FoldSplit(p, fs, m);
    var q := Fold(p, fs[..m]);
    var rest := fs[m..];
    y := fs[m].r;
    assert rest[0] == fs[m] && rest[1..] == fs[m + 1..];
    StepOn(q, rest, Some(v));
    StepSticks(q, rest, v);
    StuckFold(Step(q, rest[0]), rest[1..], Some(y), v, y);
  }

  lemma FreeRunSome(p: Ptrs, fs: seq<Fate>, v: Route, m: nat)
    requires Queue(p, fs, Some(v)) && HeadsClear(p.heads, fs) && v in p.links
    requires 1 <= m <= |fs| && AllFreed(fs[..m])
    ensures
      var q := Fold(p, fs[..m]);
      && Queue(q, fs[m..], Some(v)) && HeadsClear(q.heads, fs[m..]) && v in q.links
      && q.links[v].next == First(fs[m..]) && q.heads == p.heads
  {
    hide Fold;
    assert forall i :: 0 <= i < m ==> fs[..m][i] == fs[i];
    assert !InQ(v, fs);
    FreeRun(p, fs, Some(v), m);
    var q := Fold(p, fs[..m]);
    hide Queue;
    forall k | 0 <= k < |q.heads| && q.heads[k].Some? ensures !InQ(q.heads[k].value, fs[m..]) {
      if InQ(q.heads[k].value, fs[m..]) {
        InQSuffix(q.heads[k].value, fs, m);
      }
    }
  }

  /** A record put on a list behind a predecessor that still links to it does not link back. */
  lemma StepSticks(q: Ptrs, rest: seq<Fate>, v: Route)
    requires Queue(q, rest, Some(v)) && HeadsClear(q.heads, rest) && v in q.links
    requires rest != [] && rest[0].to.Some? && q.links[v].next == First(rest)
    ensures Stuck(Step(q, rest[0]), v, rest[0].r)
    ensures !InQ(v, rest[1..]) && !InQ(rest[0].r, rest[1..]) && v != rest[0].r
  {
    assert InQ(rest[0].r, rest);
  }

  // ---------------------------------------------------------------------
  // Where the kept records are meant to be

  lemma {:induction false} AtOthers(at: map<Route, nat>, fs: seq<Fate>, r: Route)
    requires !InQ(r, fs)
    ensures r in AtAfter(at, fs) <==> r in at
    ensures r in at ==> AtAfter(at, fs)[r] == at[r]
    decreases |fs|
  {
    if fs != [] {
      AtOthers(if fs[0].to.Some? then at[fs[0].r := fs[0].to.value] else at, fs[1..], r);
    }
  }

  lemma {:induction false} AtKept(p: Ptrs, at: map<Route, nat>, fs: seq<Fate>, pv: Option<Route>, i: nat)
    requires Queue(p, fs, pv) && i < |fs| && fs[i].to.Some?
    ensures fs[i].r in AtAfter(at, fs) && AtAfter(at, fs)[fs[i].r] == fs[i].to.value
    decreases |fs|
  {
    var at1 := if fs[0].to.Some? then at[fs[0].r := fs[0].to.value] else at;
    if i == 0 {
      AtOthers(at1, fs[1..], fs[0].r);
    } else {
      assert fs[i] == fs[1..][i - 1];
      AtKept(p, at1, fs[1..], Some(fs[0].r), i - 1);
    }
  }

  // ---------------------------------------------------------------------
  // Necessity, case by case

  /** A gap anywhere behind a kept record. */
  lemma GapBroken(q: Ptrs, rest: seq<Fate>, v: Route, at: map<Route, nat>)
    requires Queue(q, rest, Some(v)) && HeadsClear(q.heads, rest) && v in q.links
    requires Gap(rest) && v in at
    ensures !Whole(Fold(q, rest), AtAfter(at, rest))
  {
    hide Stuck, Gap, HeadsClear, Fold;
    assert !InQ(v, rest);
    var b, y := GapStuck(q, rest, v);
    if b == v {
      AtOthers(at, rest, v);
    } else {
      var i :| 0 <= i < |rest| && rest[i].r == b && rest[i].to.Some?;
      AtKept(q, at, rest, Some(v), i);
    }
    StuckBroken(Fold(q, rest), AtAfter(at, rest), b, y);
  }

  /** Only freed records at the end, behind a kept one that is not alone on its list. */
  lemma TailBroken(q: Ptrs, lists: seq<seq<Route>>, at: map<Route, nat>, rest: seq<Fate>, v: Route)
    requires Midway(q, lists, at, rest, Some(v)) && rest != [] && AllFreed(rest)
    requires v in at && at[v] < |q.heads| && q.heads[at[v]] == Some(v) && [v] !in lists
    ensures !Whole(Fold(q, rest), AtAfter(at, rest))
  {
    MidwayParts(q, lists, at, rest, Some(v));
    var x := SecondOn(q, lists, at, v);
    assert !InQ(x, rest) && !InQ(v, rest);
    hide Midway, Fold, Queue, Away;
    assert rest[..|rest|] == rest && rest[|rest|..] == [];
    FreeRun(q, rest, Some(v), |rest|);
    AtFreed(at, rest);
    TornBroken(Fold(q, rest), at, x, v);
  }

  lemma SecondOn(q: Ptrs, lists: seq<seq<Route>>, at: map<Route, nat>, v: Route) returns (x: Route)
    requires Filed(q.links, q.heads, lists, at)
    requires v in at && at[v] < |q.heads| && q.heads[at[v]] == Some(v) && [v] !in lists
    ensures x in at && x != v && x in q.links && q.links[x].prev == Some(v) && v in q.links
  {
    hide Filed, Chain;
    var i := IndexIn(q.links, q.heads, lists, at, v);
    x := ChainSecond(q.links, q.heads[at[v]], lists[at[v]], v);
  }

  lemma ChainSecond(links: Links, head: Option<Route>, s: seq<Route>, v: Route) returns (x: Route)
    requires Chain(links, head, s) && head == Some(v) && s != [v]
    ensures x in s && x != v && x in links && links[x].prev == Some(v) && v in links
  {
    assert s[0] == v;
    assert |s| == 1 ==> s == [v];
    x := s[1];
    assert links[s[1]] == Link(After(s, 1), Before(s, 1));
    assert s[0] in links;
  }

  /** The whole slot is freed while another record is outside the wheel. */
  lemma AllFreedBroken(p: Ptrs, lists: seq<seq<Route>>, at: map<Route, nat>, fs: seq<Fate>)
    requires Midway(p, lists, at, fs, None) && fs != [] && AllFreed(fs)
    requires |lists| > 0 && lists[|lists| - 1] != []
    ensures !Whole(Fold(p, fs), AtAfter(at, fs))
  {
    MidwayParts(p, lists, at, fs, None);
    var k := |lists| - 1;
    var x := lists[k][0];
    assert x in lists[k];
    assert x in at && at[x] == k;
    hide Midway, Fold, Queue, Away, Filed;
    assert fs[..|fs|] == fs && fs[|fs|..] == [];
    FreeRun(p, fs, None, |fs|);
    AtFreed(at, fs);
    HeadBroken(Fold(p, fs), at, x, k);
  }

  /** After leading freed records: the last list is taken to start with the first kept one, `b`. */
  ghost predicate Led(q: Ptrs, rest: seq<Fate>, b: Route, k: nat) {
    && Queue(q, rest, Some(b)) && HeadsClear(q.heads, rest)
    && b in q.links && k < |q.heads|
    && (if k == |q.heads| - 1 then q.links[b] == Link(Some(b), Some(b)) else q.heads[|q.heads| - 1] == Some(b))
  }

  lemma Leading(p: Ptrs, lists: seq<seq<Route>>, at: map<Route, nat>, fs: seq<Fate>, m: nat)
    requires Midway(p, lists, at, fs, None) && 1 <= m < |fs|
    requires AllFreed(fs[..m]) && fs[m].to.Some?
    ensures Led(Step(Fold(p, fs[..m]), fs[m]), fs[m + 1..], fs[m].r, fs[m].to.value)
  {
    hide Fold, Step;
    MidwayParts(p, lists, at, fs, None);
    AwayHeadsClear(p, lists, at, fs);
    assert forall i :: 0 <= i < m ==> fs[..m][i] == fs[i];
    FreeRun(p, fs, None, m);
    var q, rest := Fold(p, fs[..m]), fs[m..];
    assert rest[0] == fs[m] && rest[1..] == fs[m + 1..];
    assert q.heads == p.heads[|p.heads| - 1 := Some(fs[m].r)];
    assert Queue(q, rest, None) && Queue(q, rest[1..], Some(rest[0].r));
    LeadingClear(p.heads, fs, m);
    hide Midway, Freed;
    LeadingStep(q, rest);
  }

  lemma LeadingClear(heads: Heads, fs: seq<Fate>, m: nat)
    requires HeadsClear(heads, fs) && m < |fs| && |heads| > 0 && !InQ(fs[m].r, fs[m + 1..])
    ensures HeadsClear(heads[|heads| - 1 := Some(fs[m].r)], fs[m + 1..])
  {
    var heads' := heads[|heads| - 1 := Some(fs[m].r)];
    forall k | 0 <= k < |heads'| && heads'[k].Some? ensures !InQ(heads'[k].value, fs[m + 1..]) {
      if k < |heads| - 1 && InQ(heads[k].value, fs[m + 1..]) {
        InQSuffix(heads[k].value, fs, m + 1);
        assert false;
      }
    }
  }

  lemma LeadingStep(q: Ptrs, rest: seq<Fate>)
    requires Queue(q, rest, None) && rest != [] && rest[0].to.Some? && HeadsClear(q.heads, rest[1..])
    requires q.heads[|q.heads| - 1] == Some(rest[0].r)
    ensures Led(Step(q, rest[0]), rest[1..], rest[0].r, rest[0].to.value)
  {
    PushQueue(q, rest, None);
    hide Queue, HeadsClear;
  }

  /** Led onto the last list itself: `b` follows itself. */
  lemma SelfBroken(q: Ptrs, rest: seq<Fate>, b: Route, at: map<Route, nat>)
    requires |q.heads| > 0 && Led(q, rest, b, |q.heads| - 1) && b in at && !Gap(rest)
    ensures !Whole(Fold(q, rest), AtAfter(at, rest))
  {
    hide Fold, Step, HeadsClear;
    assert !InQ(b, rest);
    AtOthers(at, rest, b);
    if rest != [] && rest[0].to.Some? {
      StepOn(q, rest, Some(b));
      assert Fold(q, rest) == Fold(Step(q, rest[0]), rest[1..]) by { FoldOne(q, rest); }
      assert Stuck(Step(q, rest[0]), b, b) by { StepKeepsNext(q, rest[0], b); }
      assert !InQ(b, rest[1..]) && rest[0].r != b;
      StuckFold(Step(q, rest[0]), rest[1..], Some(rest[0].r), b, b);
      StuckBroken(Fold(q, rest), AtAfter(at, rest), b, b);
    } else {
      NoGapFreed(rest);
      FreedLink(q, rest, Some(b), b);
      TornBroken(Fold(q, rest), AtAfter(at, rest), b, b);
    }
  }

  lemma FoldOne(p: Ptrs, fs: seq<Fate>)
    requires fs != []
    ensures Fold(p, fs) == Fold(Step(p, fs[0]), fs[1..])
  {
  }

  lemma StepKeepsNext(p: Ptrs, f: Fate, x: Route)
    requires f.to.Some? && x in p.links && x != f.r
    ensures x in Step(p, f).links && Step(p, f).links[x].next == p.links[x].next
  {
  }

  lemma NoGapFreed(rest: seq<Fate>)
    requires !Gap(rest) && (rest != [] ==> rest[0].to.None?)
    ensures AllFreed(rest)
  {
    assert FirstFreed(rest) == 0;
    assert rest[0..] == rest;
  }

  /** Freeing the rest behind a kept record changes no other predecessor, and no list head. */
  lemma FreedLink(q: Ptrs, rest: seq<Fate>, pv: Option<Route>, x: Route)
    requires Queue(q, rest, pv) && pv.Some? && AllFreed(rest) && x in q.links && !InQ(x, rest)
    ensures x in Fold(q, rest).links && Fold(q, rest).links[x].prev == q.links[x].prev
    ensures Fold(q, rest).heads == q.heads
  {
    if rest != [] {
      assert rest[..|rest|] == rest && rest[|rest|..] == [];
      hide Fold, Queue, InQ;
      FreeRun(q, rest, pv, |rest|);
    }
  }

  /** Led onto another list, while the last list still starts with `b`. */
  lemma {:induction false} HookedBroken(q: Ptrs, rest: seq<Fate>, pv: Option<Route>, b: Route, at: map<Route, nat>)
    requires Queue(q, rest, pv) && HeadsClear(q.heads, rest) && pv.Some? && !Gap(rest)
    requires b in q.links && !InQ(b, rest) && b in at && at[b] != |q.heads| - 1
    requires q.heads[|q.heads| - 1] == Some(b)
    ensures !Whole(Fold(q, rest), AtAfter(at, rest))
    decreases |rest|
  {
    hide Fold, Step, HeadsClear, Gap;
    if rest == [] || rest[0].to.None? {
      NoGapFreed(rest);
      FreedLink(q, rest, pv, b);
      AtFreed(at, rest);
      HeadBroken(Fold(q, rest), at, b, |q.heads| - 1);
    } else {
      var f := rest[0];
      var at1 := at[f.r := f.to.value];
      StepOn(q, rest, pv);
      GapTail(rest);
      FoldOne(q, rest);
      assert f.r != b && !InQ(b, rest[1..]);
      assert AtAfter(at, rest) == AtAfter(at1, rest[1..]);
      if f.to.value == |q.heads| - 1 {
        HookStep(q, f, b);
        CrossedBroken(Step(q, f), rest[1..], f.r, b, at1);
      } else {
        PushElsewhere(q, f, b);
        HookedBroken(Step(q, f), rest[1..], Some(f.r), b, at1);
      }
    }
  }

  lemma HookStep(q: Ptrs, f: Fate, b: Route)
    requires |q.heads| > 0 && f.to == Some(|q.heads| - 1) && q.heads[|q.heads| - 1] == Some(b) && b in q.links && f.r != b
    ensures
      var z := Step(q, f);
      && f.r in z.links && z.links[f.r].next == Some(b)
      && b in z.links && z.links[b].prev == Some(f.r)
  {
  }

  lemma PushElsewhere(q: Ptrs, f: Fate, b: Route)
    requires |q.heads| > 0 && f.to.Some? && f.to.value < |q.heads| - 1 && b in q.links
    ensures b in Step(q, f).links && Step(q, f).heads[|q.heads| - 1] == q.heads[|q.heads| - 1]
  {
  }

  /** `c` was put on the last list in front of `b`, which belongs to another one. */
  lemma CrossedBroken(q: Ptrs, rest: seq<Fate>, c: Route, b: Route, at: map<Route, nat>)
    requires Queue(q, rest, Some(c)) && HeadsClear(q.heads, rest) && !Gap(rest)
    requires c in q.links && q.links[c].next == Some(b)
    requires b in q.links && q.links[b].prev == Some(c)
    requires !InQ(b, rest) && b in at && c in at && at[b] != at[c]
    ensures !Whole(Fold(q, rest), AtAfter(at, rest))
  {
    hide Fold, Step, HeadsClear, Gap;
    assert !InQ(c, rest);
    AtOthers(at, rest, b);
    AtOthers(at, rest, c);
    if rest == [] || rest[0].to.None? {
      NoGapFreed(rest);
      FreedLink(q, rest, Some(c), b);
      CrossBroken(Fold(q, rest), AtAfter(at, rest), b, c);
    } else {
      StepOn(q, rest, Some(c));
      FoldOne(q, rest);
      assert rest[0].r != c && !InQ(c, rest[1..]);
      StepKeepsNext(q, rest[0], c);
      FoldNext(Step(q, rest[0]), rest[1..], Some(rest[0].r), c);
      CrossBroken(Fold(q, rest), AtAfter(at, rest), c, b);
    }
  }

  /** Leading freed records, then a kept one. */
  lemma LeadingBroken(p: Ptrs, lists: seq<seq<Route>>, at: map<Route, nat>, fs: seq<Fate>)
    requires Midway(p, lists, at, fs, None) && fs != [] && fs[0].to.None? && !AllFreed(fs)
    ensures !Whole(Fold(p, fs), AtAfter(at, fs))
  {
    hide Fold, Step, Midway, HeadsClear;
    var m := FirstKept(fs);
    assert m < |fs| by {
      assert fs[..|fs|] == fs;
    }
    Leading(p, lists, at, fs, m);
    FoldSplit(p, fs, m);
    var q, rest, f := Step(Fold(p, fs[..m]), fs[m]), fs[m + 1..], fs[m];
    AtSplit(at, fs, m);
    var at1 := AtAfter(at, fs[..m])[f.r := f.to.value];
    if Gap(rest) {
      GapBroken(q, rest, f.r, at1);
    } else if f.to.value == |q.heads| - 1 {
      SelfBroken(q, rest, f.r, at1);
    } else {
      HookedBroken(q, rest, Some(f.r), f.r, at1);
    }
  }

  lemma AtSplit(at: map<Route, nat>, fs: seq<Fate>, m: nat)
    requires m < |fs| && fs[m].to.Some?
    ensures AtAfter(at, fs) == AtAfter(AtAfter(at, fs[..m])[fs[m].r := fs[m].to.value], fs[m + 1..])
  {
    assert fs == fs[..m] + fs[m..];
    AtConcat(at, fs[..m], fs[m..]);
    assert fs[m..][0] == fs[m] && fs[m..][1..] == fs[m + 1..];
  }

  lemma {:induction false} QueueTarget(p: Ptrs, fs: seq<Fate>, pv: Option<Route>, i: nat)
    requires Queue(p, fs, pv) && i < |fs| && fs[i].to.Some?
    ensures fs[i].to.value < |p.heads|
    decreases |fs|
  {
    if i > 0 {
      assert fs[i] == fs[1..][i - 1];
      QueueTarget(p, fs[1..], Some(fs[0].r), i - 1);
    }
  }

  lemma AtLast(at: map<Route, nat>, fs: seq<Fate>, j: nat)
    requires 0 < j <= |fs| && fs[j - 1].to.Some?
    ensures fs[j - 1].r in AtAfter(at, fs[..j]) && AtAfter(at, fs[..j])[fs[j - 1].r] == fs[j - 1].to.value
  {
    assert fs[..j] == fs[..j - 1] + [fs[j - 1]];
    AtConcat(at, fs[..j - 1], [fs[j - 1]]);
    assert [fs[j - 1]][1..] == [];
  }

  /** Kept records first, then freed ones, not all the way or behind one that is not alone. */
  lemma KeptThenBroken(p: Ptrs, lists: seq<seq<Route>>, at: map<Route, nat>, fs: seq<Fate>, j: nat)
    requires Midway(p, lists, at, fs, None) && j == FirstFreed(fs) && 0 < j < |fs|
    requires !AllFreed(fs[j..]) || [fs[j - 1].r] !in PushAll(lists, fs[..j])
    ensures !Whole(Fold(p, fs), AtAfter(at, fs))
  {
    hide Fold, Step, Midway, HeadsClear, Queue, Filed, Away, PushAll, AtAfter;
    KeptRun(p, lists, at, fs, None, j);
    var q, rest, v := Fold(p, fs[..j]), fs[j..], fs[j - 1];
    var lists1, at1 := PushAll(lists, fs[..j]), AtAfter(at, fs[..j]);
    assert fs == fs[..j] + rest;
    FoldConcat(p, fs[..j], rest);
    AtConcat(at, fs[..j], rest);
    MidwayParts(p, lists, at, fs, None);
    MidwayParts(q, lists1, at1, rest, Some(v.r));
    assert fs[..j][j - 1] == v;
    QueueTarget(p, fs, None, j - 1);
    AtLast(at, fs, j);
    if AllFreed(rest) {
      TailBroken(q, lists1, at1, rest, v.r);
    } else {
      AwayHeadsClear(q, lists1, at1, rest);
      assert FirstFreed(rest) == 0 && rest[0..] == rest;
      FiledSize(q.links, q.heads, lists1, at1);
      GapBroken(q, rest, v.r, at1);
    }
  }

  /**
    The timer's walk leaves every list whole exactly when no record is freed, or
    the freed ones are the last of the slot and nothing that the misplaced
    unlinking touches was in use.
   */
  lemma WalkWholeIff(p: Ptrs, lists: seq<seq<Route>>, at: map<Route, nat>, fs: seq<Fate>)
    requires Midway(p, lists, at, fs, None) && |lists| > 0
    ensures Whole(Fold(p, fs), AtAfter(at, fs)) <==> Harmless(lists, fs)
  {
    hide Midway, Fold, AllFreed, AtAfter, Whole;
    var j := FirstFreed(fs);
    if Harmless(lists, fs) {
      HarmlessWhole(p, lists, at, fs);
    } else if j > 0 {
      NoneFreed(fs);
      KeptThenBroken(p, lists, at, fs, j);
    } else {
      NoneFreed(fs);
      assert fs[0..] == fs;
      if AllFreed(fs) {
        AllFreedBroken(p, lists, at, fs);
      } else {
        LeadingBroken(p, lists, at, fs);
      }
    }
  }

  lemma NoneFreed(fs: seq<Fate>)
    ensures FirstFreed(fs) == |fs| ==> AllFreed(fs[FirstFreed(fs)..])
  {
  }
}
