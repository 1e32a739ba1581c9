/**
  The reuse timer's walk over the records of one slot, as pointer updates.  The
  slot's list is detached first; each record is then put on a list, or freed.
  Freeing takes the record for a member of the last list, which it is not.
 */
module DampWheel {
  import opened Options
  import opened DampLists

  /** What happens to a record of the slot: the list it is put on, or nothing when it is freed. */
  datatype Fate = Fate(r: Route, to: Option<nat>)

  datatype Ptrs = Ptrs(links: Links, heads: Heads)

  /** One record.  (The guards hold whenever the walk reaches it.) */
  function Step(p: Ptrs, f: Fate): Ptrs {
    if f.to.Some? && f.to.value < |p.heads| then
      var (links, heads) := Push(p.links, p.heads, f.to.value, f.r);
      Ptrs(links, heads)
    else if f.to.None? && |p.heads| > 0 && f.r in p.links then
      var (links, heads) := Cut(p.links, p.heads, |p.heads| - 1, f.r);
      Ptrs(links - {f.r}, heads)
    else
      p
  }

  function Fold(p: Ptrs, fs: seq<Fate>): Ptrs
    decreases |fs|
  {
    if fs == [] then p else Fold(Step(p, fs[0]), fs[1..])
  }

  ghost predicate InQ(r: Route, fs: seq<Fate>) {
    fs != [] && (fs[0].r == r || InQ(r, fs[1..]))
  }

  ghost function First(fs: seq<Fate>): Option<Route> {
    if fs == [] then None else Some(fs[0].r)
  }

  /** The records still to be visited: each links to the next, and back to the one before it. */
  ghost predicate Queue(p: Ptrs, fs: seq<Fate>, pv: Option<Route>)
    decreases |fs|
  {
    && |p.heads| > 0
    && (pv.Some? ==> !InQ(pv.value, fs))
    && (fs != [] ==>
          && fs[0].r in p.links && p.links[fs[0].r] == Link(First(fs[1..]), pv)
          && (fs[0].to.Some? ==> fs[0].to.value < |p.heads|)
          && Queue(p, fs[1..], Some(fs[0].r)))
  }

  /** No list starts with a record still to be visited. */
  ghost predicate HeadsClear(heads: Heads, fs: seq<Fate>) {
    forall k :: 0 <= k < |heads| && heads[k].Some? ==> !InQ(heads[k].value, fs)
  }

  lemma {:induction false} QueueKept(p: Ptrs, q: Ptrs, fs: seq<Fate>, pv: Option<Route>)
    requires Queue(p, fs, pv) && |q.heads| == |p.heads|
    requires forall r :: InQ(r, fs) && r in p.links ==> r in q.links && q.links[r] == p.links[r]
    ensures Queue(q, fs, pv)
    decreases |fs|
  {
    if fs != [] {
      assert forall r :: InQ(r, fs[1..]) ==> InQ(r, fs);
      QueueKept(p, q, fs[1..], Some(fs[0].r));
    }
  }

  lemma QueueTail(fs: seq<Fate>)
    requires fs != []
    ensures forall r :: InQ(r, fs[1..]) ==> InQ(r, fs)
  {
  }

  /** Putting the first record on a list leaves the others queued behind it. */
  lemma PushQueue(p: Ptrs, fs: seq<Fate>, pv: Option<Route>)
    requires Queue(p, fs, pv) && fs != [] && fs[0].to.Some?
    requires HeadsClear(p.heads, fs[1..])
    ensures
      var q := Step(p, fs[0]);
      && Queue(q, fs[1..], Some(fs[0].r))
      && HeadsClear(q.heads, fs[1..])
      && |q.heads| == |p.heads|
  {
    QueueKept(p, Step(p, fs[0]), fs[1..], Some(fs[0].r));
  }

  /** After some first records are freed and nothing else: `rest` is left of `fs`. */
  ghost predicate Freed(p: Ptrs, q: Ptrs, fs: seq<Fate>, rest: seq<Fate>, pv: Option<Route>) {
    && Queue(q, rest, pv)
    && q.heads == (if pv.None? && |p.heads| > 0 then p.heads[|p.heads| - 1 := First(rest)] else p.heads)
    && (forall x :: !InQ(x, fs) && x in p.links ==>
          x in q.links && q.links[x] == if pv == Some(x) then p.links[x].(next := First(rest)) else p.links[x])
  }

  /** Freeing the first record joins the next one to its predecessor, or takes it for a list head. */
  lemma FreeQueue(p: Ptrs, fs: seq<Fate>, pv: Option<Route>)
    requires Queue(p, fs, pv) && fs != [] && fs[0].to.None?
    ensures Freed(p, Step(p, fs[0]), fs, fs[1..], pv)
  {
    hide Step;
    FreeLinks(p, fs, pv);
    FreeQueueRest(p, Step(p, fs[0]), fs, pv);
    hide Queue;
    assert fs[1..] != [] ==> InQ(fs[1..][0].r, fs[1..]);
  }

  lemma FreeQueueRest(p: Ptrs, q: Ptrs, fs: seq<Fate>, pv: Option<Route>)
    requires Queue(p, fs, pv) && fs != [] && |q.heads| == |p.heads|
    requires q.links.Keys == p.links.Keys - {fs[0].r}
    requires forall x :: x in q.links ==> q.links[x] == Link(
      if pv == Some(x) then First(fs[1..]) else p.links[x].next,
      if First(fs[1..]) == Some(x) then pv else p.links[x].prev)
    ensures Queue(q, fs[1..], pv)
  {
    var rest := fs[1..];
    if rest != [] {
      assert Queue(p, rest, Some(fs[0].r)) && Queue(p, rest[1..], Some(rest[0].r));
      assert !InQ(rest[0].r, rest[1..]) && !InQ(fs[0].r, rest);
      assert forall r :: InQ(r, rest[1..]) ==> InQ(r, rest) && InQ(r, fs);
      QueueKept(p, q, rest[1..], Some(rest[0].r));
      assert InQ(rest[0].r, rest) && InQ(rest[0].r, fs);
    }
  }

  /** What freeing the first record does to every other one. */
  lemma FreeLinks(p: Ptrs, fs: seq<Fate>, pv: Option<Route>)
    requires Queue(p, fs, pv) && fs != [] && fs[0].to.None?
    ensures
      var q := Step(p, fs[0]);
      && q.heads == (if pv.None? then p.heads[|p.heads| - 1 := First(fs[1..])] else p.heads)
      && q.links.Keys == p.links.Keys - {fs[0].r}
      && forall x :: x in q.links ==> q.links[x] == Link(
           if pv == Some(x) then First(fs[1..]) else p.links[x].next,
           if First(fs[1..]) == Some(x) then pv else p.links[x].prev)
  {
    assert p.links[fs[0].r] == Link(First(fs[1..]), pv);
    assert InQ(fs[0].r, fs);
    if |fs| > 1 {
      assert fs[1..][0] == fs[1];
      assert InQ(fs[1].r, fs);
    }
    hide InQ, Queue;
  }

  lemma {:induction false} FoldConcat(p: Ptrs, fs: seq<Fate>, gs: seq<Fate>)
    ensures Fold(p, fs + gs) == Fold(Fold(p, fs), gs)
    decreases |fs|
  {
    if fs == [] {
      assert fs + gs == gs;
    } else {
      assert (fs + gs)[0] == fs[0] && (fs + gs)[1..] == fs[1..] + gs;
      FoldConcat(Step(p, fs[0]), fs[1..], gs);
    }
  }

  lemma {:induction false} FreeRun(p: Ptrs, fs: seq<Fate>, pv: Option<Route>, m: nat)
    requires Queue(p, fs, pv) && 1 <= m <= |fs|
    requires forall i :: 0 <= i < m ==> fs[i].to.None?
    ensures Freed(p, Fold(p, fs[..m]), fs, fs[m..], pv)
    decreases m
  {
    hide Step, InQ, Queue;
    FreeQueue(p, fs, pv);
    var q := Step(p, fs[0]);
    assert fs[..m][0] == fs[0];
    if m == 1 {
      assert fs[..m][1..] == [];
      assert Fold(q, []) == q;
    } else {
      FreeRun(q, fs[1..], pv, m - 1);
      assert fs[..m][1..] == fs[1..][..m - 1];
      assert fs[m..] == fs[1..][m - 1..];
      var z := Fold(q, fs[1..][..m - 1]);
      assert forall r :: InQ(r, fs[1..]) ==> InQ(r, fs) by { QueueTail(fs); }
      hide Freed;
      FreedTwice(p, q, z, fs, fs[m..], pv);
    }
  }

  lemma FreedTwice(p: Ptrs, q: Ptrs, z: Ptrs, fs: seq<Fate>, rest: seq<Fate>, pv: Option<Route>)
    requires fs != [] && Freed(p, q, fs, fs[1..], pv) && Freed(q, z, fs[1..], rest, pv)
    requires forall r :: InQ(r, fs[1..]) ==> InQ(r, fs)
    ensures Freed(p, z, fs, rest, pv)
  {
    hide Queue, InQ;
  }

  // ---------------------------------------------------------------------
  // Records that are kept

  ghost predicate AllKept(fs: seq<Fate>) {
    forall i :: 0 <= i < |fs| ==> fs[i].to.Some?
  }

  ghost predicate AllFreed(fs: seq<Fate>) {
    forall i :: 0 <= i < |fs| ==> fs[i].to.None?
  }

  /** Where the records are meant to be afterwards. */
  ghost function AtAfter(at: map<Route, nat>, fs: seq<Fate>): map<Route, nat>
    decreases |fs|
  {
    if fs == [] then at
    else AtAfter(if fs[0].to.Some? then at[fs[0].r := fs[0].to.value] else at, fs[1..])
  }

  /** The lists with the kept records put in front one after the other. */
  ghost function PushAll(lists: seq<seq<Route>>, fs: seq<Fate>): seq<seq<Route>>
    decreases |fs|
  {
    if fs == [] then lists
    else
      var f := fs[0];
      PushAll(if f.to.Some? && f.to.value < |lists| then lists[f.to.value := [f.r] + lists[f.to.value]] else lists, fs[1..])
  }

  /** No record still to be visited is on a list. */
  ghost predicate Away(at: map<Route, nat>, fs: seq<Fate>) {
    forall r :: InQ(r, fs) ==> r !in at
  }

  lemma AwayHeadsClear(p: Ptrs, lists: seq<seq<Route>>, at: map<Route, nat>, fs: seq<Fate>)
    requires Filed(p.links, p.heads, lists, at) && Away(at, fs)
    ensures HeadsClear(p.heads, fs)
  {
    forall k | 0 <= k < |p.heads| && p.heads[k].Some? ensures !InQ(p.heads[k].value, fs) {
      assert Chain(p.links, p.heads[k], lists[k]);
      assert lists[k][0] in lists[k];
      assert lists[k][0] in at;
    }
  }

  ghost predicate Midway(q: Ptrs, lists: seq<seq<Route>>, at: map<Route, nat>, rest: seq<Fate>, pv: Option<Route>) {
    Filed(q.links, q.heads, lists, at) && Away(at, rest) && Queue(q, rest, pv)
  }

  lemma KeptStep(p: Ptrs, lists: seq<seq<Route>>, at: map<Route, nat>, fs: seq<Fate>, pv: Option<Route>)
    requires Midway(p, lists, at, fs, pv) && fs != [] && fs[0].to.Some?
    ensures |lists| == |p.heads| && fs[0].to.value < |p.heads|
    ensures
      var k := fs[0].to.value;
      Midway(Step(p, fs[0]), lists[k := [fs[0].r] + lists[k]], at[fs[0].r := k], fs[1..], Some(fs[0].r))
  {
    hide Filed;
    AwayHeadsClear(p, lists, at, fs);
    ClearTail(p.heads, fs);
    QueueTail(fs);
    PushQueue(p, fs, pv);
    assert !InQ(fs[0].r, fs[1..]);
    assert InQ(fs[0].r, fs);
    FiledSize(p.links, p.heads, lists, at);
    PushFiled(p.links, p.heads, lists, at, fs[0].to.value, fs[0].r);
  }

  lemma ClearTail(heads: Heads, fs: seq<Fate>)
    requires HeadsClear(heads, fs) && fs != []
    ensures HeadsClear(heads, fs[1..])
  {
    QueueTail(fs);
    hide InQ;
  }

  ghost predicate PutFirst(q: Ptrs, f: Fate) {
    f.to.Some? && f.to.value < |q.heads| && q.heads[f.to.value] == Some(f.r)
  }

  lemma StepPutsFirst(p: Ptrs, f: Fate)
    requires f.to.Some? && f.to.value < |p.heads|
    ensures PutFirst(Step(p, f), f) && |Step(p, f).heads| == |p.heads|
  {
  }

  /** While records are only kept, every list stays well formed. */
  lemma {:induction false} KeptRun(p: Ptrs, lists: seq<seq<Route>>, at: map<Route, nat>, fs: seq<Fate>, pv: Option<Route>, m: nat)
    requires Midway(p, lists, at, fs, pv) && m <= |fs|
    requires AllKept(fs[..m])
    ensures Midway(Fold(p, fs[..m]), PushAll(lists, fs[..m]), AtAfter(at, fs[..m]), fs[m..], if m == 0 then pv else Some(fs[m - 1].r))
    ensures m > 0 && fs[m - 1].to.Some? && fs[m - 1].to.value < |p.heads| ==>
      PutFirst(Fold(p, fs[..m]), fs[m - 1])
    decreases m
  {
    hide Step, Midway;
    if m == 0 {
      assert fs[..m] == [] && fs[m..] == fs;
    } else {
      assert fs[..m][0] == fs[0];
      KeptStep(p, lists, at, fs, pv);
      var k := fs[0].to.value;
      assert fs[..m][1..] == fs[1..][..m - 1];
      assert fs[m..] == fs[1..][m - 1..];
      assert AllKept(fs[..m][1..]);
      KeptRun(Step(p, fs[0]), lists[k := [fs[0].r] + lists[k]], at[fs[0].r := k], fs[1..], Some(fs[0].r), m - 1);
      StepPutsFirst(p, fs[0]);
      if m > 1 {
        assert fs[1..][m - 2] == fs[m - 1];
      } else {
        assert fs[..m][1..] == [];
      }
    }
  }

  // ---------------------------------------------------------------------
  // Enough: a freed tail behind a record that is last on its list

  ghost predicate Whole(q: Ptrs, at: map<Route, nat>) {
    exists lists :: Filed(q.links, q.heads, lists, at)
  }

  ghost function FirstFreed(fs: seq<Fate>): (j: nat)
    ensures j <= |fs|
    ensures AllKept(fs[..j])
    ensures j < |fs| ==> fs[j].to.None?
  {
    if fs == [] || fs[0].to.None? then 0
    else
      var j := FirstFreed(fs[1..]);
      assert fs[..j + 1] == [fs[0]] + fs[1..][..j];
      j + 1
  }

  /**
    The records freed are the last ones of the slot; the one before them was put
    on an empty list, or, when there is none, the last list is empty.
   */
  ghost predicate Harmless(lists: seq<seq<Route>>, fs: seq<Fate>)
    requires |lists| > 0
  {
    var j := FirstFreed(fs);
    && AllFreed(fs[j..])
    && (0 < j < |fs| ==> [fs[j - 1].r] in PushAll(lists, fs[..j]))
    && (0 == j < |fs| ==> lists[|lists| - 1] == [])
  }

  lemma {:induction false} AtConcat(at: map<Route, nat>, fs: seq<Fate>, gs: seq<Fate>)
    ensures AtAfter(at, fs + gs) == AtAfter(AtAfter(at, fs), gs)
    decreases |fs|
  {
    if fs == [] {
      assert fs + gs == gs;
    } else {
      assert (fs + gs)[0] == fs[0] && (fs + gs)[1..] == fs[1..] + gs;
      AtConcat(if fs[0].to.Some? then at[fs[0].r := fs[0].to.value] else at, fs[1..], gs);
    }
  }

  lemma {:induction false} AtFreed(at: map<Route, nat>, fs: seq<Fate>)
    requires AllFreed(fs)
    ensures AtAfter(at, fs) == at
    decreases |fs|
  {
    if fs != [] {
      AtFreed(at, fs[1..]);
    }
  }

  /** Freeing all the rest behind a record that links to nothing changes no list. */
  lemma FreedHarmless(q: Ptrs, z: Ptrs, lists: seq<seq<Route>>, at: map<Route, nat>, rest: seq<Fate>, pv: Option<Route>)
    requires Midway(q, lists, at, rest, pv) && Freed(q, z, rest, [], pv)
    requires pv.None? ==> q.heads[|q.heads| - 1] == None
    requires pv.Some? ==> pv.value in q.links && q.links[pv.value].next == None
    ensures Filed(z.links, z.heads, lists, at)
  {
    FiledSize(q.links, q.heads, lists, at);
    assert z.heads == q.heads by { hide Filed; }
    forall r | r in at ensures r in z.links && z.links[r] == q.links[r] {
      hide Queue, Filed;
      assert !InQ(r, rest);
    }
    hide Queue, Freed, Away;
    FiledKept(q.links, z.links, q.heads, lists, at);
  }

  lemma FiledKept(links: Links, links': Links, heads: Heads, lists: seq<seq<Route>>, at: map<Route, nat>)
    requires Filed(links, heads, lists, at)
    requires forall r :: r in at ==> r in links' && r in links && links'[r] == links[r]
    ensures Filed(links', heads, lists, at)
  {
    forall k | 0 <= k < |lists| ensures Chain(links', heads[k], lists[k]) {
      assert Chain(links, heads[k], lists[k]);
      ChainKept(links, links', heads[k], lists[k]);
    }
  }

  lemma AloneNext(q: Ptrs, lists: seq<seq<Route>>, at: map<Route, nat>, x: Route)
    requires Filed(q.links, q.heads, lists, at) && [x] in lists
    ensures x in q.links && q.links[x].next == None
  {
    var k :| 0 <= k < |lists| && lists[k] == [x];
    assert Chain(q.links, q.heads[k], lists[k]);
    assert lists[k][0] == x;
  }

  lemma HarmlessWhole(p: Ptrs, lists: seq<seq<Route>>, at: map<Route, nat>, fs: seq<Fate>)
    requires Midway(p, lists, at, fs, None) && |lists| > 0
    requires Harmless(lists, fs)
    ensures Whole(Fold(p, fs), AtAfter(at, fs))
  {
    hide Midway, Freed, AllKept;
    var j := FirstFreed(fs);
    var pv := if j == 0 then None else Some(fs[j - 1].r);
    KeptRun(p, lists, at, fs, None, j);
    var q, lists1, at1 := Fold(p, fs[..j]), PushAll(lists, fs[..j]), AtAfter(at, fs[..j]);
    var rest := fs[j..];
    assert fs == fs[..j] + rest;
    FoldConcat(p, fs[..j], rest);
    AtConcat(at, fs[..j], rest);
    AtFreed(at1, rest);
    MidwayParts(q, lists1, at1, rest, pv);
    if rest != [] {
      FreeRun(q, rest, pv, |rest|);
      assert rest[..|rest|] == rest && rest[|rest|..] == [];
      if j == 0 {
        assert fs[..j] == [];
        assert Chain(q.links, q.heads[|lists| - 1], lists[|lists| - 1]);
      } else {
        AloneNext(q, lists1, at1, fs[j - 1].r);
      }
      hide Filed, Harmless, PushAll, Fold;
      FreedHarmless(q, Fold(q, rest), lists1, at1, rest, pv);
    }
  }

  lemma MidwayParts(q: Ptrs, lists: seq<seq<Route>>, at: map<Route, nat>, rest: seq<Fate>, pv: Option<Route>)
    requires Midway(q, lists, at, rest, pv)
    ensures Filed(q.links, q.heads, lists, at) && Queue(q, rest, pv) && Away(at, rest)
    ensures |lists| == |q.heads|
  {
    hide Queue, Away;
  }
}
