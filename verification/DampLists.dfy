/**
  The dampening lists: doubly linked lists of records, one for every slot of the
  reuse wheel and one for the records that are not suppressed.
 */
module DampLists {
  import opened Options
  import opened Sequences

  /** A route, which has at most one dampening record. */
  type Route = nat

  datatype Link = Link(next: Option<Route>, prev: Option<Route>)

  type Links = map<Route, Link>

  /** The head pointers of all lists. */
  type Heads = seq<Option<Route>>

  // ---------------------------------------------------------------------
  // Pointer updates

  function SetNext(links: Links, r: Route, n: Option<Route>): Links {
    if r in links then links[r := links[r].(next := n)] else links
  }

  function SetPrev(links: Links, r: Route, p: Option<Route>): Links {
    if r in links then links[r := links[r].(prev := p)] else links
  }

  /** Puts a record in front of list `k`. */
  function Push(links: Links, heads: Heads, k: nat, r: Route): (Links, Heads)
    requires k < |heads|
  {
    var own := links[r := Link(heads[k], None)];
    (if heads[k].Some? then SetPrev(own, heads[k].value, Some(r)) else own, heads[k := Some(r)])
  }

  /** Joins the neighbours of a record; one without a predecessor is taken for the head of list `k`. */
  function Cut(links: Links, heads: Heads, k: nat, r: Route): (Links, Heads)
    requires k < |heads| && r in links
  {
    var e := links[r];
    var back := if e.next.Some? then SetPrev(links, e.next.value, e.prev) else links;
    if e.prev.Some? then
      (SetNext(back, e.prev.value, e.next), heads)
    else
      (back, heads[k := e.next])
  }

  // ---------------------------------------------------------------------
  // Well-formed lists

  ghost function After(s: seq<Route>, i: int): Option<Route> {
    if 0 <= i + 1 < |s| then Some(s[i + 1]) else None
  }

  ghost function Before(s: seq<Route>, i: int): Option<Route> {
    if 0 < i <= |s| then Some(s[i - 1]) else None
  }

  /** The records of `s` are linked in this order and to nothing else. */
  ghost predicate Chain(links: Links, head: Option<Route>, s: seq<Route>) {
    && Distinct(s)
    && head == After(s, -1)
    && forall i :: 0 <= i < |s| ==> s[i] in links && links[s[i]] == Link(After(s, i), Before(s, i))
  }

  ghost predicate Chains(links: Links, heads: Heads, lists: seq<seq<Route>>) {
    && |heads| == |lists|
    && forall k :: 0 <= k < |lists| ==> Chain(links, heads[k], lists[k])
  }

  /** `at` says which list each record is on: exactly one, and only the lists of `at` hold it. */
  ghost predicate Placed(lists: seq<seq<Route>>, at: map<Route, nat>) {
    && (forall k, r :: 0 <= k < |lists| && r in lists[k] ==> r in at && at[r] == k)
    && (forall r :: r in at ==> at[r] < |lists| && r in lists[at[r]])
  }

  ghost predicate Filed(links: Links, heads: Heads, lists: seq<seq<Route>>, at: map<Route, nat>) {
    Chains(links, heads, lists) && Placed(lists, at)
  }

  lemma DistinctWithout(s: seq<Route>, k: nat)
    requires Distinct(s) && k < |s|
    ensures
      var t := s[..k] + s[k + 1..];
      && Distinct(t)
      && (forall r :: r in t <==> r in s && r != s[k])
  {
    var t := s[..k] + s[k + 1..];
    assert forall i :: 0 <= i < |t| ==> t[i] == if i < k then s[i] else s[i + 1];
    forall r | r in s && r != s[k] ensures r in t {
      var i :| 0 <= i < |s| && s[i] == r;
      assert t[if i < k then i else i - 1] == r;
    }
  }

  // ---------------------------------------------------------------------
  // One list

  /** A list none of whose links changed. */
  lemma ChainKept(links: Links, links': Links, head: Option<Route>, s: seq<Route>)
    requires Chain(links, head, s)
    requires forall r :: r in s ==> r in links' && links'[r] == links[r]
    ensures Chain(links', head, s)
  {
  }

  lemma ChainPush(links: Links, links': Links, s: seq<Route>, r: Route)
    requires Chain(links, After(s, -1), s) && r !in s
    requires r in links' && links'[r] == Link(After(s, -1), None)
    requires forall i :: 0 <= i < |s| ==> s[i] in links' && links'[s[i]] == if i == 0 then links[s[0]].(prev := Some(r)) else links[s[i]]
    ensures Chain(links', Some(r), [r] + s)
  {
    var t := [r] + s;
    assert forall i :: 0 < i < |t| ==> t[i] == s[i - 1];
  }

  lemma ChainCut(links: Links, links': Links, s: seq<Route>, k: nat)
    requires Chain(links, After(s, -1), s) && k < |s|
    requires forall i :: 0 <= i < |s| && i != k ==> s[i] in links' && links'[s[i]] == Link(
        if i == k - 1 then After(s, k) else After(s, i),
        if i == k + 1 then Before(s, k) else Before(s, i))
    ensures var t := s[..k] + s[k + 1..]; Chain(links', After(t, -1), t)
  {
    DistinctWithout(s, k);
    hide Distinct;
    var t := s[..k] + s[k + 1..];
    forall i | 0 <= i < |t| ensures t[i] in links' && links'[t[i]] == Link(After(t, i), Before(t, i)) {
      if i < k {
        assert t[i] == s[i];
      } else {
        assert t[i] == s[i + 1];
      }
    }
  }

  // ---------------------------------------------------------------------
  // All lists

  lemma PushFiled(links: Links, heads: Heads, lists: seq<seq<Route>>, at: map<Route, nat>, k: nat, r: Route)
    requires Filed(links, heads, lists, at) && k < |heads| && r !in at
    ensures
      var (links', heads') := Push(links, heads, k, r);
      Filed(links', heads', lists[k := [r] + lists[k]], at[r := k])
  {
    var (links', heads') := Push(links, heads, k, r);
    var lists' := lists[k := [r] + lists[k]];
    assert Placed(lists', at[r := k]) by { PushPlaced(lists, at, k, r); }
    forall j | 0 <= j < |lists'| ensures Chain(links', heads'[j], lists'[j]) {
      PushChain(links, heads, lists, at, k, r, j);
    }
  }

  lemma PushPlaced(lists: seq<seq<Route>>, at: map<Route, nat>, k: nat, r: Route)
    requires Placed(lists, at) && k < |lists| && r !in at
    ensures Placed(lists[k := [r] + lists[k]], at[r := k])
  {
  }

  lemma PushChain(links: Links, heads: Heads, lists: seq<seq<Route>>, at: map<Route, nat>, k: nat, r: Route, j: nat)
    requires Filed(links, heads, lists, at) && k < |heads| && r !in at && j < |lists|
    ensures
      var (links', heads') := Push(links, heads, k, r);
      Chain(links', heads'[j], if j == k then [r] + lists[k] else lists[j])
  {
    PlacedApart(lists, at, r, k, j);
    assert Chain(links, heads[j], lists[j]) && Chain(links, heads[k], lists[k]);
    hide Filed, Chains, Placed;
    if j == k {
      PushSame(links, heads, lists[k], k, r);
    } else {
      PushOther(links, heads, lists[k], k, r, heads[j], lists[j]);
    }
  }

  lemma PlacedApart(lists: seq<seq<Route>>, at: map<Route, nat>, r: Route, k: nat, j: nat)
    requires Placed(lists, at) && r !in at && k < |lists| && j < |lists|
    ensures r !in lists[k] && r !in lists[j]
    ensures j != k ==> forall x :: x in lists[j] ==> x !in lists[k]
  {
    forall x | j != k && x in lists[j] ensures x !in lists[k] {
      assert at[x] == j;
    }
  }

  lemma PushSame(links: Links, heads: Heads, s: seq<Route>, k: nat, r: Route)
    requires k < |heads| && Chain(links, heads[k], s) && r !in s
    ensures
      var (links', heads') := Push(links, heads, k, r);
      Chain(links', heads'[k], [r] + s)
  {
    ChainPush(links, Push(links, heads, k, r).0, s, r);
  }

  lemma PushOther(links: Links, heads: Heads, s: seq<Route>, k: nat, r: Route, head: Option<Route>, t: seq<Route>)
    requires k < |heads| && Chain(links, heads[k], s) && Chain(links, head, t)
    requires r !in t && forall x :: x in t ==> x !in s
    ensures Chain(Push(links, heads, k, r).0, head, t)
  {
    assert s != [] ==> s[0] in s;
    ChainKept(links, Push(links, heads, k, r).0, head, t);
  }

  lemma CutFiled(links: Links, heads: Heads, lists: seq<seq<Route>>, at: map<Route, nat>, r: Route)
    requires Filed(links, heads, lists, at) && r in at
    ensures at[r] < |heads| && r in links
    ensures
      var (links', heads') := Cut(links, heads, at[r], r);
      Filed(links', heads', lists[at[r] := Remove(lists[at[r]], r)], at - {r})
  {
    var k := at[r];
    var s := lists[k];
    assert Chain(links, heads[k], s);
    var i :| 0 <= i < |s| && s[i] == r;
    RemoveIs(s, i);
    DistinctWithout(s, i);
    var t := s[..i] + s[i + 1..];
    var (links', heads') := Cut(links, heads, k, r);
    var lists' := lists[k := t];
    assert Placed(lists', at - {r}) by { CutPlaced(lists, at, r, t); }
    forall j | 0 <= j < |lists'| ensures Chain(links', heads'[j], lists'[j]) {
      CutChain(links, heads, lists, at, k, i, j);
    }
  }

  lemma CutPlaced(lists: seq<seq<Route>>, at: map<Route, nat>, r: Route, t: seq<Route>)
    requires Placed(lists, at) && r in at
    requires forall x :: x in t <==> x in lists[at[r]] && x != r
    ensures Placed(lists[at[r] := t], at - {r})
  {
  }

  lemma CutChain(links: Links, heads: Heads, lists: seq<seq<Route>>, at: map<Route, nat>, k: nat, i: nat, j: nat)
    requires Filed(links, heads, lists, at) && k < |lists| && i < |lists[k]| && j < |lists|
    requires lists[k][i] in links
    ensures
      var (links', heads') := Cut(links, heads, k, lists[k][i]);
      Chain(links', heads'[j], if j == k then lists[k][..i] + lists[k][i + 1..] else lists[j])
  {
    var s := lists[k];
    var (links', heads') := Cut(links, heads, k, s[i]);
    assert Chain(links, heads[k], s) && Chain(links, heads[j], lists[j]);
    if j == k {
      CutSame(links, heads, s, k, i);
    } else {
      forall x | x in lists[j] ensures x in links' && links'[x] == links[x] {
        assert at[x] == j;
        assert i > 0 ==> s[i - 1] in s;
        assert i + 1 < |s| ==> s[i + 1] in s;
      }
      ChainKept(links, links', heads[j], lists[j]);
    }
  }

  lemma CutSame(links: Links, heads: Heads, s: seq<Route>, k: nat, i: nat)
    requires k < |heads| && Chain(links, heads[k], s) && i < |s| && s[i] in links
    ensures
      var (links', heads') := Cut(links, heads, k, s[i]);
      Chain(links', heads'[k], s[..i] + s[i + 1..])
  {
    var (links', heads') := Cut(links, heads, k, s[i]);
    ChainCut(links, links', s, i);
  }

  /** Freeing a record that is on no list. */
  lemma FiledForget(links: Links, heads: Heads, lists: seq<seq<Route>>, at: map<Route, nat>, r: Route)
    requires Filed(links, heads, lists, at) && r !in at
    ensures Filed(links - {r}, heads, lists, at)
  {
    forall j | 0 <= j < |lists| ensures Chain(links - {r}, heads[j], lists[j]) {
      assert Chain(links, heads[j], lists[j]);
      ChainKept(links, links - {r}, heads[j], lists[j]);
    }
  }

  /** Every list but for one record. */
  ghost predicate OthersKept(lists: seq<seq<Route>>, lists': seq<seq<Route>>, r: Route) {
    && |lists| == |lists'|
    && forall k :: 0 <= k < |lists| ==> Remove(lists[k], r) == Remove(lists'[k], r)
  }

  lemma CutOthers(links: Links, heads: Heads, lists: seq<seq<Route>>, k: nat, r: Route)
    requires Chains(links, heads, lists) && k < |lists|
    ensures OthersKept(lists, lists[k := Remove(lists[k], r)], r)
  {
    assert Chain(links, heads[k], lists[k]);
    RemoveMembers(lists[k], r);
    RemoveSize(Remove(lists[k], r), r);
  }

  lemma PushOthers(lists: seq<seq<Route>>, k: nat, r: Route)
    requires k < |lists| && r !in lists[k]
    ensures OthersKept(lists, lists[k := [r] + lists[k]], r)
  {
    RemoveSize(lists[k], r);
    assert ([r] + lists[k])[1..] == lists[k];
  }

  lemma PushKeys(links: Links, heads: Heads, k: nat, r: Route)
    requires k < |heads|
    ensures Push(links, heads, k, r).0.Keys == links.Keys + {r}
    ensures |Push(links, heads, k, r).1| == |heads|
  {
  }

  lemma CutKeys(links: Links, heads: Heads, k: nat, r: Route)
    requires k < |heads| && r in links
    ensures Cut(links, heads, k, r).0.Keys == links.Keys
    ensures |Cut(links, heads, k, r).1| == |heads|
  {
  }

  lemma FiledSize(links: Links, heads: Heads, lists: seq<seq<Route>>, at: map<Route, nat>)
    requires Filed(links, heads, lists, at)
    ensures |heads| == |lists|
    ensures forall r :: r in at ==> at[r] < |heads| && r in links
  {
    forall r | r in at ensures at[r] < |heads| && r in links {
      var k := at[r];
      assert Chain(links, heads[k], lists[k]);
    }
  }

  function Move(links: Links, heads: Heads, j: nat, k: nat, r: Route): (Links, Heads)
    requires j < |heads| && k < |heads| && r in links
  {
    var (links1, heads1) := Cut(links, heads, j, r);
    Push(links1, heads1, k, r)
  }

  /** Moving a record changes no other record's place or order. */
  lemma MoveFiled(links: Links, heads: Heads, lists: seq<seq<Route>>, at: map<Route, nat>, r: Route, k: nat)
    returns (lists': seq<seq<Route>>)
    requires Filed(links, heads, lists, at) && r in at && k < |heads|
    ensures at[r] < |heads| && r in links
    ensures
      var (links', heads') := Move(links, heads, at[r], k, r);
      && Filed(links', heads', lists', at[r := k])
      && links'.Keys == links.Keys && |heads'| == |heads|
    ensures OthersKept(lists, lists', r)
  {
    hide Chains, Placed, Remove, OthersKept, Cut, Push;
    FiledSize(links, heads, lists, at);
    var j := at[r];
    var mid := lists[j := Remove(lists[j], r)];
    CutOthers(links, heads, lists, j, r);
    var (links1, heads1) := Cut(links, heads, j, r);
    CutFiled(links, heads, lists, at, r);
    CutKeys(links, heads, j, r);
    PushFiled(links1, heads1, mid, at - {r}, k, r);
    PushKeys(links1, heads1, k, r);
    NotOn(links1, heads1, mid, at - {r}, r, k);
    PushOthers(mid, k, r);
    OthersKeptTwice(lists, mid, mid[k := [r] + mid[k]], r);
    lists' := mid[k := [r] + mid[k]];
    assert (at - {r})[r := k] == at[r := k];
  }

  lemma NotOn(links: Links, heads: Heads, lists: seq<seq<Route>>, at: map<Route, nat>, r: Route, k: nat)
    requires Filed(links, heads, lists, at) && r !in at && k < |lists|
    ensures r !in lists[k]
  {
  }

  lemma OthersKeptTwice(a: seq<seq<Route>>, b: seq<seq<Route>>, c: seq<seq<Route>>, r: Route)
    requires OthersKept(a, b, r) && OthersKept(b, c, r)
    ensures OthersKept(a, c, r)
  {
    hide Remove;
  }

  /** Taking a record off its list and freeing it. */
  lemma FreeFiled(links: Links, heads: Heads, lists: seq<seq<Route>>, at: map<Route, nat>, r: Route)
    requires Filed(links, heads, lists, at) && r in at
    ensures |lists| == |heads| && at[r] < |heads| && r in links
    ensures
      var (links', heads') := Cut(links, heads, at[r], r);
      var lists' := lists[at[r] := Remove(lists[at[r]], r)];
      && Filed(links' - {r}, heads', lists', at - {r})
      && OthersKept(lists, lists', r)
      && links'.Keys == links.Keys && |heads'| == |heads|
  {
    hide Chains, Placed, Cut, Remove, OthersKept;
    FiledSize(links, heads, lists, at);
    CutFiled(links, heads, lists, at, r);
    CutKeys(links, heads, at[r], r);
    var (links', heads') := Cut(links, heads, at[r], r);
    FiledForget(links', heads', lists[at[r] := Remove(lists[at[r]], r)], at - {r}, r);
    CutOthers(links, heads, lists, at[r], r);
  }
}
