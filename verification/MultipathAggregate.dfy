/** The attribute advertised for a multipath route: AS path, origin, communities and extended communities of all its paths put together. */
module MultipathAggregate {
  import opened Asns
  import opened AsPaths
  import opened AsPathAggregate
  import opened Communities
  import opened Options
  import ExtCommunities

  datatype Route = Route(path: Path, origin: nat, community: Option<seq<CommunityVal>>, ext: Option<seq<ExtCommunities.ExtVal>>)

  function Merged(a: Option<seq<CommunityVal>>, b: Option<seq<CommunityVal>>): Option<seq<CommunityVal>> {
    if b.None? then a else if a.None? then b else Some(CanonSet(a.value + b.value))
  }

  function ExtMerged(a: Option<seq<ExtCommunities.ExtVal>>, b: Option<seq<ExtCommunities.ExtVal>>): Option<seq<ExtCommunities.ExtVal>> {
    if b.None? then a else if a.None? then b else Some(ExtCommunities.AddedAll([], a.value + b.value))
  }

  function Joined(a: Route, b: Route): Route {
    Route(Aggregate(a.path, b.path), if a.origin < b.origin then b.origin else a.origin,
          Merged(a.community, b.community), ExtMerged(a.ext, b.ext))
  }

  function JoinAll(best: Route, others: seq<Route>): Route
    decreases |others|
  {
    if others == [] then best else JoinAll(Joined(best, others[0]), others[1..])
  }

  /** `community_merge` and `community_uniq_sort`. */
  method MergeCommunities(a: Option<seq<CommunityVal>>, b: Option<seq<CommunityVal>>) returns (r: Option<seq<CommunityVal>>)
    ensures r == Merged(a, b)
  {
    if b.None? {
      return a;
    }
    if a.None? {
      return b;
    }
    var merged := UniqSort(a.value + b.value);
    return Some(merged);
  }

  /** `ecommunity_merge` and `ecommunity_uniq_sort`. */
  method MergeExt(a: Option<seq<ExtCommunities.ExtVal>>, b: Option<seq<ExtCommunities.ExtVal>>) returns (r: Option<seq<ExtCommunities.ExtVal>>)
    ensures r == ExtMerged(a, b)
  {
    if b.None? {
      return a;
    }
    if a.None? {
      return b;
    }
    var merged := ExtCommunities.UniqSort(a.value + b.value);
    return Some(merged);
  }

  /** The loop of `bgp_info_mpath_aggregate_update` over the multipaths. */
  method AggregateMultipath(best: Route, others: seq<Route>) returns (r: Route)
    ensures r == JoinAll(best, others)
  {
    hide Aggregate, Merged, ExtMerged;
    var path, origin: nat, community, ext := best.path, best.origin, best.community, best.ext;
    assert others[0..] == others;
    for k := 0 to |others|
      invariant JoinAll(Route(path, origin, community, ext), others[k..]) == JoinAll(best, others)
    {
      assert others[k..][0] == others[k] && others[k..][1..] == others[k + 1..];
      var merged := AggregatePaths(path, others[k].path);
      path := merged.segments;
      if origin < others[k].origin {
        origin := others[k].origin;
      }
      community := MergeCommunities(community, others[k].community);
      ext := MergeExt(ext, others[k].ext);
    }
    return Route(path, origin, community, ext);
  }

  // ---------------------------------------------------------------------
  // What it means

  /** Attributes as they are interned: a normal path and sorted sets of communities. */
  ghost predicate Interned(a: Route) {
    && Normal(a.path)
    && (a.community.Some? ==> StrictlyIncreasing(a.community.value))
    && (a.ext.Some? ==> ExtCommunities.Rising(a.ext.value))
  }

  ghost function ExtValues(c: Option<seq<ExtCommunities.ExtVal>>): set<ExtCommunities.ExtVal> {
    if c.None? then {} else ExtCommunities.ExtSet(c.value)
  }

  lemma {:induction false} ExtMergedMeans(a: Option<seq<ExtCommunities.ExtVal>>, b: Option<seq<ExtCommunities.ExtVal>>)
    requires (a.Some? ==> ExtCommunities.Rising(a.value)) && (b.Some? ==> ExtCommunities.Rising(b.value))
    ensures
      var m := ExtMerged(a, b);
      && (m.Some? <==> a.Some? || b.Some?)
      && ExtValues(m) == ExtValues(a) + ExtValues(b)
      && (m.Some? ==> ExtCommunities.Rising(m.value))
  {
    if a.Some? && b.Some? {
      ExtCommunities.AddedAllMeans([], a.value + b.value);
      ExtCommunities.ExtSetConcat(a.value, b.value);
    }
  }

  ghost function Values(c: Option<seq<CommunityVal>>): set<CommunityVal> {
    if c.None? then {} else Elems(c.value)
  }

  lemma {:induction false} MergedMeans(a: Option<seq<CommunityVal>>, b: Option<seq<CommunityVal>>)
    requires (a.Some? ==> StrictlyIncreasing(a.value)) && (b.Some? ==> StrictlyIncreasing(b.value))
    ensures
      var m := Merged(a, b);
      && (m.Some? <==> a.Some? || b.Some?)
      && Values(m) == Values(a) + Values(b)
      && (m.Some? ==> StrictlyIncreasing(m.value))
  {
    hide StrictlyIncreasing;
    if a.Some? && b.Some? {
      ElemsConcat(a.value, b.value);
    }
  }

  lemma {:induction false} JoinedMeans(a: Route, b: Route)
    requires Interned(a) && Interned(b)
    ensures
      var j := Joined(a, b);
      && Interned(j)
      && Members(j.path) == Members(a.path) + Members(b.path)
      && a.origin <= j.origin && b.origin <= j.origin && (j.origin == a.origin || j.origin == b.origin)
      && (j.community.Some? <==> a.community.Some? || b.community.Some?)
      && Values(j.community) == Values(a.community) + Values(b.community)
      && (j.ext.Some? <==> a.ext.Some? || b.ext.Some?)
      && ExtValues(j.ext) == ExtValues(a.ext) + ExtValues(b.ext)
  {
    hide Aggregate, Merged, Members, StrictlyIncreasing, Values, ExtMerged, ExtValues;
    AggregateMembers(a.path, b.path);
    MergedMeans(a.community, b.community);
    ExtMergedMeans(a.ext, b.ext);
  }

  /** What the aggregate of some routes has to be, whatever their order. */
  ghost predicate Summary(r: Route, all: seq<Route>) {
    && Interned(r)
    && (forall x :: x in Members(r.path) <==> exists a :: a in all && x in Members(a.path))
    && (forall a :: a in all ==> a.origin <= r.origin)
    && (exists a :: a in all && a.origin == r.origin)
    && (r.community.Some? <==> exists a :: a in all && a.community.Some?)
    && (forall x :: x in Values(r.community) <==> exists a :: a in all && x in Values(a.community))
    && (r.ext.Some? <==> exists a :: a in all && a.ext.Some?)
    && (forall x :: x in ExtValues(r.ext) <==> exists a :: a in all && x in ExtValues(a.ext))
  }

  lemma {:induction false} SummaryOne(a: Route)
    requires Interned(a)
    ensures Summary(a, [a])
  {
    hide Interned, Members, Values, ExtValues;
    assert a in [a];
  }

  lemma {:induction false} SummaryJoined(a: Route, b: Route, r: Route, rest: seq<Route>)
    requires Interned(a) && Interned(b) && Summary(r, [Joined(a, b)] + rest)
    ensures Summary(r, [a, b] + rest)
  {
    hide Joined, Interned, Members, Values, ExtValues;
    var j := Joined(a, b);
    JoinedMeans(a, b);
    var few, all := [j] + rest, [a, b] + rest;
    assert Apart(a, b, j, few, all, rest);
    hide Apart;
    SummaryMembers(a, b, j, r, few, all, rest);
    SummaryValues(a, b, j, r, few, all, rest);
    SummaryExt(a, b, j, r, few, all, rest);
    SummaryOrigin(a, b, j, r, few, all, rest);
  }

  /** The routes `all` are `few` with `j` taken apart into `a` and `b`. */
  ghost predicate Apart(a: Route, b: Route, j: Route, few: seq<Route>, all: seq<Route>, rest: seq<Route>) {
    && (forall c :: c in few <==> c == j || c in rest)
    && (forall c :: c in all <==> c == a || c == b || c in rest)
  }

  lemma {:induction false} SummaryMembers(a: Route, b: Route, j: Route, r: Route, few: seq<Route>, all: seq<Route>, rest: seq<Route>)
    requires Apart(a, b, j, few, all, rest) && Members(j.path) == Members(a.path) + Members(b.path) && Summary(r, few)
    ensures forall x :: x in Members(r.path) <==> exists c :: c in all && x in Members(c.path)
  {
    hide Interned, Members, Values, ExtValues;
    forall x ensures x in Members(r.path) <==> exists c :: c in all && x in Members(c.path) {
      if c :| c in all && x in Members(c.path) {
        assert (if c in rest then c else j) in few;
      }
      if c :| c in few && x in Members(c.path) {
        assert (if c in rest then c else if x in Members(a.path) then a else b) in all;
      }
    }
  }

  lemma {:induction false} SummaryValues(a: Route, b: Route, j: Route, r: Route, few: seq<Route>, all: seq<Route>, rest: seq<Route>)
    requires Apart(a, b, j, few, all, rest) && Values(j.community) == Values(a.community) + Values(b.community) && Summary(r, few)
    requires j.community.Some? <==> a.community.Some? || b.community.Some?
    ensures r.community.Some? <==> exists c :: c in all && c.community.Some?
    ensures forall x :: x in Values(r.community) <==> exists c :: c in all && x in Values(c.community)
  {
    hide Interned, Members, Values, ExtValues;
    forall x ensures x in Values(r.community) <==> exists c :: c in all && x in Values(c.community) {
      if c :| c in all && x in Values(c.community) {
        assert (if c in rest then c else j) in few;
      }
      if c :| c in few && x in Values(c.community) {
        assert (if c in rest then c else if x in Values(a.community) then a else b) in all;
      }
    }
    if c :| c in all && c.community.Some? {
      assert (if c in rest then c else j) in few;
    }
    if c :| c in few && c.community.Some? {
      assert (if c in rest then c else if a.community.Some? then a else b) in all;
    }
  }

  lemma {:induction false} SummaryExt(a: Route, b: Route, j: Route, r: Route, few: seq<Route>, all: seq<Route>, rest: seq<Route>)
    requires Apart(a, b, j, few, all, rest) && ExtValues(j.ext) == ExtValues(a.ext) + ExtValues(b.ext) && Summary(r, few)
    requires j.ext.Some? <==> a.ext.Some? || b.ext.Some?
    ensures r.ext.Some? <==> exists c :: c in all && c.ext.Some?
    ensures forall x :: x in ExtValues(r.ext) <==> exists c :: c in all && x in ExtValues(c.ext)
  {
    hide Interned, Members, Values, ExtValues;
    forall x ensures x in ExtValues(r.ext) <==> exists c :: c in all && x in ExtValues(c.ext) {
      if c :| c in all && x in ExtValues(c.ext) {
        assert (if c in rest then c else j) in few;
      }
      if c :| c in few && x in ExtValues(c.ext) {
        assert (if c in rest then c else if x in ExtValues(a.ext) then a else b) in all;
      }
    }
    if c :| c in all && c.ext.Some? {
      assert (if c in rest then c else j) in few;
    }
    if c :| c in few && c.ext.Some? {
      assert (if c in rest then c else if a.ext.Some? then a else b) in all;
    }
  }

  lemma {:induction false} SummaryOrigin(a: Route, b: Route, j: Route, r: Route, few: seq<Route>, all: seq<Route>, rest: seq<Route>)
    requires Apart(a, b, j, few, all, rest) && Summary(r, few)
    requires a.origin <= j.origin && b.origin <= j.origin && (j.origin == a.origin || j.origin == b.origin)
    ensures forall c :: c in all ==> c.origin <= r.origin
    ensures exists c :: c in all && c.origin == r.origin
  {
    hide Interned, Members, Values, ExtValues;
    var c :| c in few && c.origin == r.origin;
    assert (if c in rest then c else if j.origin == a.origin then a else b) in all;
    forall c | c in all ensures c.origin <= r.origin {
      assert (if c in rest then c else j) in few;
    }
  }

  /** The aggregate has exactly the AS numbers and communities of all the routes, and the largest origin. */
  lemma {:induction false} JoinAllMeans(best: Route, others: seq<Route>)
    requires Interned(best) && forall i :: 0 <= i < |others| ==> Interned(others[i])
    ensures Summary(JoinAll(best, others), [best] + others)
    decreases |others|
  {
    hide Summary, Joined, Interned;
    if others == [] {
      assert [best] + others == [best];
      SummaryOne(best);
    } else {
      var a, rest := others[0], others[1..];
      JoinedInterned(best, a);
      JoinAllMeans(Joined(best, a), rest);
      SummaryJoined(best, a, JoinAll(best, others), rest);
      assert [best, a] + rest == [best] + others;
    }
  }

  lemma {:induction false} JoinedInterned(a: Route, b: Route)
    requires Interned(a) && Interned(b)
    ensures Interned(Joined(a, b))
  {
    JoinedMeans(a, b);
  }

  /** Origin, communities and AS numbers do not depend on which path is best or on the order of the others. */
  lemma {:induction false} SummaryUnique(r: Route, q: Route, all: seq<Route>, same: seq<Route>)
    requires Summary(r, all) && Summary(q, same) && multiset(all) == multiset(same)
    ensures r.origin == q.origin && Members(r.path) == Members(q.path)
    ensures r.community == q.community && r.ext == q.ext
  {
    hide Members, Values, ExtValues;
    forall a ensures a in all <==> a in same {
      assert a in all <==> a in multiset(all);
    }
    assert Members(r.path) == Members(q.path);
    assert Values(r.community) == Values(q.community);
    assert ExtValues(r.ext) == ExtValues(q.ext);
    CommunitiesUnique(r.community, q.community);
    ExtUnique(r.ext, q.ext);
  }

  lemma {:induction false} CommunitiesUnique(a: Option<seq<CommunityVal>>, b: Option<seq<CommunityVal>>)
    requires (a.Some? ==> StrictlyIncreasing(a.value)) && (b.Some? ==> StrictlyIncreasing(b.value))
    requires (a.Some? <==> b.Some?) && Values(a) == Values(b)
    ensures a == b
  {
    if a.Some? {
      StrictlyIncreasingUnique(a.value, b.value);
    }
  }

  lemma {:induction false} ExtUnique(a: Option<seq<ExtCommunities.ExtVal>>, b: Option<seq<ExtCommunities.ExtVal>>)
    requires (a.Some? ==> ExtCommunities.Rising(a.value)) && (b.Some? ==> ExtCommunities.Rising(b.value))
    requires (a.Some? <==> b.Some?) && ExtValues(a) == ExtValues(b)
    ensures a == b
  {
    if a.Some? {
      ExtCommunities.RisingUnique(a.value, b.value);
    }
  }
}
