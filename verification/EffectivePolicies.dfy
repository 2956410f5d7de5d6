/** The effective policies of Gateways and HTTPRoutes, from the policies attached to each resource of
    their hierarchy. Models the calculations of gwctl/pkg/resourcediscovery/resourcemodel.go on top of
    the merging functions. */
module EffectivePolicies {
  import opened Wrappers
  import opened Policies
  import opened Hierarchy
  import opened PolicyMerger
  import opened SameLevel
  import opened Sequences

  predicate AllRegular(ps: seq<Policy>, scheme: Scheme)
  {
    forall p | p in ps :: Regular(p, p.CrdID(), scheme(p.CrdID()))
  }

  // ----- Regular policies stay regular when reduced to one per kind -----

  lemma {:induction false} FoldKeepsRegular(clock: Clock, ps: seq<Policy>, kind: string, inherited: bool)
    requires ps != [] && forall p | p in ps :: Regular(p, kind, inherited)
    ensures FoldSame(clock, ps).Ok? && Regular(FoldSame(clock, ps).value, kind, inherited)
  {
    if |ps| == 1 {
      assert ps[0] in ps;
    } else {
      var init, last := ps[..|ps| - 1], ps[|ps| - 1];
      assert last in ps;
      FoldKeepsRegular(clock, init, kind, inherited);
      OrderPutsHigherSecond(clock, FoldSame(clock, init).value, last);
      var (lower, higher) := OrderByPrecedence(clock, FoldSame(clock, init).value, last);
      RegularMerges(lower, higher, kind, inherited);
    }
  }

  /** No kind of the list fails to merge. */
  ghost predicate Reducible(clock: Clock, ps: seq<Policy>)
  {
    forall kind :: !KindFails(clock, ps, kind)
  }

  /** A list whose policies are regular, each kind inherited or direct throughout, can be reduced, and
      to regular policies. */
  lemma RegularReduces(clock: Clock, ps: seq<Policy>, scheme: Scheme)
    requires AllRegular(ps, scheme)
    ensures Reducible(clock, ps)
    ensures forall m | Reduced(clock, ps, m) :: RegularLevel(m, scheme)
  {
    forall kind
      ensures !KindFails(clock, ps, kind)
      ensures OfKind(ps, kind) != [] ==> Regular(FoldSame(clock, OfKind(ps, kind)).value, kind, scheme(kind))
    {
      OfKindMembers(ps, kind);
      if OfKind(ps, kind) != [] {
        FoldKeepsRegular(clock, OfKind(ps, kind), kind, scheme(kind));
      }
    }
  }

  lemma ReducedOnce(clock: Clock, ps: seq<Policy>, a: Level, b: Level)
    requires Reduced(clock, ps, a) && Reduced(clock, ps, b)
    ensures a == b && Reducible(clock, ps)
  {
    assert forall k :: k in a <==> k in b;
    forall k | k in a ensures a[k] == b[k] {
      assert FoldSame(clock, OfKind(ps, k)) == Ok(a[k]);
    }
  }

  // ----- Gateways and routes -----

  /** The reductions of two lists merge below a level. */
  ghost predicate MergesBelow(clock: Clock, top: Level, bs: seq<Policy>, cs: seq<Policy>)
  {
    forall b, c | Reduced(clock, bs, b) && Reduced(clock, cs, c) :: LevelsFrom(top, [b, c]).Some?
  }

  /** GatewayClass, Namespace and Gateway, from the top. It succeeds if and only if every kind can be
      reduced at every level and the reduced levels merge. */
  method ForGateway(clock: Clock, ofClass: seq<Policy>, ofNamespace: seq<Policy>, ofGateway: seq<Policy>)
    returns (r: Result<Level, MergeError>)
    ensures r.Ok? <==>
            && Reducible(clock, ofClass) && Reducible(clock, ofNamespace) && Reducible(clock, ofGateway)
            && forall a | Reduced(clock, ofClass, a) :: MergesBelow(clock, a, ofNamespace, ofGateway)
    ensures r.Ok? ==>
              exists a, b, c ::
                && Reduced(clock, ofClass, a) && Reduced(clock, ofNamespace, b) && Reduced(clock, ofGateway, c)
                && LevelsFrom(a, [b, c]) == Some(r.value)
  {
    var a := MergePoliciesOfSimilarKind(clock, ofClass);
    if a.Err? {
      return a;
    }
    var b := MergePoliciesOfSimilarKind(clock, ofNamespace);
    if b.Err? {
      return b;
    }
    var c := MergePoliciesOfSimilarKind(clock, ofGateway);
    if c.Err? {
      return c;
    }
    r := MergeBelow(a.value, b.value, c.value);
    BelowOnce(clock, a.value, ofNamespace, b.value, ofGateway, c.value);
    ReducedOnce(clock, ofClass, a.value, a.value);
    forall x | Reduced(clock, ofClass, x) ensures x == a.value {
      ReducedOnce(clock, ofClass, x, a.value);
    }
  }

  /** Below the effective policies of a Gateway come the route's Namespace and the route. */
  method ForRoute(clock: Clock, gateway: Level, ofNamespace: seq<Policy>, ofRoute: seq<Policy>) returns (r: Result<Level, MergeError>)
    ensures r.Ok? <==> Reducible(clock, ofNamespace) && Reducible(clock, ofRoute) && MergesBelow(clock, gateway, ofNamespace, ofRoute)
    ensures r.Ok? ==>
              exists b, c :: Reduced(clock, ofNamespace, b) && Reduced(clock, ofRoute, c) && LevelsFrom(gateway, [b, c]) == Some(r.value)
  {
    var c := MergePoliciesOfSimilarKind(clock, ofRoute);
    if c.Err? {
      return c;
    }
    var b := MergePoliciesOfSimilarKind(clock, ofNamespace);
    if b.Err? {
      return b;
    }
    r := MergeBelow(gateway, b.value, c.value);
    BelowOnce(clock, gateway, ofNamespace, b.value, ofRoute, c.value);
  }

  lemma BelowOnce(clock: Clock, top: Level, bs: seq<Policy>, b: Level, cs: seq<Policy>, c: Level)
    requires Reduced(clock, bs, b) && Reduced(clock, cs, c)
    ensures Reducible(clock, bs) && Reducible(clock, cs)
    ensures MergesBelow(clock, top, bs, cs) <==> LevelsFrom(top, [b, c]).Some?
  {
    ReducedOnce(clock, bs, b, b);
    ReducedOnce(clock, cs, c, c);
    forall x, y | Reduced(clock, bs, x) && Reduced(clock, cs, y) ensures x == b && y == c {
      ReducedOnce(clock, bs, x, b);
      ReducedOnce(clock, cs, y, c);
    }
  }

  method MergeBelow(a: Level, b: Level, c: Level) returns (r: Result<Level, MergeError>)
    ensures r.Ok? <==> LevelsFrom(a, [b, c]).Some?
    ensures r.Ok? ==> LevelsFrom(a, [b, c]) == Some(r.value)
  {
    assert [b, c][1..] == [c];
    r := MergePoliciesOfDifferentHierarchy(a, b);
    if r.Ok? {
      OneMore(r.value, c);
      r := MergePoliciesOfDifferentHierarchy(r.value, c);
    }
  }

  lemma OneMore(top: Level, next: Level)
    ensures LevelsFrom(top, [next]) == MergeLevels(top, next, ParentFirst)
  {
    assert [next][1..] == [];
  }

  /** Regular policies, inherited or direct, always merge below a level of such policies. */
  lemma RegularMergeBelow(clock: Clock, top: Level, bs: seq<Policy>, cs: seq<Policy>, scheme: Scheme)
    requires RegularLevel(top, scheme) && AllRegular(bs, scheme) && AllRegular(cs, scheme)
    ensures Reducible(clock, bs) && Reducible(clock, cs) && MergesBelow(clock, top, bs, cs)
  {
    RegularReduces(clock, bs, scheme);
    RegularReduces(clock, cs, scheme);
    forall b, c | Reduced(clock, bs, b) && Reduced(clock, cs, c) ensures LevelsFrom(top, [b, c]).Some? {
      ThreeLevels(top, b, c, scheme);
    }
  }

  lemma ThreeLevels(top: Level, b: Level, c: Level, scheme: Scheme)
    requires RegularLevel(top, scheme) && RegularLevel(b, scheme) && RegularLevel(c, scheme)
    ensures LevelsFrom(top, [b, c]).Some?
  {
    RegularPair(top, b, ParentFirst, scheme);
    var merged := MergeLevels(top, b, ParentFirst).value;
    RegularPair(merged, c, ParentFirst, scheme);
    assert [b, c][1..] == [c];
    OneMore(merged, c);
  }

  /** So the policies of a Gateway never fail to be calculated. */
  lemma RegularGateway(clock: Clock, ofClass: seq<Policy>, ofNamespace: seq<Policy>, ofGateway: seq<Policy>, scheme: Scheme)
    requires AllRegular(ofClass, scheme) && AllRegular(ofNamespace, scheme) && AllRegular(ofGateway, scheme)
    ensures Reducible(clock, ofClass) && Reducible(clock, ofNamespace) && Reducible(clock, ofGateway)
    ensures forall a | Reduced(clock, ofClass, a) :: RegularLevel(a, scheme) && MergesBelow(clock, a, ofNamespace, ofGateway)
  {
    RegularReduces(clock, ofClass, scheme);
    RegularReduces(clock, ofNamespace, scheme);
    RegularReduces(clock, ofGateway, scheme);
    forall a | Reduced(clock, ofClass, a) ensures MergesBelow(clock, a, ofNamespace, ofGateway) {
      RegularMergeBelow(clock, a, ofNamespace, ofGateway, scheme);
    }
  }

  /** Merging further levels below an effective policy is merging them all in one go, so a route
      inherits from its Gateway as if every level had been listed. */
  lemma {:induction false} LevelsAppend(top: Level, upper: seq<Level>, lower: seq<Level>)
    requires LevelsFrom(top, upper).Some?
    ensures LevelsFrom(top, upper + lower) == LevelsFrom(LevelsFrom(top, upper).value, lower)
    decreases |upper|
  {
    if upper == [] {
      assert upper + lower == lower;
    } else {
      assert (upper + lower)[1..] == upper[1..] + lower;
      LevelsAppend(MergeLevels(top, upper[0], ParentFirst).value, upper[1..], lower);
    }
  }

  // ----- Backends -----

  /** The effective policies of each route, by Gateway. */
  type Routes = map<string, map<string, Level>>

  /** What the routes of a list have for one Gateway, in list order. */
  function LevelsAt(routes: Routes, order: seq<string>, gateway: string): seq<Level>
    requires forall id | id in order :: id in routes
  {
    if order == [] then []
    else
      var last := order[|order| - 1];
      LevelsAt(routes, order[..|order| - 1], gateway) + if gateway in routes[last] then [routes[last][gateway]] else []
  }

  /** Levels of the same hierarchy merged one after the other, starting with none. */
  function FoldLevels(clock: Clock, levels: seq<Level>): Option<Level>
  {
    if levels == [] then Some(map[])
    else
      match FoldLevels(clock, levels[..|levels| - 1])
      case None => None
      case Some(merged) => MergeLevels(merged, levels[|levels| - 1], ByAge(clock))
  }

  function LevelOf(result: map<string, Level>, gateway: string): Level
  {
    if gateway in result then result[gateway] else map[]
  }

  /** What the first loop has once it has been through the routes of `order`. */
  ghost predicate Gathered(clock: Clock, routes: Routes, order: seq<string>, result: map<string, Level>)
    requires forall id | id in order :: id in routes
  {
    forall gateway ::
      && (gateway in result <==> LevelsAt(routes, order, gateway) != [])
      && FoldLevels(clock, LevelsAt(routes, order, gateway)) == Some(LevelOf(result, gateway))
  }

  /** One route merged into what the others have for the same Gateways. */
  method AddRoute(clock: Clock, before: map<string, Level>, route: map<string, Level>) returns (r: Result<map<string, Level>, MergeError>)
    ensures r.Ok? ==> r.value.Keys == before.Keys + route.Keys
    ensures r.Ok? ==> forall g | g in r.value ::
              if g in route then MergeLevels(LevelOf(before, g), route[g], ByAge(clock)) == Some(r.value[g]) else r.value[g] == LevelOf(before, g)
    ensures r.Err? ==> exists g | g in route :: !Mergeable(LevelOf(before, g), route[g], ByAge(clock))
  {
    var result := before;
    var todo := route.Keys;
    while todo != {}
      invariant todo <= route.Keys && result.Keys == before.Keys + (route.Keys - todo)
      invariant forall g | g in result ::
                  if g in route && g !in todo then MergeLevels(LevelOf(before, g), route[g], ByAge(clock)) == Some(result[g])
                  else result[g] == LevelOf(before, g)
    {
      var g :| g in todo;
      var existing := LevelOf(result, g);
      assert existing == LevelOf(before, g);
      var merged := MergePoliciesOfSameHierarchy(clock, existing, route[g]);
      if merged.Err? {
        return Err(merged.error);
      }
      result := result[g := merged.value];
      todo := todo - {g};
    }
    r := Ok(result);
  }

  lemma LevelsAtSnoc(routes: Routes, order: seq<string>, id: string, gateway: string)
    requires forall i | i in order + [id] :: i in routes
    ensures (forall i | i in order :: i in routes) && id in routes
    ensures LevelsAt(routes, order + [id], gateway) ==
            LevelsAt(routes, order, gateway) + if gateway in routes[id] then [routes[id][gateway]] else []
  {
    assert (order + [id])[..|order|] == order;
    assert forall i :: i in order ==> i in order + [id];
    assert id in order + [id];
  }

  lemma FoldLevelsSnoc(clock: Clock, levels: seq<Level>, level: Level)
    requires FoldLevels(clock, levels).Some?
    ensures FoldLevels(clock, levels + [level]) == MergeLevels(FoldLevels(clock, levels).value, level, ByAge(clock))
  {
    assert (levels + [level])[..|levels|] == levels;
  }

  lemma GatheredMore(clock: Clock, routes: Routes, order: seq<string>, id: string, before: map<string, Level>, after: map<string, Level>)
    requires (forall i | i in order :: i in routes) && id in routes && Gathered(clock, routes, order, before)
    requires after.Keys == before.Keys + routes[id].Keys
    requires forall g | g in after ::
               if g in routes[id] then MergeLevels(LevelOf(before, g), routes[id][g], ByAge(clock)) == Some(after[g])
               else after[g] == LevelOf(before, g)
    ensures forall i | i in order + [id] :: i in routes
    ensures Gathered(clock, routes, order + [id], after)
  {
    assert forall i | i in order + [id] :: i in order || i == id;
    forall g
      ensures g in after <==> LevelsAt(routes, order + [id], g) != []
      ensures FoldLevels(clock, LevelsAt(routes, order + [id], g)) == Some(LevelOf(after, g))
    {
      LevelsAtSnoc(routes, order, id, g);
      assert g in after ==> g in before || g in routes[id];
      GatheredOne(clock, LevelsAt(routes, order, g), LevelOf(before, g), Lookup(routes[id], g), LevelOf(after, g));
    }
  }

  function Lookup(route: map<string, Level>, gateway: string): Option<Level>
  {
    if gateway in route then Some(route[gateway]) else None
  }

  lemma GatheredOne(clock: Clock, levels: seq<Level>, before: Level, level: Option<Level>, after: Level)
    requires FoldLevels(clock, levels) == Some(before)
    requires if level.Some? then MergeLevels(before, level.value, ByAge(clock)) == Some(after) else after == before
    ensures FoldLevels(clock, levels + if level.Some? then [level.value] else []) == Some(after)
  {
    if level.Some? {
      FoldLevelsSnoc(clock, levels, level.value);
    } else {
      assert levels + [] == levels;
    }
  }

  /** The levels of the routes of some order for a Gateway, merged as one hierarchy level, with the
      backend's Namespace and the backend below. */
  ghost predicate BackendLevel(clock: Clock, routes: Routes, order: seq<string>, ofNamespace: seq<Policy>, ofBackend: seq<Policy>,
                               gateway: string, level: Level)
    requires forall id | id in order :: id in routes
  {
    LevelsAt(routes, order, gateway) != [] &&
    exists a, b, c ::
      && FoldLevels(clock, LevelsAt(routes, order, gateway)) == Some(a)
      && Reduced(clock, ofNamespace, b) && Reduced(clock, ofBackend, c) && LevelsFrom(a, [b, c]) == Some(level)
  }

  predicate HasGateway(routes: Routes, gateway: string)
  {
    exists id | id in routes :: gateway in routes[id]
  }

  /** Everything merges, when the routes are taken in this order. */
  ghost predicate BackendMerges(clock: Clock, routes: Routes, order: seq<string>, ofNamespace: seq<Policy>, ofBackend: seq<Policy>)
    requires forall id | id in order :: id in routes
  {
    && Reducible(clock, ofNamespace) && Reducible(clock, ofBackend)
    && forall g | HasGateway(routes, g) :: GatewayMerges(clock, LevelsAt(routes, order, g), ofNamespace, ofBackend)
  }

  ghost predicate GatewayMerges(clock: Clock, levels: seq<Level>, ofNamespace: seq<Policy>, ofBackend: seq<Policy>)
  {
    FoldLevels(clock, levels).Some? && MergesBelow(clock, FoldLevels(clock, levels).value, ofNamespace, ofBackend)
  }

  /** The policies of a backend by Gateway, for the order in which the routes are taken. It succeeds if
      and only if everything merges in that order. */
  method ForBackend(clock: Clock, routes: Routes, ofNamespace: seq<Policy>, ofBackend: seq<Policy>)
    returns (r: Result<map<string, Level>, MergeError>, ghost order: seq<string>)
    ensures OrderOf(order, routes.Keys) && forall id | id in order :: id in routes
    ensures r.Ok? <==> BackendMerges(clock, routes, order, ofNamespace, ofBackend)
    ensures r.Ok? ==> forall g :: g in r.value <==> HasGateway(routes, g)
    ensures r.Ok? ==> forall g | g in r.value :: BackendLevel(clock, routes, order, ofNamespace, ofBackend, g, r.value[g])
  {
    order := SomeOrder(routes.Keys);
    OrderMembers(order, routes.Keys);
    var c := MergePoliciesOfSimilarKind(clock, ofBackend);
    if c.Err? {
      return Err(c.error), order;
    }
    var b := MergePoliciesOfSimilarKind(clock, ofNamespace);
    if b.Err? {
      return Err(b.error), order;
    }
    var gathered;
    gathered, order := GatherRoutes(clock, routes);
    if gathered.Err? {
      return gathered, order;
    }
    r := BelowEach(clock, gathered.value, b.value, c.value);
    GatewaysGathered(clock, routes, order, gathered.value);
    BackendMergesIff(clock, routes, order, gathered.value, ofNamespace, b.value, ofBackend, c.value);
  }

  lemma OrderMembers(order: seq<string>, s: set<string>)
    requires OrderOf(order, s)
    ensures forall x :: x in order <==> x in s
  {
    assert forall x :: x in order <==> x in Elements(order);
  }

  lemma BackendMergesIff(clock: Clock, routes: Routes, order: seq<string>, gathered: map<string, Level>,
                         bs: seq<Policy>, b: Level, cs: seq<Policy>, c: Level)
    requires (forall id | id in order :: id in routes) && Gathered(clock, routes, order, gathered)
    requires Reduced(clock, bs, b) && Reduced(clock, cs, c) && forall g :: g in gathered <==> HasGateway(routes, g)
    ensures BackendMerges(clock, routes, order, bs, cs) <==> forall g | g in gathered :: LevelsFrom(gathered[g], [b, c]).Some?
  {
    forall g | g in gathered
      ensures GatewayMerges(clock, LevelsAt(routes, order, g), bs, cs) <==> LevelsFrom(gathered[g], [b, c]).Some?
    {
      assert FoldLevels(clock, LevelsAt(routes, order, g)) == Some(LevelOf(gathered, g));
      BelowOnce(clock, gathered[g], bs, b, cs, c);
    }
    ReducedOnce(clock, bs, b, b);
    ReducedOnce(clock, cs, c, c);
  }

  /** All routes, in some order. It fails only if the routes of some Gateway do not merge in that order. */
  method GatherRoutes(clock: Clock, routes: Routes) returns (r: Result<map<string, Level>, MergeError>, ghost order: seq<string>)
    ensures OrderOf(order, routes.Keys) && forall id | id in order :: id in routes
    ensures r.Ok? ==> Gathered(clock, routes, order, r.value)
    ensures r.Err? ==> exists g | HasGateway(routes, g) :: FoldLevels(clock, LevelsAt(routes, order, g)).None?
  {
    var result: map<string, Level> := map[];
    order := [];
    var todo := routes.Keys;
    ghost var done: set<string> := {};
    while todo != {}
      invariant routes.Keys == done + todo && done !! todo && OrderOf(order, done)
      invariant (forall id | id in order :: id in routes) && Gathered(clock, routes, order, result)
    {
      var id :| id in todo;
      todo := todo - {id};
      var next := AddRoute(clock, result, routes[id]);
      OrderMore(order, done, id);
      if next.Err? {
        order := FailedOrder(clock, routes, order, id, done, todo, result);
        return next, order;
      }
      GatheredMore(clock, routes, order, id, result, next.value);
      result, order, done := next.value, order + [id], done + {id};
    }
    r := Ok(result);
  }

  lemma FailedOrder(clock: Clock, routes: Routes, order: seq<string>, id: string, done: set<string>, todo: set<string>, result: map<string, Level>)
    returns (all: seq<string>)
    requires (forall i | i in order :: i in routes) && id in routes && Gathered(clock, routes, order, result)
    requires OrderOf(order + [id], done + {id}) && (done + {id}) !! todo && routes.Keys == done + {id} + todo
    requires exists g | g in routes[id] :: !Mergeable(LevelOf(result, g), routes[id][g], ByAge(clock))
    ensures OrderOf(all, routes.Keys) && forall i | i in all :: i in routes
    ensures exists g | HasGateway(routes, g) :: FoldLevels(clock, LevelsAt(routes, all, g)).None?
  {
    var rest := Completed(order + [id], done + {id}, todo);
    all := order + [id] + rest;
    OrderMembers(all, routes.Keys);
    var g :| g in routes[id] && !Mergeable(LevelOf(result, g), routes[id][g], ByAge(clock));
    assert forall i | i in order + [id] :: i in routes;
    LevelsAtSnoc(routes, order, id, g);
    FoldLevelsSnoc(clock, LevelsAt(routes, order, g), routes[id][g]);
    FailureStays(clock, routes, order + [id], rest, g);
    assert HasGateway(routes, g);
  }

  lemma {:induction false} FailureStays(clock: Clock, routes: Routes, order: seq<string>, rest: seq<string>, gateway: string)
    requires forall id | id in order + rest :: id in routes
    requires (forall id | id in order :: id in routes) && FoldLevels(clock, LevelsAt(routes, order, gateway)).None?
    ensures FoldLevels(clock, LevelsAt(routes, order + rest, gateway)).None?
    decreases |rest|
  {
    if rest == [] {
      assert order + rest == order;
    } else {
      var n := |rest| - 1;
      assert order + rest == order + rest[..n] + [rest[n]];
      assert forall id | id in order + rest[..n] :: id in order + rest;
      FailureStays(clock, routes, order, rest[..n], gateway);
      LevelsAtSnoc(routes, order + rest[..n], rest[n], gateway);
      NoneStays(clock, LevelsAt(routes, order + rest[..n], gateway), Lookup(routes[rest[n]], gateway));
    }
  }

  lemma NoneStays(clock: Clock, levels: seq<Level>, level: Option<Level>)
    requires FoldLevels(clock, levels).None?
    ensures FoldLevels(clock, levels + if level.Some? then [level.value] else []).None?
  {
    if level.Some? {
      assert (levels + [level.value])[..|levels|] == levels;
    } else {
      assert levels + [] == levels;
    }
  }

  method BelowEach(clock: Clock, gathered: map<string, Level>, b: Level, c: Level) returns (r: Result<map<string, Level>, MergeError>)
    ensures r.Ok? ==> r.value.Keys == gathered.Keys && forall g | g in gathered :: LevelsFrom(gathered[g], [b, c]) == Some(r.value[g])
    ensures r.Err? ==> exists g | g in gathered :: LevelsFrom(gathered[g], [b, c]).None?
  {
    var result := gathered;
    var todo := gathered.Keys;
    while todo != {}
      invariant todo <= gathered.Keys && result.Keys == gathered.Keys
      invariant forall g | g in gathered ::
                  if g in todo then result[g] == gathered[g] else LevelsFrom(gathered[g], [b, c]) == Some(result[g])
    {
      var g :| g in todo;
      var merged := MergeBelow(result[g], b, c);
      if merged.Err? {
        return Err(merged.error);
      }
      result := result[g := merged.value];
      todo := todo - {g};
    }
    r := Ok(result);
  }

  ghost predicate RegularRoutes(routes: Routes, scheme: Scheme)
  {
    forall id, g | id in routes && g in routes[id] :: RegularLevel(routes[id][g], scheme)
  }

  lemma {:induction false} FoldLevelsRegular(clock: Clock, levels: seq<Level>, scheme: Scheme)
    requires RegularLevels(levels, scheme)
    ensures FoldLevels(clock, levels).Some? && RegularLevel(FoldLevels(clock, levels).value, scheme)
  {
    if levels != [] {
      var n := |levels| - 1;
      assert levels[n] in levels;
      FoldLevelsRegular(clock, levels[..n], scheme);
      RegularPair(FoldLevels(clock, levels[..n]).value, levels[n], ByAge(clock), scheme);
    }
  }

  /** Regular policies, inherited or direct, merge in every order of the routes. */
  lemma RegularBackend(clock: Clock, routes: Routes, order: seq<string>, ofNamespace: seq<Policy>, ofBackend: seq<Policy>, scheme: Scheme)
    requires (forall id | id in order :: id in routes) && RegularRoutes(routes, scheme)
    requires AllRegular(ofNamespace, scheme) && AllRegular(ofBackend, scheme)
    ensures BackendMerges(clock, routes, order, ofNamespace, ofBackend)
  {
    RegularMergeBelow(clock, map[], ofNamespace, ofBackend, scheme);
    forall g | HasGateway(routes, g) ensures GatewayMerges(clock, LevelsAt(routes, order, g), ofNamespace, ofBackend) {
      var levels := LevelsAt(routes, order, g);
      forall level | level in levels ensures RegularLevel(level, scheme) {
        LevelsAtMembers(routes, order, g, level);
      }
      FoldLevelsRegular(clock, levels, scheme);
      RegularMergeBelow(clock, FoldLevels(clock, levels).value, ofNamespace, ofBackend, scheme);
    }
  }

  lemma {:induction false} LevelsAtMembers(routes: Routes, order: seq<string>, gateway: string, level: Level)
    requires (forall id | id in order :: id in routes) && level in LevelsAt(routes, order, gateway)
    ensures exists id | id in routes :: gateway in routes[id] && routes[id][gateway] == level
  {
    var n := |order| - 1;
    if level in LevelsAt(routes, order[..n], gateway) {
      LevelsAtMembers(routes, order[..n], gateway, level);
    } else {
      assert order[n] in order;
    }
  }

  lemma {:induction false} LevelsAtEmptyIff(routes: Routes, order: seq<string>, gateway: string)
    requires forall id | id in order :: id in routes
    ensures LevelsAt(routes, order, gateway) != [] <==> exists id | id in order :: gateway in routes[id]
  {
    if order != [] {
      var n := |order| - 1;
      LevelsAtEmptyIff(routes, order[..n], gateway);
      assert order == order[..n] + [order[n]] && order[n] in order;
    }
  }

  lemma GatewaysGathered(clock: Clock, routes: Routes, order: seq<string>, result: map<string, Level>)
    requires (forall id | id in order :: id in routes) && OrderOf(order, routes.Keys) && Gathered(clock, routes, order, result)
    ensures forall g :: g in result <==> HasGateway(routes, g)
  {
    assert forall id :: id in order <==> id in Elements(order);
    forall g ensures g in result <==> HasGateway(routes, g) {
      LevelsAtEmptyIff(routes, order, g);
    }
  }

  predicate FoldOf(clock: Clock, m: Level, column: seq<Policy>, kind: string)
  {
    (kind in m <==> column != []) && (kind in m ==> FoldSame(clock, column) == Ok(m[kind]))
  }

  /** Merging levels of the same hierarchy folds every kind on its own. */
  lemma {:induction false} FoldLevelsByColumn(clock: Clock, levels: seq<Level>, kind: string)
    requires FoldLevels(clock, levels).Some?
    ensures FoldOf(clock, FoldLevels(clock, levels).value, Column(levels, kind), kind)
  {
    if levels != [] {
      var n := |levels| - 1;
      FoldLevelsByColumn(clock, levels[..n], kind);
      KindMerged(clock, FoldLevels(clock, levels[..n]).value, levels[n], FoldLevels(clock, levels).value, Column(levels[..n], kind), kind);
      LastCell(levels, kind);
    }
  }

  lemma LastCell(levels: seq<Level>, kind: string)
    requires levels != []
    ensures Column(levels, kind) == Column(levels[..|levels| - 1], kind) + Cell(levels[|levels| - 1], kind)
  {
    assert levels == levels[..|levels| - 1] + [levels[|levels| - 1]];
    ColumnSnoc(levels[..|levels| - 1], levels[|levels| - 1], kind);
  }

  lemma {:induction false} KindMerged(clock: Clock, m: Level, last: Level, merged: Level, column: seq<Policy>, kind: string)
    requires MergeLevels(m, last, ByAge(clock)) == Some(merged)
    requires FoldOf(clock, m, column, kind)
    ensures FoldOf(clock, merged, column + Cell(last, kind), kind)
  {
    if kind in last {
      if kind in m {
        assert Entry(m, last, ByAge(clock), kind) == MergeSame(clock, m[kind], last[kind]);
        FoldSnoc(clock, column, last[kind]);
      } else {
        assert column + [last[kind]] == [last[kind]];
      }
    } else {
      assert column + [] == column;
    }
  }

  function Cell(level: Level, kind: string): seq<Policy>
  {
    if kind in level then [level[kind]] else []
  }

  lemma {:induction false} ColumnSnoc(levels: seq<Level>, last: Level, kind: string)
    ensures Column(levels + [last], kind) == Column(levels, kind) + Cell(last, kind)
  {
    var all := levels + [last];
    if levels == [] {
      assert all[1..] == [];
    } else {
      assert all[1..] == levels[1..] + [last];
      ColumnSnoc(levels[1..], last, kind);
      Regrouped(Cell(levels[0], kind), Column(levels[1..], kind), Cell(last, kind));
    }
  }

  lemma Regrouped(a: seq<Policy>, b: seq<Policy>, c: seq<Policy>)
    ensures a + (b + c) == a + b + c
  {
  }
}
