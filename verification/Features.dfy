/** Profiles, and the features a suite ends up supporting. Models conformance/utils/suite/profiles.go
    and the feature selection of NewConformanceTestSuite in conformance/utils/suite/suite.go. */
module Features {
  import opened Wrappers
  import opened Sequences

  datatype Profile = Profile(name: string, core: set<string>, extended: set<string>)

  /** Profiles by the key they are registered under, which need not be their name. */
  type Registry = map<string, Profile>

  datatype SelectionError = UnknownProfile | NilMapInsert

  /** Go sets that are created on first use: an absent key is a nil set. */
  datatype Selection = Selection(supported: set<string>, extended: map<string, set<string>>, unsupported: map<string, set<string>>)

  function SetAt(m: map<string, set<string>>, k: string): set<string>
  {
    if k in m then m[k] else {}
  }

  function CoresOf(registry: Registry, keys: set<string>): set<string>
  {
    set k, f | k in keys && k in registry && f in registry[k].core :: f
  }

  function ExtendedOf(registry: Registry, keys: set<string>): set<string>
  {
    set k, f | k in keys && k in registry && f in registry[k].extended :: f
  }

  method DeleteExempt(given: set<string>, exempt: set<string>) returns (r: set<string>)
    ensures r == given - exempt
  {
    r := given;
    var todo := exempt;
    while todo != {}
      invariant todo <= exempt && r == given - (exempt - todo)
    {
      var f :| f in todo;
      r := r - {f};
      todo := todo - {f};
    }
  }

  method InsertCore(supported: set<string>, core: set<string>) returns (r: set<string>)
    ensures r == supported + core
  {
    r := supported;
    var todo := core;
    while todo != {}
      invariant todo <= core && r == supported + (core - todo)
    {
      var f :| f in todo;
      if f !in r {
        r := r + {f};
      }
      todo := todo - {f};
    }
  }

  /** A Go set filled by insertions: nil until the first one. */
  function Filled(s: set<string>): Option<set<string>>
  {
    if s == {} then None else Some(s)
  }

  function Insert(s: Option<set<string>>, f: string): Option<set<string>>
  {
    Some((if s.Some? then s.value else {}) + {f})
  }

  // ----- The extended features of one profile -----

  type Sorted = (Option<set<string>>, Option<set<string>>)

  /** One feature goes to the supported or to the unsupported ones. An exempt feature is then also
      inserted into the set of unsupported ones, which must have been created by then. */
  function SortOne(supported: set<string>, exempt: set<string>, sorted: Sorted, f: string): Result<Sorted, SelectionError>
  {
    var (yes, no) := if f in supported then (Insert(sorted.0, f), sorted.1) else (sorted.0, Insert(sorted.1, f));
    if f !in exempt then Ok((yes, no)) else if no.None? then Err(NilMapInsert) else Ok((yes, Insert(no, f)))
  }

  function SortIn(supported: set<string>, exempt: set<string>, order: seq<string>): Result<Sorted, SelectionError>
  {
    if order == [] then Ok((None, None))
    else
      match SortIn(supported, exempt, order[..|order| - 1])
      case Err(e) => Err(e)
      case Ok(sorted) => SortOne(supported, exempt, sorted, order[|order| - 1])
  }

  /** Both sets after any order, or the feature at which it failed. */
  lemma {:induction false} SortedInOrder(supported: set<string>, exempt: set<string>, order: seq<string>)
    ensures var features := Elements(order);
            match SortIn(supported, exempt, order)
            case Err(e) => e == NilMapInsert && features * supported * exempt != {}
            case Ok((yes, no)) => yes == Filled(features * supported) && no == Filled((features - supported) + features * exempt)
  {
    if order != [] {
      var n := |order| - 1;
      SortedInOrder(supported, exempt, order[..n]);
      assert Elements(order) == Elements(order[..n]) + {order[n]};
      SortedOneMore(supported, exempt, Elements(order[..n]), order[n]);
      if SortIn(supported, exempt, order[..n]).Err? {
        var f :| f in Elements(order[..n]) * supported * exempt;
        assert f in Elements(order) * supported * exempt;
      }
    }
  }

  lemma SortedOneMore(supported: set<string>, exempt: set<string>, done: set<string>, f: string)
    ensures var features := done + {f};
            match SortOne(supported, exempt, (Filled(done * supported), Filled((done - supported) + done * exempt)), f)
            case Err(e) => e == NilMapInsert && f in features * supported * exempt
            case Ok((yes, no)) => yes == Filled(features * supported) && no == Filled((features - supported) + features * exempt)
  {
    var features := done + {f};
    assert features * supported == if f in supported then done * supported + {f} else done * supported;
    var no := (done - supported) + done * exempt;
    assert (features - supported) + features * exempt == if f in supported && f !in exempt then no else no + {f};
  }

  lemma {:induction false} SortErrStays(supported: set<string>, exempt: set<string>, order: seq<string>, rest: seq<string>)
    requires SortIn(supported, exempt, order).Err?
    ensures SortIn(supported, exempt, order + rest) == SortIn(supported, exempt, order)
    decreases |rest|
  {
    if rest == [] {
      assert order + rest == order;
    } else {
      assert (order + rest)[..|order + rest| - 1] == order + rest[..|rest| - 1];
      SortErrStays(supported, exempt, order, rest[..|rest| - 1]);
    }
  }

  lemma SortSnoc(supported: set<string>, exempt: set<string>, order: seq<string>, f: string)
    requires SortIn(supported, exempt, order).Ok?
    ensures SortIn(supported, exempt, order + [f]) == SortOne(supported, exempt, SortIn(supported, exempt, order).value, f)
  {
    assert (order + [f])[..|order|] == order;
  }

  method SortFeature(supported: set<string>, exempt: set<string>, sorted: Sorted, f: string) returns (r: Result<Sorted, SelectionError>)
    ensures r == SortOne(supported, exempt, sorted, f)
  {
    var (yes, no) := sorted;
    if f in supported {
      yes := Insert(yes, f);
    } else {
      no := Insert(no, f);
    }
    if f in exempt {
      if no.None? {
        return Err(NilMapInsert);
      }
      no := Insert(no, f);
    }
    r := Ok((yes, no));
  }

  /** Sorts in some order, the one returned. */
  method SortExtended(supported: set<string>, exempt: set<string>, features: set<string>)
    returns (r: Result<Sorted, SelectionError>, ghost order: seq<string>)
    ensures OrderOf(order, features) && r == SortIn(supported, exempt, order)
  {
    r, order := Ok((None, None)), [];
    var todo := features;
    ghost var done: set<string> := {};
    while todo != {}
      invariant features == done + todo && done !! todo && OrderOf(order, done)
      invariant r.Ok? && SortIn(supported, exempt, order) == r
    {
      var f :| f in todo;
      todo := todo - {f};
      SortSnoc(supported, exempt, order, f);
      OrderMore(order, done, f);
      order, done := order + [f], done + {f};
      r := SortFeature(supported, exempt, r.value, f);
      if r.Err? {
        ghost var rest := Completed(order, done, todo);
        SortErrStays(supported, exempt, order, rest);
        order := order + rest;
        return r, order;
      }
    }
  }

  // ----- All selected profiles -----

  /** A profile key, and the order in which the extended features of that profile are sorted. */
  datatype Visit = Visit(key: string, features: seq<string>)

  function KeysOf(plan: seq<Visit>): (r: seq<string>)
    ensures |r| == |plan|
  {
    seq(|plan|, i requires 0 <= i < |plan| => plan[i].key)
  }

  /** One way in which Go may iterate over the selected profiles and their features. */
  predicate PlanFor(registry: Registry, keys: set<string>, plan: seq<Visit>)
  {
    && OrderOf(KeysOf(plan), keys)
    && forall v | v in plan && v.key in registry :: OrderOf(v.features, registry[v.key].extended)
  }

  /** One round of the loop over the selected profiles. options.SupportedFeatures and
      suite.SupportedFeatures are one and the same set in the source, so a core feature inserted for
      one profile is already supported when later profiles are sorted. */
  function SelectOne(exempt: set<string>, registry: Registry, s: Selection, v: Visit): Result<Selection, SelectionError>
  {
    if v.key !in registry then Err(UnknownProfile)
    else
      var supported := s.supported + registry[v.key].core;
      match SortIn(supported, exempt, v.features)
      case Err(e) => Err(e)
      case Ok((yes, no)) => Ok(Recorded(s, v.key, supported, yes, no))
  }

  function Recorded(s: Selection, k: string, supported: set<string>, yes: Option<set<string>>, no: Option<set<string>>): Selection
  {
    Selection(supported,
              if yes.None? then s.extended else s.extended[k := yes.value],
              if no.None? then s.unsupported else s.unsupported[k := no.value])
  }

  function SelectIn(given: set<string>, exempt: set<string>, registry: Registry, plan: seq<Visit>): Result<Selection, SelectionError>
  {
    if plan == [] then Ok(Selection(given - exempt, map[], map[]))
    else
      match SelectIn(given, exempt, registry, plan[..|plan| - 1])
      case Err(e) => Err(e)
      case Ok(s) => SelectOne(exempt, registry, s, plan[|plan| - 1])
  }

  lemma {:induction false} SelectErrStays(given: set<string>, exempt: set<string>, registry: Registry, plan: seq<Visit>, rest: seq<Visit>)
    requires SelectIn(given, exempt, registry, plan).Err?
    ensures SelectIn(given, exempt, registry, plan + rest) == SelectIn(given, exempt, registry, plan)
    decreases |rest|
  {
    if rest == [] {
      assert plan + rest == plan;
    } else {
      assert (plan + rest)[..|plan + rest| - 1] == plan + rest[..|rest| - 1];
      SelectErrStays(given, exempt, registry, plan, rest[..|rest| - 1]);
    }
  }

  lemma SelectSnoc(given: set<string>, exempt: set<string>, registry: Registry, plan: seq<Visit>, v: Visit)
    requires SelectIn(given, exempt, registry, plan).Ok?
    ensures SelectIn(given, exempt, registry, plan + [v]) == SelectOne(exempt, registry, SelectIn(given, exempt, registry, plan).value, v)
  {
    assert (plan + [v])[..|plan|] == plan;
  }

  lemma PlanMore(registry: Registry, keys: set<string>, plan: seq<Visit>, v: Visit)
    requires PlanFor(registry, keys, plan) && v.key !in keys
    requires v.key in registry ==> OrderOf(v.features, registry[v.key].extended)
    ensures PlanFor(registry, keys + {v.key}, plan + [v])
  {
    OrderMore(KeysOf(plan), keys, v.key);
    assert KeysOf(plan + [v]) == KeysOf(plan) + [v.key];
  }

  /** A plan, begun with `plan`, for all keys. */
  lemma {:induction false} PlanCompleted(registry: Registry, plan: seq<Visit>, done: set<string>, todo: set<string>) returns (rest: seq<Visit>)
    requires PlanFor(registry, done, plan) && done !! todo
    ensures PlanFor(registry, done + todo, plan + rest)
    decreases todo
  {
    if todo == {} {
      rest := [];
      assert plan + rest == plan && done + todo == done;
    } else {
      var k :| k in todo;
      var order := SomeOrder(if k in registry then registry[k].extended else {});
      PlanMore(registry, done, plan, Visit(k, order));
      var more := PlanCompleted(registry, plan + [Visit(k, order)], done + {k}, todo - {k});
      rest := [Visit(k, order)] + more;
      assert plan + rest == plan + [Visit(k, order)] + more && done + {k} + (todo - {k}) == done + todo;
    }
  }

  /** Selects in some order, the one returned. */
  method SelectFeatures(given: set<string>, exempt: set<string>, keys: set<string>, registry: Registry)
    returns (r: Result<Selection, SelectionError>, ghost plan: seq<Visit>)
    ensures PlanFor(registry, keys, plan) && r == SelectIn(given, exempt, registry, plan)
    ensures r == Err(UnknownProfile) ==> !(keys <= registry.Keys)
    ensures r == Err(NilMapInsert) ==> exempt * CoresOf(registry, keys) * ExtendedOf(registry, keys) != {}
    ensures r.Ok? ==> keys <= registry.Keys && Selected(given, exempt, keys, registry, r.value)
  {
    var supported := DeleteExempt(given, exempt);
    var s := Selection(supported, map[], map[]);
    var todo := keys;
    plan := [];
    ghost var done: set<string> := {};
    while todo != {}
      invariant keys == done + todo && done !! todo && PlanFor(registry, done, plan)
      invariant SelectIn(given, exempt, registry, plan) == Ok(s)
    {
      var k :| k in todo;
      todo := todo - {k};
      var next, v := AddProfile(exempt, registry, s, k);
      SelectSnoc(given, exempt, registry, plan, v);
      PlanMore(registry, done, plan, v);
      plan, done := plan + [v], done + {k};
      if next.Err? {
        ghost var rest := PlanCompleted(registry, plan, done, todo);
        SelectErrStays(given, exempt, registry, plan, rest);
        plan := plan + rest;
        SelectedInPlan(given, exempt, keys, registry, plan);
        return Err(next.error), plan;
      }
      s := next.value;
    }
    SelectedInPlan(given, exempt, keys, registry, plan);
    r := Ok(s);
  }

  method AddProfile(exempt: set<string>, registry: Registry, s: Selection, k: string)
    returns (r: Result<Selection, SelectionError>, ghost v: Visit)
    ensures v.key == k && (k in registry ==> OrderOf(v.features, registry[k].extended))
    ensures r == SelectOne(exempt, registry, s, v)
  {
    if k !in registry {
      return Err(UnknownProfile), Visit(k, []);
    }
    var supported := InsertCore(s.supported, registry[k].core);
    var sorted, order := SortExtended(supported, exempt, registry[k].extended);
    v := Visit(k, order);
    if sorted.Err? {
      return Err(sorted.error), v;
    }
    r := Ok(Recorded(s, k, supported, sorted.value.0, sorted.value.1));
  }

  // ----- What holds for every order -----

  /** The extended features `all` of one profile are covered; exempt ones are unsupported, given ones
      that are not exempt supported, and only core features can be both. */
  predicate Split(given: set<string>, exempt: set<string>, cores: set<string>, all: set<string>, yes: set<string>, no: set<string>)
  {
    && yes + no == all && all * exempt <= no
    && all * (given - exempt) <= yes <= (given - exempt) + cores
    && yes * no <= cores
  }

  /** What holds of a selection for every iteration order. */
  ghost predicate Selected(given: set<string>, exempt: set<string>, keys: set<string>, registry: Registry, s: Selection)
  {
    && s.extended.Keys <= keys && s.unsupported.Keys <= keys
    && s.supported == (given - exempt) + CoresOf(registry, keys)
    && forall k | k in keys && k in registry ::
         Split(given, exempt, CoresOf(registry, keys), registry[k].extended, SetAt(s.extended, k), SetAt(s.unsupported, k))
  }

  /** An exempt feature is core in one selected profile and extended in one. */
  predicate Conflict(registry: Registry, keys: set<string>, exempt: set<string>)
  {
    exempt * CoresOf(registry, keys) * ExtendedOf(registry, keys) != {}
  }

  /** What any order of iteration leads to. */
  lemma {:induction false} SelectedInPlan(given: set<string>, exempt: set<string>, keys: set<string>, registry: Registry, plan: seq<Visit>)
    requires PlanFor(registry, keys, plan)
    ensures match SelectIn(given, exempt, registry, plan)
            case Err(UnknownProfile) => !(keys <= registry.Keys)
            case Err(NilMapInsert) => Conflict(registry, keys, exempt)
            case Ok(s) => keys <= registry.Keys && Selected(given, exempt, keys, registry, s)
    decreases |plan|
  {
    if plan == [] {
      assert keys == {};
    } else {
      var n := |plan| - 1;
      var v, done := plan[n], keys - {plan[n].key};
      PlanLess(registry, keys, plan);
      SelectedInPlan(given, exempt, done, registry, plan[..n]);
      ConflictGrows(registry, done, v.key, exempt);
      if SelectIn(given, exempt, registry, plan[..n]).Ok? && v.key in registry {
        SelectedOneMore(given, exempt, done, registry, SelectIn(given, exempt, registry, plan[..n]).value, v);
      }
    }
  }

  lemma PlanLess(registry: Registry, keys: set<string>, plan: seq<Visit>)
    requires PlanFor(registry, keys, plan) && plan != []
    ensures var v := plan[|plan| - 1];
            && v.key in keys && PlanFor(registry, keys - {v.key}, plan[..|plan| - 1])
            && (v.key in registry ==> OrderOf(v.features, registry[v.key].extended))
  {
    var n := |plan| - 1;
    var all, less := KeysOf(plan), KeysOf(plan[..n]);
    assert less == all[..n] && plan[n] in plan;
    assert all[n] in Elements(all);
    assert Elements(all) == Elements(less) + {all[n]};
    assert all[n] !in Elements(less);
  }

  lemma CoresGrow(registry: Registry, keys: set<string>, k: string)
    requires k in registry
    ensures CoresOf(registry, keys + {k}) == CoresOf(registry, keys) + registry[k].core
  {
  }

  lemma ConflictGrows(registry: Registry, keys: set<string>, k: string, exempt: set<string>)
    ensures Conflict(registry, keys, exempt) ==> Conflict(registry, keys + {k}, exempt)
  {
    if Conflict(registry, keys, exempt) {
      var f :| f in exempt * CoresOf(registry, keys) * ExtendedOf(registry, keys);
      assert f in exempt * CoresOf(registry, keys + {k}) * ExtendedOf(registry, keys + {k});
    }
  }

  lemma SelectedOneMore(given: set<string>, exempt: set<string>, done: set<string>, registry: Registry, s: Selection, v: Visit)
    requires Selected(given, exempt, done, registry, s) && v.key !in done && v.key in registry
    requires OrderOf(v.features, registry[v.key].extended)
    ensures match SelectOne(exempt, registry, s, v)
            case Err(e) => e == NilMapInsert && Conflict(registry, done + {v.key}, exempt)
            case Ok(next) => Selected(given, exempt, done + {v.key}, registry, next)
  {
    var k, all := v.key, registry[v.key].extended;
    var supported := s.supported + registry[k].core;
    CoresGrow(registry, done, k);
    SortedInOrder(supported, exempt, v.features);
    if SortIn(supported, exempt, v.features).Err? {
      var f :| f in all * supported * exempt;
      assert f in exempt * CoresOf(registry, done + {k}) * ExtendedOf(registry, done + {k});
    } else {
      FiledSelected(given, exempt, done, registry, s, k, SelectOne(exempt, registry, s, v).value);
    }
  }

  lemma FiledSelected(given: set<string>, exempt: set<string>, done: set<string>, registry: Registry, s: Selection, k: string, next: Selection)
    requires Selected(given, exempt, done, registry, s) && k !in done && k in registry
    requires var supported, all := s.supported + registry[k].core, registry[k].extended;
             next == Recorded(s, k, supported, Filled(all * supported), Filled((all - supported) + all * exempt))
    ensures Selected(given, exempt, done + {k}, registry, next)
  {
    CoresGrow(registry, done, k);
    var cores, more := CoresOf(registry, done), CoresOf(registry, done + {k});
    forall c | c in done + {k} && c in registry
      ensures Split(given, exempt, more, registry[c].extended, SetAt(next.extended, c), SetAt(next.unsupported, c))
    {
      if c == k {
        SortedSplits(given, exempt, more, registry[k].extended);
      } else {
        assert Split(given, exempt, cores, registry[c].extended, SetAt(s.extended, c), SetAt(s.unsupported, c));
      }
    }
  }

  lemma SortedSplits(given: set<string>, exempt: set<string>, cores: set<string>, all: set<string>)
    ensures var supported := (given - exempt) + cores;
            Split(given, exempt, cores, all, all * supported, (all - supported) + all * exempt)
  {
  }

  // ----- When the insertion into a nil set can happen -----

  /** Some order of iteration panics if and only if an exempt feature is core in one of the selected
      profiles and extended in one of them. */
  lemma SomeOrderPanicsIff(given: set<string>, exempt: set<string>, keys: set<string>, registry: Registry)
    requires keys <= registry.Keys
    ensures (exists plan :: PlanFor(registry, keys, plan) && SelectIn(given, exempt, registry, plan) == Err(NilMapInsert)) <==>
            Conflict(registry, keys, exempt)
  {
    if plan :| PlanFor(registry, keys, plan) && SelectIn(given, exempt, registry, plan) == Err(NilMapInsert) {
      SelectedInPlan(given, exempt, keys, registry, plan);
    }
    if Conflict(registry, keys, exempt) {
      var f :| f in exempt * CoresOf(registry, keys) * ExtendedOf(registry, keys);
      var core :| core in keys && f in registry[core].core;
      var extended :| extended in keys && f in registry[extended].extended;
      var plan := PanickingPlan(given, exempt, keys, registry, f, core, extended);
    }
  }

  /** The profile that has the feature as a core feature goes first, then the other with that feature first. */
  lemma PanickingPlan(given: set<string>, exempt: set<string>, keys: set<string>, registry: Registry, f: string, core: string, extended: string)
    returns (plan: seq<Visit>)
    requires keys <= registry.Keys && core in keys && extended in keys
    requires f in exempt && f in registry[core].core && f in registry[extended].extended
    ensures PlanFor(registry, keys, plan) && SelectIn(given, exempt, registry, plan) == Err(NilMapInsert)
  {
    var before: seq<Visit>, done: set<string> := [], {};
    assert KeysOf(before) == [];
    if core != extended {
      var order := SomeOrder(registry[core].extended);
      PlanMore(registry, {}, [], Visit(core, order));
      before, done := [] + [Visit(core, order)], {} + {core};
      SelectedInPlan(given, exempt, done, registry, before);
    }
    var rest := OrderFrom(registry[extended].extended, f);
    var v := Visit(extended, [f] + rest);
    PlanMore(registry, done, before, v);
    if SelectIn(given, exempt, registry, before).Ok? {
      SelectSnoc(given, exempt, registry, before, v);
      var s := SelectIn(given, exempt, registry, before).value;
      FirstPanics(s.supported + registry[extended].core, exempt, f, rest);
    } else {
      SelectErrStays(given, exempt, registry, before, [v]);
    }
    var more := PlanCompleted(registry, before + [v], done + {extended}, keys - (done + {extended}));
    SelectErrStays(given, exempt, registry, before + [v], more);
    plan := before + [v] + more;
    assert done + {extended} + (keys - (done + {extended})) == keys;
  }

  lemma FirstPanics(supported: set<string>, exempt: set<string>, f: string, rest: seq<string>)
    requires f in supported && f in exempt
    ensures SortIn(supported, exempt, [f] + rest) == Err(NilMapInsert)
  {
    SortSnoc(supported, exempt, [], f);
    assert [] + [f] == [f];
    SortErrStays(supported, exempt, [f], rest);
  }

  /** No feature is core in one selected profile and extended in a selected profile. */
  predicate Separate(registry: Registry, keys: set<string>)
  {
    CoresOf(registry, keys) !! ExtendedOf(registry, keys)
  }

  /** Where core and extended features are separate, each profile's extended features split into two
      disjoint sets that do not depend on the iteration order: those given and not exempt, and the rest. */
  lemma SelectionIsPartition(given: set<string>, exempt: set<string>, keys: set<string>, registry: Registry, s: Selection, k: string)
    requires Selected(given, exempt, keys, registry, s) && Separate(registry, keys) && k in keys && k in registry
    ensures SetAt(s.extended, k) == registry[k].extended * (given - exempt)
    ensures SetAt(s.unsupported, k) == registry[k].extended - (given - exempt)
  {
    var all, cores, yes, no := registry[k].extended, CoresOf(registry, keys), SetAt(s.extended, k), SetAt(s.unsupported, k);
    assert all <= ExtendedOf(registry, keys);
    assert Split(given, exempt, cores, all, yes, no);
    assert yes * no <= cores && yes * no <= all;
    assert yes * no == {};
  }
}
