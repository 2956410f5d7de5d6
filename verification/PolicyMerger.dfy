/** Merging whole collections of policies: by kind, by precedence at one level, and down the levels
    of a hierarchy. Models gwctl/pkg/policymanager/merger.go. */
module PolicyMerger {
  import opened Wrappers
  import opened JsonMerge
  import opened Policies
  import opened Hierarchy

  /** Policies of one level, by kind. */
  type Level = map<string, Policy>

  /** Orders two policies so that the second has the higher precedence. */
  type Precedence = (Policy, Policy) -> (Policy, Policy)

  // ----- Two levels -----

  /** What one kind becomes when two levels are merged. */
  function Entry(a: Level, b: Level, precedence: Precedence, k: string): Result<Policy, MergeError>
    requires k in a || k in b
  {
    if k !in b then Ok(a[k])
    else if k !in a then Ok(b[k])
    else var (lower, higher) := precedence(a[k], b[k]); MergePolicy(lower, higher)
  }

  predicate Mergeable(a: Level, b: Level, precedence: Precedence)
  {
    forall k | k in a.Keys + b.Keys :: Entry(a, b, precedence, k).Ok?
  }

  function MergeLevels(a: Level, b: Level, precedence: Precedence): Option<Level>
  {
    if Mergeable(a, b, precedence)
    then Some(map k | k in a.Keys + b.Keys :: Entry(a, b, precedence, k).value)
    else None
  }

  /** Go ranges over maps in an arbitrary order: each loop below takes the next key by an arbitrary
      choice, so its contract holds for every order. Only which of several errors is returned can
      depend on the order. */
  method MergePolicies(policies1: Level, policies2: Level, precedence: Precedence) returns (r: Result<Level, MergeError>)
    ensures r.Ok? <==> Mergeable(policies1, policies2, precedence)
    ensures r.Ok? ==> MergeLevels(policies1, policies2, precedence) == Some(r.value)
    ensures r.Err? ==> exists k | k in policies1 && k in policies2 :: Entry(policies1, policies2, precedence, k) == Err(r.error)
  {
    var result: Level := map[];
    var todo := policies1.Keys;
    while todo != {}
      invariant todo <= policies1.Keys
      invariant result.Keys == policies1.Keys - todo
      invariant forall k | k in result :: result[k] == policies1[k]
    {
      var k :| k in todo;
      result := result[k := policies1[k]];
      todo := todo - {k};
    }
    assert result == policies1;

    todo := policies2.Keys;
    while todo != {}
      invariant todo <= policies2.Keys
      invariant result.Keys == policies1.Keys + (policies2.Keys - todo)
      invariant forall k | k in result ::
                  if k in todo then result[k] == policies1[k] else Entry(policies1, policies2, precedence, k) == Ok(result[k])
    {
      var k :| k in todo;
      if k !in result {
        result := result[k := policies2[k]];
      } else {
        var (lower, higher) := precedence(result[k], policies2[k]);
        var merged := MergePolicy(lower, higher);
        assert Entry(policies1, policies2, precedence, k) == merged;
        if merged.Err? {
          return Err(merged.error);
        }
        result := result[k := merged.value];
      }
      todo := todo - {k};
    }
    assert forall k | k in result :: Entry(policies1, policies2, precedence, k) == Ok(result[k]);
    assert MergeLevels(policies1, policies2, precedence).value == result;
    r := Ok(result);
  }

  method MergePoliciesOfDifferentHierarchy(parents: Level, children: Level) returns (r: Result<Level, MergeError>)
    ensures r.Ok? <==> Mergeable(parents, children, ParentFirst)
    ensures r.Ok? ==> MergeLevels(parents, children, ParentFirst) == Some(r.value)
  {
    r := MergePolicies(parents, children, ParentFirst);
  }

  function ParentFirst(parent: Policy, child: Policy): (Policy, Policy)
  {
    (parent, child)
  }

  // ----- Many levels -----

  /** The topmost level first. */
  function LevelsFrom(top: Level, rest: seq<Level>): Option<Level>
    decreases |rest|
  {
    if rest == [] then Some(top)
    else
      match MergeLevels(top, rest[0], ParentFirst)
      case None => None
      case Some(merged) => LevelsFrom(merged, rest[1..])
  }

  /** The policies of one kind, level by level. */
  function Column(levels: seq<Level>, kind: string): seq<Policy>
  {
    if levels == [] then []
    else (if kind in levels[0] then [levels[0][kind]] else []) + Column(levels[1..], kind)
  }

  /** Folding levels folds every kind on its own. */
  lemma {:induction false} LevelsByColumn(top: Level, rest: seq<Level>, kind: string)
    requires LevelsFrom(top, rest).Some?
    ensures var m, column := LevelsFrom(top, rest).value, Column([top] + rest, kind);
            && (kind in m <==> column != [])
            && (kind in m ==> ChainFrom(column[0], column[1..]) == Ok(m[kind]))
    decreases |rest|
  {
    ColumnCons(top, rest, kind);
    if rest != [] {
      var merged := MergeLevels(top, rest[0], ParentFirst).value;
      LevelsByColumn(merged, rest[1..], kind);
      ColumnCons(merged, rest[1..], kind);
      assert rest == [rest[0]] + rest[1..];
      var below := Column(rest[1..], kind);
      if kind in top && kind in rest[0] {
        MergedHead(top[kind], rest[0][kind], below);
      } else if kind in top {
        assert Column(rest, kind) == below;
      }
    }
  }

  lemma ColumnCons(level: Level, rest: seq<Level>, kind: string)
    ensures Column([level] + rest, kind) == if kind in level then [level[kind]] + Column(rest, kind) else Column(rest, kind)
  {
  }

  lemma MergedHead(parent: Policy, child: Policy, rest: seq<Policy>)
    requires MergePolicy(parent, child).Ok?
    ensures ChainFrom(parent, ([parent, child] + rest)[1..]) == ChainFrom(MergePolicy(parent, child).value, rest)
    ensures [parent] + ([child] + rest) == [parent, child] + rest
    ensures ([MergePolicy(parent, child).value] + rest)[1..] == rest
  {
    assert ([parent, child] + rest)[1..] == [child] + rest;
    assert ([child] + rest)[1..] == rest;
  }

  /** Which kinds are inherited, as their CRDs say; the others are direct. */
  type Scheme = string -> bool

  predicate RegularLevel(level: Level, scheme: Scheme)
  {
    forall k | k in level :: Regular(level[k], k, scheme(k))
  }

  ghost predicate RegularLevels(levels: seq<Level>, scheme: Scheme)
  {
    forall level | level in levels :: RegularLevel(level, scheme)
  }

  /** Two levels of regular policies filed under their own kind merge into such a level, whichever of two
      policies goes first. */
  lemma RegularPair(a: Level, b: Level, precedence: Precedence, scheme: Scheme)
    requires RegularLevel(a, scheme) && RegularLevel(b, scheme)
    requires forall p, q :: precedence(p, q) == (p, q) || precedence(p, q) == (q, p)
    ensures MergeLevels(a, b, precedence).Some? && RegularLevel(MergeLevels(a, b, precedence).value, scheme)
  {
    forall k | k in a.Keys + b.Keys ensures Entry(a, b, precedence, k).Ok? {
      EntryRegular(a, b, precedence, scheme, k);
    }
    var merged := MergeLevels(a, b, precedence).value;
    forall k | k in merged ensures Regular(merged[k], k, scheme(k)) {
      EntryRegular(a, b, precedence, scheme, k);
      assert merged[k] == Entry(a, b, precedence, k).value;
    }
  }

  lemma EntryRegular(a: Level, b: Level, precedence: Precedence, scheme: Scheme, k: string)
    requires RegularLevel(a, scheme) && RegularLevel(b, scheme) && (k in a || k in b)
    requires k in a && k in b ==> precedence(a[k], b[k]) in {(a[k], b[k]), (b[k], a[k])}
    ensures Entry(a, b, precedence, k).Ok? && Regular(Entry(a, b, precedence, k).value, k, scheme(k))
  {
    if k in a && k in b {
      var (lower, higher) := precedence(a[k], b[k]);
      RegularMerges(lower, higher, k, scheme(k));
    }
  }

  /** Any number of such levels merge. */
  lemma {:induction false} RegularLevelsMerge(top: Level, rest: seq<Level>, scheme: Scheme)
    requires RegularLevels([top] + rest, scheme)
    ensures LevelsFrom(top, rest).Some? && RegularLevel(LevelsFrom(top, rest).value, scheme)
    decreases |rest|
  {
    assert top in [top] + rest;
    if rest != [] {
      assert rest[0] in [top] + rest;
      RegularPair(top, rest[0], ParentFirst, scheme);
      var merged := MergeLevels(top, rest[0], ParentFirst).value;
      forall level | level in [merged] + rest[1..] ensures RegularLevel(level, scheme) {
        assert level != merged ==> level in [top] + rest;
      }
      RegularLevelsMerge(merged, rest[1..], scheme);
    }
  }

  lemma {:induction false} SoundColumn(levels: seq<Level>, kind: string, scheme: Scheme)
    requires RegularLevels(levels, scheme) && scheme(kind)
    ensures SoundChain(Column(levels, kind), kind)
    decreases |levels|
  {
    if levels != [] {
      assert levels[0] in levels;
      SoundColumn(levels[1..], kind, scheme);
    }
  }

  /** The effective policy of a resource, for any number of levels of regular policies filed under
      their kinds, every inherited kind and every path on which the sections agree: the topmost override,
      else the bottommost default, else nothing. */
  lemma EffectiveOfHierarchy(levels: seq<Level>, kind: string, path: Path, scheme: Scheme)
    requires |levels| >= 1 && RegularLevels(levels, scheme) && scheme(kind)
    requires exists level :: level in levels && kind in level
    requires var column := Column(levels, kind);
             var os, ds := Probes(column, SectionPath("override", path)), Probes(column, SectionPath("default", path));
             AllAgree(os, os) && AllAgree(ds, ds) && AllAgree(os, ds)
    ensures LevelsFrom(levels[0], levels[1..]).Some? && kind in LevelsFrom(levels[0], levels[1..]).value
    ensures var column, policy := Column(levels, kind), LevelsFrom(levels[0], levels[1..]).value[kind];
            var o, d := SectionPath("override", path), SectionPath("default", path);
            var top, bottom := TopmostLeaf(Probes(column, o), o), BottommostLeaf(Probes(column, d), d);
            policy.EffectiveSpec().Ok? && SpecLeaf(policy.EffectiveSpec().value, path) == if top.Some? then top else bottom
  {
    assert levels == [levels[0]] + levels[1..];
    RegularLevelsMerge(levels[0], levels[1..], scheme);
    LevelsByColumn(levels[0], levels[1..], kind);
    SoundColumn(levels, kind, scheme);
    ColumnNonEmpty(levels, kind);
    EffectiveByPrecedence(Column(levels, kind), kind, path);
  }

  /** The same for a direct kind, at every path below its spec: the bottommost policy that reaches it. */
  lemma DirectOfHierarchy(levels: seq<Level>, kind: string, path: Path, scheme: Scheme)
    requires |levels| >= 1 && RegularLevels(levels, scheme) && !scheme(kind) && path != []
    requires exists level :: level in levels && kind in level
    ensures LevelsFrom(levels[0], levels[1..]).Some? && kind in LevelsFrom(levels[0], levels[1..]).value
    ensures var policy := LevelsFrom(levels[0], levels[1..]).value[kind];
            && policy.EffectiveSpec().Ok?
            && SpecAt(policy.EffectiveSpec().value, path) ==
               if path[0] == "targetRef" then Nothing else DefaultsUp(Probes(Column(levels, kind), ["spec"] + path), ["spec"] + path)
  {
    assert levels == [levels[0]] + levels[1..];
    RegularLevelsMerge(levels[0], levels[1..], scheme);
    LevelsByColumn(levels[0], levels[1..], kind);
    DirectColumn(levels, kind, scheme);
    ColumnNonEmpty(levels, kind);
    EffectiveOfDirectChain(Column(levels, kind), kind, path);
  }

  lemma {:induction false} DirectColumn(levels: seq<Level>, kind: string, scheme: Scheme)
    requires RegularLevels(levels, scheme) && !scheme(kind)
    ensures DirectChain(Column(levels, kind), kind)
    decreases |levels|
  {
    if levels != [] {
      assert levels[0] in levels;
      DirectColumn(levels[1..], kind, scheme);
    }
  }

  lemma {:induction false} ColumnNonEmpty(levels: seq<Level>, kind: string)
    requires exists level :: level in levels && kind in level
    ensures Column(levels, kind) != []
    decreases |levels|
  {
    if kind !in levels[0] {
      var level :| level in levels && kind in level;
      assert level in levels[1..];
      ColumnNonEmpty(levels[1..], kind);
    }
  }
}
