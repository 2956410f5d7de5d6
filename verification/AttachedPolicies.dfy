/** From the policies attached to the resources of a hierarchy, or inherited through several routes,
    to the effective value at a path. Puts the reduction of one level and the merging of levels of
    gwctl/pkg/resourcediscovery/resourcemodel.go together. */
module AttachedPolicies {
  import opened Wrappers
  import opened JsonMerge
  import opened Policies
  import opened Hierarchy
  import opened PolicyMerger
  import opened SameLevel
  import opened EffectivePolicies
  import opened LevelOrder
  import opened RankScan

  /** The policies of one kind at each level, in the order in which they are folded, and what the levels
      have for that kind. */
  ghost predicate Grouped(clock: Clock, groups: seq<seq<Policy>>, levels: seq<Level>, kind: string)
  {
    |groups| == |levels| && forall i | 0 <= i < |levels| :: GroupedAt(clock, groups[i], levels[i], kind)
  }

  predicate GroupedAt(clock: Clock, group: seq<Policy>, level: Level, kind: string)
  {
    (kind in level <==> group != []) && (kind in level ==> FoldSame(clock, group) == Ok(level[kind]))
  }

  ghost predicate SoundGroup(group: seq<Policy>, kind: string, c: Carried)
  {
    forall p | p in group :: Regular(p, kind, true) && Carries(p, c)
  }

  ghost predicate SoundGroups(groups: seq<seq<Policy>>, kind: string, c: Carried)
  {
    forall i | 0 <= i < |groups| :: SoundGroup(groups[i], kind, c)
  }

  ghost predicate AgreeOn(ps: seq<Policy>, qs: seq<Policy>, x: Path, y: Path)
  {
    forall p, q | p in ps && q in qs :: Agree(ProbeAt(p.Doc(), x), ProbeAt(q.Doc(), y))
  }

  /** All policies of all levels agree on what is an object along two paths. */
  ghost predicate GroupsAgree(groups: seq<seq<Policy>>, x: Path, y: Path)
  {
    forall i, j | 0 <= i < |groups| && 0 <= j < |groups| :: AgreeOn(groups[i], groups[j], x, y)
  }

  // ----- Agreement carries over to the folds -----

  lemma GroupCandidates(group: seq<Policy>, kind: string, c: Carried, path: Path)
    requires group != [] && Settled(true, path) && AgreeOn(group, group, path, path)
    requires SoundGroup(group, kind, c)
    ensures Candidates(group, kind, true, c, path)
  {
    forall p, q | p in group && q in group ensures CompatibleAt(p, q, path) {
      assert Agree(ProbeAt(p.Doc(), path), ProbeAt(q.Doc(), path));
    }
  }

  /** Two folds agree along two paths on which all their policies agree. */
  lemma FoldsAgree(clock: Clock, ps: seq<Policy>, qs: seq<Policy>, a: Policy, b: Policy, kind: string, c: Carried, x: Path, y: Path)
    requires Candidates(ps, kind, true, c, x) && Candidates(qs, kind, true, c, y) && AgreeOn(ps, qs, x, y)
    requires FoldSame(clock, ps) == Ok(a) && FoldSame(clock, qs) == Ok(b)
    ensures Agree(ProbeAt(a.Doc(), x), ProbeAt(b.Doc(), y))
  {
    forall q | q in qs ensures Agree(ProbeAt(q.Doc(), y), ProbeAt(a.Doc(), x)) {
      FoldRegular(clock, ps, kind, true, x, ProbeAt(q.Doc(), y));
      AgreeSymmetric(ProbeAt(a.Doc(), x), ProbeAt(q.Doc(), y));
    }
    FoldRegular(clock, qs, kind, true, y, ProbeAt(a.Doc(), x));
    AgreeSymmetric(ProbeAt(b.Doc(), y), ProbeAt(a.Doc(), x));
  }

  lemma AgreeSymmetric(p: Probe, q: Probe)
    ensures Agree(p, q) <==> Agree(q, p)
  {
  }

  /** Every policy of a column is the fold of the group of its level. */
  lemma {:induction false} ColumnMember(clock: Clock, groups: seq<seq<Policy>>, levels: seq<Level>, kind: string, k: nat) returns (i: nat)
    requires Grouped(clock, groups, levels, kind) && k < |Column(levels, kind)|
    ensures i < |groups| && groups[i] != [] && FoldSame(clock, groups[i]) == Ok(Column(levels, kind)[k])
    decreases |levels|
  {
    assert GroupedAt(clock, groups[0], levels[0], kind);
    if kind in levels[0] && k == 0 {
      i := 0;
    } else {
      GroupedTail(clock, groups, levels, kind);
      var j := ColumnMember(clock, groups[1..], levels[1..], kind, if kind in levels[0] then k - 1 else k);
      i := j + 1;
    }
  }

  lemma GroupedTail(clock: Clock, groups: seq<seq<Policy>>, levels: seq<Level>, kind: string)
    requires Grouped(clock, groups, levels, kind) && levels != []
    ensures Grouped(clock, groups[1..], levels[1..], kind)
  {
    forall i | 0 <= i < |levels| - 1 ensures GroupedAt(clock, groups[1..][i], levels[1..][i], kind) {
      assert GroupedAt(clock, groups[i + 1], levels[i + 1], kind);
    }
  }

  lemma {:induction false} PairAgrees(clock: Clock, ps: seq<Policy>, qs: seq<Policy>, a: Policy, b: Policy, kind: string, c: Carried, x: Path, y: Path)
    requires ps != [] && qs != [] && SoundGroup(ps, kind, c) && SoundGroup(qs, kind, c) && Settled(true, x) && Settled(true, y)
    requires AgreeOn(ps, ps, x, x) && AgreeOn(qs, qs, y, y) && AgreeOn(ps, qs, x, y)
    requires FoldSame(clock, ps) == Ok(a) && FoldSame(clock, qs) == Ok(b)
    ensures Agree(ProbeAt(a.Doc(), x), ProbeAt(b.Doc(), y))
  {
    GroupCandidates(ps, kind, c, x);
    GroupCandidates(qs, kind, c, y);
    FoldsAgree(clock, ps, qs, a, b, kind, c, x, y);
  }

  lemma {:induction false} ColumnAgrees(clock: Clock, groups: seq<seq<Policy>>, levels: seq<Level>, kind: string, c: Carried, x: Path, y: Path, column: seq<Policy>)
    requires Grouped(clock, groups, levels, kind) && SoundGroups(groups, kind, c) && Settled(true, x) && Settled(true, y)
    requires GroupsAgree(groups, x, x) && GroupsAgree(groups, y, y) && GroupsAgree(groups, x, y) && column == Column(levels, kind)
    ensures AllAgree(Probes(column, x), Probes(column, y))
  {
    forall k, l | 0 <= k < |column| && 0 <= l < |column| ensures Agree(Probes(column, x)[k], Probes(column, y)[l]) {
      var i := ColumnMember(clock, groups, levels, kind, k);
      var j := ColumnMember(clock, groups, levels, kind, l);
      PairAgrees(clock, groups[i], groups[j], column[k], column[l], kind, c, x, y);
    }
  }

  lemma {:induction false} GroupSound(clock: Clock, group: seq<Policy>, m: Policy, kind: string, c: Carried)
    requires group != [] && SoundGroup(group, kind, c) && FoldSame(clock, group) == Ok(m)
    ensures Sound(m) && m.CrdID() == kind
  {
    FoldKeepsRegular(clock, group, kind, true);
  }

  lemma {:induction false} ColumnSound(clock: Clock, groups: seq<seq<Policy>>, levels: seq<Level>, kind: string, c: Carried, column: seq<Policy>)
    requires Grouped(clock, groups, levels, kind) && SoundGroups(groups, kind, c) && column == Column(levels, kind)
    ensures SoundChain(column, kind)
  {
    forall p | p in column ensures Sound(p) && p.CrdID() == kind {
      var k :| 0 <= k < |column| && column[k] == p;
      var i := ColumnMember(clock, groups, levels, kind, k);
      GroupSound(clock, groups[i], p, kind, c);
    }
  }

  // ----- Values by scanning the groups -----

  /** From the top down, the first level whose policies set an override. */
  function ScanDown(clock: Clock, groups: seq<seq<Policy>>, path: Path): Option<Json>
  {
    if groups == [] then None else Either(Scan(Bids(clock, groups[0], path), false), ScanDown(clock, groups[1..], path))
  }

  /** From the bottom up, the first level whose policies set a default. */
  function ScanUp(clock: Clock, groups: seq<seq<Policy>>, path: Path): Option<Json>
  {
    if groups == [] then None else Either(ScanUp(clock, groups[1..], path), Scan(Bids(clock, groups[0], path), true))
  }

  lemma GroupLeaf(clock: Clock, group: seq<Policy>, level: Level, kind: string, c: Carried, path: Path)
    requires GroupedAt(clock, group, level, kind) && Settled(true, path) && AgreeOn(group, group, path, path)
    requires SoundGroup(group, kind, c)
    ensures Scan(Bids(clock, group, path), HigherDecides(true, path)) == LevelLeaf(level, kind, path)
  {
    if kind in level {
      GroupCandidates(group, kind, c, path);
      FoldScans(clock, group, kind, true, c, path);
    } else {
      assert Bids(clock, group, path) == [];
    }
  }

  function LevelLeaf(level: Level, kind: string, path: Path): Option<Json>
  {
    if kind in level then LeafOf(level[kind], path) else None
  }

  lemma {:induction false} ColumnTop(levels: seq<Level>, kind: string, path: Path)
    requires levels != []
    ensures TopmostLeaf(Probes(Column(levels, kind), path), path) ==
            Either(LevelLeaf(levels[0], kind, path), TopmostLeaf(Probes(Column(levels[1..], kind), path), path))
  {
    if kind in levels[0] {
      ProbesTail(Column(levels, kind), path);
      assert Column(levels, kind)[1..] == Column(levels[1..], kind);
    } else {
      assert Column(levels, kind) == Column(levels[1..], kind);
    }
  }

  lemma {:induction false} TopmostScanned(clock: Clock, groups: seq<seq<Policy>>, levels: seq<Level>, kind: string, c: Carried, path: Path)
    requires Grouped(clock, groups, levels, kind) && SoundGroups(groups, kind, c) && InOverride(path) && GroupsAgree(groups, path, path)
    ensures TopmostLeaf(Probes(Column(levels, kind), path), path) == ScanDown(clock, groups, path)
    decreases |levels|
  {
    if levels != [] {
      FirstLeaf(clock, groups, levels, kind, c, path);
      TailAgrees(groups, kind, c, path);
      GroupedTail(clock, groups, levels, kind);
      TopmostScanned(clock, groups[1..], levels[1..], kind, c, path);
      ColumnTop(levels, kind, path);
    }
  }

  lemma {:induction false} FirstLeaf(clock: Clock, groups: seq<seq<Policy>>, levels: seq<Level>, kind: string, c: Carried, path: Path)
    requires Grouped(clock, groups, levels, kind) && SoundGroups(groups, kind, c) && levels != []
    requires Settled(true, path) && GroupsAgree(groups, path, path)
    ensures Scan(Bids(clock, groups[0], path), HigherDecides(true, path)) == LevelLeaf(levels[0], kind, path)
  {
    assert GroupedAt(clock, groups[0], levels[0], kind) && AgreeOn(groups[0], groups[0], path, path);
    GroupLeaf(clock, groups[0], levels[0], kind, c, path);
  }

  lemma TailAgrees(groups: seq<seq<Policy>>, kind: string, c: Carried, path: Path)
    requires groups != [] && SoundGroups(groups, kind, c) && GroupsAgree(groups, path, path)
    ensures SoundGroups(groups[1..], kind, c) && GroupsAgree(groups[1..], path, path)
  {
    var tail := groups[1..];
    assert forall i | 0 <= i < |tail| :: tail[i] == groups[i + 1];
  }

  lemma {:induction false} BottomCons(q: Probe, qs: seq<Probe>, path: Path)
    ensures BottommostLeaf([q] + qs, path) == Either(BottommostLeaf(qs, path), Leaf(q, path))
    decreases |qs|
  {
    var all := [q] + qs;
    if qs == [] {
      assert all[..0] == [];
      assert BottommostLeaf(all[..0], path) == None;
    } else {
      var n := |qs| - 1;
      assert all[|all| - 1] == qs[n] && all[..|all| - 1] == [q] + qs[..n];
      BottomCons(q, qs[..n], path);
    }
  }

  lemma {:induction false} ColumnBottom(levels: seq<Level>, kind: string, path: Path)
    requires levels != []
    ensures BottommostLeaf(Probes(Column(levels, kind), path), path) ==
            Either(BottommostLeaf(Probes(Column(levels[1..], kind), path), path), LevelLeaf(levels[0], kind, path))
  {
    if kind in levels[0] {
      var qs := Probes(Column(levels, kind), path);
      ProbesTail(Column(levels, kind), path);
      assert Column(levels, kind)[1..] == Column(levels[1..], kind);
      BottomCons(qs[0], qs[1..], path);
      assert qs == [qs[0]] + qs[1..];
    } else {
      assert Column(levels, kind) == Column(levels[1..], kind);
    }
  }

  lemma {:induction false} BottommostScanned(clock: Clock, groups: seq<seq<Policy>>, levels: seq<Level>, kind: string, c: Carried, path: Path)
    requires Grouped(clock, groups, levels, kind) && SoundGroups(groups, kind, c) && OutsideOverride(path) && GroupsAgree(groups, path, path)
    ensures BottommostLeaf(Probes(Column(levels, kind), path), path) == ScanUp(clock, groups, path)
    decreases |levels|
  {
    if levels != [] {
      FirstLeaf(clock, groups, levels, kind, c, path);
      TailAgrees(groups, kind, c, path);
      GroupedTail(clock, groups, levels, kind);
      BottommostScanned(clock, groups[1..], levels[1..], kind, c, path);
      ColumnBottom(levels, kind, path);
    }
  }

  // ----- The effective value -----

  /** At a path on which all policies of all levels agree, the effective value is the override of the
      topmost level that sets one, else the default of the bottommost that does; and within a level the
      scan of its policies says which of them has it. */
  lemma {:induction false} EffectiveOfGroups(clock: Clock, groups: seq<seq<Policy>>, levels: seq<Level>, kind: string, c: Carried, path: Path)
    requires |levels| >= 1 && Grouped(clock, groups, levels, kind) && SoundGroups(groups, kind, c)
    requires exists i | 0 <= i < |groups| :: groups[i] != []
    requires var o, d := SectionPath("override", path), SectionPath("default", path);
             GroupsAgree(groups, o, o) && GroupsAgree(groups, d, d) && GroupsAgree(groups, o, d)
    requires LevelsFrom(levels[0], levels[1..]).Some?
    ensures kind in LevelsFrom(levels[0], levels[1..]).value
    ensures var policy := LevelsFrom(levels[0], levels[1..]).value[kind];
            && policy.EffectiveSpec().Ok?
            && SpecLeaf(policy.EffectiveSpec().value, path) ==
               Either(ScanDown(clock, groups, SectionPath("override", path)), ScanUp(clock, groups, SectionPath("default", path)))
  {
    MergedColumn(levels, kind);
    SomeGroup(clock, groups, levels, kind);
    ValueOfColumn(clock, groups, levels, kind, c, path, Column(levels, kind));
  }

  lemma {:induction false} ValueOfColumn(clock: Clock, groups: seq<seq<Policy>>, levels: seq<Level>, kind: string, c: Carried, path: Path, column: seq<Policy>)
    requires Grouped(clock, groups, levels, kind) && SoundGroups(groups, kind, c) && column == Column(levels, kind) && column != []
    requires var o, d := SectionPath("override", path), SectionPath("default", path);
             GroupsAgree(groups, o, o) && GroupsAgree(groups, d, d) && GroupsAgree(groups, o, d)
    ensures ChainFrom(column[0], column[1..]).Ok? && ChainFrom(column[0], column[1..]).value.EffectiveSpec().Ok?
    ensures SpecLeaf(ChainFrom(column[0], column[1..]).value.EffectiveSpec().value, path) ==
            Either(ScanDown(clock, groups, SectionPath("override", path)), ScanUp(clock, groups, SectionPath("default", path)))
  {
    ColumnByGroups(clock, groups, levels, kind, c, path, column);
    EffectiveByPrecedence(column, kind, path);
    TopmostScanned(clock, groups, levels, kind, c, SectionPath("override", path));
    BottommostScanned(clock, groups, levels, kind, c, SectionPath("default", path));
  }

  lemma {:induction false} MergedColumn(levels: seq<Level>, kind: string)
    requires |levels| >= 1 && LevelsFrom(levels[0], levels[1..]).Some?
    ensures var m, column := LevelsFrom(levels[0], levels[1..]).value, Column(levels, kind);
            (kind in m <==> column != []) && (kind in m ==> ChainFrom(column[0], column[1..]) == Ok(m[kind]))
  {
    assert [levels[0]] + levels[1..] == levels;
    LevelsByColumn(levels[0], levels[1..], kind);
  }

  lemma SomeGroup(clock: Clock, groups: seq<seq<Policy>>, levels: seq<Level>, kind: string)
    requires Grouped(clock, groups, levels, kind) && exists i | 0 <= i < |groups| :: groups[i] != []
    ensures Column(levels, kind) != []
  {
    var i :| 0 <= i < |groups| && groups[i] != [];
    assert GroupedAt(clock, groups[i], levels[i], kind) && levels[i] in levels;
    ColumnNonEmpty(levels, kind);
  }

  lemma {:induction false} ColumnByGroups(clock: Clock, groups: seq<seq<Policy>>, levels: seq<Level>, kind: string, c: Carried, path: Path, column: seq<Policy>)
    requires Grouped(clock, groups, levels, kind) && SoundGroups(groups, kind, c) && column == Column(levels, kind)
    requires var o, d := SectionPath("override", path), SectionPath("default", path);
             GroupsAgree(groups, o, o) && GroupsAgree(groups, d, d) && GroupsAgree(groups, o, d)
    ensures SoundChain(column, kind)
    ensures var os, ds := Probes(column, SectionPath("override", path)), Probes(column, SectionPath("default", path));
            AllAgree(os, os) && AllAgree(ds, ds) && AllAgree(os, ds)
  {
    var o, d := SectionPath("override", path), SectionPath("default", path);
    ColumnSound(clock, groups, levels, kind, c, column);
    ColumnAgrees(clock, groups, levels, kind, c, o, o, column);
    ColumnAgrees(clock, groups, levels, kind, c, d, d, column);
    ColumnAgrees(clock, groups, levels, kind, c, o, d, column);
  }

  // ----- Attached policies -----

  function KindGroups(lists: seq<seq<Policy>>, kind: string): (groups: seq<seq<Policy>>)
    ensures |groups| == |lists|
  {
    seq(|lists|, i requires 0 <= i < |lists| => OfKind(lists[i], kind))
  }

  /** All attached policies are regular, and those of one inherited kind have the same rank fields. */
  ghost predicate AttachedRegular(lists: seq<seq<Policy>>, scheme: Scheme, kind: string, c: Carried)
  {
    && scheme(kind) && (forall i | 0 <= i < |lists| :: AllRegular(lists[i], scheme))
    && forall i, p | 0 <= i < |lists| && p in lists[i] && p.CrdID() == kind :: Carries(p, c)
  }

  lemma AttachedGroups(clock: Clock, lists: seq<seq<Policy>>, levels: seq<Level>, scheme: Scheme, kind: string, c: Carried)
    requires |lists| == |levels| && (forall i | 0 <= i < |lists| :: Reduced(clock, lists[i], levels[i])) && AttachedRegular(lists, scheme, kind, c)
    ensures Grouped(clock, KindGroups(lists, kind), levels, kind) && SoundGroups(KindGroups(lists, kind), kind, c)
  {
    var groups := KindGroups(lists, kind);
    forall i | 0 <= i < |lists| ensures GroupedAt(clock, groups[i], levels[i], kind) && SoundGroup(groups[i], kind, c) {
      OfKindMembers(lists[i], kind);
      assert AllRegular(lists[i], scheme) && Reduced(clock, lists[i], levels[i]);
    }
  }

  lemma AttachedLevelsMerge(clock: Clock, lists: seq<seq<Policy>>, levels: seq<Level>, scheme: Scheme)
    requires |lists| == |levels| >= 1 && forall i | 0 <= i < |lists| :: AllRegular(lists[i], scheme) && Reduced(clock, lists[i], levels[i])
    ensures LevelsFrom(levels[0], levels[1..]).Some?
  {
    forall level | level in levels ensures RegularLevel(level, scheme) {
      var i :| 0 <= i < |levels| && levels[i] == level;
      RegularReduces(clock, lists[i], scheme);
    }
    assert [levels[0]] + levels[1..] == levels;
    RegularLevelsMerge(levels[0], levels[1..], scheme);
  }

  /** The whole calculation, for any number of levels, from the lists of regular policies attached at
      each level. At every path on which the attached policies of a kind agree, the kind's effective value is
      that of the scan of the topmost list that finds an override, else that of the bottommost that finds
      a default. */
  lemma EffectiveFromLists(clock: Clock, lists: seq<seq<Policy>>, levels: seq<Level>, scheme: Scheme, kind: string, c: Carried, path: Path)
    requires |lists| == |levels| >= 1 && (forall i | 0 <= i < |lists| :: Reduced(clock, lists[i], levels[i])) && AttachedRegular(lists, scheme, kind, c)
    requires exists i | 0 <= i < |lists| :: KindGroups(lists, kind)[i] != []
    requires var groups, o, d := KindGroups(lists, kind), SectionPath("override", path), SectionPath("default", path);
             GroupsAgree(groups, o, o) && GroupsAgree(groups, d, d) && GroupsAgree(groups, o, d)
    ensures LevelsFrom(levels[0], levels[1..]).Some? && kind in LevelsFrom(levels[0], levels[1..]).value
    ensures var policy, groups := LevelsFrom(levels[0], levels[1..]).value[kind], KindGroups(lists, kind);
            && policy.EffectiveSpec().Ok?
            && SpecLeaf(policy.EffectiveSpec().value, path) ==
               Either(ScanDown(clock, groups, SectionPath("override", path)), ScanUp(clock, groups, SectionPath("default", path)))
  {
    AttachedGroups(clock, lists, levels, scheme, kind, c);
    AttachedLevelsMerge(clock, lists, levels, scheme);
    EffectiveOfGroups(clock, KindGroups(lists, kind), levels, kind, c, path);
  }

  // ----- Backends -----

  /** What a backend has of one kind: the effective policies of its routes in the order in which they
      are taken, those of its Namespace and its own. */
  ghost function BackendGroups(routes: Routes, order: seq<string>, ofNamespace: seq<Policy>, ofBackend: seq<Policy>, gateway: string, kind: string): seq<seq<Policy>>
    requires forall id | id in order :: id in routes
  {
    [Column(LevelsAt(routes, order, gateway), kind), OfKind(ofNamespace, kind), OfKind(ofBackend, kind)]
  }

  /** The effective value of a backend for a Gateway. The routes form one level, whose policies are
      scanned in the order in which Go's iteration took the routes. */
  lemma EffectiveOfBackend(clock: Clock, routes: Routes, order: seq<string>, ofNamespace: seq<Policy>, ofBackend: seq<Policy>,
                           gateway: string, level: Level, kind: string, c: Carried, path: Path)
    requires (forall id | id in order :: id in routes) && BackendLevel(clock, routes, order, ofNamespace, ofBackend, gateway, level)
    requires var groups := BackendGroups(routes, order, ofNamespace, ofBackend, gateway, kind);
             var o, d := SectionPath("override", path), SectionPath("default", path);
             && SoundGroups(groups, kind, c) && (exists i | 0 <= i < |groups| :: groups[i] != [])
             && GroupsAgree(groups, o, o) && GroupsAgree(groups, d, d) && GroupsAgree(groups, o, d)
    ensures kind in level && level[kind].EffectiveSpec().Ok?
    ensures var groups := BackendGroups(routes, order, ofNamespace, ofBackend, gateway, kind);
            SpecLeaf(level[kind].EffectiveSpec().value, path) ==
            Either(ScanDown(clock, groups, SectionPath("override", path)), ScanUp(clock, groups, SectionPath("default", path)))
  {
    var routeLevels := LevelsAt(routes, order, gateway);
    var a, b, own :| FoldLevels(clock, routeLevels) == Some(a) && Reduced(clock, ofNamespace, b) && Reduced(clock, ofBackend, own) &&
                     LevelsFrom(a, [b, own]) == Some(level);
    FoldLevelsByColumn(clock, routeLevels, kind);
    BackendGrouped(clock, [a, b, own], BackendGroups(routes, order, ofNamespace, ofBackend, gateway, kind), kind);
    assert [a, b, own][1..] == [b, own];
    EffectiveOfGroups(clock, BackendGroups(routes, order, ofNamespace, ofBackend, gateway, kind), [a, b, own], kind, c, path);
  }

  lemma BackendGrouped(clock: Clock, levels: seq<Level>, groups: seq<seq<Policy>>, kind: string)
    requires |levels| == |groups| == 3 && GroupedAt(clock, groups[0], levels[0], kind)
    requires GroupedAt(clock, groups[1], levels[1], kind) && GroupedAt(clock, groups[2], levels[2], kind)
    ensures Grouped(clock, groups, levels, kind)
  {
  }
}
