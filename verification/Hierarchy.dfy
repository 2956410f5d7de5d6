/** Inherited policies down a hierarchy (GatewayClass, Namespace, Gateway, ...): what folding
    `MergePolicy` from the top and then taking the effective specification yields. */
module Hierarchy {
  import opened Wrappers
  import opened JsonMerge
  import opened Policies

  /** The path of a field inside the default or the override section. */
  function SectionPath(section: string, path: Path): Path
  {
    ["spec", section] + path
  }

  /** An inherited policy of known kind without nulls whose default and override sections, where
      present, are objects. */
  predicate Sound(p: Policy)
  {
    && p.inherited && Typed(p) && NullFree(p.Doc())
    && !ProbeAt(p.Doc(), SectionPath("default", [])).Stop?
    && !ProbeAt(p.Doc(), SectionPath("override", [])).Stop?
  }

  lemma SoundStopsDeep(p: Policy, section: string, path: Path)
    requires Sound(p) && section in {"default", "override"}
    ensures var q := ProbeAt(p.Doc(), SectionPath(section, path)); q.Stop? ==> q.depth > 2 && !q.value.Null?
  {
    assert SectionPath(section, path)[..2] == SectionPath(section, []);
    ProbeOfPrefix(p.Doc(), SectionPath(section, path), 2);
    NullFreeProbe(p.Doc(), SectionPath(section, path));
  }

  lemma NullFreeOverridePatch(p: Policy)
    requires NullFree(p.Doc())
    ensures NullFree(Obj(OverridePatch(p)))
  {
  }

  lemma SpecStopsDeep(p: Policy, path: Path)
    requires Sound(p) && path != [] && path[0] == "spec"
    ensures var q := ProbeAt(p.Doc(), path); q.Stop? ==> q.depth > 1
  {
  }

  /** Outside the override section the child is laid over the parent. */
  lemma PlainOfMerge(parent: Policy, child: Policy, path: Path)
    requires Sound(parent) && Sound(child) && MergePolicy(parent, child).Ok? && !InOverride(path)
    ensures ProbeAt(MergePolicy(parent, child).value.Doc(), path) == Over(ProbeAt(parent.Doc(), path), ProbeAt(child.Doc(), path))
  {
    var p, c, q := ProbeAt(parent.Doc(), path), ProbeAt(child.Doc(), path), ProbeAt(Obj(OverridePatch(parent)), path);
    MergedProbe(parent, child, path);
    PatchProbe(parent, path);
    if path != [] && path[0] == "spec" {
      SpecStopsDeep(parent, path);
      SpecStopsDeep(child, path);
    }
    NullFreeProbe(child.Doc(), path);
    SilentPatch(p, c, q);
  }

  lemma SilentPatch(p: Probe, c: Probe, q: Probe)
    requires NoNull(c)
    requires q.Missing? ==> (p.Missing? ==> q.depth <= p.depth) && (p.Stop? ==> q.depth < p.depth) && (c.Stop? ==> q.depth < c.depth)
    requires q.Missing? || (q.Inner? && p.Inner? && !c.Stop?)
    ensures Over(Over(p, c), q) == Over(p, c)
  {
  }

  /** In the override section the parent is laid over the child. */
  lemma OverrideOfMerge(parent: Policy, child: Policy, path: Path)
    requires Sound(parent) && Sound(child) && MergePolicy(parent, child).Ok?
    ensures var o, r := SectionPath("override", path), MergePolicy(parent, child).value.Doc();
            ProbeAt(r, o) == ParentOver(ProbeAt(parent.Doc(), o), ProbeAt(child.Doc(), o))
  {
    var o := SectionPath("override", path);
    SoundStopsDeep(child, "override", path);
    PatchProbe(parent, o);
    if OverridePatch(parent) == map[] {
      NoOverridePatch(parent, o);
      NullFreeProbe(parent.Doc(), o);
    }
    MergedProbe(parent, child, o);
  }

  function ParentOver(parent: Probe, child: Probe): Probe
  {
    Over(Over(parent, child), parent)
  }

  /** Two sound policies of one kind always merge, and the result is sound and of that kind. */
  lemma MergeSound(parent: Policy, child: Policy)
    requires Sound(parent) && Sound(child) && parent.CrdID() == child.CrdID()
    ensures MergePolicy(parent, child).Ok?
    ensures var r := MergePolicy(parent, child).value; Sound(r) && r.CrdID() == child.CrdID()
  {
    assert SectionPath("override", []) == ["spec", "override"];
    NestedFieldByProbe(parent.Doc(), SectionPath("override", []));
    MergeKeepsKind(parent, child);
    MergedNullFree(parent, child);
    PlainOfMerge(parent, child, SectionPath("default", []));
    OverrideOfMerge(parent, child, []);
  }

  lemma MergedNullFree(parent: Policy, child: Policy)
    requires MergePolicy(parent, child).Ok? && NullFree(parent.Doc()) && NullFree(child.Doc())
    ensures NullFree(MergePolicy(parent, child).value.Doc())
  {
    var merged := MergePatch(parent.Doc(), child.Doc());
    MergeKeepsNullFree(parent.Doc(), child.Doc());
    NullFreeOverridePatch(parent);
    MergeKeepsNullFree(merged, Obj(OverridePatch(parent)));
    EmptyPatch(merged);
  }

  // ----- Direct policies -----

  /** A direct policy of known kind without nulls. */
  predicate Direct(p: Policy)
  {
    !p.inherited && Typed(p) && NullFree(p.Doc())
  }

  /** Policies of one kind are all inherited or all direct, as their CRD says. */
  predicate Regular(p: Policy, kind: string, inherited: bool)
  {
    p.CrdID() == kind && if inherited then Sound(p) else Direct(p)
  }

  lemma DirectMerge(lower: Policy, higher: Policy, path: Path)
    requires Direct(lower) && Direct(higher) && lower.CrdID() == higher.CrdID()
    ensures MergePolicy(lower, higher).Ok?
    ensures var r := MergePolicy(lower, higher).value;
            && Direct(r) && r.CrdID() == higher.CrdID()
            && ProbeAt(r.Doc(), path) == Over(ProbeAt(lower.Doc(), path), ProbeAt(higher.Doc(), path))
  {
    MergeKeepsKind(lower, higher);
    MergedNullFree(lower, higher);
    MergedProbe(lower, higher, path);
    PatchProbe(lower, path);
    NullFreeProbe(higher.Doc(), path);
  }

  /** Two regular policies of one kind always merge into a regular one of that kind. */
  lemma RegularMerges(parent: Policy, child: Policy, kind: string, inherited: bool)
    requires Regular(parent, kind, inherited) && Regular(child, kind, inherited)
    ensures MergePolicy(parent, child).Ok? && Regular(MergePolicy(parent, child).value, kind, inherited)
  {
    if inherited {
      MergeSound(parent, child);
    } else {
      DirectMerge(parent, child, []);
    }
  }

  // ----- Folding down a chain -----

  /** The topmost policy first. */
  function ChainFrom(top: Policy, rest: seq<Policy>): Result<Policy, MergeError>
    decreases |rest|
  {
    if rest == [] then Ok(top)
    else
      match MergePolicy(top, rest[0])
      case Err(e) => Err(e)
      case Ok(merged) => ChainFrom(merged, rest[1..])
  }

  predicate SoundChain(ps: seq<Policy>, kind: string)
  {
    forall p | p in ps :: Sound(p) && p.CrdID() == kind
  }

  /** Merging the two policies at the top of a sound chain leaves a sound chain. */
  lemma ShortenChain(top: Policy, rest: seq<Policy>, kind: string)
    requires rest != [] && SoundChain([top] + rest, kind)
    ensures Sound(top) && Sound(rest[0])
    ensures MergePolicy(top, rest[0]).Ok?
    ensures SoundChain([MergePolicy(top, rest[0]).value] + rest[1..], kind)
  {
    assert top in [top] + rest && rest[0] in [top] + rest;
    MergeSound(top, rest[0]);
    forall p | p in rest[1..] ensures p in [top] + rest {
    }
  }

  lemma {:induction false} ChainSound(top: Policy, rest: seq<Policy>, kind: string)
    requires SoundChain([top] + rest, kind)
    ensures ChainFrom(top, rest).Ok?
    ensures var m := ChainFrom(top, rest).value; Sound(m) && m.CrdID() == kind
    decreases |rest|
  {
    assert top in [top] + rest;
    if rest != [] {
      ShortenChain(top, rest, kind);
      ChainSound(MergePolicy(top, rest[0]).value, rest[1..], kind);
    }
  }

  function Probes(ps: seq<Policy>, path: Path): (qs: seq<Probe>)
    ensures |qs| == |ps|
  {
    seq(|ps|, i requires 0 <= i < |ps| => ProbeAt(ps[i].Doc(), path))
  }

  lemma ProbesTail(ps: seq<Policy>, path: Path)
    requires ps != []
    ensures Probes(ps, path)[0] == ProbeAt(ps[0].Doc(), path)
    ensures Probes(ps, path)[1..] == Probes(ps[1..], path)
  {
  }

  lemma {:induction false} ChainOverrides(top: Policy, rest: seq<Policy>, kind: string, path: Path)
    requires SoundChain([top] + rest, kind)
    ensures ChainFrom(top, rest).Ok?
    ensures var o := SectionPath("override", path);
            ProbeAt(ChainFrom(top, rest).value.Doc(), o) == FoldOverrides(ProbeAt(top.Doc(), o), Probes(rest, o))
    decreases |rest|
  {
    if rest != [] {
      ShortenChain(top, rest, kind);
      OverrideOfMerge(top, rest[0], path);
      ChainOverrides(MergePolicy(top, rest[0]).value, rest[1..], kind, path);
      ProbesTail(rest, SectionPath("override", path));
    }
  }

  lemma {:induction false} ChainDefaults(top: Policy, rest: seq<Policy>, kind: string, path: Path)
    requires SoundChain([top] + rest, kind)
    ensures ChainFrom(top, rest).Ok?
    ensures var d := SectionPath("default", path);
            ProbeAt(ChainFrom(top, rest).value.Doc(), d) == FoldDefaults(ProbeAt(top.Doc(), d), Probes(rest, d))
    decreases |rest|
  {
    if rest != [] {
      ShortenChain(top, rest, kind);
      PlainOfMerge(top, rest[0], SectionPath("default", path));
      ChainDefaults(MergePolicy(top, rest[0]).value, rest[1..], kind, path);
      ProbesTail(rest, SectionPath("default", path));
    }
  }

  // ----- Who settles a path -----

  function FoldOverrides(acc: Probe, qs: seq<Probe>): Probe
    decreases |qs|
  {
    if qs == [] then acc else FoldOverrides(ParentOver(acc, qs[0]), qs[1..])
  }

  function FoldDefaults(acc: Probe, qs: seq<Probe>): Probe
    decreases |qs|
  {
    if qs == [] then acc else FoldDefaults(Over(acc, qs[0]), qs[1..])
  }

  /** What there is at a path: nothing, an object, or a value. */
  datatype Reach = Nothing | Object | Value(json: Json)

  function Met(q: Probe, path: Path): Reach
  {
    match q
    case Stop(d, v) => if d == |path| then Value(v) else Nothing
    case Inner => Object
    case Missing(_) => Nothing
  }

  /** Whether the walks so far settle what there is at a path. */
  datatype Verdict = Open | Decided(met: Reach)

  /** From the top down: the first policy that reaches the path settles it, unless what it has there
      lies where an earlier policy already has an object. `claimed` is how deep such objects go. */
  function OverridesDown(qs: seq<Probe>, path: Path, claimed: nat): Verdict
    decreases |qs|
  {
    if qs == [] then Open
    else
      match qs[0]
      case Missing(d) => OverridesDown(qs[1..], path, if claimed < d then d else claimed)
      case Stop(d, _) => if d <= claimed then OverridesDown(qs[1..], path, claimed) else Decided(Met(qs[0], path))
      case Inner => Decided(Object)
  }

  /** From the bottom up: the last policy that reaches the path settles it. */
  function DefaultsUp(qs: seq<Probe>, path: Path): Reach
    decreases |qs|
  {
    if qs == [] then Nothing
    else
      var q := qs[|qs| - 1];
      if q.Missing? then DefaultsUp(qs[..|qs| - 1], path) else Met(q, path)
  }

  predicate NoNull(q: Probe)
  {
    q.Stop? ==> !q.value.Null?
  }

  lemma {:induction false} FoldOverridesScans(acc: Probe, qs: seq<Probe>, path: Path)
    requires NoNull(acc) && forall i | 0 <= i < |qs| :: NoNull(qs[i])
    ensures var r := FoldOverrides(acc, qs);
            if acc.Missing?
            then (if r.Missing? then Open else Decided(Met(r, path))) == OverridesDown(qs, path, acc.depth)
            else r == acc
    decreases |qs|
  {
    if qs != [] {
      FoldOverridesScans(ParentOver(acc, qs[0]), qs[1..], path);
    }
  }

  lemma {:induction false} FoldDefaultsScans(acc: Probe, qs: seq<Probe>, path: Path)
    requires forall i | 0 <= i < |qs| :: NoNull(qs[i])
    requires forall i | 0 <= i < |qs| :: qs[i].Missing? ==> qs[i].depth < |path|
    ensures Met(FoldDefaults(acc, qs), path) == DefaultsUp([acc] + qs, path)
    decreases |qs|
  {
    if qs == [] {
      assert ([acc] + qs)[..0] == [];
    } else {
      FoldDefaultsScans(Over(acc, qs[0]), qs[1..], path);
      assert [acc, qs[0]] + qs[1..] == [acc] + qs;
      MergedUp(acc, qs[0], qs[1..], path);
    }
  }

  lemma {:induction false} MergedUp(p: Probe, c: Probe, rest: seq<Probe>, path: Path)
    requires NoNull(c) && (c.Missing? ==> c.depth < |path|)
    ensures DefaultsUp([Over(p, c)] + rest, path) == DefaultsUp([p, c] + rest, path)
    decreases |rest|
  {
    var fewer, all := [Over(p, c)] + rest, [p, c] + rest;
    if rest == [] {
      assert all[..1] == [p] && [p][..0] == [] && fewer[..0] == [];
    } else {
      var init := rest[..|rest| - 1];
      assert fewer[..|fewer| - 1] == [Over(p, c)] + init && all[..|all| - 1] == [p, c] + init;
      MergedUp(p, c, init, path);
    }
  }

  // ----- The effective specification -----

  /** What a Go caller finds in an effective specification; a nil map is empty. */
  function SpecProbe(spec: Option<map<string, Json>>, path: Path): Probe
  {
    ProbeAt(Obj(if spec.None? then map[] else spec.value), path)
  }

  function SpecAt(spec: Option<map<string, Json>>, path: Path): Reach
  {
    Met(SpecProbe(spec, path), path)
  }

  function SpecLeaf(spec: Option<map<string, Json>>, path: Path): Option<Json>
  {
    if spec.None? then None else LeafAt(Obj(spec.value), path)
  }

  function ValueOf(met: Reach): Option<Json>
  {
    if met.Value? then Some(met.json) else None
  }

  lemma LeafIsValue(spec: Option<map<string, Json>>, path: Path)
    ensures SpecLeaf(spec, path) == ValueOf(SpecAt(spec, path))
  {
  }

  /** A walk inside a section, from the walk to it; an absent section is empty. */
  function Inside(q: Probe, path: Path): Probe
  {
    match q
    case Stop(d, v) => Stop(if d < 2 then 0 else d - 2, v)
    case Inner => Inner
    case Missing(d) => if d >= 2 then Missing(d - 2) else if path == [] then Inner else Missing(0)
  }

  /** The effective specification of a sound policy at every path: its override laid over its default.
      It is nil exactly if there is no spec. */
  lemma EffectiveProbe(p: Policy, path: Path)
    requires Sound(p)
    ensures p.EffectiveSpec().Ok? && (p.EffectiveSpec().value.Some? <==> ProbeAt(p.Doc(), ["spec"]) == Inner)
    ensures var o, d := SectionPath("override", path), SectionPath("default", path);
            SpecProbe(p.EffectiveSpec().value, path) == Over(Inside(ProbeAt(p.Doc(), d), path), Inside(ProbeAt(p.Doc(), o), path))
  {
    SpecIsObject(p);
    SectionInside(p, "default", path);
    SectionInside(p, "override", path);
    MergedSections(p, path);
  }

  lemma SectionInside(p: Policy, section: string, path: Path)
    requires Sound(p) && section in {"default", "override"}
    ensures Section(p, section).Obj? && Inside(ProbeAt(p.Doc(), SectionPath(section, path)), path) == ProbeAt(Section(p, section), path)
  {
    SectionProbe(p, section, path);
    SoundStopsDeep(p, section, path);
  }

  lemma MergedSections(p: Policy, path: Path)
    requires Section(p, "default").Obj? && Section(p, "override").Obj? && p.inherited && p.EffectiveSpec().Ok?
    ensures SpecProbe(p.EffectiveSpec().value, path) == Over(ProbeAt(Section(p, "default"), path), ProbeAt(Section(p, "override"), path))
  {
    if p.Spec().Some? {
      ProbeOfMerge(Section(p, "default"), Section(p, "override"), path);
    }
  }

  lemma SpecIsObject(p: Policy)
    requires Sound(p)
    ensures p.EffectiveSpec().Ok? && (p.EffectiveSpec().value.Some? <==> ProbeAt(p.Doc(), ["spec"]) == Inner)
    ensures p.Spec().Some? <==> ProbeAt(p.Doc(), ["spec"]) == Inner
  {
    assert ["spec"][1..] == [];
    SectionProbe(p, "default", []);
    SectionProbe(p, "override", []);
  }

  /** In terms of leaves: the override's where the override reaches, and the default's elsewhere. */
  lemma EffectiveLeaf(p: Policy, path: Path)
    requires Sound(p)
    ensures p.EffectiveSpec().Ok?
    ensures var o, d := SectionPath("override", path), SectionPath("default", path);
            SpecLeaf(p.EffectiveSpec().value, path) ==
            if ProbeAt(p.Doc(), o).Missing? then LeafAt(p.Doc(), d) else LeafAt(p.Doc(), o)
  {
    EffectiveProbe(p, path);
    SoundStopsDeep(p, "default", path);
    SoundStopsDeep(p, "override", path);
    NullFreeProbe(p.Doc(), SectionPath("override", path));
  }

  function Section(p: Policy, section: string): Json
  {
    if p.Spec().Some? && section in p.Spec().value then p.Spec().value[section] else Obj(map[])
  }

  lemma SectionProbe(p: Policy, section: string, path: Path)
    requires Sound(p) && section in {"default", "override"}
    ensures Section(p, section).Obj?
    ensures var full := SectionPath(section, path);
            if p.Spec().Some? && section in p.Spec().value
            then ProbeAt(p.Doc(), full) == Deeper(Deeper(ProbeAt(Section(p, section), path)))
            else ProbeAt(p.Doc(), full).Missing? && ProbeAt(p.Doc(), full).depth < 2 && ProbeAt(Section(p, section), path) == (if path == [] then Inner else Missing(0))
  {
  }

  /** The effective specification of every sound chain, at every path: the overrides settle from the top
      down whether there is a value, an object or nothing; where they leave it open the defaults settle it
      from the bottom up. */
  lemma EffectiveOfChain(ps: seq<Policy>, kind: string, path: Path)
    requires |ps| >= 1 && SoundChain(ps, kind)
    ensures ChainFrom(ps[0], ps[1..]).Ok? && ChainFrom(ps[0], ps[1..]).value.EffectiveSpec().Ok?
    ensures var o, d := SectionPath("override", path), SectionPath("default", path);
            SpecAt(ChainFrom(ps[0], ps[1..]).value.EffectiveSpec().value, path) ==
            if path == [] then Object
            else
              match OverridesDown(Probes(ps, o), o, 0)
              case Decided(met) => met
              case Open => DefaultsUp(Probes(ps, d), d)
  {
    var top, rest := ps[0], ps[1..];
    assert ps == [top] + rest;
    ChainSound(top, rest, kind);
    ChainOverrides(top, rest, kind, path);
    ChainDefaults(top, rest, kind, path);
    EffectiveMet(ChainFrom(top, rest).value, path);
    OverridesScan(ps, kind, path);
    DefaultsScan(ps, kind, path);
  }

  lemma EffectiveMet(p: Policy, path: Path)
    requires Sound(p)
    ensures p.EffectiveSpec().Ok?
    ensures var o, d := SectionPath("override", path), SectionPath("default", path);
            SpecAt(p.EffectiveSpec().value, path) ==
            if path == [] then Object
            else if ProbeAt(p.Doc(), o).Missing? then Met(ProbeAt(p.Doc(), d), d) else Met(ProbeAt(p.Doc(), o), o)
  {
    EffectiveProbe(p, path);
    SoundStopsDeep(p, "default", path);
    SoundStopsDeep(p, "override", path);
    NullFreeProbe(p.Doc(), SectionPath("override", path));
  }

  lemma OverridesScan(ps: seq<Policy>, kind: string, path: Path)
    requires |ps| >= 1 && SoundChain(ps, kind)
    ensures var o := SectionPath("override", path);
            var r := FoldOverrides(ProbeAt(ps[0].Doc(), o), Probes(ps[1..], o));
            OverridesDown(Probes(ps, o), o, 0) == if r.Missing? then Open else Decided(Met(r, o))
  {
    var o := SectionPath("override", path);
    ScanSplit(ps, kind, o);
    var qs := Probes(ps, o);
    assert qs[0] == ProbeAt(ps[0].Doc(), o);
    assert qs[0].Stop? ==> qs[0].depth > 0;
    FoldOverridesScans(qs[0], qs[1..], o);
  }

  lemma DefaultsScan(ps: seq<Policy>, kind: string, path: Path)
    requires |ps| >= 1 && SoundChain(ps, kind)
    ensures var d := SectionPath("default", path);
            DefaultsUp(Probes(ps, d), d) == Met(FoldDefaults(ProbeAt(ps[0].Doc(), d), Probes(ps[1..], d)), d)
  {
    var d := SectionPath("default", path);
    ScanSplit(ps, kind, d);
    var qs := Probes(ps, d);
    FoldDefaultsScans(qs[0], qs[1..], d);
  }

  lemma ScanSplit(ps: seq<Policy>, kind: string, path: Path)
    requires |ps| >= 1 && SoundChain(ps, kind)
    ensures Probes(ps, path) == [ProbeAt(ps[0].Doc(), path)] + Probes(ps[1..], path)
    ensures Probes(ps, path)[1..] == Probes(ps[1..], path)
    ensures forall i | 0 <= i < |ps| :: NoNull(Probes(ps, path)[i])
  {
    forall i | 0 <= i < |ps| ensures NoNull(Probes(ps, path)[i]) {
      assert ps[i] in ps;
      NullFreeProbe(ps[i].Doc(), path);
    }
  }

  // ----- Direct policies down a hierarchy -----

  predicate DirectChain(ps: seq<Policy>, kind: string)
  {
    forall p | p in ps :: Direct(p) && p.CrdID() == kind
  }

  lemma {:induction false} ChainDirect(top: Policy, rest: seq<Policy>, kind: string, path: Path)
    requires DirectChain([top] + rest, kind)
    ensures ChainFrom(top, rest).Ok? && Direct(ChainFrom(top, rest).value)
    ensures ProbeAt(ChainFrom(top, rest).value.Doc(), path) == FoldDefaults(ProbeAt(top.Doc(), path), Probes(rest, path))
    decreases |rest|
  {
    assert top in [top] + rest;
    if rest != [] {
      assert rest[0] in [top] + rest;
      DirectMerge(top, rest[0], path);
      var merged := MergePolicy(top, rest[0]).value;
      forall p | p in [merged] + rest[1..] ensures Direct(p) && p.CrdID() == kind {
        assert p != merged ==> p in [top] + rest;
      }
      ChainDirect(merged, rest[1..], kind, path);
      ProbesTail(rest, path);
    }
  }

  /** The effective specification of every chain of direct policies, at every path: the bottommost spec
      that reaches it settles it. The targetRef is not part of it. */
  lemma EffectiveOfDirectChain(ps: seq<Policy>, kind: string, path: Path)
    requires |ps| >= 1 && DirectChain(ps, kind) && path != []
    ensures ChainFrom(ps[0], ps[1..]).Ok? && ChainFrom(ps[0], ps[1..]).value.EffectiveSpec().Ok?
    ensures SpecAt(ChainFrom(ps[0], ps[1..]).value.EffectiveSpec().value, path) ==
            if path[0] == "targetRef" then Nothing else DefaultsUp(Probes(ps, ["spec"] + path), ["spec"] + path)
  {
    var full := ["spec"] + path;
    assert ps == [ps[0]] + ps[1..];
    ChainDirect(ps[0], ps[1..], kind, full);
    DirectScan(ps, kind, full);
    DirectMet(ChainFrom(ps[0], ps[1..]).value, path);
  }

  lemma DirectScan(ps: seq<Policy>, kind: string, path: Path)
    requires |ps| >= 1 && DirectChain(ps, kind)
    ensures DefaultsUp(Probes(ps, path), path) == Met(FoldDefaults(ProbeAt(ps[0].Doc(), path), Probes(ps[1..], path)), path)
  {
    var qs := Probes(ps, path);
    ProbesTail(ps, path);
    assert qs == [qs[0]] + qs[1..];
    forall i | 0 <= i < |qs| ensures NoNull(qs[i]) {
      assert ps[i] in ps;
      NullFreeProbe(ps[i].Doc(), path);
    }
    FoldDefaultsScans(qs[0], qs[1..], path);
  }

  lemma DirectMet(p: Policy, path: Path)
    requires Direct(p) && path != []
    ensures p.EffectiveSpec().Ok?
    ensures SpecAt(p.EffectiveSpec().value, path) == if path[0] == "targetRef" then Nothing else Met(ProbeAt(p.Doc(), ["spec"] + path), ["spec"] + path)
  {
    EffectiveOfDirect(p, path);
    assert (["spec"] + path)[..1] == ["spec"];
    ProbeOfPrefix(p.Doc(), ["spec"] + path, 1);
  }

  // ----- Documents that agree on which paths are objects -----

  /** Nowhere along the path does one document have an object and the other something else. */
  predicate Agree(x: Probe, y: Probe)
  {
    match (x, y)
    case (Stop(d, _), Stop(e, _)) => d == e
    case (Stop(d, _), Missing(e)) => e < d
    case (Missing(d), Stop(e, _)) => d < e
    case (Stop(_, _), Inner) => false
    case (Inner, Stop(_, _)) => false
    case _ => true
  }

  predicate AllAgree(xs: seq<Probe>, ys: seq<Probe>)
  {
    forall i, j | 0 <= i < |xs| && 0 <= j < |ys| :: Agree(xs[i], ys[j])
  }

  function TopmostLeaf(qs: seq<Probe>, path: Path): Option<Json>
    decreases |qs|
  {
    if qs == [] then None
    else if Leaf(qs[0], path).Some? then Leaf(qs[0], path)
    else TopmostLeaf(qs[1..], path)
  }

  function BottommostLeaf(qs: seq<Probe>, path: Path): Option<Json>
    decreases |qs|
  {
    if qs == [] then None
    else if Leaf(qs[|qs| - 1], path).Some? then Leaf(qs[|qs| - 1], path)
    else BottommostLeaf(qs[..|qs| - 1], path)
  }

  lemma {:induction false} NoLeafAnywhere(qs: seq<Probe>, path: Path)
    requires forall i | 0 <= i < |qs| :: Leaf(qs[i], path).None?
    ensures TopmostLeaf(qs, path).None? && BottommostLeaf(qs, path).None?
    decreases |qs|
  {
    if qs != [] {
      NoLeafAnywhere(qs[1..], path);
      NoLeafAnywhere(qs[..|qs| - 1], path);
    }
  }

  /** Among agreeing documents an undecided scan, or one decided without a leaf, met no leaf. */
  lemma {:induction false} AgreedDown(qs: seq<Probe>, path: Path, claimed: nat)
    requires AllAgree(qs, qs)
    requires forall i | 0 <= i < |qs| && qs[i].Stop? :: claimed < qs[i].depth
    ensures var verdict := OverridesDown(qs, path, claimed);
            && TopmostLeaf(qs, path) == (if verdict.Open? then None else ValueOf(verdict.met))
            && (verdict.Decided? && !verdict.met.Value? ==> exists i | 0 <= i < |qs| :: !qs[i].Missing? && Leaf(qs[i], path).None?)
    decreases |qs|
  {
    if qs != [] {
      match qs[0]
      case Missing(d) =>
        var deeper := if claimed < d then d else claimed;
        forall i | 0 <= i < |qs[1..]| && qs[1..][i].Stop? ensures deeper < qs[1..][i].depth {
          assert Agree(qs[0], qs[i + 1]);
        }
        AgreedDown(qs[1..], path, deeper);
        var verdict := OverridesDown(qs, path, claimed);
        if verdict.Decided? && !verdict.met.Value? {
          var i :| 0 <= i < |qs[1..]| && !qs[1..][i].Missing? && Leaf(qs[1..][i], path).None?;
          assert qs[i + 1] == qs[1..][i];
        }
      case _ =>
        if Leaf(qs[0], path).None? {
          SettledWithoutLeaf(qs[0], qs, path);
        }
    }
  }

  lemma SettledWithoutLeaf(q: Probe, qs: seq<Probe>, path: Path)
    requires !q.Missing? && Leaf(q, path).None? && AllAgree([q], qs)
    ensures TopmostLeaf(qs, path).None? && BottommostLeaf(qs, path).None?
  {
    forall i | 0 <= i < |qs| ensures Leaf(qs[i], path).None? {
      assert Agree([q][0], qs[i]);
    }
    NoLeafAnywhere(qs, path);
  }

  lemma {:induction false} AgreedUp(qs: seq<Probe>, path: Path)
    requires AllAgree(qs, qs)
    ensures ValueOf(DefaultsUp(qs, path)) == BottommostLeaf(qs, path)
    decreases |qs|
  {
    if qs != [] {
      var last := qs[|qs| - 1];
      if last.Missing? {
        AgreedUp(qs[..|qs| - 1], path);
      } else if Leaf(last, path).None? {
        SettledWithoutLeaf(last, qs, path);
      }
    }
  }

  /** Where the sections of a sound chain agree on which prefixes of a path are objects, the effective
      value there is the override of the topmost policy that sets one, else the default of the
      bottommost policy that sets one, else nothing. */
  lemma EffectiveByPrecedence(ps: seq<Policy>, kind: string, path: Path)
    requires |ps| >= 1 && SoundChain(ps, kind)
    requires var os, ds := Probes(ps, SectionPath("override", path)), Probes(ps, SectionPath("default", path));
             AllAgree(os, os) && AllAgree(ds, ds) && AllAgree(os, ds)
    ensures ChainFrom(ps[0], ps[1..]).Ok? && ChainFrom(ps[0], ps[1..]).value.EffectiveSpec().Ok?
    ensures var o, d := SectionPath("override", path), SectionPath("default", path);
            var top, bottom := TopmostLeaf(Probes(ps, o), o), BottommostLeaf(Probes(ps, d), d);
            SpecLeaf(ChainFrom(ps[0], ps[1..]).value.EffectiveSpec().value, path) == if top.Some? then top else bottom
  {
    EffectiveOfChain(ps, kind, path);
    var o, d := SectionPath("override", path), SectionPath("default", path);
    ScanByPrecedence(Probes(ps, o), Probes(ps, d), o, d);
    LeafIsValue(ChainFrom(ps[0], ps[1..]).value.EffectiveSpec().value, path);
    if path == [] {
      NoLeafAtSections(ps, kind);
    }
  }

  /** The sections themselves are objects or absent. */
  lemma NoLeafAtSections(ps: seq<Policy>, kind: string)
    requires SoundChain(ps, kind)
    ensures var o, d := SectionPath("override", []), SectionPath("default", []);
            TopmostLeaf(Probes(ps, o), o).None? && BottommostLeaf(Probes(ps, d), d).None?
  {
    var o, d := SectionPath("override", []), SectionPath("default", []);
    forall i | 0 <= i < |ps| ensures Leaf(Probes(ps, o)[i], o).None? && Leaf(Probes(ps, d)[i], d).None? {
      assert ps[i] in ps;
    }
    NoLeafAnywhere(Probes(ps, o), o);
    NoLeafAnywhere(Probes(ps, d), d);
  }

  lemma ScanByPrecedence(os: seq<Probe>, ds: seq<Probe>, o: Path, d: Path)
    requires AllAgree(os, os) && AllAgree(ds, ds) && AllAgree(os, ds) && |o| == |d|
    requires forall i | 0 <= i < |os| && os[i].Stop? :: os[i].depth > 0
    ensures var top, bottom := TopmostLeaf(os, o), BottommostLeaf(ds, d);
            ValueOf(match OverridesDown(os, o, 0) case Decided(met) => met case Open => DefaultsUp(ds, d)) ==
            if top.Some? then top else bottom
  {
    AgreedDown(os, o, 0);
    AgreedUp(ds, d);
    var verdict := OverridesDown(os, o, 0);
    if verdict.Decided? && !verdict.met.Value? {
      var i :| 0 <= i < |os| && !os[i].Missing? && Leaf(os[i], o).None?;
      SettledWithoutLeaf(os[i], ds, d);
    }
  }

  // ----- Grouping a hierarchy -----

  predicate CompatibleAt(a: Policy, b: Policy, path: Path)
  {
    Agree(ProbeAt(a.Doc(), path), ProbeAt(b.Doc(), path))
  }

  lemma ParentOverAssociates(a: Probe, b: Probe, c: Probe)
    requires NoNull(a) && NoNull(b) && NoNull(c)
    requires Agree(a, b) && Agree(b, c) && Agree(a, c)
    ensures ParentOver(ParentOver(a, b), c) == ParentOver(a, ParentOver(b, c))
    ensures Over(Over(a, b), c) == Over(a, Over(b, c))
  {
  }

  lemma GroupingAtPath(a: Policy, b: Policy, c: Policy, ab: Policy, bc: Policy, path: Path)
    requires Sound(a) && Sound(b) && Sound(c) && Sound(ab) && Sound(bc)
    requires CompatibleAt(a, b, path) && CompatibleAt(b, c, path) && CompatibleAt(a, c, path)
    requires MergePolicy(a, b) == Ok(ab) && MergePolicy(b, c) == Ok(bc) && MergePolicy(ab, c).Ok? && MergePolicy(a, bc).Ok?
    ensures ProbeAt(MergePolicy(ab, c).value.Doc(), path) == ProbeAt(MergePolicy(a, bc).value.Doc(), path)
  {
    NullFreeProbe(a.Doc(), path);
    NullFreeProbe(b.Doc(), path);
    NullFreeProbe(c.Doc(), path);
    ParentOverAssociates(ProbeAt(a.Doc(), path), ProbeAt(b.Doc(), path), ProbeAt(c.Doc(), path));
    MergedAt(a, b, path);
    MergedAt(b, c, path);
    MergedAt(ab, c, path);
    MergedAt(a, bc, path);
  }

  lemma MergedAt(parent: Policy, child: Policy, path: Path)
    requires Sound(parent) && Sound(child) && MergePolicy(parent, child).Ok?
    ensures var p, c := ProbeAt(parent.Doc(), path), ProbeAt(child.Doc(), path);
            ProbeAt(MergePolicy(parent, child).value.Doc(), path) == if InOverride(path) then ParentOver(p, c) else Over(p, c)
  {
    if InOverride(path) {
      assert path == SectionPath("override", path[2..]);
      OverrideOfMerge(parent, child, path[2..]);
    } else {
      PlainOfMerge(parent, child, path);
    }
  }

  /** Three sound policies of one kind that agree on which paths are objects may be merged in either grouping. */
  lemma MergePolicyAssociative(a: Policy, b: Policy, c: Policy)
    requires Sound(a) && Sound(b) && Sound(c) && a.CrdID() == b.CrdID() == c.CrdID()
    requires forall path :: CompatibleAt(a, b, path) && CompatibleAt(b, c, path) && CompatibleAt(a, c, path)
    ensures MergePolicy(a, b).Ok? && MergePolicy(b, c).Ok?
    ensures MergePolicy(MergePolicy(a, b).value, c).Ok?
    ensures MergePolicy(MergePolicy(a, b).value, c) == MergePolicy(a, MergePolicy(b, c).value)
  {
    MergeSound(a, b);
    MergeSound(b, c);
    var ab, bc := MergePolicy(a, b).value, MergePolicy(b, c).value;
    MergeSound(ab, c);
    MergeSound(a, bc);
    var left, right := MergePolicy(ab, c).value, MergePolicy(a, bc).value;
    forall path ensures ProbeAt(left.Doc(), path) == ProbeAt(right.Doc(), path) {
      assert CompatibleAt(a, b, path);
      GroupingAtPath(a, b, c, ab, bc, path);
    }
    ProbesDetermine(left.Doc(), right.Doc());
  }
}
