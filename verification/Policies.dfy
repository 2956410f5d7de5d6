/** Policies as gwctl sees them: reading their fields, merging two of them, and the effective
    specification of one. Models gwctl/pkg/policymanager/manager.go and the pairwise part of
    gwctl/pkg/policymanager/merger.go. */
module Policies {
  import opened Wrappers
  import opened JsonMerge
  import Text

  datatype ObjRef = ObjRef(group: string, kind: string, name: string, namespace: string)

  const NO_REF := ObjRef("", "", "", "")

  datatype MergeError = KindMismatch | NotAnObject | ScalarSection

  /** `inherited` distinguishes inherited policies from direct ones. */
  datatype Policy = Policy(content: map<string, Json>, targetRef: ObjRef, inherited: bool) {

    function Doc(): Json
    {
      Obj(content)
    }

    /** Kind and group joined by a dot. An apiVersion with more than one slash does not parse, and
        then neither kind nor group is known. */
    function CrdID(): string
    {
      var parts := Text.Split(NestedString(Doc(), ["apiVersion"]), '/');
      if |parts| == 1 then NestedString(Doc(), ["kind"]) + "."
      else if |parts| == 2 then NestedString(Doc(), ["kind"]) + "." + parts[0]
      else "."
    }

    function Spec(): Option<map<string, Json>>
    {
      if "spec" in content && content["spec"].Obj? then Some(content["spec"].fields) else None
    }

    /** The merged default and override sections of an inherited policy; the specification without
        its targetRef for a direct one. `None` stands for Go's nil map. */
    function EffectiveSpec(): Result<Option<map<string, Json>>, MergeError>
    {
      if Spec().None? then Ok(None)
      else
        var spec := Spec().value;
        if !inherited then Ok(Some(spec - {"targetRef"}))
        else
          var default := if "default" in spec then spec["default"] else Obj(map[]);
          var override := if "override" in spec then spec["override"] else Obj(map[]);
          if !default.Obj? || !override.Obj? then Err(ScalarSection)
          else Ok(Some(MergeUnstructured(default.fields, override.fields)))
    }
  }

  /** `unstructured.NestedFieldCopy`: null ends the search quietly, any other non-object is an error. */
  function NestedField(j: Json, path: Path): Result<Option<Json>, MergeError>
    decreases |path|
  {
    if path == [] then Ok(Some(j))
    else
      match j
      case Null => Ok(None)
      case Obj(fields) => if path[0] in fields then NestedField(fields[path[0]], path[1..]) else Ok(None)
      case _ => Err(NotAnObject)
  }

  /** `unstructured.NestedString` with its error and absence cases read as the empty string. */
  function NestedString(j: Json, path: Path): string
  {
    match NestedField(j, path)
    case Ok(Some(Str(text))) => text
    case _ => ""
  }

  function MergeUnstructured(parent: map<string, Json>, patch: map<string, Json>): map<string, Json>
  {
    MergePatch(Obj(parent), Obj(patch)).fields
  }

  /** The child wins, except that an inherited parent patches its own override section back on top. */
  function MergePolicy(parent: Policy, child: Policy): Result<Policy, MergeError>
  {
    if parent.CrdID() != child.CrdID() then Err(KindMismatch)
    else
      var merged := MergeUnstructured(parent.content, child.content);
      if !parent.inherited then Ok(child.(content := merged, targetRef := NO_REF))
      else
        match NestedField(parent.Doc(), ["spec", "override"])
        case Err(e) => Err(e)
        case Ok(None) => Ok(child.(content := merged, targetRef := NO_REF))
        case Ok(Some(override)) =>
          var patched := MergeUnstructured(merged, map["spec" := Obj(map["override" := override])]);
          Ok(child.(content := patched, targetRef := NO_REF))
  }

  // ----- Field access in terms of probes -----

  lemma {:induction false} NestedFieldByProbe(j: Json, path: Path)
    ensures var p, f := ProbeAt(j, path), NestedField(j, path);
            match p
            case Stop(d, v) =>
              f == (if d == |path| then Ok(Some(v)) else if v.Null? then Ok(None) else Err(NotAnObject))
            case Inner => f.Ok? && f.value.Some? && f.value.value.Obj?
            case Missing(_) => f == Ok(None)
    decreases |path|
  {
    if j.Obj? && path != [] && path[0] in j.fields {
      NestedFieldByProbe(j.fields[path[0]], path[1..]);
    }
  }

  lemma SameProbeSameString(a: Json, b: Json, path: Path)
    requires ProbeAt(a, path) == ProbeAt(b, path) || (!ProbeAt(a, path).Stop? && !ProbeAt(b, path).Stop?)
    ensures NestedString(a, path) == NestedString(b, path)
  {
    NestedFieldByProbe(a, path);
    NestedFieldByProbe(b, path);
  }

  /** The text at a path, and the empty string for anything else. */
  lemma NestedStringByProbe(j: Json, path: Path)
    ensures NestedString(j, path) == match LeafAt(j, path) case Some(Str(text)) => text case _ => ""
  {
    NestedFieldByProbe(j, path);
  }

  // ----- What merging two policies does, path by path -----

  /** At or below spec.override. */
  predicate InOverride(path: Path)
  {
    |path| >= 2 && path[0] == "spec" && path[1] == "override"
  }

  /** Neither at, nor below, nor above spec.override. */
  predicate OutsideOverride(path: Path)
  {
    path != [] && (path[0] != "spec" || (|path| >= 2 && path[1] != "override"))
  }

  /** What an inherited parent lays on top after the plain merge. */
  function OverridePatch(parent: Policy): map<string, Json>
  {
    match NestedField(parent.Doc(), ["spec", "override"])
    case Ok(Some(override)) => if parent.inherited then map["spec" := Obj(map["override" := override])] else map[]
    case _ => map[]
  }

  lemma MergedProbe(parent: Policy, child: Policy, path: Path)
    requires MergePolicy(parent, child).Ok?
    ensures ProbeAt(MergePolicy(parent, child).value.Doc(), path) ==
            Over(Over(ProbeAt(parent.Doc(), path), ProbeAt(child.Doc(), path)), ProbeAt(Obj(OverridePatch(parent)), path))
  {
    var merged := MergePatch(parent.Doc(), child.Doc());
    EmptyPatch(merged);
    ProbeOfMerge(parent.Doc(), child.Doc(), path);
    ProbeOfMerge(merged, Obj(OverridePatch(parent)), path);
  }

  /** The patch agrees with the parent at and below spec.override and is silent elsewhere. */
  lemma PatchProbe(parent: Policy, path: Path)
    ensures var p, q := ProbeAt(parent.Doc(), path), ProbeAt(Obj(OverridePatch(parent)), path);
            if OverridePatch(parent) == map[] then q == (if path == [] then Inner else Missing(0))
            else if InOverride(path) then q == p && !(p.Missing? && p.depth < 2) && !(p.Stop? && p.depth < 2)
            else if OutsideOverride(path) then q == Missing(if path[0] == "spec" then 1 else 0) && (p.Missing? ==> q.depth <= p.depth)
            else q == p == Inner
  {
  }

  /** With no override in an inherited parent, the parent's walk towards it ends early. */
  lemma NoOverridePatch(parent: Policy, path: Path)
    requires OverridePatch(parent) == map[] && parent.inherited && InOverride(path)
    requires NestedField(parent.Doc(), ["spec", "override"]).Ok?
    ensures var p := ProbeAt(parent.Doc(), path);
            (p.Missing? && p.depth < 2) || (p.Stop? && p.depth < 2 && p.value.Null?)
  {
    assert path[..2] == ["spec", "override"];
    assert "spec" !in OverridePatch(parent);
    NestedFieldByProbe(parent.Doc(), path[..2]);
    ProbeOfPrefix(parent.Doc(), path, 2);
  }

  /** Outside the override section the merged policy has exactly the leaves of the plain merge, in
      which the child decides wherever it reaches. */
  lemma ChildDecidesOutside(parent: Policy, child: Policy, path: Path)
    requires MergePolicy(parent, child).Ok?
    requires OutsideOverride(path) || !parent.inherited
    ensures LeafAt(MergePolicy(parent, child).value.Doc(), path) == LeafAt(MergePatch(parent.Doc(), child.Doc()), path)
  {
    MergedProbe(parent, child, path);
    PatchProbe(parent, path);
    ProbeOfMerge(parent.Doc(), child.Doc(), path);
  }

  /** At and below the override section of an inherited parent the roles are swapped: the parent
      decides wherever it reaches, and the child shows only where the parent falls short. */
  lemma ParentDecidesInside(parent: Policy, child: Policy, path: Path)
    requires MergePolicy(parent, child).Ok?
    requires parent.inherited && InOverride(path)
    requires NullFree(parent.Doc()) && NullFree(child.Doc())
    ensures LeafAt(MergePolicy(parent, child).value.Doc(), path) == LeafAt(MergePatch(child.Doc(), parent.Doc()), path)
  {
    MergedProbe(parent, child, path);
    PatchProbe(parent, path);
    NullFreeProbe(parent.Doc(), path);
    NullFreeProbe(child.Doc(), path);
    ProbeOfMerge(child.Doc(), parent.Doc(), path);
    if OverridePatch(parent) == map[] {
      NoOverridePatch(parent, path);
    }
  }

  // ----- Kinds -----

  /** The apiVersion and kind fields are there, as the API server guarantees. */
  predicate Typed(p: Policy)
  {
    HasField(p, ["apiVersion"]) && HasField(p, ["kind"])
  }

  /** A value that is neither an object nor null. */
  predicate HasField(p: Policy, path: Path)
  {
    LeafAt(p.Doc(), path).Some? && LeafAt(p.Doc(), path) != Some(Null)
  }

  /** Merging onto a typed child keeps the child's kind. */
  lemma MergeKeepsKind(parent: Policy, child: Policy)
    requires MergePolicy(parent, child).Ok? && Typed(child)
    ensures var r := MergePolicy(parent, child).value; Typed(r) && r.CrdID() == child.CrdID()
  {
    var r := MergePolicy(parent, child).value;
    MergeKeepsField(parent, child, ["apiVersion"]);
    MergeKeepsField(parent, child, ["kind"]);
    SameProbeSameString(r.Doc(), child.Doc(), ["apiVersion"]);
    SameProbeSameString(r.Doc(), child.Doc(), ["kind"]);
  }

  lemma MergeKeepsField(parent: Policy, child: Policy, path: Path)
    requires MergePolicy(parent, child).Ok? && OutsideOverride(path) && HasField(child, path)
    ensures ProbeAt(MergePolicy(parent, child).value.Doc(), path) == ProbeAt(child.Doc(), path)
  {
    MergedProbe(parent, child, path);
    PatchProbe(parent, path);
  }

  /** A well-formed apiVersion names the group before its slash, or no group without one. */
  lemma CrdIDOf(p: Policy, group: string, version: string, kind: string)
    requires '/' !in group && '/' !in version && LeafAt(p.Doc(), ["kind"]) == Some(Str(kind))
    ensures LeafAt(p.Doc(), ["apiVersion"]) == Some(Str(group + "/" + version)) ==> p.CrdID() == kind + "." + group
    ensures LeafAt(p.Doc(), ["apiVersion"]) == Some(Str(version)) ==> p.CrdID() == kind + "."
    ensures forall more :: LeafAt(p.Doc(), ["apiVersion"]) == Some(Str(group + "/" + version + "/" + more)) ==> p.CrdID() == "."
  {
    forall more | LeafAt(p.Doc(), ["apiVersion"]) == Some(Str(group + "/" + version + "/" + more)) ensures p.CrdID() == "." {
      NestedFieldByProbe(p.Doc(), ["apiVersion"]);
      Text.SplitAtSeparator(group + "/" + version, more, '/');
      Text.SplitAtSeparator(group, version, '/');
      assert group + "/" + version == group + ['/'] + version;
      assert group + "/" + version + "/" + more == group + "/" + version + ['/'] + more;
    }
    NestedFieldByProbe(p.Doc(), ["apiVersion"]);
    NestedFieldByProbe(p.Doc(), ["kind"]);
    Text.SplitWithoutSeparator(group, '/');
    Text.SplitWithoutSeparator(version, '/');
    Text.SplitAtSeparator(group, version, '/');
    assert group + "/" + version == group + ['/'] + version;
  }

  // ----- Exactly when things fail -----

  /** Merging fails exactly on different kinds and on an inherited parent whose spec is a value other
      than an object or null; otherwise the result is the child, detached, with merged content. */
  lemma MergeOutcome(parent: Policy, child: Policy)
    ensures MergePolicy(parent, child) == Err(KindMismatch) <==> parent.CrdID() != child.CrdID()
    ensures MergePolicy(parent, child) == Err(NotAnObject) <==>
            parent.CrdID() == child.CrdID() && parent.inherited && HasField(parent, ["spec"])
    ensures MergePolicy(parent, child).Ok? || MergePolicy(parent, child).error in {KindMismatch, NotAnObject}
    ensures MergePolicy(parent, child).Ok? ==>
              var r := MergePolicy(parent, child).value; r.inherited == child.inherited && r.targetRef == NO_REF
  {
  }

  /** The effective specification fails exactly for an inherited policy whose default or override
      section is a value that is not an object. */
  lemma EffectiveFailsIff(p: Policy)
    ensures p.EffectiveSpec().Err? <==>
            p.inherited && (LeafAt(p.Doc(), ["spec", "default"]).Some? || LeafAt(p.Doc(), ["spec", "override"]).Some?)
  {
  }

  /** The effective specification of a direct policy is its spec without the targetRef, at every path. */
  lemma EffectiveOfDirect(p: Policy, path: Path)
    requires !p.inherited
    ensures p.EffectiveSpec().Ok? && (p.EffectiveSpec().value.Some? <==> ProbeAt(p.Doc(), ["spec"]) == Inner)
    ensures p.EffectiveSpec().value.Some? ==>
              var q := ProbeAt(Obj(p.EffectiveSpec().value.value), path);
              if path == [] then q == Inner
              else if path[0] == "targetRef" then q == Missing(0)
              else Deeper(q) == ProbeAt(p.Doc(), ["spec"] + path)
  {
    assert ["spec"][1..] == [] && (["spec"] + path)[1..] == path;
    if p.EffectiveSpec().value.Some? {
      var spec := p.Spec().value;
      assert ProbeAt(p.Doc(), ["spec"] + path) == Deeper(ProbeAt(Obj(spec), path));
      assert path != [] && path[0] != "targetRef" ==> (path[0] in spec - {"targetRef"} <==> path[0] in spec);
    }
  }

  /** In short: every leaf of an inherited parent's override survives, and so does every leaf of the
      child outside it. */
  lemma MergedPolicyLeaves(parent: Policy, child: Policy, path: Path)
    requires MergePolicy(parent, child).Ok? && NullFree(parent.Doc()) && NullFree(child.Doc())
    ensures var r := MergePolicy(parent, child).value;
            && (parent.inherited && InOverride(path) && LeafAt(parent.Doc(), path).Some? ==>
                  LeafAt(r.Doc(), path) == LeafAt(parent.Doc(), path))
            && ((OutsideOverride(path) || !parent.inherited) && LeafAt(child.Doc(), path).Some? ==>
                  LeafAt(r.Doc(), path) == LeafAt(child.Doc(), path))
  {
    if parent.inherited && InOverride(path) && LeafAt(parent.Doc(), path).Some? {
      ParentDecidesInside(parent, child, path);
      NullFreePatchLeafSurvives(child.Doc(), parent.Doc(), path);
    }
    if (OutsideOverride(path) || !parent.inherited) && LeafAt(child.Doc(), path).Some? {
      ChildDecidesOutside(parent, child, path);
      NullFreePatchLeafSurvives(parent.Doc(), child.Doc(), path);
    }
  }
}
