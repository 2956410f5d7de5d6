/** JSON documents and JSON Merge Patch (section 2 of RFC 7396), with a pathwise meaning.

    `Probe(j, path)` says how far `path` can be followed in `j` and what stops it. The patch
    algorithm turns out to act on probes: `Probe(MergePatch(t, p), path)` depends only on the
    probes of `t` and `p` at that path, through `Over`. Every law about merging below is proved
    on probes and carried back to documents by extensionality. */
module JsonMerge {
  import opened Wrappers

  /** Numbers and booleans never matter to merging, so scalars other than text are opaque tokens. */
  datatype Json =
    | Null
    | Str(text: string)
    | Scalar(token: int)
    | Arr(elements: seq<Json>)
    | Obj(fields: map<string, Json>)

  type Path = seq<string>

  /** The algorithm of section 2 of RFC 7396. A name absent from the target reads as null. */
  function MergePatch(target: Json, patch: Json): Json
    decreases patch
  {
    if !patch.Obj? then patch
    else
      var t := if target.Obj? then target.fields else map[];
      Obj(map k | k in t.Keys + patch.fields.Keys && !(k in patch.fields && patch.fields[k].Null?) ::
            if k in patch.fields then MergePatch(if k in t then t[k] else Null, patch.fields[k]) else t[k])
  }

  /** No object member, at any depth below objects, is null. */
  predicate NullFree(j: Json)
  {
    !j.Null? && (j.Obj? ==> forall k | k in j.fields :: NullFree(j.fields[k]))
  }

  // ----- Probes -----

  /** What stops a walk: a value that is no object, reached after `depth` names; nothing, and the
      walk ends on an object; or the object reached after `depth` names lacks the next name. */
  datatype Probe =
    | Stop(depth: nat, value: Json)
    | Inner
    | Missing(depth: nat)

  function Deeper(p: Probe): Probe
  {
    match p
    case Stop(d, v) => Stop(d + 1, v)
    case Inner => Inner
    case Missing(d) => Missing(d + 1)
  }

  function ProbeAt(j: Json, path: Path): (p: Probe)
    ensures p.Stop? ==> p.depth <= |path|
    ensures p.Missing? ==> p.depth < |path|
    decreases |path|
  {
    if !j.Obj? then Stop(0, j)
    else if path == [] then Inner
    else if path[0] !in j.fields then Missing(0)
    else Deeper(ProbeAt(j.fields[path[0]], path[1..]))
  }

  /** The non-object value at exactly this path, if there is one. */
  function LeafAt(j: Json, path: Path): (r: Option<Json>)
  {
    Leaf(ProbeAt(j, path), path)
  }

  function Leaf(p: Probe, path: Path): Option<Json>
  {
    if p.Stop? && p.depth == |path| then Some(p.value) else None
  }

  /** How the probe of a patch acts on the probe of its target. */
  function Over(t: Probe, p: Probe): Probe
  {
    match p
    case Stop(d, v) => if v.Null? then Missing(if d == 0 then 0 else d - 1) else p
    case Inner => Inner
    case Missing(d) =>
      match t
      case Stop(e, _) => if e <= d then p else t
      case Inner => Inner
      case Missing(e) => Missing(if d < e then e else d)
  }

  lemma MergeMember(t: Json, p: Json, k: string)
    requires p.Obj?
    ensures MergePatch(t, p).Obj?
    ensures k in MergePatch(t, p).fields <==>
            (if k in p.fields then !p.fields[k].Null? else t.Obj? && k in t.fields)
    ensures k in p.fields && !p.fields[k].Null? ==>
              MergePatch(t, p).fields[k] == MergePatch(if t.Obj? && k in t.fields then t.fields[k] else Null, p.fields[k])
    ensures k !in p.fields && t.Obj? && k in t.fields ==> MergePatch(t, p).fields[k] == t.fields[k]
  {
  }

  lemma OverDeeper(t: Probe, p: Probe)
    ensures !(p.Stop? && p.depth == 0 && p.value.Null?) ==> Over(Deeper(t), Deeper(p)) == Deeper(Over(t, p))
    ensures t.Stop? && t.depth == 0 && !(p.Stop? && p.depth == 0 && p.value.Null?) ==>
              Over(Missing(0), Deeper(p)) == Deeper(Over(t, p)) && Over(t, Deeper(p)) == Deeper(Over(t, p))
  {
  }

  /** Merging is pathwise: for every target, every object patch (nulls included) and every path. */
  lemma {:induction false} ProbeOfMerge(t: Json, p: Json, path: Path)
    requires p.Obj?
    ensures ProbeAt(MergePatch(t, p), path) == Over(ProbeAt(t, path), ProbeAt(p, path))
    decreases |path|
  {
    if path != [] {
      var k, rest := path[0], path[1..];
      MergeMember(t, p, k);
      var below := if t.Obj? && k in t.fields then t.fields[k] else Null;
      if k in p.fields && !p.fields[k].Null? {
        if p.fields[k].Obj? {
          ProbeOfMerge(below, p.fields[k], rest);
        }
        assert ProbeAt(MergePatch(t, p), path) == Deeper(ProbeAt(MergePatch(below, p.fields[k]), rest));
        OverDeeper(ProbeAt(below, rest), ProbeAt(p.fields[k], rest));
      }
    }
  }

  /** A document is determined by its probes. */
  lemma {:induction false} ProbesDetermine(a: Json, b: Json)
    requires forall path :: ProbeAt(a, path) == ProbeAt(b, path)
    ensures a == b
    decreases a
  {
    assert ProbeAt(a, []) == ProbeAt(b, []);
    if a.Obj? {
      forall k
        ensures k in a.fields <==> k in b.fields
        ensures k in a.fields ==> a.fields[k] == b.fields[k]
      {
        assert ProbeAt(a, [k]) == ProbeAt(b, [k]);
        if k in a.fields {
          forall path ensures ProbeAt(a.fields[k], path) == ProbeAt(b.fields[k], path) {
            assert ([k] + path)[1..] == path;
            assert ProbeAt(a, [k] + path) == ProbeAt(b, [k] + path);
          }
          ProbesDetermine(a.fields[k], b.fields[k]);
        }
      }
      assert a.fields == b.fields;
    }
  }

  // ----- Laws of the patch algorithm -----

  lemma MergeIdempotent(t: Json, p: Json)
    ensures MergePatch(MergePatch(t, p), p) == MergePatch(t, p)
  {
    if p.Obj? {
      var once := MergePatch(t, p);
      forall path ensures ProbeAt(MergePatch(once, p), path) == ProbeAt(once, path) {
        ProbeOfMerge(once, p, path);
        ProbeOfMerge(t, p, path);
      }
      ProbesDetermine(MergePatch(once, p), once);
    }
  }

  lemma {:induction false} NullFreeProbe(j: Json, path: Path)
    requires NullFree(j)
    ensures var p := ProbeAt(j, path); p.Stop? ==> !p.value.Null?
    decreases |path|
  {
    if j.Obj? && path != [] && path[0] in j.fields {
      NullFreeProbe(j.fields[path[0]], path[1..]);
    }
  }

  /** The leaves after a merge, for every target and object patch: the patch decides wherever it
      reaches (a null deletes), and the target keeps its leaves exactly where the patch falls short. */
  lemma LeavesOfMerge(t: Json, p: Json, path: Path)
    requires p.Obj?
    ensures LeafAt(MergePatch(t, p), path) ==
            if ProbeAt(p, path).Missing? then LeafAt(t, path)
            else if LeafAt(p, path) == Some(Null) then None
            else LeafAt(p, path)
  {
    ProbeOfMerge(t, p, path);
  }

  lemma NullFreePatchLeafSurvives(t: Json, p: Json, path: Path)
    requires NullFree(p) && LeafAt(p, path).Some?
    ensures LeafAt(MergePatch(t, p), path) == LeafAt(p, path)
  {
    NullFreeProbe(p, path);
    if p.Obj? {
      ProbeOfMerge(t, p, path);
    }
  }

  lemma {:induction false} MergeKeepsNullFree(t: Json, p: Json)
    requires NullFree(p)
    requires t.Obj? ==> NullFree(t)
    ensures NullFree(MergePatch(t, p))
    decreases p
  {
    if p.Obj? {
      forall k | k in MergePatch(t, p).fields ensures NullFree(MergePatch(t, p).fields[k]) {
        MergeMember(t, p, k);
        if k in p.fields {
          MergeKeepsNullFree(if t.Obj? && k in t.fields then t.fields[k] else Null, p.fields[k]);
        }
      }
    }
  }

  lemma EmptyPatch(j: Json)
    requires j.Obj?
    ensures MergePatch(j, Obj(map[])) == j
  {
  }

  // ----- Associativity, exactly -----

  /** Wherever `c` has an object, `b` has no value that is not an object. */
  ghost predicate NeverUnder(b: Json, c: Json)
  {
    forall path :: !(LeafAt(b, path).Some? && ProbeAt(c, path).Inner?)
  }

  ghost predicate Associates(a: Json, b: Json, c: Json)
  {
    MergePatch(MergePatch(a, b), c) == MergePatch(a, MergePatch(b, c))
  }

  lemma {:induction false} ProbeOfPrefix(j: Json, path: Path, n: nat)
    requires n <= |path|
    ensures ProbeAt(j, path[..n]) ==
            var p := ProbeAt(j, path); if !p.Inner? && (if p.Stop? then p.depth <= n else p.depth < n) then p else Inner
    decreases |path|
  {
    if n > 0 && j.Obj? && path[0] in j.fields {
      assert path[..n][1..] == path[1..][..n - 1];
      ProbeOfPrefix(j.fields[path[0]], path[1..], n - 1);
    }
  }

  lemma AssociativeAtPath(a: Json, b: Json, c: Json, path: Path)
    requires b.Obj? && c.Obj? && NullFree(c) && NeverUnder(b, c)
    ensures ProbeAt(MergePatch(MergePatch(a, b), c), path) == ProbeAt(MergePatch(a, MergePatch(b, c)), path)
  {
    var pb, pc := ProbeAt(b, path), ProbeAt(c, path);
    NullFreeProbe(c, path);
    if pb.Stop? && pc.Missing? && pb.depth <= pc.depth {
      var cut := path[..pb.depth];
      var leaf := LeafAt(b, cut);
      ProbeOfPrefix(b, path, pb.depth);
      ProbeOfPrefix(c, path, pb.depth);
      assert false;
    }
    ProbeOfTwoMerges(a, b, c, path);
    OverAssociates(ProbeAt(a, path), pb, pc);
  }

  lemma ProbeOfTwoMerges(a: Json, b: Json, c: Json, path: Path)
    requires b.Obj? && c.Obj?
    ensures ProbeAt(MergePatch(MergePatch(a, b), c), path) == Over(Over(ProbeAt(a, path), ProbeAt(b, path)), ProbeAt(c, path))
    ensures ProbeAt(MergePatch(a, MergePatch(b, c)), path) == Over(ProbeAt(a, path), Over(ProbeAt(b, path), ProbeAt(c, path)))
  {
    ProbeOfMerge(a, b, path);
    ProbeOfMerge(b, c, path);
    ProbeOfMerge(MergePatch(a, b), c, path);
    ProbeOfMerge(a, MergePatch(b, c), path);
  }

  lemma OverAssociates(a: Probe, b: Probe, c: Probe)
    requires c.Stop? ==> !c.value.Null?
    requires !(b.Stop? && c.Missing? && b.depth <= c.depth)
    ensures Over(Over(a, b), c) == Over(a, Over(b, c))
  {
  }

  function Nest(path: Path): Json
  {
    if path == [] then Str("") else Obj(map[path[0] := Nest(path[1..])])
  }

  lemma {:induction false} ProbeOfNest(path: Path)
    ensures ProbeAt(Nest(path), path) == Stop(|path|, Str(""))
  {
    if path != [] {
      ProbeOfNest(path[1..]);
    }
  }

  lemma {:induction false} FindNull(j: Json) returns (path: Path)
    requires !NullFree(j)
    ensures ProbeAt(j, path) == Stop(|path|, Null)
    decreases j
  {
    if j.Null? {
      path := [];
    } else {
      var k :| k in j.fields && !NullFree(j.fields[k]);
      var rest := FindNull(j.fields[k]);
      path := [k] + rest;
      assert path[1..] == rest;
    }
  }

  lemma {:induction false} LongestName(names: set<string>) returns (n: nat)
    ensures forall x | x in names :: |x| <= n
  {
    if names == {} {
      n := 0;
    } else {
      var x :| x in names;
      n := LongestName(names - {x});
      n := if n < |x| then |x| else n;
    }
  }

  /** Below an object there is always a name the object lacks. */
  lemma {:induction false} FreshBelow(j: Json, path: Path) returns (k: string)
    requires ProbeAt(j, path).Inner?
    ensures ProbeAt(j, path + [k]) == Missing(|path|)
    decreases |path|
  {
    if path == [] {
      var n := LongestName(j.fields.Keys);
      k := seq(n + 1, _ => 'x');
    } else {
      k := FreshBelow(j.fields[path[0]], path[1..]);
      assert (path + [k])[1..] == path[1..] + [k];
    }
  }

  /** Below a value that is no object a walk stops at that value. */
  lemma ProbeBelowLeaf(j: Json, path: Path, k: string)
    requires LeafAt(j, path).Some?
    ensures ProbeAt(j, path + [k]) == ProbeAt(j, path)
  {
    assert (path + [k])[..|path|] == path;
    ProbeOfPrefix(j, path + [k], |path|);
  }

  /** Two patches may be combined before use, whatever the target, exactly when the second is
      null-free and never has an object where the first has something else. */
  lemma MergeAssociativeIff(b: Json, c: Json)
    requires b.Obj? && c.Obj?
    ensures (forall a :: Associates(a, b, c)) <==> NullFree(c) && NeverUnder(b, c)
  {
    if NullFree(c) && NeverUnder(b, c) {
      forall a ensures Associates(a, b, c) {
        forall path ensures ProbeAt(MergePatch(MergePatch(a, b), c), path) == ProbeAt(MergePatch(a, MergePatch(b, c)), path) {
          AssociativeAtPath(a, b, c, path);
        }
        ProbesDetermine(MergePatch(MergePatch(a, b), c), MergePatch(a, MergePatch(b, c)));
      }
    } else {
      var path: Path;
      if !NullFree(c) {
        path := FindNull(c);
      } else {
        path :| LeafAt(b, path).Some? && ProbeAt(c, path).Inner?;
        var k := FreshBelow(c, path);
        ProbeBelowLeaf(b, path, k);
        path := path + [k];
      }
      var a := Nest(path);
      ProbeOfNest(path);
      ProbeOfTwoMerges(a, b, c, path);
      assert !Associates(a, b, c);
    }
  }
}
