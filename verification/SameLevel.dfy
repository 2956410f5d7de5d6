/** Policies of one level: conflict resolution by age and name (GEP-713), and reducing a list of
    policies to one per kind. Models gwctl/pkg/policymanager/merger.go. */
module SameLevel {
  import opened Wrappers
  import opened JsonMerge
  import opened Policies
  import opened PolicyMerger
  import Text

  /** How a creationTimestamp is read as an instant; text that does not parse reads as the zero time. */
  type Clock = string -> int

  // ----- Precedence -----

  datatype Rank = Rank(time: int, name: string)

  function RankOf(clock: Clock, p: Policy): Rank
  {
    Rank(clock(NestedString(p.Doc(), ["metadata", "creationTimestamp"])),
         NestedString(p.Doc(), ["metadata", "namespace"]) + "/" + NestedString(p.Doc(), ["metadata", "name"]))
  }

  /** Older first, then alphabetically first. */
  predicate Outranks(a: Rank, b: Rank)
  {
    a.time < b.time || (a.time == b.time && Text.Less(a.name, b.name))
  }

  function OrderByPrecedence(clock: Clock, a: Policy, b: Policy): (Policy, Policy)
  {
    var lower, higher := RankOf(clock, a), RankOf(clock, b);
    if lower.time == higher.time then
      if Text.Less(lower.name, higher.name) then (b, a) else (a, b)
    else if higher.time > lower.time then (b, a)
    else (a, b)
  }

  lemma OutranksIsStrictOrder(a: Rank, b: Rank, c: Rank)
    ensures a == b || Outranks(a, b) || Outranks(b, a)
    ensures !(Outranks(a, b) && Outranks(b, a))
    ensures Outranks(a, b) && Outranks(b, c) ==> Outranks(a, c)
  {
    Text.LessTotal(a.name, b.name);
    if Text.Less(a.name, b.name) && Text.Less(b.name, c.name) {
      Text.LessTransitive(a.name, b.name, c.name);
    }
  }

  /** The second policy returned is never outranked by the first, whatever the argument order. */
  lemma OrderPutsHigherSecond(clock: Clock, a: Policy, b: Policy)
    ensures var (lower, higher) := OrderByPrecedence(clock, a, b);
            && ((lower, higher) == (a, b) || (lower, higher) == (b, a))
            && !Outranks(RankOf(clock, lower), RankOf(clock, higher))
    ensures RankOf(clock, a) != RankOf(clock, b) ==> OrderByPrecedence(clock, a, b) == OrderByPrecedence(clock, b, a)
  {
    OutranksIsStrictOrder(RankOf(clock, a), RankOf(clock, b), RankOf(clock, a));
  }

  function ByAge(clock: Clock): Precedence
  {
    (a: Policy, b: Policy) => OrderByPrecedence(clock, a, b)
  }

  /** Of two policies the older one has precedence, whichever comes first; at the same age the one whose
      namespace and name come first in the alphabet; and if these are the same too, the second. */
  lemma OlderHasPrecedence(clock: Clock, a: Policy, b: Policy)
    ensures var ageOf := (p: Policy) => clock(NestedString(p.Doc(), ["metadata", "creationTimestamp"]));
            var nameOf := (p: Policy) => NestedString(p.Doc(), ["metadata", "namespace"]) + "/" + NestedString(p.Doc(), ["metadata", "name"]);
            && (ageOf(a) < ageOf(b) || (ageOf(a) == ageOf(b) && Text.Less(nameOf(a), nameOf(b))) ==>
                  OrderByPrecedence(clock, a, b) == (b, a) && OrderByPrecedence(clock, b, a) == (b, a))
            && (ageOf(a) == ageOf(b) && nameOf(a) == nameOf(b) ==> OrderByPrecedence(clock, a, b) == (a, b))
  {
    Text.LessTotal(RankOf(clock, a).name, RankOf(clock, b).name);
  }

  method MergePoliciesOfSameHierarchy(clock: Clock, policies1: Level, policies2: Level) returns (r: Result<Level, MergeError>)
    ensures r.Ok? <==> Mergeable(policies1, policies2, ByAge(clock))
    ensures r.Ok? ==> MergeLevels(policies1, policies2, ByAge(clock)) == Some(r.value)
  {
    r := MergePolicies(policies1, policies2, ByAge(clock));
  }

  // ----- One policy per kind -----

  function MergeSame(clock: Clock, a: Policy, b: Policy): Result<Policy, MergeError>
  {
    var (lower, higher) := OrderByPrecedence(clock, a, b);
    MergePolicy(lower, higher)
  }

  /** Policies of one level and kind, merged in list order. */
  function FoldSame(clock: Clock, ps: seq<Policy>): Result<Policy, MergeError>
    requires ps != []
  {
    if |ps| == 1 then Ok(ps[0])
    else
      match FoldSame(clock, ps[..|ps| - 1])
      case Err(e) => Err(e)
      case Ok(merged) => MergeSame(clock, merged, ps[|ps| - 1])
  }

  function OfKind(ps: seq<Policy>, kind: string): seq<Policy>
  {
    if ps == [] then []
    else OfKind(ps[..|ps| - 1], kind) + (if ps[|ps| - 1].CrdID() == kind then [ps[|ps| - 1]] else [])
  }

  lemma {:induction false} OfKindMembers(ps: seq<Policy>, kind: string)
    ensures forall p :: p in OfKind(ps, kind) <==> p in ps && p.CrdID() == kind
  {
    if ps != [] {
      OfKindMembers(ps[..|ps| - 1], kind);
      assert ps == ps[..|ps| - 1] + [ps[|ps| - 1]];
    }
  }

  /** `m` holds, for exactly the kinds present, the fold of just that kind's policies in list order. */
  ghost predicate Reduced(clock: Clock, ps: seq<Policy>, m: Level)
  {
    && (forall k :: k in m <==> OfKind(ps, k) != [])
    && forall k | k in m :: FoldSame(clock, OfKind(ps, k)) == Ok(m[k])
  }

  ghost predicate KindFails(clock: Clock, ps: seq<Policy>, kind: string)
  {
    OfKind(ps, kind) != [] && FoldSame(clock, OfKind(ps, kind)).Err?
  }

  method MergePoliciesOfSimilarKind(clock: Clock, policies: seq<Policy>) returns (r: Result<Level, MergeError>)
    ensures r.Ok? ==> Reduced(clock, policies, r.value)
    ensures r.Err? <==> exists kind :: KindFails(clock, policies, kind)
  {
    var result: Level := map[];
    for i := 0 to |policies|
      invariant Reduced(clock, policies[..i], result)
    {
      var policy, id := policies[i], policies[i].CrdID();
      assert policies[..i + 1] == policies[..i] + [policy];
      ReducedStep(clock, policies[..i], policy, result);
      if id !in result {
        result := result[id := policy];
      } else {
        var merged := MergeOne(clock, id, result[id], policy);
        if merged.Err? {
          FoldErrStays(clock, policies, i + 1, id);
          return Err(merged.error);
        }
        result := result[id := merged.value];
      }
    }
    assert policies[..|policies|] == policies;
    r := Ok(result);
  }

  /** Two policies of one kind merged through single-entry maps. */
  method MergeOne(clock: Clock, id: string, existing: Policy, policy: Policy) returns (r: Result<Policy, MergeError>)
    ensures r.Ok? <==> MergeSame(clock, existing, policy).Ok?
    ensures r.Ok? ==> r == MergeSame(clock, existing, policy)
  {
    var a, b := map[id := existing], map[id := policy];
    var merged := MergePoliciesOfSameHierarchy(clock, a, b);
    assert Entry(a, b, ByAge(clock), id) == MergeSame(clock, existing, policy);
    if merged.Err? {
      return Err(merged.error);
    }
    r := Ok(merged.value[id]);
  }

  lemma ReducedStep(clock: Clock, ps: seq<Policy>, p: Policy, m: Level)
    requires Reduced(clock, ps, m)
    ensures var id := p.CrdID();
            if id !in m then Reduced(clock, ps + [p], m[id := p])
            else if MergeSame(clock, m[id], p).Ok? then Reduced(clock, ps + [p], m[id := MergeSame(clock, m[id], p).value])
            else KindFails(clock, ps + [p], id)
  {
    var id := p.CrdID();
    OfKindSnoc(ps, p, id);
    if id !in m {
      ReducedPut(clock, ps, p, m, p);
    } else {
      FoldSnoc(clock, OfKind(ps, id), p);
      if MergeSame(clock, m[id], p).Ok? {
        ReducedPut(clock, ps, p, m, MergeSame(clock, m[id], p).value);
      }
    }
  }

  lemma ReducedPut(clock: Clock, ps: seq<Policy>, p: Policy, m: Level, v: Policy)
    requires Reduced(clock, ps, m)
    requires OfKind(ps + [p], p.CrdID()) != [] && FoldSame(clock, OfKind(ps + [p], p.CrdID())) == Ok(v)
    ensures Reduced(clock, ps + [p], m[p.CrdID() := v])
  {
    var put := m[p.CrdID() := v];
    forall k
      ensures k in put <==> OfKind(ps + [p], k) != []
      ensures k in put ==> FoldSame(clock, OfKind(ps + [p], k)) == Ok(put[k])
    {
      OfKindSnoc(ps, p, k);
    }
  }

  lemma OfKindSnoc(ps: seq<Policy>, p: Policy, kind: string)
    ensures OfKind(ps + [p], kind) == if p.CrdID() == kind then OfKind(ps, kind) + [p] else OfKind(ps, kind)
  {
  }

  lemma FoldSnoc(clock: Clock, ps: seq<Policy>, p: Policy)
    requires ps != [] && FoldSame(clock, ps).Ok?
    ensures FoldSame(clock, ps + [p]) == MergeSame(clock, FoldSame(clock, ps).value, p)
  {
  }

  lemma {:induction false} FoldErrStays(clock: Clock, ps: seq<Policy>, n: nat, kind: string)
    requires n <= |ps| && KindFails(clock, ps[..n], kind)
    ensures KindFails(clock, ps, kind)
    decreases |ps| - n
  {
    if n == |ps| {
      assert ps[..n] == ps;
    } else {
      assert ps[..n + 1][..n] == ps[..n];
      var before, after := OfKind(ps[..n], kind), OfKind(ps[..n + 1], kind);
      assert after == before || (after == before + [ps[n]] && after[..|after| - 1] == before);
      FoldErrStays(clock, ps, n + 1, kind);
    }
  }

  // ----- Kinds never mix -----

  /** Typed policies of one kind stay typed and of that kind, so merging them never meets a kind mismatch. */
  lemma {:induction false} FoldKeepsKind(clock: Clock, ps: seq<Policy>, kind: string)
    requires ps != [] && forall p | p in ps :: Typed(p) && p.CrdID() == kind
    ensures match FoldSame(clock, ps)
            case Ok(m) => Typed(m) && m.CrdID() == kind
            case Err(e) => e != KindMismatch
  {
    if |ps| > 1 {
      var init, last := ps[..|ps| - 1], ps[|ps| - 1];
      assert last in ps;
      FoldKeepsKind(clock, init, kind);
      if FoldSame(clock, init).Ok? {
        OrderPutsHigherSecond(clock, FoldSame(clock, init).value, last);
        SameKindMerges(OrderByPrecedence(clock, FoldSame(clock, init).value, last));
      }
    } else {
      assert ps[0] in ps;
    }
  }

  lemma SameKindMerges(pair: (Policy, Policy))
    requires Typed(pair.1) && pair.0.CrdID() == pair.1.CrdID()
    ensures match MergePolicy(pair.0, pair.1)
            case Ok(m) => Typed(m) && m.CrdID() == pair.1.CrdID()
            case Err(e) => e != KindMismatch
  {
    NestedFieldByProbe(pair.0.Doc(), ["spec", "override"]);
    if MergePolicy(pair.0, pair.1).Ok? {
      MergeKeepsKind(pair.0, pair.1);
    }
  }

  // ----- Who wins -----

  /** Which of the three metadata fields behind a rank a policy carries. Cluster-scoped policies
      carry no namespace. */
  datatype Carried = Carried(time: bool, namespace: bool, name: bool)

  predicate CarriesField(p: Policy, path: Path, carried: bool)
  {
    if carried then HasField(p, path) else ProbeAt(p.Doc(), path).Missing?
  }

  predicate Carries(p: Policy, c: Carried)
  {
    && CarriesField(p, ["metadata", "creationTimestamp"], c.time)
    && CarriesField(p, ["metadata", "namespace"], c.namespace)
    && CarriesField(p, ["metadata", "name"], c.name)
  }

  lemma MergedField(parent: Policy, child: Policy, field: string, carried: bool)
    requires MergePolicy(parent, child).Ok?
    requires CarriesField(parent, ["metadata", field], carried) && CarriesField(child, ["metadata", field], carried)
    ensures var r := MergePolicy(parent, child).value;
            && CarriesField(r, ["metadata", field], carried)
            && NestedString(r.Doc(), ["metadata", field]) == NestedString(child.Doc(), ["metadata", field])
  {
    var path, r := ["metadata", field], MergePolicy(parent, child).value;
    if carried {
      MergeKeepsField(parent, child, path);
    } else {
      MergedProbe(parent, child, path);
      PatchProbe(parent, path);
    }
    SameProbeSameString(r.Doc(), child.Doc(), path);
  }

  /** A merged policy ranks as the one that had precedence. */
  lemma MergedRank(clock: Clock, parent: Policy, child: Policy, c: Carried)
    requires MergePolicy(parent, child).Ok? && Carries(parent, c) && Carries(child, c)
    ensures var r := MergePolicy(parent, child).value; Carries(r, c) && RankOf(clock, r) == RankOf(clock, child)
  {
    MergedField(parent, child, "creationTimestamp", c.time);
    MergedField(parent, child, "namespace", c.namespace);
    MergedField(parent, child, "name", c.name);
  }

  lemma {:induction false} FoldRank(clock: Clock, ps: seq<Policy>, c: Carried)
    requires ps != [] && FoldSame(clock, ps).Ok? && forall p | p in ps :: Carries(p, c)
    ensures var m := FoldSame(clock, ps).value;
            Carries(m, c) && exists p | p in ps :: RankOf(clock, m) == RankOf(clock, p)
  {
    if |ps| > 1 {
      var init, last := ps[..|ps| - 1], ps[|ps| - 1];
      assert last in ps;
      FoldRank(clock, init, c);
      var acc := FoldSame(clock, init).value;
      var p :| p in init && RankOf(clock, acc) == RankOf(clock, p);
      assert p in ps;
      var (lower, higher) := OrderByPrecedence(clock, acc, last);
      MergedRank(clock, lower, higher, c);
    } else {
      assert ps[0] in ps;
    }
  }

  /** The policy at `w` strictly outranks every other one. */
  predicate Best(clock: Clock, ps: seq<Policy>, w: nat)
  {
    w < |ps| && forall i | 0 <= i < |ps| && i != w :: Outranks(RankOf(clock, ps[w]), RankOf(clock, ps[i]))
  }

  /** Distinct ranks leave exactly one best policy. */
  lemma {:induction false} BestExists(clock: Clock, ps: seq<Policy>) returns (w: nat)
    requires ps != []
    requires forall i, j | 0 <= i < j < |ps| :: RankOf(clock, ps[i]) != RankOf(clock, ps[j])
    ensures Best(clock, ps, w)
  {
    if |ps| == 1 {
      w := 0;
    } else {
      var n := |ps| - 1;
      w := BestExists(clock, ps[..n]);
      var leader, last := RankOf(clock, ps[w]), RankOf(clock, ps[n]);
      OutranksIsStrictOrder(leader, last, last);
      if Outranks(last, leader) {
        forall i | 0 <= i < n ensures Outranks(last, RankOf(clock, ps[i])) {
          assert i != w ==> Outranks(RankOf(clock, ps[..n][w]), RankOf(clock, ps[..n][i]));
          OutranksIsStrictOrder(last, leader, RankOf(clock, ps[i]));
        }
        w := n;
      } else {
        forall i | 0 <= i < |ps| && i != w ensures Outranks(leader, RankOf(clock, ps[i])) {
          assert i < n ==> Outranks(RankOf(clock, ps[..n][w]), RankOf(clock, ps[..n][i]));
        }
      }
    }
  }

  /** Outside spec.override, or anywhere among direct policies, every value of the best policy
      survives, and the result ranks as the best policy does, wherever it stands in the list. */
  lemma {:induction false} BestPolicyWins(clock: Clock, ps: seq<Policy>, w: nat, c: Carried, path: Path)
    requires ps != [] && FoldSame(clock, ps).Ok? && Best(clock, ps, w)
    requires forall p | p in ps :: Carries(p, c)
    requires OutsideOverride(path) || forall p | p in ps :: !p.inherited
    ensures var m := FoldSame(clock, ps).value;
            && RankOf(clock, m) == RankOf(clock, ps[w])
            && (HasField(ps[w], path) ==> LeafAt(m.Doc(), path) == LeafAt(ps[w].Doc(), path))
            && ((forall p | p in ps :: !p.inherited) ==> !m.inherited)
    decreases |ps|
  {
    if |ps| > 1 {
      var n := |ps| - 1;
      var init, last := ps[..n], ps[n];
      assert last in ps;
      FoldRank(clock, init, c);
      var acc := FoldSame(clock, init).value;
      if w == n {
        var p :| p in init && RankOf(clock, acc) == RankOf(clock, p);
        InheritedFromSome(clock, init);
      } else {
        assert Best(clock, init, w);
        BestPolicyWins(clock, init, w, c, path);
      }
      KeepsHigher(clock, acc, last, c, path, if w == n then last else acc);
    }
  }

  lemma {:induction false} InheritedFromSome(clock: Clock, ps: seq<Policy>)
    requires ps != [] && FoldSame(clock, ps).Ok?
    ensures (forall p | p in ps :: !p.inherited) ==> !FoldSame(clock, ps).value.inherited
  {
    if |ps| > 1 {
      assert ps[|ps| - 1] in ps;
      InheritedFromSome(clock, ps[..|ps| - 1]);
    } else {
      assert ps[0] in ps;
    }
  }

  lemma KeepsHigher(clock: Clock, a: Policy, b: Policy, c: Carried, path: Path, higher: Policy)
    requires MergeSame(clock, a, b).Ok? && Carries(a, c) && Carries(b, c)
    requires higher == a || higher == b
    requires Outranks(RankOf(clock, higher), RankOf(clock, if higher == a then b else a))
    requires OutsideOverride(path) || (!a.inherited && !b.inherited)
    ensures var m := MergeSame(clock, a, b).value;
            && RankOf(clock, m) == RankOf(clock, higher) && Carries(m, c)
            && (HasField(higher, path) ==> LeafAt(m.Doc(), path) == LeafAt(higher.Doc(), path))
            && (!a.inherited && !b.inherited ==> !m.inherited)
  {
    OrderPutsHigherSecond(clock, a, b);
    OutranksIsStrictOrder(RankOf(clock, a), RankOf(clock, b), RankOf(clock, a));
    var (lo, hi) := OrderByPrecedence(clock, a, b);
    assert hi == higher;
    MergedRank(clock, lo, hi, c);
    ChildDecidesOutside(lo, hi, path);
    LeavesOfMerge(lo.Doc(), hi.Doc(), path);
  }
}
