/** Which policy of one level settles a path, and when the order of the list matters. Models the fold
    in MergePoliciesOfSimilarKind of gwctl/pkg/policymanager/merger.go.

    Each step of the fold hands the lower-ranked of two policies to the merge as the parent. Outside
    spec.override the child has the last word, so there the higher-ranked policy wins. Inside
    spec.override of inherited policies the parent has it, so there the lower-ranked policy wins. */
module LevelOrder {
  import opened Wrappers
  import opened JsonMerge
  import opened Policies
  import opened Hierarchy
  import opened PolicyMerger
  import opened SameLevel
  import opened EffectivePolicies
  import opened Sequences
  import opened RankScan

  // ----- Policies of one level and kind -----

  /** Whether the higher-ranked of two policies decides a path that both set. */
  predicate HigherDecides(inherited: bool, path: Path)
  {
    !inherited || OutsideOverride(path)
  }

  predicate Settled(inherited: bool, path: Path)
  {
    HigherDecides(inherited, path) || InOverride(path)
  }

  /** Everything the theorems below ask of a list: regular policies with the same rank fields that agree
      along the path on what is an object. */
  ghost predicate Candidates(ps: seq<Policy>, kind: string, inherited: bool, c: Carried, path: Path)
  {
    && ps != [] && Settled(inherited, path)
    && (forall p | p in ps :: Regular(p, kind, inherited) && Carries(p, c))
    && (forall p, q | p in ps && q in ps :: CompatibleAt(p, q, path))
  }

  lemma RegularMerge(lower: Policy, higher: Policy, kind: string, inherited: bool, path: Path)
    requires Regular(lower, kind, inherited) && Regular(higher, kind, inherited) && Settled(inherited, path)
    ensures MergePolicy(lower, higher).Ok?
    ensures var r := MergePolicy(lower, higher).value;
            var l, h := ProbeAt(lower.Doc(), path), ProbeAt(higher.Doc(), path);
            && Regular(r, kind, inherited)
            && ProbeAt(r.Doc(), path) == if HigherDecides(inherited, path) then Over(l, h) else ParentOver(l, h)
  {
    if !inherited {
      DirectMerge(lower, higher, path);
    } else {
      MergeSound(lower, higher);
      if OutsideOverride(path) {
        PlainOfMerge(lower, higher, path);
      } else {
        assert path == SectionPath("override", path[2..]);
        OverrideOfMerge(lower, higher, path[2..]);
      }
    }
  }

  lemma RegularNoNull(p: Policy, kind: string, inherited: bool, path: Path)
    requires Regular(p, kind, inherited)
    ensures NoNull(ProbeAt(p.Doc(), path))
  {
    NullFreeProbe(p.Doc(), path);
  }

  /** Where two documents agree, laying one over the other takes the upper leaf, else the lower one. */
  lemma LeafOfOver(t: Probe, p: Probe, path: Path)
    requires NoNull(p) && Agree(t, p)
    requires (p.Missing? ==> p.depth < |path|) && (t.Missing? ==> t.depth < |path|)
    ensures Leaf(Over(t, p), path) == if Leaf(p, path).Some? then Leaf(p, path) else Leaf(t, path)
    ensures NoNull(t) ==> Leaf(ParentOver(t, p), path) == if Leaf(t, path).Some? then Leaf(t, path) else Leaf(p, path)
  {
  }

  lemma OverAgrees(t: Probe, p: Probe, x: Probe)
    requires NoNull(t) && NoNull(p) && Agree(t, p) && Agree(t, x) && Agree(p, x)
    ensures Agree(Over(t, p), x) && Agree(ParentOver(t, p), x)
  {
  }

  /** The fold of regular policies is regular, and agrees with whatever all of them agree with. */
  lemma {:induction false} FoldRegular(clock: Clock, ps: seq<Policy>, kind: string, inherited: bool, path: Path, x: Probe)
    requires ps != [] && Settled(inherited, path) && forall p | p in ps :: Regular(p, kind, inherited)
    requires forall p, q | p in ps && q in ps :: CompatibleAt(p, q, path)
    requires forall p | p in ps :: Agree(ProbeAt(p.Doc(), path), x)
    ensures FoldSame(clock, ps).Ok?
    ensures var m := FoldSame(clock, ps).value; Regular(m, kind, inherited) && Agree(ProbeAt(m.Doc(), path), x)
    decreases |ps|
  {
    if |ps| == 1 {
      assert ps[0] in ps;
    } else {
      var init, last := ps[..|ps| - 1], ps[|ps| - 1];
      assert last in ps;
      forall p | p in init ensures Agree(ProbeAt(p.Doc(), path), ProbeAt(last.Doc(), path)) {
        assert CompatibleAt(p, last, path);
      }
      FoldRegular(clock, init, kind, inherited, path, ProbeAt(last.Doc(), path));
      FoldRegular(clock, init, kind, inherited, path, x);
      StepRegular(clock, FoldSame(clock, init).value, last, kind, inherited, path, x);
    }
  }

  lemma StepRegular(clock: Clock, a: Policy, b: Policy, kind: string, inherited: bool, path: Path, x: Probe)
    requires Regular(a, kind, inherited) && Regular(b, kind, inherited) && Settled(inherited, path) && CompatibleAt(a, b, path)
    requires Agree(ProbeAt(a.Doc(), path), x) && Agree(ProbeAt(b.Doc(), path), x)
    ensures MergeSame(clock, a, b).Ok?
    ensures var m := MergeSame(clock, a, b).value; Regular(m, kind, inherited) && Agree(ProbeAt(m.Doc(), path), x)
  {
    OrderPutsHigherSecond(clock, a, b);
    var (lower, higher) := OrderByPrecedence(clock, a, b);
    RegularMerge(lower, higher, kind, inherited, path);
    RegularNoNull(a, kind, inherited, path);
    RegularNoNull(b, kind, inherited, path);
    OverAgrees(ProbeAt(lower.Doc(), path), ProbeAt(higher.Doc(), path), x);
  }

  // ----- The fold is a scan -----

  function LeafOf(p: Policy, path: Path): Option<Json>
  {
    LeafAt(p.Doc(), path)
  }

  function BidOf(clock: Clock, p: Policy, path: Path): Bid
  {
    Bid(RankOf(clock, p), LeafOf(p, path))
  }

  function Bidder(clock: Clock, path: Path): Policy -> Bid
  {
    (p: Policy) => BidOf(clock, p, path)
  }

  function Bids(clock: Clock, ps: seq<Policy>, path: Path): (bids: seq<Bid>)
    ensures |bids| == |ps|
  {
    Image(ps, Bidder(clock, path))
  }

  lemma OrderIs(clock: Clock, a: Policy, b: Policy)
    ensures OrderByPrecedence(clock, a, b) == if Outranks(RankOf(clock, a), RankOf(clock, b)) then (b, a) else (a, b)
  {
  }

  lemma NotAbove(a: Rank, b: Rank, c: Rank)
    requires !Outranks(a, b) && !Outranks(b, c)
    ensures !Outranks(a, c)
  {
    OutranksIsStrictOrder(a, b, c);
    OutranksIsStrictOrder(b, a, c);
  }

  predicate NoneAbove(clock: Clock, ps: seq<Policy>, r: Rank)
  {
    forall p | p in ps :: !Outranks(RankOf(clock, p), r)
  }

  lemma NoneAboveMore(clock: Clock, ps: seq<Policy>, acc: Rank, r: Rank)
    requires ps != [] && NoneAbove(clock, ps[..|ps| - 1], acc) && !Outranks(acc, r) && !Outranks(RankOf(clock, ps[|ps| - 1]), r)
    ensures NoneAbove(clock, ps, r)
  {
    forall p | p in ps ensures !Outranks(RankOf(clock, p), r) {
      if p in ps[..|ps| - 1] {
        NotAbove(RankOf(clock, p), acc, r);
      }
    }
  }

  lemma {:induction false} FoldTopStep(clock: Clock, ps: seq<Policy>, acc: Policy, m: Policy, c: Carried)
    requires ps != [] && Carries(acc, c) && Carries(ps[|ps| - 1], c)
    requires NoneAbove(clock, ps[..|ps| - 1], RankOf(clock, acc)) && MergeSame(clock, acc, ps[|ps| - 1]) == Ok(m)
    ensures NoneAbove(clock, ps, RankOf(clock, m))
  {
    StepTop(clock, acc, ps[|ps| - 1], c);
    NoneAboveMore(clock, ps, RankOf(clock, acc), RankOf(clock, m));
  }

  lemma OneAlone(clock: Clock, p: Policy)
    ensures NoneAbove(clock, [p], RankOf(clock, p))
  {
    OutranksIsStrictOrder(RankOf(clock, p), RankOf(clock, p), RankOf(clock, p));
  }

  /** No policy outranks the fold. */
  lemma {:induction false} FoldTop(clock: Clock, ps: seq<Policy>, c: Carried)
    requires ps != [] && FoldSame(clock, ps).Ok? && forall p | p in ps :: Carries(p, c)
    ensures NoneAbove(clock, ps, RankOf(clock, FoldSame(clock, ps).value))
  {
    if |ps| == 1 {
      OneAlone(clock, ps[0]);
      assert ps == [ps[0]];
    } else {
      var init := ps[..|ps| - 1];
      assert ps[|ps| - 1] in ps;
      FoldTop(clock, init, c);
      FoldRank(clock, init, c);
      FoldTopStep(clock, ps, FoldSame(clock, init).value, FoldSame(clock, ps).value, c);
    }
  }

  lemma StepTop(clock: Clock, acc: Policy, last: Policy, c: Carried)
    requires MergeSame(clock, acc, last).Ok? && Carries(acc, c) && Carries(last, c)
    ensures var m := RankOf(clock, MergeSame(clock, acc, last).value);
            !Outranks(RankOf(clock, acc), m) && !Outranks(RankOf(clock, last), m)
  {
    OrderIs(clock, acc, last);
    var (lower, higher) := OrderByPrecedence(clock, acc, last);
    MergedRank(clock, lower, higher, c);
    OutranksIsStrictOrder(RankOf(clock, acc), RankOf(clock, last), RankOf(clock, acc));
    OutranksIsStrictOrder(RankOf(clock, higher), RankOf(clock, higher), RankOf(clock, higher));
  }

  /** The exact value at every agreed path, for every list of candidates, equal ranks included. */
  lemma {:induction false} FoldScans(clock: Clock, ps: seq<Policy>, kind: string, inherited: bool, c: Carried, path: Path)
    requires Candidates(ps, kind, inherited, c, path)
    ensures FoldSame(clock, ps).Ok?
    ensures LeafOf(FoldSame(clock, ps).value, path) == Scan(Bids(clock, ps, path), HigherDecides(inherited, path))
    decreases |ps|
  {
    var n := |ps| - 1;
    var init, last := ps[..n], ps[n];
    assert last in ps;
    if n == 0 {
      OnlyBid(BidOf(clock, last, path), HigherDecides(inherited, path));
      assert Bids(clock, ps, path) == [BidOf(clock, last, path)];
    } else {
      FoldScans(clock, init, kind, inherited, c, path);
      forall p | p in init ensures Agree(ProbeAt(p.Doc(), path), ProbeAt(last.Doc(), path)) {
        assert CompatibleAt(p, last, path);
      }
      FoldRegular(clock, init, kind, inherited, path, ProbeAt(last.Doc(), path));
      ScanStep(clock, ps, FoldSame(clock, init).value, kind, inherited, c, path);
    }
  }

  lemma {:induction false} ScanStep(clock: Clock, ps: seq<Policy>, acc: Policy, kind: string, inherited: bool, c: Carried, path: Path)
    requires |ps| > 1 && FoldSame(clock, ps[..|ps| - 1]) == Ok(acc) && forall p | p in ps :: Carries(p, c)
    requires Regular(acc, kind, inherited) && Regular(ps[|ps| - 1], kind, inherited) && Settled(inherited, path)
    requires CompatibleAt(acc, ps[|ps| - 1], path)
    requires LeafOf(acc, path) == Scan(Bids(clock, ps[..|ps| - 1], path), HigherDecides(inherited, path))
    ensures MergeSame(clock, acc, ps[|ps| - 1]).Ok?
    ensures LeafOf(MergeSame(clock, acc, ps[|ps| - 1]).value, path) == Scan(Bids(clock, ps, path), HigherDecides(inherited, path))
  {
    LeadsTheFold(clock, ps, c, path);
    StepLeaf(clock, acc, ps[|ps| - 1], kind, inherited, path);
    BidsSnoc(clock, ps, path);
  }

  lemma BidsSnoc(clock: Clock, ps: seq<Policy>, path: Path)
    requires ps != []
    ensures var bids := Bids(clock, ps, path);
            bids[..|ps| - 1] == Bids(clock, ps[..|ps| - 1], path) && bids[|ps| - 1] == BidOf(clock, ps[|ps| - 1], path)
  {
  }

  /** The last policy leads exactly when the fold of the others does not outrank it. */
  lemma LeadsTheFold(clock: Clock, ps: seq<Policy>, c: Carried, path: Path)
    requires |ps| > 1 && FoldSame(clock, ps[..|ps| - 1]).Ok? && forall p | p in ps :: Carries(p, c)
    ensures Leads(Bids(clock, ps, path), |ps| - 1) <==>
            !Outranks(RankOf(clock, FoldSame(clock, ps[..|ps| - 1]).value), RankOf(clock, ps[|ps| - 1]))
  {
    var n := |ps| - 1;
    var init := ps[..n];
    FoldTop(clock, init, c);
    FoldRank(clock, init, c);
    var acc, last := RankOf(clock, FoldSame(clock, init).value), RankOf(clock, ps[n]);
    var bids := Bids(clock, ps, path);
    if Leads(bids, n) {
      var p :| p in init && acc == RankOf(clock, p);
      var i :| 0 <= i < n && init[i] == p;
      assert bids[i].rank == acc;
    } else if !Outranks(acc, last) {
      forall i | 0 <= i < n ensures !Outranks(bids[i].rank, last) {
        assert init[i] in init;
        NotAbove(RankOf(clock, init[i]), acc, last);
      }
    }
  }

  lemma StepLeaf(clock: Clock, acc: Policy, last: Policy, kind: string, inherited: bool, path: Path)
    requires Regular(acc, kind, inherited) && Regular(last, kind, inherited) && Settled(inherited, path) && CompatibleAt(acc, last, path)
    ensures MergeSame(clock, acc, last).Ok?
    ensures LeafOf(MergeSame(clock, acc, last).value, path) ==
            if !Outranks(RankOf(clock, acc), RankOf(clock, last)) == HigherDecides(inherited, path)
            then Either(LeafOf(last, path), LeafOf(acc, path)) else Either(LeafOf(acc, path), LeafOf(last, path))
  {
    OrderIs(clock, acc, last);
    var (lower, higher) := OrderByPrecedence(clock, acc, last);
    RegularMerge(lower, higher, kind, inherited, path);
    RegularNoNull(acc, kind, inherited, path);
    RegularNoNull(last, kind, inherited, path);
    LeafOfOver(ProbeAt(lower.Doc(), path), ProbeAt(higher.Doc(), path), path);
  }

  function FoldLeaf(clock: Clock, ps: seq<Policy>, path: Path): Option<Json>
  {
    if ps == [] || FoldSame(clock, ps).Err? then None else LeafOf(FoldSame(clock, ps).value, path)
  }

  /** The result at every agreed path, as an order of priority among the policies. */
  lemma FoldByPriority(clock: Clock, ps: seq<Policy>, kind: string, inherited: bool, c: Carried, path: Path)
    requires Candidates(ps, kind, inherited, c, path)
    ensures var bids, higher := Bids(clock, ps, path), HigherDecides(inherited, path);
            Within(Priority(bids, higher), |bids|) && FoldLeaf(clock, ps, path) == FirstSet(bids, Priority(bids, higher))
  {
    FoldScans(clock, ps, kind, inherited, c, path);
    ScanByPriority(Bids(clock, ps, path), HigherDecides(inherited, path));
  }

  /** Among policies of equal rank the last in the list comes first where the higher-ranked decide, and
      the first in the list inside spec.override of inherited policies. */
  lemma EqualRanksDecide(clock: Clock, ps: seq<Policy>, kind: string, inherited: bool, c: Carried, path: Path)
    requires Candidates(ps, kind, inherited, c, path) && EqualRanks(Bids(clock, ps, path))
    ensures var bids, places := Bids(clock, ps, path), Upwards(|ps|);
            && Within(places, |bids|) && Within(Reversed(places), |bids|)
            && FoldLeaf(clock, ps, path) == FirstSet(bids, if HigherDecides(inherited, path) then Reversed(places) else places)
  {
    FoldByPriority(clock, ps, kind, inherited, c, path);
    EqualRanksPriority(Bids(clock, ps, path));
  }

  /** In a list by rank the highest rank comes first where the higher-ranked decide, and the lowest
      inside spec.override of inherited policies. */
  lemma ListByRankDecides(clock: Clock, ps: seq<Policy>, kind: string, inherited: bool, c: Carried, path: Path)
    requires Candidates(ps, kind, inherited, c, path) && Descending(Bids(clock, ps, path))
    ensures var bids, places := Bids(clock, ps, path), Upwards(|ps|);
            && Within(places, |bids|) && Within(Reversed(places), |bids|)
            && FoldLeaf(clock, ps, path) == FirstSet(bids, if HigherDecides(inherited, path) then places else Reversed(places))
  {
    FoldByPriority(clock, ps, kind, inherited, c, path);
    DescendingPriority(Bids(clock, ps, path));
  }

  // ----- Orders of one list -----

  /** Every order of the list gives the same value at the path. */
  ghost predicate OrdersAgree(clock: Clock, ps: seq<Policy>, path: Path)
  {
    forall qs :: multiset(qs) == multiset(ps) ==> FoldLeaf(clock, qs, path) == FoldLeaf(clock, ps, path)
  }

  lemma ReorderedScan(clock: Clock, ps: seq<Policy>, qs: seq<Policy>, kind: string, inherited: bool, c: Carried, path: Path)
    requires Candidates(ps, kind, inherited, c, path) && multiset(ps) == multiset(qs)
    ensures FoldLeaf(clock, qs, path) == Scan(Bids(clock, qs, path), HigherDecides(inherited, path))
    ensures multiset(Bids(clock, qs, path)) == multiset(Bids(clock, ps, path))
  {
    SameMembers(ps, qs);
    assert ps[0] in qs;
    FoldScans(clock, qs, kind, inherited, c, path);
    ImagePermuted(ps, qs, Bidder(clock, path));
  }

  /** All orders of a list agree at a path if and only if the policies that settle it agree. Where the
      higher-ranked decide these are the policies of the highest rank if one of them sets the path, and
      otherwise all others; inside spec.override of inherited policies they are those of lower rank if one
      of them sets the path, and otherwise those of the highest rank. */
  lemma OrdersAgreeIff(clock: Clock, ps: seq<Policy>, kind: string, inherited: bool, c: Carried, path: Path, r: Rank)
    requires Candidates(ps, kind, inherited, c, path) && TopRank(Bids(clock, ps, path), r)
    ensures var bids := Bids(clock, ps, path);
            OrdersAgree(clock, ps, path) <==> ClassAgrees(bids, r, TopSettles(bids, r, HigherDecides(inherited, path)))
  {
    var bids, higher := Bids(clock, ps, path), HigherDecides(inherited, path);
    RankScan.OrdersAgreeIff(bids, r, higher);
    ReorderedScan(clock, ps, ps, kind, inherited, c, path);
    if ClassAgrees(bids, r, TopSettles(bids, r, higher)) {
      forall qs | multiset(qs) == multiset(ps) ensures FoldLeaf(clock, qs, path) == FoldLeaf(clock, ps, path) {
        ReorderedScan(clock, ps, qs, kind, inherited, c, path);
      }
    } else {
      var order :| multiset(order) == multiset(bids) && Scan(order, higher) != Scan(bids, higher);
      var qs := PermutationBehind(ps, Bidder(clock, path), order);
      ReorderedScan(clock, ps, qs, kind, inherited, c, path);
    }
  }

  // ----- Overrides of one level -----

  /** Every order of the list keeps the override value of a policy that outranks all others if and only
      if no other policy sets a different one. */
  lemma BestOverrideKeptIff(clock: Clock, ps: seq<Policy>, best: Policy, kind: string, c: Carried, path: Path)
    requires Candidates(ps, kind, true, c, path) && InOverride(path) && LeafOf(best, path).Some?
    requires best in ps && forall p | p in ps && p != best :: Outranks(RankOf(clock, best), RankOf(clock, p))
    ensures (forall qs :: multiset(qs) == multiset(ps) ==> FoldLeaf(clock, qs, path) == LeafOf(best, path)) <==>
            forall p | p in ps && LeafOf(p, path).Some? :: LeafOf(p, path) == LeafOf(best, path)
  {
    if forall p | p in ps && LeafOf(p, path).Some? :: LeafOf(p, path) == LeafOf(best, path) {
      forall qs | multiset(qs) == multiset(ps) ensures FoldLeaf(clock, qs, path) == LeafOf(best, path) {
        OnlyValueKept(clock, ps, qs, best, kind, c, path);
      }
    } else {
      var x :| x in ps && LeafOf(x, path).Some? && LeafOf(x, path) != LeafOf(best, path);
      var qs := LastInOrder(clock, ps, best, x, kind, c, path);
      assert multiset(qs) == multiset(ps);
    }
  }

  lemma OnlyValueKept(clock: Clock, ps: seq<Policy>, qs: seq<Policy>, best: Policy, kind: string, c: Carried, path: Path)
    requires Candidates(ps, kind, true, c, path) && multiset(qs) == multiset(ps) && best in ps && LeafOf(best, path).Some?
    requires forall p | p in ps && LeafOf(p, path).Some? :: LeafOf(p, path) == LeafOf(best, path)
    ensures FoldLeaf(clock, qs, path) == LeafOf(best, path)
  {
    ReorderedScan(clock, ps, qs, kind, true, c, path);
    SameMembers(ps, qs);
    var bids := Bids(clock, qs, path);
    ScanMeets(bids, HigherDecides(true, path));
    forall b | b in bids ensures exists p | p in ps :: b == BidOf(clock, p, path) {
      var i :| 0 <= i < |bids| && bids[i] == b;
      assert qs[i] in ps;
    }
    var i :| 0 <= i < |qs| && qs[i] == best;
    assert bids[i] in bids;
  }

  /** Inside spec.override the last policy of the list decides, unless it is silent or no earlier one
      outranks it. So the value of the best policy can also come back through a later one that sets it too. */
  lemma LastOverrideDecides(clock: Clock, ps: seq<Policy>, kind: string, c: Carried, path: Path)
    requires Candidates(ps, kind, true, c, path) && InOverride(path)
    requires LeafOf(ps[|ps| - 1], path).Some? && !Leads(Bids(clock, ps, path), |ps| - 1)
    ensures FoldLeaf(clock, ps, path) == LeafOf(ps[|ps| - 1], path)
  {
    LastFolded(clock, ps, kind, c, path, HigherDecides(true, path));
  }

  lemma LastFolded(clock: Clock, ps: seq<Policy>, kind: string, c: Carried, path: Path, higherDecides: bool)
    requires Candidates(ps, kind, true, c, path) && higherDecides == HigherDecides(true, path)
    requires LeafOf(ps[|ps| - 1], path).Some? && Leads(Bids(clock, ps, path), |ps| - 1) == higherDecides
    ensures FoldLeaf(clock, ps, path) == LeafOf(ps[|ps| - 1], path)
  {
    FoldScans(clock, ps, kind, true, c, path);
    LastBid(clock, ps, path, higherDecides);
  }

  lemma LastBid(clock: Clock, ps: seq<Policy>, path: Path, higherDecides: bool)
    requires ps != [] && LeafOf(ps[|ps| - 1], path).Some? && Leads(Bids(clock, ps, path), |ps| - 1) == higherDecides
    ensures Scan(Bids(clock, ps, path), higherDecides) == LeafOf(ps[|ps| - 1], path)
  {
    LastDecides(Bids(clock, ps, path), higherDecides);
  }

  lemma LastInOrder(clock: Clock, ps: seq<Policy>, best: Policy, x: Policy, kind: string, c: Carried, path: Path) returns (qs: seq<Policy>)
    requires Candidates(ps, kind, true, c, path) && InOverride(path) && x in ps && LeafOf(x, path).Some?
    requires best in ps && best != x && Outranks(RankOf(clock, best), RankOf(clock, x))
    ensures multiset(qs) == multiset(ps) && FoldLeaf(clock, qs, path) == LeafOf(x, path)
  {
    var rest := TakeOut(ps, x);
    qs := rest + [x];
    SameMembers(ps, qs);
    var i :| 0 <= i < |qs| && qs[i] == best;
    var bids := Bids(clock, qs, path);
    assert Outranks(bids[i].rank, bids[|qs| - 1].rank);
    LastOverrideDecides(clock, qs, kind, c, path);
  }

  /** Of two inherited policies of one level the outranked one's override is effective, in either
      order: conflict resolution is turned around for overrides. */
  lemma OutrankedOverrideIsEffective(clock: Clock, a: Policy, b: Policy, path: Path)
    requires Sound(a) && Sound(b) && a.CrdID() == b.CrdID() && Outranks(RankOf(clock, a), RankOf(clock, b))
    requires LeafOf(b, SectionPath("override", path)).Some?
    ensures MergeSame(clock, a, b).Ok? && MergeSame(clock, b, a) == MergeSame(clock, a, b)
    ensures MergeSame(clock, a, b).value.EffectiveSpec().Ok?
    ensures SpecLeaf(MergeSame(clock, a, b).value.EffectiveSpec().value, path) == LeafOf(b, SectionPath("override", path))
  {
    OutranksIsStrictOrder(RankOf(clock, a), RankOf(clock, b), RankOf(clock, a));
    OrderPutsHigherSecond(clock, a, b);
    assert OrderByPrecedence(clock, a, b) == (b, a);
    MergeSound(b, a);
    MergedPolicyLeaves(b, a, SectionPath("override", path));
    EffectiveLeaf(MergePolicy(b, a).value, path);
  }
}
