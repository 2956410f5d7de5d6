/** When a list of policies of one level is resolved by rank. Models which order of the list
    gwctl/pkg/resourcediscovery/resourcemodel.go hands to gwctl/pkg/policymanager/merger.go. */
module RankedLists {
  import opened Wrappers
  import opened JsonMerge
  import opened Policies
  import opened Hierarchy
  import opened SameLevel
  import opened RankScan
  import opened LevelOrder
  import Text

  /** What gwctl passes on: one kind's policies of one resource sorted by namespace and name. If they
      are of one age, that is an order by rank. */
  lemma SortedByName(clock: Clock, ps: seq<Policy>, path: Path)
    requires forall i, j | 0 <= i < j < |ps| :: RankOf(clock, ps[i]).time == RankOf(clock, ps[j]).time
    requires forall i, j | 0 <= i < j < |ps| :: Text.Less(RankOf(clock, ps[i]).name, RankOf(clock, ps[j]).name)
    ensures Descending(Bids(clock, ps, path))
  {
    var bids := Bids(clock, ps, path);
    forall i, j | 0 <= i < j < |bids| ensures Outranks(bids[i].rank, bids[j].rank) {
      assert bids[i].rank == RankOf(clock, ps[i]) && bids[j].rank == RankOf(clock, ps[j]);
    }
  }

  /** The result at a path is that of a policy that no other policy with a value there outranks. */
  ghost predicate HighestWins(clock: Clock, ps: seq<Policy>, path: Path)
  {
    Highest(Bids(clock, ps, path), FoldLeaf(clock, ps, path))
  }

  ghost predicate RankedPriority(clock: Clock, ps: seq<Policy>, path: Path, higherDecides: bool)
  {
    var bids := Bids(clock, ps, path);
    Within(Priority(bids, higherDecides), |bids|) && ByRank(bids, Priority(bids, higherDecides))
  }

  /** Where the order of priority is by rank the highest rank wins, at every agreed path. */
  lemma RankedMeansHighest(clock: Clock, ps: seq<Policy>, kind: string, inherited: bool, c: Carried, path: Path)
    requires Candidates(ps, kind, inherited, c, path) && RankedPriority(clock, ps, path, HigherDecides(inherited, path))
    ensures HighestWins(clock, ps, path)
  {
    FoldScans(clock, ps, kind, inherited, c, path);
    ByRankTakesHighest(Bids(clock, ps, path), HigherDecides(inherited, path));
  }

  /** The policy with another spec, whose one section sets x or nothing. */
  function Respec(p: Policy, section: string, value: Option<int>): Policy
  {
    p.(content := p.content["spec" := Obj(map[section := Obj(Fields(value))])])
  }

  function Fields(value: Option<int>): map<string, Json>
  {
    if value.Some? then map["x" := Scalar(value.value)] else map[]
  }

  function RespecAll(ps: seq<Policy>, section: string, values: seq<Option<int>>): (qs: seq<Policy>)
    requires |values| == |ps|
    ensures |qs| == |ps|
  {
    seq(|ps|, i requires 0 <= i < |ps| => Respec(ps[i], section, values[i]))
  }

  function XPath(section: string): Path
  {
    SectionPath(section, ["x"])
  }

  /** Walking below a member of an object. */
  lemma ProbeBelow(j: Json, name: string, path: Path)
    requires j.Obj?
    ensures ProbeAt(j, [name] + path) == if name in j.fields then Deeper(ProbeAt(j.fields[name], path)) else Missing(0)
  {
    assert ([name] + path)[1..] == path;
  }

  lemma RespecProbe(p: Policy, section: string, value: Option<int>, other: string, path: Path)
    ensures ProbeAt(Respec(p, section, value).Doc(), SectionPath(other, path)) ==
            if other == section then Deeper(Deeper(ProbeAt(Obj(Fields(value)), path))) else Missing(1)
  {
    var doc := Respec(p, section, value).Doc();
    ProbeBelow(doc, "spec", [other] + path);
    ProbeBelow(doc.fields["spec"], other, path);
    assert ["spec"] + ([other] + path) == SectionPath(other, path);
  }

  lemma RespecElsewhere(p: Policy, section: string, value: Option<int>, path: Path)
    requires path != [] && path[0] != "spec"
    ensures ProbeAt(Respec(p, section, value).Doc(), path) == ProbeAt(p.Doc(), path)
    ensures NestedString(Respec(p, section, value).Doc(), path) == NestedString(p.Doc(), path)
  {
    SameProbeSameString(Respec(p, section, value).Doc(), p.Doc(), path);
  }

  lemma RespecKeepsKind(p: Policy, section: string, value: Option<int>)
    ensures Respec(p, section, value).CrdID() == p.CrdID()
    ensures Typed(p) ==> Typed(Respec(p, section, value))
  {
    RespecElsewhere(p, section, value, ["apiVersion"]);
    RespecElsewhere(p, section, value, ["kind"]);
  }

  lemma RespecNullFree(p: Policy, section: string, value: Option<int>)
    requires NullFree(p.Doc())
    ensures NullFree(Respec(p, section, value).Doc())
  {
    var doc := Respec(p, section, value).Doc();
    assert NullFree(doc.fields["spec"].fields[section]);
    assert NullFree(doc.fields["spec"]);
  }

  lemma RespecRegular(p: Policy, section: string, value: Option<int>, kind: string, inherited: bool)
    requires Regular(p, kind, inherited)
    ensures Regular(Respec(p, section, value), kind, inherited)
  {
    RespecKeepsKind(p, section, value);
    RespecNullFree(p, section, value);
    RespecProbe(p, section, value, "default", []);
    RespecProbe(p, section, value, "override", []);
  }

  lemma RespecRank(clock: Clock, p: Policy, section: string, value: Option<int>, c: Carried)
    ensures RankOf(clock, Respec(p, section, value)) == RankOf(clock, p)
    ensures Carries(p, c) ==> Carries(Respec(p, section, value), c)
  {
    RespecElsewhere(p, section, value, ["metadata", "creationTimestamp"]);
    RespecElsewhere(p, section, value, ["metadata", "namespace"]);
    RespecElsewhere(p, section, value, ["metadata", "name"]);
  }

  function LeafFor(value: Option<int>): Option<Json>
  {
    if value.Some? then Some(Scalar(value.value)) else None
  }

  lemma RespecValue(p: Policy, section: string, value: Option<int>)
    ensures ProbeAt(Respec(p, section, value).Doc(), XPath(section)) == if value.Some? then Stop(3, Scalar(value.value)) else Missing(2)
    ensures LeafOf(Respec(p, section, value), XPath(section)) == LeafFor(value)
  {
    RespecProbe(p, section, value, section, ["x"]);
  }

  ghost predicate Reusable(ps: seq<Policy>, kind: string, inherited: bool, c: Carried)
  {
    ps != [] && forall p | p in ps :: Regular(p, kind, inherited) && Carries(p, c)
  }

  /** Whatever values are put in, the policies keep their ranks and are candidates. */
  lemma RespecCandidates(clock: Clock, ps: seq<Policy>, section: string, values: seq<Option<int>>, kind: string, inherited: bool, c: Carried)
    requires Reusable(ps, kind, inherited, c) && |values| == |ps| && section in {"default", "override"}
    ensures Candidates(RespecAll(ps, section, values), kind, inherited, c, XPath(section))
    ensures var bids := Bids(clock, RespecAll(ps, section, values), XPath(section));
            forall i | 0 <= i < |ps| :: bids[i] == Bid(RankOf(clock, ps[i]), LeafFor(values[i]))
  {
    var qs, path := RespecAll(ps, section, values), XPath(section);
    forall i | 0 <= i < |ps|
      ensures Regular(qs[i], kind, inherited) && Carries(qs[i], c) && BidOf(clock, qs[i], path) == Bid(RankOf(clock, ps[i]), LeafFor(values[i]))
      ensures ProbeAt(qs[i].Doc(), path) == if values[i].Some? then Stop(3, Scalar(values[i].value)) else Missing(2)
    {
      assert ps[i] in ps;
      RespecRegular(ps[i], section, values[i], kind, inherited);
      RespecRank(clock, ps[i], section, values[i], c);
      RespecValue(ps[i], section, values[i]);
    }
  }

  /** Policies of given ranks are resolved by rank, whatever they hold, if and only if the order of
      priority of the list is by rank. */
  lemma HighestWinsIff(clock: Clock, ps: seq<Policy>, section: string, kind: string, inherited: bool, c: Carried)
    requires Reusable(ps, kind, inherited, c) && section in {"default", "override"}
    ensures RankedPriority(clock, ps, XPath(section), HigherDecides(inherited, XPath(section))) <==>
            forall values :: |values| == |ps| ==> HighestWins(clock, RespecAll(ps, section, values), XPath(section))
  {
    var path, higher := XPath(section), HigherDecides(inherited, XPath(section));
    PriorityPlaces(Bids(clock, ps, path), higher);
    if RankedPriority(clock, ps, path, higher) {
      forall values | |values| == |ps| ensures HighestWins(clock, RespecAll(ps, section, values), path) {
        RankedForAll(clock, ps, section, values, kind, inherited, c);
      }
    } else {
      var x, y := OutOfRank(Bids(clock, ps, path), higher);
      var values := seq(|ps|, k requires 0 <= k < |ps| => if k == x then Some(1) else if k == y then Some(2) else None);
      ShownByTwo(clock, ps, section, values, x, y, kind, inherited, c);
    }
  }

  lemma RankedForAll(clock: Clock, ps: seq<Policy>, section: string, values: seq<Option<int>>, kind: string, inherited: bool, c: Carried)
    requires Reusable(ps, kind, inherited, c) && section in {"default", "override"} && |values| == |ps|
    requires RankedPriority(clock, ps, XPath(section), HigherDecides(inherited, XPath(section)))
    ensures HighestWins(clock, RespecAll(ps, section, values), XPath(section))
  {
    var path, qs := XPath(section), RespecAll(ps, section, values);
    RespecCandidates(clock, ps, section, values, kind, inherited, c);
    assert SameRanks(Bids(clock, qs, path), Bids(clock, ps, path));
    HighestIff(Bids(clock, ps, path), HigherDecides(inherited, path));
    FoldScans(clock, qs, kind, inherited, c, path);
  }

  lemma ShownByTwo(clock: Clock, ps: seq<Policy>, section: string, values: seq<Option<int>>, x: nat, y: nat, kind: string, inherited: bool, c: Carried)
    requires Reusable(ps, kind, inherited, c) && section in {"default", "override"} && |values| == |ps|
    requires forall k | 0 <= k < |ps| :: values[k] == if k == x then Some(1) else if k == y then Some(2) else None
    requires var shown := OnlyTwo(Bids(clock, ps, XPath(section)), x, y); !Highest(shown, Scan(shown, HigherDecides(inherited, XPath(section))))
    ensures !HighestWins(clock, RespecAll(ps, section, values), XPath(section))
  {
    var path, qs := XPath(section), RespecAll(ps, section, values);
    RespecCandidates(clock, ps, section, values, kind, inherited, c);
    assert Bids(clock, qs, path) == OnlyTwo(Bids(clock, ps, path), x, y);
    FoldScans(clock, qs, kind, inherited, c, path);
  }
}
