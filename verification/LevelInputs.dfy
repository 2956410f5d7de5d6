/** Concrete policies of one level on which overrides of outranked policies, the order of the list and
    returning values show. */
module LevelInputs {
  import opened Wrappers
  import opened JsonMerge
  import opened Policies
  import opened Hierarchy
  import opened SameLevel
  import opened RankScan
  import opened LevelOrder
  import opened RankedLists
  import Text

  const ALL_CARRIED := Carried(true, true, true)

  const AGE := "2024-01-01T00:00:00Z"

  /** An inherited policy of a given name without a spec. */
  function Bare(name: string): Policy
  {
    var metadata := map["creationTimestamp" := Str(AGE), "namespace" := Str("ns"), "name" := Str(name)];
    Policy(map["apiVersion" := Str("example.com/v1"), "kind" := Str("RetryPolicy"), "metadata" := Obj(metadata)], NO_REF, true)
  }

  lemma BareMetadata(name: string, field: string)
    requires field in {"creationTimestamp", "namespace", "name"}
    ensures var text := if field == "name" then name else if field == "namespace" then "ns" else AGE;
            ProbeAt(Bare(name).Doc(), ["metadata", field]) == Stop(2, Str(text)) && NestedString(Bare(name).Doc(), ["metadata", field]) == text
  {
    var doc := Bare(name).Doc();
    ProbeBelow(doc, "metadata", [field]);
    ProbeBelow(doc.fields["metadata"], field, []);
    assert ["metadata"] + [field] == ["metadata", field] && [field] + [] == [field];
    NestedFieldByProbe(doc, ["metadata", field]);
  }

  lemma BareRank(clock: Clock, name: string)
    ensures RankOf(clock, Bare(name)) == Rank(clock(AGE), "ns/" + name) && Carries(Bare(name), ALL_CARRIED)
  {
    BareMetadata(name, "creationTimestamp");
    BareMetadata(name, "namespace");
    BareMetadata(name, "name");
  }

  lemma BareKind(name: string)
    ensures Bare(name).CrdID() == Bare("").CrdID() && Typed(Bare(name))
  {
    SameProbeSameString(Bare(name).Doc(), Bare("").Doc(), ["apiVersion"]);
    SameProbeSameString(Bare(name).Doc(), Bare("").Doc(), ["kind"]);
  }

  lemma BareRegular(name: string)
    ensures Regular(Bare(name), Bare("").CrdID(), true)
  {
    BareKind(name);
    BareNullFree(name);
    BareSection(name, "default");
    BareSection(name, "override");
  }

  lemma BareSection(name: string, section: string)
    ensures ProbeAt(Bare(name).Doc(), SectionPath(section, [])) == Missing(0)
  {
    assert SectionPath(section, [])[0] == "spec";
  }

  lemma BareNullFree(name: string)
    ensures NullFree(Bare(name).Doc())
  {
    assert NullFree(Bare(name).Doc().fields["metadata"]);
  }

  /** Policies of one age with these names, that set x in one section to these values or not at all. */
  function Samples(names: seq<string>, section: string, values: seq<Option<int>>): seq<Policy>
    requires |values| == |names|
  {
    RespecAll(BareAll(names), section, values)
  }

  function BareAll(names: seq<string>): (ps: seq<Policy>)
    ensures |ps| == |names|
  {
    seq(|names|, i requires 0 <= i < |names| => Bare(names[i]))
  }

  lemma BareReusable(clock: Clock, names: seq<string>)
    requires names != []
    ensures Reusable(BareAll(names), Bare("").CrdID(), true, ALL_CARRIED)
    ensures forall i | 0 <= i < |names| :: RankOf(clock, BareAll(names)[i]) == Rank(clock(AGE), "ns/" + names[i])
  {
    forall i | 0 <= i < |names|
      ensures var p := BareAll(names)[i];
              Regular(p, Bare("").CrdID(), true) && Carries(p, ALL_CARRIED) && RankOf(clock, p) == Rank(clock(AGE), "ns/" + names[i])
    {
      BareRegular(names[i]);
      BareRank(clock, names[i]);
    }
  }

  function Offers(time: int, names: seq<string>, values: seq<Option<int>>): (bids: seq<Bid>)
    requires |values| == |names|
    ensures |bids| == |names|
  {
    seq(|names|, i requires 0 <= i < |names| => Offer(time, names[i], values[i]))
  }

  function Offer(time: int, name: string, value: Option<int>): Bid
  {
    Bid(Rank(time, "ns/" + name), LeafFor(value))
  }

  /** What the samples come to: candidates with the given values, ranked by their names. */
  lemma SampleBids(clock: Clock, names: seq<string>, section: string, values: seq<Option<int>>)
    requires |values| == |names| > 0 && section in {"default", "override"}
    ensures var ps := Samples(names, section, values);
            && Candidates(ps, Bare("").CrdID(), true, ALL_CARRIED, XPath(section))
            && Bids(clock, ps, XPath(section)) == Offers(clock(AGE), names, values)
            && FoldLeaf(clock, ps, XPath(section)) == Scan(Offers(clock(AGE), names, values), HigherDecides(true, XPath(section)))
  {
    BareReusable(clock, names);
    RespecCandidates(clock, BareAll(names), section, values, Bare("").CrdID(), true, ALL_CARRIED);
    FoldScans(clock, Samples(names, section, values), Bare("").CrdID(), true, ALL_CARRIED, XPath(section));
  }

  lemma NameRanks(time: int, first: string, second: string)
    requires |first| == |second| == 1 && first[0] < second[0]
    ensures Outranks(Rank(time, "ns/" + first), Rank(time, "ns/" + second)) && !Outranks(Rank(time, "ns/" + second), Rank(time, "ns/" + first))
  {
    Text.LessBehind("ns/", first, second);
    OutranksIsStrictOrder(Rank(time, "ns/" + first), Rank(time, "ns/" + second), Rank(time, "ns/" + first));
  }

  lemma OfThree(time: int, names: seq<string>, values: seq<Option<int>>)
    requires |names| == |values| == 3
    ensures Offers(time, names, values) == [Offer(time, names[0], values[0]), Offer(time, names[1], values[1]), Offer(time, names[2], values[2])]
  {
  }

  lemma OfTwo(clock: Clock, ps: seq<Policy>, kind: string, c: Carried, path: Path, a: Bid, b: Bid)
    requires Candidates(ps, kind, true, c, SectionPath("override", path)) && Bids(clock, ps, SectionPath("override", path)) == [a, b]
    requires Outranks(a.rank, b.rank) && b.leaf.Some?
    ensures OutrankedTakesEffect(clock, ps, path, b.leaf)
  {
    assert ps[0] in ps && ps[1] in ps;
    assert [a, b][0] == BidOf(clock, ps[0], SectionPath("override", path)) && [a, b][1] == BidOf(clock, ps[1], SectionPath("override", path));
    OutrankedOverrideIsEffective(clock, ps[0], ps[1], path);
  }

  /** The first of two policies outranks the second, and merging them in either order puts this value
      into effect. */
  ghost predicate OutrankedTakesEffect(clock: Clock, ps: seq<Policy>, path: Path, value: Option<Json>)
  {
    && |ps| == 2 && Outranks(RankOf(clock, ps[0]), RankOf(clock, ps[1]))
    && MergeSame(clock, ps[0], ps[1]).Ok? && MergeSame(clock, ps[1], ps[0]) == MergeSame(clock, ps[0], ps[1])
    && MergeSame(clock, ps[0], ps[1]).value.EffectiveSpec().Ok?
    && SpecLeaf(MergeSame(clock, ps[0], ps[1]).value.EffectiveSpec().value, path) == value
  }

  /** a outranks b, both override x, and what takes effect is b's value, in either order. */
  lemma OverrideOfTheOutranked(clock: Clock)
    ensures OutrankedTakesEffect(clock, Samples(["a", "b"], "override", [Some(1), Some(2)]), ["x"], Some(Scalar(2)))
  {
    var ps, time := Samples(["a", "b"], "override", [Some(1), Some(2)]), clock(AGE);
    SampleBids(clock, ["a", "b"], "override", [Some(1), Some(2)]);
    NameRanks(time, "a", "b");
    assert Offers(time, ["a", "b"], [Some(1), Some(2)]) == [Offer(time, "a", Some(1)), Offer(time, "b", Some(2))];
    OfTwo(clock, ps, Bare("").CrdID(), ALL_CARRIED, ["x"], Offer(time, "a", Some(1)), Offer(time, "b", Some(2)));
  }

  /** a, b and c in order of rank: a does not set the default x, b sets 1 and c sets 2. The list
      b, c, a yields 1 and the list a, c, b yields 2. */
  lemma OrderShows(clock: Clock)
    ensures var ps := Samples(["b", "c", "a"], "default", [Some(1), Some(2), None]);
            FoldLeaf(clock, ps, XPath("default")) == Some(Scalar(1)) && FoldLeaf(clock, [ps[2], ps[1], ps[0]], XPath("default")) == Some(Scalar(2))
  {
    BackToFront("b", "c", "a", "default", Some(1), Some(2), None);
    DefaultOf(clock, ["b", "c", "a"], [Some(1), Some(2), None]);
    DefaultOf(clock, ["a", "c", "b"], [None, Some(2), Some(1)]);
    RanksOfThree(clock(AGE));
  }

  lemma BackToFront(a: string, b: string, c: string, section: string, x: Option<int>, y: Option<int>, z: Option<int>)
    ensures var ps := Samples([a, b, c], section, [x, y, z]);
            Samples([c, b, a], section, [z, y, x]) == [ps[2], ps[1], ps[0]]
  {
  }

  lemma DefaultOf(clock: Clock, names: seq<string>, values: seq<Option<int>>)
    requires |names| == |values| == 3
    ensures var a, b, c := Offer(clock(AGE), names[0], values[0]), Offer(clock(AGE), names[1], values[1]), Offer(clock(AGE), names[2], values[2]);
            var two := if !Outranks(a.rank, b.rank) then Either(b.leaf, a.leaf) else Either(a.leaf, b.leaf);
            var leads := !Outranks(a.rank, c.rank) && !Outranks(b.rank, c.rank);
            FoldLeaf(clock, Samples(names, "default", values), XPath("default")) == if leads then Either(c.leaf, two) else Either(two, c.leaf)
  {
    var time := clock(AGE);
    SampleBids(clock, names, "default", values);
    OfThree(time, names, values);
    ScanOfThree(Offer(time, names[0], values[0]), Offer(time, names[1], values[1]), Offer(time, names[2], values[2]), true);
  }

  /** a, b and c in order of rank override x with 1, 2 and 1. The list a, b, c yields a's value,
      although b sets a different one: it comes back through c. */
  lemma BestValueComesBack(clock: Clock)
    ensures FoldLeaf(clock, Samples(["a", "b", "c"], "override", [Some(1), Some(2), Some(1)]), XPath("override")) == Some(Scalar(1))
  {
    var time := clock(AGE);
    RanksOfThree(time);
    SampleBids(clock, ["a", "b", "c"], "override", [Some(1), Some(2), Some(1)]);
    OfThree(time, ["a", "b", "c"], [Some(1), Some(2), Some(1)]);
    ScanOfThree(Offer(time, "a", Some(1)), Offer(time, "b", Some(2)), Offer(time, "c", Some(1)), false);
  }

  lemma RanksOfThree(time: int)
    ensures var a, b, c := Rank(time, "ns/" + "a"), Rank(time, "ns/" + "b"), Rank(time, "ns/" + "c");
            && Outranks(a, b) && Outranks(a, c) && Outranks(b, c) && !Outranks(b, a) && !Outranks(c, a) && !Outranks(c, b)
  {
    NameRanks(time, "a", "b");
    NameRanks(time, "b", "c");
    NameRanks(time, "a", "c");
  }
}
