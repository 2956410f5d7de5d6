/** Which of several ranked policies settles a path when they are folded in list order, in the
    abstract: each policy is reduced to its rank and the value it sets, if any. */
module RankScan {
  import opened Wrappers
  import opened JsonMerge
  import opened SameLevel
  import opened Sequences

  datatype Bid = Bid(rank: Rank, leaf: Option<Json>)

  /** No earlier bid outranks this one. */
  predicate Leads(bids: seq<Bid>, n: nat)
    requires n < |bids|
  {
    forall i | 0 <= i < n :: !Outranks(bids[i].rank, bids[n].rank)
  }

  function Either(first: Option<Json>, second: Option<Json>): Option<Json>
  {
    if first.Some? then first else second
  }

  /** Through the list from the front: a bid that leads goes before what is settled so far if the
      higher-ranked decide and behind it if not; any other bid the other way round. */
  function Scan(bids: seq<Bid>, higherDecides: bool): Option<Json>
  {
    if bids == [] then None
    else
      var n := |bids| - 1;
      var earlier, last := Scan(bids[..n], higherDecides), bids[n].leaf;
      if Leads(bids, n) == higherDecides then Either(last, earlier) else Either(earlier, last)
  }

  lemma ScanSnoc(bids: seq<Bid>, b: Bid, higherDecides: bool)
    ensures var leads := forall i | 0 <= i < |bids| :: !Outranks(bids[i].rank, b.rank);
            var earlier := Scan(bids, higherDecides);
            Scan(bids + [b], higherDecides) == if leads == higherDecides then Either(b.leaf, earlier) else Either(earlier, b.leaf)
  {
    assert (bids + [b])[..|bids|] == bids;
  }

  lemma OnlyBid(x: Bid, higherDecides: bool)
    ensures Scan([x], higherDecides) == x.leaf
  {
    assert [x][..0] == [];
  }

  lemma ScanOfThree(a: Bid, b: Bid, c: Bid, higherDecides: bool)
    ensures var two := if !Outranks(a.rank, b.rank) == higherDecides then Either(b.leaf, a.leaf) else Either(a.leaf, b.leaf);
            var leads := !Outranks(a.rank, c.rank) && !Outranks(b.rank, c.rank);
            Scan([a, b, c], higherDecides) == if leads == higherDecides then Either(c.leaf, two) else Either(two, c.leaf)
  {
    OnlyBid(a, higherDecides);
    ScanSnoc([a], b, higherDecides);
    ScanSnoc([a, b], c, higherDecides);
    assert [a] + [b] == [a, b] && [a, b] + [c] == [a, b, c];
  }

  lemma LastDecides(bids: seq<Bid>, higherDecides: bool)
    requires bids != [] && bids[|bids| - 1].leaf.Some? && Leads(bids, |bids| - 1) == higherDecides
    ensures Scan(bids, higherDecides) == bids[|bids| - 1].leaf
  {
  }

  /** It finds nothing only if no bid has a value, and otherwise the value of one that does. */
  lemma {:induction false} ScanMeets(bids: seq<Bid>, higherDecides: bool)
    ensures var found := Scan(bids, higherDecides);
            if found.None? then forall b | b in bids :: b.leaf.None? else exists b | b in bids :: b.leaf == found
  {
    if bids != [] {
      var n := |bids| - 1;
      ScanMeets(bids[..n], higherDecides);
      assert bids == bids[..n] + [bids[n]] && bids[n] in bids;
      var earlier := Scan(bids[..n], higherDecides);
      if earlier.Some? {
        var b :| b in bids[..n] && b.leaf == earlier;
        assert b in bids;
      }
    }
  }

  // ----- The scan as an order of priority -----

  /** The places of the bids that lead, or of those that do not, in list order. */
  function Picked(bids: seq<Bid>, leading: bool): seq<nat>
  {
    if bids == [] then []
    else
      var n := |bids| - 1;
      Picked(bids[..n], leading) + if Leads(bids, n) == leading then [n] else []
  }

  /** Where the higher-ranked decide: the bids that lead, latest first, then the others in list order.
      Where they do not: the others, latest first, then those that lead in list order. */
  function Priority(bids: seq<Bid>, higherDecides: bool): seq<nat>
  {
    Reversed(Picked(bids, higherDecides)) + Picked(bids, !higherDecides)
  }

  predicate Within(places: seq<nat>, n: nat)
  {
    forall i | 0 <= i < |places| :: places[i] < n
  }

  /** The value of the first of these places that has one. */
  function FirstSet(bids: seq<Bid>, places: seq<nat>): Option<Json>
    requires Within(places, |bids|)
  {
    if places == [] then None else Either(bids[places[0]].leaf, FirstSet(bids, places[1..]))
  }

  lemma PrioritySnoc(bids: seq<Bid>, higherDecides: bool)
    requires bids != []
    ensures var n := |bids| - 1;
            var before := Priority(bids[..n], higherDecides);
            Priority(bids, higherDecides) == if Leads(bids, n) == higherDecides then [n] + before else before + [n]
  {
    var n := |bids| - 1;
    var front, back := Picked(bids[..n], higherDecides), Picked(bids[..n], !higherDecides);
    if Leads(bids, n) == higherDecides {
      assert Reversed(front + [n]) == [n] + Reversed(front);
    }
  }

  ghost predicate AllPlaces(places: seq<nat>, n: nat)
  {
    Within(places, n) && Distinct(places) && forall k: nat | k < n :: At(places, k)
  }

  ghost predicate At(places: seq<nat>, k: nat)
  {
    exists i | 0 <= i < |places| :: places[i] == k
  }

  /** Every place comes once. */
  lemma {:induction false} PriorityPlaces(bids: seq<Bid>, higherDecides: bool)
    ensures AllPlaces(Priority(bids, higherDecides), |bids|)
  {
    if bids != [] {
      var n := |bids| - 1;
      PriorityPlaces(bids[..n], higherDecides);
      PrioritySnoc(bids, higherDecides);
      OnePlaceMore(Priority(bids[..n], higherDecides), n);
    }
  }

  lemma OnePlaceMore(places: seq<nat>, n: nat)
    requires AllPlaces(places, n)
    ensures AllPlaces([n] + places, n + 1) && AllPlaces(places + [n], n + 1)
  {
    forall k: nat | k < n + 1 ensures At([n] + places, k) && At(places + [n], k) {
      if k == n {
        assert ([n] + places)[0] == n && (places + [n])[|places|] == n;
      } else {
        assert At(places, k);
        var i :| 0 <= i < |places| && places[i] == k;
        assert ([n] + places)[i + 1] == k && (places + [n])[i] == k;
      }
    }
  }

  lemma {:induction false} FirstSetAppend(bids: seq<Bid>, a: seq<nat>, b: seq<nat>)
    requires Within(a, |bids|) && Within(b, |bids|)
    ensures Within(a + b, |bids|) && FirstSet(bids, a + b) == Either(FirstSet(bids, a), FirstSet(bids, b))
  {
    if a == [] {
      assert a + b == b;
    } else {
      assert (a + b)[1..] == a[1..] + b;
      FirstSetAppend(bids, a[1..], b);
    }
  }

  lemma {:induction false} FirstSetPrefix(bids: seq<Bid>, n: nat, places: seq<nat>)
    requires n <= |bids| && Within(places, n)
    ensures FirstSet(bids, places) == FirstSet(bids[..n], places)
  {
    if places != [] {
      FirstSetPrefix(bids, n, places[1..]);
    }
  }

  /** The scan takes the first value in the order of priority. */
  lemma {:induction false} ScanByPriority(bids: seq<Bid>, higherDecides: bool)
    ensures Within(Priority(bids, higherDecides), |bids|)
    ensures Scan(bids, higherDecides) == FirstSet(bids, Priority(bids, higherDecides))
  {
    PriorityPlaces(bids, higherDecides);
    if bids != [] {
      var n := |bids| - 1;
      var before := Priority(bids[..n], higherDecides);
      ScanByPriority(bids[..n], higherDecides);
      PrioritySnoc(bids, higherDecides);
      FirstSetPrefix(bids, n, before);
      assert FirstSet(bids, [n]) == bids[n].leaf;
      if Leads(bids, n) == higherDecides {
        FirstSetAppend(bids, [n], before);
      } else {
        FirstSetAppend(bids, before, [n]);
      }
    }
  }

  // ----- When the highest rank wins -----

  /** The value is that of a bid that no other bid with a value outranks, or there is none. */
  ghost predicate Highest(bids: seq<Bid>, found: Option<Json>)
  {
    if found.None? then forall b | b in bids :: b.leaf.None?
    else exists b | b in bids :: b.leaf == found && forall c | c in bids && c.leaf.Some? :: !Outranks(c.rank, b.rank)
  }

  predicate ByRank(bids: seq<Bid>, places: seq<nat>)
    requires Within(places, |bids|)
  {
    forall i, j | 0 <= i < j < |places| :: !Outranks(bids[places[j]].rank, bids[places[i]].rank)
  }

  predicate SameRanks(a: seq<Bid>, b: seq<Bid>)
  {
    |a| == |b| && forall i | 0 <= i < |a| :: a[i].rank == b[i].rank
  }

  lemma {:induction false} SamePriority(a: seq<Bid>, b: seq<Bid>, leading: bool)
    requires SameRanks(a, b)
    ensures Picked(a, leading) == Picked(b, leading)
  {
    if a != [] {
      SamePriority(a[..|a| - 1], b[..|b| - 1], leading);
    }
  }

  /** Where the order of priority finds its value. */
  lemma {:induction false} FirstSetAt(bids: seq<Bid>, places: seq<nat>) returns (i: nat)
    requires Within(places, |bids|) && FirstSet(bids, places).Some?
    ensures i < |places| && bids[places[i]].leaf == FirstSet(bids, places)
    ensures forall j | 0 <= j < i :: bids[places[j]].leaf.None?
  {
    if bids[places[0]].leaf.Some? {
      i := 0;
    } else {
      var k := FirstSetAt(bids, places[1..]);
      i := k + 1;
      assert forall j | 0 < j < i :: places[j] == places[1..][j - 1];
    }
  }

  lemma ByRankTakesHighest(bids: seq<Bid>, higherDecides: bool)
    requires Within(Priority(bids, higherDecides), |bids|) && ByRank(bids, Priority(bids, higherDecides))
    ensures Highest(bids, Scan(bids, higherDecides))
  {
    var places := Priority(bids, higherDecides);
    ScanByPriority(bids, higherDecides);
    ScanMeets(bids, higherDecides);
    if Scan(bids, higherDecides).Some? {
      var i := FirstSetAt(bids, places);
      var b := bids[places[i]];
      forall c | c in bids && c.leaf.Some? ensures !Outranks(c.rank, b.rank) {
        var k :| 0 <= k < |bids| && bids[k] == c;
        PriorityPlaces(bids, higherDecides);
        assert At(places, k);
        var j :| 0 <= j < |places| && places[j] == k;
        OutranksIsStrictOrder(b.rank, b.rank, b.rank);
      }
      assert b in bids;
    }
  }

  /** Two bids at these places and no other. */
  function OnlyTwo(bids: seq<Bid>, x: nat, y: nat): (r: seq<Bid>)
    ensures SameRanks(r, bids)
  {
    seq(|bids|, k requires 0 <= k < |bids| => Bid(bids[k].rank, if k == x then Some(Scalar(1)) else if k == y then Some(Scalar(2)) else None))
  }

  lemma OutrankedIsNotHighest(bids: seq<Bid>, x: nat, y: nat)
    requires x < |bids| && y < |bids| && Outranks(bids[y].rank, bids[x].rank)
    ensures !Highest(OnlyTwo(bids, x, y), Some(Scalar(1)))
  {
    var shown := OnlyTwo(bids, x, y);
    OutranksIsStrictOrder(bids[y].rank, bids[x].rank, bids[y].rank);
    assert shown[y] in shown;
    forall b | b in shown && b.leaf == Some(Scalar(1)) ensures b.rank == bids[x].rank {
      var k :| 0 <= k < |shown| && shown[k] == b;
    }
  }

  /** Out of rank order, two bids of which the outranked one comes first show it. */
  lemma OutOfRank(bids: seq<Bid>, higherDecides: bool) returns (x: nat, y: nat)
    requires Within(Priority(bids, higherDecides), |bids|) && !ByRank(bids, Priority(bids, higherDecides))
    ensures !Highest(OnlyTwo(bids, x, y), Scan(OnlyTwo(bids, x, y), higherDecides))
  {
    var places := Priority(bids, higherDecides);
    var i, j :| 0 <= i < j < |places| && Outranks(bids[places[j]].rank, bids[places[i]].rank);
    x, y := places[i], places[j];
    var shown := OnlyTwo(bids, x, y);
    PriorityPlaces(bids, higherDecides);
    SamePriority(shown, bids, true);
    SamePriority(shown, bids, false);
    ScanByPriority(shown, higherDecides);
    OutrankedComesFirst(bids, places, i, j);
    OutrankedIsNotHighest(bids, x, y);
  }

  lemma OutrankedComesFirst(bids: seq<Bid>, places: seq<nat>, i: nat, j: nat)
    requires Distinct(places) && i < j < |places| && Within(places, |bids|)
    ensures FirstSet(OnlyTwo(bids, places[i], places[j]), places) == Some(Scalar(1))
  {
    var shown := OnlyTwo(bids, places[i], places[j]);
    SomeFound(shown, places, i);
    var first := FirstSetAt(shown, places);
    assert shown[places[i]].leaf.Some?;
  }

  lemma {:induction false} SomeFound(bids: seq<Bid>, places: seq<nat>, i: nat)
    requires i < |places| && Within(places, |bids|) && bids[places[i]].leaf.Some?
    ensures FirstSet(bids, places).Some?
  {
    if i > 0 {
      SomeFound(bids, places[1..], i - 1);
    }
  }

  /** The highest rank wins, whatever the values are, if and only if the order of priority is by rank. */
  lemma HighestIff(bids: seq<Bid>, higherDecides: bool)
    ensures Within(Priority(bids, higherDecides), |bids|)
    ensures ByRank(bids, Priority(bids, higherDecides)) <==>
            forall others :: SameRanks(others, bids) ==> Highest(others, Scan(others, higherDecides))
  {
    PriorityPlaces(bids, higherDecides);
    if ByRank(bids, Priority(bids, higherDecides)) {
      forall others | SameRanks(others, bids) ensures Highest(others, Scan(others, higherDecides)) {
        SamePriority(others, bids, true);
        SamePriority(others, bids, false);
        ByRankTakesHighest(others, higherDecides);
      }
    } else {
      var x, y := OutOfRank(bids, higherDecides);
      assert SameRanks(OnlyTwo(bids, x, y), bids);
    }
  }

  // ----- Lists in special order -----

  function Upwards(n: nat): (r: seq<nat>)
    ensures |r| == n
  {
    seq(n, i requires 0 <= i < n => i)
  }

  predicate EqualRanks(bids: seq<Bid>)
  {
    forall i, j | 0 <= i < j < |bids| :: bids[i].rank == bids[j].rank
  }

  /** The highest rank first. */
  predicate Descending(bids: seq<Bid>)
  {
    forall i, j | 0 <= i < j < |bids| :: Outranks(bids[i].rank, bids[j].rank)
  }

  /** Among equal ranks the last in the list comes first where the higher-ranked decide, and the
      first in the list where they do not. */
  lemma {:induction false} EqualRanksPriority(bids: seq<Bid>)
    requires EqualRanks(bids)
    ensures Priority(bids, true) == Reversed(Upwards(|bids|)) && Priority(bids, false) == Upwards(|bids|)
  {
    EqualRanksPicked(bids);
    assert Reversed(Picked(bids, false)) == [];
  }

  lemma {:induction false} EqualRanksPicked(bids: seq<Bid>)
    requires EqualRanks(bids)
    ensures Picked(bids, true) == Upwards(|bids|) && Picked(bids, false) == []
  {
    if bids != [] {
      var n := |bids| - 1;
      EqualRanksPicked(bids[..n]);
      OutranksIsStrictOrder(bids[n].rank, bids[n].rank, bids[n].rank);
      assert Leads(bids, n);
    }
  }

  /** A list by rank is its own order of priority where the higher-ranked decide, and the reverse of it
      where they do not. */
  lemma DescendingPriority(bids: seq<Bid>)
    requires Descending(bids)
    ensures Priority(bids, true) == Upwards(|bids|) && Priority(bids, false) == Reversed(Upwards(|bids|))
  {
    DescendingPicked(bids);
    if bids != [] {
      assert Reversed([0]) == [0];
      assert Reversed(Upwards(|bids|)[1..]) + [0] == Reversed(Upwards(|bids|));
    }
  }

  lemma {:induction false} DescendingPicked(bids: seq<Bid>)
    requires Descending(bids)
    ensures if bids == [] then Picked(bids, true) == [] && Picked(bids, false) == []
            else Picked(bids, true) == [0] && Picked(bids, false) == Upwards(|bids|)[1..]
  {
    if bids != [] {
      var n := |bids| - 1;
      DescendingPicked(bids[..n]);
      assert n > 0 ==> Outranks(bids[0].rank, bids[n].rank);
      assert Upwards(n + 1) == Upwards(n) + [n];
    }
  }

  // ----- All orders of one list -----

  /** `r` is the highest rank in the list. */
  ghost predicate TopRank(bids: seq<Bid>, r: Rank)
  {
    (exists b | b in bids :: b.rank == r) && forall b | b in bids :: !Outranks(b.rank, r)
  }

  lemma {:induction false} TopExists(bids: seq<Bid>) returns (r: Rank)
    requires bids != []
    ensures TopRank(bids, r)
  {
    var n := |bids| - 1;
    assert bids == bids[..n] + [bids[n]] && bids[n] in bids;
    r := bids[n].rank;
    OutranksIsStrictOrder(r, r, r);
    if n > 0 {
      var before := TopExists(bids[..n]);
      if Outranks(before, r) {
        r := before;
      } else {
        forall b | b in bids[..n] ensures !Outranks(b.rank, r) {
          OutranksIsStrictOrder(b.rank, before, r);
          OutranksIsStrictOrder(before, b.rank, r);
        }
      }
      OutranksIsStrictOrder(before, bids[n].rank, before);
    }
  }

  /** Some bid of the highest rank, or some bid of a lower rank, has this value. */
  ghost predicate SetIn(bids: seq<Bid>, r: Rank, top: bool, v: Option<Json>)
  {
    v.Some? && exists b | b in bids :: (b.rank == r) == top && b.leaf == v
  }

  lemma SetInSnoc(bids: seq<Bid>, r: Rank, top: bool, v: Option<Json>)
    requires bids != []
    ensures var n := |bids| - 1;
            SetIn(bids, r, top, v) <==>
            SetIn(bids[..n], r, top, v) || (v.Some? && (bids[n].rank == r) == top && bids[n].leaf == v)
  {
    assert bids == bids[..|bids| - 1] + [bids[|bids| - 1]];
  }

  lemma RankBelowTop(bids: seq<Bid>, n: nat, r: Rank)
    requires n < |bids| && forall b | b in bids :: !Outranks(b.rank, r)
    ensures bids[n].rank == r ==> Leads(bids, n)
    ensures bids[n].rank != r && (exists b | b in bids[..n] :: b.rank == r) ==> !Leads(bids, n)
  {
    assert bids[n] in bids;
    OutranksIsStrictOrder(bids[n].rank, r, r);
    if bids[n].rank == r {
      forall i | 0 <= i < n ensures !Outranks(bids[i].rank, r) {
        assert bids[i] in bids;
      }
    } else if b :| b in bids[..n] && b.rank == r {
      var i :| 0 <= i < n && bids[i] == b;
    }
  }

  /** Where the higher-ranked decide, values of the highest rank come before all others. */
  lemma {:induction false} TopDecides(bids: seq<Bid>, r: Rank, v: Option<Json>)
    requires (forall b | b in bids :: !Outranks(b.rank, r)) && SetIn(bids, r, true, v)
    ensures SetIn(bids, r, true, Scan(bids, true))
  {
    var n := |bids| - 1;
    RankBelowTop(bids, n, r);
    SetInSnoc(bids, r, true, v);
    SetInSnoc(bids, r, true, Scan(bids[..n], true));
    SetInSnoc(bids, r, true, bids[n].leaf);
    if SetIn(bids[..n], r, true, v) {
      TopDecides(bids[..n], r, v);
    }
  }

  /** Where they do not, values of lower ranks come before those of the highest. */
  lemma {:induction false} LowerDecides(bids: seq<Bid>, r: Rank, v: Option<Json>)
    requires (forall b | b in bids :: !Outranks(b.rank, r)) && SetIn(bids, r, false, v)
    ensures SetIn(bids, r, false, Scan(bids, false))
  {
    var n := |bids| - 1;
    RankBelowTop(bids, n, r);
    SetInSnoc(bids, r, false, v);
    SetInSnoc(bids, r, false, Scan(bids[..n], false));
    SetInSnoc(bids, r, false, bids[n].leaf);
    ScanMeets(bids[..n], false);
    if SetIn(bids[..n], r, false, v) {
      LowerDecides(bids[..n], r, v);
    }
  }

  /** The class of bids that settles the value: those of the highest rank, or those of lower ranks. */
  ghost predicate TopSettles(bids: seq<Bid>, r: Rank, higherDecides: bool)
  {
    if exists v :: SetIn(bids, r, higherDecides, v) then higherDecides else !higherDecides
  }

  /** The value found is one of the class that settles it. */
  lemma ClassSettles(bids: seq<Bid>, r: Rank, higherDecides: bool)
    requires forall b | b in bids :: !Outranks(b.rank, r)
    ensures Scan(bids, higherDecides).Some? ==> SetIn(bids, r, TopSettles(bids, r, higherDecides), Scan(bids, higherDecides))
  {
    if v :| SetIn(bids, r, higherDecides, v) {
      if higherDecides {
        TopDecides(bids, r, v);
      } else {
        LowerDecides(bids, r, v);
      }
    } else if Scan(bids, higherDecides).Some? {
      ScanMeets(bids, higherDecides);
      var b :| b in bids && b.leaf == Scan(bids, higherDecides);
      assert (b.rank == r) == higherDecides ==> SetIn(bids, r, higherDecides, b.leaf);
    }
  }

  /** All bids of that class that have a value have the same. */
  ghost predicate ClassAgrees(bids: seq<Bid>, r: Rank, top: bool)
  {
    forall v, w | SetIn(bids, r, top, v) && SetIn(bids, r, top, w) :: v == w
  }

  lemma SameBids(a: seq<Bid>, b: seq<Bid>, r: Rank)
    requires multiset(a) == multiset(b)
    ensures forall x :: x in a <==> x in b
    ensures forall top, v :: SetIn(a, r, top, v) <==> SetIn(b, r, top, v)
  {
    assert forall x :: x in a <==> x in multiset(a);
    assert forall x :: x in b <==> x in multiset(b);
  }

  lemma AgreeingClass(a: seq<Bid>, b: seq<Bid>, r: Rank, higherDecides: bool)
    requires multiset(a) == multiset(b) && (forall x | x in a :: !Outranks(x.rank, r))
    requires ClassAgrees(a, r, TopSettles(a, r, higherDecides))
    ensures Scan(a, higherDecides) == Scan(b, higherDecides)
  {
    SameBids(a, b, r);
    ClassSettles(a, r, higherDecides);
    ClassSettles(b, r, higherDecides);
    ScanMeets(a, higherDecides);
    ScanMeets(b, higherDecides);
  }

  // ----- Orders that disagree -----

  lemma TakeOut<T>(s: seq<T>, x: T) returns (rest: seq<T>)
    requires x in s
    ensures multiset(s) == multiset{x} + multiset(rest)
  {
    var i :| 0 <= i < |s| && s[i] == x;
    rest := s[..i] + s[i + 1..];
    assert s == s[..i] + ([x] + s[i + 1..]);
  }

  /** Once a value is settled with a bid of the highest rank in front, later bids of the class behind
      stay behind, and the others are silent. */
  lemma {:induction false} Stays(before: seq<Bid>, rest: seq<Bid>, r: Rank, higherDecides: bool)
    requires Scan(before, higherDecides).Some? && exists b | b in before :: b.rank == r
    requires forall b | b in before + rest :: !Outranks(b.rank, r)
    requires forall b | b in rest :: (b.rank == r) == higherDecides ==> b.leaf.None?
    ensures Scan(before + rest, higherDecides) == Scan(before, higherDecides)
    decreases |rest|
  {
    if rest == [] {
      assert before + rest == before;
    } else {
      var n := |rest| - 1;
      var all := before + rest;
      assert all[..|all| - 1] == before + rest[..n] && all[|all| - 1] == rest[n];
      assert rest[n] in rest && forall b | b in before + rest[..n] :: b in all;
      Stays(before, rest[..n], r, higherDecides);
      var t :| t in before && t.rank == r;
      assert t in all[..|all| - 1];
      LastStaysBehind(all, r, higherDecides);
    }
  }

  lemma LastStaysBehind(all: seq<Bid>, r: Rank, higherDecides: bool)
    requires |all| > 0 && Scan(all[..|all| - 1], higherDecides).Some? && exists b | b in all[..|all| - 1] :: b.rank == r
    requires forall b | b in all :: !Outranks(b.rank, r)
    requires (all[|all| - 1].rank == r) == higherDecides ==> all[|all| - 1].leaf.None?
    ensures Scan(all, higherDecides) == Scan(all[..|all| - 1], higherDecides)
  {
    RankBelowTop(all, |all| - 1, r);
  }

  /** Some order finds the value of any bid of the class that settles. */
  lemma Favouring(bids: seq<Bid>, r: Rank, higherDecides: bool, x: Bid) returns (order: seq<Bid>)
    requires TopRank(bids, r) && x in bids && x.leaf.Some? && (x.rank == r) == TopSettles(bids, r, higherDecides)
    ensures multiset(order) == multiset(bids) && Scan(order, higherDecides) == x.leaf
  {
    var rest := TakeOut(bids, x);
    if (x.rank == r) == higherDecides {
      order := rest + [x];
      LastFavoured(bids, rest, x, r, higherDecides);
    } else {
      order := FirstFavoured(bids, rest, x, r, higherDecides);
    }
  }

  lemma LastFavoured(bids: seq<Bid>, rest: seq<Bid>, x: Bid, r: Rank, higherDecides: bool)
    requires TopRank(bids, r) && multiset(bids) == multiset{x} + multiset(rest) && x.leaf.Some? && (x.rank == r) == higherDecides
    ensures Scan(rest + [x], higherDecides) == x.leaf
  {
    var all := rest + [x];
    assert multiset(all) == multiset(bids);
    SameBids(all, bids, r);
    var t :| t in bids && t.rank == r;
    assert all[..|rest|] == rest && (t == x || t in rest);
    RankBelowTop(all, |rest|, r);
  }

  lemma FirstFavoured(bids: seq<Bid>, rest: seq<Bid>, x: Bid, r: Rank, higherDecides: bool) returns (order: seq<Bid>)
    requires TopRank(bids, r) && multiset(bids) == multiset{x} + multiset(rest) && x.leaf.Some?
    requires (x.rank == r) != higherDecides && forall v :: !SetIn(bids, r, higherDecides, v)
    ensures multiset(order) == multiset(bids) && Scan(order, higherDecides) == x.leaf
  {
    if !higherDecides {
      order := [x] + rest;
      assert multiset(order) == multiset(bids);
      SameBids(order, bids, r);
      SilentClass(order, r, higherDecides);
      OnlyBid(x, higherDecides);
      assert x in [x];
      Stays([x], rest, r, higherDecides);
    } else {
      SameBids([x] + rest, bids, r);
      var t :| t in bids && t.rank == r;
      assert t in rest;
      var others := TakeOut(rest, t);
      order := [t, x] + others;
      assert multiset(order) == multiset(bids);
      SameBids(order, bids, r);
      SilentClass(order, r, higherDecides);
      TopThenOther(t, x, r);
      assert t in [t, x];
      Stays([t, x], others, r, higherDecides);
    }
  }

  lemma SilentClass(bids: seq<Bid>, r: Rank, top: bool)
    requires forall v :: !SetIn(bids, r, top, v)
    ensures forall b | b in bids :: (b.rank == r) == top ==> b.leaf.None?
  {
    forall b | b in bids && (b.rank == r) == top ensures b.leaf.None? {
      assert !SetIn(bids, r, top, b.leaf);
    }
  }

  lemma TopThenOther(t: Bid, x: Bid, r: Rank)
    requires t.rank == r && x.rank != r && !Outranks(x.rank, r) && t.leaf.None?
    ensures Scan([t, x], true) == x.leaf
  {
    OnlyBid(t, true);
    ScanSnoc([t], x, true);
    assert [t] + [x] == [t, x];
  }

  /** All orders of the bids find the same value if and only if the class that settles it agrees. */
  lemma OrdersAgreeIff(bids: seq<Bid>, r: Rank, higherDecides: bool)
    requires TopRank(bids, r)
    ensures (forall order :: multiset(order) == multiset(bids) ==> Scan(order, higherDecides) == Scan(bids, higherDecides)) <==>
            ClassAgrees(bids, r, TopSettles(bids, r, higherDecides))
  {
    var top := TopSettles(bids, r, higherDecides);
    if ClassAgrees(bids, r, top) {
      forall order | multiset(order) == multiset(bids) ensures Scan(order, higherDecides) == Scan(bids, higherDecides) {
        AgreeingClass(bids, order, r, higherDecides);
      }
    } else {
      var v, w :| SetIn(bids, r, top, v) && SetIn(bids, r, top, w) && v != w;
      var x :| x in bids && (x.rank == r) == top && x.leaf == v;
      var y :| y in bids && (y.rank == r) == top && y.leaf == w;
      var one := Favouring(bids, r, higherDecides, x);
      var other := Favouring(bids, r, higherDecides, y);
      assert multiset(one) == multiset(bids) && multiset(other) == multiset(bids);
    }
  }
}
