/** Comparing the listeners of a Gateway's status with what a test expects. Models listenersMatch,
    conditionsMatch and findConditionInList in conformance/utils/kubernetes/helpers.go. */
module Listeners {
  import opened Sequences
  import opened Wrappers

  const GROUP := "gateway.networking.k8s.io"

  datatype RouteKind = RouteKind(group: Option<string>, kind: string)
  datatype Condition = Condition(typ: string, status: string, reason: string)
  datatype Listener = Listener(name: string, kinds: seq<RouteKind>, attachedRoutes: int, conditions: seq<Condition>)

  // ----- Conditions -----

  /** An empty status or reason in the expectation accepts any. */
  predicate Satisfies(actual: Condition, expected: Condition)
  {
    && actual.typ == expected.typ
    && (expected.status == "" || actual.status == expected.status)
    && (expected.reason == "" || actual.reason == expected.reason)
  }

  predicate Covered(expected: Condition, actual: seq<Condition>)
  {
    exists i | 0 <= i < |actual| :: Satisfies(actual[i], expected)
  }

  predicate ConditionsHold(expected: seq<Condition>, actual: seq<Condition>)
  {
    |expected| <= |actual| && forall i | 0 <= i < |expected| :: Covered(expected[i], actual)
  }

  method FindConditionInList(conditions: seq<Condition>, expected: Condition) returns (found: bool)
    ensures found <==> Covered(expected, conditions)
    ensures found <==> exists a | a in conditions ::
              a.typ == expected.typ && expected.status in {"", a.status} && expected.reason in {"", a.reason}
  {
    for i := 0 to |conditions|
      invariant forall k | 0 <= k < i :: !Satisfies(conditions[k], expected)
    {
      var cond := conditions[i];
      if cond.typ == expected.typ {
        if expected.status == "" || cond.status == expected.status {
          if expected.reason == "" || cond.reason == expected.reason {
            assert Satisfies(conditions[i], expected);
            return true;
          }
        }
      }
    }
    found := false;
  }

  method ConditionsMatch(expected: seq<Condition>, actual: seq<Condition>) returns (ok: bool)
    ensures ok <==> ConditionsHold(expected, actual)
    ensures ok <==> |expected| <= |actual| && forall e | e in expected :: Covered(e, actual)
  {
    if |actual| < |expected| {
      return false;
    }
    for i := 0 to |expected|
      invariant forall k | 0 <= k < i :: Covered(expected[k], actual)
    {
      var found := FindConditionInList(actual, expected[i]);
      if !found {
        return false;
      }
    }
    ok := true;
  }

  // ----- Kinds -----

  function GroupOf(k: RouteKind): string
  {
    if k.group.None? then GROUP else k.group.value
  }

  predicate SameKind(e: RouteKind, a: RouteKind)
  {
    GroupOf(e) == GroupOf(a) && e.kind == a.kind
  }

  predicate Supported(e: RouteKind, actual: seq<RouteKind>)
  {
    exists i | 0 <= i < |actual| :: SameKind(e, actual[i])
  }

  predicate KindsHold(expected: seq<RouteKind>, actual: seq<RouteKind>)
  {
    && (expected == [] ==> actual == [])
    && forall i | 0 <= i < |expected| :: Supported(expected[i], actual)
  }

  /** A nil dereference in the source: the missing group of an expected kind is defaulted only while
      looking at an actual kind, so with none to look at the failure message reads a nil pointer. */
  predicate KindsPanic(expected: seq<RouteKind>, actual: seq<RouteKind>)
  {
    expected != [] && actual == [] && expected[0].group.None?
  }

  datatype Verdict = Match | Mismatch | Panic

  method KindsMatch(expected: seq<RouteKind>, actual: seq<RouteKind>) returns (v: Verdict)
    ensures v == if KindsPanic(expected, actual) then Panic else if KindsHold(expected, actual) then Match else Mismatch
    ensures v == Panic <==> expected != [] && actual == [] && expected[0].group == None
    ensures v == Match <==> (expected == [] ==> actual == []) && forall e | e in expected :: exists a | a in actual ::
              (if e.group.None? then "gateway.networking.k8s.io" else e.group.value) ==
              (if a.group.None? then "gateway.networking.k8s.io" else a.group.value) && e.kind == a.kind
  {
    if expected == [] && actual != [] {
      return Mismatch;
    }
    for i := 0 to |expected|
      invariant forall k | 0 <= k < i :: Supported(expected[k], actual)
    {
      var eKind := expected[i];
      var found, j := false, 0;
      while j < |actual| && !found
        invariant 0 <= j <= |actual|
        invariant eKind == if j == 0 then expected[i] else expected[i].(group := Some(GroupOf(expected[i])))
        invariant found ==> Supported(expected[i], actual)
        invariant !found ==> forall k | 0 <= k < j :: !SameKind(expected[i], actual[k])
      {
        if eKind.group.None? {
          eKind := eKind.(group := Some(GROUP));
        }
        var aKind := actual[j];
        if aKind.group.None? {
          aKind := aKind.(group := Some(GROUP));
        }
        if eKind.group.value == aKind.group.value && eKind.kind == aKind.kind {
          assert SameKind(expected[i], actual[j]);
          found := true;
        }
        j := j + 1;
      }
      if !found {
        assert !Supported(expected[i], actual);
        assert i > 0 ==> Supported(expected[0], actual);
        return if eKind.group.None? then Panic else Mismatch;
      }
    }
    v := Match;
  }

  // ----- Listeners -----

  predicate ListenerHolds(e: Listener, a: Listener)
  {
    KindsHold(e.kinds, a.kinds) && a.attachedRoutes == e.attachedRoutes && ConditionsHold(e.conditions, a.conditions)
  }

  /** The first listener of that name. */
  function Named(ls: seq<Listener>, name: string): (r: Option<Listener>)
    ensures r.Some? ==> r.value in ls && r.value.name == name
    ensures r.None? ==> forall l | l in ls :: l.name != name
  {
    if ls == [] then None
    else if ls[0].name == name then Some(ls[0])
    else Named(ls[1..], name)
  }

  /** What one expected listener comes to. */
  function Judge(e: Listener, actual: seq<Listener>): Verdict
  {
    match Named(actual, e.name)
    case None => Mismatch
    case Some(a) =>
      if KindsPanic(e.kinds, a.kinds) then Panic
      else if ListenerHolds(e, a) then Match else Mismatch
  }

  /** The comparison stops at the first expected listener that does not match. */
  function JudgeAll(expected: seq<Listener>, actual: seq<Listener>): Verdict
  {
    if expected == [] then Match
    else if Judge(expected[0], actual) != Match then Judge(expected[0], actual)
    else JudgeAll(expected[1..], actual)
  }

  method FindListener(actual: seq<Listener>, name: string) returns (r: Option<Listener>)
    ensures r == Named(actual, name)
    ensures r.None? <==> forall a | a in actual :: a.name != name
    ensures r.Some? ==> exists i | 0 <= i < |actual| :: actual[i] == r.value && r.value.name == name && forall j | 0 <= j < i :: actual[j].name != name
  {
    for i := 0 to |actual|
      invariant Named(actual, name) == Named(actual[i..], name) && forall j | 0 <= j < i :: actual[j].name != name
    {
      if actual[i].name == name {
        return Some(actual[i]);
      }
    }
    r := None;
  }

  method ListenersMatch(expected: seq<Listener>, actual: seq<Listener>) returns (v: Verdict)
    ensures v == if |expected| != |actual| then Mismatch else JudgeAll(expected, actual)
  {
    if |expected| != |actual| {
      return Mismatch;
    }
    for i := 0 to |expected|
      invariant JudgeAll(expected, actual) == JudgeAll(expected[i..], actual)
    {
      var e := expected[i];
      assert expected[i..][1..] == expected[i + 1..];
      var found := FindListener(actual, e.name);
      if found.None? {
        return Mismatch;
      }
      var a := found.value;
      var kinds := KindsMatch(e.kinds, a.kinds);
      if kinds != Match {
        return kinds;
      }
      if a.attachedRoutes != e.attachedRoutes {
        return Mismatch;
      }
      var conditions := ConditionsMatch(e.conditions, a.conditions);
      if !conditions {
        return Mismatch;
      }
    }
    v := Match;
  }

  // ----- A match pairs the listeners up -----

  function Names(ls: seq<Listener>): (r: seq<string>)
    ensures |r| == |ls|
  {
    seq(|ls|, i requires 0 <= i < |ls| => ls[i].name)
  }

  predicate AllMatch(expected: seq<Listener>, actual: seq<Listener>)
  {
    forall e | e in expected :: Judge(e, actual) == Match
  }

  /** Some expected listener is judged `v`, and all before it match. */
  ghost predicate FirstIs(expected: seq<Listener>, actual: seq<Listener>, v: Verdict)
  {
    exists i | 0 <= i < |expected| :: Judge(expected[i], actual) == v && AllMatch(expected[..i], actual)
  }

  /** A comparison is a match if and only if every expected listener is judged one, and otherwise
      what the first of them that is not comes to. */
  lemma {:induction false} JudgeAllIff(expected: seq<Listener>, actual: seq<Listener>)
    ensures JudgeAll(expected, actual) == Match <==> AllMatch(expected, actual)
    ensures JudgeAll(expected, actual) == Mismatch <==> FirstIs(expected, actual, Mismatch)
    ensures JudgeAll(expected, actual) == Panic <==> FirstIs(expected, actual, Panic)
  {
    if expected != [] {
      JudgeAllIff(expected[1..], actual);
      assert expected == [expected[0]] + expected[1..];
      FirstJudged(expected, actual, Mismatch);
      FirstJudged(expected, actual, Panic);
    }
  }

  lemma FirstJudged(expected: seq<Listener>, actual: seq<Listener>, v: Verdict)
    requires expected != [] && v != Match
    ensures FirstIs(expected, actual, v) <==>
            if Judge(expected[0], actual) != Match then Judge(expected[0], actual) == v else FirstIs(expected[1..], actual, v)
  {
    var first, rest := expected[0], expected[1..];
    if i :| 0 <= i < |expected| && Judge(expected[i], actual) == v && AllMatch(expected[..i], actual) {
      if i > 0 {
        assert first in expected[..i] && rest[..i - 1] == expected[..i][1..];
        assert Judge(rest[i - 1], actual) == v && AllMatch(rest[..i - 1], actual);
      }
    }
    if Judge(first, actual) == v {
      assert expected[..0] == [];
      assert AllMatch(expected[..0], actual);
    }
    if Judge(first, actual) == Match {
      if i :| 0 <= i < |rest| && Judge(rest[i], actual) == v && AllMatch(rest[..i], actual) {
        assert expected[..i + 1] == [first] + rest[..i];
        assert Judge(expected[i + 1], actual) == v && AllMatch(expected[..i + 1], actual);
      }
    }
  }

  /** For distinct expected names a comparison of equally many listeners succeeds if and only if the
      actual names are a permutation of the expected ones, and the actual listener of each expected name
      has its route count, all its kinds and a condition satisfying each of its conditions. */
  lemma MatchIsPermutation(expected: seq<Listener>, actual: seq<Listener>)
    requires |expected| == |actual| && Distinct(Names(expected))
    ensures JudgeAll(expected, actual) == Match <==>
            && multiset(Names(actual)) == multiset(Names(expected))
            && forall e, a | e in expected && a in actual && a.name == e.name ::
                 a.attachedRoutes == e.attachedRoutes && KindsHold(e.kinds, a.kinds) && ConditionsHold(e.conditions, a.conditions)
  {
    MatchIffHolds(expected, actual);
    AllHoldIff(expected, actual);
  }

  lemma MatchIffHolds(expected: seq<Listener>, actual: seq<Listener>)
    requires |expected| == |actual| && Distinct(Names(expected))
    ensures JudgeAll(expected, actual) == Match <==> multiset(Names(actual)) == multiset(Names(expected)) && AllHold(expected, actual)
  {
    JudgeAllIff(expected, actual);
    if JudgeAll(expected, actual) == Match {
      MatchPairs(expected, actual);
    } else if multiset(Names(actual)) == multiset(Names(expected)) && AllHold(expected, actual) {
      forall e | e in expected ensures Judge(e, actual) == Match {
        PairJudged(expected, actual, e);
      }
    }
  }

  lemma AllHoldIff(expected: seq<Listener>, actual: seq<Listener>)
    ensures AllHold(expected, actual) <==>
            forall e, a | e in expected && a in actual && a.name == e.name ::
              a.attachedRoutes == e.attachedRoutes && KindsHold(e.kinds, a.kinds) && ConditionsHold(e.conditions, a.conditions)
  {
    assert forall e, a :: ListenerHolds(e, a) <==>
             a.attachedRoutes == e.attachedRoutes && KindsHold(e.kinds, a.kinds) && ConditionsHold(e.conditions, a.conditions);
  }

  ghost predicate AllHold(expected: seq<Listener>, actual: seq<Listener>)
  {
    forall e, a | e in expected && a in actual && a.name == e.name :: ListenerHolds(e, a)
  }

  lemma MatchPairs(expected: seq<Listener>, actual: seq<Listener>)
    requires |expected| == |actual| && Distinct(Names(expected)) && AllMatch(expected, actual)
    ensures multiset(Names(actual)) == multiset(Names(expected)) && AllHold(expected, actual)
  {
    forall n | n in Names(expected) ensures n in Names(actual) {
      NameFound(expected, actual, n);
    }
    Pigeonhole(Names(expected), Names(actual));
    PermutedDistinct(Names(expected), Names(actual));
    forall e, a | e in expected && a in actual && a.name == e.name ensures ListenerHolds(e, a) {
      OnlyOneNamed(actual, a);
      assert Judge(e, actual) == Match;
    }
  }

  lemma PairJudged(expected: seq<Listener>, actual: seq<Listener>, e: Listener)
    requires multiset(Names(actual)) == multiset(Names(expected)) && e in expected
    requires forall a | a in actual && a.name == e.name :: ListenerHolds(e, a)
    ensures Judge(e, actual) == Match
  {
    var i :| 0 <= i < |expected| && expected[i] == e;
    assert Names(expected)[i] in multiset(Names(actual));
    var j :| 0 <= j < |actual| && Names(actual)[j] == e.name;
    assert actual[j] in actual;
    assert ListenerHolds(e, Named(actual, e.name).value);
  }

  /** An expected kind without a group against a listener without kinds: the comparison panics. */
  lemma NilGroupPanics(name: string, kind: string, attachedRoutes: int)
    ensures var e, a := Listener(name, [RouteKind(None, kind)], attachedRoutes, []), Listener(name, [], attachedRoutes, []);
            JudgeAll([e], [a]) == Panic
  {
  }

  lemma NameFound(expected: seq<Listener>, actual: seq<Listener>, n: string)
    requires n in Names(expected) && forall e | e in expected :: Judge(e, actual) == Match
    ensures n in Names(actual)
  {
    var i :| 0 <= i < |expected| && Names(expected)[i] == n;
    assert Judge(expected[i], actual) == Match;
    var found := Named(actual, n).value;
    var j :| 0 <= j < |actual| && actual[j] == found;
    assert Names(actual)[j] == n;
  }

  lemma OnlyOneNamed(ls: seq<Listener>, l: Listener)
    requires Distinct(Names(ls)) && l in ls
    ensures Named(ls, l.name) == Some(l)
  {
    var first := Named(ls, l.name).value;
    var i :| 0 <= i < |ls| && ls[i] == l;
    var j :| 0 <= j < |ls| && ls[j] == first;
    assert Names(ls)[i] == Names(ls)[j];
  }
}
