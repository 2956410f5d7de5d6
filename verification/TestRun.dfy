/** Running one list of conformance tests: the gates of a single test, and what the suite records
    for it. Models ConformanceTest.Run in conformance/utils/suite/conformance.go and the loop of Run
    in conformance/utils/suite/suite.go. */
module TestRun {

  datatype Test = Test(shortName: string, features: seq<string>)

  /** `focus` is the single test to run, or empty. */
  datatype Config = Config(supported: set<string>, skip: set<string>, focus: string)

  datatype ResultType = Succeeded | Failed | Skipped | NotSupported

  datatype TestResult = TestResult(test: Test, result: ResultType)

  type Results = map<string, TestResult>

  // ----- One test -----

  predicate Supports(c: Config, t: Test)
  {
    forall i | 0 <= i < |t.features| :: t.features[i] in c.supported
  }

  predicate PassesGates(c: Config, t: Test)
  {
    (c.focus == "" ==> Supports(c, t)) && t.shortName !in c.skip && (c.focus == "" || c.focus == t.shortName)
  }

  /** Runs one test whose body, if it is reached, passes or fails as `passes` says. A skipped subtest
      reports success. */
  method RunOne(c: Config, t: Test, passes: bool) returns (reached: bool, succeeded: bool)
    ensures reached == PassesGates(c, t)
    ensures reached <==> && (c.focus == "" ==> forall f | f in t.features :: f in c.supported)
                         && t.shortName !in c.skip && c.focus in {"", t.shortName}
    ensures succeeded == (reached ==> passes)
  {
    if c.focus == "" {
      for i := 0 to |t.features|
        invariant forall k | 0 <= k < i :: t.features[k] in c.supported
      {
        if t.features[i] !in c.supported {
          return false, true;
        }
      }
    }
    if t.shortName in c.skip || (c.focus != "" && c.focus != t.shortName) {
      return false, true;
    }
    return true, passes;
  }

  /** How the suite classifies a test from its outcome alone, without asking whether it was reached. */
  function Classify(c: Config, t: Test, succeeded: bool): ResultType
  {
    if !succeeded then Failed
    else if !Supports(c, t) then NotSupported
    else if t.shortName in c.skip then Skipped
    else Succeeded
  }

  function Recorded(c: Config, t: Test, passes: bool): ResultType
  {
    Classify(c, t, PassesGates(c, t) ==> passes)
  }

  predicate RecordedAsRun(c: Config, t: Test, passes: bool)
  {
    Recorded(c, t, passes) == Succeeded || Recorded(c, t, passes) == Failed
  }

  /** The record says "succeeded" or "failed" for exactly the tests that were reached if no test is
      focused, and otherwise just for the tests that are skipped by name or focused exactly when supported. */
  lemma RecordAgreesIff(c: Config, t: Test)
    ensures (forall passes :: RecordedAsRun(c, t, passes) <==> PassesGates(c, t)) <==>
            (c.focus == "" || t.shortName in c.skip || (c.focus == t.shortName <==> Supports(c, t)))
  {
    assert RecordedAsRun(c, t, true) <==> t.shortName !in c.skip && Supports(c, t);
    assert RecordedAsRun(c, t, false) <==> PassesGates(c, t) || (t.shortName !in c.skip && Supports(c, t));
  }

  /** With one test focused, another that is supported and not skipped is recorded as succeeded
      although it is never reached. */
  lemma FocusRecordsUnreached(passes: bool)
    ensures var c, t := Config({"Gateway"}, {}, "Focused"), Test("Other", ["Gateway"]);
            !PassesGates(c, t) && Recorded(c, t, passes) == Succeeded
  {
  }

  /** What is recorded: a reached test that fails as failed; of the others one that needs an unsupported
      feature as unsupported, then one that is skipped by name as skipped, and all the rest as succeeded.
      Without a focused test that means: reached and passed. */
  lemma RecordMeans(c: Config, t: Test, passes: bool)
    ensures var failed, supported := PassesGates(c, t) && !passes, forall f | f in t.features :: f in c.supported;
            && (Recorded(c, t, passes) == Failed <==> failed)
            && (Recorded(c, t, passes) == NotSupported <==> !failed && !supported)
            && (Recorded(c, t, passes) == Skipped <==> !failed && supported && t.shortName in c.skip)
            && (Recorded(c, t, passes) == Succeeded <==> !failed && supported && t.shortName !in c.skip)
    ensures c.focus == "" ==> (Recorded(c, t, passes) == Succeeded <==> PassesGates(c, t) && passes)
  {
    assert Supports(c, t) <==> forall f | f in t.features :: f in c.supported;
  }

  // ----- A list of tests -----

  /** A later test of the same name replaces an earlier one. */
  function Collected(c: Config, tests: seq<Test>, passes: seq<bool>): Results
    requires |passes| <= |tests|
    decreases |passes|
  {
    if passes == [] then map[]
    else
      var n := |passes| - 1;
      Collected(c, tests, passes[..n])[tests[n].shortName := TestResult(tests[n], Recorded(c, tests[n], passes[n]))]
  }

  method RunTests(c: Config, tests: seq<Test>, passes: seq<bool>) returns (results: Results)
    requires |passes| == |tests|
    ensures results == Collected(c, tests, passes)
  {
    results := map[];
    for i := 0 to |tests|
      invariant results == Collected(c, tests, passes[..i])
    {
      var test := tests[i];
      var reached, succeeded := RunOne(c, test, passes[i]);
      var res := Succeeded;
      if test.shortName in c.skip {
        res := Skipped;
      }
      if !Supports(c, test) {
        res := NotSupported;
      }
      if !succeeded {
        res := Failed;
      }
      results := results[test.shortName := TestResult(test, res)];
      assert passes[..i + 1][..i] == passes[..i];
    }
    assert passes[..|tests|] == passes;
  }

  predicate UniqueNames(tests: seq<Test>)
  {
    forall i, j | 0 <= i < j < |tests| :: tests[i].shortName != tests[j].shortName
  }

  /** No test after this one, up to number `n`, has its name. */
  predicate LastOfName(tests: seq<Test>, i: nat, n: nat)
    requires i < |tests| && n <= |tests|
  {
    forall j | i < j < n :: tests[j].shortName != tests[i].shortName
  }

  lemma {:induction false} LastOfNameRecorded(c: Config, tests: seq<Test>, passes: seq<bool>, i: nat)
    requires i < |passes| <= |tests| && LastOfName(tests, i, |passes|)
    ensures tests[i].shortName in Collected(c, tests, passes)
    ensures Collected(c, tests, passes)[tests[i].shortName] == TestResult(tests[i], Recorded(c, tests[i], passes[i]))
    decreases |passes|
  {
    var n := |passes| - 1;
    if i < n {
      assert tests[n].shortName != tests[i].shortName;
      LastOfNameRecorded(c, tests, passes[..n], i);
    }
  }

  /** Results are filed under the names of the tests run, and there are no others. The result under a
      name is that of the last test of that name. */
  lemma {:induction false} CollectedIsComplete(c: Config, tests: seq<Test>, passes: seq<bool>)
    requires |passes| <= |tests|
    ensures forall k | k in Collected(c, tests, passes) :: Collected(c, tests, passes)[k].test.shortName == k
    ensures forall k :: k in Collected(c, tests, passes) <==> exists i | 0 <= i < |passes| :: tests[i].shortName == k
    ensures forall i | 0 <= i < |passes| && LastOfName(tests, i, |passes|) ::
              tests[i].shortName in Collected(c, tests, passes) &&
              Collected(c, tests, passes)[tests[i].shortName] == TestResult(tests[i], Recorded(c, tests[i], passes[i]))
    decreases |passes|
  {
    if passes != [] {
      CollectedIsComplete(c, tests, passes[..|passes| - 1]);
    }
    forall i | 0 <= i < |passes| && LastOfName(tests, i, |passes|)
      ensures tests[i].shortName in Collected(c, tests, passes)
      ensures Collected(c, tests, passes)[tests[i].shortName] == TestResult(tests[i], Recorded(c, tests[i], passes[i]))
    {
      LastOfNameRecorded(c, tests, passes, i);
    }
  }

  /** With unique names every test is the last of its name. */
  lemma UniqueAreLast(tests: seq<Test>, i: nat)
    requires UniqueNames(tests) && i < |tests|
    ensures LastOfName(tests, i, |tests|)
  {
  }
}
