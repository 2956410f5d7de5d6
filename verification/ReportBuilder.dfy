/** The report of a finished run, and what its numbers add up to. Models Report in
    conformance/utils/suite/suite.go and compileResults in conformance/utils/suite/reports.go. */
module ReportBuilder {
  import opened Wrappers
  import opened Features
  import opened TestRun
  import opened Reports
  import Text

  // ----- Sorting names -----

  predicate StrictlySorted(xs: seq<string>)
  {
    forall i, j | 0 <= i < j < |xs| :: Text.Less(xs[i], xs[j])
  }

  /** The position before which everything is less than `x`. */
  method InsertSorted(xs: seq<string>, x: string) returns (r: seq<string>)
    requires StrictlySorted(xs) && x !in xs
    ensures StrictlySorted(r) && forall y :: y in r <==> y in xs || y == x
  {
    var i := 0;
    while i < |xs| && Text.Less(xs[i], x)
      invariant 0 <= i <= |xs| && forall k | 0 <= k < i :: Text.Less(xs[k], x)
    {
      i := i + 1;
    }
    forall k | i <= k < |xs| ensures Text.Less(x, xs[k]) {
      Text.LessTotal(x, xs[i]);
      if k > i {
        Text.LessTransitive(x, xs[i], xs[k]);
      }
    }
    r := xs[..i] + [x] + xs[i..];
  }

  method SortStrings(s: set<string>) returns (r: seq<string>)
    ensures StrictlySorted(r) && forall y :: y in r <==> y in s
  {
    r := [];
    var todo := s;
    while todo != {}
      invariant todo <= s && StrictlySorted(r) && forall y :: y in r <==> y in s && y !in todo
    {
      var x :| x in todo;
      r := InsertSorted(r, x);
      todo := todo - {x};
    }
  }

  // ----- Adding every result to the profiles it belongs to -----

  /** Results are filed under the names of their tests, as a finished run leaves them. */
  predicate Filed(results: Results)
  {
    forall n | n in results :: results[n].test.shortName == n
  }

  function NameOf(e: Entry): string
  {
    e.result.test.shortName
  }

  type Pairs = set<(string, string)>

  /** Every entry is a result of a covered pair of profile key and test name. */
  predicate Sourced(results: Results, registry: Registry, covered: Pairs, log: seq<Entry>)
  {
    forall e | e in log ::
      && (e.key, NameOf(e)) in covered && NameOf(e) in results && results[NameOf(e)] == e.result
      && e.profile == ProfileFor(registry, e.key) && Belongs(e.profile, e.result.test)
  }

  /** No pair comes twice, and the tests come in the order of their names. */
  predicate Ordered(log: seq<Entry>)
  {
    forall i, j | 0 <= i < j < |log| :: Precedes(log[i], log[j])
  }

  predicate Precedes(a: Entry, b: Entry)
  {
    Text.Less(NameOf(a), NameOf(b)) || (NameOf(a) == NameOf(b) && a.key != b.key)
  }

  /** Every covered result has been added to every profile it belongs to. */
  ghost predicate Covering(results: Results, registry: Registry, covered: Pairs, log: seq<Entry>)
  {
    forall k, n | (k, n) in covered && n in results && Belongs(ProfileFor(registry, k), results[n].test) ::
      Entry(k, ProfileFor(registry, k), results[n]) in log
  }

  ghost predicate LogOf(results: Results, registry: Registry, covered: Pairs, log: seq<Entry>)
  {
    Sourced(results, registry, covered, log) && Ordered(log) && Covering(results, registry, covered, log)
  }

  predicate UpTo(covered: Pairs, n: string)
  {
    forall p | p in covered :: p.1 == n || Text.Less(p.1, n)
  }

  lemma CoverMore(results: Results, registry: Registry, covered: Pairs, log: seq<Entry>, k: string, n: string)
    requires LogOf(results, registry, covered, log) && Filed(results)
    requires n in results && (k, n) !in covered && UpTo(covered, n)
    ensures var e := Entry(k, ProfileFor(registry, k), results[n]);
            LogOf(results, registry, covered + {(k, n)}, if Belongs(e.profile, e.result.test) then log + [e] else log)
  {
  }

  function AllPairs(keys: set<string>, results: Results): Pairs
  {
    set k, n | k in keys && n in results.Keys :: (k, n)
  }

  /** One test added to its profiles, in an arbitrary order: sorting them by name, as the source
      does, is one such order. */
  method AddToProfiles(r: ProfileReports, results: Results, name: string, keys: set<string>, registry: Registry, ghost before: Pairs)
    requires r.Valid() && LogOf(results, registry, before, r.log) && Filed(results) && name in results
    requires UpTo(before, name) && forall k | k in keys :: (k, name) !in before
    modifies r
    ensures r.Valid() && LogOf(results, registry, before + (set k | k in keys :: (k, name)), r.log)
  {
    var todo := keys;
    ghost var covered := before;
    while todo != {}
      invariant todo <= keys && r.Valid() && LogOf(results, registry, covered, r.log) && UpTo(covered, name)
      invariant covered == before + (set k | k in keys - todo :: (k, name))
    {
      var k :| k in todo;
      var profile := ProfileFor(registry, k);
      CoverMore(results, registry, covered, r.log, k, name);
      var all := HasAllFeatures(profile, results[name].test);
      if all {
        r.AddTestResults(k, profile, results[name]);
      }
      todo := todo - {k};
      covered := covered + {(k, name)};
    }
    assert keys - todo == keys;
  }

  method AddAll(results: Results, keys: set<string>, registry: Registry) returns (r: ProfileReports)
    requires Filed(results)
    ensures fresh(r) && r.Valid() && LogOf(results, registry, AllPairs(keys, results), r.log)
  {
    var names := SortStrings(results.Keys);
    r := new ProfileReports();
    ghost var covered: Pairs := {};
    for i := 0 to |names|
      invariant fresh(r) && r.Valid() && LogOf(results, registry, covered, r.log)
      invariant forall p :: p in covered <==> p.0 in keys && p.1 in names[..i]
    {
      assert names[i] !in names[..i] by {
        Text.LessTotal(names[i], names[i]);
      }
      AddToProfiles(r, results, names[i], keys, registry, covered);
      covered := covered + set k | k in keys :: (k, names[i]);
    }
    assert covered == AllPairs(keys, results);
  }

  // ----- Conservation -----

  /** The pairs of profile and test that the report `name` should account for. Usually one profile
      has that name, but nothing keeps two registered profiles from sharing it. */
  ghost function Expected(results: Results, keys: set<string>, registry: Registry, name: string): Pairs
  {
    set p | p in AllPairs(keys, results) && ProfileFor(registry, p.0).name == name &&
            Belongs(ProfileFor(registry, p.0), results[p.1].test) && results[p.1].result != NotSupported
  }

  ghost function Accounted(log: seq<Entry>, name: string): Pairs
  {
    set e | e in log && e.profile.name == name && e.result.result != NotSupported :: (e.key, NameOf(e))
  }

  /** All tests a report lists at one level, passed ones included. */
  function ListedAt(log: seq<Entry>, name: string, extended: bool): nat
  {
    |Listed(log, name, extended, Succeeded)| + |Listed(log, name, extended, Failed)| + |Listed(log, name, extended, Skipped)|
  }

  lemma {:induction false} ListedIsAccounted(log: seq<Entry>, name: string)
    requires Ordered(log)
    ensures ListedAt(log, name, false) + ListedAt(log, name, true) == |Accounted(log, name)|
  {
    if log != [] {
      var n := |log| - 1;
      var init, e := log[..n], log[n];
      assert log == init + [e];
      ListedIsAccounted(init, name);
      ListedAtSnoc(init, e, name, false);
      ListedAtSnoc(init, e, name, true);
      AccountedSnoc(init, e, name);
    }
  }

  lemma ListedAtSnoc(log: seq<Entry>, e: Entry, name: string, extended: bool)
    ensures ListedAt(log + [e], name, extended) ==
            ListedAt(log, name, extended) +
            if e.profile.name == name && e.result.result != NotSupported && IsExtended(e.profile, e.result.test) == extended then 1 else 0
  {
  }

  lemma AccountedSnoc(log: seq<Entry>, e: Entry, name: string)
    requires Ordered(log + [e])
    ensures |Accounted(log + [e], name)| ==
            |Accounted(log, name)| + if e.profile.name == name && e.result.result != NotSupported then 1 else 0
  {
    var counts := (x: Entry) => x.profile.name == name && x.result.result != NotSupported;
    assert Accounted(log, name) == Chosen(log, counts) && Accounted(log + [e], name) == Chosen(log + [e], counts);
    ChosenSnoc(log, e, counts);
  }

  lemma AccountedIsExpected(results: Results, keys: set<string>, registry: Registry, log: seq<Entry>, name: string)
    requires LogOf(results, registry, AllPairs(keys, results), log) && Filed(results)
    ensures Accounted(log, name) == Expected(results, keys, registry, name)
  {
  }

  lemma {:induction false} ListedWithin(log: seq<Entry>, name: string, extended: bool, kind: ResultType)
    ensures |Listed(log, name, extended, kind)| <= |log|
  {
    if log != [] {
      ListedWithin(log[..|log| - 1], name, extended, kind);
    }
  }

  function Total(st: Status): nat
  {
    st.passed + st.failed + st.skipped
  }

  /** With fewer than 2^32 additions no counter wraps around. */
  lemma NoWrap(st: Status, log: seq<Entry>, name: string, extended: bool)
    requires StatusSays(st, log, name, extended) && |log| < WIDTH
    ensures st.passed == |Listed(log, name, extended, Succeeded)|
    ensures st.failed == |st.failedTests| && st.skipped == |st.skippedTests|
    ensures Total(st) == ListedAt(log, name, extended)
  {
    ListedWithin(log, name, extended, Succeeded);
    ListedWithin(log, name, extended, Failed);
    ListedWithin(log, name, extended, Skipped);
  }

  /** The counters of a report add up to exactly the pairs of a selected profile of its name and a test
      of that profile that was not marked as unsupported. None is lost, and a test is counted once for
      each such profile. */
  lemma Conservation(results: Results, keys: set<string>, registry: Registry, p: map<string, ProfileReport>, log: seq<Entry>, name: string)
    requires Filed(results) && LogOf(results, registry, AllPairs(keys, results), log) && ReportsSay(p, log)
    requires |log| < 0x1_0000_0000 && name in p
    ensures Total(p[name].core) + (if p[name].extended.None? then 0 else Total(p[name].extended.value.status)) ==
            |Expected(results, keys, registry, name)|
  {
    assert ReportSays(p[name], log, name);
    NoWrap(p[name].core, log, name, false);
    if p[name].extended.Some? {
      NoWrap(p[name].extended.value.status, log, name, true);
    }
    ListedIsAccounted(log, name);
    AccountedIsExpected(results, keys, registry, log, name);
  }

  /** The tests of one profile that were not marked as unsupported. */
  ghost function OwnTests(results: Results, registry: Registry, key: string): set<string>
  {
    set n | n in results && Belongs(ProfileFor(registry, key), results[n].test) && results[n].result != NotSupported
  }

  /** No other selected profile of the same name has a test to count. */
  ghost predicate CountsAlone(results: Results, keys: set<string>, registry: Registry, key: string)
  {
    forall k | k in keys && k != key && ProfileFor(registry, k).name == ProfileFor(registry, key).name ::
      OwnTests(results, registry, k) == {}
  }

  /** A report counts just the tests of one profile if and only if that profile counts alone. */
  lemma SoleProfileIff(results: Results, keys: set<string>, registry: Registry, key: string)
    requires key in keys
    ensures |Expected(results, keys, registry, ProfileFor(registry, key).name)| == |OwnTests(results, registry, key)| <==>
            CountsAlone(results, keys, registry, key)
  {
    var tests, pairs := OwnTests(results, registry, key), Expected(results, keys, registry, ProfileFor(registry, key).name);
    var own := set n | n in tests :: (key, n);
    PairsWith(key, tests);
    forall n | n in tests ensures (key, n) in pairs {
      assert (key, n) in AllPairs(keys, results);
    }
    SubsetCardinality(own, pairs);
    if CountsAlone(results, keys, registry, key) {
      forall p | p in pairs ensures p in own {
        assert p.1 in OwnTests(results, registry, p.0);
        assert p == (p.0, p.1);
      }
    } else {
      var k :| k in keys && k != key && ProfileFor(registry, k).name == ProfileFor(registry, key).name && OwnTests(results, registry, k) != {};
      var n :| n in OwnTests(results, registry, k);
      assert (k, n) in AllPairs(keys, results);
      assert (k, n) in pairs && (k, n) !in own;
    }
  }

  lemma SubsetCardinality<T>(a: set<T>, b: set<T>)
    requires a <= b
    ensures |a| == |b| <==> a == b
  {
    assert b == a + (b - a);
  }

  lemma {:induction false} PairsWith(key: string, tests: set<string>)
    ensures |set n | n in tests :: (key, n)| == |tests|
  {
    if tests != {} {
      var n :| n in tests;
      PairsWith(key, tests - {n});
      assert (set m | m in tests :: (key, m)) == (set m | m in tests - {n} :: (key, m)) + {(key, n)};
    }
  }

  /** No two entries that count at one level with one result are of tests with the same name. */
  predicate NoTwins(log: seq<Entry>, name: string, extended: bool, kind: ResultType)
  {
    forall i, j | 0 <= i < j < |log| && Counts(log[i], name, extended, kind) && Counts(log[j], name, extended, kind) ::
      NameOf(log[i]) != NameOf(log[j])
  }

  /** An entry of the test `x` counts. */
  predicate Lists(log: seq<Entry>, x: string, name: string, extended: bool, kind: ResultType)
  {
    exists i | 0 <= i < |log| :: Counts(log[i], name, extended, kind) && NameOf(log[i]) == x
  }

  /** The tests listed are those of the entries that count. */
  lemma {:induction false} ListedMembers(log: seq<Entry>, name: string, extended: bool, kind: ResultType, x: string)
    ensures x in Listed(log, name, extended, kind) <==> Lists(log, x, name, extended, kind)
  {
    if log != [] {
      var n := |log| - 1;
      ListedMembers(log[..n], name, extended, kind, x);
      if i :| 0 <= i < n && Counts(log[..n][i], name, extended, kind) && NameOf(log[..n][i]) == x {
        assert Counts(log[i], name, extended, kind) && NameOf(log[i]) == x;
      }
      if i :| 0 <= i < n && Counts(log[i], name, extended, kind) && NameOf(log[i]) == x {
        assert Counts(log[..n][i], name, extended, kind) && NameOf(log[..n][i]) == x;
      }
    }
  }

  lemma SortedSnoc(xs: seq<string>, x: string)
    ensures StrictlySorted(xs + [x]) <==> StrictlySorted(xs) && forall y | y in xs :: Text.Less(y, x)
  {
    var all := xs + [x];
    if StrictlySorted(all) {
      forall i, j | 0 <= i < j < |xs| ensures Text.Less(xs[i], xs[j]) {
        assert Text.Less(all[i], all[j]);
      }
      forall y | y in xs ensures Text.Less(y, x) {
        var i :| 0 <= i < |xs| && xs[i] == y;
        assert Text.Less(all[i], all[|xs|]);
      }
    } else if StrictlySorted(xs) {
      var i, j :| 0 <= i < j < |all| && !Text.Less(all[i], all[j]);
      assert all[i] in xs && j == |xs|;
    }
  }

  /** A list of an ordered log is strictly sorted if and only if no test is listed twice. */
  lemma {:induction false} ListedSortedIff(log: seq<Entry>, name: string, extended: bool, kind: ResultType)
    requires Ordered(log)
    ensures StrictlySorted(Listed(log, name, extended, kind)) <==> NoTwins(log, name, extended, kind)
  {
    if log != [] {
      var n := |log| - 1;
      ListedSortedIff(log[..n], name, extended, kind);
      assert log == log[..n] + [log[n]];
      NoTwinsSnoc(log[..n], log, log[n], name, extended, kind);
      ListedMembers(log[..n], name, extended, kind, NameOf(log[n]));
      if Counts(log[n], name, extended, kind) {
        SortedSnoc(Listed(log[..n], name, extended, kind), NameOf(log[n]));
        LastNameGreatest(log, name, extended, kind);
      } else {
        assert Listed(log, name, extended, kind) == Listed(log[..n], name, extended, kind);
      }
    }
  }

  lemma NoTwinsSnoc(log: seq<Entry>, all: seq<Entry>, e: Entry, name: string, extended: bool, kind: ResultType)
    requires all == log + [e]
    ensures NoTwins(all, name, extended, kind) <==>
            NoTwins(log, name, extended, kind) && !(Counts(e, name, extended, kind) && Lists(log, NameOf(e), name, extended, kind))
  {
    var n := |log|;
    assert all[n] == e && forall i | 0 <= i < n :: all[i] == log[i];
    if NoTwins(all, name, extended, kind) {
      forall i, j | 0 <= i < j < n && Counts(log[i], name, extended, kind) && Counts(log[j], name, extended, kind)
        ensures NameOf(log[i]) != NameOf(log[j])
      {
        assert Counts(all[i], name, extended, kind) && Counts(all[j], name, extended, kind);
      }
      if i :| 0 <= i < n && Counts(log[i], name, extended, kind) && NameOf(log[i]) == NameOf(e) {
        assert Counts(all[i], name, extended, kind) && NameOf(all[i]) == NameOf(all[n]);
      }
    }
  }

  /** What is listed before comes no later in the order of names, so it is less or the same. */
  lemma LastNameGreatest(log: seq<Entry>, name: string, extended: bool, kind: ResultType)
    requires log != [] && Ordered(log)
    ensures var n := |log| - 1;
            var before := Listed(log[..n], name, extended, kind);
            (forall y | y in before :: Text.Less(y, NameOf(log[n]))) <==> NameOf(log[n]) !in before
  {
    var n := |log| - 1;
    var before := Listed(log[..n], name, extended, kind);
    Text.LessTotal(NameOf(log[n]), NameOf(log[n]));
    forall y | y in before ensures Text.Less(y, NameOf(log[n])) || y == NameOf(log[n]) {
      ListedMembers(log[..n], name, extended, kind, y);
      var i :| 0 <= i < n && Counts(log[..n][i], name, extended, kind) && NameOf(log[..n][i]) == y;
      assert Precedes(log[i], log[n]);
    }
  }

  /** A test that counts at a level of the report of a profile with a given result. */
  predicate CountsFor(results: Results, registry: Registry, key: string, n: string, name: string, extended: bool, kind: ResultType)
  {
    && n in results && Belongs(ProfileFor(registry, key), results[n].test)
    && Counts(Entry(key, ProfileFor(registry, key), results[n]), name, extended, kind)
  }

  /** No test counts at one level with one result for two selected profiles of the same name. */
  ghost predicate ListedOnce(results: Results, keys: set<string>, registry: Registry, name: string, extended: bool, kind: ResultType)
  {
    forall k, l, n | k in keys && l in keys && CountsFor(results, registry, k, n, name, extended, kind) &&
                     CountsFor(results, registry, l, n, name, extended, kind) ::
      k == l
  }

  /** The lists of failed and skipped tests are strictly sorted if and only if no test is in them for
      two profiles. */
  lemma ListedIsSorted(results: Results, keys: set<string>, registry: Registry, log: seq<Entry>, name: string, extended: bool, kind: ResultType)
    requires Filed(results) && LogOf(results, registry, AllPairs(keys, results), log)
    ensures StrictlySorted(Listed(log, name, extended, kind)) <==> ListedOnce(results, keys, registry, name, extended, kind)
  {
    ListedSortedIff(log, name, extended, kind);
    if ListedOnce(results, keys, registry, name, extended, kind) {
      OnceMeansNoTwins(results, keys, registry, log, name, extended, kind);
    } else {
      var k, l, n :| k in keys && l in keys && CountsFor(results, registry, k, n, name, extended, kind) &&
                     CountsFor(results, registry, l, n, name, extended, kind) && k != l;
      var i := EntryFor(results, keys, registry, log, k, n);
      var j := EntryFor(results, keys, registry, log, l, n);
      assert NameOf(log[i]) == NameOf(log[j]);
    }
  }

  lemma OnceMeansNoTwins(results: Results, keys: set<string>, registry: Registry, log: seq<Entry>, name: string, extended: bool, kind: ResultType)
    requires Sourced(results, registry, AllPairs(keys, results), log) && Ordered(log)
    requires ListedOnce(results, keys, registry, name, extended, kind)
    ensures NoTwins(log, name, extended, kind)
  {
    forall i, j | 0 <= i < j < |log| && Counts(log[i], name, extended, kind) && Counts(log[j], name, extended, kind)
      ensures NameOf(log[i]) != NameOf(log[j])
    {
      assert log[i] in log && log[j] in log && Precedes(log[i], log[j]);
      Text.LessTotal(NameOf(log[i]), NameOf(log[j]));
      if NameOf(log[i]) == NameOf(log[j]) {
        assert CountsFor(results, registry, log[i].key, NameOf(log[i]), name, extended, kind);
        assert CountsFor(results, registry, log[j].key, NameOf(log[i]), name, extended, kind);
      }
    }
  }

  lemma EntryFor(results: Results, keys: set<string>, registry: Registry, log: seq<Entry>, k: string, n: string) returns (i: nat)
    requires Covering(results, registry, AllPairs(keys, results), log)
    requires k in keys && n in results && Belongs(ProfileFor(registry, k), results[n].test)
    ensures i < |log| && log[i] == Entry(k, ProfileFor(registry, k), results[n])
  {
    assert (k, n) in AllPairs(keys, results);
    i :| 0 <= i < |log| && log[i] == Entry(k, ProfileFor(registry, k), results[n]);
  }

  // ----- Verdicts -----

  function Judge(st: Status): Status
  {
    st.(result := if st.failed > 0 then Failure else if st.skipped > 0 then Partial else Success)
  }

  lemma SuccessIffNothingMissing(st: Status, log: seq<Entry>, name: string, extended: bool)
    requires StatusSays(st, log, name, extended) && |log| < WIDTH
    ensures Judge(st).result == Success <==> st.failedTests == [] && st.skippedTests == []
    ensures Judge(st).result == Failure <==> st.failedTests != []
    ensures Judge(st).result == Partial <==> st.failedTests == [] && st.skippedTests != []
    ensures StatusSays(Judge(st), log, name, extended)
  {
    NoWrap(st, log, name, extended);
  }

  /** A list extended by a feature set in sorted order; a nil set adds nothing. */
  predicate ListsSet(before: seq<string>, after: seq<string>, m: map<string, set<string>>, name: string)
  {
    && before <= after
    && var added := after[|before|..];
       StrictlySorted(added) && (set f | f in added) == SetAt(m, name)
  }

  ghost predicate Compiled(before: ProfileReport, after: ProfileReport, yes: map<string, set<string>>, no: map<string, set<string>>)
  {
    && after.name == before.name && after.core == Judge(before.core)
    && (before.extended.None? <==> after.extended.None?)
    && (before.extended.Some? ==>
          var b, a := before.extended.value, after.extended.value;
          && a.status == Judge(b.status)
          && ListsSet(b.supportedFeatures, a.supportedFeatures, yes, before.name)
          && ListsSet(b.unsupportedFeatures, a.unsupportedFeatures, no, before.name))
  }

  method CompileOne(report: ProfileReport, yes: map<string, set<string>>, no: map<string, set<string>>) returns (r: ProfileReport)
    ensures Compiled(report, r, yes, no)
  {
    r := report.(core := Judge(report.core));
    if report.extended.Some? {
      var x := report.extended.value;
      var supported := SortStrings(SetAt(yes, report.name));
      var unsupported := SortStrings(SetAt(no, report.name));
      x := x.(status := Judge(x.status), supportedFeatures := x.supportedFeatures + supported, unsupportedFeatures := x.unsupportedFeatures + unsupported);
      assert x.supportedFeatures[|report.extended.value.supportedFeatures|..] == supported;
      assert x.unsupportedFeatures[|report.extended.value.unsupportedFeatures|..] == unsupported;
      r := r.(extended := Some(x));
    }
  }

  /** Every report is judged and completed, in whatever order the map is ranged over. */
  method CompileResults(p: map<string, ProfileReport>, yes: map<string, set<string>>, no: map<string, set<string>>)
    returns (r: map<string, ProfileReport>)
    ensures r.Keys == p.Keys && forall name | name in p :: Compiled(p[name], r[name], yes, no)
  {
    r := p;
    var todo := p.Keys;
    while todo != {}
      invariant todo <= p.Keys && r.Keys == p.Keys
      invariant forall name | name in p :: if name in todo then r[name] == p[name] else Compiled(p[name], r[name], yes, no)
    {
      var name :| name in todo;
      var report := CompileOne(r[name], yes, no);
      r := r[name := report];
      todo := todo - {name};
    }
  }

  lemma CompilingKeepsCounts(p: map<string, ProfileReport>, r: map<string, ProfileReport>, log: seq<Entry>,
                             yes: map<string, set<string>>, no: map<string, set<string>>)
    requires ReportsSay(p, log) && r.Keys == p.Keys && forall name | name in p :: Compiled(p[name], r[name], yes, no)
    ensures ReportsSay(r, log)
  {
  }

  /** A whole report: the counts of the log it was built from, judged, with its feature lists. */
  method Report(results: Results, keys: set<string>, registry: Registry, yes: map<string, set<string>>, no: map<string, set<string>>)
    returns (r: map<string, ProfileReport>, ghost log: seq<Entry>)
    requires Filed(results)
    ensures LogOf(results, registry, AllPairs(keys, results), log) && ReportsSay(r, log)
    ensures forall name | name in r :: r[name].core == Judge(r[name].core)
    ensures forall name | name in r && r[name].extended.Some? ::
              var x := r[name].extended.value;
              && x.status == Judge(x.status)
              && ListsSet([], x.supportedFeatures, yes, name) && ListsSet([], x.unsupportedFeatures, no, name)
  {
    var reports := AddAll(results, keys, registry);
    log := reports.log;
    r := CompileResults(reports.reports, yes, no);
    CompilingKeepsCounts(reports.reports, r, log, yes, no);
    forall name | name in r
      ensures r[name].core == Judge(r[name].core)
      ensures r[name].extended.Some? ==>
                var x := r[name].extended.value;
                && x.status == Judge(x.status)
                && ListsSet([], x.supportedFeatures, yes, name) && ListsSet([], x.unsupportedFeatures, no, name)
    {
      assert Compiled(reports.reports[name], r[name], yes, no) && NoFeaturesYet(reports.reports[name]);
      assert ReportSays(r[name], log, name);
    }
  }

  /** The report that carries a profile's name. Its counters add up to the profile's own tests that
      were not marked unsupported if and only if the profile counts alone. A list is strictly sorted if
      and only if no test is in it for two profiles. Always, lists are as long as their counters say and
      a level succeeds exactly when both its lists are empty. */
  lemma ReportIsExact(results: Results, keys: set<string>, registry: Registry, r: map<string, ProfileReport>, log: seq<Entry>, key: string)
    requires Filed(results) && LogOf(results, registry, AllPairs(keys, results), log) && ReportsSay(r, log) && |log| < 0x1_0000_0000
    requires key in keys && ProfileFor(registry, key).name in r
    requires forall name | name in r :: r[name].core == Judge(r[name].core)
    requires forall name | name in r && r[name].extended.Some? :: r[name].extended.value.status == Judge(r[name].extended.value.status)
    ensures var report := r[ProfileFor(registry, key).name];
            var total := Total(report.core) + (if report.extended.None? then 0 else Total(report.extended.value.status));
            total == |OwnTests(results, registry, key)| <==> CountsAlone(results, keys, registry, key)
    ensures Exact(r[ProfileFor(registry, key).name].core, results, keys, registry, ProfileFor(registry, key).name, false)
    ensures var x := r[ProfileFor(registry, key).name].extended;
            x.Some? ==> Exact(x.value.status, results, keys, registry, ProfileFor(registry, key).name, true)
  {
    var name := ProfileFor(registry, key).name;
    Conservation(results, keys, registry, r, log, name);
    SoleProfileIff(results, keys, registry, key);
    assert ReportSays(r[name], log, name);
    StatusIsExact(r[name].core, results, keys, registry, log, name, false);
    if r[name].extended.Some? {
      StatusIsExact(r[name].extended.value.status, results, keys, registry, log, name, true);
    }
  }

  /** What one level of a report says. The counters and lists are those of the tests of the selected
      profiles of that name that count at this level, each result in its own counter and list; the
      result is Failure if a test failed, else Partial if one was skipped, else Success. */
  ghost predicate Exact(st: Status, results: Results, keys: set<string>, registry: Registry, name: string, extended: bool)
  {
    && st.passed == |PairsWithResult(results, keys, registry, name, extended, Succeeded)|
    && st.failed == |PairsWithResult(results, keys, registry, name, extended, Failed)| == |st.failedTests|
    && st.skipped == |PairsWithResult(results, keys, registry, name, extended, Skipped)| == |st.skippedTests|
    && (forall n :: n in st.failedTests <==> exists k | k in keys :: (k, n) in PairsWithResult(results, keys, registry, name, extended, Failed))
    && (forall n :: n in st.skippedTests <==> exists k | k in keys :: (k, n) in PairsWithResult(results, keys, registry, name, extended, Skipped))
    && (StrictlySorted(st.failedTests) <==> ListedOnce(results, keys, registry, name, extended, Failed))
    && (StrictlySorted(st.skippedTests) <==> ListedOnce(results, keys, registry, name, extended, Skipped))
    && (st.result == Failure <==> st.failedTests != [])
    && (st.result == Partial <==> st.failedTests == [] && st.skippedTests != [])
    && (st.result == Success <==> st.failedTests == [] && st.skippedTests == [])
  }

  lemma StatusIsExact(st: Status, results: Results, keys: set<string>, registry: Registry, log: seq<Entry>, name: string, extended: bool)
    requires StatusSays(st, log, name, extended) && |log| < WIDTH && st == Judge(st)
    requires Filed(results) && LogOf(results, registry, AllPairs(keys, results), log)
    ensures Exact(st, results, keys, registry, name, extended)
  {
    SuccessIffNothingMissing(st, log, name, extended);
    NoWrap(st, log, name, extended);
    ListedIsSorted(results, keys, registry, log, name, extended, Failed);
    ListedIsSorted(results, keys, registry, log, name, extended, Skipped);
    ListedArePairs(results, keys, registry, log, name, extended, Succeeded);
    ListedArePairs(results, keys, registry, log, name, extended, Failed);
    ListedArePairs(results, keys, registry, log, name, extended, Skipped);
  }

  // ----- Each result in its own list -----

  /** The pairs of a selected profile of this name and a test of it with this result, at the level to
      which the test belongs in that profile: core if it needs nothing but core features. */
  ghost function PairsWithResult(results: Results, keys: set<string>, registry: Registry, name: string, extended: bool, kind: ResultType): Pairs
  {
    set p | p in AllPairs(keys, results) && ProfileFor(registry, p.0).name == name &&
            Belongs(ProfileFor(registry, p.0), results[p.1].test) && results[p.1].result == kind &&
            ((exists f | f in results[p.1].test.features :: f !in ProfileFor(registry, p.0).core) <==> extended)
  }

  ghost function Tallied(log: seq<Entry>, name: string, extended: bool, kind: ResultType): Pairs
  {
    set e | e in log && Counts(e, name, extended, kind) :: (e.key, NameOf(e))
  }

  lemma TalliedSnoc(log: seq<Entry>, e: Entry, name: string, extended: bool, kind: ResultType)
    requires Ordered(log + [e])
    ensures |Tallied(log + [e], name, extended, kind)| == |Tallied(log, name, extended, kind)| + if Counts(e, name, extended, kind) then 1 else 0
  {
    var counts := (x: Entry) => Counts(x, name, extended, kind);
    assert Tallied(log, name, extended, kind) == Chosen(log, counts);
    assert Tallied(log + [e], name, extended, kind) == Chosen(log + [e], counts);
    ChosenSnoc(log, e, counts);
  }

  ghost function Chosen(log: seq<Entry>, choose: Entry -> bool): Pairs
  {
    set e | e in log && choose(e) :: (e.key, NameOf(e))
  }

  lemma ChosenSnoc(log: seq<Entry>, e: Entry, choose: Entry -> bool)
    requires Ordered(log + [e])
    ensures |Chosen(log + [e], choose)| == |Chosen(log, choose)| + if choose(e) then 1 else 0
  {
    var all, pair := log + [e], (e.key, NameOf(e));
    assert forall x :: x in all <==> x in log || x == e;
    if choose(e) {
      assert Chosen(all, choose) == Chosen(log, choose) + {pair};
      NotBefore(log, e);
    } else {
      assert Chosen(all, choose) == Chosen(log, choose);
    }
  }

  lemma NotBefore(log: seq<Entry>, e: Entry)
    requires Ordered(log + [e])
    ensures forall x | x in log :: (x.key, NameOf(x)) != (e.key, NameOf(e))
  {
    var all := log + [e];
    forall x | x in log ensures (x.key, NameOf(x)) != (e.key, NameOf(e)) {
      var i :| 0 <= i < |log| && log[i] == x;
      assert Precedes(all[i], all[|log|]);
      Text.LessTotal(NameOf(x), NameOf(e));
    }
  }

  lemma {:induction false} ListedIsTallied(log: seq<Entry>, name: string, extended: bool, kind: ResultType)
    requires Ordered(log)
    ensures |Listed(log, name, extended, kind)| == |Tallied(log, name, extended, kind)|
  {
    if log != [] {
      var n := |log| - 1;
      assert log == log[..n] + [log[n]];
      ListedIsTallied(log[..n], name, extended, kind);
      TalliedSnoc(log[..n], log[n], name, extended, kind);
    }
  }

  lemma ExtendedByFeature(p: Profile, t: Test)
    ensures IsExtended(p, t) <==> exists f | f in t.features :: f !in p.core
  {
    if f :| f in t.features && f !in p.core {
      var i :| 0 <= i < |t.features| && t.features[i] == f;
    }
  }

  lemma TalliedArePairs(results: Results, keys: set<string>, registry: Registry, log: seq<Entry>, name: string, extended: bool, kind: ResultType)
    requires LogOf(results, registry, AllPairs(keys, results), log) && Filed(results)
    ensures Tallied(log, name, extended, kind) == PairsWithResult(results, keys, registry, name, extended, kind)
  {
    forall p ensures p in Tallied(log, name, extended, kind) <==> p in PairsWithResult(results, keys, registry, name, extended, kind) {
      if p in AllPairs(keys, results) {
        ExtendedByFeature(ProfileFor(registry, p.0), results[p.1].test);
        var e := Entry(p.0, ProfileFor(registry, p.0), results[p.1]);
        assert Belongs(e.profile, e.result.test) ==> e in log;
        assert p == (e.key, NameOf(e));
      }
    }
  }

  /** A list is as long as there are such pairs, and its tests are those of the pairs. */
  lemma ListedArePairs(results: Results, keys: set<string>, registry: Registry, log: seq<Entry>, name: string, extended: bool, kind: ResultType)
    requires LogOf(results, registry, AllPairs(keys, results), log) && Filed(results)
    ensures |Listed(log, name, extended, kind)| == |PairsWithResult(results, keys, registry, name, extended, kind)|
    ensures forall n :: n in Listed(log, name, extended, kind) <==>
                        exists k | k in keys :: (k, n) in PairsWithResult(results, keys, registry, name, extended, kind)
  {
    ListedIsTallied(log, name, extended, kind);
    TalliedArePairs(results, keys, registry, log, name, extended, kind);
    forall n ensures n in Listed(log, name, extended, kind) <==>
                     exists k | k in keys :: (k, n) in PairsWithResult(results, keys, registry, name, extended, kind) {
      ListedMembers(log, name, extended, kind, n);
      TalliedNames(log, name, extended, kind, n);
    }
  }

  lemma TalliedNames(log: seq<Entry>, name: string, extended: bool, kind: ResultType, n: string)
    ensures Lists(log, n, name, extended, kind) <==> exists k :: (k, n) in Tallied(log, name, extended, kind)
  {
    if k :| (k, n) in Tallied(log, name, extended, kind) {
      var e :| e in log && Counts(e, name, extended, kind) && (k, n) == (e.key, NameOf(e));
      var i :| 0 <= i < |log| && log[i] == e;
    }
    if i :| 0 <= i < |log| && Counts(log[i], name, extended, kind) && NameOf(log[i]) == n {
      assert log[i] in log;
      assert (log[i].key, n) in Tallied(log, name, extended, kind);
    }
  }

  // ----- Two profiles of one name -----

  /** The two mesh profiles as they are registered, whatever their extended features. */
  function MeshRegistry(extendedHttp: set<string>, extendedGrpc: set<string>): Registry
  {
    map["MESH-HTTP" := Profile("MESH-HTTP", {"Mesh", "HTTPRoute"}, extendedHttp),
        "MESH-GRPC" := Profile("MESH-HTTP", {"Mesh", "GRPCRoute"}, extendedGrpc)]
  }

  const MESH_KEYS := {"MESH-HTTP", "MESH-GRPC"}

  const MESH_BASIC := TestResult(Test("MeshBasic", ["Mesh"]), Failed)

  /** With both mesh profiles selected, the failure of one test that needs just a mesh is counted and
      listed twice in the report of MESH-HTTP. */
  lemma MeshBasicCountsTwice(extendedHttp: set<string>, extendedGrpc: set<string>, r: map<string, ProfileReport>, log: seq<Entry>)
    requires var results, registry := map["MeshBasic" := MESH_BASIC], MeshRegistry(extendedHttp, extendedGrpc);
             LogOf(results, registry, AllPairs(MESH_KEYS, results), log) && ReportsSay(r, log)
    ensures "MESH-HTTP" in r && r["MESH-HTTP"].core.failed == 2 && r["MESH-HTTP"].core.failedTests == ["MeshBasic", "MeshBasic"]
    ensures OwnTests(map["MeshBasic" := MESH_BASIC], MeshRegistry(extendedHttp, extendedGrpc), "MESH-HTTP") == {"MeshBasic"}
  {
    var registry := MeshRegistry(extendedHttp, extendedGrpc);
    MeshLog(extendedHttp, extendedGrpc, log);
    CountedTwice(log, Entry("MESH-HTTP", registry["MESH-HTTP"], MESH_BASIC), Entry("MESH-GRPC", registry["MESH-GRPC"], MESH_BASIC), "MESH-HTTP", r);
  }

  /** Two entries of one test for two profiles of one name. */
  lemma CountedTwice(log: seq<Entry>, a: Entry, b: Entry, name: string, r: map<string, ProfileReport>)
    requires Ordered(log) && ReportsSay(r, log) && a in log && b in log && a != b && forall e | e in log :: e == a || e == b
    requires Counts(a, name, false, Failed) && Counts(b, name, false, Failed) && NameOf(a) == NameOf(b)
    ensures name in r && r[name].core.failed == 2 && r[name].core.failedTests == [NameOf(a), NameOf(a)]
  {
    TwoEntries(log, a, b);
    ListedTwice(log, name, false, Failed, NameOf(a));
    assert log[0].profile.name == name;
    assert ReportSays(r[name], log, name);
  }

  lemma MeshLog(extendedHttp: set<string>, extendedGrpc: set<string>, log: seq<Entry>)
    requires var results, registry := map["MeshBasic" := MESH_BASIC], MeshRegistry(extendedHttp, extendedGrpc);
             LogOf(results, registry, AllPairs(MESH_KEYS, results), log)
    ensures var registry := MeshRegistry(extendedHttp, extendedGrpc);
            var a, b := Entry("MESH-HTTP", registry["MESH-HTTP"], MESH_BASIC), Entry("MESH-GRPC", registry["MESH-GRPC"], MESH_BASIC);
            a in log && b in log && forall e | e in log :: e == a || e == b
  {
    var results := map["MeshBasic" := MESH_BASIC];
    assert ("MESH-HTTP", "MeshBasic") in AllPairs(MESH_KEYS, results) && ("MESH-GRPC", "MeshBasic") in AllPairs(MESH_KEYS, results);
  }

  lemma TwoEntries(log: seq<Entry>, a: Entry, b: Entry)
    requires Ordered(log) && a in log && b in log && a != b && NameOf(a) == NameOf(b) && forall e | e in log :: e == a || e == b
    ensures log == [a, b] || log == [b, a]
  {
    var i :| 0 <= i < |log| && log[i] == a;
    var j :| 0 <= j < |log| && log[j] == b;
    if |log| > 2 {
      OnlyThere(log, i, j, 0);
      OnlyThere(log, i, j, 1);
      OnlyThere(log, i, j, 2);
    }
  }

  lemma OnlyThere(log: seq<Entry>, i: nat, j: nat, k: nat)
    requires Ordered(log) && i < |log| && j < |log| && k < |log| && forall e | e in log :: e == log[i] || e == log[j]
    ensures k == i || k == j
  {
    assert log[k] in log;
    Text.LessTotal(NameOf(log[k]), NameOf(log[k]));
    assert k < i ==> Precedes(log[k], log[i]);
    assert k < j ==> Precedes(log[k], log[j]);
    assert i < k ==> Precedes(log[i], log[k]);
    assert j < k ==> Precedes(log[j], log[k]);
  }

  lemma ListedTwice(log: seq<Entry>, name: string, extended: bool, kind: ResultType, x: string)
    requires |log| == 2 && forall i | 0 <= i < 2 :: Counts(log[i], name, extended, kind) && NameOf(log[i]) == x
    ensures Listed(log, name, extended, kind) == [x, x]
  {
    assert log[..1][..0] == [];
    assert Listed(log[..1][..0], name, extended, kind) == [];
    assert Listed(log[..1], name, extended, kind) == [x];
  }
}
