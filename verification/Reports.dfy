/** Counting test results per profile. Models conformance/utils/suite/reports.go, the profile lookup
    of conformance/utils/suite/profiles.go and the report building of conformance/utils/suite/suite.go. */
module Reports {
  import opened Wrappers
  import opened Features
  import opened TestRun

  datatype Verdict = Undecided | Success | Partial | Failure

  datatype Status = Status(result: Verdict, passed: nat, failed: nat, skipped: nat, failedTests: seq<string>, skippedTests: seq<string>)

  datatype ExtendedStatus = ExtendedStatus(status: Status, supportedFeatures: seq<string>, unsupportedFeatures: seq<string>)

  /** `extended` stays absent until an extended test has a result to count. */
  datatype ProfileReport = ProfileReport(name: string, core: Status, extended: Option<ExtendedStatus>)

  const NO_STATUS := Status(Undecided, 0, 0, 0, [], [])
  const NO_EXTENDED := ExtendedStatus(NO_STATUS, [], [])

  /** The counters are 32 bits wide. */
  const WIDTH := 0x1_0000_0000

  function Wrapped(n: nat): (r: nat)
    ensures r < 0x1_0000_0000 && (n < 0x1_0000_0000 ==> r == n) && (n == 0x1_0000_0000 ==> r == 0)
  {
    n % WIDTH
  }

  function Increment(n: nat): nat
  {
    Wrapped(n + 1)
  }

  // ----- Profiles of a test -----

  /** What the lookup yields for a key nobody registered: a profile without name or features. */
  function ProfileFor(registry: Registry, key: string): Profile
  {
    if key in registry then registry[key] else Profile("", {}, {})
  }

  /** To such a profile belong just the tests that need nothing, and its reports have no name. */
  lemma UnregisteredProfile(registry: Registry, key: string, t: Test)
    requires key !in registry
    ensures ProfileFor(registry, key).name == "" && (Belongs(ProfileFor(registry, key), t) <==> t.features == [])
  {
    assert t.features != [] ==> t.features[0] in t.features;
  }

  predicate Belongs(p: Profile, t: Test)
  {
    forall i | 0 <= i < |t.features| :: t.features[i] in p.core || t.features[i] in p.extended
  }

  predicate IsExtended(p: Profile, t: Test)
  {
    exists i | 0 <= i < |t.features| :: t.features[i] !in p.core
  }

  method HasAllFeatures(p: Profile, t: Test) returns (all: bool)
    ensures all <==> Belongs(p, t)
    ensures all <==> forall f | f in t.features :: f in p.core || f in p.extended
  {
    for i := 0 to |t.features|
      invariant forall k | 0 <= k < i :: t.features[k] in p.core || t.features[k] in p.extended
    {
      if t.features[i] !in p.core && t.features[i] !in p.extended {
        return false;
      }
    }
    all := true;
  }

  method IsTestExtended(p: Profile, t: Test) returns (extended: bool)
    ensures extended <==> IsExtended(p, t)
    ensures extended <==> exists f | f in t.features :: f !in p.core
  {
    for i := 0 to |t.features|
      invariant forall k | 0 <= k < i :: t.features[k] in p.core
    {
      if t.features[i] !in p.core {
        return true;
      }
    }
    extended := false;
  }

  // ----- What was added, and what the reports must then say -----

  /** One result added for the profile registered under `key`. */
  datatype Entry = Entry(key: string, profile: Profile, result: TestResult)

  predicate Counts(e: Entry, name: string, extended: bool, kind: ResultType)
  {
    e.profile.name == name && IsExtended(e.profile, e.result.test) == extended && e.result.result == kind
  }

  /** The tests added to the report `name` at one level with one result, in order. */
  function Listed(log: seq<Entry>, name: string, extended: bool, kind: ResultType): seq<string>
  {
    if log == [] then []
    else
      var last := log[|log| - 1];
      Listed(log[..|log| - 1], name, extended, kind) + (if Counts(last, name, extended, kind) then [last.result.test.shortName] else [])
  }

  predicate StatusSays(st: Status, log: seq<Entry>, name: string, extended: bool)
  {
    && st.passed == Wrapped(|Listed(log, name, extended, Succeeded)|)
    && st.failed == Wrapped(|Listed(log, name, extended, Failed)|)
    && st.skipped == Wrapped(|Listed(log, name, extended, Skipped)|)
    && st.failedTests == Listed(log, name, extended, Failed)
    && st.skippedTests == Listed(log, name, extended, Skipped)
  }

  predicate NothingListed(log: seq<Entry>, name: string, extended: bool)
  {
    && Listed(log, name, extended, Succeeded) == []
    && Listed(log, name, extended, Failed) == []
    && Listed(log, name, extended, Skipped) == []
  }

  predicate ReportSays(r: ProfileReport, log: seq<Entry>, name: string)
  {
    && r.name == name
    && StatusSays(r.core, log, name, false)
    && (if r.extended.None? then NothingListed(log, name, true) else StatusSays(r.extended.value.status, log, name, true))
  }

  predicate Mentions(log: seq<Entry>, name: string)
  {
    exists i | 0 <= i < |log| :: log[i].profile.name == name
  }

  ghost predicate ReportsSay(p: map<string, ProfileReport>, log: seq<Entry>)
  {
    forall name :: if name in p then Mentions(log, name) && ReportSays(p[name], log, name) else !Mentions(log, name)
  }

  /** One more result counted at one level. */
  function Count(st: Status, t: Test, kind: ResultType): Status
  {
    match kind
    case Succeeded => st.(passed := Increment(st.passed))
    case Failed => st.(failed := Increment(st.failed), failedTests := st.failedTests + [t.shortName])
    case Skipped => st.(skipped := Increment(st.skipped), skippedTests := st.skippedTests + [t.shortName])
    case NotSupported => st
  }

  /** The three lists of one level after one more entry. */
  lemma ListedSnocAll(log: seq<Entry>, e: Entry, name: string, extended: bool)
    ensures Listed(log + [e], name, extended, Succeeded) ==
            Listed(log, name, extended, Succeeded) + if Counts(e, name, extended, Succeeded) then [e.result.test.shortName] else []
    ensures Listed(log + [e], name, extended, Failed) ==
            Listed(log, name, extended, Failed) + if Counts(e, name, extended, Failed) then [e.result.test.shortName] else []
    ensures Listed(log + [e], name, extended, Skipped) ==
            Listed(log, name, extended, Skipped) + if Counts(e, name, extended, Skipped) then [e.result.test.shortName] else []
  {
  }

  lemma CountKeepsStatus(st: Status, log: seq<Entry>, e: Entry, name: string, extended: bool)
    requires StatusSays(st, log, name, extended)
    ensures if e.profile.name == name && IsExtended(e.profile, e.result.test) == extended
            then StatusSays(Count(st, e.result.test, e.result.result), log + [e], name, extended)
            else StatusSays(st, log + [e], name, extended)
  {
    ListedSnocAll(log, e, name, extended);
    IncrementWraps(|Listed(log, name, extended, Succeeded)|);
    IncrementWraps(|Listed(log, name, extended, Failed)|);
    IncrementWraps(|Listed(log, name, extended, Skipped)|);
  }

  lemma IncrementWraps(n: nat)
    ensures Increment(Wrapped(n)) == Wrapped(n + 1)
  {
  }

  /** The feature lists are filled in only when the report is compiled. */
  predicate NoFeaturesYet(r: ProfileReport)
  {
    r.extended.Some? ==> r.extended.value.supportedFeatures == [] && r.extended.value.unsupportedFeatures == []
  }

  class ProfileReports {
    var reports: map<string, ProfileReport>
    ghost var log: seq<Entry>

    ghost predicate Valid()
      reads this
    {
      ReportsSay(reports, log) && forall name | name in reports :: NoFeaturesYet(reports[name])
    }

    constructor ()
      ensures Valid() && log == [] && reports == map[]
    {
      reports := map[];
      log := [];
    }

    method AddTestResults(ghost key: string, profile: Profile, result: TestResult)
      requires Valid()
      modifies this
      ensures Valid() && log == old(log) + [Entry(key, profile, result)]
    {
      var extended := IsTestExtended(profile, result.test);
      PutReport(reports, log, Entry(key, profile, result));
      var report := Current(reports, profile.name);
      if extended {
        if result.result != NotSupported {
          if report.extended.None? {
            report := report.(extended := Some(NO_EXTENDED));
          }
          report := report.(extended := Some(report.extended.value.(
            status := Count(report.extended.value.status, result.test, result.result))));
        }
      } else {
        report := report.(core := Count(report.core, result.test, result.result));
      }
      reports := reports[profile.name := report];
      log := log + [Entry(key, profile, result)];
    }
  }

  /** The report of a profile, new if it has none yet. */
  function Current(p: map<string, ProfileReport>, name: string): ProfileReport
  {
    if name in p then p[name] else ProfileReport(name, NO_STATUS, None)
  }

  /** A report after one result has been counted at the level of its test. */
  function Added(r: ProfileReport, profile: Profile, result: TestResult): ProfileReport
  {
    if !IsExtended(profile, result.test) then r.(core := Count(r.core, result.test, result.result))
    else if result.result == NotSupported then r
    else
      var x := if r.extended.None? then NO_EXTENDED else r.extended.value;
      r.(extended := Some(x.(status := Count(x.status, result.test, result.result))))
  }

  lemma PutReport(p: map<string, ProfileReport>, log: seq<Entry>, e: Entry)
    requires ReportsSay(p, log)
    ensures ReportsSay(p[e.profile.name := Added(Current(p, e.profile.name), e.profile, e.result)], log + [e])
  {
    var own, before := e.profile.name, Current(p, e.profile.name);
    if own !in p {
      NothingMentioned(log, own);
    }
    AddKeepsReport(before, log, e);
    var q := p[own := Added(before, e.profile, e.result)];
    forall name ensures if name in q then Mentions(log + [e], name) && ReportSays(q[name], log + [e], name) else !Mentions(log + [e], name) {
      MentionsSnoc(log, e, name);
      if name in p && name != own {
        OtherReport(p[name], log, e, name);
      }
    }
  }

  lemma {:induction false} NothingMentioned(log: seq<Entry>, name: string)
    requires !Mentions(log, name)
    ensures ReportSays(ProfileReport(name, NO_STATUS, None), log, name)
  {
    if log != [] {
      assert forall i | 0 <= i < |log| - 1 :: log[..|log| - 1][i] == log[i];
      NothingMentioned(log[..|log| - 1], name);
    }
  }

  lemma MentionsSnoc(log: seq<Entry>, e: Entry, name: string)
    ensures Mentions(log + [e], name) <==> Mentions(log, name) || e.profile.name == name
  {
    if Mentions(log, name) {
      var i :| 0 <= i < |log| && log[i].profile.name == name;
      assert (log + [e])[i].profile.name == name;
    }
    if e.profile.name == name {
      assert (log + [e])[|log|].profile.name == name;
    }
  }

  lemma OtherReport(r: ProfileReport, log: seq<Entry>, e: Entry, name: string)
    requires ReportSays(r, log, name) && e.profile.name != name
    ensures ReportSays(r, log + [e], name)
  {
  }

  lemma AddKeepsReport(before: ProfileReport, log: seq<Entry>, e: Entry)
    requires ReportSays(before, log, e.profile.name)
    ensures ReportSays(Added(before, e.profile, e.result), log + [e], e.profile.name)
  {
    var name := e.profile.name;
    CountKeepsStatus(before.core, log, e, name, false);
    ListedSnocAll(log, e, name, true);
    CountKeepsStatus(if before.extended.None? then NO_STATUS else before.extended.value.status, log, e, name, true);
  }
}
