/** The validation tags of a channel, `<prefix>Enum=...>` and `<prefix>XValidation:message="...",rule="...">`.
    Models how pkg/generator/main.go counts and collects them. */
module ValidationTags {
  import opened Wrappers
  import opened Tags

  // ----- Repeated search -----

  /** One match with its capture groups; unused groups are empty. */
  datatype Match = Match(start: nat, end: nat, group1: string, group2: string)

  /** The match that starts at a position, if there is one. */
  type Matcher = nat -> Option<Match>

  /** Up to `limit` matches that do not overlap, left to right, in a text of length `n`. */
  function FindAll(m: Matcher, n: nat, from: nat, limit: nat): seq<Match>
    decreases n - from
  {
    if limit == 0 || from >= n then []
    else
      match m(from)
      case None => FindAll(m, n, from + 1, limit)
      case Some(x) => [x] + FindAll(m, n, if x.end > from then x.end else from + 1, limit - 1)
  }

  ghost predicate Forward(m: Matcher, n: nat)
  {
    forall i: nat :: m(i).Some? ==> m(i).value.start == i < m(i).value.end <= n
  }

  ghost predicate NoOverlap(m: Matcher)
  {
    forall i: nat, j: nat | i < j && m(i).Some? && m(j).Some? :: m(i).value.end <= j
  }

  function Starts(ms: seq<Match>): (r: seq<nat>)
    ensures |r| == |ms|
  {
    seq(|ms|, k requires 0 <= k < |ms| => ms[k].start)
  }

  predicate Increasing(xs: seq<nat>)
  {
    forall k, l | 0 <= k < l < |xs| :: xs[k] < xs[l]
  }

  lemma {:induction false} FoundInOrder(m: Matcher, n: nat, from: nat, limit: nat)
    requires Forward(m, n)
    ensures var starts := Starts(FindAll(m, n, from, limit));
            Increasing(starts) && forall i | i in starts :: from <= i < n && m(i).Some?
    decreases n - from
  {
    if limit > 0 && from < n {
      match m(from)
      case None => FoundInOrder(m, n, from + 1, limit);
      case Some(x) =>
        FoundInOrder(m, n, x.end, limit - 1);
        StartsCons(x, FindAll(m, n, x.end, limit - 1));
        IncreasingCons(from, Starts(FindAll(m, n, x.end, limit - 1)));
    }
  }

  lemma IncreasingCons(x: nat, xs: seq<nat>)
    requires Increasing(xs) && forall i | i in xs :: x < i
    ensures Increasing([x] + xs)
  {
    var all := [x] + xs;
    forall k, l | 0 <= k < l < |all| ensures all[k] < all[l] {
      assert all[l] == xs[l - 1] && xs[l - 1] in xs;
    }
  }

  lemma StartsCons(x: Match, ms: seq<Match>)
    ensures Starts([x] + ms) == [x.start] + Starts(ms)
  {
  }

  /** Where there is a match, overlapping or not. */
  ghost function Positions(m: Matcher, n: nat, from: nat): set<nat>
  {
    set i: nat | from <= i < n && m(i).Some?
  }

  /** A search whose limit is no less than the number of matches, none of which overlap, misses none. */
  lemma {:induction false} EveryFound(m: Matcher, n: nat, from: nat, limit: nat, i: nat)
    requires Forward(m, n) && NoOverlap(m) && from <= i && m(i).Some? && |Positions(m, n, from)| <= limit
    ensures i in Starts(FindAll(m, n, from, limit))
    decreases n - from
  {
    assert i in Positions(m, n, from);
    match m(from)
    case None =>
      assert Positions(m, n, from + 1) == Positions(m, n, from);
      EveryFound(m, n, from + 1, limit, i);
    case Some(x) =>
      StartsCons(x, FindAll(m, n, x.end, limit - 1));
      if i != from {
        assert Positions(m, n, x.end) == Positions(m, n, from) - {from};
        EveryFound(m, n, x.end, limit - 1, i);
      }
  }

  lemma {:induction false} PositionsBound(m: Matcher, n: nat, from: nat)
    requires from <= n
    ensures |Positions(m, n, from)| <= n - from
    decreases n - from
  {
    if from < n {
      PositionsBound(m, n, from + 1);
      assert Positions(m, n, from) <= Positions(m, n, from + 1) + {from};
      FullSubset(Positions(m, n, from), Positions(m, n, from + 1) + {from});
    }
  }

  /** What is found are matches, no more than the limit, and none reaches into a later one. */
  lemma {:induction false} FoundApart(m: Matcher, n: nat, from: nat, limit: nat)
    requires Forward(m, n)
    ensures var ms := FindAll(m, n, from, limit);
            && |ms| <= limit
            && (forall x | x in ms :: from <= x.start && m(x.start) == Some(x))
            && forall k, l | 0 <= k < l < |ms| :: ms[k].end <= ms[l].start
    decreases n - from
  {
    if limit > 0 && from < n {
      match m(from)
      case None => FoundApart(m, n, from + 1, limit);
      case Some(x) =>
        var rest := FindAll(m, n, x.end, limit - 1);
        FoundApart(m, n, x.end, limit - 1);
        ApartCons(x, rest);
    }
  }

  lemma ApartCons(x: Match, rest: seq<Match>)
    requires (forall k, l | 0 <= k < l < |rest| :: rest[k].end <= rest[l].start) && forall y | y in rest :: x.end <= y.start
    ensures var ms := [x] + rest; forall k, l | 0 <= k < l < |ms| :: ms[k].end <= ms[l].start
  {
    var ms := [x] + rest;
    forall k, l | 0 <= k < l < |ms| ensures ms[k].end <= ms[l].start {
      assert ms[l] == rest[l - 1] && rest[l - 1] in rest;
    }
  }

  /** A search misses nothing if and only if the matches do not overlap and are within the limit. */
  lemma AllFoundIff(m: Matcher, n: nat, limit: nat)
    requires Forward(m, n)
    ensures (forall i: nat | m(i).Some? :: i in Starts(FindAll(m, n, 0, limit))) <==>
            NoOverlap(m) && |Positions(m, n, 0)| <= limit
  {
    var ms := FindAll(m, n, 0, limit);
    if NoOverlap(m) && |Positions(m, n, 0)| <= limit {
      forall i: nat | m(i).Some? ensures i in Starts(ms) {
        EveryFound(m, n, 0, limit, i);
      }
    } else if forall i: nat | m(i).Some? :: i in Starts(ms) {
      FoundApart(m, n, 0, limit);
      FoundInOrder(m, n, 0, limit);
      AllStartsApart(m, ms);
      IncreasingDistinct(Starts(ms));
      assert Positions(m, n, 0) <= Members(Starts(ms));
      FullSubset(Positions(m, n, 0), Members(Starts(ms)));
    }
  }

  lemma AllStartsApart(m: Matcher, ms: seq<Match>)
    requires (forall i: nat | m(i).Some? :: i in Starts(ms)) && forall x | x in ms :: m(x.start) == Some(x)
    requires forall k, l | 0 <= k < l < |ms| :: ms[k].end <= ms[l].start
    requires forall x | x in ms :: x.start < x.end
    ensures NoOverlap(m)
  {
    forall i: nat, j: nat | i < j && m(i).Some? && m(j).Some? ensures m(i).value.end <= j {
      var k :| 0 <= k < |ms| && Starts(ms)[k] == i;
      var l :| 0 <= l < |ms| && Starts(ms)[l] == j;
      assert ms[k] in ms && ms[l] in ms;
      assert k < l;
    }
  }

  // ----- The forms -----

  datatype Form = EnumForm | CelForm

  /** What separates the message of a rule tag from its rule. */
  const RULE := "\",rule=\""

  function Prefix(channel: string): string
  {
    "<gateway:" + channel + ":validation:"
  }

  predicate EnumChar(c: char)
  {
    'A' <= c <= 'Z' || 'a' <= c <= 'z' || c == ';'
  }

  predicate Accepted(form: Form, c: char)
  {
    if form.EnumForm? then EnumChar(c) else c != '"'
  }

  /** The end of the run of characters that a group accepts. */
  function RunEnd(form: Form, s: string, i: nat): (j: nat)
    requires i <= |s|
    ensures i <= j <= |s|
    decreases |s| - i
  {
    if i < |s| && Accepted(form, s[i]) then RunEnd(form, s, i + 1) else i
  }

  function Opening(form: Form, prefix: string): string
  {
    prefix + (if form.EnumForm? then "Enum=" else "XValidation:message=\"")
  }

  /** The match that starts at `i`. Each group stops at the first character it does not accept, and
      that character must open what follows, so there is at most one match. */
  function MatchAt(form: Form, prefix: string, s: string, i: nat): (r: Option<Match>)
    ensures r.Some? ==> r.value.start == i < r.value.end <= |s| && At(s, i, Opening(form, prefix))
  {
    var head := Opening(form, prefix);
    if !At(s, i, head) then None
    else
      var start := i + |head|;
      var end := RunEnd(form, s, start);
      if form.EnumForm? then
        if At(s, end, ">") then Some(Match(i, end + 1, s[start..end], "")) else None
      else if !At(s, end, RULE) then None
      else
        var ruleStart := end + |RULE|;
        var ruleEnd := RunEnd(form, s, ruleStart);
        if At(s, ruleEnd, "\">") then Some(Match(i, ruleEnd + 2, s[start..end], s[ruleStart..ruleEnd])) else None
  }

  function Tagged(form: Form, prefix: string, s: string): Matcher
  {
    (i: nat) => MatchAt(form, prefix, s, i)
  }

  /** All tags of one form, up to a limit. */
  function TagsOf(form: Form, prefix: string, s: string, limit: nat): seq<Match>
  {
    FindAll(Tagged(form, prefix, s), |s|, 0, limit)
  }

  function Occurring(s: string, prefix: string): Matcher
  {
    (i: nat) => if At(s, i, prefix) then Some(Match(i, i + |prefix|, "", "")) else None
  }

  /** Where the prefix occurs, without overlap: what `strings.Count` counts. */
  function Occurrences(s: string, prefix: string): seq<Match>
  {
    FindAll(Occurring(s, prefix), |s|, 0, |s|)
  }

  // ----- Counting -----

  lemma CharAt(s: string, i: nat, pattern: string, k: nat)
    requires At(s, i, pattern) && k < |pattern|
    ensures s[i + k] == pattern[k]
  {
  }

  /** The prefix begins with '<' and has no other '<', so its occurrences never overlap and counting misses none. */
  lemma EveryOccurrenceCounted(s: string, prefix: string, i: nat)
    requires At(s, i, prefix)
    requires prefix != "" && prefix[0] == '<' && forall k | 0 < k < |prefix| :: prefix[k] != '<'
    ensures i in Starts(Occurrences(s, prefix))
  {
    var m := Occurring(s, prefix);
    forall a: nat, b: nat | a < b && m(a).Some? && m(b).Some? ensures m(a).value.end <= b {
      CharAt(s, b, prefix, 0);
      if b < a + |prefix| {
        CharAt(s, a, prefix, b - a);
        assert false;
      }
    }
    PositionsBound(m, |s|, 0);
    EveryFound(m, |s|, 0, |s|, i);
  }

  function Members(xs: seq<nat>): set<nat>
  {
    set x | x in xs
  }

  lemma {:induction false} IncreasingDistinct(xs: seq<nat>)
    requires Increasing(xs)
    ensures |Members(xs)| == |xs|
  {
    if xs != [] {
      var n := |xs| - 1;
      IncreasingDistinct(xs[..n]);
      assert xs[n] !in xs[..n];
      assert Members(xs) == Members(xs[..n]) + {xs[n]};
    }
  }

  lemma OpeningHasPrefix(form: Form, prefix: string, s: string, i: nat)
    requires At(s, i, Opening(form, prefix))
    ensures At(s, i, prefix) && s[i + |prefix|] == if form.EnumForm? then 'E' else 'X'
  {
    var head := Opening(form, prefix);
    CharAt(s, i, head, |prefix|);
    assert s[i..i + |prefix|] == s[i..i + |head|][..|prefix|];
  }

  lemma FullSubset<T>(a: set<T>, b: set<T>)
    requires a <= b
    ensures |a| <= |b|
    ensures |a| == |b| ==> a == b
  {
    assert b == a + (b - a);
  }

  predicate BeginsTag(prefix: string, s: string, i: nat)
  {
    MatchAt(EnumForm, prefix, s, i).Some? || MatchAt(CelForm, prefix, s, i).Some?
  }

  lemma TagStarts(form: Form, prefix: string, s: string, limit: nat) returns (starts: seq<nat>)
    ensures starts == Starts(TagsOf(form, prefix, s, limit)) && Increasing(starts)
    ensures forall i | i in starts :: MatchAt(form, prefix, s, i).Some?
    ensures forall i: nat | MatchAt(form, prefix, s, i).Some? ::
              At(s, i, prefix) && s[i + |prefix|] == if form.EnumForm? then 'E' else 'X'
  {
    FoundInOrder(Tagged(form, prefix, s), |s|, 0, limit);
    starts := Starts(TagsOf(form, prefix, s, limit));
    forall i: nat | MatchAt(form, prefix, s, i).Some?
      ensures At(s, i, prefix) && s[i + |prefix|] == if form.EnumForm? then 'E' else 'X'
    {
      OpeningHasPrefix(form, prefix, s, i);
    }
  }

  lemma OccurrenceStarts(s: string, prefix: string) returns (starts: seq<nat>)
    requires prefix != "" && prefix[0] == '<' && forall k | 0 < k < |prefix| :: prefix[k] != '<'
    ensures |starts| == |Occurrences(s, prefix)| && Increasing(starts)
    ensures forall i: nat :: i in starts <==> At(s, i, prefix)
  {
    FoundInOrder(Occurring(s, prefix), |s|, 0, |s|);
    starts := Starts(Occurrences(s, prefix));
    forall i: nat | At(s, i, prefix) ensures i in starts {
      EveryOccurrenceCounted(s, prefix, i);
    }
  }

  /** Tags of one form do not overlap, and there are no more of them than the limit. */
  ghost predicate Separate(form: Form, prefix: string, s: string, limit: nat)
  {
    NoOverlap(Tagged(form, prefix, s)) && |Positions(Tagged(form, prefix, s), |s|, 0)| <= limit
  }

  /** Every occurrence of the prefix begins a tag, tags of one form do not overlap, and there are no
      more of one form than the limit. */
  ghost predicate WellTagged(prefix: string, s: string, limit: nat)
  {
    && (forall i: nat | At(s, i, prefix) :: BeginsTag(prefix, s, i))
    && Separate(EnumForm, prefix, s, limit) && Separate(CelForm, prefix, s, limit)
  }

  /** There are never more valid tags found than occurrences of the prefix, and as many if and only if
      the text is well tagged. Then the searches find all tags. */
  lemma AllTagsValid(channel: string, s: string, limit: nat)
    requires '<' !in channel
    ensures var prefix := Prefix(channel);
            var enums, cels := TagsOf(EnumForm, prefix, s, limit), TagsOf(CelForm, prefix, s, limit);
            var count := |Occurrences(s, prefix)|;
            && |enums| + |cels| <= count
            && (|enums| + |cels| == count <==> WellTagged(prefix, s, limit))
  {
    var prefix := Prefix(channel);
    var enums := TagStarts(EnumForm, prefix, s, limit);
    var cels := TagStarts(CelForm, prefix, s, limit);
    var all := OccurrenceStarts(s, prefix);
    MatchesFill(enums, cels, all);
    TagsFoundIff(EnumForm, prefix, s, limit);
    TagsFoundIff(CelForm, prefix, s, limit);
    WellTaggedIff(prefix, s, limit, enums, cels, all);
  }

  ghost predicate FindsAll(form: Form, prefix: string, s: string, starts: seq<nat>)
  {
    forall i: nat | MatchAt(form, prefix, s, i).Some? :: i in starts
  }

  lemma TagsFoundIff(form: Form, prefix: string, s: string, limit: nat)
    ensures FindsAll(form, prefix, s, Starts(TagsOf(form, prefix, s, limit))) <==> Separate(form, prefix, s, limit)
  {
    AllFoundIff(Tagged(form, prefix, s), |s|, limit);
  }

  /** A tag of a well tagged text is among those found, and last if there is none behind it. */
  lemma TagFound(form: Form, prefix: string, s: string, limit: nat, i: nat) returns (k: nat)
    requires Separate(form, prefix, s, limit) && MatchAt(form, prefix, s, i).Some?
    ensures var ms := TagsOf(form, prefix, s, limit);
            && k < |ms| && Some(ms[k]) == MatchAt(form, prefix, s, i)
            && ((forall j: nat | j > i :: MatchAt(form, prefix, s, j).None?) ==> k == |ms| - 1)
  {
    var ms := TagsOf(form, prefix, s, limit);
    TagsFoundIff(form, prefix, s, limit);
    FoundApart(Tagged(form, prefix, s), |s|, 0, limit);
    assert i in Starts(ms);
    k :| 0 <= k < |ms| && Starts(ms)[k] == i;
    assert ms[k] in ms;
    if k < |ms| - 1 {
      assert ms[k + 1] in ms;
    }
  }

  lemma WellTaggedIff(prefix: string, s: string, limit: nat, enums: seq<nat>, cels: seq<nat>, all: seq<nat>)
    requires forall i: nat :: i in all <==> At(s, i, prefix)
    requires forall i: nat | MatchAt(EnumForm, prefix, s, i).Some? :: At(s, i, prefix) && s[i + |prefix|] == 'E'
    requires forall i: nat | MatchAt(CelForm, prefix, s, i).Some? :: At(s, i, prefix) && s[i + |prefix|] == 'X'
    requires forall i | i in enums :: MatchAt(EnumForm, prefix, s, i).Some?
    requires forall i | i in cels :: MatchAt(CelForm, prefix, s, i).Some?
    requires FindsAll(EnumForm, prefix, s, enums) <==> Separate(EnumForm, prefix, s, limit)
    requires FindsAll(CelForm, prefix, s, cels) <==> Separate(CelForm, prefix, s, limit)
    ensures (forall i | i in all :: i in enums || i in cels) <==> WellTagged(prefix, s, limit)
  {
    if forall i | i in all :: i in enums || i in cels {
      assert FindsAll(EnumForm, prefix, s, enums) && FindsAll(CelForm, prefix, s, cels);
    }
  }

  lemma MatchesFill(enums: seq<nat>, cels: seq<nat>, all: seq<nat>)
    requires Increasing(enums) && Increasing(cels) && Increasing(all)
    requires forall i | i in enums || i in cels :: i in all
    requires forall i | i in enums :: i !in cels
    ensures |enums| + |cels| <= |all|
    ensures |enums| + |cels| == |all| <==> forall i | i in all :: i in enums || i in cels
  {
    IncreasingDistinct(enums);
    IncreasingDistinct(cels);
    IncreasingDistinct(all);
    assert Members(enums) !! Members(cels);
    FullSubset(Members(enums) + Members(cels), Members(all));
    if |enums| + |cels| == |all| {
      forall i | i in all ensures i in enums || i in cels {
        assert i in Members(all);
      }
    } else if forall i | i in all :: i in enums || i in cels {
      assert Members(all) <= Members(enums) + Members(cels);
      FullSubset(Members(all), Members(enums) + Members(cels));
    }
  }

  // ----- A printed tag is read back -----

  lemma {:induction false} RunOver(form: Form, s: string, i: nat, j: nat)
    requires i <= j < |s| && (forall k | i <= k < j :: Accepted(form, s[k])) && !Accepted(form, s[j])
    ensures RunEnd(form, s, i) == j
    decreases j - i
  {
    if i < j {
      RunOver(form, s, i + 1, j);
    }
  }

  lemma {:induction false} EnumTagRead(prefix: string, a: string, values: string, b: string)
    requires forall k | 0 <= k < |values| :: EnumChar(values[k])
    ensures var s := a + Opening(EnumForm, prefix) + values + (">" + b);
            MatchAt(EnumForm, prefix, s, |a|) == Some(Match(|a|, |s| - |b|, values, ""))
  {
    var head := Opening(EnumForm, prefix);
    var s := a + head + values + (">" + b);
    var start, end := |a| + |head|, |a| + |head| + |values|;
    assert s[|a|..start] == head && s[start..end] == values && s[end..end + 1] == ">";
    assert forall k | start <= k < end :: s[k] == values[k - start];
    RunOver(EnumForm, s, start, end);
  }

  lemma {:induction false} CelTagRead(prefix: string, a: string, message: string, rule: string, b: string)
    requires '"' !in message && '"' !in rule
    ensures var s := a + Opening(CelForm, prefix) + message + (RULE + rule + ("\">" + b));
            MatchAt(CelForm, prefix, s, |a|) == Some(Match(|a|, |s| - |b|, message, rule))
  {
    var head := Opening(CelForm, prefix);
    var s := a + head + message + (RULE + rule + ("\">" + b));
    assert s[|a + head|..] == message + (RULE + rule + ("\">" + b));
    CelGroups(s, |a + head|, message, RULE, rule, "\">", b);
    assert At(s, |a|, head) by {
      assert s[|a|..|a| + |head|] == head;
    }
    CelMatch(prefix, s, |a|, message, rule);
  }

  lemma {:induction false} CelMatch(prefix: string, s: string, i: nat, message: string, rule: string)
    requires At(s, i, Opening(CelForm, prefix))
    requires GroupAt(s, i + |Opening(CelForm, prefix)|, message, RULE)
    requires GroupAt(s, i + |Opening(CelForm, prefix)| + |message| + |RULE|, rule, "\">")
    ensures MatchAt(CelForm, prefix, s, i) ==
            Some(Match(i, i + |Opening(CelForm, prefix)| + |message| + |RULE| + |rule| + 2, message, rule))
  {
    var start := i + |Opening(CelForm, prefix)|;
    var ruleStart := start + |message| + |RULE|;
    QuotedRun(s, start, message, RULE);
    QuotedRun(s, ruleStart, rule, "\">");
    CelMatchAt(prefix, s, i, start + |message|, ruleStart + |rule|);
  }

  lemma {:induction false} CelMatchAt(prefix: string, s: string, i: nat, end: nat, ruleEnd: nat)
    requires At(s, i, Opening(CelForm, prefix)) && end == RunEnd(CelForm, s, i + |Opening(CelForm, prefix)|)
    requires At(s, end, RULE) && ruleEnd == RunEnd(CelForm, s, end + |RULE|) && At(s, ruleEnd, "\">")
    ensures MatchAt(CelForm, prefix, s, i) ==
            Some(Match(i, ruleEnd + 2, s[i + |Opening(CelForm, prefix)|..end], s[end + |RULE|..ruleEnd]))
  {
  }

  /** A group without quotes at a position, and what follows it, which begins with a quote. */
  predicate GroupAt(s: string, i: nat, group: string, next: string)
  {
    At(s, i, group) && '"' !in group && |next| > 0 && next[0] == '"' && At(s, i + |group|, next)
  }

  /** The parts of the text of a rule tag are where they should be. */
  lemma {:induction false} CelGroups(s: string, n: nat, message: string, middle: string, rule: string, close: string, b: string)
    requires n <= |s| && s[n..] == message + (middle + rule + (close + b)) && '"' !in message && '"' !in rule
    requires |middle| > 0 && middle[0] == '"' && |close| > 0 && close[0] == '"'
    ensures GroupAt(s, n, message, middle)
    ensures GroupAt(s, n + |message| + |middle|, rule, close)
  {
    Regroup(middle, rule, close + b);
    PartAt(s, n, message, middle + (rule + (close + b)));
    PartAt(s, n + |message|, middle, rule + (close + b));
    PartAt(s, n + |message| + |middle|, rule, close + b);
    PartAt(s, n + |message| + |middle| + |rule|, close, b);
  }

  lemma PartAt(s: string, n: nat, part: string, after: string)
    requires n <= |s| && s[n..] == part + after
    ensures At(s, n, part) && s[n + |part|..] == after
  {
    assert s[n..n + |part|] == s[n..][..|part|];
    assert s[n + |part|..] == s[n..][|part|..];
  }

  lemma {:induction false} QuotedRun(s: string, i: nat, group: string, next: string)
    requires GroupAt(s, i, group, next)
    ensures RunEnd(CelForm, s, i) == i + |group|
  {
    assert forall k | i <= k < i + |group| :: s[k] == group[k - i];
    CharAt(s, i + |group|, next, 0);
    RunOver(CelForm, s, i, i + |group|);
  }

  // ----- Only printed tags are read -----

  /** The texts with which the tags of a channel begin. */
  lemma TagTexts(channel: string)
    ensures Prefix(channel) == "<gateway:" + channel + ":validation:"
    ensures Opening(EnumForm, Prefix(channel)) == "<gateway:" + channel + ":validation:" + "Enum="
    ensures Opening(CelForm, Prefix(channel)) == "<gateway:" + channel + ":validation:" + "XValidation:message=\""
  {
  }

  lemma {:induction false} RunAccepted(form: Form, s: string, i: nat)
    requires i <= |s|
    ensures forall k | i <= k < RunEnd(form, s, i) :: Accepted(form, s[k])
    decreases |s| - i
  {
    if i < |s| && Accepted(form, s[i]) {
      RunAccepted(form, s, i + 1);
    }
  }

  /** Letters and semicolons. */
  predicate Letters(values: string)
  {
    forall k | 0 <= k < |values| :: 'A' <= values[k] <= 'Z' || 'a' <= values[k] <= 'z' || values[k] == ';'
  }

  /** An enumeration tag is read at a position if and only if one is printed there. */
  lemma EnumTagIff(prefix: string, s: string, i: nat, m: Match)
    ensures MatchAt(EnumForm, prefix, s, i) == Some(m) <==>
            && m.start == i <= m.end <= |s| && m.group2 == "" && Letters(m.group1)
            && s[i..m.end] == prefix + "Enum=" + m.group1 + ">"
  {
    if MatchAt(EnumForm, prefix, s, i) == Some(m) {
      EnumTagPrinted(prefix, s, i, m);
    }
    if m.start == i <= m.end <= |s| && m.group2 == "" && Letters(m.group1) && s[i..m.end] == prefix + "Enum=" + m.group1 + ">" {
      EnumTextRead(prefix, s, i, m.end, m.group1);
    }
  }

  lemma {:induction false} EnumTextRead(prefix: string, s: string, i: nat, end: nat, values: string)
    requires i <= end <= |s| && Letters(values) && s[i..end] == prefix + "Enum=" + values + ">"
    ensures MatchAt(EnumForm, prefix, s, i) == Some(Match(i, end, values, ""))
  {
    var a, b := s[..i], s[end..];
    EnumTextAround(s, i, end, Opening(EnumForm, prefix), values);
    EnumTagRead(prefix, a, values, b);
  }

  lemma EnumTextAround(s: string, i: nat, end: nat, opening: string, values: string)
    requires i <= end <= |s| && s[i..end] == opening + values + ">"
    ensures s == s[..i] + opening + values + (">" + s[end..])
  {
    assert s == s[..i] + s[i..end] + s[end..];
  }

  lemma EnumTagPrinted(prefix: string, s: string, i: nat, m: Match)
    requires MatchAt(EnumForm, prefix, s, i) == Some(m)
    ensures m.start == i <= m.end <= |s| && m.group2 == "" && Letters(m.group1) && s[i..m.end] == prefix + "Enum=" + m.group1 + ">"
  {
    var start := i + |Opening(EnumForm, prefix)|;
    var end := RunEnd(EnumForm, s, start);
    RunAccepted(EnumForm, s, start);
    assert s[i..m.end] == s[i..start] + s[start..end] + s[end..end + 1];
  }

  /** A rule tag is read at a position if and only if one is printed there. */
  lemma CelTagIff(prefix: string, s: string, i: nat, m: Match)
    ensures MatchAt(CelForm, prefix, s, i) == Some(m) <==>
            && m.start == i <= m.end <= |s| && '"' !in m.group1 && '"' !in m.group2
            && s[i..m.end] == prefix + "XValidation:message=\"" + m.group1 + ("\",rule=\"" + m.group2 + "\">")
  {
    if MatchAt(CelForm, prefix, s, i) == Some(m) {
      CelTagPrinted(prefix, s, i, m);
    }
    if && m.start == i <= m.end <= |s| && '"' !in m.group1 && '"' !in m.group2
       && s[i..m.end] == prefix + "XValidation:message=\"" + m.group1 + ("\",rule=\"" + m.group2 + "\">") {
      CelTextRead(prefix, s, i, m.end, m.group1, m.group2);
    }
  }

  lemma {:induction false} CelTextRead(prefix: string, s: string, i: nat, end: nat, message: string, rule: string)
    requires i <= end <= |s| && '"' !in message && '"' !in rule
    requires s[i..end] == prefix + "XValidation:message=\"" + message + ("\",rule=\"" + rule + "\">")
    ensures MatchAt(CelForm, prefix, s, i) == Some(Match(i, end, message, rule))
  {
    var a, b := s[..i], s[end..];
    CelTextAround(s, i, end, Opening(CelForm, prefix), message, RULE, rule, "\">");
    CelTagRead(prefix, a, message, rule, b);
  }

  lemma CelTextAround(s: string, i: nat, end: nat, opening: string, message: string, middle: string, rule: string, close: string)
    requires i <= end <= |s| && s[i..end] == opening + message + (middle + rule + close)
    ensures s == s[..i] + opening + message + (middle + rule + (close + s[end..]))
  {
    assert s == s[..i] + s[i..end] + s[end..];
  }

  lemma CelTagPrinted(prefix: string, s: string, i: nat, m: Match)
    requires MatchAt(CelForm, prefix, s, i) == Some(m)
    ensures m.start == i <= m.end <= |s| && '"' !in m.group1 && '"' !in m.group2
    ensures s[i..m.end] == prefix + "XValidation:message=\"" + m.group1 + ("\",rule=\"" + m.group2 + "\">")
  {
    var start := i + |Opening(CelForm, prefix)|;
    var end, ruleEnd := CelEnds(prefix, s, i, m);
    RunUnquoted(s, start, end);
    RunUnquoted(s, end + |RULE|, ruleEnd);
    CelSlices(s, i, start, end, end + |RULE|, ruleEnd, m.end);
  }

  /** Where the groups of a rule tag end. */
  lemma {:induction false} CelEnds(prefix: string, s: string, i: nat, m: Match) returns (end: nat, ruleEnd: nat)
    requires MatchAt(CelForm, prefix, s, i) == Some(m)
    ensures var start := i + |Opening(CelForm, prefix)|;
            && m.start == i && start <= end && end + |RULE| <= ruleEnd && ruleEnd + 2 == m.end <= |s|
            && s[i..start] == Opening(CelForm, prefix) && s[end..end + |RULE|] == RULE && s[ruleEnd..m.end] == "\">"
            && m.group1 == s[start..end] && m.group2 == s[end + |RULE|..ruleEnd]
            && end == RunEnd(CelForm, s, start) && ruleEnd == RunEnd(CelForm, s, end + |RULE|)
  {
    end := RunEnd(CelForm, s, i + |Opening(CelForm, prefix)|);
    ruleEnd := RunEnd(CelForm, s, end + |RULE|);
  }

  lemma RunUnquoted(s: string, i: nat, j: nat)
    requires i <= |s| && j == RunEnd(CelForm, s, i)
    ensures '"' !in s[i..j]
  {
    RunAccepted(CelForm, s, i);
  }

  lemma CelSlices(s: string, i: nat, start: nat, end: nat, ruleStart: nat, ruleEnd: nat, last: nat)
    requires i <= start <= end <= ruleStart <= ruleEnd <= last <= |s|
    ensures s[i..last] == s[i..start] + s[start..end] + (s[end..ruleStart] + s[ruleStart..ruleEnd] + s[ruleEnd..last])
  {
  }
}
