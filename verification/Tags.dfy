/** The `<gateway:...>` tags inside schema descriptions: searching, counting and removing them.
    Models the text handling of pkg/generator/main.go. */
module Tags {
  import opened Wrappers

  predicate At(s: string, i: nat, pattern: string)
  {
    i + |pattern| <= |s| && s[i..i + |pattern|] == pattern
  }

  /** The first occurrence at or after `from`. */
  function Find(s: string, pattern: string, from: nat): (r: Option<nat>)
    requires from <= |s|
    ensures r.Some? ==> from <= r.value && r.value + |pattern| <= |s|
    decreases |s| - from
  {
    if At(s, from, pattern) then Some(from)
    else if from == |s| then None
    else Find(s, pattern, from + 1)
  }

  lemma {:induction false} FindIsFirst(s: string, pattern: string, from: nat, n: nat)
    requires from <= n <= |s| && At(s, n, pattern) && forall i | from <= i < n :: !At(s, i, pattern)
    ensures Find(s, pattern, from) == Some(n)
    decreases n - from
  {
    if from < n {
      FindIsFirst(s, pattern, from + 1, n);
    }
  }

  lemma {:induction false} FindNothing(s: string, pattern: string, from: nat)
    requires from <= |s| && forall i | from <= i <= |s| :: !At(s, i, pattern)
    ensures Find(s, pattern, from) == None
    decreases |s| - from
  {
    if from < |s| {
      FindNothing(s, pattern, from + 1);
    }
  }

  lemma {:induction false} FindComplete(s: string, pattern: string, from: nat, n: nat)
    requires from <= n && At(s, n, pattern)
    ensures Find(s, pattern, from).Some? && Find(s, pattern, from).value <= n
    decreases n - from
  {
    if from < n && !At(s, from, pattern) {
      FindComplete(s, pattern, from + 1, n);
    }
  }

  lemma {:induction false} FindSound(s: string, pattern: string, from: nat)
    requires from <= |s| && Find(s, pattern, from).Some?
    ensures At(s, Find(s, pattern, from).value, pattern)
    decreases |s| - from
  {
    if !At(s, from, pattern) {
      FindSound(s, pattern, from + 1);
    }
  }

  predicate Contains(s: string, pattern: string)
  {
    Find(s, pattern, 0).Some?
  }

  ghost predicate Occurs(s: string, pattern: string)
  {
    exists i: nat :: At(s, i, pattern)
  }

  lemma ContainsIff(s: string, pattern: string)
    ensures Contains(s, pattern) <==> Occurs(s, pattern)
  {
    if Contains(s, pattern) {
      FindSound(s, pattern, 0);
    }
    if i: nat :| At(s, i, pattern) {
      FindComplete(s, pattern, 0, i);
    }
  }

  /** All occurrences removed, left to right, as Go's `strings.ReplaceAll` does with an empty replacement. */
  function RemoveAll(s: string, pattern: string): string
    requires pattern != ""
    decreases |s|
  {
    match Find(s, pattern, 0)
    case None => s
    case Some(i) => s[..i] + RemoveAll(s[i + |pattern|..], pattern)
  }

  // ----- The greedy pattern <gateway:.*> -----

  const OPEN := "<gateway:"

  /** `s[i..j]` matches the pattern; its dot matches anything but a line break. */
  predicate IsTag(s: string, i: nat, j: nat)
  {
    i + |OPEN| < j <= |s| && At(s, i, OPEN) && s[j - 1] == '>' && '\n' !in s[i..j]
  }

  ghost predicate NoTag(s: string)
  {
    forall i: nat, j: nat :: !IsTag(s, i, j)
  }

  /** The end of the longest match that starts at `i`: the search goes on to the end of the line. */
  function LongestEnd(s: string, i: nat, j: nat): (r: Option<nat>)
    requires i < j <= |s| && At(s, i, OPEN) && i + |OPEN| <= j && '\n' !in s[i..j]
    ensures r.Some? ==> j < r.value && IsTag(s, i, r.value) && forall b: nat | r.value < b :: !IsTag(s, i, b)
    ensures r.None? ==> forall b: nat | j < b :: !IsTag(s, i, b)
    decreases |s| - j
  {
    if j == |s| || s[j] == '\n' then None
    else
      assert s[i..j + 1] == s[i..j] + [s[j]];
      match LongestEnd(s, i, j + 1)
      case Some(b) => Some(b)
      case None => if s[j] == '>' then Some(j + 1) else None
  }

  /** The leftmost match, and the longest there: what a Go regular expression reports. */
  function FindTag(s: string, from: nat): (r: Option<(nat, nat)>)
    requires from <= |s|
    ensures r.Some? ==>
              var (i, j) := r.value;
              && from <= i && IsTag(s, i, j)
              && (forall b: nat | j < b :: !IsTag(s, i, b))
              && (forall a: nat, b: nat | from <= a < i :: !IsTag(s, a, b))
    ensures r.None? ==> forall a: nat, b: nat | from <= a :: !IsTag(s, a, b)
    decreases |s| - from
  {
    if from == |s| then None
    else
      var here := if At(s, from, OPEN) then LongestEnd(s, from, from + |OPEN|) else None;
      if here.Some? then Some((from, here.value)) else FindTag(s, from + 1)
  }

  /** Every match replaced by nothing. */
  function Scrub(s: string): string
    decreases |s|
  {
    match FindTag(s, 0)
    case None => s
    case Some((i, j)) => s[..i] + Scrub(s[j..])
  }

  /** A '>' before the first line break, if any. */
  predicate ClosesFirstLine(s: string, n: nat)
  {
    n < |s| && s[n] == '>' && '\n' !in s[..n]
  }

  lemma AfterLongestMatch(s: string, i: nat, j: nat)
    requires IsTag(s, i, j) && forall b: nat | j < b :: !IsTag(s, i, b)
    ensures forall n: nat :: !ClosesFirstLine(s[j..], n)
  {
    forall n: nat ensures !ClosesFirstLine(s[j..], n) {
      if ClosesFirstLine(s[j..], n) {
        assert s[i..j + n + 1] == s[i..j] + s[j..][..n] + [s[j..][n]];
        assert IsTag(s, i, j + n + 1);
        assert false;
      }
    }
  }

  /** Past a line break nothing matters to the first line. */
  lemma FirstLineOfPrefix(p: string, rest: string, n: nat)
    requires '\n' in p
    ensures ClosesFirstLine(p + rest, n) <==> ClosesFirstLine(p, n)
  {
    var k :| 0 <= k < |p| && p[k] == '\n';
    if n < |p| {
      assert (p + rest)[..n] == p[..n];
    } else if n < |p + rest| {
      assert (p + rest)[..n][k] == '\n';
    }
  }

  lemma ScrubKeepsFirstLineOpen(s: string)
    requires forall n: nat :: !ClosesFirstLine(s, n)
    ensures forall n: nat :: !ClosesFirstLine(Scrub(s), n)
  {
    if FindTag(s, 0).Some? {
      var (i, j) := FindTag(s, 0).value;
      var before := s[..i];
      assert s == before + s[i..];
      assert '\n' in before by {
        if '\n' !in before {
          assert s[..j - 1] == before + s[i..j][..j - 1 - i];
          assert ClosesFirstLine(s, j - 1);
        }
      }
      forall n: nat ensures !ClosesFirstLine(Scrub(s), n) {
        FirstLineOfPrefix(before, s[i..], n);
        FirstLineOfPrefix(before, Scrub(s[j..]), n);
      }
    }
  }

  /** No match is left, not even one that removal put together from the text on both sides. */
  lemma {:induction false} ScrubLeavesNoTag(s: string)
    ensures NoTag(Scrub(s))
    decreases |s|
  {
    if FindTag(s, 0).Some? {
      var (i, j) := FindTag(s, 0).value;
      var rest := Scrub(s[j..]);
      ScrubLeavesNoTag(s[j..]);
      AfterLongestMatch(s, i, j);
      ScrubKeepsFirstLineOpen(s[j..]);
      forall a: nat, b: nat ensures !IsTag(s[..i] + rest, a, b) {
        NoTagAcross(s, i, rest, a, b);
      }
    }
  }

  lemma NoTagAcross(s: string, i: nat, rest: string, a: nat, b: nat)
    requires i <= |s| && NoTag(rest)
    requires forall n: nat :: !ClosesFirstLine(rest, n)
    requires forall x: nat, y: nat | x < i :: !IsTag(s, x, y)
    ensures !IsTag(s[..i] + rest, a, b)
  {
    var t := s[..i] + rest;
    if IsTag(t, a, b) {
      if a >= i {
        TagCopied(t, a, b, rest, a - i, b - i);
      } else if b <= i {
        TagCopied(t, a, b, s, a, b);
      } else {
        TagCrosses(s[..i], rest, a, b);
      }
      assert false;
    }
  }

  /** Text that matches in `t` matches in `u`, where it is also found. */
  lemma TagCopied(t: string, i: nat, j: nat, u: string, a: nat, b: nat)
    requires IsTag(t, i, j) && a <= b <= |u| && t[i..j] == u[a..b]
    ensures IsTag(u, a, b)
  {
    assert |t[i..j]| == j - i == b - a;
    assert u[a..a + |OPEN|] == u[a..b][..|OPEN|];
    assert t[i..i + |OPEN|] == t[i..j][..|OPEN|];
    assert u[b - 1] == u[a..b][b - a - 1] == t[i..j][j - i - 1];
  }

  lemma TagCrosses(before: string, rest: string, a: nat, b: nat)
    requires IsTag(before + rest, a, b) && a < |before| < b
    ensures ClosesFirstLine(rest, b - |before| - 1)
  {
    var t, n := before + rest, b - |before| - 1;
    assert t[a..b] == before[a..] + rest[..n] + [rest[n]];
  }

  // ----- What scrubbing keeps -----

  /** The leftmost match, as long as possible. */
  ghost predicate First(s: string, i: nat, j: nat)
  {
    IsTag(s, i, j) && (forall b: nat | j < b :: !IsTag(s, i, b)) && (forall a: nat, b: nat | a < i :: !IsTag(s, a, b))
  }

  lemma FirstOrNone(s: string) returns (first: Option<(nat, nat)>)
    ensures first.Some? ==> First(s, first.value.0, first.value.1) && Scrub(s) == s[..first.value.0] + Scrub(s[first.value.1..])
    ensures first.None? ==> NoTag(s) && Scrub(s) == s
  {
    first := FindTag(s, 0);
  }

  lemma ScrubAtFirst(s: string, i: nat, j: nat, before: string, after: string)
    requires First(s, i, j) && before == s[..i] && after == s[j..]
    ensures Scrub(s) == before + Scrub(after)
  {
    var (x, y) := FindTag(s, 0).value;
    assert IsTag(s, x, y);
    assert x == i && y == j;
  }

  lemma ScrubUntagged(s: string)
    requires NoTag(s)
    ensures Scrub(s) == s
  {
  }

  lemma BreakInside(s: string, i: nat, j: nat, n: nat)
    requires i <= n < j <= |s| && s[n] == '\n'
    ensures '\n' in s[i..j]
  {
  }

  /** A match never crosses a line break, so it lies on one side of it. */
  lemma TagOnOneSide(a: string, b: string, i: nat, j: nat)
    ensures IsTag(a + ['\n'] + b, i, j) <==>
            (j <= |a| && IsTag(a, i, j)) || (i > |a| && j > |a| && IsTag(b, i - |a| - 1, j - |a| - 1))
  {
    var s := a + ['\n'] + b;
    if IsTag(s, i, j) {
      if i <= |a| < j {
        BreakInside(s, i, j, |a|);
        assert false;
      } else if j <= |a| {
        TagCopied(s, i, j, a, i, j);
      } else {
        TagCopied(s, i, j, b, i - |a| - 1, j - |a| - 1);
      }
    }
    if j <= |a| && IsTag(a, i, j) {
      TagCopied(a, i, j, s, i, j);
    }
    if i > |a| && j > |a| && IsTag(b, i - |a| - 1, j - |a| - 1) {
      TagCopied(b, i - |a| - 1, j - |a| - 1, s, i, j);
    }
  }

  lemma FirstInLeft(a: string, b: string, i: nat, j: nat)
    requires First(a, i, j)
    ensures First(a + ['\n'] + b, i, j)
  {
    forall x: nat, y: nat | x <= i && IsTag(a + ['\n'] + b, x, y) ensures IsTag(a, x, y) {
      TagOnOneSide(a, b, x, y);
    }
    TagOnOneSide(a, b, i, j);
  }

  lemma FirstInRight(a: string, b: string, i: nat, j: nat)
    requires NoTag(a) && First(b, i, j)
    ensures First(a + ['\n'] + b, |a| + 1 + i, |a| + 1 + j)
  {
    var n := |a| + 1;
    forall x: nat, y: nat | IsTag(a + ['\n'] + b, x, y) ensures x >= n && y >= n && IsTag(b, x - n, y - n) {
      TagOnOneSide(a, b, x, y);
    }
    TagOnOneSide(a, b, n + i, n + j);
  }

  lemma NoTagInEither(a: string, b: string)
    requires NoTag(a) && NoTag(b)
    ensures NoTag(a + ['\n'] + b)
  {
    forall x: nat, y: nat ensures !IsTag(a + ['\n'] + b, x, y) {
      TagOnOneSide(a, b, x, y);
    }
  }

  lemma ScrubLeft(a: string, b: string, i: nat, j: nat)
    requires First(a, i, j)
    ensures Scrub(a + ['\n'] + b) == a[..i] + Scrub(a[j..] + ['\n'] + b)
  {
    var s := a + ['\n'] + b;
    FirstInLeft(a, b, i, j);
    assert s[j..] == a[j..] + ['\n'] + b && s[..i] == a[..i];
    ScrubAtFirst(s, i, j, a[..i], a[j..] + ['\n'] + b);
  }

  lemma SlicesAfterBreak(a: string, b: string, i: nat, j: nat)
    requires i <= j <= |b|
    ensures (a + ['\n'] + b)[..|a| + 1 + i] == a + ['\n'] + b[..i]
    ensures (a + ['\n'] + b)[|a| + 1 + j..] == b[j..]
  {
  }

  lemma ScrubRight(a: string, b: string, i: nat, j: nat)
    requires NoTag(a) && First(b, i, j)
    ensures Scrub(a + ['\n'] + b) == a + ['\n'] + b[..i] + Scrub(b[j..])
  {
    FirstInRight(a, b, i, j);
    SlicesAfterBreak(a, b, i, j);
    ScrubAtFirst(a + ['\n'] + b, |a| + 1 + i, |a| + 1 + j, a + ['\n'] + b[..i], b[j..]);
  }

  lemma Regroup(x: string, y: string, z: string)
    ensures x + y + z == x + (y + z)
  {
  }

  lemma ScrubRightOnly(a: string, b: string)
    requires NoTag(a)
    ensures Scrub(a + ['\n'] + b) == a + ['\n'] + Scrub(b)
  {
    var right := FirstOrNone(b);
    if right.Some? {
      ScrubRight(a, b, right.value.0, right.value.1);
      Regroup(a + ['\n'], b[..right.value.0], Scrub(b[right.value.1..]));
    } else {
      NoTagInEither(a, b);
      ScrubUntagged(a + ['\n'] + b);
    }
  }

  /** Lines are scrubbed one by one. */
  lemma {:induction false} ScrubByLine(a: string, b: string)
    ensures Scrub(a + ['\n'] + b) == Scrub(a) + ['\n'] + Scrub(b)
    decreases |a|
  {
    var left := FirstOrNone(a);
    if left.Some? {
      var (i, j) := left.value;
      ScrubLeft(a, b, i, j);
      ScrubByLine(a[j..], b);
    } else {
      ScrubRightOnly(a, b);
    }
  }

  /** Of one line, everything is kept from the left up to the first tag and from the right down to
      the last '>'; a line without a tag is kept whole. */
  lemma ScrubOneLine(line: string)
    requires '\n' !in line
    ensures NoTag(line) ==> Scrub(line) == line
    ensures !NoTag(line) ==>
              exists i: nat, j: nat ::
                && IsTag(line, i, j) && Scrub(line) == line[..i] + line[j..]
                && '>' !in line[j..] && forall a: nat, b: nat | a < i :: !IsTag(line, a, b)
  {
    if FindTag(line, 0).Some? {
      var (i, j) := FindTag(line, 0).value;
      AfterLongestMatch(line, i, j);
      forall n | 0 <= n < |line[j..]| ensures line[j..][n] != '>' {
        assert !ClosesFirstLine(line[j..], n);
      }
      TagNeedsClose(line[j..]);
      assert Scrub(line[j..]) == line[j..];
      assert IsTag(line, i, j) && Scrub(line) == line[..i] + line[j..];
    }
  }

  lemma TagNeedsClose(s: string)
    requires '>' !in s
    ensures FindTag(s, 0).None?
  {
  }

  // ----- Printed tags -----

  /** Text in which no tag begins is kept. */
  lemma ScrubKeepsPlain(s: string)
    requires forall i: nat :: !At(s, i, "<gateway:")
    ensures NoTag(s) && Scrub(s) == s
  {
    ScrubUntagged(s);
  }

  /** From a line with one printed tag the tag goes, and everything around it stays. */
  lemma ScrubDropsTag(a: string, u: string, b: string)
    requires (forall i: nat :: !At(a, i, "<gateway:")) && '>' !in b && '\n' !in a && '\n' !in u && '\n' !in b
    ensures Scrub(a + ("<gateway:" + u + ">" + b)) == a + b
  {
    var s, j := a + ("<gateway:" + u + ">" + b), |a| + 9 + |u| + 1;
    TagPrinted(s, a, u, b);
    TagAround(a, "<gateway:" + u + ">", b);
    ScrubAtFirst(s, |a|, j, a, b);
    TagNeedsClose(b);
    ScrubUntagged(b);
  }

  lemma TagAround(a: string, tag: string, b: string)
    ensures (a + (tag + b))[..|a|] == a && (a + (tag + b))[|a| + |tag|..] == b
  {
  }

  lemma TagPrinted(s: string, a: string, u: string, b: string)
    requires s == a + ("<gateway:" + u + ">" + b)
    requires (forall i: nat :: !At(a, i, "<gateway:")) && '>' !in b && '\n' !in a && '\n' !in u && '\n' !in b
    ensures First(s, |a|, |a| + 9 + |u| + 1)
  {
    var j := |a| + 9 + |u| + 1;
    assert s[|a|..|a| + 9] == OPEN && s[|a|..j] == OPEN + u + ">" && s[j - 1] == '>';
    forall y: nat | j < y ensures !IsTag(s, |a|, y) {
      assert y <= |s| ==> s[y - 1] == b[y - 1 - j];
    }
    forall x: nat, y: nat | x < |a| ensures !IsTag(s, x, y) {
      NoTagBefore(s, a, x);
    }
  }

  lemma NoTagBefore(s: string, a: string, x: nat)
    requires x < |a| < |s| && s[..|a|] == a && s[|a|] == '<' && forall i: nat :: !At(a, i, "<gateway:")
    ensures !At(s, x, OPEN)
  {
    if At(s, x, OPEN) {
      if x + |OPEN| <= |a| {
        assert a[x..x + |OPEN|] == s[x..x + |OPEN|];
        assert At(a, x, "<gateway:");
      }
      assert false;
    }
  }
}
