/** Text between a start tag and an end tag, which pkg/generator/main.go removes in one channel and
    only unwraps in the other. */
module Blocks {
  import opened Wrappers
  import opened Tags

  /** The shortest block from a start tag to an end tag, searched from the left. */
  function FindBlock(s: string, open: string, close: string): (r: Option<(nat, nat)>)
    requires open != ""
    ensures r.Some? ==> r.value.0 < r.value.1 <= |s|
  {
    match Find(s, open, 0)
    case None => None
    case Some(i) =>
      match Find(s, close, i + |open|)
      case None => None
      case Some(j) => Some((i, j + |close|))
  }

  /** There is a block if and only if some end tag stands behind some start tag. */
  lemma FindBlockIff(s: string, open: string, close: string)
    requires open != ""
    ensures FindBlock(s, open, close).Some? <==> exists i: nat, j: nat :: At(s, i, open) && At(s, j, close) && i + |open| <= j
  {
    if FindBlock(s, open, close).Some? {
      var first := Find(s, open, 0).value;
      FindSound(s, open, 0);
      FindSound(s, close, first + |open|);
    } else if i: nat, j: nat :| At(s, i, open) && At(s, j, close) && i + |open| <= j {
      FindComplete(s, open, 0, i);
      FindComplete(s, close, Find(s, open, 0).value + |open|, j);
    }
  }

  function RemoveBlocks(s: string, open: string, close: string): string
    requires open != ""
    decreases |s|
  {
    match FindBlock(s, open, close)
    case None => s
    case Some((i, j)) => s[..i] + RemoveBlocks(s[j..], open, close)
  }

  predicate Absent(s: string, pattern: string)
  {
    forall i | 0 <= i <= |s| :: !At(s, i, pattern)
  }

  /** The only '<' is at the front. */
  predicate TagLike(pattern: string)
  {
    |pattern| > 0 && pattern[0] == '<' && forall k | 0 < k < |pattern| :: pattern[k] != '<'
  }

  /** A tag cannot begin inside `a` and end beyond it when a '<' follows `a`. */
  lemma NotAcross(p: string, a: string, rest: string, pattern: string, i: nat)
    requires TagLike(pattern) && Absent(a, pattern) && rest != "" && rest[0] == '<' && |p| <= i < |p| + |a|
    ensures !At(p + a + rest, i, pattern)
  {
    var s, n := p + a + rest, |p| + |a|;
    if At(s, i, pattern) {
      if i + |pattern| <= n {
        AtWithin(s, a, |p|, i, pattern);
      } else {
        assert s[n] == '<';
        AtHasNoInnerOpen(s, i, pattern, n);
      }
      assert false;
    }
  }

  lemma AtWithin(s: string, a: string, offset: nat, i: nat, pattern: string)
    requires At(s, i, pattern) && offset <= i && i + |pattern| <= offset + |a| <= |s| && s[offset..offset + |a|] == a
    ensures At(a, i - offset, pattern)
  {
    assert forall k | 0 <= k < |a| :: a[k] == s[offset + k];
    assert a[i - offset..i - offset + |pattern|] == s[i..i + |pattern|];
  }

  lemma AtHasNoInnerOpen(s: string, i: nat, pattern: string, n: nat)
    requires At(s, i, pattern) && TagLike(pattern) && i < n < i + |pattern|
    ensures s[n] != '<'
  {
  }

  lemma {:induction false} FindAfter(s: string, p: string, a: string, pattern: string, more: string)
    requires TagLike(pattern) && Absent(a, pattern) && s == p + a + (pattern + more)
    ensures Find(s, pattern, |p|) == Some(|p| + |a|)
  {
    var rest, n := pattern + more, |p| + |a|;
    assert At(s, n, pattern) by {
      assert s[n..n + |pattern|] == pattern;
    }
    forall i | |p| <= i < n ensures !At(s, i, pattern) {
      NotAcross(p, a, rest, pattern, i);
    }
    FindIsFirst(s, pattern, |p|, n);
  }

  function Block(a: string, open: string, inner: string, close: string, b: string): string
  {
    a + (open + (inner + (close + b)))
  }

  lemma {:induction false} BlockSlices(a: string, open: string, inner: string, close: string, b: string)
    ensures var s := Block(a, open, inner, close, b);
            && s == "" + a + (open + (inner + (close + b)))
            && s == (a + open) + inner + (close + b)
            && s[..|a|] == a && s[|a| + |open| + |inner| + |close|..] == b
  {
  }

  lemma {:induction false} FindBlockAt(s: string, open: string, close: string, i: nat, j: nat)
    requires open != "" && i + |open| <= |s| && Find(s, open, 0) == Some(i) && Find(s, close, i + |open|) == Some(j)
    ensures Contains(s, open) && FindBlock(s, open, close) == Some((i, j + |close|))
  {
  }

  lemma {:induction false} RemoveFoundBlock(s: string, open: string, close: string, i: nat, j: nat, before: string, after: string)
    requires open != "" && FindBlock(s, open, close) == Some((i, j)) && before == s[..i] && after == s[j..]
    ensures RemoveBlocks(s, open, close) == before + RemoveBlocks(after, open, close)
  {
  }

  lemma {:induction false} BlockOpens(s: string, a: string, open: string, inner: string, close: string, b: string)
    requires TagLike(open) && Absent(a, open) && s == Block(a, open, inner, close, b)
    ensures Find(s, open, 0) == Some(|a|)
  {
    BlockSlices(a, open, inner, close, b);
    FindAfter(s, "", a, open, inner + (close + b));
  }

  lemma {:induction false} BlockCloses(s: string, a: string, open: string, inner: string, close: string, b: string)
    requires TagLike(close) && Absent(inner, close) && s == Block(a, open, inner, close, b)
    ensures Find(s, close, |a| + |open|) == Some(|a| + |open| + |inner|)
  {
    BlockSlices(a, open, inner, close, b);
    FindAfter(s, a + open, inner, close, b);
  }

  lemma {:induction false} BlockFound(s: string, a: string, open: string, inner: string, close: string, b: string)
    requires TagLike(open) && TagLike(close) && Absent(a, open) && Absent(inner, close)
    requires s == Block(a, open, inner, close, b)
    ensures Contains(s, open) && FindBlock(s, open, close) == Some((|a|, |a| + |open| + |inner| + |close|))
  {
    BlockOpens(s, a, open, inner, close, b);
    BlockCloses(s, a, open, inner, close, b);
    FindBlockAt(s, open, close, |a|, |a| + |open| + |inner|);
  }

  /** Removing blocks drops a block with its tags and goes on behind it. */
  lemma {:induction false} BlockDropped(a: string, open: string, inner: string, close: string, b: string)
    requires TagLike(open) && TagLike(close) && Absent(a, open) && Absent(inner, close)
    ensures RemoveBlocks(Block(a, open, inner, close, b), open, close) == a + RemoveBlocks(b, open, close)
  {
    var s := Block(a, open, inner, close, b);
    BlockFound(s, a, open, inner, close, b);
    BlockSlices(a, open, inner, close, b);
    RemoveFoundBlock(s, open, close, |a|, |a| + |open| + |inner| + |close|, a, b);
  }

  lemma {:induction false} RemoveFirst(a: string, pattern: string, more: string)
    requires TagLike(pattern) && Absent(a, pattern)
    ensures RemoveAll(a + (pattern + more), pattern) == a + RemoveAll(more, pattern)
  {
    BlockSlices(a, pattern, "", "", more);
    EmptyMiddle(a, pattern, more);
    FindAfter(a + (pattern + more), "", a, pattern, more);
    RemoveAt(a + (pattern + more), pattern, |a|);
  }

  lemma EmptyMiddle(a: string, pattern: string, more: string)
    ensures Block(a, pattern, "", "", more) == a + (pattern + more)
    ensures "" + a + (pattern + more) == a + (pattern + more)
  {
  }

  lemma {:induction false} RemoveAt(s: string, pattern: string, i: nat)
    requires pattern != "" && Find(s, pattern, 0) == Some(i)
    ensures RemoveAll(s, pattern) == s[..i] + RemoveAll(s[i + |pattern|..], pattern)
  {
  }

  lemma {:induction false} RemoveNone(s: string, pattern: string)
    requires pattern != "" && Absent(s, pattern)
    ensures RemoveAll(s, pattern) == s
  {
    FindNothing(s, pattern, 0);
  }

  /** Removing the tags alone keeps the text between them. */
  lemma {:induction false} BlockOpened(a: string, open: string, inner: string, close: string, b: string)
    requires TagLike(open) && TagLike(close)
    requires Absent(a, open) && Absent(inner + (close + b), open) && Absent(a + inner, close) && Absent(b, close)
    ensures RemoveAll(RemoveAll(Block(a, open, inner, close, b), open), close) == a + inner + b
  {
    RemoveFirst(a, open, inner + (close + b));
    RemoveNone(inner + (close + b), open);
    assert a + (inner + (close + b)) == a + inner + (close + b);
    RemoveFirst(a + inner, close, b);
    RemoveNone(b, close);
  }

  // ----- Whole texts -----

  ghost predicate HasBlock(s: string, open: string, close: string)
  {
    exists i: nat, j: nat :: At(s, i, open) && At(s, j, close) && i + |open| <= j
  }

  lemma NoBlockKept(s: string, open: string, close: string)
    requires open != "" && !HasBlock(s, open, close)
    ensures RemoveBlocks(s, open, close) == s
  {
    FindBlockIff(s, open, close);
  }

  /** Chunks of text with a tag between any two. */
  function Interleaved(chunks: seq<string>, tag: string): string
  {
    if chunks == [] then "" else if |chunks| == 1 then chunks[0] else chunks[0] + (tag + Interleaved(chunks[1..], tag))
  }

  function Concat(chunks: seq<string>): string
  {
    if chunks == [] then "" else chunks[0] + Concat(chunks[1..])
  }

  predicate AllAbsent(chunks: seq<string>, tag: string)
  {
    forall i | 0 <= i < |chunks| :: Absent(chunks[i], tag)
  }

  /** Removing a tag from any text keeps all that stands between its occurrences. */
  lemma {:induction false} RemoveAllOf(chunks: seq<string>, tag: string)
    requires chunks != [] && TagLike(tag) && AllAbsent(chunks, tag)
    ensures RemoveAll(Interleaved(chunks, tag), tag) == Concat(chunks)
  {
    if |chunks| == 1 {
      RemoveNone(chunks[0], tag);
      assert Concat(chunks[1..]) == "";
      assert chunks[0] + "" == chunks[0];
    } else {
      RemoveFirst(chunks[0], tag, Interleaved(chunks[1..], tag));
      RemoveAllOf(chunks[1..], tag);
    }
  }

  /** Every text is made of such chunks. */
  lemma {:induction false} ChunksOf(s: string, tag: string) returns (chunks: seq<string>)
    requires TagLike(tag)
    ensures chunks != [] && AllAbsent(chunks, tag) && Interleaved(chunks, tag) == s
    decreases |s|
  {
    match Find(s, tag, 0)
    case None =>
      NoneAnywhere(s, tag);
      chunks := [s];
    case Some(i) =>
      FindSound(s, tag, 0);
      NoneBefore(s, tag, i);
      var rest := ChunksOf(s[i + |tag|..], tag);
      chunks := [s[..i]] + rest;
      assert chunks[1..] == rest;
      assert s == s[..i] + (tag + s[i + |tag|..]);
  }

  lemma NoneAnywhere(s: string, tag: string)
    requires Find(s, tag, 0).None?
    ensures Absent(s, tag)
  {
    forall i | 0 <= i <= |s| ensures !At(s, i, tag) {
      if At(s, i, tag) {
        FindComplete(s, tag, 0, i);
        assert false;
      }
    }
  }

  lemma NoneBefore(s: string, tag: string, n: nat)
    requires Find(s, tag, 0) == Some(n) && n <= |s| && tag != ""
    ensures Absent(s[..n], tag)
  {
    forall i | 0 <= i <= n ensures !At(s[..n], i, tag) {
      if At(s[..n], i, tag) {
        assert s[i..i + |tag|] == s[..n][i..i + |tag|];
        FindComplete(s, tag, 0, i);
        assert false;
      }
    }
  }

  /** Text before a block, and the text inside it; then what comes behind the last block. */
  function Blocked(parts: seq<(string, string)>, open: string, close: string, tail: string): string
  {
    if parts == [] then tail else Block(parts[0].0, open, parts[0].1, close, Blocked(parts[1..], open, close, tail))
  }

  function Outside(parts: seq<(string, string)>): string
  {
    if parts == [] then "" else parts[0].0 + Outside(parts[1..])
  }

  predicate WellBlocked(parts: seq<(string, string)>, open: string, close: string)
  {
    forall i | 0 <= i < |parts| :: Absent(parts[i].0, open) && Absent(parts[i].1, close)
  }

  /** Removing blocks from any text keeps all that stands outside them. */
  lemma {:induction false} RemoveBlocksOf(parts: seq<(string, string)>, open: string, close: string, tail: string)
    requires TagLike(open) && TagLike(close) && WellBlocked(parts, open, close) && !HasBlock(tail, open, close)
    ensures RemoveBlocks(Blocked(parts, open, close, tail), open, close) == Outside(parts) + tail
  {
    if parts == [] {
      NoBlockKept(tail, open, close);
      assert "" + tail == tail;
    } else {
      var (a, inner) := parts[0];
      BlockDropped(a, open, inner, close, Blocked(parts[1..], open, close, tail));
      RemoveBlocksOf(parts[1..], open, close, tail);
      assert a + (Outside(parts[1..]) + tail) == a + Outside(parts[1..]) + tail;
    }
  }
}
