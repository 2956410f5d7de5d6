/** Header maps that survive being printed by conformance/utils/http/http.go and parsed by
    conformance/echo-basic/echo-basic.go: what the parser makes of the pieces it sees, and that every
    surviving map comes back. */
module EchoSurvivors {
  import opened Text
  import opened Sequences
  import opened EchoHeaders

  /** What a backend without headers sets when a map is printed in a given order. */
  function SentBack(m: Headers, order: seq<string>): ResponseHeaders
    requires forall n | n in order :: n in m
  {
    WriteLists(map[], [Join(Entries(m, order), ',')])
  }

  function Requested(m: Headers): ResponseHeaders
  {
    map n | n in m :: [m[n]]
  }

  /** The pieces the parser sees. */
  function Pieces(m: Headers, order: seq<string>): seq<string>
    requires forall n | n in order :: n in m
  {
    SplitAll(Entries(m, order), ',')
  }

  lemma SentBackInPieces(m: Headers, order: seq<string>)
    requires order != [] && forall n | n in order :: n in m
    ensures SentBack(m, order) == WriteAll(map[], Pieces(m, order))
  {
    var list := [Join(Entries(m, order), ',')];
    SplitOfAnyJoin(Entries(m, order), ',');
    assert list[..0] == [];
    assert WriteLists(map[], list[..0]) == map[];
  }

  // ----- Names that can come out -----

  function NameIn(kv: string): string
  {
    Cut(TrimSpace(kv), ':').0
  }

  lemma {:induction false} TrimFacts(s: string)
    ensures var t := TrimSpace(s);
            && |t| <= |s| && (forall c :: c in t ==> c in s) && (forall c :: c in s && !IsSpace(c) ==> c in t)
            && (t != "" ==> !IsSpace(t[0]))
            && (|t| == |s| ==> t == s) && (|t| == |s| && s != "" ==> !IsSpace(s[|s| - 1]))
  {
    if s != "" {
      if IsSpace(s[0]) {
        TrimFacts(s[1..]);
        assert s == [s[0]] + s[1..];
      } else if IsSpace(s[|s| - 1]) {
        TrimFacts(s[..|s| - 1]);
        assert s == s[..|s| - 1] + [s[|s| - 1]];
      }
    }
  }

  lemma {:induction false} CutFacts(s: string, sep: char)
    ensures var (before, after) := Cut(s, sep);
            && sep !in before && (forall c :: c in before ==> c in s)
            && |before| + |after| + (if sep in s then 1 else 0) == |s|
            && (before != "" ==> s != "" && before[0] == s[0]) && (sep !in s ==> before == s)
  {
    if s != "" && s[0] != sep {
      CutFacts(s[1..], sep);
      assert s == [s[0]] + s[1..];
    }
  }

  lemma NameInIsPlain(kv: string)
    requires ',' !in kv
    ensures PlainName(NameIn(kv))
  {
    TrimFacts(kv);
    CutFacts(TrimSpace(kv), ':');
  }

  /** The names of a parsed list are those of its pieces. */
  lemma {:induction false} NamesWritten(kvs: seq<string>)
    ensures forall n :: n in WriteAll(map[], kvs) <==> exists kv | kv in kvs :: NameIn(kv) == n
  {
    if kvs != [] {
      var k := |kvs| - 1;
      NamesWritten(kvs[..k]);
      assert kvs == kvs[..k] + [kvs[k]];
      forall n ensures n in WriteAll(map[], kvs) <==> exists kv | kv in kvs :: NameIn(kv) == n {
        if kv :| kv in kvs[..k] && NameIn(kv) == n {
          assert kv in kvs;
        }
        assert kvs[k] in kvs;
      }
    }
  }

  lemma {:induction false} NoSeparatorInPieces(parts: seq<string>, sep: char)
    ensures forall piece | piece in SplitAll(parts, sep) :: sep !in piece
  {
    if parts != [] {
      JoinOfSplit(parts[0], sep);
      NoSeparatorInPieces(parts[1..], sep);
    }
  }

  /** Whatever is printed, only plain names come out. */
  lemma WrittenNamesPlain(m: Headers, order: seq<string>, n: string)
    requires order != [] && (forall k | k in order :: k in m) && n in SentBack(m, order)
    ensures PlainName(n)
  {
    SentBackInPieces(m, order);
    NamesWritten(Pieces(m, order));
    var kv :| kv in Pieces(m, order) && NameIn(kv) == n;
    NoSeparatorInPieces(Entries(m, order), ',');
    NameInIsPlain(kv);
  }

  // ----- Which values can come back -----

  /** The value without the commas at its end. */
  function Strip(value: string): string
  {
    if value == "" then ""
    else
      var rest := Strip(value[1..]);
      if value[0] == ',' && rest == "" then "" else [value[0]] + rest
  }

  predicate AllBlank(parts: seq<string>)
  {
    forall i | 0 <= i < |parts| :: parts[i] == ""
  }

  /** Only commas at the end of a value split off nothing but blank pieces. */
  lemma {:induction false} BlankPiecesIff(value: string)
    ensures AllBlank(Split(value, ',')[1..]) <==> ',' !in Strip(value)
    ensures AllBlank(Split(value, ',')[1..]) ==> Strip(value) == Split(value, ',')[0]
  {
    if value != "" {
      var rest := Split(value[1..], ',');
      BlankPiecesIff(value[1..]);
      if value[0] == ',' {
        assert ([""] + rest)[1..] == rest;
        assert rest == [rest[0]] + rest[1..];
        assert AllBlank(rest) <==> rest[0] == "" && AllBlank(rest[1..]);
      } else {
        assert ([[value[0]] + rest[0]] + rest[1..])[1..] == rest[1..];
      }
    }
  }

  lemma {:induction false} StripPlain(value: string)
    requires ',' !in value
    ensures Strip(value) == value
  {
    if value != "" {
      StripPlain(value[1..]);
      assert value == [value[0]] + value[1..];
    }
  }

  /** A pair that survives: plain, except that the value of the empty name may end in commas. */
  predicate Survives(name: string, value: string)
  {
    PlainName(name) && PlainValue(if name == "" then Strip(value) else value)
  }

  // ----- Every surviving map comes back -----

  lemma {:induction false} WriteAllAppend(h: ResponseHeaders, a: seq<string>, b: seq<string>)
    ensures WriteAll(h, a + b) == WriteAll(WriteAll(h, a), b)
    decreases |b|
  {
    if b == [] {
      assert a + b == a;
    } else {
      var n := |b| - 1;
      assert (a + b)[..|a + b| - 1] == a + b[..n];
      WriteAllAppend(h, a, b[..n]);
    }
  }

  /** Several lists are read one after the other, as if their pieces stood in one. */
  lemma {:induction false} ListsInOrder(h: ResponseHeaders, lists: seq<string>)
    ensures WriteLists(h, lists) == WriteAll(h, SplitAll(lists, ','))
  {
    if lists != [] {
      var n := |lists| - 1;
      ListsInOrder(h, lists[..n]);
      assert lists == lists[..n] + [lists[n]];
      SplitAllSnoc(lists[..n], lists[n], ',');
      WriteAllAppend(h, SplitAll(lists[..n], ','), Split(lists[n], ','));
    }
  }

  /** Blank pieces append commas to the header without a name. */
  lemma {:induction false} BlankWrites(h: ResponseHeaders, value: string, blanks: seq<string>)
    requires AllBlank(blanks)
    ensures WriteAll(h["" := [value]], blanks) == h["" := [Join([value] + blanks, ',')]]
  {
    if blanks == [] {
      assert [value] + blanks == [value];
    } else {
      var n := |blanks| - 1;
      BlankWrites(h, value, blanks[..n]);
      var before := Join([value] + blanks[..n], ',');
      assert [value] + blanks == [value] + blanks[..n] + [""];
      JoinSnoc([value] + blanks[..n], "", ',');
      assert blanks[n] == "" && [before][0 := before + "," + ""] == [before + [','] + ""];
      assert h["" := [before]]["" := [before + [','] + ""]] == h["" := [before + [','] + ""]];
    }
  }

  /** The pieces of a printed pair: the first with the name, and then those of the value. */
  lemma PairPieces(name: string, value: string)
    requires ',' !in name
    ensures var parts := Split(value, ',');
            Split(Print(name, value), ',') == [Print(name, parts[0])] + parts[1..] && ',' !in parts[0]
  {
    SplitBehind(name + ":", value);
    assert name + ":" + value == Print(name, value);
    JoinOfSplit(value, ',');
  }

  lemma {:induction false} SplitBehind(a: string, b: string)
    requires ',' !in a
    ensures Split(a + b, ',') == [a + Split(b, ',')[0]] + Split(b, ',')[1..]
  {
    if a == "" {
      var parts := Split(b, ',');
      assert a + b == b && a + parts[0] == parts[0] && parts == [parts[0]] + parts[1..];
    } else {
      assert (a + b)[1..] == a[1..] + b;
      SplitBehind(a[1..], b);
      var rest, first := Split(a[1..] + b, ','), Split(b, ',')[0];
      assert rest[0] == a[1..] + first && rest[1..] == Split(b, ',')[1..];
      assert [a[0]] + (a[1..] + first) == a + first;
    }
  }

  lemma WriteSurvivor(h: ResponseHeaders, name: string, value: string)
    requires Survives(name, value) && name !in h
    ensures WriteAll(h, Split(Print(name, value), ',')) == h[name := [value]]
  {
    var parts := Split(value, ',');
    var first := Print(name, parts[0]);
    StripIfPlain(name, value);
    BlankPiecesIff(value);
    PairPieces(name, value);
    ParsePrinted(name, parts[0]);
    WriteAllAppend(h, [first], parts[1..]);
    assert [first][..0] == [] && WriteAll(h, [first]) == h[name := [parts[0]]];
    if name == "" {
      BlankWrites(h, parts[0], parts[1..]);
      assert [parts[0]] + parts[1..] == parts;
      JoinOfSplit(value, ',');
    } else {
      SplitWithoutSeparator(value, ',');
    }
  }

  lemma StripIfPlain(name: string, value: string)
    requires Survives(name, value)
    ensures PlainValue(Strip(value)) && (name != "" ==> Strip(value) == value)
  {
    if name != "" {
      StripPlain(value);
    }
  }

  lemma {:induction false} WriteSurvivors(m: Headers, order: seq<string>)
    requires Distinct(order) && forall n | n in order :: n in m && Survives(n, m[n])
    ensures WriteAll(map[], Pieces(m, order)) == OneValueEach(m, order)
  {
    if order != [] {
      var k := |order| - 1;
      assert order[k] in order && order[k] !in order[..k];
      WriteSurvivors(m, order[..k]);
      WriteLastSurvivor(m, order, order[..k], order[k]);
    }
  }

  lemma {:induction false} WriteLastSurvivor(m: Headers, order: seq<string>, init: seq<string>, last: string)
    requires order == init + [last] && last !in init && (forall n | n in order :: n in m) && last in m && Survives(last, m[last])
    requires (forall n | n in init :: n in m) && WriteAll(map[], Pieces(m, init)) == OneValueEach(m, init)
    ensures WriteAll(map[], Pieces(m, order)) == OneValueEach(m, order)
  {
    assert order[..|order| - 1] == init;
    PiecesSnoc(m, order);
    WriteAllAppend(map[], Pieces(m, init), Split(Print(last, m[last]), ','));
    WriteSurvivor(OneValueEach(m, init), last, m[last]);
    OneMoreValue(m, init, last, order);
  }

  lemma OneMoreValue(m: Headers, init: seq<string>, last: string, order: seq<string>)
    requires order == init + [last] && forall n | n in order :: n in m
    ensures OneValueEach(m, order) == OneValueEach(m, init)[last := [m[last]]]
  {
    assert forall n :: n in order <==> n in init || n == last;
  }

  lemma PiecesSnoc(m: Headers, order: seq<string>)
    requires order != [] && forall n | n in order :: n in m
    ensures var init, last := order[..|order| - 1], order[|order| - 1];
            Pieces(m, order) == Pieces(m, init) + Split(Print(last, m[last]), ',')
  {
    var init, last := order[..|order| - 1], order[|order| - 1];
    assert Entries(m, order) == Entries(m, init) + [Print(last, m[last])];
    SplitAllSnoc(Entries(m, init), Print(last, m[last]), ',');
  }
}
