/** Exactly which header maps survive being printed by conformance/utils/http/http.go and parsed by
    conformance/echo-basic/echo-basic.go.

    Every character the parser puts into a header is paid for by one character of the printed text.
    A comma, a colon or surrounding space that the parser swallows is never paid back, so a map
    with such a name or value cannot come back whole. The one exception are commas at the end of the
    value of the empty name: the blank pieces they split off are read as that name again. */
module EchoRoundTrip {
  import opened Text
  import opened Sequences
  import opened EchoHeaders
  import opened EchoSurvivors

  // ----- What the headers weigh -----

  /** Characters of name and value. The header without a name counts one more for its value's comma,
      or not at all. */
  function Heaviness(name: string, value: string, blank: bool): nat
  {
    if name != "" then |name| + |value| else if blank then 1 + |value| else 0
  }

  function WeightOf(h: ResponseHeaders, n: string, blank: bool): nat
  {
    if n in h && |h[n]| > 0 then Heaviness(n, h[n][0], blank) else 0
  }

  function Weight(h: ResponseHeaders, names: seq<string>, blank: bool): nat
  {
    if names == [] then 0 else WeightOf(h, names[0], blank) + Weight(h, names[1..], blank)
  }

  lemma {:induction false} WeightStep(h: ResponseHeaders, h': ResponseHeaders, name: string, names: seq<string>, blank: bool, d: nat)
    requires Distinct(names) && WeightOf(h', name, blank) <= WeightOf(h, name, blank) + d
    requires forall n | n != name :: WeightOf(h', n, blank) == WeightOf(h, n, blank)
    ensures Weight(h', names, blank) <= Weight(h, names, blank) + d
    ensures name !in names ==> Weight(h', names, blank) == Weight(h, names, blank)
  {
    if names != [] {
      WeightStep(h, h', name, names[1..], blank, d);
      assert names[0] !in names[1..];
    }
  }

  /** What a piece can pay for: its text without surrounding space and without its first colon, and
      a comma if it has no name. */
  function Charge(kv: string, blank: bool): nat
  {
    var text := |TrimSpace(kv)| - (if ':' in TrimSpace(kv) then 1 else 0);
    if NameIn(kv) != "" then text else if blank then 1 + text else 0
  }

  function ChargeAll(kvs: seq<string>, blank: bool): nat
  {
    if kvs == [] then 0 else Charge(kvs[0], blank) + ChargeAll(kvs[1..], blank)
  }

  lemma {:induction false} ChargeAppend(a: seq<string>, b: seq<string>, blank: bool)
    ensures ChargeAll(a + b, blank) == ChargeAll(a, blank) + ChargeAll(b, blank)
  {
    if a == [] {
      assert a + b == b;
    } else {
      assert (a + b)[1..] == a[1..] + b;
      ChargeAppend(a[1..], b, blank);
    }
  }

  lemma WriteCharge(h: ResponseHeaders, kv: string, names: seq<string>, blank: bool)
    requires Distinct(names)
    ensures Weight(Write(h, kv), names, blank) <= Weight(h, names, blank) + Charge(kv, blank)
  {
    var (name, value) := Cut(TrimSpace(kv), ':');
    CutFacts(TrimSpace(kv), ':');
    TrimFacts(value);
    WeightStep(h, Write(h, kv), name, names, blank, Charge(kv, blank));
  }

  lemma {:induction false} WriteAllCharge(kvs: seq<string>, names: seq<string>, blank: bool)
    requires Distinct(names)
    ensures Weight(WriteAll(map[], kvs), names, blank) <= ChargeAll(kvs, blank)
  {
    if kvs == [] {
      WeightOfNothing(names, blank);
    } else {
      var k := |kvs| - 1;
      assert kvs == kvs[..k] + [kvs[k]];
      WriteAllCharge(kvs[..k], names, blank);
      WriteCharge(WriteAll(map[], kvs[..k]), kvs[k], names, blank);
      ChargeAppend(kvs[..k], [kvs[k]], blank);
      assert ChargeAll([kvs[k]], blank) == Charge(kvs[k], blank);
    }
  }

  lemma {:induction false} WeightOfNothing(names: seq<string>, blank: bool)
    ensures Weight(map[], names, blank) == 0
  {
    if names != [] {
      WeightOfNothing(names[1..], blank);
    }
  }

  // ----- What a printed pair can pay for -----

  function Lengths(parts: seq<string>): nat
  {
    if parts == [] then 0 else |parts[0]| + Lengths(parts[1..])
  }

  lemma {:induction false} LengthsOfSplit(s: string)
    ensures Lengths(Split(s, ',')) + |Split(s, ',')| == |s| + 1
  {
    if s != "" {
      var rest := Split(s[1..], ',');
      LengthsOfSplit(s[1..]);
      assert s == [s[0]] + s[1..];
      if s[0] == ',' {
        assert ([""] + rest)[1..] == rest;
      } else {
        assert ([[s[0]] + rest[0]] + rest[1..])[1..] == rest[1..];
      }
    }
  }

  /** The first piece of a pair pays for the name and what it has of the value. */
  lemma FirstCharge(name: string, start: string, blank: bool)
    requires PlainName(name)
    ensures Charge(Print(name, start), blank) <= Heaviness(name, start, blank)
    ensures Charge(Print(name, start), true) == Heaviness(name, start, true) && start != "" ==> !IsSpace(start[|start| - 1])
  {
    var kv := Print(name, start);
    TrimFacts(kv);
    CutFacts(TrimSpace(kv), ':');
    assert kv[|name|] == ':';
    assert ':' in TrimSpace(kv);
    PrintedName(name, start);
  }

  lemma PrintedName(name: string, start: string)
    requires PlainName(name)
    ensures NameIn(Print(name, start)) == "" <==> name == ""
  {
    var kv := Print(name, start);
    assert kv == name + [':'] + start;
    assert kv[0] == if name == "" then ':' else name[0];
    FrontStays(kv);
  }

  /** Text that begins with neither space nor colon has a name, and text that begins with a colon has none. */
  lemma {:induction false} FrontStays(kv: string)
    requires kv != "" && !IsSpace(kv[0])
    ensures NameIn(kv) == "" <==> kv[0] == ':'
  {
    if IsSpace(kv[|kv| - 1]) {
      FrontStays(kv[..|kv| - 1]);
    }
  }

  /** A further piece pays for its text and the comma before it, and in full only if it is blank. */
  lemma FurtherCharge(kv: string)
    ensures Charge(kv, true) <= 1 + |kv|
    ensures Charge(kv, true) == 1 + |kv| ==> kv == ""
  {
    TrimFacts(kv);
    CutFacts(TrimSpace(kv), ':');
  }

  lemma {:induction false} FurtherCharges(parts: seq<string>)
    ensures ChargeAll(parts, true) <= |parts| + Lengths(parts)
    ensures ChargeAll(parts, true) == |parts| + Lengths(parts) ==> AllBlank(parts)
  {
    if parts != [] {
      FurtherCharge(parts[0]);
      FurtherCharges(parts[1..]);
    }
  }

  lemma {:induction false} BlankCharges(parts: seq<string>)
    requires AllBlank(parts)
    ensures ChargeAll(parts, false) == 0
  {
    if parts != [] {
      BlankCharges(parts[1..]);
    }
  }

  /** A printed pair pays for its name and value, and in full only if the rest of the value is commas. */
  lemma {:induction false} PairCharge(name: string, value: string)
    requires PlainName(name)
    ensures ChargeAll(Split(Print(name, value), ','), true) <= Heaviness(name, value, true)
    ensures ChargeAll(Split(Print(name, value), ','), true) == Heaviness(name, value, true) ==> PlainValue(Strip(value))
  {
    var parts := Split(value, ',');
    PairPieces(name, value);
    LengthsOfSplit(value);
    FirstCharge(name, parts[0], true);
    FurtherCharges(parts[1..]);
    ChargeCons(Print(name, parts[0]), parts[1..], true);
    BlankPiecesIff(value);
  }

  lemma ChargeCons(kv: string, rest: seq<string>, blank: bool)
    ensures ChargeAll([kv] + rest, blank) == Charge(kv, blank) + ChargeAll(rest, blank)
  {
    assert ([kv] + rest)[1..] == rest;
  }

  /** Not counting the header without a name, a value that ends in commas is not paid for. */
  lemma {:induction false} NamedPairCharge(name: string, value: string)
    requires PlainName(name) && ',' !in Strip(value)
    ensures ChargeAll(Split(Print(name, value), ','), false) <= Heaviness(name, value, false)
    ensures ChargeAll(Split(Print(name, value), ','), false) == Heaviness(name, value, false) && name != "" ==> ',' !in value
  {
    var parts := Split(value, ',');
    BlankPiecesIff(value);
    PairPieces(name, value);
    LengthsOfSplit(value);
    FirstCharge(name, parts[0], false);
    BlankCharges(parts[1..]);
    ChargeCons(Print(name, parts[0]), parts[1..], false);
    if |parts| == 1 {
      assert parts[1..] == [];
      JoinOfSplit(value, ',');
    }
  }

  /** What the pieces of a printed map pay for, in both counts. */
  lemma {:induction false} PiecesCharge(m: Headers, order: seq<string>)
    requires forall n | n in order :: n in m && PlainName(n)
    ensures ChargeAll(Pieces(m, order), true) <= Weight(Requested(m), order, true)
    ensures ChargeAll(Pieces(m, order), true) == Weight(Requested(m), order, true) ==> forall n | n in order :: PlainValue(Strip(m[n]))
  {
    if order != [] {
      var name := order[0];
      assert name in order && order == [name] + order[1..];
      PiecesCharge(m, order[1..]);
      PairCharge(name, m[name]);
      PiecesCons(m, order, true);
    }
  }

  lemma {:induction false} NamedPiecesCharge(m: Headers, order: seq<string>)
    requires forall n | n in order :: n in m && PlainName(n) && ',' !in Strip(m[n])
    ensures ChargeAll(Pieces(m, order), false) <= Weight(Requested(m), order, false)
    ensures ChargeAll(Pieces(m, order), false) == Weight(Requested(m), order, false) ==> forall n | n in order && n != "" :: ',' !in m[n]
  {
    if order != [] {
      var name := order[0];
      assert name in order && order == [name] + order[1..];
      NamedPiecesCharge(m, order[1..]);
      NamedPairCharge(name, m[name]);
      PiecesCons(m, order, false);
    }
  }

  lemma PiecesCons(m: Headers, order: seq<string>, blank: bool)
    requires order != [] && forall n | n in order :: n in m
    ensures ChargeAll(Pieces(m, order), blank) ==
            ChargeAll(Split(Print(order[0], m[order[0]]), ','), blank) + ChargeAll(Pieces(m, order[1..]), blank)
  {
    var entries := Entries(m, order);
    assert entries[1..] == Entries(m, order[1..]);
    ChargeAppend(Split(entries[0], ','), Pieces(m, order[1..]), blank);
  }

  // ----- The exact condition -----

  /** A map comes back exactly as requested if and only if it is not empty and every pair survives. */
  lemma HeaderRoundTripIff(m: Headers, order: seq<string>)
    requires IterationOrder(m, order)
    ensures SentBack(m, order) == Requested(m) <==> m != map[] && forall n | n in m :: Survives(n, m[n])
  {
    if m == map[] {
      NothingRequested(m, order);
    } else {
      var first :| first in m;
      assert first in order;
      SentBackInPieces(m, order);
      if forall n | n in m :: Survives(n, m[n]) {
        WriteSurvivors(m, order);
        assert OneValueEach(m, order) == Requested(m);
      } else if SentBack(m, order) == Requested(m) {
        OnlySurvivorsReturn(m, order);
      }
    }
  }

  lemma SomeIn(order: seq<string>)
    requires order != []
    ensures exists n :: n in order
  {
    assert order[0] in order;
  }

  lemma NothingRequested(m: Headers, order: seq<string>)
    requires m == map[] && IterationOrder(m, order)
    ensures SentBack(m, order) != Requested(m)
  {
    if order != [] {
      SomeIn(order);
    }
    assert Entries(m, order) == [];
    EmptyMapSetsBlankHeader();
    assert "" in SentBack(m, order);
  }

  lemma OnlySurvivorsReturn(m: Headers, order: seq<string>)
    requires m != map[] && order != [] && IterationOrder(m, order) && SentBack(m, order) == Requested(m)
    ensures forall n | n in m :: Survives(n, m[n])
  {
    forall n | n in m ensures PlainName(n) {
      assert n in SentBack(m, order);
      WrittenNamesPlain(m, order, n);
    }
    SentBackInPieces(m, order);
    OnlyPlainValuesReturn(m, order);
    forall n | n in m ensures Survives(n, m[n]) {
      assert n in order;
      if n != "" {
        StripPlain(m[n]);
      }
    }
  }

  lemma OnlyPlainValuesReturn(m: Headers, order: seq<string>)
    requires Distinct(order) && (forall n | n in order :: n in m && PlainName(n))
    requires WriteAll(map[], Pieces(m, order)) == Requested(m)
    ensures forall n | n in order :: PlainValue(Strip(m[n])) && (n != "" ==> ',' !in m[n])
  {
    WriteAllCharge(Pieces(m, order), order, true);
    PiecesCharge(m, order);
    WriteAllCharge(Pieces(m, order), order, false);
    NamedPiecesCharge(m, order);
  }

  /** A comma at the end of a value is lost and an extra header without a name comes out, except
      under the empty name, where the value comes back whole. */
  lemma TrailingComma(name: string, value: string)
    requires Plain(name, value)
    ensures !Plain(name, value + ",")
    ensures SentBack(map[name := value + ","], [name]) ==
            if name == "" then map["" := [value + ","]] else map[name := [value], "" := [""]]
  {
    var m, pair := map[name := value + ","], Print(name, value);
    ParsePrinted(name, value);
    assert Entries(m, [name]) == [Print(name, value + ",")];
    assert Print(name, value + ",") == pair + [','] + "";
    SplitAtSeparator(pair, "", ',');
    SplitWithoutSeparator(pair, ',');
    WriteListOfTwo(pair + [','] + "", pair, "");
    BlankPiece(name, value);
  }

  lemma BlankPiece(name: string, value: string)
    ensures Write(map[name := [value]], "") == if name == "" then map["" := [value + ","]] else map[name := [value], "" := [""]]
  {
    assert value + "," + "" == value + ",";
    assert [value][0 := value + ","] == [value + ","];
    assert map["" := [value]]["" := [value + ","]] == map["" := [value + ","]];
  }
}
