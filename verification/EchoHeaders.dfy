/** Response headers a test asks the echo backend to set: printed into one request header by
    conformance/utils/http/http.go and parsed back by conformance/echo-basic/echo-basic.go. */
module EchoHeaders {
  import opened Text

  // ----- TrimSpace and Cut -----

  /** Unicode white space, as `strings.TrimSpace` removes it. */
  predicate IsSpace(c: char)
  {
    var n := c as int;
    9 <= n <= 13 || n in {0x20, 0x85, 0xA0, 0x1680, 0x2028, 0x2029, 0x202F, 0x205F, 0x3000} || 0x2000 <= n <= 0x200A
  }

  function TrimSpace(s: string): string
  {
    if s == "" then ""
    else if IsSpace(s[0]) then TrimSpace(s[1..])
    else if IsSpace(s[|s| - 1]) then TrimSpace(s[..|s| - 1])
    else s
  }

  lemma SpacesAre(c: char)
    ensures IsSpace(c) <==>
            (c as int) in {9, 10, 11, 12, 13, 0x20, 0x85, 0xA0, 0x1680, 0x2000, 0x2001, 0x2002, 0x2003, 0x2004, 0x2005,
                           0x2006, 0x2007, 0x2008, 0x2009, 0x200A, 0x2028, 0x2029, 0x202F, 0x205F, 0x3000}
  {
  }

  /** Trimming takes off all space at both ends and nothing else. */
  lemma {:induction false} TrimExact(s: string) returns (i: nat, j: nat)
    ensures i <= j <= |s| && TrimSpace(s) == s[i..j]
    ensures forall k | 0 <= k < |s| && !(i <= k < j) :: IsSpace(s[k])
    ensures i < j ==> !IsSpace(s[i]) && !IsSpace(s[j - 1])
  {
    i, j := 0, |s|;
    if s != "" {
      if IsSpace(s[0]) {
        i, j := TrimExact(s[1..]);
        i, j := i + 1, j + 1;
        assert forall k | 0 < k < |s| :: s[k] == s[1..][k - 1];
      } else if IsSpace(s[|s| - 1]) {
        i, j := TrimExact(s[..|s| - 1]);
      }
    }
  }

  /** The text before and after the first separator; the whole text and nothing if there is none. */
  function Cut(s: string, sep: char): (string, string)
  {
    if s == "" then ("", "")
    else if s[0] == sep then ("", s[1..])
    else var (before, after) := Cut(s[1..], sep); ([s[0]] + before, after)
  }

  lemma {:induction false} CutAtFirst(a: string, b: string, sep: char)
    requires sep !in a
    ensures Cut(a + [sep] + b, sep) == (a, b)
  {
    var s := a + [sep] + b;
    if a == "" {
      assert s[1..] == b;
    } else {
      assert s[1..] == a[1..] + [sep] + b;
      CutAtFirst(a[1..], b, sep);
      assert a == [a[0]] + a[1..];
    }
  }

  // ----- Printing -----

  type Headers = map<string, string>

  function Print(name: string, value: string): string
  {
    name + ":" + value
  }

  function Entries(m: Headers, order: seq<string>): (r: seq<string>)
    requires forall n | n in order :: n in m
    ensures |r| == |order|
  {
    seq(|order|, i requires 0 <= i < |order| => Print(order[i], m[order[i]]))
  }

  /** An order in which Go may range over the map. */
  ghost predicate IterationOrder(m: Headers, order: seq<string>)
  {
    && (forall n :: n in order <==> n in m)
    && (forall i, j | 0 <= i < j < |order| :: order[i] != order[j])
  }

  method BackendSetHeader(m: Headers) returns (s: string)
    ensures exists order :: IterationOrder(m, order) && s == Join(Entries(m, order), ',')
  {
    var printed: seq<string> := [];
    ghost var order: seq<string> := [];
    var todo := m.Keys;
    while todo != {}
      invariant todo <= m.Keys
      invariant forall n :: n in order <==> n in m && n !in todo
      invariant forall i, j | 0 <= i < j < |order| :: order[i] != order[j]
      invariant printed == Entries(m, order)
    {
      var name :| name in todo;
      printed := printed + [name + ":" + m[name]];
      order := order + [name];
      todo := todo - {name};
    }
    assert IterationOrder(m, order);
    s := Join(printed, ',');
  }

  // ----- Parsing -----

  type ResponseHeaders = map<string, seq<string>>

  /** One name:value pair added to the response. A repeated name extends its first value. */
  function Write(h: ResponseHeaders, kv: string): ResponseHeaders
  {
    var (name, value) := Cut(TrimSpace(kv), ':');
    if name !in h || |h[name]| == 0 then h[name := [value]]
    else h[name := h[name][0 := h[name][0] + "," + TrimSpace(value)]]
  }

  function WriteAll(h: ResponseHeaders, kvs: seq<string>): ResponseHeaders
  {
    if kvs == [] then h else Write(WriteAll(h, kvs[..|kvs| - 1]), kvs[|kvs| - 1])
  }

  function WriteLists(h: ResponseHeaders, lists: seq<string>): ResponseHeaders
  {
    if lists == [] then h else WriteAll(WriteLists(h, lists[..|lists| - 1]), Split(lists[|lists| - 1], ','))
  }

  class ResponseWriter {
    var header: ResponseHeaders

    constructor ()
      ensures header == map[]
    {
      header := map[];
    }

    method WriteEchoResponseHeaders(lists: seq<string>)
      modifies this
      ensures header == WriteLists(old(header), lists)
    {
      for l := 0 to |lists|
        invariant header == WriteLists(old(header), lists[..l])
      {
        var before := header;
        var kvs := Split(lists[l], ',');
        for i := 0 to |kvs|
          invariant header == WriteAll(before, kvs[..i])
        {
          var (name, value) := Cut(TrimSpace(kvs[i]), ':');
          assert kvs[..i + 1][..i] == kvs[..i];
          if name !in header || |header[name]| == 0 {
            header := header[name := [value]];
          } else {
            header := header[name := header[name][0 := header[name][0] + "," + TrimSpace(value)]];
          }
        }
        assert kvs[..|kvs|] == kvs;
        assert lists[..l + 1][..l] == lists[..l];
      }
      assert lists[..|lists|] == lists;
    }
  }

  // ----- Round trip -----

  predicate PlainName(name: string)
  {
    ',' !in name && ':' !in name && (name != "" ==> !IsSpace(name[0]))
  }

  predicate PlainValue(value: string)
  {
    ',' !in value && (value != "" ==> !IsSpace(value[|value| - 1]))
  }

  predicate Plain(name: string, value: string)
  {
    PlainName(name) && PlainValue(value)
  }

  lemma ParsePrinted(name: string, value: string)
    requires Plain(name, value)
    ensures Cut(TrimSpace(Print(name, value)), ':') == (name, value)
    ensures ',' !in Print(name, value)
  {
    var s := Print(name, value);
    assert s == name + [':'] + value;
    assert s[0] == if name == "" then ':' else name[0];
    assert s[|s| - 1] == if value == "" then ':' else value[|value| - 1];
    CutAtFirst(name, value, ':');
  }

  /** What a printed pair does to any headers: a new name gets the value, and a name that has values
      keeps them, the first one extended. All other names stay as they are. */
  lemma WriteMeans(h: ResponseHeaders, name: string, value: string)
    requires Plain(name, value)
    ensures var after := Write(h, Print(name, value));
            && after.Keys == h.Keys + {name} && (forall n | n in h && n != name :: after[n] == h[n])
            && after[name] == if name in h && h[name] != [] then [h[name][0] + "," + TrimSpace(value)] + h[name][1..] else [value]
  {
    ParsePrinted(name, value);
  }

  function OneValueEach(m: Headers, names: seq<string>): ResponseHeaders
    requires forall n | n in names :: n in m
  {
    map n | n in names :: [m[n]]
  }

  lemma {:induction false} WritePrinted(m: Headers, order: seq<string>)
    requires forall n | n in order :: n in m && Plain(n, m[n])
    requires forall i, j | 0 <= i < j < |order| :: order[i] != order[j]
    ensures WriteAll(map[], Entries(m, order)) == OneValueEach(m, order)
  {
    if order != [] {
      var k := |order| - 1;
      var init, last := order[..k], order[k];
      WritePrinted(m, init);
      assert Entries(m, order)[..k] == Entries(m, init);
      ParsePrinted(last, m[last]);
      assert last !in init;
      assert OneValueEach(m, order) == OneValueEach(m, init)[last := [m[last]]] by {
        assert forall n :: n in order <==> n in init || n == last;
      }
    }
  }

  /** Whatever order the map is printed in, a backend that starts without headers sets exactly the
      requested ones, each with one value. */
  lemma HeaderRoundTrip(m: Headers, order: seq<string>)
    requires m != map[] && IterationOrder(m, order)
    requires forall n | n in m :: Plain(n, m[n])
    ensures WriteLists(map[], [Join(Entries(m, order), ',')]) == map n | n in m :: [m[n]]
  {
    var entries := Entries(m, order);
    assert order != [] by {
      var n :| n in m;
      assert n in order;
    }
    forall i | 0 <= i < |entries| ensures ',' !in entries[i] {
      ParsePrinted(order[i], m[order[i]]);
    }
    SplitOfJoin(entries, ',');
    WritePrinted(m, order);
    var list := [Join(entries, ',')];
    assert list[..0] == [];
    assert WriteLists(map[], list) == WriteAll(map[], entries);
    assert OneValueEach(m, order) == map n | n in m :: [m[n]];
  }

  /** The empty map is the exception: it is printed as empty text, which is read as one header
      without a name. */
  lemma EmptyMapSetsBlankHeader()
    ensures WriteLists(map[], [Join(Entries(map[], []), ',')]) == map["" := [""]]
  {
  }

  lemma WriteTwice(name: string, first: string, second: string)
    requires Plain(name, first) && Plain(name, second)
    ensures Write(Write(map[], Print(name, first)), Print(name, second)) == map[name := [first + "," + TrimSpace(second)]]
  {
    ParsePrinted(name, first);
    ParsePrinted(name, second);
    var joined := first + "," + TrimSpace(second);
    assert Write(map[], Print(name, first)) == map[name := [first]];
    assert [first][0 := joined] == [joined];
    assert map[name := [first]][name := [joined]] == map[name := [joined]];
  }

  lemma WriteListOfTwo(list: string, a: string, b: string)
    requires Split(list, ',') == [a, b]
    ensures WriteLists(map[], [list]) == Write(Write(map[], a), b)
  {
    assert [list][..0] == [] && [a, b][..1] == [a] && [a][..0] == [];
    assert WriteAll(map[], [a]) == Write(map[], a);
  }

  /** A name requested twice gets one value, the two joined by a comma. */
  lemma RepeatedNameJoins(name: string, first: string, second: string)
    requires Plain(name, first) && Plain(name, second)
    ensures WriteLists(map[], [Join([Print(name, first), Print(name, second)], ',')]) == map[name := [first + "," + TrimSpace(second)]]
  {
    var a, b := Print(name, first), Print(name, second);
    ParsePrinted(name, first);
    ParsePrinted(name, second);
    SplitOfJoin([a, b], ',');
    WriteListOfTwo(Join([a, b], ','), a, b);
    WriteTwice(name, first, second);
  }

  /** What goes over the wire for two headers. */
  lemma WireText()
    ensures Join(Entries(map["a" := "1", "b" := "2"], ["a", "b"]), ',') == "a:1,b:2"
  {
    var entries := Entries(map["a" := "1", "b" := "2"], ["a", "b"]);
    assert Print("a", "1") == "a:1" && Print("b", "2") == "b:2";
    assert entries == ["a:1", "b:2"];
    assert entries[1..] == ["b:2"];
  }
}
