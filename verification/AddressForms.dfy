/** What the two forms mean that pkg/generator/main.go puts into the items of an address list. */
module AddressForms {
  import opened Wrappers
  import opened Generator

  /** Which values are well-formed in which format. */
  type Formats = (string, string) -> bool

  /** A text satisfies the parts of a schema that the forms use. */
  predicate TextSatisfies(s: Schema, x: string, formats: Formats)
    decreases s
  {
    && (s.enum == [] || ['"'] + x + ['"'] in s.enum)
    && (s.format == "" || formats(s.format, x))
    && (s.anyOf == [] || exists i | 0 <= i < |s.anyOf| :: TextSatisfies(s.anyOf[i], x, formats))
    && (s.not.None? || !TextSatisfies(s.not.value, x, formats))
  }

  predicate Satisfies(s: Schema, fields: map<string, string>, formats: Formats)
  {
    forall k | k in s.properties && k in fields :: TextSatisfies(s.properties[k], fields[k], formats)
  }

  predicate ExactlyOne(forms: seq<Schema>, fields: map<string, string>, formats: Formats)
  {
    exists i | 0 <= i < |forms| ::
      Satisfies(forms[i], fields, formats) && forall j | 0 <= j < |forms| && j != i :: !Satisfies(forms[j], fields, formats)
  }

  /** An address satisfies exactly one of the forms if and only if, should it be an IP address, its value
      is an IPv4 or an IPv6 address. */
  lemma AddressesMean(typ: string, value: string, formats: Formats)
    ensures ExactlyOne(IP_ADDRESS_FORMS, map["type" := typ, "value" := value], formats) <==>
            (typ == "IPAddress" ==> formats("ipv4", value) || formats("ipv6", value))
  {
    var fields := map["type" := typ, "value" := value];
    FirstForm(typ, value, formats);
    SecondForm(typ, value, formats);
    assert |IP_ADDRESS_FORMS| == 2;
    assert Satisfies(IP_ADDRESS_FORMS[0], fields, formats) && Satisfies(IP_ADDRESS_FORMS[1], fields, formats) ==> false;
  }

  lemma Quotes(typ: string)
    ensures ['"'] + typ + ['"'] == "\"IPAddress\"" <==> typ == "IPAddress"
  {
    var q := ['"'] + typ + ['"'];
    assert "\"IPAddress\""[1..10] == "IPAddress" && q[1..|q| - 1] == typ;
  }

  lemma FirstForm(typ: string, value: string, formats: Formats)
    ensures Satisfies(IP_ADDRESS_FORMS[0], map["type" := typ, "value" := value], formats) <==>
            typ == "IPAddress" && (formats("ipv4", value) || formats("ipv6", value))
  {
    var form := IP_ADDRESS_FORMS[0];
    Quotes(typ);
    assert TextSatisfies(form.properties["type"], typ, formats) <==> typ == "IPAddress";
    var any := form.properties["value"];
    assert TextSatisfies(any.anyOf[0], value, formats) <==> formats("ipv4", value);
    assert TextSatisfies(any.anyOf[1], value, formats) <==> formats("ipv6", value);
    assert TextSatisfies(any, value, formats) <==> formats("ipv4", value) || formats("ipv6", value);
  }

  lemma SecondForm(typ: string, value: string, formats: Formats)
    ensures Satisfies(IP_ADDRESS_FORMS[1], map["type" := typ, "value" := value], formats) <==> typ != "IPAddress"
  {
    var form := IP_ADDRESS_FORMS[1];
    Quotes(typ);
    assert TextSatisfies(form.properties["type"].not.value, typ, formats) <==> typ == "IPAddress";
    assert TextSatisfies(form.properties["type"], typ, formats) <==> typ != "IPAddress";
  }
}
