/** The rewrite of a CRD schema for one release channel. Models pkg/generator/main.go. */
module Generator {
  import opened Wrappers
  import opened Blocks
  import opened Tags
  import opened ValidationTags
  import Text

  datatype Rule = Rule(message: string, rule: string)

  /** The parts of an OpenAPI schema the generator reads or writes. */
  datatype Schema = Schema(
    description: string, format: string, typ: string,
    enum: seq<string>, validations: seq<Rule>,
    oneOf: seq<Schema>, anyOf: seq<Schema>, not: Option<Schema>,
    properties: map<string, Schema>, items: Items)

  /** Absent, given as a list of schemas, or given as one schema. */
  datatype Items = NoItems | ItemsList | ItemsSchema(schema: Schema)

  const EMPTY := Schema("", "", "", [], [], [], [], None, map[], NoItems)

  const IP_ADDRESS_FORMS := [
    EMPTY.(properties := map[
      "type" := EMPTY.(enum := ["\"IPAddress\""]),
      "value" := EMPTY.(anyOf := [EMPTY.(format := "ipv4"), EMPTY.(format := "ipv6")])]),
    EMPTY.(properties := map["type" := EMPTY.(not := Some(EMPTY.(enum := ["\"IPAddress\""])))])]

  const EXPERIMENTAL := "<gateway:experimental>"
  const IP_TAG := "<gateway:validateIPAddress>"
  const BLOCK_START := "<gateway:experimental:description>"
  const BLOCK_END := "</gateway:experimental:description>"
  const MATCH_LIMIT := 64

  // ----- One schema -----

  function Quoted(values: string): seq<string>
  {
    var parts := Text.Split(values, ';');
    seq(|parts|, i requires 0 <= i < |parts| => "\"" + parts[i] + "\"")
  }

  function RulesOf(ms: seq<Match>): seq<Rule>
  {
    if ms == [] then [] else RulesOf(ms[..|ms| - 1]) + [Rule(ms[|ms| - 1].group1, ms[|ms| - 1].group2)]
  }

  /** The description for a channel; nothing when a block of experimental text is not closed. */
  function Described(channel: string, description: string): Option<string>
  {
    if channel == "standard" && Contains(description, BLOCK_START) then
      if FindBlock(description, BLOCK_START, BLOCK_END).None? then None else Some(Scrub(RemoveBlocks(description, BLOCK_START, BLOCK_END)))
    else
      Some(Scrub(RemoveAll(RemoveAll(description, BLOCK_START), BLOCK_END)))
  }

  predicate Dropped(channel: string, s: Schema)
  {
    channel == "standard" && Contains(s.description, EXPERIMENTAL)
  }

  /** A nil dereference in the source. */
  predicate Panics(s: Schema)
  {
    Contains(s.description, IP_TAG) && !s.items.ItemsSchema?
  }

  /** The last enumeration tag decides. */
  function LastEnum(enums: seq<Match>, given: seq<string>): seq<string>
  {
    if enums == [] then given else Quoted(enums[|enums| - 1].group1)
  }

  /** The enumeration, rules and number of valid tags a description contributes. */
  function Collected(channel: string, s: Schema): (seq<string>, seq<Rule>, nat)
  {
    var prefix := Prefix(channel);
    CollectedFrom(s, |Occurrences(s.description, prefix)|,
                  TagsOf(EnumForm, prefix, s.description, MATCH_LIMIT), TagsOf(CelForm, prefix, s.description, MATCH_LIMIT))
  }

  function CollectedFrom(s: Schema, count: nat, enums: seq<Match>, cels: seq<Match>): (seq<string>, seq<Rule>, nat)
  {
    if count == 0 then (s.enum, s.validations, 0)
    else (LastEnum(enums, s.enum), s.validations + RulesOf(cels), |enums| + |cels|)
  }

  /** Everything but the children of a schema that is kept; nothing when the run is aborted. */
  function Head(channel: string, s: Schema): Option<Schema>
    requires !Panics(s)
  {
    var withForms := if Contains(s.description, IP_TAG) then s.(items := ItemsSchema(s.items.schema.(oneOf := IP_ADDRESS_FORMS))) else s;
    var typ := if s.format == "date-time" then "string" else s.typ;
    var (enum, validations, valid) := Collected(channel, s);
    if Described(channel, s.description).None? || valid < |Occurrences(s.description, Prefix(channel))| then None
    else Some(withForms.(typ := typ, enum := enum, validations := validations, description := Described(channel, s.description).value))
  }

  method CollectEnum(enums: seq<Match>, given: seq<string>) returns (enum: seq<string>, numValid: nat)
    ensures numValid == |enums| && enum == LastEnum(enums, given)
  {
    enum, numValid := given, 0;
    for i := 0 to |enums|
      invariant numValid == i && enum == LastEnum(enums[..i], given)
    {
      numValid := numValid + 1;
      enum := Quoted(enums[i].group1);
    }
    assert enums[..|enums|] == enums;
  }

  method CollectRules(cels: seq<Match>, given: seq<Rule>) returns (rules: seq<Rule>, numValid: nat)
    ensures numValid == |cels| && rules == given + RulesOf(cels)
  {
    rules, numValid := given, 0;
    for i := 0 to |cels|
      invariant numValid == i && rules == given + RulesOf(cels[..i])
    {
      numValid := numValid + 1;
      assert cels[..i + 1][..i] == cels[..i];
      rules := rules + [Rule(cels[i].group1, cels[i].group2)];
    }
    assert cels[..|cels|] == cels;
  }

  method Collect(s: Schema, count: nat, enums: seq<Match>, cels: seq<Match>) returns (enum: seq<string>, validations: seq<Rule>, numValid: nat)
    ensures (enum, validations, numValid) == CollectedFrom(s, count, enums, cels)
  {
    enum, validations, numValid := s.enum, s.validations, 0;
    if count > 0 {
      var validEnums, validRules: nat;
      enum, validEnums := CollectEnum(enums, s.enum);
      validations, validRules := CollectRules(cels, s.validations);
      numValid := validEnums + validRules;
    }
  }

  method Describe(channel: string, description: string) returns (r: Option<string>)
    ensures r == Described(channel, description)
  {
    var modified := description;
    if channel == "standard" && Contains(description, BLOCK_START) {
      if FindBlock(description, BLOCK_START, BLOCK_END).None? {
        return None;
      }
      modified := RemoveBlocks(modified, BLOCK_START, BLOCK_END);
    } else {
      modified := RemoveAll(modified, BLOCK_START);
      modified := RemoveAll(modified, BLOCK_END);
    }
    r := Some(Scrub(modified));
  }

  /** One schema apart from its children. It is refused exactly when its tags are not in order. */
  method TweakHead(channel: string, s: Schema) returns (r: Option<Schema>)
    requires !Panics(s)
    ensures r == Head(channel, s)
    ensures '<' !in channel ==> (r.Some? <==> InOrder(channel, s.description))
    ensures r.Some? ==> NoTag(r.value.description) && s.validations <= r.value.validations && r.value.properties == s.properties
  {
    HeadInOrderIff(channel, s);
    HeadIsClean(channel, s);
    var jsonProps := s;
    if Contains(s.description, IP_TAG) {
      jsonProps := jsonProps.(items := ItemsSchema(s.items.schema.(oneOf := IP_ADDRESS_FORMS)));
    }
    if jsonProps.format == "date-time" {
      jsonProps := jsonProps.(typ := "string");
    }
    var prefix := Prefix(channel);
    var count := |Occurrences(s.description, prefix)|;
    var enums, cels := TagsOf(EnumForm, prefix, s.description, MATCH_LIMIT), TagsOf(CelForm, prefix, s.description, MATCH_LIMIT);
    var enum, validations, numValid := Collect(s, count, enums, cels);
    jsonProps := jsonProps.(enum := enum, validations := validations);
    var description := Describe(channel, s.description);
    if description.None? || numValid < count {
      return None;
    }
    r := Some(jsonProps.(description := description.value));
  }

  // ----- When a schema is in order -----

  /** Every block of experimental text the standard channel meets can be closed, and the text is well
      tagged for the channel. */
  ghost predicate InOrder(channel: string, description: string)
  {
    && (channel == "standard" && Occurs(description, "<gateway:experimental:description>") ==>
          HasBlock(description, "<gateway:experimental:description>", "</gateway:experimental:description>"))
    && WellTagged("<gateway:" + channel + ":validation:", description, 64)
  }

  lemma DescribedIff(channel: string, description: string)
    ensures Described(channel, description).Some? <==>
            (channel == "standard" && Occurs(description, "<gateway:experimental:description>") ==>
               HasBlock(description, "<gateway:experimental:description>", "</gateway:experimental:description>"))
    ensures Described(channel, description).Some? ==> NoTag(Described(channel, description).value)
  {
    ContainsIff(description, BLOCK_START);
    FindBlockIff(description, BLOCK_START, BLOCK_END);
    ScrubLeavesNoTag(RemoveBlocks(description, BLOCK_START, BLOCK_END));
    ScrubLeavesNoTag(RemoveAll(RemoveAll(description, BLOCK_START), BLOCK_END));
  }

  lemma HeadInOrderIff(channel: string, s: Schema)
    requires !Panics(s)
    ensures '<' !in channel ==> (Head(channel, s).Some? <==> InOrder(channel, s.description))
  {
    DescribedIff(channel, s.description);
    if '<' !in channel {
      AllTagsValid(channel, s.description, MATCH_LIMIT);
    }
  }

  lemma HeadIsClean(channel: string, s: Schema)
    requires !Panics(s)
    ensures Head(channel, s).Some? ==> NoTag(Head(channel, s).value.description)
  {
    DescribedIff(channel, s.description);
  }

  // ----- A whole tree -----

  datatype Outcome = Gone | Kept(schema: Schema) | Aborted

  /** What becomes of one property. */
  function Tweak(channel: string, s: Schema): Outcome
    decreases s, 1
  {
    if Panics(s) then Aborted
    else if Dropped(channel, s) then Gone
    else if Head(channel, s).None? then Aborted
    else
      var head := Head(channel, s).value;
      if |s.properties| > 0 then
        match TweakAll(channel, s)
        case None => Aborted
        case Some(props) => Kept(head.(properties := props))
      else if s.items.ItemsSchema? then
        match TweakAll(channel, s.items.schema)
        case None => Aborted
        case Some(props) => Kept(head.(items := ItemsSchema(head.items.schema.(properties := props))))
      else Kept(head)
  }

  /** What becomes of the properties of a schema. */
  function TweakAll(channel: string, owner: Schema): Option<map<string, Schema>>
    decreases owner, 0
  {
    if exists k | k in owner.properties :: Tweak(channel, owner.properties[k]).Aborted? then None
    else Some(map k | k in owner.properties && Tweak(channel, owner.properties[k]).Kept? :: Tweak(channel, owner.properties[k]).schema)
  }

  /** The recursive rewrite, for every order in which Go may range over the properties. `owner` is
      the schema whose properties are rewritten; the recursion goes down the schema tree. */
  method GatewayTweaks(channel: string, ghost owner: Schema, props: map<string, Schema>) returns (r: Option<map<string, Schema>>)
    requires props == owner.properties
    ensures r == TweakAll(channel, owner)
    decreases owner, 0
  {
    var result := props;
    var todo := props.Keys;
    while todo != {}
      invariant todo <= props.Keys && result.Keys <= props.Keys
      invariant forall k | k in props :: Progress(channel, props[k], k in todo, Lookup(result, k))
    {
      var name :| name in todo;
      assert Progress(channel, props[name], true, Lookup(result, name));
      var outcome := TweakProperty(channel, result[name]);
      match outcome {
        case Aborted => return None;
        case Gone => result := result - {name};
        case Kept(jsonProps) => result := result[name := jsonProps];
      }
      todo := todo - {name};
    }
    Finished(channel, owner, result);
    r := Some(result);
  }

  /** One round of the loop. */
  method TweakProperty(channel: string, jsonProps: Schema) returns (r: Outcome)
    ensures r == Tweak(channel, jsonProps)
    decreases jsonProps, 1
  {
    if Panics(jsonProps) {
      return Aborted;
    }
    if Dropped(channel, jsonProps) {
      return Gone;
    }
    var head := TweakHead(channel, jsonProps);
    if head.None? {
      return Aborted;
    }
    var tweaked := head.value;
    if |jsonProps.properties| > 0 {
      var inner := GatewayTweaks(channel, jsonProps, jsonProps.properties);
      if inner.None? {
        return Aborted;
      }
      tweaked := tweaked.(properties := inner.value);
    } else if jsonProps.items.ItemsSchema? {
      var inner := GatewayTweaks(channel, jsonProps.items.schema, jsonProps.items.schema.properties);
      if inner.None? {
        return Aborted;
      }
      tweaked := tweaked.(items := ItemsSchema(tweaked.items.schema.(properties := inner.value)));
    }
    r := Kept(tweaked);
  }

  function Lookup(m: map<string, Schema>, k: string): Option<Schema>
  {
    if k in m then Some(m[k]) else None
  }

  /** One property while the loop runs: untouched while it waits, its outcome afterwards. */
  predicate Progress(channel: string, s: Schema, waiting: bool, now: Option<Schema>)
  {
    if waiting then now == Some(s)
    else
      match Tweak(channel, s)
      case Gone => now == None
      case Kept(t) => now == Some(t)
      case Aborted => false
  }

  lemma Finished(channel: string, owner: Schema, result: map<string, Schema>)
    requires result.Keys <= owner.properties.Keys
    requires forall k | k in owner.properties :: Progress(channel, owner.properties[k], false, Lookup(result, k))
    ensures TweakAll(channel, owner) == Some(result)
  {
    assert forall k | k in owner.properties :: !Tweak(channel, owner.properties[k]).Aborted?;
    forall k ensures Lookup(TweakAll(channel, owner).value, k) == Lookup(result, k) {
      OutcomeOfName(channel, owner, k);
    }
    SameLookup(TweakAll(channel, owner).value, result);
  }

  lemma OutcomeOfName(channel: string, owner: Schema, k: string)
    requires TweakAll(channel, owner).Some?
    ensures Lookup(TweakAll(channel, owner).value, k) ==
            if k in owner.properties && Tweak(channel, owner.properties[k]).Kept?
            then Some(Tweak(channel, owner.properties[k]).schema) else None
    ensures k in owner.properties ==> !Tweak(channel, owner.properties[k]).Aborted?
  {
  }

  lemma SameLookup(a: map<string, Schema>, b: map<string, Schema>)
    requires forall k :: Lookup(a, k) == Lookup(b, k)
    ensures a == b
  {
    assert forall k | k in a :: Lookup(b, k) == Some(a[k]);
    assert forall k | k in b :: Lookup(a, k) == Some(b[k]);
  }

  // ----- Which names and paths survive -----

  /** At every rewritten map a name stays exactly when its schema is not dropped from the channel. */
  lemma NamesKept(channel: string, owner: Schema)
    requires TweakAll(channel, owner).Some?
    ensures TweakAll(channel, owner).value.Keys ==
            set k | k in owner.properties && !(channel == "standard" && Occurs(owner.properties[k].description, "<gateway:experimental>"))
  {
    forall k | k in owner.properties
      ensures k in TweakAll(channel, owner).value <==>
              !(channel == "standard" && Occurs(owner.properties[k].description, "<gateway:experimental>"))
    {
      ContainsIff(owner.properties[k].description, EXPERIMENTAL);
    }
  }

  /** A step from a schema to one of its named properties or to its items. */
  datatype Step = Field(name: string) | Item

  predicate HasPath(s: Schema, path: seq<Step>)
    decreases |path|
  {
    path == [] ||
    match path[0]
    case Field(name) => name in s.properties && HasPath(s.properties[name], path[1..])
    case Item => s.items.ItemsSchema? && HasPath(s.items.schema, path[1..])
  }

  /** The path runs into a dropped property among those the rewrite visits. Items are visited only
      below a schema without properties, and of an item only the properties are. */
  predicate MeetsDropped(channel: string, s: Schema, path: seq<Step>)
    decreases |path|, 1
  {
    path != [] &&
    match path[0]
    case Field(_) => MeetsDroppedIn(channel, s, path)
    case Item => |s.properties| == 0 && s.items.ItemsSchema? && MeetsDroppedIn(channel, s.items.schema, path[1..])
  }

  predicate MeetsDroppedIn(channel: string, owner: Schema, path: seq<Step>)
    decreases |path|, 0
  {
    path != [] && path[0].Field? && path[0].name in owner.properties &&
    var s := owner.properties[path[0].name];
    Dropped(channel, s) || MeetsDropped(channel, s, path[1..])
  }

  /** The paths below a rewritten property are the original ones that meet nothing dropped. */
  lemma {:induction false} PathsKept(channel: string, s: Schema, path: seq<Step>)
    requires Tweak(channel, s).Kept?
    ensures HasPath(Tweak(channel, s).schema, path) <==> HasPath(s, path) && !MeetsDropped(channel, s, path)
    decreases |path|, 1
  {
    if path != [] {
      var t := Tweak(channel, s).schema;
      if |s.properties| > 0 {
        if path[0].Field? {
          PathsKeptIn(channel, s, t, path);
        }
      } else {
        if path[0].Item? && s.items.ItemsSchema? {
          if path[1..] != [] {
            if path[1].Field? {
              PathsKeptIn(channel, s.items.schema, t.items.schema, path[1..]);
            }
          }
        }
      }
    }
  }

  lemma {:induction false} PathsKeptIn(channel: string, owner: Schema, result: Schema, path: seq<Step>)
    requires TweakAll(channel, owner) == Some(result.properties)
    requires path != [] && path[0].Field?
    ensures HasPath(result, path) <==> HasPath(owner, path) && !MeetsDroppedIn(channel, owner, path)
    decreases |path|, 0
  {
    var name := path[0].name;
    OutcomeOfName(channel, owner, name);
    if name in owner.properties && Tweak(channel, owner.properties[name]).Kept? {
      assert Lookup(result.properties, name) == Some(Tweak(channel, owner.properties[name]).schema);
      PathsKept(channel, owner.properties[name], path[1..]);
    }
  }

  lemma {:induction false} OnlyStandardDrops(channel: string, s: Schema, path: seq<Step>)
    requires channel != "standard"
    ensures !MeetsDropped(channel, s, path) && !MeetsDroppedIn(channel, s, path)
    decreases |path|
  {
    if path != [] {
      match path[0]
      case Field(name) => if name in s.properties { OnlyStandardDrops(channel, s.properties[name], path[1..]); }
      case Item => if s.items.ItemsSchema? { OnlyStandardDrops(channel, s.items.schema, path[1..]); }
    }
  }

  /** The whole schema of one version after the rewrite. */
  function Generated(channel: string, root: Schema): Schema
    requires TweakAll(channel, root).Some?
  {
    root.(properties := TweakAll(channel, root).value)
  }

  lemma OnlyPropertiesGenerated(channel: string, root: Schema)
    requires TweakAll(channel, root).Some?
    ensures Generated(channel, root).(properties := root.properties) == root
    ensures Generated(channel, root).properties == TweakAll(channel, root).value
  {
  }

  /** The experimental channel has every field of the source. The standard channel has exactly those
      that meet no experimental field on the way, so each of its fields is in the experimental channel. */
  lemma StandardWithinExperimental(root: Schema, path: seq<Step>)
    requires TweakAll("standard", root).Some? && TweakAll("experimental", root).Some?
    requires path != [] && path[0].Field?
    ensures HasPath(Generated("experimental", root), path) <==> HasPath(root, path)
    ensures HasPath(Generated("standard", root), path) <==>
            HasPath(Generated("experimental", root), path) && !MeetsDroppedIn("standard", root, path)
  {
    PathsKeptIn("standard", root, Generated("standard", root), path);
    PathsKeptIn("experimental", root, Generated("experimental", root), path);
    OnlyStandardDrops("experimental", root, path);
  }

  // ----- What is left in descriptions -----

  /** No tag is left in the description of a rewritten property or of any property the rewrite visited below it. */
  ghost predicate Clean(original: Schema, result: Schema)
    decreases original, 1
  {
    && NoTag(result.description)
    && (if |original.properties| > 0 then CleanProperties(original, result)
        else original.items.ItemsSchema? ==>
          result.items.ItemsSchema? && CleanProperties(original.items.schema, result.items.schema))
  }

  ghost predicate CleanProperties(original: Schema, result: Schema)
    decreases original, 0
  {
    forall k | k in result.properties :: k in original.properties && Clean(original.properties[k], result.properties[k])
  }

  lemma {:induction false} TweakedIsClean(channel: string, s: Schema)
    requires Tweak(channel, s).Kept?
    ensures Clean(s, Tweak(channel, s).schema)
    decreases s, 1
  {
    HeadIsClean(channel, s);
    if |s.properties| > 0 {
      TweakedPropertiesAreClean(channel, s, Tweak(channel, s).schema);
    } else if s.items.ItemsSchema? {
      TweakedPropertiesAreClean(channel, s.items.schema, Tweak(channel, s).schema.items.schema);
    }
  }

  lemma {:induction false} TweakedPropertiesAreClean(channel: string, owner: Schema, result: Schema)
    requires TweakAll(channel, owner) == Some(result.properties)
    ensures CleanProperties(owner, result)
    decreases owner, 0
  {
    forall k | k in result.properties ensures k in owner.properties && Clean(owner.properties[k], result.properties[k]) {
      OutcomeOfName(channel, owner, k);
      assert Lookup(result.properties, k).Some?;
      TweakedIsClean(channel, owner.properties[k]);
    }
  }

  /** A kept property is its head with rewritten children. */
  lemma KeptHead(channel: string, s: Schema)
    requires Tweak(channel, s).Kept?
    ensures !Panics(s) && Head(channel, s).Some?
    ensures var t, h := Tweak(channel, s).schema, Head(channel, s).value;
            && t.(properties := h.properties, items := h.items) == h
            && (t.items.ItemsSchema? <==> h.items.ItemsSchema?) && (!t.items.ItemsSchema? ==> t.items == s.items)
            && (t.items.ItemsSchema? ==> t.items.schema.oneOf == h.items.schema.oneOf)
  {
  }

  /** A kept property had only well-formed validation tags for its channel. */
  lemma KeptTagsWereValid(channel: string, s: Schema)
    requires '<' !in channel && Tweak(channel, s).Kept?
    ensures InOrder(channel, s.description)
    ensures forall i: nat | At(s.description, i, Prefix(channel)) :: BeginsTag(Prefix(channel), s.description, i)
  {
    KeptHead(channel, s);
    HeadInOrderIff(channel, s);
  }

  // ----- What the validation tags do -----

  lemma CollectedByKept(channel: string, s: Schema)
    requires '<' !in channel && Tweak(channel, s).Kept?
    ensures WellTagged(Prefix(channel), s.description, MATCH_LIMIT)
    ensures var t, d := Tweak(channel, s).schema, s.description;
            && t.enum == LastEnum(TagsOf(EnumForm, Prefix(channel), d, MATCH_LIMIT), s.enum)
            && t.validations == s.validations + RulesOf(TagsOf(CelForm, Prefix(channel), d, MATCH_LIMIT))
  {
    KeptHead(channel, s);
    HeadInOrderIff(channel, s);
    AllTagsValid(channel, s.description, MATCH_LIMIT);
  }

  /** Values in quotes, in order. */
  function InQuotes(parts: seq<string>): (r: seq<string>)
    ensures |r| == |parts|
  {
    seq(|parts|, i requires 0 <= i < |parts| => ['"'] + parts[i] + ['"'])
  }

  lemma QuotedParts(parts: seq<string>)
    requires parts != [] && forall i | 0 <= i < |parts| :: ';' !in parts[i]
    ensures Quoted(Text.Join(parts, ';')) == InQuotes(parts)
  {
    Text.SplitOfJoin(parts, ';');
  }

  lemma {:induction false} RulesInOrder(ms: seq<Match>)
    ensures |RulesOf(ms)| == |ms| && forall k | 0 <= k < |ms| :: RulesOf(ms)[k] == Rule(ms[k].group1, ms[k].group2)
  {
    if ms != [] {
      RulesInOrder(ms[..|ms| - 1]);
    }
  }

  /** All places of a text at which a tag of one form is read, from the left. */
  ghost predicate AllTagsAt(places: seq<nat>, form: Form, prefix: string, s: string)
  {
    Increasing(places) && forall i: nat :: i in places <==> MatchAt(form, prefix, s, i).Some?
  }

  lemma TagPlaces(form: Form, prefix: string, s: string, limit: nat) returns (places: seq<nat>)
    requires Separate(form, prefix, s, limit)
    ensures AllTagsAt(places, form, prefix, s) && |places| == |TagsOf(form, prefix, s, limit)|
    ensures forall k | 0 <= k < |places| :: Some(TagsOf(form, prefix, s, limit)[k]) == MatchAt(form, prefix, s, places[k])
  {
    var ms := TagsOf(form, prefix, s, limit);
    places := Starts(ms);
    TagsFoundIff(form, prefix, s, limit);
    FoundInOrder(Tagged(form, prefix, s), |s|, 0, limit);
    FoundApart(Tagged(form, prefix, s), |s|, 0, limit);
    forall k | 0 <= k < |places| ensures Some(ms[k]) == MatchAt(form, prefix, s, places[k]) {
      assert ms[k] in ms;
    }
  }

  /** What the tags of a kept property do, for every description: its enumeration is that of its last
      enumeration tag, or the old one if it has none, and its rules are the old ones followed by those of
      all its rule tags in order. */
  lemma TagsTakeEffect(channel: string, s: Schema) returns (enums: seq<nat>, rules: seq<nat>)
    requires '<' !in channel && Tweak(channel, s).Kept?
    ensures AllTagsAt(enums, EnumForm, Prefix(channel), s.description) && AllTagsAt(rules, CelForm, Prefix(channel), s.description)
    ensures TookEffect(channel, s, Tweak(channel, s).schema, enums, rules)
  {
    CollectedByKept(channel, s);
    enums := TagPlaces(EnumForm, Prefix(channel), s.description, MATCH_LIMIT);
    rules := TagPlaces(CelForm, Prefix(channel), s.description, MATCH_LIMIT);
    CollectedTookEffect(channel, s, Tweak(channel, s).schema, enums, rules, TagsOf(EnumForm, Prefix(channel), s.description, MATCH_LIMIT),
                        TagsOf(CelForm, Prefix(channel), s.description, MATCH_LIMIT));
  }

  /** The last of these enumeration tags and all of these rule tags, in order. */
  ghost predicate TookEffect(channel: string, s: Schema, t: Schema, enums: seq<nat>, rules: seq<nat>)
  {
    && t.enum == (if enums == [] then s.enum else Quoted(GroupsAt(EnumForm, channel, s.description, enums[|enums| - 1]).0))
    && |t.validations| == |s.validations| + |rules| && t.validations[..|s.validations|] == s.validations
    && forall k | 0 <= k < |rules| :: t.validations[|s.validations| + k] == RuleAt(channel, s.description, rules[k])
  }

  lemma CollectedTookEffect(channel: string, s: Schema, t: Schema, enums: seq<nat>, rules: seq<nat>, enumTags: seq<Match>, ruleTags: seq<Match>)
    requires t.enum == LastEnum(enumTags, s.enum) && |enums| == |enumTags|
    requires forall k | 0 <= k < |enums| :: Some(enumTags[k]) == MatchAt(EnumForm, Prefix(channel), s.description, enums[k])
    requires t.validations == s.validations + RulesOf(ruleTags) && |rules| == |ruleTags|
    requires forall k | 0 <= k < |rules| :: Some(ruleTags[k]) == MatchAt(CelForm, Prefix(channel), s.description, rules[k])
    ensures TookEffect(channel, s, t, enums, rules)
  {
    LastEnumAt(channel, s.description, enums, enumTags, s.enum);
    RulesAt(channel, s.description, rules, ruleTags, s.validations);
  }

  lemma LastEnumAt(channel: string, d: string, places: seq<nat>, ms: seq<Match>, given: seq<string>)
    requires |places| == |ms| && forall k | 0 <= k < |places| :: Some(ms[k]) == MatchAt(EnumForm, Prefix(channel), d, places[k])
    ensures LastEnum(ms, given) == if places == [] then given else Quoted(GroupsAt(EnumForm, channel, d, places[|places| - 1]).0)
  {
    if places != [] {
      assert Some(ms[|ms| - 1]) == MatchAt(EnumForm, Prefix(channel), d, places[|places| - 1]);
    }
  }

  lemma RulesAt(channel: string, d: string, places: seq<nat>, ms: seq<Match>, given: seq<Rule>)
    requires |places| == |ms| && forall k | 0 <= k < |places| :: Some(ms[k]) == MatchAt(CelForm, Prefix(channel), d, places[k])
    ensures var all := given + RulesOf(ms);
            && |all| == |given| + |places| && all[..|given|] == given
            && forall k | 0 <= k < |places| :: all[|given| + k] == RuleAt(channel, d, places[k])
  {
    RulesInOrder(ms);
    forall k | 0 <= k < |places| ensures RulesOf(ms)[k] == RuleAt(channel, d, places[k]) {
      assert Some(ms[k]) == MatchAt(CelForm, Prefix(channel), d, places[k]);
    }
  }

  /** The groups of the tag at a place. */
  function GroupsAt(form: Form, channel: string, d: string, i: nat): (string, string)
  {
    match MatchAt(form, Prefix(channel), d, i)
    case Some(m) => (m.group1, m.group2)
    case None => ("", "")
  }

  function RuleAt(channel: string, d: string, i: nat): Rule
  {
    var (message, rule) := GroupsAt(CelForm, channel, d, i);
    Rule(message, rule)
  }

  /** The values of the last enumeration tag become the enumeration of a kept property. */
  lemma LastEnumTagDecides(channel: string, s: Schema, a: string, parts: seq<string>, b: string)
    requires '<' !in channel && Tweak(channel, s).Kept? && parts != [] && Letters(Text.Join(parts, ';'))
    requires forall i | 0 <= i < |parts| :: ';' !in parts[i]
    requires s.description == a + ("<gateway:" + channel + ":validation:" + "Enum=") + Text.Join(parts, ';') + (">" + b)
    requires forall i: nat | i > |a| :: MatchAt(EnumForm, Prefix(channel), s.description, i).None?
    ensures Tweak(channel, s).schema.enum == InQuotes(parts)
  {
    TagTexts(channel);
    QuotedParts(parts);
    LastEnumRead(channel, s, a, Text.Join(parts, ';'), b);
  }

  lemma LastEnumRead(channel: string, s: Schema, a: string, values: string, b: string)
    requires '<' !in channel && Tweak(channel, s).Kept? && Letters(values)
    requires s.description == a + Opening(EnumForm, Prefix(channel)) + values + (">" + b)
    requires forall i: nat | i > |a| :: MatchAt(EnumForm, Prefix(channel), s.description, i).None?
    ensures Tweak(channel, s).schema.enum == Quoted(values)
  {
    CollectedByKept(channel, s);
    LastEnumOf(Prefix(channel), s.description, a, values, b, s.enum);
  }

  lemma LastEnumOf(prefix: string, d: string, a: string, values: string, b: string, given: seq<string>)
    requires Separate(EnumForm, prefix, d, MATCH_LIMIT) && Letters(values)
    requires d == a + Opening(EnumForm, prefix) + values + (">" + b)
    requires forall i: nat | i > |a| :: MatchAt(EnumForm, prefix, d, i).None?
    ensures LastEnum(TagsOf(EnumForm, prefix, d, MATCH_LIMIT), given) == Quoted(values)
  {
    EnumReadAt(prefix, d, a, values, b);
    LastFound(prefix, d, |a|, given);
  }

  lemma EnumReadAt(prefix: string, d: string, a: string, values: string, b: string)
    requires Letters(values) && d == a + Opening(EnumForm, prefix) + values + (">" + b)
    ensures MatchAt(EnumForm, prefix, d, |a|) == Some(Match(|a|, |d| - |b|, values, ""))
  {
    EnumTagRead(prefix, a, values, b);
  }

  lemma LastFound(prefix: string, d: string, i: nat, given: seq<string>)
    requires Separate(EnumForm, prefix, d, MATCH_LIMIT) && MatchAt(EnumForm, prefix, d, i).Some?
    requires forall j: nat | j > i :: MatchAt(EnumForm, prefix, d, j).None?
    ensures LastEnum(TagsOf(EnumForm, prefix, d, MATCH_LIMIT), given) == Quoted(MatchAt(EnumForm, prefix, d, i).value.group1)
  {
    var k := TagFound(EnumForm, prefix, d, MATCH_LIMIT, i);
  }

  /** Every rule tag of a kept property adds its rule. */
  lemma EveryRuleTagAdds(channel: string, s: Schema, a: string, message: string, rule: string, b: string)
    requires '<' !in channel && Tweak(channel, s).Kept? && '"' !in message && '"' !in rule
    requires s.description == a + ("<gateway:" + channel + ":validation:" + "XValidation:message=\"") + message + ("\",rule=\"" + rule + ("\">" + b))
    ensures Rule(message, rule) in Tweak(channel, s).schema.validations
  {
    CollectedByKept(channel, s);
    TagTexts(channel);
    CelTagRead(Prefix(channel), a, message, rule, b);
    var k := TagFound(CelForm, Prefix(channel), s.description, MATCH_LIMIT, |a|);
    RulesInOrder(TagsOf(CelForm, Prefix(channel), s.description, MATCH_LIMIT));
  }

  /** Apart from its description and children, a kept property changes only where its format or its
      tags ask for it, and no rule it had is lost. */
  lemma KeptOtherwiseUnchanged(channel: string, s: Schema)
    requires Tweak(channel, s).Kept?
    ensures var t := Tweak(channel, s).schema;
            && t.format == s.format && t.oneOf == s.oneOf && t.anyOf == s.anyOf && t.not == s.not
            && t.typ == (if s.format == "date-time" then "string" else s.typ)
            && s.validations <= t.validations
            && (Occurrences(s.description, Prefix(channel)) == [] ==> t.enum == s.enum && t.validations == s.validations)
            && (s.items.ItemsSchema? ==>
                  t.items.ItemsSchema? &&
                  t.items.schema.oneOf == if Contains(s.description, IP_TAG) then IP_ADDRESS_FORMS else s.items.schema.oneOf)
  {
  }

  // ----- What becomes of a description -----

  /** Without a tag and without the end of a block a description comes back as it is, in every channel;
      without the tags of a block it is just scrubbed. */
  lemma OrdinaryDescription(channel: string, d: string)
    requires Absent(d, "</gateway:experimental:description>")
    ensures Absent(d, "<gateway:experimental:description>") ==> Described(channel, d) == Some(Scrub(d))
    ensures NoTag(d) ==> Described(channel, d) == Some(d)
  {
    if NoTag(d) {
      NoTagNoStart(d);
      ScrubUntagged(d);
    }
    if Absent(d, BLOCK_START) {
      FindNothing(d, BLOCK_START, 0);
      RemoveNone(d, BLOCK_START);
      RemoveNone(d, BLOCK_END);
    }
  }

  lemma NoTagNoStart(d: string)
    requires NoTag(d)
    ensures Absent(d, "<gateway:experimental:description>")
  {
    forall i | 0 <= i <= |d| ensures !At(d, i, BLOCK_START) {
      if At(d, i, BLOCK_START) {
        StartIsTag(d, i);
        assert false;
      }
    }
  }

  lemma StartIsTag(d: string, i: nat)
    requires At(d, i, BLOCK_START)
    ensures IsTag(d, i, i + |BLOCK_START|)
  {
    assert BLOCK_START[..9] == OPEN && d[i..i + 9] == d[i..i + |BLOCK_START|][..9];
    assert d[i + |BLOCK_START| - 1] == BLOCK_START[|BLOCK_START| - 1];
    assert '\n' !in BLOCK_START;
  }

  /** The standard description of any text with blocks is what stands outside them, scrubbed. */
  lemma StandardDescription(parts: seq<(string, string)>, tail: string)
    requires parts != [] && WellBlocked(parts, "<gateway:experimental:description>", "</gateway:experimental:description>")
    requires !HasBlock(tail, "<gateway:experimental:description>", "</gateway:experimental:description>")
    ensures var d := Blocked(parts, "<gateway:experimental:description>", "</gateway:experimental:description>", tail);
            Described("standard", d) == Some(Scrub(Outside(parts) + tail))
  {
    BlockTags();
    var (a, inner) := parts[0];
    var more := Blocked(parts[1..], BLOCK_START, BLOCK_END, tail);
    BlockFound(Block(a, BLOCK_START, inner, BLOCK_END, more), a, BLOCK_START, inner, BLOCK_END, more);
    RemoveBlocksOf(parts, BLOCK_START, BLOCK_END, tail);
  }

  /** In any other channel, and in the standard one where no block is opened, the tags of blocks go and
      everything between them stays. */
  lemma OpenedDescription(channel: string, chunks: seq<string>, more: seq<string>)
    requires chunks != [] && AllAbsent(chunks, "<gateway:experimental:description>") && (channel == "standard" ==> |chunks| == 1)
    requires more != [] && AllAbsent(more, "</gateway:experimental:description>")
    requires Concat(chunks) == Interleaved(more, "</gateway:experimental:description>")
    ensures Described(channel, Interleaved(chunks, "<gateway:experimental:description>")) == Some(Scrub(Concat(more)))
  {
    BlockTags();
    RemoveAllOf(chunks, BLOCK_START);
    RemoveAllOf(more, BLOCK_END);
    if channel == "standard" {
      FindNothing(chunks[0], BLOCK_START, 0);
    }
  }

  // ----- Blocks of experimental text -----

  lemma BlockTags()
    ensures TagLike(BLOCK_START) && TagLike(BLOCK_END)
  {
  }

  /** In the standard channel a block of experimental text goes, tags and all. */
  lemma StandardDropsBlock(a: string, inner: string, b: string)
    requires Absent(a, BLOCK_START) && Absent(inner, BLOCK_END)
    ensures Described("standard", Block(a, BLOCK_START, inner, BLOCK_END, b)) ==
            Some(Scrub(a + RemoveBlocks(b, BLOCK_START, BLOCK_END)))
  {
    BlockTags();
    BlockFound(Block(a, BLOCK_START, inner, BLOCK_END, b), a, BLOCK_START, inner, BLOCK_END, b);
    BlockDropped(a, BLOCK_START, inner, BLOCK_END, b);
  }

  /** Any other channel keeps the text of the block and loses just its tags. */
  lemma ExperimentalKeepsBlock(a: string, inner: string, b: string)
    requires Absent(a, BLOCK_START) && Absent(inner + (BLOCK_END + b), BLOCK_START)
    requires Absent(a + inner, BLOCK_END) && Absent(b, BLOCK_END)
    ensures Described("experimental", Block(a, BLOCK_START, inner, BLOCK_END, b)) == Some(Scrub(a + inner + b))
  {
    BlockTags();
    BlockOpened(a, BLOCK_START, inner, BLOCK_END, b);
  }
}
