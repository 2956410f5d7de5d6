/** Which descriptions of a generated schema are rewritten, and when tags are left in a generated
    tree. Models how far the recursion of pkg/generator/main.go reaches. */
module Descriptions {
  import opened Wrappers
  import opened Tags
  import opened Generator

  function SchemaAt(s: Schema, path: seq<Step>): Schema
    requires HasPath(s, path)
    decreases |path|
  {
    if path == [] then s
    else
      match path[0]
      case Field(name) => SchemaAt(s.properties[name], path[1..])
      case Item => SchemaAt(s.items.schema, path[1..])
  }

  /** The recursion that starts at the property `s` comes to the schema at the path. It ends at a
      dropped property, enters items only below a schema without properties, and rewrites of an item
      only the properties. */
  predicate Visited(channel: string, s: Schema, path: seq<Step>)
    decreases |path|, 1
  {
    path == [] ||
    (!Dropped(channel, s) &&
     match path[0]
     case Field(_) => VisitedIn(channel, s, path)
     case Item => |s.properties| == 0 && s.items.ItemsSchema? && VisitedIn(channel, s.items.schema, path[1..]))
  }

  predicate VisitedIn(channel: string, owner: Schema, path: seq<Step>)
    decreases |path|, 0
  {
    path != [] && path[0].Field? && path[0].name in owner.properties &&
    Visited(channel, owner.properties[path[0].name], path[1..])
  }

  /** What the rewrite makes of the description at a path: the channel's version of it where it
      comes, the source's own elsewhere. */
  predicate Rewritten(channel: string, visited: bool, source: string, result: string)
  {
    if visited then Described(channel, source) == Some(result) else result == source
  }

  lemma {:induction false} OneOfIrrelevant(a: Schema, b: Schema, path: seq<Step>)
    requires a.(oneOf := b.oneOf) == b && HasPath(b, path)
    ensures HasPath(a, path) && SchemaAt(a, path).description == SchemaAt(b, path).description
  {
  }

  /** The item schema of a rewritten property keeps its description and its own items. Below a schema
      with properties it is kept as it is, apart from the forms an IP address tag puts in. */
  predicate ItemsRelated(channel: string, s: Schema, t: Schema)
  {
    !Dropped(channel, s) && s.items.ItemsSchema? && t.items.ItemsSchema? &&
    var source, result := s.items.schema, t.items.schema;
    && source.(oneOf := result.oneOf, properties := result.properties) == result
    && result.oneOf == (if Contains(s.description, IP_TAG) then IP_ADDRESS_FORMS else source.oneOf)
    && if |s.properties| > 0 then result.properties == source.properties else TweakAll(channel, source) == Some(result.properties)
  }

  lemma ItemsKept(channel: string, s: Schema)
    requires Tweak(channel, s).Kept? && s.items.ItemsSchema?
    ensures ItemsRelated(channel, s, Tweak(channel, s).schema)
  {
  }

  lemma PropertiesKept(channel: string, s: Schema)
    requires Tweak(channel, s).Kept?
    ensures !Dropped(channel, s)
    ensures if |s.properties| > 0 then TweakAll(channel, s) == Some(Tweak(channel, s).schema.properties)
            else Tweak(channel, s).schema.properties == map[]
    ensures Described(channel, s.description) == Some(Tweak(channel, s).schema.description)
    ensures Tweak(channel, s).schema.items.ItemsSchema? ==> s.items.ItemsSchema?
  {
  }

  /** Every description below a rewritten property. */
  lemma {:induction false} DescriptionsBelow(channel: string, s: Schema, path: seq<Step>)
    requires Tweak(channel, s).Kept? && HasPath(Tweak(channel, s).schema, path)
    ensures HasPath(s, path)
    ensures Rewritten(channel, Visited(channel, s, path), SchemaAt(s, path).description, SchemaAt(Tweak(channel, s).schema, path).description)
    decreases |path|, 1
  {
    var t := Tweak(channel, s).schema;
    PropertiesKept(channel, s);
    if path != [] {
      if path[0].Field? {
        DescriptionsIn(channel, s, t, path);
      } else {
        ItemsKept(channel, s);
        DescriptionsOfItem(channel, s, t, path);
      }
    }
  }

  lemma {:induction false} DescriptionsOfItem(channel: string, s: Schema, t: Schema, path: seq<Step>)
    requires ItemsRelated(channel, s, t) && path != [] && path[0].Item? && HasPath(t, path)
    ensures HasPath(s, path)
    ensures Rewritten(channel, Visited(channel, s, path), SchemaAt(s, path).description, SchemaAt(t, path).description)
    decreases |path|, 0
  {
    var rest := path[1..];
    assert Visited(channel, s, path) <==> |s.properties| == 0 && VisitedIn(channel, s.items.schema, rest);
    if |s.properties| > 0 {
      OneOfIrrelevant(s.items.schema, t.items.schema, rest);
    } else if rest != [] && rest[0].Field? {
      DescriptionsIn(channel, s.items.schema, t.items.schema, rest);
    } else if rest != [] {
      assert HasPath(s.items.schema, rest) && SchemaAt(s.items.schema, rest) == SchemaAt(t.items.schema, rest);
    }
  }

  lemma {:induction false} DescriptionsIn(channel: string, owner: Schema, result: Schema, path: seq<Step>)
    requires TweakAll(channel, owner) == Some(result.properties)
    requires path != [] && path[0].Field? && HasPath(result, path)
    ensures HasPath(owner, path)
    ensures Rewritten(channel, VisitedIn(channel, owner, path), SchemaAt(owner, path).description, SchemaAt(result, path).description)
    decreases |path|, 0
  {
    var name := path[0].name;
    OutcomeOfName(channel, owner, name);
    assert Lookup(result.properties, name).Some?;
    DescriptionsBelow(channel, owner.properties[name], path[1..]);
  }

  /** Every path of a generated schema, and the description there. */
  lemma GeneratedDescription(channel: string, root: Schema, path: seq<Step>)
    requires TweakAll(channel, root).Some?
    ensures HasPath(Generated(channel, root), path) <==> HasPath(root, path) && !MeetsDroppedIn(channel, root, path)
    ensures HasPath(Generated(channel, root), path) ==>
              Rewritten(channel, VisitedIn(channel, root, path), SchemaAt(root, path).description, SchemaAt(Generated(channel, root), path).description)
  {
    var result := Generated(channel, root);
    if path != [] && path[0].Field? {
      PathsKeptIn(channel, root, result, path);
      if HasPath(result, path) {
        DescriptionsIn(channel, root, result, path);
      }
    }
  }

  // ----- Tags left in the tree -----

  /** No description on a path of fields and items has a tag. */
  ghost predicate TagFree(s: Schema)
  {
    forall path | HasPath(s, path) :: NoTag(SchemaAt(s, path).description)
  }

  /** A description that stays in the channel and that the rewrite does not come to. */
  predicate Overlooked(channel: string, root: Schema, path: seq<Step>)
  {
    HasPath(root, path) && !MeetsDroppedIn(channel, root, path) && !VisitedIn(channel, root, path)
  }

  /** A generated tree is free of tags if and only if every overlooked description of the source is. */
  lemma TagFreeIff(channel: string, root: Schema)
    requires TweakAll(channel, root).Some?
    ensures TagFree(Generated(channel, root)) <==>
            forall path | Overlooked(channel, root, path) :: NoTag(SchemaAt(root, path).description)
  {
    var result := Generated(channel, root);
    forall path
      ensures Overlooked(channel, root, path) ==> HasPath(result, path) && SchemaAt(result, path).description == SchemaAt(root, path).description
      ensures HasPath(result, path) && !Overlooked(channel, root, path) ==> NoTag(SchemaAt(result, path).description)
    {
      GeneratedDescription(channel, root, path);
      if HasPath(result, path) && VisitedIn(channel, root, path) {
        DescribedIff(channel, SchemaAt(root, path).description);
      }
    }
  }

  const TAGGED_ITEM := EMPTY.(items := ItemsSchema(EMPTY.(description := "<gateway:x>")))
  const TAGGED_ITEM_ROOT := EMPTY.(properties := map["list" := TAGGED_ITEM])

  /** A list whose item has a tag in its own description keeps it, in every channel. */
  lemma TaggedItemStays(channel: string)
    ensures TweakAll(channel, TAGGED_ITEM_ROOT).Some? && !TagFree(Generated(channel, TAGGED_ITEM_ROOT))
  {
    var path := [Field("list"), Item];
    TaggedItemKept(channel);
    TaggedItemPath(channel, path);
    assert IsTag("<gateway:x>", 0, 11);
    OverlookedTagStays(channel, TAGGED_ITEM_ROOT, path);
  }

  lemma OverlookedTagStays(channel: string, root: Schema, path: seq<Step>)
    requires TweakAll(channel, root).Some? && Overlooked(channel, root, path) && !NoTag(SchemaAt(root, path).description)
    ensures !TagFree(Generated(channel, root))
  {
    TagFreeIff(channel, root);
  }

  lemma TaggedItemKept(channel: string)
    ensures Tweak(channel, TAGGED_ITEM).Kept? && !Dropped(channel, TAGGED_ITEM)
    ensures TweakAll(channel, TAGGED_ITEM_ROOT).Some?
  {
  }

  lemma TaggedItemPath(channel: string, path: seq<Step>)
    requires path == [Field("list"), Item] && !Dropped(channel, TAGGED_ITEM)
    ensures Overlooked(channel, TAGGED_ITEM_ROOT, path) && SchemaAt(TAGGED_ITEM_ROOT, path).description == "<gateway:x>"
  {
    assert path[1..] == [Item] && [Item][1..] == [];
    assert HasPath(TAGGED_ITEM, [Item]);
  }

  // ----- When the rewrite is aborted -----

  /** An IP address tag stands only where there is an item schema, and the description is in order
      unless the property is dropped. */
  ghost predicate Fits(channel: string, s: Schema)
  {
    && (Occurs(s.description, "<gateway:validateIPAddress>") ==> s.items.ItemsSchema?)
    && ((channel == "standard" && Occurs(s.description, "<gateway:experimental>")) || InOrder(channel, s.description))
  }

  lemma FitsIff(channel: string, s: Schema)
    ensures Fits(channel, s) <==> !Panics(s) && (Dropped(channel, s) || InOrder(channel, s.description))
  {
    ContainsIff(s.description, IP_TAG);
    ContainsIff(s.description, EXPERIMENTAL);
  }

  ghost predicate Misfit(channel: string, s: Schema, path: seq<Step>)
  {
    HasPath(s, path) && Visited(channel, s, path) && !Fits(channel, SchemaAt(s, path))
  }

  ghost predicate MisfitIn(channel: string, owner: Schema, path: seq<Step>)
  {
    HasPath(owner, path) && VisitedIn(channel, owner, path) && !Fits(channel, SchemaAt(owner, path))
  }

  lemma MisfitField(channel: string, owner: Schema, path: seq<Step>)
    requires path != [] && path[0].Field?
    ensures MisfitIn(channel, owner, path) <==>
            path[0].name in owner.properties && Misfit(channel, owner.properties[path[0].name], path[1..])
  {
  }

  lemma MisfitHere(channel: string, s: Schema, path: seq<Step>)
    requires Fits(channel, s) && !Dropped(channel, s)
    ensures Misfit(channel, s, path) <==> MisfitBelow(channel, s, path)
  {
  }

  /** Rewriting a property is aborted if and only if a visited schema does not fit. */
  lemma {:induction false} AbortsIff(channel: string, s: Schema)
    requires '<' !in channel
    ensures Tweak(channel, s).Aborted? <==> exists path :: Misfit(channel, s, path)
    decreases s, 1
  {
    FitsIff(channel, s);
    if !Fits(channel, s) {
      assert Misfit(channel, s, []);
      NoFit(channel, s);
    } else if !Dropped(channel, s) {
      forall path ensures Misfit(channel, s, path) <==> MisfitBelow(channel, s, path) {
        MisfitHere(channel, s, path);
      }
      HeadInOrderIff(channel, s);
      if |s.properties| > 0 {
        AllFitIff(channel, s);
      } else if s.items.ItemsSchema? {
        AllFitIff(channel, s.items.schema);
      }
      BelowAborts(channel, s);
    }
  }

  lemma NoFit(channel: string, s: Schema)
    requires '<' !in channel && !Fits(channel, s)
    ensures Tweak(channel, s).Aborted?
  {
    FitsIff(channel, s);
    if !Panics(s) {
      HeadInOrderIff(channel, s);
    }
  }

  ghost predicate MisfitBelow(channel: string, s: Schema, path: seq<Step>)
  {
    path != [] &&
    if path[0].Field? then MisfitIn(channel, s, path)
    else |s.properties| == 0 && s.items.ItemsSchema? && MisfitIn(channel, s.items.schema, path[1..])
  }

  lemma BelowAborts(channel: string, s: Schema)
    requires !Panics(s) && !Dropped(channel, s) && Head(channel, s).Some?
    requires |s.properties| > 0 ==> (TweakAll(channel, s).None? <==> exists path :: MisfitIn(channel, s, path))
    requires |s.properties| == 0 && s.items.ItemsSchema? ==>
               (TweakAll(channel, s.items.schema).None? <==> exists path :: MisfitIn(channel, s.items.schema, path))
    ensures Tweak(channel, s).Aborted? <==> exists path :: MisfitBelow(channel, s, path)
  {
    if |s.properties| > 0 {
      assert forall path | MisfitIn(channel, s, path) :: MisfitBelow(channel, s, path);
    } else if s.items.ItemsSchema? {
      forall path | MisfitIn(channel, s.items.schema, path) ensures MisfitBelow(channel, s, [Item] + path) {
        assert ([Item] + path)[1..] == path;
      }
    }
  }

  /** The rewrite of a whole tree succeeds if and only if every schema it visits fits. */
  lemma {:induction false} AllFitIff(channel: string, owner: Schema)
    requires '<' !in channel
    ensures TweakAll(channel, owner).None? <==> exists path :: MisfitIn(channel, owner, path)
    decreases owner, 0
  {
    if path: seq<Step> :| MisfitIn(channel, owner, path) {
      MisfitField(channel, owner, path);
      AbortsIff(channel, owner.properties[path[0].name]);
    }
    if TweakAll(channel, owner).None? {
      var k :| k in owner.properties && Tweak(channel, owner.properties[k]).Aborted?;
      AbortsIff(channel, owner.properties[k]);
      var path :| Misfit(channel, owner.properties[k], path);
      MisfitField(channel, owner, [Field(k)] + path);
      assert MisfitIn(channel, owner, [Field(k)] + path);
    }
  }
}
