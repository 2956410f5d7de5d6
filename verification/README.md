# Verified model of the Gateway API tooling

A Dafny model of the parts of the Gateway API repository that compute something intricate, with
proofs about them. It covers

- how `gwctl` computes the effective policy of a resource: JSON Merge Patch, conflict resolution by
  age and name, and overrides and defaults down a hierarchy (`JsonMerge`, `Policies`, `Hierarchy`,
  `PolicyMerger`, `SameLevel`, `RankScan`, `EffectivePolicies`, `LevelOrder`, `RankedLists`,
  `LevelInputs`, `AttachedPolicies`);
- how the CRD generator rewrites a schema tree for the standard and experimental channels (`Tags`,
  `Blocks`, `ValidationTags`, `Generator`, `Descriptions`, `AddressForms`);
- the conformance suite: feature selection, the gates of a test, concurrent runs and reports, and
  the counting of results (`Features`, `TestRun`, `SuiteLock`, `SuiteRuns`, `Reports`,
  `ReportBuilder`);
- smaller algorithms of the conformance tools: echo headers, convergence, listener comparison and
  definition names (`EchoHeaders`, `EchoSurvivors`, `EchoRoundTrip`, `Convergence`, `Listeners`,
  `FriendlyName`, over `Text` and `Sequences`).

`dafny verify dfyconfig.toml` checks everything.

## How the model is built

**Merging.** `JsonMerge.MergePatch` is the algorithm of section 2 of RFC 7396; it stands in for
`jsonpatch.MergePatch`. A *probe* says how far a path can be followed in a document and what stops
it. `ProbeOfMerge` shows that a merge acts on probes, path by path, through the small function
`Over`, for all targets and patches, nulls included. `ProbesDetermine` says that probes determine
the document. All laws of merging, up to the effective policy of a whole hierarchy, are finite
reasoning about `Over`.

**Effective policies.** `EffectiveOfChain` gives the value at every path for every chain of sound
policies, without asking that the policies agree on which paths are objects: overrides settle from the
top down whether there is a value, an object or nothing, except that a value lying where an earlier
policy already has an object is passed over; what they leave open the defaults settle from the bottom
up. `EffectiveOfDirectChain` is the counterpart for direct policies. Where the policies do agree along
the path this becomes the rule of the policy documentation, `EffectiveByPrecedence`, and for whole
maps of policies `EffectiveOfHierarchy`. `EffectiveFromLists` starts from the policies attached at
each level, before they are reduced to one per kind, and `EffectiveOfBackend` from the routes of a
backend. "Sound" means inherited, null-free, with
apiVersion and kind, and with default and override sections that are objects where present. "Regular"
policies are sound ones of an inherited kind, or direct, null-free ones of a direct kind.

**One level.** Policies of one level and kind are folded in list order, each step handing the
lower-ranked of two policies to the merge as the parent, and of two equally ranked ones the earlier.
`FoldScans` gives the result at every agreed path of every list, inherited or direct, inside
spec.override or not, equal ranks included, as a scan of the list. `RankScan` is about such scans alone:
`ScanByPriority` turns a scan into an order of priority among the policies, read off their ranks. From
this follow the exact conditions under which the highest rank wins whatever the policies hold
(`HighestWinsIff`), under which the order of the list does not matter (`OrdersAgreeIff`), and under
which the best policy keeps its override (`BestOverrideKeptIff`).

**Go maps and sets.** A loop that ranges over a Go map takes its next key by an arbitrary choice, so
every contract holds for every iteration order. Where results could depend on the order the contract
says what does not: `MergePolicies` returns the same map for every order, and only which of several
errors it returns is open. For feature selection the order is explicit: a plan lists the profiles and
each profile's features as they are visited.

**Concurrency.** `SuiteLock` is a transition system over any number of `Run` and `Report` calls. Each
lock operation and each access to a shared field is a step of its own; a trace is any sequence of
enabled steps. The lock admits more interleavings than Go's, which makes new readers wait for waiting
writers. `SuiteRuns` says what becomes of a run, and that nothing hangs.

**Counters.** Report counters are 32 bits wide and wrap around in the model as they do in the source;
the theorems about totals assume fewer than 2^32 additions.

## Where the code differs from what one would expect

- `Report` is documented to fail if no run has completed. `ReportBeforeAnyRun` is a trace in which it
  succeeds with the initial empty map. `ReportFailsIff` says when a report does fail: exactly when a run
  is in progress at the moment it gets the lock. So before the first completed run the documented
  failure happens if and only if the first run is in progress (`EmptyReportIff`).
- `listenersMatch` dereferences a nil group when an expected kind has no group and the actual listener
  has no kinds; `KindsMatch` and `JudgeAllIff` say exactly when, and `NilGroupPanics` is an input.
- An empty map of requested headers is printed as empty text and read back as one header without a
  name (`EmptyMapSetsBlankHeader`).
- With a focused test, tests that were never reached are recorded as succeeded (`FocusRecordsUnreached`).
  `RecordAgreesIff` gives the exact condition under which the record agrees with the gates.
- Conflict resolution between policies of one level is turned around for overrides. The lower-ranked
  policy is merged as the parent, and a parent's override is patched back on top, so of two inherited
  policies the outranked one's override takes effect (`OutrankedOverrideIsEffective`, with the input in
  `OverrideOfTheOutranked`). Every order of a list keeps the best policy's override if and only if no
  other policy sets a different one (`BestOverrideKeptIff`). In one given order the best policy's value
  can also come back through a later policy that sets it too (`BestValueComesBack`).
- Merging three or more policies of one level can depend on their order (`OrderShows` is an input).
  `LevelOrder.OrdersAgreeIff` is the exact condition: all orders agree at a path if and only if the
  policies that settle it agree, which are those of the highest rank where one of them sets the path and
  all others where none does (inside spec.override the other way round). gwctl passes one order, sorted
  by name. Of policies of one age that is an order by rank (`SortedByName`), so the highest rank wins
  outside spec.override and the lowest inside (`ListByRankDecides`). In general a list is resolved by rank
  whatever it holds if and only if its order of priority is by rank (`HighestWinsIff`).
- A backend merges the policies of its routes in the order of a Go map. There that dependence on the order
  is real nondeterminism: `ForBackend` and `EffectiveOfBackend` give the result for each order. Of equally
  ranked policies the last one merged decides, and the first one inside spec.override
  (`EqualRanksDecide`).
- The built-in profile registered as MESH-GRPC carries the name MESH-HTTP. With both selected, a test
  that belongs to both is counted and listed twice in the report of MESH-HTTP (`MeshBasicCountsTwice`).
  A report adds up to the tests of one profile if and only if no other selected profile of its name has a
  test to count, and a list is strictly sorted if and only if no test is in it for two profiles
  (`ReportIsExact`).
- The generator scrubs the descriptions of properties and of the properties of items, but not the
  description of the root, of an item itself, or of anything below the items of a schema that also has
  properties. A generated tree is free of tags if and only if no such overlooked description has one
  (`TagFreeIff`); `TaggedItemStays` is a schema that keeps its tag in every channel.
- A comma or trailing space in a requested header value, and a comma, colon or leading space in a name,
  are swallowed by the format. The round trip holds if and only if the map is not empty and has none,
  except that the value of the empty name may end in commas (`HeaderRoundTripIff`, `TrailingComma`).
- Feature selection inserts exempt features into a set that may not exist yet. Some order of iteration
  panics if and only if an exempt feature is core in one selected profile and extended in one
  (`SomeOrderPanicsIff`).

## Model

| member | source | states |
|---|---|---|
| `JsonMerge.ProbeOfMerge` | gwctl/pkg/policymanager/merger.go:154-176 | Merging is pathwise: what a path meets in the merged document is a function of what it meets in target and patch, for all documents including nulls |
| `JsonMerge.ProbesDetermine` | gwctl/pkg/policymanager/merger.go:154-176 | Two documents that agree on every path are equal |
| `JsonMerge.LeavesOfMerge` | gwctl/pkg/policymanager/merger.go:154-176 | The exact leaves of a merge: the patch decides wherever it reaches and a null deletes; target leaves stay where the patch falls short |
| `JsonMerge.NullFreePatchLeafSurvives` | gwctl/pkg/policymanager/merger.go:154-176 | Every leaf of a null-free patch is in the result, whatever the target |
| `JsonMerge.MergeIdempotent` | gwctl/pkg/policymanager/merger.go:154-176 | Applying a patch twice is applying it once, nulls included |
| `JsonMerge.MergeAssociativeIff` | gwctl/pkg/policymanager/merger.go:154-176 | Two patches may be combined before use on every target if and only if the second is null-free and never has an object where the first has another value |
| `JsonMerge.MergeKeepsNullFree` | gwctl/pkg/policymanager/merger.go:154-176 | Merging null-free documents never introduces a null |
| `Policies.NestedFieldByProbe` | gwctl/pkg/policymanager/merger.go:127-130 | Nested field access succeeds, finds nothing or fails exactly by what stops the walk along the path |
| `Policies.NestedStringByProbe` | gwctl/pkg/policymanager/manager.go:279-281 | Text fields are read as their text, and anything else as the empty string |
| `Policies.CrdIDOf` | gwctl/pkg/policymanager/manager.go:279-281 | The kind identifier of a policy is kind, dot, group; without a slash the group is empty, and with two slashes kind and group are unknown |
| `Policies.MergedProbe` | gwctl/pkg/policymanager/merger.go:118-143 | A merged policy is, at every path, the child over the parent with the parent's override patched back on top |
| `Policies.ChildDecidesOutside` | gwctl/pkg/policymanager/merger.go:107-152 | Outside spec.override the merged policy has exactly the leaves of the plain merge, the child deciding wherever it reaches |
| `Policies.ParentDecidesInside` | gwctl/pkg/policymanager/merger.go:123-144 | Inside spec.override of an inherited parent the roles are swapped: exactly the leaves of the parent merged over the child |
| `Policies.MergedPolicyLeaves` | gwctl/pkg/policymanager/merger.go:107-152 | Every leaf of the parent's override and every child leaf outside it survives |
| `Policies.MergeKeepsKind` | gwctl/pkg/policymanager/merger.go:112-152 | A merged policy keeps the child's kind |
| `Policies.EffectiveOfDirect` | gwctl/pkg/policymanager/manager.go:338-343 | The effective spec of a direct policy is its spec without the targetRef at every path, objects included, and nil exactly without a spec |
| `Hierarchy.MergeSound` | gwctl/pkg/policymanager/merger.go:112-152 | Sound policies of one kind always merge into a sound policy of that kind |
| `Hierarchy.OverrideOfMerge` | gwctl/pkg/policymanager/merger.go:123-144 | In the override section the parent is laid over the child, at every path |
| `Hierarchy.PlainOfMerge` | gwctl/pkg/policymanager/merger.go:118-121 | Everywhere else the child is laid over the parent, at every path |
| `Hierarchy.EffectiveProbe` | gwctl/pkg/policymanager/manager.go:345-371 | At every path, objects included, the effective spec of a sound policy is the override section laid over the default section; it is nil exactly without a spec |
| `Hierarchy.RegularMerges` | gwctl/pkg/policymanager/merger.go:112-152 | Two policies of one kind that are both sound, or both direct and null-free, always merge into such a policy |
| `Hierarchy.EffectiveLeaf` | gwctl/pkg/policymanager/manager.go:345-371 | The effective spec has the override's leaf where the override reaches and the default's elsewhere |
| `Hierarchy.EffectiveOfChain` | gwctl/pkg/policymanager/merger.go:68-152 | What there is at every path of the effective spec of every sound chain, a value, an object or nothing: overrides settle it top down, defaults bottom up, with no agreement between the policies assumed |
| `Hierarchy.EffectiveOfDirectChain` | gwctl/pkg/policymanager/merger.go:68-152 | The same for every chain of direct policies: the bottommost spec that reaches a path settles it, and the targetRef is left out |
| `Hierarchy.EffectiveByPrecedence` | gwctl/pkg/policymanager/merger.go:68-152 | Along a path on which the policies agree: the topmost override, else the bottommost default, else nothing |
| `Hierarchy.MergePolicyAssociative` | gwctl/pkg/policymanager/merger.go:112-152 | Three sound policies that agree on which paths are objects merge to the same policy in either grouping |
| `PolicyMerger.MergePolicies` | gwctl/pkg/policymanager/merger.go:76-105 | Union of both key sets, unshared entries verbatim, shared ones merged in precedence order, the same for every map order; fails exactly when a shared entry does |
| `PolicyMerger.MergePoliciesOfDifferentHierarchy` | gwctl/pkg/policymanager/merger.go:68-70 | The same with parent before child |
| `PolicyMerger.LevelsByColumn` | gwctl/pkg/policymanager/merger.go:68-105 | Folding levels yields the kinds present on some level, each the fold of its own policies only |
| `PolicyMerger.RegularLevelsMerge` | gwctl/pkg/policymanager/merger.go:68-105 | Any number of levels of regular policies, inherited or direct, filed under their kinds merge without error into such a level |
| `PolicyMerger.EffectiveOfHierarchy` | gwctl/pkg/policymanager/merger.go:68-105 | The effective policy of each kind over any number of levels: topmost override, else bottommost default, else nothing |
| `PolicyMerger.DirectOfHierarchy` | gwctl/pkg/policymanager/merger.go:68-105 | The effective policy of each direct kind over any number of levels: the bottommost policy that reaches a path |
| `SameLevel.OutranksIsStrictOrder` | gwctl/pkg/policymanager/merger.go:187-198 | Older, then alphabetically first, is a strict total order |
| `SameLevel.OlderHasPrecedence` | gwctl/pkg/policymanager/merger.go:178-202 | The older of two policies has precedence whichever comes first, at the same age the one whose namespace and name come first in the alphabet, and otherwise the second |
| `Text.LessMeans` | gwctl/pkg/policymanager/merger.go:187-198 | Texts are compared at the first place where they differ |
| `SameLevel.OrderPutsHigherSecond` | gwctl/pkg/policymanager/merger.go:183-202 | The second policy returned is never outranked by the first, and for different ranks argument order is irrelevant |
| `SameLevel.MergePoliciesOfSameHierarchy` | gwctl/pkg/policymanager/merger.go:64-66 | Merging two levels by precedence, for every map order |
| `SameLevel.MergePoliciesOfSimilarKind` | gwctl/pkg/policymanager/merger.go:30-62 | Exactly the kinds present, each the fold of just its own policies in list order; fails exactly when one of these folds does |
| `SameLevel.FoldKeepsKind` | gwctl/pkg/policymanager/merger.go:30-62 | Each entry keeps its kind, so the kind-mismatch error is unreachable |
| `SameLevel.BestExists` | gwctl/pkg/policymanager/merger.go:183-202 | Among policies with distinct ranks one outranks all others |
| `SameLevel.BestPolicyWins` | gwctl/pkg/policymanager/merger.go:30-62 | Wherever the best policy stands in the list, and whatever the documents hold, nulls included, the result ranks as it does and keeps all its values outside spec.override (all values, for direct policies); `LevelOrder` covers spec.override |
| `EffectivePolicies.FoldKeepsRegular` | gwctl/pkg/policymanager/merger.go:47-59 | Regular policies of one level and kind, inherited or direct, always merge into a regular policy of that kind |
| `EffectivePolicies.ForGateway` | gwctl/pkg/resourcediscovery/resourcemodel.go:360-390 | The policies of a Gateway are the reduced levels of class, namespace and Gateway folded from the top; it succeeds if and only if every list can be reduced and the levels merge |
| `EffectivePolicies.RegularGateway` | gwctl/pkg/resourcediscovery/resourcemodel.go:360-390 | Lists of regular policies, each kind inherited or direct throughout, always succeed |
| `EffectivePolicies.ForRoute` | gwctl/pkg/resourcediscovery/resourcemodel.go:402-434 | The policies of a route are its Gateway's effective policies with the reduced levels of namespace and route folded below; it succeeds if and only if both lists can be reduced and merge below |
| `EffectivePolicies.LevelsAppend` | gwctl/pkg/resourcediscovery/resourcemodel.go:422-428 | Folding further levels below an effective policy is folding all levels in one go |
| `EffectivePolicies.ForBackend` | gwctl/pkg/resourcediscovery/resourcemodel.go:443-496 | The policies of a backend by Gateway: for the order in which the routes are taken, their levels merged as one hierarchy level, with the backend's namespace and the backend folded below; it succeeds if and only if everything merges in that order |
| `EffectivePolicies.RegularBackend` | gwctl/pkg/resourcediscovery/resourcemodel.go:443-496 | Regular policies, inherited or direct, merge in every order of the routes |
| `EffectivePolicies.FoldLevelsByColumn` | gwctl/pkg/resourcediscovery/resourcemodel.go:463-472 | Merging the levels of the routes folds every kind on its own, in that order |
| `AttachedPolicies.EffectiveFromLists` | gwctl/pkg/resourcediscovery/resourcemodel.go:360-390 | From the lists attached at any number of levels to the effective value at every path on which the attached policies agree: the scan of the topmost list that finds an override, else of the bottommost that finds a default |
| `AttachedPolicies.EffectiveOfBackend` | gwctl/pkg/resourcediscovery/resourcemodel.go:443-496 | The same for a backend, its routes forming the topmost level in the order in which they are taken |
| `LevelOrder.FoldScans` | gwctl/pkg/policymanager/merger.go:30-62 | The value at every agreed path of any list of policies of one kind: going through the list, a policy that no earlier one outranks goes in front and any other behind; inside spec.override of inherited policies the other way round |
| `LevelOrder.FoldTop` | gwctl/pkg/policymanager/merger.go:47-59 | No policy of a list outranks the result of merging it, in whatever order |
| `LevelOrder.FoldByPriority` | gwctl/pkg/policymanager/merger.go:30-62 | The same value as that of the first policy with one in an order of priority read off the ranks alone |
| `RankScan.ScanByPriority` | gwctl/pkg/policymanager/merger.go:47-59 | Where the higher-ranked decide: the policies no earlier one outranks, latest first, then the others in list order; elsewhere the others, latest first, then those |
| `RankedLists.HighestWinsIff` | gwctl/pkg/policymanager/merger.go:183-202 | Policies of given ranks are resolved by rank whatever they hold if and only if that order of priority is by rank |
| `RankedLists.RankedMeansHighest` | gwctl/pkg/policymanager/merger.go:30-62 | If it is, no other policy that sets a path outranks the one whose value is taken, at every agreed path |
| `RankedLists.SortedByName` | gwctl/pkg/resourcediscovery/resourcemodel.go:499-510 | The list gwctl passes on, sorted by name, is by rank if the policies are of one age |
| `LevelOrder.ListByRankDecides` | gwctl/pkg/policymanager/merger.go:47-59 | In a list by rank the highest rank comes first, and the lowest inside spec.override of inherited policies |
| `LevelOrder.EqualRanksDecide` | gwctl/pkg/policymanager/merger.go:187-198 | Of equally ranked policies the last in the list comes first, and the first inside spec.override of inherited policies |
| `RankScan.OrdersAgreeIff` | gwctl/pkg/policymanager/merger.go:47-59 | All orders of ranked values find the same if and only if the class of ranks that settles it agrees |
| `LevelOrder.OrdersAgreeIff` | gwctl/pkg/policymanager/merger.go:30-62 | All orders of a list agree at a path if and only if the policies that settle it agree: those of the highest rank if one of them sets it and all others if not, and inside spec.override of inherited policies the other way round; equal ranks included |
| `LevelOrder.BestOverrideKeptIff` | gwctl/pkg/policymanager/merger.go:96-98 | Every order keeps the best policy's override value if and only if no other policy of the list sets a different one |
| `LevelOrder.LastOverrideDecides` | gwctl/pkg/policymanager/merger.go:123-143 | Inside spec.override the last policy of the list decides unless it is silent or no earlier one outranks it |
| `LevelOrder.OutrankedOverrideIsEffective` | gwctl/pkg/policymanager/merger.go:76-144 | Of two inherited policies of one level the outranked one's override is in the effective spec, in either order |
| `LevelInputs.OverrideOfTheOutranked` | gwctl/pkg/policymanager/merger.go:76-144 | Two policies on which this shows |
| `LevelInputs.OrderShows` | gwctl/pkg/policymanager/merger.go:47-59 | Three policies whose result depends on the order of the list |
| `LevelInputs.BestValueComesBack` | gwctl/pkg/policymanager/merger.go:76-144 | Three policies whose list keeps the best one's override although another sets a different value |
| `Tags.FindTag` | pkg/generator/main.go:230-231 | The leftmost match of the tag pattern, and the longest there |
| `Tags.ScrubLeavesNoTag` | pkg/generator/main.go:230-231 | No match of the tag pattern is left in any text, not even one put together by the removal |
| `Tags.ScrubByLine` | pkg/generator/main.go:230-231 | Text is scrubbed line by line |
| `Tags.ScrubOneLine` | pkg/generator/main.go:230-231 | What is kept of a line: everything before its first tag and after its last closing bracket, or the whole line |
| `Tags.ScrubDropsTag` | pkg/generator/main.go:230-231 | From a line with one printed tag exactly the tag goes |
| `Tags.ScrubKeepsPlain` | pkg/generator/main.go:230-231 | Text in which no tag begins is kept |
| `Blocks.BlockDropped` | pkg/generator/main.go:209-219 | Removing blocks drops the text between the tags with the tags and goes on behind it |
| `Blocks.BlockOpened` | pkg/generator/main.go:220-223 | Removing only the tags keeps the text between them |
| `Blocks.RemoveBlocksOf` | pkg/generator/main.go:209-219 | Of any text, everything outside its blocks is kept, also behind the last one |
| `Blocks.RemoveAllOf` | pkg/generator/main.go:220-223 | Of any text, everything between the occurrences of a tag is kept |
| `Blocks.FindBlockIff` | pkg/generator/main.go:213-216 | There is a block if and only if some end tag stands behind some start tag |
| `ValidationTags.EveryFound` | pkg/generator/main.go:178-195 | A search for matches that cannot overlap and are no more than its limit misses none |
| `ValidationTags.AllFoundIff` | pkg/generator/main.go:182-196 | A limited search misses nothing if and only if the matches do not overlap and are within the limit |
| `ValidationTags.EnumTagRead` | pkg/generator/main.go:181-193 | A printed enumeration tag is read back with its values |
| `ValidationTags.CelTagRead` | pkg/generator/main.go:195-207 | A printed rule tag is read back with its message and rule |
| `ValidationTags.EnumTagIff` | pkg/generator/main.go:181-193 | An enumeration tag is read at a position if and only if one is printed there, its values letters and semicolons |
| `ValidationTags.CelTagIff` | pkg/generator/main.go:195-207 | A rule tag is read at a position if and only if one is printed there, message and rule without quotes |
| `ValidationTags.AllTagsValid` | pkg/generator/main.go:177-228 | Valid tags found never outnumber the occurrences of the prefix; they are as many if and only if every occurrence begins a valid tag, tags of one form do not overlap and there are at most 64 of each |
| `Generator.TweakHead` | pkg/generator/main.go:142-231 | A schema is accepted if and only if its blocks can be closed and its tags are valid, do not overlap and are at most 64 of a form; then no tag is left in its description and no rule is lost |
| `Generator.GatewayTweaks` | pkg/generator/main.go:138-241 | The recursive rewrite ends and gives the same tree for every iteration order, or aborts exactly when a visited property does |
| `Generator.NamesKept` | pkg/generator/main.go:167-170 | A rewritten map keeps exactly the names in whose description `<gateway:experimental>` does not occur, or all names outside the standard channel |
| `Generator.PathsKept` | pkg/generator/main.go:233-238 | The field paths below a rewritten property are the original ones that meet nothing dropped |
| `Generator.StandardWithinExperimental` | pkg/generator/main.go:86-115 | The experimental channel has every field path of the source; the standard channel exactly those of them that meet no experimental field |
| `Generator.TweakedIsClean` | pkg/generator/main.go:230-238 | No visited description has a tag left |
| `Generator.KeptTagsWereValid` | pkg/generator/main.go:177-228 | A property that is kept had its tags in order for the channel, and every occurrence of the prefix began a valid tag |
| `Generator.LastEnumTagDecides` | pkg/generator/main.go:181-193 | The values between the semicolons of the last enumeration tag of a kept property become its enumeration, in order and in quotes |
| `Generator.EveryRuleTagAdds` | pkg/generator/main.go:195-207 | The message and rule of every rule tag of a kept property end up in its validations |
| `Generator.TagsTakeEffect` | pkg/generator/main.go:181-207 | For every description of a kept property: the enumeration is that of its last enumeration tag or the old one if it has none, and the rules are the old ones followed by those of all its rule tags in order |
| `Generator.OrdinaryDescription` | pkg/generator/main.go:220-231 | In every channel a description without the tags of a block is just scrubbed, and one without any tag comes back as it is |
| `Generator.StandardDescription` | pkg/generator/main.go:209-231 | The standard description of any text with blocks is what stands outside them, scrubbed |
| `Generator.OpenedDescription` | pkg/generator/main.go:220-231 | In any other channel, and in the standard one where no block is opened, the tags of blocks go and everything between them stays |
| `AddressForms.AddressesMean` | pkg/generator/main.go:143-164 | The forms put into the items of an address list: an address satisfies exactly one of them if and only if, should it be an IP address, its value is an IPv4 or IPv6 address |
| `Generator.StandardDropsBlock` | pkg/generator/main.go:209-219 | The standard description loses experimental blocks |
| `Generator.ExperimentalKeepsBlock` | pkg/generator/main.go:220-223 | The experimental description keeps their text without the tags |
| `Descriptions.GeneratedDescription` | pkg/generator/main.go:138-241 | Every description of a generated tree: the channel's version of the source's where the recursion comes, the source's own elsewhere |
| `Descriptions.TagFreeIff` | pkg/generator/main.go:230-238 | A generated tree has no tag in any description if and only if no description that stays and is not visited has one in the source |
| `Descriptions.TaggedItemStays` | pkg/generator/main.go:233-237 | A schema whose item keeps a tag in every channel |
| `Descriptions.AbortsIff` | pkg/generator/main.go:138-241 | Rewriting a property is aborted if and only if a schema it visits has an IP address tag without an item schema, or is not dropped and has its tags out of order |
| `Descriptions.AllFitIff` | pkg/generator/main.go:138-241 | The same for a whole tree |
| `Features.SelectFeatures` | conformance/utils/suite/suite.go:217-287 | The outcome of some order of iteration, and for every order: supported features are the given ones without the exempt ones plus all core features; extended features are covered, exempt ones are unsupported |
| `Features.SelectedInPlan` | conformance/utils/suite/suite.go:258-287 | What every order leads to: an unknown profile, a nil-set insert where an exempt feature is both core and extended, or a selection with these properties |
| `Features.SomeOrderPanicsIff` | conformance/utils/suite/suite.go:258-287 | Some order of iteration inserts into a nil set if and only if an exempt feature is core in one selected profile and extended in one |
| `Features.SelectionIsPartition` | conformance/utils/suite/suite.go:270-286 | With core and extended features separate, each profile's extended features split into two disjoint sets independent of the order |
| `TestRun.RunOne` | conformance/utils/suite/conformance.go:42-69 | A test body is reached exactly when the feature, skip and focus gates let it |
| `TestRun.RecordAgreesIff` | conformance/utils/suite/suite.go:389-409 | A test is recorded as succeeded or failed exactly when it was reached, if and only if no test is focused, it is skipped by name, or it is focused exactly when supported |
| `TestRun.FocusRecordsUnreached` | conformance/utils/suite/suite.go:389-409 | A run with a focused test in which another test is recorded as succeeded without being reached |
| `TestRun.RecordMeans` | conformance/utils/suite/suite.go:393-403 | Which of the four records a test gets, with and without a focused test; without one, success means reached and passed |
| `TestRun.RunTests` | conformance/utils/suite/suite.go:388-409 | The loop over the tests records each test's classification |
| `TestRun.CollectedIsComplete` | conformance/utils/suite/suite.go:388-409 | Results are filed under the names of the tests run, and the one under a name is that of the last test of that name |
| `SuiteLock.ReachableInv` | conformance/utils/suite/suite.go:372-446 | The lock, flag and results invariant holds after every interleaving of calls |
| `SuiteLock.OneRunAtATime` | conformance/utils/suite/suite.go:372-419 | At most one run is in progress, the flag says so exactly then, and results are unset while tests run; `SuiteRuns` says when a run starts |
| `SuiteLock.ReportsAreComplete` | conformance/utils/suite/suite.go:423-446 | A returned report has read the complete results of the last finished run, or the initial empty map |
| `SuiteLock.ResultsStandStill` | conformance/utils/suite/suite.go:424-446 | No step of any call changes results, flag or the record of finished runs while a report holds the lock |
| `SuiteLock.RejectedIffBusy` | conformance/utils/suite/suite.go:424-428 | In every reachable state a report that has got the lock is turned away if and only if a run is in progress |
| `SuiteLock.ReportFailsIff` | conformance/utils/suite/suite.go:421-446 | Whatever happens afterwards, a report fails only if a run was in progress when it got the lock, and otherwise returns the results of the last run finished by then |
| `SuiteLock.EmptyReportIff` | conformance/utils/suite/suite.go:421-428 | Before the first completed run a report fails if and only if a run is in progress, and otherwise succeeds with the empty map |
| `SuiteLock.ReportBeforeAnyRun` | conformance/utils/suite/suite.go:421-446 | A trace in which a report without any run succeeds |
| `SuiteRuns.RunRejectedIffBusy` | conformance/utils/suite/suite.go:376-384 | In every reachable state a run that has got the lock is turned away if and only if another run is in progress, and otherwise starts |
| `SuiteRuns.RunFailsIff` | conformance/utils/suite/suite.go:372-419 | Whatever happens afterwards, a run fails only if another was in progress when it got the lock; if it returns, the next run on record is this one, with its tests and exactly the outcomes its steps supplied, one for each test |
| `SuiteRuns.RunKeepsItsTests` | conformance/utils/suite/suite.go:371-419 | From its start to its record a run has the tests it was started with and the outcomes its steps supplied |
| `SuiteRuns.LockFreeIff` | conformance/utils/suite/suite.go:375-424 | In every reachable state a report gets the lock if and only if no run holds it, and a run if and only if nobody does |
| `SuiteRuns.NoDeadlock` | conformance/utils/suite/suite.go:372-446 | In every reachable state in which some call has not ended, some call can take a step |
| `SuiteRuns.StepsEnd` | conformance/utils/suite/suite.go:372-446 | Every step of a call brings it nearer to its end |
| `SuiteRuns.RunThenReport` | conformance/utils/suite/suite.go:371-446 | A trace of one run and a report after it that shows the recorded result |
| `Reports.HasAllFeatures` | conformance/utils/suite/profiles.go:177-183 | Whether a test belongs to a profile |
| `Reports.IsTestExtended` | conformance/utils/suite/reports.go:179-188 | A test is extended exactly when it needs a feature that is not core |
| `Reports.UnregisteredProfile` | conformance/utils/suite/profiles.go:173-183 | A profile nobody registered has no name and just the tests that need nothing |
| `Reports.ProfileReports.AddTestResults` | conformance/utils/suite/reports.go:53-101 | Every counter and list of every report is that of the results added so far, counters modulo 2^32 |
| `ReportBuilder.SortStrings` | conformance/utils/suite/suite.go:431-435 | A strictly sorted listing of a set |
| `ReportBuilder.AddAll` | conformance/utils/suite/suite.go:431-446 | Each test is added once to each selected profile it belongs to, in name order |
| `ReportBuilder.Conservation` | conformance/utils/suite/reports.go:53-101 | The six counters of a report add up to the pairs of a selected profile of its name and a test of it that is not marked unsupported |
| `ReportBuilder.ListedIsSorted` | conformance/utils/suite/reports.go:79-97 | A list of failed or skipped tests is strictly sorted if and only if no test is in it for two selected profiles |
| `ReportBuilder.SuccessIffNothingMissing` | conformance/utils/suite/reports.go:111-132 | A level fails exactly when some test failed, is partial exactly when none failed and some were skipped, and succeeds exactly when both lists are empty |
| `ReportBuilder.CompileResults` | conformance/utils/suite/reports.go:110-162 | Every report is judged and gets its sorted feature lists, for every map order |
| `ReportBuilder.Report` | conformance/utils/suite/suite.go:423-462 | The whole report, from results to verdicts and feature lists |
| `ReportBuilder.ReportIsExact` | conformance/utils/suite/reports.go:53-132 | Every counter and list of the report that carries a profile's name is that of the tests with that result at that level, and the result follows from the lists; the counters add up to the profile's own tests if and only if no other selected profile of that name has a test to count; each list is strictly sorted if and only if no test is in it twice |
| `ReportBuilder.ListedArePairs` | conformance/utils/suite/reports.go:53-101 | The tests listed with one result at one level are exactly those of the selected profiles of that name, once for each profile |
| `ReportBuilder.SoleProfileIff` | conformance/utils/suite/suite.go:436-445 | The pairs counted under a name are as many as one profile's own tests if and only if that profile counts alone |
| `ReportBuilder.MeshBasicCountsTwice` | conformance/utils/suite/profiles.go:111-134 | With both mesh profiles selected, a failed test that needs just a mesh is counted and listed twice in the report of MESH-HTTP |
| `EchoHeaders.BackendSetHeader` | conformance/utils/http/http.go:145-149 | The requested headers printed in some iteration order |
| `EchoHeaders.TrimExact` | conformance/echo-basic/echo-basic.go:241 | Trimming takes off all space at both ends and nothing else |
| `EchoHeaders.WireText` | conformance/utils/http/http.go:145-149 | The text that is sent for two headers |
| `EchoHeaders.ResponseWriter.WriteEchoResponseHeaders` | conformance/echo-basic/echo-basic.go:237-250 | The header map after all requested pairs are written |
| `EchoHeaders.WriteMeans` | conformance/echo-basic/echo-basic.go:243-247 | A new name gets the value; a name that has values keeps them, the first one extended after a comma |
| `EchoSurvivors.ListsInOrder` | conformance/echo-basic/echo-basic.go:237-250 | Several lists are read one after the other |
| `EchoHeaders.HeaderRoundTrip` | conformance/echo-basic/echo-basic.go:237-250 | Printing and parsing any non-empty plain map in any order gives back exactly that map, one value per name |
| `EchoRoundTrip.HeaderRoundTripIff` | conformance/echo-basic/echo-basic.go:237-250 | A map comes back exactly as requested, in every order, if and only if it is not empty and every pair is plain, except that the value of the empty name may end in commas |
| `EchoRoundTrip.TrailingComma` | conformance/echo-basic/echo-basic.go:237-250 | A value that ends in a comma loses it and a header without a name comes out, except under the empty name, where it comes back whole |
| `EchoHeaders.EmptyMapSetsBlankHeader` | conformance/utils/http/http.go:145-149 | The empty map sets one header without a name |
| `EchoHeaders.RepeatedNameJoins` | conformance/echo-basic/echo-basic.go:243-247 | A repeated name extends its value after a comma |
| `Convergence.AwaitConvergence` | conformance/utils/http/http.go:193-226 | Returns after the first call that completes a window of consecutive successes and never later or earlier; otherwise times out having made every call |
| `Convergence.WindowIs` | conformance/utils/http/http.go:205-216 | A window is a stretch of as many calls as needed, none of which failed |
| `Convergence.FirstWindowUnique` | conformance/utils/http/http.go:193-226 | The outcome does not depend on calls after the window |
| `Listeners.FindConditionInList` | conformance/utils/kubernetes/helpers.go:939-959 | Found exactly when some condition satisfies the expectation |
| `Listeners.ConditionsMatch` | conformance/utils/kubernetes/helpers.go:919-934 | Enough conditions and each expectation satisfied, exactly |
| `Listeners.KindsMatch` | conformance/utils/kubernetes/helpers.go:874-903 | Matches, mismatches or panics exactly when the kinds say so, groups defaulted |
| `Listeners.ListenersMatch` | conformance/utils/kubernetes/helpers.go:853-917 | The verdict of the first expected listener that does not match |
| `Listeners.JudgeAllIff` | conformance/utils/kubernetes/helpers.go:856-914 | A comparison is a match if and only if every expected listener is judged one, and panics or fails if and only if the first that is not does |
| `Listeners.NilGroupPanics` | conformance/utils/kubernetes/helpers.go:874-903 | An expected kind without a group against a listener without kinds panics |
| `Sequences.Pigeonhole` | conformance/utils/kubernetes/helpers.go:856-873 | Equally many names, all found and none repeated on one side: a permutation |
| `Listeners.MatchIsPermutation` | conformance/utils/kubernetes/helpers.go:853-917 | For distinct expected names a comparison is a match if and only if the names are a permutation and each pair has the same route count and matching kinds and conditions |
| `FriendlyName.ReverseInPlace` | cmd/modelschema/main.go:88-90 | The two-pointer swap reverses the array |
| `FriendlyName.ComputeFriendlyName` | cmd/modelschema/main.go:83-94 | The name built by splitting, reversing and joining |
| `FriendlyName.FriendlyLabels` | cmd/modelschema/main.go:83-94 | Its labels are those of the first slash part reversed, then all others in order |
| `FriendlyName.FriendlyTwice` | cmd/modelschema/main.go:83-94 | Without a slash it is its own inverse |

## Left out

- Text encodings and number formats inside `mergeUnstructured`: documents are values, so marshalling cannot fail; arrays are replaced whole as RFC 7396 says.
- Parsing of creation timestamps: the reading of a timestamp as an instant is a parameter; times are equal exactly when the instants are.
- `PolicyManager`, `PolicyFromUnstructured`, `IsAttachedTo`: lookups and conversions that would only add easy members.
- Nulls in a chain of policies: a null in a parent's override deletes a value once and is then forgotten, so `Sound` excludes them; single merges are covered with nulls.
- Update in place and aliasing of schemas and reports behind Go pointers: maps and trees are values that the methods reassign.
- SameLevel.BestPolicyWins: is about paths outside spec.override of inherited policies; inside, the best policy comes last, which `LevelOrder` states for null-free policies of known kind.
- Descriptions.TagFreeIff: is about descriptions on paths of properties and items; alternatives (oneOf, anyOf, not) are never visited and not on such paths.
- Whole-channel loop of the generator, file writing, CRD loading, and the parts of a schema it never touches.
- Feature selection takes the feature sets as given: the command-line flags, the all-features switch and its change of the global feature set are not modelled.
- Human-readable summaries, dates and versions of a report, and `getAPIVersionAndChannel`.
- ReportBuilder.Report: takes results filed under their tests' names, as `CollectedIsComplete` shows every run leaves them.
- Wall-clock time in `AwaitConvergence`: the calls there is time for are an input.
- Parallel subtests and test bodies that skip themselves: a body passes or fails.
- API types, generated code, Kubernetes clients, printers, commands and documentation tooling.
