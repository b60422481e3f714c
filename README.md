# osm2type: the tag-to-type classification engine, modelled in Dafny

This project models `ftype::GetNameAndType` from `generator/osm2type.cpp` and
everything it calls in that file. The function turns the tags of one OSM
element into classificator type codes and the attributes of a
`FeatureParams` record.

The model follows the source stage by stage:

1. The first rule table adds a `layer` tag for a bridge or tunnel that has none. The last bridge=yes or tunnel=yes tag decides its value.
2. `ExtractNames` takes one name per language, through `ForEachTag`. The tag it takes is cleared.
3. The base rule table relabels `atm`/`restaurant`/`hotel`. It stores and clears the address, population and `ref` tags, and reads the layer.
4. `MatchTypes` walks the classificator, through `ForEachTagEx`, as often as a path can be found. Each path starts at the root child that the first available tag's key names. From there, each step takes the child named by the value of the first available tag that has one; failing that, it takes the child named by the key of the first available tag that has one. The walk stops where neither is found. It adds the code of each drawable path.
5. The entrance rule drops the entrance type when there is a house number. If no type is left, it clears the names and adds the address type.
6. The post-match loop goes over a frozen copy of the types. At a highway type, a station type or a subway type it runs the highway, railway or subway table over the tags, each table at most once. The subway and railway tables call `SetRwSubwayType`, which turns the first station type into a city's subway-station type.
7. `FinishAddingTypes` removes repeated types, keeping each type's first place.

Where the source changes things in place, the model does too:

- `OsmElement` and `FeatureParams` are classes.
- `TagProcessor::ApplyRules`, `ExtractNames`, `ForEachTagEx`, the path search in `MatchTypes` and the post-match loop are methods with loops.
- `ApplyRules`, `ExtractNames` and the post-match loop are proved equal to specification functions on values: `RunRules`, `ExtractNamesSpec`, `Rounds` and `RunRounds`.
- `MatchTypes` returns its walk as ghost results: the paths, the skip sets between the rounds and the tag each round started from. Its contract ties the added types to `DrawableCodes` of those paths. The predicate `Walk` states what each round did: the first available tag, then the path and the skip set that the function `Descend` gives, which is the inner loop's step rule.
- Lemmas prove what the source promises about those functions.

The modules are:

- `StringUtils`: `atoi`, `is_number`, `to_uint64`, `clamp`, the `int8_t` conversion and the tokenizer, as C library behaviour.
- `OsmElements`: the tag store.
- `TagFilters`: `NeedMatchValue`, `IgnoreTag`, and the tags `ForEachTag` visits.
- `Classif`: the classificator tree, `BinaryFind`, the type codes and `CachedTypes`.
- `Features`: `FeatureParams` and `SetRwSubwayType`.
- `Rules`: the `TagProcessor` rule engine.
- `RuleTables`: the four rule tables.
- `Names`: `ExtractNames`.
- `Matching`: `ForEachTagEx` and `MatchTypes`.
- `Osm2Type`: the stages of `GetNameAndType`.

Four details of the code that are easy to misread, which the model keeps:

- `TagProcessor::IsNegative` knows only "no", "none" and "false". The value "-1" is negative only for `IgnoreTag`.
- A "!" pattern also fires on the literal value "!", because the literal comparison is tried too (lines 189-194).
- A second name tag for a language that already has a name is left in place, not cleared (lines 136-137 return before the clearing).
- The post-match tables add their types without the drawability test, and so does the entrance rule's address type. The model's final contract lists these as the only non-drawable types it can add, besides any types the record already held.

## Model

| member | source | states |
|---|---|---|
| TagFilters.NeedMatchValue | generator/osm2type.cpp:25-33 | a tag's value is looked up in the classificator unless it is a number and the key is neither `admin_level` nor `capital` |
| TagFilters.WordsAreMatched | generator/osm2type.cpp:25-33 | a value with any character other than digits, white space and signs is always matched against the classificator |
| TagFilters.DigitsMatchedForTwoKeys | generator/osm2type.cpp:25-33 | a non-empty run of digits is matched exactly when the key is `admin_level` or `capital` |
| StringUtils.IsNumber | generator/osm2type.cpp:31 | `is_number`: the whole string parses as an integer literal |
| StringUtils.NumberCharacters | generator/osm2type.cpp:31 | whatever `is_number` accepts consists of white space, signs and digits only |
| StringUtils.DigitsAreNumber | generator/osm2type.cpp:31 | `is_number` accepts every non-empty run of digits |
| StringUtils.ParseInteger | generator/osm2type.cpp:31 | the whole-string parse succeeds exactly on optional white space, an optional sign and one or more digits with nothing after them |
| StringUtils.ToUInt64 | generator/osm2type.cpp:359 | `to_uint64` succeeds exactly on what `is_number` accepts; a literal from 0 to 2^64-1 gives its value, a negative literal down to -(2^64-1) wraps to 2^64 plus it, and anything beyond gives 2^64-1 |
| StringUtils.Atoi | generator/osm2type.cpp:374 | `atoi`: leading white space, an optional sign, then the digits up to the first non-digit; 0 without digits |
| StringUtils.AtoiAgreesWithParse | generator/osm2type.cpp:374 | on a well-formed integer literal, `atoi` gives the literal's value |
| StringUtils.AtoiStopsAtNonDigit | generator/osm2type.cpp:374 | `atoi` reads the digits and ignores whatever follows the first non-digit |
| StringUtils.ToInt8 | generator/osm2type.cpp:374 | storing into the `int8_t` layer gives a value in [-128, 127] that agrees with the input modulo 256, and the input itself when it fits |
| StringUtils.Clamp | generator/osm2type.cpp:376 | the result lies within the bounds, equals the input inside them and the nearer bound outside |
| StringUtils.Contains | generator/osm2type.cpp:89 | `find` succeeds when the substring occurs at some position |
| StringUtils.ContainsAt | generator/osm2type.cpp:89 | a substring occurring at some position makes the search for it succeed |
| StringUtils.ContainsWitness | generator/osm2type.cpp:89 | a successful search has a position where the substring occurs |
| StringUtils.Tokens | generator/osm2type.cpp:111 | the tokenizer yields only non-empty tokens without a delimiter |
| StringUtils.TokensPair | generator/osm2type.cpp:111 | two words joined by one delimiter are exactly two tokens |
| StringUtils.TokensSingle | generator/osm2type.cpp:111 | a word without delimiters is a single token |
| TagFilters.IgnoreTag | generator/osm2type.cpp:35-62 | an empty key, a `description`, `cycleway`, `proposed` or `construction` key, or the value "no", "false" or "-1" on any key but `layer` and `oneway` is ignored |
| TagFilters.LookupKeyFirst | generator/osm2type.cpp:52-54 | the key table lookup finds nothing exactly when no entry has the key, and otherwise reports the first entry's verdict |
| TagFilters.LookupKey | generator/osm2type.cpp:52-54 | the walk over the key table: the verdict of the first entry whose key is the tag's key, or none; `LookupKeyFirst` states it |
| TagFilters.IgnoreTagIsTableWalk | generator/osm2type.cpp:35-62 | `IgnoreTag` is the source's walk: an empty key is ignored, the first table entry for the key decides, and otherwise a negative value ("no", "false", "-1") ignores |
| TagFilters.ConsumedIsIgnored | generator/osm2type.cpp:48-49 | a cleared tag is ignored by every later `ForEachTag` |
| TagFilters.Visible | generator/osm2type.cpp:68-73 | the tags `ForEachTag` offers are never ignored tags and all come from the element |
| TagFilters.VisibleMembers | generator/osm2type.cpp:68-73 | a tag is offered exactly when it is on the element and not ignored |
| TagFilters.VisiblePrefix | generator/osm2type.cpp:68-73 | the tags offered from a prefix come first, so ids follow tag order |
| Classif.FindFrom | generator/osm2type.cpp:260 | the search finds a child with the name, or none exists from that index on |
| Classif.BinaryFind | generator/osm2type.cpp:260 | `BinaryFind` returns a child with the sought name and its index, and returns none exactly when no child has that name |
| Classif.ChainAppend | generator/osm2type.cpp:279-306 | continuing a path from its last node gives a path from the root |
| Classif.EmptyValue | generator/osm2type.cpp:309 | the empty type code has no levels |
| Classif.PushValue | generator/osm2type.cpp:310-311 | pushing an index adds one level and keeps the earlier ones |
| Classif.TruncValue | generator/osm2type.cpp:237 | truncation keeps the first n levels, a prefix of the code |
| Classif.CodeOf | generator/osm2type.cpp:309-311 | a path's code has one level per node, each the node's index |
| Classif.ChainCodeValid | generator/osm2type.cpp:309-311 | the code of a path from the root names a node of the classificator |
| Classif.TruncValid | generator/osm2type.cpp:237 | a truncated valid code is valid |
| Classif.CodeDeterminesChain | generator/osm2type.cpp:309-311 | two paths from the same root with the same code are the same path |
| Classif.TruncOfPush | generator/osm2type.cpp:237 | truncating to n levels ignores levels pushed beyond n |
| Classif.CachedTypes.IsHighway | generator/osm2type.cpp:235-239 | a type is a highway when its first level is the highway code |
| Classif.CachedTypes.IsRwStation | generator/osm2type.cpp:240-243 | a type is a railway station when it is exactly the station code |
| Classif.CachedTypes.IsRwSubway | generator/osm2type.cpp:244-248 | a type is a subway station when its first three levels are the subway-station code |
| Classif.CategoryTests | generator/osm2type.cpp:235-248 | `IsHighway` compares the first level, `IsRwSubway` the first three levels, and a subway type is never the plain station type |
| Features.RemoveAll | generator/osm2type.cpp:390 | removing a type keeps exactly the other types |
| Features.Dedup | generator/osm2type.cpp:466 | de-duplication leaves no repeats and keeps the same set of types |
| Features.SetRwSubwayType | generator/osm2type.cpp:432-459 | the type rewrite the subway and railway callbacks call: the first type whose first two levels are the railway station becomes the city's subway-station type; `SetRwSubwayTypeAt`, `SetRwSubwayTypeNone` and `SetRwSubwayTypeEach` state it |
| Features.SetRwSubwayTypeAt | generator/osm2type.cpp:432-459 | `SetRwSubwayType` replaces the first type that is the station type or below it by the city's subway-station type, and leaves every other position alone |
| Features.SetRwSubwayTypeNone | generator/osm2type.cpp:432-459 | without a station type, `SetRwSubwayType` changes nothing |
| Features.SetRwSubwayTypeEach | generator/osm2type.cpp:432-459 | after `SetRwSubwayType` the list is as long as before, and each type is unchanged or was a station type and is now the city's type |
| Features.FeatureParams.AddType | generator/osm2type.cpp:313-314 | a type is appended |
| Features.FeatureParams.PopExactType | generator/osm2type.cpp:390 | every copy of the type is removed, and the result says whether no type is left |
| Features.FeatureParams.AddName | generator/osm2type.cpp:144 | the name for the language is set |
| Features.FeatureParams.ClearName | generator/osm2type.cpp:392 | all names are dropped |
| Features.FeatureParams.FinishAddingTypes | generator/osm2type.cpp:466 | the types become their de-duplicated list |
| OsmElements.OsmElement.AddTag | generator/osm2type.cpp:333-334 | the tag is appended to the element |
| Rules.IsNegative | generator/osm2type.cpp:164-170 | the negative values of the rule engine: "no", "none" and "false" |
| Rules.Takes | generator/osm2type.cpp:186-194 | a rule's value pattern takes a value: "*" any, "!" a negative one, "~" any other, and every pattern its own literal text |
| Rules.Fires | generator/osm2type.cpp:184-195 | a rule fires on a tag when the keys are equal and its pattern takes the value |
| Rules.FiresCases | generator/osm2type.cpp:164-194 | when a rule fires: "*" on any value, "!" on "no"/"none"/"false" or "!", "~" on any other value, and a plain pattern on itself only |
| Rules.ConsumedNeverFires | generator/osm2type.cpp:184-185 | a cleared tag never fires a rule with a key |
| Rules.Step | generator/osm2type.cpp:184-195 | one rule on one tag: the callback's effect on the tag and the state when the rule fires, nothing otherwise |
| Rules.ApplyToTag | generator/osm2type.cpp:182-196 | the inner loop of `ApplyRules`: every rule of the table in order on one tag, each seeing the tag and the state as the earlier rules left them; its laws are `ApplyToTagSplit`, `NoneFires`, `OnlyOneFires` and the invariant lemmas |
| Rules.RunRules | generator/osm2type.cpp:180-197 | running a table leaves as many tags as there were |
| Rules.ApplyRules | generator/osm2type.cpp:178-198 | `ApplyRules` rewrites the tags and the callbacks' state as the table run specifies, each rule seeing the tag as the earlier rules left it |
| Rules.RunRulesAt | generator/osm2type.cpp:180-197 | each tag's outcome is the table applied to that tag in the state the earlier tags left |
| Rules.NoneFires | generator/osm2type.cpp:182-196 | a tag no rule fires on is left alone |
| Rules.ApplyToTagSplit | generator/osm2type.cpp:182-196 | a table can be run in two parts on a tag |
| Rules.OnlyOneFires | generator/osm2type.cpp:182-196 | when exactly one rule fires on a tag and nothing fires after it, the outcome is that rule's callback |
| Rules.RunRulesSplit | generator/osm2type.cpp:180-197 | a table can be run over the tags in two parts |
| Rules.RunRulesInvariant | generator/osm2type.cpp:180-197 | a property of the state that every firing callback keeps holds after the run |
| Rules.ApplyToTagInvariant | generator/osm2type.cpp:182-196 | the same for one tag |
| Rules.RunRulesKeepsTags | generator/osm2type.cpp:201 | callbacks that do not touch the tag leave the tags unchanged |
| Rules.ApplyToTagKeepsTag | generator/osm2type.cpp:201 | the same for one tag |
| Rules.RunRulesStable | generator/osm2type.cpp:180-197 | a state property kept by every callback that can fire on the element's tags holds after the run |
| Rules.ApplyToTagStable | generator/osm2type.cpp:182-196 | the same for one tag |
| RuleTables.PreRules | generator/osm2type.cpp:326-331 | the first table: bridge=yes, tunnel=yes, and a layer tag with any value |
| RuleTables.PreEffect | generator/osm2type.cpp:328-330 | the first table's callbacks: bridge=yes chooses layer "1", tunnel=yes chooses "-1", and any layer tag notes that a layer exists; none touches the tag |
| RuleTables.PreRulesOnTag | generator/osm2type.cpp:326-331 | the first table notes a layer tag and sets the layer to "1" for bridge=yes and to "-1" for tunnel=yes |
| RuleTables.PreEffectKeepsTags | generator/osm2type.cpp:326-331 | the first table's callbacks do not touch tags |
| RuleTables.PreScanHasLayer | generator/osm2type.cpp:330 | `hasLayer` is set exactly when some tag has the key `layer` |
| RuleTables.PreScanLayer | generator/osm2type.cpp:328-329 | a layer value is chosen exactly when some tag is bridge=yes or tunnel=yes |
| RuleTables.PreScanLast | generator/osm2type.cpp:328-329 | the last bridge=yes or tunnel=yes tag decides the layer: "1" for a bridge, "-1" for a tunnel |
| RuleTables.LastBridgeOrTunnelExists | generator/osm2type.cpp:328-329 | when some tag is bridge=yes or tunnel=yes, one of them is the last |
| RuleTables.PreScan | generator/osm2type.cpp:326-331 | the first table leaves the tags alone; `hasLayer` says some tag is a layer tag; a layer value is chosen exactly when some tag is a bridge or tunnel, and it is the one the last such tag calls for |
| RuleTables.BaseRules | generator/osm2type.cpp:340-379 | the base table: the three relabellings, the address fields, the house number, population, `ref` and `layer` |
| RuleTables.BaseEffect | generator/osm2type.cpp:342-378 | each base callback: a swap and relabel, a stored field and a cleared tag, the population rank, or the layer read once, converted to `int8_t` and clamped |
| RuleTables.BaseRulesOnTag | generator/osm2type.cpp:340-379 | the base table's effect on one tag, key by key, including the keys it leaves alone |
| RuleTables.BaseRelabels | generator/osm2type.cpp:342-344 | atm=yes and restaurant=yes become amenity=..., and hotel=yes becomes tourism=hotel |
| RuleTables.BaseAddressFields | generator/osm2type.cpp:345-347 | house name, street and flats are stored and their tags cleared |
| RuleTables.BaseNumbers | generator/osm2type.cpp:348-368 | a house number is stored as a number or as a house name; a numeric population sets the rank; `ref` is stored; each tag is cleared |
| RuleTables.BaseRulesConsume | generator/osm2type.cpp:345-369 | every consumed key's tag is cleared, a layer tag stays, and no consumed key survives |
| RuleTables.BaseRulesLayer | generator/osm2type.cpp:372-376 | the layer stays within [-10, 10] and is set only while it is 0 |
| RuleTables.BaseRulesFrame | generator/osm2type.cpp:340-379 | the base table changes neither the types, the names nor the reverse flag |
| RuleTables.HighwayRules | generator/osm2type.cpp:409-423 | the highway table: the three oneway rules, access=private, lit, the two foot rules and sidewalk |
| RuleTables.SubwayRules | generator/osm2type.cpp:430-450 | the subway table: fourteen network or operator names, each with its city |
| RuleTables.RailwayRules | generator/osm2type.cpp:457-460 | the railway table: London Underground only |
| RuleTables.PostEffect | generator/osm2type.cpp:411-459 | each post-match callback: add a cached type, add the one-way type and set the reverse flag, or `SetRwSubwayType` with a city |
| RuleTables.PostEffKeepsTags | generator/osm2type.cpp:408-463 | the post-match callbacks do not touch tags |
| RuleTables.EvolvesTrans | generator/osm2type.cpp:405-464 | the way the callbacks change the type list composes over several callbacks |
| RuleTables.EvolvesKeeps | generator/osm2type.cpp:405-464 | a type that is not a station type stays in its place |
| RuleTables.PostEffectEvolves | generator/osm2type.cpp:411-459 | one callback keeps every type in its place but may turn a station type into a city's subway-station type, appends at the end, never clears the reverse flag, and changes nothing else |
| RuleTables.PostRulesFrame | generator/osm2type.cpp:408-463 | a post-match table keeps the tags, keeps every type in its place but for station types turned into a city's subway-station type, appends other types only at the end, never clears the reverse flag, and changes nothing else |
| RuleTables.HighwayNoCity | generator/osm2type.cpp:409-423 | no highway rule calls `SetRwSubwayType` |
| RuleTables.PostTablesKnownCities | generator/osm2type.cpp:409-460 | every `SetRwSubwayType` call in the three tables names one of the eleven cities |
| RuleTables.SubwayKnownCities | generator/osm2type.cpp:430-450 | every subway rule calls `SetRwSubwayType` with one of the eleven cities |
| RuleTables.HighwayReverseNeedsMinusOne | generator/osm2type.cpp:413 | the highway table sets the reverse flag only for a oneway=-1 tag |
| RuleTables.HighwayMinusOneSetsReverse | generator/osm2type.cpp:413 | a oneway=-1 tag always sets the reverse flag and adds the one-way type |
| RuleTables.HighwayMinusOneTag | generator/osm2type.cpp:411-413 | the highway table on oneway=-1 adds exactly the one-way type and the reverse flag |
| RuleTables.FootNoFiresDespiteIgnore | generator/osm2type.cpp:419 | foot=no is ignored by `ForEachTag`, yet the "!" rule adds the no-foot type |
| RuleTables.FootBangFiresBoth | generator/osm2type.cpp:419-421 | the value "!" fires both foot rules |
| RuleTables.SubwayLondon | generator/osm2type.cpp:432 | network=London Underground turns the first station type into London's subway-station type and changes nothing else |
| Names.IsNameTag | generator/osm2type.cpp:133-136 | a tag is a name tag when `ForEachTag` offers it, its value is non-empty and its key names a language |
| Names.LangOfKey | generator/osm2type.cpp:109-130 | a key's language, when it has one, is a non-empty single token and never "ar1" |
| Names.LangOfPlainName | generator/osm2type.cpp:122-123 | `name` is the default language |
| Names.LangOfSuffixedName | generator/osm2type.cpp:122-123 | `name:<lang>` names the language `<lang>`, for every non-empty `<lang>` without a delimiter other than "ar1" |
| Names.LangOfArabicName | generator/osm2type.cpp:126-127 | `name:ar1` is read as Arabic |
| Names.LangOfIntName | generator/osm2type.cpp:116-117 | `int_name` is a language of its own |
| Names.LangOfOtherKey | generator/osm2type.cpp:119-120 | a key names no language exactly when it has no token or its first token is neither `name` nor `int_name` |
| Names.SuffixedTokens | generator/osm2type.cpp:111 | `name:<lang>` splits into `name` and the language |
| Names.ExtractNamesSpec | generator/osm2type.cpp:133-148 | the pass keeps the number of tags |
| Names.ExtractNames | generator/osm2type.cpp:133-148 | the pass over the element does what the specification function says to the tags and the names |
| Names.ExtractNamesNext | generator/osm2type.cpp:133-148 | one more tag: a name tag of a new language is cleared and its normalised value stored; any other tag is kept |
| Names.ExtractNamesSaved | generator/osm2type.cpp:103-130 | the saved languages are exactly those some name tag names |
| Names.ExtractNamesClears | generator/osm2type.cpp:145-146 | exactly the first name tag of each language is cleared |
| Names.ExtractNamesLanguages | generator/osm2type.cpp:144 | the names' languages are the earlier ones plus those the tags name |
| Names.ExtractNamesFirstWins | generator/osm2type.cpp:129-130 | each language's name is the normalised value of its first tag |
| Names.ExtractNamesKeepsOthers | generator/osm2type.cpp:144 | names in languages no tag names are kept |
| Names.LoneNameTaken | generator/osm2type.cpp:133-148 | a single name tag is cleared and stored |
| Names.SecondNameKept | generator/osm2type.cpp:129-137 | a second tag of the same language is neither stored nor cleared |
| Names.EnglishNameTag | generator/osm2type.cpp:133-136 | name:en with a non-empty value that is not "no", "false" or "-1" is a name tag of English |
| Matching.ProbeTag | generator/osm2type.cpp:256-268 | the key probe finds the key's child and then, if the value needs matching, the value's child; the value probe finds the value's child of the current node; results are paths named by the tag |
| Matching.NameIdsNext | generator/osm2type.cpp:89-93 | tags whose key contains "name" are the ones marked as skipped |
| Matching.IsNameKey | generator/osm2type.cpp:89 | the test `ForEachTagEx` uses to skip a tag: its key contains "name" |
| Matching.FirstHitFrom | generator/osm2type.cpp:80-99 | the id where `ForEachTagEx` stops, searching from a given id on: at or after it, not skipped, not a name key, and accepted by the callback |
| Matching.FirstHitFromNone | generator/osm2type.cpp:80-99 | the search finds nothing exactly when every tag from the start id on is skipped, has a name key or is refused |
| Matching.FirstHitFromHit | generator/osm2type.cpp:80-99 | the first qualifying tag is what the search from any earlier id finds |
| Matching.SkipAfter | generator/osm2type.cpp:86-96 | the skip set one `ForEachTagEx` call leaves; `SkipAfterMeaning` states it |
| Matching.SkipAfterMeaning | generator/osm2type.cpp:86-96 | the skip set only grows; it gains the tag the call stopped at and every name-key id passed before it (all of them when nothing was found), and nothing else |
| Matching.VisibleNext | generator/osm2type.cpp:83-86 | ids advance by one per offered tag |
| Matching.ForEachTagEx | generator/osm2type.cpp:80-99 | skipped ids are not offered; name keys are marked; the first tag the callback accepts is returned and marked; the stopping id is `FirstHitFrom` from id 0, and the new skip set is the old one plus the name-key ids passed and the hit (`SkipAfter`) |
| Matching.StuckAfterBoth | generator/osm2type.cpp:288-304 | when the value probe and then the key probe both find nothing, no available tag leads further down from the current node |
| Matching.Descend | generator/osm2type.cpp:282-306 | the inner loop as a function: the value of the first available tag first, the key of the first available tag as the fallback, until neither names a child; the path and the skip set only grow, and the skip set only by ids of the visible tags |
| Matching.DescendByValue | generator/osm2type.cpp:288-299 | when a tag's value names a child of the last node, the descent goes on from the path extended by that child |
| Matching.DescendByKey | generator/osm2type.cpp:300-304 | when no value but a tag's key names a child, the descent goes on from the path extended by what that tag names |
| Matching.DescendStops | generator/osm2type.cpp:300-304 | when neither search finds a tag, the descent ends with the path as it is and both searches' marks |
| Matching.DescendStuck | generator/osm2type.cpp:282-306 | the descent only extends the path and the skip set, and ends where no available tag names a child of the last node, by value or by key |
| Matching.ProbeStep | generator/osm2type.cpp:288-303 | one `ForEachTagEx` call of the inner loop finds a tag exactly when `FirstHitFrom` does, appends what that tag names, and leaves the skip set `SkipAfter` gives; every newly skipped id is the tag used or a name key |
| Matching.DescendStep | generator/osm2type.cpp:282-305 | one pass of the inner loop, value first and key as the fallback: it stops exactly where `Descend` stops, and otherwise `Descend` from the new state equals `Descend` from the old one and one more tag is marked |
| Matching.ExtendPath | generator/osm2type.cpp:282-306 | the inner loop's final path and skip set are what `Descend` gives from its start: value first, key as the fallback, each time the first available tag; it keeps the path a chain from the root named by the tags it used; every newly skipped id is a tag it used or has a name key; it stops only where no available tag names a child of the last node, by value or by key |
| Matching.TypeOfPath | generator/osm2type.cpp:309-311 | the computed code is the path's code |
| Matching.WalkRoundFacts | generator/osm2type.cpp:273-306 | a round's path begins with what the first tag's key names at the root, marks that tag, and ends where no available tag leads further down |
| Matching.WalkRound | generator/osm2type.cpp:273-306 | one outer round: the first available tag whose key names a root child, then `Descend` from what it names, giving the round's path and its next skip set |
| Matching.MatchPath | generator/osm2type.cpp:273-306 | either no available tag's key names a root child, the skip set gains only the name-key ids and the walk stops; or the path and skip set are the `WalkRound` from the first such tag (the root child it names, then `Descend`); its tags were unused and are now marked, and every other newly skipped id has a name key |
| Matching.WalkRounds | generator/osm2type.cpp:272-317 | every recorded round i went from skip set i to skip set i + 1 as `WalkRound` says, starting at tag i |
| Matching.Walk | generator/osm2type.cpp:272-317 | the whole outer loop: the rounds as `WalkRounds`, starting from an empty skip set, and at the end no available tag's key names a root child |
| Matching.WalkAppend | generator/osm2type.cpp:272-317 | a new round extends the recorded walk |
| Matching.ProgressStep | generator/osm2type.cpp:272-317 | a round that found a path keeps the loop's bookkeeping and marks at least one more tag |
| Matching.ProgressDone | generator/osm2type.cpp:272-317 | when no round finds a path, the bookkeeping gives the whole walk, the added types and the disjoint tag sets |
| Matching.RecordPath | generator/osm2type.cpp:308-315 | the path's code is appended when drawable, the loop's bookkeeping holds for one more round, and one more tag is marked |
| Matching.MatchRound | generator/osm2type.cpp:274-315 | one outer round: no path and no change, or a path whose drawable code is appended and one more tag is marked |
| Matching.MatchTypes | generator/osm2type.cpp:251-318 | the types gain exactly the drawable codes of the paths found; each round starts from the first available tag whose key names a root child, and its path and next skip set are what `Descend` gives (value first, key as the fallback, the first available tag each time); the paths use disjoint sets of tags, so there are at most as many as tags; the walk ends when no unused tag's key names a root child |
| Matching.DrawableCodes | generator/osm2type.cpp:309-315 | the codes `MatchTypes` adds, in path order, only for drawable paths; `DrawableCodesBound` and `DrawableCodesValid` state it |
| Matching.DrawableCodesBound | generator/osm2type.cpp:313-314 | only drawable codes are added, at most one per path |
| Matching.DrawableCodesValid | generator/osm2type.cpp:309-314 | every added code names a node of the classificator |
| Matching.DisjointCount | generator/osm2type.cpp:280 | non-empty disjoint sets of tag ids number at most the tags |
| Matching.PathCount | generator/osm2type.cpp:273-318 | the walk finds at most one path per offered tag |
| Matching.IdRangeShrinks | generator/osm2type.cpp:273-318 | each found path marks a new tag, so the walk ends |
| Osm2Type.WithLayer | generator/osm2type.cpp:326-334 | the tags after the first stage: a layer tag is appended when there is none and the scan chose a value |
| Osm2Type.WithLayerMeaning | generator/osm2type.cpp:323-334 | a layer tag is appended exactly when a bridge or tunnel has no layer tag; its value is "1" when the last bridge-or-tunnel tag is bridge=yes and "-1" when it is tunnel=yes; nothing else changes |
| Osm2Type.AddLayerTag | generator/osm2type.cpp:323-334 | the element's tags become those with the layer tag added |
| Osm2Type.ApplyBaseRules | generator/osm2type.cpp:340-379 | the base table runs over the element and the record |
| Osm2Type.EntranceFixed | generator/osm2type.cpp:386-397 | without a house number nothing changes; with one, the entrance type goes and some type is left: the other types if there were any, otherwise the address type alone with the names dropped; only the types and names can change |
| Osm2Type.FixEntrance | generator/osm2type.cpp:386-397 | the record becomes the one the entrance rule gives |
| Osm2Type.HighwayStep | generator/osm2type.cpp:407-426 | the highway gate: at a highway type with the highway flag down, the highway table runs and the flag goes up |
| Osm2Type.SubwayStep | generator/osm2type.cpp:428-453 | the subway gate: at a subway type with the subway flag down, the subway table runs and the flag goes up |
| Osm2Type.RailwayStep | generator/osm2type.cpp:455-463 | the railway gate: at a station type with both the subway and the railway flags down, the railway table runs and the railway flag goes up |
| Osm2Type.NewRounds | generator/osm2type.cpp:405-463 | the tables one type of the copy adds, given the flags before it, in the order of the three gates; a type that is a subway type adds no railway table, since the subway gate has just raised its flag; `NewRoundsOnce` and `RoundsListStep` state it |
| Osm2Type.TableOf | generator/osm2type.cpp:407-463 | the table each gate runs: the highway, subway or railway table |
| Osm2Type.Rounds | generator/osm2type.cpp:399-464 | the tables the loop over the copied types runs, in order, and the final done flags |
| Osm2Type.RoundsNext | generator/osm2type.cpp:405-464 | one step of the loop over the copied types |
| Osm2Type.GatesStep | generator/osm2type.cpp:405-464 | each done flag goes up when its table runs; the railway flag needs a station with no subway type so far |
| Osm2Type.RoundsListStep | generator/osm2type.cpp:405-464 | one step appends the tables it runs |
| Osm2Type.NewRoundsOnce | generator/osm2type.cpp:405-464 | a step runs each table at most once, only while its flag is down, and never the railway table after the subway one |
| Osm2Type.RoundsFlags | generator/osm2type.cpp:399-464 | after the loop the highway flag says some type is a highway, the subway flag some type is a subway station, and the railway flag some station comes with no subway type at or before it |
| Osm2Type.StationStep | generator/osm2type.cpp:455 | the railway condition after one more type |
| Osm2Type.RoundsHas | generator/osm2type.cpp:399-464 | a table has run exactly when its flag is up |
| Osm2Type.RoundsOnce | generator/osm2type.cpp:399-464 | no table runs twice, and the railway table never runs after the subway table |
| Osm2Type.RoundsRun | generator/osm2type.cpp:399-464 | which tables run: highway iff a highway type, subway iff a subway type, railway iff a station with no subway type at or before it |
| Osm2Type.RunRounds | generator/osm2type.cpp:405-464 | the record after the chosen tables, each run over the same tags |
| Osm2Type.HighwayKinds | generator/osm2type.cpp:409-423 | the highway table adds only the one-way, private, lit, no-foot and yes-foot types |
| Osm2Type.CityActions | generator/osm2type.cpp:428-461 | the subway and railway tables only call `SetRwSubwayType`, each with one of the eleven cities |
| Osm2Type.CityTableQuiet | generator/osm2type.cpp:430-460 | a subway or railway rule fires only on a tag some subway rule names |
| Osm2Type.PostEffectTypes | generator/osm2type.cpp:411-459 | a callback brings only the cached type it adds, the one-way type, or its city's subway-station type |
| Osm2Type.HighwayStepTypes | generator/osm2type.cpp:409-423 | a highway callback brings only a highway callback's kind of type |
| Osm2Type.CityStepTypes | generator/osm2type.cpp:430-460 | a subway or railway callback brings only a city's subway-station type |
| Osm2Type.PostStepTypes | generator/osm2type.cpp:409-460 | one callback of a table brings only that table's kind of type |
| Osm2Type.TableTypes | generator/osm2type.cpp:408-463 | the highway table brings only the highway callbacks' types, and the subway and railway tables only the cities' subway-station types |
| Osm2Type.TableGrows | generator/osm2type.cpp:408-463 | a table keeps every type in its place but for station types turned into a city's subway-station type, and never clears the reverse flag |
| Osm2Type.TableFlags | generator/osm2type.cpp:408-463 | the highway table only appends types; the other tables keep the number of types and the reverse flag, and change nothing without a tag they name |
| Osm2Type.CityRoundKeeps | generator/osm2type.cpp:428-463 | the subway and railway tables keep the number of types and the reverse flag |
| Osm2Type.CityRoundQuiet | generator/osm2type.cpp:428-463 | without a tag the subway table names, the subway and railway tables change nothing |
| Osm2Type.RunRoundsFrame | generator/osm2type.cpp:399-464 | the tables keep every type in its place but for station types turned into a city's subway-station type, bring only the highway callbacks' types and the cities' subway-station types, never clear the reverse flag, and change nothing else |
| Osm2Type.RunRoundsReverseNeeds | generator/osm2type.cpp:406-413 | the reverse flag is set only by the highway table on a oneway=-1 tag |
| Osm2Type.RunRoundsReverseSet | generator/osm2type.cpp:406-413 | the highway table on a oneway=-1 tag always sets the reverse flag and adds the one-way type, which stays when the codes are well formed |
| Osm2Type.RunRoundsNoCity | generator/osm2type.cpp:405-464 | without a subway or railway round, or without a tag the subway table names, the tables only append the highway callbacks' types |
| Osm2Type.RunPostTable | generator/osm2type.cpp:408-461 | one table runs over the element, leaving the tags alone |
| Osm2Type.PostMatchStep | generator/osm2type.cpp:407-463 | one step of the loop: the three tests on one type, each running its table when it opens |
| Osm2Type.PostMatch | generator/osm2type.cpp:399-464 | the loop over the copied types runs the tables the copy calls for, in order, with the record's new state as the specification says |
| Osm2Type.AfterMatch | generator/osm2type.cpp:386-466 | the entrance rule, the tables the resulting types call for, and the de-duplication |
| Osm2Type.AfterMatchTypes | generator/osm2type.cpp:386-466 | after the walk: no repeated types; the only new types are the address type, the highway callbacks' types and the cities' subway-station types; a house number leaves some type, and with well-formed codes no entrance type |
| Osm2Type.AfterMatchFlags | generator/osm2type.cpp:399-464 | after the walk the reverse flag is kept, and is newly set only with a oneway=-1 tag, with the one-way type when the codes are well formed |
| Osm2Type.AfterMatchCity | generator/osm2type.cpp:405-464 | without a tag the subway table names, or with well-formed codes and no subway or station type, no city's subway-station type appears |
| Osm2Type.NoCityRounds | generator/osm2type.cpp:428-455 | with well-formed codes and no subway or station type, neither the subway nor the railway table runs |
| Osm2Type.AfterMatchFrame | generator/osm2type.cpp:386-466 | after the walk the names are kept or, with a house number, cleared; address fields, rank and layer are kept |
| Osm2Type.WithLayerNames | generator/osm2type.cpp:323-337 | the added layer tag names no language |
| Osm2Type.LayerTagNoName | generator/osm2type.cpp:109-120 | a tag with the key `layer` is no name tag |
| Osm2Type.LayerTagSurvives | generator/osm2type.cpp:333-379 | the added layer tag is neither taken as a name nor cleared by the base table |
| Osm2Type.PipelineFacts | generator/osm2type.cpp:320-467 | the whole pipeline's promises on the records between the stages, as listed for `GetNameAndType` |
| Osm2Type.BeforeWalk | generator/osm2type.cpp:322-379 | the layer tag, the names and the base table, in that order |
| Osm2Type.AfterWalk | generator/osm2type.cpp:384-466 | the entrance rule, the post-match tables and the de-duplication, in that order |
| Osm2Type.GetNameAndType | generator/osm2type.cpp:320-471 | the element gains one tag exactly when a bridge or tunnel had no layer, and that tag is the layer the last bridge or tunnel calls for; each round of the recorded walk starts from the first available tag whose key names a root child and descends as `Descend` gives, value first and key as the fallback, until it is stuck, and the walk ends when no unused tag's key names a root child; the types have no repeats; each type was there before, is a drawable valid code of a walked path, the address type, a highway callback's type or a city's subway-station type; without a tag the subway table names, no city type comes; a house number leaves some type and no entrance type; a layer that started within [-10, 10] stays there, and a non-zero layer is kept; the names come from earlier names or name tags; the reverse flag is kept, and is newly set only with a oneway=-1 tag |

## Left out

- Unicode NFKC normalisation (lines 140-143) is a parameter `normalize`. Qt's normaliser is not part of this model.
- The population rank, `log(n) / log(1.1)` truncated to a byte (line 360), is a parameter `populationRank`. Floating point is not modelled.
- `IsHouseNumber`, the check behind `AddHouseNumber`, is a parameter. Its source is not part of this model.
- `feature::IsDrawableAny` (line 314) is a parameter `isDrawable`. The drawing rules are not part of this model.
- `ClassifObject::BinaryFind` is a linear search with the same result. The model does not rely on the children being sorted.
- Type codes are sequences of level indices, not the 32-bit packed layout of the type-code encoding. Level width and the depth limit are not modelled.
- Classif.TruncValue: truncation is stated on the level sequence and not as a bit mask.
- `CachedTypes` (lines 206-249) takes its ten codes, and the subway-station type of each city, as given values. `GetTypeByPath` over the real classificator is not modelled, nor its check that a path exists; `WellFormed` states only the depths those paths have and that the two-level codes differ.
- `FeatureParams` comes from another file, which is not part of this model. Its members are modelled from their use here. `PopExactType` removes every copy of the type and reports whether no type is left. `AddHouseName` and `AddStreetAddress` store their value.
- Features.FeatureParams.FinishAddingTypes: the source's version, in that other file, sorts the types, removes repeats and keeps at most `max_types_count` of them. The model keeps each type's first occurrence in its original order, with no sort and no cap, so it states no order and no bound on the final list.
- `SetRwSubwayType` is defined in that other file too. The model replaces the first type whose first two levels are the railway station by the city's railway-station-subway type, and stops there.
- Features.FeatureParams.Load: copies a whole record into the object. It has no counterpart in the source: the base rules and the post-match loop work on a copy of the record, which is stored once at the end, where the source's callbacks write to the record directly.
- The layer field is an unbounded integer; the `int8_t` conversion is applied where `atoi`'s result is stored (line 374). `atoi` overflow, which is undefined in C, is not modelled.
- `OsmElement::AddTag` appends the tag. Its own checks, in another file, are not part of this model.
- `ForEachTag`'s early stop on a true result is not modelled separately: it is part of `ForEachTagEx`, and `ExtractNames` never stops.
- `MetadataTagProcessor` (line 470) is left out; metadata extraction is another component.
- The `CHECK(!path.empty())` at line 280 is not an error path in the model: a path found by the root probe is never empty, and `MatchPath` proves it.
- Nothing in `openlr/` or `routing/` is modelled.
