# BAY encyclopedia translation pipeline, modelled in Dafny

BAY's back end serves an encyclopedia of plants, essential oils and basic oils.
Every translatable field of a stored document is a language wrapper
`{nl, en, sv}`. When an item is requested in a language, the detail route
runs a fixed sequence:

1. It picks the document's source language.
2. It projects the document onto that language (`extractValues`).
3. It sends every string of the projection to a remote translator in one newline-joined request (`translateJson`).
4. It re-wraps the reply under the requested language (`assignTranslatedValues`).
5. It deep-merges the result into the document (`mergeObject`) and saves it.
6. It answers with the two-pane presentation shape `{id, name, scientificName, img, description, isPremium, data: [left, right]}` (`transformItem`).

The import route normalises a bulk upload in two steps: a first-id-wins
filter, then `transformData`, which wraps the flat import format into language
wrappers.

This project models that core on JSON-like trees and proves what each step
promises. The modules are:

- `Wrappers`: Option, and a Result that carries an `Error`.
- `Json`: the value datatype and JavaScript property semantics.
  - `Props` is the enumeration order of `for...in` and `Object.entries`.
  - `Get` and `Field` read a property; `Put` and `Set` write one.
  - `Truthy` is JavaScript truthiness.
- `Languages`: `src/types/languages.ts`.
- `EncyclopediaHelpers`: `src/utils/encyclopedia_helper_functions.ts`.
- `Translate`: `src/utils/translate.ts`. The remote translator is a function
  parameter `(text, target) -> Option<string>`.
- `Transform`: `src/utils/transform.ts`.
- `Encyclopedia`: `src/routes/encyclopedia.ts`. It holds:
  - the category check;
  - `getSourceLang`;
  - the dedup filter and `transformData`;
  - the refresh pipeline, as a class `Item` whose `Detail` method changes the document in memory and the stored copy.

Loops of the source become `method`s with `while` loops. Each is proved
equal to a specification function, and the properties are proved about those
functions. Two cases:

- An exception is a `Failure` with the error kind: `TypeError` for a read through null or undefined, `NotAnObject`, `TranslationFailed`, `LineMismatch`.
- `undefined` is `None` wherever a property is read.

## Model

| member | source | states |
|---|---|---|
| Languages.Tag | src/types/languages.ts:1 | each language's tag is two lower-case letters |
| Languages.TagInjective | src/types/languages.ts:1 | distinct languages have distinct tags |
| Languages.LanguageOfTag | src/types/languages.ts:2 | every supported tag names the language it is the tag of |
| Languages.SupportedIsTagged | src/types/languages.ts:2 | a key is in `SUPPORTED_LANGUAGES` exactly when it is the tag of a language |
| Languages.MatchingCodes | src/types/languages.ts:12 | the filter keeps exactly the table keys equal to the code |
| Languages.TranslateCodeToLang | src/types/languages.ts:11-13 | Dutch exactly for "nl", Swedish exactly for "se", English for every other code |
| Languages.CodeTable | src/types/languages.ts:4-13 | nl→nl, com→en, en→en, se→sv; "sv", "NL" and "" fall back to en |
| Languages.ResolvedIsSupported | src/types/languages.ts:1-13 | every resolved language is one of `SUPPORTED_LANGUAGES` |
| Languages.RequestLanguage | src/routes/encyclopedia.ts:69-71 | an absent or empty `language` query means Dutch; any other is resolved by the code table |
| EncyclopediaHelpers.FirstSupported | src/utils/encyclopedia_helper_functions.ts:12-19 | the subkey loop stops at the first supported-language key, and none comes before it |
| EncyclopediaHelpers.Attach | src/utils/encyclopedia_helper_functions.ts:16-17 | `if (!json) json = {}; json[key] = v` always leaves a non-empty object |
| EncyclopediaHelpers.Extraction | src/utils/encyclopedia_helper_functions.ts:3-32 | extractValues returns null or a non-empty object |
| EncyclopediaHelpers.ExtractFrom | src/utils/encyclopedia_helper_functions.ts:8-29 | the outer loop keeps the accumulator null or a non-empty object |
| EncyclopediaHelpers.ExtractValues | src/utils/encyclopedia_helper_functions.ts:3-32 | the loop computes the projection `Extraction` |
| EncyclopediaHelpers.ScanSubkeys | src/utils/encyclopedia_helper_functions.ts:12-27 | the subkey loop, with its `break`, computes one field's contribution |
| EncyclopediaHelpers.NestedStepTwice | src/utils/encyclopedia_helper_functions.ts:21-24 | storing the same nested projection again, once per non-language subkey, changes nothing |
| EncyclopediaHelpers.ExtractFieldGet | src/utils/encyclopedia_helper_functions.ts:8-28 | one outer iteration writes only its own key, and writes that field's contribution when there is one |
| EncyclopediaHelpers.ExtractionField | src/utils/encyclopedia_helper_functions.ts:3-32 | each key of the projection holds exactly that field's contribution |
| EncyclopediaHelpers.ExtractionOutsideProps | src/utils/encyclopedia_helper_functions.ts:8-29 | the projection's keys are a subset of the document's keys |
| EncyclopediaHelpers.ExtractionSkips | src/utils/encyclopedia_helper_functions.ts:9-10 | `_id`, `__v`, Buffer fields and scalar fields never appear in the projection |
| EncyclopediaHelpers.ExtractionOfWrapper | src/utils/encyclopedia_helper_functions.ts:14-19 | a language wrapper contributes `field[lang]` exactly when it is a string (empty included) or a non-empty array, and is absent otherwise |
| EncyclopediaHelpers.ExtractionWellFormed | src/utils/encyclopedia_helper_functions.ts:3-32 | the projection of a document with distinct keys has distinct keys at every level |
| EncyclopediaHelpers.Assignment | src/utils/encyclopedia_helper_functions.ts:34-55 | assignTranslatedValues always returns a plain object |
| EncyclopediaHelpers.Wrap | src/utils/encyclopedia_helper_functions.ts:50-51 | `json[key] = json[key] \|\| {}; json[key][lang] = v` gives an object holding `v` under the tag |
| EncyclopediaHelpers.AssignTranslatedValues | src/utils/encyclopedia_helper_functions.ts:34-55 | the loop computes `Assignment` |
| EncyclopediaHelpers.AssignProperty | src/utils/encyclopedia_helper_functions.ts:37-52 | one iteration advances the loop by exactly one property |
| EncyclopediaHelpers.AssignStepGet | src/utils/encyclopedia_helper_functions.ts:38-52 | one iteration writes only its own key, with `{lang: v}` or the non-empty nested re-wrapping |
| EncyclopediaHelpers.AssignmentField | src/utils/encyclopedia_helper_functions.ts:36-53 | each key holds `{lang: v}` for an array or a primitive, and for an object its re-wrapping when that is non-empty |
| EncyclopediaHelpers.AssignmentOutsideProps | src/utils/encyclopedia_helper_functions.ts:36-53 | the re-wrapping has no key its input lacks |
| EncyclopediaHelpers.AssignmentLangLeaves | src/utils/encyclopedia_helper_functions.ts:36-53 | every leaf of any re-wrapping sits under the tag of `lang` |
| EncyclopediaHelpers.Merge | src/utils/encyclopedia_helper_functions.ts:57-68 | an empty merge succeeds unchanged; a non-empty merge into undefined or null throws |
| EncyclopediaHelpers.MergeObject | src/utils/encyclopedia_helper_functions.ts:57-68 | the loop computes `Merge`, including the partial state when it throws |
| EncyclopediaHelpers.EraseSetLang | src/utils/encyclopedia_helper_functions.ts:65 | writing a property named by the language tag is invisible once that tag is erased |
| EncyclopediaHelpers.StepKeepsOtherLanguages | src/utils/encyclopedia_helper_functions.ts:59-66 | one iteration over a re-wrapping touches only `lang` slots |
| EncyclopediaHelpers.MergeKeepsOtherLanguages | src/utils/encyclopedia_helper_functions.ts:57-67 | merging a value whose leaves are all under `lang` changes only `lang` slots, even when it throws part-way |
| EncyclopediaHelpers.WriteBackKeepsOtherLanguages | src/utils/encyclopedia_helper_functions.ts:34-67 | merging any re-wrapping under `lang` into a document leaves every other language and every non-language field as it was |
| EncyclopediaHelpers.StepShape | src/utils/encyclopedia_helper_functions.ts:59-66 | an iteration keeps objects objects and arrays arrays, and leaves scalars alone |
| EncyclopediaHelpers.MergeShape | src/utils/encyclopedia_helper_functions.ts:57-67 | the same holds for the whole merge, so the merged document stays defined |
| EncyclopediaHelpers.StepOtherKeys | src/utils/encyclopedia_helper_functions.ts:58-67 | an iteration leaves every other key unchanged |
| EncyclopediaHelpers.MergeOtherKeys | src/utils/encyclopedia_helper_functions.ts:57-67 | every key the merge value does not have is left unchanged |
| EncyclopediaHelpers.StepAgreeing | src/utils/encyclopedia_helper_functions.ts:59-66 | an iteration whose write is already in the destination changes nothing |
| EncyclopediaHelpers.MergeAgreeing | src/utils/encyclopedia_helper_functions.ts:57-67 | merging what the destination already holds succeeds and changes nothing |
| EncyclopediaHelpers.StepAgrees | src/utils/encyclopedia_helper_functions.ts:59-66 | after a successful iteration the destination holds what it merged |
| EncyclopediaHelpers.MergedAgrees | src/utils/encyclopedia_helper_functions.ts:57-67 | after a successful merge the destination holds every merged property |
| EncyclopediaHelpers.MergeIdempotent | src/utils/encyclopedia_helper_functions.ts:57-67 | merging the same value a second time changes nothing |
| EncyclopediaHelpers.AssignFromDistinct | src/utils/encyclopedia_helper_functions.ts:36-53 | the re-wrapping never repeats a key |
| EncyclopediaHelpers.ProjectionAgrees | src/utils/encyclopedia_helper_functions.ts:3-55 | the re-wrapping of a document's own projection is already in the document |
| EncyclopediaHelpers.ProjectedKey | src/utils/encyclopedia_helper_functions.ts:8-29 | every key of the projection is a document field, holding that field's contribution |
| EncyclopediaHelpers.RewrappedKey | src/utils/encyclopedia_helper_functions.ts:36-53 | every key of a re-wrapping is a key of its input |
| EncyclopediaHelpers.WriteBackOwnProjection | src/utils/encyclopedia_helper_functions.ts:3-67 | extracting `lang`, re-wrapping it and merging it back succeeds and changes nothing |
| Translate.SegmentAt | src/utils/translate.ts:14-19 | the segment pushed for a property reads back that property's name |
| Translate.Collector.constructor | src/utils/translate.ts:6-7 | collection starts with empty `strings` and `paths` |
| Translate.Collector.CollectStrings | src/utils/translate.ts:4-23 | appends `Leaves(obj)`, the collected leaves:  the node's strings depth-first (items in index order, entries in entry order), each with its absolute path; numbers, booleans and null add nothing |
| Translate.Collector.CollectChildren | src/utils/translate.ts:13-21 | the `forEach` appends the children's leaves in order, under the child's segment |
| Translate.TextsSplit | src/utils/translate.ts:14-19 | a child's strings come before those of later children |
| Translate.LocatedSplit | src/utils/translate.ts:14-19 | a child's paths are the parent path plus the child's segment |
| Translate.CollectAdvance | src/utils/translate.ts:14-19 | once one child has been collected, what is collected plus what remains to collect is unchanged |
| Translate.ChildGet | src/utils/translate.ts:34 | one walking step is the JavaScript property read on arrays and objects |
| Translate.LeavesAddressed | src/utils/translate.ts:10-21 | following `paths[i]` from the root reaches a string equal to `strings[i]` |
| Translate.LeavesParted | src/utils/translate.ts:13-21 | no collected path is a prefix of another, and no two are equal |
| Translate.SetKey | src/utils/translate.ts:37 | `current[lastKey] = x` succeeds on a plain object and on an existing array index, with JavaScript's assignment; on a primitive or null it is a TypeError, and every other write to an array, and any write to a Buffer, is `OutsideModel` |
| Translate.SetPath | src/utils/translate.ts:32-37 | a write at a path fails only with a TypeError or outside the model |
| Translate.WriteAt | src/utils/translate.ts:32-37 | the walk with a mutable `current` and the final assignment compute `SetPath` |
| Translate.SetTranslatedValues | src/utils/translate.ts:26-39 | the `forEach` over the paths computes the ordered writes `SetAll`, stopping at the first that throws |
| Translate.GetSetPath | src/utils/translate.ts:32-37 | after a write at a non-empty path, the path leads to the written value |
| Translate.SetPathElsewhere | src/utils/translate.ts:32-37 | a write changes nothing that a path parting from its own leads to |
| Translate.SetPathSame | src/utils/translate.ts:32-37 | writing back the value a path already leads to changes nothing |
| Translate.SetAllSame | src/utils/translate.ts:31-38 | writing each path's own string back is a no-op |
| Translate.SetAllStep | src/utils/translate.ts:31-38 | the first write's failure is the whole write-back's failure; otherwise the rest runs on its result |
| Translate.LeafPathsNonEmpty | src/utils/translate.ts:10-21 | below an object every collected path is non-empty |
| Translate.WriteBackCollected | src/utils/translate.ts:10-38 | writing the collected strings back at the collected paths is a no-op |
| Translate.Split | src/utils/translate.ts:109 | `split('\n')` always gives at least one piece |
| Translate.SplitCount | src/utils/translate.ts:109 | the split has one more piece than the text has newlines |
| Translate.SplitNone | src/utils/translate.ts:109 | a text without a newline splits into itself alone |
| Translate.SplitLine | src/utils/translate.ts:109 | the text before the first newline is the first piece, and the rest splits on its own |
| Translate.JoinNewlines | src/utils/translate.ts:103 | the join of n strings has at least n-1 newlines, and at least n when one string holds a newline |
| Translate.SplitJoin | src/utils/translate.ts:103-109 | splitting the join gives the strings back exactly when there is at least one and none contains a newline |
| Translate.JoinLines | src/utils/translate.ts:103-109 | joining newline-free strings and splitting again gives them back |
| Translate.SplitTooLong | src/utils/translate.ts:103-115 | a newline inside a collected string makes the line count too large |
| Translate.CloneIdentity | src/utils/translate.ts:92 | the JSON round-trip clone of a value without Buffers is that value |
| Translate.CloneWellFormed | src/utils/translate.ts:92 | the clone keeps distinct keys and holds no Buffer |
| Translate.TranslateJsonSpec | src/utils/translate.ts:86-89 | translateJson rejects exactly inputs that are not non-null objects |
| Translate.AllWrites | src/utils/translate.ts:118 | a write-back fails only with a TypeError or outside the model |
| Translate.SetAllErrors | src/utils/translate.ts:118 | every ordered write-back fails only with a TypeError or outside the model |
| Translate.TranslateJson | src/utils/translate.ts:86-121 | clone, collect, join, translate, split, count check and write-back compute `TranslateJsonSpec` |
| Translate.NothingToTranslate | src/utils/translate.ts:97-100 | with no strings the clone comes back, whatever the translator would answer |
| Translate.IdentityTranslator | src/utils/translate.ts:103-120 | an echoing translator succeeds exactly when no string holds a newline, and then returns the clone |
| Translate.GetSkeleton | src/utils/translate.ts:34 | a property read commutes with emptying every string |
| Translate.SetSkeleton | src/utils/translate.ts:37 | replacing a present property with a value of the same shape succeeds and keeps the shape |
| Translate.SkeletonPath | src/utils/translate.ts:32-35 | trees with the same skeleton have the same walkable paths |
| Translate.SetPathSkeleton | src/utils/translate.ts:32-37 | writing a string where a string is cannot fail and keeps the shape |
| Translate.SetAllShape | src/utils/translate.ts:31-38 | writing strings at paths to strings succeeds and keeps the shape |
| Translate.SetAllElsewhere | src/utils/translate.ts:31-38 | the write-back changes nothing that a path parting from all the written paths leads to |
| Translate.SetAllPlaced | src/utils/translate.ts:31-38 | when the paths part, each leads afterwards to the string written along it |
| Translate.TranslationResult | src/utils/translate.ts:86-121 | on a well-formed object it fails only when the translator fails or the line count differs; on success the result has the clone's shape and each collected path leads to its reply line |
| Translate.GetTranslatedValue | src/utils/translate.ts:123-127 | a null field throws a TypeError, and every other field can be read; the result is `field[lang]` when that is truthy, else `field.nl` (so `""` for `{en: "", nl: ""}` and undefined when neither is present); it is truthy exactly when one of the two is |
| Transform.EveryTextKeyAll | src/utils/transform.ts:38-41 | `every` holds exactly when each key passes the test |
| Transform.IsTranslatedTextSchema | src/utils/transform.ts:32-42 | true exactly for a non-null, non-array object with at least one key, each key 2–3 ASCII letters in any case and each value a string or an array |
| Transform.BufferIsNotText | src/utils/transform.ts:32-42 | a Buffer is never translated text |
| Transform.TextSchemaAccepts | src/utils/transform.ts:38-41 | a case-insensitive language object with a string and an array qualifies |
| Transform.TextSchemaRejects | src/utils/transform.ts:33-41 | an empty object, a non-language key, a number value, an array and null do not qualify |
| Transform.TranslatedFails | src/utils/transform.ts:44-64 | getTranslated (`GetTranslated`) throws, with a TypeError, exactly when a null is reachable through arrays |
| Transform.SplicedFails | src/utils/transform.ts:49-51 | the flat-map throws exactly when one item does |
| Transform.StringsUnchanged | src/utils/transform.ts:50 | string items are kept as they are |
| Transform.TranslatedText | src/utils/transform.ts:46-51 | strings and arrays of strings come back unchanged |
| Transform.ScalarTranslated | src/utils/transform.ts:63 | numbers and booleans translate to "" |
| Transform.SplicedPointwise | src/utils/transform.ts:49-51 | when no item translates to an array, the flat-map is the item-by-item translation |
| Transform.ObjectTranslated | src/utils/transform.ts:54-59 | an object gives `field[lang]`, else `field.nl`, else "" (getTranslatedValue with a final "") |
| Transform.TranslatedRead | src/utils/transform.ts:44-64 | an absent property translates to "" |
| Transform.MapTranslated | src/utils/transform.ts:91 | `map(getTranslated)` succeeds exactly when every item does, pointwise and of the same length |
| Transform.ItemsFail | src/utils/transform.ts:91 | every item translates exactly when no item has a reachable null |
| Transform.TranslateValue | src/utils/transform.ts:90-92 | arrays are mapped item by item to an array of the same length, never flattened; other values are translated |
| Transform.FirstOrSelf | src/utils/transform.ts:71-73 | an array is reduced to its first item (undefined when empty); other values are kept |
| Transform.FactFields | src/utils/transform.ts:76-79 | a fact reads back its label and its value |
| Transform.FactsOf | src/utils/transform.ts:67-80 | one fact per entry in entry order; the label is the key and the value the first item of the translation |
| Transform.TransformFacts | src/utils/transform.ts:66-81 | TypeError for null, otherwise one fact per property |
| Transform.FlattenNestedObject | src/utils/transform.ts:84-95 | the loop computes `Flatten` |
| Transform.KeptKeys | src/utils/transform.ts:86-89 | the kept keys are the entry keys other than "buffer" and "__v" |
| Transform.FlattenFails | src/utils/transform.ts:84-95 | flattening fails only with a TypeError |
| Transform.FlattenKeys | src/utils/transform.ts:86-93 | the result's keys come in entry order |
| Transform.FlattenElsewhere | src/utils/transform.ts:86-93 | keys no entry writes keep their values |
| Transform.FlattenValue | src/utils/transform.ts:90-92 | every kept entry holds its translated value |
| Transform.FlattenNoIgnored | src/utils/transform.ts:87-89 | "buffer" and "__v" are never written |
| Transform.FlattenResult | src/utils/transform.ts:84-95 | on a well-formed object: exactly the kept keys in order, each holding its value translated (arrays element-wise); it fails only with a TypeError |
| Transform.RestOf | src/utils/transform.ts:98-107 | `...rest` holds exactly the entries that are not header fields |
| Transform.QuoteFirst | src/utils/transform.ts:122-130 | under `RouteOf`, "anecdote" and "sustainability" are quotes although they are right keys; "buffer" and "__v" are skipped |
| Transform.LeftRoutes | src/utils/transform.ts:131-136 | "facts" goes through transformFacts; every other left key stays on the left whatever its value |
| Transform.PlaceField | src/utils/transform.ts:121-157 | the loop body computes `Place`, which routes each key by `RouteOf` in the source's branch order: skip, quote, facts, left list, translated text, nested object, right value, left value |
| Transform.TransformItem | src/utils/transform.ts:97-162 | the header fields plus the loop over `rest` compute `TransformItemSpec` |
| Transform.AssignAllInvariant | src/utils/transform.ts:141 | `Object.assign` keeps the right pane's keys distinct and free of skipped keys |
| Transform.SpreadInvariant | src/utils/transform.ts:140-141 | merging a flattened object into the right pane keeps the pane invariant |
| Transform.PlaceInvariant | src/utils/transform.ts:121-157 | each iteration keeps both panes plain objects, and the left one free of quote, skipped and header keys |
| Transform.PlaceFails | src/utils/transform.ts:121-157 | an iteration fails only with a TypeError |
| Transform.PanesFromInvariant | src/utils/transform.ts:121-158 | the loop fails only with a TypeError and keeps the pane invariant |
| Transform.PresentAbsent | src/utils/transform.ts:109-116 | an object literal without key `k` reads through to what follows |
| Transform.PresentLookup | src/utils/transform.ts:109-116 | an object literal's property reads its given value |
| Transform.FieldsLookup | src/utils/transform.ts:109-116 | each of the six header properties reads back its own given value, whatever follows it |
| Transform.HeaderLookup | src/utils/transform.ts:109-116 | `transformed` holds the copied and the translated header fields |
| Transform.TransformedData | src/utils/transform.ts:160 | `data` is the last property, equal to `[left, right]` |
| Transform.TransformItemShape | src/utils/transform.ts:97-162 | every failure is a TypeError (or a non-object document); a result is an object ending with `data` = two plain-object panes keeping the pane invariant |
| Transform.TransformItemHeader | src/utils/transform.ts:109-116 | `id`, `scientificName`, `img` and `isPremium` are copied (absent stays absent); `name` and `description` are translated, "" when absent |
| Transform.AssignAllLookup | src/utils/transform.ts:141 | `Object.assign` from a plain object: each of its properties overwrites the target's, and the target's other properties stay |
| Transform.TransformItemLeft | src/utils/transform.ts:121-158 | the left pane holds exactly the keys of the fields routed left, in order; `facts` holds its transformFacts, and a left-key or unlisted field its translation |
| Transform.TransformItemRight | src/utils/transform.ts:121-158 | last writer wins in the right pane: each property holds what the last field writing it wrote (its translation under its own key, or its flattening's value), and a property nobody writes is absent |
| Transform.TransformItemRightField | src/utils/transform.ts:126-149 | a quote field is `{text, isQuote: true}` on the right, and a translated-text or right-key field its translation, unless a later spread field's flattening carries the same key |
| Transform.TransformItemPanes | src/utils/transform.ts:97-162 | for a document with distinct keys, `data` is `[left, right]` from the loop over `rest`, with both panes as TransformItemLeft and TransformItemRight state them |
| Encyclopedia.CategoryOf | src/routes/encyclopedia.ts:25-28 | a category is accepted exactly when it is a key of modelMap |
| Encyclopedia.CategoryRoundTrip | src/routes/encyclopedia.ts:15-19 | exactly "plants", "oils" and "basic_oils" are accepted, each selecting its own model |
| Encyclopedia.FindSourceKey | src/routes/encyclopedia.ts:87 | `find` returns the first key that is a supported language with a truthy value |
| Encyclopedia.GetSourceLang | src/routes/encyclopedia.ts:85-88 | it throws a TypeError exactly when `name` is falsy and `description` is undefined or null; a falsy but defined sample (`""`, `0`, `false`) has no keys and gives Dutch |
| Encyclopedia.SourceLangIsFirst | src/routes/encyclopedia.ts:85-88 | the source language is the first qualifying key of `name` (or `description`), else Dutch |
| Encyclopedia.FilterUnique | src/routes/encyclopedia.ts:200-209 | the filter loop with its `uniqueIds` set computes `UniqueById` |
| Encyclopedia.IdKey | src/routes/encyclopedia.ts:204 | an item is eligible exactly when its `id` is truthy |
| Encyclopedia.IdKeys | src/routes/encyclopedia.ts:204 | the ids are read item by item |
| Encyclopedia.FirstIndices | src/routes/encyclopedia.ts:203-208 | the reference filter keeps positions inside the input |
| Encyclopedia.FirstIsUnseen | src/routes/encyclopedia.ts:204 | "truthy and not yet in the set" means "the first item with this id" |
| Encyclopedia.KeepStep | src/routes/encyclopedia.ts:204-207 | one filter step keeps an item and records its id exactly when the id is truthy and unseen |
| Encyclopedia.KeepFromByKey | src/routes/encyclopedia.ts:203-208 | on non-null items, the filter is the key-based filter over their ids |
| Encyclopedia.KeepByKeyFirsts | src/routes/encyclopedia.ts:203-208 | the key-based filter keeps exactly the first position of each key |
| Encyclopedia.KeepFromFails | src/routes/encyclopedia.ts:204 | reading `_item.id` throws a TypeError exactly when an item is null |
| Encyclopedia.UniqueByIdIsFirsts | src/routes/encyclopedia.ts:200-209 | the filter `UniqueById` (the recursion `KeepFrom` over the items with the seen-id set) keeps, in order, exactly the first item of each truthy id; it throws a TypeError exactly when an item is null |
| Encyclopedia.FirstsOrdered | src/routes/encyclopedia.ts:203-208 | the kept positions are increasing (order is kept) and each is the first of its id |
| Encyclopedia.FirstKept | src/routes/encyclopedia.ts:203-208 | every first occurrence is kept |
| Encyclopedia.FirstOccurrence | src/routes/encyclopedia.ts:203-208 | every truthy id has a first occurrence at or before any occurrence |
| Encyclopedia.FirstsCover | src/routes/encyclopedia.ts:203-208 | every truthy id of the input is carried by some kept item |
| Encyclopedia.FirstsDistinct | src/routes/encyclopedia.ts:203-208 | no two kept items share an id |
| Encyclopedia.Dutch | src/routes/encyclopedia.ts:125-136 | `{ nl: v }` holds `v` under "nl" and nothing else |
| Encyclopedia.ImportedReadsDutch | src/routes/encyclopedia.ts:125-136 | a wrapper built at import reads back through getTranslatedValue as its Dutch value, in any language |
| Encyclopedia.OutKey | src/routes/encyclopedia.ts:142-143 | no data key is written as "relatedPlants" |
| Encyclopedia.ImportValue | src/routes/encyclopedia.ts:141-178 | one data entry throws, with a TypeError, exactly when `facts`, `article`, `sustainability` or `anecdote` is null; otherwise it writes under its output key |
| Encyclopedia.TransformData | src/routes/encyclopedia.ts:120-183 | the header literal plus the nested loops over `input.data`, filling `output` in place, compute `TransformDataSpec` |
| Encyclopedia.EntriesAppend | src/routes/encyclopedia.ts:141-179 | the loop over two runs of entries is the loop over the first, then the second |
| Encyclopedia.ItemsFlat | src/routes/encyclopedia.ts:140-141 | the loop over the items is one loop over all their properties in turn |
| Encyclopedia.EntriesFails | src/routes/encyclopedia.ts:141-178 | the loop throws, with a TypeError, exactly when some entry throws |
| Encyclopedia.LastBefore | src/routes/encyclopedia.ts:141-179 | locates the last entry that writes a given output property |
| Encyclopedia.PrefixLookup | src/routes/encyclopedia.ts:141-179 | after any prefix of the entries, a property holds what the last entry writing it wrote, else its earlier value |
| Encyclopedia.EntriesLookup | src/routes/encyclopedia.ts:141-179 | later entries overwrite earlier ones with the same output key |
| Encyclopedia.ImportImgLookup | src/routes/encyclopedia.ts:123-128 | `img` is `{ src: img.src, alt: { nl: img.alt } }` |
| Encyclopedia.ImportHeaderFails | src/routes/encyclopedia.ts:121-124 | the header throws, with a TypeError, exactly on a null input or a missing or null `img` |
| Encyclopedia.ImportFieldsLookup | src/routes/encyclopedia.ts:121-137 | each field of the literal reads back its own value |
| Encyclopedia.ImportHeaderLookup | src/routes/encyclopedia.ts:121-137 | `id`, `isPremium` and `scientificName` are copied; `name` and `description` are wrapped as `{nl: …}`; `img` is rebuilt |
| Encyclopedia.ImportHeaderOnly | src/routes/encyclopedia.ts:121-137 | the header sets no other property |
| Encyclopedia.TransformDataFails | src/routes/encyclopedia.ts:120-183 | transformData (`TransformDataSpec`: header, then every data item's entries in turn) throws, always a TypeError, exactly on a bad header, a `data` that is not an array, or a null reading-key value |
| Encyclopedia.TransformDataLookup | src/routes/encyclopedia.ts:120-183 | every result property holds what the last data entry writing it wrote, else the header's value |
| Encyclopedia.NoRelatedPlants | src/routes/encyclopedia.ts:142-143 | the result never has `relatedPlants`: it is renamed `related` |
| Encyclopedia.ArticleMirrorsFacts | src/routes/encyclopedia.ts:144-167 | `article`'s `applications`, `usage` and `contraindications` come from `usedParts`, `origin` and `growth`, as `facts`' three properties do |
| Encyclopedia.MapAllAppend | src/routes/encyclopedia.ts:209 | mapping a concatenation maps each part in turn |
| Encyclopedia.MapAllSnoc | src/routes/encyclopedia.ts:209 | mapping one more record extends the mapped prefix |
| Encyclopedia.MapAllPrefixFails | src/routes/encyclopedia.ts:209 | a prefix that throws makes the whole map throw the same |
| Encyclopedia.MapAllIs | src/routes/encyclopedia.ts:209 | `map` succeeds exactly when every record does (pointwise, same length); a failure is one record's failure |
| Encyclopedia.FormatImport | src/routes/encyclopedia.ts:188-209 | filter then map computes `ImportFormatted` |
| Encyclopedia.ImportFormattedIs | src/routes/encyclopedia.ts:188-209 | the import (`ImportFormatted`: array check, `UniqueById`, then `TransformDataSpec` on each record) transforms, in order, exactly the first record of each truthy id; every failure is a TypeError |
| Encyclopedia.Item.constructor | src/routes/encyclopedia.ts:75 | a found document is both in memory and stored |
| Encyclopedia.Item.Detail | src/routes/encyclopedia.ts:81-107 | the document becomes `Refresh`'s result (source language, extract, translateJson, assignTranslatedValues, merge, at 85-100); it is saved and answered with transformItem when nothing threw; otherwise nothing is saved and the error is the answer |
| Encyclopedia.RefreshKeepsOtherLanguages | src/routes/encyclopedia.ts:91-100 | in `Refresh`, whatever the translator answers, only the requested language's slots change, even when the merge stops part-way |
| Encyclopedia.RefreshThrowsEarly | src/routes/encyclopedia.ts:85-98 | a failure before the merge leaves the document as it was; a missing `name` and `description` throws a TypeError |
| Encyclopedia.AlwaysTranslates | src/routes/encyclopedia.ts:84 | the guard never skips translation: a failing translator fails the request whenever the source projection has a string, however complete the document already is |

## Left out

- Translate.GetTranslatedValue: takes a defined `field`, so `getTranslatedValue(undefined, lang)`, which throws a TypeError at `src/utils/translate.ts:126`, cannot be stated. Its callers, at `src/routes/encyclopedia.ts:42-48`, are in the list route, which is left out.
- `translateText` is not part of this model: it scrapes a translation site over HTTP. It is the `Translator` function parameter, and `None` stands for any error it throws.
- Express routing, status codes and response bodies are left out. This includes the list route `GET /:category`, with its static `laTranslations.json` lookup, and the double responses at `src/routes/encyclopedia.ts:190-192` and `219-222`.
- `src/routes/contentRoutes.ts`, `src/index.ts`, `allRoutes.ts` and `userRoutes.ts` are left out. They are I/O and framework wiring.
- Mongoose is left out. The model does not cover `find`, `findOne` with its case-insensitive regex, `toObject()`, `deleteMany` or `insertMany`. Documents are plain `Json` trees, and `item.save()` is the assignment `stored := doc`.
- Console logging and concurrency are left out. Concurrency here means two requests refreshing the same document at once.
- Numbers are integers; floating point is not modelled. A Buffer is a byte sequence. Its JSON clone is `{type: "Buffer", data: [...]}`, and a write into it is outside the model.
- EncyclopediaHelpers.MergeObject / Translate.SetKey: a write to an array under a key that is not one of its existing indices is outside the model and is reported as a failure. This covers a named property such as `arr.en = x`, which JavaScript accepts, and a new slot such as `arr[5] = x`, which grows the array. So a merge that would write such a key reports `MergeThrew` where JavaScript finishes the merge. The trees that the refresh pipeline merges come from the document's own keys, so they never write there.
- Json.Props: JavaScript enumerates integer-like object keys first, in ascending order. The model keeps insertion order for every object key.
- EncyclopediaHelpers.MergeObject: works on values and returns the merged tree. Aliasing between the live document and the merge tree is not modelled; the source shares none.
- Translate.SetTranslatedValues: requires at least as many strings as paths. translateJson, its only caller, checks that the counts are equal.
- Translate.GetPath: follows paths through arrays and objects only. These are the only containers collected paths pass through.
- Transform.TransformItemSpec: a document that is not a plain object is `OutsideModel`. In the source, `plant.toObject()` always yields one.
- Encyclopedia.FilterUnique: the `Set` compares ids by value. A JavaScript `Set` compares object-valued ids by reference; ids are strings in the stored models.
- Encyclopedia.TransformDataSpec, Transform.Fact, Transform.Present (used by `Transform.Transformed`): a literal property holding `undefined` is left out rather than kept at its position. Reads agree. Only key order and `Object.keys` differ: a fact without a value has no `value` key, and a transformed item lacks the header keys that hold `undefined`; in transformData key order also differs when a data entry later writes that same key.
- Encyclopedia.FormatImport: the empty-body check at `src/routes/encyclopedia.ts:190-192` sends a 400 but does not return. A non-array body then throws at `filter`, modelled as a TypeError. An empty array goes through as an empty import.
- Encyclopedia.Item.Detail: the 404 for an unknown category or a missing document is modelled by `CategoryOf` and not repeated here. The method starts from a found document.

## Behaviour notes

These follow from the code as written:

- The comment at `src/routes/encyclopedia.ts:83` says the document is translated only when a field is missing for the target language. The guard `!productData || true` on the next line is always true, so every found item is re-translated and saved (`AlwaysTranslates`).
- extractValues keeps a language slot whenever `typeof obj[key][lang] == 'string'` (`src/utils/encyclopedia_helper_functions.ts:15`), so the empty string counts as a present value (`ExtractionOfWrapper`).
- mergeObject assigns every scalar it meets (`src/utils/encyclopedia_helper_functions.ts:65`). It overwrites values the requested language already had, and leaves the other languages alone (`WriteBackKeepsOtherLanguages`).
- When the merge throws part-way, the document in memory is left partly merged. `item.save()` at `src/routes/encyclopedia.ts:102` is not reached, so nothing is saved (`Item.Detail`).
