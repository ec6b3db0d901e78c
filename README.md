# Tagset index and language lookups, modelled in Dafny

This project models two pieces of the chat-corpus annotator.

**The tagset index** (`IndexEngine/Indexes/TagsetIndex.cs`) is a two-level dictionary. It maps a tagset name to a dictionary from tag name to colour. The C# class changes it in place. Its add operations are guarded: an existing entry is never overwritten. Count queries return the sentinel `-1` for a missing tagset. `UnloadData` clears everything. An index with no file on disk is seeded with a "default" tagset of six tags.

Module `Indexes` (`tagset_index.dfy`) has two parts:

- Pure functions on map values, one per mutator (`AddEntry`, `AddInner`, `DeleteEntry`, the corrected `DeleteInner`, and the loops `AddEntries` and `AddInners`). Lemmas about these functions state idempotence, what stays unchanged, inverses and the seeding result.
- The class `TagsetIndex`, which holds the dictionary in a field. Each method follows the source's branches. Each is proved to leave the field equal to the matching function of the field's old value.

Colours are an opaque type. A generated colour is a parameter of the operation that needs one.

**The language lookups** (`core/CoreNLPClient.Net/Pipeline.cs`) are `GetLang`, `IsLang` and `GetLangDefaultAnnotators`. Each one lower-cases its argument and switches over six language names and their two-letter codes. Module `Pipeline` (`pipeline.dfy`) models them as total functions on strings. It proves that the three lookups agree, that `GetLang` is idempotent, and that case does not matter.

## Model

| member | source | states |
|---|---|---|
| Indexes.AddEntry | IndexEngine/Indexes/TagsetIndex.cs:73-83 | adds the key when absent, with the given tagset or an empty one for null; every existing tagset keeps its value |
| Indexes.AddInnerSpec | IndexEngine/Indexes/TagsetIndex.cs:85-94 | no tagset is added or removed; only tagset `key` can change, and only if it exists; its tag set becomes old tags plus `inkey`; existing colours are kept; a new tag gets the given colour |
| Indexes.DeleteEntry | IndexEngine/Indexes/TagsetIndex.cs:107-113 | removes exactly `key`, if present; every other tagset keeps its value |
| Indexes.DeleteInner | IndexEngine/Indexes/TagsetIndex.cs:115-124 | corrected deletion: removes exactly `inkey` from tagset `key` and changes nothing else |
| Indexes.AddEntryIdempotent | IndexEngine/Indexes/TagsetIndex.cs:73-83 | adding a tagset a second time changes nothing, whatever the second value |
| Indexes.AddInnerIdempotent | IndexEngine/Indexes/TagsetIndex.cs:85-94 | adding a tag a second time changes nothing, whatever the second colour |
| Indexes.AddInnerCount | IndexEngine/Indexes/TagsetIndex.cs:85-94 | a tagset's size grows by one exactly when the added tag is new to it |
| Indexes.DeleteEntryUndoesAddEntry | IndexEngine/Indexes/TagsetIndex.cs:107-113 | deleting a tagset just added to a collection without it gives the original collection back |
| Indexes.DeleteEntryIdempotent | IndexEngine/Indexes/TagsetIndex.cs:107-113 | deleting a tagset twice equals deleting it once |
| Indexes.DeleteInnerUndoesAddInner | IndexEngine/Indexes/TagsetIndex.cs:115-124 | the corrected deletion of a tag just added gives the original collection back |
| Indexes.AddEntriesSpec | IndexEngine/Indexes/TagsetIndex.cs:126-132 | initialising with a list adds exactly the listed names; new ones are empty tagsets; tagsets already present are untouched |
| Indexes.AddInnersFrame | IndexEngine/Indexes/TagsetIndex.cs:42-45 | adding tags one by one to an existing tagset gives it exactly its old tags plus the listed ones; old colours and all other tagsets are unchanged |
| Indexes.AddInnersColors | IndexEngine/Indexes/TagsetIndex.cs:42-45 | when the listed tags are distinct and new to the tagset, each one ends up in it with its own colour |
| Indexes.DefaultTagsDistinct | IndexEngine/Indexes/TagsetIndex.cs:40 | the six default tag names are pairwise distinct, so there are six of them |
| Indexes.SeedDefaultOnEmpty | IndexEngine/Indexes/TagsetIndex.cs:38-46 | seeding an empty index yields exactly one tagset, "default", holding exactly the six default tags, each with its colour, size 6 |
| Indexes.TagsetIndex.constructor | IndexEngine/Indexes/TagsetIndex.cs:34 | a new index starts with an empty collection |
| Indexes.TagsetIndex.Open | IndexEngine/Indexes/TagsetIndex.cs:23-33 | with no stored index the collection is the default seeding of an empty index; otherwise it is the stored collection |
| Indexes.TagsetIndex.ItemCount | IndexEngine/Indexes/TagsetIndex.cs:36 | the tagset count is zero exactly when the collection is empty |
| Indexes.TagsetIndex.GetValueCount | IndexEngine/Indexes/TagsetIndex.cs:139-149 | -1 exactly when the tagset is missing, otherwise its number of tags |
| Indexes.TagsetIndex.GetInnerValueCount | IndexEngine/Indexes/TagsetIndex.cs:151-158 | ignores the tag name and always equals GetValueCount |
| Indexes.TagsetIndex.ReadIndexFromDisk | IndexEngine/Indexes/TagsetIndex.cs:58-65 | a stored collection replaces the whole index, with no merge; with no file nothing changes |
| Indexes.TagsetIndex.AddDefaultTagset | IndexEngine/Indexes/TagsetIndex.cs:38-46 | the new collection is the "default" entry followed by the six tag additions, applied to the old collection |
| Indexes.TagsetIndex.AddIndexEntry | IndexEngine/Indexes/TagsetIndex.cs:73-83 | the new collection is AddEntry of the old one |
| Indexes.TagsetIndex.AddInnerIndexEntry | IndexEngine/Indexes/TagsetIndex.cs:85-94 | the new collection is AddInner of the old one |
| Indexes.TagsetIndex.AddInnerIndexEntryGenerated | IndexEngine/Indexes/TagsetIndex.cs:97-106 | the same guarded addition, with the generated colour as the value |
| Indexes.TagsetIndex.DeleteIndexEntry | IndexEngine/Indexes/TagsetIndex.cs:107-113 | the new collection is DeleteEntry of the old one |
| Indexes.TagsetIndex.DeleteInnerIndexEntry | IndexEngine/Indexes/TagsetIndex.cs:115-124 | as written: the collection is unchanged for every input |
| Indexes.TagsetIndex.DeleteInnerIndexEntryCorrected | IndexEngine/Indexes/TagsetIndex.cs:115-124 | with the guard corrected: the new collection is DeleteInner of the old one |
| Indexes.TagsetIndex.InitializeIndex | IndexEngine/Indexes/TagsetIndex.cs:126-132 | the new collection is AddEntries of the old one over the list |
| Indexes.TagsetIndex.UnloadData | IndexEngine/Indexes/TagsetIndex.cs:160-163 | the collection is empty afterwards, ItemCount is 0 and GetValueCount is -1 for every key |
| Indexes.DeleteInnerKeepsTag | IndexEngine/Indexes/TagsetIndex.cs:115-124 | add "Meeting" to "default", then delete it: the tag is still there |
| Indexes.CorrectedDeleteRemovesTag | IndexEngine/Indexes/TagsetIndex.cs:115-124 | the same run with the corrected deletion removes the tag |
| Pipeline.ToLower | core/CoreNLPClient.Net/Pipeline.cs:36 | keeps the length and lower-cases each character (ASCII letters) |
| Pipeline.ToLowerOfLowerCase | core/CoreNLPClient.Net/Pipeline.cs:36 | a string with no upper-case letter is its own lower-casing |
| Pipeline.ToLowerIdempotent | core/CoreNLPClient.Net/Pipeline.cs:36 | lower-casing twice equals lower-casing once |
| Pipeline.TableEntryIsLowerCase | core/CoreNLPClient.Net/Pipeline.cs:141-156 | each `Lang` name and code is already lower case |
| Pipeline.GetLang | core/CoreNLPClient.Net/Pipeline.cs:34-59 | non-empty exactly when the lower-cased input is one of the twelve names and codes; a non-empty result is a full name |
| Pipeline.IsLang | core/CoreNLPClient.Net/Pipeline.cs:61-86 | true exactly when the lower-cased input is one of the twelve names and codes |
| Pipeline.GetLangDefaultAnnotators | core/CoreNLPClient.Net/Pipeline.cs:88-113 | non-empty exactly when the lower-cased input is one of the twelve names and codes |
| Pipeline.GetLangTable | core/CoreNLPClient.Net/Pipeline.cs:38-55 | an input that lower-cases to entry i's name or code maps to entry i's full name, and IsLang holds for it |
| Pipeline.GetLangEntry | core/CoreNLPClient.Net/Pipeline.cs:38-57 | a non-empty GetLang result is entry i's full name, for an entry i whose name or code is the lower-cased input |
| Pipeline.GetLangOfTable | core/CoreNLPClient.Net/Pipeline.cs:38-55 | each full name maps to itself; each code maps to its full name |
| Pipeline.CaseInsensitiveExample | core/CoreNLPClient.Net/Pipeline.cs:34-59 | "EN", "En" and "en" all give "english"; "GERMAN" gets German's annotators; "english " with a trailing space is not a language |
| Pipeline.LookupsIgnoreCase | core/CoreNLPClient.Net/Pipeline.cs:34-113 | each of the three lookups gives the same answer for an input and its lower-casing |
| Pipeline.IsLangIffGetLang | core/CoreNLPClient.Net/Pipeline.cs:34-86 | IsLang(x) holds exactly when GetLang(x) is non-empty |
| Pipeline.GetLangIdempotent | core/CoreNLPClient.Net/Pipeline.cs:38-57 | GetLang(GetLang(x)) == GetLang(x) |
| Pipeline.AnnotatorsIffIsLang | core/CoreNLPClient.Net/Pipeline.cs:61-113 | the annotator list is non-empty exactly when IsLang holds |
| Pipeline.AnnotatorsTable | core/CoreNLPClient.Net/Pipeline.cs:88-113 | an input that lower-cases to entry i's name or code gets entry i's annotator list |
| Pipeline.DefaultAnnotatorsStartWithCommon | core/CoreNLPClient.Net/Pipeline.cs:94-109 | each of the six annotator lists in the switch starts with "tokenize,ssplit,pos" |
| Pipeline.AnnotatorsStartWithCommon | core/CoreNLPClient.Net/Pipeline.cs:88-113 | every non-empty result of GetLangDefaultAnnotators starts with "tokenize,ssplit,pos" |
| Pipeline.AnnotatorsOfNormalisedName | core/CoreNLPClient.Net/Pipeline.cs:34-113 | GetLangDefaultAnnotators(GetLang(x)) == GetLangDefaultAnnotators(x): a code and its full name share annotators |

## Left out

- FlushIndexToDisk, CheckFiles, CheckDirectory and the JSON (de)serialisation are file I/O and are not modelled. ReadIndexFromDisk and the constructor's file-existence test take the file's content as an `Option<Collection>` parameter, with `None` for a missing file. A corrupt file or a `null` deserialisation result is not modelled.
- The `Lazy` singleton and `GetInstance` are process-wide plumbing. The model builds index objects directly.
- UpdateIndexEntry is not modelled. It only throws `NotImplementedException`.
- ColorGenerator.GenerateHSLuvColor is foreign floating-point code. Colours are an opaque type, and each generated colour is a caller-supplied parameter (`palette` for the six default tags, `generated` for the two-argument AddInnerIndexEntry). The model does not claim that generated colours are distinct.
- The two-argument AddInnerIndexEntry is a C# overload. Dafny has no overloading, so it is modelled as `AddInnerIndexEntryGenerated`.
- The BTreeDictionary enumeration order of IndexCollection is not modelled. The collection is a Dafny `map`.
- Aliasing is not modelled. AddIndexEntry stores the caller's inner `Dictionary` by reference, so later changes through either reference show up in both places. The model stores a value copy.
- Null keys and null strings are not modelled. In C# they raise `ArgumentNullException` or `NullReferenceException`, but Dafny strings are never null.
- String.ToLower is culture-sensitive and covers all of Unicode. The model lower-cases only the ASCII letters A-Z.
- Pipeline.GetEnglishDefaultReqProperties is not modelled. It only parses a JSON string literal with a library call.
- The view-models (MainWindowViewModel, SituationsViewModel), the situation index and its inverted index are not part of this model.

## Findings

| source | as written | input that shows it | evidently intended | confidence | as-written member | corrected member |
|---|---|---|---|---|---|---|
| IndexEngine/Indexes/TagsetIndex.cs:115-124 | `Remove(inkey)` is reached only when the tagset does not contain `inkey`, so the call never removes anything | tagset "default" holding tag "Meeting"; DeleteInnerIndexEntry("default", "Meeting") leaves "Meeting" in place | remove `inkey` when the tagset contains it | high; not executed | Indexes.DeleteInnerKeepsTag | Indexes.DeleteInner |

The class keeps `DeleteInnerIndexEntry` as written, and its contract says that the collection never changes. `DeleteInnerIndexEntryCorrected` applies the corrected `DeleteInner`. `DeleteInnerUndoesAddInner` proves that it is the inverse of adding a tag.
