# BtIO text loaders and file observer, in Dafny

This project models three pieces of the BtIO library and proves properties about them.

- **The file observer** (`FileObserving`). `FileObserver.register` turns a path into a watched directory. A file maps to its parent directory. Registration fills three tables keyed by the watch key: the observed directory, the single file the registration is scoped to, and the compiled file-name patterns. For each event polled from a key, the observe loop decides whether to dispatch. It resolves the event's file against the observed directory and compares it with the scoped file. It then tries the patterns in order, where the first full match wins. Finally it classifies the event as create, delete or modify. The class `FileObserver` keeps the three tables as `map` fields. `Register` and `SetFile` update them, `SetPollingDelay` sets the delay, `Kill` clears the observe flag, and `Decide` and `PollEvents` run the decision loop.
- **The text store** (`Texts`, `TextStore`).
  - A `Text` upper-cases its key and language.
  - `BaseTextLoader` keeps a map from language to a map from lower-cased key to text.
  - `add` refuses a key that is already present, and `update` inserts or replaces a value.
  - A lookup of a missing key answers `"* key *"` in the loader's language.
  - `{}` placeholders are filled by parameters in order.
  - `load` consults the first registered source of each class and asks it for the current language (lazy mode) or for all languages (eager mode).
- **Language files** (`FileNames`, `JsonLoading`, `YamlLoading`, `YamlSaving`).
  - The file-name predicates select `group_xx.ending` files, where `xx` has one to three characters, or the files of the current language. `getGroupFiles` collects the selected files of a directory tree.
  - The JSON loader turns the entries of a `.lang` file into texts.
  - The YAML loader flattens nested maps into dotted keys.
  - The YAML saver splits dotted keys back into nested maps. The model proves that saving and then loading gives back the last value written under each key, for texts whose lower-cased keys have no empty segment and where no key continues another after a dot, and provided the load meets no duplicate key. A key that continues another key after a dot makes save fail.

The store holds `TextValue` values, which are snapshots of a `Text` object's three fields. A YAML or JSON mapping is a list of entries in iteration order, with distinct keys. A directory tree is given as a `Node` value, and a parsed file as an optional document: none means the file could not be read, or was read but its content does not parse. A `.lang` file that `JSON.parse` rejects, and a YAML file that `yaml.load` rejects, both end the load at that file with the store unchanged. The watch service is represented by its results. The caller supplies the key the service grants, the flag saying whether the service could be created, and the events each key yields. `Pattern.compile` becomes a function parameter that may fail, and a compiled pattern is a full-match predicate on the base name. `File.getAbsolutePath` resolves a relative path against a working-directory constant. When an exception would leave the source's method, the model returns it as an error value, and the state at that point is stated in full.

Modules and files:

- `outcomes.dfy`: `Option` and `Result`.
- `strings.dfy`: `toLowerCase`/`toUpperCase` on ASCII letters, and `String.split("\\.")` with Java's dropping of trailing empty segments.
- `text.dfy`: the class `Text`.
- `text_store.dfy`: `BaseTextLoader`, the store functions, lookup and substitution.
- `file_names.dfy`: the file-name predicates and `getGroupFiles`.
- `observer.dfy`: `FileObserver`.
- `json_loading.dfy`: `JsonTextLoader`.
- `yaml_loading.dfy`: `YamlTextLoader`.
- `yaml_saving.dfy`: `YamlTextSaver`.

The `JsonTextLoader` and `YamlTextLoader` classes hold the `BaseTextLoader` they extend as a `base` field.

Where the source calls a method that its class does not define, namely `Text.getValue` and `Text.setValue`, the model uses `getText` and `setText`, which read and write the same field.

## Model

| member | source | states |
|---|---|---|
| Texts.Text.constructor | src/bt/io/text/obj/Text.java:30-35 | the key is stored upper-cased, the text as given, the language "EN" |
| Texts.Text.WithLanguage | src/bt/io/text/obj/Text.java:37-41 | as the two-argument constructor, and the language is stored upper-cased |
| Texts.Text.SetKey | src/bt/io/text/obj/Text.java:25-28 | the key becomes the upper-cased argument, and the object stays normalised |
| Texts.Text.SetLanguage | src/bt/io/text/obj/Text.java:43-46 | the language becomes the upper-cased argument, and the object stays normalised |
| Texts.Text.SetText | src/bt/io/text/obj/Text.java:57-71 | getText afterwards yields the value set, and toString equals getText |
| Texts.NewTextsAreNormalised | src/bt/io/text/obj/Text.java:30-41 | texts built by either constructor have an upper-case key and language |
| TextStore.Added | src/bt/io/text/impl/BaseTextLoader.java:152-174 | add fails exactly when the lower-cased key is already in the text's language bucket, and reports that key; on success only that slot changes, and it now holds the text |
| TextStore.AddedAllAppend | src/bt/io/text/impl/BaseTextLoader.java:251-258 | adding a list in two parts is adding the first part, then, unless it failed, the second; a failure ends the loop |
| TextStore.AddedAllSucceedsIff | src/bt/io/text/impl/BaseTextLoader.java:251-258 | adding a list of texts fails if and only if one of them meets a slot that is taken, in the store or by an earlier text of the list |
| TextStore.AddedAllFinds | src/bt/io/text/impl/BaseTextLoader.java:251-258 | after a successful add of a list, every text is found under its lower-cased key in its language, and every other slot is unchanged |
| TextStore.LookupAfterAdd | src/bt/io/text/impl/BaseTextLoader.java:80-101 | after adding a text, a lookup of any casing of its key in its language yields that text |
| TextStore.LookupMissing | src/bt/io/text/impl/BaseTextLoader.java:93-96 | a missing key yields "* key *" with the key as asked and the loader's language, not the requested one |
| TextStore.LookupOfLowerCaseLanguageFallsBack | src/bt/io/text/impl/BaseTextLoader.java:84-96 | when every bucket is upper-case, a lookup in a language that is not upper case always falls back |
| TextStore.AddedAllKeepsUpperCaseBuckets | src/bt/io/text/impl/BaseTextLoader.java:152-170 | adding normalised texts, as every `Text` is, keeps every bucket name upper-case |
| TextStore.UpdatedKeepsUpperCaseBuckets | src/bt/io/text/impl/BaseTextLoader.java:178-193 | update upper-cases the language it files under, so it keeps every bucket name upper-case |
| TextStore.FirstPlaceholder | src/bt/io/text/impl/BaseTextLoader.java:115 | the position found is a "{}" with none before it, and none means the string has no "{}" |
| TextStore.SubstituteWithoutPlaceholder | src/bt/io/text/impl/BaseTextLoader.java:111-117 | parameters leave a text without "{}" unchanged |
| TextStore.SubstituteFillsTemplate | src/bt/io/text/impl/BaseTextLoader.java:111-117 | with brace-free pieces and parameters, the holes of a template are filled by the parameters in order, null shown as "null"; parameters beyond the holes change nothing |
| TextStore.SubstituteFillsTemplateAfter | src/bt/io/text/impl/BaseTextLoader.java:111-117 | the same, after a brace-free prefix that stays in front |
| TextStore.UpdateOfPresentKey | src/bt/io/text/impl/BaseTextLoader.java:189-198 | updating a key present in the upper-cased language changes only that text's value, and no other slot |
| TextStore.UpdateOfMissingKey | src/bt/io/text/impl/BaseTextLoader.java:181-193 | updating a missing key files a new text under the key exactly as given; a later lookup of it finds the value only if the key is lower case, and otherwise falls back |
| TextStore.KeptClassesDistinct | src/bt/io/text/impl/BaseTextLoader.java:224-235 | no two consulted sources share a class name |
| TextStore.KeptAreRegistered | src/bt/io/text/impl/BaseTextLoader.java:224-235 | every consulted source is a registered one |
| TextStore.KeptCoversClasses | src/bt/io/text/impl/BaseTextLoader.java:224-235 | every registered class name is consulted |
| TextStore.KeptAreFirsts | src/bt/io/text/impl/BaseTextLoader.java:224-235 | a consulted source is the first registered source of its class |
| TextStore.FirstsAreKept | src/bt/io/text/impl/BaseTextLoader.java:224-235 | the first registered source of each class is consulted |
| TextStore.UnknownModeLoadsNothing | src/bt/io/text/impl/BaseTextLoader.java:242-249 | with a load mode that is neither lazy nor eager, no source contributes a text |
| TextStore.QueuedAppend | src/bt/io/text/impl/BaseTextLoader.java:226-258 | the texts of a list of sources come in source order |
| TextStore.LoadFailureIsFinal | src/bt/io/text/impl/BaseTextLoader.java:226-258 | once an add has failed, later sources change neither the store nor the outcome |
| TextStore.BaseTextLoader.constructor | src/bt/io/text/impl/BaseTextLoader.java:21-30 | a new loader is lazy, in language "EN", with no texts and no sources |
| TextStore.BaseTextLoader.SetLanguage | src/bt/io/text/impl/BaseTextLoader.java:59-62 | the language is stored upper-cased |
| TextStore.BaseTextLoader.SetLoadMode | src/bt/io/text/impl/BaseTextLoader.java:293-296 | the load mode is stored as given |
| TextStore.BaseTextLoader.GetTexts | src/bt/io/text/impl/BaseTextLoader.java:33-44 | no bucket for the current language yields an empty list; otherwise the list is indexed by distinct keys covering the whole bucket, and each element is the text filed under its key, so equal texts under different keys each appear once |
| TextStore.ListedBucketValues | src/bt/io/text/impl/BaseTextLoader.java:40 | such a listing has one element per key of the bucket and holds exactly the bucket's texts |
| TextStore.BaseTextLoader.GetTextForLanguage | src/bt/io/text/impl/BaseTextLoader.java:80-101 | the text filed under the lower-cased key in the bucket named by the language as given, otherwise the fallback "* key *" in the loader's language |
| TextStore.BaseTextLoader.GetText | src/bt/io/text/impl/BaseTextLoader.java:68-71 | the same lookup in the loader's current language: the stored text, or the fallback text "* key *" with the upper-cased key, in that language |
| TextStore.BaseTextLoader.GetTextForLanguageWith | src/bt/io/text/impl/BaseTextLoader.java:104-122 | the result carries the key upper-cased and the loader's language; its value is the looked-up value with each parameter substituted in order, or unchanged for a null parameter array |
| TextStore.BaseTextLoader.Add | src/bt/io/text/impl/BaseTextLoader.java:152-174 | succeeds exactly when the text's slot is free and then stores it; on a duplicate the store is left as it was |
| TextStore.BaseTextLoader.Update | src/bt/io/text/impl/BaseTextLoader.java:177-201 | the store becomes the update described by UpdateOfPresentKey and UpdateOfMissingKey |
| TextStore.BaseTextLoader.Register | src/bt/io/text/impl/BaseTextLoader.java:207-214 | the source is appended to the registered sources |
| TextStore.BaseTextLoader.Kill | src/bt/io/text/impl/BaseTextLoader.java:273-278 | both the texts and the sources are emptied |
| TextStore.BaseTextLoader.Clear | src/bt/io/text/impl/BaseTextLoader.java:302-305 | the texts are emptied and the sources kept |
| TextStore.BaseTextLoader.LoadSource | src/bt/io/text/impl/BaseTextLoader.java:237-258 | one source's texts, asked for in the current language when lazy or all languages when eager, are added in order, stopping at the first duplicate |
| TextStore.BaseTextLoader.Load | src/bt/io/text/impl/BaseTextLoader.java:219-267 | the store holds the texts of the first source of each class, added in registration order; it fails exactly at the first duplicate, with the texts added before it kept |
| FileNames.GroupShapeIff | src/bt/io/text/impl/FileTextLoader.java:23-26 | the eager shape holds exactly for group + "_" + one to three characters other than line terminators + "." + ending |
| FileNames.WildcardShapeIff | src/bt/io/text/impl/FileTextLoader.java:33-36 | the wildcard shape holds exactly for any line + "_" + one to three characters + "." + ending |
| FileNames.EndsAfterLineIff | src/bt/io/text/impl/FileTextLoader.java:38-41 | ".*" + suffix holds exactly for a line without terminators followed by the suffix |
| FileNames.MatchesEagerIff | src/bt/io/text/impl/FileTextLoader.java:23-26 | filenameMatchesEagerLoading holds exactly when the lower-cased name is the lower-cased group, "_", a one-to-three-character code, "." and the lower-cased ending |
| FileNames.MatchesLanguageFileEagerIff | src/bt/io/text/impl/FileTextLoader.java:33-36 | filenameMatchesLanguageFileEagerLoading holds exactly for some stem, "_", a one-to-three-character code, "." and the ending, all lower-cased |
| FileNames.MatchesLanguageFileLazyIff | src/bt/io/text/impl/FileTextLoader.java:38-41 | filenameMatchesLanguageFileLazyLoading holds exactly for some stem, "_", the lower-cased language, "." and the lower-cased ending |
| FileNames.LazyMatchIsEagerMatch | src/bt/io/text/impl/FileTextLoader.java:23-31 | with a language of one to three characters, a lazy group match is an eager group match |
| FileNames.GroupMatchIsLanguageFileMatch | src/bt/io/text/impl/FileTextLoader.java:23-41 | a group match is also a wildcard match of the same mode |
| FileNames.AcceptsByMode | src/bt/io/text/impl/FileTextLoader.java:55-58 | the acceptance test by mode: the group predicates for a named group; for "*", the wildcard predicate or the error of compiling a pattern that starts with "*"; nothing for an unknown mode |
| FileNames.FilesOf | src/bt/io/text/impl/FileTextLoader.java:49-61 | the flattened listing holds only files, never directories |
| FileNames.SelectedIsFilteredFiles | src/bt/io/text/impl/FileTextLoader.java:49-61 | collecting a listing equals filtering its files in listing order, with the results of subdirectories spliced in place |
| FileNames.FilteredKeepsAccepted | src/bt/io/text/impl/FileTextLoader.java:55-61 | a successful collection returns only accepted files of the tree, and every accepted file of the tree |
| FileNames.UnknownModeSelectsNothing | src/bt/io/text/impl/FileTextLoader.java:55-58 | with a load mode other than 1 or 2 no file is returned |
| FileNames.FilteredFailsOnError | src/bt/io/text/impl/FileTextLoader.java:55-58 | a file whose test throws makes the whole collection fail |
| FileNames.WildcardGroupFailsOnForeignFile | src/bt/io/text/impl/FileTextLoader.java:55-58 | with group "*", any file that is not a language file of the mode makes the collection fail |
| FileNames.SelectedErrIsFinal | src/bt/io/text/impl/FileTextLoader.java:49-62 | once the collection has failed, later entries do not change the outcome |
| FileNames.GetGroupFiles | src/bt/io/text/impl/FileTextLoader.java:43-67 | the loop over the listing, recursing into subdirectories, returns the collection described by the lemmas above, or its error |
| FileObserving.ResolveFile | src/bt/io/files/FileObserver.java:443-446 | the resolved file is the observed directory joined with the event's name; an event without a name has no file |
| FileObserving.CompileAll | src/bt/io/files/FileObserver.java:269-271 | one pattern per string, in order; otherwise the first string that fails to compile |
| FileObserving.BatchStep | src/bt/io/files/FileObserver.java:368-429 | one pass of the loop over the polled events: a fault ends the batch, otherwise the event's dispatch, if any, is appended |
| FileObserving.FileObserver.constructor | src/bt/io/files/FileObserver.java:64-77 | a new observer has empty tables, is not observing, and has polling delay 0 |
| FileObserving.FileObserver.SetPollingDelay | src/bt/io/files/FileObserver.java:193-196 | the delay is stored as given |
| FileObserving.FileObserver.Kill | src/bt/io/files/FileObserver.java:471-477 | the observe flag is cleared |
| FileObserving.FileObserver.SetFile | src/bt/io/files/FileObserver.java:198-209 | a non-directory is recorded as the key's scoped file; a directory changes nothing |
| FileObserving.FileObserver.Register | src/bt/io/files/FileObserver.java:232-277 | the result and the new tables are the registration described by the Register lemmas below, and the tables stay consistent |
| FileObserving.FileObserver.RegisterFile | src/bt/io/files/FileObserver.java:300-309 | as Register, with the file's absolute path |
| FileObserving.FileObserver.Decide | src/bt/io/files/FileObserver.java:370-428 | the decision for one event; when the scoped file differs, no pattern is consulted; a consulted pattern comes after patterns that all failed to match |
| FileObserving.FileObserver.PollEvents | src/bt/io/files/FileObserver.java:368-429 | the events dispatched for one key's batch, in order, and the fault that ends it, if any |
| FileObserving.UnfilteredDispatchesEveryChange | src/bt/io/files/FileObserver.java:413-428 | with neither a scoped file nor patterns, a create, delete or modify yields exactly one event of its kind for the observed directory |
| FileObserving.ScopedRegistrationIgnoresOtherFiles | src/bt/io/files/FileObserver.java:373-385 | a registration scoped to a file never dispatches for another absolute path |
| FileObserving.BatchDispatchesOnlyAdmitted | src/bt/io/files/FileObserver.java:368-429 | every dispatched event comes from a polled event that passed the file check and the patterns, has the matching kind, and carries the observed directory |
| FileObserving.BatchDispatchesAdmittedEvents | src/bt/io/files/FileObserver.java:368-429 | when every event names a file, the batch does not fail, and the i-th dispatched event is the i-th admitted create, delete or modify, with its kind and the observed directory |
| FileObserving.RegisterFailureLeavesTables | src/bt/io/files/FileObserver.java:237-257 | without a watch service, without a parent, or when the watch registration fails, register fails and no table changes; in particular no watch service gives exactly that error |
| FileObserving.RegisterSuccess | src/bt/io/files/FileObserver.java:244-272 | a directory is observed itself and a file through its parent; the file becomes the scoped file; patterns are stored one per string in order only for a non-empty list; every other key keeps its directory, scoped file and patterns |
| FileObserving.RegisterBadPattern | src/bt/io/files/FileObserver.java:260-270 | a pattern that fails to compile names the first bad string; the key's observed directory is already in paths, a non-directory is already its scoped file, and the filters are unchanged |
| FileObserving.RegisterKeepsTablesValid | src/bt/io/files/FileObserver.java:259-272 | every key with a scoped file or patterns also has an observed directory, before and after register |
| JsonLoading.JsonTextsAreKeyedEntries | src/bt/io/text/impl/JsonTextLoader.java:131-155 | the texts of a file are exactly those of its entries that have a key, one per such entry |
| JsonLoading.JsonTextSlot | src/bt/io/text/impl/JsonTextLoader.java:138-151 | an entry's text is filed under its lower-cased key in the upper-cased file language |
| JsonLoading.RepeatedKeyFails | src/bt/io/text/impl/JsonTextLoader.java:152 | two entries whose keys agree after lower-casing make loading the file fail |
| JsonLoading.RepeatedKeyTexts | src/bt/io/text/impl/JsonTextLoader.java:136-152 | such entries yield two texts with the same slot |
| JsonLoading.LoadedEntryIsFound | src/bt/io/text/impl/JsonTextLoader.java:136-152 | after a file has loaded, looking up an entry's key in the file language gives its value, or "* key *" with the lower-cased key when it has none |
| JsonLoading.JsonTextLoader.constructor | src/bt/io/text/impl/JsonTextLoader.java:23-26 | the loader keeps its base folder |
| JsonLoading.JsonTextLoader.Load | src/bt/io/text/impl/JsonTextLoader.java:33-164 | the sources are loaded first; a duplicate there stops the load; then the files of the group are selected with the ending fixed to "lang" and are loaded in order, and the first unreadable, malformed or duplicate-carrying file ends it |
| JsonLoading.JsonTextLoader.LoadFile | src/bt/io/text/impl/JsonTextLoader.java:111-155 | one file: unreadable, a missing or mistyped "language" or "texts" field, or the texts of its keyed entries added in order |
| YamlLoading.Get | src/bt/io/text/impl/YamlTextLoader.java:55-56 | a key has a value exactly when some entry has that key, and that entry is in the map |
| YamlLoading.FlattenCountsStrings | src/bt/io/text/impl/YamlTextLoader.java:73-105 | the number of texts equals the number of string leaves |
| YamlLoading.LeafIsFlattened | src/bt/io/text/impl/YamlTextLoader.java:77-104 | every string reached by a path of keys yields its dotted key and value |
| YamlLoading.FlattenedIsLeaf | src/bt/io/text/impl/YamlTextLoader.java:77-104 | every flattened pair is such a string leaf, so values that are neither strings nor maps are ignored |
| YamlLoading.PathIsJoin | src/bt/io/text/impl/YamlTextLoader.java:79-101 | the key built step by step is the segments joined by dots, with no leading dot at top level |
| YamlLoading.YamlTexts | src/bt/io/text/impl/YamlTextLoader.java:88-89 | one text per leaf: the upper-cased dotted key, the value, the upper-cased loader language |
| YamlLoading.YamlTextsAppend | src/bt/io/text/impl/YamlTextLoader.java:73-105 | the texts of two runs of leaves are those of each, in order |
| YamlLoading.LoadedLeafIsFound | src/bt/io/text/impl/YamlTextLoader.java:55-58 | after a file has loaded, the dotted key of any leaf, in any casing, finds the leaf's value in the loader's language |
| YamlLoading.YamlTextLoader.constructor | src/bt/io/text/impl/YamlTextLoader.java:21-25 | the loader keeps its base folder |
| YamlLoading.YamlTextLoader.Load | src/bt/io/text/impl/YamlTextLoader.java:32-67 | the sources are loaded first; then the ".yaml" files of the group are loaded in order, and the first failing file ends it |
| YamlLoading.YamlTextLoader.LoadFile | src/bt/io/text/impl/YamlTextLoader.java:43-58 | one file: unreadable, empty, not a mapping, "language" not a string, "texts" missing or not a mapping, or the flattened texts added in order |
| YamlLoading.YamlTextLoader.ParseTexts | src/bt/io/text/impl/YamlTextLoader.java:69-106 | the store gains the texts of the flattened map, added in iteration order, stopping at the first duplicate |
| YamlSaving.Put | src/bt/io/text/impl/YamlTextSaver.java:37 | after a put the entry is present, and every other entry was there before |
| YamlSaving.GetPut | src/bt/io/text/impl/YamlTextSaver.java:37 | after a put the key yields the new value, and every other key what it did |
| YamlSaving.PutKeepsKeysDistinct | src/bt/io/text/impl/YamlTextSaver.java:37 | a put keeps the keys distinct |
| YamlSaving.PutAtSucceeds | src/bt/io/text/impl/YamlTextSaver.java:50-68 | walking the key's parts succeeds when no proper prefix of them leads to a string |
| YamlSaving.PutAtFailsBelowString | src/bt/io/text/impl/YamlTextSaver.java:56-63 | walking the key's parts fails when a proper prefix of them leads to a string, where that string is cast to a map |
| YamlSaving.PutAtSucceedsIff | src/bt/io/text/impl/YamlTextSaver.java:50-68 | in a saved tree, walking the parts succeeds exactly when no proper prefix leads to a string |
| YamlSaving.PutAtLeaves | src/bt/io/text/impl/YamlTextSaver.java:33-37 | after putting a value at a path, the path leads to it, nothing leads through it, and every other path leads where it did |
| YamlSaving.LastValueIsLastWith | src/bt/io/text/impl/YamlTextSaver.java:31-38 | the last value saved under a key is the last one saved under its parts |
| YamlSaving.BuiltLeaves | src/bt/io/text/impl/YamlTextSaver.java:31-38 | for saveable texts, the save loop succeeds and every path leads to the last value saved under it |
| YamlSaving.SavedTextsFlattenBack | src/bt/io/text/impl/YamlTextSaver.java:31-38 | round trip with parseTexts, both ways: each flattened pair is a key with its last-written value, and each saved key appears with that value |
| YamlSaving.Save | src/bt/io/text/impl/YamlTextSaver.java:24-40 | the document has exactly "language" and "texts", with the map the loop builds, or the error the loop ends with |
| YamlSaving.BuiltErrIsFinal | src/bt/io/text/impl/YamlTextSaver.java:31-38 | once a text has failed, later texts do not change the outcome |
| YamlSaving.SavedTextsLoadBack | src/bt/io/text/impl/YamlTextSaver.java:24-48 | loading a saved document gives, for any casing of a saved key, the last value saved under it |
| YamlSaving.BuiltFailsBelowText | src/bt/io/text/impl/YamlTextSaver.java:31-37 | save ends with the cast failure, naming the lower-cased key, when the last text continues a path that the earlier texts already lead to a string |
| YamlSaving.KeyBelowTextFails | src/bt/io/text/impl/YamlTextSaver.java:63 | saving "A" and then "A.B" fails where the string at "a" is cast to a map |
| YamlSaving.TextAboveKeyReplacesGroup | src/bt/io/text/impl/YamlTextSaver.java:37 | saving "A.B" and then "A" overwrites the group "a" with the string |
| Strings.JavaSplitOfNoEmptySegment | src/bt/io/text/impl/YamlTextSaver.java:34 | for a key without empty segments, split drops nothing |
| Strings.SegmentPrefixIsDottedPrefix | src/bt/io/text/impl/YamlTextSaver.java:54-65 | when one key's segments start another key's segments, the first key is followed by a dot in the second |

## Left out

- The observe loop's control flow is not modelled: `watchService.take`, the `Thread.sleep` polling delay, `key.reset`, and the exit through `InterruptedException` or `ClosedWatchServiceException`. Neither are `observeNonBlocking`'s thread, the `Dispatcher` and its subscriptions, `dispatchEvent`, or `InstanceKiller`. These are operating-system I/O and concurrency. `PollEvents` returns the events the loop would dispatch.
- Closing the watch service in `kill` is not modelled. It is I/O, and only the flag is modelled.
- The `FileObserver` constructors that call `register` are not modelled separately. They are `register` after the empty construction, and `register(String)` is `Register` with the path as written.
- The Java regex engine is not modelled. A compiled pattern is a full-match predicate, and `Pattern.compile` a function that may fail. The loaders' own patterns are written out as string predicates. The group (other than "*"), the language and the ending are taken to contain no regex metacharacters. "." in `.{1,3}` and `.*` excludes line terminators.
- `$` and `\` in substitution parameters are not modelled. `replaceFirst` is taken to insert the parameter literally.
- Case mapping covers ASCII letters only. Java's locale-dependent and Unicode case mapping is not modelled.
- A `Text` in the store is a value. Aliasing between a stored `Text` and the caller's object is not modelled, nor is `update` changing a shared object in place.
- The discarded `textSource.loadTexts(group, "")` call in `load` is not modelled, because its result is never used. `TextSource.loadTexts` is a function of group and language supplied with each source.
- `Log`, `Null` and the text counters are not modelled. They only feed logging.
- `getText(key, parameters)`, `translate` and `translateToLanguage` are not modelled separately. They are thin accessors over the modelled `getTextForLanguage` members.
- Iteration orders are not modelled: those of `HashMap`, `keySet` and `listFiles` are taken as the order of the model's lists. `GetTexts` states which key each element comes from, but not the order of the keys.
- The "EN" defaults for a null language in `JsonTextLoader.load` (line 151) and `YamlTextLoader.parseTexts` (line 89) are left out. `getString` never returns null, and the loader's language is never null, so these branches cannot be reached.
- JSON entries that are not objects, and keys or values that are not strings, are not modelled. They make org.json throw.
- YAML keys that are not strings are not modelled.
- When saving, the model takes every text's value to be a string, so a null value is not modelled.
- `findMap` is modelled on values by the recursive `YamlSaving.PutAt`. It replaces a nested map rather than updating it in place, and the aliasing between nested maps is not modelled.
- TextStore.BaseTextLoader carries no class invariant that bucket names are upper-case. A text source's `loadTexts` is an arbitrary function of the model, so its results need not be normalised. The store-level lemmas `AddedAllKeepsUpperCaseBuckets` and `UpdatedKeepsUpperCaseBuckets` state the invariant for `add` of `Text` snapshots and for `update`.
- Audio, `JSON.java`, `JsonTextSaver`, `TextSaver` and all file reading and writing are not modelled. Directory trees and parsed documents are inputs.
