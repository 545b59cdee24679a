/**
 * JsonTextLoader.load: after the text sources, every selected ".lang" file is
 * read as {"language": ..., "texts": [{"key": ..., "value": ...}, ...]} and each
 * entry with a key becomes a text added to the store.
 */
module JsonLoading {
  import opened Outcomes
  import opened Strings
  import opened Texts
  import opened TextStore
  import opened FileNames

  /** One object of the "texts" array: its "key" and "value" strings, either possibly absent. */
  datatype JsonEntry = JsonEntry(key: Option<string>, value: Option<string>)

  /**
   * A parsed language file. getString and getJSONArray throw when the field is
   * absent (Absent here) or of another type (Wrong here).
   */
  datatype Field<T> = Absent | Wrong | Present(value: T)
  datatype JsonFile = JsonFile(language: Field<string>, texts: Field<seq<JsonEntry>>)

  /** The text for an entry with key k: key lower-cased, "* key *" for a missing value, the file's language. */
  function JsonText(k: string, value: Option<string>, language: string): TextValue
  {
    var key := Lower(k);
    TextValue(Upper(key), if value.Some? then value.value else "* " + key + " *", Upper(language))
  }

  /** The texts of the entries that have a key, in order. */
  function JsonTexts(entries: seq<JsonEntry>, language: string): seq<TextValue>
  {
    if entries == [] then []
    else
      (if entries[0].key.Some? then [JsonText(entries[0].key.value, entries[0].value, language)] else [])
      + JsonTexts(entries[1..], language)
  }

  /** The entries without a key produce nothing; each one with a key produces its text. */
  lemma {:induction false} JsonTextsAreKeyedEntries(entries: seq<JsonEntry>, language: string)
    ensures forall t :: t in JsonTexts(entries, language) <==>
              exists j :: 0 <= j < |entries| && entries[j].key.Some? && t == JsonText(entries[j].key.value, entries[j].value, language)
    ensures |JsonTexts(entries, language)| == |KeyedEntries(entries)|
  {
    if entries != [] {
      JsonTextsAreKeyedEntries(entries[1..], language);
      forall t ensures t in JsonTexts(entries, language) <==>
                       exists j :: 0 <= j < |entries| && entries[j].key.Some? && t == JsonText(entries[j].key.value, entries[j].value, language) {
        if t in JsonTexts(entries[1..], language) {
          var j :| 0 <= j < |entries[1..]| && entries[1..][j].key.Some? &&
                   t == JsonText(entries[1..][j].key.value, entries[1..][j].value, language);
          assert entries[j + 1] == entries[1..][j];
        }
        if exists j :: 0 <= j < |entries| && entries[j].key.Some? && t == JsonText(entries[j].key.value, entries[j].value, language) {
          var j :| 0 <= j < |entries| && entries[j].key.Some? && t == JsonText(entries[j].key.value, entries[j].value, language);
          if j > 0 {
            assert entries[1..][j - 1] == entries[j];
          }
        }
      }
    }
  }

  function KeyedEntries(entries: seq<JsonEntry>): seq<JsonEntry>
  {
    if entries == [] then []
    else (if entries[0].key.Some? then [entries[0]] else []) + KeyedEntries(entries[1..])
  }

  /** An entry's text is filed under the upper-cased file language and the lower-cased key. */
  lemma JsonTextSlot(k: string, value: Option<string>, language: string)
    ensures Slot(JsonText(k, value, language)) == (Upper(language), Lower(k))
    ensures Normalised(JsonText(k, value, language))
  {
    LowerOfUpper(Lower(k));
    LowerIsLowerCase(k);
    NewTextsAreNormalised(Lower(k), "", language);
  }

  /** Two entries whose keys agree up to letter case make the file's load fail with a duplicate key. */
  lemma RepeatedKeyFails(s: Store, entries: seq<JsonEntry>, language: string, i: nat, j: nat)
    requires i < j < |entries| && entries[i].key.Some? && entries[j].key.Some?
    requires Lower(entries[i].key.value) == Lower(entries[j].key.value)
    ensures AddedAll(s, JsonTexts(entries, language)).1.Some?
  {
    RepeatedKeyTexts(entries, language, i, j);
    AddedAllSucceedsIff(s, JsonTexts(entries, language));
  }

  lemma {:induction false} RepeatedKeyTexts(entries: seq<JsonEntry>, language: string, i: nat, j: nat)
    requires i < j < |entries| && entries[i].key.Some? && entries[j].key.Some?
    requires Lower(entries[i].key.value) == Lower(entries[j].key.value)
    ensures exists a, b :: 0 <= a < b < |JsonTexts(entries, language)| &&
              Slot(JsonTexts(entries, language)[a]) == Slot(JsonTexts(entries, language)[b])
  {
    var ts := JsonTexts(entries, language);
    var rest := JsonTexts(entries[1..], language);
    var head := if entries[0].key.Some? then [JsonText(entries[0].key.value, entries[0].value, language)] else [];
    assert ts == head + rest;
    if i == 0 {
      JsonTextsAreKeyedEntries(entries[1..], language);
      var t := JsonText(entries[j].key.value, entries[j].value, language);
      assert entries[1..][j - 1] == entries[j];
      assert t in rest;
      var b :| 0 <= b < |rest| && rest[b] == t;
      JsonTextSlot(entries[0].key.value, entries[0].value, language);
      JsonTextSlot(entries[j].key.value, entries[j].value, language);
      assert ts[0] == head[0];
      assert ts[b + 1] == rest[b];
    } else {
      assert entries[1..][i - 1] == entries[i] && entries[1..][j - 1] == entries[j];
      RepeatedKeyTexts(entries[1..], language, i - 1, j - 1);
      var a, b :| 0 <= a < b < |rest| && Slot(rest[a]) == Slot(rest[b]);
      assert ts[|head| + a] == rest[a] && ts[|head| + b] == rest[b];
    }
  }

  /** What loading one file does to the store, and the failure it ends with, if any. */
  function JsonFileOutcome(s: Store, name: string, content: Option<JsonFile>): (Store, Option<LoadFailure>)
  {
    match content
    case None => (s, Some(Unreadable(name)))
    case Some(f) =>
      match f.language
      case Absent => (s, Some(MissingField(name, "language")))
      case Wrong => (s, Some(WrongType(name, "language")))
      case Present(language) =>
        match f.texts
        case Absent => (s, Some(MissingField(name, "texts")))
        case Wrong => (s, Some(WrongType(name, "texts")))
        case Present(entries) =>
          var (s', dup) := AddedAll(s, JsonTexts(entries, language));
          (s', if dup.Some? then Some(DuplicateKey(dup.value)) else None)
  }

  /** Loading the selected files in order, stopping at the first failure. */
  function JsonFilesOutcome(s: Store, files: seq<Node<Option<JsonFile>>>): (Store, Option<LoadFailure>)
    decreases |files|
  {
    if files == [] then (s, None)
    else if files[0].Dir? then JsonFilesOutcome(s, files[1..])
    else
      var (s', failure) := JsonFileOutcome(s, files[0].name, files[0].content);
      if failure.Some? then (s', failure) else JsonFilesOutcome(s', files[1..])
  }

  /**
   * After a file loads without failure, a lookup of any of its keys, in any
   * letter case, in the file's language answers the entry's value, or "* key *"
   * for an entry without one.
   */
  lemma LoadedEntryIsFound(s: Store, name: string, f: JsonFile, j: nat, key: string, loaderLanguage: string)
    requires f.language.Present? && f.texts.Present?
    requires JsonFileOutcome(s, name, Some(f)).1.None?
    requires j < |f.texts.value| && f.texts.value[j].key.Some?
    requires Lower(key) == Lower(f.texts.value[j].key.value)
    ensures var e := f.texts.value[j];
            Lookup(JsonFileOutcome(s, name, Some(f)).0, key, Upper(f.language.value), loaderLanguage).value ==
            if e.value.Some? then e.value.value else "* " + Lower(e.key.value) + " *"
  {
    var entries, language := f.texts.value, f.language.value;
    var e := entries[j];
    var ts := JsonTexts(entries, language);
    AddedAllFinds(s, ts);
    JsonTextsAreKeyedEntries(entries, language);
    var t := JsonText(e.key.value, e.value, language);
    assert t in ts;
    var i :| 0 <= i < |ts| && ts[i] == t;
    JsonTextSlot(e.key.value, e.value, language);
  }

  /** JsonTextLoader: a BaseTextLoader with a base folder to search for ".lang" files. */
  class JsonTextLoader {
    const base: BaseTextLoader
    const baseFolder: Node<Option<JsonFile>>

    constructor (base: BaseTextLoader, baseFolder: Node<Option<JsonFile>>)
      ensures this.base == base && this.baseFolder == baseFolder
    {
      this.base := base;
      this.baseFolder := baseFolder;
    }

    /** load(group): the base loader's load, then every selected file in order; the first failure ends it. */
    method Load(group: string) returns (failure: Option<LoadFailure>)
      modifies base`texts
      ensures var (s1, dup) := AddedAll(old(base.texts), Queued(Kept(base.textSources), group, base.loadMode, base.language));
              if dup.Some? then base.texts == s1 && failure == Some(DuplicateKey(dup.value))
              else match GroupFiles(base.loadMode, group, base.language, JsonEnding, baseFolder)
                   case Err(e) => base.texts == s1 && failure == Some(BadSelection(e))
                   case Ok(files) => (base.texts, failure) == JsonFilesOutcome(s1, files)
    {
      var before := base.texts;
      var ok := base.Load(group);
      if !ok {
        return Some(DuplicateKey(AddedAll(before, Queued(Kept(base.textSources), group, base.loadMode, base.language)).1.value));
      }
      var selection := GetGroupFiles(base, JsonEnding, baseFolder, group);
      if selection.Err? {
        return Some(BadSelection(selection.error));
      }
      var files := selection.value;
      ghost var s1 := base.texts;
      var i := 0;
      assert files[0..] == files;
      while i < |files|
        invariant 0 <= i <= |files|
        invariant JsonFilesOutcome(s1, files) == JsonFilesOutcome(base.texts, files[i..])
      {
        assert files[i..][0] == files[i] && files[i..][1..] == files[i + 1..];
        if files[i].Dir? {
          i := i + 1;
          continue;
        }
        failure := LoadFile(files[i].name, files[i].content);
        if failure.Some? {
          return;
        }
        i := i + 1;
      }
      failure := None;
    }

    /** The body of the loop over files, for one file. */
    method LoadFile(name: string, content: Option<JsonFile>) returns (failure: Option<LoadFailure>)
      modifies base`texts
      ensures (base.texts, failure) == JsonFileOutcome(old(base.texts), name, content)
    {
      if content.None? {
        return Some(Unreadable(name));
      }
      var jsonFile := content.value;
      if !jsonFile.language.Present? {
        return Some(if jsonFile.language.Absent? then MissingField(name, "language") else WrongType(name, "language"));
      }
      var language := jsonFile.language.value;
      if !jsonFile.texts.Present? {
        return Some(if jsonFile.texts.Absent? then MissingField(name, "texts") else WrongType(name, "texts"));
      }
      var jsonTextArray := jsonFile.texts.value;
      ghost var s0 := base.texts;
      var i := 0;
      assert jsonTextArray[0..] == jsonTextArray;
      while i < |jsonTextArray|
        invariant 0 <= i <= |jsonTextArray|
        invariant AddedAll(s0, JsonTexts(jsonTextArray, language)) == AddedAll(base.texts, JsonTexts(jsonTextArray[i..], language))
      {
        var jsonTextObj := jsonTextArray[i];
        assert jsonTextArray[i..][0] == jsonTextObj && jsonTextArray[i..][1..] == jsonTextArray[i + 1..];
        ghost var rest := JsonTexts(jsonTextArray[i + 1..], language);
        if jsonTextObj.key.Some? {
          ghost var t := JsonText(jsonTextObj.key.value, jsonTextObj.value, language);
          assert JsonTexts(jsonTextArray[i..], language) == [t] + rest;
          assert ([t] + rest)[0] == t && ([t] + rest)[1..] == rest;
          var key := Lower(jsonTextObj.key.value);
          var text := if jsonTextObj.value.Some? then jsonTextObj.value.value else "* " + key + " *";
          var textObj := new Text(key, text);
          textObj.SetLanguage(language);
          assert textObj.Value() == JsonText(jsonTextObj.key.value, jsonTextObj.value, language);
          var added := base.Add(textObj.Value());
          if !added {
            return Some(DuplicateKey(Lower(textObj.key)));
          }
        } else {
          assert JsonTexts(jsonTextArray[i..], language) == [] + rest;
          assert [] + rest == rest;
        }
        i := i + 1;
      }
      failure := None;
    }
  }
}
