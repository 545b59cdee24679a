/**
 * YamlTextLoader: after the text sources, every selected ".yaml" file is read as a
 * mapping {language: ..., texts: {...}} whose "texts" mapping is flattened into
 * dotted keys, each string leaf becoming a text in the loader's own language.
 */
module YamlLoading {
  import opened Outcomes
  import opened Strings
  import opened Texts
  import opened TextStore
  import opened FileNames

  /**
   * What SnakeYAML hands back: a string, a mapping (its entries in the order the
   * map's key set is iterated), null, or any other value (numbers, lists, ...).
   */
  datatype YamlValue = YStr(s: string) | YMap(entries: seq<YamlEntry>) | YNull | YOther
  datatype YamlEntry = YamlEntry(key: string, value: YamlValue)

  /** Map.get: the value filed under k, if any. */
  function Get(es: seq<YamlEntry>, k: string): (r: Option<YamlValue>)
    ensures r.Some? <==> exists i :: 0 <= i < |es| && es[i].key == k
    ensures r.Some? ==> YamlEntry(k, r.value) in es
    decreases |es|
  {
    if es == [] then None
    else if es[0].key == k then Some(es[0].value)
    else Get(es[1..], k)
  }

  predicate DistinctKeys(es: seq<YamlEntry>)
  {
    forall i, j :: 0 <= i < j < |es| ==> es[i].key != es[j].key
  }

  /** A mapping as a Map holds it: no key twice, at any depth. */
  predicate Mapping(es: seq<YamlEntry>)
    decreases es
  {
    DistinctKeys(es) &&
    forall i :: 0 <= i < |es| ==> es[i].value.YMap? ==> Mapping(es[i].value.entries)
  }

  /** In a mapping, each entry is what Map.get answers for its key. */
  lemma GetOfEntry(es: seq<YamlEntry>, j: nat)
    requires DistinctKeys(es) && j < |es|
    ensures Get(es, es[j].key) == Some(es[j].value)
    decreases |es|
  {
    if j > 0 {
      assert es[1..][j - 1] == es[j];
      GetOfEntry(es[1..], j - 1);
    }
  }

  /** The key parseTexts builds: the key alone at top level, otherwise prefix + "." + key. */
  function Extend(prefix: string, key: string): string
  {
    if prefix == "" then key else prefix + "." + key
  }

  /** The dotted key reached from prefix through the keys in parts. */
  function Path(prefix: string, parts: seq<string>): string
    decreases |parts|
  {
    if parts == [] then prefix else Path(Extend(prefix, parts[0]), parts[1..])
  }

  /** The string reached through the keys in parts, if there is one. */
  function Leaf(es: seq<YamlEntry>, parts: seq<string>): Option<string>
    decreases |parts|
  {
    if parts == [] then None
    else
      match Get(es, parts[0])
      case Some(YStr(s)) => if |parts| == 1 then Some(s) else None
      case Some(YMap(sub)) => if |parts| == 1 then None else Leaf(sub, parts[1..])
      case _ => None
  }

  /** The (dotted key, string) pairs parseTexts(textMap, prefix) visits, in visiting order. */
  function Flatten(es: seq<YamlEntry>, prefix: string): seq<(string, string)>
    decreases es, 1
  {
    if es == [] then [] else FlattenEntry(es[0], prefix) + Flatten(es[1..], prefix)
  }

  function FlattenEntry(e: YamlEntry, prefix: string): seq<(string, string)>
    decreases e, 0
  {
    match e.value
    case YStr(s) => [(Extend(prefix, e.key), s)]
    case YMap(sub) => Flatten(sub, Extend(prefix, e.key))
    case _ => []
  }

  /** The number of strings at any depth of a value. */
  function StringLeaves(v: YamlValue): nat
    decreases v, 1
  {
    match v
    case YStr(_) => 1
    case YMap(es) => EntriesStringLeaves(es)
    case _ => 0
  }

  function EntriesStringLeaves(es: seq<YamlEntry>): nat
    decreases es, 0
  {
    if es == [] then 0 else StringLeaves(es[0].value) + EntriesStringLeaves(es[1..])
  }

  /** parseTexts adds one text per string leaf: nested maps are descended into, other values skipped. */
  lemma {:induction false} FlattenCountsStrings(es: seq<YamlEntry>, prefix: string)
    ensures |Flatten(es, prefix)| == EntriesStringLeaves(es)
    decreases es
  {
    if es != [] {
      FlattenCountsStrings(es[1..], prefix);
      if es[0].value.YMap? {
        FlattenCountsStrings(es[0].value.entries, Extend(prefix, es[0].key));
      }
    }
  }

  lemma {:induction false} FlattenOfMember(es: seq<YamlEntry>, prefix: string, j: nat)
    requires j < |es|
    ensures forall p :: p in FlattenEntry(es[j], prefix) ==> p in Flatten(es, prefix)
    decreases |es|
  {
    if j > 0 {
      assert es[1..][j - 1] == es[j];
      FlattenOfMember(es[1..], prefix, j - 1);
    }
  }

  lemma {:induction false} FlattenMember(es: seq<YamlEntry>, prefix: string, p: (string, string)) returns (j: nat)
    requires p in Flatten(es, prefix)
    ensures j < |es| && p in FlattenEntry(es[j], prefix)
    decreases |es|
  {
    if p in FlattenEntry(es[0], prefix) {
      j := 0;
    } else {
      var k := FlattenMember(es[1..], prefix, p);
      assert es[1..][k] == es[k + 1];
      j := k + 1;
    }
  }

  /** Every string leaf is visited, under the dotted key of its path. */
  lemma {:induction false} LeafIsFlattened(es: seq<YamlEntry>, prefix: string, parts: seq<string>)
    requires Leaf(es, parts).Some?
    ensures (Path(prefix, parts), Leaf(es, parts).value) in Flatten(es, prefix)
    decreases |parts|
  {
    var e := YamlEntry(parts[0], Get(es, parts[0]).value);
    var j :| 0 <= j < |es| && es[j] == e;
    FlattenOfMember(es, prefix, j);
    if |parts| > 1 {
      LeafIsFlattened(e.value.entries, Extend(prefix, parts[0]), parts[1..]);
    }
  }

  /** In a mapping, everything visited is a string leaf, under the dotted key of its path. */
  lemma {:induction false} FlattenedIsLeaf(es: seq<YamlEntry>, prefix: string, p: (string, string))
    requires Mapping(es) && p in Flatten(es, prefix)
    ensures exists parts :: Path(prefix, parts) == p.0 && Leaf(es, parts) == Some(p.1)
    decreases es
  {
    var j := FlattenMember(es, prefix, p);
    var e := es[j];
    GetOfEntry(es, j);
    match e.value
    case YStr(s) =>
      assert p == (Extend(prefix, e.key), s);
      assert [e.key][1..] == [];
      assert Path(prefix, [e.key]) == Extend(prefix, e.key);
      assert Get(es, e.key) == Some(YStr(s));
      assert Leaf(es, [e.key]) == Some(s);
    case YMap(sub) =>
      FlattenedIsLeaf(sub, Extend(prefix, e.key), p);
      var rest :| Path(Extend(prefix, e.key), rest) == p.0 && Leaf(sub, rest) == Some(p.1);
      var parts := [e.key] + rest;
      assert parts[0] == e.key && parts[1..] == rest;
      assert Path(prefix, parts) == p.0 && Leaf(es, parts) == Some(p.1);
  }

  /** A path of non-empty keys reads as those keys joined with dots. */
  lemma {:induction false} PathIsJoin(prefix: string, parts: seq<string>)
    requires parts != [] && forall i :: 0 <= i < |parts| ==> parts[i] != ""
    ensures Path(prefix, parts) == Extend(prefix, Join(parts))
    decreases |parts|
  {
    if |parts| > 1 {
      var rest := parts[1..];
      PathIsJoin(Extend(prefix, parts[0]), rest);
      assert Extend(prefix, parts[0]) != "" by {
        if prefix != "" {
          assert |prefix + "." + parts[0]| > 0;
        }
      }
      if prefix != "" {
        assert prefix + "." + parts[0] + "." + Join(rest) == prefix + "." + (parts[0] + "." + Join(rest));
      }
    }
  }

  /** The text for a leaf: its dotted key upper-cased, in the loader's language. */
  function YamlText(leaf: (string, string), language: string): TextValue
  {
    TextValue(Upper(leaf.0), leaf.1, Upper(language))
  }

  function YamlTexts(leaves: seq<(string, string)>, language: string): (r: seq<TextValue>)
    ensures |r| == |leaves|
    ensures forall i :: 0 <= i < |leaves| ==> r[i] == YamlText(leaves[i], language)
    decreases |leaves|
  {
    if leaves == [] then [] else [YamlText(leaves[0], language)] + YamlTexts(leaves[1..], language)
  }

  lemma {:induction false} YamlTextsAppend(a: seq<(string, string)>, b: seq<(string, string)>, language: string)
    ensures YamlTexts(a + b, language) == YamlTexts(a, language) + YamlTexts(b, language)
    decreases |a|
  {
    if a == [] {
      assert a + b == b;
    } else {
      assert (a + b)[0] == a[0];
      assert (a + b)[1..] == a[1..] + b;
      YamlTextsAppend(a[1..], b, language);
    }
  }

  /**
   * What loading one file does to the store: the document must be a mapping, its
   * "language" null or a string (and otherwise unused), its "texts" a mapping.
   */
  function YamlFileOutcome(s: Store, name: string, content: Option<YamlValue>, language: string): (Store, Option<LoadFailure>)
  {
    match content
    case None => (s, Some(Unreadable(name)))
    case Some(YNull) => (s, Some(NoDocument(name)))
    case Some(YMap(data)) =>
      if Get(data, "language").Some? && !(Get(data, "language").value.YNull? || Get(data, "language").value.YStr?) then
        (s, Some(WrongType(name, "language")))
      else
        (match Get(data, "texts")
         case Some(YMap(textMap)) =>
           var (s', dup) := AddedAll(s, YamlTexts(Flatten(textMap, ""), language));
           (s', if dup.Some? then Some(DuplicateKey(dup.value)) else None)
         case Some(YNull) => (s, Some(MissingField(name, "texts")))
         case None => (s, Some(MissingField(name, "texts")))
         case Some(_) => (s, Some(WrongType(name, "texts"))))
    case Some(_) => (s, Some(NotAMapping(name)))
  }

  /** Loading the selected files in order, stopping at the first failure. */
  function YamlFilesOutcome(s: Store, files: seq<Node<Option<YamlValue>>>, language: string): (Store, Option<LoadFailure>)
    decreases |files|
  {
    if files == [] then (s, None)
    else if files[0].Dir? then YamlFilesOutcome(s, files[1..], language)
    else
      var (s', failure) := YamlFileOutcome(s, files[0].name, files[0].content, language);
      if failure.Some? then (s', failure) else YamlFilesOutcome(s', files[1..], language)
  }

  /**
   * After a file loads without failure, every string leaf of its "texts" mapping
   * is found under its dotted key, in any letter case, in the loader's language.
   */
  lemma LoadedLeafIsFound(s: Store, name: string, data: seq<YamlEntry>, textMap: seq<YamlEntry>,
                          parts: seq<string>, key: string, language: string)
    requires Get(data, "texts") == Some(YMap(textMap))
    requires YamlFileOutcome(s, name, Some(YMap(data)), language).1.None?
    requires Leaf(textMap, parts).Some? && Lower(key) == Lower(Path("", parts))
    ensures Lookup(YamlFileOutcome(s, name, Some(YMap(data)), language).0, key, Upper(language), language).value ==
            Leaf(textMap, parts).value
  {
    var leaves := Flatten(textMap, "");
    var ts := YamlTexts(leaves, language);
    LeafIsFlattened(textMap, "", parts);
    var leaf := (Path("", parts), Leaf(textMap, parts).value);
    var i :| 0 <= i < |leaves| && leaves[i] == leaf;
    AddedAllFinds(s, ts);
    LowerOfUpper(leaf.0);
    assert ts[i] == YamlText(leaf, language);
  }

  /** YamlTextLoader: a BaseTextLoader with a base folder to search for ".yaml" files. */
  class YamlTextLoader {
    const base: BaseTextLoader
    const baseFolder: Node<Option<YamlValue>>

    constructor (base: BaseTextLoader, baseFolder: Node<Option<YamlValue>>)
      ensures this.base == base && this.baseFolder == baseFolder
    {
      this.base := base;
      this.baseFolder := baseFolder;
    }

    /** load(group): the base loader's load, then every selected file in order; the first failure ends it. */
    method Load(group: string) returns (failure: Option<LoadFailure>)
      modifies base`texts
      ensures var (s1, dup) := AddedAll(old(base.texts), Queued(Kept(base.textSources), group, base.loadMode, base.language));
              if dup.Some? then base.texts == s1 && failure == Some(DuplicateKey(dup.value))
              else match GroupFiles(base.loadMode, group, base.language, "yaml", baseFolder)
                   case Err(e) => base.texts == s1 && failure == Some(BadSelection(e))
                   case Ok(files) => (base.texts, failure) == YamlFilesOutcome(s1, files, base.language)
    {
      var before := base.texts;
      var ok := base.Load(group);
      if !ok {
        return Some(DuplicateKey(AddedAll(before, Queued(Kept(base.textSources), group, base.loadMode, base.language)).1.value));
      }
      var selection := GetGroupFiles(base, "yaml", baseFolder, group);
      if selection.Err? {
        return Some(BadSelection(selection.error));
      }
      var files := selection.value;
      ghost var s1 := base.texts;
      var i := 0;
      assert files[0..] == files;
      while i < |files|
        invariant 0 <= i <= |files|
        invariant YamlFilesOutcome(s1, files, base.language) == YamlFilesOutcome(base.texts, files[i..], base.language)
      {
        assert files[i..][0] == files[i] && files[i..][1..] == files[i + 1..];
        if files[i].Dir? {
          i := i + 1;
          continue;
        }
        failure := LoadFile(files[i].name, files[i].content);
        if failure.Some? {
          return;
        }
        i := i + 1;
      }
      failure := None;
    }

    /** The body of the loop over files, for one file. */
    method LoadFile(name: string, content: Option<YamlValue>) returns (failure: Option<LoadFailure>)
      modifies base`texts
      ensures (base.texts, failure) == YamlFileOutcome(old(base.texts), name, content, base.language)
    {
      if content.None? {
        return Some(Unreadable(name));
      }
      var yamlData := content.value;
      if yamlData.YNull? {
        return Some(NoDocument(name));
      }
      if !yamlData.YMap? {
        return Some(NotAMapping(name));
      }
      var language := Get(yamlData.entries, "language");
      if language.Some? && !(language.value.YNull? || language.value.YStr?) {
        return Some(WrongType(name, "language"));
      }
      var textMap := Get(yamlData.entries, "texts");
      if textMap.None? || textMap.value.YNull? {
        return Some(MissingField(name, "texts"));
      }
      if !textMap.value.YMap? {
        return Some(WrongType(name, "texts"));
      }
      var dup := ParseTexts(textMap.value.entries, "");
      failure := if dup.Some? then Some(DuplicateKey(dup.value)) else None;
    }

    /**
     * parseTexts(textMap, textKey): adds a text for every string leaf, in visiting
     * order; a duplicate key ends it, with the texts added so far kept.
     */
    method ParseTexts(textMap: seq<YamlEntry>, textKey: string) returns (failure: Option<string>)
      modifies base`texts
      ensures (base.texts, failure) == AddedAll(old(base.texts), YamlTexts(Flatten(textMap, textKey), base.language))
      decreases textMap
    {
      ghost var s0 := base.texts;
      var i := 0;
      assert textMap[0..] == textMap;
      while i < |textMap|
        invariant 0 <= i <= |textMap|
        invariant AddedAll(s0, YamlTexts(Flatten(textMap, textKey), base.language)) ==
                  AddedAll(base.texts, YamlTexts(Flatten(textMap[i..], textKey), base.language))
      {
        var key, value := textMap[i].key, textMap[i].value;
        ghost var here := YamlTexts(FlattenEntry(textMap[i], textKey), base.language);
        ghost var rest := YamlTexts(Flatten(textMap[i + 1..], textKey), base.language);
        assert textMap[i..][0] == textMap[i] && textMap[i..][1..] == textMap[i + 1..];
        YamlTextsAppend(FlattenEntry(textMap[i], textKey), Flatten(textMap[i + 1..], textKey), base.language);
        AddedAllAppend(base.texts, here, rest);
        if value.YStr? {
          var finalKey := textKey;
          if finalKey != "" {
            finalKey := finalKey + ".";
          }
          finalKey := finalKey + key;
          assert finalKey == Extend(textKey, key);
          var textObj := new Text(finalKey, value.s);
          textObj.SetLanguage(base.language);
          assert here == [textObj.Value()];
          var added := base.Add(textObj.Value());
          if !added {
            return Some(Lower(textObj.key));
          }
        } else if value.YMap? {
          var finalKey := textKey;
          if finalKey != "" {
            finalKey := finalKey + ".";
          }
          finalKey := finalKey + key;
          assert finalKey == Extend(textKey, key);
          failure := ParseTexts(value.entries, finalKey);
          if failure.Some? {
            return;
          }
        } else {
          assert here == [];
        }
        i := i + 1;
      }
      failure := None;
    }
  }
}
