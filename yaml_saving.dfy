/**
 * YamlTextSaver.save: every text's key is lower-cased and split at its dots, and
 * its value is put under the last segment inside nested maps for the others; the
 * document is {language: ..., texts: textMap}.
 */
module YamlSaving {
  import opened Outcomes
  import opened Strings
  import opened Texts
  import opened TextStore
  import opened FileNames
  import opened YamlLoading

  /** Why save throws. */
  datatype SaveError =
    | NotAMap(key: string)     // a segment of key already holds a string: ClassCastException in findMap
    | NoKeyParts(key: string)  // key splits into no segment at all ("."): ArrayIndexOutOfBoundsException

  /** Map.put: replaces the value under k where k is filed, otherwise adds the entry. */
  function Put(es: seq<YamlEntry>, k: string, v: YamlValue): (r: seq<YamlEntry>)
    ensures YamlEntry(k, v) in r
    ensures forall e :: e in r ==> e == YamlEntry(k, v) || e in es
    decreases |es|
  {
    if es == [] then [YamlEntry(k, v)]
    else if es[0].key == k then [YamlEntry(k, v)] + es[1..]
    else [es[0]] + Put(es[1..], k, v)
  }

  /** After put(k, v), get(k) answers v and every other key answers what it did. */
  lemma {:induction false} GetPut(es: seq<YamlEntry>, k: string, v: YamlValue, k': string)
    ensures Get(Put(es, k, v), k') == if k' == k then Some(v) else Get(es, k')
    decreases |es|
  {
    if es != [] && es[0].key != k {
      var r := Put(es, k, v);
      assert r[0] == es[0] && r[1..] == Put(es[1..], k, v);
      GetPut(es[1..], k, v, k');
    }
  }

  lemma {:induction false} PutKeepsKeysDistinct(es: seq<YamlEntry>, k: string, v: YamlValue)
    requires DistinctKeys(es)
    ensures DistinctKeys(Put(es, k, v))
    decreases |es|
  {
    if es != [] {
      var r := Put(es, k, v);
      if es[0].key == k {
        forall i, j | 0 <= i < j < |r| ensures r[i].key != r[j].key {
          assert r[j] == es[j];
          if i > 0 {
            assert r[i] == es[i];
          }
        }
      } else {
        var rest := Put(es[1..], k, v);
        assert DistinctKeys(es[1..]) by {
          forall i, j | 0 <= i < j < |es[1..]| ensures es[1..][i].key != es[1..][j].key {
            assert es[1..][i] == es[i + 1] && es[1..][j] == es[j + 1];
          }
        }
        PutKeepsKeysDistinct(es[1..], k, v);
        assert r == [es[0]] + rest;
        forall j | 0 < j < |r| ensures r[0].key != r[j].key {
          assert r[j] == rest[j - 1];
          assert rest[j - 1] in rest;
          if rest[j - 1] != YamlEntry(k, v) {
            var m :| 0 <= m < |es[1..]| && es[1..][m] == rest[j - 1];
            assert es[m + 1] == es[1..][m];
          }
        }
        forall i, j | 0 < i < j < |r| ensures r[i].key != r[j].key {
          assert r[i] == rest[i - 1] && r[j] == rest[j - 1];
        }
      }
    }
  }

  /** The shape save builds: distinct keys at every level, and only strings and maps as values. */
  predicate Tree(es: seq<YamlEntry>)
    decreases es
  {
    DistinctKeys(es) &&
    forall i :: 0 <= i < |es| ==> es[i].value.YStr? || (es[i].value.YMap? && Tree(es[i].value.entries))
  }

  lemma {:induction false} TreeIsMapping(es: seq<YamlEntry>)
    requires Tree(es)
    ensures Mapping(es)
    decreases es
  {
    forall i | 0 <= i < |es| && es[i].value.YMap? ensures Mapping(es[i].value.entries) {
      TreeIsMapping(es[i].value.entries);
    }
  }

  lemma GetOfTree(es: seq<YamlEntry>, k: string)
    requires Tree(es) && Get(es, k).Some?
    ensures Get(es, k).value.YStr? || (Get(es, k).value.YMap? && Tree(Get(es, k).value.entries))
  {
    var i :| 0 <= i < |es| && es[i] == YamlEntry(k, Get(es, k).value);
  }

  lemma PutKeepsTree(es: seq<YamlEntry>, k: string, v: YamlValue)
    requires Tree(es) && (v.YStr? || (v.YMap? && Tree(v.entries)))
    ensures Tree(Put(es, k, v))
  {
    PutKeepsKeysDistinct(es, k, v);
    var r := Put(es, k, v);
    forall i | 0 <= i < |r| ensures r[i].value.YStr? || (r[i].value.YMap? && Tree(r[i].value.entries)) {
      assert r[i] in r;
      if r[i] != YamlEntry(k, v) {
        var m :| 0 <= m < |es| && es[m] == r[i];
      }
    }
  }

  /**
   * findMap(textMap, parts) followed by put(last part, v): walks the first
   * |parts| - 1 segments, creating a missing map on the way and descending into an
   * existing one; a string on the way makes the cast fail (None).
   */
  function PutAt(es: seq<YamlEntry>, parts: seq<string>, v: string): Option<seq<YamlEntry>>
    requires parts != []
    decreases |parts|
  {
    if |parts| == 1 then Some(Put(es, parts[0], YStr(v)))
    else
      var found := Get(es, parts[0]);
      if found.Some? && !found.value.YMap? then None
      else
        match PutAt(if found.Some? then found.value.entries else [], parts[1..], v)
        case None => None
        case Some(inner) => Some(Put(es, parts[0], YMap(inner)))
  }

  /**
   * In a tree, putting v at path p succeeds when no proper prefix of p leads to a
   * string.
   */
  lemma {:induction false} PutAtSucceeds(es: seq<YamlEntry>, p: seq<string>, v: string)
    requires Tree(es) && p != []
    requires forall n :: 1 <= n < |p| ==> Leaf(es, p[..n]).None?
    ensures PutAt(es, p, v).Some?
    decreases |p|
  {
    if |p| > 1 {
      assert Leaf(es, p[..1]).None?;
      assert p[..1][0] == p[0];
      var found := Get(es, p[0]);
      var sub := if found.Some? then found.value.entries else [];
      if found.Some? {
        GetOfTree(es, p[0]);
      }
      forall n | 1 <= n < |p[1..]| ensures Leaf(sub, p[1..][..n]).None? {
        assert Leaf(es, p[..n + 1]).None?;
        assert p[..n + 1][0] == p[0] && p[..n + 1][1..] == p[1..][..n];
      }
      PutAtSucceeds(sub, p[1..], v);
    }
  }

  /** Putting v at path p fails when the proper prefix p[..n] of p leads to a string: findMap's cast of it to a map throws. */
  lemma {:induction false} PutAtFailsBelowString(es: seq<YamlEntry>, p: seq<string>, v: string, n: nat)
    requires 1 <= n < |p| && Leaf(es, p[..n]).Some?
    ensures PutAt(es, p, v).None?
    decreases n
  {
    assert p[..n][0] == p[0];
    var found := Get(es, p[0]);
    if n > 1 {
      var sub := found.value.entries;
      assert p[..n][1..] == p[1..][..n - 1];
      PutAtFailsBelowString(sub, p[1..], v, n - 1);
    }
  }

  /** In a tree, putting v at path p succeeds exactly when no proper prefix of p leads to a string. */
  lemma PutAtSucceedsIff(es: seq<YamlEntry>, p: seq<string>, v: string)
    requires Tree(es) && p != []
    ensures PutAt(es, p, v).Some? <==> forall n :: 1 <= n < |p| ==> Leaf(es, p[..n]).None?
  {
    if forall n :: 1 <= n < |p| ==> Leaf(es, p[..n]).None? {
      PutAtSucceeds(es, p, v);
    } else {
      var n :| 1 <= n < |p| && Leaf(es, p[..n]).Some?;
      PutAtFailsBelowString(es, p, v, n);
    }
  }

  lemma SameHeadSplit(p: seq<string>, q: seq<string>)
    requires p != [] && q != [] && p[0] == q[0]
    ensures q == p <==> q[1..] == p[1..]
    ensures ProperPrefix(p, q) <==> ProperPrefix(p[1..], q[1..])
  {
    assert p == [p[0]] + p[1..] && q == [q[0]] + q[1..];
    if |p| < |q| {
      assert q[..|p|] == [q[0]] + q[1..][..|p| - 1];
    }
  }

  /**
   * After putting v at path p into a tree, the result is a tree in which p leads to
   * v, nothing leads through p any more, and every other path leads where it did.
   */
  lemma {:induction false} PutAtLeaves(es: seq<YamlEntry>, p: seq<string>, v: string)
    requires Tree(es) && p != [] && PutAt(es, p, v).Some?
    ensures Tree(PutAt(es, p, v).value)
    ensures forall q :: Leaf(PutAt(es, p, v).value, q) ==
                        if q == p then Some(v) else if ProperPrefix(p, q) then None else Leaf(es, q)
    decreases |p|
  {
    if |p| == 1 {
      PutLeafLeaves(es, p, v);
    } else {
      var found := Get(es, p[0]);
      var sub := if found.Some? then found.value.entries else [];
      if found.Some? {
        GetOfTree(es, p[0]);
      }
      var inner := PutAt(sub, p[1..], v).value;
      assert PutAt(es, p, v).value == Put(es, p[0], YMap(inner));
      PutAtLeaves(sub, p[1..], v);
      PutGroupLeaves(es, p, v, sub, inner);
    }
  }

  /** The last step of PutAt: the string put under a key of the tree. */
  lemma PutLeafLeaves(es: seq<YamlEntry>, p: seq<string>, v: string)
    requires Tree(es) && |p| == 1
    ensures Tree(Put(es, p[0], YStr(v)))
    ensures forall q :: Leaf(Put(es, p[0], YStr(v)), q) ==
                        if q == p then Some(v) else if ProperPrefix(p, q) then None else Leaf(es, q)
  {
    var r := Put(es, p[0], YStr(v));
    PutKeepsTree(es, p[0], YStr(v));
    forall q ensures Leaf(r, q) == if q == p then Some(v) else if ProperPrefix(p, q) then None else Leaf(es, q) {
      if q != [] {
        GetPut(es, p[0], YStr(v), q[0]);
        if q[0] == p[0] {
          SameHeadSplit(p, q);
        }
      }
    }
  }

  /**
   * A step of PutAt through a group: the updated group inner, in which p[1..] leads
   * where the lemma says, replaces the group sub found under p[0], or is added.
   */
  lemma PutGroupLeaves(es: seq<YamlEntry>, p: seq<string>, v: string, sub: seq<YamlEntry>, inner: seq<YamlEntry>)
    requires Tree(es) && |p| > 1 && Tree(inner)
    requires Get(es, p[0]).Some? ==> Get(es, p[0]) == Some(YMap(sub))
    requires Get(es, p[0]).None? ==> sub == []
    requires forall q :: Leaf(inner, q) == if q == p[1..] then Some(v) else if ProperPrefix(p[1..], q) then None else Leaf(sub, q)
    ensures Tree(Put(es, p[0], YMap(inner)))
    ensures forall q :: Leaf(Put(es, p[0], YMap(inner)), q) ==
                        if q == p then Some(v) else if ProperPrefix(p, q) then None else Leaf(es, q)
  {
    PutKeepsTree(es, p[0], YMap(inner));
    forall q ensures Leaf(Put(es, p[0], YMap(inner)), q) ==
                     if q == p then Some(v) else if ProperPrefix(p, q) then None else Leaf(es, q) {
      PutGroupLeafAt(es, p, v, sub, inner, q);
    }
  }

  /** PutGroupLeaves for one path q. */
  lemma PutGroupLeafAt(es: seq<YamlEntry>, p: seq<string>, v: string, sub: seq<YamlEntry>, inner: seq<YamlEntry>, q: seq<string>)
    requires |p| > 1
    requires Get(es, p[0]).Some? ==> Get(es, p[0]) == Some(YMap(sub))
    requires Get(es, p[0]).None? ==> sub == []
    requires q != [] && q[0] == p[0] && |q| > 1 ==>
               Leaf(inner, q[1..]) == if q[1..] == p[1..] then Some(v) else if ProperPrefix(p[1..], q[1..]) then None else Leaf(sub, q[1..])
    ensures Leaf(Put(es, p[0], YMap(inner)), q) ==
            if q == p then Some(v) else if ProperPrefix(p, q) then None else Leaf(es, q)
  {
    var r := Put(es, p[0], YMap(inner));
    GetPut(es, p[0], YMap(inner), p[0]);
    if q != [] {
      GetPut(es, p[0], YMap(inner), q[0]);
    }
    GroupLeafAt(es, r, p, v, sub, inner, q);
  }

  /** The leaf at q of a mapping r that files inner under p[0] and agrees with es on every other key. */
  lemma GroupLeafAt(es: seq<YamlEntry>, r: seq<YamlEntry>, p: seq<string>, v: string, sub: seq<YamlEntry>, inner: seq<YamlEntry>, q: seq<string>)
    requires |p| > 1
    requires Get(r, p[0]) == Some(YMap(inner))
    requires q != [] && q[0] != p[0] ==> Get(r, q[0]) == Get(es, q[0])
    requires Get(es, p[0]).Some? ==> Get(es, p[0]) == Some(YMap(sub))
    requires Get(es, p[0]).None? ==> sub == []
    requires q != [] && q[0] == p[0] && |q| > 1 ==>
               Leaf(inner, q[1..]) == if q[1..] == p[1..] then Some(v) else if ProperPrefix(p[1..], q[1..]) then None else Leaf(sub, q[1..])
    ensures Leaf(r, q) == if q == p then Some(v) else if ProperPrefix(p, q) then None else Leaf(es, q)
  {
    if q != [] && q[0] == p[0] && |q| > 1 {
      SameHeadSplit(p, q);
      if Get(es, p[0]).None? {
        assert Leaf(sub, q[1..]) == None;
      }
    }
  }



  /** The segments a text is saved under. */
  function Parts(t: TextValue): seq<string>
  {
    JavaSplit(Lower(t.key))
  }

  /** One pass of save's loop: the text's value is put under its lower-cased key. */
  function Placed(textMap: seq<YamlEntry>, t: TextValue): Result<seq<YamlEntry>, SaveError>
  {
    var key := Lower(t.key);
    var keyParts := JavaSplit(key);
    if keyParts == [] then Err(NoKeyParts(key))
    else
      match PutAt(textMap, keyParts, t.value)
      case None => Err(NotAMap(key))
      case Some(m) => Ok(m)
  }

  /** The textMap save builds from texts, or the exception it ends with. */
  function Built(texts: seq<TextValue>): Result<seq<YamlEntry>, SaveError>
    decreases |texts|
  {
    if texts == [] then Ok([])
    else
      match Built(texts[..|texts| - 1])
      case Err(e) => Err(e)
      case Ok(m) => Placed(m, texts[|texts| - 1])
  }

  /** The value of the last text whose segments are parts. */
  function LastWith(texts: seq<TextValue>, parts: seq<string>): (r: Option<string>)
    ensures r.Some? <==> exists i :: 0 <= i < |texts| && Parts(texts[i]) == parts
    decreases |texts|
  {
    if texts == [] then None
    else if Parts(texts[|texts| - 1]) == parts then Some(texts[|texts| - 1].value)
    else LastWith(texts[..|texts| - 1], parts)
  }

  /** The value of the last text whose lower-cased key is key: what a later put leaves. */
  function LastValue(texts: seq<TextValue>, key: string): (r: Option<string>)
    ensures r.Some? <==> exists i :: 0 <= i < |texts| && Lower(texts[i].key) == key
    decreases |texts|
  {
    if texts == [] then None
    else if Lower(texts[|texts| - 1].key) == key then Some(texts[|texts| - 1].value)
    else LastValue(texts[..|texts| - 1], key)
  }

  /**
   * The condition under which save and parseTexts are inverse: every lower-cased
   * key is a dotted key without empty segments, and none continues another after a dot.
   */
  predicate Saveable(texts: seq<TextValue>)
  {
    (forall i :: 0 <= i < |texts| ==> NoEmptySegment(Lower(texts[i].key))) &&
    forall i, j :: 0 <= i < |texts| && 0 <= j < |texts| ==> !DottedPrefix(Lower(texts[i].key), Lower(texts[j].key))
  }

  lemma {:induction false} LastValueIsLastWith(texts: seq<TextValue>, key: string)
    requires forall i :: 0 <= i < |texts| ==> NoEmptySegment(Lower(texts[i].key))
    ensures LastValue(texts, key) == LastWith(texts, RawSplit(key))
    decreases |texts|
  {
    if texts != [] {
      var t := texts[|texts| - 1];
      JavaSplitOfNoEmptySegment(Lower(t.key));
      if RawSplit(Lower(t.key)) == RawSplit(key) {
        RawSplitInjective(Lower(t.key), key);
      }
      LastValueIsLastWith(texts[..|texts| - 1], key);
    }
  }

  /**
   * For saveable texts, save succeeds with a tree in which each text's segments
   * lead to the value of the last text with that key, and nothing else leads to a
   * string.
   */
  /** In saveable texts, the key parts of the last text and of any earlier one are nonempty and neither extends the other. */
  lemma LastKeyClashesWithNone(texts: seq<TextValue>)
    requires Saveable(texts) && texts != []
    ensures Parts(texts[|texts| - 1]) != []
    ensures forall i :: 0 <= i < |texts| - 1 ==>
              !ProperPrefix(Parts(texts[i]), Parts(texts[|texts| - 1])) && !ProperPrefix(Parts(texts[|texts| - 1]), Parts(texts[i]))
  {
    var t := texts[|texts| - 1];
    JavaSplitOfNoEmptySegment(Lower(t.key));
    forall i | 0 <= i < |texts| - 1
      ensures !ProperPrefix(Parts(texts[i]), Parts(t)) && !ProperPrefix(Parts(t), Parts(texts[i]))
    {
      JavaSplitOfNoEmptySegment(Lower(texts[i].key));
      SegmentPrefixIsDottedPrefix(Lower(texts[i].key), Lower(t.key));
      SegmentPrefixIsDottedPrefix(Lower(t.key), Lower(texts[i].key));
    }
  }

  lemma {:induction false} BuiltLeaves(texts: seq<TextValue>)
    requires Saveable(texts)
    ensures Built(texts).Ok? && Tree(Built(texts).value)
    ensures forall q :: Leaf(Built(texts).value, q) == LastWith(texts, q)
    decreases |texts|
  {
    if texts != [] {
      var pre, t := texts[..|texts| - 1], texts[|texts| - 1];
      SaveablePrefix(texts);
      BuiltLeaves(pre);
      var m := Built(pre).value;
      var p := Parts(t);
      LastKeyClashesWithNone(texts);
      forall n | 1 <= n < |p| ensures Leaf(m, p[..n]).None? {
        NoEarlierKeyAround(texts, p[..n]);
      }
      PutAtSucceeds(m, p, t.value);
      PutAtLeaves(m, p, t.value);
      forall q ensures Leaf(Built(texts).value, q) == LastWith(texts, q) {
        if ProperPrefix(p, q) {
          NoEarlierKeyAround(texts, q);
        }
      }
    }
  }

  /**
   * save ends with the ClassCastException when the last text's key continues, after
   * a dot, a path that the texts before it already lead to a string.
   */
  lemma BuiltFailsBelowText(texts: seq<TextValue>, n: nat)
    requires texts != [] && Built(texts[..|texts| - 1]).Ok?
    requires 1 <= n < |Parts(texts[|texts| - 1])|
    requires Leaf(Built(texts[..|texts| - 1]).value, Parts(texts[|texts| - 1])[..n]).Some?
    ensures Built(texts) == Err(NotAMap(Lower(texts[|texts| - 1].key)))
  {
    var t := texts[|texts| - 1];
    PutAtFailsBelowString(Built(texts[..|texts| - 1]).value, Parts(t), t.value, n);
  }

  lemma SaveablePrefix(texts: seq<TextValue>)
    requires Saveable(texts) && texts != []
    ensures Saveable(texts[..|texts| - 1])
  {
    assert forall i :: 0 <= i < |texts| - 1 ==> texts[..|texts| - 1][i] == texts[i];
  }

  /** In saveable texts, no earlier text is saved under a path that the last one's path extends or is extended by. */
  lemma NoEarlierKeyAround(texts: seq<TextValue>, q: seq<string>)
    requires Saveable(texts) && texts != []
    requires ProperPrefix(q, Parts(texts[|texts| - 1])) || ProperPrefix(Parts(texts[|texts| - 1]), q)
    ensures LastWith(texts[..|texts| - 1], q) == None
  {
    var pre := texts[..|texts| - 1];
    LastKeyClashesWithNone(texts);
    forall i | 0 <= i < |pre| ensures Parts(pre[i]) != q {
      assert pre[i] == texts[i];
    }
  }

  /**
   * Save, then parseTexts: for saveable texts, the (key, value) pairs parseTexts
   * visits in the saved textMap are exactly the lower-cased keys with the value
   * of the last text saved under each.
   */
  lemma SavedTextsFlattenBack(texts: seq<TextValue>)
    requires Saveable(texts)
    ensures Built(texts).Ok?
    ensures forall p :: p in Flatten(Built(texts).value, "") ==> LastValue(texts, p.0) == Some(p.1)
    ensures forall key :: LastValue(texts, key).Some? ==> (key, LastValue(texts, key).value) in Flatten(Built(texts).value, "")
  {
    BuiltLeaves(texts);
    var m := Built(texts).value;
    TreeIsMapping(m);
    forall p | p in Flatten(m, "") ensures LastValue(texts, p.0) == Some(p.1) {
      FlattenedIsLeaf(m, "", p);
      var parts :| Path("", parts) == p.0 && Leaf(m, parts) == Some(p.1);
      var i :| 0 <= i < |texts| && Parts(texts[i]) == parts;
      var key := Lower(texts[i].key);
      JavaSplitOfNoEmptySegment(key);
      PathIsJoin("", parts);
      JoinRawSplit(key);
      LastValueIsLastWith(texts, key);
    }
    forall key | LastValue(texts, key).Some? ensures (key, LastValue(texts, key).value) in Flatten(m, "") {
      var i :| 0 <= i < |texts| && Lower(texts[i].key) == key;
      LastValueIsLastWith(texts, key);
      LeafIsFlattened(m, "", RawSplit(key));
      PathIsJoin("", RawSplit(key));
      JoinRawSplit(key);
    }
  }

  /** The saved document: exactly the entries "language" and "texts". */
  function Document(language: string, textMap: seq<YamlEntry>): YamlValue
  {
    YMap([YamlEntry("language", YStr(language)), YamlEntry("texts", YMap(textMap))])
  }

  /**
   * save(file, language, texts), without the file: the document it dumps, or the
   * exception it ends with.
   */
  method Save(language: string, texts: seq<TextValue>) returns (r: Result<YamlValue, SaveError>)
    ensures Built(texts).Ok? ==> r == Ok(Document(language, Built(texts).value))
    ensures Built(texts).Err? ==> r == Err(Built(texts).error)
  {
    var textMap: seq<YamlEntry> := [];
    var i := 0;
    while i < |texts|
      invariant 0 <= i <= |texts|
      invariant Built(texts[..i]) == Ok(textMap)
    {
      assert texts[..i + 1][..i] == texts[..i];
      var key := Lower(texts[i].key);
      var keyParts := JavaSplit(key);
      if keyParts == [] {
        BuiltErrIsFinal(texts, i + 1);
        return Err(NoKeyParts(key));
      }
      var placed := PutAt(textMap, keyParts, texts[i].value);
      if placed.None? {
        BuiltErrIsFinal(texts, i + 1);
        return Err(NotAMap(key));
      }
      textMap := placed.value;
      i := i + 1;
    }
    assert texts[..i] == texts;
    r := Ok(Document(language, textMap));
  }

  lemma {:induction false} BuiltErrIsFinal(texts: seq<TextValue>, k: nat)
    requires k <= |texts| && Built(texts[..k]).Err?
    ensures Built(texts) == Built(texts[..k])
    decreases |texts| - k
  {
    if k < |texts| {
      assert texts[..k + 1][..k] == texts[..k];
      BuiltErrIsFinal(texts, k + 1);
    } else {
      assert texts[..k] == texts;
    }
  }

  /**
   * Save, then load: once the saved document loads without a duplicate, every
   * saved key, in any letter case, looks up the value last saved under it, in
   * the loader's language.
   */
  lemma SavedTextsLoadBack(s: Store, name: string, language: string, texts: seq<TextValue>, loaderLanguage: string, key: string)
    requires Saveable(texts) && Built(texts).Ok?
    requires YamlFileOutcome(s, name, Some(Document(language, Built(texts).value)), loaderLanguage).1.None?
    requires LastValue(texts, Lower(key)).Some?
    ensures Lookup(YamlFileOutcome(s, name, Some(Document(language, Built(texts).value)), loaderLanguage).0,
                   key, Upper(loaderLanguage), loaderLanguage).value == LastValue(texts, Lower(key)).value
  {
    BuiltLeaves(texts);
    var m := Built(texts).value;
    var data := [YamlEntry("language", YStr(language)), YamlEntry("texts", YMap(m))];
    assert Get(data, "texts") == Some(YMap(m));
    var x := Lower(key);
    var i :| 0 <= i < |texts| && Lower(texts[i].key) == x;
    LastValueIsLastWith(texts, x);
    PathIsJoin("", RawSplit(x));
    JoinRawSplit(x);
    LowerIsLowerCase(key);
    LoadedLeafIsFound(s, name, data, m, RawSplit(x), key, loaderLanguage);
  }

  /** Why saveable texts are needed: a key that continues a saved text's key cannot be saved. */
  lemma KeyBelowTextFails()
    ensures Built([TextValue("A", "x", "EN"), TextValue("A.B", "y", "EN")]) == Err(NotAMap("a.b"))
  {
    var ts := [TextValue("A", "x", "EN"), TextValue("A.B", "y", "EN")];
    assert ts[..1] == [ts[0]] && [ts[0]][..0] == [];
    assert Lower("A") == "a" && Lower("A.B") == "a.b";
    SplitOfAB();
    assert JavaSplit("a") == ["a"];
    assert Built(ts[..1]) == Ok([YamlEntry("a", YStr("x"))]);
  }

  /** ... and a text whose key a saved key continues replaces the whole group. */
  lemma TextAboveKeyReplacesGroup()
    ensures Built([TextValue("A.B", "y", "EN"), TextValue("A", "x", "EN")]) == Ok([YamlEntry("a", YStr("x"))])
  {
    var ts := [TextValue("A.B", "y", "EN"), TextValue("A", "x", "EN")];
    assert ts[..1] == [ts[0]] && [ts[0]][..0] == [];
    assert Lower("A") == "a" && Lower("A.B") == "a.b";
    SplitOfAB();
    assert JavaSplit("a") == ["a"];
    var m := [YamlEntry("a", YMap([YamlEntry("b", YStr("y"))]))];
    assert Built(ts[..1]) == Ok(m);
    assert m[1..] == [];
    assert Put(m, "a", YStr("x")) == [YamlEntry("a", YStr("x"))];
    assert Placed(m, ts[1]) == Ok([YamlEntry("a", YStr("x"))]);
  }

  lemma SplitOfAB()
    ensures JavaSplit("a.b") == ["a", "b"]
  {
    assert "a.b" == "a" + "." + "b";
    RawSplitCons("a", "b");
    RawSplitOfDotFree("b");
    assert "a.b"[1] == '.';
  }
}
