/**
 * The text store of BaseTextLoader: language -> (lower-cased key -> text), with
 * add, update, lookup with the "* key *" fallback, placeholder substitution and
 * loading from registered text sources.
 */
module TextStore {
  import opened Outcomes
  import opened Strings
  import opened Texts

  /** The load modes of the TextLoader interface. */
  const EagerLoading := 1
  const LazyLoading := 2

  /** texts: language -> (key -> text). */
  type Store = map<string, map<string, TextValue>>

  /** texts.get(language).get(key), where either lookup may miss. */
  function Find(s: Store, language: string, key: string): Option<TextValue>
  {
    if language in s && key in s[language] then Some(s[language][key]) else None
  }

  /** The bucket and key add files a text under. */
  function Slot(t: TextValue): (string, string)
  {
    (t.language, Lower(t.key))
  }

  /**
   * add(text): files the text under its language and lower-cased key, creating the
   * bucket if needed; a key already present fails with that key (TextLoadException).
   */
  function Added(s: Store, t: TextValue): (r: Result<Store, string>)
    ensures r.Err? <==> Find(s, t.language, Lower(t.key)).Some?
    ensures r.Err? ==> r.error == Lower(t.key)
    ensures r.Ok? ==> forall l, k :: Find(r.value, l, k) == if (l, k) == Slot(t) then Some(t) else Find(s, l, k)
  {
    var bucket := if t.language in s then s[t.language] else map[];
    var key := Lower(t.key);
    if key in bucket then Err(key) else Ok(s[t.language := bucket[key := t]])
  }

  /** add applied to each text in order; the first duplicate key ends it, with the texts added so far kept. */
  function AddedAll(s: Store, ts: seq<TextValue>): (Store, Option<string>)
    decreases |ts|
  {
    if ts == [] then (s, None)
    else
      match Added(s, ts[0])
      case Err(key) => (s, Some(key))
      case Ok(s') => AddedAll(s', ts[1..])
  }

  /** Adding a concatenation is adding the first part, then, if that succeeded, the second. */
  lemma {:induction false} AddedAllAppend(s: Store, a: seq<TextValue>, b: seq<TextValue>)
    ensures AddedAll(s, a + b) ==
            if AddedAll(s, a).1.Some? then AddedAll(s, a) else AddedAll(AddedAll(s, a).0, b)
    decreases |a|
  {
    if a == [] {
      assert a + b == b;
    } else {
      assert (a + b)[0] == a[0];
      assert (a + b)[1..] == a[1..] + b;
      match Added(s, a[0])
      case Err(_) =>
      case Ok(s') => AddedAllAppend(s', a[1..], b);
    }
  }

  /** No text collides with the store, and no two texts share a slot. */
  predicate FreshSlots(s: Store, ts: seq<TextValue>)
  {
    && (forall i :: 0 <= i < |ts| ==> Find(s, ts[i].language, Lower(ts[i].key)).None?)
    && (forall i, j :: 0 <= i < j < |ts| ==> Slot(ts[i]) != Slot(ts[j]))
  }

  /** Adding a list of texts fails exactly when one of them collides with the store or with an earlier one. */
  lemma {:induction false} AddedAllSucceedsIff(s: Store, ts: seq<TextValue>)
    ensures AddedAll(s, ts).1.None? <==> FreshSlots(s, ts)
    decreases |ts|
  {
    if ts != [] {
      match Added(s, ts[0])
      case Err(_) =>
        assert !FreshSlots(s, ts) by {
          assert Find(s, ts[0].language, Lower(ts[0].key)).Some?;
        }
      case Ok(s') =>
        AddedAllSucceedsIff(s', ts[1..]);
        var tail := ts[1..];
        if FreshSlots(s, ts) {
          forall i | 0 <= i < |tail| ensures Find(s', tail[i].language, Lower(tail[i].key)).None? {
            assert tail[i] == ts[i + 1];
            assert Slot(ts[0]) != Slot(ts[i + 1]);
            assert Find(s', tail[i].language, Lower(tail[i].key)) == Find(s, ts[i + 1].language, Lower(ts[i + 1].key));
          }
          forall i, j | 0 <= i < j < |tail| ensures Slot(tail[i]) != Slot(tail[j]) {
            assert tail[i] == ts[i + 1] && tail[j] == ts[j + 1];
          }
          assert FreshSlots(s', tail);
        }
        if FreshSlots(s', tail) {
          forall i | 0 <= i < |ts| ensures Find(s, ts[i].language, Lower(ts[i].key)).None? {
            if i > 0 {
              assert tail[i - 1] == ts[i];
              assert Find(s', ts[i].language, Lower(ts[i].key)).None?;
            }
          }
          forall i, j | 0 <= i < j < |ts| ensures Slot(ts[i]) != Slot(ts[j]) {
            if i == 0 {
              assert tail[j - 1] == ts[j];
              assert Find(s', ts[j].language, Lower(ts[j].key)).None?;
            } else {
              assert tail[i - 1] == ts[i] && tail[j - 1] == ts[j];
            }
          }
        }
    }
  }

  /** After a successful add of a list, each text is found in its slot and every other slot is as before. */
  lemma {:induction false} AddedAllFinds(s: Store, ts: seq<TextValue>)
    requires AddedAll(s, ts).1.None?
    ensures forall i :: 0 <= i < |ts| ==> Find(AddedAll(s, ts).0, ts[i].language, Lower(ts[i].key)) == Some(ts[i])
    ensures forall l, k :: (forall i :: 0 <= i < |ts| ==> Slot(ts[i]) != (l, k)) ==> Find(AddedAll(s, ts).0, l, k) == Find(s, l, k)
    decreases |ts|
  {
    if ts != [] {
      var s' := Added(s, ts[0]).value;
      var tail := ts[1..];
      AddedAllFinds(s', tail);
      AddedAllSucceedsIff(s, ts);
      var r := AddedAll(s, ts).0;
      assert r == AddedAll(s', tail).0;
      forall i | 0 <= i < |ts| ensures Find(r, ts[i].language, Lower(ts[i].key)) == Some(ts[i]) {
        if i == 0 {
          forall j | 0 <= j < |tail| ensures Slot(tail[j]) != Slot(ts[0]) {
            assert tail[j] == ts[j + 1];
          }
        } else {
          assert tail[i - 1] == ts[i];
        }
      }
      forall l, k | (forall i :: 0 <= i < |ts| ==> Slot(ts[i]) != (l, k)) ensures Find(r, l, k) == Find(s, l, k) {
        forall j | 0 <= j < |tail| ensures Slot(tail[j]) != (l, k) {
          assert tail[j] == ts[j + 1];
        }
        assert Slot(ts[0]) != (l, k);
      }
    }
  }

  /** r lists the texts of bucket under the distinct keys ks: one element per key, each the text filed under it. */
  ghost predicate ListsBucket(ks: seq<string>, r: seq<TextValue>, bucket: map<string, TextValue>)
  {
    && |ks| == |r|
    && (forall i, j :: 0 <= i < j < |ks| ==> ks[i] != ks[j])
    && (forall k :: k in ks <==> k in bucket)
    && forall i :: 0 <= i < |ks| ==> ks[i] in bucket && r[i] == bucket[ks[i]]
  }

  /** r lists the texts of bucket under the distinct keys ks, which are exactly the keys in done. */
  ghost predicate ListsSome(ks: seq<string>, r: seq<TextValue>, bucket: map<string, TextValue>, done: set<string>)
  {
    && |ks| == |r|
    && (forall i, j :: 0 <= i < j < |ks| ==> ks[i] != ks[j])
    && (forall k :: k in ks <==> k in done)
    && forall i :: 0 <= i < |ks| ==> ks[i] in bucket && r[i] == bucket[ks[i]]
  }

  /** Listing one more key of the bucket. */
  lemma ListsOneMore(ks: seq<string>, r: seq<TextValue>, bucket: map<string, TextValue>, done: set<string>, k: string)
    requires ListsSome(ks, r, bucket, done) && k in bucket && k !in done
    ensures ListsSome(ks + [k], r + [bucket[k]], bucket, done + {k})
  {
    var ks', r' := ks + [k], r + [bucket[k]];
    forall i | 0 <= i < |ks| ensures ks'[i] == ks[i] && r'[i] == r[i] {
    }
  }

  /** Once every key is done, the listing covers the bucket. */
  lemma ListsAll(ks: seq<string>, r: seq<TextValue>, bucket: map<string, TextValue>, done: set<string>)
    requires ListsSome(ks, r, bucket, done) && done == bucket.Keys
    ensures ListsBucket(ks, r, bucket)
  {
  }

  /** A listing of a bucket has as many elements as the bucket has keys, and holds exactly its texts. */
  lemma ListedBucketValues(ks: seq<string>, r: seq<TextValue>, bucket: map<string, TextValue>)
    requires ListsBucket(ks, r, bucket)
    ensures |r| == |bucket|
    ensures forall t :: t in r <==> t in bucket.Values
  {
    DistinctCardinality(ks);
    assert (set k | k in ks) == bucket.Keys;
    forall t | t in bucket.Values ensures t in r {
      var k :| k in bucket && bucket[k] == t;
      var i :| 0 <= i < |ks| && ks[i] == k;
    }
  }

  lemma {:induction false} DistinctCardinality(ks: seq<string>)
    requires forall i, j :: 0 <= i < j < |ks| ==> ks[i] != ks[j]
    ensures |set k | k in ks| == |ks|
    decreases |ks|
  {
    if ks != [] {
      var pre := ks[..|ks| - 1];
      DistinctCardinality(pre);
      assert (set k | k in ks) == (set k | k in pre) + {ks[|ks| - 1]};
      assert ks[|ks| - 1] !in (set k | k in pre);
    }
  }

  /** Every bucket of s is named by an upper-case language, as Text's constructors and setLanguage guarantee. */
  predicate UpperCaseBuckets(s: Store)
  {
    forall l :: l in s ==> IsUpperCase(l)
  }

  /** add of normalised texts, as every Text is, only ever creates upper-case buckets. */
  lemma {:induction false} AddedAllKeepsUpperCaseBuckets(s: Store, ts: seq<TextValue>)
    requires UpperCaseBuckets(s)
    requires forall i :: 0 <= i < |ts| ==> Normalised(ts[i])
    ensures UpperCaseBuckets(AddedAll(s, ts).0)
    decreases |ts|
  {
    if ts != [] {
      match Added(s, ts[0])
      case Err(_) =>
      case Ok(s') =>
        assert s'.Keys == s.Keys + {ts[0].language};
        forall i | 0 <= i < |ts[1..]| ensures Normalised(ts[1..][i]) {
          assert ts[1..][i] == ts[i + 1];
        }
        AddedAllKeepsUpperCaseBuckets(s', ts[1..]);
    }
  }


  /** The text getTextForLanguage makes up for a missing key: "* key *" in the loader's language. */
  function Fallback(key: string, loaderLanguage: string): TextValue
  {
    TextValue(Upper(key), "* " + key + " *", Upper(loaderLanguage))
  }

  /** getTextForLanguage(key, language): the stored text for the lower-cased key, or the fallback. */
  function Lookup(s: Store, key: string, language: string, loaderLanguage: string): TextValue
  {
    match Find(s, language, Lower(key))
    case Some(t) => t
    case None => Fallback(key, loaderLanguage)
  }

  /** A text added to the store is what a lookup of its key, in any letter case, returns. */
  lemma LookupAfterAdd(s: Store, t: TextValue, key: string, loaderLanguage: string)
    requires Added(s, t).Ok?
    requires Lower(key) == Lower(t.key)
    ensures Lookup(Added(s, t).value, key, t.language, loaderLanguage) == t
  {
    assert Find(Added(s, t).value, t.language, Lower(key)) == Some(t);
  }

  /** A missing key yields "* key *", tagged with the loader's language rather than the requested one. */
  lemma LookupMissing(s: Store, key: string, language: string, loaderLanguage: string)
    requires Find(s, language, Lower(key)).None?
    ensures var t := Lookup(s, key, language, loaderLanguage);
            t.value == "* " + key + " *" && t.language == Upper(loaderLanguage) && t.key == Upper(key)
  {
  }

  /** Buckets are looked up as given: a store filled through add and update never answers a language that is not upper-case. */
  lemma LookupOfLowerCaseLanguageFallsBack(s: Store, key: string, language: string, loaderLanguage: string)
    requires UpperCaseBuckets(s)
    requires !IsUpperCase(language)
    ensures Lookup(s, key, language, loaderLanguage) == Fallback(key, loaderLanguage)
  {
  }

  /** A "{}" starts at position j of s. */
  predicate HoleAt(s: string, j: int)
  {
    0 <= j && j + 1 < |s| && s[j] == '{' && s[j + 1] == '}'
  }

  /** The position of the first "{}" in s, if any. */
  function FirstPlaceholder(s: string): (r: Option<nat>)
    ensures r.Some? ==> HoleAt(s, r.value)
    ensures r.Some? ==> forall j :: 0 <= j < r.value ==> !HoleAt(s, j)
    ensures r.None? ==> forall j :: !HoleAt(s, j)
  {
    if |s| < 2 then None
    else if s[0] == '{' && s[1] == '}' then Some(0)
    else
      var r := FirstPlaceholder(s[1..]);
      assert forall j :: 0 < j ==> HoleAt(s, j) == HoleAt(s[1..], j - 1);
      match r
      case None => None
      case Some(i) => Some(i + 1)
  }

  /** replaceFirst("\\{}", p), with p taken literally. */
  function ReplaceFirst(s: string, p: string): string
  {
    match FirstPlaceholder(s)
    case None => s
    case Some(i) => s[..i] + p + s[i + 2..]
  }

  /** A parameter as toString shows it; a null parameter becomes "null". */
  function Shown(p: Option<string>): string
  {
    match p
    case None => "null"
    case Some(v) => v
  }

  /** Each parameter, in order, replaces the first "{}" still present. */
  function Substitute(s: string, params: seq<Option<string>>): string
    decreases |params|
  {
    if params == [] then s else Substitute(ReplaceFirst(s, Shown(params[0])), params[1..])
  }

  predicate NoBraces(s: string)
  {
    '{' !in s && '}' !in s
  }

  /** The template pieces[0] {} pieces[1] {} ... {} pieces[n-1]. */
  function Template(pieces: seq<string>): string
  {
    if |pieces| <= 1 then (if pieces == [] then "" else pieces[0])
    else pieces[0] + "{}" + Template(pieces[1..])
  }

  /** The template with its holes filled by the given strings, in order. */
  function Filled(pieces: seq<string>, fills: seq<string>): string
    requires |fills| + 1 == |pieces|
  {
    if fills == [] then pieces[0]
    else pieces[0] + fills[0] + Filled(pieces[1..], fills[1..])
  }

  /** A string without "{}" is left alone, whatever the parameters. */
  lemma {:induction false} SubstituteWithoutPlaceholder(s: string, params: seq<Option<string>>)
    requires FirstPlaceholder(s).None?
    ensures Substitute(s, params) == s
  {
    if params != [] {
      SubstituteWithoutPlaceholder(s, params[1..]);
    }
  }

  lemma {:induction false} NoBracesNoPlaceholder(s: string)
    requires NoBraces(s)
    ensures FirstPlaceholder(s).None?
  {
  }

  lemma {:induction false} FirstPlaceholderOfPieceThenHole(a: string, rest: string)
    requires NoBraces(a)
    ensures FirstPlaceholder(a + "{}" + rest) == Some(|a|)
  {
    if a != [] {
      assert a == [a[0]] + a[1..];
      FirstPlaceholderOfPieceThenHole(a[1..], rest);
      assert (a + "{}" + rest)[1..] == a[1..] + "{}" + rest;
      assert (a + "{}" + rest)[0] == a[0];
    }
  }

  /** Replacing the first "{}" after a brace-free head. */
  lemma ReplaceFirstAfterHead(head: string, rest: string, p: string)
    requires NoBraces(head)
    ensures ReplaceFirst(head + "{}" + rest, p) == head + p + rest
  {
    FirstPlaceholderOfPieceThenHole(head, rest);
    var s := head + "{}" + rest;
    assert s[..|head|] == head;
    assert s[|head| + 2..] == rest;
  }

  lemma NoBracesConcat(a: string, b: string)
    requires NoBraces(a) && NoBraces(b)
    ensures NoBraces(a + b)
  {
  }

  /**
   * With brace-free pieces and parameters, substitution fills the holes of a
   * template in order; parameters beyond the holes change nothing.
   */
  lemma SubstituteFillsTemplate(pieces: seq<string>, params: seq<Option<string>>)
    requires |pieces| >= 1 && |params| >= |pieces| - 1
    requires forall i :: 0 <= i < |pieces| ==> NoBraces(pieces[i])
    requires forall i :: 0 <= i < |params| ==> NoBraces(Shown(params[i]))
    ensures Substitute(Template(pieces), params) == Filled(pieces, ShownAll(params[..|pieces| - 1]))
  {
    SubstituteFillsTemplateAfter("", pieces, params);
    assert "" + Template(pieces) == Template(pieces);
    assert "" + Filled(pieces, ShownAll(params[..|pieces| - 1])) == Filled(pieces, ShownAll(params[..|pieces| - 1]));
  }

  /** Substitution past a brace-free prefix: the prefix is kept and the rest filled. */
  lemma {:induction false} SubstituteFillsTemplateAfter(done: string, pieces: seq<string>, params: seq<Option<string>>)
    requires NoBraces(done)
    requires |pieces| >= 1 && |params| >= |pieces| - 1
    requires forall i :: 0 <= i < |pieces| ==> NoBraces(pieces[i])
    requires forall i :: 0 <= i < |params| ==> NoBraces(Shown(params[i]))
    ensures Substitute(done + Template(pieces), params) == done + Filled(pieces, ShownAll(params[..|pieces| - 1]))
    decreases |pieces|
  {
    var n := |pieces| - 1;
    var head := done + pieces[0];
    NoBracesConcat(done, pieces[0]);
    if n == 0 {
      NoBracesNoPlaceholder(head);
      SubstituteWithoutPlaceholder(head, params);
      assert params[..0] == [];
    } else {
      var rest := Template(pieces[1..]);
      var p := Shown(params[0]);
      assert done + Template(pieces) == head + "{}" + rest;
      ReplaceFirstAfterHead(head, rest, p);
      assert Substitute(done + Template(pieces), params) == Substitute(head + p + rest, params[1..]);
      NoBracesConcat(head, p);
      BraceFreeTails(pieces, params);
      SubstituteFillsTemplateAfter(head + p, pieces[1..], params[1..]);
      FilledUnfold(done, pieces, params);
    }
  }

  /** The tails of brace-free pieces and parameters are brace-free. */
  lemma BraceFreeTails(pieces: seq<string>, params: seq<Option<string>>)
    requires pieces != [] && params != []
    requires forall i :: 0 <= i < |pieces| ==> NoBraces(pieces[i])
    requires forall i :: 0 <= i < |params| ==> NoBraces(Shown(params[i]))
    ensures forall i :: 0 <= i < |pieces[1..]| ==> NoBraces(pieces[1..][i])
    ensures forall i :: 0 <= i < |params[1..]| ==> NoBraces(Shown(params[1..][i]))
  {
    forall i | 0 <= i < |params[1..]| ensures NoBraces(Shown(params[1..][i])) {
      assert params[1..][i] == params[i + 1];
    }
    forall i | 0 <= i < |pieces[1..]| ensures NoBraces(pieces[1..][i]) {
      assert pieces[1..][i] == pieces[i + 1];
    }
  }

  /** One hole of a filled template: the first piece and the first parameter, then the rest. */
  lemma FilledUnfold(done: string, pieces: seq<string>, params: seq<Option<string>>)
    requires |pieces| >= 2 && |params| >= |pieces| - 1
    ensures done + Filled(pieces, ShownAll(params[..|pieces| - 1])) ==
            (done + pieces[0] + Shown(params[0])) + Filled(pieces[1..], ShownAll(params[1..][..|pieces| - 2]))
  {
    var n := |pieces| - 1;
    ShownAllTail(params, n);
    FilledRegroup(done, pieces, ShownAll(params[..n]));
  }

  /** The first shown parameter, and the rest shown. */
  lemma ShownAllTail(params: seq<Option<string>>, n: nat)
    requires 1 <= n <= |params|
    ensures ShownAll(params[..n])[0] == Shown(params[0])
    ensures ShownAll(params[..n])[1..] == ShownAll(params[1..][..n - 1])
  {
    var ps := params[..n];
    assert ps[0] == params[0];
    assert ps[1..] == params[1..][..n - 1];
  }

  /** Filling the first hole, with what came before kept in front. */
  lemma FilledRegroup(done: string, pieces: seq<string>, fills: seq<string>)
    requires |fills| + 1 == |pieces| && fills != []
    ensures done + Filled(pieces, fills) == (done + pieces[0] + fills[0]) + Filled(pieces[1..], fills[1..])
  {
    ConcatRegroup(done, pieces[0], fills[0], Filled(pieces[1..], fills[1..]));
  }


  lemma ConcatRegroup(a: string, b: string, c: string, d: string)
    ensures ((a + b) + c) + d == a + ((b + c) + d)
  {
  }

  function ShownAll(params: seq<Option<string>>): (r: seq<string>)
    ensures |r| == |params|
  {
    if params == [] then [] else [Shown(params[0])] + ShownAll(params[1..])
  }

  /**
   * update(key, language, value) as written: if the lower-cased key is present in
   * the upper-cased language's bucket, only that text's value changes; otherwise a
   * new text is put under the key exactly as given, not lower-cased.
   */
  function Updated(s: Store, key: string, language: string, value: string): Store
  {
    var l := Upper(language);
    var bucket := if l in s then s[l] else map[];
    if Lower(key) !in bucket then s[l := bucket[key := TextValue(Upper(key), value, l)]]
    else s[l := bucket[Lower(key) := bucket[Lower(key)].(value := value)]]
  }

  /** Updating a present key changes only that text's value, and no other slot. */
  lemma UpdateOfPresentKey(s: Store, key: string, language: string, value: string)
    requires Find(s, Upper(language), Lower(key)).Some?
    ensures Find(Updated(s, key, language, value), Upper(language), Lower(key)) ==
            Some(Find(s, Upper(language), Lower(key)).value.(value := value))
    ensures forall l, k :: (l, k) != (Upper(language), Lower(key)) ==> Find(Updated(s, key, language, value), l, k) == Find(s, l, k)
  {
  }

  /**
   * Updating a missing key files a new text under the key as given; when that key
   * is not lower-case, a lookup of it still answers the fallback.
   */
  lemma UpdateOfMissingKey(s: Store, key: string, language: string, value: string, loaderLanguage: string)
    requires Find(s, Upper(language), Lower(key)).None?
    ensures Find(Updated(s, key, language, value), Upper(language), key) == Some(TextValue(Upper(key), value, Upper(language)))
    ensures forall l, k :: (l, k) != (Upper(language), key) ==> Find(Updated(s, key, language, value), l, k) == Find(s, l, k)
    ensures IsLowerCase(key) ==> Lookup(Updated(s, key, language, value), key, Upper(language), loaderLanguage).value == value
    ensures !IsLowerCase(key) ==>
              Lookup(Updated(s, key, language, value), key, Upper(language), loaderLanguage) == Fallback(key, loaderLanguage)
  {
  }

  /** update upper-cases the language it files under, so it too only creates upper-case buckets. */
  lemma UpdatedKeepsUpperCaseBuckets(s: Store, key: string, language: string, value: string)
    requires UpperCaseBuckets(s)
    ensures UpperCaseBuckets(Updated(s, key, language, value))
  {
    UpperIsUpperCase(language);
  }

  /**
   * A text source: its class name, and loadTexts(group, language) as a function
   * (None stands for null, both as argument and as result).
   */
  datatype TextSource = TextSource(className: string, loadTexts: (string, Option<string>) -> Option<seq<TextValue>>)

  function ClassNames(ss: seq<TextSource>): (r: seq<string>)
    ensures |r| == |ss| && forall i :: 0 <= i < |ss| ==> r[i] == ss[i].className
  {
    if ss == [] then [] else ClassNames(ss[..|ss| - 1]) + [ss[|ss| - 1].className]
  }

  /** The sources load consults: the first registered one of each class. */
  function Kept(ss: seq<TextSource>): seq<TextSource>
  {
    if ss == [] then []
    else
      var kept := Kept(ss[..|ss| - 1]);
      if ss[|ss| - 1].className in ClassNames(kept) then kept else kept + [ss[|ss| - 1]]
  }

  /** ss[i] is the first source registered with its class name. */
  predicate FirstOfItsClass(ss: seq<TextSource>, i: int)
    requires 0 <= i < |ss|
  {
    forall j :: 0 <= j < i ==> ss[j].className != ss[i].className
  }

  /** No two kept sources share a class name. */
  predicate DistinctClasses(k: seq<TextSource>)
  {
    forall i, j :: 0 <= i < j < |k| ==> k[i].className != k[j].className
  }

  lemma {:induction false} KeptClassesDistinct(ss: seq<TextSource>)
    ensures DistinctClasses(Kept(ss))
    decreases |ss|
  {
    if ss != [] {
      var kept := Kept(ss[..|ss| - 1]);
      KeptClassesDistinct(ss[..|ss| - 1]);
      var last := ss[|ss| - 1];
      if last.className !in ClassNames(kept) {
        var k := kept + [last];
        assert Kept(ss) == k;
        forall i, j | 0 <= i < j < |k| ensures k[i].className != k[j].className {
          assert k[i] == kept[i];
          if j < |kept| {
            assert k[j] == kept[j];
          } else {
            assert ClassNames(kept)[i] == kept[i].className;
          }
        }
      } else {
        assert Kept(ss) == kept;
      }
    }
  }

  /** Every kept source is a registered one. */
  lemma {:induction false} KeptAreRegistered(ss: seq<TextSource>)
    ensures forall x :: x in Kept(ss) ==> x in ss
    decreases |ss|
  {
    if ss != [] {
      var pre := ss[..|ss| - 1];
      KeptAreRegistered(pre);
      assert forall x :: x in pre ==> x in ss;
    }
  }

  /** Every registered class name is the class name of some kept source. */
  lemma {:induction false} KeptCoversClasses(ss: seq<TextSource>)
    ensures forall i :: 0 <= i < |ss| ==> ss[i].className in ClassNames(Kept(ss))
    decreases |ss|
  {
    if ss != [] {
      var n := |ss| - 1;
      var pre := ss[..n];
      var kept := Kept(pre);
      KeptCoversClasses(pre);
      var k := Kept(ss);
      if ss[n].className in ClassNames(kept) {
        assert k == kept;
      } else {
        assert k == kept + [ss[n]];
        ClassesOfExtension(kept, k);
        assert ClassNames(k)[|k| - 1] == ss[n].className;
      }
      forall i | 0 <= i < n ensures ss[i].className in ClassNames(k) {
        assert pre[i] == ss[i];
      }
    }
  }

  /** Every class name of a list of sources is a class name of any list that extends it. */
  lemma ClassesOfExtension(kept: seq<TextSource>, k: seq<TextSource>)
    requires |kept| <= |k| && k[..|kept|] == kept
    ensures forall c :: c in ClassNames(kept) ==> c in ClassNames(k)
  {
    forall c | c in ClassNames(kept) ensures c in ClassNames(k) {
      var q :| 0 <= q < |kept| && ClassNames(kept)[q] == c;
      assert k[q] == kept[q];
      assert ClassNames(k)[q] == c;
    }
  }


  /** Every kept source is the first registered source of its class. */
  lemma {:induction false} KeptAreFirsts(ss: seq<TextSource>)
    ensures forall x :: x in Kept(ss) ==> exists i :: 0 <= i < |ss| && ss[i] == x && FirstOfItsClass(ss, i)
    decreases |ss|
  {
    if ss != [] {
      var n := |ss| - 1;
      var pre := ss[..n];
      var kept := Kept(pre);
      KeptAreFirsts(pre);
      KeptCoversClasses(pre);
      forall x | x in Kept(ss) ensures exists i :: 0 <= i < |ss| && ss[i] == x && FirstOfItsClass(ss, i) {
        if x in kept {
          var j :| 0 <= j < |pre| && pre[j] == x && FirstOfItsClass(pre, j);
          assert ss[j] == x;
          assert FirstOfItsClass(ss, j) by {
            forall m | 0 <= m < j ensures ss[m].className != ss[j].className {
              assert pre[m] == ss[m];
            }
          }
        } else {
          assert x == ss[n];
          forall j | 0 <= j < n ensures ss[j].className != ss[n].className {
            assert pre[j] == ss[j];
          }
          assert FirstOfItsClass(ss, n);
        }
      }
    }
  }

  /** The first registered source of each class is kept. */
  lemma {:induction false} FirstsAreKept(ss: seq<TextSource>)
    ensures forall i :: 0 <= i < |ss| && FirstOfItsClass(ss, i) ==> ss[i] in Kept(ss)
    decreases |ss|
  {
    if ss != [] {
      var n := |ss| - 1;
      var pre := ss[..n];
      FirstsAreKept(pre);
      forall i | 0 <= i < n && FirstOfItsClass(ss, i) ensures ss[i] in Kept(ss) {
        assert pre[i] == ss[i];
        assert FirstOfItsClass(pre, i) by {
          forall m | 0 <= m < i ensures pre[m].className != pre[i].className {
            assert pre[m] == ss[m];
          }
        }
        KeptGrows(ss);
      }
      if FirstOfItsClass(ss, n) {
        LastFirstIsKept(ss);
      }
    }
  }

  lemma KeptGrows(ss: seq<TextSource>)
    requires ss != []
    ensures forall x :: x in Kept(ss[..|ss| - 1]) ==> x in Kept(ss)
  {
  }

  /** A class no source carries is not among the kept class names. */
  lemma {:induction false} AbsentClassNotKept(ss: seq<TextSource>, c: string)
    requires forall j :: 0 <= j < |ss| ==> ss[j].className != c
    ensures c !in ClassNames(Kept(ss))
    decreases |ss|
  {
    if ss != [] {
      var pre := ss[..|ss| - 1];
      assert forall j :: 0 <= j < |pre| ==> pre[j] == ss[j];
      AbsentClassNotKept(pre, c);
    }
  }

  lemma LastFirstIsKept(ss: seq<TextSource>)
    requires ss != [] && FirstOfItsClass(ss, |ss| - 1)
    ensures ss[|ss| - 1] in Kept(ss)
  {
    var n := |ss| - 1;
    var pre := ss[..n];
    assert forall j :: 0 <= j < |pre| ==> pre[j] == ss[j];
    AbsentClassNotKept(pre, ss[n].className);
    assert Kept(ss) == Kept(pre) + [ss[n]];
  }

  /** The argument load passes to loadTexts: the current language when lazy, null when eager, nothing otherwise. */
  function Request(loadMode: int, language: string): Option<Option<string>>
  {
    if loadMode == LazyLoading then Some(Some(language))
    else if loadMode == EagerLoading then Some(None)
    else None
  }

  /** The texts one source contributes; a null list contributes none. */
  function SourceTexts(src: TextSource, group: string, loadMode: int, language: string): seq<TextValue>
  {
    match Request(loadMode, language)
    case None => []
    case Some(arg) =>
      match src.loadTexts(group, arg)
      case None => []
      case Some(ts) => ts
  }

  /** All texts load adds, source after source. */
  function Queued(ks: seq<TextSource>, group: string, loadMode: int, language: string): seq<TextValue>
  {
    if ks == [] then []
    else Queued(ks[..|ks| - 1], group, loadMode, language) + SourceTexts(ks[|ks| - 1], group, loadMode, language)
  }

  /** With a load mode other than eager or lazy, load asks no source for texts. */
  lemma {:induction false} UnknownModeLoadsNothing(ks: seq<TextSource>, group: string, loadMode: int, language: string)
    requires loadMode != EagerLoading && loadMode != LazyLoading
    ensures Queued(ks, group, loadMode, language) == []
  {
    if ks != [] {
      UnknownModeLoadsNothing(ks[..|ks| - 1], group, loadMode, language);
    }
  }

  /** BaseTextLoader: the store, the current language and load mode, and the registered text sources. */
  class BaseTextLoader {
    var loadMode: int
    var language: string
    var texts: Store
    var textSources: seq<TextSource>

    constructor ()
      ensures loadMode == LazyLoading && language == "EN" && texts == map[] && textSources == []
    {
      loadMode := LazyLoading;
      language := "EN";
      texts := map[];
      textSources := [];
    }

    function GetLanguage(): string
      reads this
    {
      language
    }

    method SetLanguage(language: string)
      modifies this`language
      ensures this.language == Upper(language) && IsUpperCase(this.language)
    {
      this.language := Upper(language);
      UpperIsUpperCase(language);
    }

    function GetLoadMode(): int
      reads this
    {
      loadMode
    }

    method SetLoadMode(mode: int)
      modifies this`loadMode
      ensures loadMode == mode
    {
      loadMode := mode;
    }

    /** getTexts: the text of every key of the current language's bucket, once per key; empty without a bucket. */
    method GetTexts() returns (r: seq<TextValue>)
      ensures language !in texts ==> r == []
      ensures language in texts ==> exists ks :: ListsBucket(ks, r, texts[language])
    {
      r := [];
      if language !in texts {
        return;
      }
      var bucket := texts[language];
      var left := bucket.Keys;
      ghost var ks: seq<string> := [];
      while left != {}
        invariant left <= bucket.Keys
        invariant ListsSome(ks, r, bucket, bucket.Keys - left)
        decreases |left|
      {
        var k :| k in left;
        ListsOneMore(ks, r, bucket, bucket.Keys - left, k);
        assert (bucket.Keys - left) + {k} == bucket.Keys - (left - {k});
        r := r + [bucket[k]];
        ks := ks + [k];
        left := left - {k};
      }
      ListsAll(ks, r, bucket, bucket.Keys - left);
    }

    /** getTextForLanguage(key, language): the text stored for the lower-cased key in the bucket named language, or the fallback. */
    function GetTextForLanguage(key: string, language: string): (r: TextValue)
      reads this
      ensures Find(texts, language, Lower(key)).Some? ==> r == Find(texts, language, Lower(key)).value
      ensures Find(texts, language, Lower(key)).None? ==> r == Fallback(key, this.language)
    {
      Lookup(texts, key, language, this.language)
    }

    /** getText(key): the text stored for the lower-cased key in the current language, or the fallback. */
    function GetText(key: string): (r: TextValue)
      reads this
      ensures Find(texts, language, Lower(key)).Some? ==> r == Find(texts, language, Lower(key)).value
      ensures Find(texts, language, Lower(key)).None? ==> r == Fallback(key, language)
    {
      GetTextForLanguage(key, language)
    }

    /**
     * getTextForLanguage(key, language, parameters): the looked-up value with each
     * parameter substituted in turn, returned as a new text in the loader's language.
     */
    method GetTextForLanguageWith(key: string, language: string, parameters: Option<seq<Option<string>>>)
      returns (t: TextValue)
      ensures t.key == Upper(key) && t.language == Upper(this.language)
      ensures parameters.None? ==> t.value == GetTextForLanguage(key, language).value
      ensures parameters.Some? ==> t.value == Substitute(GetTextForLanguage(key, language).value, parameters.value)
    {
      var currentText := GetTextForLanguage(key, language).value;
      if parameters.Some? {
        var ps := parameters.value;
        ghost var target := Substitute(currentText, ps);
        var i := 0;
        while i < |ps|
          invariant 0 <= i <= |ps|
          invariant Substitute(currentText, ps[i..]) == target
        {
          assert ps[i..][1..] == ps[i + 1..];
          currentText := ReplaceFirst(currentText, Shown(ps[i]));
          i := i + 1;
        }
      }
      t := TextValue(Upper(key), currentText, Upper(this.language));
    }

    /** add(text): files the snapshot; a duplicate key leaves the store unchanged and reports failure. */
    method Add(t: TextValue) returns (ok: bool)
      modifies this`texts
      ensures ok <==> Added(old(texts), t).Ok?
      ensures texts == if ok then Added(old(texts), t).value else old(texts)
    {
      var bucket := if t.language in texts then texts[t.language] else map[];
      var key := Lower(t.key);
      if key in bucket {
        return false;
      }
      texts := texts[t.language := bucket[key := t]];
      ok := true;
    }

    method Update(key: string, language: string, value: string)
      modifies this`texts
      ensures texts == Updated(old(texts), key, language, value)
    {
      var l := Upper(language);
      var bucket := if l in texts then texts[l] else map[];
      if Lower(key) !in bucket {
        texts := texts[l := bucket[key := TextValue(Upper(key), value, l)]];
      } else {
        var text := bucket[Lower(key)];
        texts := texts[l := bucket[Lower(key) := text.(value := value)]];
      }
    }

    method Register(source: TextSource)
      modifies this`textSources
      ensures textSources == old(textSources) + [source]
    {
      textSources := textSources + [source];
    }

    /** kill: forgets every registered source and every loaded text. */
    method Kill()
      modifies this`textSources, this`texts
      ensures textSources == [] && texts == map[]
    {
      textSources := [];
      texts := map[];
    }

    /** clear: forgets the loaded texts; the sources stay registered. */
    method Clear()
      modifies this`texts
      ensures texts == map[]
    {
      texts := map[];
    }

    /**
     * The part of load for one kept source: ask it for texts as the load mode
     * says, then add them in turn; a duplicate ends it, with the texts before it kept.
     */
    method LoadSource(source: TextSource, group: string) returns (dup: Option<string>)
      modifies this`texts
      ensures (texts, dup) == AddedAll(old(texts), SourceTexts(source, group, loadMode, language))
    {
      var loadedTexts: Option<seq<TextValue>> := None;
      if loadMode == LazyLoading {
        loadedTexts := source.loadTexts(group, Some(language));
      } else if loadMode == EagerLoading {
        loadedTexts := source.loadTexts(group, None);
      }
      var added := if loadedTexts.Some? then loadedTexts.value else [];
      assert added == SourceTexts(source, group, loadMode, language);
      ghost var s0 := texts;
      var k := 0;
      assert added[0..] == added;
      while k < |added|
        invariant 0 <= k <= |added|
        invariant AddedAll(s0, added) == AddedAll(texts, added[k..])
      {
        assert added[k..][0] == added[k];
        assert added[k..][1..] == added[k + 1..];
        var accepted := Add(added[k]);
        if !accepted {
          return Some(Lower(added[k].key));
        }
        k := k + 1;
      }
      dup := None;
    }

    /**
     * load(group): asks the first source of each class for its texts (after a
     * discarded call with language ""), in the way the load mode says, and adds them
     * all; a duplicate key ends it with what was added so far kept.
     */
    method Load(group: string) returns (ok: bool)
      modifies this`texts
      ensures (texts, ok) == (AddedAll(old(texts), Queued(Kept(textSources), group, loadMode, language)).0,
                              AddedAll(old(texts), Queued(Kept(textSources), group, loadMode, language)).1.None?)
    {
      ghost var s0 := texts;
      var loadedClasses: seq<string> := [];
      var i := 0;
      assert textSources[..0] == [];
      while i < |textSources|
        invariant 0 <= i <= |textSources|
        invariant loadedClasses == ClassNames(Kept(textSources[..i]))
        invariant AddedAll(s0, Queued(Kept(textSources[..i]), group, loadMode, language)) == (texts, None)
      {
        var source := textSources[i];
        KeptStep(textSources, i);
        if source.className in loadedClasses {
          i := i + 1;
          continue;
        }
        LoadStep(s0, textSources, i, group, loadMode, language);
        loadedClasses := loadedClasses + [source.className];
        var dup := LoadSource(source, group);
        if dup.Some? {
          LoadFailureIsFinal(s0, textSources, i + 1, group, loadMode, language);
          return false;
        }
        i := i + 1;
      }
      assert textSources[..i] == textSources;
      ok := true;
    }
  }

  /** One more registration: kept when its class is new. */
  lemma KeptStep(ss: seq<TextSource>, i: nat)
    requires i < |ss|
    ensures Kept(ss[..i + 1]) == if ss[i].className in ClassNames(Kept(ss[..i])) then Kept(ss[..i]) else Kept(ss[..i]) + [ss[i]]
  {
    assert ss[..i + 1][..i] == ss[..i];
    assert ss[..i + 1][i] == ss[i];
  }

  /** One more registration with a new class: its texts are added after those before it. */
  lemma LoadStep(s0: Store, ss: seq<TextSource>, i: nat, group: string, loadMode: int, language: string)
    requires i < |ss| && ss[i].className !in ClassNames(Kept(ss[..i]))
    requires AddedAll(s0, Queued(Kept(ss[..i]), group, loadMode, language)).1.None?
    ensures ClassNames(Kept(ss[..i + 1])) == ClassNames(Kept(ss[..i])) + [ss[i].className]
    ensures AddedAll(s0, Queued(Kept(ss[..i + 1]), group, loadMode, language)) ==
            AddedAll(AddedAll(s0, Queued(Kept(ss[..i]), group, loadMode, language)).0, SourceTexts(ss[i], group, loadMode, language))
  {
    var before := Kept(ss[..i]);
    KeptStep(ss, i);
    assert ClassNames(before + [ss[i]]) == ClassNames(before) + [ss[i].className];
    QueuedStep(before, ss[i], group, loadMode, language);
    AddedAllAppend(s0, Queued(before, group, loadMode, language), SourceTexts(ss[i], group, loadMode, language));
  }

  lemma QueuedStep(ks: seq<TextSource>, k: TextSource, group: string, loadMode: int, language: string)
    ensures Queued(ks + [k], group, loadMode, language) == Queued(ks, group, loadMode, language) + SourceTexts(k, group, loadMode, language)
  {
    assert (ks + [k])[..|ks|] == ks;
  }

  lemma {:induction false} QueuedAppend(a: seq<TextSource>, b: seq<TextSource>, group: string, loadMode: int, language: string)
    ensures Queued(a + b, group, loadMode, language) == Queued(a, group, loadMode, language) + Queued(b, group, loadMode, language)
    decreases |b|
  {
    if b == [] {
      assert a + b == a;
    } else {
      var n := |b| - 1;
      assert (a + b)[..|a + b| - 1] == a + b[..n];
      QueuedAppend(a, b[..n], group, loadMode, language);
    }
  }

  /** The sources kept from a prefix of the registrations are a prefix of those kept from all of them. */
  lemma {:induction false} KeptOfPrefix(ss: seq<TextSource>, m: nat)
    requires m <= |ss|
    ensures |Kept(ss[..m])| <= |Kept(ss)| && Kept(ss)[..|Kept(ss[..m])|] == Kept(ss[..m])
    decreases |ss| - m
  {
    if m < |ss| {
      KeptOfPrefix(ss, m + 1);
      var cur, next := Kept(ss[..m]), Kept(ss[..m + 1]);
      assert ss[..m + 1][..m] == ss[..m];
      assert next == cur || next == cur + [ss[m]];
      assert next[..|cur|] == cur;
      assert Kept(ss)[..|cur|] == next[..|cur|];
    } else {
      assert ss[..m] == ss;
    }
  }

  /** Once adding the texts of the first m registrations fails, the whole load fails with the same store. */
  lemma LoadFailureIsFinal(s0: Store, ss: seq<TextSource>, m: nat, group: string, loadMode: int, language: string)
    requires m <= |ss|
    requires AddedAll(s0, Queued(Kept(ss[..m]), group, loadMode, language)).1.Some?
    ensures AddedAll(s0, Queued(Kept(ss), group, loadMode, language)) == AddedAll(s0, Queued(Kept(ss[..m]), group, loadMode, language))
  {
    KeptOfPrefix(ss, m);
    FailureIsFinalOnExtension(s0, Kept(ss[..m]), Kept(ss), group, loadMode, language);
  }

  /** Once the sources pre make a load fail, any list of sources that extends pre fails the same way. */
  lemma FailureIsFinalOnExtension(s0: Store, pre: seq<TextSource>, all: seq<TextSource>, group: string, loadMode: int, language: string)
    requires |pre| <= |all| && all[..|pre|] == pre
    requires AddedAll(s0, Queued(pre, group, loadMode, language)).1.Some?
    ensures AddedAll(s0, Queued(all, group, loadMode, language)) == AddedAll(s0, Queued(pre, group, loadMode, language))
  {
    var ext := all[|pre|..];
    assert all == all[..|pre|] + ext;
    QueuedAppend(pre, ext, group, loadMode, language);
    AddedAllAppend(s0, Queued(pre, group, loadMode, language), Queued(ext, group, loadMode, language));
  }
}
