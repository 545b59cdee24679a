/**
 * Language-file selection of FileTextLoader (and of JsonTextLoader, whose copies
 * fix the ending to "lang"): the four file-name predicates, written out for the
 * fixed shapes of their regular expressions, and getGroupFiles over a directory tree.
 */
module FileNames {
  import opened Outcomes
  import opened Strings
  import opened TextStore

  /** The ending JsonTextLoader's predicates use. */
  const JsonEnding := "lang"

  /** The regex '.' matches any character except these line terminators. */
  predicate IsLineTerminator(c: char)
  {
    c == '\n' || c == '\r' || c == '\U{0085}' || c == '\U{2028}' || c == '\U{2029}'
  }

  predicate NoLineTerminator(s: string)
  {
    forall i :: 0 <= i < |s| ==> !IsLineTerminator(s[i])
  }

  /** s ends with suffix. */
  predicate EndsWith(s: string, suffix: string)
  {
    |suffix| <= |s| && s[|s| - |suffix|..] == suffix
  }

  /** n is g_x.e for the x between the underscore and the final dot, of one to three characters. */
  predicate GroupShape(n: string, g: string, e: string)
  {
    && |g| + |e| + 3 <= |n| <= |g| + |e| + 5
    && n[..|g|] == g && n[|g|] == '_'
    && n[|n| - |e| - 1] == '.' && n[|n| - |e|..] == e
    && NoLineTerminator(n[|g| + 1..|n| - |e| - 1])
  }

  /** n is p_x.e for some p, with x of one to three characters. */
  predicate WildcardShape(n: string, e: string)
  {
    && |e| + 3 <= |n|
    && n[|n| - |e| - 1] == '.' && n[|n| - |e|..] == e
    && NoLineTerminator(n[..|n| - |e| - 1])
    && UnderscoreNearEnd(n[..|n| - |e| - 1])
  }

  /** r ends with '_' followed by one to three characters. */
  predicate UnderscoreNearEnd(r: string)
  {
    (|r| >= 2 && r[|r| - 2] == '_') || (|r| >= 3 && r[|r| - 3] == '_') || (|r| >= 4 && r[|r| - 4] == '_')
  }

  /** s ends with suffix and what precedes it holds no line terminator. */
  predicate EndsAfterLine(s: string, suffix: string)
  {
    |suffix| <= |s| && s[|s| - |suffix|..] == suffix && NoLineTerminator(s[..|s| - |suffix|])
  }

  /** filenameMatchesEagerLoading: name matches group_.{1,3}\.ending, all lower-cased. */
  predicate MatchesEager(group: string, ending: string, name: string)
  {
    GroupShape(Lower(name), Lower(group), Lower(ending))
  }

  /** filenameMatchesLazyLoading: name matches group_language\.ending, all lower-cased. */
  predicate MatchesLazy(group: string, language: string, ending: string, name: string)
  {
    Lower(name) == Lower(group) + "_" + Lower(language) + "." + Lower(ending)
  }

  /** filenameMatchesLanguageFileEagerLoading: name matches .*_.{1,3}\.ending, lower-cased. */
  predicate MatchesLanguageFileEager(ending: string, name: string)
  {
    WildcardShape(Lower(name), Lower(ending))
  }

  /** filenameMatchesLanguageFileLazyLoading: name matches .*_language\.ending, lower-cased. */
  predicate MatchesLanguageFileLazy(language: string, ending: string, name: string)
  {
    EndsAfterLine(Lower(name), "_" + Lower(language) + "." + Lower(ending))
  }

  lemma NoLineTerminatorParts(a: string, b: string)
    ensures NoLineTerminator(a + b) <==> NoLineTerminator(a) && NoLineTerminator(b)
  {
    if NoLineTerminator(a + b) {
      forall i | 0 <= i < |a| ensures !IsLineTerminator(a[i]) {
        assert a[i] == (a + b)[i];
      }
      forall i | 0 <= i < |b| ensures !IsLineTerminator(b[i]) {
        assert b[i] == (a + b)[|a| + i];
      }
    }
  }

  lemma GroupShapeIff(n: string, g: string, e: string)
    ensures GroupShape(n, g, e) <==> exists x :: 1 <= |x| <= 3 && NoLineTerminator(x) && n == g + "_" + x + "." + e
  {
    if GroupShape(n, g, e) {
      var a, b := |g|, |n| - |e| - 1;
      var x := n[a + 1..b];
      assert n == n[..a] + n[a..a + 1] + x + n[b..b + 1] + n[b + 1..];
      assert n[a..a + 1] == "_" && n[b..b + 1] == ".";
      assert n == g + "_" + x + "." + e;
    }
    if exists x :: 1 <= |x| <= 3 && NoLineTerminator(x) && n == g + "_" + x + "." + e {
      var x :| 1 <= |x| <= 3 && NoLineTerminator(x) && n == g + "_" + x + "." + e;
      assert n[..|g|] == g;
      assert n[|n| - |e|..] == e;
      assert n[|g| + 1..|n| - |e| - 1] == x;
    }
  }

  lemma WildcardShapeIff(n: string, e: string)
    ensures WildcardShape(n, e) <==>
            exists p, x :: 1 <= |x| <= 3 && NoLineTerminator(p) && NoLineTerminator(x) && n == p + "_" + x + "." + e
  {
    if WildcardShape(n, e) {
      var p, x := WildcardShapeParts(n, e);
    }
    if exists p, x :: 1 <= |x| <= 3 && NoLineTerminator(p) && NoLineTerminator(x) && n == p + "_" + x + "." + e {
      var p, x :| 1 <= |x| <= 3 && NoLineTerminator(p) && NoLineTerminator(x) && n == p + "_" + x + "." + e;
      PartsMakeWildcardShape(n, e, p, x);
    }
  }

  /** A name of the wildcard shape splits into a stem, "_", a code of one to three characters, "." and the ending. */
  lemma WildcardShapeParts(n: string, e: string) returns (p: string, x: string)
    requires WildcardShape(n, e)
    ensures 1 <= |x| <= 3 && NoLineTerminator(p) && NoLineTerminator(x) && n == p + "_" + x + "." + e
  {
    var m := |n| - |e| - 1;
    var r := n[..m];
    var k := if r[|r| - 2] == '_' then 1 else if |r| >= 3 && r[|r| - 3] == '_' then 2 else 3;
    p, x := r[..m - k - 1], r[m - k..];
    assert r == p + [r[m - k - 1]] + x;
    NoLineTerminatorParts(p + [r[m - k - 1]], x);
    NoLineTerminatorParts(p, [r[m - k - 1]]);
    assert n == r + n[m..m + 1] + n[m + 1..];
    assert n[m..m + 1] == ".";
  }

  /** Such a stem, code and ending make a name of the wildcard shape. */
  lemma PartsMakeWildcardShape(n: string, e: string, p: string, x: string)
    requires 1 <= |x| <= 3 && NoLineTerminator(p) && NoLineTerminator(x) && n == p + "_" + x + "." + e
    ensures WildcardShape(n, e)
  {
    var m := |n| - |e| - 1;
    var r := p + "_" + x;
    assert n == r + "." + e;
    assert n[..m] == r;
    assert n[|n| - |e|..] == e;
    NoLineTerminatorParts(p + "_", x);
    NoLineTerminatorParts(p, "_");
    assert r[|r| - |x| - 1] == '_';
  }

  lemma EndsAfterLineIff(n: string, suffix: string)
    ensures EndsAfterLine(n, suffix) <==> exists p :: NoLineTerminator(p) && n == p + suffix
  {
    if EndsAfterLine(n, suffix) {
      var p := n[..|n| - |suffix|];
      assert n == p + n[|n| - |suffix|..];
    }
    if exists p :: NoLineTerminator(p) && n == p + suffix {
      var p :| NoLineTerminator(p) && n == p + suffix;
      assert n[..|n| - |suffix|] == p;
      assert n[|n| - |suffix|..] == suffix;
    }
  }

  /** The eager predicate holds exactly when the lower-cased name is group_x.ending for a one- to three-character x. */
  lemma MatchesEagerIff(group: string, ending: string, name: string)
    ensures MatchesEager(group, ending, name) <==>
            exists x :: 1 <= |x| <= 3 && NoLineTerminator(x) && Lower(name) == Lower(group) + "_" + x + "." + Lower(ending)
  {
    GroupShapeIff(Lower(name), Lower(group), Lower(ending));
  }

  /** The wildcard eager predicate holds exactly when the lower-cased name is p_x.ending for a one- to three-character x. */
  lemma MatchesLanguageFileEagerIff(ending: string, name: string)
    ensures MatchesLanguageFileEager(ending, name) <==>
            exists p, x :: 1 <= |x| <= 3 && NoLineTerminator(p) && NoLineTerminator(x) &&
                           Lower(name) == p + "_" + x + "." + Lower(ending)
  {
    WildcardShapeIff(Lower(name), Lower(ending));
  }

  /** The wildcard lazy predicate holds exactly when the lower-cased name is p_language.ending. */
  lemma MatchesLanguageFileLazyIff(language: string, ending: string, name: string)
    ensures MatchesLanguageFileLazy(language, ending, name) <==>
            exists p :: NoLineTerminator(p) && Lower(name) == p + "_" + Lower(language) + "." + Lower(ending)
  {
    var suffix := "_" + Lower(language) + "." + Lower(ending);
    EndsAfterLineIff(Lower(name), suffix);
    forall p ensures (Lower(name) == p + suffix) == (Lower(name) == p + "_" + Lower(language) + "." + Lower(ending)) {
      assert p + suffix == p + "_" + Lower(language) + "." + Lower(ending);
    }
  }

  /** A lazy group file is an eager group file when the language has one to three characters. */
  lemma LazyMatchIsEagerMatch(group: string, language: string, ending: string, name: string)
    requires 1 <= |language| <= 3 && NoLineTerminator(Lower(language))
    requires MatchesLazy(group, language, ending, name)
    ensures MatchesEager(group, ending, name)
  {
    MatchesEagerIff(group, ending, name);
    assert |Lower(language)| == |language|;
  }

  /** A group file is also a wildcard language file, in either mode. */
  lemma GroupMatchIsLanguageFileMatch(group: string, language: string, ending: string, name: string)
    requires NoLineTerminator(Lower(group))
    ensures MatchesEager(group, ending, name) ==> MatchesLanguageFileEager(ending, name)
    ensures MatchesLazy(group, language, ending, name) && NoLineTerminator(Lower(language)) ==>
              MatchesLanguageFileLazy(language, ending, name)
  {
    MatchesEagerIff(group, ending, name);
    MatchesLanguageFileEagerIff(ending, name);
    MatchesLanguageFileLazyIff(language, ending, name);
  }

  /** A pattern built from group "*" starts with a dangling '*', which Pattern.compile rejects. */
  datatype LoadError = DanglingStar(name: string) | NotADirectory(name: string)

  /** Why a file loader's load stops: the exception it throws. */
  datatype LoadFailure =
    | DuplicateKey(key: string)         // TextLoadException from add
    | BadSelection(error: LoadError)    // from getGroupFiles
    | Unreadable(file: string)          // IOException while reading, rethrown as TextLoadException
    | MissingField(file: string, field: string)  // a field that is absent or null
    | WrongType(file: string, field: string)     // a field of another type (JSONException, ClassCastException)
    | NoDocument(file: string)          // an empty YAML file: reading its fields throws NullPointerException
    | NotAMapping(file: string)         // a YAML document that is not a mapping: ClassCastException

  /**
   * The condition getGroupFiles puts on a file, evaluated left to right as Java's
   * || and && do: for group "*", a file the wildcard predicate of the current mode
   * rejects reaches the group predicate, whose pattern does not compile.
   */
  function Accepts(loadMode: int, group: string, language: string, ending: string, name: string): Result<bool, LoadError>
  {
    if group == "*" && loadMode == EagerLoading && MatchesLanguageFileEager(ending, name) then Ok(true)
    else if group == "*" && loadMode == LazyLoading && MatchesLanguageFileLazy(language, ending, name) then Ok(true)
    else if loadMode == EagerLoading then (if group == "*" then Err(DanglingStar(name)) else Ok(MatchesEager(group, ending, name)))
    else if loadMode == LazyLoading then (if group == "*" then Err(DanglingStar(name)) else Ok(MatchesLazy(group, language, ending, name)))
    else Ok(false)
  }

  /** What the mode's predicate says of a name, where no pattern error arises. */
  lemma AcceptsByMode(loadMode: int, group: string, language: string, ending: string, name: string)
    ensures group != "*" ==>
              Accepts(loadMode, group, language, ending, name) ==
              Ok((loadMode == EagerLoading && MatchesEager(group, ending, name)) ||
                 (loadMode == LazyLoading && MatchesLazy(group, language, ending, name)))
    ensures group == "*" && loadMode == EagerLoading ==>
              Accepts(loadMode, group, language, ending, name) ==
              if MatchesLanguageFileEager(ending, name) then Ok(true) else Err(DanglingStar(name))
    ensures group == "*" && loadMode == LazyLoading ==>
              Accepts(loadMode, group, language, ending, name) ==
              if MatchesLanguageFileLazy(language, ending, name) then Ok(true) else Err(DanglingStar(name))
    ensures loadMode != EagerLoading && loadMode != LazyLoading ==> Accepts(loadMode, group, language, ending, name) == Ok(false)
  {
  }

  /** A directory tree as listFiles shows it; C is what a file holds. */
  datatype Node<C> = File(name: string, content: C) | Dir(name: string, children: seq<Node<C>>)

  /** Every file below a listing, depth first in listing order. */
  function FilesOf<C>(nodes: seq<Node<C>>): (r: seq<Node<C>>)
    ensures forall f :: f in r ==> f.File?
  {
    if nodes == [] then []
    else FilesOf(nodes[..|nodes| - 1]) + FilesUnder(nodes[|nodes| - 1])
  }

  function FilesUnder<C>(node: Node<C>): (r: seq<Node<C>>)
    ensures forall f :: f in r ==> f.File?
  {
    match node
    case File(_, _) => [node]
    case Dir(_, children) => FilesOf(children)
  }

  /** The files a list keeps, in order, or the first pattern error. */
  function Filtered<C>(loadMode: int, group: string, language: string, ending: string, files: seq<Node<C>>): Result<seq<Node<C>>, LoadError>
    requires forall f :: f in files ==> f.File?
  {
    if files == [] then Ok([])
    else
      var last := files[|files| - 1];
      match Filtered(loadMode, group, language, ending, files[..|files| - 1])
      case Err(e) => Err(e)
      case Ok(kept) =>
        match Accepts(loadMode, group, language, ending, last.name)
        case Err(e) => Err(e)
        case Ok(b) => Ok(kept + if b then [last] else [])
  }

  /** The results of getGroupFiles for the entries of one listing, in order, subdirectories spliced in place. */
  function Selected<C>(loadMode: int, group: string, language: string, ending: string, nodes: seq<Node<C>>): Result<seq<Node<C>>, LoadError>
  {
    if nodes == [] then Ok([])
    else
      match Selected(loadMode, group, language, ending, nodes[..|nodes| - 1])
      case Err(e) => Err(e)
      case Ok(before) =>
        match SelectedUnder(loadMode, group, language, ending, nodes[|nodes| - 1])
        case Err(e) => Err(e)
        case Ok(here) => Ok(before + here)
  }

  function SelectedUnder<C>(loadMode: int, group: string, language: string, ending: string, node: Node<C>): Result<seq<Node<C>>, LoadError>
  {
    match node
    case Dir(_, children) => Selected(loadMode, group, language, ending, children)
    case File(name, _) =>
      match Accepts(loadMode, group, language, ending, name)
      case Err(e) => Err(e)
      case Ok(b) => Ok(if b then [node] else [])
  }

  /** getGroupFiles(directory, group): listFiles of a plain file is null, which the loop cannot iterate. */
  function GroupFiles<C>(loadMode: int, group: string, language: string, ending: string, directory: Node<C>): Result<seq<Node<C>>, LoadError>
  {
    match directory
    case File(name, _) => Err(NotADirectory(name))
    case Dir(_, children) => Selected(loadMode, group, language, ending, children)
  }

  lemma {:induction false} FilteredAppend<C>(loadMode: int, group: string, language: string, ending: string,
                                             a: seq<Node<C>>, b: seq<Node<C>>)
    requires forall f :: f in a ==> f.File?
    requires forall f :: f in b ==> f.File?
    ensures forall f :: f in a + b ==> f.File?
    ensures Filtered(loadMode, group, language, ending, a + b) ==
            match Filtered(loadMode, group, language, ending, a)
            case Err(e) => Err(e)
            case Ok(x) =>
              match Filtered(loadMode, group, language, ending, b)
              case Err(e) => Err(e)
              case Ok(y) => Ok(x + y)
    decreases |b|
  {
    if b == [] {
      assert a + b == a;
      match Filtered(loadMode, group, language, ending, a)
      case Err(_) =>
      case Ok(x) => assert x + [] == x;
    } else {
      var n := |b| - 1;
      assert (a + b)[..|a + b| - 1] == a + b[..n];
      assert (a + b)[|a + b| - 1] == b[n];
      FilteredAppend(loadMode, group, language, ending, a, b[..n]);
      match Filtered(loadMode, group, language, ending, a)
      case Err(_) =>
      case Ok(x) =>
        match Filtered(loadMode, group, language, ending, b[..n])
        case Err(_) =>
        case Ok(y) =>
          match Accepts(loadMode, group, language, ending, b[n].name)
          case Err(_) =>
          case Ok(k) => assert x + y + (if k then [b[n]] else []) == x + (y + if k then [b[n]] else []);
    }
  }

  /**
   * getGroupFiles keeps, in listing order with subdirectory results spliced in
   * place, exactly the files below the listing that the mode's predicate accepts,
   * and never a directory.
   */
  lemma {:induction false} SelectedIsFilteredFiles<C>(loadMode: int, group: string, language: string, ending: string, nodes: seq<Node<C>>)
    ensures Selected(loadMode, group, language, ending, nodes) == Filtered(loadMode, group, language, ending, FilesOf(nodes))
    decreases nodes, 1
  {
    if nodes != [] {
      var pre, last := nodes[..|nodes| - 1], nodes[|nodes| - 1];
      SelectedIsFilteredFiles(loadMode, group, language, ending, pre);
      SelectedUnderIsFilteredFiles(loadMode, group, language, ending, last);
      FilteredAppend(loadMode, group, language, ending, FilesOf(pre), FilesUnder(last));
    }
  }

  lemma {:induction false} SelectedUnderIsFilteredFiles<C>(loadMode: int, group: string, language: string, ending: string, node: Node<C>)
    ensures SelectedUnder(loadMode, group, language, ending, node) == Filtered(loadMode, group, language, ending, FilesUnder(node))
    decreases node, 0
  {
    match node
    case File(_, _) =>
      assert [node][..0] == [];
      var none: seq<Node<C>> := [];
      assert none + [node] == [node] && none + none == none;
    case Dir(_, children) =>
      SelectedIsFilteredFiles(loadMode, group, language, ending, children);
  }

  /** Every file a filtered list keeps is one of its files, accepted by the mode's predicate. */
  lemma {:induction false} FilteredKeepsAccepted<C>(loadMode: int, group: string, language: string, ending: string, files: seq<Node<C>>)
    requires forall f :: f in files ==> f.File?
    requires Filtered(loadMode, group, language, ending, files).Ok?
    ensures forall f :: f in Filtered(loadMode, group, language, ending, files).value ==>
              f in files && f.File? && Accepts(loadMode, group, language, ending, f.name) == Ok(true)
    ensures forall f :: f in files ==> Accepts(loadMode, group, language, ending, f.name).Ok?
    ensures forall f :: f in files && Accepts(loadMode, group, language, ending, f.name) == Ok(true) ==>
              f in Filtered(loadMode, group, language, ending, files).value
    decreases |files|
  {
    if files != [] {
      var pre, last := files[..|files| - 1], files[|files| - 1];
      assert files == pre + [last];
      assert forall f :: f in pre ==> f in files;
      assert forall f :: f in files ==> f in pre || f == last;
      FilteredKeepsAccepted(loadMode, group, language, ending, pre);
      var kept := Filtered(loadMode, group, language, ending, pre).value;
      var b := Accepts(loadMode, group, language, ending, last.name).value;
      assert Filtered(loadMode, group, language, ending, files).value == kept + if b then [last] else [];
    }
  }

  /** With a load mode other than eager or lazy, no file is selected. */
  lemma {:induction false} UnknownModeSelectsNothing<C>(loadMode: int, group: string, language: string, ending: string, files: seq<Node<C>>)
    requires loadMode != EagerLoading && loadMode != LazyLoading
    requires forall f :: f in files ==> f.File?
    ensures Filtered(loadMode, group, language, ending, files) == Ok([])
    decreases |files|
  {
    if files != [] {
      UnknownModeSelectsNothing(loadMode, group, language, ending, files[..|files| - 1]);
      var none: seq<Node<C>> := [];
      assert none + none == none;
    }
  }

  /** A file on which the condition fails makes the whole selection fail. */
  lemma {:induction false} FilteredFailsOnError<C>(loadMode: int, group: string, language: string, ending: string,
                                                   files: seq<Node<C>>, i: nat)
    requires forall f :: f in files ==> f.File?
    requires i < |files| && Accepts(loadMode, group, language, ending, files[i].name).Err?
    ensures Filtered(loadMode, group, language, ending, files).Err?
    decreases |files|
  {
    var pre := files[..|files| - 1];
    if i < |files| - 1 {
      assert pre[i] == files[i];
      assert forall f :: f in pre ==> f in files;
      FilteredFailsOnError(loadMode, group, language, ending, pre, i);
    }
  }

  /** With group "*", one file that the wildcard predicate rejects makes the whole selection fail. */
  lemma WildcardGroupFailsOnForeignFile<C>(loadMode: int, language: string, ending: string, files: seq<Node<C>>, i: nat)
    requires forall f :: f in files ==> f.File?
    requires loadMode == EagerLoading || loadMode == LazyLoading
    requires i < |files|
    requires loadMode == EagerLoading ==> !MatchesLanguageFileEager(ending, files[i].name)
    requires loadMode == LazyLoading ==> !MatchesLanguageFileLazy(language, ending, files[i].name)
    ensures Filtered(loadMode, "*", language, ending, files).Err?
  {
    FilteredFailsOnError(loadMode, "*", language, ending, files, i);
  }

  /** A failure in a prefix of a listing is the failure of the whole listing. */
  lemma {:induction false} SelectedErrIsFinal<C>(loadMode: int, group: string, language: string, ending: string,
                                                 nodes: seq<Node<C>>, k: nat)
    requires k <= |nodes|
    requires Selected(loadMode, group, language, ending, nodes[..k]).Err?
    ensures Selected(loadMode, group, language, ending, nodes) == Selected(loadMode, group, language, ending, nodes[..k])
    decreases |nodes| - k
  {
    if k < |nodes| {
      assert nodes[..k + 1][..k] == nodes[..k];
      SelectedErrIsFinal(loadMode, group, language, ending, nodes, k + 1);
    } else {
      assert nodes[..k] == nodes;
    }
  }

  /**
   * getGroupFiles(directory, group) with the loader's load mode and language and
   * the given file ending.
   */
  method GetGroupFiles<C>(loader: BaseTextLoader, ending: string, directory: Node<C>, group: string)
    returns (r: Result<seq<Node<C>>, LoadError>)
    ensures r == GroupFiles(loader.loadMode, group, loader.language, ending, directory)
    decreases directory
  {
    if directory.File? {
      return Err(NotADirectory(directory.name));
    }
    var listing := directory.children;
    var files: seq<Node<C>> := [];
    var i := 0;
    assert listing[..0] == [];
    while i < |listing|
      invariant 0 <= i <= |listing|
      invariant Selected(loader.loadMode, group, loader.language, ending, listing[..i]) == Ok(files)
    {
      var file := listing[i];
      assert listing[..i + 1][..i] == listing[..i];
      assert listing[..i + 1][i] == file;
      if file.Dir? {
        var sub := GetGroupFiles(loader, ending, file, group);
        if sub.Err? {
          SelectedErrIsFinal(loader.loadMode, group, loader.language, ending, listing, i + 1);
          return Err(sub.error);
        }
        files := files + sub.value;
      } else {
        var accepted := Accepts(loader.loadMode, group, loader.language, ending, file.name);
        if accepted.Err? {
          SelectedErrIsFinal(loader.loadMode, group, loader.language, ending, listing, i + 1);
          return Err(accepted.error);
        }
        if accepted.value {
          files := files + [file];
        } else {
          assert files + [] == files;
        }
      }
      i := i + 1;
    }
    assert listing[..i] == listing;
    r := Ok(files);
  }
}
