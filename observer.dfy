/**
 * FileObserver: the per-key registration tables that `register` fills for a
 * WatchService, and the decision made for every polled watch event whether to
 * dispatch it and as which of create, delete or modify.
 */
module FileObserving {
  import opened Outcomes

  /** A watch key handed out by the watch service: an opaque token. */
  datatype WatchKey = WatchKey(id: nat)

  /** A path as its name components, absolute or relative to the working directory. */
  datatype Path = Path(absolute: bool, names: seq<string>)

  /** A compiled regular expression, reduced to its full-match test (Matcher.matches). */
  datatype Pattern = Pattern(regex: string, matches: string -> bool)

  /** The kinds a watch service reports. */
  datatype Kind = EntryCreate | EntryDelete | EntryModify | Overflow

  /** A polled watch event: its kind, its context (the entry's relative name; null for an overflow) and its repeat count. */
  datatype WatchEvent = WatchEvent(kind: Kind, context: Option<string>, count: nat)

  datatype EventKind = Create | Delete | Modify

  /** A dispatched FileCreateEvent, FileDeleteEvent or FileModifyEvent: the watch event and the observed directory. */
  datatype FileEvent = FileEvent(kind: EventKind, event: WatchEvent, directory: Path)

  datatype RegisterError =
    | NoWatchService          // the watch service could not be created (NullPointerException)
    | NoParent                // a non-directory path without a parent (NullPointerException)
    | WatchFailed             // Path.register failed (IOException)
    | BadPattern(index: nat)  // regex[index] does not compile (PatternSyntaxException)

  /** resolveFile on an event without context throws a NullPointerException, which ends the loop. */
  datatype LoopFault = NullContext

  /** What the three tables record for one key. */
  datatype Registration = Registration(directory: Path, scopedFile: Option<Path>, filters: Option<seq<Pattern>>)

  /** File.getParentFile: null for the root and for a single relative name. */
  function Parent(p: Path): Option<Path>
  {
    if |p.names| >= (if p.absolute then 1 else 2) then Some(Path(p.absolute, p.names[..|p.names| - 1]))
    else None
  }

  /** File.getName: the last name component. */
  function BaseName(p: Path): string
  {
    if p.names == [] then "" else p.names[|p.names| - 1]
  }

  /** File.getAbsolutePath, compared as name sequences. */
  function AbsolutePath(workingDirectory: seq<string>, p: Path): seq<string>
  {
    if p.absolute then p.names else workingDirectory + p.names
  }

  /** The directory a registration watches: the path itself if it is a directory, otherwise its parent. */
  function ObservedDirectory(path: Path, isDirectory: bool): Option<Path>
  {
    if isDirectory then Some(path) else Parent(path)
  }

  /**
   * resolveFile: the observed directory joined with the event's relative name;
   * an event without context makes it fail.
   */
  function ResolveFile(e: WatchEvent, directory: Path): (r: Result<Path, LoopFault>)
    ensures r.Ok? <==> e.context.Some?
    ensures r.Ok? ==> BaseName(r.value) == e.context.value && r.value.absolute == directory.absolute
    ensures r.Ok? && (directory.absolute || directory.names != []) ==> Parent(r.value) == Some(directory)
  {
    match e.context
    case None => Err(NullContext)
    case Some(name) =>
      var file := Path(directory.absolute, directory.names + [name]);
      assert file.names[..|file.names| - 1] == directory.names;
      Ok(file)
  }

  /** Pattern.compile applied to every string in order; the index of the first that does not compile otherwise. */
  function CompileAll(regex: seq<string>, compile: string -> Option<Pattern>): (r: Result<seq<Pattern>, nat>)
    ensures r.Ok? ==> |r.value| == |regex| && forall i :: 0 <= i < |regex| ==> compile(regex[i]) == Some(r.value[i])
    ensures r.Err? ==> r.error < |regex| && compile(regex[r.error]).None?
    ensures r.Err? ==> forall i :: 0 <= i < r.error ==> compile(regex[i]).Some?
  {
    if regex == [] then Ok([])
    else
      match compile(regex[0])
      case None => Err(0)
      case Some(p) =>
        match CompileAll(regex[1..], compile)
        case Ok(ps) => Ok([p] + ps)
        case Err(i) => Err(i + 1)
  }

  /** The patterns register stores: none for a null or empty list, otherwise all of them compiled. */
  function CompiledFilters(regex: Option<seq<string>>, compile: string -> Option<Pattern>): Result<Option<seq<Pattern>>, nat>
  {
    if regex.None? || regex.value == [] then Ok(None)
    else
      match CompileAll(regex.value, compile)
      case Ok(ps) => Ok(Some(ps))
      case Err(i) => Err(i)
  }

  /** The three per-key tables of a FileObserver. */
  datatype Tables = Tables(paths: map<WatchKey, Path>, observedFiles: map<WatchKey, Path>, filters: map<WatchKey, seq<Pattern>>)

  /** Every key with a scoped file or filters has a directory, and no key has an empty filter list. */
  ghost predicate ValidTables(t: Tables)
  {
    && t.observedFiles.Keys <= t.paths.Keys
    && t.filters.Keys <= t.paths.Keys
    && forall k :: k in t.filters ==> t.filters[k] != []
  }

  /**
   * register(Path, String...) on the tables, step by step in the source's order:
   * the directory is put into paths and a non-directory becomes the scoped file
   * before the patterns are compiled, so a bad pattern leaves those two updates in place.
   */
  function Registered(hasWatchService: bool, t: Tables, path: Path, isDirectory: bool, regex: Option<seq<string>>,
                      granted: Option<WatchKey>, compile: string -> Option<Pattern>): (Result<WatchKey, RegisterError>, Tables)
  {
    if !hasWatchService then (Err(NoWatchService), t)
    else if ObservedDirectory(path, isDirectory).None? then (Err(NoParent), t)
    else if granted.None? then (Err(WatchFailed), t)
    else
      var key := granted.value;
      var paths := t.paths[key := ObservedDirectory(path, isDirectory).value];
      var observedFiles := if isDirectory then t.observedFiles else t.observedFiles[key := path];
      match CompiledFilters(regex, compile)
      case Err(i) => (Err(BadPattern(i)), Tables(paths, observedFiles, t.filters))
      case Ok(None) => (Ok(granted.value), Tables(paths, observedFiles, t.filters))
      case Ok(Some(ps)) => (Ok(granted.value), Tables(paths, observedFiles, t.filters[key := ps]))
  }

  /** The filter pipeline: the scoped file, if any, is the resolved file, and some pattern, if any, fully matches its name. */
  predicate Admits(workingDirectory: seq<string>, reg: Registration, file: Path)
  {
    && (reg.scopedFile.None? || AbsolutePath(workingDirectory, reg.scopedFile.value) == AbsolutePath(workingDirectory, file))
    && (reg.filters.None? || exists i :: 0 <= i < |reg.filters.value| && reg.filters.value[i].matches(BaseName(file)))
  }

  function Classify(kind: Kind): Option<EventKind>
  {
    match kind
    case EntryCreate => Some(Create)
    case EntryDelete => Some(Delete)
    case EntryModify => Some(Modify)
    case Overflow => None
  }

  /** What happens to one polled event: a fault, nothing, or one dispatched event. */
  function Decision(workingDirectory: seq<string>, reg: Registration, e: WatchEvent): Result<Option<FileEvent>, LoopFault>
  {
    match ResolveFile(e, reg.directory)
    case Err(f) => Err(f)
    case Ok(file) =>
      if Admits(workingDirectory, reg, file) && Classify(e.kind).Some? then
        Ok(Some(FileEvent(Classify(e.kind).value, e, reg.directory)))
      else Ok(None)
  }

  /** The events dispatched for one batch of polled events, in order, and the fault that cut it short, if any. */
  function BatchOutcome(workingDirectory: seq<string>, reg: Registration, events: seq<WatchEvent>): (seq<FileEvent>, Option<LoopFault>)
  {
    if events == [] then ([], None)
    else
      match Decision(workingDirectory, reg, events[0])
      case Err(f) => ([], Some(f))
      case Ok(d) =>
        var rest := BatchOutcome(workingDirectory, reg, events[1..]);
        ((if d.Some? then [d.value] else []) + rest.0, rest.1)
  }

  /**
   * One step of the batch: if the outcome is what was dispatched before event i followed by
   * the outcome from event i on, then event i's decision either ends it or moves it one on.
   */
  lemma BatchStep(workingDirectory: seq<string>, reg: Registration, events: seq<WatchEvent>, i: int,
                  dispatched: seq<FileEvent>, total: (seq<FileEvent>, Option<LoopFault>))
    requires 0 <= i < |events|
    requires total.0 == dispatched + BatchOutcome(workingDirectory, reg, events[i..]).0
    requires total.1 == BatchOutcome(workingDirectory, reg, events[i..]).1
    ensures var d := Decision(workingDirectory, reg, events[i]);
            var rest := BatchOutcome(workingDirectory, reg, events[i + 1..]);
            if d.Err? then total == (dispatched, Some(d.error))
            else total.0 == (dispatched + if d.value.Some? then [d.value.value] else []) + rest.0 && total.1 == rest.1
  {
    assert events[i..][0] == events[i];
    assert events[i..][1..] == events[i + 1..];
    assert dispatched + [] == dispatched;
  }

  class FileObserver {
    /** Whether the constructor managed to create a watch service. */
    const hasWatchService: bool
    /** The directory relative paths are resolved against by File.getAbsolutePath. */
    const workingDirectory: seq<string>
    var observe: bool
    var pollingDelay: int
    var paths: map<WatchKey, Path>
    var filters: map<WatchKey, seq<Pattern>>
    var observedFiles: map<WatchKey, Path>

    function Snapshot(): Tables
      reads this
    {
      Tables(paths, observedFiles, filters)
    }

    ghost predicate Valid()
      reads this
    {
      ValidTables(Snapshot())
    }

    function RegistrationOf(key: WatchKey): Registration
      reads this
      requires key in paths
    {
      Registration(paths[key],
                   if key in observedFiles then Some(observedFiles[key]) else None,
                   if key in filters then Some(filters[key]) else None)
    }

    constructor (hasWatchService: bool, workingDirectory: seq<string>)
      ensures Valid()
      ensures this.hasWatchService == hasWatchService && this.workingDirectory == workingDirectory
      ensures !observe && pollingDelay == 0
      ensures paths == map[] && filters == map[] && observedFiles == map[]
    {
      this.hasWatchService := hasWatchService;
      this.workingDirectory := workingDirectory;
      observe := false;
      pollingDelay := 0;
      paths := map[];
      filters := map[];
      observedFiles := map[];
    }

    method SetPollingDelay(millis: int)
      modifies this`pollingDelay
      ensures pollingDelay == millis
    {
      pollingDelay := millis;
    }

    /** Stops observing: clears the observe flag (closing the watch service is not modelled). */
    method Kill()
      modifies this`observe
      ensures !observe
    {
      observe := false;
    }

    /** Records file as the scoped file of key, unless it is a directory. */
    method SetFile(key: WatchKey, file: Path, isDirectory: bool)
      modifies this`observedFiles
      ensures observedFiles == if isDirectory then old(observedFiles) else old(observedFiles)[key := file]
    {
      if !isDirectory {
        observedFiles := observedFiles[key := file];
      }
    }

    /**
     * register(Path, String...): isDirectory is what the file system says of path,
     * granted is the key the watch service returns for the observed directory (None
     * when that registration fails), compile stands for Pattern.compile and regex
     * for the varargs array (None when it is null).
     */
    method Register(path: Path, isDirectory: bool, regex: Option<seq<string>>,
                    granted: Option<WatchKey>, compile: string -> Option<Pattern>)
      returns (r: Result<WatchKey, RegisterError>)
      requires Valid()
      modifies this`paths, this`observedFiles, this`filters
      ensures Valid()
      ensures (r, Snapshot()) == Registered(hasWatchService, old(Snapshot()), path, isDirectory, regex, granted, compile)
    {
      RegisterKeepsTablesValid(hasWatchService, Snapshot(), path, isDirectory, regex, granted, compile);
      if !hasWatchService {
        return Err(NoWatchService);
      }
      var observePath := ObservedDirectory(path, isDirectory);
      if observePath.None? {
        return Err(NoParent);
      }
      if granted.None? {
        return Err(WatchFailed);
      }
      var key := granted.value;
      paths := paths[key := observePath.value];
      SetFile(key, path, isDirectory);
      if regex.Some? && regex.value != [] {
        var compiled := CompileAll(regex.value, compile);
        if compiled.Err? {
          return Err(BadPattern(compiled.error));
        }
        filters := filters[key := compiled.value];
      }
      r := Ok(key);
    }

    /** register(File, String...): registers the file's absolute path. */
    method RegisterFile(file: Path, isDirectory: bool, regex: Option<seq<string>>,
                        granted: Option<WatchKey>, compile: string -> Option<Pattern>)
      returns (r: Result<WatchKey, RegisterError>)
      requires Valid()
      modifies this`paths, this`observedFiles, this`filters
      ensures Valid()
      ensures (r, Snapshot()) == Registered(hasWatchService, old(Snapshot()), Path(true, AbsolutePath(workingDirectory, file)),
                                            isDirectory, regex, granted, compile)
    {
      r := Register(Path(true, AbsolutePath(workingDirectory, file)), isDirectory, regex, granted, compile);
    }

    /**
     * The body of the observe loop for one polled event of key: resolve the file,
     * check it against the scoped file, then against the patterns (first match
     * wins), then classify. The ghost result counts the patterns consulted.
     */
    method Decide(key: WatchKey, e: WatchEvent) returns (r: Result<Option<FileEvent>, LoopFault>, ghost consulted: nat)
      requires Valid() && key in paths
      ensures r == Decision(workingDirectory, RegistrationOf(key), e)
      ensures key in observedFiles && e.context.Some? &&
              AbsolutePath(workingDirectory, observedFiles[key]) != AbsolutePath(workingDirectory, ResolveFile(e, paths[key]).value)
              ==> consulted == 0
      ensures consulted > 0 ==>
                && key in filters && e.context.Some? && consulted <= |filters[key]|
                && forall j :: 0 <= j < consulted - 1 ==> !filters[key][j].matches(e.context.value)
    {
      consulted := 0;
      var dispatch := true;
      var concerned := ResolveFile(e, paths[key]);
      if concerned.Err? {
        return Err(concerned.error), consulted;
      }
      var file := concerned.value;
      if key in observedFiles {
        if AbsolutePath(workingDirectory, observedFiles[key]) != AbsolutePath(workingDirectory, file) {
          dispatch := false;
        }
      }
      if dispatch && key in filters {
        var patterns := filters[key];
        var name := BaseName(file);
        var i := 0;
        while i < |patterns|
          invariant 0 <= i <= |patterns|
          invariant consulted == i
          invariant dispatch == (i == 0)
          invariant forall j :: 0 <= j < i ==> !patterns[j].matches(name)
        {
          consulted := consulted + 1;
          if patterns[i].matches(name) {
            dispatch := true;
            break;
          } else {
            dispatch := false;
          }
          i := i + 1;
        }
      }
      if dispatch {
        match e.kind
        case EntryCreate => r := Ok(Some(FileEvent(Create, e, paths[key])));
        case EntryDelete => r := Ok(Some(FileEvent(Delete, e, paths[key])));
        case EntryModify => r := Ok(Some(FileEvent(Modify, e, paths[key])));
        case Overflow => r := Ok(None);
      } else {
        r := Ok(None);
      }
    }

    /** The loop over key.pollEvents(): the events dispatched, in order, and the fault that ended it, if any. */
    method PollEvents(key: WatchKey, events: seq<WatchEvent>) returns (dispatched: seq<FileEvent>, fault: Option<LoopFault>)
      requires Valid() && key in paths
      ensures (dispatched, fault) == BatchOutcome(workingDirectory, RegistrationOf(key), events)
    {
      var reg := RegistrationOf(key);
      ghost var total := BatchOutcome(workingDirectory, reg, events);
      dispatched, fault := [], None;
      var i := 0;
      assert events[0..] == events;
      while i < |events|
        invariant 0 <= i <= |events|
        invariant fault.None?
        invariant total.0 == dispatched + BatchOutcome(workingDirectory, reg, events[i..]).0
        invariant total.1 == BatchOutcome(workingDirectory, reg, events[i..]).1
      {
        BatchStep(workingDirectory, reg, events, i, dispatched, total);
        var d, _ := Decide(key, events[i]);
        if d.Err? {
          fault := Some(d.error);
          return;
        }
        if d.value.Some? {
          dispatched := dispatched + [d.value.value];
        }
        i := i + 1;
      }
      assert dispatched + [] == dispatched;
    }
  }

  /** With neither a scoped file nor filters, every create, delete and modify yields exactly one event of its kind. */
  lemma UnfilteredDispatchesEveryChange(wd: seq<string>, dir: Path, e: WatchEvent)
    requires e.context.Some? && e.kind != Overflow
    ensures Decision(wd, Registration(dir, None, None), e).Ok?
    ensures var d := Decision(wd, Registration(dir, None, None), e).value;
            d.Some? && d.value.event == e && d.value.directory == dir &&
            d.value.kind == (match e.kind case EntryCreate => Create case EntryDelete => Delete case _ => Modify)
  {
  }

  /** A registration scoped to one file never dispatches an event for another file. */
  lemma ScopedRegistrationIgnoresOtherFiles(wd: seq<string>, reg: Registration, e: WatchEvent)
    requires reg.scopedFile.Some? && e.context.Some?
    requires AbsolutePath(wd, reg.scopedFile.value) != AbsolutePath(wd, ResolveFile(e, reg.directory).value)
    ensures Decision(wd, reg, e) == Ok(None)
  {
  }

  /** Every dispatched event of a batch comes from one of its polled events and passed both filters. */
  lemma {:induction false} BatchDispatchesOnlyAdmitted(wd: seq<string>, reg: Registration, events: seq<WatchEvent>)
    ensures forall ev :: ev in BatchOutcome(wd, reg, events).0 ==>
              && ev.event in events
              && ev.event.context.Some?
              && Admits(wd, reg, ResolveFile(ev.event, reg.directory).value)
              && Classify(ev.event.kind) == Some(ev.kind)
              && ev.directory == reg.directory
  {
    if events != [] {
      BatchDispatchesOnlyAdmitted(wd, reg, events[1..]);
      forall ev | ev in BatchOutcome(wd, reg, events[1..]).0 ensures ev.event in events {
        assert events == [events[0]] + events[1..];
      }
    }
  }

  /**
   * A batch without faults dispatches exactly the admitted creates, deletes and
   * modifies, one event each and in the order they were polled.
   */
  lemma {:induction false} BatchDispatchesAdmittedEvents(wd: seq<string>, reg: Registration, events: seq<WatchEvent>)
    requires forall i :: 0 <= i < |events| ==> events[i].context.Some?
    ensures BatchOutcome(wd, reg, events).1.None?
    ensures var out, admitted := BatchOutcome(wd, reg, events).0, AdmittedEvents(wd, reg, events);
            && |out| == |admitted|
            && forall i :: 0 <= i < |out| ==>
                 out[i].event == admitted[i] && Classify(admitted[i].kind) == Some(out[i].kind) && out[i].directory == reg.directory
    decreases |events|
  {
    if events != [] {
      var tail := events[1..];
      forall i | 0 <= i < |tail| ensures tail[i].context.Some? {
        assert tail[i] == events[i + 1];
      }
      BatchDispatchesAdmittedEvents(wd, reg, tail);
      var out, admitted := BatchOutcome(wd, reg, events).0, AdmittedEvents(wd, reg, events);
      var out', admitted' := BatchOutcome(wd, reg, tail).0, AdmittedEvents(wd, reg, tail);
      var e := events[0];
      if Decision(wd, reg, e).value.Some? {
        assert out == [FileEvent(Classify(e.kind).value, e, reg.directory)] + out';
        assert admitted == [e] + admitted';
        forall i | 0 < i < |out|
          ensures out[i].event == admitted[i] && Classify(admitted[i].kind) == Some(out[i].kind) && out[i].directory == reg.directory
        {
          assert out[i] == out'[i - 1] && admitted[i] == admitted'[i - 1];
        }
      } else {
        assert out == out';
        assert admitted == admitted';
      }
    }
  }

  /** The polled events that pass both filters and have a create, delete or modify kind. */
  function AdmittedEvents(wd: seq<string>, reg: Registration, events: seq<WatchEvent>): seq<WatchEvent>
  {
    if events == [] then []
    else
      var e := events[0];
      var keep := e.context.Some? && Classify(e.kind).Some? && Admits(wd, reg, ResolveFile(e, reg.directory).value);
      (if keep then [e] else []) + AdmittedEvents(wd, reg, events[1..])
  }

  /** A failure before the watch service hands out a key leaves every table as it was. */
  lemma RegisterFailureLeavesTables(hasWatchService: bool, t: Tables, path: Path, isDirectory: bool,
                                    regex: Option<seq<string>>, granted: Option<WatchKey>, compile: string -> Option<Pattern>)
    requires !hasWatchService || ObservedDirectory(path, isDirectory).None? || granted.None?
    ensures var (r, t') := Registered(hasWatchService, t, path, isDirectory, regex, granted, compile);
            r.Err? && !r.error.BadPattern? && t' == t
    ensures var r := Registered(hasWatchService, t, path, isDirectory, regex, granted, compile).0;
            (!hasWatchService <==> r == Err(NoWatchService)) &&
            (hasWatchService && ObservedDirectory(path, isDirectory).None? <==> r == Err(NoParent))
  {
  }

  /**
   * A successful registration maps the granted key to the observed directory, scopes
   * it to the path exactly when the path is not a directory, installs the compiled
   * patterns when some were given, and leaves every other key alone.
   */
  lemma RegisterSuccess(hasWatchService: bool, t: Tables, path: Path, isDirectory: bool,
                        regex: Option<seq<string>>, granted: Option<WatchKey>, compile: string -> Option<Pattern>)
    requires Registered(hasWatchService, t, path, isDirectory, regex, granted, compile).0.Ok?
    ensures var (r, t') := Registered(hasWatchService, t, path, isDirectory, regex, granted, compile);
            && granted == Some(r.value)
            && var key := r.value;
            && t'.paths[key] == (if isDirectory then path else Parent(path).value)
            && (!isDirectory ==> key in t'.observedFiles && t'.observedFiles[key] == path)
            && (isDirectory ==> t'.observedFiles == t.observedFiles)
            && (regex.Some? && regex.value != [] ==>
                  key in t'.filters && |t'.filters[key]| == |regex.value| &&
                  forall i :: 0 <= i < |regex.value| ==> compile(regex.value[i]) == Some(t'.filters[key][i]))
            && (regex.None? || regex.value == [] ==> t'.filters == t.filters)
            && (forall k :: k != key ==> (k in t'.paths <==> k in t.paths) && (k in t.paths ==> t'.paths[k] == t.paths[k]))
            && (forall k :: k != key ==>
                  (k in t'.observedFiles <==> k in t.observedFiles) && (k in t.observedFiles ==> t'.observedFiles[k] == t.observedFiles[k]))
            && (forall k :: k != key ==> (k in t'.filters <==> k in t.filters) && (k in t.filters ==> t'.filters[k] == t.filters[k]))
  {
  }

  /**
   * A pattern that does not compile is reported by its index, after the key's
   * directory and, for a non-directory, its scoped file were already recorded;
   * the pattern table is left as it was.
   */
  lemma RegisterBadPattern(hasWatchService: bool, t: Tables, path: Path, isDirectory: bool,
                           regex: Option<seq<string>>, granted: Option<WatchKey>, compile: string -> Option<Pattern>)
    requires Registered(hasWatchService, t, path, isDirectory, regex, granted, compile).0.Err?
    requires Registered(hasWatchService, t, path, isDirectory, regex, granted, compile).0.error.BadPattern?
    ensures var (r, t') := Registered(hasWatchService, t, path, isDirectory, regex, granted, compile);
            && regex.Some? && r.error.index < |regex.value| && compile(regex.value[r.error.index]).None?
            && (forall i :: 0 <= i < r.error.index ==> compile(regex.value[i]).Some?)
            && granted.Some? && ObservedDirectory(path, isDirectory).Some?
            && t'.paths == t.paths[granted.value := ObservedDirectory(path, isDirectory).value]
            && t'.observedFiles == (if isDirectory then t.observedFiles else t.observedFiles[granted.value := path])
            && t'.filters == t.filters
  {
  }

  /** Registering keeps every scoped or filtered key inside paths and never stores an empty pattern list. */
  lemma RegisterKeepsTablesValid(hasWatchService: bool, t: Tables, path: Path, isDirectory: bool,
                                 regex: Option<seq<string>>, granted: Option<WatchKey>, compile: string -> Option<Pattern>)
    requires ValidTables(t)
    ensures ValidTables(Registered(hasWatchService, t, path, isDirectory, regex, granted, compile).1)
  {
  }
}
