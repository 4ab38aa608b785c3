/** `DirectoryWatcher` over an abstract filesystem: the startup guard that
    checks the base directory and ensures the `done` and `original`
    subdirectories, and the per-file sequence of transform then relocate.
    The transform and the relocation are opaque steps whose outcomes are
    given with each event. */
module DirectoryWatcher {
  import opened Paths

  /** Subdirectory receiving the transformed copy. */
  const Done: string := "done"
  /** Subdirectory receiving the untouched original. */
  const Original: string := "original"

  /** The watcher's configuration. It is an immutable value: the
      constructor sets both fields and no operation below returns a new one. */
  datatype Watcher = Watcher(baseDirectory: Path, fileFilter: string)

  /** The filesystem as the watcher sees it: the directories that exist, and
      the paths whose creation throws (permissions, a file in the way, ...). */
  datatype FileSystem = FileSystem(directories: set<Path>, uncreatable: set<Path>)

  /** The outcome of ensuring a directory: `subDirectoryExists`'s return
      value and the filesystem afterwards. */
  datatype Ensured = Ensured(ok: bool, fs: FileSystem)

  /** The outcome of the startup guard: whether watching starts, the
      filesystem afterwards, and the directories ensured, in call order. */
  datatype Startup = Startup(watching: bool, fs: FileSystem, ensured: seq<Path>)

  /** `subDirectory(name)`: the named subdirectory of the base directory. */
  function SubDirectory(w: Watcher, name: string): Path {
    Combine(w.baseDirectory, name)
  }

  /** A subdirectory's path strictly extends the base directory, and its
      name part is the subdirectory's name. */
  lemma SubDirectoryUnderBase(w: Watcher, name: string)
    requires IsName(name)
    ensures var p := SubDirectory(w, name);
      && FileName(p) == name
      && |p| > |w.baseDirectory| && p[..|w.baseDirectory|] == w.baseDirectory
  {
    FileNameOfCombine(w.baseDirectory, name);
    CombineAppends(w.baseDirectory, name);
  }

  /** `done` and `original` are two different directories under the base,
      neither of them the base itself. */
  lemma SubDirectoriesDistinct(w: Watcher)
    ensures SubDirectory(w, Done) != SubDirectory(w, Original)
    ensures SubDirectory(w, Done) != w.baseDirectory
    ensures SubDirectory(w, Original) != w.baseDirectory
  {
    assert IsName(Done) && IsName(Original);
    CombineInjective(w.baseDirectory, Done, Original);
    SubDirectoryUnderBase(w, Done);
    SubDirectoryUnderBase(w, Original);
  }

  /** The directory exists or its creation would succeed. */
  predicate CanEnsure(fs: FileSystem, path: Path) {
    path in fs.directories || path !in fs.uncreatable
  }

  /** The body of `subDirectoryExists` once the full path is known: create
      the directory if it is missing, and report a failed creation as false. */
  function EnsureDirectory(fs: FileSystem, fullPath: Path): (r: Ensured)
    ensures r.ok <==> CanEnsure(fs, fullPath)
    ensures r.ok <==> fullPath in r.fs.directories
    ensures r.fs.uncreatable == fs.uncreatable
    ensures r.ok ==> r.fs.directories == fs.directories + {fullPath}
    ensures !r.ok ==> r.fs == fs
  {
    if fullPath !in fs.directories then
      if fullPath in fs.uncreatable then Ensured(false, fs)
      else Ensured(true, fs.(directories := fs.directories + {fullPath}))
    else Ensured(true, fs)
  }

  /** `subDirectoryExists(name)`: true when the subdirectory already exists
      or was created. */
  function SubDirectoryExists(w: Watcher, fs: FileSystem, name: string): (r: Ensured)
    ensures r.ok <==> CanEnsure(fs, SubDirectory(w, name))
    ensures r.ok <==> SubDirectory(w, name) in r.fs.directories
    ensures r.fs.uncreatable == fs.uncreatable
    ensures r.ok ==> r.fs.directories == fs.directories + {SubDirectory(w, name)}
    ensures !r.ok ==> r.fs == fs
  {
    EnsureDirectory(fs, SubDirectory(w, name))
  }

  /** On an existing subdirectory nothing happens, and a second call
      changes nothing and answers as the first did. */
  lemma SubDirectoryExistsIdempotent(w: Watcher, fs: FileSystem, name: string)
    ensures SubDirectory(w, name) in fs.directories ==> SubDirectoryExists(w, fs, name) == Ensured(true, fs)
    ensures var r := SubDirectoryExists(w, fs, name);
      SubDirectoryExists(w, r.fs, name) == r
  {
  }

  /** `subDirectoryExists(n1) && subDirectoryExists(n2) && ...` on the
      directories' full paths, evaluated left to right: the first failure
      stops the chain. */
  function EnsureAll(fs: FileSystem, paths: seq<Path>): (r: Startup)
    ensures r.fs.uncreatable == fs.uncreatable
    ensures fs.directories <= r.fs.directories
    ensures forall p :: p in r.fs.directories ==> p in fs.directories || p in r.ensured
    ensures r.ensured <= paths
    ensures r.watching ==> r.ensured == paths
    ensures !r.watching ==> |r.ensured| > 0 && !CanEnsure(r.fs, r.ensured[|r.ensured| - 1])
    ensures !r.watching ==> !CanEnsure(fs, r.ensured[|r.ensured| - 1])
    ensures forall i :: 0 <= i < |r.ensured| - 1 ==> CanEnsure(fs, r.ensured[i])
    ensures r.watching <==> forall p :: p in paths ==> p in r.fs.directories
    decreases |paths|
  {
    if paths == [] then Startup(true, fs, [])
    else
      var e := EnsureDirectory(fs, paths[0]);
      if !e.ok then Startup(false, e.fs, [paths[0]])
      else
        var rest := EnsureAll(e.fs, paths[1..]);
        assert forall p :: p in paths <==> p == paths[0] || p in paths[1..];
        Startup(rest.watching, rest.fs, [paths[0]] + rest.ensured)
  }

  /** The chain succeeds exactly when every directory exists or can be
      created in the initial filesystem. */
  lemma {:induction false} EnsureAllSucceedsIff(fs: FileSystem, paths: seq<Path>)
    ensures EnsureAll(fs, paths).watching <==> forall p :: p in paths ==> CanEnsure(fs, p)
    decreases |paths|
  {
    if paths != [] {
      var e := EnsureDirectory(fs, paths[0]);
      if e.ok {
        var tail := paths[1..];
        EnsureAllSucceedsIff(e.fs, tail);
        assert forall p :: p in tail ==> (CanEnsure(e.fs, p) <==> CanEnsure(fs, p));
        assert forall p :: p in paths <==> p == paths[0] || p in tail;
      }
    }
  }

  /** A failing chain leaves in place every directory it ensured before the
      one that failed. */
  lemma {:induction false} EnsureAllKeepsCreated(fs: FileSystem, paths: seq<Path>)
    ensures forall i :: 0 <= i < |EnsureAll(fs, paths).ensured| - 1 ==>
      EnsureAll(fs, paths).ensured[i] in EnsureAll(fs, paths).fs.directories
    decreases |paths|
  {
    if paths != [] {
      var e := EnsureDirectory(fs, paths[0]);
      if e.ok {
        var r := EnsureAll(fs, paths);
        var rest := EnsureAll(e.fs, paths[1..]);
        EnsureAllKeepsCreated(e.fs, paths[1..]);
        assert forall i :: 0 <= i < |rest.ensured| - 1 ==> rest.ensured[i] in rest.fs.directories;
        assert paths[0] in rest.fs.directories;
        assert r.ensured == [paths[0]] + rest.ensured && r.fs == rest.fs;
        forall i | 0 <= i < |r.ensured| - 1
          ensures r.ensured[i] in r.fs.directories
        {
          if i > 0 {
            assert r.ensured[i] == rest.ensured[i - 1];
          }
        }
      }
    }
  }

  /** Running the chain a second time, on the filesystem the first run left,
      creates nothing and reproduces the first run's outcome. */
  lemma {:induction false} EnsureAllIdempotent(fs: FileSystem, paths: seq<Path>)
    ensures var r := EnsureAll(fs, paths);
      EnsureAll(r.fs, paths) == r
    decreases |paths|
  {
    var r := EnsureAll(fs, paths);
    if paths != [] {
      var e := EnsureDirectory(fs, paths[0]);
      if e.ok {
        assert EnsureDirectory(r.fs, paths[0]) == Ensured(true, r.fs);
        EnsureAllIdempotent(e.fs, paths[1..]);
      }
    }
  }

  /** The guard of `VerifyInputAndRunImageProcessor`:
      `Directory.Exists(baseDirectory) && subDirectoryExists(DONE) &&
      subDirectoryExists(ORIGINAL)`. */
  function VerifyInput(w: Watcher, fs: FileSystem): (r: Startup)
    ensures var done, original := SubDirectory(w, Done), SubDirectory(w, Original);
      && (r.watching <==> w.baseDirectory in fs.directories && CanEnsure(fs, done) && CanEnsure(fs, original))
      && (r.watching <==> w.baseDirectory in r.fs.directories && done in r.fs.directories && original in r.fs.directories)
      && (w.baseDirectory !in fs.directories ==> r.ensured == [] && r.fs == fs)
      && (w.baseDirectory in fs.directories && !CanEnsure(fs, done) ==> r.ensured == [done] && r.fs == fs)
      && (w.baseDirectory in fs.directories && CanEnsure(fs, done) ==> r.ensured == [done, original])
      && (w.baseDirectory in fs.directories && CanEnsure(fs, done) && !CanEnsure(fs, original) ==>
            r.fs.directories == fs.directories + {done})
      && fs.directories <= r.fs.directories <= fs.directories + {done, original}
      && r.fs.uncreatable == fs.uncreatable
  {
    var done, original := SubDirectory(w, Done), SubDirectory(w, Original);
    SubDirectoriesDistinct(w);
    if w.baseDirectory in fs.directories then
      EnsureAllSucceedsIff(fs, [done, original]);
      EnsureAll(fs, [done, original])
    else Startup(false, fs, [])
  }

  /** Starting twice is the same as starting once. */
  lemma VerifyInputIdempotent(w: Watcher, fs: FileSystem)
    ensures VerifyInput(w, VerifyInput(w, fs).fs) == VerifyInput(w, fs)
  {
    if w.baseDirectory in fs.directories {
      EnsureAllIdempotent(fs, [SubDirectory(w, Done), SubDirectory(w, Original)]);
    }
  }

  /** One call the watcher makes for a file: the file, the directory
      argument, and the call's outcome. */
  datatype Step =
    | Transform(file: Path, directory: Path, ok: bool)
    | Relocate(file: Path, directory: Path, ok: bool)

  /** A created file together with the outcomes the transform (decode, draw,
      save) and the relocation (`File.Move`) will have. */
  datatype Event = Event(file: Path, transformOk: bool, relocateOk: bool)

  /** The calls made while handling events, and whether an exception
      escaped the handler. */
  datatype Handled = Handled(steps: seq<Step>, raised: bool)

  /** Where both `AddRoundCornersAndSave` and `MoveTo` put their result: the
      file's name inside the target directory. */
  function OutputPath(directory: Path, file: Path): Path {
    Combine(directory, FileName(file))
  }

  lemma CombineUnderSubDirectory(w: Watcher, sub: string, n: string)
    requires IsName(sub) && IsName(n)
    ensures Combine(SubDirectory(w, sub), n) == SubDirectory(w, sub) + [DirectorySeparator] + n
  {
    var d := SubDirectory(w, sub);
    assert d[|d| - 1] == sub[|sub| - 1];
  }

  /** Both outputs keep the source's file name, and they are two different
      files. */
  lemma TargetsKeepFileName(w: Watcher, file: Path)
    requires IsName(FileName(file))
    ensures FileName(OutputPath(SubDirectory(w, Done), file)) == FileName(file)
    ensures FileName(OutputPath(SubDirectory(w, Original), file)) == FileName(file)
    ensures OutputPath(SubDirectory(w, Done), file) != OutputPath(SubDirectory(w, Original), file)
  {
    var n := FileName(file);
    FileNameOfCombine(SubDirectory(w, Done), n);
    FileNameOfCombine(SubDirectory(w, Original), n);
    TargetsDistinct(w, n);
  }

  lemma TargetsDistinct(w: Watcher, n: string)
    requires IsName(n)
    ensures Combine(SubDirectory(w, Done), n) != Combine(SubDirectory(w, Original), n)
  {
    assert IsName(Done) && IsName(Original);
    CombineUnderSubDirectory(w, Done, n);
    CombineUnderSubDirectory(w, Original, n);
    SubDirectoriesDistinct(w);
    var d, g := SubDirectory(w, Done), SubDirectory(w, Original);
    var t, o := d + [DirectorySeparator] + n, g + [DirectorySeparator] + n;
    assert t[..|d|] == d && o[..|g|] == g;
  }

  /** `processImage(file)` as written: the transform call is not guarded, so
      when it throws the exception leaves the handler and the relocation is
      never attempted; `MoveTo` catches its own failures. */
  function ProcessImage(w: Watcher, e: Event): (h: Handled)
    ensures 0 < |h.steps| <= 2
    ensures h.steps[0] == Transform(e.file, SubDirectory(w, Done), e.transformOk)
    ensures h.raised <==> !e.transformOk
    ensures !e.transformOk ==> h.steps == [Transform(e.file, SubDirectory(w, Done), false)]
    ensures e.transformOk ==>
      h.steps == [Transform(e.file, SubDirectory(w, Done), true), Relocate(e.file, SubDirectory(w, Original), e.relocateOk)]
  {
    var transform := Transform(e.file, SubDirectory(w, Done), e.transformOk);
    if !e.transformOk then Handled([transform], true)
    else Handled([transform, Relocate(e.file, SubDirectory(w, Original), e.relocateOk)], false)
  }

  /** Events handled one after another as written: an exception escaping a
      `FileSystemWatcher` handler ends the process, so no later event is
      handled. */
  function HandleEvents(w: Watcher, events: seq<Event>): (h: Handled)
    ensures h.raised <==> exists i :: 0 <= i < |events| && !events[i].transformOk
    ensures |h.steps| <= 2 * |events|
    ensures !h.raised ==> |h.steps| == 2 * |events|
    decreases |events|
  {
    if events == [] then Handled([], false)
    else
      var first := ProcessImage(w, events[0]);
      if first.raised then first
      else
        var rest := HandleEvents(w, events[1..]);
        assert forall i :: 1 <= i < |events| ==> events[i] == events[1..][i - 1];
        Handled(first.steps + rest.steps, rest.raised)
  }

  /** Everything after the first failing transform is ignored. */
  lemma {:induction false} HandleEventsStopsAtFailure(w: Watcher, events: seq<Event>, i: nat)
    requires i < |events| && !events[i].transformOk
    ensures HandleEvents(w, events) == HandleEvents(w, events[..i + 1])
    decreases i
  {
    var first := ProcessImage(w, events[0]);
    if i > 0 && !first.raised {
      assert events[..i + 1][1..] == events[1..][..i];
      HandleEventsStopsAtFailure(w, events[1..], i - 1);
    }
  }

  /** The calls a run makes when transform `k` is the first to fail: both
      calls for every earlier file, then the failing transform, and nothing
      after it. */
  lemma {:induction false} HandleEventsUpToFailure(w: Watcher, events: seq<Event>, k: nat)
    requires k < |events| && !events[k].transformOk
    requires forall j :: 0 <= j < k ==> events[j].transformOk
    ensures HandleEvents(w, events).raised
    ensures HandleEvents(w, events).steps ==
      HandleEventsIsolated(w, events[..k]).steps + [Transform(events[k].file, SubDirectory(w, Done), false)]
    decreases k
  {
    if k == 0 {
      assert events[..0] == [];
    } else {
      var tail := events[1..];
      assert forall j :: 0 <= j < k - 1 ==> tail[j] == events[j + 1];
      HandleEventsUpToFailure(w, tail, k - 1);
      assert events[..k][0] == events[0] && events[..k][1..] == tail[..k - 1];
    }
  }

  /** A corrupt file `x` followed by a good file `y`: `y` is never
      transformed nor moved. */
  lemma FailedTransformBlocksLaterFile(w: Watcher, x: Path, y: Path)
    requires x != y
    ensures var h := HandleEvents(w, [Event(x, false, true), Event(y, true, true)]);
      h.raised && forall i :: 0 <= i < |h.steps| ==> h.steps[i].file != y
  {
    var events := [Event(x, false, true), Event(y, true, true)];
    assert HandleEvents(w, events) == ProcessImage(w, events[0]);
  }

  /** `processImage` with each per-file step isolated: the relocation is
      attempted whatever the transform's outcome, and nothing escapes. */
  function ProcessImageIsolated(w: Watcher, e: Event): (h: Handled)
    ensures !h.raised && |h.steps| == 2
    ensures h.steps[0] == Transform(e.file, SubDirectory(w, Done), e.transformOk)
    ensures h.steps[1] == Relocate(e.file, SubDirectory(w, Original), e.relocateOk)
  {
    Handled([Transform(e.file, SubDirectory(w, Done), e.transformOk),
             Relocate(e.file, SubDirectory(w, Original), e.relocateOk)], false)
  }

  /** Events handled one after another with the isolated handler. */
  function HandleEventsIsolated(w: Watcher, events: seq<Event>): (h: Handled)
    ensures !h.raised && |h.steps| == 2 * |events|
    decreases |events|
  {
    if events == [] then Handled([], false)
    else
      var rest := HandleEventsIsolated(w, events[1..]);
      Handled(ProcessImageIsolated(w, events[0]).steps + rest.steps, false)
  }

  /** Every event gets its transform and then its relocation, whatever the
      other events' outcomes: steps `2i` and `2i+1` are event `i`'s. */
  lemma {:induction false} HandleEventsIsolatedHandlesAll(w: Watcher, events: seq<Event>)
    ensures var h := HandleEventsIsolated(w, events);
      forall i :: 0 <= i < |events| ==> h.steps[2 * i..2 * i + 2] == ProcessImageIsolated(w, events[i]).steps
    decreases |events|
  {
    if events != [] {
      var tail := events[1..];
      HandleEventsIsolatedHandlesAll(w, tail);
      var h := HandleEventsIsolated(w, events);
      var rest := HandleEventsIsolated(w, tail);
      var first := ProcessImageIsolated(w, events[0]).steps;
      assert h.steps == first + rest.steps;
      forall i | 0 <= i < |events|
        ensures h.steps[2 * i..2 * i + 2] == ProcessImageIsolated(w, events[i]).steps
      {
        if i > 0 {
          assert events[i] == tail[i - 1];
          assert h.steps[2 * i..2 * i + 2] == rest.steps[2 * (i - 1)..2 * (i - 1) + 2];
        }
      }
    }
  }

  /** Failure isolation: how later files are handled does not depend on
      earlier ones. */
  lemma {:induction false} HandleEventsIsolatedConcat(w: Watcher, a: seq<Event>, b: seq<Event>)
    ensures HandleEventsIsolated(w, a + b).steps ==
      HandleEventsIsolated(w, a).steps + HandleEventsIsolated(w, b).steps
    decreases |a|
  {
    if a == [] {
      assert a + b == b;
    } else {
      assert (a + b)[0] == a[0];
      assert (a + b)[1..] == a[1..] + b;
      HandleEventsIsolatedConcat(w, a[1..], b);
    }
  }

  /** When no transform fails, the handler as written and the isolated one
      make the same calls. */
  lemma {:induction false} HandlersAgreeWithoutFailures(w: Watcher, events: seq<Event>)
    requires forall i :: 0 <= i < |events| ==> events[i].transformOk
    ensures HandleEvents(w, events) == HandleEventsIsolated(w, events)
    decreases |events|
  {
    if events != [] {
      assert forall i :: 0 <= i < |events[1..]| ==> events[1..][i] == events[i + 1];
      HandlersAgreeWithoutFailures(w, events[1..]);
    }
  }

  /** A whole run of `VerifyInputAndRunImageProcessor`. */
  datatype Session = Session(startup: Startup, handled: Handled)

  /** The guard, then (only if it passes) the events delivered while
      watching. */
  function VerifyInputAndRun(w: Watcher, fs: FileSystem, events: seq<Event>): (s: Session)
    ensures s.startup == VerifyInput(w, fs)
    ensures !s.startup.watching ==> s.handled == Handled([], false)
    ensures s.startup.watching ==> s.handled == HandleEvents(w, events)
    ensures |s.handled.steps| > 0 ==>
      && w.baseDirectory in fs.directories
      && SubDirectory(w, Done) in s.startup.fs.directories
      && SubDirectory(w, Original) in s.startup.fs.directories
  {
    var startup := VerifyInput(w, fs);
    if startup.watching then Session(startup, HandleEvents(w, events))
    else Session(startup, Handled([], false))
  }
}
