/** Loading the tasks and the files they include (internal/tasks/tasks.go, lines 174 to 289). */
module Include {
  import opened Text
  import opened Tasks

  type TaskMap = map<string, TaskDef>

  datatype File = Unreadable | Malformed | Good(includes: seq<string>, defaults: Defaults, tasks: TaskMap)

  /** What the path of an include pattern comes to, with the absolute paths that it matches. */
  datatype Found = Absolute | Escapes | BadGlob | Files(paths: seq<string>)

  /** The file system, and path/filepath over it. */
  datatype FileSystem = FileSystem(read: string -> File, glob: string -> Found, base: string -> string)

  datatype LoadError =
    | ReadFailed(path: string)
    | ParseFailed(path: string)
    | NestedInclude(path: string)
    | NestedDefaults(path: string)
    | BadInput(task: string)
    | InvalidInclude(pattern: string)
    | Duplicate(task: string, first: string, second: string)

  const NO_DEFAULTS := Defaults("", 0, "", "", "")

  // ---------------------------------------------------------------------------------------------
  // What can be loaded

  predicate InputOk(p: Platform, input: Input) {
    && (input.valuesURL == "" || input.enum == [])
    && (input.valuesCache == "" || input.valuesURL != "")
    && (input.valuesCache == "" || p.duration(input.valuesCache).Some?)
  }

  predicate TaskOk(p: Platform, task: TaskDef) {
    forall input :: input in task.inputs ==> InputOk(p, input)
  }

  predicate TasksOk(p: Platform, tasks: TaskMap) {
    forall name :: name in tasks ==> TaskOk(p, tasks[name])
  }

  predicate Includable(p: Platform, file: File) {
    file.Good? && file.includes == [] && file.defaults == NO_DEFAULTS && TasksOk(p, file.tasks)
  }

  function TasksOf(fs: FileSystem, path: string): TaskMap {
    var file := fs.read(path);
    if file.Good? then file.tasks else map[]
  }

  function PathSet(found: Found): set<string> {
    if found.Files? then set path | path in found.paths else {}
  }

  /** The distinct files that the patterns match. */
  function Matched(fs: FileSystem, includes: seq<string>): set<string> {
    if includes == [] then {} else Matched(fs, includes[..|includes| - 1]) + PathSet(fs.glob(includes[|includes| - 1]))
  }

  ghost predicate PatternsOk(fs: FileSystem, includes: seq<string>) {
    forall pattern :: pattern in includes ==> fs.glob(pattern).Files?
  }

  ghost predicate Apart(a: TaskMap, b: TaskMap) {
    a.Keys !! b.Keys
  }

  /** No task has two homes. */
  ghost predicate Disjoint(fs: FileSystem, own: TaskMap, files: set<string>) {
    && (forall f :: f in files ==> Apart(TasksOf(fs, f), own))
    && (forall f, g :: f in files && g in files && f != g ==> Apart(TasksOf(fs, f), TasksOf(fs, g)))
  }

  ghost predicate FilesOk(p: Platform, fs: FileSystem, files: set<string>) {
    forall f :: f in files ==> Includable(p, fs.read(f))
  }

  ghost predicate Loadable(p: Platform, fs: FileSystem, root: string) {
    var file := fs.read(root);
    && file.Good? && TasksOk(p, file.tasks)
    && PatternsOk(fs, file.includes)
    && FilesOk(p, fs, Matched(fs, file.includes))
    && Disjoint(fs, file.tasks, Matched(fs, file.includes))
  }

  /** Exactly the tasks of the own file and of the included files. */
  ghost predicate IsUnion(fs: FileSystem, m: TaskMap, own: TaskMap, files: set<string>) {
    && (forall name :: name in own ==> name in m && m[name] == own[name])
    && (forall f, name :: f in files && name in TasksOf(fs, f) ==> name in m && m[name] == TasksOf(fs, f)[name])
    && (forall name :: name in m ==> name in own || exists f :: f in files && name in TasksOf(fs, f))
  }

  // ---------------------------------------------------------------------------------------------
  // What can be wrong, one complaint at a time

  /** values_url excludes enum, values_cache needs values_url, and it must be a duration. */
  predicate InputFault(p: Platform, input: Input) {
    || (input.valuesURL != "" && input.enum != [])
    || (input.valuesCache != "" && input.valuesURL == "")
    || (input.valuesCache != "" && p.duration(input.valuesCache) == None)
  }

  ghost predicate HasInputFault(p: Platform, task: TaskDef) {
    exists input :: input in task.inputs && InputFault(p, input)
  }

  /** What is wrong with a file by itself; an included file may neither include nor set a default. */
  ghost predicate FileFault(p: Platform, file: File, path: string, included: bool, e: LoadError) {
    match e
    case ReadFailed(f) => f == path && file.Unreadable?
    case ParseFailed(f) => f == path && file.Malformed?
    case BadInput(name) => file.Good? && name in file.tasks && HasInputFault(p, file.tasks[name])
    case NestedInclude(f) => f == path && included && file.Good? && file.includes != []
    case NestedDefaults(f) =>
      f == path && included && file.Good? &&
      (file.defaults.timeout != "" || file.defaults.maxRetry != 0 || file.defaults.retryDelay != ""
       || file.defaults.queue != "" || file.defaults.logRetention != "")
    case _ => false
  }

  ghost predicate IsFaulty(p: Platform, file: File, path: string, included: bool) {
    exists e :: FileFault(p, file, path, included, e)
  }

  /** A file that some pattern of the root file matches. */
  ghost predicate Included(fs: FileSystem, root: string, path: string) {
    fs.read(root).Good? &&
    exists pattern :: pattern in fs.read(root).includes && fs.glob(pattern).Files? && path in fs.glob(pattern).paths
  }

  ghost predicate Defines(fs: FileSystem, path: string, name: string) {
    fs.read(path).Good? && name in fs.read(path).tasks
  }

  /** A task in an included file and in another file, the root file or an included one. */
  ghost predicate TwoHomes(fs: FileSystem, root: string, name: string, first: string, second: string) {
    exists g :: Included(fs, root, g) && Defines(fs, g, name) && second == fs.base(g)
      && ((Defines(fs, root, name) && first == fs.base(root))
          || exists f :: Included(fs, root, f) && f != g && Defines(fs, f, name) && first == fs.base(f))
  }

  ghost predicate LoadFault(p: Platform, fs: FileSystem, root: string, e: LoadError) {
    || FileFault(p, fs.read(root), root, false, e)
    || (exists path :: Included(fs, root, path) && FileFault(p, fs.read(path), path, true, e))
    || (e.InvalidInclude? && fs.read(root).Good? && e.pattern in fs.read(root).includes && !fs.glob(e.pattern).Files?)
    || (e.Duplicate? && TwoHomes(fs, root, e.task, e.first, e.second))
  }

  lemma TaskOkExactly(p: Platform, task: TaskDef)
    ensures TaskOk(p, task) <==> !HasInputFault(p, task)
  {
    assert forall input :: InputOk(p, input) <==> !InputFault(p, input);
  }

  lemma RootOkExactly(p: Platform, file: File, path: string)
    ensures file.Good? && TasksOk(p, file.tasks) <==> !IsFaulty(p, file, path, false)
  {
    hide TaskOk, HasInputFault;
    if file.Good? {
      forall name | name in file.tasks ensures TaskOk(p, file.tasks[name]) <==> !FileFault(p, file, path, false, BadInput(name)) {
        TaskOkExactly(p, file.tasks[name]);
      }
    }
    assert file.Unreadable? ==> FileFault(p, file, path, false, ReadFailed(path));
    assert file.Malformed? ==> FileFault(p, file, path, false, ParseFailed(path));
  }

  lemma IncludableExactly(p: Platform, file: File, path: string)
    ensures Includable(p, file) <==> !IsFaulty(p, file, path, true)
  {
    hide TasksOk, HasInputFault;
    RootOkExactly(p, file, path);
    if IsFaulty(p, file, path, false) {
      var e :| FileFault(p, file, path, false, e);
      assert FileFault(p, file, path, true, e);
    }
    if file.Good? && file.includes != [] {
      assert FileFault(p, file, path, true, NestedInclude(path));
    }
    if file.Good? && file.defaults != NO_DEFAULTS {
      assert FileFault(p, file, path, true, NestedDefaults(path));
    }
    forall e
      ensures FileFault(p, file, path, true, e) && file.Good? && file.includes == [] && file.defaults == NO_DEFAULTS ==>
                FileFault(p, file, path, false, e)
    {
    }
  }

  lemma IncludedExactly(fs: FileSystem, root: string, path: string)
    requires fs.read(root).Good?
    ensures Included(fs, root, path) <==> path in Matched(fs, fs.read(root).includes)
  {
    hide Matched;
    MatchedExactly(fs, fs.read(root).includes, path);
  }

  lemma PatternsOkExactly(fs: FileSystem, root: string)
    requires fs.read(root).Good?
    ensures PatternsOk(fs, fs.read(root).includes)
       <==> !exists pattern :: pattern in fs.read(root).includes && !fs.glob(pattern).Files?
  {
  }

  lemma DisjointExactly(fs: FileSystem, root: string)
    requires fs.read(root).Good?
    ensures Disjoint(fs, fs.read(root).tasks, Matched(fs, fs.read(root).includes))
       <==> !exists name, first, second :: TwoHomes(fs, root, name, first, second)
  {
    hide Matched;
    var own, files := fs.read(root).tasks, Matched(fs, fs.read(root).includes);
    forall f ensures Included(fs, root, f) <==> f in files {
      IncludedExactly(fs, root, f);
    }
    if !Disjoint(fs, own, files) {
      if f :| f in files && !Apart(TasksOf(fs, f), own) {
        var name :| name in TasksOf(fs, f) && name in own;
        assert Included(fs, root, f) && Defines(fs, f, name) && Defines(fs, root, name);
        assert TwoHomes(fs, root, name, fs.base(root), fs.base(f));
      } else {
        var f, g :| f in files && g in files && f != g && !Apart(TasksOf(fs, f), TasksOf(fs, g));
        var name :| name in TasksOf(fs, f) && name in TasksOf(fs, g);
        assert Included(fs, root, f) && Included(fs, root, g) && Defines(fs, f, name) && Defines(fs, g, name);
        assert TwoHomes(fs, root, name, fs.base(f), fs.base(g));
      }
    }
    if exists name, first, second :: TwoHomes(fs, root, name, first, second) {
      var name, first, second :| TwoHomes(fs, root, name, first, second);
      HomesAreNotApart(fs, root, name, first, second);
    }
  }

  lemma HomesAreNotApart(fs: FileSystem, root: string, name: string, first: string, second: string)
    requires fs.read(root).Good? && TwoHomes(fs, root, name, first, second)
    ensures !Disjoint(fs, fs.read(root).tasks, Matched(fs, fs.read(root).includes))
  {
    hide Matched;
    var own, files := fs.read(root).tasks, Matched(fs, fs.read(root).includes);
    forall f ensures Included(fs, root, f) <==> f in files {
      IncludedExactly(fs, root, f);
    }
    var g :| Included(fs, root, g) && Defines(fs, g, name) && second == fs.base(g)
      && ((Defines(fs, root, name) && first == fs.base(root))
          || exists f :: Included(fs, root, f) && f != g && Defines(fs, f, name) && first == fs.base(f));
    assert name in TasksOf(fs, g) && g in files;
    if name in own {
      assert !Apart(TasksOf(fs, g), own);
    } else {
      var f :| Included(fs, root, f) && f != g && Defines(fs, f, name) && first == fs.base(f);
      assert f in files && name in TasksOf(fs, f);
      assert !Apart(TasksOf(fs, f), TasksOf(fs, g));
    }
  }

  lemma FilesOkExactly(p: Platform, fs: FileSystem, root: string)
    requires fs.read(root).Good?
    ensures FilesOk(p, fs, Matched(fs, fs.read(root).includes))
       <==> !exists path :: Included(fs, root, path) && IsFaulty(p, fs.read(path), path, true)
  {
    hide Matched, Includable, IsFaulty, Included;
    forall path
      ensures Included(fs, root, path) <==> path in Matched(fs, fs.read(root).includes)
      ensures Includable(p, fs.read(path)) <==> !IsFaulty(p, fs.read(path), path, true)
    {
      IncludedExactly(fs, root, path);
      IncludableExactly(p, fs.read(path), path);
    }
  }

  /** A root file loads if and only if nothing is wrong: with it, with a file that it includes, with a
      pattern, or with a task that two of the files define. */
  lemma LoadsExactly(p: Platform, fs: FileSystem, root: string)
    ensures Loadable(p, fs, root) <==> !exists e :: LoadFault(p, fs, root, e)
  {
    hide FileFault, TwoHomes, Included, Disjoint, FilesOk, PatternsOk, TasksOk, Matched;
    RootOkExactly(p, fs.read(root), root);
    if fs.read(root).Good? {
      PatternsOkExactly(fs, root);
      FilesOkExactly(p, fs, root);
      DisjointExactly(fs, root);
    }
    if exists e :: LoadFault(p, fs, root, e) {
      var e :| LoadFault(p, fs, root, e);
      FaultIsNotLoadable(p, fs, root, e);
    } else {
      forall e ensures !FileFault(p, fs.read(root), root, false, e) {
        assert !LoadFault(p, fs, root, e);
      }
      NoFaultIsLoadable(p, fs, root);
    }
  }

  lemma FaultIsNotLoadable(p: Platform, fs: FileSystem, root: string, e: LoadError)
    requires LoadFault(p, fs, root, e)
    ensures !Loadable(p, fs, root)
  {
    hide FileFault, TwoHomes, Disjoint, FilesOk, PatternsOk, TasksOk, Matched;
    RootOkExactly(p, fs.read(root), root);
    if FileFault(p, fs.read(root), root, false, e) {
      assert IsFaulty(p, fs.read(root), root, false);
    } else if fs.read(root).Good? {
      PatternsOkExactly(fs, root);
      FilesOkExactly(p, fs, root);
      DisjointExactly(fs, root);
      if path :| Included(fs, root, path) && FileFault(p, fs.read(path), path, true, e) {
        assert IsFaulty(p, fs.read(path), path, true);
      }
    }
  }

  lemma FaultyIncludeIsFault(p: Platform, fs: FileSystem, root: string, path: string)
    requires Included(fs, root, path) && IsFaulty(p, fs.read(path), path, true)
    ensures exists e :: LoadFault(p, fs, root, e)
  {
    hide FileFault, Included;
    var e :| FileFault(p, fs.read(path), path, true, e);
    assert LoadFault(p, fs, root, e);
  }

  lemma NoFaultIsLoadable(p: Platform, fs: FileSystem, root: string)
    requires !exists e :: LoadFault(p, fs, root, e)
    ensures Loadable(p, fs, root)
  {
    hide FileFault, TwoHomes, Included, Disjoint, FilesOk, PatternsOk, TasksOk, Matched;
    RootOkExactly(p, fs.read(root), root);
    forall e ensures !LoadFault(p, fs, root, e) && !FileFault(p, fs.read(root), root, false, e) {
    }
    assert !IsFaulty(p, fs.read(root), root, false);
    PatternsOkExactly(fs, root);
    forall pattern | pattern in fs.read(root).includes ensures fs.glob(pattern).Files? {
      assert !LoadFault(p, fs, root, InvalidInclude(pattern));
    }
    FilesOkExactly(p, fs, root);
    forall path | Included(fs, root, path) ensures !IsFaulty(p, fs.read(path), path, true) {
      if IsFaulty(p, fs.read(path), path, true) {
        FaultyIncludeIsFault(p, fs, root, path);
      }
    }
    DisjointExactly(fs, root);
    forall name, first, second ensures !TwoHomes(fs, root, name, first, second) {
      assert !LoadFault(p, fs, root, Duplicate(name, first, second));
    }
  }

  // ---------------------------------------------------------------------------------------------
  // Load

  function Stamp(names: set<string>, source: string): map<string, string> {
    map name | name in names :: source
  }

  function Restrict(m: TaskMap, names: set<string>): TaskMap {
    map name | name in m && name in names :: m[name]
  }

  /** The tasks named so far have been added to what was there, and none was there before. */
  ghost predicate Added(t0: TaskMap, s0: map<string, string>, m: TaskMap, source: string, done: set<string>,
                        tasks: TaskMap, sources: map<string, string>) {
    && done <= m.Keys && done !! t0.Keys && s0.Keys == t0.Keys
    && tasks == t0 + Restrict(m, done)
    && sources == s0 + Stamp(done, source)
  }

  lemma AddedFirst(t0: TaskMap, s0: map<string, string>, m: TaskMap, source: string)
    requires s0.Keys == t0.Keys
    ensures Added(t0, s0, m, source, {}, t0, s0)
  {
    assert Restrict(m, {}) == map[] && Stamp({}, source) == map[];
  }

  lemma StampNext(names: set<string>, source: string, name: string)
    ensures Stamp(names + {name}, source) == Stamp(names, source)[name := source] && Stamp(names, source).Keys == names
  {
  }

  lemma RestrictNext(m: TaskMap, names: set<string>, name: string)
    requires name in m
    ensures Restrict(m, names + {name}) == Restrict(m, names)[name := m[name]]
  {
  }

  lemma PlusNext<V>(whole: map<string, V>, before: map<string, V>, part: map<string, V>, name: string, v: V)
    requires whole == before + part
    ensures whole[name := v] == before + part[name := v]
  {
  }

  lemma AddedNext(t0: TaskMap, s0: map<string, string>, m: TaskMap, source: string, done: set<string>,
                  tasks: TaskMap, sources: map<string, string>, name: string)
    requires Added(t0, s0, m, source, done, tasks, sources) && name in m && name !in done
    ensures name in sources <==> name in t0
    ensures name in sources ==> sources[name] == s0[name]
    ensures name !in sources ==> Added(t0, s0, m, source, done + {name}, tasks[name := m[name]], sources[name := source])
  {
    hide Restrict, Stamp;
    StampNext(done, source, name);
    RestrictNext(m, done, name);
    PlusNext(tasks, t0, Restrict(m, done), name, m[name]);
    PlusNext(sources, s0, Stamp(done, source), name, source);
  }

  lemma AddedLast(t0: TaskMap, s0: map<string, string>, m: TaskMap, source: string, tasks: TaskMap, sources: map<string, string>)
    requires Added(t0, s0, m, source, m.Keys, tasks, sources)
    ensures m.Keys !! t0.Keys && tasks == t0 + m && sources == s0 + Stamp(m.Keys, source)
  {
    assert Restrict(m, m.Keys) == m;
  }

  /** validateInputs: the name of a task with a bad input, if there is one. */
  method ValidateInputs(p: Platform, tasks: TaskMap) returns (bad: Option<string>)
    ensures bad.None? <==> TasksOk(p, tasks)
    ensures bad.Some? ==> bad.value in tasks && !TaskOk(p, tasks[bad.value])
  {
    var names := tasks.Keys;
    while names != {}
      invariant names <= tasks.Keys
      invariant forall name :: name in tasks && name !in names ==> TaskOk(p, tasks[name])
      decreases |names|
    {
      var name :| name in names;
      for i := 0 to |tasks[name].inputs|
        invariant forall j :: 0 <= j < i ==> InputOk(p, tasks[name].inputs[j])
      {
        if !InputOk(p, tasks[name].inputs[i]) {
          return Some(name);
        }
      }
      names := names - {name};
    }
    return None;
  }

  /** The configuration being built, with the file that each task came from. */
  class Config {
    var tasks: TaskMap
    var sources: map<string, string>

    constructor (own: TaskMap, source: string)
      ensures tasks == own && sources == Stamp(own.Keys, source)
    {
      tasks := own;
      sources := Stamp(own.Keys, source);
    }

    ghost predicate Valid()
      reads this
    {
      sources.Keys == tasks.Keys
    }

    /** The loop at the end of loadInclude, over a map that is visited in any order. */
    method Merge(m: TaskMap, source: string) returns (clash: Option<string>)
      requires sources.Keys == tasks.Keys
      modifies this
      ensures clash.None? ==> m.Keys !! old(tasks).Keys
      ensures clash.None? ==> tasks == old(tasks) + m && sources == old(sources) + Stamp(m.Keys, source)
      ensures clash.Some? ==> clash.value in m && clash.value in old(sources) && clash.value in sources
                              && sources[clash.value] == old(sources)[clash.value]
    {
      hide *;
      ghost var t0, s0 := tasks, sources;
      AddedFirst(t0, s0, m, source);
      ghost var done: set<string> := {};
      var names := m.Keys;
      while names != {}
        invariant names == m.Keys - done && done <= m.Keys
        invariant Added(t0, s0, m, source, done, tasks, sources)
        decreases |names|
      {
        var name :| name in names;
        AddedNext(t0, s0, m, source, done, tasks, sources, name);
        if name in sources {
          return Some(name);
        }
        sources := sources[name := source];
        tasks := tasks[name := m[name]];
        names := names - {name};
        done := done + {name};
      }
      assert done == m.Keys;
      AddedLast(t0, s0, m, source, tasks, sources);
      return None;
    }

    /** loadInclude: on success the file's tasks are added and none is replaced; on failure the
        caller drops the configuration. */
    method LoadInclude(p: Platform, fs: FileSystem, path: string) returns (error: Option<LoadError>)
      requires Valid()
      modifies this
      ensures error.None? <==> Includable(p, fs.read(path)) && TasksOf(fs, path).Keys !! old(tasks).Keys
      ensures error.None? ==> Valid() && tasks == old(tasks) + TasksOf(fs, path)
      ensures error.None? ==> sources == old(sources) + Stamp(TasksOf(fs, path).Keys, fs.base(path))
      ensures error.Some? ==> if error.value.Duplicate? then
                var Duplicate(name, first, second) := error.value;
                name in TasksOf(fs, path) && name in old(sources) && first == old(sources)[name] && second == fs.base(path)
                else !Includable(p, fs.read(path)) && FileFault(p, fs.read(path), path, true, error.value)
    {
      hide HasInputFault;
      var file := fs.read(path);
      if file.Unreadable? {
        return Some(ReadFailed(path));
      }
      if file.Malformed? {
        return Some(ParseFailed(path));
      }
      if |file.includes| > 0 {
        return Some(NestedInclude(path));
      }
      if file.defaults != NO_DEFAULTS {
        return Some(NestedDefaults(path));
      }
      var bad := ValidateInputs(p, file.tasks);
      if bad.Some? {
        TaskOkExactly(p, file.tasks[bad.value]);
        return Some(BadInput(bad.value));
      }
      var clash := Merge(file.tasks, fs.base(path));
      if clash.Some? {
        return Some(Duplicate(clash.value, sources[clash.value], fs.base(path)));
      }
      return None;
    }
  }

  // ---------------------------------------------------------------------------------------------
  // Load itself

  /** Each task is recorded with the file that defines it. */
  ghost predicate SourcesOk(fs: FileSystem, own: TaskMap, source: string, loaded: set<string>, sources: map<string, string>) {
    && (forall name :: name in own ==> name in sources && sources[name] == source)
    && (forall f, name :: f in loaded && name in TasksOf(fs, f) ==> name in sources && sources[name] == fs.base(f))
  }

  /** What the loops keep: the files loaded so far are good, disjoint and merged. */
  ghost predicate Merged(p: Platform, fs: FileSystem, own: TaskMap, source: string, loaded: set<string>,
                         tasks: TaskMap, sources: map<string, string>) {
    && FilesOk(p, fs, loaded)
    && Disjoint(fs, own, loaded)
    && IsUnion(fs, tasks, own, loaded)
    && sources.Keys == tasks.Keys
    && SourcesOk(fs, own, source, loaded, sources)
  }

  lemma MergedUnfold(p: Platform, fs: FileSystem, own: TaskMap, source: string, loaded: set<string>,
                     tasks: TaskMap, sources: map<string, string>)
    ensures Merged(p, fs, own, source, loaded, tasks, sources)
       <==> FilesOk(p, fs, loaded) && Disjoint(fs, own, loaded) && IsUnion(fs, tasks, own, loaded)
            && sources.Keys == tasks.Keys && SourcesOk(fs, own, source, loaded, sources)
  {
    hide FilesOk, Disjoint, IsUnion, SourcesOk;
  }

  lemma FilesOkAfter(p: Platform, fs: FileSystem, loaded: set<string>, path: string)
    ensures FilesOk(p, fs, loaded + {path}) <==> FilesOk(p, fs, loaded) && Includable(p, fs.read(path))
  {
    hide Includable;
    if FilesOk(p, fs, loaded + {path}) {
      assert path in loaded + {path};
      forall f | f in loaded ensures Includable(p, fs.read(f)) {
        assert f in loaded + {path};
      }
    }
  }

  lemma SourcesAfter(fs: FileSystem, own: TaskMap, source: string, loaded: set<string>, tasks: TaskMap,
                     sources: map<string, string>, path: string)
    requires SourcesOk(fs, own, source, loaded, sources) && sources.Keys == tasks.Keys
    requires TasksOf(fs, path).Keys !! tasks.Keys
    ensures var all := sources + Stamp(TasksOf(fs, path).Keys, fs.base(path));
            SourcesOk(fs, own, source, loaded + {path}, all) && all.Keys == (tasks + TasksOf(fs, path)).Keys
  {
    hide TasksOf;
  }

  lemma MergedAfter(p: Platform, fs: FileSystem, own: TaskMap, source: string, loaded: set<string>,
                    tasks: TaskMap, sources: map<string, string>, path: string)
    requires Merged(p, fs, own, source, loaded, tasks, sources)
    requires path !in loaded && Includable(p, fs.read(path)) && TasksOf(fs, path).Keys !! tasks.Keys
    ensures Merged(p, fs, own, source, loaded + {path}, tasks + TasksOf(fs, path),
                   sources + Stamp(TasksOf(fs, path).Keys, fs.base(path)))
  {
    hide *;
    MergedUnfold(p, fs, own, source, loaded, tasks, sources);
    UnionAfter(fs, own, loaded, tasks, path);
    DisjointAfter(fs, own, loaded, tasks, path);
    FilesOkAfter(p, fs, loaded, path);
    SourcesAfter(fs, own, source, loaded, tasks, sources, path);
    MergedUnfold(p, fs, own, source, loaded + {path}, tasks + TasksOf(fs, path),
                 sources + Stamp(TasksOf(fs, path).Keys, fs.base(path)));
  }

  lemma UnionAfter(fs: FileSystem, own: TaskMap, loaded: set<string>, tasks: TaskMap, path: string)
    requires IsUnion(fs, tasks, own, loaded) && TasksOf(fs, path).Keys !! tasks.Keys
    ensures IsUnion(fs, tasks + TasksOf(fs, path), own, loaded + {path})
  {
    hide TasksOf;
    var all := tasks + TasksOf(fs, path);
    forall name | name in all ensures name in own || exists f :: f in loaded + {path} && name in TasksOf(fs, f) {
      if name !in TasksOf(fs, path) && name !in own {
        var f :| f in loaded && name in TasksOf(fs, f);
        assert f in loaded + {path};
      }
    }
  }

  lemma DisjointAfter(fs: FileSystem, own: TaskMap, loaded: set<string>, tasks: TaskMap, path: string)
    requires IsUnion(fs, tasks, own, loaded) && Disjoint(fs, own, loaded)
    ensures TasksOf(fs, path).Keys !! tasks.Keys ==> Disjoint(fs, own, loaded + {path})
    ensures path !in loaded && Disjoint(fs, own, loaded + {path}) ==> TasksOf(fs, path).Keys !! tasks.Keys
  {
    hide TasksOf;
    if path !in loaded && Disjoint(fs, own, loaded + {path}) {
      forall name | name in tasks ensures name !in TasksOf(fs, path) {
        if name in own {
          assert path in loaded + {path};
        } else {
          var f :| f in loaded && name in TasksOf(fs, f);
          assert f in loaded + {path} && path in loaded + {path};
        }
      }
    }
  }

  lemma {:induction false} MatchedPart(fs: FileSystem, includes: seq<string>, i: nat)
    requires i < |includes|
    ensures Matched(fs, includes[..i + 1]) == Matched(fs, includes[..i]) + PathSet(fs.glob(includes[i]))
    ensures Matched(fs, includes[..i + 1]) <= Matched(fs, includes)
    decreases |includes|
  {
    assert includes[..i + 1][..i] == includes[..i];
    if i == |includes| - 1 {
      assert includes[..i + 1] == includes;
    } else {
      var before := includes[..|includes| - 1];
      MatchedPart(fs, before, i);
      assert before[..i + 1] == includes[..i + 1];
    }
  }

  /** The second home of a task that two files define. */
  ghost predicate IsClash(fs: FileSystem, root: string, error: LoadError)
    requires fs.read(root).Good?
  {
    && error.Duplicate?
    && var own, files := TasksOf(fs, root), Matched(fs, fs.read(root).includes);
    && exists g :: g in files && error.task in TasksOf(fs, g) && error.second == fs.base(g)
         && ((error.task in own && error.first == fs.base(root))
             || exists f :: f in files && f != g && error.task in TasksOf(fs, f) && error.first == fs.base(f))
  }

  lemma ClashHasTwoHomes(p: Platform, fs: FileSystem, root: string, loaded: set<string>, tasks: TaskMap,
                         sources: map<string, string>, path: string, error: LoadError)
    requires fs.read(root).Good?
    requires Merged(p, fs, fs.read(root).tasks, fs.base(root), loaded, tasks, sources)
    requires loaded <= Matched(fs, fs.read(root).includes) && path in Matched(fs, fs.read(root).includes) && path !in loaded
    requires error.Duplicate? && error.task in TasksOf(fs, path) && error.task in sources
    requires error.first == sources[error.task] && error.second == fs.base(path)
    ensures IsClash(fs, root, error)
  {
    hide FilesOk, Disjoint, Matched;
    if error.task !in fs.read(root).tasks {
      var f :| f in loaded && error.task in TasksOf(fs, f);
      assert f != path;
    }
  }

  lemma RootFaultIsFault(p: Platform, fs: FileSystem, root: string, e: LoadError)
    requires match e
             case ReadFailed(f) => f == root && fs.read(root).Unreadable?
             case ParseFailed(f) => f == root && fs.read(root).Malformed?
             case BadInput(name) => fs.read(root).Good? && name in fs.read(root).tasks && HasInputFault(p, fs.read(root).tasks[name])
             case _ => false
    ensures LoadFault(p, fs, root, e) && !Loadable(p, fs, root)
  {
    hide HasInputFault, Loadable;
    assert FileFault(p, fs.read(root), root, false, e);
    FaultIsNotLoadable(p, fs, root, e);
  }

  lemma PatternIsFault(p: Platform, fs: FileSystem, root: string, pattern: string)
    requires fs.read(root).Good? && pattern in fs.read(root).includes && !fs.glob(pattern).Files?
    ensures LoadFault(p, fs, root, InvalidInclude(pattern)) && !Loadable(p, fs, root)
  {
    hide FileFault, Loadable;
    FaultIsNotLoadable(p, fs, root, InvalidInclude(pattern));
  }

  lemma IncludedFaultIsFault(p: Platform, fs: FileSystem, root: string, path: string, e: LoadError)
    requires fs.read(root).Good? && path in Matched(fs, fs.read(root).includes) && FileFault(p, fs.read(path), path, true, e)
    ensures LoadFault(p, fs, root, e) && !Loadable(p, fs, root)
  {
    hide FileFault, Included, Loadable;
    IncludedExactly(fs, root, path);
    FaultIsNotLoadable(p, fs, root, e);
  }

  lemma ClashIsFault(p: Platform, fs: FileSystem, root: string, e: LoadError)
    requires fs.read(root).Good? && IsClash(fs, root, e)
    ensures LoadFault(p, fs, root, e) && !Loadable(p, fs, root)
  {
    hide FileFault, Matched, Included, Loadable;
    forall f ensures Included(fs, root, f) <==> f in Matched(fs, fs.read(root).includes) {
      IncludedExactly(fs, root, f);
    }
    var own, files := TasksOf(fs, root), Matched(fs, fs.read(root).includes);
    var g :| g in files && e.task in TasksOf(fs, g) && e.second == fs.base(g)
         && ((e.task in own && e.first == fs.base(root))
             || exists f :: f in files && f != g && e.task in TasksOf(fs, f) && e.first == fs.base(f));
    assert Included(fs, root, g) && Defines(fs, g, e.task);
    if !(e.task in own && e.first == fs.base(root)) {
      var f :| f in files && f != g && e.task in TasksOf(fs, f) && e.first == fs.base(f);
      assert Included(fs, root, f) && Defines(fs, f, e.task);
    }
    assert TwoHomes(fs, root, e.task, e.first, e.second);
    FaultIsNotLoadable(p, fs, root, e);
  }

  lemma MergedIsLoadable(p: Platform, fs: FileSystem, root: string, tasks: TaskMap, sources: map<string, string>)
    requires fs.read(root).Good? && TasksOk(p, fs.read(root).tasks) && PatternsOk(fs, fs.read(root).includes)
    requires Merged(p, fs, fs.read(root).tasks, fs.base(root), Matched(fs, fs.read(root).includes), tasks, sources)
    ensures Loadable(p, fs, root)
  {
    hide TasksOk, PatternsOk, FilesOk, Disjoint, Matched, IsUnion, SourcesOk;
  }

  /** Load: it succeeds exactly when the root file, every pattern and every distinct matched file
      are good and no task has two homes; the result is then the disjoint union of the files, whatever
      the order of the patterns, however their matches overlap. */
  method Load(p: Platform, fs: FileSystem, root: string) returns (cfg: Config?, error: Option<LoadError>)
    ensures cfg != null <==> error.None?
    ensures error.None? <==> Loadable(p, fs, root)
    ensures cfg != null ==> fresh(cfg) && IsUnion(fs, cfg.tasks, fs.read(root).tasks, Matched(fs, fs.read(root).includes))
    ensures cfg != null ==> SourcesOk(fs, fs.read(root).tasks, fs.base(root), Matched(fs, fs.read(root).includes), cfg.sources)
    ensures error.Some? ==> LoadFault(p, fs, root, error.value)
  {
    hide LoadFault, FileFault, HasInputFault, Loadable, Includable, TasksOk, Matched, Merged, IsClash, IsUnion, SourcesOk, FilesOk, Disjoint, TasksOf, Stamp;
    var file := fs.read(root);
    if file.Unreadable? {
      RootFaultIsFault(p, fs, root, ReadFailed(root));
      return null, Some(ReadFailed(root));
    }
    if file.Malformed? {
      RootFaultIsFault(p, fs, root, ParseFailed(root));
      return null, Some(ParseFailed(root));
    }
    var bad := ValidateInputs(p, file.tasks);
    if bad.Some? {
      TaskOkExactly(p, file.tasks[bad.value]);
      RootFaultIsFault(p, fs, root, BadInput(bad.value));
      return null, Some(BadInput(bad.value));
    }
    var source, includes := fs.base(root), file.includes;
    var config := new Config(file.tasks, source);
    var loaded: set<string> := {};
    MergedFirst(p, fs, file.tasks, source);
    for i := 0 to |includes|
      invariant fresh(config)
      invariant loaded == Matched(fs, includes[..i])
      invariant forall k :: 0 <= k < i ==> fs.glob(includes[k]).Files?
      invariant Merged(p, fs, file.tasks, source, loaded, config.tasks, config.sources)
    {
      var found := fs.glob(includes[i]);
      if !found.Files? {
        PatternIsFault(p, fs, root, includes[i]);
        return null, Some(InvalidInclude(includes[i]));
      }
      MatchedPart(fs, includes, i);
      for j := 0 to |found.paths|
        invariant fresh(config)
        invariant loaded == Matched(fs, includes[..i]) + PathSet(Files(found.paths[..j]))
        invariant Merged(p, fs, file.tasks, source, loaded, config.tasks, config.sources)
      {
        var path := found.paths[j];
        PathSetGrows(found.paths, j);
        if path !in loaded {
          MergedUnfold(p, fs, file.tasks, source, loaded, config.tasks, config.sources);
          ghost var tasks, sources := config.tasks, config.sources;
          var failed := config.LoadInclude(p, fs, path);
          if failed.Some? {
            if failed.value.Duplicate? {
              ClashHasTwoHomes(p, fs, root, loaded, tasks, sources, path, failed.value);
              ClashIsFault(p, fs, root, failed.value);
            } else {
              IncludedFaultIsFault(p, fs, root, path, failed.value);
            }
            return null, failed;
          }
          MergedAfter(p, fs, file.tasks, source, loaded, tasks, sources, path);
          loaded := loaded + {path};
        }
      }
      assert found.paths[..|found.paths|] == found.paths;
    }
    assert includes[..|includes|] == includes;
    MergedUnfold(p, fs, file.tasks, source, loaded, config.tasks, config.sources);
    MergedIsLoadable(p, fs, root, config.tasks, config.sources);
    return config, None;
  }

  lemma MergedFirst(p: Platform, fs: FileSystem, own: TaskMap, source: string)
    ensures Merged(p, fs, own, source, {}, own, Stamp(own.Keys, source))
    ensures Matched(fs, []) == {}
  {
  }

  lemma PathSetGrows(paths: seq<string>, j: nat)
    requires j < |paths|
    ensures PathSet(Files(paths[..j + 1])) == PathSet(Files(paths[..j])) + {paths[j]}
    ensures paths[j] in PathSet(Files(paths)) && PathSet(Files(paths[..j])) <= PathSet(Files(paths))
  {
    assert paths[..j + 1] == paths[..j] + [paths[j]];
  }

  // ---------------------------------------------------------------------------------------------
  // What the union depends on

  lemma {:induction false} MatchedExactly(fs: FileSystem, includes: seq<string>, path: string)
    ensures path in Matched(fs, includes) <==> exists pattern :: pattern in includes && path in PathSet(fs.glob(pattern))
  {
    hide PathSet;
    if includes != [] {
      var before, last := includes[..|includes| - 1], includes[|includes| - 1];
      assert includes == before + [last];
      MatchedExactly(fs, before, path);
      if path in PathSet(fs.glob(last)) {
        assert last in includes;
      }
    }
  }

  lemma UnionIsUnique(fs: FileSystem, m1: TaskMap, m2: TaskMap, own: TaskMap, files: set<string>)
    requires IsUnion(fs, m1, own, files) && IsUnion(fs, m2, own, files)
    ensures m1 == m2
  {
    hide TasksOf;
    assert forall name :: name in m1 ==> name in m2 && m1[name] == m2[name];
    assert forall name :: name in m2 ==> name in m1;
  }

  /** Two root files with the same tasks and the same patterns, in any order and with any repetition,
      load or fail together, and load to the same tasks. */
  lemma LoadIgnoresPatternOrder(p: Platform, fs: FileSystem, r1: string, r2: string, m1: TaskMap, m2: TaskMap)
    requires fs.read(r1).Good? && fs.read(r2).Good? && fs.read(r1).tasks == fs.read(r2).tasks
    requires forall pattern :: pattern in fs.read(r1).includes <==> pattern in fs.read(r2).includes
    ensures Loadable(p, fs, r1) <==> Loadable(p, fs, r2)
    ensures (IsUnion(fs, m1, fs.read(r1).tasks, Matched(fs, fs.read(r1).includes))
             && IsUnion(fs, m2, fs.read(r2).tasks, Matched(fs, fs.read(r2).includes))) ==> m1 == m2
  {
    hide TasksOk, FilesOk, Disjoint, IsUnion, Matched, PathSet;
    var i1, i2 := fs.read(r1).includes, fs.read(r2).includes;
    forall path ensures path in Matched(fs, i1) <==> path in Matched(fs, i2) {
      MatchedExactly(fs, i1, path);
      MatchedExactly(fs, i2, path);
    }
    assert Matched(fs, i1) == Matched(fs, i2);
    if IsUnion(fs, m1, fs.read(r1).tasks, Matched(fs, i1)) && IsUnion(fs, m2, fs.read(r2).tasks, Matched(fs, i2)) {
      UnionIsUnique(fs, m1, m2, fs.read(r1).tasks, Matched(fs, i1));
    }
  }

  function TotalSize(fs: FileSystem, files: seq<string>): nat {
    if files == [] then 0 else TotalSize(fs, files[..|files| - 1]) + |TasksOf(fs, files[|files| - 1])|
  }

  function Drop(m: TaskMap, names: set<string>): TaskMap {
    map name | name in m && name !in names :: m[name]
  }

  lemma SplitSize(m: TaskMap, part: TaskMap)
    requires part.Keys <= m.Keys
    ensures |m| == |Drop(m, part.Keys)| + |part|
  {
    assert m.Keys == Drop(m, part.Keys).Keys + part.Keys;
  }

  lemma DisjointWithout(fs: FileSystem, own: TaskMap, files: set<string>, f: string)
    requires Disjoint(fs, own, files + {f}) && f !in files
    ensures Disjoint(fs, own, files) && Apart(TasksOf(fs, f), own)
    ensures forall g :: g in files ==> Apart(TasksOf(fs, g), TasksOf(fs, f))
  {
    hide TasksOf;
    assert f in files + {f};
    assert forall g :: g in files ==> g in files + {f} && g != f;
  }

  lemma WithoutCovers(fs: FileSystem, m: TaskMap, own: TaskMap, files: set<string>, f: string, name: string)
    requires IsUnion(fs, m, own, files + {f}) && name in Drop(m, TasksOf(fs, f).Keys) && name !in own
    ensures exists g :: g in files && name in TasksOf(fs, g)
  {
    hide TasksOf;
    var g :| g in files + {f} && name in TasksOf(fs, g);
    assert g in files;
  }

  lemma WithoutKeeps(fs: FileSystem, m: TaskMap, own: TaskMap, files: set<string>, f: string, g: string, name: string)
    requires IsUnion(fs, m, own, files + {f}) && g in files && name in TasksOf(fs, g)
    requires Apart(TasksOf(fs, g), TasksOf(fs, f))
    ensures var rest := Drop(m, TasksOf(fs, f).Keys); name in rest && rest[name] == TasksOf(fs, g)[name]
  {
    hide TasksOf;
    assert g in files + {f};
  }

  lemma WithoutKeepsOwn(fs: FileSystem, m: TaskMap, own: TaskMap, files: set<string>, f: string)
    requires IsUnion(fs, m, own, files + {f}) && Apart(TasksOf(fs, f), own)
    ensures TasksOf(fs, f).Keys <= m.Keys
    ensures var rest := Drop(m, TasksOf(fs, f).Keys); forall name :: name in own ==> name in rest && rest[name] == own[name]
  {
    hide TasksOf;
    assert f in files + {f};
  }

  lemma UnionFold(fs: FileSystem, m: TaskMap, own: TaskMap, files: set<string>)
    requires forall name :: name in own ==> name in m && m[name] == own[name]
    requires forall f, name :: f in files && name in TasksOf(fs, f) ==> name in m && m[name] == TasksOf(fs, f)[name]
    requires forall name :: name in m && name !in own ==> exists f :: f in files && name in TasksOf(fs, f)
    ensures IsUnion(fs, m, own, files)
  {
    hide TasksOf;
  }

  lemma UnionWithout(fs: FileSystem, m: TaskMap, own: TaskMap, files: set<string>, f: string)
    requires IsUnion(fs, m, own, files + {f}) && Apart(TasksOf(fs, f), own)
    requires forall g :: g in files ==> Apart(TasksOf(fs, g), TasksOf(fs, f))
    ensures IsUnion(fs, Drop(m, TasksOf(fs, f).Keys), own, files) && TasksOf(fs, f).Keys <= m.Keys
  {
    hide *;
    WithoutKeepsOwn(fs, m, own, files, f);
    var rest := Drop(m, TasksOf(fs, f).Keys);
    forall g, name | g in files && name in TasksOf(fs, g) ensures name in rest && rest[name] == TasksOf(fs, g)[name] {
      WithoutKeeps(fs, m, own, files, f, g, name);
    }
    forall name | name in rest && name !in own ensures exists g :: g in files && name in TasksOf(fs, g) {
      WithoutCovers(fs, m, own, files, f, name);
    }
    UnionFold(fs, rest, own, files);
  }

  /** No task is lost and none is shadowed: the numbers of tasks of the distinct files add up. */
  lemma {:induction false} SizesAddUp(fs: FileSystem, m: TaskMap, own: TaskMap, files: seq<string>)
    requires forall i, j :: 0 <= i < j < |files| ==> files[i] != files[j]
    requires IsUnion(fs, m, own, set f | f in files) && Disjoint(fs, own, set f | f in files)
    ensures |m| == |own| + TotalSize(fs, files)
  {
    hide TasksOf, IsUnion, Disjoint;
    if files == [] {
      UnionOfNone(fs, m, own);
    } else {
      var before, f := files[..|files| - 1], files[|files| - 1];
      assert files == before + [f];
      var names := set g | g in before;
      assert (set g | g in files) == names + {f};
      DisjointWithout(fs, own, names, f);
      UnionWithout(fs, m, own, names, f);
      SizesAddUp(fs, Drop(m, TasksOf(fs, f).Keys), own, before);
      SplitSize(m, TasksOf(fs, f));
    }
  }

  lemma UnionOfNone(fs: FileSystem, m: TaskMap, own: TaskMap)
    requires IsUnion(fs, m, own, set f | f in [])
    ensures m == own
  {
  }
}
