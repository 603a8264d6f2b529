/**
 TinyWebServer/src/util/sharedfilepool.cpp: the cache of open files and the cache of paths that
 cannot be opened. A lookup is several critical sections with gaps between them; the step
 system at the end interleaves the lookups of any number of threads. The file system does not
 change; a file that can be opened is one in `disk`.
 */
module FilePool {
  import opened Sequences
  import opened Wrappers

  const MAX_SHARED_FILE: nat := 128

  type Path = string

  datatype Meta = Meta(size: nat, extension: string, lastModified: string)

  /** The handle is the number of files that had been opened before. */
  datatype FileInfo = FileInfo(file: nat, meta: Meta)

  type Disk = map<Path, Meta>

  /** What the lock protects, and the paths of all files opened so far, by handle. */
  datatype Shared = Shared(pool: map<string, FileInfo>, invalidPaths: set<Path>, files: seq<Path>)

  const EMPTY: Shared := Shared(map[], {}, [])

  // ---------- the critical sections ----------

  /** An element has to be chosen only when the cache is full. */
  predicate Evictable<T>(cached: set<T>, victim: T) {
    |cached| >= MAX_SHARED_FILE ==> victim in cached
  }

  function AddInvalid(s: Shared, path: Path, victim: Path): Shared
    requires Evictable(s.invalidPaths, victim)
  {
    var kept := if |s.invalidPaths| >= MAX_SHARED_FILE then s.invalidPaths - {victim} else s.invalidPaths;
    s.(invalidPaths := kept + {path})
  }

  function Open(s: Shared, path: Path): Shared {
    s.(files := s.files + [path])
  }

  /** The eviction comes first, even when the name is there by now; an entry that is there
      stays. */
  function AddFile(s: Shared, name: string, info: FileInfo, victim: string): Shared
    requires Evictable(s.pool.Keys, victim)
  {
    var kept := Kept(s, victim);
    if name in kept then s.(pool := kept) else s.(pool := kept[name := info])
  }

  /** What a full cache keeps. */
  function Kept(s: Shared, victim: string): map<string, FileInfo> {
    if |s.pool| >= MAX_SHARED_FILE then s.pool - {victim} else s.pool
  }

  class SharedFilePool {
    const root: string
    var pool: map<string, FileInfo>
    var invalidPaths: set<Path>
    var files: seq<Path>

    constructor (root: string)
      ensures this.root == root && View() == EMPTY
    {
      this.root := root;
      pool, invalidPaths, files := map[], {}, [];
    }

    ghost function View(): Shared
      reads this
    {
      Shared(pool, invalidPaths, files)
    }

    /** One lookup with nobody in between. `path` and `name` are what the caches would give up,
        should they be full. */
    method Get(fileName: string, disk: Disk, path: Path, name: string) returns (info: Option<FileInfo>)
      requires Evictable(invalidPaths, path) && Evictable(pool.Keys, name)
      modifies this
      ensures (info, View()) == Lookup(old(View()), root, fileName, disk, path, name)
    {
      if fileName in pool {
        return Some(pool[fileName]);
      }
      var filePath := root + fileName;
      if filePath in invalidPaths {
        return None;
      }
      if filePath !in disk {
        if |invalidPaths| >= MAX_SHARED_FILE {
          invalidPaths := invalidPaths - {path};
        }
        invalidPaths := invalidPaths + {filePath};
        return None;
      }
      var file := |files|;
      files := files + [filePath];
      var ret := FileInfo(file, disk[filePath]);
      if |pool| >= MAX_SHARED_FILE {
        pool := pool - {name};
      }
      pool := if fileName in pool then pool else pool[fileName := ret];
      return Some(pool[fileName]);
    }
  }

  function Lookup(s: Shared, root: string, name: string, disk: Disk, path: Path, victim: string)
    : (Option<FileInfo>, Shared)
    requires Evictable(s.invalidPaths, path) && Evictable(s.pool.Keys, victim)
  {
    if name in s.pool then (Some(s.pool[name]), s)
    else if root + name in s.invalidPaths then (None, s)
    else if root + name !in disk then (None, AddInvalid(s, root + name, path))
    else
      var next := AddFile(Open(s, root + name), name, FileInfo(|s.files|, disk[root + name]), victim);
      (Some(next.pool[name]), next)
  }

  // ---------- interleaved lookups ----------

  /** Where a thread is in its lookup: at the start of the next critical section. */
  datatype Phase =
    | Idle
    | Finding(name: string)
    | Missing(name: string)
    | Opening(name: string)
    | Failed(name: string)
    | Opened(name: string, file: nat)
    | Returned(name: string, info: Option<FileInfo>)

  datatype State = State(shared: Shared, threads: seq<Phase>)

  /** A thread starts a lookup, or goes on with it; `victim` is for a full cache. */
  datatype Event = Start(thread: nat, name: string) | Go(thread: nat, victim: string)

  predicate Enabled(s: State, e: Event) {
    e.thread < |s.threads| &&
    var phase := s.threads[e.thread];
    match e
    case Start(_, _) => phase.Idle? || phase.Returned?
    case Go(_, victim) =>
      && !phase.Idle? && !phase.Returned?
      && (phase.Failed? ==> Evictable(s.shared.invalidPaths, victim))
      && (phase.Opened? ==> Evictable(s.shared.pool.Keys, victim))
  }

  /** What a critical section does to the shared state and to the thread. */
  function Section(shared: Shared, phase: Phase, root: string, disk: Disk, victim: string): (Shared, Phase)
    requires !phase.Idle? && !phase.Returned?
    requires phase.Failed? ==> Evictable(shared.invalidPaths, victim)
    requires phase.Opened? ==> Evictable(shared.pool.Keys, victim)
  {
    var path := root + phase.name;
    match phase
    case Finding(name) =>
      (shared, if name in shared.pool then Returned(name, Some(shared.pool[name])) else Missing(name))
    case Missing(name) =>
      (shared, if path in shared.invalidPaths then Returned(name, None) else Opening(name))
    case Opening(name) =>
      if path in disk then (Open(shared, path), Opened(name, |shared.files|)) else (shared, Failed(name))
    case Failed(name) => (AddInvalid(shared, path, victim), Returned(name, None))
    case Opened(name, file) =>
      // the path is in `disk`, as the invariant below says
      var info := FileInfo(file, if path in disk then disk[path] else Meta(0, "", ""));
      var next := AddFile(shared, name, info, victim);
      (next, Returned(name, Some(next.pool[name])))
  }

  function Next(s: State, e: Event, root: string, disk: Disk): State
    requires Enabled(s, e)
  {
    match e
    case Start(t, name) => s.(threads := s.threads[t := Finding(name)])
    case Go(t, victim) =>
      var (shared, phase) := Section(s.shared, s.threads[t], root, disk, victim);
      State(shared, s.threads[t := phase])
  }

  /** A run, from its last event backwards. */
  predicate Possible(threads: nat, events: seq<Event>, root: string, disk: Disk)
    decreases |events|, 0
  {
    events == [] ||
    var before := events[..|events| - 1];
    Possible(threads, before, root, disk) && Enabled(After(threads, before, root, disk), events[|events| - 1])
  }

  function After(threads: nat, events: seq<Event>, root: string, disk: Disk): State
    requires Possible(threads, events, root, disk)
    decreases |events|, 1
  {
    if events == [] then State(EMPTY, seq(threads, _ => Idle))
    else Next(After(threads, events[..|events| - 1], root, disk), events[|events| - 1], root, disk)
  }

  // ---------- what every step keeps ----------

  /** An open file that is what its path names. */
  predicate Accurate(s: Shared, path: Path, info: FileInfo, disk: Disk) {
    && path in disk && info.meta == disk[path]
    && info.file < |s.files| && s.files[info.file] == path
  }

  ghost predicate SharedInv(s: Shared, root: string, disk: Disk) {
    && |s.pool| <= MAX_SHARED_FILE && |s.invalidPaths| <= MAX_SHARED_FILE
    && (forall name <- s.pool :: Accurate(s, root + name, s.pool[name], disk))
    && (forall path <- s.invalidPaths :: path !in disk)
  }

  /** The answer a direct lookup gives, but for the number of the handle. */
  predicate Right(s: Shared, path: Path, info: Option<FileInfo>, disk: Disk) {
    if info.Some? then Accurate(s, path, info.value, disk) else path !in disk
  }

  predicate PhaseInv(s: Shared, phase: Phase, root: string, disk: Disk) {
    match phase
    case Failed(name) => root + name !in disk
    case Opened(name, file) =>
      root + name in disk && file < |s.files| && s.files[file] == root + name
    case Returned(name, info) => Right(s, root + name, info, disk)
    case _ => true
  }

  /** No two threads hold the same file, and none holds one that is in the pool. */
  ghost predicate HeldAlone(s: State) {
    && (forall t, u :: 0 <= t < u < |s.threads| && s.threads[t].Opened? && s.threads[u].Opened? ==>
          s.threads[t].file != s.threads[u].file)
    && (forall t, name :: 0 <= t < |s.threads| && s.threads[t].Opened? && name in s.shared.pool ==>
          s.shared.pool[name].file != s.threads[t].file)
  }

  ghost predicate Inv(s: State, root: string, disk: Disk) {
    && SharedInv(s.shared, root, disk)
    && (forall t :: 0 <= t < |s.threads| ==> PhaseInv(s.shared, s.threads[t], root, disk))
    && HeldAlone(s)
  }

  lemma AddInvalidKeeps(s: Shared, path: Path, victim: Path, root: string, disk: Disk)
    requires SharedInv(s, root, disk) && Evictable(s.invalidPaths, victim) && path !in disk
    ensures SharedInv(AddInvalid(s, path, victim), root, disk)
  {
    var kept := if |s.invalidPaths| >= MAX_SHARED_FILE then s.invalidPaths - {victim} else s.invalidPaths;
    assert |kept| < MAX_SHARED_FILE;
    assert |kept + {path}| <= |kept| + 1;
  }

  lemma AddFileKeeps(s: Shared, name: string, info: FileInfo, victim: string, root: string, disk: Disk)
    requires SharedInv(s, root, disk) && Evictable(s.pool.Keys, victim) && Accurate(s, root + name, info, disk)
    ensures var next := AddFile(s, name, info, victim);
            SharedInv(next, root, disk) && next.files == s.files
  {
    var next := AddFile(s, name, info, victim);
    forall other <- next.pool
      ensures Accurate(next, root + other, next.pool[other], disk)
    {
      assert other != name ==> other in s.pool && next.pool[other] == s.pool[other];
      assert other == name ==> next.pool[other] == info || (other in s.pool && next.pool[other] == s.pool[other]);
    }
  }

  lemma SectionKeeps(s: Shared, phase: Phase, root: string, disk: Disk, victim: string)
    requires !phase.Idle? && !phase.Returned?
    requires phase.Failed? ==> Evictable(s.invalidPaths, victim)
    requires phase.Opened? ==> Evictable(s.pool.Keys, victim)
    requires SharedInv(s, root, disk) && PhaseInv(s, phase, root, disk)
    ensures var (next, moved) := Section(s, phase, root, disk, victim);
            SharedInv(next, root, disk) && PhaseInv(next, moved, root, disk) && s.files <= next.files
  {
    if phase.Failed? {
      AddInvalidKeeps(s, root + phase.name, victim, root, disk);
    }
    if phase.Opened? {
      AddFileKeeps(s, phase.name, FileInfo(phase.file, disk[root + phase.name]), victim, root, disk);
    }
  }

  lemma NextHeldAlone(s: State, e: Event, root: string, disk: Disk)
    requires Inv(s, root, disk) && Enabled(s, e)
    ensures HeldAlone(Next(s, e, root, disk))
  {
    var next := Next(s, e, root, disk);
    NextThreads(s, e, root, disk);
    forall t | 0 <= t < |s.threads| && s.threads[t].Opened?
      ensures s.threads[t].file < |s.shared.files|
    {
      assert PhaseInv(s.shared, s.threads[t], root, disk);
    }
    StaysAlone(s, next, e.thread);
  }

  /** The thread lets go of its file, or takes one that is new and not in the pool. */
  lemma StaysAlone(s: State, next: State, thread: nat)
    requires HeldAlone(s) && thread < |s.threads| == |next.threads|
    requires forall t :: 0 <= t < |s.threads| && t != thread ==> next.threads[t] == s.threads[t]
    requires forall t :: 0 <= t < |s.threads| && s.threads[t].Opened? ==> s.threads[t].file < |s.shared.files|
    requires forall name <- s.shared.pool :: s.shared.pool[name].file < |s.shared.files|
    requires next.threads[thread].Opened? ==>
               next.threads[thread].file == |s.shared.files| && next.shared.pool == s.shared.pool
    requires forall name <- next.shared.pool ::
               || (name in s.shared.pool && next.shared.pool[name] == s.shared.pool[name])
               || (s.threads[thread].Opened? && next.shared.pool[name].file == s.threads[thread].file)
    ensures HeldAlone(next)
  {
  }

  lemma NextThreads(s: State, e: Event, root: string, disk: Disk)
    requires Enabled(s, e)
    ensures var next, thread := Next(s, e, root, disk), e.thread;
            && |next.threads| == |s.threads|
            && (forall t :: 0 <= t < |s.threads| && t != thread ==> next.threads[t] == s.threads[t])
            && (next.threads[thread].Opened? ==>
                  next.threads[thread].file == |s.shared.files| && next.shared.pool == s.shared.pool)
  {
  }

  lemma NextKeeps(s: State, e: Event, root: string, disk: Disk)
    requires Inv(s, root, disk) && Enabled(s, e)
    ensures Inv(Next(s, e, root, disk), root, disk)
  {
    var next := Next(s, e, root, disk);
    NextHeldAlone(s, e, root, disk);
    if e.Go? {
      SectionKeeps(s.shared, s.threads[e.thread], root, disk, e.victim);
    }
    forall t | 0 <= t < |next.threads|
      ensures PhaseInv(next.shared, next.threads[t], root, disk)
    {
      assert t != e.thread ==> PhaseInv(s.shared, s.threads[t], root, disk);
    }
  }

  /** In every interleaving of any number of lookups the caches keep their bound, positive
      entries are accurate, negative entries name what cannot be opened, every answer is that of
      a direct lookup, and no file is held by two threads or held and in the pool. */
  lemma {:induction false} RunInv(threads: nat, events: seq<Event>, root: string, disk: Disk)
    requires Possible(threads, events, root, disk)
    ensures Inv(After(threads, events, root, disk), root, disk)
    ensures var s := After(threads, events, root, disk).shared; |s.pool| <= 128 && |s.invalidPaths| <= 128
    decreases |events|
  {
    if events != [] {
      var before := events[..|events| - 1];
      RunInv(threads, before, root, disk);
      NextKeeps(After(threads, before, root, disk), events[|events| - 1], root, disk);
    }
  }

  // ---------- what follows ----------

  /** A lookup with nobody in between gives the answer of a direct lookup, and keeps the caches
      as they have to be. */
  lemma LookupIsDirect(s: Shared, root: string, name: string, disk: Disk, path: Path, victim: string)
    requires SharedInv(s, root, disk) && Evictable(s.invalidPaths, path) && Evictable(s.pool.Keys, victim)
    ensures var (info, next) := Lookup(s, root, name, disk, path, victim);
            SharedInv(next, root, disk) && Right(next, root + name, info, disk)
  {
    if name !in s.pool && root + name !in s.invalidPaths {
      if root + name in disk {
        AddFileKeeps(Open(s, root + name), name, FileInfo(|s.files|, disk[root + name]), victim, root, disk);
      } else {
        AddInvalidKeeps(s, root + name, path, root, disk);
      }
    }
  }

  /** What is cached is answered without opening anything, and nothing changes. */
  lemma CachedIsAnswered(s: Shared, root: string, name: string, disk: Disk, path: Path, victim: string)
    requires Evictable(s.invalidPaths, path) && Evictable(s.pool.Keys, victim)
    ensures name in s.pool ==> Lookup(s, root, name, disk, path, victim) == (Some(s.pool[name]), s)
    ensures name !in s.pool && root + name in s.invalidPaths ==>
              Lookup(s, root, name, disk, path, victim) == (None, s)
  {
  }

  /** So a second lookup of a name answers the same as the first and changes nothing, whatever the
      caches would give up then. */
  lemma LookupTwice(s: Shared, root: string, name: string, disk: Disk, path: Path, victim: string,
                    path': Path, victim': string)
    requires Evictable(s.invalidPaths, path) && Evictable(s.pool.Keys, victim)
    requires var next := Lookup(s, root, name, disk, path, victim).1;
             Evictable(next.invalidPaths, path') && Evictable(next.pool.Keys, victim')
    ensures var (info, next) := Lookup(s, root, name, disk, path, victim);
            Lookup(next, root, name, disk, path', victim') == (info, next)
  {
    var next := Lookup(s, root, name, disk, path, victim).1;
    CachedIsAnswered(next, root, name, disk, path', victim');
  }

  /** Either answer is cached. */
  lemma LookupCaches(s: Shared, root: string, name: string, disk: Disk, path: Path, victim: string)
    requires Evictable(s.invalidPaths, path) && Evictable(s.pool.Keys, victim)
    ensures var (info, next) := Lookup(s, root, name, disk, path, victim);
            if info.Some? then name in next.pool && next.pool[name] == info.value
            else name !in next.pool && root + name in next.invalidPaths
  {
  }

  /** A lookup opens at most one file, and only a full cache gives anything up, one entry. */
  lemma LookupKeepsOthers(s: Shared, root: string, name: string, disk: Disk, path: Path, victim: string)
    requires Evictable(s.invalidPaths, path) && Evictable(s.pool.Keys, victim)
    ensures var next := Lookup(s, root, name, disk, path, victim).1;
            && (next.files == s.files || next.files == s.files + [root + name])
            && (forall other <- s.pool :: other in next.pool || (other == victim && |s.pool| >= 128))
            && (forall other <- s.pool :: other in next.pool && other != name ==> next.pool[other] == s.pool[other])
            && (forall other <- next.pool :: other in s.pool || other == name)
            && (forall other <- s.invalidPaths ::
                  other in next.invalidPaths || (other == path && |s.invalidPaths| >= 128))
            && (forall other <- next.invalidPaths :: other in s.invalidPaths || other == root + name)
  {
  }

  /** No thread opens a file for a name that it has found in a cache. */
  lemma CachedIsNotOpened(s: State, e: Event, root: string, disk: Disk)
    requires Enabled(s, e) && e.Go?
    ensures var phase, next := s.threads[e.thread], Next(s, e, root, disk);
            && (phase.Finding? && phase.name in s.shared.pool ==>
                  && next.shared == s.shared
                  && next.threads[e.thread] == Returned(phase.name, Some(s.shared.pool[phase.name])))
            && (phase.Missing? && root + phase.name in s.shared.invalidPaths ==>
                  next.shared == s.shared && next.threads[e.thread] == Returned(phase.name, None))
            && (!phase.Opening? ==> next.shared.files == s.shared.files)
  {
  }

  /** A thread that is left alone goes through the critical sections of one lookup. */
  function Alone(s: Shared, phase: Phase, root: string, disk: Disk, path: Path, victim: string, steps: nat)
    : (Shared, Phase)
    requires Evictable(s.invalidPaths, path) && Evictable(s.pool.Keys, victim)
    decreases steps
  {
    if steps == 0 || phase.Idle? || phase.Returned? then (s, phase)
    else
      var (next, moved) := Section(s, phase, root, disk, if phase.Failed? then path else victim);
      if moved.Returned? then (next, moved) else Alone(next, moved, root, disk, path, victim, steps - 1)
  }

  lemma AloneIsLookup(s: Shared, root: string, name: string, disk: Disk, path: Path, victim: string, steps: nat)
    requires Evictable(s.invalidPaths, path) && Evictable(s.pool.Keys, victim) && steps >= 4
    ensures var (info, next) := Lookup(s, root, name, disk, path, victim);
            Alone(s, Finding(name), root, disk, path, victim, steps) == (next, Returned(name, info))
  {
    if name !in s.pool {
      AloneOnce(s, Finding(name), root, disk, path, victim, steps);
      if root + name !in s.invalidPaths {
        AloneOnce(s, Missing(name), root, disk, path, victim, steps - 1);
        AloneOnce(s, Opening(name), root, disk, path, victim, steps - 2);
      }
    }
  }

  lemma AloneOnce(s: Shared, phase: Phase, root: string, disk: Disk, path: Path, victim: string, steps: nat)
    requires Evictable(s.invalidPaths, path) && Evictable(s.pool.Keys, victim)
    requires steps > 0 && (phase.Finding? || phase.Missing? || phase.Opening?)
    ensures var (next, moved) := Section(s, phase, root, disk, victim);
            Alone(s, phase, root, disk, path, victim, steps) ==
            if moved.Returned? then (next, moved)
            else Alone(next, moved, root, disk, path, victim, steps - 1)
  {
  }

  // ---------- files that nobody can find any more ----------

  /** An open file that is neither in the pool nor in the hand of a thread that puts it there.
      The destructor closes what is in the pool; an orphan is never closed. */
  ghost predicate Orphan(s: State, file: nat) {
    file < |s.shared.files| && !Pooled(s.shared.pool, file) && !Held(s.threads, file)
  }

  ghost predicate Pooled(pool: map<string, FileInfo>, file: nat) {
    exists name :: name in pool && pool[name].file == file
  }

  ghost predicate Held(threads: seq<Phase>, file: nat) {
    exists t :: 0 <= t < |threads| && threads[t].Opened? && threads[t].file == file
  }

  /** A full cache gives the file up, or the thread that holds it finds its name taken. */
  predicate Orphaned(s: State, e: Event, file: nat)
    requires Enabled(s, e)
  {
    && e.Go? && s.threads[e.thread].Opened?
    && ((|s.shared.pool| >= MAX_SHARED_FILE && s.shared.pool[e.victim].file == file) ||
        (s.threads[e.thread].file == file && s.threads[e.thread].name in Kept(s.shared, e.victim)))
  }

  /** Exactly then, and only then, a given file becomes an orphan; and it stays one. */
  lemma OrphanIff(s: State, e: Event, root: string, disk: Disk, file: nat)
    requires Inv(s, root, disk) && Enabled(s, e)
    ensures Orphan(Next(s, e, root, disk), file) <==> Orphan(s, file) || Orphaned(s, e, file)
  {
    if e.Go? && s.threads[e.thread].Opened? {
      OrphanWhenAdded(s, e, root, disk, file);
    } else {
      OrphanElsewhere(s, e, root, disk, file);
    }
  }

  lemma OrphanElsewhere(s: State, e: Event, root: string, disk: Disk, file: nat)
    requires Inv(s, root, disk) && Enabled(s, e) && !(e.Go? && s.threads[e.thread].Opened?)
    ensures Orphan(Next(s, e, root, disk), file) <==> Orphan(s, file)
  {
    var next := Next(s, e, root, disk);
    assert next.shared.pool == s.shared.pool;
    assert forall t :: 0 <= t < |s.threads| && t != e.thread ==> next.threads[t] == s.threads[t];
    assert next.threads[e.thread].Opened? ==>
        next.threads[e.thread].file == |s.shared.files| && |next.shared.files| == |s.shared.files| + 1;
    assert forall t :: 0 <= t < |s.threads| ==> PhaseInv(s.shared, s.threads[t], root, disk);
  }

  /** Names are told apart by their paths, so no file is in the pool under two of them. */
  lemma OneName(s: Shared, root: string, disk: Disk, a: string, b: string)
    requires SharedInv(s, root, disk) && a in s.pool && b in s.pool && s.pool[a].file == s.pool[b].file
    ensures a == b
  {
    assert root + a == root + b;
    assert a == (root + a)[|root|..] && b == (root + b)[|root|..];
  }

  lemma OrphanWhenAdded(s: State, e: Event, root: string, disk: Disk, file: nat)
    requires Inv(s, root, disk) && Enabled(s, e) && e.Go? && s.threads[e.thread].Opened?
    ensures Orphan(Next(s, e, root, disk), file) <==> Orphan(s, file) || Orphaned(s, e, file)
  {
    var phase := s.threads[e.thread];
    assert PhaseInv(s.shared, phase, root, disk);
    assert Held(s.threads, phase.file);
    KeptPooled(s.shared, root, disk, e.victim, file);
    NotBoth(s, file);
    NotBoth(s, phase.file);
    PooledNext(s, e, root, disk, file);
    HeldNext(s, e, root, disk, file);
  }

  lemma NotBoth(s: State, file: nat)
    requires HeldAlone(s)
    ensures !(Pooled(s.shared.pool, file) && Held(s.threads, file))
  {
  }

  /** Giving up the victim takes its file out of the pool, and no other. */
  lemma KeptPooled(s: Shared, root: string, disk: Disk, victim: string, file: nat)
    requires SharedInv(s, root, disk) && Evictable(s.pool.Keys, victim)
    ensures Pooled(Kept(s, victim), file) <==>
            Pooled(s.pool, file) && !(|s.pool| >= MAX_SHARED_FILE && s.pool[victim].file == file)
    ensures |s.pool| >= MAX_SHARED_FILE ==> Pooled(s.pool, s.pool[victim].file) && s.pool[victim].file < |s.files|
  {
    var kept := Kept(s, victim);
    if |s.pool| >= MAX_SHARED_FILE {
      assert Accurate(s, root + victim, s.pool[victim], disk);
      forall other | other in kept
        ensures kept[other].file != s.pool[victim].file
      {
        if s.pool[other].file == s.pool[victim].file {
          OneName(s, root, disk, other, victim);
        }
      }
      if Pooled(s.pool, file) && s.pool[victim].file != file {
        var name :| name in s.pool && s.pool[name].file == file;
        assert name in kept && kept[name].file == file;
      }
    }
  }

  /** Whether the file is in the pool behind the step. */
  lemma PooledNext(s: State, e: Event, root: string, disk: Disk, file: nat)
    requires Enabled(s, e) && e.Go? && s.threads[e.thread].Opened?
    ensures var next, phase, kept := Next(s, e, root, disk), s.threads[e.thread], Kept(s.shared, e.victim);
            Pooled(next.shared.pool, file) <==> Pooled(kept, file) || (phase.name !in kept && phase.file == file)
  {
    var next, phase, kept := Next(s, e, root, disk), s.threads[e.thread], Kept(s.shared, e.victim);
    if phase.name !in kept {
      assert next.shared.pool[phase.name].file == phase.file;
      assert forall name :: name in kept ==> name in next.shared.pool && next.shared.pool[name] == kept[name];
    }
  }

  lemma HeldNext(s: State, e: Event, root: string, disk: Disk, file: nat)
    requires Inv(s, root, disk) && Enabled(s, e) && e.Go? && s.threads[e.thread].Opened?
    ensures var next := Next(s, e, root, disk);
            Held(next.threads, file) <==> Held(s.threads, file) && file != s.threads[e.thread].file
  {
    var next := Next(s, e, root, disk);
    assert forall t :: 0 <= t < |s.threads| && t != e.thread ==> next.threads[t] == s.threads[t];
    if Held(s.threads, file) && file != s.threads[e.thread].file {
      var t :| 0 <= t < |s.threads| && s.threads[t].Opened? && s.threads[t].file == file;
      assert next.threads[t].Opened?;
    }
  }

  /** Whether the file has become an orphan at some step of the run. */
  ghost predicate EverOrphaned(threads: nat, events: seq<Event>, root: string, disk: Disk, file: nat)
    requires Possible(threads, events, root, disk)
    decreases |events|
  {
    events != [] &&
    var before, last := events[..|events| - 1], events[|events| - 1];
    EverOrphaned(threads, before, root, disk, file) || Orphaned(After(threads, before, root, disk), last, file)
  }

  /** In every run the orphans are the files that a full cache has given up and those whose
      name was taken when they came. */
  lemma {:induction false} RunOrphanIff(threads: nat, events: seq<Event>, root: string, disk: Disk, file: nat)
    requires Possible(threads, events, root, disk)
    ensures Orphan(After(threads, events, root, disk), file) <==> EverOrphaned(threads, events, root, disk, file)
    decreases |events|
  {
    if events != [] {
      var before, last := events[..|events| - 1], events[|events| - 1];
      RunOrphanIff(threads, before, root, disk, file);
      RunInv(threads, before, root, disk);
      OrphanIff(After(threads, before, root, disk), last, root, disk, file);
    }
  }

  // ---------- the account of open files ----------

  function PooledFiles(pool: map<string, FileInfo>): set<nat> {
    set name | name in pool :: pool[name].file
  }

  function HeldFiles(threads: seq<Phase>): set<nat> {
    set t | 0 <= t < |threads| && threads[t].Opened? :: threads[t].file
  }

  ghost function Orphans(s: State): set<nat> {
    set file | 0 <= file < |s.shared.files| && Orphan(s, file)
  }

  /** Threads that have opened a file and not put it into the pool yet. */
  function InFlight(threads: seq<Phase>): nat {
    if threads == [] then 0
    else InFlight(threads[..|threads| - 1]) + if threads[|threads| - 1].Opened? then 1 else 0
  }

  lemma {:induction false} PooledSize(pool: map<string, FileInfo>)
    requires forall a, b :: a in pool && b in pool && pool[a].file == pool[b].file ==> a == b
    ensures |PooledFiles(pool)| == |pool|
  {
    if pool != map[] {
      var name :| name in pool;
      PooledSize(pool - {name});
      var rest := pool - {name};
      forall file
        ensures file in PooledFiles(pool) <==> file in PooledFiles(rest) || file == pool[name].file
        ensures file == pool[name].file ==> file !in PooledFiles(rest)
      {
        if other :| other in pool && pool[other].file == file {
          assert other == name || other in rest;
        }
      }
      assert PooledFiles(pool) == PooledFiles(rest) + {pool[name].file};
    }
  }

  lemma {:induction false} HeldSize(threads: seq<Phase>)
    requires forall t, u :: 0 <= t < u < |threads| && threads[t].Opened? && threads[u].Opened? ==>
               threads[t].file != threads[u].file
    ensures |HeldFiles(threads)| == InFlight(threads)
  {
    if threads != [] {
      var last := |threads| - 1;
      HeldSize(threads[..last]);
      if threads[last].Opened? {
        assert HeldFiles(threads) == HeldFiles(threads[..last]) + {threads[last].file};
      } else {
        assert HeldFiles(threads) == HeldFiles(threads[..last]);
      }
    }
  }

  /** Each file that has been opened is in the pool under one name, or held by one thread, or an
      orphan. */
  lemma AccountOfFiles(s: State, root: string, disk: Disk)
    requires Inv(s, root, disk)
    ensures |s.shared.files| == |s.shared.pool| + InFlight(s.threads) + |Orphans(s)|
  {
    forall a, b | a in s.shared.pool && b in s.shared.pool && s.shared.pool[a].file == s.shared.pool[b].file
      ensures a == b
    {
      OneName(s.shared, root, disk, a, b);
    }
    PooledSize(s.shared.pool);
    HeldSize(s.threads);
    AllAccounted(s, root, disk);
  }

  lemma AllAccounted(s: State, root: string, disk: Disk)
    requires Inv(s, root, disk)
    ensures var pooled, held, orphans := PooledFiles(s.shared.pool), HeldFiles(s.threads), Orphans(s);
            && pooled !! held && pooled !! orphans && held !! orphans
            && pooled + held + orphans == UpTo(|s.shared.files|)
  {
    var pooled, held, orphans := PooledFiles(s.shared.pool), HeldFiles(s.threads), Orphans(s);
    forall file
      ensures file in pooled <==> Pooled(s.shared.pool, file)
      ensures file in held <==> Held(s.threads, file)
    {
    }
    forall t | 0 <= t < |s.threads| && s.threads[t].Opened?
      ensures s.threads[t].file < |s.shared.files|
    {
      assert PhaseInv(s.shared, s.threads[t], root, disk);
    }
    forall file
      ensures !(Pooled(s.shared.pool, file) && Held(s.threads, file))
    {
      NotBoth(s, file);
    }
  }
}
