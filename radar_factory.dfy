/**
 * The radar factory's acquisition queue: a FIFO of pending file names, a
 * registry of analysed files (a map from path to bool), the time window and
 * the two Level II file-name dialects that give each file its time.
 *
 * The directory listing and the list of result times are inputs; the network
 * fetching, the file-size poll and the construction of radar objects are not
 * modelled (a volume is named by the decoder its format selects).
 */
module RadarFactory {
  import opened Wrappers
  import opened Sequences
  import opened Strings
  import opened FileNames

  datatype Format = NcdcLevelII | LdmLevelII | Model | Dorade | Netcdf | Unconfigured

  /** The configured format name; any other name leaves the factory unconfigured. */
  function ParseFormat(name: string): (f: Format)
    ensures f == NcdcLevelII <==> name == "NCDCLEVELII"
    ensures f == LdmLevelII <==> name == "LDMLEVELII"
    ensures f == Model <==> name == "MODEL"
    ensures f != Dorade && f != Netcdf
  {
    if name == "LDMLEVELII" then LdmLevelII
    else if name == "NCDCLEVELII" then NcdcLevelII
    else if name == "MODEL" then Model
    else Unconfigured
  }

  /** The log messages the factory emits. */
  datatype Message = FormatNotSupported | NoNewData | FactoryProblem | FormatMismatch

  /** The radar object handed out for a dequeued file, by format. */
  datatype Volume = NcdcVolume(path: string) | LdmVolume(path: string) | AnalyticVolume(path: string)

  /** Window bounds are UTC seconds since 0001-01-01, as Timestamps counts them. */
  datatype Config = Config(radarName: string, dataDir: string, format: Format, startTime: int, endTime: int)

  /** The dialect parser the configured format selects; the other formats read no time. */
  function FileStamp(cfg: Config, file: string): Stamp
  {
    match cfg.format
    case NcdcLevelII => Stamp(NcdcTime(file, cfg.radarName), false)
    case LdmLevelII => LdmStamp(file, cfg.radarName)
    case _ => Stamp(None, false)
  }

  /** The file's time parses and lies in the inclusive window. */
  predicate InWindow(cfg: Config, stamp: string -> Stamp, file: string)
  {
    stamp(file).time.Some? && cfg.startTime <= stamp(file).time.value <= cfg.endTime
  }

  predicate IsAbsolute(name: string)
  {
    |name| > 0 && name[0] == '/'
  }

  /**
   * What QDir puts before a relative name: an empty directory is "." and a
   * directory already ending in '/', such as the root, gets no second '/'.
   */
  function DirPrefix(dir: string): (p: string)
    ensures |p| > 0 && p[|p| - 1] == '/'
    ensures dir == "" ==> p == "./"
    ensures dir != "" ==> |dir| <= |p| <= |dir| + 1 && p[..|dir|] == dir
  {
    if dir == "" then "./"
    else if dir[|dir| - 1] == '/' then dir
    else dir + "/"
  }

  /** QDir::filePath: an absolute name as it is, otherwise inside the data directory. */
  function FilePath(cfg: Config, name: string): string
  {
    if IsAbsolute(name) then name else DirPrefix(cfg.dataDir) + name
  }

  lemma FilePathInjective(cfg: Config, a: string, b: string)
    requires !IsAbsolute(a) && !IsAbsolute(b)
    requires FilePath(cfg, a) == FilePath(cfg, b)
    ensures a == b
  {
    var n := |DirPrefix(cfg.dataDir)|;
    assert a == FilePath(cfg, a)[n..];
    assert b == FilePath(cfg, b)[n..];
  }

  /** The registry says the path has been analysed. */
  predicate Analyzed(registry: map<string, bool>, path: string)
  {
    path in registry && registry[path]
  }

  /** Reading QMap::operator[] inserts `false` for a missing key. */
  function Touch(registry: map<string, bool>, path: string): (r: map<string, bool>)
    ensures path in r
    ensures forall q :: Analyzed(r, q) == Analyzed(registry, q)
  {
    if path in registry then registry else registry[path := false]
  }

  function TrueKeys(registry: map<string, bool>): set<string>
  {
    set p | p in registry && registry[p]
  }

  /** getNumProcessed: the number of paths marked analysed. */
  function NumProcessed(registry: map<string, bool>): nat
  {
    |TrueKeys(registry)|
  }

  lemma {:induction false} SubsetCardinality(a: set<string>, b: set<string>)
    requires a <= b
    ensures |a| <= |b|
    decreases |a|
  {
    if a != {} {
      var x :| x in a;
      SubsetCardinality(a - {x}, b - {x});
    }
  }

  /** Nothing that only adds analysed paths can lower the processed count. */
  lemma NumProcessedMonotone(r1: map<string, bool>, r2: map<string, bool>)
    requires forall p :: Analyzed(r1, p) ==> Analyzed(r2, p)
    ensures NumProcessed(r1) <= NumProcessed(r2)
  {
    forall p | p in TrueKeys(r1) ensures p in TrueKeys(r2) {
      assert Analyzed(r1, p);
    }
    SubsetCardinality(TrueKeys(r1), TrueKeys(r2));
  }

  /** NCDC scans drop names with an extension, unless the '.' is only before a '/'. */
  predicate KeepNcdcName(f: string)
  {
    '.' !in f || ('/' in f && '.' !in f[IndexOf(f, '/') + 1..])
  }

  /** The QDir name filter `radarName*`. */
  function NameFilter(radarName: string): string -> bool
  {
    f => MatchesPrefixIgnoringCase(f, radarName)
  }

  function KeepName(): string -> bool
  {
    f => KeepNcdcName(f)
  }

  /** The names a scan examines, in listing order. */
  function ScanCandidates(cfg: Config, files: seq<string>): seq<string>
  {
    var listed := Filter(files, NameFilter(cfg.radarName));
    if cfg.format == NcdcLevelII then Filter(listed, KeepName()) else listed
  }

  /** A scanned name is enqueued when its time is in the window and its path is not yet analysed. */
  function EnqueueTest(cfg: Config, stamp: string -> Stamp, registry: map<string, bool>): string -> bool
  {
    f => InWindow(cfg, stamp, f) && !Analyzed(registry, FilePath(cfg, f))
  }

  /** The queue a rescan builds from an empty queue. */
  function ScanQueue(cfg: Config, stamp: string -> Stamp, files: seq<string>, registry: map<string, bool>): seq<string>
  {
    match cfg.format
    case NcdcLevelII => Filter(ScanCandidates(cfg, files), EnqueueTest(cfg, stamp, registry))
    case LdmLevelII => Filter(ScanCandidates(cfg, files), EnqueueTest(cfg, stamp, registry))
    case Model => if Analyzed(registry, cfg.dataDir) then [] else [cfg.dataDir]
    case _ => []
  }

  /** The registry after a forward pass that looks up the path of every in-window name. */
  function ScanTouch(cfg: Config, stamp: string -> Stamp, names: seq<string>, registry: map<string, bool>): map<string, bool>
  {
    if names == [] then registry
    else
      var r := ScanTouch(cfg, stamp, names[..|names| - 1], registry);
      var f := names[|names| - 1];
      if InWindow(cfg, stamp, f) then Touch(r, FilePath(cfg, f)) else r
  }

  /** The registry after a rescan from an empty queue: lookups only, no value changes. */
  function ScanRegistry(cfg: Config, stamp: string -> Stamp, files: seq<string>, registry: map<string, bool>): map<string, bool>
  {
    match cfg.format
    case NcdcLevelII => ScanTouch(cfg, stamp, ScanCandidates(cfg, files), registry)
    case LdmLevelII => ScanTouch(cfg, stamp, ScanCandidates(cfg, files), registry)
    case Model => Touch(registry, cfg.dataDir)
    case _ => registry
  }

  function MismatchLog(stamp: string -> Stamp, file: string): seq<Message>
  {
    if stamp(file).mismatch then [FormatMismatch] else []
  }

  /** The mismatch warnings of a forward pass over `names`. */
  function ScanLog(stamp: string -> Stamp, names: seq<string>): seq<Message>
  {
    if names == [] then []
    else ScanLog(stamp, names[..|names| - 1]) + MismatchLog(stamp, names[|names| - 1])
  }

  /** The log entries of a rescan from an empty queue. */
  function ScanMessages(cfg: Config, stamp: string -> Stamp, files: seq<string>): seq<Message>
  {
    if cfg.format == NcdcLevelII || cfg.format == LdmLevelII then ScanLog(stamp, ScanCandidates(cfg, files)) else []
  }

  /** The paths a rescan looks up. */
  function InWindowPaths(cfg: Config, stamp: string -> Stamp, names: seq<string>): set<string>
  {
    set f | f in names && InWindow(cfg, stamp, f) :: FilePath(cfg, f)
  }

  /** Every path looked up is present afterwards; none changes its value. */
  function TouchAll(registry: map<string, bool>, paths: set<string>): map<string, bool>
  {
    registry + map p | p in paths && p !in registry :: false
  }

  /**
   * A result time lies within 30 s of the file's time, or the latest result
   * (the last of `results`) is later than the file.
   */
  predicate Triggered(stamp: string -> Stamp, file: string, results: seq<int>)
    requires stamp(file).time.Some?
  {
    var t := stamp(file).time.value;
    exists j :: 0 <= j < |results| && (-30 < results[j] - t < 30 || results[|results| - 1] > t)
  }

  /** An in-window queued file that a result covers, and whose path is not yet analysed. */
  predicate Pruned(cfg: Config, stamp: string -> Stamp, file: string, results: seq<int>, registry: map<string, bool>)
  {
    InWindow(cfg, stamp, file) && Triggered(stamp, file, results) && !Analyzed(registry, FilePath(cfg, file))
  }

  function Survives(cfg: Config, stamp: string -> Stamp, results: seq<int>, registry: map<string, bool>): string -> bool
  {
    f => !Pruned(cfg, stamp, f, results, registry)
  }

  /** The registry after a backward pass that marks every covered in-window path analysed. */
  function PruneMarks(cfg: Config, stamp: string -> Stamp, queue: seq<string>, results: seq<int>, registry: map<string, bool>): map<string, bool>
  {
    if queue == [] then registry
    else
      var r := PruneMarks(cfg, stamp, queue[1..], results, registry);
      if InWindow(cfg, stamp, queue[0]) && Triggered(stamp, queue[0], results) then r[FilePath(cfg, queue[0]) := true] else r
  }

  /** The mismatch warnings of a pass from the back of `queue` to its front. */
  function PruneLog(stamp: string -> Stamp, queue: seq<string>): seq<Message>
  {
    if queue == [] then []
    else PruneLog(stamp, queue[1..]) + MismatchLog(stamp, queue[0])
  }

  /** The paths of the covered in-window files. */
  function PrunedPaths(cfg: Config, stamp: string -> Stamp, queue: seq<string>, results: seq<int>): set<string>
  {
    set f | f in queue && InWindow(cfg, stamp, f) && Triggered(stamp, f, results) :: FilePath(cfg, f)
  }

  function MarkAll(registry: map<string, bool>, paths: set<string>): map<string, bool>
  {
    registry + map p | p in paths :: true
  }

  /** The decoder the format selects; the formats without one give no volume. */
  function VolumeFor(format: Format, path: string): Option<Volume>
  {
    match format
    case NcdcLevelII => Some(NcdcVolume(path))
    case LdmLevelII => Some(LdmVolume(path))
    case Model => Some(AnalyticVolume(path))
    case _ => None
  }

  // ---------------------------------------------------------------------
  // Sequence steps used by the passes

  /** Filtering a name-sorted list leaves it name-sorted. */
  lemma FilterSorted(s: seq<string>, p: string -> bool)
    requires StrictlySorted(s)
    ensures StrictlySorted(Filter(s, p))
  {
    var less := (a: string, b: string) => NameLess(a, b);
    FilterKeepsOrder(s, p, less);
  }

  lemma FilterCons<T>(s: seq<T>, i: nat, p: T -> bool)
    requires i < |s|
    ensures Filter(s[i..], p) == (if p(s[i]) then [s[i]] else []) + Filter(s[i + 1..], p)
  {
    assert s[i..][1..] == s[i + 1..];
  }

  /** One step of a backward pass that removes, in place, the entries failing `p`. */
  lemma BackwardFilterStep<T>(s: seq<T>, i: nat, p: T -> bool, kept: seq<T>)
    requires i < |s|
    requires kept == s[..i + 1] + Filter(s[i + 1..], p)
    ensures kept[i] == s[i]
    ensures (if p(s[i]) then kept else RemoveAt(kept, i)) == s[..i] + Filter(s[i..], p)
  {
    var rest := Filter(s[i + 1..], p);
    FilterCons(s, i, p);
    assert s[..i + 1] == s[..i] + [s[i]];
    assert kept == s[..i] + [s[i]] + rest;
    SplitAround(s[..i], s[i], rest);
    if p(s[i]) {
      assert Filter(s[i..], p) == [s[i]] + rest;
    } else {
      assert Filter(s[i..], p) == rest;
    }
  }

  /** The entry between a prefix and a suffix: where it sits, and what removing it leaves. */
  lemma SplitAround<T>(a: seq<T>, x: T, r: seq<T>)
    ensures (a + [x] + r)[|a|] == x
    ensures a + [x] + r == a + ([x] + r)
    ensures RemoveAt(a + [x] + r, |a|) == a + r
  {
    var t := a + [x] + r;
    assert t[..|a|] == a;
    assert t[|a| + 1..] == r;
  }

  /** One step of a forward pass that appends the entries satisfying `p`. */
  lemma ForwardFilterStep<T>(s: seq<T>, k: nat, p: T -> bool)
    requires k < |s|
    ensures Filter(s[..k + 1], p) == Filter(s[..k], p) + (if p(s[k]) then [s[k]] else [])
  {
    assert s[..k + 1] == s[..k] + [s[k]];
    FilterAppend(s[..k], [s[k]], p);
  }

  /** One name of the forward pass extends the queue, the registry and the log by that name alone. */
  lemma EnqueueStep(cfg: Config, stamp: string -> Stamp, names: seq<string>, k: nat, registry: map<string, bool>)
    requires k < |names|
    ensures var r := ScanTouch(cfg, stamp, names[..k], registry);
      Filter(names[..k + 1], EnqueueTest(cfg, stamp, registry)) ==
        Filter(names[..k], EnqueueTest(cfg, stamp, registry)) + (if EnqueueTest(cfg, stamp, r)(names[k]) then [names[k]] else []) &&
      ScanTouch(cfg, stamp, names[..k + 1], registry) ==
        (if InWindow(cfg, stamp, names[k]) then Touch(r, FilePath(cfg, names[k])) else r) &&
      ScanLog(stamp, names[..k + 1]) == ScanLog(stamp, names[..k]) + MismatchLog(stamp, names[k])
  {
    ForwardFilterStep(names, k, EnqueueTest(cfg, stamp, registry));
    ScanStep(cfg, stamp, names, k, registry);
    ScanTouchAnalyzed(cfg, stamp, names[..k], registry);
  }

  lemma ScanStep(cfg: Config, stamp: string -> Stamp, names: seq<string>, k: nat, registry: map<string, bool>)
    requires k < |names|
    ensures ScanTouch(cfg, stamp, names[..k + 1], registry)
         == (var r := ScanTouch(cfg, stamp, names[..k], registry);
             if InWindow(cfg, stamp, names[k]) then Touch(r, FilePath(cfg, names[k])) else r)
    ensures ScanLog(stamp, names[..k + 1]) == ScanLog(stamp, names[..k]) + MismatchLog(stamp, names[k])
  {
    assert names[..k + 1][..k] == names[..k];
  }

  // ---------------------------------------------------------------------
  // Properties of the rescan

  /** What a rescan enqueues, name by name. */
  predicate Enqueues(cfg: Config, stamp: string -> Stamp, files: seq<string>, registry: map<string, bool>, f: string)
  {
    match cfg.format
    case NcdcLevelII =>
      f in files && MatchesPrefixIgnoringCase(f, cfg.radarName) && KeepNcdcName(f) &&
      InWindow(cfg, stamp, f) && !Analyzed(registry, FilePath(cfg, f))
    case LdmLevelII =>
      f in files && MatchesPrefixIgnoringCase(f, cfg.radarName) &&
      InWindow(cfg, stamp, f) && !Analyzed(registry, FilePath(cfg, f))
    case Model => f == cfg.dataDir && !Analyzed(registry, cfg.dataDir)
    case _ => false
  }

  /** A rescan enqueues exactly the listed, name-matching, in-window, unanalysed files. */
  lemma ScanQueueMembers(cfg: Config, stamp: string -> Stamp, files: seq<string>, registry: map<string, bool>, f: string)
    ensures f in ScanQueue(cfg, stamp, files, registry) <==> Enqueues(cfg, stamp, files, registry, f)
  {
    var listed := Filter(files, NameFilter(cfg.radarName));
    if cfg.format == NcdcLevelII {
      assert f in Filter(listed, KeepName()) <==> f in listed && KeepNcdcName(f);
    }
  }

  /** A rescan of a name-sorted listing yields a name-sorted queue, so no file is queued twice. */
  lemma ScanQueueSorted(cfg: Config, stamp: string -> Stamp, files: seq<string>, registry: map<string, bool>)
    requires StrictlySorted(files)
    ensures StrictlySorted(ScanQueue(cfg, stamp, files, registry))
  {
    var listed := Filter(files, NameFilter(cfg.radarName));
    FilterSorted(files, NameFilter(cfg.radarName));
    FilterSorted(listed, KeepName());
    FilterSorted(ScanCandidates(cfg, files), EnqueueTest(cfg, stamp, registry));
  }

  lemma {:induction false} ScanTouchAnalyzed(cfg: Config, stamp: string -> Stamp, names: seq<string>, registry: map<string, bool>)
    ensures forall q :: Analyzed(ScanTouch(cfg, stamp, names, registry), q) == Analyzed(registry, q)
  {
    if names != [] {
      ScanTouchAnalyzed(cfg, stamp, names[..|names| - 1], registry);
    }
  }

  lemma TouchAllStep(registry: map<string, bool>, paths: set<string>, p: string)
    ensures Touch(TouchAll(registry, paths), p) == TouchAll(registry, paths + {p})
  {
  }

  /** A rescan's lookups add exactly the in-window paths as keys, and change no value. */
  lemma {:induction false} ScanTouchIsTouchAll(cfg: Config, stamp: string -> Stamp, names: seq<string>, registry: map<string, bool>)
    ensures ScanTouch(cfg, stamp, names, registry) == TouchAll(registry, InWindowPaths(cfg, stamp, names))
  {
    if names != [] {
      var init := names[..|names| - 1];
      var f := names[|names| - 1];
      ScanTouchIsTouchAll(cfg, stamp, init, registry);
      assert names == init + [f];
      var paths := InWindowPaths(cfg, stamp, init);
      if InWindow(cfg, stamp, f) {
        assert InWindowPaths(cfg, stamp, names) == paths + {FilePath(cfg, f)};
        TouchAllStep(registry, paths, FilePath(cfg, f));
      } else {
        assert InWindowPaths(cfg, stamp, names) == paths;
      }
    }
  }

  /** A rescan leaves the processed count as it was. */
  lemma ScanKeepsNumProcessed(cfg: Config, stamp: string -> Stamp, files: seq<string>, registry: map<string, bool>)
    ensures NumProcessed(ScanRegistry(cfg, stamp, files, registry)) == NumProcessed(registry)
  {
    ScanTouchAnalyzed(cfg, stamp, ScanCandidates(cfg, files), registry);
    var r := ScanRegistry(cfg, stamp, files, registry);
    assert forall q :: Analyzed(r, q) == Analyzed(registry, q);
    NumProcessedMonotone(r, registry);
    NumProcessedMonotone(registry, r);
  }

  /** Once the path of a listed name is marked analysed, no rescan enqueues the name again. */
  lemma NoRequeueOnceAnalyzed(cfg: Config, stamp: string -> Stamp, files: seq<string>, registry: map<string, bool>, f: string)
    requires cfg.format == NcdcLevelII || cfg.format == LdmLevelII
    requires Analyzed(registry, FilePath(cfg, f))
    ensures f !in ScanQueue(cfg, stamp, files, registry)
  {
    ScanQueueMembers(cfg, stamp, files, registry, f);
  }

  /**
   * The analytic configuration file is looked up under its own name but
   * marked under its path in the data directory: when that name is
   * relative, dequeuing it does not stop the next rescan from enqueuing it.
   */
  lemma ModelRequeuedWhenRelative(cfg: Config, stamp: string -> Stamp, files: seq<string>, registry: map<string, bool>)
    requires cfg.format == Model
    requires !IsAbsolute(cfg.dataDir) && !Analyzed(registry, cfg.dataDir)
    ensures ScanQueue(cfg, stamp, files, registry[FilePath(cfg, cfg.dataDir) := true]) == [cfg.dataDir]
  {
    assert FilePath(cfg, cfg.dataDir) != cfg.dataDir by {
      assert |FilePath(cfg, cfg.dataDir)| > |cfg.dataDir|;
    }
  }

  // ---------------------------------------------------------------------
  // Properties of the pruning pass

  lemma PrunedPathsStep(cfg: Config, stamp: string -> Stamp, queue: seq<string>, results: seq<int>, i: nat)
    requires i < |queue|
    ensures PrunedPaths(cfg, stamp, queue[i..], results)
         == PrunedPaths(cfg, stamp, queue[i + 1..], results)
            + (if InWindow(cfg, stamp, queue[i]) && Triggered(stamp, queue[i], results) then {FilePath(cfg, queue[i])} else {})
  {
    assert queue[i..] == [queue[i]] + queue[i + 1..];
  }

  lemma MarkAllStep(registry: map<string, bool>, paths: set<string>, p: string)
    ensures MarkAll(registry, paths)[p := true] == MarkAll(registry, paths + {p})
  {
  }

  /** A pruning pass marks exactly the covered in-window paths. */
  lemma {:induction false} PruneMarksIsMarkAll(cfg: Config, stamp: string -> Stamp, queue: seq<string>, results: seq<int>, registry: map<string, bool>)
    ensures PruneMarks(cfg, stamp, queue, results, registry) == MarkAll(registry, PrunedPaths(cfg, stamp, queue, results))
  {
    if queue != [] {
      var rest := PrunedPaths(cfg, stamp, queue[1..], results);
      var marks := PruneMarks(cfg, stamp, queue[1..], results, registry);
      PruneMarksIsMarkAll(cfg, stamp, queue[1..], results, registry);
      assert marks == MarkAll(registry, rest);
      PrunedPathsStep(cfg, stamp, queue, results, 0);
      assert queue[0..] == queue;
      var p := FilePath(cfg, queue[0]);
      if InWindow(cfg, stamp, queue[0]) && Triggered(stamp, queue[0], results) {
        assert PrunedPaths(cfg, stamp, queue, results) == rest + {p};
        assert PruneMarks(cfg, stamp, queue, results, registry) == marks[p := true];
        MarkAllStep(registry, rest, p);
      } else {
        assert PrunedPaths(cfg, stamp, queue, results) == rest;
        assert PruneMarks(cfg, stamp, queue, results, registry) == marks;
      }
    }
  }

  /** One step of the backward pass, at index `i`. */
  lemma PruneStep(cfg: Config, stamp: string -> Stamp, queue: seq<string>, i: nat, results: seq<int>, registry: map<string, bool>)
    requires i < |queue|
    ensures PruneMarks(cfg, stamp, queue[i..], results, registry)
         == (var r := PruneMarks(cfg, stamp, queue[i + 1..], results, registry);
             if InWindow(cfg, stamp, queue[i]) && Triggered(stamp, queue[i], results) then r[FilePath(cfg, queue[i]) := true] else r)
    ensures PruneLog(stamp, queue[i..]) == PruneLog(stamp, queue[i + 1..]) + MismatchLog(stamp, queue[i])
  {
    assert queue[i..][1..] == queue[i + 1..];
  }

  /** The backward pass has handled `q0[from..]`. */
  ghost predicate PrunedFrom(cfg: Config, stamp: string -> Stamp, q0: seq<string>, r0: map<string, bool>, l0: seq<Message>,
                             results: seq<int>, from: nat, queue: seq<string>, registry: map<string, bool>, log: seq<Message>)
    requires from <= |q0|
  {
    queue == q0[..from] + Filter(q0[from..], Survives(cfg, stamp, results, r0)) &&
    registry == PruneMarks(cfg, stamp, q0[from..], results, r0) &&
    log == l0 + PruneLog(stamp, q0[from..])
  }

  /** Before the entry at `i` is handled: it is unique in the queue, and its path is analysed only if it was at the start. */
  lemma PruneBefore(cfg: Config, stamp: string -> Stamp, q0: seq<string>, i: nat, results: seq<int>, r0: map<string, bool>, l0: seq<Message>,
                    queue: seq<string>, registry: map<string, bool>, log: seq<Message>)
    requires StrictlySorted(q0) && i < |q0| && forall f :: f in q0 ==> !IsAbsolute(f)
    requires PrunedFrom(cfg, stamp, q0, r0, l0, results, i + 1, queue, registry, log)
    ensures i < |queue| && queue[i] == q0[i]
    ensures forall k :: 0 <= k < |queue| && k != i ==> queue[k] != queue[i]
    ensures Analyzed(registry, FilePath(cfg, q0[i])) == Analyzed(r0, FilePath(cfg, q0[i]))
  {
    EntryUnique(q0, i, Survives(cfg, stamp, results, r0), queue);
    PruneMarksIsMarkAll(cfg, stamp, q0[i + 1..], results, r0);
    PathNotLater(cfg, stamp, q0, results, i);
  }

  /**
   * What handling entry `i` of the backward pass does: a warning on a format
   * mismatch; when its time is in the window and the results trigger it, its
   * path is marked analysed and it leaves the queue unless it was analysed before.
   */
  ghost predicate PruneEffect(cfg: Config, stamp: string -> Stamp, results: seq<int>, i: nat,
                              q1: seq<string>, r1: map<string, bool>, l1: seq<Message>,
                              queue: seq<string>, registry: map<string, bool>, log: seq<Message>)
    requires i < |q1|
  {
    var file := q1[i];
    log == l1 + MismatchLog(stamp, file) &&
    if InWindow(cfg, stamp, file) && Triggered(stamp, file, results) then
      queue == (if Analyzed(r1, FilePath(cfg, file)) then q1 else RemoveAt(q1, i)) &&
      registry == r1[FilePath(cfg, file) := true]
    else queue == q1 && registry == r1
  }

  /** After the entry at `i` is handled, the pass has covered `q0[i..]`. */
  lemma PruneAfter(cfg: Config, stamp: string -> Stamp, q0: seq<string>, i: nat, results: seq<int>, r0: map<string, bool>, l0: seq<Message>,
                   q1: seq<string>, r1: map<string, bool>, l1: seq<Message>, queue: seq<string>, registry: map<string, bool>, log: seq<Message>)
    requires i < |q0|
    requires PrunedFrom(cfg, stamp, q0, r0, l0, results, i + 1, q1, r1, l1)
    requires Analyzed(r1, FilePath(cfg, q0[i])) == Analyzed(r0, FilePath(cfg, q0[i]))
    requires i < |q1| && q1[i] == q0[i] && PruneEffect(cfg, stamp, results, i, q1, r1, l1, queue, registry, log)
    ensures PrunedFrom(cfg, stamp, q0, r0, l0, results, i, queue, registry, log)
  {
    BackwardFilterStep(q0, i, Survives(cfg, stamp, results, r0), q1);
    PruneStep(cfg, stamp, q0, i, results, r0);
  }

  /** The entry at `i` occurs nowhere else in a queue that keeps a sorted prefix and a filtered suffix. */
  lemma EntryUnique(q0: seq<string>, i: nat, p: string -> bool, queue: seq<string>)
    requires StrictlySorted(q0) && i < |q0|
    requires queue == q0[..i + 1] + Filter(q0[i + 1..], p)
    ensures forall k :: 0 <= k < |queue| && k != i ==> queue[k] != q0[i]
  {
    forall k | 0 <= k < |queue| && k != i ensures queue[k] != q0[i] {
      if k < i {
        StrictlySortedDistinct(q0, k, i);
      } else {
        var x := queue[k];
        assert x == Filter(q0[i + 1..], p)[k - i - 1];
        assert x in q0[i + 1..];
        var j :| i + 1 <= j < |q0| && q0[j] == x;
        StrictlySortedDistinct(q0, i, j);
      }
    }
  }

  /** In a sorted queue of relative names, no later entry shares an entry's path. */
  lemma PathNotLater(cfg: Config, stamp: string -> Stamp, queue: seq<string>, results: seq<int>, i: nat)
    requires StrictlySorted(queue) && i < |queue|
    requires forall f :: f in queue ==> !IsAbsolute(f)
    ensures FilePath(cfg, queue[i]) !in PrunedPaths(cfg, stamp, queue[i + 1..], results)
  {
    if FilePath(cfg, queue[i]) in PrunedPaths(cfg, stamp, queue[i + 1..], results) {
      var f :| f in queue[i + 1..] && InWindow(cfg, stamp, f) && Triggered(stamp, f, results) && FilePath(cfg, f) == FilePath(cfg, queue[i]);
      var j :| i + 1 <= j < |queue| && queue[j] == f;
      FilePathInjective(cfg, f, queue[i]);
      StrictlySortedDistinct(queue, i, j);
    }
  }

  /**
   * After pruning, a queued file is gone exactly when a result covers it and
   * it was not analysed, and the path of every covered file is analysed.
   */
  lemma PruneOutcome(cfg: Config, stamp: string -> Stamp, queue: seq<string>, results: seq<int>, registry: map<string, bool>, f: string)
    requires f in queue
    ensures f in Filter(queue, Survives(cfg, stamp, results, registry)) <==> !Pruned(cfg, stamp, f, results, registry)
    ensures InWindow(cfg, stamp, f) && Triggered(stamp, f, results) ==>
      Analyzed(MarkAll(registry, PrunedPaths(cfg, stamp, queue, results)), FilePath(cfg, f))
  {
    if InWindow(cfg, stamp, f) && Triggered(stamp, f, results) {
      assert FilePath(cfg, f) in PrunedPaths(cfg, stamp, queue, results);
    }
  }

  /** No result, or a file outside the window, leaves the entry where it was. */
  lemma PruneNeedsResults(cfg: Config, stamp: string -> Stamp, queue: seq<string>, registry: map<string, bool>)
    ensures Filter(queue, Survives(cfg, stamp, [], registry)) == queue
  {
    FilterAll(queue, Survives(cfg, stamp, [], registry));
  }

  lemma {:induction false} FilterAll<T>(s: seq<T>, p: T -> bool)
    requires forall x :: x in s ==> p(x)
    ensures Filter(s, p) == s
  {
    if s != [] {
      FilterAll(s[1..], p);
      assert s == [s[0]] + s[1..];
    }
  }

  /** Pruning only marks paths, so the processed count cannot fall. */
  lemma PruneRaisesNumProcessed(registry: map<string, bool>, paths: set<string>)
    ensures NumProcessed(registry) <= NumProcessed(MarkAll(registry, paths))
  {
    NumProcessedMonotone(registry, MarkAll(registry, paths));
  }

  /** Dequeuing a file adds one to the processed count unless its path was already analysed. */
  lemma MarkNumProcessed(registry: map<string, bool>, p: string)
    ensures NumProcessed(registry[p := true]) == NumProcessed(registry) + (if Analyzed(registry, p) then 0 else 1)
  {
    var before, after := TrueKeys(registry), TrueKeys(registry[p := true]);
    if Analyzed(registry, p) {
      assert after == before;
    } else {
      assert after == before + {p};
      assert p !in before;
    }
  }

  class Factory {
    const cfg: Config
    /** The file-name parser of the configured format. */
    const stamp: string -> Stamp
    var queue: seq<string>
    var registry: map<string, bool>
    var log: seq<Message>

    /** The queue is name-sorted (so its entries are distinct); listed names are relative. */
    ghost predicate Valid()
      reads this
    {
      StrictlySorted(queue) &&
      (cfg.format == NcdcLevelII || cfg.format == LdmLevelII ==> forall f :: f in queue ==> !IsAbsolute(f))
    }

    constructor (radarName: string, dataDir: string, formatName: string, startTime: int, endTime: int)
      ensures Valid()
      ensures cfg == Config(radarName, dataDir, ParseFormat(formatName), startTime, endTime)
      ensures forall f :: stamp(f) == FileStamp(cfg, f)
      ensures queue == [] && registry == map[]
      ensures log == if cfg.format == Unconfigured then [FormatNotSupported] else []
    {
      var c := Config(radarName, dataDir, ParseFormat(formatName), startTime, endTime);
      cfg := c;
      stamp := f => FileStamp(c, f);
      queue := [];
      registry := map[];
      log := if c.format == Unconfigured then [FormatNotSupported] else [];
    }

    /** getNumProcessed. */
    function GetNumProcessed(): nat
      reads this
    {
      NumProcessed(registry)
    }

    /**
     * hasUnprocessedData: a pending queue answers at once; otherwise the
     * listing `files` (relative names, sorted by name) is scanned and the
     * in-window files not yet analysed are enqueued in listing order.
     */
    method HasUnprocessedData(files: seq<string>) returns (b: bool)
      requires Valid()
      requires StrictlySorted(files) && forall f :: f in files ==> !IsAbsolute(f)
      modifies this
      ensures Valid()
      ensures b <==> queue != []
      ensures old(queue) != [] ==> queue == old(queue) && registry == old(registry) && log == old(log)
      ensures old(queue) == [] ==>
        queue == ScanQueue(cfg, stamp, files, old(registry)) &&
        registry == ScanRegistry(cfg, stamp, files, old(registry)) &&
        log == old(log) + ScanMessages(cfg, stamp, files)
    {
      if queue != [] {
        return true;
      }
      match cfg.format {
        case NcdcLevelII =>
          var names := Filter(files, NameFilter(cfg.radarName));
          var kept := DropExtensions(names);
          FilterSorted(files, NameFilter(cfg.radarName));
          FilterSorted(names, KeepName());
          EnqueueInWindow(kept);
        case LdmLevelII =>
          var names := Filter(files, NameFilter(cfg.radarName));
          FilterSorted(files, NameFilter(cfg.radarName));
          EnqueueInWindow(names);
        case Model =>
          var fileName := cfg.dataDir;
          if !Analyzed(registry, fileName) {
            queue := queue + [fileName];
          }
          registry := Touch(registry, fileName);
        case _ =>
      }
      b := queue != [];
    }

    /** The backward pass over the listing that removes names with an extension. */
    static method DropExtensions(names: seq<string>) returns (kept: seq<string>)
      ensures kept == Filter(names, KeepName())
    {
      kept := names;
      // The source starts one past the end, where the lookup yields an empty name that is kept.
      var i := |names| - 1;
      while i >= 0
        invariant -1 <= i < |names|
        invariant kept == names[..i + 1] + Filter(names[i + 1..], KeepName())
      {
        BackwardFilterStep(names, i, KeepName(), kept);
        ghost var next := if KeepName()(names[i]) then kept else RemoveAt(kept, i);
        var currentFile := kept[i];
        var drop := false;
        if '.' in currentFile {
          if '/' in currentFile {
            var slashIndex := IndexOf(currentFile, '/');
            currentFile := currentFile[slashIndex + 1..];
            drop := '.' in currentFile;
          } else {
            drop := true;
          }
        }
        assert drop == !KeepName()(names[i]);
        if drop {
          kept := RemoveAt(kept, i);
        }
        assert kept == next;
        i := i - 1;
      }
      assert names[0..] == names;
    }

    /** The forward pass that enqueues in-window files not yet analysed. */
    method EnqueueInWindow(cands: seq<string>)
      requires queue == [] && StrictlySorted(cands)
      requires forall f :: f in cands ==> !IsAbsolute(f)
      modifies this
      ensures Valid()
      ensures queue == Filter(cands, EnqueueTest(cfg, stamp, old(registry)))
      ensures registry == ScanTouch(cfg, stamp, cands, old(registry))
      ensures log == old(log) + ScanLog(stamp, cands)
    {
      ghost var r0 := registry;
      ghost var l0 := log;
      var k := 0;
      assert cands[..0] == [];
      while k < |cands|
        invariant 0 <= k <= |cands|
        invariant queue == Filter(cands[..k], EnqueueTest(cfg, stamp, r0))
        invariant registry == ScanTouch(cfg, stamp, cands[..k], r0)
        invariant log == l0 + ScanLog(stamp, cands[..k])
      {
        var file := cands[k];
        EnqueueStep(cfg, stamp, cands, k, r0);
        EnqueueOne(file);
        k := k + 1;
      }
      assert cands[..k] == cands;
      FilterSorted(cands, EnqueueTest(cfg, stamp, r0));
    }

    /** One name of the forward pass: warn, test the window and the registry, enqueue. */
    method EnqueueOne(file: string)
      modifies this
      ensures log == old(log) + MismatchLog(stamp, file)
      ensures queue == old(queue) + (if EnqueueTest(cfg, stamp, old(registry))(file) then [file] else [])
      ensures registry == if InWindow(cfg, stamp, file) then Touch(old(registry), FilePath(cfg, file)) else old(registry)
    {
      var fileStamp := stamp(file);
      if fileStamp.mismatch {
        log := log + [FormatMismatch];
      }
      if fileStamp.time.Some? && cfg.startTime <= fileStamp.time.value <= cfg.endTime {
        var path := FilePath(cfg, file);
        if !Analyzed(registry, path) {
          queue := queue + [file];
        }
        registry := Touch(registry, path);
      }
    }

    /**
     * getUnprocessedData: dequeues the next file, marks its path analysed and
     * hands it to the decoder of the configured format.
     */
    method GetUnprocessedData() returns (d: Option<Volume>)
      requires Valid()
      modifies this
      ensures Valid()
      ensures old(queue) == [] ==>
        d == None && queue == [] && registry == old(registry) && log == old(log) + [NoNewData]
      ensures old(queue) != [] ==>
        queue == old(queue)[1..] &&
        registry == old(registry)[FilePath(cfg, old(queue)[0]) := true] &&
        d == VolumeFor(cfg.format, FilePath(cfg, old(queue)[0])) &&
        log == old(log) + (if d.None? then [FactoryProblem] else [])
    {
      if queue == [] {
        log := log + [NoNewData];
        return None;
      }
      var fileName := FilePath(cfg, queue[0]);
      queue := queue[1..];
      registry := registry[fileName := true];
      match cfg.format {
        case NcdcLevelII => d := Some(NcdcVolume(fileName));
        case LdmLevelII => d := Some(LdmVolume(fileName));
        case Model => d := Some(AnalyticVolume(fileName));
        case _ =>
          log := log + [FactoryProblem];
          d := None;
      }
    }

    /**
     * updateDataQueue: given the times of the results produced so far (in
     * list order), walks the queue from back to front and drops every
     * in-window file that a result covers, marking its path analysed. Only
     * the two Level II formats read times; for the others nothing changes.
     */
    method UpdateDataQueue(results: seq<int>)
      requires Valid()
      modifies this
      ensures Valid()
      ensures results == [] || !(cfg.format == NcdcLevelII || cfg.format == LdmLevelII) ==>
        queue == old(queue) && registry == old(registry) && log == old(log)
      ensures results != [] && (cfg.format == NcdcLevelII || cfg.format == LdmLevelII) ==>
        queue == Filter(old(queue), Survives(cfg, stamp, results, old(registry))) &&
        registry == MarkAll(old(registry), PrunedPaths(cfg, stamp, old(queue), results)) &&
        log == old(log) + PruneLog(stamp, old(queue))
    {
      if results == [] || !(cfg.format == NcdcLevelII || cfg.format == LdmLevelII) {
        return;
      }
      ghost var q0, r0 := queue, registry;
      PruneBackward(results);
      FilterSorted(q0, Survives(cfg, stamp, results, r0));
      PruneMarksIsMarkAll(cfg, stamp, q0, results, r0);
    }

    /** The backward pass itself, with the registry given by the pass's own recursion. */
    method PruneBackward(results: seq<int>)
      requires results != [] && StrictlySorted(queue) && forall f :: f in queue ==> !IsAbsolute(f)
      modifies this
      ensures queue == Filter(old(queue), Survives(cfg, stamp, results, old(registry)))
      ensures registry == PruneMarks(cfg, stamp, old(queue), results, old(registry))
      ensures log == old(log) + PruneLog(stamp, old(queue))
    {
      ghost var q0 := queue;
      ghost var r0 := registry;
      ghost var l0 := log;
      var i := |queue| - 1;
      while i >= 0
        invariant -1 <= i < |q0|
        invariant PrunedFrom(cfg, stamp, q0, r0, l0, results, i + 1, queue, registry, log)
      {
        PruneBefore(cfg, stamp, q0, i, results, r0, l0, queue, registry, log);
        ghost var q1, r1, l1 := queue, registry, log;
        PruneOne(i, results);
        PruneAfter(cfg, stamp, q0, i, results, r0, l0, q1, r1, l1, queue, registry, log);
        i := i - 1;
      }
      assert q0[0..] == q0;
    }

    /** One entry of the backward pass: warn, and test the window and the results. */
    method PruneOne(i: nat, results: seq<int>)
      requires results != [] && i < |queue|
      requires forall k :: 0 <= k < |queue| && k != i ==> queue[k] != queue[i]
      modifies this
      ensures PruneEffect(cfg, stamp, results, i, old(queue), old(registry), old(log), queue, registry, log)
    {
      var file := queue[i];
      var fileStamp := stamp(file);
      if fileStamp.mismatch {
        log := log + [FormatMismatch];
      }
      if fileStamp.time.Some? && cfg.startTime <= fileStamp.time.value <= cfg.endTime {
        PruneEntry(file, i, results);
      }
    }

    /** The inner loop over the results for the in-window entry at `i`. */
    method PruneEntry(file: string, i: nat, results: seq<int>)
      requires InWindow(cfg, stamp, file) && results != []
      requires i < |queue| && queue[i] == file
      requires forall k :: 0 <= k < |queue| && k != i ==> queue[k] != file
      modifies this
      ensures log == old(log)
      ensures var path := FilePath(cfg, file);
        if Triggered(stamp, file, results) then
          queue == (if Analyzed(old(registry), path) then old(queue) else RemoveAt(old(queue), i)) &&
          registry == old(registry)[path := true]
        else queue == old(queue) && registry == old(registry)
    {
      var t := stamp(file).time.value;
      var path := FilePath(cfg, file);
      ghost var fired := false;
      var j := 0;
      while j < |results|
        invariant 0 <= j <= |results|
        invariant log == old(log)
        invariant fired <==> exists jj :: 0 <= jj < j && (-30 < results[jj] - t < 30 || results[|results| - 1] > t)
        invariant !fired ==> queue == old(queue) && registry == old(registry)
        invariant fired ==> (registry == old(registry)[path := true] &&
          queue == (if Analyzed(old(registry), path) then old(queue) else RemoveAt(old(queue), i)))
      {
        var processedTime := results[j];
        if -30 < processedTime - t < 30 || results[|results| - 1] > t {
          if !Analyzed(registry, path) {
            var at := IndexOfElement(queue, file);
            assert at == i;
            queue := RemoveAt(queue, at);
            registry := registry[path := true];
          } else {
            registry := Touch(registry, path);
          }
          fired := true;
        }
        j := j + 1;
      }
    }
  }
}
