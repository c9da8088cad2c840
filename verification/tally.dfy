/** The driver of the workspace indexer, `index_parallel`: every discovered file is
    processed against the cache as it stood at the start, then the per-file outcomes
    are tallied and the cache is updated for successfully indexed files only. The
    thread pool is modelled as a sequential pass in completion order. */
module Tally {
  import opened Wrappers
  import opened Processing
  import FileFilter

  /** What a worker future delivers: its result triple, or an exception. */
  datatype TaskResult = Finished(result: FileResult) | Raised

  /** The `k`-th result is an `indexed` result for `path`. */
  predicate IndexedAt(rs: seq<TaskResult>, k: int, path: string) {
    0 <= k < |rs| && rs[k].Finished? && rs[k].result.status == Indexed && rs[k].result.path == path
  }

  /** Paths with at least one `indexed` result. */
  function IndexedPaths(rs: seq<TaskResult>): set<string> {
    set k | 0 <= k < |rs| && rs[k].Finished? && rs[k].result.status == Indexed :: rs[k].result.path
  }

  /** The three counters of `index_parallel`. */
  datatype Counter = IndexedCount | SkippedCount | ErrorCount

  /** The counter a result is charged to: `indexed` and `skipped` to their own, every other
      status and every raised exception to the error counter. */
  function CounterOf(r: TaskResult): Counter {
    if r.Raised? then ErrorCount
    else match r.result.status
      case Indexed => IndexedCount
      case Skipped => SkippedCount
      case _ => ErrorCount
  }

  /** Number of results charged to counter `c`, counted from the front. */
  function Count(rs: seq<TaskResult>, c: Counter): nat
    decreases |rs|
  {
    if |rs| == 0 then 0 else Count(rs[..|rs| - 1], c) + (if CounterOf(rs[|rs| - 1]) == c then 1 else 0)
  }

  lemma {:induction false} CountAppend(u: seq<TaskResult>, v: seq<TaskResult>, c: Counter)
    ensures Count(u + v, c) == Count(u, c) + Count(v, c)
    decreases |v|
  {
    if |v| == 0 {
      assert u + v == u;
    } else {
      assert (u + v)[..|u + v| - 1] == u + v[..|v| - 1];
      CountAppend(u, v[..|v| - 1], c);
    }
  }

  lemma IndexOf(b: seq<TaskResult>, x: TaskResult) returns (j: nat)
    requires x in multiset(b)
    ensures j < |b| && b[j] == x
  {
    assert x in b;
    j :| 0 <= j < |b| && b[j] == x;
  }

  lemma MultisetRemove(b: seq<TaskResult>, j: nat)
    requires j < |b|
    ensures multiset(b[..j] + b[j + 1..]) == multiset(b) - multiset{b[j]}
  {
    assert b == b[..j] + [b[j]] + b[j + 1..];
  }

  /** Removing the `j`-th result takes it off its counter. */
  lemma CountRemove(b: seq<TaskResult>, j: nat, c: Counter)
    requires j < |b|
    ensures Count(b, c) == Count(b[..j] + b[j + 1..], c) + (if CounterOf(b[j]) == c then 1 else 0)
  {
    assert b == (b[..j] + [b[j]]) + b[j + 1..];
    CountAppend(b[..j] + [b[j]], b[j + 1..], c);
    CountAppend(b[..j], [b[j]], c);
    CountAppend(b[..j], b[j + 1..], c);
    assert [b[j]][..0] == [];
  }

  /** The counters do not depend on the order in which results complete. */
  lemma {:induction false} CountPermutation(a: seq<TaskResult>, b: seq<TaskResult>, c: Counter)
    requires multiset(a) == multiset(b)
    ensures Count(a, c) == Count(b, c)
    decreases |a|
  {
    if |a| == 0 {
      assert |b| == |multiset(b)| == 0;
    } else {
      var n := |a| - 1;
      var j := IndexOf(b, a[n]);
      MultisetRemove(a, n);
      MultisetRemove(b, j);
      assert a[..n] + a[n + 1..] == a[..n];
      CountPermutation(a[..n], b[..j] + b[j + 1..], c);
      CountRemove(b, j, c);
    }
  }

  /** The cache after applying one result: an `indexed` result stores its hash under its path. */
  function Apply(cache: map<string, string>, r: TaskResult): map<string, string> {
    if r.Finished? && r.result.status == Indexed then cache[r.result.path := r.result.hash] else cache
  }

  /** The cache after applying results in order. */
  function CacheAfter(cache: map<string, string>, rs: seq<TaskResult>): map<string, string>
    decreases |rs|
  {
    if |rs| == 0 then cache else Apply(CacheAfter(cache, rs[..|rs| - 1]), rs[|rs| - 1])
  }

  /** The tally loop of `index_parallel`: the three counters partition the results, each
      counts the results charged to it, and the cache changes only through `indexed` results. */
  method TallyResults(results: seq<TaskResult>, cache: map<string, string>)
    returns (indexed: nat, skipped: nat, errors: nat, newCache: map<string, string>)
    ensures indexed + skipped + errors == |results|
    ensures indexed == Count(results, IndexedCount)
    ensures skipped == Count(results, SkippedCount)
    ensures errors == Count(results, ErrorCount)
    ensures newCache == CacheAfter(cache, results)
  {
    indexed, skipped, errors := 0, 0, 0;
    newCache := cache;
    var i := 0;
    while i < |results|
      invariant 0 <= i <= |results|
      invariant indexed + skipped + errors == i
      invariant indexed == Count(results[..i], IndexedCount)
      invariant skipped == Count(results[..i], SkippedCount)
      invariant errors == Count(results[..i], ErrorCount)
      invariant newCache == CacheAfter(cache, results[..i])
    {
      assert results[..i + 1][..i] == results[..i];
      match results[i] {
        case Finished(FileResult(fp, status, fileHash)) =>
          if status == Indexed {
            indexed := indexed + 1;
            newCache := newCache[fp := fileHash];
          } else if status == Skipped {
            skipped := skipped + 1;
          } else {
            errors := errors + 1;
          }
        case Raised =>
          errors := errors + 1;
      }
      i := i + 1;
    }
    assert results[..i] == results;
  }

  /** The indexed paths of a sequence are those of its front plus, possibly, its last result's path. */
  lemma IndexedPathsSnoc(rs: seq<TaskResult>)
    requires |rs| > 0
    ensures var last := rs[|rs| - 1];
            IndexedPaths(rs) == IndexedPaths(rs[..|rs| - 1]) +
              (if last.Finished? && last.result.status == Indexed then {last.result.path} else {})
  {
    var front := rs[..|rs| - 1];
    assert forall k | 0 <= k < |front| :: front[k] == rs[k];
  }

  /** The cache after tallying holds the old keys plus the indexed paths, and a path
      without an `indexed` result keeps its old value. */
  lemma {:induction false} CacheKeysAndUntouched(cache: map<string, string>, rs: seq<TaskResult>)
    ensures CacheAfter(cache, rs).Keys == cache.Keys + IndexedPaths(rs)
    ensures forall p | p in cache && p !in IndexedPaths(rs) :: CacheAfter(cache, rs)[p] == cache[p]
    decreases |rs|
  {
    if |rs| > 0 {
      CacheKeysAndUntouched(cache, rs[..|rs| - 1]);
      IndexedPathsSnoc(rs);
    }
  }

  /** An indexed path holds the hash of its last `indexed` result. */
  lemma {:induction false} CacheHoldsLastIndexedHash(cache: map<string, string>, rs: seq<TaskResult>, p: string)
    requires p in IndexedPaths(rs)
    ensures p in CacheAfter(cache, rs)
    ensures exists k :: IndexedAt(rs, k, p) && CacheAfter(cache, rs)[p] == rs[k].result.hash
                        && forall k' | k < k' :: !IndexedAt(rs, k', p)
    decreases |rs|
  {
    CacheKeysAndUntouched(cache, rs);
    var n := |rs| - 1;
    var front := rs[..n];
    IndexedPathsSnoc(rs);
    if IndexedAt(rs, n, p) {
      assert CacheAfter(cache, rs)[p] == rs[n].result.hash;
      assert forall k' | n < k' :: !IndexedAt(rs, k', p);
    } else {
      CacheHoldsLastIndexedHash(cache, front, p);
      var k :| IndexedAt(front, k, p) && CacheAfter(cache, front)[p] == front[k].result.hash
               && forall k' | k < k' :: !IndexedAt(front, k', p);
      assert IndexedAt(rs, k, p);
      forall k' | k < k' ensures !IndexedAt(rs, k', p) {
        if k' < n { assert !IndexedAt(front, k', p); }
      }
    }
  }

  /** The file system as seen by the indexer: `os.stat` and `read_file` per path. */
  datatype Workspace = Workspace(stat: string -> Option<Stat>, read: string -> Option<string>)

  /** The pool's work: `_process_file` for every file, each against the starting cache. */
  function ProcessAll(files: seq<string>, cache: map<string, string>, ws: Workspace,
                      upsert: ChunkRecord -> bool): (rs: seq<TaskResult>)
    ensures |rs| == |files|
    ensures forall i | 0 <= i < |files| :: rs[i].Finished? && rs[i].result.path == files[i]
  {
    seq(|files|, i requires 0 <= i < |files| => RunOne(files[i], cache, ws, upsert))
  }

  /** One worker: `_process_file` on `path` with the workspace's stat and read results. */
  function RunOne(path: string, cache: map<string, string>, ws: Workspace, upsert: ChunkRecord -> bool): (r: TaskResult)
    ensures r.Finished? && r.result.path == path
  {
    Finished(ProcessFile(path, cache, ws.stat(path), ws.read(path), upsert).result)
  }

  /** The pool-and-tally half of `index_parallel`: process each discovered file against the
      starting cache and tally the results in the order `as_completed` yields them, which is
      any rearrangement of the per-file results. Returns the three counters and the cache to
      be saved. The counters are those of the per-file results whatever the completion
      order; the cache changes only for listed files, each of which then holds its current
      hash, and every file indexed now is a cache hit on the saved cache (so a second run
      skips it, `SecondRunSkips`). */
  method IndexFiles(files: seq<string>, ws: Workspace, cache: map<string, string>,
                    upsert: ChunkRecord -> bool, completed: seq<TaskResult>)
    returns (indexed: nat, skipped: nat, errors: nat, newCache: map<string, string>)
    requires multiset(completed) == multiset(ProcessAll(files, cache, ws, upsert))
    ensures indexed + skipped + errors == |files|
    ensures indexed == Count(ProcessAll(files, cache, ws, upsert), IndexedCount)
    ensures skipped == Count(ProcessAll(files, cache, ws, upsert), SkippedCount)
    ensures newCache.Keys >= cache.Keys
    ensures forall p | p in cache && p !in files :: newCache[p] == cache[p]
    ensures forall p | p in newCache && (p !in cache || newCache[p] != cache[p]) ::
              p in files && newCache[p] == FileHash(ws.stat(p))
    ensures forall i | 0 <= i < |files| && RunOne(files[i], cache, ws, upsert).result.status == Indexed ::
              CacheHit(files[i], newCache, FileHash(ws.stat(files[i])))
    ensures forall i | 0 <= i < |files| && RunOne(files[i], cache, ws, upsert).result.status != Indexed ::
              (files[i] in newCache <==> files[i] in cache) && (files[i] in cache ==> newCache[files[i]] == cache[files[i]])
  {
    indexed, skipped, errors, newCache := TallyResults(completed, cache);
    TallyMatchesFiles(files, cache, ws, upsert, completed);
  }

  /** The tally of any rearrangement of the per-file results: as many results as files, the
      same counters as the results in file order, and a cache that differs from the old one
      only at listed files, each then holding its current hash, with every file reported
      indexed among them. */
  lemma TallyMatchesFiles(files: seq<string>, cache: map<string, string>, ws: Workspace,
                          upsert: ChunkRecord -> bool, completed: seq<TaskResult>)
    requires multiset(completed) == multiset(ProcessAll(files, cache, ws, upsert))
    ensures |completed| == |files|
    ensures Count(completed, IndexedCount) == Count(ProcessAll(files, cache, ws, upsert), IndexedCount)
    ensures Count(completed, SkippedCount) == Count(ProcessAll(files, cache, ws, upsert), SkippedCount)
    ensures CacheAfter(cache, completed).Keys >= cache.Keys
    ensures forall p | p in cache && p !in files :: CacheAfter(cache, completed)[p] == cache[p]
    ensures forall p | p in CacheAfter(cache, completed) && (p !in cache || CacheAfter(cache, completed)[p] != cache[p]) ::
              p in files && CacheAfter(cache, completed)[p] == FileHash(ws.stat(p))
    ensures forall i | 0 <= i < |files| && RunOne(files[i], cache, ws, upsert).result.status == Indexed ::
              CacheHit(files[i], CacheAfter(cache, completed), FileHash(ws.stat(files[i])))
    ensures forall i | 0 <= i < |files| && RunOne(files[i], cache, ws, upsert).result.status != Indexed ::
              && (files[i] in CacheAfter(cache, completed) <==> files[i] in cache)
              && (files[i] in cache ==> CacheAfter(cache, completed)[files[i]] == cache[files[i]])
  {
    var all := ProcessAll(files, cache, ws, upsert);
    assert |completed| == |multiset(completed)| == |all|;
    NotIndexedNotApplied(files, cache, ws, upsert, completed);
    CountPermutation(completed, all, IndexedCount);
    CountPermutation(completed, all, SkippedCount);
    CacheKeysAndUntouched(cache, completed);
    IndexedHashesCurrent(files, cache, ws, upsert, completed);
    IndexedFilesCached(files, cache, ws, upsert, completed);
  }

  /** A file whose worker did not report it indexed has no `indexed` result among the
      completed ones: every completed result for its path is its own worker's result. */
  lemma NotIndexedNotApplied(files: seq<string>, cache: map<string, string>, ws: Workspace,
                             upsert: ChunkRecord -> bool, completed: seq<TaskResult>)
    requires multiset(completed) == multiset(ProcessAll(files, cache, ws, upsert))
    ensures forall i | 0 <= i < |files| && RunOne(files[i], cache, ws, upsert).result.status != Indexed ::
              files[i] !in IndexedPaths(completed)
  {
    var all := ProcessAll(files, cache, ws, upsert);
    forall k | 0 <= k < |completed| && completed[k].Finished?
      ensures completed[k] == RunOne(completed[k].result.path, cache, ws, upsert)
    {
      assert completed[k] in multiset(all);
      var j :| 0 <= j < |all| && all[j] == completed[k];
    }
  }

  /** Whatever the completion order, the tallied cache holds the current hash of every file
      whose worker reported it indexed. */
  lemma IndexedFilesCached(files: seq<string>, cache: map<string, string>, ws: Workspace,
                           upsert: ChunkRecord -> bool, completed: seq<TaskResult>)
    requires multiset(completed) == multiset(ProcessAll(files, cache, ws, upsert))
    ensures forall i | 0 <= i < |files| && RunOne(files[i], cache, ws, upsert).result.status == Indexed ::
              CacheHit(files[i], CacheAfter(cache, completed), FileHash(ws.stat(files[i])))
  {
    var all := ProcessAll(files, cache, ws, upsert);
    IndexedHashesCurrent(files, cache, ws, upsert, completed);
    forall i | 0 <= i < |files| && RunOne(files[i], cache, ws, upsert).result.status == Indexed
      ensures CacheHit(files[i], CacheAfter(cache, completed), FileHash(ws.stat(files[i])))
    {
      assert all[i] in multiset(completed);
      var k :| 0 <= k < |completed| && completed[k] == all[i];
      assert files[i] in IndexedPaths(completed);
    }
  }

  /** `index_parallel`: discover the workspace's files with `get_files` (returned as
      `files`, whose length the source reports as the total), then process and tally them
      as `IndexFiles` does. Every discovered file is charged to exactly one counter, the
      counters are those of the per-file results, the saved cache differs from the old one
      only at discovered files that were indexed, each then a cache hit for its current
      stat, and every other file keeps its old entry (or stays absent). */
  method IndexParallel(root: string, tree: FileFilter.Directory, ws: Workspace, cache: map<string, string>,
                       upsert: ChunkRecord -> bool, completed: seq<TaskResult>)
    returns (files: seq<string>, indexed: nat, skipped: nat, errors: nat, newCache: map<string, string>)
    requires multiset(completed) == multiset(ProcessAll(FileFilter.GetFiles(root, tree), cache, ws, upsert))
    ensures files == FileFilter.GetFiles(root, tree)
    ensures indexed + skipped + errors == |files|
    ensures indexed == Count(ProcessAll(files, cache, ws, upsert), IndexedCount)
    ensures skipped == Count(ProcessAll(files, cache, ws, upsert), SkippedCount)
    ensures newCache.Keys >= cache.Keys
    ensures forall p | p in cache && p !in files :: newCache[p] == cache[p]
    ensures forall p | p in newCache && (p !in cache || newCache[p] != cache[p]) ::
              p in files && newCache[p] == FileHash(ws.stat(p))
    ensures forall i | 0 <= i < |files| && RunOne(files[i], cache, ws, upsert).result.status == Indexed ::
              CacheHit(files[i], newCache, FileHash(ws.stat(files[i])))
    ensures forall i | 0 <= i < |files| && RunOne(files[i], cache, ws, upsert).result.status != Indexed ::
              (files[i] in newCache <==> files[i] in cache) && (files[i] in cache ==> newCache[files[i]] == cache[files[i]])
  {
    files := FileFilter.GetFiles(root, tree);
    indexed, skipped, errors, newCache := IndexFiles(files, ws, cache, upsert, completed);
  }

  /** Re-running the indexer with the cache a run saved skips every file that run indexed,
      provided the file's stat is unchanged. */
  lemma SecondRunSkips(files: seq<string>, cache: map<string, string>, newCache: map<string, string>,
                       ws: Workspace, upsert: ChunkRecord -> bool)
    requires forall i | 0 <= i < |files| && RunOne(files[i], cache, ws, upsert).result.status == Indexed ::
               CacheHit(files[i], newCache, FileHash(ws.stat(files[i])))
    ensures forall p | p in files && ProcessFile(p, cache, ws.stat(p), ws.read(p), upsert).result.status == Indexed ::
              ProcessFile(p, newCache, ws.stat(p), ws.read(p), upsert).result.status == Skipped
  {
    forall p | p in files && ProcessFile(p, cache, ws.stat(p), ws.read(p), upsert).result.status == Indexed
      ensures ProcessFile(p, newCache, ws.stat(p), ws.read(p), upsert).result.status == Skipped
    {
      var i :| 0 <= i < |files| && files[i] == p;
      assert RunOne(files[i], cache, ws, upsert).result.status == Indexed;
    }
  }

  /** Every result the pool completes is some listed file's result, and an `indexed` one
      carries that file's current hash; so the tallied cache maps each indexed path to it. */
  lemma IndexedHashesCurrent(files: seq<string>, cache: map<string, string>, ws: Workspace,
                             upsert: ChunkRecord -> bool, completed: seq<TaskResult>)
    requires multiset(completed) == multiset(ProcessAll(files, cache, ws, upsert))
    ensures forall p | p in IndexedPaths(completed) ::
              p in files && p in CacheAfter(cache, completed) && CacheAfter(cache, completed)[p] == FileHash(ws.stat(p))
  {
    forall p | p in IndexedPaths(completed)
      ensures p in files && p in CacheAfter(cache, completed) && CacheAfter(cache, completed)[p] == FileHash(ws.stat(p))
    {
      CacheHoldsLastIndexedHash(cache, completed, p);
      var k :| IndexedAt(completed, k, p) && CacheAfter(cache, completed)[p] == completed[k].result.hash
               && forall k' | k < k' :: !IndexedAt(completed, k', p);
      CompletedFromFiles(files, cache, ws, upsert, completed, k);
    }
  }

  /** Each completed result is the result of some listed file, carrying that file's hash. */
  lemma CompletedFromFiles(files: seq<string>, cache: map<string, string>, ws: Workspace,
                           upsert: ChunkRecord -> bool, completed: seq<TaskResult>, k: nat)
    requires multiset(completed) == multiset(ProcessAll(files, cache, ws, upsert))
    requires k < |completed|
    ensures completed[k].Finished? && completed[k].result.path in files
    ensures completed[k].result.hash == FileHash(ws.stat(completed[k].result.path))
  {
    var all := ProcessAll(files, cache, ws, upsert);
    assert completed[k] in multiset(all);
    var i :| 0 <= i < |all| && all[i] == completed[k];
    assert all[i] == RunOne(files[i], cache, ws, upsert);
  }
}
