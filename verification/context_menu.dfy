/**
 * `InvokeCommand` of the context-menu handler: one checksum task per
 * selected file is submitted to a four-thread pool, the futures are read in
 * submission order, a text record is built for each file, and the records
 * are merged into the log file.
 */
module ContextMenu {
  import opened Wrappers
  import opened Checksum
  import opened Records
  import opened LogFile
  import opened Pool

  /** The number of worker threads the command gives its pool. */
  const PoolThreads: nat := 4

  /**
   * The task submitted for one file (the lambda of `InvokeCommand`): throws
   * when the file does not open, otherwise returns the pair with the file's
   * byte-sum as `.first` and the path, unchanged, as `.second`.
   */
  method SumTask(fs: FileSystem, job: Pair) returns (r: Result<Pair>)
    ensures r.Err? <==> job.1 !in fs
    ensures r.Err? ==> r.error == RuntimeError(FileNotOpened)
    ensures r.Ok? ==> r.value.1 == job.1 && r.value.0 == ByteSum(fs[job.1])
  {
    var pairres := job;
    if pairres.1 !in fs {
      return Err(RuntimeError(FileNotOpened));
    }
    var sum := ReadSum(fs[pairres.1]);
    pairres := (sum, pairres.1);
    r := Ok(pairres);
  }

  /** The vector of pairs built before submission: one `(0, path)` per selected file, in order. */
  function Jobs(paths: seq<string>): (jobs: seq<Pair>)
    ensures |jobs| == |paths|
    ensures forall k :: 0 <= k < |paths| ==> jobs[k] == (0, paths[k])
  {
    if paths == [] then [] else Jobs(paths[..|paths| - 1]) + [(0, paths[|paths| - 1])]
  }

  /** The log record of one file of the batch. */
  function RecordText(path: string, fs: FileSystem, info: string -> FileInfo): string
    requires path in fs
  {
    Format(RecordOf(path, info(path), ByteSum(fs[path])))
  }

  /** The records of a batch whose files all open, in selection order. */
  function BatchRecords(paths: seq<string>, fs: FileSystem, info: string -> FileInfo): (rs: seq<string>)
    requires forall p :: p in paths ==> p in fs
    ensures |rs| == |paths|
  {
    if paths == [] then []
    else BatchRecords(paths[..|paths| - 1], fs, info) + [RecordText(paths[|paths| - 1], fs, info)]
  }

  /** Record k of the batch is the record of the k-th selected path: one per file, in selection order. */
  lemma {:induction false} BatchRecordsAt(paths: seq<string>, fs: FileSystem, info: string -> FileInfo, k: nat)
    requires forall p :: p in paths ==> p in fs
    requires k < |paths|
    ensures BatchRecords(paths, fs, info)[k] == RecordText(paths[k], fs, info)
  {
    var init, last := paths[..|paths| - 1], paths[|paths| - 1];
    assert forall p :: p in init ==> p in fs by {
      forall p | p in init
        ensures p in fs
      {
        var j :| 0 <= j < |init| && init[j] == p;
        assert paths[j] in paths;
      }
    }
    assert BatchRecords(paths, fs, info) == BatchRecords(init, fs, info) + [RecordText(last, fs, info)];
    if k < |init| {
      BatchRecordsAt(init, fs, info, k);
      assert paths[k] == init[k];
    }
  }

  lemma BatchRecordsSnoc(paths: seq<string>, n: nat, fs: FileSystem, info: string -> FileInfo)
    requires n < |paths|
    requires forall p :: p in paths[..n] ==> p in fs
    requires paths[n] in fs
    ensures forall p :: p in paths[..n + 1] ==> p in fs
    ensures BatchRecords(paths[..n + 1], fs, info) == BatchRecords(paths[..n], fs, info) + [RecordText(paths[n], fs, info)]
  {
    assert paths[..n + 1] == paths[..n] + [paths[n]];
  }

  /** Taking the front of the queue `vec[n..]` moves `vec[n]` to the taken prefix. */
  lemma QueueStep<T>(vec: seq<T>, n: nat)
    requires n < |vec|
    ensures vec[n..] != [] && vec[n..][0] == vec[n] && vec[n..][1..] == vec[n + 1..]
    ensures vec[..n + 1] == vec[..n] + [vec[n]]
  {
  }

  /** A path the record loop reaches, after every earlier file opened and its own did, has a backslash. */
  lemma ReachedSeparator(fileName: seq<string>, n: nat, fs: FileSystem)
    requires ReachedHaveSeparator(fileName, fs)
    requires n < |fileName|
    requires forall p :: p in fileName[..n] ==> p in fs
    requires fileName[n] in fs
    ensures Separator in fileName[n]
  {
    forall j | 0 <= j < n
      ensures fileName[j] in fs
    {
      assert fileName[j] in fileName[..n];
    }
  }

  /** Inserting the record of the next file extends the multiset of the records so far. */
  lemma CollectStep(fileName: seq<string>, n: nat, fs: FileSystem, info: string -> FileInfo,
                    acc: seq<string>, pair: Pair, line: string)
    requires n < |fileName|
    requires forall p :: p in fileName[..n] ==> p in fs
    requires pair.1 == fileName[n] && pair.1 in fs && pair.0 == ByteSum(fs[pair.1])
    requires acc == InsertAll([], BatchRecords(fileName[..n], fs, info))
    requires line == Format(RecordOf(pair.1, info(pair.1), pair.0))
    ensures forall p :: p in fileName[..n + 1] ==> p in fs
    ensures Insert(acc, line) == InsertAll([], BatchRecords(fileName[..n + 1], fs, info))
  {
    BatchRecordsSnoc(fileName, n, fs, info);
    InsertAllSnoc([], BatchRecords(fileName[..n], fs, info), line);
  }

  /** The multiset of records the batch hands to the log merge. */
  function BatchSet(paths: seq<string>, fs: FileSystem, info: string -> FileInfo): seq<string>
    requires forall p :: p in paths ==> p in fs
  {
    InsertAll([], BatchRecords(paths, fs, info))
  }

  /**
   * Submits one task per pair, in order, to a running pool with an empty
   * queue; the futures are the tickets 0, 1, 2, ...
   */
  method SubmitAll(pool: ThreadPool<Pair>, vec: seq<Pair>) returns (results: seq<nat>)
    requires pool.Valid() && !pool.stop && pool.submitted == [] && pool.taken == []
    modifies pool
    ensures pool.Valid() && !pool.stop && pool.workers == old(pool.workers)
    ensures pool.submitted == vec && pool.taken == [] && pool.tasks == vec
    ensures |results| == |vec| && forall j :: 0 <= j < |vec| ==> results[j] == j
  {
    results := [];
    var i := 0;
    while i < |vec|
      invariant 0 <= i <= |vec|
      invariant pool.Valid() && !pool.stop && pool.workers == old(pool.workers)
      invariant pool.taken == [] && pool.submitted == vec[..i] && pool.tasks == vec[..i]
      invariant |results| == i && forall j :: 0 <= j < i ==> results[j] == j
    {
      var future := pool.Enqueue(vec[i]);
      assert vec[..i + 1] == vec[..i] + [vec[i]];
      results := results + [future.value];
      i := i + 1;
    }
    assert vec[..i] == vec;
  }

  /** The loop that fills `vec` with one `(0, path)` pair per selected file. */
  method MakeJobs(fileName: seq<string>) returns (vec: seq<Pair>)
    ensures vec == Jobs(fileName)
  {
    vec := [];
    var k := 0;
    while k < |fileName|
      invariant 0 <= k <= |fileName|
      invariant vec == Jobs(fileName[..k])
    {
      assert fileName[..k + 1][..k] == fileName[..k];
      vec := vec + [(0, fileName[k])];
      k := k + 1;
    }
    assert fileName[..k] == fileName;
  }

  /**
   * The record of one resolved future: the name part found by the backward
   * scan, then the metadata and the byte-sum in the fixed text format.
   */
  method BuildRecord(p: Pair, fileInfo: FileInfo) returns (line: string)
    requires Separator in p.1
    ensures line == Format(RecordOf(p.1, fileInfo, p.0))
  {
    var name := FileName(p.1);
    var t := fileInfo.creation;
    line := Format(LogRecord(name, fileInfo.fileIndexLow, t.day, t.month, t.year,
                             t.hour, t.minute, t.second, p.0));
  }

  /**
   * Every path whose name the record loop scans has a backslash. The loop
   * scans a path only when its file and every file before it opened: the
   * first file that fails to open makes `get()` rethrow before its scan.
   */
  predicate ReachedHaveSeparator(fileName: seq<string>, fs: FileSystem)
  {
    forall k :: 0 <= k < |fileName| && (forall j :: 0 <= j <= k ==> fileName[j] in fs) ==> Separator in fileName[k]
  }

  /**
   * One pass of the loop over the futures once `get()` returned the pair of
   * the n-th file: its record is built and inserted into `fileName_info`.
   */
  method InsertRecord(fileName: seq<string>, n: nat, fs: FileSystem, info: string -> FileInfo,
                      acc: seq<string>, pair: Pair)
    returns (next: seq<string>)
    requires ReachedHaveSeparator(fileName, fs)
    requires n < |fileName|
    requires forall p :: p in fileName[..n] ==> p in fs
    requires pair.1 == fileName[n] && pair.1 in fs && pair.0 == ByteSum(fs[pair.1])
    requires acc == InsertAll([], BatchRecords(fileName[..n], fs, info))
    ensures forall p :: p in fileName[..n + 1] ==> p in fs
    ensures next == InsertAll([], BatchRecords(fileName[..n + 1], fs, info))
  {
    ReachedSeparator(fileName, n, fs);
    var line := BuildRecord(pair, info(pair.1));
    CollectStep(fileName, n, fs, info, acc, pair, line);
    next := Insert(acc, line);
  }

  /**
   * The loop over the futures, in submission order: each `get()` yields the
   * result of the task a worker takes next, and the first task that threw
   * makes `get()` rethrow, ending the loop. Returns the records inserted so
   * far (or the exception) and the tasks taken.
   */
  method CollectResults(pool: ThreadPool<Pair>, results: seq<nat>, fileName: seq<string>,
                        fs: FileSystem, info: string -> FileInfo)
    returns (r: Result<seq<string>>, ran: seq<Pair>)
    requires ReachedHaveSeparator(fileName, fs)
    requires pool.Valid() && !pool.stop && pool.workers > 0
    requires pool.submitted == Jobs(fileName) && pool.taken == [] && pool.tasks == Jobs(fileName)
    requires |results| == |fileName| && forall j :: 0 <= j < |results| ==> results[j] == j
    modifies pool
    ensures pool.Valid() && !pool.stop && pool.workers == old(pool.workers)
    ensures pool.submitted == Jobs(fileName) && pool.taken == ran
    ensures |ran| <= |fileName| && ran == Jobs(fileName)[..|ran|] && pool.tasks == Jobs(fileName)[|ran|..]
    ensures r.Err? <==> exists p :: p in fileName && p !in fs
    ensures r.Err? ==> r.error == RuntimeError(FileNotOpened)
    ensures r.Ok? ==> ran == Jobs(fileName) && r.value == BatchSet(fileName, fs, info)
  {
    ghost var vec := Jobs(fileName);
    var fileNameInfo: seq<string> := [];
    ran := [];
    var n := 0;
    while n < |results|
      invariant 0 <= n <= |results|
      invariant pool.Valid() && !pool.stop && pool.workers == old(pool.workers)
      invariant pool.submitted == vec && pool.taken == vec[..n] && pool.tasks == vec[n..]
      invariant ran == vec[..n]
      invariant forall p :: p in fileName[..n] ==> p in fs
      invariant fileNameInfo == InsertAll([], BatchRecords(fileName[..n], fs, info))
    {
      QueueStep(vec, n);
      var step := pool.WorkerStep();
      // `get()` on future n yields the n-th task a worker takes
      assert |pool.taken| == n + 1 && step.ticket == n == results[n];
      assert step.task == vec[n] == (0, fileName[n]);
      ran := ran + [step.task];
      var P := SumTask(fs, step.task);
      assert fileName[n] in fileName;
      if P.Err? {
        return Err(P.error), ran;
      }
      fileNameInfo := InsertRecord(fileName, n, fs, info, fileNameInfo, P.value);
      n := n + 1;
    }
    assert fileName[..n] == fileName && vec[..n] == vec;
    r := Ok(fileNameInfo);
  }

  /**
   * `InvokeCommand` on the selected paths `fileName`, given the files that
   * open (`fs`), the metadata the Win32 calls report for each path (`info`)
   * and the old log text (`None` when the log does not open). Returns the new
   * log text, or the exception that escapes when a file does not open, and
   * every task the pool ran, in the order they were taken.
   */
  method InvokeCommand(fileName: seq<string>, fs: FileSystem, info: string -> FileInfo, log: Option<string>)
    returns (r: Result<string>, ran: seq<Pair>)
    requires ReachedHaveSeparator(fileName, fs)
    ensures ran == Jobs(fileName)
    ensures r.Err? <==> exists p :: p in fileName && p !in fs
    ensures r.Err? ==> r.error == RuntimeError(FileNotOpened)
    ensures r.Ok? ==> r.value == Render(MergedLines(BatchSet(fileName, fs, info), log))
  {
    var vec := MakeJobs(fileName);
    var pool := new ThreadPool<Pair>(PoolThreads);
    var results := SubmitAll(pool, vec);
    var collected, taken := CollectResults(pool, results, fileName, fs, info);
    if collected.Err? {
      // `get()` rethrew; when the host catches the exception, unwinding destroys
      // the pool, whose join drains the queue
      var rest := pool.Shutdown();
      ran := taken + rest;
      r := Err(collected.error);
      return;
    }
    assert Sorted([]);
    InsertAllSorted([], BatchRecords(fileName, fs, info));
    var written := WriteToLogFile(collected.value, log);
    r := Ok(written);
    // the pool goes out of scope; its queue is already empty
    var rest := pool.Shutdown();
    ran := taken + rest;
  }
}
