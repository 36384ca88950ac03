# Per-file checksum logging of the C++ context-menu shell extension

This project models the command that the Explorer context-menu extension runs
when the user clicks its menu item (`FileContextMenuExt::InvokeCommand`).
It also models the small thread pool the command uses (`ThreadPool.h`).

For each selected file, the command does the following:
- It submits a task to a pool of four worker threads.
- The task adds up the file's bytes into a 32-bit `unsigned int`. Each byte is read as a signed `char` and sign-extended.
- The command reads the futures in submission order.
- It builds one text record per file: the file name, the value it reports as the size, the creation date and time, and the per-byte sum.
- It merges the records with the lines already in the log file, as a sorted `std::multiset`, and writes them back in ascending order.

Modules, one per concern of the two source files:

| file | module | models |
|---|---|---|
| `wrappers.dfy` | `Wrappers` | `std::runtime_error` as an `Err` value; `Option` |
| `checksum.dfy` | `Checksum` | the byte-sum, its wrap-around and sign extension, and the read loop |
| `decimal.dfy` | `Decimal` | `std::to_wstring` of unsigned values, and a reader for it |
| `records.dfy` | `Records` | the backslash scan for the file name, and the record text |
| `log_file.dfy` | `LogFile` | `WriteToLogFile`: `getline` splitting, multiset insertion, ordered output |
| `thread_pool.dfy` | `Pool` | `ThreadPool` as a class with a task queue and a stop flag; `CheckSum::task` |
| `context_menu.dfy` | `ContextMenu` | the checksum lambda and `InvokeCommand` itself |

The thread pool is a sequential state machine. `Enqueue` and `WorkerStep`
each stand for one critical section of the original. `Shutdown` stands for the
whole destructor: the critical section that sets `stop`, then the join,
modelled as the worker steps that drain the queue. The constructor takes no
lock. Only a pool with at least one worker can take a step, so a task
submitted to a pool with no worker never runs, and waiting for its future is
outside the model. A worker thread is represented by the steps it takes
(`WorkerStep`: wait, exit, or take the front task). The future of a task is
its index in submission order. `get()` on the n-th future is modelled as the
n-th task a worker takes. FIFO removal makes that the n-th submitted task.

Two facts the model makes explicit:
- The filter `tempStr != L"\n"` in `WriteToLogFile` never removes a line. `getline` drops the line break, so no line it yields can equal `"\n"` (`LogFile.NewlineFilterIsVacuous`).
- A pool built with zero threads runs none of its queued tasks at destruction, because no worker exists to drain the queue (`Pool.ThreadPool.Shutdown`).

Three behaviours of the code that the model keeps as written:
- A file that fails to open is not isolated. Its task throws, `get()` rethrows, and `InvokeCommand` stops before writing the log.
- The log keeps duplicate lines, because it is a `std::multiset` and does no deduplication.
- The pool accepts zero threads.

`Records.Parse` has no counterpart in the source. It is an inverse of the record format. It shows that the format loses nothing for file names without `;`.

## Model

| member | source | states |
|---|---|---|
| Checksum.Widen | COM/FileContextMenuExt.cpp:293 | `(unsigned int)(char)b` is `b` below 0x80 and `b - 256 + 2^32` from 0x80 up; it is always `b` modulo 256 |
| Checksum.ReadSum | COM/FileContextMenuExt.cpp:282-293 | the read loop ends with the sum equal to `ByteSum` of the whole content (start at 0, add each widened byte, wrap modulo 2^32) |
| Checksum.ByteSum | COM/FileContextMenuExt.cpp:282-293 | the accumulator after every byte has been read, widened and added with wrap-around, from 0; its meaning is stated by `Checksum.ByteSumIsSignedTotalMod` and `Checksum.ByteSumAppend` |
| Checksum.ByteSumIsSignedTotalMod | COM/FileContextMenuExt.cpp:282-293 | the wrapped unsigned sum equals the plain sum of the bytes read as signed chars, taken modulo 2^32 |
| Checksum.ByteSumAppend | COM/FileContextMenuExt.cpp:292-293 | the sum of a concatenation is the wrapped sum of the sums of its parts |
| Checksum.KnownSums | COM/FileContextMenuExt.cpp:282-294 | an empty file sums to 0; bytes 1,2,3,4 sum to 10; 0xFF sums to 0xFFFFFFFF; two 0x80 bytes sum to 0xFFFFFF00 |
| ContextMenu.SumTask | COM/FileContextMenuExt.cpp:278-296 | the task throws exactly when the file does not open, with the source's message; otherwise `.second` is the path unchanged and `.first` is its byte-sum |
| Pool.CheckSumTask | COM/CppShellExtContextMenuHandler/ThreadPool.h:104-120 | `CheckSum::task` throws exactly when the file does not open; otherwise it returns its argument pair unchanged, and the sum it computes is discarded |
| Decimal.ToDecimal | COM/FileContextMenuExt.cpp:318-322 | `std::to_wstring` gives a non-empty run of digits with no leading zero except for "0" itself |
| Decimal.ToDecimalValue | COM/FileContextMenuExt.cpp:318-322 | the digits printed for `n` denote `n` |
| Decimal.ReadNatToDecimal | COM/FileContextMenuExt.cpp:318-322 | reading the longest digit run after printing `n` gives back `n` and exactly the text that follows it |
| Decimal.ToDecimalInjective | COM/FileContextMenuExt.cpp:318-322 | different numbers print differently |
| Records.FileName | COM/FileContextMenuExt.cpp:308-314 | the backward scan for `\` followed by `substr` returns the text after the last backslash, which holds no backslash; a path with no backslash is excluded, because the scan would read before the string |
| Records.FileNamePart | COM/FileContextMenuExt.cpp:313-314 | the text after the last backslash of the path; the lemmas below state that it is a backslash-free suffix preceded by a backslash |
| Records.FileNamePartOf | COM/FileContextMenuExt.cpp:313-314 | for any directory text, the name part of `dir + "\" + name` is `name` whenever `name` has no backslash |
| Records.FileNamePartIsSuffix | COM/FileContextMenuExt.cpp:313-314 | the name part is a suffix of the path and contains no backslash |
| Records.FileNamePartAfterSeparator | COM/FileContextMenuExt.cpp:313-314 | when the path has a backslash, the name part is shorter than the path and is preceded by a backslash |
| Records.Format | COM/FileContextMenuExt.cpp:318-322 | the record text: the name, then each label followed by the decimal text of its value; `Records.ParseFormat` and `Records.FormatShape` state what it preserves |
| Records.RecordOf | COM/FileContextMenuExt.cpp:303-322 | the record of a file: the name part of the path, `nFileIndexLow` reported as the size, the creation day, month, year, hour, minute and second, and the byte-sum |
| Records.ParseFormat | COM/FileContextMenuExt.cpp:318-322 | the record text (name, "; Size: ", size, " Bytes; Date: ", d/m/y, "; Time: ", h:m:s, " Per-Byte sum: ", sum) reads back as the same fields when the name has no `;` |
| Records.FormatInjective | COM/FileContextMenuExt.cpp:318-322 | two records whose names have no `;` have the same text only when all their fields are equal |
| Records.FormatShape | COM/FileContextMenuExt.cpp:318-322 | a record starts with the file name, ends with the decimal per-byte sum, and contains no line break when the name has none |
| ContextMenu.BuildRecord | COM/FileContextMenuExt.cpp:303-322 | the line built for a resolved pair is the record of the path's name part, the reported `nFileIndexLow` and creation time, and the pair's sum |
| LogFile.Below | COM/FileContextMenuExt.cpp:52 | the `std::wstring` order the `std::multiset` keeps: lexicographic by character code, a proper prefix first; `BelowIrreflexive`, `BelowTransitive` and `BelowTotal` state it is a strict total order |
| LogFile.Insert | COM/FileContextMenuExt.cpp:60 | `multiset::insert` adds exactly one copy of the element and keeps everything else |
| LogFile.InsertSorted | COM/FileContextMenuExt.cpp:60 | insertion keeps the multiset in ascending `wstring` order |
| LogFile.InsertAll | COM/FileContextMenuExt.cpp:54-61 | inserting a sequence of lines into a multiset adds every one of them with its multiplicity |
| LogFile.LineEnd | COM/FileContextMenuExt.cpp:57 | `getline` stops at the first line break, or at the end of the text |
| LogFile.GetLines | COM/FileContextMenuExt.cpp:56-57 | the lines `getline` yields from the old log text: the break is dropped, a last line without a break is kept, and an empty text after the last break yields nothing; `LogFile.GetLinesRender` is its round trip |
| LogFile.Kept | COM/FileContextMenuExt.cpp:59-60 | the lines that survive the `!= L"\n"` filter, in file order; `LogFile.KeptCount` states its counts |
| LogFile.Render | COM/FileContextMenuExt.cpp:64-66 | the text written by the output loop: every line followed by a line break, in order |
| LogFile.MergedLines | COM/FileContextMenuExt.cpp:52-61 | the final `tempSet`: the new records with every kept old line inserted; `LogFile.MergedIsSortedUnion` and `LogFile.MergedIsUnique` state what it is |
| LogFile.InsertLines | COM/FileContextMenuExt.cpp:54-61 | the reading loop leaves `tempSet` equal to the new records with every line other than "\n" inserted, in file order |
| LogFile.WriteLines | COM/FileContextMenuExt.cpp:64-66 | the output loop writes every element in iteration order, each followed by `endl` |
| LogFile.WriteToLogFile | COM/FileContextMenuExt.cpp:47-68 | the new log text is the rendering of the merged multiset of records and old lines; a log that does not open contributes no lines |
| LogFile.KeptCount | COM/FileContextMenuExt.cpp:59-60 | the filter drops every "\n" line and keeps every other line with its multiplicity |
| LogFile.MergedIsSortedUnion | COM/FileContextMenuExt.cpp:47-66 | the written lines are in ascending order, and their multiset is the records plus the kept old lines, duplicates included |
| LogFile.SortedUnique | COM/FileContextMenuExt.cpp:65-66 | two ascending sequences with the same multiset of lines are equal |
| LogFile.MergedIsUnique | COM/FileContextMenuExt.cpp:47-66 | the written lines are the only ascending arrangement of the records and the kept old lines |
| LogFile.GetLinesHaveNoBreak | COM/FileContextMenuExt.cpp:57 | no line yielded by `getline` contains a line break |
| LogFile.NewlineFilterIsVacuous | COM/FileContextMenuExt.cpp:57-60 | the `!= L"\n"` filter keeps every line read from the log |
| LogFile.RenderGetLines | COM/FileContextMenuExt.cpp:56-66 | reading any old log text with `getline` and writing the lines back with `endl` gives the same text, with one line break added when the text does not end in one: nothing the log held is lost |
| LogFile.GetLinesRender | COM/FileContextMenuExt.cpp:64-66 | lines without breaks that are written with `endl` are read back by `getline` unchanged |
| LogFile.MergeNothingIsIdentity | COM/FileContextMenuExt.cpp:47-66 | merging an empty batch into a log this function wrote leaves its lines unchanged (a batch merged twice is kept twice: the merge is a multiset union, not idempotent) |
| ContextMenu.Jobs | COM/FileContextMenuExt.cpp:269-270 | `vec` has one pair `(0, path)` per selected file, in iteration order |
| ContextMenu.MakeJobs | COM/FileContextMenuExt.cpp:269-270 | the `push_back` loop builds exactly `Jobs` of the selection |
| ContextMenu.SubmitAll | COM/FileContextMenuExt.cpp:275-298 | one task per pair is enqueued, in order; the queue holds exactly those tasks, and the futures are tickets 0, 1, 2, … |
| ContextMenu.CollectStep | COM/FileContextMenuExt.cpp:323 | inserting the next file's record extends the multiset of the records so far |
| ContextMenu.BatchRecords | COM/FileContextMenuExt.cpp:300-322 | the records of a batch whose files all open: one per selected file; `ContextMenu.BatchRecordsAt` states that record k is the record of path k |
| ContextMenu.BatchRecordsAt | COM/FileContextMenuExt.cpp:300-322 | record k of the batch is the record of the k-th selected path (its name part, its metadata and its byte-sum), for every k: one record per file, in selection order |
| ContextMenu.BatchSet | COM/FileContextMenuExt.cpp:267 | `fileName_info` after the loop: the multiset of the batch's records |
| ContextMenu.InsertRecord | COM/FileContextMenuExt.cpp:303-323 | one pass of the loop after `get()` returned the n-th pair: the record built from it and inserted makes `fileName_info` the multiset of the records of the first n + 1 files |
| ContextMenu.CollectResults | COM/FileContextMenuExt.cpp:300-324 | on a pool with at least one worker, future n yields the n-th task taken, each task once; the loop fails exactly when some selected file does not open; otherwise it yields the multiset of all the records; only the paths it actually scans (each file up to the first that fails to open) need a backslash |
| ContextMenu.InvokeCommand | COM/FileContextMenuExt.cpp:264-329 | every submitted task is run once, in submission order, on both paths (on the error path, through the unwinding that runs the pool's destructor); the command fails, leaving the log unwritten, exactly when some selected file does not open; otherwise the new log is the ascending merge of the batch's records and the old lines; only the paths whose names are scanned need a backslash |
| Pool.ThreadPool.constructor | COM/CppShellExtContextMenuHandler/ThreadPool.h:37-41 | a new pool has `stop == false`, an empty queue and exactly `threads` workers |
| Pool.ThreadPool.Enqueue | COM/CppShellExtContextMenuHandler/ThreadPool.h:62-83 | when stopped, it throws "enqueue on stopped ThreadPool" and leaves the queue unchanged; otherwise it appends exactly one task at the back and returns its future |
| Pool.ThreadPool.Idle | COM/CppShellExtContextMenuHandler/ThreadPool.h:47 | the condition a worker waits on: not stopped with an empty queue |
| Pool.ThreadPool.Finished | COM/CppShellExtContextMenuHandler/ThreadPool.h:49 | the condition on which a worker returns: stopped with an empty queue |
| Pool.ThreadPool.WorkerStep | COM/CppShellExtContextMenuHandler/ThreadPool.h:44-54 | on a pool with at least one worker, a worker waits only while the pool is running with an empty queue, and returns only when it is stopped with an empty queue; otherwise it takes the front task (the next submitted one) and pops it |
| Pool.ThreadPool.Shutdown | COM/CppShellExtContextMenuHandler/ThreadPool.h:86-97 | the destructor sets `stop`; with at least one worker, the join runs every queued task in FIFO order and leaves the pool finished; with no worker, nothing runs |
| Pool.ShutdownScenario | COM/CppShellExtContextMenuHandler/ThreadPool.h:69-70 | a task submitted before shutdown runs during the join; `stop` is never reset, so a later `enqueue` is rejected |
| Pool.FifoScenario | COM/CppShellExtContextMenuHandler/ThreadPool.h:47-54 | workers take two submitted tasks in submission order, each once, and then wait |

## Left out

- COM plumbing is not modelled: `QueryInterface`, `AddRef`/`Release` reference counting, the DLL reference count in the constructor and destructor, `QueryContextMenu` menu insertion, bitmap loading, `GetCommandString` and `OnVerbDisplayFileName`. These are ABI and UI calls with no logic to state.
- `Initialize` is not modelled: it enumerates the HDROP with `DragQueryFileW`/`GlobalLock`. The selection is an input sequence in the order the `fileName` container is iterated. FileContextMenuExt.h, which declares that container, is not part of this model.
- File I/O is abstracted, not performed:
  - opening and reading a file is a lookup in a map from path to content, and a path that is not a key does not open;
  - `CreateFile`, `GetFileInformationByHandle` and `FileTimeToSystemTime` are replaced by an input function from path to `nFileIndexLow` plus creation time;
  - the log file at its fixed path is an optional old text in and a new text out.
- The model does not cover `CreateFile` with `OPEN_ALWAYS` creating a missing file, a failing metadata call (which leaves the structure uninitialised), or a failing log write.
- Paths without a backslash are partly excluded. `ContextMenu.InvokeCommand` and `ContextMenu.CollectResults` require a backslash in every path the record loop scans, that is, in each file up to the first that fails to open. In the source, the scan of a backslash-free path reads before the start of the string, which is undefined behaviour; the model does not say what happens then.
- `ContextMenu.InvokeCommand`: an exception that escapes across the COM boundary is modelled as an `Err` result. The `Err` path assumes the host catches the exception, so the stack unwinds and the pool's destructor runs the remaining tasks; with no handler, whether the stack unwinds is implementation-defined, and the model does not cover a process that ends without running the destructor.
- Threads, `std::mutex`, `std::condition_variable`, `notify_one`/`notify_all`, `join`, `std::packaged_task` and `std::future` are not modelled as concurrency. Their queue and stop semantics are modelled as sequential steps.
- Not covered by the sequential model:
  - the order in which concurrent tasks complete;
  - tasks running at the same time;
  - the unsynchronised read of `stop` in `enqueue`.
- A pool with no worker: in the source, `get()` on a future of such a pool blocks forever, because no thread runs its task. The model has no blocking. `Pool.ThreadPool.WorkerStep` and `ContextMenu.CollectResults` require at least one worker, so that wait is not modelled.
- `Pool.ThreadPool.Enqueue`: the future is represented by its submission index. The value a future carries is the result of running its task, as in `ContextMenu.CollectResults`.
- `wchar_t` is represented by Dafny's `char`, which is a Unicode scalar value, not a UTF-16 code unit. Strings compare lexicographically by character code. For names made only of Basic Multilingual Plane characters this is the order of `std::wstring`. A name with a supplementary character (one stored as a surrogate pair) can sort differently: the model puts U+1F600 after U+FF01, but `std::wstring` puts its high surrogate 0xD83D first.
- The wide file stream's character conversion is not modelled. `wfstream` converts every `wchar_t` through the `codecvt` of its locale, the default "C" locale, since none is imbued. The model treats the log file as holding the wide text itself. A character that the locale cannot convert, which makes the stream's write fail, is not modelled either.
- The coursework files under `3 tasks/` are not part of this model.
