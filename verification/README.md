# Verified models of the lint and heap-analysis cores

This project models, in Dafny, the parts of the repository whose correctness is hard
to see by reading: the file-lock protocol and the recursive mutex of the bundled SQLite
sources, the HPROF pipeline from bytes to leak chains, the scheduler and the checkers of
the SQL lint, and the SQL scanner with the printers whose output it must read back.
`dafny verify dfyconfig.toml` checks everything.

- `LockRegions`, `FileLocks`, `ByteKernel`, `UnixFiles`: POSIX byte-range locks, the five
  lock levels as a state machine over processes and handles, the same machine on a kernel
  that keeps bytes, and the two calls as written, proved to be runs of that machine.
- `RecursiveMutex`: the mutex made of two mutexes and a counter.
- `HprofReader`, `HprofFormat`, `HprofDump`, `HprofEngine`: the reader, the format as a
  total function on bytes, an abstract dump with its encoding and meaning, and the parser.
- `HprofTables`, `HprofTyped`: the tables of a parsed heap from the list of records alone,
  and values by the ranges of their types.
- `HprofHeap`, `HprofBuilt`, `HprofLazy`: the heap, what holds of every parsed one, and the
  pass over instances and GC roots.
- `LeakChains`, `LeakReport`, `LeakExclusion`, `LeakExample`: breadth-first search,
  back-trace, reports, and what exclusion matchers do to them.
- `Pipeline`: the stages put together, from bytes to reports.
- `RedundantIndex`, `LruCache`, `ContinuousScan`, `LintQueue`, `WildcardSql`, `WildcardFlags`:
  the lint.
- `WildcardWords`, `WildcardReads`: a printed statement as the words the scanner finds in it.
- `Tokenizer`, `TokenTable`, `Quoting`, `Affinity`: SQL text; what tokens are, by table and
  grammar.

Where the code does not do what its promise says, the model follows the code:

- `unixUnlock` stores the handle's level after leaving the mutex, so two stored levels
  can overlap (`FileLocks.StoredLevelsCanOverlap`); the level a user relies on is safe, and
  the stored one is that level exactly when no unlock is in progress.
- `ScanCheck` keeps a 64-bit gap in an `int`, so executions weeks apart can look close;
  `ContinuousScan.ScansRightIffNoGapWraps` gives the exact condition.
- The scanner takes two characters for every `!`, so a text can make it pass the
  terminator; `Tokenizer.TokenFits` and `Tokenizer.RunParser` say exactly when.
- `sqlite3Dequote` does not end its result when the closing quote is missing
  (`Quoting.DequoteOpenText`); `Quoting.DequoteRightIffClosed` gives the exact condition.
- Excluding a field can add a reported leak: a chain with a nameless class is not reported,
  and without the field a longer chain with names takes its place
  (`LeakExample.ReportAdded`); `LeakExclusion.ReportsOnlyShrinkIffNamed` gives the exact
  condition.
- `main_index_lock_` is never initialised, so the priority of automatic indexes can fail
  (`RedundantIndex.AutoCanLose`); `RedundantIndex.AutoWinsIffUnlocked` gives the exact
  condition.
- The printer writes nothing for arithmetic and other operators outside its list, nothing
  between the parts of a compound select other than a union, and the word of an inner LIKE
  in place of the outer one, so parts run together (`WildcardReads.ColumnsReadIffPrinted`,
  `PartsWithoutSign`, `CompoundWithoutUnion`, `InnerLikeWins`); HAVING follows ORDER BY.

## Model

| member | source | states |
|---|---|---|
| `LockRegions.GrantableIffCompatible` | traceharbor-sqlite-lint/src/lemon/os_unix.c:182-190 | a POSIX lock on one of the byte ranges the code uses is grantable, byte by byte, if and only if the three-region bookkeeping calls it compatible |
| `LockRegions.RegionsRefineBytes` | traceharbor-sqlite-lint/src/lemon/os.h:253-261 | setting or clearing a range region by region gives the same bytes as doing it byte by byte |
| `FileLocks.EveryReachableStateIsSafe` | traceharbor-sqlite-lint/src/lemon/os_unix.c:1244-1527 | after any interleaving of system calls of any processes and handles, an EXCLUSIVE handle is alone, at most one handle is RESERVED and at most one is PENDING or higher |
| `FileLocks.BetweenCalls` | traceharbor-sqlite-lint/src/lemon/os_unix.c:1337-1430 | between calls `cnt` and `nLock` count the locked handles, `locktype` is the highest level, at most one handle is above SHARED and the kernel locks are those of that level |
| `FileLocks.AssertsNeverFail` | traceharbor-sqlite-lint/src/lemon/os_unix.c:1339-1513 | the asserts on `cnt`, `nLock` and `locktype` hold at every step of every run |
| `FileLocks.ReleasesAreGrantable` | traceharbor-sqlite-lint/src/lemon/os_unix.c:1466-1505 | a release or a downgrade never meets a conflicting lock |
| `FileLocks.ApplyKeepsInv` | traceharbor-sqlite-lint/src/lemon/os_unix.c:1244-1527 | every step of every process keeps the invariant of the records and of the kernel locks |
| `FileLocks.RunKeepsInv` | traceharbor-sqlite-lint/src/lemon/os_unix.c:1244-1527 | so does every run |
| `FileLocks.StepAddsNoSharer` | traceharbor-sqlite-lint/src/lemon/os_unix.c:1337-1396 | while a handle is PENDING or EXCLUSIVE no step makes a further process a sharer |
| `FileLocks.RunAddsNoSharer` | traceharbor-sqlite-lint/src/lemon/os_unix.c:1337-1396 | over a whole run with PENDING held the set of sharing processes does not grow |
| `FileLocks.StoredLevelExactlyOutsideUnlock` | traceharbor-sqlite-lint/src/lemon/os_unix.c:1524-1526 | `pFile->locktype` is the level its user may rely on if and only if no unlock of that handle is in progress; otherwise it is too high |
| `FileLocks.StoredLevelsAreSafe` | traceharbor-sqlite-lint/src/lemon/os_unix.c:1524-1526 | the stored levels of two handles that are not being unlocked obey the same exclusion |
| `FileLocks.StoredLevelsCanOverlap` | traceharbor-sqlite-lint/src/lemon/os_unix.c:1524-1526 | a reachable state in which two handles both store EXCLUSIVE, because the field is written after the mutex is left |
| `FileLocks.CanReachExclusive` | traceharbor-sqlite-lint/src/lemon/os_unix.c:1339-1430 | a process that nobody competes with does get to EXCLUSIVE |
| `FileLocks.CheckReservedLockIsSound` | traceharbor-sqlite-lint/src/lemon/os_unix.c:1188-1218 | no RESERVED handle goes unnoticed, and a positive answer means a handle stored above SHARED |
| `UnixFiles.UnixFiles.UnixLock` | traceharbor-sqlite-lint/src/lemon/os_unix.c:1244-1437 | the call, with other processes running between its system calls, is a run of the protocol that begins with the request; exactly which `fcntl` calls it makes; it is refused if and only if the records of the process or one of those calls refuse it, a call only for a conflicting lock or another error; the level the handle and the process end at in every case, PENDING with the byte write-locked after an EXCLUSIVE request that got the PENDING byte and was refused later; no other handle changes |
| `UnixFiles.UnixFiles.UnixUnlock` | traceharbor-sqlite-lint/src/lemon/os_unix.c:1446-1527 | the same for unlocking, with other threads of the process running too once the mutex is left: the handle ends at the requested level if it was higher, and without such threads no other handle changes |
| `ByteKernel.StepAlike` | traceharbor-sqlite-lint/src/lemon/os_unix.c:182-190 | a system call may be granted on bytes if and only if it may on regions, and records and bytes still agree after it |
| `ByteKernel.RunsAlike` | traceharbor-sqlite-lint/src/lemon/os_unix.c:1244-1527 | every run on regions is a run on bytes and the other way round, and both end alike |
| `ByteKernel.EveryByteRunIsSafe` | traceharbor-sqlite-lint/src/lemon/os_unix.c:1244-1527 | the safety theorem on a kernel that keeps bytes: the levels exclude each other and no byte is ever held in conflicting ways |
| `UnixFiles.UnixFiles.StartLock` | traceharbor-sqlite-lint/src/lemon/os_unix.c:1326-1399 | what the process's own records and the PENDING byte decide before the lock itself is asked for: a SHARED request, or an EXCLUSIVE one from below PENDING, that passes the first tests asks for the PENDING byte, whatever `cnt` is, and only then can be refused; with the exact reason of a refusal |
| `UnixFiles.UnixFiles.LockPendingByte` | traceharbor-sqlite-lint/src/lemon/os_unix.c:1352-1399 | the first system call of a SHARED or EXCLUSIVE request is the protocol's step |
| `UnixFiles.UnixFiles.LockSharedRange` | traceharbor-sqlite-lint/src/lemon/os_unix.c:1372-1395 | taking the shared range and dropping PENDING is two protocol steps and gives SHARED exactly on success |
| `UnixFiles.UnixFiles.LockMainRange` | traceharbor-sqlite-lint/src/lemon/os_unix.c:1400-1430 | taking RESERVED or EXCLUSIVE; a failed EXCLUSIVE leaves PENDING |
| `UnixFiles.UnixFiles.UnlockHigh` | traceharbor-sqlite-lint/src/lemon/os_unix.c:1478-1496 | freeing PENDING and RESERVED together and giving up the count is a protocol step |
| `UnixFiles.UnixFiles.UnlockLast` | traceharbor-sqlite-lint/src/lemon/os_unix.c:1496-1513 | the last handle of the process frees the whole file |
| `RecursiveMutex.MutualExclusion` | traceharbor-sqlite-lint/src/lemon/os_unix.c:1806-1839 | at most one thread is inside, and between calls `inMutex` is its nesting depth |
| `RecursiveMutex.AssertsNeverFail` | traceharbor-sqlite-lint/src/lemon/os_unix.c:1806-1839 | no assert fails in any reachable state, and no thread waits for mutexMain with mutexAux held |
| `RecursiveMutex.SomeCallCanGoOn` | traceharbor-sqlite-lint/src/lemon/os_unix.c:1806-1839 | no deadlock: while a call is in progress some call can go on, unless all wait for a thread that is inside and between calls |
| `RecursiveMutex.ApplyKeepsInv` | traceharbor-sqlite-lint/src/lemon/os_unix.c:1806-1839 | every step of every thread keeps the invariant that ties both mutexes, `inMutex` and the owner to the threads' positions |
| `HprofReader.ReadBack` | traceharbor-hprof-analyzer/lib/reader/reader.cpp:26-36 | reading the big-endian form of a number gives the number back |
| `HprofReader.Reader.Read` | traceharbor-hprof-analyzer/lib/reader/reader.cpp:26-36 | the byte loop computes the big-endian value modulo 64 bits, or fails exactly at the end of the buffer |
| `HprofReader.Reader.Skip` | traceharbor-hprof-analyzer/lib/reader/reader.cpp:38-43 | moves the cursor, or fails past the end |
| `HprofReader.Reader.Extract` | traceharbor-hprof-analyzer/lib/reader/reader.cpp:49-53 | the bytes at the cursor, or failure past the end |
| `HprofEngine.Engine.ReadNullTerminatedString` | traceharbor-hprof-analyzer/lib/reader/reader.cpp:17-24 | the bytes up to the next zero |
| `HprofDump.ParseOfEncode` | traceharbor-hprof-analyzer/lib/parser/engine.cpp:52-213 | parsing the encoding of any well-formed dump builds exactly the heap its records mean, applied in order; `HprofTables.MeaningSays` says what that heap is |
| `HprofTables.MeaningSays` | traceharbor-hprof-analyzer/lib/parser/engine.cpp:479-606 | every table of that heap from the list of records alone: the fields of a class are those of its dumps in order, super and names those of the last record, field data and types those of the first, the roots in order with their types and threads, an array's edge to an object labelled with its last index, a static field's edge with its name |
| `HprofDump.RecordsBack` | traceharbor-hprof-analyzer/lib/parser/engine.cpp:58-80 | the same for any list of records followed by the end record |
| `HprofDump.RecordBack` | traceharbor-hprof-analyzer/lib/parser/engine.cpp:62-78 | the same for one string, load-class, heap-dump or skipped record |
| `HprofDump.SubsBack` | traceharbor-hprof-analyzer/lib/parser/engine.cpp:130-213 | the content of a heap-dump record is used up exactly and means its sub-records in order |
| `HprofDump.SubBack` | traceharbor-hprof-analyzer/lib/parser/engine.cpp:333-641 | the body of every kind of sub-record is read back with exactly its length |
| `HprofDump.ClassBack` | traceharbor-hprof-analyzer/lib/parser/engine.cpp:479-570 | a class dump with its three nested lists is read back; with `HprofTables.MeaningSays` its fields end up in the order of the dump |
| `HprofDump.InstanceBack` | traceharbor-hprof-analyzer/lib/parser/engine.cpp:573-588 | an instance dump is read back |
| `HprofDump.ObjectArrayBack` | traceharbor-hprof-analyzer/lib/parser/engine.cpp:591-606 | an object array with all its elements is read back |
| `HprofDump.PrimitiveArrayBack` | traceharbor-hprof-analyzer/lib/parser/engine.cpp:609-621 | a primitive array is read back |
| `HprofEngine.Engine.ParseClassDump` | traceharbor-hprof-analyzer/lib/parser/engine.cpp:479-570 | the class-dump parser refines the format function, whose tables `HprofTables` states from the records, and returns exactly the bytes the cursor moved |
| `HprofEngine.Engine.ParseInstanceDump` | traceharbor-hprof-analyzer/lib/parser/engine.cpp:573-588 | same for instances |
| `HprofEngine.Engine.ParseObjectArrayDump` | traceharbor-hprof-analyzer/lib/parser/engine.cpp:591-606 | same for object arrays |
| `HprofEngine.Engine.ParsePrimitiveArrayDump` | traceharbor-hprof-analyzer/lib/parser/engine.cpp:609-621 | same for primitive arrays |
| `HprofEngine.Engine.ParseNoDataArrayDump` | traceharbor-hprof-analyzer/lib/parser/engine.cpp:624-633 | same for primitive arrays without data |
| `HprofEngine.Engine.ParseRootDump` | traceharbor-hprof-analyzer/lib/parser/engine.cpp:334-476 | same for every kind of GC root |
| `HprofEngine.Engine.ParseSubRecord` | traceharbor-hprof-analyzer/lib/parser/engine.cpp:137-211 | the dispatch on the sub-record tag, with an unknown tag fatal |
| `HprofEngine.Engine.ParseHeapContent` | traceharbor-hprof-analyzer/lib/parser/engine.cpp:130-213 | the loop whose byte account must come out as the record length |
| `HprofEngine.Engine.ParseOneRecord` | traceharbor-hprof-analyzer/lib/parser/engine.cpp:62-78 | one record of the file |
| `HprofEngine.Engine.Parse` | traceharbor-hprof-analyzer/lib/parser/engine.cpp:52-97 | the header and all records, or failure exactly where the format function fails |
| `HprofEngine.ParseEncoded` | traceharbor-hprof-analyzer/lib/parser/engine.cpp:52-213 | running the engine on the encoding of a well-formed dump succeeds with the heap the dump means, whose tables are those given by the list of records |
| `HprofTyped.WidthIsEnough` | traceharbor-hprof-analyzer/lib/heap/heap.cpp:10-32 | the width of a type in bytes is just enough for its values: 256 to that power is the number of booleans, chars, ints, longs or ids |
| `HprofTyped.RootBack` | traceharbor-hprof-analyzer/lib/parser/engine.cpp:334-476 | a root written as an id and the typed numbers of its kind is well formed, and the first number is the thread serial number stored |
| `HprofTyped.StaticBack` | traceharbor-hprof-analyzer/lib/parser/engine.cpp:527-553 | a static field written as a typed value is well formed and refers to that value |
| `HprofTyped.ArrayIsGood` | traceharbor-hprof-analyzer/lib/parser/engine.cpp:609-621 | a primitive array written as typed values has the length the parser expects |
| `HprofLazy.ChildClassOf` | traceharbor-hprof-analyzer/lib/heap/heap.cpp:185-193 | the walk finds a class exactly if it is on the superclass chain |
| `HprofLazy.RunFieldsEdges` | traceharbor-hprof-analyzer/lib/parser/engine.cpp:276-301 | after the pass an instance has an edge to x if and only if some uncovered object field, read at the sum of the sizes before it, holds x |
| `HprofTyped.FieldBack` | traceharbor-hprof-analyzer/lib/parser/engine.cpp:276-301 | of an instance written as typed values, field by field, every value is read back at its place |
| `HprofTyped.EdgesAreValues` | traceharbor-hprof-analyzer/lib/parser/engine.cpp:261-302 | the edges of such an instance are the values of its object fields, leak edges of the uncovered ones and excluded edges of the covered ones |
| `HprofTyped.PrimitiveBack` | traceharbor-hprof-analyzer/lib/parser/engine.cpp:294-299 | the primitive stored for a name is the value of the first primitive field of that name, with its type |
| `HprofLazy.RunFieldsLabel` | traceharbor-hprof-analyzer/lib/parser/engine.cpp:276-301 | the label of an edge is that of the last such field |
| `HprofLazy.RunFieldsLocal` | traceharbor-hprof-analyzer/lib/parser/engine.cpp:261-302 | reading an instance depends only on its own rows, so the order of instances does not matter |
| `HprofLazy.MovesKeepEdges` | traceharbor-hprof-analyzer/lib/heap/heap.cpp:497-519 | moving a row to the excluded table keeps leak and excluded edges together unchanged |
| `HprofLazy.RowsAfterEdges` | traceharbor-hprof-analyzer/lib/parser/engine.cpp:256-302 | after the pass over all instances: the leak edges, the label of each, and the excluded edges, all by the fields that hold the object |
| `HprofLazy.MoreMatchersFewerEdges` | traceharbor-hprof-analyzer/lib/parser/engine.cpp:256-302 | more resolved matchers leave fewer leak edges |
| `HprofLazy.FlattenMembers` | traceharbor-hprof-analyzer/lib/parser/engine.cpp:220-234 | the flattened matchers are exactly those whose class and field names are in the heap |
| `HprofLazy.ExclusionOnlyRemoves` | traceharbor-hprof-analyzer/lib/parser/engine.cpp:220-302 | adding matchers in any position only removes leak edges |
| `HprofLazy.LazyPass.ClassMatchers` | traceharbor-hprof-analyzer/lib/parser/engine.cpp:268-274 | the matchers kept for an instance cover exactly the field names they cover on its class chain |
| `HprofLazy.LazyPass.ReadInstance` | traceharbor-hprof-analyzer/lib/parser/engine.cpp:262-301 | the walk up the chain refines the field-by-field function, failing when that does |
| `HprofLazy.LazyPass.InstancePass` | traceharbor-hprof-analyzer/lib/parser/engine.cpp:261-302 | the rows of every instance end as if it had been read alone |
| `HprofLazy.LazyPass.ExcludeReferences` | traceharbor-hprof-analyzer/lib/heap/heap.cpp:497-504 | exactly the row of one object is moved |
| `HprofLazy.LazyPass.GcRootPass` | traceharbor-hprof-analyzer/lib/parser/engine.cpp:304-331 | root by root, exactly the rows of JNI globals and Java frames that a matcher covers are moved, and it fails exactly at a root without type or a frame without known thread |
| `HprofLazy.LazyPass.LazyParse` | traceharbor-hprof-analyzer/lib/parser/engine.cpp:254-331 | without thread matchers the leak edges, their labels and the excluded edges left are exactly those given by fields, matchers and dropped roots; with them, the instances are read and then the roots visited one by one; it fails exactly when some instance or some root does |
| `LeakChains.FindLeakChains` | traceharbor-hprof-analyzer/lib/analyzer/analyzer.cpp:18-86 | a tracked object gets a chain if and only if it is reachable and not a root; the chain is a shortest real path and each entry carries the reference to the next |
| `LeakChains.Search` | traceharbor-hprof-analyzer/lib/analyzer/analyzer.cpp:40-65 | the breadth-first search finds the object exactly if it is reachable, at its distance |
| `LeakChains.Expand` | traceharbor-hprof-analyzer/lib/analyzer/analyzer.cpp:45-64 | expanding one node keeps the queue in order of depth and every depth minimal |
| `LeakChains.BackTrace` | traceharbor-hprof-analyzer/lib/analyzer/analyzer.cpp:67-82 | the trace back and its reversal give a labelled path of the node's depth |
| `LeakChains.UnknownIsUnreachable` | traceharbor-hprof-analyzer/lib/analyzer/analyzer.cpp:40-65 | what an exhausted search has not met is unreachable |
| `LeakReport.BuildLeakChain` | traceharbor-hprof-analyzer/lib/main/analyzer.cpp:146-182 | a report has the root and one node per reference of the chain, with the index of an array element or the name of a field, empty if unknown; it is refused only if a class has no name |
| `LeakReport.ClassNameMeans` | traceharbor-hprof-analyzer/lib/main/analyzer.cpp:154-161 | the class name in a report is the string for the class that the entry stands for, itself before a static field and the class of the instance otherwise, and it is missing exactly when there is none |
| `LeakReport.Analyze` | traceharbor-hprof-analyzer/lib/main/analyzer.cpp:132-144 | every report describes a shortest chain to a tracked non-root object, entry by entry, and none is there twice; every reachable one is reported unless a class on a shortest chain has no name; the analysis gives up only at an object of unknown type on a shortest chain |
| `LeakReport.ChainDistance` | traceharbor-hprof-analyzer/lib/main/analyzer.cpp:146-182 | the length of a chain is the distance of its object from the roots |
| `LeakExclusion.FewerEdgesFewerLeaks` | traceharbor-hprof-analyzer/lib/analyzer/analyzer.cpp:40-65 | a smaller leak graph has no more chains and no shorter ones |
| `LeakExclusion.ExclusionNeverAddsChains` | traceharbor-hprof-analyzer/lib/parser/engine.cpp:256-302 | adding instance-field matchers never adds a leak chain and never shortens a surviving one |
| `LeakExclusion.ReportedBefore` | traceharbor-hprof-analyzer/lib/main/analyzer.cpp:132-182 | a leak reported with more matchers is reported with fewer, unless a class on a shortest chain to it then has no name |
| `LeakExclusion.ReportsNoShorter` | traceharbor-hprof-analyzer/lib/main/analyzer.cpp:132-182 | more matchers never shorten a report |
| `LeakExclusion.ExclusionCanAddReports` | traceharbor-hprof-analyzer/lib/main/analyzer.cpp:154-161 | for any class without a name and any class with one there is a heap of the shape the parser builds in which excluding a field adds a report, in every analysis |
| `LeakExclusion.ReportsOnlyShrinkIffNamed` | traceharbor-hprof-analyzer/lib/main/analyzer.cpp:154-161 | for heaps of the shape the parser builds: adding matchers never adds a report if and only if the classes that can stand on chains all have names or none has |
| `LeakExample.ReportAdded` | traceharbor-hprof-analyzer/lib/main/analyzer.cpp:154-161 | a well-formed dump on which nothing is reported without a matcher and an object is reported with one |
| `HprofBuilt.MeaningIsBuilt` | traceharbor-hprof-analyzer/lib/parser/engine.cpp:479-606 | of every dump's heap: fields imply a dumped class, field data and non-static references imply a class record, roots have types, and nothing is excluded yet |
| `Pipeline.AnalyzeBytes` | traceharbor-hprof-analyzer/lib/main/analyzer.cpp:122-129 | from the bytes of a well-formed dump to the reports: parse, pass and search compose, and the analysis fails only for the stated reasons |
| `Pipeline.ReportsAreRight` | traceharbor-hprof-analyzer/lib/main/analyzer.cpp:122-144 | the reports in terms of the dump alone: tracked objects at their distance along unexcluded references, and all that can be reached but for nameless classes |
| `RedundantIndex.RedundantIndexGroup.Try2AddToGroup` | traceharbor-sqlite-lint/src/checker/redundant_index_checker.cc:161-209 | a candidate joins if and only if its columns are a prefix of the main index's, and what it then changes |
| `RedundantIndex.MakeDistinctGroup` | traceharbor-sqlite-lint/src/checker/redundant_index_checker.cc:70-93 | the recursion over the rest computes all rounds |
| `RedundantIndex.GroupsPartition` | traceharbor-sqlite-lint/src/checker/redundant_index_checker.cc:70-93 | the groups hold every index exactly once, and every redundant one is a column prefix of its main one, whatever the uninitialised lock is |
| `RedundantIndex.MainsIncomparable` | traceharbor-sqlite-lint/src/checker/redundant_index_checker.cc:70-114 | on sorted input the main indexes are pairwise no prefixes of each other |
| `RedundantIndex.KeptIndexesAreFewest` | traceharbor-sqlite-lint/src/checker/redundant_index_checker.cc:70-114 | the main indexes serve all others and are contained in every choice of given indexes that does, so they are fewest |
| `RedundantIndex.GroupsPreferAuto` | traceharbor-sqlite-lint/src/checker/redundant_index_checker.cc:176-201 | in every group whose lock does not start set the main index is automatic whenever a member with the same columns is |
| `RedundantIndex.AutoWinsIffUnlocked` | traceharbor-sqlite-lint/src/checker/redundant_index_checker.cc:158-201 | for every starting lock and candidates: an automatic index wins if and only if the lock does not start set, or there is nothing to win |
| `RedundantIndex.AutoCanLose` | traceharbor-sqlite-lint/src/checker/redundant_index_checker.cc:158-201 | with the lock set from the start an automatic index loses against an equal one |
| `RedundantIndex.TiesGoToHighestNumber` | traceharbor-sqlite-lint/src/checker/redundant_index_checker.cc:106-114 | on sorted input the kept index has the highest number of those with its columns, unless an automatic index was preferred |
| `RedundantIndex.SortedMeans` | traceharbor-sqlite-lint/src/checker/redundant_index_checker.cc:106-114 | sorted by the comparison means: no index is followed by a longer one or by one as long with a larger number |
| `LruCache.LRUCache.Put` | traceharbor-sqlite-lint/src/comm/lru_cache.h:35-55 | list, map and stored iterators stay linked, and the cache becomes what the value-level step says, evicting the last key when it is too many |
| `LruCache.LRUCache.Get` | traceharbor-sqlite-lint/src/comm/lru_cache.h:57-68 | the value and the move to the front; nothing changes for a missing key |
| `LruCache.LRUCache.Clear` | traceharbor-sqlite-lint/src/comm/lru_cache.h:74-77 | empties both |
| `LruCache.CacheHoldsNewest` | traceharbor-sqlite-lint/src/comm/lru_cache.h:35-77 | after any calls the cache holds exactly the `max_size_` most recently touched distinct keys, latest first |
| `LruCache.CachedValueIsLastPut` | traceharbor-sqlite-lint/src/comm/lru_cache.h:35-77 | every cached value is the one put last |
| `LruCache.PositionIsCount` | traceharbor-sqlite-lint/src/comm/lru_cache.h:35-77 | a key stands behind exactly the distinct keys touched after it |
| `LruCache.NewestMeansRecent` | traceharbor-sqlite-lint/src/comm/lru_cache.h:35-77 | a key is among the newest n if and only if fewer than n distinct keys were touched since |
| `LruCache.CheckOne` | traceharbor-sqlite-lint/src/core/lint.cc:142-149 | one statement: the checkers run if and only if its key was not processed recently |
| `LruCache.CheckAll` | traceharbor-sqlite-lint/src/core/lint.cc:142-149 | over a run of statements, each known by its wildcard text or, without one, by its text, the checkers for unchecked SQL run exactly for those not among the 500 distinct ones processed last |
| `ContinuousScan.ScanCheck` | traceharbor-sqlite-lint/src/checker/prepared_statement_better_checker.cc:113-137 | the section is the earliest maximal run of at least three executions by the 32-bit gaps, or empty if there is none |
| `ContinuousScan.SectionUnique` | traceharbor-sqlite-lint/src/checker/prepared_statement_better_checker.cc:113-137 | there is only one such section |
| `ContinuousScan.FoundIffTriple` | traceharbor-sqlite-lint/src/checker/prepared_statement_better_checker.cc:113-137 | a section is found if and only if three executions follow each other closely |
| `ContinuousScan.HandleTheBoundary` | traceharbor-sqlite-lint/src/checker/prepared_statement_better_checker.cc:70-91 | the checked part is the last 30 entries and, before them, those less than 200 ms before the first |
| `ContinuousScan.MakeGroup` | traceharbor-sqlite-lint/src/checker/prepared_statement_better_checker.cc:93-111 | each bucket holds in order the unprepared executions with its key as wildcard text, or as text if they have none, and there is a bucket exactly for keys that have any |
| `ContinuousScan.Check` | traceharbor-sqlite-lint/src/checker/prepared_statement_better_checker.cc:29-67 | a section is reported for exactly the unlisted buckets that have one |
| `ContinuousScan.NothingIsMissed` | traceharbor-sqlite-lint/src/checker/prepared_statement_better_checker.cc:70-137 | with times in order, three close successive executions ending in the sample always give a section |
| `ContinuousScan.LookBackReaches` | traceharbor-sqlite-lint/src/checker/prepared_statement_better_checker.cc:78-90 | the look-back always includes the first of the three |
| `ContinuousScan.WrappedGapIsReported` | traceharbor-sqlite-lint/src/checker/prepared_statement_better_checker.cc:118-120 | executions weeks apart are reported when the gap cut to 32 bits is small |
| `ContinuousScan.ScansRightIffNoGapWraps` | traceharbor-sqlite-lint/src/checker/prepared_statement_better_checker.cc:118-120 | the section is right for the real gaps, whatever the bucket, if and only if no gap that can occur wraps |
| `ContinuousScan.WrapsExactly` | traceharbor-sqlite-lint/src/checker/prepared_statement_better_checker.cc:118-120 | which gaps wrap: from 2^31 ms on, by their remainder |
| `WildcardSql.LiteralsDoNotMatter` | traceharbor-sqlite-lint/src/core/sql_Info_processor.cc:91-97 | statements that differ only in the text of non-empty literals get the same wildcard SQL and the same flags |
| `WildcardSql.WildcardIsErasedText` | traceharbor-sqlite-lint/src/core/sql_Info_processor.cc:112-512 | printing with wildcards gives what printing the statement with its literals replaced gives without, through all mutual recursion and the `like_` state |
| `WildcardFlags.FlagsMean` | traceharbor-sqlite-lint/src/core/sql_Info_processor.cc:91-97 | prepared if and only if there is a variable or no literal; select-all if and only if there is a `*` column |
| `WildcardFlags.StatementMet` | traceharbor-sqlite-lint/src/core/sql_Info_processor.cc:400-512 | the flags and the star count grow by exactly what the statement contains |
| `WildcardReads.WildcardIsRead` | traceharbor-sqlite-lint/src/core/sql_Info_processor.cc:112-512 | cut by the scanner as the parser loop does, the wildcard text of a select, insert, replace, delete or update is the words of the statement in order, each with the type the scanner gives it and a question mark for every literal, if its texts are single tokens and no two parts of a node touch |
| `WildcardReads.ExprIsRead` | traceharbor-sqlite-lint/src/core/sql_Info_processor.cc:278-313 | an expression is read as its left operand, its operator, its right operand, its sub-select and its list, with parentheses round nested logic on the right |
| `WildcardReads.SelectReads` | traceharbor-sqlite-lint/src/core/sql_Info_processor.cc:180-222 | a select adds, to whatever was read before, its columns, tables and clauses in order |
| `WildcardReads.ItemsRead` | traceharbor-sqlite-lint/src/core/sql_Info_processor.cc:224-276 | a list adds its items with their names and the separator of the operator: comma, AND, the word of the LIKE and then ESCAPE, WHEN and THEN |
| `WildcardReads.SrcItemsRead` | traceharbor-sqlite-lint/src/core/sql_Info_processor.cc:315-375 | tables add name, sub-select, alias, join words with the next table's name, and condition |
| `WildcardReads.ColumnsReadIffPrinted` | traceharbor-sqlite-lint/src/core/sql_Info_processor.cc:400-470 | two columns under an operator are read as such if and only if the operator is printed; of a sum or a product only the two names run together are left |
| `WildcardReads.PartsWithoutSign` | traceharbor-sqlite-lint/src/core/sql_Info_processor.cc:278-313 | a node that prints nothing itself leaves its parts side by side, left before right |
| `WildcardReads.CompoundWithoutUnion` | traceharbor-sqlite-lint/src/core/sql_Info_processor.cc:182-187 | a compound select other than a union is the first and the second with nothing between |
| `WildcardReads.InnerLikeWins` | traceharbor-sqlite-lint/src/core/sql_Info_processor.cc:247-255 | the word of a LIKE inside the first operand replaces that of the outer one |
| `WildcardWords.WordsAreTheTokens` | traceharbor-sqlite-lint/src/lemon/tokenize.c:419-479 | the words of a text are the tokens the parser loop stores with their texts |
| `WildcardWords.NamesAreSolid` | traceharbor-sqlite-lint/src/lemon/tokenize.c:369-376 | a name is one word before white space, a comma, a dot or a parenthesis |
| `WildcardWords.QuotedIsSolid` | traceharbor-sqlite-lint/src/lemon/tokenize.c:234-254 | so is a text in quotes |
| `WildcardSql.ExprTwin` | traceharbor-sqlite-lint/src/core/sql_Info_processor.cc:278-313 | one expression printed with wildcards and its erased form printed without stay the same |
| `WildcardSql.SelectTwin` | traceharbor-sqlite-lint/src/core/sql_Info_processor.cc:180-222 | the same for a select |
| `WildcardSql.SqlInfoProcessor.ProcessExpr` | traceharbor-sqlite-lint/src/core/sql_Info_processor.cc:278-313 | appends what the printing function of the expression does and updates the flags; `WildcardReads.ExprIsRead` says what that text is |
| `WildcardSql.SqlInfoProcessor.ProcessExprList` | traceharbor-sqlite-lint/src/core/sql_Info_processor.cc:224-276 | the loop over the items with its changing operator and escape flag |
| `WildcardSql.SqlInfoProcessor.ProcessSelect` | traceharbor-sqlite-lint/src/core/sql_Info_processor.cc:180-222 | prints all clauses of a select in order |
| `WildcardSql.SqlInfoProcessor.ProcessSrcList` | traceharbor-sqlite-lint/src/core/sql_Info_processor.cc:315-375 | prints the tables, a join naming the next one |
| `WildcardSql.SqlInfoProcessor.ProcessToken` | traceharbor-sqlite-lint/src/core/sql_Info_processor.cc:400-512 | prints one node's symbol or text, a wildcard for a literal |
| `WildcardSql.SqlInfoProcessor.ProcessInsert` | traceharbor-sqlite-lint/src/core/sql_Info_processor.cc:112-136 | prints an insert or replace |
| `WildcardSql.SqlInfoProcessor.ProcessDelete` | traceharbor-sqlite-lint/src/core/sql_Info_processor.cc:139-155 | prints a delete |
| `WildcardSql.SqlInfoProcessor.ProcessUpdate` | traceharbor-sqlite-lint/src/core/sql_Info_processor.cc:158-178 | prints an update |
| `WildcardSql.SqlInfoProcessor.Process` | traceharbor-sqlite-lint/src/core/sql_Info_processor.cc:62-101 | refuses null objects and other statements, otherwise stores the flags and, if there was a literal, the wildcard SQL, whose words `WildcardReads.WildcardIsRead` gives |
| `Tokenizer.GetToken` | traceharbor-sqlite-lint/src/lemon/tokenize.c:122-380 | the scanner computes the type and length of the first token, reading no further than the terminator; what these are is stated by the rows of `TokenTable` |
| `TokenTable.OperatorsByLongestMatch` | traceharbor-sqlite-lint/src/lemon/tokenize.c:130-262 | operators by a table of texts and types: the token is the longest text of the table that the input begins with, unless it begins a comment or a number |
| `TokenTable.OthersAreIllegal` | traceharbor-sqlite-lint/src/lemon/tokenize.c:204-212 | a text that begins with none of them and with nothing else known is illegal: one character, two for `!` |
| `TokenTable.NumbersByLongestMatch` | traceharbor-sqlite-lint/src/lemon/tokenize.c:255-287 | a number is the longest prefix made of digits, an optional fraction and an optional complete exponent; it is an integer if and only if it is all digits |
| `TokenTable.VariableWithoutSuffix` | traceharbor-sqlite-lint/src/lemon/tokenize.c:309-347 | a variable is its mark and name characters and double colons as far as they go, illegal without a name character |
| `TokenTable.VariableWithSuffix` | traceharbor-sqlite-lint/src/lemon/tokenize.c:325-337 | a suffix in parentheses without white space belongs to it, and without its end the token is illegal |
| `TokenTable.NumberedVariable` | traceharbor-sqlite-lint/src/lemon/tokenize.c:293-305 | `?` and `#` take the digits after them |
| `TokenTable.BlobIsAStretch` | traceharbor-sqlite-lint/src/lemon/tokenize.c:349-365 | a blob is hexadecimal digits in quotes: legal if even or broken off by the end of the text, illegal if odd or at another character, and where it ends |
| `TokenTable.StringEndsAtDelimiter` | traceharbor-sqlite-lint/src/lemon/tokenize.c:234-254 | a string ends at its first delimiter that is not doubled, else it is illegal to the end |
| `TokenTable.NameIsAStretch` | traceharbor-sqlite-lint/src/lemon/tokenize.c:369-376 | a name or keyword is the longest stretch of name characters, looked up as a whole |
| `TokenTable.SpaceIsAStretch` | traceharbor-sqlite-lint/src/lemon/tokenize.c:125-129 | white space is as long as it can be |
| `TokenTable.BracketIsAStretch` | traceharbor-sqlite-lint/src/lemon/tokenize.c:288-292 | a bracketed name ends at the first closing bracket or with the text |
| `TokenTable.LineCommentIsAStretch` | traceharbor-sqlite-lint/src/lemon/tokenize.c:130-135 | a line comment ends before the newline |
| `TokenTable.BlockCommentEndsFirst` | traceharbor-sqlite-lint/src/lemon/tokenize.c:159-168 | a block comment ends at the first closing mark past its opening, else with the text |
| `Tokenizer.TokenFits` | traceharbor-sqlite-lint/src/lemon/tokenize.c:204-212 | no token is empty, and a token stays within the text if and only if the text is not a lone `!` |
| `Tokenizer.RunParser` | traceharbor-sqlite-lint/src/lemon/tokenize.c:419-479 | whatever stops the parser, the token list ends as all non-space tokens in order; the cursor passes the terminator if and only if cutting comes to a final `!` |
| `Tokenizer.LexemesAreTheText` | traceharbor-sqlite-lint/src/lemon/tokenize.c:419-479 | the tokens tile the text and concatenate to it if and only if cutting does not overrun, which no text without a final `!` does |
| `Tokenizer.BangExamples` | traceharbor-sqlite-lint/src/lemon/tokenize.c:204-212 | a final `!` overruns or not, depending on what is before it |
| `Tokenizer.SkipIsLongest` | traceharbor-sqlite-lint/src/lemon/tokenize.c:369-376 | an identifier, number or space is the longest stretch of its characters |
| `Tokenizer.BlockEndIsFirst` | traceharbor-sqlite-lint/src/lemon/tokenize.c:159-168 | a block comment ends at the first closing mark or at the end |
| `Tokenizer.ScanQuoted` | traceharbor-sqlite-lint/src/lemon/tokenize.c:234-254 | a quoted token ends at the first undoubled delimiter, else it is illegal up to the end |
| `Tokenizer.ScanNumber` | traceharbor-sqlite-lint/src/lemon/tokenize.c:255-287 | digits, fraction and exponent |
| `Tokenizer.ScanVariable` | traceharbor-sqlite-lint/src/lemon/tokenize.c:309-347 | names with `::` and a parenthesised suffix |
| `Tokenizer.ScanBlob` | traceharbor-sqlite-lint/src/lemon/tokenize.c:349-365 | hexadecimal literals, illegal when odd or broken off by another character |
| `Quoting.SqlEscape` | traceharbor-sqlite-lint/src/lemon/printf.c:599-629 | the buffer is filled exactly: the escaped text, then the terminator, in the size computed before |
| `Quoting.EscapeRoundTrip` | traceharbor-sqlite-lint/src/lemon/printf.c:599-629 | `%Q` of any string is exactly one string token if and only if no further quote follows, and taking the quotes off gives the string back |
| `Quoting.IdentLength` | traceharbor-sqlite-lint/src/lemon/build.c:1260-1266 | two more than the doubled identifier |
| `Quoting.IdentPut` | traceharbor-sqlite-lint/src/lemon/build.c:1272-1289 | writes the identifier and a terminator within that length and touches nothing else |
| `Quoting.IdentRoundTrip` | traceharbor-sqlite-lint/src/lemon/build.c:1272-1289 | the output for any non-empty identifier is exactly one token, an identifier or a string, and taking quotes off gives it back |
| `Quoting.PlainIsOneToken` | traceharbor-sqlite-lint/src/lemon/tokenize.c:369-376 | an identifier written without quotes stays one token before anything that cannot continue it |
| `Quoting.QuotedIsOneToken` | traceharbor-sqlite-lint/src/lemon/tokenize.c:234-254 | a quoted text is one token if and only if no further quote follows it |
| `Quoting.QuotedReadsBack` | traceharbor-sqlite-lint/src/lemon/util.c:854-879 | taking the quotes off a quoted text gives the text |
| `Quoting.Dequote` | traceharbor-sqlite-lint/src/lemon/util.c:854-879 | the in-place loop leaves the undoubled text, with the old tail showing through when the closing quote is missing |
| `Quoting.DequoteRightIffClosed` | traceharbor-sqlite-lint/src/lemon/util.c:854-879 | the result is what stands between the quotes if and only if the closing quote is there |
| `Quoting.DequoteRightIffString` | traceharbor-sqlite-lint/src/lemon/util.c:854-879 | for the scanner's three quotes: if and only if the scanner takes the text's beginning for a string |
| `Quoting.DequoteOpenText` | traceharbor-sqlite-lint/src/lemon/util.c:866-878 | a text without closing quote whose last letter is there twice afterwards |
| `LintQueue.EveryRunIsSafe` | traceharbor-sqlite-lint/src/core/lint.cc:63-89 | over every interleaving, taken items then the queue are the pushed items, one thread is inside, and the checker sleeps with work or exit pending only while the notifying thread still holds the mutex |
| `LintQueue.ApplyKeepsInv` | traceharbor-sqlite-lint/src/core/lint.cc:63-89 | every step of every thread keeps the invariant |
| `LintQueue.NothingTakenAfterExit` | traceharbor-sqlite-lint/src/core/lint.cc:73-82 | once the exit flag is set nothing more is taken |
| `LintQueue.CheckerStepsBounded` | traceharbor-sqlite-lint/src/core/lint.cc:237-246 | after that the checker takes at most four more steps |
| `LintQueue.CheckerCanMove` | traceharbor-sqlite-lint/src/core/lint.cc:70-89 | with an item or exit pending the checker can go on whenever the mutex is free, without a spurious wake-up |
| `LintQueue.HolderCanMove` | traceharbor-sqlite-lint/src/core/lint.cc:63-89 | whoever holds the mutex can go on |
| `LintQueue.ShutdownCompletes` | traceharbor-sqlite-lint/src/core/lint.cc:237-246 | when nothing can move any more after exit, the checker is done and joined |
| `Affinity.AffinityType` | traceharbor-sqlite-lint/src/lemon/build.c:986-1022 | the rolling-hash loop returns the affinity of the documented table: case-independent substrings with their priority |
| `Affinity.AnswerIsDocumented` | traceharbor-sqlite-lint/src/lemon/build.c:961-985 | what the loop finds by hashes is what the table says by substring search |
| `Affinity.HashFindsWord` | traceharbor-sqlite-lint/src/lemon/build.c:992-1003 | the 32-bit hash equals a word's code if and only if the text ends in the word |
| `Affinity.HashFindsWord3` | traceharbor-sqlite-lint/src/lemon/build.c:1015-1017 | the same for `int` and the low 24 bits |
| `Affinity.HashIsLastFour` | traceharbor-sqlite-lint/src/lemon/build.c:992-994 | the 32-bit value is made of exactly the last four characters in lower case |

## Left out

- Opening and closing files, deferred closes, `transferOwnership` and the probe for thread-overridable locks: commented out or dependent on code that is; handles start open at NO_LOCK.
- The error result of a failed release or downgrade, which the code says never happens; `FileLocks.ReleasesAreGrantable` proves that no conflicting lock can cause it.
- Reading, writing, syncing and mapping files, error listeners and process exit: I/O; a fatal exit is a failed result.
- HprofEngine.Engine.ParseOneRecord: a string record shorter than an id is taken as fatal; the code does not stop there, but lets the length wrap, moves the cursor back to the end of the record, stores a text of that wrapped length and goes on.
- HprofEngine.Engine.Parse: the same record, as part of the file.
- HprofEngine.Engine.ParseClassDump: does not model static-field matchers, which are taken empty, because their effect depends on the order of class dumps.
- HprofLazy.LazyPass.GcRootPass: the name of a thread, as a function of the heap at that moment, is a parameter, because decoding UTF-16 strings relies on a library.
- Memoised name lookups are taken as consistent, that is, all strings and classes are known before the first lookup; inheritance is taken as acyclic.
- HprofLazy.FlattenMembers: flattening of matchers is a specification function, since a name lookup is a search in maps.
- The order in which maps are iterated is arbitrary in the model; where the source iterates in key order, nothing stated depends on it.
- Sorting: any list that `SortIndex` calls sorted and that is a permutation of the input stands for the result of `std::sort`.
- The keyword table and the LEMON parser: generated; the table is a function parameter and the parser an arbitrary oracle that may stop at any token.
- Tokenizer.RunParser: allocation always succeeds, and what follows an overrun is not defined.
- LintQueue.EveryRunIsSafe: threads are step machines on values and not classes; null and reserved statements, which are never pushed, and the delayed initial check do not appear.
- WildcardSql.SqlInfoProcessor.Process: the parse before it is not modelled; the parsed statement is the argument, with the operator of a node's parent stored in the node.
- WildcardReads.WildcardIsRead: the converse is not stated for whole statements, because texts that touch may by chance still be cut where they should; for two columns it is (`WildcardReads.ColumnsReadIffPrinted`).
- Memory ownership of parse objects, checker registration, the manager, logging, MD5 ids, issue text and time formatting: plumbing.
- The white list itself, the auto-increment, select-all and rowid checkers, the query-plan checker, enum converters and the heap wrappers: single-branch facts.
- The EBCDIC tables, `os_win.c` and locale-dependent character classes: the ASCII build with the C locale is modelled.
