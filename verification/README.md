# Threads, buffers and numbers: a model in Dafny

This project models the code that the vendored MySQL 5.6.24 client headers, the pthreads-win32 2.9.1
header and the pthreads-win32 2.9.1 sources in this repository really contain, and proves what that
code is relied on for.

- **Cancellation cleanup** (`CleanupLanguage`, `CleanupCxx`, `CleanupSeh`, `CleanupC`).
  `pthread_cleanup_push/pop` has a C++, an SEH and a C expansion, and the header rewrites `catch` and
  `__except` so that a user handler cannot swallow cancellation. A small language of actions,
  exceptions, try blocks and cleanup blocks gets one semantics per expansion: destructors and
  one-phase dispatch, two-phase search and `__finally`, and instructions over a linked list of records
  with longjmp. Traces are judged by replaying them as stack operations, apart from the semantics.
- **Shared counters** (`SharedCounter`, `StatisticCounter`). `thread_safe_*` over the library's own
  normal-kind mutex, down to the exchanged lock word and the event, against the Interlocked form; and
  `statistic_*`, which locks nothing, with exactly what it can lose, for any programs of any threads.
  The locked macros are those of the builds that are not Windows, while the mutex is that of the
  Windows library; no one build has both. What is shown is that this mutex is enough for these macros.
- **The queue lock** (`McsLock`) with which pthreads-win32 guards its own state.
- **`skip_trailing_space`** (`SkipSpace`), word at a time, against the byte loop.
- **`IO_CACHE`** (`IoCache`), the inline fast paths over a slow path that is only known by contract.
- **Machine arithmetic**: byte codecs (`Bytes`, `ByteOrder`, `FloatOrder`), `timespec` (`Timespec`),
  `rint` (`Rint`), 64-bit to double conversions (`DoubleConversion`, `Rounding`) and `MY_ALIGN` (`Bits`).
  `CTypes` and `Division` hold casts and division facts.

Concurrent code is a state machine with one atomic action per step, and theorems range over every
schedule. State that the source updates in place is a class or an array, and its methods are proved
against the functions the theorems speak of.

`dafny verify dfyconfig.toml` checks the whole project.

## Where the code and its documentation disagree

- `libevent/include/pthread.h:55-61` says that leaving a cleanup block by `return` does not call the
  routine in a C++ build. The destructor does call it (`CleanupSeh.ReturnRunsCleanup`); only the C
  build does not (`CleanupC.ThreadMatchesCxx`).
- The SEH and C++ builds are not the same when a thread dies of an exception of its own: SEH unwinds
  nothing. `CleanupSeh.ThreadsAgree` gives the exact condition.
- `ptw32_MCS_lock.c:58-90` shows a node used for one acquisition after another. The releasing thread
  may be back before its successor has set the node's nextFlag, and the late flag then stands for a
  link that does not exist. `McsLock.AlwaysPassesIff` tells exactly when the code is right, by how often
  each thread acquires the lock, and `McsLock.RunKeepsInv` that it always is if threads wait for that
  flag.
- `set_timespec_time_nsec`, `MY_ALIGN`, `rint` on reals and the round trip through double hold under
  conditions; each member states them as an if-and-only-if.

## Model

| member | source | states |
|---|---|---|
| `CleanupCxx.RewriteKeepsUserDispatch` | libevent/include/pthread.h:1342-1344 | For every clause list and every exception that is not the library's: no clause takes it before the rewrite iff none does after, and clause i becomes clause 2i+1 with the same handler, itself rewritten |
| `CleanupCxx.UserDispatchMoves` | libevent/include/pthread.h:1336-1344 | The same for either compiler: clause i moves back by the guards put in front of it |
| `CleanupCxx.DispatchIsAtPosition` | libevent/include/pthread.h:1336-1344 | What a clause list does with an exception is what the clause at its position does, or to pass it on |
| `CleanupLanguage.PositionIsFirst` | libevent/include/pthread.h:1336-1344 | That position is the first clause that accepts |
| `CleanupCxx.RewriteLetsInternalThrough` | libevent/include/pthread.h:1342-1344 | Whatever the clause list, the first rewritten clause that takes a cancel or exit exception only rethrows it |
| `CleanupCxx.MsvcLetsThroughIff` | libevent/include/pthread.h:1309-1338 | With MSVC, where only PtW32CatchAll is rewritten, a list lets an internal exception through exactly when no plain catch that does more than rethrow takes it before the first PtW32CatchAll |
| `CleanupCxx.RewriteShields` | libevent/include/pthread.h:1342-1344 | Every try block of every rewritten program, at any depth and inside handlers too, lets both internal exceptions through |
| `CleanupCxx.RewriteShieldsClauses` | libevent/include/pthread.h:1342-1344 | The same for every handler of a rewritten clause list |
| `CleanupCxx.MsvcShieldsIff` | libevent/include/pthread.h:1309-1338 | With MSVC that holds of a program exactly when every clause list in it obeys the warning the header prints |
| `CleanupCxx.MsvcShieldsClausesIff` | libevent/include/pthread.h:1309-1338 | The same for the handlers of a clause list |
| `CleanupCxx.TraceNested` | libevent/include/pthread.h:801-868 | For every program and every way out of it, a trace read back as stack operations pops only the innermost open routine, and unless std::terminate was called nothing stays open |
| `CleanupCxx.DispatchNested` | libevent/include/pthread.h:801-868 | The same for the handlers of a clause list |
| `CleanupCxx.DispatchInternal` | libevent/include/pthread.h:1336-1344 | A list that lets an exception through passes it on and does nothing else |
| `CleanupCxx.CancelUnwinds` | libevent/include/pthread.h:801-868 | In every shielded program, wherever an internal exception is thrown, all that follows is that the routines open at that point run once each, innermost first, and the exception leaves the program |
| `CleanupCxx.DispatchUnwinds` | libevent/include/pthread.h:801-868 | The same for handlers that were entered with a user exception |
| `CleanupCxx.CancelReachesBoundary` | libevent/include/pthread.h:1303-1344 | The same for every program at all once its catch keyword is rewritten: no user handler can swallow cancellation |
| `CleanupCxx.RewriteKeepsMeaning` | libevent/include/pthread.h:1336-1344 | For either compiler, a program that throws no internal exception does the same rewritten as written: same actions, same cleanup calls, same outcome |
| `CleanupCxx.RewriteKeepsHandlers` | libevent/include/pthread.h:1336-1344 | The same for clause lists |
| `CleanupCxx.MsvcTouchesOnlyCatchAll` | libevent/include/pthread.h:1336-1338 | With MSVC a program without PtW32CatchAll is not changed at all |
| `CleanupCxx.ObedientAgree` | libevent/include/pthread.h:1309-1344 | A program that heeds the warning does the same whichever compiler it is rewritten for, cancellation included |
| `CleanupCxx.ObedientHandlersAgree` | libevent/include/pthread.h:1309-1344 | The same for clause lists |
| `CleanupCxx.NullIsNotCalled` | libevent/include/pthread.h:841-847 | In no run of any program is a null routine called |
| `CleanupCxx.TerminateLeavesOpen` | libevent/include/pthread.h:841-847 | std::terminate leaves the block it happens in open, and the blocks inside it that were |
| `CleanupCxx.FateIsOutcome` | libevent/include/pthread.h:801-868 | How control leaves a program, read off its text without traces, is how its run ends |
| `CleanupCxx.HandlerFateIsOutcome` | libevent/include/pthread.h:1336-1344 | The same for clause lists |
| `CleanupCxx.SilentIs` | libevent/include/pthread.h:1336-1344 | Whether code does anything that shows, and how it then ends, can be read off its text |
| `CleanupCxx.TakenIsWrong` | libevent/include/pthread.h:1311-1312 | If the promise is kept, a clause that took an internal exception did nothing but rethrow it |
| `CleanupCxx.UnwindsIff` | libevent/include/pthread.h:1309-1344 | For every program with any clauses, rewritten or not: cancellation unwinds as promised if and only if, wherever control goes, a clause that takes an internal exception silently rethrows it |
| `CleanupCxx.TryUnwindsIff` | libevent/include/pthread.h:1309-1344 | The same for a try block |
| `CleanupCxx.HandlerUnwindsIff` | libevent/include/pthread.h:1309-1344 | The same for the handler of a user exception |
| `CleanupCxx.MsvcCancelReachesBoundaryIff` | libevent/include/pthread.h:1309-1338 | So the exact condition with MSVC, where a plain catch stays as written |
| `CleanupCxx.MsvcCancelReachesBoundary` | libevent/include/pthread.h:1309-1338 | A condition to apply by eye: programs that heed the warning meet it |
| `CleanupCxx.PlainCatchSwallowsCancel` | libevent/include/pthread.h:1311-1312 | Without the rewrite a catch(...) swallows the cancellation and the thread runs on |
| `CleanupCxx.PThreadCleanup.constructor` | libevent/include/pthread.h:819-827 | The default object has no routine |
| `CleanupCxx.PThreadCleanup.Register` | libevent/include/pthread.h:829-839 | A registered routine is to be executed unless told otherwise |
| `CleanupCxx.PThreadCleanup.Destroy` | libevent/include/pthread.h:841-847 | The routine is called with its argument iff there is one and executeIt is not zero, and otherwise dropped |
| `CleanupCxx.PThreadCleanup.Execute` | libevent/include/pthread.h:849-852 | Sets executeIt and nothing else |
| `CleanupCxx.RunBlock` | libevent/include/pthread.h:861-868 | A push/pop block made of a guard object does what the big-step semantics of a block says, on every way out |
| `CleanupCxx.Run` | libevent/include/pthread.h:861-868 | The same for whole programs: same events, same outcome |
| `CleanupCxx.RunClauses` | libevent/include/pthread.h:1342-1344 | The same for clause lists |
| `CleanupSeh.SearchFindsInnermost` | libevent/include/pthread.h:1297-1299 | The first phase of a raise finds the innermost frame whose filter takes the exception, and none only if none does |
| `CleanupSeh.Agreement` | libevent/include/pthread.h:754-772 | For every program inside every stack of frames: the two-phase SEH build and the rewritten C++ build do the same with the same outcome, except that an exception nobody handles stops SEH at the raise while C++ still runs what is open |
| `CleanupSeh.TryAgreement` | libevent/include/pthread.h:1297-1299 | The same for a try block: the rewritten __except against the rewritten catch |
| `CleanupSeh.HandleAgreement` | libevent/include/pthread.h:1297-1299 | The same for the handler that is chosen |
| `CleanupSeh.DispatchNobody` | libevent/include/pthread.h:1342-1344 | An exception no written clause takes, no rewritten clause takes |
| `CleanupSeh.OpenIffInBlock` | libevent/include/pthread.h:754-772 | What an unhandled raise leaves open is told by the program text: something, exactly when the exception is thrown inside a block |
| `CleanupSeh.OpenIffInTry` | libevent/include/pthread.h:1297-1299 | The same for a try block |
| `CleanupSeh.OpenIffInHandler` | libevent/include/pthread.h:1297-1299 | The same for the handler that is chosen |
| `CleanupSeh.ThreadsAgree` | libevent/pthreads-w32-2-9-1-release/pthreads.2/ptw32_threadStart.c:179-313 | Every thread body ends in the same kind of end in both builds; the traces are equal if and only if the text does not end by a user exception thrown inside a block and taken by no clause outside it; if it does, the routines then open are exactly what the SEH build leaves out |
| `CleanupSeh.ThreadEndIs` | libevent/pthreads-w32-2-9-1-release/pthreads.2/ptw32_threadStart.c:179-313 | A thread is canceled, exits, completes or dies of an exception exactly as its text says, in both builds |
| `CleanupSeh.QuietFate` | libevent/include/pthread.h:1336-1344 | Code that throws no user exception of its own ends by none |
| `CleanupSeh.CaughtThreadsAgree` | libevent/pthreads-w32-2-9-1-release/pthreads.2/ptw32_threadStart.c:179-313 | Any body under clauses that take every user exception and throw none does the same in both builds |
| `CleanupSeh.UncaughtUserExceptionSkipsCleanup` | libevent/pthreads-w32-2-9-1-release/pthreads.2/ptw32_threadStart.c:68-80 | A concrete family of threads on which the builds differ |
| `CleanupSeh.ReturnRunsCleanup` | libevent/include/pthread.h:841-847 | Leaving a block by return calls the routine in both builds, whatever the argument of pop |
| `CleanupC.CompileCorrect` | libevent/include/pthread.h:782-790 | Code for any try-free program, in front of any other code and on top of any list of records: normal end leaves the list as found, cancellation runs the rest of it, return leaves the block's own records on it; in each case related to the C++ trace |
| `CleanupC.ReturnLeavesRecords` | libevent/include/pthread.h:782-790 | A return leaves records on the list exactly when the text has it inside a block |
| `CleanupC.LeftRecordsAreMissingCalls` | libevent/pthreads-w32-2-9-1-release/pthreads.2/ptw32_throw.c:135-138 | Every thread in C ends as in C++; the records it leaves are the calls the C++ build makes besides, and only a return leaves any |
| `CleanupC.ThreadMatchesCxx` | libevent/include/pthread.h:782-790 | Every thread in C does what the C++ build does if and only if the first throw or return that control comes to is not a return inside a cleanup block |
| `CleanupC.NullIsNotCalled` | libevent/pthreads-w32-2-9-1-release/pthreads.2/cleanup.c:80-91 | In no run of any code is a null routine called |
| `CleanupC.SeqMatches` | libevent/include/pthread.h:782-790 | Two pieces of code that match compose |
| `CleanupC.BlockMatches` | libevent/include/pthread.h:782-790 | A push, matching code and a pop match the block |
| `CleanupC.BlockReturns` | libevent/include/pthread.h:782-790 | A return through a block leaves its record on the list, above the older ones |
| `CleanupC.Thread.PushCleanup` | libevent/pthreads-w32-2-9-1-release/pthreads.2/cleanup.c:99-148 | The record becomes the head of the prev-linked list, in front of the old list, which is unchanged |
| `CleanupC.Thread.PopCleanup` | libevent/pthreads-w32-2-9-1-release/pthreads.2/cleanup.c:50-95 | The head is unlinked and returned, its routine called iff there is one and execute is not zero; an empty list is left alone |
| `CleanupC.Thread.PopCleanupAll` | libevent/pthreads-w32-2-9-1-release/pthreads.2/ptw32_throw.c:168-174 | Pops the whole list, last pushed first, one pop each |
| `CleanupC.LibraryThrow` | libevent/pthreads-w32-2-9-1-release/pthreads.2/ptw32_throw.c:135-138 | A cancel or exit calls every routine on the list, last pushed first, and empties it |
| `CleanupC.RunCode` | libevent/include/pthread.h:782-790 | Running code on the linked list does what the list-of-calls semantics says, and leaves its list |
| `SharedCounter.StepKeepsLockInv` | libevent/pthreads-w32-2-9-1-release/pthreads.2/pthread_mutex_lock.c:78-95 | Every atomic action keeps: at most one owner, and lock_idx is not zero exactly while there is one |
| `SharedCounter.StepKeepsWakeup` | libevent/pthreads-w32-2-9-1-release/pthreads.2/pthread_mutex_unlock.c:65-84 | Every atomic action keeps: if someone waits then the event is set, or lock_idx is negative, or some thread is about to mark lock_idx or to set the event |
| `SharedCounter.StepKeepsDataInv` | libevent/include/my_pthread.h:881-896 | Every atomic action keeps: what an owner has read is still in the counter |
| `SharedCounter.RunKeepsInv` | libevent/include/my_pthread.h:876-898 | All three hold in every reachable state, for any number of threads |
| `SharedCounter.NeverStuck` | libevent/pthreads-w32-2-9-1-release/pthreads.2/pthread_mutex_lock.c:78-95 | In every interleaving the mutex excludes, and until all work is done some thread can move |
| `SharedCounter.WakesAreSignalled` | libevent/pthreads-w32-2-9-1-release/pthreads.2/pthread_mutex_init.c:115-117 | In every interleaving the waits that have ended are no more than the calls of SetEvent made |
| `SharedCounter.ExchangeForgets` | libevent/pthreads-w32-2-9-1-release/pthreads.2/pthread_mutex_lock.c:80-86 | Every write of lock_idx is an exchange whose result does not depend on what it found |
| `SharedCounter.StoreRefines` | libevent/include/my_pthread.h:876-898 | A store by an owner is one Interlocked operation |
| `SharedCounter.OtherStepsAreInvisible` | libevent/include/my_pthread.h:876-898 | No other action shows in the counter or in the work left |
| `SharedCounter.StepRefines` | libevent/include/my_pthread.h:876-898 | Every action is one or the other |
| `SharedCounter.LockedRefinesInterlocked` | libevent/include/my_pthread.h:876-898 | Every interleaving of the locked form ends as the Interlocked form does when it runs the operations in the order of their stores |
| `SharedCounter.NoUpdateLost` | libevent/include/my_pthread.h:881-896 | In every interleaving the 32-bit counter is its first value plus the deltas of all stores made, and each thread has stored a prefix of its program, in order |
| `SharedCounter.CounterIs` | libevent/include/my_pthread.h:876-898 | In every interleaving the 32-bit counter is its first value plus the number of increments less the number of decrements plus what was added less what was subtracted, counted by kind over the stores made |
| `SharedCounter.InverseRestores` | libevent/include/my_pthread.h:878-891 | An increment and a decrement, or an addition and a subtraction of one amount, restore the counter, even if it wraps in between |
| `SharedCounter.OneOperation` | libevent/include/my_pthread.h:876-898 | Undisturbed, lock, load, store and unlock are one Interlocked operation and touch no event |
| `SharedCounter.InterlockedIsRealised` | libevent/include/my_pthread.h:876-898 | Every order of Interlocked operations is what some interleaving of the locked form does |
| `StatisticCounter.RacyValueIsExplained` | libevent/include/my_pthread.h:918-921 | In every interleaving, at 32 bits, the counter is its first value plus a chain of stored updates that ends with the last store, the thread of each store in it having made no other since the one before it in the chain; every value a thread has read was left in the same way |
| `StatisticCounter.RacyStoreIs` | libevent/include/my_pthread.h:918-921 | A store writes what was read plus one, less one, plus the amount or less the amount, and that is the update logged |
| `StatisticCounter.RunInOrder` | libevent/include/my_pthread.h:918-921 | In every interleaving the stores of each thread are its program in order |
| `StatisticCounter.AloneKeepsAll` | libevent/include/my_pthread.h:918-921 | One thread alone loses nothing |
| `StatisticCounter.RacyCounterBounds` | libevent/include/my_pthread.h:918-921 | A counter that is only added to, as long as the updates do not wrap, stays between its first value and the sum of all updates, and after a store is above its first value by at least the last update |
| `StatisticCounter.LoseBetween` | libevent/include/my_pthread.h:918-921 | A thread reads, any stores by others are made, and its own store undoes them |
| `StatisticCounter.Realise` | libevent/include/my_pthread.h:918-921 | Builds an interleaving that makes the stores up to the end of a chain and keeps just the chain |
| `StatisticCounter.EveryLossHappens` | libevent/include/my_pthread.h:908-910 | For any programs, any order of stores they allow and any chain of it, some interleaving makes these stores and keeps exactly the chain |
| `StatisticCounter.RacyRunsAre` | libevent/include/my_pthread.h:908-921 | Exactly: stores and a value come out of some interleaving if and only if the programs allow the order of the stores and the value is the sum of a chain of them |
| `McsLock.QuietStep` | libevent/pthreads-w32-2-9-1-release/pthreads.2/ptw32_MCS_lock.c:103-144 | Every flag operation keeps the invariant of the queue |
| `McsLock.StartStep` | libevent/pthreads-w32-2-9-1-release/pthreads.2/ptw32_MCS_lock.c:163-166 | Resetting a node whose flag nobody has still to set keeps it |
| `McsLock.EnqueueStep` | libevent/pthreads-w32-2-9-1-release/pthreads.2/ptw32_MCS_lock.c:169-170 | Exchanging the tail keeps it, with the thread last in the queue |
| `McsLock.FreeStep` | libevent/pthreads-w32-2-9-1-release/pthreads.2/ptw32_MCS_lock.c:199-211 | Freeing the lock keeps it, with the queue empty |
| `McsLock.PassStep` | libevent/pthreads-w32-2-9-1-release/pthreads.2/ptw32_MCS_lock.c:218-220 | Passing the lock keeps it, with the successor first in the queue |
| `McsLock.RunKeepsInv` | libevent/pthreads-w32-2-9-1-release/pthreads.2/ptw32_MCS_lock.c:158-220 | The invariant holds in every reachable state, for any number of threads that use their nodes again as often as they like, if none does so before its last successor has set its nextFlag |
| `McsLock.CarefulRunsWork` | libevent/pthreads-w32-2-9-1-release/pthreads.2/ptw32_MCS_lock.c:158-220 | In every such run the lock excludes, every release that has to pass it finds a successor, it is got in the order in which the tail was exchanged, and while any thread is in acquire or release some such thread can move |
| `McsLock.SetFlagNeedsNoEvent` | libevent/pthreads-w32-2-9-1-release/pthreads.2/ptw32_MCS_lock.c:117-144 | A flag that is already set is not waited for and no event is made |
| `McsLock.UncontendedUse` | libevent/pthreads-w32-2-9-1-release/pthreads.2/ptw32_MCS_lock.c:158-211 | A free lock is got and given up by one thread in four actions, and nothing but its own node was written |
| `McsLock.RestartTooEarlyFails` | libevent/pthreads-w32-2-9-1-release/pthreads.2/ptw32_MCS_lock.c:58-90 | If one thread acquires twice and the others together twice, the code, which does not wait for that flag, has a run in which a release has no successor to pass the lock to |
| `McsLock.OnceEachIsCareful` | libevent/pthreads-w32-2-9-1-release/pthreads.2/ptw32_MCS_lock.c:158-220 | If every node is used once, the invariant holds in every run of the code as it stands |
| `McsLock.TooEarly` | libevent/pthreads-w32-2-9-1-release/pthreads.2/ptw32_MCS_lock.c:163-166 | When only one other acquisition is made, coming back before the flag is set is as if the flag had been set first |
| `McsLock.MendedStep` | libevent/pthreads-w32-2-9-1-release/pthreads.2/ptw32_MCS_lock.c:103-144 | A thread that does not look at the late mark does the same with it and without it |
| `McsLock.LateStays` | libevent/pthreads-w32-2-9-1-release/pthreads.2/ptw32_MCS_lock.c:158-220 | From then on every step of the code is a step of the lock without the mark |
| `McsLock.PairRuns` | libevent/pthreads-w32-2-9-1-release/pthreads.2/ptw32_MCS_lock.c:158-220 | So in every run in which one thread acquires at will and the others together once |
| `McsLock.HarmlessRunsWork` | libevent/pthreads-w32-2-9-1-release/pthreads.2/ptw32_MCS_lock.c:158-220 | In every run of the code as it stands all that careful runs give holds, unless some thread acquires twice or more while the others together do so twice or more |
| `McsLock.AlwaysPassesIff` | libevent/pthreads-w32-2-9-1-release/pthreads.2/ptw32_MCS_lock.c:58-90 | And exactly unless: for any numbers of acquisitions per thread, all runs of the code find a successor whenever the lock has to be passed, if and only if no thread acquires twice or more while the others together do so twice or more |
| `SkipSpace.PlainTrims` | libevent/include/m_string.h:275-277 | The byte loop returns the one length behind which all is space and before which there is none |
| `SkipSpace.WordOfSpaces` | libevent/include/m_string.h:211-218 | A word of 4 or 8 bytes, in either byte order, equals SPACE_INT exactly when all its bytes are spaces |
| `SkipSpace.AlignIs` | libevent/include/m_string.h:260-263 | The two roundings give the nearest word boundaries below and above |
| `SkipSpace.GuardsAlwaysHold` | libevent/include/m_string.h:266-270 | For len > 20 both pointer guards are always true |
| `SkipSpace.WordBounds` | libevent/include/m_string.h:260-263 | start_words and end_words are aligned, inside the string, and in this order |
| `SkipSpace.IsSpaceWord` | libevent/include/m_string.h:271 | One word comparison, only ever made aligned and inside the string, and a byte that makes it fail |
| `SkipSpace.SkipAlignedWords` | libevent/include/m_string.h:271-272 | The word loop skips only spaces, stops less than a word above where the byte loop stops, and loads each word once |
| `SkipSpace.SkipWords` | libevent/include/m_string.h:258-274 | The same for the whole part for long strings, from any alignment |
| `SkipSpace.SkipTrailingSpace` | libevent/include/m_string.h:254-278 | For every content, length, alignment, word size and byte order: the result is the byte loop's, every load is inside the string, and for len > 20 there are at most len/w + 2w loads |
| `IoCache.StepDelivers` | libevent/include/my_sys.h:526-553 | A successful my_b_get, my_b_read or my_b_fill_cache on either path delivers the next bytes of the file, as many as asked, moves my_b_tell by that number and keeps the buffer a piece of the file; the function behind the pointer is called exactly for bytes not in the cache |
| `IoCache.RunDelivers` | libevent/include/my_sys.h:526-553 | Over every run of successful calls the bytes delivered are one contiguous piece of the file, from the first my_b_tell to the last |
| `IoCache.OneReadIsManyGets` | libevent/include/my_sys.h:526-541 | One my_b_read of n bytes delivers what n my_b_get calls do and leaves my_b_tell at the same place, wherever either refills |
| `IoCache.StepWrites` | libevent/include/my_sys.h:532-547 | A successful write on either path adds its bytes behind all others, keeps write_pos within write_end, and my_b_tell is the start plus the bytes written |
| `IoCache.RunWritesEverything` | libevent/include/my_sys.h:532-547 | Over every run of successful writes, flushed then buffered bytes are all bytes written, in order |
| `IoCache.ReadCache.MyBRead` | libevent/include/my_sys.h:526-530 | With enough between read_pos and read_end the bytes are copied, 0 returned and only read_pos moved, whatever a call would have done; otherwise all is as the call leaves it; on success the file's bytes either way |
| `IoCache.ReadCache.MyBGet` | libevent/include/my_sys.h:538-541 | With read_pos short of read_end the byte there, and only read_pos moved, whatever a call would have done; otherwise my_b_EOF exactly when the call fails; on success the file's next byte either way |
| `IoCache.EofIsLeastInt` | libevent/include/my_sys.h:524 | my_b_EOF is the least int, so no byte is mistaken for it |
| `IoCache.FillAsksForMore` | libevent/include/my_sys.h:549-550 | my_b_fill_cache asks for a refill of an emptied cache at the same place |
| `IoCache.ReadCache.MyBFillCache` | libevent/include/my_sys.h:549-550 | Calls read_function on the emptied cache, and refills without moving |
| `IoCache.WriteCache.MyBWrite` | libevent/include/my_sys.h:532-536 | With enough room before write_end the bytes are copied behind the others, 0 returned and nothing else changed; otherwise all is as the call leaves it; on success all bytes written in order and my_b_tell advanced |
| `IoCache.WriteCache.MyBWriteByte` | libevent/include/my_sys.h:543-547 | With room the byte is stored and nothing else changed; without, it is stored at write_pos whatever the unchecked flush did; after a flush that kept its contract the cache stays valid if and only if room was made |
| `GenericOrder.Uint2korr` | libevent/include/byte_order_generic.h:35-36 | The base-256 number of its bytes, lowest first: no cast loses anything |
| `GenericOrder.Uint3korr` | libevent/include/byte_order_generic.h:37-39 | The base-256 number of its bytes, lowest first: no cast loses anything |
| `GenericOrder.Uint4korr` | libevent/include/byte_order_generic.h:40-43 | The base-256 number of its bytes, lowest first: no cast loses anything |
| `GenericOrder.Uint5korr` | libevent/include/byte_order_generic.h:44-48 | The base-256 number of its bytes, lowest first: no cast loses anything |
| `GenericOrder.Uint6korr` | libevent/include/byte_order_generic.h:49-54 | The base-256 number of its bytes, lowest first: no cast loses anything |
| `GenericOrder.Uint8korr` | libevent/include/byte_order_generic.h:55-63 | The base-256 number of its bytes, lowest first: no cast loses anything |
| `GenericOrder.Sint2korr` | libevent/include/byte_order_generic.h:20-21 | The same number read as two's complement of its width |
| `GenericOrder.Sint3korr` | libevent/include/byte_order_generic.h:22-29 | The same number read as two's complement of its width, though the sign is copied into a fourth byte by an or |
| `GenericOrder.Sint4korr` | libevent/include/byte_order_generic.h:30-33 | The same number read as two's complement of its width |
| `GenericOrder.Sint8korr` | libevent/include/byte_order_generic.h:34 | The same number read as two's complement of its width |
| `GenericOrder.Int2store` | libevent/include/byte_order_generic.h:64-67 | Writes the low bytes of any value, negative ones included, and no other byte |
| `GenericOrder.Int3store` | libevent/include/byte_order_generic.h:68-72 | Writes the low bytes of any value, negative ones included, and no other byte |
| `GenericOrder.Int4store` | libevent/include/byte_order_generic.h:73-77 | Writes the low bytes of any value, negative ones included, and no other byte |
| `GenericOrder.Int5store` | libevent/include/byte_order_generic.h:78-83 | Writes the low bytes of any value, negative ones included, and no other byte |
| `GenericOrder.Int6store` | libevent/include/byte_order_generic.h:84-90 | Writes the low bytes of any value, negative ones included, and no other byte |
| `GenericOrder.Int8store` | libevent/include/byte_order_generic.h:91-95 | Writes the low bytes of any value, negative ones included, and no other byte |
| `X86Order.Uint3korr` | libevent/include/byte_order_generic_x86.h:39 | The masked four-byte load is the number of the first three bytes |
| `X86Order.Uint3korrAgrees` | libevent/include/byte_order_generic_x86.h:30-40 | It equals the generic reader and does not depend on the fourth byte |
| `X86Order.ReadersAgree` | libevent/include/byte_order_generic_x86.h:19-54 | At every offset of every buffer the native loads equal the generic readers, signed and unsigned |
| `X86Order.Int2store` | libevent/include/byte_order_generic_x86.h:56 | Same bytes as the generic writer |
| `X86Order.Int3store` | libevent/include/byte_order_generic_x86.h:57-60 | Same bytes as the generic writer, with its mixed casts |
| `X86Order.Int4store` | libevent/include/byte_order_generic_x86.h:61 | Same bytes as the generic writer |
| `X86Order.Int8store` | libevent/include/byte_order_generic_x86.h:75 | Same bytes as the generic writer |
| `Fields.StoreAll` | libevent/include/byte_order_generic.h:64-95 | Storing any list of fields back to back writes exactly their bytes and nothing around them |
| `Fields.FieldsReadBack` | libevent/include/byte_order_generic.h:20-95 | Any field of any record at any offset reads back modulo 256^width, and through the signed reader as itself if in range |
| `Fields.HeldReadsAs` | libevent/include/byte_order_generic.h:20-95 | The same for one field |
| `Fields.Int4net` | libevent/include/my_byteorder.h:24-27 | The four-byte signed reader on the reversed bytes |
| `FloatOrder.Float8store` | libevent/include/little_endian.h:24-51 | Every kind of host writes the same eight bytes for the same double, and no other byte; little-endian hosts write their own layout |
| `FloatOrder.TwoLongsStore` | libevent/include/byte_order_generic_x86.h:85-87 | Stores the layout as it is, as two longs |
| `FloatOrder.SwappedStore` | libevent/include/little_endian.h:28-36 | Stores the pattern from a layout with its words swapped |
| `FloatOrder.BigStore` | libevent/include/big_endian.h:31-38 | Stores the pattern from a big-endian layout |
| `FloatOrder.BigGet` | libevent/include/big_endian.h:40-49 | Reads the pattern into a big-endian layout |
| `FloatOrder.SwappedGet` | libevent/include/little_endian.h:37-46 | Reads the pattern into a layout with its words swapped |
| `FloatOrder.TwoLongsGet` | libevent/include/byte_order_generic_x86.h:76-84 | Reads the pattern as two longs |
| `FloatOrder.Float8get` | libevent/include/big_endian.h:40-49 | Every kind of host reads the pattern into its own layout |
| `FloatOrder.Exchange` | libevent/include/big_endian.h:31-49 | For every pair of hosts, what one stores the other reads back as the same double |
| `Timespec.PosixTime.SetTimeNsec` | libevent/include/my_pthread.h:437-442 | Always 0 <= nsec < 10^9; the total is conserved if and only if the sum of the ticks does not overflow, and otherwise is short by exactly 2^64 ticks |
| `Timespec.PosixIsNumeric` | libevent/include/my_pthread.h:464-480 | cmp_timespec is the numeric order of normal times, diff_timespec their difference modulo 2^64 |
| `Timespec.WindowsTime.SetTimeNsec` | libevent/include/my_pthread.h:107-110 | The result is the time rounded down to 100 ns if and only if NSEC survives its cast and the sum does not overflow; what it is otherwise is told too; max_timeout_msec is right if and only if it fits a long, and always modulo 2^32 |
| `Timespec.SetBoth` | libevent/include/my_pthread.h:107-110 | The two forms, called on the same arguments, stand for the same time |
| `Timespec.WindowsSets` | libevent/include/my_pthread.h:108 | The exact result of every overflow: short by 2^64 ticks, or NSEC less 2^64 rounded towards zero |
| `Timespec.WindowsCompares` | libevent/include/my_pthread.h:127-129 | cmp_timespec is 1, -1 or 0 exactly as the first time is later, earlier or the same |
| `Timespec.WindowsTellsApart` | libevent/include/my_pthread.h:127-132 | Times 100 ns or more apart compare as on POSIX, and the difference has the sign of the comparison while it is in range |
| `Timespec.WindowsRoundsPosix` | libevent/include/my_pthread.h:127-132 | The Windows order never contradicts the POSIX order, equal POSIX times are equal on Windows, and differences are off by less than 100 ns |
| `Rint.NearestEvenIsNearest` | libevent/include/my_global.h:1133-1139 | Reference: the only integer within one half, even if exactly one half away |
| `Rint.RintIsOdd` | libevent/include/my_global.h:1141-1158 | The code is an odd function on every real |
| `Rint.RintIsMonotone` | libevent/include/my_global.h:1141-1158 | It is monotone on every real |
| `Rint.RintIsIdempotent` | libevent/include/my_global.h:1141-1158 | It leaves integers alone |
| `Rint.RintIsNear` | libevent/include/my_global.h:1141-1158 | It never goes further than one half |
| `Rint.RintIsNearestEvenIff` | libevent/include/my_global.h:1131-1158 | It is round to nearest even if and only if the argument is not a tie beside an odd integer beyond 2^53 - 1 |
| `Rint.RintOfDouble` | libevent/include/my_global.h:1145-1148 | Which no double is: on every double it is round to nearest even |
| `Rint.Rint` | libevent/include/my_global.h:1141-1158 | The branches of the code compute that function |
| `DoubleConversion.FewBitsGaps` | libevent/include/my_global.h:678-685 | Integers of 53 significant bits leave a gap of 1024 below 2^63 and are multiples of 2048 above it |
| `DoubleConversion.BelowStaysBelow` | libevent/include/my_global.h:680-682 | The rounded difference from 2^63 keeps the sign of the true one |
| `DoubleConversion.AboveIsExact` | libevent/include/my_global.h:680-683 | From 2^63 to 2^64 that difference is not rounded at all |
| `DoubleConversion.Double2UlonglongIsFloor` | libevent/include/my_global.h:678-685 | On every double in [0, 2^64], for every IEEE-like rounding, the result is the floor, and 2^64 wraps to 0 |
| `DoubleConversion.ExactDouble2UlonglongIsFloor` | libevent/include/my_global.h:678-685 | Over exact reals the result is the floor of every real in [0, 2^64) |
| `DoubleConversion.Ulonglong2DoubleRange` | libevent/include/my_global.h:668-674 | The result is a double in [0, 2^64] for every rounding |
| `DoubleConversion.Ulonglong2DoubleIsMonotone` | libevent/include/my_global.h:668-674 | For every rounding the conversion is monotone |
| `DoubleConversion.Ulonglong2DoubleIsBetween` | libevent/include/my_global.h:668-674 | The result lies between any two doubles that the number lies between |
| `DoubleConversion.RoundedOnce` | libevent/include/my_global.h:668-674 | A number below 2^63, or whose cast to signed is a double, is rounded once |
| `Rounding.NotRoundedOnce` | libevent/include/my_global.h:673 | Others are rounded twice: 2^63 + 2047 with rounding towards zero becomes 2^63 + 2048 |
| `DoubleConversion.Ulonglong2DoubleIsExact` | libevent/include/my_global.h:668-674 | Every intermediate of a number with at most 53 significant bits is a double, and the result is the number |
| `DoubleConversion.RoundTripIff` | libevent/include/my_global.h:668-685 | For every 64-bit number and every rounding the round trip returns it if and only if it has at most 53 significant bits |
| `Rounding.TowardZeroIsRounding` | libevent/include/my_global.h:668-685 | There is a rounding that keeps the laws these results rely on: towards zero, binary64 with its subnormal numbers |
| `Bits.LowBit` | libevent/include/my_global.h:807 | A number shares no bit with its predecessor exactly when it is a power of two |
| `Bits.MyAlignClearsBits` | libevent/include/my_global.h:807 | For every L exactly the bits of L - 1 are taken out of A + L - 1 |
| `Bits.MyAlignRoundsUpIff` | libevent/include/my_global.h:807 | MY_ALIGN gives the least multiple of L not below A, for all A, if and only if L is a power of two |

## Left out

- libevent's event loop, evbuffer, bufferevent, evdns, evhttp and evrpc: only prototypes and comments are here.
- The rest of pthreads-win32: error-checking, recursive and robust mutexes, failing waits, condition variables, semaphores, barriers, read-write locks, keys and thread handles; `SharedCounter` and `McsLock` model the two locks the counters and the library itself stand on.
- ptw32_mcs_lock_try_acquire and ptw32_mcs_node_transfer, and one node serving several locks at once.
- Memory that is not sequentially consistent: every modelled action is atomic and in program order, and the auto-reset events do not fail.
- CleanupCxx.MsvcCancelReachesBoundary: one direction only, since a disobedient clause in code that is never reached does no harm; CleanupCxx.MsvcCancelReachesBoundaryIff gives the exact condition.
- CleanupSeh.ThreadsAgree: a thread that dies of its own exception counts as the same end in both builds; what the user's terminate function does then, and the exit status the C++ build substitutes, are not modelled.
- CleanupSeh.Agreement: asks that every block has a routine, because the SEH form calls it without a look; the C++ and C forms, which do look, are modelled with null routines.
- McsLock.CarefulRunsWork: of threads that wait for the flag, as RunKeepsInv; McsLock.HarmlessRunsWork and McsLock.AlwaysPassesIff are about the code as it stands.
- CleanupC.LibraryThrow: of threads made by the library; for others ptw32_throw ends the thread without a longjmp.
- Cleanup routines that throw, or that push and pop themselves; break, continue and goto out of a block; filters that are not pure or answer EXCEPTION_CONTINUE_EXECUTION; the exception specification of ptw32_throw.
- StatisticCounter.RacyCounterBounds: only as long as the updates together do not wrap, since a wrapped value has no order to bound.
- IoCache.ReadCache.MyBRead: a failing slow path is only known to have returned its code; what it left in the buffers is a parameter. The functions behind read_function, write_function, _my_b_get and _my_b_write are not part of this model, which holds them to a contract taken from the comments of the structure.
- IoCache.WriteCache.MyBWriteByte: asks that there is a byte at write_pos after the flush, because the macro stores without a check and C leaves a store outside the buffer undefined.
- SEQ_READ_APPEND caches, asynchronous and shared IO_CACHEs.
- SkipSpace.SkipTrailingSpace: addresses do not wrap around, and the debug assertion on the pointer is not needed.
- The x86_64 codec has no rows of its own: its readers and writers are those of the 32-bit one up to casts of the same width. The four-byte float macros and the machine-format get and store macros would only add easy members.
- X86Order.ReadersAgree: long has 32 bits, as on Windows.
- Rint.Rint: doubles are reals here, without NaN, infinities and the sign of zero.
- DoubleConversion.Double2UlonglongIsFloor: there is no greatest double, since nothing here comes near it; negative arguments, whose conversion C leaves undefined, are excluded.
- Bits.MyAlignRoundsUpIff: no wrap-around of A + L - 1.
- Key cache, MEM_ROOT, dynamic arrays, lists, decimals, character sets, XML, options, error tables and plugin macros: declarations without bodies, or data.
- The application code around these libraries, and all sockets, files and clocks.
