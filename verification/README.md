# Verified models of the concurrency and shell programs

This project models, in Dafny, the protocols and data structures at the core of a collection of
operating-systems programs written in C and C++, and proves what they are for.

Concurrent programs are state machines. A state holds the shared variables and where every thread
is (outside, asleep with or without a signal, holding, returned); a step is one stretch of code that
a thread runs under the mutex, from the lock or a wakeup to the next wait or unlock, and where the
code leaves the mutex or has none, single statements. `pthread_cond_signal` wakes one waiter that
the system chooses, or nobody; `broadcast` wakes all; spurious wakeups can happen at any time. The
number of threads, the buffer size, the ring size and the bounds are parameters. Each module pair
has a *Model* or theorem file about runs of the state machine and a *Program* file with a class
whose fields are the program's variables and whose methods, statement for statement the program's
critical sections, are proved to be steps of that state machine. The *Effects* files say what each
step does, and when it is possible, in the program's own terms and without the functions that
define it: who falls asleep, who is woken, what is logged and for whom. Sequential programs are classes or
methods over arrays and linked nodes, proved against functions on sequences, about which the
properties are then proved.

- `MasterWorker*.dfy`: masters push items on a bounded shared stack, workers take them in strict
  rotation, and each leaving worker passes the turn on. Deadlock freedom, termination, exactly-once
  delivery.
- `RwLock*.dfy`: the writer-preference and the reader-preference lock. Mutual exclusion, exact
  counters, no lost wakeup, writer preference over runs, starvation in the other lock and its exact
  condition, and draining of both.
- `FileTransfer*.dfy`: stop-and-wait over datagrams that may be lost, doubled and reordered. Safety,
  completeness, exactly when a session can still complete, and delivery over a lossless channel.
- `Dining*.dfy`: philosophers on a ring, where HUNGRY also stands for thinking. Exclusion, and no
  sleep without a cause, and exactly when forks go to one that has not asked.
- `Sieve.dfy`, `Goldbach*.dfy`: the sieve, the ten ranges, the counting threads.
- `JobList*.dfy`: the shell's doubly linked list of background jobs.
- `History*.dfy`: the ring of the last 20 commands, saved and loaded.
- `Pipeline.dfy`: the descriptors of a pipeline of n commands.
- `Tokens.dfy`, `Tokenizers.dfy`, `TokenizerLimits.dfy`: the two tokenizers, and exactly which lines
  one of them can handle.
- `Pool*.dfy`: the connection queues of the web server and the key-value server, and that
  they drain.
- `BitSender*.dfy`: bits sent as signals, acknowledged by signals.
- `Sums.dfy`, `ModArith.dfy`: sums over sequences and remainders, used by the others.

Check everything with `dafny verify dfyconfig.toml`.

## Where the code falls short of its purpose

Some properties one would expect are false of the code as written. The model keeps the code; for
each there is a lemma with a concrete failing case, and a theorem with the exact condition.

- Master-worker: without masters, or without buffer space, the threads never all return, unless
  there is nothing to do (`NobodyProduces`, `NoRoom`). `Termination` has the exact condition, `Healthy`.
- Reader-preference lock: a waiting writer can be overtaken by any number of readers
  (`ReadersCanStarveWriter`). It is signalled exactly when the last reader or a writer unlocks
  (`SleepsExactlyWhile`), and once the calls stop it gets through (`LockDrains`).
- File transfer: a short `write()` is answered with NAK, but the bytes it did write stay in the file
  (`ShortWriteCorrupts`). The file is the chunks if and only if this never happened (`Safety`,
  `TornExactlyWhen`).
- File transfer: the client answers a repeated chunk with NAK, so one lost ACK means that the server
  never completes (`AckCanBeLost`, `LostAckIsFatal`). `CompletesExactlyWhen` says exactly when a
  session can still complete, as a condition on its state and as a list of five fatal events.
- Dining philosophers: `put_forks` can feed a philosopher that is only thinking, and so block a
  hungry one with nobody at the table (`BlockedByAThinker`). `UnaskedExactlyWhen` is the guard of
  such a grant, `UnaskedSince` says when it stands, and `BlockedByThinkersExactlyWhen` when it alone
  blocks somebody.
- Pipeline: in a shell started with descriptor 0 or 1 closed a pipe takes its place and is closed
  again (`ClosedInputSpoils`); `ExecutePipeCommand` has the exact condition.
- Tokenizer of `temp.c`: long tokens and long lines are written past its buffers
  (`LongWordOverflows`); `Tokenize` has the exact condition, in words of the line.
- Bit sender: a signal that arrives between a test and the `pause` after it, or between `kill` and
  `canReceive = false`, leaves a process asleep for ever (`AckCanComeTooEarly`,
  `AckCanMissPause`, `LastBitCanMissPause`); `DeliveredExactlyWhen` has the exact condition.

The comment at the head of `prac/socket/file_transfer/s.c` describes the request as
`SEND filename size` (line 4); the code parses `SEND filename` (line 83). Neither is modelled.

## Model

| member | source | states |
|---|---|---|
| `MasterWorkerTheorems.Termination` | lab_threads/pthreads-sync-code/master-worker/master-worker.c:98-152 | Every run has a bounded number of steps (two more per spurious wakeup); a state has a step to take exactly when some thread is runnable; a state with none has all threads returned exactly in the healthy configurations (a master and buffer space, or nothing at all to do), and then every item was produced and consumed exactly once, item k of the log by worker k mod num_workers |
| `MasterWorkerTheorems.NoDeadlock` | lab_threads/pthreads-sync-code/master-worker/master-worker.c:35-95 | In a healthy configuration a reachable state with an unreturned thread has a runnable one |
| `MasterWorkerTheorems.DoneMeansHealthy` | lab_threads/pthreads-sync-code/master-worker/master-worker.c:35-95 | All threads can have returned only in a healthy configuration: the converse of NoDeadlock |
| `MasterWorkerTheorems.RunnableSteps` | lab_threads/pthreads-sync-code/master-worker/master-worker.c:35-95 | A thread that is awake always has a step to take; the steps never get stuck on a bound or an index |
| `MasterWorkerTheorems.NothingLost` | lab_threads/pthreads-sync-code/master-worker/master-worker.c:43-48 | At every moment of every run produced = consumed + buffered, and each number 0 .. item_to_produce-1 was produced exactly once |
| `MasterWorkerTheorems.DoneMeansDelivered` | lab_threads/pthreads-sync-code/master-worker/master-worker.c:43-92 | Once all threads have returned the consumed items are a permutation of 0 .. total_items-1, dealt in strict rotation |
| `MasterWorkerTheorems.TurnHolderPresent` | lab_threads/pthreads-sync-code/master-worker/master-worker.c:71-83 | While some worker is left, the worker whose turn it is has not returned |
| `MasterWorkerTheorems.NobodyLeft` | lab_threads/pthreads-sync-code/master-worker/master-worker.c:75-83 | When all workers have returned the buffer is empty and everything has been produced |
| `MasterWorkerTheorems.SleepingMasterIsCovered` | lab_threads/pthreads-sync-code/master-worker/master-worker.c:38-51 | With an empty buffer an unreturned master is awake or another one has been signalled |
| `MasterWorkerTheorems.StepMeasure` | lab_threads/pthreads-sync-code/master-worker/master-worker.c:35-95 | A weighted sum of unproduced items, buffered items and threads falls on every step that is not a spurious wakeup, which adds at most 1 |
| `MasterWorkerTheorems.StepKeeps` | lab_threads/pthreads-sync-code/master-worker/master-worker.c:35-95 | What a running thread may rely on: the invariant afterwards, and a smaller measure |
| `MasterWorkerTheorems.NobodyProduces` | lab_threads/pthreads-sync-code/master-worker/master-worker.c:64-84 | A concrete run with no master: the worker falls asleep waiting for an item, and nothing can run |
| `MasterWorkerTheorems.NoRoom` | lab_threads/pthreads-sync-code/master-worker/master-worker.c:38-41 | A concrete run with no buffer space: master and worker both fall asleep, and nothing can run |
| `MasterWorkerTheorems.RunMeasure` | lab_threads/pthreads-sync-code/master-worker/master-worker.c:35-95 | Steps taken plus measure left never exceed the bound computed from the four arguments plus two per spurious wakeup |
| `MasterWorkerProofs.StepInv` | lab_threads/pthreads-sync-code/master-worker/master-worker.c:35-95 | Every step of every thread keeps the whole invariant: shape, conservation, turn order and justified sleepers |
| `MasterWorkerProofs.RunInv` | lab_threads/pthreads-sync-code/master-worker/master-worker.c:98-139 | The invariant holds in every state of every run from the initial one |
| `MasterWorkerProofs.StepConserved` | lab_threads/pthreads-sync-code/master-worker/master-worker.c:43-48 | Producing and consuming keep the items conserved, as multisets, and produced in order 0, 1, 2, ... |
| `MasterWorkerProofs.StepTurnOrder` | lab_threads/pthreads-sync-code/master-worker/master-worker.c:71-92 | Consumed item k goes to worker k mod n, worker_turn counts items and exits, and the exited workers are exactly the cyclic block just before worker_turn |
| `MasterWorkerProofs.StepInTurn` | lab_threads/pthreads-sync-code/master-worker/master-worker.c:71-92 | worker_turn and the log of consumed items move in strict rotation, and nobody exits while an item is left |
| `MasterWorkerProofs.StepExitBlock` | lab_threads/pthreads-sync-code/master-worker/master-worker.c:77-83 | The exited workers stay exactly the cyclic block just before worker_turn |
| `MasterWorkerProofs.TurnOfIs` | lab_threads/pthreads-sync-code/master-worker/master-worker.c:79 | After k moves of the turn it is worker k mod n |
| `MasterWorkerProofs.StepExits` | lab_threads/pthreads-sync-code/master-worker/master-worker.c:77-83 | A step makes a worker return exactly when it leaves through the exit branch, and nobody comes back |
| `MasterWorkerProofs.StepMasters` | lab_threads/pthreads-sync-code/master-worker/master-worker.c:35-57 | An unsignalled master sleeps only if the buffer is full or another master is signalled; a master returns only when everything is produced |
| `MasterWorkerProofs.StepWorkers` | lab_threads/pthreads-sync-code/master-worker/master-worker.c:64-93 | An unsignalled worker sleeps only out of its turn, or in its turn with the buffer empty and items to come |
| `MasterWorkerProofs.NextTurnIs` | lab_threads/pthreads-sync-code/master-worker/master-worker.c:79 | The next worker on the ring is what the modular increment of worker_turn computes |
| `MasterWorkerEffects.ProducedByWhoRan` | lab_threads/pthreads-sync-code/master-worker/master-worker.c:43-47 | In any run whatever is logged as produced is logged for the master that ran, and is the next number, which goes on top of the buffer |
| `MasterWorkerEffects.ConsumedByWhoRan` | lab_threads/pthreads-sync-code/master-worker/master-worker.c:86-87 | In any run whatever is logged as consumed is logged for the worker that ran, and is the newest item in the buffer |
| `MasterWorkerEffects.MasterRuns` | lab_threads/pthreads-sync-code/master-worker/master-worker.c:38-52 | A master sleeps exactly if the buffer is full; otherwise all sleeping workers and one sleeping master are woken, and nobody else changes |
| `MasterWorkerEffects.MasterProduces` | lab_threads/pthreads-sync-code/master-worker/master-worker.c:43-48 | It produces exactly if there is room and an item is left, under its own number |
| `MasterWorkerEffects.MasterTests` | lab_threads/pthreads-sync-code/master-worker/master-worker.c:54-55 | Its exit test ends it exactly if everything has been produced, and changes nothing else |
| `MasterWorkerEffects.WorkerRuns` | lab_threads/pthreads-sync-code/master-worker/master-worker.c:71-92 | A worker sleeps exactly if out of turn or with nothing buffered and items to come, returns exactly if in turn with nothing buffered and none to come, and passes the turn and wakes all others exactly when it takes or returns |
| `MasterWorkerEffects.WorkerTakes` | lab_threads/pthreads-sync-code/master-worker/master-worker.c:86-91 | It takes the top item exactly if it is in turn and something is buffered, under its own number, and then wakes one master |
| `MasterWorkerEffects.CanRunExactlyWhen` | lab_threads/pthreads-sync-code/master-worker/master-worker.c:35-93 | Any thread at a lock or with a wakeup can run, any sleeper can wake spuriously, and no other |
| `MasterWorkerProgram.Program.constructor` | lab_threads/pthreads-sync-code/master-worker/master-worker.c:98-139 | The globals and threads as main sets them up are an initial state with the invariant |
| `MasterWorkerProgram.Program.GenerateRequests` | lab_threads/pthreads-sync-code/master-worker/master-worker.c:35-52 | One critical section of a master is the master step of the protocol, keeps the invariant and brings the measure down; the array write stays in bounds |
| `MasterWorkerProgram.Program.MasterSection` | lab_threads/pthreads-sync-code/master-worker/master-worker.c:38-52 | The code of that critical section is the master step, with no invariant assumed |
| `MasterWorkerProgram.Program.AppendItem` | lab_threads/pthreads-sync-code/master-worker/master-worker.c:43-48 | The next item goes behind the buffered ones, within the array |
| `MasterWorkerProgram.Program.TestForExit` | lab_threads/pthreads-sync-code/master-worker/master-worker.c:54-55 | The unlocked exit test is the test step of the protocol and brings the measure down |
| `MasterWorkerProgram.Program.SignalMaster` | lab_threads/pthreads-sync-code/master-worker/master-worker.c:51 | Wakes one unsignalled master of the system's choice, or nobody if there is none |
| `MasterWorkerProgram.Program.TakeItem` | lab_threads/pthreads-sync-code/master-worker/master-worker.c:86-91 | Takes the newest item, moves the turn on, signals a master and wakes all workers |
| `MasterWorkerProgram.Program.PassTurn` | lab_threads/pthreads-sync-code/master-worker/master-worker.c:79 | The modular increment passes the turn to the next worker |
| `MasterWorkerProgram.Program.WorkerSection` | lab_threads/pthreads-sync-code/master-worker/master-worker.c:71-92 | The code of the worker's critical section is the worker step, with only the turn in range assumed |
| `MasterWorkerProgram.Program.WakeSpuriously` | lab_threads/pthreads-sync-code/master-worker/master-worker.c:38-41 | A wakeup without a signal keeps the invariant and adds at most 1 to the measure |
| `MasterWorkerProgram.Program.ConsumeItem` | lab_threads/pthreads-sync-code/master-worker/master-worker.c:68-93 | One critical section of a worker is the worker step of the protocol, keeps the invariant and brings the measure down |
| `MasterWorkerProgram.Program.RunOne` | lab_threads/pthreads-sync-code/master-worker/master-worker.c:122-139 | Runs some runnable thread and brings the measure down, or reports truly that none is runnable |
| `MasterWorkerProgram.Program.JoinAll` | lab_threads/pthreads-sync-code/master-worker/master-worker.c:141-152 | In a healthy configuration running the threads in any order, with any finite number of spurious wakeups anywhere between, ends with all returned and everything delivered exactly once in turn |
| `RwLockProofs.MutualExclusion` | lab_threads/pthreads-sync-code/rwlock/rwlock-writer-pref.cpp:15-57 | In every state of every run of either lock a writing thread excludes every other writer and every reader |
| `RwLockProofs.NoLostWakeup` | lab_threads/pthreads-sync-code/rwlock/rwlock-writer-pref.cpp:15-57 | While a thread sleeps unsignalled some thread holds the lock or a signalled writer can take it at once; with reader preference an unsignalled reader sleeps only while a writer writes |
| `RwLockProofs.WriterPreference` | lab_threads/pthreads-sync-code/rwlock/rwlock-writer-pref.cpp:19-21 | On any stretch of a run with writer_count positive, whoever reads at the end was reading at the start, and reader_count has not risen |
| `RwLockProofs.WaitingWriterNotOvertaken` | lab_threads/pthreads-sync-code/rwlock/rwlock-writer-pref.cpp:39-53 | No reader that comes after a waiting or writing writer gets in before that writer is through |
| `RwLockProofs.NoReaderEnters` | lab_threads/pthreads-sync-code/rwlock/rwlock-writer-pref.cpp:19-21 | One step with writer_count positive adds no reader |
| `RwLockProofs.ReadersCanStarveWriter` | lab_threads/pthreads-sync-code/rwlock/rwlock-reader-pref.cpp:15-43 | For every n the reader-preference lock has a run in which a writer stays asleep while n readers enter: the preference theorem is false of this lock; RwLockProgress.SleepsExactlyWhile has the exact condition |
| `RwLockProofs.SleeperHasCause` | lab_threads/pthreads-sync-code/rwlock/rwlock-writer-pref.cpp:15-57 | The invariant form of NoLostWakeup: an unsignalled sleeper means a holder or a signalled writer that can enter |
| `RwLockProgress.SleepsExactlyWhile` | lab_threads/pthreads-sync-code/rwlock/rwlock-reader-pref.cpp:25-54 | The exact condition of the starvation: a writer that never sleeps beside another unsignalled one sleeps on exactly as long as no last reader unlocks, no writer unlocks and it is not woken spuriously |
| `RwLockProgress.SignalledExactlyWhen` | lab_threads/pthreads-sync-code/rwlock/rwlock-reader-pref.cpp:25-54 | While writers sleep, a step signals one exactly if it is the last reader's unlock, a writer's unlock or a spurious wakeup of one, in either lock |
| `RwLockProgress.SoleSleeperWakes` | lab_threads/pthreads-sync-code/rwlock/rwlock-reader-pref.cpp:35-43 | One step signals the only sleeping writer exactly in those cases, and leaves it asleep in all others |
| `RwLockProgress.LockDrains` | lab_threads/pthreads-sync-code/rwlock/rwlock-writer-pref.cpp:15-57 | Both locks drain: with no new call every run from any invariant state is bounded, and where it can stop every thread is out and the lock is as initialized |
| `RwLockProgress.GoesOnExactlyWhen` | lab_threads/pthreads-sync-code/rwlock/rwlock-writer-pref.cpp:15-57 | Without a new call some thread can run exactly if some thread is not idle |
| `RwLockProgress.DrainStep` | lab_threads/pthreads-sync-code/rwlock/rwlock-writer-pref.cpp:15-57 | Without a new call every step but a spurious wakeup brings the threads nearer to being through |
| `RwLockProofs.StepInv` | lab_threads/pthreads-sync-code/rwlock/rwlock-writer-pref.cpp:15-57 | Every step, spurious wakeups included, keeps the counters exact and the sleepers justified, for both locks |
| `RwLockProofs.RunInv` | lab_threads/pthreads-sync-code/rwlock/rwlock-writer-pref.cpp:4-57 | The invariant holds in every state of every run from an initialized lock |
| `RwLockProofs.StepCounters` | lab_threads/pthreads-sync-code/rwlock/rwlock-writer-pref.cpp:21-51 | reader_count is the number of readers inside, writer_count the number of writers waiting or writing (always 0 with reader preference), writer_writing says whether one writes |
| `RwLockProofs.LockSleepers` | lab_threads/pthreads-sync-code/rwlock/rwlock-reader-pref.cpp:15-43 | Locking and retrying leave no unsignalled sleeper without a cause |
| `RwLockProofs.UnlockSleepers` | lab_threads/pthreads-sync-code/rwlock/rwlock-reader-pref.cpp:25-54 | The signal or broadcast of each unlock covers every thread the unlock could have left asleep, even when woken readers come in before the signalled writer |
| `RwLockEffects.WriterEntersExactlyWhen` | lab_threads/pthreads-sync-code/rwlock/rwlock-writer-pref.cpp:39-42 | A writer that calls or is woken gets in exactly if nobody reads or writes, whoever else waits; else it sleeps |
| `RwLockEffects.ReaderEntersExactlyWhen` | lab_threads/pthreads-sync-code/rwlock/rwlock-writer-pref.cpp:19-21 | A reader gets in exactly if no writer writes and, with writer preference, none is counted; else it sleeps |
| `RwLockEffects.UnlockWakesReadersExactlyWhen` | lab_threads/pthreads-sync-code/rwlock/rwlock-writer-pref.cpp:46-56 | A sleeping reader is woken by an unlock exactly if a writer leaves and, with writer preference, no other writer is counted |
| `RwLockEffects.UnlockWakesOneWriter` | lab_threads/pthreads-sync-code/rwlock/rwlock-writer-pref.cpp:30-31 | No unlock wakes two writers |
| `RwLockEffects.UnlockLeaves` | lab_threads/pthreads-sync-code/rwlock/rwlock-writer-pref.cpp:25-51 | An unlock takes its thread out and one off the counts |
| `RwLockEffects.EnabledExactlyWhen` | lab_threads/pthreads-sync-code/rwlock/rwlock-reader-pref.cpp:15-54 | Every idle thread can call, every holder unlock, every woken thread retry and every sleeper wake spuriously, in any state |
| `RwLockPrograms.LockState.constructor` | lab_threads/pthreads-sync-code/rwlock/rwlock-writer-pref.cpp:4-13 | A fresh lock with nobody in it |
| `RwLockPrograms.LockState.SignalCanWrite` | lab_threads/pthreads-sync-code/rwlock/rwlock-writer-pref.cpp:31 | Wakes one unsignalled waiting writer of the system's choice, or nobody |
| `RwLockPrograms.WriterPreferenceLock.ReaderLock` | lab_threads/pthreads-sync-code/rwlock/rwlock-writer-pref.cpp:15-23 | One pass of the reader's loop is the protocol's step and keeps the invariant |
| `RwLockPrograms.WriterPreferenceLock.ReaderUnlock` | lab_threads/pthreads-sync-code/rwlock/rwlock-writer-pref.cpp:25-33 | The last reader signals a writer; a protocol step that keeps the invariant |
| `RwLockPrograms.WriterPreferenceLock.WriterLock` | lab_threads/pthreads-sync-code/rwlock/rwlock-writer-pref.cpp:35-44 | The writer announces itself and waits or writes; a protocol step that keeps the invariant |
| `RwLockPrograms.WriterPreferenceLock.WaitOrWrite` | lab_threads/pthreads-sync-code/rwlock/rwlock-writer-pref.cpp:40-42 | One test of the writer's loop: asleep while there are readers or a writer, else writing |
| `RwLockPrograms.WriterPreferenceLock.WriterWake` | lab_threads/pthreads-sync-code/rwlock/rwlock-writer-pref.cpp:40-42 | A woken writer tests again; a protocol step that keeps the invariant |
| `RwLockPrograms.WriterPreferenceLock.WriterUnlock` | lab_threads/pthreads-sync-code/rwlock/rwlock-writer-pref.cpp:46-57 | Broadcast to readers if no writer is left, else signal one writer; a protocol step that keeps the invariant |
| `RwLockPrograms.ReaderPreferenceLock.ReaderLock` | lab_threads/pthreads-sync-code/rwlock/rwlock-reader-pref.cpp:15-23 | One pass of the reader's loop, which only a writing thread blocks; a protocol step that keeps the invariant |
| `RwLockPrograms.ReaderPreferenceLock.ReaderUnlock` | lab_threads/pthreads-sync-code/rwlock/rwlock-reader-pref.cpp:25-33 | The last reader signals a writer; a protocol step that keeps the invariant |
| `RwLockPrograms.ReaderPreferenceLock.WriterLock` | lab_nw/kv-server-pool-rwlock/rwlock.c:33-41 | One pass of the writer's loop, on entry and after a wakeup; a protocol step that keeps the invariant |
| `RwLockPrograms.ReaderPreferenceLock.WriterUnlock` | lab_nw/kv-server-pool-rwlock/rwlock.c:43-51 | Broadcast to readers, then a signal to a writer if no reader is inside; a protocol step that keeps the invariant |
| `FileTransferProofs.Safety` | prac/socket/file_transfer/c.c:105-156 | Under loss, duplication and reordering: seq_num <= expected_seq <= seq_num + 1, no number is ACKed twice, and the client's file is chunks 0 .. expected_seq-1 if and only if no write came up short |
| `FileTransferProofs.TornExactlyWhen` | prac/socket/file_transfer/c.c:129-137 | Bytes are left over in the file exactly when some write() stored part but not all of an expected chunk |
| `FileTransferProofs.Completeness` | prac/socket/file_transfer/s.c:122-195 | A server that ends with the whole size counted has a client with the whole file; one that gives up leaves the client with a prefix, level with total_sent or one chunk ahead |
| `FileTransferProofs.LostAckIsFatal` | prac/socket/file_transfer/c.c:146-152 | Once the ACK of an accepted chunk is lost the server never counts anything more, so it never ends with the whole file counted |
| `FileTransferFinish.CompletesExactlyWhen` | prac/socket/file_transfer/s.c:122-188 | At every moment of every session a continuation in which the server counts the whole file exists if and only if it is in its loop with a try left, its ACK is not lost and the client has not stopped short; equivalently, if and only if none of five fatal events happened while the file was not counted |
| `FileTransferFinish.CanFinishExactlyWhen` | prac/socket/file_transfer/s.c:122-188 | That state condition holds in a run exactly if no fatal event came before the file was counted |
| `FileTransferFinish.SpoiledExactlyWhen` | prac/socket/file_transfer/s.c:125-184 | One step spoils a session exactly if it loses the awaited ACK, is the last timeout, a failing select, a read that returns nothing, or a failing recvfrom in the client |
| `FileTransferFinish.SpoiledForever` | prac/socket/file_transfer/c.c:105-156 | No step repairs a spoiled session |
| `FileTransferFinish.FindCompletion` | prac/socket/file_transfer/s.c:122-188 | From every state that can complete, a continuation that completes |
| `FileTransferFinish.SpoiledLeadsNowhere` | prac/socket/file_transfer/s.c:122-188 | From a spoiled state no continuation completes |
| `FileTransferFinish.LostAckSpoils` | prac/socket/file_transfer/c.c:146-152 | In particular no continuation of a session with a lost ACK completes |
| `FileTransferFinish.RunLive` | prac/socket/file_transfer/s.c:135 | The server waits for an answer only while it has a try left |
| `FileTransferProofs.StepAckLost` | prac/socket/file_transfer/c.c:146-152 | No step makes a lost ACK good |
| `FileTransferProofs.AckCanBeLost` | prac/socket/file_transfer/c.c:154-155 | A concrete run in which the client has the whole file and the server can never know it |
| `FileTransferProofs.ShortWriteCorrupts` | prac/socket/file_transfer/c.c:133-137 | A concrete run in which a short write followed by the resend leaves the finished client with a different file |
| `FileTransferProofs.StepInv` | prac/socket/file_transfer/s.c:122-188 | Every step of server, client and channel keeps the invariant that ties both ends and everything in flight together |
| `FileTransferProofs.RunInv` | prac/socket/file_transfer/s.c:117-188 | The invariant holds in every state of every session |
| `FileTransferProofs.ReceiveKeeps` | prac/socket/file_transfer/c.c:105-156 | Receiving any packet still in the channel, with any outcome of write(), keeps the invariant |
| `FileTransferProofs.SelectKeeps` | prac/socket/file_transfer/s.c:151-187 | Any outcome of select() and recvfrom(), with any acknowledgement in the channel, keeps the invariant |
| `FileTransferProofs.ReadKeeps` | prac/socket/file_transfer/s.c:122-129 | Reading the next chunk keeps the invariant, short reads included |
| `FileTransferEffects.EndsWithMarker` | prac/socket/file_transfer/s.c:192-196 | However the server ends, the packet with number -1 and the bytes EOF goes on the channel, and nothing else |
| `FileTransferEffects.MarkerFinishesClient` | prac/socket/file_transfer/c.c:117-122 | An unfinished client of a server that has ended can receive the marker and stop, unless the marker was lost |
| `FileTransferEffects.MarkerIsSent` | prac/socket/file_transfer/s.c:192-196 | In any run, once the server has ended the marker is on the channel unless it was lost |
| `FileTransferEffects.MarkerStopsClient` | prac/socket/file_transfer/c.c:117-122 | The marker stops the client, is not answered and leaves the file as it is |
| `FileTransferEffects.RetriesAreTimeouts` | prac/socket/file_transfer/s.c:132-172 | In any run retry_count is the number of timeouts since the chunk was read: nothing resets it, no NAK raises it |
| `FileTransferEffects.GivesUpExactlyWhen` | prac/socket/file_transfer/s.c:135 | The retry loop gives up exactly after three timeouts on one chunk |
| `FileTransferEffects.ReadExactly` | prac/socket/file_transfer/s.c:122-133 | The server goes on exactly while there is something uncounted and read() returns bytes, at most 508; else it ends with the marker |
| `FileTransferEffects.SendExactly` | prac/socket/file_transfer/s.c:135-138 | A try sends the current chunk under the current number; after three timeouts the marker goes out instead |
| `FileTransferEffects.SelectExactly` | prac/socket/file_transfer/s.c:151-187 | Only the ACK of the current number counts the chunk, only a timeout counts as a try, only a failing select ends the loop |
| `FileTransferEffects.ReceiveExactly` | prac/socket/file_transfer/c.c:105-156 | What the client stores of a packet, what it counts, and its answer: an ACK exactly for a counted chunk |
| `FileTransferEffects.ReceivesExactlyWhile` | prac/socket/file_transfer/c.c:105 | The client takes any packet on the channel exactly while it is not stopped and bytes are missing |
| `FileTransferEffects.ChannelExactly` | prac/socket/file_transfer/s.c:138 | Any datagram on the channel may be lost, or delivered any number of times in any order |
| `FileTransferEffects.CallsExactly` | prac/socket/file_transfer/s.c:125 | read() may return any count up to 508 and what is left of the file |
| `FileTransferEffects.FailuresExactly` | prac/socket/file_transfer/s.c:151-176 | Any select may time out or fail, and any recvfrom may fail, at either end |
| `FileTransferLossless.LosslessSessionDelivers` | prac/socket/file_transfer/s.c:122-195 | Over a lossless channel in order, with no timeout and no failing call, a session takes at most 4 steps a byte and 3 more, can go on until the server has ended, and then the client is finished with the whole file |
| `FileTransferLossless.LosslessIsARun` | prac/socket/file_transfer/s.c:135-178 | The lossless session is a run of the general one, so the safety results apply to it |
| `FileTransferLossless.FifoStepInv` | prac/socket/file_transfer/s.c:135-178 | Between the two programs there is at most one datagram, of the kind the server's position calls for |
| `FileTransferLossless.FifoProgress` | prac/socket/file_transfer/s.c:122-188 | Until the server has ended one of the two programs has a step to take |
| `FileTransferLossless.FifoStepMeasure` | prac/socket/file_transfer/s.c:135-188 | Every step of the lossless session brings the measure down |
| `FileTransferPrograms.FileServer.ReadChunk` | prac/socket/file_transfer/s.c:122-133 | The outer loop's test and read(): the next chunk to send with retries reset, or the end-of-file marker |
| `FileTransferPrograms.FileServer.SendPacket` | prac/socket/file_transfer/s.c:135-138 | The retry loop's test and send: the current chunk under seq_num, or the marker after MAX_RETRIES timeouts |
| `FileTransferPrograms.FileServer.AwaitAck` | prac/socket/file_transfer/s.c:151-187 | Only a matching ACK advances the server, only a timeout counts as a retry, only a failing select gives up |
| `FileTransferPrograms.FileServer.SendEof` | prac/socket/file_transfer/s.c:192-196 | The marker has sequence number -1 and the three bytes EOF |
| `FileTransferPrograms.FileClient.ReceivePacket` | prac/socket/file_transfer/c.c:105-156 | An expected chunk written in full is counted and ACKed, everything else but the marker gets a NAK, and the marker stops the client |
| `Dining.NeighboursExclude` | prac/threads/dining_philosopher.c:15-45 | In no reachable state are two neighbours EATING, or both past take_forks, on a ring of any size from 2 |
| `Dining.BlockedHasCause` | prac/threads/dining_philosopher.c:24-34 | A philosopher asleep with no signal under way has an EATING neighbour, which is not itself blocked |
| `Dining.NotAllBlocked` | prac/threads/dining_philosopher.c:15-45 | Some philosopher is not blocked in every reachable state |
| `Dining.GrantsPersist` | prac/threads/dining_philosopher.c:15-45 | Granted forks stay granted until their holder puts them down, whoever steps |
| `Dining.PutFeedsNeighbour` | prac/threads/dining_philosopher.c:35-45 | put_forks feeds and wakes a blocked neighbour whose other neighbour is not EATING; the only exception is the right neighbour on a ring of three, when the left one was served first |
| `Dining.BlockedByAThinker` | prac/threads/dining_philosopher.c:35-45 | A run of the five philosophers in which one is blocked although nobody is past take_forks: put_forks fed a philosopher that was only thinking |
| `DiningGrants.BlockedByThinkersExactlyWhen` | prac/threads/dining_philosopher.c:24-45 | In any run a blocked philosopher has nobody at the table beside it exactly if every EATING neighbour was served by a put_forks while thinking and has not asked since |
| `DiningGrants.UnaskedSince` | prac/threads/dining_philosopher.c:35-45 | In any run a philosopher is EATING without having asked exactly since a put_forks served it while it was thinking |
| `DiningGrants.UnaskedExactlyWhen` | prac/threads/dining_philosopher.c:35-45 | One step, one philosopher: the unasked grant appears exactly with such a put_forks and goes exactly when the philosopher asks |
| `DiningGrants.FirstUnasked` | prac/threads/dining_philosopher.c:35-45 | From a state without unasked grants a step makes one exactly if it is a put_forks with a thinking neighbour that is free to eat |
| `DiningGrants.ServesExactly` | prac/threads/dining_philosopher.c:39-42 | put_forks makes exactly those neighbours EATING that are not and have no other EATING neighbour, the left one first on a ring of three |
| `DiningGrants.TakesExactlyWhen` | prac/threads/dining_philosopher.c:24-33 | take_forks goes through exactly if neither neighbour is EATING, and touches nobody else |
| `DiningGrants.WakesExactlyWhen` | prac/threads/dining_philosopher.c:30-31 | A woken philosopher goes through exactly if it has been made EATING |
| `DiningGrants.PutsExactly` | prac/threads/dining_philosopher.c:35-45 | put_forks leaves its philosopher thinking and wakes exactly the sleeping neighbours it serves |
| `DiningGrants.EnabledExactlyWhen` | prac/threads/dining_philosopher.c:47-60 | A thinking philosopher can ask, a holding one put down, a woken one go on and a sleeping one wake spuriously, whatever the others do |
| `Dining.StepInv` | prac/threads/dining_philosopher.c:15-45 | Every step of every philosopher keeps exclusion and justification, spurious wakeups included |
| `Dining.TakeInv` | prac/threads/dining_philosopher.c:24-34 | take_forks keeps the invariant, and one that already holds a grant goes straight through |
| `Dining.PutInv` | prac/threads/dining_philosopher.c:35-45 | put_forks keeps the invariant although it breaks both neighbours' justification in between |
| `Dining.RunInv` | prac/threads/dining_philosopher.c:62-77 | The invariant holds in every state of every run from all HUNGRY |
| `Dining.GrantKeeps` | prac/threads/dining_philosopher.c:15-22 | can_take_forks makes a philosopher's sleep justified again and breaks nobody else's |
| `Dining.RingMacros` | prac/threads/dining_philosopher.c:8-9 | The LEFT and RIGHT macros are the seats before and after, with wrap-around |
| `DiningProgram.Table.constructor` | prac/threads/dining_philosopher.c:67-71 | All HUNGRY and nobody waiting is an initial state |
| `DiningProgram.Table.CanTakeForks` | prac/threads/dining_philosopher.c:15-22 | Grants forks and signals exactly when neither the philosopher nor a neighbour is EATING |
| `DiningProgram.Table.TakeForks` | prac/threads/dining_philosopher.c:24-31 | The critical section from the call to the first wait or the unlock is the protocol's step and keeps the invariant |
| `DiningProgram.Table.TestWait` | prac/threads/dining_philosopher.c:30-31 | One test of the wait loop: past it if EATING, else asleep |
| `DiningProgram.Table.Resume` | prac/threads/dining_philosopher.c:30-33 | A woken philosopher tests again; a protocol step that keeps the invariant |
| `DiningProgram.Table.PutForks` | prac/threads/dining_philosopher.c:35-45 | The whole of put_forks is the protocol's step and keeps the invariant |
| `DiningProgram.Table.Release` | prac/threads/dining_philosopher.c:39 | The philosopher is HUNGRY, that is thinking, again |
| `Sieve.SievePrimes` | lab_threads/pthreads-sync-code/goldbach/goldbach.c:56-66 | After the loops primes[i] is true exactly when i is prime, for every bound from 1 |
| `Sieve.StrikeOut` | lab_threads/pthreads-sync-code/goldbach/goldbach.c:65-66 | The inner loop strikes exactly the multiples of p from p*p on |
| `Sieve.CountPrimes` | lab_threads/pthreads-sync-code/goldbach/goldbach.c:68-71 | prime_count is the number of primes up to the bound |
| `Sieve.StruckIsComposite` | lab_threads/pthreads-sync-code/goldbach/goldbach.c:63-66 | What is struck is composite, and once p*p passes a number it is struck if composite |
| `Sieve.SmallPrimeDivisor` | lab_threads/pthreads-sync-code/goldbach/goldbach.c:63 | Why stopping at the square root is enough: a composite has a prime divisor d with d*d <= n |
| `Sieve.MultipleIsDivisible` | lab_threads/pthreads-sync-code/goldbach/goldbach.c:65 | The multiples reached by repeated addition are the numbers divisible by p |
| `Goldbach.ComputeGoldbach` | lab_threads/pthreads-sync-code/goldbach/goldbach.c:15-29 | One thread alone adds to the cell of each even n of its range the number of pairs of n, and touches no other cell |
| `Goldbach.CountsGoldbachPairs` | lab_threads/pthreads-sync-code/goldbach/goldbach.c:21-27 | That number is the size of the set of prime pairs p1 <= p2 with p1 + p2 = n |
| `Goldbach.SplitRanges` | lab_threads/pthreads-sync-code/goldbach/goldbach.c:36-47 | The loop deals out the ten ranges that the partition lemma speaks of |
| `Goldbach.RangesPartition` | lab_threads/pthreads-sync-code/goldbach/goldbach.c:36-47 | Every even n from 4 to maxN lies in exactly one of the ten ranges, for any maxN |
| `Goldbach.EndpointsExactly` | lab_threads/pthreads-sync-code/goldbach/goldbach.c:36-47 | The ranges in numbers: a tenth of maxN made even, one after the other from 4, two apart, cut off at maxN |
| `Goldbach.RangeSize` | lab_threads/pthreads-sync-code/goldbach/goldbach.c:36-38 | The range is maxN / 10 rounded up to even, and ten of them, with their gaps, reach past maxN |
| `Goldbach.StartsApart` | lab_threads/pthreads-sync-code/goldbach/goldbach.c:41-46 | A later range starts after an earlier one has ended |
| `GoldbachThreads.ParallelIsSequential` | lab_threads/pthreads-sync-code/goldbach/goldbach.c:15-51 | However the ten threads interleave, load and store of an increment apart, when all are through each cell holds the sequential count |
| `GoldbachThreads.CellsDisjoint` | lab_threads/pthreads-sync-code/goldbach/goldbach.c:21-27 | No two running threads are ever on the same cell |
| `GoldbachThreads.StepInv` | lab_threads/pthreads-sync-code/goldbach/goldbach.c:15-29 | Every load, store or loop step of any thread keeps what each cell should hold so far |
| `GoldbachThreads.RunInv` | lab_threads/pthreads-sync-code/goldbach/goldbach.c:31-51 | That holds in every state of every run |
| `GoldbachEnds.ParallelCountsAll` | lab_threads/pthreads-sync-code/goldbach/goldbach.c:31-51 | Every run of the ten threads is bounded by the work at its start, and a run that can go no further has the pair count of 2m in every cell m from 2 |
| `GoldbachEnds.StepWork` | lab_threads/pthreads-sync-code/goldbach/goldbach.c:21-27 | Every step of any thread brings the remaining work down |
| `GoldbachEnds.RunningSteps` | lab_threads/pthreads-sync-code/goldbach/goldbach.c:21-27 | A thread within its range has a step to take: its cell is within gb_count |
| `JobListModel.ListIsLiveJobs` | lab_shell/shell/eval.c:63-95 | After any run of launches and reaps the list is the jobs launched and not reaped, in order, ids rising from head to tail, and reaping a present pid removes exactly the one job that has it |
| `JobListModel.CurrentIsNewest` | lab_shell/shell/eval.c:297-308 | The job marked + is the one launched last, and only the last or last but one can be marked - |
| `JobListModel.StepInv` | lab_shell/shell/eval.c:63-95 | Adding and reaping keep the list equal to the log without the reaped ids, ids rising and pids distinct |
| `JobListModel.RunInv` | lab_shell/shell/eval.c:149-200 | That holds after every run from the empty list |
| `JobListModel.RemoveAt` | lab_shell/shell/eval.c:66-69 | Removing by pid removes the first job with that pid and nothing else |
| `JobListModel.PresentAt` | lab_shell/shell/eval.c:65-69 | The walk ends at a node exactly if the pid is in the list; otherwise removal by that pid changes nothing |
| `JobListModel.WithoutOneMore` | lab_shell/shell/eval.c:63-95 | Taking one more id out of the log is taking out the one job that has it |
| `JobListRuns.ListedExactlyWhen` | lab_shell/shell/eval.c:63-95 | In any run a job is in the list if and only if some operation launched it, with these words and as that launch's number, and its pid has not been reaped since |
| `JobListRuns.LaunchAppends` | lab_shell/shell/eval.c:194-199 | In any run the k-th launch puts job k, with its pid and its words, at the end of the list, and marks it current and the one before previous |
| `JobListRuns.LogIsLaunches` | lab_shell/shell/eval.c:149-200 | The log the list is compared with is the launches so far, in order, each with its own command |
| `JobListRuns.GoesOnExactlyWith` | lab_shell/shell/main.c:28-32 | A run can go on with any launch under a pid no listed job has, and any reap of one that has it |
| `JobList.BackgroundJobList.constructor` | lab_shell/shell/eval.c:36-42 | The empty list is valid |
| `JobList.BackgroundJobList.AddJob` | lab_shell/shell/eval.c:149-180 | Appends the job, keeps next, prev, head and tail consistent even when tail was stale, and shifts the current and previous ids |
| `JobList.BackgroundJobList.LinkAtTail` | lab_shell/shell/eval.c:167-177 | The pointer updates link the node behind the last one, whether or not tail is stale |
| `JobList.BackgroundJobList.AppendedIsValid` | lab_shell/shell/eval.c:167-177 | next and prev mirror each other again afterwards |
| `JobList.BackgroundJobList.FindPid` | lab_shell/shell/eval.c:65-69 | Stops at the first node with the pid, or at the end |
| `JobList.BackgroundJobList.CompletedJob` | lab_shell/shell/eval.c:44-61 | Finds the first job with the pid exactly when there is one |
| `JobList.BackgroundJobList.Unlink` | lab_shell/shell/eval.c:72-91 | The three cases change exactly the links around the removed node; tail stays stale when the only node goes |
| `JobList.BackgroundJobList.RemoveNode` | lab_shell/shell/eval.c:72-94 | Unlinking node k leaves a valid list of the other jobs in order |
| `JobList.BackgroundJobList.RemoveJob` | lab_shell/shell/eval.c:63-95 | The list becomes itself without the first job of that pid, still valid, ids untouched; on a pid that is not there it stays as it is, and exactly then the code goes on to follow a null pointer |
| `JobList.Shell.LaunchJob` | lab_shell/shell/eval.c:194-199 | Launching is the model's step: the next id, appended, marked current |
| `JobList.Shell.ReapJob` | lab_shell/shell/main.c:28-32 | A reported child is announced and removed: the model's step |
| `HistoryModel.HistoryIsLatest` | temp.c:197-221 | After any run of adds the history is the last 20 accepted lines in order |
| `HistoryModel.SaveLoadRestores` | temp.c:257-297 | The history of any session, saved and loaded into an empty one, is the same, for all lines that fit the input buffer |
| `HistoryModel.LoadSaved` | temp.c:257-271 | Loading a saved history on top of another appends it and keeps the last 20 |
| `HistoryModel.LoadEntry` | temp.c:266-269 | Loading one saved line adds it, also when it fills the buffer and its newline is read by itself |
| `HistoryModel.PushAllEntries` | temp.c:198-204 | Everything in the history is non-empty, not the word history, without newline and within the buffer |
| `HistoryModel.PushExactly` | temp.c:197-221 | A line whose part before its first newline is empty or the word history is ignored; any other is recorded as that part, and a 21st drops the oldest |
| `HistoryModel.EntriesAreCommands` | temp.c:198-204 | After any run of adds there are at most 20 entries, none empty, none the word history, none with a newline |
| `HistoryModel.FileTextAt` | temp.c:291-294 | The saved file is the entries in order, each with one newline behind it, and nothing else |
| `HistoryModel.LoadExactly` | temp.c:266-269 | One round of loading adds a line of at most 1023 characters, cut after its newline |
| `HistoryModel.GetsStops` | temp.c:267 | fgets reads a non-empty prefix, stops after the first newline, and otherwise only at the end or with its buffer full |
| `HistoryModel.StripCuts` | temp.c:201 | Cutting at the newline keeps exactly what is before the first one |
| `History.RingPush` | temp.c:206-220 | Writing the slot at history_idx appends to the ring read from its start point, and drops the oldest line once it is full |
| `History.RingIndex` | temp.c:235 | The modular index is the offset from the start point with wrap-around |
| `History.NextSession` | temp.c:257-297 | A ring saved and loaded into a new ring has the same contents, whatever the two rings' indices |
| `History.HistoryRing.constructor` | temp.c:24-26 | The ring starts empty |
| `History.HistoryRing.AddToHistory` | temp.c:197-221 | Adds the stripped line unless it is empty or history |
| `History.HistoryRing.Store` | temp.c:206-220 | The ring's contents become the latest 20 of the old ones and the line |
| `History.HistoryRing.PrintHistory` | temp.c:226-238 | Prints the contents numbered from 1 |
| `History.HistoryRing.SaveHistory` | temp.c:286-294 | Writes each line of the contents with a newline, oldest first |
| `History.HistoryRing.LoadHistory` | temp.c:266-269 | Adds the file's lines as fgets cuts them |
| `Pipeline.Shell.ExecutePipeCommand` | temp.c:81-131 | For any number of commands and any table the shell starts with: every child executes wired to its neighbours and nothing else new if and only if there is no pipe or descriptors 0 and 1 were open; the shell's own table ends as it began |
| `Pipeline.Shell.StartCommand` | temp.c:85-128 | One pass of the loop: the child is wired exactly if the pipes' descriptors are clear of 0 and 1, and the shell keeps at most one pipe descriptor, the last read end |
| `Pipeline.Shell.Pipe` | temp.c:86-91 | pipe() opens the two lowest descriptors that were not open |
| `Pipeline.Shell.LowestFree` | temp.c:88 | The lowest descriptor that is not open |
| `Pipeline.WiredExactlyWhen` | temp.c:101-117 | For every position in the pipeline, first and last included: the child has its stdin on the pipe before, its stdout on the pipe after and no other pipe end, if and only if no pipe descriptor took the place of a standard one it is to be given |
| `Pipeline.ClosedInputSpoils` | temp.c:101-117 | A concrete pipeline of two from a shell without standard input: the second command has no input |
| `Pipeline.ShellKeepsReadEnd` | temp.c:124-126 | Of all pipes the shell holds only the last read end after each pass |
| `Pipeline.OneWriterOneReader` | temp.c:85-128 | Pipe k is written by child k only and read by child k+1 only |
| `Pipeline.RestIsInherited` | temp.c:101-117 | A wired command keeps every other descriptor of the shell, the first command its input and the last its output |
| `Tokens.TokensAreRuns` | lab_shell/shell/helper.c:19-30 | The tokens of a line are all its maximal runs of non-delimiters, in order |
| `Tokens.SplitJoin` | lab_shell/shell/helper.c:7-42 | Tokens joined by one delimiter and split again come back unchanged |
| `Tokens.NothingUnfinished` | temp.c:44-58 | Dropping the unfinished token loses nothing exactly when the line is empty or ends in a delimiter |
| `Tokens.TokensArePlain` | lab_shell/shell/helper.c:19-30 | Every token is non-empty and free of delimiters |
| `TokenizerLimits.FitsExactlyWhen` | temp.c:39-63 | Every write stays within the two buffers if and only if every word has at most 63 characters, or 64 when it ends the line, and fewer than 64 words are followed by a blank |
| `TokenizerLimits.CompletedAreEndedWords` | temp.c:48-54 | The completed tokens are the words that a blank ends, in order |
| `TokenizerLimits.ShortWordsFit` | temp.c:49-56 | With words that short no character is written past the token buffer |
| `TokenizerLimits.FittingWordsAreShort` | temp.c:49-56 | And only then |
| `Tokenizers.SplitCommandIntoTokens` | lab_shell/shell/helper.c:7-42 | No array for NULL; otherwise the count and the null-terminated array of all tokens |
| `Tokenizers.SplitText` | lab_shell/shell/helper.c:15-41 | The strtok loop collects all tokens in an array that grows before any write past its end, the final NULL included |
| `Tokenizers.NextToken` | lab_shell/shell/helper.c:19-29 | strtok skips delimiters and returns the stretch up to the next one or the end |
| `Tokenizers.Append` | lab_shell/shell/helper.c:23-28 | Stores the token behind the others, doubling a full array first |
| `Tokenizers.Grow` | lab_shell/shell/helper.c:25-26 | realloc to a larger size keeps the cells |
| `Tokenizers.GetNoOfTokens` | lab_shell/shell/helper.c:44-50 | The index of the first NULL, within the array |
| `Tokenizers.CountAfterSplit` | lab_shell/shell/helper.c:44-50 | On a split command that is the number of tokens |
| `Tokenizers.Tokenize` | temp.c:39-63 | On any line: the tokens ended by a delimiter, null-terminated, or a write past a buffer, the latter if and only if a word has more than 63 characters (64 when it ends the line) or 64 words are followed by a blank; the tokens are all of the line's if and only if it is empty or ends in a delimiter |
| `Tokenizers.ReadTokens` | temp.c:44-58 | The character loop collects the tokens until it would write past a buffer |
| `Tokenizers.LongWordOverflows` | temp.c:50-56 | Every line that starts with a word of 64 characters and goes on is written past the buffer |
| `PoolQueues.QueueIsFifo` | prac/network/q2/simple-webserver/simple_server.cpp:19-32 | In every state of every run what was dequeued followed by what is queued is what was enqueued, in order, and the web queue never exceeds QUEUE_MAX |
| `PoolQueues.NoIdleWithWork` | lab_nw/kv-server-pool-rwlock/server.c:43-51 | While a worker sleeps unsignalled and work is queued, at least as many workers are signalled as descriptors are queued |
| `PoolQueues.NeverAllBlocked` | prac/network/q2/simple-webserver/simple_server.cpp:181-191 | When the accept loop is blocked on a full queue some worker is not asleep, so pool and producer are never all blocked |
| `PoolEffects.OldestServedNext` | prac/network/q2/simple-webserver/simple_server.cpp:29-30 | In any run the worker that takes from a non-empty queue serves the oldest connection, which is logged as its own and is gone from the queue |
| `PoolEffects.ServesWhatItTook` | lab_nw/kv-server-pool-rwlock/server.c:47-52 | In every reachable state a worker that is busy with a connection is the one that took it, last of its own |
| `PoolEffects.DequeueExactly` | prac/network/q2/simple-webserver/simple_server.cpp:20-32 | A worker sleeps exactly on an empty queue; else it serves the front, and the web server's accept loop is signalled |
| `PoolEffects.EnqueueExactly` | prac/network/q2/simple-webserver/simple_server.cpp:181-191 | The accept loop sleeps exactly on a full queue; else it appends its connection and wakes one sleeping worker |
| `PoolEffects.FinishExactly` | lab_nw/kv-server-pool-rwlock/server.c:233 | A finished worker is idle; in the key-value server it wakes one sleeping worker |
| `PoolEffects.EnabledExactlyWhen` | prac/network/q2/simple-webserver/simple_server.cpp:17-32 | Any thread that is not asleep unsignalled can run, and any sleeper can wake spuriously |
| `PoolDrain.PoolDrains` | prac/network/q2/simple-webserver/simple_server.cpp:19-32 | Both pools drain: with nothing more accepted every run is bounded, and where it can stop the queue is empty, nothing is held, all workers sleep and everything queued was served in order |
| `PoolDrain.GoesOnUnlessAtRest` | lab_nw/kv-server-pool-rwlock/server.c:43-51 | A pool with a worker and room in its queue can go on exactly if it is not at rest |
| `PoolDrain.DrainStep` | lab_nw/kv-server-pool-rwlock/server.c:43-52 | With nothing accepted every step but a spurious wakeup brings the pool nearer to rest |
| `PoolQueues.StepInv` | prac/network/q2/simple-webserver/simple_server.cpp:19-32 | Every step of the accept loop and of any worker keeps the invariant, for both servers |
| `PoolQueues.RunInv` | lab_nw/kv-server-pool-rwlock/server.c:280-293 | The invariant holds in every state of every run without shutdown |
| `PoolPrograms.WebServer.constructor` | prac/network/q2/simple-webserver/simple_server.cpp:156-164 | The empty queue with idle workers is an initial state |
| `PoolPrograms.WebServer.AcceptConnection` | prac/network/q2/simple-webserver/simple_server.cpp:169 | An accepted connection is held until it is queued |
| `PoolPrograms.WebServer.PushConnection` | prac/network/q2/simple-webserver/simple_server.cpp:181-191 | Waits on a full queue, else appends and signals a worker; a protocol step that keeps the invariant |
| `PoolPrograms.WebServer.PopConnection` | prac/network/q2/simple-webserver/simple_server.cpp:19-32 | Waits on an empty queue, else takes the oldest and signals the accept loop; a protocol step that keeps the invariant |
| `PoolPrograms.FdQueue.Enqueue` | lab_nw/kv-server-pool-rwlock/server.c:284-290 | Appends at the tail of the linked queue, head and tail consistent |
| `PoolPrograms.FdQueue.Dequeue` | lab_nw/kv-server-pool-rwlock/server.c:47-52 | Takes the oldest descriptor; the last one leaves both head and tail null |
| `PoolPrograms.KeyValueServer.constructor` | lab_nw/kv-server-pool-rwlock/server.c:272-279 | The empty queue with idle workers is an initial state |
| `PoolPrograms.KeyValueServer.SignalFdQueue` | lab_nw/kv-server-pool-rwlock/server.c:291 | Wakes one unsignalled worker of the system's choice, or nobody |
| `PoolPrograms.KeyValueServer.PushClient` | lab_nw/kv-server-pool-rwlock/server.c:284-292 | A protocol step that keeps the invariant |
| `PoolPrograms.KeyValueServer.TakeClient` | lab_nw/kv-server-pool-rwlock/server.c:43-52 | A protocol step that keeps the invariant |
| `PoolPrograms.KeyValueServer.FinishClient` | lab_nw/kv-server-pool-rwlock/server.c:233 | The extra signal of a worker done with its client is harmless: a protocol step that keeps the invariant |
| `BitSender.PrefixAlways` | lab_IPC/ipc-code/bitstring-send.c:17-44 | However signals and loops interleave, at most one bit or acknowledgement is under way, the child's string is what was sent less at most one bit, and a child that has finished has exactly the sent string |
| `BitSender.NoSignalLost` | lab_IPC/ipc-code/bitstring-send.c:104-123 | No kill meets a pending signal of its kind or a process that has not installed the handler, and no bit interrupts a handler or meets a full buffer |
| `BitSender.DeliveredExactlyWhen` | lab_IPC/ipc-code/bitstring-send.c:62-64 | A run that can go no further has delivered everything and ended both processes if and only if no signal came too early: an acknowledgement between kill and canReceive = false with bits to go, or between test and pause, or the last bit between the child's test and pause |
| `BitSender.RunBounded` | lab_IPC/ipc-code/bitstring-send.c:105-123 | Every run has at most 16 steps a bit and 9 more |
| `BitSender.DoomedWhenTooEarly` | lab_IPC/ipc-code/bitstring-send.c:108-115 | A step dooms a healthy state exactly when it is one of the three early arrivals |
| `BitSender.DoomedForever` | lab_IPC/ipc-code/bitstring-send.c:108-115 | Nothing that happens later repairs a doomed state |
| `BitSender.DoomedBy` | lab_IPC/ipc-code/bitstring-send.c:108-115 | In any run a state is doomed exactly if some signal came too early before it |
| `BitSender.StuckExactly` | lab_IPC/ipc-code/bitstring-send.c:62-64 | A state with no step left is complete exactly when it is not doomed |
| `BitSender.AckCanComeTooEarly` | lab_IPC/ipc-code/bitstring-send.c:114-115 | For every string of two bits or more there is a run in which the first acknowledgement is lost in this way |
| `BitSender.AckCanMissPause` | lab_IPC/ipc-code/bitstring-send.c:108-109 | For every string of two bits or more there is a run in which it arrives between test and pause |
| `BitSender.LastBitCanMissPause` | lab_IPC/ipc-code/bitstring-send.c:62-63 | For every single bit there is a run in which it arrives between the child's test and pause |
| `BitSender.SignalsArriveAnyTime` | lab_IPC/ipc-code/bitstring-send.c:17-44 | In every reachable state a pending signal can arrive, wherever the process is |
| `BitSender.StepInv` | lab_IPC/ipc-code/bitstring-send.c:17-123 | Every statement of either process and every signal arrival keeps the invariant |
| `BitSender.RunInv` | lab_IPC/ipc-code/bitstring-send.c:46-127 | The invariant holds in every state of every run |
| `BitSender.StepMeasure` | lab_IPC/ipc-code/bitstring-send.c:62-123 | Every step and every arrival brings the measure down |
| `BitSenderProgram.AcceptInput` | lab_IPC/ipc-code/bitstring-send.c:76-95 | Accepts exactly the bitstrings of the right length |
| `BitSenderProgram.Processes.constructor` | lab_IPC/ipc-code/bitstring-send.c:12-15 | The initial values are an initial state |
| `BitSenderProgram.Processes.SigHandle1` | lab_IPC/ipc-code/bitstring-send.c:17-21 | Stores a 1 if there is room; the protocol's arrival step, with the array write in bounds |
| `BitSenderProgram.Processes.SigHandle0` | lab_IPC/ipc-code/bitstring-send.c:26-30 | Stores a 0 if there is room; the protocol's arrival step, with the array write in bounds |
| `BitSenderProgram.Processes.StoreBit` | lab_IPC/ipc-code/bitstring-send.c:20-21 | The bit goes behind the others if there is room |
| `BitSenderProgram.Processes.EnterHandler` | lab_IPC/ipc-code/bitstring-send.c:62-63 | A handler ends the pause it interrupts |
| `BitSenderProgram.Processes.Acknowledge` | lab_IPC/ipc-code/bitstring-send.c:22 | The kill that ends a handler is the protocol's acknowledging step |
| `BitSenderProgram.Processes.AnnounceReady` | lab_IPC/ipc-code/bitstring-send.c:58-60 | The child announces itself after installing both handlers |
| `BitSenderProgram.Processes.CheckReceived` | lab_IPC/ipc-code/bitstring-send.c:62-65 | Leaves the loop only with all bits, and then the array is the sent string and its terminator |
| `BitSenderProgram.Processes.EnterPause` | lab_IPC/ipc-code/bitstring-send.c:63 | Going to sleep is a step of its own, after the test |
| `BitSenderProgram.Processes.SynchronizeParent` | lab_IPC/ipc-code/bitstring-send.c:36-39 | Sets canSend |
| `BitSenderProgram.Processes.ParentCanSend` | lab_IPC/ipc-code/bitstring-send.c:41-44 | Sets canReceive and ends the pause |
| `BitSenderProgram.Processes.StartSending` | lab_IPC/ipc-code/bitstring-send.c:99-105 | Leaves the busy wait once canSend is set |
| `BitSenderProgram.Processes.AwaitAck` | lab_IPC/ipc-code/bitstring-send.c:108-109 | The test and the way into pause, as separate steps |
| `BitSenderProgram.Processes.SendBit` | lab_IPC/ipc-code/bitstring-send.c:111-122 | Sends the signal of bit i, with no bit or acknowledgement pending at that moment |
| `BitSenderProgram.Processes.ClearCanReceive` | lab_IPC/ipc-code/bitstring-send.c:115-121 | Clears canReceive and goes on to the next bit or to wait |
| `BitSenderProgram.Processes.Reap` | lab_IPC/ipc-code/bitstring-send.c:125 | When wait returns the child holds the whole string |

## Left out

- MasterWorkerTheorems.Termination: assumes at least one worker; with none, nothing consumes and
  `worker_turn` is never computed. Negative sizes given on the command line are not modelled.
- MasterWorkerProgram.Program.TestForExit: the test at master-worker.c:54 reads `item_to_produce`
  without the mutex; the model takes this read as one atomic step, which C does not promise.
- FileTransferProofs.Safety: one session from the agreed file size on. The request and its answer,
  socket addresses, stray datagrams from elsewhere or from an earlier session, packets shorter than
  a sequence number, and the width of `int seq_num` are not part of this model.
- FileTransferFinish.CompletesExactlyWhen: says when a session can complete, not that it does: the
  channel need not be fair, and while it keeps delivering NAKs the server may go on for ever, since
  only a timeout counts as a retry. The continuation may use a `recvfrom` that fails in the server.
- Sieve.SievePrimes: the loop bound `p <= sqrt(maxN)` is modelled as `p * p <= maxN`, without
  floating point; the widths of `int p * p` and of `gb_count` are not modelled.
- JobListModel.StepInv: the system does not give the pid of an unreaped child to a new one, and
  `waitpid` reports only children in the list. The memory of removed jobs is not modelled.
- History.HistoryRing.AddToHistory: lines are shorter than the 1024 characters of its buffer; the
  code copies them without a check. Strings have no NUL inside.
- History.HistoryRing.LoadHistory: on the text of the file; finding, opening and closing it are left out.
- Pipeline.Shell.ExecutePipeCommand: `pipe`, `fork`, `dup2` and `close` succeed, and -1 is no
  descriptor. What the commands do, and waiting for them, are left out.
- PoolQueues.RunInv: runs without shutdown. `int_handler` broadcasts without the mutex, so the web
  server's `running` flag is not part of this model; neither are HTTP and the clients' requests.
- RwLockProgress.LockDrains: each thread's own work between lock and unlock is taken to end.
- PoolDrain.PoolDrains: every client that a worker serves is taken to finish; a pool without workers,
  or a web queue without room, is left out.
- Dining.StepInv: rings of two or more; the program has five. Thinking and eating take any time.
- BitSenderProgram.Processes.StartSending: the busy wait reads `canSend` again on every pass; it is
  not volatile (bitstring-send.c:14, 99), so C does not promise that a compiled loop does.
- BitSender.StepInv: signals come only from the two processes, a handler's store is one step, and
  `wait` is restarted after a handler, as `signal` arranges on Linux. The parent's rejection of a bad
  line, which kills the child, is modelled only as `AcceptInput`.
- The key-value list of the `lab_nw` servers (DELETE leaves the tail stale, UPDATE does not advance).
- The other programs: `master-worker-skeleton.c`, `seq.c`, the other IPC and thread exercises, and
  `lab_shell/my_shell.c`, whose tokenizer and pipeline are those of `temp.c`. They would add only
  easier members.
- Printing, timing, allocation failure, freeing memory, and reader or writer threads' own work.
