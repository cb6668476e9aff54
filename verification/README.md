# Models of a small multi-process web server and its neighbours

The repository collects several versions of one small HTTP file server written in C, together with study
programs in C and C++. This project models the parts whose correctness depends on more than one function at a
time, and proves what each of them is for.

| files | what they model |
|---|---|
| `AtomicFifo`, `BlockingQueue`, `WorkerPool`, `PoolInvariant`, `PoolRefinement`, `PoolProgress` | the connection queue: `queue_put` and `queue_get` over a linked list, an acceptor and any number of worker threads |
| `RequestText`, `RequestLine`, `RequestMeaning`, `PoolWorker` | the byte-at-a-time request-line scan, what a line asks for, and a worker that reuses its buffers for every connection |
| `Dispatch`, `SharedStatistics` | which status a connection is counted under, and the counters shared by pre-forked processes |
| `SelectLoop` | the acceptor that watches several listening sockets |
| `DoubleCheckedLocking` | `Singleton::GetInstance` with an atomic pointer and a mutex |
| `StoreBuffering` | the store-buffering experiment, with and without memory barriers |
| `ProcessTree`, `Descendants` | the indented process listing of the kernel module, and the tree in memory that it lists |
| `SharedPointer`, `SharedHandles` | the reference-counting smart pointer |
| `BitCodec` | text to a string of bits and back |
| `Tally`, `Wrappers` | sums of weights and counts over threads and processes, and an option type |

## How the models are built

**The connection queue** is modelled twice. `BlockingQueue.Queue` is the list as the critical sections of
`queue_put` and `queue_get` change it, in place, one call at a time; `TryGet` answers `None` where `queue_get`
goes to sleep. `WorkerPool` is the same code cut into its statements: every thread moves one statement at a time,
in any order, over one shared heap of messages. Taking the mutex, testing `length`, `pthread_cond_wait`, waking
up, taking the mutex back, and the signal that `queue_put` sends only after it has unlocked are separate steps.
The allocator may return any address that is not live, so a freed address can come back. A signal may wake any
sleeper, and a sleeper may also wake without one. Reading or freeing an address that is not live is the outcome
`Fault`. Nothing bounds the number of threads or connections. `AtomicFifo` is the specification: one sequence,
and calls that take effect at one instant. `PoolRefinement.Refines` maps every run of the first to a run of
the second.

**The request line** has a grammar that mentions no state machine: `RequestText.StartsWith` says that a stream
begins with visible\* SP visible\* SP visible\* CR LF, visible being the bytes 33 to 126 and the URI having at
most 1022 of them. `RequestLine.ReadRequestLine` is the loop of `read_request_line`, with the receive buffer and
the URI buffer as arrays that keep whatever earlier requests left in them. This is the request-line of section
3.1.1 of RFC 7230, more liberal than the RFC because tokens may be empty and hold any visible byte. The code
checks no bound on the method and the version token. `RequestLine.Scan` therefore stops with `Overrun` where the
next write would leave the receive buffer, and that happens exactly on the streams that are not `Fits`; the
results about what is read are for the streams that are. `PoolWorker` is `do_call` of the thread pool from the
stream to the kind of answer, over buffers that are cleared once and then never again. `RequestMeaning` says without
any of the parsing functions when a method is GET, a version is accepted and a URI asks for the statistics or a
script; each status of `Dispatch` and each answer of `PoolWorker` is proved to be given exactly under a condition in
these words.

**The process tree** is a heap of tasks with circular lists of sibling nodes. `ProcessTree` prints it and reads
listings back. `Descendants` says what lies in memory without mentioning printing: whose child a task is, the
line of descent to it, and preorder as an order between two such lines.

**The smart pointer.** `SharedPointer` is the account of what is live, shared and deleted, for any type of
handles, objects and counters; `SharedHandles` has the member functions as methods that change one shared counter
object, and ties each of them to the account.

**Statistics.** `Dispatch.Statistics.DoCall` is the control flow of `do_call`, from the stream to the counters; what the
operating system answers on the way (is the path a directory, does it open, is the pipe broken) is the input
`World`. `SharedStatistics` is the protocol: any number of processes and the SIGUSR1 reporter, each increment
being a load and a store, interleaved in any order under the semaphore. Its history records each total read, so that
the number shown can be compared with the connections counted at that moment.

**The memory models.** `DoubleCheckedLocking` gives the shared pointer a history and each thread a view of it, so that loads
may be stale, a release store publishes the writer's view, and an acquire load takes it over.
`StoreBuffering` gives each processor a FIFO store buffer that drains at any time.

## What is found out about the code

These are theorems, each with the condition under which the code does meet the expectation.

- A URI of 1023 bytes is refused, but at the byte behind it. The byte at which the scan gives up is the first to
  rule every line out if and only if no such URI stands before it (`RequestLine.ReadRequestLine`).
- `parse_method` compares three bytes whatever the token's length, and `is_dir` is called with `req_uri + 1` even
  when the URI is empty. Over a worker's reused buffers a request gets the answer its own line calls for, whatever
  was served before, if and only if its method is neither empty nor `G` nor `GE` (`Ge`), and, if it is a GET whose
  version is accepted, it has a URI (`PoolWorker.AnswerIsOwnExactly`). With fresh buffers such a short method is
  answered 405 (`PoolWorker.ShortVerbAtFirst`); after a GET that was refused for the length of its URI it never is:
  it is answered as that GET would be, with 505 if its version is refused (`PoolWorker.ShortVerbAfterGet`). After a
  request for the directory `d`, a GET without a URI is answered with the listing of `d`
  (`PoolWorker.EmptyUriAfterDirectory`). What a history leaves in the buffers is a function of it, and
  `PoolWorker.HistoryMisleadsExactly` says which of them change an answer.
- The scan writes outside the receive buffer if and only if the stream is not `Fits`
  (`RequestLine.OverrunIsNotFitting`). A method of 8193 bytes does it, one of 8192 does not
  (`RequestLine.FirstOverrun`); a version of 8192 bytes does it exactly when `parse_version` writes a NUL behind it
  (`RequestLine.FullVersion`).
- `start_server` logs an `accept` that failed otherwise than by EINTR and then queues the -1 it returned. The
  workers are handed connections only exactly when no `accept` on a ready socket fails that way
  (`SelectLoop.RunServer`).
- The slot test in `main` compares an argument number that starts at one with 32, so 31 ports fill the table and
  the last slot is never used (`SelectLoop.FillSlots`).
- No status of `do_call` is in the 300s, so that counter never moves; and of the connections whose process lives
  on, one goes uncounted exactly when the output of its script meets a closed connection at its first line
  (`Dispatch.StatusIsClassified`).
- `do_call` tests `version.major` twice and `version.minor` never; the model does the same.
- `My_shared_ptr::operator=` keeps the counts right exactly when both handles already share their counter
  (`SharedPointer.AssignKeepsOnlyShared`).
- The experiment of `atomic/test.cpp` can see both loads return 0 exactly in the build without barriers
  (`StoreBuffering.ReorderingNeedsNoBarrier`), and double-checked locking is safe exactly when its first load is an acquire
  (`DoubleCheckedLocking.SafeExactlyWithAcquire`).

## Model

| member | source | states |
|---|---|---|
| `AtomicFifo.FirstInFirstOut` | multi_server/multi_server_thread_blocking_queue.c:47-51 | over every run of the atomic queue, the sockets put so far are those taken so far followed by those queued: nothing lost, doubled or reordered |
| `BlockingQueue.Queue.constructor` | multi_server/multi_server_thread_blocking_queue.c:235-240 | a new queue is a valid empty list |
| `BlockingQueue.Queue.Put` | multi_server/multi_server_thread_blocking_queue.c:249-263 | the contents gain the socket at the end; the new node is fresh and last, and the older nodes stay in place |
| `BlockingQueue.Queue.TryGet` | multi_server/multi_server_thread_blocking_queue.c:265-282 | waits exactly when the queue is empty and then changes nothing; otherwise returns the oldest socket, leaves the others in order, and its node is no longer in the list when it is read |
| `BlockingQueue.ChainIsUnique` | multi_server/multi_server_thread_blocking_queue.c:42-45 | following `next` from a message meets one determined sequence of messages |
| `BlockingQueue.ChainIsAcyclic` | multi_server/multi_server_thread_blocking_queue.c:42-45 | a list that ends in null meets no message twice |
| `BlockingQueue.EmptyIsEmpty` | multi_server/multi_server_thread_blocking_queue.c:254-271 | `first == 0`, `last == 0`, `length == 0` and an empty queue are the same condition, so put may test one and get another |
| `PoolInvariant.KeepsInv` | multi_server/multi_server_thread_blocking_queue.c:249-282 | every step of every thread, and every spurious wakeup, keeps mutual exclusion, ownership of every node, the link structure, the three fields and the wakeup debt |
| `PoolInvariant.NeverFaults` | multi_server/multi_server_thread_blocking_queue.c:249-282 | in no reachable state can a step read through null, read a freed message or free one twice |
| `PoolInvariant.ListIsOwned` | multi_server/multi_server_thread_blocking_queue.c:249-282 | in every reachable state the nodes met from `first` are distinct; a live message is in the list or held by exactly one thread; with the mutex free, `first`, `last` and `length` are the list's ends and size, all null or zero together |
| `PoolInvariant.DequeuedIsPrivate` | multi_server/multi_server_thread_blocking_queue.c:277-279 | the message a worker reads and frees outside the lock is live, unreachable from the queue and held by no other thread, and what is read is what is stored |
| `PoolRefinement.Simulates` | multi_server/multi_server_thread_blocking_queue.c:249-282 | one step of a thread is one event of the atomic queue by that thread, or nothing the queue can see |
| `PoolRefinement.Refines` | multi_server/multi_server_thread_blocking_queue.c:249-282 | every interleaved run, with any number of acceptors and workers, is a run of the atomic queue whose contents are the sockets in the list; puts = gets followed by the list |
| `PoolRefinement.InOrder` | multi_server/multi_server_thread_blocking_queue.c:183-190 | with one acceptor, the connections that arrived are at every moment those handed out, those listed, the one in the acceptor's hand and those still to come, in that order |
| `PoolProgress.NeverLosesAWakeup` | multi_server/multi_server_thread_blocking_queue.c:261-269 | although the signal follows the unlock: if some worker sleeps, `length` is at most the number of threads that will look at the queue again or still have a signal to send |
| `PoolProgress.StepDecreases` | multi_server/multi_server_thread_blocking_queue.c:183-282 | every step of a thread lowers one measure of the pool; an unasked wakeup raises it by at most two |
| `PoolProgress.EveryRunIsBounded` | multi_server/multi_server_thread_blocking_queue.c:183-282 | any schedule takes at most 17 steps a connection, two a thread and two a spurious wakeup |
| `PoolProgress.StopsOnlyWhenDrained` | multi_server/multi_server_thread_blocking_queue.c:265-282 | with at least one worker, a reachable state in which no thread can move is one where nothing waits to be accepted or served, no message is live and every worker sleeps; and conversely |
| `PoolProgress.EveryConnectionIsServed` | multi_server/multi_server_thread_blocking_queue.c:179-190 | when a pool of one acceptor and any workers has come to rest, every connection that ever arrived has been handed to a worker, once and in order |
| `RequestText.LineIsUnique` | multi_server/server.c:84-140 | no accepted line is a proper prefix of another, so a stream starts with at most one |
| `RequestText.NoticedOneByteLate` | multi_server/server.c:105-109 | a prefix whose URI has 1023 bytes can no longer become a line, and is refused at whatever byte follows |
| `RequestText.FirstRefusal` | multi_server/server.c:92-132 | the byte at which the scan gives up is the first that rules every line out, if and only if no URI of 1023 bytes stands before it |
| `RequestText.PendingPrefix` | multi_server/server.c:92-132 | what can be scanned could be scanned byte by byte, so there is one first byte at which the scan gives up |
| `RequestText.NumberReadsBack` | multi_server/server.c:205-215 | the decimal digits of an int read back as that int |
| `RequestText.VersionReadsBack` | multi_server/server.c:189-217 | `HTTP/major.minor` reads back as major and minor, for all non-negative ints |
| `RequestText.PrintedRequestReadsBack` | multi_server/server.c:84-217 | the line printed for a URI and two numbers is the only line any stream that begins with it starts with, and yields GET and both numbers |
| `RequestLine.PrintedFits` | multi_server/server.h:26-33 | printed lines never fill the receive buffer |
| `RequestLine.ParseVersion` | multi_server/server.c:189-217 | the numbers are those before and after the first dot behind the first slash; every byte of the token is put back and at most the byte behind it is written, none when the token fills the buffer and leaves nothing to read at its end |
| `RequestLine.ScanByte` | multi_server/server.c:92-131 | one turn of the loop: the buffers hold the tokens read so far over what they held before, or the scan stops at the offending byte, at the end of the line, or before a write outside the buffer |
| `RequestLine.Scan` | multi_server/server.c:91-132 | the whole loop on any stream: it stops for one of these reasons or at the end of the stream, and before a write outside the receive buffer if and only if the stream does not fit |
| `RequestLine.OverrunIsNotFitting` | multi_server/server.c:95-124 | `Fits`, said of the tokens alone, is exactly the condition under which the unchecked writes stay in the receive buffer |
| `RequestLine.FirstOverrun` | multi_server/server.c:96-98 | 8193 visible bytes make the scan write outside the receive buffer, 8192 do not |
| `RequestLine.FullVersion` | multi_server/server.c:211-212 | a line whose version fills the buffer is safe if and only if `parse_version` writes nothing behind it |
| `RequestLine.StopIsUnique` | multi_server/server.c:92-132 | every stream stops the scan in exactly one state with one set of tokens, the one whose bytes begin the stream and whose next byte it cannot take or needs no more |
| `RequestLine.ReadRequestLine` | multi_server/server.c:84-140 | succeeds if and only if the stream starts with a line; then it has consumed exactly that line and stored its URI, its numbers and its verb; otherwise it has stopped at the end of the stream or at the first byte the scan cannot take, which is the first to rule every line out if and only if no URI of 1023 bytes stands before it; either way both buffers hold the tokens read, written over what they held before |
| `RequestLine.PrintThenRead` | multi_server/server.c:84-217 | printing a request and reading it gives GET, the URI and both numbers back, whatever the buffers held before |
| `RequestLine.CutQuery` | multi_server/multi_server_thread_blocking_queue.c:455-464 | the scan for '?' stays in the buffer and leaves the longest prefix without one; it returns its length and writes at most that byte |
| `RequestMeaning.VerbIsGetExactly` | multi_server/server.c:166-188 | a method buffer is taken for GET if and only if it begins with a capital G and then `et` in any case, and for POST if and only if with a capital P and `os` |
| `RequestMeaning.VersionByParts` | multi_server/server.c:189-217 | divided at the first slash and the first dot behind it, a version has the number of the text between them as its major one, and that of the text behind the dot as its minor one, or -1 if that text is empty or the major number is -1 |
| `RequestMeaning.AcceptedExactly` | multi_server/server.c:189-217 | a version is accepted if and only if it can be so divided and the text between does not read as -1 |
| `RequestMeaning.NumeralIsRead` | multi_server/server.c:205-215 | a text of a sign or none, digits or none and anything else reads as that number, or as the nearest long |
| `RequestMeaning.NumeralIsThere` | multi_server/server.c:205-215 | every text is of that form |
| `RequestMeaning.IntByWrap` | multi_server/server.c:205-215 | stored as an int, that is the one 32-bit number that differs from it by a multiple of 2^32 |
| `RequestMeaning.StatisticsExactly` | multi_server/multi_server_thread_blocking_queue.c:105-106 | the statistics are asked for if and only if what stands behind the first byte of the URI is `statistics` in any case |
| `RequestMeaning.PathExactly` | multi_server/multi_server_thread_blocking_queue.c:455-464 | the path is the part of the URI before its first question mark, or the whole |
| `PoolWorker.ServeOne` | multi_server/multi_server_thread_blocking_queue.c:89-119 | one turn of a worker: 400 if and only if no line comes, and otherwise what the line merits over the old buffers, said of the tokens and the directories: 405 for what is no GET, then 505 for a version that is not accepted, then the statistics even where a directory has that name, then the directory at the uncut URI, then the file at the URI up to its query; a line that speaks for itself gets what its own tokens merit; and everything left in both buffers |
| `PoolWorker.LineIsServed` | multi_server/multi_server_thread_blocking_queue.c:89-119 | for a request line, that is the answer to its tokens, and the traces are its verb, over it its version with at most one NUL behind it, and its URI, cut at the query if a file was asked for |
| `PoolWorker.AnswerExactly` | multi_server/multi_server_thread_blocking_queue.c:96-119 | over any buffers an answer is given to a request line if and only if the line merits it: the method as read off the receive buffer, the version, the URI, and as path what the URI buffer holds from its second byte to its first NUL |
| `PoolWorker.OwnAnswerExactly` | multi_server/multi_server_thread_blocking_queue.c:96-119 | the answer a line calls for by itself is each of 405, 505, the statistics, a directory or a file if and only if its tokens merit that |
| `PoolWorker.ServeAll` | multi_server/multi_server_thread_blocking_queue.c:82-124 | over any number of connections with the same buffers, each gets what it merits over what the earlier ones left, in order, and a line that speaks for itself what it merits alone |
| `PoolWorker.EachInTurn` | multi_server/multi_server_thread_blocking_queue.c:82-124 | the i-th answer is that to the i-th connection over what the first i left |
| `PoolWorker.EachGetsItsOwnAnswer` | multi_server/multi_server_thread_blocking_queue.c:82-124 | over any buffers, 400 is the answer exactly to a stream that starts with no line, and a request line that speaks for itself gets its own answer |
| `PoolWorker.AnswerIsOwnExactly` | multi_server/multi_server_thread_blocking_queue.c:82-124 | a request line is sure of its own answer, for all earlier connections and all directories, if and only if its method is not empty, `G` or `GE`, and, being a GET of an accepted version, it has a URI |
| `PoolWorker.HistoryMisleadsExactly` | multi_server/multi_server_thread_blocking_queue.c:82-124 | the histories that change an answer are exactly those that leave the rest of GET behind a short method, or, behind the terminator of an empty URI, a path that is a directory or hides that the empty one is |
| `PoolWorker.VerbDependsOnToken` | multi_server/multi_server_thread_blocking_queue.c:406-423 | over arbitrary buffers the verb depends on the token alone if and only if it has three bytes or already differs from GET and POS |
| `PoolWorker.ShortVerbAtFirst` | multi_server/multi_server_thread_blocking_queue.c:406-423 | a worker with fresh buffers answers a request whose method is empty, `G` or `GE` with 405 |
| `PoolWorker.ShortVerbAfterGet` | multi_server/multi_server_thread_blocking_queue.c:406-423 | after a GET refused for its URI no such request is answered 405; with a URI, or with a refused version, it is answered as the same line with GET would be |
| `PoolWorker.EmptyUriAfterDirectory` | multi_server/multi_server_thread_blocking_queue.c:98-114 | after a request for a directory, a GET with an empty URI is answered with that directory |
| `Dispatch.Statistics.WriteCode` | multi_server/multi_server_pre_forked_pool_of_processes.c:49-71 | the total and the counter of the status's class each go up by one, and nothing else changes |
| `Dispatch.Statistics.FileAnswer` | multi_server/multi_server_pre_forked_pool_of_processes.c:369-426 | a file request is counted once: under 404 if and only if it has a path and the file is not found, 403 if it is found and opening it is denied, 500 if it fails to open otherwise, 200 if it opens or there is no path |
| `Dispatch.Statistics.Respond` | multi_server/multi_server_pre_forked_pool_of_processes.c:204-231 | a request line is answered by the rules for its verb, version and URI, in that order, and counted once under that status or not at all |
| `Dispatch.Statistics.DoCall` | multi_server/multi_server_pre_forked_pool_of_processes.c:194-237 | the total and one class go up by one as the request line and the system's answers demand: 2xx when it is served, 4xx when it is no GET, no line, missing or forbidden, 5xx when its version is refused or something fails to open or to start, and nothing when its script is cut off |
| `Dispatch.StatusExactly` | multi_server/multi_server_pre_forked_pool_of_processes.c:204-231 | for all tokens and all answers of the system: the status is 404 if and only if it is a GET of an accepted version that asks for neither the statistics nor a script, whose path is no directory, not empty and not found; and likewise exactly when it is 403, 500, 405, 505, 200 or none; there are no others |
| `Dispatch.StatusIsDetermined` | multi_server/multi_server_pre_forked_pool_of_processes.c:194-237 | every connection ends with exactly one status, or is not counted |
| `Dispatch.StatusIsClassified` | multi_server/multi_server_pre_forked_pool_of_processes.c:599-645 | every status counted is in the 200s, 400s or 500s; a connection goes uncounted if and only if its script is cut off at the first line it sends |
| `SharedStatistics.KeepsInv` | multi_server/multi_server_pre_forked_pool_of_processes.c:49-71 | every step of every process and of the reporter keeps mutual exclusion, the loaded values fresh, the counts conserved and the totals growing |
| `SharedStatistics.OneAtATime` | multi_server/multi_server_pre_forked_pool_of_processes.c:50-70 | the semaphore's value plus its holders is one, so no two processes are between wait and post together |
| `SharedStatistics.RunPays` | multi_server/multi_server_pre_forked_pool_of_processes.c:49-71 | a step adds to the counters exactly what its process stops owing them |
| `SharedStatistics.TotalsAgree` | multi_server/multi_server_pre_forked_pool_of_processes.c:49-71 | whatever connections come, the total minus the four classes is one while a process is between its two increments and zero otherwise |
| `SharedStatistics.RestCountsEverything` | multi_server/multi_server_pre_forked_pool_of_processes.c:194-237 | when every process is back in accept, the total is the number of connections with a status, and each class the number with a status in its hundred: 200 to 299, 300 to 399, 400 to 499, 500 to 599 |
| `SharedStatistics.TotalsGrow` | multi_server/multi_server_pre_forked_pool_of_processes.c:475-501 | the totals read by the statistics page and the reporter never decrease, and every signal is either waiting in the semaphore or has started a report |
| `SharedStatistics.EveryTotalIsExact` | multi_server/multi_server_pre_forked_pool_of_processes.c:217-219 | over every run, each total read by a process or the reporter is, at the moment it is read and while its reader holds the semaphore, the number of connections with a status less those still owed; the totals are those of the reading steps, one each, in their order |
| `SharedStatistics.ReadAtLeisure` | multi_server/multi_server_pre_forked_pool_of_processes.c:217-219 | a total read while no process has a status to add is the number of connections with a status |
| `SharedStatistics.EveryTotalIsRead` | multi_server/multi_server_pre_forked_pool_of_processes.c:475-501 | totals read and totals still awaited are together the requests for the page and the reports begun |
| `SharedStatistics.ServingOrWaiting` | multi_server/multi_server_pre_forked_pool_of_processes.c:49-71 | in every reachable state a process that serves a connection can step, or waits for the semaphore while its holder can step |
| `SharedStatistics.EveryRunIsBounded` | multi_server/multi_server_pre_forked_pool_of_processes.c:49-71 | any schedule takes at most ten steps a connection and five a signal |
| `SharedStatistics.StopsOnlyWhenQuiet` | multi_server/multi_server_pre_forked_pool_of_processes.c:194-237 | a reachable state in which nobody can step is one where every process is in accept, the reporter is idle and no signal waits; and conversely |
| `SharedStatistics.EverythingIsDone` | multi_server/multi_server_pre_forked_pool_of_processes.c:194-237 | in such a state every connection with a status is counted, every page has read its total, and every signal has been reported |
| `SelectLoop.WatchAll` | multi_server/multi_server_thread_Listening_on_multiple_ports.c:184-193 | the set holds exactly the sockets in use and the bound is one above the highest |
| `SelectLoop.Accept` | multi_server/multi_server_thread_Listening_on_multiple_ports.c:199-211 | one pass makes the set whole again whatever was ready and whichever calls were interrupted; its calls of accept are one for each slot in use and ready, in slot order, with that slot's socket and answer; it queues what they returned |
| `SelectLoop.StartServer` | multi_server/multi_server_thread_Listening_on_multiple_ports.c:183-213 | every select is given exactly the listening sockets and a bound above all of them; the calls of accept are one for each turn and slot whose socket is ready in that turn, in the order of turns and slots, with the answer given there; and the queue is what the answers leave in it |
| `SelectLoop.CallsByPlaces` | multi_server/multi_server_thread_Listening_on_multiple_ports.c:199-211 | told from the turns alone: the calls of a run are those of the slots in use and ready, turn after turn and slot after slot, each of that slot's socket with that slot's answer |
| `SelectLoop.QueueByPlaces` | multi_server/multi_server_thread_Listening_on_multiple_ports.c:202-209 | the queue has one entry for each such slot whose accept was not interrupted, in that order: the descriptor answered there, or -1 |
| `SelectLoop.AsksEveryReadyListenerOnce` | multi_server/multi_server_thread_Listening_on_multiple_ports.c:200-210 | in one pass the sockets asked are the listeners that were ready, none of them twice |
| `SelectLoop.QueuesEveryConnectionOnce` | multi_server/multi_server_thread_Listening_on_multiple_ports.c:203-209 | leaving out the failures, the queue is the connections accepted, once each and in order |
| `SelectLoop.QueuesOnlyConnections` | multi_server/multi_server_thread_Listening_on_multiple_ports.c:204-208 | the queue holds descriptors only, if and only if no accept failed otherwise than by EINTR |
| `SelectLoop.FillSlots` | multi_server/multi_server_thread_Listening_on_multiple_ports.c:258-271 | the table is filled in order and never left; the server starts if and only if there are between 1 and 31 ports |
| `SelectLoop.RunServer` | multi_server/multi_server_thread_Listening_on_multiple_ports.c:183-278 | from the ports and what the kernel answers: every select is given exactly the sockets of the ports; the queue holds, for every turn and every port whose socket is ready in it and whose accept was not interrupted, in that order, the descriptor accepted there or -1 for a failure; so it holds descriptors only if and only if no accept on a ready socket failed otherwise than by EINTR |
| `SelectLoop.WatchesEveryPort` | multi_server/multi_server_thread_Listening_on_multiple_ports.c:258-278 | the table so filled makes the server watch the sockets of all ports, and nothing else |
| `DoubleCheckedLocking.KeepsInv` | Reference/multi_threading/Double-checked Locking.md:66-77 | every step of every thread keeps the protocol's invariant |
| `DoubleCheckedLocking.OneSingletonForAll` | Reference/multi_threading/Double-checked Locking.md:66-77 | however stale the loads: at most one object is built, the pointer changes at most once, and every caller returns that object, not null, with its construction visible |
| `DoubleCheckedLocking.GoesOnOrWaits` | Reference/multi_threading/Double-checked Locking.md:66-77 | in every reachable state a thread inside a call can step, or waits for a mutex that another thread holds that can step |
| `DoubleCheckedLocking.EveryRunIsBounded` | Reference/multi_threading/Double-checked Locking.md:66-77 | a run makes at most six steps for each call, whatever the order of the loads |
| `DoubleCheckedLocking.StopsOnlyWhenReturned` | Reference/multi_threading/Double-checked Locking.md:66-77 | a reachable state in which no thread inside a call can step is one where every call has returned, with the one object; and conversely |
| `DoubleCheckedLocking.PublishedIsFound` | Reference/multi_threading/Double-checked Locking.md:69-76 | after publication nothing is built or stored, and a caller with the lock takes the published pointer in its next step and returns it in the one after |
| `DoubleCheckedLocking.LocksInOneCallOnly` | Reference/multi_threading/Double-checked Locking.md:67-69 | a thread that has got the object once never takes the lock again |
| `DoubleCheckedLocking.SafeExactlyWithAcquire` | Reference/multi_threading/Double-checked Locking.md:67 | no run returns an object whose construction the caller cannot see, if and only if the first load is an acquire |
| `StoreBuffering.BarriersHold` | Reference/multi_threading/atomic/test.cpp:29-69 | with barriers no round, under any interleaving and any draining of the buffers, ends with x == 0 and y == 0 |
| `StoreBuffering.ReorderedRun` | Reference/multi_threading/atomic/test.cpp:29-69 | without barriers there is a run from any starting memory whose first round ends so |
| `StoreBuffering.ReorderingNeedsNoBarrier` | Reference/multi_threading/atomic/test.cpp:11-21 | the outcome the program reports is possible if and only if the barriers are compiled out |
| `StoreBuffering.OutcomesExactly` | Reference/multi_threading/atomic/test.cpp:29-69 | from any starting memory, a round can end with x and y if and only if both are 0 or 1 and, with barriers, not both 0 |
| `StoreBuffering.NeverStops` | Reference/multi_threading/atomic/test.cpp:29-69 | with or without barriers, in every reachable state some processor or buffer can step |
| `StoreBuffering.RoundsTakeTheirSteps` | Reference/multi_threading/atomic/test.cpp:45-69 | so every round ends: the rounds finished are the steps made divided by 23, in whatever order they are made |
| `ProcessTree.PrintTask` | linux_task_list/main.c:21-30 | walking the circular children lists prints the listing of the forest they hold, behind what was printed before, and terminates |
| `ProcessTree.PrintAll` | linux_task_list/main.c:32-37 | the first process, then everything below it from offset 4 |
| `ProcessTree.ParseListing` | linux_task_list/main.c:21-30 | a listing reads back as the forest it was printed from |
| `ProcessTree.ParsedPrintsBack` | linux_task_list/main.c:21-30 | whatever the lines, the forest read off them prints as exactly those lines |
| `ProcessTree.ListingDeterminesForest` | linux_task_list/main.c:21-30 | two forests print alike if and only if they are the same |
| `ProcessTree.IsListing` | linux_task_list/main.c:21-30 | lines are the listing of some forest if and only if reading them leaves nothing over |
| `Descendants.OnePath` | linux_task_list/main.c:21-30 | there is one line of descent from a task to each of those below it: every task has one parent and nobody is below himself |
| `Descendants.EveryDescendantOnce` | linux_task_list/main.c:21-30 | the lines printed are one for each proper descendant and no other task, in preorder, with the task's own pid and name and an offset that grows by four with every generation |
| `SharedHandles.Heap.constructor` | CXXPRIMER/template_for_shared_ptr.cpp:18-47 | an account without handles is in order |
| `SharedHandles.SharedPtr.New` | CXXPRIMER/template_for_shared_ptr.cpp:65-67 | the first handle on an object gets a counter of its own that stands at one; the account stays in order |
| `SharedHandles.SharedPtr.Copy` | CXXPRIMER/template_for_shared_ptr.cpp:78-85 | the copy points at the same object and counter, the count goes up by one for all who share it, nothing else changes, and the account stays in order |
| `SharedHandles.SharedPtr.Destroy` | CXXPRIMER/template_for_shared_ptr.cpp:21-62 | the count goes down by one; object and counter are deleted, once, if and only if no other handle shares them; the account stays in order |
| `SharedHandles.SharedPtr.UseCount` | CXXPRIMER/template_for_shared_ptr.cpp:42 | the count a live handle reports is the number of live handles on its object |
| `SharedPointer.DestroyOneOfMany` | CXXPRIMER/template_for_shared_ptr.cpp:21-62 | while other handles share the counter, destroying one frees nothing |
| `SharedPointer.DestroyTheLast` | CXXPRIMER/template_for_shared_ptr.cpp:21-62 | the last handle frees exactly its object and its counter |
| `SharedPointer.ApplyKeeps` | CXXPRIMER/template_for_shared_ptr.cpp:21-85 | no operation touches or frees what is not live, and each keeps every counter equal to the number of handles that share it |
| `SharedPointer.CountsAreRight` | CXXPRIMER/template_for_shared_ptr.cpp:21-85 | over any run, the count of a handle is the number of handles on its object; nothing is freed twice; when no handle is left, everything allocated has been freed |
| `SharedPointer.AssignKeepsOnlyShared` | CXXPRIMER/template_for_shared_ptr.cpp:97-106 | assignment keeps the account right if and only if both handles already share their counter |
| `BitCodec.StringToBinary` | CXXPRIMER/ascii_convert.cpp:15-26 | character 8i+j of the result is the j-th bit of byte i from the top |
| `BitCodec.BinaryToString` | CXXPRIMER/ascii_convert.cpp:28-41 | bit j of byte i is set if and only if character 8i+j is '1' |
| `BitCodec.DecodeAfterEncode` | CXXPRIMER/ascii_convert.cpp:15-41 | decoding what was encoded gives the bytes back, whatever they are |
| `BitCodec.EncodeAfterDecode` | CXXPRIMER/ascii_convert.cpp:15-41 | encoding what was decoded gives the characters back with all but '1' turned into '0'; it gives the same string if and only if that has whole bytes of zeros and ones |

## Left out

- `RequestLine.ReadRequestLine`: is for streams that are `Fits`; on the others the code writes outside its buffer and nothing is claimed.
- `RequestLine.ParseVersion`: requires a token of visible bytes, which is all the scan passes on; other text for `strtol` (white space, a NUL inside) does not arise.
- `Dispatch.StatusIsClassified`: a peer that has closed the connection makes `send` raise SIGPIPE, which the server neither ignores nor suppresses; a process killed by it inside `response` or `handle_bash` ends uncounted and is not modelled.
- `PoolWorker.ServeOne`: what the pages and listings contain is not modelled, nor the counting of the status, which the threaded server's `write_code` does under a semaphore it never posts.
- `Descendants.EveryDescendantOnce`: assumes, as the structures are laid out, that list heads are no list entries and that no two tasks share one; the tree does not change while it is printed.
- `Dispatch.Statistics.WriteCode`: does not model overflow of the int counters.
- `BlockingQueue.Queue.Put`: does not model a failing `calloc`, nor the wrap of the unsigned `length` at 2^32.
- `BlockingQueue.Queue.TryGet`: covers one pass of the wait loop; the waiting itself is in `WorkerPool`.
- `PoolProgress.EveryConnectionIsServed`: serving a connection is one step that ends; what it does is modelled in `RequestLine` and `Dispatch`.
- `SharedStatistics.OneAtATime`: starts from a semaphore of value one; the code unlinks another name than the one it opens, so a value left by an earlier server is not ruled out there.
- `SelectLoop.StartServer`: covers the turns in which `select` succeeds, and takes descriptor sets without the FD_SETSIZE bound.
- `DoubleCheckedLocking.OneSingletonForAll`: a store goes to the end of the pointer's history; stores placed earlier in the modification order are not modelled, and cannot arise while the invariant holds because the one store is made under the mutex.
- `StoreBuffering.BarriersHold`: creating a thread and ending one are taken to empty the store buffer, as the system calls behind them do; the two tasks have a processor each.
- `BitCodec.BinaryToString`: lengths of one to six characters over whole bytes are excluded, since the code then reads beyond the string's terminator.
- `SharedPointer.AssignKeepsOnlyShared`: the missing return at the end of `operator=` is not modelled.
- `SharedHandles.SharedPtr.New`: the default constructor, the custom deleter, `swap`, `unique` and `operator bool` do not compile or are unfinished, and are not modelled.
- Sockets, files, pipes, shared memory and process creation are inputs or outputs of the models.
- The text of the responses, the statistics page and the printed offsets' padding.
- `handle_bash` after its first line: time limits and the killing of process groups.
- `write_code` of the threaded servers, which takes the semaphore and never posts it; the protocol is that of the pre-forked server.
- `queue_destroy` and the exit handlers: teardown only.
- The other server files are near copies of those modelled.
- The remaining language demos state no property beyond what their own statements say.
