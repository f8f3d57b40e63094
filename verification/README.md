# Event servers, queues and handles of practice-code-c-cpp, modelled and proved

The repository is a collection of C and C++ practice programs. This project models the ones that are
real state machines, keeps their branches, constants and error paths, and proves what they are for.

| files | what they model |
|---|---|
| `PipelineMachine.dfy`, `PipelineSafety.dfy`, `PipelineOrder.dfy`, `PipelineProgress.dfy`, `PipelineBytes.dfy`, `PipelineEcho.dfy` | the echo server with one reactor thread and a pool of workers: an interleaving step system over any number of connections and workers, and theorems over all its runs |
| `PipelineProgram.dfy` | the same server's handlers, event loop and worker loop as imperative code, shown to make only runs of that system |
| `BlockingQueue.dfy`, `QueueProgress.dfy`, `QueueRefinement.dfy`, `QueueProgram.dfy` | the lock and condition-variable queue, at the grain of single atomic operations, as steps and as code |
| `PipelinePool.dfy` | the pipeline's task queue and pool as a run of the atomic queue |
| `AioReader.dfy`, `BufferSize.dfy` | the sliding-window asynchronous file reader, and the single-precision computation of its buffer size |
| `FdSet.dfy`, `SelectBook.dfy`, `SelectServer.dfy` | the `select` server: the bitmap in memory and in print, the books over descriptors, the pass over a set that changes underneath |
| `EpollServer.dfy` | the edge-triggered TCP server's accept, read and event loops |
| `RefCount.dfy`, `HandleScripts.dfy`, `HandleProgram.dfy` | the reference-counted integer handle; scripts of its operations and their meaning; programs that perform them |
| `Counting.dfy`, `Sequences.dfy` | occurrences of a value in a sequence; concatenation and logs |

## How to read it

*Pipeline.* A program counter per thread stands before the next system call or queue operation; an
action is one such operation, a client's move, or a spurious wakeup. The fetched but unhandled events
are part of the state. The eventfd is a semaphore: a read takes one unit, as the eventfd notes at
linux_event/eventfd/README.md:24-33 describe. Registering a readable descriptor raises an edge at
once; the kernel may forget the edge of a descriptor that is no longer readable. A run is any sequence
of enabled actions from the initial state, so a statement over all runs is one over all schedules,
arrivals and batch contents. The worker's one-second sleep is just a place where others may run.

*Queues.* In the pipeline a push with its wakeup, and a pop, a wait or a miss with the test before it,
are atomic. Two theorems connect this to the code of the queue. `PipelinePool.RunIsQueueRun` projects
every run of the pipeline to its task queue and pool: what is left is a run of the atomic queue.
`QueueRefinement.RunRefines` shows that the locked queue only makes runs of that atomic queue: there the
queue's operations are separate steps (the test, the wait, reading the front, the pop, and reading and
writing back the queue in a push), and others may act between any two; it needs that `SafeQueue::push`
notifies under its mutex. The request and response queues run the same code without waiters; for them
the step to one atomic operation is informal, since no lemma projects a run to those queues. FIFO and
work conservation are proved for both places of the notify, with a lock taken by a weak compare-and-swap
that may fail for no reason, which is no stronger than a mutex.

*Imperative parts.* Where the source updates fields and arrays in loops, the model is a class or a
method with a loop. In `PipelineProgram` and `QueueProgram` other threads act between any two atomic
operations; what they do comes from an arbitrary finite script, and so does which swaps fail for no reason.
What a thread itself did is stated step by step. Kernels (`AioReader.AioContext`,
`SelectServer.Kernel`, the calls in `EpollServer`) answer nondeterministically, and callers rely on
their contracts alone. They keep a log of the calls made and what they returned; contracts tie that log to
what the code is to do.

*Where the code does less than its name says*, the exact condition is proved and the code is left as
it is:

- replies keep their order exactly with at most one worker;
- the echo of a byte string is exact in every schedule exactly if it has no NUL, is shorter than the
  receive buffer (line 112 builds a C string from a buffer that a full `recv` leaves without terminator),
  and either the pool has one worker or the bytes are all equal: with the ten workers of line 14 even "ab"
  may come back as "ba";
- the file reader submits nothing for a file of one chunk and then waits forever
  (libaio_read.h:366-374), and it cannot succeed either if the kernel takes only part of its first batch;
  its buffer is too small exactly where the float rounds down to a chunk boundary;
- `max_fd` goes stale exactly by emptying the set;
- the handle's destructor never reclaims; an integer is deleted twice exactly if two assignments let go
  of last handles to blocks made for it.

## Model

| member | source | states |
|---|---|---|
| `PipelineSafety.InvStep` | linux_event/libevent/3.1single_reactor_multi_worker/server.cpp:53-198 | One step of anybody (reactor, worker, client, kernel) keeps the whole invariant: registration order, both queue accounts, and an edge, a fetched event or a running handler for everything readable. |
| `PipelineSafety.InvAfter` | linux_event/libevent/3.1single_reactor_multi_worker/server.cpp:201-248 | That invariant holds after every run, for every pool size, any number of connections and any scheduling. |
| `PipelineSafety.ReachableInv` | linux_event/libevent/3.1single_reactor_multi_worker/server.cpp:201-248 | The same, stated for every reachable state. |
| `PipelineSafety.EarlyReturnsUnreachable` | linux_event/libevent/3.1single_reactor_multi_worker/server.cpp:62-65 | In every reachable state, a worker that took a task finds a request, and the reactor that took an eventfd unit finds a response: neither "queue is empty" return is ever taken. The second return is at lines 144-147. |
| `PipelineSafety.NoLostWakeup` | linux_event/libevent/3.1single_reactor_multi_worker/server.cpp:124-152 | Edge-triggered no-lost-wakeup: a positive eventfd counter, unread bytes of a registered socket, or an unaccepted client always has a pending edge, sits in the fetched batch, or is being drained. |
| `PipelineSafety.Accounts` | linux_event/libevent/3.1single_reactor_multi_worker/server.cpp:61-77 | For every connection: requests queued = its tasks queued + workers holding an unstarted task for it + 1 between push and addQueue; responses queued = counter + workers between push and write + 1 between read and shift. While a worker sleeps, queued tasks are at most the awake workers heading for the queue. |
| `PipelineSafety.RequestsR` | linux_event/libevent/3.1single_reactor_multi_worker/server.cpp:112-119 | The reactor, by pushing the request before it posts the task, keeps the request account of every connection. |
| `PipelineSafety.ResponsesW` | linux_event/libevent/3.1single_reactor_multi_worker/server.cpp:70-77 | A worker, by pushing the response before it writes the eventfd, keeps the response account of every connection. |
| `PipelineSafety.ResponsesR` | linux_event/libevent/3.1single_reactor_multi_worker/server.cpp:130-147 | The reactor takes exactly one unit for each response it shifts. |
| `PipelineSafety.EdgesR` | linux_event/libevent/3.1single_reactor_multi_worker/server.cpp:130-141 | No reactor step, leaving a handler included, strands readable bytes or units: handlers leave only when drained. |
| `PipelineSafety.EdgesW` | linux_event/libevent/3.1single_reactor_multi_worker/server.cpp:74-77 | A write to a registered eventfd leaves an edge for the units it added. |
| `PipelineSafety.NotifyR` | linux_event/libevent/3.1single_reactor_multi_worker/WorkerPool.h:38-41 | Posting a task wakes a sleeper if there is one, so no queued task is left to sleepers. |
| `PipelineOrder.Conservation` | linux_event/libevent/3.1single_reactor_multi_worker/server.cpp:88-150 | On every connection, in every reachable state, each message was received as often as it is now sent, about to be sent, in the response queue, held by a worker, in the request queue or just received: nothing is lost, doubled or moved to another connection. |
| `PipelineOrder.ServedInOrder` | linux_event/libevent/3.1single_reactor_multi_worker/server.cpp:53-80 | With a pool of at most one worker, sent, about to be sent, response queue, worker, request queue and just received, in that order, spell the receive order. |
| `PipelineOrder.Overtaking` | linux_event/libevent/3.1single_reactor_multi_worker/server.cpp:53-80 | With two or more workers some run answers the second request of a connection first. |
| `PipelineOrder.OrderIffOneWorker` | linux_event/libevent/3.1single_reactor_multi_worker/WorkerPool.h:48-59 | Replies keep the order of requests in all runs if and only if the pool has at most one worker. |
| `PipelineProgress.WorkDecreases` | linux_event/libevent/3.1single_reactor_multi_worker/server.cpp:53-154 | Every step but a new client, new bytes or a spurious wakeup strictly decreases the work left, whoever takes it. |
| `PipelineProgress.QuietRunsEnd` | linux_event/libevent/3.1single_reactor_multi_worker/server.cpp:53-154 | Once clients are quiet a run can only be as long as the work that was left at its start. |
| `PipelineProgress.WhoRests` | linux_event/libevent/3.1single_reactor_multi_worker/server.cpp:227-229 | No thread can move only if the reactor waits with no edge pending and all workers sleep. |
| `PipelineProgress.RestIsAnswered` | linux_event/libevent/3.1single_reactor_multi_worker/server.cpp:53-154 | When no thread can move, every connection has an empty inbox and the multiset sent equals the multiset received. |
| `PipelineProgress.NeverStuck` | linux_event/libevent/3.1single_reactor_multi_worker/server.cpp:227-246 | While some received message is unanswered, or bytes are unread, some thread of the server can take a step. |
| `PipelineProgress.CanFinish` | linux_event/libevent/3.1single_reactor_multi_worker/server.cpp:227-246 | From every reachable state a quiet continuation, no longer than the work left, ends with every connection answered. |
| `PipelineBytes.FramedAfter` | linux_event/libevent/3.1single_reactor_multi_worker/server.cpp:87-113 | The chunks received are non-empty, at most 1024 bytes, and together with the unread bytes are exactly what arrived; message by message, each is its chunk up to the first NUL, or, from a full chunk without NUL, the chunk and something behind it. |
| `PipelineBytes.DecodingIsExact` | linux_event/libevent/3.1single_reactor_multi_worker/server.cpp:111-113 | Messages that are each their chunk, or what is before its first NUL, carry all bytes if and only if no chunk contains a NUL; otherwise bytes are missing. |
| `PipelineMachine.DecodesIff` | linux_event/libevent/3.1single_reactor_multi_worker/server.cpp:111-113 | The handler builds m from a chunk if and only if m has no NUL and is the whole chunk or stops right before a NUL of it; if the chunk leaves no terminator in the buffer, m starts with the chunk. |
| `PipelineEcho.EchoIsExactIff` | linux_event/libevent/3.1single_reactor_multi_worker/server.cpp:82-154 | For every size of the pool and every byte string: all resting runs in which a client sent it echo it exactly, if and only if it has no NUL, is shorter than the 1024-byte buffer, and there is one worker or its bytes are all equal; without workers, only if it is empty. |
| `PipelineEcho.NulIsLost` | linux_event/libevent/3.1single_reactor_multi_worker/server.cpp:111-113 | For every byte string with a NUL, a run that ends at rest and sends back fewer bytes. |
| `PipelineEcho.FullBufferOverreads` | linux_event/libevent/3.1single_reactor_multi_worker/server.cpp:87-112 | For every NUL-free byte string of 1024 bytes or more, a run that ends at rest and sends back one byte more, read from behind the buffer. |
| `PipelineEcho.OrderIsLost` | linux_event/libevent/3.1single_reactor_multi_worker/server.cpp:53-80 | With two or more workers, for every short NUL-free byte string and every position in it but the first, a run that ends at rest and whose echo starts with the byte at that position. |
| `PipelineEcho.EqualBytesAreEchoed` | linux_event/libevent/3.1single_reactor_multi_worker/server.cpp:53-154 | Short NUL-free strings of equal bytes come back exactly, whatever the pool and the schedule. |
| `PipelinePool.RunIsQueueRun` | linux_event/libevent/3.1single_reactor_multi_worker/WorkerPool.h:38-59 | Every run of the pipeline, projected to its task queue and pool, is a run of the atomic queue on the tasks it posts: same queue, same sleepers, same tasks in hand; tasks are taken in the order posted. |
| `PipelinePool.StepIsQueueStep` | linux_event/libevent/3.1single_reactor_multi_worker/WorkerPool.h:38-59 | Posting, taking a task, going to sleep, waking and finishing are each one atomic action of the queue. |
| `PipelineProgram.Server.RespondOnce` | linux_event/libevent/3.1single_reactor_multi_worker/server.cpp:132-150 | One turn of the response loop: read, shift, send are what the reactor did, and exactly the response that was first in the queue was sent, with others interleaved between each two. |
| `PipelineProgram.Server.RspHandler` | linux_event/libevent/3.1single_reactor_multi_worker/server.cpp:124-154 | The response loop, with any interference, terminates and extends the run by complete turns and then EAGAIN, with the counter at zero and the fetched batch untouched. |
| `PipelineProgram.Server.RequestOnce` | linux_event/libevent/3.1single_reactor_multi_worker/server.cpp:88-121 | One turn of the receive loop: a non-empty prefix of the inbox is received; the message has no NUL and is that prefix, up to its first NUL or, without a terminator, together with what is in memory behind it up to a NUL; it is queued before its task is posted. |
| `PipelineProgram.Server.SockHandler` | linux_event/libevent/3.1single_reactor_multi_worker/server.cpp:82-122 | The receive loop likewise is complete turns and then EAGAIN, with nothing unread. |
| `PipelineProgram.Server.ConnectionHandler` | linux_event/libevent/3.1single_reactor_multi_worker/server.cpp:156-198 | The accept loop likewise, each client registered socket first, with an empty backlog at the end. |
| `PipelineProgram.Server.EpollWait` | linux_event/libevent/3.1single_reactor_multi_worker/server.cpp:229 | Returns no events exactly when none is pending, else between one and ten distinct pending ones. |
| `PipelineProgram.Server.Turn` | linux_event/libevent/3.1single_reactor_multi_worker/server.cpp:227-247 | One round of the event loop is the wait, then one complete handler call for each fetched event in order, then the way back; it blocks, having done nothing, exactly if no edge is pending. |
| `PipelineProgram.Server.EventLoop` | linux_event/libevent/3.1single_reactor_multi_worker/server.cpp:201-248 | Any number of turns, with others in between: each turn starts after exactly what the reactor did in those before it and is one wait, one complete call for each fetched event in order, and the way back; a turn that blocks does nothing and found nothing pending. About to wait, everything readable (clients, bytes, responses) has a pending edge. |
| `PipelineProgram.Server.RunTask` | linux_event/libevent/3.1single_reactor_multi_worker/WorkerPool.h:48-59 | A worker naps until there is a task, takes it, and moves exactly one message: what it took was the first request of the task's connection, and that message is what it queued as response before the eventfd write. It is left asleep only if it slept and nobody does anything any more. |
| `PipelineProgram.Server.DataHandler` | linux_event/libevent/3.1single_reactor_multi_worker/server.cpp:53-80 | The task finds a request, whatever others did, and that request becomes the response of the same connection. |
| `BlockingQueue.InvStep` | linux_event/libevent/3.1single_reactor_multi_worker/SafeQueue.h:24-42 | Any step of any thread (test, wait, front, pop, read and write-back of a push being separate steps) keeps mutual exclusion, what threads found out about the queue, FIFO and work conservation, for notify under or after the lock. |
| `BlockingQueue.CurrentStep` | linux_event/libevent/3.1single_reactor_multi_worker/SafeQueue.h:32-42 | Because of mutual exclusion, what a thread found out under the lock still holds when it acts on it: empty is empty, the front is the front, what a push read is the queue. |
| `BlockingQueue.MutualExclusion` | thread/condition_variable/condition_variable_test.h:14-37 | Any threads, any interleaving, any spurious failure of the weak swap: the flag is up exactly while a thread is between its successful swap and its store, and never two are. |
| `BlockingQueue.FirstInFirstOut` | thread/condition_variable/condition_variable_test.h:103-127 | Popped values followed by the queue are always the pushed values in order, though a pop first reads the front and then removes whatever is in front, and a push writes back what it read. |
| `BlockingQueue.SleepersAreNotNeeded` | linux_event/libevent/3.1single_reactor_multi_worker/SafeQueue.h:24-42 | While a consumer sleeps, queued values are at most the awake consumers heading for one plus the producers between push and notify; others may act between the emptiness test and the wait, and wakeups may be spurious. |
| `BlockingQueue.NotifyConserves` | thread/condition_variable/condition_variable_test.h:98-108 | A notify, at either place, moves one obligation from the producer to a woken consumer or finds nobody asleep. |
| `QueueProgress.ProductiveStepsEnd` | thread/condition_variable/condition_variable_test.h:98-133 | Every step but a failing swap or a spurious wakeup decreases the remaining work. |
| `QueueProgress.WhoRests` | thread/condition_variable/condition_variable_test.h:98-133 | If only spinning is possible, the lock is free, producers are done and consumers sleep. |
| `QueueProgress.DueAfter` | thread/condition_variable/condition_variable_test.h:100-108 | In every run, values pushed and values still due make up what the producers had at first, each as often. |
| `QueueProgress.OwnOrder` | thread/condition_variable/condition_variable_test.h:100-108 | In every run, what a producer pushed followed by what it still has is what it had at first: its values enter in its order, each once. |
| `QueueProgress.RestMeansDrained` | thread/condition_variable/condition_variable_test.h:113-133 | With a consumer present, at rest everything was popped in push order, each value as often as producers had it at first. |
| `QueueRefinement.StepRefines` | linux_event/libevent/3.1single_reactor_multi_worker/SafeQueue.h:24-51 | With the notify under the lock, each step is invisible or one atomic action: push and wake, take (test, front and pop), sleep (test and wait), miss (test and return) or finish. |
| `QueueRefinement.RunRefines` | linux_event/libevent/3.1single_reactor_multi_worker/SafeQueue.h:24-51 | Every run of the single operations is a run of the queue whose operations are atomic, with the same logs of who pushed and popped what; the pipeline uses that grain. |
| `QueueProgram.Monitor.Lock` | thread/condition_variable/condition_variable_test.h:20-28 | The swap loop with others interleaved: what the thread did is failed swaps, each followed by its reset, and, if and only if it got the lock, one that succeeded; a swap fails for no reason only when the given outcomes say so. It gives up only if it would spin for ever: the last swap failed because the lock is taken, and nobody else does anything any more. |
| `QueueProgram.Monitor.PushOne` | linux_event/libevent/3.1single_reactor_multi_worker/SafeQueue.h:24-29 | The thread locks, reads and writes the queue, and notifies and releases in the order of the variant: it pushed the front value of its work, once, and nothing else; otherwise it did nothing but spin, for ever. |
| `QueueProgram.Monitor.Provide` | thread/condition_variable/condition_variable_test.h:98-111 | The producer loop is one such push for each of its values, in order; it stops earlier only spinning for ever, having pushed a prefix and kept the rest. |
| `QueueProgram.Monitor.AwaitValue` | linux_event/libevent/3.1single_reactor_multi_worker/SafeQueue.h:34-38 | The wait loop is turns of lock, test and sleep, then lock and test: it returns holding the lock with a queue that is not empty, whatever others did between test and wait or test and return, and whatever wakeups were spurious; otherwise it sleeps or spins for ever. |
| `QueueProgram.Monitor.Shift` | linux_event/libevent/3.1single_reactor_multi_worker/SafeQueue.h:32-42 | The wait loop, then front, pop, release, with others between them: the thread itself popped exactly the value returned. It fails only asleep or spinning for ever, and not on a free lock with a value in the queue and nobody in the way. |
| `QueueProgram.Monitor.ShiftNoWait` | linux_event/libevent/3.1single_reactor_multi_worker/SafeQueue.h:44-51 | The same without waiting: lock, test, and then front, pop, release, or, exactly on an empty queue, a miss without a pop. |
| `AioReader.AioContext.Submit` | linux_io/4.aio/kernel_aio/libaio_read.h:374 | Takes a leading part of the batch, at least one request, or none with an error, or a request beyond the buffer; what it took is in flight, within capacity and buffer, with disjoint memory. |
| `AioReader.AioContext.GetEvents` | linux_io/4.aio/kernel_aio/libaio_read.h:383 | Any non-empty selection of distinct requests in flight completes; only their data is guaranteed, memory of the others may be anything. |
| `AioReader.Prepare` | linux_io/4.aio/kernel_aio/libaio_read.h:355-371 | The first loop readies the first min(MAX_EVENT, chunks - 1) chunks in order, none for a file of at most one chunk. |
| `AioReader.LaunchNext` | linux_io/4.aio/kernel_aio/libaio_read.h:392-404 | A completion launches the next chunk while the file is not covered, never beyond capacity, never over memory in flight, and keeps the window full; if it fails, all earlier requests were in the buffer. |
| `AioReader.Fetch` | linux_io/4.aio/kernel_aio/libaio_read.h:381-386 | Completed chunks hold file data, and chunks completed earlier keep theirs while others are still being written. |
| `AioReader.HandleEvents` | linux_io/4.aio/kernel_aio/libaio_read.h:386-406 | Handling a batch of any size advances completions, window and `ready` in step. |
| `AioReader.AwaitAll` | linux_io/4.aio/kernel_aio/libaio_read.h:378-410 | The wait loop ends, whatever the completion order and batching; it waits only with a request in flight, stops early only at an answer that took nothing, and hangs only after all that was offered completed. |
| `AioReader.BatchRead` | linux_io/4.aio/kernel_aio/libaio_read.h:355-418 | For every file, buffer, capacity and chunk size, and by the answers of the kernel: refused if and only if the last answer is a refusal; beyond the buffer if and only if the last answer is such a request, a chunk that the buffer does not hold; all answers before took something. A file of at most one chunk hangs, and another one only after a first batch that was taken in part, when all that was offered has completed; then no file is ever returned. Else each chunk is submitted once in order, nothing is left in flight, and the file is returned. All requests before the end were in the buffer. |
| `AioReader.BatchReadByLibAIO` | linux_io/4.aio/kernel_aio/libaio_read.h:328-419 | With the buffer the code allocates and a kernel that takes all requests, a request reaches beyond it if and only if the file is longer than 1024 bytes and single precision rounds its size down to a chunk boundary. With any kernel, the outcome follows from its answers, a file that is returned is right, an overrun means such a size, and earlier requests were in range. |
| `AioReader.CulpritMeansUnsafe` | linux_io/4.aio/kernel_aio/libaio_read.h:341-343 | A chunk of the file beyond the buffer means that rounding took the size down to a chunk boundary. |
| `BufferSize.ToFloatIsNearest` | linux_io/4.aio/kernel_aio/libaio_read.h:341 | The conversion gives a binary32 number and none is nearer (section 4.3.1 of IEEE 754-2008). |
| `BufferSize.TiesToEven` | linux_io/4.aio/kernel_aio/libaio_read.h:341 | If another binary32 number is as near, the conversion gives the one with the even significand. |
| `BufferSize.AlignCoversIffSafe` | linux_io/4.aio/kernel_aio/libaio_read.h:341 | The computed size covers the file if and only if rounding does not take the size down to the chunk boundary below it. |
| `BufferSize.AlignIsWhole` | linux_io/4.aio/kernel_aio/libaio_read.h:341-343 | The size is a whole number of chunks, so covering the file and covering its last chunk are the same. |
| `BufferSize.AlignIsLeast` | linux_io/4.aio/kernel_aio/libaio_read.h:341 | Up to 2^24 bytes it is the least multiple of 1024 not below the file size. |
| `BufferSize.AlignTooSmall` | linux_io/4.aio/kernel_aio/libaio_read.h:341 | The file of 2^24 + 1 bytes gets a buffer of 2^24, and is one of the unsafe sizes. |
| `FdSet.SetFd` | linux_io/3.io_multiplexing/select/utils.h:5 | In memory, exactly one member is added to the bitmap. |
| `FdSet.ClearFd` | linux_io/3.io_multiplexing/select/utils.h:12 | In memory, exactly one member is removed. |
| `FdSet.PrintBits` | linux_io/3.io_multiplexing/select/utils.h:20-33 | Character 8n-1-x of the text is the bit of descriptor x, for all x. |
| `FdSet.PrintSet` | linux_io/3.io_multiplexing/select/utils.h:35-45 | Character 65*(fd/64) + 63 - fd%64 is 1 exactly for members; a space ends each word, a newline the line. |
| `FdSet.ParseRecovers` | linux_io/3.io_multiplexing/select/utils.h:35-45 | Reading those positions back gives exactly the set that was printed. |
| `SelectBook.MaxIsUpperBound` | linux_io/3.io_multiplexing/select/utils.h:4-18 | After any sequence of AddFd and RemoveFd bitmap and set agree and max_fd bounds every member. |
| `SelectBook.MaxIsExactIffRefreshed` | linux_io/3.io_multiplexing/select/utils.h:14-17 | max_fd is the exact maximum if and only if, since the set was last empty, a descriptor no smaller than the value cached then was added. |
| `SelectBook.StaleExample` | linux_io/3.io_multiplexing/select/utils.h:14-17 | Add 5, remove 5, add 3 leaves max_fd at 5. |
| `SelectServer.Server.AddFd` | linux_io/3.io_multiplexing/select/utils.h:4-8 | Bitmap, set and maximum change together as the value model says. |
| `SelectServer.Server.RemoveFd` | linux_io/3.io_multiplexing/select/utils.h:10-18 | Likewise, and the iterator moves to the least element above the erased one. |
| `SelectServer.Server.HandleClient` | linux_io/3.io_multiplexing/select/server.cpp:93-125 | One recv; if it returned an error or the end of the stream, the client leaves bitmap, set and open sockets together, else one send and it stays; the iterator is past it. |
| `SelectServer.Server.HandleListening` | linux_io/3.io_multiplexing/select/server.cpp:80-92 | One accept: if it fails nothing changes, else the unused number it returned joins all three books, possibly ahead of the iterator. |
| `SelectServer.Server.Pass` | linux_io/3.io_multiplexing/select/server.cpp:71-126 | A pass over the set while it changes ends; the system calls it made are, for the ready descriptors in ascending order, one complete service each and nothing else; none accepted in the same pass is read, even under a reused number; the set afterwards follows from the calls; bitmap = set = open sockets and max_fd stays exact. |
| `SelectServer.Server.Turn` | linux_io/3.io_multiplexing/select/server.cpp:59-126 | One turn prints a line that parses to the watched set, asks select about exactly that set, with the least bound that leaves none of it out, and is a pass as above over what select reported. |
| `SelectServer.Server.SelectINET` | linux_io/3.io_multiplexing/select/server.cpp:37-129 | Any number of such turns: each starts with the set in which the one before ended, and the calls made are one select and the calls of one pass for each turn. |
| `SelectServer.MaxAfterRemove` | linux_io/3.io_multiplexing/select/utils.h:14-17 | Removing one of several descriptors keeps an exact maximum exact. |
| `EpollServer.EpollTcpServer.OnSocketRead` | linux_io/3.io_multiplexing/epoll_demo/epoll_server.cpp:364-400 | Whatever arrives meanwhile: packets are read, handed on and written back, one call after the other, until the read that ends the loop. At EAGAIN nothing is unread and all is open and watched as before; otherwise the descriptor, and only it, is closed. Only the last write can have failed, and then the next read does; at the end of the stream all of it was handed on. Nobody else's edge is lost. |
| `EpollServer.EpollTcpServer.OnSocketAccept` | linux_io/3.io_multiplexing/epoll_demo/epoll_server.cpp:297-348 | Those who waited or came meanwhile are accepted in order until none waits, each with its calls: without a failed call it is then open and watched; if it could not be made non-blocking or added, it is closed; if its address cannot be had, it stays open and unwatched. Nobody open or watched before is dropped, new sockets with bytes have an edge, and nobody's edge is lost. |
| `EpollServer.EpollTcpServer.ReadAndDeliver` | linux_io/3.io_multiplexing/epoll_demo/epoll_server.cpp:370-382 | The packet handed on is 1 to 4096 bytes, goes to that connection only, EAGAIN means nothing is left, and the end of the stream that all of it was handed on. |
| `EpollServer.EpollTcpServer.SendData` | linux_io/3.io_multiplexing/epoll_demo/epoll_server.cpp:410-431 | One write of the packet; a failing one closes the descriptor, and EAGAIN changes nothing. |
| `EpollServer.EpollTcpServer.EpollWait` | linux_io/3.io_multiplexing/epoll_demo/epoll_server.cpp:447 | A fetched edge is gone from the kernel but in the batch; unfetched ones stay. |
| `EpollServer.EpollTcpServer.Turn` | linux_io/3.io_multiplexing/epoll_demo/epoll_server.cpp:444-496 | One wait, then for each event in order one service: a close for an error, hangup or half-close, else accepting or reading as above. After it, descriptors reused, closed or accepted on the way included, everything readable has an edge again. |
| `EpollServer.EpollTcpServer.EpollLoop` | linux_io/3.io_multiplexing/epoll_demo/epoll_server.cpp:434-499 | The calls made are those of that many turns, and what is open and watched follows from them. About to wait, every watched descriptor with unread bytes or waiting clients has a pending edge; packets are non-empty, at most 4096 bytes, and concatenate to a prefix of the connection's stream. |
| `RefCount.IntPtr.FromRaw` | basic/pointer/pointerTest.h:36 | A new block counting one handle, for any raw pointer, adopted before or not; all counts stay exact. |
| `RefCount.IntPtr.Copy` | basic/pointer/pointerTest.h:38-41 | A copy of a live non-null handle shares the block and is counted. |
| `RefCount.IntPtr.Assign` | basic/pointer/pointerTest.h:43-62 | For any two live handles (same, aliased, null): the left shares the right's block and name, counts stay exact, a block is deleted exactly if the left was its only handle and it is not the right's block, and exactly that block's integer is deleted once more. |
| `RefCount.IntPtr.Destroy` | basic/pointer/pointerTest.h:63-70 | The block counts one handle less, reads zero exactly if this was the only one, and is never deleted. |
| `RefCount.IntPtr.GetVal` | basic/pointer/pointerTest.h:71-73 | Through a live non-null handle the block read is not deleted, nor its integer while no integer was deleted too early. |
| `RefCount.IntPtr.SetVal` | basic/pointer/pointerTest.h:74-76 | All handles to the integer see the new value, all others what they saw. |
| `HandleProgram.Program.Reassign` | basic/pointer/pointerTest.h:43-62 | Assignment by handle position has the intended meaning on sharing, deletion, names, values and how often each integer was deleted. |
| `HandleProgram.RunScript` | basic/pointer/pointerTest.h:31-80 | Over every script of create, adopt, adopt again, copy, assign, destroy and write: each live handle has the name and reads the value that the script means; its block is not deleted and counts its live handles, handles share blocks as the script means, no block is deleted twice; some undeleted block has no handle if and only if the script destroyed a last handle; and no integer is deleted twice or before one of its blocks, if and only if each integer is adopted only once or no last handle to its blocks is ever assigned to. |
| `HandleScripts.HoldsLastGiven` | basic/pointer/pointerTest.h:71-76 | After every script an integer has the value it was given last, by its adoption or by a write through whichever handle read it then. |
| `HandleScripts.ReclaimsIffNoLastDrop` | basic/pointer/pointerTest.h:43-70 | A script leaves no unreachable undeleted block if and only if it never destroys the last handle to a block: assignment reclaims, the destructor does not. |
| `HandleScripts.LeakExample` | basic/pointer/pointerTest.h:63-70 | One integer, whose only handle is destroyed, leaks. |
| `HandleScripts.FreesAreCounted` | basic/pointer/pointerTest.h:21-29 | Over every script an integer is deleted once for each deleted block that was made for it. |
| `HandleScripts.FreesAreTimes` | basic/pointer/pointerTest.h:51-57 | An integer is deleted exactly as often as the script assigns to the last handle of a block made for it: the guard at line 54, counted over the script. |
| `HandleScripts.DeletedTwiceIff` | basic/pointer/pointerTest.h:51-57 | An integer is deleted twice if and only if two operations of the script, at different positions, assign to the last handle of a block made for it. |
| `HandleScripts.SoundIff` | basic/pointer/pointerTest.h:21-62 | No integer is deleted twice or before one of its blocks, if and only if each is adopted only once or is never let go of by assignment to a last handle. |
| `HandleScripts.DeletedAtMostOnce` | basic/pointer/pointerTest.h:36 | Without a second adoption an integer is deleted exactly when its one block is, and once. |
| `HandleScripts.DoubleDeleteExample` | basic/pointer/pointerTest.h:36 | A raw pointer given to two handles is deleted twice once both have moved on. |

## Left out

- Connection teardown in the pipeline (server.cpp:93-103): the record is freed while workers may hold it; connections stay open and queues live on.
- Failing `recv`, `accept`, `send`, `epoll_ctl` and eventfd `write` in the pipeline, where the code exits or only reports; the eventfd counter is unbounded, so its limit of 2^64 - 2 is not modelled.
- Events without EPOLLIN in the pipeline (server.cpp:241-243), which are only printed.
- Fairness: progress is stated as a decreasing measure and an enabled step, not as a property of infinite runs; the scripts of the imperative parts are finite.
- `SafeQueue::empty`, `size` and the destructor; `WorkerPool` tasks that are null (WorkerPool.h:55-56), which nobody posts; the demo `prepareThread` and `waitForPrepareThread`.
- Lock, PushOne, Provide, AwaitValue, Shift, ShiftNoWait, RunTask: a thread that would spin or sleep for ever, because nobody does anything any more, returns with a flag instead.
- A push reads and writes the queue as a whole; the pointers and blocks inside `std::queue` are not modelled. A queue's destruction is not either.
- The resubmission at libaio_read.h:399 submits exactly one request, as the comment at line 390 intends, although the call passes MAX_EVENT. `io_setup` does not fail, a completion always carries the file's bytes, control blocks are values, so their leak is not modelled, and the model ends at the first request beyond the buffer.
- Other functions of libaio_read.h, which demonstrate errors.
- In the `select` server: message contents (it always sends back the whole 1024-byte buffer), failing `select`, blocking `send`, and descriptors of 1024 and above, which `accept` is taken not to return.
- In the epoll server: the callback is the echoing one, which calls `SendData`. Not modelled: `Stop` and `loop_flag_`, partial writes, the write handler, the client class. What clients send, how often `accept` fails and how many turns the loop makes are finite but arbitrary.
- IntPtr: use of a handle after its destruction and of a null handle by `get_val`, `set_val` and the copy constructor, which do not check; the size of the count; exception safety; raw pointers deleted by anybody else.
- Real sockets, addresses, `printf` other than PrintSet, sleeps, the other servers, clients, timers and language exercises.
