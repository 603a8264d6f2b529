# A verified model of TinyWebServer

TinyWebServer is a small multi-threaded HTTP/1.1 server in C++. This project models five
connected parts of it in Dafny and proves what they are for. `dafny verify dfyconfig.toml`
checks everything.

**Connections and timers.** `TimerManager.dfy` is the doubly linked list of timers as it lies on the
heap, with its in-place insertion, splice and removal; `TimerQueue.dfy` says what its operations do
to the list as a sequence, and `TimerRuns.dfy` that whole runs of them do what a plain table from
timers to deadlines says; `TimerLives.dfy` drives the list on the heap through such runs.
`ClientTimers.dfy` adds the handles that the sockets store. `EventLoop.dfy` is the loop with its
epoll registration, its timers and its sockets; `LoopModel.dfy` says what each of its phases does,
and `LoopTheorems.dfy` proves what holds in every run: ownership, use before deletion only, one
Accept, one Close and one deletion for each client, exact timeouts, and what the registration
counter is worth. `LoopLedger.dfy` says what the inputs alone make of clock, clients and log, and
proves that every run keeps to it.

**Requests and responses.** `Url.dfy` is percent-coding, `HeaderMap.dfy` the case-insensitive hash
table, `HttpText.dfy` the grammar that the parser accepts, with a printer, and `HttpTheorems.dfy`
the proof that the two are inverse; `Framing.dfy` says where the parts lie in the data.
`HttpRequest.dfy` is the parser with its running offset. `HttpResponse.dfy` holds what a handler
sets and what is printed, `Ranges.dfy` the range arithmetic, `Decimal.dfy` the numbers.
`RequestTheorems.dfy` and `ResponseTheorems.dfy` are the round trips.

**The thread pool** (`ThreadPool.dfy`) is a step system of workers, enqueuing threads and the
destructor over the queue, the lock, the condition variable and the stop flag.

**Byte transfer** (`ByteTransfer.dfy`) is reading until the kernel has nothing more, and sending
from a file, against a kernel that splits, interrupts and refuses as it likes.

**Services.** `FilePool.dfy` is the cache of open files with lookups interleaved at every gap
between critical sections. `Dispatch.dfy` is the routing table. `HttpServices.dfy` is one call of
`process`, `Connection.dfy` all calls for one client in a run of the event loop, and
`ServiceTheorems.dfy` what a handler is shown. `ReplyTheorems.dfy` says what a client reads of any
reply, and `SharedFiles.dfy` follows a shared file, or a range of it, from the client's request to
the response that it reads.

## Reading the model

Where the source changes state in place, there is a class with the same fields, and each method
is proved equal to a function on values (`View() == LoopModel.Serve(old(View()), r)`, for example).
The theorems are about those functions. Another thread may ask for listeners to be unregistered at
any moment: before the wait, before any entry of either queue, and before the timers are checked.
At all other moments it makes no difference (`LoopTheorems.HandleCommutes`, `FailCommutes`,
`ExpireCommutes`). Inputs from outside are arguments, so a statement about
all arguments is one about all runs: which descriptors are reported, what `accept` answers, the
clock, how the kernel cuts data up, the date, the order in which a hash table is iterated, the
entry that a full cache gives up, what a user's handler does to a response.

Assumptions: the clock does not go back; a timeout does not change while its timer exists; each
batch of `epoll_wait` reports distinct registered descriptors; registering with the kernel and
unregistering (`epoll_ctl`) succeed; the file system does not change while files are cached; sizes
fit into 64 bits.

## What turned out not to hold

* `restart` leaves the list unsorted when the deadline moves back. `RestartedSortedIff` gives the
  exact condition, `RestartCanBreakOrder` an example. With a clock that does not go back and fixed
  timeouts it cannot happen (`TimerRuns.RunRefines`).
* The registration counter is decremented whether or not the socket was registered. A listener that
  fails and is unregistered as well counts twice, whether it is unregistered behind the failure
  (`RunCanStopEarly`) or in front of it, when the report is already waiting
  (`RunCanStopBehindReport`): the loop can then stop with clients still open. When the loop ends by
  its counter, everything is gone if and only if listeners were only ever unregistered while they
  were registered and did not wait in the error queue (`RunStopsEmptyIff`).
* The destructor of the thread pool sets the stop flag without the lock. A worker that stands
  between looking at the condition and blocking can then sleep for ever. `StrandedIff` says that
  this is the only way.
* Reading spins for ever when the end of the file is reported while `errno` still says that an
  earlier call was interrupted. `ReadingReturnsIff` says that it returns otherwise.
* A single byte in front of the last one, as in `bytes=5-5`, is answered with the rest of the
  file (`SingleByteOverserved`); an end beyond the file, a start beyond it (`UnsatisfiableServed`)
  and the last so many bytes, as in `bytes=-500` (`SuffixOverserved`), with all of it. `ServedIff`
  says of every byte-range request whether it is answered as it is meant.
* The comparison of header names takes two sizes for equal when they differ by a multiple of
  2^32, and such names may hash apart (`ConfusedNamesHashApart`). It does not look behind a NUL
  that both names have, so that a header whose name differs from another only there is dropped
  (`NulHidesHeader`). `NocaseEqualIff` says that it means equality but for case otherwise.
* What an invalid request leaves in the request of the thread gets in front of the next one, and
  the view of a body stays when the next request has none. `ResiduePollutes` says that nothing
  left over goes unnoticed, the contract of `Process` when a call leaves something, and
  `CallTwice` when the second of two calls shows its handler what a new request would.
* The comment on `setMaxTimes` (TinyWebServer/src/abstract/abstractservices.h:21-26) speaks of the
  maximum number of requests. With a limit of n the code answers n + 1 (`ConnectionBound`,
  `BoundIsReached`).
* The file pool forgets files that are still open: those that a full cache gives up, and those
  whose name another thread has cached first. `OrphanIff` says so of each step, `RunOrphanIff` of
  each file in a run.

## Model

| member | source | states |
|---|---|---|
| TimerManager.Timer.Reset | TinyWebServer/src/util/timermanager.h:28-29 | the deadline becomes the clock reading plus the timer's own timeout |
| TimerManager.TimerList.SearchBack | TinyWebServer/src/util/timermanager.h:78-84 | the backward search stops behind the last timer that is due before the deadline |
| TimerManager.TimerList.Link | TinyWebServer/src/util/timermanager.h:81-84 | linking a node in front of another inserts it there; the links stay consistent in both directions |
| TimerManager.TimerList.Unlink | TinyWebServer/src/util/timermanager.h:101-105 | unlinking removes exactly that node, and all other handles stay what they are |
| TimerManager.TimerList.Start | TinyWebServer/src/util/timermanager.h:71-85 | a new timer goes to its rank; every old handle stays valid |
| TimerManager.TimerList.Restart | TinyWebServer/src/util/timermanager.h:87-99 | the deadline is overwritten first, then the timer is spliced behind the last one due before it, itself perhaps among those searched |
| TimerManager.TimerList.Splice | TinyWebServer/src/util/timermanager.h:96-97 | splicing moves one node, in front of itself or of its successor to where it was |
| TimerManager.TimerList.Destory | TinyWebServer/src/util/timermanager.h:101-105 | a live handle is removed; on an empty list nothing happens |
| TimerManager.TimerList.Checkout | TinyWebServer/src/util/timermanager.h:107-119 | the prefix that is due is popped, in order, and its user data appended to the list |
| TimerManager.TimerList.TakeFirst | TinyWebServer/src/util/timermanager.h:125-137 | the front is popped and its user data returned, if there is one |
| TimerQueue.RestartedAt | TinyWebServer/src/util/timermanager.h:92-98 | where a restarted timer ends up; it stays when no deadline is smaller |
| TimerQueue.StartedSorted | TinyWebServer/src/util/timermanager.h:71-85 | starting keeps the list sorted |
| TimerQueue.RestartedSortedIff | TinyWebServer/src/util/timermanager.h:87-99 | restarting keeps a sorted list sorted if and only if the timer is in front, or its predecessor is not due later, or the front is due earlier |
| TimerQueue.RestartCanBreakOrder | TinyWebServer/src/util/timermanager.h:87-99 | an earlier deadline can leave the list unsorted |
| TimerQueue.RestartedTable | TinyWebServer/src/util/timermanager.h:87-99 | restarting changes one entry of the table of deadlines and loses or doubles none |
| TimerQueue.CheckoutExact | TinyWebServer/src/util/timermanager.h:114-118 | on a sorted list the popped prefix is exactly the set of timers that are due |
| TimerQueue.TakeFirstIsMinimal | TinyWebServer/src/util/timermanager.h:125-137 | the first timer of a sorted list has the least deadline of all |
| TimerRuns.StepRefines | TinyWebServer/src/util/timermanager.h:71-137 | every operation keeps the list sorted, with different timeouts, and changes the table of deadlines as a plain map would |
| TimerRuns.RunRefines | TinyWebServer/src/util/timermanager.h:71-137 | the same at every step of every run from an empty list |
| TimerLives.Live | TinyWebServer/src/util/timermanager.h:71-137 | the list on the heap, driven through any operations with a timeout for each timer, holds in order what the run of the value holds, and hands out the same user data in the same order |
| ClientTimers.Clients.Start | TinyWebServer/src/core/eventloop.cpp:78-79 | the client stores the handle of its own new timer, and all others keep theirs |
| ClientTimers.Clients.Restart | TinyWebServer/src/core/eventloop.cpp:86-87 | the timer restarted through the stored handle is the client's |
| ClientTimers.Clients.Destory | TinyWebServer/src/core/eventloop.cpp:93 | the timer destroyed through the stored handle is the client's |
| EventLoop.Epoll.Erase | TinyWebServer/src/core/epoll.cpp:54-79 | the socket is no longer watched, and the unsigned counter goes down in any case, wrapping around |
| EventLoop.Epoll.Insert | TinyWebServer/src/core/epoll.cpp:30-52 | the socket is watched, and the counter goes up |
| LoopTheorems.CounterWraps | TinyWebServer/src/core/epoll.cpp:30-79 | the counter has 32 bits: it wraps around at either end |
| EventLoop.Epoll.Poll | TinyWebServer/src/core/epoll.cpp:116-125 | events are split by flags into the two queues, errors first |
| EventLoop.EventLoop.AcceptLoop | TinyWebServer/src/core/eventloop.cpp:61-82 | accepting goes on until there is no descriptor; unusable clients are deleted, others get timer, registration and Accept event |
| EventLoop.EventLoop.Serve | TinyWebServer/src/core/eventloop.cpp:86-95 | a client that was served is restarted; else Close, erase, destroy, delete, in this order |
| EventLoop.EventLoop.ProcessQueue | TinyWebServer/src/core/eventloop.cpp:53-100 | the whole queue is serviced, entry by entry, and emptied |
| EventLoop.EventLoop.ProcessErrorQueue | TinyWebServer/src/core/eventloop.cpp:102-124 | failed listeners are reported and erased, failed clients closed and deleted |
| EventLoop.EventLoop.ProcessTimeoutQueue | TinyWebServer/src/core/eventloop.cpp:126-137 | expired clients are erased, closed and deleted |
| EventLoop.EventLoop.UnregisterListeners | TinyWebServer/src/core/eventloop.h:35-40 | the listeners are erased one after the other |
| EventLoop.EventLoop.Exec | TinyWebServer/src/core/eventloop.cpp:33-51 | the loop does the iterations of the model until nothing is counted or it is told to stop |
| EventLoop.EventLoop.Destroy | TinyWebServer/src/core/eventloop.cpp:24-31 | the destructor closes and deletes every client that is left |
| EventLoop.Live | TinyWebServer/src/core/eventloop.cpp:24-51 | from construction to destruction, the class does what the model does, so all theorems about runs hold of it |
| LoopTheorems.SplitReports | TinyWebServer/src/core/epoll.cpp:116-125 | the failing reports are one queue, the others that are readable the other; they never share a descriptor and hold none twice |
| LoopTheorems.ServeKeeps | TinyWebServer/src/core/eventloop.cpp:55-97 | servicing one descriptor keeps ownership, lives, deadlines and the count, and leaves all other clients registered |
| LoopTheorems.IterateKeeps | TinyWebServer/src/core/eventloop.cpp:35-50 | every iteration keeps the invariant and leaves nobody behind who is overdue |
| LoopTheorems.RunOwnership | TinyWebServer/src/core/eventloop.cpp:33-137 | in every run live clients, registered clients and the timers' user data are the same set, and exactly the open clients are in it |
| LoopTheorems.RunPhases | TinyWebServer/src/core/eventloop.cpp:33-137 | the same between any two phases of any run, where the clients that were just popped are still registered and alive |
| LoopTheorems.RunUsable | TinyWebServer/src/core/eventloop.cpp:24-137 | in every run each socket that is serviced, closed or deleted is alive at that moment, and its handle denotes its own timer |
| LoopTheorems.RunLifecycle | TinyWebServer/src/core/eventloop.cpp:24-137 | over a whole life each admitted client has exactly one Accept, then exactly one Close, then exactly one deletion, and nothing is left |
| LoopTheorems.RunExpiries | TinyWebServer/src/core/eventloop.cpp:45-49 | every client that is timed out had been idle for the whole timeout since its acceptance or last service |
| LoopTheorems.CheckoutLeavesRecent | TinyWebServer/src/core/eventloop.cpp:45-46 | no timer that is due is left in the list |
| LoopLedger.AcceptKept | TinyWebServer/src/core/eventloop.cpp:61-82 | every connection in front of the first that is not there takes the next number, and is accepted at the clock reading so reached, or discarded |
| LoopLedger.QueueKept | TinyWebServer/src/core/eventloop.cpp:53-100 | whatever is reported without an error and readable is accepted, served or closed in the order of the reports; every client that is kept is last seen at the reading its own report says |
| LoopLedger.ErrorsKept | TinyWebServer/src/core/eventloop.cpp:102-124 | every listener that fails is noted and no longer watched, every client that fails is closed and deleted |
| LoopLedger.TimeoutKept | TinyWebServer/src/core/eventloop.cpp:44-50 | the clock moves on, and the clients that have been idle for the timeout expire, the longest idle first, and are then closed and deleted one after the other |
| LoopLedger.RunKept | TinyWebServer/src/core/eventloop.cpp:33-137 | in every run the clock, the clients with their last sign of life, the listeners that are watched and the whole log are what the inputs alone say; all listeners are watched at first |
| LoopTheorems.HandleCommutes | TinyWebServer/src/core/eventloop.cpp:55-97 | unregistering a listener while a socket of the queue is handled comes to the same as doing so before |
| LoopTheorems.FailCommutes | TinyWebServer/src/core/eventloop.cpp:104-122 | the same while another socket of the error queue is handled |
| LoopTheorems.ExpireCommutes | TinyWebServer/src/core/eventloop.cpp:128-134 | the same while a client is timed out |
| LoopTheorems.ErrorsCost | TinyWebServer/src/core/eventloop.cpp:102-124 | the error queue costs the counter nothing beyond what its listeners that are gone already owe, if and only if each request in between hits a registered listener that does not wait in the queue |
| LoopTheorems.RunStopsEmpty | TinyWebServer/src/core/eventloop.cpp:35-51 | if the loop stops by its counter, all clients are gone, given that listeners are unregistered, at whatever moment, while registered and not waiting in the error queue |
| LoopTheorems.RunStopsEmptyIff | TinyWebServer/src/core/eventloop.cpp:35-51 | when the loop has stopped by its counter, nothing is registered if and only if every request hit a listener that was registered and did not wait in the error queue |
| LoopTheorems.RoundsSurplus | TinyWebServer/src/core/epoll.cpp:54-79 | a run costs the counter at most one for each request, and nothing if and only if every request is of that kind |
| LoopTheorems.StopMeaning | TinyWebServer/src/core/epoll.cpp:30-79 | a step towards it: a zero counter means that nothing is registered if erasures that missed and insertions that repeated cancel out |
| LoopTheorems.RunCanStopEarly | TinyWebServer/src/core/eventloop.cpp:104-113 | a failed listener that is unregistered again stops the loop with a client open |
| LoopTheorems.RunCanStopBehindReport | TinyWebServer/src/webserver.cpp:58-65 | so does one that is unregistered while registered, behind the report of its failure |
| ThreadPool.ApplyKeeps | TinyWebServer/src/util/threadpool.h:42-99 | every step of every thread keeps mutual exclusion, order and conservation of tasks; a worker blocks only when there is no task, and while one sleeps each waiting task has a worker or a notification on its way |
| ThreadPool.RunSafe | TinyWebServer/src/util/threadpool.h:42-88 | in every interleaving tasks are taken in the order of acceptance, accepted ones are queued, running or done, once, and the front of an empty queue is never taken |
| ThreadPool.RunAnswers | TinyWebServer/src/util/threadpool.h:76-85 | every call that has got the lock is accepted, rejected or still being decided, once |
| ThreadPool.RunAwake | TinyWebServer/src/util/threadpool.h:53-88 | no wake-up is lost: before the stop, while a task waits, some worker is awake or a notification is on its way |
| ThreadPool.RestReached | TinyWebServer/src/util/threadpool.h:45-88 | before the stop, without new calls, only so many steps can be taken, and when none is left every accepted task has run and all workers sleep |
| ThreadPool.RunMonotone | TinyWebServer/src/util/threadpool.h:42-99 | what has been accepted or taken is never taken back, and the stop flag stays |
| ThreadPool.ExitIsFinal | TinyWebServer/src/util/threadpool.h:56-57 | once a worker has exited, the pool is stopped, the queue empty and nothing is accepted, for ever |
| ThreadPool.RunDrained | TinyWebServer/src/util/threadpool.h:91-99 | when all workers have exited, as after joining, every accepted task has run exactly once |
| ThreadPool.StrandedIff | TinyWebServer/src/util/threadpool.h:91-99 | when the flag is set, a worker can be stranded if and only if one has found the condition false and not blocked yet |
| ThreadPool.StrandedForEver | TinyWebServer/src/util/threadpool.h:53-54 | a stranded worker keeps the destructor waiting unless it wakes up spuriously |
| ThreadPool.StrandingReachable | TinyWebServer/src/util/threadpool.h:53-54 | a new pool can get there |
| ThreadPool.RousedForGood | TinyWebServer/src/util/threadpool.h:93-95 | if nobody is about to block at that moment, nobody sleeps after the notification |
| ThreadPool.RousedProgress | TinyWebServer/src/util/threadpool.h:45-65 | and then some thread can always go on until all workers have exited |
| ThreadPool.StepEnds | TinyWebServer/src/util/threadpool.h:45-99 | and every step but the start of a new call brings the end nearer |
| ThreadPool.EndReached | TinyWebServer/src/util/threadpool.h:45-99 | so only so many steps follow the notification, and when none is left all workers have exited, the destructor can join and every accepted task has run once |
| Url.UriEscape | TinyWebServer/src/http/url.h:30-54 | the loop yields the escaped text |
| Url.UriUnescape | TinyWebServer/src/http/url.h:56-77 | the unchecked look-ahead decodes the slice as a bounds-checked decoder does, given that no hexadecimal digit follows it |
| Url.UnreservedIff | TinyWebServer/src/http/url.h:10-21 | the characters that are not encoded are letters, digits and four others |
| Url.EscapeMeans | TinyWebServer/src/http/url.h:23-28 | a percent sign and two hexadecimal digits, each in either case, are decoded to their byte |
| Url.OtherMeans | TinyWebServer/src/http/url.h:62-74 | every other character stands for itself |
| Url.UnescapeEscape | TinyWebServer/src/http/url.h:30-77 | decoding undoes encoding for all bytes |
| Url.EscapeCanonical | TinyWebServer/src/http/url.h:15-54 | encoding yields unreserved characters and complete upper-case escapes only |
| Url.EscapeUnescapeIff | TinyWebServer/src/http/url.h:30-77 | encoding undoes decoding if and only if the text is of that form |
| Url.NormalizeIdempotent | TinyWebServer/src/http/url.h:30-77 | decoding and encoding again normalizes once and for all |
| HeaderMap.NocaseEqualIff | TinyWebServer/src/util/util.h:60-72 | the comparison means the same text but for case if and only if the sizes are not confused and no difference is hidden behind a NUL |
| HeaderMap.NocaseEqualByLetter | TinyWebServer/src/util/util.h:60-72 | names shorter than 2^32 without a NUL compare equal if and only if they have one size and each letter is the same in either case |
| HeaderMap.LookupInAnyCase | TinyWebServer/src/util/headermap.h:25-50 | a name in any other case finds the same header |
| HeaderMap.NulHidesHeader | TinyWebServer/src/util/util.h:60-72 | two names that differ behind a NUL compare equal, and the second header is dropped |
| RequestTheorems.NulHidesInRequest | TinyWebServer/src/http/httprequest.cpp:115-142 | in a request with both headers, parsed, the second name finds the value of the first |
| HeaderMap.LookupIsByText | TinyWebServer/src/http/httprequest.h:37-42 | a name without a NUL is looked up by its text, but for case |
| HeaderMap.EqualNamesHashAlike | TinyWebServer/src/util/headermap.h:25-50 | names that compare equal hash alike |
| HeaderMap.ConfusedNamesHashApart | TinyWebServer/src/util/headermap.h:25-50 | names of confused sizes compare equal and may hash apart |
| HeaderMap.FindIsLookup | TinyWebServer/src/util/headermap.h:52-55 | after any inserts and assignments, with any number of buckets and rehashing at any point, the table finds what a scan of one list finds |
| HeaderMap.RehashIndexes | TinyWebServer/src/util/headermap.h:52-55 | a table rehashed into other buckets, in any order, still holds in each what belongs there |
| HeaderMap.EmplacedLookup | TinyWebServer/src/http/httprequest.cpp:137 | an insertion leaves a name that is there and adds one that is not |
| HeaderMap.AssignedLookup | TinyWebServer/src/http/httpresponse.h:83-90 | an assignment changes one name, in any spelling, and no other |
| HeaderMap.RunDistinct | TinyWebServer/src/util/headermap.h:52-55 | no sequence of insertions and assignments puts two entries of one name into the map |
| HeaderMap.RunLookup | TinyWebServer/src/util/headermap.h:52-55 | after any sequence, what is found is the last assignment or the first insertion, whichever is in force |
| HeaderMap.LookupInAnyOrder | TinyWebServer/src/http/httpresponse.cpp:136-137 | the order of iteration does not matter to what is found |
| HttpText.CutAtIff | TinyWebServer/src/util/util.h:74-103 | a bounded cut succeeds exactly when the first delimiter comes early enough |
| HttpRequest.ReferTil | TinyWebServer/src/util/util.h:74-103 | the scan finds that cut, stays in range, and refers to exactly what it has passed |
| HttpRequest.HttpRequest.ParseRequestTarget | TinyWebServer/src/http/httprequest.cpp:78-103 | the target is cut, decoded without reading past it, and the arguments collected |
| HttpRequest.HttpRequest.ParseArguments | TinyWebServer/src/http/httprequest.cpp:87-99 | the arguments between ampersands, up to the space |
| HttpRequest.HttpRequest.ParseRequestLine | TinyWebServer/src/http/httprequest.cpp:69-113 | accepts exactly the request lines of the grammar; the slices are ordered, disjoint and separated by the expected delimiters |
| HttpRequest.HttpRequest.ParseRequestHeader | TinyWebServer/src/http/httprequest.cpp:121-137 | one header, with leading spaces of the value ignored |
| HttpRequest.HttpRequest.ParseRequestHeaders | TinyWebServer/src/http/httprequest.cpp:115-142 | all headers up to the blank line, each at most once, the first of a name staying |
| HttpRequest.HttpRequest.Parse | TinyWebServer/src/http/httprequest.cpp:16-39 | terminates in range on every byte string; is valid exactly on messages of the grammar, with all parts recovered and the rest as the body |
| HttpRequest.HttpRequest.Reset | TinyWebServer/src/http/httprequest.cpp:41-49 | what is cleared between requests |
| HttpTheorems.FieldsTextSize | TinyWebServer/src/http/httprequest.cpp:115-142 | every stored header takes at least three bytes, the skipped one included |
| HttpTheorems.ParseIff | TinyWebServer/src/http/httprequest.cpp:16-142 | the parser yields a message if and only if the message is well-formed and prints as the text |
| Framing.AcceptedIsFramed | TinyWebServer/src/http/httprequest.cpp:16-142 | in every accepted request method, target, arguments, version, each field and the body are ordered slices of the data that do not overlap, with the expected delimiters between them |
| HttpTheorems.FieldsComplete | TinyWebServer/src/http/httprequest.cpp:115-142 | a printed block of headers is parsed back into the same headers |
| RequestTheorems.CollectedLookup | TinyWebServer/src/http/httprequest.cpp:137 | of several headers with one name, in any spelling, the first is found |
| RequestTheorems.RequestRoundTrip | TinyWebServer/src/http/httprequest.cpp:16-142 | method, path of any bytes, arguments, version, headers and body of a rendered request are all recovered |
| Decimal.ValuePrint | TinyWebServer/src/http/httpresponse.cpp:18 | a printed number reads as the number |
| Decimal.PrintValueIff | TinyWebServer/src/http/httprequest.cpp:59-63 | a number that was read prints the same if and only if it had no leading zero |
| Ranges.MatchRangeIff | TinyWebServer/src/http/httprequest.cpp:53-57 | which texts the expression matches, and what its groups are |
| Ranges.ParseRange | TinyWebServer/src/http/httprequest.cpp:51-67 | the pair that was asked for; zeros without a match; an exception when a number does not fit |
| Ranges.ReplyRange | TinyWebServer/src/http/httpresponse.cpp:105-124 | the slice that is served and the text that announces it; nothing of an empty file |
| Ranges.ServedWithin | TinyWebServer/src/http/httpresponse.cpp:108-118 | for any pair the slice is not empty and lies within the file |
| Ranges.ReadAnnouncement | TinyWebServer/src/http/httpresponse.cpp:120-123 | the announced text reads as first byte, last byte and total |
| Ranges.ServedIff | TinyWebServer/src/http/httpresponse.cpp:105-124 | from the text of any byte-range request to the slice: it is answered as meant if and only if its start lies inside and its end is open, or behind its start and inside, or both are the last byte, or all of the file is covered; a suffix if it covers all of the file |
| Ranges.SuffixOverserved | TinyWebServer/src/http/httprequest.cpp:53-57 | the last so many bytes of a file are answered with all of it |
| Ranges.UnsatisfiableServed | TinyWebServer/src/http/httpresponse.cpp:109-113 | a start beyond the end is not refused but answered with all of the file |
| Ranges.SingleByteOverserved | TinyWebServer/src/http/httpresponse.cpp:114-115 | a single byte in front of the last is answered with all the rest |
| HttpResponse.HttpResponse.SetTextBody | TinyWebServer/src/http/httpresponse.cpp:13-21 | the length header goes with the text; an empty text changes nothing |
| HttpResponse.HttpResponse.SetFileBody | TinyWebServer/src/http/httpresponse.cpp:39-47 | the length header goes with the count; a count of zero changes nothing |
| HttpResponse.HttpResponse.Reset | TinyWebServer/src/http/httpresponse.cpp:49-58 | the response is as new |
| HttpResponse.HttpResponse.SetKeepAlive | TinyWebServer/src/http/httpresponse.cpp:66-70 | flag and header agree |
| HttpResponse.HttpResponse.SetHttpState | TinyWebServer/src/http/httpresponse.cpp:72-78 | a state without a text is ignored |
| HttpResponse.HttpResponse.ToRawData | TinyWebServer/src/http/httpresponse.cpp:126-144 | the text of the response, for every order of the headers |
| HttpResponse.HttpResponse.ShareFile | TinyWebServer/src/main.cpp:166-203 | length header, range header, state and body of a shared file agree with the range that was asked for; all headers of the response, those that were there before included |
| ResponseTheorems.ResponseReadIff | TinyWebServer/src/http/httpresponse.cpp:126-144 | a response reads back as state, headers and body if and only if no text contains what would end it |
| ResponseTheorems.HeadersArrive | TinyWebServer/src/http/httpresponse.cpp:132-137 | after any insertions and assignments, the printed response is read back with state, body and the headers in force, the printed date and server in front, whatever the order |
| ResponseTheorems.KeepAliveArrives | TinyWebServer/src/http/httpresponse.cpp:66-70 | whoever reads the printed response draws the printer's conclusion about the connection |
| ByteTransfer.TcpSocket.Read | TinyWebServer/src/core/tcpsocket.cpp:28-58 | fills the stretch with exactly what was delivered; returns short only after the kernel has reported an end |
| ByteTransfer.TcpSocket.ReadBlock | TinyWebServer/src/abstract/abstractsocket.cpp:44-50 | a block of space is filled and fitted, so nothing of the resize is left |
| ByteTransfer.TcpSocket.ReadAll | TinyWebServer/src/abstract/abstractsocket.cpp:38-53 | appends exactly what the kernel has, in order, and returns only after the end was reported |
| ByteTransfer.ReadingReturnsIff | TinyWebServer/src/core/tcpsocket.cpp:43-49 | the loops come to an end, with everything read, if and only if the end of the file does not meet an old interrupt |
| ByteTransfer.TcpSocket.SendFile | TinyWebServer/src/core/tcpsocket.cpp:125-143 | under any short sends what goes out is the slice from its beginning; the result is the least of the count, what the file has and what the kernel takes |
| ByteTransfer.SentWholeIff | TinyWebServer/src/core/tcpsocket.cpp:125-143 | a slice is sent whole if and only if the file has it and the calls in front of the first refusal take as much together |
| FilePool.SharedFilePool.Get | TinyWebServer/src/util/sharedfilepool.cpp:23-72 | a lookup does to both caches what the model says |
| FilePool.AloneIsLookup | TinyWebServer/src/util/sharedfilepool.cpp:23-72 | the critical sections of one lookup, with nobody in between, are that lookup |
| FilePool.LookupIsDirect | TinyWebServer/src/util/sharedfilepool.cpp:23-72 | a lookup answers what a direct lookup would and keeps the caches accurate |
| FilePool.CachedIsAnswered | TinyWebServer/src/util/sharedfilepool.cpp:25-41 | what is cached, as a file or as an invalid path, is answered without opening anything, and nothing changes |
| FilePool.LookupCaches | TinyWebServer/src/util/sharedfilepool.cpp:50-67 | either answer of a lookup is cached |
| FilePool.LookupTwice | TinyWebServer/src/util/sharedfilepool.cpp:23-72 | a second lookup of a name answers the same and changes nothing |
| FilePool.LookupKeepsOthers | TinyWebServer/src/util/sharedfilepool.cpp:54-67 | a lookup opens at most one file, and only a cache of 128 entries gives one up |
| FilePool.CachedIsNotOpened | TinyWebServer/src/util/sharedfilepool.cpp:25-41 | no thread opens a file for a name that it finds in a cache |
| FilePool.NextKeeps | TinyWebServer/src/util/sharedfilepool.cpp:50-68 | each critical section of any thread keeps bounds and accuracy, and no file is held twice or held and cached |
| FilePool.RunInv | TinyWebServer/src/util/sharedfilepool.cpp:23-72 | in every interleaving both caches hold at most 128 entries, all accurate, every answer is the direct one, and no file is held by two threads or held and cached |
| FilePool.AllAccounted | TinyWebServer/src/util/sharedfilepool.cpp:65-82 | the opened files are those cached, those held by a thread and the orphans, and no file is two of these |
| FilePool.AccountOfFiles | TinyWebServer/src/util/sharedfilepool.cpp:65-82 | there are as many opened files as cached names, threads that hold one and orphans, so none is cached or held twice |
| FilePool.OrphanIff | TinyWebServer/src/util/sharedfilepool.cpp:65-68 | a given file becomes an orphan exactly when a full cache gives it up or the thread that holds it finds its name taken, and stays one |
| FilePool.RunOrphanIff | TinyWebServer/src/util/sharedfilepool.cpp:23-82 | in every run a given file is an orphan if and only if that has happened to it at some step |
| Dispatch.ChosenIsExpected | TinyWebServer/src/http/httpservices.cpp:22-42 | after any registrations, the latest handler for method and path, else the latest default of the method or 404, else the latest global default or 405 |
| HttpServices.HttpServices.AddService | TinyWebServer/src/http/httpservices.cpp:22-32 | the tables after a registration |
| HttpServices.HttpServices.SetVerbDefault | TinyWebServer/src/http/httpservices.cpp:34-42 | the tables after a default for a method |
| HttpServices.HttpServices.SetDefault | TinyWebServer/src/http/httpservices.h:33-34 | the tables after a default for all other methods |
| HttpServices.HttpServices.CallHandler | TinyWebServer/src/http/httpservices.cpp:109-128 | the handler that the tables choose is the one that is called, once |
| HttpServices.HttpServices.Receive | TinyWebServer/src/http/httpservices.cpp:48-53 | what was left over and what the kernel has are parsed together |
| HttpServices.HttpServices.Answer | TinyWebServer/src/http/httpservices.cpp:72-106 | what a response comes to, in every case: not sent, refused, cut short with the header out, or header, text and exactly the slice of the file |
| HttpServices.HttpServices.Process | TinyWebServer/src/http/httpservices.cpp:44-107 | result, counter, wire, what the handler is shown and what is left over, in every case; a clean request is clean afterwards if and only if it was valid without a body or nothing was read |
| Connection.CallsEnd | TinyWebServer/src/core/eventloop.cpp:86-95 | in every run of the loop, `process` is never called again for a client for which it has returned false |
| Connection.ConnectionBound | TinyWebServer/src/http/httpservices.cpp:55-106 | with a limit of n, at most n + 1 responses are written over the life of a connection |
| Connection.BoundIsReached | TinyWebServer/src/http/httpservices.cpp:106 | for every limit there is a run of the loop in which one client gets n + 1 responses and is closed by the last |
| Connection.ResultsMean | TinyWebServer/src/http/httpservices.cpp:52-106 | each call in a row returns true if and only if its response cannot be sent, or has gone out, asks to keep the connection and no more valid requests have come than the limit |
| Connection.WithoutLimit | TinyWebServer/src/http/httpservices.cpp:55-106 | with a limit of 0 the counter never closes a connection |
| ServiceTheorems.ResiduePollutes | TinyWebServer/src/http/httpservices.cpp:46-65 | behind whatever is left over a request reads as it would by itself if and only if nothing is |
| ServiceTheorems.PieceOfMethod | TinyWebServer/src/http/httpservices.cpp:46-65 | for example, a piece of a method becomes part of the next method |
| ServiceTheorems.CallTwice | TinyWebServer/src/http/httpservices.cpp:44-65 | the second of two calls shows its handler what a new request would if and only if the first text was empty or a request, and its body, if any, is replaced |
| ServiceTheorems.ServeClient | TinyWebServer/src/core/eventloop.cpp:86-95 | successive calls for one client, until one returns false, return what the counter says, so a run of the loop with these results is one of these outcomes and writes at most n + 1 responses |
| ServiceTheorems.KeepAliveCollected | TinyWebServer/src/http/httprequest.cpp:36-38 | without a Connection header the connection is kept; with one, unless the first has the text close, each but for case |
| ServiceTheorems.RequestIsShown | TinyWebServer/src/http/httprequest.cpp:16-39 | a handler is shown method, decoded path, arguments, version, headers, body and what becomes of the connection as the client has written them |
| ServiceTheorems.ServeRequest | TinyWebServer/src/http/httpservices.cpp:44-107 | the same through the class: a call on a clean request to which the kernel delivers the text |
| ServiceTheorems.WrittenIff | TinyWebServer/src/http/httpservices.cpp:72-104 | a response goes out whole if and only if its code is from 200 to 500, its state has a text, the header is taken, and of a file the slice is there and taken |
| ServiceTheorems.KeptIff | TinyWebServer/src/http/httpservices.cpp:72-106 | the connection outlives a call if and only if the response cannot be sent at all, or has gone out, asks to keep it and is within the limit |
| ReplyTheorems.ReplyArrives | TinyWebServer/src/http/httpservices.cpp:74-104 | of any reply with any headers the client reads the state, the text or the slice of the file, and each header that is in force, by its text |
| ReplyTheorems.BuiltInArrives | TinyWebServer/src/http/httpservices.cpp:67-107 | from the registrations to what the client reads: 404 or 405, no body, and the right word on the connection |
| ReplyTheorems.TextArrives | TinyWebServer/src/http/httpresponse.cpp:13-21 | from `setBody` with any text that is not empty to the client: it reads that text, and its size under Content-Length |
| ReplyTheorems.TextExchange | TinyWebServer/src/main.cpp:112-137 | a whole exchange with a handler that answers with a text: the handler sees the request, the client reads state, text, size and the right word on the connection, which is kept accordingly |
| SharedFiles.RangeReachesTheWire | TinyWebServer/src/main.cpp:190-203 | a step towards it: the bytes sent for a range are the announced piece of the file, and as many as announced |
| SharedFiles.SharedRangeArrives | TinyWebServer/src/main.cpp:166-203 | from the Range header of the request to what the client reads: 206, the slice of the file, its length and place in the file, and the right word on the connection |
| SharedFiles.WholeExchange | TinyWebServer/src/main.cpp:166-203 | a whole exchange without a range: 304 and no body if the date is the one that the client has, else 200 with all of the file; its type, date, length and caching as printed |
| SharedFiles.RangeExchange | TinyWebServer/src/http/httpservices.cpp:44-107 | a whole exchange: printed by the client, parsed, routed, handled, printed and parsed by the client, which has the slice that its range means if and only if the range is one that is honoured |

## Left out

- Windows, kqueue and OpenSSL branches, listening, socket options, signals and the command line: foreign calls, inputs where they matter.
- Changing a timeout while timers exist (`m_timeout` is a reference, TinyWebServer/src/util/timermanager.h:40): timeouts are fixed.
- Sockets as objects: a client is an address that is never used again; the set of live addresses is the heap, and `LoopTheorems.RunUsable` says that only live ones are used.
- Registering into a loop that runs already: all listeners are registered first.
- TcpSocket::write with short writes (it passes the whole count again, TinyWebServer/src/core/tcpsocket.cpp:76): a write is taken to send everything or to fail.
- Stream bodies: their length header ignores where the stream stands and their last block may be empty.
- The non-Linux branch of `sendFile`, which does not advance its offset.
- The flag that tells the loop to stop: it is the end of the list of rounds, which may come anywhere.
- Url.UriEscape: the source declares its iterator constant and is never instantiated; the model is the loop over unsigned bytes that is meant.
- HttpRequest.HttpRequest.Parse: the headers are stored as texts, not as views; `Framing.AcceptedIsFramed` says where the texts lie.
- HttpRequest.HttpRequest.Reset: that the views dangle after it is not modelled; a valid parse sets all but the body again.
- HeaderMap.FindIsLookup: names are shorter than 2^32 bytes.
- RequestTheorems.RequestRoundTrip: header names are shorter than 2^32 bytes, since longer ones may be confused.
- ByteTransfer.TcpSocket.ReadAll: requires that reading comes to an end, which `ByteTransfer.ReadingReturnsIff` shows to be necessary as well.
- HttpServices.HttpServices.Process: the socket is not a listener, reading comes to an end, and handlers do not throw; the cork option is left out.
- Ranges.MatchRangeIff: the regular expression is modelled by what it matches, not by how it is searched.
- HttpResponse.HttpResponse.ShareFile: the type of a file is an input instead of being looked up by its extension.
- The HEAD handler of TinyWebServer/src/main.cpp: it sets headers alone, which `ReplyTheorems.ReplyArrives` covers.
- ReplyTheorems.TextArrives: an empty text changes nothing, as `setBody` has it; names and values must not break the text of the response.
- FilePool.RunInv: finding an entry and copying it is one step; the source keeps an iterator after the lock is released (TinyWebServer/src/util/sharedfilepool.cpp:27-29).
- FilePool.OrphanIff: closing in the destructor is not modelled; it closes what is in the pool.
- LoopTheorems.RunStopsEmptyIff: for fewer than 2^32 registered sockets and requests to unregister, beyond which the counter wraps around.
- HttpServices.HttpServices.Answer: bodies are texts and files, and the header is written whole or not at all; see streams and short writes above.
- ServiceTheorems.CallTwice: what a view into data that is gone reads as; only that it is not the request's own.
- Ranges.ServedIff: lists of ranges do not match the expression and are answered with all of the file, as any other text.
- Connection.ConnectionBound: the counter does not wrap around at 2^64.
- ThreadPool.RunDrained: tasks do not throw, and that all workers do exit is claimed only when none is stranded (`ThreadPool.EndReached`); `ThreadPool.StrandedIff` says when one may be.
- The dates, the MIME table, logging, backtraces, the memory-mapped and option parts of the utilities: they would only add easy members.
