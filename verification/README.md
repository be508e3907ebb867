# pion-net and the sprite planner, verified

This project models the parts of the repository whose behaviour is hardest to see from the
code: pion-net's HTTP parser and printers, its two concurrent queues, its file delivery,
caching and routing, and the sprite planner of the front end. Everything is stated and
proved in Dafny; `dafny verify dfyconfig.toml` checks it all.

## Layout

| files | what they model |
|---|---|
| `FifoSpec` | the FIFO object both queues are proved to implement |
| `FreeList` | `caching_freelist` under any clients: threads that hold, share, hand on and recycle any number of nodes |
| `LockFreeFifo*` | `boost::lockfree::fifo` with `caching_freelist`: threads as step machines over a heap of tagged nodes, an inductive invariant, a refinement to the FIFO object, and lock-freedom (`LockFreeProgress`) |
| `LockedQueue*` | `PionLockedQueue`: two locks, versions, the idle list and the size counter, as a step system with counting invariants, a refinement to the FIFO object, what each kind of pop answers (`LockedQueueCalls`) and progress (`LockedQueueProgress`) |
| `Wrappers`, `Sequences`, `Sums`, `Pointers` | optional values, lists, sums over threads, tagged pointers |
| `Bytes`, `HttpForms`, `Base64` | character classes, numerals, dictionaries; url encoding, query strings, cookies, Base64 and credentials |
| `HttpSyntax`, `HttpHeads`, `HttpChunkSyntax`, `HttpFormSyntax`, `HttpCookieSyntax`, `Base64Decoding` | exactly which byte strings are accepted, by whomever they were written, and what is found in them |
| `HttpParser` | the parser as a machine that takes one byte at a time: 25 header states, 9 chunk states, 6 message states |
| `HttpSegments`, `HttpPhases`, `HttpLimits`, `HttpMissing`, `HttpIntegrity` | segmentation, conservation of bytes, stored content and its limit, missing data and the verdict on it |
| `HttpEndings` | how each kind of message ends |
| `HttpParserObject` | the parser object with its read pointer, counters, content buffer and loops, proved to do what the machine does |
| `HttpPrint`, `HttpResponses`, `HttpChunks`, `HttpWriter` | what requests, responses and writers put on the wire, read back by the parser |
| `HttpReceive`, `HttpReceiveObject`, `HttpLifecycle` | `HTTPMessage::receive`, keep-alive and pipelining |
| `FileSender`, `FileDelivery`, `FileCache*` | `DiskFileSender`, delivery end to end, and the cache of `FileService` |
| `Routing` | `HTTPServer` and `HTTPAuth`: longest-prefix match, redirects, authentication |
| `Sprites`, `SpriteGaps`, `SpritePlanner` | `plan` and `yplan` of `slicedice.rb`, and the space their waste leaves out |

A loop or an object of the source is a Dafny method or class whose contract ties it to a
function; the laws are lemmas about that function. The concurrent queues are step systems:
a state with one program counter per thread, and a transition for every atomic action.

## Findings

- `parseMissingData` does not fill a gap that crosses `max_content_length`, not even the part
  that fits; parsing the same number of dummy characters would. `HttpMissing.MissingIsDummy`
  gives the exact condition.
- The second fill loop of `plan` never runs.
- With `cache=2`, documented to ignore updates, an edited file keeps being answered with its
  old content and date; `FileCache.AgreementIgnoringUpdates` says exactly when a reply is
  still the current one.
- With `cache=1`, a file that cannot be read after an edit leaves an uninitialised buffer in
  the cache under the new time and size, and once the file is readable again that buffer is
  served (`FileCache.JunkServed`). `FileCache.ExactAgreement` says exactly when a reply
  agrees with an uncached one, whatever happens to the files.
- A response that never has a body (1xx, 204, 205, 304, an answer to HEAD) but whose headers
  say chunked makes the parser wait for chunks (`HttpEndings.BodilessChunkedWaits`).
- `max_cache_size` is documented as the size above which a file is never cached in memory; a
  cached file that grows beyond it is read in all the same.
  `FileCacheSettings.LimitOverRuns` gives the exact condition.
- A folded header line is read as a header of its own (`HttpHeads.HeadExactly`), and a
  name without `=` in a cookie header becomes a cookie with the empty value
  (`HttpCookieSyntax.CookiesExactly`).
- What `plan` reports as wasted leaves out the space above images that are shorter than
  their row and what a row loses after an image with `clear`; `SpritePlanner.Plan` gives the
  exact sum.

## Model

| member | source | states |
|---|---|---|
| `LockFreeFifoRefinement.RunRefines` | Contrib/pion-net-3.0.15/common/include/boost/lockfree/fifo.hpp:102-162 | Every run of any number of threads, in any interleaving of their atomic steps and with nodes recycled through the free list, is a run of the abstract FIFO object with the same calls and returns (linearizability). That calls do return is LockFreeProgress.LockFreedom. |
| `LockFreeFifoRefinement.StepRefines` | Contrib/pion-net-3.0.15/common/include/boost/lockfree/fifo.hpp:102-162 | Each single step is matched by a step of the FIFO object: an enqueue takes effect when its node is linked, a dequeue when the head is moved, and every other step is invisible. |
| `LockFreeFifoProof.InvKept` | Contrib/pion-net-3.0.15/common/include/boost/lockfree/fifo.hpp:102-183 | Every step of every thread keeps the invariant (both lists well formed and disjoint, tail at most one behind, what each thread knows about tags at its program point), and dereferences only allocated nodes. |
| `LockFreeFifoProof.NoLeakKept` | Contrib/pion-net-3.0.15/common/include/boost/lockfree/fifo.hpp:165-183 | No step loses a node: each stays in the queue, in the pool or with a thread. |
| `LockFreeFifoTheorems.DeliveredInOrder` | Contrib/pion-net-3.0.15/common/include/boost/lockfree/fifo.hpp:102-162 | At every point of every run the values dequeued, followed by the values in the live nodes, are the values enqueued: each is delivered once and in order. |
| `LockFreeFifoTheorems.EmptyReturnJustified` | Contrib/pion-net-3.0.15/common/include/boost/lockfree/fifo.hpp:131-149 | When dequeue returns false, the queue held no value at some state within that very call. |
| `FreeList.Ownership` | Contrib/pion-net-3.0.15/common/include/boost/lockfree/detail/freelist.hpp:145-221 | Over every interleaving of allocate and deallocate, by threads that hold any number of nodes, write what they like into nodes in use and hand them on: the free list is acyclic and null-terminated from the pool pointer, and every node ever handed out is on it once or owned by exactly one thread. |
| `FreeList.InvKept` | Contrib/pion-net-3.0.15/common/include/boost/lockfree/detail/freelist.hpp:176-205 | Every step of every thread keeps the free-list invariant and dereferences only nodes. |
| `FreeList.PopTakesSuccessor` | Contrib/pion-net-3.0.15/common/include/boost/lockfree/detail/freelist.hpp:176-190 | Over every run the successful compare-and-swap of allocate installs the current successor of the node it takes, although that was read before, and the list loses exactly its first node. |
| `FreeList.AllocatedIsUnused` | Contrib/pion-net-3.0.15/common/include/boost/lockfree/detail/freelist.hpp:176-190 | Over every run allocate returns a node that nobody owned, which the caller alone owns from then on. |
| `FreeList.ContentsKept` | Contrib/pion-net-3.0.15/common/include/boost/lockfree/detail/freelist.hpp:176-205 | Over every run the list never writes into a node in use. |
| `FreeList.Construct` | Contrib/pion-net-3.0.15/common/include/boost/lockfree/detail/freelist.hpp:155-166 | The constructor puts all its nodes on the list, and nobody owns one. |
| `LockFreeFifoTheorems.NodeOwnership` | Contrib/pion-net-3.0.15/common/include/boost/lockfree/fifo.hpp:102-183 | In every reachable state of the queue each node is in exactly one place (queue, pool, or one thread), both lists are acyclic, and tail is the last or second-to-last live node, never behind head. |
| `LockFreeFifoTheorems.StaleLinkFails` | Contrib/pion-net-3.0.15/common/include/boost/lockfree/fifo.hpp:48-52 | In every run a compare-and-swap that would link to a node succeeds only on the true last node; on a node that has left the queue it fails because the tag has grown. |
| `LockFreeFifoTheorems.PoolPopTakesSuccessor` | Contrib/pion-net-3.0.15/common/include/boost/lockfree/fifo.hpp:165-183 | In every run of the queue a successful pop from its pool installs the node's current successor. |
| `LockFreeFifoTheorems.TagsGrow` | Contrib/pion-net-3.0.15/common/include/boost/lockfree/detail/tagged_ptr_dcas.hpp:112-142 | Over every run no node's tag ever decreases, whatever happens to the node. |
| `LockFreeFifoTheorems.Construct` | Contrib/pion-net-3.0.15/common/include/boost/lockfree/fifo.hpp:75-89 | The constructor (pool filled with fresh blocks, one taken for the dummy) establishes the initial state, whatever memory held before. |
| `LockFreeProgress.LockFreedom` | Contrib/pion-net-3.0.15/common/include/boost/lockfree/fifo.hpp:102-162 | Lock-freedom: in every run of any number of threads, whatever the schedule, among any Bound(number of threads) + 1 steps in a row at least one is the return of a call. |
| `LockFreeProgress.AloneReturns` | Contrib/pion-net-3.0.15/common/include/boost/lockfree/fifo.hpp:102-162 | From every state of every run, a thread that alone takes steps returns from its call within that bound, wherever the others have stopped. |
| `LockFreeProgress.AloneResult` | Contrib/pion-net-3.0.15/common/include/boost/lockfree/fifo.hpp:102-162 | A call made by a thread alone, from every state of every run: an enqueue appends its value; a dequeue returns and removes the first value if there is one, and otherwise returns "empty" and changes nothing. |
| `LockFreeProgress.NeverBlocked` | Contrib/pion-net-3.0.15/common/include/boost/lockfree/fifo.hpp:102-183 | In every state every thread can take a step. |
| `FifoSpec.FifoOrder` | Contrib/pion-net-3.0.15/common/include/boost/lockfree/fifo.hpp:102-162 | The abstract FIFO object hands out exactly what was put in, in order. |
| `FifoSpec.EmptyAnswerIsTrue` | Contrib/pion-net-3.0.15/common/include/boost/lockfree/fifo.hpp:131-149 | The abstract FIFO object answers "empty" only if it was empty during the call. |
| `LockedQueueProof.InvKept` | Contrib/pion-net-3.0.15/common/include/pion/PionLockedQueue.hpp:82-248 | Every step of push, pop, pop with waiting and clear keeps the invariant of list, versions, locks, idle list and private nodes; no step touches a freed node. |
| `LockedQueueRefinement.RunRefines` | Contrib/pion-net-3.0.15/common/include/pion/PionLockedQueue.hpp:82-257 | Every run of any number of threads pushing, popping with or without waiting, and clearing is a run of the atomic FIFO object with the same calls and returns; clear takes out all values at one instant. What each kind of pop does on an empty queue is in LockedQueueCalls. |
| `LockedQueueRefinement.StepRefines` | Contrib/pion-net-3.0.15/common/include/pion/PionLockedQueue.hpp:82-257 | Each step is matched by a step of the FIFO object: a push takes effect when its node is linked, a pop when the head is moved, and a clear when it has both locks. |
| `LockedQueueRefinement.DeliveredInOrder` | Contrib/pion-net-3.0.15/common/include/pion/PionLockedQueue.hpp:82-257 | At every point of every run the values taken by pops and clears, followed by the values in the queue, are the values pushed. |
| `FifoSpec.ClearTookAll` | Contrib/pion-net-3.0.15/common/include/pion/PionLockedQueue.hpp:167-177 | The abstract FIFO object returns from a clear only after one step of that call which took out every value there was. |
| `LockedQueueTheorems.RunGood` | Contrib/pion-net-3.0.15/common/include/pion/PionLockedQueue.hpp:82-248 | At every point of every run the invariant and the accounting of counter, producers and wakeups hold. |
| `LockedQueueTheorems.NoLostWakeup` | Contrib/pion-net-3.0.15/common/include/pion/PionLockedQueue.hpp:202-248 | Whenever the tail lock is free and some consumer sleeps, the queue holds at most as many items as there are awake consumers looking for one. |
| `LockedQueueTheorems.CapacityBound` | Contrib/pion-net-3.0.15/common/include/pion/PionLockedQueue.hpp:184-210 | With P producers the queue never holds more than MaxSize - 1 + P items, although the check is made outside the locks and the counter lags. |
| `LockedQueueTheorems.SleepsOnlyWhenEmpty` | Contrib/pion-net-3.0.15/common/include/pion/PionLockedQueue.hpp:238-245 | A consumer registers as idle and sleeps only when the queue holds nothing. |
| `LockedQueueTheorems.EmptyPopSawEmpty` | Contrib/pion-net-3.0.15/common/include/pion/PionLockedQueue.hpp:82-89 | dequeue takes the empty branch if and only if the queue was empty when it looked. |
| `LockedQueueTheorems.AccountingKept` | Contrib/pion-net-3.0.15/common/include/pion/PionLockedQueue.hpp:96-104 | Every step keeps the relation between the size counter, the items linked and the threads between linking and counting, for pushes, pops and clear. |
| `LockedQueueCalls.PopNeverSleeps` | Contrib/pion-net-3.0.15/common/include/pion/PionLockedQueue.hpp:82-108 | In every run, from the call of a pop without waiting to its return: the thread never holds the tail lock, is never among the idle consumers and never sleeps. |
| `LockedQueueCalls.WaitingPopReturnsValue` | Contrib/pion-net-3.0.15/common/include/pion/PionLockedQueue.hpp:230-257 | In every run every return of a pop with waiting carries a value. |
| `LockedQueueCalls.PopAnswer` | Contrib/pion-net-3.0.15/common/include/pion/PionLockedQueue.hpp:82-257 | In every run a pop of either kind answers "empty" if and only if the queue held nothing when the call last looked; otherwise it answers the value that was first in the queue at that instant. |
| `LockedQueueCalls.PopReturnsSoon` | Contrib/pion-net-3.0.15/common/include/pion/PionLockedQueue.hpp:82-108 | In every run a pop without waiting that takes eight steps without interruption has returned. |
| `LockedQueueCalls.PopGoesOn` | Contrib/pion-net-3.0.15/common/include/pion/PionLockedQueue.hpp:82-108 | A pop without waiting can always take its next step, except while another thread holds the head lock. |
| `LockedQueueProgress.NoDeadlock` | Contrib/pion-net-3.0.15/common/include/pion/PionLockedQueue.hpp:82-248 | At every point of every run at which some thread is inside a call and not asleep, some thread inside a call can take a step. |
| `LockedQueueProgress.Progress` | Contrib/pion-net-3.0.15/common/include/pion/PionLockedQueue.hpp:82-248 | In every run, among any Bound(threads, values queued) + 1 steps in a row at least one is the return of a call or a push that finds the queue full. |
| `HttpSegments.SegmentationIndependence` | Contrib/pion-net-3.0.15/net/src/HTTPParser.cpp:39-109 | For every byte string and every way of cutting it into buffers, successive parse calls end with the same verdict, parser, message and left-over bytes as one parse of the whole. |
| `HttpSegments.RunSplits` | Contrib/pion-net-3.0.15/net/src/HTTPParser.cpp:39-109 | Parsing may be interrupted after any prefix and resumed. |
| `HttpSegments.BytesConserved` | Contrib/pion-net-3.0.15/net/src/HTTPParser.cpp:207-543 | The bytes consumed are a prefix of the input, the rest is untouched, and the byte counter grows by exactly the number consumed. |
| `HttpSegments.StoredContentIsPrefix` | Contrib/pion-net-3.0.15/net/src/HTTPParser.cpp:987-1027 | The stored content is exactly the first min(body length, max_content_length) body bytes, and what follows the body is left over. |
| `HttpSegments.UnboundedContent` | Contrib/pion-net-3.0.15/net/src/HTTPParser.cpp:1029-1044 | A body without a length is collected up to max_content_length, however it arrives. |
| `HttpLimits.LimitOnlyCuts` | Contrib/pion-net-3.0.15/net/src/HTTPParser.cpp:856-1044 | For every byte string and every sound parser: under two limits the verdict, the bytes consumed, the state, headers and flags are the same, and what the smaller limit has stored is the beginning of what the larger one has. |
| `HttpLimits.StoredIsPrefix` | Contrib/pion-net-3.0.15/net/src/HTTPParser.cpp:39-109 | From a new parser, for every byte string and however the body is delimited: the content stored is the content a larger limit would store, cut at max_content_length. |
| `HttpLimits.ChunkDataStored` | Contrib/pion-net-3.0.15/net/src/HTTPParser.cpp:856-985 | For every byte string, whatever chunk syntax it uses: the cache holds the first max_content_length bytes of the data in the chunks. |
| `HttpLimits.ChunkedContent` | Contrib/pion-net-3.0.15/net/src/HTTPParser.cpp:856-985 | The same for parse: when a chunked body is complete, the content is the data in its chunks, cut at max_content_length. |
| `HttpParserObject.ParserObject.Parse` | Contrib/pion-net-3.0.15/net/src/HTTPParser.cpp:39-109 | The parse loop on the parser object (read pointer, counters, block copies) has the verdict, message, left-over bytes and counters of the byte-at-a-time machine. |
| `HttpParserObject.ParserObject.ParseHeaders` | Contrib/pion-net-3.0.15/net/src/HTTPParser.cpp:207-543 | The header loop computes the run of the header machine on the bytes available, and counts them. |
| `HttpParserObject.ParserObject.ParseChunks` | Contrib/pion-net-3.0.15/net/src/HTTPParser.cpp:856-985 | The chunk loop computes the run of the chunk machine; the body counter moves only when the chunks are not finished. |
| `HttpParserObject.ParserObject.FinishHeaderParsing` | Contrib/pion-net-3.0.15/net/src/HTTPParser.cpp:600-668 | How the body is delimited, the content buffer allocated for it, and the verdict agree with the machine; what that means for each kind of message is in HttpEndings. |
| `HttpParserObject.ParserObject.ConsumeContent` | Contrib/pion-net-3.0.15/net/src/HTTPParser.cpp:987-1027 | The block copy stays within the content buffer, writes exactly the bytes that fit and advances all counters by the bytes read. |
| `HttpParserObject.ParserObject.ConsumeContentAsNextChunk` | Contrib/pion-net-3.0.15/net/src/HTTPParser.cpp:1029-1044 | The cache afterwards is what it was plus the bytes available, cut at max_content_length. |
| `HttpParserObject.MessageObject.ConcatenateChunks` | Contrib/pion-net-3.0.15/net/src/HTTPMessage.cpp:135-141 | The content becomes the chunk cache, with its length, in a new zero-terminated buffer. |
| `HttpParserObject.MessageObject.CreateContentBuffer` | Contrib/pion-net-3.0.15/net/include/pion/net/HTTPMessage.hpp:319-323 | A new buffer of the content length, with unspecified contents, and one byte more that ends it with zero; every later write leaves that byte alone. |
| `HttpPhases.RunIsHeadRun` | Contrib/pion-net-3.0.15/net/src/HTTPParser.cpp:52-67 | A whole run is the header phase followed by what parse does with its answer. |
| `HttpPhases.RunIsChunkRun` | Contrib/pion-net-3.0.15/net/src/HTTPParser.cpp:68-76 | A run in the chunk state is the chunk phase followed by completion or failure. |
| `HttpSyntax.StepAt` | Contrib/pion-net-3.0.15/net/src/HTTPParser.cpp:207-543 | In the state for a beginning of a head, one more byte takes the parser to the state for the longer beginning, and is refused if and only if the longer text is no such beginning. |
| `HttpHeads.HeadExactly` | Contrib/pion-net-3.0.15/net/src/HTTPParser.cpp:207-543 | For every byte string, requests and responses: parseHeaders finds the end of a head after n bytes if and only if the first n bytes are a head in the grammar (spaces and line ends before a request line, numbers of any length, each line ended by CR LF, LF CR, CR or LF, white space before a header or alone on a line, a value straight after the colon, every part of the right characters and within its limit) with what closes it; and then first line and headers are what the text says, numbers modulo 2^16. |
| `HttpHeads.StartReached` | Contrib/pion-net-3.0.15/net/src/HTTPParser.cpp:207-543 | After every beginning of a head the parser waits for more, in the state that belongs to it, with everything read so far in its variables. |
| `HttpHeads.AcceptedReprints` | Contrib/pion-net-3.0.15/net/src/HTTPParser.cpp:207-543 | Every request head that is accepted can be printed, and the printed head, whatever follows it, is read as the same first line and headers. |
| `HttpEndings.BareRequestEnds` | Contrib/pion-net-3.0.15/net/src/HTTPParser.cpp:600-668 | For every request line and every printable header list without Content-Length and chunked coding: the message is complete after its head, its content is empty, and whatever follows is left over. |
| `HttpEndings.SizedRequestEnds` | Contrib/pion-net-3.0.15/net/src/HTTPParser.cpp:600-668 | A request whose Content-Length denotes n (digits with white space around them) takes exactly n bytes after its head and keeps as many as max_content_length allows. |
| `HttpEndings.LengthReads` | Contrib/pion-net-3.0.15/net/include/pion/net/HTTPMessage.hpp:295-304 | A Content-Length is read as n if and only if it denotes n. |
| `HttpEndings.BadLengthFails` | Contrib/pion-net-3.0.15/net/src/HTTPParser.cpp:600-668 | A request whose Content-Length denotes no number is rejected with nothing after its head consumed. |
| `HttpEndings.ChunkedRequestEnds` | Contrib/pion-net-3.0.15/net/src/HTTPParser.cpp:600-668 | A request whose headers say chunked is read up to its final chunk, whatever its Content-Length says, and its content is the concatenated pieces, cut at max_content_length. |
| `HttpEndings.BodilessEnds` | Contrib/pion-net-3.0.15/net/src/HTTPParser.cpp:600-668 | A 1xx, 204, 205 or 304 response, or an answer to HEAD, without chunked coding is complete after its head, whatever its Content-Length says. |
| `HttpEndings.BodilessChunkedWaits` | Contrib/pion-net-3.0.15/net/src/HTTPParser.cpp:600-668 | A response whose headers say chunked waits for chunks after its head, also if it never has a body. |
| `HttpChunkSyntax.AcceptsExactly` | Contrib/pion-net-3.0.15/net/src/HTTPParser.cpp:856-985 | For every byte string: parseChunks finds the end of a body after n bytes if and only if the first n bytes are a chunked body in the grammar (white space and line ends before a size, blanks after it, exactly as many data bytes as the size says, one last chunk of size zero), and then it has collected the data, cut at max_content_length. |
| `HttpMissing.MissingIsDummy` | Contrib/pion-net-3.0.15/net/src/HTTPParser.cpp:111-205 | In the content states parseMissingData fails exactly on a gap that leaves the current chunk or the body; otherwise it has the verdict of parsing as many 'X' characters, and the same parser and message up to the integrity flags if and only if the gap does not straddle max_content_length over bytes other than 'X'. |
| `HttpMissing.MissingIsDummyAlways` | Contrib/pion-net-3.0.15/net/src/HTTPParser.cpp:111-205 | The same for every parser that a new one can become by any series of received bytes and gaps that leaves it within a body. |
| `HttpMissing.BodyStoredAlways` | Contrib/pion-net-3.0.15/net/src/HTTPParser.cpp:987-1027 | In every parser reachable by received bytes and gaps that has just had a body announced: the first max_content_length bytes of the body are what is stored, and the bytes after it are left over. |
| `HttpMissing.RunSound` | Contrib/pion-net-3.0.15/net/src/HTTPParser.cpp:39-109 | Parsing keeps the content buffer as long as the part of the body that will be stored, and the chunk cache within max_content_length. |
| `HttpMissing.GapAcrossLimit` | Contrib/pion-net-3.0.15/net/src/HTTPParser.cpp:162-170 | For every request with a body, straight after its printed head: a gap across max_content_length leaves what dummy data leaves if and only if the fresh content buffer happens to hold nothing but 'X'. |
| `HttpMissing.StraddleExample` | Contrib/pion-net-3.0.15/net/src/HTTPParser.cpp:162-170 | A concrete request head after which two missing bytes across max_content_length leave another message than two dummy characters, unless memory happened to hold an 'X'. |
| `HttpIntegrity.StatusIsRight` | Contrib/pion-net-3.0.15/net/src/HTTPParser.cpp:1097-1111 | For every series of received bytes and gaps given to a new parser: the one that ends the message leaves it marked partial if and only if bytes came after a gap, truncated if there was a gap without that or parsing failed, and complete otherwise. |
| `HttpIntegrity.GapInHeadFails` | Contrib/pion-net-3.0.15/net/src/HTTPParser.cpp:111-205 | In every parser reachable that way, a gap before the body ends the message with an error and that mark. |
| `HttpParserObject.ParserObject.ParseMissingData` | Contrib/pion-net-3.0.15/net/src/HTTPParser.cpp:111-205 | The method on the parser object does to parser and message what the model of parseMissingData says, with every write inside the content buffer. |
| `HttpReceive.RoundTrip` | Contrib/pion-net-3.0.15/net/include/pion/net/HTTPMessage.hpp:359-430 | Parsing a sent request, whatever follows it, recovers method, resource, query, version, headers, parameters, cookies and body (cut at max_content_length) and consumes exactly the bytes sent. |
| `HttpReceive.PipelineRoundTrip` | Contrib/pion-net-3.0.15/net/src/HTTPMessage.cpp:45-133 | Any list of persistent requests sent back to back over a connection that delivers arbitrary non-empty pieces is received as the same list, and what was sent after them is still pending. |
| `HttpReceive.ReceiveDelivers` | Contrib/pion-net-3.0.15/net/src/HTTPMessage.cpp:45-133 | However the bytes are cut into reads, receive returns the message that parsing all of them would find, keeps the rest for the next call, and closes the connection if and only if the message does not keep it alive (which is spelled out in HttpLifecycle). |
| `HttpReceive.FormArrives` | Contrib/pion-net-3.0.15/net/include/pion/net/HTTPRequest.hpp:122-137 | Form fields sent in the query string, in content whose first Content-Type begins with the type of url-encoded forms, or both, arrive as exactly these fields in this order; any other content adds none. |
| `HttpLifecycle.LifecycleAfterRequest` | Contrib/pion-net-3.0.15/net/src/HTTPMessage.cpp:45-133 | For a live connection on which a sent request and any bytes are pending, however they are cut into reads: receive returns that request and leaves the connection to be closed if and only if the sender did not keep it alive or the version is below 1.1; otherwise pipelined if and only if the read in which the request ended holds more bytes, which are then the saved ones. |
| `HttpLifecycle.LifecycleAfterBareRequest` | Contrib/pion-net-3.0.15/net/include/pion/net/HTTPMessage.hpp:346-350 | The same for a request without a body and any printable headers: closed if and only if the first Connection header is exactly "close" or the version is below 1.1. |
| `HttpLifecycle.ReceiveEnds` | Contrib/pion-net-3.0.15/net/src/HTTPMessage.cpp:45-133 | receive takes a message from the fewest reads that hold it, and leaves the later ones unread. |
| `HttpLifecycle.LoopAnswers` | Contrib/pion-net-3.0.15/net/src/HTTPMessage.cpp:74-110 | On any pending bytes: receive returns the message if parsing all of them completes one, fails if that fails, and where they stop short returns a message if and only if its body has no known length, with what there is of it and a connection to be closed. |
| `HttpPrint.Send` | Contrib/pion-net-3.0.15/net/src/HTTPMessage.cpp:30-43 | The write buffers filled by prepareBuffersForSend, appendHeaders and send concatenate to the printed request. |
| `HttpPrint.HeadParses` | Contrib/pion-net-3.0.15/net/src/HTTPParser.cpp:207-543 | parseHeaders consumes exactly a printed request head and recovers first line and headers. |
| `HttpPrint.PreparedOk` | Contrib/pion-net-3.0.15/net/include/pion/net/HTTPMessage.hpp:403-413 | After prepareHeadersForSend the headers are still printable, Connection and Content-Length have exactly the announced values, and Transfer-Encoding is untouched. |
| `Bytes.ChangedFound` | Contrib/pion-net-3.0.15/net/include/pion/net/HTTPMessage.hpp:458-480 | After changeValue the key is found with the new value, and exactly one entry has replaced all entries under the key. |
| `Bytes.ChangedElsewhere` | Contrib/pion-net-3.0.15/net/include/pion/net/HTTPMessage.hpp:458-480 | changeValue leaves every other key alone. |
| `Bytes.NumeralRoundTrip` | Contrib/pion-net-3.0.15/net/include/pion/net/HTTPMessage.hpp:295-304 | Reading a printed decimal or hexadecimal number gives the number back. |
| `HttpReceiveObject.ReceiveMessage` | Contrib/pion-net-3.0.15/net/src/HTTPMessage.cpp:45-133 | receive on connection and parser objects: message, success and the connection's lifecycle are those of the model of receive, about which HttpLifecycle says when a connection is closed. |
| `HttpReceiveObject.CheckPrematureEof` | Contrib/pion-net-3.0.15/net/include/pion/net/HTTPParser.hpp:123-130 | The end of the input is premature unless the body has no known length, in which case the message is completed with what has been collected. |
| `HttpChunks.ChunksRoundTrip` | Contrib/pion-net-3.0.15/net/src/HTTPWriter.cpp:38-73 | For every list of pieces, empty ones included, parseChunks accepts the framed bytes, stops right after the final chunk and has collected the concatenated pieces, cut at max_content_length. |
| `HttpChunks.ChunkedBody` | Contrib/pion-net-3.0.15/net/src/HTTPParser.cpp:856-985 | The same for parse: the message is complete, its content is the concatenated pieces, and what follows is left over. |
| `HttpWriter.SendPieces` | Contrib/pion-net-3.0.15/net/include/pion/net/HTTPWriter.hpp:196-234 | Writing and sending each piece as a chunk, with clear in between, and the last with the final chunk (the final chunk alone if there is none), puts the head once and then exactly the framed pieces on the wire. |
| `HttpWriter.Writer.PrepareWriteBuffers` | Contrib/pion-net-3.0.15/net/src/HTTPWriter.cpp:21-74 | Headers once; then the buffered payload as one chunk, or as it is, or nothing if there is none; then the final chunk if asked for. |
| `HttpWriter.Writer.Write` | Contrib/pion-net-3.0.15/net/include/pion/net/HTTPWriter.hpp:124-159 | Binary data is appended to the payload after any pending text, and the length counts it. |
| `HttpWriter.Writer.WriteText` | Contrib/pion-net-3.0.15/net/include/pion/net/HTTPWriter.hpp:112-116 | Text is appended to the payload. |
| `HttpWriter.Writer.Flush` | Contrib/pion-net-3.0.15/net/include/pion/net/HTTPWriter.hpp:291-302 | Pending text moves into the content buffers without changing the payload. |
| `HttpWriter.Writer.Clear` | Contrib/pion-net-3.0.15/net/include/pion/net/HTTPWriter.hpp:97-104 | The payload is empty afterwards. |
| `HttpWriter.Writer.SendChunk` | Contrib/pion-net-3.0.15/net/include/pion/net/HTTPWriter.hpp:196-205 | One write with the payload as a chunk; a client without chunk support gets it unframed over a connection marked for closing. |
| `HttpWriter.Writer.SendFinalChunk` | Contrib/pion-net-3.0.15/net/include/pion/net/HTTPWriter.hpp:219-234 | One write with the payload as a chunk, if there is any, and the final chunk. |
| `FileDelivery.FileArrives` | Contrib/pion-net-3.0.15/net/services/FileService.cpp:768-888 | End to end: for every file, piece size, client and keep-alive setting, parsing what the sender wrote yields status, cookies and the file (cut at max_content_length); a client with length or framing stops right after it, one without chunk support finds the end with the connection. |
| `FileSender.DiskFileSender.Deliver` | Contrib/pion-net-3.0.15/net/services/FileService.cpp:768-888 | Without write errors the run of send and handleWrite ends; the file is delivered if and only if the recorded number of bytes can be read, and then the writes and their kinds are exactly the specified ones, and the connection stays open if and only if it was to and the client supports chunks or one piece was enough. |
| `FileSender.DiskFileSender.Send` | Contrib/pion-net-3.0.15/net/services/FileService.cpp:768-848 | One write, of the kind its place in the file demands, with the next bytes of the file from memory or disk; none if they cannot be read. |
| `FileSender.DiskFileSender.ReadBlock` | Contrib/pion-net-3.0.15/net/services/FileService.cpp:791-821 | The buffer allocated for the first piece is large enough for every later one, and holds exactly the next bytes of the file. |
| `FileSender.DiskFileSender.HandleWrite` | Contrib/pion-net-3.0.15/net/services/FileService.cpp:850-888 | Progress by the bytes sent, a cleared writer while the file is unfinished, and a connection marked for closing after an error. |
| `FileSender.PiecesCover` | Contrib/pion-net-3.0.15/net/services/FileService.cpp:776-779 | The pieces concatenate to the file, none is empty, and none exceeds max_chunk_size (0 meaning no limit). |
| `FileSender.DeliveredBytes` | Contrib/pion-net-3.0.15/net/services/FileService.cpp:823-847 | All writes together: a file that fits goes whole after a head with its length; a larger one is framed piece by piece, or goes unframed to a client without chunk support. |
| `FileSender.OneTerminatingSend` | Contrib/pion-net-3.0.15/net/services/FileService.cpp:826-847 | Exactly one of the sends ends the message, and it is the last one. |
| `HttpResponses.StatusHeadParses` | Contrib/pion-net-3.0.15/net/include/pion/net/HTTPResponse.hpp:197-206 | parseHeaders consumes exactly a printed response head and recovers status and headers. |
| `HttpResponses.SizedArrives` | Contrib/pion-net-3.0.15/net/include/pion/net/HTTPResponseWriter.hpp:125-131 | A response sent with Content-Length is received with exactly its body. |
| `HttpResponses.ChunkedArrives` | Contrib/pion-net-3.0.15/net/include/pion/net/HTTPMessage.hpp:403-413 | A response sent in chunks is received with exactly the concatenated pieces. |
| `HttpResponses.UnframedArrives` | Contrib/pion-net-3.0.15/net/include/pion/net/HTTPParser.hpp:123-130 | A response without length or framing is received in full at the end of the connection. |
| `HttpResponses.SetCookieAdds` | Contrib/pion-net-3.0.15/net/include/pion/net/HTTPResponse.hpp:127-172 | setCookie gives the client exactly one more cookie, after those it had. |
| `FileCache.CacheAgreement` | Contrib/pion-net-3.0.15/net/services/FileService.cpp:192-347 | With cache=1 and scan=0, over every history of requests and edits: a reply for an existing file (status, type, Last-Modified, body) is the one cache=0 gives, if time and size have determined this file's content, and it could be read, whenever it was asked for. |
| `FileCache.ExactAgreement` | Contrib/pion-net-3.0.15/net/services/FileService.cpp:192-347 | Over every history, unreadable files included, with cache=1 or cache=2: a reply for an existing file is the one cache=0 gives if and only if the entry left by the earlier requests agrees with the file (its time, size, content and readability, case by case). |
| `FileCache.AgreementIgnoringUpdates` | Contrib/pion-net-3.0.15/net/services/FileService.cpp:264-303 | With cache=2, over every history and under the same condition on the one file: a reply is the one cache=0 gives if and only if the path is not cached, or has no time recorded, or was recorded with the file's time and, where content is asked for, with its size. |
| `FileCache.IgnoringUpdates` | Contrib/pion-net-3.0.15/net/services/FileService.cpp:264-303 | The same for one request and any truthful entry. |
| `FileCache.ServeAgrees` | Contrib/pion-net-3.0.15/net/services/FileService.cpp:217-347 | The exact condition for one request and any cache whatever, with cache=1 or cache=2. |
| `FileCache.TruthKept` | Contrib/pion-net-3.0.15/net/services/FileService.cpp:192-347 | A request for another file, or for one that can be read, keeps an entry true to its path, time and size, for all cache and scan settings. |
| `FileCache.EntriesRecorded` | Contrib/pion-net-3.0.15/net/services/FileService.cpp:697-740 | Every entry records the time and size its file had at an earlier request. |
| `FileCache.CachedIsCurrent` | Contrib/pion-net-3.0.15/net/services/FileService.cpp:264-303 | One request with cache=1 and a readable file: the reply for an existing file is current, and a missing file is an error if it was cached and not found otherwise. |
| `FileCache.RefreshedIsCurrent` | Contrib/pion-net-3.0.15/net/services/FileService.cpp:719-740 | A truthful entry becomes current when it is checked and the file can be read. |
| `FileCache.NoCacheIsCurrent` | Contrib/pion-net-3.0.15/net/services/FileService.cpp:307-347 | Without a cache every reply is the one the file calls for now; an unreadable file goes unanswered unless it is empty or no content is asked for. |
| `FileCache.OldContentServed` | Contrib/pion-net-3.0.15/net/services/FileService.cpp:286-303 | An instance for cache=2: after any edit that changes the time, the old content and date are served. |
| `FileCache.JunkServed` | Contrib/pion-net-3.0.15/net/services/FileService.cpp:705-740 | An instance for cache=1: after an edit to an unreadable file, the request fails, and the next one, with the file readable, is answered from the uninitialised buffer. |
| `FileCache.FileService.Respond` | Contrib/pion-net-3.0.15/net/services/FileService.cpp:192-390 | The GET and HEAD branch with its cache map gives the reply and the cache of the model, for all cache and scan settings. |
| `FileCache.FileService.RefreshEntry` | Contrib/pion-net-3.0.15/net/services/FileService.cpp:697-740 | update, read and checkUpdated on the entry in the map: what the entry becomes, also when reading fails half way. |
| `FileCacheSettings.NoFileAdded` | Contrib/pion-net-3.0.15/net/services/FileService.hpp:431-436 | With scan=1 or scan=3, over every run: the cache has entries for exactly the files found at the start, and every other path is answered as not found. |
| `FileCacheSettings.NamesOnly` | Contrib/pion-net-3.0.15/net/services/FileService.cpp:237-262 | Without a cache an entry made at the start is only a name: the file is answered as it is now. |
| `FileCacheSettings.PlaceholderFilled` | Contrib/pion-net-3.0.15/net/services/FileService.cpp:264-281 | The first request for a file known by name is answered with the file as it is, and records its time, its size and, within max_cache_size, its content; no other entry changes. |
| `FileCacheSettings.LimitOverRuns` | Contrib/pion-net-3.0.15/net/services/FileService.hpp:439-443 | From a cache within the limit, over every run: no content larger than max_cache_size is held in memory, as documented, if and only if no request finds a cached file changed and grown beyond it (with cache=1); with cache=2 or no cache it always holds. |
| `SpritePlanner.Plan` | Frontend/brainslug/themes/brainslug_theme/chance/lib/slicedice.rb:239-390 | The row loop ends; every image is placed exactly once, inside the sheet, apart from all others, anchored ones flush with their edge and repeated ones across; no image would have fitted into a row above its own; the width is aim times the least common multiple of the greatest width and all repeated widths; original areas, wasted pixels, the space above images shorter than their row and what rows lose after an image with clear (both measured on the placed rectangles) make up exactly width times height, and without such gaps areas and waste alone do. |
| `SpritePlanner.PlaceRow` | Frontend/brainslug/themes/brainslug_theme/chance/lib/slicedice.rb:290-387 | A row places at least one image, loses none, keeps the sheet well laid out, settles its waste exactly, and leaves no image that would still have fitted. |
| `SpritePlanner.FillRow` | Frontend/brainslug/themes/brainslug_theme/chance/lib/slicedice.rb:338-383 | After the pass over the normal images, those placed and those left make up the list, and the guard of the second fill loop is false, so that its body never runs. |
| `SpritePlanner.YPlan` | Frontend/brainslug/themes/brainslug_theme/chance/lib/slicedice.rb:180-233 | Every image is placed once, in order, over the whole height, which is the least common multiple of all heights; columns do not overlap; original areas plus wasted pixels are exactly width times height. |
| `SpritePlanner.Measure` | Frontend/brainslug/themes/brainslug_theme/chance/lib/slicedice.rb:272-280 | The widest image, and the least common multiple of all repeated widths. |
| `Sprites.Lcm` | Frontend/brainslug/themes/brainslug_theme/chance/lib/slicedice.rb:198-205 | The least common multiple: a multiple of both numbers, and no smaller positive multiple of the first is one of the second. |
| `Sprites.LcmAllIsLeast` | Frontend/brainslug/themes/brainslug_theme/chance/lib/slicedice.rb:198-205 | The height and width the planners accumulate: a multiple of every number of the list that divides every other common multiple. |
| `SpriteGaps.GapsAdd` | Frontend/brainslug/themes/brainslug_theme/chance/lib/slicedice.rb:290-387 | The two gaps measured on the placed rectangles are sums over the rows. |
| `SpriteGaps.NoGaps` | Frontend/brainslug/themes/brainslug_theme/chance/lib/slicedice.rb:290-387 | If no image has clear and each row has one height, both gaps are zero. |
| `Routing.Server.FindRequestHandler` | Contrib/pion-net-3.0.15/net/src/HTTPServer.cpp:117-141 | The handler of the longest registered key that equals the resource or is followed there by '/'; none exactly if no key covers the resource. |
| `Routing.WalkBack` | Contrib/pion-net-3.0.15/net/src/HTTPAuth.cpp:65-81 | The walk back from upper_bound over sorted keys finds the one longest covering key, and fails exactly if there is none. |
| `Routing.Server.AddResource` | Contrib/pion-net-3.0.15/net/src/HTTPServer.cpp:143-150 | The key without trailing slash is inserted in order; a key already there keeps its handler. |
| `Routing.Server.HandleRequest` | Contrib/pion-net-3.0.15/net/src/HTTPServer.cpp:36-115 | Which answer a request gets, exactly: redirects first (an error if there are too many), then authentication of the resource arrived at, then the longest match or not found. |
| `Routing.Redirect` | Contrib/pion-net-3.0.15/net/src/HTTPServer.cpp:50-63 | The loop gives up if and only if more than MAX_REDIRECTS redirects can be followed; otherwise it ends at a resource that is not redirected. |
| `Routing.CycleGoesOn` | Contrib/pion-net-3.0.15/net/src/HTTPServer.cpp:50-63 | Redirects that lead only to redirected resources can be followed any number of times, so that the loop gives up on them. |
| `Routing.NeedAuthentication` | Contrib/pion-net-3.0.15/net/src/HTTPAuth.cpp:37-63 | Authentication is needed if and only if there are users and the resource is covered by a restriction and by no permission. |
| `Routing.StripOne` | Contrib/pion-net-3.0.15/net/include/pion/net/HTTPServer.hpp:159-164 | stripTrailingSlash takes away one final slash and nothing else; every key that covers the stripped resource covers the resource, and only the resource itself, slash included, covers that and not the other. |
| `Base64.RoundTrip` | Contrib/pion-net-3.0.15/net/src/HTTPTypes.cpp:92-219 | Decoding the encoder's output succeeds with the original bytes, for every byte string, and the padding assertions never fire on it. |
| `Base64.Alphabet` | Contrib/pion-net-3.0.15/net/src/HTTPTypes.cpp:172-176 | The encoding table is the alphabet of section 4 of RFC 4648. |
| `Base64.Encode` | Contrib/pion-net-3.0.15/net/src/HTTPTypes.cpp:172-219 | The output has 4 * ceil(n / 3) characters. |
| `Base64.EncodeLoop` | Contrib/pion-net-3.0.15/net/src/HTTPTypes.cpp:172-219 | The encoding loop computes the encoding. |
| `Base64.DecodeLoop` | Contrib/pion-net-3.0.15/net/src/HTTPTypes.cpp:92-170 | The decoding loop computes the decoding, for every byte string: output, rejection, failed padding assertion, or an index outside the table. |
| `Base64.StaysInTable` | Contrib/pion-net-3.0.15/net/src/HTTPTypes.cpp:92-170 | On characters up to 127 the table is never indexed outside its bounds. |
| `Base64Decoding.DecodesExactly` | Contrib/pion-net-3.0.15/net/src/HTTPTypes.cpp:92-170 | For every byte string, with its longest beginning of alphabet characters: it is decoded if that is all and not one character too many, or if padding follows where it may and no bits are left over; an assertion fails on padding after left-over bits; the table is left at a character above 127; anything else is rejected. On success the output has the length due and, no bits being left over, encodes to that beginning with its padding. |
| `Base64Decoding.OnlyTheAlphabet` | Contrib/pion-net-3.0.15/net/src/HTTPTypes.cpp:94-112 | A character is decoded if and only if it is of the alphabet. |
| `Base64.ColonCutsUser` | Contrib/pion-net-3.0.15/net/src/HTTPBasicAuth.cpp:113-130 | A user name with a colon is cut at the first one, the rest going to the password. |
| `Base64.CredentialsRoundTrip` | Contrib/pion-net-3.0.15/net/src/HTTPBasicAuth.cpp:103-130 | The header a client builds from a colon-free user name and any password is understood as this pair exactly if the name is not empty. |
| `HttpForms.UrlRoundTrip` | Contrib/pion-net-3.0.15/net/src/HTTPTypes.cpp:221-286 | url_decode undoes url_encode on all byte strings. |
| `HttpForms.UrlEncodeLoop` | Contrib/pion-net-3.0.15/net/src/HTTPTypes.cpp:254-286 | The encoding loop's output decodes to the input. |
| `HttpForms.UrlDecodeLoop` | Contrib/pion-net-3.0.15/net/src/HTTPTypes.cpp:221-252 | The decoding loop, with its skips, computes the decoding. |
| `HttpFormSyntax.AnySpellingDecodes` | Contrib/pion-net-3.0.15/net/src/HTTPTypes.cpp:221-252 | However a text has been url-encoded (plain characters, '+' for a space, '%' with two digits of either case), decoding gives it back. |
| `HttpFormSyntax.QueryExactly` | Contrib/pion-net-3.0.15/net/src/HTTPParser.cpp:670-739 | For every byte string: parseURLEncoded succeeds if and only if the text, without its line ends, is made of well-formed parts within the limits (empty ones and names without '=' included), and then adds exactly the pairs of those with a name, in order. |
| `HttpCookieSyntax.CookiesExactly` | Contrib/pion-net-3.0.15/net/src/HTTPParser.cpp:741-854 | For every byte string and both kinds of header: parseCookieHeader succeeds if and only if the text is of the grammar (names, values, quoted values with anything after them or without closing quote, between ';' or ','), and then adds exactly the cookies of its parts, in order, spaces dropped outside quotes and attributes left out. |
| `HttpFormSyntax.CookieHeaderParses` | Contrib/pion-net-3.0.15/net/src/HTTPParser.cpp:741-854 | A cookie header of unquoted parts separated by "; " gives the cookies among them in order: attributes are dropped, and a name without '=' that is no attribute has the empty value. |
| `HttpFormSyntax.CookiesArrive` | Contrib/pion-net-3.0.15/net/src/HTTPParser.cpp:545-598 | A sent request arrives with exactly the cookies of all its Cookie headers, written this way, in order. |
| `HttpForms.QueryRoundTrip` | Contrib/pion-net-3.0.15/net/src/HTTPTypes.cpp:304-315 | Parsing a printed query string succeeds if and only if every name is non-empty and every encoded form fits its limit, and then url-decoding gives the pairs back. |
| `HttpForms.ParseQueryLoop` | Contrib/pion-net-3.0.15/net/src/HTTPParser.cpp:670-739 | The loop of parseURLEncoded computes the run of its state machine, including the pairs kept when it fails. |
| `HttpForms.SetCookieRoundTrip` | Contrib/pion-net-3.0.15/net/src/HTTPTypes.cpp:317-338 | Parsing a printed Set-Cookie header adds exactly the one cookie: Version, Path and Max-Age are dropped, an empty value is kept. |
| `HttpForms.ParseCookieLoop` | Contrib/pion-net-3.0.15/net/src/HTTPParser.cpp:741-854 | The loop of parseCookieHeader computes the run of its state machine. |

## Left out

- Weak memory ordering: every read, write and compare-and-swap is one sequentially consistent step, a tagged pointer is read and set as a whole, and each freelist or queue node is reached through such steps.
- LockFreeFifoTheorems.Construct and the node constructor of enqueue: the fields of a node that no other thread can see are written in one step.
- LockedQueueProof.InvKept: createNode and destroyNode are one step each; that allocate returns only nodes nobody owns is FreeList.AllocatedIsUnused.
- Wrap-around of tags and versions: both are unbounded numbers.
- stop() and spurious wakeups of PionLockedQueue; in clear, which holds both locks, moving on by one node is one step.
- PionLockFreeQueue, PionBlob and the bounded freelist.
- Sockets, asio, SSL, timers, logging, plug-ins, threads and locks of the HTTP classes: a connection is the list of buffers it delivers and the list of writes it receives.
- Dictionary order: a header dictionary is a list in iteration order, and find returns the first entry under the key; the original hash map promises no particular order among equal keys.
- lexical_cast of a Content-Length with a sign, and case folding of characters above 127.
- HttpParserObject.ParserObject.Parse: when parsing fails, the bytes read by the failing phase are not in the byte counters, as in the original; the body counter of chunked bodies, which depends on how the bytes arrive, is left open.
- setDoNotSendContentLength, and what the requester does to send chunks: HttpReceive.RoundTrip is about requests sent with their content length, HttpEndings.ChunkedRequestEnds about any chunked one received.
- HttpReceive.RoundTrip: a request with a chunked Transfer-Encoding header and a Content-Length body, which send would print, is not read back by the parser and is excluded.
- finish in states other than PARSE_END, for clients that give up on a message.
- What an index outside the decoding table reads: the model stops there.
- Memory of the writer's caches: write buffers are values, taken when the data is written and sent at once; that the caller's data must persist until then is not modelled.
- HttpWriter.Writer.SendMoreData: the exception for a connection that is no longer open is not modelled.
- FileSender.DiskFileSender.Deliver: about runs without write errors; handleWrite with an error is covered by its own contract. Logging and the failure to open a file both show only as an undelivered file.
- FileCache: the directory scan that may fill the cache at start, POST, PUT and DELETE, and files that change between the calls that look at them within one request.
- HTTPBasicAuth's cache of users and its expiry by the clock: whether credentials are accepted is an input of Routing.Server.HandleRequest.
- PluginManager::find, which is not a longest-prefix match; handlers that throw.
- The order in which plan and yplan sort the images, which no result depends on; the composition of pixels in dice; the choice among plans by waste.
- Backend, SproutCore front end, css.rb and chance.rb: glue, data and user interface.
