# Proofs about the MCP C++ SDK

This project models the parts of the SDK where several threads, two parties or many reads have to
work out together, and proves what holds in every run of them:

- **Request correlation** (`Correlation`, `CorrelationRuns`, `CompletionCauses`, `ProgressCallbackRuns`): senders, the reader, cancellers, the
  timer and the close handler over the pending, deadline and progress tables. One method of the class
  is one lock-protected region; a run is any sequence of such regions.
- **The initialize handshake** (`Handshake`): client and server over two FIFO channels, with closes
  that fall between a check and the state change that follows it.
- **SSE delivery** (`SseChannel`, `SseChannelRuns`, `SseNewestStream`): replay ring, watermark, cursors, generations.
- **The native condition variable** (`ConditionVariable`): semaphore and waiter count.
- **Codecs** (`ChunkedDecoder`, `SseCodec`, `HttpHead`, `ArgumentQuoting`, `Messages`): round trips, and
  independence from how bytes are cut.
- **Server side** (`SessionTable`, `Router`, `PostPipeline`, `HttpEndpoint`, `UriTemplate`,
  `Pagination`, `Schema`) and two examples (`Evaluator` with `EvaluatorSyntax`, `CpuSampling`).

Each method is proved against a function of its inputs or of the old state. The state machines are built
from the same functions, so what is proved about runs is about the methods. A run is a sequence of
labels; a label that is not enabled in a state leaves it alone, so a claim about all label sequences is
a claim about all interleavings. History fields (what was taken, completed, closed) exist in the state
machines only, to state the results.

## What the proofs show about the code

Where a promise fails, the code is kept as it is and the exact condition is proved.

- `Shutdown` is final on the client exactly when a close finds no `initialize` under way, or one about to disconnect
  (`Handshake.ClosedClientStaysClosed`, `Handshake.ClientCloseIsFinal`). Otherwise `initialize` goes on and writes the phase
  again: in the ordinary case the close fails the waiting request and the client is `Uninitialized`, ready to be initialized
  once more (`Handshake.CloseCanBeOverwritten`); just before the last step it ends up operating
  (`Handshake.ClosedSessionCanOperate`). On the server a close is final exactly when the reader is not between a check of the
  phase and the write after it (`Handshake.ServerCloseIsFinal`).
- Completing a request drops its progress callback exactly when the request is timed and was answered, cancelled or expired after
  its deadline had been set; this is for a session that has not closed and a token with one user
  (`ProgressCallbackRuns.ProgressCallbackDropped`). So a request without a timeout leaves its callback registered for ever
  (`ProgressCallbackRuns.UntimedRequestKeepsProgressCallback`), and a timed one is sure to drop it unless a peer answered its id, or it
  was cancelled, before it was tracked, which is before it is sent (`ProgressCallbackRuns.CompletionDropsCallback`). One that was
  overtaken in that way keeps deadline and callback until a later answer to its id, a cancellation or the timer takes them out
  (`ProgressCallbackRuns.OvertakenKeepsCallback`).
- An HTTP head that ends in bare line feeds is cut elsewhere once a CRLF blank line turns up in the body
  (`HttpHeads.AppendedBytes`, with an instance in `HttpHeads.BareHeadIsCutAgain`).
- The chunked decoder refuses whitespace between a chunk size and the semicolon of an extension, which section 7.1.1
  of RFC 9112 asks a recipient to tolerate, and reads a size of 2^64 as 0 (`ChunkedDecoding.DecodeInvertsEncode`,
  `ChunkedDecoding.SpacedExtensionRefused`, `ChunkedDecoding.SizeWrapsAt64Bits`).
- Integer ids outside the signed 64-bit range are not echoed (`Messages.IdEchoed`), and an error object whose code or message
  has the wrong type raises an exception instead of an invalid-request error (`Messages.ParseRaisesIff`, `Messages.WrongCodeRaises`).
- Schema enumerations compare integers after a cast: a negative candidate also allows the unsigned integer 2^64 above it, so the
  schema that allows only -1 accepts 18446744073709551615 (`Schema.IntegerAllowedIff`, `Schema.MinusOneAllowsItsTwin`).
- A Last-Event-ID of 2^64 - 1 is answered with the whole ring (`SseChannelRuns.ResumeStart`).
- Milliseconds beyond the range of an int's ticks are cut, to no wait at all for some and to a wait without end for others
  (`ConditionVariables.TicksCoverTheWait`, `ConditionVariables.TicksCanWrap`).
- Following page cursors comes to an end exactly when the page size is not 0 or the list is empty (`Pagination.FinishesIff`).
- A URI template restores every URI it matches exactly when its variable names are distinct, or two of its variables are adjacent
  and it matches nothing (`UriTemplate.RestoresIff`).
- When neither side's preferred version is in the other's list no run at all gets either side to operate, even if both support a
  version further down (`Handshake.NoAgreementNeverOperates`, `Handshake.UndisturbedOutcome`).

## Model

| member | source | states |
|---|---|---|
| Correlation.Session.Track | src/core/session.cpp:89-101 | a timed request gets a deadline one timeout from now, a token with a callback is registered, all else stays |
| Correlation.Session.ClearTracking | src/core/session.cpp:283-291 | removes the id's deadline and the progress callback of its token, and nothing when there is no deadline |
| Correlation.Session.TakePending | src/core/router.cpp:79-89 | the callback goes to the first caller that asks; later callers get nothing |
| Correlation.Session.SwapPending | src/core/router.cpp:100-105 | every pending callback leaves the table in one step |
| Correlation.Session.CollectExpired | src/core/session.cpp:303-325 | the erase-while-iterating pass removes and returns every due id once, whatever the map's order, and no other |
| Correlation.Session.HandleProgress | src/core/session.cpp:234-258 | restarts the clock of every deadline with the token and of no other |
| CorrelationRuns.OneDisposition | src/core/session.cpp:75-135 | in every interleaving an issued request is pending, held by one call that took it, or completed; its own callback runs at most once |
| CompletionCauses.CompletedForItsCause | src/core/router.cpp:79-109 | in every run a request told it was answered had an answer taken up, one told it was cancelled was cancelled, one told it timed out was overdue when the timer looked, one told of a close was pending at a close |
| CompletionCauses.CallTellsItsCause | src/core/session.cpp:124-135 | taking up an answer, a cancellation or an expiry of a pending request runs its own callback with that cause |
| CompletionCauses.CloseTellsPending | src/core/session.cpp:214-223 | a close runs the callback of a pending request with the close as its cause |
| CompletionCauses.SentAndTracked | src/core/session.cpp:75-106 | an undisturbed sender leaves its request pending under a new id, with a deadline exactly when the timeout is positive and a progress callback when there is a token and a callback |
| CompletionCauses.ProgressGivesFullTimeout | src/core/session.cpp:243-255 | a progress notification gives each request with its token a full timeout from now and changes nothing else |
| CompletionCauses.CloseEmptiesTables | src/core/session.cpp:214-223 | an undisturbed close leaves no deadline, no progress callback and no pending request |
| CorrelationRuns.TimedRequestGuarded | src/core/session.cpp:75-106 | a pending timed request has a deadline, a sender about to set one, or a call committed to taking it |
| CorrelationRuns.QuietSessionKeepsDeadlines | src/core/session.cpp:206-232 | when no call is in progress a timed request is completed or still has its deadline |
| CorrelationRuns.TimeoutIsNeverEarly | src/core/session.cpp:294-325 | an expired request's full timeout has passed since its deadline was set and since every progress notification for its token; timeout and token are the request's own options |
| CorrelationRuns.PassExpiresExactlyTheDue | src/core/session.cpp:303-325 | a pass takes a deadline out if and only if its latest restart is a full timeout ago |
| CorrelationRuns.CallbacksPreserved | src/core/router.cpp:74-109 | every step keeps each callback in exactly one place |
| CorrelationRuns.NoOrphansPreserved | src/core/session.cpp:206-232 | every step keeps each pending timed request guarded |
| CorrelationRuns.TimerPreserved | src/core/session.cpp:234-258 | every step keeps each deadline exactly one timeout after the latest event that restarted it |
| ProgressCallbackRuns.ProgressCallbackOwned | src/core/session.cpp:89-101 | in every run a registered progress callback has a deadline that will take it out, or an untimed request that asked for it |
| ProgressCallbackRuns.ProgressCallbackDropped | src/core/session.cpp:283-291 | in every run without a close, the callback of a token with one user is gone if and only if that request was answered, cancelled or expired after its deadline was set, that is, it is timed and has no deadline any more |
| ProgressCallbackRuns.CompletionDropsCallback | src/core/session.cpp:206-212 | in every such run a completed timed request has dropped its callback, unless it was answered or cancelled before its deadline was set |
| ProgressCallbackRuns.OvertakenKeepsCallback | src/core/session.cpp:82-106 | a timed request answered or cancelled before its deadline was set keeps deadline and callback until a later answer, cancellation or expiry |
| ProgressCallbackRuns.UntimedRequestKeepsProgressCallback | src/core/session.cpp:206-212 | in every such run a completed untimed request's own progress callback is still registered |
| ProgressCallbackRuns.LateTrackingOutlivesCompletion | src/core/session.cpp:86-101 | the timer region of a timed request that is completed already gives it a deadline and a progress callback |
| ProgressCallbackRuns.AnswerOvertakesTracking | src/core/session.cpp:86-101 | there is a run in which a request is completed before its timer region, for any options |
| ProgressCallbackRuns.TrackingBetweenAnswerAndCallback | src/core/session.cpp:86-101 | there is a run in which the timer region falls between the answer and its callback, and both deadline and progress callback outlive completion |
| CorrelationRuns.RunInvariant | src/core/session.cpp:283-336 | all of these hold in every reachable state |
| Handshake.NegotiateLoop | src/core/session.cpp:381-387 | the requested version if the server supports it, else the server's first |
| Handshake.OperatingServerAgreed | src/core/session.cpp:398-403 | an operating server has a client that accepted the version it answered with, in both lists |
| Handshake.OperatingClientProcessed | src/core/session.cpp:465-514 | an operating client has a server that processed its initialize with the same version |
| Handshake.ClientTakesAnswer | src/core/session.cpp:477-514 | the client drops answers it does not wait for, starts over on a refusal, disconnects on a version it does not support, and otherwise announces and operates |
| Handshake.ServerTakesMessage | src/core/session.cpp:343-404 | the server answers the first initialize with its choice, refuses any other, and operates on the announcement that follows |
| Handshake.AgreementPossible | src/core/session.cpp:381-387 | the server's answer is acceptable if and only if one side's preferred version is in the other's list |
| Handshake.NoAgreementNeverOperates | src/core/session.cpp:381-387 | if neither preferred version is in the other's list, no run gets either side to operate |
| Handshake.UndisturbedSettles | src/core/session.cpp:465-514 | without closes and timeouts at most eleven steps can be taken, in whatever order |
| Handshake.UndisturbedOutcome | src/core/session.cpp:465-514 | every such run that has come to rest has both sides operating if and only if one side's preferred version is in the other's list; else the client has shut down |
| Handshake.ClosedClientStaysClosed | src/core/session.cpp:465-514 | from any state a closed client stays closed in every continuation if and only if no `initialize` is under way or one is about to disconnect |
| Handshake.ClosedServerStaysClosed | src/core/session.cpp:340-404 | from any state a closed server stays closed in every continuation if and only if its reader is not between a check of the phase and the write after it |
| Handshake.ClientCloseIsFinal | src/core/session.cpp:214-215 | the same for a close of the client anywhere in a run |
| Handshake.ServerCloseIsFinal | src/core/session.cpp:214-215 | the same for a close of the server anywhere in a run |
| Handshake.ClientComesBack | src/core/session.cpp:465-514 | in every other state some continuation undoes the close, and which phase it leads to |
| Handshake.CloseCanBeOverwritten | src/core/session.cpp:477-482 | a close fails the waiting `initialize`, which makes the closed client uninitialized and lets it start again |
| Handshake.ClosedSessionCanOperate | src/core/session.cpp:511-513 | a close just before the client's last step is overwritten by Operating |
| SseChannels.SseChannel.Enqueue | src/transport/http/sse_channel.cpp:17-29 | appends under the next id and keeps the last `capacity` items; nothing once shut down |
| SseChannels.SseChannel.AttachStream | src/transport/http/sse_channel.cpp:31-51 | a new generation, with the cursor after the given id or at the watermark |
| SseChannels.SseChannel.TakePending | src/transport/http/sse_channel.cpp:74-96 | takes the ring's items from the cursor on, moves the cursor past them and the watermark up to it |
| SseChannels.SelectFrom | src/transport/http/sse_channel.cpp:85-89 | the loop selects exactly the items at or past the cursor, in order |
| SseChannelRuns.RingPreserved | src/transport/http/sse_channel.cpp:17-29 | every step keeps the ring the last min(n, capacity) entries of the log, with consecutive ids |
| SseChannelRuns.WatermarkSplitsIds | src/transport/http/sse_channel.cpp:74-96 | with fresh streams only, an id below the watermark was taken by one single stream or evicted, none above was taken, and ids are taken in increasing order over all streams |
| SseChannelRuns.WatermarkPassesOnlyEvicted | src/transport/http/sse_channel.cpp:90-96 | when the watermark passes an id, that id is taken if and only if it was still in the ring |
| SseChannelRuns.StreamSkipsOnlyEvicted | src/transport/http/sse_channel.cpp:43-50 | any stream, resumed or not, takes increasing ids from its start on with their own payloads, and lacks only ids that have left the ring |
| SseChannelRuns.TakeSkipsOnlyEvicted | src/transport/http/sse_channel.cpp:77-95 | one take delivers an id from the cursor on if and only if it is still in the ring |
| SseNewestStream.NewestStreamIsServed | src/transport/http/sse_channel.cpp:74-96 | while the channel runs, the newest stream's next take delivers an id from its cursor up to the newest one if and only if it is still in the ring; a single new item is enough |
| SseNewestStream.OthersAreNotServed | src/transport/http/sse_channel.cpp:78-84 | a stream that is not the newest, or any stream after the shutdown, is given nothing |
| SseNewestStream.GenerationTells | src/transport/http/sse_channel.cpp:38-41 | the generation is that of the channel for exactly the stream that was attached last |
| SseNewestStream.LogIsWhatWasEnqueued | src/transport/http/sse_channel.cpp:17-29 | the log is every payload enqueued before the shutdown |
| SseChannelRuns.ResumeStart | src/transport/http/sse_channel.cpp:43-50 | a stream resumed after k starts at k + 1 if and only if k is not 2^64 - 1, where it gets the whole ring |
| SseChannelRuns.RunInvariant | src/transport/http/sse_channel.cpp:17-51 | ring, window and order invariants hold in every reachable state, with and without resumed streams |
| SseChannelRuns.FreshRunInvariant | src/transport/http/sse_channel.cpp:74-96 | the watermark invariants hold in every state reached with fresh streams |
| ConditionVariables.ConditionVariable.NotifyAll | src/platform/vxworks/threading.cpp:73-83 | the whole waiter count moves into the semaphore |
| ConditionVariables.ConditionVariable.Reconcile | src/platform/vxworks/threading.cpp:98-110 | after a timeout the waiter count goes down, or a semaphore count is consumed if there is one |
| ConditionVariables.TicksCoverTheWait | src/platform/vxworks/threading.cpp:25-35 | a positive wait is covered if and only if its ticks fit an int or are cut to -1, which waits without end; ticks that fit round up by less than one |
| ConditionVariables.WaitIsAsAsked | src/platform/vxworks/threading.cpp:85-96 | a negative timeout waits without end, a timeout of 0 does not wait, any other waits the ticks needed as far as an int holds them |
| ConditionVariables.TicksCanWrap | src/platform/vxworks/threading.cpp:25-35 | 2^32 ms at 1000 ticks per second become no wait |
| ConditionVariables.ConservedStep | src/platform/vxworks/threading.cpp:73-113 | every step keeps announced threads equal to waiters plus semaphore count plus a count in a notifier's hands |
| ConditionVariables.WaitersConserved | src/platform/vxworks/threading.cpp:73-113 | in every reachable state outside a give the two counts add up to the announced threads |
| ConditionVariables.NoWaitTakeSucceeds | src/platform/vxworks/threading.cpp:98-110 | the take without waiting after a timeout never finds the semaphore empty |
| ConditionVariables.NoTokenLeft | src/platform/vxworks/threading.cpp:73-113 | once nobody waits no count is left for a later waiter |
| ConditionVariables.NotifyLeavesACountEach | src/platform/vxworks/threading.cpp:73-83 | when a notifier leaves there is a count for every thread still waiting |
| ConditionVariables.WakingRun | src/platform/vxworks/threading.cpp:96 | a blocked thread takes a count as soon as there is one and stays blocked without |
| ConditionVariables.TimingOutRun | src/platform/vxworks/threading.cpp:96-113 | a blocked thread may time out at any moment and leaves once the internal lock is free |
| ConditionVariables.AnnouncingRun | src/platform/vxworks/threading.cpp:90-92 | a thread announces its wait when the internal lock is free |
| ConditionVariables.OutOfTurn | src/platform/vxworks/threading.cpp:85-113 | only a timed-out thread reconciles, and nobody enters while the internal lock is held |
| ConditionVariables.NotifyingRun | src/platform/vxworks/threading.cpp:73-83 | a notifier moves every waiter's count and leaves the lock free |
| ConditionVariables.NotifierMovesEveryCount | src/platform/vxworks/threading.cpp:73-83 | the single steps of a notifier end where its method does: every waiter's count is in the semaphore |
| ConditionVariables.ReconcilingRun | src/platform/vxworks/threading.cpp:98-110 | a timed-out thread gives up its waiter count or takes a semaphore count, and is gone |
| ChunkedDecoding.ParseSizeLine | src/transport/http/http_codec.cpp:173-192 | the digit loop computes the size in 64-bit arithmetic, or refuses the line |
| ChunkedDecoding.HexDigitsInOrder | src/transport/http/http_codec.cpp:179-187 | the digits have the values of their places in 0-9a-f and 0-9A-F, and nothing else is a digit |
| ChunkedDecoding.SizeLineValue | src/transport/http/http_codec.cpp:173-192 | the size is the written hexadecimal number modulo 2^64 with any extension, unless whitespace precedes the semicolon |
| ChunkedDecoding.SizeWrapsAt64Bits | src/transport/http/http_codec.cpp:173-192 | 2^64 is read as 0 and taken for the last chunk |
| ChunkedDecoding.ChunkedDecoder.Feed | src/transport/http/http_codec.cpp:162-237 | terminates, and does what the decoding function does on the decoder's state and the buffer |
| ChunkedDecoding.DecodeResumes | src/transport/http/http_codec.cpp:162-237 | decoding a prefix and then the rest is decoding the whole, in any decoder state |
| ChunkedDecoding.SplitIndependent | src/transport/http/http_codec.cpp:162-237 | any split of the input gives the same status, output, state and remaining bytes |
| ChunkedDecoding.DecodeInvertsEncode | src/transport/http/http_codec.cpp:162-237 | any chunked body with sizes below 2^64, extensions and trailers decodes to its payload and leaves what follows, if and only if no extension starts with whitespace; otherwise it is an error |
| ChunkedDecoding.SpacedExtensionRefused | src/transport/http/http_codec.cpp:173-192 | a last chunk whose extension has a space before its semicolon is an error |
| ChunkedDecoding.MissingCrlfRefused | src/transport/http/http_codec.cpp:212-222 | chunk data not followed by a CRLF are an error |
| ChunkedDecoding.SizeLineRefusedIff | src/transport/http/http_codec.cpp:173-192 | a size line is refused if and only if a character before its first semicolon is no hexadecimal digit or there is none |
| ChunkedDecoding.BadSizeLineRefused | src/transport/http/http_codec.cpp:162-192 | a refused size line is an error of the decoding |
| ChunkedDecoding.ChunkedBodyInPieces | src/transport/http/http_codec.cpp:162-237 | the same when the body arrives in any pieces |
| SseCodec.AppendDataLines | src/transport/http/http_codec.cpp:249-260 | the position loop writes one data line per line of the payload |
| SseCodec.FormatSseEvent | src/transport/http/http_codec.cpp:239-262 | the text of one event, ending in a blank line |
| SseCodec.EventOnTheWire | src/transport/http/http_codec.cpp:239-262 | retry, event and id when present, then the data line and a blank line |
| SseCodec.SseParser.Feed | src/transport/http/http_codec.cpp:264-276 | takes every complete line of the buffered text and keeps the rest |
| SseCodec.SseParser.TakeLine | src/transport/http/http_codec.cpp:278-324 | one line's effect on the event being read, its dispatch at a blank line included |
| SseCodec.SplitIndependent | src/transport/http/http_codec.cpp:264-276 | the events and the parser's state do not depend on how the text is cut |
| SseCodec.DataDrains | src/transport/http/http_codec.cpp:249-260 | written data lines are read back as one payload |
| SseCodec.FieldLinesRead | src/transport/http/http_codec.cpp:292-304 | one space after the colon is not part of the value, a line without a colon has an empty value |
| SseCodec.FieldsKept | src/transport/http/http_codec.cpp:286-323 | what each field does; comments, unknown names and retries that are no number do nothing |
| SseCodec.RebuildIdentity | src/transport/http/http_codec.cpp:278-324 | a payload survives its data lines if and only if it does not begin with a newline and no line ends in CR |
| SseCodec.FormattedEventsDrain | src/transport/http/http_codec.cpp:239-324 | a written list of events is read back event by event, each in its normal form |
| SseCodec.EventsRoundTrip | src/transport/http/http_codec.cpp:239-324 | writing events and feeding the text in any pieces gives back exactly the list if and only if every event is clean |
| HttpHeads.SplitLines | src/transport/http/http_codec.cpp:59-72 | the lines of a head without their line ends |
| HttpHeads.ParseHeaders | src/transport/http/http_codec.cpp:111-122 | lower-cased, trimmed names to trimmed values; a line without a colon makes the head malformed |
| HttpHeads.ParseHead | src/transport/http/http_codec.cpp:42-124 | incomplete, malformed, or the head with the bytes it consumed |
| HttpHeads.IncompleteIff | src/transport/http/http_codec.cpp:42-57 | a head is incomplete if and only if it has no blank line of either kind |
| HttpHeads.HeadersRefusedIff | src/transport/http/http_codec.cpp:111-122 | headers are refused if and only if a line before the first empty one has no colon |
| HttpHeads.StatusLineRead | src/transport/http/http_codec.cpp:92-110 | a status line is read if and only if three bytes follow its first space and the number there is from 100 to 599, with the text after the next space as its reason |
| HttpHeads.RequestLineRead | src/transport/http/http_codec.cpp:80-91 | a request line is read if and only if HTTP/1 follows its second space |
| HttpHeads.AtoiReads | src/transport/http/http_codec.cpp:104-108 | white space, a sign and digits are read as a number up to the first other character |
| HttpHeads.TrimRemoves | src/transport/http/http_codec.cpp:18-29 | blanks in front and blanks and carriage returns behind are removed and nothing between |
| HttpHeads.LowerLetters | src/transport/http/http_codec.cpp:11-16 | capital letters become small ones and nothing else changes |
| HttpHeads.SerializeRequest | src/transport/http/http_codec.cpp:126-144 | start line, headers, a Content-Length when due, blank line, body |
| HttpHeads.SerializeResponse | src/transport/http/http_codec.cpp:146-160 | the same for a response, with no length when streaming |
| HttpHeads.HeadOnTheWire | src/transport/http/http_codec.cpp:126-160 | a start line, one line for each header and a blank line |
| HttpHeads.StartLinesOnTheWire | src/transport/http/http_codec.cpp:126-150 | start lines name HTTP/1.1 |
| HttpHeads.AppendedBytes | src/transport/http/http_codec.cpp:42-57 | later bytes leave a complete head's result alone if and only if it has a CRLF blank line or none turns up |
| HttpHeads.HeadReadBack | src/transport/http/http_codec.cpp:42-124 | a written head is read back whole whatever follows, and every shorter prefix is incomplete |
| HttpHeads.RequestRoundTrip | src/transport/http/http_codec.cpp:74-144 | method, target and headers come back, exactly the body is left |
| HttpHeads.ResponseRoundTrip | src/transport/http/http_codec.cpp:74-160 | status, reason and headers come back, exactly the body is left |
| HttpHeads.LastValueWins | src/transport/http/http_codec.cpp:111-122 | a header is found under its trimmed, lower-cased name with the trimmed last value sent for it |
| HttpHeads.NamesAreThoseSent | src/transport/http/http_codec.cpp:111-122 | the header map holds the names that were sent and no other |
| HttpHeads.BodyLengthAnnounced | src/transport/http/http_codec.cpp:126-160 | a response that is not streamed, and a request with a body or a POST without a length of its own, announce the number of bytes of the body to the reader of the head |
| HttpHeads.OneLengthOnly | src/transport/http/http_codec.cpp:126-144 | a request whose caller sets a length gets no second one, and one with a body or a POST has one |
| HttpHeads.BareHeadIsCutAgain | src/transport/http/http_codec.cpp:45-57 | a complete bare-line-feed head is answered differently once a CRLF blank line follows |
| ArgumentQuoting.AppendQuoted | src/platform/win32/process.cpp:18-44 | the backslash-counting walk appends the quoted form of the argument |
| ArgumentQuoting.LeftAsItIs | src/platform/win32/process.cpp:19-23 | an argument is left unquoted if and only if it is not empty and has no space, tab, newline, vertical tab or quote |
| ArgumentQuoting.CommandLine | src/platform/win32/process.cpp:107-112 | the command followed by every quoted argument after a space |
| ArgumentQuoting.EscapedParses | src/platform/win32/process.cpp:24-43 | inside quotes, the escaped text is read back as itself, pending backslashes included |
| ArgumentQuoting.QuotedParses | src/platform/win32/process.cpp:18-44 | one quoted argument is read back verbatim and reading goes on after it |
| ArgumentQuoting.ArgumentsRoundTrip | src/platform/win32/process.cpp:107-112 | Microsoft's rules read every argument back verbatim if and only if none contains a NUL, with either reading of doubled quotes |
| Messages.IdEchoed | include/mcp/types.hpp:21-33 | an id is echoed as written if and only if, being an integer, it fits 64 signed bits |
| Messages.MessageRoundTrip | src/jsonrpc/message.cpp:7-53 | a written message is read back if and only if params are structured, it has one of result and error, and error data is not null |
| Messages.WireForm | src/jsonrpc/message.cpp:7-36 | which fields each kind of message and an error have on the wire |
| Messages.CallTakenIff | src/jsonrpc/message.cpp:67-106 | a call is taken if and only if it has the version, a string method, fitting params and no id or a valid one; else it is refused with -32600 |
| Messages.ResponseTakenIff | src/jsonrpc/message.cpp:108-135 | a response is taken if and only if it has the version, one of result and error, a valid id and a readable error |
| Messages.ErrorCodeRead | include/mcp/error.hpp:179-185 | which values an error code is read from |
| Messages.FrameRefused | src/jsonrpc/message.cpp:138-150 | text that is not JSON is a parse error, an empty batch an invalid request |
| Messages.SingleTaken | src/jsonrpc/message.cpp:161-166 | a frame that is no array is taken as its one message is |
| Messages.BatchTaken | src/jsonrpc/message.cpp:144-158 | a non-empty batch is taken unless an item raises |
| Messages.BatchHasResultIff | src/jsonrpc/message.cpp:144-158 | a batch has a result if and only if none of its items raises |
| Messages.ParseRaisesIff | src/jsonrpc/message.cpp:125-134 | parsing raises an exception exactly for an error object with a code that is no number or boolean, or a message that is no string |
| Messages.WrongCodeRaises | src/jsonrpc/message.cpp:125-134 | an error code that is a string raises |
| Messages.ParseBatch | src/jsonrpc/message.cpp:144-158 | the loop collects messages and item errors as the batch function does |
| Messages.BatchOfSnoc | src/jsonrpc/message.cpp:150-157 | one more item extends exactly one of the two lists at its end |
| Messages.EveryItemIsSomewhere | src/jsonrpc/message.cpp:144-158 | each item of a batch is in its place in exactly one of the two lists, which hold nothing else |
| Router.MatchWildcard | src/core/router.cpp:13-25 | the longest matching prefix, the first of several, or none if none matches |
| Router.MatchesContinuations | src/core/router.cpp:18-19 | a prefix matches itself and its continuations and nothing else |
| Router.MostSpecificHandlerAnswers | src/core/router.cpp:55-62 | an exact handler wins over wildcards and a longer prefix over a shorter |
| Router.DispatchedConveys | src/core/router.cpp:111-139 | a request is answered under its id with its handler's value or error, -32603 when the handler crashes, and -32601 when nobody handles it |
| Router.HandlerOrNobody | src/core/router.cpp:55-62 | exact names and longest prefixes choose one handler, or there is none |
| PostPipeline.ReplyIsRight | src/core/session.cpp:174-204 | a request is answered with the gate's error, or with what its handler did to its params, or with -32601 |
| PostPipeline.PostCapture.TryCapture | src/transport/http/sse_channel.cpp:148-159 | only a response on a thread that is answering a POST is captured, at the end of that thread's list |
| PostPipeline.PostCapture.AnswerPost | src/transport/http_session_server.cpp:397-412 | a whole POST on one thread yields a right answer and leaves the other threads' captures alone |
| PostPipeline.MessageDelivered | src/core/session.cpp:174-204 | delivering one message adds exactly the right response of the session it met, or nothing |
| PostPipeline.StreamCarriesTheRest | src/transport/http/sse_channel.cpp:148-159 | the stream carries every message a thread sends of its own accord, in order, and no answer to a POST |
| PostPipeline.PostGoesThrough | src/transport/http_session_server.cpp:397-412 | from any state a free thread can take a POST and answer it, one step for each item error and message |
| PostPipeline.EveryPostAnswered | src/transport/http_session_server.cpp:397-412 | however POSTs interleave, a 200 body is one null-id error per rejected item then the right response per request in order with its id, and 202 is given exactly when there are neither |
| PostPipeline.SingleAnswered | src/transport/http_session_server.cpp:397-412 | a single message is answered with exactly its response, or accepted |
| PostPipeline.EveryRequestIsSomewhere | src/jsonrpc/message.cpp:144-158 | the requests of a batch are its request items, each in its place |
| PostPipeline.EveryBatchAnswered | src/transport/http_session_server.cpp:353-412 | from the JSON items of a batch to its answer: each item's null-id error or right response is in its place in the body, nothing else is, and 202 is given exactly when there are none |
| PostPipeline.EverySingleAnswered | src/transport/http_session_server.cpp:353-412 | a POST of one request is answered with its response, of any other message with 202 |
| SessionTable.SessionRegistry.Find | src/transport/http_session_server.cpp:124-132 | finding an entry touches it; nothing else changes |
| SessionTable.SessionRegistry.RemoveIdle | src/transport/http_session_server.cpp:145-161 | the erase-while-iterating loop removes and returns each idle entry once and no other |
| SessionTable.HttpSessionServer.HandleRequest | src/transport/http_session_server.cpp:275-413 | sweep, then create, serve, terminate or refuse, closing every session that was removed |
| SessionTable.HttpSessionServer.Stop | src/transport/http_session_server.cpp:255-273 | every session left is closed once |
| SessionTable.TableAlwaysExact | src/transport/http_session_server.cpp:275-413 | after any requests the table holds live sessions with the time of their latest touch, and every other created session has ended |
| SessionTable.LazySweepIsEagerExpiry | src/transport/http_session_server.cpp:117-172 | the swept table finds an id if and only if it was created, not terminated and never idle longer than the timeout |
| SessionTable.ServedIffAlive | src/transport/http_session_server.cpp:361-395 | a request naming a session is served if and only if that session is alive, else 404 |
| SessionTable.TerminatedIffAlive | src/transport/http_session_server.cpp:288-315 | a termination is answered 200 if and only if the session is alive, else 404, and leaves no session behind |
| SessionTable.OthersRefused | src/transport/http_session_server.cpp:288-360 | which refused requests get 400, 405, 406 and 500, and none of them touches a session |
| SessionTable.RequestKinds | src/transport/http_session_server.cpp:288-395 | which requests create, look up or terminate a session |
| SessionTable.EachRemovalClosesOnce | src/transport/http_session_server.cpp:255-315 | a session's closed callback has run once if it was created and is gone, else not at all; stop closes the rest once |
| HttpEndpoints.HttpEndpoint.Register | src/transport/http/http_endpoint.cpp:96-105 | the accepted descriptor is listed, or closed when the endpoint is stopping |
| HttpEndpoints.HttpEndpoint.Leave | src/transport/http/http_endpoint.cpp:219-229 | the handler's end removes its descriptor from the list and closes it, if it is listed |
| HttpEndpoints.HttpEndpoint.Sweep | src/transport/http/http_endpoint.cpp:77-83 | whatever is listed is closed and the list emptied |
| HttpEndpoints.InvariantStep | src/transport/http/http_endpoint.cpp:53-107 | every step of acceptor, handlers and stop keeps each socket open under one descriptor or closed once |
| HttpEndpoints.MisuseIsNoticed | src/transport/http/http_endpoint.cpp:53-84 | every close, shutdown or other call on a descriptor that is not open or not the one meant goes on record |
| HttpEndpoints.AcceptedIsServed | src/transport/http/http_endpoint.cpp:86-107 | while the endpoint runs an accepted connection gets a handler of its own and the loop goes on |
| HttpEndpoints.AcceptedTooLate | src/transport/http/http_endpoint.cpp:99-103 | after a stop was called an accepted connection is closed, gets no handler, and the loop ends |
| HttpEndpoints.HandlerLeaves | src/transport/http/http_endpoint.cpp:219-229 | a handler that comes to its end has closed its connection, whatever else goes on |
| HttpEndpoints.StopIsCalledOnce | src/transport/http/http_endpoint.cpp:53-56 | the first stop proceeds, any later one does nothing |
| HttpEndpoints.StopWakesWhomItAwaits | src/transport/http/http_endpoint.cpp:57-77 | when stop waits for the accept loop the listening socket has been shut down, and when it waits for the handlers so has the connection of each that is still there |
| HttpEndpoints.FreshEndpointAccepts | src/transport/http/http_endpoint.cpp:29-51 | a started endpoint accepts its first connection |
| HttpEndpoints.EachClosedAtMostOnce | src/transport/http/http_endpoint.cpp:86-107 | no socket is closed twice, no call hits a closed or reused descriptor, a live handler's descriptor is its own connection |
| HttpEndpoints.StoppedClosedEverything | src/transport/http/http_endpoint.cpp:53-84 | when stop returns every accepted descriptor and the listening one was closed exactly once |
| HttpEndpoints.SweepFindsNothing | src/transport/http/http_endpoint.cpp:77-83 | the handlers close everything themselves; the final sweep is never needed |
| HttpEndpoints.StopIsBounded | src/transport/http/http_endpoint.cpp:53-84 | once stop is called only a bounded number of steps remain, in whatever order |
| HttpEndpoints.StopIsNeverStuck | src/transport/http/http_endpoint.cpp:53-84 | until stop returns some step can be taken |
| UriTemplate.Tokenize | src/server/uri_template.cpp:14-38 | the position loop yields the segments, or none for an unterminated or empty variable |
| UriTemplate.TokenizedRoundTrip | src/server/uri_template.cpp:14-38 | tokenizing succeeds if and only if every brace closes around a name, and the segments write the template out again |
| UriTemplate.MatchSegments | src/server/uri_template.cpp:42-87 | the position loop never passes its end and does what the matching function does |
| UriTemplate.MatchesIffDecomposes | src/server/uri_template.cpp:42-87 | a template matches if and only if the leftmost decomposition exists, and binds exactly its values |
| UriTemplate.SubstitutionRestores | src/server/uri_template.cpp:42-87 | with distinct names the captured, non-empty values put back give the text |
| UriTemplate.MatchThenSubstitute | src/server/uri_template.cpp:14-87 | the same from template and URI |
| UriTemplate.RestoresIff | src/server/uri_template.cpp:42-87 | a template restores every URI it matches if and only if its names are distinct or two of its variables are adjacent |
| UriTemplate.RepeatedNameLosesText | src/server/uri_template.cpp:62-83 | any matching template with a repeated name matches a text that its captured values do not give back |
| UriTemplate.AdjacentNeverMatch | src/server/uri_template.cpp:62-68 | a template with two adjacent variables matches nothing |
| Pagination.Paginate | include/mcp/detail/pagination.hpp:23-53 | the loops compute the page, the rejection or the wrapped sum in 64-bit arithmetic |
| Pagination.RejectedIff | include/mcp/detail/pagination.hpp:27-43 | a cursor is rejected if and only if it is empty, not all digits, or denotes a number past the end |
| Pagination.UndefinedIff | include/mcp/detail/pagination.hpp:46-48 | the page is undefined if and only if start plus page size wraps |
| Pagination.FollowingVisitsAll | include/mcp/detail/pagination.hpp:23-53 | following the cursors visits every item once in order in exactly ceil(n / page size) pages, one for an empty list |
| Pagination.PageSizeZeroLoops | include/mcp/detail/pagination.hpp:46-51 | with page size 0 every page of a non-empty list is empty and its cursor leads back to itself |
| Pagination.FinishesIff | include/mcp/detail/pagination.hpp:23-53 | following the cursors ends if and only if the page size is not 0 or the list is empty |
| Schema.CompareValues | src/core/schema.cpp:50-61 | the library's comparison at any depth: numbers across kinds by value, signed and unsigned integers after the cast |
| Schema.MatchesItsNames | src/core/schema.cpp:9-18 | a value matches exactly the type names it goes by, and every unknown name |
| Schema.OnlyFalseForbidsExtras | src/core/schema.cpp:89-98 | only additionalProperties: false forbids undeclared properties; any other value changes nothing |
| Schema.ItemsApply | src/core/schema.cpp:100-113 | items constrains every element when it is an object and means nothing otherwise |
| Schema.PropertiesApply | src/core/schema.cpp:77-87 | properties constrains each declared property when it is an object and means nothing otherwise |
| Schema.IntegerAllowedIff | src/core/schema.cpp:50-61 | an integer satisfies an enumeration if and only if a candidate has its value or is the integer 2^64 away from it |
| Schema.MinusOneAllowsItsTwin | src/core/schema.cpp:50-61 | the enumeration of -1 accepts 2^64 - 1 |
| JsonValues.IntegersCompared | third_party/nlohmann/json.hpp:22938-22945 | two 64-bit integers compare equal if and only if their values are equal or 2^64 apart |
| JsonValues.NumbersCompared | third_party/nlohmann/json.hpp:22920-22937 | a floating-point number equals numbers of its value, and no number equals anything else |
| JsonValues.SameIsEqual | third_party/nlohmann/json.hpp:22888-22920 | values without numbers compare equal if and only if they are the same |
| Schema.ValidateProperties | src/core/schema.cpp:77-98 | no error if and only if every property is allowed and satisfies its schema, in any order |
| Schema.ValidateAt | src/core/schema.cpp:25-116 | no error if and only if the value satisfies the order-free predicate; an error's path leads to a value that breaks a keyword |
| Schema.ValidateSchema | src/core/schema.cpp:120-122 | the same from the root |
| Schema.SatisfiesIffNoOffender | src/core/schema.cpp:25-116 | a value satisfies a schema if and only if no path leads to a value that breaks a keyword there |
| Evaluation.Evaluator.Evaluate | examples/calculator_server.cpp:18-27 | terminates, and gives the value or the error of the evaluating function on the whole text |
| Evaluation.Evaluator.Expression | examples/calculator_server.cpp:29-41 | sums, left to right, from the current position |
| Evaluation.Evaluator.Term | examples/calculator_server.cpp:43-59 | products, left to right, division by zero refused |
| Evaluation.Evaluator.Factor | examples/calculator_server.cpp:61-75 | unary minus, parentheses or a number |
| EvaluatorSyntax.RenderingEvaluates | examples/calculator_server.cpp:18-104 | any rendering of a tree, with any spaces and parentheses, gives exactly the tree's value or its first failing operation's error |
| EvaluatorSyntax.TrailingTextRefused | examples/calculator_server.cpp:18-27 | a rendering followed by something that cannot continue it is an unexpected character |
| EvaluatorSyntax.AcceptsExactlyRenderings | examples/calculator_server.cpp:18-104 | a text gives a value if and only if it renders a tree with that value |
| EvaluatorSyntax.EveryTreeRenders | examples/calculator_server.cpp:18-104 | every tree has a rendering |
| Evaluation.NumberChars | examples/calculator_server.cpp:77-90 | a literal is written with digits and points |
| Evaluation.OperandMissed | examples/calculator_server.cpp:61-90 | where no operand begins a number is missed, and a refused literal is a bad number |
| Evaluation.GroupNotClosed | examples/calculator_server.cpp:61-70 | a group that is not closed is refused |
| CpuSampling.Sampler.SwitchHook | examples/vxworks_monitor/monitor_backend_vxworks.cpp:127-145 | the ticks since the last switch are charged to the old task's slot, to a new slot, or dropped when the table is full |
| CpuSampling.Sampler.Report | examples/vxworks_monitor/monitor_backend_vxworks.cpp:246-283 | total, attributed and unattributed ticks in 64-bit arithmetic |
| CpuSampling.SamplingIsExact | examples/vxworks_monitor/monitor_backend_vxworks.cpp:127-145 | over any switches with a clock that does not go back: one slot a task with exactly its ticks, and slots plus dropped ticks are the time up to the last switch |
| CpuSampling.TaskTicks | examples/vxworks_monitor/monitor_backend_vxworks.cpp:127-145 | a task's slot holds exactly its running time; one that ran has no slot only when the table is full |
| CpuSampling.ReportAddsUp | examples/vxworks_monitor/monitor_backend_vxworks.cpp:246-283 | the unattributed ticks are the dropped ones plus those since the last switch, and are never cut at zero |

## Left out

- Sockets, pipes, processes and poll: reads are arbitrary pieces of bytes, writes and their failures do not appear.
- Scheduling, fairness and wall-clock values: runs are arbitrary interleavings, clocks are parameters that do not go back.
- JSON text: parsing and dumping belong to the JSON library; the model starts from JSON values.
- End-to-end delivery of SSE events across dropped connections: results are about items taken from the ring, not bytes received.
- Requests sent after a close without a timeout, and requests left when a session is destroyed: only at-most-once holds there.
- Which waiting thread a notification wakes: a later arrival may take a count, so only conservation is proved.
- ConditionVariables.NoWaitTakeSucceeds: semaphore timeouts may fall at any moment, a superset of the real clock.
- ConditionVariables.TicksCoverTheWait: does not model overflow of the 64-bit product of milliseconds and tick rate.
- Sessions created while `stop` runs, and concurrent requests on the session table: requests are handled one after the other.
- Random session ids: assumed fresh and not empty. Origin and authorization checks, logging and error texts do not appear.
- Callbacks and handlers: arbitrary results; what they call back into the session appears as further steps of a run.
- CorrelationRuns.OneDisposition: does not model the set of cancelled incoming requests or the destructor's stop of the timer.
- Handshake.OperatingServerAgreed: does not model re-initialization, the capability gate, or malformed initialize params, which a `ClientSession` never sends.
- Handshake.ClosedClientStaysClosed: takes the initialize timeout to be positive; without one a client that has registered its request after a close waits for ever instead of failing.
- Handshake.ClientCloseIsFinal: takes the initialize timeout to be positive, for the same reason.
- Handshake.ClientComesBack: takes the initialize timeout to be positive, for the same reason.
- Request ids, event ids and stream generations are unbounded; their wrap at 2^63 and 2^64 is not modelled, except for a resumed id.
- SseChannels.SseChannel.AttachStream: takes the number read from Last-Event-ID as a parameter.
- SseCodec.EventsRoundTrip: does not model `atoi` of a retry or `atoi` of a status beyond the range of int, which C leaves undefined.
- Schema.CompareValues: does not model integers outside the 64-bit ranges, which are read as floating-point numbers, or rounding when a large integer is compared with a floating-point number.
- Evaluation.Evaluator.Evaluate: is parametric in its number operations, so floating-point rounding and the reading of literals do not appear.
- HttpEndpoints.StopIsNeverStuck: takes a serving handler to come to its end; that its connection has been shut down by then is proved, what the handler does in between is not modelled.
- HttpEndpoints.StoppedClosedEverything: does not model a second `start`, or a failure to create a thread.
- CpuSampling.Sampler.Report: leaves out task names, percentages and the final sort of the report.
- ArgumentQuoting.CommandLine: does not promise that the command itself is read back; it is parsed by different rules.
- Content blocks (`src/core/content.cpp`), the sampling loop (`src/client/sampling.cpp`) and the registries: they would only add easy members.
