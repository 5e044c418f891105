# universal-agent: a model of the event log, its readers, and profile configuration

This project models, in Dafny 4.11, the parts of universal-agent whose correctness
depends on several pieces of code agreeing with each other, and proves how they fit.

**Events.** `EventLog` is the append-only, id-deduplicated log of `InMemoryEventSink`
and the cursor filter `filter_events`. `EventReaders` is a small-step system: any number
of consumers that watch, poll, page, disconnect and reconnect, interleaved with emits at
every suspension point. Its invariant is relative to the last read of the log, because
`subscriber.clear()` also discards a wake-up that arrived during a hand-over or a
heartbeat; `LostWakeUp` is such a run, and `SleepingWatcherBacklog` says exactly what a
sleeping watcher has missed. `EventGenerators` has the two generators as objects, each
resumption proved to be one step of that system. Downstream of it are the browser's
bounded deduplication (`BrowserStream`), what a page receives over several connections,
heartbeats included (`BrowserReconnects`, `BrowserPages`, `BrowserIdle`), the chat transcript
(`Transcript`), and the client's server-sent-events decoder: from the server's text
(`SseFrames`) to objects (`SseDecoder`), compared with section 9.2.6 of the WHATWG HTML
Standard. `ClientCursors` has the two clients whose cursors agentd does not read.

**Profiles.** `Configuration` says how the runtime section of a profile is read and when
it is valid (`ConfigurationDocuments` writes it back), `ProfileValidity` the same for a
whole profile, and `DocumentRules` states both on the document itself. `ProfileInit` builds the document of `agent init`; `ProfileDomains` merges a
domain into one in place, on heap objects whose two domain lists may or may not be the same
object. `InitReadBack` says what init's arguments become, field by field; `InitValidity`,
`MergeProperties`, `MergeValidity` and `InitAndMerge` connect the rest.

**Smaller machines.** `ChatQueue` (the send queue), `TenantPaging` (filtered paging with a
rewritten cursor), `MarkerInsertion` (reverse-order line insertion) and `RouteMatching`
(first-match templates). `Prelude`, `Text` and `Lines` hold what they share.

Where the code falls short of what its comments promise, the model follows the code,
and the exact condition is proved, with an input at which it fails:

- The comment at web/src/api.js:230-233 promises that deduplication by event id keeps a
  reconnect from replaying. The stream's address carries no cursor, so every connection
  replays from the start, and heartbeats are frames with ids of their own. The page hides
  its reconnects if and only if every connection that repeats something starts when at most
  500 ids, heartbeats included, have been delivered since the first event
  (`BrowserPages.ReconnectsAreHiddenIff`). For every size of the set there is a run with one
  event, as many heartbeats and one reconnect that shows the event twice
  (`BrowserIdle.IdleSessionShowsEventTwice`).
- That is for a handler that is called for whatever kinds of frames one likes. The code sets
  `onmessage`, and every frame the server streams names its event type: by the standard
  `onmessage` receives something if and only if some event's type is `message` or empty
  (`BrowserPages.OnMessageReceivesNothingIff`).
- `_merge_domain` skips a new secret named like a top-level profile key, so init with
  secondary domains and init followed by merges mean the same if and only if there is no
  such secret (`InitAndMerge.InitWithDomainsIsInitThenMerges`, `InitAndMerge.SameProfileIff`);
  a domain `x` with a secret called `name` makes the difference
  (`InitAndMerge.ClashingSecretMakesADifference`). Into a profile without a runtime section
  it puts no secret at all: the profile stays valid and every secret of the new domain is
  lost (`MergeProperties.SecretsDeclaredIff`, `MergeValidity.SmallestDroppedSecret`).
- Merging into a valid profile gives a valid profile if and only if `MergeSafe` holds: the
  new domain and its secrets are well formed, its `name@version` key is new, and with a
  runtime section either both lists start with something or neither does
  (`MergeValidity.MergeKeepsValidityIff`). A profile with domain `local` at version 1 and
  `"runtime": {}` is valid, and no merge into it is (`MergeValidity.SmallestSpoiledProfile`,
  `MergeValidity.MergeSpoilsBareRuntime`). With `"domains": []` beside a primary domain in
  both places the merge is valid but loses that primary (`MergeValidity.EmptyListLosesPrimary`).
  With both lists one object, as init holds them in memory, the result is never valid;
  reading the file back separates them.
- `init` itself does not look at timeouts, retention, response formats (its command-line
  parser admits three, src/universal_agent_cli/parser/golden_path.py:150-152), model names,
  paths, versions or the profile's name; its output is valid if and only if those are well
  formed (`InitValidity.InitOutputAcceptedIff`, `InitValidity.InitProfileAcceptedIff`). A
  timeout of 0 passes init and is refused afterwards (`InitValidity.ZeroTimeoutIsRefusedLater`).
- A client that takes an empty page of sessions for the end is right if and only if no run
  of hidden sessions before a visible one is a page long (`TenantPaging.EmptyPageIsTheEndIff`).
- The transcript of a split event list is the two transcripts put together if and only if no
  agent turn runs across the split (`Transcript.TranscriptComposesIff`).
- The client strips all white space after `data:` and ignores a bare `data` line. On any
  stream of lines it delivers exactly the events of the standard if and only if no line of
  an ended frame is affected by that (`SseDecoder.DecoderMeetsStandardIff`); two such streams
  are `SseDecoder.BareDataIsMissed` and `SseDecoder.SecondSpaceIsStripped`.
- The server's JSON leaves U+0085, U+2028 and U+2029 as they are
  (src/universal_agent/core/json_codec.py:17-32), and `str.splitlines` ends a line at each.
  Whatever characters end a line besides the line feed, the streamed events come back
  exactly if and only if none is in any event's JSON (`SseFrames.StreamComesBackIff`); one
  U+2028 loses an event (`SseFrames.LineSeparatorLosesEvent`).
- agentd reads the cursor from the query parameter `after`. `AgentdClient.stream_events`
  sends `after_event_id`, so a client that resumes after an event is served from the start
  (`ClientCursors.ClientResumesIff`) and gets something again on every connection once an
  earlier one delivered anything (`ClientCursors.ResumedStreamRepeatsIff`). `loadActivity`
  sends `cursor`, so it counts the first page five times; it is right if and only if there is
  nothing to count (`ClientCursors.ActivityIsRightIff`).
- The comment at web/src/store.js:429-432 promises that the input box is refilled after a
  network failure. It holds the text of the last lost delivery and nothing else: an earlier
  lost text and a draft typed meanwhile are overwritten (`ChatQueue.SurvivingText`,
  `ChatQueue.OnlyLastLostSurvives`).
- `process_file` indexes the lines of `str.splitlines` with line numbers that count line
  feeds. A marker lands before the line on which its own function begins if and only if
  nothing else ends a line before it (`MarkerInsertion.MarkerLandsAtItsFunctionIff`); a form
  feed does (`MarkerInsertion.FormFeedMisplacesMarker`).

## Model

| member | source | states |
|---|---|---|
| `EventLog.LogIsFirstOccurrences` | src/universal_agent/eventstream.py:46-55 | after any history of emits, replays included, the log is the first-occurrence deduplication of the history, which is defined independently from the front |
| `EventLog.StoreAllDistinct` | src/universal_agent/eventstream.py:51-55 | no id is ever stored twice |
| `EventLog.StoreAllIds` | src/universal_agent/eventstream.py:51-55 | an id is in the log if and only if it was emitted |
| `EventLog.ReplayIsNoOp` | src/universal_agent/eventstream.py:51-55 | re-emitting any part of the past, in any order and number, changes nothing |
| `EventLog.FilterEvents` | src/universal_agent/eventstream.py:127-161 | the one-pass loop with its cursor flags and early break is "project to the session, drop through the cursor, take limit", errors included, and returns events of that session only |
| `EventLog.ReadHolds` | src/universal_agent/eventstream.py:143-155 | without cursor and limit a read holds exactly the events whose session id is the one asked for, or all when none is, in order |
| `EventLog.ReadAfter` | src/universal_agent/eventstream.py:149-155 | with a cursor, exactly what is behind the first event of that id |
| `EventLog.ReadLimited` | src/universal_agent/eventstream.py:156-157 | with a limit, the first that many |
| `EventLog.ReadRaises` | src/universal_agent/eventstream.py:140-160 | a read raises if and only if the limit is below one or no event of the session has the cursor's id, and which error |
| `EventLog.DropThroughByPosition` | src/universal_agent/eventstream.py:149-154 | dropping through a cursor gives the suffix behind its first occurrence, and fails exactly when it does not occur |
| `EventLog.StopIsEnough` | src/universal_agent/eventstream.py:155-157 | what is selected when the limit is reached is a prefix of the full selection, so the break loses nothing |
| `EventLog.VisibleGrows` | src/universal_agent/eventstream.py:51-55 | while the log only grows, a valid cursor stays valid and its view only gains the new events of its session |
| `EventLog.ResumeContinues` | src/universal_agent/eventstream.py:114-124 | a read from the last id seen returns exactly what is left |
| `EventLog.InMemoryEventSink.Append` | src/universal_agent/eventstream.py:51-55 | the log stays duplicate-free, `_event_ids` stays exactly its id set, and the new log is the specification's |
| `EventLog.InMemoryEventSink.Emit` | src/universal_agent/eventstream.py:46-49 | stores the event and sets every subscriber's flag, even for a replayed event |
| `EventLog.InMemoryEventSink.ListEvents` | src/universal_agent/eventstream.py:63-75 | `list_events` (and `_filter_existing`) returns events of the log and the session only, none of type `SessionStateCommitted`, filtered as specified |
| `EventLog.VisibleHolds` | src/universal_agent/eventstream.py:71 | no read of a session, after whatever cursor, holds a `SessionStateCommitted` event or one of another session |
| `EventLog.VisibleFromStart` | src/universal_agent/eventstream.py:70-75 | a read from the start holds exactly the log's other events of the session, in log order |
| `EventReaders.RunKeepsInv` | src/universal_agent/eventstream.py:77-124 | the reader invariant holds in every interleaving of emits with any number of watchers, pollers and page readers |
| `EventReaders.RunLog` | src/universal_agent/eventstream.py:46-55 | the log of a run is the deduplication of what it emitted, whatever the readers did |
| `EventReaders.DeliveryIsExact` | src/universal_agent/eventstream.py:77-124 | what a reader has yielded plus its unyielded batch is the visible log as of its last read: in order, no gap, no duplicate; its backlog is exactly what was stored since |
| `EventReaders.ResumedReadsArePrefix` | src/universal_agent/eventstream.py:63-112 | any chain of resumed reads (pages, watchers, pollers) on a growing log concatenates to a prefix of the visible log |
| `EventReaders.ReadersAgree` | src/universal_agent/eventstream.py:164-193 | a poller and a watcher with the same session and start cursor deliver prefixes of one sequence |
| `EventReaders.NoCursorErrorAfterFirstFetch` | src/universal_agent/eventstream.py:85-124 | once a read has succeeded no later read of that consumer raises the cursor error |
| `EventReaders.PollerHeartbeatMeansCaughtUp` | src/universal_agent/eventstream.py:179-193 | at a poller's heartbeat everything visible at the read just before it has been delivered |
| `EventReaders.HeartbeatIff` | src/universal_agent/eventstream.py:98-105 | in every run a step leaves a reader at a heartbeat if and only if it slept and its second read returned nothing, or it is a waiting watcher that timed out |
| `EventReaders.SleepIff` | src/universal_agent/eventstream.py:180-186 | a step puts a reader to sleep if and only if it is a poller whose read at the loop head returned nothing |
| `EventReaders.IdlePollerCycle` | src/universal_agent/eventstream.py:179-193 | in every run, from a heartbeat on and while nothing is delivered, a poller sleeps once and reads twice for every further heartbeat |
| `EventReaders.BetweenHeartbeats` | src/universal_agent/eventstream.py:179-193 | so between two heartbeats without a delivery there is exactly one sleep and there are exactly two reads |
| `EventReaders.SleepingWatcherBacklog` | src/universal_agent/eventstream.py:96-107 | a watcher asleep with its flag clear has missed exactly what was stored between its last read and its `clear()`, and is up to date if and only if nothing in its scope was |
| `EventReaders.HeartbeatsDeliverNothing` | src/universal_agent/eventstream.py:96-105 | such a watcher delivers nothing through any number of heartbeats |
| `EventReaders.NextEmitCatchesUp` | src/universal_agent/eventstream.py:96-110 | the next emit, of any event at all, brings a waiting watcher up to date in one wake-up |
| `EventReaders.LostWakeUp` | src/universal_agent/eventstream.py:90-107 | a concrete run in which `clear()` discards a wake-up and the watcher sleeps on an undelivered event |
| `EventReaders.PagesAreChunks` | src/universal_agent/eventstream.py:63-75 | the pages of size k read after each other are the visible log cut into stretches of k |
| `EventReaders.PagingIsComplete` | src/universal_agent/eventstream.py:63-75 | without growth, paging by k reaches all n visible events after ceil(n/k) non-empty pages |
| `EventReaders.ChunksComplete` | src/universal_agent/eventstream.py:155-157 | stretches of k put together give everything back, and there are ceil(n/k) of them |
| `EventGenerators.EventWatch.constructor` | src/universal_agent/eventstream.py:77-85 | a new watcher is the protocol's freshly opened reader |
| `EventGenerators.EventWatch.ReadOn` | src/universal_agent/eventstream.py:107-112 | reading on is the protocol's fetch; a cursor error unregisters the flag, nothing else does |
| `EventGenerators.EventWatch.Next` | src/universal_agent/eventstream.py:83-112 | resuming the generator is one `Proceed` step, with the flag registered exactly while suspended |
| `EventGenerators.EventWatch.TimeOut` | src/universal_agent/eventstream.py:98-105 | a timeout is the `Timeout` step |
| `EventGenerators.EventWatch.Finish` | src/universal_agent/eventstream.py:111-112 | ending the generator is the `Close` step and removes its flag, once |
| `EventGenerators.EventWatch.ObserveEmit` | src/universal_agent/eventstream.py:46-49 | an emit is the protocol's `Woken` step for every registered watcher |
| `EventGenerators.EventPoll.Next` | src/universal_agent/eventstream.py:178-193 | resuming the poller is one `Proceed` step; a heartbeat only follows a sleep, and a sleep only a read at the loop head |
| `EventGenerators.EventPoll.Read` | src/universal_agent/eventstream.py:180-193 | its first and second read differ only in what an empty answer leads to: sleep, or heartbeat, and an empty answer delivers nothing |
| `BrowserStream.RepeatsAreFarApart` | web/src/api.js:245-251 | two deliveries of one id are more than 500 deliveries apart (for any size of the set) |
| `BrowserStream.WindowHasNoRepeats` | web/src/api.js:245-251 | the remembered ids are pairwise distinct |
| `BrowserStream.UnboundedIsDedup` | web/src/api.js:230-233 | the reference deduplication keeps exactly the ids of the stream, each once |
| `BrowserStream.BoundedIsDedupIff` | web/src/api.js:235-251 | the bounded set behaves like an unbounded one if and only if every replayed id is among the last 500 distinct ids before it |
| `BrowserStream.OutputsCompared` | web/src/api.js:245-251 | the bounded output shows the same ids, and is strictly longer as soon as it differs |
| `BrowserReconnects.FullReplayRepeatsAll` | web/src/api.js:235-251 | when more ids than the set holds are delivered and all replayed, every one is delivered a second time |
| `BrowserReconnects.ConnectionArrives` | web/src/api.js:235-251 | a connection that repeats known ids, the oldest of them `age` deliveries ago, and then brings new ones repeats nothing visibly if and only if the set reaches back that far |
| `BrowserReconnects.DivergencePersists` | web/src/api.js:245-251 | no later message undoes a repetition |
| `BrowserReconnects.ConnectionStep` | web/src/api.js:234-251 | one more connection of a page, heartbeats among its frames: when it repeats nothing, and what has been delivered then |
| `BrowserReconnects.ReconnectIsInvisibleIff` | web/src/api.js:230-251 | without heartbeats: m events, a reconnect, n events of a log that may have grown show each event once if and only if m fits into the set or nothing is replayed |
| `BrowserIdle.IdleSessionShowsEventTwice` | src/universal_agent/eventstream.py:96-105 | for every size of the set, a run of the event system with one event, as many heartbeats as the set holds ids and one reconnect, in which the page shows the event twice |
| `BrowserIdle.IdleRun` | src/universal_agent/eventstream.py:83-105 | what a watcher waiting through k heartbeats has been sent |
| `BrowserPages.SentSince` | src/universal_agent/agentd/representations.py:172-183 | in every run a connection is sent its events in order among heartbeats with ids of their own, and everything known when it started before any heartbeat |
| `BrowserPages.PageDelivered` | web/src/api.js:234-251 | over all connections of a page in any run, deduplication without forgetting delivers a prefix of the session's events, each once and in order |
| `BrowserPages.ReconnectsAreHiddenIff` | web/src/api.js:230-251 | in every run, for any number of connections, any growth and any handled kinds of frames, the page hides its reconnects if and only if each repeating connection starts at most 500 delivered ids after the first event |
| `BrowserPages.PageShowsOnceIff` | web/src/api.js:241-259 | the same of the messages the page shows |
| `BrowserPages.DedupOfNamed` | web/src/api.js:248-251 | deduplication does not depend on what the ids look like |
| `BrowserPages.OnMessageReceivesNothingIff` | web/src/api.js:241 | `onmessage` receives nothing over all connections if and only if no event they saw has type `message` or none |
| `BrowserStream.ShownKeys` | web/src/api.js:241-258 | the ids of the delivered events are the bounded deduplication of the ids received; unparsable messages are skipped |
| `BrowserStream.LiveTail.OnMessage` | web/src/api.js:241-259 | a message is delivered if and only if it parses and its id is not in the set; then the id is added to the last 500 and the event to the last 50, and otherwise nothing changes |
| `BrowserStream.KeyIs` | web/src/api.js:248 | the id is the event's, or its type and time when it has none |
| `BrowserStream.PushBoundedIsLastN` | web/src/store.js:182-183 | push, then shift when over the limit, keeps the last elements |
| `Transcript.SessionTranscript` | web/src/api.js:407-479 | the loop with its turn buffer and flushes is the grouping of the events' effects, which has no buffer |
| `Transcript.GroupingKeepsTexts` | web/src/api.js:410-477 | user texts are the continuations in order, agent text concatenates to the fragments in order |
| `Transcript.TranscriptKeepsTexts` | web/src/api.js:407-479 | the whole transcript loses, repeats and reorders nothing, with the first message in front |
| `Transcript.TranscriptByTypes` | web/src/api.js:419-475 | which event types speak for the user and which for the agent, named one by one |
| `Transcript.StandsAlone` | web/src/api.js:420-452 | a continuation or a request for confirmation is a message by itself, whatever is around it |
| `Transcript.TurnSharesMessage` | web/src/api.js:424-472 | two events of a turn, one after the other, share a message |
| `Transcript.TranscriptComposesIff` | web/src/api.js:410-477 | transcript(a ++ b) is transcript(a) ++ transcript(b) if and only if no turn runs across the cut |
| `Transcript.TranscriptComposesAtFlush` | web/src/api.js:411-423 | it always is when b starts at a flushing event |
| `Transcript.CleanCut` | web/src/api.js:411-416 | a cut outside a turn keeps both sides whole |
| `Transcript.CutThroughTurn` | web/src/api.js:411-416 | a cut through a turn welds exactly one agent message together |
| `SseDecoder.StreamEvents` | src/universal_agent_api/client.py:202-215 | the line loop yields the object payloads of the frames, skipping malformed and non-object ones |
| `SseDecoder.KeptAre` | src/universal_agent_api/client.py:210-215 | the payloads that come out are exactly those that parse to an object, in order |
| `SseDecoder.ObjectsOfKept` | src/universal_agent_api/client.py:210-215 | and what comes out is their objects, one for one |
| `SseDecoder.PayloadsCompose` | src/universal_agent_api/client.py:202-209 | behind a blank line the decoder starts afresh |
| `SseDecoder.DecodingComposes` | src/universal_agent_api/client.py:202-215 | decoding is compositional at blank lines |
| `SseDecoder.UnterminatedFrameDiscarded` | src/universal_agent_api/client.py:203-209 | a final frame without its blank line is discarded |
| `SseDecoder.DecoderInvertsFraming` | src/universal_agent_api/client.py:203-209 | decoding gives back the payloads of any framing into padded `data:` lines with id, event and comment lines in between |
| `SseDecoder.ObjectsComeBack` | src/universal_agent_api/client.py:207-215 | objects framed one per frame, in any such framing into lines, come back exactly and in order |
| `SseDecoder.DecoderMeetsStandardIff` | src/universal_agent_api/client.py:202-209 | on any stream of lines the decoder delivers exactly the data of the events the standard dispatches if and only if every line of every ended frame is read alike |
| `SseDecoder.BareDataIsMissed` | src/universal_agent_api/client.py:204-207 | a bare `data` line: an empty event by the standard, nothing for the decoder |
| `SseDecoder.SecondSpaceIsStripped` | src/universal_agent_api/client.py:204-205 | two spaces behind `data:`: the standard keeps the second |
| `SseDecoder.OpenAgreesIff` | src/universal_agent_api/client.py:204-206 | the open frame holds the same values for both if and only if its lines are read alike |
| `SseDecoder.BufferIsTerminated` | src/universal_agent_api/client.py:205-208 | the standard's text buffer is its list of values, each followed by a line feed |
| `SseFrames.StreamComesBackIff` | src/universal_agent/agentd/representations.py:172-183 | the text the server streams, cut into lines and decoded, gives every event's JSON back in order if and only if none of them is broken by a line end |
| `SseFrames.LineSeparatorLosesEvent` | src/universal_agent/agentd/representations.py:172-183 | an event whose JSON holds U+2028, read with `str.splitlines`, does not come back |
| `SseFrames.StreamedObjectsComeBack` | src/universal_agent/agentd/representations.py:172-183 | then the objects come back exactly and in order |
| `SseFrames.DeliveredCharacters` | src/universal_agent_api/client.py:203-209 | no line end other than a line feed is ever in a delivered payload |
| `RouteMatching.MatchDomainRoute` | src/universal_agent/host_contracts.py:73-94 | the first definition in order whose template matches, with whether it allows the method; nothing if and only if none matches |
| `RouteMatching.AllMatch` | src/universal_agent/host_contracts.py:89-92 | the segment-wise test |
| `RouteMatching.Upper` | src/universal_agent/host_contracts.py:93 | upper-casing, by code point |
| `RouteMatching.MatchesIs` | src/universal_agent/host_contracts.py:87-92 | as many segments, each begun with a brace or the path's own |
| `RouteMatching.SegmentsAre` | src/universal_agent/host_contracts.py:85-86 | the slash-free pieces between slashes, without the slashes at both ends |
| `RouteMatching.SegmentsOfPath` | src/universal_agent/host_contracts.py:85-86 | non-empty slash-free segments survive strip and split |
| `RouteMatching.FilledTemplateMatches` | src/universal_agent/host_contracts.py:84-93 | filling a well-formed template with non-empty slash-free values gives a path that matches it |
| `RouteMatching.MatchesIffFilling` | src/universal_agent/host_contracts.py:84-93 | a path matches if and only if it is a filling of the template's parameters |
| `Text.SplitJoin` | src/universal_agent/host_contracts.py:85-86 | splitting joined separator-free parts gives them back |
| `Text.JoinSplit` | src/universal_agent/host_contracts.py:85-86 | joining the split parts gives the string back, and no part holds the separator |
| `Text.StripIs` | src/universal_agent/host_contracts.py:85-86 | stripping takes the character off both ends and nothing else |
| `Text.SpacesAre` | src/universal_agent_api/client.py:205 | which characters are stripped as white space, by code point |
| `ChatQueue.OneInFlightInOrder` | web/src/store.js:433-501 | in every run at most one message is in flight and submitted == settled ++ in flight ++ handed off ++ queued, however deliveries end |
| `ChatQueue.StepKeepsInv` | web/src/store.js:433-501 | every single step keeps that invariant |
| `ChatQueue.SendBeforeHandOffOverlaps` | web/src/store.js:491-497 | a send between completion and its hand-off puts two messages in flight, out of order |
| `ChatQueue.OverlapOnlyBeforeHandOff` | web/src/store.js:433-497 | only such a send can break the invariant |
| `ChatQueue.LostTextIsSentAgain` | web/src/store.js:483-490 | in every run, when a delivery has failed outright, a send pressed at once submits the same text again, behind whatever is queued, and none is lost |
| `ChatQueue.SurvivingText` | web/src/store.js:483-497 | whatever was in the box and however deliveries end, it keeps its draft if none is lost, and holds the text of the last lost one otherwise |
| `ChatQueue.OnlyLastLostSurvives` | web/src/store.js:429-432 | a run with two lost deliveries and a draft, of which one text is left |
| `ChatQueue.QueueDrains` | web/src/store.js:491-497 | every settlement lowers pending plus in flight by one, so n settlements settle n messages in the order submitted |
| `ChatQueue.Trim` | web/src/store.js:434-435 | the trimmed text has no white space at either end and is empty exactly for blank input |
| `ChatQueue.JsSpacesAre` | web/src/store.js:434 | which characters `trim` takes, by code point |
| `ChatQueue.ChatStore.SendChat` | web/src/store.js:433-445 | the method is the queue's send step |
| `ChatQueue.ChatStore.DeliverChat` | web/src/store.js:446-448 | starting a delivery shows its text as pending |
| `ChatQueue.ChatStore.OnSettled` | web/src/store.js:483-500 | the catch and finally blocks are the queue's settle step, and clear the pending bubble |
| `ChatQueue.ChatStore.NextTick` | web/src/store.js:495-497 | the scheduled callback is the queue's hand-off step |
| `TenantPaging.PageStep` | src/universal_agent/agentd/_routes_session.py:105-125 | a page holds exactly the visible part of the stretch its cursor passes over, and an empty page passes over a whole raw page |
| `TenantPaging.RawPage` | src/universal_agent/state/store.py:59-77 | the raw page is the stretch behind the cursor, and its cursor points behind it |
| `TenantPaging.MovingCursorAdvances` | src/universal_agent/agentd/_routes_session.py:117-125 | the cursor stands still if and only if the raw listing is exhausted, and strictly advances otherwise, even over pages filtered away |
| `TenantPaging.FollowingIsComplete` | src/universal_agent/agentd/_routes_session.py:105-125 | following the cursor returns each visible session exactly once and in order |
| `TenantPaging.FollowedAre` | src/universal_agent/agentd/_routes_session.py:112-125 | that is exactly the sessions of the tenant and the unstamped ones, or all without a tenant, in listing order |
| `TenantPaging.ListingRefusedIff` | src/universal_agent/state/store.py:59-76 | a request is refused if and only if its limit is below one or no session has the cursor's id, and how |
| `TenantPaging.EmptyPageIsTheEndIff` | src/universal_agent/agentd/_routes_session.py:117-125 | stopping at the first empty page is complete if and only if hidden runs before a visible session are shorter than a page |
| `ClientCursors.QueryValueIs` | src/universal_agent/agentd/routing.py:240-246 | no parameter of the name gives none, one gives its value or an error when blank, more give an error |
| `ClientCursors.CursorSeenIff` | src/universal_agent/agentd/routing.py:186-197 | the server sees a cursor if and only if the request calls it `after` |
| `ClientCursors.ClientResumesIff` | src/universal_agent_api/client.py:186-188 | a client resuming after an event is served from the start, which is what it asked for if and only if it named no event |
| `ClientCursors.ResumedStreamRepeatsIff` | src/universal_agent_api/client.py:175-215 | over whole runs, a connection of such a client repeats something if and only if it is served anything and an earlier one was |
| `ClientCursors.LoadActivity` | web/src/api.js:194-206 | the page loop collects the first page five times over, or once when there is no session |
| `ClientCursors.ActivityIsRightIff` | web/src/api.js:182-206 | that is what following `next_cursor` for five pages would collect if and only if there is nothing to collect |
| `MarkerInsertion.InsertMarkers` | tools/classify_tests.py:126-130 | inserting in descending line order equals inserting all markers at once |
| `MarkerInsertion.SortingDescends` | tools/classify_tests.py:127 | the order of insertion is strictly descending |
| `MarkerInsertion.AnnotatedIsOrderFree` | tools/classify_tests.py:105-127 | the order in which the tree walk found the functions does not matter |
| `MarkerInsertion.DeletingMarkersRestores` | tools/classify_tests.py:126-130 | deleting the markers gives back the file exactly |
| `MarkerInsertion.MarkerPrecedesItsLine` | tools/classify_tests.py:127-130 | each marker is immediately before its own original line, with that line's indent |
| `MarkerInsertion.MarkerReads` | tools/classify_tests.py:128-130 | the text of a marker: its line's indent, `@pytest.mark.` and the category |
| `MarkerInsertion.UnmarkedLineStays` | tools/classify_tests.py:127-130 | a line without a marker still follows its original predecessor |
| `MarkerInsertion.MarkerLandsAtItsFunctionIff` | tools/classify_tests.py:121-130 | a marker is before the line on which its own function begins if and only if nothing but line feeds ends a line before it, and earlier otherwise |
| `MarkerInsertion.FormFeedMisplacesMarker` | tools/classify_tests.py:126-130 | a form feed before a function moves its marker |
| `Lines.LineStartsAgreeIff` | tools/classify_tests.py:113-126 | line k begins at the same place under two sets of line ends if and only if nothing before it ends a line under one only |
| `Lines.KeptLineBegins` | tools/classify_tests.py:126 | each of `splitlines(keepends=True)` is the stretch of text that begins at its line's offset |
| `Lines.KeptLinesJoin` | tools/classify_tests.py:126-134 | put together, those lines are the text |
| `ConfigurationDocuments.RuntimeRoundTripIff` | src/universal_agent/configuration.py:471-526 | a configuration comes back from its document if and only if it is valid: `from_mapping` accepts what `validate` accepts and reaches all of it |
| `DocumentRules.RuntimeAcceptedIff` | src/universal_agent/configuration.py:471-526 | stated on the document alone: it is accepted if and only if every part is in order, the key secret is declared, retention is positive, listed domains are named, versioned and not alike, and package paths are not blank and distinct |
| `DocumentRules.RuntimeReadAs` | src/universal_agent/configuration.py:471-490 | every field of the configuration, from its key or, when that is absent, from its default |
| `DocumentRules.SecretReadIff` | src/universal_agent/configuration.py:61-65 | when a secret is accepted, and that it is read from the environment and required unless it says otherwise |
| `DocumentRules.StoreReadIff` | src/universal_agent/configuration.py:186-230 | when a store is accepted, backend by backend, and as what |
| `DocumentRules.LimitsReadIff` | src/universal_agent/configuration.py:78-83 | when limits are accepted, and their defaults |
| `DocumentRules.DomainReadIff` | src/universal_agent/configuration.py:268-283 | when a domain is accepted, and as what |
| `DocumentRules.DomainListReadIff` | src/universal_agent/configuration.py:513-521 | when a list of domains is accepted, and as what |
| `DocumentRules.ModelReadIff` | src/universal_agent/configuration.py:387-447 | when a model is accepted, provider by provider, and its defaults |
| `DocumentRules.ProfileAcceptedIff` | src/universal_agent/profile/config.py:157-189 | stated on the document alone, when a whole profile is accepted |
| `Configuration.DuplicateKeysRefused` | src/universal_agent/configuration.py:519-521 | two list entries with the same `name@version` key refuse the document |
| `Configuration.NoDuplicateKeys` | src/universal_agent/configuration.py:552-553 | the duplicate search finds nothing if and only if the keys are pairwise distinct |
| `Configuration.KeyDeterminesName` | src/universal_agent/configuration.py:552-553 | with '@'-free names the key determines name and version |
| `Configuration.ParseSecrets` | src/universal_agent/configuration.py:134-147 | every secret read carries its own name and a non-blank key |
| `Configuration.ParseDomain` | src/universal_agent/configuration.py:269-283 | a domain read is valid, keeps its name, and has a version exactly when one was given |
| `ConfigurationDocuments.SecretsRoundTrip` | src/universal_agent/configuration.py:536-543 | a table of valid secrets comes back whole |
| `ConfigurationDocuments.DomainsRoundTrip` | src/universal_agent/configuration.py:546-549 | a list of valid domains comes back in order |
| `ProfileInit.SecondaryDomains` | src/universal_agent_cli/init.py:242-260 | the resolved list, or an error if and only if a name is the primary's or repeated |
| `ProfileInit.AddEach` | src/universal_agent_cli/init.py:322-330 | the tables together, or an error if and only if they share a name |
| `ProfileInit.BuildRuntime` | src/universal_agent_cli/init.py:263-333 | the step-by-step construction yields the specified section, or raises exactly when it should |
| `InitReadBack.InitAcceptsIff` | src/universal_agent_cli/init.py:263-333 | stated on the arguments alone, which ones init accepts |
| `InitReadBack.SettingsIff` | src/universal_agent_cli/init.py:60-80 | which settings are in force, preset by preset, and when the arguments contradict one |
| `InitReadBack.InitWrites` | src/universal_agent_cli/init.py:263-333 | what init writes, key by key |
| `InitReadBack.InitConfigIs` | src/universal_agent_cli/init.py:263-333 | what that is read as, field by field from the arguments: the API key from the environment or from a file as the option said, the model, stores, domains, limits, and every contributed secret |
| `InitReadBack.InitProfileIs` | src/universal_agent_cli/init.py:336-361 | the document around it: name, version, keys and the mirrored list |
| `InitValidity.InitOutputAcceptedIff` | src/universal_agent_cli/init.py:263-333 | whatever arguments init accepts, `from_mapping` accepts the runtime section it writes if and only if the values init does not look at are well formed |
| `InitValidity.InitProfileAcceptedIff` | src/universal_agent_cli/init.py:336-361 | and the whole profile if and only if, besides, its name is not blank and its primary domain has a name and a version |
| `InitValidity.ZeroTimeoutIsRefusedLater` | src/universal_agent/configuration.py:387-389 | arguments that init accepts and whose profile is refused |
| `InitValidity.AcceptedIffParts` | src/universal_agent/configuration.py:471-526 | a section of the shape init writes is accepted if and only if each of its parts is |
| `InitValidity.InitOutputIsValid` | src/universal_agent/configuration.py:492-526 | with positive timeout and retention, non-blank names and paths, listed formats and '@'-free domains the output is valid for every provider |
| `InitValidity.InitDeclaresApiKey` | src/universal_agent_cli/init.py:319-332 | the API-key secret the model names is always declared |
| `InitValidity.WellFormedDomainsSuffice` | src/universal_agent/configuration.py:513-521 | with '@'-free domains init's own name check keeps the keys distinct |
| `InitValidity.ModelAccepted` | src/universal_agent_cli/init.py:394-445 | a model section init writes is accepted if and only if name, timeout and response format are well formed |
| `InitValidity.StoreAccepted` | src/universal_agent_cli/init.py:273-284 | a store section init writes is accepted if and only if it is memory, or file or sqlite with a non-blank path |
| `InitValidity.AllSecretsParse` | src/universal_agent_cli/init.py:319-330 | the collected secrets are readable if and only if each contribution's are |
| `InitValidity.ParseRuntimeDecided` | src/universal_agent/configuration.py:492-526 | which checks are left for a section of the shape init writes |
| `ProfileDomains.MergeDomain` | src/universal_agent_cli/profile_domains.py:49-108 | on whatever objects the document consists of, the merge is the specified one, appending once per list object occurrence: once, or twice when both lists are one object |
| `ProfileDomains.TakeLists` | src/universal_agent_cli/profile_domains.py:67-89 | both lists exist afterwards, existing ones are kept as objects, missing ones are seeded with the named primary |
| `ProfileDomains.TakeList` | src/universal_agent_cli/profile_domains.py:71-79 | one of them |
| `ProfileDomains.FindName` | src/universal_agent_cli/profile_domains.py:91-94 | the double loop finds the name if and only if some list has an object entry of that name |
| `ProfileDomains.AppendToEach` | src/universal_agent_cli/profile_domains.py:95-96 | each list object gains one entry per occurrence |
| `ProfileDomains.MergeSecrets` | src/universal_agent_cli/profile_domains.py:98-107 | new secrets go in unless a secret or a top-level key has the name |
| `ProfileDomains.Reload` | src/universal_agent_cli/profile_domains.py:115-125 | writing and reading back keeps the value and shares no list |
| `ProfileDomains.BuildProfile` | src/universal_agent_cli/init.py:336-361 | init's document, with one list object under both keys exactly when there are secondary domains |
| `MergeProperties.MergeAppendsOnce` | src/universal_agent_cli/profile_domains.py:67-107 | a successful merge appends the domain exactly once to both lists, keeps every earlier entry and overwrites no secret |
| `MergeProperties.MergeRefusedIff` | src/universal_agent_cli/profile_domains.py:91-94 | a merge is refused if and only if an object of either list has that name |
| `MergeProperties.SeedsAre` | src/universal_agent_cli/profile_domains.py:71-89 | what list a merge starts from, by what stands under `domains` and by the primary's name |
| `MergeProperties.SecretsAfterMerge` | src/universal_agent_cli/profile_domains.py:98-107 | which secrets a runtime section has afterwards, and as what |
| `MergeProperties.MergeAgainIsRefused` | src/universal_agent_cli/profile_domains.py:91-94 | merging the same name again is refused and changes nothing |
| `MergeProperties.SecretsDeclaredIff` | src/universal_agent_cli/profile_domains.py:98-107 | all secrets of the new domain are declared afterwards if and only if it has none, or there is a runtime section and each was declared already or is not named like a top-level key |
| `MergeValidity.MergeDropsSecrets` | src/universal_agent_cli/profile_domains.py:98-107 | a profile without a runtime section is valid before and after a merge, which drops every secret it brings |
| `MergeValidity.SmallestDroppedSecret` | src/universal_agent_cli/profile_domains.py:98-107 | the smallest such input |
| `MergeProperties.MergeKeepsRuntimeIff` | src/universal_agent_cli/profile_domains.py:80-107 | the runtime section stays a valid configuration if and only if the merge is safe for it |
| `MergeValidity.MergeKeepsValidityIff` | src/universal_agent/profile/config.py:157-189 | a merge into a valid profile gives a valid profile if and only if `MergeSafe` held before |
| `MergeValidity.SeedsAgreeIff` | src/universal_agent_cli/profile_domains.py:71-89 | in a valid profile the two lists a merge starts from name the same domains unless exactly one of them is empty |
| `MergeValidity.MergeSpoilsBareRuntime` | src/universal_agent/profile/config.py:186-189 | a valid profile whose runtime section names no domain is refused after any merge |
| `MergeValidity.SmallestSpoiledProfile` | src/universal_agent/profile/config.py:186-189 | the smallest such profile |
| `ProfileValidity.MirroredProfileIff` | src/universal_agent/profile/config.py:176-189 | a profile whose runtime section repeats its domains is valid if and only if that section is, the profile is named, and its primary domain has an identity |
| `ProfileValidity.NoRuntimeSection` | src/universal_agent/profile/config.py:186-188 | without a runtime section there is no configured domain to compare with |
| `MergeValidity.PrimaryStaysUnlessListEmpty` | src/universal_agent/profile/config.py:161-162 | after a valid merge the primary domain is the one it was, unless the profile had an empty `domains` list: then the new domain replaces it |
| `MergeValidity.EmptyListLosesPrimary` | src/universal_agent_cli/profile_domains.py:71-90 | with `"domains": []` beside a primary domain, in the profile and in its runtime section, a merge is valid and the primary is gone |
| `MergeProperties.AliasedMergeIsRefused` | src/universal_agent_cli/init.py:356-361 | with both lists one object the result is always refused |
| `MergeProperties.AddDomain` | src/universal_agent_cli/profile_domains.py:111-125 | one run of the command is one merge of unaliased lists |
| `MergeProperties.AddDomains` | src/universal_agent_cli/profile_domains.py:111-125 | running it once per domain is the specified sequence of merges |
| `MergeProperties.MergeWithoutReload` | src/universal_agent_cli/profile_domains.py:115 | after an init with secondary domains, a merge into init's own objects, without reading the file back, never leaves a valid profile |
| `InitAndMerge.MergesAfterInit` | src/universal_agent_cli/profile_domains.py:49-108 | the merges after a plain init succeed if and only if all names are distinct, and what they leave |
| `InitAndMerge.GrownAll` | src/universal_agent_cli/profile_domains.py:91-107 | the same for any profile grown by earlier merges |
| `InitAndMerge.InitAcceptsIffMergesDo` | src/universal_agent_cli/init.py:242-260 | init with secondary domains succeeds if and only if plain init and the merges do and the secret names are distinct |
| `InitAndMerge.SameApartFromSecrets` | src/universal_agent_cli/init.py:310-330 | the two ways agree on everything but the secrets, and what secrets each has |
| `InitAndMerge.TablesCompared` | src/universal_agent_cli/profile_domains.py:105-107 | init's secrets are the merges' secrets plus those named like top-level keys |
| `InitAndMerge.InitWithDomainsIsInitThenMerges` | src/universal_agent/configuration.py:470-490 | for every n, both ways parse to the same `RuntimeConfig` if and only if no secondary secret is named like a top-level key |
| `InitAndMerge.SameProfileIff` | src/universal_agent/profile/config.py:157-174 | and to the same `ProfileConfig` under the same condition |
| `InitAndMerge.ClashingSecretMakesADifference` | src/universal_agent_cli/profile_domains.py:105-107 | arguments for which both ways succeed, init's profile is valid, and the two profiles differ |

## Left out

- EventGenerators.EventWatch.ReadOn: says nothing of the wake flag once a cursor error has ended the generator; the flag object is unreachable then.
- EventGenerators.EventWatch.Next: likewise.
- ChatQueue.OneInFlightInOrder: assumes that a scheduled `nextTick` hand-off runs before the next user event; `ChatQueue.SendBeforeHandOffOverlaps` and `ChatQueue.OverlapOnlyBeforeHandOff` say what happens otherwise.
- BrowserPages.ReconnectsAreHiddenIff: a heartbeat's id is its position in the run, standing for a generated id that never repeats; an event with an empty id, which the page would key by type and time, is not considered.
- MarkerInsertion.MarkerLandsAtItsFunctionIff: every line end is one character; a carriage return before a line feed is not treated as one end with it.
- ClientCursors.ActivityIsRightIff: assumes that session ids are not blank. The buckets per day are not modelled, only which sessions are counted.
- SseFrames.StreamComesBackIff: which characters end a line is a parameter (the HTTP client library is not part of the repository), each ends a line by itself, and ids and types hold none of them.
- InitAndMerge.InitWithDomainsIsInitThenMerges: assumes that a contribution's name is the name in the config it returns and that the primary's is not empty, as for every contribution in the repository.
- Time: heartbeat intervals and their check, `wait_for`, real sleeps. A timeout may happen whenever a watcher waits.
- Reassigning the sink's public `events` list from outside, which breaks its agreement with the id set; `events_for` and `all`.
- The fields of an event that no reader looks at: times, goal, task and action ids.
- The broker-backed event stream and the durable stores; their listing is taken to filter as the in-memory one does.
- JSON text: parsing is a parameter of the decoder, and a configuration document is what the schema looks at. Unknown keys, the order of dictionary entries, coercions by pydantic, NaN and infinity are not modelled, and every `ValueError` is one outcome without its message.
- Looking up contributions (`_domain_settings`, `_resolve_added_domain`) and splitting KEY=VALUE headers: domains come resolved, headers come parsed.
- The text of a profile's description.
- Files: backups, `config.json`, encodings, and the error for a missing or non-object profile.
- HTTP transport, authentication, URL encoding, and the batch form of the event stream with its comments.
- HTML rendering: an event's fragment and a message's text are opaque. The refresh of the session list on a finished goal.
- The API calls inside `deliverChat`: only how a delivery ends matters (it worked, it failed with the chat reloaded, it failed outright).
- A session listing that changes between two pages; the order is taken as fixed.
- Scoring and classifying tests, finding functions in the syntax tree, and the `import pytest` line that `process_file` adds.
- Upper-casing of non-ASCII method names.
- Postgres DSN handling, `effective_tenant_id`, and the constructors and accessors of the configuration classes.
