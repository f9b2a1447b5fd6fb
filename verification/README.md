# k8sCenter: a Dafny model of its protocols, guards and stores

k8sCenter is a web console for Kubernetes clusters: a TypeScript front end (a browser part and a Node server) and a Go
back end. This project models the parts of it whose correctness depends on whole histories rather than on one call,
and proves what the code promises about them for every input, run and interleaving.

| file | component | central result |
|---|---|---|
| `Sha256.dfy`, `FipsConstants.dfy`, `FipsMeaning.dfy` | the front end's own SHA-256 and the hash that keys stored apply attempts | the signed, truncating JavaScript arithmetic computes FIPS 180-4 exactly, up to the length where it throws |
| `ApplyProtocol.dfy` | tracked YAML apply: one operation id per attempt, kept across retries, remounts and reloads | same id, same request; at most one execution; exactly when a finished id can come back |
| `PreviewPin.dfy` | the preview that pins an apply to one cluster | an apply goes where the last successful preview went; exactly when a preview pins |
| `RefreshObserver.dfy` | the external-secret refresh observer's reducer | every phase is explained, both ways, by the events that led to it |
| `RefreshPoller.dfy` | the poller that feeds it | one poll chain, silence after stop, at most 19 reads, when the deadline ends a run |
| `WsBridge.dfy` | the WebSocket relay with its queue and timers | ordered, bounded, complete relay; exactly which idle bounds and timer lags let a live peer survive |
| `ImportGuards.dfy` | two build-time guards that walk the import graph | a violation is reported exactly when an import chain exists |
| `AlertStore.dfy`, `AlertPages.dfy` | the in-memory alert store, webhook ingestion, cursor pagination | the store's invariant; after every run, pagination is exact if and only if no tie falls on a power of ten |
| `EmailLimiter.dfy` | the alert mailer's hourly limit and cooldown | the exact most an hour can admit from any state, hence when it keeps to the limit; cooldown spacing; cleaning is invisible |
| `PathSafety.dfy` | the traversal check on proxied paths | a path passes exactly when no repeated decoding of it is unsafe |
| `PendingCaptures.dfy` | incident-capture drafts kept in storage with a fallback map | storage that fails at will still behaves as one plain map |
| `CapabilityCache.dfy` | the per-cluster capability cache | every hit is current, for a set of targets exactly if no two share a key |
| `TokenRefresh.dfy` | the API transport's shared token refresh | one refresh at a time, one retry, a fixed target cluster per call |
| `SecretMask.dfy` | the masking of secret values in YAML text | the value of a key has no influence on the output, exactly if the key leaves no quote open; keys stay; masking is final |

`Options.dfy` holds the option type the others share.

How the model is built. Pure code is functions and lemmas. Code that updates fields in place (the tab's refs and
storage, the editor, the poller, the bridge, the alert store, the notifier, the capture store, the cache, the
transport) is a class whose methods are proved equal to a step function on the class's value, and the theorems are
about all runs of that step function. Loops are methods with invariants. Asynchronous code is cut at its `await`s: each
stretch between two of them is one method and one event, and runs interleave them freely. Clocks, storage refusals,
network outcomes and fresh identifiers are parameters of the events.

Where code and documentation differ, the model follows the code:

- The "hourly" email limit is a window that starts at the first check an hour after the last reset, so an arbitrary
  hour can see twice the limit (`EmailLimiter.TwiceLimitIsReached`). From a given reading on, the next hour is sure to
  keep to the limit exactly when the count is at the limit or the window starts then or is over
  (`EmailLimiter.HourKeepsLimitIff`).
- List pagination promises to handle equal timestamps with a composite key, but compares ids as strings: two events
  with equal times whose numbers straddle a power of ten make a walk inexact (`AlertPages.TenAlertsAtOnce`), and
  nothing else does (`AlertPages.StorePaginationExactIff`).
- The refresh poller says its observer always times out on time. That rests on its page, which makes no request while
  the poller runs (frontend/src/islands/ESOExternalSecretDetail.tsx:138); by itself the poller can be left neither
  ended nor polling by a request accepted during an earlier run (`RefreshPoller.StrandingIsReachable`,
  `RefreshPoller.DeadlineEndsRunIff`).
- The secret mask keeps keys apart from values by a regular expression; a key that opens a quote it does not close lets
  the value decide where the key ends and so what is shown (`SecretMask.OpenQuoteShowsValue`,
  `SecretMask.ValueIsHiddenIff`).
- The duplicate-state guard remembers reported pairs by a joined text; pairs whose paths contain `->` can share it, and
  then one is not reported (`DuplicateGuard.ArrowReport`); the entries' own paths tell when that can happen
  (`DuplicateGuard.EntriesNeverCollideIff`).
- A success that reaches an editor after it was unmounted does not retire the id in an editor mounted since
  (`ApplyProtocol.LateSuccessLeavesIdInUse`, and exactly when in `ApplyProtocol.LateReleaseIsFinalIff`).
- The capability cache joins cluster and generation with a NUL; targets whose ids contain one can share an entry, and
  then one is served the other's answer (`CapabilityCache.NulClustersCollide`, `CapabilityCache.HitsAreCurrentIff`).

## Model

| member | source | states |
|---|---|---|
| `Fips180.RotrRotates` | frontend/lib/pending-apply.ts:52 | bit b of a rotated word is bit b + n modulo 32 of the word, for every word and distance: the recursive definition of rotation is the standard's |
| `Fips180.ChChooses` | frontend/lib/pending-apply.ts:82 | each bit of Ch is the second or the third word's bit, as the first word's bit says |
| `Fips180.MajVotes` | frontend/lib/pending-apply.ts:87 | each bit of Maj is the one at least two of the three words have |
| `Fips180Meaning.BigSigmaBits` | frontend/lib/pending-apply.ts:81-86 | each bit of the two big sigmas is the parity of the three bits that section 4.1.2 of FIPS 180-4 names |
| `Fips180Meaning.SmallSigmaBits` | frontend/lib/pending-apply.ts:73-75 | likewise for the two small sigmas, their shifts included |
| `Fips180Constants.RoundConstants` | frontend/lib/pending-apply.ts:38-50 | each round constant is the first 32 bits of the fractional part of the cube root of its prime, primes being the numbers without a divisor, counted in order |
| `Fips180Constants.InitialHash` | frontend/lib/pending-apply.ts:65-68 | the eight initial words are those of the square roots of the first eight primes |
| `Fips180Meaning.ScheduleMeans` | frontend/lib/pending-apply.ts:71-76 | each schedule word is a big-endian number of the block or, from the 17th on, the sum of four earlier words modulo 2^32 |
| `Fips180Meaning.RoundsShift` | frontend/lib/pending-apply.ts:88-95 | after any number of rounds the eight variables are the last four values of two registers |
| `Fips180Meaning.RoundsRecur` | frontend/lib/pending-apply.ts:79-95 | each register's next value is its sum of earlier values modulo 2^32, reduced once |
| `Fips180Meaning.HashMeans` | frontend/lib/pending-apply.ts:68-105 | a series of hash values that starts at the initial one and takes each block of the padded message in turn, adding the variables after 64 rounds modulo 2^32, ends in the digest |
| `Fips180.BigEndianInjective` | frontend/lib/pending-apply.ts:61-63 | a number below 256^k is determined by its k big-endian bytes |
| `Fips180.PadInjective` | frontend/lib/pending-apply.ts:58-63 | different messages have different paddings, so hashing the padded form loses nothing |
| `Fips180.PadLengthLeast` | frontend/lib/pending-apply.ts:58 | the padded length is the least multiple of 64 with room for the marker byte and the length |
| `Fips180Meaning.PadMeans` | frontend/lib/pending-apply.ts:58-63 | the padding is the message, 0x80, zeros and a big-endian bit count, in whole blocks and no longer than needed |
| `PendingDigest.RotrAgrees` | frontend/lib/pending-apply.ts:52 | the signed result of the shift-and-or rotation, with shift counts taken modulo 32, names the same 32-bit word as the standard's rotation, for every distance from 1 to 31 |
| `PendingDigest.PaddedSizeExact` | frontend/lib/pending-apply.ts:58 | the buffer size computed with 32-bit shifts is the padded length if len + 72 < 2^31, and too small for the message otherwise |
| `PendingDigest.RequestedSize` | frontend/lib/pending-apply.ts:58 | the same, of the size actually asked for |
| `PendingDigest.WriteCount` | frontend/lib/pending-apply.ts:61-63 | two 32-bit stores leave the 64-bit bit count in the last eight bytes and touch nothing else |
| `PendingDigest.PadMessage` | frontend/lib/pending-apply.ts:57-63 | the buffer is the standard's padding of the message, or the allocation or copy throws, decided by len + 72 < 2^31 |
| `PendingDigest.ScheduleWord` | frontend/lib/pending-apply.ts:73-75 | a sum of signed values truncated on store is the standard's sum modulo 2^32 |
| `PendingDigest.FillSchedule` | frontend/lib/pending-apply.ts:71-76 | the array holds the standard's 64-word message schedule of the block |
| `PendingDigest.T1` | frontend/lib/pending-apply.ts:79-84 | the untruncated sum is congruent to T1 and stays far inside the exact range of doubles |
| `PendingDigest.T2` | frontend/lib/pending-apply.ts:85-87 | likewise for T2 |
| `PendingDigest.OneRound` | frontend/lib/pending-apply.ts:79-95 | one pass of the loop body is one round of section 6.2.2 of FIPS 180-4 |
| `PendingDigest.RunRounds` | frontend/lib/pending-apply.ts:78-96 | 64 passes are the 64 rounds |
| `PendingDigest.AddInto` | frontend/lib/pending-apply.ts:97-104 | each stored word is the sum modulo 2^32 with the intermediate hash |
| `PendingDigest.ProcessBlock` | frontend/lib/pending-apply.ts:65-105 | one block takes the hash value to the standard's next one |
| `PendingDigest.HashPadded` | frontend/lib/pending-apply.ts:65-105 | all blocks give the standard's hash of the padded message |
| `PendingDigest.HexWordValue` | frontend/lib/pending-apply.ts:106 | a word prints as eight hexadecimal digits that read back as the word |
| `PendingDigest.HexJoinInjective` | frontend/lib/pending-apply.ts:106 | different hash values print differently |
| `PendingDigest.HexJoinAt` | frontend/lib/pending-apply.ts:106 | the printed hash is the words in order, eight lower-case hexadecimal digits each |
| `PendingDigest.Sha256Hex` | frontend/lib/pending-apply.ts:55-107 | the result is the hexadecimal SHA-256 of the message for every message with len + 72 < 2^31, and a RangeError for every other |
| `ApplyProtocol.QueryRoundTrip` | frontend/lib/yaml-apply.ts:225-237 | parsing a built query gives back exactly the part of the input that is meant to be sent |
| `ApplyProtocol.QueryParam` | frontend/lib/yaml-apply.ts:225-237 | for each parameter name, when it is present and what it holds |
| `ApplyProtocol.ReleasesIff` | frontend/lib/yaml-apply.ts:266-318 | on raw answers: a failure ends the attempt if and only if it is an API error below 500 other than an operation in flight, or the receipt store's 503 that gives the id up or says nothing to a first send |
| `ApplyProtocol.RefusalIff` | frontend/lib/yaml-apply.ts:266-306 | on raw answers: a failure is a tracked refusal if and only if it is the receipt store's 503 or a 409 for one of the three reasons about the id, and only the 503 passes the server's two flags on |
| `ApplyProtocol.MayHaveAppliedIff` | frontend/lib/yaml-apply.ts:329-339 | on raw answers: a failure may have been applied if and only if there was no answer or a 5xx, other than the receipt store's that rules it out |
| `ApplyProtocol.KeptMeansPossiblyApplied` | frontend/lib/yaml-apply.ts:266-339 | an id kept after a failure is reported as possibly applied, with exactly two exceptions: an operation still in flight, and a store failure that answered "not applied" to a retry and says nothing about the id |
| `ApplyProtocol.PressAttempt` | frontend/lib/yaml-apply.ts:532-551 | a tracked press sends under a newly minted id or under the one its own request was minted, inside the reuse window |
| `ApplyProtocol.PressReusesIff` | frontend/lib/yaml-apply.ts:532-551 | a tracked press reuses an id if and only if memory holds one for its request under ten minutes old, or storage can be read and holds one that is and is not from the future |
| `ApplyProtocol.PressSends` | frontend/lib/yaml-apply.ts:475-563 | a press while an answer is outstanding changes nothing; any other sends its request exactly once, with an id if and only if it is tracked, and waits for the answer |
| `ApplyProtocol.StepKeepsInv` | frontend/lib/yaml-apply.ts:475-608 | every event keeps the invariant that ties memory, storage and requests in flight to the minted attempts |
| `ApplyProtocol.RunKeepsInv` | frontend/lib/yaml-apply.ts:475-608 | hence every run does |
| `ApplyProtocol.SameIdSameRequest` | frontend/lib/yaml-apply.ts:475-608 | in every run, two sends under one id carry the same query, cluster header and body, and each comes less than ten minutes after the first, which exists, whatever the clock does |
| `ApplyProtocol.ExecutedOncePerId` | frontend/lib/yaml-apply.ts:532-551 | a server that runs each id once executes at most one of the sends under it, under any reordering and duplication |
| `ApplyProtocol.DeliveredIsExecuted` | frontend/lib/yaml-apply.ts:532-551 | and it executes every send that reaches it, itself or as another send of its id |
| `ApplyProtocol.SeriesKeepsId` | frontend/lib/yaml-apply.ts:532-589 | retries of one request under answers that leave the outcome open all go out under the same id |
| `ApplyProtocol.SeriesExecutesAtMostOnce` | frontend/lib/yaml-apply.ts:532-589 | such a series executes the change at most once, from any state and whatever storage and network do |
| `ApplyProtocol.UnansweredNeverReleases` | frontend/lib/yaml-apply.ts:576-589 | the answers such a series may get are exactly those that keep the attempt alive on a first send and on a retry |
| `ApplyProtocol.StoredPressIsHeld` | frontend/lib/pending-apply.ts:150-161 | a press whose storage write succeeds leaves its attempt held |
| `ApplyProtocol.AttemptSurvives` | frontend/lib/pending-apply.ts:114-148 | a held attempt's id is the one used for its request through any remounts, reloads, late answers and other requests, while storage can be read and no answer is definite |
| `ApplyProtocol.SurvivingAttemptExecutesAtMostOnce` | frontend/lib/yaml-apply.ts:532-551 | so the request is executed at most once across them |
| `ApplyProtocol.GoneRun` | frontend/lib/yaml-apply.ts:499-551 | a sent id that neither memory nor storage holds is never sent again in any run, even while an answer to it is outstanding |
| `ApplyProtocol.CanResendIff` | frontend/lib/yaml-apply.ts:532-551 | in every reachable state some run sends a sent id again if and only if memory holds it or storage holds it under its own request |
| `ApplyProtocol.ReleasedIdIsFinal` | frontend/lib/yaml-apply.ts:499-589 | after a definite answer to the mounted editor, some run sends the id again if and only if storage held it and refused its removal |
| `ApplyProtocol.LateReleaseIsFinalIff` | frontend/lib/yaml-apply.ts:564-589 | after a definite answer to an unmounted editor, some run sends the id again if and only if the mounted editor has taken it up, or storage held it and refused its removal |
| `ApplyProtocol.UntrackedPressIsFinalIff` | frontend/lib/yaml-apply.ts:546-551 | after an untracked press of a request its earlier id can return if and only if storage held it and refused its removal |
| `ApplyProtocol.RemountTakesStoredId` | frontend/lib/pending-apply.ts:114-148 | an editor remounted before the answer takes up the stored id, so both send under one |
| `ApplyProtocol.LateSuccessLeavesIdInUse` | frontend/lib/yaml-apply.ts:564-589 | counterexample from an empty tab: press, remount, press, late success to the first editor, and the id can still be sent again |
| `ApplyProtocol.Tab.ReadStored` | frontend/lib/pending-apply.ts:114-148 | the branches for throwing, absent, malformed, expired and live entries give the value and the storage the specification gives, purging included |
| `ApplyProtocol.Tab.HandleApply` | frontend/lib/yaml-apply.ts:475-563 | the handler up to its await is one press step |
| `ApplyProtocol.Tab.Settle` | frontend/lib/yaml-apply.ts:564-608 | the handler after its await is one answer step |
| `ApplyProtocol.Tab.SettleUnmounted` | frontend/lib/yaml-apply.ts:564-608 | the same continuation in an unmounted editor is one late-answer step: it can reach storage only |
| `PreviewPin.StepKeepsInv` | frontend/lib/yaml-apply.ts:423-608 | every event keeps: a pin stands only for the last preview asked for, and each apply made was vouched for |
| `PreviewPin.RunKeepsInv` | frontend/lib/yaml-apply.ts:423-608 | hence every run does |
| `PreviewPin.PinnedAppliesFollowPreview` | frontend/lib/yaml-apply.ts:423-563 | in every run each apply of a pinning editor names, in header and query, the cluster and generation of a successful preview that is the last one asked for before it |
| `PreviewPin.LatePreviewNeverPins` | frontend/lib/yaml-apply.ts:440-473 | a preview in flight across at least one switch never pins, whatever else happens before its answer and even when the switches lead back |
| `PreviewPin.PreviewPinsIff` | frontend/lib/yaml-apply.ts:423-473 | a preview pins if and only if it succeeds, no switch happens while it is out and the server names the cluster it was sent to, an empty id being the local one; the pin is that cluster with the server's names |
| `PreviewPin.UnpinnedApplyFollowsSelection` | frontend/lib/yaml-apply.ts:475-563 | an editor that does not pin sends each apply, without a pin, to the cluster selected last before the press |
| `PreviewPin.PinnedApplyIsSent` | frontend/lib/yaml-apply.ts:475-563 | an idle pinning editor with a pin sends its apply to the cluster of the pin, with the pin, and keeps it; one without a pin sends nothing |
| `PreviewPin.PinAfterAnswer` | frontend/lib/yaml-apply.ts:567-607 | an answer drops the pin if and only if it refuses it |
| `PreviewPin.NewEditorIsIdle` | frontend/lib/yaml-apply.ts:423-563 | a new editor's first validate goes to the selected cluster, and so does its first apply unless it pins |
| `PreviewPin.Editor.HandleValidate` | frontend/lib/yaml-apply.ts:423-439 | up to its await the handler is one preview press |
| `PreviewPin.Editor.SettleValidate` | frontend/lib/yaml-apply.ts:440-473 | after it, one preview answer |
| `PreviewPin.Editor.HandleApply` | frontend/lib/yaml-apply.ts:475-563 | up to its await the handler is one apply press: refused without a pin where pins are required |
| `PreviewPin.Editor.SettleApply` | frontend/lib/yaml-apply.ts:567-607 | after it, one answer; a refused pin is dropped |
| `RefreshObserver.ReachableIsWellFormed` | frontend/lib/eso-refresh-observer.ts:227-277 | in every reachable state a waiting phase has its baseline and deadline, an outcome goes with a failure, attribution with a strong correlation, unavailability with three errors in a row |
| `RefreshObserver.TerminalIsFinal` | frontend/lib/eso-refresh-observer.ts:222-234 | no events but a new request change a terminal state in any way |
| `RefreshObserver.FromWaiting` | frontend/lib/eso-refresh-observer.ts:175-276 | which events keep an observation open and what each other one makes of it |
| `RefreshObserver.WaitingStateHolds` | frontend/lib/eso-refresh-observer.ts:227-277 | the whole state of an open observation, its error count included, is a function of the accept and the events since |
| `RefreshObserver.Explain` | frontend/lib/eso-refresh-observer.ts:227-277 | from a phase back to the request, accept and deciding event in the trace |
| `RefreshObserver.WaitingIffOpen` | frontend/lib/eso-refresh-observer.ts:227-277 | a trace ends waiting (or requested) if and only if its last request's accept (or the request) is still open |
| `RefreshObserver.SuccessIffNewEvidence` | frontend/lib/eso-refresh-observer.ts:152-277 | a trace ends in success if and only if the first decisive event after the accept is a sample of the same object within 90 s, not failed, whose sync time is strictly later than the baseline's (strong) or whose synced version is there and another (weak) |
| `RefreshObserver.UnmovedSampleShowsNothing` | frontend/lib/eso-refresh-observer.ts:152-215 | a sample whose sync time and synced version are the baseline's ends no wait in success, nor in a failure put down to the request |
| `RefreshObserver.TerminalIffDecided` | frontend/lib/eso-refresh-observer.ts:175-277 | each terminal phase is reached if and only if the event that ended the last request's observation means that phase, or the request was withdrawn unanswered; outcome, attribution and unavailability are that event's |
| `RefreshPoller.ChainStep` | frontend/lib/eso-refresh-observer.ts:378-446 | every timer, read, host and page event keeps the single-chain invariant |
| `RefreshPoller.ChainRun` | frontend/lib/eso-refresh-observer.ts:378-446 | hence every run does |
| `RefreshPoller.SingleChain` | frontend/lib/eso-refresh-observer.ts:378-446 | in every interleaving there is a poll timer or a read in flight, never both, exactly while the poller runs; at most one outstanding read is not aborted |
| `RefreshPoller.IdleRun` | frontend/lib/eso-refresh-observer.ts:384-429 | a poller that does not run dispatches nothing until begun |
| `RefreshPoller.SilentAfterStop` | frontend/lib/eso-refresh-observer.ts:384-429 | after a stop no timer or late read dispatches anything until begun again |
| `RefreshPoller.DeadlineEndsRun` | frontend/lib/eso-refresh-observer.ts:436-444 | the deadline callback stops the poller in every state reachable under a page that makes no request while it runs |
| `RefreshPoller.DeadlineEndsRunIff` | frontend/lib/eso-refresh-observer.ts:436-444 | in any state it fails to stop it if and only if the observer waits for something with a later deadline |
| `RefreshPoller.BeginSetsDeadline` | frontend/lib/eso-refresh-observer.ts:425-447 | a run's deadline timer is due at the observation's deadline, or at once if that has passed or is not set |
| `RefreshPoller.NewRequestStrandsPoller` | frontend/lib/eso-refresh-observer.ts:431-446 | counterexample family: a request accepted during an earlier run leaves the poller, after the earlier deadline, with no timer and no read for ever |
| `RefreshPoller.StrandingIsReachable` | frontend/lib/eso-refresh-observer.ts:431-446 | such a state is reached from a new poller: request, accept, begin, first poll, second request accepted, first deadline |
| `RefreshPoller.PacedRun` | frontend/lib/eso-refresh-observer.ts:279-429 | the n-th read starts no sooner than the sum of the backoff delays, and before the deadline |
| `RefreshPoller.AtMostNineteenReads` | frontend/lib/eso-refresh-observer.ts:279-429 | one run starts at most 19 reads |
| `RefreshPoller.NineteenReadsHappen` | frontend/lib/eso-refresh-observer.ts:279-429 | and some run of a new poller starts exactly 19, after 1, 3 and 6 s and then every 5 s, so the bound is exact |
| `RefreshPoller.FailedReadMeans` | frontend/lib/eso-refresh-observer.ts:411-428 | what a failed read does while the poller waits: 403 and 404 end the wait each in its way, the third failure in a row gives up, any other schedules the next read |
| `RefreshPoller.Poller.constructor` | frontend/lib/eso-refresh-observer.ts:378-383 | a new poller is idle |
| `RefreshPoller.Poller.Stop` | frontend/lib/eso-refresh-observer.ts:384-390 | both timers are cleared and the read in flight aborted |
| `RefreshPoller.Poller.StillWaiting` | frontend/lib/eso-refresh-observer.ts:393-397 | answers whether the observer waits and stops the poller when it does not |
| `RefreshPoller.Poller.Poll` | frontend/lib/eso-refresh-observer.ts:403-409 | the poll callback up to its read is the specified step |
| `RefreshPoller.Poller.ReadSettled` | frontend/lib/eso-refresh-observer.ts:411-428 | what follows the read is the specified step: an aborted read has no effect |
| `RefreshPoller.Poller.BeginRun` | frontend/lib/eso-refresh-observer.ts:431-446 | starts the chain and the deadline, unless running or not waiting |
| `RefreshPoller.Poller.DeadlineFires` | frontend/lib/eso-refresh-observer.ts:436-444 | aborts, dispatches the deadline tick and stops if that ended the wait |
| `WsBridge.CloseBoth` | frontend/server/ws-proxy.ts:274-295 | afterwards the bridge is closed and neither side accepts; a second close changes nothing; nothing is relayed by it |
| `WsBridge.HandleKeepsInv` | frontend/server/ws-proxy.ts:240-440 | every socket and timer event keeps the relay invariant |
| `WsBridge.RunKeepsInv` | frontend/server/ws-proxy.ts:240-440 | hence every run does |
| `WsBridge.RelayIsOrderedAndBounded` | frontend/server/ws-proxy.ts:254-435 | in every run each side has received a prefix of the other's messages, the queue continues it with nothing missing while open, the queue obeys both limits, and the client is closed at most once with a sendable code |
| `WsBridge.ClosedIsSilent` | frontend/server/ws-proxy.ts:274-295 | after a close nothing is relayed and the client is not closed again |
| `WsBridge.BridgeClosesIff` | frontend/server/ws-proxy.ts:274-435 | in every run the bridge is closed if and only if an event was a reason: a close of either side, the idle timer, the handshake timer before the backend ever opened, or a message that, with the backend connecting, takes the client's messages or their UTF-8 bytes past a limit; the first reason decides the code and text the client gets |
| `WsBridge.Utf8LengthIs` | frontend/server/ws-proxy.ts:372 | a text counts as many bytes as its UTF-8 form has |
| `WsBridge.IdleCountsFromLastFrame` | frontend/server/ws-proxy.ts:312-335 | while the bridge is open its idle timer is due one bound after the last message, ping or pong |
| `WsBridge.CountingRun` | frontend/server/ws-proxy.ts:312-353 | with timers at most a given lag late, an open bridge's idle timer always stands for the last frame plus the bound, and the handshake timer for the start plus its bound |
| `WsBridge.SilentBridgeIsReaped` | frontend/server/ws-proxy.ts:312-319 | a bridge that sees no frame is closed by its idle timer, not before the bound and not later than the timers' lag after it |
| `WsBridge.OpenMeansAlive` | frontend/server/ws-proxy.ts:312-353 | an open bridge saw a frame within the bound plus the lag, and its backend opened within the handshake bound plus the lag |
| `WsBridge.PeriodInsideBound` | frontend/server/ws-proxy.ts:336-339 | the keepalive period is a third of the bound, at least 50 ms and at most 20 s, and lies inside the bound if and only if the bound exceeds 50 ms |
| `WsBridge.LivelyRun` | frontend/server/ws-proxy.ts:312-347 | while a peer answers each ping in less than bound less period less lag, an answer is always due before the idle timer |
| `WsBridge.AnsweringPeerSurvives` | frontend/server/ws-proxy.ts:312-347 | such a peer's bridge is never closed by its idle timer, for every lag the bound leaves room for |
| `WsBridge.KeepaliveWorksIff` | frontend/server/ws-proxy.ts:312-347 | for every lag, every answering peer survives every run if and only if the bound exceeds period plus lag; with punctual timers, if and only if it exceeds 50 ms |
| `WsBridge.Bridge.constructor` | frontend/server/ws-proxy.ts:240-260 | a new bridge has its timers armed and nothing queued |
| `WsBridge.Bridge.CloseBothSides` | frontend/server/ws-proxy.ts:274-295 | is the specified close of both sides |
| `WsBridge.Bridge.HandleClientMessage` | frontend/server/ws-proxy.ts:357-381 | sends, queues, or closes on overflow, as specified |
| `WsBridge.Bridge.HandleBackendOpen` | frontend/server/ws-proxy.ts:383-395 | sends the whole queue in order and empties it |
| `WsBridge.Bridge.HandleBackendMessage` | frontend/server/ws-proxy.ts:398-407 | relays to an open client |
| `WsBridge.Bridge.HandleClientClose` | frontend/server/ws-proxy.ts:421-435 | clears timers and closes the backend |
| `WsBridge.Bridge.HandleKeepalive` | frontend/server/ws-proxy.ts:340-347 | pings an open client and re-arms |
| `WsBridge.Bridge.HandleHandshakeTimeout` | frontend/server/ws-proxy.ts:349-353 | closes a bridge whose backend is not open, be it still connecting or already closing |
| `ImportGraph.ClosedHoldsWalks` | frontend/server/check-no-signal-store-in-ssr.ts:201-226 | a set closed under walkable imports holds every module a walk from inside reaches |
| `SsrGuard.ForbiddenIff` | frontend/server/check-no-signal-store-in-ssr.ts:53-70 | the forbidden modules are the eight client stores, in the old tree and the new |
| `SsrGuard.WalkableIff` | frontend/server/check-no-signal-store-in-ssr.ts:75-80 | a module is walked unless it is one of them or lies under islands in either tree |
| `SsrGuard.Expand` | frontend/server/check-no-signal-store-in-ssr.ts:211-224 | one module's forbidden imports are reported each once, in order, with a real chain; its walkable imports are visited or pushed |
| `SsrGuard.WalkComplete` | frontend/server/check-no-signal-store-in-ssr.ts:201-226 | with an empty stack the visited modules are exactly the reachable ones, none twice |
| `SsrGuard.Walk` | frontend/server/check-no-signal-store-in-ssr.ts:201-226 | the walk ends, and reports each forbidden import of each reachable module exactly once |
| `SsrGuard.FindSsrSignalStoreLeaks` | frontend/server/check-no-signal-store-in-ssr.ts:193-229 | the report is the concatenation of such walks in entry order |
| `SsrGuard.ReportedIffReachable` | frontend/server/check-no-signal-store-in-ssr.ts:193-229 | an entry is reported for a forbidden module if and only if an import chain through modules that are neither islands nor forbidden leads there; every reported chain is one |
| `SsrGuard.ChainIsReported` | frontend/server/check-no-signal-store-in-ssr.ts:193-229 | completeness for one entry: any such chain yields a report |
| `DuplicateGuard.Expand` | frontend/server/check-no-duplicate-lib-state.ts:212-233 | one module's live twins are recorded unless their key already is, its other imports seen once |
| `DuplicateGuard.WalkComplete` | frontend/server/check-no-duplicate-lib-state.ts:204-235 | when all seen modules are expanded, every twin reachable from the entry has its key recorded |
| `DuplicateGuard.Walk` | frontend/server/check-no-duplicate-lib-state.ts:204-235 | the walk ends with that, keeping earlier findings |
| `DuplicateGuard.Sort` | frontend/server/check-no-duplicate-lib-state.ts:237-241 | the sorted findings are a permutation |
| `DuplicateGuard.SortSorted` | frontend/server/check-no-duplicate-lib-state.ts:237-241 | they are ordered by twin, then entry, under any total order |
| `DuplicateGuard.FindDuplicateLibState` | frontend/server/check-no-duplicate-lib-state.ts:195-243 | every finding is a real chain to a live twin, one per key, every reachable key is there, sorted |
| `DuplicateGuard.AllReportedIffNoCollision` | frontend/server/check-no-duplicate-lib-state.ts:195-243 | every duplicated pair is reported if and only if no two share a key; only duplicated pairs are, none twice |
| `DuplicateGuard.PlainNamesDoNotCollide` | frontend/server/check-no-duplicate-lib-state.ts:218 | entries whose paths hold no `->` never share a key |
| `DuplicateGuard.PlainEntriesReportExactly` | frontend/server/check-no-duplicate-lib-state.ts:195-243 | on such entries the report names exactly the duplicated pairs |
| `DuplicateGuard.EntriesNeverCollideIff` | frontend/server/check-no-duplicate-lib-state.ts:218 | given the entries alone, no imports and live twins make pairs collide if and only if no entry's path continues another's after `->` |
| `DuplicateGuard.ArrowNamesCollide` | frontend/server/check-no-duplicate-lib-state.ts:218 | counterexample family: for any a, b, c a graph in which the pairs (a, b->c) and (a->b, c) are both duplicated and no report names both |
| `DuplicateGuard.ArrowReport` | frontend/server/check-no-duplicate-lib-state.ts:195-243 | the guard run on one such graph leaves a duplicated pair out |
| `AlertStore.MemoryStore.constructor` | backend/internal/alerting/store.go:69-73 | a new store is empty |
| `AlertStore.MemoryStore.Append` | backend/internal/alerting/store.go:89-96 | the history gains the event and keeps its newest 10000 |
| `AlertStore.MemoryStore.Record` | backend/internal/alerting/store.go:76-99 | numbering, stamping, activation and append are the specified step |
| `AlertStore.MemoryStore.Resolve` | backend/internal/alerting/store.go:201-230 | an inactive fingerprint changes nothing; an active one leaves with a numbered resolved copy |
| `AlertStore.MemoryStore.PruneHistory` | backend/internal/alerting/store.go:237-246 | exactly the events older than the cutoff go, and are counted |
| `AlertStore.MemoryStore.PruneActive` | backend/internal/alerting/store.go:250-255 | exactly the active alerts older than the cutoff go, and are counted |
| `AlertStore.MemoryStore.Prune` | backend/internal/alerting/store.go:233-258 | both, and the result is what was lost from the two together |
| `AlertStore.ProcessWebhook` | backend/internal/alerting/webhook.go:41-100 | the store has ingested the alerts in order and the actions are one per firing or resolved alert, in order; other statuses do nothing |
| `AlertStore.PayloadIsSteps` | backend/internal/alerting/webhook.go:41-100 | a payload is the run of its alerts |
| `AlertStore.ActionAt` | backend/internal/alerting/webhook.go:41-100 | each firing or resolved alert has its action, in order, of its kind and with the alert's own labels and times |
| `AlertStore.LoggedFromAlert` | backend/internal/alerting/webhook.go:44-96 | every event in the log of every run is that of one of its alerts: same fingerprint, status and end, stamped with the alert's time, a firing one with the fields its labels give |
| `AlertStore.AlertIsLoggedIff` | backend/internal/alerting/store.go:201-230 | an alert adds an event if and only if it is firing, or resolved with its fingerprint active |
| `AlertStore.AfterKeepsInv` | backend/internal/alerting/store.go:76-258 | every record, resolve and prune keeps the store invariant |
| `AlertStore.StoreInvariant` | backend/internal/alerting/store.go:76-258 | after every run the history is within the cap, in issue order and only of issued events; an active entry is firing, filed under its fingerprint and the last event issued for it |
| `AlertStore.OnlyTheCapEvicts` | backend/internal/alerting/store.go:88-96 | without prunes the history is the newest 10000 events of the log, or all of them |
| `AlertStore.KeptIff` | backend/internal/alerting/store.go:237-246 | a prune keeps exactly the events that are not older than the cutoff |
| `AlertStore.PruneKeepsIff` | backend/internal/alerting/store.go:233-258 | in every run, a prune leaves in the history exactly the events received at or after its cutoff |
| `AlertStore.ResolvedAnswersFiring` | backend/internal/alerting/store.go:201-230 | each resolved event in every log copies an earlier firing event of its fingerprint, with none of it in between |
| `AlertStore.ActiveIffFiring` | backend/internal/alerting/store.go:76-258 | a fingerprint is active, since a given time, exactly as its own alerts and the prunes say; other fingerprints and the cap play no part |
| `AlertStore.ActiveIffLastWasFiring` | backend/internal/alerting/store.go:76-258 | unless a later prune reaches it, a fingerprint is active if and only if its last alert was firing |
| `Decimal.DigitsOrder` | backend/internal/alerting/store.go:157 | numbers with equally many digits order as their texts |
| `Decimal.StrLessIff` | backend/internal/alerting/store.go:157 | the order of ids: a text is less if and only if, after a common start, it ends or has the smaller character |
| `Decimal.ConsecutiveIdsOrder` | backend/internal/alerting/store.go:81 | consecutive ids order as strings if and only if the second is no power of ten |
| `Decimal.IntRoundTrip` | backend/internal/alerting/store.go:138-193 | a formatted number parses back if and only if it fits 64 bits |
| `AlertPages.CursorRoundTrip` | backend/internal/alerting/store.go:130-194 | a cursor's text parses back to the cursor if and only if its time fits 64 bits |
| `AlertPages.Scan` | backend/internal/alerting/store.go:148-186 | the loop returns the first limit + 1 matching events past the cursor, newest first |
| `AlertPages.ListMemory` | backend/internal/alerting/store.go:120-198 | limit default, token decoding and its errors, page and next token are the specified page |
| `AlertPages.SelectMeans` | backend/internal/alerting/store.go:148-186 | without a cursor the scan selects the history backwards, filtered |
| `AlertPages.MatchesIff` | backend/internal/alerting/store.go:162-180 | an event passes the filters if and only if every option that is set agrees with it, a name by inclusion and the two times inclusively |
| `AlertPages.FirstPageMeans` | backend/internal/alerting/store.go:120-198 | a first page is the wanted events newest first, as many as asked for or 50, with a token if and only if there are more |
| `Decimal.ParseIntIff` | backend/internal/alerting/store.go:138-141 | a text parses, to its value, if and only if it is an optional sign and decimal digits whose value fits 64 bits |
| `AlertPages.TokenRefusedIff` | backend/internal/alerting/store.go:129-146 | a list call is refused if and only if its token is not base64 or what stands before its first colon is not a 64-bit number |
| `AlertPages.SelectPast` | backend/internal/alerting/store.go:153-160 | past an event's cursor a window shows exactly what precedes that event |
| `AlertPages.FollowFromPlace` | backend/internal/alerting/store.go:120-198 | following tokens from a place returns what lies before it, down to what was evicted |
| `AlertPages.WalkReturnsSnapshot` | backend/internal/alerting/store.go:120-198 | for every filter and limit, while events come and go between pages, a walk ends and returns each matching event of the first page's history once, newest first, down to what was evicted meanwhile |
| `AlertPages.IncreasingWalksExactly` | backend/internal/alerting/store.go:120-198 | with increasing keys every walk over a fixed history is exact |
| `AlertPages.PaginationExactIff` | backend/internal/alerting/store.go:120-198 | pagination is exact for all filters and limits if and only if the keys strictly increase |
| `AlertPages.KeysIncreaseIff` | backend/internal/alerting/store.go:81-157 | with a monotone clock the keys increase if and only if no two consecutive events with equal times straddle a power of ten |
| `AlertPages.LogIsChronological` | backend/internal/alerting/store.go:76-230 | with a monotone clock the log of a run is in time order |
| `AlertPages.HistoryIsWindow` | backend/internal/alerting/store.go:76-258 | the history is always the newest part of the log |
| `AlertPages.WindowsMoveForward` | backend/internal/alerting/store.go:76-258 | over a run both ends of that part only move forward |
| `AlertPages.StoreHistoriesAreWindows` | backend/internal/alerting/store.go:76-258 | the histories a client meets at later and later points of any run are windows of the run's log that only move forward |
| `AlertPages.LogIncreasesIff` | backend/internal/alerting/store.go:76-230 | from any place of a run's log on, the keys increase if and only if no tie falls on a power of ten there |
| `AlertPages.StorePaginationExactIff` | backend/internal/alerting/store.go:76-258 | after every run with a monotone clock, paging the store's history is exact for all filters and limits if and only if no two neighbours tie across a power of ten |
| `AlertPages.StoreWalkReturnsSnapshot` | backend/internal/alerting/store.go:76-258 | a client paging the store during any run gets, if no such tie falls from its first page's oldest event on, exactly the matching events its first page's history had, newest first and each once, down to what was evicted or pruned meanwhile |
| `AlertPages.TenAlertsAtOnce` | backend/internal/alerting/store.go:76-198 | counterexample run: ten firing alerts at one clock reading, then paging one by one is not exact |
| `EmailLimiter.Notifier.constructor` | backend/internal/alerting/notifier.go:76-89 | a new notifier has admitted nothing |
| `EmailLimiter.Notifier.CheckGlobalRate` | backend/internal/alerting/notifier.go:247-262 | verdict and new counters are the specified ones |
| `EmailLimiter.Notifier.CheckCooldown` | backend/internal/alerting/notifier.go:234-245 | verdict and new cooldown entry are the specified ones |
| `EmailLimiter.Notifier.CleanupCooldowns` | backend/internal/alerting/notifier.go:222-232 | exactly the expired entries go |
| `EmailLimiter.Notifier.QueueAlert` | backend/internal/alerting/notifier.go:115-149 | order of the checks: a resolved alert skips the cooldown, a cooled-down one does not spend the hourly limit, and a drop after both checks gives neither back |
| `EmailLimiter.HourAdmitsAtMostTwiceLimit` | backend/internal/alerting/notifier.go:247-262 | in every run with a monotone clock every hour admits at most twice the limit |
| `EmailLimiter.HourAdmitsAtMost` | backend/internal/alerting/notifier.go:247-262 | from any state and reading, no continuation admits more in the next hour than the window has left, plus a full limit if the window ends inside that hour |
| `EmailLimiter.MostIsReached` | backend/internal/alerting/notifier.go:247-262 | and some continuation admits exactly that many |
| `EmailLimiter.HourKeepsLimitIff` | backend/internal/alerting/notifier.go:247-262 | at any reading of any run, every continuation keeps the next hour to the limit if and only if the count is at the limit, or the window starts at that reading, or has ended by it |
| `EmailLimiter.TwiceLimitIsReached` | backend/internal/alerting/notifier.go:247-262 | counterexample: for every limit a run of a new notifier has an hour that admits exactly twice the limit |
| `EmailLimiter.CooldownSpacesAdmissions` | backend/internal/alerting/notifier.go:222-245 | two admissions of one fingerprint are at least 15 minutes apart, however the cleaner runs |
| `EmailLimiter.CooldownAdmitsIff` | backend/internal/alerting/notifier.go:234-245 | at any point of any run an alert passes the cooldown if and only if its fingerprint has not passed before or last did at least 15 minutes ago |
| `EmailLimiter.CleanupKeepsYoung` | backend/internal/alerting/notifier.go:222-232 | a cleaning leaves exactly the entries younger than 15 minutes |
| `EmailLimiter.CleanupsAreInvisible` | backend/internal/alerting/notifier.go:222-262 | removing or adding cleanings anywhere in a run changes no verdict |
| `PathSafety.DecodeShrinks` | frontend/server/path-safety.ts:64-83 | decoding leaves a text without escapes alone and strictly shortens any other it accepts |
| `PathSafety.Utf8Means` | frontend/server/path-safety.ts:70-76 | lead and continuation octets and payload bits of every scalar value, in the shortest form |
| `PathSafety.Utf16Means` | frontend/server/path-safety.ts:70-76 | one unit, or a surrogate pair that adds up to the value |
| `PathSafety.DecodeUndoesEncode` | frontend/server/path-safety.ts:70-76 | every text spelled from characters and escaped UTF-8, digits in either case, decodes to what it spells |
| `PathSafety.DecodeIff` | frontend/server/path-safety.ts:70-76 | a text decodes to a result if and only if it is spelled so; malformed, overlong and surrogate escapes have no reading |
| `PathSafety.BadIsUnsafe` | frontend/server/path-safety.ts:40-93 | the pattern matches if and only if one of `..`, `//`, `%2e`, `%2f`, in either case, stands somewhere in the text |
| `PathSafety.DecodingEnds` | frontend/server/path-safety.ts:64-83 | after as many passes as the text is long, repeated decoding is undefined or free of escapes |
| `PathSafety.FormsComplete` | frontend/server/path-safety.ts:64-83 | once a pass changes nothing, the forms collected are all there will ever be |
| `PathSafety.DecodedForms` | frontend/server/path-safety.ts:64-83 | the loop returns all forms of the path, or nothing exactly where eight passes cannot reduce it |
| `PathSafety.HasTraversal` | frontend/server/path-safety.ts:89-93 | a path is let through if and only if every one of its unboundedly many decodings is defined and free of the four patterns, and eight passes reduce it |
| `PendingCaptures.ParseOfStringify` | frontend/lib/incident-create.ts:145-230 | a stored record reads back unchanged if and only if it is well formed |
| `PendingCaptures.ReadBackIsRepaired` | frontend/lib/incident-create.ts:145-195 | what any record reads back as: empty options and numbers JSON cannot carry are lost, the creation time becomes 0, and without a request id there is no record |
| `PendingCaptures.CaptureStore.ReadPendingCapture` | frontend/lib/incident-create.ts:208-216 | the fallback wins over storage, and a tombstone over nothing is dropped |
| `PendingCaptures.CaptureStore.WritePendingCapture` | frontend/lib/incident-create.ts:218-230 | storage or, if it refuses, the fallback holds the record |
| `PendingCaptures.CaptureStore.ClearPendingCapture` | frontend/lib/incident-create.ts:232-242 | the record goes or, if storage refuses, a tombstone covers it |
| `PendingCaptures.CaptureStore.ClearPendingCaptures` | frontend/lib/incident-create.ts:250-265 | the loop does so for every key, each refusal by itself |
| `PendingCaptures.ApplyLookup` | frontend/lib/incident-create.ts:198-265 | what each operation does to what any key reads |
| `PendingCaptures.BehavesAsPlainMap` | frontend/lib/incident-create.ts:143-265 | over every sequence of operations, with storage refusing at will, a read returns the last record written and not cleared |
| `PendingCaptures.IllFormedWrite` | frontend/lib/incident-create.ts:145-230 | a record survives its own write if and only if it is well formed or storage refused it |
| `PendingCaptures.TombstonesShadowSomething` | frontend/lib/incident-create.ts:208-216 | after a read a tombstone is left only over a readable record |
| `CapabilityCache.Cache.constructor` | frontend/lib/capabilities.ts:36-43 | a new cache is empty in its epoch |
| `CapabilityCache.Cache.SyncCacheEpoch` | frontend/lib/capabilities.ts:50-57 | entries of another epoch are dropped |
| `CapabilityCache.Cache.FetchCapabilities` | frontend/lib/capabilities.ts:70-80 | a hit is served without a request, a miss sends one |
| `CapabilityCache.Cache.Complete` | frontend/lib/capabilities.ts:80-97 | an answer for another cluster fails; one from before a switch is returned and not stored |
| `CapabilityCache.KeyInjective` | frontend/lib/capabilities.ts:45-47 | keys identify cluster and generation while cluster ids hold no NUL |
| `CapabilityCache.PlainTargetsApart` | frontend/lib/capabilities.ts:45-47 | so targets with NUL-free cluster ids never share a key |
| `CapabilityCache.RunKeepsInv` | frontend/lib/capabilities.ts:42-97 | in every run over targets with different keys, each entry is backed by an answer asked and received in the cache's epoch |
| `CapabilityCache.HitsAreCurrent` | frontend/lib/capabilities.ts:42-97 | in every interleaving over such targets each hit hands out an answer for its cluster and generation, asked and received in the epoch of the hit and less than 30 s old |
| `CapabilityCache.WrongHit` | frontend/lib/capabilities.ts:42-97 | any two targets with one key: a run in which the second is served the first one's answer |
| `CapabilityCache.HitsAreCurrentIff` | frontend/lib/capabilities.ts:42-97 | for any set of targets, all hits of all runs over it are current if and only if no two of them share a key |
| `CapabilityCache.NulClustersCollide` | frontend/lib/capabilities.ts:45-97 | counterexample family: cluster ids with a NUL that share a key, and the wrong hit that follows |
| `CapabilityCache.FreshAnswerIsReused` | frontend/lib/capabilities.ts:70-97 | an answer received in its epoch serves the next fetch within 30 s without a request |
| `CapabilityCache.OwnAnswerIsServed` | frontend/lib/capabilities.ts:80-97 | a caller gets the answer to its own request if it is about its cluster, switch or no switch, and nothing otherwise |
| `CapabilityCache.MissSendsRequest` | frontend/lib/capabilities.ts:71-84 | a fetch without an unexpired answer of its epoch sends a request for its target under that epoch, and serves nothing yet |
| `TokenRefresh.Transport.StartOrJoinRefresh` | frontend/lib/api.ts:181-188 | a running refresh is joined, otherwise one is started |
| `TokenRefresh.Transport.EndRefresh` | frontend/lib/api.ts:146-175 | a refresh that ends sets the token, or leaves it, while it still holds the slot |
| `TokenRefresh.Transport.FreeSlot` | frontend/lib/api.ts:181-188 | the callback that follows frees the slot and settles the verdict for all waiters; a call that came between joined the ended refresh |
| `TokenRefresh.Transport.Send` | frontend/lib/api.ts:273-307 | the call's cluster is decided and it joins a running refresh or fetches |
| `TokenRefresh.Transport.OnJoined` | frontend/lib/api.ts:302-307 | after the joined refresh the first fetch goes out with the token then held |
| `TokenRefresh.Transport.OnFetch` | frontend/lib/api.ts:307-324 | a 401 leads to one refresh or the end of the session, anything else ends the call |
| `TokenRefresh.Transport.OnRefreshed` | frontend/lib/api.ts:313-323 | the one retry, or the end of the session |
| `TokenRefresh.StepKeepsInv` | frontend/lib/api.ts:146-324 | every event keeps the single-flight invariant and each call's account |
| `TokenRefresh.RunKeepsInv` | frontend/lib/api.ts:146-324 | hence every run does |
| `TokenRefresh.SharedRefresh` | frontend/lib/api.ts:181-324 | in every interleaving at most one refresh is unsettled, joiners of one see one verdict, a call makes at most two fetches, the second only after a refresh it saw succeed, all to the cluster it was issued for |
| `TokenRefresh.TargetIsFixed` | frontend/lib/api.ts:273-324 | later switches, refreshes and calls never move a call's cluster |
| `TokenRefresh.NewCallFetchesOrJoins` | frontend/lib/api.ts:302-307 | a new call fetches at once with the token held, or joins the running refresh if there is none |
| `TokenRefresh.NewFetchCarriesToken` | frontend/lib/api.ts:280-300 | whatever happens, a call gains at most one fetch, to its own cluster and with the token then held |
| `TokenRefresh.FirstAnswerMeans` | frontend/lib/api.ts:307-324 | a first 401 starts a refresh or joins the running one; any other status is the call's answer |
| `TokenRefresh.UnauthorizedCallRetries` | frontend/lib/api.ts:312-324 | a call met with a 401 fetches once more with the token its refresh brings, or ends the session if it brings none |
| `TokenRefresh.FailedJoinEndsSession` | frontend/lib/api.ts:302-323 | in every interleaving a call that joined a failed refresh sees no other verdict, fetches at most once and never waits for a second refresh; a 401 ends its session without starting one |
| `KeyLine.KeyEndIsMatch` | frontend/lib/secret-yaml-mask.ts:4-5 | the scan finds a key's end exactly where the backtracking regular expression matches |
| `KeyLine.EscapedCharIff` | frontend/lib/secret-yaml-mask.ts:5 | in a double-quoted key a backslash takes any character but the four line terminators |
| `KeyLine.ClosedKeyIsStable` | frontend/lib/secret-yaml-mask.ts:4-5 | no value after the colon moves a key without an open quote |
| `KeyLine.OpenKeyIsUnstable` | frontend/lib/secret-yaml-mask.ts:4-5 | some value moves any other key |
| `KeyLine.ValueCannotMoveKeyIff` | frontend/lib/secret-yaml-mask.ts:4-5 | the key is independent of the value if and only if it leaves no quote open |
| `KeyLine.QuotelessKeyIsStable` | frontend/lib/secret-yaml-mask.ts:4-5 | a value without quotes never moves a key, open quote or not |
| `SecretMask.MaskOne` | frontend/lib/secret-yaml-mask.ts:17-39 | one turn of the loop is the specified line step |
| `SecretMask.MaskEach` | frontend/lib/secret-yaml-mask.ts:14-39 | the loop is the run of line steps |
| `SecretMask.MaskSecretYaml` | frontend/lib/secret-yaml-mask.ts:13-41 | the masked text is that run over the split lines, joined |
| `SecretMask.JoinOfSplit` | frontend/lib/secret-yaml-mask.ts:17-40 | joining the split lines gives the text back |
| `SecretMask.SectionsAreIndependent` | frontend/lib/secret-yaml-mask.ts:21-38 | from a top-level line on, a text is masked as if it stood alone |
| `SecretMask.NoMapNoChange` | frontend/lib/secret-yaml-mask.ts:36-38 | a text without a data or stringData map comes out unchanged |
| `SecretMask.SecretValuesAreMasked` | frontend/lib/secret-yaml-mask.ts:3-41 | on texts: under a line `data:` or `stringData:`, whatever stands before and between, a key line at the map's indent comes out as its key and eight bullets, and for a key that leaves no quote open the whole output is the same for every value |
| `SecretMask.ExplicitValuesAreMasked` | frontend/lib/secret-yaml-mask.ts:29-30 | on texts: the value line of an explicit key comes out as a colon and eight bullets |
| `SecretMask.OtherLinesAreDropped` | frontend/lib/secret-yaml-mask.ts:21-24 | on texts: a line of the map at another indent, or a comment, leaves no trace in the output |
| `SecretMask.OnlyHeadersOpenMaps` | frontend/lib/secret-yaml-mask.ts:36-38 | on texts: a line at the margin that is neither header leaves what follows as it is |
| `SecretMask.Noninterference` | frontend/lib/secret-yaml-mask.ts:13-41 | texts that differ only in values and dropped lines have the same output |
| `SecretMask.OtherValueIsAlike` | frontend/lib/secret-yaml-mask.ts:31-34 | two values of one key with no open quote differ only so |
| `SecretMask.ValueIsHidden` | frontend/lib/secret-yaml-mask.ts:13-41 | changing the value of such a key anywhere in a text leaves the output unchanged |
| `SecretMask.LineIsHiddenIff` | frontend/lib/secret-yaml-mask.ts:17-39 | no value of a key changes what its line shows if and only if the key leaves no quote open |
| `SecretMask.ValueIsHiddenIff` | frontend/lib/secret-yaml-mask.ts:13-41 | wherever the line stands in a text, no value of its key changes the output if and only if the key leaves no quote open |
| `SecretMask.OpenQuoteUnderData` | frontend/lib/secret-yaml-mask.ts:3-5 | a key line under `data:` that leaves its quote open and meets every other condition of the equivalence |
| `SecretMask.OpenQuoteShowsValue` | frontend/lib/secret-yaml-mask.ts:13-41 | counterexample text: the outputs for two values of that key, which differ |
| `SecretMask.MaskKeepsKeysAndIsFinal` | frontend/lib/secret-yaml-mask.ts:7-41 | for every text the output has the same keys and outside lines in the same order, and masking it again changes nothing |

## Left out

- The rest of the repository: pages, islands, wizards, end-to-end tests, deployment files, the Kubernetes, Flux, policy and monitoring handlers of the back end; most are calls into other systems.
- ApplyProtocol.SameIdSameRequest: with the other theorems over runs of the tab, takes the digest as a parameter that is collision-free on the requests of the run, and minted ids as new; that SHA-256 has no collisions is not provable.
- ApplyProtocol.Tab.HandleApply: one editor is mounted at a time; two editors on one storage are modelled only through remounts and late answers.
- PreviewPin.PinnedAppliesFollowPreview: is about the cluster addressed; that the text applied is the text previewed is not promised by the code and not modelled.
- PendingDigest.Sha256Hex: starts from bytes; the UTF-8 encoding of the string is the platform's.
- RefreshPoller.DeadlineEndsRun: assumes, with the other theorems over runs of the poller, a page that makes no request while the poller runs, a clock that does not run backwards and poll timers that are not early; DeadlineEndsRunIff assumes none of it.
- RefreshObserver.Explain: timestamps are already parsed numbers; `Date.parse` and the user-facing wording (`describeObserver`) are not modelled.
- WsBridge.Bridge.HandleBackendOpen: the ready state and the flush change in one step; upgrade, headers, path allowlist and TLS are not modelled.
- WsBridge.CountingRun: assumes, with the other theorems about time, timers that are never early and at most a given lag late, for any lag; the interval is re-armed from the moment it fires.
- WsBridge.RelayIsOrderedAndBounded: speaks of messages handed to a socket's send, not of delivery.
- SsrGuard.FindSsrSignalStoreLeaks: the import graph is given and finite; reading files, extracting import specifiers and resolving paths are not modelled.
- DuplicateGuard.FindDuplicateLibState: which twins are live and stateful is given; `localeCompare` is any total order and the array sort a stable insertion sort.
- AlertStore.ProcessWebhook: a resolved alert and its action share one clock reading; store errors cannot occur in the memory store.
- AlertStore.MemoryStore.Record: event numbers are unbounded; the 64-bit wrap-around after 2^63 events is not modelled. `ActiveAlerts`' sort, locking and the hourly pruner loop are left out.
- AlertPages.ListMemory: tokens are the text inside the base64 wrapping, with a token that is not base64 as an error case; lower-casing is a parameter. A token time equal to Go's zero time cannot arise from a 64-bit nanosecond count and is not modelled.
- EmailLimiter.Notifier.QueueAlert: rendering and the queue's free space are one boolean; sending, retrying, test emails and the queue itself are left out.
- EmailLimiter.HourAdmitsAtMostTwiceLimit: assumes a clock that does not run backwards, as do the other theorems over runs of the limiter and those over runs of the alert store.
- PendingCaptures.ParseOfStringify: JSON is a value tree; its spelling and storage reads that throw are left out.
- CapabilityCache.HitsAreCurrent: is about answers from the cache; an answer that arrives after a switch still goes to the caller that asked for it, as in the code.
- TokenRefresh.Transport.EndRefresh: the refresh call's timeout and network error are one failed end; error bodies and the 403 callback are left out.
- SecretMask.MaskSecretYaml: text is a sequence of Unicode scalar values; lone surrogates are not represented.
