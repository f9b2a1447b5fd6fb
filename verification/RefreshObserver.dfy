/** The refresh-outcome reducer (frontend/lib/eso-refresh-observer.ts), and what its phases mean over whole event traces. */
module RefreshObserver {

  import opened Options

  datatype Correlation = Strong | Weak

  /** The pre-patch observation. Timestamps are milliseconds, None when absent or unparsable. */
  datatype Baseline = Baseline(uid: string, resourceVersion: string, refreshTime: Option<int>,
                               syncedResourceVersion: Option<string>, requestedAt: Option<int>)

  datatype Sample = Sample(uid: string, status: string, lastSyncTime: Option<int>,
                           syncedResourceVersion: Option<string>,
                           readyReason: Option<string>, readyMessage: Option<string>)

  datatype Phase =
    | Idle | Requested | AwaitingObservation
    | ObservedSuccess | ObservedFailure | Timeout | Cancelled | AccessLost | TargetChanged

  datatype Outcome = Outcome(reason: Option<string>, message: Option<string>, attributable: bool)

  datatype ObserverState = ObserverState(
    phase: Phase, baseline: Option<Baseline>, correlation: Option<Correlation>, priorStatus: Option<string>,
    attempt: nat, consecutiveErrors: nat, deadlineMs: Option<int>, observationUnavailable: bool,
    outcome: Option<Outcome>)

  datatype ObserverEvent =
    | Request
    | RequestFailed
    | Accepted(baseline: Baseline, correlation: Correlation, priorStatus: Option<string>, nowMs: int)
    | Sampled(sample: Sample, nowMs: int)
    | Forbidden
    | NotFound
    | Error
    | ClusterChanged
    | Tick(nowMs: int)
    | Cancel

  const OBSERVE_TIMEOUT_MS: int := 90_000
  const MAX_CONSECUTIVE_ERRORS: nat := 3

  const INITIAL: ObserverState :=
    ObserverState(Idle, None, None, None, 0, 0, None, false, None)

  predicate IsTerminal(p: Phase)
  {
    p in {ObservedSuccess, ObservedFailure, Timeout, Cancelled, AccessLost, TargetChanged}
  }

  predicate IsNewEvidence(b: Baseline, s: Sample, c: Correlation)
  {
    if c.Strong? then
      b.refreshTime.Some? && s.lastSyncTime.Some? && s.lastSyncTime.value > b.refreshTime.value
    else
      && s.syncedResourceVersion.Some? && s.syncedResourceVersion.value != ""
      && s.syncedResourceVersion != b.syncedResourceVersion
  }

  predicate IsNewFailure(prior: Option<string>, s: Sample)
  {
    s.status == "SyncFailed" && prior != Some("SyncFailed")
  }

  predicate Expired(st: ObserverState, nowMs: int)
  {
    st.deadlineMs.Some? && nowMs >= st.deadlineMs.value
  }

  function ApplySample(st: ObserverState, s: Sample, nowMs: int): ObserverState
  {
    if st.baseline.None? || st.correlation.None? then st
    else if s.uid != st.baseline.value.uid then st.(phase := TargetChanged)
    else
      var polled := st.(attempt := st.attempt + 1, consecutiveErrors := 0);
      if Expired(polled, nowMs) then polled.(phase := Timeout)
      else if IsNewEvidence(st.baseline.value, s, st.correlation.value) then
        if s.status == "SyncFailed"
        then polled.(phase := ObservedFailure,
                     outcome := Some(Outcome(s.readyReason, s.readyMessage, st.correlation == Some(Strong))))
        else polled.(phase := ObservedSuccess)
      else if IsNewFailure(st.priorStatus, s)
      then polled.(phase := ObservedFailure, outcome := Some(Outcome(s.readyReason, s.readyMessage, false)))
      else polled
  }

  function ReduceAwaiting(st: ObserverState, e: ObserverEvent): ObserverState
  {
    match e
    case Sampled(sample, nowMs) => ApplySample(st, sample, nowMs)
    case Forbidden => st.(phase := AccessLost)
    case NotFound => st.(phase := TargetChanged)
    case Error =>
      var n := st.consecutiveErrors + 1;
      if n >= MAX_CONSECUTIVE_ERRORS
      then st.(consecutiveErrors := n, phase := Timeout, observationUnavailable := true)
      else st.(consecutiveErrors := n, attempt := st.attempt + 1)
    case Tick(nowMs) => if Expired(st, nowMs) then st.(phase := Timeout) else st
    case _ => st
  }

  function ReduceObserver(st: ObserverState, e: ObserverEvent): ObserverState
  {
    if e.Request? then INITIAL.(phase := Requested)
    else if IsTerminal(st.phase) || st.phase.Idle? then st
    else match e
      case RequestFailed => if st.phase.Requested? then INITIAL else st
      case Accepted(baseline, correlation, priorStatus, nowMs) =>
        if !st.phase.Requested? then st
        else INITIAL.(phase := AwaitingObservation, baseline := Some(baseline), correlation := Some(correlation),
                      priorStatus := priorStatus, deadlineMs := Some(nowMs + OBSERVE_TIMEOUT_MS))
      case Cancel => st.(phase := Cancelled)
      case ClusterChanged => st.(phase := TargetChanged)
      case _ => if st.phase.AwaitingObservation? then ReduceAwaiting(st, e) else st
  }

  /** The state after a whole trace. */
  function Observe(es: seq<ObserverEvent>): ObserverState
  {
    if es == [] then INITIAL else ReduceObserver(Observe(es[..|es| - 1]), es[|es| - 1])
  }

  // --- Every reachable state is well formed ---

  predicate WellFormed(st: ObserverState)
  {
    && (st.phase.AwaitingObservation? ==>
          && st.baseline.Some? && st.correlation.Some? && st.deadlineMs.Some?
          && st.consecutiveErrors < MAX_CONSECUTIVE_ERRORS && st.outcome.None? && !st.observationUnavailable)
    && (st.outcome.Some? ==> st.phase.ObservedFailure?)
    && (st.outcome.Some? && st.outcome.value.attributable ==> st.correlation == Some(Strong))
    && (st.observationUnavailable ==> st.phase.Timeout? && st.consecutiveErrors == MAX_CONSECUTIVE_ERRORS)
    && (st.phase.Idle? ==> st == INITIAL)
    && (st.phase.Requested? ==> st == INITIAL.(phase := Requested))
  }

  lemma {:induction false} ReachableIsWellFormed(es: seq<ObserverEvent>)
    ensures WellFormed(Observe(es))
  {
    if es != [] { ReachableIsWellFormed(es[..|es| - 1]); }
  }

  /** A terminal outcome is left only by a new request: nothing that arrives later can overwrite it. */
  lemma {:induction false} TerminalIsFinal(es: seq<ObserverEvent>, later: seq<ObserverEvent>)
    requires IsTerminal(Observe(es).phase)
    requires forall i :: 0 <= i < |later| ==> !later[i].Request?
    ensures Observe(es + later) == Observe(es)
  {
    if later == [] {
      assert es + later == es;
    } else {
      var n := |later| - 1;
      TerminalIsFinal(es, later[..n]);
      assert (es + later)[..|es + later| - 1] == es + later[..n];
    }
  }

  // --- What each open phase means, in terms of the trace alone ---

  /** The request at r is still open: nothing after it answered, withdrew or repeated it. */
  predicate Pending(es: seq<ObserverEvent>, r: nat)
  {
    && r < |es| && es[r].Request?
    && forall k :: r < k < |es| ==>
         !es[k].Request? && !es[k].Accepted? && !es[k].RequestFailed? && !es[k].Cancel? && !es[k].ClusterChanged?
  }

  /** Failed reads since the last sample after the accept at `a`. */
  function ErrorsSince(es: seq<ObserverEvent>, a: nat): nat
    requires a < |es|
  {
    var n := |es| - 1;
    if n == a || es[n].Sampled? then 0
    else ErrorsSince(es[..n], a) + if es[n].Error? then 1 else 0
  }

  /**
    * The sample shows a reconcile the request can have caused: with a strong correlation a sync time strictly later
    * than the baseline's, both present; with a weak one a synced version that is there and is another.
    */
  predicate Moved(acc: ObserverEvent, s: Sample)
    requires acc.Accepted?
  {
    match acc.correlation
    case Strong => match (acc.baseline.refreshTime, s.lastSyncTime) {
      case (Some(before), Some(after)) => before < after
      case _ => false
    }
    case Weak => match (s.syncedResourceVersion, acc.baseline.syncedResourceVersion) {
      case (Some(now), Some(before)) => |now| > 0 && now != before
      case (Some(now), None) => |now| > 0
      case _ => false
    }
  }

  /** The sample has failed and the object had not, as far as was known. */
  predicate TurnedBad(acc: ObserverEvent, s: Sample)
    requires acc.Accepted?
  {
    s.status == "SyncFailed" && (acc.priorStatus.Some? ==> acc.priorStatus.value != "SyncFailed")
  }

  /** Event `e` leaves an observation accepted by `acc` open, when `errors` reads have failed since the last sample. */
  predicate LeavesOpen(acc: ObserverEvent, errors: nat, e: ObserverEvent)
    requires acc.Accepted?
  {
    match e
    case Request => false
    case Cancel => false
    case ClusterChanged => false
    case Forbidden => false
    case NotFound => false
    case Accepted(_, _, _, _) => true
    case RequestFailed => true
    case Tick(nowMs) => nowMs < acc.nowMs + 90_000
    case Error => errors < 2
    case Sampled(s, nowMs) =>
      s.uid == acc.baseline.uid && nowMs < acc.nowMs + 90_000 && !Moved(acc, s) && !TurnedBad(acc, s)
  }

  /** The request at r was accepted at a and its observation is still open. */
  predicate Waiting(es: seq<ObserverEvent>, r: nat, a: nat)
  {
    && a < |es| && Pending(es[..a], r) && es[a].Accepted?
    && forall k :: a < k < |es| ==> LeavesOpen(es[a], ErrorsSince(es[..k], a), es[k])
  }

  /** A sample that shows the outcome: same object, before the deadline, moved against the baseline, not failed. */
  predicate ShowsSuccess(acc: ObserverEvent, e: ObserverEvent)
    requires acc.Accepted?
  {
    && e.Sampled? && e.sample.uid == acc.baseline.uid && e.nowMs < acc.nowMs + 90_000
    && Moved(acc, e.sample) && e.sample.status != "SyncFailed"
  }

  /** What the event that ends an open observation means for it. */
  function Verdict(acc: ObserverEvent, e: ObserverEvent): Phase
    requires acc.Accepted?
  {
    match e
    case Cancel => Cancelled
    case Forbidden => AccessLost
    case Error => Timeout
    case Tick(_) => Timeout
    case Sampled(s, nowMs) =>
      if s.uid != acc.baseline.uid then TargetChanged
      else if nowMs >= acc.nowMs + 90_000 then Timeout
      else if s.status == "SyncFailed" then ObservedFailure
      else ObservedSuccess
    case _ => TargetChanged
  }

  /** A failure carries the sample's words; it is the request's own only if a strongly correlated reconcile shows it. */
  function OutcomeOf(acc: ObserverEvent, e: ObserverEvent): Option<Outcome>
    requires acc.Accepted?
  {
    if Verdict(acc, e).ObservedFailure?
    then Some(Outcome(e.sample.readyReason, e.sample.readyMessage,
                      acc.correlation.Strong? && Moved(acc, e.sample)))
    else None
  }

  predicate NoRequestAfter(es: seq<ObserverEvent>, s: nat) { forall k :: s < k < |es| ==> !es[k].Request? }

  /** The latest request, at r, was accepted at a and its observation ended at s. */
  predicate SettledAt(es: seq<ObserverEvent>, r: nat, a: nat, s: nat)
  {
    && s < |es| && Waiting(es[..s], r, a) && !es[s].Request?
    && !LeavesOpen(es[a], ErrorsSince(es[..s], a), es[s]) && NoRequestAfter(es, s)
  }

  /** The latest request, at r, was withdrawn at s before it was answered. */
  predicate WithdrawnAt(es: seq<ObserverEvent>, r: nat, s: nat)
  {
    s < |es| && Pending(es[..s], r) && (es[s].Cancel? || es[s].ClusterChanged?) && NoRequestAfter(es, s)
  }

  /** The latest request, at r, was accepted at a and its first decisive event, at s, shows success. */
  predicate Succeeded(es: seq<ObserverEvent>, r: nat, a: nat, s: nat)
  {
    && s < |es| && Waiting(es[..s], r, a) && ShowsSuccess(es[a], es[s])
    && forall k :: s < k < |es| ==> !es[k].Request?
  }

  function WaitingState(acc: ObserverEvent, attempt: nat, errors: nat): ObserverState
    requires acc.Accepted?
  {
    INITIAL.(phase := AwaitingObservation, baseline := Some(acc.baseline), correlation := Some(acc.correlation),
             priorStatus := acc.priorStatus, deadlineMs := Some(acc.nowMs + OBSERVE_TIMEOUT_MS),
             attempt := attempt, consecutiveErrors := errors)
  }

  lemma {:induction false} PendingState(es: seq<ObserverEvent>, r: nat)
    requires Pending(es, r)
    ensures Observe(es) == INITIAL.(phase := Requested)
  {
    var n := |es| - 1;
    if r < n {
      assert Pending(es[..n], r);
      PendingState(es[..n], r);
    }
  }

  /** One event at an open observation: what keeps it open, what settles it as a success. */
  lemma FromWaiting(acc: ObserverEvent, attempt: nat, errors: nat, e: ObserverEvent)
    requires acc.Accepted? && errors < MAX_CONSECUTIVE_ERRORS
    ensures var st' := ReduceObserver(WaitingState(acc, attempt, errors), e);
            var errors' := if e.Sampled? then 0 else if e.Error? then errors + 1 else errors;
            && (st'.phase.AwaitingObservation? <==> LeavesOpen(acc, errors, e))
            && (LeavesOpen(acc, errors, e) ==> errors' < MAX_CONSECUTIVE_ERRORS && st' == WaitingState(acc, st'.attempt, errors'))
            && (st'.phase.ObservedSuccess? <==> ShowsSuccess(acc, e))
            && (st'.phase.Requested? <==> e.Request?)
            && (!e.Request? && !LeavesOpen(acc, errors, e) ==>
                  && IsTerminal(st'.phase) && st'.phase == Verdict(acc, e)
                  && st'.outcome == OutcomeOf(acc, e) && st'.observationUnavailable == e.Error?)
  {
  }

  lemma {:induction false} WaitingStateHolds(es: seq<ObserverEvent>, r: nat, a: nat)
    requires Waiting(es, r, a)
    ensures Observe(es) == WaitingState(es[a], Observe(es).attempt, ErrorsSince(es, a))
    ensures ErrorsSince(es, a) < MAX_CONSECUTIVE_ERRORS
  {
    var n := |es| - 1;
    if a == n {
      PendingState(es[..a], r);
    } else {
      hide ReduceObserver, WaitingState, LeavesOpen;
      WaitingPrefix(es, r, a, n);
      WaitingStateHolds(es[..n], r, a);
      FromWaiting(es[a], Observe(es[..n]).attempt, ErrorsSince(es[..n], a), es[n]);
    }
  }

  lemma WaitingPrefix(es: seq<ObserverEvent>, r: nat, a: nat, n: nat)
    requires Waiting(es, r, a) && a < n <= |es|
    ensures Waiting(es[..n], r, a)
  {
    assert es[..n][..a] == es[..a];
    assert forall k :: a < k < n ==> es[..n][..k] == es[..k] && es[..n][k] == es[k];
  }

  lemma {:induction false} SucceededState(es: seq<ObserverEvent>, r: nat, a: nat, s: nat)
    requires Succeeded(es, r, a, s)
    ensures Observe(es).phase == ObservedSuccess
  {
    var n := |es| - 1;
    if s == n {
      hide ReduceObserver, WaitingState, LeavesOpen;
      WaitingStateHolds(es[..s], r, a);
      FromWaiting(es[a], Observe(es[..s]).attempt, ErrorsSince(es[..s], a), es[s]);
    } else {
      assert es[..n][..s] == es[..s];
      SucceededState(es[..n], r, a, s);
    }
  }

  /** From a phase back to the events that produced it. */
  lemma {:induction false} Explain(es: seq<ObserverEvent>) returns (r: nat, a: nat, s: nat)
    ensures Observe(es).phase.Requested? ==> Pending(es, r)
    ensures Observe(es).phase.AwaitingObservation? ==> Waiting(es, r, a)
    ensures Observe(es).phase.ObservedSuccess? ==> Succeeded(es, r, a, s)
  {
    r, a, s := 0, 0, 0;
    if es != [] {
      var n := |es| - 1;
      r, a, s := Explain(es[..n]);
      if es[n].Request? {
        r := n;
      } else if Observe(es[..n]).phase.Requested? {
        a := n;
        ExplainRequested(es, r);
      } else if Observe(es[..n]).phase.AwaitingObservation? {
        s := n;
        ExplainAwaiting(es, r, a);
      } else if Observe(es[..n]).phase.ObservedSuccess? {
        assert es[..n][..s] == es[..s];
      }
    }
  }

  lemma ExplainRequested(es: seq<ObserverEvent>, r: nat)
    requires es != [] && Pending(es[..|es| - 1], r) && !es[|es| - 1].Request?
    ensures Observe(es).phase.Requested? ==> Pending(es, r)
    ensures Observe(es).phase.AwaitingObservation? ==> Waiting(es, r, |es| - 1)
    ensures !Observe(es).phase.ObservedSuccess?
  {
    hide ReduceAwaiting, LeavesOpen, ErrorsSince;
    PendingState(es[..|es| - 1], r);
  }

  lemma WaitingExtends(es: seq<ObserverEvent>, r: nat, a: nat)
    requires es != [] && Waiting(es[..|es| - 1], r, a)
    requires LeavesOpen(es[a], ErrorsSince(es[..|es| - 1], a), es[|es| - 1])
    ensures Waiting(es, r, a)
  {
    hide LeavesOpen, ErrorsSince, Pending;
    var n := |es| - 1;
    assert es[..n][..a] == es[..a];
    assert forall k :: a < k < n ==> es[..n][..k] == es[..k] && es[..n][k] == es[k];
  }

  lemma ExplainAwaiting(es: seq<ObserverEvent>, r: nat, a: nat)
    requires es != [] && Waiting(es[..|es| - 1], r, a) && !es[|es| - 1].Request?
    ensures !Observe(es).phase.Requested?
    ensures Observe(es).phase.AwaitingObservation? ==> Waiting(es, r, a)
    ensures Observe(es).phase.ObservedSuccess? ==> Succeeded(es, r, a, |es| - 1)
  {
    hide ReduceObserver, WaitingState, LeavesOpen, ErrorsSince, Pending, ShowsSuccess;
    var n := |es| - 1;
    WaitingStateHolds(es[..n], r, a);
    assert es[..n][a] == es[a];
    FromWaiting(es[a], Observe(es[..n]).attempt, ErrorsSince(es[..n], a), es[n]);
    if Observe(es).phase.AwaitingObservation? { WaitingExtends(es, r, a); }
  }

  lemma {:induction false} SettledState(es: seq<ObserverEvent>, r: nat, a: nat, s: nat)
    requires SettledAt(es, r, a, s)
    ensures var st := Observe(es);
            && IsTerminal(st.phase) && st.phase == Verdict(es[a], es[s]) && st.outcome == OutcomeOf(es[a], es[s])
            && st.observationUnavailable == es[s].Error?
  {
    hide WaitingState, LeavesOpen, Verdict, OutcomeOf, ReduceAwaiting;
    var n := |es| - 1;
    if s == n {
      WaitingStateHolds(es[..s], r, a);
      FromWaiting(es[a], Observe(es[..s]).attempt, ErrorsSince(es[..s], a), es[s]);
    } else {
      assert es[..n][..s] == es[..s];
      SettledState(es[..n], r, a, s);
    }
  }

  lemma {:induction false} WithdrawnState(es: seq<ObserverEvent>, r: nat, s: nat)
    requires WithdrawnAt(es, r, s)
    ensures Observe(es).phase == if es[s].Cancel? then Cancelled else TargetChanged
  {
    hide ReduceAwaiting;
    var n := |es| - 1;
    if s == n {
      PendingState(es[..s], r);
    } else {
      assert es[..n][..s] == es[..s];
      WithdrawnState(es[..n], r, s);
    }
  }

  lemma {:induction false} ExplainTerminal(es: seq<ObserverEvent>) returns (r: nat, a: nat, s: nat)
    requires IsTerminal(Observe(es).phase)
    ensures SettledAt(es, r, a, s) || WithdrawnAt(es, r, s)
  {
    hide ReduceAwaiting, LeavesOpen, ErrorsSince, Pending;
    var n := |es| - 1;
    ReachableIsWellFormed(es[..n]);
    if IsTerminal(Observe(es[..n]).phase) {
      r, a, s := ExplainTerminal(es[..n]);
      assert es[..n][..s] == es[..s];
      assert a < s ==> es[..n][a] == es[a];
    } else {
      r, a, s := Explain(es[..n]);
      s := n;
      if Observe(es[..n]).phase.AwaitingObservation? { TerminalFromWaiting(es, r, a); }
    }
  }

  lemma TerminalFromWaiting(es: seq<ObserverEvent>, r: nat, a: nat)
    requires es != [] && Waiting(es[..|es| - 1], r, a) && IsTerminal(Observe(es).phase)
    ensures SettledAt(es, r, a, |es| - 1)
  {
    hide ReduceObserver, LeavesOpen, ErrorsSince, Pending, WaitingState, Verdict, OutcomeOf;
    var n := |es| - 1;
    WaitingStateHolds(es[..n], r, a);
    assert es[..n][a] == es[a];
    FromWaiting(es[a], Observe(es[..n]).attempt, ErrorsSince(es[..n], a), es[n]);
  }

  /**
    * Every terminal phase, with its outcome, is the verdict of the one event that ended the latest request's
    * observation, or the withdrawal of a request not yet answered; no other trace ends in it.
    */
  lemma TerminalIffDecided(es: seq<ObserverEvent>, p: Phase)
    requires IsTerminal(p)
    ensures Observe(es).phase == p
            <==> || (exists r: nat, a: nat, s: nat :: SettledAt(es, r, a, s) && Verdict(es[a], es[s]) == p)
                 || (exists r: nat, s: nat :: WithdrawnAt(es, r, s) && p == if es[s].Cancel? then Cancelled else TargetChanged)
    ensures forall r: nat, a: nat, s: nat :: SettledAt(es, r, a, s) ==>
              Observe(es).outcome == OutcomeOf(es[a], es[s]) && Observe(es).observationUnavailable == es[s].Error?
  {
    hide Verdict, OutcomeOf, ReduceObserver;
    forall r: nat, a: nat, s: nat | SettledAt(es, r, a, s)
      ensures Observe(es).phase == Verdict(es[a], es[s]) && Observe(es).outcome == OutcomeOf(es[a], es[s])
      ensures Observe(es).observationUnavailable == es[s].Error?
    {
      SettledState(es, r, a, s);
    }
    forall r: nat, s: nat | WithdrawnAt(es, r, s)
      ensures Observe(es).phase == if es[s].Cancel? then Cancelled else TargetChanged
    {
      WithdrawnState(es, r, s);
    }
    if Observe(es).phase == p {
      var r, a, s := ExplainTerminal(es);
    }
  }

  /**
    * A trace ends in `observedSuccess` if and only if its latest request was accepted and the first
    * decisive event after the accept is a pre-deadline sample of the same object that is new evidence
    * against the baseline and not a failure.
    */
  lemma SuccessIffNewEvidence(es: seq<ObserverEvent>)
    ensures Observe(es).phase.ObservedSuccess? <==> exists r, a, s :: Succeeded(es, r, a, s)
  {
    if Observe(es).phase.ObservedSuccess? {
      var r, a, s := Explain(es);
      assert Succeeded(es, r, a, s);
    }
    forall r, a, s | Succeeded(es, r, a, s)
      ensures Observe(es).phase.ObservedSuccess?
    {
      SucceededState(es, r, a, s);
    }
  }

  /**
    * A sample whose sync time and synced version are the baseline's own never ends the wait in success, nor in a
    * failure put down to the request.
    */
  lemma UnmovedSampleShowsNothing(es: seq<ObserverEvent>, r: nat, a: nat, e: ObserverEvent)
    requires Waiting(es, r, a) && e.Sampled?
    requires e.sample.lastSyncTime == es[a].baseline.refreshTime
    requires e.sample.syncedResourceVersion == es[a].baseline.syncedResourceVersion
    ensures var st := Observe(es + [e]);
            !st.phase.ObservedSuccess? && (st.outcome.Some? ==> !st.outcome.value.attributable)
  {
    hide ReduceObserver, WaitingState, LeavesOpen;
    assert (es + [e])[..|es|] == es;
    WaitingStateHolds(es, r, a);
    FromWaiting(es[a], Observe(es).attempt, ErrorsSince(es, a), e);
    if LeavesOpen(es[a], ErrorsSince(es, a), e) { OpenHasNoOutcome(es[a], Observe(es + [e]).attempt, 0); }
  }

  lemma OpenHasNoOutcome(acc: ObserverEvent, attempt: nat, errors: nat)
    requires acc.Accepted?
    ensures WaitingState(acc, attempt, errors).outcome.None?
  {
  }

  /** Likewise for the open phases: the state says exactly which request and accept are open. */
  lemma WaitingIffOpen(es: seq<ObserverEvent>)
    ensures Observe(es).phase.AwaitingObservation? <==> exists r, a :: Waiting(es, r, a)
    ensures Observe(es).phase.Requested? <==> exists r :: Pending(es, r)
  {
    var r0, a0, s0 := Explain(es);
    if Observe(es).phase.AwaitingObservation? { assert Waiting(es, r0, a0); }
    if Observe(es).phase.Requested? { assert Pending(es, r0); }
    forall r, a | Waiting(es, r, a)
      ensures Observe(es).phase.AwaitingObservation?
    {
      WaitingStateHolds(es, r, a);
    }
    forall r | Pending(es, r)
      ensures Observe(es).phase.Requested?
    {
      PendingState(es, r);
    }
  }
}
