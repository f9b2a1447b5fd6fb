/**
  * The poll chain around the observer: a poll timer, a deadline timer and one abortable read at a time
  * (createRefreshPoller in frontend/lib/eso-refresh-observer.ts), as a machine whose every step is one
  * callback, in any interleaving.
  */
module RefreshPoller {
  import opened Options
  import opened RefreshObserver

  /** Delay before poll number `attempt`: 1 s, 2 s, 3 s, then 5 s. */
  function NextPollDelayMs(attempt: nat): int
  {
    if attempt == 0 then 1000 else if attempt == 1 then 2000 else if attempt == 2 then 3000 else 5000
  }

  /** How one read ended. */
  datatype ReadOutcome = Read(sample: Sample) | Unreadable | Rejected(status: Option<int>)

  function EventFor(o: ReadOutcome, now: int): ObserverEvent
  {
    match o
    case Read(sample) => Sampled(sample, now)
    case Unreadable => Error
    case Rejected(status) =>
      if status == Some(403) then Forbidden else if status == Some(404) then NotFound else Error
  }

  /**
    * The observer, the poller's four variables (a timer is the time it is due), every read that has not
    * settled, and three histories: what the poller dispatched, when the current run began, and when each
    * of its reads started.
    */
  datatype Sys = Sys(
    obs: ObserverState, now: int,
    pollTimer: Option<int>, deadlineTimer: Option<int>, deadlineMs: int, inFlight: Option<nat>, running: bool,
    outstanding: set<nat>, aborted: set<nat>, nextRead: nat,
    dispatched: seq<ObserverEvent>, began: int, starts: seq<int>)

  datatype Event =
    | Begin(t: int)
    | Stop(t: int)
    | PollTimer(t: int)
    | DeadlineTimer(t: int)
    | Settled(read: nat, outcome: ReadOutcome, t: int)
    | Host(e: ObserverEvent, t: int)  // an event the page dispatches itself

  function Stopped(s: Sys): Sys
  {
    s.(pollTimer := None, deadlineTimer := None, inFlight := None, running := false,
       aborted := if s.inFlight.Some? then s.aborted + {s.inFlight.value} else s.aborted)
  }

  function Dispatch(s: Sys, e: ObserverEvent): Sys
  {
    s.(obs := ReduceObserver(s.obs, e), dispatched := s.dispatched + [e])
  }

  function Schedule(s: Sys): Sys
  {
    s.(pollTimer := Some(s.now + NextPollDelayMs(s.obs.attempt)))
  }

  function Max(x: int, y: int): int { if x >= y then x else y }

  function Begun(s: Sys): Sys
  {
    if s.running || !s.obs.phase.AwaitingObservation? then s
    else
      var deadlineMs := if s.obs.deadlineMs.Some? then s.obs.deadlineMs.value else s.now;
      Schedule(s.(running := true, deadlineMs := deadlineMs, deadlineTimer := Some(s.now + Max(0, deadlineMs - s.now)),
                  began := s.now, starts := []))
  }

  function Polled(s: Sys): Sys
  {
    if s.pollTimer.None? then s
    else
      var s1 := Dispatch(s.(pollTimer := None), Tick(s.now));
      if !s1.obs.phase.AwaitingObservation? then Stopped(s1)
      else s1.(inFlight := Some(s.nextRead), nextRead := s.nextRead + 1,
               outstanding := s.outstanding + {s.nextRead}, starts := s.starts + [s.now])
  }

  function PastDeadline(s: Sys): Sys
  {
    if s.deadlineTimer.None? then s
    else
      var s1 := s.(deadlineTimer := None,
                   aborted := if s.inFlight.Some? then s.aborted + {s.inFlight.value} else s.aborted);
      var s2 := Dispatch(s1, Tick(Max(s.now, s.deadlineMs)));
      if s2.obs.phase.AwaitingObservation? then s2 else Stopped(s2)
  }

  function AfterRead(s: Sys, read: nat, outcome: ReadOutcome): Sys
  {
    if read !in s.outstanding then s
    else
      var s1 := s.(outstanding := s.outstanding - {read});
      if read in s.aborted then s1
      else
        var s2 := Dispatch(s1, EventFor(outcome, s.now)).(inFlight := None);
        if s2.obs.phase.AwaitingObservation? then Schedule(s2) else Stopped(s2)
  }

  function Step(s0: Sys, e: Event): Sys
  {
    var s := s0.(now := e.t);
    match e
    case Begin(_) => Begun(s)
    case Stop(_) => Stopped(s)
    case PollTimer(_) => Polled(s)
    case DeadlineTimer(_) => PastDeadline(s)
    case Settled(read, outcome, _) => AfterRead(s, read, outcome)
    case Host(oe, _) => s.(obs := ReduceObserver(s.obs, oe))
  }

  /**
    * What the environment may do: time does not run backwards, a poll timer is not early, the page stamps
    * an accept with the current time, and it makes no new request while the poller runs.
    */
  predicate Legal(s: Sys, e: Event)
  {
    && s.now <= e.t
    && (e.PollTimer? && s.pollTimer.Some? ==> s.pollTimer.value <= e.t)
    && (e.Host? ==> (e.e.Accepted? ==> e.e.nowMs == e.t) && (e.e.Request? ==> !s.running))
  }

  function Run(s: Sys, es: seq<Event>): Sys
  {
    if es == [] then s else Step(Run(s, es[..|es| - 1]), es[|es| - 1])
  }

  predicate LegalRun(s: Sys, es: seq<Event>)
  {
    es != [] ==> LegalRun(s, es[..|es| - 1]) && Legal(Run(s, es[..|es| - 1]), es[|es| - 1])
  }

  function Fresh(now: int): Sys
  {
    Sys(INITIAL, now, None, None, 0, None, false, {}, {}, 0, [], now, [])
  }

  // --- The chain invariant ---

  /** While running exactly one poll is scheduled or in flight and the deadline is pending; otherwise nothing is. */
  predicate Chain(s: Sys)
  {
    && WellFormed(s.obs)
    && (if s.running
        then s.deadlineTimer.Some? && s.pollTimer.Some? == s.inFlight.None?
             && (s.obs.phase.AwaitingObservation? ==> s.obs.deadlineMs == Some(s.deadlineMs))
             && !s.obs.phase.Requested?
        else s.deadlineTimer.None? && s.pollTimer.None? && s.inFlight.None?)
    && (s.inFlight.Some? ==> s.inFlight.value in s.outstanding && s.inFlight.value !in s.aborted)
    && (forall f :: f in s.outstanding && f !in s.aborted ==> s.inFlight == Some(f))
    && (forall f :: f in s.outstanding ==> f < s.nextRead)
    && (forall f :: f in s.aborted ==> f < s.nextRead)
    && (s.obs.phase.AwaitingObservation? ==> s.obs.deadlineMs.value <= s.now + OBSERVE_TIMEOUT_MS)
  }

  lemma ReduceKeepsWellFormed(st: ObserverState, e: ObserverEvent)
    requires WellFormed(st)
    ensures WellFormed(ReduceObserver(st, e))
    ensures !e.Request? && !st.phase.Requested? ==> !ReduceObserver(st, e).phase.Requested?
    ensures ReduceObserver(st, e).phase.AwaitingObservation? ==>
              || (e.Accepted? && st.phase.Requested? && ReduceObserver(st, e).deadlineMs == Some(e.nowMs + OBSERVE_TIMEOUT_MS))
              || (st.phase.AwaitingObservation? && ReduceObserver(st, e).deadlineMs == st.deadlineMs
                  && ReduceObserver(st, e).attempt >= st.attempt)
  {
  }

  lemma AwaitingHasDeadline(st: ObserverState)
    requires WellFormed(st)
    ensures st.phase.AwaitingObservation? ==> st.deadlineMs.Some?
  {
  }

  lemma ChainStep(s: Sys, e: Event)
    requires Chain(s) && Legal(s, e)
    ensures Chain(Step(s, e))
  {
    hide ReduceObserver, WellFormed;
    AwaitingHasDeadline(s.obs);
    match e
    case PollTimer(t) => ReduceKeepsWellFormed(s.obs, Tick(t));
    case DeadlineTimer(t) =>
      ReduceKeepsWellFormed(s.obs, Tick(Max(t, s.deadlineMs)));
      if s.running { DeadlineEndsObservation(s, t); }
    case Settled(_, outcome, t) => ReduceKeepsWellFormed(s.obs, EventFor(outcome, t));
    case Host(oe, _) => ReduceKeepsWellFormed(s.obs, oe);
    case _ =>
  }

  /** The tick the deadline callback dispatches always ends the wait. */
  lemma DeadlineEndsObservation(s: Sys, t: int)
    requires Chain(s) && s.running
    ensures !ReduceObserver(s.obs, Tick(Max(t, s.deadlineMs))).phase.AwaitingObservation?
  {
  }

  lemma {:induction false} ChainRun(s: Sys, es: seq<Event>)
    requires Chain(s) && LegalRun(s, es)
    ensures Chain(Run(s, es))
  {
    if es != [] {
      ChainRun(s, es[..|es| - 1]);
      ChainStep(Run(s, es[..|es| - 1]), es[|es| - 1]);
    }
  }

  /** In every interleaving, polls form a single chain that is live exactly while the poller runs. */
  lemma SingleChain(now: int, es: seq<Event>)
    requires LegalRun(Fresh(now), es)
    ensures var s := Run(Fresh(now), es);
            && !(s.pollTimer.Some? && s.inFlight.Some?)
            && (s.running <==> s.pollTimer.Some? || s.inFlight.Some?)
            && (s.running <==> s.deadlineTimer.Some?)
            && |s.outstanding - s.aborted| <= 1
  {
    ChainRun(Fresh(now), es);
    var s := Run(Fresh(now), es);
    if s.inFlight.Some? {
      assert s.outstanding - s.aborted == {s.inFlight.value};
    } else {
      assert s.outstanding - s.aborted == {};
    }
  }

  // --- Nothing is dispatched after a stop ---

  lemma IdleStep(s: Sys, e: Event)
    requires Chain(s) && !s.running && Legal(s, e) && !e.Begin?
    ensures !Step(s, e).running && Step(s, e).dispatched == s.dispatched
  {
  }

  lemma {:induction false} IdleRun(s: Sys, es: seq<Event>)
    requires Chain(s) && !s.running && LegalRun(s, es)
    requires forall i :: 0 <= i < |es| ==> !es[i].Begin?
    ensures !Run(s, es).running && Run(s, es).dispatched == s.dispatched
  {
    if es != [] {
      var prev := es[..|es| - 1];
      IdleRun(s, prev);
      ChainRun(s, prev);
      IdleStep(Run(s, prev), es[|es| - 1]);
    }
  }

  /** After a stop, whatever timers, reads and page events follow, the poller stays silent until it is begun again. */
  lemma SilentAfterStop(s: Sys, t: int, es: seq<Event>)
    requires Chain(s) && s.now <= t && LegalRun(Step(s, Stop(t)), es)
    requires forall i :: 0 <= i < |es| ==> !es[i].Begin?
    ensures Run(Step(s, Stop(t)), es).dispatched == s.dispatched
  {
    ChainStep(s, Stop(t));
    IdleRun(Step(s, Stop(t)), es);
  }

  // --- The deadline callback ends the run ---

  /** The deadline callback always stops a poller that the environment treats as above. */
  lemma DeadlineEndsRun(s: Sys, t: int)
    requires Chain(s)
    ensures !Step(s, DeadlineTimer(t)).running
  {
    if s.running { DeadlineEndsObservation(s, t); }
  }

  /** A run's deadline timer is set for the observation's deadline, or for now if that has passed or there is none. */
  lemma BeginSetsDeadline(s: Sys, t: int)
    requires !s.running && s.obs.phase.AwaitingObservation?
    ensures var s' := Step(s, Begin(t));
            && s'.running && s'.deadlineTimer.Some? && s'.deadlineTimer.value >= t
            && (if s.obs.deadlineMs.Some? && s.obs.deadlineMs.value > t then s'.deadlineTimer.value == s.obs.deadlineMs.value
                else s'.deadlineTimer.value == t)
  {
  }

  /** In any state at all, it fails to exactly when the observer meanwhile waits for something with a later deadline. */
  lemma DeadlineEndsRunIff(s: Sys, t: int)
    requires s.running && s.deadlineTimer.Some?
    ensures Step(s, DeadlineTimer(t)).running
            <==> s.obs.phase.AwaitingObservation?
                 && (s.obs.deadlineMs.None? || s.obs.deadlineMs.value > Max(t, s.deadlineMs))
  {
  }

  /** No timer is pending and every read is aborted, yet the poller counts as running. */
  predicate Stranded(s: Sys)
  {
    && s.running && s.pollTimer.None? && s.deadlineTimer.None?
    && s.outstanding <= s.aborted && s.inFlight.Some?
  }

  lemma StrandedStep(s: Sys, e: Event)
    requires Stranded(s) && !e.Stop?
    ensures Stranded(Step(s, e)) && Step(s, e).dispatched == s.dispatched
  {
  }

  /**
    * A request accepted while the poller runs on an earlier one can strand it: the earlier deadline aborts
    * the read in flight without ending the new observation, and from then on nothing but `stop` ever acts.
    */
  lemma {:induction false} NewRequestStrandsPoller(s: Sys, t: int, es: seq<Event>)
    requires Chain(s) && s.running && s.inFlight.Some? && s.deadlineMs < t + OBSERVE_TIMEOUT_MS
    requires forall i :: 0 <= i < |es| ==> !es[i].Stop?
    ensures forall b, c, p, t' :: t' < t + OBSERVE_TIMEOUT_MS ==>
              var s1 := Step(Step(s, Host(Request, t)), Host(Accepted(b, c, p, t), t));
              var s2 := Step(s1, DeadlineTimer(t'));
              Stranded(s2) && Stranded(Run(s2, es)) && Run(s2, es).dispatched == s2.dispatched
  {
    forall b, c, p, t' | t' < t + OBSERVE_TIMEOUT_MS
      ensures var s1 := Step(Step(s, Host(Request, t)), Host(Accepted(b, c, p, t), t));
              var s2 := Step(s1, DeadlineTimer(t'));
              Stranded(s2) && Stranded(Run(s2, es)) && Run(s2, es).dispatched == s2.dispatched
    {
      var s1 := Step(Step(s, Host(Request, t)), Host(Accepted(b, c, p, t), t));
      StrandedRun(Step(s1, DeadlineTimer(t')), es);
    }
  }

  lemma FourSteps(s: Sys, e0: Event, e1: Event, e2: Event, e3: Event)
    ensures var s1 := Step(s, e0);
            var s2 := Step(s1, e1);
            var s3 := Step(s2, e2);
            && Run(s, [e0, e1, e2, e3]) == Step(s3, e3)
            && (Legal(s, e0) && Legal(s1, e1) && Legal(s2, e2) && Legal(s3, e3) ==> LegalRun(s, [e0, e1, e2, e3]))
  {
    hide Step, Legal;
    var es := [e0, e1, e2, e3];
    assert es[..3] == [e0, e1, e2] && es[..3][..2] == [e0, e1] && [e0, e1][..1] == [e0] && [e0][..0] == [];
    assert Run(s, []) == s && LegalRun(s, []);
    var s1 := Step(s, e0);
    var s2 := Step(s1, e1);
    var s3 := Step(s2, e2);
    assert Run(s, [e0]) == s1 && (Legal(s, e0) ==> LegalRun(s, [e0]));
    assert Run(s, [e0, e1]) == s2 && (Legal(s, e0) && Legal(s1, e1) ==> LegalRun(s, [e0, e1]));
    assert Run(s, [e0, e1, e2]) == s3 && (Legal(s, e0) && Legal(s1, e1) && Legal(s2, e2) ==> LegalRun(s, [e0, e1, e2]));
  }

  /** A fresh poller's first poll: request, accept, begin, and a second later the read. */
  lemma FirstPoll(b: Baseline, c: Correlation, p: Option<string>)
    ensures var es := [Host(Request, 0), Host(Accepted(b, c, p, 0), 0), Begin(0), PollTimer(1000)];
            var s := Run(Fresh(0), es);
            && LegalRun(Fresh(0), es) && Chain(s) && s.running && s.inFlight.Some? && s.deadlineMs == 90_000
  {
    hide Run, LegalRun, Chain, WellFormed;
    var s0 := Fresh(0);
    var e0, e1, e2, e3 := Host(Request, 0), Host(Accepted(b, c, p, 0), 0), Begin(0), PollTimer(1000);
    FourSteps(s0, e0, e1, e2, e3);
    var s2 := Step(Step(s0, e0), e1);
    assert s2.obs.phase == AwaitingObservation && s2.obs.deadlineMs == Some(90_000) && s2.obs.attempt == 0;
    var s3 := Step(s2, e2);
    assert s3.running && s3.pollTimer == Some(1000) && s3.deadlineMs == 90_000 && s3.obs == s2.obs;
    assert Chain(s0) by { FreshIsChain(); }
    ChainRun(s0, [e0, e1, e2, e3]);
  }

  lemma FreshIsChain()
    ensures Chain(Fresh(0))
  {
  }

  /** So a fresh poller can be stranded: a second request, accepted two seconds in, outlives the first one's deadline. */
  lemma StrandingIsReachable(b: Baseline, c: Correlation, p: Option<string>, later: seq<Event>)
    requires forall i :: 0 <= i < |later| ==> !later[i].Stop?
    ensures var es := [Host(Request, 0), Host(Accepted(b, c, p, 0), 0), Begin(0), PollTimer(1000)];
            var s := Run(Fresh(0), es);
            var s2 := Step(Step(Step(s, Host(Request, 2000)), Host(Accepted(b, c, p, 2000), 2000)), DeadlineTimer(90_000));
            LegalRun(Fresh(0), es) && Stranded(Run(s2, later)) && Run(s2, later).dispatched == s2.dispatched
  {
    hide Run, LegalRun, Step, Chain, Stranded;
    FirstPoll(b, c, p);
    var s := Run(Fresh(0), [Host(Request, 0), Host(Accepted(b, c, p, 0), 0), Begin(0), PollTimer(1000)]);
    NewRequestStrandsPoller(s, 2000, later);
  }

  lemma {:induction false} StrandedRun(s: Sys, es: seq<Event>)
    requires Stranded(s)
    requires forall i :: 0 <= i < |es| ==> !es[i].Stop?
    ensures Stranded(Run(s, es)) && Run(s, es).dispatched == s.dispatched
  {
    if es != [] {
      StrandedRun(s, es[..|es| - 1]);
      StrandedStep(Run(s, es[..|es| - 1]), es[|es| - 1]);
    }
  }

  // --- How many reads one run can start ---

  /** The earliest offset from the beginning of a run at which read number `k` can start. */
  function Offset(k: nat): int
  {
    if k == 0 then NextPollDelayMs(0) else Offset(k - 1) + NextPollDelayMs(k)
  }

  lemma {:induction false} OffsetLine(k: nat)
    ensures Offset(k) >= 5000 * k - 4000
    decreases k
  {
    if k > 0 { OffsetLine(k - 1); }
  }

  predicate Paced(s: Sys)
  {
    var n := |s.starts|;
    && (forall k :: 0 <= k < n ==> s.began + Offset(k) <= s.starts[k] < s.began + OBSERVE_TIMEOUT_MS)
    && (s.running && s.obs.phase.AwaitingObservation? ==>
          && s.deadlineMs <= s.began + OBSERVE_TIMEOUT_MS
          && (s.pollTimer.Some? ==> s.pollTimer.value >= s.began + Offset(n) && s.obs.attempt >= n)
          && (s.inFlight.Some? ==> n >= 1 && s.now >= s.starts[n - 1] && s.obs.attempt >= n - 1))
  }

  lemma DelayMonotone(m: nat, n: nat)
    requires m <= n
    ensures NextPollDelayMs(m) <= NextPollDelayMs(n)
  {
  }

  lemma SettledCounts(st: ObserverState, o: ReadOutcome, t: int)
    requires WellFormed(st) && st.phase.AwaitingObservation?
    ensures var st' := ReduceObserver(st, EventFor(o, t));
            st'.phase.AwaitingObservation? ==> st'.attempt == st.attempt + 1
  {
  }

  lemma PacedPoll(s: Sys, t: int)
    requires Chain(s) && Paced(s) && Legal(s, PollTimer(t))
    ensures Paced(Step(s, PollTimer(t)))
  {
    hide ReduceObserver, WellFormed, NextPollDelayMs;
    AwaitingHasDeadline(s.obs);
    ReduceKeepsWellFormed(s.obs, Tick(t));
    TickInTime(s.obs, t);
  }

  lemma PacedSettled(s: Sys, read: nat, outcome: ReadOutcome, t: int)
    requires Chain(s) && Paced(s) && s.now <= t
    ensures Paced(Step(s, Settled(read, outcome, t)))
  {
    hide ReduceObserver, WellFormed, NextPollDelayMs, EventFor;
    AwaitingHasDeadline(s.obs);
    ReduceKeepsWellFormed(s.obs, EventFor(outcome, t));
    ReadIsNoHostEvent(outcome, t);
    if s.obs.phase.AwaitingObservation? && s.inFlight.Some? {
      SettledCounts(s.obs, outcome, t);
      DelayMonotone(|s.starts|, s.obs.attempt + 1);
    }
  }

  lemma ReadIsNoHostEvent(outcome: ReadOutcome, t: int)
    ensures var e := EventFor(outcome, t); !e.Request? && !e.Accepted?
  {
  }

  lemma PacedStep(s: Sys, e: Event)
    requires Chain(s) && Paced(s) && Legal(s, e)
    ensures Paced(Step(s, e))
  {
    hide ReduceObserver, WellFormed, NextPollDelayMs, Polled, AfterRead;
    AwaitingHasDeadline(s.obs);
    match e
    case Begin(_) => DelayMonotone(0, s.obs.attempt);
    case PollTimer(t) => PacedPoll(s, t);
    case DeadlineTimer(t) => DeadlineEndsRun(s, t);
    case Settled(read, outcome, t) => PacedSettled(s, read, outcome, t);
    case Host(oe, _) => ReduceKeepsWellFormed(s.obs, oe);
    case _ =>
  }

  lemma TickInTime(st: ObserverState, t: int)
    requires WellFormed(st)
    ensures ReduceObserver(st, Tick(t)).phase.AwaitingObservation? ==> st.deadlineMs.Some? && t < st.deadlineMs.value
  {
  }

  lemma {:induction false} PacedRun(s: Sys, es: seq<Event>)
    requires Chain(s) && Paced(s) && LegalRun(s, es)
    ensures Paced(Run(s, es))
  {
    if es != [] {
      PacedRun(s, es[..|es| - 1]);
      ChainRun(s, es[..|es| - 1]);
      PacedStep(Run(s, es[..|es| - 1]), es[|es| - 1]);
    }
  }

  /** One run of the poller starts at most 19 reads, all of them within the 90 s window. */
  lemma AtMostNineteenReads(now: int, es: seq<Event>)
    requires LegalRun(Fresh(now), es)
    ensures |Run(Fresh(now), es).starts| <= 19
  {
    PacedRun(Fresh(now), es);
    var s := Run(Fresh(now), es);
    assert forall k :: 0 <= k < |s.starts| ==> Offset(k) < OBSERVE_TIMEOUT_MS;
    OffsetLine(19);
  }

  /** A page that polls until the deadline: each read answers at once with a sample that decides nothing. */
  function SteadyRun(b: Baseline, c: Correlation, k: nat): seq<Event>
  {
    if k == 0 then [Host(Request, 0), Host(Accepted(b, c, None, 0), 0), Begin(0)]
    else SteadyRun(b, c, k - 1) + [PollTimer(Offset(k - 1)), Settled(k - 1, Undecided(b), Offset(k - 1))]
  }

  function Undecided(b: Baseline): ReadOutcome { Read(Sample(b.uid, "Synced", None, None, None, None)) }

  /** Where such a run stands after k reads, all settled. */
  predicate Steady(s: Sys, b: Baseline, c: Correlation, k: nat)
  {
    && s.obs == WaitingState(Accepted(b, c, None, 0), k, 0)
    && s.running && s.pollTimer == Some(Offset(k)) && s.inFlight.None? && s.now <= Offset(k)
    && s.nextRead == k && |s.starts| == k && (forall j :: 0 <= j < k ==> s.starts[j] == Offset(j)) && s.outstanding == {} && s.aborted == {}
  }

  lemma SteadyStart(b: Baseline, c: Correlation)
    ensures Steady(Run(Fresh(0), SteadyRun(b, c, 0)), b, c, 0) && LegalRun(Fresh(0), SteadyRun(b, c, 0))
  {
    var s0 := Fresh(0);
    var e0, e1, e2 := Host(Request, 0), Host(Accepted(b, c, None, 0), 0), Begin(0);
    ThreeSteps(s0, e0, e1, e2);
    hide Run, LegalRun;
    var s2 := Step(Step(s0, e0), e1);
    assert s2.obs == WaitingState(e1.e, 0, 0);
    assert SteadyRun(b, c, 0) == [e0, e1, e2];
  }

  lemma ThreeSteps(s: Sys, e0: Event, e1: Event, e2: Event)
    ensures var s1 := Step(s, e0);
            var s2 := Step(s1, e1);
            && Run(s, [e0, e1, e2]) == Step(s2, e2)
            && (Legal(s, e0) && Legal(s1, e1) && Legal(s2, e2) ==> LegalRun(s, [e0, e1, e2]))
  {
    hide Step, Legal;
    assert [e0, e1, e2][..2] == [e0, e1] && [e0, e1][..1] == [e0] && [e0][..0] == [];
    assert Run(s, []) == s && LegalRun(s, []);
    var s1 := Step(s, e0);
    assert Run(s, [e0]) == s1 && (Legal(s, e0) ==> LegalRun(s, [e0]));
    assert Run(s, [e0, e1]) == Step(s1, e1) && (Legal(s, e0) && Legal(s1, e1) ==> LegalRun(s, [e0, e1]));
  }

  lemma TwoMoreSteps(s: Sys, es: seq<Event>, e: Event, e': Event)
    requires LegalRun(s, es)
    ensures var s1 := Run(s, es);
            && Run(s, es + [e, e']) == Step(Step(s1, e), e')
            && (Legal(s1, e) && Legal(Step(s1, e), e') ==> LegalRun(s, es + [e, e']))
  {
    hide Step, Legal;
    var all := es + [e, e'];
    assert all[..|es| + 1] == es + [e] && (es + [e])[..|es|] == es;
    assert Run(s, es + [e]) == Step(Run(s, es), e);
    assert Legal(Run(s, es), e) ==> LegalRun(s, es + [e]);
  }

  /** One more read, while there is time for it. */
  lemma SteadyPoll(s: Sys, b: Baseline, c: Correlation, k: nat)
    requires Steady(s, b, c, k) && Offset(k) < OBSERVE_TIMEOUT_MS
    ensures var e, e' := PollTimer(Offset(k)), Settled(k, Undecided(b), Offset(k));
            && Legal(s, e) && Legal(Step(s, e), e')
            && Step(s, e).starts == s.starts + [Offset(k)]
            && Steady(Step(Step(s, e), e'), b, c, k + 1)
  {
    hide Offset;
    var t, acc := Offset(k), Accepted(b, c, None, 0);
    assert Offset(k + 1) == t + NextPollDelayMs(k + 1) && NextPollDelayMs(k + 1) > 0 by { OffsetNext(k); }
    hide NextPollDelayMs;
    TickWaits(acc, k, t);
    SampleWaits(b, c, k, t);
    hide ReduceObserver, WaitingState, EventFor, Undecided;
    var s1 := Step(s, PollTimer(t));
    assert s1.obs == s.obs && s1.inFlight == Some(k) && s1.outstanding == {k};
    assert {k} - {k} == {};
    AwaitingState(acc, k);
    AwaitingState(acc, k + 1);
  }

  lemma OffsetNext(k: nat)
    ensures Offset(k + 1) == Offset(k) + NextPollDelayMs(k + 1) && NextPollDelayMs(k + 1) > 0
  {
  }

  lemma AwaitingState(acc: ObserverEvent, k: nat)
    requires acc.Accepted?
    ensures WaitingState(acc, k, 0).phase.AwaitingObservation? && WaitingState(acc, k, 0).attempt == k
  {
  }

  lemma TickWaits(acc: ObserverEvent, k: nat, t: int)
    requires acc.Accepted? && t < acc.nowMs + OBSERVE_TIMEOUT_MS
    ensures ReduceObserver(WaitingState(acc, k, 0), Tick(t)) == WaitingState(acc, k, 0)
  {
  }

  lemma SampleWaits(b: Baseline, c: Correlation, k: nat, t: int)
    requires t < OBSERVE_TIMEOUT_MS
    ensures ReduceObserver(WaitingState(Accepted(b, c, None, 0), k, 0), EventFor(Undecided(b), t))
            == WaitingState(Accepted(b, c, None, 0), k + 1, 0)
  {
  }

  lemma {:induction false} SteadyReads(b: Baseline, c: Correlation, k: nat)
    requires k <= 19
    ensures LegalRun(Fresh(0), SteadyRun(b, c, k)) && Steady(Run(Fresh(0), SteadyRun(b, c, k)), b, c, k)
  {
    hide Run, LegalRun, Step, Legal, Steady;
    if k == 0 {
      SteadyStart(b, c);
    } else {
      SteadyReads(b, c, k - 1);
      EarlyOffset(k - 1);
      var es := SteadyRun(b, c, k - 1);
      var e, e' := PollTimer(Offset(k - 1)), Settled(k - 1, Undecided(b), Offset(k - 1));
      SteadyPoll(Run(Fresh(0), es), b, c, k - 1);
      TwoMoreSteps(Fresh(0), es, e, e');
    }
  }

  lemma EarlyOffset(k: nat)
    requires k <= 18
    ensures Offset(k) < OBSERVE_TIMEOUT_MS
  {
    OffsetBound(k);
    assert Offset(0) == 1000 && Offset(1) == 3000;
  }

  lemma {:induction false} OffsetBound(k: nat)
    ensures k >= 2 ==> Offset(k) == 5000 * k - 4000
    decreases k
  {
    if k > 2 {
      OffsetBound(k - 1);
    } else if k == 2 {
      assert Offset(0) == 1000 && Offset(1) == 3000;
    }
  }

  /** The bound is exact: a poller that is left to poll reads 19 times, after 1, 3 and 6 s and then every 5 s. */
  lemma NineteenReadsHappen(b: Baseline, c: Correlation)
    ensures LegalRun(Fresh(0), SteadyRun(b, c, 19))
    ensures var starts := Run(Fresh(0), SteadyRun(b, c, 19)).starts;
            && |starts| == 19 && starts[0] == 1_000 && starts[1] == 3_000
            && forall j :: 2 <= j < 19 ==> starts[j] == 6_000 + 5_000 * (j - 2)
  {
    hide Run, LegalRun;
    SteadyReads(b, c, 19);
    assert Offset(0) == 1000 && Offset(1) == 3000;
    forall j | 2 <= j < 19
      ensures Offset(j) == 6_000 + 5_000 * (j - 2)
    {
      OffsetBound(j);
    }
  }

  /** What the poller makes of a read that settles while it waits, before the deadline. */
  lemma FailedReadMeans(s: Sys, read: nat, outcome: ReadOutcome, t: int)
    requires s.running && s.inFlight == Some(read) && read in s.outstanding && read !in s.aborted && !outcome.Read?
    requires WellFormed(s.obs) && s.obs.phase.AwaitingObservation?
    ensures var s' := Step(s, Settled(read, outcome, t));
            if outcome == Rejected(Some(403)) then s'.obs.phase.AccessLost? && !s'.running
            else if outcome == Rejected(Some(404)) then s'.obs.phase.TargetChanged? && !s'.running
            else if s.obs.consecutiveErrors == 2 then s'.obs.phase.Timeout? && s'.obs.observationUnavailable && !s'.running
            else s'.obs == s.obs.(attempt := s.obs.attempt + 1, consecutiveErrors := s.obs.consecutiveErrors + 1)
                 && s'.running && s'.inFlight.None? && s'.pollTimer.Some?
  {
  }

  // --- The poller itself ---

  /** The closure's variables, the host's observer, clock and timers, and the reads handed to the host. */
  class Poller {
    var obs: ObserverState
    var now: int
    var pollTimer: Option<int>
    var deadlineTimer: Option<int>
    var deadlineMs: int
    var inFlight: Option<nat>
    var running: bool
    var outstanding: set<nat>
    var aborted: set<nat>
    var nextRead: nat
    var dispatched: seq<ObserverEvent>
    var began: int
    var starts: seq<int>

    ghost function Value(): Sys
      reads this
    {
      Sys(obs, now, pollTimer, deadlineTimer, deadlineMs, inFlight, running, outstanding, aborted, nextRead,
          dispatched, began, starts)
    }

    constructor (t: int)
      ensures Value() == Fresh(t)
    {
      obs, now, began := INITIAL, t, t;
      pollTimer, deadlineTimer, deadlineMs, inFlight, running := None, None, 0, None, false;
      outstanding, aborted, nextRead := {}, {}, 0;
      dispatched, starts := [], [];
    }

    method AbortInFlight()
      modifies this`aborted
      ensures aborted == if inFlight.Some? then old(aborted) + {inFlight.value} else old(aborted)
    {
      if inFlight.Some? { aborted := aborted + {inFlight.value}; }
    }

    method Stop()
      modifies this
      ensures Value() == Stopped(old(Value()))
    {
      pollTimer := None;
      deadlineTimer := None;
      AbortInFlight();
      inFlight := None;
      running := false;
    }

    method DispatchEvent(e: ObserverEvent)
      modifies this`obs, this`dispatched
      ensures Value() == Dispatch(old(Value()), e)
    {
      obs := ReduceObserver(obs, e);
      dispatched := dispatched + [e];
    }

    method StillWaiting() returns (waiting: bool)
      modifies this
      ensures waiting == old(obs).phase.AwaitingObservation?
      ensures Value() == if waiting then old(Value()) else Stopped(old(Value()))
    {
      waiting := obs.phase.AwaitingObservation?;
      if !waiting { Stop(); }
    }

    method SchedulePoll(attempt: nat)
      modifies this`pollTimer
      ensures Value() == old(Value()).(pollTimer := Some(now + NextPollDelayMs(attempt)))
    {
      pollTimer := Some(now + NextPollDelayMs(attempt));
    }

    method BeginRun(t: int)
      modifies this
      ensures Value() == Begun(old(Value()).(now := t))
    {
      hide ReduceObserver, NextPollDelayMs, Max;
      now := t;
      ghost var s := Value();
      if running || !obs.phase.AwaitingObservation? { return; }
      running, began, starts := true, t, [];
      deadlineMs := if obs.deadlineMs.Some? then obs.deadlineMs.value else t;
      var remaining := Max(0, deadlineMs - t);
      deadlineTimer := Some(t + remaining);
      assert Value() == s.(running := true, deadlineMs := deadlineMs, deadlineTimer := deadlineTimer, began := t, starts := []);
      SchedulePoll(obs.attempt);
    }

    /** Hands the next read to the host. */
    method StartRead()
      modifies this`inFlight, this`outstanding, this`starts, this`nextRead
      ensures var s := old(Value());
              Value() == s.(inFlight := Some(s.nextRead), nextRead := s.nextRead + 1,
                            outstanding := s.outstanding + {s.nextRead}, starts := s.starts + [s.now])
    {
      inFlight := Some(nextRead);
      outstanding := outstanding + {nextRead};
      starts := starts + [now];
      nextRead := nextRead + 1;
    }

    /** The poll callback, up to the point where it waits for the read. */
    method Poll(t: int)
      modifies this
      ensures Value() == Polled(old(Value()).(now := t))
    {
      hide ReduceObserver, NextPollDelayMs;
      now := t;
      if pollTimer.None? { return; }
      pollTimer := None;
      DispatchEvent(Tick(t));
      assert Value() == Dispatch(old(Value()).(now := t, pollTimer := None), Tick(t));
      hide Dispatch;
      var waiting := StillWaiting();
      if !waiting { return; }
      StartRead();
    }

    /** The rest of the poll callback, once the read it waits for settles. */
    method ReadSettled(read: nat, outcome: ReadOutcome, t: int)
      modifies this
      ensures Value() == AfterRead(old(Value()).(now := t), read, outcome)
    {
      hide ReduceObserver, NextPollDelayMs, EventFor;
      now := t;
      if read !in outstanding { return; }
      outstanding := outstanding - {read};
      if read in aborted { return; }
      DispatchEvent(EventFor(outcome, t));
      inFlight := None;
      ghost var s := Value();
      assert s == Dispatch(old(Value()).(now := t, outstanding := outstanding), EventFor(outcome, t)).(inFlight := None);
      hide Dispatch;
      var waiting := StillWaiting();
      if waiting { SchedulePoll(obs.attempt); }
    }

    method DeadlineFires(t: int)
      modifies this
      ensures Value() == PastDeadline(old(Value()).(now := t))
    {
      hide ReduceObserver, NextPollDelayMs;
      now := t;
      if deadlineTimer.None? { return; }
      deadlineTimer := None;
      AbortInFlight();
      DispatchEvent(Tick(Max(t, deadlineMs)));
      var _ := StillWaiting();
    }
  }
}
