/**
  * The alert-email limiter (backend/internal/alerting/notifier.go): a fixed one-hour window over all emails
  * and a per-fingerprint cooldown with a background cleaner. Each locked section is one step; clock readings,
  * in nanoseconds, arrive as arguments.
  */
module EmailLimiter {

  const HOUR: int := 3_600_000_000_000
  const COOLDOWN: int := 900_000_000_000

  datatype State = State(hourlyCount: int, hourlyReset: int, hourlyLimit: int, alertCooldown: map<string, int>)

  function New(hourlyLimit: int, now: int): State { State(0, now, hourlyLimit, map[]) }

  /** One locked section: a rate check, a cooldown check (which reads the clock twice), or a cleaning. */
  datatype Step = Rate(t: int) | Cooldown(fp: string, t: int, t2: int) | Cleanup(t: int)

  // --- Steps on values ---

  function Windowed(s: State, t: int): State
  {
    if t - s.hourlyReset >= HOUR then s.(hourlyCount := 0, hourlyReset := t) else s
  }

  /** Whether the step says yes; a cleaning says nothing. */
  predicate Admits(s: State, st: Step)
  {
    match st
    case Rate(t) => Windowed(s, t).hourlyCount < s.hourlyLimit
    case Cooldown(fp, t, _) => fp !in s.alertCooldown || t - s.alertCooldown[fp] >= COOLDOWN
    case Cleanup(_) => false
  }

  function After(s: State, st: Step): State
  {
    match st
    case Rate(t) =>
      var s1 := Windowed(s, t);
      if Admits(s, st) then s1.(hourlyCount := s1.hourlyCount + 1) else s1
    case Cooldown(fp, _, t2) =>
      if Admits(s, st) then s.(alertCooldown := s.alertCooldown[fp := t2]) else s
    case Cleanup(t) =>
      s.(alertCooldown := map fp | fp in s.alertCooldown && t - s.alertCooldown[fp] < COOLDOWN :: s.alertCooldown[fp])
  }

  function Run(s: State, steps: seq<Step>): State
  {
    if steps == [] then s else After(Run(s, steps[..|steps| - 1]), steps[|steps| - 1])
  }

  function EndOf(st: Step): int { if st.Cooldown? then st.t2 else st.t }

  /** The clock after the run; it does not run backwards. */
  function Clock(t0: int, steps: seq<Step>): int
  {
    if steps == [] then t0 else EndOf(steps[|steps| - 1])
  }

  predicate Monotone(t0: int, steps: seq<Step>)
  {
    steps != [] ==>
      var prev, st := steps[..|steps| - 1], steps[|steps| - 1];
      Monotone(t0, prev) && Clock(t0, prev) <= st.t <= EndOf(st)
  }

  // --- The limiter itself ---

  class Notifier {
    var hourlyCount: int
    var hourlyReset: int
    const hourlyLimit: int
    var alertCooldown: map<string, int>

    ghost function Value(): State
      reads this
    {
      State(hourlyCount, hourlyReset, hourlyLimit, alertCooldown)
    }

    constructor (rateLimit: int, now: int)
      ensures Value() == New(rateLimit, now)
    {
      hourlyCount, hourlyReset, hourlyLimit, alertCooldown := 0, now, rateLimit, map[];
    }

    method CheckGlobalRate(now: int) returns (ok: bool)
      modifies this
      ensures ok == Admits(old(Value()), Rate(now)) && Value() == After(old(Value()), Rate(now))
    {
      if now - hourlyReset >= HOUR {
        hourlyCount := 0;
        hourlyReset := now;
      }
      if hourlyCount >= hourlyLimit { return false; }
      hourlyCount := hourlyCount + 1;
      return true;
    }

    method CheckCooldown(fingerprint: string, now: int, later: int) returns (ok: bool)
      modifies this
      ensures ok == Admits(old(Value()), Cooldown(fingerprint, now, later))
      ensures Value() == After(old(Value()), Cooldown(fingerprint, now, later))
    {
      if fingerprint in alertCooldown {
        if now - alertCooldown[fingerprint] < COOLDOWN { return false; }
      }
      alertCooldown := alertCooldown[fingerprint := later];
      return true;
    }

    method CleanupCooldowns(now: int)
      modifies this
      ensures Value() == After(old(Value()), Cleanup(now))
    {
      var fps := alertCooldown.Keys;
      ghost var start := alertCooldown;
      while fps != {}
        invariant fps <= alertCooldown.Keys <= start.Keys
        invariant forall fp :: fp in alertCooldown ==> alertCooldown[fp] == start[fp]
        invariant forall fp :: fp in start && fp !in fps ==> (fp in alertCooldown <==> now - start[fp] < COOLDOWN)
        invariant Value() == old(Value()).(alertCooldown := alertCooldown)
        decreases |fps|
      {
        var fp :| fp in fps;
        fps := fps - {fp};
        if now - alertCooldown[fp] >= COOLDOWN {
          alertCooldown := alertCooldown - {fp};
        }
      }
    }

    /**
      * The decision part of QueueAlert, run without interruption: a resolved alert skips the cooldown; an
      * email is queued only past both checks, and only then can rendering or a full queue still drop it.
      */
    method QueueAlert(fingerprint: string, resolved: bool, smtpConfigured: bool, deliverable: bool, t1: int, t2: int, t3: int)
      returns (queued: bool)
      modifies this
      ensures var s0 := old(Value());
              var cooled := resolved || Admits(s0, Cooldown(fingerprint, t1, t2));
              var s1 := if resolved then s0 else After(s0, Cooldown(fingerprint, t1, t2));
              if !smtpConfigured then !queued && Value() == s0
              else if !cooled then !queued && Value() == s0
              else queued == (Admits(s1, Rate(t3)) && deliverable) && Value() == After(s1, Rate(t3))
    {
      if !smtpConfigured { return false; }
      if !resolved {
        var ok := CheckCooldown(fingerprint, t1, t2);
        if !ok { return false; }
      }
      var ok := CheckGlobalRate(t3);
      if !ok { return false; }
      return deliverable;
    }
  }

  // --- The hourly window ---

  /** Emails admitted by the rate check at readings in [x, x + 1 h). */
  function AdmittedIn(s: State, steps: seq<Step>, x: int): nat
  {
    if steps == [] then 0
    else
      var prev, st := steps[..|steps| - 1], steps[|steps| - 1];
      AdmittedIn(s, prev, x) + if st.Rate? && Admits(Run(s, prev), st) && x <= st.t < x + 3_600_000_000_000 then 1 else 0
  }

  function Allowance(limit: int): nat { if limit < 0 then 0 else limit }

  /** How many of the window's admissions the current count can account for. */
  predicate Accounted(s: State, n: nat, x: int, now: int)
  {
    var most := Allowance(s.hourlyLimit);
    && 0 <= s.hourlyCount <= most && s.hourlyReset <= now
    && (x >= s.hourlyReset + HOUR ==> n == 0)
    && (x >= s.hourlyReset ==> n <= s.hourlyCount)
    && (s.hourlyReset - HOUR < x < s.hourlyReset ==> n <= most + s.hourlyCount)
    && n <= 2 * most
  }

  lemma AccountedStep(s: State, n: nat, x: int, now: int, st: Step)
    requires Accounted(s, n, x, now) && now <= st.t <= EndOf(st)
    ensures Accounted(After(s, st), n + (if st.Rate? && Admits(s, st) && x <= st.t < x + HOUR then 1 else 0), x, EndOf(st))
  {
  }

  lemma {:induction false} AccountedRun(limit: int, t0: int, steps: seq<Step>, x: int)
    requires Monotone(t0, steps)
    ensures Accounted(Run(New(limit, t0), steps), AdmittedIn(New(limit, t0), steps, x), x, Clock(t0, steps))
    ensures Run(New(limit, t0), steps).hourlyLimit == limit
  {
    if steps != [] {
      var prev, st := steps[..|steps| - 1], steps[|steps| - 1];
      AccountedRun(limit, t0, prev, x);
      AccountedStep(Run(New(limit, t0), prev), AdmittedIn(New(limit, t0), prev, x), x, Clock(t0, prev), st);
    }
  }

  /** Any half-open hour admits at most twice the hourly limit, in every run with a clock that does not run backwards. */
  lemma HourAdmitsAtMostTwiceLimit(limit: int, t0: int, steps: seq<Step>, x: int)
    requires Monotone(t0, steps)
    ensures AdmittedIn(New(limit, t0), steps, x) <= 2 * Allowance(limit)
  {
    AccountedRun(limit, t0, steps, x);
  }

  // --- When an hour keeps to the limit ---

  /** What every run leaves: a count within the limit and a window that started in the past. */
  predicate Counted(s: State, now: int) { 0 <= s.hourlyCount <= Allowance(s.hourlyLimit) && s.hourlyReset <= now }

  /**
    * The most the hour from reading x on can admit: what the current window has left, and, if that window ends
    * inside the hour, a full limit more.
    */
  function Most(s: State, x: int): int
  {
    var most := Allowance(s.hourlyLimit);
    if x - s.hourlyReset >= HOUR then most
    else if x > s.hourlyReset then 2 * most - s.hourlyCount
    else most - s.hourlyCount
  }

  /** After n admissions since reading x, from state s0: the same window, or a later one with room left for the rest. */
  predicate Within(s0: State, s: State, n: nat, x: int, now: int)
  {
    var most := Allowance(s0.hourlyLimit);
    && s.hourlyLimit == s0.hourlyLimit && Counted(s, now) && x <= now
    && (|| (s.hourlyReset == s0.hourlyReset && n <= s.hourlyCount - s0.hourlyCount && (x - s0.hourlyReset >= HOUR ==> n == 0))
        || (&& s.hourlyReset >= s0.hourlyReset + HOUR && s.hourlyReset >= x && n <= Most(s0, x)
            && (s.hourlyReset < x + HOUR ==> n + most - s.hourlyCount <= Most(s0, x))))
  }

  lemma WithinStep(s0: State, s: State, n: nat, x: int, now: int, st: Step)
    requires Counted(s0, x) && Within(s0, s, n, x, now) && now <= st.t <= EndOf(st)
    ensures Within(s0, After(s, st), n + (if st.Rate? && Admits(s, st) && x <= st.t < x + HOUR then 1 else 0), x, EndOf(st))
  {
  }

  /** No continuation admits more than that in the hour from x on. */
  lemma {:induction false} HourAdmitsAtMost(s: State, x: int, steps: seq<Step>)
    requires Counted(s, x) && Monotone(x, steps)
    ensures AdmittedIn(s, steps, x) <= Most(s, x)
    ensures Within(s, Run(s, steps), AdmittedIn(s, steps, x), x, Clock(x, steps))
  {
    hide Admits, After;
    if steps != [] {
      var prev, st := steps[..|steps| - 1], steps[|steps| - 1];
      HourAdmitsAtMost(s, x, prev);
      WithinStep(s, Run(s, prev), AdmittedIn(s, prev, x), x, Clock(x, prev), st);
    }
  }

  function Checks(t: int, n: nat): seq<Step> { seq(n, _ => Rate(t)) }

  /** Checks at one reading are all admitted while the window they fall into has room. */
  lemma {:induction false} ChecksAdmitted(s: State, t: int, n: nat, x: int, now: int)
    requires 0 <= Windowed(s, t).hourlyCount && Windowed(s, t).hourlyCount + n <= s.hourlyLimit
    requires x <= t < x + HOUR && now <= t
    ensures var w := Windowed(s, t);
            && Run(s, Checks(t, n)) == (if n == 0 then s else w.(hourlyCount := w.hourlyCount + n))
            && AdmittedIn(s, Checks(t, n), x) == n && Monotone(now, Checks(t, n))
            && Clock(now, Checks(t, n)) == (if n == 0 then now else t)
  {
    if n > 0 {
      ChecksAdmitted(s, t, n - 1, x, now);
      assert Checks(t, n)[..n - 1] == Checks(t, n - 1) && Checks(t, n)[n - 1] == Rate(t);
    }
  }

  lemma {:induction false} RunConcat(s: State, a: seq<Step>, b: seq<Step>, x: int, now: int)
    requires Monotone(now, a) && Monotone(Clock(now, a), b)
    ensures Run(s, a + b) == Run(Run(s, a), b)
    ensures AdmittedIn(s, a + b, x) == AdmittedIn(s, a, x) + AdmittedIn(Run(s, a), b, x)
    ensures Monotone(now, a + b) && Clock(now, a + b) == Clock(Clock(now, a), b)
  {
    hide After, Admits;
    if b == [] {
      assert a + b == a;
    } else {
      RunConcat(s, a, b[..|b| - 1], x, now);
      assert (a + b)[..|a + b| - 1] == a + b[..|b| - 1] && (a + b)[|a + b| - 1] == b[|b| - 1];
    }
  }

  /** And some continuation does admit that many. */
  lemma MostIsReached(s: State, x: int) returns (steps: seq<Step>)
    requires Counted(s, x)
    ensures Monotone(x, steps) && AdmittedIn(s, steps, x) == Most(s, x)
  {
    if s.hourlyLimit < 0 {
      steps := [];
    } else {
      var left := s.hourlyLimit - Windowed(s, x).hourlyCount;
      var now := Checks(x, left);
      ChecksAdmitted(s, x, left, x, x);
      steps := now;
      if 0 < x - s.hourlyReset < HOUR {
        var s1, reset := Run(s, now), s.hourlyReset + HOUR;
        ChecksAdmitted(s1, reset, s.hourlyLimit, x, x);
        RunConcat(s, now, Checks(reset, s.hourlyLimit), x, x);
        steps := now + Checks(reset, s.hourlyLimit);
      }
    }
  }

  /**
    * At reading x of any run, every way the run can go on keeps the next hour to the hourly limit if and only if
    * the window's count is at the limit, or the window starts at x or has ended by then.
    */
  lemma HourKeepsLimitIff(limit: int, t0: int, before: seq<Step>, x: int)
    requires Monotone(t0, before) && Clock(t0, before) <= x
    ensures var s := Run(New(limit, t0), before);
            (forall steps :: Monotone(x, steps) ==> AdmittedIn(s, steps, x) <= Allowance(limit))
            <==> s.hourlyCount == Allowance(limit) || x == s.hourlyReset || x >= s.hourlyReset + 3_600_000_000_000
  {
    var s := Run(New(limit, t0), before);
    AccountedRun(limit, t0, before, x);
    forall steps | Monotone(x, steps)
      ensures AdmittedIn(s, steps, x) <= Most(s, x)
    {
      HourAdmitsAtMost(s, x, steps);
    }
    var steps := MostIsReached(s, x);
  }

  /** A new limiter: from a nanosecond after its start on, an hour can admit exactly twice the limit. */
  lemma TwiceLimitIsReached(limit: nat, t0: int)
    ensures exists steps :: Monotone(t0, steps) && AdmittedIn(New(limit, t0), steps, t0 + 1) == 2 * limit
  {
    var s, x := New(limit, t0), t0 + 1;
    var steps := MostIsReached(s, x);
    LaterStart(t0, x, steps);
  }

  lemma {:induction false} LaterStart(t0: int, t1: int, steps: seq<Step>)
    requires t0 <= t1 && Monotone(t1, steps)
    ensures Monotone(t0, steps)
  {
    if steps != [] { LaterStart(t0, t1, steps[..|steps| - 1]); }
  }

  // --- The cooldown ---

  /** The stored readings of a fingerprint's cooldown admissions, oldest first. */
  function Admissions(s: State, steps: seq<Step>, fp: string): seq<int>
  {
    if steps == [] then []
    else
      var prev, st := steps[..|steps| - 1], steps[|steps| - 1];
      Admissions(s, prev, fp) + if st.Cooldown? && st.fp == fp && Admits(Run(s, prev), st) then [st.t2] else []
  }

  predicate Spaced(times: seq<int>) { forall i, j :: 0 <= i < j < |times| ==> times[j] - times[i] >= 900_000_000_000 }

  /** The map remembers the last admission until it has expired. */
  predicate Remembers(s: State, times: seq<int>, fp: string, now: int)
  {
    && Spaced(times)
    && (forall i :: 0 <= i < |times| ==> times[i] <= now)
    && (if times == [] then fp !in s.alertCooldown
        else if fp in s.alertCooldown then s.alertCooldown[fp] == times[|times| - 1]
        else now - times[|times| - 1] >= COOLDOWN)
  }

  lemma RemembersStep(s: State, times: seq<int>, fp: string, now: int, st: Step)
    requires Remembers(s, times, fp, now) && now <= st.t <= EndOf(st)
    ensures Remembers(After(s, st), times + (if st.Cooldown? && st.fp == fp && Admits(s, st) then [st.t2] else []), fp, EndOf(st))
  {
    if st.Cooldown? && st.fp == fp && Admits(s, st) {
      var times' := times + [st.t2];
      forall i | 0 <= i < |times|
        ensures st.t2 - times'[i] >= COOLDOWN
      {
        var last := times[|times| - 1];
        assert times[i] <= last by {
          if i < |times| - 1 { assert last - times[i] >= COOLDOWN; }
        }
      }
    } else {
      assert times + [] == times;
    }
  }

  /** Two cooldown admissions of one fingerprint are at least 15 minutes apart, however the cleaner runs. */
  lemma {:induction false} CooldownSpacesAdmissions(limit: int, t0: int, steps: seq<Step>, fp: string)
    requires Monotone(t0, steps)
    ensures Spaced(Admissions(New(limit, t0), steps, fp))
    ensures Remembers(Run(New(limit, t0), steps), Admissions(New(limit, t0), steps, fp), fp, Clock(t0, steps))
  {
    if steps != [] {
      var prev, st := steps[..|steps| - 1], steps[|steps| - 1];
      CooldownSpacesAdmissions(limit, t0, prev, fp);
      RemembersStep(Run(New(limit, t0), prev), Admissions(New(limit, t0), prev, fp), fp, Clock(t0, prev), st);
    }
  }

  /**
    * At any point of any run, an alert passes the cooldown if and only if its fingerprint has not passed before, or
    * last did at least 15 minutes ago.
    */
  lemma CooldownAdmitsIff(limit: int, t0: int, steps: seq<Step>, fp: string, t: int, t2: int)
    requires Monotone(t0, steps) && Clock(t0, steps) <= t
    ensures var times := Admissions(New(limit, t0), steps, fp);
            Admits(Run(New(limit, t0), steps), Cooldown(fp, t, t2))
            <==> times == [] || t - times[|times| - 1] >= 900_000_000_000
  {
    CooldownSpacesAdmissions(limit, t0, steps, fp);
  }

  /** A cleaning leaves exactly the entries younger than 15 minutes. */
  lemma CleanupKeepsYoung(s: State, t: int, fp: string)
    ensures var after := After(s, Cleanup(t)).alertCooldown;
            && (fp in after <==> fp in s.alertCooldown && t - s.alertCooldown[fp] < 900_000_000_000)
            && (fp in after ==> after[fp] == s.alertCooldown[fp])
            && After(s, Cleanup(t)) == s.(alertCooldown := after)
  {
  }

  // --- The cleaner is invisible ---

  /** The answers of a run, cleanings aside. */
  function Verdicts(s: State, steps: seq<Step>): seq<bool>
  {
    if steps == [] then []
    else
      var prev, st := steps[..|steps| - 1], steps[|steps| - 1];
      Verdicts(s, prev) + if st.Cleanup? then [] else [Admits(Run(s, prev), st)]
  }

  function WithoutCleanups(steps: seq<Step>): seq<Step>
  {
    if steps == [] then []
    else
      var prev, st := steps[..|steps| - 1], steps[|steps| - 1];
      WithoutCleanups(prev) + if st.Cleanup? then [] else [st]
  }

  /** The same limiter, but `clean` may have dropped entries that have expired by now. */
  predicate SameButExpired(clean: State, full: State, now: int)
  {
    && clean == full.(alertCooldown := clean.alertCooldown)
    && (forall fp :: fp in clean.alertCooldown ==> fp in full.alertCooldown && full.alertCooldown[fp] == clean.alertCooldown[fp])
    && (forall fp :: fp in full.alertCooldown && fp !in clean.alertCooldown ==> now - full.alertCooldown[fp] >= COOLDOWN)
  }

  lemma CleanerStep(clean: State, full: State, now: int, st: Step)
    requires SameButExpired(clean, full, now) && now <= st.t <= EndOf(st)
    ensures SameButExpired(After(clean, st), if st.Cleanup? then full else After(full, st), EndOf(st))
    ensures !st.Cleanup? ==> Admits(clean, st) == Admits(full, st)
  {
  }

  /** Taking every cleaning out of a run, or putting any number in anywhere, changes no verdict. */
  lemma {:induction false} CleanupsAreInvisible(s: State, t0: int, steps: seq<Step>)
    requires Monotone(t0, steps)
    ensures Verdicts(s, steps) == Verdicts(s, WithoutCleanups(steps))
    ensures SameButExpired(Run(s, steps), Run(s, WithoutCleanups(steps)), Clock(t0, steps))
  {
    if steps != [] {
      var prev, st := steps[..|steps| - 1], steps[|steps| - 1];
      CleanupsAreInvisible(s, t0, prev);
      CleanerStep(Run(s, prev), Run(s, WithoutCleanups(prev)), Clock(t0, prev), st);
      var kept := WithoutCleanups(steps);
      if !st.Cleanup? {
        assert kept[..|kept| - 1] == WithoutCleanups(prev);
      } else {
        assert kept == WithoutCleanups(prev);
      }
    }
  }
}
