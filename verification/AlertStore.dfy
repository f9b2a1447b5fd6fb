/**
  * The in-memory alert store and the webhook fold over it (backend/internal/alerting/store.go and
  * webhook.go). Clock readings arrive as arguments.
  */
module AlertStore {

  import opened Options

  const MAX_HISTORY: nat := 10000

  /** One occurrence. `number` is the n of the source's id "alert-n"; 0 before the store assigns it. */
  datatype AlertEvent = AlertEvent(
    number: nat, clusterId: string, fingerprint: string, status: string, alertName: string, namespace: string,
    severity: string, labels: map<string, string>, annotations: map<string, string>,
    startsAt: int, endsAt: int, receivedAt: int, resolvedAt: int)

  datatype Store = Store(active: map<string, AlertEvent>, history: seq<AlertEvent>, nextId: nat)

  const EMPTY: Store := Store(map[], [], 0)

  // --- Operations on values ---

  function Capped(h: seq<AlertEvent>): seq<AlertEvent>
  {
    if |h| > MAX_HISTORY then h[|h| - MAX_HISTORY..] else h
  }

  /** The event `Record` stores: numbered and stamped. */
  function Stamped(s: Store, e: AlertEvent, now: int): AlertEvent
  {
    e.(number := s.nextId + 1, receivedAt := now)
  }

  function Recorded(s: Store, e: AlertEvent, now: int): Store
  {
    var e' := Stamped(s, e, now);
    Store(if e.status == "firing" then s.active[e.fingerprint := e'] else s.active,
          Capped(s.history + [e']), s.nextId + 1)
  }

  function ResolvedEvent(s: Store, fp: string, endsAt: int, now: int): AlertEvent
    requires fp in s.active
  {
    s.active[fp].(status := "resolved", endsAt := endsAt, resolvedAt := now, receivedAt := now, number := s.nextId + 1)
  }

  function Resolved(s: Store, fp: string, endsAt: int, now: int): Store
  {
    if fp !in s.active then s
    else Store(s.active - {fp}, Capped(s.history + [ResolvedEvent(s, fp, endsAt, now)]), s.nextId + 1)
  }

  function Kept(h: seq<AlertEvent>, olderThan: int): seq<AlertEvent>
  {
    if h == [] then []
    else Kept(h[..|h| - 1], olderThan) + if h[|h| - 1].receivedAt < olderThan then [] else [h[|h| - 1]]
  }

  function Pruned(s: Store, olderThan: int): Store
  {
    s.(active := map fp | fp in s.active && s.active[fp].receivedAt >= olderThan :: s.active[fp],
       history := Kept(s.history, olderThan))
  }

  // --- The store itself ---

  class MemoryStore {
    var active: map<string, AlertEvent>
    var history: seq<AlertEvent>
    var nextId: nat

    ghost function Value(): Store
      reads this
    {
      Store(active, history, nextId)
    }

    constructor ()
      ensures Value() == EMPTY
    {
      active, history, nextId := map[], [], 0;
    }

    method Append(e: AlertEvent)
      modifies this`history
      ensures history == Capped(old(history) + [e])
    {
      history := history + [e];
      if |history| > MAX_HISTORY {
        history := history[|history| - MAX_HISTORY..];
      }
    }

    method Record(event: AlertEvent, now: int)
      modifies this
      ensures Value() == Recorded(old(Value()), event, now)
    {
      nextId := nextId + 1;
      var e := event.(number := nextId, receivedAt := now);
      if e.status == "firing" {
        active := active[e.fingerprint := e];
      }
      Append(e);
    }

    method Resolve(fingerprint: string, endsAt: int, now: int)
      modifies this
      ensures Value() == Resolved(old(Value()), fingerprint, endsAt, now)
    {
      if fingerprint !in active { return; }
      var resolved := active[fingerprint].(status := "resolved", endsAt := endsAt, resolvedAt := now, receivedAt := now);
      nextId := nextId + 1;
      resolved := resolved.(number := nextId);
      active := active - {fingerprint};
      Append(resolved);
    }

    method PruneHistory(olderThan: int) returns (pruned: nat)
      modifies this`history
      ensures history == Kept(old(history), olderThan)
      ensures pruned == |old(history)| - |history|
    {
      var kept: seq<AlertEvent> := [];
      pruned := 0;
      for i := 0 to |history|
        invariant kept == Kept(history[..i], olderThan) && pruned == i - |kept|
        invariant history == old(history)
      {
        assert history[..i + 1][..i] == history[..i];
        if history[i].receivedAt < olderThan {
          pruned := pruned + 1;
        } else {
          kept := kept + [history[i]];
        }
      }
      assert history[..|history|] == history;
      history := kept;
    }

    method PruneActive(olderThan: int) returns (pruned: nat)
      modifies this`active
      ensures active == map fp | fp in old(active) && old(active)[fp].receivedAt >= olderThan :: old(active)[fp]
      ensures pruned == |old(active)| - |active|
    {
      pruned := 0;
      var fps := active.Keys;
      ghost var start := active;
      while fps != {}
        invariant fps <= active.Keys <= start.Keys && forall fp :: fp in active ==> active[fp] == start[fp]
        invariant forall fp :: fp in start && fp !in fps ==> (fp in active <==> start[fp].receivedAt >= olderThan)
        invariant pruned == |start| - |active|
        decreases |fps|
      {
        var fp :| fp in fps;
        fps := fps - {fp};
        if active[fp].receivedAt < olderThan {
          assert (active - {fp}).Keys == active.Keys - {fp};
          active := active - {fp};
          pruned := pruned + 1;
        }
      }
    }

    /** Drops old history and active alerts; the result counts what was removed. */
    method Prune(olderThan: int) returns (pruned: nat)
      modifies this
      ensures Value() == Pruned(old(Value()), olderThan)
      ensures pruned == |old(history)| - |history| + |old(active)| - |active|
    {
      var m := PruneHistory(olderThan);
      var n := PruneActive(olderThan);
      pruned := m + n;
    }
  }

  // --- The webhook fold ---

  datatype WebhookAlert = WebhookAlert(
    status: string, labels: map<string, string>, annotations: map<string, string>,
    startsAt: int, endsAt: int, fingerprint: string)

  datatype AlertAction = AlertAction(kind: string, alert: WebhookAlert, event: AlertEvent)

  function Label(a: WebhookAlert, name: string): string { if name in a.labels then a.labels[name] else "" }

  function EventOf(a: WebhookAlert, clusterId: string, resolvedAt: int): AlertEvent
  {
    AlertEvent(0, clusterId, a.fingerprint, a.status, Label(a, "alertname"), Label(a, "namespace"), Label(a, "severity"),
               a.labels, a.annotations, a.startsAt, a.endsAt, 0, resolvedAt)
  }

  /** What one alert of a payload does to the store at time `now`. */
  function Ingested(s: Store, a: WebhookAlert, clusterId: string, now: int): Store
  {
    if a.status == "firing" then Recorded(s, EventOf(a, clusterId, 0), now)
    else if a.status == "resolved" then Resolved(s, a.fingerprint, a.endsAt, now)
    else s
  }

  function IngestedAll(s: Store, alerts: seq<WebhookAlert>, clusterId: string, times: seq<int>): Store
    requires |alerts| == |times|
  {
    if alerts == [] then s
    else
      var n := |alerts| - 1;
      Ingested(IngestedAll(s, alerts[..n], clusterId, times[..n]), alerts[n], clusterId, times[n])
  }

  /** One action per firing or resolved alert, in payload order; other statuses are ignored. */
  function Actions(alerts: seq<WebhookAlert>, clusterId: string, times: seq<int>): seq<AlertAction>
    requires |alerts| == |times|
  {
    if alerts == [] then []
    else
      var n := |alerts| - 1;
      var a := alerts[n];
      Actions(alerts[..n], clusterId, times[..n])
      + if a.status == "firing" then [AlertAction("new", a, EventOf(a, clusterId, 0))]
        else if a.status == "resolved" then [AlertAction("resolved", a, EventOf(a, clusterId, times[n]))]
        else []
  }

  method ProcessWebhook(store: MemoryStore, alerts: seq<WebhookAlert>, clusterId: string, times: seq<int>)
    returns (actions: seq<AlertAction>)
    requires |alerts| == |times|
    modifies store
    ensures store.Value() == IngestedAll(old(store.Value()), alerts, clusterId, times)
    ensures actions == Actions(alerts, clusterId, times)
  {
    hide Recorded, Resolved;
    actions := [];
    for i := 0 to |alerts|
      invariant store.Value() == IngestedAll(old(store.Value()), alerts[..i], clusterId, times[..i])
      invariant actions == Actions(alerts[..i], clusterId, times[..i])
    {
      assert alerts[..i + 1][..i] == alerts[..i] && times[..i + 1][..i] == times[..i];
      var alert := alerts[i];
      if alert.status == "firing" {
        var event := EventOf(alert, clusterId, 0);
        store.Record(event, times[i]);
        actions := actions + [AlertAction("new", alert, event)];
      } else if alert.status == "resolved" {
        store.Resolve(alert.fingerprint, alert.endsAt, times[i]);
        actions := actions + [AlertAction("resolved", alert, EventOf(alert, clusterId, times[i]))];
      }
    }
    assert alerts[..|alerts|] == alerts && times[..|times|] == times;
  }

  // --- Whole runs ---

  /** One alert of a payload, or a prune. */
  datatype Step = Alert(a: WebhookAlert, clusterId: string, now: int) | Prune(olderThan: int)

  function After(s: Store, st: Step): Store
  {
    match st
    case Alert(a, clusterId, now) => Ingested(s, a, clusterId, now)
    case Prune(olderThan) => Pruned(s, olderThan)
  }

  function RunStore(steps: seq<Step>): Store
  {
    if steps == [] then EMPTY else After(RunStore(steps[..|steps| - 1]), steps[|steps| - 1])
  }

  /** The events one step appends to the history: none or one. */
  function Emitted(s: Store, st: Step): seq<AlertEvent>
  {
    match st
    case Alert(a, clusterId, now) =>
      if a.status == "firing" then [Stamped(s, EventOf(a, clusterId, 0), now)]
      else if a.status == "resolved" && a.fingerprint in s.active then [ResolvedEvent(s, a.fingerprint, a.endsAt, now)]
      else []
    case Prune(_) => []
  }

  /** Every event ever appended, evicted and pruned ones included. */
  function FullLog(steps: seq<Step>): seq<AlertEvent>
  {
    if steps == [] then []
    else FullLog(steps[..|steps| - 1]) + Emitted(RunStore(steps[..|steps| - 1]), steps[|steps| - 1])
  }

  function AlertSteps(alerts: seq<WebhookAlert>, clusterId: string, times: seq<int>): (r: seq<Step>)
    requires |alerts| == |times|
    ensures |r| == |alerts|
  {
    seq(|alerts|, i requires 0 <= i < |alerts| => Alert(alerts[i], clusterId, times[i]))
  }

  /** A payload is the run of its alerts, so results about steps are results about payloads. */
  lemma {:induction false} PayloadIsSteps(steps: seq<Step>, alerts: seq<WebhookAlert>, clusterId: string, times: seq<int>)
    requires |alerts| == |times|
    ensures IngestedAll(RunStore(steps), alerts, clusterId, times) == RunStore(steps + AlertSteps(alerts, clusterId, times))
  {
    hide Ingested, Pruned;
    if alerts == [] {
      assert steps + AlertSteps(alerts, clusterId, times) == steps;
    } else {
      var n := |alerts| - 1;
      PayloadIsSteps(steps, alerts[..n], clusterId, times[..n]);
      var all := steps + AlertSteps(alerts, clusterId, times);
      assert all[..|all| - 1] == steps + AlertSteps(alerts[..n], clusterId, times[..n]);
    }
  }

  // --- History: bounded, in issue order, made of logged events ---

  predicate HistoryOk(h: seq<AlertEvent>, log: seq<AlertEvent>) { |h| <= MAX_HISTORY && InOrder(h, log) }

  predicate InOrder(h: seq<AlertEvent>, log: seq<AlertEvent>)
  {
    && (forall i, j :: 0 <= i < j < |h| ==> h[i].number < h[j].number)
    && (forall i :: 0 <= i < |h| ==> 1 <= h[i].number <= |log| && log[h[i].number - 1] == h[i])
  }

  predicate ActiveOk(active: map<string, AlertEvent>, log: seq<AlertEvent>)
  {
    forall fp :: fp in active ==>
      && active[fp].fingerprint == fp && active[fp].status == "firing"
      && 1 <= active[fp].number <= |log| && log[active[fp].number - 1] == active[fp]
      && forall k :: active[fp].number <= k < |log| ==> log[k].fingerprint != fp
  }

  predicate Numbered(log: seq<AlertEvent>) { forall i :: 0 <= i < |log| ==> log[i].number == i + 1 }

  predicate Inv(s: Store, log: seq<AlertEvent>)
  {
    s.nextId == |log| && Numbered(log) && HistoryOk(s.history, log) && ActiveOk(s.active, log)
  }

  lemma AppendInOrder(h: seq<AlertEvent>, log: seq<AlertEvent>, e: AlertEvent)
    requires InOrder(h, log) && e.number == |log| + 1
    ensures InOrder(h + [e], log + [e])
  {
  }

  lemma AppendOk(h: seq<AlertEvent>, log: seq<AlertEvent>, e: AlertEvent)
    requires HistoryOk(h, log) && e.number == |log| + 1
    ensures HistoryOk(Capped(h + [e]), log + [e])
  {
    AppendInOrder(h, log, e);
    DropInOrder(h + [e], log + [e], if |h| + 1 > MAX_HISTORY then |h| + 1 - MAX_HISTORY else 0);
  }

  lemma DropInOrder(h: seq<AlertEvent>, log: seq<AlertEvent>, d: nat)
    requires InOrder(h, log) && d <= |h|
    ensures InOrder(h[d..], log)
  {
  }

  lemma SnocInOrder(h: seq<AlertEvent>, log: seq<AlertEvent>, e: AlertEvent)
    requires InOrder(h, log) && 1 <= e.number <= |log| && log[e.number - 1] == e
    requires forall i :: 0 <= i < |h| ==> h[i].number < e.number
    ensures InOrder(h + [e], log)
  {
  }

  lemma {:induction false} KeptOk(h: seq<AlertEvent>, log: seq<AlertEvent>, olderThan: int)
    requires HistoryOk(h, log)
    ensures HistoryOk(Kept(h, olderThan), log) && |Kept(h, olderThan)| <= |h|
    ensures forall i :: 0 <= i < |Kept(h, olderThan)| && h != [] ==> Kept(h, olderThan)[i].number <= h[|h| - 1].number
  {
    if h != [] {
      var n := |h| - 1;
      var prev, e := h[..n], h[n];
      KeptOk(prev, log, olderThan);
      var kept := Kept(prev, olderThan);
      assert forall i :: 0 <= i < |kept| ==> kept[i].number < e.number by {
        if n > 0 { assert prev[n - 1] == h[n - 1]; }
      }
      hide InOrder;
      if e.receivedAt >= olderThan { assert InOrder(kept + [e], log) by { LastInOrder(h, log); SnocInOrder(kept, log, e); } }
    }
  }

  lemma LastInOrder(h: seq<AlertEvent>, log: seq<AlertEvent>)
    requires InOrder(h, log) && h != []
    ensures var e := h[|h| - 1]; 1 <= e.number <= |log| && log[e.number - 1] == e
  {
  }

  /** Issuing an event of a fingerprint leaves the other active entries last in their own. */
  lemma ActiveAppends(active: map<string, AlertEvent>, log: seq<AlertEvent>, e: AlertEvent)
    requires ActiveOk(active, log) && e.number == |log| + 1
    ensures ActiveOk(active - {e.fingerprint}, log + [e])
    ensures e.status == "firing" ==> ActiveOk(active[e.fingerprint := e], log + [e])
  {
  }

  lemma AfterKeepsInv(s: Store, log: seq<AlertEvent>, st: Step)
    requires Inv(s, log)
    ensures Inv(After(s, st), log + Emitted(s, st))
  {
    hide HistoryOk, Capped, Kept, Label;
    match st
    case Alert(a, clusterId, now) =>
      if Emitted(s, st) == [] {
        assert log + [] == log;
      } else {
        var e := Emitted(s, st)[0];
        AppendOk(s.history, log, e);
        ActiveAppends(s.active, log, e);
      }
    case Prune(olderThan) =>
      KeptOk(s.history, log, olderThan);
      assert log + [] == log;
  }

  /**
    * After every run of payloads and prunes: the history holds at most the cap, in increasing issue order,
    * and only events that were issued; every active entry is firing, filed under its own fingerprint, and is
    * the last event issued for it.
    */
  lemma {:induction false} StoreInvariant(steps: seq<Step>)
    ensures Inv(RunStore(steps), FullLog(steps))
  {
    if steps != [] {
      var prev := steps[..|steps| - 1];
      StoreInvariant(prev);
      AfterKeepsInv(RunStore(prev), FullLog(prev), steps[|steps| - 1]);
    }
  }

  /** The firing event a resolved one answers: the last event of its fingerprint before it. */
  predicate Answers(log: seq<AlertEvent>, i: nat, j: nat)
    requires i < j < |log|
  {
    && log[i].fingerprint == log[j].fingerprint && log[i].status == "firing"
    && log[j] == log[i].(status := "resolved", number := log[j].number, endsAt := log[j].endsAt,
                         receivedAt := log[j].receivedAt, resolvedAt := log[j].resolvedAt)
    && forall k :: i < k < j ==> log[k].fingerprint != log[j].fingerprint
  }

  lemma AnswersExtend(log: seq<AlertEvent>, more: seq<AlertEvent>, i: nat, j: nat)
    requires i < j < |log| && Answers(log, i, j)
    ensures Answers(log + more, i, j)
  {
  }

  /** The event a step issues, if resolved, answers the active entry it removes. */
  lemma EmittedAnswers(s: Store, log: seq<AlertEvent>, st: Step)
    requires Inv(s, log) && Emitted(s, st) != [] && Emitted(s, st)[0].status == "resolved"
    ensures exists i :: 0 <= i < |log| && Answers(log + Emitted(s, st), i, |log|)
  {
    hide HistoryOk, Numbered, Label;
    var active := s.active[st.a.fingerprint];
    var i, all := active.number - 1, log + Emitted(s, st);
    assert all[i] == log[i] == active;
    assert forall k :: i < k < |log| ==> all[k] == log[k];
    assert Answers(all, i, |log|);
  }

  /** Each resolved event was preceded by a firing event of its fingerprint, with no event of it in between, and copies it. */
  lemma {:induction false} ResolvedAnswersFiring(steps: seq<Step>, j: nat)
    requires j < |FullLog(steps)| && FullLog(steps)[j].status == "resolved"
    ensures exists i :: 0 <= i < j && Answers(FullLog(steps), i, j)
  {
    hide Inv, RunStore, Answers;
    var prev, st := steps[..|steps| - 1], steps[|steps| - 1];
    var s, before := RunStore(prev), FullLog(prev);
    assert |Emitted(s, st)| <= 1;
    hide Emitted;
    if j < |before| {
      ResolvedAnswersFiring(prev, j);
      var i :| 0 <= i < j && Answers(before, i, j);
      AnswersExtend(before, Emitted(s, st), i, j);
    } else {
      StoreInvariant(prev);
      EmittedAnswers(s, before, st);
    }
  }

  // --- Which fingerprints are active ---

  /** One fingerprint's own story: when its standing firing alert was received, if it has one. */
  function FiringSince(steps: seq<Step>, fp: string): Option<int>
  {
    if steps == [] then None
    else
      var since := FiringSince(steps[..|steps| - 1], fp);
      match steps[|steps| - 1]
      case Alert(a, _, now) =>
        if a.fingerprint != fp then since
        else if a.status == "firing" then Some(now)
        else if a.status == "resolved" then None
        else since
      case Prune(olderThan) => if since.Some? && since.value < olderThan then None else since
  }

  /** A fingerprint is active exactly when its own alerts and prunes leave it firing, since the time of its last firing alert. */
  lemma {:induction false} ActiveIffFiring(steps: seq<Step>, fp: string)
    ensures var active := RunStore(steps).active;
            FiringSince(steps, fp) == if fp in active then Some(active[fp].receivedAt) else None
  {
    if steps != [] {
      hide Capped, Kept;
      ActiveIffFiring(steps[..|steps| - 1], fp);
    }
  }

  predicate Speaks(st: Step, fp: string)
  {
    st.Alert? && st.a.fingerprint == fp && (st.a.status == "firing" || st.a.status == "resolved")
  }

  predicate IsLastWord(steps: seq<Step>, fp: string, k: nat)
  {
    && k < |steps| && Speaks(steps[k], fp)
    && (forall i :: k < i < |steps| ==> !Speaks(steps[i], fp))
  }

  predicate NotPrunedAfter(steps: seq<Step>, k: nat)
    requires k < |steps| && steps[k].Alert?
  {
    forall i :: k < i < |steps| && steps[i].Prune? ==> steps[i].olderThan <= steps[k].now
  }

  /** If no later prune reaches its last firing or resolved alert, a fingerprint is active iff that alert was firing. */
  lemma {:induction false} ActiveIffLastWasFiring(steps: seq<Step>, fp: string, k: nat)
    requires IsLastWord(steps, fp, k) && NotPrunedAfter(steps, k)
    ensures fp in RunStore(steps).active <==> steps[k].a.status == "firing"
    ensures FiringSince(steps, fp) == if steps[k].a.status == "firing" then Some(steps[k].now) else None
  {
    ActiveIffFiring(steps, fp);
    var n := |steps| - 1;
    if k < n {
      assert steps[..n][k] == steps[k];
      ActiveIffLastWasFiring(steps[..n], fp, k);
      assert !Speaks(steps[n], fp);
    }
  }

  // --- What is logged, kept and reported ---

  function LabelOr(labels: map<string, string>, name: string): string { if name in labels then labels[name] else "" }

  /** The event is the alert's: a firing one carries its fields, a resolved one its end, each stamped with the time. */
  predicate IsEventOf(e: AlertEvent, st: Step)
  {
    && st.Alert? && e.fingerprint == st.a.fingerprint && e.status == st.a.status && e.receivedAt == st.now
    && e.endsAt == st.a.endsAt
    && (e.status == "firing" || (e.status == "resolved" && e.resolvedAt == st.now))
    && (e.status == "firing" ==>
          && e.clusterId == st.clusterId && e.labels == st.a.labels && e.annotations == st.a.annotations
          && e.alertName == LabelOr(st.a.labels, "alertname") && e.namespace == LabelOr(st.a.labels, "namespace")
          && e.severity == LabelOr(st.a.labels, "severity") && e.startsAt == st.a.startsAt && e.resolvedAt == 0)
  }

  lemma EmittedIsEventOf(s: Store, log: seq<AlertEvent>, st: Step)
    requires Inv(s, log)
    ensures forall e :: e in Emitted(s, st) ==> IsEventOf(e, st)
  {
    hide HistoryOk, Numbered;
  }

  /** Every logged event is the event of one of the run's alerts. */
  lemma {:induction false} LoggedFromAlert(steps: seq<Step>, j: nat)
    requires j < |FullLog(steps)|
    ensures exists k :: 0 <= k < |steps| && IsEventOf(FullLog(steps)[j], steps[k])
  {
    hide Inv, RunStore, Emitted, IsEventOf;
    var n := |steps| - 1;
    var prev := steps[..n];
    if j < |FullLog(prev)| {
      LoggedFromAlert(prev, j);
      var k :| 0 <= k < n && IsEventOf(FullLog(prev)[j], prev[k]);
      assert IsEventOf(FullLog(steps)[j], steps[k]);
    } else {
      StoreInvariant(prev);
      EmittedIsEventOf(RunStore(prev), FullLog(prev), steps[n]);
      assert FullLog(steps)[j] in Emitted(RunStore(prev), steps[n]);
      assert IsEventOf(FullLog(steps)[j], steps[n]);
    }
  }

  /** A firing alert is always logged; a resolved one exactly when its fingerprint is active. */
  lemma AlertIsLoggedIff(steps: seq<Step>, a: WebhookAlert, clusterId: string, now: int)
    ensures var logged := |FullLog(steps + [Alert(a, clusterId, now)])| - |FullLog(steps)|;
            logged == if a.status == "firing" || (a.status == "resolved" && a.fingerprint in RunStore(steps).active) then 1 else 0
  {
    assert (steps + [Alert(a, clusterId, now)])[..|steps|] == steps;
  }

  /** Pruning keeps exactly the events that are not older than the cutoff. */
  lemma {:induction false} KeptIff(h: seq<AlertEvent>, olderThan: int, e: AlertEvent)
    ensures e in Kept(h, olderThan) <==> e in h && e.receivedAt >= olderThan
  {
    if h != [] {
      KeptIff(h[..|h| - 1], olderThan, e);
      assert h == h[..|h| - 1] + [h[|h| - 1]];
    }
  }

  lemma PruneKeepsIff(steps: seq<Step>, olderThan: int, e: AlertEvent)
    ensures e in RunStore(steps + [Prune(olderThan)]).history
            <==> e in RunStore(steps).history && e.receivedAt >= olderThan
  {
    assert (steps + [Prune(olderThan)])[..|steps|] == steps;
    KeptIff(RunStore(steps).history, olderThan, e);
  }

  function Newest(log: seq<AlertEvent>): seq<AlertEvent> { if |log| <= 10_000 then log else log[|log| - 10_000..] }

  lemma CappedIsNewest(log: seq<AlertEvent>, more: seq<AlertEvent>)
    requires |more| <= 1
    ensures Capped(Newest(log) + more) == Newest(log + more)
  {
    if |log| > 10_000 { assert Newest(log) + more == (log + more)[|log| - 10_000..]; }
  }

  /** Without prunes the history is the newest 10000 events, or all of them. */
  lemma {:induction false} OnlyTheCapEvicts(steps: seq<Step>)
    requires forall k :: 0 <= k < |steps| ==> steps[k].Alert?
    ensures RunStore(steps).history == Newest(FullLog(steps))
  {
    hide Emitted, After, Newest, Capped;
    if steps != [] {
      var n := |steps| - 1;
      OnlyTheCapEvicts(steps[..n]);
      var s, log := RunStore(steps[..n]), FullLog(steps[..n]);
      assert |Newest(log)| <= 10_000 by { NewestIsShort(log); }
      AlertHistory(s, steps[n]);
      CappedIsNewest(log, Emitted(s, steps[n]));
    } else {
      NewestIsShort([]);
    }
  }

  lemma NewestIsShort(log: seq<AlertEvent>)
    ensures |Newest(log)| <= 10_000 && (log == [] ==> Newest(log) == [])
  {
  }

  lemma AlertHistory(s: Store, st: Step)
    requires st.Alert? && |s.history| <= 10_000
    ensures After(s, st).history == Capped(s.history + Emitted(s, st)) && |Emitted(s, st)| <= 1
  {
    if Emitted(s, st) == [] { assert s.history + [] == s.history; }
  }

  /** How many of the alerts are reported on: the firing and the resolved. */
  function Relevant(alerts: seq<WebhookAlert>): nat
  {
    if alerts == [] then 0
    else Relevant(alerts[..|alerts| - 1]) + if alerts[|alerts| - 1].status in ["firing", "resolved"] then 1 else 0
  }

  /** "new" or "resolved", with the alert's own fields; only a resolved one is stamped. */
  predicate IsActionOf(action: AlertAction, a: WebhookAlert, clusterId: string, now: int)
  {
    var e := action.event;
    && action.alert == a && action.kind == (if a.status == "firing" then "new" else "resolved")
    && e.fingerprint == a.fingerprint && e.status == a.status && e.clusterId == clusterId
    && e.labels == a.labels && e.annotations == a.annotations && e.alertName == LabelOr(a.labels, "alertname")
    && e.namespace == LabelOr(a.labels, "namespace") && e.severity == LabelOr(a.labels, "severity")
    && e.startsAt == a.startsAt && e.endsAt == a.endsAt && e.resolvedAt == (if a.status == "firing" then 0 else now)
  }

  lemma ActionIs(a: WebhookAlert, clusterId: string, now: int)
    ensures a.status == "firing" ==> IsActionOf(AlertAction("new", a, EventOf(a, clusterId, 0)), a, clusterId, now)
    ensures a.status == "resolved" ==> IsActionOf(AlertAction("resolved", a, EventOf(a, clusterId, now)), a, clusterId, now)
  {
  }

  /** Each firing or resolved alert has its action, in order. */
  lemma {:induction false} ActionAt(alerts: seq<WebhookAlert>, clusterId: string, times: seq<int>, i: nat)
    requires |alerts| == |times| && i < |alerts| && alerts[i].status in ["firing", "resolved"]
    ensures |Actions(alerts, clusterId, times)| == Relevant(alerts) && Relevant(alerts[..i]) < Relevant(alerts)
    ensures IsActionOf(Actions(alerts, clusterId, times)[Relevant(alerts[..i])], alerts[i], clusterId, times[i])
  {
    hide EventOf, IsActionOf;
    var n := |alerts| - 1;
    ActionCount(alerts[..n], clusterId, times[..n]);
    if i < n {
      ActionAt(alerts[..n], clusterId, times[..n], i);
      assert alerts[..n][..i] == alerts[..i];
    } else {
      ActionIs(alerts[n], clusterId, times[n]);
    }
  }

  lemma {:induction false} ActionCount(alerts: seq<WebhookAlert>, clusterId: string, times: seq<int>)
    requires |alerts| == |times|
    ensures |Actions(alerts, clusterId, times)| == Relevant(alerts)
  {
    hide EventOf;
    if alerts != [] { ActionCount(alerts[..|alerts| - 1], clusterId, times[..|alerts| - 1]); }
  }
}
