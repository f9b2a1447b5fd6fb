/**
  * The API transport's token refresh (frontend/lib/api.ts): requests in any number and any interleaving share
  * one refresh at a time, retry at most once, and keep the cluster they were issued for.
  */
module TokenRefresh {

  import opened Options

  /** Where a request stands between two awaits. Refreshes are numbered. */
  datatype Stage =
    | Joining(refresh: nat)     // waiting, before the first fetch, for a refresh already in flight
    | Fetching(retry: bool)     // a fetch is out
    | Refreshing(refresh: nat)  // waiting, after a 401, for the refresh it started or joined
    | Answered(status: int)
    | SessionExpired
    | Failed                    // the fetch itself failed

  /** One fetch as sent: its X-Cluster-ID and bearer token. */
  datatype Fetch = Fetch(cluster: string, token: Option<nat>)

  /** `saw` lists the verdicts of the refreshes the request waited for, in order. */
  datatype Call = Call(target: string, stage: Stage, joined: Option<bool>, fetches: seq<Fetch>, saw: seq<(nat, bool)>)

  /**
    * The module's two variables, the outcome of a refresh that has ended but still holds the slot, the selected
    * cluster, the calls, and the verdicts of the refreshes that have settled for their waiters.
    */
  datatype State = State(accessToken: Option<nat>, refreshPromise: Option<nat>, ended: Option<bool>, selectedCluster: string,
                         calls: map<nat, Call>, nextRefresh: nat, verdicts: map<nat, bool>)

  datatype Event =
    | Issue(call: nat, clusterId: Option<string>)
    | JoinResumes(call: nat)
    | FetchAnswered(call: nat, status: Option<int>)  // None: the fetch rejected
    | RefreshResumes(call: nat)
    | RefreshEnds(token: Option<nat>)                // None: refused, failed or timed out
    | SlotFreed                                      // the `finally` that follows in a later microtask
    | RefreshRequested                               // another caller of refreshSession
    | SetToken(token: Option<nat>)
    | SelectCluster(cluster: string)

  function Initial(cluster: string): State { State(None, None, None, cluster, map[], 0, map[]) }

  // --- Steps ---

  function WithFetch(s: State, c: Call, retry: bool): Call
  {
    c.(stage := Fetching(retry), fetches := c.fetches + [Fetch(c.target, s.accessToken)])
  }

  function RefreshSession(s: State): State
  {
    if s.refreshPromise.None? then s.(refreshPromise := Some(s.nextRefresh), nextRefresh := s.nextRefresh + 1) else s
  }

  function Issued(s: State, call: nat, clusterId: Option<string>): State
  {
    if call in s.calls then s
    else
      var target := if clusterId.Some? then clusterId.value else s.selectedCluster;
      var c := Call(target, Failed, None, [], []);
      s.(calls := s.calls[call := if s.accessToken.None? && s.refreshPromise.Some?
                  then c.(stage := Joining(s.refreshPromise.value))
                  else WithFetch(s, c, false)])
  }

  function JoinResumed(s: State, call: nat): State
  {
    if call !in s.calls || !s.calls[call].stage.Joining? || s.calls[call].stage.refresh !in s.verdicts then s
    else
      var c := s.calls[call];
      var verdict := s.verdicts[c.stage.refresh];
      s.(calls := s.calls[call := WithFetch(s, c.(joined := Some(verdict), saw := c.saw + [(c.stage.refresh, verdict)]), false)])
  }

  function FetchSettled(s: State, call: nat, status: Option<int>): State
  {
    if call !in s.calls || !s.calls[call].stage.Fetching? then s
    else
      var c := s.calls[call];
      if status.None? then s.(calls := s.calls[call := c.(stage := Failed)])
      else if status.value != 401 || c.stage.retry then s.(calls := s.calls[call := c.(stage := Answered(status.value))])
      else if c.joined == Some(false) then s.(accessToken := None, calls := s.calls[call := c.(stage := SessionExpired)])
      else
        var s1 := RefreshSession(s);
        s1.(calls := s1.calls[call := c.(stage := Refreshing(s1.refreshPromise.value))])
  }

  function RefreshResumed(s: State, call: nat): State
  {
    if call !in s.calls || !s.calls[call].stage.Refreshing? || s.calls[call].stage.refresh !in s.verdicts then s
    else
      var c := s.calls[call];
      var verdict := s.verdicts[c.stage.refresh];
      var c1 := c.(saw := c.saw + [(c.stage.refresh, verdict)]);
      if verdict then s.(calls := s.calls[call := WithFetch(s, c1, true)])
      else s.(accessToken := None, calls := s.calls[call := c1.(stage := SessionExpired)])
  }

  function RefreshEnded(s: State, token: Option<nat>): State
  {
    if s.refreshPromise.None? || s.ended.Some? then s
    else s.(accessToken := if token.Some? then token else s.accessToken, ended := Some(token.Some?))
  }

  function Freed(s: State): State
  {
    if s.refreshPromise.None? || s.ended.None? then s
    else s.(refreshPromise := None, ended := None, verdicts := s.verdicts[s.refreshPromise.value := s.ended.value])
  }

  function Step(s: State, e: Event): State
  {
    match e
    case Issue(call, clusterId) => Issued(s, call, clusterId)
    case JoinResumes(call) => JoinResumed(s, call)
    case FetchAnswered(call, status) => FetchSettled(s, call, status)
    case RefreshResumes(call) => RefreshResumed(s, call)
    case RefreshEnds(token) => RefreshEnded(s, token)
    case SlotFreed => Freed(s)
    case RefreshRequested => RefreshSession(s)
    case SetToken(token) => s.(accessToken := token)
    case SelectCluster(cluster) => s.(selectedCluster := cluster)
  }

  function Run(s: State, es: seq<Event>): State
  {
    if es == [] then s else Step(Run(s, es[..|es| - 1]), es[|es| - 1])
  }

  // --- The module itself ---

  class Transport {
    var accessToken: Option<nat>
    var refreshPromise: Option<nat>
    var ended: Option<bool>
    var selectedCluster: string
    var calls: map<nat, Call>
    var nextRefresh: nat
    var verdicts: map<nat, bool>

    ghost function Value(): State
      reads this
    {
      State(accessToken, refreshPromise, ended, selectedCluster, calls, nextRefresh, verdicts)
    }

    method StartOrJoinRefresh() returns (refresh: nat)
      modifies this`refreshPromise, this`nextRefresh
      ensures Value() == RefreshSession(old(Value())) && refreshPromise == Some(refresh)
    {
      if refreshPromise.None? {
        refreshPromise := Some(nextRefresh);
        nextRefresh := nextRefresh + 1;
      }
      refresh := refreshPromise.value;
    }

    /** The end of `refreshAccessToken`: the token is set while the refresh still holds the slot. */
    method EndRefresh(token: Option<nat>)
      modifies this
      ensures Value() == RefreshEnded(old(Value()), token)
    {
      if refreshPromise.None? || ended.Some? { return; }
      if token.Some? { accessToken := token; }
      ended := Some(token.Some?);
    }

    /** The `finally` callback: the slot is freed and the waiters may resume. */
    method FreeSlot()
      modifies this
      ensures Value() == Freed(old(Value()))
    {
      if refreshPromise.None? || ended.None? { return; }
      verdicts := verdicts[refreshPromise.value := ended.value];
      refreshPromise, ended := None, None;
    }

    /** `send`, up to its first await: the target is decided here, once. */
    method Send(call: nat, clusterId: Option<string>)
      modifies this
      ensures Value() == Issued(old(Value()), call, clusterId)
    {
      if call in calls { return; }
      var targetCluster := if clusterId.Some? then clusterId.value else selectedCluster;
      if accessToken.None? && refreshPromise.Some? {
        calls := calls[call := Call(targetCluster, Joining(refreshPromise.value), None, [], [])];
        return;
      }
      assert [] + [Fetch(targetCluster, accessToken)] == [Fetch(targetCluster, accessToken)];
      calls := calls[call := Call(targetCluster, Fetching(false), None, [Fetch(targetCluster, accessToken)], [])];
    }

    /** `send`, once the refresh it joined before its first fetch has settled. */
    method OnJoined(call: nat)
      modifies this
      ensures Value() == JoinResumed(old(Value()), call)
    {
      if call !in calls || !calls[call].stage.Joining? || calls[call].stage.refresh !in verdicts { return; }
      var c := calls[call];
      var joined := verdicts[c.stage.refresh];
      calls := calls[call := c.(joined := Some(joined), saw := c.saw + [(c.stage.refresh, joined)],
                     stage := Fetching(false), fetches := c.fetches + [Fetch(c.target, accessToken)])];
    }

    /** `send`, from a fetch's answer to its next await or its end. */
    method OnFetch(call: nat, status: Option<int>)
      modifies this
      ensures Value() == FetchSettled(old(Value()), call, status)
    {
      if call !in calls || !calls[call].stage.Fetching? { return; }
      var c := calls[call];
      if status.None? {
        calls := calls[call := c.(stage := Failed)];
        return;
      }
      if status.value == 401 && !c.stage.retry {
        if c.joined == Some(false) {
          accessToken := None;
          calls := calls[call := c.(stage := SessionExpired)];
          return;
        }
        var refresh := StartOrJoinRefresh();
        calls := calls[call := c.(stage := Refreshing(refresh))];
        return;
      }
      calls := calls[call := c.(stage := Answered(status.value))];
    }

    /** `send`, once the refresh it waits for has settled: the one retry, or the end of the session. */
    method OnRefreshed(call: nat)
      modifies this
      ensures Value() == RefreshResumed(old(Value()), call)
    {
      if call !in calls || !calls[call].stage.Refreshing? || calls[call].stage.refresh !in verdicts { return; }
      var c := calls[call];
      var refreshed := verdicts[c.stage.refresh];
      var saw := c.saw + [(c.stage.refresh, refreshed)];
      if refreshed {
        calls := calls[call := c.(saw := saw, stage := Fetching(true), fetches := c.fetches + [Fetch(c.target, accessToken)])];
      } else {
        accessToken := None;
        calls := calls[call := c.(saw := saw, stage := SessionExpired)];
      }
    }
  }

  // --- One refresh at a time, one verdict each ---

  ghost predicate SingleFlight(s: State)
  {
    && (forall r :: r in s.verdicts <==> 0 <= r < s.nextRefresh && s.refreshPromise != Some(r))
    && (s.refreshPromise.Some? ==> s.refreshPromise.value == s.nextRefresh - 1)
    && (s.ended.Some? ==> s.refreshPromise.Some?)
  }

  /** The most a call has done at each stage; every fetch goes to its target, and only a successful refresh allows a second. */
  predicate CallOk(verdicts: map<nat, bool>, nextRefresh: nat, c: Call)
  {
    && (forall i :: 0 <= i < |c.fetches| ==> c.fetches[i].cluster == c.target)
    && (forall i :: 0 <= i < |c.saw| ==> c.saw[i].0 in verdicts && verdicts[c.saw[i].0] == c.saw[i].1)
    && |c.fetches| <= 2
    && (|c.fetches| == 2 ==> |c.saw| >= 1 && c.saw[|c.saw| - 1].1)
    && (match c.stage
        case Joining(r) => c.fetches == [] && c.saw == [] && c.joined.None? && r < nextRefresh
        case Fetching(retry) => |c.fetches| == if retry then 2 else 1
        case Refreshing(r) => |c.fetches| == 1 && r < nextRefresh
        case _ => true)
    && (c.joined == Some(false) ==> |c.fetches| <= 1 && !c.stage.Refreshing? && |c.saw| == 1 && !c.saw[0].1)
  }

  ghost predicate Inv(s: State)
  {
    SingleFlight(s) && forall k :: k in s.calls ==> CallOk(s.verdicts, s.nextRefresh, s.calls[k])
  }

  lemma CallStaysOk(v: map<nat, bool>, n: nat, v': map<nat, bool>, n': nat, c: Call)
    requires CallOk(v, n, c) && n <= n' && forall r :: r in v ==> r in v' && v'[r] == v[r]
    ensures CallOk(v', n', c)
  {
  }

  /** Replacing one call by one that is in order keeps the invariant, as does settling or starting a refresh. */
  lemma InvMoves(s: State, s': State, k: nat)
    requires Inv(s) && SingleFlight(s') && s.nextRefresh <= s'.nextRefresh
    requires forall r :: r in s.verdicts ==> r in s'.verdicts && s'.verdicts[r] == s.verdicts[r]
    requires s'.calls == s.calls || (k in s'.calls && s'.calls == s.calls[k := s'.calls[k]] && CallOk(s'.verdicts, s'.nextRefresh, s'.calls[k]))
    ensures Inv(s')
  {
    hide CallOk;
    forall l | l in s'.calls
      ensures CallOk(s'.verdicts, s'.nextRefresh, s'.calls[l])
    {
      if s'.calls == s.calls || l != k {
        CallStaysOk(s.verdicts, s.nextRefresh, s'.verdicts, s'.nextRefresh, s.calls[l]);
      }
    }
  }

  lemma StepKeepsInv(s: State, e: Event)
    requires Inv(s)
    ensures Inv(Step(s, e))
  {
    match e
    case Issue(call, clusterId) => InvMoves(s, Issued(s, call, clusterId), call);
    case JoinResumes(call) => JoinKeepsInv(s, call);
    case FetchAnswered(call, status) => FetchKeepsInv(s, call, status);
    case RefreshResumes(call) => RetryKeepsInv(s, call);
    case RefreshEnds(token) => InvMoves(s, RefreshEnded(s, token), 0);
    case SlotFreed => InvMoves(s, Freed(s), 0);
    case RefreshRequested => InvMoves(s, RefreshSession(s), 0);
    case _ =>
  }

  lemma JoinKeepsInv(s: State, call: nat)
    requires Inv(s)
    ensures Inv(JoinResumed(s, call))
  {
    InvMoves(s, JoinResumed(s, call), call);
  }

  /** After its fetch a call has ended, or waits for a refresh that it may still make use of. */
  lemma FetchedCallOk(v: map<nat, bool>, n: nat, c: Call, stage: Stage)
    requires CallOk(v, n, c) && c.stage.Fetching?
    requires || stage.Failed? || stage.Answered? || stage.SessionExpired?
             || (stage.Refreshing? && !c.stage.retry && c.joined != Some(false) && stage.refresh < n)
    ensures CallOk(v, n, c.(stage := stage))
  {
  }

  lemma RefreshSessionMoves(s: State)
    requires SingleFlight(s)
    ensures var s1 := RefreshSession(s);
            && SingleFlight(s1) && s1.refreshPromise.Some? && s1.refreshPromise.value < s1.nextRefresh
            && s.nextRefresh <= s1.nextRefresh && s1.verdicts == s.verdicts && s1.calls == s.calls
  {
  }

  lemma FetchKeepsInv(s: State, call: nat, status: Option<int>)
    requires Inv(s)
    ensures Inv(FetchSettled(s, call, status))
  {
    if call in s.calls && s.calls[call].stage.Fetching? {
      hide CallOk, SingleFlight, RefreshSession;
      RefreshSessionMoves(s);
      var s', c, s1 := FetchSettled(s, call, status), s.calls[call], RefreshSession(s);
      var n := if s'.calls[call].stage.Refreshing? then s1.nextRefresh else s.nextRefresh;
      CallStaysOk(s.verdicts, s.nextRefresh, s.verdicts, n, c);
      FetchedCallOk(s.verdicts, n, c, s'.calls[call].stage);
      SameFlight(s, s'.(refreshPromise := s.refreshPromise, ended := s.ended, nextRefresh := s.nextRefresh));
      SameFlight(s1, s'.(refreshPromise := s1.refreshPromise, ended := s1.ended, nextRefresh := s1.nextRefresh));
      InvMoves(s, s', call);
    }
  }

  lemma SameFlight(s: State, s': State)
    requires SingleFlight(s) && s'.refreshPromise == s.refreshPromise && s'.ended == s.ended
    requires s'.nextRefresh == s.nextRefresh && s'.verdicts == s.verdicts
    ensures SingleFlight(s')
  {
  }

  lemma RetryKeepsInv(s: State, call: nat)
    requires Inv(s)
    ensures Inv(RefreshResumed(s, call))
  {
    InvMoves(s, RefreshResumed(s, call), call);
  }

  lemma {:induction false} RunKeepsInv(s: State, es: seq<Event>)
    requires Inv(s)
    ensures Inv(Run(s, es))
  {
    if es != [] {
      RunKeepsInv(s, es[..|es| - 1]);
      StepKeepsInv(Run(s, es[..|es| - 1]), es[|es| - 1]);
    }
  }

  /**
    * In every interleaving: of all refreshes ever started at most one has not settled; callers that waited for
    * the same refresh saw the same verdict; each call has made at most two fetches, the second only after a
    * refresh it saw succeed; and all its fetches carried the cluster decided when it was issued.
    */
  lemma SharedRefresh(cluster: string, es: seq<Event>)
    ensures var s := Run(Initial(cluster), es);
            && (forall r :: 0 <= r < s.nextRefresh && r !in s.verdicts ==> s.refreshPromise == Some(r))
            && (forall k, l, i, j :: && k in s.calls && l in s.calls
                                     && 0 <= i < |s.calls[k].saw| && 0 <= j < |s.calls[l].saw|
                                     && s.calls[k].saw[i].0 == s.calls[l].saw[j].0
                                     ==> s.calls[k].saw[i].1 == s.calls[l].saw[j].1)
            && (forall k :: k in s.calls ==>
                  && |s.calls[k].fetches| <= 2
                  && (|s.calls[k].fetches| == 2 ==> |s.calls[k].saw| >= 1 && s.calls[k].saw[|s.calls[k].saw| - 1].1)
                  && (forall i :: 0 <= i < |s.calls[k].fetches| ==> s.calls[k].fetches[i].cluster == s.calls[k].target))
  {
    RunKeepsInv(Initial(cluster), es);
    var s := Run(Initial(cluster), es);
    forall k | k in s.calls
      ensures CallOk(s.verdicts, s.nextRefresh, s.calls[k])
    {
    }
  }

  lemma TargetKept(s: State, e: Event, k: nat)
    requires k in s.calls
    ensures k in Step(s, e).calls && Step(s, e).calls[k].target == s.calls[k].target
  {
    hide WithFetch;
    assert forall c, retry :: WithFetch(s, c, retry).target == c.target by { FetchKeepsTarget(s); }
  }

  lemma FetchKeepsTarget(s: State)
    ensures forall c, retry :: WithFetch(s, c, retry).target == c.target
  {
  }

  /** A call's cluster is fixed when it is issued: later switches, refreshes and other calls never move it. */
  lemma {:induction false} TargetIsFixed(s: State, call: nat, clusterId: Option<string>, es: seq<Event>)
    requires call !in s.calls
    ensures var s' := Run(Step(s, Issue(call, clusterId)), es);
            call in s'.calls && s'.calls[call].target == if clusterId.Some? then clusterId.value else s.selectedCluster
  {
    if es != [] {
      TargetIsFixed(s, call, clusterId, es[..|es| - 1]);
      TargetKept(Run(Step(s, Issue(call, clusterId)), es[..|es| - 1]), es[|es| - 1], call);
    }
  }

  /**
    * In every interleaving, a call that joined a refresh which failed has seen that one verdict only, fetches at
    * most once and never waits for a second refresh; a 401 then ends its session without starting one.
    */
  lemma FailedJoinEndsSession(cluster: string, es: seq<Event>, call: nat)
    requires call in Run(Initial(cluster), es).calls && Run(Initial(cluster), es).calls[call].joined == Some(false)
    ensures var s := Run(Initial(cluster), es);
            var c := s.calls[call];
            && |c.saw| == 1 && !c.saw[0].1 && |c.fetches| <= 1 && !c.stage.Refreshing? && !c.stage.Joining?
            && (c.stage.Fetching? ==>
                  var s' := Step(s, FetchAnswered(call, Some(401)));
                  s'.calls[call].stage.SessionExpired? && s'.accessToken.None? && s'.nextRefresh == s.nextRefresh)
  {
    hide Run;
    RunKeepsInv(Initial(cluster), es);
    assert CallOk(Run(Initial(cluster), es).verdicts, Run(Initial(cluster), es).nextRefresh, Run(Initial(cluster), es).calls[call]);
  }

  /** Whatever happens, a call gains at most one fetch, to its own cluster and with the token then held. */
  lemma NewFetchCarriesToken(s: State, e: Event, k: nat)
    requires k in s.calls
    ensures k in Step(s, e).calls
    ensures var before, after := s.calls[k].fetches, Step(s, e).calls[k].fetches;
            after == before || after == before + [Fetch(s.calls[k].target, s.accessToken)]
  {
  }

  /** A new call fetches at once with the token held, or waits for the running refresh if there is none. */
  lemma NewCallFetchesOrJoins(s: State, call: nat, clusterId: Option<string>)
    requires call !in s.calls
    ensures var c := Step(s, Issue(call, clusterId)).calls[call];
            if s.accessToken.None? && s.refreshPromise.Some?
            then c.stage == Joining(s.refreshPromise.value) && c.fetches == []
            else c.stage == Fetching(false) && c.fetches == [Fetch(c.target, s.accessToken)]
  {
  }

  /** A first answer other than 401 is the call's answer; a 401 starts a refresh, or joins the one that runs. */
  lemma FirstAnswerMeans(s: State, call: nat, status: int)
    requires Inv(s) && call in s.calls && s.calls[call].stage == Fetching(false) && s.calls[call].joined != Some(false)
    ensures var s' := Step(s, FetchAnswered(call, Some(status)));
            if status != 401 then s'.calls[call].stage == Answered(status) && s'.nextRefresh == s.nextRefresh
            else && s'.refreshPromise.Some? && s'.calls[call].stage == Refreshing(s'.refreshPromise.value)
                 && (if s.refreshPromise.Some? then s'.refreshPromise == s.refreshPromise && s'.nextRefresh == s.nextRefresh
                     else s'.refreshPromise == Some(s.nextRefresh) && s'.nextRefresh == s.nextRefresh + 1)
  {
  }

  /**
    * A call met with a 401 while no refresh runs: if its refresh brings a token it fetches once more with that token,
    * otherwise the session ends.
    */
  lemma UnauthorizedCallRetries(s: State, call: nat, token: Option<nat>)
    requires Inv(s) && s.refreshPromise.None? && call in s.calls
    requires s.calls[call].stage == Fetching(false) && s.calls[call].joined != Some(false)
    ensures var s1 := Step(Step(s, FetchAnswered(call, Some(401))), RefreshEnds(token));
            var s2 := Step(Step(s1, SlotFreed), RefreshResumes(call));
            var c := s2.calls[call];
            if token.Some?
            then c.stage == Fetching(true) && c.fetches == s.calls[call].fetches + [Fetch(c.target, token)] && s2.accessToken == token
            else c.stage.SessionExpired? && c.fetches == s.calls[call].fetches && s2.accessToken.None?
  {
  }
}
