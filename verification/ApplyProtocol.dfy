/**
  * The tracked-apply retry protocol: which operation id an Apply press is sent under, over every run of
  * presses, answers, remounts, reloads and storage failures (frontend/lib/yaml-apply.ts and the storage
  * half of frontend/lib/pending-apply.ts).
  */
module ApplyProtocol {

  import opened Options

  type Id = string

  const PENDING_ATTEMPT_TTL_MS: int := 10 * 60 * 1000

  // --- Requests and their wire form ---

  datatype Pin = Pin(targetCluster: string, targetGeneration: string)

  /**
    * Everything an Apply press reads. It doubles as the retry key: the source serializes exactly these
    * fields with JSON.stringify, which is injective on them.
    */
  datatype Request = Request(force: bool, pin: Option<Pin>, repairOf: Option<string>,
                             clusterId: string, user: string, yaml: string)

  datatype QueryInput = QueryInput(force: bool, pin: Option<Pin>, trackedOperationId: Option<Id>,
                                   repairOf: Option<string>)

  type Params = seq<(string, string)>

  predicate Truthy(s: Option<string>) { s.Some? && s.value != "" }

  function BuildApplyQuery(q: QueryInput): Params
  {
    (if q.force then [("force", "true")] else [])
    + (if q.pin.Some?
       then [("targetCluster", q.pin.value.targetCluster), ("targetGeneration", q.pin.value.targetGeneration)]
       else [])
    + (if Truthy(q.trackedOperationId)
       then [("trackedOperationId", q.trackedOperationId.value)]
            + (if Truthy(q.repairOf) then [("repairOf", q.repairOf.value)] else [])
       else [])
  }

  /** What a server reads back: the first value of a named parameter. */
  function Param(ps: Params, name: string): Option<string>
  {
    if ps == [] then None
    else if ps[0].0 == name then Some(ps[0].1)
    else Param(ps[1..], name)
  }

  function ParseApplyQuery(ps: Params): QueryInput
  {
    var cluster, generation := Param(ps, "targetCluster"), Param(ps, "targetGeneration");
    QueryInput(Param(ps, "force") == Some("true"),
               if cluster.Some? && generation.Some? then Some(Pin(cluster.value, generation.value)) else None,
               Param(ps, "trackedOperationId"), Param(ps, "repairOf"))
  }

  /** The part of the input that reaches the server: falsy values are not sent, and `repairOf` only beside an id. */
  function Sendable(q: QueryInput): QueryInput
  {
    var id := if q.trackedOperationId == Some("") then None else q.trackedOperationId;
    q.(trackedOperationId := id, repairOf := if id.None? || q.repairOf == Some("") then None else q.repairOf)
  }

  lemma {:induction false} ParamOfConcat(ps: Params, rest: Params, name: string)
    ensures Param(ps + rest, name) == if Param(ps, name).Some? then Param(ps, name) else Param(rest, name)
  {
    if ps == [] {
      assert ps + rest == rest;
    } else {
      assert (ps + rest)[1..] == ps[1..] + rest;
      ParamOfConcat(ps[1..], rest, name);
    }
  }

  /** The query string carries exactly the sendable part of its input, so distinct requests under one id differ on the wire. */
  lemma QueryRoundTrip(q: QueryInput)
    ensures ParseApplyQuery(BuildApplyQuery(q)) == Sendable(q)
  {
    QueryParam(q, "force");
    QueryParam(q, "targetCluster");
    QueryParam(q, "targetGeneration");
    QueryParam(q, "trackedOperationId");
    QueryParam(q, "repairOf");
  }

  /** The value of one parameter of a built query. */
  lemma QueryParam(q: QueryInput, name: string)
    requires name in ["force", "targetCluster", "targetGeneration", "trackedOperationId", "repairOf"]
    ensures Param(BuildApplyQuery(q), name) ==
            if name == "force" then (if q.force then Some("true") else None)
            else if name == "targetCluster" then (if q.pin.Some? then Some(q.pin.value.targetCluster) else None)
            else if name == "targetGeneration" then (if q.pin.Some? then Some(q.pin.value.targetGeneration) else None)
            else if name == "trackedOperationId" then Sendable(q).trackedOperationId
            else Sendable(q).repairOf
  {
    hide Param;
    var sent := Sendable(q);
    var f := Part("force", if q.force then Some("true") else None);
    var c := Part("targetCluster", if q.pin.Some? then Some(q.pin.value.targetCluster) else None);
    var g := Part("targetGeneration", if q.pin.Some? then Some(q.pin.value.targetGeneration) else None);
    var t, r := Part("trackedOperationId", sent.trackedOperationId), Part("repairOf", sent.repairOf);
    assert BuildApplyQuery(q) == f + (c + (g + (t + r)));
    ParamOfConcat(f, c + (g + (t + r)), name);
    ParamOfConcat(c, g + (t + r), name);
    ParamOfConcat(g, t + r, name);
    ParamOfConcat(t, r, name);
    ParamOfPart("force", if q.force then Some("true") else None, name);
    ParamOfPart("targetCluster", if q.pin.Some? then Some(q.pin.value.targetCluster) else None, name);
    ParamOfPart("targetGeneration", if q.pin.Some? then Some(q.pin.value.targetGeneration) else None, name);
    ParamOfPart("trackedOperationId", sent.trackedOperationId, name);
    ParamOfPart("repairOf", sent.repairOf, name);
  }

  function Part(name: string, v: Option<string>): Params { if v.Some? then [(name, v.value)] else [] }

  lemma ParamOfPart(name: string, v: Option<string>, asked: string)
    ensures Param(Part(name, v), asked) == if asked == name then v else None
  {
  }

  // --- Answers and their classification ---

  /** A failed apply: no usable response, or the API error the server sent. */
  datatype Failure =
    | NoResponse
    | ApiError(status: int, reason: string, applied: Option<bool>, retrySameOperationId: Option<bool>)

  datatype Answer = Success | Failed(failure: Failure)

  datatype Refusal = Refusal(reason: string, applied: Option<bool>, retrySameOperationId: Option<bool>)

  function TrackedApplyRefusal(f: Failure): Option<Refusal>
  {
    if f.NoResponse? then None
    else if f.status == 503 && f.reason == "receipt_store_unavailable"
    then Some(Refusal(f.reason, f.applied, f.retrySameOperationId))
    else if f.status != 409 then None
    else if f.reason in {"operation_id_conflict", "operation_in_flight", "operation_id_reused"}
    then Some(Refusal(f.reason, None, None))
    else None
  }

  predicate IsIndeterminateApplyFailure(f: Failure)
  {
    if f.NoResponse? then true
    else if f.status >= 500 then true
    else f.status == 409 && f.reason == "operation_in_flight"
  }

  predicate AttemptMayHaveApplied(f: Failure, refusal: Option<Refusal>)
  {
    if refusal.Some? && refusal.value.reason == "receipt_store_unavailable"
    then refusal.value.applied != Some(false) || refusal.value.retrySameOperationId == Some(true)
    else if refusal.Some? then false
    else if f.ApiError? && f.status == 409 then false
    else IsIndeterminateApplyFailure(f)
  }

  /** Whether an answer ends the attempt, so that the next press mints a new id. */
  predicate Releases(a: Answer, reusedId: bool)
  {
    match a
    case Success => true
    case Failed(f) =>
      var refusal := TrackedApplyRefusal(f);
      var releaseStoreFailure :=
        refusal.Some? && refusal.value.reason == "receipt_store_unavailable"
        && (if refusal.value.retrySameOperationId.Some? then !refusal.value.retrySameOperationId.value else !reusedId);
      !IsIndeterminateApplyFailure(f) || releaseStoreFailure
  }

  predicate IsStoreFailure(f: Failure)
  {
    f.ApiError? && f.status == 503 && f.reason == "receipt_store_unavailable"
  }

  /**
    * Which failures end an attempt, in terms of the answer as it arrived: a definite API error, below 500 and not
    * the operation still running; or the receipt store's 503, if it says that the id is not to be kept, or says
    * nothing about the id of a first send.
    */
  lemma ReleasesIff(f: Failure, reusedId: bool)
    ensures Releases(Failed(f), reusedId) <==>
              && f.ApiError?
              && (|| (f.status < 500 && !(f.status == 409 && f.reason == "operation_in_flight"))
                  || (f.status == 503 && f.reason == "receipt_store_unavailable"
                      && (f.retrySameOperationId == Some(false) || (f.retrySameOperationId.None? && !reusedId))))
    ensures Releases(Success, reusedId)
  {
  }

  /** Which failures are tracked refusals: the receipt store's 503, and a 409 for one of three reasons about the id. */
  lemma RefusalIff(f: Failure)
    ensures var r := TrackedApplyRefusal(f);
            && (r.Some? <==> f.ApiError? && (|| (f.status == 503 && f.reason == "receipt_store_unavailable")
                                             || (f.status == 409 && f.reason == "operation_id_conflict")
                                             || (f.status == 409 && f.reason == "operation_in_flight")
                                             || (f.status == 409 && f.reason == "operation_id_reused")))
            && (r.Some? ==> r.value.reason == f.reason)
            && (r.Some? ==> if f.status == 503 then r.value.applied == f.applied && r.value.retrySameOperationId == f.retrySameOperationId
                            else r.value.applied.None? && r.value.retrySameOperationId.None?)
  {
  }

  /**
    * Which failures may have changed the cluster: no answer, and any 5xx, unless it is the receipt store's and says
    * that nothing was applied and the id need not be kept.
    */
  lemma MayHaveAppliedIff(f: Failure)
    ensures AttemptMayHaveApplied(f, TrackedApplyRefusal(f)) <==>
              || f.NoResponse?
              || (f.status >= 500
                  && !(f.status == 503 && f.reason == "receipt_store_unavailable" && f.applied == Some(false)
                       && f.retrySameOperationId != Some(true)))
  {
  }

  /**
    * The two classifications agree: an id kept for a retry is always reported as possibly applied, except
    * for an operation still in flight and a store failure that answered "not applied" to a retry without
    * saying what becomes of the id.
    */
  lemma KeptMeansPossiblyApplied(f: Failure, reusedId: bool)
    ensures !Releases(Failed(f), reusedId) && !AttemptMayHaveApplied(f, TrackedApplyRefusal(f))
            <==> || (f.ApiError? && f.status == 409 && f.reason == "operation_in_flight")
                 || (IsStoreFailure(f) && f.applied == Some(false) && f.retrySameOperationId.None? && reusedId)
  {
  }

  // --- State ---

  /** An operation id, the request it was minted for and when it was first sent. */
  datatype Attempt = Attempt(id: Id, key: Request, at: int)

  /** A sessionStorage value under the pending-apply prefix. */
  datatype Entry = Malformed | Entry(id: Id, at: int, digest: string)

  type Storage = map<string, Entry>

  /** A request whose answer has not arrived yet. */
  datatype Flight = Flight(key: Request, id: Option<Id>, reusedId: bool)

  /** One request handed to the network. */
  datatype Send = Send(id: Option<Id>, req: Request, at: int)

  /**
    * The mounted editor's pending attempt and outstanding request, the outstanding requests of unmounted
    * editors, the tab's storage keyed by digest, and every request sent so far.
    */
  datatype State = State(mem: Option<Attempt>, flight: Option<Flight>, orphans: seq<Flight>,
                         storage: Storage, sends: seq<Send>)

  /** Which of a press's storage calls succeed; a failed call throws and is swallowed. */
  datatype StorageCalls = StorageCalls(getOk: bool, removeOk: bool, setOk: bool)

  datatype Event =
    | Press(req: Request, tracked: bool, now: int, newId: Id, io: StorageCalls)
    | Reply(answer: Answer, removeOk: bool)
    | LateReply(i: nat, answer: Answer, removeOk: bool)
    | Remount
    | Reload
    | Forget(gone: set<string>)  // a logout's clean-up, complete or cut short

  type Digest = Request -> string

  // --- Storage operations ---

  function ReadStoredAttempt(s: Storage, dig: Digest, key: Request, now: int, io: StorageCalls)
    : (r: (Storage, Option<Attempt>))
  {
    var d := dig(key);
    if !io.getOk || d !in s then (s, None)
    else if s[d].Entry? && s[d].id != "" && s[d].digest == d && 0 <= now - s[d].at < PENDING_ATTEMPT_TTL_MS
    then (s, Some(Attempt(s[d].id, key, s[d].at)))
    else (if io.removeOk then s - {d} else s, None)
  }

  function WriteStoredAttempt(s: Storage, dig: Digest, a: Attempt, setOk: bool): Storage
  {
    if setOk then s[dig(a.key) := Entry(a.id, a.at, dig(a.key))] else s
  }

  function ClearStoredAttempt(s: Storage, dig: Digest, key: Request, removeOk: bool): Storage
  {
    if removeOk then s - {dig(key)} else s
  }

  // --- Steps ---

  predicate Reusable(mem: Option<Attempt>, key: Request, now: int)
  {
    mem.Some? && mem.value.key == key && now - mem.value.at < PENDING_ATTEMPT_TTL_MS
  }

  function Step(dig: Digest, st: State, e: Event): State
  {
    match e
    case Press(req, tracked, now, newId, io) =>
      if st.flight.Some? then st
      else if tracked then
        var (s1, pending) :=
          if Reusable(st.mem, req, now) then (st.storage, st.mem)
          else ReadStoredAttempt(st.storage, dig, req, now, io);
        var a := if pending.Some? then pending.value else Attempt(newId, req, now);
        State(Some(a), Some(Flight(req, Some(a.id), pending.Some?)), st.orphans,
              WriteStoredAttempt(s1, dig, a, io.setOk), st.sends + [Send(Some(a.id), req, now)])
      else
        State(None, Some(Flight(req, None, false)), st.orphans,
              ClearStoredAttempt(st.storage, dig, req, io.removeOk), st.sends + [Send(None, req, now)])
    case Reply(answer, removeOk) =>
      if st.flight.None? then st
      else if Releases(answer, st.flight.value.reusedId) then
        st.(mem := None, flight := None,
            storage := ClearStoredAttempt(st.storage, dig, st.flight.value.key, removeOk))
      else st.(flight := None)
    case LateReply(i, answer, removeOk) =>
      if i >= |st.orphans| then st
      else
        var f := st.orphans[i];
        st.(orphans := st.orphans[..i] + st.orphans[i + 1..],
            storage := if Releases(answer, f.reusedId)
            then ClearStoredAttempt(st.storage, dig, f.key, removeOk) else st.storage)
    case Remount =>
      st.(mem := None, flight := None,
          orphans := if st.flight.Some? then st.orphans + [st.flight.value] else st.orphans)
    case Reload => st.(mem := None, flight := None, orphans := [])
    case Forget(gone) => st.(storage := st.storage - gone)
  }

  function Run(dig: Digest, st: State, es: seq<Event>): State
  {
    if es == [] then st else Step(dig, Run(dig, st, es[..|es| - 1]), es[|es| - 1])
  }

  /** A fresh tab: nothing pending or sent; storage may hold unreadable leftovers. */
  predicate Initial(st: State)
  {
    st.mem.None? && st.flight.None? && st.orphans == [] && st.sends == []
    && forall d :: d in st.storage ==> st.storage[d].Malformed?
  }

  // --- The history of minted ids ---

  /** For each id sent, its first send. */
  function Minted(sends: seq<Send>): map<Id, Attempt>
  {
    if sends == [] then map[]
    else
      var m := Minted(sends[..|sends| - 1]);
      var s := sends[|sends| - 1];
      if s.id.None? || s.id.value in m then m else m[s.id.value := Attempt(s.id.value, s.req, s.at)]
  }

  /** `uuidv4` returns a non-empty id that was never sent before; `keys` holds every request of the run. */
  ghost predicate Legal(keys: set<Request>, st: State, e: Event)
  {
    e.Press? ==> e.newId != "" && e.newId !in Minted(st.sends) && e.req in keys
  }

  ghost predicate LegalRun(dig: Digest, keys: set<Request>, st: State, es: seq<Event>)
  {
    es != [] ==>
      && LegalRun(dig, keys, st, es[..|es| - 1])
      && Legal(keys, Run(dig, st, es[..|es| - 1]), es[|es| - 1])
  }

  /** The digest keeps the requests apart. */
  ghost predicate CollisionFree(dig: Digest, keys: set<Request>)
  {
    forall k, k' :: k in keys && k' in keys && dig(k) == dig(k') ==> k == k'
  }

  // --- The invariant ---

  ghost predicate FlightOk(keys: set<Request>, m: map<Id, Attempt>, f: Flight)
  {
    f.key in keys && (f.id.Some? ==> f.id.value in m && m[f.id.value].key == f.key)
  }

  ghost predicate FlightsOk(keys: set<Request>, m: map<Id, Attempt>, st: State)
  {
    && (st.flight.Some? ==> FlightOk(keys, m, st.flight.value))
    && (forall f :: f in st.orphans ==> FlightOk(keys, m, f))
  }

  ghost predicate StorageOk(dig: Digest, m: map<Id, Attempt>, s: Storage)
  {
    forall d :: d in s && s[d].Entry? ==> s[d].digest == d && s[d].id in m && m[s[d].id].at == s[d].at && dig(m[s[d].id].key) == d
  }

  ghost predicate MintedOk(keys: set<Request>, m: map<Id, Attempt>)
  {
    forall x :: x in m ==> x != "" && m[x].id == x && m[x].key in keys
  }

  ghost predicate SendsOk(m: map<Id, Attempt>, sends: seq<Send>)
  {
    forall i :: 0 <= i < |sends| && sends[i].id.Some? ==> SentUnder(m, sends[i])
  }

  ghost predicate Inv(dig: Digest, keys: set<Request>, st: State)
  {
    var m := Minted(st.sends);
    && (st.mem.Some? ==> st.mem.value.id in m && m[st.mem.value.id] == st.mem.value)
    && StorageOk(dig, m, st.storage)
    && MintedOk(keys, m)
    && SendsOk(m, st.sends)
    && FlightsOk(keys, m, st)
  }

  /** A tracked send agrees with the first send of its id and is inside its window. */
  predicate SentUnder(m: map<Id, Attempt>, s: Send)
    requires s.id.Some?
  {
    s.id.value in m && s.req == m[s.id.value].key && s.at - m[s.id.value].at < PENDING_ATTEMPT_TTL_MS
  }

  lemma MintedExtends(sends: seq<Send>, s: Send)
    ensures Minted(sends + [s]) ==
            if s.id.None? || s.id.value in Minted(sends) then Minted(sends)
            else Minted(sends)[s.id.value := Attempt(s.id.value, s.req, s.at)]
  {
    assert (sends + [s])[..|sends|] == sends;
  }

  /** The attempt a tracked press sends under is either freshly minted or the one its request was minted for. */
  lemma PressAttempt(dig: Digest, keys: set<Request>, st: State, e: Event)
    requires CollisionFree(dig, keys) && Inv(dig, keys, st) && Legal(keys, st, e)
    requires e.Press? && e.tracked && st.flight.None?
    ensures var st' := Step(dig, st, e);
            var m := Minted(st.sends);
            && st'.mem.Some? && st'.mem.value.key == e.req
            && e.now - st'.mem.value.at < PENDING_ATTEMPT_TTL_MS
            && st'.sends == st.sends + [Send(Some(st'.mem.value.id), e.req, e.now)]
            && (|| st'.mem.value == Attempt(e.newId, e.req, e.now)
                || (st'.mem.value.id in m && m[st'.mem.value.id] == st'.mem.value))
  {
  }

  /**
    * A tracked press goes out under an earlier id exactly when the editor remembers one for this request that is
    * less than ten minutes old, or storage can be read and holds one that is, and not one from the future.
    */
  lemma PressReusesIff(dig: Digest, keys: set<Request>, st: State, e: Event)
    requires CollisionFree(dig, keys) && Inv(dig, keys, st) && Legal(keys, st, e)
    requires e.Press? && e.tracked && st.flight.None?
    ensures var sends := Step(dig, st, e).sends;
            sends[|sends| - 1].id != Some(e.newId)
            <==> || (st.mem.Some? && st.mem.value.key == e.req && e.now - st.mem.value.at < 600_000)
                 || (&& e.io.getOk && dig(e.req) in st.storage && st.storage[dig(e.req)].Entry?
                     && 0 <= e.now - st.storage[dig(e.req)].at < 600_000)
  {
    hide Minted;
    PressAttempt(dig, keys, st, e);
  }

  /** A press does nothing while an answer is outstanding; otherwise it sends its request, once, and waits for the answer. */
  lemma PressSends(dig: Digest, st: State, e: Event)
    requires e.Press?
    ensures var st' := Step(dig, st, e);
            if st.flight.Some? then st' == st
            else && |st'.sends| == |st.sends| + 1 && st'.sends[..|st.sends|] == st.sends
                 && var s := st'.sends[|st.sends|];
                    && s.req == e.req && s.at == e.now && (s.id.Some? <==> e.tracked) && st'.orphans == st.orphans
                    && st'.flight.Some? && st'.flight.value.key == e.req && st'.flight.value.id == s.id
                    && (!e.tracked ==> !st'.flight.value.reusedId)
  {
  }

  /** Ids minted later do not touch earlier ones. */
  ghost predicate Extends(m: map<Id, Attempt>, m': map<Id, Attempt>)
  {
    forall x :: x in m ==> x in m' && m'[x] == m[x]
  }

  lemma SendExtends(m: map<Id, Attempt>, m': map<Id, Attempt>, sends: seq<Send>, s: Send)
    requires SendsOk(m, sends) && Extends(m, m')
    requires s.id.Some? ==> SentUnder(m', s)
    ensures SendsOk(m', sends + [s])
  {
    forall i | 0 <= i < |sends| && sends[i].id.Some?
      ensures SentUnder(m', sends[i])
    {
      assert SentUnder(m, sends[i]);
    }
  }

  lemma FlightsExtend(keys: set<Request>, m: map<Id, Attempt>, m': map<Id, Attempt>, st: State, f: Flight)
    requires FlightsOk(keys, m, st) && Extends(m, m') && FlightOk(keys, m', f)
    ensures FlightsOk(keys, m', st.(flight := Some(f)))
  {
  }

  lemma StorageExtends(dig: Digest, m: map<Id, Attempt>, m': map<Id, Attempt>, s: Storage, s': Storage, a: Attempt)
    requires StorageOk(dig, m, s) && Extends(m, m') && a.id in m' && m'[a.id] == a
    requires forall d :: d in s' ==> (d in s && s'[d] == s[d]) || (d == dig(a.key) && s'[d] == Entry(a.id, a.at, d))
    ensures StorageOk(dig, m', s')
  {
  }

  lemma TrackedPressKeepsInv(dig: Digest, keys: set<Request>, st: State, e: Event)
    requires CollisionFree(dig, keys) && Inv(dig, keys, st) && Legal(keys, st, e)
    requires e.Press? && e.tracked && st.flight.None?
    ensures Inv(dig, keys, Step(dig, st, e))
  {
    hide Minted, StorageOk, SendsOk, FlightsOk, SentUnder, CollisionFree;
    PressAttempt(dig, keys, st, e);
    var st' := Step(dig, st, e);
    var m, m' := Minted(st.sends), Minted(st'.sends);
    var a := st'.mem.value;
    var s := Send(Some(a.id), e.req, e.now);
    MintedExtends(st.sends, s);
    assert m'[a.id] == a && Extends(m, m');
    StorageExtends(dig, m, m', st.storage, st'.storage, a);
    assert SentUnder(m', s) by { SentAsMinted(m', a, s); }
    SendExtends(m, m', st.sends, s);
    FlightsExtend(keys, m, m', st, st'.flight.value);
    assert FlightsOk(keys, m', st') by { SameFlights(keys, m', st.(flight := st'.flight), st'); }
  }

  lemma SentAsMinted(m: map<Id, Attempt>, a: Attempt, s: Send)
    requires a.id in m && m[a.id] == a && s.id == Some(a.id) && s.req == a.key && s.at - a.at < PENDING_ATTEMPT_TTL_MS
    ensures SentUnder(m, s)
  {
  }

  lemma SameFlights(keys: set<Request>, m: map<Id, Attempt>, st: State, st': State)
    requires FlightsOk(keys, m, st) && st'.flight == st.flight && st'.orphans == st.orphans
    ensures FlightsOk(keys, m, st')
  {
  }

  lemma UntrackedPressKeepsInv(dig: Digest, keys: set<Request>, st: State, e: Event)
    requires Inv(dig, keys, st) && Legal(keys, st, e)
    requires e.Press? && !e.tracked && st.flight.None?
    ensures Inv(dig, keys, Step(dig, st, e))
  {
    hide Minted, SendsOk, FlightsOk, SentUnder;
    var st' := Step(dig, st, e);
    var m := Minted(st.sends);
    var s := Send(None, e.req, e.now);
    MintedExtends(st.sends, s);
    SendExtends(m, m, st.sends, s);
    FlightsExtend(keys, m, m, st, st'.flight.value);
    assert FlightsOk(keys, m, st') by { SameFlights(keys, m, st.(flight := st'.flight), st'); }
  }

  /** Nothing is sent and nothing is added: the invariant cannot be lost. */
  lemma ShrinkKeepsInv(dig: Digest, keys: set<Request>, st: State, st': State)
    requires Inv(dig, keys, st) && st'.sends == st.sends && (st'.mem == st.mem || st'.mem.None?)
    requires forall d :: d in st'.storage ==> d in st.storage && st'.storage[d] == st.storage[d]
    requires st'.flight == st.flight || st'.flight.None?
    requires forall f :: f in st'.orphans ==> f in st.orphans || st.flight == Some(f)
    ensures Inv(dig, keys, st')
  {
    hide Minted, SendsOk;
  }

  lemma StepKeepsInv(dig: Digest, keys: set<Request>, st: State, e: Event)
    requires CollisionFree(dig, keys) && Inv(dig, keys, st) && Legal(keys, st, e)
    ensures Inv(dig, keys, Step(dig, st, e))
  {
    hide Inv, CollisionFree, Releases;
    if e.Press? && st.flight.None? {
      if e.tracked { TrackedPressKeepsInv(dig, keys, st, e); } else { UntrackedPressKeepsInv(dig, keys, st, e); }
    } else {
      ShrinkKeepsInv(dig, keys, st, Step(dig, st, e));
    }
  }

  lemma {:induction false} RunKeepsInv(dig: Digest, keys: set<Request>, st: State, es: seq<Event>)
    requires CollisionFree(dig, keys) && Inv(dig, keys, st) && LegalRun(dig, keys, st, es)
    ensures Inv(dig, keys, Run(dig, st, es))
  {
    if es != [] {
      RunKeepsInv(dig, keys, st, es[..|es| - 1]);
      StepKeepsInv(dig, keys, Run(dig, st, es[..|es| - 1]), es[|es| - 1]);
    }
  }

  // --- One id, one request, one window ---

  /** What the network carries for a send: query, X-Cluster-ID header and body. */
  function Wire(s: Send): (Params, string, string)
  {
    (BuildApplyQuery(QueryInput(s.req.force, s.req.pin, s.id, s.req.repairOf)), s.req.clusterId, s.req.yaml)
  }

  predicate IsFirstSend(sends: seq<Send>, i: nat)
    requires i < |sends|
  {
    sends[i].id.Some? && forall k :: 0 <= k < i ==> sends[k].id != sends[i].id
  }

  lemma {:induction false} FirstSendExists(sends: seq<Send>, j: nat)
    requires j < |sends| && sends[j].id.Some?
    ensures exists i :: 0 <= i <= j && sends[i].id == sends[j].id && IsFirstSend(sends, i)
  {
    if !IsFirstSend(sends, j) {
      var k :| 0 <= k < j && sends[k].id == sends[j].id;
      FirstSendExists(sends, k);
    }
  }

  lemma {:induction false} MintedIsFirst(sends: seq<Send>, i: nat)
    requires i < |sends| && IsFirstSend(sends, i)
    ensures var x := sends[i].id.value; x in Minted(sends) && Minted(sends)[x] == Attempt(x, sends[i].req, sends[i].at)
  {
    var n := |sends| - 1;
    if i < n {
      MintedIsFirst(sends[..n], i);
    } else {
      MintedKeys(sends[..n]);
    }
  }

  lemma {:induction false} MintedKeys(sends: seq<Send>)
    ensures forall x :: x in Minted(sends) ==> exists k :: 0 <= k < |sends| && sends[k].id == Some(x)
  {
    if sends != [] {
      var n := |sends| - 1;
      MintedKeys(sends[..n]);
      forall x | x in Minted(sends)
        ensures exists k :: 0 <= k < |sends| && sends[k].id == Some(x)
      {
        if x in Minted(sends[..n]) {
          var k :| 0 <= k < n && sends[..n][k].id == Some(x);
          assert sends[k].id == Some(x);
        } else {
          assert sends[n].id == Some(x);
        }
      }
    }
  }

  /**
    * Over every run, two sends under one operation id carry the same query, cluster header and body, and
    * every send under an id happens less than the reuse window after the first send of that id. The clock
    * is arbitrary: it may jump either way.
    */
  lemma {:induction false} SameIdSameRequest(dig: Digest, keys: set<Request>, st: State, es: seq<Event>)
    requires CollisionFree(dig, keys) && Initial(st) && LegalRun(dig, keys, st, es)
    ensures var sends := Run(dig, st, es).sends;
            forall i, j :: 0 <= i < |sends| && 0 <= j < |sends| && sends[i].id.Some? && sends[i].id == sends[j].id ==>
                             sends[i].req == sends[j].req && Wire(sends[i]) == Wire(sends[j])
    ensures var sends := Run(dig, st, es).sends;
            forall i, j :: 0 <= i < |sends| && 0 <= j < |sends| && IsFirstSend(sends, i) && sends[i].id == sends[j].id ==>
                             sends[j].at - sends[i].at < 600_000
    ensures var sends := Run(dig, st, es).sends;
            forall j :: 0 <= j < |sends| && sends[j].id.Some? ==>
                          exists i :: 0 <= i <= j && sends[i].id == sends[j].id && IsFirstSend(sends, i)
  {
    RunKeepsInv(dig, keys, st, es);
    var sends := Run(dig, st, es).sends;
    forall i, j | 0 <= i < |sends| && 0 <= j < |sends| && sends[i].id.Some? && sends[i].id == sends[j].id
      ensures sends[i].req == sends[j].req
      ensures IsFirstSend(sends, i) ==> sends[j].at - sends[i].at < PENDING_ATTEMPT_TTL_MS
    {
      assert SentUnder(Minted(sends), sends[i]) && SentUnder(Minted(sends), sends[j]);
      if IsFirstSend(sends, i) { MintedIsFirst(sends, i); }
    }
    forall j | 0 <= j < |sends| && sends[j].id.Some?
      ensures exists i :: 0 <= i <= j && sends[i].id == sends[j].id && IsFirstSend(sends, i)
    {
      FirstSendExists(sends, j);
    }
  }

  // --- At most one execution ---

  /**
    * A server that runs each operation id once: `deliveries` lists send numbers in the order requests reach
    * it, repeats and reorderings included; the result lists the sends that were executed.
    */
  function Executed(sends: seq<Send>, deliveries: seq<nat>): (log: seq<nat>)
    requires AllBelow(deliveries, |sends|)
    ensures AllBelow(log, |sends|)
  {
    if deliveries == [] then []
    else
      var log := Executed(sends, deliveries[..|deliveries| - 1]);
      var d := deliveries[|deliveries| - 1];
      if sends[d].id.Some? && AlreadyRan(sends, log, sends[d].id) then log else log + [d]
  }

  predicate AllBelow(ds: seq<nat>, n: nat) { forall i :: 0 <= i < |ds| ==> ds[i] < n }

  predicate AlreadyRan(sends: seq<Send>, log: seq<nat>, id: Option<Id>)
    requires AllBelow(log, |sends|)
  {
    exists i :: 0 <= i < |log| && sends[log[i]].id == id
  }

  predicate OncePerId(sends: seq<Send>, log: seq<nat>)
    requires AllBelow(log, |sends|)
  {
    forall p, q :: 0 <= p < q < |log| && sends[log[p]].id.Some? ==> sends[log[p]].id != sends[log[q]].id
  }

  lemma {:induction false} ExecutedOncePerId(sends: seq<Send>, deliveries: seq<nat>)
    requires AllBelow(deliveries, |sends|)
    ensures OncePerId(sends, Executed(sends, deliveries))
  {
    if deliveries != [] {
      var prev := deliveries[..|deliveries| - 1];
      ExecutedOncePerId(sends, prev);
      var before, log := Executed(sends, prev), Executed(sends, deliveries);
      var n := |before|;
      if log != before {
        forall p | 0 <= p < n && sends[log[p]].id.Some?
          ensures sends[log[p]].id != sends[log[n]].id
        {
          assert before[p] == log[p];
        }
        assert forall p, q :: 0 <= p < q < n ==> before[p] == log[p] && before[q] == log[q];
      }
    }
  }

  /** Every send that reaches the server is executed, itself or, if it is tracked, as another send of its id. */
  lemma {:induction false} DeliveredIsExecuted(sends: seq<Send>, deliveries: seq<nat>, i: nat)
    requires AllBelow(deliveries, |sends|) && i < |deliveries|
    ensures var log := Executed(sends, deliveries); var id := sends[deliveries[i]].id;
            deliveries[i] in log || (id.Some? && exists p :: 0 <= p < |log| && sends[log[p]].id == id)
  {
    var n := |deliveries| - 1;
    var before := Executed(sends, deliveries[..n]);
    if i < n {
      DeliveredIsExecuted(sends, deliveries[..n], i);
      var id := sends[deliveries[i]].id;
      if deliveries[i] !in before {
        var p :| 0 <= p < |before| && sends[before[p]].id == id;
        assert Executed(sends, deliveries)[p] == before[p];
      }
    }
  }

  /**
    * An answer that leaves the outcome open: lost, still in flight, or a 5xx, unless it is the receipt store's and
    * does not ask for the id to be kept.
    */
  predicate Unanswered(a: Answer)
  {
    && a.Failed?
    && (|| a.failure.NoResponse?
        || (a.failure.status == 409 && a.failure.reason == "operation_in_flight")
        || (a.failure.status >= 500 && !(&& a.failure.status == 503 && a.failure.reason == "receipt_store_unavailable"
                                         && a.failure.retrySameOperationId != Some(true))))
  }

  /** The answers that leave the outcome open are exactly those after which the attempt lives on, first send or not. */
  lemma UnansweredNeverReleases(a: Answer)
    ensures Unanswered(a) <==> !Releases(a, false) && !Releases(a, true)
  {
    if a.Failed? {
      ReleasesIff(a.failure, false);
      ReleasesIff(a.failure, true);
    }
  }

  /**
    * What may happen in an unbroken series of presses of one request in one mounted editor. Storage may
    * fail or be emptied, and answers to unmounted editors may arrive, at any point.
    */
  predicate SeriesEvent(e: Event, a: Attempt)
  {
    match e
    case Press(req, tracked, now, _, _) => req == a.key && tracked && now - a.at < 600_000
    case Reply(answer, _) => Unanswered(answer)
    case LateReply(_, _, _) => true
    case Forget(_) => true
    case Remount => false
    case Reload => false
  }

  lemma {:induction false} SeriesKeepsId(dig: Digest, st: State, a: Attempt, es: seq<Event>)
    requires st.mem == Some(a)
    requires forall e :: e in es ==> SeriesEvent(e, a)
    ensures var st' := Run(dig, st, es);
            && st'.mem == Some(a) && st.sends <= st'.sends
            && forall i :: |st.sends| <= i < |st'.sends| ==> st'.sends[i].id == Some(a.id) && st'.sends[i].req == a.key
  {
    if es != [] {
      SeriesKeepsId(dig, st, a, es[..|es| - 1]);
      assert SeriesEvent(es[|es| - 1], a);
    }
  }

  /**
    * From any state, however reached, a tracked press followed by any series of presses of the same request
    * whose answers leave the outcome open executes the change at most once, whatever the network does with
    * the requests and whatever storage does.
    */
  lemma SeriesExecutesAtMostOnce(dig: Digest, st: State, press: Event, es: seq<Event>, deliveries: seq<nat>)
    requires press.Press? && press.tracked && st.flight.None?
    requires forall e :: e in es ==> SeriesEvent(e, Step(dig, st, press).mem.value)
    requires AllBelow(deliveries, |Run(dig, Step(dig, st, press), es).sends|)
    ensures var sends := Run(dig, Step(dig, st, press), es).sends;
            var log := Executed(sends, deliveries);
            && (forall i :: |st.sends| <= i < |sends| ==> sends[i].id == Step(dig, st, press).flight.value.id)
            && (forall p, q :: 0 <= p < |log| && 0 <= q < |log| && |st.sends| <= log[p] && |st.sends| <= log[q] ==> p == q)
  {
    var st1 := Step(dig, st, press);
    var a := st1.mem.value;
    SeriesKeepsId(dig, st1, a, es);
    var sends := Run(dig, st1, es).sends;
    assert sends[|st.sends|] == st1.sends[|st.sends|];
    var log := Executed(sends, deliveries);
    ExecutedOncePerId(sends, deliveries);
    forall p, q | 0 <= p < |log| && 0 <= q < |log| && |st.sends| <= log[p] && |st.sends| <= log[q]
      ensures p == q
    {
      assert sends[log[p]].id == Some(a.id) && sends[log[q]].id == Some(a.id);
    }
  }

  // --- The id survives remounts, reloads and other requests while storage can be read ---

  /** Storage holds the attempt, and so does the editor if it holds anything for that request. */
  ghost predicate Held(dig: Digest, st: State, a: Attempt)
  {
    && dig(a.key) in st.storage && st.storage[dig(a.key)] == Entry(a.id, a.at, dig(a.key))
    && (st.mem.Some? && st.mem.value.key == a.key ==> st.mem.value == a)
  }

  /**
    * An event that does not end the attempt: no answer to one of its sends releases it, it is not
    * superseded by an untracked press, and presses of its request can read storage and fall in the window.
    */
  predicate KeepsAttempt(dig: Digest, st: State, e: Event, a: Attempt)
  {
    match e
    case Press(req, tracked, now, _, io) =>
      req == a.key ==> tracked && io.getOk && 0 <= now - a.at < 600_000
    case Reply(answer, _) =>
      st.flight.Some? && st.flight.value.key == a.key ==> !Releases(answer, st.flight.value.reusedId)
    case LateReply(i, answer, _) =>
      i < |st.orphans| && st.orphans[i].key == a.key ==> !Releases(answer, st.orphans[i].reusedId)
    case Remount => true
    case Reload => true
    case Forget(gone) => dig(a.key) !in gone
  }

  ghost predicate KeepsAttemptRun(dig: Digest, st: State, es: seq<Event>, a: Attempt)
  {
    es != [] ==>
      && KeepsAttemptRun(dig, st, es[..|es| - 1], a)
      && KeepsAttempt(dig, Run(dig, st, es[..|es| - 1]), es[|es| - 1], a)
  }

  lemma KeepsAttemptStep(dig: Digest, keys: set<Request>, st: State, e: Event, a: Attempt)
    requires CollisionFree(dig, keys) && Inv(dig, keys, st) && Legal(keys, st, e)
    requires a.id != "" && a.key in keys && Held(dig, st, a) && KeepsAttempt(dig, st, e, a)
    ensures var st' := Step(dig, st, e);
            && Held(dig, st', a) && st.sends <= st'.sends
            && forall i :: |st.sends| <= i < |st'.sends| && st'.sends[i].req == a.key ==> st'.sends[i].id == Some(a.id)
  {
    match e
    case Press(req, tracked, _, _, _) =>
      if req != a.key { assert dig(req) != dig(a.key); }
    case Reply(_, _) =>
      if st.flight.Some? && st.flight.value.key != a.key { assert dig(st.flight.value.key) != dig(a.key); }
    case LateReply(i, _, _) =>
      if i < |st.orphans| && st.orphans[i].key != a.key {
        assert st.orphans[i] in st.orphans;
        assert dig(st.orphans[i].key) != dig(a.key);
      }
    case _ =>
  }

  /**
    * Once an attempt is stored, every later press of its request inside the window is sent under its id,
    * through any number of remounts, reloads, late answers and presses of other requests, as long as
    * storage can be read and no answer to the attempt is definite.
    */
  lemma {:induction false} AttemptSurvives(dig: Digest, keys: set<Request>, st: State, es: seq<Event>, a: Attempt)
    requires CollisionFree(dig, keys) && Inv(dig, keys, st) && LegalRun(dig, keys, st, es)
    requires a.id != "" && a.key in keys && Held(dig, st, a) && KeepsAttemptRun(dig, st, es, a)
    ensures var st' := Run(dig, st, es);
            && Held(dig, st', a) && st.sends <= st'.sends
            && forall i :: |st.sends| <= i < |st'.sends| && st'.sends[i].req == a.key ==> st'.sends[i].id == Some(a.id)
  {
    if es != [] {
      var es' := es[..|es| - 1];
      AttemptSurvives(dig, keys, st, es', a);
      RunKeepsInv(dig, keys, st, es');
      KeepsAttemptStep(dig, keys, Run(dig, st, es'), es[|es| - 1], a);
    }
  }

  /** A tracked press whose write succeeds leaves its attempt held. */
  lemma StoredPressIsHeld(dig: Digest, keys: set<Request>, st: State, e: Event)
    requires CollisionFree(dig, keys) && Inv(dig, keys, st) && Legal(keys, st, e)
    requires e.Press? && e.tracked && e.io.setOk && st.flight.None?
    ensures var st' := Step(dig, st, e);
            st'.mem.Some? && st'.mem.value.id != "" && st'.mem.value.key == e.req && Held(dig, st', st'.mem.value)
  {
  }

  /** ... so the request is executed at most once across those remounts and reloads too. */
  lemma SurvivingAttemptExecutesAtMostOnce(dig: Digest, keys: set<Request>, st: State, es: seq<Event>, a: Attempt,
                                           deliveries: seq<nat>)
    requires CollisionFree(dig, keys) && Inv(dig, keys, st) && LegalRun(dig, keys, st, es)
    requires a.id != "" && a.key in keys && Held(dig, st, a) && KeepsAttemptRun(dig, st, es, a)
    requires AllBelow(deliveries, |Run(dig, st, es).sends|)
    ensures var sends := Run(dig, st, es).sends;
            var log := Executed(sends, deliveries);
            forall p, q :: && 0 <= p < |log| && 0 <= q < |log|
                           && |st.sends| <= log[p] && sends[log[p]].req == a.key
                           && |st.sends| <= log[q] && sends[log[q]].req == a.key
                           ==> p == q
  {
    AttemptSurvives(dig, keys, st, es, a);
    ExecutedOncePerId(Run(dig, st, es).sends, deliveries);
  }

  // --- A released id is not sent again ---

  ghost predicate Gone(st: State, x: Id)
  {
    && x in Minted(st.sends)
    && (st.mem.Some? ==> st.mem.value.id != x)
    && forall d :: d in st.storage && st.storage[d].Entry? ==> st.storage[d].id != x
  }

  lemma GoneStep(dig: Digest, keys: set<Request>, st: State, e: Event, x: Id)
    requires Legal(keys, st, e) && Gone(st, x)
    ensures var st' := Step(dig, st, e);
            && Gone(st', x) && st.sends <= st'.sends
            && forall i :: |st.sends| <= i < |st'.sends| ==> st'.sends[i].id != Some(x)
  {
    if e.Press? && st.flight.None? {
      hide Minted;
      var st' := Step(dig, st, e);
      var s := st'.sends[|st.sends|];
      assert st'.sends == st.sends + [s];
      MintedExtends(st.sends, s);
      assert st'.mem.Some? ==> s.id == Some(st'.mem.value.id) != Some(x);
    }
  }

  lemma {:induction false} GoneRun(dig: Digest, keys: set<Request>, st: State, es: seq<Event>, x: Id)
    requires LegalRun(dig, keys, st, es) && Gone(st, x)
    ensures var st' := Run(dig, st, es);
            && Gone(st', x) && st.sends <= st'.sends
            && forall i :: |st.sends| <= i < |st'.sends| ==> st'.sends[i].id != Some(x)
  {
    if es != [] {
      GoneRun(dig, keys, st, es[..|es| - 1], x);
      GoneStep(dig, keys, Run(dig, st, es[..|es| - 1]), es[|es| - 1], x);
    }
  }

  /** Some continuation of the run sends the id again. */
  ghost predicate CanResend(dig: Digest, keys: set<Request>, st: State, x: Id)
  {
    exists es: seq<Event> :: LegalRun(dig, keys, st, es) && SendsAgain(dig, st, es, x)
  }

  ghost predicate SendsAgain(dig: Digest, st: State, es: seq<Event>, x: Id)
  {
    exists i :: |st.sends| <= i < |Run(dig, st, es).sends| && Run(dig, st, es).sends[i].id == Some(x)
  }

  lemma UnusedId(used: set<Id>) returns (x: Id)
    ensures x != "" && x !in used
  {
    var n := LongerThanAll(used);
    x := seq(n + 1, _ => 'x');
  }

  lemma LongerThanAll(used: set<Id>) returns (n: nat)
    ensures forall y :: y in used ==> |y| <= n
  {
    if used == {} {
      n := 0;
    } else {
      var y :| y in used;
      var m := LongerThanAll(used - {y});
      n := if |y| > m then |y| else m;
      assert forall z :: z in used ==> z == y || z in used - {y};
    }
  }

  /** An id the storage holds can be sent again: by a remounted editor, in a press of its own request. */
  lemma StoredCanResend(dig: Digest, keys: set<Request>, st: State, key: Request)
    requires Inv(dig, keys, st) && key in keys && dig(key) in st.storage
    requires var e := st.storage[dig(key)]; e.Entry? && e.id != "" && e.digest == dig(key)
    ensures CanResend(dig, keys, st, st.storage[dig(key)].id)
  {
    hide Inv, Minted;
    var x := st.storage[dig(key)].id;
    var y := UnusedId(Minted(st.sends).Keys);
    var press := Press(key, true, st.storage[dig(key)].at, y, StorageCalls(true, true, true));
    TwoSteps(dig, keys, st, Remount, press);
    var es := [Remount, press];
    assert Run(dig, st, es).sends == st.sends + [Send(Some(x), key, press.now)];
    assert Run(dig, st, es).sends[|st.sends|].id == Some(x);
    assert SendsAgain(dig, st, es, x);
  }

  /** An id in the mounted editor's memory can be sent again: once its request has failed, in another press of it. */
  lemma RememberedCanResend(dig: Digest, keys: set<Request>, st: State)
    requires Inv(dig, keys, st) && st.mem.Some?
    ensures CanResend(dig, keys, st, st.mem.value.id)
  {
    hide Minted;
    var a := st.mem.value;
    var y := UnusedId(Minted(st.sends).Keys);
    var press := Press(a.key, true, a.at, y, StorageCalls(true, true, true));
    var failed := Reply(Failed(NoResponse), true);
    TwoSteps(dig, keys, st, failed, press);
    var es := [failed, press];
    assert Run(dig, st, es).sends == st.sends + [Send(Some(a.id), a.key, a.at)];
    assert Run(dig, st, es).sends[|st.sends|].id == Some(a.id);
    assert SendsAgain(dig, st, es, a.id);
  }

  lemma TwoSteps(dig: Digest, keys: set<Request>, st: State, e: Event, press: Event)
    requires !e.Press? && press.Press? && press.newId != "" && press.newId !in Minted(st.sends) && press.req in keys
    ensures Run(dig, st, [e, press]) == Step(dig, Step(dig, st, e), press) && LegalRun(dig, keys, st, [e, press])
  {
    var es := [e, press];
    assert es[..1] == [e] && [e][..0] == [];
    assert Run(dig, st, []) == st && LegalRun(dig, keys, st, []);
    assert Run(dig, st, [e]) == Step(dig, st, e) && LegalRun(dig, keys, st, [e]);
    assert Step(dig, st, e).sends == st.sends;
  }

  lemma GoneCannotResend(dig: Digest, keys: set<Request>, st: State, x: Id)
    requires Gone(st, x)
    ensures !CanResend(dig, keys, st, x)
  {
    hide Gone;
    forall es | LegalRun(dig, keys, st, es)
      ensures !SendsAgain(dig, st, es, x)
    {
      GoneRun(dig, keys, st, es, x);
    }
  }

  /** The storage holds the id under the request it was minted for, which is the only place it can be. */
  ghost predicate StoredUnder(dig: Digest, st: State, key: Request, x: Id)
  {
    dig(key) in st.storage && st.storage[dig(key)].Entry? && st.storage[dig(key)].id == x
  }

  /** In any state of a run, an id sent for a request can be sent again exactly when memory or storage still holds it. */
  lemma CanResendIff(dig: Digest, keys: set<Request>, st: State, key: Request, x: Id)
    requires Inv(dig, keys, st) && x in Minted(st.sends) && Minted(st.sends)[x].key == key
    ensures CanResend(dig, keys, st, x) <==> (st.mem.Some? && st.mem.value.id == x) || StoredUnder(dig, st, key, x)
  {
    hide Minted, CanResend;
    if st.mem.Some? && st.mem.value.id == x {
      RememberedCanResend(dig, keys, st);
    } else if StoredUnder(dig, st, key, x) {
      StoredCanResend(dig, keys, st, key);
    } else {
      assert Gone(st, x);
      GoneCannotResend(dig, keys, st, x);
    }
  }

  /**
    * After a success or definite refusal reaches the mounted editor, its id can be sent again exactly when
    * storage held it and refused the removal.
    */
  lemma ReleasedIdIsFinal(dig: Digest, keys: set<Request>, st: State, answer: Answer, removeOk: bool)
    requires CollisionFree(dig, keys) && Inv(dig, keys, st)
    requires st.flight.Some? && st.flight.value.id.Some? && Releases(answer, st.flight.value.reusedId)
    ensures var x := st.flight.value.id.value;
            CanResend(dig, keys, Step(dig, st, Reply(answer, removeOk)), x)
            <==> !removeOk && StoredUnder(dig, st, st.flight.value.key, x)
  {
    hide CanResend, Releases;
    var reply := Reply(answer, removeOk);
    StepKeepsInv(dig, keys, st, reply);
    CanResendIff(dig, keys, Step(dig, st, reply), st.flight.value.key, st.flight.value.id.value);
  }

  /**
    * After such an answer reaches an unmounted editor, its id can be sent again exactly when the mounted
    * editor has taken it up meanwhile, or storage held it and refused the removal.
    */
  lemma LateReleaseIsFinalIff(dig: Digest, keys: set<Request>, st: State, i: nat, answer: Answer, removeOk: bool)
    requires CollisionFree(dig, keys) && Inv(dig, keys, st)
    requires i < |st.orphans| && st.orphans[i].id.Some? && Releases(answer, st.orphans[i].reusedId)
    ensures var x := st.orphans[i].id.value;
            CanResend(dig, keys, Step(dig, st, LateReply(i, answer, removeOk)), x)
            <==> (st.mem.Some? && st.mem.value.id == x) || (!removeOk && StoredUnder(dig, st, st.orphans[i].key, x))
  {
    hide CanResend, Releases;
    var reply := LateReply(i, answer, removeOk);
    assert st.orphans[i] in st.orphans;
    StepKeepsInv(dig, keys, st, reply);
    CanResendIff(dig, keys, Step(dig, st, reply), st.orphans[i].key, st.orphans[i].id.value);
  }

  /** An untracked press gives up the attempt of its request: its id can come back only if storage refused the removal. */
  lemma UntrackedPressIsFinalIff(dig: Digest, keys: set<Request>, st: State, e: Event, x: Id)
    requires CollisionFree(dig, keys) && Inv(dig, keys, st) && Legal(keys, st, e)
    requires e.Press? && !e.tracked && st.flight.None? && x in Minted(st.sends) && Minted(st.sends)[x].key == e.req
    ensures CanResend(dig, keys, Step(dig, st, e), x) <==> !e.io.removeOk && StoredUnder(dig, st, e.req, x)
  {
    hide CanResend, Minted;
    StepKeepsInv(dig, keys, st, e);
    MintedExtends(st.sends, Send(None, e.req, e.now));
    CanResendIff(dig, keys, Step(dig, st, e), e.req, x);
  }

  /** A press, a remount before its answer, and a second press: the remounted editor takes the stored id. */
  lemma RemountTakesStoredId(dig: Digest, r: Request, x: Id, y: Id)
    requires x != ""
    ensures var ok := StorageCalls(true, true, true);
            var st := Step(dig, Step(dig, Step(dig, State(None, None, [], map[], []), Press(r, true, 0, x, ok)), Remount),
                           Press(r, true, 1, y, ok));
            && st.mem == Some(Attempt(x, r, 0)) && st.orphans == [Flight(r, Some(x), false)]
            && st.sends == [Send(Some(x), r, 0), Send(Some(x), r, 1)]
  {
    var ok := StorageCalls(true, true, true);
    var one := [Send(Some(x), r, 0)];
    var kept := map[dig(r) := Entry(x, 0, dig(r))];
    var s1 := Step(dig, State(None, None, [], map[], []), Press(r, true, 0, x, ok));
    assert s1 == State(Some(Attempt(x, r, 0)), Some(Flight(r, Some(x), false)), [], kept, one);
    assert Step(dig, s1, Remount) == State(None, None, [Flight(r, Some(x), false)], kept, one);
  }

  /**
    * So the guarantee is the mounted editor's own. A press, a remount and a second press leave the stored id with
    * both editors; a success that then reaches the first one does not stop the second from sending it once more.
    */
  lemma LateSuccessLeavesIdInUse(dig: Digest, r: Request, x: Id, y: Id)
    requires x != "" && y != "" && x != y
    ensures var ok := StorageCalls(true, true, true);
            var st0 := State(None, None, [], map[], []);
            var es := [Press(r, true, 0, x, ok), Remount, Press(r, true, 1, y, ok)];
            var st := Run(dig, st0, es);
            && LegalRun(dig, {r}, st0, es) && |st.orphans| == 1 && st.orphans[0].id == Some(x)
            && CanResend(dig, {r}, Step(dig, st, LateReply(0, Success, true)), x)
  {
    hide LegalRun, Inv, CanResend, StoredUnder, Reusable, ReadStoredAttempt, WriteStoredAttempt, Minted;
    var ok := StorageCalls(true, true, true);
    var st0 := State(None, None, [], map[], []);
    var p, q := Press(r, true, 0, x, ok), Press(r, true, 1, y, ok);
    var es := [p, Remount, q];
    assert es[..2] == [p, Remount] && [p, Remount][..1] == [p] && [p][..0] == [];
    assert Run(dig, st0, []) == st0;
    assert Run(dig, st0, [p]) == Step(dig, st0, p);
    assert Run(dig, st0, [p, Remount]) == Step(dig, Step(dig, st0, p), Remount);
    assert Run(dig, st0, es) == Step(dig, Step(dig, Step(dig, st0, p), Remount), q);
    RemountTakesStoredId(dig, r, x, y);
    FirstPressesAreLegal(dig, r, x, y);
    assert Inv(dig, {r}, st0) by { EmptyInv(dig, {r}); }
    assert CollisionFree(dig, {r});
    RunKeepsInv(dig, {r}, st0, es);
    LateReleaseIsFinalIff(dig, {r}, Run(dig, st0, es), 0, Success, true);
  }

  lemma EmptyInv(dig: Digest, keys: set<Request>)
    ensures Inv(dig, keys, State(None, None, [], map[], []))
  {
  }

  lemma FirstPressesAreLegal(dig: Digest, r: Request, x: Id, y: Id)
    requires x != "" && y != "" && x != y
    ensures var ok := StorageCalls(true, true, true);
            LegalRun(dig, {r}, State(None, None, [], map[], []), [Press(r, true, 0, x, ok), Remount, Press(r, true, 1, y, ok)])
  {
    hide Minted;
    var ok := StorageCalls(true, true, true);
    var st0 := State(None, None, [], map[], []);
    var p, q := Press(r, true, 0, x, ok), Press(r, true, 1, y, ok);
    var es := [p, Remount, q];
    assert es[..2] == [p, Remount] && [p, Remount][..1] == [p] && [p][..0] == [];
    assert Minted([]) == map[] by { MintedKeys([]); }
    assert Run(dig, st0, []) == st0 && LegalRun(dig, {r}, st0, []);
    assert Run(dig, st0, [p]) == Step(dig, st0, p) && LegalRun(dig, {r}, st0, [p]);
    assert Step(dig, st0, p).sends == [Send(Some(x), r, 0)] == [] + [Send(Some(x), r, 0)];
    MintedExtends([], Send(Some(x), r, 0));
  }

  // --- The hook itself ---

  /** One browser tab: the mounted editor's refs, the requests still outstanding, and sessionStorage. */
  class Tab {
    const dig: Digest
    var pendingAttempt: Option<Attempt>
    var applying: Option<Flight>
    var unmounted: seq<Flight>
    var storage: Storage
    var network: seq<Send>

    ghost function Value(): State
      reads this
    {
      State(pendingAttempt, applying, unmounted, storage, network)
    }

    method ReadStored(requestKey: Request, now: int, io: StorageCalls) returns (r: Option<Attempt>)
      modifies this`storage
      ensures (storage, r) == ReadStoredAttempt(old(storage), dig, requestKey, now, io)
    {
      var digest := dig(requestKey);
      if !io.getOk || digest !in storage {
        return None;
      }
      var parsed := storage[digest];
      if parsed.Entry? {
        var Entry(id, at, stored) := parsed;
        if id != "" && stored == digest && now - at >= 0 && now - at < PENDING_ATTEMPT_TTL_MS {
          return Some(Attempt(id, requestKey, at));
        }
      }
      if io.removeOk {
        storage := storage - {digest};
      }
      return None;
    }

    method ReleaseAttempt(requestKey: Request, removeOk: bool)
      modifies this`storage, this`pendingAttempt
      ensures pendingAttempt == None
      ensures storage == ClearStoredAttempt(old(storage), dig, requestKey, removeOk)
    {
      pendingAttempt := None;
      if removeOk {
        storage := storage - {dig(requestKey)};
      }
    }

    /** An Apply press, up to the point where it waits for the answer. */
    method HandleApply(requestKey: Request, tracked: bool, now: int, newId: Id, io: StorageCalls)
      modifies this
      ensures Value() == Step(dig, old(Value()), Press(requestKey, tracked, now, newId, io))
    {
      if applying.Some? {
        return;
      }
      var reusedId := false;
      var trackedOperationId: Option<Id> := None;
      if tracked {
        var mem := pendingAttempt;
        var pending: Option<Attempt>;
        if mem.Some? && mem.value.key == requestKey && now - mem.value.at < PENDING_ATTEMPT_TTL_MS {
          pending := mem;
        } else {
          pending := ReadStored(requestKey, now, io);
        }
        reusedId := pending.Some?;
        var attempt := if pending.Some? then pending.value else Attempt(newId, requestKey, now);
        trackedOperationId := Some(attempt.id);
        pendingAttempt := Some(attempt);
        if io.setOk {
          storage := storage[dig(attempt.key) := Entry(attempt.id, attempt.at, dig(attempt.key))];
        }
      } else {
        ReleaseAttempt(requestKey, io.removeOk);
      }
      applying := Some(Flight(requestKey, trackedOperationId, reusedId));
      network := network + [Send(trackedOperationId, requestKey, now)];
    }

    /** The rest of the handler, once the mounted editor's answer arrives. */
    method Settle(answer: Answer, removeOk: bool)
      modifies this
      ensures Value() == Step(dig, old(Value()), Reply(answer, removeOk))
    {
      if applying.None? {
        return;
      }
      var flight := applying.value;
      var release := EndsAttempt(answer, flight.reusedId);
      if release {
        ReleaseAttempt(flight.key, removeOk);
      }
      applying := None;
    }

    /** The same continuation run by an editor that is no longer mounted: its own ref is gone, storage is shared. */
    method SettleUnmounted(i: nat, answer: Answer, removeOk: bool)
      modifies this
      ensures Value() == Step(dig, old(Value()), LateReply(i, answer, removeOk))
    {
      if i >= |unmounted| {
        return;
      }
      var flight := unmounted[i];
      var release := EndsAttempt(answer, flight.reusedId);
      if release && removeOk {
        storage := storage - {dig(flight.key)};
      }
      unmounted := unmounted[..i] + unmounted[i + 1..];
    }

    static method EndsAttempt(answer: Answer, reusedId: bool) returns (release: bool)
      ensures release == Releases(answer, reusedId)
    {
      if answer.Success? {
        return true;
      }
      var err := answer.failure;
      var trackedFailure := TrackedApplyRefusal(err);
      var releaseStoreFailure := false;
      if trackedFailure.Some? && trackedFailure.value.reason == "receipt_store_unavailable" {
        releaseStoreFailure :=
          if trackedFailure.value.retrySameOperationId.Some?
          then !trackedFailure.value.retrySameOperationId.value
          else !reusedId;
      }
      release := !IsIndeterminateApplyFailure(err) || releaseStoreFailure;
    }
  }
}
