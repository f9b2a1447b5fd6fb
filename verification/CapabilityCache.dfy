/**
  * The client-side capability cache (frontend/lib/capabilities.ts): a short-lived cache keyed on cluster and
  * generation that a cluster switch empties, with requests outstanding across switches.
  */
module CapabilityCache {

  import opened Options

  const CAPABILITY_TTL_MS: int := 30_000

  datatype Target = Target(clusterId: string, generation: string)

  /** The server's answer; `body` stands for the capability rows. */
  datatype Response = Response(clusterId: string, body: nat)

  datatype Entry = Entry(expiresAt: int, value: Response)

  datatype Request = Request(target: Target, issuedEpoch: nat)

  function CacheKey(t: Target): string { t.clusterId + "\0" + t.generation }

  /** A request that was answered about its own cluster: when it was issued and completed, and what it said. */
  datatype Answer = Answer(target: Target, issuedEpoch: nat, completedEpoch: nat, completedAt: int, value: Response)

  /** What a caller was handed: from the cache or from its own request. */
  datatype Served = Served(target: Target, value: Response, at: int, epoch: nat, fromCache: bool)

  /**
    * The module's two variables, the operator's epoch (one more at every switch), the requests in flight by
    * number, and two histories.
    */
  datatype State = State(cache: map<string, Entry>, cacheEpoch: nat, epoch: nat,
                         inFlight: map<nat, Request>, nextRequest: nat, answers: seq<Answer>, served: seq<Served>)

  datatype Event =
    | Fetch(target: Target, t: int)
    | Respond(request: nat, value: Option<Response>, t: int)  // None: the request failed
    | Switch

  function Initial(epoch: nat): State { State(map[], epoch, epoch, map[], 0, [], []) }

  function Synced(s: State): State
  {
    if s.epoch != s.cacheEpoch then s.(cache := map[], cacheEpoch := s.epoch) else s
  }

  function Fetched(s0: State, target: Target, t: int): State
  {
    var s := Synced(s0);
    var key := CacheKey(target);
    if key in s.cache && s.cache[key].expiresAt > t then
      s.(served := s.served + [Served(target, s.cache[key].value, t, s.epoch, true)])
    else
      s.(cache := s.cache - {key}, inFlight := s.inFlight[s.nextRequest := Request(target, s.epoch)],
         nextRequest := s.nextRequest + 1)
  }

  function Responded(s0: State, request: nat, value: Option<Response>, t: int): State
  {
    if request !in s0.inFlight then s0
    else
      var r := s0.inFlight[request];
      var s := s0.(inFlight := s0.inFlight - {request});
      if value.None? || value.value.clusterId != r.target.clusterId then s
      else
        var s1 := Synced(s);
        var s2 := s1.(answers := s1.answers + [Answer(r.target, r.issuedEpoch, s1.epoch, t, value.value)],
                      served := s1.served + [Served(r.target, value.value, t, s1.epoch, false)]);
        if s1.epoch == r.issuedEpoch
        then s2.(cache := s2.cache[CacheKey(r.target) := Entry(t + CAPABILITY_TTL_MS, value.value)])
        else s2
  }

  function Step(s: State, e: Event): State
  {
    match e
    case Fetch(target, t) => Fetched(s, target, t)
    case Respond(request, value, t) => Responded(s, request, value, t)
    case Switch => s.(epoch := s.epoch + 1)
  }

  function Run(s: State, es: seq<Event>): State
  {
    if es == [] then s else Step(Run(s, es[..|es| - 1]), es[|es| - 1])
  }

  // --- The module itself ---

  class Cache {
    var cache: map<string, Entry>
    var cacheEpoch: nat
    var epoch: nat
    var inFlight: map<nat, Request>
    var nextRequest: nat
    var answers: seq<Answer>
    var served: seq<Served>

    ghost function Value(): State
      reads this
    {
      State(cache, cacheEpoch, epoch, inFlight, nextRequest, answers, served)
    }

    constructor (epoch: nat)
      ensures Value() == Initial(epoch)
    {
      cache, cacheEpoch, this.epoch := map[], epoch, epoch;
      inFlight, nextRequest, answers, served := map[], 0, [], [];
    }

    method SyncCacheEpoch() returns (e: nat)
      modifies this`cache, this`cacheEpoch
      ensures e == epoch && Value() == Synced(old(Value()))
    {
      e := epoch;
      if e != cacheEpoch {
        cache := map[];
        cacheEpoch := e;
      }
    }

    /** fetchCapabilities up to its await: a hit, or the number of the request it waits for. */
    method FetchCapabilities(target: Target, t: int) returns (hit: Option<Response>)
      modifies this
      ensures Value() == Fetched(old(Value()), target, t)
      ensures hit.Some? <==> served != old(served)
      ensures hit.Some? ==> served == old(served) + [Served(target, hit.value, t, epoch, true)]
    {
      var issuedEpoch := SyncCacheEpoch();
      var key := CacheKey(target);
      if key in cache && cache[key].expiresAt > t {
        hit := Some(cache[key].value);
        served := served + [Served(target, hit.value, t, epoch, true)];
        return;
      }
      cache := cache - {key};
      inFlight := inFlight[nextRequest := Request(target, issuedEpoch)];
      nextRequest := nextRequest + 1;
      hit := None;
    }

    /** The rest of fetchCapabilities, once its request settles. */
    method Complete(request: nat, value: Option<Response>, t: int)
      modifies this
      ensures Value() == Responded(old(Value()), request, value, t)
    {
      if request !in inFlight { return; }
      var r := inFlight[request];
      inFlight := inFlight - {request};
      if value.None? || value.value.clusterId != r.target.clusterId { return; }
      var now := SyncCacheEpoch();
      if now == r.issuedEpoch {
        cache := cache[CacheKey(r.target) := Entry(t + CAPABILITY_TTL_MS, value.value)];
      }
      answers := answers + [Answer(r.target, r.issuedEpoch, now, t, value.value)];
      served := served + [Served(r.target, value.value, t, now, false)];
    }
  }

  // --- Keys ---

  /** Keys identify their target as long as cluster ids contain no NUL. */
  lemma KeyInjective(a: Target, b: Target)
    requires '\0' !in a.clusterId && '\0' !in b.clusterId && CacheKey(a) == CacheKey(b)
    ensures a == b
  {
    var k, m, n := CacheKey(a), |a.clusterId|, |b.clusterId|;
    assert k[m] == '\0' && CacheKey(b)[n] == '\0';
    assert k[..m] == a.clusterId && k[..n] == b.clusterId && k[m + 1..] == a.generation && CacheKey(b)[n + 1..] == b.generation;
  }

  // --- Every hit is current ---

  /** Entry `e` under key `k` came from an answer issued and completed in `epoch`. */
  ghost predicate Backed(answers: seq<Answer>, epoch: nat, k: string, e: Entry)
  {
    exists i :: 0 <= i < |answers| && BackedBy(answers[i], epoch, k, e)
  }

  predicate BackedBy(a: Answer, epoch: nat, k: string, e: Entry)
  {
    && CacheKey(a.target) == k && a.issuedEpoch == epoch && a.completedEpoch == epoch
    && a.value == e.value && e.expiresAt == a.completedAt + CAPABILITY_TTL_MS
  }

  /** No two of the targets share a key. */
  predicate KeysApart(targets: set<Target>)
  {
    forall a, b :: a in targets && b in targets && CacheKey(a) == CacheKey(b) ==> a == b
  }

  /** The run asks only about these targets. */
  predicate Asks(targets: set<Target>, es: seq<Event>)
  {
    forall i :: 0 <= i < |es| && es[i].Fetch? ==> es[i].target in targets
  }

  /** A hit is the answer to a request for the same cluster and generation, issued and completed in the epoch of the hit, less than 30 s before. */
  predicate CurrentHit(h: Served, a: Answer)
  {
    && a.target == h.target && a.value == h.value && a.value.clusterId == h.target.clusterId
    && a.issuedEpoch == h.epoch && a.completedEpoch == h.epoch
    && h.at < a.completedAt + 30_000
  }

  ghost predicate HitOk(answers: seq<Answer>, h: Served)
  {
    h.fromCache ==> exists i :: 0 <= i < |answers| && CurrentHit(h, answers[i])
  }

  ghost predicate Inv(targets: set<Target>, s: State)
  {
    && s.cacheEpoch <= s.epoch
    && (forall k :: k in s.cache ==> Backed(s.answers, s.cacheEpoch, k, s.cache[k]))
    && (forall i :: 0 <= i < |s.answers| ==> s.answers[i].value.clusterId == s.answers[i].target.clusterId
                                             && s.answers[i].target in targets)
    && (forall r :: r in s.inFlight ==> s.inFlight[r].target in targets)
    && (forall i :: 0 <= i < |s.served| ==> HitOk(s.answers, s.served[i]))
  }

  lemma MoreAnswers(answers: seq<Answer>, a: Answer)
    ensures forall epoch, k, e :: Backed(answers, epoch, k, e) ==> Backed(answers + [a], epoch, k, e)
    ensures forall h :: HitOk(answers, h) ==> HitOk(answers + [a], h)
  {
    hide BackedBy, CurrentHit;
    forall epoch, k, e | Backed(answers, epoch, k, e)
      ensures Backed(answers + [a], epoch, k, e)
    {
      var i :| 0 <= i < |answers| && BackedBy(answers[i], epoch, k, e);
      assert BackedBy((answers + [a])[i], epoch, k, e);
    }
    forall h | HitOk(answers, h)
      ensures HitOk(answers + [a], h)
    {
      if h.fromCache {
        var i :| 0 <= i < |answers| && CurrentHit(h, answers[i]);
        assert CurrentHit(h, (answers + [a])[i]);
      }
    }
  }

  lemma FetchedKeepsInv(targets: set<Target>, s: State, target: Target, t: int)
    requires KeysApart(targets) && Inv(targets, s) && target in targets
    ensures Inv(targets, Fetched(s, target, t))
  {
    var s1 := Synced(s);
    var key := CacheKey(target);
    if key in s1.cache && s1.cache[key].expiresAt > t {
      assert Backed(s1.answers, s1.epoch, key, s1.cache[key]);
      var i :| 0 <= i < |s1.answers| && BackedBy(s1.answers[i], s1.epoch, key, s1.cache[key]);
      assert s1.answers[i].target == target;
      var h := Served(target, s1.cache[key].value, t, s1.epoch, true);
      assert CurrentHit(h, s1.answers[i]);
      assert HitOk(s1.answers, h);
    }
  }

  lemma RespondedKeepsInv(targets: set<Target>, s: State, request: nat, value: Option<Response>, t: int)
    requires Inv(targets, s)
    ensures Inv(targets, Responded(s, request, value, t))
  {
    if request in s.inFlight && value.Some? && value.value.clusterId == s.inFlight[request].target.clusterId {
      var r := s.inFlight[request];
      var s1 := Synced(s);
      var a := Answer(r.target, r.issuedEpoch, s1.epoch, t, value.value);
      MoreAnswers(s1.answers, a);
      var s' := Responded(s, request, value, t);
      hide CacheKey;
      assert s'.answers[|s1.answers|] == a;
      forall k | k in s'.cache
        ensures Backed(s'.answers, s'.cacheEpoch, k, s'.cache[k])
      {
        if s1.epoch == r.issuedEpoch && k == CacheKey(r.target) {
          assert BackedBy(a, s1.epoch, k, s'.cache[k]);
        } else {
          assert Backed(s1.answers, s1.cacheEpoch, k, s1.cache[k]);
        }
      }
    }
  }

  lemma {:induction false} RunKeepsInv(targets: set<Target>, epoch: nat, es: seq<Event>)
    requires KeysApart(targets) && Asks(targets, es)
    ensures Inv(targets, Run(Initial(epoch), es))
  {
    if es != [] {
      hide Inv, Fetched, Responded, KeysApart;
      var s := Run(Initial(epoch), es[..|es| - 1]);
      RunKeepsInv(targets, epoch, es[..|es| - 1]);
      match es[|es| - 1]
      case Fetch(target, t) => FetchedKeepsInv(targets, s, target, t);
      case Respond(request, value, t) => RespondedKeepsInv(targets, s, request, value, t);
      case Switch => SwitchKeepsInv(targets, s);
    } else {
      InitialInv(targets, epoch);
    }
  }

  lemma SwitchKeepsInv(targets: set<Target>, s: State)
    requires Inv(targets, s)
    ensures Inv(targets, s.(epoch := s.epoch + 1))
  {
  }

  lemma InitialInv(targets: set<Target>, epoch: nat)
    ensures Inv(targets, Initial(epoch))
  {
  }

  /** Each cache hit of a run hands out a current answer. */
  ghost predicate AllHitsCurrent(s: State)
  {
    forall j :: 0 <= j < |s.served| ==> HitOk(s.answers, s.served[j])
  }

  /**
    * Across every interleaving of fetches, answers and switches, whatever the clock reads, each cache hit hands
    * out an answer for the same cluster and generation whose request was issued and completed in the epoch of
    * the hit and completed less than 30 s before; so no answer from before a switch is ever served from the cache.
    */
  lemma HitsAreCurrent(targets: set<Target>, epoch: nat, es: seq<Event>)
    requires KeysApart(targets) && Asks(targets, es)
    ensures AllHitsCurrent(Run(Initial(epoch), es))
  {
    RunKeepsInv(targets, epoch, es);
  }

  /** Two targets with one key: the second is served the first one's answer. */
  lemma WrongHit(a: Target, b: Target, epoch: nat, body: nat)
    requires a != b && CacheKey(a) == CacheKey(b)
    ensures var s := Run(Initial(epoch), WrongHitRun(a, b, body));
            && s.served != [] && s.served[|s.served| - 1] == Served(b, Response(a.clusterId, body), 1, epoch, true)
            && !AllHitsCurrent(s)
  {
    hide CacheKey;
    var es := WrongHitRun(a, b, body);
    var v := Response(a.clusterId, body);
    var s0 := Initial(epoch);
    assert es[..2][..1] == [es[0]] == es[..1] && es[..1][..0] == [] && es[..2][1] == es[1];
    assert Run(s0, []) == s0;
    assert Run(s0, es[..1]) == Fetched(s0, a, 0);
    assert Run(s0, es[..2]) == Responded(Fetched(s0, a, 0), 0, Some(v), 0);
    var s2 := Run(s0, es[..2]);
    assert s2.cache == map[CacheKey(a) := Entry(CAPABILITY_TTL_MS, v)] && s2.epoch == s2.cacheEpoch == epoch;
    assert s2.answers == [Answer(a, epoch, epoch, 0, v)];
    var s := Run(s0, es);
    assert s == Fetched(s2, b, 1);
    var h := Served(b, v, 1, epoch, true);
    assert s.served == s2.served + [h] && s.answers == s2.answers;
    assert !HitOk(s.answers, h);
  }

  function WrongHitRun(a: Target, b: Target, body: nat): seq<Event>
  {
    [Fetch(a, 0), Respond(0, Some(Response(a.clusterId, body)), 0), Fetch(b, 1)]
  }

  /**
    * For any set of targets: every run that asks only about them has nothing but current hits if and only if no
    * two of them share a key.
    */
  lemma HitsAreCurrentIff(targets: set<Target>, epoch: nat)
    ensures (forall es :: Asks(targets, es) ==> AllHitsCurrent(Run(Initial(epoch), es))) <==> KeysApart(targets)
  {
    hide CacheKey, Run, AllHitsCurrent;
    if KeysApart(targets) {
      forall es | Asks(targets, es)
        ensures AllHitsCurrent(Run(Initial(epoch), es))
      {
        HitsAreCurrent(targets, epoch, es);
      }
    } else {
      var a, b :| a in targets && b in targets && CacheKey(a) == CacheKey(b) && a != b;
      WrongHit(a, b, epoch, 0);
      assert Asks(targets, WrongHitRun(a, b, 0));
    }
  }

  /** Cluster ids without NUL keep the keys apart. */
  lemma PlainTargetsApart(targets: set<Target>)
    requires forall a :: a in targets ==> '\0' !in a.clusterId
    ensures KeysApart(targets)
  {
    hide CacheKey;
    forall a, b | a in targets && b in targets && CacheKey(a) == CacheKey(b)
      ensures a == b
    {
      KeyInjective(a, b);
    }
  }

  /** A NUL in a cluster id can make two targets share one key, and then the cache hands out a wrong answer. */
  lemma NulClustersCollide(a: string, b: string, c: string, epoch: nat)
    ensures var t, t' := Target(a, b + "\0" + c), Target(a + "\0" + b, c);
            CacheKey(t) == CacheKey(t') && !AllHitsCurrent(Run(Initial(epoch), WrongHitRun(t, t', 0)))
  {
    hide Run, AllHitsCurrent, WrongHitRun;
    assert a + "\0" + (b + "\0" + c) == a + "\0" + b + "\0" + c;
    assert |a| != |a + "\0" + b|;
    WrongHit(Target(a, b + "\0" + c), Target(a + "\0" + b, c), epoch, 0);
  }

  /** And the cache does its work: an answer that arrives in the epoch it was asked in serves the next fetch within 30 s without a request. */
  lemma FreshAnswerIsReused(s: State, request: nat, value: Response, t: int, t': int)
    requires request in s.inFlight && value.clusterId == s.inFlight[request].target.clusterId
    requires s.inFlight[request].issuedEpoch == s.epoch && t' < t + 30_000
    ensures var s1 := Responded(s, request, Some(value), t);
            var s2 := Fetched(s1, s.inFlight[request].target, t');
            && s2.served == s1.served + [Served(s.inFlight[request].target, value, t', s.epoch, true)]
            && s2.inFlight == s1.inFlight
  {
  }

  /** A caller whose own request is answered about its cluster gets that answer, switch or no switch; otherwise nothing. */
  lemma OwnAnswerIsServed(s: State, request: nat, value: Option<Response>, t: int)
    requires request in s.inFlight
    ensures var r := s.inFlight[request];
            Responded(s, request, value, t).served ==
            if value.Some? && value.value.clusterId == r.target.clusterId
            then s.served + [Served(r.target, value.value, t, s.epoch, false)] else s.served
  {
  }

  /** A fetch that finds no answer of its epoch under 30 s old sends a request for its target in its epoch. */
  lemma MissSendsRequest(s: State, target: Target, t: int)
    requires s.epoch != s.cacheEpoch || CacheKey(target) !in s.cache || s.cache[CacheKey(target)].expiresAt <= t
    ensures var s' := Fetched(s, target, t);
            && s'.inFlight == s.inFlight[s.nextRequest := Request(target, s.epoch)] && s'.nextRequest == s.nextRequest + 1
            && s'.served == s.served
  {
  }
}
