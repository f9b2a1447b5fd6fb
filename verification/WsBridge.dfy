/**
  * The WebSocket bridge (bridgeConnection in frontend/server/ws-proxy.ts): a bounded queue until the
  * backend socket opens, then a relay, with idle, keepalive and handshake timers and a one-way close.
  */
module WsBridge {

  import opened Options
  import PathSafety

  datatype Ready = Connecting | Open | Closing | Closed

  datatype Payload = Text(chars: string) | Binary(bytes: seq<bv8>)

  /** `Buffer.byteLength`: bytes as they are, text in UTF-8. */
  function Size(p: Payload): nat
  {
    match p
    case Text(chars) => Utf8Length(chars)
    case Binary(bytes) => |bytes|
  }

  function Utf8Length(s: string): nat
  {
    if s == [] then 0
    else Utf8Length(s[..|s| - 1])
         + var c := s[|s| - 1] as int; if c < 0x80 then 1 else if c < 0x800 then 2 else if c < 0x1_0000 then 3 else 4
  }

  function Sizes(ps: seq<Payload>): nat
  {
    if ps == [] then 0 else Sizes(ps[..|ps| - 1]) + Size(ps[|ps| - 1])
  }

  const KEEPALIVE_PING_MS: int := 20_000

  datatype BridgeOptions = BridgeOptions(maxQueueMessages: nat, maxQueueBytes: nat, handshakeTimeoutMs: nat, idleTimeoutMs: nat)

  function KeepalivePeriod(idleTimeoutMs: nat): int
  {
    var third := idleTimeoutMs / 3;
    var capped := if third < KEEPALIVE_PING_MS then third else KEEPALIVE_PING_MS;
    if capped > 50 then capped else 50
  }

  function RemapCloseCode(code: int): int
  {
    if 1000 <= code <= 4999 && code != 1006 then code else 1000
  }

  /** Everything the two sockets have carried, and every close frame sent to the client. */
  datatype Log = Log(fromClient: seq<Payload>, toBackend: seq<Payload>,
                     fromBackend: seq<Payload>, toClient: seq<Payload>, clientCloses: seq<(int, string)>)

  /**
    * The closure's variables, the two ready states, the clock, the time of the last reset of the idle
    * countdown, and the pings the client has not answered yet. A timer is the time it is due.
    */
  datatype State = State(
    queue: seq<Payload>, queueBytes: nat, closed: bool, backend: Ready, client: Ready,
    idleDue: Option<int>, keepaliveDue: Option<int>, handshakeDue: Option<int>,
    now: int, lastFrame: int, owed: seq<int>, log: Log)

  datatype Event =
    | ClientMessage(payload: Payload)
    | ClientPing
    | ClientPong
    | ClientClosing       // the client's ready state leaves OPEN ahead of its close event
    | ClientClose
    | ClientError
    | BackendOpen
    | BackendMessage(payload: Payload)
    | BackendClosing      // likewise for the backend socket
    | BackendClose(code: int, reason: string)
    | IdleTimer
    | KeepaliveTimer
    | HandshakeTimer

  // --- Steps ---

  function Start(o: BridgeOptions, now: int): State
  {
    State([], 0, false, Connecting, Open, Some(now + o.idleTimeoutMs), Some(now + KeepalivePeriod(o.idleTimeoutMs)),
          Some(now + o.handshakeTimeoutMs), now, now, [], Log([], [], [], [], []))
  }

  function CloseSocket(r: Ready): Ready { if r.Open? || r.Connecting? then Closing else r }

  function ClearTimers(s: State): State
  {
    s.(idleDue := None, keepaliveDue := None, handshakeDue := None)
  }

  function CloseBoth(s: State, code: int, reason: string): (r: State)
    ensures r.closed && (if s.closed then r == s else !Accepting(r.backend) && !r.client.Open?)
    ensures r.log.toBackend == s.log.toBackend && r.log.toClient == s.log.toClient
  {
    if s.closed then s
    else
      var s1 := ClearTimers(s.(closed := true, backend := CloseSocket(s.backend)));
      if s.client.Open?
      then s1.(client := Closing,
               log := s.log.(clientCloses := s.log.clientCloses + [(RemapCloseCode(code), reason)]))
      else s1
  }

  function ResetIdle(s: State, o: BridgeOptions): State
  {
    s.(idleDue := Some(s.now + o.idleTimeoutMs), lastFrame := s.now)
  }

  function OnClientMessage(s0: State, o: BridgeOptions, p: Payload): State
  {
    var s := s0.(log := s0.log.(fromClient := s0.log.fromClient + [p]));
    if s.closed then s
    else
      var s1 := ResetIdle(s, o);
      match s.backend
      case Open => s1.(log := s1.log.(toBackend := s1.log.toBackend + [p]))
      case Connecting =>
        if |s.queue| + 1 > o.maxQueueMessages || s.queueBytes + Size(p) > o.maxQueueBytes
        then CloseBoth(s1, 1009, "queue limit exceeded")
        else s1.(queue := s.queue + [p], queueBytes := s.queueBytes + Size(p))
      case _ => s1
  }

  function OnBackendOpen(s: State): State
  {
    if !s.backend.Connecting? then s
    else if s.closed then s.(backend := Open)
    else s.(backend := Open, handshakeDue := None, queue := [], queueBytes := 0,
            log := s.log.(toBackend := s.log.toBackend + s.queue))
  }

  function OnBackendMessage(s0: State, o: BridgeOptions, p: Payload): State
  {
    var s := s0.(log := s0.log.(fromBackend := s0.log.fromBackend + [p]));
    if s.closed then s
    else
      var s1 := ResetIdle(s, o);
      if s.client.Open? then s1.(log := s1.log.(toClient := s1.log.toClient + [p])) else s1
  }

  function OnClientClose(s0: State): State
  {
    var s := s0.(client := Closed);
    if s.closed then s
    else ClearTimers(s.(closed := true, backend := CloseSocket(s.backend)))
  }

  /** The interval is next due one period after it fires, as the platform re-arms it. */
  function OnKeepalive(s: State, o: BridgeOptions): State
  {
    if s.keepaliveDue.None? then s
    else
      var s1 := s.(keepaliveDue := Some(s.now + KeepalivePeriod(o.idleTimeoutMs)));
      if s.closed || !s.client.Open? then s1 else s1.(owed := s.owed + [s.now])
  }

  function Handle(s: State, o: BridgeOptions, e: Event): State
  {
    match e
    case ClientMessage(p) => OnClientMessage(s, o, p)
    case ClientPing => ResetIdle(s, o)
    case ClientPong => ResetIdle(s.(owed := if s.owed == [] then [] else s.owed[1..]), o)
    case ClientClosing => s.(client := if s.client.Open? then Closing else s.client)
    case ClientClose => OnClientClose(s)
    case ClientError => s.(backend := CloseSocket(s.backend))
    case BackendOpen => OnBackendOpen(s)
    case BackendMessage(p) => OnBackendMessage(s, o, p)
    case BackendClosing => s.(backend := CloseSocket(s.backend))
    case BackendClose(code, reason) => CloseBoth(s.(backend := Closed), RemapCloseCode(code), reason)
    case IdleTimer => if s.idleDue.None? then s else CloseBoth(s.(idleDue := None), 1000, "idle timeout")
    case KeepaliveTimer => OnKeepalive(s, o)
    case HandshakeTimer =>
      if s.handshakeDue.None? then s
      else if s.backend.Open? then s.(handshakeDue := None)
      else CloseBoth(s.(handshakeDue := None), 1011, "backend handshake timeout")
  }

  // --- Runs ---

  /** An event at a time. */
  datatype Timed = At(t: int, e: Event)

  function Step(s: State, o: BridgeOptions, te: Timed): State { Handle(s.(now := te.t), o, te.e) }

  function Run(s: State, o: BridgeOptions, es: seq<Timed>): State
  {
    if es == [] then s else Step(Run(s, o, es[..|es| - 1]), o, es[|es| - 1])
  }

  // --- Ordering, bounds and the one-way close ---

  /** A code that may be sent in a close frame. */
  predicate Sendable(code: int) { 1000 <= code <= 4999 && code != 1006 }

  predicate Accepting(r: Ready) { r.Connecting? || r.Open? }

  predicate Inv(s: State, o: BridgeOptions)
  {
    && s.queueBytes == Sizes(s.queue) && |s.queue| <= o.maxQueueMessages && s.queueBytes <= o.maxQueueBytes
    && s.log.toBackend + s.queue <= s.log.fromClient
    && (!s.closed && Accepting(s.backend) ==> s.log.toBackend + s.queue == s.log.fromClient)
    && (s.backend.Open? ==> s.queue == [])
    && (s.closed ==> !Accepting(s.backend) && !s.client.Open?)
    && s.log.toClient <= s.log.fromBackend
    && (!s.closed && s.client.Open? ==> s.log.toClient == s.log.fromBackend)
    && |s.log.clientCloses| <= (if s.closed then 1 else 0)
    && (forall i :: 0 <= i < |s.log.clientCloses| ==> Sendable(s.log.clientCloses[i].0))
  }

  lemma SizesSnoc(ps: seq<Payload>, p: Payload)
    ensures Sizes(ps + [p]) == Sizes(ps) + Size(p)
  {
    assert (ps + [p])[..|ps|] == ps;
  }

  lemma ClientMessageKeepsInv(s: State, o: BridgeOptions, p: Payload)
    requires Inv(s, o)
    ensures Inv(OnClientMessage(s, o, p), o)
  {
    hide Size, Sizes;
    SizesSnoc(s.queue, p);
    assert s.log.toBackend + (s.queue + [p]) == s.log.toBackend + s.queue + [p];
  }

  lemma BackendOpenKeepsInv(s: State, o: BridgeOptions)
    requires Inv(s, o)
    ensures Inv(OnBackendOpen(s), o)
  {
    assert s.log.toBackend + s.queue + [] == s.log.toBackend + s.queue;
  }

  lemma CloseKeepsInv(s: State, o: BridgeOptions, code: int, reason: string)
    requires Inv(s, o)
    ensures Inv(CloseBoth(s, code, reason), o)
  {
    hide Sizes;
  }

  lemma HandleKeepsInv(s: State, o: BridgeOptions, e: Event)
    requires Inv(s, o)
    ensures Inv(Handle(s, o, e), o)
  {
    hide Sizes, CloseBoth, OnClientMessage, OnBackendOpen;
    match e
    case ClientMessage(p) => ClientMessageKeepsInv(s, o, p);
    case BackendOpen => BackendOpenKeepsInv(s, o);
    case BackendClose(code, reason) => CloseKeepsInv(s.(backend := Closed), o, RemapCloseCode(code), reason);
    case IdleTimer => CloseKeepsInv(s.(idleDue := None), o, 1000, "idle timeout");
    case HandshakeTimer => CloseKeepsInv(s.(handshakeDue := None), o, 1011, "backend handshake timeout");
    case _ =>
  }

  lemma {:induction false} RunKeepsInv(s: State, o: BridgeOptions, es: seq<Timed>)
    requires Inv(s, o)
    ensures Inv(Run(s, o, es), o)
  {
    if es != [] {
      RunKeepsInv(s, o, es[..|es| - 1]);
      HandleKeepsInv(Run(s, o, es[..|es| - 1]).(now := es[|es| - 1].t), o, es[|es| - 1].e);
    }
  }

  /**
    * In every run, whatever the sockets do and whenever timers fire: the backend has received a prefix of the
    * client's messages and the queue continues that prefix, with nothing missing while the bridge is open and
    * the backend is connecting or open; likewise from backend to client; the queue respects both limits; and
    * the client is closed at most once, with a code that may be sent.
    */
  lemma RelayIsOrderedAndBounded(o: BridgeOptions, now: int, es: seq<Timed>)
    ensures var s := Run(Start(o, now), o, es);
            && s.log.toBackend + s.queue <= s.log.fromClient
            && (!s.closed && Accepting(s.backend) ==> s.log.toBackend + s.queue == s.log.fromClient)
            && s.log.toClient <= s.log.fromBackend
            && (!s.closed && s.client.Open? ==> s.log.toClient == s.log.fromBackend)
            && |s.queue| <= o.maxQueueMessages && Sizes(s.queue) == s.queueBytes <= o.maxQueueBytes
            && |s.log.clientCloses| <= 1
            && (forall i :: 0 <= i < |s.log.clientCloses| ==> Sendable(s.log.clientCloses[i].0))
  {
    RunKeepsInv(Start(o, now), o, es);
  }

  lemma ClosedHandleSilent(s: State, o: BridgeOptions, e: Event)
    requires Inv(s, o) && s.closed
    ensures var s' := Handle(s, o, e);
            && s'.closed && s'.log.toBackend == s.log.toBackend && s'.log.toClient == s.log.toClient
            && s'.log.clientCloses == s.log.clientCloses
  {
  }

  /** Once closed, nothing is relayed in either direction and the client is never closed again. */
  lemma {:induction false} ClosedIsSilent(s: State, o: BridgeOptions, es: seq<Timed>)
    requires Inv(s, o) && s.closed
    ensures var s' := Run(s, o, es);
            && s'.closed && s'.log.toBackend == s.log.toBackend && s'.log.toClient == s.log.toClient
            && s'.log.clientCloses == s.log.clientCloses
  {
    if es != [] {
      ClosedIsSilent(s, o, es[..|es| - 1]);
      RunKeepsInv(s, o, es[..|es| - 1]);
      ClosedHandleSilent(Run(s, o, es[..|es| - 1]).(now := es[|es| - 1].t), o, es[|es| - 1].e);
    }
  }

  // --- Exactly when a bridge closes, and how ---

  /** The bytes a payload puts on the wire: text is sent as UTF-8. */
  function WireBytes(p: Payload): nat
  {
    match p
    case Text(chars) => |Utf8Text(chars)|
    case Binary(bytes) => |bytes|
  }

  function Utf8Text(s: string): seq<nat>
  {
    if s == [] then [] else Utf8Text(s[..|s| - 1]) + PathSafety.Utf8(s[|s| - 1] as int)
  }

  lemma {:induction false} Utf8LengthIs(s: string)
    ensures Utf8Length(s) == |Utf8Text(s)|
  {
    if s != [] { Utf8LengthIs(s[..|s| - 1]); }
  }

  lemma SizeIs(p: Payload)
    ensures Size(p) == WireBytes(p)
  {
    if p.Text? { Utf8LengthIs(p.chars); }
  }

  /** How many messages the client has sent, and how many bytes in all. */
  function MessagesSent(es: seq<Timed>): nat
  {
    if es == [] then 0 else MessagesSent(es[..|es| - 1]) + if es[|es| - 1].e.ClientMessage? then 1 else 0
  }

  function BytesSent(es: seq<Timed>): nat
  {
    if es == [] then 0
    else BytesSent(es[..|es| - 1]) + if es[|es| - 1].e.ClientMessage? then WireBytes(es[|es| - 1].e.payload) else 0
  }

  /** The backend socket has neither opened nor begun to close. */
  predicate StillConnecting(es: seq<Timed>)
  {
    forall i :: 0 <= i < |es| ==>
      !es[i].e.BackendOpen? && !es[i].e.BackendClosing? && !es[i].e.BackendClose? && !es[i].e.ClientError?
  }

  predicate HasOpened(es: seq<Timed>)
  {
    es != [] && (HasOpened(es[..|es| - 1]) || (es[|es| - 1].e.BackendOpen? && StillConnecting(es[..|es| - 1])))
  }

  predicate ClientIsOpen(es: seq<Timed>) { forall i :: 0 <= i < |es| ==> !es[i].e.ClientClosing? && !es[i].e.ClientClose? }

  /** The message finds the backend connecting, and with it the client has sent more than may be held back. */
  predicate Overflows(o: BridgeOptions, es: seq<Timed>, k: nat)
    requires k < |es|
  {
    && es[k].e.ClientMessage? && StillConnecting(es[..k])
    && (MessagesSent(es[..k + 1]) > o.maxQueueMessages || BytesSent(es[..k + 1]) > o.maxQueueBytes)
  }

  /** Event k is a reason to close a bridge that is open until then. */
  predicate IsCause(o: BridgeOptions, es: seq<Timed>, k: nat)
    requires k < |es|
  {
    || es[k].e.ClientClose? || es[k].e.BackendClose? || es[k].e.IdleTimer?
    || (es[k].e.HandshakeTimer? && !HasOpened(es[..k]))
    || Overflows(o, es, k)
  }

  /** The close frame the client gets for it, if it is still there. */
  function FrameFor(o: BridgeOptions, es: seq<Timed>, k: nat): seq<(int, string)>
    requires k < |es|
  {
    if !ClientIsOpen(es[..k]) then []
    else match es[k].e
      case BackendClose(code, reason) => [(if code < 1000 || code > 4999 || code == 1006 then 1000 else code, reason)]
      case IdleTimer => [(1000, "idle timeout")]
      case HandshakeTimer => [(1011, "backend handshake timeout")]
      case ClientMessage(_) => [(1009, "queue limit exceeded")]
      case _ => []
  }

  predicate Uncaused(o: BridgeOptions, es: seq<Timed>) { forall k :: 0 <= k < |es| ==> !IsCause(o, es, k) }

  /** Where a bridge stands that has had no cause to close. */
  predicate OpenState(s: State, o: BridgeOptions, es: seq<Timed>)
  {
    && !s.closed && s.idleDue.Some? && s.log.clientCloses == []
    && (s.backend.Connecting? <==> StillConnecting(es))
    && (s.handshakeDue.Some? <==> !HasOpened(es)) && (s.backend.Open? ==> HasOpened(es))
    && (s.client.Open? <==> ClientIsOpen(es))
    && (StillConnecting(es) ==> |s.queue| == MessagesSent(es) && s.queueBytes == BytesSent(es))
  }

  lemma StillSnoc(es: seq<Timed>, te: Timed)
    ensures StillConnecting(es + [te]) <==>
              StillConnecting(es) && !te.e.BackendOpen? && !te.e.BackendClosing? && !te.e.BackendClose? && !te.e.ClientError?
    ensures ClientIsOpen(es + [te]) <==> ClientIsOpen(es) && !te.e.ClientClosing? && !te.e.ClientClose?
    ensures HasOpened(es + [te]) <==> HasOpened(es) || (te.e.BackendOpen? && StillConnecting(es))
    ensures MessagesSent(es + [te]) == MessagesSent(es) + if te.e.ClientMessage? then 1 else 0
    ensures BytesSent(es + [te]) == BytesSent(es) + if te.e.ClientMessage? then WireBytes(te.e.payload) else 0
  {
    var all := es + [te];
    assert all[..|es|] == es && all[|es|] == te;
    assert forall i :: 0 <= i < |es| ==> all[i] == es[i];
  }

  /** An opened backend was no longer connecting from then on. */
  lemma {:induction false} OpenedIsNotConnecting(es: seq<Timed>)
    ensures HasOpened(es) ==> !StillConnecting(es)
  {
    if es != [] {
      OpenedIsNotConnecting(es[..|es| - 1]);
      assert es == es[..|es| - 1] + [es[|es| - 1]];
      StillSnoc(es[..|es| - 1], es[|es| - 1]);
    }
  }

  lemma OpenMessage(s: State, o: BridgeOptions, es: seq<Timed>, te: Timed)
    requires OpenState(s, o, es) && te.e.ClientMessage?
    ensures !Overflows(o, es + [te], |es|) ==> OpenState(Step(s, o, te), o, es + [te])
    ensures Overflows(o, es + [te], |es|) ==>
              Step(s, o, te).closed && Step(s, o, te).log.clientCloses == FrameFor(o, es + [te], |es|)
  {
    var all := es + [te];
    assert all[..|es|] == es && all[..|es| + 1] == all && all[|es|] == te;
    StillSnoc(es, te);
    SizeIs(te.e.payload);
    hide Size, WireBytes, StillConnecting, ClientIsOpen, HasOpened, MessagesSent, BytesSent;
  }

  lemma OpenOther(s: State, o: BridgeOptions, es: seq<Timed>, te: Timed)
    requires OpenState(s, o, es) && !te.e.ClientMessage?
    ensures !IsCause(o, es + [te], |es|) ==> OpenState(Step(s, o, te), o, es + [te])
    ensures IsCause(o, es + [te], |es|) ==>
              Step(s, o, te).closed && Step(s, o, te).log.clientCloses == FrameFor(o, es + [te], |es|)
  {
    var all := es + [te];
    assert all[..|es|] == es && all[|es|] == te;
    StillSnoc(es, te);
    OpenedIsNotConnecting(es);
    hide StillConnecting, ClientIsOpen, HasOpened, MessagesSent, BytesSent, KeepalivePeriod;
    match te.e
    case BackendClose(code, reason) =>
    case IdleTimer =>
    case HandshakeTimer =>
    case BackendOpen =>
    case _ =>
  }

  lemma UncausedPrefix(o: BridgeOptions, es: seq<Timed>, n: nat)
    requires Uncaused(o, es) && n <= |es|
    ensures Uncaused(o, es[..n])
  {
    forall k | 0 <= k < n
      ensures !IsCause(o, es[..n], k)
    {
      SameCause(o, es, n, k);
    }
  }

  lemma SameCause(o: BridgeOptions, es: seq<Timed>, n: nat, k: nat)
    requires k < n <= |es|
    ensures IsCause(o, es[..n], k) <==> IsCause(o, es, k)
    ensures FrameFor(o, es[..n], k) == FrameFor(o, es, k)
  {
    assert es[..n][k] == es[k] && es[..n][..k] == es[..k] && es[..n][..k + 1] == es[..k + 1];
  }

  lemma {:induction false} UncausedIsOpen(o: BridgeOptions, now: int, es: seq<Timed>)
    requires Uncaused(o, es)
    ensures OpenState(Run(Start(o, now), o, es), o, es)
  {
    if es != [] {
      var n := |es| - 1;
      UncausedPrefix(o, es, n);
      UncausedIsOpen(o, now, es[..n]);
      var s, te := Run(Start(o, now), o, es[..n]), es[n];
      assert es[..n] + [te] == es;
      hide OpenState, Step, IsCause, Overflows;
      CauseOrOpen(s, o, es[..n], te);
    }
  }

  lemma CauseOrOpen(s: State, o: BridgeOptions, es: seq<Timed>, te: Timed)
    requires OpenState(s, o, es)
    ensures !IsCause(o, es + [te], |es|) ==> OpenState(Step(s, o, te), o, es + [te])
    ensures IsCause(o, es + [te], |es|) ==>
              Step(s, o, te).closed && Step(s, o, te).log.clientCloses == FrameFor(o, es + [te], |es|)
  {
    if te.e.ClientMessage? {
      OpenMessage(s, o, es, te);
      assert IsCause(o, es + [te], |es|) <==> Overflows(o, es + [te], |es|) by { hide OpenState, Step, Overflows; assert (es + [te])[|es|] == te; }
    } else {
      OpenOther(s, o, es, te);
    }
  }

  /** When the last frame came, from either side; the start counts as one. */
  function LastFrameAt(start: int, es: seq<Timed>): int
  {
    if es == [] then start
    else
      var te := es[|es| - 1];
      if te.e.ClientMessage? || te.e.BackendMessage? || te.e.ClientPing? || te.e.ClientPong? then te.t
      else LastFrameAt(start, es[..|es| - 1])
  }

  /** While it is open, the idle timer is due one bound after the last frame. */
  lemma {:induction false} IdleCountsFromLastFrame(o: BridgeOptions, start: int, es: seq<Timed>)
    requires Uncaused(o, es)
    ensures Run(Start(o, start), o, es).idleDue == Some(LastFrameAt(start, es) + o.idleTimeoutMs)
  {
    if es != [] {
      var n := |es| - 1;
      UncausedPrefix(o, es, n);
      IdleCountsFromLastFrame(o, start, es[..n]);
      UncausedIsOpen(o, start, es[..n]);
      UncausedIsOpen(o, start, es);
      var s, te := Run(Start(o, start), o, es[..n]), es[n];
      hide IsCause, StillConnecting, HasOpened, ClientIsOpen, MessagesSent, BytesSent, Uncaused;
      OpenTimer(s, o, te);
    }
  }

  lemma OpenTimer(s: State, o: BridgeOptions, te: Timed)
    requires !s.closed && !Step(s, o, te).closed
    ensures Step(s, o, te).idleDue ==
            if te.e.ClientMessage? || te.e.BackendMessage? || te.e.ClientPing? || te.e.ClientPong?
            then Some(te.t + o.idleTimeoutMs) else s.idleDue
  {
    hide Size;
  }

  /** The first reason to close does close the bridge, and decides what the client is told, once and for all. */
  lemma FirstCauseCloses(o: BridgeOptions, now: int, es: seq<Timed>, k: nat)
    requires k < |es| && IsCause(o, es, k) && Uncaused(o, es[..k])
    ensures var s := Run(Start(o, now), o, es); s.closed && s.log.clientCloses == FrameFor(o, es, k)
  {
    hide IsCause, OpenState, Step, Inv, FrameFor;
    var s0 := Start(o, now);
    UncausedIsOpen(o, now, es[..k]);
    assert es[..k + 1] == es[..k] + [es[k]];
    SameCause(o, es, k + 1, k);
    CauseOrOpen(Run(s0, o, es[..k]), o, es[..k], es[k]);
    RunSnoc(s0, o, es[..k], es[k]);
    assert Inv(s0, o) by { StartInv(o, now); }
    RunKeepsInv(s0, o, es[..k + 1]);
    ClosedIsSilent(Run(s0, o, es[..k + 1]), o, es[k + 1..]);
    RunSplit(s0, o, es[..k + 1], es[k + 1..]);
    assert es[..k + 1] + es[k + 1..] == es;
  }

  lemma StartInv(o: BridgeOptions, now: int)
    ensures Inv(Start(o, now), o)
  {
  }

  lemma RunSnoc(s: State, o: BridgeOptions, es: seq<Timed>, te: Timed)
    ensures Run(s, o, es + [te]) == Step(Run(s, o, es), o, te)
  {
    hide Step;
    assert (es + [te])[..|es|] == es;
  }

  lemma {:induction false} RunSplit(s: State, o: BridgeOptions, a: seq<Timed>, b: seq<Timed>)
    ensures Run(s, o, a + b) == Run(Run(s, o, a), o, b)
  {
    hide Step;
    if b == [] {
      assert a + b == a;
    } else {
      RunSplit(s, o, a, b[..|b| - 1]);
      assert (a + b)[..|a + b| - 1] == a + b[..|b| - 1];
    }
  }

  /**
    * In every run the bridge is closed if and only if there was a reason: a close of either side, the idle timer,
    * the handshake timer before the backend ever opened, or a client message that, with the backend connecting,
    * takes what the client has sent past the message or the byte limit. The first reason decides what the client
    * is told.
    */
  lemma BridgeClosesIff(o: BridgeOptions, now: int, es: seq<Timed>)
    ensures Run(Start(o, now), o, es).closed <==> exists k :: 0 <= k < |es| && IsCause(o, es, k)
    ensures forall k :: 0 <= k < |es| && IsCause(o, es, k) && Uncaused(o, es[..k]) ==>
              Run(Start(o, now), o, es).log.clientCloses == FrameFor(o, es, k)
    ensures Uncaused(o, es) ==> Run(Start(o, now), o, es).log.clientCloses == []
  {
    hide IsCause, FrameFor, Run;
    forall k | 0 <= k < |es| && IsCause(o, es, k) && Uncaused(o, es[..k])
      ensures Run(Start(o, now), o, es).closed && Run(Start(o, now), o, es).log.clientCloses == FrameFor(o, es, k)
    {
      FirstCauseCloses(o, now, es, k);
    }
    if Uncaused(o, es) {
      UncausedIsOpen(o, now, es);
    } else {
      var k := FirstCause(o, es);
    }
  }

  lemma FirstCause(o: BridgeOptions, es: seq<Timed>) returns (k: nat)
    requires !Uncaused(o, es)
    ensures k < |es| && IsCause(o, es, k) && Uncaused(o, es[..k])
  {
    hide IsCause;
    var n := |es| - 1;
    if Uncaused(o, es[..n]) {
      k := n;
      if !IsCause(o, es, n) {
        var j :| 0 <= j < |es| && IsCause(o, es, j);
        SameCause(o, es, n, j);
      }
    } else {
      k := FirstCause(o, es[..n]);
      SameCause(o, es, n, k);
      assert es[..n][..k] == es[..k];
    }
  }

  // --- Time ---

  predicate NotPast(due: Option<int>, lag: nat, t: int) { due.Some? ==> t <= due.value + lag }

  predicate FiresAt(due: Option<int>, t: int) { due.Some? && due.value <= t }

  /** A timer never fires early, and at most `lag` late: time does not pass a pending timer by more than that. */
  predicate OnTime(s: State, lag: nat, te: Timed)
  {
    && s.now <= te.t && NotPast(s.idleDue, lag, te.t) && NotPast(s.keepaliveDue, lag, te.t) && NotPast(s.handshakeDue, lag, te.t)
    && (te.e.IdleTimer? ==> FiresAt(s.idleDue, te.t))
    && (te.e.KeepaliveTimer? ==> FiresAt(s.keepaliveDue, te.t))
    && (te.e.HandshakeTimer? ==> FiresAt(s.handshakeDue, te.t))
  }

  predicate OnTimeRun(s: State, o: BridgeOptions, lag: nat, es: seq<Timed>)
  {
    es != [] ==> OnTimeRun(s, o, lag, es[..|es| - 1]) && OnTime(Run(s, o, es[..|es| - 1]), lag, es[|es| - 1])
  }

  /** An open bridge: its idle countdown runs from the last frame, its handshake timer until the backend opens. */
  predicate Counting(s: State, o: BridgeOptions, lag: nat, start: int)
  {
    !s.closed ==>
      && s.idleDue == Some(s.lastFrame + o.idleTimeoutMs) && s.lastFrame <= s.now <= s.lastFrame + o.idleTimeoutMs + lag
      && (s.backend.Connecting? ==>
            s.handshakeDue == Some(start + o.handshakeTimeoutMs) && s.now <= start + o.handshakeTimeoutMs + lag)
  }

  lemma CountingStep(s: State, o: BridgeOptions, lag: nat, te: Timed, start: int)
    requires Counting(s, o, lag, start) && OnTime(s, lag, te)
    ensures Counting(Step(s, o, te), o, lag, start)
  {
    hide Size, KeepalivePeriod, CloseBoth;
    match te.e
    case ClientMessage(_) =>
    case BackendMessage(_) =>
    case BackendOpen =>
    case _ =>
  }

  lemma {:induction false} CountingRun(o: BridgeOptions, lag: nat, start: int, es: seq<Timed>)
    requires OnTimeRun(Start(o, start), o, lag, es)
    ensures Counting(Run(Start(o, start), o, es), o, lag, start)
  {
    if es != [] {
      hide Step, OnTime;
      CountingRun(o, lag, start, es[..|es| - 1]);
      CountingStep(Run(Start(o, start), o, es[..|es| - 1]), o, lag, es[|es| - 1], start);
    }
  }

  predicate IsFrame(e: Event) { e.ClientMessage? || e.BackendMessage? || e.ClientPing? || e.ClientPong? }

  predicate NoFrames(es: seq<Timed>) { forall i :: 0 <= i < |es| ==> !IsFrame(es[i].e) }

  lemma {:induction false} NoFramesNoReset(o: BridgeOptions, start: int, es: seq<Timed>)
    requires NoFrames(es)
    ensures Run(Start(o, start), o, es).lastFrame == start
  {
    if es != [] { NoFramesNoReset(o, start, es[..|es| - 1]); }
  }

  /**
    * A bridge that sees no frame at all is closed once the bound has elapsed, and its idle timer closes it
    * no sooner than that and no later than the timer's lag after it.
    */
  lemma SilentBridgeIsReaped(o: BridgeOptions, lag: nat, start: int, es: seq<Timed>)
    requires OnTimeRun(Start(o, start), o, lag, es) && NoFrames(es)
    ensures var s := Run(Start(o, start), o, es);
            && (s.now > start + o.idleTimeoutMs + lag ==> s.closed)
            && (forall t :: !s.closed && OnTime(s, lag, At(t, IdleTimer)) ==>
                              && start + o.idleTimeoutMs <= t <= start + o.idleTimeoutMs + lag
                              && Step(s, o, At(t, IdleTimer)).closed)
  {
    hide Run, Start, OnTimeRun, Step;
    CountingRun(o, lag, start, es);
    NoFramesNoReset(o, start, es);
    var s := Run(Start(o, start), o, es);
    forall t | !s.closed && OnTime(s, lag, At(t, IdleTimer))
      ensures start + o.idleTimeoutMs <= t <= start + o.idleTimeoutMs + lag && Step(s, o, At(t, IdleTimer)).closed
    {
      IdleTimerCloses(s, o, t);
    }
  }

  lemma IdleTimerCloses(s: State, o: BridgeOptions, t: int)
    requires s.idleDue.Some?
    ensures Step(s, o, At(t, IdleTimer)).closed
  {
    hide OnClientMessage, OnBackendMessage, OnBackendOpen, OnKeepalive;
  }

  /** At every moment an open bridge has seen a frame within the bound, and its backend opened within the handshake bound. */
  lemma OpenMeansAlive(o: BridgeOptions, lag: nat, start: int, es: seq<Timed>)
    requires OnTimeRun(Start(o, start), o, lag, es)
    ensures var s := Run(Start(o, start), o, es);
            && (!s.closed ==> s.now - s.lastFrame <= o.idleTimeoutMs + lag)
            && (!s.closed && s.now > start + o.handshakeTimeoutMs + lag ==> !s.backend.Connecting?)
  {
    CountingRun(o, lag, start, es);
  }

  // --- A peer that answers is never reaped ---

  /** The keepalive period is strictly inside the bound exactly for bounds above 50 ms. */
  lemma PeriodInsideBound(idleTimeoutMs: nat)
    ensures KeepalivePeriod(idleTimeoutMs) < idleTimeoutMs <==> idleTimeoutMs > 50
    ensures 50 <= KeepalivePeriod(idleTimeoutMs) <= KEEPALIVE_PING_MS
    ensures var period := KeepalivePeriod(idleTimeoutMs);
            if idleTimeoutMs < 150 then period == 50
            else if idleTimeoutMs >= 60_000 then period == 20_000
            else 3 * period <= idleTimeoutMs < 3 * period + 3
  {
  }

  /** How long an answer may take: the bound less the period and the timers' lag. */
  function Patience(o: BridgeOptions, lag: nat): int { o.idleTimeoutMs - KeepalivePeriod(o.idleTimeoutMs) - lag }

  /** The peer stays connected and never leaves a ping unanswered for that long. */
  predicate Answers(s: State, o: BridgeOptions, lag: nat, te: Timed)
  {
    && !te.e.ClientClosing?
    && forall i :: 0 <= i < |s.owed| ==> te.t < s.owed[i] + Patience(o, lag)
  }

  predicate AnswersRun(s: State, o: BridgeOptions, lag: nat, es: seq<Timed>)
  {
    es != [] ==>
      && AnswersRun(s, o, lag, es[..|es| - 1])
      && OnTime(Run(s, o, es[..|es| - 1]), lag, es[|es| - 1]) && Answers(Run(s, o, es[..|es| - 1]), o, lag, es[|es| - 1])
  }

  /** The next answer is due before the idle countdown ends. */
  predicate Lively(s: State, o: BridgeOptions, lag: nat)
  {
    !s.closed ==>
      && s.client.Open?
      && s.idleDue.Some? && s.idleDue.value <= s.now + o.idleTimeoutMs
      && s.keepaliveDue.Some? && s.now - lag <= s.keepaliveDue.value <= s.now + KeepalivePeriod(o.idleTimeoutMs)
      && (forall i :: 0 <= i < |s.owed| ==> s.owed[i] <= s.now)
      && (if s.owed == [] then s.keepaliveDue.value + lag else s.owed[0]) + Patience(o, lag) <= s.idleDue.value
  }

  /** An idle timer cannot fire then: the answer, or before it the ping, is due first. */
  lemma LivelyIsNotIdle(s: State, o: BridgeOptions, lag: nat, te: Timed)
    requires Patience(o, lag) > 0 && Lively(s, o, lag) && OnTime(s, lag, te) && Answers(s, o, lag, te)
    requires te.e.IdleTimer?
    ensures s.closed
  {
    hide KeepalivePeriod;
  }

  /** Any frame starts the countdown again. */
  lemma LivelyFrame(s: State, o: BridgeOptions, lag: nat, te: Timed)
    requires Lively(s, o, lag) && OnTime(s, lag, te) && Answers(s, o, lag, te) && IsFrame(te.e)
    ensures Lively(Step(s, o, te), o, lag)
  {
    hide Size, KeepalivePeriod;
  }

  lemma LivelyStep(s: State, o: BridgeOptions, lag: nat, te: Timed)
    requires Patience(o, lag) > 0 && Lively(s, o, lag) && OnTime(s, lag, te) && Answers(s, o, lag, te)
    ensures Lively(Step(s, o, te), o, lag)
    ensures te.e.IdleTimer? ==> s.closed
  {
    if te.e.IdleTimer? { LivelyIsNotIdle(s, o, lag, te); }
    if IsFrame(te.e) {
      LivelyFrame(s, o, lag, te);
    } else {
      hide KeepalivePeriod, OnClientMessage, OnBackendMessage;
      assert KeepalivePeriod(o.idleTimeoutMs) >= 50 by { PeriodInsideBound(o.idleTimeoutMs); }
    }
  }

  lemma {:induction false} LivelyRun(o: BridgeOptions, lag: nat, start: int, es: seq<Timed>)
    requires Patience(o, lag) > 0 && AnswersRun(Start(o, start), o, lag, es)
    ensures Lively(Run(Start(o, start), o, es), o, lag)
  {
    if es == [] {
      PeriodInsideBound(o.idleTimeoutMs);
    } else {
      hide Step, Lively, OnTime, Answers, Start;
      LivelyRun(o, lag, start, es[..|es| - 1]);
      LivelyStep(Run(Start(o, start), o, es[..|es| - 1]), o, lag, es[|es| - 1]);
    }
  }

  /** The idle timer closes the bridge at some point of the run. */
  ghost predicate ReapedAsIdle(o: BridgeOptions, start: int, es: seq<Timed>)
  {
    exists k :: 0 <= k < |es| && es[k].e.IdleTimer? && !Run(Start(o, start), o, es[..k]).closed
  }

  lemma {:induction false} AnswersPrefix(s: State, o: BridgeOptions, lag: nat, es: seq<Timed>, k: nat)
    requires AnswersRun(s, o, lag, es) && k <= |es|
    ensures AnswersRun(s, o, lag, es[..k])
  {
    if k == |es| {
      assert es[..k] == es;
    } else {
      AnswersPrefix(s, o, lag, es[..|es| - 1], k);
      assert es[..|es| - 1][..k] == es[..k];
    }
  }

  lemma AnsweringPeerSurvives(o: BridgeOptions, lag: nat, start: int, es: seq<Timed>, k: nat)
    requires Patience(o, lag) > 0 && AnswersRun(Start(o, start), o, lag, es)
    requires k < |es| && es[k].e.IdleTimer?
    ensures Run(Start(o, start), o, es[..k]).closed
  {
    hide Step, Lively, Answers, OnTime, Run, Start, Patience;
    var s0 := Start(o, start);
    AnswersPrefix(s0, o, lag, es, k + 1);
    assert es[..k + 1][..k] == es[..k];
    LivelyRun(o, lag, start, es[..k]);
    LivelyStep(Run(s0, o, es[..k]), o, lag, es[k]);
  }

  /**
    * Timers being at most `lag` late: a peer that answers each ping in less than (bound - period - lag) is never
    * closed as idle, however long the run, for every bound that leaves it any time at all, and for no other. With
    * punctual timers those are the bounds above 50 ms.
    */
  lemma KeepaliveWorksIff(o: BridgeOptions, lag: nat, start: int)
    ensures Patience(o, lag) > 0
            <==> forall es: seq<Timed> :: AnswersRun(Start(o, start), o, lag, es) ==> !ReapedAsIdle(o, start, es)
    ensures Patience(o, 0) > 0 <==> o.idleTimeoutMs > 50
  {
    PeriodInsideBound(o.idleTimeoutMs);
    if Patience(o, lag) > 0 {
      forall es: seq<Timed> | AnswersRun(Start(o, start), o, lag, es)
        ensures !ReapedAsIdle(o, start, es)
      {
        forall k | 0 <= k < |es| && es[k].e.IdleTimer?
          ensures Run(Start(o, start), o, es[..k]).closed
        {
          AnsweringPeerSurvives(o, lag, start, es, k);
        }
      }
    } else {
      var es := ReapedBeforePing(o, lag, start);
    }
  }

  /** Otherwise the idle timer can come before the first ping. */
  lemma ReapedBeforePing(o: BridgeOptions, lag: nat, start: int) returns (es: seq<Timed>)
    requires Patience(o, lag) <= 0
    ensures AnswersRun(Start(o, start), o, lag, es) && ReapedAsIdle(o, start, es)
  {
    hide KeepalivePeriod;
    var s0 := Start(o, start);
    es := [At(start, BackendOpen), At(start + o.idleTimeoutMs, IdleTimer)];
    assert KeepalivePeriod(o.idleTimeoutMs) >= 50 by { PeriodInsideBound(o.idleTimeoutMs); }
    var s1 := Step(s0, o, es[0]);
    assert es[..1][..0] == [] && es[..1][0] == es[0];
    assert Run(s0, o, []) == s0 && AnswersRun(s0, o, lag, []);
    assert Run(s0, o, es[..1]) == s1 && AnswersRun(s0, o, lag, es[..1]);
    assert OnTime(s1, lag, es[1]) && Answers(s1, o, lag, es[1]);
    assert AnswersRun(s0, o, lag, es);
    assert es[1].e.IdleTimer? && !s1.closed;
  }

  // --- The bridge itself ---

  class Bridge {
    const opts: BridgeOptions
    var queue: seq<Payload>
    var queueBytes: nat
    var closed: bool
    var backend: Ready
    var client: Ready
    var idleTimer: Option<int>
    var keepaliveTimer: Option<int>
    var handshakeTimer: Option<int>
    var now: int
    var lastFrame: int
    var owed: seq<int>
    var log: Log

    ghost function Value(): State
      reads this
    {
      State(queue, queueBytes, closed, backend, client, idleTimer, keepaliveTimer, handshakeTimer, now, lastFrame, owed, log)
    }

    constructor (opts: BridgeOptions, now: int)
      ensures this.opts == opts && Value() == Start(opts, now)
    {
      this.opts := opts;
      queue, queueBytes, closed := [], 0, false;
      backend, client := Connecting, Open;
      this.now, lastFrame, owed := now, now, [];
      idleTimer := Some(now + opts.idleTimeoutMs);
      keepaliveTimer := Some(now + KeepalivePeriod(opts.idleTimeoutMs));
      handshakeTimer := Some(now + opts.handshakeTimeoutMs);
      log := Log([], [], [], [], []);
    }

    method ClearAllTimers()
      modifies this`idleTimer, this`keepaliveTimer, this`handshakeTimer
      ensures Value() == ClearTimers(old(Value()))
    {
      idleTimer, keepaliveTimer, handshakeTimer := None, None, None;
    }

    method CloseBothSides(code: int, reason: string)
      modifies this
      ensures Value() == CloseBoth(old(Value()), code, reason)
    {
      if closed { return; }
      closed := true;
      ClearAllTimers();
      if client.Open? {
        log := log.(clientCloses := log.clientCloses + [(RemapCloseCode(code), reason)]);
        client := Closing;
      }
      backend := CloseSocket(backend);
    }

    method RestartIdle()
      modifies this`idleTimer, this`lastFrame
      ensures Value() == ResetIdle(old(Value()), opts)
    {
      idleTimer := Some(now + opts.idleTimeoutMs);
      lastFrame := now;
    }

    method HandleClientMessage(payload: Payload)
      modifies this
      ensures Value() == OnClientMessage(old(Value()), opts, payload)
    {
      hide CloseBoth, Size;
      log := log.(fromClient := log.fromClient + [payload]);
      if closed { return; }
      RestartIdle();
      if backend.Open? {
        log := log.(toBackend := log.toBackend + [payload]);
        return;
      }
      if !backend.Connecting? { return; }
      var size := Size(payload);
      if |queue| + 1 > opts.maxQueueMessages || queueBytes + size > opts.maxQueueBytes {
        CloseBothSides(1009, "queue limit exceeded");
        return;
      }
      queue := queue + [payload];
      queueBytes := queueBytes + size;
    }

    /** The backend socket opens: its ready state changes and the queue is flushed in one step. */
    method HandleBackendOpen()
      modifies this
      ensures Value() == OnBackendOpen(old(Value()))
    {
      if !backend.Connecting? { return; }
      backend := Open;
      if closed { return; }
      handshakeTimer := None;
      var pending := queue;
      queue := [];
      queueBytes := 0;
      ghost var sent := log.toBackend;
      ghost var before := log;
      for i := 0 to |pending|
        invariant log == before.(toBackend := sent + pending[..i])
        invariant Value().(log := before) == old(Value()).(backend := Open, handshakeDue := None, queue := [], queueBytes := 0)
      {
        log := log.(toBackend := log.toBackend + [pending[i]]);
        assert pending[..i + 1] == pending[..i] + [pending[i]];
      }
      assert pending[..|pending|] == pending;
    }

    method HandleBackendMessage(payload: Payload)
      modifies this
      ensures Value() == OnBackendMessage(old(Value()), opts, payload)
    {
      log := log.(fromBackend := log.fromBackend + [payload]);
      if closed { return; }
      RestartIdle();
      if !client.Open? { return; }
      log := log.(toClient := log.toClient + [payload]);
    }

    method HandleClientClose()
      modifies this
      ensures Value() == OnClientClose(old(Value()))
    {
      client := Closed;
      if closed { return; }
      closed := true;
      ClearAllTimers();
      backend := CloseSocket(backend);
    }

    method HandleKeepalive()
      modifies this
      ensures Value() == OnKeepalive(old(Value()), opts)
    {
      if keepaliveTimer.None? { return; }
      keepaliveTimer := Some(now + KeepalivePeriod(opts.idleTimeoutMs));
      if closed || !client.Open? { return; }
      owed := owed + [now];
    }

    method HandleHandshakeTimeout()
      modifies this
      ensures Value() == Handle(old(Value()), opts, HandshakeTimer)
    {
      hide CloseBoth;
      if handshakeTimer.None? { return; }
      handshakeTimer := None;
      if !backend.Open? {
        CloseBothSides(1011, "backend handshake timeout");
      }
    }
  }
}
