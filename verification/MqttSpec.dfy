/**
 * One MQTT connection as a state machine over its outstanding asynchronous operations.
 *
 * A state records the operations that are in progress or whose completion is queued, and a log of everything the
 * connection has told the outside. The environment finishes operations and fires timers in any order; running a
 * queued completion handler is one step. Sequences of operations stand for multisets: any index may go next.
 */
module MqttSpec {
  import opened Wrappers

  // ---- What clients send ----------------------------------------------------------------------------------

  // `authenticated` is the verdict of the authentication service. Dispatchable is any of SUBSCRIBE, UNSUBSCRIBE,
  // PUBLISH, PUBACK, PUBREC, PUBREL and PUBCOMP.
  datatype Packet = Connect(clientId: string, keepAliveSecs: nat, authenticated: bool)
                  | PingReq | Disconnect | Dispatchable

  // What the decoder makes of a frame: a packet, `malformed_mqtt_packet`, or `invalid_argument` for a packet
  // type that only servers send.
  datatype Frame = Decoded(packet: Packet) | Malformed | Unsupported

  // ---- Outstanding operations --------------------------------------------------------------------------------

  datatype ReadResult = ReadOk(frame: Frame) | ReadAborted | ReadFailed

  datatype Read = Reading | ReadDone(result: ReadResult)

  datatype Reason = NotADisconnect | ClientDisconnect | AuthenticationFailed | ProtocolViolation
                  | KeepAliveTimeoutExpired | NetworkOrServerFailure

  datatype Outgoing = ConnackAccepted | ConnackRefused | PingResp | FromDispatcher

  datatype AfterWrite = LogOnly | CloseFor(reason: Reason)

  datatype Write = Write(what: Outgoing, next: AfterWrite, done: Option<bool>)

  // A timer wait: still running, expired with its success queued, or cancelled with its abort queued.
  datatype Wait = Waiting | Fired | Aborted

  // A keep-alive wait also remembers how many frame completions had been handled when it was armed, and when it
  // expired.
  datatype KeepAlive = KaWaiting(armedAt: nat) | KaFired(armedAt: nat, firedAt: nat) | KaAborted

  // ---- The log ------------------------------------------------------------------------------------------------

  // Where exceptions leave a handler: in the decoder, and at the two calls of `remote_endpoint` for a CONNECT, before
  // and after it is accepted.
  datatype EscapePoint = InDecoder | InAuthentication | InAcceptance

  datatype Event =
    | ConnectDispatched(clientId: string)
    | PacketDispatched(clientId: string)
    | DisconnectDispatched(clientId: string, reason: Reason)
    | UngracefulDisconnect(clientId: string, reason: Reason)
    | WriteStarted(what: Outgoing)
    | CloseRequested(reason: Reason)
    | KeepAliveExpired(armedAt: nat, firedAt: nat, frames: nat)    // `frames` handled when the expiry is
    | Stopped
    | Escaped(at: EscapePoint)    // an exception left a handler

  datatype Conn = Conn(open: bool, clientId: Option<string>, keepAlive: Option<nat>,
                       readOps: seq<Read>, writeOps: seq<Write>,
                       connectWaits: seq<Wait>, keepAliveWaits: seq<KeepAlive>,
                       frames: nat, trapped: bool, log: seq<Event>)

  // What the dispatcher does to this connection while it handles a call from it.
  datatype Reaction = SendPacket | StopConnection

  // What a handler finds: whether `remote_endpoint()` succeeds on the open socket, the first and the second time,
  // and how the dispatcher reacts.
  datatype Env = Env(endpointFirst: bool, endpointSecond: bool, reactions: seq<Reaction>)

  // ---- The pieces of a handler ------------------------------------------------------------------------------

  function Logged(c: Conn, e: Event): Conn {
    c.(log := c.log + [e])
  }

  function Cancelled(ws: seq<Wait>): (r: seq<Wait>)
    ensures |r| == |ws|
  {
    seq(|ws|, i requires 0 <= i < |ws| => if ws[i] == Waiting then Aborted else ws[i])
  }

  function CancelledKeepAlive(ws: seq<KeepAlive>): (r: seq<KeepAlive>)
    ensures |r| == |ws|
  {
    seq(|ws|, i requires 0 <= i < |ws| => if ws[i].KaWaiting? then KaAborted else ws[i])
  }

  // The socket is closed and both timers are cancelled.
  function DoStop(c: Conn): Conn {
    Logged(c.(open := false, connectWaits := Cancelled(c.connectWaits),
              keepAliveWaits := CancelledKeepAlive(c.keepAliveWaits)), Stopped)
  }

  function StartRead(c: Conn): Conn {
    if c.open then c.(readOps := c.readOps + [Reading]) else c
  }

  function StartWrite(c: Conn, what: Outgoing, next: AfterWrite): Conn {
    if c.open then Logged(c.(writeOps := c.writeOps + [Write(what, next, None)]), WriteStarted(what)) else c
  }

  function React(c: Conn, reactions: seq<Reaction>): Conn {
    if reactions == [] then c
    else
      var before := React(c, reactions[..|reactions| - 1]);
      if reactions[|reactions| - 1] == SendPacket then StartWrite(before, FromDispatcher, LogOnly) else DoStop(before)
  }

  function ArmKeepAlive(c: Conn): Conn {
    if c.keepAlive.Some? then
      c.(keepAliveWaits := CancelledKeepAlive(c.keepAliveWaits) + [KaWaiting(c.frames)])
    else c
  }

  // The notice the dispatcher gets when a connection with a client id is closed for `reason`.
  function Notice(id: string, reason: Reason): Event {
    if reason in {NetworkOrServerFailure, ProtocolViolation, KeepAliveTimeoutExpired} then
      UngracefulDisconnect(id, reason)
    else DisconnectDispatched(id, reason)
  }

  function RequestClose(c: Conn, reason: Reason, reactions: seq<Reaction>): Conn {
    var c1 := Logged(c, CloseRequested(reason));
    if c.clientId.None? then DoStop(c1)
    else DoStop(React(Logged(c1, Notice(c.clientId.value, reason)), reactions))
  }

  // ---- The handlers --------------------------------------------------------------------------------------------

  // A CONNECT that passed authentication.
  function Accept(c: Conn, id: string, keepAliveSecs: nat, env: Env): Conn {
    var c1 := c.(connectWaits := Cancelled(c.connectWaits), clientId := Some(id));
    if !env.endpointSecond then Logged(c1, Escaped(InAcceptance))
    else
      var c2 := if keepAliveSecs > 0 then ArmKeepAlive(c1.(keepAlive := Some(keepAliveSecs))) else c1;
      var c3 := React(Logged(c2, ConnectDispatched(id)), env.reactions);
      StartRead(StartWrite(c3, ConnackAccepted, LogOnly))
  }

  function HandlePacket(c: Conn, packet: Packet, env: Env): Conn {
    match packet
    case Connect(id, keepAliveSecs, authenticated) =>
      if c.clientId.Some? then StartRead(RequestClose(c, ProtocolViolation, env.reactions))
      else if !c.open || !env.endpointFirst then Logged(c, Escaped(InAuthentication))
      else if !authenticated then StartRead(StartWrite(c, ConnackRefused, CloseFor(AuthenticationFailed)))
      else Accept(c, id, keepAliveSecs, env)
    case PingReq => StartRead(StartWrite(c, PingResp, LogOnly))
    case Disconnect =>
      if c.clientId.None? then c.(trapped := true)
      else DoStop(React(Logged(c, DisconnectDispatched(c.clientId.value, ClientDisconnect)), env.reactions))
    case Dispatchable =>
      if c.clientId.None? then c.(trapped := true)
      else StartRead(React(Logged(c, PacketDispatched(c.clientId.value)), env.reactions))
  }

  // A read handler, once it has counted the completion and cancelled the keep-alive wait.
  function HandleResult(c: Conn, result: ReadResult, env: Env): Conn {
    match result
    case ReadAborted => c
    case ReadFailed => RequestClose(c, NetworkOrServerFailure, env.reactions)
    case ReadOk(Malformed) => RequestClose(c, ProtocolViolation, env.reactions)
    case ReadOk(Unsupported) => Logged(c, Escaped(InDecoder))
    case ReadOk(Decoded(packet)) => HandlePacket(c, packet, env)
  }

  function Counted(c: Conn): Conn {
    c.(frames := c.frames + 1, keepAliveWaits := CancelledKeepAlive(c.keepAliveWaits))
  }

  function HandleRead(c: Conn, result: ReadResult, env: Env): Conn {
    HandleResult(Counted(c), result, env)
  }

  function HandleWrite(c: Conn, next: AfterWrite, ok: bool, env: Env): Conn {
    match next
    case LogOnly => if ok then c else RequestClose(c, NetworkOrServerFailure, env.reactions)
    case CloseFor(reason) => RequestClose(c, reason, env.reactions)
  }

  function HandleConnectWait(c: Conn, fired: bool, env: Env): Conn {
    if fired then RequestClose(c, ProtocolViolation, env.reactions) else c
  }

  function HandleKeepAlive(c: Conn, k: KeepAlive, env: Env): Conn {
    match k
    case KaWaiting(_) => c
    case KaFired(armedAt, firedAt) =>
      RequestClose(Logged(c, KeepAliveExpired(armedAt, firedAt, c.frames)), KeepAliveTimeoutExpired, env.reactions)
    case KaAborted => if c.open then ArmKeepAlive(c) else c
  }

  // ---- Steps and runs -----------------------------------------------------------------------------------------

  datatype Step =
    | FinishRead(i: nat, result: ReadResult)     // the environment: an operation completes, its handler is queued
    | FinishWrite(i: nat, ok: bool)
    | FireConnectWait(i: nat)
    | FireKeepAlive(i: nat)
    | RunRead(i: nat, env: Env)                  // a queued handler runs
    | RunWrite(i: nat, env: Env)
    | RunConnectWait(i: nat, env: Env)
    | RunKeepAlive(i: nat, env: Env)
    | Send                                       // the dispatcher, on behalf of another connection
    | Stop

  predicate IsRun(s: Step) {
    s.RunRead? || s.RunWrite? || s.RunConnectWait? || s.RunKeepAlive?
  }

  function Without<T>(s: seq<T>, i: nat): (r: seq<T>)
    requires i < |s|
    ensures |r| == |s| - 1
    ensures forall x :: x in r ==> x in s
  {
    s[..i] + s[i + 1..]
  }

  // A read on an open socket is not aborted, and one on a closed socket does not succeed any more. A connection
  // whose handler dereferenced the empty client id is out of the model.
  predicate Enabled(c: Conn, s: Step) {
    !c.trapped &&
    match s
    case FinishRead(i, result) =>
      i < |c.readOps| && c.readOps[i] == Reading && (if c.open then !result.ReadAborted? else !result.ReadOk?)
    case FinishWrite(i, ok) => i < |c.writeOps| && c.writeOps[i].done == None && (!c.open ==> !ok)
    case FireConnectWait(i) => i < |c.connectWaits| && c.connectWaits[i] == Waiting
    case FireKeepAlive(i) => i < |c.keepAliveWaits| && c.keepAliveWaits[i].KaWaiting?
    case RunRead(i, _) => i < |c.readOps| && c.readOps[i].ReadDone?
    case RunWrite(i, _) => i < |c.writeOps| && c.writeOps[i].done.Some?
    case RunConnectWait(i, _) => i < |c.connectWaits| && c.connectWaits[i] != Waiting
    case RunKeepAlive(i, _) => i < |c.keepAliveWaits| && !c.keepAliveWaits[i].KaWaiting?
    case Send => true
    case Stop => true
  }

  function Next(c: Conn, s: Step): Conn
    requires Enabled(c, s)
  {
    match s
    case FinishRead(i, result) => c.(readOps := c.readOps[i := ReadDone(result)])
    case FinishWrite(i, ok) => c.(writeOps := c.writeOps[i := c.writeOps[i].(done := Some(ok))])
    case FireConnectWait(i) => c.(connectWaits := c.connectWaits[i := Fired])
    case FireKeepAlive(i) =>
      c.(keepAliveWaits := c.keepAliveWaits[i := KaFired(c.keepAliveWaits[i].armedAt, c.frames)])
    case RunRead(i, env) => HandleRead(c.(readOps := Without(c.readOps, i)), c.readOps[i].result, env)
    case RunWrite(i, env) =>
      HandleWrite(c.(writeOps := Without(c.writeOps, i)), c.writeOps[i].next, c.writeOps[i].done.value, env)
    case RunConnectWait(i, env) =>
      HandleConnectWait(c.(connectWaits := Without(c.connectWaits, i)), c.connectWaits[i] == Fired, env)
    case RunKeepAlive(i, env) =>
      HandleKeepAlive(c.(keepAliveWaits := Without(c.keepAliveWaits, i)), c.keepAliveWaits[i], env)
    case Send => StartWrite(c, FromDispatcher, LogOnly)
    case Stop => DoStop(c)
  }

  // A connection as constructed, and just after `start()`.
  const Fresh: Conn := Conn(true, None, None, [], [], [], [], 0, false, [])

  function Start(c: Conn): Conn {
    StartRead(c.(connectWaits := Cancelled(c.connectWaits) + [Waiting]))
  }

  predicate ValidRun(c: Conn, steps: seq<Step>)
    decreases |steps|
  {
    steps == [] || (Enabled(c, steps[0]) && ValidRun(Next(c, steps[0]), steps[1..]))
  }

  function After(c: Conn, steps: seq<Step>): Conn
    requires ValidRun(c, steps)
    decreases |steps|
  {
    if steps == [] then c else After(Next(c, steps[0]), steps[1..])
  }
}
