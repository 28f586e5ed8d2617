/** The main results about a connection, and the promises it does not keep. */
module MqttTheorems {
  import opened Wrappers
  import opened MqttSpec
  import opened MqttLaws

  // ---- Every reachable state ----------------------------------------------------------------------------------

  /**
   * In every state of every run of a started connection: at most one read is outstanding; while the socket is open
   * exactly one is if and only if no handler ended early, and once one did none is; the connect deadline is
   * outstanding until a CONNECT is accepted, and from then on exactly one keep-alive wait is, if the client asked for
   * it; the CONNECT is dispatched at most once and acknowledged at most once; a refusal, and only a refusal, closes
   * the connection when its write completes.
   */
  lemma EveryReachableState(steps: seq<Step>)
    requires ValidRun(Start(Fresh), steps)
    ensures var c := After(Start(Fresh), steps);
            && |c.readOps| <= 1
            && (c.open ==> (|c.readOps| == 1 <==> !c.trapped && !HasEscaped(c.log)))
            && (c.trapped || HasEscaped(c.log) ==> c.readOps == [])
            && (c.open && c.clientId.None? ==> c.connectWaits == [Waiting] || c.connectWaits == [Fired])
            && (c.clientId.Some? ==> Waiting !in c.connectWaits)
            && (c.open && c.keepAlive.Some? ==> |c.keepAliveWaits| == 1)
            && |c.keepAliveWaits| <= 1
            && CountAccepted(c.log) <= CountConnects(c.log) <= 1
            && (forall w :: w in c.writeOps ==> ClosesAfter(w.what, w.next))
            && (Stopped in c.log <==> !c.open)
  {
    InvAtStart();
    InvInEveryRun(Start(Fresh), steps);
    hide ValidRun, After, CountAccepted, CountConnects;
  }

  /**
   * In every run, every logged event was in order when it was logged: a CONNECT is dispatched once, and before any
   * other packet and any DISCONNECT of the client; the accepting CONNACK is written only after that; any other
   * disconnect notice comes after it if and only if no exception cut the acceptance short; nothing is written and no
   * CONNECT is dispatched after a stop; only the accepted client id is ever used; and a close for an expired keep-alive
   * follows an expiry during whose wait no frame completion was handled.
   */
  lemma EveryEventInOrder(steps: seq<Step>, i: nat)
    requires ValidRun(Start(Fresh), steps) && i < |After(Start(Fresh), steps).log|
    ensures var c := After(Start(Fresh), steps); MayFollow(c.log[..i], c.clientId, c.log[i])
  {
    InvAtStart();
    InvInEveryRun(Start(Fresh), steps);
    InOrderAt(After(Start(Fresh), steps).log, After(Start(Fresh), steps).clientId, i);
  }

  lemma {:induction false} InOrderAt(log: seq<Event>, clientId: Option<string>, i: nat)
    requires InOrder(log, clientId) && i < |log|
    ensures MayFollow(log[..i], clientId, log[i])
    decreases |log|
  {
    var n := |log| - 1;
    if i < n {
      InOrderAt(log[..n], clientId, i);
      assert log[..n][..i] == log[..i];
    }
  }

  // ---- What every step leaves standing -------------------------------------------------------------------------

  // The log only grows, a client id never changes, a closed socket stays closed.
  ghost predicate Grows(c: Conn, d: Conn) {
    && c.log <= d.log
    && (c.clientId.Some? ==> d.clientId == c.clientId)
    && (!c.open ==> !d.open)
  }

  lemma {:induction false} ReactGrows(c: Conn, reactions: seq<Reaction>)
    ensures Grows(c, React(c, reactions)) && React(c, reactions).clientId == c.clientId
    ensures React(c, reactions).keepAlive == c.keepAlive
    decreases |reactions|
  {
    if reactions != [] {
      ReactGrows(c, reactions[..|reactions| - 1]);
    }
  }

  lemma RequestCloseGrows(c: Conn, reason: Reason, reactions: seq<Reaction>)
    ensures Grows(c, RequestClose(c, reason, reactions))
  {
    var c1 := Logged(c, CloseRequested(reason));
    if c.clientId.Some? {
      ReactGrows(Logged(c1, Notice(c.clientId.value, reason)), reactions);
    }
  }

  lemma HandlePacketGrows(c: Conn, packet: Packet, env: Env)
    ensures Grows(c, HandlePacket(c, packet, env))
  {
    match packet {
      case Connect(id, secs, authenticated) =>
        RequestCloseGrows(c, ProtocolViolation, env.reactions);
        var c1 := c.(connectWaits := Cancelled(c.connectWaits), clientId := Some(id));
        var c2 := if secs > 0 then ArmKeepAlive(c1.(keepAlive := Some(secs))) else c1;
        ReactGrows(Logged(c2, ConnectDispatched(id)), env.reactions);
        hide React, RequestClose, Cancelled;
      case PingReq =>
      case Disconnect =>
        if c.clientId.Some? {
          ReactGrows(Logged(c, DisconnectDispatched(c.clientId.value, ClientDisconnect)), env.reactions);
        }
      case Dispatchable =>
        if c.clientId.Some? {
          ReactGrows(Logged(c, PacketDispatched(c.clientId.value)), env.reactions);
        }
    }
  }

  lemma NextGrows(c: Conn, s: Step)
    requires Enabled(c, s)
    ensures Grows(c, Next(c, s))
  {
    hide RequestClose, HandlePacket, CancelledKeepAlive, Cancelled;
    match s {
      case RunRead(i, env) =>
        var d := Counted(c.(readOps := Without(c.readOps, i)));
        RequestCloseGrows(d, NetworkOrServerFailure, env.reactions);
        RequestCloseGrows(d, ProtocolViolation, env.reactions);
        if c.readOps[i].result.ReadOk? && c.readOps[i].result.frame.Decoded? {
          HandlePacketGrows(d, c.readOps[i].result.frame.packet, env);
        }
      case RunWrite(i, env) =>
        var d := c.(writeOps := Without(c.writeOps, i));
        RequestCloseGrows(d, NetworkOrServerFailure, env.reactions);
        if c.writeOps[i].next.CloseFor? {
          RequestCloseGrows(d, c.writeOps[i].next.reason, env.reactions);
        }
      case RunConnectWait(i, env) =>
        RequestCloseGrows(c.(connectWaits := Without(c.connectWaits, i)), ProtocolViolation, env.reactions);
      case RunKeepAlive(i, env) =>
        var d := c.(keepAliveWaits := Without(c.keepAliveWaits, i));
        if c.keepAliveWaits[i].KaFired? {
          var e := KeepAliveExpired(c.keepAliveWaits[i].armedAt, c.keepAliveWaits[i].firedAt, d.frames);
          RequestCloseGrows(Logged(d, e), KeepAliveTimeoutExpired, env.reactions);
        }
      case _ =>
    }
  }

  /** Over any run the client id, once set, never changes; the log only grows; a closed socket stays closed. */
  lemma {:induction false} RunGrows(c: Conn, steps: seq<Step>)
    requires ValidRun(c, steps)
    ensures Grows(c, After(c, steps))
    decreases |steps|
  {
    hide Next, Enabled;
    if steps != [] {
      NextGrows(c, steps[0]);
      RunGrows(Next(c, steps[0]), steps[1..]);
    }
  }

  // ---- Closing ----------------------------------------------------------------------------------------------------

  function Outstanding(c: Conn): nat {
    |c.readOps| + |c.writeOps| + |c.connectWaits| + |c.keepAliveWaits|
  }

  function CountCloseRequests(log: seq<Event>): nat {
    if log == [] then 0
    else CountCloseRequests(log[..|log| - 1]) + (if log[|log| - 1].CloseRequested? then 1 else 0)
  }

  function CountNotices(log: seq<Event>): nat {
    if log == [] then 0
    else CountNotices(log[..|log| - 1])
         + (if log[|log| - 1].DisconnectDispatched? || log[|log| - 1].UngracefulDisconnect? then 1 else 0)
  }

  // `d` follows `c` with these operations outstanding, `closes` more close requests and `notices` more notices.
  ghost predicate Differs(c: Conn, d: Conn, closes: int, notices: int) {
    && CountCloseRequests(d.log) == CountCloseRequests(c.log) + closes
    && CountNotices(d.log) == CountNotices(c.log) + notices
    && (!c.open ==> !d.open && Outstanding(d) == Outstanding(c))
  }

  lemma LoggedDiffers(c: Conn, e: Event)
    ensures Differs(c, Logged(c, e), if e.CloseRequested? then 1 else 0,
                    if e.DisconnectDispatched? || e.UngracefulDisconnect? then 1 else 0)
  {
    assert (c.log + [e])[..|c.log|] == c.log;
  }

  lemma WriteDiffers(c: Conn, what: Outgoing, next: AfterWrite)
    ensures Differs(c, StartWrite(c, what, next), 0, 0) && StartWrite(c, what, next).clientId == c.clientId
  {
    LoggedDiffers(c, WriteStarted(what));
    hide CountCloseRequests, CountNotices;
  }

  lemma StopDiffers(c: Conn)
    ensures Differs(c, DoStop(c), 0, 0) && DoStop(c).clientId == c.clientId
  {
    LoggedDiffers(c, Stopped);
    hide CountCloseRequests, CountNotices, Cancelled, CancelledKeepAlive;
  }

  lemma {:induction false} ReactDiffers(c: Conn, reactions: seq<Reaction>)
    ensures Differs(c, React(c, reactions), 0, 0) && React(c, reactions).clientId == c.clientId
    decreases |reactions|
  {
    if reactions != [] {
      ReactDiffers(c, reactions[..|reactions| - 1]);
      WriteDiffers(React(c, reactions[..|reactions| - 1]), FromDispatcher, LogOnly);
      StopDiffers(React(c, reactions[..|reactions| - 1]));
      hide CountCloseRequests, CountNotices, StartWrite, DoStop, Outstanding;
    }
  }

  lemma RequestCloseDiffers(c: Conn, reason: Reason, reactions: seq<Reaction>)
    ensures Differs(c, RequestClose(c, reason, reactions), 1, if c.clientId.Some? then 1 else 0)
    ensures !RequestClose(c, reason, reactions).open
  {
    hide CountCloseRequests, CountNotices, React, Outstanding;
    var c1 := Logged(c, CloseRequested(reason));
    LoggedDiffers(c, CloseRequested(reason));
    StopDiffers(c1);
    if c.clientId.Some? {
      var e := Notice(c.clientId.value, reason);
      LoggedDiffers(c1, e);
      ReactDiffers(Logged(c1, e), reactions);
      StopDiffers(React(Logged(c1, e), reactions));
    }
  }

  // Does running this completion request the close of the connection?
  predicate RequestsClose(c: Conn, s: Step)
    requires Enabled(c, s)
  {
    match s
    case RunRead(i, _) => (
      match c.readOps[i].result
      case ReadAborted => false
      case ReadFailed => true
      case ReadOk(Malformed) => true
      case ReadOk(Unsupported) => false
      case ReadOk(Decoded(packet)) => packet.Connect? && c.clientId.Some?
    )
    case RunWrite(i, _) => c.writeOps[i].next.CloseFor? || c.writeOps[i].done == Some(false)
    case RunConnectWait(i, _) => c.connectWaits[i] == Fired
    case RunKeepAlive(i, _) => c.keepAliveWaits[i].KaFired?
    case _ => false
  }

  predicate IsClientDisconnect(c: Conn, s: Step)
    requires Enabled(c, s)
  {
    s.RunRead? && c.readOps[s.i].result == ReadOk(Decoded(Disconnect)) && c.clientId.Some?
  }

  lemma PacketDiffers(c: Conn, packet: Packet, env: Env)
    ensures var closes := packet.Connect? && c.clientId.Some?;
            var leaves := packet.Disconnect? && c.clientId.Some?;
            && Differs(c, HandlePacket(c, packet, env), if closes then 1 else 0, if closes || leaves then 1 else 0)
            && (closes || leaves ==> !HandlePacket(c, packet, env).open)
  {
    hide CountCloseRequests, CountNotices, React, StartWrite, RequestClose, Accept, Cancelled, CancelledKeepAlive;
    match packet {
      case Connect(id, secs, authenticated) => ConnectDiffers(c, packet, env);
      case PingReq => WriteDiffers(c, PingResp, LogOnly);
      case Disconnect =>
        if c.clientId.Some? {
          var e := DisconnectDispatched(c.clientId.value, ClientDisconnect);
          LoggedDiffers(c, e);
          ReactDiffers(Logged(c, e), env.reactions);
          StopDiffers(React(Logged(c, e), env.reactions));
        }
      case Dispatchable =>
        if c.clientId.Some? {
          LoggedDiffers(c, PacketDispatched(c.clientId.value));
          ReactDiffers(Logged(c, PacketDispatched(c.clientId.value)), env.reactions);
        }
    }
  }

  lemma ConnectDiffers(c: Conn, packet: Packet, env: Env)
    requires packet.Connect?
    ensures var more := if c.clientId.Some? then 1 else 0; Differs(c, HandlePacket(c, packet, env), more, more)
    ensures c.clientId.Some? ==> !HandlePacket(c, packet, env).open
  {
    if c.clientId.Some? {
      RequestCloseDiffers(c, ProtocolViolation, env.reactions);
    } else if c.open && env.endpointFirst && packet.authenticated {
      AcceptDiffers(c, packet.clientId, packet.keepAliveSecs, env);
    } else {
      LoggedDiffers(c, Escaped(InAuthentication));
      WriteDiffers(c, ConnackRefused, CloseFor(AuthenticationFailed));
    }
    hide CountCloseRequests, CountNotices, RequestClose, Accept, StartWrite;
  }

  lemma AcceptDiffers(c: Conn, id: string, secs: nat, env: Env)
    requires c.open
    ensures Differs(c, Accept(c, id, secs, env), 0, 0)
  {
    var c1 := c.(connectWaits := Cancelled(c.connectWaits), clientId := Some(id));
    LoggedDiffers(c1, Escaped(InAcceptance));
    var c2 := if secs > 0 then ArmKeepAlive(c1.(keepAlive := Some(secs))) else c1;
    LoggedDiffers(c2, ConnectDispatched(id));
    ReactDiffers(Logged(c2, ConnectDispatched(id)), env.reactions);
    WriteDiffers(React(Logged(c2, ConnectDispatched(id)), env.reactions), ConnackAccepted, LogOnly);
    hide CountCloseRequests, CountNotices, React, StartWrite, Cancelled, CancelledKeepAlive;
  }

  ghost predicate StepDiffers(c: Conn, d: Conn, s: Step)
    requires Enabled(c, s)
  {
    && CountCloseRequests(d.log) == CountCloseRequests(c.log) + (if RequestsClose(c, s) then 1 else 0)
    && CountNotices(d.log) == CountNotices(c.log)
         + (if (RequestsClose(c, s) && c.clientId.Some?) || IsClientDisconnect(c, s) then 1 else 0)
    && (!c.open ==> !d.open && Outstanding(d) == Outstanding(c) - (if IsRun(s) then 1 else 0))
    && (RequestsClose(c, s) || IsClientDisconnect(c, s) ==> !d.open)
  }

  lemma ReadDiffers(c: Conn, s: Step)
    requires Enabled(c, s) && s.RunRead?
    ensures StepDiffers(c, Next(c, s), s)
  {
    var d := Counted(c.(readOps := Without(c.readOps, s.i)));
    assert Outstanding(d) == Outstanding(c) - 1 && d.log == c.log && d.clientId == c.clientId && d.open == c.open;
    hide Outstanding, Without, Counted;
    hide CountCloseRequests, CountNotices, RequestClose, HandlePacket;
    match c.readOps[s.i].result {
      case ReadAborted =>
      case ReadFailed => RequestCloseDiffers(d, NetworkOrServerFailure, s.env.reactions);
      case ReadOk(Malformed) => RequestCloseDiffers(d, ProtocolViolation, s.env.reactions);
      case ReadOk(Unsupported) => LoggedDiffers(d, Escaped(InDecoder));
      case ReadOk(Decoded(packet)) => PacketDiffers(d, packet, s.env);
    }
  }

  lemma WriteRunDiffers(c: Conn, s: Step)
    requires Enabled(c, s) && s.RunWrite?
    ensures StepDiffers(c, Next(c, s), s)
  {
    var d := c.(writeOps := Without(c.writeOps, s.i));
    var w := c.writeOps[s.i];
    if RequestsClose(c, s) {
      RequestCloseDiffers(d, if w.next.CloseFor? then w.next.reason else NetworkOrServerFailure, s.env.reactions);
    }
    hide CountCloseRequests, CountNotices, RequestClose;
  }

  lemma TimerDiffers(c: Conn, s: Step)
    requires Enabled(c, s) && (s.RunConnectWait? || s.RunKeepAlive?)
    ensures StepDiffers(c, Next(c, s), s)
  {
    hide CountCloseRequests, CountNotices, RequestClose;
    if s.RunConnectWait? {
      RequestCloseDiffers(c.(connectWaits := Without(c.connectWaits, s.i)), ProtocolViolation, s.env.reactions);
    } else if c.keepAliveWaits[s.i].KaFired? {
      var d := c.(keepAliveWaits := Without(c.keepAliveWaits, s.i));
      var e := KeepAliveExpired(c.keepAliveWaits[s.i].armedAt, c.keepAliveWaits[s.i].firedAt, d.frames);
      LoggedDiffers(d, e);
      RequestCloseDiffers(Logged(d, e), KeepAliveTimeoutExpired, s.env.reactions);
    }
  }

  lemma EnvironmentDiffers(c: Conn, s: Step)
    requires Enabled(c, s) && !IsRun(s)
    ensures StepDiffers(c, Next(c, s), s)
  {
    WriteDiffers(c, FromDispatcher, LogOnly);
    StopDiffers(c);
    hide CountCloseRequests, CountNotices, StartWrite, DoStop;
  }

  /**
   * What a step adds: one close request exactly when it runs a completion of the listed kinds, and one disconnect
   * notice exactly when, besides, a client id is set, or the client sent DISCONNECT; each such step leaves the
   * socket closed. On a closed socket nothing new is started, so each handler run uses up one operation.
   */
  lemma NextDiffers(c: Conn, s: Step)
    requires Enabled(c, s)
    ensures StepDiffers(c, Next(c, s), s)
  {
    hide StepDiffers, Next, Enabled;
    match s {
      case RunRead(_, _) => ReadDiffers(c, s);
      case RunWrite(_, _) => WriteRunDiffers(c, s);
      case RunConnectWait(_, _) => TimerDiffers(c, s);
      case RunKeepAlive(_, _) => TimerDiffers(c, s);
      case _ => EnvironmentDiffers(c, s);
    }
  }

  function CountRuns(steps: seq<Step>): nat {
    if steps == [] then 0 else (if IsRun(steps[0]) then 1 else 0) + CountRuns(steps[1..])
  }

  /**
   * Once closed, a connection drains: over any run the socket stays closed, every handler run uses up exactly one
   * outstanding operation and none is started, and at most one further close is requested per handler run.
   */
  lemma {:induction false} ClosedConnectionDrains(c: Conn, steps: seq<Step>)
    requires !c.open && ValidRun(c, steps)
    ensures var d := After(c, steps);
            && !d.open
            && Outstanding(d) + CountRuns(steps) == Outstanding(c)
            && CountCloseRequests(d.log) <= CountCloseRequests(c.log) + CountRuns(steps)
    decreases |steps|
  {
    hide Next, Enabled, Outstanding, CountCloseRequests, CountNotices;
    if steps != [] {
      NextDiffers(c, steps[0]);
      ClosedConnectionDrains(Next(c, steps[0]), steps[1..]);
    }
  }

  /** A second CONNECT closes the socket and keeps the identity of the first (MQTT 3.1.1, section 3.1). */
  lemma SecondConnectCloses(c: Conn, i: nat, env: Env)
    requires Enabled(c, RunRead(i, env)) && c.clientId.Some?
    requires c.readOps[i].result.ReadOk? && c.readOps[i].result.frame.Decoded?
    requires c.readOps[i].result.frame.packet.Connect?
    ensures var d := Next(c, RunRead(i, env));
            !d.open && d.clientId == c.clientId && CountCloseRequests(d.log) == CountCloseRequests(c.log) + 1
  {
    NextDiffers(c, RunRead(i, env));
    NextGrows(c, RunRead(i, env));
    hide Next;
  }

  // The first thing the outside learns from a packet whose handler is not cut short.
  function Answer(c: Conn, packet: Packet): Event
    requires c.clientId.Some? || packet.Connect? || packet.PingReq?
  {
    match packet
    case Connect(id, _, authenticated) =>
      if c.clientId.Some? then CloseRequested(ProtocolViolation)
      else if authenticated then ConnectDispatched(id)
      else WriteStarted(ConnackRefused)
    case PingReq => WriteStarted(PingResp)
    case Disconnect => DisconnectDispatched(c.clientId.value, ClientDisconnect)
    case Dispatchable => PacketDispatched(c.clientId.value)
  }

  /**
   * Every decoded packet on an open connection is answered as its type asks, and an identity is taken on exactly
   * from a first, authenticated CONNECT.
   */
  lemma PacketsAreAnswered(c: Conn, i: nat, env: Env)
    requires Enabled(c, RunRead(i, env)) && c.open
    requires c.readOps[i].result.ReadOk? && c.readOps[i].result.frame.Decoded?
    requires EscapeOf(c, RunRead(i, env)).None? && !ReadsMissingId(c, RunRead(i, env))
    ensures var packet := c.readOps[i].result.frame.packet;
            var d := Next(c, RunRead(i, env));
            && c.log + [Answer(c, packet)] <= d.log
            && (c.clientId.None? ==>
                d.clientId == if packet.Connect? && packet.authenticated then Some(packet.clientId) else None)
  {
    var d := Counted(c.(readOps := Without(c.readOps, i)));
    hide Cancelled, CancelledKeepAlive, React, StartRead;
    match c.readOps[i].result.frame.packet {
      case Connect(id, secs, authenticated) =>
        var c1 := Logged(d, CloseRequested(ProtocolViolation));
        if c.clientId.Some? {
          ReactGrows(Logged(c1, Notice(c.clientId.value, ProtocolViolation)), env.reactions);
        }
        var a1 := d.(connectWaits := Cancelled(d.connectWaits), clientId := Some(id));
        var a2 := if secs > 0 then ArmKeepAlive(a1.(keepAlive := Some(secs))) else a1;
        ReactGrows(Logged(a2, ConnectDispatched(id)), env.reactions);
      case PingReq =>
      case Disconnect =>
        ReactGrows(Logged(d, DisconnectDispatched(c.clientId.value, ClientDisconnect)), env.reactions);
      case Dispatchable =>
        ReactGrows(Logged(d, PacketDispatched(c.clientId.value)), env.reactions);
    }
  }

  // ---- Promises that fail, and exactly when --------------------------------------------------------------------

  // The packets whose handler reads the client id without checking that there is one.
  predicate ReadsMissingId(c: Conn, s: Step)
    requires Enabled(c, s)
  {
    s.RunRead? && c.clientId.None? && c.readOps[s.i].result.ReadOk? && c.readOps[s.i].result.frame.Decoded?
    && (c.readOps[s.i].result.frame.packet.Disconnect? || c.readOps[s.i].result.frame.packet.Dispatchable?)
  }

  // Where a packet's handler lets an exception out, if it does.
  function PacketEscape(c: Conn, packet: Packet, env: Env): Option<EscapePoint> {
    if !packet.Connect? || c.clientId.Some? then None
    else if !c.open || !env.endpointFirst then Some(InAuthentication)
    else if packet.authenticated && !env.endpointSecond then Some(InAcceptance)
    else None
  }

  // Where the handler of a completion lets an exception out, if it does.
  function EscapeOf(c: Conn, s: Step): Option<EscapePoint>
    requires Enabled(c, s)
  {
    if !s.RunRead? || !c.readOps[s.i].result.ReadOk? then None
    else
      match c.readOps[s.i].result.frame
      case Malformed => None
      case Unsupported => Some(InDecoder)
      case Decoded(packet) => PacketEscape(c, packet, s.env)
  }

  // The same escapes, the same missing id, and no more and no fewer reads.
  ghost predicate SameEnd(c: Conn, d: Conn) {
    (forall at :: Escaped(at) in d.log <==> Escaped(at) in c.log) && d.trapped == c.trapped && d.readOps == c.readOps
  }

  lemma LoggedSameEnd(c: Conn, e: Event)
    requires !e.Escaped?
    ensures SameEnd(c, Logged(c, e))
  {}

  lemma {:induction false} ReactSameEnd(c: Conn, reactions: seq<Reaction>)
    ensures SameEnd(c, React(c, reactions))
    decreases |reactions|
  {
    if reactions != [] {
      ReactSameEnd(c, reactions[..|reactions| - 1]);
    }
  }

  lemma RequestCloseSameEnd(c: Conn, reason: Reason, reactions: seq<Reaction>)
    ensures SameEnd(c, RequestClose(c, reason, reactions)) && !RequestClose(c, reason, reactions).open
  {
    hide React;
    if c.clientId.Some? {
      ReactSameEnd(Logged(Logged(c, CloseRequested(reason)), Notice(c.clientId.value, reason)), reactions);
    }
  }

  // `d` follows `c`, on which no handler had ended early: what it ends with.
  ghost predicate EndsWith(c: Conn, d: Conn, escape: Option<EscapePoint>, trapped: bool) {
    && (forall at :: Escaped(at) in d.log <==> Escaped(at) in c.log || escape == Some(at))
    && (d.trapped <==> c.trapped || trapped)
    && (escape.Some? || trapped ==> d.readOps == c.readOps)
  }

  lemma PacketEndsWith(c: Conn, packet: Packet, env: Env)
    ensures EndsWith(c, HandlePacket(c, packet, env), PacketEscape(c, packet, env),
                     c.clientId.None? && (packet.Disconnect? || packet.Dispatchable?))
  {
    hide React, RequestClose, Cancelled, CancelledKeepAlive;
    match packet {
      case Connect(id, secs, authenticated) =>
        RequestCloseSameEnd(c, ProtocolViolation, env.reactions);
        var c1 := c.(connectWaits := Cancelled(c.connectWaits), clientId := Some(id));
        var c2 := if secs > 0 then ArmKeepAlive(c1.(keepAlive := Some(secs))) else c1;
        ReactSameEnd(Logged(c2, ConnectDispatched(id)), env.reactions);
      case PingReq =>
      case Disconnect =>
        if c.clientId.Some? {
          ReactSameEnd(Logged(c, DisconnectDispatched(c.clientId.value, ClientDisconnect)), env.reactions);
        }
      case Dispatchable =>
        if c.clientId.Some? {
          ReactSameEnd(Logged(c, PacketDispatched(c.clientId.value)), env.reactions);
        }
    }
  }

  lemma OtherEndsWith(c: Conn, s: Step)
    requires Enabled(c, s) && !s.RunRead?
    ensures EndsWith(c, Next(c, s), None, false)
  {
    hide RequestClose, CancelledKeepAlive, Cancelled;
    match s {
      case RunWrite(i, env) =>
        var d := c.(writeOps := Without(c.writeOps, i));
        RequestCloseSameEnd(d, NetworkOrServerFailure, env.reactions);
        if c.writeOps[i].next.CloseFor? {
          RequestCloseSameEnd(d, c.writeOps[i].next.reason, env.reactions);
        }
      case RunConnectWait(i, env) =>
        RequestCloseSameEnd(c.(connectWaits := Without(c.connectWaits, i)), ProtocolViolation, env.reactions);
      case RunKeepAlive(i, env) =>
        var d := c.(keepAliveWaits := Without(c.keepAliveWaits, i));
        if c.keepAliveWaits[i].KaFired? {
          var e := KeepAliveExpired(c.keepAliveWaits[i].armedAt, c.keepAliveWaits[i].firedAt, d.frames);
          LoggedSameEnd(d, e);
          RequestCloseSameEnd(Logged(d, e), KeepAliveTimeoutExpired, env.reactions);
        }
      case _ =>
    }
  }

  /**
   * A handler is cut short exactly on these completions: an exception leaves it for a packet type only servers send
   * and for a CONNECT whose peer address cannot be had; it reads a client id that is not there for any dispatched
   * packet or DISCONNECT that arrives before a CONNECT was accepted.
   */
  lemma CutShortIff(c: Conn, s: Step)
    requires Enabled(c, s) && !HasEscaped(c.log)
    ensures forall at :: Escaped(at) in Next(c, s).log <==> EscapeOf(c, s) == Some(at)
    ensures Next(c, s).trapped <==> ReadsMissingId(c, s)
  {
    hide RequestClose, HandlePacket, CancelledKeepAlive, Cancelled;
    forall at
      ensures Escaped(at) !in c.log
    {
      assert at.InDecoder? || at.InAuthentication? || at.InAcceptance?;
    }
    if s.RunRead? {
      var d := Counted(c.(readOps := Without(c.readOps, s.i)));
      RequestCloseSameEnd(d, NetworkOrServerFailure, s.env.reactions);
      RequestCloseSameEnd(d, ProtocolViolation, s.env.reactions);
      if c.readOps[s.i].result.ReadOk? && c.readOps[s.i].result.frame.Decoded? {
        PacketEndsWith(d, c.readOps[s.i].result.frame.packet, s.env);
      }
    } else {
      OtherEndsWith(c, s);
    }
  }

  lemma {:induction false} EscapesStay(c: Conn, steps: seq<Step>)
    requires ValidRun(c, steps)
    ensures HasEscaped(c.log) ==> HasEscaped(After(c, steps).log)
    decreases |steps|
  {
    RunGrows(c, steps);
    hide After;
  }

  /**
   * Once an exception has left a handler, or a missing client id ended one, nothing is ever read again, however the
   * run goes on: not even while the socket stays open.
   */
  lemma DeafForGood(steps: seq<Step>, more: seq<Step>)
    requires ValidRun(Start(Fresh), steps) && ValidRun(After(Start(Fresh), steps), more)
    requires After(Start(Fresh), steps).trapped || HasEscaped(After(Start(Fresh), steps).log)
    ensures After(After(Start(Fresh), steps), more).readOps == []
  {
    var c := After(Start(Fresh), steps);
    if c.trapped {
      TrappedIsLast(c, more);
    } else {
      EscapesStay(c, more);
    }
    RunsAppend(Start(Fresh), steps, more);
    EveryReachableState(steps);
    EveryReachableState(steps + more);
  }

  lemma TrappedIsLast(c: Conn, steps: seq<Step>)
    requires c.trapped && ValidRun(c, steps)
    ensures After(c, steps) == c
  {}

  // ---- Expiries that come too late to be recalled --------------------------------------------------------------

  function CountReads(steps: seq<Step>): nat {
    if steps == [] then 0 else (if steps[0].RunRead? then 1 else 0) + CountReads(steps[1..])
  }

  lemma {:induction false} ReactFrames(c: Conn, reactions: seq<Reaction>)
    ensures React(c, reactions).frames == c.frames
    decreases |reactions|
  {
    if reactions != [] {
      ReactFrames(c, reactions[..|reactions| - 1]);
    }
  }

  lemma RequestCloseFrames(c: Conn, reason: Reason, reactions: seq<Reaction>)
    ensures RequestClose(c, reason, reactions).frames == c.frames
  {
    hide React;
    if c.clientId.Some? {
      ReactFrames(Logged(Logged(c, CloseRequested(reason)), Notice(c.clientId.value, reason)), reactions);
    }
  }

  lemma PacketFrames(c: Conn, packet: Packet, env: Env)
    ensures HandlePacket(c, packet, env).frames == c.frames
  {
    hide React, RequestClose, Cancelled, CancelledKeepAlive;
    match packet {
      case Connect(id, secs, authenticated) =>
        RequestCloseFrames(c, ProtocolViolation, env.reactions);
        var c1 := c.(connectWaits := Cancelled(c.connectWaits), clientId := Some(id));
        var c2 := if secs > 0 then ArmKeepAlive(c1.(keepAlive := Some(secs))) else c1;
        ReactFrames(Logged(c2, ConnectDispatched(id)), env.reactions);
      case PingReq =>
      case Disconnect =>
        if c.clientId.Some? {
          ReactFrames(Logged(c, DisconnectDispatched(c.clientId.value, ClientDisconnect)), env.reactions);
        }
      case Dispatchable =>
        if c.clientId.Some? {
          ReactFrames(Logged(c, PacketDispatched(c.clientId.value)), env.reactions);
        }
    }
  }

  lemma NextFrames(c: Conn, s: Step)
    requires Enabled(c, s)
    ensures Next(c, s).frames == c.frames + (if s.RunRead? then 1 else 0)
  {
    hide RequestClose, HandlePacket, CancelledKeepAlive, Cancelled;
    match s {
      case RunRead(i, env) =>
        var d := Counted(c.(readOps := Without(c.readOps, i)));
        RequestCloseFrames(d, NetworkOrServerFailure, env.reactions);
        RequestCloseFrames(d, ProtocolViolation, env.reactions);
        if c.readOps[i].result.ReadOk? && c.readOps[i].result.frame.Decoded? {
          PacketFrames(d, c.readOps[i].result.frame.packet, env);
        }
      case RunWrite(i, env) =>
        var d := c.(writeOps := Without(c.writeOps, i));
        RequestCloseFrames(d, NetworkOrServerFailure, env.reactions);
        if c.writeOps[i].next.CloseFor? {
          RequestCloseFrames(d, c.writeOps[i].next.reason, env.reactions);
        }
      case RunConnectWait(i, env) =>
        RequestCloseFrames(c.(connectWaits := Without(c.connectWaits, i)), ProtocolViolation, env.reactions);
      case RunKeepAlive(i, env) =>
        var d := c.(keepAliveWaits := Without(c.keepAliveWaits, i));
        if c.keepAliveWaits[i].KaFired? {
          var e := KeepAliveExpired(c.keepAliveWaits[i].armedAt, c.keepAliveWaits[i].firedAt, d.frames);
          RequestCloseFrames(Logged(d, e), KeepAliveTimeoutExpired, env.reactions);
        }
      case _ =>
    }
  }

  /** `frames` counts the read handlers that have run. */
  lemma {:induction false} FramesCountReads(c: Conn, steps: seq<Step>)
    requires ValidRun(c, steps)
    ensures After(c, steps).frames == c.frames + CountReads(steps)
    decreases |steps|
  {
    hide Next, Enabled;
    if steps != [] {
      NextFrames(c, steps[0]);
      FramesCountReads(Next(c, steps[0]), steps[1..]);
    }
  }

  /**
   * In every run, the handler of an expired keep-alive wait closes the connection, and the client has been silent
   * since the wait was armed if and only if no read handler ran while the expiry was queued.
   */
  lemma KeepAliveStaleness(steps: seq<Step>, i: nat, env: Env)
    requires ValidRun(Start(Fresh), steps) && Enabled(After(Start(Fresh), steps), RunKeepAlive(i, env))
    requires After(Start(Fresh), steps).keepAliveWaits[i].KaFired?
    ensures var c := After(Start(Fresh), steps);
            var k, d := c.keepAliveWaits[i], Next(c, RunKeepAlive(i, env));
            && (c.frames == k.armedAt <==> c.frames == k.firedAt) && k.armedAt == k.firedAt <= c.frames
            && !d.open && c.log + [KeepAliveExpired(k.armedAt, k.firedAt, c.frames)] <= d.log
  {
    InvAtStart();
    InvInEveryRun(Start(Fresh), steps);
    var c := After(Start(Fresh), steps);
    hide ValidRun, After, LogOk;
    var k := c.keepAliveWaits[i];
    assert k in c.keepAliveWaits;
    NextDiffers(c, RunKeepAlive(i, env));
    var d := c.(keepAliveWaits := Without(c.keepAliveWaits, i));
    var e := KeepAliveExpired(k.armedAt, k.firedAt, c.frames);
    RequestCloseGrows(Logged(d, e), KeepAliveTimeoutExpired, env.reactions);
    hide RequestClose;
  }

  lemma {:induction false} ReactDeadline(c: Conn, reactions: seq<Reaction>)
    ensures var d := React(c, reactions);
            && |d.connectWaits| == |c.connectWaits|
            && forall i :: 0 <= i < |c.connectWaits| ==> (d.connectWaits[i] == Fired <==> c.connectWaits[i] == Fired)
    decreases |reactions|
  {
    if reactions != [] {
      ReactDeadline(c, reactions[..|reactions| - 1]);
    }
  }

  /**
   * In every run, a connection whose CONNECT is accepted is still closed by its connect deadline if and only if the
   * deadline had expired before the CONNECT was handled.
   */
  lemma DeadlineStaleness(steps: seq<Step>, i: nat, env: Env, later: Env)
    requires ValidRun(Start(Fresh), steps) && Enabled(After(Start(Fresh), steps), RunRead(i, env))
    requires var c := After(Start(Fresh), steps); c.clientId.None? && Next(c, RunRead(i, env)).clientId.Some?
    ensures var c := After(Start(Fresh), steps);
            var d := Next(c, RunRead(i, env));
            && (d.connectWaits == [Fired] <==> c.connectWaits == [Fired])
            && (d.connectWaits == [Fired] || Fired !in d.connectWaits)
            && (d.connectWaits == [Fired] ==>
                  Enabled(d, RunConnectWait(0, later)) && !Next(d, RunConnectWait(0, later)).open)
  {
    hide ValidRun, After, Next, LogOk, WritesOk, Armed, Introduced, ReadsOk;
    var c := After(Start(Fresh), steps);
    var d := Next(c, RunRead(i, env));
    InvAtStart();
    InvInEveryRun(Start(Fresh), steps);
    AcceptedDeadline(c, i, env);
    if d.connectWaits == [Fired] {
      NextDiffers(d, RunConnectWait(0, later));
    }
  }

  lemma AcceptedDeadline(c: Conn, i: nat, env: Env)
    requires Inv(c) && Enabled(c, RunRead(i, env)) && c.clientId.None? && Next(c, RunRead(i, env)).clientId.Some?
    ensures var d := Next(c, RunRead(i, env));
            && |d.connectWaits| == |c.connectWaits| <= 1 && !d.trapped
            && forall k :: 0 <= k < |c.connectWaits| ==> (d.connectWaits[k] == Fired <==> c.connectWaits[k] == Fired)
  {
    hide LogOk, Introduced;
    var c1 := Counted(c.(readOps := Without(c.readOps, i)));
    RequestCloseGrows(c1, NetworkOrServerFailure, env.reactions);
    NoIdentityFromClosing(c1, ProtocolViolation, env.reactions);
    NoIdentityFromClosing(c1, NetworkOrServerFailure, env.reactions);
    hide RequestClose, CancelledKeepAlive, React;
    var result := c.readOps[i].result;
    assert result.ReadOk? && result.frame.Decoded? && result.frame.packet.Connect?;
    var Connect(id, secs, authenticated) := result.frame.packet;
    var a1 := c1.(connectWaits := Cancelled(c1.connectWaits), clientId := Some(id));
    var a2 := if secs > 0 then ArmKeepAlive(a1.(keepAlive := Some(secs))) else a1;
    ReactDeadline(Logged(a2, ConnectDispatched(id)), env.reactions);
    ReactSameEnd(Logged(a2, ConnectDispatched(id)), env.reactions);
  }

  lemma NoIdentityFromClosing(c: Conn, reason: Reason, reactions: seq<Reaction>)
    requires c.clientId.None?
    ensures RequestClose(c, reason, reactions).clientId.None?
  {}

  // ---- Runs that show what is not promised -----------------------------------------------------------------------

  const Calm: Env := Env(true, true, [])

  lemma {:induction false} RunsAppend(c: Conn, a: seq<Step>, b: seq<Step>)
    requires ValidRun(c, a) && ValidRun(After(c, a), b)
    ensures ValidRun(c, a + b) && After(c, a + b) == After(After(c, a), b)
    decreases |a|
  {
    if a == [] {
      assert a + b == b;
    } else {
      RunsAppend(Next(c, a[0]), a[1..], b);
      assert (a + b)[1..] == a[1..] + b;
    }
  }

  // One more step: the run that led to `c` also leads to `Next(c, s)`.
  lemma OneMore(steps: seq<Step>, c: Conn, s: Step) returns (more: seq<Step>)
    requires ValidRun(Start(Fresh), steps) && After(Start(Fresh), steps) == c && Enabled(c, s)
    ensures more == steps + [s] && ValidRun(Start(Fresh), more) && After(Start(Fresh), more) == Next(c, s)
  {
    more := steps + [s];
    hide Next, Enabled;
    assert ValidRun(Next(c, s), []) && [s][1..] == [];
    RunsAppend(Start(Fresh), steps, [s]);
  }

  // A started connection whose client has sent `frame`: the state, and the run that leads there.
  lemma OneFrame(frame: Frame) returns (steps: seq<Step>, c: Conn)
    ensures ValidRun(Start(Fresh), steps) && After(Start(Fresh), steps) == c
    ensures c == Fresh.(readOps := [ReadDone(ReadOk(frame))], connectWaits := [Waiting])
  {
    c := Start(Fresh);
    assert c == Fresh.(readOps := [Reading], connectWaits := [Waiting]);
    steps := OneMore([], c, FinishRead(0, ReadOk(frame)));
    c := Next(c, FinishRead(0, ReadOk(frame)));
  }

  // A connection after its client's CONNECT was accepted.
  function Accepted(keepAliveSecs: nat): Conn {
    Conn(true, Some("a"), if keepAliveSecs > 0 then Some(keepAliveSecs) else None,
         [Reading], [Write(ConnackAccepted, LogOnly, None)], [Aborted],
         if keepAliveSecs > 0 then [KaWaiting(1)] else [], 1, false,
         [ConnectDispatched("a"), WriteStarted(ConnackAccepted)])
  }

  lemma AcceptingRun(keepAliveSecs: nat) returns (steps: seq<Step>)
    ensures ValidRun(Start(Fresh), steps) && After(Start(Fresh), steps) == Accepted(keepAliveSecs)
  {
    var c;
    steps, c := OneFrame(Decoded(Connect("a", keepAliveSecs, true)));
    hide ValidRun, After;
    assert Without(c.readOps, 0) == [] && CancelledKeepAlive([]) == [] && Cancelled([Waiting]) == [Aborted];
    assert Next(c, RunRead(0, Calm)) == Accepted(keepAliveSecs);
    steps := OneMore(steps, c, RunRead(0, Calm));
  }

  /** "An open connection is always being read" fails: a SUBACK from the client leaves the socket open and unread. */
  lemma DeafWitness() returns (steps: seq<Step>)
    ensures ValidRun(Start(Fresh), steps)
    ensures var c := After(Start(Fresh), steps); c.open && c.readOps == [] && Escaped(InDecoder) in c.log
  {
    var c;
    steps, c := OneFrame(Unsupported);
    steps := OneMore(steps, c, RunRead(0, Calm));
    hide ValidRun, After;
    assert Without(c.readOps, 0) == [];
    assert Next(c, RunRead(0, Calm)).log == [Escaped(InDecoder)];
  }

  /** A DISCONNECT before any CONNECT reads the client id that is not there. */
  lemma MissingIdWitness() returns (steps: seq<Step>)
    ensures ValidRun(Start(Fresh), steps) && After(Start(Fresh), steps).trapped
  {
    var c;
    steps, c := OneFrame(Decoded(Disconnect));
    steps := OneMore(steps, c, RunRead(0, Calm));
  }

  /** "One disconnect notice per connection" fails: a failed read and then the failed CONNACK each send one. */
  lemma TwoNoticesWitness() returns (steps: seq<Step>)
    ensures ValidRun(Start(Fresh), steps) && CountNotices(After(Start(Fresh), steps).log) == 2
  {
    steps := AcceptingRun(0);
    hide ValidRun, After, CountNotices, CountCloseRequests;
    var c := Accepted(0);
    NoNoticesYet(0);
    steps := OneMore(steps, c, FinishRead(0, ReadFailed));
    var c1 := Next(c, FinishRead(0, ReadFailed));
    NextDiffers(c, FinishRead(0, ReadFailed));
    steps := OneMore(steps, c1, RunRead(0, Calm));
    var c2 := Next(c1, RunRead(0, Calm));
    NextDiffers(c1, RunRead(0, Calm));
    assert c2.writeOps == c.writeOps && c2.clientId == Some("a") && !c2.trapped;
    steps := OneMore(steps, c2, FinishWrite(0, false));
    var c3 := Next(c2, FinishWrite(0, false));
    NextDiffers(c2, FinishWrite(0, false));
    steps := OneMore(steps, c3, RunWrite(0, Calm));
    NextDiffers(c3, RunWrite(0, Calm));
  }

  lemma NoNoticesYet(keepAliveSecs: nat)
    ensures CountNotices(Accepted(keepAliveSecs).log) == 0
  {
    var log := Accepted(keepAliveSecs).log;
    assert log[..1] == [ConnectDispatched("a")] && log[..1][..0] == [];
  }

  /**
   * "Only a silent client is closed for its keep-alive" fails: the wait expires, then a PINGREQ is handled, which
   * can no longer cancel it, and then the expiry is handled and closes the connection.
   */
  lemma StaleKeepAliveWitness() returns (steps: seq<Step>)
    ensures ValidRun(Start(Fresh), steps)
    ensures var c := After(Start(Fresh), steps); !c.open && KeepAliveExpired(1, 1, 2) in c.log
  {
    var before, c := PingAfterExpiry();
    hide ValidRun, After, HandleKeepAlive, CancelledKeepAlive;
    steps := OneMore(before, c, RunKeepAlive(0, Calm));
    KeepAliveStaleness(before, 0, Calm);
    var e := KeepAliveExpired(1, 1, 2);
    assert (c.log + [e])[|c.log|] == e;
  }

  // The keep-alive has expired, and a PINGREQ has been handled before the expiry is.
  lemma PingAfterExpiry() returns (steps: seq<Step>, c: Conn)
    ensures ValidRun(Start(Fresh), steps) && After(Start(Fresh), steps) == c
    ensures c.keepAliveWaits == [KaFired(1, 1)] && c.frames == 2 && !c.trapped && c.open
  {
    steps := AcceptingRun(10);
    hide ValidRun, After;
    c := Accepted(10);
    steps := OneMore(steps, c, FireKeepAlive(0));
    c := Next(c, FireKeepAlive(0));
    steps := OneMore(steps, c, FinishRead(0, ReadOk(Decoded(PingReq))));
    c := Next(c, FinishRead(0, ReadOk(Decoded(PingReq))));
    assert c.keepAliveWaits == [KaFired(1, 1)] && CancelledKeepAlive([KaFired(1, 1)]) == [KaFired(1, 1)];
    steps := OneMore(steps, c, RunRead(0, Calm));
    c := Next(c, RunRead(0, Calm));
  }

  /** An accepted and acknowledged client is closed by the connect deadline that had expired before its CONNECT. */
  lemma StaleDeadlineWitness() returns (steps: seq<Step>)
    ensures ValidRun(Start(Fresh), steps)
    ensures var c := After(Start(Fresh), steps);
            && !c.open
            && c.log == [ConnectDispatched("a"), WriteStarted(ConnackAccepted), CloseRequested(ProtocolViolation),
                         UngracefulDisconnect("a", ProtocolViolation), Stopped]
  {
    var c;
    steps, c := ExpiredRun();
    hide ValidRun, After;
    steps := OneMore(steps, c, RunRead(0, Calm));
    ExpiredWaitsStay(c.readOps);
    c := Next(c, RunRead(0, Calm));
    assert c.log == [ConnectDispatched("a"), WriteStarted(ConnackAccepted)] && c.connectWaits == [Fired];
    steps := OneMore(steps, c, RunConnectWait(0, Calm));
    hide Cancelled, CancelledKeepAlive;
  }

  /**
   * "The dispatcher hears of a client before it hears of its end" fails: the peer address is gone when a CONNECT is
   * accepted, the exception leaves the client id set, and the connect deadline sends a notice in its name.
   */
  lemma UnknownClientWitness() returns (steps: seq<Step>)
    ensures ValidRun(Start(Fresh), steps)
    ensures After(Start(Fresh), steps).log == [Escaped(InAcceptance), CloseRequested(ProtocolViolation),
                                               UngracefulDisconnect("a", ProtocolViolation), Stopped]
  {
    var c;
    steps, c := ExpiredRun();
    hide ValidRun, After;
    var gone := Env(true, false, []);
    steps := OneMore(steps, c, RunRead(0, gone));
    ExpiredWaitsStay(c.readOps);
    c := Next(c, RunRead(0, gone));
    assert c.log == [Escaped(InAcceptance)] && c.connectWaits == [Fired];
    steps := OneMore(steps, c, RunConnectWait(0, Calm));
    hide Cancelled, CancelledKeepAlive;
  }

  // The connect deadline has expired, and a CONNECT is waiting to be handled.
  lemma ExpiredRun() returns (steps: seq<Step>, c: Conn)
    ensures ValidRun(Start(Fresh), steps) && After(Start(Fresh), steps) == c
    ensures c == Fresh.(readOps := [ReadDone(ReadOk(Decoded(Connect("a", 0, true))))], connectWaits := [Fired])
  {
    steps, c := OneFrame(Decoded(Connect("a", 0, true)));
    hide ValidRun, After;
    steps := OneMore(steps, c, FireConnectWait(0));
    c := Next(c, FireConnectWait(0));
  }

  lemma ExpiredWaitsStay(readOps: seq<Read>)
    requires |readOps| == 1
    ensures Cancelled([Fired]) == [Fired] && CancelledKeepAlive([]) == [] && Without(readOps, 0) == []
  {}

  // ---- Notices over a run ------------------------------------------------------------------------------------------

  // How many steps of a run send a disconnect notice: the close requests and the DISCONNECTs of a connection that
  // has a client id.
  function NoticingSteps(c: Conn, steps: seq<Step>): nat
    requires ValidRun(c, steps)
    decreases |steps|
  {
    if steps == [] then 0
    else
      (if (RequestsClose(c, steps[0]) && c.clientId.Some?) || IsClientDisconnect(c, steps[0]) then 1 else 0)
      + NoticingSteps(Next(c, steps[0]), steps[1..])
  }

  /** Over any run there is one notice per such step, no more and no fewer. */
  lemma {:induction false} NoticesOfRun(c: Conn, steps: seq<Step>)
    requires ValidRun(c, steps)
    ensures CountNotices(After(c, steps).log) == CountNotices(c.log) + NoticingSteps(c, steps)
    decreases |steps|
  {
    hide Next, Enabled, CountNotices, RequestsClose, IsClientDisconnect, CountCloseRequests, Outstanding;
    if steps != [] {
      NextDiffers(c, steps[0]);
      NoticesOfRun(Next(c, steps[0]), steps[1..]);
    }
  }
}
