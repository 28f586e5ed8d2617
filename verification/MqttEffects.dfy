/** What a step tells the outside: why a connection closes, what is answered, and what becomes of every write. */
module MqttEffects {
  import opened Wrappers
  import opened MqttSpec
  import opened MqttLaws
  import opened MqttTheorems

  // ---- Why a connection closes -----------------------------------------------------------------------------------

  // The reason a completion calls for, by its kind alone.
  function ReasonOf(c: Conn, s: Step): Reason
    requires Enabled(c, s) && RequestsClose(c, s)
  {
    match s
    case RunRead(i, _) => if c.readOps[i].result == ReadFailed then NetworkOrServerFailure else ProtocolViolation
    case RunWrite(i, _) =>
      if c.writeOps[i].next.CloseFor? then c.writeOps[i].next.reason else NetworkOrServerFailure
    case RunConnectWait(_, _) => ProtocolViolation
    case _ => KeepAliveTimeoutExpired
  }

  // What the dispatcher is told: the client's own id, the same reason, and whether the end is graceful.
  function NoticeOf(clientId: Option<string>, reason: Reason): seq<Event> {
    match clientId
    case None => []
    case Some(id) =>
      [if IsGraceful(reason) then DisconnectDispatched(id, reason) else UngracefulDisconnect(id, reason)]
  }

  // The log after a close for `reason`: the request, the notice, what the dispatcher does meanwhile, and the stop.
  ghost predicate ClosedFor(log: seq<Event>, clientId: Option<string>, d: Conn, reason: Reason) {
    && log + [CloseRequested(reason)] + NoticeOf(clientId, reason) <= d.log
    && d.log[|d.log| - 1] == Stopped && !d.open
  }

  lemma RequestCloseIsFor(c: Conn, reason: Reason, reactions: seq<Reaction>)
    ensures ClosedFor(c.log, c.clientId, RequestClose(c, reason, reactions), reason)
  {
    var c1 := Logged(c, CloseRequested(reason));
    if c.clientId.Some? {
      ReactGrows(Logged(c1, Notice(c.clientId.value, reason)), reactions);
      assert NoticeOf(c.clientId, reason) == [Notice(c.clientId.value, reason)];
    }
    hide React, Cancelled, CancelledKeepAlive;
  }

  /**
   * A step that closes the connection does so for the reason its completion calls for, and tells the dispatcher the
   * same under the client's id, if there is one; an expired keep-alive is logged first.
   */
  lemma ClosesForReason(c: Conn, s: Step)
    requires Enabled(c, s) && RequestsClose(c, s)
    ensures var before := if s.RunKeepAlive? then
                            var k := c.keepAliveWaits[s.i];
                            c.log + [KeepAliveExpired(k.armedAt, k.firedAt, c.frames)]
                          else c.log;
            ClosedFor(before, c.clientId, Next(c, s), ReasonOf(c, s))
  {
    hide RequestClose, CancelledKeepAlive, ClosedFor;
    match s {
      case RunRead(i, env) =>
        RequestCloseIsFor(Counted(c.(readOps := Without(c.readOps, i))), ReasonOf(c, s), env.reactions);
        StartReadStaysClosed(Counted(c.(readOps := Without(c.readOps, i))), env.reactions);
      case RunWrite(i, env) =>
        RequestCloseIsFor(c.(writeOps := Without(c.writeOps, i)), ReasonOf(c, s), env.reactions);
      case RunConnectWait(i, env) =>
        RequestCloseIsFor(c.(connectWaits := Without(c.connectWaits, i)), ReasonOf(c, s), env.reactions);
      case RunKeepAlive(i, env) =>
        var d := c.(keepAliveWaits := Without(c.keepAliveWaits, i));
        var k := c.keepAliveWaits[i];
        RequestCloseIsFor(Logged(d, KeepAliveExpired(k.armedAt, k.firedAt, c.frames)), ReasonOf(c, s), env.reactions);
    }
  }

  lemma StartReadStaysClosed(c: Conn, reactions: seq<Reaction>)
    ensures StartRead(RequestClose(c, ProtocolViolation, reactions)) == RequestClose(c, ProtocolViolation, reactions)
  {
    RequestCloseIsFor(c, ProtocolViolation, reactions);
  }

  // ---- What is answered ---------------------------------------------------------------------------------------------

  /**
   * A PINGREQ is answered by a PINGRESP, a refused CONNECT by a refusal that closes once it is written, and an accepted
   * one by the accepting CONNACK unless the dispatcher closed the connection first. The keep-alive interval is the
   * client's, if it asked for one.
   */
  lemma AnswersAreWritten(c: Conn, i: nat, env: Env)
    requires Enabled(c, RunRead(i, env)) && c.open && EscapeOf(c, RunRead(i, env)).None?
    requires c.readOps[i].result.ReadOk? && c.readOps[i].result.frame.Decoded?
    ensures var packet, d := c.readOps[i].result.frame.packet, Next(c, RunRead(i, env));
            && (packet.PingReq? ==> d.writeOps == c.writeOps + [Write(PingResp, LogOnly, None)])
            && (packet.Connect? && c.clientId.None? ==>
                  if !packet.authenticated then
                    d.writeOps == c.writeOps + [Write(ConnackRefused, CloseFor(AuthenticationFailed), None)]
                  else
                    && d.keepAlive == (if packet.keepAliveSecs > 0 then Some(packet.keepAliveSecs) else c.keepAlive)
                    && (d.open ==>
                          && |d.writeOps| > 0 && d.writeOps[|d.writeOps| - 1] == Write(ConnackAccepted, LogOnly, None)
                          && d.log[|d.log| - 1] == WriteStarted(ConnackAccepted)))
  {
    var d := Counted(c.(readOps := Without(c.readOps, i)));
    hide Cancelled, CancelledKeepAlive, React, RequestClose;
    var packet := c.readOps[i].result.frame.packet;
    if packet.Connect? {
      var a1 := d.(connectWaits := Cancelled(d.connectWaits), clientId := Some(packet.clientId));
      var a2 := if packet.keepAliveSecs > 0 then ArmKeepAlive(a1.(keepAlive := Some(packet.keepAliveSecs))) else a1;
      ReactGrows(Logged(a2, ConnectDispatched(packet.clientId)), env.reactions);
    }
  }

  // ---- What becomes of every write ---------------------------------------------------------------------------------

  function CountStarted(log: seq<Event>, what: Outgoing): nat {
    if log == [] then 0
    else CountStarted(log[..|log| - 1], what) + (if log[|log| - 1] == WriteStarted(what) then 1 else 0)
  }

  function CountPending(ops: seq<Write>, what: Outgoing): nat {
    if ops == [] then 0
    else CountPending(ops[..|ops| - 1], what) + (if ops[|ops| - 1].what == what then 1 else 0)
  }

  lemma {:induction false} CountPendingParts(a: seq<Write>, b: seq<Write>, what: Outgoing)
    ensures CountPending(a + b, what) == CountPending(a, what) + CountPending(b, what)
    decreases |b|
  {
    if b == [] {
      assert a + b == a;
    } else {
      CountPendingParts(a, b[..|b| - 1], what);
      assert (a + b)[..|a + b| - 1] == a + b[..|b| - 1];
    }
  }

  lemma CountPendingAt(ops: seq<Write>, i: nat, what: Outgoing)
    requires i < |ops|
    ensures CountPending(ops, what) == CountPending(Without(ops, i), what) + (if ops[i].what == what then 1 else 0)
  {
    assert ops == ops[..i] + [ops[i]] + ops[i + 1..];
    CountPendingParts(ops[..i] + [ops[i]], ops[i + 1..], what);
    CountPendingParts(ops[..i], [ops[i]], what);
    CountPendingParts(ops[..i], ops[i + 1..], what);
    assert [ops[i]][..0] == [];
  }

  // How many writes of this kind have been started and handled.
  function Handled(c: Conn, what: Outgoing): int {
    CountStarted(c.log, what) - CountPending(c.writeOps, what)
  }

  lemma LoggedHandles(c: Conn, e: Event, what: Outgoing)
    requires !e.WriteStarted?
    ensures Handled(Logged(c, e), what) == Handled(c, what)
  {
    assert (c.log + [e])[..|c.log|] == c.log;
  }

  lemma StartWriteHandles(c: Conn, w: Outgoing, next: AfterWrite, what: Outgoing)
    ensures Handled(StartWrite(c, w, next), what) == Handled(c, what)
  {
    assert (c.log + [WriteStarted(w)])[..|c.log|] == c.log;
    assert (c.writeOps + [Write(w, next, None)])[..|c.writeOps|] == c.writeOps;
  }

  lemma {:induction false} ReactHandles(c: Conn, reactions: seq<Reaction>, what: Outgoing)
    ensures Handled(React(c, reactions), what) == Handled(c, what)
    decreases |reactions|
  {
    if reactions != [] {
      var before := React(c, reactions[..|reactions| - 1]);
      ReactHandles(c, reactions[..|reactions| - 1], what);
      StartWriteHandles(before, FromDispatcher, LogOnly, what);
      LoggedHandles(before, Stopped, what);
      hide CountStarted, CountPending, StartWrite, Cancelled, CancelledKeepAlive;
    }
  }

  lemma RequestCloseHandles(c: Conn, reason: Reason, reactions: seq<Reaction>, what: Outgoing)
    ensures Handled(RequestClose(c, reason, reactions), what) == Handled(c, what)
  {
    hide CountStarted, CountPending, React, Cancelled, CancelledKeepAlive;
    var c1 := Logged(c, CloseRequested(reason));
    LoggedHandles(c, CloseRequested(reason), what);
    LoggedHandles(c1, Stopped, what);
    if c.clientId.Some? {
      var e := Notice(c.clientId.value, reason);
      LoggedHandles(c1, e, what);
      ReactHandles(Logged(c1, e), reactions, what);
      LoggedHandles(React(Logged(c1, e), reactions), Stopped, what);
    }
  }

  lemma ConnectHandles(c: Conn, packet: Packet, env: Env, what: Outgoing)
    requires packet.Connect?
    ensures Handled(HandlePacket(c, packet, env), what) == Handled(c, what)
  {
    hide CountStarted, CountPending, React, RequestClose, StartWrite, Cancelled, CancelledKeepAlive;
    RequestCloseHandles(c, ProtocolViolation, env.reactions, what);
    LoggedHandles(c, Escaped(InAuthentication), what);
    StartWriteHandles(c, ConnackRefused, CloseFor(AuthenticationFailed), what);
    var c1 := c.(connectWaits := Cancelled(c.connectWaits), clientId := Some(packet.clientId));
    LoggedHandles(c1, Escaped(InAcceptance), what);
    var c2 := if packet.keepAliveSecs > 0 then ArmKeepAlive(c1.(keepAlive := Some(packet.keepAliveSecs))) else c1;
    var c3 := Logged(c2, ConnectDispatched(packet.clientId));
    LoggedHandles(c2, ConnectDispatched(packet.clientId), what);
    ReactHandles(c3, env.reactions, what);
    StartWriteHandles(React(c3, env.reactions), ConnackAccepted, LogOnly, what);
  }

  lemma PacketHandles(c: Conn, packet: Packet, env: Env, what: Outgoing)
    ensures Handled(HandlePacket(c, packet, env), what) == Handled(c, what)
  {
    hide CountStarted, CountPending, React, RequestClose, StartWrite, Cancelled, CancelledKeepAlive;
    match packet {
      case Connect(_, _, _) => ConnectHandles(c, packet, env, what);
      case PingReq => StartWriteHandles(c, PingResp, LogOnly, what);
      case Disconnect =>
        if c.clientId.Some? {
          var e := DisconnectDispatched(c.clientId.value, ClientDisconnect);
          LoggedHandles(c, e, what);
          ReactHandles(Logged(c, e), env.reactions, what);
          LoggedHandles(React(Logged(c, e), env.reactions), Stopped, what);
        }
      case Dispatchable =>
        if c.clientId.Some? {
          LoggedHandles(c, PacketDispatched(c.clientId.value), what);
          ReactHandles(Logged(c, PacketDispatched(c.clientId.value)), env.reactions, what);
        }
    }
  }

  lemma RunHandles(c: Conn, s: Step, what: Outgoing)
    requires Enabled(c, s) && IsRun(s)
    ensures Handled(Next(c, s), what) ==
            Handled(c, what) + (if s.RunWrite? && c.writeOps[s.i].what == what then 1 else 0)
  {
    hide CountStarted, CountPending, RequestClose, HandlePacket, CancelledKeepAlive;
    match s {
      case RunRead(i, env) =>
        var d := Counted(c.(readOps := Without(c.readOps, i)));
        RequestCloseHandles(d, NetworkOrServerFailure, env.reactions, what);
        RequestCloseHandles(d, ProtocolViolation, env.reactions, what);
        LoggedHandles(d, Escaped(InDecoder), what);
        if c.readOps[i].result.ReadOk? && c.readOps[i].result.frame.Decoded? {
          PacketHandles(d, c.readOps[i].result.frame.packet, env, what);
        }
      case RunWrite(i, env) =>
        var d := c.(writeOps := Without(c.writeOps, i));
        CountPendingAt(c.writeOps, i, what);
        RequestCloseHandles(d, NetworkOrServerFailure, env.reactions, what);
        if c.writeOps[i].next.CloseFor? {
          RequestCloseHandles(d, c.writeOps[i].next.reason, env.reactions, what);
        }
      case RunConnectWait(i, env) =>
        RequestCloseHandles(c.(connectWaits := Without(c.connectWaits, i)), ProtocolViolation, env.reactions, what);
      case RunKeepAlive(i, env) =>
        var d := c.(keepAliveWaits := Without(c.keepAliveWaits, i));
        if c.keepAliveWaits[i].KaFired? {
          var e := KeepAliveExpired(c.keepAliveWaits[i].armedAt, c.keepAliveWaits[i].firedAt, d.frames);
          LoggedHandles(d, e, what);
          RequestCloseHandles(Logged(d, e), KeepAliveTimeoutExpired, env.reactions, what);
        }
    }
  }

  lemma EnvironmentHandles(c: Conn, s: Step, what: Outgoing)
    requires Enabled(c, s) && !IsRun(s)
    ensures Handled(Next(c, s), what) == Handled(c, what)
  {
    StartWriteHandles(c, FromDispatcher, LogOnly, what);
    LoggedHandles(c, Stopped, what);
    if s.FinishWrite? {
      var ops := c.writeOps[s.i := c.writeOps[s.i].(done := Some(s.ok))];
      CountPendingAt(c.writeOps, s.i, what);
      CountPendingAt(ops, s.i, what);
      assert Without(ops, s.i) == Without(c.writeOps, s.i);
    }
    hide CountStarted, CountPending, StartWrite, Cancelled, CancelledKeepAlive;
  }

  // How many handlers of writes of this kind a run runs.
  function WritesHandled(c: Conn, steps: seq<Step>, what: Outgoing): nat
    requires ValidRun(c, steps)
    decreases |steps|
  {
    if steps == [] then 0
    else
      (if steps[0].RunWrite? && c.writeOps[steps[0].i].what == what then 1 else 0)
      + WritesHandled(Next(c, steps[0]), steps[1..], what)
  }

  lemma {:induction false} RunHandlesWrites(c: Conn, steps: seq<Step>, what: Outgoing)
    requires ValidRun(c, steps)
    ensures Handled(After(c, steps), what) == Handled(c, what) + WritesHandled(c, steps, what)
    decreases |steps|
  {
    hide Next, Handled;
    if steps != [] {
      if IsRun(steps[0]) {
        RunHandles(c, steps[0], what);
      } else {
        EnvironmentHandles(c, steps[0], what);
      }
      RunHandlesWrites(Next(c, steps[0]), steps[1..], what);
    }
  }

  /** In every run no write is lost or made up: every one that was started is outstanding or its handler has run. */
  lemma WritesAreAccountedFor(steps: seq<Step>, what: Outgoing)
    requires ValidRun(Start(Fresh), steps)
    ensures var c := After(Start(Fresh), steps);
            CountStarted(c.log, what) == CountPending(c.writeOps, what) + WritesHandled(Start(Fresh), steps, what)
  {
    assert Handled(Start(Fresh), what) == 0;
    RunHandlesWrites(Start(Fresh), steps, what);
    hide ValidRun, After, WritesHandled;
  }

  /** What the dispatcher sends, at any time, is written while the socket is open and dropped once it is closed. */
  lemma SendsAreWritten(c: Conn)
    requires Enabled(c, Send)
    ensures Next(c, Send).writeOps == c.writeOps + (if c.open then [Write(FromDispatcher, LogOnly, None)] else [])
  {}

  /** A stop by the dispatcher during a call from a handler closes the connection; until then its sends are written. */
  lemma {:induction false} ReactionsHappen(c: Conn, reactions: seq<Reaction>)
    ensures React(c, reactions).open <==> c.open && StopConnection !in reactions
    ensures React(c, reactions).open ==> |React(c, reactions).writeOps| == |c.writeOps| + |reactions|
    decreases |reactions|
  {
    if reactions != [] {
      var n := |reactions| - 1;
      ReactionsHappen(c, reactions[..n]);
      assert reactions == reactions[..n] + [reactions[n]];
      hide Cancelled, CancelledKeepAlive;
    }
  }
}
