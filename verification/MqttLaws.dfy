/** What holds in every run of one MQTT connection. */
module MqttLaws {
  import opened Wrappers
  import opened MqttSpec

  // ---- The log is always in order -----------------------------------------------------------------------------

  function CountConnects(log: seq<Event>): nat {
    if log == [] then 0
    else CountConnects(log[..|log| - 1]) + (if log[|log| - 1].ConnectDispatched? then 1 else 0)
  }

  function CountAccepted(log: seq<Event>): nat {
    if log == [] then 0
    else CountAccepted(log[..|log| - 1]) + (if log[|log| - 1] == WriteStarted(ConnackAccepted) then 1 else 0)
  }

  // Reasons that end a session without its last will.
  predicate IsGraceful(reason: Reason) {
    match reason
    case ClientDisconnect | AuthenticationFailed | NotADisconnect => true
    case ProtocolViolation | KeepAliveTimeoutExpired | NetworkOrServerFailure => false
  }

  predicate HasEscaped(log: seq<Event>) {
    Escaped(InDecoder) in log || Escaped(InAuthentication) in log || Escaped(InAcceptance) in log
  }

  // The dispatcher has been told of the client, unless an exception cut the acceptance short.
  predicate Introduced(log: seq<Event>) {
    CountConnects(log) == 1 <==> Escaped(InAcceptance) !in log
  }

  // The next event may follow a log, on a connection whose client id is then `clientId`.
  predicate MayFollow(log: seq<Event>, clientId: Option<string>, e: Event) {
    match e
    case ConnectDispatched(id) => 
      clientId == Some(id) && CountConnects(log) == 0 && Stopped !in log && Escaped(InAcceptance) !in log
    case PacketDispatched(id) => clientId == Some(id) && CountConnects(log) == 1
    case DisconnectDispatched(id, reason) =>
      clientId == Some(id) && IsGraceful(reason) && Introduced(log)
      && (reason.ClientDisconnect? ==> CountConnects(log) == 1)
    case UngracefulDisconnect(id, reason) => clientId == Some(id) && !IsGraceful(reason) && Introduced(log)
    case WriteStarted(what) =>
      Stopped !in log && (what == ConnackAccepted ==> CountConnects(log) == 1 && CountAccepted(log) == 0)
    case KeepAliveExpired(armedAt, firedAt, frames) => armedAt == firedAt <= frames
    case Escaped(at) => at.InAcceptance? ==> clientId.Some? && CountConnects(log) == 0
    case CloseRequested(reason) =>
      reason == KeepAliveTimeoutExpired ==> log != [] && log[|log| - 1].KeepAliveExpired?
    case _ => true
  }

  // Every event was allowed when it was logged; no identity but `clientId` was ever used.
  predicate InOrder(log: seq<Event>, clientId: Option<string>) {
    log == [] || (InOrder(log[..|log| - 1], clientId) && MayFollow(log[..|log| - 1], clientId, log[|log| - 1]))
  }

  // ---- The invariant ----------------------------------------------------------------------------------------------

  // At most one wait on each timer; no wait is still running on a closed connection, and the connect deadline does
  // not run on once a client id is known.
  ghost predicate TimersOk(c: Conn) {
    && |c.connectWaits| <= 1
    && (!c.open || c.clientId.Some? ==> Waiting !in c.connectWaits)
    && |c.keepAliveWaits| <= 1
    && (c.keepAlive.None? ==> c.keepAliveWaits == [])
    && (c.keepAlive.Some? ==> c.clientId.Some?)
    && (forall k :: k in c.keepAliveWaits ==> KeepAliveWaitOk(c, k))
  }

  // While open: the connect deadline is outstanding until a CONNECT is accepted, and from then on, if the client
  // asked for it, exactly one keep-alive wait is.
  ghost predicate Armed(c: Conn) {
    && (c.open && c.clientId.None? ==> c.connectWaits == [Waiting] || c.connectWaits == [Fired])
    && (c.open && c.keepAlive.Some? ==> |c.keepAliveWaits| == 1)
  }

  ghost predicate KeepAliveWaitOk(c: Conn, k: KeepAlive) {
    match k
    case KaWaiting(armedAt) => c.open && armedAt == c.frames
    case KaFired(armedAt, firedAt) => armedAt == firedAt <= c.frames
    case KaAborted => true
  }

  ghost predicate LogOk(c: Conn) {
    && InOrder(c.log, c.clientId)
    && (Stopped in c.log <==> !c.open)
    && (CountConnects(c.log) > 0 ==> c.clientId.Some?)
    && (CountAccepted(c.log) <= CountConnects(c.log) <= 1)
  }

  // One read is outstanding, unless the socket is closed; once an exception or a missing client id ended a handler,
  // none is.
  ghost predicate ReadsOk(c: Conn) {
    && |c.readOps| <= 1
    && (c.open && !c.trapped && !HasEscaped(c.log) ==> |c.readOps| == 1)
    && (c.trapped || HasEscaped(c.log) ==> c.readOps == [])
    && (c.open ==> ReadDone(ReadAborted) !in c.readOps)
  }

  // A refusal, and nothing else, closes the connection once it is written.
  ghost predicate WritesOk(c: Conn) {
    forall w :: w in c.writeOps ==> ClosesAfter(w.what, w.next)
  }

  predicate ClosesAfter(what: Outgoing, next: AfterWrite) {
    next == if what == ConnackRefused then CloseFor(AuthenticationFailed) else LogOnly
  }

  // What every piece of a handler keeps.
  ghost predicate Shape(c: Conn) {
    TimersOk(c) && LogOk(c) && WritesOk(c)
  }

  // What the middle of a handler keeps as well, outside an acceptance.
  ghost predicate Core(c: Conn) {
    Shape(c) && (c.clientId.Some? ==> Introduced(c.log))
  }

  ghost predicate Inv(c: Conn) {
    Core(c) && Armed(c) && ReadsOk(c)
  }

  // ---- The pieces keep the core ----------------------------------------------------------------------------------

  lemma LogExtends(log: seq<Event>, clientId: Option<string>, e: Event)
    ensures InOrder(log + [e], clientId) <==> InOrder(log, clientId) && MayFollow(log, clientId, e)
    ensures CountConnects(log + [e]) == CountConnects(log) + (if e.ConnectDispatched? then 1 else 0)
    ensures CountAccepted(log + [e]) == CountAccepted(log) + (if e == WriteStarted(ConnackAccepted) then 1 else 0)
  {
    assert (log + [e])[..|log|] == log;
  }

  lemma LoggedKeepsShape(c: Conn, e: Event)
    requires Shape(c) && MayFollow(c.log, c.clientId, e) && e != Stopped
    ensures Shape(Logged(c, e))
  {
    LogExtends(c.log, c.clientId, e);
    hide InOrder, CountConnects, CountAccepted;
  }

  lemma LoggedKeepsCore(c: Conn, e: Event)
    requires Core(c) && MayFollow(c.log, c.clientId, e) && e != Stopped
    ensures Core(Logged(c, e))
  {
    hide Shape, InOrder, CountConnects, CountAccepted;
    LoggedKeepsShape(c, e);
    LogExtends(c.log, c.clientId, e);
    assert Escaped(InAcceptance) in c.log + [e] <==> Escaped(InAcceptance) in c.log || e == Escaped(InAcceptance);
  }

  // An escape is remembered.
  lemma EscapeLogged(c: Conn, at: EscapePoint)
    ensures HasEscaped(Logged(c, Escaped(at)).log)
  {
    assert Escaped(at) in c.log + [Escaped(at)];
  }

  // Cancelling turns running waits into aborted ones, and nothing else.
  lemma CancellingAborts(ws: seq<Wait>, ks: seq<KeepAlive>)
    ensures Waiting !in Cancelled(ws)
    ensures forall k :: k in CancelledKeepAlive(ks) ==> !k.KaWaiting? && (k in ks || k == KaAborted)
    ensures ks == [] ==> CancelledKeepAlive(ks) == []
  {}

  lemma DoStopKeepsCore(c: Conn)
    requires Core(c)
    ensures Core(DoStop(c)) && Armed(DoStop(c)) && !DoStop(c).open
  {
    LogExtends(c.log, c.clientId, Stopped);
    CancellingAborts(c.connectWaits, c.keepAliveWaits);
    hide InOrder, CountConnects, CountAccepted, Cancelled, CancelledKeepAlive;
    assert Stopped in c.log + [Stopped];
  }

  lemma StartWriteKeepsCore(c: Conn, what: Outgoing, next: AfterWrite)
    requires Core(c) && ClosesAfter(what, next)
    requires what == ConnackAccepted ==> CountConnects(c.log) == 1 && CountAccepted(c.log) == 0
    ensures Core(StartWrite(c, what, next))
  {
    hide InOrder, CountConnects, CountAccepted;
    if c.open {
      LoggedKeepsCore(c, WriteStarted(what));
    }
  }

  // What writing, reacting and stopping leave alone.
  ghost predicate Reacted(c: Conn, d: Conn) {
    && d.clientId == c.clientId && d.keepAlive == c.keepAlive && d.readOps == c.readOps && d.trapped == c.trapped
    && d.frames == c.frames
    && (d.open ==> c.open && d.connectWaits == c.connectWaits && d.keepAliveWaits == c.keepAliveWaits)
    && CountConnects(d.log) == CountConnects(c.log) && CountAccepted(d.log) == CountAccepted(c.log)
    && (HasEscaped(d.log) <==> HasEscaped(c.log))
  }

  // Every event but those that matter to the counts and to the reads.
  predicate IsPlainEvent(e: Event) {
    !e.ConnectDispatched? && e != WriteStarted(ConnackAccepted) && !e.Escaped?
  }

  lemma LoggedReacts(c: Conn, e: Event)
    requires IsPlainEvent(e)
    ensures Reacted(c, Logged(c, e))
  {
    LogExtends(c.log, c.clientId, e);
  }

  lemma StartWriteReacts(c: Conn)
    ensures Reacted(c, StartWrite(c, FromDispatcher, LogOnly))
  {
    LoggedReacts(c, WriteStarted(FromDispatcher));
    hide CountConnects, CountAccepted;
  }

  lemma DoStopReacts(c: Conn)
    ensures Reacted(c, DoStop(c)) && !DoStop(c).open
  {
    LoggedReacts(c, Stopped);
    hide CountConnects, CountAccepted, Cancelled, CancelledKeepAlive;
  }

  lemma {:induction false} ReactKeepsCore(c: Conn, reactions: seq<Reaction>)
    requires Core(c)
    ensures Core(React(c, reactions)) && Reacted(c, React(c, reactions))
    decreases |reactions|
  {
    if reactions != [] {
      var before := React(c, reactions[..|reactions| - 1]);
      ReactKeepsCore(c, reactions[..|reactions| - 1]);
      StartWriteKeepsCore(before, FromDispatcher, LogOnly);
      StartWriteReacts(before);
      DoStopKeepsCore(before);
      DoStopReacts(before);
      ReactedChains(c, before, React(c, reactions));
      hide Core, Reacted;
    }
  }

  lemma ReactedChains(c: Conn, d: Conn, e: Conn)
    requires Reacted(c, d) && Reacted(d, e)
    ensures Reacted(c, e)
  {}

  lemma NoticeMayFollow(c: Conn, reason: Reason)
    requires c.clientId.Some? && Introduced(c.log) && !reason.ClientDisconnect?
    ensures MayFollow(c.log, c.clientId, Notice(c.clientId.value, reason))
    ensures var e := Notice(c.clientId.value, reason); IsPlainEvent(e) && e != Stopped
  {}

  lemma RequestCloseKeepsInv(c: Conn, reason: Reason, reactions: seq<Reaction>)
    requires Core(c) && MayFollow(c.log, c.clientId, CloseRequested(reason)) && !reason.ClientDisconnect?
    ensures var d := RequestClose(c, reason, reactions);
            Core(d) && Armed(d) && Reacted(c, d) && !d.open
  {
    var c1 := Logged(c, CloseRequested(reason));
    LoggedKeepsCore(c, CloseRequested(reason));
    LoggedReacts(c, CloseRequested(reason));
    var c3 := c1;
    if c.clientId.Some? {
      assert Introduced(c1.log) by { hide Shape, CountConnects; }
      NoticeMayFollow(c1, reason);
      var e := Notice(c.clientId.value, reason);
      LoggedKeepsCore(c1, e);
      LoggedReacts(c1, e);
      ReactKeepsCore(Logged(c1, e), reactions);
      c3 := React(Logged(c1, e), reactions);
      ReactedChains(c1, Logged(c1, e), c3);
      ReactedChains(c, c1, c3);
    }
    DoStopKeepsCore(c3);
    DoStopReacts(c3);
    ReactedChains(c, c3, DoStop(c3));
    hide Core, Reacted, Armed;
  }

  // ---- The handlers keep the invariant -----------------------------------------------------------------------------

  // Ready for a handler: the completed operation is gone; the rest of the invariant stands.
  ghost predicate AfterRead(c: Conn) {
    Core(c) && Armed(c) && c.readOps == [] && !c.trapped && !HasEscaped(c.log) && KaWaitingFree(c)
  }

  ghost predicate KaWaitingFree(c: Conn) {
    forall k :: k in c.keepAliveWaits ==> !k.KaWaiting?
  }

  lemma StartReadKeepsInv(c: Conn)
    requires Core(c) && Armed(c) && c.readOps == [] && !c.trapped && !HasEscaped(c.log)
    ensures Inv(StartRead(c))
  {
    hide InOrder, CountConnects, CountAccepted;
  }

  lemma ReactedKeepsArmed(c: Conn, d: Conn)
    requires Reacted(c, d) && Armed(c)
    ensures Armed(d)
  {}

  lemma WriteThenReadKeepsInv(c: Conn, what: Outgoing, next: AfterWrite)
    requires AfterRead(c) && what != ConnackAccepted && ClosesAfter(what, next)
    ensures Inv(StartRead(StartWrite(c, what, next)))
  {
    hide InOrder, CountConnects, CountAccepted, Introduced;
    StartWriteKeepsCore(c, what, next);
    LoggedReacts(c, WriteStarted(what));
    StartReadKeepsInv(StartWrite(c, what, next));
  }

  lemma DispatchThenReadKeepsInv(c: Conn, e: Event, reactions: seq<Reaction>)
    requires AfterRead(c) && MayFollow(c.log, c.clientId, e)
    requires IsPlainEvent(e) && e != Stopped
    ensures Inv(StartRead(React(Logged(c, e), reactions)))
    ensures Inv(DoStop(React(Logged(c, e), reactions)))
  {
    hide InOrder, CountConnects, CountAccepted, Introduced, HasEscaped, Shape;
    LoggedKeepsCore(c, e);
    LoggedReacts(c, e);
    var d := React(Logged(c, e), reactions);
    ReactKeepsCore(Logged(c, e), reactions);
    assert Armed(Logged(c, e));
    ReactedKeepsArmed(Logged(c, e), d);
    StartReadKeepsInv(d);
    DoStopKeepsCore(d);
    DoStopReacts(d);
  }

  // Arming the keep-alive timer, for the first time or again.
  lemma ArmKeepAliveKeepsShape(c: Conn, secs: nat)
    requires Shape(c) && c.keepAliveWaits == [] && c.open && c.clientId.Some?
    ensures var d := ArmKeepAlive(c.(keepAlive := Some(secs)));
            && Shape(d) && d.keepAliveWaits == [KaWaiting(c.frames)]
            && d == c.(keepAlive := Some(secs), keepAliveWaits := d.keepAliveWaits)
  {
    hide InOrder, CountConnects, CountAccepted;
    assert CancelledKeepAlive(c.keepAliveWaits) == [];
  }

  // The first thing a read handler does: count the frame completion and cancel the keep-alive wait.
  lemma CountingFrameKeepsInv(c: Conn, i: nat)
    requires Inv(c) && !c.trapped && i < |c.readOps|
    ensures var d := Counted(c.(readOps := Without(c.readOps, i))); AfterRead(d) && d.open == c.open
  {
    CancellingAborts(c.connectWaits, c.keepAliveWaits);
    hide InOrder, CountConnects, CountAccepted, CancelledKeepAlive;
  }

  lemma AcceptKeepsInv(c: Conn, id: string, keepAliveSecs: nat, env: Env)
    requires AfterRead(c) && c.open && c.clientId.None?
    ensures Inv(Accept(c, id, keepAliveSecs, env))
    ensures Accept(c, id, keepAliveSecs, env).clientId == Some(id)
  {
    NoIdentityUsed(c.log, Some(id));
    CancellingAborts(c.connectWaits, c.keepAliveWaits);
    hide InOrder, CountConnects, CountAccepted, Cancelled, CancelledKeepAlive;
    var c1 := c.(connectWaits := Cancelled(c.connectWaits), clientId := Some(id));
    assert Shape(c1);
    if !env.endpointSecond {
      CutShortKeepsInv(c1);
    } else {
      var c2 := if keepAliveSecs > 0 then ArmKeepAlive(c1.(keepAlive := Some(keepAliveSecs))) else c1;
      if keepAliveSecs > 0 {
        ArmKeepAliveKeepsShape(c1, keepAliveSecs);
      }
      assert Shape(c2) && Armed(c2);
      hide Shape, Armed;
      ConnectedKeepsInv(c2, id, env.reactions);
    }
  }

  // An acceptance that an exception cuts short.
  lemma CutShortKeepsInv(c: Conn)
    requires Shape(c) && Armed(c) && c.readOps == [] && c.clientId.Some? && CountConnects(c.log) == 0
    ensures Inv(Logged(c, Escaped(InAcceptance)))
  {
    hide Shape, InOrder, CountConnects, CountAccepted;
    LoggedKeepsShape(c, Escaped(InAcceptance));
    LogExtends(c.log, c.clientId, Escaped(InAcceptance));
    EscapeLogged(c, InAcceptance);
    assert Escaped(InAcceptance) in c.log + [Escaped(InAcceptance)];
  }

  // The rest of an acceptance: the CONNECT is dispatched, acknowledged, and the next read begins.
  lemma ConnectedKeepsInv(c: Conn, id: string, reactions: seq<Reaction>)
    requires Shape(c) && Armed(c) && c.readOps == [] && !c.trapped && !HasEscaped(c.log)
    requires c.open && c.clientId == Some(id) && CountConnects(c.log) == 0 == CountAccepted(c.log)
    ensures Inv(StartRead(StartWrite(React(Logged(c, ConnectDispatched(id)), reactions), ConnackAccepted, LogOnly)))
    ensures React(Logged(c, ConnectDispatched(id)), reactions).clientId == Some(id)
  {
    var c1 := Logged(c, ConnectDispatched(id));
    DispatchedKeepsCore(c, id);
    hide Core, Shape, InOrder, CountConnects, CountAccepted, HasEscaped;
    ReactKeepsCore(c1, reactions);
    var c2 := React(c1, reactions);
    ReactedKeepsArmed(c1, c2);
    StartWriteKeepsCore(c2, ConnackAccepted, LogOnly);
    ConnackEscapes(c2);
    StartReadKeepsInv(StartWrite(c2, ConnackAccepted, LogOnly));
  }

  lemma DispatchedKeepsCore(c: Conn, id: string)
    requires Shape(c) && c.open && c.clientId == Some(id) && CountConnects(c.log) == 0 && !HasEscaped(c.log)
    ensures var d := Logged(c, ConnectDispatched(id));
            && Core(d) && CountConnects(d.log) == 1 && CountAccepted(d.log) == CountAccepted(c.log)
            && !HasEscaped(d.log)
  {
    assert Stopped !in c.log;
    hide Shape, InOrder, CountConnects, CountAccepted;
    LoggedKeepsShape(c, ConnectDispatched(id));
    LogExtends(c.log, c.clientId, ConnectDispatched(id));
  }

  lemma ConnackEscapes(c: Conn)
    ensures HasEscaped(StartWrite(c, ConnackAccepted, LogOnly).log) <==> HasEscaped(c.log)
  {}

  // Before a client id is known, no event names one.
  lemma {:induction false} NoIdentityUsed(log: seq<Event>, clientId: Option<string>)
    requires InOrder(log, None)
    ensures InOrder(log, clientId)
    decreases |log|
  {
    if log != [] {
      NoIdentityUsed(log[..|log| - 1], clientId);
    }
  }

  lemma EndingKeepsInv(c: Conn)
    requires AfterRead(c)
    ensures Inv(Logged(c, Escaped(InDecoder))) && Inv(Logged(c, Escaped(InAuthentication)))
    ensures (!c.open ==> Inv(c)) && Core(c) && c.readOps == []
    ensures MayFollow(c.log, c.clientId, CloseRequested(NetworkOrServerFailure))
    ensures MayFollow(c.log, c.clientId, CloseRequested(ProtocolViolation))
  {
    hide InOrder, CountConnects, CountAccepted, Shape;
    LoggedKeepsCore(c, Escaped(InDecoder));
    LoggedKeepsCore(c, Escaped(InAuthentication));
    EscapeLogged(c, InDecoder);
    EscapeLogged(c, InAuthentication);
  }

  lemma HandlePacketKeepsInv(c: Conn, packet: Packet, env: Env)
    requires AfterRead(c)
    ensures Inv(HandlePacket(c, packet, env))
  {
    hide InOrder, CountConnects, CountAccepted;
    match packet {
      case Connect(id, keepAliveSecs, authenticated) =>
        if c.clientId.Some? {
          RequestCloseKeepsInv(c, ProtocolViolation, env.reactions);
          StartReadKeepsInv(RequestClose(c, ProtocolViolation, env.reactions));
        } else if !c.open || !env.endpointFirst {
          EndingKeepsInv(c);
        } else if !authenticated {
          WriteThenReadKeepsInv(c, ConnackRefused, CloseFor(AuthenticationFailed));
        } else {
          AcceptKeepsInv(c, id, keepAliveSecs, env);
        }
      case PingReq =>
        WriteThenReadKeepsInv(c, PingResp, LogOnly);
      case Disconnect =>
        if c.clientId.Some? {
          DispatchThenReadKeepsInv(c, DisconnectDispatched(c.clientId.value, ClientDisconnect), env.reactions);
        }
      case Dispatchable =>
        if c.clientId.Some? {
          DispatchThenReadKeepsInv(c, PacketDispatched(c.clientId.value), env.reactions);
        }
    }
  }

  lemma ClosingKeepsInv(c: Conn, reason: Reason, reactions: seq<Reaction>)
    requires Core(c) && |c.readOps| <= 1 && MayFollow(c.log, c.clientId, CloseRequested(reason))
    requires !reason.ClientDisconnect? && (c.trapped || HasEscaped(c.log) ==> c.readOps == [])
    ensures Inv(RequestClose(c, reason, reactions))
  {
    RequestCloseKeepsInv(c, reason, reactions);
    hide Core, Armed;
  }

  lemma HandleResultKeepsInv(c: Conn, result: ReadResult, env: Env)
    requires AfterRead(c) && (result.ReadAborted? ==> !c.open)
    ensures Inv(HandleResult(c, result, env))
  {
    hide AfterRead, Inv, Core, MayFollow, RequestClose, HandlePacket, Logged;
    EndingKeepsInv(c);
    match result {
      case ReadAborted =>
      case ReadFailed => ClosingKeepsInv(c, NetworkOrServerFailure, env.reactions);
      case ReadOk(Malformed) => ClosingKeepsInv(c, ProtocolViolation, env.reactions);
      case ReadOk(Unsupported) =>
      case ReadOk(Decoded(packet)) => HandlePacketKeepsInv(c, packet, env);
    }
  }

  lemma RunReadKeepsInv(c: Conn, i: nat, env: Env)
    requires Inv(c) && Enabled(c, RunRead(i, env))
    ensures Inv(Next(c, RunRead(i, env)))
  {
    CountingFrameKeepsInv(c, i);
    assert c.readOps[i] in c.readOps;
    hide HandleResult, Counted, Core, Armed, AfterRead;
    HandleResultKeepsInv(Counted(c.(readOps := Without(c.readOps, i))), c.readOps[i].result, env);
  }

  lemma RunTimerKeepsInv(c: Conn, s: Step)
    requires Inv(c) && Enabled(c, s) && (s.RunConnectWait? || s.RunKeepAlive?)
    ensures Inv(Next(c, s))
  {
    hide InOrder, CountConnects, CountAccepted, RequestClose;
    match s {
      case RunConnectWait(i, env) =>
        var d := c.(connectWaits := Without(c.connectWaits, i));
        ClosingKeepsInv(d, ProtocolViolation, env.reactions);
      case RunKeepAlive(i, env) =>
        assert c.keepAliveWaits[i] in c.keepAliveWaits;
        var d := c.(keepAliveWaits := Without(c.keepAliveWaits, i));
        match c.keepAliveWaits[i] {
          case KaFired(armedAt, firedAt) =>
            var e := KeepAliveExpired(armedAt, firedAt, d.frames);
            LoggedKeepsCore(d, e);
            LoggedReacts(d, e);
            assert Logged(d, e).log != [];
            ClosingKeepsInv(Logged(d, e), KeepAliveTimeoutExpired, env.reactions);
          case KaAborted =>
            if d.open {
              ArmKeepAliveKeepsShape(d, d.keepAlive.value);
              assert d.(keepAlive := Some(d.keepAlive.value)) == d;
            }
        }
    }
  }

  lemma RunWriteKeepsInv(c: Conn, i: nat, env: Env)
    requires Inv(c) && Enabled(c, RunWrite(i, env))
    ensures Inv(Next(c, RunWrite(i, env)))
  {
    hide InOrder, CountConnects, CountAccepted, RequestClose;
    var d := c.(writeOps := Without(c.writeOps, i));
    ClosingKeepsInv(d, NetworkOrServerFailure, env.reactions);
    assert c.writeOps[i] in c.writeOps;
    if c.writeOps[i].next.CloseFor? {
      ClosingKeepsInv(d, c.writeOps[i].next.reason, env.reactions);
    }
  }

  lemma EnvironmentKeepsInv(c: Conn, s: Step)
    requires Inv(c) && Enabled(c, s) && !IsRun(s)
    ensures Inv(Next(c, s))
  {
    hide InOrder, CountConnects, CountAccepted, Cancelled, CancelledKeepAlive;
    match s {
      case FinishRead(i, result) =>
      case FinishWrite(i, ok) => assert c.writeOps[i] in c.writeOps;
      case FireConnectWait(i) => assert c.connectWaits[i] in c.connectWaits;
      case FireKeepAlive(i) => assert c.keepAliveWaits[i] in c.keepAliveWaits;
      case Send =>
        StartWriteKeepsCore(c, FromDispatcher, LogOnly);
        StartWriteReacts(c);
      case Stop =>
        DoStopKeepsCore(c);
        DoStopReacts(c);
    }
  }

  lemma NextKeepsInv(c: Conn, s: Step)
    requires Inv(c) && Enabled(c, s)
    ensures Inv(Next(c, s))
  {
    hide Inv, Next, Enabled;
    match s {
      case RunRead(i, env) => RunReadKeepsInv(c, i, env);
      case RunWrite(i, env) => RunWriteKeepsInv(c, i, env);
      case RunConnectWait(_, _) => RunTimerKeepsInv(c, s);
      case RunKeepAlive(_, _) => RunTimerKeepsInv(c, s);
      case _ => EnvironmentKeepsInv(c, s);
    }
  }

  lemma InvAtStart()
    ensures Inv(Start(Fresh))
  {}

  /** The invariant holds in every state of every run of a started connection. */
  lemma {:induction false} InvInEveryRun(c: Conn, steps: seq<Step>)
    requires Inv(c) && ValidRun(c, steps)
    ensures Inv(After(c, steps))
    decreases |steps|
  {
    hide Inv;
    if steps != [] {
      NextKeepsInv(c, steps[0]);
      InvInEveryRun(Next(c, steps[0]), steps[1..]);
    }
  }
}
