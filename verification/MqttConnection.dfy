/**
 * `mqtt_connection` and `mqtt_connection_manager`, method by method, each tied to the state machine of `MqttSpec`.
 *
 * A completion handler is the method the original registers; its outstanding operations are fields here. An
 * exception that leaves a method is its result `threw`. `stop`, called on the connection's strand, runs inline.
 */
module MqttConnection {
  import opened Wrappers
  import opened MqttSpec
  import MqttTheorems

  class MqttConnectionManager {
    var connections: set<MqttConnection>
    ghost var started: set<MqttConnection>

    // `connections` is exactly the set of started connections whose socket is open.
    ghost predicate Valid()
      reads this, started
    {
      && connections <= started
      && (forall c :: c in started ==> c.manager == this && (c in connections <==> c.socketOpen))
    }

    constructor ()
      ensures Valid() && started == {} && connections == {}
    {
      connections, started := {}, {};
    }

    method Start(connection: MqttConnection)
      requires Valid() && connection !in started && connection.manager == this && connection.State() == Fresh
      modifies this, connection
      ensures Valid() && started == old(started) + {connection} && connections == old(connections) + {connection}
      ensures connection.State() == MqttSpec.Start(Fresh)
    {
      connections := connections + {connection};
      started := started + {connection};
      connection.Start();
    }

    method Stop(connection: MqttConnection)
      modifies this`connections, connection
      ensures connections == old(connections) - {connection}
      ensures connection.State() == DoStop(old(connection.State())) && !connection.socketOpen
    {
      connections := connections - {connection};
      connection.DoStop();
    }

    /** Every started connection ends up closed, each through its own `do_stop`, and the set is empty. */
    method StopAll()
      requires Valid()
      modifies this`connections, started
      ensures Valid() && connections == {} && started == old(started)
      ensures forall c :: c in started ==> !c.socketOpen
      ensures forall c :: c in started ==>
        c.State() == if old(c.socketOpen) then DoStop(old(c.State())) else old(c.State())
    {
      hide MqttSpec.DoStop;
      var rest := connections;
      while rest != {}
        invariant rest <= connections == old(connections) && started == old(started)
        invariant forall c :: c in rest ==> c.State() == old(c.State())
        invariant forall c :: c in connections - rest ==> !c.socketOpen && c.State() == DoStop(old(c.State()))
        invariant forall c :: c in started && c !in connections ==> c.State() == old(c.State())
        invariant forall c :: c in started ==> c.manager == this
        decreases |rest|
      {
        var c :| c in rest;
        c.DoStop();
        rest := rest - {c};
      }
      connections := {};
    }
  }

  class MqttConnection {
    const manager: MqttConnectionManager
    var socketOpen: bool
    var clientId: Option<string>
    var keepAlive: Option<nat>
    var readOps: seq<Read>
    var writeOps: seq<Write>
    var connectWaits: seq<Wait>
    var keepAliveWaits: seq<KeepAlive>
    var frames: nat
    var trapped: bool
    ghost var log: seq<Event>

    ghost function State(): Conn
      reads this
    {
      Conn(socketOpen, clientId, keepAlive, readOps, writeOps, connectWaits, keepAliveWaits, frames, trapped, log)
    }

    // The manager keeps this connection exactly while it is open.
    ghost predicate Registered()
      reads this, manager
    {
      this in manager.connections <==> socketOpen
    }

    // The set `connections`, without this connection if that is closed.
    ghost function OpenOnly(connections: set<MqttConnection>): set<MqttConnection>
      reads this
    {
      if socketOpen then connections else connections - {this}
    }

    constructor (manager: MqttConnectionManager)
      ensures this.manager == manager && State() == Fresh
    {
      this.manager := manager;
      socketOpen, clientId, keepAlive := true, None, None;
      readOps, writeOps, connectWaits, keepAliveWaits := [], [], [], [];
      frames, trapped, log := 0, false, [];
    }

    // ---- Public ---------------------------------------------------------------------------------------------

    method Start()
      modifies this
      ensures State() == MqttSpec.Start(old(State()))
    {
      CloseOnConnectTimeout();
      ReadFrame();
    }

    method Send()
      modifies this
      ensures State() == StartWrite(old(State()), FromDispatcher, LogOnly)
    {
      WritePacket(FromDispatcher);
    }

    method Stop()
      modifies this, manager`connections
      ensures State() == MqttSpec.DoStop(old(State())) && manager.connections == old(manager.connections) - {this}
      ensures !socketOpen
    {
      manager.Stop(this);
    }

    // ---- Private --------------------------------------------------------------------------------------------

    method DoStop()
      modifies this
      ensures State() == MqttSpec.DoStop(old(State())) && !socketOpen
    {
      connectWaits := Cancelled(connectWaits);
      keepAliveWaits := CancelledKeepAlive(keepAliveWaits);
      socketOpen := false;
      log := log + [Stopped];
    }

    method CloseOnConnectTimeout()
      modifies this
      ensures State() == old(State()).(connectWaits := Cancelled(old(connectWaits)) + [Waiting])
    {
      connectWaits := Cancelled(connectWaits);
      connectWaits := connectWaits + [Waiting];
    }

    method ReadFrame()
      modifies this
      ensures State() == StartRead(old(State()))
    {
      if !socketOpen {
        return;
      }
      readOps := readOps + [Reading];
    }

    method OnFrameRead(result: ReadResult, env: Env)
      requires Registered()
      modifies this, manager`connections
      ensures State() == HandleRead(old(State()), result, env)
      ensures manager.connections == OpenOnly(old(manager.connections))
    {
      frames := frames + 1;
      keepAliveWaits := CancelledKeepAlive(keepAliveWaits);
      if !result.ReadOk? {
        OnReadFailed(result, env);
        return;
      }
      DecodePacket(result.frame, env);
    }

    method DecodePacket(frame: Frame, env: Env)
      requires Registered()
      modifies this, manager`connections
      ensures State() == match frame
                         case Malformed => RequestClose(old(State()), ProtocolViolation, env.reactions)
                         case Unsupported => Logged(old(State()), Escaped(InDecoder))
                         case Decoded(packet) => HandlePacket(old(State()), packet, env)
      ensures manager.connections == OpenOnly(old(manager.connections))
    {
      match frame {
        case Malformed =>    // the one exception that is caught
          ConnectionCloseRequested(ProtocolViolation, env);
        case Unsupported =>
          log := log + [Escaped(InDecoder)];
        case Decoded(packet) =>
          var threw := ProcessDecodedPacket(packet, env);
          if threw.Some? {
            log := log + [Escaped(threw.value)];
          }
      }
    }

    method OnReadFailed(ec: ReadResult, env: Env)
      requires Registered() && !ec.ReadOk?
      modifies this, manager`connections
      ensures State() == if ec.ReadAborted? then old(State())
                         else RequestClose(old(State()), NetworkOrServerFailure, env.reactions)
      ensures manager.connections == OpenOnly(old(manager.connections))
    {
      if !ec.ReadAborted? {
        ConnectionCloseRequested(NetworkOrServerFailure, env);
      }
    }

    method ProcessDecodedPacket(packet: Packet, env: Env) returns (threw: Option<EscapePoint>)
      requires Registered()
      modifies this, manager`connections
      ensures HandlePacket(old(State()), packet, env)
              == if threw.Some? then Logged(State(), Escaped(threw.value)) else State()
      ensures manager.connections == OpenOnly(old(manager.connections))
    {
      threw := None;
      match packet {
        case Connect(_, _, _) =>
          threw := ProcessConnectPacket(packet, env);
          if threw.Some? {
            return;
          }
          ReadFrame();
        case PingReq =>
          WritePacket(PingResp);
          ReadFrame();
        case Disconnect =>
          ProcessDisconnectPacket(env);
        case Dispatchable =>
          var hasId := clientId.Some?;
          DispatchPacket(env);
          if hasId {
            ReadFrame();
          }
      }
    }

    method ProcessConnectPacket(connect: Packet, env: Env) returns (threw: Option<EscapePoint>)
      requires Registered() && connect.Connect?
      modifies this, manager`connections
      ensures HandlePacket(old(State()), connect, env)
              == if threw.Some? then Logged(State(), Escaped(threw.value)) else StartRead(State())
      ensures manager.connections == OpenOnly(old(manager.connections))
    {
      threw := None;
      if clientId.Some? {
        ConnectionCloseRequested(ProtocolViolation, env);
      } else {
        // `socket_.remote_endpoint()`, for the authentication service
        if !socketOpen || !env.endpointFirst {
          return Some(InAuthentication);
        }
        if !connect.authenticated {
          WritePacketAndCloseConnection(ConnackRefused, AuthenticationFailed);
        } else {
          connectWaits := Cancelled(connectWaits);
          clientId := Some(connect.clientId);
          // `socket_.remote_endpoint()`, for the description
          if socketOpen && !env.endpointSecond {
            return Some(InAcceptance);
          }
          if connect.keepAliveSecs > 0 {
            keepAlive := Some(connect.keepAliveSecs);
            CloseOnKeepAliveTimeout();
          }
          DispatchConnectPacket(connect, env);
        }
      }
    }

    method DispatchConnectPacket(connect: Packet, env: Env)
      requires Registered() && connect.Connect?
      modifies this, manager`connections
      ensures State() ==
              StartWrite(React(Logged(old(State()), ConnectDispatched(connect.clientId)), env.reactions),
                         ConnackAccepted, LogOnly)
      ensures manager.connections == OpenOnly(old(manager.connections))
    {
      HandlePacketReceived(ConnectDispatched(connect.clientId), env.reactions);
      WritePacket(ConnackAccepted);
    }

    method ProcessDisconnectPacket(env: Env)
      requires Registered()
      modifies this, manager`connections
      ensures State() == HandlePacket(old(State()), Disconnect, env)
      ensures manager.connections == OpenOnly(old(manager.connections))
    {
      DispatchDisconnectPacket(ClientDisconnect, env);
    }

    // `*client_id_` is read unchecked. What follows a missing id is out of the model; `trapped` records it.
    method DispatchDisconnectPacket(reason: Reason, env: Env)
      requires Registered()
      modifies this, manager`connections
      ensures State() == if old(clientId).None? then old(State()).(trapped := true)
                         else
                           var e := DisconnectDispatched(old(clientId).value, reason);
                           MqttSpec.DoStop(React(Logged(old(State()), e), env.reactions))
      ensures Registered() && (old(clientId).Some? ==> !socketOpen)
      ensures manager.connections == OpenOnly(old(manager.connections))
    {
      if clientId.None? {
        trapped := true;
        return;
      }
      HandlePacketReceived(DisconnectDispatched(clientId.value, reason), env.reactions);
      Stop();
    }

    method DispatchPacket(env: Env)
      requires Registered()
      modifies this, manager`connections
      ensures State() == if old(clientId).None? then old(State()).(trapped := true)
                         else React(Logged(old(State()), PacketDispatched(old(clientId).value)), env.reactions)
      ensures manager.connections == OpenOnly(old(manager.connections))
    {
      if clientId.None? {
        trapped := true;
        return;
      }
      HandlePacketReceived(PacketDispatched(clientId.value), env.reactions);
    }

    // A call to the dispatcher, which may send on this connection or stop it before it returns.
    method HandlePacketReceived(e: Event, reactions: seq<Reaction>)
      requires Registered()
      modifies this, manager`connections
      ensures State() == React(Logged(old(State()), e), reactions) && Registered()
      ensures manager.connections == OpenOnly(old(manager.connections))
    {
      log := log + [e];
      ghost var logged := State();
      var i := 0;
      assert reactions[..0] == [];
      while i < |reactions|
        invariant i <= |reactions| && State() == React(logged, reactions[..i]) && Registered()
        invariant manager.connections == OpenOnly(old(manager.connections))
      {
        assert reactions[..i + 1][..i] == reactions[..i];
        if reactions[i] == SendPacket {
          Send();
        } else {
          Stop();
        }
        i := i + 1;
      }
      assert reactions[..i] == reactions;
    }

    method WritePacket(what: Outgoing)
      modifies this
      ensures State() == StartWrite(old(State()), what, LogOnly)
    {
      if !socketOpen {
        return;
      }
      writeOps := writeOps + [Write(what, LogOnly, None)];
      log := log + [WriteStarted(what)];
    }

    method WritePacketAndCloseConnection(what: Outgoing, reason: Reason)
      modifies this
      ensures State() == StartWrite(old(State()), what, CloseFor(reason))
    {
      if !socketOpen {
        return;
      }
      writeOps := writeOps + [Write(what, CloseFor(reason), None)];
      log := log + [WriteStarted(what)];
    }

    // The handler of `write_packet` and of `write_packet_and_close_connection`.
    method OnPacketWritten(next: AfterWrite, ok: bool, env: Env)
      requires Registered()
      modifies this, manager`connections
      ensures State() == HandleWrite(old(State()), next, ok, env)
      ensures manager.connections == OpenOnly(old(manager.connections))
    {
      match next {
        case LogOnly =>
          if !ok {
            ConnectionCloseRequested(NetworkOrServerFailure, env);
          }
        case CloseFor(reason) =>
          ConnectionCloseRequested(reason, env);
      }
    }

    // The handler of `close_on_connect_timeout`.
    method OnConnectTimeout(fired: bool, env: Env)
      requires Registered()
      modifies this, manager`connections
      ensures State() == HandleConnectWait(old(State()), fired, env)
      ensures manager.connections == OpenOnly(old(manager.connections))
    {
      if fired {
        ConnectionCloseRequested(ProtocolViolation, env);
      }
    }

    method CloseOnKeepAliveTimeout()
      modifies this
      ensures State() == ArmKeepAlive(old(State()))
    {
      if keepAlive.Some? {
        keepAliveWaits := CancelledKeepAlive(keepAliveWaits);
        keepAliveWaits := keepAliveWaits + [KaWaiting(frames)];
      }
    }

    method HandleKeepAliveTimeout(k: KeepAlive, env: Env)
      requires Registered() && !k.KaWaiting?
      modifies this, manager`connections
      ensures State() == HandleKeepAlive(old(State()), k, env)
      ensures manager.connections == OpenOnly(old(manager.connections))
    {
      if k.KaFired? {
        log := log + [KeepAliveExpired(k.armedAt, k.firedAt, frames)];
        ConnectionCloseRequested(KeepAliveTimeoutExpired, env);
      } else {
        if socketOpen {
          CloseOnKeepAliveTimeout();
        }
      }
    }

    method ConnectionCloseRequested(reason: Reason, env: Env)
      requires Registered()
      modifies this, manager`connections
      ensures State() == RequestClose(old(State()), reason, env.reactions) && Registered()
      ensures manager.connections == OpenOnly(old(manager.connections))
    {
      hide React, MqttSpec.DoStop;
      log := log + [CloseRequested(reason)];
      if clientId.Some? {
        match reason {
          case NetworkOrServerFailure | ProtocolViolation | KeepAliveTimeoutExpired =>
            HandlePacketReceived(UngracefulDisconnect(clientId.value, reason), env.reactions);
            Stop();
          case ClientDisconnect | AuthenticationFailed | NotADisconnect =>
            DispatchDisconnectPacket(reason, env);
        }
      } else {
        Stop();
      }
    }

    // ---- One step of the event loop -------------------------------------------------------------------------

    // The environment completes an operation or fires a timer: its handler is queued, nothing else changes.
    method Complete(s: Step)
      requires Enabled(State(), s) && !IsRun(s) && !s.Send? && !s.Stop?
      modifies this
      ensures State() == Next(old(State()), s) && socketOpen == old(socketOpen)
    {
      match s {
        case FinishRead(i, result) => readOps := readOps[i := ReadDone(result)];
        case FinishWrite(i, ok) => writeOps := writeOps[i := writeOps[i].(done := Some(ok))];
        case FireConnectWait(i) => connectWaits := connectWaits[i := Fired];
        case FireKeepAlive(i) => keepAliveWaits := keepAliveWaits[i := KaFired(keepAliveWaits[i].armedAt, frames)];
      }
    }

    // The event loop takes a queued completion and runs its handler.
    method RunHandler(s: Step)
      requires Registered() && Enabled(State(), s) && IsRun(s)
      modifies this, manager`connections
      ensures State() == Next(old(State()), s)
      ensures manager.connections == OpenOnly(old(manager.connections))
    {
      hide HandleRead, HandleWrite, HandleConnectWait, HandleKeepAlive;
      match s {
        case RunRead(i, env) =>
          var result := readOps[i].result;
          readOps := Without(readOps, i);
          OnFrameRead(result, env);
        case RunWrite(i, env) =>
          var w := writeOps[i];
          writeOps := Without(writeOps, i);
          OnPacketWritten(w.next, w.done.value, env);
        case RunConnectWait(i, env) =>
          var w := connectWaits[i];
          connectWaits := Without(connectWaits, i);
          OnConnectTimeout(w == Fired, env);
        case RunKeepAlive(i, env) =>
          var k := keepAliveWaits[i];
          keepAliveWaits := Without(keepAliveWaits, i);
          HandleKeepAliveTimeout(k, env);
      }
    }

    /**
     * Whatever the environment or the event loop does next, the connection makes the step of the specification and
     * the manager's set stays exactly the open connections.
     */
    method Step(s: Step)
      requires manager.Valid() && this in manager.started && Enabled(State(), s)
      modifies this, manager`connections
      ensures State() == Next(old(State()), s)
      ensures manager.Valid()
      ensures manager.connections == OpenOnly(old(manager.connections))
    {
      MqttTheorems.NextGrows(State(), s);
      if s.Send? {
        Send();
      } else if s.Stop? {
        Stop();
      } else if IsRun(s) {
        hide Next, Enabled;
        RunHandler(s);
      } else {
        hide Next, Enabled;
        Complete(s);
      }
    }
  }
}
