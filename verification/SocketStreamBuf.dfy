/**
 * The output side of `asio::basic_socket_streambuf`: a 512-byte put area flushed through short sends, or, once
 * `setbuf(0, 0)` has been accepted, no put area at all and one send per character.
 *
 * The network is a schedule: what becomes of each send from now on. A send moves between one byte and all of the
 * offered bytes to the wire, or fails and moves none, and the expiry timer may go off while it is under way. What
 * holds for every schedule holds for every network.
 */
module SocketStreamBuf {
  import opened Bytes
  import opened Wrappers

  const BUFFER_SIZE: nat := 512

  datatype ErrorCode = NoError | OperationAborted | NetworkError

  // ---- Schedules ------------------------------------------------------------------------------------------

  // What becomes of one send, and whether the expiry timer goes off meanwhile.
  datatype Outcome = Sent(count: nat, expires: bool) | Failed(aborted: bool, expires: bool)

  // How much of `offered` bytes a send moves: at least one, at most all.
  function Moved(count: nat, offered: nat): (n: nat)
    requires offered > 0
    ensures 1 <= n <= offered
  {
    if count == 0 then 1 else Min(count, offered)
  }

  // The first send moves something. With the timer expired there is none; past its end a schedule only fails.
  predicate FirstSendMoves(schedule: seq<Outcome>, expired: bool) {
    !expired && schedule != [] && schedule[0].Sent?
  }

  // A flush: how many bytes it sends, how many outcomes it uses up, and whether the timer has expired after it.
  datatype Flushed = Flushed(sent: nat, used: nat, expired: bool)

  // The flush of `len` bytes over a schedule. It succeeds exactly when it sends all of them.
  function Flush(len: nat, schedule: seq<Outcome>, expired: bool): (r: Flushed)
    ensures r.sent <= len && r.used <= |schedule|
    ensures r.sent == 0 <==> len == 0 || !FirstSendMoves(schedule, expired)
    decreases len
  {
    if len == 0 || expired || schedule == [] then Flushed(0, 0, expired)
    else
      match schedule[0]
      case Failed(_, expires) => Flushed(0, 1, expires)
      case Sent(count, expires) =>
        var n := Moved(count, len);
        var rest := Flush(len - n, schedule[1..], expires);
        Flushed(n + rest.sent, 1 + rest.used, rest.expired)
  }

  // One round of the loop.
  lemma FlushOnce(len: nat, schedule: seq<Outcome>, expired: bool)
    ensures var f := Flush(len, schedule, expired);
            if len == 0 || expired || schedule == [] then f == Flushed(0, 0, expired)
            else if schedule[0].Failed? then f == Flushed(0, 1, schedule[0].expires)
            else
              var n := Moved(schedule[0].count, len);
              var rest := Flush(len - n, schedule[1..], schedule[0].expires);
              f == Flushed(n + rest.sent, 1 + rest.used, rest.expired)
  {}

  // Taking `n` more elements from where a scan of `s` stands.
  lemma PartsOf<T>(s: seq<T>, at: nat)
    requires at <= |s|
    ensures forall n :: 0 <= n <= |s| - at ==> s[at..][n..] == s[at + n..] && s[..at] + s[at..][..n] == s[..at + n]
  {}

  // The wire after a flush of `data`: `overflow` appends to it what is sent and keeps the put area on failure.
  function Wired(wire: seq<byte>, data: seq<byte>, schedule: seq<Outcome>, expired: bool): seq<byte> {
    wire + data[..Flush(|data|, schedule, expired).sent]
  }

  /** No failing flush sends anything, whatever the network does, if and only if at most one byte is to be sent. */
  lemma FailingFlushSendsNothingIff(len: nat)
    ensures len <= 1 <==>
            forall schedule: seq<Outcome>, expired: bool ::
              Flush(len, schedule, expired).sent < len ==> Flush(len, schedule, expired).sent == 0
  {
    if len > 1 {
      var schedule := [Sent(1, false), Failed(false, false)];
      assert schedule[1..] == [Failed(false, false)];
      assert Flush(len - 1, schedule[1..], false).sent == 0;
      assert Flush(len, schedule, false).sent == 1;
    }
  }

  /** Every flush succeeds, whatever the network does, if and only if there is nothing to send. */
  lemma EveryFlushSucceedsIff(len: nat)
    ensures len == 0 <==>
            forall schedule: seq<Outcome>, expired: bool :: Flush(len, schedule, expired).sent == len
  {
    if len > 0 {
      var schedule: seq<Outcome> := [];
      assert Flush(len, schedule, false).sent != len;
    }
  }

  /**
   * A failed flush of `data` and then a successful one put the prefix sent by the first on the wire twice; the wire
   * is what one successful flush makes it if and only if the first send failed.
   */
  lemma RetryRepeatsPrefix(wire: seq<byte>, data: seq<byte>, schedule: seq<Outcome>, expired: bool,
                           later: seq<Outcome>, laterExpired: bool)
    requires Flush(|data|, schedule, expired).sent < |data| == Flush(|data|, later, laterExpired).sent
    ensures var k := Flush(|data|, schedule, expired).sent;
            var after := Wired(Wired(wire, data, schedule, expired), data, later, laterExpired);
            && after == wire + data[..k] + data
            && (after == wire + data <==> !FirstSendMoves(schedule, expired))
  {
    var k := Flush(|data|, schedule, expired).sent;
    hide Flush, FirstSendMoves;
    assert data[..|data|] == data;
    assert |wire + data[..k] + data| == |wire + data| + k;
    assert k == 0 ==> wire + data[..k] == wire;
  }

  // ---- The class ------------------------------------------------------------------------------------------

  class BasicSocketStreambuf {
    const putBuffer: array<byte>
    var pptr: nat
    var epptr: nat
    var unbuffered: bool
    var ec: ErrorCode
    var transferred: nat
    var timerHasExpired: bool
    var wire: seq<byte>             // everything the peer has been sent
    var network: seq<Outcome>       // what becomes of the sends from now on
    ghost var written: seq<byte>    // every character a caller was told is accepted

    ghost predicate Valid()
      reads this, putBuffer
    {
      && putBuffer.Length == BUFFER_SIZE
      && pptr <= epptr
      && epptr == (if unbuffered then 0 else BUFFER_SIZE)
    }

    ghost function Pending(): seq<byte>
      requires Valid()
      reads this, putBuffer
    {
      putBuffer[..pptr]
    }

    // Nothing lost, repeated or reordered so far.
    ghost predicate Faithful()
      requires Valid()
      reads this, putBuffer
    {
      wire + Pending() == written
    }

    // What `overflow` has to send before it succeeds: the put area, or the character itself when there is none.
    ghost function Due(c: Option<byte>): seq<byte>
      requires Valid()
      reads this, putBuffer
    {
      if unbuffered then Accepted(c) else Pending()
    }

    constructor (schedule: seq<Outcome>)
      ensures Valid() && Faithful() && fresh(putBuffer) && written == [] == wire && !unbuffered
      ensures network == schedule && !timerHasExpired && Pending() == [] && epptr == putBuffer.Length == 512
    {
      putBuffer := new byte[BUFFER_SIZE](_ => 0);
      pptr, epptr := 0, BUFFER_SIZE;
      unbuffered, ec, transferred, timerHasExpired := false, NoError, 0, false;
      wire, written, network := [], [], schedule;
    }

    // `async_send` run to completion.
    method Send(data: seq<byte>)
      requires Valid() && data != [] && !timerHasExpired
      modifies this`ec, this`transferred, this`wire, this`timerHasExpired, this`network
      ensures ec == NoError <==> old(network) != [] && old(network)[0].Sent?
      ensures ec == NoError ==> transferred == Moved(old(network[0].count), |data|)
      ensures ec == NoError ==> wire == old(wire) + data[..transferred]
      ensures ec != NoError ==> transferred == 0 && wire == old(wire)
      ensures network == (if old(network) == [] then [] else old(network)[1..])
      ensures timerHasExpired == (old(network) != [] && old(network[0].expires))
    {
      if network == [] {
        ec, transferred := NetworkError, 0;
        return;
      }
      match network[0] {
        case Sent(count, expires) =>
          ec, transferred := NoError, Moved(count, |data|);
          wire := wire + data[..transferred];
          timerHasExpired := expires;
        case Failed(aborted, expires) =>
          ec, transferred := if aborted then OperationAborted else NetworkError, 0;
          timerHasExpired := expires;
      }
      network := network[1..];
    }

    /**
     * Flushes the put area and then stores one character. What is due goes to the wire, in order, as far as the
     * network lets it; success is all of it. Failure leaves the put area as it was, and the character is not
     * accepted; the wire and the put area then still spell what was written exactly when the first send failed.
     */
    method Overflow(c: Option<byte>) returns (ok: bool)
      requires Valid()
      modifies this`pptr, this`epptr, this`ec, this`transferred, this`wire, this`timerHasExpired, this`network,
        this`written, putBuffer
      ensures Valid()
      ensures var f := Flush(|old(Due(c))|, old(network), old(timerHasExpired));
              && (ok <==> f.sent == |old(Due(c))|)
              && wire == old(wire) + old(Due(c))[..f.sent]
              && network == old(network)[f.used..] && timerHasExpired == f.expired
      ensures ok ==> wire + Pending() == old(wire + Pending()) + Accepted(c)
      ensures ok ==> written == old(written) + Accepted(c)
      ensures ok && !unbuffered ==> Pending() == Accepted(c)
      ensures !ok ==> written == old(written) && Pending() == old(Pending()) && ec != NoError
      ensures !ok && old(timerHasExpired) ==> ec == OperationAborted
      ensures ok && old(Faithful()) ==> Faithful()
      ensures !ok && old(Faithful()) ==> (Faithful() <==> !old(FirstSendMoves(network, timerHasExpired)))
    {
      assert unbuffered ==> Pending() == [];
      if unbuffered {
        ok := OverflowUnbuffered(c);
      } else {
        ok := OverflowBuffered(c);
      }
      assert old(Due(c))[..|old(Due(c))|] == old(Due(c));
    }

    ghost function Accepted(c: Option<byte>): seq<byte> {
      if c.None? then [] else [c.value]
    }

    method OverflowUnbuffered(c: Option<byte>) returns (ok: bool)
      requires Valid() && unbuffered
      modifies this`ec, this`transferred, this`wire, this`timerHasExpired, this`network, this`written
      ensures var f := Flush(|Accepted(c)|, old(network), old(timerHasExpired));
              && (ok <==> f.sent == |Accepted(c)|)
              && network == old(network)[f.used..] && timerHasExpired == f.expired
      ensures wire == (if ok then old(wire) + Accepted(c) else old(wire))
      ensures written == (if ok then old(written) + Accepted(c) else old(written))
      ensures ok || (c.Some? && ec != NoError && (old(timerHasExpired) ==> ec == OperationAborted))
    {
      if c.None? {
        return true;
      }
      if timerHasExpired {
        ec := OperationAborted;
        return false;
      }
      Send([c.value]);
      if ec != NoError {
        return false;
      }
      written := written + [c.value];
      return true;
    }

    // The loop of a flush.
    method SendAll(data: seq<byte>) returns (ok: bool)
      requires Valid()
      modifies this`ec, this`transferred, this`wire, this`timerHasExpired, this`network
      ensures var f := Flush(|data|, old(network), old(timerHasExpired));
              && (ok <==> f.sent == |data|)
              && wire == old(wire) + data[..f.sent]
              && network == old(network)[f.used..] && timerHasExpired == f.expired
      ensures !ok ==> ec != NoError && (old(timerHasExpired) ==> ec == OperationAborted)
    {
      hide Flush, FirstSendMoves;
      var buffer := data;
      ghost var start, schedule, all := wire, network, Flush(|data|, network, timerHasExpired);
      ghost var sent, used := 0, 0;
      while |buffer| > 0
        invariant 0 <= sent <= |data| && buffer == data[sent..] && wire == start + data[..sent]
        invariant 0 <= used <= |schedule| && network == schedule[used..]
        invariant old(timerHasExpired) ==> timerHasExpired
        invariant var rest := Flush(|buffer|, network, timerHasExpired);
                  all == Flushed(sent + rest.sent, used + rest.used, rest.expired)
        decreases |buffer|
      {
        FlushOnce(|buffer|, network, timerHasExpired);
        if timerHasExpired {
          ec := OperationAborted;
          return false;
        }
        PartsOf(data, sent);
        PartsOf(schedule, used);
        Send(buffer);
        used := if used == |schedule| then used else used + 1;
        if ec != NoError {
          return false;
        }
        assert start + data[..sent] + buffer[..transferred] == start + data[..sent + transferred];
        sent := sent + transferred;
        buffer := buffer[transferred..];
      }
      FlushOnce(0, network, timerHasExpired);
      return true;
    }

    method OverflowBuffered(c: Option<byte>) returns (ok: bool)
      requires Valid() && !unbuffered
      modifies this`pptr, this`epptr, this`ec, this`transferred, this`wire, this`timerHasExpired, this`network,
        this`written, putBuffer
      ensures Valid()
      ensures var f := Flush(|old(Pending())|, old(network), old(timerHasExpired));
              && (ok <==> f.sent == |old(Pending())|)
              && wire == old(wire) + old(Pending())[..f.sent]
              && network == old(network)[f.used..] && timerHasExpired == f.expired
      ensures ok ==> Pending() == Accepted(c) && written == old(written) + Accepted(c)
      ensures !ok ==> written == old(written) && Pending() == old(Pending()) && ec != NoError
      ensures !ok && old(timerHasExpired) ==> ec == OperationAborted
    {
      ok := SendAll(putBuffer[..pptr]);
      if !ok {
        return;
      }
      pptr, epptr := 0, BUFFER_SIZE;

      if c.None? {
        return true;
      }
      putBuffer[pptr] := c.value;
      pptr := pptr + 1;
      written := written + [c.value];
      return true;
    }

    /** `sync()`: every pending byte reaches the wire exactly when the flush succeeds. */
    method Sync() returns (ok: bool)
      requires Valid()
      modifies this`pptr, this`epptr, this`ec, this`transferred, this`wire, this`timerHasExpired, this`network,
        this`written, putBuffer
      ensures Valid() && written == old(written)
      ensures var f := Flush(|old(Pending())|, old(network), old(timerHasExpired));
              && (ok <==> f.sent == |old(Pending())|)
              && network == old(network)[f.used..] && timerHasExpired == f.expired
      ensures wire == Wired(old(wire), old(Pending()), old(network), old(timerHasExpired))
      ensures Pending() == if ok then [] else old(Pending())
      ensures ok && old(Faithful()) ==> wire == written
      ensures !ok && old(Faithful()) ==> (Faithful() <==> !old(FirstSendMoves(network, timerHasExpired)))
    {
      assert unbuffered ==> Pending() == [];
      ok := Overflow(None);
      assert ok ==> old(Pending())[..|old(Pending())|] == old(Pending());
    }

    /**
     * `close()` ignores the outcome of its flush. It reports success whenever the socket closes, and then empties
     * the put area: what the network did not take is gone.
     */
    method Close(socketError: ErrorCode) returns (success: bool)
      requires Valid()
      modifies this`pptr, this`epptr, this`ec, this`transferred, this`wire, this`timerHasExpired, this`network,
        this`written, putBuffer
      ensures Valid() && written == old(written)
      ensures success <==> socketError == NoError
      ensures success ==> Pending() == []
      ensures wire == Wired(old(wire), old(Pending()), old(network), old(timerHasExpired))
      ensures success && old(Faithful()) ==>
        (wire == written <==>
          Flush(|old(Pending())|, old(network), old(timerHasExpired)).sent == |old(Pending())|)
    {
      var _ := Sync();
      ec := socketError;
      if ec == NoError {
        InitBuffers();
      }
      success := ec == NoError;
      assert old(Faithful()) ==> |old(wire)| + |old(Pending())| == |written|;
    }

    method InitBuffers()
      requires Valid()
      modifies this`pptr, this`epptr
      ensures Valid() && Pending() == []
    {
      if unbuffered {
        pptr, epptr := 0, 0;
      } else {
        pptr, epptr := 0, BUFFER_SIZE;
      }
    }

    /** `setbuf(s, n)`: accepted only as a switch to unbuffered mode, and only on an empty put area. */
    method SetBuf(sIsNull: bool, n: nat) returns (ok: bool)
      requires Valid()
      modifies this`pptr, this`epptr, this`unbuffered
      ensures Valid() && Pending() == old(Pending())
      ensures ok <==> old(Pending()) == [] && sIsNull && n == 0
      ensures unbuffered == (old(unbuffered) || ok)
      ensures old(Faithful()) ==> Faithful()
    {
      if pptr == 0 && sIsNull && n == 0 {
        unbuffered := true;
        pptr, epptr := 0, 0;
        return true;
      }
      return false;
    }

    // std::streambuf's `sputc` over the virtual `overflow`.
    method Sputc(c: byte) returns (ok: bool)
      requires Valid()
      modifies this`pptr, this`epptr, this`ec, this`transferred, this`wire, this`timerHasExpired, this`network,
        this`written, putBuffer
      ensures Valid()
      ensures ok ==> wire + Pending() == old(wire + Pending()) + [c] && written == old(written) + [c]
      ensures !ok ==> written == old(written) && Pending() == old(Pending())
      ensures !ok && old(Faithful()) ==> (Faithful() <==> !old(FirstSendMoves(network, timerHasExpired)))
      ensures old(pptr < epptr) ==> ok && unchanged(`wire, `network, `timerHasExpired, `epptr)
      ensures old(pptr < epptr) ==> Pending() == old(Pending()) + [c]
    {
      if pptr < epptr {
        putBuffer[pptr] := c;
        pptr := pptr + 1;
        written := written + [c];
        assert Pending() == old(Pending()) + [c];
        return true;
      }
      ok := Overflow(Some(c));
    }

    /**
     * Any text, written while every operation succeeds, arrives: the wire followed by the put area is what was
     * there before followed by the text; the first failure ends the loop with the characters accepted so far.
     */
    method Write(text: seq<byte>) returns (count: nat)
      requires Valid()
      modifies this`pptr, this`epptr, this`ec, this`transferred, this`wire, this`timerHasExpired, this`network,
        this`written, putBuffer
      ensures Valid() && count <= |text| && written == old(written) + text[..count]
      ensures count == |text| ==> wire + Pending() == old(wire + Pending()) + text
    {
      count := 0;
      while count < |text|
        invariant Valid() && count <= |text|
        invariant written == old(written) + text[..count]
        invariant wire + Pending() == old(wire + Pending()) + text[..count]
      {
        ghost var sofar := text[..count];
        var ok := Sputc(text[count]);
        if !ok {
          return;
        }
        assert text[..count + 1] == sofar + [text[count]];
        count := count + 1;
      }
      assert text[..count] == text;
    }
  }

  // ---- Two runs that lose or repeat bytes ---------------------------------------------------------------------

  /** "ab" is written; the flush sends "a" and fails; the next flush succeeds. The peer has read "aab". */
  method RetryWitness() returns (wire: seq<byte>, ghost written: seq<byte>)
    ensures written == [97, 98] && wire == [97, 97, 98]
  {
    var schedule := [Sent(1, false), Failed(false, false), Sent(2, false)];
    var buf := new BasicSocketStreambuf(schedule);
    var accepted := buf.Sputc(97);
    accepted := buf.Sputc(98);
    RetrySchedule();
    hide Flush, FirstSendMoves;
    var ok := buf.Sync();
    assert !ok && buf.wire == [97] && buf.network == [Sent(2, false)];
    ok := buf.Sync();
    wire := buf.wire;
    written := buf.written;
  }

  lemma RetrySchedule()
    ensures Flush(2, [Sent(1, false), Failed(false, false), Sent(2, false)], false) == Flushed(1, 2, false)
    ensures Flush(2, [Sent(2, false)], false) == Flushed(2, 1, false)
  {
    var schedule := [Sent(1, false), Failed(false, false), Sent(2, false)];
    assert schedule[1..] == [Failed(false, false), Sent(2, false)];
    FlushOnce(2, schedule, false);
    FlushOnce(1, schedule[1..], false);
    FlushOnce(2, [Sent(2, false)], false);
  }

  /** "a" is written and every send fails. `close()` reports success, and the peer has read nothing. */
  method CloseWitness() returns (success: bool, wire: seq<byte>, ghost written: seq<byte>)
    ensures success && written == [97] && wire == []
  {
    var buf := new BasicSocketStreambuf([]);
    var accepted := buf.Sputc(97);
    success := buf.Close(NoError);
    wire := buf.wire;
    written := buf.written;
  }
}
