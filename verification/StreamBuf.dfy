/**
 * `asio::basic_streambuf`: a queue of bytes in one growable array.
 *
 * The stream pointers are offsets into `buffer`; `eback()` is always offset 0.  The bytes between `gptr` and
 * `pptr` are the queue.  Two ghost histories record every byte ever appended and every byte ever consumed, and
 * `Valid` ties the array to them: what was consumed followed by what is still queued is what was appended.
 */
module StreamBuf {
  import opened Bytes
  import opened Wrappers

  const BUFFER_DELTA: nat := 128

  // What `overflow` can do: throw `std::length_error`, accept the character, or acknowledge end-of-file.
  datatype Overflowed = Threw | Put(c: byte) | NotEof

  // ---- The failed shift ---------------------------------------------------------------------------------

  // `reserve` moves the queue to the start of the array before it may throw.
  function Shifted(b: seq<byte>, g: nat, p: nat): (r: seq<byte>)
    requires g <= p <= |b|
    ensures |r| == |b|
  {
    b[g..p] + b[p - g..]
  }

  // Which stream positions survive a `reserve` that throws.
  predicate ThrowIsHarmless(g: nat, p: nat) {
    g == 0 || p - g <= g
  }

  // The bytes of `b` from offset `i` to offset `j`.
  function Slice(b: seq<byte>, i: nat, j: nat): (r: seq<byte>)
    requires i <= j <= |b|
    ensures |r| == j - i
  {
    b[i..j]
  }

  lemma SliceSplits(b: seq<byte>, i: nat, j: nat, k: nat)
    requires i <= j <= k <= |b|
    ensures Slice(b, i, k) == Slice(b, i, j) + Slice(b, j, k)
    ensures Slice(b, i, k)[..j - i] == Slice(b, i, j) && Slice(b, i, k)[j - i..] == Slice(b, j, k)
  {}

  // What was consumed, followed by what is queued, is what was appended.
  ghost predicate History(consumed: seq<byte>, queue: seq<byte>, appended: seq<byte>) {
    consumed + queue == appended
  }

  lemma AppendingKeepsHistory(consumed: seq<byte>, queue: seq<byte>, appended: seq<byte>, data: seq<byte>)
    requires History(consumed, queue, appended)
    ensures History(consumed, queue + data, appended + data)
  {
    assert consumed + (queue + data) == (consumed + queue) + data;
  }

  lemma TakingKeepsHistory(consumed: seq<byte>, queue: seq<byte>, appended: seq<byte>, k: nat)
    requires History(consumed, queue, appended) && k <= |queue|
    ensures History(consumed + queue[..k], queue[k..], appended)
  {
    assert queue == queue[..k] + queue[k..];
  }

  lemma SliceOfExtension(b: seq<byte>, c: seq<byte>, i: nat, j: nat)
    requires i <= j <= |b| <= |c| && c[..|b|] == b
    ensures Slice(c, i, j) == Slice(b, i, j)
  {
    forall k | 0 <= k < j - i
      ensures c[i..j][k] == b[i..j][k]
    {
      assert c[..|b|][i + k] == b[i + k];
    }
  }

  lemma FirstOfSlice(b: seq<byte>, i: nat, j: nat)
    requires i < j <= |b|
    ensures Slice(b, i, j)[0] == b[i]
  {}

  lemma ShiftedParts(b: seq<byte>, g: nat, p: nat)
    requires g <= p <= |b|
    ensures Slice(Shifted(b, g, p), 0, p - g) == Slice(b, g, p)
    ensures g == 0 ==> Shifted(b, g, p) == b
    ensures ThrowIsHarmless(g, p) ==> Slice(Shifted(b, g, p), g, p) == Slice(b, g, p)
  {}

  lemma NothingToShift(b: seq<byte>, p: nat)
    requires p <= |b|
    ensures Shifted(b, 0, p) == b && ThrowIsHarmless(0, p)
  {}

  lemma ShiftLosesQueue(g: nat, p: nat) returns (b: seq<byte>)
    requires g <= p && !ThrowIsHarmless(g, p)
    ensures |b| == p && Slice(Shifted(b, g, p), g, p) != Slice(b, g, p)
  {
    b := seq(p, i => if i == 2 * g then 1 as byte else 0);
    assert Shifted(b, g, p)[g] == b[g..p][g] == b[2 * g];
    assert Slice(Shifted(b, g, p), g, p)[0] == 1 && Slice(b, g, p)[0] == 0;
  }

  /**
   * A `reserve` that throws has already run `memmove` but has not moved the stream pointers. The queue survives,
   * whatever its bytes, exactly when nothing was consumed or at least half of the written part was.
   */
  lemma FailedReserveKeepsQueueIff(g: nat, p: nat)
    requires g <= p
    ensures ThrowIsHarmless(g, p)
            <==> forall b: seq<byte> :: |b| == p ==> Slice(Shifted(b, g, p), g, p) == Slice(b, g, p)
  {
    if ThrowIsHarmless(g, p) {
      forall b: seq<byte> | |b| == p
        ensures Slice(Shifted(b, g, p), g, p) == Slice(b, g, p)
      {
        ShiftedParts(b, g, p);
      }
    } else {
      var b := ShiftLosesQueue(g, p);
    }
  }

  // A completion condition that asked for so much, before any error, when less had been read.
  ghost predicate WasAsked(total: nat, condition: (bool, nat) -> nat) {
    total > 0 ==> exists before: nat :: before < total <= before + condition(false, before)
  }

  // ---- The class ------------------------------------------------------------------------------------------

  class BasicStreambuf {
    const maxSize: nat
    var buffer: array<byte>
    var gptr: nat
    var egptr: nat
    var pptr: nat
    var epptr: nat
    ghost var appended: seq<byte>
    ghost var consumed: seq<byte>

    // Where the stream pointers stand in every reachable state.
    ghost predicate Layout()
      reads this, buffer
    {
      && gptr <= egptr <= pptr <= epptr <= maxSize
      && buffer.Length == Max(epptr, 1)
    }

    ghost function Contents(): seq<byte>
      requires Layout()
      reads this, buffer
    {
      Slice(buffer[..], gptr, pptr)
    }

    ghost predicate Valid()
      reads this, buffer
    {
      Layout() && History(consumed, Contents(), appended)
    }

    constructor (maximumSize: nat)
      ensures Valid() && fresh(buffer) && maxSize == maximumSize && appended == [] == consumed
      ensures gptr == pptr == 0
    {
      maxSize := maximumSize;
      var pend := Min(maximumSize, BUFFER_DELTA);
      buffer := new byte[Max(pend, 1)](_ => 0);
      gptr, egptr, pptr, epptr := 0, 0, 0, pend;
      appended, consumed := [], [];
    }

    method Size() returns (n: nat)
      requires Valid()
      ensures n == |Contents()| <= maxSize
    {
      n := pptr - gptr;
    }

    // `buffer_.resize(n)`, for a larger `n`
    method Resize(n: nat)
      requires buffer.Length <= n
      modifies this`buffer
      ensures fresh(buffer) && buffer.Length == n && buffer[..old(buffer.Length)] == old(buffer[..])
    {
      var grown := new byte[n](_ => 0);
      forall i | 0 <= i < buffer.Length {
        grown[i] := buffer[i];
      }
      buffer := grown;
    }

    /**
     * Makes room for `n` more bytes. It throws exactly when the queue would outgrow `maxSize`; otherwise the
     * queue is unchanged. A throw leaves the stream pointers alone but the array already shifted.
     */
    method Reserve(n: nat) returns (ok: bool)
      requires Valid()
      modifies this`buffer, this`gptr, this`egptr, this`pptr, this`epptr, buffer
      ensures ok <==> |old(Contents())| + n <= maxSize
      ensures ok ==> (buffer == old(buffer) || fresh(buffer)) && epptr - pptr >= n && (gptr == 0 || gptr == old(gptr))
      ensures !ok ==> Layout() && buffer == old(buffer) && unchanged(`gptr, `egptr, `pptr, `epptr)
      ensures !ok ==> buffer[..] == Shifted(old(buffer[..]), old(gptr), old(pptr))
      ensures ok || ThrowIsHarmless(old(gptr), old(pptr)) ==> Valid() && Contents() == old(Contents())
    {
      hide Shifted, Slice, ThrowIsHarmless, Max, History;
      ghost var before, queue := buffer[..], Contents();
      if n <= epptr - pptr {
        return true;
      }

      ShiftedParts(before, gptr, pptr);
      var pnext, pend := pptr - gptr, epptr;
      if gptr > 0 {
        MemMoveToFront(gptr, pnext);
      }
      assert buffer[..] == Shifted(before, gptr, pptr);

      if n > pend - pnext {
        if n <= maxSize && pnext <= maxSize - n {
          pend := pnext + n;
          ghost var shifted := buffer[..];
          Resize(Max(pend, 1));
          SliceOfExtension(shifted, buffer[..], 0, pnext);
        } else {
          return false;
        }
      }
      SetPointers(pnext, pend, queue);
      return true;
    }

    // `setg( &buffer_[0], &buffer_[0], &buffer_[0] + pnext ); setp( &buffer_[0] + pnext, &buffer_[0] + pend )`
    method SetPointers(pnext: nat, pend: nat, ghost queue: seq<byte>)
      requires pnext <= pend <= maxSize && buffer.Length == Max(pend, 1)
      requires Slice(buffer[..], 0, pnext) == queue && History(consumed, queue, appended)
      modifies this`gptr, this`egptr, this`pptr, this`epptr
      ensures Valid() && Contents() == queue && gptr == 0 && pptr == pnext && epptr == pend
    {
      hide Slice, Max, History;
      ghost var bytes := buffer[..];
      gptr, egptr := 0, pnext;
      pptr, epptr := pnext, pend;
      assert buffer[..] == bytes;
    }

    // `memmove( &buffer_[0], &buffer_[0] + from, n )`
    method MemMoveToFront(from: nat, n: nat)
      requires from + n <= buffer.Length
      modifies buffer
      ensures buffer[..] == Shifted(old(buffer[..]), from, from + n)
    {
      forall i | 0 <= i < n {
        buffer[i] := buffer[from + i];
      }
    }

    /** The region handed out is the first `n` bytes of the put area: `at` is its offset. */
    method Prepare(n: nat) returns (r: Result<nat, ()>)
      requires Valid()
      modifies this`buffer, this`gptr, this`egptr, this`pptr, this`epptr, buffer
      ensures r.Err? <==> |old(Contents())| + n > maxSize
      ensures r.Ok? ==> (buffer == old(buffer) || fresh(buffer)) && r.value == pptr && pptr + n <= epptr
      ensures r.Ok? ==> gptr == 0 || gptr == old(gptr)
      ensures r.Err? ==> Layout() && buffer == old(buffer) && unchanged(`gptr, `egptr, `pptr, `epptr)
      ensures r.Err? ==> buffer[..] == Shifted(old(buffer[..]), old(gptr), old(pptr))
      ensures r.Ok? || ThrowIsHarmless(old(gptr), old(pptr)) ==> Valid() && Contents() == old(Contents())
    {
      var ok := Reserve(n);
      r := if ok then Ok(pptr) else Err(());
    }

    // What the holder of a prepared region does with it: write `data` at its start.
    method Fill(at: nat, data: seq<byte>)
      requires Valid() && at == pptr && at + |data| <= epptr
      modifies buffer
      ensures Valid() && Contents() == old(Contents()) && Slice(buffer[..], at, at + |data|) == data
    {
      ghost var queue := Contents();
      forall i | 0 <= i < |data| {
        buffer[at + i] := data[i];
      }
      assert Contents() == queue;
    }

    /** Appends the first `n` bytes of the put area, or all of it when `n` is larger. */
    method Commit(n: nat)
      requires Valid()
      modifies this`pptr, this`egptr, this`appended
      ensures Valid()
      ensures var k := Min(n, old(epptr - pptr));
              && Contents() == old(Contents()) + old(Slice(buffer[..], pptr, pptr + k))
              && appended == old(appended) + old(Slice(buffer[..], pptr, pptr + k))
    {
      hide Slice, Max, History;
      ghost var bytes, queue := buffer[..], Contents();
      var k := n;
      if pptr + k > epptr {
        k := epptr - pptr;
      }
      SliceSplits(bytes, gptr, pptr, pptr + k);
      AppendingKeepsHistory(consumed, queue, appended, Slice(bytes, pptr, pptr + k));
      appended := appended + Slice(bytes, pptr, pptr + k);
      pptr := pptr + k;
      egptr := pptr;
      assert buffer[..] == bytes;
    }

    /** Takes the first `n` bytes off the queue, or all of them when it holds fewer. */
    method Consume(n: nat)
      requires Valid()
      modifies this`gptr, this`egptr, this`consumed
      ensures Valid()
      ensures var k := Min(n, |old(Contents())|);
              && Contents() == old(Contents())[k..]
              && consumed == old(consumed) + old(Contents())[..k]
              && gptr == old(gptr) + k
    {
      hide Slice, Max, History;
      ghost var bytes, queue := buffer[..], Contents();
      if egptr < pptr {
        egptr := pptr;
      }
      var k := n;
      if gptr + k > pptr {
        k := pptr - gptr;
      }
      SliceSplits(bytes, gptr, gptr + k, pptr);
      TakingKeepsHistory(consumed, queue, appended, k);
      ghost var taken, rest := queue[..k], queue[k..];
      consumed := consumed + taken;
      gptr := gptr + k;
      assert buffer[..] == bytes && Contents() == rest;
    }

    /** The first byte of the queue, or end-of-file exactly when the queue is empty; afterwards it can be read. */
    method Underflow() returns (c: Option<byte>)
      requires Valid()
      modifies this`egptr
      ensures Valid() && Contents() == old(Contents())
      ensures c == if Contents() == [] then None else Some(Contents()[0])
      ensures c.Some? ==> gptr < egptr
    {
      if gptr < pptr {
        egptr := pptr;
        return Some(buffer[gptr]);
      } else {
        return None;
      }
    }

    /**
     * Appends one character, growing the array when the put area is full. It throws exactly when the queue is
     * full, and then nothing at all has changed; end-of-file changes nothing either.
     */
    method Overflow(c: Option<byte>) returns (r: Overflowed)
      requires Valid()
      modifies this`buffer, this`gptr, this`egptr, this`pptr, this`epptr, this`appended, buffer
      ensures Valid() && (buffer == old(buffer) || fresh(buffer))
      ensures r == match c case None => NotEof case Some(x) => if |old(Contents())| == maxSize then Threw else Put(x)
      ensures !r.Put? ==> unchanged(this) && buffer[..] == old(buffer[..])
      ensures r.Put? ==> Contents() == old(Contents()) + [r.c] && appended == old(appended) + [r.c]
    {
      if c.Some? {
        var ok := GrowWhenFull();
        if !ok {
          return Threw;
        }
        Append(c.value);
        return Put(c.value);
      }
      return NotEof;
    }

    // A full put area is grown by 128 bytes, or by what is left of `maxSize` when that is less.
    method GrowWhenFull() returns (ok: bool)
      requires Valid()
      modifies this`buffer, this`gptr, this`egptr, this`pptr, this`epptr, buffer
      ensures Valid() && (buffer == old(buffer) || fresh(buffer)) && Contents() == old(Contents())
      ensures ok <==> |old(Contents())| < maxSize
      ensures if ok then pptr < epptr else unchanged(this) && buffer[..] == old(buffer[..])
      ensures ok && old(pptr == epptr) ==> epptr - pptr >= Min(BUFFER_DELTA, maxSize - |Contents()|)
    {
      hide Slice, Shifted, ThrowIsHarmless, History, Max;
      ok := true;
      if pptr == epptr {
        // A full queue fills the array from its first byte, so there is nothing to shift.
        if gptr == 0 {
          NothingToShift(buffer[..], pptr);
        }
        var bufferSize := pptr - gptr;
        if bufferSize < maxSize && maxSize - bufferSize < BUFFER_DELTA {
          ok := Reserve(maxSize - bufferSize);
        } else {
          ok := Reserve(BUFFER_DELTA);
        }
      }
    }

    // `*pptr( ) = c; pbump( 1 )`
    method Append(c: byte)
      requires Valid() && pptr < epptr
      modifies this`pptr, this`appended, buffer
      ensures Valid() && Contents() == old(Contents()) + [c] && appended == old(appended) + [c]
    {
      ghost var queue := Contents();
      buffer[pptr] := c;
      pptr := pptr + 1;
      appended := appended + [c];
      assert Contents() == queue + [c];
    }

    /**
     * How much an asynchronous read asks for. Whatever the vector's capacity and the caller's limit, preparing
     * that much never throws, and it is zero only when the limit is zero or the queue is full.
     */
    method ReadSizeHelper(limit: nat, capacity: nat) returns (n: nat)
      requires Valid() && buffer.Length <= capacity
      ensures n <= limit && |Contents()| + n <= maxSize
      ensures n == 0 <==> limit == 0 || |Contents()| == maxSize
      ensures n == limit || |Contents()| + n == maxSize || n == Max(512, capacity - |Contents()|)
      ensures n <= Max(512, capacity - |Contents()|)
    {
      var size := Size();
      n := Min(Max(512, capacity - size), Min(limit, maxSize - size));
    }

    // One round: `data` is what the stream puts into the prepared region.
    method ReadSome(available: nat, data: seq<byte>)
      requires Valid() && |Contents()| + available <= maxSize && |data| <= available
      modifies this, buffer
      ensures Valid() && (buffer == old(buffer) || fresh(buffer)) && Contents() == old(Contents()) + data
    {
      hide History, Slice, Max, Shifted, ThrowIsHarmless;
      var region := Prepare(available);
      assert region.Ok?;
      Fill(region.value, data);
      Commit(|data|);
    }

    /**
     * `asio::read(stream, streambuf, condition, ec)`. The stream delivers `incoming` and then fails; each `read_some`
     * yields no more than the next of `cuts` says, perhaps nothing, and without one as much as it can. No `prepare`
     * throws, the queue grows by exactly the bytes that were read, and the loop only ends when the condition asks for
     * nothing more or the queue is full; it never reads more than the condition asked for.
     */
    method Read(incoming: seq<byte>, cuts: seq<nat>, condition: (bool, nat) -> nat) returns (total: nat, failed: bool)
      requires Valid() && forall n: nat :: condition(true, n) == 0
      modifies this, buffer
      ensures Valid() && total <= |incoming| && Contents() == old(Contents()) + incoming[..total]
      ensures failed ==> total == |incoming|
      ensures condition(failed, total) == 0 || |Contents()| == maxSize
      ensures (forall n: nat :: condition(false, n) > 0) ==> total == Min(|incoming|, maxSize - |old(Contents())|)
      ensures WasAsked(total, condition)
    {
      hide History, Slice, Max, Contents;
      total, failed := 0, false;
      var rest := cuts;
      var wanted := condition(false, 0);
      var capacity :| capacity >= buffer.Length;
      var available := ReadSizeHelper(wanted, capacity);
      while available > 0
        invariant Valid() && (buffer == old(buffer) || fresh(buffer))
        invariant total <= |incoming| && Contents() == old(Contents()) + incoming[..total]
        invariant |Contents()| + available <= maxSize && (failed ==> available == 0 && total == |incoming|)
        invariant wanted == condition(failed, total) && available <= wanted
        invariant available == 0 ==> wanted == 0 || |Contents()| == maxSize
        invariant WasAsked(total, condition)
        decreases |incoming| - total, |rest|, !failed
      {
        var n := Min(available, |incoming| - total);
        if rest != [] {
          n := Min(rest[0], n);
          rest := rest[1..];
        } else {
          failed := total == |incoming|;
        }
        ghost var soFar := Contents();
        ReadSome(available, incoming[total..total + n]);
        assert soFar + incoming[total..total + n] == old(Contents()) + incoming[..total + n];
        assert n > 0 ==> condition(false, total) > 0 && total + n <= total + condition(false, total);
        total := total + n;
        wanted := condition(failed, total);
        capacity :| capacity >= buffer.Length;
        available := ReadSizeHelper(wanted, capacity);
      }
    }

    // ---- The public protocol of std::streambuf over the two virtual members -------------------------------

    /** `sputc`: the put area first, `overflow` when it is full. */
    method Sputc(c: byte) returns (threw: bool)
      requires Valid()
      modifies this`buffer, this`gptr, this`egptr, this`pptr, this`epptr, this`appended, buffer
      ensures Valid() && (buffer == old(buffer) || fresh(buffer))
      ensures threw <==> |old(Contents())| == maxSize
      ensures Contents() == if threw then old(Contents()) else old(Contents()) + [c]
    {
      if pptr < epptr {
        Append(c);
        threw := false;
      } else {
        var r := Overflow(Some(c));
        threw := r.Threw?;
      }
    }

    /** `sbumpc`: the get area first, `underflow` when it is empty. */
    method Sbumpc() returns (c: Option<byte>)
      requires Valid()
      modifies this`gptr, this`egptr, this`consumed
      ensures Valid()
      ensures old(Contents()) == [] ==> c == None && Contents() == []
      ensures old(Contents()) != [] ==> c == Some(old(Contents())[0]) && Contents() == old(Contents())[1..]
    {
      hide Slice, Max, History;
      if gptr == egptr {
        var peeked := Underflow();
        if peeked.None? {
          return None;
        }
      }
      ghost var bytes, queue := buffer[..], Contents();
      SliceSplits(bytes, gptr, gptr + 1, pptr);
      TakingKeepsHistory(consumed, queue, appended, 1);
      FirstOfSlice(bytes, gptr, pptr);
      c := Some(buffer[gptr]);
      gptr := gptr + 1;
      consumed := consumed + queue[..1];
      assert buffer[..] == bytes;
    }
  }

  // ---- A refused request that loses a byte -----------------------------------------------------------------------

  /** "abcd" is appended and "a" consumed. A `prepare` that is refused turns the queue "bcd" into "cdd". */
  method FailedReserveWitness() returns (refused: bool, ghost before: seq<byte>, ghost after: seq<byte>)
    ensures refused && before == [98, 99, 100] && after == [99, 100, 100]
  {
    var data: seq<byte> := [97, 98, 99, 100];
    var sb := new BasicStreambuf(4);
    var region := sb.Prepare(4);
    sb.Fill(region.value, data);
    sb.Commit(4);
    assert sb.Contents() == data;
    sb.Consume(1);
    before := sb.Contents();
    ghost var bytes := sb.buffer[..];
    assert sb.gptr == 1 && sb.pptr == 4 && |bytes| == 4;
    assert before == data[1..];
    ShiftOverwrites(bytes);
    hide Shifted, Slice;
    region := sb.Prepare(2);
    refused := region.Err?;
    after := sb.Contents();
  }

  lemma ShiftOverwrites(b: seq<byte>)
    requires |b| == 4 && Slice(b, 1, 4) == [98, 99, 100]
    ensures Slice(Shifted(b, 1, 4), 1, 4) == [99, 100, 100]
  {
    assert b[1..4][0] == b[1] && b[1..4][1] == b[2] && b[1..4][2] == b[3];
  }
}
