/**
 * `asio::buffers_iterator`: a random access iterator over the bytes of a buffer sequence.
 *
 * Buffer-list iterators are indices into `bufs`, from 0 up to the end `|bufs|`.
 */
module BuffersIterator {
  import opened Buffers

  class BuffersIterator<T> {
    const bufs: seq<seq<T>>
    var currentBuffer: seq<T>
    var bufferPosition: nat
    var current: nat
    var position: nat

    ghost predicate Valid()
      reads this
    {
      && Canonical(bufs, Cur(), position)
      && (current < |bufs| ==> currentBuffer == bufs[current])
    }

    ghost function Cur(): Cursor
      reads this
    {
      Cursor(current, bufferPosition)
    }

    constructor Begin(buffers: seq<seq<T>>)
      ensures bufs == buffers && Valid() && position == 0
    {
      bufs := buffers;
      currentBuffer, bufferPosition, position := [], 0, 0;
      current := 0;
      new;
      while current != |bufs|
        invariant current <= |bufs| && Before(bufs, current) == 0
        invariant bufferPosition == 0 == position
      {
        currentBuffer := bufs[current];
        if |currentBuffer| > 0 {
          break;
        }
        current := current + 1;
      }
    }

    constructor End(buffers: seq<seq<T>>)
      ensures bufs == buffers && Valid() && position == Total(buffers)
    {
      bufs := buffers;
      currentBuffer, bufferPosition, position := [], 0, 0;
      current := 0;
      new;
      while current != |bufs|
        invariant current <= |bufs| && position == Before(bufs, current)
        invariant bufferPosition == 0
      {
        var buffer := bufs[current];
        position := position + |buffer|;
        current := current + 1;
      }
    }

    constructor Copy(other: BuffersIterator<T>)
      requires other.Valid()
      ensures bufs == other.bufs && Valid() && position == other.position && Cur() == other.Cur()
    {
      bufs := other.bufs;
      currentBuffer, bufferPosition := other.currentBuffer, other.bufferPosition;
      current, position := other.current, other.position;
    }

    /** The byte the iterator points at is byte `position` of the concatenated buffers. */
    method Dereference() returns (b: T)
      requires Valid() && position < Total(bufs)
      ensures position < |Flat(bufs)| && b == Flat(bufs)[position]
    {
      CanonicalNamesFlatByte(bufs, Cur(), position);
      b := currentBuffer[bufferPosition];
    }

    /** `it[d]`: jump a copy of the iterator and dereference it. */
    method At(difference: int) returns (b: T)
      requires Valid() && 0 <= position + difference < Total(bufs)
      ensures position + difference < |Flat(bufs)| && b == Flat(bufs)[position + difference]
    {
      var tmp := new BuffersIterator.Copy(this);
      tmp.Advance(difference);
      b := tmp.Dereference();
    }

    /** Comparing positions alone decides whether two iterators over one list stand at the same cursor. */
    method Equal(other: BuffersIterator<T>) returns (r: bool)
      requires Valid() && other.Valid() && bufs == other.bufs
      ensures r <==> Cur() == other.Cur()
    {
      CanonicalIsUnique(bufs, Cur(), other.Cur(), position, other.position);
      r := position == other.position;
    }

    /** The distance to `other` is the jump that carries this iterator onto it. */
    method DistanceTo(other: BuffersIterator<T>) returns (n: int)
      requires Valid() && other.Valid() && bufs == other.bufs
      ensures 0 <= position + n <= Total(bufs) && Steps(bufs, Cur(), position, n) == other.Cur()
    {
      n := other.position - position;
      CanonicalNamesFlatByte(bufs, other.Cur(), other.position);
      CanonicalIsUnique(bufs, Steps(bufs, Cur(), position, n), other.Cur(), position + n, other.position);
    }

    /** `a < b`, decided on positions alone, is the lexicographic order of cursors. */
    method Less(other: BuffersIterator<T>) returns (r: bool)
      requires Valid() && other.Valid() && bufs == other.bufs
      ensures r <==> CursorLess(Cur(), other.Cur())
    {
      CanonicalIsUnique(bufs, Cur(), other.Cur(), position, other.position);
      CanonicalIsUnique(bufs, other.Cur(), Cur(), other.position, position);
      var distance := other.position - position;
      r := distance > 0;
    }

    method Increment()
      requires Valid() && position < Total(bufs)
      modifies this
      ensures Valid() && position == old(position) + 1
      ensures Cur() == Next(bufs, old(Cur()))
    {
      CanonicalNamesFlatByte(bufs, Cur(), position);
      NextIsCanonical(bufs, Cur(), position);
      assert current != |bufs|;
      position := position + 1;

      bufferPosition := bufferPosition + 1;
      if bufferPosition != |currentBuffer| {
        return;
      }

      current := current + 1;
      bufferPosition := 0;
      while current != |bufs|
        invariant old(current) < current <= |bufs|
        invariant NextNonEmpty(bufs, current) == NextNonEmpty(bufs, old(current) + 1)
        invariant bufferPosition == 0 && position == old(position) + 1
      {
        currentBuffer := bufs[current];
        if |currentBuffer| > 0 {
          return;
        }
        current := current + 1;
      }
    }

    method Decrement()
      requires Valid() && position > 0
      modifies this
      ensures Valid() && position == old(position) - 1
      ensures Before(bufs, old(current)) > 0 || old(bufferPosition) > 0
      ensures Cur() == Prev(bufs, old(Cur()))
    {
      PrevIsCanonical(bufs, Cur(), position);
      position := position - 1;

      if bufferPosition != 0 {
        bufferPosition := bufferPosition - 1;
        return;
      }

      var iter := current;
      while iter != 0
        invariant 0 < iter <= current && Before(bufs, iter) > 0
        invariant PrevNonEmpty(bufs, iter) == PrevNonEmpty(bufs, current)
      {
        iter := iter - 1;
        var buffer := bufs[iter];
        if |buffer| > 0 {
          current := iter;
          currentBuffer := buffer;
          bufferPosition := |buffer| - 1;
          return;
        }
      }
    }

    /**
     * The jump: whole buffers are skipped at once, yet the iterator ends exactly where `|n|` single steps end.
     * No assertion of the original can fail, and both of its loops terminate.
     */
    method Advance(n: int)
      requires Valid() && 0 <= position + n <= Total(bufs)
      modifies this
      ensures Valid() && position == old(position) + n
      ensures Cur() == Steps(bufs, old(Cur()), old(position), n)
    {
      ghost var target := position + n;
      ghost var landing := Steps(bufs, Cur(), position, n);
      CanonicalNamesFlatByte(bufs, Cur(), position);
      if n > 0 {
        AdvanceForward(n);
        CanonicalIsUnique(bufs, Cur(), landing, target, target);
      } else if n < 0 {
        AdvanceBackward(-n);
        CanonicalIsUnique(bufs, Cur(), landing, target, target);
      }
    }

    method AdvanceForward(distance: nat)
      requires Valid() && distance > 0 && position + distance <= Total(bufs)
      modifies this
      ensures Valid() && position == old(position) + distance
    {
      ghost var target := position + distance;
      CanonicalNamesFlatByte(bufs, Cur(), position);
      assert current != |bufs|;
      var n := distance;
      while true
        invariant current < |bufs| && currentBuffer == bufs[current]
        invariant bufferPosition <= |currentBuffer|
        invariant position == Before(bufs, current) + bufferPosition
        invariant n >= 0 && position + n == target
        decreases |bufs| - current
      {
        var currentBufferBalance := |currentBuffer| - bufferPosition;
        if currentBufferBalance > n {
          position := position + n;
          bufferPosition := bufferPosition + n;
          return;
        }
        // The target is not inside this buffer, so it is not before the next one.
        BeforeMonotone(bufs, current + 1, |bufs|);
        n := n - currentBufferBalance;
        position := position + currentBufferBalance;
        current := current + 1;
        if current == |bufs| {
          assert n == 0;
          currentBuffer := [];
          bufferPosition := 0;
          return;
        }
        currentBuffer := bufs[current];
        bufferPosition := 0;
      }
    }

    method AdvanceBackward(distance: nat)
      requires Valid() && 0 < distance <= position
      modifies this
      ensures Valid() && position == old(position) - distance
    {
      ghost var target := position - distance;
      CanonicalNamesFlatByte(bufs, Cur(), position);
      assert position >= distance;
      var absN := distance;
      while true
        invariant current <= |bufs| && (current < |bufs| ==> currentBuffer == bufs[current])
        invariant if current < |bufs| then bufferPosition <= |currentBuffer| else bufferPosition == 0
        invariant position == Before(bufs, current) + bufferPosition
        invariant absN > 0 && position - absN == target
        decreases current
      {
        if bufferPosition >= absN {
          position := position - absN;
          bufferPosition := bufferPosition - absN;
          return;
        }

        absN := absN - bufferPosition;
        position := position - bufferPosition;

        // Never taken: at the first buffer nothing is left to go back over.
        if current == 0 {
          assert false;
        }

        // The search always finds a buffer: bytes are left before `current`.
        ghost var start, p := current, PrevNonEmpty(bufs, current);
        BeforeSkipsEmpty(bufs, p + 1, start);
        var iter := current;
        while iter != 0
          invariant p < iter <= start == current
          invariant position == Before(bufs, start)
        {
          iter := iter - 1;
          var buffer := bufs[iter];
          if |buffer| > 0 {
            current := iter;
            currentBuffer := buffer;
            bufferPosition := |buffer|;
            break;
          }
        }
      }
    }
  }
}
