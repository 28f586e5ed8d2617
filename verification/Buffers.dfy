/**
 * Lists of byte buffers, read as the one flat string of bytes they stand for.
 *
 * A buffer sequence may hold empty buffers anywhere.  A cursor names a byte by its buffer and its offset
 * in that buffer; the canonical cursor of flat position `p` is the only one that names byte `p`, and the
 * position one past the last byte is named by the end of the list with offset zero.
 */
module Buffers {

  datatype Cursor = Cursor(buffer: nat, offset: nat)

  // The bytes of the first `i` buffers.
  ghost function FlatTo<T>(bufs: seq<seq<T>>, i: nat): seq<T>
    requires i <= |bufs|
  {
    if i == 0 then [] else FlatTo(bufs, i - 1) + bufs[i - 1]
  }

  ghost function Flat<T>(bufs: seq<seq<T>>): seq<T> {
    FlatTo(bufs, |bufs|)
  }

  // How many bytes lie before buffer `i`.
  function Before<T>(bufs: seq<seq<T>>, i: nat): nat
    requires i <= |bufs|
  {
    if i == 0 then 0 else Before(bufs, i - 1) + |bufs[i - 1]|
  }

  function Total<T>(bufs: seq<seq<T>>): nat {
    Before(bufs, |bufs|)
  }

  predicate CursorLess(a: Cursor, b: Cursor) {
    a.buffer < b.buffer || (a.buffer == b.buffer && a.offset < b.offset)
  }

  ghost predicate Canonical<T>(bufs: seq<seq<T>>, c: Cursor, p: nat) {
    && c.buffer <= |bufs|
    && p == Before(bufs, c.buffer) + c.offset
    && (if c.buffer < |bufs| then c.offset < |bufs[c.buffer]| else c.offset == 0)
  }

  // The reference search: walk the list from buffer `i`, with `p` bytes still to pass.
  function LocateFrom<T>(bufs: seq<seq<T>>, i: nat, p: nat): Cursor
    requires i <= |bufs|
    decreases |bufs| - i
  {
    if i == |bufs| then Cursor(i, 0)
    else if p < |bufs[i]| then Cursor(i, p)
    else LocateFrom(bufs, i + 1, p - |bufs[i]|)
  }

  function Locate<T>(bufs: seq<seq<T>>, p: nat): Cursor {
    LocateFrom(bufs, 0, p)
  }

  // The first non-empty buffer at or after `i`, or the end of the list.
  function NextNonEmpty<T>(bufs: seq<seq<T>>, i: nat): (j: nat)
    requires i <= |bufs|
    ensures i <= j <= |bufs|
    ensures j < |bufs| ==> |bufs[j]| > 0
    ensures forall k :: i <= k < j ==> |bufs[k]| == 0
    decreases |bufs| - i
  {
    if i == |bufs| || |bufs[i]| > 0 then i else NextNonEmpty(bufs, i + 1)
  }

  // The last non-empty buffer before `i`; there is one whenever any byte lies before `i`.
  function PrevNonEmpty<T>(bufs: seq<seq<T>>, i: nat): (j: nat)
    requires i <= |bufs| && Before(bufs, i) > 0
    ensures j < i && |bufs[j]| > 0
    ensures forall k :: j < k < i ==> |bufs[k]| == 0
  {
    if |bufs[i - 1]| > 0 then i - 1 else PrevNonEmpty(bufs, i - 1)
  }

  // One byte forward, and one byte back.
  function Next<T>(bufs: seq<seq<T>>, c: Cursor): Cursor
    requires c.buffer < |bufs|
  {
    if c.offset + 1 < |bufs[c.buffer]| then c.(offset := c.offset + 1)
    else Cursor(NextNonEmpty(bufs, c.buffer + 1), 0)
  }

  function Prev<T>(bufs: seq<seq<T>>, c: Cursor): Cursor
    requires c.buffer <= |bufs| && (c.offset > 0 || Before(bufs, c.buffer) > 0)
  {
    if c.offset > 0 then c.(offset := c.offset - 1)
    else var j := PrevNonEmpty(bufs, c.buffer); Cursor(j, |bufs[j]| - 1)
  }

  // `|n|` single steps from the canonical cursor of `p`, forward or back as the sign of `n` says.
  ghost function Steps<T>(bufs: seq<seq<T>>, c: Cursor, p: nat, n: int): (r: Cursor)
    requires Canonical(bufs, c, p) && 0 <= p + n <= Total(bufs)
    ensures Canonical(bufs, r, p + n)
    decreases if n < 0 then -n else n
  {
    BeforeMonotone(bufs, c.buffer, |bufs|);
    if n == 0 then c
    else if n > 0 then
      NextIsCanonical(bufs, c, p);
      Steps(bufs, Next(bufs, c), p + 1, n - 1)
    else
      PrevIsCanonical(bufs, c, p);
      Steps(bufs, Prev(bufs, c), p - 1, n + 1)
  }

  // ---- Facts about prefix sums ----------------------------------------------------------------------

  lemma {:induction false} BeforeMonotone<T>(bufs: seq<seq<T>>, i: nat, j: nat)
    requires i <= j <= |bufs|
    ensures Before(bufs, i) <= Before(bufs, j)
    ensures i < j ==> Before(bufs, i) + |bufs[i]| <= Before(bufs, j)
    decreases j - i
  {
    if i < j {
      BeforeMonotone(bufs, i + 1, j);
    }
  }

  lemma {:induction false} BeforeSkipsEmpty<T>(bufs: seq<seq<T>>, i: nat, j: nat)
    requires i <= j <= |bufs|
    requires forall k :: i <= k < j ==> |bufs[k]| == 0
    ensures Before(bufs, i) == Before(bufs, j)
    decreases j - i
  {
    if i < j {
      BeforeSkipsEmpty(bufs, i, j - 1);
    }
  }

  lemma {:induction false} FlatToIsPrefix<T>(bufs: seq<seq<T>>, i: nat, j: nat)
    requires i <= j <= |bufs|
    ensures |FlatTo(bufs, i)| == Before(bufs, i) <= |FlatTo(bufs, j)| == Before(bufs, j)
    ensures FlatTo(bufs, j)[..Before(bufs, i)] == FlatTo(bufs, i)
    decreases j
  {
    if i < j {
      FlatToIsPrefix(bufs, i, j - 1);
    } else if j > 0 {
      FlatToIsPrefix(bufs, i - 1, j - 1);
    }
  }

  // ---- Single steps keep cursors canonical ------------------------------------------------------------

  lemma NextIsCanonical<T>(bufs: seq<seq<T>>, c: Cursor, p: nat)
    requires Canonical(bufs, c, p) && p < Total(bufs)
    ensures c.buffer < |bufs| && Canonical(bufs, Next(bufs, c), p + 1)
  {
    var j := NextNonEmpty(bufs, c.buffer + 1);
    BeforeSkipsEmpty(bufs, c.buffer + 1, j);
  }

  lemma PrevIsCanonical<T>(bufs: seq<seq<T>>, c: Cursor, p: nat)
    requires Canonical(bufs, c, p) && p > 0
    ensures (c.offset > 0 || Before(bufs, c.buffer) > 0) && Canonical(bufs, Prev(bufs, c), p - 1)
  {
    if c.offset == 0 {
      var j := PrevNonEmpty(bufs, c.buffer);
      BeforeSkipsEmpty(bufs, j + 1, c.buffer);
    }
  }

  // ---- A position has exactly one canonical cursor, and it is the byte at that position ------------------

  lemma CanonicalIsUnique<T>(bufs: seq<seq<T>>, c: Cursor, d: Cursor, p: nat, q: nat)
    requires Canonical(bufs, c, p) && Canonical(bufs, d, q)
    ensures p == q <==> c == d
    ensures p < q <==> CursorLess(c, d)
  {
    if c.buffer < d.buffer {
      BeforeMonotone(bufs, c.buffer, d.buffer);
    } else if d.buffer < c.buffer {
      BeforeMonotone(bufs, d.buffer, c.buffer);
    }
  }

  lemma {:induction false} LocateFromIsCanonical<T>(bufs: seq<seq<T>>, i: nat, p: nat)
    requires i <= |bufs| && Before(bufs, i) + p <= Total(bufs)
    ensures Canonical(bufs, LocateFrom(bufs, i, p), Before(bufs, i) + p)
    decreases |bufs| - i
  {
    if i < |bufs| && p >= |bufs[i]| {
      LocateFromIsCanonical(bufs, i + 1, p - |bufs[i]|);
    }
  }

  /** A cursor is canonical for `p` exactly when it is the one the reference search finds. */
  lemma CanonicalIffLocated<T>(bufs: seq<seq<T>>, c: Cursor, p: nat)
    requires p <= Total(bufs)
    ensures Canonical(bufs, c, p) <==> c == Locate(bufs, p)
  {
    LocateFromIsCanonical(bufs, 0, p);
    if Canonical(bufs, c, p) {
      CanonicalIsUnique(bufs, c, Locate(bufs, p), p, p);
    }
  }

  lemma CanonicalNamesFlatByte<T>(bufs: seq<seq<T>>, c: Cursor, p: nat)
    requires Canonical(bufs, c, p)
    ensures p <= Total(bufs) == |Flat(bufs)|
    ensures p == Total(bufs) <==> c == Cursor(|bufs|, 0)
    ensures p < Total(bufs) ==> c.buffer < |bufs| && bufs[c.buffer][c.offset] == Flat(bufs)[p]
  {
    FlatToIsPrefix(bufs, c.buffer, |bufs|);
    if c.buffer < |bufs| {
      FlatToIsPrefix(bufs, c.buffer + 1, |bufs|);
      FlatToIsPrefix(bufs, c.buffer, c.buffer + 1);
      assert FlatTo(bufs, c.buffer + 1)[p] == bufs[c.buffer][c.offset];
      assert FlatTo(bufs, c.buffer + 1) == Flat(bufs)[..Before(bufs, c.buffer + 1)];
    }
  }

  // ---- Jumps compose -------------------------------------------------------------------------------------

  /**
   * Jumping by `a` and then by `b` is jumping by `a + b`, whatever the signs; jumping back by `a` undoes
   * jumping by `a`; and every jump lands where the reference search lands.
   */
  lemma StepsCompose<T>(bufs: seq<seq<T>>, c: Cursor, p: nat, a: int, b: int)
    requires Canonical(bufs, c, p)
    requires 0 <= p + a <= Total(bufs) && 0 <= p + a + b <= Total(bufs)
    ensures Steps(bufs, Steps(bufs, c, p, a), p + a, b) == Steps(bufs, c, p, a + b) == Locate(bufs, p + a + b)
    ensures p <= Total(bufs) && Steps(bufs, Steps(bufs, c, p, a), p + a, -a) == c
  {
    CanonicalNamesFlatByte(bufs, c, p);
    var there := Steps(bufs, c, p, a);
    CanonicalIsUnique(bufs, Steps(bufs, there, p + a, b), Steps(bufs, c, p, a + b), p + a + b, p + a + b);
    CanonicalIsUnique(bufs, Steps(bufs, there, p + a, -a), c, p, p);
    CanonicalIffLocated(bufs, Steps(bufs, c, p, a + b), p + a + b);
  }
}
