/**
 * `asio::buffer_copy`: copying between lists of memory regions that are cut in different places.
 *
 * Memory is one array of bytes, and a buffer is an address and a size in it.  `Addresses` lists the
 * addresses a buffer sequence covers, in order, so a copy of `n` bytes is one assignment: the first `n`
 * target addresses receive what the first `n` source addresses held.  Every overload is proved to be that
 * one assignment.
 */
module BufferCopy {

  import opened Bytes

  // `mutable_buffer` and `const_buffer`: they differ only in what their holder may do with them.
  datatype Buffer = Buffer(data: nat, size: nat)

  const EmptyBuffer := Buffer(0, 0)

  // ---- buffer.hpp: making buffers from buffers -------------------------------------------------------

  // `b + start`
  function Offset(b: Buffer, start: nat): Buffer {
    if start > b.size then EmptyBuffer else Buffer(b.data + start, b.size - start)
  }

  // `buffer(b, limit)`
  function Limited(b: Buffer, limit: nat): Buffer {
    Buffer(b.data, if b.size < limit then b.size else limit)
  }

  // ---- What a buffer sequence denotes ------------------------------------------------------------------

  ghost function Span(b: Buffer): (r: seq<nat>)
    ensures |r| == b.size
  {
    seq(b.size, i requires 0 <= i => b.data + i)
  }

  ghost function Addresses(bs: seq<Buffer>): seq<nat> {
    if bs == [] then [] else Addresses(bs[..|bs| - 1]) + Span(bs[|bs| - 1])
  }

  ghost predicate InMemory(memSize: nat, bs: seq<Buffer>) {
    forall i :: 0 <= i < |bs| ==> bs[i].data + bs[i].size <= memSize
  }

  ghost predicate AllBelow(addrs: seq<nat>, memSize: nat) {
    forall i :: 0 <= i < |addrs| ==> addrs[i] < memSize
  }

  ghost predicate Distinct(addrs: seq<nat>) {
    forall i, j :: 0 <= i < j < |addrs| ==> addrs[i] != addrs[j]
  }

  ghost predicate Disjoint(a: seq<nat>, b: seq<nat>) {
    forall i, j :: 0 <= i < |a| && 0 <= j < |b| ==> a[i] != b[j]
  }

  // `memcpy` is only defined between regions that do not overlap. Sources may overlap sources, and targets targets.
  ghost predicate CopyAllowed(memSize: nat, target: seq<Buffer>, source: seq<Buffer>) {
    && InMemory(memSize, target) && InMemory(memSize, source)
    && Disjoint(Addresses(target), Addresses(source))
  }

  // The bytes at a list of addresses.
  ghost function Load(m: seq<byte>, addrs: seq<nat>): (r: seq<byte>)
    requires AllBelow(addrs, |m|)
    ensures |r| == |addrs|
  {
    seq(|addrs|, i requires 0 <= i < |addrs| => m[addrs[i]])
  }

  // Memory after storing `vals` at `addrs`, last address last.
  ghost function Store(m: seq<byte>, addrs: seq<nat>, vals: seq<byte>): (r: seq<byte>)
    requires |addrs| == |vals| && AllBelow(addrs, |m|)
    ensures |r| == |m|
  {
    if addrs == [] then m
    else
      var n := |addrs| - 1;
      Store(m, addrs[..n], vals[..n])[addrs[n] := vals[n]]
  }

  // The one assignment every overload of `buffer_copy` performs.
  ghost function Copied(m: seq<byte>, to: seq<nat>, from: seq<nat>, n: nat): seq<byte>
    requires n <= |to| && n <= |from| && AllBelow(to, |m|) && AllBelow(from, |m|)
  {
    Store(m, to[..n], Load(m, from[..n]))
  }

  /** `b + start` covers what `b` covers from `start` on, and a limited buffer a prefix of it. */
  lemma DerivedBuffers(b: Buffer, n: nat)
    ensures Span(Offset(b, n)) == if n <= b.size then Span(b)[n..] else []
    ensures Span(Limited(b, n)) == Span(b)[..Min(b.size, n)]
  {}

  // ---- Facts about addresses -----------------------------------------------------------------------------

  lemma {:induction false} AddressesInMemory(memSize: nat, bs: seq<Buffer>)
    requires InMemory(memSize, bs)
    ensures AllBelow(Addresses(bs), memSize)
  {
    if bs != [] {
      AddressesInMemory(memSize, bs[..|bs| - 1]);
    }
  }

  lemma AddressesOfOne(b: Buffer)
    ensures Addresses([b]) == Span(b)
  {
    assert Addresses([b]) == Addresses([]) + Span(b);
  }

  lemma SpanDistinct(b: Buffer)
    ensures Distinct(Span(b))
  {}

  // `rest` is a part of the addresses, starting after the first `done`.
  ghost predicate PartAfter(rest: seq<nat>, all: seq<nat>, done: nat) {
    done + |rest| <= |all| && rest == all[done..done + |rest|]
  }

  lemma PartOfPart(part: seq<nat>, all: seq<nat>, done: nat, i: nat)
    requires PartAfter(part, all, done) && i <= |part|
    ensures PartAfter(part[i..], all, done + i)
  {}

  // The first `i` buffers cover a prefix, and buffer `i` the stretch after it.
  lemma {:induction false} AddressesSplit(bs: seq<Buffer>, i: nat)
    requires i < |bs|
    ensures |Addresses(bs[..i])| + bs[i].size == |Addresses(bs[..i + 1])| <= |Addresses(bs)|
    ensures PartAfter(Span(bs[i]), Addresses(bs), |Addresses(bs[..i])|)
    decreases |bs|
  {
    hide Span;
    var n := |bs| - 1;
    assert bs[..i + 1][..i] == bs[..i];
    if i < n {
      AddressesSplit(bs[..n], i);
      assert bs[..n][..i] == bs[..i] && bs[..n][..i + 1] == bs[..i + 1];
    } else {
      assert bs[..i + 1] == bs;
    }
  }

  // ---- Facts about memory ------------------------------------------------------------------------------------

  lemma {:induction false} StoreAt(m: seq<byte>, addrs: seq<nat>, vals: seq<byte>)
    requires |addrs| == |vals| && AllBelow(addrs, |m|)
    ensures forall a :: 0 <= a < |m| && a !in addrs ==> Store(m, addrs, vals)[a] == m[a]
    ensures Distinct(addrs) ==> Load(Store(m, addrs, vals), addrs) == vals
  {
    if addrs != [] {
      var n := |addrs| - 1;
      StoreAt(m, addrs[..n], vals[..n]);
      var before := Store(m, addrs[..n], vals[..n]);
      var after := Store(m, addrs, vals);
      if Distinct(addrs) {
        assert Load(before, addrs[..n]) == vals[..n];
        forall i | 0 <= i < n
          ensures after[addrs[i]] == vals[i]
        {
          assert Load(before, addrs[..n])[i] == before[addrs[..n][i]];
        }
      }
    }
  }

  lemma {:induction false} StoreAppends(m: seq<byte>, a: seq<nat>, v: seq<byte>, b: seq<nat>, w: seq<byte>)
    requires |a| == |v| && |b| == |w| && AllBelow(a, |m|) && AllBelow(b, |m|)
    ensures AllBelow(a + b, |m|)
    ensures Store(m, a + b, v + w) == Store(Store(m, a, v), b, w)
    decreases |b|
  {
    if b == [] {
      assert a + b == a && v + w == v;
    } else {
      var n := |b| - 1;
      StoreAppends(m, a, v, b[..n], w[..n]);
      assert (a + b)[..|a + b| - 1] == a + b[..n];
      assert (v + w)[..|a + b| - 1] == v + w[..n];
    }
  }

  lemma LoadUnaffected(m: seq<byte>, addrs: seq<nat>, vals: seq<byte>, others: seq<nat>)
    requires |addrs| == |vals| && AllBelow(addrs, |m|) && AllBelow(others, |m|) && Disjoint(addrs, others)
    ensures Load(Store(m, addrs, vals), others) == Load(m, others)
  {
    StoreAt(m, addrs, vals);
    forall i | 0 <= i < |others|
      ensures others[i] !in addrs
    {}
  }

  // Copying the next `k` bytes after the first `t` have been copied.
  lemma CopiedExtends(m: seq<byte>, to: seq<nat>, from: seq<nat>, t: nat, k: nat)
    requires t + k <= |to| && t + k <= |from| && AllBelow(to, |m|) && AllBelow(from, |m|) && Disjoint(to, from)
    ensures var mid := Copied(m, to, from, t);
            Store(mid, to[t..t + k], Load(mid, from[t..t + k])) == Copied(m, to, from, t + k)
  {
    var mid := Copied(m, to, from, t);
    assert Load(mid, from[t..t + k]) == Load(m, from[t..t + k]) by {
      LoadUnaffected(m, to[..t], Load(m, from[..t]), from[t..t + k]);
    }
    assert to[..t] + to[t..t + k] == to[..t + k];
    assert Load(m, from[..t]) + Load(m, from[t..t + k]) == Load(m, from[..t + k]);
    StoreAppends(m, to[..t], Load(m, from[..t]), to[t..t + k], Load(m, from[t..t + k]));
  }

  // ---- The laws of copying -------------------------------------------------------------------------------------

  lemma CopiedAt(m: seq<byte>, to: seq<nat>, from: seq<nat>, n: nat, a: nat)
    requires n <= |to| && n <= |from| && AllBelow(to, |m|) && AllBelow(from, |m|) && a < |m|
    ensures a !in to[..n] ==> Copied(m, to, from, n)[a] == m[a]
    ensures forall i :: Distinct(to) && 0 <= i < n && to[i] == a ==> Copied(m, to, from, n)[a] == m[from[i]]
  {
    var addrs, vals := to[..n], Load(m, from[..n]);
    StoreAt(m, addrs, vals);
    forall i | Distinct(to) && 0 <= i < n && to[i] == a
      ensures Copied(m, to, from, n)[a] == m[from[i]]
    {
      assert Distinct(addrs);
      assert Load(Store(m, addrs, vals), addrs)[i] == vals[i];
    }
  }

  /**
   * What a copy of `n` bytes does to the flattened target, to the flattened source and to the rest of memory:
   * the target starts with the source's first `n` bytes, its other bytes and every other address stay.
   * No address may be named twice by the target, or "the flattened target" would not be well defined.
   */
  lemma CopyMeaning(m: seq<byte>, target: seq<Buffer>, source: seq<Buffer>, n: nat)
    requires CopyAllowed(|m|, target, source) && n <= |Addresses(target)| && n <= |Addresses(source)|
    requires Distinct(Addresses(target))
    ensures AllBelow(Addresses(target), |m|) && AllBelow(Addresses(source), |m|)
    ensures var after := Copied(m, Addresses(target), Addresses(source), n);
            && Load(after, Addresses(target)) == Load(m, Addresses(source))[..n] + Load(m, Addresses(target))[n..]
            && Load(after, Addresses(source)) == Load(m, Addresses(source))
            && (forall a :: 0 <= a < |m| && a !in Addresses(target)[..n] ==> after[a] == m[a])
  {
    AddressesInMemory(|m|, target);
    AddressesInMemory(|m|, source);
    CopyMeaningOnAddresses(m, Addresses(target), Addresses(source), n);
  }

  lemma CopyMeaningOnAddresses(m: seq<byte>, to: seq<nat>, from: seq<nat>, n: nat)
    requires n <= |to| && n <= |from| && AllBelow(to, |m|) && AllBelow(from, |m|)
    requires Distinct(to) && Disjoint(to, from)
    ensures var after := Copied(m, to, from, n);
            && Load(after, to) == Load(m, from)[..n] + Load(m, to)[n..]
            && Load(after, from) == Load(m, from)
            && (forall a :: 0 <= a < |m| && a !in to[..n] ==> after[a] == m[a])
  {
    var after := Copied(m, to, from, n);
    forall i | 0 <= i < |to|
      ensures after[to[i]] == if i < n then m[from[i]] else m[to[i]]
    {
      CopiedAt(m, to, from, n, to[i]);
    }
    assert Load(after, to) == Load(m, from)[..n] + Load(m, to)[n..];
    LoadUnaffected(m, to[..n], Load(m, from[..n]), from);
    forall a | 0 <= a < |m| && a !in to[..n]
      ensures after[a] == m[a]
    {
      CopiedAt(m, to, from, n, a);
    }
  }

  /**
   * Gathering a buffer sequence into one region of its total size and scattering that region into any
   * sequence of the same total size gives every byte back; scattering into the original list restores it.
   */
  lemma GatherScatter(m: seq<byte>, source: seq<Buffer>, vec: Buffer, target: seq<Buffer>)
    requires vec.size == |Addresses(source)| == |Addresses(target)|
    requires CopyAllowed(|m|, [vec], source) && CopyAllowed(|m|, target, [vec]) && Distinct(Addresses(target))
    ensures AllBelow(Addresses(source), |m|) && AllBelow(Addresses(target), |m|) && AllBelow(Span(vec), |m|)
    ensures var gathered := Copied(m, Span(vec), Addresses(source), vec.size);
            var scattered := Copied(gathered, Addresses(target), Span(vec), vec.size);
            && Load(scattered, Addresses(target)) == Load(m, Addresses(source))
            && (target == source ==> forall a :: 0 <= a < |m| && a !in Span(vec) ==> scattered[a] == m[a])
  {
    SpanDistinct(vec);
    hide Distinct, Disjoint, InMemory, AllBelow, Addresses, Store;
    AddressesOfOne(vec);
    var n := vec.size;
    CopyMeaning(m, [vec], source, n);
    var gathered := Copied(m, Span(vec), Addresses(source), n);
    CopyMeaning(gathered, target, [vec], n);
    var scattered := Copied(gathered, Addresses(target), Span(vec), n);
    assert Load(gathered, Span(vec)) == Load(m, Addresses(source));
    assert Load(scattered, Addresses(target)) == Load(m, Addresses(source));
    if target == source {
      SameLoadSameMemory(m, gathered, scattered, Addresses(source), Span(vec));
    }
  }

  lemma SameLoadSameMemory(m: seq<byte>, gathered: seq<byte>, scattered: seq<byte>, addrs: seq<nat>, spare: seq<nat>)
    requires |m| == |gathered| == |scattered| && AllBelow(addrs, |m|)
    requires Load(scattered, addrs) == Load(m, addrs)
    requires forall a :: 0 <= a < |m| && a !in spare[..|spare|] ==> gathered[a] == m[a]
    requires forall a :: 0 <= a < |m| && a !in addrs[..|addrs|] ==> scattered[a] == gathered[a]
    ensures forall a :: 0 <= a < |m| && a !in spare ==> scattered[a] == m[a]
  {
    assert spare[..|spare|] == spare && addrs[..|addrs|] == addrs;
    forall a | 0 <= a < |m| && a !in spare
      ensures scattered[a] == m[a]
    {
      if a in addrs {
        var i :| 0 <= i < |addrs| && addrs[i] == a;
        assert Load(scattered, addrs)[i] == Load(m, addrs)[i];
      }
    }
  }

  // ---- buffer.hpp: the operations ----------------------------------------------------------------------------------

  method BufferSize(bs: seq<Buffer>) returns (total: nat)
    ensures total == |Addresses(bs)|
  {
    total := 0;
    var iter := 0;
    while iter != |bs|
      invariant iter <= |bs| && total == |Addresses(bs[..iter])|
    {
      AddressesSplit(bs, iter);
      total := total + bs[iter].size;
      iter := iter + 1;
    }
    assert bs[..iter] == bs;
  }

  // `memcpy`
  method MemCpy(mem: array<byte>, to: nat, from: nat, n: nat)
    requires to + n <= mem.Length && from + n <= mem.Length
    requires to + n <= from || from + n <= to || n == 0
    modifies mem
    ensures mem[to..to + n] == old(mem[from..from + n])
    ensures mem[..to] == old(mem[..to]) && mem[to + n..] == old(mem[to + n..])
  {
    forall i | 0 <= i < n {
      mem[to + i] := mem[from + i];
    }
  }

  lemma Apart(memSize: nat, target: Buffer, source: Buffer, i: nat, j: nat)
    requires CopyAllowed(memSize, [target], [source]) && i < target.size && j < source.size
    ensures target.data + i != source.data + j
  {
    AddressesOfOne(target);
    AddressesOfOne(source);
    assert Span(target)[i] != Span(source)[j];
  }

  lemma DisjointRegions(memSize: nat, target: Buffer, source: Buffer)
    requires CopyAllowed(memSize, [target], [source])
    ensures target.data + target.size <= memSize && source.data + source.size <= memSize
    ensures target.data + target.size <= source.data || source.data + source.size <= target.data
            || target.size == 0 || source.size == 0
    ensures AllBelow(Span(target), memSize) && AllBelow(Span(source), memSize)
  {
    assert [target][0] == target && [source][0] == source;
    var a := if target.data < source.data then source.data else target.data;
    if a < target.data + target.size && a < source.data + source.size {
      Apart(memSize, target, source, a - target.data, a - source.data);
    }
  }

  lemma CopiedRegion(m: seq<byte>, target: Buffer, source: Buffer, n: nat, after: seq<byte>)
    requires AllBelow(Span(target), |m|) && AllBelow(Span(source), |m|) && n <= target.size && n <= source.size
    requires |after| == |m| && source.data + n <= |m|
    requires target.data + n <= |m|
    requires after[target.data..target.data + n] == m[source.data..source.data + n]
    requires after[..target.data] == m[..target.data] && after[target.data + n..] == m[target.data + n..]
    ensures after == Copied(m, Span(target), Span(source), n)
  {
    SpanDistinct(target);
    hide Distinct, Load, Store;
    forall a | 0 <= a < |m|
      ensures after[a] == Copied(m, Span(target), Span(source), n)[a]
    {
      CopiedAt(m, Span(target), Span(source), n, a);
      if target.data <= a < target.data + n {
        var i := a - target.data;
        assert Span(target)[i] == a && Span(source)[i] == source.data + i;
        assert Copied(m, Span(target), Span(source), n)[a] == m[Span(source)[i]];
        assert after[a] == after[target.data..target.data + n][i] == m[source.data..source.data + n][i];
      } else {
        forall k | 0 <= k < n
          ensures Span(target)[..n][k] != a
        {}
        assert a !in Span(target)[..n];
        if a < target.data {
          assert after[a] == after[..target.data][a];
        } else {
          assert after[a] == after[target.data + n..][a - target.data - n];
        }
      }
    }
  }

  /** One region to one region. */
  method CopyOneToOne(mem: array<byte>, target: Buffer, source: Buffer) returns (n: nat)
    requires CopyAllowed(mem.Length, [target], [source])
    modifies mem
    ensures n == Min(target.size, source.size)
    ensures AllBelow(Span(target), mem.Length) && AllBelow(Span(source), mem.Length)
    ensures mem[..] == Copied(old(mem[..]), Span(target), Span(source), n)
  {
    hide *;
    DisjointRegions(mem.Length, target, source);
    n := if target.size < source.size then target.size else source.size;
    MemCpy(mem, target.data, source.data, n);
    CopiedRegion(old(mem[..]), target, source, n, mem[..]);
  }

  lemma LimitedAllowed(memSize: nat, target: Buffer, source: Buffer, limit: nat)
    requires CopyAllowed(memSize, [target], [source])
    ensures CopyAllowed(memSize, [Limited(target, limit)], [source])
    ensures AllBelow(Span(target), memSize) && Limited(target, limit).size == Min(target.size, limit)
  {
    AddressesOfOne(target);
    AddressesOfOne(source);
    AddressesOfOne(Limited(target, limit));
    DerivedBuffers(target, limit);
    assert [target][0] == target;
  }

  /** One region to one region, at most `limit` bytes. */
  method CopyOneToOneLimited(mem: array<byte>, target: Buffer, source: Buffer, limit: nat) returns (n: nat)
    requires CopyAllowed(mem.Length, [target], [source])
    modifies mem
    ensures n == Min(Min(target.size, source.size), limit)
    ensures AllBelow(Span(target), mem.Length) && AllBelow(Span(source), mem.Length)
    ensures mem[..] == Copied(old(mem[..]), Span(target), Span(source), n)
  {
    LimitedAllowed(mem.Length, target, source, limit);
    n := CopyOneToOne(mem, Limited(target, limit), source);
    DerivedBuffers(target, limit);
    assert Span(Limited(target, limit))[..n] == Span(target)[..n];
  }

  // ---- Scanning a buffer sequence ------------------------------------------------------------------------

  // Where a scan of a buffer sequence stands once `done` bytes have been used.
  ghost predicate ScanAt(bs: seq<Buffer>, iter: nat, offset: nat, done: nat) {
    && iter <= |bs|
    && done == |Addresses(bs[..iter])| + offset
    && (if iter < |bs| then offset <= bs[iter].size else offset == 0)
  }

  lemma ScanBegin(bs: seq<Buffer>)
    ensures ScanAt(bs, 0, 0, 0)
  {}

  lemma ScanAdvances(bs: seq<Buffer>, iter: nat, offset: nat, done: nat, k: nat)
    requires ScanAt(bs, iter, offset, done) && iter < |bs| && k <= Offset(bs[iter], offset).size
    ensures if k == Offset(bs[iter], offset).size then ScanAt(bs, iter + 1, 0, done + k)
            else ScanAt(bs, iter, offset + k, done + k)
  {
    AddressesSplit(bs, iter);
  }

  lemma ScanBounds(bs: seq<Buffer>, iter: nat, offset: nat, done: nat)
    requires ScanAt(bs, iter, offset, done)
    ensures iter <= |bs| && done <= |Addresses(bs)| && (iter == |bs| ==> done == |Addresses(bs)|)
  {
    if iter < |bs| {
      AddressesSplit(bs, iter);
    } else {
      assert bs[..iter] == bs;
    }
  }

  // The first `done` bytes of a permitted copy have been made.
  ghost predicate HasCopied(m0: seq<byte>, m: seq<byte>, target: seq<Buffer>, source: seq<Buffer>, done: nat) {
    && CopyAllowed(|m0|, target, source)
    && AllBelow(Addresses(target), |m0|) && AllBelow(Addresses(source), |m0|)
    && done <= |Addresses(target)| && done <= |Addresses(source)|
    && m == Copied(m0, Addresses(target), Addresses(source), done)
  }

  lemma RegionFits(m0: seq<byte>, m: seq<byte>, target: seq<Buffer>, source: seq<Buffer>, done: nat,
                   bs: seq<Buffer>, iter: nat)
    requires HasCopied(m0, m, target, source, done)
    requires (bs == target || bs == source) && iter < |bs|
    ensures bs[iter].data + bs[iter].size <= |m0| == |m|
  {
    hide Span, Addresses, Distinct, Disjoint, AllBelow, Load, Store;
  }

  lemma RestIsPart(bs: seq<Buffer>, iter: nat, offset: nat, done: nat)
    requires ScanAt(bs, iter, offset, done) && iter < |bs|
    ensures PartAfter(Span(Offset(bs[iter], offset)), Addresses(bs), done)
  {
    hide Span, PartAfter, Offset, Addresses;
    AddressesSplit(bs, iter);
    DerivedBuffers(bs[iter], offset);
    PartOfPart(Span(bs[iter]), Addresses(bs), |Addresses(bs[..iter])|, offset);
  }

  lemma ScanRest(m0: seq<byte>, m: seq<byte>, target: seq<Buffer>, source: seq<Buffer>,
                 bs: seq<Buffer>, iter: nat, offset: nat, done: nat)
    requires HasCopied(m0, m, target, source, done) && (bs == target || bs == source)
    requires ScanAt(bs, iter, offset, done) && iter < |bs|
    ensures var rest := Offset(bs[iter], offset);
            && PartAfter(Span(rest), Addresses(bs), done)
            && rest.data + rest.size <= |m0| == |m|
  {
    hide Span, PartAfter, Addresses, HasCopied;
    RestIsPart(bs, iter, offset, done);
    RegionFits(m0, m, target, source, done, bs, iter);
  }

  lemma HasCopiedBounds(m0: seq<byte>, m: seq<byte>, target: seq<Buffer>, source: seq<Buffer>, done: nat)
    requires HasCopied(m0, m, target, source, done)
    ensures done <= |Addresses(target)| && done <= |Addresses(source)|
  {}

  lemma HasCopiedNothing(m: seq<byte>, target: seq<Buffer>, source: seq<Buffer>)
    requires CopyAllowed(|m|, target, source)
    ensures HasCopied(m, m, target, source, 0)
  {
    AddressesInMemory(|m|, target);
    AddressesInMemory(|m|, source);
  }

  lemma PartsApart(a: seq<nat>, b: seq<nat>, allA: seq<nat>, allB: seq<nat>, done: nat)
    requires PartAfter(a, allA, done) && PartAfter(b, allB, done) && Disjoint(allA, allB)
    ensures Disjoint(a, b)
  {
    forall i, j | 0 <= i < |a| && 0 <= j < |b|
      ensures a[i] != b[j]
    {
      assert allA[done + i] != allB[done + j];
    }
  }

  lemma StepAllowed(m0: seq<byte>, m: seq<byte>, target: seq<Buffer>, source: seq<Buffer>, done: nat,
                    to: Buffer, from: Buffer)
    requires HasCopied(m0, m, target, source, done)
    requires PartAfter(Span(to), Addresses(target), done) && PartAfter(Span(from), Addresses(source), done)
    requires to.data + to.size <= |m0| && from.data + from.size <= |m0|
    ensures CopyAllowed(|m|, [to], [from])
  {
    hide Span, Addresses, Distinct, Disjoint, AllBelow, PartAfter;
    AddressesOfOne(to);
    AddressesOfOne(from);
    PartsApart(Span(to), Span(from), Addresses(target), Addresses(source), done);
  }

  lemma PartBelow(part: seq<nat>, all: seq<nat>, done: nat, memSize: nat)
    requires PartAfter(part, all, done) && AllBelow(all, memSize)
    ensures AllBelow(part, memSize)
    ensures forall k :: 0 <= k <= |part| ==> part[..k] == all[done..done + k]
  {}

  lemma HasCopiedStep(m0: seq<byte>, m: seq<byte>, target: seq<Buffer>, source: seq<Buffer>, done: nat,
                     to: Buffer, from: Buffer, k: nat)
    requires HasCopied(m0, m, target, source, done)
    requires PartAfter(Span(to), Addresses(target), done) && PartAfter(Span(from), Addresses(source), done)
    requires k <= to.size && k <= from.size
    ensures AllBelow(Span(to), |m|) && AllBelow(Span(from), |m|)
    ensures HasCopied(m0, Copied(m, Span(to), Span(from), k), target, source, done + k)
  {
    hide Span, Addresses, Distinct, Disjoint, AllBelow, InMemory, Load, Store;
    var ta, fa := Addresses(target), Addresses(source);
    PartBelow(Span(to), ta, done, |m0|);
    PartBelow(Span(from), fa, done, |m0|);
    assert Span(to)[..k] == ta[done..done + k];
    assert Span(from)[..k] == fa[done..done + k];
    CopiedExtends(m0, ta, fa, done, k);
  }

  // ---- buffer.hpp: copying between sequences ---------------------------------------------------------------
  //
  // The methods hide the definitions above; each round is justified by the lemmas alone.

  lemma OffsetFacts(b: Buffer, i: nat, k: nat)
    requires i + k <= b.size
    ensures Offset(b, 0) == b && Offset(Offset(b, i), k) == Offset(b, i + k) && Offset(b, i).size == b.size - i
    ensures Addresses([b]) == Span(b)
    ensures ScanAt([b], 0, i, i)
  {
    AddressesOfOne(b);
  }

  /** A buffer sequence to one region. */
  method CopyToOne(mem: array<byte>, target: Buffer, source: seq<Buffer>) returns (totalCopied: nat)
    requires CopyAllowed(mem.Length, [target], source)
    modifies mem
    ensures totalCopied == Min(|Addresses([target])|, |Addresses(source)|)
    ensures HasCopied(old(mem[..]), mem[..], [target], source, totalCopied)
  {
    hide *;
    HasCopiedNothing(mem[..], [target], source);
    ScanBegin(source);
    OffsetFacts(target, 0, 0);
    totalCopied := 0;
    var sourceIter := 0;
    var targetBuffer := target;
    while targetBuffer.size != 0 && sourceIter != |source|
      invariant sourceIter <= |source| && totalCopied <= target.size
      invariant targetBuffer == Offset(target, totalCopied)
      invariant targetBuffer.size != 0 ==> ScanAt(source, sourceIter, 0, totalCopied)
      invariant HasCopied(old(mem[..]), mem[..], [target], source, totalCopied)
      decreases |source| - sourceIter
    {
      var sourceBuffer := source[sourceIter];
      OffsetFacts(sourceBuffer, 0, 0);
      OffsetFacts(target, totalCopied, 0);
      ScanRest(old(mem[..]), mem[..], [target], source, source, sourceIter, 0, totalCopied);
      ScanRest(old(mem[..]), mem[..], [target], source, [target], 0, totalCopied, totalCopied);
      StepAllowed(old(mem[..]), mem[..], [target], source, totalCopied, targetBuffer, sourceBuffer);
      ghost var before := mem[..];
      var copied := CopyOneToOne(mem, targetBuffer, sourceBuffer);
      HasCopiedStep(old(mem[..]), before, [target], source, totalCopied, targetBuffer, sourceBuffer, copied);
      ScanAdvances(source, sourceIter, 0, totalCopied, copied);
      OffsetFacts(target, totalCopied, copied);
      OffsetFacts(target, totalCopied + copied, 0);
      totalCopied := totalCopied + copied;
      targetBuffer := Offset(targetBuffer, copied);
      sourceIter := sourceIter + 1;
    }
    OffsetFacts(target, totalCopied, 0);
    HasCopiedBounds(old(mem[..]), mem[..], [target], source, totalCopied);
    if targetBuffer.size != 0 {
      ScanBounds(source, sourceIter, 0, totalCopied);
    }
  }

  /** One region to a buffer sequence. */
  method CopyFromOne(mem: array<byte>, target: seq<Buffer>, source: Buffer) returns (totalCopied: nat)
    requires CopyAllowed(mem.Length, target, [source])
    modifies mem
    ensures totalCopied == Min(|Addresses(target)|, |Addresses([source])|)
    ensures HasCopied(old(mem[..]), mem[..], target, [source], totalCopied)
  {
    hide *;
    HasCopiedNothing(mem[..], target, [source]);
    ScanBegin(target);
    OffsetFacts(source, 0, 0);
    totalCopied := 0;
    var targetIter := 0;
    var sourceBuffer := source;
    while sourceBuffer.size != 0 && targetIter != |target|
      invariant targetIter <= |target| && totalCopied <= source.size
      invariant sourceBuffer == Offset(source, totalCopied)
      invariant sourceBuffer.size != 0 ==> ScanAt(target, targetIter, 0, totalCopied)
      invariant HasCopied(old(mem[..]), mem[..], target, [source], totalCopied)
      decreases |target| - targetIter
    {
      var targetBuffer := target[targetIter];
      OffsetFacts(targetBuffer, 0, 0);
      OffsetFacts(source, totalCopied, 0);
      ScanRest(old(mem[..]), mem[..], target, [source], target, targetIter, 0, totalCopied);
      ScanRest(old(mem[..]), mem[..], target, [source], [source], 0, totalCopied, totalCopied);
      StepAllowed(old(mem[..]), mem[..], target, [source], totalCopied, targetBuffer, sourceBuffer);
      ghost var before := mem[..];
      var copied := CopyOneToOne(mem, targetBuffer, sourceBuffer);
      HasCopiedStep(old(mem[..]), before, target, [source], totalCopied, targetBuffer, sourceBuffer, copied);
      ScanAdvances(target, targetIter, 0, totalCopied, copied);
      OffsetFacts(source, totalCopied, copied);
      OffsetFacts(source, totalCopied + copied, 0);
      totalCopied := totalCopied + copied;
      sourceBuffer := Offset(sourceBuffer, copied);
      targetIter := targetIter + 1;
    }
    OffsetFacts(source, totalCopied, 0);
    HasCopiedBounds(old(mem[..]), mem[..], target, [source], totalCopied);
    if sourceBuffer.size != 0 {
      ScanBounds(target, targetIter, 0, totalCopied);
    }
  }

  /** A buffer sequence to a buffer sequence. Terminates although a round may copy no byte. */
  method CopySeqToSeq(mem: array<byte>, target: seq<Buffer>, source: seq<Buffer>) returns (totalCopied: nat)
    requires CopyAllowed(mem.Length, target, source)
    modifies mem
    ensures totalCopied == Min(|Addresses(target)|, |Addresses(source)|)
    ensures HasCopied(old(mem[..]), mem[..], target, source, totalCopied)
  {
    hide *;
    HasCopiedNothing(mem[..], target, source);
    ScanBegin(target);
    ScanBegin(source);
    totalCopied := 0;
    var targetIter, targetOffset := 0, 0;
    var sourceIter, sourceOffset := 0, 0;
    while targetIter != |target| && sourceIter != |source|
      invariant targetIter <= |target| && sourceIter <= |source|
      invariant ScanAt(target, targetIter, targetOffset, totalCopied)
      invariant ScanAt(source, sourceIter, sourceOffset, totalCopied)
      invariant HasCopied(old(mem[..]), mem[..], target, source, totalCopied)
      decreases |target| - targetIter + |source| - sourceIter
    {
      var targetBuffer := Offset(target[targetIter], targetOffset);
      var sourceBuffer := Offset(source[sourceIter], sourceOffset);
      ScanRest(old(mem[..]), mem[..], target, source, target, targetIter, targetOffset, totalCopied);
      ScanRest(old(mem[..]), mem[..], target, source, source, sourceIter, sourceOffset, totalCopied);
      StepAllowed(old(mem[..]), mem[..], target, source, totalCopied, targetBuffer, sourceBuffer);
      ghost var before := mem[..];
      var copied := CopyOneToOne(mem, targetBuffer, sourceBuffer);
      HasCopiedStep(old(mem[..]), before, target, source, totalCopied, targetBuffer, sourceBuffer, copied);
      ScanAdvances(target, targetIter, targetOffset, totalCopied, copied);
      ScanAdvances(source, sourceIter, sourceOffset, totalCopied, copied);
      totalCopied := totalCopied + copied;

      if copied == targetBuffer.size {
        targetIter := targetIter + 1;
        targetOffset := 0;
      } else {
        targetOffset := targetOffset + copied;
      }

      if copied == sourceBuffer.size {
        sourceIter := sourceIter + 1;
        sourceOffset := 0;
      } else {
        sourceOffset := sourceOffset + copied;
      }
    }
    ScanBounds(target, targetIter, targetOffset, totalCopied);
    ScanBounds(source, sourceIter, sourceOffset, totalCopied);
  }

  /** A buffer sequence to a buffer sequence, at most `limit` bytes. */
  method CopySeqToSeqLimited(mem: array<byte>, target: seq<Buffer>, source: seq<Buffer>, limit: nat)
    returns (totalCopied: nat)
    requires CopyAllowed(mem.Length, target, source)
    modifies mem
    ensures totalCopied == Min(Min(|Addresses(target)|, |Addresses(source)|), limit)
    ensures HasCopied(old(mem[..]), mem[..], target, source, totalCopied)
  {
    hide *;
    HasCopiedNothing(mem[..], target, source);
    ScanBegin(target);
    ScanBegin(source);
    totalCopied := 0;
    var targetIter, targetOffset := 0, 0;
    var sourceIter, sourceOffset := 0, 0;
    while totalCopied != limit && targetIter != |target| && sourceIter != |source|
      invariant targetIter <= |target| && sourceIter <= |source|
      invariant totalCopied <= limit
      invariant ScanAt(target, targetIter, targetOffset, totalCopied)
      invariant ScanAt(source, sourceIter, sourceOffset, totalCopied)
      invariant HasCopied(old(mem[..]), mem[..], target, source, totalCopied)
      // Each round finishes a target or a source buffer, or else uses up the limit.
      decreases |target| - targetIter + |source| - sourceIter, limit - totalCopied
    {
      var targetBuffer := Offset(target[targetIter], targetOffset);
      var sourceBuffer := Offset(source[sourceIter], sourceOffset);
      ScanRest(old(mem[..]), mem[..], target, source, target, targetIter, targetOffset, totalCopied);
      ScanRest(old(mem[..]), mem[..], target, source, source, sourceIter, sourceOffset, totalCopied);
      StepAllowed(old(mem[..]), mem[..], target, source, totalCopied, targetBuffer, sourceBuffer);
      ghost var before := mem[..];
      var copied :=
        CopyOneToOneLimited(mem, targetBuffer, sourceBuffer, limit - totalCopied);
      HasCopiedStep(old(mem[..]), before, target, source, totalCopied, targetBuffer, sourceBuffer, copied);
      ScanAdvances(target, targetIter, targetOffset, totalCopied, copied);
      ScanAdvances(source, sourceIter, sourceOffset, totalCopied, copied);
      totalCopied := totalCopied + copied;

      if copied == targetBuffer.size {
        targetIter := targetIter + 1;
        targetOffset := 0;
      } else {
        targetOffset := targetOffset + copied;
      }

      if copied == sourceBuffer.size {
        sourceIter := sourceIter + 1;
        sourceOffset := 0;
      } else {
        sourceOffset := sourceOffset + copied;
      }
    }
    ScanBounds(target, targetIter, targetOffset, totalCopied);
    ScanBounds(source, sourceIter, sourceOffset, totalCopied);
  }
}
