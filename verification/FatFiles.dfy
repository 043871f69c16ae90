// Files: reading and splicing along a chain, growing and freeing chains.

module FatFiles {
  import opened Basics
  import opened FatBytes
  import opened FatVolume
  import opened FatChains
  import opened FatDriver

  /** Index in the chain where a request at offset starts, in the driver's 16-bit arithmetic. */
  function SkipOf(offset: nat, cs: nat): nat
    requires cs > 0
  {
    Rest(Quot(offset, cs), 0x1_0000)
  }

  /** Position in the chain's bytes where a request at offset starts. */
  function StartOf(offset: nat, cs: nat): nat
    requires cs > 0
  {
    Times(SkipOf(offset, cs), cs) + Rest(offset, cs)
  }

  /** Chains shorter than 65536 clusters are entered where they should be. */
  lemma {:induction false} StartIsOffset(offset: nat, cs: nat, n: nat)
    requires cs > 0 && offset < Times(n, cs) && n <= 0x1_0000
    ensures StartOf(offset, cs) == offset && SkipOf(offset, cs) < n
  {
    QuotRest(offset, cs);
    if n <= Quot(offset, cs) {
      TimesLe(n, Quot(offset, cs), cs);
    }
  }

  /** Past the last cluster of a chain, and no further than 65536 clusters, no chain is entered. */
  lemma PastChain(offset: nat, cs: nat, n: nat)
    requires cs > 0 && Times(n, cs) <= offset < Times(0x1_0000, cs)
    ensures SkipOf(offset, cs) >= n
  {
    StartIsOffset(offset, cs, 0x1_0000);
    if SkipOf(offset, cs) < n {
      TimesLe(SkipOf(offset, cs) + 1, n, cs);
    }
  }

  /** The driver computes both by division. */
  lemma SkipIs(offset: nat, cs: nat)
    requires cs > 0
    ensures SkipOf(offset, cs) == (offset / cs) % 0x1_0000 && Rest(offset, cs) == offset % cs
  {
    DivIs(offset, cs);
    DivIs(offset / cs, 0x1_0000);
  }

  /** What the table says about the k-th cluster of a chain. */
  lemma ChainStep(fat: seq<nat>, n: nat, first: nat, chain: seq<nat>, k: nat)
    requires n + 2 <= BAD && IsChain(fat, n, first, chain) && k < |chain|
    ensures InRange(chain[k], n) && chain[k] < |fat| && chain[k] < BAD
    ensures if k + 1 < |chain| then fat[chain[k]] == chain[k + 1] < BAD else fat[chain[k]] >= BAD
  {
    if k + 1 < |chain| {
      assert InRange(chain[k + 1], n);
    }
  }

  /** The skipping loop shared by reads and writes: skip clusters from the first. */
  method SkipClusters(d: Fat16, first: nat, skip: nat, ghost chain: seq<nat>) returns (cur: nat, ok: bool)
    requires OnDisk(d.disk, d.g) && IsChain(d.V().fat, d.g.clusters, first, chain)
    ensures ok <==> skip < |chain|
    ensures ok ==> cur == chain[skip]
  {
    cur := first;
    var i := 0;
    while i < skip
      invariant 0 <= i <= skip && i < |chain| && cur == chain[i]
    {
      ChainStep(d.V().fat, d.g.clusters, first, chain, i);
      cur := d.NextCluster(cur);
      if cur >= BAD {
        return cur, false;
      }
      i := i + 1;
    }
    ok := true;
  }

  /** Where a walk along a chain is: at byte at, which is off bytes into the k-th cluster. */
  ghost predicate At(chain: seq<nat>, cs: nat, k: nat, off: nat, at: nat, cur: nat) {
    k <= |chain| && off < cs && at == Times(k, cs) + off &&
    (if k < |chain| then cur == chain[k] else cur >= BAD && off == 0)
  }

  lemma AtBounds(data: seq<seq<Byte>>, chain: seq<nat>, cs: nat, k: nat, off: nat, at: nat, cur: nat)
    requires At(chain, cs, k, off, at, cur) && Holds(chain, |data|) && Sized(data, cs)
    ensures |Gather(data, chain)| == Times(|chain|, cs) && at <= Times(|chain|, cs)
    ensures k < |chain| ==> at + (cs - off) == Times(k + 1, cs) <= Times(|chain|, cs)
    ensures k == |chain| ==> at == Times(|chain|, cs)
  {
    GatherLength(data, chain, cs);
    TimesLe(k, |chain|, cs);
    if k < |chain| {
      TimesLe(k + 1, |chain|, cs);
    }
  }

  /** The chain's clusters hold these bytes. */
  ghost predicate Holding(v: Vol, chain: seq<nat>, bytes: seq<Byte>) {
    Holds(chain, |v.data|) && Gather(v.data, chain) == bytes
  }

  /** Part of a cluster is part of the chain's bytes. */
  lemma HeldSlice(v: Vol, chain: seq<nat>, bytes: seq<Byte>, cs: nat, k: nat, off: nat, count: nat, at: nat)
    requires Holding(v, chain, bytes) && Sized(v.data, cs) && k < |chain| && off + count <= cs
    requires at == Times(k, cs) + off
    ensures at + count <= |bytes| && bytes[at..at + count] == v.data[chain[k] - 2][off..off + count]
  {
    GatherSlice(v.data, chain, cs, k, off, count);
  }

  /** Bytes of the k-th cluster of a chain. */
  method ReadPart(d: Fat16, entry: nat, off: nat, count: nat, ghost chain: seq<nat>, ghost bytes: seq<Byte>,
      ghost k: nat, ghost at: nat) returns (piece: seq<Byte>)
    requires OnDisk(d.disk, d.g) && Holding(d.V(), chain, bytes) && k < |chain| && entry == chain[k]
    requires off + count <= d.g.ClusterSize() && at == Times(k, d.g.ClusterSize()) + off
    ensures |piece| == count && at + count <= |bytes| && piece == bytes[at..at + count]
  {
    HeldSlice(d.V(), chain, bytes, d.g.ClusterSize(), k, off, count, at);
    assert InRange(entry, d.g.clusters);
    piece := d.CopyOut(entry, off, count);
  }

  /** One turn of the outer loop of fat16_file_read: at most left bytes, at most to the end of the cluster. */
  method ReadStep(d: Fat16, entry: nat, entryOff: nat, left: nat, ghost first: nat, ghost chain: seq<nat>,
      ghost bytes: seq<Byte>,
                  ghost k: nat, ghost at: nat)
    returns (piece: seq<Byte>, cur: nat, off: nat, ghost k': nat)
    requires OnDisk(d.disk, d.g) && IsChain(d.V().fat, d.g.clusters, first, chain) && Holding(d.V(), chain, bytes)
    requires k < |chain| && At(chain, d.g.ClusterSize(), k, entryOff, at, entry)
    ensures at + |piece| <= |bytes| && piece == bytes[at..at + |piece|]
    ensures |piece| == Min(left, d.g.ClusterSize() - entryOff)
    ensures At(chain, d.g.ClusterSize(), k', off, at + |piece|, cur)
  {
    var cs := d.g.ClusterSize();
    var count := if left > cs - entryOff then cs - entryOff else left;
    piece := ReadPart(d, entry, entryOff, count, chain, bytes, k, at);
    cur, off, k' := MoveOn(d, entry, entryOff + count, first, chain, k, at + count);
  }

  /** The walk moves to off in the k-th cluster, and to the next cluster when that is its end. */
  method MoveOn(d: Fat16, entry: nat, end: nat, ghost first: nat, ghost chain: seq<nat>, ghost k: nat, ghost at: nat)
    returns (cur: nat, off: nat, ghost k': nat)
    requires OnDisk(d.disk, d.g) && IsChain(d.V().fat, d.g.clusters, first, chain)
    requires k < |chain| && entry == chain[k] && end <= d.g.ClusterSize() && at == Times(k, d.g.ClusterSize()) + end
    ensures At(chain, d.g.ClusterSize(), k', off, at, cur)
  {
    cur, off, k' := entry, end, k;
    if off >= d.g.ClusterSize() {
      ChainStep(d.V().fat, d.g.clusters, first, chain, k);
      off := 0;
      cur := d.NextCluster(cur);
      k' := k + 1;
    }
  }

  /** A walk that has not run out is on a cluster. */
  lemma StillOn(fat: seq<nat>, n: nat, first: nat, chain: seq<nat>, cs: nat, k: nat, off: nat, at: nat, cur: nat)
    requires n + 2 <= BAD && IsChain(fat, n, first, chain) && At(chain, cs, k, off, at, cur)
    ensures cur < BAD <==> k < |chain|
    ensures cur >= BAD ==> at == Times(|chain|, cs)
  {
    if k < |chain| {
      ChainStep(fat, n, first, chain, k);
    }
  }

  /** A read that started at byte start of the chain: what it has, and where it is. */
  ghost predicate HasRead(chain: seq<nat>, cs: nat, bytes: seq<Byte>, start: nat, buf: seq<Byte>, k: nat, off: nat,
      cur: nat)
  {
    start + |buf| <= |bytes| && buf == bytes[start..start + |buf|] && At(chain, cs, k, off, start + |buf|, cur)
  }

  /** One turn of the outer loop of fat16_file_read. */
  method ReadMore(d: Fat16, entry: nat, entryOff: nat, old_: seq<Byte>, want: nat, ghost first: nat,
      ghost chain: seq<nat>, ghost bytes: seq<Byte>, ghost start: nat, ghost k: nat)
    returns (buf: seq<Byte>, cur: nat, off: nat, ghost k': nat)
    requires OnDisk(d.disk, d.g) && IsChain(d.V().fat, d.g.clusters, first, chain) && Holding(d.V(), chain, bytes)
    requires HasRead(chain, d.g.ClusterSize(), bytes, start, old_, k, entryOff, entry) && |old_| < want && entry < BAD
    ensures HasRead(chain, d.g.ClusterSize(), bytes, start, buf, k', off, cur) && |old_| < |buf| <= want
  {
    var piece;
    StillOn(d.V().fat, d.g.clusters, first, chain, d.g.ClusterSize(), k, entryOff, start + |old_|, entry);
    piece, cur, off, k' := ReadStep(d, entry, entryOff, want - |old_|, first, chain, bytes, k, start + |old_|);
    JoinSlices(bytes, start, start + |old_|, start + |old_| + |piece|);
    buf := old_ + piece;
  }

  /** The outer loop of fat16_file_read, entered at byte start of the chain. */
  method ReadRun(d: Fat16, entry: nat, entryOff: nat, want: nat, ghost first: nat, ghost chain: seq<nat>,
      ghost bytes: seq<Byte>, ghost k0: nat, ghost start: nat)
    returns (buf: seq<Byte>)
    requires OnDisk(d.disk, d.g) && IsChain(d.V().fat, d.g.clusters, first, chain) && Holding(d.V(), chain, bytes)
    requires At(chain, d.g.ClusterSize(), k0, entryOff, start, entry)
    requires start <= |bytes| == Times(|chain|, d.g.ClusterSize())
    ensures |buf| == Min(want, |bytes| - start) && buf == bytes[start..start + |buf|]
  {
    ghost var k: nat := k0;
    var cur: nat, off: nat := entry, entryOff;
    buf := [];
    while |buf| < want && cur < BAD
      invariant |buf| <= want && HasRead(chain, d.g.ClusterSize(), bytes, start, buf, k, off, cur)
      decreases want - |buf|
    {
      buf, cur, off, k := ReadMore(d, cur, off, buf, want, first, chain, bytes, start, k);
    }
    StillOn(d.V().fat, d.g.clusters, first, chain, d.g.ClusterSize(), k, off, start + |buf|, cur);
  }

  /**
    What a read gives: nothing at or past the end, -1 when the chain ends before
    the offset, and otherwise a slice of the chain's bytes, cut at the file size
    and at the end of the chain.
   */
  ghost predicate ReadResult(bytes: seq<Byte>, clusters: nat, cs: nat, size: nat, offset: nat, len: nat, n: int,
      buf: seq<Byte>)
    requires cs > 0
  {
    if offset >= size then n == 0 && buf == []
    else if SkipOf(offset, cs) >= clusters then n == -1 && buf == []
    else
      var start := StartOf(offset, cs);
      start <= |bytes| && n == |buf| == Min(Min(len, size - offset), |bytes| - start) && buf == bytes[start..start + n]
  }

  /** fat16_file_read.  n is the byte count, or -1 when the chain ends before the offset. */
  method FileRead(d: Fat16, first: nat, size: nat, offset: nat, len: nat, ghost chain: seq<nat>, ghost bytes: seq<Byte>)
    returns (n: int, buf: seq<Byte>)
    requires OnDisk(d.disk, d.g)
    requires size > 0 ==> IsChain(d.V().fat, d.g.clusters, first, chain) && Holding(d.V(), chain, bytes)
    ensures ReadResult(bytes, |chain|, d.g.ClusterSize(), size, offset, len, n, buf)
  {
    if offset >= size {
      return 0, [];
    }
    var want := if len > size - offset then size - offset else len;
    var cs := d.g.ClusterSize();
    SkipIs(offset, cs);
    var cur, ok := SkipClusters(d, first, (offset / cs) % 0x1_0000, chain);
    if !ok {
      return -1, [];
    }
    ghost var k, start := SkipOf(offset, cs), StartOf(offset, cs);
    AtBounds(d.V().data, chain, cs, k, offset % cs, start, cur);
    buf := ReadRun(d, cur, offset % cs, want, first, chain, bytes, k, start);
    n := |buf|;
  }

  // ---------------------------------------------------------------------
  // Splicing

  /** The volume differs only in clusters of the chain. */
  ghost predicate OnlyChain(v: Vol, v': Vol, chain: seq<nat>)
    requires |v'.data| == |v.data|
  {
    v'.fat == v.fat && v'.slots == v.slots &&
    forall c {:trigger v'.data[c - 2]} :: InRange(c, |v.data|) && c !in chain ==> v'.data[c - 2] == v.data[c - 2]
  }

  /** One turn of the outer loop of fat16_file_write; the next cluster is looked up only if more is to come. */
  method WriteStep(d: Fat16, entry: nat, entryOff: nat, bytes: seq<Byte>, written: nat, ghost first: nat,
      ghost chain: seq<nat>,
                   ghost before: seq<Byte>, ghost start: nat, ghost k: nat)
    returns (count: nat, cur: nat, off: nat, ghost k': nat)
    requires d.Formatted() && IsChain(d.V().fat, d.g.clusters, first, chain) && written < |bytes| &&
             start + written <= |before|
    requires Holding(d.V(), chain, Splice(before, start, bytes[..written]))
    requires k < |chain| && At(chain, d.g.ClusterSize(), k, entryOff, start + written, entry)
    modifies d
    ensures d.Formatted() && OnlyChain(old(d.V()), d.V(), chain)
    ensures 0 < count <= |bytes| - written && start + written + count <= |before|
    ensures Holding(d.V(), chain, Splice(before, start, bytes[..written + count]))
    ensures written + count < |bytes| ==> At(chain, d.g.ClusterSize(), k', off, start + written + count, cur)
  {
    var cs := d.g.ClusterSize();
    ChainStep(d.V().fat, d.g.clusters, first, chain, k);
    count := if |bytes| - written > cs - entryOff then cs - entryOff else |bytes| - written;
    WritePart(d, entry, entryOff, bytes, written, count, first, chain, before, start, k);
    cur, off, k' := entry, 0, k;
    if written + count < |bytes| {
      cur := d.NextCluster(cur);
      k' := k + 1;
    }
  }

  /** The next bytes into the k-th cluster of a chain. */
  method WritePart(d: Fat16, entry: nat, off: nat, bytes: seq<Byte>, written: nat, count: nat, ghost first: nat,
      ghost chain: seq<nat>, ghost before: seq<Byte>, ghost start: nat, ghost k: nat)
    requires d.Formatted() && IsChain(d.V().fat, d.g.clusters, first, chain) && k < |chain| && entry == chain[k]
    requires written + count <= |bytes| && start + written <= |before| && off + count <= d.g.ClusterSize()
    requires Holding(d.V(), chain, Splice(before, start, bytes[..written]))
    requires start + written == Times(k, d.g.ClusterSize()) + off
    modifies d
    ensures d.Formatted() && OnlyChain(old(d.V()), d.V(), chain) && start + written + count <= |before|
    ensures Holding(d.V(), chain, Splice(before, start, bytes[..written + count]))
  {
    ghost var v := d.V();
    d.CopyIn(entry, off, bytes[written..written + count]);
    StepWritten(v, d.V(), d.g.clusters, first, chain, d.g.ClusterSize(), k, off, bytes, written, count, before, start);
  }

  lemma StepHolds(v: Vol, v': Vol, n: nat, first: nat, chain: seq<nat>, cs: nat, k: nat, off: nat, x: seq<Byte>,
      b: seq<Byte>, at: nat)
    requires n + 2 <= BAD && |v.data| == n && Sized(v.data, cs) && IsChain(v.fat, n, first, chain) && k < |chain|
    requires off + |b| <= cs && at == Times(k, cs) + off && Holding(v, chain, x)
    requires v' == v.(data := v.data[chain[k] - 2 := Splice(v.data[chain[k] - 2], off, b)])
    ensures OnlyChain(v, v', chain) && at + |b| <= |x| && Holding(v', chain, Splice(x, at, b))
  {
    ChainAcyclic(v.fat, n, first, chain);
    ClusterSpliced(v, v', chain, cs, k, off, b, at);
  }

  lemma StepWritten(v: Vol, v': Vol, n: nat, first: nat, chain: seq<nat>, cs: nat, k: nat, off: nat,
                    bytes: seq<Byte>, written: nat, count: nat, before: seq<Byte>, start: nat)
    requires n + 2 <= BAD && |v.data| == n && Sized(v.data, cs) && IsChain(v.fat, n, first, chain) && k < |chain|
    requires written + count <= |bytes| && start + written <= |before| && off + count <= cs
    requires Holding(v, chain, Splice(before, start, bytes[..written])) && start + written == Times(k, cs) + off
    requires v' ==
             v.(data := v.data[chain[k] - 2 := Splice(v.data[chain[k] - 2], off, bytes[written..written + count])])
    ensures start + written + count <= |before|
    ensures OnlyChain(v, v', chain) && Holding(v', chain, Splice(before, start, bytes[..written + count]))
  {
    var x, b := Splice(before, start, bytes[..written]), bytes[written..written + count];
    StepHolds(v, v', n, first, chain, cs, k, off, x, b, start + written);
    SpliceMore(before, start, bytes, written, written + count);
  }

  /** The outer loop of fat16_file_write, entered at byte start of the chain. */
  method WriteRun(d: Fat16, entry: nat, entryOff: nat, bytes: seq<Byte>, ghost first: nat, ghost chain: seq<nat>,
                  ghost before: seq<Byte>, ghost k0: nat, ghost start: nat)
    returns (written: nat)
    requires d.Formatted() && IsChain(d.V().fat, d.g.clusters, first, chain) && Holding(d.V(), chain, before)
    requires k0 < |chain| && At(chain, d.g.ClusterSize(), k0, entryOff, start, entry)
    requires start <= |before| == Times(|chain|, d.g.ClusterSize())
    modifies d
    ensures d.Formatted() && OnlyChain(old(d.V()), d.V(), chain)
    ensures written == Min(|bytes|, |before| - start)
    ensures Holding(d.V(), chain, Splice(before, start, bytes[..written]))
  {
    ghost var v := d.V();
    ghost var k: nat := k0;
    var cur: nat, off: nat := entry, entryOff;
    written := 0;
    while written < |bytes| && cur < BAD
      invariant 0 <= written <= |bytes| && start + written <= |before|
      invariant written < |bytes| ==> At(chain, d.g.ClusterSize(), k, off, start + written, cur)
      invariant d.Formatted() && OnlyChain(v, d.V(), chain)
      invariant Holding(d.V(), chain, Splice(before, start, bytes[..written]))
      decreases |bytes| - written
    {
      var count;
      StillOn(v.fat, d.g.clusters, first, chain, d.g.ClusterSize(), k, off, start + written, cur);
      count, cur, off, k := WriteStep(d, cur, off, bytes, written, first, chain, before, start, k);
      written := written + count;
    }
    if written < |bytes| {
      StillOn(v.fat, d.g.clusters, first, chain, d.g.ClusterSize(), k, off, start + written, cur);
    }
  }

  /** A write inside the k-th cluster seen from the whole chain. */
  lemma {:induction false} ClusterSpliced(w: Vol, w': Vol, chain: seq<nat>, cs: nat, k: nat, off: nat,
                                              b: seq<Byte>, at: nat)
    requires Holds(chain, |w.data|) && Sized(w.data, cs) && Distinct(chain) && k < |chain| && off + |b| <= cs
    requires at == Times(k, cs) + off
    requires w' == w.(data := w.data[chain[k] - 2 := Splice(w.data[chain[k] - 2], off, b)])
    ensures at + |b| <= |Gather(w.data, chain)|
    ensures Gather(w'.data, chain) == Splice(Gather(w.data, chain), at, b)
    ensures forall c {:trigger w'.data[c - 2]} :: InRange(c, |w.data|) && c !in chain ==>
            w'.data[c - 2] == w.data[c - 2]
  {
    forall i | 0 <= i < |chain| && i != k
      ensures w'.data[chain[i] - 2] == w.data[chain[i] - 2]
    {
      assert if i < k then chain[i] != chain[k] else chain[k] != chain[i];
    }
    GatherSplice(w.data, w'.data, chain, cs, k, off, b, at);
    assert chain[k] in chain;
  }

  /** How many bytes fat16_file_write is willing to write; the sum is taken in 32 bits. */
  function Clipped(offset: nat, len: nat, size: nat): nat
    requires offset < size
  {
    if (offset + len) % WORD > size then size - offset else len
  }

  lemma ClippedIsMin(offset: nat, len: nat, size: nat)
    requires offset < size < 0x1_0000_0000 && len < 0x1_0000_0000
    ensures Clipped(offset, len, size) <= len
    ensures Clipped(offset, len, size) == Min(len, size - offset) <==> offset + len < 0x1_0000_0000
  {
  }

  /** 2^32 - 1 bytes at offset 1 of a file of 5 bytes are not clipped at all, where 4 are due. */
  lemma ClippingWraps()
    ensures Clipped(1, 0xFFFF_FFFF, 5) == 0xFFFF_FFFF && Min(0xFFFF_FFFF, 5 - 1) == 4
  {
  }

  /**
    What a write does: nothing when it starts past the end of the file or of the
    chain, and otherwise a splice into the chain's bytes, cut as the driver cuts it.
   */
  ghost predicate SplicedAlong(v: Vol, v': Vol, chain: seq<nat>, before: seq<Byte>, cs: nat, size: nat, offset: nat,
                               bytes: seq<Byte>, written: nat)
    requires cs > 0
  {
    if offset >= size || SkipOf(offset, cs) >= |chain| then written == 0 && v' == v
    else
      var start := StartOf(offset, cs);
      start <= |before| == Times(|chain|, cs) &&
          written == Min(Clipped(offset, |bytes|, size), |before| - start) <= |bytes| &&
      |v'.data| == |v.data| && OnlyChain(v, v', chain) && Holding(v', chain, Splice(before, start, bytes[..written]))
  }

  /** fat16_file_write: an in-place splice along the chain. */
  method FileWrite(d: Fat16, first: nat, size: nat, offset: nat, bytes: seq<Byte>, ghost chain: seq<nat>,
      ghost before: seq<Byte>)
    returns (written: nat)
    requires d.Formatted() && size < 0x1_0000_0000 && |bytes| < 0x1_0000_0000
    requires size > 0 ==> IsChain(d.V().fat, d.g.clusters, first, chain) && Holding(d.V(), chain, before)
    modifies d
    ensures d.Formatted()
    ensures SplicedAlong(old(d.V()), d.V(), chain, before, d.g.ClusterSize(), size, offset, bytes, written)
  {
    if offset >= size {
      return 0;
    }
    ClippedIsMin(offset, |bytes|, size);
    var want := if (offset + |bytes|) % WORD > size then size - offset else |bytes|;
    var cs := d.g.ClusterSize();
    SkipIs(offset, cs);
    var cur, ok := SkipClusters(d, first, (offset / cs) % 0x1_0000, chain);
    if !ok {
      return 0;
    }
    ghost var k, start := SkipOf(offset, cs), StartOf(offset, cs);
    AtBounds(d.V().data, chain, cs, k, offset % cs, start, cur);
    written := WriteRun(d, cur, offset % cs, bytes[..want], first, chain, before, k, start);
    assert bytes[..want][..written] == bytes[..written];
  }

  // ---------------------------------------------------------------------
  // Growing and freeing chains

  /** Table entries past the last data cluster are never free. */
  ghost predicate TailReserved(fat: seq<nat>, n: nat) {
    forall c {:trigger fat[c]} :: n + 2 <= c < |fat| ==> fat[c] != FREE
  }

  /** Clusters a file of this length is given. */
  function Needed(len: nat, cs: nat): nat
    requires cs > 0
  {
    if len <= cs then 1 else 1 + Needed(len - cs, cs)
  }

  /** The driver computes it by division. */
  lemma {:induction false} NeededIs(len: nat, cs: nat)
    requires cs > 0
    ensures Needed(len, cs) == if len == 0 then 1 else (len + cs - 1) / cs
    decreases len
  {
    if len > cs {
      NeededIs(len - cs, cs);
      DivMod(len + cs - 1, cs);
      DivMod(len - 1, cs);
      OneQuotient(cs, (len + cs - 1) / cs, (len + cs - 1) % cs, (len - 1) / cs + 1, (len - 1) % cs);
    } else if len > 0 {
      DivMod(len + cs - 1, cs);
      OneQuotient(cs, (len + cs - 1) / cs, (len + cs - 1) % cs, 1, len - 1);
    }
  }

  /** The k-th cluster of a file starts inside its content, and the clusters together hold it. */
  lemma {:induction false} NeededCovers(len: nat, cs: nat, k: nat)
    requires cs > 0 && k < Needed(len, cs)
    ensures Times(k, cs) < len || (k == 0 && len == 0)
    ensures len <= Times(Needed(len, cs), cs)
    decreases len
  {
    if len > cs {
      NeededCovers(len - cs, cs, if k == 0 then 0 else k - 1);
    } else {
      assert Times(1, cs) == Times(0, cs) + cs;
    }
  }

  /** The state of the loop that grows a chain and fills it, after the clusters in chain. */
  ghost predicate Grown(v: Vol, v': Vol, n: nat, chain: seq<nat>, content: seq<Byte>, cs: nat) {
    |v.data| == n && Linked(v.fat, v'.fat, n, chain) && TakesLowest(v.fat, chain) && v'.slots == v.slots &&
    Filled(v.data, v'.data, chain, content, cs)
  }

  /** A free cluster the search finds is a data cluster. */
  lemma NewInRange(fat: seq<nat>, f0: seq<nat>, n: nat, chain: seq<nat>, cl: nat)
    requires Linked(fat, f0, n, chain) && TailReserved(fat, n) && 2 <= cl < |fat| && f0[cl] == FREE
    ensures InRange(cl, n)
  {
    assert cl in chain ==> InRange(cl, n);
  }

  /** The table with cluster cl taken as the end of a chain, after prev unless that is 0. */
  function TakenFat(fat: seq<nat>, cl: nat, prev: nat): seq<nat>
    requires cl < |fat| && prev < |fat|
  {
    if prev == 0 then fat[cl := EOC] else fat[cl := EOC][prev := cl]
  }

  /** One more cluster. */
  lemma GrownStep(v: Vol, v0: Vol, v1: Vol, n: nat, chain: seq<nat>, content: seq<Byte>, cs: nat,
      cl: nat, prev: nat, from: nat)
    requires from == Times(|chain|, cs) && prev == if chain == [] then 0 else chain[|chain| - 1]
    requires Grown(v, v0, n, chain, content, cs) && TailReserved(v.fat, n) && 2 <= cl < |v.fat|
    requires cl == LowestFree(v0.fat, 2)
    requires prev < |v0.fat| && InRange(cl, n) && |v0.data| == n
    requires v1 == WithCluster(v0.(fat := TakenFat(v0.fat, cl, prev)), cl - 2, Block(content, from, cs))
    ensures Grown(v, v1, n, chain + [cl], content, cs)
  {
    NewInRange(v.fat, v0.fat, n, chain, cl);
    if chain != [] {
      PrevInTable(v.fat, v0.fat, n, chain);
    }
    LinkedStep(v.fat, v0.fat, v1.fat, n, chain, cl);
    FilledStep(v.data, v0.data, v1.data, chain, content, cs, cl);
  }

  lemma {:induction false} FilledStep(data: seq<seq<Byte>>, d0: seq<seq<Byte>>, d1: seq<seq<Byte>>, chain: seq<nat>,
                                          content: seq<Byte>, cs: nat, cl: nat)
    requires Holds(chain, |data|) && Filled(data, d0, chain, content, cs) && InRange(cl, |data|) &&
             Distinct(chain + [cl])
    requires d1 == d0[cl - 2 := Block(content, Times(|chain|, cs), cs)]
    ensures Holds(chain + [cl], |data|) && Filled(data, d1, chain + [cl], content, cs)
  {
    var m := chain + [cl];
    assert forall i :: 0 <= i < |chain| ==> m[i] == chain[i];
    assert m[|chain|] == cl;
    forall i | 0 <= i < |m|
      ensures d1[m[i] - 2] == Block(content, Times(i, cs), cs)
    {
      if i < |chain| {
        assert m[i] != m[|chain|];
      }
    }
  }

  /** One turn of the loop that allocates, links and fills. */
  method GrowOnce(d: Fat16, content: seq<Byte>, remaining: nat, prev: nat, ghost v: Vol,
      ghost chain: seq<nat>) returns (cl: nat, left: nat)
    requires d.Formatted() && Shaped(v, d.g) && TailReserved(v.fat, d.g.clusters)
    requires Grown(v, d.V(), d.g.clusters, chain, content, d.g.ClusterSize())
    requires prev == if chain == [] then 0 else chain[|chain| - 1]
    requires remaining <= |content| && |content| - remaining == Times(|chain|, d.g.ClusterSize())
    modifies d
    ensures d.Formatted()
    ensures cl == 0 ==> d.V() == old(d.V()) && LowestFree(d.V().fat, 2) == d.g.Entries()
    ensures cl != 0 ==>
              InRange(cl, d.g.clusters) &&
              Grown(v, d.V(), d.g.clusters, chain + [cl], content, d.g.ClusterSize())
    ensures cl != 0 ==> left == if remaining > d.g.ClusterSize() then remaining - d.g.ClusterSize() else 0
  {
    ghost var v0 := d.V();
    if chain != [] {
      PrevInTable(v.fat, v0.fat, d.g.clusters, chain);
    }
    NextInRange(v.fat, v0.fat, d.g.clusters, chain);
    cl, left := TakeAndFill(d, content, remaining, prev);
    if cl != 0 {
      GrownStep(v, v0, d.V(), d.g.clusters, chain, content, d.g.ClusterSize(), cl, prev, |content| - remaining);
    }
  }

  lemma NextInRange(fat: seq<nat>, f0: seq<nat>, n: nat, chain: seq<nat>)
    requires Linked(fat, f0, n, chain) && TailReserved(fat, n) && |f0| >= 2
    ensures LowestFree(f0, 2) < |f0| ==> InRange(LowestFree(f0, 2), n)
  {
    if LowestFree(f0, 2) < |f0| {
      NewInRange(fat, f0, n, chain, LowestFree(f0, 2));
    }
  }

  /** The lowest free cluster, linked after prev unless that is 0, and filled with the content still to come. */
  method TakeAndFill(d: Fat16, content: seq<Byte>, remaining: nat, prev: nat) returns (cl: nat, left: nat)
    requires d.Formatted() && prev < d.g.Entries() && remaining <= |content|
    requires var c := LowestFree(d.V().fat, 2); c < d.g.Entries() ==> InRange(c, d.g.clusters)
    modifies d
    ensures d.Formatted()
    ensures cl == 0 ==> d.V() == old(d.V()) && LowestFree(d.V().fat, 2) == d.g.Entries()
    ensures cl != 0 ==>
              cl == LowestFree(old(d.V()).fat, 2) && InRange(cl, d.g.clusters) &&
              d.V() == WithCluster(old(d.V()).(fat := TakenFat(old(d.V()).fat, cl, prev)), cl - 2,
                                   Block(content, |content| - remaining, d.g.ClusterSize()))
    ensures cl != 0 ==> left == if remaining > d.g.ClusterSize() then remaining - d.g.ClusterSize() else 0
  {
    left := remaining;
    cl := d.AllocCluster();
    if cl == 0 {
      return;
    }
    if prev != 0 {
      d.WriteFat(prev, cl);
    }
    left := d.FillCluster(cl, content, remaining);
  }

  lemma PrevInTable(fat: seq<nat>, f0: seq<nat>, n: nat, chain: seq<nat>)
    requires Linked(fat, f0, n, chain) && chain != []
    ensures 2 <= chain[|chain| - 1] < |fat|
  {
    assert InRange(chain[|chain| - 1], n);
  }

  /** The locals of the allocation loop once it has taken the clusters in chain. */
  ghost predicate GrowLocals(content: seq<Byte>, cs: nat, chain: seq<nat>, first: nat, prev: nat, remaining: nat) {
    (if chain == [] then first == 0 && prev == 0 else first == chain[0] != 0 && prev == chain[|chain| - 1]) &&
    remaining == if |content| > Times(|chain|, cs) then |content| - Times(|chain|, cs) else 0
  }

  lemma GrowLocalsStep(content: seq<Byte>, cs: nat, chain: seq<nat>, first: nat, prev: nat, remaining: nat, cl: nat,
      left: nat)
    requires GrowLocals(content, cs, chain, first, prev, remaining) && cl != 0
    requires left == if remaining > cs then remaining - cs else 0
    ensures GrowLocals(content, cs, chain + [cl], if first == 0 then cl else first, cl, left)
  {
    assert Times(|chain| + 1, cs) == Times(|chain|, cs) + cs;
  }

  /** What the loop's locals give the body of the loop. */
  lemma GrowLocalsEnter(content: seq<Byte>, cs: nat, chain: seq<nat>, first: nat, prev: nat, remaining: nat)
    requires cs > 0 && GrowLocals(content, cs, chain, first, prev, remaining) && |chain| < Needed(|content|, cs)
    ensures prev == if chain == [] then 0 else chain[|chain| - 1]
    ensures remaining <= |content| && |content| - remaining == Times(|chain|, cs)
  {
    NeededCovers(|content|, cs, |chain|);
  }

  /** The allocation loop of fat16_create_file and fat16_write_file. */
  method GrowChain(d: Fat16, content: seq<Byte>) returns (ok: bool, first: nat, ghost chain: seq<nat>)
    requires d.Formatted() && TailReserved(d.V().fat, d.g.clusters) && |content| + d.g.ClusterSize() <= 0x1_0000_0000
    modifies d
    ensures d.Formatted() && Grown(old(d.V()), d.V(), d.g.clusters, chain, content, d.g.ClusterSize())
    ensures ok ==> |chain| == Needed(|content|, d.g.ClusterSize()) && first == chain[0]
    ensures !ok ==> |chain| < Needed(|content|, d.g.ClusterSize()) && LowestFree(d.V().fat, 2) == d.g.Entries()
  {
    var cs := d.g.ClusterSize();
    var needed := if |content| == 0 then 1 else (|content| + cs - 1) / cs;
    NeededIs(|content|, cs);
    ghost var v := d.V();
    first, chain := 0, [];
    var prev: nat, remaining: nat, c: nat := 0, |content|, 0;
    while c < needed
      invariant c == |chain| <= needed
      invariant d.Formatted() && Grown(v, d.V(), d.g.clusters, chain, content, cs)
      invariant GrowLocals(content, cs, chain, first, prev, remaining)
    {
      GrowLocalsEnter(content, cs, chain, first, prev, remaining);
      var cl, left := GrowOnce(d, content, remaining, prev, v, chain);
      if cl == 0 {
        return false, first, chain;
      }
      GrowLocalsStep(content, cs, chain, first, prev, remaining, cl, left);
      if first == 0 {
        first := cl;
      }
      prev, remaining, chain, c := cl, left, chain + [cl], c + 1;
    }
    ok := true;
  }

  // ---------------------------------------------------------------------
  // Freeing

  /** Every link of a data cluster leads to a table entry or ends the chain. */
  ghost predicate LinksInTable(fat: seq<nat>) {
    forall c {:trigger fat[c]} :: 2 <= c < |fat| ==> fat[c] < |fat| || fat[c] >= BAD
  }

  /** fat' is fat with some entries made free. */
  ghost predicate SomeFreed(fat: seq<nat>, fat': seq<nat>) {
    |fat'| == |fat| && forall c {:trigger fat'[c]} :: 0 <= c < |fat| ==> fat'[c] == fat[c] || fat'[c] == FREE
  }

  lemma FreedMore(fat: seq<nat>, f0: seq<nat>, chain: seq<nat>, k: nat)
    requires k < |chain| && chain[k] < |fat| && Freed(fat, f0, chain[..k])
    ensures Freed(fat, f0[chain[k] := FREE], chain[..k + 1])
  {
    assert chain[..k + 1] == chain[..k] + [chain[k]];
  }

  /** The freeing walk over a chain: its first k clusters are free, and cluster is next. */
  ghost predicate FreedTo(fat: seq<nat>, f: seq<nat>, chain: seq<nat>, k: nat, cluster: nat) {
    k <= |chain| && Freed(fat, f, chain[..k]) && if k < |chain| then cluster == chain[k] else cluster >= BAD
  }

  /** The freeing walk over any table: links stay in the table, and only FREE is ever written. */
  ghost predicate Freeing(fat: seq<nat>, f: seq<nat>, cluster: nat) {
    SomeFreed(fat, f) && LinksInTable(f) && (cluster < |f| || cluster >= BAD)
  }

  /** Used entries count double, so that a walk that reaches a free entry still makes progress. */
  ghost function LeftToFree(f: seq<nat>, cluster: nat): int {
    2 * (|f| - FreeCount(f, |f|)) + if 2 <= cluster < BAD then 1 else 0
  }

  lemma FreeingStep(fat: seq<nat>, f0: seq<nat>, cluster: nat)
    requires Freeing(fat, f0, cluster) && 2 <= cluster < BAD
    ensures Freeing(fat, f0[cluster := FREE], f0[cluster])
    ensures 0 <= LeftToFree(f0[cluster := FREE], f0[cluster]) < LeftToFree(f0, cluster)
  {
    FreeCountUpdate(f0, |f0|, cluster, FREE);
    FreeCountBound(f0[cluster := FREE], |f0|);
  }

  lemma FreedToStep(fat: seq<nat>, f0: seq<nat>, n: nat, first: nat, chain: seq<nat>, k: nat, cluster: nat)
    requires n + 2 <= BAD && IsChain(fat, n, first, chain) && FreedTo(fat, f0, chain, k, cluster) && 2 <= cluster < BAD
    ensures cluster < |f0| && FreedTo(fat, f0[cluster := FREE], chain, k + 1, f0[cluster])
  {
    ChainAcyclic(fat, n, first, chain);
    NextOfChain(fat, f0, n, first, chain, k);
    FreedMore(fat, f0, chain, k);
  }

  lemma FreedAll(fat: seq<nat>, f: seq<nat>, n: nat, first: nat, chain: seq<nat>, k: nat, cluster: nat)
    requires n + 2 <= BAD && IsChain(fat, n, first, chain) && FreedTo(fat, f, chain, k, cluster) &&
             !(2 <= cluster < BAD)
    ensures Freed(fat, f, chain)
  {
    ChainStepIf(fat, n, first, chain, k);
    assert chain[..|chain|] == chain;
  }

  /** One turn of the freeing loop. */
  method FreeOnce(d: Fat16, cluster: nat) returns (next: nat)
    requires d.Formatted() && 2 <= cluster < d.g.Entries()
    modifies d
    ensures d.Formatted() && d.V() == old(d.V()).(fat := old(d.V()).fat[cluster := FREE])
    ensures next == old(d.V()).fat[cluster]
  {
    next := d.NextCluster(cluster);
    d.WriteFat(cluster, FREE);
  }

  /**
    The freeing loop of fat16_write_file.  It stops for every table whose links
    stay in the table, cyclic or not, because a freed entry ends the walk; on a
    chain it frees exactly the clusters of the chain.
   */
  method FreeChain(d: Fat16, first: nat, ghost chain: seq<nat>)
    requires d.Formatted() && LinksInTable(d.V().fat) && (first < d.g.Entries() || first >= BAD)
    modifies d
    ensures d.Formatted() && SomeFreed(old(d.V()).fat, d.V().fat)
    ensures d.V() == old(d.V()).(fat := d.V().fat)
    ensures first < 2 || first >= BAD ==> d.V() == old(d.V())
    ensures IsChain(old(d.V()).fat, d.g.clusters, first, chain) ==> Freed(old(d.V()).fat, d.V().fat, chain)
  {
    ghost var v, isChain := d.V(), IsChain(d.V().fat, d.g.clusters, first, chain);
    var cluster: nat := first;
    ghost var k: nat := 0;
    assert isChain ==> FreedTo(v.fat, v.fat, chain, 0, cluster);
    while cluster >= 2 && cluster < BAD
      invariant d.Formatted() && Freeing(v.fat, d.V().fat, cluster)
      invariant d.V() == v.(fat := d.V().fat)
      invariant isChain ==> FreedTo(v.fat, d.V().fat, chain, k, cluster)
      invariant first < 2 || first >= BAD ==> cluster == first && d.V() == v
      decreases LeftToFree(d.V().fat, cluster)
    {
      ghost var f0 := d.V().fat;
      FreeingStep(v.fat, f0, cluster);
      if isChain {
        FreedToStep(v.fat, f0, d.g.clusters, first, chain, k, cluster);
      }
      cluster := FreeOnce(d, cluster);
      k := k + 1;
    }
    if isChain {
      FreedAll(v.fat, d.V().fat, d.g.clusters, first, chain, k, cluster);
    }
  }

  lemma {:induction false} FreeCountBound(fat: seq<nat>, k: nat)
    requires k <= |fat|
    ensures FreeCount(fat, k) <= k
    decreases k
  {
    if k > 2 {
      FreeCountBound(fat, k - 1);
    }
  }

  lemma ChainStepIf(fat: seq<nat>, n: nat, first: nat, chain: seq<nat>, k: nat)
    requires n + 2 <= BAD && IsChain(fat, n, first, chain)
    ensures k < |chain| ==> 2 <= chain[k] < BAD
  {
    if k < |chain| {
      ChainStep(fat, n, first, chain, k);
    }
  }

  /** Freeing a prefix of a chain leaves the next link readable. */
  lemma NextOfChain(fat: seq<nat>, f0: seq<nat>, n: nat, first: nat, chain: seq<nat>, k: nat)
    requires n + 2 <= BAD && IsChain(fat, n, first, chain) && Distinct(chain) && k < |chain| &&
             Freed(fat, f0, chain[..k])
    ensures InRange(chain[k], n) && chain[k] < |fat| && chain[k] < BAD
    ensures if k + 1 < |chain| then f0[chain[k]] == chain[k + 1] else f0[chain[k]] >= BAD
  {
    ChainStep(fat, n, first, chain, k);
    assert chain[k] !in chain[..k];
  }
}
