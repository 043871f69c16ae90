// A FAT16 volume: where things are on the disk, and what they mean.

module FatBytes {
  type Byte = x: int | 0 <= x < 256

  /** The two bytes at i, low byte first. */
  function Word16(b: seq<Byte>, i: nat): (r: nat)
    requires i + 1 < |b|
    ensures r < 0x1_0000
  {
    (b[i] as int) + 256 * (b[i + 1] as int)
  }

  function Low(v: nat): Byte {
    v % 256
  }

  function High(v: nat): Byte {
    (v / 256) % 256
  }

  lemma WordOfBytes(v: nat)
    requires v < 0x1_0000
    ensures Word16([Low(v), High(v)], 0) == v
  {
  }

  /** d with b written at offset at. */
  function Splice(d: seq<Byte>, at: nat, b: seq<Byte>): (r: seq<Byte>)
    requires at + |b| <= |d|
    ensures |r| == |d|
    ensures forall x {:trigger r[x]} :: 0 <= x < |d| ==> r[x] == if at <= x < at + |b| then b[x - at] else d[x]
  {
    d[..at] + b + d[at + |b|..]
  }

  /** The two sequences agree on the range. */
  ghost predicate Same(d: seq<Byte>, d': seq<Byte>, lo: nat, hi: nat)
    requires |d| == |d'|
  {
    forall x {:trigger d[x]} {:trigger d'[x]} :: lo <= x < hi && x < |d| ==> d'[x] == d[x]
  }

  lemma SameSlice(d: seq<Byte>, d': seq<Byte>, lo: nat, hi: nat, x: nat, y: nat)
    requires |d| == |d'| && Same(d, d', lo, hi) && lo <= x <= y <= hi && y <= |d|
    ensures d'[x..y] == d[x..y]
  {
  }
}

module FatVolume {
  import opened Basics
  import opened FatBytes

  const FREE: nat := 0
  const BAD: nat := 0xFFF7
  const EOC: nat := 0xFFF8

  /** The parts of the boot sector and the drive that the driver relies on. */
  datatype Geometry = Geometry(spc: nat, spf: nat, copies: nat, fatLba: nat, rootSectors: nat, clusters: nat,
      sectors: nat) {
    ghost predicate Valid() {
      1 <= spc < 256 && 1 <= spf <= 256 && 1 <= copies <= 2 &&
      clusters + 2 <= 256 * spf && clusters + 2 <= BAD &&
      DataLba() + Times(clusters, spc) <= sectors < 0x1_0000_0000
    }

    /** Sectors of all copies of the table; there are one or two. */
    function TableSectors(): nat {
      if copies > 1 then spf + spf else spf
    }

    function RootLba(): nat {
      fatLba + TableSectors()
    }

    function DataLba(): nat {
      RootLba() + rootSectors
    }

    /** Bytes in a cluster. */
    function ClusterSize(): nat {
      512 * spc
    }

    function Entries(): nat {
      256 * spf
    }

    function Slots(): nat {
      16 * rootSectors
    }

    function FatAt(): nat {
      512 * fatLba
    }

    function RootAt(): nat {
      512 * RootLba()
    }

    function DataAt(): nat {
      512 * DataLba()
    }
  }

  /** A volume as the driver means it: table entries, directory slots, cluster contents. */
  datatype Vol = Vol(fat: seq<nat>, slots: seq<seq<Byte>>, data: seq<seq<Byte>>)

  ghost predicate OnDisk(d: seq<Byte>, g: Geometry) {
    g.Valid() && |d| == 512 * g.sectors
  }

  lemma RegionsFit(d: seq<Byte>, g: Geometry)
    requires OnDisk(d, g)
    ensures g.FatAt() + 2 * g.Entries() <= g.RootAt()
    ensures g.copies == 2 ==> g.FatAt() + 4 * g.Entries() == g.RootAt()
    ensures g.RootAt() + 32 * g.Slots() == g.DataAt() <= |d|
  {
  }

  /** Sectors counted in bytes. */
  lemma {:induction false} InBytes(k: nat, spc: nat)
    ensures Times(k, 512 * spc) == 512 * Times(k, spc)
  {
    if k > 0 {
      InBytes(k - 1, spc);
    }
  }

  lemma DataFits(d: seq<Byte>, g: Geometry)
    requires OnDisk(d, g)
    ensures g.DataAt() + Times(g.clusters, g.ClusterSize()) <= |d|
  {
    InBytes(g.clusters, g.spc);
  }

  ghost function EntryAt(d: seq<Byte>, g: Geometry, c: nat): (v: nat)
    requires OnDisk(d, g) && c < g.Entries()
    ensures v < 0x1_0000
  {
    RegionsFit(d, g);
    Word16(d, g.FatAt() + 2 * c)
  }

  ghost function SlotAt(d: seq<Byte>, g: Geometry, i: nat): (e: seq<Byte>)
    requires OnDisk(d, g) && i < g.Slots()
    ensures |e| == 32
  {
    RegionsFit(d, g);
    d[g.RootAt() + 32 * i..g.RootAt() + 32 * i + 32]
  }

  /** Offset of the i-th data cluster (cluster number i+2). */
  ghost function ClusterOffset(g: Geometry, i: nat): nat {
    g.DataAt() + Times(i, g.ClusterSize())
  }

  lemma ClusterInDisk(d: seq<Byte>, g: Geometry, i: nat)
    requires OnDisk(d, g) && i < g.clusters
    ensures g.DataAt() <= ClusterOffset(g, i) && ClusterOffset(g, i) + g.ClusterSize() <= |d|
  {
    DataFits(d, g);
    TimesLe(i + 1, g.clusters, g.ClusterSize());
  }

  lemma ClustersApart(g: Geometry, i: nat, j: nat)
    requires i < j
    ensures ClusterOffset(g, i) + g.ClusterSize() <= ClusterOffset(g, j)
  {
    TimesLe(i + 1, j, g.ClusterSize());
  }

  ghost function ClusterAt(d: seq<Byte>, g: Geometry, i: nat): (b: seq<Byte>)
    requires OnDisk(d, g) && i < g.clusters
    ensures |b| == g.ClusterSize()
  {
    ClusterInDisk(d, g, i);
    d[ClusterOffset(g, i)..ClusterOffset(g, i) + g.ClusterSize()]
  }

  ghost function View(d: seq<Byte>, g: Geometry): (v: Vol)
    requires OnDisk(d, g)
    ensures Shaped(v, g)
    ensures forall c {:trigger v.fat[c]} :: 0 <= c < g.Entries() ==> v.fat[c] == EntryAt(d, g, c)
    ensures forall i {:trigger v.slots[i]} :: 0 <= i < g.Slots() ==> v.slots[i] == SlotAt(d, g, i)
    ensures forall i {:trigger v.data[i]} :: 0 <= i < g.clusters ==> v.data[i] == ClusterAt(d, g, i)
  {
    Vol(seq(g.Entries(), c requires 0 <= c < g.Entries() => EntryAt(d, g, c)),
        seq(g.Slots(), i requires 0 <= i < g.Slots() => SlotAt(d, g, i)),
        seq(g.clusters, i requires 0 <= i < g.clusters => ClusterAt(d, g, i)))
  }

  ghost predicate Shaped(v: Vol, g: Geometry) {
    |v.fat| == g.Entries() && |v.slots| == g.Slots() && |v.data| == g.clusters &&
    (forall c {:trigger v.fat[c]} :: 0 <= c < |v.fat| ==> v.fat[c] < 0x1_0000) &&
    (forall i {:trigger v.slots[i]} :: 0 <= i < |v.slots| ==> |v.slots[i]| == 32) &&
    (forall i {:trigger v.data[i]} :: 0 <= i < |v.data| ==> |v.data[i]| == g.ClusterSize())
  }

  /** Byte x of the second copy of the table equals byte x of the first. */
  ghost predicate Twin(d: seq<Byte>, g: Geometry, x: nat)
    requires g.FatAt() + 2 * g.Entries() + x < |d|
  {
    d[g.FatAt() + 2 * g.Entries() + x] == d[g.FatAt() + x]
  }

  /** The second copy of the table, when there is one, equals the first. */
  ghost predicate Mirrored(d: seq<Byte>, g: Geometry)
    requires OnDisk(d, g)
  {
    RegionsFit(d, g);
    g.copies == 2 ==> forall x: nat {:trigger Twin(d, g, x)} :: x < 2 * g.Entries() ==> Twin(d, g, x)
  }

  // ---------------------------------------------------------------------
  // What stays when a region stays

  lemma FatStays(d: seq<Byte>, d': seq<Byte>, g: Geometry)
    requires OnDisk(d, g) && |d'| == |d| && Same(d, d', g.FatAt(), g.RootAt())
    ensures View(d', g).fat == View(d, g).fat
  {
    RegionsFit(d, g);
    var v, v' := View(d, g), View(d', g);
    forall c | 0 <= c < g.Entries()
      ensures v'.fat[c] == v.fat[c]
    {
      assert EntryAt(d', g, c) == EntryAt(d, g, c);
    }
  }

  lemma MirrorStays(d: seq<Byte>, d': seq<Byte>, g: Geometry)
    requires OnDisk(d, g) && |d'| == |d| && Same(d, d', g.FatAt(), g.RootAt()) && Mirrored(d, g)
    ensures Mirrored(d', g)
  {
    RegionsFit(d, g);
    if g.copies == 2 {
      forall x: nat | x < 2 * g.Entries()
        ensures Twin(d', g, x)
      {
        assert Twin(d, g, x);
      }
    }
  }

  lemma SlotsStay(d: seq<Byte>, d': seq<Byte>, g: Geometry)
    requires OnDisk(d, g) && |d'| == |d| && Same(d, d', g.RootAt(), g.DataAt())
    ensures View(d', g).slots == View(d, g).slots
  {
    RegionsFit(d, g);
    var v, v' := View(d, g), View(d', g);
    forall i | 0 <= i < g.Slots()
      ensures v'.slots[i] == v.slots[i]
    {
      SameSlice(d, d', g.RootAt(), g.DataAt(), g.RootAt() + 32 * i, g.RootAt() + 32 * i + 32);
    }
  }

  lemma DataStays(d: seq<Byte>, d': seq<Byte>, g: Geometry)
    requires OnDisk(d, g) && |d'| == |d| && Same(d, d', g.DataAt(), |d|)
    ensures View(d', g).data == View(d, g).data
  {
    var v, v' := View(d, g), View(d', g);
    forall i | 0 <= i < g.clusters
      ensures v'.data[i] == v.data[i]
    {
      ClusterInDisk(d, g, i);
      SameSlice(d, d', g.DataAt(), |d|, ClusterOffset(g, i), ClusterOffset(g, i) + g.ClusterSize());
    }
  }

  // ---------------------------------------------------------------------
  // What the driver's writes mean

  /** d' is d with the two bytes of table entry c replaced, in both copies when there are two. */
  ghost predicate EntryPatched(d: seq<Byte>, d': seq<Byte>, g: Geometry, c: nat, lo: Byte, hi: Byte)
    requires |d'| == |d|
  {
    var at, twin := g.FatAt() + 2 * c, g.FatAt() + 2 * g.Entries() + 2 * c;
    forall x {:trigger d'[x]} :: 0 <= x < |d| ==>
      d'[x] == if x == at || (g.copies == 2 && x == twin) then lo
               else if x == at + 1 || (g.copies == 2 && x == twin + 1) then hi
               else d[x]
  }

  lemma EntryAfterPatch(d: seq<Byte>, d': seq<Byte>, g: Geometry, c: nat, lo: Byte, hi: Byte, e: nat)
    requires OnDisk(d, g) && c < g.Entries() && e < g.Entries() && |d'| == |d| && EntryPatched(d, d', g, c, lo, hi)
    ensures EntryAt(d', g, e) == if e == c then Word16([lo, hi], 0) else EntryAt(d, g, e)
  {
    RegionsFit(d, g);
    var x := g.FatAt() + 2 * e;
    assert d'[x] == (if e == c then lo else d[x]);
    assert d'[x + 1] == (if e == c then hi else d[x + 1]);
  }

  lemma FatPatched(d: seq<Byte>, d': seq<Byte>, g: Geometry, c: nat, lo: Byte, hi: Byte)
    requires OnDisk(d, g) && c < g.Entries() && |d'| == |d| && EntryPatched(d, d', g, c, lo, hi)
    ensures View(d', g).fat == View(d, g).fat[c := Word16([lo, hi], 0)]
  {
    var f, f' := View(d, g).fat, View(d', g).fat;
    forall e | 0 <= e < |f|
      ensures f'[e] == f[c := Word16([lo, hi], 0)][e]
    {
      EntryAfterPatch(d, d', g, c, lo, hi, e);
    }
  }

  lemma MirrorPatched(d: seq<Byte>, d': seq<Byte>, g: Geometry, c: nat, lo: Byte, hi: Byte)
    requires OnDisk(d, g) && c < g.Entries() && |d'| == |d| && EntryPatched(d, d', g, c, lo, hi) && Mirrored(d, g)
    ensures Mirrored(d', g)
  {
    RegionsFit(d, g);
    if g.copies == 2 {
      forall x: nat | x < 2 * g.Entries()
        ensures Twin(d', g, x)
      {
        assert Twin(d, g, x);
      }
    }
  }

  /** Writing both copies of one table entry changes that entry and nothing else. */
  lemma EntryWritten(d: seq<Byte>, d': seq<Byte>, g: Geometry, c: nat, v: nat)
    requires OnDisk(d, g) && Mirrored(d, g) && c < g.Entries() && v < 0x1_0000 && |d'| == |d|
    requires EntryPatched(d, d', g, c, Low(v), High(v))
    ensures View(d', g) == View(d, g).(fat := View(d, g).fat[c := v])
    ensures Mirrored(d', g)
  {
    WordOfBytes(v);
    FatPatched(d, d', g, c, Low(v), High(v));
    MirrorPatched(d, d', g, c, Low(v), High(v));
    RegionsFit(d, g);
    SlotsStay(d, d', g);
    DataStays(d, d', g);
  }

  /** Writing inside one data cluster changes that cluster and nothing else. */
  lemma ClusterWritten(d: seq<Byte>, g: Geometry, i: nat, at: nat, b: seq<Byte>)
    requires OnDisk(d, g) && i < g.clusters && at + |b| <= g.ClusterSize()
    ensures ClusterOffset(g, i) + at + |b| <= |d|
    ensures var d' := Splice(d, ClusterOffset(g, i) + at, b);
            View(d', g) == View(d, g).(data := View(d, g).data[i := Splice(View(d, g).data[i], at, b)]) &&
            (Mirrored(d, g) ==> Mirrored(d', g))
  {
    RegionsFit(d, g);
    ClusterInDisk(d, g, i);
    var d' := Splice(d, ClusterOffset(g, i) + at, b);
    FatStays(d, d', g);
    if Mirrored(d, g) {
      MirrorStays(d, d', g);
    }
    SlotsStay(d, d', g);
    var w, w' := View(d, g), View(d', g);
    var data := w.data[i := Splice(w.data[i], at, b)];
    forall j | 0 <= j < g.clusters
      ensures w'.data[j] == data[j]
    {
      ClusterInDisk(d, g, j);
      if j < i {
        ClustersApart(g, j, i);
        SameSlice(d, d', ClusterOffset(g, j), ClusterOffset(g, j) + g.ClusterSize(),
                  ClusterOffset(g, j), ClusterOffset(g, j) + g.ClusterSize());
      } else if i < j {
        ClustersApart(g, i, j);
        SameSlice(d, d', ClusterOffset(g, j), ClusterOffset(g, j) + g.ClusterSize(),
                  ClusterOffset(g, j), ClusterOffset(g, j) + g.ClusterSize());
      } else {
        SliceOfSplice(d, ClusterOffset(g, i), g.ClusterSize(), at, b);
      }
    }
    assert w'.data == data;
  }

  lemma SliceOfSplice(d: seq<Byte>, o: nat, n: nat, at: nat, b: seq<Byte>)
    requires o + n <= |d| && at + |b| <= n
    ensures Splice(d, o + at, b)[o..o + n] == Splice(d[o..o + n], at, b)
  {
    var x, y := Splice(d, o + at, b)[o..o + n], Splice(d[o..o + n], at, b);
    forall k | 0 <= k < n
      ensures x[k] == y[k]
    {
      assert x[k] == Splice(d, o + at, b)[o + k];
    }
  }

  /** Writing the directory region back with one slot changed changes that slot and nothing else. */
  lemma SlotWritten(d: seq<Byte>, g: Geometry, i: nat, e: seq<Byte>)
    requires OnDisk(d, g) && i < g.Slots() && |e| == 32
    ensures g.RootAt() + 32 * i + 32 <= |d|
    ensures var d' := Splice(d, g.RootAt() + 32 * i, e);
            View(d', g) == View(d, g).(slots := View(d, g).slots[i := e]) &&
            (Mirrored(d, g) ==> Mirrored(d', g))
  {
    RegionsFit(d, g);
    var d' := Splice(d, g.RootAt() + 32 * i, e);
    FatStays(d, d', g);
    if Mirrored(d, g) {
      MirrorStays(d, d', g);
    }
    DataStays(d, d', g);
    var w, w' := View(d, g), View(d', g);
    forall j | 0 <= j < g.Slots()
      ensures w'.slots[j] == w.slots[i := e][j]
    {
      var o := g.RootAt() + 32 * j;
      if j != i {
        SameSlice(d, d', o, o + 32, o, o + 32);
      } else {
        assert d'[o..o + 32] == e;
      }
    }
    assert w'.slots == w.slots[i := e];
  }

  /** Writing the whole directory back with one slot changed is writing that slot. */
  lemma RegionWrittenBack(d: seq<Byte>, o: nat, n: nat, at: nat, e: seq<Byte>)
    requires o + n <= |d| && at + |e| <= n
    ensures Splice(d, o, Splice(d[o..o + n], at, e)) == Splice(d, o + at, e)
  {
    var x, y := Splice(d, o, Splice(d[o..o + n], at, e)), Splice(d, o + at, e);
    forall k | 0 <= k < |d|
      ensures x[k] == y[k]
    {
    }
  }
}
