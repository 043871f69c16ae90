// The driver: sector reads and writes, table walks, and the copy loops.

module FatDriver {
  import opened Basics
  import opened FatBytes
  import opened FatVolume
  import opened FatChains

  /** The least free cluster number from c up; |fat| when there is none. */
  ghost function LowestFree(fat: seq<nat>, c: nat): (r: nat)
    requires c <= |fat|
    ensures c <= r <= |fat|
    ensures r < |fat| ==> fat[r] == FREE
    ensures forall x {:trigger fat[x]} :: c <= x < r ==> fat[x] != FREE
    decreases |fat| - c
  {
    if c == |fat| || fat[c] == FREE then c else LowestFree(fat, c + 1)
  }

  class Fat16 {
    const g: Geometry
    var disk: seq<Byte>

    ghost predicate Formatted()
      reads this
    {
      OnDisk(disk, g) && Mirrored(disk, g)
    }

    ghost function V(): Vol
      requires OnDisk(disk, g)
      reads this
    {
      View(disk, g)
    }

    /** The drive: n sectors from lba on. */
    method Read(lba: nat, n: nat) returns (buf: seq<Byte>)
      requires 512 * (lba + n) <= |disk|
      ensures buf == disk[512 * lba..512 * (lba + n)]
    {
      buf := disk[512 * lba..512 * (lba + n)];
    }

    /** The drive: whole sectors written from lba on. */
    method Write(lba: nat, buf: seq<Byte>)
      requires 512 * lba + |buf| <= |disk| && |buf| % 512 == 0
      modifies this
      ensures disk == Splice(old(disk), 512 * lba, buf)
    {
      disk := Splice(disk, 512 * lba, buf);
    }

    /** Sector s of the first copy of the table. */
    method ReadTable(s: nat) returns (tmp: seq<Byte>)
      requires OnDisk(disk, g) && s < g.spf
      ensures SectorIs(disk, g, s, tmp) && SectorHolds(tmp, s, V().fat)
    {
      SectorRead(disk, g, s);
      tmp := Read(g.fatLba + s, 1);
    }

    /** fat16_next_cluster. */
    method NextCluster(cluster: nat) returns (v: nat)
      requires OnDisk(disk, g) && cluster < g.Entries()
      ensures v == V().fat[cluster]
    {
      var fatOffset := cluster * 2;
      Where(cluster);
      var buf := ReadTable(fatOffset / 512);
      v := Word16(buf, fatOffset % 512);
    }

    /** Writes a table sector to the first copy and, when there is one, to the second. */
    method WriteTableSector(s: nat, tmp: seq<Byte>, ghost e: nat, ghost v: nat)
      requires Formatted() && s < g.spf && e < 256 && v < 0x1_0000
      requires SectorPatched(disk, g, s, e, v, tmp)
      modifies this
      ensures Formatted() && 256 * s + e < g.Entries()
      ensures V() == old(V()).(fat := old(V()).fat[256 * s + e := v])
    {
      ghost var d := disk;
      var lba := g.fatLba + s;
      TableRoom(d, g, s);
      Write(lba, tmp);
      if g.copies > 1 {
        Write(lba + g.spf, tmp);
      }
      TableWritten(d, disk, g, s, 512 * lba, 512 * (lba + g.spf), e, v, tmp);
    }

    /** fat16_write_fat. */
    method WriteFat(cluster: nat, value: nat)
      requires Formatted() && cluster < g.Entries() && value < 0x1_0000
      modifies this
      ensures Formatted() && V() == old(V()).(fat := old(V()).fat[cluster := value])
    {
      var fatOffset := cluster * 2;
      var byteOffset := fatOffset % 512;
      Where(cluster);
      var tmp := ReadTable(fatOffset / 512);
      tmp := tmp[byteOffset := Low(value)][byteOffset + 1 := High(value)];
      WriteTableSector(fatOffset / 512, tmp, cluster % 256, value);
    }

    /** The inner loop of fat16_alloc_cluster: the first free entry of a table sector, if any. */
    method ScanSector(s: nat, tmp: seq<Byte>, ghost fat: seq<nat>) returns (e: nat)
      requires SectorHolds(tmp, s, fat) && s < 256 && NoFreeBelow(fat, 256 * s)
      ensures e <= 256 && NoFreeBelow(fat, 256 * s + e)
      ensures e < 256 ==> 256 * s + e >= 2 && fat[256 * s + e] == FREE
    {
      e := 0;
      while e < 256
        invariant 0 <= e <= 256
        invariant NoFreeBelow(fat, 256 * s + e)
      {
        var val := Word16(tmp, e * 2);
        var cluster := (s * 256 + e) % 0x1_0000;
        assert val == fat[256 * s + e];
        if cluster >= 2 && val == FREE {
          return;
        }
        e := e + 1;
      }
    }

    /** Marks entry e of table sector s as the end of a chain. */
    method TakeEntry(s: nat, buf: seq<Byte>, e: nat)
      requires Formatted() && s < g.spf && e < 256 && SectorIs(disk, g, s, buf)
      modifies this
      ensures Formatted() && 256 * s + e < g.Entries()
      ensures V() == old(V()).(fat := old(V()).fat[256 * s + e := EOC])
    {
      var tmp := buf[e * 2 := Low(EOC)][e * 2 + 1 := High(EOC)];
      WriteTableSector(s, tmp, e, EOC);
    }

    /** fat16_alloc_cluster: the lowest free cluster becomes the end of a chain; 0 when the disk is full. */
    method AllocCluster() returns (cluster: nat)
      requires Formatted()
      modifies this
      ensures Formatted()
      ensures cluster == 0 ==> LowestFree(old(V()).fat, 2) == g.Entries() && V() == old(V())
      ensures cluster != 0 ==> 2 <= cluster == LowestFree(old(V()).fat, 2) < g.Entries()
      ensures cluster != 0 ==> V() == old(V()).(fat := old(V()).fat[cluster := EOC])
    {
      ghost var fat := V().fat;
      var s := 0;
      while s < g.spf
        invariant 0 <= s <= g.spf && disk == old(disk)
        invariant NoFreeBelow(fat, 256 * s)
      {
        var tmp := ReadTable(s);
        var e := ScanSector(s, tmp, fat);
        if e < 256 {
          cluster := (s * 256 + e) % 0x1_0000;
          LowestFound(fat, cluster);
          TakeEntry(s, tmp, e);
          return;
        }
        s := s + 1;
      }
      NoneFound(fat);
      cluster := 0;
    }

    // -----------------------------------------------------------------
    // Cluster contents

    /** cluster_to_lba. */
    function ClusterLba(cluster: nat): nat
      requires cluster >= 2
    {
      g.DataLba() + (cluster - 2) * g.spc
    }

    /** One turn of the sector loop of fat16_file_read. */
    method ReadPiece(cluster: nat, offset: nat, chunk: nat) returns (piece: seq<Byte>)
      requires OnDisk(disk, g) && InRange(cluster, g.clusters)
      requires offset % 512 + chunk <= 512 && offset + chunk <= g.ClusterSize() && offset < g.ClusterSize()
      ensures piece == V().data[cluster - 2][offset..offset + chunk]
    {
      var lba := ClusterLba(cluster);
      var sectorIndex, inSector := offset / 512, offset % 512;
      ClusterSector(disk, g, cluster, sectorIndex);
      var buf := Read(lba + sectorIndex, 1);
      piece := buf[inSector..inSector + chunk];
      SliceOfSlice(disk, 512 * (lba + sectorIndex), 512, inSector, chunk);
      SliceOfSlice(disk, ClusterOffset(g, cluster - 2), g.ClusterSize(), offset, chunk);
    }

    /** The sector loop of fat16_file_read: count bytes of a cluster, from offset on. */
    method CopyOut(cluster: nat, offset: nat, count: nat) returns (out: seq<Byte>)
      requires OnDisk(disk, g) && InRange(cluster, g.clusters) && offset + count <= g.ClusterSize()
      ensures out == V().data[cluster - 2][offset..offset + count]
    {
      ghost var bytes := V().data[cluster - 2];
      assert bytes == ClusterAt(disk, g, cluster - 2);
      var inCluster := offset;
      var toCopy := count;
      out := [];
      while toCopy > 0
        invariant offset <= inCluster && 0 <= toCopy && inCluster + toCopy == offset + count
        invariant out == bytes[offset..inCluster]
      {
        var avail := 512 - inCluster % 512;
        var chunk := if toCopy < avail then toCopy else avail;
        var piece := ReadPiece(cluster, inCluster, chunk);
        JoinSlices(bytes, offset, inCluster, inCluster + chunk);
        out := out + piece;
        inCluster := inCluster + chunk;
        toCopy := toCopy - chunk;
      }
    }

    /** One turn of the sector loop of fat16_file_write. */
    method PatchCluster(cluster: nat, offset: nat, chunk: seq<Byte>)
      requires Formatted() && InRange(cluster, g.clusters)
      requires offset % 512 + |chunk| <= 512 && offset + |chunk| <= g.ClusterSize() && offset < g.ClusterSize()
      modifies this
      ensures Formatted()
      ensures V() == old(V()).(data := old(V()).data[cluster - 2 := Splice(old(V()).data[cluster - 2], offset, chunk)])
    {
      PatchSectorOf(cluster, offset / 512, offset % 512, chunk, offset);
    }

    /** Bytes into one sector of a cluster. */
    method PatchSectorOf(cluster: nat, sectorIndex: nat, inSector: nat, chunk: seq<Byte>, ghost at: nat)
      requires Formatted() && InRange(cluster, g.clusters) && sectorIndex < g.spc && inSector + |chunk| <= 512
      requires at == 512 * sectorIndex + inSector && at + |chunk| <= g.ClusterSize()
      modifies this
      ensures Formatted()
      ensures V() == WithCluster(old(V()), cluster - 2, Splice(old(V()).data[cluster - 2], at, chunk))
    {
      var lba := ClusterLba(cluster);
      ClusterSector(disk, g, cluster, sectorIndex);
      PieceWritten(disk, g, cluster, sectorIndex, inSector, chunk, 512 * (lba + sectorIndex), at);
      var tmp := Read(lba + sectorIndex, 1);
      tmp := Splice(tmp, inSector, chunk);
      Write(lba + sectorIndex, tmp);
    }

    /** The sector loop of fat16_file_write: bytes go into a cluster, from offset on. */
    method CopyIn(cluster: nat, offset: nat, bytes: seq<Byte>)
      requires Formatted() && InRange(cluster, g.clusters) && offset + |bytes| <= g.ClusterSize()
      modifies this
      ensures Formatted()
      ensures V() == old(V()).(data := old(V()).data[cluster - 2 := Splice(old(V()).data[cluster - 2], offset, bytes)])
    {
      ghost var v := V();
      var done := 0;
      SpliceNothing(v, cluster - 2, offset, bytes);
      while done < |bytes|
        invariant 0 <= done <= |bytes| && Formatted()
        invariant V() == WithCluster(v, cluster - 2, Splice(v.data[cluster - 2], offset, bytes[..done]))
      {
        done := CopyMore(cluster, offset, bytes, done, v);
      }
      assert bytes[..|bytes|] == bytes;
    }

    /** One turn of it: up to the end of the sector. */
    method CopyMore(cluster: nat, offset: nat, bytes: seq<Byte>, done: nat, ghost v: Vol) returns (next: nat)
      requires Formatted() && InRange(cluster, g.clusters) && offset + |bytes| <= g.ClusterSize() && done < |bytes|
      requires Shaped(v, g) && V() == WithCluster(v, cluster - 2, Splice(v.data[cluster - 2], offset, bytes[..done]))
      modifies this
      ensures Formatted() && done < next <= |bytes|
      ensures V() == WithCluster(v, cluster - 2, Splice(v.data[cluster - 2], offset, bytes[..next]))
    {
      var avail := 512 - (offset + done) % 512;
      var chunk := if |bytes| - done < avail then |bytes| - done else avail;
      ghost var w := V();
      PatchCluster(cluster, offset + done, bytes[done..done + chunk]);
      CopiedMore(v, w, V(), cluster - 2, offset, bytes, done, chunk);
      next := done + chunk;
    }

    /** Writes one whole sector of a cluster. */
    method WriteSector(cluster: nat, s: nat, tmp: seq<Byte>)
      requires Formatted() && InRange(cluster, g.clusters) && s < g.spc && |tmp| == 512
      modifies this
      ensures Formatted()
      ensures V() == WithCluster(old(V()), cluster - 2, Splice(old(V()).data[cluster - 2], 512 * s, tmp))
    {
      ClusterSector(disk, g, cluster, s);
      ClusterWritten(disk, g, cluster - 2, 512 * s, tmp);
      Write(ClusterLba(cluster) + s, tmp);
    }

    /** The sector loop of fat16_create_file and fat16_write_file: a cluster gets content, then zeros. */
    method FillCluster(cluster: nat, content: seq<Byte>, remaining: nat) returns (left: nat)
      requires Formatted() && InRange(cluster, g.clusters) && remaining <= |content|
      modifies this
      ensures Formatted()
      ensures V() == WithCluster(old(V()), cluster - 2, Block(content, |content| - remaining, g.ClusterSize()))
      ensures left == if remaining > g.ClusterSize() then remaining - g.ClusterSize() else 0
    {
      ghost var v, from := V(), |content| - remaining;
      left := remaining;
      var s := 0;
      PartBegins(v.data[cluster - 2], content, from);
      while s < g.spc
        invariant 0 <= s <= g.spc && Formatted()
        invariant left == if remaining > 512 * s then remaining - 512 * s else 0
        invariant V() == WithCluster(v, cluster - 2, Part(v.data[cluster - 2], content, from, 512 * s))
      {
        var tmp := seq(512, x => 0 as Byte);
        var chunk := if left > 512 then 512 else left;
        if chunk > 0 {
          var srcOff := |content| - left;
          tmp := Splice(tmp, 0, content[srcOff..srcOff + chunk]);
          left := left - chunk;
        }
        PartGrows(v.data[cluster - 2], content, from, 512 * s, tmp);
        WriteSector(cluster, s, tmp);
        s := s + 1;
      }
      PartEnds(v.data[cluster - 2], content, from);
    }
  }

  /** The volume with one data cluster replaced. */
  ghost function WithCluster(v: Vol, i: nat, b: seq<Byte>): Vol
    requires i < |v.data|
  {
    v.(data := v.data[i := b])
  }

  /** A piece more is written into cluster i. */
  lemma CopiedMore(v: Vol, w: Vol, w': Vol, i: nat, offset: nat, bytes: seq<Byte>, done: nat, chunk: nat)
    requires i < |v.data| && offset + |bytes| <= |v.data[i]| && done + chunk <= |bytes|
    requires w == WithCluster(v, i, Splice(v.data[i], offset, bytes[..done]))
    requires w' == WithCluster(w, i, Splice(w.data[i], offset + done, bytes[done..done + chunk]))
    ensures w' == WithCluster(v, i, Splice(v.data[i], offset, bytes[..done + chunk]))
  {
    SpliceMore(v.data[i], offset, bytes, done, done + chunk);
  }

  lemma SpliceNothing(v: Vol, i: nat, o: nat, b: seq<Byte>)
    requires i < |v.data| && o + |b| <= |v.data[i]|
    ensures WithCluster(v, i, Splice(v.data[i], o, b[..0])) == v
  {
    assert Splice(v.data[i], o, b[..0]) == v.data[i];
    assert v.data[i := v.data[i]] == v.data;
  }

  /** A cluster whose first n bytes have been filled with content, then zeros. */
  ghost function Part(old_: seq<Byte>, content: seq<Byte>, from: nat, n: nat): (b: seq<Byte>)
    requires n <= |old_|
    ensures |b| == |old_|
    ensures forall x {:trigger b[x]} :: 0 <= x < |old_| ==>
              b[x] == if x >= n then old_[x] else if from + x < |content| then content[from + x] else 0
  {
    seq(|old_|, x requires 0 <= x < |old_| =>
      if x >= n then old_[x] else if from + x < |content| then content[from + x] else 0)
  }

  lemma PartBegins(old_: seq<Byte>, content: seq<Byte>, from: nat)
    ensures Part(old_, content, from, 0) == old_
  {
  }

  lemma PartEnds(old_: seq<Byte>, content: seq<Byte>, from: nat)
    ensures Part(old_, content, from, |old_|) == Block(content, from, |old_|)
  {
  }

  /** The next sector of content. */
  lemma PartGrows(old_: seq<Byte>, content: seq<Byte>, from: nat, n: nat, tmp: seq<Byte>)
    requires n + 512 <= |old_| && |tmp| == 512
    requires forall x {:trigger tmp[x]} :: 0 <= x < 512 ==>
               tmp[x] == if from + n + x < |content| then content[from + n + x] else 0
    ensures Splice(Part(old_, content, from, n), n, tmp) == Part(old_, content, from, n + 512)
  {
    var l, r := Splice(Part(old_, content, from, n), n, tmp), Part(old_, content, from, n + 512);
    forall k | 0 <= k < |l|
      ensures l[k] == r[k]
    {
    }
  }

  /** Sector s of a cluster. */
  lemma ClusterSector(d: seq<Byte>, g: Geometry, cluster: nat, s: nat)
    requires OnDisk(d, g) && InRange(cluster, g.clusters) && s < g.spc
    ensures 512 * (g.DataLba() + (cluster - 2) * g.spc + s) == ClusterOffset(g, cluster - 2) + 512 * s
    ensures ClusterOffset(g, cluster - 2) + 512 * s + 512 <= |d|
    ensures ClusterOffset(g, cluster - 2) + g.ClusterSize() <= |d|
    ensures View(d, g).data[cluster - 2] ==
            d[ClusterOffset(g, cluster - 2)..ClusterOffset(g, cluster - 2) + g.ClusterSize()]
  {
    ClusterInDisk(d, g, cluster - 2);
    InBytes(cluster - 2, g.spc);
    TimesIs(cluster - 2, g.spc);
  }

  /** A sector of a cluster written back with the chunk spliced in. */
  lemma PieceWritten(d: seq<Byte>, g: Geometry, cluster: nat, s: nat, o: nat, chunk: seq<Byte>, b: nat, at: nat)
    requires OnDisk(d, g) && Mirrored(d, g) && InRange(cluster, g.clusters) && s < g.spc && o + |chunk| <= 512
    requires b == ClusterOffset(g, cluster - 2) + 512 * s && at == 512 * s + o
    ensures b + 512 <= |d|
    ensures var d' := Splice(d, b, Splice(d[b..b + 512], o, chunk));
            Mirrored(d', g) &&
            View(d', g) == WithCluster(View(d, g), cluster - 2, Splice(View(d, g).data[cluster - 2], at, chunk))
  {
    ClusterInDisk(d, g, cluster - 2);
    RegionWrittenBack(d, b, 512, o, chunk);
    assert b + o == ClusterOffset(g, cluster - 2) + at;
    ClusterWritten(d, g, cluster - 2, at, chunk);
  }

  lemma SliceOfSlice(d: seq<Byte>, o: nat, m: nat, x: nat, n: nat)
    requires o + m <= |d| && x + n <= m
    ensures d[o..o + m][x..x + n] == d[o + x..o + x + n]
  {
    var l, r := d[o..o + m][x..x + n], d[o + x..o + x + n];
    forall k | 0 <= k < n
      ensures l[k] == r[k]
    {
    }
  }

  lemma JoinSlices(b: seq<Byte>, x: nat, y: nat, z: nat)
    requires x <= y <= z <= |b|
    ensures b[x..y] + b[y..z] == b[x..z]
  {
  }

  /** Splicing one more piece right after the last is splicing both at once. */
  lemma SpliceMore(d: seq<Byte>, o: nat, b: seq<Byte>, x: nat, y: nat)
    requires x <= y <= |b| && o + y <= |d|
    ensures Splice(Splice(d, o, b[..x]), o + x, b[x..y]) == Splice(d, o, b[..y])
  {
    var l, r := Splice(Splice(d, o, b[..x]), o + x, b[x..y]), Splice(d, o, b[..y]);
    forall k | 0 <= k < |d|
      ensures l[k] == r[k]
    {
    }
  }

  /** tmp spells the 256 table entries of sector s. */
  ghost predicate SectorHolds(tmp: seq<Byte>, s: nat, fat: seq<nat>) {
    |tmp| == 512 && 256 * s + 256 <= |fat| &&
    forall e {:trigger fat[256 * s + e]} :: 0 <= e < 256 ==> Word16(tmp, 2 * e) == fat[256 * s + e]
  }

  /** tmp is sector s of the first copy of the table. */
  ghost predicate SectorIs(d: seq<Byte>, g: Geometry, s: nat, tmp: seq<Byte>) {
    var b := 512 * (g.fatLba + s);
    b + 512 <= |d| && |tmp| == 512 && tmp == d[b..b + 512]
  }

  lemma SectorRead(d: seq<Byte>, g: Geometry, s: nat)
    requires OnDisk(d, g) && s < g.spf
    ensures 512 * (g.fatLba + s) + 512 <= |d|
    ensures SectorHolds(d[512 * (g.fatLba + s)..512 * (g.fatLba + s) + 512], s, View(d, g).fat)
  {
    SectorEntry(d, g, s, 0);
    var tmp := d[512 * (g.fatLba + s)..512 * (g.fatLba + s) + 512];
    forall e | 0 <= e < 256
      ensures Word16(tmp, 2 * e) == View(d, g).fat[256 * s + e]
    {
      SectorEntry(d, g, s, e);
    }
  }

  /** Entry c is entry c % 256 of table sector c / 256. */
  lemma Where(c: nat)
    ensures c == 256 * (c / 256) + c % 256
    ensures 2 * c / 512 == c / 256 && 2 * c % 512 == 2 * (c % 256)
  {
  }

  /** Entry e of table sector s. */
  lemma SectorEntry(d: seq<Byte>, g: Geometry, s: nat, e: nat)
    requires OnDisk(d, g) && s < g.spf && e < 256
    ensures 256 * s + e < g.Entries() && 256 * s + e < 0x1_0000
    ensures 512 * (g.fatLba + s) + 512 <= |d|
    ensures var tmp := d[512 * (g.fatLba + s)..512 * (g.fatLba + s) + 512];
            Word16(tmp, 2 * e) == View(d, g).fat[256 * s + e]
  {
    RegionsFit(d, g);
    assert View(d, g).fat[256 * s + e] == EntryAt(d, g, 256 * s + e);
  }

  ghost predicate NoFreeBelow(fat: seq<nat>, n: nat) {
    forall x {:trigger fat[x]} :: 2 <= x < n && x < |fat| ==> fat[x] != FREE
  }

  lemma {:induction false} LowestFoundFrom(fat: seq<nat>, k: nat, c: nat)
    requires k <= c < |fat| && fat[c] == FREE
    requires forall x {:trigger fat[x]} :: k <= x < c ==> fat[x] != FREE
    ensures LowestFree(fat, k) == c
    decreases c - k
  {
    if k < c {
      LowestFoundFrom(fat, k + 1, c);
    }
  }

  lemma LowestFound(fat: seq<nat>, c: nat)
    requires 2 <= c < |fat| && fat[c] == FREE && NoFreeBelow(fat, c)
    ensures LowestFree(fat, 2) == c
  {
    LowestFoundFrom(fat, 2, c);
  }

  lemma NoneFound(fat: seq<nat>)
    requires |fat| >= 2 && NoFreeBelow(fat, |fat|)
    ensures LowestFree(fat, 2) == |fat|
  {
  }

  /** tmp is table sector s with its entry e set to v. */
  ghost predicate SectorPatched(d: seq<Byte>, g: Geometry, s: nat, e: nat, v: nat, tmp: seq<Byte>)
    requires e < 256
  {
    var b := 512 * (g.fatLba + s);
    |tmp| == 512 && b + 512 <= |d| &&
    tmp == d[b..b + 512][2 * e := Low(v)][2 * e + 1 := High(v)]
  }

  /** The sector at b with bytes o and o+1 replaced. */
  lemma PatchSector(d: seq<Byte>, b: nat, o: nat, lo: Byte, hi: Byte, tmp: seq<Byte>)
    requires b + 512 <= |d| && o + 1 < 512 && tmp == d[b..b + 512][o := lo][o + 1 := hi]
    ensures Splice(d, b, tmp) == d[b + o := lo][b + o + 1 := hi]
  {
    var x, y := Splice(d, b, tmp), d[b + o := lo][b + o + 1 := hi];
    forall k | 0 <= k < |d|
      ensures x[k] == y[k]
    {
    }
  }

  lemma TwinSector(d: seq<Byte>, g: Geometry, b1: nat)
    requires OnDisk(d, g) && Mirrored(d, g) && g.copies == 2
    requires g.FatAt() <= b1 && b1 + 512 <= g.FatAt() + 2 * g.Entries()
    ensures b1 + 2 * g.Entries() + 512 <= |d|
    ensures d[b1 + 2 * g.Entries()..b1 + 2 * g.Entries() + 512] == d[b1..b1 + 512]
  {
    RegionsFit(d, g);
    var b2 := b1 + 2 * g.Entries();
    var x, y := d[b1..b1 + 512], d[b2..b2 + 512];
    forall k | 0 <= k < |x|
      ensures x[k] == y[k]
    {
      assert Twin(d, g, b1 - g.FatAt() + k);
    }
  }

  lemma TableRoom(d: seq<Byte>, g: Geometry, s: nat)
    requires OnDisk(d, g) && s < g.spf
    ensures 512 * (g.fatLba + s) + 512 <= |d| && (g.copies > 1 ==> 512 * (g.fatLba + s + g.spf) + 512 <= |d|)
  {
    RegionsFit(d, g);
  }

  /** A patched table sector written to every copy of the table changes one entry. */
  lemma TableWritten(d: seq<Byte>, d': seq<Byte>, g: Geometry, s: nat, b: nat, b2: nat, e: nat, v: nat, tmp: seq<Byte>)
    requires OnDisk(d, g) && Mirrored(d, g) && s < g.spf && e < 256 && v < 0x1_0000
    requires SectorPatched(d, g, s, e, v, tmp) && b == 512 * (g.fatLba + s) && b2 == b + 512 * g.spf
    requires b + 512 <= |d| && (g.copies > 1 ==> b2 + 512 <= |d|)
    requires d' == if g.copies > 1 then Splice(Splice(d, b, tmp), b2, tmp) else Splice(d, b, tmp)
    ensures 256 * s + e < g.Entries() && OnDisk(d', g) && Mirrored(d', g)
    ensures View(d', g) == View(d, g).(fat := View(d, g).fat[256 * s + e := v])
  {
    if g.copies > 1 {
      TableWrittenTwice(d, g, s, e, v, tmp);
    } else {
      TableWrittenOnce(d, g, s, e, v, tmp);
    }
  }

  lemma TableWrittenOnce(d: seq<Byte>, g: Geometry, s: nat, e: nat, v: nat, tmp: seq<Byte>)
    requires OnDisk(d, g) && Mirrored(d, g) && s < g.spf && e < 256 && v < 0x1_0000 && g.copies == 1
    requires SectorPatched(d, g, s, e, v, tmp)
    ensures 256 * s + e < g.Entries()
    ensures var d' := Splice(d, 512 * (g.fatLba + s), tmp);
            Mirrored(d', g) && View(d', g) == View(d, g).(fat := View(d, g).fat[256 * s + e := v])
  {
    RegionsFit(d, g);
    var b, c := 512 * (g.fatLba + s), 256 * s + e;
    assert b + 2 * e == g.FatAt() + 2 * c;
    PatchSector(d, b, 2 * e, Low(v), High(v), tmp);
    EntryWritten(d, Splice(d, b, tmp), g, c, v);
  }

  lemma TableWrittenTwice(d: seq<Byte>, g: Geometry, s: nat, e: nat, v: nat, tmp: seq<Byte>)
    requires OnDisk(d, g) && Mirrored(d, g) && s < g.spf && e < 256 && v < 0x1_0000 && g.copies == 2
    requires SectorPatched(d, g, s, e, v, tmp)
    ensures 256 * s + e < g.Entries() && 512 * (g.fatLba + s) + 512 * g.spf + 512 <= |d|
    ensures var b := 512 * (g.fatLba + s);
            var d' := Splice(Splice(d, b, tmp), b + 512 * g.spf, tmp);
            Mirrored(d', g) && View(d', g) == View(d, g).(fat := View(d, g).fat[256 * s + e := v])
  {
    BothWritten(d, g, 512 * (g.fatLba + s), 256 * s + e, 2 * e, v, tmp);
  }

  /** A sector written to both copies of the table with the entry of cluster c, at byte o, set to v. */
  lemma BothWritten(d: seq<Byte>, g: Geometry, b: nat, c: nat, o: nat, v: nat, tmp: seq<Byte>)
    requires OnDisk(d, g) && Mirrored(d, g) && g.copies == 2 && o + 1 < 512 && b + o == g.FatAt() + 2 * c
    requires g.FatAt() <= b && b + 512 <= g.FatAt() + 2 * g.Entries() && c < g.Entries() && v < 0x1_0000
    requires b + 512 <= |d| && tmp == d[b..b + 512][o := Low(v)][o + 1 := High(v)]
    ensures b + 512 * g.spf + 512 <= |d|
    ensures var d' := Splice(Splice(d, b, tmp), b + 512 * g.spf, tmp);
            Mirrored(d', g) && View(d', g) == View(d, g).(fat := View(d, g).fat[c := v])
  {
    TwoSectors(d, g, b, c, o, Low(v), High(v), tmp);
    EntryWritten(d, Splice(Splice(d, b, tmp), b + 512 * g.spf, tmp), g, c, v);
  }

  lemma TwoSectors(d: seq<Byte>, g: Geometry, b: nat, c: nat, o: nat, lo: Byte, hi: Byte, tmp: seq<Byte>)
    requires OnDisk(d, g) && Mirrored(d, g) && g.copies == 2 && o + 1 < 512 && b + o == g.FatAt() + 2 * c
    requires g.FatAt() <= b && b + 512 <= g.FatAt() + 2 * g.Entries() && c < g.Entries()
    requires b + 512 <= |d| && tmp == d[b..b + 512][o := lo][o + 1 := hi]
    ensures b + 512 * g.spf + 512 <= |d|
    ensures EntryPatched(d, Splice(Splice(d, b, tmp), b + 512 * g.spf, tmp), g, c, lo, hi)
  {
    var b2 := b + 512 * g.spf;
    TwinSector(d, g, b);
    BothCopies(d, b, b2, o, lo, hi, tmp);
  }

  /** A patched sector written over two equal sectors. */
  lemma BothCopies(d: seq<Byte>, b: nat, b2: nat, o: nat, lo: Byte, hi: Byte, tmp: seq<Byte>)
    requires b + 512 <= b2 && b2 + 512 <= |d| && d[b2..b2 + 512] == d[b..b + 512] && o + 1 < 512
    requires tmp == d[b..b + 512][o := lo][o + 1 := hi]
    ensures Splice(Splice(d, b, tmp), b2, tmp) == d[b + o := lo][b + o + 1 := hi][b2 + o := lo][b2 + o + 1 := hi]
  {
    PatchSector(d, b, o, lo, hi, tmp);
    SecondCopy(Splice(d, b, tmp), b2, d[b..b + 512], o, lo, hi);
  }

  /** A sector patched in a copy that has the same bytes there. */
  lemma SecondCopy(d1: seq<Byte>, b2: nat, was: seq<Byte>, o: nat, lo: Byte, hi: Byte)
    requires b2 + 512 <= |d1| && o + 1 < 512 == |was| && d1[b2..b2 + 512] == was
    ensures Splice(d1, b2, was[o := lo][o + 1 := hi]) == d1[b2 + o := lo][b2 + o + 1 := hi]
  {
    PatchSector(d1, b2, o, lo, hi, was[o := lo][o + 1 := hi]);
  }
}
