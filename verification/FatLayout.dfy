// Where things are on the disk, byte by byte, and what the bytes of a directory
// slot say: the tables of the file system's layout, written out.

module FatLayout {
  import opened Basics
  import opened FatBytes
  import opened FatVolume
  import opened FatChains
  import opened FatDriver
  import opened FatNames
  import opened FatDirectory
  import opened FatFiles
  import opened FatContents
  import opened FatSteps
  import opened FatLaws
  import opened FatAppend

  // ---------------------------------------------------------------------
  // The disk

  /** The volumes that the model is about: sectors of table, directory and clusters in this order, fewer than 2^32. */
  lemma GeometryMeans(g: Geometry)
    ensures g.Valid() <==>
            1 <= g.spc <= 255 && 1 <= g.spf <= 256 && (g.copies == 1 || g.copies == 2) &&
            g.clusters + 2 <= 256 * g.spf && g.clusters + 2 <= 0xFFF7 &&
            g.fatLba + g.copies * g.spf + g.rootSectors + g.clusters * g.spc <= g.sectors < 0x1_0000_0000
  {
    TimesIs(g.clusters, g.spc);
  }

  /** The two bytes at a place, low byte first. */
  function TwoBytes(d: seq<Byte>, at: nat): int
    requires at + 1 < |d|
  {
    (d[at] as int) + 256 * (d[at + 1] as int)
  }

  /** Entry c of the table takes two bytes in the first copy, and the same two in the second when there is one. */
  lemma TableOnDisk(d: seq<Byte>, g: Geometry, c: nat)
    requires OnDisk(d, g) && Mirrored(d, g) && c < 256 * g.spf
    ensures 512 * (g.fatLba + g.copies * g.spf) <= |d|
    ensures View(d, g).fat[c] == TwoBytes(d, 512 * g.fatLba + 2 * c)
    ensures g.copies == 2 ==> View(d, g).fat[c] == TwoBytes(d, 512 * (g.fatLba + g.spf) + 2 * c)
  {
    RegionsFit(d, g);
    if g.copies == 2 {
      assert Twin(d, g, 2 * c) && Twin(d, g, 2 * c + 1);
    }
  }

  /** The root directory follows the copies of the table; its slots take 32 bytes each. */
  lemma SlotOnDisk(d: seq<Byte>, g: Geometry, i: nat, b: nat, at: nat)
    requires OnDisk(d, g) && i < 16 * g.rootSectors && b < 32
    requires at == 512 * (g.fatLba + g.copies * g.spf) + 32 * i + b
    ensures at < |d| && View(d, g).slots[i][b] == d[at]
  {
    RegionsFit(d, g);
    assert g.copies * g.spf == g.TableSectors();
    assert View(d, g).slots[i] == SlotAt(d, g, i);
  }

  /** The data clusters follow the root directory, and the first of them has number 2. */
  lemma ClusterOnDisk(d: seq<Byte>, g: Geometry, c: nat, b: nat, at: nat)
    requires OnDisk(d, g) && 2 <= c < g.clusters + 2 && b < 512 * g.spc
    requires at == 512 * (g.fatLba + g.copies * g.spf + g.rootSectors) + (c - 2) * (512 * g.spc) + b
    ensures at < |d| && View(d, g).data[c - 2][b] == d[at]
  {
    ClusterInDisk(d, g, c - 2);
    TimesIs(c - 2, g.ClusterSize());
    assert g.copies * g.spf == g.TableSectors();
    assert at == ClusterOffset(g, c - 2) + b;
    assert View(d, g).data[c - 2] == ClusterAt(d, g, c - 2);
  }

  /** Links of a chain are numbers of data clusters, 0 is a free entry, and 0xFFF8 and above end a chain. */
  lemma ChainMarks(v: Vol, v': Vol, g: Geometry, chain: seq<nat>, content: seq<Byte>, k: nat)
    requires g.Valid() && Grown(v, v', g.clusters, chain, content, g.ClusterSize()) && k < |chain|
    ensures 2 <= chain[k] < |v.fat| && v.fat[chain[k]] == 0
    ensures v'.fat[chain[k]] == if k + 1 < |chain| then chain[k + 1] else 0xFFF8
    ensures IsChain(v'.fat, g.clusters, chain[0], chain)
  {
    LinkedIsChain(v.fat, v'.fat, g.clusters, chain);
  }

  // ---------------------------------------------------------------------
  // Slots

  /** Bit n of a number, for the lowest five bits. */
  predicate Bit(x: nat, n: nat)
    requires n < 5
  {
    (if n == 0 then x else if n == 1 then x / 2 else if n == 2 then x / 4 else if n == 3 then x / 8 else x / 16) % 2 ==
    1
  }

  lemma AttributeBits(e: Slot)
    requires |e| == 32
    ensures HasVolumeBit(e) <==> Bit(e[11], 3)
    ensures HasDirectoryBit(e) <==> Bit(e[11], 4)
    ensures IsLongName(e) <==> Bit(e[11], 0) && Bit(e[11], 1) && Bit(e[11], 2) && Bit(e[11], 3)
  {
    BitsOf(e[11]);
  }

  /** The driver's masks, as remainders. */
  lemma BitsOf(x: nat)
    ensures Bit(x, 3) <==> x % 16 >= 8
    ensures Bit(x, 4) <==> x % 32 >= 16
    ensures x % 16 == 15 <==> Bit(x, 0) && Bit(x, 1) && Bit(x, 2) && Bit(x, 3)
  {
    LowBits(x);
    BitThree(x);
    BitFour(x);
  }

  lemma LowBits(x: nat)
    ensures x % 4 == x % 2 + (if x / 2 % 2 == 1 then 2 else 0) && x % 8 == x % 4 + if x / 4 % 2 == 1 then 4 else 0
  {
  }

  lemma BitThree(x: nat)
    ensures x % 16 == x % 8 + if x / 8 % 2 == 1 then 8 else 0
  {
    Halves(x, 8, x / 8, x % 8);
  }

  lemma BitFour(x: nat)
    ensures x % 32 == x % 16 + if x / 16 % 2 == 1 then 16 else 0
  {
    Halves(x, 16, x / 16, x % 16);
  }

  /** Division by m, and then by 2, is division by 2m. */
  lemma Halves(x: nat, m: nat, q: nat, r: nat)
    requires (m == 8 || m == 16) && x == m * q + r && r < m
    ensures x % (2 * m) == r + if q % 2 == 1 then m else 0
  {
    var p, b := q / 2, q % 2;
    assert q == 2 * p + b;
    if m == 8 {
      OneQuotient(16, p, 8 * b + r, x / 16, x % 16);
    } else {
      OneQuotient(32, p, 16 * b + r, x / 32, x % 32);
    }
  }

  /** The number in the two bytes at 26: the first cluster. */
  function ClusterBytes(e: Slot): int
    requires |e| == 32
  {
    (e[26] as int) + 256 * (e[27] as int)
  }

  /** The number in the four bytes at 28: the size. */
  function SizeBytes(e: Slot): int
    requires |e| == 32
  {
    (e[28] as int) + 256 * (e[29] as int) + 65536 * (e[30] as int) + 16777216 * (e[31] as int)
  }

  /**
    What a slot that is in use shows: nothing when bit 3 of its attribute byte is
    set, as in volume labels and parts of long names; otherwise a directory when
    bit 4 is set, and a file when it is clear.
   */
  ghost function Shows(e: Slot): seq<Item>
    requires |e| == 32
  {
    if e[0] == 0xE5 || Bit(e[11], 3) then []
    else if Bit(e[11], 4) then [DirItem(Shown(e[..11]))]
    else [FileItem(Shown(e[..11]), SizeBytes(e), ClusterBytes(e))]
  }

  /** What the slots from k on show, up to the first one that starts with a zero byte. */
  ghost function ShowsFrom(slots: seq<Slot>, k: nat): seq<Item>
    requires Slots32(slots) && k <= |slots|
    decreases |slots| - k
  {
    if k == |slots| || slots[k][0] == 0 then [] else Shows(slots[k]) + ShowsFrom(slots, k + 1)
  }

  lemma SlotShows(e: Slot)
    requires |e| == 32
    ensures Shows(e) == if IsListed(e) then [ItemOf(e)] else []
  {
    AttributeBits(e);
  }

  lemma {:induction false} ListingFrom(slots: seq<Slot>, k: nat)
    requires Slots32(slots) && k <= EndFrom(slots, 0)
    ensures ItemsBelow(slots, k) + ShowsFrom(slots, k) == Listing(slots)
    decreases EndFrom(slots, 0) - k
  {
    if k < EndFrom(slots, 0) {
      ListingFrom(slots, k + 1);
      SlotShows(slots[k]);
      assert !IsEnd(slots[k]) && ItemsBelow(slots, k + 1) == ItemsBelow(slots, k) + Shows(slots[k]);
      Grouped(ItemsBelow(slots, k), Shows(slots[k]), ShowsFrom(slots, k + 1));
    } else {
      assert ShowsFrom(slots, k) == [];
      assert ItemsBelow(slots, k) + [] == ItemsBelow(slots, k);
    }
  }

  lemma Grouped(x: seq<Item>, y: seq<Item>, z: seq<Item>)
    ensures x + (y + z) == (x + y) + z
  {
  }

  /** The listing is what the slots show, in their order. */
  lemma ListingShows(slots: seq<Slot>)
    requires Slots32(slots)
    ensures Listing(slots) == ShowsFrom(slots, 0)
  {
    ListingFrom(slots, 0);
    assert ItemsBelow(slots, 0) == [];
    assert [] + ShowsFrom(slots, 0) == ShowsFrom(slots, 0);
  }

  /** A slot of this name, in use, without the volume bit and, when only files are wanted, without the directory bit. */
  predicate IsMatchFor(e: Slot, name: seq<Byte>, files: bool)
    requires |e| == 32
  {
    e[0] != 0 && e[0] != 0xE5 && !Bit(e[11], 3) && (files ==> !Bit(e[11], 4)) && e[..11] == name
  }

  /** i is the first match from k on that comes before the end of the directory; |slots| when there is none. */
  ghost predicate IsFirstMatch(slots: seq<Slot>, name: seq<Byte>, files: bool, k: nat, i: nat)
    requires Slots32(slots)
  {
    k <= i <= |slots| &&
    (i < |slots| ==> IsMatchFor(slots[i], name, files) && forall j :: k <= j <= i ==> slots[j][0] != 0) &&
    forall m {:trigger slots[m]} :: k <= m < i && IsMatchFor(slots[m], name, files) ==>
      exists j :: k <= j < m && slots[j][0] == 0
  }

  /** The search of a rewrite finds files only, never a slot with the directory bit. */
  lemma {:induction false} RewriteFinds(slots: seq<Slot>, name: seq<Byte>, k: nat)
    requires Slots32(slots) && k <= |slots|
    ensures IsFirstMatch(slots, name, true, k, FindFile(slots, name, k))
    decreases |slots| - k
  {
    if k < |slots| {
      AttributeBits(slots[k]);
      if !IsEnd(slots[k]) && !(IsFile(slots[k]) && NameOf(slots[k]) == name) {
        RewriteFinds(slots, name, k + 1);
        Later(slots, name, true, k, FindFile(slots, name, k + 1));
      } else if IsEnd(slots[k]) {
        EndFirst(slots, name, true, k);
      }
    }
  }

  /** The search of delete finds files and directories. */
  lemma {:induction false} DeleteFinds(slots: seq<Slot>, name: seq<Byte>, k: nat)
    requires Slots32(slots) && k <= |slots|
    ensures IsFirstMatch(slots, name, false, k, FindNamed(slots, name, k))
    decreases |slots| - k
  {
    if k < |slots| {
      AttributeBits(slots[k]);
      if !IsEnd(slots[k]) && !(IsNamed(slots[k]) && NameOf(slots[k]) == name) {
        DeleteFinds(slots, name, k + 1);
        Later(slots, name, false, k, FindNamed(slots, name, k + 1));
      } else if IsEnd(slots[k]) {
        EndFirst(slots, name, false, k);
      }
    }
  }

  lemma Later(slots: seq<Slot>, name: seq<Byte>, files: bool, k: nat, i: nat)
    requires Slots32(slots) && k < |slots| && slots[k][0] != 0 && !IsMatchFor(slots[k], name, files)
    requires IsFirstMatch(slots, name, files, k + 1, i)
    ensures IsFirstMatch(slots, name, files, k, i)
  {
    forall m {:trigger slots[m]} | k <= m < i && IsMatchFor(slots[m], name, files)
      ensures exists j :: k <= j < m && slots[j][0] == 0
    {
      assert m > k;
      var j :| k + 1 <= j < m && slots[j][0] == 0;
    }
  }

  lemma EndFirst(slots: seq<Slot>, name: seq<Byte>, files: bool, k: nat)
    requires Slots32(slots) && k < |slots| && slots[k][0] == 0
    ensures IsFirstMatch(slots, name, files, k, |slots|)
  {
    forall m {:trigger slots[m]} | k <= m < |slots| && IsMatchFor(slots[m], name, files)
      ensures exists j :: k <= j < m && slots[j][0] == 0
    {
      assert m != k;
    }
  }

  /** A new file takes the first slot that starts with 0 or 0xE5. */
  lemma CreateTakes(slots: seq<Slot>)
    requires Slots32(slots)
    ensures var i := FirstUsable(slots, 0);
            (i < |slots| ==> slots[i][0] == 0 || slots[i][0] == 0xE5) &&
            forall j {:trigger slots[j]} :: 0 <= j < i ==> slots[j][0] != 0 && slots[j][0] != 0xE5
  {
  }

  /** What fat16_write_file does to a volume. */
  ghost predicate Written(v: Vol, v': Vol, g: Geometry, name: seq<Byte>, content: seq<Byte>, chain: seq<nat>, ok: bool)
    requires g.Valid() && Slots32(v.slots)
  {
    var i := FindFile(v.slots, Encoded(name), 0);
    if i < |v.slots| then Rewritten(v, v', g, i, content, chain, ok) else Created(v, v', g, name, content, chain, ok)
  }

  /** A write leaves every directory slot in use alone, even one of the name that is written. */
  lemma WriteLeavesDirectories(v: Vol, v': Vol, g: Geometry, name: seq<Byte>, content: seq<Byte>, chain: seq<nat>,
      ok: bool, k: nat)
    requires g.Valid() && Slots32(v.slots) && Written(v, v', g, name, content, chain, ok)
    requires k < |v.slots| && v.slots[k][0] != 0 && v.slots[k][0] != 0xE5 && Bit(v.slots[k][11], 4)
    ensures k < |v'.slots| && v'.slots[k] == v.slots[k]
  {
    AttributeBits(v.slots[k]);
    RewriteFinds(v.slots, Encoded(name), 0);
    CreateTakes(v.slots);
  }

  /** The slot of a new file, byte by byte: archive attribute, a fixed date, first cluster and size, low bytes first. */
  lemma NewSlotBytes(name: seq<Byte>, first: nat, size: nat)
    requires |name| == 11 && first < 0x1_0000 && size < 0x1_0000_0000
    ensures var e := NewSlot(name, first, size);
            e[..11] == name && e[11] == 0x20 && e[16] == e[24] == 0x21 && e[17] == e[25] == 0x58 &&
            (forall k :: 12 <= k < 16 || 18 <= k < 24 ==> e[k] == 0) &&
            ClusterBytes(e) == first && SizeBytes(e) == size
  {
    NewSlotFields(name, first, size);
  }

  /** The slot of a rewritten file: what comes before byte 22 stays, then zero time, the date, cluster and size. */
  lemma RewrittenSlotBytes(e: Slot, first: nat, size: nat)
    requires |e| == 32 && first < 0x1_0000 && size < 0x1_0000_0000
    ensures var r := RewrittenSlot(e, first, size);
            r[..22] == e[..22] && r[22] == r[23] == 0 && r[24] == 0x21 && r[25] == 0x58 &&
            ClusterBytes(r) == first && SizeBytes(r) == size
  {
    RewrittenSlotFields(e, first, size);
  }

  // ---------------------------------------------------------------------
  // Names

  /** A letter of the lower case is stored as one of the upper case. */
  function Capital(c: int): int {
    if 97 <= c <= 122 then c - 32 else c
  }

  /** A name with a dot is stored as eight bytes of what comes before its last dot and three of what comes after it. */
  lemma DottedStored(b: seq<Byte>, x: seq<Byte>, i: nat)
    requires 46 !in x && i < 11
    ensures Encoded(b + [46] + x)[i] ==
            if i < 8 then (if i < |b| then Capital(b[i]) else 32) else (if i - 8 < |x| then Capital(x[i - 8]) else 32)
  {
    var s := b + [46] + x;
    assert s[|b| + 1..] == x;
    LastDotIs(s, |b|);
    assert s[..|b|] == b;
  }

  /** A name without a dot is stored as eight bytes and three spaces. */
  lemma PlainStored(b: seq<Byte>, i: nat)
    requires 46 !in b && i < 11
    ensures Encoded(b)[i] == if i < 8 && i < |b| then Capital(b[i]) else 32
  {
    assert b[..|b|] == b;
  }

  /** Append keeps everything exactly up to 4000 old bytes and 4096 in all. */
  lemma AppendLimits(old_: seq<Byte>, content: seq<Byte>)
    ensures Joined(old_, content) == old_ + content <==> |old_| <= 4000 && |old_| + |content| <= 4096
  {
    JoinedIff(old_, content);
  }
}
