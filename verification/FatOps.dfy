// The operations on names: create, write, delete, list.

module FatOps {
  import opened Basics
  import opened FatBytes
  import opened FatVolume
  import opened FatChains
  import opened FatDriver
  import opened FatNames
  import opened FatDirectory
  import opened FatFiles
  import opened FatContents
  import opened FatSteps

  // ---------------------------------------------------------------------
  // The directory buffer

  /** The buffer spells the slots. */
  ghost predicate Buffers(buf: seq<Byte>, slots: seq<Slot>) {
    |buf| == 32 * |slots| &&
    forall i {:trigger slots[i]} :: 0 <= i < |slots| ==> slots[i] == buf[32 * i..32 * i + 32]
  }

  lemma RootBuffers(d: seq<Byte>, g: Geometry)
    requires OnDisk(d, g)
    ensures g.RootAt() <= g.DataAt() <= |d|
    ensures Buffers(d[g.RootAt()..g.DataAt()], View(d, g).slots)
  {
    RegionsFit(d, g);
    var buf, slots := d[g.RootAt()..g.DataAt()], View(d, g).slots;
    forall i | 0 <= i < |slots|
      ensures slots[i] == buf[32 * i..32 * i + 32]
    {
      SliceOfSlice(d, g.RootAt(), 32 * g.Slots(), 32 * i, 32);
    }
  }

  /** The slots determine the buffer. */
  lemma BufferIs(buf: seq<Byte>, buf': seq<Byte>, slots: seq<Slot>)
    requires Buffers(buf, slots) && Buffers(buf', slots)
    ensures buf == buf'
  {
    forall x | 0 <= x < |buf|
      ensures buf[x] == buf'[x]
    {
      assert slots[x / 32][x % 32] == buf[32 * (x / 32) + x % 32];
      assert slots[x / 32][x % 32] == buf'[32 * (x / 32) + x % 32];
    }
  }

  /** Reads the whole directory. */
  method ReadRoot(d: Fat16) returns (buf: seq<Byte>)
    requires OnDisk(d.disk, d.g)
    ensures Buffers(buf, d.V().slots) && |d.V().slots| == d.g.Slots()
  {
    RootBuffers(d.disk, d.g);
    buf := d.Read(d.g.RootLba(), d.g.rootSectors);
  }

  /** The disk after the whole directory is written back with slot i replaced. */
  lemma RootWritten(d: seq<Byte>, g: Geometry, buf: seq<Byte>, i: nat, e: Slot)
    requires OnDisk(d, g) && Mirrored(d, g) && Buffers(buf, View(d, g).slots) && i < g.Slots() && |e| == 32
    ensures 32 * i + 32 <= |buf| && 512 * g.RootLba() + |buf| <= |d| && |buf| % 512 == 0
    ensures var d' := Splice(d, 512 * g.RootLba(), Splice(buf, 32 * i, e));
            OnDisk(d', g) && Mirrored(d', g) && View(d', g) == View(d, g).(slots := View(d, g).slots[i := e])
  {
    RootBuffers(d, g);
    RegionsFit(d, g);
    BufferIs(buf, d[g.RootAt()..g.DataAt()], View(d, g).slots);
    SlotWritten(d, g, i, e);
    RegionWrittenBack(d, g.RootAt(), 32 * g.Slots(), 32 * i, e);
  }

  /** Puts e in place of slot i of the buffer and writes the whole directory back. */
  method WriteRoot(d: Fat16, buf: seq<Byte>, i: nat, e: Slot)
    requires d.Formatted() && Buffers(buf, d.V().slots) && i < d.g.Slots() && |e| == 32
    modifies d
    ensures d.Formatted() && d.V() == old(d.V()).(slots := old(d.V()).slots[i := e])
  {
    RootWritten(d.disk, d.g, buf, i, e);
    var root := Splice(buf, 32 * i, e);
    d.Write(d.g.RootLba(), root);
  }

  /** Slot i of the buffer. */
  function SlotOf(buf: seq<Byte>, i: nat): (e: Slot)
    requires 32 * i + 32 <= |buf|
    ensures |e| == 32
  {
    buf[32 * i..32 * i + 32]
  }

  /** The two comparison loops over an 8.3 name. */
  method Matches(e: Slot, raw8: seq<Byte>, raw3: seq<Byte>) returns (m: bool)
    requires |e| == 32 && |raw8| == 8 && |raw3| == 3
    ensures m <==> NameOf(e) == raw8 + raw3
  {
    ghost var raw := raw8 + raw3;
    m := true;
    var k := 0;
    while k < 8
      invariant 0 <= k <= 8 && forall x :: 0 <= x < k ==> e[x] == raw[x]
    {
      if e[k] != raw8[k] {
        assert NameOf(e)[k] != raw[k];
        return false;
      }
      k := k + 1;
    }
    k := 0;
    while k < 3
      invariant 0 <= k <= 3 && forall x :: 0 <= x < 8 + k ==> e[x] == raw[x]
    {
      if e[8 + k] != raw3[k] {
        assert NameOf(e)[8 + k] != raw[8 + k];
        return false;
      }
      k := k + 1;
    }
    assert NameOf(e) == raw;
  }

  // ---------------------------------------------------------------------
  // The searches

  /** The slot search of fat16_create_file. */
  method FindUsable(buf: seq<Byte>, n: nat, ghost slots: seq<Slot>) returns (i: nat)
    requires Buffers(buf, slots) && Slots32(slots) && n == |slots|
    ensures i == FirstUsable(slots, 0)
  {
    i := 0;
    while i < n
      invariant i <= n && FirstUsable(slots, i) == FirstUsable(slots, 0)
    {
      var e := SlotOf(buf, i);
      assert e == slots[i];
      if IsFree(e) || IsEnd(e) {
        return;
      }
      i := i + 1;
    }
  }

  /** The search of fat16_write_file: files only. */
  method SearchFile(buf: seq<Byte>, n: nat, raw8: seq<Byte>, raw3: seq<Byte>, ghost slots: seq<Slot>) returns (i: nat)
    requires Buffers(buf, slots) && Slots32(slots) && n == |slots| && |raw8| == 8 && |raw3| == 3
    ensures i == FindFile(slots, raw8 + raw3, 0)
  {
    i := 0;
    while i < n
      invariant i <= n && FindFile(slots, raw8 + raw3, i) == FindFile(slots, raw8 + raw3, 0)
    {
      var e := SlotOf(buf, i);
      assert e == slots[i];
      if IsEnd(e) {
        return n;
      }
      if !IsFree(e) && !HasVolumeBit(e) && !IsLongName(e) && !HasDirectoryBit(e) {
        var m := Matches(e, raw8, raw3);
        if m {
          return;
        }
      }
      i := i + 1;
    }
  }

  /** The search of fat16_delete_file: files and directories. */
  method SearchNamed(buf: seq<Byte>, n: nat, raw8: seq<Byte>, raw3: seq<Byte>, ghost slots: seq<Slot>) returns (i: nat)
    requires Buffers(buf, slots) && Slots32(slots) && n == |slots| && |raw8| == 8 && |raw3| == 3
    ensures i == FindNamed(slots, raw8 + raw3, 0)
  {
    i := 0;
    while i < n
      invariant i <= n && FindNamed(slots, raw8 + raw3, i) == FindNamed(slots, raw8 + raw3, 0)
    {
      var e := SlotOf(buf, i);
      assert e == slots[i];
      if IsEnd(e) {
        return n;
      }
      if !IsFree(e) && !HasVolumeBit(e) {
        var m := Matches(e, raw8, raw3);
        if m {
          return;
        }
      }
      i := i + 1;
    }
  }

  // ---------------------------------------------------------------------
  // fat16_create_file, fat16_write_file, fat16_delete_file

  /** fat16_create_file; ok stands for the return value 0. */
  method CreateFile(d: Fat16, name: seq<Byte>, content: seq<Byte>) returns (ok: bool, ghost chain: seq<nat>)
    requires d.Formatted() && TailReserved(d.V().fat, d.g.clusters) && |content| + d.g.ClusterSize() <= 0x1_0000_0000
    modifies d
    ensures d.Formatted() && Created(old(d.V()), d.V(), d.g, name, content, chain, ok)
  {
    ghost var v := d.V();
    var buf := ReadRoot(d);
    var i := FindUsable(buf, d.g.Slots(), v.slots);
    if i == d.g.Slots() {
      return false, [];
    }
    var first;
    ok, first, chain := GrowChain(d, content);
    ghost var w := d.V();
    assert w.(slots := v.slots) == w;
    if !ok {
      return;
    }
    var raw8, raw3 := EncodeName(name);
    WriteRoot(d, buf, i, NewSlot(raw8 + raw3, first, |content|));
    assert d.V().(slots := v.slots) == w;
  }

  /** The second half of fat16_write_file. */
  method RewriteFile(d: Fat16, buf: seq<Byte>, i: nat, content: seq<Byte>) returns (ok: bool, ghost chain: seq<nat>)
    requires d.Formatted() && TailReserved(d.V().fat, d.g.clusters) && LinksInTable(d.V().fat)
    requires IsFileAt(d.V(), i) && FileEnds(d.V(), d.g, d.V().slots[i]) && Buffers(buf, d.V().slots)
    requires |content| + d.g.ClusterSize() <= 0x1_0000_0000
    modifies d
    ensures d.Formatted() && Rewritten(old(d.V()), d.V(), d.g, i, content, chain, ok)
  {
    ghost var v := d.V();
    var e := SlotOf(buf, i);
    assert e == v.slots[i];
    ghost var mid := v.(fat := FreedFat(v.fat, SlotChain(v, d.g, e)));
    FreeFirst(v, d.g, i);
    FreeReserved(v, mid, d.g, i);
    FreeChain(d, FirstOf(e), SlotChain(v, d.g, e));
    FreedIs(v, d.V(), d.g, i);
    var first;
    ok, first, chain := GrowChain(d, content);
    ghost var w := d.V();
    assert w.(slots := v.slots) == w;
    if ok {
      WriteRoot(d, buf, i, RewrittenSlot(e, first, |content|));
      assert d.V().(slots := v.slots) == w;
    }
  }

  /** A file's first cluster is one the freeing loop can start from. */
  lemma FreeFirst(v: Vol, g: Geometry, i: nat)
    requires g.Valid() && Shaped(v, g) && IsFileAt(v, i) && FileEnds(v, g, v.slots[i])
    ensures FirstOf(v.slots[i]) < g.Entries()
  {
    var chain := SlotChain(v, g, v.slots[i]);
    if chain != [] {
      assert InRange(chain[0], g.clusters);
    }
  }

  /** What the freeing loop leaves. */
  lemma FreedIs(v: Vol, w: Vol, g: Geometry, i: nat)
    requires g.Valid() && Shaped(v, g) && IsFileAt(v, i) && FileEnds(v, g, v.slots[i]) && w == v.(fat := w.fat)
    requires FirstOf(v.slots[i]) < 2 || FirstOf(v.slots[i]) >= BAD ==> w == v
    requires IsChain(v.fat, g.clusters, FirstOf(v.slots[i]), SlotChain(v, g, v.slots[i])) ==>
             Freed(v.fat, w.fat, SlotChain(v, g, v.slots[i]))
    ensures w == v.(fat := FreedFat(v.fat, SlotChain(v, g, v.slots[i])))
  {
    var chain := SlotChain(v, g, v.slots[i]);
    if chain == [] {
      assert FreedFat(v.fat, chain) == v.fat;
    } else {
      assert FreedFat(v.fat, chain) == w.fat;
    }
  }

  /** fat16_write_file: rewrites the file of that name, or creates it. */
  method WriteFile(d: Fat16, name: seq<Byte>, content: seq<Byte>) returns (ok: bool, ghost chain: seq<nat>)
    requires d.Formatted() && TailReserved(d.V().fat, d.g.clusters) && LinksInTable(d.V().fat)
    requires |content| + d.g.ClusterSize() <= 0x1_0000_0000
    requires var i := FindFile(d.V().slots, Encoded(name), 0);
             i < |d.V().slots| ==> FileEnds(d.V(), d.g, d.V().slots[i])
    modifies d
    ensures d.Formatted()
    ensures var i := FindFile(old(d.V()).slots, Encoded(name), 0);
            if i < |old(d.V()).slots| then Rewritten(old(d.V()), d.V(), d.g, i, content, chain, ok)
            else Created(old(d.V()), d.V(), d.g, name, content, chain, ok)
  {
    ghost var v := d.V();
    var buf := ReadRoot(d);
    var raw8, raw3 := EncodeName(name);
    var i := SearchFile(buf, d.g.Slots(), raw8, raw3, v.slots);
    if i == d.g.Slots() {
      ok, chain := CreateFile(d, name, content);
    } else {
      ok, chain := RewriteFile(d, buf, i, content);
    }
  }

  /** fat16_delete_file. */
  method DeleteFile(d: Fat16, name: seq<Byte>) returns (ok: bool)
    requires d.Formatted()
    modifies d
    ensures d.Formatted() && Deleted(old(d.V()), d.V(), name, ok)
  {
    ghost var v := d.V();
    var buf := ReadRoot(d);
    var raw8, raw3 := EncodeName(name);
    var i := SearchNamed(buf, d.g.Slots(), raw8, raw3, v.slots);
    if i == d.g.Slots() {
      return false;
    }
    var e := SlotOf(buf, i);
    assert e == v.slots[i];
    WriteRoot(d, buf, i, e[0 := 0xE5]);
    ok := true;
  }

  // ---------------------------------------------------------------------
  // Listing

  lemma EndFromSkips(slots: seq<Slot>, k: nat)
    requires Slots32(slots) && k < |slots| && !IsEnd(slots[k])
    ensures EndFrom(slots, k) == EndFrom(slots, k + 1)
  {
  }

  /** No end mark among the first k slots, and this many of them are listed. */
  ghost predicate CountedTo(count: nat, slots: seq<Slot>, k: nat)
    requires Slots32(slots)
  {
    k <= |slots| && EndFrom(slots, k) == EndFrom(slots, 0) && count == |ItemsBelow(slots, k)|
  }

  lemma CountedMore(count: nat, slots: seq<Slot>, k: nat)
    requires Slots32(slots) && k < |slots| && CountedTo(count, slots, k) && !IsEnd(slots[k])
    ensures CountedTo(if IsListed(slots[k]) then count + 1 else count, slots, k + 1)
  {
    EndFromSkips(slots, k);
  }

  lemma CountedAll(count: nat, slots: seq<Slot>, k: nat)
    requires Slots32(slots) && CountedTo(count, slots, k) && (k < |slots| ==> IsEnd(slots[k]))
    ensures count == |Listing(slots)|
  {
  }

  /** The counting pass over one sector; stop says that the end mark was met. */
  method CountSector(buf: seq<Byte>, sector: nat, count: nat, ghost slots: seq<Slot>) returns (n: nat, stop: bool)
    requires Buffers(buf, slots) && Slots32(slots) && 16 * sector + 16 <= |slots| &&
             CountedTo(count, slots, 16 * sector)
    ensures if stop then n == |Listing(slots)| else CountedTo(n, slots, 16 * sector + 16)
  {
    n, stop := count, false;
    var i: nat := 0;
    while i < 16
      invariant i <= 16 && CountedTo(n, slots, 16 * sector + i)
    {
      var e := SlotOf(buf, 16 * sector + i);
      assert e == slots[16 * sector + i];
      if IsEnd(e) {
        CountedAll(n, slots, 16 * sector + i);
        return n, true;
      }
      CountedMore(n, slots, 16 * sector + i);
      if !IsFree(e) && !HasVolumeBit(e) && !IsLongName(e) {
        n := n + 1;
      }
      i := i + 1;
    }
  }

  /** The counting pass of fat16_get_root_entries. */
  method CountListed(buf: seq<Byte>, sectors: nat, ghost slots: seq<Slot>) returns (count: nat)
    requires Buffers(buf, slots) && Slots32(slots) && |slots| == 16 * sectors
    ensures count == |Listing(slots)|
  {
    count := 0;
    var sector: nat, stop := 0, false;
    while sector < sectors
      invariant sector <= sectors && CountedTo(count, slots, 16 * sector)
    {
      count, stop := CountSector(buf, sector, count, slots);
      if stop {
        return;
      }
      sector := sector + 1;
    }
    CountedAll(count, slots, 16 * sector);
  }

  /** One listed item. */
  method MakeItem(e: Slot) returns (item: Item)
    requires |e| == 32
    ensures item == ItemOf(e)
  {
    var name := FormatName(e[..8], e[8..11]);
    assert e[..8] + e[8..11] == NameOf(e);
    if HasDirectoryBit(e) {
      item := DirItem(name);
    } else {
      item := FileItem(name, SizeOf(e), FirstOf(e));
    }
  }

  lemma {:induction false} ItemsPrefix(slots: seq<Slot>, k: nat, n: nat)
    requires Slots32(slots) && k <= n <= |slots|
    ensures |ItemsBelow(slots, k)| <= |ItemsBelow(slots, n)|
    decreases n
  {
    if k < n {
      ItemsPrefix(slots, k, n - 1);
    }
  }

  /** A listed slot before the end mark has its place in the listing. */
  lemma ItemHasPlace(slots: seq<Slot>, k: nat)
    requires Slots32(slots) && k < |slots| && !IsEnd(slots[k]) && EndFrom(slots, k) == EndFrom(slots, 0)
    ensures EndFrom(slots, k + 1) == EndFrom(slots, 0)
    ensures IsListed(slots[k]) ==> |ItemsBelow(slots, k)| < |Listing(slots)|
  {
    EndFromSkips(slots, k);
    ItemsPrefix(slots, k + 1, EndFrom(slots, 0));
  }

  /** out is filled with the items of the first k slots. */
  ghost predicate FilledTo(out: array<Item>, n: nat, slots: seq<Slot>, k: nat)
    requires Slots32(slots)
    reads out
  {
    k <= |slots| && n <= out.Length == |Listing(slots)| && out[..n] == ItemsBelow(slots, k) &&
    EndFrom(slots, k) == EndFrom(slots, 0)
  }

  /** One turn of the filling pass: the item of slot k, when it is listed. */
  method FillOne(out: array<Item>, n: nat, e: Slot, ghost slots: seq<Slot>, ghost k: nat) returns (n': nat)
    requires Slots32(slots) && FilledTo(out, n, slots, k) && k < |slots| && e == slots[k] && !IsEnd(e)
    modifies out
    ensures FilledTo(out, n', slots, k + 1)
  {
    ItemHasPlace(slots, k);
    n' := n;
    if !IsFree(e) && !HasVolumeBit(e) && !IsLongName(e) {
      var item := MakeItem(e);
      out[n] := item;
      n' := n + 1;
      assert out[..n + 1] == out[..n] + [item];
    }
  }

  /** The filling pass over one sector. */
  method FillSector(buf: seq<Byte>, sector: nat, out: array<Item>, n0: nat, ghost slots: seq<Slot>) returns (n: nat,
      stop: bool)
    requires Buffers(buf, slots) && Slots32(slots) && 16 * sector + 16 <= |slots| &&
             FilledTo(out, n0, slots, 16 * sector)
    modifies out
    ensures if stop then out[..] == Listing(slots) else FilledTo(out, n, slots, 16 * sector + 16)
  {
    n, stop := n0, false;
    var i: nat := 0;
    while i < 16
      invariant i <= 16 && FilledTo(out, n, slots, 16 * sector + i)
    {
      var e := SlotOf(buf, 16 * sector + i);
      assert e == slots[16 * sector + i];
      if IsEnd(e) {
        FilledAll(out, n, slots, 16 * sector + i);
        return n, true;
      }
      n := FillOne(out, n, e, slots, 16 * sector + i);
      i := i + 1;
    }
  }

  lemma FilledAll(out: array<Item>, n: nat, slots: seq<Slot>, k: nat)
    requires Slots32(slots) && FilledTo(out, n, slots, k) && (k < |slots| ==> IsEnd(slots[k]))
    ensures out[..] == Listing(slots)
  {
    assert out[..] == out[..n];
  }

  /** The filling pass of fat16_get_root_entries. */
  method FillListed(buf: seq<Byte>, sectors: nat, out: array<Item>, ghost slots: seq<Slot>)
    requires Buffers(buf, slots) && Slots32(slots) && |slots| == 16 * sectors && out.Length == |Listing(slots)|
    modifies out
    ensures out[..] == Listing(slots)
  {
    var n: nat, sector: nat, stop := 0, 0, false;
    while sector < sectors
      invariant sector <= sectors && FilledTo(out, n, slots, 16 * sector)
    {
      n, stop := FillSector(buf, sector, out, n, slots);
      if stop {
        return;
      }
      sector := sector + 1;
    }
    FilledAll(out, n, slots, 16 * sector);
  }

  /** fat16_get_root_entries. */
  method GetRootEntries(d: Fat16) returns (entries: array<Item>)
    requires OnDisk(d.disk, d.g)
    ensures fresh(entries) && entries[..] == Listing(d.V().slots)
  {
    ghost var slots := d.V().slots;
    var buf := ReadRoot(d);
    var count := CountListed(buf, d.g.rootSectors, slots);
    entries := new Item[count](_ => DirItem([]));
    if count > 0 {
      FillListed(buf, d.g.rootSectors, entries, slots);
    }
  }

  // ---------------------------------------------------------------------
  // Reading and writing through a listed item

  /** The part of s that a read of len bytes at offset gives. */
  ghost function Slice(s: seq<Byte>, offset: nat, len: nat): seq<Byte> {
    if offset >= |s| then [] else s[offset..offset + Min(len, |s| - offset)]
  }

  /** Inside the file, the bytes read from the chain are bytes of the content. */
  lemma ReadIsSlice(b: seq<Byte>, size: nat, offset: nat, len: nat, n: nat, buf: seq<Byte>)
    requires offset < size && offset < |b|
    requires n == Min(Min(len, size - offset), |b| - offset) && buf == b[offset..offset + n]
    ensures buf == Slice(Cut(b, size), offset, len)
  {
    assert Cut(b, size)[offset..offset + n] == b[offset..offset + n];
  }

  /**
    Reading a file whose chain ends gives the slice of its content, at any offset
    and length; -1 says that the offset is inside the size and past the last cluster.
   */
  lemma ReadsContent(v: Vol, g: Geometry, e: Slot, offset: nat, len: nat, n: int, buf: seq<Byte>)
    requires g.Valid() && Shaped(v, g) && |e| == 32 && FileEnds(v, g, e)
    requires ReadResult(Gather(v.data, SlotChain(v, g, e)), |SlotChain(v, g, e)|, g.ClusterSize(), SizeOf(e), offset,
             len, n, buf)
    ensures buf == Slice(ContentOf(v, g, e), offset, len)
    ensures n == if |ContentOf(v, g, e)| <= offset < SizeOf(e) then -1 else |buf|
  {
    EndsFile(v, g, e);
    if offset < |ContentOf(v, g, e)| {
      StartIsOffset(offset, g.ClusterSize(), |SlotChain(v, g, e)|);
      ReadIsSlice(Gather(v.data, SlotChain(v, g, e)), SizeOf(e), offset, len, n, buf);
    } else if offset < SizeOf(e) {
      PastChain(offset, g.ClusterSize(), |SlotChain(v, g, e)|);
    }
  }

  /** The read callback of a listed file. */
  method ReadListed(d: Fat16, item: Item, offset: nat, len: nat, ghost i: nat) returns (n: int, buf: seq<Byte>)
    requires OnDisk(d.disk, d.g) && IsFileAt(d.V(), i) && FileEnds(d.V(), d.g, d.V().slots[i])
    requires item == ItemOf(d.V().slots[i])
    ensures buf == Slice(ContentOf(d.V(), d.g, d.V().slots[i]), offset, len)
    ensures n == if |ContentOf(d.V(), d.g, d.V().slots[i])| <= offset < item.size then -1 else |buf|
    ensures DirOk(d.V().slots) ==>
              NameOf(d.V().slots[i]) in Files(d.V(), d.g) &&
              buf == Slice(Files(d.V(), d.g)[NameOf(d.V().slots[i])], offset, len)
  {
    ghost var v, e := d.V(), d.V().slots[i];
    if DirOk(v.slots) {
      FilesHas(v, d.g, i);
    }
    EndsFile(v, d.g, e);
    n, buf := FileRead(d, item.first, item.size, offset, len, SlotChain(v, d.g, e),
        Gather(v.data, SlotChain(v, d.g, e)));
    ReadsContent(v, d.g, e, offset, len, n, buf);
  }

  /** The write callback of a listed file. */
  method WriteListed(d: Fat16, item: Item, offset: nat, bytes: seq<Byte>, ghost i: nat) returns (written: nat)
    requires d.Formatted() && IsFileAt(d.V(), i) && FileEnds(d.V(), d.g, d.V().slots[i])
    requires item == ItemOf(d.V().slots[i]) && |bytes| < 0x1_0000_0000
    modifies d
    ensures d.Formatted() && Patched(old(d.V()), d.V(), d.g, old(d.V()).slots[i], offset, bytes, written)
  {
    ghost var v, e := d.V(), d.V().slots[i];
    EndsFile(v, d.g, e);
    SizeFits(e);
    written := FileWrite(d, item.first, item.size, offset, bytes, SlotChain(v, d.g, e),
        Gather(v.data, SlotChain(v, d.g, e)));
  }
}
