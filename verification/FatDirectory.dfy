// The root directory: what a 32-byte slot says, and how slots are searched.

module FatDirectory {
  import opened FatBytes
  import opened FatVolume
  import opened FatChains
  import opened FatNames

  type Slot = seq<Byte>

  predicate IsEnd(e: Slot)
    requires |e| == 32
  {
    e[0] == 0
  }

  predicate IsFree(e: Slot)
    requires |e| == 32
  {
    e[0] == 0xE5
  }

  predicate HasVolumeBit(e: Slot)
    requires |e| == 32
  {
    e[11] % 16 >= 8
  }

  predicate HasDirectoryBit(e: Slot)
    requires |e| == 32
  {
    e[11] % 32 >= 16
  }

  /** All four low attribute bits: part of a long file name. */
  predicate IsLongName(e: Slot)
    requires |e| == 32
  {
    e[11] % 16 == 15
  }

  predicate IsFile(e: Slot)
    requires |e| == 32
  {
    !IsEnd(e) && !IsFree(e) && !HasVolumeBit(e) && !HasDirectoryBit(e)
  }

  /** A slot that fat16_delete_file can match: files and directories. */
  predicate IsNamed(e: Slot)
    requires |e| == 32
  {
    !IsEnd(e) && !IsFree(e) && !HasVolumeBit(e)
  }

  function NameOf(e: Slot): (r: seq<Byte>)
    requires |e| == 32
    ensures |r| == 11
  {
    e[..11]
  }

  function FirstOf(e: Slot): nat
    requires |e| == 32
  {
    Word16(e, 26)
  }

  function SizeOf(e: Slot): nat
    requires |e| == 32
  {
    Word16(e, 28) + 0x1_0000 * Word16(e, 30)
  }

  // The fixed date (44 << 9) | (1 << 5) | 1 is 0x5821; the archive attribute is 0x20.
  const DATE_LOW: Byte := 0x21
  const DATE_HIGH: Byte := 0x58

  function LongBytes(v: nat): (r: seq<Byte>)
    ensures |r| == 4
  {
    var lo, hi := v % 0x1_0000, v / 0x1_0000;
    [Low(lo), High(lo), Low(hi), High(hi)]
  }

  /** The slot that fat16_create_file writes. */
  function NewSlot(name: seq<Byte>, first: nat, size: nat): (e: Slot)
    requires |name| == 11
    ensures |e| == 32
  {
    name + [0x20, 0, 0, 0, 0, DATE_LOW, DATE_HIGH, 0, 0, 0, 0, 0, 0, DATE_LOW, DATE_HIGH, Low(first), High(first)]
    + LongBytes(size)
  }

  /** The slot after fat16_write_file has rewritten its file. */
  function RewrittenSlot(e: Slot, first: nat, size: nat): (r: Slot)
    requires |e| == 32
    ensures |r| == 32
  {
    e[..22] + [0, 0, DATE_LOW, DATE_HIGH, Low(first), High(first)] + LongBytes(size)
  }

  lemma LongRoundTrip(v: nat)
    requires v < 0x1_0000_0000
    ensures var b := LongBytes(v); Word16(b, 0) + 0x1_0000 * Word16(b, 2) == v
  {
    WordOfBytes(v % 0x1_0000);
    WordOfBytes(v / 0x1_0000);
  }

  lemma NewSlotFields(name: seq<Byte>, first: nat, size: nat)
    requires |name| == 11 && first < 0x1_0000 && size < 0x1_0000_0000
    ensures var e := NewSlot(name, first, size);
            NameOf(e) == name && FirstOf(e) == first && SizeOf(e) == size &&
            !HasVolumeBit(e) && !HasDirectoryBit(e) && e[0] == name[0]
  {
    var e := NewSlot(name, first, size);
    assert e[28..] == LongBytes(size);
    assert e[28] == e[28..][0] && e[29] == e[28..][1] && e[30] == e[28..][2] && e[31] == e[28..][3];
    LongRoundTrip(size);
    WordOfBytes(first);
  }

  lemma RewrittenSlotFields(e: Slot, first: nat, size: nat)
    requires |e| == 32 && first < 0x1_0000 && size < 0x1_0000_0000
    ensures var r := RewrittenSlot(e, first, size);
            NameOf(r) == NameOf(e) && FirstOf(r) == first && SizeOf(r) == size && r[0] == e[0] && r[11] == e[11]
  {
    var r := RewrittenSlot(e, first, size);
    assert r[28..] == LongBytes(size);
    assert r[28] == r[28..][0] && r[29] == r[28..][1] && r[30] == r[28..][2] && r[31] == r[28..][3];
    LongRoundTrip(size);
    WordOfBytes(first);
  }

  // ---------------------------------------------------------------------
  // Searching

  ghost predicate Slots32(slots: seq<Slot>) {
    forall i {:trigger slots[i]} :: 0 <= i < |slots| ==> |slots[i]| == 32
  }

  /** The first slot, from k on, that is deleted or unused; |slots| when there is none. */
  ghost function FirstUsable(slots: seq<Slot>, k: nat): (i: nat)
    requires Slots32(slots) && k <= |slots|
    ensures k <= i <= |slots|
    ensures i < |slots| ==> IsFree(slots[i]) || IsEnd(slots[i])
    ensures forall j {:trigger slots[j]} :: k <= j < i ==> !IsFree(slots[j]) && !IsEnd(slots[j])
    decreases |slots| - k
  {
    if k == |slots| || IsFree(slots[k]) || IsEnd(slots[k]) then k else FirstUsable(slots, k + 1)
  }

  /**
    The file slot with this stored name, from k on, looking no further than the
    end mark; |slots| when there is none.
   */
  ghost function FindFile(slots: seq<Slot>, name: seq<Byte>, k: nat): (i: nat)
    requires Slots32(slots) && k <= |slots|
    ensures k <= i <= |slots|
    ensures i < |slots| ==> IsFile(slots[i]) && NameOf(slots[i]) == name
    decreases |slots| - k
  {
    if k == |slots| || IsEnd(slots[k]) then |slots|
    else if IsFile(slots[k]) && NameOf(slots[k]) == name then k
    else FindFile(slots, name, k + 1)
  }

  /** The file or directory slot with this stored name, as fat16_delete_file looks for it. */
  ghost function FindNamed(slots: seq<Slot>, name: seq<Byte>, k: nat): (i: nat)
    requires Slots32(slots) && k <= |slots|
    ensures k <= i <= |slots|
    ensures i < |slots| ==> IsNamed(slots[i]) && NameOf(slots[i]) == name
    decreases |slots| - k
  {
    if k == |slots| || IsEnd(slots[k]) then |slots|
    else if IsNamed(slots[k]) && NameOf(slots[k]) == name then k
    else FindNamed(slots, name, k + 1)
  }

  /** Everything after the first end mark is an end mark. */
  ghost predicate EndsLast(slots: seq<Slot>)
    requires Slots32(slots)
  {
    forall i, j :: 0 <= i < j < |slots| && IsEnd(slots[i]) ==> IsEnd(slots[j])
  }

  /** End marks come last, and names are not repeated. */
  ghost predicate DirOk(slots: seq<Slot>) {
    Slots32(slots) && EndsLast(slots) &&
    (forall i, j :: 0 <= i < j < |slots| && IsNamed(slots[i]) && IsNamed(slots[j]) ==>
        NameOf(slots[i]) != NameOf(slots[j]))
  }

  /** In a sound directory a file slot is found by its name. */
  lemma {:induction false} FindFileIs(slots: seq<Slot>, name: seq<Byte>, k: nat, i: nat)
    requires DirOk(slots) && k <= i < |slots| && IsFile(slots[i]) && NameOf(slots[i]) == name
    ensures FindFile(slots, name, k) == i
    decreases i - k
  {
    if k < i {
      FindFileIs(slots, name, k + 1, i);
    }
  }

  lemma {:induction false} FindNamedIs(slots: seq<Slot>, name: seq<Byte>, k: nat, i: nat)
    requires DirOk(slots) && k <= i < |slots| && IsNamed(slots[i]) && NameOf(slots[i]) == name
    ensures FindNamed(slots, name, k) == i
    decreases i - k
  {
    if k < i {
      FindNamedIs(slots, name, k + 1, i);
    }
  }

  /** When the search finds nothing there is nothing to find. */
  lemma FindFileNone(slots: seq<Slot>, name: seq<Byte>)
    requires DirOk(slots)
    ensures FindFile(slots, name, 0) == |slots| <==>
            forall i {:trigger slots[i]} :: 0 <= i < |slots| && IsFile(slots[i]) ==> NameOf(slots[i]) != name
  {
    forall i {:trigger slots[i]} | 0 <= i < |slots| && IsFile(slots[i]) && NameOf(slots[i]) == name
      ensures FindFile(slots, name, 0) == i
    {
      FindFileIs(slots, name, 0, i);
    }
  }

  lemma FindNamedNone(slots: seq<Slot>, name: seq<Byte>)
    requires DirOk(slots)
    ensures FindNamed(slots, name, 0) == |slots| <==>
            forall i {:trigger slots[i]} :: 0 <= i < |slots| && IsNamed(slots[i]) ==> NameOf(slots[i]) != name
  {
    forall i {:trigger slots[i]} | 0 <= i < |slots| && IsNamed(slots[i]) && NameOf(slots[i]) == name
      ensures FindNamed(slots, name, 0) == i
    {
      FindNamedIs(slots, name, 0, i);
    }
  }

  // ---------------------------------------------------------------------
  // Listing

  datatype Item =
    | FileItem(name: seq<Byte>, size: nat, first: nat)
    | DirItem(name: seq<Byte>)

  predicate IsListed(e: Slot)
    requires |e| == 32
  {
    !IsFree(e) && !HasVolumeBit(e) && !IsLongName(e)
  }

  ghost function ItemOf(e: Slot): Item
    requires |e| == 32
  {
    if HasDirectoryBit(e) then DirItem(Shown(NameOf(e))) else FileItem(Shown(NameOf(e)), SizeOf(e), FirstOf(e))
  }

  /** The first end mark from k on; |slots| when there is none. */
  ghost function EndFrom(slots: seq<Slot>, k: nat): (i: nat)
    requires Slots32(slots) && k <= |slots|
    ensures k <= i <= |slots|
    ensures i < |slots| ==> IsEnd(slots[i])
    ensures forall j {:trigger slots[j]} :: k <= j < i ==> !IsEnd(slots[j])
    decreases |slots| - k
  {
    if k == |slots| || IsEnd(slots[k]) then k else EndFrom(slots, k + 1)
  }

  /** Items of the first n slots. */
  ghost function ItemsBelow(slots: seq<Slot>, n: nat): seq<Item>
    requires Slots32(slots) && n <= |slots|
  {
    if n == 0 then []
    else ItemsBelow(slots, n - 1) + if IsListed(slots[n - 1]) then [ItemOf(slots[n - 1])] else []
  }

  ghost function Listing(slots: seq<Slot>): seq<Item>
    requires Slots32(slots)
  {
    ItemsBelow(slots, EndFrom(slots, 0))
  }

  /** An item is listed when some slot before the end mark gives it. */
  lemma {:induction false} ItemsBelowHas(slots: seq<Slot>, n: nat, i: nat)
    requires Slots32(slots) && i < n <= |slots| && IsListed(slots[i])
    ensures ItemOf(slots[i]) in ItemsBelow(slots, n)
    decreases n
  {
    if i < n - 1 {
      ItemsBelowHas(slots, n - 1, i);
    } else {
      assert ItemsBelow(slots, n)[|ItemsBelow(slots, n - 1)|] == ItemOf(slots[i]);
    }
  }

  /** Every item listed comes from a slot before the end mark. */
  lemma {:induction false} ItemsBelowFrom(slots: seq<Slot>, n: nat, x: Item) returns (i: nat)
    requires Slots32(slots) && n <= |slots| && x in ItemsBelow(slots, n)
    ensures i < n && IsListed(slots[i]) && ItemOf(slots[i]) == x
    decreases n
  {
    if x in ItemsBelow(slots, n - 1) {
      i := ItemsBelowFrom(slots, n - 1, x);
    } else {
      i := n - 1;
    }
  }
}
