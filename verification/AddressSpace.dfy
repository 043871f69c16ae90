// Two-level page tables, as a map from virtual pages to page frames.

module PageTables {
  import opened Options
  import opened PageFrames

  const PRESENT: nat := 0
  const READ_WRITE: nat := 1

  /**
    A 32-bit entry in its parts: bit 31, bits 12 to 30, and the set of the low
    twelve bits that are 1.  An address is split the same way.
   */
  datatype Entry = Entry(high: bool, page: nat, flags: set<nat>)

  const EMPTY: Entry := Entry(false, 0, {})

  predicate IsEntry(e: Entry) {
    e.page < 0x8_0000 && forall b {:trigger b in e.flags} :: b in e.flags ==> b < 12
  }

  /** The number of the frame an entry points to: PAGE_PHYS_ADDR divided by the page size. */
  function FrameOf(e: Entry): nat {
    (if e.high then 0x8_0000 else 0) + e.page
  }

  /** A page-aligned address. */
  function Aligned(frame: nat): (e: Entry)
    requires frame < 0x10_0000
    ensures IsEntry(e) && FrameOf(e) == frame && e.flags == {}
  {
    Entry(frame >= 0x8_0000, frame % 0x8_0000, {})
  }

  /** SET_FRAME: bits 12 to 30 are replaced, and the whole address is or-ed in; bit 31 is never cleared. */
  function SetFrame(e: Entry, addr: Entry): Entry {
    Entry(e.high || addr.high, addr.page, e.flags + addr.flags)
  }

  function SetAttributes(e: Entry, flags: set<nat>): Entry {
    e.(flags := e.flags + flags)
  }

  function ClearAttribute(e: Entry, flag: nat): Entry {
    e.(flags := e.flags - {flag})
  }

  // ---------------------------------------------------------------------
  // The macros on 32-bit words, lowest bit first

  function Not(x: Word): Word {
    seq(32, i requires 0 <= i < 32 => !x[i])
  }

  function And(x: Word, y: Word): Word {
    seq(32, i requires 0 <= i < 32 => x[i] && y[i])
  }

  function Or(x: Word, y: Word): Word {
    seq(32, i requires 0 <= i < 32 => x[i] || y[i])
  }

  /** 0x7FFFF000. */
  function FrameBits(): (w: Word)
    ensures forall i {:trigger w[i]} :: 0 <= i < 32 ==> (w[i] <==> 12 <= i < 31)
  {
    var low: seq<bool> := seq(12, i => false);
    var frame: seq<bool> := seq(19, i => true);
    low + frame + [false]
  }

  /** The number that bits stand for, lowest bit first. */
  function Value(bits: seq<bool>): nat {
    if bits == [] then 0 else (if bits[0] then 1 else 0) + 2 * Value(bits[1..])
  }

  /** The low bits that are 1, below n. */
  function LowsOf(w: Word, n: nat): (s: set<nat>)
    requires n <= 12
    ensures forall b {:trigger b in s} :: b in s <==> 0 <= b < n && w[b]
  {
    if n == 0 then {} else LowsOf(w, n - 1) + if w[n - 1] then {n - 1} else {}
  }

  /** The parts of a word. */
  function Parts(w: Word): Entry {
    Entry(w[31], Value(w[12..31]), LowsOf(w, 12))
  }

  function SetFrameMacro(w: Word, a: Word): Word {
    Or(And(w, Not(FrameBits())), a)
  }

  /** SET_FRAME on words is SetFrame on their parts. */
  lemma SetFrameWord(w: Word, a: Word)
    ensures Parts(SetFrameMacro(w, a)) == SetFrame(Parts(w), Parts(a))
  {
    var x := SetFrameMacro(w, a);
    assert x[12..31] == a[12..31];
  }

  /** SET_ATTRIBUTE with low bits on words is SetAttributes on their parts. */
  lemma SetAttributeWord(w: Word, a: Word)
    requires forall i {:trigger a[i]} :: 12 <= i < 32 ==> !a[i]
    ensures Parts(Or(w, a)) == SetAttributes(Parts(w), Parts(a).flags)
  {
    assert Or(w, a)[12..31] == w[12..31];
  }

  /** CLEAR_ATTRIBUTE with one low bit on words is ClearAttribute on their parts. */
  lemma ClearAttributeWord(w: Word, a: Word, c: nat)
    requires c < 12 && forall i {:trigger a[i]} :: 0 <= i < 32 ==> (a[i] <==> i == c)
    ensures Parts(And(w, Not(a))) == ClearAttribute(Parts(w), c)
  {
    assert And(w, Not(a))[12..31] == w[12..31];
  }

  /** A word whose bit 31 is set keeps it, whatever frame below 2^31 it is set to. */
  lemma HighBitStays(w: Word, a: Word)
    requires w[31] && !a[31] && forall i {:trigger a[i]} :: 0 <= i < 12 ==> !a[i]
    ensures FrameOf(Parts(SetFrameMacro(w, a))) == FrameOf(Parts(a)) + 0x8_0000
  {
    SetFrameWord(w, a);
  }

  predicate Present(e: Entry) {
    PRESENT in e.flags
  }

  /** SET_FRAME leaves the frame asked for exactly when bit 31 was clear or is wanted. */
  lemma SetFrameIff(e: Entry, addr: Entry)
    requires IsEntry(addr)
    ensures FrameOf(SetFrame(e, addr)) == FrameOf(addr) <==> (e.high ==> addr.high)
  {
  }

  type Page = p: seq<Entry> | |p| == 1024 witness seq(1024, i => EMPTY)

  function PdIdx(v: nat): (i: nat)
    requires v < 0x1_0000_0000
    ensures i < 1024
  {
    v / 0x40_0000
  }

  function PtIdx(v: nat): (i: nat)
    ensures i < 1024
  {
    (v / 4096) % 1024
  }

  /** The two indices tell pages apart. */
  lemma Indices(v: nat, w: nat)
    requires v < 0x1_0000_0000 && w < 0x1_0000_0000
    ensures v / 4096 == w / 4096 <==> PdIdx(v) == PdIdx(w) && PtIdx(v) == PtIdx(w)
  {
    assert v / 4096 == 1024 * PdIdx(v) + PtIdx(v);
    assert w / 4096 == 1024 * PdIdx(w) + PtIdx(w);
  }

  /** The table entry for a virtual address; an empty one when it has no table. */
  ghost function EntryIn(mem: seq<Page>, dir: nat, v: nat): Entry
    requires dir < |mem| && v < 0x1_0000_0000
  {
    var pde := mem[dir][PdIdx(v)];
    if !Present(pde) || FrameOf(pde) >= |mem| then EMPTY else mem[FrameOf(pde)][PtIdx(v)]
  }

  /** What the hardware makes of a virtual address: the frame, or a page fault. */
  ghost function Translate(mem: seq<Page>, dir: nat, v: nat): Option<nat>
    requires dir < |mem| && v < 0x1_0000_0000
  {
    var pte := EntryIn(mem, dir, v);
    if Present(pte) then Some(FrameOf(pte)) else None
  }

  /** Tables are pages of their own; absent entries of the directory point nowhere. */
  ghost predicate TablesOk(mem: seq<Page>, dir: nat) {
    0 < dir < |mem| <= 0x10_0000 &&
    (forall i {:trigger mem[dir][i]} :: 0 <= i < 1024 ==>
       if Present(mem[dir][i]) then 0 < FrameOf(mem[dir][i]) < |mem| && FrameOf(mem[dir][i]) != dir
       else FrameOf(mem[dir][i]) == 0) &&
    (forall i, j {:trigger mem[dir][i], mem[dir][j]} ::
       0 <= i < j < 1024 && Present(mem[dir][i]) && Present(mem[dir][j]) ==>
       FrameOf(mem[dir][i]) != FrameOf(mem[dir][j]))
  }

  /** Writing one entry of the table that covers v changes the entry of v's page only. */
  lemma EntryChanged(mem: seq<Page>, dir: nat, v: nat, e: Entry, w: nat)
    requires TablesOk(mem, dir) && v < 0x1_0000_0000 && w < 0x1_0000_0000 && Present(mem[dir][PdIdx(v)])
    ensures var f := FrameOf(mem[dir][PdIdx(v)]);
            f < |mem| &&
            var mem' := mem[f := mem[f][PtIdx(v) := e]];
            TablesOk(mem', dir) && mem'[dir] == mem[dir] &&
            EntryIn(mem', dir, w) == if w / 4096 == v / 4096 then e else EntryIn(mem, dir, w)
  {
    Indices(v, w);
    var f := FrameOf(mem[dir][PdIdx(v)]);
    var mem' := mem[f := mem[f][PtIdx(v) := e]];
    assert mem'[dir] == mem[dir];
    if PdIdx(w) != PdIdx(v) && Present(mem[dir][PdIdx(w)]) {
      assert FrameOf(mem[dir][PdIdx(w)]) != f;
    }
  }

  /** A fresh empty table put into the directory changes no entry. */
  lemma TableAdded(mem: seq<Page>, dir: nat, i: nat, frame: nat, empty: Page, flags: set<nat>)
    requires TablesOk(mem, dir) && i < 1024 && !Present(mem[dir][i]) && 0 < frame < |mem| && frame != dir &&
             PRESENT in flags
    requires forall j {:trigger mem[dir][j]} :: 0 <= j < 1024 && Present(mem[dir][j]) ==> FrameOf(mem[dir][j]) != frame
    requires forall k :: 0 <= k < 1024 ==> empty[k] == EMPTY
    ensures var e := SetAttributes(SetFrame(mem[dir][i], Aligned(frame)), flags);
            var mem' := mem[frame := empty][dir := mem[dir][i := e]];
            TablesOk(mem', dir) && Present(mem'[dir][i]) && FrameOf(mem'[dir][i]) == frame && mem'[frame] == empty &&
            forall w {:trigger EntryIn(mem', dir, w)} :: 0 <= w < 0x1_0000_0000 ==>
                EntryIn(mem', dir, w) == EntryIn(mem, dir, w)
  {
    var e := SetAttributes(SetFrame(mem[dir][i], Aligned(frame)), flags);
    var mem' := mem[frame := empty][dir := mem[dir][i := e]];
    assert FrameOf(mem[dir][i]) == 0;
    assert FrameOf(e) == frame && Present(e);
    forall w {:trigger EntryIn(mem', dir, w)} | 0 <= w < 0x1_0000_0000
      ensures EntryIn(mem', dir, w) == EntryIn(mem, dir, w)
    {
      if PdIdx(w) == i {
        assert mem'[frame] == empty;
      } else if Present(mem[dir][PdIdx(w)]) {
        assert mem'[FrameOf(mem[dir][PdIdx(w)])] == mem[FrameOf(mem[dir][PdIdx(w)])];
      }
    }
  }

  /** Writing to page 0 changes no entry. */
  lemma PageZero(mem: seq<Page>, dir: nat, p: Page)
    requires TablesOk(mem, dir)
    ensures var mem' := mem[0 := p];
            TablesOk(mem', dir) && forall w {:trigger EntryIn(mem', dir, w)} :: 0 <= w < 0x1_0000_0000 ==>
                EntryIn(mem', dir, w) == EntryIn(mem, dir, w)
  {
  }
}

module AddressSpace {
  import opened Options
  import opened PageFrames
  import opened PageTables

  const EMPTY_PAGE: Page := seq(1024, i => EMPTY)

  /** The blocks that the tables occupy, and block 0, are in use. */
  ghost predicate InUse(mem: seq<Page>, dir: nat, ws: seq<Word>) {
    dir < |mem| <= 32 * |ws| && 0 < |ws| && Used(ws, 0) && Used(ws, dir) &&
    forall i {:trigger mem[dir][i]} :: 0 <= i < 1024 && Present(mem[dir][i]) && FrameOf(mem[dir][i]) < |mem| ==>
      Used(ws, FrameOf(mem[dir][i]))
  }

  /** A block that was free is not one of the tables'. */
  lemma FreshBlock(mem: seq<Page>, dir: nat, ws: seq<Word>, s: nat)
    requires InUse(mem, dir, ws) && TablesOk(mem, dir) && FreeRun(ws, s, 1)
    ensures s != 0 && s != dir
    ensures forall j {:trigger mem[dir][j]} :: 0 <= j < 1024 && Present(mem[dir][j]) ==> FrameOf(mem[dir][j]) != s
  {
    assert !Used(ws, s);
  }

  /** Writing to a page that is not the directory leaves the same blocks in use. */
  lemma InUseKept(mem: seq<Page>, mem': seq<Page>, dir: nat, ws: seq<Word>)
    requires InUse(mem, dir, ws) && |mem'| == |mem| && mem'[dir] == mem[dir]
    ensures InUse(mem', dir, ws)
  {
  }

  /** What one changed entry does to the entry of w. */
  ghost predicate EntryIs(mem: seq<Page>, dir: nat, v: nat, e: Entry, w: nat)
    requires TablesOk(mem, dir) && v < 0x1_0000_0000 && w < 0x1_0000_0000 && Present(mem[dir][PdIdx(v)])
  {
    var f := FrameOf(mem[dir][PdIdx(v)]);
    EntryIn(mem[f := mem[f][PtIdx(v) := e]], dir, w) == if w / 4096 == v / 4096 then e else EntryIn(mem, dir, w)
  }

  class Space {
    const pmm: Manager
    var dir: nat
    /** Physical memory, page by page, as page tables see it. */
    var mem: seq<Page>

    ghost predicate Sized()
      reads this, pmm, pmm.bitmap
    {
      pmm.Valid() && |mem| == pmm.maxBlocks
    }

    ghost predicate Valid()
      reads this, pmm, pmm.bitmap
    {
      Sized() && TablesOk(mem, dir) && InUse(mem, dir, pmm.bitmap[..])
    }

    constructor (manager: Manager, memory: seq<Page>)
      ensures pmm == manager && mem == memory && dir == 0
    {
      pmm, mem, dir := manager, memory, 0;
    }

    /** The table entry for a virtual address now. */
    ghost function EntryFor(v: nat): Entry
      requires dir < |mem| && v < 0x1_0000_0000
      reads this
    {
      EntryIn(mem, dir, v)
    }

    /** What a virtual address means now. */
    ghost function At(v: nat): Option<nat>
      requires dir < |mem| && v < 0x1_0000_0000
      reads this
    {
      Translate(mem, dir, v)
    }

    /** Entry i of the directory takes page 0 for a table. */
    ghost predicate Spoilt(i: nat)
      reads this
    {
      0 < dir < |mem| && i < 1024 && Present(mem[dir][i]) && FrameOf(mem[dir][i]) == 0
    }

    /** The first half of map_page: a new table for entry i of the directory, when it has none. */
    method AddTable(i: nat) returns (ok: bool)
      requires Valid() && i < 1024 && !Present(mem[dir][i])
      modifies this`mem, pmm`usedBlocks, pmm.bitmap
      ensures ok <==> !Refuses(old(pmm.bitmap[..]), old(pmm.maxBlocks - pmm.usedBlocks), 1)
      ensures Sized() && (ok <==> TablesOk(mem, dir)) && (!ok ==> Spoilt(i))
      ensures ok ==> Valid() && Present(mem[dir][i]) && mem[FrameOf(mem[dir][i])] == EMPTY_PAGE
      ensures ok ==> mem[dir][i].flags == old(mem[dir][i]).flags + {0, 1}
      ensures ok ==> forall w {:trigger EntryIn(mem, dir, w)} :: 0 <= w < 0x1_0000_0000 ==>
              EntryIn(mem, dir, w) == old(EntryFor(w))
    {
      ghost var was, ws := mem, pmm.bitmap[..];
      var pt, start := pmm.AllocBlocks(1);
      var frame := pt / 4096;
      ok := pt != 0;
      if start != -1 {
        FreshBlock(was, dir, ws, start);
        TableAdded(was, dir, i, start, EMPTY_PAGE, {PRESENT, READ_WRITE});
      }
      var e := SetAttributes(SetFrame(mem[dir][i], Aligned(frame)), {PRESENT, READ_WRITE});
      mem := mem[frame := EMPTY_PAGE];
      mem := mem[dir := mem[dir][i := e]];
      if start != -1 {
        TableInUse(was, mem, dir, ws, pmm.bitmap[..], i, start);
      } else {
        assert Present(mem[dir][i]);
      }
    }

    /** Replaces the entry for v in its table. */
    method Store(v: nat, e: Entry)
      requires Valid() && v < 0x1_0000_0000 && Present(mem[dir][PdIdx(v)])
      modifies this`mem
      ensures Valid() && mem[dir] == old(mem[dir])
      ensures forall w {:trigger EntryIn(mem, dir, w)} :: 0 <= w < 0x1_0000_0000 ==>
                EntryIn(mem, dir, w) == if w / 4096 == v / 4096 then e else old(EntryFor(w))
    {
      ghost var was := mem;
      forall w {:trigger EntryIs(was, dir, v, e, w)} | 0 <= w < 0x1_0000_0000
        ensures EntryIs(was, dir, v, e, w)
      {
        EntryChanged(was, dir, v, e, w);
      }
      var frame := FrameOf(mem[dir][PdIdx(v)]);
      EntryChanged(was, dir, v, e, v);
      mem := mem[frame := mem[frame][PtIdx(v) := e]];
      InUseKept(was, mem, dir, pmm.bitmap[..]);
      forall w {:trigger EntryIn(mem, dir, w)} | 0 <= w < 0x1_0000_0000
        ensures EntryIn(mem, dir, w) == if w / 4096 == v / 4096 then e else old(EntryFor(w))
      {
        assert EntryIs(was, dir, v, e, w);
      }
    }

    /**
      map_page.  ok is false when the page needs a table and there is no block for
      one; the tables are then spoilt.  Otherwise only the page's own entry
      changes: it gets the bits 12 to 30 asked for, and keeps bit 31 and every
      attribute that it had before.  So it translates to the frame asked for
      exactly when bit 31 of the old entry was clear or is wanted.
     */
    method MapPage(vaddr: nat, paddr: Entry, flags: set<nat>) returns (ghost ok: bool)
      requires Valid() && vaddr < 0x1_0000_0000 && IsEntry(paddr)
      modifies this`mem, pmm`usedBlocks, pmm.bitmap
      ensures ok <==> Valid()
      ensures !ok <==> !old(Present(mem[dir][PdIdx(vaddr)])) &&
                       Refuses(old(pmm.bitmap[..]), old(pmm.maxBlocks - pmm.usedBlocks), 1)
      ensures ok ==>
                EntryFor(vaddr).page == paddr.page &&
                EntryFor(vaddr).high == (old(EntryFor(vaddr)).high || paddr.high)
      ensures ok ==> EntryFor(vaddr).flags == old(EntryFor(vaddr)).flags + paddr.flags + flags
      ensures ok && 0 in flags ==> At(vaddr).Some?
      ensures ok && 0 in flags ==>
              (At(vaddr) == Some(FrameOf(paddr)) <==> (old(EntryFor(vaddr)).high ==> paddr.high))
      ensures ok ==> forall w {:trigger EntryIn(mem, dir, w)} :: 0 <= w < 0x1_0000_0000 && w / 4096 != vaddr / 4096 ==>
                EntryIn(mem, dir, w) == old(EntryFor(w))
    {
      var pdIdx, ptIdx := PdIdx(vaddr), PtIdx(vaddr);
      if !Present(mem[dir][pdIdx]) {
        var added := AddTable(pdIdx);
        ok := added;
        if !added {
          mem := mem[0 := mem[0][ptIdx := SetAttributes(SetFrame(mem[0][ptIdx], paddr), flags)]];
          SpoiltIsNotOk(mem, dir, pdIdx);
          return;
        }
      } else {
        ok := true;
      }
      var pte := mem[FrameOf(mem[dir][pdIdx])][ptIdx];
      SetFrameIff(pte, paddr);
      Store(vaddr, SetAttributes(SetFrame(pte, paddr), flags));
    }

    /** unmap_page; where there is no table, page 0 takes the write. */
    method UnmapPage(vaddr: nat)
      requires Valid() && vaddr < 0x1_0000_0000
      modifies this`mem
      ensures Valid() && At(vaddr) == None
      ensures 0 !in EntryFor(vaddr).flags
      ensures old(Present(mem[dir][PdIdx(vaddr)])) ==> EntryFor(vaddr).flags == old(EntryFor(vaddr)).flags - {0}
      ensures forall w {:trigger EntryIn(mem, dir, w)} :: 0 <= w < 0x1_0000_0000 && w / 4096 != vaddr / 4096 ==>
                EntryIn(mem, dir, w) == old(EntryFor(w))
    {
      var pdIdx, ptIdx := PdIdx(vaddr), PtIdx(vaddr);
      var frame := FrameOf(mem[dir][pdIdx]);
      var e := ClearAttribute(SetFrame(mem[frame][ptIdx], EMPTY), PRESENT);
      if Present(mem[dir][pdIdx]) {
        Store(vaddr, e);
      } else {
        ghost var was := mem;
        PageZero(was, dir, was[0][ptIdx := e]);
        mem := mem[frame := mem[frame][ptIdx := e]];
        InUseKept(was, mem, dir, pmm.bitmap[..]);
      }
    }

    // -----------------------------------------------------------------
    // init_virtual_memory_manager

    /** One of the two filling loops: the pages from virt on are mapped to the frames from first on. */
    method FillTable(virt: nat, first: nat) returns (p: Page)
      requires virt % 0x40_0000 == 0 && first + 1024 <= 0x10_0000
      ensures forall k {:trigger p[k]} :: 0 <= k < 1024 ==> p[k] == Mapped(first + k)
    {
      p := EMPTY_PAGE;
      var i: nat := 0;
      while i < 1024
        invariant i <= 1024
        invariant forall k {:trigger p[k]} :: 0 <= k < i ==> p[k] == Mapped(first + k)
      {
        var page := SetAttributes(SetAttributes(EMPTY, {PRESENT}), {READ_WRITE});
        page := SetFrame(page, Aligned(first + i));
        InOrder(virt, i);
        p := p[PtIdx(virt + 4096 * i) := page];
        i := i + 1;
      }
    }

    /** The loop that makes every entry of the directory absent and writable. */
    method EmptyDirectory() returns (p: Page)
      ensures forall k {:trigger p[k]} :: 0 <= k < 1024 ==> p[k] == ABSENT
    {
      p := EMPTY_PAGE;
      var i: nat := 0;
      while i < 1024
        invariant i <= 1024
        invariant forall k {:trigger p[k]} :: 0 <= k < i ==> p[k] == ABSENT
      {
        p := p[i := ABSENT];
        i := i + 1;
      }
    }

    /**
      init_virtual_memory_manager: the first 4 MiB stand for themselves, and 4
      MiB at 3 GiB for the kernel's frames.
     */
    method Init() returns (ok: bool)
      requires Sized() && Used(pmm.bitmap[..], 0)
      modifies this`dir, this`mem, pmm`usedBlocks, pmm.bitmap
      ensures Sized()
      ensures ok ==> Valid() && forall w {:trigger Translate(mem, dir, w)} :: 0 <= w < 0x1_0000_0000 ==>
              Translate(mem, dir, w) == Initial(w)
      ensures ok ==> forall k {:trigger mem[dir][k]} :: 0 <= k < 1024 ==>
              mem[dir][k].flags == (if k == 0 || k == 768 then {0, 1} else {1}) &&
              (k != 0 && k != 768 ==> FrameOf(mem[dir][k]) == 0)
    {
      ghost var w0 := pmm.bitmap[..];
      var d, sd := pmm.AllocBlocks(3);
      if d == 0 {
        return false;
      }
      ghost var w1 := pmm.bitmap[..];
      var empty := EmptyDirectory();
      var t, st := pmm.AllocBlocks(1);
      if t == 0 {
        return false;
      }
      ghost var w2 := pmm.bitmap[..];
      var t3, st3 := pmm.AllocBlocks(1);
      if t3 == 0 {
        return false;
      }
      Apart(w0, w1, w2, pmm.bitmap[..], sd, st, st3);
      Install(d / 4096, t / 4096, t3 / 4096, empty);
      ok := true;
    }

    /** Fills the tables and puts them into the directory. */
    method Install(d: nat, kernel: nat, low: nat, empty: Page)
      requires Sized() && 0 < d < |mem| && 0 < low < |mem| && 0 < kernel < |mem| && d != low && d != kernel &&
               low != kernel
      requires Used(pmm.bitmap[..], 0) && Used(pmm.bitmap[..], d) && Used(pmm.bitmap[..], low) &&
               Used(pmm.bitmap[..], kernel)
      requires forall k {:trigger empty[k]} :: 0 <= k < 1024 ==> empty[k] == ABSENT
      modifies this`dir, this`mem
      ensures Valid() && forall w {:trigger Translate(mem, dir, w)} :: 0 <= w < 0x1_0000_0000 ==>
              Translate(mem, dir, w) == Initial(w)
      ensures forall k {:trigger mem[dir][k]} :: 0 <= k < 1024 ==>
              mem[dir][k].flags == (if k == 0 || k == 768 then {0, 1} else {1}) &&
              (k != 0 && k != 768 ==> FrameOf(mem[dir][k]) == 0)
    {
      var lowPages := FillTable(0, 0);
      var kernelPages := FillTable(0xC000_0000, KERNEL_FRAME);
      var e := SetFrame(SetAttributes(SetAttributes(empty[PdIdx(0xC000_0000)], {PRESENT}), {READ_WRITE}),
          Aligned(kernel));
      var e2 := SetFrame(SetAttributes(SetAttributes(empty[PdIdx(0)], {PRESENT}), {READ_WRITE}), Aligned(low));
      assert e == Mapped(kernel) && e2 == Mapped(low);
      dir := d;
      mem := mem[low := lowPages][kernel := kernelPages][d := empty[PdIdx(0xC000_0000) := e][PdIdx(0) := e2]];
      InitialTables(mem, dir, low, kernel);
      InitialInUse(mem, dir, low, kernel, pmm.bitmap[..]);
    }
  }

  lemma InitialInUse(mem: seq<Page>, dir: nat, low: nat, kernel: nat, ws: seq<Word>)
    requires dir < |mem| <= 32 * |ws| && |mem| <= 0x10_0000 && low < |mem| && kernel < |mem| && 0 < |ws|
    requires mem[dir][0] == Mapped(low) && mem[dir][768] == Mapped(kernel)
    requires forall k {:trigger mem[dir][k]} :: 0 < k < 1024 && k != 768 ==> mem[dir][k] == ABSENT
    requires Used(ws, 0) && Used(ws, dir) && Used(ws, low) && Used(ws, kernel)
    ensures InUse(mem, dir, ws)
  {
    assert FrameOf(Mapped(low)) == low && FrameOf(Mapped(kernel)) == kernel;
  }

  const KERNEL_FRAME: nat := 16
  const ABSENT: Entry := Entry(false, 0, {READ_WRITE})

  function Mapped(frame: nat): Entry
    requires frame < 0x10_0000
  {
    Aligned(frame).(flags := {PRESENT, READ_WRITE})
  }

  /** The translation after initialisation. */
  function Initial(v: nat): Option<nat>
  {
    if v < 0x40_0000 then Some(v / 4096)
    else if 0xC000_0000 <= v < 0xC040_0000 then Some(KERNEL_FRAME + (v - 0xC000_0000) / 4096)
    else None
  }

  lemma InOrder(virt: nat, i: nat)
    requires virt % 0x40_0000 == 0 && i < 1024
    ensures PtIdx(virt + 4096 * i) == i
  {
    assert (virt + 4096 * i) / 4096 == virt / 4096 + i;
    assert virt / 4096 == 1024 * (virt / 0x40_0000);
  }

  /** The directory and the two tables lie in different blocks, none of them block 0. */
  lemma Apart(w0: seq<Word>, w1: seq<Word>, w2: seq<Word>, w3: seq<Word>, d: nat, t: nat, t3: nat)
    requires 0 < |w0| && Used(w0, 0) && FreeRun(w0, d, 3) && RunSet(w0, w1, d, 3, true)
    requires FreeRun(w1, t, 1) && RunSet(w1, w2, t, 1, true) && FreeRun(w2, t3, 1) && RunSet(w2, w3, t3, 1, true)
    ensures d != 0 && t != 0 && t3 != 0 && d != t && d != t3 && t != t3
    ensures Used(w3, 0) && Used(w3, d) && Used(w3, t) && Used(w3, t3)
  {
    assert !Used(w0, d) && Used(w1, d) && Used(w1, 0);
    assert !Used(w1, t) && Used(w2, t) && Used(w2, d) && Used(w2, 0);
    assert !Used(w2, t3) && Used(w3, t3) && Used(w3, t) && Used(w3, d) && Used(w3, 0);
  }

  /** A directory entry that takes page 0 for a table breaks the tables. */
  lemma SpoiltIsNotOk(mem: seq<Page>, dir: nat, i: nat)
    requires 0 < dir < |mem| && i < 1024 && Present(mem[dir][i]) && FrameOf(mem[dir][i]) == 0
    ensures !TablesOk(mem, dir)
  {
  }

  /** The tables that initialisation leaves. */
  lemma InitialTables(mem: seq<Page>, dir: nat, low: nat, kernel: nat)
    requires 0 < dir < |mem| <= 0x10_0000 && 0 < low < |mem| && 0 < kernel < |mem| && dir != low && dir != kernel &&
             low != kernel
    requires mem[dir][0] == Mapped(low) && mem[dir][768] == Mapped(kernel)
    requires forall k {:trigger mem[dir][k]} :: 0 < k < 1024 && k != 768 ==> mem[dir][k] == ABSENT
    requires forall k {:trigger mem[low][k]} :: 0 <= k < 1024 ==> mem[low][k] == Mapped(k)
    requires forall k {:trigger mem[kernel][k]} :: 0 <= k < 1024 ==> mem[kernel][k] == Mapped(KERNEL_FRAME + k)
    ensures TablesOk(mem, dir)
    ensures forall w {:trigger Translate(mem, dir, w)} :: 0 <= w < 0x1_0000_0000 ==>
            Translate(mem, dir, w) == Initial(w)
  {
    assert FrameOf(Mapped(low)) == low && FrameOf(Mapped(kernel)) == kernel;
    forall w {:trigger Translate(mem, dir, w)} | 0 <= w < 0x1_0000_0000
      ensures Translate(mem, dir, w) == Initial(w)
    {
      InitialAt(mem, dir, low, kernel, w);
    }
  }

  lemma InitialAt(mem: seq<Page>, dir: nat, low: nat, kernel: nat, w: nat)
    requires dir < |mem| <= 0x10_0000 && low < |mem| && kernel < |mem| && w < 0x1_0000_0000
    requires mem[dir][0] == Mapped(low) && mem[dir][768] == Mapped(kernel)
    requires forall k {:trigger mem[dir][k]} :: 0 < k < 1024 && k != 768 ==> mem[dir][k] == ABSENT
    requires forall k {:trigger mem[low][k]} :: 0 <= k < 1024 ==> mem[low][k] == Mapped(k)
    requires forall k {:trigger mem[kernel][k]} :: 0 <= k < 1024 ==> mem[kernel][k] == Mapped(KERNEL_FRAME + k)
    ensures Translate(mem, dir, w) == Initial(w)
  {
    if PdIdx(w) == 0 {
      assert mem[low][PtIdx(w)] == Mapped(PtIdx(w));
    } else if PdIdx(w) == 768 {
      assert mem[kernel][PtIdx(w)] == Mapped(KERNEL_FRAME + PtIdx(w));
    } else {
      assert mem[dir][PdIdx(w)] == ABSENT;
    }
  }

  /** A new table's block is in use, like the others. */
  lemma TableInUse(mem: seq<Page>, mem': seq<Page>, dir: nat, ws: seq<Word>, ws': seq<Word>, i: nat, s: nat)
    requires InUse(mem, dir, ws) && RunSet(ws, ws', s, 1, true) && |mem'| == |mem| && s < |mem| && i < 1024
    requires FrameOf(mem'[dir][i]) == s && forall j {:trigger mem'[dir][j]} :: 0 <= j < 1024 && j != i ==>
             mem'[dir][j] == mem[dir][j]
    ensures InUse(mem', dir, ws')
  {
    assert Used(ws', 0) && Used(ws', dir) && Used(ws', s);
    forall j {:trigger mem'[dir][j]} | 0 <= j < 1024 && Present(mem'[dir][j]) && FrameOf(mem'[dir][j]) < |mem'|
      ensures Used(ws', FrameOf(mem'[dir][j]))
    {
      if j != i {
        assert Used(ws, FrameOf(mem[dir][j]));
      }
    }
  }
}
