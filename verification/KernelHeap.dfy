// The allocator as it runs: list heads, links stored in the blocks
// themselves, headers written in front of payloads, and loops that relink
// lists in place.  Every method is tied to the step of the machine in BuddyRun.

module KernelHeap {
  import opened Basics
  import opened Options
  import opened Powers
  import opened BuddyTree
  import opened BuddyLaws
  import opened BuddyRun
  import opened BlockLists

  const HDR_MAGIC: int := 0x8b6a96a2

  /** Every live block carries its header. */
  ghost predicate HeadersAre(w: seq<int>, m: seq<int>, o: seq<int>, t: Tree, top: nat)
    requires Shape(t, top)
  {
    |w| == |m| == |o| == Pow2(top) &&
    forall a: nat, k: nat :: IsLive(t, top, 0, a, k) ==>
                               a < Pow2(top) && m[a] == HDR_MAGIC && o[a] == k && w[a] == Node(t, top, 0, a, k).size
  }

  /** The orders tried by km_init: the largest one, at most 20, whose block fits in siz bytes. */
  method PickOrder(siz: nat) returns (ord: nat)
    requires siz >= 1
    ensures ord <= MAX_ORD && Pow2(ord) <= siz
    ensures ord == MAX_ORD || siz < Pow2(ord + 1)
  {
    ord := MAX_ORD;
    while Pow2(ord) > siz
      invariant ord <= MAX_ORD
      invariant ord == MAX_ORD || siz < Pow2(ord + 1)
    {
      ord := ord - 1;
    }
  }

  /** The order that size2ord finds by doubling. */
  method SizeToOrder(siz: nat) returns (ord: nat)
    requires siz <= WORD / 2
    ensures ord == OrderFrom(siz, MIN_ORD)
  {
    ord := MIN_ORD;
    assert Pow2(5) == 32 by {
      assert Pow2(3) == 8;
    }
    var s := 32;
    while s < siz
      invariant ord >= MIN_ORD && s == Pow2(ord)
      invariant OrderFrom(siz, MIN_ORD) == OrderFrom(siz, ord)
      decreases siz - s
    {
      s := (2 * s) % WORD;
      ord := ord + 1;
    }
  }

  /** The opening of km_alloc: round the request up, add the header, find the order. */
  method Measure(request: nat) returns (ord: nat, payload: nat)
    requires Answerable(request)
    ensures ord == OrderOf(request) && payload == AlignUp4(request) && ord >= MIN_ORD
  {
    payload := ((request + 3) % WORD) / 4 * 4;
    ord := SizeToOrder((payload + HEADER) % WORD);
  }

  /** Bytes skipped to reach the next multiple of block. */
  function Adjust(mem: nat, block: nat): nat
    requires block > 0
  {
    (block - mem % block) % block
  }

  /** The published block (its size, its aligned start) and the size recorded for the arena. */
  ghost predicate LaidOut(mem: nat, region: nat, block: nat, largest: bool, base: nat, siz: nat) {
    block > 0 && block <= region && (largest || region < 2 * block) &&
    base == (mem + Adjust(mem, block)) % WORD && (mem + Adjust(mem, block)) % block == 0 &&
    (siz == 0 || siz >= block) && (!largest && siz != 0 ==> siz == block) &&
    (siz != 0 <==> Adjust(mem, block) + block <= region)
  }

  method Layout(mem: nat, region: nat, block: nat, ghost largest: bool) returns (base: nat, siz: nat)
    requires 0 < block <= region && (largest || region < 2 * block)
    ensures LaidOut(mem, region, block, largest, base, siz)
  {
    var adjust := Adjust(mem, block);
    AdjustAligns(mem, block);
    base := (mem + adjust) % WORD;
    siz := (region - adjust) / block * block;
    RestSize(region, adjust, block);
  }

  /** The opening loop of km_init: every list is empty. */
  method ClearHeads(heads: array<int>)
    modifies heads
    ensures forall j :: 0 <= j < heads.Length ==> heads[j] == NIL
  {
    for i := 0 to heads.Length
      invariant forall j :: 0 <= j < i ==> heads[j] == NIL
    {
      heads[i] := NIL;
    }
  }

  /** The address of the other half: the bit of the block's size flipped. */
  method FlipBit(off: nat, k: nat) returns (boff: nat)
    requires Aligned(off, k)
    ensures boff == Buddy(off, k)
  {
    XorIsBuddy(off, k);
    boff := Xor(off, Pow2(k));
  }

  /** An address on no list and outside the block of order c at a. */
  ghost predicate Elsewhere(ls: seq<seq<nat>>, a: nat, c: nat, y: nat) {
    Unlisted(ls, y) && (y < a || a + Pow2(c) <= y)
  }

  class Allocator {
    var base: nat
    var siz: nat
    const free: array<int>
    const word: array<int>   // first word of each block: its link when free, its payload size when live
    const magic: array<int>
    const order: array<int>
    var usedMem: nat
    var usedTruly: nat
    var usedMax: nat
    ghost const top: nat
    ghost var tree: Tree

    ghost predicate Laid()
    {
      top <= MAX_ORD && free.Length == MAX_ORD + 1 &&
      word.Length == magic.Length == order.Length == Pow2(top) &&
      free != word && free != magic && free != order && word != magic && word != order && magic != order
    }

    ghost predicate Valid()
      reads this, free, word, magic, order
    {
      Laid() && Sized() &&
      Ok(Abs()) &&
      Chains(word[..], free[..], ListsOf(tree, top)) &&
      HeadersAre(word[..], magic[..], order[..], tree, top)
    }

    ghost function Abs(): Heap
      reads this
    {
      Heap(top, siz != 0, tree, usedMem, usedTruly, usedMax)
    }

    /** The second half of km_init: empty lists, then one free block of order maxOrd. */
    constructor Publish(start: nat, rest: nat, maxOrd: nat)
      requires maxOrd <= MAX_ORD
      requires rest == 0 || (rest >= Pow2(maxOrd) && (maxOrd < MAX_ORD ==> rest == Pow2(maxOrd)))
      ensures Valid() && fresh(free) && fresh(word) && fresh(magic) && fresh(order)
      ensures base == start && siz == rest && Abs() == Fresh(maxOrd, rest != 0)
    {
      var block := Pow2(maxOrd);
      base, siz := start, rest;
      free := new int[MAX_ORD + 1];
      word := new int[block];
      magic := new int[block];
      order := new int[block];
      usedMem, usedTruly, usedMax := 0, 0, 0;
      top, tree := maxOrd, Free;
      new;
      ClearHeads(free);
      word[0] := NIL;
      free[maxOrd] := 0;
      FreshLists(word[..], free[..], top);
    }

    /** insert_block: walk to the first block that is not below b and link b in front of it. */
    method InsertBlock(k: nat, b: nat, ghost ls: seq<seq<nat>>, ghost lower: seq<nat>, ghost upper: seq<nat>)
      requires Laid() && k <= MAX_ORD && b < word.Length
      requires Chains(word[..], free[..], ls) && Separate(ls) && Unlisted(ls, b)
      requires ls[k] == lower + upper && Below(lower, b) && AtLeast(upper, b + 1)
      modifies free, word
      ensures Chains(word[..], free[..], ls[k := lower + [b] + upper])
      ensures forall y :: 0 <= y < word.Length && y != b && Unlisted(ls, y) ==> word[y] == old(word[y])
    {
      ghost var w, f, l := word[..], free[..], ls[k];
      assert Chain(w, f[k], l);
      var prev := NIL;
      var cur := free[k];
      ghost var i := 0;
      while cur != NIL && cur < b
        invariant 0 <= i <= |lower|
        invariant cur == Link(l, i)
        invariant prev == if i > 0 then l[i - 1] else NIL
        invariant word[..] == w && free[..] == f
        decreases |l| - i
      {
        InsertionPoint(lower, upper, b, i);
        assert w[l[i]] == Link(l, i + 1);
        prev := cur;
        cur := word[cur];
        i := i + 1;
      }
      InsertionPoint(lower, upper, b, i);
      assert i == |lower| && (i > 0 ==> prev == lower[i - 1] && prev in l);
      word[b] := cur;
      if prev == NIL {
        free[k] := b;
      } else {
        word[prev] := b;
      }
      LinkedIn(w, word[..], f[k], free[k], lower, b, upper);
      Relisted(ls, k, lower + [b] + upper, b, w, word[..], f, free[..]);
    }

    /** remove_block: unlink target from the list of order k if it is there. */
    method RemoveBlock(k: nat, target: nat, ghost ls: seq<seq<nat>>) returns (found: bool, ghost i: nat)
      requires Laid() && k <= MAX_ORD
      requires Chains(word[..], free[..], ls) && Separate(ls) && |ls| == MAX_ORD + 1
      modifies free, word
      ensures found <==> target in ls[k]
      ensures found ==> i < |ls[k]| && ls[k][i] == target && Chains(word[..], free[..], ls[k := Without(ls[k], i)])
      ensures !found ==> Chains(word[..], free[..], ls) && word[..] == old(word[..])
      ensures forall y :: 0 <= y < word.Length && Unlisted(ls, y) ==> word[y] == old(word[y])
    {
      ghost var w, f, l := word[..], free[..], ls[k];
      assert Chain(w, f[k], l);
      var prev := NIL;
      var cur := free[k];
      i := 0;
      found := false;
      while cur != NIL
        invariant 0 <= i <= |l|
        invariant cur == Link(l, i)
        invariant prev == if i > 0 then l[i - 1] else NIL
        invariant target !in l[..i]
        invariant !found && word[..] == w && free[..] == f
        decreases |l| - i
      {
        assert w[l[i]] == Link(l, i + 1);
        if cur == target {
          var next := word[cur];
          if prev == NIL {
            free[k] := next;
          } else {
            word[prev] := next;
          }
          LinkedOut(w, word[..], f[k], free[k], l, i);
          Relisted(ls, k, Without(l, i), target, w, word[..], f, free[..]);
          return true, i;
        }
        prev := cur;
        cur := word[cur];
        i := i + 1;
      }
      assert l[..i] == l;
    }

    /** The first loop of km_alloc: the smallest order from ord up with a block to give. */
    method FindOrder(ord: nat, ghost ls: seq<seq<nat>>) returns (cur: nat)
      requires Laid() && Chains(word[..], free[..], ls) && |ls| == MAX_ORD + 1 && ord <= MAX_ORD
      ensures ord <= cur <= MAX_ORD + 1
      ensures forall j :: ord <= j < cur ==> ls[j] == []
      ensures cur <= MAX_ORD ==> ls[cur] != []
    {
      cur := ord;
      while cur <= MAX_ORD && free[cur] == NIL
        invariant ord <= cur <= MAX_ORD + 1
        invariant forall j :: ord <= j < cur ==> ls[j] == []
      {
        assert Chain(word[..], free[..][cur], ls[cur]);
        cur := cur + 1;
      }
      assert cur <= MAX_ORD ==> Chain(word[..], free[..][cur], ls[cur]);
    }

    /** Takes the first block of order c off its list. */
    method PopBlock(c: nat, ghost ls: seq<seq<nat>>) returns (bl: nat)
      requires Laid() && Chains(word[..], free[..], ls) && |ls| == MAX_ORD + 1 && c <= MAX_ORD && ls[c] != []
      modifies free
      ensures bl == ls[c][0] && bl < word.Length
      ensures Chains(word[..], free[..], ls[c := ls[c][1..]])
    {
      ghost var f := free[..];
      assert Chain(word[..], f[c], ls[c]);
      ChainTail(word[..], f[c], ls[c]);
      bl := free[c];
      free[c] := word[bl];
      forall j | 0 <= j < |ls|
        ensures Chain(word[..], free[..][j], ls[c := ls[c][1..]][j])
      {
        assert Chain(word[..], f[j], ls[j]);
      }
    }

    /** One turn of the second loop of km_alloc: the high half of order cur is published. */
    method SplitOnce(bl: nat, c: nat, cur: nat, ghost ls: seq<seq<nat>>, ghost s: Sides)
      requires Laid() && Separate(ls) && cur < c && SidesFit(ls, s, bl, c) && bl + Pow2(c) <= word.Length
      requires Chains(word[..], free[..], Carved(ls, s, bl, c, cur + 1))
      modifies free, word
      ensures Chains(word[..], free[..], Carved(ls, s, bl, c, cur))
      ensures forall y :: 0 <= y < word.Length && Elsewhere(ls, bl, c, y) ==> word[y] == old(word[y])
    {
      ghost var l0 := Carved(ls, s, bl, c, cur + 1);
      SplitReady(ls, s, bl, c, cur, l0);
      InsertBlock(cur, bl + Pow2(cur), l0, s.lower[cur], s.upper[cur]);
    }

    /** The second loop of km_alloc: keep the low half, publish the high half, until the order is right. */
    method CarveBlock(bl: nat, c: nat, ord: nat, ghost ls: seq<seq<nat>>, ghost s: Sides)
      requires Laid() && Chains(word[..], free[..], ls) && Separate(ls) && ord <= c
      requires SidesFit(ls, s, bl, c) && bl + Pow2(c) <= word.Length
      modifies free, word
      ensures Chains(word[..], free[..], Carved(ls, s, bl, c, ord))
      ensures forall y :: 0 <= y < word.Length && Elsewhere(ls, bl, c, y) ==> word[y] == old(word[y])
    {
      var cur := c;
      assert Carved(ls, s, bl, c, c) == ls;
      while cur > ord
        invariant ord <= cur <= c
        invariant Chains(word[..], free[..], Carved(ls, s, bl, c, cur))
        invariant forall y :: 0 <= y < word.Length && Elsewhere(ls, bl, c, y) ==> word[y] == old(word[y])
      {
        cur := cur - 1;
        SplitOnce(bl, c, cur, ls, s);
      }
    }

    /** Counts a request, granted or not. */
    method CountRequest(ord: nat, payload: nat)
      modifies this
      ensures base == old(base) && siz == old(siz) && tree == old(tree)
      ensures Abs() == Counted(old(Abs()), ord, payload)
    {
      usedMem := (usedMem + Pow2(ord)) % WORD;
      usedTruly := (usedTruly + payload) % WORD;
      if usedMem > usedMax {
        usedMax := usedMem;
      }
    }

    /** Takes a released block off the counters. */
    method CountRelease(ord: nat, payload: nat)
      modifies this
      ensures base == old(base) && siz == old(siz) && tree == old(tree)
      ensures Abs() == Uncounted(old(Abs()), ord, payload)
    {
      usedMem := (usedMem - Pow2(ord)) % WORD;
      usedTruly := (usedTruly - payload) % WORD;
    }

    /** What km_alloc does to lists and headers once a block of order cur has been found. */
    method TakeBlock(cur: nat, ord: nat, payload: nat, ghost t: Tree) returns (bl: nat)
      requires Laid() && Shape(t, top) && MIN_ORD <= ord <= cur <= top && FirstFit(t, top, ord) == cur
      requires Chains(word[..], free[..], ListsOf(t, top)) && HeadersAre(word[..], magic[..], order[..], t, top)
      modifies free, word, magic, order
      ensures FreeList(t, top, 0, cur) != [] && bl == FreeList(t, top, 0, cur)[0]
      ensures Chains(word[..], free[..], ListsOf(AllocTree(t, top, ord, payload), top))
      ensures HeadersAre(word[..], magic[..], order[..], AllocTree(t, top, ord, payload), top)
    {
      ghost var w := word[..];
      bl := PopBlock(cur, ListsOf(t, top));
      PoppedFits(t, top, bl, cur);
      CarvedLists(t, top, bl, cur, ord, payload);
      CarveBlock(bl, cur, ord, PoppedLists(t, top, cur), SidesOf(t, top, bl, cur));
      HeaderFits(t, top, bl, cur, ord, payload, w, word[..], free[..], magic[..], order[..]);
      magic[bl], order[bl], word[bl] := HDR_MAGIC, ord, payload;
    }

    /** What km_alloc does to lists and headers for a request of order ord. */
    method Grant(ord: nat, payload: nat, ghost t: Tree) returns (r: Option<nat>)
      requires Laid() && Shape(t, top) && MIN_ORD <= ord
      requires Chains(word[..], free[..], ListsOf(t, top)) && HeadersAre(word[..], magic[..], order[..], t, top)
      modifies free, word, magic, order
      ensures r == if ord > MAX_ORD then None else AllocAddress(t, top, ord)
      ensures Chains(word[..], free[..], ListsOf(if ord > MAX_ORD then t else AllocTree(t, top, ord, payload), top))
      ensures HeadersAre(word[..], magic[..], order[..], if ord > MAX_ORD then t
              else AllocTree(t, top, ord, payload), top)
    {
      if ord > MAX_ORD {
        return None;
      }
      var cur := FindOrder(ord, ListsOf(t, top));
      FoundFirstFit(t, top, ord, cur);
      if cur > MAX_ORD {
        return None;
      }
      var bl := TakeBlock(cur, ord, payload, t);
      r := Some(bl);
    }

    /** km_alloc. */
    method Alloc(request: nat) returns (r: Option<nat>)
      requires Valid() && Answerable(request)
      modifies this, free, word, magic, order
      ensures Valid() && base == old(base) && siz == old(siz)
      ensures Abs() == AfterAlloc(old(Abs()), request)
      ensures r == match Granted(old(Abs()), request) case None => None case Some(a) => Some(a + HEADER)
    {
      ghost var h := Abs();
      var ord, payload := Measure(request);
      CountRequest(ord, payload);
      var block := Grant(ord, payload, tree);
      tree := if ord > MAX_ORD then tree else AllocTree(tree, top, ord, payload);
      assert Abs() == AfterAlloc(h, request);
      r := match block case None => None case Some(a) => Some(a + HEADER);
    }

    /** What km_init guarantees about the recorded size. */
    ghost predicate Sized()
      reads this
    {
      siz == 0 || (siz >= Pow2(top) && (top < MAX_ORD ==> siz == Pow2(top)))
    }

    /** Takes the buddy of the floating block off its list, if it is there. */
    method TakeBuddy(off: nat, k: nat, boff: nat, ghost p: nat, ghost t: Tree) returns (found: bool, ghost t': Tree)
      requires Laid() && Shape(t, top) && k < MAX_ORD && Chains(word[..], free[..], ListsOf(t, top))
      requires HasNode(t, top, 0, p, k + 1) && Node(t, top, 0, p, k + 1).Split? && (off == p || off == p + Pow2(k))
      requires boff in FreeList(t, top, 0, k) ==> HalfFree(t, top, p, k, boff)
      modifies free, word
      ensures found <==> boff in FreeList(t, top, 0, k)
      ensures !found ==> t' == t && word[..] == old(word[..])
      ensures found ==> t' == Put(t, top, 0, p, k + 1, Live(0)) && IsLive(t', top, 0, p, k + 1)
      ensures found ==> Kept(t', p, t, off, top, old(word[..]), word[..])
      ensures Shape(t', top) && Chains(word[..], free[..], ListsOf(t', top))
    {
      ghost var ls := ListsOf(t, top);
      ListsSeparate(t, top);
      ghost var i;
      found, i := RemoveBlock(k, boff, ls);
      if found {
        t' := Merged(t, top, k, p, off, boff, i, old(word[..]), word[..]);
      } else {
        t' := t;
      }
    }

    /** One turn of the loop of km_free: the floating block at off takes its buddy, if that is listed. */
    method MergeOnce(off: nat, k: nat, ghost t: Tree) returns (merged: bool, off': nat, ghost t': Tree)
      requires Laid() && Sized() && Shape(t, top) && IsLive(t, top, 0, off, k) && k < MAX_ORD
      requires Chains(word[..], free[..], ListsOf(t, top))
      modifies free, word
      ensures Shape(t', top) && Chains(word[..], free[..], ListsOf(t', top))
      ensures !merged ==> off' == off && t' == t && word[..] == old(word[..])
      ensures !merged ==> Release(siz != 0, t, top, 0, off, k) == Put(t, top, 0, off, k, Free)
      ensures merged ==> siz != 0 && IsLive(t', top, 0, off', k + 1)
      ensures merged ==> Release(true, t', top, 0, off', k + 1) == Release(true, t, top, 0, off, k)
      ensures merged ==> Kept(t', off', t, off, top, old(word[..]), word[..])
    {
      merged, off', t' := false, off, t;
      ghost var p := MergeCases(t, top, off, k, siz);
      var boff := FlipBit(off, k);
      if boff >= siz {
        return;
      }
      merged, t' := TakeBuddy(off, k, boff, p, t);
      if !merged {
        return;
      }
      if boff < off {
        off' := boff;
      }
    }

    /** The loop of km_free. */
    method Coalesce(off0: nat, k0: nat, ghost t0: Tree) returns (off: nat, k: nat, ghost t: Tree)
      requires Laid() && Sized() && Shape(t0, top) && IsLive(t0, top, 0, off0, k0)
      requires Chains(word[..], free[..], ListsOf(t0, top))
      modifies free, word
      ensures Shape(t, top) && IsLive(t, top, 0, off, k) && k <= MAX_ORD && Chains(word[..], free[..], ListsOf(t, top))
      ensures Release(siz != 0, t0, top, 0, off0, k0) == Put(t, top, 0, off, k, Free)
      ensures Kept(t, off, t0, off0, top, old(word[..]), word[..])
    {
      off, k, t := off0, k0, t0;
      Decompose(t0, top, 0, off0, k0, 0);
      KeptAtFirst(t0, off0, top, word[..]);
      var merged := true;
      while merged && k < MAX_ORD
        invariant Shape(t, top) && IsLive(t, top, 0, off, k) && k <= MAX_ORD
        invariant Chains(word[..], free[..], ListsOf(t, top))
        invariant Release(siz != 0, t, top, 0, off, k) == Release(siz != 0, t0, top, 0, off0, k0)
        invariant !merged ==> Release(siz != 0, t, top, 0, off, k) == Put(t, top, 0, off, k, Free)
        invariant Kept(t, off, t0, off0, top, old(word[..]), word[..])
        decreases MAX_ORD - k, merged
      {
        ghost var w, tp, offp := word[..], t, off;
        merged, off, t := MergeOnce(off, k, t);
        if merged {
          KeptTwice(t, off, tp, offp, t0, off0, top, old(word[..]), w, word[..]);
          k := k + 1;
          Decompose(t, top, 0, off, k, 0);
        }
      }
      if merged {
        Decompose(t, top, 0, off, k, 0);
        ReleaseStops(siz != 0, t, top, 0, off, k, off);
      }
    }

    /** Links the coalesced block into the list of its order. */
    method PublishBlock(off: nat, k: nat, ghost t: Tree)
      requires Laid() && Shape(t, top) && IsLive(t, top, 0, off, k) && k <= MAX_ORD
      requires Chains(word[..], free[..], ListsOf(t, top))
      modifies free, word
      ensures Chains(word[..], free[..], ListsOf(Put(t, top, 0, off, k, Free), top))
      ensures forall y :: 0 <= y < word.Length && y != off && Unlisted(ListsOf(t, top), y) ==> word[y] == old(word[y])
    {
      PublishedLists(t, top, off, k);
      ListsSeparate(t, top);
      LiveUnlisted(t, top, off, k);
      Pow2Monotone(0, k);
      InsertBlock(k, off, ListsOf(t, top), Before(t, top, 0, off, k, k), After(t, top, 0, off, k, k));
    }

    /** km_free.  ptr is the payload address relative to the arena; None is the null pointer. */
    method FreeBlock(ptr: Option<nat>)
      requires Valid()
      requires ptr.Some? ==> HEADER <= ptr.value < HEADER + Pow2(top)
      requires ptr.Some? && magic[ptr.value - HEADER] == HDR_MAGIC ==> LiveOrder(tree, top, 0, ptr.value - HEADER).Some?
      modifies this, free, word, magic
      ensures Valid() && base == old(base) && siz == old(siz)
      ensures ptr.None? ==> Abs() == old(Abs())
      ensures ptr.Some? ==> Abs() == AfterFree(old(Abs()), ptr.value - HEADER)
      ensures ptr.Some? ==> magic[ptr.value - HEADER] != HDR_MAGIC
    {
      if ptr.None? {
        return;
      }
      var off := ptr.value - HEADER;
      ghost var h := Abs();
      ghost var live := LiveOrder(tree, top, 0, off);
      if magic[off] != HDR_MAGIC {
        if live.Some? {
          LiveOrderIff(tree, top, 0, off, live.value);
        }
        return;
      }
      LiveOrderIff(tree, top, 0, off, live.value);
      ghost var w := word[..];
      var ord := order[off];
      CountRelease(ord, word[off]);
      var at, k;
      ghost var t;
      at, k, t := Coalesce(off, ord, tree);
      ghost var w1 := word[..];
      magic[off] := 0;
      PublishBlock(at, k, t);
      HeadersLeft(tree, t, top, off, at, k, w, w1, word[..], old(magic[..]), order[..]);
      tree := Put(t, top, 0, at, k, Free);
      assert Abs() == AfterFree(h, off);
    }
  }

  /** After a release every block that is still live still carries its header. */
  lemma HeadersLeft(t0: Tree, t: Tree, top: nat, off: nat, at: nat, k: nat,
                    w0: seq<int>, w1: seq<int>, w2: seq<int>, m: seq<int>, o: seq<int>)
    requires Shape(t0, top) && Shape(t, top) && IsLive(t, top, 0, at, k) && off < |m|
    requires HeadersAre(w0, m, o, t0, top) && Kept(t, at, t0, off, top, w0, w1) && |w2| == |w1|
    requires forall y :: 0 <= y < |w1| && y != at && Unlisted(ListsOf(t, top), y) ==> w2[y] == w1[y]
    ensures HeadersAre(w2, m[off := 0], o, Put(t, top, 0, at, k, Free), top)
  {
    var t' := Put(t, top, 0, at, k, Free);
    forall x: nat, j: nat | IsLive(t', top, 0, x, j)
      ensures x < Pow2(top) && m[off := 0][x] == HDR_MAGIC && o[x] == j && w2[x] == Node(t', top, 0, x, j).size
    {
      PublishedLive(t, top, at, k, x, j);
      LiveUnlisted(t, top, x, j);
    }
  }

  lemma FreshLists(w: seq<int>, f: seq<int>, top: nat)
    requires top <= MAX_ORD && |f| == MAX_ORD + 1 && |w| > 0
    requires f[top] == 0 && w[0] == NIL
    requires forall j :: 0 <= j <= MAX_ORD && j != top ==> f[j] == NIL
    ensures Chains(w, f, ListsOf(Free, top))
  {
  }

  /** The ways one turn of the coalescing loop can go. */
  lemma MergeCases(t: Tree, top: nat, off: nat, k: nat, siz: nat) returns (p: nat)
    requires Shape(t, top) && IsLive(t, top, 0, off, k) && k < MAX_ORD
    requires siz == 0 || (siz >= Pow2(top) && (top < MAX_ORD ==> siz == Pow2(top)))
    ensures Aligned(off, k)
    ensures Buddy(off, k) >= siz || Buddy(off, k) !in FreeList(t, top, 0, k) ==>
              Release(siz != 0, t, top, 0, off, k) == Put(t, top, 0, off, k, Free)
    ensures Buddy(off, k) < siz ==>
              HasNode(t, top, 0, p, k + 1) && Node(t, top, 0, p, k + 1).Split? &&
              p == (if Buddy(off, k) < off then Buddy(off, k) else off) && (off == p || off == p + Pow2(k))
    ensures Buddy(off, k) < siz && Buddy(off, k) in FreeList(t, top, 0, k) ==>
              HalfFree(t, top, p, k, Buddy(off, k)) &&
              Release(true, Put(t, top, 0, p, k + 1, Live(0)), top, 0, p, k + 1) == Release(true, t, top, 0, off, k)
  {
    p := off;
    Decompose(t, top, 0, off, k, 0);
    if k == top {
      WholeArena(t, top, off);
    } else {
      p := FloatingPair(t, top, off, k);
      if Buddy(off, k) in FreeList(t, top, 0, k) {
        MergeStep(t, top, 0, off, k, p);
      }
    }
    if Buddy(off, k) >= siz || Buddy(off, k) !in FreeList(t, top, 0, k) {
      ReleaseStops(siz != 0, t, top, 0, off, k, p);
    }
  }

  /** The tree after a merge, with its lists and the live blocks it keeps. */
  lemma Merged(t: Tree, top: nat, k: nat, p: nat, off: nat, b: nat, i: nat, w: seq<int>,
      w': seq<int>) returns (t': Tree)
    requires Shape(t, top) && HasNode(t, top, 0, p, k + 1) && Node(t, top, 0, p, k + 1).Split?
    requires HalfFree(t, top, p, k, b) && (off == p || off == p + Pow2(k)) && k < MAX_ORD
    requires i < |FreeList(t, top, 0, k)| && FreeList(t, top, 0, k)[i] == b && |w| == |w'| == Pow2(top)
    requires forall y :: 0 <= y < |w| && Unlisted(ListsOf(t, top), y) ==> w'[y] == w[y]
    ensures t' == Put(t, top, 0, p, k + 1, Live(0)) && IsLive(t', top, 0, p, k + 1)
    ensures ListsOf(t', top) == ListsOf(t, top)[k := Without(ListsOf(t, top)[k], i)]
    ensures Kept(t', p, t, off, top, w, w')
  {
    t' := Put(t, top, 0, p, k + 1, Live(0));
    MergedLists(t, top, k, p, b, i);
    MergeKeeps(t, top, k, p, off, w, w');
  }

  lemma KeptAtFirst(t: Tree, a: nat, top: nat, w: seq<int>)
    requires Shape(t, top) && |w| == Pow2(top)
    ensures Kept(t, a, t, a, top, w, w)
  {
    forall x: nat, j: nat | IsLive(t, top, 0, x, j)
      ensures x < |w|
    {
      Decompose(t, top, 0, x, j, 0);
    }
  }

  lemma KeptTwice(t2: Tree, a2: nat, t1: Tree, a1: nat, t0: Tree, a0: nat, top: nat, w0: seq<int>, w1: seq<int>,
      w2: seq<int>)
    requires Shape(t2, top) && Shape(t1, top) && Shape(t0, top)
    requires Kept(t2, a2, t1, a1, top, w1, w2) && Kept(t1, a1, t0, a0, top, w0, w1)
    ensures Kept(t2, a2, t0, a0, top, w0, w2)
  {
  }

  /** The orders searched in vain really hold nothing. */
  lemma FoundFirstFit(t: Tree, top: nat, ord: nat, cur: nat)
    requires Shape(t, top) && top <= MAX_ORD && ord <= cur <= MAX_ORD + 1
    requires forall j :: ord <= j < cur ==> ListsOf(t, top)[j] == []
    requires cur <= MAX_ORD ==> ListsOf(t, top)[cur] != []
    ensures cur <= MAX_ORD ==> cur <= top && FirstFit(t, top, ord) == cur
    ensures cur > MAX_ORD ==> FirstFit(t, top, ord) > top
  {
    if top < cur <= MAX_ORD {
      FreeListTall(t, top, 0, cur);
      assert false;
    }
    forall j | ord <= j < cur
      ensures FreeList(t, top, 0, j) == []
    {
      assert ListsOf(t, top)[j] == [];
    }
    FirstFitIs(t, top, ord, cur);
  }

  lemma HalfNotIn(ls: seq<seq<nat>>, s: Sides, a: nat, c: nat, cur: nat, j: nat)
    requires SidesFit(ls, s, a, c) && cur < c && j < |ls|
    ensures a + Pow2(cur) !in Carved(ls, s, a, c, cur + 1)[j]
  {
    assert HalfFits(ls, s, a, cur);
    if a + Pow2(cur) in Carved(ls, s, a, c, cur + 1)[j] {
      CarvedMember(ls, s, a, c, cur + 1, j, a + Pow2(cur));
      Pow2Strict(cur, j);
    }
  }

  lemma HalfUnlisted(ls: seq<seq<nat>>, s: Sides, a: nat, c: nat, cur: nat)
    requires SidesFit(ls, s, a, c) && cur < c
    ensures Unlisted(Carved(ls, s, a, c, cur + 1), a + Pow2(cur))
  {
    var r := Carved(ls, s, a, c, cur + 1);
    forall j | 0 <= j < |r|
      ensures a + Pow2(cur) !in r[j]
    {
      HalfNotIn(ls, s, a, c, cur, j);
    }
  }

  /** Everything the insertion of an upper half needs, and what it leaves alone. */
  lemma SplitReady(ls: seq<seq<nat>>, s: Sides, a: nat, c: nat, cur: nat, l0: seq<seq<nat>>)
    requires SidesFit(ls, s, a, c) && Separate(ls) && cur < c && l0 == Carved(ls, s, a, c, cur + 1)
    ensures Separate(l0) && Unlisted(l0, a + Pow2(cur)) && Pow2(cur) < Pow2(c)
    ensures l0[cur] == s.lower[cur] + s.upper[cur]
    ensures Below(s.lower[cur], a + Pow2(cur)) && AtLeast(s.upper[cur], a + Pow2(cur) + 1)
    ensures Carved(ls, s, a, c, cur) == l0[cur := s.lower[cur] + [a + Pow2(cur)] + s.upper[cur]]
    ensures forall y: nat :: Elsewhere(ls, a, c, y) ==> Unlisted(l0, y) && y != a + Pow2(cur)
  {
    CarvedSeparate(ls, s, a, c, cur + 1);
    HalfUnlisted(ls, s, a, c, cur);
    CarvedStep(ls, s, a, c, cur);
    assert HalfFits(ls, s, a, cur);
    Pow2Strict(cur, c);
    forall y: nat | Elsewhere(ls, a, c, y)
      ensures Unlisted(l0, y)
    {
      CarvedUnlisted(ls, s, a, c, cur + 1, y);
    }
  }

  lemma CarvedUnlisted(ls: seq<seq<nat>>, s: Sides, a: nat, c: nat, cur: nat, y: nat)
    requires SidesFit(ls, s, a, c) && cur <= c && Elsewhere(ls, a, c, y)
    ensures Unlisted(Carved(ls, s, a, c, cur), y)
  {
    var r := Carved(ls, s, a, c, cur);
    forall j | 0 <= j < |r|
      ensures y !in r[j]
    {
      if y in r[j] {
        CarvedMember(ls, s, a, c, cur, j, y);
        Pow2Strict(j, c);
      }
    }
  }

  /** Writing the header completes the allocation. */
  lemma {:induction false} HeaderFits(t: Tree, top: nat, a: nat, c: nat, ord: nat, size: nat,
                   w: seq<int>, w': seq<int>, f: seq<int>, m: seq<int>, o: seq<int>)
    requires Shape(t, top) && top <= MAX_ORD && MIN_ORD <= ord <= c <= top && |w'| == |w| && a < |w|
    requires FirstFit(t, top, ord) == c && FreeList(t, top, 0, c)[0] == a
    requires HasNode(t, top, 0, a, c) && Node(t, top, 0, a, c).Free?
    requires Chains(w', f, ListsOf(Put(t, top, 0, a, c, Carve(c, ord, size)), top))
    requires HeadersAre(w, m, o, t, top)
    requires forall y :: 0 <= y < |w| && Elsewhere(PoppedLists(t, top, c), a, c, y) ==> w'[y] == w[y]
    ensures var t' := AllocTree(t, top, ord, size);
            Chains(w'[a := size], f, ListsOf(t', top)) &&
            HeadersAre(w'[a := size], m[a := HDR_MAGIC], o[a := ord], t', top)
  {
    var t' := Put(t, top, 0, a, c, Carve(c, ord, size));
    CarvedLive(t, top, a, c, ord, size, a, ord);
    LiveUnlisted(t', top, a, ord);
    ChainsStay(w', f, ListsOf(t', top), a, size);
    forall x: nat, j: nat | IsLive(t', top, 0, x, j)
      ensures x < Pow2(top) && m[a := HDR_MAGIC][x] == HDR_MAGIC && o[a := ord][x] == j &&
              w'[a := size][x] == Node(t', top, 0, x, j).size
    {
      CarvedLive(t, top, a, c, ord, size, x, j);
      if IsLive(t, top, 0, x, j) {
        LiveUnlisted(t, top, x, j);
        PoppedUnlisted(t, top, c, x);
      }
    }
  }

  lemma PoppedUnlisted(t: Tree, top: nat, c: nat, x: nat)
    requires Shape(t, top) && c <= MAX_ORD && FreeList(t, top, 0, c) != [] && Unlisted(ListsOf(t, top), x)
    ensures Unlisted(PoppedLists(t, top, c), x)
  {
    assert x !in ListsOf(t, top)[c];
    forall j | 0 <= j <= MAX_ORD
      ensures x !in PoppedLists(t, top, c)[j]
    {
      assert x !in ListsOf(t, top)[j];
    }
  }

  /** km_init.  The arena merges blocks exactly when the aligned block fits in the region. */
  method KmInit(mem: nat, region: nat) returns (a: Allocator)
    requires 1 <= region < WORD && mem < WORD
    ensures fresh(a) && a.Valid() && a.top <= MAX_ORD
    ensures LaidOut(mem, region, Pow2(a.top), a.top == MAX_ORD, a.base, a.siz)
    ensures a.Abs() == Fresh(a.top, Adjust(mem, Pow2(a.top)) + Pow2(a.top) <= region)
  {
    var maxOrd := PickOrder(region);
    var block := Pow2(maxOrd);
    var start, rest := Layout(mem, region, block, maxOrd == MAX_ORD);
    a := new Allocator.Publish(start, rest, maxOrd);
  }

  lemma AdjustAligns(mem: nat, block: nat)
    requires block > 0
    ensures (mem + Adjust(mem, block)) % block == 0 && Adjust(mem, block) < block
  {
    var r := mem % block;
    if r == 0 {
      assert Adjust(mem, block) == block % block == 0 by { DivExact(block, block, 1); }
    } else {
      SmallMod(block - r, block);
      assert mem + (block - r) == block * (mem / block + 1);
      DivExact(mem + (block - r), block, mem / block + 1);
    }
  }

  lemma SmallMod(x: nat, d: nat)
    requires x < d
    ensures x % d == x
  {
    DivMod(x, d);
    OneQuotient(d, 0, x, x / d, x % d);
  }

  /** What is left of the region, rounded down to whole blocks. */
  lemma RestSize(region: nat, adjust: nat, block: nat)
    requires adjust < block <= region
    ensures var rest := (region - adjust) / block * block;
            (rest == 0 || rest >= block) && (region < 2 * block && rest != 0 ==> rest == block) &&
            (rest != 0 <==> adjust + block <= region)
  {
    var d := region - adjust;
    DivMod(d, block);
    WholeBlocks(d, block, d / block, d % block);
  }

  lemma WholeBlocks(d: nat, block: nat, q: nat, r: nat)
    requires d == block * q + r && r < block
    ensures q * block == 0 || q * block >= block
    ensures d < 2 * block && q * block != 0 ==> q * block == block
    ensures q * block != 0 <==> block <= d
  {
    if q > 0 {
      Scale(block, q);
    }
    if q > 1 {
      MulLe(2, q, block);
    }
  }

  /** kmalloc_init hands over exactly one megabyte, which merges only if the kernel ends on a megabyte boundary. */
  lemma {:induction false} KernelArenaMerges(mem: nat, top: nat, base: nat, siz: nat)
    requires top <= MAX_ORD && LaidOut(mem, 0x10_0000, Pow2(top), top == MAX_ORD, base, siz)
    ensures top == MAX_ORD
    ensures siz != 0 <==> mem % 0x10_0000 == 0
  {
    assert Pow2(20) == 0x10_0000 by {
      assert Pow2(5) == 32 && Pow2(10) == 1024 && Pow2(15) == 0x8000;
    }
    if top < MAX_ORD {
      Pow2Strict(top, MAX_ORD);
    }
  }
}
