// Allocation and release as steps of a machine, and what holds after every run.

module BuddyRun {
  import opened Basics
  import opened Options
  import opened Powers
  import opened BuddyTree
  import opened BuddyLaws

  // ---------------------------------------------------------------------
  // Request sizes, in 32-bit arithmetic

  /** A request rounded up to a multiple of the pointer size, wrapping at 2^32. */
  function AlignUp4(siz: nat): nat {
    ((siz + 3) % WORD) / 4 * 4
  }

  /** Payload plus header, wrapping at 2^32. */
  function Total(siz: nat): nat {
    (AlignUp4(siz) + HEADER) % WORD
  }

  /** The smallest order from k up whose blocks hold s bytes. */
  function OrderFrom(s: nat, k: nat): (ord: nat)
    ensures ord >= k && Pow2(ord) >= s
    ensures ord == k || Pow2(ord - 1) < s
    decreases s - Pow2(k)
  {
    if Pow2(k) >= s then k else OrderFrom(s, k + 1)
  }

  function OrderOf(siz: nat): nat {
    OrderFrom(Total(siz), MIN_ORD)
  }

  /** Requests for which the search for an order terminates: 2^32 is never reached by doubling. */
  ghost predicate Answerable(siz: nat) {
    siz < WORD && Total(siz) <= WORD / 2
  }

  /** A request near 2^32 wraps around to the smallest order. */
  lemma Wraps(siz: nat)
    requires Answerable(siz) && siz > 0x7FFF_FFF4
    ensures OrderOf(siz) == MIN_ORD && Pow2(OrderOf(siz)) == 32
  {
    assert Total(siz) <= HEADER;
    assert Pow2(5) == 32 by {
      assert Pow2(3) == 8;
    }
  }

  lemma NoWrap(siz: nat)
    requires siz <= 0x7FFF_FFF4
    ensures siz <= AlignUp4(siz) < siz + 4 && Total(siz) == AlignUp4(siz) + HEADER
  {
  }

  /**
    The block picked for an answerable request holds the header and the
    request exactly when the request did not wrap around at 2^32.
   */
  lemma RequestFitsIff(siz: nat)
    requires Answerable(siz)
    ensures HEADER + siz <= Pow2(OrderOf(siz)) <==> siz <= 0x7FFF_FFF4
    ensures siz <= 0x7FFF_FFF4 ==> HEADER + AlignUp4(siz) <= Pow2(OrderOf(siz)) && siz <= AlignUp4(siz) < siz + 4
  {
    if siz > 0x7FFF_FFF4 {
      Wraps(siz);
    } else {
      NoWrap(siz);
    }
  }

  // ---------------------------------------------------------------------
  // The machine

  datatype Heap = Heap(top: nat, merge: bool, tree: Tree, usedMem: nat, usedTruly: nat, usedMax: nat)

  ghost predicate Ok(h: Heap) {
    h.top <= MAX_ORD && Shape(h.tree, h.top) && (h.merge ==> Normal(h.tree))
  }

  ghost function Fresh(top: nat, merge: bool): (h: Heap)
    requires top <= MAX_ORD
    ensures Ok(h)
  {
    Heap(top, merge, Free, 0, 0, 0)
  }

  /** The order of the live block that starts at a, if there is one. */
  ghost function LiveOrder(t: Tree, o: nat, b: nat, a: nat): Option<nat>
    requires Shape(t, o)
  {
    match t
    case Free => None
    case Live(_) => if a == b then Some(o) else None
    case Split(lo, hi) =>
      if a < b + Pow2(o - 1) then LiveOrder(lo, o - 1, b, a) else LiveOrder(hi, o - 1, b + Pow2(o - 1), a)
  }

  lemma {:induction false} LiveOrderIff(t: Tree, o: nat, b: nat, a: nat, k: nat)
    requires Shape(t, o)
    ensures LiveOrder(t, o, b, a) == Some(k) <==> IsLive(t, o, b, a, k)
    decreases t
  {
    if t.Split? {
      LiveOrderIff(t.lo, o - 1, b, a, k);
      LiveOrderIff(t.hi, o - 1, b + Pow2(o - 1), a, k);
    }
  }

  /** The block an allocation returns, if any. */
  ghost function Granted(h: Heap, siz: nat): Option<nat>
    requires Ok(h)
  {
    if OrderOf(siz) > MAX_ORD then None else AllocAddress(h.tree, h.top, OrderOf(siz))
  }

  lemma AllocKeepsNormal(t: Tree, top: nat, ord: nat, size: nat)
    requires Shape(t, top) && ord >= MIN_ORD && Normal(t)
    ensures Normal(AllocTree(t, top, ord, size))
  {
    var c := FirstFit(t, top, ord);
    if c <= top {
      var a := FreeList(t, top, 0, c)[0];
      ListedIsFree(t, top, 0, c, a);
      PutNormal(t, top, 0, a, c, Carve(c, ord, size));
    }
  }

  /** The usage counters after a request of order ord, granted or not. */
  ghost function Counted(h: Heap, ord: nat, payload: nat): Heap {
    var used := (h.usedMem + Pow2(ord)) % WORD;
    h.(usedMem := used, usedTruly := (h.usedTruly + payload) % WORD, usedMax := Max(used, h.usedMax))
  }

  /** Allocation.  The counters move before it is known whether the request succeeds. */
  ghost function AfterAlloc(h: Heap, siz: nat): (h': Heap)
    requires Ok(h)
    ensures Ok(h') && h'.top == h.top && h'.merge == h.merge
  {
    var ord := OrderOf(siz);
    assert h.merge ==> Normal(AllocTree(h.tree, h.top, ord, AlignUp4(siz))) by {
      if h.merge {
        AllocKeepsNormal(h.tree, h.top, ord, AlignUp4(siz));
      }
    }
    Counted(h, ord, AlignUp4(siz)).(tree := if ord > MAX_ORD then h.tree
        else AllocTree(h.tree, h.top, ord, AlignUp4(siz)))
  }

  ghost function Uncounted(h: Heap, ord: nat, payload: nat): Heap {
    h.(usedMem := (h.usedMem - Pow2(ord)) % WORD, usedTruly := (h.usedTruly - payload) % WORD)
  }

  /** Release.  A block that is not live (its magic number is gone) is left alone. */
  ghost function AfterFree(h: Heap, a: nat): (h': Heap)
    requires Ok(h)
    ensures Ok(h') && h'.top == h.top && h'.merge == h.merge
  {
    match LiveOrder(h.tree, h.top, 0, a)
    case None => h
    case Some(k) =>
      LiveOrderIff(h.tree, h.top, 0, a, k);
      assert h.merge ==> Normal(Release(h.merge, h.tree, h.top, 0, a, k)) by {
        if h.merge {
          ReleaseNormal(h.tree, h.top, 0, a, k);
        }
      }
      Uncounted(h, k, Node(h.tree, h.top, 0, a, k).size).(tree := Release(h.merge, h.tree, h.top, 0, a, k))
  }

  datatype Op = Alloc(siz: nat) | Release_(at: nat)

  ghost function Step(h: Heap, op: Op): (h': Heap)
    requires Ok(h)
    ensures Ok(h') && h'.top == h.top && h'.merge == h.merge
  {
    match op
    case Alloc(siz) => AfterAlloc(h, siz)
    case Release_(at) => AfterFree(h, at)
  }

  ghost function Run(h: Heap, ops: seq<Op>): (h': Heap)
    requires Ok(h)
    ensures Ok(h') && h'.top == h.top && h'.merge == h.merge
    decreases |ops|
  {
    if ops == [] then h else Run(Step(h, ops[0]), ops[1..])
  }

  // ---------------------------------------------------------------------
  // Whole-run theorems

  ghost predicate InSomeBlock(t: Tree, top: nat, x: nat)
    requires Shape(t, top)
  {
    exists a: nat, k: nat :: IsBlock(t, top, 0, a, k) && a <= x < a + Pow2(k)
  }

  /** Every reachable arena is tiled: blocks are aligned, disjoint, cover every byte, and add up. */
  lemma ReachableTiling(top: nat, merge: bool, ops: seq<Op>)
    requires top <= MAX_ORD
    ensures var t := Run(Fresh(top, merge), ops).tree;
            && (forall x: nat :: x < Pow2(top) ==> InSomeBlock(t, top, x))
            && (forall a: nat, k: nat :: IsBlock(t, top, 0, a, k) ==> Aligned(a, k) && a + Pow2(k) <= Pow2(top))
            && (forall a: nat, k: nat, a': nat, k': nat ::
                  IsBlock(t, top, 0, a, k) && IsBlock(t, top, 0, a', k') && (a != a' || k != k') ==>
                  a + Pow2(k) <= a' || a' + Pow2(k') <= a)
            && FreeBytesBelow(t, top, 0, MAX_ORD + 1) + LiveBytes(t, top) == Pow2(top)
  {
    var t := Run(Fresh(top, merge), ops).tree;
    AlignedZero(top);
    BytesConserved(t, top, 0, MAX_ORD + 1);
    forall x: nat | x < Pow2(top)
      ensures InSomeBlock(t, top, x)
    {
      var a, k := Covered(t, top, 0, x);
      LeafIsBlock(t, top, 0, a, k);
    }
    forall a: nat, k: nat | IsBlock(t, top, 0, a, k)
      ensures Aligned(a, k) && a + Pow2(k) <= Pow2(top)
    {
      LeafIsBlock(t, top, 0, a, k);
      NodeAligned(t, top, 0, a, k);
      Decompose(t, top, 0, a, k, 0);
    }
    forall a: nat, k: nat, a': nat, k': nat |
      IsBlock(t, top, 0, a, k) && IsBlock(t, top, 0, a', k') && (a != a' || k != k')
      ensures a + Pow2(k) <= a' || a' + Pow2(k') <= a
    {
      LeafIsBlock(t, top, 0, a, k);
      LeafIsBlock(t, top, 0, a', k');
      Apart(t, top, 0, a, k, a', k');
    }
  }

  /** In every reachable state of a merging arena no block and its buddy are both listed, and lists are sorted. */
  lemma ReachableCoalesced(top: nat, ops: seq<Op>, k: nat)
    requires top <= MAX_ORD
    ensures var l := FreeList(Run(Fresh(top, true), ops).tree, top, 0, k);
            Increasing(l) && forall a :: a in l && k < top ==> Aligned(a, k) && Buddy(a, k) !in l
  {
    var t := Run(Fresh(top, true), ops).tree;
    AlignedZero(top);
    FreeListRange(t, top, 0, k);
    forall a | a in FreeList(t, top, 0, k) && k < top
      ensures Aligned(a, k) && Buddy(a, k) !in FreeList(t, top, 0, k)
    {
      NoBuddyPair(t, top, 0, a, k);
    }
  }

  /** A request is refused in a reachable state only if no aligned range of its order is wholly free. */
  lemma ReachableRefusal(top: nat, ops: seq<Op>, siz: nat)
    requires top <= MAX_ORD
    ensures var h := Run(Fresh(top, true), ops);
            Granted(h, siz).None? <==>
            !exists a: nat :: Aligned(a, OrderOf(siz)) && RangeFree(h.tree, top, 0, a, OrderOf(siz))
  {
    var h := Run(Fresh(top, true), ops);
    FailsOnlyWhenFull(h.tree, top, OrderOf(siz));
    if OrderOf(siz) > MAX_ORD {
      Pow2Strict(top, OrderOf(siz));
    }
  }

  lemma CountersCancel(h: Heap, ord: nat, payload: nat)
    requires h.usedMem < WORD && h.usedTruly < WORD
    ensures var h' := Uncounted(Counted(h, ord, payload), ord, payload);
            h'.usedMem == h.usedMem && h'.usedTruly == h.usedTruly
  {
    ModAdd(h.usedMem + Pow2(ord), 0 - Pow2(ord));
    ModAdd(h.usedTruly + payload, 0 - payload);
  }

  lemma ModAdd(x: int, y: int)
    ensures (x % WORD + y) % WORD == (x + y) % WORD
  {
  }

  /** Freeing what was just granted restores the arena, free lists in order, and the counters. */
  lemma AllocFreeRestores(h: Heap, siz: nat)
    requires Ok(h) && h.merge && h.usedMem < WORD && h.usedTruly < WORD
    requires Granted(h, siz).Some?
    ensures var h' := AfterFree(AfterAlloc(h, siz), Granted(h, siz).value);
            h'.tree == h.tree && h'.usedMem == h.usedMem && h'.usedTruly == h.usedTruly
  {
    var ord, payload, a := OrderOf(siz), AlignUp4(siz), Granted(h, siz).value;
    AllocThenFree(h.tree, h.top, ord, payload);
    LiveOrderIff(AllocTree(h.tree, h.top, ord, payload), h.top, 0, a, ord);
    CountersCancel(h, ord, payload);
  }

  // ---------------------------------------------------------------------
  // Which blocks are live

  lemma {:induction false} ReleaseLive(merge: bool, t: Tree, o: nat, b: nat, a: nat, k: nat, x: nat, j: nat)
    requires Shape(t, o) && IsLive(t, o, b, a, k)
    ensures IsLive(Release(merge, t, o, b, a, k), o, b, x, j) <==> IsLive(t, o, b, x, j) && x != a
    ensures IsLive(t, o, b, x, j) && x != a ==>
              Node(Release(merge, t, o, b, a, k), o, b, x, j) == Node(t, o, b, x, j)
    decreases t
  {
    if o == k {
      if IsLive(t, o, b, x, j) {
        LeafUnique(t, o, b, a, k, k);
      }
    } else {
      var m := b + Pow2(o - 1);
      if a < m {
        ReleaseLive(merge, t.lo, o - 1, b, a, k, x, j);
        if x == a && j == o {
          assert !IsLive(t, o, b, x, j);
        }
      } else {
        ReleaseLive(merge, t.hi, o - 1, m, a, k, x, j);
      }
      var r := Release(merge, t, o, b, a, k);
      if r.Free? {
        assert !IsLive(r, o, b, x, j);
        assert !IsLive(Free, o - 1, b, x, j);
        assert !IsLive(Free, o - 1, m, x, j);
      }
    }
  }

  /** Carving a free block adds one live block and disturbs no other. */
  lemma CarvedLive(t: Tree, top: nat, a: nat, c: nat, ord: nat, size: nat, x: nat, j: nat)
    requires Shape(t, top) && MIN_ORD <= ord <= c
    requires HasNode(t, top, 0, a, c) && Node(t, top, 0, a, c).Free?
    ensures IsLive(Put(t, top, 0, a, c, Carve(c, ord, size)), top, 0, x, j) <==>
            IsLive(t, top, 0, x, j) || (x == a && j == ord)
    ensures IsLive(t, top, 0, x, j) ==>
              (x < a || a + Pow2(c) <= x) &&
              Node(Put(t, top, 0, a, c, Carve(c, ord, size)), top, 0, x, j) == Node(t, top, 0, x, j)
    ensures x == a && j == ord ==> Node(Put(t, top, 0, a, c, Carve(c, ord, size)), top, 0, x, j) == Live(size)
  {
    var s := Carve(c, ord, size);
    CarveLive(c, ord, size, a, x, j);
    var t' := Put(t, top, 0, a, c, s);
    if x < a || a + Pow2(c) <= x {
      PutElsewhere(t, top, 0, a, c, s, x, j);
    } else {
      if IsLive(t, top, 0, x, j) {
        Decompose(t, top, 0, x, j, 0);
        NoOverlap(t, top, 0, a, c, x, j, x);
      }
      if IsLive(t', top, 0, x, j) {
        if j > c {
          Decompose(t', top, 0, x, j, 0);
          NotAbove(t', top, 0, a, c, x, j);
        }
      }
      if j <= c {
        SubNode(t', top, 0, a, c, x, j);
      }
    }
  }

  /**
    A granted request adds exactly one live block, of the order and payload
    asked for, and leaves every other live block with its payload; a refused one
    leaves the arena as it is.
   */
  lemma AllocAddsOne(h: Heap, siz: nat, x: nat, j: nat)
    requires Ok(h)
    ensures var t, t', g := h.tree, AfterAlloc(h, siz).tree, Granted(h, siz);
            if g.None? then t' == t
            else
              (IsLive(t', h.top, 0, x, j) <==> IsLive(t, h.top, 0, x, j) || (x == g.value && j == OrderOf(siz))) &&
              (IsLive(t, h.top, 0, x, j) ==> x != g.value && Node(t', h.top, 0, x, j) == Node(t, h.top, 0, x, j)) &&
              (x == g.value && j == OrderOf(siz) ==> Node(t', h.top, 0, x, j) == Live(AlignUp4(siz)))
  {
    var ord := OrderOf(siz);
    var c := FirstFit(h.tree, h.top, ord);
    if ord <= MAX_ORD && c <= h.top {
      var a := FreeList(h.tree, h.top, 0, c)[0];
      ListedIsFree(h.tree, h.top, 0, c, a);
      CarvedLive(h.tree, h.top, a, c, ord, AlignUp4(siz), x, j);
    }
  }

  /** Releasing a live block removes exactly that block, and leaves every other live block with its payload. */
  lemma FreeRemovesOne(h: Heap, at: nat, x: nat, j: nat)
    requires Ok(h) && LiveOrder(h.tree, h.top, 0, at).Some?
    ensures var t, t' := h.tree, AfterFree(h, at).tree;
            (IsLive(t', h.top, 0, x, j) <==> IsLive(t, h.top, 0, x, j) && x != at) &&
            (IsLive(t', h.top, 0, x, j) ==> Node(t', h.top, 0, x, j) == Node(t, h.top, 0, x, j))
  {
    var k := LiveOrder(h.tree, h.top, 0, at).value;
    LiveOrderIff(h.tree, h.top, 0, at, k);
    ReleaseLive(h.merge, h.tree, h.top, 0, at, k, x, j);
  }

  /** A leaf cannot lie above a split node. */
  lemma {:induction false} NotAbove(t: Tree, o: nat, b: nat, a: nat, c: nat, x: nat, j: nat)
    requires Shape(t, o) && HasNode(t, o, b, a, c) && IsLive(t, o, b, x, j) && j > c
    ensures a + Pow2(c) <= x || x + Pow2(j) <= a
    decreases t
  {
    if o != j {
      if a < b + Pow2(o - 1) {
        Decompose(t.lo, o - 1, b, a, c, 0);
      }
      if x < b + Pow2(o - 1) {
        Decompose(t.lo, o - 1, b, x, j, 0);
        if a < b + Pow2(o - 1) {
          NotAbove(t.lo, o - 1, b, a, c, x, j);
        }
      } else {
        Decompose(t.hi, o - 1, b + Pow2(o - 1), x, j, 0);
        if a >= b + Pow2(o - 1) {
          NotAbove(t.hi, o - 1, b + Pow2(o - 1), a, c, x, j);
        }
      }
    }
  }

  /** Freeing every live block, in any order, leaves the one block that was published at the start. */
  lemma {:induction false} FreeAllRestores(h: Heap, order: seq<nat>)
    requires Ok(h) && h.merge
    requires forall a: nat, k: nat :: IsLive(h.tree, h.top, 0, a, k) ==> a in order
    ensures Run(h, seq(|order|, i requires 0 <= i < |order| => Release_(order[i]))).tree == Free
    decreases |order|
  {
    var ops := seq(|order|, i requires 0 <= i < |order| => Release_(order[i]));
    if order == [] {
      if !NoneLive(h.tree) {
        var a, k := SomeLive(h.tree, h.top, 0);
        assert false;
      }
      EmptyIsWhole(h.tree);
    } else {
      var h' := Step(h, ops[0]);
      var rest := order[1..];
      forall a: nat, k: nat | IsLive(h'.tree, h'.top, 0, a, k)
        ensures a in rest
      {
        var j := LiveOrder(h.tree, h.top, 0, order[0]);
        if j.Some? {
          LiveOrderIff(h.tree, h.top, 0, order[0], j.value);
          ReleaseLive(h.merge, h.tree, h.top, 0, order[0], j.value, a, k);
        } else {
          LiveOrderIff(h.tree, h.top, 0, order[0], k);
        }
        assert a in order && a != order[0];
      }
      FreeAllRestores(h', rest);
      assert ops[1..] == seq(|rest|, i requires 0 <= i < |rest| => Release_(rest[i]));
    }
  }

  // ---------------------------------------------------------------------
  // Accounting

  lemma {:induction false} PutBytes(t: Tree, o: nat, b: nat, a: nat, k: nat, s: Tree)
    requires Shape(t, o) && HasNode(t, o, b, a, k) && Shape(s, k)
    ensures LiveBytes(Put(t, o, b, a, k, s), o) == LiveBytes(t, o) - LiveBytes(Node(t, o, b, a, k), k) + LiveBytes(s, k)
    ensures LivePayload(Put(t, o, b, a, k, s), o) ==
            LivePayload(t, o) - LivePayload(Node(t, o, b, a, k), k) + LivePayload(s, k)
    decreases t
  {
    if o == k {
    } else if a < b + Pow2(o - 1) {
      PutBytes(t.lo, o - 1, b, a, k, s);
    } else {
      PutBytes(t.hi, o - 1, b + Pow2(o - 1), a, k, s);
    }
  }

  lemma {:induction false} ReleaseBytes(merge: bool, t: Tree, o: nat, b: nat, a: nat, k: nat)
    requires Shape(t, o) && IsLive(t, o, b, a, k)
    ensures LiveBytes(Release(merge, t, o, b, a, k), o) == LiveBytes(t, o) - Pow2(k)
    ensures LivePayload(Release(merge, t, o, b, a, k), o) == LivePayload(t, o) - Node(t, o, b, a, k).size
    decreases t
  {
    if o == k {
    } else if a < b + Pow2(o - 1) {
      ReleaseBytes(merge, t.lo, o - 1, b, a, k);
    } else {
      ReleaseBytes(merge, t.hi, o - 1, b + Pow2(o - 1), a, k);
    }
  }

  lemma {:induction false} CarveBytes(from: nat, to: nat, size: nat)
    requires MIN_ORD <= to <= from
    ensures LiveBytes(Carve(from, to, size), from) == Pow2(to)
    ensures LivePayload(Carve(from, to, size), from) == size
    decreases from
  {
    if from > to {
      CarveBytes(from - 1, to, size);
    }
  }

  /** Block bytes that refused requests of a run left on the counter. */
  ghost function RefusedBytes(h: Heap, ops: seq<Op>): nat
    requires Ok(h)
    decreases |ops|
  {
    if ops == [] then 0
    else
      (if ops[0].Alloc? && Granted(h, ops[0].siz).None? then Pow2(OrderOf(ops[0].siz)) else 0) +
      RefusedBytes(Step(h, ops[0]), ops[1..])
  }

  ghost function RefusedPayload(h: Heap, ops: seq<Op>): nat
    requires Ok(h)
    decreases |ops|
  {
    if ops == [] then 0
    else
      (if ops[0].Alloc? && Granted(h, ops[0].siz).None? then AlignUp4(ops[0].siz) else 0) +
      RefusedPayload(Step(h, ops[0]), ops[1..])
  }

  lemma AllocBytes(t: Tree, top: nat, ord: nat, size: nat)
    requires Shape(t, top) && ord >= MIN_ORD
    ensures var granted := AllocAddress(t, top, ord).Some?;
            var t' := AllocTree(t, top, ord, size);
            LiveBytes(t', top) == LiveBytes(t, top) + (if granted then Pow2(ord) else 0) &&
            LivePayload(t', top) == LivePayload(t, top) + (if granted then size else 0)
  {
    var c := FirstFit(t, top, ord);
    if c <= top {
      var a := FreeList(t, top, 0, c)[0];
      ListedIsFree(t, top, 0, c, a);
      CarveBytes(c, ord, size);
      PutBytes(t, top, 0, a, c, Carve(c, ord, size));
    }
  }

  lemma AllocCounts(h: Heap, siz: nat, slack: nat, slackPayload: nat)
    requires Ok(h)
    requires h.usedMem == (LiveBytes(h.tree, h.top) + slack) % WORD
    requires h.usedTruly == (LivePayload(h.tree, h.top) + slackPayload) % WORD
    ensures var refused := Granted(h, siz).None?;
            var h' := AfterAlloc(h, siz);
            h'.usedMem == (LiveBytes(h'.tree, h'.top) + slack + if refused then Pow2(OrderOf(siz)) else 0) % WORD &&
            h'.usedTruly == (LivePayload(h'.tree, h'.top) + slackPayload + if refused then AlignUp4(siz) else 0) % WORD
  {
    AllocBytes(h.tree, h.top, OrderOf(siz), AlignUp4(siz));
    ModAdd(LiveBytes(h.tree, h.top) + slack, Pow2(OrderOf(siz)));
    ModAdd(LivePayload(h.tree, h.top) + slackPayload, AlignUp4(siz));
  }

  lemma FreeCounts(h: Heap, at: nat, slack: nat, slackPayload: nat)
    requires Ok(h)
    requires h.usedMem == (LiveBytes(h.tree, h.top) + slack) % WORD
    requires h.usedTruly == (LivePayload(h.tree, h.top) + slackPayload) % WORD
    ensures var h' := AfterFree(h, at);
            h'.usedMem == (LiveBytes(h'.tree, h'.top) + slack) % WORD &&
            h'.usedTruly == (LivePayload(h'.tree, h'.top) + slackPayload) % WORD
  {
    var k := LiveOrder(h.tree, h.top, 0, at);
    if k.Some? {
      LiveOrderIff(h.tree, h.top, 0, at, k.value);
      ReleaseBytes(h.merge, h.tree, h.top, 0, at, k.value);
      ModAdd(LiveBytes(h.tree, h.top) + slack, 0 - Pow2(k.value));
      ModAdd(LivePayload(h.tree, h.top) + slackPayload, 0 - Node(h.tree, h.top, 0, at, k.value).size);
    }
  }

  lemma {:induction false} RunCounts(h: Heap, ops: seq<Op>, slack: nat, slackPayload: nat)
    requires Ok(h)
    requires h.usedMem == (LiveBytes(h.tree, h.top) + slack) % WORD
    requires h.usedTruly == (LivePayload(h.tree, h.top) + slackPayload) % WORD
    ensures var h' := Run(h, ops);
            h'.usedMem == (LiveBytes(h'.tree, h'.top) + slack + RefusedBytes(h, ops)) % WORD &&
            h'.usedTruly == (LivePayload(h'.tree, h'.top) + slackPayload + RefusedPayload(h, ops)) % WORD
    decreases |ops|
  {
    if ops != [] {
      match ops[0]
      case Alloc(siz) =>
        var refused := Granted(h, siz).None?;
        AllocCounts(h, siz, slack, slackPayload);
        RunCounts(Step(h, ops[0]), ops[1..],
                  slack + if refused then Pow2(OrderOf(siz)) else 0,
                  slackPayload + if refused then AlignUp4(siz) else 0);
      case Release_(at) =>
        FreeCounts(h, at, slack, slackPayload);
        RunCounts(Step(h, ops[0]), ops[1..], slack, slackPayload);
    }
  }

  /** The usage counters are the live bytes plus whatever refused requests left behind, modulo 2^32. */
  lemma CountersAccount(top: nat, merge: bool, ops: seq<Op>)
    requires top <= MAX_ORD
    ensures var h := Fresh(top, merge);
            var h' := Run(h, ops);
            h'.usedMem == (LiveBytes(h'.tree, top) + RefusedBytes(h, ops)) % WORD &&
            h'.usedTruly == (LivePayload(h'.tree, top) + RefusedPayload(h, ops)) % WORD
  {
    RunCounts(Fresh(top, merge), ops, 0, 0);
  }

  // ---------------------------------------------------------------------
  // Room for header and payload

  lemma {:induction false} PutRoomy(t: Tree, o: nat, b: nat, a: nat, k: nat, s: Tree)
    requires Shape(t, o) && HasNode(t, o, b, a, k) && Shape(s, k) && Roomy(t, o) && Roomy(s, k)
    ensures Roomy(Put(t, o, b, a, k, s), o)
    decreases t
  {
    if o == k {
    } else if a < b + Pow2(o - 1) {
      PutRoomy(t.lo, o - 1, b, a, k, s);
    } else {
      PutRoomy(t.hi, o - 1, b + Pow2(o - 1), a, k, s);
    }
  }

  lemma {:induction false} ReleaseRoomy(merge: bool, t: Tree, o: nat, b: nat, a: nat, k: nat)
    requires Shape(t, o) && HasNode(t, o, b, a, k) && Roomy(t, o)
    ensures Roomy(Release(merge, t, o, b, a, k), o)
    decreases t
  {
    if o == k {
    } else if a < b + Pow2(o - 1) {
      ReleaseRoomy(merge, t.lo, o - 1, b, a, k);
    } else {
      ReleaseRoomy(merge, t.hi, o - 1, b + Pow2(o - 1), a, k);
    }
  }

  lemma {:induction false} CarveRoomy(from: nat, to: nat, size: nat)
    requires MIN_ORD <= to <= from && HEADER + size <= Pow2(to)
    ensures Roomy(Carve(from, to, size), from)
    decreases from
  {
    if from > to {
      CarveRoomy(from - 1, to, size);
    }
  }

  /** After any run of requests that do not wrap around, every live block holds its header and its payload. */
  lemma {:induction false} ReachableRoomy(h: Heap, ops: seq<Op>)
    requires Ok(h) && Roomy(h.tree, h.top)
    requires forall i :: 0 <= i < |ops| && ops[i].Alloc? ==> ops[i].siz <= 0x7FFF_FFF4
    ensures Roomy(Run(h, ops).tree, h.top)
    decreases |ops|
  {
    if ops != [] {
      match ops[0] {
        case Alloc(siz) =>
          RequestFitsIff(siz);
          var ord := OrderOf(siz);
          if Granted(h, siz).Some? {
            var c := FirstFit(h.tree, h.top, ord);
            var a := FreeList(h.tree, h.top, 0, c)[0];
            ListedIsFree(h.tree, h.top, 0, c, a);
            CarveRoomy(c, ord, AlignUp4(siz));
            PutRoomy(h.tree, h.top, 0, a, c, Carve(c, ord, AlignUp4(siz)));
          }
        case Release_(at) =>
          var k := LiveOrder(h.tree, h.top, 0, at);
          if k.Some? {
            LiveOrderIff(h.tree, h.top, 0, at, k.value);
            ReleaseRoomy(h.merge, h.tree, h.top, 0, at, k.value);
          }
      }
      ReachableRoomy(Step(h, ops[0]), ops[1..]);
    }
  }

  // ---------------------------------------------------------------------
  // An arena whose recorded size is zero

  /** Without merging, one request carved from a larger block is enough to lose the whole block for good. */
  lemma WithoutMergingNothingRecovers(top: nat, siz: nat)
    requires MIN_ORD < top <= MAX_ORD && OrderOf(siz) < top
    ensures var h := Fresh(top, false);
            Granted(h, siz) == Some(0) &&
            NoneLive(Step(Step(h, Alloc(siz)), Release_(0)).tree) &&
            Step(Step(h, Alloc(siz)), Release_(0)).tree != Free
  {
    var h := Fresh(top, false);
    var ord := OrderOf(siz);
    OnlyTop(top, ord);
    var m := AfterAlloc(h, siz);
    assert m.tree == Carve(top, ord, AlignUp4(siz));
    CarveLive(top, ord, AlignUp4(siz), 0, 0, ord);
    LiveOrderIff(m.tree, top, 0, 0, ord);
    CarveReleased(top, ord, AlignUp4(siz));
  }

  lemma {:induction false} OnlyTop(top: nat, k: nat)
    requires k <= top
    ensures FirstFit(Free, top, k) == top
    decreases top - k
  {
    if k < top {
      OnlyTop(top, k + 1);
    }
  }

  lemma {:induction false} CarveReleased(from: nat, to: nat, size: nat)
    requires MIN_ORD <= to <= from
    ensures HasNode(Carve(from, to, size), from, 0, 0, to)
    ensures NoneLive(Release(false, Carve(from, to, size), from, 0, 0, to))
    ensures from > to ==> Release(false, Carve(from, to, size), from, 0, 0, to).Split?
    decreases from
  {
    if from > to {
      CarveReleased(from - 1, to, size);
    }
  }

  /** An arena of the smallest order or below is never split. */
  lemma SmallStep(h: Heap, op: Op)
    requires Ok(h) && h.top <= MIN_ORD && !h.tree.Split?
    ensures !Step(h, op).tree.Split?
  {
    match op {
      case Alloc(siz) =>
        var c := FirstFit(h.tree, h.top, OrderOf(siz));
        if c <= h.top {
          ListedIsFree(h.tree, h.top, 0, c, FreeList(h.tree, h.top, 0, c)[0]);
        }
      case Release_(at) =>
        var k := LiveOrder(h.tree, h.top, 0, at);
        if k.Some? {
          LiveOrderIff(h.tree, h.top, 0, at, k.value);
        }
    }
  }

  lemma {:induction false} SmallNeverSplits(h: Heap, ops: seq<Op>)
    requires Ok(h) && h.top <= MIN_ORD && !h.tree.Split?
    ensures !Run(h, ops).tree.Split?
    decreases |ops|
  {
    if ops != [] {
      SmallStep(h, ops[0]);
      SmallNeverSplits(Step(h, ops[0]), ops[1..]);
    }
  }

  /** In every run, nothing live means one free block. */
  ghost predicate Recovers(top: nat, merge: bool)
    requires top <= MAX_ORD
  {
    forall ops: seq<Op> :: NoneLive(Run(Fresh(top, merge), ops).tree) ==> Run(Fresh(top, merge), ops).tree == Free
  }

  lemma NeverRecovers(top: nat)
    requires MIN_ORD < top <= MAX_ORD
    ensures !Recovers(top, false)
  {
    var h := Fresh(top, false);
    var ops := [Alloc(1), Release_(0)];
    assert OrderOf(1) == MIN_ORD by {
      assert Pow2(2) == 4 && Total(1) == 14;
    }
    WithoutMergingNothingRecovers(top, 1);
    TwoSteps(h, ops[0], ops[1]);
    assert NoneLive(Run(h, ops).tree) && Run(h, ops).tree != Free;
  }

  /**
    Recovery, exactly: an arena returns to its single block after every run
    that leaves nothing live if and only if it merges or is too small to split.
   */
  lemma RecoversIff(top: nat, merge: bool)
    requires top <= MAX_ORD
    ensures Recovers(top, merge) <==> merge || top <= MIN_ORD
  {
    if !merge && top > MIN_ORD {
      NeverRecovers(top);
    } else {
      forall ops: seq<Op> | NoneLive(Run(Fresh(top, merge), ops).tree)
        ensures Run(Fresh(top, merge), ops).tree == Free
      {
        if merge {
          EmptyIsWhole(Run(Fresh(top, merge), ops).tree);
        } else {
          SmallNeverSplits(Fresh(top, merge), ops);
        }
      }
    }
  }

  lemma TwoSteps(h: Heap, x: Op, y: Op)
    requires Ok(h)
    ensures Run(h, [x, y]) == Step(Step(h, x), y)
  {
    assert [x, y][1..] == [y] && [y][1..] == [];
    assert Run(h, [x, y]) == Run(Step(h, x), [y]);
  }
}
