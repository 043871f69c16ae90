// What the allocator promises, stated on the tree and proved for every run.

module BuddyLaws {
  import opened Basics
  import opened Options
  import opened Powers
  import opened BuddyTree

  // ---------------------------------------------------------------------
  // Tiling

  /** A block of the tiling, free or live. */
  ghost predicate IsBlock(t: Tree, o: nat, b: nat, a: nat, k: nat)
    requires Shape(t, o)
  {
    a in FreeList(t, o, b, k) || IsLive(t, o, b, a, k)
  }

  lemma {:induction false} LeafIsBlock(t: Tree, o: nat, b: nat, a: nat, k: nat)
    requires Shape(t, o)
    ensures IsBlock(t, o, b, a, k) <==> HasNode(t, o, b, a, k) && !Node(t, o, b, a, k).Split?
  {
    if a in FreeList(t, o, b, k) {
      ListedIsFree(t, o, b, k, a);
    }
    if HasNode(t, o, b, a, k) && Node(t, o, b, a, k).Free? {
      Decompose(t, o, b, a, k, k);
      assert FreeList(Node(t, o, b, a, k), k, a, k)[0] == a;
    }
  }

  /** Every byte of the arena belongs to a block. */
  lemma {:induction false} Covered(t: Tree, o: nat, b: nat, x: nat) returns (a: nat, k: nat)
    requires Shape(t, o) && b <= x < b + Pow2(o)
    ensures HasNode(t, o, b, a, k) && !Node(t, o, b, a, k).Split?
    ensures a <= x < a + Pow2(k)
    decreases t
  {
    if !t.Split? {
      a, k := b, o;
    } else if x < b + Pow2(o - 1) {
      a, k := Covered(t.lo, o - 1, b, x);
      Decompose(t.lo, o - 1, b, a, k, 0);
    } else {
      a, k := Covered(t.hi, o - 1, b + Pow2(o - 1), x);
      Decompose(t.hi, o - 1, b + Pow2(o - 1), a, k, 0);
    }
  }

  /** Two nodes that share a byte are nested, and two blocks that share a byte are one block. */
  lemma {:induction false} NoOverlap(t: Tree, o: nat, b: nat, a: nat, k: nat, a': nat, k': nat, x: nat)
    requires Shape(t, o)
    requires HasNode(t, o, b, a, k) && !Node(t, o, b, a, k).Split?
    requires HasNode(t, o, b, a', k') && !Node(t, o, b, a', k').Split?
    requires a <= x < a + Pow2(k) && a' <= x < a' + Pow2(k')
    ensures a == a' && k == k'
    decreases t
  {
    if o != k && o != k' {
      var m := b + Pow2(o - 1);
      if a < m {
        Decompose(t.lo, o - 1, b, a, k, 0);
      } else {
        Decompose(t.hi, o - 1, m, a, k, 0);
      }
      if a' < m {
        Decompose(t.lo, o - 1, b, a', k', 0);
      } else {
        Decompose(t.hi, o - 1, m, a', k', 0);
      }
      if a < m {
        NoOverlap(t.lo, o - 1, b, a, k, a', k', x);
      } else {
        NoOverlap(t.hi, o - 1, m, a, k, a', k', x);
      }
    }
  }

  /** Sizes of the listed free blocks of orders below n. */
  ghost function FreeBytesBelow(t: Tree, o: nat, b: nat, n: nat): nat
    requires Shape(t, o)
  {
    if n == 0 then 0 else FreeBytesBelow(t, o, b, n - 1) + |FreeList(t, o, b, n - 1)| * Pow2(n - 1)
  }

  lemma Distribute(x: nat, y: nat, z: nat)
    ensures (x + y) * z == x * z + y * z
  {
  }

  lemma {:induction false} FreeBytesSplit(t: Tree, o: nat, b: nat, n: nat)
    requires Shape(t, o) && t.Split?
    ensures FreeBytesBelow(t, o, b, n) ==
            FreeBytesBelow(t.lo, o - 1, b, n) + FreeBytesBelow(t.hi, o - 1, b + Pow2(o - 1), n)
    decreases n
  {
    if n > 0 {
      FreeBytesSplit(t, o, b, n - 1);
      Distribute(|FreeList(t.lo, o - 1, b, n - 1)|, |FreeList(t.hi, o - 1, b + Pow2(o - 1), n - 1)|, Pow2(n - 1));
    }
  }

  lemma {:induction false} FreeBytesLeaf(t: Tree, o: nat, b: nat, n: nat)
    requires Shape(t, o) && !t.Split?
    ensures FreeBytesBelow(t, o, b, n) == if t.Free? && o < n then Pow2(o) else 0
    decreases n
  {
    if n > 0 {
      FreeBytesLeaf(t, o, b, n - 1);
    }
  }

  /** Conservation: listed free bytes and live bytes add up to the arena. */
  lemma {:induction false} BytesConserved(t: Tree, o: nat, b: nat, n: nat)
    requires Shape(t, o) && o < n
    ensures FreeBytesBelow(t, o, b, n) + LiveBytes(t, o) == Pow2(o)
    decreases t
  {
    if t.Split? {
      FreeBytesSplit(t, o, b, n);
      BytesConserved(t.lo, o - 1, b, n);
      BytesConserved(t.hi, o - 1, b + Pow2(o - 1), n);
    } else {
      FreeBytesLeaf(t, o, b, n);
    }
  }

  // ---------------------------------------------------------------------
  // Maximal coalescing

  lemma {:induction false} PutNormal(t: Tree, o: nat, b: nat, a: nat, k: nat, s: Tree)
    requires Shape(t, o) && HasNode(t, o, b, a, k) && Shape(s, k)
    requires Normal(t) && Normal(s) && !s.Free?
    ensures Normal(Put(t, o, b, a, k, s)) && !Put(t, o, b, a, k, s).Free?
    decreases t
  {
    if o == k {
    } else if a < b + Pow2(o - 1) {
      PutNormal(t.lo, o - 1, b, a, k, s);
    } else {
      PutNormal(t.hi, o - 1, b + Pow2(o - 1), a, k, s);
    }
  }

  lemma {:induction false} ReleaseNormal(t: Tree, o: nat, b: nat, a: nat, k: nat)
    requires Shape(t, o) && HasNode(t, o, b, a, k) && Normal(t)
    ensures Normal(Release(true, t, o, b, a, k))
    decreases t
  {
    if o == k {
    } else if a < b + Pow2(o - 1) {
      ReleaseNormal(t.lo, o - 1, b, a, k);
    } else {
      ReleaseNormal(t.hi, o - 1, b + Pow2(o - 1), a, k);
    }
  }

  /** In a merged arena a block and its buddy are never both on one free list. */
  lemma {:induction false} NoBuddyPair(t: Tree, o: nat, b: nat, a: nat, k: nat)
    requires Shape(t, o) && Normal(t) && Aligned(b, o) && k < o
    requires a in FreeList(t, o, b, k)
    ensures Aligned(a, k) && Buddy(a, k) !in FreeList(t, o, b, k)
  {
    ListedIsFree(t, o, b, k, a);
    NodeAligned(t, o, b, a, k);
    var p := ParentNode(t, o, b, a, k);
    NormalNode(t, o, b, p, k + 1);
    var x := Buddy(a, k);
    if x in FreeList(t, o, b, k) {
      ListedIsFree(t, o, b, k, x);
      SubNode(t, o, b, p, k + 1, x, k);
    }
  }

  lemma {:induction false} NormalNode(t: Tree, o: nat, b: nat, a: nat, k: nat)
    requires Shape(t, o) && HasNode(t, o, b, a, k) && Normal(t)
    ensures Normal(Node(t, o, b, a, k))
    decreases t
  {
    if o == k {
    } else if a < b + Pow2(o - 1) {
      NormalNode(t.lo, o - 1, b, a, k);
    } else {
      NormalNode(t.hi, o - 1, b + Pow2(o - 1), a, k);
    }
  }

  /** A node inside another node is found from either root. */
  lemma {:induction false} SubNode(t: Tree, o: nat, b: nat, p: nat, m: nat, a: nat, k: nat)
    requires Shape(t, o) && HasNode(t, o, b, p, m) && k <= m && p <= a < p + Pow2(m)
    ensures HasNode(t, o, b, a, k) <==> HasNode(Node(t, o, b, p, m), m, p, a, k)
    ensures HasNode(t, o, b, a, k) ==> Node(t, o, b, a, k) == Node(Node(t, o, b, p, m), m, p, a, k)
    decreases t
  {
    if o == m {
    } else {
      Decompose(t, o, b, p, m, 0);
      if p < b + Pow2(o - 1) {
        Decompose(t.lo, o - 1, b, p, m, 0);
        SubNode(t.lo, o - 1, b, p, m, a, k);
      } else {
        SubNode(t.hi, o - 1, b + Pow2(o - 1), p, m, a, k);
      }
    }
  }

  ghost predicate NoneLive(t: Tree) {
    match t
    case Free => true
    case Live(_) => false
    case Split(lo, hi) => NoneLive(lo) && NoneLive(hi)
  }

  /** A merged arena without live blocks is a single free block. */
  lemma {:induction false} EmptyIsWhole(t: Tree)
    requires Normal(t) && NoneLive(t)
    ensures t == Free
  {
    if t.Split? {
      EmptyIsWhole(t.lo);
      EmptyIsWhole(t.hi);
    }
  }

  lemma {:induction false} SomeLive(t: Tree, o: nat, b: nat) returns (a: nat, k: nat)
    requires Shape(t, o) && !NoneLive(t)
    ensures IsLive(t, o, b, a, k)
    decreases t
  {
    match t
    case Live(_) =>
      a, k := b, o;
    case Split(lo, hi) =>
      if !NoneLive(lo) {
        a, k := SomeLive(lo, o - 1, b);
        Decompose(lo, o - 1, b, a, k, 0);
      } else {
        a, k := SomeLive(hi, o - 1, b + Pow2(o - 1));
        Decompose(hi, o - 1, b + Pow2(o - 1), a, k, 0);
      }
  }

  // ---------------------------------------------------------------------
  // Allocation fails only when it must

  /** Every byte of the aligned range of 2^k bytes at a is free. */
  ghost predicate RangeFree(t: Tree, o: nat, b: nat, a: nat, k: nat)
    requires Shape(t, o)
  {
    b <= a && a + Pow2(k) <= b + Pow2(o) &&
    forall y: nat, j: nat :: IsLive(t, o, b, y, j) ==> y + Pow2(j) <= a || a + Pow2(k) <= y
  }

  lemma RangeFreeHalf(t: Tree, o: nat, b: nat, a: nat, k: nat)
    requires Shape(t, o) && t.Split? && RangeFree(t, o, b, a, k)
    ensures a + Pow2(k) <= b + Pow2(o - 1) ==> RangeFree(t.lo, o - 1, b, a, k)
    ensures b + Pow2(o - 1) <= a ==> RangeFree(t.hi, o - 1, b + Pow2(o - 1), a, k)
  {
    var n, mid := o - 1, b + Pow2(o - 1);
    forall y: nat, j: nat | IsLive(t.lo, n, b, y, j)
      ensures y + Pow2(j) <= a || a + Pow2(k) <= y
    {
      Decompose(t.lo, n, b, y, j, 0);
      assert IsLive(t, o, b, y, j);
    }
    forall y: nat, j: nat | IsLive(t.hi, n, mid, y, j)
      ensures y + Pow2(j) <= a || a + Pow2(k) <= y
    {
      Decompose(t.hi, n, mid, y, j, 0);
      assert IsLive(t, o, b, y, j);
    }
  }

  lemma WholeRangeFree(t: Tree, o: nat, b: nat)
    requires Shape(t, o) && Normal(t) && RangeFree(t, o, b, b, o)
    ensures t.Free?
  {
    if !NoneLive(t) {
      var y, j := SomeLive(t, o, b);
      Decompose(t, o, b, y, j, 0);
    } else {
      EmptyIsWhole(t);
    }
  }

  /** In a merged arena a free aligned range lies inside one free block. */
  lemma {:induction false} RangeInBlock(t: Tree, o: nat, b: nat, a: nat, k: nat) returns (p: nat, m: nat)
    requires Shape(t, o) && Normal(t) && Aligned(b, o) && Aligned(a, k) && k <= o
    requires RangeFree(t, o, b, a, k)
    ensures m >= k && HasNode(t, o, b, p, m) && Node(t, o, b, p, m).Free?
    ensures p <= a && a + Pow2(k) <= p + Pow2(m)
    decreases t
  {
    if t.Free? {
      p, m := b, o;
    } else {
      if k == o {
        WholeRangeFree(t, o, b);
        assert false;
      }
      if t.Live? {
        assert IsLive(t, o, b, b, o);
        assert false;
      }
      var h := Pow2(o - 1);
      AlignedHalves(b, o);
      AlignedApart(b + h, a, k, o - 1);
      RangeFreeHalf(t, o, b, a, k);
      if a < b + h {
        p, m := RangeInBlock(t.lo, o - 1, b, a, k);
        Decompose(t.lo, o - 1, b, p, m, 0);
      } else {
        p, m := RangeInBlock(t.hi, o - 1, b + h, a, k);
        Decompose(t.hi, o - 1, b + h, p, m, 0);
      }
    }
  }

  /** An aligned range does not straddle a boundary that is aligned to a larger power. */
  lemma AlignedApart(c: nat, a: nat, k: nat, o: nat)
    requires Aligned(c, o) && Aligned(a, k) && k <= o
    ensures a < c ==> a + Pow2(k) <= c
  {
    AlignedDown(c, o, k);
    var d, x, y := Pow2(k), a / Pow2(k), c / Pow2(k);
    assert a == d * x && c == d * y;
    if a < c {
      if x >= y {
        MulLe(y, x, d);
      } else {
        MulLe(x + 1, y, d);
      }
    }
  }

  lemma {:induction false} AlignedDown(c: nat, o: nat, k: nat)
    requires Aligned(c, o) && k <= o
    ensures Aligned(c, k)
    decreases o
  {
    if k < o {
      AlignedHalves(c, o);
      AlignedDown(c, o - 1, k);
    }
  }

  /** Splitting and coalescing never hide a usable range. */
  lemma {:induction false} FailsOnlyWhenFull(t: Tree, top: nat, ord: nat)
    requires Shape(t, top) && Normal(t)
    ensures AllocAddress(t, top, ord).None? <==>
            !exists a: nat :: Aligned(a, ord) && RangeFree(t, top, 0, a, ord)
  {
    AlignedZero(top);
    if exists a: nat :: Aligned(a, ord) && RangeFree(t, top, 0, a, ord) {
      var a: nat :| Aligned(a, ord) && RangeFree(t, top, 0, a, ord);
      if ord > top {
        Pow2Strict(top, ord);
        assert false;
      }
      var p, m := RangeInBlock(t, top, 0, a, ord);
      Decompose(t, top, 0, p, m, m);
      assert FreeList(Node(t, top, 0, p, m), m, p, m)[0] == p;
      assert FreeList(t, top, 0, m) != [];
    }
    if AllocAddress(t, top, ord).Some? {
      var c := FirstFit(t, top, ord);
      var a := FreeList(t, top, 0, c)[0];
      ListedIsFree(t, top, 0, c, a);
      NodeAligned(t, top, 0, a, c);
      AlignedDown(a, c, ord);
      Pow2Monotone(ord, c);
      Decompose(t, top, 0, a, c, 0);
      forall y: nat, j: nat | IsLive(t, top, 0, y, j) ensures y + Pow2(j) <= a || a + Pow2(ord) <= y {
        Apart(t, top, 0, a, c, y, j);
      }
      assert Aligned(a, ord) && RangeFree(t, top, 0, a, ord);
    }
  }

  lemma AlignedZero(k: nat)
    ensures Aligned(0, k)
  {
    DivExact(0, Pow2(k), 0);
  }

  /** Different blocks do not overlap. */
  lemma Apart(t: Tree, o: nat, b: nat, a: nat, k: nat, y: nat, j: nat)
    requires Shape(t, o) && (a != y || k != j)
    requires HasNode(t, o, b, a, k) && !Node(t, o, b, a, k).Split?
    requires HasNode(t, o, b, y, j) && !Node(t, o, b, y, j).Split?
    ensures y + Pow2(j) <= a || a + Pow2(k) <= y
  {
    if !(y + Pow2(j) <= a || a + Pow2(k) <= y) {
      NoOverlap(t, o, b, a, k, y, j, if a < y then y else a);
    }
  }

  // ---------------------------------------------------------------------
  // Allocation undone

  lemma {:induction false} ReleaseCarve(from: nat, to: nat, size: nat, a: nat)
    requires MIN_ORD <= to <= from
    ensures HasNode(Carve(from, to, size), from, a, a, to)
    ensures Release(true, Carve(from, to, size), from, a, a, to) == Free
    decreases from
  {
    if from > to {
      ReleaseCarve(from - 1, to, size, a);
    }
  }

  /** Releasing inside a replaced node that merges back to a free block restores the merged arena. */
  lemma {:induction false} ReleaseInside(t: Tree, o: nat, b: nat, a: nat, k: nat, s: Tree, j: nat)
    requires Shape(t, o) && Normal(t) && HasNode(t, o, b, a, k) && Node(t, o, b, a, k).Free?
    requires Shape(s, k) && HasNode(s, k, a, a, j) && Release(true, s, k, a, a, j) == Free
    ensures HasNode(Put(t, o, b, a, k, s), o, b, a, j)
    ensures Release(true, Put(t, o, b, a, k, s), o, b, a, j) == t
    decreases t
  {
    if o != k {
      Decompose(s, k, a, a, j, 0);
      if a < b + Pow2(o - 1) {
        ReleaseInside(t.lo, o - 1, b, a, k, s, j);
      } else {
        ReleaseInside(t.hi, o - 1, b + Pow2(o - 1), a, k, s, j);
      }
    }
  }

  /** Freeing what was just allocated restores every free list exactly. */
  lemma {:induction false} AllocThenFree(t: Tree, top: nat, ord: nat, size: nat)
    requires Shape(t, top) && Normal(t) && ord >= MIN_ORD
    requires AllocAddress(t, top, ord).Some?
    ensures var a := AllocAddress(t, top, ord).value;
            var t' := AllocTree(t, top, ord, size);
            HasNode(t', top, 0, a, ord) && Node(t', top, 0, a, ord) == Live(size) &&
            Release(true, t', top, 0, a, ord) == t
  {
    var c := FirstFit(t, top, ord);
    var a := FreeList(t, top, 0, c)[0];
    ListedIsFree(t, top, 0, c, a);
    ReleaseCarve(c, ord, size, a);
    ReleaseInside(t, top, 0, a, c, Carve(c, ord, size), ord);
    CarveLive(c, ord, size, a, a, ord);
    var t' := AllocTree(t, top, ord, size);
    Pow2Monotone(ord, c);
    SubNode(t', top, 0, a, c, a, ord);
  }
}
