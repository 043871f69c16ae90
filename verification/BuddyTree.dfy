// The buddy arena as a binary tree.
//
// The allocator keeps, for each order k, an address-sorted list of free blocks
// of 2^k bytes.  The tree is the reference picture those lists have to agree
// with: a node of order k is either one free block, one live block, or split
// into two nodes of order k-1.  Tiling, alignment and address order are then
// properties of the shape of the tree, and the allocator's lists are its
// in-order traversals.

module Powers {
  import opened Basics

  function Pow2(n: nat): (r: nat)
    ensures r > 0
  {
    if n == 0 then 1 else 2 * Pow2(n - 1)
  }

  lemma {:induction false} Pow2Monotone(m: nat, n: nat)
    requires m <= n
    ensures Pow2(m) <= Pow2(n)
    decreases n
  {
    if m < n {
      Pow2Monotone(m, n - 1);
    }
  }

  lemma {:induction false} Pow2Strict(m: nat, n: nat)
    requires m < n
    ensures 2 * Pow2(m) <= Pow2(n)
  {
    Pow2Monotone(m + 1, n);
  }

  ghost predicate Aligned(a: nat, k: nat) {
    a % Pow2(k) == 0
  }

  lemma AlignedHalves(a: nat, k: nat)
    requires k > 0 && Aligned(a, k)
    ensures Aligned(a, k - 1) && Aligned(a + Pow2(k - 1), k - 1)
    ensures (a / Pow2(k - 1)) % 2 == 0
    ensures ((a + Pow2(k - 1)) / Pow2(k - 1)) % 2 == 1
  {
    var h := Pow2(k - 1);
    var q := a / Pow2(k);
    assert a == h * (2 * q);
    DivExact(a, h, 2 * q);
    assert a + h == h * (2 * q + 1);
    DivExact(a + h, h, 2 * q + 1);
  }

  lemma DivExact(a: nat, d: nat, q: nat)
    requires d > 0 && a == d * q
    ensures a % d == 0 && a / d == q
  {
    DivMod(a, d);
    OneQuotient(d, q, 0, a / d, a % d);
  }

  lemma Scale(d: nat, x: nat)
    requires x > 0
    ensures d * x >= d
  {
  }

  /** Bitwise exclusive or, bit by bit. */
  function Xor(a: nat, b: nat): nat
    decreases a + b
  {
    if a == 0 && b == 0 then 0
    else 2 * Xor(a / 2, b / 2) + (a + b) % 2
  }

  lemma {:induction false} XorZero(a: nat)
    ensures Xor(a, 0) == a
  {
    if a > 0 {
      XorZero(a / 2);
    }
  }

  lemma HalveAligned(a: nat, k: nat)
    requires k > 0 && Aligned(a, k)
    ensures a == 2 * (a / 2) && Aligned(a / 2, k - 1) && (a / 2) / Pow2(k - 1) == a / Pow2(k)
  {
    var q, h := a / Pow2(k), Pow2(k - 1);
    assert a == 2 * (h * q);
    DivExact(h * q, h, q);
  }

  lemma XorHalves(a: nat, b: nat)
    ensures Xor(2 * a, 2 * b) == 2 * Xor(a, b)
  {
    assert (2 * a + 2 * b) % 2 == 0;
  }

  /** Flipping bit k of a number that is a multiple of 2^k steps to the other half of its pair. */
  lemma {:induction false} XorIsBuddy(a: nat, k: nat)
    requires Aligned(a, k)
    ensures Xor(a, Pow2(k)) == Buddy(a, k)
    decreases k
  {
    if k == 0 {
      XorZero(a / 2);
      assert Xor(a, 1) == 2 * Xor(a / 2, 0) + (a + 1) % 2;
    } else {
      HalveAligned(a, k);
      XorIsBuddy(a / 2, k - 1);
      XorHalves(a / 2, Pow2(k - 1));
      BuddyHalves(a, a / 2, k);
    }
  }

  lemma BuddyHalves(a: nat, h: nat, k: nat)
    requires k > 0 && a == 2 * h && Aligned(a, k) && Aligned(h, k - 1) && h / Pow2(k - 1) == a / Pow2(k)
    ensures Buddy(a, k) == 2 * Buddy(h, k - 1)
  {
  }

  /** The other half of the pair that the block of order k at address a belongs to. */
  function Buddy(a: nat, k: nat): (r: nat)
    requires Aligned(a, k)
  {
    if (a / Pow2(k)) % 2 == 0 then a + Pow2(k)
    else OddIsLarge(a, k); a - Pow2(k)
  }

  lemma OddIsLarge(a: nat, k: nat)
    requires Aligned(a, k) && (a / Pow2(k)) % 2 == 1
    ensures a >= Pow2(k)
  {
  }

}

module BuddyTree {
  import opened Options
  import opened Powers

  const MIN_ORD: nat := 5
  const MAX_ORD: nat := 20

  /** Bytes of the packed header: a 4-byte size, a 4-byte magic, the order and one pad byte. */
  const HEADER: nat := 10

  datatype Tree =
    | Free
    | Live(size: nat)
    | Split(lo: Tree, hi: Tree)

  ghost predicate Shape(t: Tree, o: nat) {
    t.Split? ==> o > MIN_ORD && Shape(t.lo, o - 1) && Shape(t.hi, o - 1)
  }

  /** No two buddies are both free: everything that can be merged has been merged. */
  ghost predicate Normal(t: Tree) {
    t.Split? ==> Normal(t.lo) && Normal(t.hi) && !(t.lo.Free? && t.hi.Free?)
  }

  /** Every live block has room for its header and its payload. */
  ghost predicate Roomy(t: Tree, o: nat)
    requires Shape(t, o)
  {
    match t
    case Free => true
    case Live(size) => HEADER + size <= Pow2(o)
    case Split(lo, hi) => Roomy(lo, o - 1) && Roomy(hi, o - 1)
  }

  /** Addresses of the free blocks of order k, in address order. */
  ghost function FreeList(t: Tree, o: nat, b: nat, k: nat): seq<nat>
    requires Shape(t, o)
  {
    match t
    case Free => if o == k then [b] else []
    case Live(_) => []
    case Split(lo, hi) => FreeList(lo, o - 1, b, k) + FreeList(hi, o - 1, b + Pow2(o - 1), k)
  }

  /** A block: its address and its order. */
  datatype Block = Block(at: nat, ord: nat)

  ghost function LiveBlocks(t: Tree, o: nat, b: nat): set<Block>
    requires Shape(t, o)
  {
    match t
    case Free => {}
    case Live(_) => {Block(b, o)}
    case Split(lo, hi) => LiveBlocks(lo, o - 1, b) + LiveBlocks(hi, o - 1, b + Pow2(o - 1))
  }

  ghost function LiveBytes(t: Tree, o: nat): nat
    requires Shape(t, o)
  {
    match t
    case Free => 0
    case Live(_) => Pow2(o)
    case Split(lo, hi) => LiveBytes(lo, o - 1) + LiveBytes(hi, o - 1)
  }

  ghost function LivePayload(t: Tree, o: nat): nat
    requires Shape(t, o)
  {
    match t
    case Free => 0
    case Live(size) => size
    case Split(lo, hi) => LivePayload(lo, o - 1) + LivePayload(hi, o - 1)
  }

  // ---------------------------------------------------------------------
  // Positions.  A node is named by its address and its order.

  ghost predicate HasNode(t: Tree, o: nat, b: nat, a: nat, k: nat)
    requires Shape(t, o)
  {
    if o == k then a == b
    else t.Split? && k < o &&
         if a < b + Pow2(o - 1) then HasNode(t.lo, o - 1, b, a, k)
         else HasNode(t.hi, o - 1, b + Pow2(o - 1), a, k)
  }

  ghost function Node(t: Tree, o: nat, b: nat, a: nat, k: nat): (s: Tree)
    requires Shape(t, o) && HasNode(t, o, b, a, k)
    ensures Shape(s, k)
  {
    if o == k then t
    else if a < b + Pow2(o - 1) then Node(t.lo, o - 1, b, a, k)
    else Node(t.hi, o - 1, b + Pow2(o - 1), a, k)
  }

  /** The tree with the node of order k at address a replaced by s. */
  ghost function Put(t: Tree, o: nat, b: nat, a: nat, k: nat, s: Tree): (t': Tree)
    requires Shape(t, o) && HasNode(t, o, b, a, k) && Shape(s, k)
    ensures Shape(t', o) && HasNode(t', o, b, a, k) && Node(t', o, b, a, k) == s
  {
    if o == k then s
    else if a < b + Pow2(o - 1) then Split(Put(t.lo, o - 1, b, a, k, s), t.hi)
    else Split(t.lo, Put(t.hi, o - 1, b + Pow2(o - 1), a, k, s))
  }

  /** Free blocks of order j that lie below the node at (a, k), in address order. */
  ghost function Before(t: Tree, o: nat, b: nat, a: nat, k: nat, j: nat): seq<nat>
    requires Shape(t, o) && HasNode(t, o, b, a, k)
  {
    if o == k then []
    else if a < b + Pow2(o - 1) then Before(t.lo, o - 1, b, a, k, j)
    else FreeList(t.lo, o - 1, b, j) + Before(t.hi, o - 1, b + Pow2(o - 1), a, k, j)
  }

  ghost function After(t: Tree, o: nat, b: nat, a: nat, k: nat, j: nat): seq<nat>
    requires Shape(t, o) && HasNode(t, o, b, a, k)
  {
    if o == k then []
    else if a < b + Pow2(o - 1) then After(t.lo, o - 1, b, a, k, j) + FreeList(t.hi, o - 1, b + Pow2(o - 1), j)
    else After(t.hi, o - 1, b + Pow2(o - 1), a, k, j)
  }

  ghost predicate Below(s: seq<nat>, x: nat) {
    forall i :: 0 <= i < |s| ==> s[i] < x
  }

  ghost predicate AtLeast(s: seq<nat>, x: nat) {
    forall i :: 0 <= i < |s| ==> x <= s[i]
  }

  ghost predicate Increasing(s: seq<nat>) {
    forall i, j :: 0 <= i < j < |s| ==> s[i] < s[j]
  }

  /** No node lists blocks larger than itself, nor of its own size unless it is one. */
  lemma {:induction false} FreeListTall(t: Tree, o: nat, b: nat, k: nat)
    requires Shape(t, o) && o <= k
    ensures FreeList(t, o, b, k) == if t.Free? && o == k then [b] else []
    decreases t
  {
    if t.Split? {
      FreeListTall(t.lo, o - 1, b, k);
      FreeListTall(t.hi, o - 1, b + Pow2(o - 1), k);
    }
  }

  lemma {:induction false} FreeListRange(t: Tree, o: nat, b: nat, k: nat)
    requires Shape(t, o)
    ensures AtLeast(FreeList(t, o, b, k), b) && Below(FreeList(t, o, b, k), b + Pow2(o))
    ensures Increasing(FreeList(t, o, b, k))
    decreases t
  {
    if t.Split? {
      var h := Pow2(o - 1);
      FreeListRange(t.lo, o - 1, b, k);
      FreeListRange(t.hi, o - 1, b + h, k);
    }
  }

  /** A node splits every free list into what lies below it, what it holds, and what lies above it. */
  lemma {:induction false} Decompose(t: Tree, o: nat, b: nat, a: nat, k: nat, j: nat)
    requires Shape(t, o) && HasNode(t, o, b, a, k)
    ensures b <= a && a + Pow2(k) <= b + Pow2(o) && k <= o
    ensures FreeList(t, o, b, j) ==
            Before(t, o, b, a, k, j) + FreeList(Node(t, o, b, a, k), k, a, j) + After(t, o, b, a, k, j)
    ensures Below(Before(t, o, b, a, k, j), a) && AtLeast(After(t, o, b, a, k, j), a + Pow2(k))
    decreases t
  {
    if o == k {
    } else if a < b + Pow2(o - 1) {
      Decompose(t.lo, o - 1, b, a, k, j);
      FreeListRange(t.hi, o - 1, b + Pow2(o - 1), j);
      Regroup(FreeList(t.hi, o - 1, b + Pow2(o - 1), j), Before(t.lo, o - 1, b, a, k, j),
              FreeList(Node(t, o, b, a, k), k, a, j), After(t.lo, o - 1, b, a, k, j));
    } else {
      Decompose(t.hi, o - 1, b + Pow2(o - 1), a, k, j);
      FreeListRange(t.lo, o - 1, b, j);
      var f := FreeList(t.lo, o - 1, b, j);
      var n := FreeList(Node(t, o, b, a, k), k, a, j);
      var p, q := Before(t.hi, o - 1, b + Pow2(o - 1), a, k, j), After(t.hi, o - 1, b + Pow2(o - 1), a, k, j);
      Regroup(f, p, n, q);
    }
  }

  lemma Regroup(f: seq<nat>, p: seq<nat>, n: seq<nat>, q: seq<nat>)
    ensures f + (p + n + q) == (f + p) + n + q
    ensures (p + n + q) + f == p + n + (q + f)
  {
  }

  /** Replacing a node leaves what lies below and above it alone. */
  lemma {:induction false} PutKeepsContext(t: Tree, o: nat, b: nat, a: nat, k: nat, s: Tree, j: nat)
    requires Shape(t, o) && HasNode(t, o, b, a, k) && Shape(s, k)
    ensures Before(Put(t, o, b, a, k, s), o, b, a, k, j) == Before(t, o, b, a, k, j)
    ensures After(Put(t, o, b, a, k, s), o, b, a, k, j) == After(t, o, b, a, k, j)
    decreases t
  {
    if o == k {
    } else if a < b + Pow2(o - 1) {
      PutKeepsContext(t.lo, o - 1, b, a, k, s, j);
    } else {
      PutKeepsContext(t.hi, o - 1, b + Pow2(o - 1), a, k, s, j);
    }
  }

  lemma PutFreeList(t: Tree, o: nat, b: nat, a: nat, k: nat, s: Tree, j: nat)
    requires Shape(t, o) && HasNode(t, o, b, a, k) && Shape(s, k)
    ensures FreeList(Put(t, o, b, a, k, s), o, b, j) ==
            Before(t, o, b, a, k, j) + FreeList(s, k, a, j) + After(t, o, b, a, k, j)
    ensures Below(Before(t, o, b, a, k, j), a) && AtLeast(After(t, o, b, a, k, j), a + Pow2(k))
  {
    PutKeepsContext(t, o, b, a, k, s, j);
    Decompose(Put(t, o, b, a, k, s), o, b, a, k, j);
  }

  /** What a free list names really is a free node. */
  lemma {:induction false} ListedIsFree(t: Tree, o: nat, b: nat, k: nat, a: nat)
    requires Shape(t, o) && a in FreeList(t, o, b, k)
    ensures HasNode(t, o, b, a, k) && Node(t, o, b, a, k).Free?
    decreases t
  {
    if t.Split? {
      if o <= k {
        FreeListTall(t, o, b, k);
      }
      var h := Pow2(o - 1);
      if a in FreeList(t.lo, o - 1, b, k) {
        FreeListRange(t.lo, o - 1, b, k);
        ListedIsFree(t.lo, o - 1, b, k, a);
      } else {
        FreeListRange(t.hi, o - 1, b + h, k);
        ListedIsFree(t.hi, o - 1, b + h, k, a);
      }
    }
  }

  /** A node's address is a multiple of its size. */
  lemma {:induction false} NodeAligned(t: Tree, o: nat, b: nat, a: nat, k: nat)
    requires Shape(t, o) && HasNode(t, o, b, a, k) && Aligned(b, o)
    ensures Aligned(a, k)
    decreases t
  {
    if o == k {
    } else {
      AlignedHalves(b, o);
      if a < b + Pow2(o - 1) {
        NodeAligned(t.lo, o - 1, b, a, k);
      } else {
        NodeAligned(t.hi, o - 1, b + Pow2(o - 1), a, k);
      }
    }
  }

  /** A leaf is the only leaf with its address. */
  lemma {:induction false} LeafUnique(t: Tree, o: nat, b: nat, a: nat, k: nat, k': nat)
    requires Shape(t, o) && HasNode(t, o, b, a, k) && HasNode(t, o, b, a, k')
    requires !Node(t, o, b, a, k).Split? && !Node(t, o, b, a, k').Split?
    ensures k == k'
    decreases t
  {
    if o == k || o == k' {
    } else if a < b + Pow2(o - 1) {
      LeafUnique(t.lo, o - 1, b, a, k, k');
    } else {
      LeafUnique(t.hi, o - 1, b + Pow2(o - 1), a, k, k');
    }
  }

  ghost predicate IsLive(t: Tree, o: nat, b: nat, a: nat, k: nat)
    requires Shape(t, o)
  {
    HasNode(t, o, b, a, k) && Node(t, o, b, a, k).Live?
  }

  /** A live block is on no free list. */
  lemma LiveNotListed(t: Tree, o: nat, b: nat, a: nat, k: nat, j: nat)
    requires Shape(t, o) && IsLive(t, o, b, a, k)
    ensures a !in FreeList(t, o, b, j)
  {
    if a in FreeList(t, o, b, j) {
      ListedIsFree(t, o, b, j, a);
      LeafUnique(t, o, b, a, k, j);
    }
  }

  /** Free lists of different orders share no block. */
  lemma ListsDisjoint(t: Tree, o: nat, b: nat, i: nat, j: nat, a: nat)
    requires Shape(t, o) && i != j && a in FreeList(t, o, b, i)
    ensures a !in FreeList(t, o, b, j)
  {
    if a in FreeList(t, o, b, j) {
      ListedIsFree(t, o, b, i, a);
      ListedIsFree(t, o, b, j, a);
      LeafUnique(t, o, b, a, i, j);
    }
  }

  /** A replacement below one node does not disturb the leaves elsewhere. */
  lemma {:induction false} PutElsewhere(t: Tree, o: nat, b: nat, a: nat, k: nat, s: Tree, x: nat, j: nat)
    requires Shape(t, o) && HasNode(t, o, b, a, k) && Shape(s, k)
    requires x < a || a + Pow2(k) <= x
    ensures IsLive(Put(t, o, b, a, k, s), o, b, x, j) <==> IsLive(t, o, b, x, j)
    ensures IsLive(t, o, b, x, j) ==> Node(Put(t, o, b, a, k, s), o, b, x, j) == Node(t, o, b, x, j)
    decreases t
  {
    if o == k {
      assert x != b ==> o == j ==> !HasNode(t, o, b, x, j);
      Outside(t, o, b, x, j);
      Outside(s, o, b, x, j);
    } else if a < b + Pow2(o - 1) {
      PutElsewhere(t.lo, o - 1, b, a, k, s, x, j);
    } else {
      PutElsewhere(t.hi, o - 1, b + Pow2(o - 1), a, k, s, x, j);
    }
  }

  lemma Outside(t: Tree, o: nat, b: nat, x: nat, j: nat)
    requires Shape(t, o) && (x < b || b + Pow2(o) <= x)
    ensures !HasNode(t, o, b, x, j)
  {
    if HasNode(t, o, b, x, j) {
      Decompose(t, o, b, x, j, j);
    }
  }

  // ---------------------------------------------------------------------
  // Allocation: the first free block of the smallest sufficient order is
  // carved down to the requested order, keeping the low half each time.

  ghost function Carve(from: nat, to: nat, size: nat): (s: Tree)
    requires MIN_ORD <= to <= from
    ensures Shape(s, from) && !s.Free? && Normal(s)
  {
    if from == to then Live(size) else Split(Carve(from - 1, to, size), Free)
  }

  lemma {:induction false} CarveLists(from: nat, to: nat, size: nat, a: nat, j: nat)
    requires MIN_ORD <= to <= from
    ensures FreeList(Carve(from, to, size), from, a, j) == if to <= j < from then [a + Pow2(j)] else []
    decreases from
  {
    if from > to {
      CarveLists(from - 1, to, size, a, j);
    }
  }

  lemma {:induction false} CarveLive(from: nat, to: nat, size: nat, a: nat, x: nat, j: nat)
    requires MIN_ORD <= to <= from
    ensures IsLive(Carve(from, to, size), from, a, x, j) <==> x == a && j == to
    ensures HasNode(Carve(from, to, size), from, a, a, to)
    ensures Node(Carve(from, to, size), from, a, a, to) == Live(size)
    decreases from
  {
    if from > to {
      CarveLive(from - 1, to, size, a, x, j);
      if from != j && x >= a + Pow2(from - 1) {
        assert HasNode(Free, from - 1, a + Pow2(from - 1), x, j) ==>
            Node(Free, from - 1, a + Pow2(from - 1), x, j).Free?;
      }
    }
  }

  /** The smallest order from k up to top whose free list is not empty; top+1 when there is none. */
  ghost function FirstFit(t: Tree, top: nat, k: nat): (c: nat)
    requires Shape(t, top)
    ensures k <= top ==> k <= c <= top + 1
    ensures k > top ==> c == k
    ensures c <= top ==> FreeList(t, top, 0, c) != []
    ensures forall j :: k <= j < c && j <= top ==> FreeList(t, top, 0, j) == []
    decreases top + 1 - k
  {
    if k > top || FreeList(t, top, 0, k) != [] then k else FirstFit(t, top, k + 1)
  }

  ghost function AllocAddress(t: Tree, top: nat, ord: nat): Option<nat>
    requires Shape(t, top)
  {
    var c := FirstFit(t, top, ord);
    if c <= top then Some(FreeList(t, top, 0, c)[0]) else None
  }

  ghost function AllocTree(t: Tree, top: nat, ord: nat, size: nat): (t': Tree)
    requires Shape(t, top) && ord >= MIN_ORD
    ensures Shape(t', top)
  {
    var c := FirstFit(t, top, ord);
    if c <= top then
      var a := FreeList(t, top, 0, c)[0];
      ListedIsFree(t, top, 0, c, a);
      Put(t, top, 0, a, c, Carve(c, ord, size))
    else t
  }

  // ---------------------------------------------------------------------
  // Release: the block becomes free and pairs of free buddies merge on the
  // way up.  merge is false for an arena whose recorded size is zero, where
  // the coalescing loop gives up at once.

  ghost function Join(merge: bool, lo: Tree, hi: Tree): Tree {
    if merge && lo.Free? && hi.Free? then Free else Split(lo, hi)
  }

  ghost function Release(merge: bool, t: Tree, o: nat, b: nat, a: nat, k: nat): (t': Tree)
    requires Shape(t, o) && HasNode(t, o, b, a, k)
    ensures Shape(t', o)
  {
    if o == k then Free
    else if a < b + Pow2(o - 1) then Join(merge, Release(merge, t.lo, o - 1, b, a, k), t.hi)
    else Join(merge, t.lo, Release(merge, t.hi, o - 1, b + Pow2(o - 1), a, k))
  }

  /** The node that a node of order k < o is a half of. */
  lemma {:induction false} ParentNode(t: Tree, o: nat, b: nat, a: nat, k: nat) returns (p: nat)
    requires Shape(t, o) && HasNode(t, o, b, a, k) && k < o && Aligned(b, o)
    ensures Aligned(a, k)
    ensures HasNode(t, o, b, p, k + 1) && Node(t, o, b, p, k + 1).Split? && Aligned(p, k + 1)
    ensures a == p ==> Buddy(a, k) == p + Pow2(k) && Node(t, o, b, p, k + 1).lo == Node(t, o, b, a, k)
    ensures a != p ==> a == p + Pow2(k) && Buddy(a, k) == p && Node(t, o, b, p, k + 1).hi == Node(t, o, b, a, k)
    decreases t
  {
    AlignedHalves(b, o);
    if k == o - 1 {
      p := b;
    } else if a < b + Pow2(o - 1) {
      p := ParentNode(t.lo, o - 1, b, a, k);
      Decompose(t.lo, o - 1, b, p, k + 1, 0);
    } else {
      p := ParentNode(t.hi, o - 1, b + Pow2(o - 1), a, k);
      Decompose(t.hi, o - 1, b + Pow2(o - 1), p, k + 1, 0);
    }
  }

  /** The buddy of a live node is listed at its order exactly when it is a free node. */
  lemma BuddyListed(t: Tree, o: nat, b: nat, a: nat, k: nat, p: nat)
    requires Shape(t, o) && IsLive(t, o, b, a, k) && k < o
    requires HasNode(t, o, b, p, k + 1) && Node(t, o, b, p, k + 1).Split?
    requires Aligned(a, k)
    requires a == p ==> Buddy(a, k) == p + Pow2(k) && Node(t, o, b, p, k + 1).lo == Node(t, o, b, a, k)
    requires a != p ==> Buddy(a, k) == p && Node(t, o, b, p, k + 1).hi == Node(t, o, b, a, k)
    ensures Buddy(a, k) in FreeList(t, o, b, k) <==>
            (if a == p then Node(t, o, b, p, k + 1).hi.Free? else Node(t, o, b, p, k + 1).lo.Free?)
  {
    var s := Node(t, o, b, p, k + 1);
    Decompose(t, o, b, p, k + 1, k);
    FreeListTall(s.lo, k, p, k);
    FreeListTall(s.hi, k, p + Pow2(k), k);
    var x := Buddy(a, k);
    var B, M, A := Before(t, o, b, p, k + 1, k), FreeList(s, k + 1, p, k), After(t, o, b, p, k + 1, k);
    assert x !in B && x !in A;
    assert x in B + M + A <==> x in M;
  }

  /** One turn of the coalescing loop: a floating block and its free buddy become a floating block. */
  lemma {:induction false} MergeStep(t: Tree, o: nat, b: nat, a: nat, k: nat, p: nat)
    requires Shape(t, o) && k < o
    requires HasNode(t, o, b, p, k + 1) && Node(t, o, b, p, k + 1).Split?
    requires a == p || a == p + Pow2(k)
    requires if a == p then Node(t, o, b, p, k + 1).hi.Free? else Node(t, o, b, p, k + 1).lo.Free?
    ensures HasNode(t, o, b, a, k)
    ensures Release(true, Put(t, o, b, p, k + 1, Live(0)), o, b, p, k + 1) == Release(true, t, o, b, a, k)
    decreases t
  {
    if o == k + 1 {
    } else if p < b + Pow2(o - 1) {
      Decompose(t.lo, o - 1, b, p, k + 1, 0);
      MergeStep(t.lo, o - 1, b, a, k, p);
    } else {
      MergeStep(t.hi, o - 1, b + Pow2(o - 1), a, k, p);
    }
  }

  /** Where merging has to stop: the whole arena, or a pair (at p) whose other half is not free. */
  ghost predicate Stops(t: Tree, o: nat, b: nat, a: nat, k: nat, p: nat)
    requires Shape(t, o)
  {
    k == o ||
    (HasNode(t, o, b, p, k + 1) && Node(t, o, b, p, k + 1).Split? &&
     ((a == p && !Node(t, o, b, p, k + 1).hi.Free?) ||
      (a == p + Pow2(k) && !Node(t, o, b, p, k + 1).lo.Free?)))
  }

  /** When merging stops at once the release is a plain replacement. */
  lemma {:induction false} ReleaseStops(merge: bool, t: Tree, o: nat, b: nat, a: nat, k: nat, p: nat)
    requires Shape(t, o) && HasNode(t, o, b, a, k)
    requires merge ==> Stops(t, o, b, a, k, p)
    ensures Release(merge, t, o, b, a, k) == Put(t, o, b, a, k, Free)
    decreases t
  {
    if k < o - 1 {
      if merge && p < b + Pow2(o - 1) {
        Decompose(t.lo, o - 1, b, p, k + 1, 0);
      }
      if a < b + Pow2(o - 1) {
        ReleaseStops(merge, t.lo, o - 1, b, a, k, p);
      } else {
        ReleaseStops(merge, t.hi, o - 1, b + Pow2(o - 1), a, k, p);
      }
    }
  }
}
