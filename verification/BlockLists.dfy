// Chains of links: when words of memory hold given lists of blocks, and what
// linking, unlinking, carving and merging blocks does to those lists.

module BlockLists {
  import opened Powers
  import opened BuddyTree
  import opened BuddyLaws

  const NIL: int := -1

  /** What the i-th link of the list l holds; link 0 is the list head. */
  function Link(l: seq<nat>, i: nat): int {
    if i < |l| then l[i] else NIL
  }

  /** The links in w, starting at head, spell out the list l. */
  ghost predicate Chain(w: seq<int>, head: int, l: seq<nat>) {
    head == Link(l, 0) &&
    (forall i {:trigger l[i]} :: 0 <= i < |l| ==> l[i] < |w|) &&
    (forall i {:trigger w[l[i]]} :: 0 <= i < |l| ==> w[l[i]] == Link(l, i + 1))
  }

  /** Every list head leads to its list. */
  ghost predicate Chains(w: seq<int>, f: seq<int>, ls: seq<seq<nat>>) {
    |f| == |ls| && forall j :: 0 <= j < |ls| ==> Chain(w, f[j], ls[j])
  }

  ghost predicate Unlisted(ls: seq<seq<nat>>, x: nat) {
    forall j :: 0 <= j < |ls| ==> x !in ls[j]
  }

  /** Each list is sorted and no block is on two lists. */
  ghost predicate Separate(ls: seq<seq<nat>>) {
    (forall j :: 0 <= j < |ls| ==> Increasing(ls[j])) &&
    forall i, j :: 0 <= i < |ls| && 0 <= j < |ls| && i != j ==> NoneShared(ls[i], ls[j])
  }

  ghost predicate NoneShared(l: seq<nat>, l': seq<nat>) {
    forall x :: x in l ==> x !in l'
  }

  lemma ChainKept(w: seq<int>, w': seq<int>, head: int, l: seq<nat>)
    requires Chain(w, head, l) && |w'| == |w|
    requires forall x :: x in l && x < |w| ==> w'[x] == w[x]
    ensures Chain(w', head, l)
  {
    forall i | 0 <= i < |l|
      ensures l[i] < |w'| && w'[l[i]] == Link(l, i + 1)
    {
      assert l[i] in l;
    }
  }

  lemma ChainTail(w: seq<int>, head: int, l: seq<nat>)
    requires Chain(w, head, l) && l != []
    ensures head == l[0] && l[0] < |w| && Chain(w, w[l[0]], l[1..])
  {
    assert w[l[0]] == Link(l, 1);
    forall i | 0 <= i < |l[1..]|
      ensures l[1..][i] < |w| && w[l[1..][i]] == Link(l[1..], i + 1)
    {
      assert w[l[i + 1]] == Link(l, i + 2);
    }
  }

  /** Relinking one list, touching only its own blocks and b, leaves the others alone. */
  lemma Relisted(ls: seq<seq<nat>>, k: nat, l': seq<nat>, b: nat, w: seq<int>, w': seq<int>, f: seq<int>, f': seq<int>)
    requires Chains(w, f, ls) && Separate(ls) && k < |ls| && |w'| == |w|
    requires |f'| == |f| && f' == f[k := f'[k]] && Chain(w', f'[k], l')
    requires forall j :: 0 <= j < |ls| && j != k ==> b !in ls[j]
    requires forall y :: 0 <= y < |w| && y != b && y !in ls[k] ==> w'[y] == w[y]
    ensures Chains(w', f', ls[k := l'])
  {
    forall j | 0 <= j < |ls|
      ensures Chain(w', f'[j], ls[k := l'][j])
    {
      if j != k {
        assert Chain(w, f[j], ls[j]) && NoneShared(ls[j], ls[k]);
        ChainKept(w, w', f[j], ls[j]);
      }
    }
  }

  lemma ChainsStay(w: seq<int>, f: seq<int>, ls: seq<seq<nat>>, a: nat, v: int)
    requires Chains(w, f, ls) && a < |w| && Unlisted(ls, a)
    ensures Chains(w[a := v], f, ls)
  {
    forall j | 0 <= j < |ls|
      ensures Chain(w[a := v], f[j], ls[j])
    {
      assert Chain(w, f[j], ls[j]);
      ChainKept(w, w[a := v], f[j], ls[j]);
    }
  }

  /** Linking b between lower and upper. */
  lemma LinkedIn(w: seq<int>, w': seq<int>, head: int, head': int, lower: seq<nat>, b: nat, upper: seq<nat>)
    requires Chain(w, head, lower + upper) && Increasing(lower + upper) && |w'| == |w| && b < |w|
    requires Below(lower, b) && AtLeast(upper, b + 1)
    requires head' == if lower == [] then b else head
    requires w'[b] == Link(upper, 0)
    requires forall y :: 0 <= y < |w| && y != b ==>
               w'[y] == if lower != [] && y == lower[|lower| - 1] then b else w[y]
    ensures Chain(w', head', lower + [b] + upper)
  {
    var l, l' := lower + upper, lower + [b] + upper;
    var n := |lower|;
    forall i | 0 <= i < |l'|
      ensures l'[i] < |w'| && w'[l'[i]] == Link(l', i + 1)
    {
      if i < n {
        assert l'[i] == l[i] == lower[i];
        assert w[l[i]] == Link(l, i + 1);
        if i + 1 < n {
          assert l[i] < l[n - 1];
          assert l'[i + 1] == l[i + 1];
        }
      } else if i > n {
        assert l'[i] == l[i - 1] == upper[i - 1 - n];
        assert w[l[i - 1]] == Link(l, i);
        assert n > 0 ==> l[n - 1] < l[i - 1];
        assert i + 1 < |l'| ==> l'[i + 1] == l[i];
      }
    }
  }

  /** Unlinking the i-th block. */
  lemma LinkedOut(w: seq<int>, w': seq<int>, head: int, head': int, l: seq<nat>, i: nat)
    requires Chain(w, head, l) && Increasing(l) && |w'| == |w| && i < |l|
    requires head' == if i == 0 then w[l[0]] else head
    requires forall y :: 0 <= y < |w| ==> w'[y] == if i > 0 && y == l[i - 1] then w[l[i]] else w[y]
    ensures Chain(w', head', l[..i] + l[i + 1..])
  {
    var l' := l[..i] + l[i + 1..];
    assert w[l[i]] == Link(l, i + 1);
    forall j | 0 <= j < |l'|
      ensures l'[j] < |w'| && w'[l'[j]] == Link(l', j + 1)
    {
      if j < i {
        assert l'[j] == l[j];
        assert w[l[j]] == Link(l, j + 1);
        if j + 1 < i {
          assert l[j] < l[i - 1];
          assert l'[j + 1] == l[j + 1];
        } else {
          assert j + 1 < |l'| ==> l'[j + 1] == l[j + 2];
        }
      } else {
        assert l'[j] == l[j + 1];
        assert w[l[j + 1]] == Link(l, j + 2);
        assert i > 0 ==> l[i - 1] < l[j + 1];
        assert j + 1 < |l'| ==> l'[j + 1] == l[j + 2];
      }
    }
  }

  /** Walking up while links are below b stops exactly between lower and upper. */
  lemma InsertionPoint(lower: seq<nat>, upper: seq<nat>, b: nat, i: nat)
    requires Below(lower, b) && AtLeast(upper, b + 1) && i <= |lower|
    ensures Link(lower + upper, i) != NIL && Link(lower + upper, i) < b <==> i < |lower|
  {
    if i < |lower| {
      assert (lower + upper)[i] == lower[i];
    } else if i < |lower + upper| {
      assert (lower + upper)[i] == upper[0];
    }
  }

  // ---------------------------------------------------------------------
  // The lists of a tree

  ghost function ListsOf(t: Tree, top: nat): (ls: seq<seq<nat>>)
    requires Shape(t, top)
    ensures |ls| == MAX_ORD + 1
    ensures forall j {:trigger ls[j]} :: 0 <= j <= MAX_ORD ==> ls[j] == FreeList(t, top, 0, j)
  {
    seq(MAX_ORD + 1, j requires 0 <= j <= MAX_ORD => FreeList(t, top, 0, j))
  }

  lemma ListsSeparate(t: Tree, top: nat)
    requires Shape(t, top)
    ensures Separate(ListsOf(t, top))
  {
    var ls := ListsOf(t, top);
    forall j | 0 <= j < |ls|
      ensures Increasing(ls[j])
    {
      FreeListRange(t, top, 0, j);
    }
    forall i, j | 0 <= i < |ls| && 0 <= j < |ls| && i != j
      ensures NoneShared(ls[i], ls[j])
    {
      forall x | x in ls[i]
        ensures x !in ls[j]
      {
        ListsDisjoint(t, top, 0, i, j, x);
      }
    }
  }

  lemma LiveUnlisted(t: Tree, top: nat, a: nat, k: nat)
    requires Shape(t, top) && IsLive(t, top, 0, a, k)
    ensures Unlisted(ListsOf(t, top), a) && a + Pow2(k) <= Pow2(top)
  {
    Decompose(t, top, 0, a, k, 0);
    forall j | 0 <= j <= MAX_ORD
      ensures a !in ListsOf(t, top)[j]
    {
      LiveNotListed(t, top, 0, a, k, j);
    }
  }

  // ---------------------------------------------------------------------
  // Lists while a block is being carved

  /** What lies below and above the block at a on every list. */
  datatype Sides = Sides(lower: seq<seq<nat>>, upper: seq<seq<nat>>)

  /** The upper half of order j fits on list j between the two sides. */
  ghost predicate SidesFit(ls: seq<seq<nat>>, s: Sides, a: nat, c: nat) {
    |ls| == |s.lower| == |s.upper| == MAX_ORD + 1 && c <= MAX_ORD &&
    forall j {:trigger HalfFits(ls, s, a, j)} :: 0 <= j < c ==> HalfFits(ls, s, a, j)
  }

  ghost predicate HalfFits(ls: seq<seq<nat>>, s: Sides, a: nat, j: nat)
    requires j < |ls| && j < |s.lower| && j < |s.upper|
  {
    ls[j] == s.lower[j] + s.upper[j] && Below(s.lower[j], a) && AtLeast(s.upper[j], a + Pow2(j) + 1) &&
    Unlisted(ls, a + Pow2(j))
  }

  ghost function CarvedAt(ls: seq<seq<nat>>, s: Sides, a: nat, c: nat, cur: nat, j: nat): seq<nat>
    requires j < |ls| == |s.lower| == |s.upper|
  {
    if cur <= j < c then s.lower[j] + [a + Pow2(j)] + s.upper[j] else ls[j]
  }

  /** The lists once the block of order c at a has been carved down to order cur. */
  ghost function Carved(ls: seq<seq<nat>>, s: Sides, a: nat, c: nat, cur: nat): (r: seq<seq<nat>>)
    requires |ls| == |s.lower| == |s.upper|
    ensures |r| == |ls|
    ensures forall j {:trigger r[j]} :: 0 <= j < |ls| ==> r[j] == CarvedAt(ls, s, a, c, cur, j)
  {
    seq(|ls|, j requires 0 <= j < |ls| => CarvedAt(ls, s, a, c, cur, j))
  }

  lemma CarvedIs(r: seq<seq<nat>>, ls: seq<seq<nat>>, s: Sides, a: nat, c: nat, cur: nat)
    requires |r| == |ls| == |s.lower| == |s.upper|
    requires forall j :: 0 <= j < |r| ==> r[j] == CarvedAt(ls, s, a, c, cur, j)
    ensures r == Carved(ls, s, a, c, cur)
  {
  }

  /** One step of carving changes one list. */
  lemma CarvedStep(ls: seq<seq<nat>>, s: Sides, a: nat, c: nat, cur: nat)
    requires cur < c && cur < |ls| == |s.lower| == |s.upper|
    ensures Carved(ls, s, a, c, cur + 1)[cur] == ls[cur]
    ensures Carved(ls, s, a, c, cur) ==
            Carved(ls, s, a, c, cur + 1)[cur := s.lower[cur] + [a + Pow2(cur)] + s.upper[cur]]
  {
    var r := Carved(ls, s, a, c, cur + 1)[cur := s.lower[cur] + [a + Pow2(cur)] + s.upper[cur]];
    forall j | 0 <= j < |r|
      ensures r[j] == CarvedAt(ls, s, a, c, cur, j)
    {
      assert j != cur ==> r[j] == CarvedAt(ls, s, a, c, cur + 1, j);
    }
    CarvedIs(r, ls, s, a, c, cur);
  }

  lemma CarvedSeparate(ls: seq<seq<nat>>, s: Sides, a: nat, c: nat, cur: nat)
    requires SidesFit(ls, s, a, c) && Separate(ls) && cur <= c
    ensures Separate(Carved(ls, s, a, c, cur))
  {
    var r := Carved(ls, s, a, c, cur);
    forall j | 0 <= j < |r|
      ensures Increasing(r[j])
    {
      if cur <= j < c {
        assert HalfFits(ls, s, a, j);
        InsertIncreasing(s.lower[j], a + Pow2(j), s.upper[j]);
      }
    }
    forall i, j | 0 <= i < |r| && 0 <= j < |r| && i != j
      ensures NoneShared(r[i], r[j])
    {
      CarvedApart(ls, s, a, c, cur, i, j);
    }
  }

  lemma CarvedApart(ls: seq<seq<nat>>, s: Sides, a: nat, c: nat, cur: nat, i: nat, j: nat)
    requires SidesFit(ls, s, a, c) && Separate(ls) && cur <= c && i < |ls| && j < |ls| && i != j
    ensures NoneShared(Carved(ls, s, a, c, cur)[i], Carved(ls, s, a, c, cur)[j])
  {
    var r := Carved(ls, s, a, c, cur);
    assert NoneShared(ls[i], ls[j]);
    if i < j {
      Pow2Strict(i, j);
    } else {
      Pow2Strict(j, i);
    }
    forall x | x in r[i]
      ensures x !in r[j]
    {
      CarvedMember(ls, s, a, c, cur, i, x);
      if x in r[j] {
        CarvedMember(ls, s, a, c, cur, j, x);
      }
    }
  }

  lemma CarvedMember(ls: seq<seq<nat>>, s: Sides, a: nat, c: nat, cur: nat, i: nat, x: nat)
    requires SidesFit(ls, s, a, c) && cur <= c && i < |ls| && x in Carved(ls, s, a, c, cur)[i]
    ensures x in ls[i] || (cur <= i < c && x == a + Pow2(i))
    ensures x in ls[i] ==> forall j :: 0 <= j < c ==> x != a + Pow2(j)
  {
    if cur <= i < c {
      assert HalfFits(ls, s, a, i);
    }
    forall j | 0 <= j < c && x in ls[i]
      ensures x != a + Pow2(j)
    {
      assert HalfFits(ls, s, a, j);
    }
  }

  lemma InsertIncreasing(lower: seq<nat>, b: nat, upper: seq<nat>)
    requires Increasing(lower + upper) && Below(lower, b) && AtLeast(upper, b + 1)
    ensures Increasing(lower + [b] + upper)
  {
    var l, l' := lower + upper, lower + [b] + upper;
    forall i, j | 0 <= i < j < |l'|
      ensures l'[i] < l'[j]
    {
      var n := |lower|;
      assert i < n ==> l'[i] == l[i] == lower[i];
      assert i > n ==> l'[i] == l[i - 1] == upper[i - 1 - n];
      assert j < n ==> l'[j] == l[j] == lower[j];
      assert j > n ==> l'[j] == l[j - 1] == upper[j - 1 - n];
    }
  }

  ghost function SidesOf(t: Tree, top: nat, a: nat, c: nat): (s: Sides)
    requires Shape(t, top) && HasNode(t, top, 0, a, c)
    ensures |s.lower| == |s.upper| == MAX_ORD + 1
    ensures forall j {:trigger s.lower[j]} {:trigger s.upper[j]} :: 0 <= j <= MAX_ORD ==>
            s.lower[j] == Before(t, top, 0, a, c, j) && s.upper[j] == After(t, top, 0, a, c, j)
  {
    Sides(seq(MAX_ORD + 1, j requires 0 <= j <= MAX_ORD => Before(t, top, 0, a, c, j)),
          seq(MAX_ORD + 1, j requires 0 <= j <= MAX_ORD => After(t, top, 0, a, c, j)))
  }

  /** The lists after the first block of order c has been popped. */
  ghost function PoppedLists(t: Tree, top: nat, c: nat): (ls: seq<seq<nat>>)
    requires Shape(t, top) && c <= MAX_ORD && FreeList(t, top, 0, c) != []
    ensures |ls| == MAX_ORD + 1
    ensures forall j {:trigger ls[j]} :: 0 <= j <= MAX_ORD && j != c ==> ls[j] == FreeList(t, top, 0, j)
  {
    ListsOf(t, top)[c := FreeList(t, top, 0, c)[1..]]
  }

  lemma {:induction false} PoppedSides(t: Tree, top: nat, a: nat, c: nat, j: nat)
    requires Shape(t, top) && c <= MAX_ORD && j <= MAX_ORD
    requires FreeList(t, top, 0, c) != [] && FreeList(t, top, 0, c)[0] == a
    ensures HasNode(t, top, 0, a, c) && Node(t, top, 0, a, c).Free? && a + Pow2(c) <= Pow2(top)
    ensures PoppedLists(t, top, c)[j] == Before(t, top, 0, a, c, j) + After(t, top, 0, a, c, j) || j < c
    ensures j < c ==> FreeList(t, top, 0, j) == Before(t, top, 0, a, c, j) + After(t, top, 0, a, c, j)
    ensures Below(Before(t, top, 0, a, c, j), a) && AtLeast(After(t, top, 0, a, c, j), a + Pow2(c))
  {
    ListedIsFree(t, top, 0, c, a);
    Decompose(t, top, 0, a, c, j);
    var lower, upper := Before(t, top, 0, a, c, j), After(t, top, 0, a, c, j);
    if j == c {
      FirstIsLeast(lower, a, upper);
      assert FreeList(t, top, 0, c)[1..] == upper;
    } else {
      assert lower + [] + upper == lower + upper;
    }
  }

  lemma PoppedFits(t: Tree, top: nat, a: nat, c: nat)
    requires Shape(t, top) && c <= MAX_ORD
    requires FreeList(t, top, 0, c) != [] && FreeList(t, top, 0, c)[0] == a
    ensures HasNode(t, top, 0, a, c) && Node(t, top, 0, a, c).Free? && a + Pow2(c) <= Pow2(top)
    ensures SidesFit(PoppedLists(t, top, c), SidesOf(t, top, a, c), a, c)
    ensures Separate(PoppedLists(t, top, c)) && Unlisted(PoppedLists(t, top, c), a)
  {
    PoppedSides(t, top, a, c, c);
    ListsSeparate(t, top);
    TailSeparate(ListsOf(t, top), c);
    var ls, s := PoppedLists(t, top, c), SidesOf(t, top, a, c);
    forall i, j | 0 <= i <= MAX_ORD && 0 <= j < c
      ensures a + Pow2(j) !in ls[i]
    {
      PoppedSides(t, top, a, c, i);
      Pow2Strict(j, c);
    }
    forall j | 0 <= j < c
      ensures HalfFits(ls, s, a, j)
    {
      PoppedSides(t, top, a, c, j);
      Pow2Strict(j, c);
    }
  }

  lemma CarvedListAt(t: Tree, top: nat, a: nat, c: nat, ord: nat, size: nat, j: nat)
    requires Shape(t, top) && MIN_ORD <= ord <= c && HasNode(t, top, 0, a, c)
    ensures FreeList(Put(t, top, 0, a, c, Carve(c, ord, size)), top, 0, j) ==
            Before(t, top, 0, a, c, j) + (if ord <= j < c then [a + Pow2(j)] else []) + After(t, top, 0, a, c, j)
  {
    PutFreeList(t, top, 0, a, c, Carve(c, ord, size), j);
    CarveLists(c, ord, size, a, j);
  }

  lemma CarvedOrPopped(t: Tree, top: nat, a: nat, c: nat, ord: nat, size: nat, j: nat)
    requires Shape(t, top) && MIN_ORD <= ord <= c <= MAX_ORD && j <= MAX_ORD
    requires FreeList(t, top, 0, c) != [] && FreeList(t, top, 0, c)[0] == a
    requires HasNode(t, top, 0, a, c)
    ensures FreeList(Put(t, top, 0, a, c, Carve(c, ord, size)), top, 0, j) ==
            if ord <= j < c then Before(t, top, 0, a, c, j) + [a + Pow2(j)] + After(t, top, 0, a, c, j)
            else PoppedLists(t, top, c)[j]
  {
    CarvedListAt(t, top, a, c, ord, size, j);
    if !(ord <= j < c) {
      PoppedSides(t, top, a, c, j);
      assert Before(t, top, 0, a, c, j) + [] == Before(t, top, 0, a, c, j);
    }
  }

  /** Popping the first block of order c and carving it gives the lists of the carved tree. */
  lemma {:induction false} CarvedLists(t: Tree, top: nat, a: nat, c: nat, ord: nat, size: nat)
    requires Shape(t, top) && MIN_ORD <= ord <= c <= MAX_ORD
    requires FreeList(t, top, 0, c) != [] && FreeList(t, top, 0, c)[0] == a
    requires HasNode(t, top, 0, a, c)
    ensures ListsOf(Put(t, top, 0, a, c, Carve(c, ord, size)), top) ==
            Carved(PoppedLists(t, top, c), SidesOf(t, top, a, c), a, c, ord)
  {
    var t' := Put(t, top, 0, a, c, Carve(c, ord, size));
    var ls, s := PoppedLists(t, top, c), SidesOf(t, top, a, c);
    var r := ListsOf(t', top);
    forall j | 0 <= j < |r|
      ensures r[j] == CarvedAt(ls, s, a, c, ord, j)
    {
      CarvedOrPopped(t, top, a, c, ord, size, j);
    }
    CarvedIs(r, ls, s, a, c, ord);
  }

  lemma TailSeparate(ls: seq<seq<nat>>, c: nat)
    requires Separate(ls) && c < |ls| && ls[c] != []
    ensures Separate(ls[c := ls[c][1..]])
    ensures Unlisted(ls[c := ls[c][1..]], ls[c][0])
  {
    var ls' := ls[c := ls[c][1..]];
    forall j, x | 0 <= j < |ls| && x in ls'[j]
      ensures x in ls[j]
    {
    }
    forall j | 0 <= j < |ls|
      ensures Increasing(ls'[j]) && ls[c][0] !in ls'[j]
    {
      assert Increasing(ls[j]);
      assert j != c ==> NoneShared(ls[c], ls[j]);
    }
    forall i, j | 0 <= i < |ls| && 0 <= j < |ls| && i != j
      ensures NoneShared(ls'[i], ls'[j])
    {
      assert NoneShared(ls[i], ls[j]);
    }
  }

  lemma FirstIsLeast(before: seq<nat>, a: nat, after: seq<nat>)
    requires Below(before, a) && (before + [a] + after)[0] == a
    ensures before == []
  {
  }

  lemma {:induction false} FirstFitIs(t: Tree, top: nat, k: nat, c: nat)
    requires Shape(t, top) && k <= c
    requires forall j :: k <= j < c ==> FreeList(t, top, 0, j) == []
    ensures c <= top && FreeList(t, top, 0, c) != [] ==> FirstFit(t, top, k) == c
    ensures c > top ==> FirstFit(t, top, k) > top
    decreases c - k
  {
    if k < c {
      FirstFitIs(t, top, k + 1, c);
    }
  }

  // ---------------------------------------------------------------------
  // Lists while a block is being merged

  ghost function Without(l: seq<nat>, i: nat): seq<nat>
    requires i < |l|
  {
    l[..i] + l[i + 1..]
  }

  /** What merging the floating live block at a with its free buddy b into the pair at p does to the lists. */
  lemma MergedListAt(t: Tree, top: nat, k: nat, p: nat, b: nat, j: nat)
    requires Shape(t, top) && HasNode(t, top, 0, p, k + 1) && Node(t, top, 0, p, k + 1).Split?
    requires var s := Node(t, top, 0, p, k + 1);
             (s.lo.Live? && s.hi.Free? && b == p + Pow2(k)) || (s.lo.Free? && s.hi.Live? && b == p)
    ensures j != k ==> FreeList(Put(t, top, 0, p, k + 1, Live(0)), top, 0, j) == FreeList(t, top, 0, j)
    ensures j == k ==> exists i :: 0 <= i < |FreeList(t, top, 0, k)| && FreeList(t, top, 0, k)[i] == b &&
                                  FreeList(Put(t, top, 0, p, k + 1, Live(0)), top, 0, k) ==
                                      Without(FreeList(t, top, 0, k), i)
  {
    var s := Node(t, top, 0, p, k + 1);
    Decompose(t, top, 0, p, k + 1, j);
    PutFreeList(t, top, 0, p, k + 1, Live(0), j);
    var lower, upper := Before(t, top, 0, p, k + 1, j), After(t, top, 0, p, k + 1, j);
    assert lower + [] + upper == lower + upper;
    if j == k {
      assert FreeList(t, top, 0, k)[|lower|] == b;
    }
  }

  lemma MergedLists(t: Tree, top: nat, k: nat, p: nat, b: nat, i: nat)
    requires Shape(t, top) && HasNode(t, top, 0, p, k + 1) && Node(t, top, 0, p, k + 1).Split? && k <= MAX_ORD
    requires var s := Node(t, top, 0, p, k + 1);
             (s.lo.Live? && s.hi.Free? && b == p + Pow2(k)) || (s.lo.Free? && s.hi.Live? && b == p)
    requires i < |FreeList(t, top, 0, k)| && FreeList(t, top, 0, k)[i] == b
    ensures ListsOf(Put(t, top, 0, p, k + 1, Live(0)), top) == ListsOf(t, top)[k := Without(FreeList(t, top, 0, k), i)]
  {
    var t' := Put(t, top, 0, p, k + 1, Live(0));
    FreeListRange(t, top, 0, k);
    forall j | 0 <= j <= MAX_ORD
      ensures ListsOf(t', top)[j] == ListsOf(t, top)[k := Without(FreeList(t, top, 0, k), i)][j]
    {
      MergedListAt(t, top, k, p, b, j);
    }
  }

  /** Merging changes no other live block. */
  lemma MergedLive(t: Tree, top: nat, k: nat, p: nat, x: nat, j: nat)
    requires Shape(t, top) && HasNode(t, top, 0, p, k + 1)
    requires IsLive(Put(t, top, 0, p, k + 1, Live(0)), top, 0, x, j) && x != p
    ensures IsLive(t, top, 0, x, j) && (x < p || p + Pow2(k + 1) <= x)
    ensures Node(Put(t, top, 0, p, k + 1, Live(0)), top, 0, x, j) == Node(t, top, 0, x, j)
  {
    var t' := Put(t, top, 0, p, k + 1, Live(0));
    if p <= x < p + Pow2(k + 1) {
      Apart(t', top, 0, p, k + 1, x, j);
      assert false;
    }
    PutElsewhere(t, top, 0, p, k + 1, Live(0), x, j);
  }

  /** Publishing the floating block at a puts it at its place in the list of its order. */
  lemma PublishedLists(t: Tree, top: nat, a: nat, k: nat)
    requires Shape(t, top) && IsLive(t, top, 0, a, k) && k <= MAX_ORD
    ensures var lower, upper := Before(t, top, 0, a, k, k), After(t, top, 0, a, k, k);
            FreeList(t, top, 0, k) == lower + upper && Below(lower, a) && AtLeast(upper, a + 1) &&
            ListsOf(Put(t, top, 0, a, k, Free), top) == ListsOf(t, top)[k := lower + [a] + upper]
  {
    var t' := Put(t, top, 0, a, k, Free);
    forall j | 0 <= j <= MAX_ORD
      ensures j != k ==> ListsOf(t', top)[j] == ListsOf(t, top)[j]
      ensures FreeList(t, top, 0, j) == Before(t, top, 0, a, k, j) + After(t, top, 0, a, k, j)
    {
      PublishedListAt(t, top, a, k, j);
    }
    PublishedListAt(t, top, a, k, k);
    Decompose(t, top, 0, a, k, k);
    assert ListsOf(t', top) ==
           ListsOf(t, top)[k := Before(t, top, 0, a, k, k) + [a] + After(t, top, 0, a, k, k)];
  }

  lemma PublishedListAt(t: Tree, top: nat, a: nat, k: nat, j: nat)
    requires Shape(t, top) && IsLive(t, top, 0, a, k)
    ensures FreeList(t, top, 0, j) == Before(t, top, 0, a, k, j) + After(t, top, 0, a, k, j)
    ensures FreeList(Put(t, top, 0, a, k, Free), top, 0, j) ==
            if j == k then Before(t, top, 0, a, k, j) + [a] + After(t, top, 0, a, k, j)
            else Before(t, top, 0, a, k, j) + After(t, top, 0, a, k, j)
  {
    Decompose(t, top, 0, a, k, j);
    PutFreeList(t, top, 0, a, k, Free, j);
    var lower, upper := Before(t, top, 0, a, k, j), After(t, top, 0, a, k, j);
    assert lower + [] + upper == lower + upper;
  }

  /** Publishing changes no other live block. */
  lemma PublishedLive(t: Tree, top: nat, a: nat, k: nat, x: nat, j: nat)
    requires Shape(t, top) && IsLive(t, top, 0, a, k)
    requires IsLive(Put(t, top, 0, a, k, Free), top, 0, x, j)
    ensures IsLive(t, top, 0, x, j) && x != a
    ensures Node(Put(t, top, 0, a, k, Free), top, 0, x, j) == Node(t, top, 0, x, j)
  {
    var t' := Put(t, top, 0, a, k, Free);
    Apart(t', top, 0, a, k, x, j);
    if x < a {
    } else {
      assert a + Pow2(k) <= x;
    }
    PutElsewhere(t, top, 0, a, k, Free, x, j);
  }

  /** The pair of order k+1 at p is a live block and a free block, the free one at b. */
  ghost predicate HalfFree(t: Tree, top: nat, p: nat, k: nat, b: nat)
    requires Shape(t, top) && HasNode(t, top, 0, p, k + 1) && Node(t, top, 0, p, k + 1).Split?
  {
    var s := Node(t, top, 0, p, k + 1);
    (s.lo.Live? && s.hi.Free? && b == p + Pow2(k)) || (s.lo.Free? && s.hi.Live? && b == p)
  }

  /** Where a floating block sits: its pair, its buddy, and whether the buddy can be taken. */
  lemma FloatingPair(t: Tree, top: nat, a: nat, k: nat) returns (p: nat)
    requires Shape(t, top) && IsLive(t, top, 0, a, k) && k < top
    ensures Aligned(a, k) && HasNode(t, top, 0, p, k + 1) && Node(t, top, 0, p, k + 1).Split?
    ensures p == (if Buddy(a, k) < a then Buddy(a, k) else a) && (a == p || a == p + Pow2(k))
    ensures Buddy(a, k) in FreeList(t, top, 0, k) <==> HalfFree(t, top, p, k, Buddy(a, k))
    ensures Buddy(a, k) !in FreeList(t, top, 0, k) ==> Stops(t, top, 0, a, k, p)
    ensures Buddy(a, k) < Pow2(top)
  {
    AlignedZero(top);
    p := ParentNode(t, top, 0, a, k);
    Decompose(t, top, 0, p, k + 1, 0);
    BuddyListed(t, top, 0, a, k, p);
  }

  /** The block that is the whole arena has its buddy just outside. */
  lemma WholeArena(t: Tree, top: nat, a: nat)
    requires Shape(t, top) && HasNode(t, top, 0, a, top)
    ensures Aligned(a, top) && Buddy(a, top) == Pow2(top)
  {
    AlignedZero(top);
  }

  /** Live blocks of t' other than the floating one at a' are live blocks of t, with their words kept. */
  ghost predicate Kept(t': Tree, a': nat, t: Tree, a: nat, top: nat, w: seq<int>, w': seq<int>)
    requires Shape(t, top) && Shape(t', top)
  {
    |w| == |w'| &&
    forall x: nat, j: nat :: IsLive(t', top, 0, x, j) && x != a' ==>
                               IsLive(t, top, 0, x, j) && x != a &&
                               Node(t', top, 0, x, j) == Node(t, top, 0, x, j) && x < |w| && w'[x] == w[x]
  }

  lemma MergeKeeps(t: Tree, top: nat, k: nat, p: nat, a: nat, w: seq<int>, w': seq<int>)
    requires Shape(t, top) && HasNode(t, top, 0, p, k + 1) && (a == p || a == p + Pow2(k))
    requires |w| == |w'| == Pow2(top)
    requires forall y :: 0 <= y < |w| && Unlisted(ListsOf(t, top), y) ==> w'[y] == w[y]
    ensures Kept(Put(t, top, 0, p, k + 1, Live(0)), p, t, a, top, w, w')
  {
    var t' := Put(t, top, 0, p, k + 1, Live(0));
    forall x: nat, j: nat | IsLive(t', top, 0, x, j) && x != p
      ensures IsLive(t, top, 0, x, j) && x != a &&
              Node(t', top, 0, x, j) == Node(t, top, 0, x, j) && x < |w| && w'[x] == w[x]
    {
      MergedLive(t, top, k, p, x, j);
      LiveUnlisted(t, top, x, j);
    }
  }
}
