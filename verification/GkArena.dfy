// How trees lie in the node arena: operators after their operands, everything
// else before its children, children side by side.

module GkArena {
  import opened GkSyntax

  function Size(t: Tree): (n: nat)
    ensures n >= 1
    decreases t, 0
  {
    1 + SizeAll(t.kids)
  }

  function SizeAll(kids: seq<Tree>): nat
    decreases kids, 1
  {
    if kids == [] then 0 else Size(kids[0]) + SizeAll(kids[1..])
  }

  predicate IsPost(k: Kind) {
    k == KUnop || k == KBinop
  }

  /** Index of the root of a tree laid out from lo on. */
  function RootAt(t: Tree, lo: nat): nat {
    if IsPost(t.kind) then lo + SizeAll(t.kids) else lo
  }

  /** Indices of the roots of trees laid out side by side. */
  function Roots(kids: seq<Tree>, lo: nat): (r: seq<int>)
    ensures |r| == |kids|
    decreases kids
  {
    if kids == [] then [] else [RootAt(kids[0], lo)] + Roots(kids[1..], lo + Size(kids[0]))
  }

  /** The node of a tree whose children start at lo. */
  function NodeOf(t: Tree, lo: nat): Node {
    Node(t.kind, t.n, t.s, t.op, Roots(t.kids, lo))
  }

  /** The nodes of a tree, from index lo on. */
  function Layout(t: Tree, lo: nat): (s: seq<Node>)
    ensures |s| == Size(t)
    decreases t, 0
  {
    if IsPost(t.kind) then LayoutAll(t.kids, lo) + [NodeOf(t, lo)]
    else [NodeOf(t, lo + 1)] + LayoutAll(t.kids, lo + 1)
  }

  function LayoutAll(kids: seq<Tree>, lo: nat): (s: seq<Node>)
    ensures |s| == SizeAll(kids)
    decreases kids, 1
  {
    if kids == [] then [] else Layout(kids[0], lo) + LayoutAll(kids[1..], lo + Size(kids[0]))
  }

  // ---------------------------------------------------------------------
  // One more child

  lemma {:induction false} SizeSnoc(kids: seq<Tree>, t: Tree)
    ensures SizeAll(kids + [t]) == SizeAll(kids) + Size(t)
    decreases |kids|
  {
    if kids == [] {
      assert [] + [t] == [t] && [t][1..] == [];
    } else {
      assert (kids + [t])[1..] == kids[1..] + [t];
      SizeSnoc(kids[1..], t);
    }
  }

  lemma {:induction false} LaidSnoc(kids: seq<Tree>, t: Tree, lo: nat)
    ensures LayoutAll(kids + [t], lo) == LayoutAll(kids, lo) + Layout(t, lo + SizeAll(kids))
    decreases |kids|
  {
    if kids == [] {
      assert [] + [t] == [t] && [t][1..] == [];
    } else {
      assert (kids + [t])[1..] == kids[1..] + [t];
      LaidSnoc(kids[1..], t, lo + Size(kids[0]));
    }
  }

  lemma {:induction false} RootsSnoc(kids: seq<Tree>, t: Tree, lo: nat)
    ensures Roots(kids + [t], lo) == Roots(kids, lo) + [RootAt(t, lo + SizeAll(kids))]
    decreases |kids|
  {
    if kids == [] {
      assert [] + [t] == [t] && [t][1..] == [];
    } else {
      assert (kids + [t])[1..] == kids[1..] + [t];
      RootsSnoc(kids[1..], t, lo + Size(kids[0]));
    }
  }

  lemma {:induction false} SizePrefix(kids: seq<Tree>, more: seq<Tree>)
    ensures SizeAll(kids) <= SizeAll(kids + more)
    decreases |kids|
  {
    if kids != [] {
      assert (kids + more)[1..] == kids[1..] + more;
      SizePrefix(kids[1..], more);
    }
  }

  // ---------------------------------------------------------------------
  // A laid-out tree is represented

  /** The nodes from lo on are s. */
  ghost predicate Holds(nodes: seq<Node>, lo: nat, s: seq<Node>) {
    lo + |s| <= |nodes| && forall i {:trigger s[i]} :: 0 <= i < |s| ==> nodes[lo + i] == s[i]
  }

  lemma HoldsParts(nodes: seq<Node>, lo: nat, x: seq<Node>, y: seq<Node>)
    requires Holds(nodes, lo, x + y)
    ensures Holds(nodes, lo, x) && Holds(nodes, lo + |x|, y)
  {
    forall i {:trigger x[i]} | 0 <= i < |x|
      ensures nodes[lo + i] == x[i]
    {
      assert (x + y)[i] == x[i];
    }
    forall i {:trigger y[i]} | 0 <= i < |y|
      ensures nodes[lo + |x| + i] == y[i]
    {
      assert (x + y)[|x| + i] == y[i];
    }
  }

  /** A laid-out tree is the tree of its root node. */
  lemma {:induction false} LaidIsRep(nodes: seq<Node>, t: Tree, lo: nat)
    requires Holds(nodes, lo, Layout(t, lo))
    ensures Rep(nodes, RootAt(t, lo), t)
    decreases t, 0
  {
    if IsPost(t.kind) {
      HoldsParts(nodes, lo, LayoutAll(t.kids, lo), [NodeOf(t, lo)]);
      AllAreRep(nodes, t.kids, lo);
      assert nodes[lo + SizeAll(t.kids)] == [NodeOf(t, lo)][0];
    } else {
      HoldsParts(nodes, lo, [NodeOf(t, lo + 1)], LayoutAll(t.kids, lo + 1));
      AllAreRep(nodes, t.kids, lo + 1);
      assert nodes[lo] == [NodeOf(t, lo + 1)][0];
    }
  }

  /** The nodes at these indices are the roots of these trees. */
  ghost predicate AllRep(nodes: seq<Node>, idxs: seq<int>, kids: seq<Tree>) {
    |idxs| == |kids| && forall i {:trigger kids[i]} :: 0 <= i < |kids| ==> Rep(nodes, idxs[i], kids[i])
  }

  lemma RepCons(nodes: seq<Node>, idx: int, t: Tree, idxs: seq<int>, kids: seq<Tree>)
    requires Rep(nodes, idx, t) && AllRep(nodes, idxs, kids)
    ensures AllRep(nodes, [idx] + idxs, [t] + kids)
  {
    var js, ks := [idx] + idxs, [t] + kids;
    forall i {:trigger ks[i]} | 0 <= i < |ks|
      ensures Rep(nodes, js[i], ks[i])
    {
      if i > 0 {
        assert ks[i] == kids[i - 1] && js[i] == idxs[i - 1];
      }
    }
  }

  lemma {:induction false} AllAreRep(nodes: seq<Node>, kids: seq<Tree>, lo: nat)
    requires Holds(nodes, lo, LayoutAll(kids, lo))
    ensures AllRep(nodes, Roots(kids, lo), kids)
    decreases kids, 1
  {
    if kids != [] {
      var m := lo + Size(kids[0]);
      HoldsParts(nodes, lo, Layout(kids[0], lo), LayoutAll(kids[1..], m));
      LaidIsRep(nodes, kids[0], lo);
      AllAreRep(nodes, kids[1..], m);
      RepCons(nodes, RootAt(kids[0], lo), kids[0], Roots(kids[1..], m), kids[1..]);
      assert [kids[0]] + kids[1..] == kids;
    }
  }

  // ---------------------------------------------------------------------
  // Every node has one parent

  function Count(s: seq<int>, c: int): nat {
    if s == [] then 0 else (if s[0] == c then 1 else 0) + Count(s[1..], c)
  }

  /** How many times c is a child of one of the nodes. */
  function Refs(s: seq<Node>, c: int): nat {
    if s == [] then 0 else Count(s[0].child, c) + Refs(s[1..], c)
  }

  lemma {:induction false} RefsSplit(x: seq<Node>, y: seq<Node>, c: int)
    ensures Refs(x + y, c) == Refs(x, c) + Refs(y, c)
    decreases |x|
  {
    if x == [] {
      assert x + y == y;
    } else {
      assert (x + y)[1..] == x[1..] + y;
      RefsSplit(x[1..], y, c);
    }
  }

  lemma OneNode(n: Node, c: int)
    ensures Refs([n], c) == Count(n.child, c)
  {
    assert [n][1..] == [];
  }

  /** In a laid-out tree every node but the root is a child of exactly one node, once; the root of none. */
  lemma {:induction false} OneParent(t: Tree, lo: nat, c: int)
    ensures Refs(Layout(t, lo), c) == if lo <= c < lo + Size(t) && c != RootAt(t, lo) then 1 else 0
    decreases t, 0
  {
    if IsPost(t.kind) {
      AllParents(t.kids, lo, c);
      RefsSplit(LayoutAll(t.kids, lo), [NodeOf(t, lo)], c);
      OneNode(NodeOf(t, lo), c);
    } else {
      AllParents(t.kids, lo + 1, c);
      RefsSplit([NodeOf(t, lo + 1)], LayoutAll(t.kids, lo + 1), c);
      OneNode(NodeOf(t, lo + 1), c);
    }
  }

  lemma CountCons(x: int, s: seq<int>, c: int)
    ensures Count([x] + s, c) == (if x == c then 1 else 0) + Count(s, c)
  {
    assert ([x] + s)[1..] == s;
  }

  lemma {:induction false} AllParents(kids: seq<Tree>, lo: nat, c: int)
    ensures Refs(LayoutAll(kids, lo), c) + Count(Roots(kids, lo), c) == if lo <= c < lo + SizeAll(kids) then 1 else 0
    decreases kids, 1
  {
    if kids != [] {
      var m := lo + Size(kids[0]);
      OneParent(kids[0], lo, c);
      AllParents(kids[1..], m, c);
      RefsSplit(Layout(kids[0], lo), LayoutAll(kids[1..], m), c);
      CountCons(RootAt(kids[0], lo), Roots(kids[1..], m), c);
    }
  }
}
