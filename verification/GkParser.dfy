// The recursive-descent parser: it moves through the tokens and fills the node
// arena, and does so exactly as the grammar says.

module GkParser {
  import opened GkSyntax
  import opened GkGrammar
  import opened GkArena

  /** A header node with children appended so far, and the children after it. */
  ghost predicate Under(nodes: seq<Node>, before: seq<Node>, t: Tree) {
    !IsPost(t.kind) && nodes == before + Layout(t, |before|)
  }

  function With(t: Tree, kid: Tree): Tree {
    t.(kids := t.kids + [kid])
  }

  /** Adding a child to a header node. */
  lemma AddKid(nodes: seq<Node>, after: seq<Node>, before: seq<Node>, t: Tree, kid: Tree)
    requires Under(nodes, before, t) && after == nodes + Layout(kid, |nodes|) && |nodes| == |before| + Size(t)
    ensures var n := |before|; var root := RootAt(kid, |nodes|);
            n < |after| && Under(after[n := after[n].(child := after[n].child + [root])], before, With(t, kid))
  {
    var lo := |before| + 1;
    var h, x, y := NodeOf(t, lo), LayoutAll(t.kids, lo), Layout(kid, |nodes|);
    WithLaid(t, kid, |before|);
    assert after == (before + ([h] + x)) + y;
    WithRoot(t, kid, |before|);
    HeadChanged(before, h, NodeOf(With(t, kid), lo), x, y);
  }

  /** One more child changes the header node and is laid out after the other children. */
  lemma WithLaid(t: Tree, kid: Tree, n: nat)
    requires !IsPost(t.kind)
    ensures Layout(t, n) == [NodeOf(t, n + 1)] + LayoutAll(t.kids, n + 1)
    ensures Layout(With(t, kid), n) ==
            [NodeOf(With(t, kid), n + 1)] + (LayoutAll(t.kids, n + 1) + Layout(kid, n + Size(t)))
  {
    LaidSnoc(t.kids, kid, n + 1);
  }

  lemma {:induction false} WithRoot(t: Tree, kid: Tree, n: nat)
    ensures var h := NodeOf(t, n + 1);
            NodeOf(With(t, kid), n + 1) == h.(child := h.child + [RootAt(kid, n + Size(t))])
  {
    RootsSnoc(t.kids, kid, n + 1);
  }

  lemma HeadChanged(before: seq<Node>, h: Node, g: Node, x: seq<Node>, y: seq<Node>)
    ensures var nodes := (before + ([h] + x)) + y;
            nodes[|before|] == h && nodes[|before| := g] == before + ([g] + (x + y))
  {
  }

  lemma UnderSize(nodes: seq<Node>, before: seq<Node>, t: Tree)
    requires Under(nodes, before, t)
    ensures |nodes| == |before| + Size(t)
  {
  }

  /** The header node itself, whatever has been laid after it. */
  lemma UnderHead(was: seq<Node>, nodes: seq<Node>, before: seq<Node>, t: Tree, more: seq<Node>)
    requires Under(was, before, t) && nodes == was + more
    ensures |before| < |nodes| && |nodes[|before|].child| == |t.kids|
  {
    assert nodes[|before|] == was[|before|] == Layout(t, |before|)[0];
  }

  /** A fresh header node. */
  lemma Leaf(before: seq<Node>, t: Tree)
    requires t.kids == [] && !IsPost(t.kind)
    ensures Under(before + [Node(t.kind, t.n, t.s, t.op, [])], before, t) && Size(t) == 1
  {
  }

  // ---------------------------------------------------------------------
  // Trees only grow while a loop runs

  /** The grammar refuses, or the tree does not fit behind n nodes. */
  ghost predicate Over(p: Parsed, n: nat) {
    p.Bad? || n + Size(p.t) > MAX_NODES
  }

  ghost predicate OverAll(p: ParsedAll, n: nat) {
    p.BadAll? || n + SizeAll(p.all) > MAX_NODES
  }

  lemma {:induction false} ArgsGrow(args: seq<Tree>, ts: seq<Token>)
    requires Stream(ts)
    ensures Args(args, ts).GotAll? ==> SizeAll(args) <= SizeAll(Args(args, ts).all)
    decreases |ts|
  {
    if ts[0] != RParen && ts[0] != Eof {
      var p := Level(1, ts);
      if p.Got? {
        SizeSnoc(args, p.t);
        if p.rest[0] == Comma {
          ArgsGrow(args + [p.t], Tail(p.rest));
        }
      }
    }
  }

  /** One turn of the argument loop, as the grammar has it. */
  lemma ArgsTurn(args: seq<Tree>, ts: seq<Token>)
    requires Stream(ts) && ts[0] != RParen && ts[0] != Eof
    ensures var p := Level(1, ts);
            Args(args, ts) ==
              if p.Bad? || |args| >= MAX_CHILDREN then BadAll
              else if p.rest[0] == Comma then Args(args + [p.t], Tail(p.rest))
              else GotAll(args + [p.t], p.rest)
  {
  }

  lemma ArgsGrowOne(args: seq<Tree>, ts: seq<Token>)
    requires Stream(ts) && ts[0] != RParen && ts[0] != Eof && Args(args, ts).GotAll?
    ensures Level(1, ts).Got? && |args| < MAX_CHILDREN &&
            SizeAll(args) + Size(Level(1, ts).t) <= SizeAll(Args(args, ts).all)
  {
    ArgsTurn(args, ts);
    var p := Level(1, ts);
    SizeSnoc(args, p.t);
    if p.rest[0] == Comma {
      ArgsGrow(args + [p.t], Tail(p.rest));
    }
  }

  /** A child that cannot be stored after the others spoils whatever the loop ends with. */
  lemma LoopOver(all: seq<Tree>, p: Parsed, q: ParsedAll, n: nat)
    requires Over(p, n + 1 + SizeAll(all)) || |all| >= MAX_CHILDREN
    requires q.GotAll? ==> p.Got? && |all| < MAX_CHILDREN && SizeAll(all) + Size(p.t) <= SizeAll(q.all)
    ensures OverAll(q, n + 1)
  {
  }

  lemma SizeOf(t: Tree)
    ensures Size(t) == 1 + SizeAll(t.kids)
  {
  }

  /** An argument that cannot be stored spoils the call. */
  lemma {:induction false} ArgOver(x: string, args: seq<Tree>, ts: seq<Token>, n: nat)
    requires Stream(ts) && ts[0] != RParen && ts[0] != Eof
    requires Over(Level(1, ts), n + Size(CallTree(x, args))) || |args| >= MAX_CHILDREN
    ensures OverAll(Args(args, ts), n + 1)
  {
    if Args(args, ts).GotAll? {
      ArgsGrowOne(args, ts);
    }
    SizeOf(CallTree(x, args));
    LoopOver(args, Level(1, ts), Args(args, ts), n);
  }

  lemma {:induction false} ChainGrow(k: nat, left: Tree, ts: seq<Token>)
    requires Stream(ts) && 1 <= k <= 5
    ensures Chain(k, left, ts).Got? ==> Size(left) <= Size(Chain(k, left, ts).t)
    decreases |ts|
  {
    if IsOpOf(ts[0], k) {
      var p := Level(k + 1, Tail(ts));
      if p.Got? {
        BinSize(ts[0].op, left, p.t);
        ChainGrow(k, BinTree(ts[0].op, left, p.t), p.rest);
      }
    }
  }

  lemma LeftOver(k: nat, ts: seq<Token>, n: nat)
    requires Stream(ts) && 1 <= k <= 5 && Over(Level(k + 1, ts), n)
    ensures Over(Level(k, ts), n)
  {
    var p := Level(k + 1, ts);
    if p.Got? {
      ChainGrow(k, p.t, p.rest);
    }
  }

  lemma BinSize(op: Op, l: Tree, r: Tree)
    ensures Size(BinTree(op, l, r)) == 1 + Size(l) + Size(r)
  {
    TwoLaid(l, r, 0);
  }

  /** A right operand that cannot be stored, or leaves no room for the operator, spoils the expression. */
  lemma ChainOver(k: nat, left: Tree, ts: seq<Token>, n: nat)
    requires Stream(ts) && 1 <= k <= 5 && IsOpOf(ts[0], k) && Over(Level(k + 1, Tail(ts)), n + Size(left) + 1)
    ensures Over(Chain(k, left, ts), n)
  {
    var p := Level(k + 1, Tail(ts));
    if p.Got? {
      BinSize(ts[0].op, left, p.t);
      ChainGrow(k, BinTree(ts[0].op, left, p.t), p.rest);
    }
  }

  lemma OneLaid(e: Tree, lo: nat)
    ensures LayoutAll([e], lo) == Layout(e, lo) && Roots([e], lo) == [RootAt(e, lo)] && SizeAll([e]) == Size(e)
  {
    assert [] + [e] == [e];
    LaidSnoc([], e, lo);
    RootsSnoc([], e, lo);
    SizeSnoc([], e);
  }

  lemma TwoLaid(l: Tree, r: Tree, lo: nat)
    ensures LayoutAll([l, r], lo) == Layout(l, lo) + Layout(r, lo + Size(l))
    ensures Roots([l, r], lo) == [RootAt(l, lo), RootAt(r, lo + Size(l))]
    ensures SizeAll([l, r]) == Size(l) + Size(r)
  {
    assert [l] + [r] == [l, r];
    OneLaid(l, lo);
    LaidSnoc([l], r, lo);
    RootsSnoc([l], r, lo);
    SizeSnoc([l], r);
  }

  lemma BinLayout(op: Op, l: Tree, r: Tree, lo: nat)
    ensures Layout(BinTree(op, l, r), lo) ==
            (Layout(l, lo) + Layout(r, lo + Size(l))) +
                [Node(KBinop, 0, "", op, [RootAt(l, lo), RootAt(r, lo + Size(l))])]
    ensures RootAt(BinTree(op, l, r), lo) == lo + Size(l) + Size(r)
  {
    TwoLaid(l, r, lo);
  }

  lemma Glue(a: seq<Node>, b: seq<Node>, c: seq<Node>, d: seq<Node>)
    ensures ((a + b) + c) + d == a + ((b + c) + d)
  {
  }

  lemma UnLaid(before: seq<Node>, op: Op, e: Tree)
    ensures (before + Layout(e, |before|)) + [Node(KUnop, 0, "", op, [RootAt(e, |before|)])] ==
            before + Layout(UnTree(op, e), |before|)
    ensures RootAt(UnTree(op, e), |before|) == |before| + Size(e) && Size(UnTree(op, e)) == 1 + Size(e)
  {
    OneLaid(e, |before|);
    Glue2(before, Layout(e, |before|), [NodeOf(UnTree(op, e), |before|)]);
  }

  lemma Glue2(a: seq<Node>, b: seq<Node>, c: seq<Node>)
    ensures (a + b) + c == a + (b + c)
  {
  }

  lemma WithSize(t: Tree, kid: Tree)
    ensures Size(With(t, kid)) == Size(t) + Size(kid)
  {
    SizeSnoc(t.kids, kid);
  }

  /** The header of an assignment and its value. */
  lemma AssignHeaded(x: string, e: Tree)
    ensures var t := Tree(KAssign, 0, x, NoOp, []); With(t, e) == AssignTree(x, e) && Size(With(t, e)) == 1 + Size(e)
  {
    WithSize(Tree(KAssign, 0, x, NoOp, []), e);
  }

  /** Two children added one after the other. */
  lemma WithTwo(t: Tree, all: seq<Tree>)
    requires |all| == 2
    ensures With(With(t, all[0]), all[1]) == t.(kids := t.kids + all)
    ensures SizeAll(all) == Size(all[0]) + Size(all[1])
  {
    assert all == [all[0], all[1]];
    TwoLaid(all[0], all[1], 0);
    assert t.kids + [all[0]] + [all[1]] == t.kids + all;
  }

  /** A header with one more child, when the grammar gives the child. */
  function Added(t: Tree, p: Parsed): Parsed {
    if p.Got? then Got(With(t, p.t), p.rest) else Bad
  }

  lemma AddedFits(t: Tree, p: Parsed, n: nat)
    ensures Over(Added(t, p), n) <==> Over(p, n + Size(t))
  {
    if p.Got? {
      WithSize(t, p.t);
    }
  }

  /** A header with a condition or iterable and the block it governs. */
  function Headed(t: Tree, ts: seq<Token>): Parsed
    requires Stream(ts)
  {
    var e := Expr(ts);
    if e.Got? then Added(With(t, e.t), ColonBlock(e.rest)) else Bad
  }

  /** A condition that cannot be stored spoils its statement. */
  lemma HeadedOver(t: Tree, ts: seq<Token>, n: nat)
    requires Stream(ts) && Over(Added(t, Expr(ts)), n)
    ensures Over(Headed(t, ts), n)
  {
    var e := Expr(ts);
    if e.Got? && ColonBlock(e.rest).Got? {
      WithSize(With(t, e.t), ColonBlock(e.rest).t);
    }
  }

  lemma HeadedIs(t: Tree, ts: seq<Token>)
    requires Stream(ts)
    ensures var h := HeadBlock(ts);
            Headed(t, ts) == if h.GotAll? then Got(t.(kids := t.kids + h.all), h.rest) else Bad
  {
    var h := HeadBlock(ts);
    if h.GotAll? {
      WithTwo(t, h.all);
    }
  }

  /** What an if makes of its condition and first block, and of what comes after them. */
  function Branched(t: Tree, ts: seq<Token>): Parsed
    requires Stream(ts)
  {
    if ts[0] == ElifTok then Added(t, If(Tail(ts)))
    else if ts[0] == ElseTok then Added(t, ColonBlock(Tail(ts)))
    else Got(t, ts)
  }

  lemma IfIs(ts: seq<Token>)
    requires Stream(ts)
    ensures var h := HeadBlock(ts);
            If(ts) == if h.GotAll? then Branched(IfTree(h.all), SkipNewlines(h.rest)) else Bad
  {
  }

  lemma BranchedOver(t: Tree, ts: seq<Token>, n: nat)
    requires Stream(ts) && n + Size(t) > MAX_NODES
    ensures Over(Branched(t, ts), n)
  {
    if ts[0] == ElifTok {
      AddedFits(t, If(Tail(ts)), n);
    } else if ts[0] == ElseTok {
      AddedFits(t, ColonBlock(Tail(ts)), n);
    }
  }

  lemma Kids(all: seq<Tree>)
    ensures [] + all == all
  {
  }

  /** An if in terms of its header with the condition and the first block under it. */
  lemma IfHeaded(ts: seq<Token>, n: nat)
    requires Stream(ts)
    ensures var h := Headed(IfTree([]), ts);
            Over(h, n) ==> Over(If(ts), n)
    ensures var h := Headed(IfTree([]), ts);
            h.Got? ==> Stream(h.rest) && If(ts) == Branched(h.t, SkipNewlines(h.rest))
  {
    HeadedIs(IfTree([]), ts);
    IfIs(ts);
    if HeadBlock(ts).GotAll? {
      Kids(HeadBlock(ts).all);
      if n + Size(IfTree(HeadBlock(ts).all)) > MAX_NODES {
        BranchedOver(IfTree(HeadBlock(ts).all), SkipNewlines(HeadBlock(ts).rest), n);
      }
    }
  }

  lemma TwoKids(all: seq<Tree>)
    requires |all| == 2
    ensures [] + all == [all[0], all[1]]
  {
  }

  lemma WhileHeaded(ts: seq<Token>)
    requires Stream(ts) && ts[0] == WhileTok
    ensures Stmt(ts) == Headed(Tree(KWhile, 0, "", NoOp, []), Tail(ts))
  {
    HeadedIs(Tree(KWhile, 0, "", NoOp, []), Tail(ts));
    if HeadBlock(Tail(ts)).GotAll? {
      TwoKids(HeadBlock(Tail(ts)).all);
    }
  }

  lemma ForHeaded(ts: seq<Token>)
    requires Stream(ts) && ts[0].IdentTok? && Tail(ts)[0] == InTok
    ensures For(ts) == Headed(Tree(KFor, 0, ts[0].s, NoOp, []), Tail(Tail(ts)))
  {
    HeadedIs(Tree(KFor, 0, ts[0].s, NoOp, []), Tail(Tail(ts)));
    if HeadBlock(Tail(Tail(ts))).GotAll? {
      TwoKids(HeadBlock(Tail(Tail(ts))).all);
    }
  }

  /** A def with its parameters, and what must come after them. */
  function Closed(t: Tree, ts: seq<Token>): Parsed
    requires Stream(ts)
  {
    if ts[0] == RParen then Added(t, ColonBlock(Tail(ts))) else Bad
  }

  lemma DefIs(ts: seq<Token>)
    requires Stream(ts) && ts[0].IdentTok? && Tail(ts)[0] == LParen
    ensures var a := ParamList([], Tail(Tail(ts)));
            Def(ts) == if a.GotAll? then Closed(DefTree(ts[0].s, a.all), a.rest) else Bad
  {
  }

  lemma DefOver(ts: seq<Token>, n: nat)
    requires Stream(ts) && ts[0].IdentTok? && Tail(ts)[0] == LParen && OverAll(ParamList([], Tail(Tail(ts))), n + 1)
    ensures Over(Def(ts), n)
  {
    var a := ParamList([], Tail(Tail(ts)));
    DefIs(ts);
    if a.GotAll? && a.rest[0] == RParen {
      AddedFits(DefTree(ts[0].s, a.all), ColonBlock(Tail(a.rest)), n);
    }
  }

  lemma StmtsTurn(all: seq<Tree>, ts: seq<Token>)
    requires Stream(ts) && ts[0] != Dedent && ts[0] != Eof
    ensures var p := Stmt(ts);
            Stmts(all, ts) == if p.Bad? || |all| >= MAX_CHILDREN then BadAll
                else Stmts(all + [p.t], SkipNewlines(p.rest))
  {
  }

  lemma {:induction false} StmtsGrow(all: seq<Tree>, ts: seq<Token>)
    requires Stream(ts)
    ensures Stmts(all, ts).GotAll? ==> SizeAll(all) <= SizeAll(Stmts(all, ts).all)
    decreases |ts|
  {
    if ts[0] != Dedent && ts[0] != Eof {
      StmtsTurn(all, ts);
      var p := Stmt(ts);
      if p.Got? {
        SizeSnoc(all, p.t);
        StmtsGrow(all + [p.t], SkipNewlines(p.rest));
      }
    }
  }

  lemma StmtsGrowOne(all: seq<Tree>, ts: seq<Token>)
    requires Stream(ts) && ts[0] != Dedent && ts[0] != Eof && Stmts(all, ts).GotAll?
    ensures Stmt(ts).Got? && |all| < MAX_CHILDREN && SizeAll(all) + Size(Stmt(ts).t) <= SizeAll(Stmts(all, ts).all)
  {
    StmtsTurn(all, ts);
    SizeSnoc(all, Stmt(ts).t);
    StmtsGrow(all + [Stmt(ts).t], SkipNewlines(Stmt(ts).rest));
  }

  /** A statement that cannot be stored spoils the block. */
  lemma {:induction false} StmtOver(all: seq<Tree>, ts: seq<Token>, n: nat)
    requires Stream(ts) && ts[0] != Dedent && ts[0] != Eof &&
             (Over(Stmt(ts), n + Size(BlockTree(all))) || |all| >= MAX_CHILDREN)
    ensures OverAll(Stmts(all, ts), n + 1)
  {
    SizeOf(BlockTree(all));
    if Stmts(all, ts).GotAll? {
      StmtsGrowOne(all, ts);
    }
    LoopOver(all, Stmt(ts), Stmts(all, ts), n);
  }

  lemma TopTurn(all: seq<Tree>, ts: seq<Token>)
    requires Stream(ts) && ts[0] != Eof
    ensures var p := Stmt(ts);
            TopStmts(all, ts) == if p.Bad? || |all| >= MAX_CHILDREN then BadAll
                else TopStmts(all + [p.t], SkipNewlines(p.rest))
  {
  }

  lemma {:induction false} TopGrow(all: seq<Tree>, ts: seq<Token>)
    requires Stream(ts)
    ensures TopStmts(all, ts).GotAll? ==> SizeAll(all) <= SizeAll(TopStmts(all, ts).all)
    decreases |ts|
  {
    if ts[0] != Eof {
      TopTurn(all, ts);
      var p := Stmt(ts);
      if p.Got? {
        SizeSnoc(all, p.t);
        TopGrow(all + [p.t], SkipNewlines(p.rest));
      }
    }
  }

  lemma TopGrowOne(all: seq<Tree>, ts: seq<Token>)
    requires Stream(ts) && ts[0] != Eof && TopStmts(all, ts).GotAll?
    ensures Stmt(ts).Got? && |all| < MAX_CHILDREN && SizeAll(all) + Size(Stmt(ts).t) <= SizeAll(TopStmts(all, ts).all)
  {
    TopTurn(all, ts);
    SizeSnoc(all, Stmt(ts).t);
    TopGrow(all + [Stmt(ts).t], SkipNewlines(Stmt(ts).rest));
  }

  lemma {:induction false} TopOver(all: seq<Tree>, ts: seq<Token>, n: nat)
    requires Stream(ts) && ts[0] != Eof && (Over(Stmt(ts), n + Size(BlockTree(all))) || |all| >= MAX_CHILDREN)
    ensures OverAll(TopStmts(all, ts), n + 1)
  {
    if TopStmts(all, ts).GotAll? {
      TopGrowOne(all, ts);
    }
    SizeOf(BlockTree(all));
    LoopOver(all, Stmt(ts), TopStmts(all, ts), n);
  }

  lemma {:induction false} NamesGrow(ps: seq<Tree>, ts: seq<Token>)
    requires Stream(ts)
    ensures ParamList(ps, ts).GotAll? ==> SizeAll(ps) <= SizeAll(ParamList(ps, ts).all)
    decreases |ts|
  {
    if ts[0].IdentTok? {
      SizeSnoc(ps, VarRef(ts[0].s));
      if Tail(ts)[0] == Comma {
        NamesGrow(ps + [VarRef(ts[0].s)], Tail(Tail(ts)));
      }
    }
  }

  lemma NameOver(ps: seq<Tree>, ts: seq<Token>, n: nat)
    requires Stream(ts) && ts[0] != RParen && ts[0] != Eof && (!ts[0].IdentTok? || n + SizeAll(ps) + 1 > MAX_NODES)
    ensures OverAll(ParamList(ps, ts), n)
  {
    if ts[0].IdentTok? {
      SizeSnoc(ps, VarRef(ts[0].s));
      assert Size(VarRef(ts[0].s)) == 1;
      NamesGrow(ps, ts);
      if Tail(ts)[0] == Comma {
        NamesGrow(ps + [VarRef(ts[0].s)], Tail(Tail(ts)));
      }
    }
  }

  class Parser {
    const tokens: seq<Token>
    var pos: nat
    var nodes: seq<Node>
    var failed: bool

    constructor (toks: seq<Token>)
      requires Stream(toks)
      ensures tokens == toks && At(toks) && nodes == [] && !failed
    {
      tokens := toks;
      pos, nodes, failed := 0, [], false;
    }

    /** The tokens still to be read are ts. */
    ghost predicate At(ts: seq<Token>)
      reads this
    {
      Stream(ts) && pos < |tokens| && tokens[pos..] == ts
    }

    /**
      The arena got the tree the grammar gives, and the tokens it covers have been
      read; or the grammar refuses, or the arena is too small for the tree.
     */
    ghost predicate Built(p: Parsed, before: seq<Node>, idx: int)
      reads this
    {
      if p.Got? && |before| + Size(p.t) <= MAX_NODES then
        idx == RootAt(p.t, |before|) && nodes == before + Layout(p.t, |before|) && At(p.rest)
      else idx < 0 && failed
    }

    /**
      The header node at the end of before got its children as the grammar says, and
      the tokens have been read; or the grammar refuses, or the arena is too small.
     */
    ghost predicate Grown(p: Parsed, before: seq<Node>, ok: bool)
      reads this
    {
      if Over(p, |before|) then !ok && failed else ok && Under(nodes, before, p.t) && At(p.rest)
    }

    lemma Done(p: Parsed, before: seq<Node>, ok: bool)
      requires Grown(p, before, ok)
      ensures Built(p, before, if ok then |before| else -1)
    {
    }

    /** peek. */
    method Peek(ghost ts: seq<Token>) returns (t: Token)
      requires At(ts)
      ensures t == ts[0]
    {
      t := tokens[pos];
    }

    /** advance, on any token but the end of file. */
    method Advance(ghost ts: seq<Token>)
      requires At(ts) && ts[0] != Eof
      modifies this`pos
      ensures At(Tail(ts))
    {
      pos := pos + 1;
    }

    /** match. */
    method Match(tok: Token, ghost ts: seq<Token>) returns (b: bool)
      requires At(ts) && tok != Eof
      modifies this`pos
      ensures At(Skip(ts, tok)) && b == (ts[0] == tok)
    {
      b := tokens[pos] == tok;
      if b {
        Advance(ts);
      }
    }

    /** expect. */
    method Expect(tok: Token, ghost ts: seq<Token>) returns (b: bool)
      requires At(ts) && tok != Eof
      modifies this`pos, this`failed
      ensures b == (ts[0] == tok)
      ensures if b then At(Tail(ts)) && failed == old(failed) else failed
    {
      b := Match(tok, ts);
      if !b {
        failed := true;
      }
    }

    /** skip_newlines. */
    method SkipBlank(ghost ts: seq<Token>)
      requires At(ts)
      modifies this`pos
      ensures At(SkipNewlines(ts))
    {
      ghost var cur := ts;
      while tokens[pos] == Newline
        invariant At(cur) && SkipNewlines(cur) == SkipNewlines(ts)
        decreases |cur|
      {
        Advance(cur);
        cur := Tail(cur);
      }
    }

    /** new_node, with the fields its callers set at once. */
    method NewNode(kind: Kind, n: int, s: string, op: Op, child: seq<int>) returns (idx: int)
      modifies this`nodes, this`failed
      ensures |old(nodes)| >= MAX_NODES ==> idx < 0 && failed && nodes == old(nodes)
      ensures |old(nodes)| < MAX_NODES ==>
                idx == |old(nodes)| && nodes == old(nodes) + [Node(kind, n, s, op, child)] && failed == old(failed)
    {
      if |nodes| >= MAX_NODES {
        failed := true;
        return -1;
      }
      idx := |nodes|;
      nodes := nodes + [Node(kind, n, s, op, child)];
    }

    /** A node without children. */
    method NewLeaf(ghost t: Tree, kind: Kind, n: int, s: string, ghost ts: seq<Token>) returns (idx: int)
      requires t == Tree(kind, n, s, NoOp, []) && !IsPost(kind) && At(ts)
      modifies this`nodes, this`failed
      ensures Built(Got(t, ts), old(nodes), idx)
    {
      Leaf(nodes, t);
      idx := NewNode(kind, n, s, NoOp, []);
    }

    /** A node whose children come after it. */
    method NewHeader(kind: Kind, s: string) returns (idx: int)
      requires !IsPost(kind)
      modifies this`nodes, this`failed
      ensures |old(nodes)| >= MAX_NODES ==> idx < 0 && failed
      ensures |old(nodes)| < MAX_NODES ==> idx == |old(nodes)| && Under(nodes, old(nodes), Tree(kind, 0, s, NoOp, []))
    {
      Leaf(nodes, Tree(kind, 0, s, NoOp, []));
      idx := NewNode(kind, 0, s, NoOp, []);
    }

    /** A child parsed just now goes under header node n. */
    method AddChild(n: int, idx: int, ghost before: seq<Node>, ghost was: seq<Node>, ghost t: Tree, ghost kid: Tree)
      requires n == |before| && Under(was, before, t) && nodes == was + Layout(kid, |was|) && idx == RootAt(kid, |was|)
      modifies this`nodes
      ensures Under(nodes, before, With(t, kid)) && |was| == |before| + Size(t) && |nodes| == |was| + Size(kid)
    {
      UnderSize(was, before, t);
      AddKid(was, nodes, before, t, kid);
      nodes := nodes[n := nodes[n].(child := nodes[n].child + [idx])];
    }

    // -----------------------------------------------------------------
    // Expressions

    /** parse_primary. */
    method ParsePrimary(ghost ts: seq<Token>) returns (idx: int)
      requires At(ts)
      modifies this
      ensures Built(Primary(ts), old(nodes), idx)
      decreases |ts|, 0
    {
      var t := Peek(ts);
      if IsLiteralTok(t) {
        Advance(ts);
        LiteralPrimary(ts);
        idx := LiteralNode(t, Tail(ts));
      } else if t.IdentTok? {
        Advance(ts);
        idx := ParseName(t.s, ts);
      } else if t == LParen {
        Advance(ts);
        idx := ParseParens(ts);
      } else {
        failed := true;
        idx := -1;
      }
    }

    method LiteralNode(t: Token, ghost rest: seq<Token>) returns (idx: int)
      requires IsLiteralTok(t) && At(rest)
      modifies this`nodes, this`failed
      ensures Built(Got(LiteralTree(t), rest), old(nodes), idx)
    {
      if t.IntTok? {
        idx := NewLeaf(IntLit(t.n), KInt, t.n, "", rest);
      } else if t.StrTok? {
        idx := NewLeaf(StrLit(t.s), KStr, 0, t.s, rest);
      } else {
        idx := NewLeaf(BoolLit(t == TrueTok), KBool, if t == TrueTok then 1 else 0, "", rest);
      }
    }

    /** A name, or a call when a parenthesis follows it. */
    method ParseName(x: string, ghost ts: seq<Token>) returns (idx: int)
      requires Stream(ts) && ts[0] == IdentTok(x) && At(Tail(ts))
      modifies this
      ensures Built(Primary(ts), old(nodes), idx)
      decreases |ts|, 0, 1
    {
      var open := Match(LParen, Tail(ts));
      if open {
        idx := ParseCall(x, ts);
      } else {
        idx := NewLeaf(VarRef(x), KVar, 0, x, Tail(ts));
      }
    }

    /** An expression in parentheses, after the opening one. */
    method ParseParens(ghost ts: seq<Token>) returns (idx: int)
      requires Stream(ts) && ts[0] == LParen && At(Tail(ts))
      modifies this
      ensures Built(Primary(ts), old(nodes), idx)
      decreases |ts|, 0, 0
    {
      idx := ParseLevel(1, Tail(ts));
      if idx < 0 {
        return;
      }
      var ok := Expect(RParen, Level(1, Tail(ts)).rest);
      if !ok {
        idx := -1;
      }
    }

    /** A call, after its opening parenthesis. */
    method ParseCall(x: string, ghost ts: seq<Token>) returns (idx: int)
      requires Stream(ts) && ts[0] == IdentTok(x) && Tail(ts)[0] == LParen && At(Tail(Tail(ts)))
      modifies this
      ensures Built(Primary(ts), old(nodes), idx)
      decreases |ts|, 0, 0
    {
      ghost var before := nodes;
      idx := NewHeader(CallKind(x), x);
      if idx < 0 {
        return;
      }
      ghost var a := Args([], Tail(Tail(ts)));
      var ok := ParseArgs(idx, before, x, Tail(Tail(ts)));
      if !ok {
        return -1;
      }
      ok := Expect(RParen, a.rest);
      if !ok {
        idx := -1;
      }
    }

    /** One turn of the argument loop: an argument, and perhaps a comma after it. */
    method ParseArg(n: int, ghost before: seq<Node>, ghost x: string, ghost args: seq<Tree>,
        ghost ts: seq<Token>) returns (ok: bool, more: bool)
      requires At(ts) && ts[0] != RParen && ts[0] != Eof && n == |before| && Under(nodes, before, CallTree(x, args))
      modifies this
      ensures var p := Level(1, ts);
              if Over(p, |before| + Size(CallTree(x, args))) || |args| >= MAX_CHILDREN then !ok && failed
              else
                ok && Under(nodes, before, CallTree(x, args + [p.t])) && |nodes| <= MAX_NODES &&
                At(Skip(p.rest, Comma)) &&
                more == (p.rest[0] == Comma)
      decreases |ts|, 10
    {
      ghost var was, p := nodes, Level(1, ts);
      UnderSize(nodes, before, CallTree(x, args));
      var arg := ParseLevel(1, ts);
      if arg < 0 {
        return false, false;
      }
      UnderHead(was, nodes, before, CallTree(x, args), Layout(p.t, |was|));
      if |nodes[n].child| >= MAX_CHILDREN {
        failed := true;
        return false, false;
      }
      AddChild(n, arg, before, was, CallTree(x, args), p.t);
      more := Match(Comma, p.rest);
      ok := true;
    }

    /** The same, with what the grammar's loop makes of it. */
    method ArgTurn(n: int, ghost before: seq<Node>, ghost x: string, ghost args: seq<Tree>,
        ghost ts: seq<Token>) returns (ok: bool, more: bool)
      requires At(ts) && ts[0] != RParen && ts[0] != Eof && n == |before| && Under(nodes, before, CallTree(x, args))
      modifies this
      ensures !ok ==> failed && OverAll(Args(args, ts), |before| + 1)
      ensures var p := Level(1, ts);
              ok ==> p.Got? && Under(nodes, before, CallTree(x, args + [p.t])) && |nodes| <= MAX_NODES &&
                     At(Skip(p.rest, Comma)) &&
                     Args(args, ts) == if more then Args(args + [p.t], Skip(p.rest, Comma))
                         else GotAll(args + [p.t], Skip(p.rest, Comma))
      decreases |ts|, 15
    {
      ok, more := ParseArg(n, before, x, args, ts);
      if ok {
        ArgsTurn(args, ts);
      } else {
        ArgOver(x, args, ts, |before|);
      }
    }

    /** The argument loop of a call. */
    method ParseArgs(n: int, ghost before: seq<Node>, ghost x: string, ghost ts: seq<Token>) returns (ok: bool)
      requires At(ts) && n == |before| < MAX_NODES && Under(nodes, before, CallTree(x, []))
      modifies this
      ensures var a := Args([], ts);
              if OverAll(a, |before| + 1) then !ok && failed
              else ok && Under(nodes, before, CallTree(x, a.all)) && At(a.rest)
      decreases |ts|, 20
    {
      ghost var goal, args, cur := Args([], ts), [], ts;
      UnderSize(nodes, before, CallTree(x, args));
      var more := true;
      while more && tokens[pos] != RParen && tokens[pos] != Eof
        invariant At(cur) && |cur| <= |ts| && Under(nodes, before, CallTree(x, args)) && |nodes| <= MAX_NODES
        invariant goal == if more then Args(args, cur) else GotAll(args, cur)
        decreases |cur|, more
      {
        ghost var p := Level(1, cur);
        ok, more := ArgTurn(n, before, x, args, cur);
        if !ok {
          return;
        }
        args, cur := args + [p.t], Skip(p.rest, Comma);
      }
      UnderSize(nodes, before, CallTree(x, args));
      ok := true;
    }

    /** parse_unary. */
    method ParseUnary(ghost ts: seq<Token>) returns (idx: int)
      requires At(ts)
      modifies this
      ensures Built(Unary(ts), old(nodes), idx)
      decreases |ts|, 1
    {
      var t := Peek(ts);
      if t.OpTok? && IsUnary(t.op) {
        ghost var before := nodes;
        Advance(ts);
        var operand := ParseUnary(Tail(ts));
        if operand < 0 {
          return -1;
        }
        UnLaid(before, t.op, Unary(Tail(ts)).t);
        idx := NewNode(KUnop, 0, "", t.op, [operand]);
      } else {
        idx := ParsePrimary(ts);
      }
    }

    /**
      parse_or, parse_and, parse_cmp, parse_add and parse_mul, which differ only
      in their operators and the level below.
     */
    method ParseLevel(k: nat, ghost ts: seq<Token>) returns (idx: int)
      requires At(ts) && 1 <= k <= 6
      modifies this
      ensures Built(Level(k, ts), old(nodes), idx)
      decreases |ts|, 8 - k
    {
      if k == 6 {
        idx := ParseUnary(ts);
        return;
      }
      ghost var before := nodes;
      idx := ParseLevel(k + 1, ts);
      if idx < 0 {
        LeftOver(k, ts, |before|);
        return;
      }
      ghost var left, cur := Level(k + 1, ts).t, Level(k + 1, ts).rest;
      ghost var goal := Level(k, ts);
      while IsOpOf(tokens[pos], k)
        invariant At(cur) && |cur| < |ts| && goal == Chain(k, left, cur)
        invariant Built(Got(left, cur), before, idx) && idx >= 0
        decreases |cur|
      {
        ghost var p := Level(k + 1, Tail(cur));
        idx := ParseOperand(k, idx, before, left, cur);
        if idx < 0 {
          ChainOver(k, left, cur, |before|);
          return;
        }
        left, cur := BinTree(cur[0].op, left, p.t), p.rest;
      }
    }

    /** An operator, its right operand, and the node over both. */
    method ParseOperand(k: nat, l: int, ghost before: seq<Node>, ghost left: Tree,
        ghost ts: seq<Token>) returns (idx: int)
      requires At(ts) && 1 <= k <= 5 && IsOpOf(ts[0], k) && Built(Got(left, ts), before, l) && l >= 0
      modifies this
      ensures var p := Level(k + 1, Tail(ts));
              if Over(p, |before| + Size(left) + 1) then idx < 0 && failed
              else Built(Got(BinTree(ts[0].op, left, p.t), p.rest), before, idx) && idx >= 0
      decreases |ts|, 0
    {
      var t := Peek(ts);
      Advance(ts);
      ghost var p := Level(k + 1, Tail(ts));
      var right := ParseLevel(k + 1, Tail(ts));
      if right < 0 {
        return -1;
      }
      idx := BinNode(t.op, l, right, before, left, p);
    }

    /** The node over two operands that have been laid out. */
    method BinNode(op: Op, l: int, r: int, ghost before: seq<Node>, ghost left: Tree,
        ghost p: Parsed) returns (idx: int)
      requires p.Got? && nodes == (before + Layout(left, |before|)) + Layout(p.t, |before| + Size(left))
      requires l == RootAt(left, |before|) && r == RootAt(p.t, |before| + Size(left)) && At(p.rest)
      modifies this`nodes, this`failed
      ensures if |before| + Size(left) + Size(p.t) >= MAX_NODES then idx < 0 && failed
              else Built(Got(BinTree(op, left, p.t), p.rest), before, idx) && idx >= 0
    {
      BinLayout(op, left, p.t, |before|);
      Glue(before, Layout(left, |before|), Layout(p.t, |before| + Size(left)), [Node(KBinop, 0, "", op, [l, r])]);
      BinSize(op, left, p.t);
      idx := NewNode(KBinop, 0, "", op, [l, r]);
    }

    // -----------------------------------------------------------------
    // Children of header nodes

    /** What was parsed just now goes under header node n. */
    method Adopt(n: int, idx: int, ghost before: seq<Node>, ghost was: seq<Node>, ghost t: Tree,
        ghost p: Parsed) returns (ok: bool)
      requires n == |before| && Under(was, before, t) && Built(p, was, idx)
      modifies this`nodes
      ensures Grown(Added(t, p), before, ok)
    {
      UnderSize(was, before, t);
      AddedFits(t, p, |before|);
      if idx < 0 {
        return false;
      }
      AddChild(n, idx, before, was, t, p.t);
      ok := true;
    }

    /** An expression as the next child of header n. */
    method ExprChild(n: int, ghost before: seq<Node>, ghost t: Tree, ghost ts: seq<Token>) returns (ok: bool)
      requires At(ts) && n == |before| && Under(nodes, before, t)
      modifies this
      ensures Grown(Added(t, Expr(ts)), before, ok)
    {
      ghost var was := nodes;
      var e := ParseLevel(1, ts);
      ok := Adopt(n, e, before, was, t, Expr(ts));
    }

    /** ':' , perhaps a newline, and a block as the next child of header n. */
    method BlockChild(n: int, ghost before: seq<Node>, ghost t: Tree, ghost ts: seq<Token>) returns (ok: bool)
      requires At(ts) && n == |before| && Under(nodes, before, t)
      modifies this
      ensures Grown(Added(t, ColonBlock(ts)), before, ok)
      decreases |ts|, 4
    {
      ok := Expect(Colon, ts);
      if ok {
        ghost var was := nodes;
        var line := Match(Newline, Tail(ts));
        var b := ParseBlock(Skip(Tail(ts), Newline));
        ok := Adopt(n, b, before, was, t, Block(Skip(Tail(ts), Newline)));
      }
    }

    /** A condition or iterable and its block as the next children of header n. */
    method HeadChildren(n: int, ghost before: seq<Node>, ghost t: Tree, ghost ts: seq<Token>) returns (ok: bool)
      requires At(ts) && n == |before| && Under(nodes, before, t)
      modifies this
      ensures Grown(Headed(t, ts), before, ok)
      decreases |ts|, 5
    {
      ghost var e := Expr(ts);
      ok := ExprChild(n, before, t, ts);
      if ok {
        ok := BlockChild(n, before, With(t, e.t), e.rest);
      } else {
        HeadedOver(t, ts, |before|);
      }
    }

    // -----------------------------------------------------------------
    // Blocks

    /** One statement of a block, and the blank lines after it. */
    method StmtChild(n: int, ghost before: seq<Node>, ghost all: seq<Tree>, ghost ts: seq<Token>) returns (ok: bool)
      requires At(ts) && n == |before| && Under(nodes, before, BlockTree(all))
      modifies this
      ensures var p := Stmt(ts);
              if Over(p, |before| + Size(BlockTree(all))) || |all| >= MAX_CHILDREN then !ok && failed
              else
                ok && Under(nodes, before, BlockTree(all + [p.t])) && |nodes| <= MAX_NODES &&
                At(SkipNewlines(p.rest))
      decreases |ts|, 9, 0
    {
      ghost var was, p := nodes, Stmt(ts);
      UnderSize(nodes, before, BlockTree(all));
      var st := ParseStmt(ts);
      if st < 0 {
        return false;
      }
      UnderHead(was, nodes, before, BlockTree(all), Layout(p.t, |was|));
      if |nodes[n].child| >= MAX_CHILDREN {
        failed := true;
        return false;
      }
      AddChild(n, st, before, was, BlockTree(all), p.t);
      SkipBlank(p.rest);
      ok := true;
    }

    /** One turn of the statement loop of parse_block. */
    method BlockTurn(n: int, ghost before: seq<Node>, ghost all: seq<Tree>, ghost ts: seq<Token>) returns (ok: bool)
      requires At(ts) && ts[0] != Dedent && ts[0] != Eof && n == |before| && Under(nodes, before, BlockTree(all))
      modifies this
      ensures !ok ==> failed && OverAll(Stmts(all, ts), |before| + 1)
      ensures ok ==> Stmt(ts).Got? && Stmts(all, ts) == Stmts(all + [Stmt(ts).t], SkipNewlines(Stmt(ts).rest))
      ensures ok ==>
                Under(nodes, before, BlockTree(all + [Stmt(ts).t])) && |nodes| <= MAX_NODES &&
                At(SkipNewlines(Stmt(ts).rest))
      decreases |ts|, 9, 1
    {
      ok := StmtChild(n, before, all, ts);
      if ok {
        StmtsTurn(all, ts);
      } else {
        StmtOver(all, ts, |before|);
      }
    }

    /** The statement loop of parse_block. */
    method ParseStmts(n: int, ghost before: seq<Node>, ghost ts: seq<Token>) returns (ok: bool)
      requires At(ts) && n == |before| < MAX_NODES && Under(nodes, before, BlockTree([]))
      modifies this
      ensures var a := Stmts([], ts);
              if OverAll(a, |before| + 1) then !ok && failed
              else ok && Under(nodes, before, BlockTree(a.all)) && At(a.rest)
      decreases |ts|, 10
    {
      ghost var goal, all, cur := Stmts([], ts), [], ts;
      UnderSize(nodes, before, BlockTree(all));
      while tokens[pos] != Dedent && tokens[pos] != Eof
        invariant At(cur) && |cur| <= |ts| && Under(nodes, before, BlockTree(all)) && |nodes| <= MAX_NODES
        invariant goal == Stmts(all, cur)
        decreases |cur|
      {
        ghost var p := Stmt(cur);
        ok := BlockTurn(n, before, all, cur);
        if !ok {
          return;
        }
        all, cur := all + [p.t], SkipNewlines(p.rest);
      }
      UnderSize(nodes, before, BlockTree(all));
      ok := true;
    }

    /** parse_block. */
    method ParseBlock(ghost ts: seq<Token>) returns (idx: int)
      requires At(ts)
      modifies this
      ensures Built(Block(ts), old(nodes), idx)
      decreases |ts|, 3
    {
      ghost var before := nodes;
      var ok := Expect(Indent, ts);
      if !ok {
        return -1;
      }
      idx := NewHeader(KBlock, "");
      if idx < 0 {
        return;
      }
      SkipBlank(Tail(ts));
      ghost var a := Stmts([], SkipNewlines(Tail(ts)));
      ok := ParseStmts(idx, before, SkipNewlines(Tail(ts)));
      if !ok {
        return -1;
      }
      var end := Match(Dedent, a.rest);
    }

    // -----------------------------------------------------------------
    // Statements

    /** parse_stmt. */
    method ParseStmt(ghost ts: seq<Token>) returns (idx: int)
      requires At(ts)
      modifies this
      ensures Built(Stmt(ts), old(nodes), idx)
      decreases |ts|, 8
    {
      var t := Peek(ts);
      if t == DefTok || t == IfTok || t == ElifTok || t == WhileTok || t == ForTok {
        idx := ParseCompound(t, ts);
      } else if t == ReturnTok || t == BreakTok || t == ContinueTok {
        JumpStmt(ts);
        idx := ParseJump(t, ts);
      } else {
        SimpleStmt(ts);
        idx := ParseSimple(ts);
      }
    }

    /** Statements with a block. */
    method ParseCompound(t: Token, ghost ts: seq<Token>) returns (idx: int)
      requires At(ts) && ts[0] == t && (t == DefTok || t == IfTok || t == ElifTok || t == WhileTok || t == ForTok)
      modifies this
      ensures Built(Stmt(ts), old(nodes), idx)
      decreases |ts|, 7, 1
    {
      Advance(ts);
      if t == DefTok {
        DefStmt(ts);
        idx := ParseDef(Tail(ts));
      } else if t == WhileTok {
        idx := ParseWhile(ts);
      } else if t == ForTok {
        ForStmt(ts);
        idx := ParseFor(Tail(ts));
      } else {
        IfStmt(ts);
        idx := ParseIf(Tail(ts));
      }
    }

    /** return, break and continue. */
    method ParseJump(t: Token, ghost ts: seq<Token>) returns (idx: int)
      requires At(ts) && ts[0] == t && (t == ReturnTok || t == BreakTok || t == ContinueTok)
      modifies this
      ensures Built(Jump(t, Tail(ts)), old(nodes), idx)
    {
      Advance(ts);
      if t == ReturnTok {
        idx := ParseReturn(Tail(ts));
      } else {
        idx := ParseBreak(if t == BreakTok then KBreak else KContinue, Tail(ts));
      }
    }

    method ParseBreak(kind: Kind, ghost ts: seq<Token>) returns (idx: int)
      requires At(ts) && (kind == KBreak || kind == KContinue)
      modifies this
      ensures Built(Got(JumpTree(kind), Skip(ts, Newline)), old(nodes), idx)
    {
      var line := Match(Newline, ts);
      idx := NewLeaf(JumpTree(kind), kind, 0, "", Skip(ts, Newline));
    }

    method ParseReturn(ghost ts: seq<Token>) returns (idx: int)
      requires At(ts)
      modifies this
      ensures Built(ReturnRest(ts), old(nodes), idx)
    {
      ghost var before := nodes;
      idx := NewHeader(KReturn, "");
      if idx < 0 {
        return;
      }
      if tokens[pos] != Newline && tokens[pos] != Eof {
        ghost var e := Expr(ts);
        if e.Got? {
          WithSize(ReturnTree([]), e.t);
          assert With(ReturnTree([]), e.t) == ReturnTree([e.t]);
        }
        var ok := ExprChild(idx, before, ReturnTree([]), ts);
        if !ok {
          return -1;
        }
        var line := Match(Newline, e.rest);
      } else {
        var line := Match(Newline, ts);
      }
    }

    method ParseWhile(ghost ts: seq<Token>) returns (idx: int)
      requires Stream(ts) && ts[0] == WhileTok && At(Tail(ts))
      modifies this
      ensures Built(Stmt(ts), old(nodes), idx)
      decreases |ts|, 7, 0
    {
      WhileHeaded(ts);
      idx := HeadedNode(KWhile, "", Tail(ts));
    }

    /** A header node, then its condition or iterable and its block. */
    method HeadedNode(kind: Kind, s: string, ghost ts: seq<Token>) returns (idx: int)
      requires At(ts) && !IsPost(kind)
      modifies this
      ensures Built(Headed(Tree(kind, 0, s, NoOp, []), ts), old(nodes), idx)
      decreases |ts|, 6
    {
      ghost var before := nodes;
      idx := NewHeader(kind, s);
      if idx < 0 {
        return;
      }
      var ok := HeadChildren(idx, before, Tree(kind, 0, s, NoOp, []), ts);
      Done(Headed(Tree(kind, 0, s, NoOp, []), ts), before, ok);
      if !ok {
        idx := -1;
      }
    }

    method ParseFor(ghost ts: seq<Token>) returns (idx: int)
      requires At(ts)
      modifies this
      ensures Built(For(ts), old(nodes), idx)
      decreases |ts|, 6
    {
      var name := Peek(ts);
      if !name.IdentTok? {
        failed := true;
        return -1;
      }
      Advance(ts);
      idx := ForRest(name, ts);
    }

    /** A for statement after its variable. */
    method ForRest(name: Token, ghost ts: seq<Token>) returns (idx: int)
      requires Stream(ts) && ts[0] == name && name.IdentTok? && At(Tail(ts))
      modifies this
      ensures Built(For(ts), old(nodes), idx)
      decreases |ts|, 5
    {
      var ok := Expect(InTok, Tail(ts));
      if !ok {
        return -1;
      }
      ForHeaded(ts);
      idx := HeadedNode(KFor, name.s, Tail(Tail(ts)));
    }

    method ParseIf(ghost ts: seq<Token>) returns (idx: int)
      requires At(ts)
      modifies this
      ensures Built(If(ts), old(nodes), idx)
      decreases |ts|, 6
    {
      ghost var before, h := nodes, Headed(IfTree([]), ts);
      IfHeaded(ts, |before|);
      idx := NewHeader(KIf, "");
      if idx < 0 {
        return;
      }
      var ok := HeadChildren(idx, before, IfTree([]), ts);
      if !ok {
        return -1;
      }
      SkipBlank(h.rest);
      ok := Branch(idx, before, h.t, SkipNewlines(h.rest));
      Done(If(ts), before, ok);
      if !ok {
        idx := -1;
      }
    }

    /** What may follow the first block of an if: an elif, an else, or nothing. */
    method Branch(n: int, ghost before: seq<Node>, ghost t: Tree, ghost ts: seq<Token>) returns (ok: bool)
      requires At(ts) && n == |before| && Under(nodes, before, t) && |before| + Size(t) <= MAX_NODES
      modifies this
      ensures Grown(Branched(t, ts), before, ok)
      decreases |ts|, 8
    {
      var elif := Match(ElifTok, ts);
      if elif {
        ok := ElifChild(n, before, t, Tail(ts));
        return;
      }
      ok := true;
      var els := Match(ElseTok, ts);
      if els {
        ok := BlockChild(n, before, t, Tail(ts));
      }
    }

    /** An elif as the next child of header n. */
    method ElifChild(n: int, ghost before: seq<Node>, ghost t: Tree, ghost ts: seq<Token>) returns (ok: bool)
      requires At(ts) && n == |before| && Under(nodes, before, t)
      modifies this
      ensures Grown(Added(t, If(ts)), before, ok)
      decreases |ts|, 7
    {
      ghost var was := nodes;
      var e := ParseIf(ts);
      ok := Adopt(n, e, before, was, t, If(ts));
    }

    /** The parameter loop of a def. */
    method ParseParams(n: int, ghost before: seq<Node>, ghost f: string, ghost ts: seq<Token>) returns (ok: bool)
      requires At(ts) && n == |before| < MAX_NODES && Under(nodes, before, DefTree(f, []))
      modifies this
      ensures var a := ParamList([], ts);
              if OverAll(a, |before| + 1) then !ok && failed
              else ok && Under(nodes, before, DefTree(f, a.all)) && At(a.rest)
    {
      ghost var goal, ps, cur := ParamList([], ts), [], ts;
      var more := true;
      while more && tokens[pos] != RParen && tokens[pos] != Eof
        invariant At(cur) && Under(nodes, before, DefTree(f, ps)) && |before| + Size(DefTree(f, ps)) <= MAX_NODES
        invariant goal == if more then ParamList(ps, cur) else GotAll(ps, cur)
        decreases |cur|, more
      {
        ok, more := ParseParam(n, before, f, ps, cur);
        if !ok {
          NameOver(ps, cur, |before| + 1);
          return;
        }
        ps, cur := ps + [VarRef(cur[0].s)], Skip(Tail(cur), Comma);
        UnderSize(nodes, before, DefTree(f, ps));
      }
      ok := true;
    }

    method ParseParam(n: int, ghost before: seq<Node>, ghost f: string, ghost ps: seq<Tree>,
        ghost ts: seq<Token>) returns (ok: bool, more: bool)
      requires At(ts) && ts[0] != RParen && ts[0] != Eof && n == |before| && Under(nodes, before, DefTree(f, ps))
      modifies this
      ensures if !ts[0].IdentTok? || |before| + Size(DefTree(f, ps)) + 1 > MAX_NODES then !ok && failed
              else ok && Under(nodes, before, DefTree(f, ps + [VarRef(ts[0].s)])) && |nodes| <= MAX_NODES &&
                   At(Skip(Tail(ts), Comma)) && more == (Tail(ts)[0] == Comma)
    {
      ok, more := false, false;
      var param := Peek(ts);
      if !param.IdentTok? {
        failed := true;
        return;
      }
      Advance(ts);
      ghost var was, t := nodes, VarRef(param.s);
      UnderSize(nodes, before, DefTree(f, ps));
      var pn := NewLeaf(t, KVar, 0, param.s, Tail(ts));
      assert Size(t) == 1;
      if pn < 0 {
        return;
      }
      AddChild(n, pn, before, was, DefTree(f, ps), t);
      more := Match(Comma, Tail(ts));
      ok := true;
    }

    method ParseDef(ghost ts: seq<Token>) returns (idx: int)
      requires At(ts)
      modifies this
      ensures Built(Def(ts), old(nodes), idx)
      decreases |ts|, 6
    {
      ghost var before := nodes;
      var name := Peek(ts);
      if !name.IdentTok? {
        failed := true;
        return -1;
      }
      Advance(ts);
      idx := NewHeader(KDef, name.s);
      if idx < 0 {
        return;
      }
      var ok := Expect(LParen, Tail(ts));
      if !ok {
        return -1;
      }
      ghost var a := ParamList([], Tail(Tail(ts)));
      ok := ParseParams(idx, before, name.s, Tail(Tail(ts)));
      if !ok {
        DefOver(ts, |before|);
        return -1;
      }
      DefIs(ts);
      ok := Close(idx, before, DefTree(name.s, a.all), a.rest);
      Done(Def(ts), before, ok);
      if !ok {
        idx := -1;
      }
    }

    /** The closing parenthesis and the body of a def. */
    method Close(n: int, ghost before: seq<Node>, ghost t: Tree, ghost ts: seq<Token>) returns (ok: bool)
      requires At(ts) && n == |before| && Under(nodes, before, t)
      modifies this
      ensures Grown(Closed(t, ts), before, ok)
      decreases |ts|, 5
    {
      ok := Expect(RParen, ts);
      if ok {
        ok := BlockChild(n, before, t, Tail(ts));
      }
    }

    /** An assignment or an expression statement. */
    method ParseSimple(ghost ts: seq<Token>) returns (idx: int)
      requires At(ts)
      modifies this
      ensures Built(Simple(ts), old(nodes), idx)
    {
      var t := Peek(ts);
      var assigns := AtAssign(ts);
      assert Simple(ts) == if assigns then AssignRest(t.s, Tail(Tail(ts))) else ExprLine(ts);
      if assigns {
        idx := ParseAssign(t.s, ts);
      } else {
        idx := ParseExprLine(ts);
      }
    }

    /** A name and an assignment sign come next. */
    method AtAssign(ghost ts: seq<Token>) returns (b: bool)
      requires At(ts)
      ensures b == (ts[0].IdentTok? && Tail(ts)[0] == AssignTok)
    {
      b := tokens[pos].IdentTok? && pos + 1 < |tokens| && tokens[pos + 1] == AssignTok;
    }

    method ParseExprLine(ghost ts: seq<Token>) returns (idx: int)
      requires At(ts)
      modifies this
      ensures Built(ExprLine(ts), old(nodes), idx)
    {
      idx := ParseLevel(1, ts);
      if idx >= 0 {
        var line := Match(Newline, Expr(ts).rest);
      }
    }

    method ParseAssign(x: string, ghost ts: seq<Token>) returns (idx: int)
      requires At(ts) && ts[0] == IdentTok(x) && Tail(ts)[0] == AssignTok
      modifies this
      ensures Built(AssignRest(x, Tail(Tail(ts))), old(nodes), idx)
    {
      ghost var before, t, e := nodes, Tree(KAssign, 0, x, NoOp, []), Expr(Tail(Tail(ts)));
      Advance(ts);
      Advance(Tail(ts));
      idx := NewHeader(KAssign, x);
      if idx < 0 {
        return;
      }
      if e.Got? {
        AssignHeaded(x, e.t);
      }
      var ok := ExprChild(idx, before, t, Tail(Tail(ts)));
      if !ok {
        return -1;
      }
      var line := Match(Newline, e.rest);
    }

    // -----------------------------------------------------------------
    // Programs

    /** One turn of the statement loop of gk_parse. */
    method ProgramTurn(ghost all: seq<Tree>, ghost ts: seq<Token>) returns (ok: bool)
      requires At(ts) && ts[0] != Eof && Under(nodes, [], BlockTree(all))
      modifies this
      ensures !ok ==> failed && OverAll(TopStmts(all, ts), 1)
      ensures ok ==> Stmt(ts).Got? && TopStmts(all, ts) == TopStmts(all + [Stmt(ts).t], SkipNewlines(Stmt(ts).rest))
      ensures ok ==>
                Under(nodes, [], BlockTree(all + [Stmt(ts).t])) && |nodes| <= MAX_NODES &&
                At(SkipNewlines(Stmt(ts).rest))
    {
      ok := StmtChild(0, [], all, ts);
      if ok {
        TopTurn(all, ts);
      } else {
        TopOver(all, ts, 0);
      }
    }

    /** The statement loop of gk_parse. */
    method ParseTop(ghost ts: seq<Token>) returns (ok: bool)
      requires At(ts) && Under(nodes, [], BlockTree([]))
      modifies this
      ensures var a := TopStmts([], ts);
              if OverAll(a, 1) then !ok && failed else ok && Under(nodes, [], BlockTree(a.all))
    {
      ghost var goal, all, cur := TopStmts([], ts), [], ts;
      UnderSize(nodes, [], BlockTree(all));
      while tokens[pos] != Eof
        invariant At(cur) && Under(nodes, [], BlockTree(all)) && |nodes| <= MAX_NODES
        invariant goal == TopStmts(all, cur)
        decreases |cur|
      {
        ghost var p := Stmt(cur);
        ok := ProgramTurn(all, cur);
        if !ok {
          return;
        }
        all, cur := all + [p.t], SkipNewlines(p.rest);
      }
      UnderSize(nodes, [], BlockTree(all));
      ok := true;
    }

    /** gk_parse: the arena gets the tree of the program exactly when the grammar gives one and it fits. */
    method Parse() returns (root: int)
      requires Stream(tokens)
      modifies this
      ensures var p := Program(tokens);
              if p.Got? && Size(p.t) <= MAX_NODES then root == 0 && nodes == Layout(p.t, 0) else root < 0 && failed
    {
      nodes, pos := [], 0;
      root := NewHeader(KBlock, "");
      SkipBlank(tokens);
      var ok := ParseTop(SkipNewlines(tokens));
      if !ok {
        root := -1;
      }
    }
  }

  predicate IsLiteralTok(t: Token) {
    t.IntTok? || t.StrTok? || t == TrueTok || t == FalseTok
  }

  function LiteralTree(t: Token): Tree
    requires IsLiteralTok(t)
  {
    if t.IntTok? then IntLit(t.n) else if t.StrTok? then StrLit(t.s) else BoolLit(t == TrueTok)
  }

  lemma {:induction false} LiteralPrimary(ts: seq<Token>)
    requires Stream(ts) && IsLiteralTok(ts[0])
    ensures Primary(ts) == Got(LiteralTree(ts[0]), Tail(ts))
  {
  }

  lemma SimpleStmt(ts: seq<Token>)
    requires Stream(ts) && ts[0] != ReturnTok && ts[0] != BreakTok && ts[0] != ContinueTok && ts[0] != DefTok
    requires ts[0] != IfTok && ts[0] != ElifTok && ts[0] != WhileTok && ts[0] != ForTok
    ensures Stmt(ts) == Simple(ts)
  {
  }

  lemma JumpStmt(ts: seq<Token>)
    requires Stream(ts) && (ts[0] == ReturnTok || ts[0] == BreakTok || ts[0] == ContinueTok)
    ensures Stmt(ts) == Jump(ts[0], Tail(ts))
  {
    assert ts[0].ReturnTok? || ts[0].BreakTok? || ts[0].ContinueTok?;
  }
}
