// Printing trees with no more parentheses than the precedences ask for, and
// parsing the result: the tree comes back.

module GkPrinter {
  import opened GkSyntax
  import opened GkGrammar

  // ---------------------------------------------------------------------
  // Expressions

  /** How tightly the outermost construct of an expression binds. */
  function Binding(t: Tree): (k: nat)
    requires IsExpr(t)
    ensures 1 <= k <= 7
  {
    if t.kind == KBinop then (LevelBound(t.op); LevelOf(t.op)) else if t.kind == KUnop then 6 else 7
  }

  lemma LevelBound(op: Op)
    ensures LevelOf(op) <= 5
  {
  }

  /** Expressions that some source text denotes. */
  predicate Canonical(t: Tree) {
    IsExpr(t) &&
    (if t.kind == KInt then t == IntLit(t.n)
     else if t.kind == KStr then t == StrLit(t.s)
     else if t.kind == KBool then t == BoolLit(t.n != 0)
     else if t.kind == KVar then t == VarRef(t.s)
     else if t.kind == KUnop then t == UnTree(t.op, t.kids[0])
     else if t.kind == KBinop then t == BinTree(t.op, t.kids[0], t.kids[1])
     else t == CallTree(t.s, t.kids) && |t.kids| <= MAX_CHILDREN) &&
    forall i :: 0 <= i < |t.kids| ==> Canonical(t.kids[i])
  }

  /** An expression where one that binds at least as tightly as level k is expected. */
  function Show(k: nat, t: Tree): seq<Token>
    requires IsExpr(t) && 1 <= k <= 7
    decreases t, 1
  {
    if Binding(t) < k then [LParen] + Bare(t) + [RParen] else Bare(t)
  }

  function Bare(t: Tree): seq<Token>
    requires IsExpr(t)
    decreases t, 0
  {
    if t.kind == KInt then [IntTok(t.n)]
    else if t.kind == KStr then [StrTok(t.s)]
    else if t.kind == KBool then [if t.n != 0 then TrueTok else FalseTok]
    else if t.kind == KVar then [IdentTok(t.s)]
    else if t.kind == KUnop then [OpTok(t.op)] + Show(6, t.kids[0])
    else if t.kind == KBinop then
      (LevelBound(t.op); Show(LevelOf(t.op), t.kids[0]) + [OpTok(t.op)] + Show(LevelOf(t.op) + 1, t.kids[1]))
    else [IdentTok(t.s)] + ([LParen] + (ShowArgs(t.kids) + [RParen]))
  }

  function ShowArgs(kids: seq<Tree>): seq<Token>
    requires forall i :: 0 <= i < |kids| ==> IsExpr(kids[i])
    decreases kids, 2
  {
    if kids == [] then []
    else if |kids| == 1 then Show(1, kids[0])
    else Show(1, kids[0]) + [Comma] + ShowArgs(kids[1..])
  }

  /** A token that starts an expression. */
  predicate Starts(tok: Token) {
    tok.IntTok? || tok.StrTok? || tok == TrueTok || tok == FalseTok || tok.IdentTok? || tok == LParen ||
    (tok.OpTok? && IsUnary(tok.op))
  }

  lemma {:induction false} BareStarts(t: Tree)
    requires IsExpr(t)
    ensures Bare(t) != [] && Starts(Bare(t)[0])
    ensures t.kind != KUnop && t.kind != KBinop ==> !Bare(t)[0].OpTok? && Bare(t)[0] != LParen
    decreases t, 0
  {
    if t.kind == KBinop {
      ShowStarts(LevelOf(t.op), t.kids[0]);
    }
  }

  lemma {:induction false} ShowStarts(k: nat, t: Tree)
    requires IsExpr(t) && 1 <= k <= 7
    ensures Show(k, t) != [] && Starts(Show(k, t)[0])
    decreases t, 1
  {
    BareStarts(t);
  }

  /** The stream does not go on with an operator of level k or tighter, nor with a call's parenthesis. */
  predicate Stops(k: nat, ts: seq<Token>)
    requires Stream(ts)
  {
    ts[0] != LParen && !(ts[0].OpTok? && LevelOf(ts[0].op) >= k)
  }

  lemma StreamOf(x: seq<Token>, ts: seq<Token>)
    requires Stream(ts)
    ensures Stream(x + ts)
  {
  }

  /** What is left once the first token is gone. */
  lemma TailOf(tok: Token, ts: seq<Token>)
    requires Stream(ts) && tok != Eof
    ensures Stream([tok] + ts) && Tail([tok] + ts) == ts
  {
  }

  /** The first token of a text, and what follows it. */
  lemma Peel(p: Token, x: seq<Token>, rest: seq<Token>)
    requires Stream(rest) && p != Eof
    ensures var ts := ([p] + x) + rest; Stream(ts) && ts[0] == p && Tail(ts) == x + rest && Stream(x + rest)
  {
    assert ([p] + x) + rest == [p] + (x + rest);
  }

  lemma Peel2(p: Token, q: Token, x: seq<Token>, rest: seq<Token>)
    requires Stream(rest) && p != Eof && q != Eof
    ensures var ts := ([p] + ([q] + x)) + rest;
            Stream(ts) && ts[0] == p && Tail(ts)[0] == q && Tail(Tail(ts)) == x + rest
  {
    Peel(p, [q] + x, rest);
    Peel(q, x, rest);
  }

  lemma Peel3(p: Token, q: Token, r: Token, x: seq<Token>, rest: seq<Token>)
    requires Stream(rest) && p != Eof && q != Eof && r != Eof
    ensures var ts := ([p] + ([q] + ([r] + x))) + rest;
            Stream(ts) && ts[0] == p && Tail(ts)[0] == q && Tail(Tail(ts))[0] == r && Tail(Tail(Tail(ts))) == x + rest
  {
    Peel(p, [q] + ([r] + x), rest);
    Peel2(q, r, x, rest);
  }

  /** Parsing at level k what was printed for level k gives the tree back. */
  lemma {:induction false} LevelUndoesShow(k: nat, t: Tree, rest: seq<Token>)
    requires Canonical(t) && 1 <= k <= 6 && Stream(rest) && Stops(k, rest)
    ensures Stream(Show(k, t) + rest) && Level(k, Show(k, t) + rest) == Got(t, rest)
    decreases t, if Binding(t) < k then 1 else 0, 17 - 2 * k
  {
    StreamOf(Show(k, t), rest);
    if k == 6 {
      UnaryUndoesShow(t, rest);
    } else {
      LevelReaches(k, t, rest);
    }
  }

  /** What binds as tightly as the level is printed bare; anything else is printed as at the next level. */
  lemma ShowAt(k: nat, t: Tree)
    requires Canonical(t) && 1 <= k <= 5
    ensures if Binding(t) == k then t.kind == KBinop && LevelOf(t.op) == k && Show(k, t) == Bare(t)
            else Show(k, t) == Show(k + 1, t)
  {
  }

  /** A level starts with one operand of the next level. */
  lemma LevelGoesOn(k: nat, ts: seq<Token>, t: Tree, rest: seq<Token>)
    requires Stream(ts) && Stream(rest) && 1 <= k <= 5 && Level(k + 1, ts) == Got(t, rest)
    ensures Level(k, ts) == Chain(k, t, rest)
  {
  }

  /** Parsing at a binary level reads the printed tree and goes on with the loop of that level. */
  lemma {:induction false} LevelReaches(k: nat, t: Tree, rest: seq<Token>)
    requires Canonical(t) && 1 <= k <= 5 && Stream(rest) && Stops(k + 1, rest)
    ensures Stream(Show(k, t) + rest) && Level(k, Show(k, t) + rest) == Chain(k, t, rest)
    decreases t, if Binding(t) < k then 1 else 0, 16 - 2 * k
  {
    ShowAt(k, t);
    if Binding(t) == k {
      BinopReaches(k, t, rest);
    } else {
      LevelUndoesShow(k + 1, t, rest);
      LevelGoesOn(k, Show(k, t) + rest, t, rest);
    }
  }

  /** An operator of the level and its right operand: the loop goes on. */
  lemma ChainStep(k: nat, op: Op, l: Tree, r: Tree, ts: seq<Token>, rest: seq<Token>)
    requires Stream(ts) && Stream(rest) && 1 <= k <= 5 && ts[0] == OpTok(op) && LevelOf(op) == k &&
             Level(k + 1, Tail(ts)) == Got(r, rest)
    ensures Chain(k, l, ts) == Chain(k, BinTree(op, l, r), rest)
  {
  }

  lemma BinopText(k: nat, t: Tree, rest: seq<Token>)
    requires IsExpr(t) && 1 <= k <= 5 && t.kind == KBinop && LevelOf(t.op) == k
    ensures Bare(t) + rest == Show(k, t.kids[0]) + ([OpTok(t.op)] + (Show(k + 1, t.kids[1]) + rest))
  {
    Concat(Show(k, t.kids[0]), OpTok(t.op), Show(k + 1, t.kids[1]), rest);
  }

  lemma {:induction false} BinopReaches(k: nat, t: Tree, rest: seq<Token>)
    requires Canonical(t) && 1 <= k <= 5 && Stream(rest) && Stops(k + 1, rest) && t.kind == KBinop && LevelOf(t.op) == k
    ensures Stream(Bare(t) + rest) && Level(k, Bare(t) + rest) == Chain(k, t, rest)
    decreases t, 0, 0
  {
    var l, r, op := t.kids[0], t.kids[1], OpTok(t.op);
    var rest1 := [op] + (Show(k + 1, r) + rest);
    StreamOf(Show(k + 1, r), rest);
    TailOf(op, Show(k + 1, r) + rest);
    BinopText(k, t, rest);
    LevelReaches(k, l, rest1);
    LevelUndoesShow(k + 1, r, rest);
    ChainStep(k, t.op, l, r, rest1, rest);
  }

  lemma {:induction false} UnaryUndoesShow(t: Tree, rest: seq<Token>)
    requires Canonical(t) && Stream(rest) && Stops(6, rest)
    ensures Stream(Show(6, t) + rest) && Unary(Show(6, t) + rest) == Got(t, rest)
    decreases t, if Binding(t) < 6 then 1 else 0, 4
  {
    StreamOf(Show(6, t), rest);
    if t.kind == KUnop {
      Peel(OpTok(t.op), Show(6, t.kids[0]), rest);
      UnaryUndoesShow(t.kids[0], rest);
    } else {
      BareStarts(t);
      PrimaryUndoesShow(t, rest);
    }
  }

  lemma LiteralUndone(t: Tree, rest: seq<Token>)
    requires Canonical(t) && Stream(rest) && IsLiteral(t.kind) && Stops(6, rest)
    ensures Stream(Show(6, t) + rest) && Primary(Show(6, t) + rest) == Got(t, rest)
  {
    var tok := Bare(t)[0];
    assert Show(6, t) + rest == [tok] + rest;
    TailOf(tok, rest);
  }

  /** Parsing a primary: a literal, a name, a call, or anything in parentheses. */
  lemma {:induction false} PrimaryUndoesShow(t: Tree, rest: seq<Token>)
    requires Canonical(t) && Stream(rest) && Stops(6, rest) && t.kind != KUnop
    ensures Stream(Show(6, t) + rest) && Primary(Show(6, t) + rest) == Got(t, rest)
    decreases t, if Binding(t) < 6 then 1 else 0, 3
  {
    StreamOf(Show(6, t), rest);
    if t.kind == KBinop {
      ParensUndone(t, rest);
    } else if IsLiteral(t.kind) {
      LiteralUndone(t, rest);
    } else {
      CallUndone(t, rest);
    }
  }

  lemma {:induction false} ParensUndone(t: Tree, rest: seq<Token>)
    requires Canonical(t) && Stream(rest) && t.kind == KBinop
    ensures Stream(Show(6, t) + rest) && Primary(Show(6, t) + rest) == Got(t, rest)
    decreases t, 1, 0
  {
    LevelBound(t.op);
    var rest2 := [RParen] + rest;
    TailOf(RParen, rest);
    Peel(LParen, Bare(t), rest2);
    Regroup2([LParen] + Bare(t), [RParen], rest);
    LevelUndoesShow(1, t, rest2);
    ParensShape(t, Show(6, t) + rest, rest2);
  }

  /** An expression in parentheses. */
  lemma ParensShape(t: Tree, ts: seq<Token>, rest: seq<Token>)
    requires Stream(ts) && Stream(rest) && ts[0] == LParen && Level(1, Tail(ts)) == Got(t, rest) && rest[0] == RParen
    ensures Primary(ts) == Got(t, Tail(rest))
  {
    assert ts[0].LParen?;
  }

  lemma {:induction false} CallUndone(t: Tree, rest: seq<Token>)
    requires Canonical(t) && Stream(rest) && IsCallKind(t.kind)
    ensures Stream(Bare(t) + rest) && Primary(Bare(t) + rest) == Got(t, rest)
    decreases t, 0, 0
  {
    assert AllCanonical(t.kids);
    ArgsUndone([], t.kids, rest);
    Peel2(IdentTok(t.s), LParen, ShowArgs(t.kids) + [RParen], rest);
    Regroup2(ShowArgs(t.kids), [RParen], rest);
    TailOf(RParen, rest);
    CallShape(t.s, t.kids, Bare(t) + rest, [RParen] + rest);
  }

  lemma Regroup2(x: seq<Token>, y: seq<Token>, z: seq<Token>)
    ensures (x + y) + z == x + (y + z)
  {
  }

  /** A name, a parenthesis, arguments, a parenthesis. */
  lemma {:induction false} CallShape(f: string, kids: seq<Tree>, ts: seq<Token>, rest: seq<Token>)
    requires Stream(ts) && Stream(rest) && ts[0] == IdentTok(f) && Tail(ts)[0] == LParen && rest[0] == RParen
    requires Args([], Tail(Tail(ts))) == GotAll([] + kids, rest)
    ensures Primary(ts) == Got(CallTree(f, kids), Tail(rest))
  {
    assert [] + kids == kids;
  }

  predicate AllCanonical(kids: seq<Tree>) {
    forall i :: 0 <= i < |kids| ==> Canonical(kids[i]) && IsExpr(kids[i])
  }

  lemma {:induction false} ArgsUndone(done: seq<Tree>, kids: seq<Tree>, rest: seq<Token>)
    requires Stream(rest) && |done| + |kids| <= MAX_CHILDREN && AllCanonical(kids)
    ensures Stream(ShowArgs(kids) + ([RParen] + rest))
    ensures Args(done, ShowArgs(kids) + ([RParen] + rest)) == GotAll(done + kids, [RParen] + rest)
    decreases kids, 3
  {
    TailOf(RParen, rest);
    StreamOf(ShowArgs(kids), [RParen] + rest);
    if kids == [] {
      assert ShowArgs(kids) + ([RParen] + rest) == [RParen] + rest;
      assert done + kids == done;
    } else if |kids| == 1 {
      LastUndone(done, kids[0], rest);
      assert kids == [kids[0]];
    } else {
      MoreUndone(done, kids, rest);
    }
  }

  lemma {:induction false} LastUndone(done: seq<Tree>, t: Tree, rest: seq<Token>)
    requires Stream(rest) && |done| < MAX_CHILDREN && Canonical(t)
    ensures Stream(Show(1, t) + ([RParen] + rest))
    ensures Args(done, Show(1, t) + ([RParen] + rest)) == GotAll(done + [t], [RParen] + rest)
    decreases t, 2
  {
    TailOf(RParen, rest);
    ShowStarts(1, t);
    LevelUndoesShow(1, t, [RParen] + rest);
    LastArg(done, t, Show(1, t) + ([RParen] + rest), [RParen] + rest);
  }

  lemma {:induction false} FirstUndone(done: seq<Tree>, t: Tree, rest: seq<Token>)
    requires Stream(rest) && |done| < MAX_CHILDREN && Canonical(t)
    ensures Stream(Show(1, t) + ([Comma] + rest))
    ensures Args(done, Show(1, t) + ([Comma] + rest)) == Args(done + [t], rest)
    decreases t, 2
  {
    TailOf(Comma, rest);
    ShowStarts(1, t);
    LevelUndoesShow(1, t, [Comma] + rest);
    NextArg(done, t, Show(1, t) + ([Comma] + rest), rest);
  }

  lemma {:induction false} MoreUndone(done: seq<Tree>, kids: seq<Tree>, rest: seq<Token>)
    requires Stream(rest) && |done| + |kids| <= MAX_CHILDREN && AllCanonical(kids) && |kids| > 1
    ensures Stream(ShowArgs(kids) + ([RParen] + rest))
    ensures Args(done, ShowArgs(kids) + ([RParen] + rest)) == GotAll(done + kids, [RParen] + rest)
    decreases kids, 2
  {
    ArgsUndone(done + [kids[0]], kids[1..], rest);
    FirstUndone(done, kids[0], ShowArgs(kids[1..]) + ([RParen] + rest));
    SplitArgs(kids, [RParen] + rest);
    Regroup(done, kids);
  }

  lemma Regroup(done: seq<Tree>, kids: seq<Tree>)
    requires kids != []
    ensures done + [kids[0]] + kids[1..] == done + kids
  {
  }

  lemma SplitArgs(kids: seq<Tree>, end: seq<Token>)
    requires AllCanonical(kids) && |kids| > 1
    ensures ShowArgs(kids) + end == Show(1, kids[0]) + ([Comma] + (ShowArgs(kids[1..]) + end))
  {
    Concat(Show(1, kids[0]), Comma, ShowArgs(kids[1..]), end);
  }

  lemma Concat(x: seq<Token>, tok: Token, y: seq<Token>, z: seq<Token>)
    ensures x + [tok] + y + z == x + ([tok] + (y + z))
  {
  }

  lemma LastArg(done: seq<Tree>, t: Tree, ts: seq<Token>, rest: seq<Token>)
    requires Stream(ts) && Stream(rest) && Starts(ts[0]) && Level(1, ts) == Got(t, rest) && rest[0] == RParen &&
             |done| < MAX_CHILDREN
    ensures Args(done, ts) == GotAll(done + [t], rest)
  {
  }

  lemma NextArg(done: seq<Tree>, t: Tree, ts: seq<Token>, rest: seq<Token>)
    requires Stream(ts) && Stream(rest) && Starts(ts[0]) && Level(1, ts) == Got(t, [Comma] + rest) &&
             |done| < MAX_CHILDREN
    ensures Args(done, ts) == Args(done + [t], rest)
  {
    TailOf(Comma, rest);
  }

  /** Every expression comes back from its minimal text, whatever follows that is not an operator or a parenthesis. */
  lemma ExprRoundTrip(t: Tree, rest: seq<Token>)
    requires Canonical(t) && Stream(rest) && Stops(1, rest)
    ensures Stream(Show(1, t) + rest) && Expr(Show(1, t) + rest) == Got(t, rest)
  {
    LevelUndoesShow(1, t, rest);
  }
}
