// Which trees the parser gives: exactly those that can be printed.

module GkCanon {
  import opened GkSyntax
  import opened GkGrammar
  import opened GkPrinter
  import opened GkRoundTrip

  // ---------------------------------------------------------------------
  // Expressions

  lemma CallCanon(x: string, kids: seq<Tree>)
    requires AllCanonical(kids) && |kids| <= MAX_CHILDREN
    ensures Canonical(CallTree(x, kids))
  {
  }

  lemma UnCanon(op: Op, e: Tree)
    requires Canonical(e) && IsUnary(op)
    ensures Canonical(UnTree(op, e))
  {
  }

  lemma {:induction false} PrimaryCanon(ts: seq<Token>)
    requires Stream(ts)
    ensures Primary(ts).Got? ==> Canonical(Primary(ts).t)
    decreases |ts|, 0
  {
    if ts[0].IdentTok? && Tail(ts)[0] == LParen {
      ArgsCanon([], Tail(Tail(ts)));
      var a := Args([], Tail(Tail(ts)));
      if a.GotAll? {
        CallCanon(ts[0].s, a.all);
      }
    } else if ts[0] == LParen {
      LevelCanon(1, Tail(ts));
    }
  }

  lemma {:induction false} ArgsCanon(args: seq<Tree>, ts: seq<Token>)
    requires Stream(ts) && AllCanonical(args) && |args| <= MAX_CHILDREN
    ensures Args(args, ts).GotAll? ==> AllCanonical(Args(args, ts).all) && |Args(args, ts).all| <= MAX_CHILDREN
    decreases |ts|, 10
  {
    if ts[0] != RParen && ts[0] != Eof {
      LevelCanon(1, ts);
      var p := Level(1, ts);
      if p.Got? && |args| < MAX_CHILDREN && p.rest[0] == Comma {
        ArgsCanon(args + [p.t], Tail(p.rest));
      }
    }
  }

  lemma {:induction false} UnaryCanon(ts: seq<Token>)
    requires Stream(ts)
    ensures Unary(ts).Got? ==> Canonical(Unary(ts).t)
    decreases |ts|, 1
  {
    if ts[0].OpTok? && IsUnary(ts[0].op) {
      UnaryCanon(Tail(ts));
      if Unary(Tail(ts)).Got? {
        UnCanon(ts[0].op, Unary(Tail(ts)).t);
      }
    } else {
      PrimaryCanon(ts);
    }
  }

  lemma {:induction false} LevelCanon(k: nat, ts: seq<Token>)
    requires Stream(ts) && 1 <= k <= 6
    ensures Level(k, ts).Got? ==> Canonical(Level(k, ts).t)
    decreases |ts|, 8 - k
  {
    if k == 6 {
      UnaryCanon(ts);
    } else {
      LevelCanon(k + 1, ts);
      var p := Level(k + 1, ts);
      if p.Got? {
        ChainCanon(k, p.t, p.rest);
      }
    }
  }

  lemma {:induction false} ChainCanon(k: nat, left: Tree, ts: seq<Token>)
    requires Stream(ts) && 1 <= k <= 5 && Canonical(left)
    ensures Chain(k, left, ts).Got? ==> Canonical(Chain(k, left, ts).t)
    decreases |ts|, 8 - k
  {
    if IsOpOf(ts[0], k) {
      LevelCanon(k + 1, Tail(ts));
      var p := Level(k + 1, Tail(ts));
      if p.Got? {
        ChainCanon(k, BinTree(ts[0].op, left, p.t), p.rest);
      }
    }
  }

  // ---------------------------------------------------------------------
  // Statements

  lemma {:induction false} ColonCanon(ts: seq<Token>)
    requires Stream(ts)
    ensures ColonBlock(ts).Got? ==> CanonBlock(ColonBlock(ts).t)
    decreases |ts|, 4
  {
    if ts[0] == Colon {
      BlockCanon(Skip(Tail(ts), Newline));
    }
  }

  lemma {:induction false} HeadCanon(ts: seq<Token>)
    requires Stream(ts)
    ensures HeadBlock(ts).GotAll? ==> Canonical(HeadBlock(ts).all[0]) && CanonBlock(HeadBlock(ts).all[1])
    decreases |ts|, 5
  {
    LevelCanon(1, ts);
    if Expr(ts).Got? {
      ColonCanon(Expr(ts).rest);
    }
  }

  lemma {:induction false} BlockCanon(ts: seq<Token>)
    requires Stream(ts)
    ensures Block(ts).Got? ==> CanonBlock(Block(ts).t)
    decreases |ts|, 3
  {
    if ts[0] == Indent {
      StmtsCanon([], SkipNewlines(Tail(ts)));
    }
  }

  lemma {:induction false} StmtsCanon(all: seq<Tree>, ts: seq<Token>)
    requires Stream(ts) && AllStmts(all) && |all| <= MAX_CHILDREN
    ensures Stmts(all, ts).GotAll? ==> AllStmts(Stmts(all, ts).all) && |Stmts(all, ts).all| <= MAX_CHILDREN
    decreases |ts|, 9
  {
    if ts[0] != Dedent && ts[0] != Eof {
      StmtCanon(ts);
      var p := Stmt(ts);
      if p.Got? && |all| < MAX_CHILDREN {
        StmtsCanon(all + [p.t], SkipNewlines(p.rest));
      }
    }
  }

  lemma {:induction false} NamesCanon(ps: seq<Tree>, ts: seq<Token>)
    requires Stream(ts) && AllNames(ps)
    ensures ParamList(ps, ts).GotAll? ==> AllNames(ParamList(ps, ts).all)
    decreases |ts|
  {
    if ts[0].IdentTok? && Tail(ts)[0] == Comma {
      NamesCanon(ps + [VarRef(ts[0].s)], Tail(Tail(ts)));
    }
  }

  lemma DefTreeCanon(f: string, ps: seq<Tree>, body: Tree)
    requires AllNames(ps) && CanonBlock(body)
    ensures CanonStmt(DefTree(f, ps + [body]))
  {
    assert (ps + [body])[..|ps|] == ps;
  }

  lemma {:induction false} DefCanon(ts: seq<Token>)
    requires Stream(ts)
    ensures Def(ts).Got? ==> CanonStmt(Def(ts).t)
    decreases |ts|, 6
  {
    if ts[0].IdentTok? && Tail(ts)[0] == LParen {
      var ps := ParamList([], Tail(Tail(ts)));
      NamesCanon([], Tail(Tail(ts)));
      if ps.GotAll? && ps.rest[0] == RParen {
        ColonCanon(Tail(ps.rest));
        var b := ColonBlock(Tail(ps.rest));
        if b.Got? {
          DefTreeCanon(ts[0].s, ps.all, b.t);
        }
      }
    }
  }

  lemma IfTreeCanon(c: Tree, b: Tree, kids: seq<Tree>)
    requires Canonical(c) && CanonBlock(b)
    ensures CanonStmt(IfTree([c, b]))
    ensures |kids| == 1 && (CanonBlock(kids[0]) || (kids[0].kind == KIf && CanonStmt(kids[0]))) ==>
            CanonStmt(IfTree([c, b] + kids))
  {
  }

  lemma {:induction false} IfCanon(ts: seq<Token>)
    requires Stream(ts)
    ensures If(ts).Got? ==> CanonStmt(If(ts).t) && If(ts).t.kind == KIf
    decreases |ts|, 6
  {
    HeadCanon(ts);
    var h := HeadBlock(ts);
    if h.GotAll? {
      assert h.all == [h.all[0], h.all[1]];
      var r := SkipNewlines(h.rest);
      if r[0] == ElifTok {
        IfCanon(Tail(r));
        IfTreeCanon(h.all[0], h.all[1], if If(Tail(r)).Got? then [If(Tail(r)).t] else []);
      } else if r[0] == ElseTok {
        ColonCanon(Tail(r));
        IfTreeCanon(h.all[0], h.all[1], if ColonBlock(Tail(r)).Got? then [ColonBlock(Tail(r)).t] else []);
      } else {
        IfTreeCanon(h.all[0], h.all[1], []);
      }
    }
  }

  lemma SimpleCanon(ts: seq<Token>)
    requires Stream(ts)
    ensures Simple(ts).Got? ==> CanonStmt(Simple(ts).t)
  {
    if ts[0].IdentTok? && Tail(ts)[0] == AssignTok {
      LevelCanon(1, Tail(Tail(ts)));
    } else {
      LevelCanon(1, ts);
    }
  }

  lemma ReturnCanon(ts: seq<Token>)
    requires Stream(ts)
    ensures ReturnRest(ts).Got? ==> CanonStmt(ReturnRest(ts).t)
  {
    LevelCanon(1, ts);
  }

  lemma LoopCanon(x: string, c: Tree, b: Tree)
    requires Canonical(c) && CanonBlock(b)
    ensures CanonStmt(WhileTree(c, b)) && CanonStmt(ForTree(x, c, b))
  {
  }

  lemma {:induction false} LoopsCanon(ts: seq<Token>)
    requires Stream(ts) && (ts[0] == WhileTok || ts[0] == ForTok)
    ensures Stmt(ts).Got? ==> CanonStmt(Stmt(ts).t)
    decreases |ts|, 7
  {
    var r := Tail(ts);
    if ts[0] == WhileTok {
      HeadCanon(r);
      var h := HeadBlock(r);
      if h.GotAll? {
        LoopCanon("", h.all[0], h.all[1]);
      }
    } else if r[0].IdentTok? && Tail(r)[0] == InTok {
      HeadCanon(Tail(Tail(r)));
      var h := HeadBlock(Tail(Tail(r)));
      if h.GotAll? {
        LoopCanon(r[0].s, h.all[0], h.all[1]);
      }
    }
  }

  lemma {:induction false} StmtCanon(ts: seq<Token>)
    requires Stream(ts)
    ensures Stmt(ts).Got? ==> CanonStmt(Stmt(ts).t)
    decreases |ts|, 8
  {
    match ts[0] {
      case ReturnTok => ReturnCanon(Tail(ts));
      case BreakTok =>
      case ContinueTok =>
      case DefTok => DefCanon(Tail(ts));
      case IfTok => IfCanon(Tail(ts));
      case ElifTok => IfCanon(Tail(ts));
      case WhileTok => LoopsCanon(ts);
      case ForTok => LoopsCanon(ts);
      case _ => SimpleCanon(ts);
    }
  }

  lemma {:induction false} TopCanon(all: seq<Tree>, ts: seq<Token>)
    requires Stream(ts) && AllStmts(all) && |all| <= MAX_CHILDREN
    ensures TopStmts(all, ts).GotAll? ==> AllStmts(TopStmts(all, ts).all) && |TopStmts(all, ts).all| <= MAX_CHILDREN
    decreases |ts|
  {
    if ts[0] != Eof {
      StmtCanon(ts);
      var p := Stmt(ts);
      if p.Got? && |all| < MAX_CHILDREN {
        TopCanon(all + [p.t], SkipNewlines(p.rest));
      }
    }
  }

  lemma ProgramCanon(ts: seq<Token>)
    requires Stream(ts)
    ensures Program(ts).Got? ==> CanonBlock(Program(ts).t)
  {
    TopCanon([], SkipNewlines(ts));
  }

  // ---------------------------------------------------------------------
  // Theorems

  ghost predicate IsParsed(t: Tree) {
    exists ts :: Stream(ts) && Program(ts).Got? && Program(ts).t == t
  }

  /** The trees that some token stream denotes are exactly the canonical ones. */
  lemma CanonIff(t: Tree)
    ensures IsParsed(t) <==> CanonBlock(t)
  {
    if CanonBlock(t) {
      ProgramRoundTrip(t);
    }
    if ts :| Stream(ts) && Program(ts).Got? && Program(ts).t == t {
      ProgramCanon(ts);
    }
  }

  /** Printing a parsed program and parsing it again gives the same program, whatever its first text looked like. */
  lemma Reprinted(ts: seq<Token>)
    requires Stream(ts) && Program(ts).Got?
    ensures CanonBlock(Program(ts).t)
    ensures var text := ShowStmts(Program(ts).t.kids) + [Eof];
            Stream(text) && Program(text) == Got(Program(ts).t, [Eof])
  {
    ProgramCanon(ts);
    ProgramRoundTrip(Program(ts).t);
  }

  // ---------------------------------------------------------------------
  // Programs whose jumps stay inside loops

  /** break and continue occur only inside a loop of the same function body. */
  predicate JumpsInLoops(t: Tree, loop: bool)
    decreases t
  {
    ((t.kind == KBreak || t.kind == KContinue) ==> loop) &&
    forall i :: 0 <= i < |t.kids| ==>
        JumpsInLoops(t.kids[i], t.kind == KWhile || t.kind == KFor || (loop && t.kind != KDef))
  }

  /** A canonical block is one the evaluator is defined for when its jumps stay inside loops. */
  lemma {:induction false} BlockRuns(t: Tree, loop: bool)
    requires CanonBlock(t) && JumpsInLoops(t, loop)
    ensures IsBlock(t, loop)
    decreases t, 0
  {
    forall i | 0 <= i < |t.kids|
      ensures IsStmt(t.kids[i], loop)
    {
      StmtRuns(t.kids[i], loop);
    }
  }

  lemma {:induction false} StmtRuns(t: Tree, loop: bool)
    requires CanonStmt(t) && JumpsInLoops(t, loop)
    ensures IsStmt(t, loop)
    decreases t, 1
  {
    if t.kind == KDef {
      BlockRuns(t.kids[|t.kids| - 1], false);
      NamesAreVars(t);
    } else if t.kind == KWhile || t.kind == KFor {
      BlockRuns(t.kids[1], true);
    } else if t.kind == KIf {
      BlockRuns(t.kids[1], loop);
      if |t.kids| == 3 {
        ElseRuns(t, loop);
      }
    }
  }

  lemma NamesAreVars(t: Tree)
    requires |t.kids| >= 1 && AllNames(t.kids[..|t.kids| - 1])
    ensures forall i :: 0 <= i < |t.kids| - 1 ==> t.kids[i].kind == KVar
  {
    forall i | 0 <= i < |t.kids| - 1
      ensures t.kids[i].kind == KVar
    {
      assert t.kids[..|t.kids| - 1][i] == t.kids[i];
    }
  }

  lemma {:induction false} ElseRuns(t: Tree, loop: bool)
    requires CanonStmt(t) && t.kind == KIf && |t.kids| == 3 && JumpsInLoops(t, loop)
    ensures (t.kids[2].kind == KIf || t.kids[2].kind == KBlock) && IsStmt(t.kids[2], loop)
    decreases t, 0
  {
    if t.kids[2].kind == KIf {
      StmtRuns(t.kids[2], loop);
    } else {
      BlockRuns(t.kids[2], loop);
    }
  }

  /** Expressions hold no jumps. */
  lemma {:induction false} ExprJumps(t: Tree, loop: bool)
    requires IsExpr(t)
    ensures JumpsInLoops(t, loop)
    decreases t
  {
    forall i | 0 <= i < |t.kids|
      ensures JumpsInLoops(t.kids[i], loop)
    {
      ExprJumps(t.kids[i], loop);
    }
  }

  lemma {:induction false} StmtJumps(t: Tree, loop: bool)
    requires CanonStmt(t) && IsStmt(t, loop)
    ensures JumpsInLoops(t, loop)
    decreases t, 2
  {
    var inner := t.kind == KWhile || t.kind == KFor || (loop && t.kind != KDef);
    forall i | 0 <= i < |t.kids|
      ensures JumpsInLoops(t.kids[i], inner)
    {
      KidJumps(t, i, loop);
    }
  }

  lemma {:induction false} DefKidJumps(t: Tree, i: nat)
    requires CanonStmt(t) && t.kind == KDef && IsBlock(t.kids[|t.kids| - 1], false) && i < |t.kids|
    ensures JumpsInLoops(t.kids[i], false)
    decreases t, 0
  {
    if i == |t.kids| - 1 {
      BlockJumps(t.kids[i], false);
    } else {
      assert t.kids[..|t.kids| - 1][i] == t.kids[i];
      ExprJumps(VarRef(t.kids[i].s), false);
    }
  }

  lemma {:induction false} KidJumps(t: Tree, i: nat, loop: bool)
    requires CanonStmt(t) && IsStmt(t, loop) && i < |t.kids|
    ensures JumpsInLoops(t.kids[i], t.kind == KWhile || t.kind == KFor || (loop && t.kind != KDef))
    decreases t, 1
  {
    if t.kind == KDef {
      DefKidJumps(t, i);
    } else if (t.kind == KWhile || t.kind == KFor || t.kind == KIf) && i == 1 {
      BlockJumps(t.kids[1], t.kind != KIf || loop);
    } else if t.kind == KIf && i == 2 {
      if t.kids[2].kind == KIf {
        StmtJumps(t.kids[2], loop);
      } else {
        BlockJumps(t.kids[2], loop);
      }
    } else {
      ExprJumps(t.kids[i], t.kind == KWhile || t.kind == KFor || (loop && t.kind != KDef));
    }
  }

  lemma {:induction false} BlockJumps(t: Tree, loop: bool)
    requires CanonBlock(t) && IsBlock(t, loop)
    ensures JumpsInLoops(t, loop)
    decreases t, 0
  {
    forall i | 0 <= i < |t.kids|
      ensures JumpsInLoops(t.kids[i], loop)
    {
      StmtJumps(t.kids[i], loop);
    }
  }

  /** The evaluator is defined for a parsed program exactly when its jumps stay inside loops. */
  lemma RunsIff(t: Tree)
    requires IsParsed(t)
    ensures IsBlock(t, false) <==> JumpsInLoops(t, false)
  {
    CanonIff(t);
    if IsBlock(t, false) {
      BlockJumps(t, false);
    }
    if JumpsInLoops(t, false) {
      BlockRuns(t, false);
    }
  }
}
