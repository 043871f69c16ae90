// The grammar as the parser reads it: from a token stream to a tree and the rest of the stream.

module GkGrammar {
  import opened GkSyntax

  datatype Parsed = Got(t: Tree, rest: seq<Token>) | Bad
  datatype ParsedAll = GotAll(all: seq<Tree>, rest: seq<Token>) | BadAll

  /** A stream ends with the end-of-file token. */
  predicate Stream(ts: seq<Token>) {
    |ts| > 0 && ts[|ts| - 1] == Eof
  }

  /** What is left of a stream after at least n tokens have been read. */
  predicate After(rest: seq<Token>, ts: seq<Token>, n: nat) {
    Stream(rest) && |rest| + n <= |ts|
  }

  function Tail(ts: seq<Token>): (r: seq<Token>)
    requires Stream(ts) && ts[0] != Eof
    ensures After(r, ts, 1)
  {
    ts[1..]
  }

  /** match: the token is skipped when it is there. */
  function Skip(ts: seq<Token>, tok: Token): (r: seq<Token>)
    requires Stream(ts) && tok != Eof
    ensures After(r, ts, 0)
  {
    if ts[0] == tok then Tail(ts) else ts
  }

  function SkipNewlines(ts: seq<Token>): (r: seq<Token>)
    requires Stream(ts)
    ensures After(r, ts, 0) && r[0] != Newline
    decreases |ts|
  {
    if ts[0] == Newline then SkipNewlines(Tail(ts)) else ts
  }

  // ---------------------------------------------------------------------
  // Expressions

  /** parse_primary. */
  function Primary(ts: seq<Token>): (p: Parsed)
    requires Stream(ts)
    ensures p.Got? ==> After(p.rest, ts, 1)
    decreases |ts|, 0
  {
    match ts[0]
    case IntTok(n) => Got(IntLit(n), Tail(ts))
    case StrTok(s) => Got(StrLit(s), Tail(ts))
    case TrueTok => Got(BoolLit(true), Tail(ts))
    case FalseTok => Got(BoolLit(false), Tail(ts))
    case IdentTok(x) =>
      var r := Tail(ts);
      if r[0] == LParen then
        var a := Args([], Tail(r));
        if a.GotAll? && a.rest[0] == RParen then Got(CallTree(x, a.all), Tail(a.rest)) else Bad
      else Got(VarRef(x), r)
    case LParen =>
      var p := Level(1, Tail(ts));
      if p.Got? && p.rest[0] == RParen then Got(p.t, Tail(p.rest)) else Bad
    case _ => Bad
  }

  /** The argument loop of a call, after the arguments so far. */
  function Args(args: seq<Tree>, ts: seq<Token>): (p: ParsedAll)
    requires Stream(ts)
    ensures p.GotAll? ==> After(p.rest, ts, 0)
    decreases |ts|, 10
  {
    if ts[0] == RParen || ts[0] == Eof then GotAll(args, ts)
    else
      var p := Level(1, ts);
      if p.Bad? || |args| >= MAX_CHILDREN then BadAll
      else if p.rest[0] == Comma then Args(args + [p.t], Tail(p.rest))
      else GotAll(args + [p.t], p.rest)
  }

  /** parse_unary. */
  function Unary(ts: seq<Token>): (p: Parsed)
    requires Stream(ts)
    ensures p.Got? ==> After(p.rest, ts, 1)
    decreases |ts|, 1
  {
    if ts[0].OpTok? && IsUnary(ts[0].op) then
      var p := Unary(Tail(ts));
      if p.Got? then Got(UnTree(ts[0].op, p.t), p.rest) else Bad
    else Primary(ts)
  }

  predicate IsOpOf(tok: Token, k: nat) {
    tok.OpTok? && k > 0 && LevelOf(tok.op) == k
  }

  /** parse_or (1), parse_and (2), parse_cmp (3), parse_add (4), parse_mul (5); above that, parse_unary. */
  function Level(k: nat, ts: seq<Token>): (p: Parsed)
    requires Stream(ts) && 1 <= k <= 6
    ensures p.Got? ==> After(p.rest, ts, 1)
    decreases |ts|, 8 - k
  {
    if k == 6 then Unary(ts)
    else
      var p := Level(k + 1, ts);
      if p.Got? then Chain(k, p.t, p.rest) else Bad
  }

  /** The loop of a binary level: operators of that level, to the left. */
  function Chain(k: nat, left: Tree, ts: seq<Token>): (p: Parsed)
    requires Stream(ts) && 1 <= k <= 5
    ensures p.Got? ==> After(p.rest, ts, 0)
    decreases |ts|, 8 - k
  {
    if !IsOpOf(ts[0], k) then Got(left, ts)
    else
      var p := Level(k + 1, Tail(ts));
      if p.Got? then Chain(k, BinTree(ts[0].op, left, p.t), p.rest) else Bad
  }

  /** parse_expr. */
  function Expr(ts: seq<Token>): (p: Parsed)
    requires Stream(ts)
    ensures p.Got? ==> After(p.rest, ts, 1)
  {
    Level(1, ts)
  }

  // ---------------------------------------------------------------------
  // Statements

  function AssignTree(x: string, e: Tree): Tree { Tree(KAssign, 0, x, NoOp, [e]) }
  function ReturnTree(kids: seq<Tree>): Tree { Tree(KReturn, 0, "", NoOp, kids) }
  function JumpTree(k: Kind): Tree { Tree(k, 0, "", NoOp, []) }
  function BlockTree(kids: seq<Tree>): Tree { Tree(KBlock, 0, "", NoOp, kids) }
  function IfTree(kids: seq<Tree>): Tree { Tree(KIf, 0, "", NoOp, kids) }
  function WhileTree(c: Tree, b: Tree): Tree { Tree(KWhile, 0, "", NoOp, [c, b]) }
  function ForTree(x: string, e: Tree, b: Tree): Tree { Tree(KFor, 0, x, NoOp, [e, b]) }
  function DefTree(f: string, kids: seq<Tree>): Tree { Tree(KDef, 0, f, NoOp, kids) }

  /** ':' , perhaps a newline, and a block. */
  function ColonBlock(ts: seq<Token>): (p: Parsed)
    requires Stream(ts)
    ensures p.Got? ==> After(p.rest, ts, 1)
    decreases |ts|, 4
  {
    if ts[0] != Colon then Bad else Block(Skip(Tail(ts), Newline))
  }

  /** A condition or iterable and the block it governs. */
  function HeadBlock(ts: seq<Token>): (p: ParsedAll)
    requires Stream(ts)
    ensures p.GotAll? ==> After(p.rest, ts, 1) && |p.all| == 2
    decreases |ts|, 5
  {
    var e := Expr(ts);
    if e.Bad? then BadAll
    else
      var b := ColonBlock(e.rest);
      if b.Got? then GotAll([e.t, b.t], b.rest) else BadAll
  }

  /** parse_block. */
  function Block(ts: seq<Token>): (p: Parsed)
    requires Stream(ts)
    ensures p.Got? ==> After(p.rest, ts, 1)
    decreases |ts|, 3
  {
    if ts[0] != Indent then Bad
    else
      var p := Stmts([], SkipNewlines(Tail(ts)));
      if p.GotAll? then Got(BlockTree(p.all), Skip(p.rest, Dedent)) else Bad
  }

  /** The statement loop of a block, after the statements so far. */
  function Stmts(all: seq<Tree>, ts: seq<Token>): (p: ParsedAll)
    requires Stream(ts)
    ensures p.GotAll? ==> After(p.rest, ts, 0)
    decreases |ts|, 9
  {
    if ts[0] == Dedent || ts[0] == Eof then GotAll(all, ts)
    else
      var p := Stmt(ts);
      if p.Bad? || |all| >= MAX_CHILDREN then BadAll else Stmts(all + [p.t], SkipNewlines(p.rest))
  }

  /** The parameter loop of a def. */
  function ParamList(ps: seq<Tree>, ts: seq<Token>): (p: ParsedAll)
    requires Stream(ts)
    ensures p.GotAll? ==> After(p.rest, ts, 0)
    decreases |ts|
  {
    if ts[0] == RParen || ts[0] == Eof then GotAll(ps, ts)
    else if !ts[0].IdentTok? then BadAll
    else
      var r := Tail(ts);
      if r[0] == Comma then ParamList(ps + [VarRef(ts[0].s)], Tail(r)) else GotAll(ps + [VarRef(ts[0].s)], r)
  }

  /** A def statement after its keyword. */
  function Def(ts: seq<Token>): (p: Parsed)
    requires Stream(ts)
    ensures p.Got? ==> After(p.rest, ts, 1)
    decreases |ts|, 6
  {
    if !ts[0].IdentTok? then Bad
    else
      var r := Tail(ts);
      if r[0] != LParen then Bad
      else
        var ps := ParamList([], Tail(r));
        if ps.BadAll? || ps.rest[0] != RParen then Bad
        else
          var b := ColonBlock(Tail(ps.rest));
          if b.Got? then Got(DefTree(ts[0].s, ps.all + [b.t]), b.rest) else Bad
  }

  /** An if or elif statement after its keyword. */
  function If(ts: seq<Token>): (p: Parsed)
    requires Stream(ts)
    ensures p.Got? ==> After(p.rest, ts, 1)
    decreases |ts|, 6
  {
    var h := HeadBlock(ts);
    if h.BadAll? then Bad
    else
      var r := SkipNewlines(h.rest);
      if r[0] == ElifTok then
        var p := If(Tail(r));
        if p.Got? then Got(IfTree(h.all + [p.t]), p.rest) else Bad
      else if r[0] == ElseTok then
        var p := ColonBlock(Tail(r));
        if p.Got? then Got(IfTree(h.all + [p.t]), p.rest) else Bad
      else Got(IfTree(h.all), r)
  }

  /** A for statement after its keyword. */
  function For(ts: seq<Token>): (p: Parsed)
    requires Stream(ts)
    ensures p.Got? ==> After(p.rest, ts, 1)
    decreases |ts|, 6
  {
    if !ts[0].IdentTok? || Tail(ts)[0] != InTok then Bad
    else
      var h := HeadBlock(Tail(Tail(ts)));
      if h.GotAll? then Got(ForTree(ts[0].s, h.all[0], h.all[1]), h.rest) else Bad
  }

  /** A return statement after its keyword. */
  function ReturnRest(ts: seq<Token>): (p: Parsed)
    requires Stream(ts)
    ensures p.Got? ==> After(p.rest, ts, 0)
  {
    if ts[0] == Newline || ts[0] == Eof then Got(ReturnTree([]), Skip(ts, Newline))
    else
      var e := Expr(ts);
      if e.Got? then Got(ReturnTree([e.t]), Skip(e.rest, Newline)) else Bad
  }

  /** return, break or continue, after that keyword. */
  function Jump(tok: Token, ts: seq<Token>): (p: Parsed)
    requires Stream(ts)
    ensures p.Got? ==> After(p.rest, ts, 0)
  {
    if tok == ReturnTok then ReturnRest(ts)
    else Got(JumpTree(if tok == BreakTok then KBreak else KContinue), Skip(ts, Newline))
  }

  /** An assignment to x after its sign. */
  function AssignRest(x: string, ts: seq<Token>): (p: Parsed)
    requires Stream(ts)
    ensures p.Got? ==> After(p.rest, ts, 1)
  {
    var e := Expr(ts);
    if e.Got? then Got(AssignTree(x, e.t), Skip(e.rest, Newline)) else Bad
  }

  /** An expression on its own. */
  function ExprLine(ts: seq<Token>): (p: Parsed)
    requires Stream(ts)
    ensures p.Got? ==> After(p.rest, ts, 1)
  {
    var e := Expr(ts);
    if e.Got? then Got(e.t, Skip(e.rest, Newline)) else Bad
  }

  /** An assignment or an expression. */
  function Simple(ts: seq<Token>): (p: Parsed)
    requires Stream(ts)
    ensures p.Got? ==> After(p.rest, ts, 1)
  {
    if ts[0].IdentTok? && Tail(ts)[0] == AssignTok then AssignRest(ts[0].s, Tail(Tail(ts))) else ExprLine(ts)
  }

  /** parse_stmt: every statement reads at least one token. */
  function Stmt(ts: seq<Token>): (p: Parsed)
    requires Stream(ts)
    ensures p.Got? ==> After(p.rest, ts, 1)
    decreases |ts|, 8
  {
    match ts[0]
    case ReturnTok => Jump(ReturnTok, Tail(ts))
    case BreakTok => Jump(BreakTok, Tail(ts))
    case ContinueTok => Jump(ContinueTok, Tail(ts))
    case DefTok => Def(Tail(ts))
    case IfTok => If(Tail(ts))
    case ElifTok => If(Tail(ts))
    case WhileTok =>
      var h := HeadBlock(Tail(ts));
      if h.GotAll? then Got(WhileTree(h.all[0], h.all[1]), h.rest) else Bad
    case ForTok => For(Tail(ts))
    case _ => Simple(ts)
  }

  lemma {:induction false} DefStmt(ts: seq<Token>)
    requires Stream(ts) && ts[0] == DefTok
    ensures Stmt(ts) == Def(Tail(ts))
  {
    assert Stmt(ts) == match ts[0] case DefTok => Def(Tail(ts)) case _ => Bad;
  }

  lemma {:induction false} IfStmt(ts: seq<Token>)
    requires Stream(ts) && (ts[0] == IfTok || ts[0] == ElifTok)
    ensures Stmt(ts) == If(Tail(ts))
  {
    assert Stmt(ts) == match ts[0] case IfTok => If(Tail(ts)) case ElifTok => If(Tail(ts)) case _ => Bad;
  }

  lemma {:induction false} ForStmt(ts: seq<Token>)
    requires Stream(ts) && ts[0] == ForTok
    ensures Stmt(ts) == For(Tail(ts))
  {
    assert Stmt(ts) == match ts[0] case ForTok => For(Tail(ts)) case _ => Bad;
  }

  /** The statement loop of a whole program. */
  function TopStmts(all: seq<Tree>, ts: seq<Token>): (p: ParsedAll)
    requires Stream(ts)
    ensures p.GotAll? ==> Stream(p.rest) && p.rest[0] == Eof
    decreases |ts|
  {
    if ts[0] == Eof then GotAll(all, ts)
    else
      var p := Stmt(ts);
      if p.Bad? || |all| >= MAX_CHILDREN then BadAll else TopStmts(all + [p.t], SkipNewlines(p.rest))
  }

  /** gk_parse. */
  function Program(ts: seq<Token>): (p: Parsed)
    requires Stream(ts)
    ensures p.Got? ==> Stream(p.rest) && p.rest[0] == Eof
  {
    var p := TopStmts([], SkipNewlines(ts));
    if p.GotAll? then Got(BlockTree(p.all), p.rest) else Bad
  }
}
