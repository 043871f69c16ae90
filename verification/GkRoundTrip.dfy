// Whole programs printed as token streams, and parsed back.

module GkRoundTrip {
  import opened GkSyntax
  import opened GkGrammar
  import opened GkPrinter

  /** Statements that some source text denotes. */
  predicate CanonStmt(t: Tree)
    decreases t, 1
  {
    if t.kind == KAssign then |t.kids| == 1 && t == AssignTree(t.s, t.kids[0]) && Canonical(t.kids[0])
    else if t.kind == KReturn then
      |t.kids| <= 1 && t == ReturnTree(t.kids) && (|t.kids| == 1 ==> Canonical(t.kids[0]))
    else if t.kind == KBreak || t.kind == KContinue then t == JumpTree(t.kind)
    else if t.kind == KDef then
      |t.kids| >= 1 && t == DefTree(t.s, t.kids) && CanonBlock(t.kids[|t.kids| - 1]) && AllNames(t.kids[..|t.kids| - 1])
    else if t.kind == KWhile then
      |t.kids| == 2 && t == WhileTree(t.kids[0], t.kids[1]) && Canonical(t.kids[0]) && CanonBlock(t.kids[1])
    else if t.kind == KFor then
      |t.kids| == 2 && t == ForTree(t.s, t.kids[0], t.kids[1]) && Canonical(t.kids[0]) && CanonBlock(t.kids[1])
    else if t.kind == KIf then
      2 <= |t.kids| <= 3 && t == IfTree(t.kids) && Canonical(t.kids[0]) && CanonBlock(t.kids[1]) &&
      (|t.kids| == 3 ==> if t.kids[2].kind == KIf then CanonStmt(t.kids[2]) else CanonBlock(t.kids[2]))
    else Canonical(t)
  }

  predicate CanonBlock(t: Tree)
    decreases t, 0
  {
    t == BlockTree(t.kids) && |t.kids| <= MAX_CHILDREN && forall i :: 0 <= i < |t.kids| ==> CanonStmt(t.kids[i])
  }

  predicate AllNames(kids: seq<Tree>) {
    forall i {:trigger kids[i]} :: 0 <= i < |kids| ==> kids[i] == VarRef(kids[i].s)
  }

  predicate AllStmts(kids: seq<Tree>) {
    forall i :: 0 <= i < |kids| ==> CanonStmt(kids[i])
  }

  function ShowStmt(t: Tree): seq<Token>
    requires CanonStmt(t)
    decreases t, 3
  {
    if t.kind == KAssign then [IdentTok(t.s)] + ([AssignTok] + (Show(1, t.kids[0]) + [Newline]))
    else if t.kind == KReturn then [ReturnTok] + if t.kids == [] then [Newline] else Show(1, t.kids[0]) + [Newline]
    else if t.kind == KBreak then [BreakTok] + [Newline]
    else if t.kind == KContinue then [ContinueTok] + [Newline]
    else if t.kind == KDef then
      var k := |t.kids| - 1;
      [DefTok] + ([IdentTok(t.s)] + ([LParen] + (ShowNames(t.kids[..k]) + ([RParen] + ShowColon(t.kids[k])))))
    else if t.kind == KWhile then [WhileTok] + ShowHead(t.kids[0], t.kids[1])
    else if t.kind == KFor then [ForTok] + ([IdentTok(t.s)] + ([InTok] + ShowHead(t.kids[0], t.kids[1])))
    else if t.kind == KIf then [IfTok] + ShowIf(t)
    else Show(1, t) + [Newline]
  }

  function ShowHead(c: Tree, b: Tree): seq<Token>
    requires Canonical(c) && CanonBlock(b)
    decreases b, 3
  {
    Show(1, c) + ShowColon(b)
  }

  function ShowColon(b: Tree): seq<Token>
    requires CanonBlock(b)
    decreases b, 2
  {
    [Colon] + ([Newline] + ShowBlock(b))
  }

  function ShowBlock(b: Tree): seq<Token>
    requires CanonBlock(b)
    decreases b, 1
  {
    [Indent] + (ShowStmts(b.kids) + [Dedent])
  }

  function ShowStmts(kids: seq<Tree>): seq<Token>
    requires AllStmts(kids)
    decreases kids, 4
  {
    if kids == [] then [] else ShowStmt(kids[0]) + ShowStmts(kids[1..])
  }

  /** An if statement after its keyword; a third child that is an if again is an elif. */
  function ShowIf(t: Tree): seq<Token>
    requires CanonStmt(t) && t.kind == KIf
    decreases t, 2
  {
    if |t.kids| == 2 then ShowHead(t.kids[0], t.kids[1])
    else if t.kids[2].kind == KIf then ShowHead(t.kids[0], t.kids[1]) + ([ElifTok] + ShowIf(t.kids[2]))
    else ShowHead(t.kids[0], t.kids[1]) + ([ElseTok] + ShowColon(t.kids[2]))
  }

  function ShowNames(kids: seq<Tree>): seq<Token> {
    if kids == [] then []
    else if |kids| == 1 then [IdentTok(kids[0].s)]
    else [IdentTok(kids[0].s)] + ([Comma] + ShowNames(kids[1..]))
  }

  // ---------------------------------------------------------------------
  // First tokens

  predicate StartsStmt(tok: Token) {
    Starts(tok) || tok == ReturnTok || tok == BreakTok || tok == ContinueTok || tok == DefTok || tok == WhileTok ||
    tok == ForTok || tok == IfTok
  }

  lemma StmtStarts(t: Tree)
    requires CanonStmt(t)
    ensures ShowStmt(t) != [] && StartsStmt(ShowStmt(t)[0])
  {
    if Canonical(t) {
      ShowStarts(1, t);
    }
  }

  lemma {:induction false} NoAssign(k: nat, t: Tree)
    requires IsExpr(t) && 1 <= k <= 7
    ensures AssignTok !in Show(k, t)
    decreases t, 1
  {
    NoAssignBare(t);
  }

  lemma {:induction false} NoAssignBare(t: Tree)
    requires IsExpr(t)
    ensures AssignTok !in Bare(t)
    decreases t, 0
  {
    if t.kind == KUnop {
      NoAssign(6, t.kids[0]);
    } else if t.kind == KBinop {
      LevelBound(t.op);
      NoAssign(LevelOf(t.op), t.kids[0]);
      NoAssign(LevelOf(t.op) + 1, t.kids[1]);
    } else if IsCallKind(t.kind) {
      NoAssignArgs(t.kids);
    }
  }

  lemma {:induction false} NoAssignArgs(kids: seq<Tree>)
    requires forall i :: 0 <= i < |kids| ==> IsExpr(kids[i])
    ensures AssignTok !in ShowArgs(kids)
    decreases kids, 2
  {
    if kids != [] {
      NoAssign(1, kids[0]);
      if |kids| > 1 {
        NoAssignArgs(kids[1..]);
      }
    }
  }

  // ---------------------------------------------------------------------
  // Parsing back

  /** The stream goes on neither with a newline nor with a branch of an if. */
  predicate Fresh(ts: seq<Token>)
    requires Stream(ts)
  {
    ts[0] != Newline && ts[0] != ElifTok && ts[0] != ElseTok
  }

  lemma Assoc(x: seq<Token>, y: seq<Token>, z: seq<Token>)
    ensures (x + y) + z == x + (y + z)
  {
  }

  /** An expression, then more. */
  lemma ExprThen(t: Tree, x: seq<Token>, ts: seq<Token>)
    requires Canonical(t) && Stream(x + ts) && Stops(1, x + ts)
    ensures Stream((Show(1, t) + x) + ts) && Expr((Show(1, t) + x) + ts) == Got(t, x + ts)
    ensures ((Show(1, t) + x) + ts)[0] == Show(1, t)[0] && Starts(Show(1, t)[0])
  {
    Assoc(Show(1, t), x, ts);
    ExprRoundTrip(t, x + ts);
    ShowStarts(1, t);
  }

  lemma LineEnds(ts: seq<Token>)
    requires Stream(ts) && Fresh(ts)
    ensures Stream([Newline] + ts) && Stops(1, [Newline] + ts) && Skip([Newline] + ts, Newline) == ts
  {
    TailOf(Newline, ts);
  }

  lemma ExprStmtUndone(t: Tree, rest: seq<Token>)
    requires Canonical(t) && Stream(rest) && Fresh(rest)
    ensures Stream((Show(1, t) + [Newline]) + rest) && Simple((Show(1, t) + [Newline]) + rest) == Got(t, rest)
    ensures Starts(((Show(1, t) + [Newline]) + rest)[0])
  {
    LineEnds(rest);
    ExprThen(t, [Newline], rest);
    var ts := (Show(1, t) + [Newline]) + rest;
    NoAssign(1, t);
    if ts[0].IdentTok? {
      assert Tail(ts)[0] == (Show(1, t) + [Newline])[1];
      assert Tail(ts)[0] in Show(1, t) + [Newline];
    }
  }

  lemma AssignParsed(e: Tree, ts: seq<Token>, rest: seq<Token>)
    requires Stream(ts) && ts[0].IdentTok? && Tail(ts)[0] == AssignTok && Expr(Tail(Tail(ts))) == Got(e, rest) &&
             Stream(rest)
    ensures Stmt(ts) == Got(AssignTree(ts[0].s, e), Skip(rest, Newline))
  {
  }

  lemma AssignUndone(t: Tree, rest: seq<Token>)
    requires CanonStmt(t) && t.kind == KAssign && Stream(rest) && Fresh(rest)
    ensures Stream(ShowStmt(t) + rest) && Stmt(ShowStmt(t) + rest) == Got(t, rest)
  {
    var x := Show(1, t.kids[0]) + [Newline];
    LineEnds(rest);
    ExprThen(t.kids[0], [Newline], rest);
    Peel2(IdentTok(t.s), AssignTok, x, rest);
    AssignParsed(t.kids[0], ShowStmt(t) + rest, [Newline] + rest);
  }

  lemma {:induction false} ReturnParsed(e: Tree, ts: seq<Token>, rest: seq<Token>)
    requires Stream(ts) && ts[0] == ReturnTok && Starts(Tail(ts)[0]) && Expr(Tail(ts)) == Got(e, rest) && Stream(rest)
    ensures Stmt(ts) == Got(ReturnTree([e]), Skip(rest, Newline))
  {
  }

  lemma {:induction false} BareParsed(ts: seq<Token>)
    requires Stream(ts) && (ts[0] == ReturnTok || ts[0] == BreakTok || ts[0] == ContinueTok) && Tail(ts)[0] == Newline
    ensures var kind := if ts[0] == ReturnTok then KReturn else if ts[0] == BreakTok then KBreak else KContinue;
            Stmt(ts) == Got(JumpTree(kind), Skip(Tail(ts), Newline))
  {
  }

  lemma ReturnUndone(t: Tree, rest: seq<Token>)
    requires CanonStmt(t) && t.kind == KReturn && Stream(rest) && Fresh(rest)
    ensures Stream(ShowStmt(t) + rest) && Stmt(ShowStmt(t) + rest) == Got(t, rest)
  {
    LineEnds(rest);
    if t.kids == [] {
      Peel(ReturnTok, [Newline], rest);
      BareParsed(ShowStmt(t) + rest);
    } else {
      ExprThen(t.kids[0], [Newline], rest);
      Peel(ReturnTok, Show(1, t.kids[0]) + [Newline], rest);
      ReturnParsed(t.kids[0], ShowStmt(t) + rest, [Newline] + rest);
      OneKid(t);
    }
  }

  lemma OneKid(t: Tree)
    requires |t.kids| == 1
    ensures t.kids == [t.kids[0]]
  {
  }

  lemma JumpUndone(t: Tree, rest: seq<Token>)
    requires CanonStmt(t) && (t.kind == KBreak || t.kind == KContinue) && Stream(rest) && Fresh(rest)
    ensures Stream(ShowStmt(t) + rest) && Stmt(ShowStmt(t) + rest) == Got(t, rest)
  {
    var tok := if t.kind == KBreak then BreakTok else ContinueTok;
    LineEnds(rest);
    Peel(tok, [Newline], rest);
    BareParsed(ShowStmt(t) + rest);
  }

  lemma {:induction false} StmtUndone(t: Tree, rest: seq<Token>)
    requires CanonStmt(t) && Stream(rest) && Fresh(rest)
    ensures Stream(ShowStmt(t) + rest) && Stmt(ShowStmt(t) + rest) == Got(t, rest)
    decreases t, 5
  {
    if t.kind == KAssign {
      AssignUndone(t, rest);
    } else if t.kind == KReturn {
      ReturnUndone(t, rest);
    } else if t.kind == KBreak || t.kind == KContinue {
      JumpUndone(t, rest);
    } else if t.kind == KDef {
      DefUndone(t, rest);
    } else if t.kind == KWhile {
      WhileUndone(t, rest);
    } else if t.kind == KFor {
      ForUndone(t, rest);
    } else if t.kind == KIf {
      Peel(IfTok, ShowIf(t), rest);
      IfUndone(t, rest);
      IfStmt(ShowStmt(t) + rest);
    } else {
      ExprStmtUndone(t, rest);
      SimpleParsed(t, (Show(1, t) + [Newline]) + rest, rest);
    }
  }

  lemma SimpleParsed(t: Tree, ts: seq<Token>, rest: seq<Token>)
    requires Stream(ts) && Starts(ts[0]) && Simple(ts) == Got(t, rest)
    ensures Stmt(ts) == Got(t, rest)
  {
  }

  lemma WhileParsed(c: Tree, b: Tree, ts: seq<Token>, rest: seq<Token>)
    requires Stream(ts) && ts[0] == WhileTok && HeadBlock(Tail(ts)) == GotAll([c, b], rest)
    ensures Stmt(ts) == Got(WhileTree(c, b), rest)
  {
  }

  lemma {:induction false} WhileUndone(t: Tree, rest: seq<Token>)
    requires CanonStmt(t) && t.kind == KWhile && Stream(rest)
    ensures Stream(ShowStmt(t) + rest) && Stmt(ShowStmt(t) + rest) == Got(t, rest)
    decreases t, 4
  {
    HeadUndone(t.kids[0], t.kids[1], rest);
    Peel(WhileTok, ShowHead(t.kids[0], t.kids[1]), rest);
    WhileParsed(t.kids[0], t.kids[1], ShowStmt(t) + rest, rest);
  }

  lemma {:induction false} HeadUndone(c: Tree, b: Tree, rest: seq<Token>)
    requires Canonical(c) && CanonBlock(b) && Stream(rest)
    ensures Stream(ShowHead(c, b) + rest) && HeadBlock(ShowHead(c, b) + rest) == GotAll([c, b], rest)
    decreases b, 3
  {
    ColonUndone(b, rest);
    ExprThen(c, ShowColon(b), rest);
  }

  lemma {:induction false} ColonUndone(b: Tree, rest: seq<Token>)
    requires CanonBlock(b) && Stream(rest)
    ensures Stream(ShowColon(b) + rest) && (ShowColon(b) + rest)[0] == Colon &&
            ColonBlock(ShowColon(b) + rest) == Got(b, rest)
    decreases b, 2
  {
    BlockUndone(b, rest);
    Peel2(Colon, Newline, ShowBlock(b), rest);
  }

  lemma {:induction false} BlockUndone(b: Tree, rest: seq<Token>)
    requires CanonBlock(b) && Stream(rest)
    ensures Stream(ShowBlock(b) + rest) && Block(ShowBlock(b) + rest) == Got(b, rest)
    decreases b, 1
  {
    TailOf(Dedent, rest);
    StmtsUndone([], b.kids, [Dedent] + rest);
    Assoc(ShowStmts(b.kids), [Dedent], rest);
    Peel(Indent, ShowStmts(b.kids) + [Dedent], rest);
    assert [] + b.kids == b.kids;
  }

  lemma FirstOf(x: seq<Token>, ts: seq<Token>)
    requires Stream(ts)
    ensures Stream(x + ts) && (x + ts)[0] == if x == [] then ts[0] else x[0]
    ensures x == [] ==> x + ts == ts
  {
  }

  lemma StmtsStart(kids: seq<Tree>, rest: seq<Token>)
    requires AllStmts(kids) && Stream(rest) && (rest[0] == Dedent || rest[0] == Eof)
    ensures Stream(ShowStmts(kids) + rest) && Fresh(ShowStmts(kids) + rest)
    ensures kids != [] ==> StartsStmt((ShowStmts(kids) + rest)[0])
    ensures kids == [] ==> ShowStmts(kids) + rest == rest
  {
    FirstOf(ShowStmts(kids), rest);
    if kids != [] {
      StmtStarts(kids[0]);
    }
  }

  lemma {:induction false} StmtsUndone(done: seq<Tree>, kids: seq<Tree>, rest: seq<Token>)
    requires AllStmts(kids) && |done| + |kids| <= MAX_CHILDREN && Stream(rest) && rest[0] == Dedent
    ensures Stream(ShowStmts(kids) + rest) && Stmts(done, ShowStmts(kids) + rest) == GotAll(done + kids, rest)
    ensures SkipNewlines(ShowStmts(kids) + rest) == ShowStmts(kids) + rest
    decreases kids, 4
  {
    StmtsStart(kids, rest);
    if kids == [] {
      assert done + kids == done;
    } else {
      var more := ShowStmts(kids[1..]) + rest;
      StmtsStart(kids[1..], rest);
      Assoc(ShowStmt(kids[0]), ShowStmts(kids[1..]), rest);
      StmtUndone(kids[0], more);
      StmtsUndone(done + [kids[0]], kids[1..], rest);
      StmtsStep(done, kids[0], ShowStmts(kids) + rest, more);
      Regroup(done, kids);
    }
  }

  lemma StmtsStep(done: seq<Tree>, t: Tree, ts: seq<Token>, more: seq<Token>)
    requires Stream(ts) && Stream(more) && StartsStmt(ts[0]) && Stmt(ts) == Got(t, more) && more[0] != Newline &&
             |done| < MAX_CHILDREN
    ensures Stmts(done, ts) == Stmts(done + [t], more)
  {
  }

  lemma {:induction false} TopStep(done: seq<Tree>, t: Tree, ts: seq<Token>, more: seq<Token>)
    requires Stream(ts) && Stream(more) && StartsStmt(ts[0]) && Stmt(ts) == Got(t, more) && more[0] != Newline &&
             |done| < MAX_CHILDREN
    ensures TopStmts(done, ts) == TopStmts(done + [t], more)
  {
  }

  lemma {:induction false} ForParsed(c: Tree, b: Tree, ts: seq<Token>, rest: seq<Token>)
    requires Stream(ts) && ts[0] == ForTok && Tail(ts)[0].IdentTok? && Tail(Tail(ts))[0] == InTok
    requires HeadBlock(Tail(Tail(Tail(ts)))) == GotAll([c, b], rest)
    ensures Stmt(ts) == Got(ForTree(Tail(ts)[0].s, c, b), rest)
  {
  }

  lemma {:induction false} ForUndone(t: Tree, rest: seq<Token>)
    requires CanonStmt(t) && t.kind == KFor && Stream(rest)
    ensures Stream(ShowStmt(t) + rest) && Stmt(ShowStmt(t) + rest) == Got(t, rest)
    decreases t, 4
  {
    HeadUndone(t.kids[0], t.kids[1], rest);
    Peel3(ForTok, IdentTok(t.s), InTok, ShowHead(t.kids[0], t.kids[1]), rest);
    ForParsed(t.kids[0], t.kids[1], ShowStmt(t) + rest, rest);
  }

  /** An if that nothing goes on with. */
  lemma PlainParsed(kids: seq<Tree>, ts: seq<Token>, rest: seq<Token>)
    requires Stream(ts) && Stream(rest) && Fresh(rest) && |kids| == 2
    requires HeadBlock(ts) == GotAll([kids[0], kids[1]], rest)
    ensures If(ts) == Got(IfTree(kids), rest)
  {
    assert kids == [kids[0], kids[1]];
  }

  lemma ThreeKids(kids: seq<Tree>)
    requires |kids| == 3
    ensures [kids[0], kids[1]] + [kids[2]] == kids
  {
  }

  lemma {:induction false} IfUndone(t: Tree, rest: seq<Token>)
    requires CanonStmt(t) && t.kind == KIf && Stream(rest) && Fresh(rest)
    ensures Stream(ShowIf(t) + rest) && If(ShowIf(t) + rest) == Got(t, rest)
    decreases t, 4
  {
    if |t.kids| == 2 {
      HeadUndone(t.kids[0], t.kids[1], rest);
      PlainParsed(t.kids, ShowHead(t.kids[0], t.kids[1]) + rest, rest);
    } else if t.kids[2].kind == KIf {
      ElifUndone(t, rest);
    } else {
      ElseUndone(t, rest);
    }
  }

  lemma {:induction false} ElifUndone(t: Tree, rest: seq<Token>)
    requires CanonStmt(t) && t.kind == KIf && |t.kids| == 3 && t.kids[2].kind == KIf && Stream(rest) && Fresh(rest)
    ensures Stream(ShowIf(t) + rest) && If(ShowIf(t) + rest) == Got(t, rest)
    decreases t, 3
  {
    var h, x := ShowHead(t.kids[0], t.kids[1]), ShowIf(t.kids[2]);
    IfUndone(t.kids[2], rest);
    TailOf(ElifTok, x + rest);
    HeadUndone(t.kids[0], t.kids[1], [ElifTok] + (x + rest));
    ElifParsed(t.kids, h + ([ElifTok] + (x + rest)), x + rest, rest);
    Branched(h, ElifTok, x, rest);
  }

  lemma Branched(h: seq<Token>, tok: Token, x: seq<Token>, rest: seq<Token>)
    ensures (h + ([tok] + x)) + rest == h + ([tok] + (x + rest))
  {
  }

  lemma ElifParsed(kids: seq<Tree>, ts: seq<Token>, branch: seq<Token>, rest: seq<Token>)
    requires Stream(ts) && |kids| == 3 && Stream(branch) &&
             HeadBlock(ts) == GotAll([kids[0], kids[1]], [ElifTok] + branch)
    requires If(branch) == Got(kids[2], rest)
    ensures If(ts) == Got(IfTree(kids), rest)
  {
    TailOf(ElifTok, branch);
    ThreeKids(kids);
  }

  lemma ElseParsed(kids: seq<Tree>, ts: seq<Token>, branch: seq<Token>, rest: seq<Token>)
    requires Stream(ts) && |kids| == 3 && Stream(branch) &&
             HeadBlock(ts) == GotAll([kids[0], kids[1]], [ElseTok] + branch)
    requires ColonBlock(branch) == Got(kids[2], rest)
    ensures If(ts) == Got(IfTree(kids), rest)
  {
    TailOf(ElseTok, branch);
    ThreeKids(kids);
  }

  lemma {:induction false} ElseUndone(t: Tree, rest: seq<Token>)
    requires CanonStmt(t) && t.kind == KIf && |t.kids| == 3 && t.kids[2].kind != KIf && Stream(rest)
    ensures Stream(ShowIf(t) + rest) && If(ShowIf(t) + rest) == Got(t, rest)
    decreases t, 3
  {
    var h, x := ShowHead(t.kids[0], t.kids[1]), ShowColon(t.kids[2]);
    ColonUndone(t.kids[2], rest);
    TailOf(ElseTok, x + rest);
    HeadUndone(t.kids[0], t.kids[1], [ElseTok] + (x + rest));
    ElseParsed(t.kids, h + ([ElseTok] + (x + rest)), x + rest, rest);
    Branched(h, ElseTok, x, rest);
  }

  lemma {:induction false} NamesUndone(done: seq<Tree>, kids: seq<Tree>, rest: seq<Token>)
    requires AllNames(kids) && Stream(rest) && rest[0] == RParen
    ensures Stream(ShowNames(kids) + rest) && ParamList(done, ShowNames(kids) + rest) == GotAll(done + kids, rest)
    decreases |kids|
  {
    StreamOf(ShowNames(kids), rest);
    if kids == [] {
      assert ShowNames(kids) + rest == rest && done + kids == done;
    } else if |kids| == 1 {
      TailOf(IdentTok(kids[0].s), rest);
      assert kids == [kids[0]];
    } else {
      NamesUndone(done + [kids[0]], kids[1..], rest);
      Peel2(IdentTok(kids[0].s), Comma, ShowNames(kids[1..]), rest);
      Regroup(done, kids);
    }
  }

  /** The parameters and the body of a def, without its first three tokens. */
  lemma {:induction false} DefRest(ps: seq<Tree>, body: Tree, rest: seq<Token>)
    requires AllNames(ps) && CanonBlock(body) && Stream(rest)
    ensures var ts := ShowNames(ps) + ([RParen] + (ShowColon(body) + rest));
            Stream(ts) && ParamList([], ts) == GotAll(ps, [RParen] + (ShowColon(body) + rest))
    ensures Stream(ShowColon(body) + rest) && ColonBlock(ShowColon(body) + rest) == Got(body, rest)
    decreases body, 3
  {
    ColonUndone(body, rest);
    TailOf(RParen, ShowColon(body) + rest);
    ParamsUndone(ps, [RParen] + (ShowColon(body) + rest));
  }

  lemma ParamsUndone(ps: seq<Tree>, rest: seq<Token>)
    requires AllNames(ps) && Stream(rest) && rest[0] == RParen
    ensures Stream(ShowNames(ps) + rest) && ParamList([], ShowNames(ps) + rest) == GotAll(ps, rest)
  {
    NamesUndone([], ps, rest);
    assert [] + ps == ps;
  }

  /** The text of a def: its first three tokens and what follows. */
  lemma DefText(f: string, names: seq<Token>, colon: seq<Token>, rest: seq<Token>)
    requires Stream(rest)
    ensures var ts := ([DefTok] + ([IdentTok(f)] + ([LParen] + (names + ([RParen] + colon))))) + rest;
            Stream(ts) && ts[0] == DefTok && Tail(ts)[0] == IdentTok(f) && Tail(Tail(ts))[0] == LParen &&
            Tail(Tail(Tail(ts))) == names + ([RParen] + (colon + rest))
  {
    Peel3(DefTok, IdentTok(f), LParen, names + ([RParen] + colon), rest);
    Branched(names, RParen, colon, rest);
  }

  lemma {:induction false} DefUndone(t: Tree, rest: seq<Token>)
    requires CanonStmt(t) && t.kind == KDef && Stream(rest)
    ensures Stream(ShowStmt(t) + rest) && Stmt(ShowStmt(t) + rest) == Got(t, rest)
    decreases t, 4
  {
    var k := |t.kids| - 1;
    DefRest(t.kids[..k], t.kids[k], rest);
    DefText(t.s, ShowNames(t.kids[..k]), ShowColon(t.kids[k]), rest);
    DefBuilt(t.kids[..k], t.kids[k], ShowStmt(t) + rest, ShowColon(t.kids[k]) + rest, rest);
    SplitLast(t.kids);
  }

  lemma SplitLast(kids: seq<Tree>)
    requires kids != []
    ensures kids[..|kids| - 1] + [kids[|kids| - 1]] == kids
  {
  }

  lemma DefBuilt(ps: seq<Tree>, body: Tree, ts: seq<Token>, colon: seq<Token>, rest: seq<Token>)
    requires Stream(ts) && ts[0] == DefTok && Tail(ts)[0].IdentTok? && Tail(Tail(ts))[0] == LParen && Stream(colon)
    requires ParamList([], Tail(Tail(Tail(ts)))) == GotAll(ps, [RParen] + colon)
    requires ColonBlock(colon) == Got(body, rest)
    ensures Stmt(ts) == Got(DefTree(Tail(ts)[0].s, ps + [body]), rest)
  {
    TailOf(RParen, colon);
    DefParsed(ps, body, ts, [RParen] + colon, rest);
  }

  lemma DefParsed(ps: seq<Tree>, body: Tree, ts: seq<Token>, close: seq<Token>, rest: seq<Token>)
    requires Stream(ts) && ts[0] == DefTok && Tail(ts)[0].IdentTok? && Tail(Tail(ts))[0] == LParen
    requires ParamList([], Tail(Tail(Tail(ts)))) == GotAll(ps, close) && Stream(close) && close[0] == RParen
    requires ColonBlock(Tail(close)) == Got(body, rest)
    ensures Stmt(ts) == Got(DefTree(Tail(ts)[0].s, ps + [body]), rest)
  {
    DefStmt(ts);
  }

  // ---------------------------------------------------------------------
  // Whole programs

  lemma {:induction false} TopUndone(done: seq<Tree>, kids: seq<Tree>)
    requires AllStmts(kids) && |done| + |kids| <= MAX_CHILDREN
    ensures Stream(ShowStmts(kids) + [Eof]) && TopStmts(done, ShowStmts(kids) + [Eof]) == GotAll(done + kids, [Eof])
    ensures SkipNewlines(ShowStmts(kids) + [Eof]) == ShowStmts(kids) + [Eof]
    decreases |kids|
  {
    StmtsStart(kids, [Eof]);
    if kids == [] {
      assert done + kids == done;
    } else {
      StmtsStart(kids[1..], [Eof]);
      Assoc(ShowStmt(kids[0]), ShowStmts(kids[1..]), [Eof]);
      StmtUndone(kids[0], ShowStmts(kids[1..]) + [Eof]);
      TopUndone(done + [kids[0]], kids[1..]);
      TopStep(done, kids[0], ShowStmts(kids) + [Eof], ShowStmts(kids[1..]) + [Eof]);
      Regroup(done, kids);
    }
  }

  /** Every program comes back from the tokens it is printed as. */
  lemma ProgramRoundTrip(t: Tree)
    requires CanonBlock(t)
    ensures Stream(ShowStmts(t.kids) + [Eof]) && Program(ShowStmts(t.kids) + [Eof]) == Got(t, [Eof])
  {
    TopUndone([], t.kids);
    assert [] + t.kids == t.kids;
  }
}
