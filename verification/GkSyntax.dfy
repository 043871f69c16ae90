// Syntax of the GK language: tokens, syntax trees, and the node arena that holds trees.

module GkSyntax {
  const MAX_NODES: nat := 2048
  const MAX_CHILDREN: nat := 64

  /** Operator tokens; NoOp stands for the operator field of nodes that have none. */
  datatype Op = Plus | Minus | Star | Slash | Percent | Eq | Neq | Lt | Le | Gt | Ge | And | Or | Not | NoOp

  datatype Token =
    | IntTok(n: int) | StrTok(s: string) | IdentTok(s: string) | OpTok(op: Op) | AssignTok
    | LParen | RParen | Comma | Colon
    | IfTok | ElifTok | ElseTok | WhileTok | ForTok | InTok | DefTok | ReturnTok | BreakTok | ContinueTok
    | TrueTok | FalseTok | Newline | Indent | Dedent | Eof

  datatype Kind =
    | KInt | KStr | KBool | KVar | KAssign | KBinop | KUnop | KCall | KIf | KWhile | KFor | KDef | KReturn
    | KBreak | KContinue | KBlock | KPrint | KRange | KInput | KIntCast

  /** A syntax tree: a node with its children in place. */
  datatype Tree = Tree(kind: Kind, n: int, s: string, op: Op, kids: seq<Tree>)

  /** A node of the arena: children are indices. */
  datatype Node = Node(kind: Kind, n: int, s: string, op: Op, child: seq<int>)

  predicate IsPrint(x: string) {
    |x| == 5 && x[0] == 'p' && x[1] == 'r' && x[2] == 'i' && x[3] == 'n' && x[4] == 't'
  }

  predicate IsRange(x: string) {
    |x| == 5 && x[0] == 'r' && x[1] == 'a' && x[2] == 'n' && x[3] == 'g' && x[4] == 'e'
  }

  predicate IsInput(x: string) {
    |x| == 5 && x[0] == 'i' && x[1] == 'n' && x[2] == 'p' && x[3] == 'u' && x[4] == 't'
  }

  predicate IsInt(x: string) {
    |x| == 3 && x[0] == 'i' && x[1] == 'n' && x[2] == 't'
  }

  /** The node kind of a call, by the name called. */
  function CallKind(x: string): Kind {
    if IsPrint(x) then KPrint else if IsRange(x) then KRange else if IsInput(x) then KInput
    else if IsInt(x) then KIntCast else KCall
  }

  function IntLit(v: int): Tree { Tree(KInt, v, "", NoOp, []) }
  function StrLit(v: string): Tree { Tree(KStr, 0, v, NoOp, []) }
  function BoolLit(b: bool): Tree { Tree(KBool, if b then 1 else 0, "", NoOp, []) }
  function VarRef(x: string): Tree { Tree(KVar, 0, x, NoOp, []) }
  function CallTree(f: string, args: seq<Tree>): Tree { Tree(CallKind(f), 0, f, NoOp, args) }
  function UnTree(op: Op, e: Tree): Tree { Tree(KUnop, 0, "", op, [e]) }
  function BinTree(op: Op, l: Tree, r: Tree): Tree { Tree(KBinop, 0, "", op, [l, r]) }

  predicate IsCallKind(k: Kind) {
    k == KCall || k == KPrint || k == KRange || k == KInput || k == KIntCast
  }

  predicate IsUnary(op: Op) {
    op == Minus || op == Not
  }

  /** Level of a binary operator in the grammar, loosest first; 0 for the rest. */
  function LevelOf(op: Op): nat {
    match op
    case Or => 1
    case And => 2
    case Eq | Neq | Lt | Le | Gt | Ge => 3
    case Plus | Minus => 4
    case Star | Slash | Percent => 5
    case Not | NoOp => 0
  }

  predicate IsLiteral(k: Kind) {
    k == KInt || k == KStr || k == KBool || k == KVar
  }

  /** Trees of expressions. */
  predicate IsExpr(t: Tree) {
    (if t.kind == KUnop then |t.kids| == 1 && IsUnary(t.op)
     else if t.kind == KBinop then |t.kids| == 2 && LevelOf(t.op) > 0
     else if IsLiteral(t.kind) then |t.kids| == 0
     else IsCallKind(t.kind)) &&
    forall i :: 0 <= i < |t.kids| ==> IsExpr(t.kids[i])
  }

  /** Trees of statements; break and continue only where loop is true. */
  predicate IsStmt(t: Tree, loop: bool)
    decreases t, 1
  {
    if t.kind == KAssign then |t.kids| == 1 && IsExpr(t.kids[0])
    else if t.kind == KBlock then IsBlock(t, loop)
    else if t.kind == KIf then
      2 <= |t.kids| <= 3 && IsExpr(t.kids[0]) && IsBlock(t.kids[1], loop) &&
      (|t.kids| == 3 ==> (t.kids[2].kind == KIf || t.kids[2].kind == KBlock) && IsStmt(t.kids[2], loop))
    else if t.kind == KWhile || t.kind == KFor then |t.kids| == 2 && IsExpr(t.kids[0]) && IsBlock(t.kids[1], true)
    else if t.kind == KDef then
      |t.kids| >= 1 && (forall i :: 0 <= i < |t.kids| - 1 ==> t.kids[i].kind == KVar) &&
      IsBlock(t.kids[|t.kids| - 1], false)
    else if t.kind == KReturn then |t.kids| <= 1 && (|t.kids| == 1 ==> IsExpr(t.kids[0]))
    else if t.kind == KBreak || t.kind == KContinue then loop && |t.kids| == 0
    else IsExpr(t)
  }

  predicate IsBlock(t: Tree, loop: bool)
    decreases t, 0
  {
    t.kind == KBlock && forall i :: 0 <= i < |t.kids| ==> IsStmt(t.kids[i], loop)
  }

  /** What a statement is where break is not allowed, it is where break is. */
  lemma {:induction false} LoopAllows(t: Tree)
    requires IsStmt(t, false)
    ensures IsStmt(t, true)
    decreases t
  {
    if t.kind == KBlock {
      forall i | 0 <= i < |t.kids|
        ensures IsStmt(t.kids[i], true)
      {
        LoopAllows(t.kids[i]);
      }
    } else if t.kind == KIf {
      LoopAllows(t.kids[1]);
      if |t.kids| == 3 {
        LoopAllows(t.kids[2]);
      }
    }
  }

  /** Node idx of the arena is the root of the tree t. */
  ghost predicate Rep(nodes: seq<Node>, idx: int, t: Tree)
    decreases t
  {
    0 <= idx < |nodes| && nodes[idx].kind == t.kind && nodes[idx].n == t.n && nodes[idx].s == t.s &&
        nodes[idx].op == t.op &&
    |nodes[idx].child| == |t.kids| && forall i :: 0 <= i < |t.kids| ==> Rep(nodes, nodes[idx].child[i], t.kids[i])
  }
}
