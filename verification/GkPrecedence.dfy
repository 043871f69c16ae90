// How operators group: the precedence table of the language guide, written out
// row by row, decides the tree of every chain of operands and operators.

module GkPrecedence {
  import opened GkSyntax
  import opened GkGrammar

  /** The binary operators of the guide's table, one row a line, tightest first. */
  const ROWS: seq<seq<Op>> :=
    [[Star, Slash, Percent],
     [Plus, Minus],
     [Eq, Neq, Lt, Le, Gt, Ge],
     [And],
     [Or]]

  predicate IsBinary(op: Op) {
    op in ROWS[0] || op in ROWS[1] || op in ROWS[2] || op in ROWS[3] || op in ROWS[4]
  }

  /** The row an operator stands in; a larger number binds less tightly. */
  function RowOf(op: Op): (r: nat)
    requires IsBinary(op)
    ensures r < 5 && op in ROWS[r]
  {
    if op in ROWS[0] then 0 else if op in ROWS[1] then 1 else if op in ROWS[2] then 2
    else if op in ROWS[3] then 3 else 4
  }

  /** The grammar's levels are the rows of the table, counted from the other end. */
  lemma LevelIsRow(op: Op)
    ensures IsBinary(op) <==> LevelOf(op) > 0
    ensures IsBinary(op) ==> LevelOf(op) == 5 - RowOf(op)
  {
  }

  // ---------------------------------------------------------------------
  // Operands

  /** Before this stream, the tokens u are read as the operand t. */
  ghost predicate ReadAs(u: seq<Token>, t: Tree, rest: seq<Token>)
    requires Stream(rest)
  {
    Stream(u + rest) && Unary(u + rest) == Got(t, rest)
  }

  /** The tokens u are an operand that stands for t, whatever follows it but an opening parenthesis. */
  ghost predicate Operand(u: seq<Token>, t: Tree) {
    forall rest {:trigger ReadAs(u, t, rest)} :: Stream(rest) && rest[0] != LParen ==> ReadAs(u, t, rest)
  }

  predicate IsAtom(tok: Token) {
    tok.IntTok? || tok.StrTok? || tok == TrueTok || tok == FalseTok || tok.IdentTok?
  }

  /** The tree of a literal or a name. */
  function Atom(tok: Token): Tree
    requires IsAtom(tok)
  {
    match tok
    case IntTok(n) => IntLit(n)
    case StrTok(s) => StrLit(s)
    case IdentTok(x) => VarRef(x)
    case _ => BoolLit(tok == TrueTok)
  }

  lemma AtomIsOperand(tok: Token)
    requires IsAtom(tok)
    ensures Operand([tok], Atom(tok))
  {
    forall rest | Stream(rest) && rest[0] != LParen
      ensures ReadAs([tok], Atom(tok), rest)
    {
      assert Tail([tok] + rest) == rest;
    }
  }

  /** Unary minus and not bind more tightly than any binary operator: with their operand they are an operand. */
  lemma SignedIsOperand(op: Op, u: seq<Token>, t: Tree)
    requires (op == Minus || op == Not) && Operand(u, t)
    ensures Operand([OpTok(op)] + u, UnTree(op, t))
  {
    forall rest | Stream(rest) && rest[0] != LParen
      ensures ReadAs([OpTok(op)] + u, UnTree(op, t), rest)
    {
      assert ReadAs(u, t, rest);
      assert ([OpTok(op)] + u) + rest == [OpTok(op)] + (u + rest);
      assert Tail([OpTok(op)] + (u + rest)) == u + rest;
    }
  }

  /** Before a closing parenthesis, the tokens u are the expression t. */
  ghost predicate Enclosed(u: seq<Token>, t: Tree, rest: seq<Token>)
    requires Stream(rest)
  {
    Stream(u + rest) && Expr(u + rest) == Got(t, rest)
  }

  /** Whatever is an expression is an operand once it stands in parentheses. */
  lemma ParensAreOperand(u: seq<Token>, t: Tree)
    requires forall rest {:trigger Enclosed(u, t, rest)} :: Stream(rest) && rest[0] == RParen ==> Enclosed(u, t, rest)
    ensures Operand([LParen] + u + [RParen], t)
  {
    forall rest | Stream(rest) && rest[0] != LParen
      ensures ReadAs([LParen] + u + [RParen], t, rest)
    {
      var inner := [RParen] + rest;
      assert Enclosed(u, t, inner);
      assert [LParen] + u + [RParen] + rest == [LParen] + (u + inner);
      assert Tail([LParen] + (u + inner)) == u + inner && Tail(inner) == rest;
    }
  }

  /** No other operator starts an expression. */
  lemma NoOtherPrefix(ts: seq<Token>)
    requires Stream(ts) && ts[0].OpTok? && ts[0].op != Minus && ts[0].op != Not
    ensures Expr(ts) == Bad
  {
    assert Unary(ts) == Bad;
    assert Level(6, ts) == Bad;
    assert Level(5, ts) == Bad && Level(4, ts) == Bad && Level(3, ts) == Bad && Level(2, ts) == Bad;
  }

  // ---------------------------------------------------------------------
  // Chains of operands and operators

  ghost predicate AllOperands(us: seq<seq<Token>>, ts: seq<Tree>) {
    |us| == |ts| && forall i :: 0 <= i < |us| ==> Operand(us[i], ts[i])
  }

  predicate AllBinary(ops: seq<Op>) {
    forall i :: 0 <= i < |ops| ==> IsBinary(ops[i])
  }

  /** Operands with operators between them. */
  function Flat(us: seq<seq<Token>>, ops: seq<Op>): seq<Token>
    requires |us| == |ops| + 1
  {
    if ops == [] then us[0] else us[0] + ([OpTok(ops[0])] + Flat(us[1..], ops[1..]))
  }

  /** The operator that is applied last: the last one of the loosest row that occurs. */
  predicate IsLoosest(ops: seq<Op>, i: nat)
    requires AllBinary(ops)
  {
    i < |ops| && (forall j :: 0 <= j < i ==> RowOf(ops[j]) <= RowOf(ops[i])) &&
    (forall j :: i < j < |ops| ==> RowOf(ops[j]) < RowOf(ops[i]))
  }

  /** A tree groups a chain when its root is the operator applied last, and its sides group what stands beside it. */
  ghost predicate Groups(t: Tree, ts: seq<Tree>, ops: seq<Op>)
    requires |ts| == |ops| + 1 && AllBinary(ops)
    decreases |ops|
  {
    if ops == [] then t == ts[0]
    else exists i: nat :: IsLoosest(ops, i) && Splits(t, ts, ops, i)
  }

  ghost predicate Splits(t: Tree, ts: seq<Tree>, ops: seq<Op>, i: nat)
    requires |ts| == |ops| + 1 && AllBinary(ops) && i < |ops|
    decreases |ops|, 0
  {
    t.kind == KBinop && |t.kids| == 2 && t == BinTree(ops[i], t.kids[0], t.kids[1]) &&
    Groups(t.kids[0], ts[..i + 1], ops[..i]) && Groups(t.kids[1], ts[i + 1..], ops[i + 1..])
  }

  /** All operators stand at this level of the grammar or a tighter one. */
  predicate AtLeast(ops: seq<Op>, k: nat) {
    AllBinary(ops) && forall i :: 0 <= i < |ops| ==> LevelOf(ops[i]) >= k
  }

  /** What follows is no operator of this level or a tighter one, and no call. */
  predicate Stops(rest: seq<Token>, k: nat)
    requires Stream(rest)
  {
    rest[0] != LParen && !(rest[0].OpTok? && LevelOf(rest[0].op) >= k)
  }

  /** A chain cut at an operator. */
  lemma {:induction false} FlatSplits(us: seq<seq<Token>>, ops: seq<Op>, i: nat)
    requires |us| == |ops| + 1 && i < |ops|
    ensures Flat(us, ops) == Flat(us[..i + 1], ops[..i]) + ([OpTok(ops[i])] + Flat(us[i + 1..], ops[i + 1..]))
    decreases i
  {
    if i > 0 {
      FlatSplits(us[1..], ops[1..], i - 1);
      assert us[1..][..i] == us[..i + 1][1..] && ops[1..][..i - 1] == ops[..i][1..];
      assert us[1..][i..] == us[i + 1..] && ops[1..][i..] == ops[i + 1..];
    } else {
      assert us[..1] == [us[0]] && ops[..0] == [];
    }
  }

  /** The last operator of level k, or |ops| when there is none. */
  function LastAt(ops: seq<Op>, k: nat): (i: nat)
    ensures i <= |ops| && (i < |ops| ==> LevelOf(ops[i]) == k)
    ensures forall j :: i < j < |ops| ==> LevelOf(ops[j]) != k
    ensures i == |ops| ==> forall j :: 0 <= j < |ops| ==> LevelOf(ops[j]) != k
    decreases |ops|
  {
    if ops == [] then 0
    else if LevelOf(ops[|ops| - 1]) == k then |ops| - 1
    else
      var i := LastAt(ops[..|ops| - 1], k);
      if i == |ops| - 1 then |ops| else i
  }

  /** Where all operators are of level k or tighter, the last one of level k is applied last. */
  lemma LoosestIs(ops: seq<Op>, k: nat)
    requires AtLeast(ops, k) && LastAt(ops, k) < |ops|
    ensures IsLoosest(ops, LastAt(ops, k))
    ensures AtLeast(ops[..LastAt(ops, k)], k) && AtLeast(ops[LastAt(ops, k) + 1..], k + 1)
  {
    forall j | 0 <= j < |ops|
      ensures LevelOf(ops[j]) == 5 - RowOf(ops[j])
    {
      LevelIsRow(ops[j]);
    }
  }

  /** Read at level k, the chain is the tree t. */
  ghost predicate Ends(k: nat, us: seq<seq<Token>>, ops: seq<Op>, t: Tree, rest: seq<Token>)
    requires |us| == |ops| + 1 && 1 <= k <= 6 && Stream(rest)
  {
    Stream(Flat(us, ops) + rest) && Level(k, Flat(us, ops) + rest) == Got(t, rest)
  }

  /** Read at level k, the chain is folded into t, and the loop of the level goes on. */
  ghost predicate Reaches(k: nat, us: seq<seq<Token>>, ops: seq<Op>, t: Tree, rest: seq<Token>)
    requires |us| == |ops| + 1 && 1 <= k <= 5 && Stream(rest)
  {
    Stream(Flat(us, ops) + rest) && Level(k, Flat(us, ops) + rest) == Chain(k, t, rest)
  }

  /** A chain of operators of level k or tighter is read at level k, and grouped. */
  lemma {:induction false} ChainEnds(k: nat, us: seq<seq<Token>>, ts: seq<Tree>, ops: seq<Op>,
      rest: seq<Token>) returns (t: Tree)
    requires 1 <= k <= 6 && |us| == |ops| + 1 && AllOperands(us, ts) && AtLeast(ops, k) && Stream(rest) &&
             Stops(rest, k)
    ensures Groups(t, ts, ops) && Ends(k, us, ops, t, rest)
    decreases |ops|, 7 - k, 1
  {
    if k == 6 {
      assert ops != [] ==> LevelOf(ops[0]) >= 6;
      assert Operand(us[0], ts[0]) && ReadAs(us[0], ts[0], rest);
      t := ts[0];
    } else {
      t := ChainReaches(k, us, ts, ops, rest);
    }
  }

  lemma {:induction false} ChainReaches(k: nat, us: seq<seq<Token>>, ts: seq<Tree>, ops: seq<Op>,
      rest: seq<Token>) returns (t: Tree)
    requires 1 <= k <= 5 && |us| == |ops| + 1 && AllOperands(us, ts) && AtLeast(ops, k) && Stream(rest) &&
             Stops(rest, k + 1)
    ensures Groups(t, ts, ops) && Reaches(k, us, ops, t, rest)
    decreases |ops|, 7 - k, 0
  {
    var i := LastAt(ops, k);
    if i == |ops| {
      t := ChainEnds(k + 1, us, ts, ops, rest);
      NoneOfLevel(k, us, ops, t, rest);
    } else {
      LoosestIs(ops, k);
      OperandsCut(us, ts, i + 1);
      t := OperatorReaches(k, us, ts, ops, i, rest);
    }
  }

  lemma {:induction false} OperatorReaches(k: nat, us: seq<seq<Token>>, ts: seq<Tree>, ops: seq<Op>, i: nat,
      rest: seq<Token>) returns (t: Tree)
    requires 1 <= k <= 5 && |ts| == |us| == |ops| + 1 && i < |ops| && AllBinary(ops) && IsLoosest(ops, i)
    requires AllOperands(us[..i + 1], ts[..i + 1]) && AllOperands(us[i + 1..], ts[i + 1..])
    requires AtLeast(ops[..i], k) && LevelOf(ops[i]) == k && AtLeast(ops[i + 1..], k + 1)
    requires Stream(rest) && Stops(rest, k + 1)
    ensures Groups(t, ts, ops) && Reaches(k, us, ops, t, rest)
    decreases |ops|, 1
  {
    var b := RightEnds(k, us, ts, ops, i, rest);
    var a := LeftReaches(k, us, ts, ops, i, rest);
    t := BinTree(ops[i], a, b);
    OperatorRead(k, us, ops, i, a, b, rest);
    SplitGroups(ts, ops, i, a, b);
  }

  lemma {:induction false} RightEnds(k: nat, us: seq<seq<Token>>, ts: seq<Tree>, ops: seq<Op>, i: nat,
      rest: seq<Token>) returns (b: Tree)
    requires 1 <= k <= 5 && |ts| == |us| == |ops| + 1 && i < |ops| && AllOperands(us[i + 1..], ts[i + 1..])
    requires AtLeast(ops[i + 1..], k + 1) && Stream(rest) && Stops(rest, k + 1)
    ensures Groups(b, ts[i + 1..], ops[i + 1..]) && Ends(k + 1, us[i + 1..], ops[i + 1..], b, rest)
    decreases |ops| - i - 1, 7
  {
    b := ChainEnds(k + 1, us[i + 1..], ts[i + 1..], ops[i + 1..], rest);
  }

  /** The stream from operator i on. */
  function FromOperator(us: seq<seq<Token>>, ops: seq<Op>, i: nat, rest: seq<Token>): (r: seq<Token>)
    requires |us| == |ops| + 1 && i < |ops| && Stream(rest)
    ensures Stream(r) && r[0] == OpTok(ops[i])
  {
    [OpTok(ops[i])] + (Flat(us[i + 1..], ops[i + 1..]) + rest)
  }

  lemma {:induction false} LeftReaches(k: nat, us: seq<seq<Token>>, ts: seq<Tree>, ops: seq<Op>, i: nat,
      rest: seq<Token>) returns (a: Tree)
    requires 1 <= k <= 5 && |ts| == |us| == |ops| + 1 && i < |ops| && AllOperands(us[..i + 1], ts[..i + 1])
    requires AtLeast(ops[..i], k) && LevelOf(ops[i]) == k && Stream(rest)
    ensures Groups(a, ts[..i + 1], ops[..i]) && Reaches(k, us[..i + 1], ops[..i], a, FromOperator(us, ops, i, rest))
    decreases i, 7
  {
    a := ChainReaches(k, us[..i + 1], ts[..i + 1], ops[..i], FromOperator(us, ops, i, rest));
  }

  lemma OperandsCut(us: seq<seq<Token>>, ts: seq<Tree>, i: nat)
    requires AllOperands(us, ts) && i <= |us|
    ensures AllOperands(us[..i], ts[..i]) && AllOperands(us[i..], ts[i..])
  {
    forall j | 0 <= j < |us| - i
      ensures Operand(us[i..][j], ts[i..][j])
    {
      assert us[i..][j] == us[i + j] && ts[i..][j] == ts[i + j];
    }
  }

  lemma SplitGroups(ts: seq<Tree>, ops: seq<Op>, i: nat, a: Tree, b: Tree)
    requires |ts| == |ops| + 1 && AllBinary(ops) && IsLoosest(ops, i)
    requires Groups(a, ts[..i + 1], ops[..i]) && Groups(b, ts[i + 1..], ops[i + 1..])
    ensures Groups(BinTree(ops[i], a, b), ts, ops)
  {
    assert Splits(BinTree(ops[i], a, b), ts, ops, i);
  }

  /** Without an operator of the level, the level passes on what the next one reads. */
  lemma NoneOfLevel(k: nat, us: seq<seq<Token>>, ops: seq<Op>, t: Tree, rest: seq<Token>)
    requires |us| == |ops| + 1 && 1 <= k <= 5 && Stream(rest) && Ends(k + 1, us, ops, t, rest)
    ensures Reaches(k, us, ops, t, rest)
  {
  }

  /** The last operator of the level: what stands before it is folded, and its right operand is read. */
  lemma OperatorRead(k: nat, us: seq<seq<Token>>, ops: seq<Op>, i: nat, a: Tree, b: Tree, rest: seq<Token>)
    requires 1 <= k <= 5 && |us| == |ops| + 1 && i < |ops| && LevelOf(ops[i]) == k && Stream(rest)
    requires Ends(k + 1, us[i + 1..], ops[i + 1..], b, rest)
    requires Reaches(k, us[..i + 1], ops[..i], a, FromOperator(us, ops, i, rest))
    ensures Reaches(k, us, ops, BinTree(ops[i], a, b), rest)
  {
    var right := Flat(us[i + 1..], ops[i + 1..]);
    var rest1 := FromOperator(us, ops, i, rest);
    FlatSplits(us, ops, i);
    assert Flat(us, ops) + rest == Flat(us[..i + 1], ops[..i]) + rest1;
    assert Tail(rest1) == right + rest;
  }

  /**
    Every chain of operands and binary operators that an expression can end after
    is read as one expression, and grouped by the rows of the table: the operator
    applied last is the last one of the loosest row.
   */
  lemma Precedence(us: seq<seq<Token>>, ts: seq<Tree>, ops: seq<Op>, rest: seq<Token>) returns (t: Tree)
    requires |us| == |ops| + 1 && AllOperands(us, ts) && AllBinary(ops) && Stream(rest)
    requires rest[0] != LParen && !rest[0].OpTok?
    ensures Groups(t, ts, ops)
    ensures Stream(Flat(us, ops) + rest) && Expr(Flat(us, ops) + rest) == Got(t, rest)
  {
    forall i | 0 <= i < |ops|
      ensures LevelOf(ops[i]) >= 1
    {
      LevelIsRow(ops[i]);
    }
    t := ChainEnds(1, us, ts, ops, rest);
  }

  /** There is only one grouping. */
  lemma {:induction false} OneGrouping(t: Tree, t': Tree, ts: seq<Tree>, ops: seq<Op>)
    requires |ts| == |ops| + 1 && AllBinary(ops) && Groups(t, ts, ops) && Groups(t', ts, ops)
    ensures t == t'
    decreases |ops|
  {
    if ops != [] {
      var i: nat :| IsLoosest(ops, i) && Splits(t, ts, ops, i);
      var j: nat :| IsLoosest(ops, j) && Splits(t', ts, ops, j);
      assert i == j;
      OneGrouping(t.kids[0], t'.kids[0], ts[..i + 1], ops[..i]);
      OneGrouping(t.kids[1], t'.kids[1], ts[i + 1..], ops[i + 1..]);
    }
  }

  lemma GroupsOne(x: Tree, p: Op, y: Tree)
    requires IsBinary(p)
    ensures Groups(BinTree(p, x, y), [x, y], [p])
  {
    assert [x, y][..1] == [x] && [x, y][1..] == [y];
    SplitGroups([x, y], [p], 0, x, y);
  }

  lemma GroupsLeft(x: Tree, p: Op, y: Tree, q: Op, z: Tree)
    requires IsBinary(p) && IsBinary(q) && RowOf(p) <= RowOf(q)
    ensures Groups(BinTree(q, BinTree(p, x, y), z), [x, y, z], [p, q])
  {
    var ts, ops := [x, y, z], [p, q];
    GroupsOne(x, p, y);
    assert ts[..2] == [x, y] && ts[2..] == [z] && ops[..1] == [p] && ops[2..] == [];
    SplitGroups(ts, ops, 1, BinTree(p, x, y), z);
  }

  lemma GroupsRight(x: Tree, p: Op, y: Tree, q: Op, z: Tree)
    requires IsBinary(p) && IsBinary(q) && RowOf(p) > RowOf(q)
    ensures Groups(BinTree(p, x, BinTree(q, y, z)), [x, y, z], [p, q])
  {
    var ts, ops := [x, y, z], [p, q];
    GroupsOne(y, q, z);
    assert ts[..1] == [x] && ts[1..] == [y, z] && ops[..0] == [] && ops[1..] == [q];
    SplitGroups(ts, ops, 0, x, BinTree(q, y, z));
  }

  /** Two operators: the first is applied first when it stands in the same row as the second, or a tighter one. */
  lemma TwoOperators(x: Token, p: Op, y: Token, q: Op, z: Token, rest: seq<Token>)
    requires IsAtom(x) && IsAtom(y) && IsAtom(z) && IsBinary(p) && IsBinary(q) && Stream(rest)
    requires rest[0] != LParen && !rest[0].OpTok?
    ensures var ts := [x, OpTok(p), y, OpTok(q), z] + rest;
            Stream(ts) &&
            Expr(ts) == Got(if RowOf(p) <= RowOf(q) then BinTree(q, BinTree(p, Atom(x), Atom(y)), Atom(z))
                            else BinTree(p, Atom(x), BinTree(q, Atom(y), Atom(z))), rest)
  {
    AtomIsOperand(x);
    AtomIsOperand(y);
    AtomIsOperand(z);
    var ts, ops := [Atom(x), Atom(y), Atom(z)], [p, q];
    var t := Precedence([[x], [y], [z]], ts, ops, rest);
    FlatTwo(x, p, y, q, z);
    if RowOf(p) <= RowOf(q) {
      GroupsLeft(Atom(x), p, Atom(y), q, Atom(z));
      OneGrouping(t, BinTree(q, BinTree(p, Atom(x), Atom(y)), Atom(z)), ts, ops);
    } else {
      GroupsRight(Atom(x), p, Atom(y), q, Atom(z));
      OneGrouping(t, BinTree(p, Atom(x), BinTree(q, Atom(y), Atom(z))), ts, ops);
    }
  }

  lemma FlatTwo(x: Token, p: Op, y: Token, q: Op, z: Token)
    ensures Flat([[x], [y], [z]], [p, q]) == [x, OpTok(p), y, OpTok(q), z]
  {
    var us, ops := [[x], [y], [z]], [p, q];
    assert us[1..] == [[y], [z]] && us[1..][1..] == [[z]] && ops[1..] == [q] && ops[1..][1..] == [];
    assert Flat(us[1..][1..], ops[1..][1..]) == [z];
    assert Flat(us[1..], ops[1..]) == [y, OpTok(q), z];
  }
}
