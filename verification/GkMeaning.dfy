// What operators, conditions, loops, print and calls mean, stated from the
// language guide's side: on the meaning of a node, given what its parts give.

module GkMeaning {
  import opened Basics
  import opened Options
  import opened GkSyntax
  import opened GkGrammar
  import opened GkValues
  import opened GkSemantics

  // ---------------------------------------------------------------------
  // Operators on integers

  /** The operands, evaluated left to right, give a and b. */
  ghost predicate Operands(t: Tree, e: Env, fuel: nat, a: Value, b: Value)
    requires t.kind == KBinop && IsStmt(t, true) && EnvOk(e)
  {
    SemKid(t, 0, e, fuel).o == Normal(a) && SemKid(t, 1, SemKid(t, 0, e, fuel).env, fuel).o == Normal(b)
  }

  ghost function After(t: Tree, e: Env, fuel: nat): Env
    requires t.kind == KBinop && IsStmt(t, true) && EnvOk(e)
  {
    SemKid(t, 1, SemKid(t, 0, e, fuel).env, fuel).env
  }

  /** q and r are quotient and remainder of a division that truncates toward zero. */
  predicate Truncates(a: int, b: int, q: int, r: int) {
    a == b * q + r && (if b > 0 then -b < r < b else b < r < -b) && (r == 0 || (r < 0 <==> a < 0))
  }

  lemma Negated(y: int, q: int)
    ensures y * (0 - q) == 0 - y * q && (0 - y) * q == 0 - y * q && (0 - y) * (0 - q) == y * q
  {
  }

  /** From the division of the magnitudes to that of the numbers. */
  lemma Signed(x: int, y: int, q: int, r: int)
    requires x == y * q + r && 0 <= r < y && 0 <= x
    ensures Truncates(x, y, q, r) && Truncates(x, 0 - y, 0 - q, r)
    ensures x > 0 ==> Truncates(0 - x, y, 0 - q, 0 - r) && Truncates(0 - x, 0 - y, q, 0 - r)
  {
    Negated(y, q);
  }

  lemma ByMagnitude(a: int, b: int)
    requires b != 0
    ensures var q, r := GkValues.Abs(a) / GkValues.Abs(b), GkValues.Abs(a) % GkValues.Abs(b);
            GkValues.Quot(a, b) == (if a >= 0 <==> b >= 0 then q else 0 - q) &&
            GkValues.Rem(a, b) == if a >= 0 then r else 0 - r
  {
  }

  lemma QuotientOf(a: int, b: int)
    requires b != 0
    ensures Truncates(a, b, GkValues.Quot(a, b), GkValues.Rem(a, b))
  {
    var x: int, y: int := GkValues.Abs(a), GkValues.Abs(b);
    ByMagnitude(a, b);
    DivMod(x, y);
    QuotientFrom(a, b, x, y, x / y, x % y);
  }

  lemma QuotientFrom(a: int, b: int, x: int, y: int, q: int, r: int)
    requires x == y * q + r && 0 <= r < y && x == (if a < 0 then 0 - a else a) && y == if b < 0 then 0 - b else b
    ensures Truncates(a, b, if a >= 0 <==> b >= 0 then q else 0 - q, if a >= 0 then r else 0 - r)
  {
    Signed(x, y, q, r);
  }

  /** Plus, minus and times on integers. */
  lemma ArithmeticMeans(t: Tree, e: Env, fuel: nat, a: int, b: int)
    requires t.kind == KBinop && IsStmt(t, true) && EnvOk(e) && Operands(t, e, fuel, IntV(a), IntV(b))
    ensures t.op == Plus ==> Sem(t, e, fuel) == Result(Normal(IntV(a + b)), After(t, e, fuel))
    ensures t.op == Minus ==> Sem(t, e, fuel) == Result(Normal(IntV(a - b)), After(t, e, fuel))
    ensures t.op == Star ==> Sem(t, e, fuel) == Result(Normal(IntV(a * b)), After(t, e, fuel))
  {
    BothGiven(t, e, fuel, IntV(a), IntV(b));
  }

  lemma BothGiven(t: Tree, e: Env, fuel: nat, a: Value, b: Value)
    requires t.kind == KBinop && IsStmt(t, true) && EnvOk(e) && Operands(t, e, fuel, a, b)
    ensures t.op != And && t.op != Or ==> Sem(t, e, fuel) == Result(Apply(t.op, a, b), After(t, e, fuel))
  {
  }

  /** Division and modulo on integers: the quotient truncates toward zero, and a zero divisor is an error. */
  lemma DivisionMeans(t: Tree, e: Env, fuel: nat, a: int, b: int) returns (q: int, r: int)
    requires t.kind == KBinop && IsStmt(t, true) && EnvOk(e) && Operands(t, e, fuel, IntV(a), IntV(b))
    ensures b != 0 ==> Truncates(a, b, q, r)
    ensures b != 0 && t.op == Slash ==> Sem(t, e, fuel) == Result(Normal(IntV(q)), After(t, e, fuel))
    ensures b != 0 && t.op == Percent ==> Sem(t, e, fuel) == Result(Normal(IntV(r)), After(t, e, fuel))
    ensures b == 0 && t.op == Slash ==> Sem(t, e, fuel).o == Fail(DivisionByZero)
    ensures b == 0 && t.op == Percent ==> Sem(t, e, fuel).o == Fail(ModuloByZero)
  {
    BothGiven(t, e, fuel, IntV(a), IntV(b));
    q, r := 0, 0;
    if b != 0 {
      QuotientOf(a, b);
      q, r := GkValues.Quot(a, b), GkValues.Rem(a, b);
    }
  }

  /** Every comparison of integers is its own order relation. */
  lemma ComparisonMeans(t: Tree, e: Env, fuel: nat, a: int, b: int)
    requires t.kind == KBinop && IsStmt(t, true) && EnvOk(e) && Operands(t, e, fuel, IntV(a), IntV(b))
    ensures t.op == Lt ==> Sem(t, e, fuel) == Result(Normal(BoolV(a < b)), After(t, e, fuel))
    ensures t.op == Le ==> Sem(t, e, fuel) == Result(Normal(BoolV(a <= b)), After(t, e, fuel))
    ensures t.op == Gt ==> Sem(t, e, fuel) == Result(Normal(BoolV(a > b)), After(t, e, fuel))
    ensures t.op == Ge ==> Sem(t, e, fuel) == Result(Normal(BoolV(a >= b)), After(t, e, fuel))
  {
    BothGiven(t, e, fuel, IntV(a), IntV(b));
  }

  // ---------------------------------------------------------------------
  // Operators on values of any kind

  /** Values of one kind, other than None, that are the same. */
  predicate Equal(a: Value, b: Value) {
    (a.IntV? && b.IntV? && a.n == b.n) || (a.BoolV? && b.BoolV? && (a.b <==> b.b)) || (a.StrV? && b.StrV? && a.s == b.s)
  }

  /** == and != compare values of any two kinds; values of different kinds differ, and None differs from everything. */
  lemma EqualityMeans(t: Tree, e: Env, fuel: nat, a: Value, b: Value)
    requires t.kind == KBinop && IsStmt(t, true) && EnvOk(e) && Operands(t, e, fuel, a, b)
    ensures t.op == Eq ==> Sem(t, e, fuel) == Result(Normal(BoolV(Equal(a, b))), After(t, e, fuel))
    ensures t.op == Neq ==> Sem(t, e, fuel) == Result(Normal(BoolV(!Equal(a, b))), After(t, e, fuel))
  {
    BothGiven(t, e, fuel, a, b);
  }

  /** All other operators want integers, except that a string takes anything after a plus. */
  lemma KindsWanted(t: Tree, e: Env, fuel: nat, a: Value, b: Value)
    requires t.kind == KBinop && IsStmt(t, true) && EnvOk(e) && Operands(t, e, fuel, a, b)
    requires t.op != Eq && t.op != Neq && t.op != And && t.op != Or && !(t.op == Plus && a.StrV?)
    ensures Sem(t, e, fuel).o == Fail(OperatorNeedsIntegers) <==> !(a.IntV? && b.IntV?)
  {
    BothGiven(t, e, fuel, a, b);
  }

  /** The number a row of decimal digits stands for. */
  function Spelled(d: string): int {
    if d == "" then 0 else 10 * Spelled(d[..|d| - 1]) + (d[|d| - 1] as int - '0' as int)
  }

  /** d is n in decimal, without needless zeros. */
  predicate IsNumeral(d: string, n: nat) {
    d != "" && (forall i :: 0 <= i < |d| ==> '0' <= d[i] <= '9') && (d[0] == '0' ==> |d| == 1) && Spelled(d) == n
  }

  /** The text of a value: digits without needless zeros and a minus sign in front of negative numbers, or a word. */
  predicate IsTextOf(s: string, v: Value) {
    match v
    case IntV(n) => if n < 0 then s != "" && s[0] == '-' && IsNumeral(s[1..], -n) else IsNumeral(s, n)
    case BoolV(b) => s == if b then "True" else "False"
    case StrV(x) => s == x
    case NoneV => s == "None"
  }

  lemma SpelledMore(p: string, c: char)
    ensures Spelled(p + [c]) == 10 * Spelled(p) + (c as int - '0' as int)
  {
    assert (p + [c])[..|p|] == p;
  }

  lemma NumeralMore(p: string, m: nat, d: nat)
    requires d < 10 && (if m == 0 then p == "" && d > 0 else IsNumeral(p, m) && p[0] != '0')
    ensures IsNumeral(p + [Digit(d)], 10 * m + d) && (p + [Digit(d)])[0] != '0'
  {
    SpelledMore(p, Digit(d));
  }

  lemma {:induction false} DigitsAreText(n: nat)
    requires n > 0
    ensures IsNumeral(Digits(n), n) && Digits(n)[0] != '0'
  {
    if n >= 10 {
      DigitsAreText(n / 10);
    }
    NumeralMore(Digits(n / 10), n / 10, n % 10);
  }

  lemma ShownIsText(v: Value)
    ensures IsTextOf(Shown(v), v)
  {
    if v.IntV? {
      DecimalIsText(v.n);
    }
  }

  lemma NegativeIsText(n: int)
    requires n < 0
    ensures IsTextOf(Decimal(n), IntV(n))
  {
    DigitsAreText(-n);
    var d := Digits(-n);
    assert Decimal(n) == "-" + d && ("-" + d)[1..] == d;
  }

  lemma DecimalIsText(n: int)
    ensures IsTextOf(Decimal(n), IntV(n))
  {
    if n > 0 {
      DigitsAreText(n);
    } else if n < 0 {
      NegativeIsText(n);
    } else {
      assert Spelled("0") == 10 * Spelled("0"[..0]) + 0;
    }
  }

  /** Text joined in a buffer is the joined text, cut at its end. */
  lemma CatCuts(a: string, b: string)
    requires |a| <= 255
    ensures Cat(a, b) == if |a + b| <= 255 then a + b else (a + b)[..255]
  {
  }

  /** A string plus any value is the string followed by the value's text, as far as 255 characters go. */
  lemma JoinMeans(t: Tree, e: Env, fuel: nat, s: string, b: Value) returns (text: string)
    requires t.kind == KBinop && t.op == Plus && IsStmt(t, true) && EnvOk(e) && Operands(t, e, fuel, StrV(s), b)
    requires |s| <= 255
    ensures IsTextOf(text, b)
    ensures var joined := s + text;
            Sem(t, e, fuel) ==
            Result(Normal(StrV(if |joined| <= 255 then joined else joined[..255])), After(t, e, fuel))
  {
    BothGiven(t, e, fuel, StrV(s), b);
    text := Shown(b);
    ShownIsText(b);
    CatCuts(s, text);
  }

  /** What the guide calls truthy: everything but 0, False and the empty string; None is falsy too. */
  predicate IsTrue(v: Value) {
    v != IntV(0) && v != BoolV(false) && v != StrV("") && v != NoneV
  }

  /** and evaluates its right side only when the left one is true, and or only when it is false. */
  lemma LogicMeans(t: Tree, e: Env, fuel: nat, a: Value)
    requires t.kind == KBinop && IsStmt(t, true) && EnvOk(e) && SemKid(t, 0, e, fuel).o == Normal(a)
    ensures var e1 := SemKid(t, 0, e, fuel).env;
            var r := SemKid(t, 1, e1, fuel);
            (t.op == And && !IsTrue(a) ==> Sem(t, e, fuel) == Result(Normal(BoolV(false)), e1)) &&
            (t.op == Or && IsTrue(a) ==> Sem(t, e, fuel) == Result(Normal(BoolV(true)), e1)) &&
            ((t.op == And && IsTrue(a)) || (t.op == Or && !IsTrue(a)) ==>
               Sem(t, e, fuel) == if r.o.Normal? then Result(Normal(BoolV(IsTrue(r.o.v))), r.env) else r)
  {
  }

  /** Unary minus negates integers and wants one; not inverts the truth of any value. */
  lemma UnaryMeans(t: Tree, e: Env, fuel: nat, a: Value)
    requires t.kind == KUnop && IsStmt(t, true) && EnvOk(e) && SemKid(t, 0, e, fuel).o == Normal(a)
    ensures var e1 := SemKid(t, 0, e, fuel).env;
            (t.op == Minus && a.IntV? ==> Sem(t, e, fuel) == Result(Normal(IntV(0 - a.n)), e1)) &&
            (t.op == Minus && !a.IntV? ==> Sem(t, e, fuel).o == Fail(MinusNeedsInteger)) &&
            (t.op == Not ==> Sem(t, e, fuel) == Result(Normal(BoolV(!IsTrue(a))), e1))
  {
  }

  // ---------------------------------------------------------------------
  // Conditions and loops

  /** A condition picks the first branch exactly when it is truthy. */
  lemma IfMeans(t: Tree, e: Env, fuel: nat, c: Value)
    requires t.kind == KIf && IsStmt(t, true) && EnvOk(e) && SemKid(t, 0, e, fuel).o == Normal(c)
    ensures var e1 := SemKid(t, 0, e, fuel).env;
            Sem(t, e, fuel) == if IsTrue(c) then SemKid(t, 1, e1, fuel)
                               else if |t.kids| == 3 then SemKid(t, 2, e1, fuel) else Result(Normal(NoneV), e1)
  {
  }

  /** How a loop goes on after a turn of its body: whatever the body gave, only its changes are carried on. */
  ghost predicate SameEnd(r: Result, r': Result) {
    r.env == r'.env && (r.o == r'.o || (r.o.Normal? && r'.o.Normal?))
  }

  lemma {:induction false} LastIsLast(t: Tree, e: Env, x: Value, y: Value, fuel: nat)
    requires t.kind == KWhile && IsStmt(t, true) && EnvOk(e)
    ensures SameEnd(SemWhile(t, e, x, fuel), SemWhile(t, e, y, fuel))
  {
  }

  lemma OneTurn(t: Tree, e: Env, fuel: nat, c: Value)
    requires t.kind == KWhile && IsStmt(t, true) && EnvOk(e) && SemKid(t, 0, e, fuel).o == Normal(c) && fuel > 0
    ensures Sem(t, e, fuel) == if !IsTrue(c) then Result(Normal(NoneV), SemKid(t, 0, e, fuel).env)
                               else AfterTurn(t, SemKid(t, 1, SemKid(t, 0, e, fuel).env, fuel), fuel)
  {
    assert Sem(t, e, fuel) == SemWhile(t, e, NoneV, fuel);
  }

  lemma AgainIs(t: Tree, e: Env, fuel: nat)
    requires t.kind == KWhile && IsStmt(t, true) && EnvOk(e)
    ensures Sem(t, e, fuel) == SemWhile(t, e, NoneV, fuel)
  {
  }

  /**
    A while loop ends when its condition is falsy; otherwise its body runs, and
    then the loop runs again from there, unless the body breaks, returns or fails.
   */
  lemma WhileMeans(t: Tree, e: Env, fuel: nat, c: Value)
    requires t.kind == KWhile && IsStmt(t, true) && EnvOk(e) && SemKid(t, 0, e, fuel).o == Normal(c) && fuel > 0
    ensures var e1 := SemKid(t, 0, e, fuel).env;
            var b := SemKid(t, 1, e1, fuel);
            (!IsTrue(c) ==> Sem(t, e, fuel) == Result(Normal(NoneV), e1)) &&
            (IsTrue(c) && (b.o.Normal? || b.o.Continue?) ==> SameEnd(Sem(t, e, fuel), Sem(t, b.env, fuel - 1))) &&
            (IsTrue(c) && b.o.Break? ==> Sem(t, e, fuel) == Result(Normal(NoneV), b.env)) &&
            (IsTrue(c) && (b.o.Return? || b.o.Fail?) ==> Sem(t, e, fuel) == b)
  {
    var b := SemKid(t, 1, SemKid(t, 0, e, fuel).env, fuel);
    OneTurn(t, e, fuel, c);
    AgainIs(t, b.env, fuel - 1);
    if b.o.Normal? {
      LastIsLast(t, b.env, b.o.v, NoneV, fuel - 1);
    }
  }

  /** break, continue and return end a piece of program as their names say; return without a value gives None. */
  lemma JumpMeans(t: Tree, e: Env, fuel: nat)
    requires IsStmt(t, true) && EnvOk(e)
    ensures t.kind == KBreak ==> Sem(t, e, fuel) == Result(Break, e)
    ensures t.kind == KContinue ==> Sem(t, e, fuel) == Result(Continue, e)
    ensures t.kind == KReturn && t.kids == [] ==> Sem(t, e, fuel) == Result(Return(NoneV), e)
    ensures t.kind == KReturn && t.kids != [] && SemKid(t, 0, e, fuel).o.Normal? ==>
              Sem(t, e, fuel) == Result(Return(SemKid(t, 0, e, fuel).o.v), SemKid(t, 0, e, fuel).env)
  {
  }

  /**
    A turn of a for loop: the variable is bound to the number of the turn and the
    body runs; then comes the next turn, unless the body breaks, returns or fails.
   */
  lemma {:induction false} TurnMeans(t: Tree, i: nat, limit: int, e: Env, last: Value, fuel: nat)
    requires t.kind == KFor && IsStmt(t, true) && EnvOk(e) && (t.s in Top(e) || Total(e.frames) < 128)
    ensures SemTurns(t, i, limit, e, last, fuel) ==
            if i >= limit then Result(Normal(last), e)
            else
              var r := SemKid(t, 1, Bound(e, t.s, IntV(i)), fuel);
              match r.o
              case Normal(v) => SemTurns(t, i + 1, limit, r.env, v, fuel)
              case Continue => SemTurns(t, i + 1, limit, r.env, NoneV, fuel)
              case Break => Result(Normal(NoneV), r.env)
              case _ => r
  {
    assert i < limit ==> SetResult(e, t.s, IntV(i)) == Result(Normal(IntV(i)), Bound(e, t.s, IntV(i)));
  }

  /** The environment with the name bound in the innermost frame. */
  ghost function Bound(e: Env, x: string, v: Value): (e': Env)
    requires EnvOk(e)
    ensures EnvOk(e') && |e'.frames| == |e.frames|
  {
    e.(frames := e.frames[|e.frames| - 1 := Top(e)[x := v]])
  }

  /** A for loop takes its turns from 0 on, up to the argument of range, or to the integer it is given. */
  lemma ForMeans(t: Tree, e: Env, fuel: nat, n: int)
    requires t.kind == KFor && IsStmt(t, true) && EnvOk(e)
    requires if t.kids[0].kind == KRange then
               |t.kids[0].kids| > 0 && IsStmt(t.kids[0], true) && SemKid(t.kids[0], 0, e, fuel).o == Normal(IntV(n))
             else SemKid(t, 0, e, fuel).o == Normal(IntV(n))
    ensures var c := if t.kids[0].kind == KRange then SemKid(t.kids[0], 0, e, fuel) else SemKid(t, 0, e, fuel);
            Sem(t, e, fuel) == SemTurns(t, 0, n, c.env, NoneV, fuel)
  {
    LimitIs(t, e, fuel);
    ForIs(t, e, fuel, n);
  }

  lemma LimitIs(t: Tree, e: Env, fuel: nat)
    requires t.kind == KFor && IsStmt(t, true) && EnvOk(e)
    requires t.kids[0].kind == KRange ==> |t.kids[0].kids| > 0 && IsStmt(t.kids[0], true)
    ensures Limit(t, e, fuel) ==
            if t.kids[0].kind == KRange then SemKid(t.kids[0], 0, e, fuel) else SemKid(t, 0, e, fuel)
  {
  }

  lemma ForIs(t: Tree, e: Env, fuel: nat, n: int)
    requires t.kind == KFor && IsStmt(t, true) && EnvOk(e) && (t.kids[0].kind == KRange ==> t.kids[0].kids != [])
    requires Limit(t, e, fuel).o == Normal(IntV(n))
    ensures Sem(t, e, fuel) == SemTurns(t, 0, n, Limit(t, e, fuel).env, NoneV, fuel)
  {
    assert Sem(t, e, fuel) == SemFor(t, e, fuel);
  }

  // ---------------------------------------------------------------------
  // Variables

  /** Names have the kinds of calls that the guide gives them. */
  lemma BuiltIns(args: seq<Tree>)
    ensures CallTree("print", args).kind == KPrint && CallTree("range", args).kind == KRange
    ensures CallTree("input", args).kind == KInput && CallTree("int", args).kind == KIntCast
  {
  }

  /** A name means its binding in the innermost frame that has one, callers' frames included; else it is an error. */
  lemma NameMeans(x: string, e: Env, fuel: nat, k: nat)
    requires EnvOk(e) && k < |e.frames| && forall j :: k < j < |e.frames| ==> x !in e.frames[j]
    ensures x in e.frames[k] ==> Sem(VarRef(x), e, fuel) == Result(Normal(e.frames[k][x]), e)
    ensures x !in e.frames[k] && k == 0 ==> Sem(VarRef(x), e, fuel) == Result(Fail(UndefinedVariable(x)), e)
  {
    InnermostFound(x, e.frames, k);
    assert Sem(VarRef(x), e, fuel) == SemLeaf(VarRef(x), e);
  }

  lemma {:induction false} InnermostFound(x: string, frames: seq<Frame>, k: nat)
    requires k < |frames| && forall j :: k < j < |frames| ==> x !in frames[j]
    ensures x in frames[k] ==> Lookup(frames, x) == Some(frames[k][x])
    ensures x !in frames[k] && k == 0 ==> Lookup(frames, x) == None
    decreases |frames|
  {
    if k < |frames| - 1 {
      InnermostFound(x, frames[..|frames| - 1], k);
    }
  }

  /** After an assignment the name has the value, and every other name has the value it had. */
  lemma AssignMeans(t: Tree, e: Env, fuel: nat, v: Value, y: string)
    requires t.kind == KAssign && IsStmt(t, true) && EnvOk(e) && SemKid(t, 0, e, fuel).o == Normal(v)
    requires Sem(t, e, fuel).o.Normal?
    ensures var e1 := SemKid(t, 0, e, fuel).env;
            var r := Sem(t, e, fuel);
            r.o.v == v && Sem(VarRef(t.s), r.env, fuel) == Result(Normal(v), r.env) &&
            (y != t.s ==> Sem(VarRef(y), r.env, fuel).o == Sem(VarRef(y), e1, fuel).o)
  {
    var e1 := SemKid(t, 0, e, fuel).env;
    assert Sem(t, e, fuel) == Result(Normal(v), Bound(e1, t.s, v));
    BoundNames(e1, t.s, v, y, fuel);
  }

  lemma BoundNames(e: Env, x: string, v: Value, y: string, fuel: nat)
    requires EnvOk(e)
    ensures Sem(VarRef(x), Bound(e, x, v), fuel) == Result(Normal(v), Bound(e, x, v))
    ensures y != x ==> Sem(VarRef(y), Bound(e, x, v), fuel).o == Sem(VarRef(y), e, fuel).o
  {
    var k := |e.frames| - 1;
    assert Bound(e, x, v).frames[..k] == e.frames[..k];
    assert Sem(VarRef(x), Bound(e, x, v), fuel) == SemLeaf(VarRef(x), Bound(e, x, v));
    assert Sem(VarRef(y), e, fuel) == SemLeaf(VarRef(y), e);
    assert Sem(VarRef(y), Bound(e, x, v), fuel) == SemLeaf(VarRef(y), Bound(e, x, v));
  }

  /** An assignment fails exactly when it needs a new variable and there are 128 already. */
  lemma AssignIff(t: Tree, e: Env, fuel: nat, v: Value)
    requires t.kind == KAssign && IsStmt(t, true) && EnvOk(e) && SemKid(t, 0, e, fuel).o == Normal(v)
    ensures var e1 := SemKid(t, 0, e, fuel).env;
            Sem(t, e, fuel).o.Normal? <==> t.s in Top(e1) || Total(e1.frames) < 128
  {
  }

  // ---------------------------------------------------------------------
  // print

  /** All that has been put out, as one text. */
  function Joined(out: seq<string>): string {
    if out == [] then "" else Joined(out[..|out| - 1]) + out[|out| - 1]
  }

  lemma JoinedMore(out: seq<string>, s: string)
    ensures Joined(out + [s]) == Joined(out) + s
  {
    assert (out + [s])[..|out|] == out;
  }

  /** Here the child has this value and does nothing else. */
  ghost predicate GivesAt(t: Tree, i: nat, e: Env, fuel: nat, v: Value)
    requires IsStmt(t, true) && i < |t.kids| && t.kind != KDef && EnvOk(e)
  {
    SemKid(t, i, e, fuel) == Result(Normal(v), e)
  }

  /** So it is wherever the variables are those of e. */
  ghost predicate Settled(t: Tree, i: nat, e: Env, fuel: nat, v: Value)
    requires IsStmt(t, true) && i < |t.kids| && t.kind != KDef
  {
    forall e': Env {:trigger GivesAt(t, i, e', fuel, v)} :: EnvOk(e') && e'.frames == e.frames ==>
        GivesAt(t, i, e', fuel, v)
  }

  /** The value of a literal, or of a name that has one. */
  ghost predicate IsValueOf(t: Tree, e: Env, v: Value) {
    match v
    case IntV(n) => t == IntLit(n) || (t == VarRef(t.s) && Lookup(e.frames, t.s) == Some(v))
    case StrV(s) => t == StrLit(s) || (t == VarRef(t.s) && Lookup(e.frames, t.s) == Some(v))
    case BoolV(b) => t == BoolLit(b) || (t == VarRef(t.s) && Lookup(e.frames, t.s) == Some(v))
    case NoneV => t == VarRef(t.s) && Lookup(e.frames, t.s) == Some(v)
  }

  lemma LiteralSettled(t: Tree, i: nat, e: Env, fuel: nat, v: Value)
    requires IsStmt(t, true) && i < |t.kids| && t.kind != KDef && EnvOk(e) && IsValueOf(t.kids[i], e, v)
    ensures Settled(t, i, e, fuel, v)
  {
    KidIsStmt(t, i);
    forall e': Env | EnvOk(e') && e'.frames == e.frames
      ensures GivesAt(t, i, e', fuel, v)
    {
      LeafGives(t.kids[i], e', fuel, v);
    }
  }

  lemma LeafGives(t: Tree, e: Env, fuel: nat, v: Value)
    requires IsStmt(t, true) && EnvOk(e) && IsValueOf(t, e, v)
    ensures Sem(t, e, fuel) == Result(Normal(v), e)
  {
    assert t.kind == KVar || t.kind == KInt || t.kind == KStr || t.kind == KBool;
    assert Sem(t, e, fuel) == SemLeaf(t, e);
  }

  /** What print puts out: the texts with a space between every two, and a newline. */
  function Line(texts: seq<string>): string {
    if texts == [] then "\n" else if |texts| == 1 then texts[0] + "\n" else texts[0] + " " + Line(texts[1..])
  }

  /** These are the texts of the values. */
  ghost predicate AreTexts(texts: seq<string>, vals: seq<Value>) {
    |texts| == |vals| && forall i :: 0 <= i < |texts| ==> IsTextOf(texts[i], vals[i])
  }

  /** The result is None, and all that has changed is that the text has been put out. */
  ghost predicate Puts(r: Result, e: Env, text: string) {
    r.o == Normal(NoneV) && r.env == e.(out := r.env.out) && Joined(r.env.out) == Joined(e.out) + text
  }

  /** print puts out the texts of its arguments, with spaces between them, and a newline. */
  lemma PrintMeans(t: Tree, e: Env, fuel: nat, vals: seq<Value>) returns (texts: seq<string>)
    requires t.kind == KPrint && IsStmt(t, true) && EnvOk(e) && |vals| == |t.kids|
    requires forall i :: 0 <= i < |vals| ==> Settled(t, i, e, fuel, vals[i])
    ensures AreTexts(texts, vals) && Puts(Sem(t, e, fuel), e, Line(texts))
  {
    texts := PrintFrom(t, 0, e, e, fuel, vals);
    assert vals[0..] == vals;
  }

  lemma {:induction false} PrintFrom(t: Tree, i: nat, e: Env, e0: Env, fuel: nat,
      vals: seq<Value>) returns (texts: seq<string>)
    requires t.kind == KPrint && IsStmt(t, true) && EnvOk(e) && i <= |vals| == |t.kids|
    requires e == e0.(out := e.out) && forall k :: 0 <= k < |vals| ==> Settled(t, k, e0, fuel, vals[k])
    ensures AreTexts(texts, vals[i..]) && Puts(SemPrint(t, i, e, fuel), e, Line(texts))
    decreases |vals| - i
  {
    if i == |vals| {
      texts := [];
      JoinedMore(e.out, "\n");
    } else {
      var text, next := ArgumentPut(t, i, e, e0, fuel, vals[i]);
      var rest := PrintFrom(t, i + 1, next, e0, fuel, vals);
      texts := [text] + rest;
      assert vals[i..] == [vals[i]] + vals[i + 1..];
      LineMore(text, rest);
      PutsMore(SemPrint(t, i, e, fuel), e, next, text + (if rest == [] then "" else " "), Line(rest));
    }
  }

  /** One argument of print. */
  lemma ArgumentPut(t: Tree, i: nat, e: Env, e0: Env, fuel: nat, v: Value) returns (text: string, next: Env)
    requires t.kind == KPrint && IsStmt(t, true) && EnvOk(e) && i < |t.kids|
    requires e == e0.(out := e.out) && Settled(t, i, e0, fuel, v)
    ensures IsTextOf(text, v) && EnvOk(next) && next == e0.(out := next.out)
    ensures SemPrint(t, i, e, fuel) == SemPrint(t, i + 1, next, fuel)
    ensures Joined(next.out) == Joined(e.out) + (text + if i + 1 == |t.kids| then "" else " ")
  {
    assert GivesAt(t, i, e, fuel, v);
    text := Shown(v);
    ShownIsText(v);
    next := Printed(t, i, SemKid(t, i, e, fuel));
    OneArgument(e, next, text, i + 1 == |t.kids|);
  }

  lemma PutsMore(r: Result, e: Env, next: Env, x: string, y: string)
    requires next == e.(out := next.out) && Joined(next.out) == Joined(e.out) + x && Puts(r, next, y)
    ensures Puts(r, e, x + y)
  {
    assert (Joined(e.out) + x) + y == Joined(e.out) + (x + y);
  }

  lemma OneArgument(e: Env, next: Env, text: string, last: bool)
    requires next == e.(out := e.out + [text] + if last then [] else [" "])
    ensures Joined(next.out) == Joined(e.out) + (text + if last then "" else " ")
  {
    JoinedMore(e.out, text);
    if last {
      assert e.out + [text] + [] == e.out + [text];
    } else {
      JoinedMore(e.out + [text], " ");
    }
  }

  lemma LineMore(text: string, rest: seq<string>)
    ensures Line([text] + rest) == text + (if rest == [] then "" else " ") + Line(rest)
  {
    assert ([text] + rest)[1..] == rest;
    assert text + "" + "\n" == text + "\n";
  }

  // ---------------------------------------------------------------------
  // for

  /** for x in range(n): print(x) */
  function CountLoop(x: string, n: int): Tree {
    ForTree(x, CallTree("range", [IntLit(n)]), BlockTree([CallTree("print", [VarRef(x)])]))
  }

  lemma CountLoopIsStmt(x: string, n: int)
    ensures IsStmt(CountLoop(x, n), true)
  {
    BuiltIns([IntLit(n)]);
    CallIsExpr("range", IntLit(n));
    CallIsExpr("print", VarRef(x));
    BuiltIns([VarRef(x)]);
    assert IsBlock(BlockTree([CallTree("print", [VarRef(x)])]), true);
  }

  lemma CallIsExpr(f: string, arg: Tree)
    requires IsExpr(arg)
    ensures IsExpr(CallTree(f, [arg])) && IsStmt(CallTree(f, [arg]), true)
  {
    assert IsExpr(CallTree(f, [arg]));
    ExprIsStmt(CallTree(f, [arg]));
  }

  /** Lines of text, each with its newline. */
  function Lines(texts: seq<string>): string {
    if texts == [] then "" else Line(texts[..1]) + Lines(texts[1..])
  }

  /** There is room for a variable x in the innermost frame. */
  ghost predicate HasRoom(e: Env, x: string) {
    EnvOk(e) && (x in Top(e) || Total(e.frames) < 128)
  }

  /** The body of the loop, with x bound to i, puts out i. */
  lemma BodyPuts(x: string, n: int, e: Env, fuel: nat, i: int) returns (text: string)
    requires EnvOk(e) && Lookup(e.frames, x) == Some(IntV(i)) && IsStmt(CountLoop(x, n), true)
    ensures IsTextOf(text, IntV(i)) && Puts(SemKid(CountLoop(x, n), 1, e, fuel), e, Line([text]))
  {
    var shows := CallTree("print", [VarRef(x)]);
    KidIsStmt(CountLoop(x, n), 1);
    KidIsStmt(BlockTree([shows]), 0);
    text := NamePut(x, e, fuel, IntV(i));
    OneStatement(shows, e, fuel);
  }

  /** print(x) puts out the text of the value of x. */
  lemma NamePut(x: string, e: Env, fuel: nat, v: Value) returns (text: string)
    requires EnvOk(e) && Lookup(e.frames, x) == Some(v) && IsStmt(CallTree("print", [VarRef(x)]), true)
    ensures IsTextOf(text, v) && Puts(Sem(CallTree("print", [VarRef(x)]), e, fuel), e, Line([text]))
  {
    var shows := CallTree("print", [VarRef(x)]);
    BuiltIns([VarRef(x)]);
    LiteralSettled(shows, 0, e, fuel, v);
    var texts := PrintMeans(shows, e, fuel, [v]);
    text := texts[0];
    assert texts == [text];
  }

  /** A block of one statement. */
  lemma OneStatement(t: Tree, e: Env, fuel: nat)
    requires EnvOk(e) && IsStmt(t, true) && IsStmt(BlockTree([t]), true) && Sem(t, e, fuel).o.Normal?
    ensures Sem(BlockTree([t]), e, fuel) == Sem(t, e, fuel)
  {
    var block, r := BlockTree([t]), Sem(t, e, fuel);
    assert SemKid(block, 0, e, fuel) == r;
    assert SemBlock(block, 0, e, NoneV, fuel) == SemBlock(block, 1, r.env, r.o.v, fuel);
  }

  /** One turn: x is bound, the body runs, and the loop goes on with the next number. */
  lemma TurnPuts(x: string, n: int, i: nat, e: Env, last: Value, fuel: nat) returns (text: string, next: Env)
    requires HasRoom(e, x) && i < n && IsStmt(CountLoop(x, n), true)
    ensures IsTextOf(text, IntV(i)) && HasRoom(next, x) && Joined(next.out) == Joined(e.out) + Line([text])
    ensures SemTurns(CountLoop(x, n), i, n, e, last, fuel) ==
            SemTurns(CountLoop(x, n), i + 1, n, next, NoneV, fuel)
  {
    var b := SetResult(e, x, IntV(i));
    text := BodyPuts(x, n, b.env, fuel, i);
    next := SemKid(CountLoop(x, n), 1, b.env, fuel).env;
  }

  /** These are the texts of i, i + 1, and so on. */
  predicate CountFrom(texts: seq<string>, i: int) {
    forall k :: 0 <= k < |texts| ==> IsTextOf(texts[k], IntV(i + k))
  }

  lemma CountMore(text: string, rest: seq<string>, i: int)
    requires IsTextOf(text, IntV(i)) && CountFrom(rest, i + 1)
    ensures CountFrom([text] + rest, i) && Lines([text] + rest) == Line([text]) + Lines(rest)
  {
    var texts := [text] + rest;
    assert texts[..1] == [text] && texts[1..] == rest;
    forall k | 0 <= k < |texts|
      ensures IsTextOf(texts[k], IntV(i + k))
    {
      assert k > 0 ==> texts[k] == rest[k - 1] && IsTextOf(rest[k - 1], IntV(i + 1 + (k - 1)));
    }
  }

  lemma {:induction false} TurnsPut(x: string, n: int, i: nat, e: Env, last: Value, fuel: nat)
    returns (texts: seq<string>)
    requires HasRoom(e, x) && IsStmt(CountLoop(x, n), true)
    ensures |texts| == (if n > i then n - i else 0) && CountFrom(texts, i)
    ensures var r := SemTurns(CountLoop(x, n), i, n, e, last, fuel);
            r.o.Normal? && Joined(r.env.out) == Joined(e.out) + Lines(texts)
    decreases n - i
  {
    if i >= n {
      texts := [];
      assert Joined(e.out) + "" == Joined(e.out);
    } else {
      var text, next := TurnPuts(x, n, i, e, last, fuel);
      var rest := TurnsPut(x, n, i + 1, next, NoneV, fuel);
      texts := [text] + rest;
      CountMore(text, rest, i);
      Regrouped(Joined(e.out), Line([text]), Lines(rest));
    }
  }

  lemma Regrouped(x: string, y: string, z: string)
    ensures x + y + z == x + (y + z)
  {
  }

  /** A for loop over range(n) runs its body with 0, 1 and so on up to n - 1, in this order. */
  lemma {:induction false} ForCounts(x: string, n: int, e: Env, fuel: nat) returns (texts: seq<string>)
    requires HasRoom(e, x)
    ensures |texts| == (if n > 0 then n else 0) && CountFrom(texts, 0)
    ensures IsStmt(CountLoop(x, n), true)
    ensures var r := Sem(CountLoop(x, n), e, fuel);
            r.o.Normal? && Joined(r.env.out) == Joined(e.out) + Lines(texts)
  {
    CountLoopIsStmt(x, n);
    BuiltIns([IntLit(n)]);
    var t := CountLoop(x, n);
    ExprIsStmt(t.kids[0]);
    assert IsExpr(IntLit(n)) && IsStmt(IntLit(n), true);
    LeafGives(IntLit(n), e, fuel, IntV(n));
    assert Limit(t, e, fuel) == SemKid(t.kids[0], 0, e, fuel) == Result(Normal(IntV(n)), e);
    texts := TurnsPut(x, n, 0, e, NoneV, fuel);
  }

  // ---------------------------------------------------------------------
  // Calls

  /** def f(ps): return ps[j] */
  function Picker(f: string, ps: seq<string>, j: nat): Tree
    requires j < |ps|
  {
    DefTree(f, seq(|ps|, i requires 0 <= i < |ps| => VarRef(ps[i])) + [BlockTree([ReturnTree([VarRef(ps[j])])])])
  }

  lemma PickerIsStmt(f: string, ps: seq<string>, j: nat)
    requires j < |ps| <= 8
    ensures var t := Picker(f, ps, j);
            IsStmt(t, true) && DefOf(t) == Func(f, ps, BlockTree([ReturnTree([VarRef(ps[j])])]))
  {
    var t, block := Picker(f, ps, j), BlockTree([ReturnTree([VarRef(ps[j])])]);
    assert IsExpr(VarRef(ps[j])) && IsStmt(ReturnTree([VarRef(ps[j])]), false);
    assert IsBlock(block, false);
    assert t.kids[|t.kids| - 1] == block;
    assert DefOf(t).params == ps;
  }

  lemma {:induction false} FoundLast(fs: seq<Func>, f: Func, k: nat)
    requires k <= |fs| && forall i :: 0 <= i < |fs| ==> fs[i].name != f.name
    ensures FindFuncFrom(fs + [f], f.name, k) == |fs|
    decreases |fs| - k
  {
    if k < |fs| {
      FoundLast(fs, f, k + 1);
    }
  }

  /** Arguments that have their values: the callee gets them in their order. */
  lemma {:induction false} ArgsGiven(t: Tree, i: nat, e: Env, vals: seq<Value>, fuel: nat)
    requires t.kind == KCall && IsStmt(t, true) && i <= |vals| == |t.kids| && EnvOk(e)
    requires forall k :: 0 <= k < |vals| ==> IsValueOf(t.kids[k], e, vals[k])
    ensures SemArgs(t, i, e, vals[..i], fuel) == ArgsOk(vals, e)
    decreases |vals| - i
  {
    if i == |vals| {
      assert vals[..i] == vals;
    } else {
      ArgGiven(t, i, e, vals[..i], vals[i], fuel);
      assert vals[..i] + [vals[i]] == vals[..i + 1];
      ArgsGiven(t, i + 1, e, vals, fuel);
    }
  }

  lemma ArgGiven(t: Tree, i: nat, e: Env, vals: seq<Value>, v: Value, fuel: nat)
    requires t.kind == KCall && IsStmt(t, true) && i == |vals| < |t.kids| && EnvOk(e) && IsValueOf(t.kids[i], e, v)
    ensures SemArgs(t, i, e, vals, fuel) == SemArgs(t, i + 1, e, vals + [v], fuel)
  {
    KidIsStmt(t, i);
    LeafGives(t.kids[i], e, fuel, v);
  }

  /** Different names bound one after the other in the innermost frame, with room for all. */
  lemma {:induction false} AllBound(frames: seq<Frame>, xs: seq<string>, vs: seq<Value>)
    requires frames != [] && |xs| == |vs| && Total(frames) + |xs| <= 128
    requires forall i, j :: 0 <= i < j < |xs| ==> xs[i] != xs[j]
    ensures var r, k := BindAll(frames, xs, vs), |frames| - 1;
            r.Some? && r.value[..k] == frames[..k] &&
            (forall i :: 0 <= i < |xs| ==> xs[i] in r.value[k] && r.value[k][xs[i]] == vs[i]) &&
            (forall y :: y in frames[k] && y !in xs ==> y in r.value[k] && r.value[k][y] == frames[k][y])
    decreases |xs|
  {
    if xs != [] {
      var k := |frames| - 1;
      var b := frames[k := frames[k][xs[0] := vs[0]]];
      assert Bind(frames, xs[0], vs[0]) == Some(b) && b[..k] == frames[..k];
      AllBound(b, xs[1..], vs[1..]);
      assert xs[0] !in xs[1..];
    }
  }

  /** The body of the function, with its parameters bound, returns the j-th. */
  lemma BodyReturns(ps: seq<string>, j: nat, e: Env, v: Value, fuel: nat)
    requires j < |ps| && EnvOk(e) && Lookup(e.frames, ps[j]) == Some(v)
    ensures var block := BlockTree([ReturnTree([VarRef(ps[j])])]);
            IsStmt(block, true) && Sem(block, e, fuel) == Result(Return(v), e)
  {
    var back := ReturnTree([VarRef(ps[j])]);
    var block := BlockTree([back]);
    assert IsExpr(VarRef(ps[j])) && IsStmt(back, true) && IsBlock(block, true);
    KidIsStmt(block, 0);
    KidIsStmt(back, 0);
    LeafGives(VarRef(ps[j]), e, fuel, v);
    assert SemKid(back, 0, e, fuel) == Result(Normal(v), e);
    assert Sem(back, e, fuel) == Result(Return(v), e);
    assert SemKid(block, 0, e, fuel) == Result(Return(v), e);
    assert SemBlock(block, 0, e, NoneV, fuel) == Result(Return(v), e);
  }

  /** The function run on its arguments gives the j-th, and leaves the variables of its caller alone. */
  lemma PickerRuns(f: Func, j: nat, e: Env, vals: seq<Value>, fuel: nat)
    requires j < |f.params| == |vals| && f.body == BlockTree([ReturnTree([VarRef(f.params[j])])])
    requires IsBlock(f.body, false) && EnvOk(e) && |e.frames| <= 32 && Total(e.frames) + |vals| <= 128
    requires forall i, k :: 0 <= i < k < |vals| ==> f.params[i] != f.params[k]
    ensures SemBody(f, vals, e, fuel) == Result(Normal(vals[j]), e)
  {
    var frames := e.frames + [map[]];
    assert frames[..|e.frames|] == e.frames;
    AllBound(frames, f.params, vals);
    var bound := e.(frames := BindAll(frames, f.params, vals).value);
    BodyReturns(f.params, j, bound, vals[j], fuel);
    LoopAllows(f.body);
    assert bound.frames[..|e.frames|] == e.frames;
  }

  /**
    A function defined as def f(ps): return ps[j] and then called gives its j-th
    argument: arguments go to parameters in their order, and return gives the
    value of the call.  Nothing else changes.
   */
  lemma {:induction false} CallMeans(f: string, ps: seq<string>, j: nat, args: seq<Tree>, vals: seq<Value>, e: Env,
      fuel: nat)
    requires EnvOk(e) && |e.frames| <= 32 && |e.funcs| < 64 && CallTree(f, args).kind == KCall
    requires forall i :: 0 <= i < |e.funcs| ==> e.funcs[i].name != f
    requires j < |ps| == |args| == |vals| <= 8 && Total(e.frames) + |ps| <= 128
    requires forall i, k :: 0 <= i < k < |ps| ==> ps[i] != ps[k]
    requires forall i :: 0 <= i < |args| ==> IsExpr(args[i]) && IsValueOf(args[i], e, vals[i])
    ensures IsStmt(Picker(f, ps, j), true) && IsStmt(CallTree(f, args), true)
    ensures var d := Sem(Picker(f, ps, j), e, fuel);
            d.o == Normal(NoneV) && Sem(CallTree(f, args), d.env, fuel) == Result(Normal(vals[j]), d.env)
  {
    PickerIsStmt(f, ps, j);
    ExprIsStmt(CallTree(f, args));
    DefMeans(Picker(f, ps, j), e, fuel);
    CalledLast(CallTree(f, args), DefOf(Picker(f, ps, j)), j, e, vals, fuel);
  }

  lemma CalledLast(t: Tree, def: Func, j: nat, e: Env, vals: seq<Value>, fuel: nat)
    requires t.kind == KCall && IsStmt(t, true) && EnvOk(e) && |e.frames| <= 32 && |t.kids| == |vals| == |def.params|
    requires IsBlock(def.body, false) && t.s == def.name && forall i :: 0 <= i < |e.funcs| ==> e.funcs[i].name != t.s
    requires forall i :: 0 <= i < |vals| ==> IsValueOf(t.kids[i], e, vals[i])
    requires j < |vals| && def.body == BlockTree([ReturnTree([VarRef(def.params[j])])])
    requires Total(e.frames) + |vals| <= 128 && forall i, k :: 0 <= i < k < |vals| ==> def.params[i] != def.params[k]
    ensures var e1 := e.(funcs := e.funcs + [def]);
            EnvOk(e1) && Sem(t, e1, fuel) == Result(Normal(vals[j]), e1)
  {
    FoundLast(e.funcs, def, 0);
    FoundRuns(t, def, j, e.(funcs := e.funcs + [def]), vals, fuel);
  }

  /** A call of the last function of the table, when it is the one found. */
  lemma FoundRuns(t: Tree, def: Func, j: nat, e: Env, vals: seq<Value>, fuel: nat)
    requires t.kind == KCall && IsStmt(t, true) && EnvOk(e) && |e.frames| <= 32 && |t.kids| == |vals| == |def.params|
    requires e.funcs != [] && FindFunc(e.funcs, t.s) == |e.funcs| - 1 && e.funcs[|e.funcs| - 1] == def
    requires forall i :: 0 <= i < |vals| ==> IsValueOf(t.kids[i], e, vals[i])
    requires j < |vals| && def.body == BlockTree([ReturnTree([VarRef(def.params[j])])])
    requires Total(e.frames) + |vals| <= 128 && forall i, k :: 0 <= i < k < |vals| ==> def.params[i] != def.params[k]
    ensures Sem(t, e, fuel) == Result(Normal(vals[j]), e)
  {
    assert vals[..0] == [];
    ArgsGiven(t, 0, e, vals, fuel);
    PickerRuns(def, j, e, vals, fuel);
    assert Sem(t, e, fuel) == SemCall(t, e, fuel);
  }

  /** A function has the parameters that stand in its definition, but no more than the first eight. */
  lemma ParametersMean(t: Tree)
    requires t.kind == KDef && IsStmt(t, true)
    ensures var ps, n := DefOf(t).params, |t.kids| - 1;
            |ps| == (if n < 8 then n else 8) && forall i :: 0 <= i < |ps| ==> ps[i] == t.kids[i].s
  {
  }

  /** def adds a function to the table and is refused exactly when it holds 64. */
  lemma DefMeans(t: Tree, e: Env, fuel: nat)
    requires t.kind == KDef && IsStmt(t, true) && EnvOk(e)
    ensures Sem(t, e, fuel) == if |e.funcs| >= 64 then Result(Fail(TooManyFunctions), e)
                               else Result(Normal(NoneV), e.(funcs := e.funcs + [DefOf(t)]))
  {
  }

  /** A call is refused when 32 calls are open already. */
  lemma DepthMeans(t: Tree, e: Env, fuel: nat, k: nat)
    requires t.kind == KCall && IsStmt(t, true) && EnvOk(e) && |e.frames| == 33
    requires k == FindFunc(e.funcs, t.s) < |e.funcs| && |t.kids| == |e.funcs[k].params|
    ensures Sem(t, e, fuel) == Result(Fail(CallsTooDeep), e)
  {
  }

  // ---------------------------------------------------------------------
  // Blocks, input and int

  /** The block without its first statement. */
  lemma {:induction false} RestOfBlock(t: Tree, ks: seq<Tree>, i: nat, e: Env, last: Value, fuel: nat)
    requires EnvOk(e) && IsStmt(BlockTree([t] + ks), true) && IsStmt(BlockTree(ks), true) && i <= |ks|
    ensures SemBlock(BlockTree([t] + ks), i + 1, e, last, fuel) == SemBlock(BlockTree(ks), i, e, last, fuel)
    decreases |ks| - i
  {
    var a, b := BlockTree([t] + ks), BlockTree(ks);
    if i < |ks| {
      assert a.kids[i + 1] == b.kids[i];
      var r := SemKid(b, i, e, fuel);
      assert SemKid(a, i + 1, e, fuel) == r;
      if r.o.Normal? {
        RestOfBlock(t, ks, i + 1, r.env, r.o.v, fuel);
      }
    }
  }

  lemma LastOfBlock(t: Tree, i: nat, e: Env, x: Value, y: Value, fuel: nat)
    requires t.kind == KBlock && IsStmt(t, true) && i <= |t.kids| && EnvOk(e)
    ensures SameEnd(SemBlock(t, i, e, x, fuel), SemBlock(t, i, e, y, fuel))
    ensures i < |t.kids| ==> SemBlock(t, i, e, x, fuel) == SemBlock(t, i, e, y, fuel)
  {
  }

  /**
    A block runs its first statement and then the others where that left off; when
    the first one breaks, continues, returns or fails, the others do not run.
   */
  lemma BlockMeans(t: Tree, ks: seq<Tree>, e: Env, fuel: nat)
    requires EnvOk(e) && IsStmt(t, true) && IsStmt(BlockTree([t] + ks), true) && IsStmt(BlockTree(ks), true)
    ensures var r := Sem(t, e, fuel);
            (!r.o.Normal? ==> Sem(BlockTree([t] + ks), e, fuel) == r) &&
            (r.o.Normal? && ks == [] ==> Sem(BlockTree([t] + ks), e, fuel) == r) &&
            (r.o.Normal? && ks != [] ==> Sem(BlockTree([t] + ks), e, fuel) == Sem(BlockTree(ks), r.env, fuel))
  {
    var r := Sem(t, e, fuel);
    assert ([t] + ks)[0] == t;
    assert SemKid(BlockTree([t] + ks), 0, e, fuel) == r;
    if r.o.Normal? {
      RestOfBlock(t, ks, 0, r.env, r.o.v, fuel);
      LastOfBlock(BlockTree(ks), 0, r.env, r.o.v, NoneV, fuel);
    }
  }

  /** The next line that is typed is given, or nothing when there is none; this is put out before. */
  ghost predicate GivesLine(r: Result, e: Env, text: string) {
    r.o == Normal(StrV(if e.lines == [] then "" else e.lines[0])) &&
    r.env == e.(lines := if e.lines == [] then [] else e.lines[1..], out := r.env.out) &&
    Joined(r.env.out) == Joined(e.out) + text
  }

  /** input() gives the next line and puts out a newline; a prompt is put out before that. */
  lemma InputMeans(t: Tree, e: Env, fuel: nat) returns (text: string)
    requires t.kind == KInput && IsStmt(t, true) && EnvOk(e)
    ensures t.kids == [] ==> GivesLine(Sem(t, e, fuel), e, "\n")
    ensures t.kids != [] && SemKid(t, 0, e, fuel).o.Normal? ==>
              var r := SemKid(t, 0, e, fuel);
              IsTextOf(text, r.o.v) && GivesLine(Sem(t, e, fuel), r.env, text + "\n")
  {
    JoinedMore(e.out, "\n");
    text := "";
    if t.kids != [] && SemKid(t, 0, e, fuel).o.Normal? {
      var r := SemKid(t, 0, e, fuel);
      text := Shown(r.o.v);
      ShownIsText(r.o.v);
      JoinedMore(r.env.out, text);
      JoinedMore(r.env.out + [text], "\n");
      Regrouped(Joined(r.env.out), text, "\n");
    }
  }

  predicate OnlyDigits(d: string) {
    forall i :: 0 <= i < |d| ==> '0' <= d[i] <= '9'
  }

  lemma {:induction false} SpelledIs(d: string, acc: int, p: string)
    requires acc == Spelled(p)
    ensures DigitsValue(d, acc) == Spelled(p + d)
    decreases |d|
  {
    if d == "" {
      assert p + d == p;
    } else {
      SpelledMore(p, d[0]);
      SpelledIs(d[1..], acc * 10 + (d[0] as int - '0' as int), p + [d[0]]);
      assert p + [d[0]] + d[1..] == p + d;
    }
  }

  /** The number that a text is, when it is an optional minus sign and at least one digit. */
  function IntOf(s: string): Option<int> {
    if s != "" && OnlyDigits(s) then Some(Spelled(s))
    else if |s| > 1 && s[0] == '-' && OnlyDigits(s[1..]) then Some(0 - Spelled(s[1..]))
    else None
  }

  /** int() gives integers back and reads such texts; other texts and other values are errors. */
  lemma CastMeans(t: Tree, e: Env, fuel: nat, a: Value)
    requires t.kind == KIntCast && |t.kids| == 1 && IsStmt(t, true) && EnvOk(e)
    requires SemKid(t, 0, e, fuel).o == Normal(a)
    ensures Sem(t, e, fuel).env == SemKid(t, 0, e, fuel).env
    ensures Sem(t, e, fuel).o == match a
                                 case IntV(n) => Normal(IntV(n))
                                 case StrV(s) => (if IntOf(s).Some? then Normal(IntV(IntOf(s).value))
                                                  else Fail(CastBadLiteral))
                                 case _ => Fail(CastNeedsText)
  {
    CastIs(t, e, fuel, a);
    if a.StrV? {
      TextRead(a.s);
    }
  }

  lemma {:induction false} CastIs(t: Tree, e: Env, fuel: nat, a: Value)
    requires t.kind == KIntCast && |t.kids| == 1 && IsStmt(t, true) && EnvOk(e)
    requires SemKid(t, 0, e, fuel).o == Normal(a)
    ensures Sem(t, e, fuel) == Result(CastInt(a), SemKid(t, 0, e, fuel).env)
  {
  }

  lemma TextRead(s: string)
    ensures ParseInt(s) == IntOf(s)
  {
    if s != "" && s[0] == '-' {
      SignedRead(s);
    } else {
      SpelledFrom(s);
      assert AllDigits(s) == OnlyDigits(s);
    }
  }

  lemma SignedRead(s: string)
    requires s != "" && s[0] == '-'
    ensures ParseInt(s) == IntOf(s)
  {
    SpelledFrom(s[1..]);
    assert AllDigits(s[1..]) == OnlyDigits(s[1..]);
    assert !OnlyDigits(s);
  }

  lemma SpelledFrom(d: string)
    ensures DigitsValue(d, 0) == Spelled(d)
  {
    SpelledIs(d, 0, "");
    assert "" + d == d;
  }
}
