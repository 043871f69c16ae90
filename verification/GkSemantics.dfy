// What GK programs mean: a semantics of outcomes over a stack of frames.

module GkValues {
  import opened Options

  const MAX_STR: nat := 256

  datatype Value = IntV(n: int) | BoolV(b: bool) | StrV(s: string) | NoneV

  predicate Truthy(v: Value) {
    match v
    case BoolV(b) => b
    case IntV(n) => n != 0
    case StrV(s) => s != ""
    case NoneV => false
  }

  function Digit(d: nat): char
    requires d < 10
  {
    '0' + d as char
  }

  /** Decimal digits of a positive number; none for 0. */
  function Digits(n: nat): (s: string) {
    if n == 0 then "" else Digits(n / 10) + [Digit(n % 10)]
  }

  function Decimal(v: int): string {
    if v == 0 then "0" else if v < 0 then "-" + Digits(-v) else Digits(v)
  }

  function Shown(v: Value): string {
    match v
    case IntV(n) => Decimal(n)
    case BoolV(b) => if b then "True" else "False"
    case StrV(s) => s
    case NoneV => "None"
  }

  /** Concatenation into a buffer of 256 bytes. */
  function Cat(a: string, b: string): string {
    if |a| + |b| <= MAX_STR - 1 then a + b
    else if |a| >= MAX_STR - 1 then a
    else a + b[..MAX_STR - 1 - |a|]
  }

  /** Division that truncates toward zero, and its remainder. */
  function Quot(a: int, b: int): int
    requires b != 0
  {
    if (a >= 0) == (b >= 0) then Abs(a) / Abs(b) else -(Abs(a) / Abs(b))
  }

  function Rem(a: int, b: int): int
    requires b != 0
  {
    if a >= 0 then a % Abs(b) else -((-a) % Abs(b))
  }

  function Abs(a: int): nat {
    if a < 0 then -a else a
  }

  /** The number a string of digits spells, after acc. */
  function DigitsValue(s: string, acc: int): int {
    if s == "" then acc else DigitsValue(s[1..], acc * 10 + (s[0] as int - '0' as int))
  }

  predicate AllDigits(s: string) {
    forall i :: 0 <= i < |s| ==> '0' <= s[i] <= '9'
  }

  /** The int() conversion of a string. */
  function ParseInt(s: string): Option<int> {
    var neg := s != "" && s[0] == '-';
    var p := if neg then s[1..] else s;
    if p == "" || !AllDigits(p) then None
    else Some(if neg then -DigitsValue(p, 0) else DigitsValue(p, 0))
  }
}

module GkSemantics {
  import opened Options
  import opened GkSyntax
  import opened GkValues

  const MAX_VARS: nat := 128
  const MAX_FUNCS: nat := 64
  const MAX_PARAMS: nat := 8
  const MAX_CALL_DEPTH: nat := 32

  type Frame = map<string, Value>

  datatype Func = Func(name: string, params: seq<string>, body: Tree)

  /** What a running program has: a stack of frames, functions, input lines to come, and output so far. */
  datatype Env = Env(frames: seq<Frame>, funcs: seq<Func>, lines: seq<string>, out: seq<string>)

  /** The evaluator's error texts; running out of fuel counts as one more. */
  datatype Error =
    | NoError | OutOfFuel | TooManyVariables | TooManyFunctions | CallsTooDeep
    | UndefinedVariable(name: string) | UndefinedFunction(name: string) | WrongArguments
    | MinusNeedsInteger | OperatorNeedsIntegers | DivisionByZero | ModuloByZero | UnknownOperator | UnknownNode
    | CastArity | CastNeedsText | CastBadLiteral | RangeArity | RangeNeedsInteger | ForNeedsInteger

  /** How a piece of program ends. */
  datatype Outcome = Normal(v: Value) | Break | Continue | Return(v: Value) | Fail(msg: Error)

  datatype Result = Result(o: Outcome, env: Env)

  ghost predicate FuncsOk(fs: seq<Func>) {
    forall i :: 0 <= i < |fs| ==> IsBlock(fs[i].body, false)
  }

  ghost predicate EnvOk(e: Env) {
    1 <= |e.frames| <= MAX_CALL_DEPTH + 1 && FuncsOk(e.funcs)
  }

  ghost function Top(e: Env): Frame
    requires e.frames != []
  {
    e.frames[|e.frames| - 1]
  }

  /** Variables in all frames. */
  ghost function Total(frames: seq<Frame>): nat {
    if frames == [] then 0 else Total(frames[..|frames| - 1]) + |frames[|frames| - 1]|
  }

  /** The innermost frame that has the name decides: variables are looked up through all callers. */
  ghost function Lookup(frames: seq<Frame>, x: string): Option<Value> {
    if frames == [] then None
    else if x in frames[|frames| - 1] then Some(frames[|frames| - 1][x])
    else Lookup(frames[..|frames| - 1], x)
  }

  /** Assignment in the innermost frame; None when there is no room. */
  ghost function Bind(frames: seq<Frame>, x: string, v: Value): Option<seq<Frame>>
    requires frames != []
  {
    var k := |frames| - 1;
    if x !in frames[k] && Total(frames) >= MAX_VARS then None
    else Some(frames[k := frames[k][x := v]])
  }

  /** Bindings one after the other. */
  ghost function BindAll(frames: seq<Frame>, xs: seq<string>, vs: seq<Value>): (r: Option<seq<Frame>>)
    requires frames != [] && |xs| == |vs|
    ensures r.Some? ==> |r.value| == |frames|
    decreases |xs|
  {
    if xs == [] then Some(frames)
    else
      var r := Bind(frames, xs[0], vs[0]);
      if r.None? then None else BindAll(r.value, xs[1..], vs[1..])
  }

  ghost function FindFunc(fs: seq<Func>, name: string): (i: nat)
    ensures i <= |fs|
    ensures i < |fs| ==> fs[i].name == name
  {
    FindFuncFrom(fs, name, 0)
  }

  ghost function FindFuncFrom(fs: seq<Func>, name: string, k: nat): (i: nat)
    requires k <= |fs|
    ensures k <= i <= |fs|
    ensures i < |fs| ==> fs[i].name == name
    decreases |fs| - k
  {
    if k == |fs| || fs[k].name == name then k else FindFuncFrom(fs, name, k + 1)
  }

  ghost function Fails(e: Env, msg: Error): Result {
    Result(Fail(msg), e)
  }

  ghost function Gives(e: Env, v: Value): Result {
    Result(Normal(v), e)
  }

  ghost function SetResult(e: Env, x: string, v: Value): (r: Result)
    requires EnvOk(e)
    ensures EnvOk(r.env) && |r.env.frames| == |e.frames|
  {
    var b := Bind(e.frames, x, v);
    if b.None? then Fails(e, TooManyVariables) else Gives(e.(frames := b.value), v)
  }

  /** Both operands evaluated: what the operator gives. */
  function Apply(op: Op, l: Value, r: Value): Outcome {
    if op == Plus && l.StrV? then Normal(StrV(Cat(l.s, Shown(r))))
    else if op == Eq then Normal(BoolV(!l.NoneV? && l == r))
    else if op == Neq then Normal(BoolV(l.NoneV? || l != r))
    else if !l.IntV? || !r.IntV? then Fail(OperatorNeedsIntegers)
    else
      match op
      case Plus => Normal(IntV(l.n + r.n))
      case Minus => Normal(IntV(l.n - r.n))
      case Star => Normal(IntV(l.n * r.n))
      case Slash => if r.n == 0 then Fail(DivisionByZero) else Normal(IntV(Quot(l.n, r.n)))
      case Percent => if r.n == 0 then Fail(ModuloByZero) else Normal(IntV(Rem(l.n, r.n)))
      case Lt => Normal(BoolV(l.n < r.n))
      case Le => Normal(BoolV(l.n <= r.n))
      case Gt => Normal(BoolV(l.n > r.n))
      case Ge => Normal(BoolV(l.n >= r.n))
      case _ => Fail(UnknownOperator)
  }

  function ApplyUnary(op: Op, v: Value): Outcome {
    if op == Minus then (if v.IntV? then Normal(IntV(-v.n)) else Fail(MinusNeedsInteger))
    else Normal(BoolV(!Truthy(v)))
  }

  function CastInt(v: Value): Outcome {
    if v.IntV? then Normal(v)
    else if !v.StrV? then Fail(CastNeedsText)
    else match ParseInt(v.s)
         case None => Fail(CastBadLiteral)
         case Some(n) => Normal(IntV(n))
  }

  function Params(kids: seq<Tree>): (ps: seq<string>)
  {
    seq(if |kids| > MAX_PARAMS then MAX_PARAMS else |kids|, i requires 0 <= i < |kids| => kids[i].s)
  }

  /** The function a def statement defines. */
  ghost function DefOf(t: Tree): (f: Func)
    requires t.kind == KDef && IsStmt(t, true)
    ensures IsBlock(f.body, false) && |f.params| <= MAX_PARAMS
  {
    var k := |t.kids| - 1;
    Func(t.s, Params(t.kids[..k]), t.kids[k])
  }

  ghost function Define(e: Env, t: Tree): (r: Result)
    requires EnvOk(e) && t.kind == KDef && IsStmt(t, true)
    ensures EnvOk(r.env) && |r.env.frames| == |e.frames|
  {
    if |e.funcs| >= MAX_FUNCS then Fails(e, TooManyFunctions)
    else
      Gives(e.(funcs := e.funcs + [DefOf(t)]), NoneV)
  }

  // ---------------------------------------------------------------------
  // The semantics.  Only turns of while loops use fuel.

  ghost function Sem(t: Tree, e: Env, fuel: nat): (r: Result)
    requires IsStmt(t, true) && EnvOk(e)
    ensures EnvOk(r.env) && |r.env.frames| == |e.frames|
    decreases fuel, MAX_CALL_DEPTH + 1 - |e.frames|, t, 2, 0
  {
    if t.kind == KBinop then SemBinop(t, e, fuel)
    else if t.kind == KBlock then SemBlock(t, 0, e, NoneV, fuel)
    else if t.kind == KIf then SemIf(t, e, fuel)
    else if t.kind == KWhile then SemWhile(t, e, NoneV, fuel)
    else if t.kind == KFor then SemFor(t, e, fuel)
    else if t.kind == KPrint then SemPrint(t, 0, e, fuel)
    else if t.kind == KInput then SemInput(t, e, fuel)
    else if t.kind == KCall then SemCall(t, e, fuel)
    else if TakesValue(t) then
      var r := SemKid(t, 0, e, fuel);
      if r.o.Normal? then Finish(t, r.o.v, r.env) else r
    else SemLeaf(t, e)
  }

  /** Nodes that evaluate their one child and then do something with its value. */
  predicate TakesValue(t: Tree) {
    (t.kind == KAssign || t.kind == KUnop || t.kind == KReturn || t.kind == KIntCast) && |t.kids| == 1
  }

  ghost function Finish(t: Tree, v: Value, e: Env): (r: Result)
    requires EnvOk(e)
    ensures EnvOk(r.env) && |r.env.frames| == |e.frames|
  {
    if t.kind == KAssign then SetResult(e, t.s, v)
    else if t.kind == KUnop then Result(ApplyUnary(t.op, v), e)
    else if t.kind == KReturn then Result(Return(v), e)
    else Result(CastInt(v), e)
  }

  /** Nodes that evaluate no child. */
  ghost function SemLeaf(t: Tree, e: Env): (r: Result)
    requires IsStmt(t, true) && EnvOk(e)
    ensures EnvOk(r.env) && |r.env.frames| == |e.frames|
  {
    if t.kind == KInt then Gives(e, IntV(t.n))
    else if t.kind == KStr then Gives(e, StrV(t.s))
    else if t.kind == KBool then Gives(e, BoolV(t.n != 0))
    else if t.kind == KVar then
      var x := Lookup(e.frames, t.s);
      if x.None? then Fails(e, UndefinedVariable(t.s)) else Gives(e, x.value)
    else if t.kind == KDef then Define(e, t)
    else if t.kind == KReturn then Result(Return(NoneV), e)
    else if t.kind == KBreak then Result(Break, e)
    else if t.kind == KContinue then Result(Continue, e)
    else if t.kind == KIntCast then Fails(e, CastArity)
    else Fails(e, UnknownNode)
  }

  ghost function SemIf(t: Tree, e: Env, fuel: nat): (r: Result)
    requires t.kind == KIf && IsStmt(t, true) && EnvOk(e)
    ensures EnvOk(r.env) && |r.env.frames| == |e.frames|
    decreases fuel, MAX_CALL_DEPTH + 1 - |e.frames|, t, 0, 1
  {
    var r := SemKid(t, 0, e, fuel);
    if !r.o.Normal? then r
    else if Truthy(r.o.v) then SemKid(t, 1, r.env, fuel)
    else if |t.kids| == 3 then SemKid(t, 2, r.env, fuel)
    else Gives(r.env, NoneV)
  }

  /** The meaning of a child. */
  ghost function SemKid(t: Tree, i: nat, e: Env, fuel: nat): (r: Result)
    requires IsStmt(t, true) && i < |t.kids| && t.kind != KDef && EnvOk(e)
    ensures EnvOk(r.env) && |r.env.frames| == |e.frames|
    decreases fuel, MAX_CALL_DEPTH + 1 - |e.frames|, t, 0, 0
  {
    KidIsStmt(t, i);
    Sem(t.kids[i], e, fuel)
  }

  lemma {:induction false} KidIsStmt(t: Tree, i: nat)
    requires IsStmt(t, true) && i < |t.kids| && t.kind != KDef
    ensures IsStmt(t.kids[i], true)
  {
    if (t.kind == KIf || t.kind == KWhile || t.kind == KFor) && i == 1 {
      BlockIsStmt(t.kids[1], true);
    } else if t.kind != KBlock && !(t.kind == KIf && i == 2) {
      ExprIsStmt(t.kids[i]);
    }
  }

  lemma BlockIsStmt(t: Tree, loop: bool)
    requires IsBlock(t, loop)
    ensures IsStmt(t, loop)
  {
  }

  lemma {:induction false} ExprIsStmt(t: Tree)
    requires IsExpr(t)
    ensures IsStmt(t, true) && IsStmt(t, false)
  {
  }

  ghost function SemBinop(t: Tree, e: Env, fuel: nat): (r: Result)
    requires t.kind == KBinop && IsStmt(t, true) && EnvOk(e)
    ensures EnvOk(r.env) && |r.env.frames| == |e.frames|
    decreases fuel, MAX_CALL_DEPTH + 1 - |e.frames|, t, 0, 1
  {
    var l := SemKid(t, 0, e, fuel);
    if !l.o.Normal? then l
    else if t.op == And && !Truthy(l.o.v) then Gives(l.env, BoolV(false))
    else if t.op == Or && Truthy(l.o.v) then Gives(l.env, BoolV(true))
    else
      var r := SemKid(t, 1, l.env, fuel);
      if !r.o.Normal? then r
      else if t.op == And || t.op == Or then Gives(r.env, BoolV(Truthy(r.o.v)))
      else Result(Apply(t.op, l.o.v, r.o.v), r.env)
  }

  /** Statements of a block from the i-th on; last is the value of the one before. */
  ghost function SemBlock(t: Tree, i: nat, e: Env, last: Value, fuel: nat): (r: Result)
    requires t.kind == KBlock && IsStmt(t, true) && i <= |t.kids| && EnvOk(e)
    ensures EnvOk(r.env) && |r.env.frames| == |e.frames|
    decreases fuel, MAX_CALL_DEPTH + 1 - |e.frames|, t, 0, |t.kids| - i + 1
  {
    if i == |t.kids| then Gives(e, last)
    else
      var r := SemKid(t, i, e, fuel);
      if r.o.Normal? then SemBlock(t, i + 1, r.env, r.o.v, fuel) else r
  }

  /** A while loop; last is the value of the turn before. */
  ghost function SemWhile(t: Tree, e: Env, last: Value, fuel: nat): (r: Result)
    requires t.kind == KWhile && IsStmt(t, true) && EnvOk(e)
    ensures EnvOk(r.env) && |r.env.frames| == |e.frames|
    decreases fuel, MAX_CALL_DEPTH + 1 - |e.frames|, t, 0, 1
  {
    var c := SemKid(t, 0, e, fuel);
    if !c.o.Normal? then c
    else if !Truthy(c.o.v) then Gives(c.env, last)
    else if fuel == 0 then Fails(c.env, OutOfFuel)
    else AfterTurn(t, SemKid(t, 1, c.env, fuel), fuel)
  }

  /** How a while loop goes on after a turn. */
  ghost function AfterTurn(t: Tree, r: Result, fuel: nat): (s: Result)
    requires t.kind == KWhile && IsStmt(t, true) && EnvOk(r.env) && fuel > 0
    ensures EnvOk(s.env) && |s.env.frames| == |r.env.frames|
    decreases fuel, MAX_CALL_DEPTH + 1 - |r.env.frames|, t, 0, 0
  {
    match r.o
    case Normal(v) => SemWhile(t, r.env, v, fuel - 1)
    case Continue => SemWhile(t, r.env, NoneV, fuel - 1)
    case Break => Gives(r.env, NoneV)
    case _ => r
  }

  ghost function SemFor(t: Tree, e: Env, fuel: nat): (r: Result)
    requires t.kind == KFor && IsStmt(t, true) && EnvOk(e)
    ensures EnvOk(r.env) && |r.env.frames| == |e.frames|
    decreases fuel, MAX_CALL_DEPTH + 1 - |e.frames|, t, 1, 0
  {
    if t.kids[0].kind == KRange && t.kids[0].kids == [] then Fails(e, RangeArity)
    else
      var c := Limit(t, e, fuel);
      if !c.o.Normal? then c
      else if !c.o.v.IntV? then
        Fails(c.env, if t.kids[0].kind == KRange then RangeNeedsInteger else ForNeedsInteger)
      else SemTurns(t, 0, c.o.v.n, c.env, NoneV, fuel)
  }

  /** The limit of a for loop: the argument of range, or the expression itself. */
  ghost function Limit(t: Tree, e: Env, fuel: nat): (r: Result)
    requires t.kind == KFor && IsStmt(t, true) && EnvOk(e) && (t.kids[0].kind == KRange ==> t.kids[0].kids != [])
    ensures EnvOk(r.env) && |r.env.frames| == |e.frames|
    decreases fuel, MAX_CALL_DEPTH + 1 - |e.frames|, t, 0, 1
  {
    if t.kids[0].kind == KRange then (ExprIsStmt(t.kids[0]); SemKid(t.kids[0], 0, e, fuel)) else SemKid(t, 0, e, fuel)
  }

  /** Turns of a for loop from the i-th on. */
  ghost function SemTurns(t: Tree, i: nat, limit: int, e: Env, last: Value, fuel: nat): (r: Result)
    requires t.kind == KFor && IsStmt(t, true) && EnvOk(e)
    ensures EnvOk(r.env) && |r.env.frames| == |e.frames|
    decreases fuel, MAX_CALL_DEPTH + 1 - |e.frames|, t, 0, 1 + if i < limit then limit - i else 0
  {
    if i >= limit then Gives(e, last)
    else
      var b := SetResult(e, t.s, IntV(i));
      if !b.o.Normal? then b
      else
        var r := SemKid(t, 1, b.env, fuel);
        match r.o
        case Normal(v) => SemTurns(t, i + 1, limit, r.env, v, fuel)
        case Continue => SemTurns(t, i + 1, limit, r.env, NoneV, fuel)
        case Break => Gives(r.env, NoneV)
        case _ => r
  }

  /** Arguments of print from the i-th on. */
  ghost function SemPrint(t: Tree, i: nat, e: Env, fuel: nat): (r: Result)
    requires t.kind == KPrint && IsStmt(t, true) && i <= |t.kids| && EnvOk(e)
    ensures EnvOk(r.env) && |r.env.frames| == |e.frames|
    decreases fuel, MAX_CALL_DEPTH + 1 - |e.frames|, t, 0, |t.kids| - i + 1
  {
    if i == |t.kids| then Gives(e.(out := e.out + ["\n"]), NoneV)
    else
      var r := SemKid(t, i, e, fuel);
      if !r.o.Normal? then r else SemPrint(t, i + 1, Printed(t, i, r), fuel)
  }

  /** The i-th argument of print put out, and a space unless it is the last. */
  ghost function Printed(t: Tree, i: nat, r: Result): Env
    requires r.o.Normal? && i < |t.kids|
  {
    var sep := if i < |t.kids| - 1 then [" "] else [];
    r.env.(out := r.env.out + [Shown(r.o.v)] + sep)
  }

  ghost function SemInput(t: Tree, e: Env, fuel: nat): (r: Result)
    requires t.kind == KInput && IsStmt(t, true) && EnvOk(e)
    ensures EnvOk(r.env) && |r.env.frames| == |e.frames|
    decreases fuel, MAX_CALL_DEPTH + 1 - |e.frames|, t, 0, 1
  {
    if t.kids == [] then ReadLine(e)
    else
      var r := SemKid(t, 0, e, fuel);
      if r.o.Normal? then ReadLine(r.env.(out := r.env.out + [Shown(r.o.v)])) else r
  }

  ghost function ReadLine(e: Env): (r: Result)
    requires EnvOk(e)
    ensures EnvOk(r.env) && |r.env.frames| == |e.frames|
  {
    var line := if e.lines == [] then "" else e.lines[0];
    Gives(e.(lines := if e.lines == [] then [] else e.lines[1..], out := e.out + ["\n"]), StrV(line))
  }

  datatype ArgsResult = ArgsOk(vals: seq<Value>, env: Env) | ArgsStop(r: Result)

  /** Arguments of a call from the i-th on. */
  ghost function SemArgs(t: Tree, i: nat, e: Env, vals: seq<Value>, fuel: nat): (r: ArgsResult)
    requires t.kind == KCall && IsStmt(t, true) && i == |vals| <= |t.kids| && EnvOk(e)
    ensures r.ArgsOk? ==> EnvOk(r.env) && |r.env.frames| == |e.frames| && |r.vals| == |t.kids|
    ensures r.ArgsStop? ==> EnvOk(r.r.env) && |r.r.env.frames| == |e.frames|
    decreases fuel, MAX_CALL_DEPTH + 1 - |e.frames|, t, 0, |t.kids| - i + 1
  {
    if i == |t.kids| then ArgsOk(vals, e)
    else
      var r := SemKid(t, i, e, fuel);
      if r.o.Normal? then SemArgs(t, i + 1, r.env, vals + [r.o.v], fuel) else ArgsStop(r)
  }

  ghost function SemCall(t: Tree, e: Env, fuel: nat): (r: Result)
    requires t.kind == KCall && IsStmt(t, true) && EnvOk(e)
    ensures EnvOk(r.env) && |r.env.frames| == |e.frames|
    decreases fuel, MAX_CALL_DEPTH + 1 - |e.frames|, t, 1, 0
  {
    var k := FindFunc(e.funcs, t.s);
    if k == |e.funcs| then Fails(e, UndefinedFunction(t.s))
    else if |t.kids| != |e.funcs[k].params| then Fails(e, WrongArguments)
    else if |e.frames| - 1 >= MAX_CALL_DEPTH then Fails(e, CallsTooDeep)
    else
      var f := e.funcs[k];
      var args := SemArgs(t, 0, e, [], fuel);
      if args.ArgsStop? then args.r else SemBody(f, args.vals, args.env, fuel)
  }

  /** A function body run in a frame of its own. */
  ghost function SemBody(f: Func, vals: seq<Value>, e: Env, fuel: nat): (r: Result)
    requires IsBlock(f.body, false) && |vals| == |f.params| && EnvOk(e) && |e.frames| <= MAX_CALL_DEPTH
    ensures EnvOk(r.env) && |r.env.frames| == |e.frames|
    decreases fuel, MAX_CALL_DEPTH - |e.frames|, f.body, 3, 0
  {
    var b := BindAll(e.frames + [map[]], f.params, vals);
    if b.None? then Fails(e, TooManyVariables)
    else
      LoopAllows(f.body);
      Leave(Sem(f.body, e.(frames := b.value), fuel))
  }

  /** A call over: its frame is gone, and a returned value is the value of the call. */
  ghost function Leave(r: Result): (l: Result)
    requires EnvOk(r.env) && |r.env.frames| >= 2
    ensures EnvOk(l.env) && |l.env.frames| == |r.env.frames| - 1
  {
    var env := r.env.(frames := r.env.frames[..|r.env.frames| - 1]);
    if r.o.Return? then Gives(env, r.o.v) else Result(r.o, env)
  }
}
