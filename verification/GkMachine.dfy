// The evaluator: a flat variable array, control flags, and an error string.

module GkMachine {
  import opened Options
  import opened GkSyntax
  import opened GkValues
  import opened GkSemantics
  import opened GkLaws
  import opened GkFrames
  import opened GkStrings

  datatype FuncDef = FuncDef(name: string, params: seq<string>, body: int)

  /** The functions defined so far, bodies as arena nodes and as trees. */
  ghost predicate FuncsMatch(nodes: seq<Node>, fs: seq<FuncDef>, gs: seq<Func>) {
    |fs| == |gs| && forall i {:trigger fs[i]} {:trigger gs[i]} :: 0 <= i < |fs| ==>
      fs[i].name == gs[i].name && fs[i].params == gs[i].params && Rep(nodes, fs[i].body, gs[i].body)
  }

  lemma RepKid(nodes: seq<Node>, idx: int, t: Tree, i: nat)
    requires Rep(nodes, idx, t) && i < |t.kids|
    ensures 0 <= idx < |nodes| && i < |nodes[idx].child| && Rep(nodes, nodes[idx].child[i], t.kids[i])
  {
  }

  class Machine {
    const nodes: seq<Node>
    var vars: seq<Var>
    var funcs: seq<FuncDef>
    var callDepth: nat
    var returning: bool
    var breaking: bool
    var continuing: bool
    var returnVal: Value
    var error: Error
    var lines: seq<string>
    var out: seq<string>

    /** The machine's store is the environment e. */
    ghost predicate Holds(e: Env)
      reads this
    {
      EnvOk(e) && VarsOk(vars, callDepth) && e.frames == FramesOf(vars, callDepth) &&
          FuncsMatch(nodes, funcs, e.funcs) &&
      lines == e.lines && out == e.out
    }

    /** No error, and these control flags. */
    ghost predicate Flags(r: bool, b: bool, c: bool)
      reads this
    {
      error == NoError && returning == r && breaking == b && continuing == c
    }

    /** Ready to evaluate in environment e. */
    ghost predicate Ready(e: Env)
      reads this
    {
      Flags(false, false, false) && Holds(e)
    }

    /** The machine ended as the semantics says, with value v. */
    ghost predicate Answers(r: Result, v: Value)
      reads this
    {
      match r.o
      case Normal(w) => Ready(r.env) && v == w
      case Return(w) => Flags(true, false, false) && Holds(r.env) && v == returnVal == w
      case Break => Flags(false, true, false) && Holds(r.env) && v == NoneV
      case Continue => Flags(false, false, true) && Holds(r.env) && v == NoneV
      case Fail(m) => error == m != NoError && out == r.env.out
    }

    constructor (arena: seq<Node>, input: seq<string>)
      ensures nodes == arena && Ready(Env([map[]], [], input, []))
    {
      nodes := arena;
      vars, funcs, callDepth := [], [], 0;
      returning, breaking, continuing, returnVal := false, false, false, NoneV;
      error, lines, out := NoError, input, [];
      new;
      assert FramesOf([], 0) == [map[]];
    }

    // -----------------------------------------------------------------
    // Variables

    /** find_var. */
    method FindVar(name: string, ghost e: Env) returns (i: int)
      requires Holds(e)
      ensures -1 <= i < |vars|
      ensures Lookup(e.frames, name) == if i < 0 then None else Some(vars[i].val)
    {
      i := |vars| - 1;
      while i >= 0 && vars[i].name != name
        invariant -1 <= i < |vars|
        invariant forall j {:trigger vars[j]} :: i < j < |vars| ==> vars[j].name != name
      {
        i := i - 1;
      }
      LookupIs(vars, callDepth, name, i);
    }

    /** The search of set_var: the current scope only. */
    method FindLocal(name: string) returns (i: int)
      requires VarsOk(vars, callDepth)
      ensures -1 <= i < |vars|
      ensures i >= 0 ==> vars[i].name == name && vars[i].scope == callDepth
      ensures i < 0 ==> Absent(vars, callDepth, name)
    {
      i := |vars| - 1;
      while i >= 0
        invariant -1 <= i < |vars|
        invariant forall j {:trigger vars[j]} :: i < j < |vars| ==>
                  !(vars[j].scope == callDepth && vars[j].name == name)
      {
        if vars[i].scope < callDepth {
          assert forall j {:trigger vars[j]} :: 0 <= j < i ==> vars[j].scope < callDepth;
          return -1;
        }
        if vars[i].name == name {
          return;
        }
        i := i - 1;
      }
    }

    /** set_var. */
    method SetVar(name: string, val: Value, ghost e: Env) returns (ok: bool)
      requires Ready(e)
      modifies this`vars, this`error
      ensures Answers(SetResult(e, name, val), val) && ok == SetResult(e, name, val).o.Normal?
    {
      var i := FindLocal(name);
      ok := i >= 0 || |vars| < MAX_VARS;
      if i >= 0 {
        ChangeVar(i, val, e);
      } else if |vars| >= MAX_VARS {
        FullIs(vars, callDepth, name, val);
        error := TooManyVariables;
      } else {
        AddVar(name, val, e);
      }
    }

    /** The variable at i, which is of the current scope, gets a value. */
    method ChangeVar(i: nat, val: Value, ghost e: Env)
      requires Ready(e) && i < |vars| && vars[i].scope == callDepth
      modifies this`vars
      ensures var r := SetResult(e, old(vars[i].name), val); r.o == Normal(val) && Ready(r.env)
    {
      SetOld(vars, callDepth, i, val);
      vars := vars[i := vars[i].(val := val)];
    }

    /** A new variable of the current scope. */
    method AddVar(name: string, val: Value, ghost e: Env)
      requires Ready(e) && Absent(vars, callDepth, name) && |vars| < MAX_VARS
      modifies this`vars
      ensures var r := SetResult(e, name, val); r.o == Normal(val) && Ready(r.env)
    {
      AppendIs(vars, callDepth, name, val);
      vars := vars + [Var(name, val, callDepth)];
    }

    /** pop_scope; after an error the array need not be in order any more. */
    method PopScope(ghost good: bool, ghost frames: seq<Frame>)
      requires good ==> callDepth > 0 && VarsOk(vars, callDepth) && frames == FramesOf(vars, callDepth)
      modifies this`vars
      ensures good ==> VarsOk(vars, callDepth - 1) && FramesOf(vars, callDepth - 1) == frames[..callDepth]
    {
      while |vars| > 0 && vars[|vars| - 1].scope >= callDepth
        invariant good ==> Popping(vars, callDepth, frames)
        decreases |vars|
      {
        if good {
          PopStep(vars, callDepth, frames);
        }
        vars := vars[..|vars| - 1];
      }
      if good {
        PopEnd(vars, callDepth, frames);
      }
    }

    // -----------------------------------------------------------------
    // Evaluation

    /** eval: does nothing once an error is set. */
    method Eval(idx: int, fuel: nat, ghost t: Tree, ghost e: Env) returns (v: Value)
      requires Rep(nodes, idx, t) && IsStmt(t, true) && EnvOk(e) && callDepth + 1 == |e.frames|
      requires error == NoError ==> Ready(e)
      modifies this
      ensures callDepth == old(callDepth)
      ensures old(error) == NoError ==> Answers(Sem(t, e, fuel), v)
      ensures old(error) != NoError ==> error == old(error) && out == old(out)
      decreases fuel, MAX_CALL_DEPTH + 1 - |e.frames|, t, 2, 0
    {
      if idx < 0 || error != NoError {
        return NoneV;
      }
      var kind := nodes[idx].kind;
      if kind == KBinop {
        v := EvalBinop(idx, fuel, t, e);
      } else if kind == KBlock {
        v := EvalBlock(idx, fuel, t, e);
      } else if kind == KIf {
        v := EvalIf(idx, fuel, t, e);
      } else if kind == KWhile {
        v := EvalWhile(idx, fuel, t, e);
      } else if kind == KFor {
        v := EvalFor(idx, fuel, t, e);
      } else if kind == KPrint {
        v := EvalPrint(idx, fuel, t, e);
      } else if kind == KInput {
        v := EvalInput(idx, fuel, t, e);
      } else if kind == KCall {
        v := EvalCall(idx, fuel, t, e);
      } else if (kind == KAssign || kind == KUnop || kind == KReturn || kind == KIntCast) && |nodes[idx].child| == 1 {
        v := EvalValue(idx, fuel, t, e);
      } else {
        v := EvalLeaf(idx, t, e);
      }
    }

    /** eval on a child. */
    method Kid(idx: int, i: nat, fuel: nat, ghost t: Tree, ghost e: Env) returns (v: Value)
      requires Rep(nodes, idx, t) && IsStmt(t, true) && i < |t.kids| && t.kind != KDef && EnvOk(e) &&
               callDepth + 1 == |e.frames|
      requires error == NoError ==> Ready(e)
      modifies this
      ensures callDepth == old(callDepth)
      ensures old(error) == NoError ==> Answers(SemKid(t, i, e, fuel), v)
      ensures old(error) != NoError ==> error == old(error) && out == old(out)
      decreases fuel, MAX_CALL_DEPTH + 1 - |e.frames|, t, 0, 0
    {
      RepKid(nodes, idx, t, i);
      KidIsStmt(t, i);
      v := Eval(nodes[idx].child[i], fuel, t.kids[i], e);
    }

    /** eval on a child that is an expression: afterwards there is either a value or an error. */
    method ExprKid(idx: int, i: nat, fuel: nat, ghost t: Tree, ghost e: Env) returns (v: Value)
      requires Rep(nodes, idx, t) && IsStmt(t, true) && i < |t.kids| && t.kind != KDef && IsExpr(t.kids[i])
      requires Ready(e)
      modifies this
      ensures callDepth == old(callDepth) && Answers(SemKid(t, i, e, fuel), v)
      ensures error == NoError <==> SemKid(t, i, e, fuel).o.Normal?
      ensures Plain(SemKid(t, i, e, fuel).o)
      decreases fuel, MAX_CALL_DEPTH + 1 - |e.frames|, t, 0, 1
    {
      KidIsPure(t, i, e, fuel);
      v := Kid(idx, i, fuel, t, e);
    }

    /** Nodes without children to evaluate. */
    method EvalLeaf(idx: int, ghost t: Tree, ghost e: Env) returns (v: Value)
      requires Rep(nodes, idx, t) && IsStmt(t, true) && Ready(e) && IsLeaf(t)
      modifies this
      ensures callDepth == old(callDepth) && Answers(SemLeaf(t, e), v)
    {
      var n := nodes[idx];
      if n.kind == KInt || n.kind == KStr || n.kind == KBool {
        v := EvalLiteral(n, t, e);
      } else if n.kind == KVar {
        v := EvalVar(n.s, t, e);
      } else if n.kind == KDef {
        v := EvalDef(idx, t, e);
      } else if n.kind == KReturn || n.kind == KBreak || n.kind == KContinue {
        v := SetFlag(n.kind, t, e);
      } else {
        v := EvalWrong(n.kind, t, e);
      }
    }

    /** Nodes that eval handles without evaluating a child. */
    ghost predicate IsLeaf(t: Tree) {
      t.kind != KBinop && t.kind != KBlock && t.kind != KIf && t.kind != KWhile && t.kind != KFor &&
      t.kind != KPrint && t.kind != KInput && t.kind != KCall && !TakesValue(t)
    }

    method EvalLiteral(n: Node, ghost t: Tree, ghost e: Env) returns (v: Value)
      requires IsStmt(t, true) && Ready(e) && (t.kind == KInt || t.kind == KStr || t.kind == KBool)
      requires n.kind == t.kind && n.n == t.n && n.s == t.s
      ensures Answers(SemLeaf(t, e), v)
    {
      v := if n.kind == KInt then IntV(n.n) else if n.kind == KStr then StrV(n.s) else BoolV(n.n != 0);
    }

    /** int() with the wrong number of arguments, and range() outside for. */
    method EvalWrong(kind: Kind, ghost t: Tree, ghost e: Env) returns (v: Value)
      requires IsStmt(t, true) && Ready(e) && t.kind == kind && (kind == KRange || (kind == KIntCast && !TakesValue(t)))
      modifies this`error
      ensures Answers(SemLeaf(t, e), v)
    {
      error := if kind == KIntCast then CastArity else UnknownNode;
      v := NoneV;
    }

    /** break, continue, and return without a value. */
    method SetFlag(kind: Kind, ghost t: Tree, ghost e: Env) returns (v: Value)
      requires IsStmt(t, true) && Ready(e) && t.kind == kind && (kind == KReturn || kind == KBreak || kind == KContinue)
      modifies this`returning, this`returnVal, this`breaking, this`continuing
      ensures Answers(SemLeaf(t, e), v)
    {
      v := NoneV;
      if kind == KReturn {
        returning, returnVal := true, NoneV;
      } else if kind == KBreak {
        breaking := true;
      } else {
        continuing := true;
      }
    }

    method EvalVar(name: string, ghost t: Tree, ghost e: Env) returns (v: Value)
      requires IsStmt(t, true) && Ready(e) && t.kind == KVar && t.s == name
      modifies this`error
      ensures Answers(SemLeaf(t, e), v)
    {
      var i := FindVar(name, e);
      if i < 0 {
        error := UndefinedVariable(name);
        return NoneV;
      }
      v := vars[i].val;
    }

    /** The parameter loop of a def node. */
    method CopyParams(child: seq<int>, ghost kids: seq<Tree>) returns (ps: seq<string>)
      requires |child| == |kids| && forall i :: 0 <= i < |kids| ==> Rep(nodes, child[i], kids[i])
      ensures ps == Params(kids)
    {
      ps := [];
      var i := 0;
      while i < |child| && i < MAX_PARAMS
        invariant 0 <= i <= |child| && i <= MAX_PARAMS && ps == Params(kids)[..i]
      {
        assert Rep(nodes, child[i], kids[i]);
        ps := ps + [nodes[child[i]].s];
        i := i + 1;
      }
    }

    method EvalDef(idx: int, ghost t: Tree, ghost e: Env) returns (v: Value)
      requires Rep(nodes, idx, t) && IsStmt(t, true) && Ready(e) && t.kind == KDef
      modifies this`funcs, this`error
      ensures Answers(SemLeaf(t, e), v)
    {
      v := NoneV;
      if |funcs| >= MAX_FUNCS {
        error := TooManyFunctions;
        return;
      }
      var f := ReadDef(idx, t);
      AddFunc(f, DefOf(t), e);
    }

    /** The name, parameters and body of a def node. */
    method ReadDef(idx: int, ghost t: Tree) returns (f: FuncDef)
      requires Rep(nodes, idx, t) && IsStmt(t, true) && t.kind == KDef
      ensures var g := DefOf(t); f.name == g.name && f.params == g.params && Rep(nodes, f.body, g.body)
    {
      var n := nodes[idx];
      var body := |n.child| - 1;
      var ps := CopyParams(n.child[..body], t.kids[..body]);
      f := FuncDef(n.s, ps, n.child[body]);
    }

    method AddFunc(f: FuncDef, ghost g: Func, ghost e: Env)
      requires Ready(e) && f.name == g.name && f.params == g.params && Rep(nodes, f.body, g.body) &&
               IsBlock(g.body, false)
      modifies this`funcs
      ensures Ready(e.(funcs := e.funcs + [g]))
    {
      funcs := funcs + [f];
    }

    /** Assignment, unary operators, return and int(): one child, then a step. */
    method EvalValue(idx: int, fuel: nat, ghost t: Tree, ghost e: Env) returns (v: Value)
      requires Rep(nodes, idx, t) && IsStmt(t, true) && TakesValue(t) && Ready(e)
      modifies this
      ensures callDepth == old(callDepth) && Answers(Sem(t, e, fuel), v)
      decreases fuel, MAX_CALL_DEPTH + 1 - |e.frames|, t, 1, 0
    {
      var n := nodes[idx];
      var w := ExprKid(idx, 0, fuel, t, e);
      if error != NoError {
        return NoneV;
      }
      ghost var env := SemKid(t, 0, e, fuel).env;
      if n.kind == KAssign {
        var ok := SetVar(n.s, w, env);
        v := if ok then w else NoneV;
      } else if n.kind == KUnop {
        v := ApplyUnop(n.op, w, env);
      } else if n.kind == KReturn {
        returning, returnVal := true, w;
        v := w;
      } else {
        v := Cast(w, env);
      }
    }

    method ApplyUnop(op: Op, w: Value, ghost e: Env) returns (v: Value)
      requires Ready(e) && IsUnary(op)
      modifies this`error
      ensures Answers(Result(ApplyUnary(op, w), e), v)
    {
      if op == Minus {
        if !w.IntV? {
          error := MinusNeedsInteger;
          return NoneV;
        }
        return IntV(-w.n);
      }
      v := BoolV(!Truthy(w));
    }

    method Cast(w: Value, ghost e: Env) returns (v: Value)
      requires Ready(e)
      modifies this`error
      ensures Answers(Result(CastInt(w), e), v)
    {
      if w.IntV? {
        return w;
      }
      if !w.StrV? {
        error := CastNeedsText;
        return NoneV;
      }
      var r := ParseIntText(w.s);
      if r.None? {
        error := CastBadLiteral;
        return NoneV;
      }
      v := IntV(r.value);
    }

    method EvalBinop(idx: int, fuel: nat, ghost t: Tree, ghost e: Env) returns (v: Value)
      requires Rep(nodes, idx, t) && IsStmt(t, true) && t.kind == KBinop && Ready(e)
      modifies this
      ensures callDepth == old(callDepth) && Answers(SemBinop(t, e, fuel), v)
      decreases fuel, MAX_CALL_DEPTH + 1 - |e.frames|, t, 1, 0
    {
      var n := nodes[idx];
      if n.op == And || n.op == Or {
        v := EvalLogic(idx, fuel, t, e);
        return;
      }
      var l := ExprKid(idx, 0, fuel, t, e);
      if error != NoError {
        return NoneV;
      }
      ghost var e1 := SemKid(t, 0, e, fuel).env;
      var r := ExprKid(idx, 1, fuel, t, e1);
      if error != NoError {
        return NoneV;
      }
      v := ApplyBinop(n.op, l, r, SemKid(t, 1, e1, fuel).env);
    }

    /** and, or: the right operand only when the left one leaves it open. */
    method EvalLogic(idx: int, fuel: nat, ghost t: Tree, ghost e: Env) returns (v: Value)
      requires Rep(nodes, idx, t) && IsStmt(t, true) && t.kind == KBinop && (t.op == And || t.op == Or) && Ready(e)
      modifies this
      ensures callDepth == old(callDepth) && Answers(SemBinop(t, e, fuel), v)
      decreases fuel, MAX_CALL_DEPTH + 1 - |e.frames|, t, 0, 2
    {
      var n := nodes[idx];
      var l := ExprKid(idx, 0, fuel, t, e);
      if n.op == And && !Truthy(l) {
        return BoolV(false);
      }
      if n.op == Or && Truthy(l) {
        return BoolV(true);
      }
      ghost var e1 := SemKid(t, 0, e, fuel).env;
      KidIsPure(t, 1, e1, fuel);
      var r := Kid(idx, 1, fuel, t, e1);
      v := BoolV(Truthy(r));
    }

    /** The operator switch, both operands evaluated. */
    method ApplyBinop(op: Op, l: Value, r: Value, ghost e: Env) returns (v: Value)
      requires Ready(e) && LevelOf(op) > 0 && op != And && op != Or
      modifies this`error
      ensures Answers(Result(Apply(op, l, r), e), v)
    {
      if op == Plus && l.StrV? {
        var text := ValToStr(r);
        var buf := StrCat(l.s, text);
        return StrV(buf);
      }
      if op == Eq {
        return BoolV(!l.NoneV? && l == r);
      }
      if op == Neq {
        return BoolV(l.NoneV? || l != r);
      }
      if !l.IntV? || !r.IntV? {
        error := OperatorNeedsIntegers;
        return NoneV;
      }
      if (op == Slash || op == Percent) && r.n == 0 {
        error := if op == Slash then DivisionByZero else ModuloByZero;
        return NoneV;
      }
      v := Arith(op, l.n, r.n);
    }

    function Arith(op: Op, a: int, b: int): (v: Value)
      requires LevelOf(op) >= 3 && op != Eq && op != Neq && ((op == Slash || op == Percent) ==> b != 0)
      ensures Apply(op, IntV(a), IntV(b)) == Normal(v)
    {
      match op
      case Plus => IntV(a + b)
      case Minus => IntV(a - b)
      case Star => IntV(a * b)
      case Slash => IntV(Quot(a, b))
      case Percent => IntV(Rem(a, b))
      case Lt => BoolV(a < b)
      case Le => BoolV(a <= b)
      case Gt => BoolV(a > b)
      case Ge => BoolV(a >= b)
    }

    method EvalIf(idx: int, fuel: nat, ghost t: Tree, ghost e: Env) returns (v: Value)
      requires Rep(nodes, idx, t) && IsStmt(t, true) && t.kind == KIf && Ready(e)
      modifies this
      ensures callDepth == old(callDepth) && Answers(SemIf(t, e, fuel), v)
      decreases fuel, MAX_CALL_DEPTH + 1 - |e.frames|, t, 1, 0
    {
      var n := nodes[idx];
      var cond := ExprKid(idx, 0, fuel, t, e);
      if error != NoError {
        return NoneV;
      }
      ghost var e1 := SemKid(t, 0, e, fuel).env;
      if Truthy(cond) {
        v := Kid(idx, 1, fuel, t, e1);
      } else if |n.child| == 3 {
        v := Kid(idx, 2, fuel, t, e1);
      } else {
        v := NoneV;
      }
    }

    method EvalBlock(idx: int, fuel: nat, ghost t: Tree, ghost e: Env) returns (v: Value)
      requires Rep(nodes, idx, t) && IsStmt(t, true) && t.kind == KBlock && Ready(e)
      modifies this
      ensures callDepth == old(callDepth) && Answers(SemBlock(t, 0, e, NoneV, fuel), v)
      decreases fuel, MAX_CALL_DEPTH + 1 - |e.frames|, t, 1, 0
    {
      var n := nodes[idx];
      v := NoneV;
      ghost var cur := e;
      var i: nat := 0;
      while i < |n.child|
        invariant i <= |t.kids| && callDepth == old(callDepth) && Ready(cur) && |cur.frames| == |e.frames|
        invariant SemBlock(t, 0, e, NoneV, fuel) == SemBlock(t, i, cur, v, fuel)
      {
        ghost var r := SemKid(t, i, cur, fuel);
        v := Kid(idx, i, fuel, t, cur);
        if error != NoError || returning || breaking || continuing {
          return;
        }
        cur := r.env;
        i := i + 1;
      }
    }

    /** One turn of a loop body: break and continue are consumed here. */
    method Turn(idx: int, fuel: nat, ghost t: Tree, ghost e: Env) returns (v: Value, go: bool)
      requires Rep(nodes, idx, t) && IsStmt(t, true) && (t.kind == KWhile || t.kind == KFor) && Ready(e)
      modifies this
      ensures callDepth == old(callDepth)
      ensures var r := SemKid(t, 1, e, fuel);
              match r.o
              case Normal(w) => go && Ready(r.env) && v == w
              case Continue => go && Ready(r.env) && v == NoneV
              case Break => !go && Ready(r.env) && v == NoneV
              case _ => !go && Answers(r, v)
      decreases fuel, MAX_CALL_DEPTH + 1 - |e.frames|, t, 0, 1
    {
      go := false;
      v := Kid(idx, 1, fuel, t, e);
      if error != NoError || returning {
        return;
      }
      if breaking {
        breaking := false;
        return;
      }
      if continuing {
        continuing := false;
      }
      go := true;
    }

    /** The condition of a while loop and, when it holds, one turn. */
    method WhileTurn(idx: int, left: nat, last: Value, ghost t: Tree, ghost cur: Env,
        ghost goal: Result) returns (v: Value, go: bool, ghost next: Env)
      requires Rep(nodes, idx, t) && IsStmt(t, true) && t.kind == KWhile && Ready(cur)
      requires goal == SemWhile(t, cur, last, left)
      modifies this
      ensures callDepth == old(callDepth)
      ensures go ==>
                left > 0 && Ready(next) && |next.frames| == |cur.frames| && goal == SemWhile(t, next, v, left - 1)
      ensures !go ==> Answers(goal, v)
      decreases left, MAX_CALL_DEPTH + 1 - |cur.frames|, t, 0, 2
    {
      ghost var c := SemKid(t, 0, cur, left);
      v, go, next := last, false, cur;
      var cond := ExprKid(idx, 0, left, t, cur);
      if error != NoError || !Truthy(cond) {
        return;
      }
      if left == 0 {
        error := OutOfFuel;
        return;
      }
      next := SemKid(t, 1, c.env, left).env;
      v, go := Turn(idx, left, t, c.env);
    }

    method EvalWhile(idx: int, fuel: nat, ghost t: Tree, ghost e: Env) returns (v: Value)
      requires Rep(nodes, idx, t) && IsStmt(t, true) && t.kind == KWhile && Ready(e)
      modifies this
      ensures callDepth == old(callDepth) && Answers(SemWhile(t, e, NoneV, fuel), v)
      decreases fuel, MAX_CALL_DEPTH + 1 - |e.frames|, t, 1, 0
    {
      v := NoneV;
      var left: nat := fuel;
      ghost var cur, goal := e, SemWhile(t, e, NoneV, fuel);
      while true
        invariant left <= fuel && callDepth == old(callDepth) && Ready(cur) && |cur.frames| == |e.frames|
        invariant goal == SemWhile(t, cur, v, left)
        decreases left
      {
        var go;
        v, go, cur := WhileTurn(idx, left, v, t, cur, goal);
        if !go {
          return;
        }
        left := left - 1;
      }
    }

    method EvalFor(idx: int, fuel: nat, ghost t: Tree, ghost e: Env) returns (v: Value)
      requires Rep(nodes, idx, t) && IsStmt(t, true) && t.kind == KFor && Ready(e)
      modifies this
      ensures callDepth == old(callDepth) && Answers(SemFor(t, e, fuel), v)
      decreases fuel, MAX_CALL_DEPTH + 1 - |e.frames|, t, 1, 0
    {
      RepKid(nodes, idx, t, 0);
      var iter := nodes[nodes[idx].child[0]];
      if iter.kind == KRange && |iter.child| < 1 {
        error := RangeArity;
        return NoneV;
      }
      LimitIsPure(t, e, fuel);
      ghost var c := Limit(t, e, fuel);
      var limit := EvalLimit(idx, fuel, t, e);
      if error != NoError {
        return NoneV;
      }
      if !limit.IntV? {
        error := if iter.kind == KRange then RangeNeedsInteger else ForNeedsInteger;
        return NoneV;
      }
      v := EvalTurns(idx, limit.n, fuel, t, c.env);
    }

    /** What a for loop counts to. */
    method EvalLimit(idx: int, fuel: nat, ghost t: Tree, ghost e: Env) returns (v: Value)
      requires Rep(nodes, idx, t) && IsStmt(t, true) && t.kind == KFor && Ready(e)
      requires t.kids[0].kind == KRange ==> t.kids[0].kids != []
      modifies this
      ensures callDepth == old(callDepth) && Answers(Limit(t, e, fuel), v)
      decreases fuel, MAX_CALL_DEPTH + 1 - |e.frames|, t, 0, 2
    {
      RepKid(nodes, idx, t, 0);
      var child := nodes[idx].child[0];
      if nodes[child].kind == KRange {
        ExprIsStmt(t.kids[0]);
        v := ExprKid(child, 0, fuel, t.kids[0], e);
      } else {
        v := ExprKid(idx, 0, fuel, t, e);
      }
    }

    /** The counting loop of a for node. */
    method EvalTurns(idx: int, limit: int, fuel: nat, ghost t: Tree, ghost e: Env) returns (v: Value)
      requires Rep(nodes, idx, t) && IsStmt(t, true) && t.kind == KFor && Ready(e)
      modifies this
      ensures callDepth == old(callDepth) && Answers(SemTurns(t, 0, limit, e, NoneV, fuel), v)
      decreases fuel, MAX_CALL_DEPTH + 1 - |e.frames|, t, 0, 2
    {
      v := NoneV;
      ghost var cur := e;
      var i: nat := 0;
      while i < limit
        invariant callDepth == old(callDepth) && Ready(cur) && |cur.frames| == |e.frames|
        invariant SemTurns(t, 0, limit, e, NoneV, fuel) == SemTurns(t, i, limit, cur, v, fuel)
        decreases limit - i
      {
        ghost var b := SetResult(cur, t.s, IntV(i));
        var ok := SetVar(nodes[idx].s, IntV(i), cur);
        if !ok {
          return NoneV;
        }
        var go;
        v, go := Turn(idx, fuel, t, b.env);
        if !go {
          return;
        }
        cur := SemKid(t, 1, b.env, fuel).env;
        i := i + 1;
      }
    }

    /** Puts out the i-th of n arguments. */
    method PutArg(w: Value, i: nat, n: nat, ghost t: Tree, ghost r: Result)
      requires r.o == Normal(w) && Ready(r.env) && i < n == |t.kids|
      modifies this`out
      ensures Ready(Printed(t, i, r))
    {
      var buf := ValToStr(w);
      out := out + [buf];
      if i < n - 1 {
        out := out + [" "];
      }
    }

    /** The i-th argument of print. */
    method PrintTurn(idx: int, i: nat, fuel: nat, ghost t: Tree, ghost cur: Env,
        ghost goal: Result) returns (ghost next: Env)
      requires Rep(nodes, idx, t) && IsStmt(t, true) && t.kind == KPrint && Ready(cur) && i < |t.kids|
      requires goal == SemPrint(t, i, cur, fuel)
      modifies this
      ensures callDepth == old(callDepth)
      ensures if error == NoError then
                Ready(next) && |next.frames| == |cur.frames| && goal == SemPrint(t, i + 1, next, fuel)
              else Answers(goal, NoneV)
      decreases fuel, MAX_CALL_DEPTH + 1 - |cur.frames|, t, 0, 2
    {
      ghost var r := SemKid(t, i, cur, fuel);
      next := cur;
      var w := ExprKid(idx, i, fuel, t, cur);
      if error == NoError {
        PutArg(w, i, |nodes[idx].child|, t, r);
        next := Printed(t, i, r);
      }
    }

    method EvalPrint(idx: int, fuel: nat, ghost t: Tree, ghost e: Env) returns (v: Value)
      requires Rep(nodes, idx, t) && IsStmt(t, true) && t.kind == KPrint && Ready(e)
      modifies this
      ensures callDepth == old(callDepth) && Answers(SemPrint(t, 0, e, fuel), v)
      decreases fuel, MAX_CALL_DEPTH + 1 - |e.frames|, t, 1, 0
    {
      var n := |nodes[idx].child|;
      v := NoneV;
      ghost var cur, goal := e, SemPrint(t, 0, e, fuel);
      var i: nat := 0;
      while i < n
        invariant i <= n == |t.kids| && callDepth == old(callDepth) && Ready(cur) && |cur.frames| == |e.frames|
        invariant goal == SemPrint(t, i, cur, fuel)
      {
        cur := PrintTurn(idx, i, fuel, t, cur, goal);
        if error != NoError {
          return;
        }
        i := i + 1;
      }
      out := out + ["\n"];
    }

    method EvalInput(idx: int, fuel: nat, ghost t: Tree, ghost e: Env) returns (v: Value)
      requires Rep(nodes, idx, t) && IsStmt(t, true) && t.kind == KInput && Ready(e)
      modifies this
      ensures callDepth == old(callDepth) && Answers(SemInput(t, e, fuel), v)
      decreases fuel, MAX_CALL_DEPTH + 1 - |e.frames|, t, 1, 0
    {
      if |nodes[idx].child| > 0 {
        var prompt := ExprKid(idx, 0, fuel, t, e);
        if error != NoError {
          return NoneV;
        }
        var buf := ValToStr(prompt);
        out := out + [buf];
      }
      var line := "";
      if |lines| > 0 {
        line, lines := lines[0], lines[1..];
      }
      out := out + ["\n"];
      v := StrV(line);
    }

    // -----------------------------------------------------------------
    // Calls

    /** find_func: the first definition of the name. */
    method FindFuncDef(name: string, ghost e: Env) returns (k: nat)
      requires Holds(e)
      ensures k == FindFunc(e.funcs, name) <= |funcs|
    {
      k := 0;
      while k < |funcs| && funcs[k].name != name
        invariant k <= |funcs| && FindFuncFrom(e.funcs, name, k) == FindFunc(e.funcs, name)
      {
        assert e.funcs[k].name == funcs[k].name;
        k := k + 1;
      }
      assert k < |funcs| ==> e.funcs[k].name == funcs[k].name;
    }

    /** The argument loop ended as the semantics says. */
    ghost predicate ArgsAnswer(r: ArgsResult, vals: seq<Value>)
      reads this
    {
      if r.ArgsOk? then Ready(r.env) && vals == r.vals
      else r.r.o.Fail? && error == r.r.o.msg != NoError && out == r.r.env.out
    }

    /** The i-th argument of a call. */
    method NextArg(idx: int, i: nat, fuel: nat, ghost t: Tree, ghost cur: Env,
        ghost vals: seq<Value>) returns (w: Value)
      requires Rep(nodes, idx, t) && IsStmt(t, true) && t.kind == KCall && Ready(cur) && i == |vals| < |t.kids|
      modifies this
      ensures callDepth == old(callDepth)
      ensures var r := SemKid(t, i, cur, fuel);
              if error == NoError then Ready(r.env) &&
                  SemArgs(t, i, cur, vals, fuel) == SemArgs(t, i + 1, r.env, vals + [w], fuel)
              else ArgsAnswer(SemArgs(t, i, cur, vals, fuel), [])
      decreases fuel, MAX_CALL_DEPTH + 1 - |cur.frames|, t, 0, 2
    {
      w := ExprKid(idx, i, fuel, t, cur);
    }

    /** The argument loop of a call. */
    method EvalArgs(idx: int, fuel: nat, ghost t: Tree, ghost e: Env) returns (vals: seq<Value>)
      requires Rep(nodes, idx, t) && IsStmt(t, true) && t.kind == KCall && Ready(e)
      modifies this
      ensures callDepth == old(callDepth) && ArgsAnswer(SemArgs(t, 0, e, [], fuel), vals)
      decreases fuel, MAX_CALL_DEPTH + 1 - |e.frames|, t, 0, 3
    {
      var n := |nodes[idx].child|;
      vals := [];
      ghost var cur := e;
      ghost var goal := SemArgs(t, 0, e, [], fuel);
      var i: nat := 0;
      while i < n
        invariant i == |vals| <= n == |t.kids| && callDepth == old(callDepth) && Ready(cur) &&
                  |cur.frames| == |e.frames|
        invariant goal == SemArgs(t, i, cur, vals, fuel)
      {
        ghost var env := SemKid(t, i, cur, fuel).env;
        var w := NextArg(idx, i, fuel, t, cur, vals);
        if error != NoError {
          return;
        }
        vals := vals + [w];
        cur := env;
        i := i + 1;
      }
    }

    method EvalCall(idx: int, fuel: nat, ghost t: Tree, ghost e: Env) returns (v: Value)
      requires Rep(nodes, idx, t) && IsStmt(t, true) && t.kind == KCall && Ready(e)
      modifies this
      ensures callDepth == old(callDepth) && Answers(SemCall(t, e, fuel), v)
      decreases fuel, MAX_CALL_DEPTH + 1 - |e.frames|, t, 1, 0
    {
      var n := nodes[idx];
      var k := FindFuncDef(n.s, e);
      if k == |funcs| {
        error := UndefinedFunction(n.s);
        return NoneV;
      }
      var f := funcs[k];
      if |n.child| != |f.params| {
        error := WrongArguments;
        return NoneV;
      }
      if callDepth >= MAX_CALL_DEPTH {
        error := CallsTooDeep;
        return NoneV;
      }
      ghost var args := SemArgs(t, 0, e, [], fuel);
      var vals := EvalArgs(idx, fuel, t, e);
      if error != NoError {
        return NoneV;
      }
      v := EvalBody(f, vals, fuel, e.funcs[k], args.env);
    }

    /** The parameter loop of a call: binds the arguments in the new scope. */
    method BindParams(params: seq<string>, vals: seq<Value>, ghost e: Env) returns (ok: bool)
      requires Ready(e) && |params| == |vals|
      modifies this`vars, this`error
      ensures var b := BindAll(e.frames, params, vals);
              if b.Some? then ok && Ready(e.(frames := b.value)) else !ok && error == TooManyVariables
    {
      ghost var cur := e;
      var i: nat := 0;
      while i < |params|
        invariant i <= |params| && Ready(cur) && cur == e.(frames := cur.frames) && |cur.frames| == |e.frames|
        invariant BindAll(e.frames, params, vals) == BindAll(cur.frames, params[i..], vals[i..])
      {
        ghost var b := SetResult(cur, params[i], vals[i]);
        ok := SetVar(params[i], vals[i], cur);
        if !ok {
          return;
        }
        assert params[i..][1..] == params[i + 1..] && vals[i..][1..] == vals[i + 1..];
        cur := b.env;
        i := i + 1;
      }
      ok := true;
    }

    /** Opens the scope of a call and binds its parameters. */
    method EnterCall(params: seq<string>, vals: seq<Value>, ghost e: Env) returns (ok: bool)
      requires Ready(e) && |params| == |vals| && callDepth < MAX_CALL_DEPTH
      modifies this`vars, this`error, this`callDepth
      ensures var b := BindAll(e.frames + [map[]], params, vals);
              if b.Some? then ok && callDepth == old(callDepth) + 1 && Ready(e.(frames := b.value))
              else !ok && callDepth == old(callDepth) && error == TooManyVariables
    {
      PushIs(vars, callDepth);
      callDepth := callDepth + 1;
      ok := BindParams(params, vals, e.(frames := e.frames + [map[]]));
      if !ok {
        callDepth := callDepth - 1;
      }
    }

    /** Closes the scope of a call whose body gave w. */
    method LeaveCall(w: Value, ghost r: Result) returns (v: Value)
      requires EnvOk(r.env) && callDepth + 1 == |r.env.frames| >= 2 && Answers(r, w) && Calm(r.o)
      modifies this`vars, this`callDepth, this`returning
      ensures callDepth == old(callDepth) - 1 && Answers(Leave(r), v)
    {
      v := w;
      if returning {
        v := returnVal;
        returning := false;
      }
      PopScope(!r.o.Fail?, r.env.frames);
      callDepth := callDepth - 1;
    }

    /** A function body in a scope of its own. */
    method EvalBody(f: FuncDef, vals: seq<Value>, fuel: nat, ghost g: Func, ghost e: Env) returns (v: Value)
      requires Ready(e) && f.params == g.params && Rep(nodes, f.body, g.body) && IsBlock(g.body, false)
      requires |vals| == |f.params| && callDepth < MAX_CALL_DEPTH
      modifies this
      ensures callDepth == old(callDepth) && Answers(SemBody(g, vals, e, fuel), v)
      decreases fuel, MAX_CALL_DEPTH - |e.frames|, g.body, 3, 0
    {
      ghost var b := BindAll(e.frames + [map[]], g.params, vals);
      var ok := EnterCall(f.params, vals, e);
      if !ok {
        return NoneV;
      }
      LoopAllows(g.body);
      StmtIsLocal(g.body, false, e.(frames := b.value), fuel);
      v := Eval(f.body, fuel, g.body, e.(frames := b.value));
      v := LeaveCall(v, Sem(g.body, e.(frames := b.value), fuel));
    }
  }
}
