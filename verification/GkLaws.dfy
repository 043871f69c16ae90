// What every GK program does: expressions leave all variables alone, statements
// touch only the innermost frame, and break and continue stay inside their loop.

module GkLaws {
  import opened Options
  import opened GkSyntax
  import opened GkValues
  import opened GkSemantics

  ghost predicate Calm(o: Outcome) {
    !o.Break? && !o.Continue?
  }

  /** Frames below the innermost are untouched, and the innermost loses no variable. */
  ghost predicate Local(e: Env, e': Env) {
    |e'.frames| == |e.frames| >= 1 && Top(e).Keys <= Top(e').Keys &&
    forall i {:trigger e'.frames[i]} :: 0 <= i < |e.frames| - 1 ==> e'.frames[i] == e.frames[i]
  }

  /** No frame is touched. */
  ghost predicate Pure(e: Env, e': Env) {
    e'.frames == e.frames
  }

  lemma LocalTrans(a: Env, b: Env, c: Env)
    requires Local(a, b) && Local(b, c)
    ensures Local(a, c)
  {
  }

  /** How an expression ends. */
  ghost predicate Plain(o: Outcome) {
    o.Normal? || o.Fail?
  }

  // ---------------------------------------------------------------------
  // Expressions

  /** Running an expression changes no variable and leaves no control flag set. */
  lemma {:induction false} ExprIsPure(t: Tree, e: Env, fuel: nat)
    requires IsExpr(t) && IsStmt(t, true) && EnvOk(e)
    ensures Pure(e, Sem(t, e, fuel).env) && Plain(Sem(t, e, fuel).o)
    decreases fuel, MAX_CALL_DEPTH + 1 - |e.frames|, t, 2, 0
  {
    if t.kind == KBinop {
      BinopIsPure(t, e, fuel);
    } else if t.kind == KPrint {
      PrintIsPure(t, 0, e, fuel);
    } else if t.kind == KInput {
      InputIsPure(t, e, fuel);
    } else if t.kind == KCall {
      CallIsPure(t, e, fuel);
    } else {
      OtherIsPure(t, e, fuel);
    }
  }

  predicate IsOther(k: Kind) {
    k == KInt || k == KStr || k == KBool || k == KVar || k == KUnop || k == KIntCast || k == KRange
  }

  lemma ValueKid(t: Tree)
    requires TakesValue(t) && IsStmt(t, true)
    ensures IsExpr(t.kids[0])
  {
  }

  /** One child evaluated, then a step that may bind a variable. */
  lemma {:induction false} StepIsLocal(t: Tree, e: Env, fuel: nat)
    requires TakesValue(t) && IsStmt(t, true) && EnvOk(e)
    ensures Sem(t, e, fuel) == (var r := SemKid(t, 0, e, fuel); if r.o.Normal? then Finish(t, r.o.v, r.env) else r)
    ensures Pure(e, SemKid(t, 0, e, fuel).env) && Plain(SemKid(t, 0, e, fuel).o)
    decreases fuel, MAX_CALL_DEPTH + 1 - |e.frames|, t, 1, 0
  {
    ValueKid(t);
    KidIsPure(t, 0, e, fuel);
  }

  lemma FinishIsPure(t: Tree, v: Value, e: Env)
    requires EnvOk(e) && (t.kind == KUnop || t.kind == KIntCast)
    ensures Pure(e, Finish(t, v, e).env) && Plain(Finish(t, v, e).o)
  {
  }

  lemma LeafIsPure(t: Tree, e: Env)
    requires IsOther(t.kind) && IsStmt(t, true) && EnvOk(e)
    ensures Pure(e, SemLeaf(t, e).env) && Plain(SemLeaf(t, e).o)
  {
  }

  lemma {:induction false} OtherIsPure(t: Tree, e: Env, fuel: nat)
    requires IsOther(t.kind) && IsStmt(t, true) && EnvOk(e)
    ensures Pure(e, Sem(t, e, fuel).env) && Plain(Sem(t, e, fuel).o)
    decreases fuel, MAX_CALL_DEPTH + 1 - |e.frames|, t, 1, 1
  {
    if TakesValue(t) {
      StepIsLocal(t, e, fuel);
      var r := SemKid(t, 0, e, fuel);
      if r.o.Normal? {
        FinishIsPure(t, r.o.v, r.env);
      }
    } else {
      LeafIsPure(t, e);
    }
  }

  lemma {:induction false} KidIsPure(t: Tree, i: nat, e: Env, fuel: nat)
    requires IsStmt(t, true) && i < |t.kids| && t.kind != KDef && EnvOk(e) && IsExpr(t.kids[i])
    ensures Pure(e, SemKid(t, i, e, fuel).env) && Plain(SemKid(t, i, e, fuel).o)
    decreases fuel, MAX_CALL_DEPTH + 1 - |e.frames|, t, 0, 0
  {
    KidIsStmt(t, i);
    ExprIsPure(t.kids[i], e, fuel);
  }

  lemma {:induction false} BinopIsPure(t: Tree, e: Env, fuel: nat)
    requires t.kind == KBinop && IsStmt(t, true) && EnvOk(e)
    ensures Pure(e, SemBinop(t, e, fuel).env) && Plain(SemBinop(t, e, fuel).o)
    decreases fuel, MAX_CALL_DEPTH + 1 - |e.frames|, t, 1, 0
  {
    KidIsPure(t, 0, e, fuel);
    var l := SemKid(t, 0, e, fuel);
    if l.o.Normal? {
      KidIsPure(t, 1, l.env, fuel);
    }
  }

  lemma {:induction false} PrintIsPure(t: Tree, i: nat, e: Env, fuel: nat)
    requires t.kind == KPrint && IsStmt(t, true) && i <= |t.kids| && EnvOk(e)
    ensures Pure(e, SemPrint(t, i, e, fuel).env) && Plain(SemPrint(t, i, e, fuel).o)
    decreases fuel, MAX_CALL_DEPTH + 1 - |e.frames|, t, 0, |t.kids| - i + 1
  {
    if i < |t.kids| {
      KidIsPure(t, i, e, fuel);
      var r := SemKid(t, i, e, fuel);
      if r.o.Normal? {
        PrintIsPure(t, i + 1, Printed(t, i, r), fuel);
      }
    }
  }

  lemma {:induction false} InputIsPure(t: Tree, e: Env, fuel: nat)
    requires t.kind == KInput && IsStmt(t, true) && EnvOk(e)
    ensures Pure(e, SemInput(t, e, fuel).env) && Plain(SemInput(t, e, fuel).o)
    decreases fuel, MAX_CALL_DEPTH + 1 - |e.frames|, t, 0, 2
  {
    if t.kids != [] {
      KidIsPure(t, 0, e, fuel);
    }
  }

  lemma {:induction false} ArgsArePure(t: Tree, i: nat, e: Env, vals: seq<Value>, fuel: nat)
    requires t.kind == KCall && IsStmt(t, true) && i == |vals| <= |t.kids| && EnvOk(e)
    ensures var r := SemArgs(t, i, e, vals, fuel);
            if r.ArgsOk? then Pure(e, r.env) else Pure(e, r.r.env) && r.r.o.Fail?
    decreases fuel, MAX_CALL_DEPTH + 1 - |e.frames|, t, 0, |t.kids| - i + 1
  {
    if i < |t.kids| {
      KidIsPure(t, i, e, fuel);
      var r := SemKid(t, i, e, fuel);
      if r.o.Normal? {
        ArgsArePure(t, i + 1, r.env, vals + [r.o.v], fuel);
      }
    }
  }

  /** A call, however deep it recurses, changes no variable of its caller. */
  lemma {:induction false} CallIsPure(t: Tree, e: Env, fuel: nat)
    requires t.kind == KCall && IsStmt(t, true) && EnvOk(e)
    ensures Pure(e, SemCall(t, e, fuel).env) && Plain(SemCall(t, e, fuel).o)
    decreases fuel, MAX_CALL_DEPTH + 1 - |e.frames|, t, 1, 0
  {
    var k := FindFunc(e.funcs, t.s);
    if k < |e.funcs| && |t.kids| == |e.funcs[k].params| && |e.frames| - 1 < MAX_CALL_DEPTH {
      ArgsArePure(t, 0, e, [], fuel);
      var args := SemArgs(t, 0, e, [], fuel);
      if args.ArgsOk? {
        BodyIsPure(e.funcs[k], args.vals, args.env, fuel);
      }
    }
  }

  lemma {:induction false} BindAllIsLocal(frames: seq<Frame>, xs: seq<string>, vs: seq<Value>)
    requires frames != [] && |xs| == |vs|
    ensures var r := BindAll(frames, xs, vs); r.Some? ==> r.value[..|frames| - 1] == frames[..|frames| - 1]
    decreases |xs|
  {
    if xs != [] {
      var r := Bind(frames, xs[0], vs[0]);
      if r.Some? {
        BindAllIsLocal(r.value, xs[1..], vs[1..]);
      }
    }
  }

  lemma {:induction false} BodyIsPure(f: Func, vals: seq<Value>, e: Env, fuel: nat)
    requires IsBlock(f.body, false) && |vals| == |f.params| && EnvOk(e) && |e.frames| <= MAX_CALL_DEPTH
    ensures Pure(e, SemBody(f, vals, e, fuel).env) && Plain(SemBody(f, vals, e, fuel).o)
    decreases fuel, MAX_CALL_DEPTH - |e.frames|, f.body, 4, 0
  {
    var b := BindAll(e.frames + [map[]], f.params, vals);
    if b.Some? {
      BindAllIsLocal(e.frames + [map[]], f.params, vals);
      LoopAllows(f.body);
      StmtIsLocal(f.body, false, e.(frames := b.value), fuel);
      assert (e.frames + [map[]])[..|e.frames|] == e.frames;
    }
  }

  // ---------------------------------------------------------------------
  // Statements

  lemma SetIsLocal(e: Env, x: string, v: Value)
    requires EnvOk(e)
    ensures Local(e, SetResult(e, x, v).env) && Plain(SetResult(e, x, v).o)
  {
  }

  /** How a statement may end: outside loops it neither breaks nor continues. */
  ghost predicate Tame(loop: bool, e: Env, r: Result) {
    Local(e, r.env) && (!loop ==> Calm(r.o))
  }

  /** A statement touches only the innermost frame, and breaks or continues only inside a loop. */
  lemma {:induction false} StmtIsLocal(t: Tree, loop: bool, e: Env, fuel: nat)
    requires IsStmt(t, loop) && IsStmt(t, true) && EnvOk(e)
    ensures Tame(loop, e, Sem(t, e, fuel))
    decreases fuel, MAX_CALL_DEPTH + 1 - |e.frames|, t, 3, 0
  {
    if t.kind == KBlock {
      BlockIsLocal(t, loop, 0, e, NoneV, fuel);
    } else if t.kind == KIf {
      IfIsLocal(t, loop, e, fuel);
    } else if t.kind == KWhile {
      WhileIsLocal(t, e, NoneV, fuel);
    } else if t.kind == KFor {
      ForIsLocal(t, e, fuel);
    } else if t.kind == KAssign || t.kind == KReturn {
      ValueIsLocal(t, e, fuel);
    } else if t.kind == KDef || t.kind == KBreak || t.kind == KContinue {
      LeafIsLocal(t, loop, e, fuel);
    } else {
      ExprIsPure(t, e, fuel);
    }
  }

  lemma SemIsLeaf(t: Tree, e: Env, fuel: nat)
    requires (t.kind == KDef || t.kind == KBreak || t.kind == KContinue) && IsStmt(t, true) && EnvOk(e)
    ensures Sem(t, e, fuel) == SemLeaf(t, e)
  {
  }

  lemma LeafIsLocal(t: Tree, loop: bool, e: Env, fuel: nat)
    requires t.kind == KDef || t.kind == KBreak || t.kind == KContinue
    requires IsStmt(t, loop) && IsStmt(t, true) && EnvOk(e)
    ensures Tame(loop, e, Sem(t, e, fuel))
  {
    SemIsLeaf(t, e, fuel);
  }

  /** An expression first, then something local. */
  lemma PureFirst(loop: bool, e: Env, e1: Env, r: Result)
    requires Pure(e, e1) && Tame(loop, e1, r)
    ensures Tame(loop, e, r)
  {
  }

  lemma {:induction false} KidIsLocal(t: Tree, loop: bool, i: nat, e: Env, fuel: nat)
    requires IsStmt(t, true) && i < |t.kids| && t.kind != KDef && EnvOk(e) && IsStmt(t.kids[i], loop)
    ensures Tame(loop, e, SemKid(t, i, e, fuel))
    decreases fuel, MAX_CALL_DEPTH + 1 - |e.frames|, t, 0, 0
  {
    KidIsStmt(t, i);
    StmtIsLocal(t.kids[i], loop, e, fuel);
  }

  lemma {:induction false} ValueIsLocal(t: Tree, e: Env, fuel: nat)
    requires (t.kind == KAssign || t.kind == KReturn) && IsStmt(t, true) && EnvOk(e)
    ensures Tame(false, e, Sem(t, e, fuel))
    decreases fuel, MAX_CALL_DEPTH + 1 - |e.frames|, t, 2, 0
  {
    if TakesValue(t) {
      StepIsLocal(t, e, fuel);
      var r := SemKid(t, 0, e, fuel);
      if r.o.Normal? {
        SetIsLocal(r.env, t.s, r.o.v);
      }
    }
  }

  lemma {:induction false} IfIsLocal(t: Tree, loop: bool, e: Env, fuel: nat)
    requires t.kind == KIf && IsStmt(t, true) && IsStmt(t, loop) && EnvOk(e)
    ensures Tame(loop, e, SemIf(t, e, fuel))
    decreases fuel, MAX_CALL_DEPTH + 1 - |e.frames|, t, 1, 0
  {
    KidIsPure(t, 0, e, fuel);
    var r := SemKid(t, 0, e, fuel);
    if r.o.Normal? {
      if Truthy(r.o.v) {
        KidIsLocal(t, loop, 1, r.env, fuel);
        PureFirst(loop, e, r.env, SemKid(t, 1, r.env, fuel));
      } else if |t.kids| == 3 {
        KidIsLocal(t, loop, 2, r.env, fuel);
        PureFirst(loop, e, r.env, SemKid(t, 2, r.env, fuel));
      }
    }
  }

  lemma {:induction false} BlockIsLocal(t: Tree, loop: bool, i: nat, e: Env, last: Value, fuel: nat)
    requires t.kind == KBlock && IsStmt(t, true) && IsBlock(t, loop) && i <= |t.kids| && EnvOk(e)
    ensures Tame(loop, e, SemBlock(t, i, e, last, fuel))
    decreases fuel, MAX_CALL_DEPTH + 1 - |e.frames|, t, 0, |t.kids| - i + 1
  {
    if i < |t.kids| {
      KidIsLocal(t, loop, i, e, fuel);
      var r := SemKid(t, i, e, fuel);
      if r.o.Normal? {
        BlockIsLocal(t, loop, i + 1, r.env, r.o.v, fuel);
        LocalTrans(e, r.env, SemBlock(t, i + 1, r.env, r.o.v, fuel).env);
      }
    }
  }

  /** A condition, a turn, and the turns after it. */
  lemma GoesOn(e: Env, e1: Env, e2: Env, r: Result)
    requires Pure(e, e1) && Local(e1, e2) && Tame(false, e2, r)
    ensures Tame(false, e, r)
  {
    LocalTrans(e1, e2, r.env);
  }

  /** No further turn. */
  lemma {:induction false} WhileEnds(t: Tree, e: Env, last: Value, fuel: nat)
    requires t.kind == KWhile && IsStmt(t, true) && EnvOk(e)
    requires var c := SemKid(t, 0, e, fuel);
             Pure(e, c.env) && Plain(c.o) && !(c.o.Normal? && Truthy(c.o.v) && fuel > 0)
    ensures Tame(false, e, SemWhile(t, e, last, fuel))
  {
  }

  lemma {:induction false} WhileIsLocal(t: Tree, e: Env, last: Value, fuel: nat)
    requires t.kind == KWhile && IsStmt(t, true) && EnvOk(e)
    ensures Tame(false, e, SemWhile(t, e, last, fuel))
    decreases fuel, MAX_CALL_DEPTH + 1 - |e.frames|, t, 0, 2
  {
    KidIsPure(t, 0, e, fuel);
    var c := SemKid(t, 0, e, fuel);
    if c.o.Normal? && Truthy(c.o.v) && fuel > 0 {
      var r := SemKid(t, 1, c.env, fuel);
      KidIsLocal(t, true, 1, c.env, fuel);
      AfterIsLocal(t, r, fuel);
      GoesOn(e, c.env, r.env, AfterTurn(t, r, fuel));
    } else {
      WhileEnds(t, e, last, fuel);
    }
  }

  lemma {:induction false} AfterIsLocal(t: Tree, r: Result, fuel: nat)
    requires t.kind == KWhile && IsStmt(t, true) && EnvOk(r.env) && fuel > 0
    ensures Tame(false, r.env, AfterTurn(t, r, fuel))
    decreases fuel, MAX_CALL_DEPTH + 1 - |r.env.frames|, t, 0, 1
  {
    if r.o.Normal? {
      WhileIsLocal(t, r.env, r.o.v, fuel - 1);
    } else if r.o.Continue? {
      WhileIsLocal(t, r.env, NoneV, fuel - 1);
    }
  }

  lemma {:induction false} ForIsLocal(t: Tree, e: Env, fuel: nat)
    requires t.kind == KFor && IsStmt(t, true) && EnvOk(e)
    ensures Tame(false, e, SemFor(t, e, fuel))
    decreases fuel, MAX_CALL_DEPTH + 1 - |e.frames|, t, 1, 0
  {
    if t.kids[0].kind != KRange || t.kids[0].kids != [] {
      LimitIsPure(t, e, fuel);
      var c := Limit(t, e, fuel);
      if c.o.Normal? && c.o.v.IntV? {
        TurnsAreLocal(t, 0, c.o.v.n, c.env, NoneV, fuel);
      }
    }
  }

  lemma {:induction false} LimitIsPure(t: Tree, e: Env, fuel: nat)
    requires t.kind == KFor && IsStmt(t, true) && EnvOk(e) && (t.kids[0].kind == KRange ==> t.kids[0].kids != [])
    ensures Pure(e, Limit(t, e, fuel).env) && Plain(Limit(t, e, fuel).o)
    decreases fuel, MAX_CALL_DEPTH + 1 - |e.frames|, t, 0, 2
  {
    if t.kids[0].kind == KRange {
      ExprIsStmt(t.kids[0]);
      KidIsPure(t.kids[0], 0, e, fuel);
    } else {
      KidIsPure(t, 0, e, fuel);
    }
  }

  lemma {:induction false} TurnsAreLocal(t: Tree, i: nat, limit: int, e: Env, last: Value, fuel: nat)
    requires t.kind == KFor && IsStmt(t, true) && EnvOk(e)
    ensures Tame(false, e, SemTurns(t, i, limit, e, last, fuel))
    decreases fuel, MAX_CALL_DEPTH + 1 - |e.frames|, t, 0, 1 + if i < limit then limit - i else 0
  {
    if i < limit {
      SetIsLocal(e, t.s, IntV(i));
      var b := SetResult(e, t.s, IntV(i));
      if b.o.Normal? {
        KidIsLocal(t, true, 1, b.env, fuel);
        var r := SemKid(t, 1, b.env, fuel);
        LocalTrans(e, b.env, r.env);
        if r.o.Normal? || r.o.Continue? {
          var v := if r.o.Normal? then r.o.v else NoneV;
          TurnsAreLocal(t, i + 1, limit, r.env, v, fuel);
          LocalTrans(e, r.env, SemTurns(t, i + 1, limit, r.env, v, fuel).env);
        }
      }
    }
  }

  lemma IntIs(n: int, e: Env, fuel: nat)
    requires EnvOk(e)
    ensures IsStmt(IntLit(n), true) && Sem(IntLit(n), e, fuel) == Gives(e, IntV(n))
  {
  }

  /**
    A function whose body ends without return gives the value of its last
    statement, not None: def f(): 5 makes f() equal to 5.
   */
  lemma FallsOffTheEnd(n: int, e: Env, fuel: nat)
    requires EnvOk(e) && |e.frames| <= MAX_CALL_DEPTH
    ensures IsBlock(Tree(KBlock, 0, "", NoOp, [IntLit(n)]), false)
    ensures SemBody(Func("f", [], Tree(KBlock, 0, "", NoOp, [IntLit(n)])), [], e, fuel).o == Normal(IntV(n))
  {
    var body := Tree(KBlock, 0, "", NoOp, [IntLit(n)]);
    LoopAllows(body);
    var e1 := e.(frames := e.frames + [map[]]);
    IntIs(n, e1, fuel);
    assert SemKid(body, 0, e1, fuel) == Sem(IntLit(n), e1, fuel);
    assert SemBlock(body, 0, e1, NoneV, fuel) == SemBlock(body, 1, e1, IntV(n), fuel);
  }
}
