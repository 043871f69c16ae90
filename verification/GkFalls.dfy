// What a function gives that reaches its end without return.

module GkFalls {
  import opened Basics
  import opened Options
  import opened GkSyntax
  import opened GkValues
  import opened GkSemantics
  import opened GkLaws

  // ---------------------------------------------------------------------
  // The value is that of the last statement

  /** The statement of a block that decides how it ends: the first one that does not end normally, or the last one. */
  ghost function LastRun(t: Tree, i: nat, e: Env, fuel: nat): (r: Result)
    requires t.kind == KBlock && IsStmt(t, true) && i < |t.kids| && EnvOk(e)
    decreases |t.kids| - i
  {
    var r := SemKid(t, i, e, fuel);
    if r.o.Normal? && i + 1 < |t.kids| then LastRun(t, i + 1, r.env, fuel) else r
  }

  lemma {:induction false} BlockIsLastRun(t: Tree, i: nat, e: Env, last: Value, fuel: nat)
    requires t.kind == KBlock && IsStmt(t, true) && i < |t.kids| && EnvOk(e)
    ensures SemBlock(t, i, e, last, fuel) == LastRun(t, i, e, fuel)
    decreases |t.kids| - i
  {
    var r := SemKid(t, i, e, fuel);
    if r.o.Normal? && i + 1 < |t.kids| {
      BlockIsLastRun(t, i + 1, r.env, r.o.v, fuel);
    }
  }

  /** A call whose parameters can be bound. */
  ghost predicate Enters(f: Func, vals: seq<Value>, e: Env) {
    IsBlock(f.body, false) && |vals| == |f.params| && EnvOk(e) && |e.frames| <= MAX_CALL_DEPTH &&
    BindAll(e.frames + [map[]], f.params, vals).Some?
  }

  /** Where the body of a call starts. */
  ghost function Inside(f: Func, vals: seq<Value>, e: Env): (e1: Env)
    requires Enters(f, vals, e)
    ensures EnvOk(e1)
  {
    e.(frames := BindAll(e.frames + [map[]], f.params, vals).value)
  }

  /** How the body of a call ends. */
  ghost function BodyRun(f: Func, vals: seq<Value>, e: Env, fuel: nat): Result
    requires Enters(f, vals, e)
  {
    LoopAllows(f.body);
    Sem(f.body, Inside(f, vals, e), fuel)
  }

  /**
    A call that ends without return gives the value of the last statement of the
    body, and None only when the body is empty or that statement gives None; a
    call that returns gives what it returns.
   */
  lemma EndsWithLast(f: Func, vals: seq<Value>, e: Env, fuel: nat)
    requires Enters(f, vals, e)
    ensures IsStmt(f.body, true)
    ensures var r := BodyRun(f, vals, e, fuel);
            r == (if f.body.kids == [] then Gives(Inside(f, vals, e), NoneV)
                else LastRun(f.body, 0, Inside(f, vals, e), fuel)) &&
            (r.o.Normal? || r.o.Return? ==> SemBody(f, vals, e, fuel).o == Normal(r.o.v))
  {
    LoopAllows(f.body);
    var e1 := Inside(f, vals, e);
    assert BodyRun(f, vals, e, fuel) == SemBlock(f.body, 0, e1, NoneV, fuel);
    if f.body.kids != [] {
      BlockIsLastRun(f.body, 0, e1, NoneV, fuel);
    }
  }

  // ---------------------------------------------------------------------
  // Bodies that keep the promise

  /**
    Statements that give None whenever they end normally: print and def, blocks
    that are empty or end so, conditionals whose branches do, and loops whose
    body does; return, break and continue never end normally.
   */
  predicate GivesNone(t: Tree)
    decreases t
  {
    if t.kind == KBlock then t.kids == [] || GivesNone(t.kids[|t.kids| - 1])
    else if t.kind == KIf then |t.kids| >= 2 && GivesNone(t.kids[1]) && (|t.kids| == 3 ==> GivesNone(t.kids[2]))
    else if t.kind == KWhile || t.kind == KFor then |t.kids| >= 2 && GivesNone(t.kids[1])
    else t.kind == KPrint || t.kind == KDef || t.kind == KReturn || t.kind == KBreak || t.kind == KContinue
  }

  ghost predicate NoneIfNormal(r: Result) {
    r.o.Normal? ==> r.o.v == NoneV
  }

  lemma {:induction false} NoneWhenNormal(t: Tree, e: Env, fuel: nat)
    requires GivesNone(t) && IsStmt(t, true) && EnvOk(e)
    ensures NoneIfNormal(Sem(t, e, fuel))
    decreases t, 2, 0
  {
    if t.kind == KBlock {
      BlockNone(t, 0, e, NoneV, fuel);
    } else if t.kind == KIf {
      IfNone(t, e, fuel);
    } else if t.kind == KWhile {
      WhileNone(t, e, fuel);
    } else if t.kind == KFor {
      ForNone(t, e, fuel);
    } else if t.kind == KPrint {
      PrintNone(t, 0, e, fuel);
    }
  }

  lemma {:induction false} KidNone(t: Tree, i: nat, e: Env, fuel: nat)
    requires i < |t.kids| && GivesNone(t.kids[i]) && t.kind != KDef && IsStmt(t, true) && EnvOk(e)
    ensures NoneIfNormal(SemKid(t, i, e, fuel))
    decreases t, 0, 0
  {
    KidIsStmt(t, i);
    NoneWhenNormal(t.kids[i], e, fuel);
  }

  lemma {:induction false} BlockNone(t: Tree, i: nat, e: Env, last: Value, fuel: nat)
    requires t.kind == KBlock && GivesNone(t) && IsStmt(t, true) && i <= |t.kids| && EnvOk(e)
    requires i == |t.kids| ==> last == NoneV
    ensures NoneIfNormal(SemBlock(t, i, e, last, fuel))
    decreases t, 1, |t.kids| - i
  {
    if i < |t.kids| {
      if i == |t.kids| - 1 {
        KidNone(t, i, e, fuel);
      }
      var r := SemKid(t, i, e, fuel);
      if r.o.Normal? {
        BlockNone(t, i + 1, r.env, r.o.v, fuel);
      }
    }
  }

  lemma {:induction false} IfNone(t: Tree, e: Env, fuel: nat)
    requires t.kind == KIf && GivesNone(t) && IsStmt(t, true) && EnvOk(e)
    ensures NoneIfNormal(SemIf(t, e, fuel))
    decreases t, 1, 0
  {
    var r := SemKid(t, 0, e, fuel);
    if r.o.Normal? {
      KidNone(t, 1, r.env, fuel);
      if |t.kids| == 3 {
        KidNone(t, 2, r.env, fuel);
      }
    }
  }

  lemma {:induction false} WhileNone(t: Tree, e: Env, fuel: nat)
    requires t.kind == KWhile && GivesNone(t) && IsStmt(t, true) && EnvOk(e)
    ensures NoneIfNormal(SemWhile(t, e, NoneV, fuel))
    decreases t, 1, fuel
  {
    var c := SemKid(t, 0, e, fuel);
    if c.o.Normal? && Truthy(c.o.v) && fuel > 0 {
      KidNone(t, 1, c.env, fuel);
      var r := SemKid(t, 1, c.env, fuel);
      if r.o.Normal? || r.o.Continue? {
        WhileNone(t, r.env, fuel - 1);
      }
    }
  }

  lemma {:induction false} ForNone(t: Tree, e: Env, fuel: nat)
    requires t.kind == KFor && GivesNone(t) && IsStmt(t, true) && EnvOk(e)
    ensures NoneIfNormal(SemFor(t, e, fuel))
    decreases t, 1, 1
  {
    if !(t.kids[0].kind == KRange && t.kids[0].kids == []) {
      var c := Limit(t, e, fuel);
      if c.o.Normal? && c.o.v.IntV? {
        TurnsNone(t, 0, c.o.v.n, c.env, fuel);
      }
    }
  }

  lemma {:induction false} TurnsNone(t: Tree, i: nat, limit: int, e: Env, fuel: nat)
    requires t.kind == KFor && GivesNone(t) && IsStmt(t, true) && EnvOk(e)
    ensures NoneIfNormal(SemTurns(t, i, limit, e, NoneV, fuel))
    decreases t, 0, 1 + if i < limit then limit - i else 0
  {
    var b := SetResult(e, t.s, IntV(i));
    if i < limit && b.o.Normal? {
      KidNone(t, 1, b.env, fuel);
      var r := SemKid(t, 1, b.env, fuel);
      if r.o.Normal? || r.o.Continue? {
        TurnsNone(t, i + 1, limit, r.env, fuel);
      }
    }
  }

  lemma {:induction false} PrintNone(t: Tree, i: nat, e: Env, fuel: nat)
    requires t.kind == KPrint && IsStmt(t, true) && i <= |t.kids| && EnvOk(e)
    ensures NoneIfNormal(SemPrint(t, i, e, fuel))
    decreases t, 1, |t.kids| - i
  {
    if i < |t.kids| {
      var r := SemKid(t, i, e, fuel);
      if r.o.Normal? {
        PrintNone(t, i + 1, Printed(t, i, r), fuel);
      }
    }
  }

  /** With such a body every call that ends without return gives None, as the language guide promises. */
  lemma PromiseKept(f: Func, vals: seq<Value>, e: Env, fuel: nat)
    requires Enters(f, vals, e) && GivesNone(f.body) && BodyRun(f, vals, e, fuel).o.Normal?
    ensures SemBody(f, vals, e, fuel).o == Normal(NoneV)
  {
    EndsWithLast(f, vals, e, fuel);
    NoneWhenNormal(f.body, Inside(f, vals, e), fuel);
  }

  // ---------------------------------------------------------------------
  // Bodies that break it on every call that gets so far

  /**
    Statements that never give None: literals, operators, input, int(), their
    assignments, and blocks and two-sided conditionals that end so.
   */
  predicate GivesValue(t: Tree)
    decreases t
  {
    if t.kind == KBlock then t.kids != [] && GivesValue(t.kids[|t.kids| - 1])
    else if t.kind == KIf then |t.kids| == 3 && GivesValue(t.kids[1]) && GivesValue(t.kids[2])
    else if t.kind == KAssign then |t.kids| == 1 && GivesValue(t.kids[0])
    else
      t.kind == KInt || t.kind == KStr || t.kind == KBool || t.kind == KUnop || t.kind == KBinop ||
      t.kind == KInput || t.kind == KIntCast
  }

  ghost predicate ValueIfNormal(r: Result) {
    r.o.Normal? ==> r.o.v != NoneV
  }

  lemma {:induction false} ValueWhenNormal(t: Tree, e: Env, fuel: nat)
    requires GivesValue(t) && IsStmt(t, true) && EnvOk(e)
    ensures ValueIfNormal(Sem(t, e, fuel))
    decreases t, 2, 0
  {
    if t.kind == KBlock {
      BlockValue(t, 0, e, NoneV, fuel);
    } else if t.kind == KIf {
      IfValue(t, e, fuel);
    } else if t.kind == KAssign {
      KidValue(t, 0, e, fuel);
    } else if t.kind == KBinop {
      BinopValue(t, e, fuel);
    } else if t.kind == KInput {
      InputValue(t, e, fuel);
    } else if TakesValue(t) {
      StepValue(t, e, fuel);
    } else {
      LeafValue(t, e);
    }
  }

  lemma {:induction false} InputValue(t: Tree, e: Env, fuel: nat)
    requires t.kind == KInput && IsStmt(t, true) && EnvOk(e)
    ensures ValueIfNormal(SemInput(t, e, fuel))
  {
  }

  lemma {:induction false} StepValue(t: Tree, e: Env, fuel: nat)
    requires (t.kind == KUnop || t.kind == KIntCast) && TakesValue(t) && IsStmt(t, true) && EnvOk(e)
    ensures ValueIfNormal(Sem(t, e, fuel))
  {
  }

  lemma LeafValue(t: Tree, e: Env)
    requires t.kind == KInt || t.kind == KStr || t.kind == KBool || t.kind == KUnop || t.kind == KIntCast
    requires IsStmt(t, true) && EnvOk(e)
    ensures ValueIfNormal(SemLeaf(t, e))
  {
  }

  lemma {:induction false} KidValue(t: Tree, i: nat, e: Env, fuel: nat)
    requires i < |t.kids| && GivesValue(t.kids[i]) && t.kind != KDef && IsStmt(t, true) && EnvOk(e)
    ensures ValueIfNormal(SemKid(t, i, e, fuel))
    decreases t, 0, 0
  {
    KidIsStmt(t, i);
    ValueWhenNormal(t.kids[i], e, fuel);
  }

  lemma {:induction false} BlockValue(t: Tree, i: nat, e: Env, last: Value, fuel: nat)
    requires t.kind == KBlock && GivesValue(t) && IsStmt(t, true) && i <= |t.kids| && EnvOk(e)
    requires i == |t.kids| ==> last != NoneV
    ensures ValueIfNormal(SemBlock(t, i, e, last, fuel))
    decreases t, 1, |t.kids| - i
  {
    if i < |t.kids| {
      if i == |t.kids| - 1 {
        KidValue(t, i, e, fuel);
      }
      var r := SemKid(t, i, e, fuel);
      if r.o.Normal? {
        BlockValue(t, i + 1, r.env, r.o.v, fuel);
      }
    }
  }

  lemma {:induction false} IfValue(t: Tree, e: Env, fuel: nat)
    requires t.kind == KIf && GivesValue(t) && IsStmt(t, true) && EnvOk(e)
    ensures ValueIfNormal(SemIf(t, e, fuel))
    decreases t, 1, 0
  {
    var r := SemKid(t, 0, e, fuel);
    if r.o.Normal? {
      KidValue(t, 1, r.env, fuel);
      KidValue(t, 2, r.env, fuel);
    }
  }

  lemma ApplyValue(op: Op, l: Value, r: Value)
    ensures Apply(op, l, r).Normal? ==> Apply(op, l, r).v != NoneV
  {
  }

  lemma BinopValue(t: Tree, e: Env, fuel: nat)
    requires t.kind == KBinop && IsStmt(t, true) && EnvOk(e)
    ensures ValueIfNormal(SemBinop(t, e, fuel))
  {
    var l := SemKid(t, 0, e, fuel);
    if l.o.Normal? {
      var r := SemKid(t, 1, l.env, fuel);
      if r.o.Normal? {
        ApplyValue(t.op, l.o.v, r.o.v);
      }
    }
  }

  /** With such a body no call that ends without return gives None, against the language guide. */
  lemma PromiseBroken(f: Func, vals: seq<Value>, e: Env, fuel: nat)
    requires Enters(f, vals, e) && GivesValue(f.body) && BodyRun(f, vals, e, fuel).o.Normal?
    ensures SemBody(f, vals, e, fuel).o.Normal? && SemBody(f, vals, e, fuel).o.v != NoneV
  {
    EndsWithLast(f, vals, e, fuel);
    ValueWhenNormal(f.body, Inside(f, vals, e), fuel);
  }

  // ---------------------------------------------------------------------
  // Straight-line bodies: the promise is kept exactly by those of the first form

  /** Integer expressions over names: literals, variables, and operators that cannot fail on integers. */
  predicate Ints(t: Tree, names: set<string>) {
    if t.kind == KInt then true
    else if t.kind == KVar then t.s in names
    else if t.kind == KUnop then t.op == Minus && |t.kids| == 1 && Ints(t.kids[0], names)
    else
      t.kind == KBinop && |t.kids| == 2 && (t.op == Plus || t.op == Minus || t.op == Star) &&
      Ints(t.kids[0], names) && Ints(t.kids[1], names)
  }

  /** Expressions over integer variables that cannot fail. */
  predicate Plainly(t: Tree, names: set<string>) {
    Ints(t, names) || t.kind == KStr || t.kind == KBool ||
    (t.kind == KUnop && t.op == Not && |t.kids| == 1 && Plainly(t.kids[0], names)) ||
    (t.kind == KBinop && |t.kids| == 2 && (t.op == Eq || t.op == Neq || t.op == And || t.op == Or) &&
     Plainly(t.kids[0], names) && Plainly(t.kids[1], names)) ||
    (t.kind == KBinop && |t.kids| == 2 && (t.op == Lt || t.op == Le || t.op == Gt || t.op == Ge) &&
     Ints(t.kids[0], names) && Ints(t.kids[1], names))
  }

  /** Statements that keep every variable an integer. */
  predicate Quiet(t: Tree, names: set<string>) {
    t.kind == KDef || Plainly(t, names) ||
    (t.kind == KPrint && forall i :: 0 <= i < |t.kids| ==> Plainly(t.kids[i], names)) ||
    (t.kind == KAssign && |t.kids| == 1 && t.s in names && Ints(t.kids[0], names))
  }

  /** The last statement may also assign any other value. */
  predicate Straight(t: Tree, names: set<string>) {
    t.kind == KBlock && |t.kids| <= MAX_CHILDREN && 2 * |names| < MAX_VARS &&
    (forall i :: 0 <= i < |t.kids| - 1 ==> Quiet(t.kids[i], names)) &&
    (t.kids != [] ==>
       var s := t.kids[|t.kids| - 1];
       Quiet(s, names) || (s.kind == KAssign && |s.kids| == 1 && s.s in names && Plainly(s.kids[0], names)))
  }

  ghost predicate AllInts(m: Frame) {
    forall x :: x in m ==> m[x].IntV?
  }

  /** Two frames: the caller's has all names, the function's own some of them, and all values are integers. */
  ghost predicate Ready(e: Env, names: set<string>, n: nat) {
    EnvOk(e) && |e.frames| == 2 && |e.funcs| <= n &&
    e.frames[0].Keys == names && e.frames[1].Keys <= names && AllInts(e.frames[0]) && AllInts(e.frames[1])
  }

  lemma LookupReady(e: Env, names: set<string>, n: nat, x: string)
    requires Ready(e, names, n) && x in names
    ensures Lookup(e.frames, x).Some? && Lookup(e.frames, x).value.IntV?
  {
    assert e.frames[..1] == [e.frames[0]] && [e.frames[0]][..0] == [];
    assert x !in e.frames[1] ==> Lookup(e.frames, x) == Lookup([e.frames[0]], x) == Some(e.frames[0][x]);
  }

  lemma {:induction false} IntsGive(t: Tree, names: set<string>, e: Env, n: nat, fuel: nat)
    requires IsExpr(t) && IsStmt(t, true) && Ints(t, names) && Ready(e, names, n)
    ensures var r := Sem(t, e, fuel); r.o.Normal? && r.o.v.IntV? && r.env == e
    decreases t
  {
    if t.kind == KVar {
      LookupReady(e, names, n, t.s);
    } else if t.kind == KUnop {
      IntsKid(t, 0, names, e, n, fuel);
    } else if t.kind == KBinop {
      IntsKid(t, 0, names, e, n, fuel);
      IntsKid(t, 1, names, e, n, fuel);
    }
  }

  lemma {:induction false} IntsKid(t: Tree, i: nat, names: set<string>, e: Env, n: nat, fuel: nat)
    requires IsStmt(t, true) && t.kind != KDef && i < |t.kids| && IsExpr(t.kids[i]) && Ints(t.kids[i], names) &&
             Ready(e, names, n)
    ensures var r := SemKid(t, i, e, fuel); r.o.Normal? && r.o.v.IntV? && r.env == e
    decreases t, 0
  {
    KidIsStmt(t, i);
    IntsGive(t.kids[i], names, e, n, fuel);
  }

  lemma {:induction false} PlainGives(t: Tree, names: set<string>, e: Env, n: nat, fuel: nat)
    requires IsExpr(t) && IsStmt(t, true) && Plainly(t, names) && Ready(e, names, n)
    ensures var r := Sem(t, e, fuel); r.o.Normal? && r.o.v != NoneV && r.env == e
    decreases t
  {
    if Ints(t, names) {
      IntsGive(t, names, e, n, fuel);
    } else if t.kind == KUnop {
      PlainKid(t, 0, names, e, n, fuel);
    } else if t.kind == KBinop && (t.op == Eq || t.op == Neq || t.op == And || t.op == Or) {
      PlainKid(t, 0, names, e, n, fuel);
      PlainKid(t, 1, names, e, n, fuel);
    } else if t.kind == KBinop {
      IntsKid(t, 0, names, e, n, fuel);
      IntsKid(t, 1, names, e, n, fuel);
    }
  }

  lemma {:induction false} PlainKid(t: Tree, i: nat, names: set<string>, e: Env, n: nat, fuel: nat)
    requires IsStmt(t, true) && t.kind != KDef && i < |t.kids| && IsExpr(t.kids[i]) && Plainly(t.kids[i], names) &&
             Ready(e, names, n)
    ensures var r := SemKid(t, i, e, fuel); r.o.Normal? && r.o.v != NoneV && r.env == e
    decreases t, 0
  {
    KidIsStmt(t, i);
    PlainGives(t.kids[i], names, e, n, fuel);
  }

  lemma {:induction false} PrintRuns(t: Tree, i: nat, names: set<string>, e: Env, n: nat, fuel: nat)
    requires t.kind == KPrint && IsStmt(t, true) && i <= |t.kids| && Ready(e, names, n)
    requires forall k :: 0 <= k < |t.kids| ==> Plainly(t.kids[k], names)
    ensures var r := SemPrint(t, i, e, fuel); r.o.Normal? && Ready(r.env, names, n)
    decreases |t.kids| - i
  {
    if i < |t.kids| {
      PlainKid(t, i, names, e, n, fuel);
      PrintRuns(t, i + 1, names, Printed(t, i, SemKid(t, i, e, fuel)), n, fuel);
    }
  }

  /** There is room for every name in the function's own frame. */
  lemma RoomFor(e: Env, names: set<string>, n: nat, x: string, v: Value)
    requires Ready(e, names, n) && x in names && 2 * |names| < MAX_VARS
    ensures SetResult(e, x, v) == Gives(e.(frames := [e.frames[0], e.frames[1][x := v]]), v)
    ensures v.IntV? ==> Ready(SetResult(e, x, v).env, names, n)
  {
    SizeOfKeys(e.frames[0], names);
    SizeOfKeys(e.frames[1], names);
    TwoFrames(e.frames);
    assert e.frames[1 := e.frames[1][x := v]] == [e.frames[0], e.frames[1][x := v]];
  }

  lemma TwoFrames(frames: seq<Frame>)
    requires |frames| == 2
    ensures Total(frames) == |frames[0]| + |frames[1]|
  {
    assert frames[..1] == [frames[0]] && [frames[0]][..0] == [];
    assert Total([frames[0]]) == |frames[0]|;
  }

  lemma SizeOfKeys(m: Frame, names: set<string>)
    requires m.Keys <= names
    ensures |m| <= |names|
  {
    assert |m| == |m.Keys|;
    SubsetSize(m.Keys, names);
  }

  lemma QuietRuns(t: Tree, i: nat, names: set<string>, e: Env, fuel: nat)
    requires t.kind == KBlock && IsStmt(t, true) && i < |t.kids| <= MAX_CHILDREN && Quiet(t.kids[i], names) &&
             Ready(e, names, i)
    requires 2 * |names| < MAX_VARS
    ensures var r := SemKid(t, i, e, fuel); r.o.Normal? && Ready(r.env, names, i + 1)
  {
    var s := t.kids[i];
    KidIsStmt(t, i);
    if Plainly(s, names) {
      PlainIsExpr(s, names);
      PlainGives(s, names, e, i, fuel);
    } else if s.kind == KPrint {
      PrintRuns(s, 0, names, e, i, fuel);
    } else if s.kind == KAssign {
      IntsKid(s, 0, names, e, i, fuel);
      RoomFor(e, names, i, s.s, SemKid(s, 0, e, fuel).o.v);
    }
  }

  lemma PlainIsExpr(t: Tree, names: set<string>)
    requires IsStmt(t, true) && Plainly(t, names)
    ensures IsExpr(t)
  {
  }

  lemma {:induction false} StraightRuns(t: Tree, i: nat, names: set<string>, e: Env, fuel: nat)
    requires Straight(t, names) && IsStmt(t, true) && i < |t.kids| && Ready(e, names, i) && !GivesNone(t)
    ensures var r := LastRun(t, i, e, fuel); r.o.Normal? && r.o.v != NoneV
    decreases |t.kids| - i, 1
  {
    if i < |t.kids| - 1 {
      QuietGoesOn(t, i, names, e, fuel);
    } else {
      LastGives(t, i, names, e, fuel);
    }
  }

  lemma {:induction false} QuietGoesOn(t: Tree, i: nat, names: set<string>, e: Env, fuel: nat)
    requires Straight(t, names) && IsStmt(t, true) && i < |t.kids| - 1 && Ready(e, names, i) && !GivesNone(t)
    ensures var r := LastRun(t, i, e, fuel); r.o.Normal? && r.o.v != NoneV
    decreases |t.kids| - i, 0
  {
    QuietRuns(t, i, names, e, fuel);
    StraightRuns(t, i + 1, names, SemKid(t, i, e, fuel).env, fuel);
  }

  lemma LastGives(t: Tree, i: nat, names: set<string>, e: Env, fuel: nat)
    requires Straight(t, names) && IsStmt(t, true) && i == |t.kids| - 1 && Ready(e, names, i) && !GivesNone(t)
    ensures var r := SemKid(t, i, e, fuel); r.o.Normal? && r.o.v != NoneV
  {
    var s := t.kids[i];
    KidIsStmt(t, i);
    if Plainly(s, names) {
      PlainIsExpr(s, names);
      PlainGives(s, names, e, i, fuel);
    } else {
      PlainKid(s, 0, names, e, i, fuel);
      RoomFor(e, names, i, s.s, SemKid(s, 0, e, fuel).o.v);
    }
  }

  /** A caller in whose frame every name is 1. */
  ghost function Caller(names: set<string>): (e: Env)
    ensures EnvOk(e)
  {
    Env([map x | x in names :: IntV(1)], [], [], [])
  }

  /** Every call without arguments that ends without return gives None. */
  ghost predicate KeepsPromise(body: Tree) {
    forall e: Env, fuel: nat {:trigger BodyRun(Func("f", [], body), [], e, fuel)} ::
      Enters(Func("f", [], body), [], e) && BodyRun(Func("f", [], body), [], e, fuel).o.Normal? ==>
        SemBody(Func("f", [], body), [], e, fuel).o == Normal(NoneV)
  }

  /** In the caller's frame of ones a body of the other form ends without return, and not with None. */
  lemma WitnessCall(body: Tree, names: set<string>, fuel: nat)
    requires IsBlock(body, false) && Straight(body, names) && !GivesNone(body)
    ensures var f := Func("f", [], body);
            Enters(f, [], Caller(names)) && BodyRun(f, [], Caller(names), fuel).o.Normal? &&
            SemBody(f, [], Caller(names), fuel).o.Normal? && SemBody(f, [], Caller(names), fuel).o.v != NoneV
  {
    var f := Func("f", [], body);
    var e := Caller(names);
    EndsWithLast(f, [], e, fuel);
    assert Ready(Inside(f, [], e), names, 0);
    StraightRuns(body, 0, names, Inside(f, [], e), fuel);
  }

  /**
    A straight-line body keeps the promise of the language guide exactly when it
    is empty or ends with print or def.
   */
  lemma PromiseIff(body: Tree, names: set<string>)
    requires IsBlock(body, false) && Straight(body, names)
    ensures KeepsPromise(body) <==> GivesNone(body)
  {
    if GivesNone(body) {
      forall e: Env, fuel: nat {:trigger BodyRun(Func("f", [], body), [], e, fuel)}
        | Enters(Func("f", [], body), [], e) && BodyRun(Func("f", [], body), [], e, fuel).o.Normal?
        ensures SemBody(Func("f", [], body), [], e, fuel).o == Normal(NoneV)
      {
        PromiseKept(Func("f", [], body), [], e, fuel);
      }
    } else {
      WitnessCall(body, names, 0);
    }
  }
}
