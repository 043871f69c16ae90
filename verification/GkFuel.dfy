// Fuel only bounds the search for an answer: once a run ends for any other
// reason than lack of fuel, more fuel gives the same answer.

module GkFuel {
  import opened Options
  import opened GkSyntax
  import opened GkValues
  import opened GkSemantics

  ghost predicate Starved(r: Result) {
    r.o == Fail(OutOfFuel)
  }

  /** One more unit of fuel changes no answer. */
  lemma {:induction false} MoreFuel(t: Tree, e: Env, fuel: nat)
    requires IsStmt(t, true) && EnvOk(e) && !Starved(Sem(t, e, fuel))
    ensures Sem(t, e, fuel + 1) == Sem(t, e, fuel)
    decreases fuel, MAX_CALL_DEPTH + 1 - |e.frames|, t, 2, 0
  {
    if t.kind == KBinop {
      MoreBinop(t, e, fuel);
    } else if t.kind == KBlock {
      MoreBlock(t, 0, e, NoneV, fuel);
    } else if t.kind == KIf {
      MoreIf(t, e, fuel);
    } else if t.kind == KWhile {
      MoreWhile(t, e, NoneV, fuel);
    } else if t.kind == KFor {
      MoreFor(t, e, fuel);
    } else if t.kind == KPrint {
      MorePrint(t, 0, e, fuel);
    } else if t.kind == KInput {
      MoreInput(t, e, fuel);
    } else if t.kind == KCall {
      MoreCall(t, e, fuel);
    } else {
      MoreValue(t, e, fuel);
    }
  }

  /** Any amount more. */
  lemma {:induction false} FuelIsEnough(t: Tree, e: Env, fuel: nat, more: nat)
    requires IsStmt(t, true) && EnvOk(e) && !Starved(Sem(t, e, fuel)) && fuel <= more
    ensures Sem(t, e, more) == Sem(t, e, fuel)
    decreases more
  {
    if fuel < more {
      FuelIsEnough(t, e, fuel, more - 1);
      MoreFuel(t, e, more - 1);
    }
  }

  lemma {:induction false} MoreKid(t: Tree, i: nat, e: Env, fuel: nat)
    requires IsStmt(t, true) && i < |t.kids| && t.kind != KDef && EnvOk(e) && !Starved(SemKid(t, i, e, fuel))
    ensures SemKid(t, i, e, fuel + 1) == SemKid(t, i, e, fuel)
    decreases fuel, MAX_CALL_DEPTH + 1 - |e.frames|, t, 0, 0
  {
    KidIsStmt(t, i);
    MoreFuel(t.kids[i], e, fuel);
  }

  lemma {:induction false} MoreValue(t: Tree, e: Env, fuel: nat)
    requires IsStmt(t, true) && EnvOk(e) && !Starved(Sem(t, e, fuel))
    requires t.kind != KBinop && t.kind != KBlock && t.kind != KIf && t.kind != KWhile && t.kind != KFor
    requires t.kind != KPrint && t.kind != KInput && t.kind != KCall
    ensures Sem(t, e, fuel + 1) == Sem(t, e, fuel)
    decreases fuel, MAX_CALL_DEPTH + 1 - |e.frames|, t, 1, 0
  {
    if TakesValue(t) {
      MoreKid(t, 0, e, fuel);
    }
  }

  lemma {:induction false} MoreBinop(t: Tree, e: Env, fuel: nat)
    requires t.kind == KBinop && IsStmt(t, true) && EnvOk(e) && !Starved(SemBinop(t, e, fuel))
    ensures SemBinop(t, e, fuel + 1) == SemBinop(t, e, fuel)
    decreases fuel, MAX_CALL_DEPTH + 1 - |e.frames|, t, 1, 0
  {
    MoreKid(t, 0, e, fuel);
    var l := SemKid(t, 0, e, fuel);
    if l.o.Normal? && !(t.op == And && !Truthy(l.o.v)) && !(t.op == Or && Truthy(l.o.v)) {
      MoreKid(t, 1, l.env, fuel);
    }
  }

  lemma {:induction false} MoreIf(t: Tree, e: Env, fuel: nat)
    requires t.kind == KIf && IsStmt(t, true) && EnvOk(e) && !Starved(SemIf(t, e, fuel))
    ensures SemIf(t, e, fuel + 1) == SemIf(t, e, fuel)
    decreases fuel, MAX_CALL_DEPTH + 1 - |e.frames|, t, 1, 0
  {
    MoreKid(t, 0, e, fuel);
    var r := SemKid(t, 0, e, fuel);
    if r.o.Normal? {
      if Truthy(r.o.v) {
        MoreKid(t, 1, r.env, fuel);
      } else if |t.kids| == 3 {
        MoreKid(t, 2, r.env, fuel);
      }
    }
  }

  lemma {:induction false} MoreBlock(t: Tree, i: nat, e: Env, last: Value, fuel: nat)
    requires t.kind == KBlock && IsStmt(t, true) && i <= |t.kids| && EnvOk(e) && !Starved(SemBlock(t, i, e, last, fuel))
    ensures SemBlock(t, i, e, last, fuel + 1) == SemBlock(t, i, e, last, fuel)
    decreases fuel, MAX_CALL_DEPTH + 1 - |e.frames|, t, 0, |t.kids| - i + 1
  {
    if i < |t.kids| {
      MoreKid(t, i, e, fuel);
      var r := SemKid(t, i, e, fuel);
      if r.o.Normal? {
        MoreBlock(t, i + 1, r.env, r.o.v, fuel);
      }
    }
  }

  lemma {:induction false} MoreWhile(t: Tree, e: Env, last: Value, fuel: nat)
    requires t.kind == KWhile && IsStmt(t, true) && EnvOk(e) && !Starved(SemWhile(t, e, last, fuel))
    ensures SemWhile(t, e, last, fuel + 1) == SemWhile(t, e, last, fuel)
    decreases fuel, MAX_CALL_DEPTH + 1 - |e.frames|, t, 0, 2
  {
    MoreKid(t, 0, e, fuel);
    var c := SemKid(t, 0, e, fuel);
    if c.o.Normal? && Truthy(c.o.v) {
      MoreTurn(t, c.env, fuel);
    }
  }

  /** A turn of a while loop and what comes after it. */
  lemma {:induction false} MoreTurn(t: Tree, e: Env, fuel: nat)
    requires t.kind == KWhile && IsStmt(t, true) && EnvOk(e) && fuel > 0
    requires !Starved(AfterTurn(t, SemKid(t, 1, e, fuel), fuel))
    ensures AfterTurn(t, SemKid(t, 1, e, fuel + 1), fuel + 1) == AfterTurn(t, SemKid(t, 1, e, fuel), fuel)
    decreases fuel, MAX_CALL_DEPTH + 1 - |e.frames|, t, 0, 1
  {
    MoreKid(t, 1, e, fuel);
    var r := SemKid(t, 1, e, fuel);
    if r.o.Normal? {
      MoreWhile(t, r.env, r.o.v, fuel - 1);
    } else if r.o.Continue? {
      MoreWhile(t, r.env, NoneV, fuel - 1);
    }
  }

  lemma {:induction false} MoreFor(t: Tree, e: Env, fuel: nat)
    requires t.kind == KFor && IsStmt(t, true) && EnvOk(e) && !Starved(SemFor(t, e, fuel))
    ensures SemFor(t, e, fuel + 1) == SemFor(t, e, fuel)
    decreases fuel, MAX_CALL_DEPTH + 1 - |e.frames|, t, 1, 0
  {
    if t.kids[0].kind != KRange || t.kids[0].kids != [] {
      MoreLimit(t, e, fuel);
      var c := Limit(t, e, fuel);
      if c.o.Normal? && c.o.v.IntV? {
        MoreTurns(t, 0, c.o.v.n, c.env, NoneV, fuel);
      }
    }
  }

  lemma {:induction false} MoreLimit(t: Tree, e: Env, fuel: nat)
    requires t.kind == KFor && IsStmt(t, true) && EnvOk(e) && (t.kids[0].kind == KRange ==> t.kids[0].kids != [])
    requires !Starved(Limit(t, e, fuel))
    ensures Limit(t, e, fuel + 1) == Limit(t, e, fuel)
    decreases fuel, MAX_CALL_DEPTH + 1 - |e.frames|, t, 0, 2
  {
    if t.kids[0].kind == KRange {
      ExprIsStmt(t.kids[0]);
      MoreKid(t.kids[0], 0, e, fuel);
    } else {
      MoreKid(t, 0, e, fuel);
    }
  }

  lemma {:induction false} MoreTurns(t: Tree, i: nat, limit: int, e: Env, last: Value, fuel: nat)
    requires t.kind == KFor && IsStmt(t, true) && EnvOk(e) && !Starved(SemTurns(t, i, limit, e, last, fuel))
    ensures SemTurns(t, i, limit, e, last, fuel + 1) == SemTurns(t, i, limit, e, last, fuel)
    decreases fuel, MAX_CALL_DEPTH + 1 - |e.frames|, t, 0, 1 + if i < limit then limit - i else 0
  {
    if i < limit {
      var b := SetResult(e, t.s, IntV(i));
      if b.o.Normal? {
        MoreKid(t, 1, b.env, fuel);
        var r := SemKid(t, 1, b.env, fuel);
        if r.o.Normal? || r.o.Continue? {
          MoreTurns(t, i + 1, limit, r.env, if r.o.Normal? then r.o.v else NoneV, fuel);
        }
      }
    }
  }

  lemma {:induction false} MorePrint(t: Tree, i: nat, e: Env, fuel: nat)
    requires t.kind == KPrint && IsStmt(t, true) && i <= |t.kids| && EnvOk(e) && !Starved(SemPrint(t, i, e, fuel))
    ensures SemPrint(t, i, e, fuel + 1) == SemPrint(t, i, e, fuel)
    decreases fuel, MAX_CALL_DEPTH + 1 - |e.frames|, t, 0, |t.kids| - i + 1
  {
    if i < |t.kids| {
      MoreKid(t, i, e, fuel);
      var r := SemKid(t, i, e, fuel);
      if r.o.Normal? {
        MorePrint(t, i + 1, Printed(t, i, r), fuel);
      }
    }
  }

  lemma {:induction false} MoreInput(t: Tree, e: Env, fuel: nat)
    requires t.kind == KInput && IsStmt(t, true) && EnvOk(e) && !Starved(SemInput(t, e, fuel))
    ensures SemInput(t, e, fuel + 1) == SemInput(t, e, fuel)
    decreases fuel, MAX_CALL_DEPTH + 1 - |e.frames|, t, 0, 2
  {
    if t.kids != [] {
      MoreKid(t, 0, e, fuel);
    }
  }

  ghost predicate ArgsStarved(r: ArgsResult) {
    r.ArgsStop? && Starved(r.r)
  }

  lemma {:induction false} MoreArgs(t: Tree, i: nat, e: Env, vals: seq<Value>, fuel: nat)
    requires t.kind == KCall && IsStmt(t, true) && i == |vals| <= |t.kids| && EnvOk(e) &&
             !ArgsStarved(SemArgs(t, i, e, vals, fuel))
    ensures SemArgs(t, i, e, vals, fuel + 1) == SemArgs(t, i, e, vals, fuel)
    decreases fuel, MAX_CALL_DEPTH + 1 - |e.frames|, t, 0, |t.kids| - i + 1
  {
    if i < |t.kids| {
      MoreKid(t, i, e, fuel);
      var r := SemKid(t, i, e, fuel);
      if r.o.Normal? {
        MoreArgs(t, i + 1, r.env, vals + [r.o.v], fuel);
      }
    }
  }

  lemma {:induction false} MoreCall(t: Tree, e: Env, fuel: nat)
    requires t.kind == KCall && IsStmt(t, true) && EnvOk(e) && !Starved(SemCall(t, e, fuel))
    ensures SemCall(t, e, fuel + 1) == SemCall(t, e, fuel)
    decreases fuel, MAX_CALL_DEPTH + 1 - |e.frames|, t, 1, 0
  {
    var k := FindFunc(e.funcs, t.s);
    if k < |e.funcs| && |t.kids| == |e.funcs[k].params| && |e.frames| - 1 < MAX_CALL_DEPTH {
      MoreArgs(t, 0, e, [], fuel);
      var args := SemArgs(t, 0, e, [], fuel);
      if args.ArgsOk? {
        MoreBody(e.funcs[k], args.vals, args.env, fuel);
      }
    }
  }

  lemma {:induction false} MoreBody(f: Func, vals: seq<Value>, e: Env, fuel: nat)
    requires IsBlock(f.body, false) && |vals| == |f.params| && EnvOk(e) && |e.frames| <= MAX_CALL_DEPTH
    requires !Starved(SemBody(f, vals, e, fuel))
    ensures SemBody(f, vals, e, fuel + 1) == SemBody(f, vals, e, fuel)
    decreases fuel, MAX_CALL_DEPTH - |e.frames|, f.body, 3, 0
  {
    var b := BindAll(e.frames + [map[]], f.params, vals);
    if b.Some? {
      LoopAllows(f.body);
      MoreFuel(f.body, e.(frames := b.value), fuel);
    }
  }
}
