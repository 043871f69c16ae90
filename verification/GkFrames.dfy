// The evaluator's flat array of scoped variables, seen as a stack of frames.

module GkFrames {
  import opened Options
  import opened GkSyntax
  import opened GkValues
  import opened GkSemantics

  datatype Var = Var(name: string, val: Value, scope: nat)

  ghost predicate Below(vars: seq<Var>, d: nat) {
    forall i {:trigger vars[i]} :: 0 <= i < |vars| ==> vars[i].scope <= d
  }

  /** Scopes never decrease along the array, and no scope has a name twice. */
  ghost predicate VarsOk(vars: seq<Var>, d: nat) {
    Below(vars, d) && |vars| <= MAX_VARS &&
    (forall i, j {:trigger vars[i], vars[j]} :: 0 <= i < j < |vars| ==> vars[i].scope <= vars[j].scope) &&
    (forall i, j {:trigger vars[i], vars[j]} :: 0 <= i < j < |vars| && vars[i].scope == vars[j].scope ==>
        vars[i].name != vars[j].name)
  }

  ghost function NoFrames(n: nat): (f: seq<Frame>)
    ensures |f| == n
    ensures forall k {:trigger f[k]} :: 0 <= k < n ==> f[k] == map[]
  {
    if n == 0 then [] else NoFrames(n - 1) + [map[]]
  }

  /** The frames with one binding put in. */
  ghost function Put(f: seq<Frame>, k: nat, x: string, v: Value): seq<Frame>
    requires k < |f|
  {
    f[k := f[k][x := v]]
  }

  lemma PutTwice(f: seq<Frame>, k: nat, x: string, v: Value, w: Value)
    requires k < |f|
    ensures Put(Put(f, k, x, v), k, x, w) == Put(f, k, x, w)
  {
    assert f[k][x := v][x := w] == f[k][x := w];
  }

  lemma PutSwap(f: seq<Frame>, k: nat, x: string, v: Value, y: string, w: Value)
    requires k < |f| && x != y
    ensures Put(Put(f, k, x, v), k, y, w) == Put(Put(f, k, y, w), k, x, v)
  {
    assert f[k][x := v][y := w] == f[k][y := w][x := v];
  }

  ghost function FramesOf(vars: seq<Var>, d: nat): (f: seq<Frame>)
    requires Below(vars, d)
    ensures |f| == d + 1
  {
    if vars == [] then NoFrames(d + 1)
    else
      var x := vars[|vars| - 1];
      assert Below(vars[..|vars| - 1], d) && x.scope <= d;
      Put(FramesOf(vars[..|vars| - 1], d), x.scope, x.name, x.val)
  }

  lemma Shorter(vars: seq<Var>, d: nat)
    requires VarsOk(vars, d) && vars != []
    ensures VarsOk(vars[..|vars| - 1], d) && vars[|vars| - 1].scope <= d
    ensures var x := vars[|vars| - 1];
            FramesOf(vars, d) == Put(FramesOf(vars[..|vars| - 1], d), x.scope, x.name, x.val)
  {
  }

  /** No variable of this name and scope. */
  ghost predicate Absent(vars: seq<Var>, k: nat, x: string) {
    forall i {:trigger vars[i]} :: 0 <= i < |vars| ==> !(vars[i].scope == k && vars[i].name == x)
  }

  lemma {:induction false} AbsentIs(vars: seq<Var>, d: nat, k: nat, x: string)
    requires Below(vars, d) && k <= d && Absent(vars, k, x)
    ensures x !in FramesOf(vars, d)[k]
    decreases |vars|
  {
    if vars != [] {
      AbsentIs(vars[..|vars| - 1], d, k, x);
    }
  }

  lemma {:induction false} PresentIs(vars: seq<Var>, d: nat, i: nat)
    requires VarsOk(vars, d) && i < |vars|
    ensures vars[i].scope <= d && vars[i].name in FramesOf(vars, d)[vars[i].scope]
    ensures FramesOf(vars, d)[vars[i].scope][vars[i].name] == vars[i].val
    decreases |vars|
  {
    Shorter(vars, d);
    if i < |vars| - 1 {
      PresentIs(vars[..|vars| - 1], d, i);
    }
  }

  /** Every frame above the last variable's scope is empty. */
  lemma {:induction false} EmptyAbove(vars: seq<Var>, d: nat, s: nat, k: nat)
    requires Below(vars, d) && Below(vars, s) && s < k <= d
    ensures FramesOf(vars, d)[k] == map[]
    decreases |vars|
  {
    if vars != [] {
      EmptyAbove(vars[..|vars| - 1], d, s, k);
    }
  }

  // ---------------------------------------------------------------------
  // Lookup

  lemma {:induction false} LookupOther(frames: seq<Frame>, k: nat, y: string, v: Value, x: string)
    requires k < |frames| && x != y
    ensures Lookup(Put(frames, k, y, v), x) == Lookup(frames, x)
    decreases |frames|
  {
    var f := Put(frames, k, y, v);
    var n := |frames| - 1;
    if k < n {
      assert f[..n] == Put(frames[..n], k, y, v);
      LookupOther(frames[..n], k, y, v, x);
    } else {
      assert f[..n] == frames[..n];
    }
  }

  lemma {:induction false} LookupAt(frames: seq<Frame>, k: nat, x: string)
    requires k < |frames| && x in frames[k] && forall j :: k < j < |frames| ==> x !in frames[j]
    ensures Lookup(frames, x) == Some(frames[k][x])
    decreases |frames|
  {
    var n := |frames| - 1;
    if k < n {
      LookupAt(frames[..n], k, x);
    }
  }

  lemma {:induction false} LookupNone(n: nat, x: string)
    ensures Lookup(NoFrames(n), x) == None
  {
    if n > 0 {
      assert NoFrames(n)[..n - 1] == NoFrames(n - 1);
      LookupNone(n - 1, x);
    }
  }

  /** The last variable of a name in the array is the one the frames give. */
  lemma {:induction false} LookupIs(vars: seq<Var>, d: nat, x: string, i: int)
    requires VarsOk(vars, d) && -1 <= i < |vars| && (i >= 0 ==> vars[i].name == x)
    requires forall j {:trigger vars[j]} :: i < j < |vars| ==> vars[j].name != x
    ensures Lookup(FramesOf(vars, d), x) == if i < 0 then None else Some(vars[i].val)
    decreases |vars|
  {
    if vars == [] {
      LookupNone(d + 1, x);
    } else {
      var n := |vars| - 1;
      Shorter(vars, d);
      if i == n {
        LastWins(vars, d);
      } else {
        LookupIs(vars[..n], d, x, i);
        LookupOther(FramesOf(vars[..n], d), vars[n].scope, vars[n].name, vars[n].val, x);
      }
    }
  }

  lemma LastWins(vars: seq<Var>, d: nat)
    requires VarsOk(vars, d) && vars != []
    ensures Lookup(FramesOf(vars, d), vars[|vars| - 1].name) == Some(vars[|vars| - 1].val)
  {
    var y := vars[|vars| - 1];
    assert Below(vars, y.scope);
    forall k | y.scope < k <= d
      ensures FramesOf(vars, d)[k] == map[]
    {
      EmptyAbove(vars, d, y.scope, k);
    }
    PresentIs(vars, d, |vars| - 1);
    LookupAt(FramesOf(vars, d), y.scope, y.name);
  }

  // ---------------------------------------------------------------------
  // Assignment

  lemma {:induction false} TotalUpdate(frames: seq<Frame>, k: nat, y: string, v: Value)
    requires k < |frames| && y !in frames[k]
    ensures Total(Put(frames, k, y, v)) == Total(frames) + 1
    decreases |frames|
  {
    var f := Put(frames, k, y, v);
    var n := |frames| - 1;
    if k < n {
      assert f[..n] == Put(frames[..n], k, y, v);
      TotalUpdate(frames[..n], k, y, v);
    } else {
      assert f[..n] == frames[..n];
      OneMore(frames[k], y, v);
    }
  }

  lemma OneMore(m: Frame, y: string, v: Value)
    requires y !in m
    ensures |m[y := v]| == |m| + 1
  {
    assert m[y := v].Keys == m.Keys + {y};
    assert |m[y := v].Keys| == |m[y := v]| && |m.Keys| == |m|;
  }

  lemma {:induction false} TotalNone(n: nat)
    ensures Total(NoFrames(n)) == 0
  {
    if n > 0 {
      assert NoFrames(n)[..n - 1] == NoFrames(n - 1);
      TotalNone(n - 1);
    }
  }

  /** The frames hold exactly as many variables as the array. */
  lemma {:induction false} TotalIs(vars: seq<Var>, d: nat)
    requires VarsOk(vars, d)
    ensures Total(FramesOf(vars, d)) == |vars|
    decreases |vars|
  {
    if vars == [] {
      TotalNone(d + 1);
    } else {
      var n := |vars| - 1;
      Shorter(vars, d);
      TotalIs(vars[..n], d);
      AbsentIs(vars[..n], d, vars[n].scope, vars[n].name);
      TotalUpdate(FramesOf(vars[..n], d), vars[n].scope, vars[n].name, vars[n].val);
    }
  }

  /** A new variable at the end of the array is a new binding in the innermost frame. */
  lemma AppendIs(vars: seq<Var>, d: nat, x: string, v: Value)
    requires VarsOk(vars, d) && Absent(vars, d, x) && |vars| < MAX_VARS
    ensures VarsOk(vars + [Var(x, v, d)], d)
    ensures Bind(FramesOf(vars, d), x, v) == Some(FramesOf(vars + [Var(x, v, d)], d))
  {
    var w := vars + [Var(x, v, d)];
    assert w[..|vars|] == vars;
    AbsentIs(vars, d, d, x);
    TotalIs(vars, d);
  }

  lemma FullIs(vars: seq<Var>, d: nat, x: string, v: Value)
    requires VarsOk(vars, d) && Absent(vars, d, x) && |vars| == MAX_VARS
    ensures Bind(FramesOf(vars, d), x, v) == None
  {
    AbsentIs(vars, d, d, x);
    TotalIs(vars, d);
  }

  /** A variable changed in place is a binding changed in its frame. */
  lemma {:induction false} UpdateIs(vars: seq<Var>, d: nat, i: nat, v: Value)
    requires VarsOk(vars, d) && i < |vars| && vars[i].scope == d
    ensures VarsOk(vars[i := vars[i].(val := v)], d)
    ensures FramesOf(vars[i := vars[i].(val := v)], d) == Put(FramesOf(vars, d), d, vars[i].name, v)
    decreases |vars|
  {
    var w := vars[i := vars[i].(val := v)];
    var n := |vars| - 1;
    Shorter(vars, d);
    Shorter(w, d);
    var f := FramesOf(vars[..n], d);
    if i < n {
      assert w[..n] == vars[..n][i := vars[..n][i].(val := v)];
      UpdateIs(vars[..n], d, i, v);
      PutSwap(f, d, vars[i].name, v, vars[n].name, vars[n].val);
    } else {
      assert w[..n] == vars[..n];
      PutTwice(f, d, vars[n].name, vars[n].val, v);
    }
  }

  // ---------------------------------------------------------------------
  // Calls

  /** Entering a function opens an empty frame. */
  lemma {:induction false} PushIs(vars: seq<Var>, d: nat)
    requires Below(vars, d)
    ensures Below(vars, d + 1) && FramesOf(vars, d + 1) == FramesOf(vars, d) + [map[]]
    decreases |vars|
  {
    if vars == [] {
    } else {
      PushIs(vars[..|vars| - 1], d);
    }
  }

  /** Dropping a variable of the innermost frame keeps the frames below. */
  lemma DropIs(vars: seq<Var>, d: nat)
    requires VarsOk(vars, d) && vars != [] && vars[|vars| - 1].scope == d
    ensures VarsOk(vars[..|vars| - 1], d)
    ensures FramesOf(vars[..|vars| - 1], d)[..d] == FramesOf(vars, d)[..d]
  {
    Shorter(vars, d);
  }

  /** Leaving a function closes its frame. */
  lemma PopIs(vars: seq<Var>, d: nat)
    requires VarsOk(vars, d + 1) && (vars == [] || vars[|vars| - 1].scope <= d)
    ensures VarsOk(vars, d) && FramesOf(vars, d) == FramesOf(vars, d + 1)[..d + 1]
  {
    assert Below(vars, d);
    PushIs(vars, d);
  }

  /** Part of the way through leaving a function: the frames below are still those of frames. */
  ghost predicate Popping(vars: seq<Var>, d: nat, frames: seq<Frame>) {
    d < |frames| && VarsOk(vars, d) && FramesOf(vars, d)[..d] == frames[..d]
  }

  lemma PopStep(vars: seq<Var>, d: nat, frames: seq<Frame>)
    requires Popping(vars, d, frames) && vars != [] && vars[|vars| - 1].scope >= d
    ensures Popping(vars[..|vars| - 1], d, frames)
  {
    DropIs(vars, d);
  }

  lemma PopEnd(vars: seq<Var>, d: nat, frames: seq<Frame>)
    requires d > 0 && Popping(vars, d, frames) && (vars == [] || vars[|vars| - 1].scope < d)
    ensures VarsOk(vars, d - 1) && FramesOf(vars, d - 1) == frames[..d]
  {
    PopIs(vars, d - 1);
  }

  /** A variable of the current scope set. */
  lemma SetOld(vars: seq<Var>, d: nat, i: nat, v: Value)
    requires VarsOk(vars, d) && i < |vars| && vars[i].scope == d
    ensures VarsOk(vars[i := vars[i].(val := v)], d)
    ensures Bind(FramesOf(vars, d), vars[i].name, v) == Some(FramesOf(vars[i := vars[i].(val := v)], d))
  {
    UpdateIs(vars, d, i, v);
    PresentIs(vars, d, i);
  }
}
