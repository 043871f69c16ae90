// The limits of the language guide's table, in numbers.

module GkLimits {
  import opened GkSyntax
  import opened GkGrammar
  import opened GkPrinter
  import opened GkRoundTrip
  import opened GkArena
  import opened GkText
  import opened GkProgram
  import GkLexer

  /** A program's text compiles exactly when it has at most 2048 tokens, the last one included, and 2048 nodes. */
  lemma ProgramLimits(t: Tree)
    requires WritableProgram(t)
    ensures Compiles(Written(t)) <==> |ShowStmts(t.kids)| + 1 <= 2048 && Size(t) <= 2048
  {
    WrittenCompiles(t);
  }

  /** A block takes 64 statements, and no 65th. */
  lemma StatementLimit(all: seq<Tree>, ts: seq<Token>)
    requires Stream(ts) && ts[0] != Dedent && ts[0] != Eof && Stmt(ts).Got?
    ensures Stmts(all, ts) == if |all| < 64 then Stmts(all + [Stmt(ts).t], SkipNewlines(Stmt(ts).rest)) else BadAll
    ensures TopStmts(all, ts) ==
            if |all| < 64 then TopStmts(all + [Stmt(ts).t], SkipNewlines(Stmt(ts).rest)) else BadAll
  {
  }

  /** A call takes 64 arguments, and no 65th. */
  lemma ArgumentLimit(args: seq<Tree>, ts: seq<Token>)
    requires Stream(ts) && ts[0] != RParen && ts[0] != Eof && Expr(ts).Got?
    ensures |args| >= 64 ==> Args(args, ts) == BadAll
    ensures |args| < 64 && Expr(ts).rest[0] == Comma ==>
              Args(args, ts) == Args(args + [Expr(ts).t], Tail(Expr(ts).rest))
    ensures |args| < 64 && Expr(ts).rest[0] != Comma ==> Args(args, ts) == GotAll(args + [Expr(ts).t], Expr(ts).rest)
  {
  }

  /** Letters go on in a word of any length, but a digit ends a word that has 63 characters. */
  lemma {:induction false} DigitEndsLongWord(w: string, more: string, i: nat)
    requires |w| >= 63 && i <= |w| && (forall k :: 0 <= k < |w| ==> GkLexer.IsAlpha(w[k]))
    requires more != "" && '0' <= more[0] <= '9'
    ensures GkLexer.AfterWord(w + more, i, i) == |w|
    decreases |w| - i
  {
    if i < |w| {
      DigitEndsLongWord(w, more, i + 1);
    }
  }
}
