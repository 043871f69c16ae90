// From source text to output: lexer, parser and evaluator one after the other.

module GkProgram {
  import opened GkSyntax
  import opened GkValues
  import opened GkSemantics
  import opened GkLaws
  import opened GkMachine
  import opened GkGrammar
  import opened GkCanon
  import opened GkPrinter
  import opened GkRoundTrip
  import opened GkText
  import opened GkArena
  import opened GkParser
  import opened GkLexer

  lemma {:induction false} NestedEnds(ts: seq<Token>, d: int)
    requires Nested(ts, d)
    ensures Stream(ts)
    decreases |ts|
  {
    if ts[0] != Eof {
      NestedEnds(ts[1..], if ts[0] == Indent then d + 1 else if ts[0] == Dedent then d - 1 else d);
    }
  }

  /** The source text is a program that fits the tables. */
  ghost predicate Compiles(src: string) {
    var lexed := Source(src);
    lexed.Tokens? && |lexed.ts| <= MAX_TOKENS && Stream(lexed.ts) && Program(lexed.ts).Got? &&
        Size(Program(lexed.ts).t) <= MAX_NODES
  }

  ghost function TreeOf(src: string): Tree
    requires Compiles(src)
  {
    Program(Source(src).ts).t
  }

  /** The source text of a program compiles exactly when tokens and nodes fit their tables, and then to that program. */
  lemma WrittenCompiles(t: Tree)
    requires WritableProgram(t)
    ensures Compiles(Written(t)) <==> |ShowStmts(t.kids)| < MAX_TOKENS && Size(t) <= MAX_NODES
    ensures Compiles(Written(t)) ==> TreeOf(Written(t)) == t
  {
    SourceRoundTrip(t);
  }

  ghost function Start(lines: seq<string>): (e: Env)
    ensures EnvOk(e)
  {
    Env([map[]], [], lines, [])
  }

  /** A source text whose break and continue statements are all inside loops of the same function body. */
  ghost predicate JumpsFit(src: string)
    requires Compiles(src)
  {
    JumpsInLoops(TreeOf(src), false)
  }

  lemma TreeRuns(src: string)
    requires Compiles(src) && JumpsFit(src)
    ensures IsBlock(TreeOf(src), false) && IsStmt(TreeOf(src), false) && IsStmt(TreeOf(src), true)
  {
    ProgramCanon(Source(src).ts);
    BlockRuns(TreeOf(src), false);
    BlockIsStmt(TreeOf(src), false);
    LoopAllows(TreeOf(src));
  }

  /** What a program does when it is run. */
  ghost function Meaning(src: string, lines: seq<string>, fuel: nat): Result
    requires Compiles(src) && JumpsFit(src)
  {
    TreeRuns(src);
    Sem(TreeOf(src), Start(lines), fuel)
  }

  /** The arena of a parsed program holds its tree. */
  lemma ArenaHolds(t: Tree)
    ensures GkArena.Holds(Layout(t, 0), 0, Layout(t, 0))
    ensures Rep(Layout(t, 0), RootAt(t, 0), t)
  {
    LaidIsRep(Layout(t, 0), t, 0);
  }

  /**
    gk_run on a fresh state: it fails on a text that is not a program or does not
    fit, and otherwise puts out what the program means, failing exactly when the
    program ends in an error.
   */
  method Run(src: string, lines: seq<string>, fuel: nat) returns (ok: bool, out: seq<string>)
    requires Compiles(src) ==> JumpsFit(src)
    ensures !Compiles(src) ==> !ok && out == []
    ensures Compiles(src) ==>
              var r := Meaning(src, lines, fuel);
              ok == !r.o.Fail? && out == r.env.out
  {
    var lexer := new Lexer();
    ok := lexer.Lex(src);
    if !ok {
      return false, [];
    }
    SourceNested(src);
    NestedEnds(lexer.tokens, 0);
    var parser := new Parser(lexer.tokens);
    var root := parser.Parse();
    if root < 0 {
      return false, [];
    }
    ghost var t := TreeOf(src);
    ArenaHolds(t);
    TreeRuns(src);
    var machine := new Machine(parser.nodes, lines);
    StmtIsLocal(t, false, Start(lines), fuel);
    var v := machine.Eval(root, fuel, t, Start(lines));
    ok := machine.error == NoError;
    out := machine.out;
  }
}
