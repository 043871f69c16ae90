// The indentation lexer.

module GkLexer {
  import opened Basics
  import opened GkSyntax

  const MAX_TOKENS: nat := 2048
  const MAX_STR: nat := 256

  // ---------------------------------------------------------------------
  // Characters and words

  predicate IsAlpha(c: char) {
    ('a' <= c <= 'z') || ('A' <= c <= 'Z') || c == '_'
  }

  /** The end of the line that i is on. */
  function LineEnd(src: string, i: nat): (j: nat)
    requires i <= |src|
    ensures i <= j <= |src| && (j < |src| ==> src[j] == '\n')
    decreases |src| - i
  {
    if i == |src| || src[i] == '\n' then i else LineEnd(src, i + 1)
  }

  /** Past the character at i, if there is one. */
  function Past(src: string, i: nat): (j: nat)
    requires i <= |src|
    ensures i <= j <= |src|
  {
    if i < |src| then i + 1 else i
  }

  function AfterAll(src: string, i: nat, c: char): (j: nat)
    requires i <= |src|
    ensures i <= j <= |src| && (j < |src| ==> src[j] != c)
    decreases |src| - i
  {
    if i < |src| && src[i] == c then AfterAll(src, i + 1, c) else i
  }

  function AfterDigits(src: string, i: nat): (j: nat)
    requires i <= |src|
    ensures i <= j <= |src|
    decreases |src| - i
  {
    if i < |src| && IsDigit(src[i]) then AfterDigits(src, i + 1) else i
  }

  function Number(src: string, i: nat, j: nat, acc: int): int
    requires i <= j <= |src|
    decreases j - i
  {
    if i == j then acc else Number(src, i + 1, j, acc * 10 + (src[i] as int - '0' as int))
  }

  /** End of a word that started n characters ago: a digit is taken only among the first 63 characters. */
  function AfterWord(src: string, i: nat, n: nat): (j: nat)
    requires i <= |src|
    ensures i <= j <= |src|
    decreases |src| - i
  {
    if i < |src| && (IsAlpha(src[i]) || (IsDigit(src[i]) && n < 63)) then AfterWord(src, i + 1, n + 1) else i
  }

  function Escaped(c: char): char {
    if c == 'n' then '\n' else if c == 't' then '\t' else c
  }

  /** The text of a string literal, after acc, and where the literal stops. */
  function Quoted(src: string, i: nat, quote: char, acc: string): (r: (string, nat))
    requires i <= |src|
    ensures i <= r.1 <= |src|
    decreases |src| - i
  {
    if i == |src| || src[i] == quote then (acc, i)
    else
      var esc := src[i] == '\\' && i + 1 < |src|;
      var c := if esc then Escaped(src[i + 1]) else src[i];
      var k := if esc then i + 2 else i + 1;
      if |acc| + 1 >= MAX_STR - 1 then (acc + [c], k) else Quoted(src, k, quote, acc + [c])
  }

  const KEYWORDS: seq<(string, Token)> :=
    [("if", IfTok), ("elif", ElifTok), ("else", ElseTok), ("while", WhileTok), ("for", ForTok), ("in", InTok),
     ("def", DefTok), ("return", ReturnTok), ("break", BreakTok), ("continue", ContinueTok),
     ("and", OpTok(And)), ("or", OpTok(Or)), ("not", OpTok(Not)), ("True", TrueTok), ("False", FalseTok)]

  /** The token of a word: a keyword of the table from its k-th entry on, or an identifier. */
  function WordFrom(w: string, k: nat): (t: Token)
    requires k <= |KEYWORDS|
    decreases |KEYWORDS| - k
  {
    if k == |KEYWORDS| then IdentTok(w) else if KEYWORDS[k].0 == w then KEYWORDS[k].1 else WordFrom(w, k + 1)
  }

  function WordToken(w: string): Token {
    WordFrom(w, 0)
  }

  datatype Symbol = Symbol(tok: Token, len: nat) | NoSymbol

  /** Operators and punctuation; next is the character after c, or 0. */
  function SymbolAt(c: char, next: char): Symbol {
    if c == '=' && next == '=' then Symbol(OpTok(Eq), 2)
    else if c == '!' && next == '=' then Symbol(OpTok(Neq), 2)
    else if c == '<' && next == '=' then Symbol(OpTok(Le), 2)
    else if c == '>' && next == '=' then Symbol(OpTok(Ge), 2)
    else if c == '+' then Symbol(OpTok(Plus), 1)
    else if c == '-' then Symbol(OpTok(Minus), 1)
    else if c == '*' then Symbol(OpTok(Star), 1)
    else if c == '/' then Symbol(OpTok(Slash), 1)
    else if c == '%' then Symbol(OpTok(Percent), 1)
    else if c == '<' then Symbol(OpTok(Lt), 1)
    else if c == '>' then Symbol(OpTok(Gt), 1)
    else if c == '=' then Symbol(AssignTok, 1)
    else if c == '(' then Symbol(LParen, 1)
    else if c == ')' then Symbol(RParen, 1)
    else if c == ',' then Symbol(Comma, 1)
    else if c == ':' then Symbol(Colon, 1)
    else NoSymbol
  }

  /** What stands at a place in a line: nothing to keep, a token, or something unknown; and where to go on. */
  datatype Piece = Blank(next: nat) | Lexeme(tok: Token, next: nat) | Unknown

  function PieceAt(src: string, i: nat): (p: Piece)
    requires i < |src| && src[i] != '\n'
    ensures !p.Unknown? ==> i < p.next <= |src|
  {
    var c := src[i];
    if c == ' ' || c == '\t' then Blank(i + 1)
    else if c == '#' then Blank(LineEnd(src, i + 1))
    else if IsDigit(c) then
      var j := AfterDigits(src, i + 1);
      Lexeme(IntTok(Number(src, i, j, 0)), j)
    else if c == '"' || c == '\'' then
      var q := Quoted(src, i + 1, c, "");
      Lexeme(StrTok(q.0), Past(src, q.1))
    else if IsAlpha(c) then
      var j := AfterWord(src, i, 0);
      Lexeme(WordToken(src[i..j]), j)
    else
      var s := SymbolAt(c, if i + 1 < |src| then src[i + 1] else '\0');
      if s.NoSymbol? then Unknown
      else
        Lexeme(s.tok, i + s.len)
  }

  // ---------------------------------------------------------------------
  // Lines

  datatype Lexed = Tokens(ts: seq<Token>) | LexError

  function Then(ts: seq<Token>, r: Lexed): Lexed {
    if r.Tokens? then Tokens(ts + r.ts) else LexError
  }

  /** Spaces count one, tabs after them four. */
  function IndentAt(src: string, i: nat): nat
    requires i <= |src|
  {
    var j := AfterAll(src, i, ' ');
    j - i + 4 * (AfterAll(src, j, '\t') - j)
  }

  function AfterIndent(src: string, i: nat): (j: nat)
    requires i <= |src|
    ensures i <= j <= |src|
  {
    AfterAll(src, AfterAll(src, i, ' '), '\t')
  }

  function Dedents(n: nat): seq<Token> {
    if n == 0 then [] else [Dedent] + Dedents(n - 1)
  }

  /** The stack after closing every block deeper than indent. */
  function Popped(stack: seq<nat>, indent: nat): (r: seq<nat>)
    ensures r <= stack && (stack != [] && stack[0] == 0 ==> r != [])
    decreases |stack|
  {
    if stack != [] && indent < stack[|stack| - 1] then Popped(stack[..|stack| - 1], indent) else stack
  }

  function NewStack(stack: seq<nat>, indent: nat): seq<nat>
    requires stack != []
  {
    if indent > stack[|stack| - 1] then stack + [indent] else Popped(stack, indent)
  }

  function IndentTokens(stack: seq<nat>, indent: nat): seq<Token>
    requires stack != []
  {
    if indent > stack[|stack| - 1] then [Indent] else Dedents(|stack| - |Popped(stack, indent)|)
  }

  /** Open blocks, from column 0 on, strictly deeper and deeper. */
  predicate StackOk(stack: seq<nat>) {
    stack != [] && stack[0] == 0 && forall i, j :: 0 <= i < j < |stack| ==> stack[i] < stack[j]
  }

  lemma NewStackOk(stack: seq<nat>, indent: nat)
    requires StackOk(stack)
    ensures StackOk(NewStack(stack, indent))
  {
  }

  /** The rest of a line from i on, then the lines after it. */
  function RestOfLine(src: string, i: nat, stack: seq<nat>): Lexed
    requires i <= |src| && StackOk(stack)
    decreases |src| - i, 0
  {
    if i == |src| || src[i] == '\n' then
      if i < |src| then Then([Newline], Lines(src, i + 1, stack)) else Then([Newline], Finish(stack))
    else
      var p := PieceAt(src, i);
      if p.Unknown? then LexError
      else if p.Blank? then RestOfLine(src, p.next, stack)
      else Then([p.tok], RestOfLine(src, p.next, stack))
  }

  /** All tokens from the line that starts at i on. */
  function Lines(src: string, i: nat, stack: seq<nat>): Lexed
    requires i <= |src| && StackOk(stack)
    decreases |src| - i, 1
  {
    if i == |src| then Finish(stack)
    else
      var j := AfterIndent(src, i);
      if j == |src| || src[j] == '\n' || src[j] == '#' then Lines(src, Past(src, LineEnd(src, j)), stack)
      else
        var indent := IndentAt(src, i);
        NewStackOk(stack, indent);
        Then(IndentTokens(stack, indent), RestOfLine(src, j, NewStack(stack, indent)))
  }

  /** The open blocks closed, and the end of the file. */
  function Finish(stack: seq<nat>): Lexed
    requires stack != []
  {
    Tokens(Dedents(|stack| - 1) + [Eof])
  }

  /** The tokens of a source text. */
  function Source(src: string): Lexed {
    Lines(src, 0, [0])
  }

  // ---------------------------------------------------------------------
  // Nesting

  /**
    Blocks open and close properly from depth d on, to depth 0 at the end of the
    file, which is the last token and occurs once.
   */
  predicate Nested(ts: seq<Token>, d: int) {
    d >= 0 && ts != [] &&
    if ts[0] == Eof then d == 0 && |ts| == 1
    else Nested(ts[1..], if ts[0] == Indent then d + 1 else if ts[0] == Dedent then d - 1 else d)
  }

  lemma NestedStep(tok: Token, ts: seq<Token>, d: int)
    requires d >= 0 && tok != Eof && Nested(ts, if tok == Indent then d + 1 else if tok == Dedent then d - 1 else d)
    ensures Nested([tok] + ts, d)
  {
    assert ([tok] + ts)[1..] == ts;
  }

  lemma {:induction false} NestedDedents(n: nat, ts: seq<Token>, d: nat)
    requires n <= d && Nested(ts, d - n)
    ensures Nested(Dedents(n) + ts, d)
    decreases n
  {
    if n == 0 {
      assert Dedents(0) + ts == ts;
    } else {
      NestedDedents(n - 1, ts, d - 1);
      NestedStep(Dedent, Dedents(n - 1) + ts, d);
      assert Dedents(n) + ts == [Dedent] + (Dedents(n - 1) + ts);
    }
  }

  lemma {:induction false} FinishNested(stack: seq<nat>)
    requires stack != []
    ensures Nested(Finish(stack).ts, |stack| - 1)
  {
    assert Nested([Eof], 0);
    NestedDedents(|stack| - 1, [Eof], |stack| - 1);
  }

  predicate IsPlain(tok: Token) {
    tok != Eof && tok != Indent && tok != Dedent
  }

  lemma {:induction false} WordIsPlain(w: string, k: nat)
    requires k <= |KEYWORDS|
    ensures IsPlain(WordFrom(w, k))
    decreases |KEYWORDS| - k
  {
    if k < |KEYWORDS| {
      WordIsPlain(w, k + 1);
    }
  }

  /** A piece of a line is never a block mark or the end of the file. */
  lemma PieceIsPlain(src: string, i: nat)
    requires i < |src| && src[i] != '\n' && PieceAt(src, i).Lexeme?
    ensures IsPlain(PieceAt(src, i).tok)
  {
    if IsAlpha(src[i]) {
      WordIsPlain(src[i..AfterWord(src, i, 0)], 0);
    }
  }

  /** The block marks at the start of a line lead to the depth of the line. */
  lemma IndentNested(stack: seq<nat>, indent: nat, ts: seq<Token>)
    requires StackOk(stack) && Nested(ts, |NewStack(stack, indent)| - 1)
    ensures Nested(IndentTokens(stack, indent) + ts, |stack| - 1)
  {
    NewStackOk(stack, indent);
    if indent > stack[|stack| - 1] {
      NestedStep(Indent, ts, |stack| - 1);
    } else {
      NestedDedents(|stack| - |Popped(stack, indent)|, ts, |stack| - 1);
    }
  }

  lemma {:induction false} PieceNested(src: string, i: nat, stack: seq<nat>)
    requires i < |src| && StackOk(stack) && src[i] != '\n' && PieceAt(src, i).Lexeme?
    requires var r := RestOfLine(src, PieceAt(src, i).next, stack); r.Tokens? && Nested(r.ts, |stack| - 1)
    ensures Nested(RestOfLine(src, i, stack).ts, |stack| - 1)
  {
    PieceIsPlain(src, i);
    NestedStep(PieceAt(src, i).tok, RestOfLine(src, PieceAt(src, i).next, stack).ts, |stack| - 1);
  }

  lemma {:induction false} RestNested(src: string, i: nat, stack: seq<nat>)
    requires i <= |src| && StackOk(stack) && RestOfLine(src, i, stack).Tokens?
    ensures Nested(RestOfLine(src, i, stack).ts, |stack| - 1)
    decreases |src| - i, 0
  {
    if i == |src| {
      FinishNested(stack);
      NestedStep(Newline, Finish(stack).ts, |stack| - 1);
    } else if src[i] == '\n' {
      LinesNested(src, i + 1, stack);
      NestedStep(Newline, Lines(src, i + 1, stack).ts, |stack| - 1);
    } else {
      var p := PieceAt(src, i);
      RestNested(src, p.next, stack);
      if p.Lexeme? {
        PieceNested(src, i, stack);
      }
    }
  }

  lemma {:induction false} LinesNested(src: string, i: nat, stack: seq<nat>)
    requires i <= |src| && StackOk(stack) && Lines(src, i, stack).Tokens?
    ensures Nested(Lines(src, i, stack).ts, |stack| - 1)
    decreases |src| - i, 1
  {
    if i == |src| {
      FinishNested(stack);
    } else {
      var j := AfterIndent(src, i);
      if j == |src| || src[j] == '\n' || src[j] == '#' {
        LinesNested(src, Past(src, LineEnd(src, j)), stack);
      } else {
        var indent := IndentAt(src, i);
        NewStackOk(stack, indent);
        RestNested(src, j, NewStack(stack, indent));
        IndentNested(stack, indent, RestOfLine(src, j, NewStack(stack, indent)).ts);
      }
    }
  }

  /** The tokens of a source text open and close blocks properly and end with the only end-of-file token. */
  lemma SourceNested(src: string)
    requires Source(src).Tokens?
    ensures Nested(Source(src).ts, 0)
  {
    LinesNested(src, 0, [0]);
  }

  // ---------------------------------------------------------------------
  // The lexer itself

  function Least(x: nat, y: nat): nat {
    if x < y then x else y
  }

  lemma ThenThen(x: seq<Token>, y: seq<Token>, r: Lexed)
    ensures Then(x, Then(y, r)) == Then(x + y, r)
  {
    if r.Tokens? {
      assert x + (y + r.ts) == x + y + r.ts;
    }
  }

  /** More tokens than the table holds, or none at all. */
  ghost predicate TooLong(r: Lexed) {
    r.LexError? || |r.ts| > MAX_TOKENS
  }

  lemma ThenTooLong(x: seq<Token>, r: Lexed)
    requires |x| > MAX_TOKENS
    ensures TooLong(Then(x, r))
  {
  }

  method SkipAll(src: string, i: nat, c: char) returns (j: nat)
    requires i <= |src|
    ensures j == AfterAll(src, i, c)
  {
    j := i;
    while j < |src| && src[j] == c
      invariant i <= j <= |src| && AfterAll(src, j, c) == AfterAll(src, i, c)
    {
      j := j + 1;
    }
  }

  method SkipLine(src: string, i: nat) returns (j: nat)
    requires i <= |src|
    ensures j == LineEnd(src, i)
  {
    j := i;
    while j < |src| && src[j] != '\n'
      invariant i <= j <= |src| && LineEnd(src, j) == LineEnd(src, i)
    {
      j := j + 1;
    }
  }

  method ScanNumber(src: string, i: nat) returns (val: int, j: nat)
    requires i < |src| && IsDigit(src[i])
    ensures j == AfterDigits(src, i + 1) && val == Number(src, i, j, 0)
  {
    val, j := 0, i;
    ghost var end := AfterDigits(src, i);
    while j < |src| && IsDigit(src[j])
      invariant i <= j <= end && AfterDigits(src, j) == end && Number(src, i, end, 0) == Number(src, j, end, val)
    {
      val := val * 10 + (src[j] as int - '0' as int);
      j := j + 1;
    }
  }

  method ScanString(src: string, i: nat, quote: char) returns (buf: string, j: nat)
    requires i <= |src|
    ensures (buf, j) == Quoted(src, i, quote, "")
  {
    buf, j := "", i;
    while j < |src| && src[j] != quote
      invariant i <= j <= |src| && Quoted(src, j, quote, buf) == Quoted(src, i, quote, "")
      decreases |src| - j
    {
      if src[j] == '\\' && j + 1 < |src| {
        j := j + 1;
        buf := buf + [Escaped(src[j])];
      } else {
        buf := buf + [src[j]];
      }
      j := j + 1;
      if |buf| >= MAX_STR - 1 {
        return;
      }
    }
  }

  method ScanWord(src: string, i: nat) returns (buf: string, j: nat)
    requires i <= |src|
    ensures j == AfterWord(src, i, 0) && buf == src[i..j]
  {
    buf, j := "", i;
    while j < |src| && (IsAlpha(src[j]) || (IsDigit(src[j]) && |buf| < 63))
      invariant i <= j <= |src| && buf == src[i..j] && AfterWord(src, j, |buf|) == AfterWord(src, i, 0)
    {
      buf := buf + [src[j]];
      j := j + 1;
    }
  }

  method LookUp(w: string) returns (t: Token)
    ensures t == WordToken(w)
  {
    var k: nat := 0;
    while k < |KEYWORDS|
      invariant k <= |KEYWORDS| && WordFrom(w, k) == WordToken(w)
    {
      if KEYWORDS[k].0 == w {
        return KEYWORDS[k].1;
      }
      k := k + 1;
    }
    t := IdentTok(w);
  }

  class Lexer {
    var tokens: seq<Token>
    var stack: seq<nat>
    /** Every token so far, whether or not the table had room for it. */
    ghost var all: seq<Token>

    ghost predicate Valid()
      reads this
    {
      tokens == all[..Least(|all|, MAX_TOKENS)] && StackOk(stack)
    }

    constructor ()
      ensures Valid() && all == [] && stack == [0]
    {
      tokens, all, stack := [], [], [0];
    }

    /** emit. */
    method Emit(t: Token) returns (ok: bool)
      requires Valid()
      modifies this`tokens, this`all
      ensures Valid() && all == old(all) + [t]
      ensures ok <==> |all| <= MAX_TOKENS
    {
      ok := |tokens| < MAX_TOKENS;
      if ok {
        tokens := tokens + [t];
      }
      all := all + [t];
    }

    /** One piece of a line.  Only operators go on when the table is full. */
    method LexPiece(src: string, i: nat) returns (ok: bool, j: nat)
      requires Valid() && i < |src| && src[i] != '\n'
      modifies this`tokens, this`all
      ensures Valid()
      ensures var p := PieceAt(src, i);
              match p
              case Unknown => !ok
              case Blank(next) => ok && j == next && all == old(all)
              case Lexeme(tok, next) => all == old(all) + [tok] && (if ok then j == next else |all| > MAX_TOKENS)
    {
      var c := src[i];
      ok, j := true, i + 1;
      if c == ' ' || c == '\t' {
        return;
      }
      if c == '#' {
        j := SkipLine(src, i + 1);
      } else if IsDigit(c) {
        var val;
        val, j := ScanNumber(src, i);
        ok := Emit(IntTok(val));
      } else if c == '"' || c == '\'' {
        var buf;
        buf, j := ScanString(src, i + 1, c);
        if j < |src| {
          j := j + 1;
        }
        ok := Emit(StrTok(buf));
      } else if IsAlpha(c) {
        var buf;
        buf, j := ScanWord(src, i);
        var t := LookUp(buf);
        ok := Emit(t);
      } else {
        var s := SymbolAt(c, if i + 1 < |src| then src[i + 1] else '\0');
        if s.NoSymbol? {
          return false, i;
        }
        var room := Emit(s.tok);
        j := i + s.len;
      }
    }

    /** The inner loop of gk_lex: one line from its first character that is not blank. */
    method LexLine(src: string, i: nat, ghost goal: Lexed) returns (ok: bool, j: nat)
      requires Valid() && i <= |src| && goal == Then(all, RestOfLine(src, i, stack))
      modifies this`tokens, this`all
      ensures Valid()
      ensures if ok then i <= j <= |src| && (j < |src| ==> src[j] == '\n') &&
              goal == Then(all, RestOfLine(src, j, stack)) else TooLong(goal)
    {
      ok, j := true, i;
      while j < |src| && src[j] != '\n'
        invariant Valid() && i <= j <= |src| && goal == Then(all, RestOfLine(src, j, stack))
        decreases |src| - j
      {
        var next;
        ghost var p, was := PieceAt(src, j), all;
        if p.Lexeme? {
          ThenThen(was, [p.tok], RestOfLine(src, p.next, stack));
        }
        ok, next := LexPiece(src, j);
        if !ok {
          if p.Lexeme? {
            ThenTooLong(all, RestOfLine(src, p.next, stack));
          }
          return;
        }
        j := next;
      }
    }

    /** Opens a block, or closes the blocks that are deeper than the line. */
    method Indentation(indent: nat) returns (ok: bool)
      requires Valid()
      modifies this
      ensures Valid()
      ensures ok ==> stack == NewStack(old(stack), indent) && all == old(all) + IndentTokens(old(stack), indent)
      ensures !ok ==> |old(all)| + |IndentTokens(old(stack), indent)| > MAX_TOKENS
    {
      NewStackOk(stack, indent);
      if indent > stack[|stack| - 1] {
        stack := stack + [indent];
        ok := Emit(Indent);
      } else {
        DedentsLength(|stack| - |Popped(stack, indent)|);
        ok := CloseTo(indent);
      }
    }

    /** The loop that closes blocks. */
    method CloseTo(indent: nat) returns (ok: bool)
      requires Valid() && indent <= stack[|stack| - 1]
      modifies this
      ensures Valid()
      ensures ok ==> stack == Popped(old(stack), indent) && all == old(all) + Dedents(|old(stack)| - |stack|)
      ensures !ok ==> |old(all)| + |old(stack)| - |Popped(old(stack), indent)| > MAX_TOKENS
    {
      ghost var start, n := all, |stack|;
      while indent < stack[|stack| - 1]
        invariant Valid() && |stack| <= n && Popped(stack, indent) == Popped(old(stack), indent)
        invariant all == start + Dedents(n - |stack|)
        decreases |stack|
      {
        stack := stack[..|stack| - 1];
        DedentsSnoc(n - |stack| - 1);
        DedentsLength(n - |stack|);
        ok := Emit(Dedent);
        if !ok {
          return;
        }
      }
      ok := true;
    }

    /** The loop that closes all open blocks. */
    method CloseAll() returns (ok: bool)
      requires Valid()
      modifies this
      ensures Valid()
      ensures ok ==> all == old(all) + Dedents(|old(stack)| - 1)
      ensures !ok ==> |old(all)| + |old(stack)| - 1 > MAX_TOKENS
    {
      ghost var start, n := all, |stack|;
      while |stack| > 1
        invariant Valid() && |stack| <= n && all == start + Dedents(n - |stack|)
        decreases |stack|
      {
        stack := stack[..|stack| - 1];
        DedentsSnoc(n - |stack| - 1);
        DedentsLength(n - |stack|);
        ok := Emit(Dedent);
        if !ok {
          return;
        }
      }
      ok := true;
    }

    /** The end of the file: all open blocks are closed. */
    method LexEnd(ghost goal: Lexed) returns (ok: bool)
      requires Valid() && goal == Then(all, Finish(stack))
      modifies this
      ensures if ok then goal == Tokens(tokens) && |tokens| <= MAX_TOKENS else TooLong(goal)
    {
      ghost var start, n := all, |stack|;
      DedentsLength(n - 1);
      assert start + (Dedents(n - 1) + [Eof]) == start + Dedents(n - 1) + [Eof];
      ok := CloseAll();
      if ok {
        ok := Emit(Eof);
      }
    }

    /** One line of gk_lex that is not blank, with the newline token at its end. */
    method LexFull(src: string, i: nat, j: nat, indent: nat, ghost goal: Lexed) returns (ok: bool, next: nat)
      requires Valid() && i < |src| && j == AfterIndent(src, i) && indent == IndentAt(src, i)
      requires j < |src| && src[j] != '\n' && src[j] != '#' && goal == Then(all, Lines(src, i, stack))
      modifies this
      ensures Valid()
      ensures if ok then i < next <= |src| && goal == Then(all, Lines(src, next, stack)) else TooLong(goal)
    {
      next := j;
      ghost var was, open := all, stack;
      NewStackOk(stack, indent);
      ThenThen(was, IndentTokens(open, indent), RestOfLine(src, j, NewStack(open, indent)));
      ok := Indentation(indent);
      if !ok {
        ThenTooLong(was + IndentTokens(open, indent), RestOfLine(src, j, NewStack(open, indent)));
        return;
      }
      ok, next := LexLine(src, j, goal);
      if !ok {
        return;
      }
      ghost var rest := if next < |src| then Lines(src, next + 1, stack) else Finish(stack);
      ThenThen(all, [Newline], rest);
      ok := Emit(Newline);
      if !ok {
        ThenTooLong(all, rest);
        return;
      }
      if next < |src| {
        next := next + 1;
      }
    }

    /**
      gk_lex: accepts exactly the sources whose tokens all fit, and then the table
      holds exactly those tokens, although operators are emitted without checking.
     */
    method Lex(src: string) returns (ok: bool)
      requires Valid() && all == [] && stack == [0]
      modifies this
      ensures ok <==> Source(src).Tokens? && |Source(src).ts| <= MAX_TOKENS
      ensures ok ==> tokens == Source(src).ts
    {
      var i: nat := 0;
      ghost var goal := Source(src);
      while i < |src|
        invariant Valid() && i <= |src| && goal == Then(all, Lines(src, i, stack))
        decreases |src| - i
      {
        var spaces := SkipAll(src, i, ' ');
        var j := SkipAll(src, spaces, '\t');
        var indent := spaces - i + 4 * (j - spaces);
        if j >= |src| || src[j] == '\n' || src[j] == '#' {
          i := SkipLine(src, j);
          if i < |src| {
            i := i + 1;
          }
        } else {
          ok, i := LexFull(src, i, j, indent, goal);
          if !ok {
            return;
          }
        }
      }
      ok := LexEnd(goal);
    }
  }

  lemma {:induction false} DedentsSnoc(n: nat)
    ensures Dedents(n + 1) == Dedents(n) + [Dedent]
  {
    if n > 0 {
      DedentsSnoc(n - 1);
    }
  }

  lemma {:induction false} DedentsLength(n: nat)
    ensures |Dedents(n)| == n
  {
    if n > 0 {
      DedentsLength(n - 1);
    }
  }
}
