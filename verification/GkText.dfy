// Programs written out as source text, and read back by the lexer.

module GkText {
  import opened Basics
  import opened GkSyntax
  import opened GkGrammar
  import opened GkPrinter
  import opened GkRoundTrip
  import opened GkLexer
  import GkValues
  import GkStrings

  // ---------------------------------------------------------------------
  // Tokens as text

  predicate IsWordChar(c: char) {
    IsAlpha(c) || IsDigit(c)
  }

  /** Words that the lexer reads as identifiers. */
  predicate IsIdent(s: string) {
    s != "" && |s| <= 63 && IsAlpha(s[0]) && (forall k :: 0 <= k < |s| ==> IsWordChar(s[k])) &&
        WordToken(s) == IdentTok(s)
  }

  /** Tokens inside a line that have a text. */
  predicate Printable(tok: Token) {
    match tok
    case IntTok(n) => n >= 0
    case StrTok(s) => |s| <= MAX_STR - 1
    case IdentTok(s) => IsIdent(s)
    case OpTok(op) => op != NoOp
    case Newline => false
    case Indent => false
    case Dedent => false
    case Eof => false
    case _ => true
  }

  function EscapeChar(c: char): string {
    if c == '\n' then "\\n" else if c == '\t' then "\\t" else if c == '\\' then "\\\\" else if c == '"' then "\\\""
        else [c]
  }

  function EscapeAll(s: string): string {
    if s == "" then "" else EscapeChar(s[0]) + EscapeAll(s[1..])
  }

  function OpText(op: Op): string {
    match op
    case Plus => "+"
    case Minus => "-"
    case Star => "*"
    case Slash => "/"
    case Percent => "%"
    case Eq => "=="
    case Neq => "!="
    case Lt => "<"
    case Le => "<="
    case Gt => ">"
    case Ge => ">="
    case And => "and"
    case Or => "or"
    case Not => "not"
    case NoOp => ""
  }

  function KeywordText(tok: Token): string {
    match tok
    case IfTok => "if"
    case ElifTok => "elif"
    case ElseTok => "else"
    case WhileTok => "while"
    case ForTok => "for"
    case InTok => "in"
    case DefTok => "def"
    case ReturnTok => "return"
    case BreakTok => "break"
    case ContinueTok => "continue"
    case TrueTok => "True"
    case FalseTok => "False"
    case _ => ""
  }

  function TokText(tok: Token): string
    requires Printable(tok)
  {
    match tok
    case IntTok(n) => GkValues.Decimal(n)
    case StrTok(s) => "\"" + EscapeAll(s) + "\""
    case IdentTok(s) => s
    case OpTok(op) => OpText(op)
    case AssignTok => "="
    case LParen => "("
    case RParen => ")"
    case Comma => ","
    case Colon => ":"
    case _ => KeywordText(tok)
  }

  // ---------------------------------------------------------------------
  // One token read back

  /** What stands at i, and what comes after its first character. */
  lemma Suffix(src: string, i: nat, x: string)
    requires i <= |src| && src[i..] == x && x != ""
    ensures i < |src| && src[i] == x[0] && src[i + 1..] == x[1..]
  {
    assert src[i] == src[i..][0];
    assert src[i + 1..] == src[i..][1..];
  }

  lemma SuffixAfter(src: string, i: nat, x: string, y: string)
    requires i <= |src| && src[i..] == x + y
    ensures i + |x| <= |src| && src[i..i + |x|] == x && src[i + |x|..] == y
  {
    assert src[i..i + |x|] == src[i..][..|x|];
    assert src[i + |x|..] == src[i..][|x|..];
  }

  lemma {:induction false} WordRuns(src: string, i: nat, n: nat, w: string, more: string)
    requires i <= |src| && src[i..] == w + more && n + |w| <= 63
    requires forall k :: 0 <= k < |w| ==> IsWordChar(w[k])
    requires more != "" && !IsWordChar(more[0])
    ensures AfterWord(src, i, n) == i + |w|
    decreases |w|
  {
    Suffix(src, i, w + more);
    if w == "" {
      assert w + more == more;
    } else {
      assert (w + more)[1..] == w[1..] + more;
      WordRuns(src, i + 1, n + 1, w[1..], more);
    }
  }

  lemma {:induction false} DigitsRun(src: string, i: nat, w: string, more: string)
    requires i <= |src| && src[i..] == w + more && more != "" && !IsDigit(more[0])
    requires forall k :: 0 <= k < |w| ==> IsDigit(w[k])
    ensures AfterDigits(src, i) == i + |w|
    decreases |w|
  {
    Suffix(src, i, w + more);
    if w == "" {
      assert w + more == more;
    } else {
      assert (w + more)[1..] == w[1..] + more;
      DigitsRun(src, i + 1, w[1..], more);
    }
  }

  lemma {:induction false} NumberIs(src: string, i: nat, w: string, more: string, acc: int)
    requires i <= |src| && src[i..] == w + more && i + |w| <= |src|
    ensures Number(src, i, i + |w|, acc) == GkValues.DigitsValue(w, acc)
    decreases |w|
  {
    if w != "" {
      Suffix(src, i, w + more);
      assert (w + more)[1..] == w[1..] + more;
      NumberIs(src, i + 1, w[1..], more, acc * 10 + (w[0] as int - '0' as int));
    }
  }

  lemma DecimalWorth(n: nat)
    ensures var w := GkValues.Decimal(n);
            w != "" && (forall k :: 0 <= k < |w| ==> IsDigit(w[k])) && GkValues.DigitsValue(w, 0) == n
  {
    GkStrings.DigitsAreDigits(n);
    GkStrings.DigitsValueIs(n);
    if n == 0 {
      assert GkValues.DigitsValue("0", 0) == GkValues.DigitsValue("", 0);
    }
  }

  lemma IntPiece(src: string, i: nat, n: nat, more: string)
    requires i <= |src| && src[i..] == GkValues.Decimal(n) + more && more != "" && !IsDigit(more[0])
    ensures i < |src| && IsDigit(src[i]) && PieceAt(src, i) == Lexeme(IntTok(n), i + |GkValues.Decimal(n)|)
  {
    var w := GkValues.Decimal(n);
    DecimalWorth(n);
    Suffix(src, i, w + more);
    SuffixAfter(src, i, w, more);
    assert (w + more)[1..] == w[1..] + more;
    DigitsRun(src, i + 1, w[1..], more);
    NumberIs(src, i, w, more, 0);
  }

  /** One escaped character read back. */
  lemma EscapeStep(src: string, i: nat, c: char, more: string)
    requires i <= |src| && src[i..] == EscapeChar(c) + more && more != ""
    ensures i < |src| && src[i] != '"'
    ensures var esc := src[i] == '\\' && i + 1 < |src|;
            c == (if esc then Escaped(src[i + 1]) else src[i]) && i + |EscapeChar(c)| == if esc then i + 2 else i + 1
  {
    Suffix(src, i, EscapeChar(c) + more);
    if |EscapeChar(c)| == 2 {
      assert (EscapeChar(c) + more)[1..] == [EscapeChar(c)[1]] + more;
      Suffix(src, i + 1, [EscapeChar(c)[1]] + more);
    }
  }

  /** One turn of the loop over a string literal. */
  lemma QuotedStep(src: string, i: nat, c: char, acc: string, more: string)
    requires i <= |src| && src[i..] == EscapeChar(c) + more && more != ""
    ensures i + |EscapeChar(c)| <= |src| && src[i + |EscapeChar(c)|..] == more
    ensures Quoted(src, i, '"', acc) ==
            if |acc| + 1 >= MAX_STR - 1 then (acc + [c], i + |EscapeChar(c)|)
            else Quoted(src, i + |EscapeChar(c)|, '"', acc + [c])
  {
    EscapeStep(src, i, c, more);
    SuffixAfter(src, i, EscapeChar(c), more);
  }

  lemma Nothing(x: string)
    ensures "" + x == x
  {
  }

  lemma QuotedEnd(src: string, i: nat, acc: string, more: string)
    requires i <= |src| && src[i..] == "\"" + more
    ensures Quoted(src, i, '"', acc) == (acc, i)
  {
    Suffix(src, i, "\"" + more);
  }

  lemma EscapeSplit(s: string, end: string)
    requires s != ""
    ensures EscapeAll(s) + end == EscapeChar(s[0]) + (EscapeAll(s[1..]) + end)
  {
  }

  lemma HeadMoves(acc: string, s: string)
    requires s != ""
    ensures (acc + [s[0]]) + s[1..] == acc + s && |EscapeAll(s)| == |EscapeChar(s[0])| + |EscapeAll(s[1..])|
  {
  }

  lemma OneEscaped(s: string, acc: string)
    requires |s| == 1
    ensures acc + [s[0]] == acc + s && |EscapeAll(s)| == |EscapeChar(s[0])|
  {
    assert EscapeAll(s[1..]) == "";
  }

  /** The first turn of the loop. */
  lemma QuotedTurn(src: string, i: nat, s: string, acc: string, more: string)
    requires s != "" && i <= |src| && src[i..] == EscapeAll(s) + ("\"" + more)
    ensures var j := i + |EscapeChar(s[0])|;
            j <= |src| && Quoted(src, i, '"', acc) == if |acc| + 1 >= MAX_STR - 1 then (acc + [s[0]], j)
                else Quoted(src, j, '"', acc + [s[0]])
  {
    EscapeSplit(s, "\"" + more);
    QuotedStep(src, i, s[0], acc, EscapeAll(s[1..]) + ("\"" + more));
  }

  /** The turns after the first one. */
  lemma {:induction false} QuotedRest(src: string, i: nat, s: string, acc: string, more: string)
    requires s != "" && i <= |src| && src[i..] == EscapeAll(s) + ("\"" + more) && |acc| + |s| <= MAX_STR - 1
    ensures var j := i + |EscapeChar(s[0])|;
            j <= |src| && Quoted(src, j, '"', acc + [s[0]]) == ((acc + [s[0]]) + s[1..], j + |EscapeAll(s[1..])|)
    decreases |s|, 0
  {
    EscapeSplit(s, "\"" + more);
    SuffixAfter(src, i, EscapeChar(s[0]), EscapeAll(s[1..]) + ("\"" + more));
    QuotedIs(src, i + |EscapeChar(s[0])|, s[1..], acc + [s[0]], more);
  }

  lemma {:induction false} QuotedIs(src: string, i: nat, s: string, acc: string, more: string)
    requires i <= |src| && src[i..] == EscapeAll(s) + ("\"" + more) && |acc| + |s| <= MAX_STR - 1
    ensures Quoted(src, i, '"', acc) == (acc + s, i + |EscapeAll(s)|)
    decreases |s|, 1
  {
    if s == "" {
      Nothing("\"" + more);
      QuotedEnd(src, i, acc, more);
      assert acc + s == acc;
    } else {
      QuotedTurn(src, i, s, acc, more);
      if |acc| + 1 >= MAX_STR - 1 {
        OneEscaped(s, acc);
      } else {
        QuotedRest(src, i, s, acc, more);
        HeadMoves(acc, s);
      }
    }
  }

  lemma StrPiece(src: string, i: nat, s: string, more: string)
    requires i <= |src| && src[i..] == ("\"" + EscapeAll(s) + "\"") + more && |s| <= MAX_STR - 1
    ensures i < |src| && src[i] == '"' && PieceAt(src, i) == Lexeme(StrTok(s), i + |"\"" + EscapeAll(s) + "\""|)
  {
    var x := "\"" + EscapeAll(s) + "\"" + more;
    Suffix(src, i, x);
    assert x[1..] == EscapeAll(s) + ("\"" + more);
    QuotedIs(src, i + 1, s, "", more);
    SuffixAfter(src, i + 1, EscapeAll(s), "\"" + more);
    Suffix(src, i + 1 + |EscapeAll(s)|, "\"" + more);
    assert "" + s == s;
  }

  lemma WordPiece(src: string, i: nat, w: string, tok: Token, more: string)
    requires i <= |src| && src[i..] == w + more && more != "" && !IsWordChar(more[0])
    requires w != "" && |w| <= 63 && IsAlpha(w[0]) && (forall k :: 0 <= k < |w| ==> IsWordChar(w[k])) &&
             WordToken(w) == tok
    ensures i < |src| && IsAlpha(src[i]) && PieceAt(src, i) == Lexeme(tok, i + |w|)
  {
    Suffix(src, i, w + more);
    SuffixAfter(src, i, w, more);
    WordRuns(src, i, 0, w, more);
  }

  lemma SymbolPiece(src: string, i: nat, tok: Token, w: string, more: string)
    requires i <= |src| && src[i..] == w + (" " + more) && 1 <= |w| <= 2
    requires SymbolAt(w[0], if |w| == 2 then w[1] else ' ') == Symbol(tok, |w|)
    requires !IsWordChar(w[0]) && w[0] != ' ' && w[0] != '\t' && w[0] != '#' && w[0] != '"' && w[0] != '\'' &&
             w[0] != '\n'
    ensures i < |src| && src[i] == w[0] && PieceAt(src, i) == Lexeme(tok, i + |w|)
  {
    Suffix(src, i, w + (" " + more));
    var x := (w + (" " + more))[1..];
    assert x[0] == if |w| == 2 then w[1] else ' ';
    Suffix(src, i + 1, x);
  }

  /** The length and the first characters of keyword k tell it from every other keyword. */
  lemma KeywordsDiffer(j: nat, k: nat)
    requires j < k < |KEYWORDS|
    ensures KEYWORDS[j].0 != KEYWORDS[k].0
  {
    var a, b := KEYWORDS[j].0, KEYWORDS[k].0;
    if |a| == |b| {
      assert a[0] != b[0] || a[1] != b[1] || a[2] != b[2];
    }
  }

  lemma {:induction false} KeywordFound(k: nat, j: nat)
    requires j <= k < |KEYWORDS|
    ensures WordFrom(KEYWORDS[k].0, j) == KEYWORDS[k].1
    decreases k - j
  {
    if j < k {
      KeywordsDiffer(j, k);
      KeywordFound(k, j + 1);
    }
  }

  /** Where the words of keyword tokens stand in the lexer's table. */
  function KeywordIndex(tok: Token): (k: nat)
    requires tok.OpTok? ==> tok.op == And || tok.op == Or || tok.op == Not
    ensures k < |KEYWORDS|
  {
    match tok
    case IfTok => 0
    case ElifTok => 1
    case ElseTok => 2
    case WhileTok => 3
    case ForTok => 4
    case InTok => 5
    case DefTok => 6
    case ReturnTok => 7
    case BreakTok => 8
    case ContinueTok => 9
    case OpTok(op) => if op == And then 10 else if op == Or then 11 else 12
    case TrueTok => 13
    case _ => 14
  }

  predicate IsKeyword(tok: Token) {
    match tok
    case OpTok(op) => op == And || op == Or || op == Not
    case IntTok(_) => false
    case StrTok(_) => false
    case IdentTok(_) => false
    case AssignTok => false
    case LParen => false
    case RParen => false
    case Comma => false
    case Colon => false
    case _ => Printable(tok)
  }

  lemma KeywordEntry(tok: Token)
    requires IsKeyword(tok)
    ensures KEYWORDS[KeywordIndex(tok)] == (TokText(tok), tok)
  {
  }

  lemma KeywordLetters(k: nat)
    requires k < |KEYWORDS|
    ensures var w := KEYWORDS[k].0; 2 <= |w| <= 8 && forall i :: 0 <= i < |w| ==> IsAlpha(w[i])
  {
  }

  /** The characters that start no token. */
  predicate IsBlank(c: char) {
    c == ' ' || c == '\t' || c == '\n' || c == '#'
  }

  /** The lexer reads the text w at i as the token. */
  ghost predicate ReadsAs(src: string, i: nat, tok: Token, w: string) {
    i < |src| && !IsBlank(src[i]) && PieceAt(src, i) == Lexeme(tok, i + |w|)
  }

  lemma KeywordPiece(src: string, i: nat, tok: Token, more: string)
    requires IsKeyword(tok) && i <= |src| && src[i..] == TokText(tok) + (" " + more)
    ensures ReadsAs(src, i, tok, TokText(tok))
  {
    var k := KeywordIndex(tok);
    KeywordEntry(tok);
    KeywordLetters(k);
    KeywordFound(k, 0);
    WordPiece(src, i, TokText(tok), tok, " " + more);
  }

  predicate IsSign(tok: Token) {
    (tok.OpTok? && tok.op != NoOp && !IsKeyword(tok)) ||
    tok == AssignTok || tok == LParen || tok == RParen || tok == Comma || tok == Colon
  }

  lemma SignPiece(src: string, i: nat, tok: Token, more: string)
    requires IsSign(tok) && i <= |src| && src[i..] == TokText(tok) + (" " + more)
    ensures ReadsAs(src, i, tok, TokText(tok))
  {
    SymbolPiece(src, i, tok, TokText(tok), more);
  }

  /** Every token's text, followed by a space, is read back as the token. */
  lemma TokenPiece(src: string, i: nat, tok: Token, more: string)
    requires Printable(tok) && i <= |src| && src[i..] == TokText(tok) + (" " + more)
    ensures ReadsAs(src, i, tok, TokText(tok))
  {
    if tok.IntTok? {
      IntPiece(src, i, tok.n, " " + more);
    } else if tok.StrTok? {
      StrPiece(src, i, tok.s, " " + more);
    } else if tok.IdentTok? {
      WordPiece(src, i, tok.s, tok, " " + more);
    } else if IsKeyword(tok) {
      KeywordPiece(src, i, tok, more);
    } else {
      SignPiece(src, i, tok, more);
    }
  }

  // ---------------------------------------------------------------------
  // Lines and blocks

  /**
    A token stream laid out in lines, from a place where the line so far has
    depth d and the last line had depth s: one block opens at a time, blocks open
    and close only at the start of a line, no line is empty, and the stream ends
    at the start of a line of depth 0.
   */
  predicate InLines(ts: seq<Token>, d: nat, s: nat, start: bool) {
    ts != [] &&
    if ts[0] == Eof then start && |ts| == 1 && d == 0
    else if ts[0] == Indent then start && d == s && InLines(ts[1..], d + 1, s, true)
    else if ts[0] == Dedent then start && 0 < d <= s && InLines(ts[1..], d - 1, s, true)
    else if ts[0] == Newline then !start && InLines(ts[1..], d, d, true)
    else Printable(ts[0]) && InLines(ts[1..], d, d, false)
  }

  function Spaces(d: nat): (s: string)
    ensures |s| == d && forall k :: 0 <= k < d ==> s[k] == ' '
  {
    seq(d, k => ' ')
  }

  /** The text of a token stream: a space after every token, one space of indentation for every open block. */
  function Text(ts: seq<Token>, d: nat, start: bool): string {
    if ts == [] || ts[0] == Eof then ""
    else if ts[0] == Indent then Text(ts[1..], d + 1, true)
    else if ts[0] == Dedent then Text(ts[1..], if d > 0 then d - 1 else 0, true)
    else if ts[0] == Newline then "\n" + Text(ts[1..], d, true)
    else if !Printable(ts[0]) then ""
    else (if start then Spaces(d) else "") + (TokText(ts[0]) + (" " + Text(ts[1..], d, false)))
  }

  /** The lexer's stack with s blocks open. */
  function Stack(s: nat): (r: seq<nat>)
    ensures |r| == s + 1 && StackOk(r) && forall k {:trigger r[k]} :: 0 <= k <= s ==> r[k] == k
  {
    seq(s + 1, k => k)
  }

  /** The block marks between a line of depth s and one of depth d. */
  function Pending(d: nat, s: nat): seq<Token> {
    if d > s then [Indent] else Dedents(s - d)
  }

  lemma {:induction false} PoppedIs(d: nat, s: nat)
    requires d <= s
    ensures Popped(Stack(s), d) == Stack(d)
    decreases s
  {
    if d < s {
      assert Stack(s)[..s] == Stack(s - 1);
      PoppedIs(d, s - 1);
    }
  }

  lemma StackMoves(d: nat, s: nat)
    requires d <= s + 1
    ensures NewStack(Stack(s), d) == Stack(d) && IndentTokens(Stack(s), d) == Pending(d, s)
  {
    if d <= s {
      PoppedIs(d, s);
    } else {
      assert Stack(s) + [d] == Stack(d);
    }
  }

  lemma {:induction false} SpacesRun(src: string, i: nat, d: nat, more: string)
    requires i <= |src| && src[i..] == Spaces(d) + more && more != "" && more[0] != ' '
    ensures AfterAll(src, i, ' ') == i + d
    decreases d
  {
    Suffix(src, i, Spaces(d) + more);
    if d == 0 {
      assert Spaces(d) + more == more;
    } else {
      assert (Spaces(d) + more)[1..] == Spaces(d - 1) + more;
      SpacesRun(src, i + 1, d - 1, more);
    }
  }

  lemma IndentIs(src: string, i: nat, d: nat, more: string)
    requires i <= |src| && src[i..] == Spaces(d) + more && more != "" && !IsBlank(more[0])
    ensures i + d < |src| && src[i + d..] == more && src[i + d] == more[0]
    ensures AfterIndent(src, i) == i + d && IndentAt(src, i) == d
  {
    SpacesRun(src, i, d, more);
    SuffixAfter(src, i, Spaces(d), more);
    Suffix(src, i + d, more);
  }

  lemma FullLine(src: string, i: nat, stack: seq<nat>, j: nat, indent: nat)
    requires i < |src| && StackOk(stack) && j == AfterIndent(src, i) && indent == IndentAt(src, i) &&
             StackOk(NewStack(stack, indent))
    requires j < |src| && src[j] != '\n' && src[j] != '#'
    ensures Lines(src, i, stack) == Then(IndentTokens(stack, indent), RestOfLine(src, j, NewStack(stack, indent)))
  {
  }

  /** A line of depth d after one of depth s. */
  lemma LineOpens(src: string, i: nat, d: nat, s: nat, ts: seq<Token>)
    requires d <= s + 1 && i <= i + d < |src| && AfterIndent(src, i) == i + d && IndentAt(src, i) == d &&
             !IsBlank(src[i + d])
    requires RestOfLine(src, i + d, Stack(d)) == Tokens(ts)
    ensures Lines(src, i, Stack(s)) == Tokens(Pending(d, s) + ts)
  {
    StackMoves(d, s);
    FullLine(src, i, Stack(s), i + d, d);
  }

  /** The space after a token. */
  lemma AfterToken(src: string, i: nat, w: string, more: string)
    requires i <= |src| && src[i..] == w + (" " + more)
    ensures i + |w| < |src| && src[i + |w|] == ' ' && src[i + |w| + 1..] == more
  {
    SuffixAfter(src, i, w, " " + more);
    Suffix(src, i + |w|, " " + more);
    assert (" " + more)[1..] == more;
  }

  /** At i stands a token that reaches to j, then a space, then more. */
  ghost predicate Stands(src: string, i: nat, tok: Token, j: nat, more: string) {
    i < |src| && !IsBlank(src[i]) && PieceAt(src, i) == Lexeme(tok, j) && j < |src| && src[j] == ' ' &&
        src[j + 1..] == more
  }

  lemma TokenStands(src: string, i: nat, tok: Token, more: string)
    requires Printable(tok) && i <= |src| && src[i..] == TokText(tok) + (" " + more)
    ensures Stands(src, i, tok, i + |TokText(tok)|, more)
  {
    AfterToken(src, i, TokText(tok), more);
    TokenPiece(src, i, tok, more);
  }

  lemma TextStarts(tok: Token)
    requires Printable(tok)
    ensures TokText(tok) != "" && !IsBlank(TokText(tok)[0])
  {
    TokenPiece(TokText(tok) + (" " + ""), 0, tok, "");
  }

  lemma FirstOf(w: string, more: string)
    requires w != ""
    ensures w + more != "" && (w + more)[0] == w[0]
  {
  }

  lemma WordIndent(src: string, i: nat, d: nat, w: string, more: string)
    requires w != "" && !IsBlank(w[0]) && i <= |src| && src[i..] == Spaces(d) + (w + more)
    ensures i + d < |src| && src[i + d..] == w + more && AfterIndent(src, i) == i + d && IndentAt(src, i) == d
  {
    FirstOf(w, more);
    IndentIs(src, i, d, w + more);
  }

  /** The same at the start of a line of depth d. */
  lemma LineStands(src: string, i: nat, d: nat, tok: Token, more: string)
    requires Printable(tok) && i <= |src| && src[i..] == Spaces(d) + (TokText(tok) + (" " + more))
    ensures i < |src| && AfterIndent(src, i) == i + d && IndentAt(src, i) == d
    ensures Stands(src, i + d, tok, i + d + |TokText(tok)|, more)
  {
    TextStarts(tok);
    WordIndent(src, i, d, TokText(tok), " " + more);
    TokenStands(src, i + d, tok, more);
  }

  /** A token and the space after it. */
  lemma PieceStep(src: string, i: nat, tok: Token, j: nat, stack: seq<nat>, ts: seq<Token>)
    requires i < |src| && src[i] != '\n' && StackOk(stack) && PieceAt(src, i) == Lexeme(tok, j) && j < |src| &&
             src[j] == ' '
    requires RestOfLine(src, j + 1, stack) == Tokens(ts)
    ensures RestOfLine(src, i, stack) == Tokens([tok] + ts)
  {
    assert RestOfLine(src, j, stack) == RestOfLine(src, j + 1, stack);
  }

  // ---------------------------------------------------------------------
  // Whole streams

  /** The rest of the lexing, from the start of a line or from inside one. */
  ghost predicate LexedAs(ts: seq<Token>, d: nat, s: nat, start: bool, src: string, i: nat)
    requires i <= |src|
  {
    if start then Lines(src, i, Stack(s)) == Tokens(Pending(d, s) + ts) else RestOfLine(src, i, Stack(d)) == Tokens(ts)
  }

  lemma TextOfToken(ts: seq<Token>, d: nat, start: bool)
    requires ts != [] && Printable(ts[0])
    ensures Text(ts, d, start) == (if start then Spaces(d) else "") + (TokText(ts[0]) + (" " + Text(ts[1..], d, false)))
  {
  }

  lemma OneMore(ts: seq<Token>, r: Lexed)
    requires ts != [] && r == Tokens(ts[1..])
    ensures Then([ts[0]], r) == Tokens(ts)
  {
    assert [ts[0]] + ts[1..] == ts;
  }

  lemma {:induction false} StartLexed(ts: seq<Token>, d: nat, s: nat, src: string, i: nat, j: nat)
    requires ts != [] && InLines(ts[1..], d, d, false) && d <= s + 1
    requires i < |src| && AfterIndent(src, i) == i + d && IndentAt(src, i) == d
    requires Stands(src, i + d, ts[0], j, Text(ts[1..], d, false))
    ensures LexedAs(ts, d, s, true, src, i)
    decreases |ts|, 1
  {
    MidLexed(ts, d, src, i + d, j);
    LineOpens(src, i, d, s, ts);
  }

  lemma TokenLexed(tok: Token, rest: seq<Token>, d: nat, src: string, i: nat, j: nat, more: string)
    requires Stands(src, i, tok, j, more) && RestOfLine(src, j + 1, Stack(d)) == Tokens(rest)
    ensures RestOfLine(src, i, Stack(d)) == Tokens([tok] + rest)
  {
    PieceStep(src, i, tok, j, Stack(d), rest);
  }

  lemma HeadRest(ts: seq<Token>)
    requires ts != []
    ensures [ts[0]] + ts[1..] == ts
  {
  }

  lemma {:induction false} MidLexed(ts: seq<Token>, d: nat, src: string, i: nat, j: nat)
    requires ts != [] && InLines(ts[1..], d, d, false) && Stands(src, i, ts[0], j, Text(ts[1..], d, false))
    ensures LexedAs(ts, d, d, false, src, i)
    decreases |ts|, 0
  {
    StreamLexed(ts[1..], d, d, false, src, j + 1);
    TokenLexed(ts[0], ts[1..], d, src, i, j, Text(ts[1..], d, false));
    HeadRest(ts);
  }

  lemma {:induction false} FirstLexed(ts: seq<Token>, d: nat, s: nat, src: string, i: nat)
    requires ts != [] && Printable(ts[0]) && InLines(ts[1..], d, d, false) && d <= s + 1
    requires i <= |src| && src[i..] == Spaces(d) + (TokText(ts[0]) + (" " + Text(ts[1..], d, false)))
    ensures LexedAs(ts, d, s, true, src, i)
    decreases |ts|, 2
  {
    LineStands(src, i, d, ts[0], Text(ts[1..], d, false));
    StartLexed(ts, d, s, src, i, i + d + |TokText(ts[0])|);
  }

  lemma {:induction false} NextLexed(ts: seq<Token>, d: nat, src: string, i: nat)
    requires ts != [] && Printable(ts[0]) && InLines(ts[1..], d, d, false)
    requires i <= |src| && src[i..] == TokText(ts[0]) + (" " + Text(ts[1..], d, false))
    ensures LexedAs(ts, d, d, false, src, i)
    decreases |ts|, 2
  {
    TokenStands(src, i, ts[0], Text(ts[1..], d, false));
    MidLexed(ts, d, src, i, i + |TokText(ts[0])|);
  }

  lemma {:induction false} PlainLexed(ts: seq<Token>, d: nat, s: nat, start: bool, src: string, i: nat)
    requires ts != [] && Printable(ts[0]) && InLines(ts[1..], d, d, false) && d <= s + 1 && (!start ==> s == d)
    requires i <= |src| && src[i..] == Text(ts, d, start)
    ensures LexedAs(ts, d, s, start, src, i)
    decreases |ts|, 3
  {
    TextOfToken(ts, d, start);
    if start {
      FirstLexed(ts, d, s, src, i);
    } else {
      Nothing(TokText(ts[0]) + (" " + Text(ts[1..], d, false)));
      NextLexed(ts, d, src, i);
    }
  }

  lemma {:induction false} StreamLexed(ts: seq<Token>, d: nat, s: nat, start: bool, src: string, i: nat)
    requires InLines(ts, d, s, start) && d <= s + 1 && (!start ==> s == d)
    requires i <= |src| && src[i..] == Text(ts, d, start)
    ensures LexedAs(ts, d, s, start, src, i)
    decreases |ts|, 4
  {
    if ts[0] == Eof {
      EndLexed(ts, s, src, i);
    } else if ts[0] == Indent || ts[0] == Dedent {
      MarkLexed(ts, d, s, src, i);
    } else if ts[0] == Newline {
      LineLexed(ts, d, src, i);
    } else {
      PlainLexed(ts, d, s, start, src, i);
    }
  }

  /** A block mark that was waiting and one that was read are the same. */
  lemma MarkMoves(ts: seq<Token>, d: nat, d': nat, s: nat)
    requires ts != []
    requires (ts[0] == Indent && d == s && d' == d + 1) || (ts[0] == Dedent && 0 < d <= s && d' == d - 1)
    ensures Pending(d', s) + ts[1..] == Pending(d, s) + ts
  {
    if ts[0] == Dedent {
      DedentsSnoc(s - d);
    }
  }

  lemma {:induction false} MarkLexed(ts: seq<Token>, d: nat, s: nat, src: string, i: nat)
    requires InLines(ts, d, s, true) && d <= s + 1 && (ts[0] == Indent || ts[0] == Dedent)
    requires i <= |src| && src[i..] == Text(ts, d, true)
    ensures LexedAs(ts, d, s, true, src, i)
    decreases |ts|, 0
  {
    var d' := if ts[0] == Indent then d + 1 else d - 1;
    StreamLexed(ts[1..], d', s, true, src, i);
    MarkMoves(ts, d, d', s);
  }

  lemma {:induction false} LineLexed(ts: seq<Token>, d: nat, src: string, i: nat)
    requires InLines(ts, d, d, false) && ts[0] == Newline && i <= |src| && src[i..] == Text(ts, d, false)
    ensures LexedAs(ts, d, d, false, src, i)
    decreases |ts|, 0
  {
    NewlineLexed(ts, d, src, i);
    StreamLexed(ts[1..], d, d, true, src, i + 1);
    assert Pending(d, d) + ts[1..] == ts[1..];
    OneMore(ts, Lines(src, i + 1, Stack(d)));
  }

  lemma EndLexed(ts: seq<Token>, s: nat, src: string, i: nat)
    requires ts == [Eof] && i <= |src| && src[i..] == ""
    ensures Lines(src, i, Stack(s)) == Tokens(Pending(0, s) + ts)
  {
    assert i == |src|;
  }

  lemma NewlineLexed(ts: seq<Token>, d: nat, src: string, i: nat)
    requires ts != [] && ts[0] == Newline && i <= |src| && src[i..] == Text(ts, d, false)
    ensures i < |src| && src[i + 1..] == Text(ts[1..], d, true)
    ensures RestOfLine(src, i, Stack(d)) == Then([Newline], Lines(src, i + 1, Stack(d)))
  {
    var more := Text(ts[1..], d, true);
    Suffix(src, i, "\n" + more);
    assert ("\n" + more)[1..] == more;
  }

  /** A token stream laid out in lines comes back from its text. */
  lemma TextLexed(ts: seq<Token>)
    requires InLines(ts, 0, 0, true)
    ensures Source(Text(ts, 0, true)) == Tokens(ts)
  {
    var src := Text(ts, 0, true);
    assert src[0..] == src;
    StreamLexed(ts, 0, 0, true, src, 0);
    assert Stack(0) == [0];
    assert Pending(0, 0) + ts == ts;
  }

  // ---------------------------------------------------------------------
  // Programs

  /** Expressions whose names, numbers and strings have a text. */
  predicate WritableExpr(t: Tree) {
    (t.kind == KInt ==> t.n >= 0) && (t.kind == KStr ==> |t.s| <= MAX_STR - 1) &&
    (t.kind == KVar || IsCallKind(t.kind) ==> IsIdent(t.s)) &&
    forall i :: 0 <= i < |t.kids| ==> WritableExpr(t.kids[i])
  }

  /** Statements made of such expressions and names, without empty blocks. */
  predicate Writable(t: Tree)
    requires CanonStmt(t)
    decreases t, 1
  {
    if t.kind == KAssign then IsIdent(t.s) && WritableExpr(t.kids[0])
    else if t.kind == KReturn then t.kids == [] || WritableExpr(t.kids[0])
    else if t.kind == KBreak || t.kind == KContinue then true
    else if t.kind == KDef then
      IsIdent(t.s) && (forall i :: 0 <= i < |t.kids| - 1 ==> IsIdent(t.kids[i].s)) &&
          WritableBlock(t.kids[|t.kids| - 1])
    else if t.kind == KWhile then WritableExpr(t.kids[0]) && WritableBlock(t.kids[1])
    else if t.kind == KFor then IsIdent(t.s) && WritableExpr(t.kids[0]) && WritableBlock(t.kids[1])
    else if t.kind == KIf then
      WritableExpr(t.kids[0]) && WritableBlock(t.kids[1]) &&
      (|t.kids| == 3 ==> if t.kids[2].kind == KIf then Writable(t.kids[2]) else WritableBlock(t.kids[2]))
    else WritableExpr(t)
  }

  predicate WritableBlock(t: Tree)
    requires CanonBlock(t)
    decreases t, 0
  {
    t.kids != [] && forall i :: 0 <= i < |t.kids| ==> Writable(t.kids[i])
  }

  predicate AllPrintable(ts: seq<Token>) {
    forall i :: 0 <= i < |ts| ==> Printable(ts[i])
  }

  lemma PrintableConcat(x: seq<Token>, y: seq<Token>)
    requires AllPrintable(x) && AllPrintable(y)
    ensures AllPrintable(x + y)
  {
  }

  lemma OnePrintable(tok: Token)
    requires Printable(tok)
    ensures AllPrintable([tok])
  {
  }

  lemma {:induction false} ShowPrintable(k: nat, t: Tree)
    requires IsExpr(t) && Canonical(t) && WritableExpr(t) && 1 <= k <= 7
    ensures AllPrintable(Show(k, t))
    decreases t, 1
  {
    BarePrintable(t);
    if Binding(t) < k {
      OnePrintable(LParen);
      OnePrintable(RParen);
      PrintableConcat([LParen], Bare(t));
      PrintableConcat([LParen] + Bare(t), [RParen]);
    }
  }

  lemma {:induction false} BarePrintable(t: Tree)
    requires IsExpr(t) && Canonical(t) && WritableExpr(t)
    ensures AllPrintable(Bare(t))
    decreases t, 0
  {
    if t.kind == KUnop {
      ShowPrintable(6, t.kids[0]);
      OnePrintable(OpTok(t.op));
      PrintableConcat([OpTok(t.op)], Show(6, t.kids[0]));
    } else if t.kind == KBinop {
      BinopPrintable(t);
    } else if IsCallKind(t.kind) {
      CallPrintable(t);
    } else {
      OnePrintable(Bare(t)[0]);
    }
  }

  lemma {:induction false} BinopPrintable(t: Tree)
    requires Canonical(t) && WritableExpr(t) && t.kind == KBinop
    ensures AllPrintable(Bare(t))
    decreases t, 0, 0
  {
    LevelBound(t.op);
    var x, y := Show(LevelOf(t.op), t.kids[0]), Show(LevelOf(t.op) + 1, t.kids[1]);
    ShowPrintable(LevelOf(t.op), t.kids[0]);
    ShowPrintable(LevelOf(t.op) + 1, t.kids[1]);
    OnePrintable(OpTok(t.op));
    PrintableConcat(x, [OpTok(t.op)]);
    PrintableConcat(x + [OpTok(t.op)], y);
  }

  lemma {:induction false} CallPrintable(t: Tree)
    requires Canonical(t) && WritableExpr(t) && IsCallKind(t.kind)
    ensures AllPrintable(Bare(t))
    decreases t, 0, 0
  {
    var args := ShowArgs(t.kids);
    ArgsPrintable(t.kids);
    OnePrintable(IdentTok(t.s));
    OnePrintable(LParen);
    OnePrintable(RParen);
    PrintableConcat(args, [RParen]);
    PrintableConcat([LParen], args + [RParen]);
    PrintableConcat([IdentTok(t.s)], [LParen] + (args + [RParen]));
  }

  lemma {:induction false} ArgsPrintable(kids: seq<Tree>)
    requires forall i :: 0 <= i < |kids| ==> IsExpr(kids[i]) && Canonical(kids[i]) && WritableExpr(kids[i])
    ensures AllPrintable(ShowArgs(kids))
    decreases kids, 2
  {
    if kids != [] {
      ShowPrintable(1, kids[0]);
      ArgsPrintable(kids[1..]);
    }
  }

  lemma {:induction false} NamesPrintable(kids: seq<Tree>)
    requires forall i :: 0 <= i < |kids| ==> IsIdent(kids[i].s)
    ensures AllPrintable(ShowNames(kids))
    decreases |kids|
  {
    if kids != [] {
      NamesPrintable(kids[1..]);
    }
  }

  /** What follows a statement at depth d: it may start a line whatever blocks were open. */
  ghost predicate Follows(ts: seq<Token>, d: nat) {
    forall s: nat {:trigger InLines(ts, d, s, true)} :: s >= d ==> InLines(ts, d, s, true)
  }

  /** Tokens that start a line, and then whatever the line goes on with. */
  lemma {:induction false} LineGoesOn(x: seq<Token>, ts: seq<Token>, d: nat)
    requires AllPrintable(x) && InLines(ts, d, d, false)
    ensures InLines(x + ts, d, d, false)
    decreases |x|
  {
    if x == [] {
      assert x + ts == ts;
    } else {
      LineGoesOn(x[1..], ts, d);
      assert (x + ts)[1..] == x[1..] + ts;
    }
  }

  lemma LineEndsIn(ts: seq<Token>, d: nat)
    requires Follows(ts, d)
    ensures InLines([Newline] + ts, d, d, false)
  {
    assert ([Newline] + ts)[1..] == ts;
  }

  /** The start of a line of depth d that is not empty; which blocks were open before does not matter. */
  ghost predicate Line(ts: seq<Token>, d: nat) {
    ts != [] && Printable(ts[0]) && InLines(ts[1..], d, d, false)
  }

  lemma LineFollows(ts: seq<Token>, d: nat)
    requires Line(ts, d)
    ensures Follows(ts, d) && forall s: nat :: InLines(ts, d, s, true)
  {
  }

  lemma HeadTail(x: seq<Token>, ts: seq<Token>)
    requires x != []
    ensures x + ts != [] && (x + ts)[0] == x[0] && (x + ts)[1..] == x[1..] + ts
  {
  }

  lemma LineOf(x: seq<Token>, ts: seq<Token>, d: nat)
    requires AllPrintable(x) && x != [] && InLines(ts, d, d, false)
    ensures Line(x + ts, d)
  {
    HeadTail(x, ts);
    TailPrintable(x);
    LineGoesOn(x[1..], ts, d);
  }

  lemma TailPrintable(x: seq<Token>)
    requires AllPrintable(x) && x != []
    ensures AllPrintable(x[1..]) && Printable(x[0])
  {
  }

  lemma OneToken(tok: Token, ts: seq<Token>, d: nat)
    requires Printable(tok) && InLines(ts, d, d, false)
    ensures Line([tok] + ts, d) && InLines([tok] + ts, d, d, false)
  {
    assert ([tok] + ts)[1..] == ts;
  }

  /** A line of tokens and its end. */
  lemma WholeLine(x: seq<Token>, rest: seq<Token>, d: nat)
    requires AllPrintable(x) && x != [] && Follows(rest, d)
    ensures Line(x + ([Newline] + rest), d)
  {
    LineEndsIn(rest, d);
    LineOf(x, [Newline] + rest, d);
  }

  lemma {:induction false} StmtLine(t: Tree, rest: seq<Token>, d: nat)
    requires CanonStmt(t) && Writable(t) && Follows(rest, d)
    ensures Line(ShowStmt(t) + rest, d)
    decreases t, 5
  {
    if t.kind == KDef {
      DefLine(t, rest, d);
    } else if t.kind == KWhile {
      HeadIn(t.kids[0], t.kids[1], rest, d);
      OneToken(WhileTok, ShowHead(t.kids[0], t.kids[1]) + rest, d);
      Glue([WhileTok], ShowHead(t.kids[0], t.kids[1]), rest);
    } else if t.kind == KFor {
      ForLine(t, rest, d);
    } else if t.kind == KIf {
      IfIn(t, rest, d);
      OneToken(IfTok, ShowIf(t) + rest, d);
      Glue([IfTok], ShowIf(t), rest);
    } else {
      SimpleLine(t, rest, d);
    }
  }

  lemma Glue(x: seq<Token>, y: seq<Token>, z: seq<Token>)
    ensures (x + y) + z == x + (y + z)
  {
  }

  /** The line of a statement without a block, without its end. */
  function LineTokens(t: Tree): seq<Token>
    requires CanonStmt(t) && t.kind != KDef && t.kind != KWhile && t.kind != KFor && t.kind != KIf
  {
    if t.kind == KAssign then [IdentTok(t.s)] + ([AssignTok] + Show(1, t.kids[0]))
    else if t.kind == KReturn then [ReturnTok] + if t.kids == [] then [] else Show(1, t.kids[0])
    else if t.kind == KBreak then [BreakTok]
    else if t.kind == KContinue then [ContinueTok]
    else Show(1, t)
  }

  lemma SimpleText(t: Tree)
    requires CanonStmt(t) && t.kind != KDef && t.kind != KWhile && t.kind != KFor && t.kind != KIf
    ensures ShowStmt(t) == LineTokens(t) + [Newline]
  {
    if t.kind == KAssign {
      assert [IdentTok(t.s)] + ([AssignTok] + (Show(1, t.kids[0]) + [Newline])) == LineTokens(t) + [Newline];
    } else if t.kind == KReturn && t.kids != [] {
      assert [ReturnTok] + (Show(1, t.kids[0]) + [Newline]) == LineTokens(t) + [Newline];
    }
  }

  lemma ShownPrintable(t: Tree)
    requires Canonical(t) && WritableExpr(t)
    ensures AllPrintable(Show(1, t)) && Show(1, t) != []
  {
    ShowPrintable(1, t);
    ShowStarts(1, t);
  }

  lemma SimplePrintable(t: Tree)
    requires CanonStmt(t) && Writable(t) && t.kind != KDef && t.kind != KWhile && t.kind != KFor && t.kind != KIf
    ensures AllPrintable(LineTokens(t)) && LineTokens(t) != []
  {
    if t.kind == KAssign || (t.kind == KReturn && t.kids != []) {
      ShowPrintable(1, t.kids[0]);
    } else if t.kind != KReturn && t.kind != KBreak && t.kind != KContinue {
      ShownPrintable(t);
    }
  }

  lemma SimpleLine(t: Tree, rest: seq<Token>, d: nat)
    requires CanonStmt(t) && Writable(t) && Follows(rest, d)
    requires t.kind != KDef && t.kind != KWhile && t.kind != KFor && t.kind != KIf
    ensures Line(ShowStmt(t) + rest, d)
  {
    SimplePrintable(t);
    SimpleText(t);
    WholeLine(LineTokens(t), rest, d);
    Glue(LineTokens(t), [Newline], rest);
  }

  lemma ThreeFirst(a: Token, b: Token, c: Token, y: seq<Token>, z: seq<Token>)
    ensures ([a] + ([b] + ([c] + y))) + z == [a, b, c] + (y + z)
  {
    assert [a] + ([b] + ([c] + y)) == [a, b, c] + y;
  }

  lemma ThreePrintable(a: Token, b: Token, c: Token)
    requires Printable(a) && Printable(b) && Printable(c)
    ensures AllPrintable([a, b, c])
  {
  }

  lemma ForText(t: Tree, rest: seq<Token>)
    requires CanonStmt(t) && t.kind == KFor
    ensures ShowStmt(t) + rest == [ForTok, IdentTok(t.s), InTok] + (ShowHead(t.kids[0], t.kids[1]) + rest)
  {
    ThreeFirst(ForTok, IdentTok(t.s), InTok, ShowHead(t.kids[0], t.kids[1]), rest);
  }

  lemma {:induction false} ForLine(t: Tree, rest: seq<Token>, d: nat)
    requires CanonStmt(t) && Writable(t) && t.kind == KFor && Follows(rest, d)
    ensures Line(ShowStmt(t) + rest, d)
    decreases t, 4
  {
    HeadIn(t.kids[0], t.kids[1], rest, d);
    ForText(t, rest);
    ThreePrintable(ForTok, IdentTok(t.s), InTok);
    LineOf([ForTok, IdentTok(t.s), InTok], ShowHead(t.kids[0], t.kids[1]) + rest, d);
  }

  /** The first line of a def up to its colon. */
  function DefTokens(t: Tree): seq<Token>
    requires CanonStmt(t) && t.kind == KDef
  {
    [DefTok, IdentTok(t.s), LParen] + (ShowNames(t.kids[..|t.kids| - 1]) + [RParen])
  }

  lemma DefGlue(a: seq<Token>, x: seq<Token>, b: seq<Token>, y: seq<Token>, z: seq<Token>)
    ensures a + ((x + (b + y)) + z) == (a + (x + b)) + (y + z)
  {
    Glue(x, b, y);
    Glue(x + b, y, z);
    Glue(a, x + b, y + z);
  }

  lemma DefText(t: Tree, rest: seq<Token>)
    requires CanonStmt(t) && t.kind == KDef
    ensures ShowStmt(t) + rest == DefTokens(t) + (ShowColon(t.kids[|t.kids| - 1]) + rest)
  {
    var names, colon := ShowNames(t.kids[..|t.kids| - 1]), ShowColon(t.kids[|t.kids| - 1]);
    ThreeFirst(DefTok, IdentTok(t.s), LParen, names + ([RParen] + colon), rest);
    DefGlue([DefTok, IdentTok(t.s), LParen], names, [RParen], colon, rest);
  }

  lemma ParamsPrintable(t: Tree)
    requires CanonStmt(t) && Writable(t) && t.kind == KDef
    ensures AllPrintable(ShowNames(t.kids[..|t.kids| - 1]))
  {
    NamesPrintable(t.kids[..|t.kids| - 1]);
  }

  lemma ListPrintable(f: string, names: seq<Token>)
    requires IsIdent(f) && AllPrintable(names)
    ensures AllPrintable([DefTok, IdentTok(f), LParen] + (names + [RParen]))
  {
    OnePrintable(RParen);
    PrintableConcat(names, [RParen]);
    ThreePrintable(DefTok, IdentTok(f), LParen);
    PrintableConcat([DefTok, IdentTok(f), LParen], names + [RParen]);
  }

  lemma DefPrintable(t: Tree)
    requires CanonStmt(t) && Writable(t) && t.kind == KDef
    ensures AllPrintable(DefTokens(t))
  {
    ParamsPrintable(t);
    ListPrintable(t.s, ShowNames(t.kids[..|t.kids| - 1]));
  }

  lemma {:induction false} DefLine(t: Tree, rest: seq<Token>, d: nat)
    requires CanonStmt(t) && Writable(t) && t.kind == KDef && Follows(rest, d)
    ensures Line(ShowStmt(t) + rest, d)
    decreases t, 4
  {
    var b := t.kids[|t.kids| - 1];
    ColonIn(b, rest, d);
    DefPrintable(t);
    DefText(t, rest);
    LineOf(DefTokens(t), ShowColon(b) + rest, d);
  }

  lemma {:induction false} HeadIn(c: Tree, b: Tree, rest: seq<Token>, d: nat)
    requires Canonical(c) && CanonBlock(b) && WritableExpr(c) && WritableBlock(b) && Follows(rest, d)
    ensures InLines(ShowHead(c, b) + rest, d, d, false)
    decreases b, 3
  {
    ColonIn(b, rest, d);
    ShowPrintable(1, c);
    LineGoesOn(Show(1, c), ShowColon(b) + rest, d);
    Glue(Show(1, c), ShowColon(b), rest);
  }

  lemma NewlineIn(ts: seq<Token>, d: nat)
    requires InLines(ts, d, d, true)
    ensures InLines([Newline] + ts, d, d, false)
  {
    assert ([Newline] + ts)[1..] == ts;
  }

  lemma {:induction false} ColonIn(b: Tree, rest: seq<Token>, d: nat)
    requires CanonBlock(b) && WritableBlock(b) && Follows(rest, d)
    ensures InLines(ShowColon(b) + rest, d, d, false)
    decreases b, 2
  {
    BlockIn(b, rest, d);
    var x := ShowBlock(b) + rest;
    NewlineIn(x, d);
    OneToken(Colon, [Newline] + x, d);
    Glue([Newline], ShowBlock(b), rest);
    Glue([Colon], [Newline] + ShowBlock(b), rest);
  }

  lemma DedentFollows(rest: seq<Token>, d: nat)
    requires Follows(rest, d)
    ensures Follows([Dedent] + rest, d + 1)
  {
    var ts := [Dedent] + rest;
    assert ts[1..] == rest;
    forall s: nat {:trigger InLines(ts, d + 1, s, true)} | s >= d + 1
      ensures InLines(ts, d + 1, s, true)
    {
      assert InLines(rest, d, s, true);
    }
  }

  lemma BlockText(b: Tree, rest: seq<Token>)
    requires CanonBlock(b)
    ensures ShowBlock(b) + rest == [Indent] + (ShowStmts(b.kids) + ([Dedent] + rest))
  {
    Glue(ShowStmts(b.kids), [Dedent], rest);
    Glue([Indent], ShowStmts(b.kids) + [Dedent], rest);
  }

  lemma BlockOpens(ts: seq<Token>, d: nat)
    requires Line(ts, d + 1)
    ensures InLines([Indent] + ts, d, d, true)
  {
    LineFollows(ts, d + 1);
    HeadTail([Indent], ts);
    Nil(ts);
  }

  lemma Nil(ts: seq<Token>)
    ensures [Indent][1..] + ts == ts
  {
  }

  lemma {:induction false} BlockIn(b: Tree, rest: seq<Token>, d: nat)
    requires CanonBlock(b) && WritableBlock(b) && Follows(rest, d)
    ensures InLines(ShowBlock(b) + rest, d, d, true)
    decreases b, 1
  {
    DedentFollows(rest, d);
    StmtsLine(b.kids, [Dedent] + rest, d + 1);
    BlockText(b, rest);
    BlockOpens(ShowStmts(b.kids) + ([Dedent] + rest), d);
  }

  lemma {:induction false} StmtsLine(kids: seq<Tree>, rest: seq<Token>, d: nat)
    requires AllStmts(kids) && kids != [] && (forall i :: 0 <= i < |kids| ==> Writable(kids[i])) && Follows(rest, d)
    ensures Line(ShowStmts(kids) + rest, d)
    decreases kids, 4
  {
    var more := ShowStmts(kids[1..]) + rest;
    if |kids| > 1 {
      StmtsLine(kids[1..], rest, d);
      LineFollows(more, d);
    } else {
      assert kids[1..] == [] && more == rest;
    }
    StmtLine(kids[0], more, d);
    Glue(ShowStmt(kids[0]), ShowStmts(kids[1..]), rest);
  }

  lemma {:induction false} IfIn(t: Tree, rest: seq<Token>, d: nat)
    requires CanonStmt(t) && Writable(t) && t.kind == KIf && Follows(rest, d)
    ensures InLines(ShowIf(t) + rest, d, d, false)
    decreases t, 3
  {
    if |t.kids| == 2 {
      HeadIn(t.kids[0], t.kids[1], rest, d);
    } else {
      BranchIn(t, rest, d);
    }
  }

  function BranchTokens(t: Tree): seq<Token>
    requires CanonStmt(t) && t.kind == KIf && |t.kids| == 3
  {
    if t.kids[2].kind == KIf then [ElifTok] + ShowIf(t.kids[2]) else [ElseTok] + ShowColon(t.kids[2])
  }

  lemma BranchText(t: Tree, rest: seq<Token>)
    requires CanonStmt(t) && t.kind == KIf && |t.kids| == 3
    ensures ShowIf(t) + rest == ShowHead(t.kids[0], t.kids[1]) + (BranchTokens(t) + rest)
  {
    Glue(ShowHead(t.kids[0], t.kids[1]), BranchTokens(t), rest);
  }

  lemma {:induction false} BranchLine(t: Tree, rest: seq<Token>, d: nat)
    requires CanonStmt(t) && Writable(t) && t.kind == KIf && |t.kids| == 3 && Follows(rest, d)
    ensures Line(BranchTokens(t) + rest, d)
    decreases t, 1
  {
    if t.kids[2].kind == KIf {
      IfIn(t.kids[2], rest, d);
      OneToken(ElifTok, ShowIf(t.kids[2]) + rest, d);
      Glue([ElifTok], ShowIf(t.kids[2]), rest);
    } else {
      ColonIn(t.kids[2], rest, d);
      OneToken(ElseTok, ShowColon(t.kids[2]) + rest, d);
      Glue([ElseTok], ShowColon(t.kids[2]), rest);
    }
  }

  lemma {:induction false} BranchIn(t: Tree, rest: seq<Token>, d: nat)
    requires CanonStmt(t) && Writable(t) && t.kind == KIf && |t.kids| == 3 && Follows(rest, d)
    ensures InLines(ShowIf(t) + rest, d, d, false)
    decreases t, 2
  {
    BranchLine(t, rest, d);
    LineFollows(BranchTokens(t) + rest, d);
    BranchText(t, rest);
    HeadIn(t.kids[0], t.kids[1], BranchTokens(t) + rest, d);
  }

  /** A program whose names, numbers and strings have a text, without empty blocks. */
  ghost predicate WritableProgram(t: Tree) {
    CanonBlock(t) && forall i :: 0 <= i < |t.kids| ==> Writable(t.kids[i])
  }

  /** A program written out as source text. */
  ghost function Written(t: Tree): string
    requires WritableProgram(t)
  {
    Text(ShowStmts(t.kids) + [Eof], 0, true)
  }

  /**
    The source text of a program, indented by its blocks, is read by the lexer
    as the program's tokens, and these parse to the program.
   */
  lemma SourceRoundTrip(t: Tree)
    requires WritableProgram(t)
    ensures Source(Written(t)) == Tokens(ShowStmts(t.kids) + [Eof])
    ensures Stream(Source(Written(t)).ts) && Program(Source(Written(t)).ts) == Got(t, [Eof])
  {
    var ts := ShowStmts(t.kids) + [Eof];
    assert Follows([Eof], 0);
    if t.kids == [] {
      assert ts == [Eof];
    } else {
      StmtsLine(t.kids, [Eof], 0);
      LineFollows(ts, 0);
    }
    TextLexed(ts);
    ProgramRoundTrip(t);
  }
}
