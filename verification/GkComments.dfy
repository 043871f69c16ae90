// Comments, quotes and white space: what they do to the tokens of a source text.

module GkComments {
  import opened Basics
  import opened GkSyntax
  import opened GkLexer

  // ---------------------------------------------------------------------
  // What the lexer makes of a place depends on the text from there on

  lemma DropDrop(s: string, i: nat, j: nat)
    requires i + j <= |s|
    ensures s[i..][j..] == s[i + j..]
  {
  }

  lemma {:induction false} LineEndHere(s: string, i: nat, j: nat)
    requires i <= j <= |s|
    ensures LineEnd(s, j) == i + LineEnd(s[i..], j - i)
    decreases |s| - j
  {
    if j < |s| && s[j] != '\n' {
      LineEndHere(s, i, j + 1);
    }
  }

  lemma {:induction false} AfterAllHere(s: string, i: nat, j: nat, c: char)
    requires i <= j <= |s|
    ensures AfterAll(s, j, c) == i + AfterAll(s[i..], j - i, c)
    decreases |s| - j
  {
    if j < |s| && s[j] == c {
      AfterAllHere(s, i, j + 1, c);
    }
  }

  lemma {:induction false} AfterDigitsHere(s: string, i: nat, j: nat)
    requires i <= j <= |s|
    ensures AfterDigits(s, j) == i + AfterDigits(s[i..], j - i)
    decreases |s| - j
  {
    if j < |s| && IsDigit(s[j]) {
      AfterDigitsHere(s, i, j + 1);
    }
  }

  lemma {:induction false} NumberHere(s: string, i: nat, j: nat, k: nat, acc: int)
    requires i <= j <= k <= |s|
    ensures Number(s, j, k, acc) == Number(s[i..], j - i, k - i, acc)
    decreases k - j
  {
    if j < k {
      NumberHere(s, i, j + 1, k, acc * 10 + (s[j] as int - '0' as int));
    }
  }

  lemma {:induction false} AfterWordHere(s: string, i: nat, j: nat, n: nat)
    requires i <= j <= |s|
    ensures AfterWord(s, j, n) == i + AfterWord(s[i..], j - i, n)
    decreases |s| - j
  {
    if j < |s| && (IsAlpha(s[j]) || (IsDigit(s[j]) && n < 63)) {
      AfterWordHere(s, i, j + 1, n + 1);
    }
  }

  lemma {:induction false} QuotedHere(s: string, i: nat, j: nat, q: char, acc: string)
    requires i <= j <= |s|
    ensures var here := Quoted(s[i..], j - i, q, acc);
            Quoted(s, j, q, acc) == (here.0, i + here.1)
    decreases |s| - j
  {
    if j < |s| && s[j] != q {
      var esc := s[j] == '\\' && j + 1 < |s|;
      var c := if esc then Escaped(s[j + 1]) else s[j];
      QuotedHere(s, i, if esc then j + 2 else j + 1, q, acc + [c]);
    }
  }

  /** A piece that starts n places further on. */
  function Moved(p: Piece, n: nat): Piece {
    match p
    case Blank(next) => Blank(next + n)
    case Lexeme(tok, next) => Lexeme(tok, next + n)
    case Unknown => Unknown
  }

  lemma PieceHere(s: string, i: nat)
    requires i < |s| && s[i] != '\n'
    ensures PieceAt(s, i) == Moved(PieceAt(s[i..], 0), i)
  {
    var c, t := s[i], s[i..];
    assert t[0] == c && (i + 1 < |s| ==> t[1] == s[i + 1]);
    if c == '#' {
      LineEndHere(s, i, i + 1);
    } else if IsDigit(c) {
      AfterDigitsHere(s, i, i + 1);
      NumberHere(s, i, i, AfterDigits(s, i + 1), 0);
    } else if c == '"' || c == '\'' {
      QuotedHere(s, i, i + 1, c, "");
    } else if IsAlpha(c) {
      AfterWordHere(s, i, i, 0);
      assert s[i..AfterWord(s, i, 0)] == t[0..AfterWord(t, 0, 0)];
    }
  }

  /** The same text from i on in one source and from j on in another. */
  predicate SameText(s: string, i: nat, t: string, j: nat) {
    i <= |s| && j <= |t| && s[i..] == t[j..]
  }

  lemma SameFurther(s: string, i: nat, t: string, j: nat, n: nat)
    requires SameText(s, i, t, j) && i + n <= |s|
    ensures SameText(s, i + n, t, j + n)
  {
    DropDrop(s, i, n);
    DropDrop(t, j, n);
  }

  lemma SameStart(s: string, i: nat, t: string, j: nat)
    requires SameText(s, i, t, j)
    ensures i == |s| <==> j == |t|
    ensures i < |s| ==> s[i] == t[j]
  {
    if i < |s| {
      assert s[i] == s[i..][0] && t[j] == t[j..][0];
    }
  }

  lemma SamePiece(s: string, i: nat, t: string, j: nat) returns (p: Piece)
    requires SameText(s, i, t, j) && i < |s| && s[i] != '\n' && j < |t| && t[j] == s[i]
    ensures PieceAt(s, i) == Moved(p, i) && PieceAt(t, j) == Moved(p, j)
    ensures !p.Unknown? ==> 0 < p.next && i + p.next <= |s| && j + p.next <= |t|
  {
    p := PieceAt(s[i..], 0);
    PieceHere(s, i);
    PieceHere(t, j);
  }

  /** The tokens from a place in the middle of a line on. */
  ghost function RestFrom(s: string, i: nat, stack: seq<nat>): Lexed
    requires i <= |s| && StackOk(stack)
  {
    RestOfLine(s, i, stack)
  }

  /** The tokens from the start of a line on. */
  ghost function LinesFrom(s: string, i: nat, stack: seq<nat>): Lexed
    requires i <= |s| && StackOk(stack)
  {
    Lines(s, i, stack)
  }

  lemma {:induction false} SameRest(s: string, i: nat, t: string, j: nat, stack: seq<nat>)
    requires SameText(s, i, t, j) && StackOk(stack)
    ensures RestFrom(s, i, stack) == RestFrom(t, j, stack)
    decreases |s| - i, 1
  {
    SameStart(s, i, t, j);
    if i < |s| && s[i] == '\n' {
      SameNewline(s, i, t, j, stack);
    } else if i < |s| {
      SamePieces(s, i, t, j, stack);
    }
  }

  lemma {:induction false} SameNewline(s: string, i: nat, t: string, j: nat, stack: seq<nat>)
    requires SameText(s, i, t, j) && StackOk(stack) && i < |s| && j < |t| && s[i] == t[j] == '\n'
    ensures RestFrom(s, i, stack) == RestFrom(t, j, stack)
    decreases |s| - i, 0
  {
    SameFurther(s, i, t, j, 1);
    SameLines(s, i + 1, t, j + 1, stack);
  }

  lemma {:induction false} SamePieces(s: string, i: nat, t: string, j: nat, stack: seq<nat>)
    requires SameText(s, i, t, j) && StackOk(stack) && i < |s| && j < |t| && s[i] == t[j] != '\n'
    ensures RestFrom(s, i, stack) == RestFrom(t, j, stack)
    decreases |s| - i, 0
  {
    var p := SamePiece(s, i, t, j);
    if p.Unknown? {
      RestIs(s, i, stack);
      RestIs(t, j, stack);
    } else {
      SameFurther(s, i, t, j, p.next);
      SameRest(s, i + p.next, t, j + p.next, stack);
      SameAfter(s, i, t, j, p, stack);
    }
  }

  /** A piece, and the rest of the line after it. */
  function AfterPiece(s: string, p: Piece, stack: seq<nat>): Lexed
    requires StackOk(stack) && (!p.Unknown? ==> p.next <= |s|)
  {
    match p
    case Unknown => LexError
    case Blank(next) => RestOfLine(s, next, stack)
    case Lexeme(tok, next) => Then([tok], RestOfLine(s, next, stack))
  }

  lemma RestIs(s: string, i: nat, stack: seq<nat>)
    requires i < |s| && s[i] != '\n' && StackOk(stack)
    ensures RestOfLine(s, i, stack) == AfterPiece(s, PieceAt(s, i), stack)
  {
  }

  lemma SameAfter(s: string, i: nat, t: string, j: nat, p: Piece, stack: seq<nat>)
    requires i < |s| && j < |t| && s[i] != '\n' && t[j] != '\n' && StackOk(stack)
    requires PieceAt(s, i) == Moved(p, i) && PieceAt(t, j) == Moved(p, j) && !p.Unknown?
    requires i + p.next <= |s| && j + p.next <= |t|
    requires RestFrom(s, i + p.next, stack) == RestFrom(t, j + p.next, stack)
    ensures RestFrom(s, i, stack) == RestFrom(t, j, stack)
  {
    RestIs(s, i, stack);
    RestIs(t, j, stack);
  }

  /** The column and the first character after the indentation. */
  lemma IndentHere(s: string, i: nat)
    requires i <= |s|
    ensures AfterIndent(s, i) == i + AfterIndent(s[i..], 0) && IndentAt(s, i) == IndentAt(s[i..], 0)
  {
    AfterAllHere(s, i, i, ' ');
    AfterAllHere(s, i, AfterAll(s, i, ' '), '\t');
  }

  /** A line with nothing but white space and perhaps a comment. */
  predicate IsEmptyLine(s: string, i: nat)
    requires i <= |s|
  {
    var j := AfterIndent(s, i);
    j == |s| || s[j] == '\n' || s[j] == '#'
  }

  /** Where the next line starts. */
  function NextLine(s: string, i: nat): (j: nat)
    requires i < |s|
    ensures i < j <= |s|
  {
    Past(s, LineEnd(s, AfterIndent(s, i)))
  }

  /** An empty line gives no token. */
  lemma EmptySkips(s: string, i: nat, stack: seq<nat>)
    requires i < |s| && StackOk(stack) && IsEmptyLine(s, i)
    ensures Lines(s, i, stack) == Lines(s, NextLine(s, i), stack)
  {
  }

  lemma EmptyHere(s: string, i: nat)
    requires i < |s|
    ensures IsEmptyLine(s, i) == IsEmptyLine(s[i..], 0) && NextLine(s, i) == i + NextLine(s[i..], 0)
  {
    IndentHere(s, i);
    LineEndHere(s, i, AfterIndent(s, i));
  }

  lemma {:induction false} SameLines(s: string, i: nat, t: string, j: nat, stack: seq<nat>)
    requires SameText(s, i, t, j) && StackOk(stack)
    ensures LinesFrom(s, i, stack) == LinesFrom(t, j, stack)
    decreases |s| - i, 3
  {
    SameStart(s, i, t, j);
    if i < |s| {
      EmptyHere(s, i);
      EmptyHere(t, j);
      if IsEmptyLine(s, i) {
        var n := NextLine(s[i..], 0);
        EmptySkips(s, i, stack);
        EmptySkips(t, j, stack);
        SameFurther(s, i, t, j, n);
        SameLines(s, i + n, t, j + n, stack);
      } else {
        SameFull(s, i, t, j, stack);
      }
    }
  }

  lemma {:induction false} SameFull(s: string, i: nat, t: string, j: nat, stack: seq<nat>)
    requires SameText(s, i, t, j) && StackOk(stack) && i < |s| && j < |t| && !IsEmptyLine(s, i) && !IsEmptyLine(t, j)
    ensures LinesFrom(s, i, stack) == LinesFrom(t, j, stack)
    decreases |s| - i, 2
  {
    IndentHere(s, i);
    IndentHere(t, j);
    var n := AfterIndent(s[i..], 0);
    NewStackOk(stack, IndentAt(s, i));
    SameFurther(s, i, t, j, n);
    SameRest(s, i + n, t, j + n, NewStack(stack, IndentAt(s, i)));
  }

  // ---------------------------------------------------------------------
  // Comments

  /** The end of the string literal that s starts with. */
  function LiteralEnd(s: string): (j: nat)
    requires s != ""
    ensures 1 <= j <= |s|
  {
    Past(s, Quoted(s, 1, s[0], "").1)
  }

  /** The text without its comments: outside string literals everything from # to the end of the line is left out. */
  function Stripped(s: string): string
    decreases |s|
  {
    if s == "" then ""
    else if s[0] == '#' then Stripped(s[LineEnd(s, 1)..])
    else if s[0] == '"' || s[0] == '\'' then s[..LiteralEnd(s)] + Stripped(s[LiteralEnd(s)..])
    else [s[0]] + Stripped(s[1..])
  }

  /** It starts as the text does, unless the text starts with a comment; then a line ends there. */
  lemma {:induction false} StrippedStarts(s: string)
    ensures s != "" && s[0] != '#' ==> Stripped(s) != "" && Stripped(s)[0] == s[0]
    ensures s != "" && s[0] == '#' && Stripped(s) != "" ==> Stripped(s)[0] == '\n'
    decreases |s|
  {
    if s != "" && s[0] == '#' {
      StrippedStarts(s[LineEnd(s, 1)..]);
    }
  }

  /** A run of plain characters is left as it is. */
  lemma {:induction false} StrippedRun(s: string, j: nat)
    requires j <= |s| && forall k :: 0 <= k < j ==> s[k] != '#' && s[k] != '"' && s[k] != '\''
    ensures Stripped(s) == s[..j] + Stripped(s[j..])
    decreases j
  {
    if j > 0 {
      StrippedRun(s[1..], j - 1);
      assert s[1..][j - 1..] == s[j..] && s[..j] == [s[0]] + s[1..][..j - 1];
    }
  }

  /** The stripped text agrees with the text up to n, and what comes then is stripped. */
  predicate AgreesTo(s: string, x: string, n: nat) {
    n <= |s| && n <= |x| && x[..n] == s[..n] && x[n..] == Stripped(s[n..])
  }

  /** What comes then is the next character, or the end of the line where a comment starts. */
  lemma NextChar(s: string, x: string, n: nat)
    requires AgreesTo(s, x, n)
    ensures n < |s| && s[n] != '#' ==> n < |x| && x[n] == s[n]
    ensures n == |s| || s[n] == '#' ==> n == |x| || x[n] == '\n'
    ensures forall k :: 0 <= k < n ==> x[k] == s[k]
  {
    StrippedStarts(s[n..]);
    assert n < |x| ==> x[n] == x[n..][0];
    assert forall k :: 0 <= k < n ==> x[..n][k] == s[..n][k];
  }

  lemma RunAgrees(s: string, n: nat)
    requires n <= |s| && forall k :: 0 <= k < n ==> s[k] != '#' && s[k] != '"' && s[k] != '\''
    ensures AgreesTo(s, Stripped(s), n)
  {
    StrippedRun(s, n);
    assert (s[..n] + Stripped(s[n..]))[..n] == s[..n];
    assert (s[..n] + Stripped(s[n..]))[n..] == Stripped(s[n..]);
  }

  lemma {:induction false} DigitsKept(s: string, x: string, i: nat, n: nat)
    requires i <= |s| && n == AfterDigits(s, i) && n <= |x| && forall k :: i <= k < n ==> x[k] == s[k]
    requires n == |x| || !IsDigit(x[n])
    ensures AfterDigits(x, i) == n
    decreases n - i
  {
    if i < n {
      DigitsKept(s, x, i + 1, n);
    }
  }

  lemma {:induction false} DigitRun(s: string, i: nat)
    requires i <= |s|
    ensures forall k :: i <= k < AfterDigits(s, i) ==> IsDigit(s[k])
    ensures AfterDigits(s, i) < |s| ==> !IsDigit(s[AfterDigits(s, i)])
    decreases |s| - i
  {
    if i < |s| && IsDigit(s[i]) {
      DigitRun(s, i + 1);
    }
  }

  lemma {:induction false} NumberKept(s: string, x: string, i: nat, n: nat, acc: int)
    requires i <= n <= |s| && n <= |x| && forall k :: i <= k < n ==> x[k] == s[k]
    ensures Number(x, i, n, acc) == Number(s, i, n, acc)
    decreases n - i
  {
    if i < n {
      NumberKept(s, x, i + 1, n, acc * 10 + (s[i] as int - '0' as int));
    }
  }

  lemma {:induction false} WordKept(s: string, x: string, i: nat, c: nat, n: nat)
    requires i <= |s| && n == AfterWord(s, i, c) && n <= |x| && forall k :: i <= k < n ==> x[k] == s[k]
    requires n < |s| && s[n] != '#' ==> n < |x| && x[n] == s[n]
    requires n == |s| || s[n] == '#' ==> n == |x| || x[n] == '\n'
    ensures AfterWord(x, i, c) == n
    decreases n - i
  {
    if i < n {
      WordKept(s, x, i + 1, c + 1, n);
    }
  }

  lemma {:induction false} WordRun(s: string, i: nat, c: nat)
    requires i <= |s|
    ensures forall k :: i <= k < AfterWord(s, i, c) ==> IsAlpha(s[k]) || IsDigit(s[k])
    decreases |s| - i
  {
    if i < |s| && (IsAlpha(s[i]) || (IsDigit(s[i]) && c < 63)) {
      WordRun(s, i + 1, c + 1);
    }
  }

  lemma {:induction false} QuotedKept(s: string, x: string, i: nat, q: char, acc: string)
    requires i <= |s|
    requires var n := Quoted(s, i, q, acc).1; if n == |s| then x == s else n < |x| && x[..n + 1] == s[..n + 1]
    ensures Quoted(x, i, q, acc) == Quoted(s, i, q, acc)
    decreases |s| - i
  {
    var n := Quoted(s, i, q, acc).1;
    if n < |s| {
      assert forall k {:trigger x[k]} :: 0 <= k <= n ==> x[k] == x[..n + 1][k] == s[k];
      if s[i] != q {
        var esc := s[i] == '\\' && i + 1 < |s|;
        var c := if esc then Escaped(s[i + 1]) else s[i];
        if |acc| + 1 < 255 {
          QuotedKept(s, x, if esc then i + 2 else i + 1, q, acc + [c]);
        }
      }
    }
  }

  // ---------------------------------------------------------------------
  // A piece of the stripped text

  lemma NumberPiece(s: string, x: string)
    requires s != "" && IsDigit(s[0]) && x == Stripped(s)
    ensures x != "" && PieceAt(x, 0) == PieceAt(s, 0) && AgreesTo(s, x, PieceAt(s, 0).next)
  {
    var n := AfterDigits(s, 1);
    DigitRun(s, 1);
    RunAgrees(s, n);
    NextChar(s, x, n);
    DigitsKept(s, x, 1, n);
    NumberKept(s, x, 0, n, 0);
  }

  lemma WordPiece(s: string, x: string)
    requires s != "" && IsAlpha(s[0]) && x == Stripped(s)
    ensures x != "" && PieceAt(x, 0) == PieceAt(s, 0) && AgreesTo(s, x, PieceAt(s, 0).next)
  {
    var n := AfterWord(s, 0, 0);
    WordRun(s, 0, 0);
    RunAgrees(s, n);
    NextChar(s, x, n);
    WordKept(s, x, 0, 0, n);
    assert x[0..n] == x[..n] && s[0..n] == s[..n];
  }

  lemma LiteralPiece(s: string, x: string)
    requires s != "" && (s[0] == '"' || s[0] == '\'') && x == Stripped(s)
    ensures x != "" && PieceAt(x, 0) == PieceAt(s, 0) && AgreesTo(s, x, PieceAt(s, 0).next)
  {
    var n := LiteralEnd(s);
    var q := Quoted(s, 1, s[0], "").1;
    assert (s[..n] + Stripped(s[n..]))[..n] == s[..n];
    assert (s[..n] + Stripped(s[n..]))[n..] == Stripped(s[n..]);
    if q == |s| {
      assert s[..n] == s && s[n..] == "";
      assert x == s;
    }
    NextChar(s, x, n);
    QuotedKept(s, x, 1, s[0], "");
  }

  /** Signs look at the next character only for an equals sign. */
  lemma SignNeedsEquals(c: char, d: char, e: char)
    requires (d == '=') == (e == '=')
    ensures SymbolAt(c, d) == SymbolAt(c, e)
    ensures SymbolAt(c, d).Symbol? && SymbolAt(c, d).len == 2 ==> d == '='
    ensures SymbolAt(c, d).Symbol? ==> 1 <= SymbolAt(c, d).len <= 2
  {
  }

  predicate IsSignChar(c: char) {
    c != ' ' && c != '\t' && c != '\n' && c != '#' && c != '"' && c != '\'' && !IsDigit(c) && !IsAlpha(c)
  }

  lemma SignPiece(s: string, x: string)
    requires s != "" && IsSignChar(s[0]) && x == Stripped(s)
    ensures x != "" && PieceAt(x, 0) == PieceAt(s, 0)
    ensures !PieceAt(s, 0).Unknown? ==> AgreesTo(s, x, PieceAt(s, 0).next)
  {
    RunAgrees(s, 1);
    NextChar(s, x, 1);
    var d, e := if 1 < |s| then s[1] else '\0', if 1 < |x| then x[1] else '\0';
    SignNeedsEquals(s[0], d, e);
    if SymbolAt(s[0], d).Symbol? && SymbolAt(s[0], d).len == 2 {
      RunAgrees(s, 2);
    }
  }

  /** Where no comment starts, the stripped text has the same piece, and goes on stripped. */
  lemma PieceKept(s: string, x: string)
    requires s != "" && s[0] != '\n' && s[0] != '#' && x == Stripped(s)
    ensures x != "" && x[0] == s[0] && PieceAt(x, 0) == PieceAt(s, 0)
    ensures !PieceAt(s, 0).Unknown? ==> AgreesTo(s, x, PieceAt(s, 0).next)
  {
    StrippedStarts(s);
    var c := s[0];
    if c == ' ' || c == '\t' {
      RunAgrees(s, 1);
    } else if IsDigit(c) {
      NumberPiece(s, x);
    } else if c == '"' || c == '\'' {
      LiteralPiece(s, x);
    } else if IsAlpha(c) {
      WordPiece(s, x);
    } else {
      SignPiece(s, x);
    }
  }

  // ---------------------------------------------------------------------
  // Lines of the stripped text

  /** From n on, the text and the stripped text have the same tokens, when what comes then has. */
  lemma RestAgrees(s: string, x: string, n: nat, stack: seq<nat>)
    requires AgreesTo(s, x, n) && StackOk(stack)
    requires RestFrom(Stripped(s[n..]), 0, stack) == RestFrom(s[n..], 0, stack)
    ensures RestFrom(x, n, stack) == RestFrom(s, n, stack)
  {
    assert x[n..] == x[n..][0..] && s[n..] == s[n..][0..];
    SameRest(s, n, s[n..], 0, stack);
    SameRest(x, n, x[n..], 0, stack);
  }

  lemma LinesAgree(s: string, x: string, n: nat, stack: seq<nat>)
    requires AgreesTo(s, x, n) && StackOk(stack)
    requires LinesFrom(Stripped(s[n..]), 0, stack) == LinesFrom(s[n..], 0, stack)
    ensures LinesFrom(x, n, stack) == LinesFrom(s, n, stack)
  {
    assert x[n..] == x[n..][0..] && s[n..] == s[n..][0..];
    SameLines(s, n, s[n..], 0, stack);
    SameLines(x, n, x[n..], 0, stack);
  }

  lemma {:induction false} StrippedRest(s: string, stack: seq<nat>)
    requires StackOk(stack)
    ensures RestFrom(Stripped(s), 0, stack) == RestFrom(s, 0, stack)
    decreases |s|, 1
  {
    if s != "" && s[0] == '\n' {
      RunAgrees(s, 1);
      StrippedLines(s[1..], stack);
      LinesAgree(s, Stripped(s), 1, stack);
    } else if s != "" && s[0] == '#' {
      CommentSkipped(s, stack);
      StrippedRest(s[LineEnd(s, 1)..], stack);
    } else if s != "" {
      StrippedPiece(s, stack);
    }
  }

  /** A comment gives no token. */
  lemma CommentSkipped(s: string, stack: seq<nat>)
    requires s != "" && s[0] == '#' && StackOk(stack)
    ensures RestFrom(s, 0, stack) == RestFrom(s[LineEnd(s, 1)..], 0, stack)
  {
    var n := LineEnd(s, 1);
    assert s[n..] == s[n..][0..];
    SameRest(s, n, s[n..], 0, stack);
    RestIs(s, 0, stack);
  }

  lemma {:induction false} StrippedPiece(s: string, stack: seq<nat>)
    requires StackOk(stack) && s != "" && s[0] != '\n' && s[0] != '#'
    ensures RestFrom(Stripped(s), 0, stack) == RestFrom(s, 0, stack)
    decreases |s|, 0
  {
    var x := Stripped(s);
    PieceKept(s, x);
    var p := PieceAt(s, 0);
    RestIs(s, 0, stack);
    RestIs(x, 0, stack);
    if !p.Unknown? {
      StrippedRest(s[p.next..], stack);
      RestAgrees(s, x, p.next, stack);
    }
  }

  lemma {:induction false} AllKept(s: string, x: string, i: nat, c: char, n: nat)
    requires i <= |s| && n == AfterAll(s, i, c) && n <= |x| && (n == |x| || x[n] != c)
    requires forall k :: i <= k < n ==> x[k] == s[k]
    ensures AfterAll(x, i, c) == n
    decreases n - i
  {
    if i < n {
      AllKept(s, x, i + 1, c, n);
    }
  }

  lemma {:induction false} AllRun(s: string, i: nat, c: char)
    requires i <= |s|
    ensures forall k :: i <= k < AfterAll(s, i, c) ==> s[k] == c
    decreases |s| - i
  {
    if i < |s| && s[i] == c {
      AllRun(s, i + 1, c);
    }
  }

  /** The indentation is the same, and the stripped text goes on stripped after it. */
  lemma IndentKept(s: string, x: string)
    requires x == Stripped(s)
    ensures AgreesTo(s, x, AfterIndent(s, 0))
    ensures AfterIndent(x, 0) == AfterIndent(s, 0) && IndentAt(x, 0) == IndentAt(s, 0)
  {
    var a, j := AfterAll(s, 0, ' '), AfterIndent(s, 0);
    AllRun(s, 0, ' ');
    AllRun(s, a, '\t');
    RunAgrees(s, j);
    NextChar(s, x, j);
    if a < j {
      assert x[a] == s[a];
    }
    AllKept(s, x, 0, ' ', a);
    AllKept(s, x, a, '\t', j);
  }

  /** An empty line stays one, and the next line starts stripped. */
  lemma EmptyKept(s: string, x: string)
    requires x == Stripped(s) && s != "" && IsEmptyLine(s, 0) && x != ""
    ensures IsEmptyLine(x, 0) && x[NextLine(x, 0)..] == Stripped(s[NextLine(s, 0)..])
  {
    IndentKept(s, x);
    var j := AfterIndent(s, 0);
    var m := LineEnd(s, j);
    NextChar(s, x, j);
    StrippedToEnd(s, j);
    assert x[j..] == Stripped(s[m..]);
    if m < |s| {
      assert s[m..][1..] == s[m + 1..];
      assert s[m..][0] == '\n';
      assert x[j..] == "\n" + Stripped(s[m + 1..]);
      assert x[j] == x[j..][0] && x[j + 1..] == x[j..][1..];
    } else {
      assert s[m..] == "" && |x| == j;
    }
  }

  lemma CommentGone(t: string)
    requires t != "" && t[0] == '#'
    ensures Stripped(t) == Stripped(t[LineEnd(t, 1)..])
  {
  }

  /** From an empty place of a line on, the line is stripped away. */
  lemma StrippedToEnd(s: string, j: nat)
    requires j <= |s| && (j == |s| || s[j] == '\n' || s[j] == '#')
    ensures Stripped(s[j..]) == Stripped(s[LineEnd(s, j)..])
  {
    if j < |s| && s[j] == '#' {
      LineEndHere(s, j, j + 1);
      DropDrop(s, j, LineEnd(s[j..], 1));
      CommentGone(s[j..]);
    }
  }

  lemma {:induction false} StrippedLines(s: string, stack: seq<nat>)
    requires StackOk(stack)
    ensures LinesFrom(Stripped(s), 0, stack) == LinesFrom(s, 0, stack)
    decreases |s|, 3
  {
    if s != "" && IsEmptyLine(s, 0) {
      StrippedEmpty(s, stack);
    } else if s != "" {
      StrippedFull(s, stack);
    }
  }

  lemma {:induction false} StrippedEmpty(s: string, stack: seq<nat>)
    requires StackOk(stack) && s != "" && IsEmptyLine(s, 0)
    ensures LinesFrom(Stripped(s), 0, stack) == LinesFrom(s, 0, stack)
    decreases |s|, 0
  {
    var x, n := Stripped(s), NextLine(s, 0);
    assert s[n..] == s[n..][0..];
    EmptySkips(s, 0, stack);
    SameLines(s, n, s[n..], 0, stack);
    StrippedLines(s[n..], stack);
    if x != "" {
      EmptyKept(s, x);
      var m := NextLine(x, 0);
      assert x[m..] == x[m..][0..];
      EmptySkips(x, 0, stack);
      SameLines(x, m, x[m..], 0, stack);
    } else {
      NothingLeft(s);
    }
  }

  /** Of a text that is one comment nothing is left, and nothing comes after it. */
  lemma NothingLeft(s: string)
    requires s != "" && IsEmptyLine(s, 0) && Stripped(s) == ""
    ensures Stripped(s[NextLine(s, 0)..]) == ""
  {
    IndentKept(s, "");
    assert AfterIndent(s, 0) == 0;
    StrippedToEnd(s, 0);
    assert s[0..] == s;
    var m := LineEnd(s, 0);
    if m < |s| {
      assert s[m..][0] == '\n';
    }
  }

  lemma {:induction false} StrippedFull(s: string, stack: seq<nat>)
    requires StackOk(stack) && s != "" && !IsEmptyLine(s, 0)
    ensures LinesFrom(Stripped(s), 0, stack) == LinesFrom(s, 0, stack)
    decreases |s|, 2
  {
    var x, j := Stripped(s), AfterIndent(s, 0);
    IndentKept(s, x);
    NextChar(s, x, j);
    NewStackOk(stack, IndentAt(s, 0));
    var stack' := NewStack(stack, IndentAt(s, 0));
    StrippedRest(s[j..], stack');
    RestAgrees(s, x, j, stack');
    FullIs(s, stack);
    FullIs(x, stack);
  }

  lemma FullIs(s: string, stack: seq<nat>)
    requires StackOk(stack) && s != "" && !IsEmptyLine(s, 0) && StackOk(NewStack(stack, IndentAt(s, 0)))
    ensures LinesFrom(s, 0, stack) ==
            Then(IndentTokens(stack, IndentAt(s, 0)), RestFrom(s, AfterIndent(s, 0), NewStack(stack, IndentAt(s, 0))))
  {
  }

  /** Comments are ignored: a source text has the tokens of the text without its comments. */
  lemma CommentsIgnored(s: string)
    ensures Source(Stripped(s)) == Source(s)
  {
    StrippedLines(s, [0]);
  }

  // ---------------------------------------------------------------------
  // Quotes

  /** The text x between two quotes q. */
  function InQuotes(q: char, x: string): string {
    [q] + x + [q]
  }

  lemma {:induction false} PlainQuoted(s: string, i: nat, q: char, x: string, k: nat)
    requires k <= |x| <= 255 && k < 255 && i == k + 1 && |x| + 2 <= |s| && s[..|x| + 2] == InQuotes(q, x)
    requires q !in x && '\\' !in x
    ensures Quoted(s, i, q, x[..k]) == (x, |x| + 1)
    decreases |x| - k
  {
    assert forall j {:trigger s[j]} :: 0 <= j < |x| + 2 ==> s[j] == InQuotes(q, x)[j];
    if k == |x| {
      assert x[..k] == x;
    } else {
      assert s[i] == x[k] && x[k] in x;
      assert x[..k] + [x[k]] == x[..k + 1];
      if k + 1 < 255 {
        PlainQuoted(s, i + 1, q, x, k + 1);
      } else {
        assert x[..k + 1] == x;
      }
    }
  }

  /** A string literal may be written in single or in double quotes; text without that quote and backslash is itself. */
  lemma EitherQuote(q: char, x: string, more: string)
    requires (q == '"' || q == '\'') && |x| <= 255 && q !in x && '\\' !in x
    ensures PieceAt(InQuotes(q, x) + more, 0) == Lexeme(StrTok(x), |x| + 2)
  {
    var s := InQuotes(q, x) + more;
    assert s[..|x| + 2] == InQuotes(q, x);
    assert s[0] == q && s[|x| + 1] == q;
    PlainQuoted(s, 1, q, x, 0);
    assert x[..0] == "";
  }

  lemma {:induction false} QuotedAlike(s: string, t: string, i: nat, n: nat, acc: string)
    requires 1 <= i <= n < |s| == |t| && s[n] == '"' && t[n] == '\'' && (n > 1 ==> s[n - 1] != '\\')
    requires forall k :: 1 <= k < n ==> s[k] == t[k] && s[k] != '"' && s[k] != '\''
    ensures Quoted(s, i, '"', acc) == Quoted(t, i, '\'', acc) && Quoted(s, i, '"', acc).1 <= n
    decreases n - i
  {
    if i < n {
      var esc := s[i] == '\\';
      var c := if esc then Escaped(s[i + 1]) else s[i];
      if |acc| + 1 < 255 {
        QuotedAlike(s, t, if esc then i + 2 else i + 1, n, acc + [c]);
      }
    }
  }

  /** Escapes included, a literal without quotes inside reads the same in single and in double quotes. */
  lemma QuotesAlike(x: string, more: string)
    requires '"' !in x && '\'' !in x && (x != "" ==> x[|x| - 1] != '\\')
    ensures PieceAt(InQuotes('"', x) + more, 0) == PieceAt(InQuotes('\'', x) + more, 0)
  {
    var s, t := InQuotes('"', x) + more, InQuotes('\'', x) + more;
    forall k | 1 <= k < |x| + 1
      ensures s[k] == t[k] && s[k] != '"' && s[k] != '\''
    {
      assert s[k] == x[k - 1] && x[k - 1] in x;
    }
    QuotedAlike(s, t, 1, |x| + 1, "");
  }

  // ---------------------------------------------------------------------
  // White space

  function Run(c: char, n: nat): (s: string)
    ensures |s| == n && forall k :: 0 <= k < n ==> s[k] == c
  {
    seq(n, k => c)
  }

  /** White space in front of what follows: a spaces, then b tabs. */
  function Indented(a: nat, b: nat, x: string): string {
    Run(' ', a) + Run('\t', b) + x
  }

  lemma {:induction false} AllCounted(s: string, i: nat, c: char, n: nat)
    requires i <= n <= |s| && (forall k :: i <= k < n ==> s[k] == c) && (n == |s| || s[n] != c)
    ensures AfterAll(s, i, c) == n
    decreases n - i
  {
    if i < n {
      AllCounted(s, i + 1, c, n);
    }
  }

  /** Indentation: a space counts one, and a tab four. */
  lemma IndentCounts(a: nat, b: nat, x: string)
    requires x == "" || (x[0] != ' ' && x[0] != '\t')
    ensures AfterIndent(Indented(a, b, x), 0) == a + b && IndentAt(Indented(a, b, x), 0) == a + 4 * b
    ensures Indented(a, b, x)[a + b..] == x
  {
    var s := Indented(a, b, x);
    assert a + b < |s| ==> s[a + b] == x[0];
    AllCounted(s, 0, ' ', a);
    AllCounted(s, a, '\t', a + b);
  }

  /** A line that holds nothing but spaces, and tabs after them, adds no token. */
  lemma BlankLineIgnored(a: nat, b: nat, rest: string, stack: seq<nat>)
    requires StackOk(stack)
    ensures LinesFrom(Indented(a, b, "\n" + rest), 0, stack) == LinesFrom(rest, 0, stack)
  {
    var s := Indented(a, b, "\n" + rest);
    IndentCounts(a, b, "\n" + rest);
    assert s[a + b] == s[a + b..][0];
    assert s[a + b + 1..] == s[a + b..][1..] == rest[0..];
    EmptyThen(s, a + b + 1, rest, stack);
  }

  /** An empty line, and what comes after it. */
  lemma EmptyThen(s: string, n: nat, rest: string, stack: seq<nat>)
    requires StackOk(stack) && s != "" && IsEmptyLine(s, 0) && n == NextLine(s, 0) && SameText(s, n, rest, 0)
    ensures LinesFrom(s, 0, stack) == LinesFrom(rest, 0, stack)
  {
    EmptySkips(s, 0, stack);
    SameLines(s, n, rest, 0, stack);
  }

  /** A tab in front of a line stands for four spaces. */
  lemma TabsAreSpaces(a: nat, b: nat, x: string, stack: seq<nat>)
    requires StackOk(stack) && (x == "" || (x[0] != ' ' && x[0] != '\t'))
    ensures LinesFrom(Indented(a, b, x), 0, stack) == LinesFrom(Indented(a + 4 * b, 0, x), 0, stack)
  {
    var s, t := Indented(a, b, x), Indented(a + 4 * b, 0, x);
    IndentCounts(a, b, x);
    IndentCounts(a + 4 * b, 0, x);
    if x == "" {
      OnlyBlanks(s, stack);
      OnlyBlanks(t, stack);
    } else {
      assert s[a + b] == s[a + b..][0] && t[a + 4 * b] == t[a + 4 * b..][0];
      SameAfterIndent(s, t, stack);
    }
  }

  lemma OnlyBlanks(s: string, stack: seq<nat>)
    requires StackOk(stack) && AfterIndent(s, 0) == |s|
    ensures LinesFrom(s, 0, stack) == Finish(stack)
  {
    if s != "" {
      EmptySkips(s, 0, stack);
    }
  }

  /** Lines of the same column that go on alike have the same tokens. */
  lemma SameAfterIndent(s: string, t: string, stack: seq<nat>)
    requires StackOk(stack) && s != "" && t != "" && IndentAt(s, 0) == IndentAt(t, 0)
    requires SameText(s, AfterIndent(s, 0), t, AfterIndent(t, 0)) && AfterIndent(s, 0) < |s|
    ensures LinesFrom(s, 0, stack) == LinesFrom(t, 0, stack)
  {
    var i, j := AfterIndent(s, 0), AfterIndent(t, 0);
    SameStart(s, i, t, j);
    if IsEmptyLine(s, 0) {
      LineEndHere(s, i, i);
      LineEndHere(t, j, j);
      var n := NextLine(s, 0) - i;
      SameFurther(s, i, t, j, n);
      assert t[j + n..] == t[j + n..][0..];
      EmptyThen(s, i + n, t[j + n..], stack);
      EmptyThen(t, j + n, t[j + n..], stack);
    } else {
      NewStackOk(stack, IndentAt(s, 0));
      FullIs(s, stack);
      FullIs(t, stack);
      SameRest(s, i, t, j, NewStack(stack, IndentAt(s, 0)));
    }
  }

  /** Spaces and tabs inside a line add no token. */
  lemma {:induction false} BlanksIgnored(w: string, x: string, stack: seq<nat>)
    requires StackOk(stack) && forall k :: 0 <= k < |w| ==> w[k] == ' ' || w[k] == '\t'
    ensures RestFrom(w + x, 0, stack) == RestFrom(x, 0, stack)
    decreases |w|
  {
    if w == "" {
      assert w + x == x;
    } else {
      RestIs(w + x, 0, stack);
      BlanksIgnored(w[1..], x, stack);
      assert (w + x)[1..] == (w[1..] + x)[0..];
      SameRest(w + x, 1, w[1..] + x, 0, stack);
    }
  }

  /** A tab with a space after it does count as a line: it opens a block and gives an empty statement line. */
  lemma BlankLineThatCounts()
    ensures Source("\t \n") == Tokens([Indent, Newline, Dedent, Eof])
  {
    var s := "\t \n";
    assert IndentAt(s, 0) == 4 && AfterIndent(s, 0) == 1;
    assert Lines(s, 3, [0, 4]) == Tokens([Dedent, Eof]);
    assert RestOfLine(s, 2, [0, 4]) == Tokens([Newline, Dedent, Eof]);
    assert RestOfLine(s, 1, [0, 4]) == RestOfLine(s, 2, [0, 4]);
  }
}
