// Format strings: which texts are directives, and what a whole format string prints.

module FormatStrings {
  import opened Basics
  import opened Options
  import opened NumberFormat

  // ---------------------------------------------------------------------
  // Directives

  datatype Width = NoWidth | Width(w: nat) | StarWidth
  datatype Precision = NoPrec | Prec(p: nat) | StarPrec | Negative(p: nat)
  datatype Length = Plain | Long | LongDouble
  datatype Kind = Integer(conv: Conv) | Percent | Character | Text | Pointer | Floating(letter: char)

  datatype Directive = Directive(left: bool, zero: bool, sign: string, width: Width, prec: Precision,
                                 length: Length, upper: bool, kind: Kind)

  predicate IsFlag(c: char) {
    c == '-' || c == '0' || c == '+' || c == ' '
  }

  predicate AllFlags(s: string) {
    forall k :: 0 <= k < |s| ==> IsFlag(s[k])
  }

  predicate AllDigits(s: string) {
    forall k :: 0 <= k < |s| ==> IsDigit(s[k])
  }

  /** What a conversion letter asks for, and whether in upper case. */
  function ConvOf(c: char): (r: Option<(Kind, bool)>)
    ensures r.Some? ==> c != '*' && c != '.' && c != 'l' && c != 'L' && !IsFlag(c) && !IsDigit(c)
  {
    match c
    case '%' => Some((Percent, false))
    case 'c' => Some((Character, false))
    case 's' => Some((Text, false))
    case 'i' => Some((Integer(Signed), false))
    case 'd' => Some((Integer(Signed), false))
    case 'o' => Some((Integer(Octal), false))
    case 'u' => Some((Integer(Unsigned), false))
    case 'x' => Some((Integer(Hex), false))
    case 'X' => Some((Integer(Hex), true))
    case 'b' => Some((Integer(Binary), false))
    case 'B' => Some((Integer(Binary), true))
    case 'p' => Some((Pointer, false))
    case 'f' => Some((Floating('f'), false))
    case 'F' => Some((Floating('f'), true))
    case 'e' => Some((Floating('e'), false))
    case 'E' => Some((Floating('e'), true))
    case 'g' => Some((Floating('g'), false))
    case 'G' => Some((Floating('g'), true))
    case _ => None
  }

  /** The sign flag: plus wins over space, whatever their order. */
  function SignFlag(flags: string): string {
    if '+' in flags then "+" else if ' ' in flags then " " else ""
  }

  /** A width is a star, or a number without leading zero, which would be a flag. */
  predicate WidthText(s: string, x: Width) {
    match x
    case NoWidth => s == ""
    case StarWidth => s == "*"
    case Width(w) => s != "" && AllDigits(s) && s[0] != '0' && Worth(s, 10) == w
  }

  /** A precision is a dot with a star, with a number, or with a minus sign and a number; numbers may be empty. */
  predicate PrecText(s: string, x: Precision) {
    match x
    case NoPrec => s == ""
    case StarPrec => s == ".*"
    case Prec(p) => s != "" && s[0] == '.' && AllDigits(s[1..]) && Worth(s[1..], 10) == p
    case Negative(p) => |s| >= 2 && s[0] == '.' && s[1] == '-' && AllDigits(s[2..]) && Worth(s[2..], 10) == p
  }

  function LengthText(x: Length): string {
    match x
    case Plain => ""
    case Long => "l"
    case LongDouble => "L"
  }

  datatype Parts = Parts(flags: string, width: string, prec: string, conv: char)

  /** The text from s[0] to s[n] is the directive d, made of these parts. */
  ghost predicate MadeOf(s: string, n: nat, d: Directive, parts: Parts) {
    var a := 1 + |parts.flags|;
    var b := a + |parts.width|;
    var c := b + |parts.prec|;
    var e := c + |LengthText(d.length)|;
    n == e + 1 <= |s| && s[0] == '%' &&
    s[1..a] == parts.flags && s[a..b] == parts.width && s[b..c] == parts.prec && s[c..e] == LengthText(d.length) &&
        s[e] == parts.conv &&
    AllFlags(parts.flags) && d.left == ('-' in parts.flags) && d.zero == ('0' in parts.flags) &&
        d.sign == SignFlag(parts.flags) &&
    WidthText(parts.width, d.width) && PrecText(parts.prec, d.prec) && ConvOf(parts.conv) == Some((d.kind, d.upper))
  }

  /** The first n characters of s are the directive d. */
  ghost predicate Denotes(s: string, n: nat, d: Directive) {
    exists parts :: MadeOf(s, n, d, parts)
  }

  // ---------------------------------------------------------------------
  // The parser

  /** The first place from i on that is no flag. */
  function FlagsEnd(s: string, i: nat): (j: nat)
    requires i <= |s|
    ensures i <= j <= |s| && AllFlags(s[i..j]) && (j < |s| ==> !IsFlag(s[j]))
    decreases |s| - i
  {
    if i < |s| && IsFlag(s[i]) then FlagsEnd(s, i + 1) else i
  }

  /** The first place from i on that is no digit. */
  function DigitsEnd(s: string, i: nat): (j: nat)
    requires i <= |s|
    ensures i <= j <= |s| && AllDigits(s[i..j]) && (j < |s| ==> !IsDigit(s[j]))
    decreases |s| - i
  {
    if i < |s| && IsDigit(s[i]) then DigitsEnd(s, i + 1) else i
  }

  lemma {:induction false} FlagsEndIs(s: string, i: nat, j: nat)
    requires i <= j < |s| && AllFlags(s[i..j]) && !IsFlag(s[j])
    ensures FlagsEnd(s, i) == j
    decreases j - i
  {
    if i < j {
      assert s[i..j][0] == s[i] && s[i + 1..j] == s[i..j][1..];
      FlagsEndIs(s, i + 1, j);
    }
  }

  lemma {:induction false} DigitsEndIs(s: string, i: nat, j: nat)
    requires i <= j < |s| && AllDigits(s[i..j]) && !IsDigit(s[j])
    ensures DigitsEnd(s, i) == j
    decreases j - i
  {
    if i < j {
      assert s[i..j][0] == s[i] && s[i + 1..j] == s[i..j][1..];
      DigitsEndIs(s, i + 1, j);
    }
  }

  lemma {:induction false} WorthOfDigits(s: string)
    requires AllDigits(s)
    ensures Worth(s, 10) >= 0
    decreases |s|
  {
    if s != "" {
      WorthOfDigits(s[..|s| - 1]);
    }
  }

  function Number(s: string, i: nat): (n: nat)
    requires i <= |s|
  {
    WorthOfDigits(s[i..DigitsEnd(s, i)]);
    Worth(s[i..DigitsEnd(s, i)], 10)
  }

  function ScanWidth(s: string, a: nat): (r: (Width, nat))
    requires a <= |s|
    ensures a <= r.1 <= |s|
  {
    if a < |s| && s[a] == '*' then (StarWidth, a + 1)
    else if DigitsEnd(s, a) > a then (Width(Number(s, a)), DigitsEnd(s, a))
    else (NoWidth, a)
  }

  function ScanPrec(s: string, b: nat): (r: (Precision, nat))
    requires b <= |s|
    ensures b <= r.1 <= |s|
  {
    if b == |s| || s[b] != '.' then (NoPrec, b)
    else if b + 1 < |s| && s[b + 1] == '*' then (StarPrec, b + 2)
    else if b + 1 < |s| && s[b + 1] == '-' then (Negative(Number(s, b + 2)), DigitsEnd(s, b + 2))
    else (Prec(Number(s, b + 1)), DigitsEnd(s, b + 1))
  }

  function ScanLength(s: string, c: nat): (r: (Length, nat))
    requires c <= |s|
    ensures c <= r.1 <= |s|
  {
    if c < |s| && s[c] == 'l' then (Long, c + 1) else if c < |s| && s[c] == 'L' then (LongDouble, c + 1) else (Plain, c)
  }

  datatype Scanned = Found(d: Directive, n: nat) | NotOne

  /** npf_parse_format_spec, on a text that starts with a percent sign. */
  function Scan(s: string): (r: Scanned)
    requires s != ""
    ensures r.Found? ==> 1 < r.n <= |s|
  {
    var a := FlagsEnd(s, 1);
    var (width, b) := ScanWidth(s, a);
    var (prec, c) := ScanPrec(s, b);
    var (length, e) := ScanLength(s, c);
    if e == |s| || ConvOf(s[e]).None? then NotOne
    else
      var (kind, upper) := ConvOf(s[e]).value;
      Found(Directive('-' in s[1..a], '0' in s[1..a], SignFlag(s[1..a]), width, prec, length, upper, kind), e + 1)
  }

  lemma WidthScanned(s: string, a: nat)
    requires a <= |s| && (a < |s| ==> !IsFlag(s[a]))
    ensures WidthText(s[a..ScanWidth(s, a).1], ScanWidth(s, a).0)
  {
  }

  lemma PrecScanned(s: string, b: nat)
    requires b <= |s|
    ensures PrecText(s[b..ScanPrec(s, b).1], ScanPrec(s, b).0)
  {
    var (x, c) := ScanPrec(s, b);
    if x.Prec? {
      assert s[b..c][1..] == s[b + 1..c];
    } else if x.Negative? {
      assert s[b..c][2..] == s[b + 2..c];
    }
  }

  lemma Assembled(s: string, a: nat, b: nat, c: nat, e: nat, d: Directive)
    requires 1 <= a <= b <= c <= e < |s| && s[0] == '%' && s[c..e] == LengthText(d.length)
    requires AllFlags(s[1..a]) && d.left == ('-' in s[1..a]) && d.zero == ('0' in s[1..a]) &&
             d.sign == SignFlag(s[1..a])
    requires WidthText(s[a..b], d.width) && PrecText(s[b..c], d.prec) && ConvOf(s[e]) == Some((d.kind, d.upper))
    ensures Denotes(s, e + 1, d)
  {
    assert MadeOf(s, e + 1, d, Parts(s[1..a], s[a..b], s[b..c], s[e]));
  }

  lemma LengthScanned(s: string, c: nat)
    requires c <= |s|
    ensures s[c..ScanLength(s, c).1] == LengthText(ScanLength(s, c).0)
  {
  }

  /** What the parser finds, when its parts end at a, b, c and e. */
  lemma ScanIs(s: string, a: nat, b: nat, c: nat, e: nat)
    requires s != "" && a == FlagsEnd(s, 1) && b == ScanWidth(s, a).1 && c == ScanPrec(s, b).1 &&
             e == ScanLength(s, c).1
    ensures var d := Scan(s);
            if e == |s| || ConvOf(s[e]).None? then d == NotOne
            else
              d.Found? && d.n == e + 1 && ConvOf(s[e]) == Some((d.d.kind, d.d.upper)) &&
              d.d.left == ('-' in s[1..a]) && d.d.zero == ('0' in s[1..a]) && d.d.sign == SignFlag(s[1..a]) &&
              d.d.width == ScanWidth(s, a).0 && d.d.prec == ScanPrec(s, b).0 && d.d.length == ScanLength(s, c).0
  {
  }

  /** Whatever the parser finds is a directive. */
  lemma ScanSound(s: string)
    requires s != "" && s[0] == '%' && Scan(s).Found?
    ensures Denotes(s, Scan(s).n, Scan(s).d)
  {
    var a := FlagsEnd(s, 1);
    var b := ScanWidth(s, a).1;
    var c := ScanPrec(s, b).1;
    var e := ScanLength(s, c).1;
    ScanIs(s, a, b, c, e);
    WidthScanned(s, a);
    PrecScanned(s, b);
    LengthScanned(s, c);
    Assembled(s, a, b, c, e, Scan(s).d);
  }

  /** A character that starts what may follow the width. */
  predicate AfterWidth(c: char) {
    c == '.' || AfterPrec(c)
  }

  predicate AfterPrec(c: char) {
    c == 'l' || c == 'L' || ConvOf(c).Some?
  }

  lemma WidthFound(s: string, a: nat, b: nat, x: Width)
    requires a <= b < |s| && WidthText(s[a..b], x) && AfterWidth(s[b])
    ensures ScanWidth(s, a) == (x, b)
    ensures !IsFlag(s[a])
  {
    if x.Width? {
      assert s[a..b][0] == s[a];
      DigitsEndIs(s, a, b);
    } else if x.StarWidth? {
      assert s[a..b][0] == s[a];
    } else {
      DigitsEndIs(s, a, a);
    }
  }

  lemma PrecFound(s: string, b: nat, c: nat, x: Precision)
    requires b <= c < |s| && PrecText(s[b..c], x) && AfterPrec(s[c])
    ensures ScanPrec(s, b) == (x, c)
    ensures AfterWidth(s[b])
  {
    if x.Prec? {
      assert s[b..c][0] == s[b] && s[b..c][1..] == s[b + 1..c];
      DigitsEndIs(s, b + 1, c);
      if b + 1 < c {
        assert s[b..c][1..][0] == s[b + 1];
      }
    } else if x.Negative? {
      assert s[b..c][0] == s[b] && s[b..c][1] == s[b + 1] && s[b..c][2..] == s[b + 2..c];
      DigitsEndIs(s, b + 2, c);
    } else if x.StarPrec? {
      assert s[b..c][0] == s[b] && s[b..c][1] == s[b + 1];
    }
  }

  lemma LengthFound(s: string, c: nat, e: nat, x: Length)
    requires c <= e < |s| && s[c..e] == LengthText(x) && ConvOf(s[e]).Some?
    ensures ScanLength(s, c) == (x, e)
    ensures AfterPrec(s[c])
  {
    if x != Plain {
      assert s[c..e][0] == s[c];
    }
  }

  /** Every directive is found by the parser. */
  lemma ScanComplete(s: string, n: nat, d: Directive, parts: Parts)
    requires MadeOf(s, n, d, parts)
    ensures Scan(s) == Found(d, n)
  {
    var a := 1 + |parts.flags|;
    var b := a + |parts.width|;
    var c := b + |parts.prec|;
    var e := c + |LengthText(d.length)|;
    LengthFound(s, c, e, d.length);
    PrecFound(s, b, c, d.prec);
    WidthFound(s, a, b, d.width);
    FlagsEndIs(s, 1, a);
    ScanIs(s, a, b, c, e);
  }

  /** The parser finds exactly the directives: flags in any order, width, precision, length and letter. */
  lemma ScanIff(s: string, n: nat, d: Directive)
    requires s != "" && s[0] == '%'
    ensures Scan(s) == Found(d, n) <==> Denotes(s, n, d)
  {
    if Scan(s) == Found(d, n) {
      ScanSound(s);
    }
    if parts :| MadeOf(s, n, d, parts) {
      ScanComplete(s, n, d, parts);
    }
  }

  /** No directive starts another one: whatever follows it, a directive is read as itself. */
  lemma PrefixFree(s: string, n: nat, d: Directive, more: string, n': nat, d': Directive)
    requires Denotes(s, n, d) && Denotes(s + more, n', d')
    ensures n' == n && d' == d
  {
    var parts :| MadeOf(s, n, d, parts);
    StillMadeOf(s, n, d, parts, more);
    ScanComplete(s + more, n, d, parts);
    ScanIff(s + more, n', d');
  }

  lemma StillMadeOf(s: string, n: nat, d: Directive, parts: Parts, more: string)
    requires MadeOf(s, n, d, parts)
    ensures MadeOf(s + more, n, d, parts)
  {
    var t := s + more;
    var a := 1 + |parts.flags|;
    var b := a + |parts.width|;
    var c := b + |parts.prec|;
    var e := c + |LengthText(d.length)|;
    assert t[1..a] == s[1..a] && t[a..b] == s[a..b] && t[b..c] == s[b..c] && t[c..e] == s[c..e];
  }

  // ---------------------------------------------------------------------
  // The loops

  lemma {:induction false} WorthMore(s: string, i: nat, j: nat)
    requires i <= j < |s| && AllDigits(s[i..j + 1])
    ensures Worth(s[i..j + 1], 10) == Worth(s[i..j], 10) * 10 + DigitOf(s[j])
  {
    assert s[i..j + 1][..j - i] == s[i..j];
  }

  /** The digit loops of widths and precisions. */
  method ParseNumber(s: string, i: nat) returns (n: nat, j: nat)
    requires i <= |s|
    ensures j == DigitsEnd(s, i) && n == Number(s, i)
  {
    var value: int := 0;
    j := i;
    while j < |s| && IsDigit(s[j])
      invariant i <= j <= |s| && AllDigits(s[i..j]) && value == Worth(s[i..j], 10) && DigitsEnd(s, j) == DigitsEnd(s, i)
    {
      assert s[i..j + 1] == s[i..j] + [s[j]];
      WorthMore(s, i, j);
      value := value * 10 + (s[j] as int - '0' as int);
      j := j + 1;
    }
    WorthOfDigits(s[i..j]);
    n := value;
  }

  /** The flag loop; a plus replaces a space, and a space replaces nothing. */
  method ParseFlags(s: string) returns (left: bool, zero: bool, sign: string, a: nat)
    requires s != ""
    ensures a == FlagsEnd(s, 1)
    ensures left == ('-' in s[1..a]) && zero == ('0' in s[1..a]) && sign == SignFlag(s[1..a])
  {
    left, zero, sign, a := false, false, "", 1;
    while a < |s| && IsFlag(s[a])
      invariant 1 <= a <= |s| && FlagsEnd(s, a) == FlagsEnd(s, 1)
      invariant left == ('-' in s[1..a]) && zero == ('0' in s[1..a]) && sign == SignFlag(s[1..a])
    {
      assert s[1..a + 1] == s[1..a] + [s[a]];
      match s[a] {
        case '-' => left := true;
        case '0' => zero := true;
        case '+' => sign := "+";
        case _ =>
          if sign == "" {
            sign := " ";
          }
      }
      a := a + 1;
    }
  }

  method ParseWidth(s: string, a: nat) returns (width: Width, cur: nat)
    requires a <= |s|
    ensures (width, cur) == ScanWidth(s, a)
  {
    width, cur := NoWidth, a;
    if cur < |s| && s[cur] == '*' {
      width, cur := StarWidth, cur + 1;
    } else {
      var n, j := ParseNumber(s, cur);
      if j > cur {
        width, cur := Width(n), j;
      }
    }
  }

  method ParsePrec(s: string, b: nat) returns (prec: Precision, cur: nat)
    requires b <= |s|
    ensures (prec, cur) == ScanPrec(s, b)
  {
    prec, cur := NoPrec, b;
    if cur < |s| && s[cur] == '.' {
      cur := cur + 1;
      if cur < |s| && s[cur] == '*' {
        prec, cur := StarPrec, cur + 1;
      } else {
        var minus := cur < |s| && s[cur] == '-';
        var n, j := ParseNumber(s, if minus then cur + 1 else cur);
        prec, cur := if minus then Negative(n) else Prec(n), j;
      }
    }
  }

  /** npf_parse_format_spec. */
  method ParseDirective(s: string) returns (r: Scanned)
    requires s != ""
    ensures r == Scan(s)
  {
    var left, zero, sign, a := ParseFlags(s);
    var width, b := ParseWidth(s, a);
    var prec, cur := ParsePrec(s, b);
    var length := Plain;
    if cur < |s| && s[cur] == 'l' {
      length, cur := Long, cur + 1;
    } else if cur < |s| && s[cur] == 'L' {
      length, cur := LongDouble, cur + 1;
    }
    r := NotOne;
    if cur < |s| {
      match ConvOf(s[cur]) {
        case None =>
        case Some(k) => r := Found(Directive(left, zero, sign, width, prec, length, k.1, k.0), cur + 1);
      }
    }
  }
}
