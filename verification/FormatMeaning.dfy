// What the directives of a format string print, stated on the text of the
// directive: flags, width, precision and letter as they stand in the format.

module FormatMeaning {
  import opened Basics
  import opened Options
  import opened NumberFormat
  import opened FormatStrings
  import opened FormatOutput

  // ---------------------------------------------------------------------
  // Numbers in positional notation

  const LOWER: string := "0123456789abcdef"
  const UPPER: string := "0123456789ABCDEF"

  /** The characters of s are the digits ds in base b. */
  predicate Spells(s: string, ds: seq<nat>, b: nat, upper: bool)
    requires 2 <= b <= 16
  {
    |s| == |ds| && (forall i :: 0 <= i < |ds| ==> ds[i] < b) &&
    forall i :: 0 <= i < |ds| ==> s[i] == if upper then UPPER[ds[i]] else LOWER[ds[i]]
  }

  /** What digits are worth in base b, the last one counting once. */
  function Amount(ds: seq<nat>, b: nat): nat {
    if ds == [] then 0 else Amount(ds[..|ds| - 1], b) * b + ds[|ds| - 1]
  }

  /** s is v in base b, without needless zeros. */
  ghost predicate IsNumeral(s: string, v: nat, b: nat, upper: bool)
    requires 2 <= b <= 16
  {
    exists ds :: Spells(s, ds, b, upper) && Amount(ds, b) == v && ds != [] && (ds[0] == 0 ==> |ds| == 1)
  }

  lemma DigitFace(d: nat, upper: bool)
    requires d < 16
    ensures DigitChar(d, upper) == if upper then UPPER[d] else LOWER[d]
  {
  }

  lemma OneDigit(v: nat, b: nat, upper: bool)
    requires 2 <= b <= 16 && v < b
    ensures IsNumeral([DigitChar(v, upper)], v, b, upper)
  {
    DigitFace(v, upper);
    assert [v][..0] == [];
    assert Spells([DigitChar(v, upper)], [v], b, upper) && Amount([v], b) == v;
  }

  lemma MoreDigits(s: string, q: nat, d: nat, b: nat, upper: bool)
    requires 2 <= b <= 16 && q > 0 && d < b && IsNumeral(s, q, b, upper)
    ensures IsNumeral(s + [DigitChar(d, upper)], q * b + d, b, upper)
  {
    var ds :| Spells(s, ds, b, upper) && Amount(ds, b) == q && ds != [] && (ds[0] == 0 ==> |ds| == 1);
    var es := ds + [d];
    SpellsMore(s, ds, d, b, upper);
    AmountMore(ds, d, b);
    FirstDigit(ds, b);
    assert es[0] == ds[0];
  }

  lemma FirstDigit(ds: seq<nat>, b: nat)
    requires ds != [] && Amount(ds, b) > 0 && (ds[0] == 0 ==> |ds| == 1)
    ensures ds[0] != 0
  {
    if |ds| == 1 {
      assert ds[..0] == [] && Amount(ds, b) == Amount([], b) * b + ds[0];
    }
  }

  lemma SpellsMore(s: string, ds: seq<nat>, d: nat, b: nat, upper: bool)
    requires 2 <= b <= 16 && Spells(s, ds, b, upper) && d < b
    ensures Spells(s + [DigitChar(d, upper)], ds + [d], b, upper)
  {
    DigitFace(d, upper);
  }

  lemma AmountMore(ds: seq<nat>, d: nat, b: nat)
    ensures Amount(ds + [d], b) == Amount(ds, b) * b + d
  {
    assert (ds + [d])[..|ds|] == ds;
  }

  lemma {:induction false} NumeralIs(v: nat, b: nat, upper: bool)
    requires 2 <= b <= 16
    ensures IsNumeral(Numeral(v, b, upper), v, b, upper)
    decreases v
  {
    if v < b {
      OneDigit(v, b, upper);
    } else {
      Divided(v, b);
      Rebuilt(v, b);
      NumeralIs(v / b, b, upper);
      MoreDigits(Numeral(v / b, b, upper), v / b, v % b, b, upper);
    }
  }

  // ---------------------------------------------------------------------
  // The text of a directive

  function Row(c: char, n: nat): (s: string)
    ensures |s| == n && forall i :: 0 <= i < n ==> s[i] == c
  {
    seq(n, i => c)
  }

  lemma {:induction false} RepIsRow(c: char, n: int)
    ensures Rep(c, n) == Row(c, Max(0, n))
    decreases n
  {
    if n > 0 {
      RepIsRow(c, n - 1);
      assert Row(c, n) == Row(c, n - 1) + [c];
    }
  }

  predicate FlagText(s: string) {
    forall k :: 0 <= k < |s| ==> s[k] == '-' || s[k] == '0' || s[k] == '+' || s[k] == ' '
  }

  predicate DigitText(s: string) {
    forall k :: 0 <= k < |s| ==> '0' <= s[k] <= '9'
  }

  /** The number that decimal digits stand for; 0 when there are none. */
  function NumberIn(s: string): int {
    if s == "" then 0 else 10 * NumberIn(s[..|s| - 1]) + (s[|s| - 1] as int - '0' as int)
  }

  lemma {:induction false} WorthIsNumber(s: string)
    requires DigitText(s)
    ensures Worth(s, 10) == NumberIn(s) >= 0
  {
    if s != "" {
      WorthIsNumber(s[..|s| - 1]);
    }
  }

  /** A directive without stars: flags, a width, a precision after a dot. */
  predicate IsDirective(flags: string, width: string, prec: string) {
    FlagText(flags) && DigitText(width) && (width != "" ==> width[0] != '0') &&
    (prec != "" ==> prec[0] == '.' && DigitText(prec[1..]))
  }

  function WidthIn(width: string): int {
    NumberIn(width)
  }

  function PrecIn(prec: string): int {
    if prec == "" then 0 else NumberIn(prec[1..])
  }

  function FormatOf(flags: string, width: string, prec: string, letter: char): string {
    "%" + flags + width + prec + [letter]
  }

  /** The directive that the parser makes of such a text. */
  function DirectiveOf(flags: string, width: string, prec: string, kind: Kind, upper: bool): Directive
    requires IsDirective(flags, width, prec)
  {
    WidthNumber(width);
    PrecNumber(prec);
    Directive('-' in flags, '0' in flags, SignFlag(flags), if width == "" then NoWidth else Width(NumberIn(width)),
              if prec == "" then NoPrec else Prec(NumberIn(prec[1..])), Plain, upper, kind)
  }

  lemma WidthNumber(width: string)
    requires DigitText(width)
    ensures NumberIn(width) >= 0
  {
    WorthIsNumber(width);
  }

  lemma PrecNumber(prec: string)
    requires prec != "" ==> DigitText(prec[1..])
    ensures prec != "" ==> NumberIn(prec[1..]) >= 0
  {
    if prec != "" {
      WorthIsNumber(prec[1..]);
    }
  }

  lemma SlicesOf(flags: string, width: string, prec: string, letter: char)
    ensures var s, a := FormatOf(flags, width, prec, letter), 1 + |flags|;
            var b := a + |width|;
            var c := b + |prec|;
            |s| == c + 1 && s[0] == '%' && s[1..a] == flags && s[a..b] == width && s[b..c] == prec && s[c..c] == "" &&
            s[c] == letter
  {
  }

  lemma DirectiveFound(flags: string, width: string, prec: string, letter: char, kind: Kind, upper: bool)
    requires IsDirective(flags, width, prec) && ConvOf(letter) == Some((kind, upper))
    ensures var s := FormatOf(flags, width, prec, letter);
            Scan(s) == Found(DirectiveOf(flags, width, prec, kind, upper), |s|)
  {
    var s := FormatOf(flags, width, prec, letter);
    var d := DirectiveOf(flags, width, prec, kind, upper);
    SlicesOf(flags, width, prec, letter);
    WorthIsNumber(width);
    if prec != "" {
      WorthIsNumber(prec[1..]);
    }
    ScanComplete(s, |s|, d, Parts(flags, width, prec, letter));
  }

  /** A format that is one directive prints its field. */
  lemma OneDirective(flags: string, width: string, prec: string, letter: char, kind: Kind, upper: bool, args: seq<Arg>)
    requires IsDirective(flags, width, prec) && ConvOf(letter) == Some((kind, upper))
    requires Render(DirectiveOf(flags, width, prec, kind, upper), args).Field?
    ensures Rendered(FormatOf(flags, width, prec, letter), args) ==
            Done(Render(DirectiveOf(flags, width, prec, kind, upper), args).text)
  {
    var s := FormatOf(flags, width, prec, letter);
    DirectiveFound(flags, width, prec, letter, kind, upper);
    var f := Render(DirectiveOf(flags, width, prec, kind, upper), args);
    assert s[|s|..] == "";
    assert Rendered("", f.rest) == Done("") && f.text + "" == f.text;
  }

  // ---------------------------------------------------------------------
  // Integers

  predicate IsSigned(letter: char) {
    letter == 'd' || letter == 'i'
  }

  predicate IsIntegerLetter(letter: char) {
    IsSigned(letter) || letter == 'u' || letter == 'o' || letter == 'x' || letter == 'X' || letter == 'b' ||
    letter == 'B'
  }

  /** The base that the letter asks for. */
  function BaseIn(letter: char): (b: nat)
    requires IsIntegerLetter(letter)
    ensures 2 <= b <= 16
  {
    if letter == 'o' then 8 else if letter == 'x' || letter == 'X' then 16
    else if letter == 'b' || letter == 'B' then 2 else 10
  }

  /** What the digits are to be worth: the magnitude of a signed argument, any other argument modulo 2^32. */
  function ValueIn(letter: char, n: int): nat {
    if IsSigned(letter) then (if n < 0 then -n else n) else n % 0x1_0000_0000
  }

  function SignIn(letter: char, flags: string, n: int): string {
    if !IsSigned(letter) then "" else if n < 0 then "-"
    else if '+' in flags then "+" else if ' ' in flags then " " else ""
  }

  /** The 0 flag counts when no precision is given; in binary it counts in any case, except for no digits at all. */
  predicate ZeroCounts(letter: char, flags: string, prec: string, v: nat) {
    '0' in flags && (prec == "" || ((letter == 'b' || letter == 'B') && !(PrecIn(prec) == 0 && v == 0)))
  }

  /** The parts of a field. */
  datatype Layout = Layout(before: nat, sign: string, zeros: nat, digits: string, after: nat)

  function TextOf(l: Layout): string {
    Row(' ', l.before) + l.sign + Row('0', l.zeros) + l.digits + Row(' ', l.after)
  }

  /** The parts that a directive with an integer asks for. */
  ghost predicate IsLayout(l: Layout, flags: string, width: string, prec: string, letter: char, n: int)
    requires IsIntegerLetter(letter)
  {
    var v := ValueIn(letter, n);
    var most := Max(PrecIn(prec), |l.digits|);
    var fill := Max(0, WidthIn(width) - |l.sign| - most);
    l.sign == SignIn(letter, flags, n) &&
    (if prec != "" && PrecIn(prec) == 0 && v == 0 then l.digits == ""
     else IsNumeral(l.digits, v, BaseIn(letter), letter == 'X' || letter == 'B')) &&
    (if '-' in flags then l.before == 0 && l.after == fill && l.zeros == most - |l.digits|
     else if ZeroCounts(letter, flags, prec, v) then
       l.before == 0 && l.after == 0 && l.zeros == most - |l.digits| + fill
     else l.before == fill && l.after == 0 && l.zeros == most - |l.digits|)
  }

  function ConvIn(letter: char): Conv
    requires IsIntegerLetter(letter)
  {
    if IsSigned(letter) then Signed else if letter == 'u' then Unsigned else if letter == 'o' then Octal
    else if letter == 'x' || letter == 'X' then Hex else Binary
  }

  lemma LetterMeans(letter: char)
    requires IsIntegerLetter(letter)
    ensures ConvOf(letter) == Some((Integer(ConvIn(letter)), letter == 'X' || letter == 'B'))
    ensures BaseOf(ConvIn(letter)) == BaseIn(letter)
  {
  }

  /** The specification of such a directive. */
  function SpecOf(flags: string, width: string, prec: string, letter: char): Spec
    requires IsDirective(flags, width, prec) && IsIntegerLetter(letter)
  {
    WidthNumber(width);
    PrecNumber(prec);
    Spec('-' in flags, '0' in flags, SignFlag(flags), letter == 'X' || letter == 'B', width != "", NumberIn(width),
         prec != "", PrecIn(prec), ConvIn(letter))
  }

  lemma SpecFilled(flags: string, width: string, prec: string, letter: char, args: seq<Arg>)
    requires IsDirective(flags, width, prec) && IsIntegerLetter(letter)
    ensures Fill(DirectiveOf(flags, width, prec, Integer(ConvIn(letter)), letter == 'X' || letter == 'B'), args) ==
            Filled(SpecOf(flags, width, prec, letter), args)
  {
    WorthIsNumber(width);
  }

  lemma RowsJoin(c: char, m: nat, n: nat)
    ensures Row(c, m) + Row(c, n) == Row(c, m + n) && Row(c, 0) == ""
  {
  }

  /** A body is the zeros that the precision asks for, and the digits. */
  predicate IsBody(body: string, prec: nat, digits: string) {
    body == Row('0', Max(0, prec - |digits|)) + digits
  }

  lemma LeftParts(sign: string, body: string, pad: int, l: Layout)
    requires l.sign == sign && l.before == 0 && l.after == Max(0, pad) && body == Row('0', l.zeros) + l.digits
    ensures sign + body + Rep(' ', pad) == TextOf(l)
  {
    RepIsRow(' ', pad);
    RowsJoin(' ', 0, 0);
    assert "" + sign == sign;
    assert sign + (Row('0', l.zeros) + l.digits) == sign + Row('0', l.zeros) + l.digits;
  }

  lemma ZeroParts(sign: string, body: string, pad: int, zeros: nat, l: Layout)
    requires l.sign == sign && l.before == 0 && l.after == 0 && l.zeros == zeros + Max(0, pad)
    requires body == Row('0', zeros) + l.digits
    ensures sign + Rep('0', pad) + body == TextOf(l)
  {
    RepIsRow('0', pad);
    RowsJoin('0', Max(0, pad), zeros);
    RowsJoin(' ', 0, 0);
    var row := Row('0', Max(0, pad));
    assert sign + row + (Row('0', zeros) + l.digits) == sign + (row + Row('0', zeros)) + l.digits;
    assert "" + sign + Row('0', l.zeros) + l.digits + "" == sign + Row('0', l.zeros) + l.digits;
  }

  lemma RightParts(sign: string, body: string, pad: int, l: Layout)
    requires l.sign == sign && l.before == Max(0, pad) && l.after == 0 && body == Row('0', l.zeros) + l.digits
    ensures Rep(' ', pad) + sign + body == TextOf(l)
  {
    RepIsRow(' ', pad);
    RowsJoin(' ', 0, 0);
    var front := Row(' ', l.before) + sign;
    assert front + (Row('0', l.zeros) + l.digits) == front + Row('0', l.zeros) + l.digits + "";
  }

  /** The parts of a field, by its specification. */
  predicate HasParts(fs: Spec, sign: string, zeros: bool, l: Layout) {
    var most := Max(fs.prec, |l.digits|);
    var fill := Max(0, fs.width - |sign| - most);
    l.sign == sign &&
    (if fs.left then l.before == 0 && l.after == fill && l.zeros == most - |l.digits|
     else if zeros then l.before == 0 && l.after == 0 && l.zeros == most - |l.digits| + fill
     else l.before == fill && l.after == 0 && l.zeros == most - |l.digits|)
  }

  lemma FieldParts(fs: Spec, sign: string, body: string, zeros: bool, l: Layout)
    requires IsSpec(fs) && HasParts(fs, sign, zeros, l) && IsBody(body, fs.prec, l.digits)
    ensures Framed(fs, sign, body, zeros) == TextOf(l)
  {
    var pad := PadOf(fs, sign, body);
    assert Max(0, pad) == Max(0, fs.width - |sign| - Max(fs.prec, |l.digits|));
    if fs.left {
      LeftParts(sign, body, pad, l);
    } else if zeros {
      ZeroParts(sign, body, pad, Max(0, fs.prec - |l.digits|), l);
    } else {
      RightParts(sign, body, pad, l);
    }
  }

  /** The digits of a body, by its specification. */
  lemma BodyParts(fs: Spec, val: int) returns (digits: string)
    ensures IsBody(Body(fs, val), fs.prec, digits)
    ensures if val == 0 && fs.hasPrec && fs.prec == 0 then digits == ""
            else IsNumeral(digits, Magnitude(val), BaseOf(fs.conv), fs.upper)
  {
    RowsJoin('0', 0, 0);
    if val == 0 && fs.hasPrec && fs.prec == 0 {
      digits := "";
    } else {
      digits := Numeral(Magnitude(val), BaseOf(fs.conv), fs.upper);
      NumeralIs(Magnitude(val), BaseOf(fs.conv), fs.upper);
      RepIsRow('0', fs.prec - |digits|);
    }
  }

  /** The parts of a field with this sign and these digits. */
  function PartsOf(fs: Spec, sign: string, digits: string, zeros: bool): (l: Layout)
    ensures HasParts(fs, sign, zeros, l) && l.digits == digits
  {
    var most := Max(fs.prec, |digits|);
    var fill := Max(0, fs.width - |sign| - most);
    if fs.left then Layout(0, sign, most - |digits|, digits, fill)
    else if zeros then Layout(0, sign, most - |digits| + fill, digits, 0)
    else Layout(fill, sign, most - |digits|, digits, 0)
  }

  lemma SignMeans(flags: string, width: string, prec: string, letter: char, n: int)
    requires IsDirective(flags, width, prec) && IsIntegerLetter(letter)
    ensures var fs := SpecOf(flags, width, prec, letter);
            IsSpec(fs) && SignOf(fs, ValueOf(fs.conv, n)) == SignIn(letter, flags, n) &&
            Magnitude(ValueOf(fs.conv, n)) == ValueIn(letter, n) &&
            ZerosIn(fs, ValueOf(fs.conv, n)) == ZeroCounts(letter, flags, prec, ValueIn(letter, n))
  {
  }

  /** What the rendering of an integer directive is. */
  lemma IntegerField(flags: string, width: string, prec: string, letter: char, n: int)
    requires IsDirective(flags, width, prec) && IsIntegerLetter(letter)
    ensures var fs := SpecOf(flags, width, prec, letter);
            var val := ValueOf(fs.conv, n);
            Render(DirectiveOf(flags, width, prec, Integer(ConvIn(letter)), letter == 'X' || letter == 'B'),
                   [Num(n)]) ==
            Field(Framed(fs, SignOf(fs, val), Body(fs, val), ZerosIn(fs, val)), [])
  {
    SpecFilled(flags, width, prec, letter, [Num(n)]);
  }

  lemma LayoutIs(flags: string, width: string, prec: string, letter: char, n: int, l: Layout)
    requires IsDirective(flags, width, prec) && IsIntegerLetter(letter)
    requires var fs := SpecOf(flags, width, prec, letter);
             var v := ValueIn(letter, n);
             HasParts(fs, SignIn(letter, flags, n), ZeroCounts(letter, flags, prec, v), l) &&
             if v == 0 && prec != "" && PrecIn(prec) == 0 then l.digits == ""
             else IsNumeral(l.digits, v, BaseIn(letter), letter == 'X' || letter == 'B')
    ensures IsLayout(l, flags, width, prec, letter, n)
  {
  }

  /**
    What an integer directive prints, whatever flags, width and precision stand in
    it: spaces, a sign, zeros, the digits and spaces, so many of each as IsLayout
    says.  The digits are the argument's in the base that the letter asks for.
   */
  lemma IntegerPrints(flags: string, width: string, prec: string, letter: char, n: int) returns (l: Layout)
    requires IsDirective(flags, width, prec) && IsIntegerLetter(letter)
    ensures IsLayout(l, flags, width, prec, letter, n)
    ensures Rendered(FormatOf(flags, width, prec, letter), [Num(n)]) == Done(TextOf(l))
  {
    LetterMeans(letter);
    l := FieldLaidOut(flags, width, prec, letter, n);
    OneDirective(flags, width, prec, letter, Integer(ConvIn(letter)), letter == 'X' || letter == 'B', [Num(n)]);
  }

  lemma FieldLaidOut(flags: string, width: string, prec: string, letter: char, n: int) returns (l: Layout)
    requires IsDirective(flags, width, prec) && IsIntegerLetter(letter)
    ensures IsLayout(l, flags, width, prec, letter, n)
    ensures Render(DirectiveOf(flags, width, prec, Integer(ConvIn(letter)), letter == 'X' || letter == 'B'),
                   [Num(n)]) ==
            Field(TextOf(l), [])
  {
    var fs := SpecOf(flags, width, prec, letter);
    var val := ValueOf(fs.conv, n);
    LetterMeans(letter);
    SignMeans(flags, width, prec, letter, n);
    var digits := BodyParts(fs, val);
    l := PartsOf(fs, SignOf(fs, val), digits, ZerosIn(fs, val));
    LayoutIs(flags, width, prec, letter, n, l);
    FieldParts(fs, SignOf(fs, val), Body(fs, val), ZerosIn(fs, val), l);
    IntegerField(flags, width, prec, letter, n);
  }

  lemma BareText(l: Layout)
    requires l.before == 0 && l.after == 0 && l.zeros == 0
    ensures TextOf(l) == l.sign + l.digits
  {
    RowsJoin(' ', 0, 0);
    RowsJoin('0', 0, 0);
  }

  lemma BareLayout(l: Layout, letter: char, n: int)
    requires IsIntegerLetter(letter) && IsLayout(l, "", "", "", letter, n)
    ensures l.before == 0 && l.after == 0 && l.zeros == 0 && l.sign == (if IsSigned(letter) && n < 0 then "-" else "")
    ensures IsNumeral(l.digits, ValueIn(letter, n), BaseIn(letter), letter == 'X' || letter == 'B')
  {
    assert NumberIn("") == 0;
  }

  /** Without flags, width and precision: a minus sign exactly before negative numbers, and the digits. */
  lemma BarePrints(letter: char, n: int) returns (digits: string)
    requires IsIntegerLetter(letter)
    ensures IsNumeral(digits, ValueIn(letter, n), BaseIn(letter), letter == 'X' || letter == 'B')
    ensures Rendered("%" + [letter], [Num(n)]) == Done((if IsSigned(letter) && n < 0 then "-" else "") + digits)
  {
    var l := IntegerPrints("", "", "", letter, n);
    BareLayout(l, letter, n);
    BareText(l);
    assert FormatOf("", "", "", letter) == "%" + [letter];
    digits := l.digits;
  }

  // ---------------------------------------------------------------------
  // Text

  /** %s prints its string up to the precision, in a field of the width: to the left with -, else to the right. */
  lemma StringPrints(flags: string, width: string, prec: string, s: string)
    requires IsDirective(flags, width, prec)
    ensures var cut := if prec != "" && PrecIn(prec) < |s| then s[..Max(0, PrecIn(prec))] else s;
            var fill := Max(0, WidthIn(width) - |cut|);
            Rendered(FormatOf(flags, width, prec, 's'), [Str(s)]) ==
            Done(if '-' in flags then cut + Row(' ', fill)
                 else Row(if '0' in flags then '0' else ' ', fill) + cut)
  {
    StringField(flags, width, prec, s);
    OneDirective(flags, width, prec, 's', Text, false, [Str(s)]);
  }

  lemma StringField(flags: string, width: string, prec: string, s: string)
    requires IsDirective(flags, width, prec)
    ensures var cut := if prec != "" && PrecIn(prec) < |s| then s[..Max(0, PrecIn(prec))] else s;
            var fill := Max(0, WidthIn(width) - |cut|);
            Render(DirectiveOf(flags, width, prec, Text, false), [Str(s)]) ==
            Field(if '-' in flags then cut + Row(' ', fill)
                  else Row(if '0' in flags then '0' else ' ', fill) + cut, [])
  {
    var d := DirectiveOf(flags, width, prec, Text, false);
    var fs := Fill(d, [Str(s)]).fs;
    TextFilled(flags, width, prec, [Str(s)]);
    TextRendered(d, fs, s);
    BoxedText(fs, FormatOutput.Cut(fs, s));
  }

  lemma TextRendered(d: Directive, fs: Spec, s: string)
    requires d.kind == Text && Fill(d, [Str(s)]) == Filled(fs, [Str(s)])
    ensures Render(d, [Str(s)]) == Field(Boxed(fs, 0, FormatOutput.Cut(fs, s)), [])
  {
  }

  lemma TextFilled(flags: string, width: string, prec: string, args: seq<Arg>)
    requires IsDirective(flags, width, prec)
    ensures var fs := Fill(DirectiveOf(flags, width, prec, Text, false), args).fs;
            Fill(DirectiveOf(flags, width, prec, Text, false), args) == Filled(fs, args) && IsSpec(fs) &&
            fs.left == ('-' in flags) && fs.zero == ('0' in flags) && fs.width == WidthIn(width) &&
            fs.hasPrec == (prec != "") && fs.prec == PrecIn(prec)
  {
  }

  lemma BoxedText(fs: Spec, cut: string)
    requires IsSpec(fs)
    ensures Boxed(fs, 0, cut) == if fs.left then cut + Row(' ', Max(0, fs.width - |cut|))
                                 else Row(if fs.zero then '0' else ' ', Max(0, fs.width - |cut|)) + cut
  {
    RepIsRow(' ', fs.width - |cut|);
    RepIsRow('0', fs.width - |cut|);
    RepIsRow('0', 0);
    RepIsRow(' ', 0);
    assert Rep('0', 0) + cut == cut && "" + cut == cut;
    var pad := PadOf(fs, "", cut);
    assert !fs.hasWidth ==> Row(' ', 0) == "" && Row('0', 0) == "";
    assert "" + cut + Rep(' ', pad) == cut + Rep(' ', pad);
    assert "" + Rep('0', pad) + cut == Rep('0', pad) + cut;
    assert Rep(' ', pad) + "" + cut == Rep(' ', pad) + cut;
  }

  /** %c prints the character whose number is the argument modulo 256. */
  lemma CharacterPrints(n: int)
    ensures Rendered("%c", [Num(n)]) == Done([(n % 256) as char])
  {
    assert FormatOf("", "", "", 'c') == "%c";
    var d := DirectiveOf("", "", "", Character, false);
    var fs := Fill(d, [Num(n)]).fs;
    BoxedText(fs, [(n % 256) as char]);
    RowsJoin(' ', 0, 0);
    assert Render(d, [Num(n)]) == Field([(n % 256) as char], []);
    OneDirective("", "", "", 'c', Character, false, [Num(n)]);
  }
}
