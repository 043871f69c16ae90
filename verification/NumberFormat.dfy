// Formatted output of integers: one conversion specification at a time, and into a buffer.

module NumberFormat {
  import opened Basics

  datatype Conv = Signed | Unsigned | Octal | Hex | Binary

  /**
    A conversion specification, as parsed and with arguments for '*' filled in.
    sign is the character of the '+' or space flag, if any.
   */
  datatype Spec = Spec(left: bool, zero: bool, sign: string, upper: bool,
                       hasWidth: bool, width: nat, hasPrec: bool, prec: nat, conv: Conv)

  /** Specifications that parsing gives: without a precision, prec is the number after ".-", or 0. */
  predicate IsSpec(fs: Spec) {
    (fs.sign == "" || fs.sign == "+" || fs.sign == " ") && (!fs.hasWidth ==> fs.width == 0)
  }

  function BaseOf(c: Conv): (b: nat)
    ensures 2 <= b <= 16
  {
    match c
    case Signed | Unsigned => 10
    case Octal => 8
    case Hex => 16
    case Binary => 2
  }

  function DigitChar(d: nat, upper: bool): char
    requires d < 16
  {
    if d < 10 then '0' + d as char else (if upper then 'A' else 'a') + (d - 10) as char
  }

  function DigitOf(c: char): int {
    if '0' <= c <= '9' then c as int - '0' as int
    else if 'a' <= c <= 'f' then c as int - 'a' as int + 10
    else c as int - 'A' as int + 10
  }

  function Rep(c: char, n: int): (s: string)
    ensures |s| == if n > 0 then n else 0
  {
    if n <= 0 then "" else Rep(c, n - 1) + [c]
  }

  /** val in base b, at least one digit. */
  function Numeral(val: nat, b: nat, upper: bool): (s: string)
    requires 2 <= b <= 16
    ensures s != ""
    decreases val
  {
    if val < b then [DigitChar(val, upper)] else Numeral(val / b, b, upper) + [DigitChar(val % b, upper)]
  }

  /** What a string of digits is worth in base b. */
  function Worth(s: string, b: nat): int {
    if s == "" then 0 else Worth(s[..|s| - 1], b) * b + DigitOf(s[|s| - 1])
  }

  lemma DigitRoundTrip(d: nat, upper: bool)
    requires d < 16
    ensures DigitOf(DigitChar(d, upper)) == d
  {
  }

  lemma Rebuilt(v: nat, b: nat)
    requires 2 <= b
    ensures (v / b) * b + v % b == v
  {
  }

  lemma WorthStep(s: string, c: char, b: nat)
    ensures Worth(s + [c], b) == Worth(s, b) * b + DigitOf(c)
  {
    assert (s + [c])[..|s|] == s;
  }

  /** The digits of a numeral are worth its value. */
  lemma {:induction false} NumeralWorth(val: nat, b: nat, upper: bool)
    requires 2 <= b <= 16
    ensures Worth(Numeral(val, b, upper), b) == val
    decreases val
  {
    NumeralStep(val, b, upper);
    Divided(val, b);
    if val / b > 0 {
      NumeralWorth(val / b, b, upper);
    }
    WorthStep(Front(val / b, b, upper), DigitChar(val % b, upper), b);
    DigitRoundTrip(val % b, upper);
    Rebuilt(val, b);
  }

  /** A numeral has no leading zero, except for 0 itself. */
  lemma {:induction false} NumeralLeads(val: nat, b: nat, upper: bool)
    requires 2 <= b <= 16
    ensures Numeral(val, b, upper)[0] == '0' <==> val == 0
    decreases val
  {
    NumeralStep(val, b, upper);
    Divided(val, b);
    if val / b > 0 {
      NumeralLeads(val / b, b, upper);
    } else {
      DigitRoundTrip(val, upper);
    }
  }

  // ---------------------------------------------------------------------
  // What the C standard asks for (section 7.21.6.1 of ISO C11)

  function Magnitude(val: int): nat {
    if val < 0 then -val else val
  }

  function SignOf(fs: Spec, val: int): string {
    if fs.conv != Signed then "" else if val < 0 then "-" else fs.sign
  }

  /** The digits, with zeros in front up to the precision; no digits at all for 0 with precision 0. */
  function Body(fs: Spec, val: int): string {
    if val == 0 && fs.hasPrec && fs.prec == 0 then ""
    else
      var s := Numeral(Magnitude(val), BaseOf(fs.conv), fs.upper);
      Rep('0', fs.prec - |s|) + s
  }

  /** How much of the field sign and body leave. */
  function PadOf(fs: Spec, sign: string, body: string): int {
    if fs.hasWidth then fs.width - |sign| - |body| else 0
  }

  /** Sign and body in a field: filled with zeros after the sign, or with spaces on one side. */
  function Framed(fs: Spec, sign: string, body: string, zeros: bool): string {
    var pad := PadOf(fs, sign, body);
    if fs.left then sign + body + Rep(' ', pad)
    else if zeros then sign + Rep('0', pad) + body
    else Rep(' ', pad) + sign + body
  }

  function Placed(fs: Spec, val: int, zeros: bool): string {
    Framed(fs, SignOf(fs, val), Body(fs, val), zeros)
  }

  /** The 0 flag counts unless there is a - flag or a precision; a negative precision is none. */
  function Standard(fs: Spec, val: int): string {
    Placed(if fs.hasPrec then fs else fs.(prec := 0), val, fs.zero && !fs.hasPrec)
  }

  /** What the engine does: for binary conversions a precision does not switch off the 0 flag. */
  function ZerosIn(fs: Spec, val: int): bool {
    fs.zero && (!fs.hasPrec || (fs.conv == Binary && !(fs.prec == 0 && val == 0)))
  }

  /** The field is exactly as wide as asked for, or as its contents need. */
  lemma PlacedWidth(fs: Spec, val: int, zeros: bool)
    requires IsSpec(fs)
    ensures |Placed(fs, val, zeros)| == Max(fs.width, |SignOf(fs, val)| + |Body(fs, val)|)
  {
  }

  /** The digits are worth the argument, and there are as many as the precision asks for. */
  lemma BodyWorth(fs: Spec, val: int)
    ensures Worth(Body(fs, val), BaseOf(fs.conv)) == Magnitude(val)
    ensures |Body(fs, val)| == if val == 0 && fs.hasPrec && fs.prec == 0 then 0
                               else Max(fs.prec, |Numeral(Magnitude(val), BaseOf(fs.conv), fs.upper)|)
  {
    var s := Numeral(Magnitude(val), BaseOf(fs.conv), fs.upper);
    NumeralWorth(Magnitude(val), BaseOf(fs.conv), fs.upper);
    ZerosWorth(fs.prec - |s|, s, BaseOf(fs.conv));
  }

  lemma {:induction false} ZerosWorth(n: int, s: string, b: nat)
    ensures Worth(Rep('0', n) + s, b) == Worth(s, b)
    decreases |s|, Max(n, 0)
  {
    if s == "" {
      if n > 0 {
        ZerosWorth(n - 1, "", b);
        assert Rep('0', n) + "" == (Rep('0', n - 1) + "") + ['0'];
        assert ((Rep('0', n - 1) + "") + ['0'])[..n - 1] == Rep('0', n - 1) + "";
      } else {
        assert Rep('0', n) + "" == "";
      }
    } else {
      ZerosWorth(n, s[..|s| - 1], b);
      assert (Rep('0', n) + s)[..|Rep('0', n) + s| - 1] == Rep('0', n) + s[..|s| - 1];
    }
  }

  // ---------------------------------------------------------------------
  // The engine

  /** The digits still to come when v is left. */
  function Front(v: nat, b: nat, upper: bool): string
    requires 2 <= b <= 16
  {
    if v == 0 then "" else Numeral(v, b, upper)
  }

  lemma Divided(v: nat, b: nat)
    requires 2 <= b
    ensures v / b == 0 <==> v < b
    ensures v > 0 ==> v / b < v
    ensures v % b < b && (v < b ==> v % b == v)
  {
  }

  lemma NumeralStep(v: nat, b: nat, upper: bool)
    requires 2 <= b <= 16
    ensures v % b < 16 && Numeral(v, b, upper) == Front(v / b, b, upper) + [DigitChar(v % b, upper)]
  {
    Divided(v, b);
  }

  lemma Joined(x: string, c: char, buf: string)
    ensures x + [c] + Reversed(buf) == x + Reversed(buf + [c])
  {
    ReversedSnoc(buf, c);
  }

  /** One turn of npf_utoa_rev: the lowest digit, and what is left without it. */
  method TakeDigit(v: nat, base: nat, upper: bool, ghost buf: string) returns (q: nat, c: char)
    requires 2 <= base <= 16
    ensures v != 0 ==> q < v
    ensures Numeral(v, base, upper) + Reversed(buf) == Front(q, base, upper) + Reversed(buf + [c])
  {
    NumeralStep(v, base, upper);
    Divided(v, base);
    q, c := v / base, DigitChar(v % base, upper);
    Joined(Front(q, base, upper), c, buf);
  }

  /** npf_utoa_rev: digits, lowest first. */
  method UtoaRev(val: nat, base: nat, upper: bool) returns (buf: string)
    requires 2 <= base <= 16
    ensures Reversed(buf) == Numeral(val, base, upper)
  {
    var v, c := TakeDigit(val, base, upper, "");
    buf := [c];
    assert "" + buf == buf && Numeral(val, base, upper) + Reversed("") == Numeral(val, base, upper);
    while v != 0
      invariant Numeral(val, base, upper) == Front(v, base, upper) + Reversed(buf)
      decreases v
    {
      v, c := TakeDigit(v, base, upper, buf);
      buf := buf + [c];
    }
  }

  /** val >> i. */
  function Shifted(val: nat, i: nat): nat
    decreases i
  {
    if i == 0 then val else Shifted(val / 2, i - 1)
  }

  /** npf_bin_len: the number of binary digits. */
  method BinLen(val: nat) returns (n: nat)
    ensures n == |Numeral(val, 2, false)|
  {
    if val == 0 {
      return 1;
    }
    n := 0;
    var u: nat := val;
    while u > 0
      invariant n + |Front(u, 2, false)| == |Numeral(val, 2, false)|
    {
      NumeralStep(u, 2, false);
      n, u := n + 1, u / 2;
    }
  }

  /** Binary digit i, counted from the right, is bit i. */
  lemma {:induction false} BitOf(val: nat, i: nat)
    requires i < |Numeral(val, 2, false)|
    ensures Numeral(val, 2, false)[|Numeral(val, 2, false)| - 1 - i] == DigitChar(Shifted(val, i) % 2, false)
    decreases i
  {
    NumeralStep(val, 2, false);
    if i > 0 {
      BitOf(val / 2, i - 1);
    }
  }

  /** Binary digits have no case. */
  lemma {:induction false} BinaryCase(val: nat, upper: bool)
    ensures Numeral(val, 2, upper) == Numeral(val, 2, false)
    decreases val
  {
    if val >= 2 {
      BinaryCase(val / 2, upper);
    }
  }

  /** Characters put out so far, and how many. */
  class Output {
    var text: string
    var n: nat

    ghost predicate Valid()
      reads this
    {
      n == |text|
    }

    constructor ()
      ensures Valid() && text == ""
    {
      text, n := "", 0;
    }

    /** npf_putc_cnt. */
    method Put(c: char)
      requires Valid()
      modifies this
      ensures Valid() && text == old(text) + [c]
    {
      text, n := text + [c], n + 1;
    }

    /** A padding loop. */
    method PutAll(c: char, count: int)
      requires Valid()
      modifies this
      ensures Valid() && text == old(text) + Rep(c, count)
    {
      var left := count;
      while left > 0
        invariant Valid() && text + Rep(c, left) == old(text) + Rep(c, count)
      {
        RepCons(c, left - 1);
        Put(c);
        left := left - 1;
      }
    }

    method PutSign(sign: string)
      requires Valid() && |sign| <= 1
      modifies this
      ensures Valid() && text == old(text) + sign
    {
      if |sign| > 0 {
        Put(sign[0]);
        assert sign == [sign[0]];
      }
    }

    /** The payload loop: the buffer is reversed. */
    method PutReversed(buf: string)
      requires Valid()
      modifies this
      ensures Valid() && text == old(text) + Reversed(buf)
    {
      var left: nat := |buf|;
      assert buf[..left] == buf;
      while left > 0
        invariant Valid() && left <= |buf| && text + Reversed(buf[..left]) == old(text) + Reversed(buf)
      {
        assert buf[..left][..left - 1] == buf[..left - 1];
        Put(buf[left - 1]);
        left := left - 1;
      }
    }

    /** The payload loop of binary conversions, straight from the value. */
    method PutBits(val: nat, len: nat)
      requires Valid() && len == |Numeral(val, 2, false)|
      modifies this
      ensures Valid() && text == old(text) + Numeral(val, 2, false)
    {
      ghost var s := Numeral(val, 2, false);
      var left: nat := len;
      while left > 0
        invariant Valid() && left <= len && text == old(text) + s[..len - left]
      {
        left := left - 1;
        BitOf(val, left);
        Put(if Shifted(val, left) % 2 == 1 then '1' else '0');
      }
      assert s[..len] == s;
    }

    /** The digits of a conversion, without the zeros of the precision; len is their number. */
    method PutDigits(fs: Spec, uval: nat, none: bool, buf: string, len: nat)
      requires Valid()
      requires if none then len == 0 && buf == ""
               else if fs.conv == Binary then len == |Numeral(uval, 2, false)|
               else Reversed(buf) == Numeral(uval, BaseOf(fs.conv), fs.upper) && len == |buf|
      modifies this
      ensures Valid() && text == old(text) + if none then "" else Numeral(uval, BaseOf(fs.conv), fs.upper)
    {
      if fs.conv == Binary {
        BinaryCase(uval, fs.upper);
        if len > 0 {
          PutBits(uval, len);
        }
      } else {
        PutReversed(buf);
      }
    }

    /** The digits of the argument, reversed unless binary, and how many there are. */
    method Digits(fs: Spec, uval: nat, none: bool) returns (buf: string, len: nat)
      ensures if none then len == 0 && buf == ""
              else if fs.conv == Binary then len == |Numeral(uval, 2, false)|
              else Reversed(buf) == Numeral(uval, BaseOf(fs.conv), fs.upper) && len == |buf|
    {
      buf, len := "", 0;
      if !none {
        if fs.conv == Binary {
          len := BinLen(uval);
        } else {
          buf := UtoaRev(uval, BaseOf(fs.conv), fs.upper);
          len := |buf|;
        }
      }
    }

    /** The sign, with the padding that goes before the digits. */
    method OpenField(left: bool, hasWidth: bool, zeros: bool, sign: string, pad: int)
      requires Valid() && |sign| <= 1
      modifies this
      ensures Valid() && text == old(text) + Before(left, hasWidth, zeros, sign, pad)
    {
      var rest := sign;
      if !left && hasWidth {
        if zeros {
          PutSign(rest);
          rest := "";
        }
        PutAll(if zeros then '0' else ' ', pad);
      }
      PutSign(rest);
    }

    /** Precision zeros, digits, and the padding that goes after them. */
    method CloseField(fs: Spec, uval: nat, none: bool, buf: string, len: nat, precPad: int, pad: int)
      requires Valid()
      requires if none then len == 0 && buf == ""
               else if fs.conv == Binary then len == |Numeral(uval, 2, false)|
               else Reversed(buf) == Numeral(uval, BaseOf(fs.conv), fs.upper) && len == |buf|
      modifies this
      ensures Valid()
      ensures text == old(text) + (Rep('0', precPad) + DigitsOf(fs, uval, none)) + if fs.left && fs.hasWidth
              then Rep(' ', pad) else ""
    {
      ghost var start := text;
      PutAll('0', precPad);
      PutDigits(fs, uval, none, buf, len);
      Assoc(start, Rep('0', precPad), DigitsOf(fs, uval, none));
      if fs.left && fs.hasWidth {
        PutAll(' ', pad);
      } else {
        NoMore(text);
      }
    }

    /** One integer conversion of npf_vpprintf. */
    method Convert(fs: Spec, val: int)
      requires Valid() && IsSpec(fs) && (fs.conv != Signed ==> val >= 0)
      modifies this
      ensures Valid() && text == old(text) + Placed(fs, val, ZerosIn(fs, val))
    {
      ghost var start := text;
      var leadingZero := fs.zero && !(fs.hasPrec && fs.conv != Binary);
      var sign := if fs.conv != Signed then "" else if val < 0 then "-" else fs.sign;
      var none := val == 0 && fs.hasPrec && fs.prec == 0;
      var uval: nat := Magnitude(val);
      var buf, len := Digits(fs, uval, none);
      var zeros := leadingZero && !fs.left && !none;
      var precPad := Max(0, fs.prec - len);
      var fieldPad := Max(0, fs.width - len - |sign| - precPad);
      LengthIs(fs, uval, none, buf, len);
      OpenField(fs.left, fs.hasWidth, zeros, sign, fieldPad);
      CloseField(fs, uval, none, buf, len, precPad, fieldPad);
      PartsArePlaced(fs, val, zeros, precPad, fieldPad, start);
    }
  }

  function Before(left: bool, hasWidth: bool, zeros: bool, sign: string, pad: int): string {
    if left || !hasWidth then sign else if zeros then sign + Rep('0', pad) else Rep(' ', pad) + sign
  }

  function DigitsOf(fs: Spec, uval: nat, none: bool): string {
    if none then "" else Numeral(uval, BaseOf(fs.conv), fs.upper)
  }

  lemma LengthIs(fs: Spec, uval: nat, none: bool, buf: string, len: nat)
    requires if none then len == 0 && buf == ""
             else if fs.conv == Binary then len == |Numeral(uval, 2, false)|
             else Reversed(buf) == Numeral(uval, BaseOf(fs.conv), fs.upper) && len == |buf|
    ensures len == |DigitsOf(fs, uval, none)|
  {
    BinaryCase(uval, fs.upper);
  }

  /** The engine's padding counts are those of the field. */
  lemma {:induction false} PartsArePlaced(fs: Spec, val: int, zeros: bool, precPad: int, pad: int, start: string)
    requires IsSpec(fs)
    requires var none := val == 0 && fs.hasPrec && fs.prec == 0;
             var digits := DigitsOf(fs, Magnitude(val), none);
             zeros == (fs.zero && !(fs.hasPrec && fs.conv != Binary) && !fs.left && !none) &&
             precPad == Max(0, fs.prec - |digits|) && pad == Max(0, fs.width - |digits| - |SignOf(fs, val)| - precPad)
    ensures var none := val == 0 && fs.hasPrec && fs.prec == 0;
            start + Before(fs.left, fs.hasWidth, zeros, SignOf(fs, val), pad) +
                (Rep('0', precPad) + DigitsOf(fs, Magnitude(val), none)) +
              (if fs.left && fs.hasWidth then Rep(' ', pad) else "") ==
            start + Placed(fs, val, ZerosIn(fs, val))
  {
    var none := val == 0 && fs.hasPrec && fs.prec == 0;
    var digits := DigitsOf(fs, Magnitude(val), none);
    var sign := SignOf(fs, val);
    RepMax('0', fs.prec - |digits|);
    assert Rep('0', precPad) + digits == Body(fs, val);
    RepMax('0', fs.width - |sign| - |Body(fs, val)|);
    RepMax(' ', fs.width - |sign| - |Body(fs, val)|);
    Associate(start, sign, Rep('0', pad), Body(fs, val), Rep(' ', pad));
  }

  lemma Assoc(x: string, y: string, z: string)
    ensures (x + y) + z == x + (y + z)
  {
  }

  lemma NoMore(x: string)
    ensures x + "" == x
  {
  }

  lemma RepMax(c: char, n: int)
    ensures Rep(c, Max(0, n)) == Rep(c, n)
  {
  }

  lemma Associate(start: string, sign: string, zeros: string, body: string, spaces: string)
    ensures start + sign + body + spaces == start + (sign + body + spaces)
    ensures start + (sign + zeros) + body + "" == start + (sign + zeros + body)
    ensures start + (spaces + sign) + body + "" == start + (spaces + sign + body)
    ensures start + sign + body + "" == start + (sign + body + "")
    ensures start + sign + body + "" == start + ("" + sign + body)
    ensures start + sign + body + "" == start + (sign + "" + body)
  {
  }

  /** A binary number filled with zeros although it has a precision. */
  predicate ZerosForSpaces(fs: Spec, val: int) {
    fs.conv == Binary && fs.zero && fs.hasPrec && !fs.left && |Body(fs, val)| < fs.width && (fs.prec != 0 || val != 0)
  }

  /** Zeros for a negative precision, other than those that fill the field anyway. */
  predicate ZerosForNegative(fs: Spec, val: int) {
    !fs.hasPrec && fs.prec > |Numeral(Magnitude(val), BaseOf(fs.conv), fs.upper)| &&
    !(fs.zero && !fs.left && |SignOf(fs, val)| + fs.prec <= fs.width)
  }

  /**
    The engine prints what the C standard asks for, except that it fills binary
    numbers with zeros where spaces are due, and that a negative precision in the
    format still asks for digits.
   */
  lemma StandardIff(fs: Spec, val: int)
    requires IsSpec(fs) && (fs.conv != Signed ==> val >= 0)
    ensures Placed(fs, val, ZerosIn(fs, val)) == Standard(fs, val) <==>
            !ZerosForSpaces(fs, val) && !ZerosForNegative(fs, val)
  {
    if fs.hasPrec {
      SpacesIff(fs, val);
    } else {
      NegativeIff(fs, val);
    }
  }

  /** %05.3b of 1 prints 00001 where two spaces and 001 are due. */
  lemma ZerosWhereSpacesAreDue()
    ensures var fs := Spec(false, true, "", false, true, 5, true, 3, Binary);
            Placed(fs, 1, ZerosIn(fs, 1)) == "00001" && Standard(fs, 1) == "  001"
  {
    var fs := Spec(false, true, "", false, true, 5, true, 3, Binary);
    assert Numeral(1, 2, false) == "1";
    assert Rep('0', 2) == "00" && Rep(' ', 2) == "  ";
    assert Body(fs, 1) == "001";
  }

  /** %.-3d of 5 prints 005 where a precision below zero counts as none. */
  lemma ZerosForNegativePrecision()
    ensures var fs := Spec(false, false, "", false, false, 0, false, 3, Signed);
            Placed(fs, 5, ZerosIn(fs, 5)) == "005" && Standard(fs, 5) == "5"
  {
    var fs := Spec(false, false, "", false, false, 0, false, 3, Signed);
    assert Numeral(5, 10, false) == "5";
    assert Rep('0', 2) == "00" && Rep('0', 0 - 1) == "" && Rep(' ', 0) == "";
    assert Body(fs, 5) == "005" && Body(fs.(prec := 0), 5) == "5";
  }

  lemma SpacesIff(fs: Spec, val: int)
    requires IsSpec(fs) && (fs.conv != Signed ==> val >= 0) && fs.hasPrec
    ensures Placed(fs, val, ZerosIn(fs, val)) == Standard(fs, val) <==> !ZerosForSpaces(fs, val)
  {
    var body := Body(fs, val);
    var pad := fs.width - |body|;
    if fs.conv == Binary && fs.zero && !fs.left && (fs.prec != 0 || val != 0) {
      if pad > 0 {
        RepCons('0', pad - 1);
        RepCons(' ', pad - 1);
        assert Placed(fs, val, true)[0] == '0' && Placed(fs, val, false)[0] == ' ';
      } else {
        assert Placed(fs, val, true) == body && Placed(fs, val, false) == body;
      }
    }
  }

  /** Spaces after a shorter text do not make up for a longer text that does not end in one. */
  lemma TailsDiffer(u: string, w: string, p: int, q: int)
    requires |w| < |u| && u[|u| - 1] != ' '
    ensures u + Rep(' ', p) != w + Rep(' ', q)
  {
    var k := |u| - 1;
    assert (u + Rep(' ', p))[k] == u[k];
    if k < |w| + |Rep(' ', q)| {
      RepAt(' ', q, k - |w|);
      assert (w + Rep(' ', q))[k] == ' ';
    }
  }

  lemma LeftDiffers(fs: Spec, sign: string, s: string)
    requires fs.left && fs.prec > |s| > 0 && s[|s| - 1] != ' '
    ensures Framed(fs, sign, Rep('0', fs.prec - |s|) + s, fs.zero) != Framed(fs.(prec := 0), sign, s, fs.zero)
  {
    var body := Rep('0', fs.prec - |s|) + s;
    TailsDiffer(sign + body, sign + s, PadOf(fs, sign, body), PadOf(fs.(prec := 0), sign, s));
  }

  /** Zeros in front of digits are not spaces in front of them. */
  lemma RowsDiffer(sign: string, s: string, p: nat, q: nat, n: nat)
    requires (sign == "" || sign == "+" || sign == "-" || sign == " ") && n > 0
    ensures Rep(' ', p) + sign + (Rep('0', n) + s) != Rep(' ', q) + sign + s
  {
    var x := Rep(' ', p) + sign + (Rep('0', n) + s);
    var y := Rep(' ', q) + sign + s;
    var k := p + |sign|;
    RepAt('0', n, 0);
    assert x[k] == '0';
    if |y| == |x| {
      if k < q {
        RepAt(' ', q, k);
        assert y[k] == ' ';
      } else {
        assert y[k] == sign[k - q];
      }
    }
  }

  lemma {:induction false} RightDiffers(fs: Spec, sign: string, s: string)
    requires !fs.left && (sign == "" || sign == "+" || sign == "-" || sign == " ") && fs.prec > |s| > 0
    ensures Framed(fs, sign, Rep('0', fs.prec - |s|) + s, false) != Framed(fs.(prec := 0), sign, s, false)
  {
    var n := fs.prec - |s|;
    RowsDiffer(sign, s, Max(0, if fs.hasWidth then fs.width - |sign| - fs.prec else 0),
        Max(0, if fs.hasWidth then fs.width - |sign| - |s| else 0), n);
  }

  lemma FramedLength(fs: Spec, sign: string, body: string, zeros: bool)
    requires !fs.hasWidth ==> fs.width == 0
    ensures |Framed(fs, sign, body, zeros)| == Max(fs.width, |sign| + |body|)
  {
  }

  /** Zeros of the precision and zeros of the field make one row. */
  lemma ZerosJoin(sign: string, s: string, m: nat, n: nat)
    ensures sign + Rep('0', m) + (Rep('0', n) + s) == sign + Rep('0', m + n) + s
  {
    RepAdd('0', m, n);
  }

  lemma {:induction false} ZerosFit(fs: Spec, sign: string, s: string, n: nat)
    requires !fs.left && fs.hasWidth && |sign| + n + |s| <= fs.width
    ensures Framed(fs, sign, Rep('0', n) + s, true) == Framed(fs.(prec := 0), sign, s, true)
  {
    var m := fs.width - |sign| - n - |s|;
    ZerosJoin(sign, s, m, n);
  }

  lemma ZerosOver(fs: Spec, sign: string, s: string, n: nat)
    requires !fs.left && n > 0 && |sign| + n + |s| > fs.width && (!fs.hasWidth ==> fs.width == 0)
    ensures Framed(fs, sign, Rep('0', n) + s, true) != Framed(fs.(prec := 0), sign, s, true)
  {
    FramedLength(fs, sign, Rep('0', n) + s, true);
    FramedLength(fs.(prec := 0), sign, s, true);
  }

  lemma ZerosSame(fs: Spec, sign: string, s: string)
    requires !fs.left && fs.prec > |s| && (!fs.hasWidth ==> fs.width == 0)
    ensures Framed(fs, sign, Rep('0', fs.prec - |s|) + s, true) == Framed(fs.(prec := 0), sign, s, true) <==>
            |sign| + fs.prec <= fs.width
  {
    if |sign| + fs.prec <= fs.width {
      ZerosFit(fs, sign, s, fs.prec - |s|);
    } else {
      ZerosOver(fs, sign, s, fs.prec - |s|);
    }
  }

  /** The two fields when the precision is negative. */
  lemma NegativeFields(fs: Spec, val: int, s: string)
    requires !fs.hasPrec && s == Numeral(Magnitude(val), BaseOf(fs.conv), fs.upper)
    ensures Placed(fs, val, ZerosIn(fs, val)) == Framed(fs, SignOf(fs, val), Rep('0', fs.prec - |s|) + s, fs.zero)
    ensures Standard(fs, val) == Framed(fs.(prec := 0), SignOf(fs, val), s, fs.zero)
  {
    assert Rep('0', 0 - |s|) + s == s;
  }

  lemma NegativeIff(fs: Spec, val: int)
    requires IsSpec(fs) && (fs.conv != Signed ==> val >= 0) && !fs.hasPrec
    ensures Placed(fs, val, ZerosIn(fs, val)) == Standard(fs, val) <==> !ZerosForNegative(fs, val)
  {
    var s := Numeral(Magnitude(val), BaseOf(fs.conv), fs.upper);
    NegativeFields(fs, val, s);
    if fs.prec > |s| {
      LastDigit(Magnitude(val), BaseOf(fs.conv), fs.upper);
      if fs.left {
        LeftDiffers(fs, SignOf(fs, val), s);
      } else if fs.zero {
        ZerosSame(fs, SignOf(fs, val), s);
      } else {
        RightDiffers(fs, SignOf(fs, val), s);
      }
    } else {
      assert Rep('0', fs.prec - |s|) + s == s;
    }
  }

  lemma {:induction false} RepAt(c: char, n: int, i: nat)
    requires i < n
    ensures Rep(c, n)[i] == c
    decreases n
  {
    if i < n - 1 {
      RepAt(c, n - 1, i);
    }
  }

  lemma {:induction false} RepAdd(c: char, m: nat, n: nat)
    ensures Rep(c, m) + Rep(c, n) == Rep(c, m + n)
  {
    if n > 0 {
      RepAdd(c, m, n - 1);
      assert Rep(c, m) + Rep(c, n) == (Rep(c, m) + Rep(c, n - 1)) + [c];
    } else {
      assert Rep(c, m) + Rep(c, n) == Rep(c, m);
    }
  }

  lemma LastDigit(v: nat, b: nat, upper: bool)
    requires 2 <= b <= 16
    ensures var s := Numeral(v, b, upper); s[|s| - 1] != ' '
  {
    NumeralStep(v, b, upper);
  }

  lemma {:induction false} RepCons(c: char, n: nat)
    ensures Rep(c, n + 1) == [c] + Rep(c, n)
  {
    if n > 0 {
      RepCons(c, n - 1);
    }
  }

  // ---------------------------------------------------------------------
  // npf_vsnprintf

  /** The characters of a whole output go to a buffer one by one; the count goes on when the buffer is full. */
  method Store(output: string, buffer: array<char>) returns (n: nat)
    modifies buffer
    ensures n == |output|
    ensures buffer.Length > 0 ==>
              var k := if n < buffer.Length then n else buffer.Length - 1;
              buffer[..k] == output[..k] && buffer[k] == '\0'
  {
    var cur: nat := 0;
    n := 0;
    while n < |output|
      invariant n <= |output| && cur == (if n < buffer.Length then n else buffer.Length) &&
                buffer[..cur] == output[..cur]
    {
      if cur < buffer.Length {
        buffer[cur] := output[n];
        cur := cur + 1;
      }
      n := n + 1;
    }
    if buffer.Length > 0 {
      var k := if n < buffer.Length - 1 then n else buffer.Length - 1;
      assert buffer[..k] == buffer[..cur][..k] && output[..k] == output[..cur][..k];
      buffer[k] := '\0';
    }
  }
}
