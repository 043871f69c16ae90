// String and number helpers of the evaluator.

module GkStrings {
  import opened Basics
  import opened Options
  import opened GkValues

  /** The digit loop of int_to_str: digits come out backwards. */
  method BackwardDigits(v: nat) returns (tmp: string)
    ensures Reversed(tmp) == Digits(v)
  {
    tmp := "";
    var n: nat := v;
    while n > 0
      invariant Digits(v) == Digits(n) + Reversed(tmp)
    {
      ReversedSnoc(tmp, Digit(n % 10));
      tmp := tmp + [Digit(n % 10)];
      n := n / 10;
    }
  }

  /** The copy loop of int_to_str. */
  method TurnRound(tmp: string) returns (buf: string)
    ensures buf == Reversed(tmp)
  {
    buf := "";
    var j := 0;
    while j < |tmp|
      invariant 0 <= j <= |tmp| && buf == Reversed(tmp)[..j]
    {
      buf := buf + [tmp[|tmp| - 1 - j]];
      j := j + 1;
    }
  }

  /** int_to_str. */
  method IntToStr(v: int) returns (buf: string)
    ensures buf == Decimal(v)
  {
    if v == 0 {
      return "0";
    }
    var tmp := BackwardDigits(Abs(v));
    if v < 0 {
      ReversedSnoc(tmp, '-');
      tmp := tmp + ['-'];
    }
    buf := TurnRound(tmp);
  }

  /** val_to_str. */
  method ValToStr(v: Value) returns (buf: string)
    ensures buf == Shown(v)
  {
    if v.IntV? {
      buf := IntToStr(v.n);
    } else if v.BoolV? {
      buf := if v.b then "True" else "False";
    } else if v.StrV? {
      buf := v.s;
    } else {
      buf := "None";
    }
  }

  /** strcat_s: appends up to the end of a buffer of 256 bytes. */
  method StrCat(dst: string, src: string) returns (r: string)
    ensures r == Cat(dst, src)
  {
    r := dst;
    var i := 0;
    while i < |src| && |dst| + i < MAX_STR - 1
      invariant 0 <= i <= |src| && r == dst + src[..i] && (i > 0 ==> |dst| + i <= MAX_STR - 1)
    {
      r := r + [src[i]];
      i := i + 1;
    }
    CatIs(dst, src, i);
  }

  lemma CatIs(dst: string, src: string, i: nat)
    requires i <= |src| && (i == |src| || |dst| + i >= MAX_STR - 1) && (i > 0 ==> |dst| + i <= MAX_STR - 1)
    ensures dst + src[..i] == Cat(dst, src)
  {
    if i == |src| && |dst| + |src| <= MAX_STR - 1 {
      assert src[..i] == src;
    }
  }

  /** The digit loop of int(). */
  method ParseDigits(p: string) returns (ok: bool, n: int)
    ensures ok == AllDigits(p)
    ensures ok ==> n == DigitsValue(p, 0)
  {
    n := 0;
    var i := 0;
    while i < |p|
      invariant 0 <= i <= |p| && AllDigits(p[..i]) && DigitsValue(p, 0) == DigitsValue(p[i..], n)
    {
      if p[i] < '0' || p[i] > '9' {
        return false, 0;
      }
      assert p[i..][1..] == p[i + 1..];
      assert p[..i + 1] == p[..i] + [p[i]];
      n := n * 10 + (p[i] as int - '0' as int);
      i := i + 1;
    }
    assert p[..i] == p && p[i..] == "";
    ok := true;
  }

  /** int() of a string. */
  method ParseIntText(s: string) returns (r: Option<int>)
    ensures r == ParseInt(s)
  {
    var neg := |s| > 0 && s[0] == '-';
    var p := if neg then s[1..] else s;
    if |p| == 0 {
      return None;
    }
    var ok, n := ParseDigits(p);
    if !ok {
      return None;
    }
    r := Some(if neg then -n else n);
  }

  // ---------------------------------------------------------------------
  // Round trip

  lemma {:induction false} DigitsAreDigits(n: nat)
    ensures AllDigits(Digits(n)) && (n > 0 ==> Digits(n) != "")
  {
    if n > 0 {
      DigitsAreDigits(n / 10);
    }
  }

  lemma {:induction false} DigitsValueAppend(s: string, c: char, acc: int)
    ensures DigitsValue(s + [c], acc) == DigitsValue(s, acc) * 10 + (c as int - '0' as int)
    decreases |s|
  {
    if s == "" {
      assert s + [c] == [c] && [c][1..] == "";
    } else {
      assert (s + [c])[1..] == s[1..] + [c];
      DigitsValueAppend(s[1..], c, acc * 10 + (s[0] as int - '0' as int));
    }
  }

  lemma {:induction false} DigitsValueIs(n: nat)
    ensures DigitsValue(Digits(n), 0) == n
  {
    if n > 0 {
      DigitsValueIs(n / 10);
      DigitsValueAppend(Digits(n / 10), Digit(n % 10), 0);
    }
  }

  /** int() undoes the conversion of a number to a string. */
  lemma ParseUndoesDecimal(v: int)
    ensures ParseInt(Decimal(v)) == Some(v)
  {
    var n := Abs(v);
    DigitsAreDigits(n);
    DigitsValueIs(n);
    if v < 0 {
      assert Decimal(v)[1..] == Digits(n);
    } else if v == 0 {
      assert "0"[1..] == "";
    } else {
      assert '0' <= Digits(n)[0];
    }
  }

  /** A concatenation fits the buffer, and is exact when both parts fit together. */
  lemma CatFits(a: string, b: string)
    requires |a| <= MAX_STR - 1
    ensures |Cat(a, b)| <= MAX_STR - 1 && a <= Cat(a, b) <= a + b
    ensures Cat(a, b) == a + b <==> |a| + |b| <= MAX_STR - 1
  {
  }
}
