// Formatted output: what a format string prints for a list of arguments, and
// the loop that prints it.

module FormatOutput {
  import opened Basics
  import opened NumberFormat
  import opened FormatStrings

  datatype Arg = Num(n: int) | Str(s: string)

  /** A directive with its stars filled in from the arguments. */
  datatype Filled = Filled(fs: Spec, rest: seq<Arg>) | Short

  /** What a directive prints, and the arguments it leaves. */
  datatype Field = Field(text: string, rest: seq<Arg>) | Wrong

  /** What a whole format string prints; Misfit when the arguments do not suit it. */
  datatype Rendering = Done(text: string) | Misfit

  function FillPrec(d: Directive, fs: Spec, args: seq<Arg>): Filled {
    match d.prec
    case NoPrec => Filled(fs, args)
    case Prec(p) => Filled(fs.(hasPrec := true, prec := p), args)
    case Negative(p) => Filled(fs.(prec := p), args)
    case StarPrec =>
      if args == [] || !args[0].Num? then Short
      else Filled(if args[0].n < 0 then fs else fs.(hasPrec := true, prec := args[0].n), args[1..])
  }

  function Fill(d: Directive, args: seq<Arg>): (r: Filled)
    ensures r.Filled? && (d.sign == "" || d.sign == "+" || d.sign == " ") ==> IsSpec(r.fs)
    ensures r.Filled? && d.kind.Integer? ==> r.fs.conv == d.kind.conv
  {
    var fs := Spec(d.left, d.zero, d.sign, d.upper, false, 0, false, 0, if d.kind.Integer? then d.kind.conv
        else Unsigned);
    match d.width
    case NoWidth => FillPrec(d, fs, args)
    case Width(w) => FillPrec(d, fs.(hasWidth := true, width := w), args)
    case StarWidth =>
      if args == [] || !args[0].Num? then Short
      else
        var w := args[0].n;
        FillPrec(d, fs.(left := d.left || w < 0, hasWidth := true, width := Magnitude(w)), args[1..])
  }

  /** The value of an integer argument: unsigned conversions read it modulo 2^32. */
  function ValueOf(conv: Conv, n: int): int {
    if conv == Signed then n else n % WORD
  }

  /** A string up to its precision. */
  function Cut(fs: Spec, s: string): string {
    if fs.hasPrec && fs.prec < |s| then s[..fs.prec] else s
  }

  /** Text in a field, with zeros of the precision in front; the 0 flag fills with zeros. */
  function Boxed(fs: Spec, zeros: nat, s: string): string {
    Framed(fs, "", Rep('0', zeros) + s, fs.zero)
  }

  function OneChar(fs: Spec, c: char): string {
    Boxed(fs, Max(0, fs.prec - 1), [c])
  }

  /** What one directive prints. */
  function FieldOf(d: Directive, fs: Spec, args: seq<Arg>): Field {
    match d.kind
    case Percent => Field(OneChar(fs, '%'), args)
    case Character => if args == [] || !args[0].Num? then Wrong
        else Field(OneChar(fs, (args[0].n % 256) as char), args[1..])
    case Text => if args == [] || !args[0].Str? then Wrong else Field(Boxed(fs, 0, Cut(fs, args[0].s)), args[1..])
    case Integer(conv) =>
      if d.length == LongDouble then Field(Placed(fs, 0, ZerosIn(fs, 0)), args)
      else if args == [] || !args[0].Num? then Wrong
      else
        var val := ValueOf(conv, args[0].n);
        Field(Placed(fs, val, ZerosIn(fs, val)), args[1..])
    case Pointer => Wrong
    case Floating(_) => Wrong
  }

  function Render(d: Directive, args: seq<Arg>): Field {
    match Fill(d, args)
    case Short => Wrong
    case Filled(fs, rest) => FieldOf(d, fs, rest)
  }

  function Prepend(s: string, r: Rendering): Rendering {
    if r.Done? then Done(s + r.text) else Misfit
  }

  /** What a format string prints: text as it stands, and a field for every directive. */
  function Rendered(fmt: string, args: seq<Arg>): Rendering
    decreases |fmt|
  {
    if fmt == "" then Done("")
    else if fmt[0] != '%' || Scan(fmt).NotOne? then Prepend(fmt[..1], Rendered(fmt[1..], args))
    else
      var f := Render(Scan(fmt).d, args);
      if f.Wrong? then Misfit else Prepend(f.text, Rendered(fmt[Scan(fmt).n..], f.rest))
  }

  // ---------------------------------------------------------------------
  // Laws

  /** Text without a percent sign prints as it stands, whatever the arguments. */
  lemma {:induction false} PlainText(fmt: string, args: seq<Arg>)
    requires '%' !in fmt
    ensures Rendered(fmt, args) == Done(fmt)
    decreases |fmt|
  {
    if fmt != "" {
      PlainText(fmt[1..], args);
      assert fmt == fmt[..1] + fmt[1..];
    }
  }

  /** Every percent sign doubled. */
  function Escaped(s: string): string {
    if s == "" then "" else (if s[0] == '%' then "%%" else s[..1]) + Escaped(s[1..])
  }

  lemma PlainFirst(t: string, args: seq<Arg>)
    requires t != "" && t[0] != '%'
    ensures Rendered(t, args) == Prepend(t[..1], Rendered(t[1..], args))
  {
  }

  /** An escaped text prints as the text itself. */
  lemma {:induction false} EscapedPrints(s: string, args: seq<Arg>)
    ensures Rendered(Escaped(s), args) == Done(s)
    decreases |s|
  {
    if s != "" {
      EscapedPrints(s[1..], args);
      var t := Escaped(s);
      assert s == s[..1] + s[1..];
      if s[0] == '%' {
        assert t[2..] == Escaped(s[1..]);
        PercentPercent(t, args);
      } else {
        assert t[0] == s[0] && t[..1] == s[..1] && t[1..] == Escaped(s[1..]);
        PlainFirst(t, args);
      }
    }
  }

  lemma PercentPercent(t: string, args: seq<Arg>)
    requires |t| >= 2 && t[0] == '%' && t[1] == '%'
    ensures Rendered(t, args) == Prepend("%", Rendered(t[2..], args))
  {
    assert Scan(t) == Found(Directive(false, false, "", NoWidth, NoPrec, Plain, false, Percent), 2);
    var f := Render(Scan(t).d, args);
    assert f == Field(Rep(' ', 0) + "" + (Rep('0', 0) + "%"), args);
    assert Rep(' ', 0) + "" + (Rep('0', 0) + "%") == "%";
  }

  /** Every percent sign of the format starts a directive, and the arguments suit them and are used up. */
  predicate Complete(fmt: string, args: seq<Arg>)
    decreases |fmt|
  {
    if fmt == "" then args == []
    else if fmt[0] != '%' then Complete(fmt[1..], args)
    else Scan(fmt).Found? &&
         var f := Render(Scan(fmt).d, args);
         f.Field? && Complete(fmt[Scan(fmt).n..], f.rest)
  }

  lemma FirstArg(args: seq<Arg>, more: seq<Arg>)
    requires args != []
    ensures args + more != [] && (args + more)[0] == args[0] && (args + more)[1..] == args[1..] + more
  {
  }

  lemma FillMore(d: Directive, args: seq<Arg>, more: seq<Arg>)
    requires Fill(d, args).Filled?
    ensures Fill(d, args + more) == Fill(d, args).(rest := Fill(d, args).rest + more)
  {
    if args != [] {
      FirstArg(args, more);
      if |args| > 1 {
        FirstArg(args[1..], more);
      }
    }
  }

  lemma RenderMore(d: Directive, args: seq<Arg>, more: seq<Arg>)
    requires Render(d, args).Field?
    ensures Render(d, args + more) == Render(d, args).(rest := Render(d, args).rest + more)
  {
    FillMore(d, args, more);
    var rest := Fill(d, args).rest;
    if rest != [] {
      FirstArg(rest, more);
    }
  }

  /** A directive is read the same, whatever follows it. */
  lemma ScanMore(fmt: string, more: string)
    requires fmt != "" && fmt[0] == '%' && Scan(fmt).Found?
    ensures Scan(fmt + more) == Scan(fmt)
  {
    var d, n := Scan(fmt).d, Scan(fmt).n;
    ScanIff(fmt, n, d);
    var parts :| MadeOf(fmt, n, d, parts);
    StillMadeOf(fmt, n, d, parts, more);
    ScanComplete(fmt + more, n, d, parts);
  }

  lemma ConcatLiteral(fmt: string, args: seq<Arg>, fmt': string)
    requires fmt != "" && fmt[0] != '%'
    ensures Rendered(fmt + fmt', args) == Prepend(fmt[..1], Rendered(fmt[1..] + fmt', args))
  {
    assert (fmt + fmt')[1..] == fmt[1..] + fmt' && (fmt + fmt')[..1] == fmt[..1];
  }

  lemma {:induction false} ConcatField(fmt: string, args: seq<Arg>, fmt': string, args': seq<Arg>)
    requires fmt != "" && fmt[0] == '%' && Scan(fmt).Found? && Render(Scan(fmt).d, args).Field?
    ensures var f := Render(Scan(fmt).d, args);
            Rendered(fmt + fmt', args + args') == Prepend(f.text, Rendered(fmt[Scan(fmt).n..] + fmt', f.rest + args'))
  {
    var n := Scan(fmt).n;
    ScanMore(fmt, fmt');
    RenderMore(Scan(fmt).d, args, args');
    assert (fmt + fmt')[n..] == fmt[n..] + fmt';
  }

  /** A format that is complete prints its text, then whatever is put after it prints. */
  lemma {:induction false} RenderedConcat(fmt: string, args: seq<Arg>, fmt': string, args': seq<Arg>)
    requires Complete(fmt, args)
    ensures Rendered(fmt, args).Done?
    ensures Rendered(fmt + fmt', args + args') == Prepend(Rendered(fmt, args).text, Rendered(fmt', args'))
    decreases |fmt|
  {
    if fmt == "" {
      assert fmt + fmt' == fmt' && args + args' == args';
    } else if fmt[0] != '%' {
      RenderedConcat(fmt[1..], args, fmt', args');
      ConcatLiteral(fmt, args + args', fmt');
      PrependTwice(fmt[..1], Rendered(fmt[1..], args).text, Rendered(fmt', args'));
    } else {
      var f := Render(Scan(fmt).d, args);
      RenderedConcat(fmt[Scan(fmt).n..], f.rest, fmt', args');
      ConcatField(fmt, args, fmt', args');
      PrependTwice(f.text, Rendered(fmt[Scan(fmt).n..], f.rest).text, Rendered(fmt', args'));
    }
  }

  lemma PrependTwice(x: string, y: string, r: Rendering)
    ensures Prepend(x, Prepend(y, r)) == Prepend(x + y, r)
  {
    if r.Done? {
      assert x + (y + r.text) == (x + y) + r.text;
    }
  }

  // ---------------------------------------------------------------------
  // The engine

  /** How many arguments the stars of a directive take. */
  function Stars(d: Directive): nat {
    (if d.width.StarWidth? then 1 else 0) + (if d.prec.StarPrec? then 1 else 0)
  }

  /** The arguments start with the numbers that the stars ask for. */
  predicate HasStars(d: Directive, args: seq<Arg>) {
    |args| >= Stars(d) && forall k :: 0 <= k < Stars(d) ==> args[k].Num?
  }

  /**
    What filling in the stars means.  The stars take their arguments in order,
    width first.  A width argument counts by its magnitude, and justifies to the
    left when it is negative; a precision argument counts unless it is negative.
    Nothing else of the directive changes.
   */
  predicate Fills(d: Directive, args: seq<Arg>, fs: Spec)
    requires HasStars(d, args)
  {
    var p := if d.prec.StarPrec? then args[Stars(d) - 1].n else 0;
    fs.zero == d.zero && fs.sign == d.sign && fs.upper == d.upper && (d.kind.Integer? ==> fs.conv == d.kind.conv) &&
    (!d.kind.Integer? ==> fs.conv == Unsigned) &&
    fs.hasWidth == !d.width.NoWidth? &&
    fs.left == (d.left || (d.width.StarWidth? && args[0].n < 0)) &&
    (d.width.NoWidth? ==> fs.width == 0) && (d.width.Width? ==> fs.width == d.width.w) &&
    (d.width.StarWidth? ==> fs.width == args[0].n || fs.width == -args[0].n) &&
    fs.hasPrec == (d.prec.Prec? || (d.prec.StarPrec? && p >= 0)) &&
    (d.prec.Prec? || d.prec.Negative? ==> fs.prec == d.prec.p) &&
    (d.prec.NoPrec? ==> fs.prec == 0) && (d.prec.StarPrec? ==> fs.prec == if p >= 0 then p else 0)
  }

  /** The star arguments of a directive. */
  method FillStars(d: Directive, args: seq<Arg>) returns (r: Filled)
    ensures r.Filled? <==> HasStars(d, args)
    ensures r.Filled? ==> Fills(d, args, r.fs) && r.rest == args[Stars(d)..]
  {
    var fs := Spec(d.left, d.zero, d.sign, d.upper, false, 0, false, 0, if d.kind.Integer? then d.kind.conv
        else Unsigned);
    var rest := args;
    match d.width {
      case NoWidth =>
      case Width(w) => fs := fs.(hasWidth := true, width := w);
      case StarWidth =>
        if rest == [] || !rest[0].Num? {
          return Short;
        }
        fs := fs.(hasWidth := true, width := Magnitude(rest[0].n), left := d.left || rest[0].n < 0);
        rest := rest[1..];
    }
    match d.prec {
      case NoPrec =>
      case Prec(p) => fs := fs.(hasPrec := true, prec := p);
      case Negative(p) => fs := fs.(prec := p);
      case StarPrec =>
        if rest == [] || !rest[0].Num? {
          return Short;
        }
        if rest[0].n >= 0 {
          fs := fs.(hasPrec := true, prec := rest[0].n);
        }
        rest := rest[1..];
    }
    r := Filled(fs, rest);
  }

  /** That meaning is the filling that the rendering of a format uses. */
  lemma FillIs(d: Directive, args: seq<Arg>)
    ensures Fill(d, args).Filled? <==> HasStars(d, args)
    ensures Fill(d, args).Filled? ==> Fills(d, args, Fill(d, args).fs) && Fill(d, args).rest == args[Stars(d)..]
  {
  }

  /** There is only one such filling. */
  lemma FillUnique(d: Directive, args: seq<Arg>, fs: Spec, fs': Spec)
    requires HasStars(d, args) && Fills(d, args, fs) && Fills(d, args, fs')
    ensures fs' == fs
  {
  }

  /** The loop that finds how much of a string to print. */
  method TextLength(fs: Spec, s: string) returns (len: nat)
    ensures len <= |s| && s[..len] == Cut(fs, s)
  {
    len := 0;
    while (!fs.hasPrec || len < fs.prec) && len < |s|
      invariant len <= |s| && (fs.hasPrec ==> len <= fs.prec)
    {
      len := len + 1;
    }
    assert s[..|s|] == s;
  }

  method PutText(out: Output, s: string)
    requires out.Valid()
    modifies out
    ensures out.Valid() && out.text == old(out.text) + s
  {
    var i := 0;
    while i < |s|
      invariant i <= |s| && out.Valid() && out.text == old(out.text) + s[..i]
    {
      out.Put(s[i]);
      assert s[..i + 1] == s[..i] + [s[i]];
      i := i + 1;
    }
    assert s[..|s|] == s;
  }

  /** A field of text: padding, zeros of the precision, text, padding. */
  method PutBoxed(out: Output, fs: Spec, zeros: nat, s: string)
    requires out.Valid() && IsSpec(fs)
    modifies out
    ensures out.Valid() && out.text == old(out.text) + Boxed(fs, zeros, s)
  {
    ghost var start := out.text;
    var pad := Max(0, fs.width - |s| - zeros);
    out.OpenField(fs.left, fs.hasWidth, fs.zero && !fs.left, "", pad);
    out.PutAll('0', zeros);
    PutText(out, s);
    if fs.left && fs.hasWidth {
      out.PutAll(' ', pad);
    }
    BoxedIs(fs, zeros, s, pad, start);
  }

  lemma BoxedIs(fs: Spec, zeros: nat, s: string, pad: int, start: string)
    requires IsSpec(fs) && pad == Max(0, fs.width - |s| - zeros)
    ensures start + Before(fs.left, fs.hasWidth, fs.zero && !fs.left, "", pad) + Rep('0', zeros) + s +
              (if fs.left && fs.hasWidth then Rep(' ', pad) else "") ==
            start + Boxed(fs, zeros, s)
  {
    var body := Rep('0', zeros) + s;
    RepMax('0', fs.width - |body|);
    RepMax(' ', fs.width - |body|);
    var before := Before(fs.left, fs.hasWidth, fs.zero && !fs.left, "", pad);
    Assoc(start + before, Rep('0', zeros), s);
    Associate(start, "", Rep('0', pad), body, Rep(' ', pad));
  }

  /** One directive of npf_vpprintf, its stars filled in. */
  method PutField(out: Output, d: Directive, fs: Spec, args: seq<Arg>) returns (rest: seq<Arg>)
    requires out.Valid() && IsSpec(fs) && (d.kind.Integer? ==> fs.conv == d.kind.conv) && FieldOf(d, fs, args).Field?
    modifies out
    ensures out.Valid() && out.text == old(out.text) + FieldOf(d, fs, args).text && rest == FieldOf(d, fs, args).rest
  {
    rest := args;
    match d.kind {
      case Percent => PutBoxed(out, fs, Max(0, fs.prec - 1), "%");
      case Character =>
        PutBoxed(out, fs, Max(0, fs.prec - 1), [(args[0].n % 256) as char]);
        rest := args[1..];
      case Text =>
        var len := TextLength(fs, args[0].s);
        PutBoxed(out, fs, 0, args[0].s[..len]);
        rest := args[1..];
      case Integer(conv) =>
        if d.length == LongDouble {
          out.Convert(fs, 0);
        } else {
          out.Convert(fs, ValueOf(conv, args[0].n));
          rest := args[1..];
        }
    }
  }

  /** A character that starts no directive prints as it stands. */
  lemma LiteralStep(cur: string, rest: seq<Arg>, text: string)
    requires cur != "" && (cur[0] != '%' || Scan(cur).NotOne?) && Rendered(cur, rest).Done?
    ensures Rendered(cur[1..], rest).Done?
    ensures (text + [cur[0]]) + Rendered(cur[1..], rest).text == text + Rendered(cur, rest).text
  {
    assert cur[..1] == [cur[0]];
    assert (text + [cur[0]]) + Rendered(cur[1..], rest).text == text + ([cur[0]] + Rendered(cur[1..], rest).text);
  }

  lemma FieldStep(cur: string, rest: seq<Arg>, text: string)
    requires cur != "" && cur[0] == '%' && Scan(cur).Found? && Rendered(cur, rest).Done?
    ensures var f := Render(Scan(cur).d, rest);
            f.Field? && Rendered(cur[Scan(cur).n..], f.rest).Done? &&
            (text + f.text) + Rendered(cur[Scan(cur).n..], f.rest).text == text + Rendered(cur, rest).text
  {
    var f := Render(Scan(cur).d, rest);
    var tail := Rendered(cur[Scan(cur).n..], f.rest);
    assert (text + f.text) + tail.text == text + (f.text + tail.text);
  }

  /** One directive of npf_vpprintf. */
  method PrintDirective(out: Output, d: Directive, args: seq<Arg>) returns (rest: seq<Arg>)
    requires out.Valid() && (d.sign == "" || d.sign == "+" || d.sign == " ") && Render(d, args).Field?
    modifies out
    ensures out.Valid() && out.text == old(out.text) + Render(d, args).text && rest == Render(d, args).rest
  {
    var filled := FillStars(d, args);
    FillIs(d, args);
    FillUnique(d, args, filled.fs, Fill(d, args).fs);
    rest := PutField(out, d, filled.fs, filled.rest);
  }

  /** npf_vpprintf; cur is what is left of the format. */
  method Print(out: Output, format: string, args: seq<Arg>)
    requires out.Valid() && Rendered(format, args).Done?
    modifies out
    ensures out.Valid() && out.text == old(out.text) + Rendered(format, args).text
  {
    var cur, rest := format, args;
    ghost var goal := old(out.text) + Rendered(format, args).text;
    while cur != ""
      invariant out.Valid() && Rendered(cur, rest).Done? && out.text + Rendered(cur, rest).text == goal
      decreases |cur|
    {
      var scanned := NotOne;
      if cur[0] == '%' {
        scanned := ParseDirective(cur);
      }
      if scanned.NotOne? {
        LiteralStep(cur, rest, out.text);
        out.Put(cur[0]);
        cur := cur[1..];
      } else {
        FieldStep(cur, rest, out.text);
        rest := PrintDirective(out, scanned.d, rest);
        cur := cur[scanned.n..];
      }
    }
  }

  /** npf_vsnprintf: the longest prefix that fits and a terminator; the result counts all characters. */
  method PrintToBuffer(buffer: array<char>, format: string, args: seq<Arg>) returns (n: nat)
    requires Rendered(format, args).Done?
    modifies buffer
    ensures n == |Rendered(format, args).text|
    ensures buffer.Length > 0 ==>
              var k := if n < buffer.Length then n else buffer.Length - 1;
              buffer[..k] == Rendered(format, args).text[..k] && buffer[k] == '\0'
  {
    var out := new Output();
    Print(out, format, args);
    assert out.text == Rendered(format, args).text;
    n := Store(out.text, buffer);
  }
}
