// 8.3 names: what is stored in a directory slot, and what is shown.

module FatNames {
  import opened FatBytes

  const SPACE: Byte := 32
  const DOT: Byte := 46

  function Upper(c: Byte): Byte {
    if 97 <= c <= 122 then c - 32 else c
  }

  function UpperAll(s: seq<Byte>): (r: seq<Byte>)
    ensures |r| == |s|
    ensures forall i {:trigger r[i]} :: 0 <= i < |s| ==> r[i] == Upper(s[i])
  {
    seq(|s|, i requires 0 <= i < |s| => Upper(s[i]))
  }

  /** Where the last dot is; |s| when there is none. */
  ghost function LastDot(s: seq<Byte>): (d: nat)
    ensures d <= |s|
    ensures d < |s| ==> s[d] == DOT && DOT !in s[d + 1..]
    ensures d == |s| <==> DOT !in s
  {
    if s == [] then 0
    else if s[|s| - 1] == DOT then |s| - 1
    else
      var d := LastDot(s[..|s| - 1]);
      assert s == s[..|s| - 1] + [s[|s| - 1]];
      if d == |s| - 1 then |s|
      else
        assert s[d + 1..] == s[..|s| - 1][d + 1..] + [s[|s| - 1]];
        d
  }

  ghost function Base(s: seq<Byte>): seq<Byte> {
    s[..LastDot(s)]
  }

  ghost function Ext(s: seq<Byte>): seq<Byte> {
    if LastDot(s) < |s| then s[LastDot(s) + 1..] else []
  }

  /** s cut to n bytes in upper case, padded with spaces to n bytes. */
  ghost function Field(s: seq<Byte>, n: nat): (r: seq<Byte>)
    ensures |r| == n
    ensures forall i {:trigger r[i]} :: 0 <= i < n ==> r[i] == if i < |s| then Upper(s[i]) else SPACE
  {
    seq(n, i requires 0 <= i < n => if i < |s| then Upper(s[i]) else SPACE)
  }

  /** The eleven bytes stored for a name. */
  ghost function Encoded(name: seq<Byte>): (r: seq<Byte>)
    ensures |r| == 11
  {
    Field(Base(name), 8) + Field(Ext(name), 3)
  }

  /** A field up to its first space. */
  ghost function Trim(s: seq<Byte>): (r: seq<Byte>)
    ensures |r| <= |s| && r == s[..|r|] && SPACE !in r
    ensures |r| < |s| ==> s[|r|] == SPACE
  {
    if s == [] || s[0] == SPACE then [] else [s[0]] + Trim(s[1..])
  }

  /** The name shown for stored bytes. */
  ghost function Shown(raw: seq<Byte>): seq<Byte>
    requires |raw| == 11
  {
    Trim(raw[..8]) +
    if exists i :: 8 <= i < 11 && raw[i] != SPACE then [DOT] + Trim(raw[8..]) else []
  }

  // ---------------------------------------------------------------------
  // The driver's loops

  /** encode_83_name. */
  method EncodeName(name: seq<Byte>) returns (raw8: seq<Byte>, raw3: seq<Byte>)
    ensures raw8 == Field(Base(name), 8) && raw3 == Field(Ext(name), 3)
  {
    var dot := -1;
    var i := 0;
    while i < |name|
      invariant 0 <= i <= |name| && -1 <= dot < i
      invariant dot == -1 ==> DOT !in name[..i]
      invariant dot >= 0 ==> name[dot] == DOT && DOT !in name[dot + 1..i]
    {
      if name[i] == DOT {
        dot := i;
      }
      i := i + 1;
    }
    assert name[..i] == name;
    LastDotIs(name, if dot >= 0 then dot else |name|);
    var baseLen := if dot >= 0 then dot else |name|;
    if baseLen > 8 {
      baseLen := 8;
    }
    raw8 := CopyUpper(name, 0, baseLen, 8);
    raw3 := [SPACE, SPACE, SPACE];
    if dot >= 0 {
      var extLen := |name| - dot - 1;
      if extLen > 3 {
        extLen := 3;
      }
      raw3 := CopyUpper(name, dot + 1, extLen, 3);
    }
  }

  /** Copies n bytes in upper case into a field of spaces. */
  method CopyUpper(name: seq<Byte>, from: nat, n: nat, width: nat) returns (raw: seq<Byte>)
    requires from + n <= |name| && n <= width
    ensures raw == Field(name[from..from + n], width)
  {
    raw := seq(width, x => SPACE);
    var i := 0;
    while i < n
      invariant 0 <= i <= n && |raw| == width
      invariant forall k {:trigger raw[k]} :: 0 <= k < width ==> raw[k] == if k < i then Upper(name[from + k])
                else SPACE
    {
      var c := name[from + i];
      if c >= 97 && c <= 122 {
        c := c - 32;
      }
      raw := raw[i := c];
      i := i + 1;
    }
  }

  /** One copy loop of format_83_name: bytes up to the first space. */
  method CopyTrim(raw: seq<Byte>) returns (buf: seq<Byte>)
    ensures buf == Trim(raw)
  {
    buf := [];
    var n := 0;
    while n < |raw|
      invariant 0 <= n <= |raw| && |buf| == n && buf == raw[..n] && SPACE !in buf
    {
      if raw[n] == SPACE {
        TrimIs(raw, n);
        return;
      }
      buf := buf + [raw[n]];
      n := n + 1;
    }
    TrimIs(raw, n);
  }

  /** format_83_name. */
  method FormatName(rawName: seq<Byte>, rawExt: seq<Byte>) returns (buf: seq<Byte>)
    requires |rawName| == 8 && |rawExt| == 3
    ensures buf == Shown(rawName + rawExt)
  {
    ghost var raw := rawName + rawExt;
    assert raw[..8] == rawName && raw[8..] == rawExt;
    buf := CopyTrim(rawName);
    var hasExt := false;
    var n := 0;
    while n < 3 && !hasExt
      invariant 0 <= n <= 3
      invariant !hasExt ==> forall k :: 0 <= k < n ==> rawExt[k] == SPACE
      invariant hasExt ==> exists k :: 8 <= k < 11 && raw[k] != SPACE
      decreases 3 - n, !hasExt
    {
      if rawExt[n] != SPACE {
        assert raw[8 + n] != SPACE;
        hasExt := true;
      } else {
        n := n + 1;
      }
    }
    if hasExt {
      var ext := CopyTrim(rawExt);
      buf := buf + [DOT] + ext;
      assert buf == Trim(rawName) + ([DOT] + ext);
    } else {
      assert forall k :: 8 <= k < 11 ==> raw[k] == rawExt[k - 8];
    }
  }

  lemma {:induction false} LastDotIs(s: seq<Byte>, d: nat)
    requires d <= |s|
    requires if d < |s| then s[d] == DOT && DOT !in s[d + 1..] else DOT !in s
    ensures LastDot(s) == d
  {
    InTails(s);
  }

  lemma InTails(s: seq<Byte>)
    ensures forall i, j {:trigger s[i], s[j]} :: 0 <= i < j < |s| ==> s[j] in s[i + 1..]
  {
    forall i, j {:trigger s[i], s[j]} | 0 <= i < j < |s|
      ensures s[j] in s[i + 1..]
    {
      assert s[i + 1..][j - i - 1] == s[j];
    }
  }

  lemma {:induction false} TrimIs(s: seq<Byte>, n: nat)
    requires n <= |s| && SPACE !in s[..n] && (n < |s| ==> s[n] == SPACE)
    ensures Trim(s) == s[..n]
    decreases n
  {
    if n > 0 {
      assert s[0] == s[..n][0];
      assert s[1..][..n - 1] == s[..n][1..];
      TrimIs(s[1..], n - 1);
      assert s[..n] == [s[0]] + s[1..n];
    }
  }

  // ---------------------------------------------------------------------
  // Round trips

  lemma TrimField(s: seq<Byte>, n: nat)
    requires |s| <= n && SPACE !in s
    ensures Trim(Field(s, n)) == UpperAll(s)
  {
    var f := Field(s, n);
    forall i | 0 <= i < |s|
      ensures f[i] != SPACE
    {
      assert s[i] in s;
    }
    TrimIs(f, |s|);
    assert f[..|s|] == UpperAll(s);
  }

  /** A field shown in full was given in full, without spaces. */
  lemma FieldLoses(s: seq<Byte>, n: nat)
    ensures |s| > n ==> |Trim(Field(s, n))| < |s|
    ensures SPACE in s ==> |Trim(Field(s, n))| < |s|
    ensures |Trim(Field(s, n))| <= |s|
  {
    var f := Field(s, n);
    if |s| < n {
      TrimStops(f, |s|);
    }
    if SPACE in s {
      var i :| 0 <= i < |s| && s[i] == SPACE;
      if i < n {
        TrimStops(f, i);
      }
    }
  }

  lemma {:induction false} TrimStops(s: seq<Byte>, i: nat)
    requires i < |s| && s[i] == SPACE
    ensures |Trim(s)| <= i
    decreases i
  {
    if i > 0 && s[0] != SPACE {
      TrimStops(s[1..], i - 1);
    }
  }

  /** A name that fits the 8.3 form: short enough, no spaces, and no dot left dangling. */
  ghost predicate Fits83(name: seq<Byte>) {
    |Base(name)| <= 8 && |Ext(name)| <= 3 && SPACE !in name && (DOT in name ==> Ext(name) != [])
  }

  lemma NameParts(name: seq<Byte>)
    ensures name == Base(name) + if DOT in name then [DOT] + Ext(name) else []
  {
    var d := LastDot(name);
    if d < |name| {
      assert name == name[..d] + ([name[d]] + name[d + 1..]);
    }
  }

  lemma ExtShown(name: seq<Byte>)
    ensures (exists i :: 8 <= i < 11 && Encoded(name)[i] != SPACE) ==> Ext(name) != []
    ensures SPACE !in Ext(name) && Ext(name) != [] ==> exists i :: 8 <= i < 11 && Encoded(name)[i] != SPACE
  {
    var f := Field(Ext(name), 3);
    assert forall i :: 8 <= i < 11 ==> Encoded(name)[i] == f[i - 8];
    if Ext(name) != [] && SPACE !in Ext(name) {
      assert Ext(name)[0] in Ext(name);
      assert Encoded(name)[8] != SPACE;
    }
  }

  /** Storing a name and showing it gives the name in upper case exactly when the name fits the 8.3 form. */
  lemma ShownIffFits(name: seq<Byte>)
    ensures Shown(Encoded(name)) == UpperAll(name) <==> Fits83(name)
  {
    var b, e, raw := Base(name), Ext(name), Encoded(name);
    assert raw[..8] == Field(b, 8) && raw[8..] == Field(e, 3);
    NameParts(name);
    ExtShown(name);
    FieldLoses(b, 8);
    FieldLoses(e, 3);
    if Fits83(name) {
      NoSpace(name);
      TrimField(b, 8);
      TrimField(e, 3);
      UpperParts(name);
    } else {
      NotFitting(name);
    }
  }

  lemma NoSpace(name: seq<Byte>)
    ensures SPACE in name <==> SPACE in Base(name) || SPACE in Ext(name)
  {
    NameParts(name);
  }

  lemma UpperParts(name: seq<Byte>)
    ensures UpperAll(name) == UpperAll(Base(name)) + if DOT in name then [DOT] + UpperAll(Ext(name)) else []
  {
    NameParts(name);
    var l, r := UpperAll(name), UpperAll(Base(name)) + if DOT in name then [DOT] + UpperAll(Ext(name)) else [];
    forall i | 0 <= i < |l|
      ensures l[i] == r[i]
    {
      var d := |Base(name)|;
      if i < d {
        assert name[i] == Base(name)[i];
      } else if i > d {
        assert name[i] == Ext(name)[i - d - 1];
      }
    }
  }

  /** A name that does not fit is shown with fewer bytes than it has. */
  lemma NotFitting(name: seq<Byte>)
    requires !Fits83(name)
    ensures |Shown(Encoded(name))| < |name|
  {
    var b, e, raw := Base(name), Ext(name), Encoded(name);
    assert raw[..8] == Field(b, 8) && raw[8..] == Field(e, 3);
    NameParts(name);
    NoSpace(name);
    ExtShown(name);
    FieldLoses(b, 8);
    FieldLoses(e, 3);
  }
}
