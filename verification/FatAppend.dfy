// fat16_append_file: the old content is read in pieces, the file deleted, and
// a new one created from what fits a fixed buffer.

module FatAppend {
  import opened Basics
  import opened FatBytes
  import opened FatVolume
  import opened FatChains
  import opened FatDriver
  import opened FatNames
  import opened FatDirectory
  import opened FatFiles
  import opened FatContents
  import opened FatSteps
  import opened FatLaws
  import opened FatOps
  import opened FatListing

  /** Bytes of the old content that are kept, and bytes in all. */
  const KEEP: nat := 4000
  const BUFFER: nat := 4096
  const PIECE: nat := 128

  // ---------------------------------------------------------------------
  // Names without regard to case

  /** A C string: what comes before the first zero byte. */
  function Term(s: seq<Byte>): seq<Byte> {
    if s == [] || s[0] == 0 then [] else [s[0]] + Term(s[1..])
  }

  ghost predicate SameName(a: seq<Byte>, b: seq<Byte>) {
    UpperAll(Term(a)) == UpperAll(Term(b))
  }

  ghost predicate IsMatch(item: Item, name: seq<Byte>) {
    item.FileItem? && SameName(item.name, name)
  }

  lemma SameNameStep(a: seq<Byte>, b: seq<Byte>)
    requires a != [] && b != [] && a[0] != 0 && b[0] != 0
    ensures SameName(a, b) <==> Upper(a[0]) == Upper(b[0]) && SameName(a[1..], b[1..])
  {
    UpperCons(a[0], Term(a[1..]));
    UpperCons(b[0], Term(b[1..]));
    var x, y := [Upper(a[0])] + UpperAll(Term(a[1..])), [Upper(b[0])] + UpperAll(Term(b[1..]));
    if x == y {
      assert x[0] == y[0] && x[1..] == y[1..];
    }
  }

  lemma UpperCons(c: Byte, s: seq<Byte>)
    ensures UpperAll([c] + s) == [Upper(c)] + UpperAll(s)
  {
  }

  /** The comparison loop. */
  method MatchNames(a: seq<Byte>, b: seq<Byte>) returns (m: bool)
    ensures m <==> SameName(a, b)
  {
    var x, y := a, b;
    while x != [] && y != [] && x[0] != 0 && y[0] != 0
      invariant SameName(x, y) <==> SameName(a, b)
      decreases |x|
    {
      SameNameStep(x, y);
      if Upper(x[0]) != Upper(y[0]) {
        return false;
      }
      x, y := x[1..], y[1..];
    }
    m := (x == [] || x[0] == 0) && (y == [] || y[0] == 0);
  }

  /** The search through the listing: the first file of that name. */
  method FindItem(entries: array<Item>, name: seq<Byte>) returns (found: nat)
    ensures found <= entries.Length
    ensures found < entries.Length ==> IsMatch(entries[found], name)
    ensures forall i :: 0 <= i < found ==> !IsMatch(entries[i], name)
  {
    found := 0;
    while found < entries.Length
      invariant found <= entries.Length && forall i :: 0 <= i < found ==> !IsMatch(entries[i], name)
    {
      if entries[found].FileItem? {
        var m := MatchNames(entries[found].name, name);
        if m {
          return;
        }
      }
      found := found + 1;
    }
  }

  // ---------------------------------------------------------------------
  // Reading the old content

  /** The inner loop: bytes of a piece, as long as there is room. */
  method CopyPiece(old_: seq<Byte>, piece: seq<Byte>) returns (buf: seq<Byte>)
    requires |old_| <= KEEP
    ensures buf == old_ + piece[..Min(|piece|, KEEP - |old_|)]
  {
    buf := old_;
    var k := 0;
    while k < |piece| && |buf| < KEEP
      invariant k <= |piece| && |buf| == |old_| + k <= KEEP && buf == old_ + piece[..k]
    {
      assert piece[..k + 1] == piece[..k] + [piece[k]];
      buf := buf + [piece[k]];
      k := k + 1;
    }
  }

  /** What is kept of the old content. */
  function Kept(content: seq<Byte>): seq<Byte> {
    content[..Min(KEEP, |content|)]
  }

  lemma PieceJoins(content: seq<Byte>, j: nat, buf: seq<Byte>, piece: seq<Byte>)
    requires buf == content[..Min(Min(PIECE * j, KEEP), |content|)] && |buf| < KEEP &&
             piece == Slice(content, PIECE * j, PIECE)
    ensures piece == [] ==> buf == Kept(content)
    ensures buf + piece[..Min(|piece|, KEEP - |buf|)] == content[..Min(Min(PIECE * (j + 1), KEEP), |content|)]
  {
    var a, b := Min(Min(PIECE * j, KEEP), |content|), Min(Min(PIECE * (j + 1), KEEP), |content|);
    assert PIECE * (j + 1) == PIECE * j + PIECE;
    assert piece[..Min(|piece|, KEEP - |buf|)] == content[a..b];
  }

  /** The reading loop: pieces of 128 bytes, up to 4000 in all. */
  method ReadOld(d: Fat16, item: Item, ghost i: nat) returns (buf: seq<Byte>)
    requires OnDisk(d.disk, d.g) && IsFileAt(d.V(), i) && FileEnds(d.V(), d.g, d.V().slots[i])
    requires item == ItemOf(d.V().slots[i])
    ensures buf == Kept(ContentOf(d.V(), d.g, d.V().slots[i]))
  {
    ghost var content := ContentOf(d.V(), d.g, d.V().slots[i]);
    buf := [];
    var j, more := 0, true;
    while more && |buf| < KEEP
      invariant if more then buf == ReadBy(content, j) else buf == Kept(content)
      decreases if more then 1 + KEEP - |buf| else 0
    {
      buf, more := ReadTurn(d, item, buf, j, i);
      j := j + 1;
    }
  }

  /** What the loop has after j pieces. */
  function ReadBy(content: seq<Byte>, j: nat): seq<Byte> {
    content[..Min(Min(PIECE * j, KEEP), |content|)]
  }

  /** One piece read and copied; more says that it was not empty. */
  method ReadTurn(d: Fat16, item: Item, old_: seq<Byte>, j: nat, ghost i: nat) returns (buf: seq<Byte>, more: bool)
    requires OnDisk(d.disk, d.g) && IsFileAt(d.V(), i) && FileEnds(d.V(), d.g, d.V().slots[i])
    requires item == ItemOf(d.V().slots[i])
    requires old_ == ReadBy(ContentOf(d.V(), d.g, d.V().slots[i]), j) && |old_| < KEEP
    ensures more ==> |buf| > |old_| && buf == ReadBy(ContentOf(d.V(), d.g, d.V().slots[i]), j + 1)
    ensures !more ==> buf == Kept(ContentOf(d.V(), d.g, d.V().slots[i]))
  {
    var n, piece := ReadListed(d, item, PIECE * j, PIECE, i);
    PieceJoins(ContentOf(d.V(), d.g, d.V().slots[i]), j, old_, piece);
    more := n > 0;
    buf := old_;
    if more {
      buf := CopyPiece(old_, piece);
    }
  }

  // ---------------------------------------------------------------------
  // The operation

  /** What the new file holds: as much of the old content and the addition as the buffer takes. */
  function Joined(old_: seq<Byte>, content: seq<Byte>): seq<Byte> {
    var s := Kept(old_) + content;
    s[..Min(BUFFER, |s|)]
  }

  /** The volume after fat16_delete_file. */
  ghost function AfterDelete(v: Vol, name: seq<Byte>): (w: Vol)
    requires Slots32(v.slots)
    ensures exists gone :: Deleted(v, w, name, gone)
  {
    var k := FindNamed(v.slots, Encoded(name), 0);
    if k == |v.slots| then
      assert Deleted(v, v, name, false);
      v
    else
      var w := v.(slots := v.slots[k := v.slots[k][0 := 0xE5]]);
      assert Deleted(v, w, name, true);
      w
  }

  /** No file is shown under this name. */
  ghost predicate NoneShown(v: Vol, name: seq<Byte>)
    requires Slots32(v.slots)
  {
    forall i: nat {:trigger IsFileAt(v, i)} :: IsFileAt(v, i) ==> !SameName(Shown(NameOf(v.slots[i])), name)
  }

  /** fat16_append_file; i is the slot of the file found, if any. */
  ghost predicate Appended(v: Vol, v': Vol, g: Geometry, name: seq<Byte>, content: seq<Byte>, i: nat, chain: seq<nat>,
      ok: bool)
    requires g.Valid() && Slots32(v.slots) && |v.data| == g.clusters
  {
    if i >= |v.slots| then NoneShown(v, name) && Created(v, v', g, name, Joined([], content), chain, ok)
    else
      IsFileAt(v, i) && SameName(Shown(NameOf(v.slots[i])), name) && Slots32(AfterDelete(v, name).slots) &&
      Created(AfterDelete(v, name), v', g, name, Joined(ContentOf(v, g, v.slots[i]), content), chain, ok)
  }

  /** The adding loop. */
  method AddBytes(old_: seq<Byte>, content: seq<Byte>) returns (buf: seq<Byte>)
    requires |old_| <= KEEP
    ensures buf == (old_ + content)[..Min(BUFFER, |old_ + content|)]
  {
    buf := old_;
    var i := 0;
    while i < |content| && |buf| < BUFFER
      invariant i <= |content| && |buf| == |old_| + i <= BUFFER && buf == old_ + content[..i]
    {
      assert content[..i + 1] == content[..i] + [content[i]];
      buf := buf + [content[i]];
      i := i + 1;
    }
  }

  /** A file found in the listing sits in a slot; when none is found no file is shown under the name. */
  lemma FoundSlot(v: Vol, items: seq<Item>, name: seq<Byte>, found: nat) returns (i: nat)
    requires Slots32(v.slots) && EndsLast(v.slots) && items == Listing(v.slots) && found <= |items|
    requires found < |items| ==> IsMatch(items[found], name)
    requires forall k :: 0 <= k < found ==> !IsMatch(items[k], name)
    ensures found < |items| ==>
              IsFileAt(v, i) && items[found] == ItemOf(v.slots[i]) &&
              SameName(Shown(NameOf(v.slots[i])), name)
    ensures found == |items| ==> i == |v.slots| && NoneShown(v, name)
  {
    i := |v.slots|;
    if found < |items| {
      ListedIff(v, items[found]);
      i :| IsFileAt(v, i) && items[found] == ItemOf(v.slots[i]);
    } else {
      forall j: nat {:trigger IsFileAt(v, j)} | IsFileAt(v, j)
        ensures !SameName(Shown(NameOf(v.slots[j])), name)
      {
        ListedIff(v, ItemOf(v.slots[j]));
        assert ItemOf(v.slots[j]) in items;
      }
    }
  }

  /** fat16_append_file. */
  method AppendFile(d: Fat16, name: seq<Byte>, content: seq<Byte>) returns (ok: bool, ghost chain: seq<nat>,
      ghost i: nat)
    requires d.Formatted() && TailReserved(d.V().fat, d.g.clusters) && EndsLast(d.V().slots)
    requires forall j: nat {:trigger IsFileAt(d.V(), j)} ::
               IsFileAt(d.V(), j) && SameName(Shown(NameOf(d.V().slots[j])), name) ==>
                 FileEnds(d.V(), d.g, d.V().slots[j])
    modifies d
    ensures d.Formatted() && Appended(old(d.V()), d.V(), d.g, name, content, i, chain, ok)
  {
    ghost var v := d.V();
    var entries := GetRootEntries(d);
    var found := FindItem(entries, name);
    i := FoundSlot(v, entries[..], name, found);
    var buf := [];
    if found < entries.Length {
      buf := ReadOld(d, entries[found], i);
      var gone := DeleteFile(d, name);
      assert d.V() == AfterDelete(v, name);
    }
    buf := AddBytes(buf, content);
    ok, chain := CreateFile(d, name, buf);
  }

  // ---------------------------------------------------------------------
  // Laws

  /** Every file shown under this name is stored under it. */
  ghost predicate OneSpelling(v: Vol, name: seq<Byte>)
    requires Slots32(v.slots)
  {
    forall i: nat {:trigger IsFileAt(v, i)} ::
      IsFileAt(v, i) && SameName(Shown(NameOf(v.slots[i])), name) ==> NameOf(v.slots[i]) == Encoded(name)
  }

  lemma {:induction false} TermAll(s: seq<Byte>)
    requires 0 !in s
    ensures Term(s) == s
  {
    if s != [] {
      TermAll(s[1..]);
    }
  }

  lemma UpperTwice(name: seq<Byte>)
    requires 0 !in name
    ensures SameName(UpperAll(name), name)
  {
    TermAll(name);
    TermAll(UpperAll(name));
    assert UpperAll(UpperAll(name)) == UpperAll(name);
  }

  /** The bytes of the file of this name; none when there is no such file. */
  ghost function OldBytes(v: Vol, g: Geometry, name: seq<Byte>): seq<Byte>
    requires Slots32(v.slots) && |v.data| == g.clusters
  {
    if Encoded(name) in Files(v, g) then Files(v, g)[Encoded(name)] else []
  }

  /** The file that append finds is the one of that name, when there is one. */
  lemma FindsItsFile(v: Vol, v': Vol, g: Geometry, name: seq<Byte>, content: seq<Byte>, i: nat, chain: seq<nat>,
      ok: bool)
    requires Intact(v, g) && Appended(v, v', g, name, content, i, chain, ok) && 0 !in name && Fits83(name) &&
             OneSpelling(v, name)
    ensures i < |v.slots| <==> Encoded(name) in Files(v, g)
    ensures i < |v.slots| ==> ContentOf(v, g, v.slots[i]) == OldBytes(v, g, name)
  {
    if i < |v.slots| {
      FilesHas(v, g, i);
    } else if Encoded(name) in Files(v, g) {
      var k := FilesFrom(v, g, Encoded(name));
      ShownIffFits(name);
      UpperTwice(name);
    }
  }

  lemma PutBack(m: map<seq<Byte>, seq<Byte>>, name: seq<Byte>, bytes: seq<Byte>)
    ensures (m - {name})[name := bytes] == m[name := bytes]
  {
  }

  /** The bytes that append starts from: those of the file in slot i, if one was found. */
  ghost function FoundBytes(v: Vol, g: Geometry, i: nat): seq<Byte>
    requires Slots32(v.slots) && |v.data| == g.clusters
  {
    if i < |v.slots| then ContentOf(v, g, v.slots[i]) else []
  }

  /** When a file was found its name, as stored for the call, is deleted, then created. */
  lemma DeletedThenCreated(v: Vol, v': Vol, g: Geometry, name: seq<Byte>, bytes: seq<Byte>, chain: seq<nat>, ok: bool)
    requires Intact(v, g) && Slots32(AfterDelete(v, name).slots)
    requires Created(AfterDelete(v, name), v', g, name, bytes, chain, ok) && 0 !in name && |bytes| <= BUFFER
    ensures ok ==>
              (Intact(v', g) && Files(v', g) == Files(v, g)[Encoded(name) := bytes] <==> Encoded(name)[0] != 0xE5)
    ensures !ok ==> Intact(v', g) && Files(v', g) == Files(v, g) - {Encoded(name)}
    ensures Intact(v', g) && Exact(v, g) ==> Exact(v', g)
  {
    var w := AfterDelete(v, name);
    var gone :| Deleted(v, w, name, gone);
    DeleteLaw(v, w, g, name, gone);
    PutBack(Files(v, g), Encoded(name), bytes);
    if ok {
      CreateLaw(w, v', g, name, bytes, chain);
    } else {
      CreateFailed(w, v', g, name, bytes, chain);
    }
  }

  /**
    What append does to the files, for every sound volume and every name.  A
    success binds the stored name to what the buffer took of the bytes found and
    the addition, and changes no other file, if and only if a file was found or
    the stored name is not in use, and that name does not start with the deletion
    mark.  A failure loses the file of that name when a file was found, and
    changes nothing otherwise.
   */
  lemma AppendLaw(v: Vol, v': Vol, g: Geometry, name: seq<Byte>, content: seq<Byte>, i: nat, chain: seq<nat>, ok: bool)
    requires Intact(v, g) && Appended(v, v', g, name, content, i, chain, ok) && 0 !in name
    ensures ok ==>
              (Intact(v', g) && Files(v', g) == Files(v, g)[Encoded(name) := Joined(FoundBytes(v, g, i), content)] <==>
               (i < |v.slots| || NameFree(v.slots, Encoded(name))) && Encoded(name)[0] != 0xE5)
    ensures !ok ==>
              Intact(v', g) &&
              Files(v', g) == if i < |v.slots| then Files(v, g) - {Encoded(name)} else Files(v, g)
    ensures Intact(v', g) && Exact(v, g) ==> Exact(v', g)
  {
    var bytes := Joined(FoundBytes(v, g, i), content);
    if i < |v.slots| {
      DeletedThenCreated(v, v', g, name, bytes, chain, ok);
    } else if ok {
      CreateLaw(v, v', g, name, bytes, chain);
    } else {
      CreateFailed(v, v', g, name, bytes, chain);
    }
  }

  /**
    The file whose bytes are taken is the file that is replaced exactly when it
    is stored under the name of the call; then the bytes are the old ones of that
    name.
   */
  lemma OwnFileIff(v: Vol, g: Geometry, name: seq<Byte>, i: nat)
    requires Intact(v, g) && IsFileAt(v, i)
    ensures FindNamed(v.slots, Encoded(name), 0) == i <==> NameOf(v.slots[i]) == Encoded(name)
    ensures NameOf(v.slots[i]) == Encoded(name) ==> ContentOf(v, g, v.slots[i]) == OldBytes(v, g, name)
  {
    FilesHas(v, g, i);
    if NameOf(v.slots[i]) == Encoded(name) {
      FindNamedIs(v.slots, Encoded(name), 0, i);
    }
  }

  const SPACED: seq<Byte> := [65, 32, 66, 32, 32, 32, 32, 32, 84, 88, 84]
  const A_TXT: seq<Byte> := [65, 46, 84, 88, 84]
  const SMALL_A_TXT: seq<Byte> := [97, 46, 116, 120, 116]

  lemma SpacedShown()
    ensures Shown(SPACED) == A_TXT
  {
    assert SPACED[..8] == [65, 32, 66, 32, 32, 32, 32, 32] && SPACED[8..] == [84, 88, 84];
    TrimIs(SPACED[..8], 1);
    TrimIs(SPACED[8..], 3);
    assert SPACED[8] != SPACE;
  }

  lemma SameLetters()
    ensures SameName(A_TXT, SMALL_A_TXT)
  {
    TermAll(A_TXT);
    TermAll(SMALL_A_TXT);
    assert UpperAll(A_TXT) == UpperAll(SMALL_A_TXT);
  }

  /** A file stored as "A B     TXT" is shown as A.TXT, and so found for the name a.txt ... */
  lemma OtherSpelling()
    ensures SameName(Shown(SPACED), SMALL_A_TXT)
  {
    SpacedShown();
    SameLetters();
  }

  /** ... which is stored differently: its third byte is a space. */
  lemma OtherStored()
    ensures Encoded(SMALL_A_TXT)[2] == SPACE != SPACED[2]
  {
    LastDotIs(SMALL_A_TXT, 1);
  }

  /**
    Append succeeds exactly when a slot is or becomes free and enough clusters are
    free, not counting those of the file itself.
   */
  lemma AppendIff(v: Vol, v': Vol, g: Geometry, name: seq<Byte>, content: seq<Byte>, i: nat, chain: seq<nat>, ok: bool)
    requires Intact(v, g) && Appended(v, v', g, name, content, i, chain, ok)
    ensures ok <==>
            (FirstUsable(v.slots, 0) < |v.slots| || (i < |v.slots| && !NameFree(v.slots, Encoded(name)))) &&
            Free(v) >= Needed(|Joined(FoundBytes(v, g, i), content)|, g.ClusterSize())
  {
    var bytes := Joined(FoundBytes(v, g, i), content);
    if i < |v.slots| {
      var w := AfterDelete(v, name);
      var gone :| Deleted(v, w, name, gone);
      DeleteLaw(v, w, g, name, gone);
      CreateIff(w, v', g, name, bytes, chain, ok);
      if gone {
        assert IsFree(w.slots[FindNamed(v.slots, Encoded(name), 0)]);
      }
    } else {
      CreateIff(v, v', g, name, bytes, chain, ok);
    }
  }

  /** One byte added to a file of 4001 bytes is not added: a byte of the old content is lost. */
  lemma CutAtFourThousand(b: Byte)
    ensures |Joined(seq(4001, k => b), [b])| == 4001
    ensures Joined(seq(4001, k => b), [b]) != seq(4001, k => b) + [b]
  {
  }

  /** The new content is the old with the addition exactly when both limits are kept. */
  lemma JoinedIff(old_: seq<Byte>, content: seq<Byte>)
    ensures Joined(old_, content) == old_ + content <==> |old_| <= KEEP && |old_| + |content| <= BUFFER
  {
    if |old_| <= KEEP {
      assert Kept(old_) == old_;
    }
  }
}
