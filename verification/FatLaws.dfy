// The laws of the file layer: what create, write and delete do to the files,
// to the directory, and to the count of free clusters.

module FatLaws {
  import opened Basics
  import opened FatBytes
  import opened FatVolume
  import opened FatChains
  import opened FatDriver
  import opened FatNames
  import opened FatDirectory
  import opened FatFiles
  import opened FatContents
  import opened FatSteps

  // ---------------------------------------------------------------------
  // Counting clusters

  /** Free data clusters of a volume. */
  ghost function Free(v: Vol): nat {
    FreeCount(v.fat, |v.fat|)
  }

  lemma ChainSize(g: Geometry, fat: seq<nat>, chain: seq<nat>)
    requires g.Valid() && |fat| == g.Entries() && Holds(chain, g.clusters) && Distinct(chain)
    ensures |InChainBelow(chain, |fat|)| == |chain|
  {
    CountDistinct(chain, |fat|);
  }

  /** Growing a chain uses up exactly its clusters. */
  lemma GrowCounts(v: Vol, v': Vol, g: Geometry, chain: seq<nat>, content: seq<Byte>)
    requires g.Valid() && Shaped(v, g) && Grown(v, v', g.clusters, chain, content, g.ClusterSize())
    ensures Free(v') + |chain| == Free(v)
  {
    LinkedCount(v.fat, v'.fat, g.clusters, chain, |v.fat|);
    ChainSize(g, v.fat, chain);
  }

  lemma {:induction false} NoneFree(fat: seq<nat>, k: nat)
    requires |fat| >= 2 && LowestFree(fat, 2) == |fat| && k <= |fat|
    ensures FreeCount(fat, k) == 0
    decreases k
  {
    if k > 2 {
      NoneFree(fat, k - 1);
    }
  }

  /** The allocation loop gets all it needs exactly when there are that many free clusters. */
  lemma StoredIff(v: Vol, v': Vol, g: Geometry, content: seq<Byte>, chain: seq<nat>, ok: bool)
    requires g.Valid() && Shaped(v, g) && Stored(v, v', g, content, chain, ok)
    ensures ok <==> Free(v) >= Needed(|content|, g.ClusterSize())
    ensures Free(v') + |chain| == Free(v)
  {
    GrowCounts(v, v', g, chain, content);
    if !ok {
      NoneFree(v'.fat, |v'.fat|);
    }
  }

  lemma ChainUsed(fat: seq<nat>, n: nat, first: nat, chain: seq<nat>)
    requires n + 2 <= BAD && IsChain(fat, n, first, chain)
    ensures forall i :: 0 <= i < |chain| ==> fat[chain[i]] != FREE
  {
    forall i | 0 <= i < |chain|
      ensures fat[chain[i]] != FREE
    {
      ChainStep(fat, n, first, chain, i);
      if i + 1 < |chain| {
        assert InRange(chain[i + 1], n);
      }
    }
  }

  /** Freeing a file's chain gives back exactly its clusters. */
  lemma FreeCounts(v: Vol, v': Vol, g: Geometry, e: Slot)
    requires g.Valid() && Shaped(v, g) && |e| == 32 && v'.fat == FreedFat(v.fat, SlotChain(v, g, e))
    ensures Free(v') == Free(v) + |SlotChain(v, g, e)|
  {
    var chain := SlotChain(v, g, e);
    if chain != [] {
      ChainUsed(v.fat, g.clusters, FirstOf(e), chain);
      ChainAcyclic(v.fat, g.clusters, FirstOf(e), chain);
    }
    FreedCount(v.fat, v'.fat, g.clusters, chain, |v.fat|);
    ChainSize(g, v.fat, chain);
  }

  // ---------------------------------------------------------------------
  // Putting a slot in place

  lemma OneSlot(v: Vol, v': Vol, g: Geometry, x: nat, e: Slot)
    requires Frame(v, g) && x < |v.slots| && |e| == 32 && v' == v.(slots := v.slots[x := e]) && DirOk(v'.slots)
    ensures Frame(v', g) && SameBut(v, v', g, x)
  {
    forall i: nat | i != x
      ensures SameFileAt(v, v', g, i)
    {
    }
  }

  /** A slot that holds no file, put where the files leave it aside. */
  lemma PlacedNothing(v: Vol, v': Vol, g: Geometry, x: nat, e: Slot)
    requires IntactBut(v, g, x) && x < |v.slots| && |e| == 32 && v' == v.(slots := v.slots[x := e])
    requires DirOk(v'.slots) && !IsFile(e)
    ensures Intact(v', g)
  {
    forall i: nat | IsFileAt(v', i)
      ensures i != x && IsFileAt(v, i)
    {
    }
  }

  /** A sound file put where the files leave room for it. */
  lemma PlacedFile(v: Vol, v': Vol, g: Geometry, x: nat, e: Slot)
    requires IntactBut(v, g, x) && x < |v.slots| && |e| == 32 && v' == v.(slots := v.slots[x := e]) && DirOk(v'.slots)
    requires FileEnds(v, g, e)
    requires forall i: nat {:trigger IsFileAt(v, i)} :: IsFileAt(v, i) && i != x ==>
             DisjointSeqs(SlotChain(v, g, v.slots[i]), SlotChain(v, g, e))
    ensures Intact(v', g)
  {
    forall i: nat | IsFileAt(v', i)
      ensures FileEnds(v', g, v'.slots[i])
      ensures i != x ==> IsFileAt(v, i) && v'.slots[i] == v.slots[i]
    {
      assert i != x ==> IsFileAt(v, i);
    }
    forall i: nat, j: nat {:trigger IsFileAt(v', i), IsFileAt(v', j)} | IsFileAt(v', i) && IsFileAt(v', j) && i != j
      ensures DisjointSeqs(SlotChain(v', g, v'.slots[i]), SlotChain(v', g, v'.slots[j]))
    {
      if i == x {
        assert IsFileAt(v, j);
      } else {
        assert IsFileAt(v, i);
      }
    }
  }

  /** What a stored content is worth: a chain of its own that reads back as the content. */
  lemma StoredReads(v: Vol, v': Vol, g: Geometry, content: seq<Byte>, chain: seq<nat>, e: Slot)
    requires g.Valid() && Shaped(v, g) && Stored(v, v', g, content, chain, true)
    requires |e| == 32 && FirstOf(e) == chain[0] && SizeOf(e) == |content|
    ensures SlotChain(v', g, e) == chain && FileOk(v', g, e) && ContentOf(v', g, e) == content
  {
    LinkedIsChain(v.fat, v'.fat, g.clusters, chain);
    ChainOfIs(v'.fat, g.clusters, chain[0], chain);
    NeededCovers(|content|, g.ClusterSize(), 0);
    ChainFits(v'.fat, g.clusters, chain[0], chain);
    TimesLe(|chain|, 0x1_0000, g.ClusterSize());
    FilledReads(v.data, v'.data, chain, content, g.ClusterSize());
  }

  /** When all files outside slot x are as long as they should be, and slot x's is too, all are. */
  lemma StayExact(v: Vol, v': Vol, g: Geometry, x: nat)
    requires SameBut(v, v', g, x) && FilesOk(v, g, x) && (IsFileAt(v', x) ==> FileOk(v', g, v'.slots[x]))
    ensures Exact(v', g)
  {
    StayIntact(v, v', g, x);
  }

  // ---------------------------------------------------------------------
  // fat16_create_file

  /** A name a new file may have: a C string that is not in use and is not stored as deleted. */
  ghost predicate Creatable(v: Vol, name: seq<Byte>)
    requires Slots32(v.slots)
  {
    0 !in name && NameFree(v.slots, Encoded(name)) && Encoded(name)[0] != 0xE5
  }

  lemma EncodedNotEnd(name: seq<Byte>)
    requires 0 !in name
    ensures Encoded(name)[0] != 0
  {
    var b := Base(name);
    assert Encoded(name)[0] == Field(b, 8)[0];
    if b != [] {
      assert b[0] == name[0] && name[0] in name;
    }
  }

  /** The directory stays sound exactly when the new slot's name, if it has one, is not in use. */
  lemma NewNameIff(slots: seq<Slot>, i: nat, e: Slot)
    requires DirOk(slots) && i < |slots| && i == FirstUsable(slots, 0) && |e| == 32 && !IsEnd(e)
    ensures DirOk(slots[i := e]) <==> (IsNamed(e) ==> NameFree(slots, NameOf(e)))
  {
    var s := slots[i := e];
    if IsNamed(e) && DirOk(s) {
      forall j {:trigger slots[j]} | 0 <= j < |slots| && IsNamed(slots[j])
        ensures NameOf(slots[j]) != NameOf(e)
      {
        NamesDiffer(s, i, j);
      }
    }
  }

  /** Create succeeds exactly when a slot and enough clusters are free; it uses up the clusters of its chain. */
  lemma CreateIff(v: Vol, v': Vol, g: Geometry, name: seq<Byte>, content: seq<Byte>, chain: seq<nat>, ok: bool)
    requires g.Valid() && Shaped(v, g) && Created(v, v', g, name, content, chain, ok)
    ensures ok <==> FirstUsable(v.slots, 0) < |v.slots| && Free(v) >= Needed(|content|, g.ClusterSize())
    ensures Free(v') + |chain| == Free(v)
  {
    if FirstUsable(v.slots, 0) < |v.slots| {
      StoredIff(v, v'.(slots := v.slots), g, content, chain, ok);
    }
  }

  /** A create that fails loses no file. */
  lemma CreateFailed(v: Vol, v': Vol, g: Geometry, name: seq<Byte>, content: seq<Byte>, chain: seq<nat>)
    requires Intact(v, g) && Created(v, v', g, name, content, chain, false)
    ensures Intact(v', g) && Files(v', g) == Files(v, g) && SameBut(v, v', g, |v.slots|)
    ensures Exact(v, g) ==> Exact(v', g)
  {
    if FirstUsable(v.slots, 0) < |v.slots| {
      assert v'.(slots := v.slots) == v';
      GrowKeeps(v, v', g, |v.slots|, chain, content);
      KeepsSame(v, v', g, |v.slots|);
    }
    SameFiles(v, v', g);
    StayIntact(v, v', g, |v.slots|);
  }

  /** Slot x now holds the file of this name, exactly in the clusters of the chain; the others are where they were. */
  ghost predicate TookSlot(v: Vol, v': Vol, g: Geometry, x: nat, name: seq<Byte>, chain: seq<nat>) {
    SameBut(v, v', g, x) && IsFileAt(v', x) && |v'.slots| == |v.slots| && NameOf(v'.slots[x]) == name &&
    SlotChain(v', g, v'.slots[x]) == chain && FileOk(v', g, v'.slots[x])
  }

  /** The volume after the allocation loop of a create that will succeed. */
  lemma CreateMiddle(v: Vol, v': Vol, g: Geometry, name: seq<Byte>, content: seq<Byte>, chain: seq<nat>)
    returns (w: Vol, i: nat, e: Slot)
    requires Intact(v, g) && Created(v, v', g, name, content, chain, true) && |content| < 0x1_0000_0000 && 0 !in name
    ensures i == FirstUsable(v.slots, 0) < |v.slots| && |e| == 32
    ensures NameOf(e) == Encoded(name) && !HasVolumeBit(e) && !HasDirectoryBit(e) && e[0] == Encoded(name)[0] != 0
    ensures IntactBut(w, g, i) && SameBut(v, w, g, i) && w.slots == v.slots && v' == w.(slots := w.slots[i := e])
    ensures FileOk(w, g, e) && ContentOf(w, g, e) == content && SlotChain(w, g, e) == chain
    ensures forall j: nat {:trigger IsFileAt(w, j)} :: IsFileAt(w, j) && j != i ==>
            DisjointSeqs(SlotChain(w, g, w.slots[j]), SlotChain(w, g, e))
  {
    i := FirstUsable(v.slots, 0);
    w := v'.(slots := v.slots);
    e := NewSlot(Encoded(name), chain[0], |content|);
    assert InRange(chain[0], g.clusters);
    NewSlotFields(Encoded(name), chain[0], |content|);
    EncodedNotEnd(name);
    GrowKeeps(v, w, g, i, chain, content);
    KeepsSame(v, w, g, i);
    StoredReads(v, w, g, content, chain, e);
  }

  /** The new volume is in order exactly when the name was not in use, or cannot be seen at all. */
  lemma CreateSoundIff(v: Vol, v': Vol, g: Geometry, name: seq<Byte>, content: seq<Byte>, chain: seq<nat>)
    requires Intact(v, g) && Created(v, v', g, name, content, chain, true) && |content| < 0x1_0000_0000 && 0 !in name
    ensures Intact(v', g) <==> NameFree(v.slots, Encoded(name)) || Encoded(name)[0] == 0xE5
    ensures Intact(v', g) && Exact(v, g) ==> Exact(v', g)
  {
    var w, i, e := CreateMiddle(v, v', g, name, content, chain);
    NewNameIff(v.slots, i, e);
    if DirOk(v'.slots) {
      if IsFile(e) {
        PlacedFile(w, v', g, i, e);
      } else {
        PlacedNothing(w, v', g, i, e);
      }
      OneSlot(w, v', g, i, e);
      SameButTrans(v, w, v', g, i);
      if Exact(v, g) {
        StayExact(v, v', g, i);
      }
    }
  }

  lemma SameButTrans(v: Vol, w: Vol, v': Vol, g: Geometry, x: nat)
    requires SameBut(v, w, g, x) && SameBut(w, v', g, x)
    ensures SameBut(v, v', g, x)
  {
    forall i: nat | i != x
      ensures SameFileAt(v, v', g, i)
    {
      assert SameFileAt(v, w, g, i) && SameFileAt(w, v', g, i);
    }
  }

  /** Create binds the name to the content and touches no other file. */
  lemma CreateAdds(v: Vol, v': Vol, g: Geometry, name: seq<Byte>, content: seq<Byte>, chain: seq<nat>)
    requires Intact(v, g) && Created(v, v', g, name, content, chain, true) && |content| < 0x1_0000_0000 && 0 !in name
    requires NameFree(v.slots, Encoded(name)) && Encoded(name)[0] != 0xE5
    ensures Intact(v', g) && Files(v', g) == Files(v, g)[Encoded(name) := content]
    ensures TookSlot(v, v', g, FirstUsable(v.slots, 0), Encoded(name), chain) && (Exact(v, g) ==> Exact(v', g))
  {
    CreateSoundIff(v, v', g, name, content, chain);
    var w, i, e := CreateMiddle(v, v', g, name, content, chain);
    OneSlot(w, v', g, i, e);
    SameButTrans(v, w, v', g, i);
    OneFile(v, v', g, i);
  }

  /** A name whose first stored byte is the deletion mark is stored where no one will find it. */
  lemma CreateHides(v: Vol, v': Vol, g: Geometry, name: seq<Byte>, content: seq<Byte>, chain: seq<nat>)
    requires Intact(v, g) && Created(v, v', g, name, content, chain, true) && |content| < 0x1_0000_0000 && 0 !in name
    requires Encoded(name)[0] == 0xE5
    ensures Intact(v', g) && Files(v', g) == Files(v, g) && Encoded(name) !in Files(v, g)
    ensures Exact(v, g) ==> Exact(v', g)
  {
    CreateSoundIff(v, v', g, name, content, chain);
    var w, i, e := CreateMiddle(v, v', g, name, content, chain);
    OneSlot(w, v', g, i, e);
    SameButTrans(v, w, v', g, i);
    FilesAgree(v, v', g, i, Encoded(name));
    if Encoded(name) in Files(v, g) {
      MarkNotStored(v, g, Encoded(name));
    }
    if Encoded(name) in Files(v', g) {
      MarkNotStored(v', g, Encoded(name));
    }
    MapWithout(Files(v, g), Files(v', g), Encoded(name));
    WithoutAbsent(Files(v, g), Encoded(name));
  }

  lemma WithoutAbsent(m: map<seq<Byte>, seq<Byte>>, name: seq<Byte>)
    requires name !in m
    ensures m - {name} == m
  {
  }

  lemma MarkNotStored(v: Vol, g: Geometry, name: seq<Byte>)
    requires Frame(v, g) && name in Files(v, g)
    ensures |name| == 11 && name[0] != 0xE5
  {
    var i := FilesFrom(v, g, name);
    assert name[0] == v.slots[i][0];
  }

  /**
    A successful create does what its name says exactly when the name is new and
    does not start with the deletion mark.
   */
  lemma CreateLaw(v: Vol, v': Vol, g: Geometry, name: seq<Byte>, content: seq<Byte>, chain: seq<nat>)
    requires Intact(v, g) && Created(v, v', g, name, content, chain, true) && |content| < 0x1_0000_0000 && 0 !in name
    ensures Intact(v', g) && Files(v', g) == Files(v, g)[Encoded(name) := content] <==>
            NameFree(v.slots, Encoded(name)) && Encoded(name)[0] != 0xE5
    ensures Intact(v', g) && Exact(v, g) ==> Exact(v', g)
  {
    CreateSoundIff(v, v', g, name, content, chain);
    if Encoded(name)[0] == 0xE5 {
      CreateHides(v, v', g, name, content, chain);
    } else if NameFree(v.slots, Encoded(name)) {
      CreateAdds(v, v', g, name, content, chain);
    }
  }

  // ---------------------------------------------------------------------
  // fat16_write_file

  lemma BoundInUse(v: Vol, g: Geometry, name: seq<Byte>)
    requires Frame(v, g) && name in Files(v, g)
    ensures !NameFree(v.slots, name)
  {
    var i := FilesFrom(v, g, name);
    assert IsNamed(v.slots[i]);
  }

  /** Creating a name twice succeeds twice, and leaves the name in two slots. */
  lemma CreateTwice(v: Vol, w: Vol, v': Vol, g: Geometry, name: seq<Byte>, first: seq<Byte>, second: seq<Byte>,
                    chain1: seq<nat>, chain2: seq<nat>)
    requires Intact(v, g) && 0 !in name && NameFree(v.slots, Encoded(name)) && Encoded(name)[0] != 0xE5
    requires |first| < 0x1_0000_0000 && |second| < 0x1_0000_0000
    requires Created(v, w, g, name, first, chain1, true) && Slots32(w.slots) &&
             Created(w, v', g, name, second, chain2, true)
    ensures Intact(w, g) && Files(w, g) == Files(v, g)[Encoded(name) := first]
    ensures !Intact(v', g)
  {
    CreateAdds(v, w, g, name, first, chain1);
    BoundInUse(w, g, Encoded(name));
    CreateSoundIff(w, v', g, name, second, chain2);
  }

  /** A rewrite succeeds exactly when the free clusters and the file's own are enough. */
  lemma WriteIff(v: Vol, v': Vol, g: Geometry, i: nat, content: seq<Byte>, chain: seq<nat>, ok: bool)
    requires Intact(v, g) && IsFileAt(v, i) && Rewritten(v, v', g, i, content, chain, ok)
    ensures ok <==> Free(v) + |SlotChain(v, g, v.slots[i])| >= Needed(|content|, g.ClusterSize())
    ensures Free(v') + |chain| == Free(v) + |SlotChain(v, g, v.slots[i])|
  {
    var mid := v.(fat := FreedFat(v.fat, SlotChain(v, g, v.slots[i])));
    FreeCounts(v, mid, g, v.slots[i]);
    FreeKeeps(v, mid, g, i);
    StoredIff(mid, v'.(slots := v.slots), g, content, chain, ok);
  }

  /** The volume of a rewrite before the slot is written back: all other files are there. */
  lemma WriteMiddle(v: Vol, v': Vol, g: Geometry, i: nat, content: seq<Byte>, chain: seq<nat>, ok: bool)
    returns (mid: Vol, w: Vol)
    requires Intact(v, g) && IsFileAt(v, i) && Rewritten(v, v', g, i, content, chain, ok)
    ensures Frame(mid, g) && w == v'.(slots := v.slots) && Stored(mid, w, g, content, chain, ok)
    ensures mid == v.(fat := FreedFat(v.fat, SlotChain(v, g, v.slots[i])))
    ensures IntactBut(w, g, i) && SameBut(v, w, g, i)
    ensures forall j: nat {:trigger IsFileAt(w, j)} :: IsFileAt(w, j) && j != i ==>
            DisjointSeqs(SlotChain(w, g, w.slots[j]), chain)
  {
    mid := v.(fat := FreedFat(v.fat, SlotChain(v, g, v.slots[i])));
    w := v'.(slots := v.slots);
    FreeKeeps(v, mid, g, i);
    GrowKeeps(mid, w, g, i, chain, content);
    KeepsSame(v, mid, g, i);
    KeepsSame(mid, w, g, i);
    SameButTrans(v, mid, w, g, i);
  }

  lemma RewrittenIsFile(e: Slot, first: nat, size: nat)
    requires |e| == 32 && IsFile(e) && first < 0x1_0000 && size < 0x1_0000_0000
    ensures IsFile(RewrittenSlot(e, first, size)) && NameOf(RewrittenSlot(e, first, size)) == NameOf(e)
    ensures FirstOf(RewrittenSlot(e, first, size)) == first && SizeOf(RewrittenSlot(e, first, size)) == size
  {
    RewrittenSlotFields(e, first, size);
  }

  /** Replacing a named slot by one of the same name. */
  lemma SameNameDir(slots: seq<Slot>, i: nat, e: Slot)
    requires DirOk(slots) && i < |slots| && IsNamed(slots[i]) && |e| == 32 && IsNamed(e) &&
             NameOf(e) == NameOf(slots[i])
    ensures DirOk(slots[i := e])
  {
    var s := slots[i := e];
    forall j, k | 0 <= j < k < |s| && IsNamed(s[j]) && IsNamed(s[k])
      ensures NameOf(s[j]) != NameOf(s[k])
    {
      NamesDiffer(slots, j, k);
    }
  }

  /** A successful rewrite binds the file's name to the new content and touches no other file. */
  lemma WriteReplaces(v: Vol, v': Vol, g: Geometry, i: nat, content: seq<Byte>, chain: seq<nat>)
    requires Intact(v, g) && IsFileAt(v, i) && Rewritten(v, v', g, i, content, chain, true) && |content| < 0x1_0000_0000
    ensures Intact(v', g) && Files(v', g) == Files(v, g)[NameOf(v.slots[i]) := content]
    ensures TookSlot(v, v', g, i, NameOf(v.slots[i]), chain) && (FilesOk(v, g, i) ==> Exact(v', g))
  {
    var mid, w := WriteMiddle(v, v', g, i, content, chain, true);
    var e := RewrittenSlot(v.slots[i], chain[0], |content|);
    assert InRange(chain[0], g.clusters);
    RewrittenIsFile(v.slots[i], chain[0], |content|);
    SameNameDir(v.slots, i, e);
    StoredReads(mid, w, g, content, chain, e);
    PlacedFile(w, v', g, i, e);
    OneSlot(w, v', g, i, e);
    SameButTrans(v, w, v', g, i);
    OneFile(v, v', g, i);
    if FilesOk(v, g, i) {
      StayExact(v, v', g, i);
    }
  }

  /** A rewrite that runs out of space still loses no other file. */
  lemma WriteFailedKeepsOthers(v: Vol, v': Vol, g: Geometry, i: nat, content: seq<Byte>, chain: seq<nat>)
    requires Intact(v, g) && IsFileAt(v, i) && Rewritten(v, v', g, i, content, chain, false)
    ensures IntactBut(v', g, i) && v'.slots == v.slots && AgreeBut(Files(v, g), Files(v', g), NameOf(v.slots[i]))
    ensures SameBut(v, v', g, i)
    ensures forall j: nat {:trigger IsFileAt(v', j)} :: IsFileAt(v', j) && j != i ==>
            DisjointSeqs(SlotChain(v', g, v'.slots[j]), chain)
  {
    var mid, w := WriteMiddle(v, v', g, i, content, chain, false);
    assert w == v';
    FilesAgree(v, v', g, i, NameOf(v.slots[i]));
  }

  /** ... but every cluster of the file itself has been taken for the new content and overwritten. */
  lemma WriteFailedOverwrites(v: Vol, v': Vol, g: Geometry, i: nat, content: seq<Byte>, chain: seq<nat>,
      c: nat) returns (k: nat)
    requires Intact(v, g) && IsFileAt(v, i) && Rewritten(v, v', g, i, content, chain, false)
    requires c in SlotChain(v, g, v.slots[i])
    ensures InRange(c, g.clusters) && k < |chain| && chain[k] == c
    ensures v'.data[c - 2] == Block(content, Times(k, g.ClusterSize()), g.ClusterSize())
  {
    var mid, w := WriteMiddle(v, v', g, i, content, chain, false);
    assert mid.fat[c] == FREE;
    AllTaken(mid.fat, w.fat, g.clusters, chain, c);
    k :| 0 <= k < |chain| && chain[k] == c;
  }

  lemma AllTaken(fat: seq<nat>, fat': seq<nat>, n: nat, chain: seq<nat>, c: nat)
    requires Linked(fat, fat', n, chain) && LowestFree(fat', 2) == |fat'| && 2 <= c < |fat| && fat[c] == FREE
    ensures c in chain
  {
    assert fat'[c] != FREE;
  }

  /** Where c is in the chain; |chain| when it is not there. */
  ghost function IndexIn(chain: seq<nat>, c: nat): (k: nat)
    ensures k <= |chain| && (k < |chain| ==> chain[k] == c)
    ensures k == |chain| <==> c !in chain
  {
    if chain == [] then 0 else if chain[0] == c then 0 else 1 + IndexIn(chain[1..], c)
  }

  /**
    What is left of a file of this size whose rewrite ran out of space: its slot
    still leads to its old first cluster, now the k-th of the chain that was
    filled, so it holds the new content from there on, as far as it was stored.
   */
  ghost function Remnant(content: seq<Byte>, chain: seq<nat>, first: nat, size: nat, cs: nat): seq<Byte> {
    var from, to := Times(IndexIn(chain, first), cs), Times(|chain|, cs);
    if from <= to <= |content| then Cut(content[from..to], size) else []
  }

  /** Blocks that lie inside the content hold a slice of it. */
  lemma BlocksAre(data: seq<seq<Byte>>, chain: seq<nat>, content: seq<Byte>, cs: nat, from: nat, to: nat)
    requires Holds(chain, |data|) && Blocks(data, chain, content, cs, from)
    requires to == from + Times(|chain|, cs) <= |content|
    ensures Gather(data, chain) == content[from..to]
  {
    BlocksRead(data, chain, content, cs, from);
  }

  /** Where an unfinished chain is entered, it goes on to its end. */
  lemma PartlyLinked(fat: seq<nat>, fat': seq<nat>, n: nat, chain: seq<nat>, k: nat)
    requires Linked(fat, fat', n, chain) && k < |chain|
    ensures IsChain(fat', n, chain[k], chain[k..])
  {
    LinkedIsChain(fat, fat', n, chain);
    ChainSuffix(fat', n, chain[0], chain, k);
  }

  /** An unfinished chain is full of content: there are no zeros in it. */
  lemma PartlyReads(data: seq<seq<Byte>>, data': seq<seq<Byte>>, content: seq<Byte>, cs: nat, chain: seq<nat>, k: nat)
    requires Holds(chain, |data|) && Filled(data, data', chain, content, cs) && cs > 0
    requires k < |chain| < Needed(|content|, cs)
    ensures Times(k, cs) <= Times(|chain|, cs) <= |content|
    ensures Holds(chain[k..], |data'|)
    ensures Gather(data', chain[k..]) == content[Times(k, cs)..Times(|chain|, cs)]
  {
    NeededCovers(|content|, cs, |chain|);
    FilledBlocks(data', chain, content, cs, k);
    TimesAdd(k, |chain[k..]|, |chain|, cs);
    BlocksAre(data', chain[k..], content, cs, Times(k, cs), Times(|chain|, cs));
  }

  /** A rewrite that runs out of space takes the file's old first cluster, if it had one. */
  lemma FirstTaken(v: Vol, v': Vol, g: Geometry, i: nat, content: seq<Byte>, chain: seq<nat>)
    requires Intact(v, g) && IsFileAt(v, i) && Rewritten(v, v', g, i, content, chain, false)
    ensures FirstOf(v.slots[i]) in chain <==> SlotChain(v, g, v.slots[i]) != []
    ensures SlotChain(v, g, v.slots[i]) == [] ==> FirstOf(v.slots[i]) == 0
  {
    var c := SlotChain(v, g, v.slots[i]);
    if c != [] {
      assert c[0] in c;
      var k := WriteFailedOverwrites(v, v', g, i, content, chain, c[0]);
    } else {
      assert forall k :: 0 <= k < |chain| ==> InRange(chain[k], g.clusters);
    }
  }

  /** A slot that leads into the chain of an unfinished rewrite holds a piece of the new content. */
  lemma LeftInSlot(v: Vol, v': Vol, g: Geometry, content: seq<Byte>, chain: seq<nat>, e: Slot)
    requires g.Valid() && Shaped(v, g) && Shaped(v', g) && Stored(v, v', g, content, chain, false)
    requires |e| == 32 && FirstOf(e) in chain
    ensures SlotChain(v', g, e) == chain[IndexIn(chain, FirstOf(e))..]
    ensures ContentOf(v', g, e) == Remnant(content, chain, FirstOf(e), SizeOf(e), g.ClusterSize())
  {
    var k := IndexIn(chain, FirstOf(e));
    PartlyLinked(v.fat, v'.fat, g.clusters, chain, k);
    PartlyReads(v.data, v'.data, content, g.ClusterSize(), chain, k);
    ChainOfIs(v'.fat, g.clusters, chain[k], chain[k..]);
  }

  /** The slot of a failed rewrite: its chain ends, and is what is left of the chain that was filled. */
  lemma WriteFailedSlot(v: Vol, v': Vol, g: Geometry, i: nat, content: seq<Byte>, chain: seq<nat>)
    requires Intact(v, g) && IsFileAt(v, i) && Rewritten(v, v', g, i, content, chain, false)
    ensures Shaped(v', g) && FileEnds(v', g, v.slots[i])
    ensures SlotChain(v', g, v.slots[i]) == chain[IndexIn(chain, FirstOf(v.slots[i]))..]
    ensures ContentOf(v', g, v.slots[i]) ==
            if FirstOf(v.slots[i]) in chain then
              Remnant(content, chain, FirstOf(v.slots[i]), SizeOf(v.slots[i]), g.ClusterSize())
            else []
  {
    var mid, w := WriteMiddle(v, v', g, i, content, chain, false);
    assert w == v';
    FirstTaken(v, v', g, i, content, chain);
    assert FileEnds(v, g, v.slots[i]);
    if FirstOf(v.slots[i]) in chain {
      LeftInSlot(mid, v', g, content, chain, v.slots[i]);
    } else {
      NoChainFromZero(v'.fat, g.clusters);
    }
  }

  lemma NoCluster(v: Vol, g: Geometry, e: Slot)
    requires |e| == 32 && |v.data| == g.clusters && SlotChain(v, g, e) == []
    ensures ContentOf(v, g, e) == []
  {
  }

  /** Binding a name to what it is bound to changes nothing. */
  lemma BoundAlready(m: map<seq<Byte>, seq<Byte>>, name: seq<Byte>)
    requires name in m
    ensures m[name := m[name]] == m
  {
  }

  /**
    A rewrite that runs out of space leaves the volume in order and all other files
    as they were; the file itself holds the stored part of the new content from the
    place of its old first cluster on, and an empty file without a cluster stays
    empty.  The volume is as sound as it was exactly when the file had no cluster,
    or has as many as its old size asks for.
   */
  lemma WriteFailedLeaves(v: Vol, v': Vol, g: Geometry, i: nat, content: seq<Byte>, chain: seq<nat>)
    requires Intact(v, g) && IsFileAt(v, i) && Rewritten(v, v', g, i, content, chain, false)
    ensures Intact(v', g)
    ensures var first, size := FirstOf(v.slots[i]), SizeOf(v.slots[i]);
            Files(v', g) ==
            if first in chain then
              Files(v, g)[NameOf(v.slots[i]) := Remnant(content, chain, first, size, g.ClusterSize())]
            else Files(v, g)
    ensures |SlotChain(v', g, v.slots[i])| == |chain| - IndexIn(chain, FirstOf(v.slots[i]))
    ensures Exact(v, g) ==>
              (Exact(v', g) <==> FirstOf(v.slots[i]) in chain ==>
               |chain| - IndexIn(chain, FirstOf(v.slots[i])) == Needed(SizeOf(v.slots[i]), g.ClusterSize()))
  {
    WriteFailedKeepsOthers(v, v', g, i, content, chain);
    WriteFailedSlot(v, v', g, i, content, chain);
    WithFileBack(v', g, i, chain);
    OneFile(v, v', g, i);
    WriteFailedExact(v, v', g, i, chain);
    if FirstOf(v.slots[i]) !in chain {
      FirstTaken(v, v', g, i, content, chain);
      NoCluster(v, g, v.slots[i]);
      FilesHas(v, g, i);
      BoundAlready(Files(v, g), NameOf(v.slots[i]));
    }
  }

  lemma WriteFailedExact(v: Vol, v': Vol, g: Geometry, i: nat, chain: seq<nat>)
    requires SameBut(v, v', g, i) && v'.slots == v.slots && IsFileAt(v, i) && FileEnds(v', g, v.slots[i])
    requires SlotChain(v', g, v.slots[i]) == chain[IndexIn(chain, FirstOf(v.slots[i]))..]
    ensures Exact(v, g) ==>
              (Exact(v', g) <==> FirstOf(v.slots[i]) in chain ==>
               |chain| - IndexIn(chain, FirstOf(v.slots[i])) == Needed(SizeOf(v.slots[i]), g.ClusterSize()))
  {
    StayIntact(v, v', g, i);
    if Exact(v, g) {
      assert FilesOk(v', g, i);
      assert IsFileAt(v', i);
    }
  }

  /** A file whose clusters are among those the others leave alone can be counted in again. */
  lemma WithFileBack(v: Vol, g: Geometry, x: nat, chain: seq<nat>)
    requires IntactBut(v, g, x) && IsFileAt(v, x) && FileEnds(v, g, v.slots[x])
    requires forall c :: c in SlotChain(v, g, v.slots[x]) ==> c in chain
    requires forall j: nat {:trigger IsFileAt(v, j)} :: IsFileAt(v, j) && j != x ==>
             DisjointSeqs(SlotChain(v, g, v.slots[j]), chain)
    ensures Intact(v, g)
  {
  }

  // ---------------------------------------------------------------------
  // fat16_delete_file

  lemma GoneDir(slots: seq<Slot>, i: nat)
    requires DirOk(slots) && i < |slots| && IsNamed(slots[i])
    ensures DirOk(slots[i := slots[i][0 := 0xE5]])
  {
    var s := slots[i := slots[i][0 := 0xE5]];
    assert !IsNamed(s[i]) && !IsEnd(s[i]);
  }

  /** Delete succeeds exactly when the name is in use; it removes that name and nothing else, and frees nothing. */
  lemma DeleteLaw(v: Vol, v': Vol, g: Geometry, name: seq<Byte>, ok: bool)
    requires Intact(v, g) && Deleted(v, v', name, ok)
    ensures ok <==> !NameFree(v.slots, Encoded(name))
    ensures Intact(v', g) && Files(v', g) == Files(v, g) - {Encoded(name)} && Free(v') == Free(v)
    ensures NameFree(v'.slots, Encoded(name))
    ensures FilesOk(v, g, FindNamed(v.slots, Encoded(name), 0)) ==> Exact(v', g)
  {
    FindNamedNone(v.slots, Encoded(name));
    if ok {
      DeleteDone(v, v', g, name);
    } else {
      AbsentName(v, g, Encoded(name));
    }
  }

  lemma AbsentName(v: Vol, g: Geometry, name: seq<Byte>)
    requires Frame(v, g) && NameFree(v.slots, name)
    ensures Files(v, g) - {name} == Files(v, g)
  {
    if name in Files(v, g) {
      var i := FilesFrom(v, g, name);
    }
    WithoutAbsent(Files(v, g), name);
  }

  lemma DeleteDone(v: Vol, v': Vol, g: Geometry, name: seq<Byte>)
    requires Intact(v, g) && Deleted(v, v', name, true)
    ensures Intact(v', g) && Files(v', g) == Files(v, g) - {Encoded(name)}
    ensures NameFree(v'.slots, Encoded(name))
    ensures FilesOk(v, g, FindNamed(v.slots, Encoded(name), 0)) ==> Exact(v', g)
    ensures var i := FindNamed(v.slots, Encoded(name), 0); SameBut(v, v', g, i) && !IsFileAt(v', i)
  {
    var i := FindNamed(v.slots, Encoded(name), 0);
    var e := v.slots[i][0 := 0xE5];
    GoneDir(v.slots, i);
    PlacedNothing(v, v', g, i, e);
    OneSlot(v, v', g, i, e);
    OneGone(v, v', g, i);
    if FilesOk(v, g, i) {
      StayExact(v, v', g, i);
    }
    forall j {:trigger v'.slots[j]} | 0 <= j < |v'.slots| && IsNamed(v'.slots[j])
      ensures NameOf(v'.slots[j]) != Encoded(name)
    {
      NamesDiffer(v.slots, i, j);
    }
  }

  // ---------------------------------------------------------------------
  // fat16_file_write

  /** What a splice does to a prefix that it starts in. */
  lemma SplicePrefix(b: seq<Byte>, size: nat, offset: nat, p: seq<Byte>)
    requires offset + |p| <= |b| && offset <= size <= |b|
    ensures Splice(b, offset, p)[..size] == Splice(b[..size], offset, p[..Min(|p|, size - offset)])
  {
    var l, r := Splice(b, offset, p)[..size], Splice(b[..size], offset, p[..Min(|p|, size - offset)]);
    forall k | 0 <= k < size
      ensures l[k] == r[k]
    {
    }
  }

  /** A write to one file keeps every other file. */
  lemma PatchKeeps(v: Vol, v': Vol, g: Geometry, i: nat, offset: nat, bytes: seq<Byte>, written: nat)
    requires Intact(v, g) && IsFileAt(v, i) && Patched(v, v', g, v.slots[i], offset, bytes, written)
    ensures KeepsFiles(v, v', g, i) && v'.fat == v.fat
  {
    forall j: nat | IsFileAt(v, j) && j != i
      ensures KeepsSlot(v, v', g, v.slots[j])
    {
      PatchKeepsSlot(v, v', g, i, j, offset, bytes, written);
    }
  }

  lemma PatchKeepsSlot(v: Vol, v': Vol, g: Geometry, i: nat, j: nat, offset: nat, bytes: seq<Byte>, written: nat)
    requires Intact(v, g) && IsFileAt(v, i) && Patched(v, v', g, v.slots[i], offset, bytes, written)
    requires IsFileAt(v, j) && j != i
    ensures KeepsSlot(v, v', g, v.slots[j])
  {
    var c := SlotChain(v, g, v.slots[j]);
    forall k | 0 <= k < |c|
      ensures v'.data[c[k] - 2] == v.data[c[k] - 2]
    {
      assert c[k] in c;
    }
    KeptSlot(v, v', g, v.slots[j]);
  }

  /** How many bytes of a request fall inside a file. */
  function Inside(size: nat, offset: nat, len: nat): nat {
    if offset >= size then 0 else Min(len, size - offset)
  }

  /** Content with the part of the bytes that falls inside it replaced. */
  ghost function Overwrite(old_: seq<Byte>, offset: nat, bytes: seq<Byte>): (r: seq<Byte>)
    ensures |r| == |old_|
  {
    if offset >= |old_| then old_ else Splice(old_, offset, bytes[..Inside(|old_|, offset, |bytes|)])
  }

  /** How much of a request the driver writes to a file of this size in this many bytes of clusters. */
  lemma WrittenIs(space: nat, offset: nat, len: nat, size: nat, written: nat)
    requires offset < size < 0x1_0000_0000 && len < 0x1_0000_0000 && offset < space
    requires written == Min(Clipped(offset, len, size), space - offset)
    ensures var end := Min(size, space);
            Min(written, end - offset) == Inside(end, offset, len) &&
            (written == Inside(end, offset, len) <==> offset + len < 0x1_0000_0000 || end == space)
  {
  }

  /** A write that starts past the last cluster of the chain does nothing. */
  lemma PatchPast(v: Vol, v': Vol, g: Geometry, e: Slot, offset: nat, bytes: seq<Byte>, written: nat)
    requires g.Valid() && Shaped(v, g) && |e| == 32 && FileEnds(v, g, e) && Patched(v, v', g, e, offset, bytes, written)
    requires offset >= |ContentOf(v, g, e)|
    ensures v' == v && written == 0
  {
    EndsFile(v, g, e);
    if offset < SizeOf(e) {
      PastChain(offset, g.ClusterSize(), |SlotChain(v, g, e)|);
    }
  }

  /** A write that starts inside the content is a splice there. */
  lemma PatchInside(v: Vol, v': Vol, g: Geometry, e: Slot, offset: nat, bytes: seq<Byte>, written: nat)
    requires g.Valid() && Shaped(v, g) && |e| == 32 && FileEnds(v, g, e) && Patched(v, v', g, e, offset, bytes, written)
    requires offset < |ContentOf(v, g, e)| && |bytes| < 0x1_0000_0000
    ensures v'.fat == v.fat && written <= |bytes|
    ensures var b, size := Gather(v.data, SlotChain(v, g, e)), |ContentOf(v, g, e)|;
            offset + written <= |b| && size <= |b| && ContentOf(v, g, e) == b[..size] &&
            ContentOf(v', g, e) == Splice(b, offset, bytes[..written])[..size] &&
            Min(written, size - offset) == Inside(size, offset, |bytes|) &&
            (written == Inside(size, offset, |bytes|) <==> offset + |bytes| < 0x1_0000_0000 || size == |b|)
  {
    EndsFile(v, g, e);
    StartIsOffset(offset, g.ClusterSize(), |SlotChain(v, g, e)|);
    SizeFits(e);
    WrittenIs(|Gather(v.data, SlotChain(v, g, e))|, offset, |bytes|, SizeOf(e), written);
  }

  /** The content of the file that was written to. */
  lemma PatchContent(v: Vol, v': Vol, g: Geometry, e: Slot, offset: nat, bytes: seq<Byte>, written: nat)
    requires g.Valid() && Shaped(v, g) && |e| == 32 && FileEnds(v, g, e) && Patched(v, v', g, e, offset, bytes, written)
    requires |bytes| < 0x1_0000_0000
    ensures ContentOf(v', g, e) == Overwrite(ContentOf(v, g, e), offset, bytes) &&
            SlotChain(v', g, e) == SlotChain(v, g, e)
    ensures offset + |bytes| < 0x1_0000_0000 ==> written == Inside(|ContentOf(v, g, e)|, offset, |bytes|)
  {
    var size := |ContentOf(v, g, e)|;
    if offset >= size {
      PatchPast(v, v', g, e, offset, bytes, written);
    } else {
      PatchInside(v, v', g, e, offset, bytes, written);
      SplicePrefix(Gather(v.data, SlotChain(v, g, e)), size, offset, bytes[..written]);
      assert bytes[..written][..Min(written, size - offset)] == bytes[..Inside(size, offset, |bytes|)];
    }
  }

  /** A write replaces the bytes that fall inside the file, and changes nothing else. */
  lemma PatchLaw(v: Vol, v': Vol, g: Geometry, i: nat, offset: nat, bytes: seq<Byte>, written: nat)
    requires Intact(v, g) && IsFileAt(v, i) && Patched(v, v', g, v.slots[i], offset, bytes, written) &&
             |bytes| < 0x1_0000_0000
    ensures Intact(v', g) && v'.fat == v.fat && v'.slots == v.slots && SameBut(v, v', g, i)
    ensures Exact(v, g) ==> Exact(v', g)
    ensures var name := NameOf(v.slots[i]);
            name in Files(v, g) && Files(v', g) == Files(v, g)[name := Overwrite(Files(v, g)[name], offset, bytes)]
    ensures offset + |bytes| < 0x1_0000_0000 ==> written == Inside(|ContentOf(v, g, v.slots[i])|, offset, |bytes|)
  {
    PatchKeeps(v, v', g, i, offset, bytes, written);
    PatchContent(v, v', g, v.slots[i], offset, bytes, written);
    KeepsSame(v, v', g, i);
    FilesHas(v, g, i);
    OneFile(v, v', g, i);
    PatchIntact(v, v', g, i);
  }

  /**
    The count returned is the number of bytes inside the file exactly when the
    request ends below 2^32 or the file fills its clusters.
   */
  lemma WrittenIff(v: Vol, v': Vol, g: Geometry, i: nat, offset: nat, bytes: seq<Byte>, written: nat)
    requires Intact(v, g) && IsFileAt(v, i) && Patched(v, v', g, v.slots[i], offset, bytes, written) &&
             |bytes| < 0x1_0000_0000
    requires offset < |ContentOf(v, g, v.slots[i])|
    ensures written == Inside(|ContentOf(v, g, v.slots[i])|, offset, |bytes|) <==>
            offset + |bytes| < 0x1_0000_0000 ||
                |ContentOf(v, g, v.slots[i])| == Times(|SlotChain(v, g, v.slots[i])|, g.ClusterSize())
  {
    EndsFile(v, g, v.slots[i]);
    PatchInside(v, v', g, v.slots[i], offset, bytes, written);
  }

  lemma PatchIntact(v: Vol, v': Vol, g: Geometry, i: nat)
    requires Intact(v, g) && KeepsFiles(v, v', g, i) && v'.fat == v.fat
    ensures Intact(v', g) && (Exact(v, g) ==> Exact(v', g))
  {
    forall j: nat | IsFileAt(v', j)
      ensures IsFileAt(v, j)
    {
    }
  }
}
