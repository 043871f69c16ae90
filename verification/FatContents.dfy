// What a volume stores: a map from stored 8.3 names to bytes.

module FatContents {
  import opened Basics
  import opened FatBytes
  import opened FatVolume
  import opened FatChains
  import opened FatDriver
  import opened FatDirectory
  import opened FatFiles

  /** The chain that starts at first; empty when there is none. */
  ghost function ChainOf(fat: seq<nat>, n: nat, first: nat): (chain: seq<nat>)
    ensures chain != [] ==> IsChain(fat, n, first, chain)
    ensures forall i :: 0 <= i < |chain| ==> InRange(chain[i], n)
  {
    if exists c :: IsChain(fat, n, first, c) then
      var c :| IsChain(fat, n, first, c);
      c
    else []
  }

  lemma ChainOfIs(fat: seq<nat>, n: nat, first: nat, chain: seq<nat>)
    requires n + 2 <= BAD && IsChain(fat, n, first, chain)
    ensures ChainOf(fat, n, first) == chain
  {
    ChainUnique(fat, n, first, ChainOf(fat, n, first), chain);
  }

  /** The chain of the file in a slot. */
  ghost function SlotChain(v: Vol, g: Geometry, e: Slot): (chain: seq<nat>)
    requires |e| == 32
    ensures forall i :: 0 <= i < |chain| ==> InRange(chain[i], g.clusters)
  {
    ChainOf(v.fat, g.clusters, FirstOf(e))
  }

  /**
    The file in a slot has a chain that ends, and a size the driver's 16-bit cluster
    index can reach; an empty file may also have no cluster at all (first cluster 0).
   */
  ghost predicate FileEnds(v: Vol, g: Geometry, e: Slot)
    requires |e| == 32 && g.Valid()
  {
    if SlotChain(v, g, e) == [] then FirstOf(e) == 0 && SizeOf(e) == 0
    else SizeOf(e) <= Times(0x1_0000, g.ClusterSize())
  }

  /** The file in a slot has a chain that ends and is exactly as long as its size asks for. */
  ghost predicate FileOk(v: Vol, g: Geometry, e: Slot)
    requires |e| == 32 && g.Valid()
  {
    FileEnds(v, g, e) &&
    (SlotChain(v, g, e) != [] ==> |SlotChain(v, g, e)| == Needed(SizeOf(e), g.ClusterSize()))
  }

  ghost predicate DisjointSeqs(s: seq<nat>, t: seq<nat>) {
    forall c :: c in s ==> c !in t
  }

  /** The first size bytes, or all when there are fewer. */
  function Cut(b: seq<Byte>, size: nat): seq<Byte> {
    if size <= |b| then b[..size] else b
  }

  /** The bytes of the file in a slot. */
  ghost function ContentOf(v: Vol, g: Geometry, e: Slot): seq<Byte>
    requires |e| == 32 && |v.data| == g.clusters
  {
    Cut(Gather(v.data, SlotChain(v, g, e)), SizeOf(e))
  }

  ghost predicate IsFileAt(v: Vol, i: nat)
    requires Slots32(v.slots)
  {
    i < |v.slots| && IsFile(v.slots[i])
  }

  /** Every file but the one in slot x ends. */
  ghost predicate FilesEnd(v: Vol, g: Geometry, x: nat)
    requires Slots32(v.slots) && g.Valid()
  {
    forall i: nat {:trigger IsFileAt(v, i)} :: IsFileAt(v, i) && i != x ==> FileEnds(v, g, v.slots[i])
  }

  /** Every file but the one in slot x has as many clusters as its size asks for. */
  ghost predicate FilesOk(v: Vol, g: Geometry, x: nat)
    requires Slots32(v.slots) && g.Valid()
  {
    forall i: nat {:trigger IsFileAt(v, i)} :: IsFileAt(v, i) && i != x ==> FileOk(v, g, v.slots[i])
  }

  /** No two files, leaving aside the one in slot x, share a cluster. */
  ghost predicate FilesApart(v: Vol, g: Geometry, x: nat)
    requires Slots32(v.slots) && g.Valid()
  {
    forall i: nat, j: nat {:trigger IsFileAt(v, i), IsFileAt(v, j)} ::
      IsFileAt(v, i) && IsFileAt(v, j) && i != j && i != x && j != x ==>
        DisjointSeqs(SlotChain(v, g, v.slots[i]), SlotChain(v, g, v.slots[j]))
  }

  /** A volume whose table and directory make sense. */
  ghost predicate Frame(v: Vol, g: Geometry) {
    g.Valid() && Shaped(v, g) && TailReserved(v.fat, g.clusters) && LinksInTable(v.fat) && DirOk(v.slots)
  }

  /** A volume all of whose files, leaving aside the one in slot x, have chains of their own that end. */
  ghost predicate IntactBut(v: Vol, g: Geometry, x: nat) {
    Frame(v, g) && FilesEnd(v, g, x) && FilesApart(v, g, x)
  }

  ghost predicate Intact(v: Vol, g: Geometry) {
    IntactBut(v, g, |v.slots|)
  }

  /** Every file has as many clusters as its size asks for. */
  ghost predicate Exact(v: Vol, g: Geometry)
    requires Slots32(v.slots) && g.Valid()
  {
    FilesOk(v, g, |v.slots|)
  }

  ghost predicate Sound(v: Vol, g: Geometry) {
    Intact(v, g) && Exact(v, g)
  }

  ghost function Names(slots: seq<Slot>): set<seq<Byte>>
    requires Slots32(slots)
  {
    set i | 0 <= i < |slots| && IsFile(slots[i]) :: NameOf(slots[i])
  }

  /** The volume as a map from stored names to bytes. */
  ghost function Files(v: Vol, g: Geometry): map<seq<Byte>, seq<Byte>>
    requires Slots32(v.slots) && |v.data| == g.clusters
  {
    map x | x in Names(v.slots) &&
        FindFile(v.slots, x, 0) < |v.slots| :: ContentOf(v, g, v.slots[FindFile(v.slots, x, 0)])
  }

  /** Every file slot is in the map. */
  lemma FilesHas(v: Vol, g: Geometry, i: nat)
    requires |v.data| == g.clusters && DirOk(v.slots) && IsFileAt(v, i)
    ensures NameOf(v.slots[i]) in Files(v, g) && Files(v, g)[NameOf(v.slots[i])] == ContentOf(v, g, v.slots[i])
  {
    FindFileIs(v.slots, NameOf(v.slots[i]), 0, i);
    assert NameOf(v.slots[i]) in Names(v.slots);
  }

  /** Everything in the map comes from a file slot. */
  lemma FilesFrom(v: Vol, g: Geometry, x: seq<Byte>) returns (i: nat)
    requires Frame(v, g) && x in Files(v, g)
    ensures IsFileAt(v, i) && NameOf(v.slots[i]) == x && Files(v, g)[x] == ContentOf(v, g, v.slots[i])
  {
    i := FindFile(v.slots, x, 0);
  }

  /** A chain that ends has fewer clusters than the driver's 16-bit cluster index can count. */
  lemma ChainFits(fat: seq<nat>, n: nat, first: nat, chain: seq<nat>)
    requires n + 2 <= BAD && IsChain(fat, n, first, chain)
    ensures |chain| < 0x1_0000
  {
    ChainAcyclic(fat, n, first, chain);
    CountDistinct(chain, BAD);
    InChainSmall(chain, BAD);
  }

  /** What a file whose chain ends holds: the bytes of its clusters, up to its size. */
  lemma EndsFile(v: Vol, g: Geometry, e: Slot)
    requires g.Valid() && Shaped(v, g) && |e| == 32 && FileEnds(v, g, e)
    ensures |SlotChain(v, g, e)| < 0x1_0000
    ensures |Gather(v.data, SlotChain(v, g, e))| == Times(|SlotChain(v, g, e)|, g.ClusterSize())
    ensures SizeOf(e) > 0 ==> IsChain(v.fat, g.clusters, FirstOf(e), SlotChain(v, g, e))
  {
    var chain := SlotChain(v, g, e);
    GatherLength(v.data, chain, g.ClusterSize());
    if chain != [] {
      ChainFits(v.fat, g.clusters, FirstOf(e), chain);
    }
  }

  /** A sound file's size is the length of its content. */
  lemma SoundFile(v: Vol, g: Geometry, e: Slot)
    requires g.Valid() && Shaped(v, g) && |e| == 32 && FileOk(v, g, e)
    ensures SizeOf(e) == |ContentOf(v, g, e)|
  {
    EndsFile(v, g, e);
    if SlotChain(v, g, e) != [] {
      NeededCovers(SizeOf(e), g.ClusterSize(), 0);
    }
  }

  lemma {:induction false} InChainSmall(chain: seq<nat>, k: nat)
    ensures |InChainBelow(chain, k)| <= k
    decreases k
  {
    if k == 0 {
      assert InChainBelow(chain, 0) == {};
    } else {
      InChainSmall(chain, k - 1);
      assert InChainBelow(chain, k) <= InChainBelow(chain, k - 1) + {k - 1};
      SubsetSize(InChainBelow(chain, k), InChainBelow(chain, k - 1) + {k - 1});
    }
  }

  lemma SizeFits(e: Slot)
    requires |e| == 32
    ensures SizeOf(e) < 0x1_0000_0000
  {
  }

  /** No file or directory carries this stored name. */
  ghost predicate NameFree(slots: seq<Slot>, name: seq<Byte>)
    requires Slots32(slots)
  {
    forall i {:trigger slots[i]} :: 0 <= i < |slots| && IsNamed(slots[i]) ==> NameOf(slots[i]) != name
  }

  /** Slot i of v' holds the file that slot i of v holds, in the same clusters, or neither holds one. */
  ghost predicate SameFileAt(v: Vol, v': Vol, g: Geometry, i: nat)
    requires Slots32(v.slots) && Slots32(v'.slots) && |v.data| == |v'.data| == g.clusters
  {
    (IsFileAt(v, i) <==> IsFileAt(v', i)) &&
    (IsFileAt(v, i) ==>
       v'.slots[i] == v.slots[i] &&
       ContentOf(v', g, v.slots[i]) == ContentOf(v, g, v.slots[i]) &&
       SlotChain(v', g, v.slots[i]) == SlotChain(v, g, v.slots[i]))
  }

  /** The two volumes hold the same files, leaving aside slot x. */
  ghost predicate SameBut(v: Vol, v': Vol, g: Geometry, x: nat) {
    Frame(v, g) && Frame(v', g) && forall i: nat {:trigger SameFileAt(v, v', g, i)} :: i != x ==>
        SameFileAt(v, v', g, i)
  }

  /** What the files outside slot x were, they are. */
  lemma StayIntact(v: Vol, v': Vol, g: Geometry, x: nat)
    requires SameBut(v, v', g, x)
    ensures IntactBut(v, g, x) ==> IntactBut(v', g, x)
    ensures FilesOk(v, g, x) ==> FilesOk(v', g, x)
  {
    forall i: nat {:trigger IsFileAt(v', i)} | IsFileAt(v', i) && i != x
      ensures IsFileAt(v, i) && v'.slots[i] == v.slots[i]
      ensures SlotChain(v', g, v.slots[i]) == SlotChain(v, g, v.slots[i])
    {
      assert SameFileAt(v, v', g, i);
    }
  }

  lemma SameButFlip(v: Vol, v': Vol, g: Geometry, x: nat)
    requires SameBut(v, v', g, x)
    ensures SameBut(v', v, g, x)
  {
    forall i: nat | i != x
      ensures SameFileAt(v', v, g, i)
    {
      assert SameFileAt(v, v', g, i);
    }
  }

  /** A file of one volume that is not in slot x is a file of the other. */
  lemma CarriedOver(v: Vol, v': Vol, g: Geometry, x: nat, name: seq<Byte>)
    requires SameBut(v, v', g, x) && name in Files(v, g) && (IsFileAt(v, x) ==> NameOf(v.slots[x]) != name)
    ensures name in Files(v', g) && Files(v', g)[name] == Files(v, g)[name]
  {
    var i := FilesFrom(v, g, name);
    assert SameFileAt(v, v', g, i);
    FilesHas(v', g, i);
  }

  /** Slot by slot the same files: the same map. */
  lemma SameFiles(v: Vol, v': Vol, g: Geometry)
    requires SameBut(v, v', g, |v.slots|) && |v'.slots| == |v.slots|
    ensures Files(v', g) == Files(v, g)
  {
    SameButFlip(v, v', g, |v.slots|);
    forall x | x in Files(v, g)
      ensures x in Files(v', g) && Files(v', g)[x] == Files(v, g)[x]
    {
      CarriedOver(v, v', g, |v.slots|, x);
    }
    forall x | x in Files(v', g)
      ensures x in Files(v, g)
    {
      CarriedOver(v', v, g, |v.slots|, x);
    }
  }

  /** Every other name is in both maps or in neither, with the same bytes. */
  ghost predicate AgreeBut(m: map<seq<Byte>, seq<Byte>>, m': map<seq<Byte>, seq<Byte>>, name: seq<Byte>) {
    (forall y {:trigger y in m} {:trigger y in m'} :: y != name ==> (y in m <==> y in m')) &&
    (forall y {:trigger m[y]} {:trigger m'[y]} :: y in m && y in m' && y != name ==> m'[y] == m[y])
  }

  lemma MapWithout(m: map<seq<Byte>, seq<Byte>>, m': map<seq<Byte>, seq<Byte>>, name: seq<Byte>)
    requires AgreeBut(m, m', name) && name !in m'
    ensures m' == m - {name}
  {
  }

  /** Only names of files in slot x can differ. */
  lemma FilesAgree(v: Vol, v': Vol, g: Geometry, x: nat, name: seq<Byte>)
    requires SameBut(v, v', g, x)
    requires IsFileAt(v, x) ==> NameOf(v.slots[x]) == name
    requires IsFileAt(v', x) ==> NameOf(v'.slots[x]) == name
    ensures AgreeBut(Files(v, g), Files(v', g), name)
  {
    SameButFlip(v, v', g, x);
    forall y | y in Files(v, g) && y != name
      ensures y in Files(v', g) && Files(v', g)[y] == Files(v, g)[y]
    {
      CarriedOver(v, v', g, x, y);
    }
    forall y | y in Files(v', g) && y != name
      ensures y in Files(v, g)
    {
      CarriedOver(v', v, g, x, y);
    }
  }

  /** Slot x gets a file under the name it had, if it had one; all other slots keep theirs. */
  lemma OneFile(v: Vol, v': Vol, g: Geometry, x: nat)
    requires SameBut(v, v', g, x) && IsFileAt(v', x) && (IsFileAt(v, x) ==> NameOf(v.slots[x]) == NameOf(v'.slots[x]))
    ensures Files(v', g) == Files(v, g)[NameOf(v'.slots[x]) := ContentOf(v', g, v'.slots[x])]
  {
    FilesAgree(v, v', g, x, NameOf(v'.slots[x]));
    FilesHas(v', g, x);
  }

  /** Slot x loses its file, if it had one; all other slots keep theirs. */
  lemma OneGone(v: Vol, v': Vol, g: Geometry, x: nat)
    requires SameBut(v, v', g, x) && x < |v.slots| && IsNamed(v.slots[x]) && !IsFileAt(v', x)
    ensures Files(v', g) == Files(v, g) - {NameOf(v.slots[x])}
  {
    FilesAgree(v, v', g, x, NameOf(v.slots[x]));
    if NameOf(v.slots[x]) in Files(v', g) {
      GoneName(v, v', g, x, NameOf(v.slots[x]));
    }
    MapWithout(Files(v, g), Files(v', g), NameOf(v.slots[x]));
  }

  lemma GoneName(v: Vol, v': Vol, g: Geometry, x: nat, y: seq<Byte>)
    requires SameBut(v, v', g, x) && x < |v.slots| && IsNamed(v.slots[x]) && !IsFileAt(v', x) && y in Files(v', g)
    ensures y != NameOf(v.slots[x])
  {
    var i := FilesFrom(v', g, y);
    assert SameFileAt(v, v', g, i);
    NamesDiffer(v.slots, i, x);
  }

  lemma NamesDiffer(slots: seq<Slot>, i: nat, j: nat)
    requires DirOk(slots) && i < |slots| && j < |slots| && i != j && IsNamed(slots[i]) && IsNamed(slots[j])
    ensures NameOf(slots[i]) != NameOf(slots[j])
  {
  }
}
