// What each operation of the file layer does to a volume, as relations, and
// what those relations mean for the files.

module FatSteps {
  import opened Basics
  import opened FatBytes
  import opened FatVolume
  import opened FatChains
  import opened FatDriver
  import opened FatNames
  import opened FatDirectory
  import opened FatFiles
  import opened FatContents

  /** The table with every cluster of the chain made free. */
  ghost function FreedFat(fat: seq<nat>, chain: seq<nat>): (r: seq<nat>)
    ensures Freed(fat, r, chain)
  {
    seq(|fat|, c requires 0 <= c < |fat| => if c in chain then FREE else fat[c])
  }

  /**
    The allocation loop, run on v: it takes the chain and fills it, and either
    got all it needed or emptied the table.
   */
  ghost predicate Stored(v: Vol, v': Vol, g: Geometry, content: seq<Byte>, chain: seq<nat>, ok: bool)
    requires g.Valid()
  {
    Grown(v, v', g.clusters, chain, content, g.ClusterSize()) &&
    if ok then |chain| == Needed(|content|, g.ClusterSize())
    else |chain| < Needed(|content|, g.ClusterSize()) && |v'.fat| >= 2 && LowestFree(v'.fat, 2) == |v'.fat|
  }

  /** fat16_create_file. */
  ghost predicate Created(v: Vol, v': Vol, g: Geometry, name: seq<Byte>, content: seq<Byte>, chain: seq<nat>, ok: bool)
    requires g.Valid() && Slots32(v.slots)
  {
    var i := FirstUsable(v.slots, 0);
    if i == |v.slots| then !ok && chain == [] && v' == v
    else
      Stored(v, v'.(slots := v.slots), g, content, chain, ok) &&
      v'.slots == if ok then v.slots[i := NewSlot(Encoded(name), chain[0], |content|)] else v.slots
  }

  /** The second half of fat16_write_file: slot i's file gets new content. */
  ghost predicate Rewritten(v: Vol, v': Vol, g: Geometry, i: nat, content: seq<Byte>, chain: seq<nat>, ok: bool)
    requires g.Valid() && Slots32(v.slots) && i < |v.slots|
  {
    Stored(v.(fat := FreedFat(v.fat, SlotChain(v, g, v.slots[i]))), v'.(slots := v.slots), g, content, chain, ok) &&
    v'.slots == if ok then v.slots[i := RewrittenSlot(v.slots[i], chain[0], |content|)] else v.slots
  }

  /** fat16_delete_file: only the slot's first byte changes. */
  ghost predicate Deleted(v: Vol, v': Vol, name: seq<Byte>, ok: bool)
    requires Slots32(v.slots)
  {
    var i := FindNamed(v.slots, Encoded(name), 0);
    if i == |v.slots| then !ok && v' == v
    else ok && v' == v.(slots := v.slots[i := v.slots[i][0 := 0xE5]])
  }

  /** fat16_file_write on the file in slot e. */
  ghost predicate Patched(v: Vol, v': Vol, g: Geometry, e: Slot, offset: nat, bytes: seq<Byte>, written: nat)
    requires g.Valid() && |e| == 32 && |v.data| == g.clusters
  {
    var chain := SlotChain(v, g, e);
    var before := Gather(v.data, chain);
    Shaped(v', g) &&
    SplicedAlong(v, v', chain, before, g.ClusterSize(), SizeOf(e), offset, bytes, written)
  }

  // ---------------------------------------------------------------------
  // One slot at a time

  /** Slot e holds the same file in both volumes. */
  ghost predicate KeepsSlot(v: Vol, v': Vol, g: Geometry, e: Slot)
    requires |e| == 32 && |v.data| == |v'.data| == g.clusters
  {
    SlotChain(v', g, e) == SlotChain(v, g, e) && ContentOf(v', g, e) == ContentOf(v, g, e)
  }

  lemma NoChainFromZero(fat: seq<nat>, n: nat)
    ensures ChainOf(fat, n, 0) == []
  {
  }

  lemma ChainKept(fat: seq<nat>, fat': seq<nat>, n: nat, first: nat)
    requires n + 2 <= BAD && (ChainOf(fat, n, first) == [] ==> first == 0)
    requires ChainOf(fat, n, first) != [] ==> IsChain(fat', n, first, ChainOf(fat, n, first))
    ensures ChainOf(fat', n, first) == ChainOf(fat, n, first)
  {
    if ChainOf(fat, n, first) == [] {
      NoChainFromZero(fat', n);
    } else {
      ChainOfIs(fat', n, first, ChainOf(fat, n, first));
    }
  }

  /** A file whose chain survives in the table, with its clusters, is kept. */
  lemma KeptSlot(v: Vol, v': Vol, g: Geometry, e: Slot)
    requires g.Valid() && |e| == 32 && FileEnds(v, g, e) && |v.data| == |v'.data| == g.clusters
    requires SlotChain(v, g, e) != [] ==> IsChain(v'.fat, g.clusters, FirstOf(e), SlotChain(v, g, e))
    requires forall i :: 0 <= i < |SlotChain(v, g, e)| ==>
             v'.data[SlotChain(v, g, e)[i] - 2] == v.data[SlotChain(v, g, e)[i] - 2]
    ensures KeepsSlot(v, v', g, e)
  {
    ChainKept(v.fat, v'.fat, g.clusters, FirstOf(e));
    GatherKept(v.data, v'.data, SlotChain(v, g, e));
  }

  /** Growing a new chain keeps every file and takes none of its clusters. */
  lemma GrowKeepsSlot(v: Vol, v': Vol, g: Geometry, e: Slot, chain: seq<nat>, content: seq<Byte>)
    requires g.Valid() && |e| == 32 && FileEnds(v, g, e)
    requires Grown(v, v', g.clusters, chain, content, g.ClusterSize())
    ensures KeepsSlot(v, v', g, e) && DisjointSeqs(SlotChain(v, g, e), chain)
  {
    var c := SlotChain(v, g, e);
    if c != [] {
      LinkedKeepsChain(v.fat, v'.fat, g.clusters, chain, FirstOf(e), c);
    }
    forall i | 0 <= i < |c|
      ensures v'.data[c[i] - 2] == v.data[c[i] - 2]
    {
      assert c[i] in c;
    }
    KeptSlot(v, v', g, e);
  }

  /** Freeing a chain keeps every file whose clusters are elsewhere. */
  lemma FreeKeepsSlot(v: Vol, v': Vol, g: Geometry, e: Slot, chain: seq<nat>)
    requires g.Valid() && |e| == 32 && FileEnds(v, g, e) && DisjointSeqs(SlotChain(v, g, e), chain)
    requires |v.data| == g.clusters && v'.data == v.data && Freed(v.fat, v'.fat, chain)
    ensures KeepsSlot(v, v', g, e)
  {
    var c := SlotChain(v, g, e);
    forall i | 0 <= i < |c| && c != []
      ensures v'.fat[c[i]] == v.fat[c[i]]
    {
      assert c[i] in c;
    }
    KeptSlot(v, v', g, e);
  }

  // ---------------------------------------------------------------------
  // All slots

  /** Both volumes have the same slots, and every file outside slot x is kept. */
  ghost predicate KeepsFiles(v: Vol, v': Vol, g: Geometry, x: nat) {
    Frame(v, g) && Frame(v', g) && v'.slots == v.slots &&
    forall i: nat {:trigger IsFileAt(v, i)} :: IsFileAt(v, i) && i != x ==> KeepsSlot(v, v', g, v.slots[i])
  }

  lemma KeepsSame(v: Vol, v': Vol, g: Geometry, x: nat)
    requires KeepsFiles(v, v', g, x)
    ensures SameBut(v, v', g, x)
  {
    forall i: nat | i != x
      ensures SameFileAt(v, v', g, i)
    {
    }
  }

  lemma KeepsIntact(v: Vol, v': Vol, g: Geometry, x: nat)
    requires KeepsFiles(v, v', g, x) && IntactBut(v, g, x)
    ensures IntactBut(v', g, x)
  {
    KeepsSame(v, v', g, x);
    StayIntact(v, v', g, x);
  }

  lemma GrownFrame(v: Vol, v': Vol, g: Geometry, chain: seq<nat>, content: seq<Byte>)
    requires Frame(v, g) && Grown(v, v', g.clusters, chain, content, g.ClusterSize())
    ensures Frame(v', g)
  {
    forall c | 0 <= c < |v'.fat|
      ensures v'.fat[c] < 0x1_0000 && (2 <= c ==> v'.fat[c] < |v'.fat| || v'.fat[c] >= BAD)
      ensures g.clusters + 2 <= c ==> v'.fat[c] != FREE
    {
      if c in chain {
        var i :| 0 <= i < |chain| && chain[i] == c;
        LinkedEntry(v.fat, v'.fat, g.clusters, chain, i);
      }
    }
    GrownData(v.data, v'.data, chain, content, g.ClusterSize());
  }

  lemma LinkedEntry(fat: seq<nat>, fat': seq<nat>, n: nat, chain: seq<nat>, i: nat)
    requires n + 2 <= BAD && Linked(fat, fat', n, chain) && i < |chain|
    ensures InRange(chain[i], n) && chain[i] < |fat'| && (fat'[chain[i]] < n + 2 || fat'[chain[i]] == EOC)
  {
    if i < |chain| - 1 {
      assert InRange(chain[i + 1], n);
    }
  }

  lemma GrownData(data: seq<seq<Byte>>, data': seq<seq<Byte>>, chain: seq<nat>, content: seq<Byte>, cs: nat)
    requires Holds(chain, |data|) && Filled(data, data', chain, content, cs) && Sized(data, cs)
    ensures Sized(data', cs)
  {
    forall k {:trigger data'[k]} | 0 <= k < |data'|
      ensures |data'[k]| == cs
    {
      if k + 2 in chain {
        var i :| 0 <= i < |chain| && chain[i] == k + 2;
        assert data'[chain[i] - 2] == Block(content, Times(i, cs), cs);
      } else {
        assert data'[(k + 2) - 2] == data[(k + 2) - 2];
      }
    }
  }

  /** Growing a chain keeps all files but the one left aside. */
  lemma GrowKeeps(v: Vol, v': Vol, g: Geometry, x: nat, chain: seq<nat>, content: seq<Byte>)
    requires IntactBut(v, g, x) && Grown(v, v', g.clusters, chain, content, g.ClusterSize())
    ensures KeepsFiles(v, v', g, x) && IntactBut(v', g, x)
    ensures forall i: nat {:trigger IsFileAt(v', i)} :: IsFileAt(v', i) && i != x ==>
            DisjointSeqs(SlotChain(v', g, v'.slots[i]), chain)
  {
    GrownFrame(v, v', g, chain, content);
    forall i: nat | IsFileAt(v, i) && i != x
      ensures KeepsSlot(v, v', g, v.slots[i]) && DisjointSeqs(SlotChain(v, g, v.slots[i]), chain)
    {
      GrowKeepsSlot(v, v', g, v.slots[i], chain, content);
    }
    KeepsIntact(v, v', g, x);
    assert forall i: nat :: IsFileAt(v', i) <==> IsFileAt(v, i);
  }

  /** Freeing the chain of a file frees no entry past the last data cluster. */
  lemma FreeReserved(v: Vol, v': Vol, g: Geometry, i: nat)
    requires TailReserved(v.fat, g.clusters) && Slots32(v.slots) && IsFileAt(v, i)
    requires v' == v.(fat := FreedFat(v.fat, SlotChain(v, g, v.slots[i])))
    ensures TailReserved(v'.fat, g.clusters)
  {
    assert forall c :: c in SlotChain(v, g, v.slots[i]) ==> InRange(c, g.clusters);
  }

  /** Freeing the chain of the file in slot i keeps all other files. */
  lemma FreeKeeps(v: Vol, v': Vol, g: Geometry, i: nat)
    requires Intact(v, g) && IsFileAt(v, i)
    requires v' == v.(fat := FreedFat(v.fat, SlotChain(v, g, v.slots[i])))
    ensures KeepsFiles(v, v', g, i) && IntactBut(v', g, i)
  {
    var chain := SlotChain(v, g, v.slots[i]);
    assert forall c :: c in chain ==> InRange(c, g.clusters);
    forall j: nat | IsFileAt(v, j) && j != i
      ensures KeepsSlot(v, v', g, v.slots[j])
    {
      FreeKeepsSlot(v, v', g, v.slots[j], chain);
    }
    KeepsIntact(v, v', g, i);
  }
}
