// What the listing shows of the files of a volume.

module FatListing {
  import opened Basics
  import opened FatBytes
  import opened FatVolume
  import opened FatChains
  import opened FatNames
  import opened FatDirectory
  import opened FatFiles
  import opened FatContents
  import opened FatSteps
  import opened FatLaws

  /**
    In a volume that is in order every file's chain visits no cluster twice, ends
    with an end mark, and shares no cluster with another file's chain; a file
    without a chain is empty.  In a sound one the chain is as long as the file's
    size asks for.
   */
  lemma IntactChains(v: Vol, g: Geometry, i: nat, j: nat)
    requires Intact(v, g) && IsFileAt(v, i) && IsFileAt(v, j)
    ensures var chain := SlotChain(v, g, v.slots[i]);
            Distinct(chain) &&
            (chain == [] ==> SizeOf(v.slots[i]) == 0) &&
            (chain != [] ==>
               IsChain(v.fat, g.clusters, FirstOf(v.slots[i]), chain) && v.fat[chain[|chain| - 1]] >= EOC) &&
            (i != j ==> forall c :: c in chain ==> c !in SlotChain(v, g, v.slots[j])) &&
            (Sound(v, g) && chain != [] ==> |chain| == Needed(SizeOf(v.slots[i]), g.ClusterSize()))
  {
    var chain := SlotChain(v, g, v.slots[i]);
    assert FileEnds(v, g, v.slots[i]);
    assert Exact(v, g) ==> FileOk(v, g, v.slots[i]);
    if chain != [] {
      ChainAcyclic(v.fat, g.clusters, FirstOf(v.slots[i]), chain);
    }
  }

  /** A listed file item is a file of the map, with its size, and every file of the map is listed. */
  lemma ListedIff(v: Vol, item: Item)
    requires Slots32(v.slots) && EndsLast(v.slots) && item.FileItem?
    ensures item in Listing(v.slots) <==> exists i: nat :: IsFileAt(v, i) && item == ItemOf(v.slots[i])
  {
    var n := EndFrom(v.slots, 0);
    if item in Listing(v.slots) {
      var i := ItemsBelowFrom(v.slots, n, item);
      assert IsFileAt(v, i);
    }
    forall i: nat | IsFileAt(v, i) && item == ItemOf(v.slots[i])
      ensures item in Listing(v.slots)
    {
      ItemsBelowHas(v.slots, n, i);
    }
  }

  /** A name bound in the map is listed as shown, with its slot's size: the length of its content, when sound. */
  lemma BoundIsListed(v: Vol, g: Geometry, name: seq<Byte>) returns (i: nat)
    requires Intact(v, g) && name in Files(v, g)
    ensures IsFileAt(v, i) && NameOf(v.slots[i]) == name && |Files(v, g)[name]| <= SizeOf(v.slots[i])
    ensures FileItem(Shown(name), SizeOf(v.slots[i]), FirstOf(v.slots[i])) in Listing(v.slots)
    ensures Sound(v, g) ==> SizeOf(v.slots[i]) == |Files(v, g)[name]|
  {
    i := FilesFrom(v, g, name);
    if Sound(v, g) {
      assert FileOk(v, g, v.slots[i]);
      SoundFile(v, g, v.slots[i]);
    }
    ListedIff(v, ItemOf(v.slots[i]));
  }

  /** A file just created under a name that fits the 8.3 form is listed under that name in upper case. */
  lemma CreatedIsListed(v: Vol, v': Vol, g: Geometry, name: seq<Byte>, content: seq<Byte>,
      chain: seq<nat>) returns (i: nat)
    requires Intact(v, g) && Created(v, v', g, name, content, chain, true) && |content| < 0x1_0000_0000
    requires Creatable(v, name) && Fits83(name)
    ensures IsFileAt(v', i) && FileItem(UpperAll(name), |content|, FirstOf(v'.slots[i])) in Listing(v'.slots)
  {
    CreateAdds(v, v', g, name, content, chain);
    i := FirstUsable(v.slots, 0);
    FilesHas(v', g, i);
    SoundFile(v', g, v'.slots[i]);
    ListedIff(v', ItemOf(v'.slots[i]));
    ShownIffFits(name);
  }
}
