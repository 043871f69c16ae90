// Runs: any sequence of creates, writes, appends, in-place writes and deletes,
// failing ones included, keeps the volume in order and does to the files what it
// does to a map.

module FatRun {
  import opened Basics
  import opened FatBytes
  import opened FatVolume
  import opened FatChains
  import opened FatNames
  import opened FatDirectory
  import opened FatFiles
  import opened FatContents
  import opened FatSteps
  import opened FatLaws
  import opened FatAppend

  type FileMap = map<seq<Byte>, seq<Byte>>

  /**
    A call and what it returned; the chain is the clusters it took, and found the
    slot of the file an append has found in the listing.
   */
  datatype Call =
    | CreateCall(name: seq<Byte>, content: seq<Byte>, chain: seq<nat>, ok: bool)
    | WriteCall(name: seq<Byte>, content: seq<Byte>, chain: seq<nat>, ok: bool)
    | AppendCall(name: seq<Byte>, content: seq<Byte>, found: nat, chain: seq<nat>, ok: bool)
    | PatchCall(slot: nat, offset: nat, bytes: seq<Byte>, written: nat)
    | DeleteCall(name: seq<Byte>, ok: bool)

  /** What the methods guarantee of a call. */
  ghost predicate Step(v: Vol, v': Vol, g: Geometry, call: Call)
    requires g.Valid() && Slots32(v.slots) && |v.data| == g.clusters
  {
    match call
    case CreateCall(name, content, chain, ok) => Created(v, v', g, name, content, chain, ok)
    case WriteCall(name, content, chain, ok) =>
      var i := FindFile(v.slots, Encoded(name), 0);
      if i < |v.slots| then Rewritten(v, v', g, i, content, chain, ok) else Created(v, v', g, name, content, chain, ok)
    case AppendCall(name, content, found, chain, ok) => Appended(v, v', g, name, content, found, chain, ok)
    case PatchCall(i, offset, bytes, written) => IsFileAt(v, i) && Patched(v, v', g, v.slots[i], offset, bytes, written)
    case DeleteCall(name, ok) => Deleted(v, v', name, ok)
  }

  /** Calls that give new files new names: C strings that are not in use and are not stored as deleted. */
  ghost predicate Proper(v: Vol, call: Call)
    requires Slots32(v.slots)
  {
    match call
    case CreateCall(name, content, chain, ok) => |content| < 0x1_0000_0000 && Creatable(v, name)
    case WriteCall(name, content, chain, ok) =>
      |content| < 0x1_0000_0000 && (FindFile(v.slots, Encoded(name), 0) < |v.slots| || Creatable(v, name))
    case AppendCall(name, content, found, chain, ok) =>
      0 !in name && Encoded(name)[0] != 0xE5 && (found < |v.slots| || NameFree(v.slots, Encoded(name)))
    case PatchCall(i, offset, bytes, written) => |bytes| < 0x1_0000_0000
    case DeleteCall(name, ok) => true
  }

  /**
    What a call means for the map of files.  A rewrite that runs out of space leaves
    the file with what its old first cluster now leads to; an append that runs out
    of space loses the file.
   */
  ghost function Meaning(m: FileMap, v: Vol, g: Geometry, call: Call): FileMap
    requires Slots32(v.slots) && |v.data| == g.clusters
  {
    match call
    case CreateCall(name, content, chain, ok) => if ok then m[Encoded(name) := content] else m
    case WriteCall(name, content, chain, ok) =>
      var i := FindFile(v.slots, Encoded(name), 0);
      if ok then m[Encoded(name) := content]
      else if i < |v.slots| && FirstOf(v.slots[i]) in chain then
        m[Encoded(name) := Remnant(content, chain, FirstOf(v.slots[i]), SizeOf(v.slots[i]), g.ClusterSize())]
      else m
    case AppendCall(name, content, found, chain, ok) =>
      if ok then m[Encoded(name) := Joined(FoundBytes(v, g, found), content)]
      else if found < |v.slots| then m - {Encoded(name)}
      else m
    case PatchCall(i, offset, bytes, written) =>
      if i < |v.slots| && NameOf(v.slots[i]) in m then
        m[NameOf(v.slots[i]) := Overwrite(m[NameOf(v.slots[i])], offset, bytes)]
      else m
    case DeleteCall(name, ok) => m - {Encoded(name)}
  }

  /** The one call after which a file has not the number of clusters its size asks for. */
  ghost predicate Spoils(v: Vol, g: Geometry, call: Call)
    requires g.Valid() && Slots32(v.slots)
  {
    call.WriteCall? && !call.ok &&
    var i := FindFile(v.slots, Encoded(call.name), 0);
    i < |v.slots| && FirstOf(v.slots[i]) in call.chain &&
    |call.chain| - IndexIn(call.chain, FirstOf(v.slots[i])) != Needed(SizeOf(v.slots[i]), g.ClusterSize())
  }

  /**
    One proper call keeps the volume in order and does to the files what it means;
    it keeps a sound volume sound if and only if it does not spoil a size.
   */
  lemma StepLaw(v: Vol, v': Vol, g: Geometry, call: Call)
    requires Intact(v, g) && Step(v, v', g, call) && Proper(v, call)
    ensures Intact(v', g) && Files(v', g) == Meaning(Files(v, g), v, g, call)
    ensures Exact(v, g) ==> (Exact(v', g) <==> !Spoils(v, g, call))
  {
    match call
    case CreateCall(name, content, chain, ok) => CreateStep(v, v', g, name, content, chain, ok);
    case WriteCall(name, content, chain, ok) =>
      if FindFile(v.slots, Encoded(name), 0) < |v.slots| {
        RewriteStep(v, v', g, name, content, chain, ok);
      } else {
        CreateStep(v, v', g, name, content, chain, ok);
      }
    case AppendCall(name, content, found, chain, ok) => AppendLaw(v, v', g, name, content, found, chain, ok);
    case PatchCall(i, offset, bytes, written) => PatchStep(v, v', g, i, offset, bytes, written);
    case DeleteCall(name, ok) => DeleteStep(v, v', g, name, ok);
  }

  lemma DeleteStep(v: Vol, v': Vol, g: Geometry, name: seq<Byte>, ok: bool)
    requires Intact(v, g) && Deleted(v, v', name, ok)
    ensures Intact(v', g) && Files(v', g) == Files(v, g) - {Encoded(name)} && (Exact(v, g) ==> Exact(v', g))
  {
    DeleteLaw(v, v', g, name, ok);
    if Exact(v, g) {
      FewerOk(v, g, FindNamed(v.slots, Encoded(name), 0));
    }
  }

  lemma PatchStep(v: Vol, v': Vol, g: Geometry, i: nat, offset: nat, bytes: seq<Byte>, written: nat)
    requires Intact(v, g) && Step(v, v', g, PatchCall(i, offset, bytes, written)) && |bytes| < 0x1_0000_0000
    ensures Intact(v', g) && (Exact(v, g) ==> Exact(v', g))
    ensures Files(v', g) == Meaning(Files(v, g), v, g, PatchCall(i, offset, bytes, written))
  {
    PatchLaw(v, v', g, i, offset, bytes, written);
  }

  lemma FewerOk(v: Vol, g: Geometry, x: nat)
    requires g.Valid() && Slots32(v.slots) && Exact(v, g)
    ensures FilesOk(v, g, x)
  {
    assert forall i: nat :: IsFileAt(v, i) ==> i != |v.slots|;
  }

  lemma CreateStep(v: Vol, v': Vol, g: Geometry, name: seq<Byte>, content: seq<Byte>, chain: seq<nat>, ok: bool)
    requires Intact(v, g) && Created(v, v', g, name, content, chain, ok) && |content| < 0x1_0000_0000 &&
             Creatable(v, name)
    ensures Intact(v', g) && Files(v', g) == if ok then Files(v, g)[Encoded(name) := content] else Files(v, g)
    ensures Exact(v, g) ==> Exact(v', g)
  {
    if ok {
      CreateAdds(v, v', g, name, content, chain);
    } else {
      CreateFailed(v, v', g, name, content, chain);
    }
  }

  lemma RewriteStep(v: Vol, v': Vol, g: Geometry, name: seq<Byte>, content: seq<Byte>, chain: seq<nat>, ok: bool)
    requires Intact(v, g) && FindFile(v.slots, Encoded(name), 0) < |v.slots| && |content| < 0x1_0000_0000
    requires Step(v, v', g, WriteCall(name, content, chain, ok))
    ensures Intact(v', g) && Files(v', g) == Meaning(Files(v, g), v, g, WriteCall(name, content, chain, ok))
    ensures Exact(v, g) ==> (Exact(v', g) <==> !Spoils(v, g, WriteCall(name, content, chain, ok)))
  {
    var i := FindFile(v.slots, Encoded(name), 0);
    if ok {
      WriteReplaces(v, v', g, i, content, chain);
      if Exact(v, g) {
        FewerOk(v, g, i);
      }
    } else {
      WriteFailedLeaves(v, v', g, i, content, chain);
    }
  }

  // ---------------------------------------------------------------------
  // Runs

  /** A proper call, made and answered. */
  ghost predicate Made(v: Vol, v': Vol, g: Geometry, call: Call)
    requires g.Valid()
  {
    Shaped(v, g) && Step(v, v', g, call) && Proper(v, call)
  }

  /** vols[0], vols[1], ... are the states before and after each call. */
  ghost predicate Run(vols: seq<Vol>, g: Geometry, calls: seq<Call>)
    requires g.Valid()
  {
    |vols| == |calls| + 1 && forall k {:trigger calls[k]} :: 0 <= k < |calls| ==>
        Made(vols[k], vols[k + 1], g, calls[k])
  }

  /** The map after a run, by what the calls mean. */
  ghost function MeaningOf(m: FileMap, vols: seq<Vol>, g: Geometry, calls: seq<Call>): FileMap
    requires g.Valid() && Run(vols, g, calls)
    decreases |calls|
  {
    if calls == [] then m
    else
      var k := |calls| - 1;
      RunPrefix(vols, g, calls);
      Meaning(MeaningOf(m, vols[..k + 1], g, calls[..k]), vols[k], g, calls[k])
  }

  lemma RunPrefix(vols: seq<Vol>, g: Geometry, calls: seq<Call>)
    requires g.Valid() && Run(vols, g, calls) && calls != []
    ensures Run(vols[..|calls|], g, calls[..|calls| - 1])
  {
    var k := |calls| - 1;
    forall i | 0 <= i < k
      ensures Made(vols[..k + 1][i], vols[..k + 1][i + 1], g, calls[..k][i])
    {
      assert Made(vols[i], vols[i + 1], g, calls[i]);
    }
  }

  /** After any run the volume is in order and its files are what the calls mean. */
  lemma {:induction false} RunLaw(vols: seq<Vol>, g: Geometry, calls: seq<Call>)
    requires g.Valid() && Run(vols, g, calls) && Intact(vols[0], g)
    ensures Intact(vols[|calls|], g)
    ensures Files(vols[|calls|], g) == MeaningOf(Files(vols[0], g), vols, g, calls)
    decreases |calls|
  {
    if calls != [] {
      var k := |calls| - 1;
      RunPrefix(vols, g, calls);
      RunLaw(vols[..k + 1], g, calls[..k]);
      StepLaw(vols[k], vols[k + 1], g, calls[k]);
    }
  }

  /** A run with no call that spoils a size keeps a sound volume sound. */
  lemma {:induction false} RunSound(vols: seq<Vol>, g: Geometry, calls: seq<Call>)
    requires g.Valid() && Run(vols, g, calls) && Sound(vols[0], g)
    requires forall k {:trigger calls[k]} :: 0 <= k < |calls| ==> Unspoilt(vols[k], g, calls[k])
    ensures Sound(vols[|calls|], g)
    decreases |calls|
  {
    if calls != [] {
      var k := |calls| - 1;
      RunPrefix(vols, g, calls);
      forall j {:trigger calls[..k][j]} | 0 <= j < k
        ensures Unspoilt(vols[..k + 1][j], g, calls[..k][j])
      {
        assert calls[..k][j] == calls[j];
      }
      RunSound(vols[..k + 1], g, calls[..k]);
      StepLaw(vols[k], vols[k + 1], g, calls[k]);
    }
  }

  ghost predicate Unspoilt(v: Vol, g: Geometry, call: Call)
    requires g.Valid()
  {
    Slots32(v.slots) && !Spoils(v, g, call)
  }

  // ---------------------------------------------------------------------
  // The ledger of clusters

  /** Clusters in the chain of slot i, if it holds a file. */
  ghost function OwnedBy(v: Vol, g: Geometry, i: nat): nat
    requires Slots32(v.slots) && i < |v.slots|
  {
    if IsFile(v.slots[i]) then |SlotChain(v, g, v.slots[i])| else 0
  }

  /** Clusters in the chains of the files in the first k slots. */
  ghost function Owned(v: Vol, g: Geometry, k: nat): nat
    requires Slots32(v.slots) && k <= |v.slots|
  {
    if k == 0 then 0 else Owned(v, g, k - 1) + OwnedBy(v, g, k - 1)
  }

  /** Free clusters and clusters of files. */
  ghost function Accounted(v: Vol, g: Geometry): nat
    requires Slots32(v.slots)
  {
    Free(v) + Owned(v, g, |v.slots|)
  }

  lemma {:induction false} OwnedChange(v: Vol, v': Vol, g: Geometry, x: nat, k: nat)
    requires Slots32(v.slots) && Slots32(v'.slots) && |v'.slots| == |v.slots| && k <= |v.slots|
    requires forall i: nat {:trigger OwnedBy(v, g, i)} :: i < |v.slots| && i != x ==>
             OwnedBy(v', g, i) == OwnedBy(v, g, i)
    ensures x < k ==> Owned(v', g, k) + OwnedBy(v, g, x) == Owned(v, g, k) + OwnedBy(v', g, x)
    ensures x >= k ==> Owned(v', g, k) == Owned(v, g, k)
    decreases k
  {
    if k > 0 {
      OwnedChange(v, v', g, x, k - 1);
      assert k - 1 != x ==> OwnedBy(v', g, k - 1) == OwnedBy(v, g, k - 1);
    }
  }

  /** Clusters of the file that a delete of this name finds. */
  ghost function DeletedClusters(v: Vol, g: Geometry, name: seq<Byte>): nat
    requires Slots32(v.slots)
  {
    var i := FindNamed(v.slots, Encoded(name), 0);
    if i < |v.slots| then OwnedBy(v, g, i) else 0
  }

  /**
    Clusters a call takes out of the books: those of a create that failed, those of
    a deleted file, and those a failed rewrite filled before the file's old first
    cluster.
   */
  ghost function Leaked(v: Vol, g: Geometry, call: Call): nat
    requires Slots32(v.slots)
  {
    match call
    case CreateCall(name, content, chain, ok) => if ok then 0 else |chain|
    case WriteCall(name, content, chain, ok) =>
      var i := FindFile(v.slots, Encoded(name), 0);
      if ok then 0 else if i < |v.slots| then IndexIn(chain, FirstOf(v.slots[i])) else |chain|
    case AppendCall(name, content, found, chain, ok) =>
      (if found < |v.slots| then DeletedClusters(v, g, name) else 0) + if ok then 0 else |chain|
    case PatchCall(i, offset, bytes, written) => 0
    case DeleteCall(name, ok) => DeletedClusters(v, g, name)
  }

  /** Outside slot x every file owns what it owned. */
  lemma SameOwned(v: Vol, v': Vol, g: Geometry, x: nat)
    requires SameBut(v, v', g, x) && |v'.slots| == |v.slots|
    ensures x < |v.slots| ==>
              Owned(v', g, |v.slots|) + OwnedBy(v, g, x) == Owned(v, g, |v.slots|) + OwnedBy(v', g, x)
    ensures x >= |v.slots| ==> Owned(v', g, |v.slots|) == Owned(v, g, |v.slots|)
  {
    forall i: nat {:trigger OwnedBy(v, g, i)} | i < |v.slots| && i != x
      ensures OwnedBy(v', g, i) == OwnedBy(v, g, i)
    {
      assert SameFileAt(v, v', g, i);
    }
    OwnedChange(v, v', g, x, |v.slots|);
  }

  lemma CreateLedger(v: Vol, v': Vol, g: Geometry, name: seq<Byte>, content: seq<Byte>, chain: seq<nat>, ok: bool)
    requires Intact(v, g) && Created(v, v', g, name, content, chain, ok) && |content| < 0x1_0000_0000 &&
             Creatable(v, name)
    ensures Slots32(v'.slots) && Accounted(v', g) + (if ok then 0 else |chain|) == Accounted(v, g)
  {
    CreateIff(v, v', g, name, content, chain, ok);
    if ok {
      CreateAdds(v, v', g, name, content, chain);
      SameOwned(v, v', g, FirstUsable(v.slots, 0));
    } else {
      CreateFailed(v, v', g, name, content, chain);
      SameOwned(v, v', g, |v.slots|);
    }
  }

  lemma RewriteLedger(v: Vol, v': Vol, g: Geometry, i: nat, content: seq<Byte>, chain: seq<nat>, ok: bool)
    requires Intact(v, g) && IsFileAt(v, i) && Rewritten(v, v', g, i, content, chain, ok) && |content| < 0x1_0000_0000
    ensures Slots32(v'.slots)
    ensures Accounted(v', g) + (if ok then 0 else IndexIn(chain, FirstOf(v.slots[i]))) == Accounted(v, g)
  {
    WriteIff(v, v', g, i, content, chain, ok);
    if ok {
      WriteReplaces(v, v', g, i, content, chain);
    } else {
      WriteFailedKeepsOthers(v, v', g, i, content, chain);
      WriteFailedLeaves(v, v', g, i, content, chain);
    }
    SameOwned(v, v', g, i);
  }

  lemma DeleteLedger(v: Vol, v': Vol, g: Geometry, name: seq<Byte>, ok: bool)
    requires Intact(v, g) && Deleted(v, v', name, ok)
    ensures Slots32(v'.slots) && Accounted(v', g) + DeletedClusters(v, g, name) == Accounted(v, g)
  {
    if ok {
      DeleteDone(v, v', g, name);
      SameOwned(v, v', g, FindNamed(v.slots, Encoded(name), 0));
    }
  }

  lemma AppendLedger(v: Vol, v': Vol, g: Geometry, name: seq<Byte>, content: seq<Byte>, i: nat, chain: seq<nat>,
      ok: bool)
    requires Intact(v, g) && Appended(v, v', g, name, content, i, chain, ok) &&
             Proper(v, AppendCall(name, content, i, chain, ok))
    ensures Slots32(v'.slots)
    ensures Accounted(v', g) + Leaked(v, g, AppendCall(name, content, i, chain, ok)) == Accounted(v, g)
  {
    var bytes := Joined(FoundBytes(v, g, i), content);
    if i < |v.slots| {
      var w := AfterDelete(v, name);
      var gone :| Deleted(v, w, name, gone);
      DeleteLaw(v, w, g, name, gone);
      DeleteLedger(v, w, g, name, gone);
      CreateLedger(w, v', g, name, bytes, chain, ok);
    } else {
      CreateLedger(v, v', g, name, bytes, chain, ok);
    }
  }

  /** Every call keeps the books: free clusters, clusters of files and leaked clusters add up. */
  lemma StepLedger(v: Vol, v': Vol, g: Geometry, call: Call)
    requires Intact(v, g) && Step(v, v', g, call) && Proper(v, call)
    ensures Slots32(v'.slots) && Accounted(v', g) + Leaked(v, g, call) == Accounted(v, g)
  {
    match call
    case CreateCall(name, content, chain, ok) => CreateLedger(v, v', g, name, content, chain, ok);
    case WriteCall(name, content, chain, ok) =>
      var i := FindFile(v.slots, Encoded(name), 0);
      if i < |v.slots| {
        RewriteLedger(v, v', g, i, content, chain, ok);
      } else {
        CreateLedger(v, v', g, name, content, chain, ok);
      }
    case AppendCall(name, content, found, chain, ok) => AppendLedger(v, v', g, name, content, found, chain, ok);
    case PatchCall(i, offset, bytes, written) =>
      PatchLaw(v, v', g, i, offset, bytes, written);
      SameOwnedExactly(v, v', g, |v.slots|);
    case DeleteCall(name, ok) => DeleteLedger(v, v', g, name, ok);
  }

  lemma {:induction false} SameOwnedExactly(v: Vol, v': Vol, g: Geometry, k: nat)
    requires Slots32(v.slots) && v'.slots == v.slots && v'.fat == v.fat && k <= |v.slots|
    ensures Owned(v', g, k) == Owned(v, g, k)
    decreases k
  {
    if k > 0 {
      SameOwnedExactly(v, v', g, k - 1);
    }
  }

  /** All that a run leaks. */
  ghost function LeakedBy(vols: seq<Vol>, g: Geometry, calls: seq<Call>): nat
    requires g.Valid() && Run(vols, g, calls)
    decreases |calls|
  {
    if calls == [] then 0
    else
      var k := |calls| - 1;
      RunPrefix(vols, g, calls);
      LeakedBy(vols[..k + 1], g, calls[..k]) + Leaked(vols[k], g, calls[k])
  }

  /** Over any run, free clusters, clusters of files and leaked clusters add up to what was there before. */
  lemma {:induction false} RunLedger(vols: seq<Vol>, g: Geometry, calls: seq<Call>)
    requires g.Valid() && Run(vols, g, calls) && Intact(vols[0], g)
    ensures Intact(vols[|calls|], g)
    ensures Accounted(vols[|calls|], g) + LeakedBy(vols, g, calls) == Accounted(vols[0], g)
    decreases |calls|
  {
    RunLaw(vols, g, calls);
    if calls != [] {
      var k := |calls| - 1;
      RunPrefix(vols, g, calls);
      RunLedger(vols[..k + 1], g, calls[..k]);
      StepLedger(vols[k], vols[k + 1], g, calls[k]);
    }
  }
}
