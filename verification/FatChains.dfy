// Cluster chains: how the table strings clusters together, what bytes a chain
// holds, and how chains grow and are refilled.

module FatChains {
  import opened Basics
  import opened FatBytes
  import opened FatVolume

  /** A number the table can hand out: two reserved entries, then n data clusters. */
  predicate InRange(c: nat, n: nat) {
    2 <= c < n + 2
  }

  /** The chain that starts at first: every link is followed, and the last entry ends it. */
  ghost predicate IsChain(fat: seq<nat>, n: nat, first: nat, chain: seq<nat>) {
    n + 2 <= |fat| && chain != [] && chain[0] == first &&
    (forall i :: 0 <= i < |chain| ==> InRange(chain[i], n)) &&
    (forall i :: 0 <= i < |chain| - 1 ==> fat[chain[i]] == chain[i + 1]) &&
    fat[chain[|chain| - 1]] >= EOC
  }

  ghost predicate Distinct(s: seq<nat>) {
    forall i, j :: 0 <= i < j < |s| ==> s[i] != s[j]
  }

  /** The tail of a chain is a chain. */
  lemma ChainTail(fat: seq<nat>, n: nat, first: nat, chain: seq<nat>)
    requires IsChain(fat, n, first, chain) && |chain| > 1
    ensures IsChain(fat, n, chain[1], chain[1..])
  {
    var t := chain[1..];
    forall i | 0 <= i < |t| - 1
      ensures fat[t[i]] == t[i + 1]
    {
      assert t[i] == chain[i + 1];
    }
  }

  /** The table and the first cluster determine the chain. */
  lemma {:induction false} ChainUnique(fat: seq<nat>, n: nat, first: nat, c1: seq<nat>, c2: seq<nat>)
    requires n + 2 <= BAD && IsChain(fat, n, first, c1) && IsChain(fat, n, first, c2)
    ensures c1 == c2
    decreases |c1|
  {
    assert |c1| > 1 ==> fat[c1[0]] == c1[1] && InRange(c1[1], n);
    assert |c2| > 1 ==> fat[c2[0]] == c2[1] && InRange(c2[1], n);
    if |c1| == 1 && |c2| == 1 {
      assert c1 == [c1[0]] && c2 == [c2[0]];
    }
    if |c1| > 1 && |c2| > 1 {
      ChainTail(fat, n, first, c1);
      ChainTail(fat, n, first, c2);
      ChainUnique(fat, n, c1[1], c1[1..], c2[1..]);
      assert c1 == [c1[0]] + c1[1..] && c2 == [c2[0]] + c2[1..];
    }
  }

  lemma {:induction false} ChainSuffix(fat: seq<nat>, n: nat, first: nat, chain: seq<nat>, k: nat)
    requires IsChain(fat, n, first, chain) && k < |chain|
    ensures IsChain(fat, n, chain[k], chain[k..])
    decreases k
  {
    if k == 0 {
      assert chain[0..] == chain;
    } else {
      ChainTail(fat, n, first, chain);
      ChainSuffix(fat, n, chain[1], chain[1..], k - 1);
      assert chain[1..][k - 1..] == chain[k..];
    }
  }

  /** A chain that ends visits no cluster twice. */
  lemma ChainAcyclic(fat: seq<nat>, n: nat, first: nat, chain: seq<nat>)
    requires n + 2 <= BAD && IsChain(fat, n, first, chain)
    ensures Distinct(chain)
  {
    forall i, j | 0 <= i < j < |chain|
      ensures chain[i] != chain[j]
    {
      ChainSuffix(fat, n, first, chain, i);
      ChainSuffix(fat, n, first, chain, j);
      if chain[i] == chain[j] {
        ChainUnique(fat, n, chain[i], chain[i..], chain[j..]);
      }
    }
  }

  // ---------------------------------------------------------------------
  // The bytes of a chain

  ghost predicate Sized(data: seq<seq<Byte>>, cs: nat) {
    forall i {:trigger data[i]} :: 0 <= i < |data| ==> |data[i]| == cs
  }

  ghost predicate Holds(chain: seq<nat>, n: nat) {
    forall i :: 0 <= i < |chain| ==> InRange(chain[i], n)
  }

  /** The clusters of a chain, one after the other. */
  ghost function Gather(data: seq<seq<Byte>>, chain: seq<nat>): seq<Byte>
    requires Holds(chain, |data|)
  {
    if chain == [] then []
    else data[chain[0] - 2] + (assert Holds(chain[1..], |data|); Gather(data, chain[1..]))
  }

  lemma {:induction false} GatherLength(data: seq<seq<Byte>>, chain: seq<nat>, cs: nat)
    requires Holds(chain, |data|) && Sized(data, cs)
    ensures |Gather(data, chain)| == Times(|chain|, cs)
    decreases |chain|
  {
    if chain != [] {
      GatherLength(data, chain[1..], cs);
      assert Times(|chain|, cs) == cs + Times(|chain| - 1, cs);
    }
  }

  /** Part of the k-th cluster of a chain is part of the chain's bytes. */
  lemma {:induction false} GatherSlice(data: seq<seq<Byte>>, chain: seq<nat>, cs: nat, k: nat, o: nat, m: nat)
    requires Holds(chain, |data|) && Sized(data, cs) && k < |chain| && o + m <= cs
    ensures Times(k, cs) + o + m <= |Gather(data, chain)|
    ensures Gather(data, chain)[Times(k, cs) + o..Times(k, cs) + o + m] == data[chain[k] - 2][o..o + m]
    decreases k
  {
    var rest := chain[1..];
    var head := data[chain[0] - 2];
    if k == 0 {
      assert (head + Gather(data, rest))[o..o + m] == head[o..o + m];
    } else {
      GatherSlice(data, rest, cs, k - 1, o, m);
      var p := Times(k - 1, cs) + o;
    }
  }

  /** Bytes of a chain only depend on the clusters of the chain. */
  lemma {:induction false} GatherKept(data: seq<seq<Byte>>, data': seq<seq<Byte>>, chain: seq<nat>)
    requires Holds(chain, |data|) && |data'| == |data|
    requires forall i :: 0 <= i < |chain| ==> data'[chain[i] - 2] == data[chain[i] - 2]
    ensures Gather(data', chain) == Gather(data, chain)
    decreases |chain|
  {
    if chain != [] {
      GatherKept(data, data', chain[1..]);
    }
  }

  /** Writing inside the k-th cluster of a chain writes inside the chain's bytes. */
  lemma {:induction false} GatherSplice(data: seq<seq<Byte>>, data': seq<seq<Byte>>, chain: seq<nat>, cs: nat,
                                        k: nat, o: nat, b: seq<Byte>, at: nat)
    requires Holds(chain, |data|) && Sized(data, cs) && Distinct(chain) && k < |chain| && o + |b| <= cs
    requires at == Times(k, cs) + o && |data'| == |data|
    requires data'[chain[k] - 2] == Splice(data[chain[k] - 2], o, b)
    requires forall i :: 0 <= i < |chain| && i != k ==> data'[chain[i] - 2] == data[chain[i] - 2]
    ensures at + |b| <= |Gather(data, chain)|
    ensures Gather(data', chain) == Splice(Gather(data, chain), at, b)
    decreases k
  {
    var rest := chain[1..];
    var head := data[chain[0] - 2];
    if k == 0 {
      RestKept(data, data', chain, 0);
      GatherKept(data, data', rest);
      SpliceHead(head, Gather(data, rest), o, b);
    } else {
      RestKept(data, data', chain, k);
      GatherSplice(data, data', rest, cs, k - 1, o, b, at - cs);
      SpliceTail(head, Gather(data, rest), at - cs, b);
    }
  }

  lemma RestKept(data: seq<seq<Byte>>, data': seq<seq<Byte>>, chain: seq<nat>, k: nat)
    requires Holds(chain, |data|) && k < |chain| && |data'| == |data|
    requires forall i :: 0 <= i < |chain| && i != k ==> data'[chain[i] - 2] == data[chain[i] - 2]
    ensures Holds(chain[1..], |data|)
    ensures forall i :: 0 <= i < |chain[1..]| && i != k - 1 ==> data'[chain[1..][i] - 2] == data[chain[1..][i] - 2]
  {
    forall i | 0 <= i < |chain[1..]| && i != k - 1
      ensures data'[chain[1..][i] - 2] == data[chain[1..][i] - 2]
    {
      assert chain[1..][i] == chain[i + 1];
    }
  }

  lemma SpliceHead(x: seq<Byte>, y: seq<Byte>, o: nat, b: seq<Byte>)
    requires o + |b| <= |x|
    ensures Splice(x, o, b) + y == Splice(x + y, o, b)
  {
    var l, r := Splice(x, o, b) + y, Splice(x + y, o, b);
    forall k | 0 <= k < |l|
      ensures l[k] == r[k]
    {
    }
  }

  lemma SpliceTail(x: seq<Byte>, y: seq<Byte>, o: nat, b: seq<Byte>)
    requires o + |b| <= |y|
    ensures x + Splice(y, o, b) == Splice(x + y, |x| + o, b)
  {
    var l, r := x + Splice(y, o, b), Splice(x + y, |x| + o, b);
    forall k | 0 <= k < |l|
      ensures l[k] == r[k]
    {
    }
  }

  // ---------------------------------------------------------------------
  // Filling a chain with new content

  /** b is the content from offset from on, and zeros after its end. */
  ghost predicate Padded(b: seq<Byte>, content: seq<Byte>, from: nat) {
    forall x {:trigger b[x]} :: 0 <= x < |b| ==> b[x] == if from + x < |content| then content[from + x] else 0
  }

  /** The content from offset on, padded with zeros to a whole cluster. */
  ghost function Block(content: seq<Byte>, from: nat, cs: nat): (b: seq<Byte>)
    ensures |b| == cs && Padded(b, content, from)
  {
    seq(cs, x requires 0 <= x < cs => if from + x < |content| then content[from + x] else 0)
  }

  /** data with the clusters of the chain filled with the content, cluster by cluster. */
  ghost predicate Filled(data: seq<seq<Byte>>, data': seq<seq<Byte>>, chain: seq<nat>, content: seq<Byte>, cs: nat)
    requires Holds(chain, |data|)
  {
    |data'| == |data| &&
    (forall c :: InRange(c, |data|) && c !in chain ==> data'[c - 2] == data[c - 2]) &&
    (forall i {:trigger chain[i]} :: 0 <= i < |chain| ==> data'[chain[i] - 2] == Block(content, Times(i, cs), cs))
  }

  /** The clusters of a chain hold the content from offset from on, one block after the other. */
  ghost predicate Blocks(data: seq<seq<Byte>>, chain: seq<nat>, content: seq<Byte>, cs: nat, from: nat)
    requires Holds(chain, |data|)
  {
    chain == [] ||
    (data[chain[0] - 2] == Block(content, from, cs) &&
     Holds(chain[1..], |data|) && Blocks(data, chain[1..], content, cs, from + cs))
  }

  lemma {:induction false} FilledBlocks(data: seq<seq<Byte>>, chain: seq<nat>, content: seq<Byte>, cs: nat, k: nat)
    requires Holds(chain, |data|) && k <= |chain|
    requires forall i {:trigger chain[i]} :: 0 <= i < |chain| ==> data[chain[i] - 2] == Block(content, Times(i, cs), cs)
    ensures Holds(chain[k..], |data|) && Blocks(data, chain[k..], content, cs, Times(k, cs))
    decreases |chain| - k
  {
    if k < |chain| {
      FilledBlocks(data, chain, content, cs, k + 1);
      assert chain[k..][1..] == chain[k + 1..];
    }
  }

  /** A chain of blocks holds the content, then zeros. */
  lemma {:induction false} BlocksRead(data: seq<seq<Byte>>, chain: seq<nat>, content: seq<Byte>, cs: nat, from: nat)
    requires Holds(chain, |data|) && Blocks(data, chain, content, cs, from)
    ensures |Gather(data, chain)| == Times(|chain|, cs) && Padded(Gather(data, chain), content, from)
    decreases |chain|
  {
    if chain != [] {
      BlocksRead(data, chain[1..], content, cs, from + cs);
      JoinContent(data[chain[0] - 2], Gather(data, chain[1..]), content, from);
    }
  }

  /** Two stretches of content, one after the other. */
  lemma JoinContent(x: seq<Byte>, y: seq<Byte>, content: seq<Byte>, from: nat)
    requires Padded(x, content, from) && Padded(y, content, from + |x|)
    ensures Padded(x + y, content, from)
  {
    forall k | 0 <= k < |x + y|
      ensures (x + y)[k] == if from + k < |content| then content[from + k] else 0
    {
      if k >= |x| {
        assert (x + y)[k] == y[k - |x|];
      }
    }
  }

  /** A filled chain reads back as the content. */
  lemma {:induction false} FilledReads(data: seq<seq<Byte>>, data': seq<seq<Byte>>, chain: seq<nat>,
                                           content: seq<Byte>, cs: nat)
    requires Holds(chain, |data|) && Filled(data, data', chain, content, cs)
    requires |content| <= Times(|chain|, cs)
    ensures |Gather(data', chain)| == Times(|chain|, cs)
    ensures Gather(data', chain)[..|content|] == content
  {
    FilledBlocks(data', chain, content, cs, 0);
    assert chain[0..] == chain;
    BlocksRead(data', chain, content, cs, 0);
  }

  // ---------------------------------------------------------------------
  // Growing a chain out of free clusters

  /** fat' is fat with the clusters of the chain strung together and the last one ending the chain. */
  ghost predicate Linked(fat: seq<nat>, fat': seq<nat>, n: nat, chain: seq<nat>) {
    n + 2 <= |fat| == |fat'| && Holds(chain, n) && Distinct(chain) &&
    (forall i :: 0 <= i < |chain| ==> fat[chain[i]] == FREE) &&
    (forall c {:trigger fat'[c]} :: 0 <= c < |fat| && c !in chain ==> fat'[c] == fat[c]) &&
    (forall i :: 0 <= i < |chain| - 1 ==> fat'[chain[i]] == chain[i + 1]) &&
    (chain != [] ==> fat'[chain[|chain| - 1]] == EOC)
  }

  /** The chain takes free clusters lowest first. */
  ghost predicate TakesLowest(fat: seq<nat>, chain: seq<nat>) {
    (forall i, j :: 0 <= i < j < |chain| ==> chain[i] < chain[j]) &&
    forall c, i :: 2 <= c < |fat| && fat[c] == FREE && 0 <= i < |chain| && c <= chain[i] ==> c in chain
  }

  lemma LinkedIsChain(fat: seq<nat>, fat': seq<nat>, n: nat, chain: seq<nat>)
    requires Linked(fat, fat', n, chain) && chain != []
    ensures IsChain(fat', n, chain[0], chain)
  {
  }

  /** Chains made of used clusters survive the growth of a new one. */
  lemma LinkedKeepsChain(fat: seq<nat>, fat': seq<nat>, n: nat, chain: seq<nat>, first: nat, old_: seq<nat>)
    requires Linked(fat, fat', n, chain) && IsChain(fat, n, first, old_)
    ensures IsChain(fat', n, first, old_)
    ensures forall c :: c in old_ ==> c !in chain
  {
    forall c | c in old_
      ensures c !in chain
    {
      var i :| 0 <= i < |old_| && old_[i] == c;
      assert fat[old_[i]] != FREE by {
        if i < |old_| - 1 {
          assert InRange(old_[i + 1], n);
        }
      }
    }
    forall i | 0 <= i < |old_|
      ensures fat'[old_[i]] == fat[old_[i]]
    {
      assert old_[i] in old_;
    }
  }

  lemma LinkedUsed(fat: seq<nat>, fat': seq<nat>, n: nat, chain: seq<nat>, i: nat)
    requires Linked(fat, fat', n, chain) && i < |chain|
    ensures fat'[chain[i]] != FREE
  {
    if i < |chain| - 1 {
      assert InRange(chain[i + 1], n);
    }
  }

  /** Taking one more cluster. */
  lemma LinkedStep(fat: seq<nat>, f0: seq<nat>, f1: seq<nat>, n: nat, chain: seq<nat>, cl: nat)
    requires Linked(fat, f0, n, chain) && TakesLowest(fat, chain) && InRange(cl, n) && f0[cl] == FREE
    requires forall c {:trigger f0[c]} :: 2 <= c < cl ==> f0[c] != FREE
    requires f1 == if chain == [] then f0[cl := EOC] else f0[cl := EOC][chain[|chain| - 1] := cl]
    ensures Linked(fat, f1, n, chain + [cl]) && TakesLowest(fat, chain + [cl])
  {
    var m := chain + [cl];
    assert cl !in chain by {
      if cl in chain {
        var i :| 0 <= i < |chain| && chain[i] == cl;
        LinkedUsed(fat, f0, n, chain, i);
      }
    }
    assert fat[cl] == FREE;
    LowerAllTaken(fat, f0, n, chain, cl);
    assert forall i :: 0 <= i < |chain| ==> m[i] == chain[i];
    assert Distinct(m);
    forall c | 0 <= c < |fat| && c !in m
      ensures f1[c] == fat[c]
    {
      assert c !in chain;
      assert chain != [] ==> chain[|chain| - 1] in chain;
    }
    forall i | 0 <= i < |m| - 1
      ensures f1[m[i]] == m[i + 1]
    {
      if i < |chain| - 1 {
        assert chain[i] != chain[|chain| - 1];
        assert chain[i] in chain;
      }
    }
    assert chain != [] ==> chain[|chain| - 1] in chain;
  }

  lemma LowerAllTaken(fat: seq<nat>, f0: seq<nat>, n: nat, chain: seq<nat>, cl: nat)
    requires Linked(fat, f0, n, chain) && TakesLowest(fat, chain) && InRange(cl, n) && f0[cl] == FREE && cl !in chain
    requires fat[cl] == FREE
    requires forall c {:trigger f0[c]} :: 2 <= c < cl ==> f0[c] != FREE
    ensures TakesLowest(fat, chain + [cl])
  {
    forall i | 0 <= i < |chain|
      ensures chain[i] < cl
    {
    }
    forall c | 2 <= c < cl && fat[c] == FREE
      ensures c in chain
    {
      assert f0[c] != FREE;
    }
    var m := chain + [cl];
    forall c, i | 2 <= c < |fat| && fat[c] == FREE && 0 <= i < |m| && c <= m[i]
      ensures c in m
    {
      assert c < cl ==> c in chain;
      assert m[|chain|] == cl;
    }
  }

  // ---------------------------------------------------------------------
  // Freeing a chain

  /** fat' is fat with every cluster of the chain made free. */
  ghost predicate Freed(fat: seq<nat>, fat': seq<nat>, chain: seq<nat>) {
    |fat'| == |fat| &&
    forall c {:trigger fat'[c]} :: 0 <= c < |fat| ==> fat'[c] == if c in chain then FREE else fat[c]
  }

  /** Number of free entries among the data clusters below k. */
  ghost function FreeCount(fat: seq<nat>, k: nat): nat
    requires k <= |fat|
  {
    if k <= 2 then 0 else FreeCount(fat, k - 1) + if fat[k - 1] == FREE then 1 else 0
  }

  lemma {:induction false} FreeCountUpdate(fat: seq<nat>, k: nat, c: nat, v: nat)
    requires 2 <= c < |fat| && k <= |fat|
    ensures FreeCount(fat[c := v], k) ==
            FreeCount(fat, k) + (if c < k && v == FREE then 1 else 0) - (if c < k && fat[c] == FREE then 1 else 0)
    decreases k
  {
    if k > 2 {
      FreeCountUpdate(fat, k - 1, c, v);
    }
  }

  /** Growing a chain uses up as many free clusters as it has. */
  lemma {:induction false} LinkedCount(fat: seq<nat>, fat': seq<nat>, n: nat, chain: seq<nat>, k: nat)
    requires Linked(fat, fat', n, chain) && k <= |fat|
    ensures FreeCount(fat', k) + |InChainBelow(chain, k)| == FreeCount(fat, k)
    decreases k
  {
    if k > 2 {
      LinkedCount(fat, fat', n, chain, k - 1);
      var c := k - 1;
      if c in chain {
        assert InChainBelow(chain, k) == InChainBelow(chain, c) + {c};
        var i :| 0 <= i < |chain| && chain[i] == c;
        LinkedUsed(fat, fat', n, chain, i);
      } else {
        assert InChainBelow(chain, k) == InChainBelow(chain, c);
      }
    } else {
      assert InChainBelow(chain, k) == {} by {
        forall c | c in chain ensures c >= 2 {
          var i :| 0 <= i < |chain| && chain[i] == c;
          assert InRange(chain[i], n);
        }
      }
    }
  }

  ghost function InChainBelow(chain: seq<nat>, k: nat): set<nat> {
    set c | c in chain && c < k
  }

  lemma {:induction false} FreedCount(fat: seq<nat>, fat': seq<nat>, n: nat, chain: seq<nat>, k: nat)
    requires Freed(fat, fat', chain) && n + 2 <= |fat| && Holds(chain, n) && k <= |fat|
    requires forall i :: 0 <= i < |chain| ==> fat[chain[i]] != FREE
    ensures FreeCount(fat', k) == FreeCount(fat, k) + |InChainBelow(chain, k)|
    decreases k
  {
    if k > 2 {
      FreedCount(fat, fat', n, chain, k - 1);
      var c := k - 1;
      if c in chain {
        assert InChainBelow(chain, k) == InChainBelow(chain, c) + {c};
        var i :| 0 <= i < |chain| && chain[i] == c;
      } else {
        assert InChainBelow(chain, k) == InChainBelow(chain, c);
      }
    } else {
      assert InChainBelow(chain, k) == {} by {
        forall c | c in chain ensures c >= 2 {
          var i :| 0 <= i < |chain| && chain[i] == c;
          assert InRange(chain[i], n);
        }
      }
    }
  }

  /** A chain without repetition has as many clusters as its set. */
  lemma {:induction false} CountDistinct(chain: seq<nat>, k: nat)
    requires Distinct(chain) && forall i :: 0 <= i < |chain| ==> chain[i] < k
    ensures |InChainBelow(chain, k)| == |chain|
    decreases |chain|
  {
    if chain == [] {
      assert InChainBelow(chain, k) == {};
    } else {
      var last := |chain| - 1;
      var rest := chain[..last];
      CountDistinct(rest, k);
      assert chain == rest + [chain[last]];
      assert chain[last] !in rest;
      assert InChainBelow(chain, k) == InChainBelow(rest, k) + {chain[last]};
    }
  }
}
