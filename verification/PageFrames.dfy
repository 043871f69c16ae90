// The physical memory manager: one bit per 4 KiB block, set while the block is in use.

module PageFrames {
  const BLOCK_SIZE: nat := 4096

  /** A 32-bit word as its bits, lowest first. */
  type Word = w: seq<bool> | |w| == 32 witness seq(32, i => false)

  const ALL_ONES: Word := seq(32, i => true)

  /** Block b is in use. */
  ghost predicate Used(ws: seq<Word>, b: nat)
    requires b < 32 * |ws|
  {
    ws[b / 32][b % 32]
  }

  /** The n blocks from s on are all free. */
  ghost predicate FreeRun(ws: seq<Word>, s: nat, n: nat) {
    s + n <= 32 * |ws| && forall b {:trigger Used(ws, b)} :: s <= b < s + n ==> !Used(ws, b)
  }

  lemma WordAt(i: nat, j: nat)
    requires j < 32
    ensures (32 * i + j) / 32 == i && (32 * i + j) % 32 == j
  {
  }

  /** Number of blocks in use below n. */
  ghost function CountUsed(ws: seq<Word>, n: nat): nat
    requires n <= 32 * |ws|
  {
    if n == 0 then 0 else CountUsed(ws, n - 1) + if Used(ws, n - 1) then 1 else 0
  }

  /** ws' is ws with the n blocks from s on set to inUse. */
  ghost predicate RunSet(ws: seq<Word>, ws': seq<Word>, s: nat, n: nat, inUse: bool) {
    |ws'| == |ws| && s + n <= 32 * |ws| &&
    forall b {:trigger Used(ws', b)} :: 0 <= b < 32 * |ws| ==>
        (Used(ws', b) <==> if s <= b < s + n then inUse else Used(ws, b))
  }

  /** Setting a run adds to the count the blocks that were free; clearing it takes away those that were in use. */
  lemma {:induction false} RunCount(ws: seq<Word>, ws': seq<Word>, s: nat, n: nat, inUse: bool, k: nat)
    requires RunSet(ws, ws', s, n, inUse) && k <= 32 * |ws|
    ensures CountUsed(ws', k) + UsedIn(ws, s, n, k) == CountUsed(ws, k) + if inUse then Overlap(s, n, k) else 0
    decreases k
  {
    if k > 0 {
      RunCount(ws, ws', s, n, inUse, k - 1);
      assert Used(ws', k - 1) <==> if s <= k - 1 < s + n then inUse else Used(ws, k - 1);
    }
  }

  /** Blocks of the run below k. */
  ghost function Overlap(s: nat, n: nat, k: nat): nat {
    if k <= s then 0 else if k >= s + n then n else k - s
  }

  /** Blocks of the run below k that are in use. */
  ghost function UsedIn(ws: seq<Word>, s: nat, n: nat, k: nat): nat
    requires k <= 32 * |ws|
  {
    if k == 0 then 0 else UsedIn(ws, s, n, k - 1) + if s <= k - 1 < s + n && Used(ws, k - 1) then 1 else 0
  }

  lemma {:induction false} UsedInFree(ws: seq<Word>, s: nat, n: nat, k: nat)
    requires FreeRun(ws, s, n) && k <= 32 * |ws|
    ensures UsedIn(ws, s, n, k) == 0
    decreases k
  {
    if k > 0 {
      UsedInFree(ws, s, n, k - 1);
    }
  }

  /** A run is in use throughout exactly when as many of its blocks are in use as it has. */
  lemma {:induction false} UsedInFull(ws: seq<Word>, s: nat, n: nat, k: nat)
    requires s + n <= 32 * |ws| && k <= 32 * |ws|
    ensures UsedIn(ws, s, n, k) <= Overlap(s, n, k)
    ensures UsedIn(ws, s, n, k) == Overlap(s, n, k) <==> forall b {:trigger Used(ws, b)} :: s <= b < s + n && b < k ==>
            Used(ws, b)
    decreases k
  {
    if k > 0 {
      UsedInFull(ws, s, n, k - 1);
      assert s <= k - 1 < s + n ==> (Used(ws, k - 1) || !Used(ws, k - 1));
    }
  }

  /** When a request is refused; left is the number of free blocks by the counter. */
  ghost predicate Refuses(ws: seq<Word>, left: int, blocks: nat) {
    blocks == 0 || left <= blocks || NoRunBelow(ws, 32 * |ws|, blocks)
  }

  /** The last free block cannot be had, although it is there. */
  lemma LastBlockRefused(ws: seq<Word>, b: nat)
    requires b < 32 * |ws| && !Used(ws, b)
    ensures FreeRun(ws, b, 1) && !NoRunBelow(ws, 32 * |ws|, 1) && Refuses(ws, 1, 1)
  {
  }

  class Manager {
    /** The bitmap, and one word of memory after it. */
    const bitmap: array<Word>
    const maxBlocks: nat
    var usedBlocks: nat

    /** At least 4 MiB of memory, and nothing free in the word after the bitmap. */
    ghost predicate Valid()
      reads this, bitmap
    {
      bitmap.Length == maxBlocks / 32 + 1 && maxBlocks / 32 >= 32 && maxBlocks < 0x10_0000 && usedBlocks <= maxBlocks &&
      bitmap[maxBlocks / 32] == ALL_ONES
    }

    /** pmm_set_block. */
    method SetBlock(bit: nat)
      requires bit < 32 * bitmap.Length
      modifies bitmap
      ensures RunSet(old(bitmap[..]), bitmap[..], bit, 1, true)
    {
      ghost var ws := bitmap[..];
      bitmap[bit / 32] := bitmap[bit / 32][bit % 32 := true];
      BlockSet(ws, bitmap[..], bit, true);
    }

    /** pmm_unset_block. */
    method UnsetBlock(bit: nat)
      requires bit < 32 * bitmap.Length
      modifies bitmap
      ensures RunSet(old(bitmap[..]), bitmap[..], bit, 1, false)
    {
      ghost var ws := bitmap[..];
      bitmap[bit / 32] := bitmap[bit / 32][bit % 32 := false];
      BlockSet(ws, bitmap[..], bit, false);
    }

    /** The counting loop of pmm_find_free_blocks at bit j of word i; it crosses into the next word. */
    method WindowFree(i: nat, j: nat, blocks: nat) returns (all: bool)
      requires Valid() && i < maxBlocks / 32 && j < 32 && 1 <= blocks <= 32
      ensures all <==> FreeRun(bitmap[..], 32 * i + j, blocks)
    {
      ghost var ws := bitmap[..];
      var count: nat, freeBlocks: nat := 0, 0;
      ghost var blocked: nat := 0;
      while count < blocks
        invariant count <= blocks && freeBlocks <= count && freeBlocks < blocks
        invariant freeBlocks == count <==> FreeRun(ws, 32 * i + j, count)
      {
        var free: bool;
        if j + count > 31 && j + 1 <= maxBlocks / 32 {
          WordAt(i + 1, j + count - 32);
          free := !bitmap[i + 1][j + count - 32];
        } else {
          WordAt(i, j + count);
          free := !bitmap[i][j + count];
        }
        assert free <==> !Used(ws, 32 * i + j + count);
        RunGrows(ws, 32 * i + j, count);
        if free {
          freeBlocks := freeBlocks + 1;
        }
        if freeBlocks == blocks {
          return true;
        }
        count := count + 1;
      }
      all := false;
    }

    /** The bits of one word, tried in order. */
    method FindInWord(i: nat, blocks: nat) returns (j: nat)
      requires Valid() && i < maxBlocks / 32 && 1 <= blocks <= 32 && NoRunBelow(bitmap[..], 32 * i, blocks)
      ensures j <= 32 && NoRunBelow(bitmap[..], 32 * i + j, blocks)
      ensures j < 32 ==> FreeRun(bitmap[..], 32 * i + j, blocks)
    {
      j := 0;
      while j < 32
        invariant j <= 32 && NoRunBelow(bitmap[..], 32 * i + j, blocks)
      {
        if !bitmap[i][j] {
          var all := WindowFree(i, j, blocks);
          if all {
            return;
          }
        } else {
          WordAt(i, j);
          assert Used(bitmap[..], 32 * i + j);
        }
        j := j + 1;
      }
    }

    /** pmm_find_free_blocks: the lowest free run, or -1 when there is none. */
    method FindFreeBlocks(blocks: nat) returns (start: int)
      requires Valid() && blocks <= 32
      ensures blocks == 0 ==> start == -1
      ensures blocks > 0 && start == -1 ==> NoRunBelow(bitmap[..], 32 * bitmap.Length, blocks)
      ensures start != -1 ==>
                0 <= start < 32 * (maxBlocks / 32) && FreeRun(bitmap[..], start, blocks) &&
                    NoRunBelow(bitmap[..], start, blocks)
    {
      if blocks == 0 {
        return -1;
      }
      var i: nat := 0;
      while i < maxBlocks / 32
        invariant i <= maxBlocks / 32 && NoRunBelow(bitmap[..], 32 * i, blocks)
      {
        if bitmap[i] != ALL_ONES {
          var j := FindInWord(i, blocks);
          if j < 32 {
            return 32 * i + j;
          }
        } else {
          FullWord(bitmap[..], i, blocks);
        }
        i := i + 1;
      }
      FullWord(bitmap[..], i, blocks);
      start := -1;
    }

    /** Sets or clears a run, block by block. */
    method MarkRun(s: nat, n: nat, inUse: bool)
      requires s + n <= 32 * bitmap.Length
      modifies bitmap
      ensures RunSet(old(bitmap[..]), bitmap[..], s, n, inUse)
    {
      ghost var ws := bitmap[..];
      var i: nat := 0;
      while i < n
        invariant i <= n && RunSet(ws, bitmap[..], s, i, inUse)
      {
        ghost var was := bitmap[..];
        if inUse {
          SetBlock(s + i);
        } else {
          UnsetBlock(s + i);
        }
        RunExtends(ws, was, bitmap[..], s, i, inUse);
        i := i + 1;
      }
    }

    /** Blocks in use that the counter knows nothing of, or that it counts too many. */
    ghost function Drift(): int
      requires Valid()
      reads this, bitmap
    {
      CountUsed(bitmap[..], 32 * (maxBlocks / 32)) - usedBlocks
    }

    /** pmm_alloc_blocks; address 0 stands for NULL.  It refuses when exactly the blocks asked for are left. */
    method AllocBlocks(blocks: nat) returns (addr: nat, ghost start: int)
      requires Valid() && blocks <= 32
      modifies this`usedBlocks, bitmap
      ensures Valid() && Drift() == old(Drift())
      ensures start == -1 <==> Refuses(old(bitmap[..]), old(maxBlocks - usedBlocks), blocks)
      ensures start == -1 ==> addr == 0 && bitmap[..] == old(bitmap[..]) && usedBlocks == old(usedBlocks)
      ensures start != -1 ==>
                0 <= start && start + blocks <= 32 * (maxBlocks / 32) && addr == BLOCK_SIZE * start < 0x1_0000_0000 &&
                FreeRun(old(bitmap[..]), start, blocks) && NoRunBelow(old(bitmap[..]), start, blocks) &&
                RunSet(old(bitmap[..]), bitmap[..], start, blocks, true) && usedBlocks == old(usedBlocks) + blocks
    {
      start, addr := -1, 0;
      if maxBlocks - usedBlocks <= blocks {
        return;
      }
      var first := FindFreeBlocks(blocks);
      if first == -1 {
        return;
      }
      ghost var ws := bitmap[..];
      MarkRun(first, blocks, true);
      GuardStays(ws, bitmap[..], first, blocks, maxBlocks / 32);
      RunBelow(ws, first, blocks, maxBlocks / 32);
      AllocCount(ws, bitmap[..], first, blocks, maxBlocks / 32);
      usedBlocks := usedBlocks + blocks;
      start, addr := first, first * BLOCK_SIZE;
    }

    /** pmm_free_blocks.  The counter stays right exactly when the whole run was in use. */
    method FreeBlocks(addr: nat, blocks: nat)
      requires Valid() && blocks <= usedBlocks && addr / BLOCK_SIZE + blocks <= 32 * (maxBlocks / 32)
      modifies this`usedBlocks, bitmap
      ensures Valid() && usedBlocks == old(usedBlocks) - blocks
      ensures RunSet(old(bitmap[..]), bitmap[..], addr / BLOCK_SIZE, blocks, false)
      ensures Drift() == old(Drift()) <==> AllUsed(old(bitmap[..]), addr / BLOCK_SIZE, blocks)
    {
      var startBlock := addr / BLOCK_SIZE;
      ghost var ws := bitmap[..];
      MarkRun(startBlock, blocks, false);
      GuardKept(ws, bitmap[..], startBlock, blocks, maxBlocks / 32);
      FreeCount(ws, bitmap[..], startBlock, blocks, 32 * (maxBlocks / 32));
      usedBlocks := usedBlocks - blocks;
    }
  }

  lemma BlockSet(ws: seq<Word>, ws': seq<Word>, b: nat, inUse: bool)
    requires b < 32 * |ws|
    requires ws' == ws[b / 32 := ws[b / 32][b % 32 := inUse]]
    ensures RunSet(ws, ws', b, 1, inUse)
  {
    forall x {:trigger Used(ws', x)} | 0 <= x < 32 * |ws|
      ensures Used(ws', x) <==> if x == b then inUse else Used(ws, x)
    {
      assert x == 32 * (x / 32) + x % 32 && b == 32 * (b / 32) + b % 32;
    }
  }

  lemma RunGrows(ws: seq<Word>, s: nat, n: nat)
    requires s + n < 32 * |ws|
    ensures FreeRun(ws, s, n + 1) <==> FreeRun(ws, s, n) && !Used(ws, s + n)
  {
    assert Used(ws, s + n) || !Used(ws, s + n);
  }

  /** No free run of n blocks starts below s. */
  ghost predicate NoRunBelow(ws: seq<Word>, s: nat, n: nat) {
    forall b: nat {:trigger FreeRun(ws, b, n)} :: b < s ==> !FreeRun(ws, b, n)
  }

  /** No run starts in a full word. */
  lemma FullWord(ws: seq<Word>, i: nat, n: nat)
    requires i < |ws| && ws[i] == ALL_ONES && n > 0 && NoRunBelow(ws, 32 * i, n)
    ensures NoRunBelow(ws, 32 * (i + 1), n)
  {
    forall b: nat {:trigger FreeRun(ws, b, n)} | b < 32 * (i + 1)
      ensures !FreeRun(ws, b, n)
    {
      if b >= 32 * i {
        WordAt(i, b - 32 * i);
        assert Used(ws, b);
      }
    }
  }

  lemma RunExtends(ws: seq<Word>, was: seq<Word>, now: seq<Word>, s: nat, n: nat, inUse: bool)
    requires RunSet(ws, was, s, n, inUse) && RunSet(was, now, s + n, 1, inUse)
    ensures RunSet(ws, now, s, n + 1, inUse)
  {
    forall b {:trigger Used(now, b)} | 0 <= b < 32 * |ws|
      ensures Used(now, b) <==> if s <= b < s + n + 1 then inUse else Used(ws, b)
    {
      assert Used(was, b) <==> if s <= b < s + n then inUse else Used(ws, b);
    }
  }

  ghost predicate AllUsed(ws: seq<Word>, s: nat, n: nat) {
    s + n <= 32 * |ws| && forall b {:trigger Used(ws, b)} :: s <= b < s + n ==> Used(ws, b)
  }

  lemma WordEqual(v: Word, w: Word)
    requires forall j {:trigger v[j]} :: 0 <= j < 32 ==> v[j] == w[j]
    ensures v == w
  {
  }

  /** A free run ends before a full word, so marking it leaves the word alone. */
  lemma GuardStays(ws: seq<Word>, ws': seq<Word>, s: nat, n: nat, i: nat)
    requires RunSet(ws, ws', s, n, true) && FreeRun(ws, s, n) && i < |ws| && ws[i] == ALL_ONES
    ensures ws'[i] == ALL_ONES
  {
    forall j {:trigger ws'[i][j]} | 0 <= j < 32
      ensures ws'[i][j] == ALL_ONES[j]
    {
      WordAt(i, j);
      assert Used(ws, 32 * i + j) && Used(ws', 32 * i + j);
    }
    WordEqual(ws'[i], ALL_ONES);
  }

  lemma GuardKept(ws: seq<Word>, ws': seq<Word>, s: nat, n: nat, i: nat)
    requires RunSet(ws, ws', s, n, false) && i < |ws| && ws[i] == ALL_ONES && s + n <= 32 * i
    ensures ws'[i] == ALL_ONES
  {
    forall j {:trigger ws'[i][j]} | 0 <= j < 32
      ensures ws'[i][j] == ALL_ONES[j]
    {
      WordAt(i, j);
      assert Used(ws, 32 * i + j) && Used(ws', 32 * i + j);
    }
    WordEqual(ws'[i], ALL_ONES);
  }

  /** A free run that cannot reach into a full word lies below it. */
  lemma RunBelow(ws: seq<Word>, s: nat, n: nat, i: nat)
    requires FreeRun(ws, s, n) && i < |ws| && ws[i] == ALL_ONES && s < 32 * i
    ensures s + n <= 32 * i
  {
    if s + n > 32 * i {
      WordAt(i, 0);
      assert Used(ws, 32 * i);
    }
  }

  lemma AllocCount(ws: seq<Word>, ws': seq<Word>, s: nat, n: nat, i: nat)
    requires RunSet(ws, ws', s, n, true) && FreeRun(ws, s, n) && i < |ws| && ws[i] == ALL_ONES && s < 32 * i
    ensures CountUsed(ws', 32 * i) == CountUsed(ws, 32 * i) + n
  {
    RunBelow(ws, s, n, i);
    RunCount(ws, ws', s, n, true, 32 * i);
    UsedInFree(ws, s, n, 32 * i);
  }

  lemma FreeCount(ws: seq<Word>, ws': seq<Word>, s: nat, n: nat, k: nat)
    requires RunSet(ws, ws', s, n, false) && s + n <= k <= 32 * |ws|
    ensures CountUsed(ws', k) + n >= CountUsed(ws, k)
    ensures CountUsed(ws', k) + n == CountUsed(ws, k) <==> AllUsed(ws, s, n)
  {
    RunCount(ws, ws', s, n, false, k);
    UsedInFull(ws, s, n, k);
  }

  /** Bitmaps with the same blocks in use are the same. */
  lemma SameBits(ws: seq<Word>, w2: seq<Word>)
    requires |w2| == |ws| && forall b {:trigger Used(w2, b)} :: 0 <= b < 32 * |ws| ==> (Used(w2, b) <==> Used(ws, b))
    ensures w2 == ws
  {
    forall i | 0 <= i < |ws|
      ensures w2[i] == ws[i]
    {
      forall j {:trigger w2[i][j]} | 0 <= j < 32
        ensures w2[i][j] == ws[i][j]
      {
        WordAt(i, j);
        assert Used(w2, 32 * i + j) <==> Used(ws, 32 * i + j);
      }
      WordEqual(w2[i], ws[i]);
    }
  }

  /** Allocating a run and freeing it restores the bitmap. */
  lemma AllocThenFree(ws: seq<Word>, w1: seq<Word>, w2: seq<Word>, s: nat, n: nat)
    requires FreeRun(ws, s, n) && RunSet(ws, w1, s, n, true) && RunSet(w1, w2, s, n, false)
    ensures w2 == ws
  {
    forall b {:trigger Used(w2, b)} | 0 <= b < 32 * |ws|
      ensures Used(w2, b) <==> Used(ws, b)
    {
      assert Used(w1, b) <==> if s <= b < s + n then true else Used(ws, b);
    }
    SameBits(ws, w2);
  }
}
