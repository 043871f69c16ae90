// The sizes of the kernel heap in plain numbers: which block a request gets, and
// where its payload is.

module HeapOrders {
  import opened Basics
  import opened Options
  import opened Powers
  import opened BuddyTree
  import opened BuddyRun

  /** The least multiple of 4 that is not below n. */
  function Fours(n: nat): nat {
    if n % 4 == 0 then n else n - n % 4 + 4
  }

  /** Two to the k. */
  function TwoTo(k: nat): nat {
    if k == 0 then 1 else 2 * TwoTo(k - 1)
  }

  lemma {:induction false} PowersAgree(k: nat)
    ensures Pow2(k) == TwoTo(k)
  {
    if k > 0 {
      PowersAgree(k - 1);
    }
  }

  /**
    A request that does not wrap around gets the smallest order from 5 up whose
    block holds ten bytes of header and the request rounded up to a multiple of 4.
   */
  lemma OrderMeans(n: nat)
    requires n <= 0x7FFF_FFF4
    ensures var k := OrderOf(n);
            5 <= k && Fours(n) + 10 <= TwoTo(k) && (k > 5 ==> TwoTo(k - 1) < Fours(n) + 10)
  {
    NoWrap(n);
    Rounded(n);
    PowersAgree(OrderOf(n));
    if OrderOf(n) > 5 {
      PowersAgree(OrderOf(n) - 1);
    }
  }

  lemma Rounded(n: nat)
    requires n <= 0x7FFF_FFF4
    ensures AlignUp4(n) == Fours(n)
  {
    DivMod(n, 4);
    DivMod(n + 3, 4);
  }

  /** The largest order is 20: a larger request is refused by every arena, and blocks are a mebibyte at most. */
  lemma LargestOrder(h: Heap, n: nat)
    requires Ok(h) && Answerable(n) && OrderOf(n) > 20
    ensures Granted(h, n) == None && TwoTo(20) == 0x10_0000
  {
    assert TwoTo(10) == 1024;
    assert TwoTo(15) == 32768;
  }
}
