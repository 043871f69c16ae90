// Entries and addresses as 32-bit words: which bit says what.

module PageBits {
  import opened Options
  import opened PageFrames
  import opened PageTables
  import opened AddressSpace

  /** The lowest bit of an entry says that it is present. */
  lemma PresentBit(w: Word)
    ensures Present(Parts(w)) <==> w[0]
  {
  }

  lemma {:induction false} ZeroValue(bits: seq<bool>)
    ensures Value(bits) == 0 <==> forall i :: 0 <= i < |bits| ==> !bits[i]
    decreases |bits|
  {
    if bits != [] {
      ZeroValue(bits[1..]);
      assert forall i :: 0 < i < |bits| ==> bits[i] == bits[1..][i - 1];
    }
  }

  /** Two to the n. */
  function Power(n: nat): nat {
    if n == 0 then 1 else 2 * Power(n - 1)
  }

  /** Bits, and more bits above them. */
  lemma {:induction false} ValueAbove(low: seq<bool>, high: seq<bool>)
    ensures Value(low + high) == Value(low) + Power(|low|) * Value(high)
    decreases |low|
  {
    if low == [] {
      assert low + high == high;
    } else {
      ValueAbove(low[1..], high);
      assert (low + high)[1..] == low[1..] + high;
      assert 2 * (Power(|low| - 1) * Value(high)) == Power(|low|) * Value(high);
    }
  }

  lemma {:induction false} ValueBound(bits: seq<bool>)
    ensures Value(bits) < Power(|bits|)
    decreases |bits|
  {
    if bits != [] {
      ValueBound(bits[1..]);
    }
  }

  lemma PowersUsed()
    ensures Power(10) == 1024 && Power(12) == 4096 && Power(19) == 0x8_0000
  {
    assert Power(5) == 32;
    assert Power(10) == 1024;
    assert Power(12) == 4096;
    assert Power(15) == 32768;
  }

  /** The frame of an entry is the number in its upper twenty bits. */
  lemma FrameWord(w: Word)
    ensures FrameOf(Parts(w)) == Value(w[12..])
  {
    var low, high := w[12..31], w[31..];
    assert w[12..] == low + high && high == [w[31]];
    PowersUsed();
    ValueAbove(low, high);
    assert Value(high[1..]) == 0;
  }

  /** An empty entry of the directory is the word in which bit 1 alone is set. */
  lemma AbsentWord(w: Word)
    ensures Parts(w) == ABSENT <==> forall i :: 0 <= i < 32 ==> (w[i] <==> i == 1)
  {
    ZeroValue(w[12..31]);
    assert forall i :: 12 <= i < 31 ==> w[i] == w[12..31][i - 12];
    if Parts(w) == ABSENT {
      forall i | 0 <= i < 12
        ensures w[i] <==> i == 1
      {
        assert i in LowsOf(w, 12) <==> i in ABSENT.flags;
      }
    }
    if forall i :: 0 <= i < 32 ==> (w[i] <==> i == 1) {
      assert LowsOf(w, 12) == {1};
    }
  }

  /** An entry in use after initialisation is the word with bits 0 and 1 set, and the frame in its upper bits. */
  lemma MappedWord(w: Word, frame: nat)
    requires frame < 0x10_0000 && Parts(w) == Mapped(frame)
    ensures w[0] && w[1] && (forall i :: 2 <= i < 12 ==> !w[i]) && Value(w[12..]) == frame
  {
    FrameWord(w);
    forall i | 0 <= i < 12
      ensures w[i] <==> i == 0 || i == 1
    {
      assert i in LowsOf(w, 12) <==> i in Mapped(frame).flags;
    }
  }

  /** The upper ten bits of an address choose the entry of the directory, and the next ten that of the table. */
  lemma AddressBits(w: Word)
    requires Value(w) < 0x1_0000_0000
    ensures PdIdx(Value(w)) == Value(w[22..]) && PtIdx(Value(w)) == Value(w[12..22])
  {
    var a, b, c := w[..12], w[12..22], w[22..];
    assert w == a + (b + c);
    PowersUsed();
    ValueAbove(a, b + c);
    ValueAbove(b, c);
    ValueBound(a);
    ValueBound(b);
    Cut(Value(w), Value(a), Value(b), Value(c));
  }

  lemma Cut(v: nat, a: nat, b: nat, c: nat)
    requires v == a + 4096 * (b + 1024 * c) && a < 4096 && b < 1024
    ensures v / 0x40_0000 == c && (v / 4096) % 1024 == b
  {
    assert v / 4096 == b + 1024 * c;
  }

  /** After initialisation 4 MiB from 3 GiB on lead to the physical addresses from 64 KiB on, where the kernel is. */
  lemma KernelAddresses(v: nat)
    requires 0xC000_0000 <= v < 0xC040_0000
    ensures Initial(v) == Some((v - 0xC000_0000 + 0x1_0000) / 4096)
  {
  }
}
