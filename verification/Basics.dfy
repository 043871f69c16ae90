// Numbers, texts and sets: what several of the other modules use.

module Basics {
  const WORD: nat := 0x1_0000_0000

  function Min(x: int, y: int): int {
    if x < y then x else y
  }

  function Max(x: int, y: int): int {
    if x > y then x else y
  }

  // ---------------------------------------------------------------------
  // Products and quotients

  /** k times m, by repeated addition. */
  function Times(k: nat, m: nat): nat {
    if k == 0 then 0 else Times(k - 1, m) + m
  }

  /** x divided by m, by repeated subtraction. */
  function Quot(x: nat, m: nat): (q: nat)
    requires m > 0
  {
    if x < m then 0 else 1 + Quot(x - m, m)
  }

  /** What is left of x after that. */
  function Rest(x: nat, m: nat): (r: nat)
    requires m > 0
    ensures r < m && r <= x
  {
    if x < m then x else Rest(x - m, m)
  }

  lemma {:induction false} TimesIs(k: nat, m: nat)
    ensures Times(k, m) == k * m
  {
    if k > 0 {
      TimesIs(k - 1, m);
    }
  }

  lemma {:induction false} TimesLe(j: nat, k: nat, m: nat)
    requires j <= k
    ensures Times(j, m) <= Times(k, m)
    decreases k
  {
    if j < k {
      TimesLe(j, k - 1, m);
    }
  }

  lemma {:induction false} TimesAdd(j: nat, k: nat, n: nat, m: nat)
    requires n == j + k
    ensures Times(n, m) == Times(j, m) + Times(k, m)
    decreases k
  {
    if k > 0 {
      TimesAdd(j, k - 1, n - 1, m);
    }
  }

  lemma {:induction false} QuotRest(x: nat, m: nat)
    requires m > 0
    ensures x == Times(Quot(x, m), m) + Rest(x, m)
    decreases x
  {
    if x >= m {
      QuotRest(x - m, m);
    }
  }

  lemma MulLe(x: nat, y: nat, z: nat)
    requires x <= y
    ensures x * z <= y * z
  {
  }

  lemma DivMod(x: nat, m: nat)
    requires m > 0
    ensures x == m * (x / m) + x % m && x % m < m
  {
  }

  /** One number has one quotient and one remainder. */
  lemma OneQuotient(m: nat, q: nat, r: nat, p: nat, s: nat)
    requires m * q + r == m * p + s && r < m && s < m
    ensures q == p && r == s
  {
    if q < p {
      MulLe(q + 1, p, m);
    } else if p < q {
      MulLe(p + 1, q, m);
    }
  }

  /** Repeated subtraction is division. */
  lemma DivIs(x: nat, m: nat)
    requires m > 0
    ensures Quot(x, m) == x / m && Rest(x, m) == x % m
  {
    QuotRest(x, m);
    TimesIs(Quot(x, m), m);
    DivMod(x, m);
    OneQuotient(m, Quot(x, m), Rest(x, m), x / m, x % m);
  }

  // ---------------------------------------------------------------------
  // Texts and sets

  predicate IsDigit(c: char) {
    '0' <= c <= '9'
  }

  function Reversed(s: string): (r: string)
    ensures |r| == |s|
    ensures forall i {:trigger r[i]} :: 0 <= i < |s| ==> r[i] == s[|s| - 1 - i]
  {
    seq(|s|, i requires 0 <= i < |s| => s[|s| - 1 - i])
  }

  lemma ReversedSnoc(s: string, c: char)
    ensures Reversed(s + [c]) == [c] + Reversed(s)
  {
  }

  lemma {:induction false} SubsetSize<T>(a: set<T>, b: set<T>)
    requires a <= b
    ensures |a| <= |b|
    decreases |a|
  {
    if a != {} {
      var x :| x in a;
      SubsetSize(a - {x}, b - {x});
    }
  }
}
