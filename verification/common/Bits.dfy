/**
  Machine-word arithmetic shared by the codecs: bytes, left shifts and the bitwise
  OR of naturals, together with the one fact the decoders rely on, that OR-ing
  bits in above a value adds them.
 */
module Bits {

  type byte = b: int | 0 <= b < 256

  const TWO_16: int := 0x1_0000
  const TWO_24: int := 0x100_0000
  const TWO_31: int := 0x8000_0000
  const TWO_32: int := 0x1_0000_0000
  const TWO_48: int := 0x1_0000_0000_0000
  const TWO_63: int := 0x8000_0000_0000_0000
  const TWO_64: int := 0x1_0000_0000_0000_0000

  /** x << n, without any word width. */
  function Shl(x: nat, n: nat): (r: nat)
    ensures r >= x
  {
    if n == 0 then x else 2 * Shl(x, n - 1)
  }

  lemma {:induction false} ShlAdd(x: nat, y: nat, n: nat)
    ensures Shl(x + y, n) == Shl(x, n) + Shl(y, n)
  {
    if n > 0 {
      ShlAdd(x, y, n - 1);
    }
  }

  lemma {:induction false} ShlIncreases(x: nat, y: nat, m: nat, n: nat)
    requires x <= y && m <= n
    ensures Shl(x, m) <= Shl(y, n)
  {
    if m > 0 {
      ShlIncreases(x, y, m - 1, n - 1);
    } else if n > 0 {
      ShlIncreases(x, y, 0, n - 1);
    }
  }

  lemma {:induction false} ShlShl(x: nat, m: nat, n: nat)
    ensures Shl(Shl(x, m), n) == Shl(x, m + n)
  {
    if n > 0 {
      ShlShl(x, m, n - 1);
    }
  }

  lemma ShlOne(x: nat, n: nat)
    ensures Shl(x, n + 1) == 2 * Shl(x, n) == Shl(2 * x, n)
  {
    ShlAdd(x, x, n);
  }

  /** Seven more bits is one more base-128 digit. */
  lemma ShlSeven(x: nat, n: nat)
    ensures Shl(x, n + 7) == 128 * Shl(x, n) == Shl(128 * x, n)
  {
    hide Shl;
    ShlOne(x, n); ShlOne(x, n + 1); ShlOne(x, n + 2); ShlOne(x, n + 3);
    ShlOne(x, n + 4); ShlOne(x, n + 5); ShlOne(x, n + 6);
    ShlOne(2 * x, n); ShlOne(4 * x, n); ShlOne(8 * x, n); ShlOne(16 * x, n);
    ShlOne(32 * x, n); ShlOne(64 * x, n);
  }

  lemma ShlZero(n: nat)
    ensures Shl(0, n) == 0
  {
    ShlAdd(0, 0, n);
  }

  lemma ShlBy28(x: nat)
    ensures Shl(x, 28) == 0x1000_0000 * x
  {
    ShlSeven(x, 0); ShlSeven(x, 7); ShlSeven(x, 14); ShlSeven(x, 21);
  }

  lemma ShlBy63(x: nat)
    ensures Shl(x, 63) == TWO_63 * x
  {
    ShlBy28(x);
    ShlSeven(x, 28); ShlSeven(x, 35); ShlSeven(x, 42); ShlSeven(x, 49); ShlSeven(x, 56);
  }

  lemma Shl64()
    ensures Shl(1, 64) == TWO_64
  {
    ShlBy63(1);
  }

  lemma ModAtMost(x: nat, m: nat)
    requires m > 0
    ensures x % m <= x
  {
    if x < m {
      QuotientUnique(x, m, 0, x);
    }
  }

  /** Nothing but zero stays below 2^64 when shifted by 64 or more. */
  lemma ShlPast64(x: nat, n: nat)
    requires x > 0 && n >= 64
    ensures Shl(x, n) >= TWO_64
  {
    ShlBy63(x);
    assert Shl(x, 64) == 2 * Shl(x, 63);
    ShlIncreases(x, x, 64, n);
  }

  /** Bitwise OR of two unsigned words, least significant bit first. */
  function BitOr(a: nat, b: nat): nat
  {
    if a == 0 then b
    else if b == 0 then a
    else (if a % 2 == 1 || b % 2 == 1 then 1 else 0) + 2 * BitOr(a / 2, b / 2)
  }

  /** OR-ing in x << k above a value below 1 << k is addition. */
  lemma {:induction false} BitOrAbove(a: nat, x: nat, k: nat)
    requires a < Shl(1, k)
    ensures BitOr(a, Shl(x, k)) == a + Shl(x, k)
  {
    if a != 0 && x != 0 {
      assert k > 0;
      assert Shl(x, k) / 2 == Shl(x, k - 1) && Shl(x, k) % 2 == 0;
      BitOrAbove(a / 2, x, k - 1);
    } else if x == 0 {
      ShlZero(k);
    }
  }

  // ----- Remainders

  lemma MulAtLeast(d: int, m: int)
    requires d >= 1 && m >= 0
    ensures d * m >= m
  {
    assert (d - 1) * m == d * m - m;
    assert (d - 1) * m >= 0;
  }

  lemma QuotientUnique(y: nat, m: nat, q: nat, r: nat)
    requires r < m && y == q * m + r
    ensures y % m == r
  {
    var q', r' := y / m, y % m;
    var d := q - q';
    assert d * m == q * m - q' * m;
    assert (-d) * m == -(d * m);
    if d >= 1 {
      MulAtLeast(d, m);
    } else if d <= -1 {
      MulAtLeast(-d, m);
    }
  }

  lemma DoubleMod(a: nat, m: nat)
    requires m > 0
    ensures (2 * a) % (2 * m) == 2 * (a % m)
  {
    var q, r := a / m, a % m;
    assert a == q * m + r;
    assert 2 * a == q * (2 * m) + 2 * r by {
      assert q * (2 * m) == 2 * (q * m);
    }
    QuotientUnique(2 * a, 2 * m, q, 2 * r);
  }

  /** A shift that overflows an n-bit word keeps the low bits of x, still shifted. */
  lemma {:induction false} ShlOverflow(x: nat, k: nat, n: nat)
    requires k <= n
    ensures Shl(x, k) % Shl(1, n) == Shl(x % Shl(1, n - k), k)
    ensures Shl(x % Shl(1, n - k), k) + Shl(1, k) <= Shl(1, n)
  {
    if k > 0 {
      ShlOverflow(x, k - 1, n - 1);
      DoubleMod(Shl(x, k - 1), Shl(1, n - 1));
    }
  }

  /** A shift within a 64-bit word is the shift of some of the bits of x. */
  lemma ShlIn64Bits(x: nat, k: nat) returns (kept: nat)
    requires k < 64
    ensures Shl(x, k) % TWO_64 == Shl(kept, k) && kept <= x
    ensures Shl(kept, k) + Shl(1, k) <= TWO_64
  {
    Shl64();
    ShlOverflow(x, k, 64);
    hide Shl;
    kept := x % Shl(1, 64 - k);
    ModAtMost(x, Shl(1, 64 - k));
  }

  // ----- Single bits

  predicate BitAt(w: nat, k: nat) {
    if k == 0 then w % 2 == 1 else BitAt(w / 2, k - 1)
  }

  lemma BitOrHalves(a: nat, b: nat)
    requires a > 0 && b > 0
    ensures BitOr(a, b) / 2 == BitOr(a / 2, b / 2)
    ensures BitOr(a, b) % 2 == 1 <==> a % 2 == 1 || b % 2 == 1
  {
    var low, high := if a % 2 == 1 || b % 2 == 1 then 1 else 0, BitOr(a / 2, b / 2);
    assert BitOr(a, b) == low + 2 * high;
  }

  lemma {:induction false} BitAtOr(a: nat, b: nat, k: nat)
    ensures BitAt(BitOr(a, b), k) <==> BitAt(a, k) || BitAt(b, k)
  {
    assert BitOr(a, 0) == a && BitOr(0, b) == b;
    hide BitOr;
    if a == 0 {
      BitAtZero(k);
    } else if b == 0 {
      BitAtZero(k);
    } else {
      BitOrHalves(a, b);
      if k > 0 {
        BitAtOr(a / 2, b / 2, k - 1);
      }
    }
  }

  lemma {:induction false} BitAtZero(k: nat)
    ensures !BitAt(0, k)
  {
    if k > 0 {
      BitAtZero(k - 1);
    }
  }

  lemma {:induction false} BitAtShl(j: nat, k: nat)
    ensures BitAt(Shl(1, j), k) <==> j == k
  {
    if j == 0 && k > 0 {
      BitAtZero(k - 1);
    } else if j > 0 && k > 0 {
      BitAtShl(j - 1, k - 1);
    }
  }

  /** OR-ing stays within the width. */
  lemma {:induction false} OrBelow(a: nat, b: nat, n: nat)
    requires a < Shl(1, n) && b < Shl(1, n)
    ensures BitOr(a, b) < Shl(1, n)
  {
    if a != 0 && b != 0 {
      OrBelow(a / 2, b / 2, n - 1);
    }
  }

  /** Exactly the low r of n bits are set. */
  predicate OnlyLowBits(w: nat, r: nat, n: nat) {
    forall k :: 0 <= k < n ==> (BitAt(w, k) <==> k < r)
  }

  lemma OnlyLowBitsStep(w: nat, r: nat, n: nat)
    requires 0 < n
    ensures OnlyLowBits(w, r, n) <==>
            (BitAt(w, 0) <==> 0 < r) && OnlyLowBits(w / 2, if r == 0 then 0 else r - 1, n - 1)
  {
    var w', r' := w / 2, if r == 0 then 0 else r - 1;
    assert forall k :: 1 <= k < n ==> (BitAt(w, k) <==> BitAt(w', k - 1));
    assert forall k :: 0 <= k < n - 1 ==> (BitAt(w', k) <==> BitAt(w, k + 1));
  }

  /** An n-bit word equals 2^r - 1 exactly when its low r bits are set and no others. */
  lemma {:induction false} LowBits(w: nat, r: nat, n: nat)
    requires w < Shl(1, n) && r <= n
    ensures w == Shl(1, r) - 1 <==> OnlyLowBits(w, r, n)
    decreases n
  {
    hide OnlyLowBits;
    if n > 0 {
      LowBits(w / 2, if r == 0 then 0 else r - 1, n - 1);
      OnlyLowBitsStep(w, r, n);
    } else {
      assert OnlyLowBits(w, r, n) by { NoBits(w, r); }
    }
  }

  lemma NoBits(w: nat, r: nat)
    ensures OnlyLowBits(w, r, 0)
  {
  }

  /** x >> n. */
  function Shr(x: nat, n: nat): nat {
    if n == 0 then x else Shr(x / 2, n - 1)
  }

  lemma {:induction false} ShrOfOnes(r: nat, n: nat)
    ensures Shr(Shl(1, r + n) - 1, n) == Shl(1, r) - 1
  {
    if n > 0 {
      assert (Shl(1, r + n) - 1) / 2 == Shl(1, r + n - 1) - 1;
      ShrOfOnes(r, n - 1);
    }
  }

  lemma Shl32()
    ensures Shl(1, 32) == TWO_32
  {
    ShlBy28(1);
    ShlOne(1, 28); ShlOne(1, 29); ShlOne(1, 30); ShlOne(1, 31);
  }

  lemma {:induction false} BitAtShifted(x: nat, k: nat, i: nat)
    ensures BitAt(Shl(x, k), i) <==> k <= i && BitAt(x, i - k)
  {
    if k > 0 && i > 0 {
      assert Shl(x, k) / 2 == Shl(x, k - 1);
      BitAtShifted(x, k - 1, i - 1);
    }
  }

  lemma ModHalf(x: nat, m: nat)
    requires m > 0
    ensures x % (2 * m) / 2 == x / 2 % m && x % (2 * m) % 2 == x % 2
  {
    var q, r := x / 2 / m, x / 2 % m;
    assert x / 2 == q * m + r;
    assert q * (2 * m) == 2 * (q * m);
    QuotientUnique(x, 2 * m, q, 2 * r + x % 2);
  }

  /** Truncation to n bits keeps the low n bits. */
  lemma {:induction false} BitAtMod(x: nat, n: nat, i: nat)
    requires i < n
    ensures BitAt(x % Shl(1, n), i) <==> BitAt(x, i)
  {
    var m := Shl(1, n - 1);
    assert Shl(1, n) == 2 * m;
    hide Shl;
    ModHalf(x, m);
    var y := x % (2 * m);
    if i > 0 {
      BitAtMod(x / 2, n - 1, i - 1);
      assert BitAt(y, i) == BitAt(y / 2, i - 1);
    }
  }

  function BitAnd(a: nat, b: nat): nat {
    if a == 0 || b == 0 then 0
    else (if a % 2 == 1 && b % 2 == 1 then 1 else 0) + 2 * BitAnd(a / 2, b / 2)
  }

  lemma {:induction false} BitAtAnd(a: nat, b: nat, k: nat)
    ensures BitAt(BitAnd(a, b), k) <==> BitAt(a, k) && BitAt(b, k)
  {
    if a == 0 || b == 0 {
      BitAtZero(k);
    } else if k > 0 {
      assert BitAnd(a, b) / 2 == BitAnd(a / 2, b / 2);
      BitAtAnd(a / 2, b / 2, k - 1);
    }
  }

  /** ~w in n bits. */
  function Complement(w: nat, n: nat): nat
    requires w < Shl(1, n)
  {
    Shl(1, n) - 1 - w
  }

  lemma {:induction false} BitAtComplement(w: nat, n: nat, k: nat)
    requires w < Shl(1, n) && k < n
    ensures BitAt(Complement(w, n), k) <==> !BitAt(w, k)
  {
    if k > 0 {
      assert Complement(w, n) / 2 == Complement(w / 2, n - 1);
      BitAtComplement(w / 2, n - 1, k - 1);
    }
  }

  /** (1 << r) - 1 has the low r bits. */
  lemma {:induction false} BitAtOnes(r: nat, k: nat)
    ensures BitAt(Shl(1, r) - 1, k) <==> k < r
  {
    if r == 0 {
      BitAtZero(k);
    } else if k > 0 {
      assert (Shl(1, r) - 1) / 2 == Shl(1, r - 1) - 1;
      BitAtOnes(r - 1, k - 1);
    }
  }

  lemma {:induction false} BitsDetermine(a: nat, b: nat, n: nat)
    requires a < Shl(1, n) && b < Shl(1, n)
    requires forall k :: 0 <= k < n ==> (BitAt(a, k) <==> BitAt(b, k))
    ensures a == b
  {
    if n > 0 {
      assert BitAt(a, 0) <==> BitAt(b, 0);
      forall k | 0 <= k < n - 1
        ensures BitAt(a / 2, k) <==> BitAt(b / 2, k)
      {
        assert BitAt(a, k + 1) <==> BitAt(b, k + 1);
      }
      BitsDetermine(a / 2, b / 2, n - 1);
    }
  }
}
