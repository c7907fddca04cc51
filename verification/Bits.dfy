/** 32-bit words as unsigned numbers, their operators, and the bits they hold, most significant first. */
module Bits {
  const WORD := 0x1_0000_0000

  function Pow2(n: nat): (p: nat)
    ensures p >= 1
  {
    if n == 0 then 1 else 2 * Pow2(n - 1)
  }

  /** `v` times two to the `n`, in unbounded arithmetic. */
  function Scale(v: nat, n: nat): nat {
    if n == 0 then v else 2 * Scale(v, n - 1)
  }

  /** `<<`, one place at a time: what leaves the word is dropped. */
  function Shl(v: nat, n: nat): nat
    decreases n, v
  {
    if n == 0 then v else Shl((2 * v) % WORD, n - 1)
  }

  /** `>>>`, one place at a time: zeros come in. */
  function Shr(v: nat, n: nat): nat {
    if n == 0 then v else Shr(v / 2, n - 1)
  }

  function Or(a: nat, b: nat): nat
    decreases a + b
  {
    if a == 0 then b else if b == 0 then a
    else 2 * Or(a / 2, b / 2) + (if a % 2 == 1 || b % 2 == 1 then 1 else 0)
  }

  function And(a: nat, b: nat): nat
    decreases a + b
  {
    if a == 0 || b == 0 then 0
    else 2 * And(a / 2, b / 2) + (if a % 2 == 1 && b % 2 == 1 then 1 else 0)
  }

  /** The low `n` bits of a word. */
  function BitsOf(v: nat, n: nat): (s: seq<bool>)
    ensures |s| == n
  {
    if n == 0 then [] else BitsOf(v / 2, n - 1) + [v % 2 == 1]
  }

  function ValueOf(s: seq<bool>): nat {
    if s == [] then 0 else 2 * ValueOf(s[..|s| - 1]) + (if s[|s| - 1] then 1 else 0)
  }

  function Zeros(n: nat): (s: seq<bool>)
    ensures |s| == n && forall i | 0 <= i < n :: !s[i]
  {
    seq(n, _ => false)
  }

  lemma {:induction false} ZeroBits(n: nat)
    ensures BitsOf(0, n) == Zeros(n)
  {
    if n > 0 {
      ZeroBits(n - 1);
    }
  }

  lemma {:induction false} ValueOfBits(s: seq<bool>)
    ensures ValueOf(s) < Pow2(|s|) && BitsOf(ValueOf(s), |s|) == s
  {
    if s != [] {
      ValueOfBits(s[..|s| - 1]);
      assert s == s[..|s| - 1] + [s[|s| - 1]];
    }
  }

  lemma {:induction false} BitsOfValue(v: nat, n: nat)
    requires v < Pow2(n)
    ensures ValueOf(BitsOf(v, n)) == v
  {
    if n > 0 {
      BitsOfValue(v / 2, n - 1);
      assert BitsOf(v, n)[..n - 1] == BitsOf(v / 2, n - 1);
    }
  }

  /** Bits above the ones asked for do not matter: an accumulator need not be masked. */
  lemma {:induction false} HighBitsDoNotMatter(v: nat, high: nat, k: nat, n: nat)
    requires n <= k
    ensures BitsOf(v + Scale(high, k), n) == BitsOf(v, n)
  {
    if n > 0 {
      var half := Scale(high, k - 1);
      assert (v + 2 * half) / 2 == v / 2 + half && (v + 2 * half) % 2 == v % 2;
      HighBitsDoNotMatter(v / 2, high, k - 1, n - 1);
    }
  }

  /** Masking keeps the remainder. */
  lemma {:induction false} MaskKeepsRemainder(high: nat, low: nat, n: nat)
    requires low < Pow2(n)
    ensures And(low + Scale(high, n), Pow2(n) - 1) == low
  {
    AndOfMask(low + Scale(high, n), n, Pow2(n) - 1);
    HighBitsDoNotMatter(low, high, n, n);
    BitsOfValue(low, n);
  }

  lemma {:induction false} PowIsScale(n: nat)
    ensures Pow2(n) == Scale(1, n)
  {
    if n > 0 {
      PowIsScale(n - 1);
    }
  }

  lemma {:induction false} ScaleByByte(v: nat, n: nat)
    ensures Scale(v, n + 8) == 256 * Scale(v, n)
  {
    assert Scale(v, n + 2) == 4 * Scale(v, n);
    assert Scale(v, n + 4) == 4 * Scale(v, n + 2);
    assert Scale(v, n + 6) == 4 * Scale(v, n + 4);
    assert Scale(v, n + 8) == 4 * Scale(v, n + 6);
  }

  lemma {:induction false} ScaleByLess(v: nat)
    ensures Scale(v, 4) == 16 * v && Scale(v, 7) == 128 * v
  {
    assert Scale(v, 1) == 2 * v;
    assert Scale(v, 2) == 4 * v;
    assert Scale(v, 4) == 4 * Scale(v, 2);
    assert Scale(v, 6) == 4 * Scale(v, 4);
  }

  lemma {:induction false} ScaleByBytes(v: nat)
    ensures Scale(v, 8) == 0x100 * v && Scale(v, 16) == 0x1_0000 * v
    ensures Scale(v, 24) == 0x100_0000 * v && Scale(v, 32) == WORD * v
  {
    ScaleByByte(v, 0);
    ScaleByByte(v, 8);
    ScaleByByte(v, 16);
    ScaleByByte(v, 24);
  }

  lemma {:induction false} WordBits(v: nat, n: nat)
    requires n <= 32
    ensures BitsOf(v % WORD, n) == BitsOf(v, n)
  {
    var high, low := v / WORD, v % WORD;
    assert v == low + WORD * high;
    ScaleByBytes(high);
    HighBitsDoNotMatter(low, high, 32, n);
  }

  /** The bits of a word, split into those `>>>` keeps and those it drops. */
  lemma {:induction false} SplitBits(v: nat, n: nat, k: nat)
    requires k <= n
    ensures BitsOf(v, n) == BitsOf(Shr(v, k), n - k) + BitsOf(v, k)
  {
    if k > 0 {
      SplitBits(v / 2, n - 1, k - 1);
    }
  }

  /** `<<` appends zeros, as long as the bits asked for fit the word. */
  lemma {:induction false} ShlAppendsZeros(v: nat, bits: nat, k: nat)
    requires bits + k <= 32
    ensures BitsOf(Shl(v, k), bits + k) == BitsOf(v, bits) + Zeros(k)
    decreases k
  {
    if k > 0 {
      ShlAppendsZeros((2 * v) % WORD, bits + 1, k - 1);
      WordBits(2 * v, bits + 1);
      assert (2 * v) / 2 == v && (2 * v) % 2 == 0;
    }
  }

  lemma {:induction false} SmallBits(v: nat, n: nat, k: nat)
    requires v < Pow2(k)
    ensures BitsOf(v, n + k) == Zeros(n) + BitsOf(v, k)
  {
    if k == 0 {
      ZeroBits(n);
    } else {
      SmallBits(v / 2, n, k - 1);
    }
  }

  lemma {:induction false} BitsOfOr(a: nat, b: nat, n: nat)
    ensures forall i | 0 <= i < n :: BitsOf(Or(a, b), n)[i] == (BitsOf(a, n)[i] || BitsOf(b, n)[i])
  {
    if n > 0 {
      if a == 0 || b == 0 {
        ZeroBits(n);
      } else {
        BitsOfOr(a / 2, b / 2, n - 1);
        OrHalves(a, b);
      }
    }
  }

  lemma {:induction false} OrHalves(a: nat, b: nat)
    requires a > 0 && b > 0
    ensures Or(a, b) / 2 == Or(a / 2, b / 2)
    ensures Or(a, b) % 2 == 1 <==> a % 2 == 1 || b % 2 == 1
  {
  }

  lemma {:induction false} OrOfDisjoint(a: nat, b: nat, n: nat)
    requires b < Pow2(n)
    ensures Or(Scale(a, n), b) == Scale(a, n) + b
  {
    if n > 0 {
      OrOfDisjoint(a, b / 2, n - 1);
    }
  }

  lemma {:induction false} ScaleInside(v: nat, n: nat)
    ensures Scale(2 * v, n) == 2 * Scale(v, n)
  {
    if n > 0 {
      ScaleInside(v, n - 1);
    }
  }

  lemma {:induction false} ShlWithoutLoss(v: nat, n: nat)
    requires Scale(v, n) < WORD
    ensures Shl(v, n) == Scale(v, n)
    decreases n
  {
    if n > 0 {
      ScaleInside(v, n - 1);
      ScaleGrows(2 * v, n - 1);
      ShlWithoutLoss(2 * v, n - 1);
    }
  }

  lemma {:induction false} ScaleGrows(v: nat, n: nat)
    ensures Scale(v, n) >= v
  {
    if n > 0 {
      ScaleGrows(v, n - 1);
    }
  }

  lemma {:induction false} AndOdd(v: nat, half: nat)
    ensures And(v, 2 * half + 1) == 2 * And(v / 2, half) + v % 2
  {
    var mask := 2 * half + 1;
    assert mask / 2 == half && mask % 2 == 1;
  }

  lemma {:induction false} ValueOfBitsStep(v: nat, n: nat)
    requires n > 0
    ensures ValueOf(BitsOf(v, n)) == 2 * ValueOf(BitsOf(v / 2, n - 1)) + v % 2
  {
    assert BitsOf(v, n)[..n - 1] == BitsOf(v / 2, n - 1);
  }

  lemma {:induction false} AndOfMask(v: nat, n: nat, mask: nat)
    requires mask == Pow2(n) - 1
    ensures And(v, mask) == ValueOf(BitsOf(v, n))
    decreases n
  {
    if n > 0 {
      var half := Pow2(n - 1) - 1;
      assert mask == 2 * half + 1;
      AndOfMask(v / 2, n - 1, half);
      AndOdd(v, half);
      ValueOfBitsStep(v, n);
    }
  }

  /** `(value << k) | low` appends `low` to the pending bits, whatever lies above them. */
  lemma {:induction false} ShiftIn(value: nat, bits: nat, low: nat, k: nat)
    requires low < Pow2(k) && bits + k <= 32
    ensures BitsOf(Or(Shl(value, k), low), bits + k) == BitsOf(value, bits) + BitsOf(low, k)
  {
    ShlAppendsZeros(value, bits, k);
    SmallBits(low, bits, k);
    BitsOfOr(Shl(value, k), low, bits + k);
  }

  /** `(value >>> (bits - k)) & (2^k - 1)` takes the first `k` of the pending bits. */
  lemma {:induction false} ShiftOut(value: nat, bits: nat, k: nat)
    requires k <= bits
    ensures And(Shr(value, bits - k), Pow2(k) - 1) < Pow2(k)
    ensures BitsOf(value, bits) == BitsOf(And(Shr(value, bits - k), Pow2(k) - 1), k) + BitsOf(value, bits - k)
  {
    var shifted := Shr(value, bits - k);
    AndOfMask(shifted, k, Pow2(k) - 1);
    ValueOfBits(BitsOf(shifted, k));
    SplitBits(value, bits, bits - k);
  }
}
