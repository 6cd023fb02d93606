/** Bitwise AND and complement on natural numbers, with the two mask laws the
    packet filter, the header parsers and the alignment helpers rely on. */
module Bits {

  function Pow2(k: nat): (r: nat)
    ensures r >= 1
  {
    if k == 0 then 1 else 2 * Pow2(k - 1)
  }

  /** Bitwise AND. */
  function And(x: nat, y: nat): nat {
    if x == 0 || y == 0 then 0
    else (if x % 2 == 1 && y % 2 == 1 then 1 else 0) + 2 * And(x / 2, y / 2)
  }

  /** Complement within a word of `width` bits. */
  function Not(x: nat, width: nat): (r: nat)
    requires x < Pow2(width)
  {
    Pow2(width) - 1 - x
  }

  /** Euclidean division is determined by any quotient and remainder that fit. */
  lemma ModOf(x: nat, m: nat, q: nat, r: nat)
    requires m >= 1 && r < m && x == q * m + r
    ensures x % m == r && x / m == q
  {
    var q', r' := x / m, x % m;
    assert x == q' * m + r';
    assert (q - q') * m == r' - r;
    MultipleAtLeast(q - q', m);
  }

  lemma MultipleAtLeast(t: int, m: int)
    requires m >= 0
    ensures t >= 1 ==> t * m >= m
    ensures t <= -1 ==> t * m <= -m
  {
    assert t * m == (t - 1) * m + m;
    assert t * m == (t + 1) * m - m;
    assert t >= 1 ==> (t - 1) * m >= 0;
    assert t <= -1 ==> (t + 1) * m <= 0;
  }

  /** The number formed by the low `k` bits of `x`. */
  function Low(x: nat, k: nat): (r: nat)
    ensures r <= x
  {
    if k == 0 then 0 else x % 2 + 2 * Low(x / 2, k - 1)
  }

  lemma {:induction false} LowIsMod(x: nat, k: nat)
    ensures Low(x, k) == x % Pow2(k)
  {
    var q := LowSplit(x, k);
    ModOf(x, Pow2(k), q, Low(x, k));
  }

  lemma {:induction false} LowSplit(x: nat, k: nat) returns (q: nat)
    ensures Low(x, k) < Pow2(k)
    ensures x == q * Pow2(k) + Low(x, k)
  {
    if k == 0 {
      q := x;
    } else {
      q := LowSplit(x / 2, k - 1);
      var m := Pow2(k - 1);
      assert q * (2 * m) == 2 * (q * m);
    }
  }

  lemma {:induction false} LowOfShort(x: nat, k: nat)
    requires x < Pow2(k)
    ensures Low(x, k) == x
  {
    if k > 0 {
      LowOfShort(x / 2, k - 1);
    }
  }

  lemma {:induction false} AndLowBits(x: nat, k: nat)
    ensures And(x, Pow2(k) - 1) == Low(x, k)
  {
    if k > 0 {
      AndLowBits(x / 2, k - 1);
      assert (Pow2(k) - 1) / 2 == Pow2(k - 1) - 1;
    }
  }

  lemma {:induction false} AndHighBits(x: nat, k: nat, width: nat)
    requires k <= width && x < Pow2(width)
    ensures Pow2(k) <= Pow2(width)
    ensures And(x, Pow2(width) - Pow2(k)) == x - Low(x, k)
  {
    Pow2Monotone(k, width);
    if k == 0 {
      AndLowBits(x, width);
      LowOfShort(x, width);
    } else {
      AndHighBits(x / 2, k - 1, width - 1);
      var mask := Pow2(width) - Pow2(k);
      assert mask % 2 == 0 && mask / 2 == Pow2(width - 1) - Pow2(k - 1);
    }
  }

  /** Masking with the low `k` bits is the remainder modulo 2^k. */
  lemma AndLowMask(x: nat, k: nat)
    ensures And(x, Pow2(k) - 1) == x % Pow2(k)
  {
    AndLowBits(x, k);
    LowIsMod(x, k);
  }

  /** Masking a `width`-bit word with all but its low `k` bits rounds it down to
      a multiple of 2^k. */
  lemma AndHighMask(x: nat, k: nat, width: nat)
    requires k <= width && x < Pow2(width)
    ensures Pow2(k) <= Pow2(width)
    ensures And(x, Not(Pow2(k) - 1, width)) == x - x % Pow2(k)
  {
    AndHighBits(x, k, width);
    LowIsMod(x, k);
  }

  lemma {:induction false} Pow2Monotone(k: nat, n: nat)
    requires k <= n
    ensures Pow2(k) <= Pow2(n)
    ensures k < n ==> 2 * Pow2(k) <= Pow2(n)
  {
    if k < n {
      Pow2Monotone(k, n - 1);
    }
  }

  lemma {:induction false} Pow2Add(a: nat, b: nat)
    ensures Pow2(a + b) == Pow2(a) * Pow2(b)
  {
    if a > 0 {
      Pow2Add(a - 1, b);
      assert Pow2(a + b) == 2 * Pow2(a - 1 + b);
    }
  }

  /** `value` rounded up to a multiple of `alignment`, in plain arithmetic. */
  function RoundUp(value: nat, alignment: nat): (r: nat)
    requires alignment >= 1
  {
    (value + alignment - 1) / alignment * alignment
  }

  /** The mask form of alignment used by `bpf_word_align` and `wsa_cmsg_align`. */
  function AlignMask(value: nat, alignment: nat, width: nat): (r: nat)
    requires 1 <= alignment <= Pow2(width)
  {
    And(value + alignment - 1, Not(alignment - 1, width))
  }

  /** The mask form equals rounding up, for every power-of-two alignment and every
      value whose padded form fits the word; the result is the least multiple not
      below the value. */
  lemma AlignMaskIsRoundUp(value: nat, k: nat, width: nat)
    requires k <= width && value + Pow2(k) - 1 < Pow2(width)
    ensures Pow2(k) <= Pow2(width)
    ensures AlignMask(value, Pow2(k), width) == RoundUp(value, Pow2(k))
    ensures value <= RoundUp(value, Pow2(k)) < value + Pow2(k)
    ensures RoundUp(value, Pow2(k)) % Pow2(k) == 0
  {
    var a := Pow2(k);
    Pow2Monotone(k, width);
    AndHighMask(value + a - 1, k, width);
    RoundUpBounds(value, a);
  }

  lemma RoundUpBounds(value: nat, a: nat)
    requires a >= 1
    ensures value <= RoundUp(value, a) < value + a
    ensures RoundUp(value, a) % a == 0
    ensures RoundUp(value, a) == value + a - 1 - (value + a - 1) % a
    ensures value % a == 0 ==> RoundUp(value, a) == value
  {
    var q, r := (value + a - 1) / a, (value + a - 1) % a;
    assert value + a - 1 == q * a + r;
    ModOf(q * a, a, q, 0);
    if value % a == 0 {
      var p := value / a;
      assert value == p * a;
      ModOf(value + a - 1, a, p, a - 1);
    }
  }
}
