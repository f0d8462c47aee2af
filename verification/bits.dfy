/*
 * The u64 arithmetic of the day 14 programs. A u64 is a natural number
 * below 2^64; the bit operations the programs use (`<<= 1`, `|`, `& !`)
 * are defined bit by bit on it, and `Bit(x, p)` reads bit `p`, counting
 * from the least significant bit. A mask text is read into words by
 * shifting in one flag per character.
 */
module U64Bits {
  import opened Common

  /* ---------------------------------------------------------------- */
  /* Bits of a u64                                                     */
  /* ---------------------------------------------------------------- */

  /** Bit `p` of `x`. */
  predicate Bit(x: nat, p: nat)
    decreases p
  {
    if p == 0 then x % 2 == 1 else Bit(x / 2, p - 1)
  }

  function Pow2(k: nat): (r: nat)
    ensures r > 0
  {
    if k == 0 then 1 else 2 * Pow2(k - 1)
  }

  /** `x | y`. */
  function Or(x: nat, y: nat): nat
    decreases x + y
  {
    if x == 0 && y == 0 then 0
    else 2 * Or(x / 2, y / 2) + (if x % 2 == 1 || y % 2 == 1 then 1 else 0)
  }

  /** `x & !y`: the bits of `x` that are clear in `y`. */
  function AndNot(x: nat, y: nat): nat
    decreases x
  {
    if x == 0 then 0
    else 2 * AndNot(x / 2, y / 2) + (if x % 2 == 1 && y % 2 == 0 then 1 else 0)
  }

  /** `x <<= 1` on a u64: the top bit falls off. */
  function Shl(x: nat): nat {
    (2 * x) % U64_LIMIT
  }

  lemma {:induction false} BitZero(p: nat)
    ensures !Bit(0, p)
    decreases p
  {
    if p > 0 {
      BitZero(p - 1);
    }
  }

  lemma BitOne(p: nat)
    ensures Bit(1, p) <==> p == 0
  {
    if p > 0 {
      BitZero(p - 1);
    }
  }

  /** Numbers with the same bits are equal. */
  lemma {:induction false} BitsDetermine(x: nat, y: nat)
    requires forall p :: Bit(x, p) == Bit(y, p)
    ensures x == y
    decreases x + y
  {
    if x != y {
      assert Bit(x, 0) == Bit(y, 0);
      forall p: nat
        ensures Bit(x / 2, p) == Bit(y / 2, p)
      {
        assert Bit(x, p + 1) == Bit(y, p + 1);
      }
      BitsDetermine(x / 2, y / 2);
    }
  }

  /** Division with remainder is unique. */
  lemma ModUnique(x: nat, d: nat, q: nat, r: nat)
    requires d > 0 && x == q * d + r && r < d
    ensures x % d == r
  {
    var q', r' := x / d, x % d;
    assert q * d + r == q' * d + r';
    assert (q - q') * d == q * d - q' * d;
    SmallMultiple(q - q', d);
  }

  lemma HalfMod(n: nat, m: nat)
    requires m > 0
    ensures (n % (2 * m)) / 2 == (n / 2) % m && (n % (2 * m)) % 2 == n % 2
  {
    var h := n / 2;
    var q, r := h / m, h % m;
    assert h == q * m + r;
    assert n == 2 * h + n % 2;
    assert q * (2 * m) == 2 * (q * m);
    ModUnique(n, 2 * m, q, 2 * r + n % 2);
  }

  /** Reducing modulo 2^k keeps the bits below `k` and clears the rest. */
  lemma {:induction false} BitMod(n: nat, k: nat, p: nat)
    ensures Bit(n % Pow2(k), p) <==> p < k && Bit(n, p)
    decreases k
  {
    if k == 0 {
      assert n % 1 == 0;
      BitZero(p);
    } else {
      HalfMod(n, Pow2(k - 1));
      if p > 0 {
        BitMod(n / 2, k - 1, p - 1);
      }
    }
  }

  lemma {:induction false} BitOr(x: nat, y: nat, p: nat)
    ensures Bit(Or(x, y), p) <==> Bit(x, p) || Bit(y, p)
    decreases p
  {
    if x == 0 && y == 0 {
      BitZero(p);
    } else if p > 0 {
      BitOr(x / 2, y / 2, p - 1);
    }
  }

  lemma {:induction false} OrBound(x: nat, y: nat, k: nat)
    requires x < Pow2(k) && y < Pow2(k)
    ensures Or(x, y) < Pow2(k)
    decreases k
  {
    if k > 0 && !(x == 0 && y == 0) {
      OrBound(x / 2, y / 2, k - 1);
    }
  }

  lemma {:induction false} BitAndNot(x: nat, y: nat, p: nat)
    ensures Bit(AndNot(x, y), p) <==> Bit(x, p) && !Bit(y, p)
    decreases p
  {
    if x == 0 {
      BitZero(p);
    } else if p > 0 {
      BitAndNot(x / 2, y / 2, p - 1);
    }
  }

  lemma {:induction false} AndNotBound(x: nat, y: nat)
    ensures AndNot(x, y) <= x
    decreases x
  {
    if x > 0 {
      AndNotBound(x / 2, y / 2);
    }
  }

  lemma {:induction false} Pow2Add(a: nat, b: nat)
    ensures Pow2(a + b) == Pow2(a) * Pow2(b)
    decreases b
  {
    if b > 0 {
      Pow2Add(a, b - 1);
      var x: int, y: int := Pow2(a), Pow2(b - 1);
      assert Pow2(a + b) == 2 * (x * y);
      assert Pow2(b) == 2 * y;
      assert 2 * (x * y) == x * (2 * y);
    }
  }

  /** A u64 is a number below 2^64. */
  lemma U64Limit()
    ensures Pow2(64) == U64_LIMIT
  {
    assert Pow2(4) == 16;
    Pow2Add(4, 4);
    assert Pow2(8) == 256;
    Pow2Add(8, 8);
    assert Pow2(16) == 0x1_0000;
    Pow2Add(16, 16);
    assert Pow2(32) == 0x1_0000_0000;
    Pow2Add(32, 32);
  }

  /* ---------------------------------------------------------------- */
  /* Words of flags                                                    */
  /* ---------------------------------------------------------------- */

  /** `x <<= 1` followed by `x |= 1` when `b` holds. */
  function ShiftIn(x: nat, b: bool): nat {
    if b then Or(Shl(x), 1) else Shl(x)
  }

  /** Shifting in moves every bit up one place, drops bit 63, and makes bit 0 the new flag. */
  lemma ShiftInBit(x: nat, b: bool, p: nat)
    ensures Bit(ShiftIn(x, b), p) <==> p < 64 && if p == 0 then b else Bit(x, p - 1)
  {
    U64Limit();
    BitMod(2 * x, 64, p);
    if b {
      BitOr(Shl(x), 1, p);
      BitOne(p);
    }
    BitDouble(x, p);
  }

  /** Doubling moves every bit up one place. */
  lemma BitDouble(x: nat, p: nat)
    ensures Bit(2 * x, p) <==> p > 0 && Bit(x, p - 1)
  {
    var y := 2 * x;
    assert y / 2 == x && y % 2 == 0;
  }

  /** A shifted-in word is a u64. */
  lemma ShiftInBound(x: nat, b: bool)
    ensures ShiftIn(x, b) < U64_LIMIT
  {
    U64Limit();
    if b {
      OrBound(Shl(x), 1, 64);
    }
  }

  /** The u64 built by shifting in the flags from first to last. */
  function Word(flags: seq<bool>): nat
    decreases |flags|
  {
    if flags == [] then 0 else ShiftIn(Word(flags[..|flags| - 1]), flags[|flags| - 1])
  }

  /**
   * The bits of a word: bit `p` is the flag `p` places from the end; flags
   * more than 64 places from the end have been shifted out.
   */
  lemma {:induction false} WordBit(flags: seq<bool>, p: nat)
    ensures Bit(Word(flags), p) <==> p < 64 && p < |flags| && flags[|flags| - 1 - p]
    decreases |flags|
  {
    if flags == [] {
      BitZero(p);
    } else if p == 0 {
      ShiftInBit(Word(flags[..|flags| - 1]), flags[|flags| - 1], p);
    } else {
      WordBit(flags[..|flags| - 1], p - 1);
      WordBitStep(flags, p);
    }
  }

  lemma {:induction false} WordBitStep(flags: seq<bool>, p: nat)
    requires flags != [] && p > 0
    requires var init := flags[..|flags| - 1];
      Bit(Word(init), p - 1) <==> p - 1 < 64 && p - 1 < |init| && init[|init| - 1 - (p - 1)]
    ensures Bit(Word(flags), p) <==> p < 64 && p < |flags| && flags[|flags| - 1 - p]
  {
    var init := flags[..|flags| - 1];
    ShiftInBit(Word(init), flags[|flags| - 1], p);
    if p < |flags| {
      assert init[|init| - 1 - (p - 1)] == flags[|flags| - 1 - p];
    }
  }

  lemma WordSnoc(flags: seq<bool>, b: bool)
    ensures Word(flags + [b]) == ShiftIn(Word(flags), b)
  {
    assert (flags + [b])[..|flags|] == flags;
  }

  /** No bit set in both. */
  ghost predicate Disjoint(x: nat, y: nat) {
    forall p :: !(Bit(x, p) && Bit(y, p))
  }

  /** Flags never raised together give words with no common bit. */
  lemma WordDisjoint(a: seq<bool>, b: seq<bool>)
    requires |a| == |b| && forall i :: 0 <= i < |a| ==> !(a[i] && b[i])
    ensures Disjoint(Word(a), Word(b))
  {
    forall p: nat
      ensures !(Bit(Word(a), p) && Bit(Word(b), p))
    {
      WordDisjointAt(a, b, p);
    }
  }

  lemma {:induction false} WordDisjointAt(a: seq<bool>, b: seq<bool>, p: nat)
    requires |a| == |b| && forall i :: 0 <= i < |a| ==> !(a[i] && b[i])
    ensures !(Bit(Word(a), p) && Bit(Word(b), p))
  {
    WordBit(a, p);
    WordBit(b, p);
    FlagsDisjoint(Word(a), Word(b), a, b, p);
  }

  lemma {:induction false} FlagsDisjoint(x: nat, y: nat, a: seq<bool>, b: seq<bool>, p: nat)
    requires |a| == |b| && forall i :: 0 <= i < |a| ==> !(a[i] && b[i])
    requires Bit(x, p) <==> p < 64 && p < |a| && a[|a| - 1 - p]
    requires Bit(y, p) <==> p < 64 && p < |b| && b[|b| - 1 - p]
    ensures !(Bit(x, p) && Bit(y, p))
  {
  }

  /** For each character of `s`, whether it is `c`. */
  function Marks(s: string, c: char): (flags: seq<bool>)
    ensures |flags| == |s| && forall i :: 0 <= i < |s| ==> flags[i] == (s[i] == c)
    decreases |s|
  {
    if s == [] then [] else Marks(s[..|s| - 1], c) + [s[|s| - 1] == c]
  }

  lemma MarksSnoc(s: string, i: nat, c: char)
    requires i < |s|
    ensures Marks(s[..i + 1], c) == Marks(s[..i], c) + [s[i] == c]
  {
    assert s[..i + 1][..i] == s[..i];
  }

  lemma MarksBit(s: string, c: char, p: nat)
    ensures Bit(Word(Marks(s, c)), p) <==> p < 64 && p < |s| && s[|s| - 1 - p] == c
  {
    var flags := Marks(s, c);
    WordBit(flags, p);
    if p < |s| {
      assert flags[|s| - 1 - p] == (s[|s| - 1 - p] == c);
    }
  }

  lemma WordBound(flags: seq<bool>)
    ensures Word(flags) < U64_LIMIT
  {
    if flags != [] {
      ShiftInBound(Word(flags[..|flags| - 1]), flags[|flags| - 1]);
    }
  }

  /** Bit `p` of 2^k is set exactly at `p == k`. */
  lemma {:induction false} BitPow2(k: nat, p: nat)
    ensures Bit(Pow2(k), p) <==> p == k
    decreases k
  {
    if k == 0 {
      BitOne(p);
    } else {
      assert Pow2(k) / 2 == Pow2(k - 1) && Pow2(k) % 2 == 0;
      if p > 0 {
        BitPow2(k - 1, p - 1);
      }
    }
  }

  lemma {:induction false} OrZero(y: nat)
    ensures Or(0, y) == y
    decreases y
  {
    if y > 0 {
      OrZero(y / 2);
    }
  }

  lemma {:induction false} AndNotZero(x: nat)
    ensures AndNot(x, 0) == x
    decreases x
  {
    if x > 0 {
      AndNotZero(x / 2);
    }
  }

  /** A number is below 2^k exactly when it has no bit at `k` or above. */
  lemma BitsBelow(x: nat, k: nat)
    ensures x < Pow2(k) ==> forall p: nat :: p >= k ==> !Bit(x, p)
    ensures (forall p: nat :: p >= k ==> !Bit(x, p)) ==> x < Pow2(k)
  {
    if x < Pow2(k) {
      ModUnique(x, Pow2(k), 0, x);
      forall p: nat | p >= k
        ensures !Bit(x, p)
      {
        BitMod(x, k, p);
      }
    } else if forall p: nat :: p >= k ==> !Bit(x, p) {
      forall p: nat
        ensures Bit(x % Pow2(k), p) == Bit(x, p)
      {
        BitMod(x, k, p);
      }
      BitsDetermine(x % Pow2(k), x);
    }
  }

  lemma {:induction false} OrZeroRight(x: nat)
    ensures Or(x, 0) == x
    decreases x
  {
    if x > 0 {
      OrZeroRight(x / 2);
    }
  }

  /**
   * Forcing bit `k` to one adds 2^k when the bit was clear; forcing it to
   * zero takes 2^k away when it was set; otherwise nothing changes.
   */
  lemma {:induction false} ForcePow2(v: nat, k: nat)
    ensures Or(v, Pow2(k)) == if Bit(v, k) then v else v + Pow2(k)
    ensures AndNot(v, Pow2(k)) == if Bit(v, k) then v - Pow2(k) else v
    decreases k
  {
    if k == 0 {
      OrZeroRight(v / 2);
      AndNotZero(v / 2);
    } else {
      ForcePow2(v / 2, k - 1);
      assert Pow2(k) / 2 == Pow2(k - 1) && Pow2(k) % 2 == 0;
      if v == 0 {
        BitZero(k);
      }
    }
  }
}
