/**
 * Bit positions of a 32-bit word and counting the set bits among a range of positions.
 *
 * Positions are 8-bit numbers, so that `Bit` is literally the machine's `x >> i & 1` and facts
 * about a single position stay inside the bit-vector theory. The reference meaning of a Hamming
 * weight is the number of `true` entries in the 32-entry sequence of bits.
 */
module Bits {

  /** Bit `i` of `x`, read as `x >> i & 1` (bit 0 is the least significant). */
  predicate Bit(x: bv32, i: bv8)
    requires i < 32
  {
    (x >> i) & 1 == 1
  }

  /** All 32 bits of `x`, least significant first. */
  function BitsOf(x: bv32): (bs: seq<bool>)
    ensures |bs| == 32
  {
    seq(32, k requires 0 <= k < 32 => Bit(x, k as bv8))
  }

  /** Entry `i` of `BitsOf(x)` is bit `i` of `x`. */
  lemma BitsOfIndex(x: bv32, i: bv8)
    requires i < 32
    ensures BitsOf(x)[i as nat] == Bit(x, i)
  {
    assert (i as nat) as bv8 == i;
  }

  /** The Hamming weight of `x`: how many of its 32 bits are set. */
  function PopCount(x: bv32): nat
  {
    multiset(BitsOf(x))[true]
  }

  /** The number of set bits among positions `lo` up to but excluding `hi`, counted from the top. */
  function Count(x: bv32, lo: bv8, hi: bv8): nat
    requires lo <= hi <= 32
    decreases hi
  {
    if hi == lo then 0 else Count(x, lo, hi - 1) + (if Bit(x, hi - 1) then 1 else 0)
  }

  /** Each entry adds its own weight to the count of `true` entries of a prefix. */
  lemma PrefixStep(bs: seq<bool>, m: nat)
    requires m < |bs|
    ensures multiset(bs[..m + 1])[true] == multiset(bs[..m])[true] + (if bs[m] then 1 else 0)
  {
    assert bs[..m + 1] == bs[..m] + [bs[m]];
  }

  /** Counting the first `n` positions counts the `true` entries of the first `n` bits. */
  lemma {:induction false} CountPrefix(x: bv32, n: bv8)
    requires n <= 32
    ensures Count(x, 0, n) == multiset(BitsOf(x)[..n as nat])[true]
    decreases n
  {
    if n != 0 {
      CountPrefix(x, n - 1);
      var m := (n - 1) as nat;
      assert n as nat == m + 1;
      PrefixStep(BitsOf(x), m);
      BitsOfIndex(x, n - 1);
    }
  }

  /** No sequence has more `true` entries than entries. */
  lemma {:induction false} TrueCountBound(bs: seq<bool>)
    ensures multiset(bs)[true] <= |bs|
  {
    if bs != [] {
      TrueCountBound(bs[1..]);
      assert bs == [bs[0]] + bs[1..];
    }
  }

  /** A Hamming weight lies in 0..32. */
  lemma PopCountBound(x: bv32)
    ensures PopCount(x) <= 32
  {
    TrueCountBound(BitsOf(x));
  }

  /** Counting all 32 positions gives the Hamming weight. */
  lemma CountAll(x: bv32)
    ensures Count(x, 0, 32) == PopCount(x)
  {
    CountPrefix(x, 32);
    assert BitsOf(x)[..32] == BitsOf(x);
  }

  /** The all-zero word has Hamming weight 0. */
  lemma ZeroHasNoSetBits()
    ensures PopCount(0) == 0
  {
    CountAll(0);
    CountClear(0, 0, 32);
  }

  /** Counting over adjacent ranges adds up. */
  lemma {:induction false} CountSplit(x: bv32, lo: bv8, mid: bv8, hi: bv8)
    requires lo <= mid <= hi <= 32
    ensures Count(x, lo, hi) == Count(x, lo, mid) + Count(x, mid, hi)
    decreases hi
  {
    if hi != mid {
      CountSplit(x, lo, mid, hi - 1);
    }
  }

  /** A range whose bits agree, position by position, with those of another range counts the same. */
  lemma {:induction false} CountShift(x: bv32, s: bv8, y: bv32, n: bv8)
    requires s as nat + n as nat <= 32
    requires forall i: bv8 :: i < n ==> Bit(y, i) == Bit(x, s + i)
    ensures Count(y, 0, n) == Count(x, s, s + n)
    decreases n
  {
    if n != 0 {
      CountShift(x, s, y, n - 1);
      assert Bit(y, n - 1) == Bit(x, s + (n - 1));
    }
  }

  /** A range with no set bit counts zero. */
  lemma {:induction false} CountClear(y: bv32, lo: bv8, hi: bv8)
    requires lo <= hi <= 32
    requires forall i: bv8 :: lo <= i < hi ==> !Bit(y, i)
    ensures Count(y, lo, hi) == 0
    decreases hi
  {
    if hi != lo {
      CountClear(y, lo, hi - 1);
    }
  }

  /**
   * A word `y` holding the `w` bits of `x` that start at position `s`, and nothing else, has as many
   * set bits as that range of `x`.
   */
  lemma FieldCount(x: bv32, y: bv32, s: bv8, w: bv8)
    requires s as nat + w as nat <= 32
    requires forall i: bv8 :: i < 32 ==> Bit(y, i) == (i < w && Bit(x, s + i))
    ensures PopCount(y) == Count(x, s, s + w)
  {
    CountSplit(y, 0, w, 32);
    CountShift(x, s, y, w);
    CountClear(y, w, 32);
    CountAll(y);
  }
}
