/** What the tag of a hash and the multiplication by an odd constant are for: a key has two different buckets in
    every table of more than 256, and only there. */
module CuckooTag {
  import opened Bits
  import opened CuckooIndex

  // ---------- the tag ----------

  /** The number of set bits among `n` bits that are eight apart. */
  function Column(x: nat, i: nat, n: nat): (c: nat)
    decreases n
  {
    if n == 0 then 0 else BitAt(x, i) + Column(x, i + 8, n - 1)
  }

  lemma {:induction false} HighHigh(x: nat, m: nat, n: nat)
    ensures High(High(x, m), n) == High(x, m + n)
  {
    if m != 0 {
      HighHigh(x / 2, m - 1, n);
    }
  }

  lemma FoldBit(x: nat, bits: nat, i: nat)
    requires i < bits
    ensures BitAt(FoldHalf(x, bits), i) == (BitAt(x, i) + BitAt(x, i + bits)) % 2
  {
    BitOfXor(Low(x, bits), Low(High(x, bits), bits), i);
    BitOfLow(x, bits, i);
    BitOfLow(High(x, bits), bits, i);
    HighHigh(x, bits, i);
  }

  /** Every bit of the tag is the parity of the bits at its place in the eight bytes of the hash. */
  lemma TagIsParity(hash: U64, i: nat)
    requires i < 8
    ensures BitAt(PartialKey(hash), i) == Column(hash, i, 8) % 2
  {
    var a := FoldHalf(hash, 32);
    FoldBit(FoldHalf(a, 16), 8, i);
    TwoFolds(hash, a, i);
    TwoFolds(hash, a, i + 8);
    ParityBoth(Fours(hash, i), Fours(hash, i + 8));
    ColumnIs(hash, i);
  }

  /** Four bits that are sixteen apart. */
  function Fours(x: nat, i: nat): (c: nat) {
    BitAt(x, i) + BitAt(x, i + 16) + BitAt(x, i + 32) + BitAt(x, i + 48)
  }

  lemma TwoFolds(x: nat, a: nat, i: nat)
    requires i < 16 && a == FoldHalf(x, 32)
    ensures BitAt(FoldHalf(a, 16), i) == Fours(x, i) % 2
  {
    FoldBit(a, 16, i);
    FoldBit(x, 32, i);
    FoldBit(x, 32, i + 16);
    ParityBoth(BitAt(x, i) + BitAt(x, i + 32), BitAt(x, i + 16) + BitAt(x, i + 48));
  }

  lemma ColumnIs(x: nat, i: nat)
    ensures Column(x, i, 8) == Fours(x, i) + Fours(x, i + 8)
  {
    assert Column(x, i + 32, 4) == BitAt(x, i + 32) + BitAt(x, i + 40) + BitAt(x, i + 48) + BitAt(x, i + 56) by {
      assert Column(x, i + 48, 2) == BitAt(x, i + 48) + BitAt(x, i + 56);
    }
    assert Column(x, i + 16, 6) == BitAt(x, i + 16) + BitAt(x, i + 24) + Column(x, i + 32, 4);
    assert Column(x, i, 8) == BitAt(x, i) + BitAt(x, i + 8) + Column(x, i + 16, 6);
  }

  lemma FoldSmall(x: nat, bits: nat)
    requires x < Pow2(bits)
    ensures FoldHalf(x, bits) == x
  {
    LowSmall(x, bits);
    HighSmall(x, bits);
    LowSmall(0, bits);
    XorZero(x);
  }

  lemma TagOfSmall(x: nat)
    requires x < Pow2(8)
    ensures x < 0x1_0000_0000_0000_0000 && PartialKey(x) == x
  {
    Pow2Monotone(8, 16);
    Pow2Monotone(16, 32);
    FoldSmall(x, 32);
    FoldSmall(x, 16);
    FoldSmall(x, 8);
    assert Pow2(8) == 256;
  }

  // ---------- the two buckets ----------

  /** An odd factor neither adds nor removes low zero bits. */
  lemma {:induction false} OddTimes(m: nat, x: nat, n: nat)
    requires m % 2 == 1
    ensures Low(x * m, n) == 0 <==> Low(x, n) == 0
    decreases n
  {
    if n != 0 {
      if x % 2 == 0 {
        EvenProduct(x, m);
        OddTimes(m, x / 2, n - 1);
      } else {
        OddProduct(x, m);
      }
    }
  }

  lemma EvenProduct(x: nat, m: nat)
    requires x % 2 == 0
    ensures (x * m) % 2 == 0 && (x * m) / 2 == x / 2 * m
  {
    var y := x / 2;
    assert x * m == 2 * (y * m) by {
      assert x == 2 * y;
    }
    BitAndHalf(0, y * m);
  }

  lemma OddProduct(x: nat, m: nat)
    requires x % 2 == 1 && m % 2 == 1
    ensures (x * m) % 2 == 1
  {
    var y, k := x / 2, m / 2;
    assert x * m == 1 + 2 * (x * k + y) by {
      assert x == 2 * y + 1 && m == 2 * k + 1;
    }
    BitAndHalf(1, x * k + y);
  }

  lemma XorSame(a: nat, b: nat)
    ensures Xor(a, b) == a <==> b == 0
  {
    XorZero(a);
    XorZero(b);
    XorAssociates(a, a, b);
    XorSelf(a);
  }

  /** The other bucket is the same bucket exactly when the tag, made nonzero, is a multiple of the table size. */
  lemma SameBucket(hp: nat, partial: nat, index: nat)
    requires index < Pow2(hp) && hp <= 64
    ensures AltIndex(hp, partial, index) == index <==> Low(partial + 1, hp) == 0
  {
    var c := TagBits(partial);
    XorLow(index, c, hp);
    LowSmall(index, hp);
    XorSame(index, Low(c, hp));
    LowLow((partial + 1) * MURMUR, hp, 64);
    OddTimes(MURMUR, partial + 1, hp);
  }

  /** A hash has two different buckets. */
  ghost predicate TwoBuckets(hp: nat, hash: U64) {
    AltIndex(hp, PartialKey(hash), IndexHash(hp, hash)) != IndexHash(hp, hash)
  }

  /** Every hash has two different buckets exactly when the table has more than 256. */
  lemma AlwaysTwoBuckets(hp: nat)
    requires hp <= 64
    ensures (forall hash: U64 :: TwoBuckets(hp, hash)) <==> hp > 8
  {
    if hp > 8 {
      forall hash: U64 ensures TwoBuckets(hp, hash) {
        SameBucket(hp, PartialKey(hash), IndexHash(hp, hash));
        Pow2Monotone(9, hp);
        LowSmall(PartialKey(hash) + 1, hp);
      }
    } else {
      var x := Pow2(hp) - 1;
      Pow2Monotone(hp, 8);
      TagOfSmall(x);
      SameBucket(hp, x, IndexHash(hp, x));
      LowPow2(hp);
      assert !TwoBuckets(hp, x);
    }
  }

  lemma {:induction false} LowPow2(n: nat)
    ensures Low(Pow2(n), n) == 0
  {
    if n != 0 {
      LowPow2(n - 1);
    }
  }
}
