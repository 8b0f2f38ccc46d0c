/** Machine words as natural numbers: masks, shifts, exclusive or.  Every definition goes bit by
    bit from the low end, so widths are always explicit. */
module Bits {

  function Pow2(n: nat): (p: nat)
    ensures 1 <= p
  {
    if n == 0 then 1 else 2 * Pow2(n - 1)
  }

  /** The low `n` bits: x & (2^n - 1). */
  function Low(x: nat, n: nat): (r: nat)
    ensures r < Pow2(n)
  {
    if n == 0 then 0 else x % 2 + 2 * Low(x / 2, n - 1)
  }

  /** Shift right: x >> n. */
  function High(x: nat, n: nat): (r: nat) {
    if n == 0 then x else High(x / 2, n - 1)
  }

  /** Exclusive or. */
  function Xor(a: nat, b: nat): (x: nat)
    decreases a + b
  {
    if a == 0 then b
    else if b == 0 then a
    else (a + b) % 2 + 2 * Xor(a / 2, b / 2)
  }

  /** A number is its lowest bit and its half. */
  lemma SameHalves(x: nat, y: nat)
    requires x % 2 == y % 2 && x / 2 == y / 2
    ensures x == y
  {
  }

  lemma ParityOfSum(x: nat, y: nat, z: nat)
    requires x % 2 == y % 2
    ensures (x + z) % 2 == (y + z) % 2
  {
  }

  lemma Pow2Monotone(m: nat, n: nat)
    requires m <= n
    ensures Pow2(m) <= Pow2(n)
  {
    if m < n {
      Pow2Monotone(m, n - 1);
    }
  }

  lemma {:induction false} LowSmall(x: nat, n: nat)
    requires x < Pow2(n)
    ensures Low(x, n) == x
  {
    if n != 0 {
      LowSmall(x / 2, n - 1);
    }
  }

  lemma {:induction false} LowLow(x: nat, m: nat, n: nat)
    requires m <= n
    ensures Low(Low(x, n), m) == Low(x, m)
  {
    if m != 0 {
      LowLow(x / 2, m - 1, n - 1);
    }
  }

  /** One more bit of mask keeps the value or adds the new top bit. */
  lemma {:induction false} LowNextBit(x: nat, n: nat)
    ensures Low(x, n + 1) == Low(x, n) || Low(x, n + 1) == Low(x, n) + Pow2(n)
  {
    if n != 0 {
      LowNextBit(x / 2, n - 1);
    }
  }

  lemma {:induction false} LowAddPow2(x: nat, m: nat, n: nat)
    requires m <= n
    ensures Low(x + Pow2(n), m) == Low(x, m)
  {
    if m != 0 {
      LowAddPow2(x / 2, m - 1, n - 1);
      assert (x + 2 * Pow2(n - 1)) / 2 == x / 2 + Pow2(n - 1);
    }
  }

  lemma LowHalves(x: nat, n: nat)
    requires n != 0
    ensures Low(x, n) % 2 == x % 2 && Low(x, n) / 2 == Low(x / 2, n - 1)
  {
  }

  /** A bit and a half make a number. */
  lemma BitAndHalf(d: nat, h: nat)
    requires d < 2
    ensures (d + 2 * h) % 2 == d && (d + 2 * h) / 2 == h
  {
  }

  lemma XorHalves(a: nat, b: nat)
    ensures Xor(a, b) % 2 == (a + b) % 2
    ensures Xor(a, b) / 2 == Xor(a / 2, b / 2)
  {
    if a == 0 || b == 0 {
      assert Xor(a, b) == a + b;
    } else {
      BitAndHalf((a + b) % 2, Xor(a / 2, b / 2));
    }
  }

  lemma {:induction false} XorCommutes(a: nat, b: nat)
    ensures Xor(a, b) == Xor(b, a)
    decreases a + b
  {
    if a != 0 && b != 0 {
      XorCommutes(a / 2, b / 2);
    }
  }

  lemma {:induction false} XorAssociates(a: nat, b: nat, c: nat)
    ensures Xor(Xor(a, b), c) == Xor(a, Xor(b, c))
    decreases a + b + c
  {
    if a != 0 && b != 0 && c != 0 {
      XorAssociates(a / 2, b / 2, c / 2);
      var x, y := Xor(a, b), Xor(b, c);
      XorHalves(a, b);
      XorHalves(b, c);
      XorHalves(x, c);
      XorHalves(a, y);
      ParityOfSum(x, a + b, c);
      ParityOfSum(y, b + c, a);
      SameHalves(Xor(x, c), Xor(a, y));
    }
  }

  lemma {:induction false} XorSelf(a: nat)
    ensures Xor(a, a) == 0
  {
    if a != 0 {
      XorSelf(a / 2);
    }
  }

  lemma XorCancels(a: nat, b: nat)
    ensures Xor(Xor(a, b), b) == a
  {
    XorAssociates(a, b, b);
    XorSelf(b);
  }

  /** Masking distributes over exclusive or. */
  lemma {:induction false} XorLow(a: nat, b: nat, n: nat)
    ensures Low(Xor(a, b), n) == Xor(Low(a, n), Low(b, n))
    decreases n
  {
    if n != 0 {
      XorLow(a / 2, b / 2, n - 1);
      XorHalves(a, b);
      var a', b', x := Low(a, n), Low(b, n), Low(Xor(a, b), n);
      XorHalves(a', b');
      LowHalves(a, n);
      LowHalves(b, n);
      LowHalves(Xor(a, b), n);
      ParityOfSum(a', a, b');
      ParityOfSum(b', b, a);
      SameHalves(x, Xor(a', b'));
    }
  }

  lemma XorBound(a: nat, b: nat, n: nat)
    requires a < Pow2(n) && b < Pow2(n)
    ensures Xor(a, b) < Pow2(n)
  {
    XorLow(a, b, n);
    LowSmall(a, n);
    LowSmall(b, n);
  }

  // ---------- shifting left and reversing ----------

  /** x << n, without cutting. */
  function Shl(x: nat, n: nat): (r: nat) {
    if n == 0 then x else 2 * Shl(x, n - 1)
  }

  /** The low `n` bits of `x` in reverse order. */
  function RevN(x: nat, n: nat): (r: nat) {
    if n == 0 then 0 else Shl(x % 2, n - 1) + RevN(x / 2, n - 1)
  }

  lemma {:induction false} ShlAdd(x: nat, y: nat, n: nat)
    ensures Shl(x + y, n) == Shl(x, n) + Shl(y, n)
  {
    if n != 0 {
      ShlAdd(x, y, n - 1);
    }
  }

  lemma {:induction false} ShlShl(x: nat, m: nat, n: nat)
    ensures Shl(Shl(x, m), n) == Shl(x, m + n)
  {
    if n != 0 {
      ShlShl(x, m, n - 1);
    }
  }

  lemma {:induction false} ShlOne(n: nat)
    ensures Shl(1, n) == Pow2(n) && Shl(0, n) == 0
  {
    if n != 0 {
      ShlOne(n - 1);
    }
  }

  lemma {:induction false} ShlMonotone(x: nat, y: nat, n: nat)
    requires x < y
    ensures Shl(x, n) + Pow2(n) <= Shl(y, n)
  {
    if n != 0 {
      ShlMonotone(x, y, n - 1);
    }
  }

  lemma {:induction false} RevBound(x: nat, n: nat)
    ensures RevN(x, n) < Pow2(n)
  {
    if n != 0 {
      RevBound(x / 2, n - 1);
      ShlOne(n - 1);
    }
  }

  lemma {:induction false} RevZero(n: nat)
    ensures RevN(0, n) == 0
  {
    if n != 0 {
      RevZero(n - 1);
      ShlOne(n - 1);
    }
  }

  /** Reversing `p + q` bits puts the reversed low `p` bits above the reversed next `q` bits. */
  lemma {:induction false} RevSplit(x: nat, p: nat, q: nat)
    ensures RevN(x, p + q) == Shl(RevN(x, p), q) + RevN(High(x, p), q)
  {
    if p == 0 {
      ShlOne(q);
    } else {
      RevSplit(x / 2, p - 1, q);
      ShlAdd(Shl(x % 2, p - 1), RevN(x / 2, p - 1), q);
      ShlShl(x % 2, p - 1, q);
    }
  }

  /** Only the low bits matter. */
  lemma {:induction false} RevLow(x: nat, n: nat)
    ensures RevN(Low(x, n), n) == RevN(x, n)
  {
    if n != 0 {
      LowHalves(x, n);
      RevLow(x / 2, n - 1);
    }
  }

  /** Reversing twice gives the number back. */
  lemma {:induction false} RevRev(x: nat, n: nat)
    ensures RevN(RevN(x, n), n) == Low(x, n)
  {
    if n != 0 {
      var r := RevN(x / 2, n - 1);
      RevRev(x / 2, n - 1);
      RevBound(x / 2, n - 1);
      ShlOne(n - 1);
      RevHighBit(r, x % 2, n - 1);
    }
  }

  /** The bit above `n` bits comes out lowest. */
  lemma RevHighBit(r: nat, d: nat, n: nat)
    requires r < Pow2(n) && d < 2
    ensures RevN(Shl(d, n) + r, n + 1) == 2 * RevN(r, n) + d
  {
    ShlOne(n);
    if d == 1 {
      RevTop(r, n);
    } else {
      RevSplit(r, n, 1);
      HighSmall(r, n);
      assert RevN(0, 1) == 0;
      assert Shl(RevN(r, n), 1) == 2 * RevN(r, n);
    }
  }

  lemma {:induction false} HighSmall(x: nat, n: nat)
    requires x < Pow2(n)
    ensures High(x, n) == 0
  {
    if n != 0 {
      HighSmall(x / 2, n - 1);
    }
  }

  /** A top bit becomes the lowest bit. */
  lemma {:induction false} RevTop(r: nat, n: nat)
    requires r < Pow2(n)
    ensures RevN(r + Pow2(n), n + 1) == 2 * RevN(r, n) + 1
  {
    if n != 0 {
      assert (r + 2 * Pow2(n - 1)) / 2 == r / 2 + Pow2(n - 1);
      RevTop(r / 2, n - 1);
    }
  }

  // ---------- cutting words in two ----------

  lemma {:induction false} HighLow(x: nat, n: nat)
    ensures x == Shl(High(x, n), n) + Low(x, n)
  {
    if n != 0 {
      HighLow(x / 2, n - 1);
    }
  }

  lemma {:induction false} XorSum(a: nat, b: nat, n: nat)
    requires b < Pow2(n)
    ensures Xor(Shl(a, n), b) == Shl(a, n) + b
  {
    if n != 0 {
      XorSum(a, b / 2, n - 1);
      var x := Shl(a, n);
      XorHalves(x, b);
      assert x == 2 * Shl(a, n - 1);
      SameHalves(Xor(x, b), x + b);
    }
  }

  lemma {:induction false} XorHigh(a: nat, b: nat, n: nat)
    ensures High(Xor(a, b), n) == Xor(High(a, n), High(b, n))
    decreases n
  {
    if n != 0 {
      XorHalves(a, b);
      XorHigh(a / 2, b / 2, n - 1);
    }
  }

  lemma XorDouble(a: nat, b: nat)
    ensures Xor(2 * a, 2 * b) == 2 * Xor(a, b)
  {
    BitAndHalf(0, a);
    BitAndHalf(0, b);
    BitAndHalf(0, a + b);
    BitAndHalf(0, Xor(a, b));
    XorHalves(2 * a, 2 * b);
    SameHalves(Xor(2 * a, 2 * b), 2 * Xor(a, b));
  }

  lemma {:induction false} XorShl(a: nat, b: nat, n: nat)
    ensures Xor(Shl(a, n), Shl(b, n)) == Shl(Xor(a, b), n)
  {
    if n != 0 {
      XorShl(a, b, n - 1);
      XorDouble(Shl(a, n - 1), Shl(b, n - 1));
    }
  }

  lemma {:induction false} LowShl(x: nat, k: nat, w: nat)
    requires k <= w
    ensures Low(Shl(x, k), w) == Shl(Low(x, w - k), k)
  {
    if k != 0 {
      LowShl(x, k - 1, w - 1);
      assert Shl(x, k) == 2 * Shl(x, k - 1);
    }
  }

  lemma {:induction false} HighShl(x: nat, n: nat)
    ensures High(Shl(x, n), n) == x
  {
    if n != 0 {
      HighShl(x, n - 1);
      assert Shl(x, n) / 2 == Shl(x, n - 1);
    }
  }

  lemma {:induction false} HighBound(x: nat, m: nat, n: nat)
    requires x < Pow2(m + n)
    ensures High(x, n) < Pow2(m)
  {
    if n != 0 {
      HighBound(x / 2, m, n - 1);
    }
  }

  lemma {:induction false} HighOfLow(x: nat, n: nat, m: nat)
    ensures High(Low(x, n + m), n) == Low(High(x, n), m)
  {
    if n != 0 {
      LowHalves(x, n + m);
      HighOfLow(x / 2, n - 1, m);
    }
  }

  lemma XorZero(a: nat)
    ensures Xor(a, 0) == a && Xor(0, a) == a
  {
    XorCommutes(a, 0);
  }

  /** (a ^ b) ^ (c ^ d) == (a ^ c) ^ (b ^ d) */
  lemma XorSwap(a: nat, b: nat, c: nat, d: nat)
    ensures Xor(Xor(a, b), Xor(c, d)) == Xor(Xor(a, c), Xor(b, d))
  {
    XorAssociates(a, b, Xor(c, d));
    XorAssociates(b, c, d);
    XorCommutes(b, c);
    XorAssociates(c, b, d);
    XorAssociates(a, c, Xor(b, d));
  }

  lemma {:induction false} HighSum(a: nat, b: nat, n: nat)
    requires b < Pow2(n)
    ensures High(Shl(a, n) + b, n) == a
  {
    if n != 0 {
      HighSum(a, b / 2, n - 1);
      assert (2 * Shl(a, n - 1) + b) / 2 == Shl(a, n - 1) + b / 2;
    }
  }

  // ---------- single bits ----------

  function BitAt(x: nat, i: nat): (b: nat)
    ensures b < 2
  {
    High(x, i) % 2
  }

  lemma {:induction false} BitOfLow(x: nat, n: nat, i: nat)
    requires i < n
    ensures BitAt(Low(x, n), i) == BitAt(x, i)
  {
    HighOfLow(x, i, n - i);
    LowHalves(High(x, i), n - i);
  }

  lemma {:induction false} BitOfXor(a: nat, b: nat, i: nat)
    ensures BitAt(Xor(a, b), i) == (BitAt(a, i) + BitAt(b, i)) % 2
  {
    XorHigh(a, b, i);
    XorHalves(High(a, i), High(b, i));
    ParityBoth(High(a, i), High(b, i));
  }

  lemma ParityBoth(x: nat, y: nat)
    ensures (x + y) % 2 == (x % 2 + y % 2) % 2
  {
    ParityOfSum(x, x % 2, y);
    ParityOfSum(y, y % 2, x % 2);
  }

  /** Reversing puts bit `i` at the same distance from the other end. */
  lemma {:induction false} BitOfRev(x: nat, n: nat, i: nat)
    requires i < n
    ensures BitAt(RevN(x, n), i) == BitAt(x, n - 1 - i)
  {
    var k := n - 1 - i;
    var y, r := High(x, k), RevN(x, k);
    RevSplit(x, k, i + 1);
    RevBound(y / 2, i);
    ShlAdd(2 * r, y % 2, i);
    ShlShl(r, 1, i);
    assert Shl(r, 1) == 2 * r;
    HighSum(2 * r + y % 2, RevN(y / 2, i), i);
    BitAndHalf(y % 2, r);
  }
}
