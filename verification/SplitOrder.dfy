/** The order of the split-ordered list: bit-reversed hashes, dummy keys of buckets and regular keys of
    items, and why a bucket's dummy node is a valid place to start a search. */
module SplitOrder {
  import opened Bits

  /** A 64-bit word. */
  type Word = x: nat | x < 2 * TopBit()

  // ---------- the lookup table ----------

  /** The macros that write out the table, one inside the other: R2(n) is Rows(1, n, 64), R4(n) is
      Rows(2, n, 16) and R6(n) is Rows(3, n, 4). */
  function Rows(k: nat, n: nat, step: nat): (t: seq<nat>) {
    if k == 0 then [n]
    else
      Rows(k - 1, n, 4 * step) + Rows(k - 1, n + 2 * step, 4 * step)
      + Rows(k - 1, n + 1 * step, 4 * step) + Rows(k - 1, n + 3 * step, 4 * step)
  }

  /** The table for `2 * k` bits; reverse8bits_, which is R6(0), R6(2), R6(1), R6(3), for eight. */
  function Table(k: nat): (t: seq<nat>) {
    Rows(k, 0, 1)
  }

  /** Table `t` holds `n` plus `step` times the reverse of each `k`-bit index. */
  ghost predicate Reverses(t: seq<nat>, n: nat, step: nat, k: nat) {
    |t| == Pow2(k) && forall j :: 0 <= j < |t| ==> t[j] == n + step * RevN(j, k)
  }

  lemma {:induction false} RevJoin(j: nat, q: nat, k: nat)
    requires j < Pow2(k) && q < 4
    ensures RevN(j + Shl(q, k), k + 2) == 4 * RevN(j, k) + if q == 1 then 2 else if q == 2 then 1 else q
  {
    if k == 0 {
      assert RevN(q, 2) == Shl(q % 2, 1) + RevN(q / 2, 1) && RevN(q / 2, 1) == q / 2 % 2;
    } else {
      assert (j + 2 * Shl(q, k - 1)) / 2 == j / 2 + Shl(q, k - 1);
      RevJoin(j / 2, q, k - 1);
      assert Shl(j % 2, k + 1) == 4 * Shl(j % 2, k - 1);
    }
  }

  lemma ShlSmall(k: nat)
    ensures Shl(0, k) == 0 && Shl(1, k) == Pow2(k) && Shl(2, k) == 2 * Pow2(k) && Shl(3, k) == 3 * Pow2(k)
  {
    ShlOne(k);
    ShlAdd(1, 1, k);
    ShlAdd(1, 2, k);
  }

  lemma Scale(n: nat, step: nat, x: nat, r: nat)
    ensures n + r * step + 4 * step * x == n + step * (4 * x + r)
  {
  }

  /** The part of the larger table that comes from table `x`. */
  lemma Quarter(x: seq<nat>, n: nat, step: nat, k: nat, q: nat, r: nat, j: nat)
    requires q < 4 && r == (if q == 1 then 2 else if q == 2 then 1 else q)
    requires Reverses(x, n + r * step, 4 * step, k) && j < |x|
    ensures x[j] == n + step * RevN(j + Shl(q, k), k + 2)
  {
    RevJoin(j, q, k);
    Scale(n, step, RevN(j, k), r);
  }

  /** Four tables for `k` bits side by side make one for `k + 2` bits. */
  lemma FourTables(x: seq<nat>, y: seq<nat>, z: seq<nat>, w: seq<nat>, n: nat, step: nat, k: nat)
    requires Reverses(x, n + 0 * step, 4 * step, k) && Reverses(y, n + 2 * step, 4 * step, k)
    requires Reverses(z, n + 1 * step, 4 * step, k) && Reverses(w, n + 3 * step, 4 * step, k)
    ensures Reverses(x + y + z + w, n, step, k + 2)
  {
    var t, m := x + y + z + w, Pow2(k);
    ShlSmall(k);
    assert Pow2(k + 2) == 2 * Pow2(k + 1) == 4 * m;
    forall i | 0 <= i < |t| ensures t[i] == n + step * RevN(i, k + 2) {
      if i < m {
        Quarter(x, n, step, k, 0, 0, i);
      } else if i < 2 * m {
        Quarter(y, n, step, k, 1, 2, i - m);
      } else if i < 3 * m {
        Quarter(z, n, step, k, 2, 1, i - 2 * m);
      } else {
        Quarter(w, n, step, k, 3, 3, i - 3 * m);
      }
    }
  }

  lemma {:induction false} RowsReverse(k: nat, n: nat, step: nat)
    ensures Reverses(Rows(k, n, step), n, step, 2 * k)
  {
    if k != 0 {
      RowsReverse(k - 1, n, 4 * step);
      RowsReverse(k - 1, n + 2 * step, 4 * step);
      RowsReverse(k - 1, n + 1 * step, 4 * step);
      RowsReverse(k - 1, n + 3 * step, 4 * step);
      FourTables(Rows(k - 1, n, 4 * step), Rows(k - 1, n + 2 * step, 4 * step),
                 Rows(k - 1, n + 1 * step, 4 * step), Rows(k - 1, n + 3 * step, 4 * step), n, step, 2 * (k - 1));
    }
  }

  /** Every entry of the lookup table is the reverse of its index. */
  lemma TableReverses(k: nat)
    ensures Reverses(Table(k), 0, 1, 2 * k)
  {
    RowsReverse(k, 0, 1);
  }

  // ---------- reversing a whole word ----------

  /** Reverse: the reversed digits of `w` bits of `h`, looked up in `t`, in the opposite order; eight
      digits of eight bits in the source.  The digits do not overlap, so adding them is combining them
      with a bitwise or. */
  function ReverseDigits(t: seq<nat>, w: nat, h: nat, n: nat): (r: nat)
    requires |t| == Pow2(w)
    decreases n
  {
    if n == 0 then 0 else Shl(t[Low(h, w)], w * (n - 1)) + ReverseDigits(t, w, High(h, w), n - 1)
  }

  /** The table-driven reversal of `n` digits reverses all their bits. */
  lemma {:induction false} ReverseDigitsIs(t: seq<nat>, w: nat, h: nat, n: nat)
    requires Reverses(t, 0, 1, w)
    ensures ReverseDigits(t, w, h, n) == RevN(h, w * n)
    decreases n
  {
    if n != 0 {
      var m := w * (n - 1);
      ReverseDigitsIs(t, w, High(h, w), n - 1);
      RevLow(h, w);
      RevSplit(h, w, m);
      assert w * n == w + m && t[Low(h, w)] == RevN(h, w);
    }
  }

  // ---------- reversed numbers of any width ----------

  /** Numbers that agree on the low `p` bits are exactly those whose reverses lie in one interval. */
  lemma ResidueIsInterval(x: nat, b: nat, p: nat, q: nat)
    requires b < Pow2(p)
    ensures Low(x, p) == b <==> RevN(b, p + q) <= RevN(x, p + q) < RevN(b, p + q) + Pow2(q)
  {
    RevSplit(b, p, q);
    HighSmall(b, p);
    RevZero(q);
    RevSplit(x, p, q);
    RevBound(High(x, p), q);
    RevLow(x, p);
    var u, w := RevN(x, p), RevN(b, p);
    if u < w {
      ShlMonotone(u, w, q);
    } else if u > w {
      ShlMonotone(w, u, q);
    } else {
      RevRev(x, p);
      RevRev(b, p);
      LowSmall(b, p);
    }
  }

  /** The highest power of two in `b`. */
  function Msb(b: nat): (m: nat)
    requires b >= 1
    ensures m <= b < 2 * m
  {
    if b == 1 then 1 else 2 * Msb(b / 2)
  }

  /** GetBucketParent: clear the most significant set bit.  Not defined for bucket 0, which always
      exists. */
  function Parent(b: nat): (p: nat)
    requires b >= 1
    ensures p < b
  {
    b - Msb(b)
  }

  lemma {:induction false} ParentReversed(b: nat, n: nat)
    requires 1 <= b < Pow2(n)
    ensures RevN(Parent(b), n) < RevN(b, n)
  {
    if b == 1 {
      RevZero(n);
      ShlOne(n - 1);
    } else {
      ParentReversed(b / 2, n - 1);
      assert Parent(b) / 2 == Parent(b / 2) && Parent(b) % 2 == b % 2;
    }
  }

  // ---------- keys of the list ----------

  /** All bits of a word but the top one. */
  function LowerBits(): (n: nat) {
    63
  }

  function TopBit(): (m: nat) {
    Pow2(LowerBits())
  }

  /** h | 0x8000000000000000 */
  function WithTop(h: Word): (r: Word) {
    if h < TopBit() then h + TopBit() else h
  }

  function RegularKey(h: Word): (r: nat) {
    RevN(WithTop(h), LowerBits() + 1)
  }

  function DummyKey(bucket: Word): (r: nat) {
    RevN(bucket, LowerBits() + 1)
  }

  /** Both keys are what the lookup table makes of the word, digit by digit: the source has a table for
      eight bits, `k` is 4, and eight digits. */
  lemma KeysByTable(h: Word, k: nat, n: nat)
    requires 2 * k * n == LowerBits() + 1
    ensures |Table(k)| == Pow2(2 * k)
    ensures RegularKey(h) == ReverseDigits(Table(k), 2 * k, WithTop(h), n)
    ensures DummyKey(h) == ReverseDigits(Table(k), 2 * k, h, n)
  {
    TableReverses(k);
    ReverseDigitsIs(Table(k), 2 * k, WithTop(h), n);
    ReverseDigitsIs(Table(k), 2 * k, h, n);
  }

  /** hash & (bucket_size() - 1), for a table of 2^power buckets. */
  function BucketOf(h: Word, power: nat): (b: nat) {
    Low(h, power)
  }

  lemma TopBitClears(r: nat, n: nat)
    requires r < Pow2(n)
    ensures Low(r + Pow2(n), n) == r && Low(r, n) == r
  {
    LowAddPow2(r, n, n);
    LowSmall(r, n);
  }

  lemma TopSet(r: nat, n: nat)
    requires r < Pow2(n)
    ensures RevN(r + Pow2(n), n + 1) == 2 * RevN(Low(r, n), n) + 1 && Low(r + Pow2(n), n) == Low(r, n)
  {
    RevTop(r, n);
    TopBitClears(r, n);
  }

  lemma RegularIsOdd(h: Word)
    ensures RegularKey(h) == 2 * RevN(Low(h, LowerBits()), LowerBits()) + 1
  {
    TopSet(if h < TopBit() then h else h - TopBit(), LowerBits());
  }

  lemma DummyIsEven(b: Word)
    requires b < TopBit()
    ensures DummyKey(b) == 2 * RevN(b, LowerBits())
  {
    RevSplit(b, LowerBits(), 1);
    HighSmall(b, LowerBits());
    assert Shl(RevN(b, LowerBits()), 1) == 2 * RevN(b, LowerBits());
  }

  /** With 2^power buckets, the items of bucket `b` are exactly those whose keys lie in the interval
      of length 2^(64 - power) that begins at the bucket's dummy key. */
  lemma BucketIsInterval(h: Word, power: nat, b: Word)
    requires power <= LowerBits() && b < Pow2(power)
    ensures BucketOf(h, power) == b <==> DummyKey(b) < RegularKey(h) < DummyKey(b) + Pow2(LowerBits() + 1 - power)
  {
    var n := LowerBits();
    Pow2Monotone(power, n);
    RegularIsOdd(h);
    DummyIsEven(b);
    ResidueIsInterval(Low(h, n), b, power, n - power);
    LowLow(h, power, n);
    assert Pow2(n + 1 - power) == 2 * Pow2(n - power);
  }

  /** A bucket's dummy precedes every item hashed to the bucket, whatever the table size. */
  lemma DummyBeforeItem(h: Word, power: nat)
    requires power <= LowerBits()
    ensures BucketOf(h, power) < TopBit() && DummyKey(BucketOf(h, power)) < RegularKey(h)
  {
    Pow2Monotone(power, LowerBits());
    BucketIsInterval(h, power, BucketOf(h, power));
  }

  /** A parent bucket's dummy precedes its child's. */
  lemma ParentBeforeChild(b: Word)
    requires 1 <= b < TopBit()
    ensures DummyKey(Parent(b)) < DummyKey(b)
  {
    DummyIsEven(b);
    DummyIsEven(Parent(b));
    ParentReversed(b, LowerBits());
  }

  /** Different buckets have different dummies. */
  lemma DummiesDiffer(b: Word, c: Word)
    requires b < TopBit() && c < TopBit() && DummyKey(b) == DummyKey(c)
    ensures b == c
  {
    DummyIsEven(b);
    DummyIsEven(c);
    RevRev(b, LowerBits());
    RevRev(c, LowerBits());
    LowSmall(b, LowerBits());
    LowSmall(c, LowerBits());
  }

  // ---------- labels of nodes and their order ----------

  /** What a node is compared by: its reversed hash and, for items, the key. */
  datatype Label = Dummy(rank: nat) | Item(rank: nat, key: int)

  /** Less: by rank, then by key; a dummy is never less than a node of the same rank. */
  predicate Less(a: Label, b: Label) {
    if a.rank != b.rank then a.rank < b.rank
    else if a.Dummy? || b.Dummy? then false
    else a.key < b.key
  }

  /** Dummies have even ranks and items odd ones. */
  predicate Proper(a: Label) {
    if a.Dummy? then a.rank % 2 == 0 else a.rank % 2 == 1
  }

  lemma LessIsOrder(a: Label, b: Label, c: Label)
    requires Proper(a) && Proper(b) && Proper(c)
    ensures !Less(a, a)
    ensures Less(a, b) && Less(b, c) ==> Less(a, c)
    ensures Less(a, b) || Less(b, a) || a == b
  {
  }

  function DummyLabel(b: Word): (a: Label) {
    Dummy(DummyKey(b))
  }

  function ItemLabel(hash: int -> Word, k: int): (a: Label) {
    Item(RegularKey(hash(k)), k)
  }

  lemma LabelsProper(hash: int -> Word, k: int, b: Word)
    ensures Proper(ItemLabel(hash, k))
    ensures b < TopBit() ==> Proper(DummyLabel(b))
  {
    RegularIsOdd(hash(k));
    Parity(RegularKey(hash(k)), RevN(Low(hash(k), LowerBits()), LowerBits()), 1);
    if b < TopBit() {
      DummyIsEven(b);
      Parity(DummyKey(b), RevN(b, LowerBits()), 0);
    }
  }

  lemma Parity(x: nat, y: nat, d: nat)
    requires x == 2 * y + d && d < 2
    ensures x % 2 == d
  {
  }
}
