/** Bucket and lock indices of the cuckoo hash map.  The rest of the model is written over any
    indexing scheme that obeys `Laws`; the scheme of the source is proved to obey them. */
module CuckooIndex {
  import opened Bits

  type Key(==, !new)
  type Val(!new)
  type U64 = x: nat | x < 0x1_0000_0000_0000_0000

  /** Template parameters, constructor parameters and indexing functions of a map. */
  datatype Config = Config(
    hash: Key -> U64,
    partial: U64 -> nat,             // partial_key
    index: (nat, U64) -> nat,        // index_hash
    alt: (nat, nat, nat) -> nat,     // alt_index
    lock: nat -> nat,                // lock_ind
    slots: nat,                      // slots per bucket
    pathLen: nat,                    // most buckets on a displacement path
    lockBits: nat,                   // log2 of the largest number of locks
    maxHp: nat,                      // largest permitted hashpower
    simple: bool)                    // keys so small that partial keys are not compared

  // ---------- the indexing scheme of the source ----------

  /** The multiplier of 64-bit MurmurHash2. */
  const MURMUR: nat := 0xc6a4a7935bd1e995

  /** Exclusive or of the low `bits` bits with the next `bits` bits. */
  function FoldHalf(x: nat, bits: nat): (r: nat)
    ensures r < Pow2(bits)
  {
    XorBound(Low(x, bits), Low(High(x, bits), bits), bits);
    Xor(Low(x, bits), Low(High(x, bits), bits))
  }

  /** The eight-bit tag of a hash. */
  function PartialKey(hash: U64): (r: nat)
    ensures r < Pow2(8)
  {
    FoldHalf(FoldHalf(FoldHalf(hash, 32), 16), 8)
  }

  function IndexHash(hp: nat, hash: U64): (i: nat)
    ensures i < Pow2(hp)
  {
    Low(hash, hp)
  }

  /** The tag made nonzero, times the multiplier, modulo 2^64. */
  function TagBits(partial: nat): (c: nat) {
    Low((partial + 1) * MURMUR, 64)
  }

  function AltIndex(hp: nat, partial: nat, index: nat): (i: nat)
    ensures i < Pow2(hp)
  {
    Low(Xor(index, TagBits(partial)), hp)
  }

  function LockIndex(lockBits: nat, bucket: nat): (l: nat)
    ensures l < Pow2(lockBits)
  {
    Low(bucket, lockBits)
  }

  function Libcuckoo(hash: Key -> U64, slots: nat, pathLen: nat, lockBits: nat, maxHp: nat,
                     simple: bool): (cfg: Config) {
    Config(hash, PartialKey, IndexHash, AltIndex, (b: nat) => LockIndex(lockBits, b),
           slots, pathLen, lockBits, maxHp, simple)
  }

  /** The other bucket of the other bucket is the bucket itself. */
  lemma AltInvolution(hp: nat, partial: nat, index: nat)
    requires index < Pow2(hp)
    ensures AltIndex(hp, partial, AltIndex(hp, partial, index)) == index
  {
    var c := TagBits(partial);
    var x := Xor(index, c);
    XorLow(Low(x, hp), c, hp);
    LowLow(x, hp, hp);
    XorLow(x, c, hp);
    XorCancels(index, c);
    LowSmall(index, hp);
  }

  /** The alternate index gains one bit at the top when the hashpower grows by one. */
  lemma AltIndexNextBit(hp: nat, partial: nat, i: nat)
    ensures Low(AltIndex(hp + 1, partial, i), hp) == AltIndex(hp, partial, Low(i, hp))
  {
    var c := TagBits(partial);
    LowLow(Xor(i, c), hp, hp + 1);
    XorLow(i, c, hp);
    XorLow(Low(i, hp), c, hp);
    LowLow(i, hp, hp);
  }

  // ---------- the two buckets of a key ----------

  function Home(cfg: Config, hp: nat, k: Key): (i: nat) {
    cfg.index(hp, cfg.hash(k))
  }

  function Tag(cfg: Config, k: Key): (p: nat) {
    cfg.partial(cfg.hash(k))
  }

  function Other(cfg: Config, hp: nat, k: Key): (i: nat) {
    cfg.alt(hp, Tag(cfg, k), Home(cfg, hp, k))
  }

  /** `b` is one of the two buckets that may hold `k`. */
  predicate Placed(cfg: Config, hp: nat, k: Key, b: nat) {
    b == Home(cfg, hp, k) || b == Other(cfg, hp, k)
  }

  /** Whether doubling moves `k` out of bucket `b` into the new bucket `b + Pow2(hp)`. */
  predicate GoesUp(cfg: Config, hp: nat, k: Key, b: nat) {
    || (b == Home(cfg, hp, k) && Home(cfg, hp + 1, k) == b + Pow2(hp))
    || (b == Other(cfg, hp, k) && Other(cfg, hp + 1, k) == b + Pow2(hp))
  }

  function Dest(cfg: Config, hp: nat, k: Key, b: nat): (d: nat) {
    if GoesUp(cfg, hp, k, b) then b + Pow2(hp) else b
  }

  function MaxLocks(cfg: Config): (n: nat)
    ensures n >= 1
  {
    Pow2(cfg.lockBits)
  }

  /** Size of the current lock container at a given hashpower. */
  function NumLocks(cfg: Config, hp: nat): (n: nat)
    ensures n >= 1
  {
    if Pow2(hp) < MaxLocks(cfg) then Pow2(hp) else MaxLocks(cfg)
  }

  // ---------- laws of an indexing scheme ----------

  /** Both buckets exist. */
  ghost predicate InRange(cfg: Config, hp: nat, k: Key) {
    Home(cfg, hp, k) < Pow2(hp) && Other(cfg, hp, k) < Pow2(hp)
  }

  /** Displacing a key from one of its buckets lands it in one of its buckets. */
  ghost predicate AltStays(cfg: Config, hp: nat, k: Key, b: nat) {
    Placed(cfg, hp, k, b) ==> Placed(cfg, hp, k, cfg.alt(hp, Tag(cfg, k), b))
  }

  /** Doubling sends a well-placed key to one of its two buckets in the larger table. */
  ghost predicate DestStays(cfg: Config, hp: nat, k: Key, b: nat) {
    Placed(cfg, hp, k, b) ==> Placed(cfg, hp + 1, k, Dest(cfg, hp, k, b))
  }

  /** Every bucket has a lock in the current container; with at least as many buckets as locks, both
      halves of a split bucket share its lock. */
  ghost predicate LockStays(cfg: Config, hp: nat, b: nat) {
    && (b < Pow2(hp) ==> cfg.lock(b) < NumLocks(cfg, hp))
    && (MaxLocks(cfg) <= Pow2(hp) ==> cfg.lock(b + Pow2(hp)) == cfg.lock(b))
  }

  /** The buckets of one lock are equally spaced, the first of them having the lock's own number. */
  ghost predicate LockStride(cfg: Config, b: nat) {
    && (b < MaxLocks(cfg) ==> cfg.lock(b) == b)
    && cfg.lock(b + MaxLocks(cfg)) == cfg.lock(b)
  }

  /** Displacement always computes a bucket of the table. */
  ghost predicate AltInRange(cfg: Config, hp: nat, partial: nat, b: nat) {
    cfg.alt(hp, partial, b) < Pow2(hp)
  }

  ghost predicate Laws(cfg: Config) {
    && cfg.slots >= 1 && cfg.pathLen >= 1
    && (forall hp: nat, k: Key :: InRange(cfg, hp, k))
    && (forall hp: nat, k: Key, b: nat :: AltStays(cfg, hp, k, b))
    && (forall hp: nat, k: Key, b: nat :: DestStays(cfg, hp, k, b))
    && (forall hp: nat, b: nat :: LockStays(cfg, hp, b))
    && (forall b: nat :: LockStride(cfg, b))
    && (forall hp: nat, partial: nat, b: nat :: AltInRange(cfg, hp, partial, b))
  }

  lemma LibcuckooAltStays(cfg: Config, hp: nat, k: Key, b: nat)
    requires cfg == Libcuckoo(cfg.hash, cfg.slots, cfg.pathLen, cfg.lockBits, cfg.maxHp, cfg.simple)
    ensures AltStays(cfg, hp, k, b)
  {
    AltInvolution(hp, PartialKey(cfg.hash(k)), IndexHash(hp, cfg.hash(k)));
  }

  lemma LibcuckooDestStays(cfg: Config, hp: nat, k: Key, b: nat)
    requires cfg == Libcuckoo(cfg.hash, cfg.slots, cfg.pathLen, cfg.lockBits, cfg.maxHp, cfg.simple)
    ensures DestStays(cfg, hp, k, b)
  {
    var h := cfg.hash(k);
    var partial, i := PartialKey(h), IndexHash(hp + 1, h);
    LowNextBit(h, hp);
    LowLow(h, hp, hp + 1);
    AltIndexNextBit(hp, partial, i);
    LowNextBit(Xor(i, TagBits(partial)), hp);
    LowLow(Xor(i, TagBits(partial)), hp, hp + 1);
  }

  lemma LibcuckooLockStays(cfg: Config, hp: nat, b: nat)
    requires cfg == Libcuckoo(cfg.hash, cfg.slots, cfg.pathLen, cfg.lockBits, cfg.maxHp, cfg.simple)
    ensures LockStays(cfg, hp, b)
  {
    if b < Pow2(hp) < MaxLocks(cfg) {
      LowSmall(b, cfg.lockBits);
    }
    if MaxLocks(cfg) <= Pow2(hp) {
      if hp < cfg.lockBits {
        Pow2Monotone(hp + 1, cfg.lockBits);
        assert false;
      }
      LowAddPow2(b, cfg.lockBits, hp);
    }
  }

  /** The indexing scheme of the source obeys the laws, for every hash function. */
  lemma LibcuckooLaws(hash: Key -> U64, slots: nat, pathLen: nat, lockBits: nat, maxHp: nat, simple: bool)
    requires slots >= 1 && pathLen >= 1
    ensures Laws(Libcuckoo(hash, slots, pathLen, lockBits, maxHp, simple))
  {
    var cfg := Libcuckoo(hash, slots, pathLen, lockBits, maxHp, simple);
    forall hp: nat, k: Key, b: nat ensures AltStays(cfg, hp, k, b) && DestStays(cfg, hp, k, b) {
      LibcuckooAltStays(cfg, hp, k, b);
      LibcuckooDestStays(cfg, hp, k, b);
    }
    forall hp: nat, b: nat ensures LockStays(cfg, hp, b) {
      LibcuckooLockStays(cfg, hp, b);
    }
    forall b: nat ensures LockStride(cfg, b) {
      if b < MaxLocks(cfg) {
        LowSmall(b, lockBits);
      }
      LowAddPow2(b, lockBits, lockBits);
    }
  }
}
