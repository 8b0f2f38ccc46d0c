/** Which locks lock_one, lock_two and lock_three take, and in which order. */
module CuckooLocks {

  /** Strictly increasing: every lock once, lowest first. */
  ghost predicate Ascending(ls: seq<nat>) {
    forall i, j :: 0 <= i < j < |ls| ==> ls[i] < ls[j]
  }

  /** lock_two: swap if needed, take the second only if it differs. */
  function LockTwo(a: nat, b: nat): (ls: seq<nat>)
    ensures Ascending(ls) && |ls| >= 1
    ensures forall l :: l in ls <==> l == a || l == b
  {
    var (lo, hi) := if b < a then (b, a) else (a, b);
    if hi != lo then [lo, hi] else [lo]
  }

  /** lock_three: the three-way exchange sort, then each distinct lock in turn. */
  function LockThree(a: nat, b: nat, c: nat): (ls: seq<nat>)
    ensures Ascending(ls) && |ls| >= 1
    ensures forall l :: l in ls <==> l == a || l == b || l == c
  {
    var (l1, l2) := if c < b then (c, b) else (b, c);
    var (l0, l2') := if l2 < a then (l2, a) else (a, l2);
    var (m0, m1) := if l1 < l0 then (l1, l0) else (l0, l1);
    [m0] + (if m1 != m0 then [m1] else []) + (if l2' != m1 then [l2'] else [])
  }

  /** The locks owned by the managers that lock_three returns: first and second bucket, extra. */
  function Managers(a: nat, b: nat, c: nat): (ls: seq<nat>) {
    [a] + (if a != b then [b] else []) + (if c == a || c == b then [] else [c])
  }

  /** Every lock taken is owned by exactly one manager, and nothing else is. */
  lemma ManagersOwnEachOnce(a: nat, b: nat, c: nat)
    ensures multiset(Managers(a, b, c)) == multiset(LockThree(a, b, c))
    ensures multiset(Managers(a, b, a)) == multiset(LockTwo(a, b))
  {
    ManagersDistinct(a, b, c);
    ManagersDistinct(a, b, a);
    OnceEach(Managers(a, b, c), LockThree(a, b, c));
    OnceEach(Managers(a, b, a), LockTwo(a, b));
  }

  lemma ManagersDistinct(a: nat, b: nat, c: nat)
    ensures Distinct(Managers(a, b, c))
    ensures forall l :: l in Managers(a, b, c) <==> l == a || l == b || l == c
  {
  }

  ghost predicate Distinct(s: seq<nat>) {
    forall i, j :: 0 <= i < j < |s| ==> s[i] != s[j]
  }

  lemma {:induction false} DistinctCount(s: seq<nat>, l: nat)
    requires Distinct(s)
    ensures multiset(s)[l] == if l in s then 1 else 0
  {
    if s != [] {
      assert s == [s[0]] + s[1..];
      DistinctCount(s[1..], l);
    }
  }

  lemma OnceEach(x: seq<nat>, y: seq<nat>)
    requires Distinct(x) && Distinct(y)
    requires forall l :: l in x <==> l in y
    ensures multiset(x) == multiset(y)
  {
    forall l: nat ensures multiset(x)[l] == multiset(y)[l] {
      DistinctCount(x, l);
      DistinctCount(y, l);
    }
  }
}
