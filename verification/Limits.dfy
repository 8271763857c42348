/**
 * The connection cap computed from the descriptor budget (limits.rs), in the
 * saturating arithmetic of a 64-bit `usize`.
 */
module Limits {
  const USIZE_MAX: nat := 0xFFFF_FFFF_FFFF_FFFF

  const UNLIMITED_MAX_CONNECTIONS: nat := 512
  const RUNTIME_RESERVED_FDS: nat := 32
  const FDS_PER_CONNECTION: nat := 2
  const FDS_PER_POOL_SLOT: nat := 2
  const MIN_MAX_CONNECTIONS: nat := 4

  type usize = n: nat | n <= USIZE_MAX

  function Clamp(n: nat): usize { if n > USIZE_MAX then USIZE_MAX else n }

  /** The product of two naturals is one. */
  function Product(a: nat, b: nat): nat { a * b }

  function SaturatingMul(a: usize, b: usize): usize { Clamp(Product(a, b)) }

  function SaturatingAdd(a: usize, b: usize): usize { Clamp(a + b) }

  function SaturatingSub(a: usize, b: usize): usize { if a < b then 0 else a - b }

  function Max(a: usize, b: usize): usize { if a < b then b else a }

  function PerConnection(fds: usize): usize { fds / FDS_PER_CONNECTION }

  function Reserved(poolSize: usize, dcBuckets: usize): usize
  {
    var poolFds := SaturatingMul(SaturatingMul(poolSize, dcBuckets), FDS_PER_POOL_SLOT);
    SaturatingAdd(SaturatingAdd(1, poolFds), RUNTIME_RESERVED_FDS)
  }

  /** `auto_max_connections`. */
  function AutoMaxConnections(fdLimit: usize, poolSize: usize, dcBuckets: usize): usize
  {
    if fdLimit == USIZE_MAX then UNLIMITED_MAX_CONNECTIONS
    else Max(PerConnection(SaturatingSub(fdLimit, Reserved(poolSize, dcBuckets))), MIN_MAX_CONNECTIONS)
  }

  /** What the process may hold at worst: listener, pool, reserve, and two per connection. */
  function WorstCase(poolSize: nat, dcBuckets: nat, connections: nat): nat
  {
    1 + FDS_PER_POOL_SLOT * Product(poolSize, dcBuckets) + RUNTIME_RESERVED_FDS + FDS_PER_CONNECTION * connections
  }

  lemma SaturatedReserve(slots: nat)
    ensures SaturatingAdd(SaturatingAdd(1, Clamp(Clamp(slots) * FDS_PER_POOL_SLOT)), RUNTIME_RESERVED_FDS)
      == Clamp(33 + 2 * slots)
  {
  }

  lemma TwicePerSlot(n: usize)
    ensures SaturatingMul(n, FDS_PER_POOL_SLOT) == Clamp(n * FDS_PER_POOL_SLOT)
  {
  }

  lemma CapOf(fdLimit: usize, slots: nat, cap: nat)
    requires cap == Max(SaturatingSub(fdLimit, Clamp(33 + 2 * slots)) / FDS_PER_CONNECTION, MIN_MAX_CONNECTIONS)
    requires fdLimit < USIZE_MAX
    ensures cap >= 4
    ensures 33 + 2 * slots + 2 * cap <= fdLimit <==> 33 + 2 * slots + 8 <= fdLimit
    ensures 33 + 2 * slots + 2 * cap <= fdLimit ==> 33 + 2 * slots + 2 * (cap + 1) > fdLimit
  {
  }

  /**
   * Without a limit 512 connections are allowed. Under a finite limit the
   * computed cap keeps the worst case within the limit, exactly when the limit
   * leaves room for the minimum of four connections; and then it is the largest
   * cap that does.
   */
  lemma CapFitsBudget(fdLimit: usize, poolSize: usize, dcBuckets: usize)
    ensures fdLimit == USIZE_MAX ==> AutoMaxConnections(fdLimit, poolSize, dcBuckets) == 512
    ensures var cap := AutoMaxConnections(fdLimit, poolSize, dcBuckets);
      fdLimit < USIZE_MAX ==>
        && cap >= 4
        && (WorstCase(poolSize, dcBuckets, cap) <= fdLimit <==> WorstCase(poolSize, dcBuckets, 4) <= fdLimit)
        && (WorstCase(poolSize, dcBuckets, cap) <= fdLimit ==> WorstCase(poolSize, dcBuckets, cap + 1) > fdLimit)
  {
    var slots := Product(poolSize, dcBuckets);
    SaturatedReserve(slots);
    TwicePerSlot(Clamp(slots));
    if fdLimit < USIZE_MAX {
      CapOf(fdLimit, slots, AutoMaxConnections(fdLimit, poolSize, dcBuckets));
    }
  }

  // ------------------------------------------------------ sums over buckets

  ghost function Sum<K>(f: K -> nat, keys: set<K>): nat
  {
    if keys == {} then 0
    else
      var k :| k in keys;
      f(k) + Sum(f, keys - {k})
  }

  lemma {:induction false} SumBound<K>(f: K -> nat, keys: set<K>, each: nat)
    requires forall k :: k in keys ==> f(k) <= each
    ensures Sum(f, keys) <= Product(each, |keys|)
    ensures (forall k :: k in keys ==> f(k) == each) ==> Sum(f, keys) == Product(each, |keys|)
    decreases keys
  {
    if keys != {} {
      var k :| k in keys && Sum(f, keys) == f(k) + Sum(f, keys - {k});
      SumBound(f, keys - {k}, each);
      OneMore(each, |keys - {k}|, |keys|);
    }
  }

  lemma OneMore(each: nat, n: nat, n': nat)
    requires n' == n + 1
    ensures Product(each, n') == Product(each, n) + each
  {
  }

  lemma Twice(a: nat, b: nat)
    ensures Product(2 * a, b) == 2 * Product(a, b)
  {
  }
}
