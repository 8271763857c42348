/**
 * Buckets of pre-warmed connections and the refill backoff (pool.rs). Times are
 * milliseconds of a monotonic clock and are read by the caller.
 */
module Buckets {
  import opened Wrappers

  datatype Key = Key(dc: nat, isMedia: bool)

  /** An idle connection; `id` stands for the socket, `via` is the Cloudflare domain it runs through, if any. */
  datatype Entry = Entry(id: nat, created: nat, via: string)

  type Bucket = seq<Entry>

  datatype CfTier = Worker | Proxy

  datatype CfKey = CfKey(tier: CfTier, key: Key)

  const CF_MAX: nat := 1
  const CF_MAX_AGE: nat := 100 * 1000

  // ----------------------------------------------------------------- backoff

  const SECOND: nat := 1000
  const BACKOFF_INITIAL: nat := 1
  const BACKOFF_MAX: nat := 3600
  const MAX_FAILURES: nat := 0xFFFF_FFFF

  function Pow2(n: nat): (r: nat)
    ensures r >= 1
  {
    if n == 0 then 1 else 2 * Pow2(n - 1)
  }

  function Min(a: nat, b: nat): nat { if a < b then a else b }

  /** Seconds to wait after the given number of consecutive failures. */
  function Delay(failures: nat): nat
  {
    Min(BACKOFF_INITIAL * Pow2(Min(if failures == 0 then 0 else failures - 1, 12)), BACKOFF_MAX)
  }

  lemma {:induction false} Pow2Monotone(a: nat, b: nat)
    requires a <= b
    ensures Pow2(a) <= Pow2(b)
    decreases b - a
  {
    if a < b {
      Pow2Monotone(a, b - 1);
    }
  }

  lemma Pow2Of12()
    ensures Pow2(12) == 4096
  {
    assert Pow2(3) == 8;
    assert Pow2(6) == 64;
    assert Pow2(9) == 512;
  }

  /**
   * The delay starts at one second, never shrinks as failures add up, doubles
   * until it reaches the cap of one hour after thirteen, and the shift it is
   * computed with never exceeds 12 bits.
   */
  lemma DelayShape(k: nat)
    requires k >= 1
    ensures Delay(1) == 1 && 1 <= Delay(k) <= 3600 && Delay(k) <= Delay(k + 1)
    ensures k <= 12 ==> Delay(k) == Pow2(k - 1) && (k < 12 ==> Delay(k + 1) == 2 * Delay(k))
    ensures k >= 13 ==> Delay(k) == 3600
    ensures Pow2(Min(k - 1, 12)) < 0x1_0000_0000_0000_0000
  {
    Pow2Of12();
    assert Pow2(11) == 2048;
    Pow2Monotone(Min(k - 1, 12), 12);
    Pow2Monotone(Min(k - 1, 12), Min(k, 12));
    if k <= 12 {
      Pow2Monotone(k - 1, 11);
    }
  }

  /** A recorded deadline that has not passed. */
  predicate Blocked(deadline: Option<nat>, now: nat)
  {
    deadline.Some? && now < deadline.value
  }

  // ------------------------------------------------------------ bucket logic

  /** Still young enough and not closed by the server. */
  predicate Usable(e: Entry, now: nat, maxAge: nat, closed: Entry -> bool)
  {
    !(now > e.created && now - e.created > maxAge) && !closed(e)
  }

  /** The entry a `get` hands out and what stays in the bucket. */
  function TakeFreshest(b: Bucket, now: nat, maxAge: nat, closed: Entry -> bool): (Option<Entry>, Bucket)
  {
    if b == [] then (None, [])
    else
      var last := |b| - 1;
      if Usable(b[last], now, maxAge, closed) then (Some(b[last]), b[..last])
      else TakeFreshest(b[..last], now, maxAge, closed)
  }

  /** It is the last usable entry; everything behind it was unusable and is dropped. */
  lemma {:induction false} TakeFreshestTakesLastUsable(b: Bucket, now: nat, maxAge: nat, closed: Entry -> bool)
    ensures var (hit, left) := TakeFreshest(b, now, maxAge, closed);
      && left <= b
      && (hit.Some? ==> |left| < |b| && hit == Some(b[|left|]) && Usable(b[|left|], now, maxAge, closed))
      && (hit.None? ==> left == [])
      && forall j :: (if hit.Some? then |left| + 1 else 0) <= j < |b| ==> !Usable(b[j], now, maxAge, closed)
  {
    if b != [] && !Usable(b[|b| - 1], now, maxAge, closed) {
      TakeFreshestTakesLastUsable(b[..|b| - 1], now, maxAge, closed);
    }
  }

  /** `retain`: the usable entries, in order. */
  function Retained(b: Bucket, now: nat, maxAge: nat, closed: Entry -> bool): (r: Bucket)
    ensures |r| <= |b|
  {
    if b == [] then []
    else
      var last := |b| - 1;
      var front := Retained(b[..last], now, maxAge, closed);
      if Usable(b[last], now, maxAge, closed) then front + [b[last]] else front
  }

  /** An entry may be handed out while it has not outlived `maxAge` and the server has not closed it. */
  predicate Good(e: Entry, now: nat, maxAge: nat, closed: Entry -> bool)
  {
    now <= e.created + maxAge && !closed(e)
  }

  /** How many good entries a bucket holds. */
  function GoodCount(b: Bucket, now: nat, maxAge: nat, closed: Entry -> bool): nat
  {
    if b == [] then 0
    else GoodCount(b[..|b| - 1], now, maxAge, closed) + (if Good(b[|b| - 1], now, maxAge, closed) then 1 else 0)
  }

  /**
   * `kept` is what a bucket `b` holds of good entries: all of them, each as often,
   * in their order, and nothing else. A good entry stands behind as many as there
   * are good ones in front of it.
   */
  predicate KeepsGood(b: Bucket, now: nat, maxAge: nat, closed: Entry -> bool, kept: Bucket)
  {
    && |kept| == GoodCount(b, now, maxAge, closed)
    && (forall i :: 0 <= i < |kept| ==> Good(kept[i], now, maxAge, closed))
    && forall x :: 0 <= x < |b| && Good(b[x], now, maxAge, closed) ==>
      var rank := GoodCount(b[..x], now, maxAge, closed); rank < |kept| && kept[rank] == b[x]
  }

  lemma {:induction false} RetainedKeepsGood(b: Bucket, now: nat, maxAge: nat, closed: Entry -> bool)
    ensures KeepsGood(b, now, maxAge, closed, Retained(b, now, maxAge, closed))
    decreases |b|
  {
    if b != [] {
      RetainedKeepsGood(b[..|b| - 1], now, maxAge, closed);
      OneMoreKept(b, now, maxAge, closed, Retained(b[..|b| - 1], now, maxAge, closed));
    }
  }

  lemma OneMoreKept(b: Bucket, now: nat, maxAge: nat, closed: Entry -> bool, kept: Bucket)
    requires b != [] && KeepsGood(b[..|b| - 1], now, maxAge, closed, kept)
    ensures KeepsGood(
      b, now, maxAge, closed, if Good(b[|b| - 1], now, maxAge, closed) then kept + [b[|b| - 1]] else kept)
  {
    var last := |b| - 1;
    var front := b[..last];
    forall x | 0 <= x < last && Good(b[x], now, maxAge, closed)
      ensures GoodCount(b[..x], now, maxAge, closed) < |kept| && kept[GoodCount(b[..x], now, maxAge, closed)] == b[x]
    {
      assert front[x] == b[x] && front[..x] == b[..x];
    }
  }

  /** The entry a `get` hands out: the last good one, if any. */
  ghost predicate LastGood(b: Bucket, now: nat, maxAge: nat, closed: Entry -> bool, hit: Option<Entry>)
  {
    match hit
    case None => forall x :: 0 <= x < |b| ==> !Good(b[x], now, maxAge, closed)
    case Some(e) =>
      exists x :: 0 <= x < |b| && b[x] == e && Good(b[x], now, maxAge, closed)
                  && forall y :: x < y < |b| ==> !Good(b[y], now, maxAge, closed)
  }

  lemma TakesLastGood(b: Bucket, now: nat, maxAge: nat, closed: Entry -> bool)
    ensures LastGood(b, now, maxAge, closed, TakeFreshest(b, now, maxAge, closed).0)
  {
    TakeFreshestTakesLastUsable(b, now, maxAge, closed);
    var (hit, left) := TakeFreshest(b, now, maxAge, closed);
    if hit.Some? {
      assert b[|left|] == hit.value;
    }
  }

  /** Pruning first makes no difference to what is handed out at the same moment. */
  lemma {:induction false} TakeAfterPrune(b: Bucket, now: nat, maxAge: nat, closed: Entry -> bool)
    ensures TakeFreshest(Retained(b, now, maxAge, closed), now, maxAge, closed).0
      == TakeFreshest(b, now, maxAge, closed).0
    decreases |b|
  {
    if b != [] {
      var last := |b| - 1;
      if !Usable(b[last], now, maxAge, closed) {
        TakeAfterPrune(b[..last], now, maxAge, closed);
      }
    }
  }

  /** Landing a finished refill: only as many as the bucket has room for. */
  function Landed(b: Bucket, conns: Bucket, poolSize: nat): Bucket
  {
    var room := if |b| < poolSize then poolSize - |b| else 0;
    b + conns[..Min(room, |conns|)]
  }

  /** What is there stays; connections land from the first on, until the bucket is full or none is left. */
  lemma LandedFills(b: Bucket, conns: Bucket, poolSize: nat)
    ensures var r := Landed(b, conns, poolSize);
      && b <= r && r[|b|..] <= conns
      && (|r| < poolSize ==> r == b + conns)
      && (|r| > poolSize ==> r == b)
  {
  }
}
