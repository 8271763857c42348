/**
 * The pool object (pool.rs). Every critical section is one method, and moves
 * its bucket as the matching step of `PoolProtocol` or `CfProtocol` does; so
 * whatever tasks call them in whatever order, the object's history is a run of
 * those protocols. Between two locks of one caller the others act (`Others`).
 */
module Pool {
  import opened Wrappers
  import opened Buckets
  import opened Interleaving
  import Protocol = PoolProtocol
  import CfProtocol
  import Budget

  type Step = Protocol.Step

  type CfStep = CfProtocol.Step

  /** Steps that take no lock of the pool. */
  predicate IsOutside(step: Step)
  {
    || step.Dial? || step.DialOk? || step.DialFailed? || step.DialsDone?
    || step.WarmStart? || step.WarmDial? || step.WarmDialOk? || step.WarmDialFailed? || step.WarmDialsDone?
  }

  /**
   * What one caller of the pool has begun on a bucket: deadline checks it has
   * passed, success reports it is halfway through, the refill task it is.
   */
  datatype Mine = Mine(k: Key, tickets: set<nat>, clearing: nat, task: bool)

  datatype Scheduled = Off | TooSoon | Busy | Spawned

  const NOTHING := Mine(Key(0, false), {}, 0, false)

  lemma FreeKeeps(m: Mine, s: Protocol.State, step: Step, poolSize: nat)
    requires Protocol.Enabled(s, step, poolSize) && |s.tasks| <= 1 && (|s.tasks| == 1 <==> s.refilling)
    requires m.tickets <= s.checked && m.clearing <= s.clearing && (m.task ==> s.tasks != [])
    requires step.Reserve? ==> step.caller !in m.tickets
    requires step.ClearDeadline? ==> s.clearing > m.clearing
    requires m.task ==> !Protocol.IsTaskStep(step)
    ensures var t := Protocol.After(s, step, poolSize);
      && m.tickets <= t.checked && m.clearing <= t.clearing && (m.task ==> t.tasks == s.tasks)
  {
  }

  /** Every start and every answer brings a batch nearer to its end. */
  function AttemptsLeft(t: Protocol.Phase): nat
    requires t.Dialling?
  {
    (if t.started < t.needed then 2 * (t.needed - t.started) else 0) + t.flying
  }

  lemma OneTaskStep(s: Protocol.State, step: Step, poolSize: nat)
    requires |s.tasks| == 1 && Protocol.IsTaskStep(step) && step.task == 0 && Protocol.TaskEnabled(s.tasks[0], step)
    requires !step.Release? && !step.Abort?
    ensures Protocol.Enabled(s, step, poolSize)
    ensures Protocol.After(s, step, poolSize).tasks == [Protocol.TaskAfter(s, s.tasks[0], step, poolSize)]
  {
  }

  lemma Reserving(s: Protocol.State, c: nat, poolSize: nat)
    requires Protocol.Enabled(s, Protocol.Reserve(c), poolSize) && |s.tasks| == (if s.refilling then 1 else 0)
    ensures var t := Protocol.After(s, Protocol.Reserve(c), poolSize);
      && t.idle == s.idle && t.refilling && (!s.refilling ==> t.tasks == [Protocol.Reserved])
  {
  }

  /** Since moment `n` of a history, `step` was made on the bucket of `k`. */
  ghost predicate Since(history: seq<Action<Key, Step>>, n: nat, k: Key, step: Step)
  {
    exists i :: n <= i < |history| && history[i] == Action(k, step)
  }

  lemma StillSince(before: seq<Action<Key, Step>>, history: seq<Action<Key, Step>>, n: nat, k: Key, step: Step)
    requires before <= history && Since(before, n, k, step)
    ensures Since(history, n, k, step)
  {
    var i :| n <= i < |before| && before[i] == Action(k, step);
    assert history[i] == Action(k, step);
  }

  class WsPool {
    const poolSize: nat
    const maxAge: nat
    /** Whether anybody else uses the pool at the same time. */
    const shared: bool
    var idle: map<Key, Bucket>
    var refilling: set<Key>
    var refillFailures: map<Key, nat>
    var refillAfter: map<Key, nat>
    var cfIdle: map<CfKey, Bucket>
    var cfRefilling: set<CfKey>
    // Specification only: everything anybody did to the buckets.
    var history: seq<Action<Key, Step>>
    var cfHistory: seq<Action<CfKey, CfStep>>

    constructor (poolSize: nat, maxAge: nat, shared: bool)
      ensures this.poolSize == poolSize && this.maxAge == maxAge && this.shared == shared
      ensures Valid() && history == [] && cfHistory == []
    {
      this.poolSize, this.maxAge, this.shared := poolSize, maxAge, shared;
      idle, refilling, refillFailures, refillAfter := map[], {}, map[], map[];
      cfIdle, cfRefilling, history, cfHistory := map[], {}, [], [];
    }

    // ---------------------------------------------------------------- views

    /** A bucket that was never touched counts as empty. */
    function BucketOf(k: Key): Bucket
      reads this`idle
    {
      if k in idle then idle[k] else []
    }

    function CfBucketOf(k: CfKey): Bucket
      reads this`cfIdle
    {
      if k in cfIdle then cfIdle[k] else []
    }

    /** The bucket of `k` is in state `s`, as far as the fields can tell. */
    predicate Shows(k: Key, s: Protocol.State)
      reads this`idle, this`refilling, this`refillFailures, this`refillAfter
    {
      && BucketOf(k) == s.idle && (k in refilling <==> s.refilling)
      && s.failures == (if k in refillFailures then refillFailures[k] else 0)
      && s.deadline == (if k in refillAfter then Some(refillAfter[k]) else None)
    }

    predicate CfShows(k: CfKey, s: CfProtocol.State)
      reads this`cfIdle, this`cfRefilling
    {
      CfBucketOf(k) == s.idle && (k in cfRefilling <==> s.refilling)
    }

    ghost predicate Valid()
      reads this
    {
      && Protocol.IsRun(history, poolSize)
      && (forall k :: Shows(k, Protocol.At(history, k, poolSize)))
      && CfProtocol.IsRun(cfHistory, CfBudget())
      && (forall k :: CfShows(k, CfProtocol.At(cfHistory, k, CfBudget())))
    }

    function CfBudget(): nat { Budget.CfBudget(poolSize) }

    function View(k: Key): Protocol.State
      requires Valid()
      reads this
    {
      Protocol.At(history, k, poolSize)
    }

    function CfView(k: CfKey): CfProtocol.State
      requires Valid()
      reads this
    {
      CfProtocol.At(cfHistory, k, CfBudget())
    }

    /** The bounds of the protocol are bounds on the object, whoever has used it. */
    lemma Bounds(k: Key, c: CfKey)
      requires Valid()
      ensures |BucketOf(k)| <= Protocol.Fds(View(k)) <= 2 * poolSize && |CfBucketOf(c)| <= CfBudget()
      ensures (k in refilling <==> |View(k).tasks| == 1) && |View(k).tasks| <= 1
      ensures |CfView(c).tasks| <= 1
    {
      Protocol.BucketBounds(history, poolSize, k);
      CfProtocol.CfBucketBounds(cfHistory, CfBudget(), c);
      assert Shows(k, View(k)) && CfShows(c, CfView(c));
    }

    /** One step was made on the bucket of `k`, and nothing else happened. */
    twostate predicate Did(k: Key, step: Step)
      reads this
    {
      && old(Valid()) && Valid()
      && history == old(history) + [Action(k, step)] && cfHistory == old(cfHistory)
      && Protocol.Enabled(old(View(k)), step, poolSize)
      && View(k) == Protocol.After(old(View(k)), step, poolSize)
      && forall q :: q != k ==> View(q) == old(View(q))
    }

    twostate predicate CfDid(k: CfKey, step: CfStep)
      reads this
    {
      && old(Valid()) && Valid()
      && cfHistory == old(cfHistory) + [Action(k, step)] && history == old(history)
      && CfProtocol.Enabled(old(CfView(k)), step, CfBudget())
      && CfView(k) == CfProtocol.After(old(CfView(k)), step, CfBudget())
      && forall q :: q != k ==> CfView(q) == old(CfView(q))
    }

    /** Where the fields show a step of `k` after the history `was`, the object is valid again. */
    lemma Moved(was: seq<Action<Key, Step>>, k: Key, step: Step)
      requires Protocol.IsRun(was, poolSize) && Protocol.Enabled(Protocol.At(was, k, poolSize), step, poolSize)
      requires history == was + [Action(k, step)]
      requires Shows(k, Protocol.After(Protocol.At(was, k, poolSize), step, poolSize))
      requires forall q :: q != k ==> Shows(q, Protocol.At(was, q, poolSize))
      requires CfProtocol.IsRun(cfHistory, CfBudget())
      requires forall c :: CfShows(c, CfProtocol.At(cfHistory, c, CfBudget()))
      ensures Valid() && View(k) == Protocol.After(Protocol.At(was, k, poolSize), step, poolSize)
      ensures forall q :: q != k ==> View(q) == Protocol.At(was, q, poolSize)
    {
      Protocol.RunOn(was, k, step, poolSize);
    }

    // ---------------------------------------------- critical sections, direct

    /** `get` under the lock of `idle`: pops from the back until a usable connection turns up. */
    method PopFresh(k: Key, now: nat, closed: Entry -> bool) returns (hit: Option<Entry>)
      requires Valid()
      modifies this`idle, this`history
      ensures Did(k, Protocol.Take(now, maxAge, closed))
      ensures hit == TakeFreshest(old(BucketOf(k)), now, maxAge, closed).0
      ensures LastGood(old(BucketOf(k)), now, maxAge, closed, hit)
    {
      assert Shows(k, View(k));
      TakesLastGood(BucketOf(k), now, maxAge, closed);
      var step := Protocol.Take(now, maxAge, closed);
      var left;
      hit, left := PopUsable(BucketOf(k), now, maxAge, closed);
      idle := idle[k := left];
      history := history + [Action(k, step)];
      Moved(old(history), k, step);
    }

    /** The part of `maintain` that looks at one bucket. */
    method Prune(k: Key, now: nat, closed: Entry -> bool) returns (short: bool)
      requires Valid()
      modifies this`idle, this`history
      ensures Did(k, Protocol.Prune(now, maxAge, closed)) && (short <==> |View(k).idle| < poolSize)
      ensures KeepsGood(old(BucketOf(k)), now, maxAge, closed, BucketOf(k))
      ensures TakeFreshest(BucketOf(k), now, maxAge, closed).0 == TakeFreshest(old(BucketOf(k)), now, maxAge, closed).0
    {
      assert Shows(k, View(k));
      var step := Protocol.Prune(now, maxAge, closed);
      var kept := RetainUsable(BucketOf(k), now, maxAge, closed);
      idle := idle[k := kept];
      short := |kept| < poolSize;
      history := history + [Action(k, step)];
      Moved(old(history), k, step);
    }

    /** `report_success` under its first lock. */
    method ForgetFailures(k: Key)
      requires Valid()
      modifies this`refillFailures, this`history
      ensures Did(k, Protocol.ClearFailures)
    {
      assert Shows(k, View(k));
      refillFailures := refillFailures - {k};
      history := history + [Action(k, Protocol.ClearFailures)];
      Moved(old(history), k, Protocol.ClearFailures);
    }

    /** And under its second. */
    method ForgetDeadline(k: Key)
      requires Valid() && View(k).clearing > 0
      modifies this`refillAfter, this`history
      ensures Did(k, Protocol.ClearDeadline)
    {
      assert Shows(k, View(k));
      refillAfter := refillAfter - {k};
      history := history + [Action(k, Protocol.ClearDeadline)];
      Moved(old(history), k, Protocol.ClearDeadline);
    }

    /** The first critical section of `reserve_refill`: a deadline that stands refuses, a passed one is forgotten. */
    method PassDeadline(k: Key, now: nat) returns (ok: bool)
      requires Valid() && poolSize > 0
      modifies this`refillAfter, this`history
      ensures ok <==> !Blocked(old(View(k)).deadline, now)
      ensures ok <==> !(k in old(refillAfter) && now < old(refillAfter)[k])
      ensures ok ==> Did(k, Protocol.PassDeadline(now)) && old(View(k).clock) in View(k).checked
      ensures !ok ==> unchanged(this)
    {
      assert Shows(k, View(k));
      if k in refillAfter && now < refillAfter[k] {
        return false;
      }
      refillAfter := refillAfter - {k};
      history := history + [Action(k, Protocol.PassDeadline(now))];
      Moved(old(history), k, Protocol.PassDeadline(now));
      return true;
    }

    /** The second, by the caller that passed at moment `c`. */
    method Reserve(k: Key, c: nat) returns (spawn: bool)
      requires Valid() && c in View(k).checked
      modifies this`refilling, this`history
      ensures Did(k, Protocol.Reserve(c)) && (spawn <==> !old(View(k)).refilling)
    {
      assert Shows(k, View(k));
      spawn := k !in refilling;
      refilling := refilling + {k};
      history := history + [Action(k, Protocol.Reserve(c))];
      Moved(old(history), k, Protocol.Reserve(c));
    }

    /** A refill task looks at its bucket once. */
    method Needed(k: Key) returns (needed: nat)
      requires Valid() && Protocol.Enabled(View(k), Protocol.Check(0), poolSize)
      modifies this`history
      ensures Did(k, Protocol.Check(0))
      ensures View(k).tasks[0] == if needed == 0 then Protocol.Finished else Protocol.Dialling(needed, 0, 0, [])
    {
      assert Shows(k, View(k));
      var current := if k in idle then |idle[k]| else 0;
      needed := if current >= poolSize then 0 else poolSize - current;
      history := history + [Action(k, Protocol.Check(0))];
      Moved(old(history), k, Protocol.Check(0));
    }

    /** `report_refill_failure` under its first lock. */
    method CountFailure(k: Key) returns (failures: nat)
      requires Valid() && Protocol.Enabled(View(k), Protocol.CountFailure(0), poolSize)
      modifies this`refillFailures, this`history
      ensures Did(k, Protocol.CountFailure(0)) && View(k).tasks[0] == Protocol.Counted(failures)
      ensures failures == Protocol.OneMoreFailure(old(View(k)).failures)
    {
      assert Shows(k, View(k));
      Saturated(k);
      failures := if k in refillFailures then refillFailures[k] else 0;
      failures := if failures < MAX_FAILURES then failures + 1 else MAX_FAILURES;
      refillFailures := refillFailures[k := failures];
      history := history + [Action(k, Protocol.CountFailure(0))];
      Moved(old(history), k, Protocol.CountFailure(0));
    }

    lemma Saturated(k: Key)
      requires Valid()
      ensures View(k).failures <= MAX_FAILURES
    {
      Protocol.BackoffOfWalk(For(history, k), poolSize);
    }

    /** And under its second, with the count it took along. */
    method SetDeadline(k: Key, failures: nat, now: nat)
      requires Valid() && View(k).tasks != [] && View(k).tasks[0] == Protocol.Counted(failures)
      modifies this`refillAfter, this`history
      ensures Did(k, Protocol.SetDeadline(0, now)) && View(k).deadline == Some(now + 1000 * Delay(failures))
    {
      assert Shows(k, View(k));
      var seconds := BACKOFF_INITIAL * Pow2(Min(if failures == 0 then 0 else failures - 1, 12));
      if seconds > BACKOFF_MAX {
        seconds := BACKOFF_MAX;
      }
      refillAfter := refillAfter[k := now + seconds * SECOND];
      history := history + [Action(k, Protocol.SetDeadline(0, now))];
      Moved(old(history), k, Protocol.SetDeadline(0, now));
    }

    /** The success report of a refill task, lock by lock. */
    method RefillOkFailures(k: Key)
      requires Valid() && Protocol.Enabled(View(k), Protocol.OkFailures(0), poolSize)
      modifies this`refillFailures, this`history
      ensures Did(k, Protocol.OkFailures(0))
    {
      assert Shows(k, View(k));
      refillFailures := refillFailures - {k};
      history := history + [Action(k, Protocol.OkFailures(0))];
      Moved(old(history), k, Protocol.OkFailures(0));
    }

    method RefillOkDeadline(k: Key)
      requires Valid() && Protocol.Enabled(View(k), Protocol.OkDeadline(0), poolSize)
      modifies this`refillAfter, this`history
      ensures Did(k, Protocol.OkDeadline(0))
    {
      assert Shows(k, View(k));
      refillAfter := refillAfter - {k};
      history := history + [Action(k, Protocol.OkDeadline(0))];
      Moved(old(history), k, Protocol.OkDeadline(0));
    }

    /** A refill task lands what it opened; surplus connections are dropped. */
    method LandRefill(k: Key, conns: Bucket)
      requires Valid() && View(k).tasks != [] && View(k).tasks[0] == Protocol.Reported(conns)
      modifies this`idle, this`history
      ensures Did(k, Protocol.Land(0))
    {
      assert Shows(k, View(k));
      var bucket := BucketOf(k);
      var canAdd := if |bucket| < poolSize then poolSize - |bucket| else 0;
      bucket := PushUpTo(bucket, conns, canAdd);
      Protocol.Lands(View(k), conns, poolSize);
      idle := idle[k := bucket];
      history := history + [Action(k, Protocol.Land(0))];
      Moved(old(history), k, Protocol.Land(0));
    }

    /** Warmup pushes whatever it opened, without looking at the bucket again. */
    method LandWarmup(k: Key, conns: Bucket)
      requires Valid() && View(k).warm == Protocol.WarmDialled(conns)
      modifies this`idle, this`history
      ensures Did(k, Protocol.WarmLand)
      ensures BucketOf(k) == old(BucketOf(k)) + conns
    {
      assert Shows(k, View(k));
      var bucket := PushUpTo(BucketOf(k), conns, |conns|);
      assert conns[..|conns|] == conns;
      idle := idle[k := bucket];
      history := history + [Action(k, Protocol.WarmLand)];
      Moved(old(history), k, Protocol.WarmLand);
    }

    /** How the guard of a refill task leaves: at its end, or wherever it was cut off. */
    function Leaving(k: Key): Step
      requires Valid() && View(k).tasks != []
      reads this
    {
      if View(k).tasks[0].Finished? then Protocol.Release(0) else Protocol.Abort(0)
    }

    /** `RefillGuard::drop`: on every exit the task is gone and its bucket unmarked. */
    method ReleaseGuard(k: Key)
      requires Valid() && View(k).tasks != []
      modifies this`refilling, this`history
      ensures Did(k, old(Leaving(k))) && View(k).tasks == [] && k !in refilling
    {
      assert Shows(k, View(k));
      Bounds(k, CfKey(Worker, k));
      var step := Leaving(k);
      refilling := refilling - {k};
      history := history + [Action(k, step)];
      Moved(old(history), k, step);
    }

    /** What happens outside every lock leaves the fields alone: dialling, and the start of the warmup. */
    method Outside(k: Key, step: Step)
      requires Valid() && Protocol.Enabled(View(k), step, poolSize) && IsOutside(step)
      modifies this`history
      ensures Did(k, step)
    {
      assert Shows(k, View(k));
      history := history + [Action(k, step)];
      Moved(old(history), k, step);
    }

    // ------------------------------------------ critical sections, Cloudflare

    lemma CfMoved(was: seq<Action<CfKey, CfStep>>, k: CfKey, step: CfStep)
      requires CfProtocol.IsRun(was, CfBudget())
        && CfProtocol.Enabled(CfProtocol.At(was, k, CfBudget()), step, CfBudget())
      requires cfHistory == was + [Action(k, step)]
      requires CfShows(k, CfProtocol.After(CfProtocol.At(was, k, CfBudget()), step, CfBudget()))
      requires forall q :: q != k ==> CfShows(q, CfProtocol.At(was, q, CfBudget()))
      requires Protocol.IsRun(history, poolSize)
      requires forall c :: Shows(c, Protocol.At(history, c, poolSize))
      ensures Valid() && CfView(k) == CfProtocol.After(CfProtocol.At(was, k, CfBudget()), step, CfBudget())
      ensures forall q :: q != k ==> CfView(q) == CfProtocol.At(was, q, CfBudget())
    {
      CfProtocol.RunOn(was, k, step, CfBudget());
    }

    /** `cf_get` under its lock. */
    method CfPopFresh(k: CfKey, now: nat, closed: Entry -> bool) returns (hit: Option<Entry>)
      requires Valid()
      modifies this`cfIdle, this`cfHistory
      ensures CfDid(k, CfProtocol.Take(now, closed))
      ensures hit == TakeFreshest(old(CfBucketOf(k)), now, CF_MAX_AGE, closed).0
      ensures LastGood(old(CfBucketOf(k)), now, 100_000, closed, hit)
    {
      assert CfShows(k, CfView(k));
      var step := CfProtocol.Take(now, closed);
      var left;
      TakesLastGood(CfBucketOf(k), now, CF_MAX_AGE, closed);
      hit, left := PopUsable(CfBucketOf(k), now, CF_MAX_AGE, closed);
      if k in cfIdle {
        cfIdle := cfIdle[k := left];
      }
      assert CfBucketOf(k) == left && forall q :: q != k ==> CfBucketOf(q) == old(CfBucketOf(q));
      cfHistory := cfHistory + [Action(k, step)];
      CfMoved(old(cfHistory), k, step);
    }

    /** `cf_prefetch`, up to spawning its task. */
    method CfPrefetch(k: CfKey) returns (spawn: bool)
      requires Valid()
      modifies this`cfRefilling, this`cfHistory
      ensures poolSize == 0 ==> !spawn && unchanged(this)
      ensures poolSize > 0 ==> CfDid(k, CfProtocol.Prefetch) && (spawn <==> !old(CfView(k)).refilling)
    {
      if poolSize == 0 {
        return false;
      }
      assert CfShows(k, CfView(k));
      spawn := k !in cfRefilling;
      cfRefilling := cfRefilling + {k};
      cfHistory := cfHistory + [Action(k, CfProtocol.Prefetch)];
      CfMoved(old(cfHistory), k, CfProtocol.Prefetch);
    }

    /** The first look of `cf_refill_reserved`. */
    method CfCheck(k: CfKey) returns (wanted: bool)
      requires Valid() && CfProtocol.Enabled(CfView(k), CfProtocol.Check(0), CfBudget())
      modifies this`cfHistory
      ensures CfDid(k, CfProtocol.Check(0)) && (wanted <==> CfView(k).tasks[0].Flying?)
    {
      assert CfShows(k, CfView(k));
      wanted := !(|CfBucketOf(k)| >= CfBudget());
      cfHistory := cfHistory + [Action(k, CfProtocol.Check(0))];
      CfMoved(old(cfHistory), k, CfProtocol.Check(0));
    }

    /** Its landing: a surplus connection is dropped. */
    method CfLand(k: CfKey, conn: Entry)
      requires Valid() && CfView(k).tasks != [] && CfView(k).tasks[0] == CfProtocol.Ready(conn)
      modifies this`cfIdle, this`cfHistory
      ensures CfDid(k, CfProtocol.Land(0))
    {
      assert CfShows(k, CfView(k));
      var bucket := CfBucketOf(k);
      if |bucket| < CfBudget() {
        bucket := bucket + [conn];
      }
      cfIdle := cfIdle[k := bucket];
      cfHistory := cfHistory + [Action(k, CfProtocol.Land(0))];
      CfMoved(old(cfHistory), k, CfProtocol.Land(0));
    }

    function CfLeaving(k: CfKey): CfStep
      requires Valid() && CfView(k).tasks != []
      reads this
    {
      if CfView(k).tasks[0].Finished? then CfProtocol.Release(0) else CfProtocol.Abort(0)
    }

    /** The guard of a Cloudflare refill. */
    method CfReleaseGuard(k: CfKey)
      requires Valid() && CfView(k).tasks != []
      modifies this`cfRefilling, this`cfHistory
      ensures CfDid(k, old(CfLeaving(k))) && CfView(k).tasks == [] && k !in cfRefilling
    {
      assert CfShows(k, CfView(k));
      CfProtocol.CfBucketBounds(cfHistory, CfBudget(), k);
      var step := CfLeaving(k);
      cfRefilling := cfRefilling - {k};
      cfHistory := cfHistory + [Action(k, step)];
      CfMoved(old(cfHistory), k, step);
    }

    /** A dial that comes back. */
    method CfOutside(k: CfKey, step: CfStep)
      requires Valid() && CfProtocol.Enabled(CfView(k), step, CfBudget()) && (step.Connected? || step.Failed?)
      modifies this`cfHistory
      ensures CfDid(k, step)
    {
      assert CfShows(k, CfView(k));
      cfHistory := cfHistory + [Action(k, step)];
      CfMoved(old(cfHistory), k, step);
    }

    // ------------------------------------------------------ the other callers

    /** Makes any step of the protocol, through the critical section that performs it. */
    method Perform(k: Key, step: Step)
      requires Valid() && Protocol.Enabled(View(k), step, poolSize)
      requires step.Take? || step.Prune? ==> step.maxAge == maxAge
      modifies this
      ensures Did(k, step)
    {
      if IsOutside(step) {
        Outside(k, step);
      } else if Protocol.IsTaskStep(step) {
        PerformTask(k, step);
      } else {
        match step
        case Take(now, _, closed) => var hit := PopFresh(k, now, closed);
        case Prune(now, _, closed) => var short := Prune(k, now, closed);
        case ClearFailures => ForgetFailures(k);
        case ClearDeadline => ForgetDeadline(k);
        case PassDeadline(now) => var ok := PassDeadline(k, now);
        case Reserve(c) => var spawn := Reserve(k, c);
        case WarmLand => LandWarmup(k, View(k).warm.ready);
      }
    }

    method PerformTask(k: Key, step: Step)
      requires Valid() && Protocol.Enabled(View(k), step, poolSize) && Protocol.IsTaskStep(step) && !IsOutside(step)
      modifies this
      ensures Did(k, step)
    {
      Bounds(k, CfKey(Worker, k));
      assert step.task == 0;
      match step
      case Check(_) => var needed := Needed(k);
      case CountFailure(_) => var failures := CountFailure(k);
      case SetDeadline(_, now) => SetDeadline(k, View(k).tasks[0].failures, now);
      case OkFailures(_) => RefillOkFailures(k);
      case OkDeadline(_) => RefillOkDeadline(k);
      case Land(_) => LandRefill(k, View(k).tasks[0].ready);
      case Release(_) => ReleaseGuard(k);
      case Abort(_) => Cut(k);
    }

    /** A task that is cut off at any point drops its guard too. */
    method Cut(k: Key)
      requires Valid() && View(k).tasks != []
      modifies this`refilling, this`history
      ensures Did(k, Protocol.Abort(0))
    {
      assert Shows(k, View(k));
      Bounds(k, CfKey(Worker, k));
      refilling := refilling - {k};
      history := history + [Action(k, Protocol.Abort(0))];
      Moved(old(history), k, Protocol.Abort(0));
    }

    /** What one caller is in the middle of, so that nobody else can do it. */
    predicate Owns(m: Mine)
      requires Valid()
      reads this
    {
      m.tickets <= View(m.k).checked && m.clearing <= View(m.k).clearing && (m.task ==> View(m.k).tasks != [])
    }

    /** A step that is none of that caller's own business. */
    predicate Free(m: Mine, k: Key, step: Step)
      requires Valid()
      reads this
    {
      k == m.k ==>
        && (step.Reserve? ==> step.caller !in m.tickets)
        && (step.ClearDeadline? ==> View(k).clearing > m.clearing)
        && (m.task ==> !Protocol.IsTaskStep(step))
    }

    /** All the others, any number of steps, between two locks of one caller. */
    method Others(m: Mine)
      requires Valid() && Owns(m)
      modifies this
      ensures Valid() && Owns(m) && old(history) <= history && cfHistory == old(cfHistory)
      ensures m.task ==> View(m.k).tasks == old(View(m.k).tasks)
      ensures !shared ==> unchanged(this)
    {
      if !shared {
        return;
      }
      var steps: nat :| true;
      for i := 0 to steps
        invariant Valid() && Owns(m) && old(history) <= history && cfHistory == old(cfHistory)
        invariant m.task ==> View(m.k).tasks == old(View(m.k).tasks)
      {
        OtherStep(m);
      }
    }

    method OtherStep(m: Mine)
      requires Valid() && Owns(m)
      modifies this
      ensures Valid() && Owns(m) && old(history) <= history && cfHistory == old(cfHistory)
      ensures m.task ==> View(m.k).tasks == old(View(m.k).tasks)
    {
      var k: Key :| true;
      var step: Step :| true;
      if Protocol.Enabled(View(k), step, poolSize) && Free(m, k, step)
        && (step.Take? || step.Prune? ==> step.maxAge == maxAge) {
        ghost var before := View(m.k);
        Bounds(m.k, CfKey(Worker, m.k));
        Perform(k, step);
        if k == m.k {
          FreeKeeps(m, before, step, poolSize);
        }
      }
    }

    // ------------------------------------------------------- whole operations

    /** `report_success`: two locks, one after the other. */
    method ReportSuccess(k: Key)
      requires Valid()
      modifies this
      ensures Valid() && old(history) <= history && cfHistory == old(cfHistory)
      ensures Since(history, |old(history)|, k, Protocol.ClearFailures)
        && Since(history, |old(history)|, k, Protocol.ClearDeadline)
      ensures View(k).deadline == None
      ensures !shared ==>
        && View(k).failures == 0 && View(k).idle == old(View(k)).idle
        && View(k).refilling == old(View(k)).refilling
    {
      ForgetFailures(k);
      assert history[|old(history)|] == Action(k, Protocol.ClearFailures);
      Others(Mine(k, {}, 1, false));
      ForgetDeadline(k);
      assert history[|history| - 1] == Action(k, Protocol.ClearDeadline);
    }

    /**
     * `schedule_refill`, up to spawning the task: too soon exactly under a
     * deadline in force at the first lock; then the reservation, `before` being
     * the bucket as the second lock finds it.
     */
    method ScheduleRefill(k: Key, now: nat) returns (r: Scheduled, ghost before: Protocol.State)
      requires Valid()
      modifies this
      ensures Valid() && old(history) <= history && cfHistory == old(cfHistory)
      ensures r.Off? <==> poolSize == 0
      ensures r.TooSoon? <==> poolSize > 0 && Blocked(old(View(k)).deadline, now)
      ensures r.Off? || r.TooSoon? ==> unchanged(this)
      ensures r.Busy? || r.Spawned? ==>
        && Since(history, |old(history)|, k, Protocol.PassDeadline(now))
        && Protocol.Enabled(before, Protocol.Reserve(old(View(k)).clock), poolSize)
        && View(k) == Protocol.After(before, Protocol.Reserve(old(View(k)).clock), poolSize)
        && (r.Busy? <==> before.refilling)
      ensures r.Spawned? ==> View(k).tasks == [Protocol.Reserved]
      ensures r.Busy? ==> View(k).refilling
      ensures !shared ==>
        && View(k).idle == old(View(k)).idle && View(k).refilling == (old(View(k)).refilling || r.Spawned?)
        && (r.Busy? || r.Spawned? ==> (r.Busy? <==> old(View(k)).refilling))
    {
      before := View(k);
      if poolSize == 0 {
        return Off, before;
      }
      var c := View(k).clock;
      var ok := PassDeadline(k, now);
      if !ok {
        return TooSoon, before;
      }
      ghost var passed := history;
      Protocol.Passes(before, now, poolSize);
      assert passed[|old(history)|] == Action(k, Protocol.PassDeadline(now));
      r, before := TakeSlot(k, c);
      StillSince(passed, history, |old(history)|, k, Protocol.PassDeadline(now));
    }

    /** The second half of `reserve_refill`, with the others in between. */
    method TakeSlot(k: Key, c: nat) returns (r: Scheduled, ghost before: Protocol.State)
      requires Valid() && c in View(k).checked
      modifies this
      ensures Valid() && old(history) <= history && cfHistory == old(cfHistory)
      ensures Protocol.Enabled(before, Protocol.Reserve(c), poolSize)
      ensures View(k) == Protocol.After(before, Protocol.Reserve(c), poolSize)
      ensures (r.Busy? <==> before.refilling) && (r.Spawned? <==> !before.refilling)
      ensures View(k).refilling && (r.Spawned? ==> View(k).tasks == [Protocol.Reserved])
      ensures !shared ==> before == old(View(k)) && View(k).idle == before.idle
    {
      Others(Mine(k, {c}, 0, false));
      before := View(k);
      Bounds(k, CfKey(Worker, k));
      Reserving(before, c, poolSize);
      var spawn := Reserve(k, c);
      r := if spawn then Spawned else Busy;
    }

    /**
     * `get`: a hit is reported as a success; hit or miss, a refill is scheduled
     * if the caller allows it. `now` and `later` are its two clock readings.
     */
    method Get(k: Key, now: nat, later: nat, closed: Entry -> bool, allowRefill: bool)
      returns (hit: Option<Entry>, r: Scheduled)
      requires Valid()
      modifies this
      ensures Valid() && old(history) <= history && cfHistory == old(cfHistory)
      ensures hit == TakeFreshest(old(BucketOf(k)), now, maxAge, closed).0
      ensures Since(history, |old(history)|, k, Protocol.Take(now, maxAge, closed))
      ensures hit.Some? ==>
        Since(history, |old(history)|, k, Protocol.ClearFailures)
          && Since(history, |old(history)|, k, Protocol.ClearDeadline)
      ensures !allowRefill || poolSize == 0 <==> r.Off?
      ensures r.Spawned? ==> View(k).tasks == [Protocol.Reserved]
      ensures r.Busy? ==> k in refilling
      // With nobody else at the pool the outcome is a function of the old state.
      ensures !shared ==>
        && BucketOf(k) == TakeFreshest(old(BucketOf(k)), now, maxAge, closed).1
        && (r.Spawned? <==> allowRefill && poolSize > 0 && k !in old(refilling)
                            && (hit.Some? || !Blocked(old(View(k)).deadline, later)))
    {
      hit := Hand(k, now, closed);
      ghost var handed := history;
      r := Off;
      if allowRefill {
        ghost var before;
        r, before := ScheduleRefill(k, later);
      }
      Bounds(k, CfKey(Worker, k));
      assert Shows(k, View(k));
      StillSince(handed, history, |old(history)|, k, Protocol.Take(now, maxAge, closed));
      if hit.Some? {
        StillSince(handed, history, |old(history)|, k, Protocol.ClearFailures);
        StillSince(handed, history, |old(history)|, k, Protocol.ClearDeadline);
      }
    }

    /** That report, and then anybody else's turn. */
    method TellSuccess(k: Key)
      requires Valid()
      modifies this
      ensures Valid() && old(history) <= history && cfHistory == old(cfHistory)
      ensures Since(history, |old(history)|, k, Protocol.ClearFailures)
        && Since(history, |old(history)|, k, Protocol.ClearDeadline)
      ensures !shared ==>
        && View(k).deadline == None && View(k).idle == old(View(k)).idle
        && View(k).refilling == old(View(k)).refilling
    {
      ReportSuccess(k);
      ghost var told := history;
      Others(NOTHING);
      StillSince(told, history, |old(history)|, k, Protocol.ClearFailures);
      StillSince(told, history, |old(history)|, k, Protocol.ClearDeadline);
    }

    /** The first half of `get`: a connection is handed out and reported. */
    method Hand(k: Key, now: nat, closed: Entry -> bool) returns (hit: Option<Entry>)
      requires Valid()
      modifies this
      ensures Valid() && old(history) <= history && cfHistory == old(cfHistory)
      ensures hit == TakeFreshest(old(BucketOf(k)), now, maxAge, closed).0
      ensures Since(history, |old(history)|, k, Protocol.Take(now, maxAge, closed))
      ensures hit.Some? ==>
        Since(history, |old(history)|, k, Protocol.ClearFailures)
          && Since(history, |old(history)|, k, Protocol.ClearDeadline)
      ensures !shared ==>
        && View(k).idle == TakeFreshest(old(BucketOf(k)), now, maxAge, closed).1
        && View(k).refilling == old(View(k)).refilling
        && View(k).deadline == (if hit.Some? then None else old(View(k)).deadline)
    {
      assert Shows(k, View(k));
      Protocol.Takes(View(k), now, maxAge, closed, poolSize);
      hit := PopFresh(k, now, closed);
      ghost var taken := history;
      assert taken[|old(history)|] == Action(k, Protocol.Take(now, maxAge, closed));
      Others(NOTHING);
      if hit.Some? {
        TellSuccess(k);
      }
      StillSince(taken, history, |old(history)|, k, Protocol.Take(now, maxAge, closed));
    }

    /**
     * `refill_reserved`, the task itself, while everybody else goes on. However
     * its dials turn out, when it ends its bucket is unmarked; and what it leaves
     * in the bucket keeps within the bounds of the protocol.
     */
    method RefillReserved(k: Key, now: nat)
      requires Valid() && View(k).tasks == [Protocol.Reserved]
      modifies this
      ensures Valid() && old(history) <= history && cfHistory == old(cfHistory)
      ensures View(k).tasks == [] && k !in refilling
      ensures |history| > |old(history)| && history[|history| - 1] == Action(k, Protocol.Release(0))
    {
      FillBucket(k, now);
      Others(Mine(k, {}, 0, true));
      ReleaseGuard(k);
    }

    /** That task up to the drop of its guard. */
    method FillBucket(k: Key, now: nat)
      requires Valid() && View(k).tasks == [Protocol.Reserved]
      modifies this
      ensures Valid() && old(history) <= history && cfHistory == old(cfHistory)
      ensures View(k).tasks == [Protocol.Finished]
    {
      var needed := Needed(k);
      if needed > 0 {
        var conns := ConnectBatch(k);
        ReportBatch(k, conns, now);
      }
    }

    /** The rest of the task: the failure or success report, lock by lock, and the landing. */
    method ReportBatch(k: Key, conns: Bucket, now: nat)
      requires Valid() && View(k).tasks == [Protocol.Dialled(conns)]
      modifies this
      ensures Valid() && old(history) <= history && cfHistory == old(cfHistory)
      ensures View(k).tasks == [Protocol.Finished]
      ensures
        Since(history, |old(history)|, k, if conns == [] then Protocol.SetDeadline(0, now) else Protocol.OkDeadline(0))
    {
      Others(Mine(k, {}, 0, true));
      if conns == [] {
        var failures := ReportRefillFailure(k, now);
      } else {
        ReportRefillSuccess(k, conns);
        ghost var reported := history;
        Others(Mine(k, {}, 0, true));
        OneTaskStep(View(k), Protocol.Land(0), poolSize);
        LandRefill(k, conns);
        StillSince(reported, history, |old(history)|, k, Protocol.OkDeadline(0));
      }
    }

    /** `report_refill_failure`: the count is taken along from the first lock to the second. */
    method ReportRefillFailure(k: Key, now: nat) returns (failures: nat)
      requires Valid() && View(k).tasks == [Protocol.Dialled([])]
      modifies this
      ensures Valid() && old(history) <= history && cfHistory == old(cfHistory)
      ensures View(k).tasks == [Protocol.Finished]
      ensures Since(history, |old(history)|, k, Protocol.SetDeadline(0, now))
      ensures failures == Protocol.OneMoreFailure(old(View(k)).failures)
      ensures View(k).deadline == Some(now + 1000 * Delay(failures))
    {
      OneTaskStep(View(k), Protocol.CountFailure(0), poolSize);
      failures := CountFailure(k);
      Others(Mine(k, {}, 0, true));
      OneTaskStep(View(k), Protocol.SetDeadline(0, now), poolSize);
      SetDeadline(k, failures, now);
      assert history[|history| - 1] == Action(k, Protocol.SetDeadline(0, now));
    }

    /** `report_success` of a refill task. */
    method ReportRefillSuccess(k: Key, conns: Bucket)
      requires Valid() && View(k).tasks == [Protocol.Dialled(conns)] && conns != []
      modifies this
      ensures Valid() && old(history) <= history && cfHistory == old(cfHistory)
      ensures View(k).tasks == [Protocol.Reported(conns)] && View(k).deadline == None
      ensures Since(history, |old(history)|, k, Protocol.OkDeadline(0))
    {
      OneTaskStep(View(k), Protocol.OkFailures(0), poolSize);
      RefillOkFailures(k);
      Others(Mine(k, {}, 0, true));
      OneTaskStep(View(k), Protocol.OkDeadline(0), poolSize);
      RefillOkDeadline(k);
      assert history[|history| - 1] == Action(k, Protocol.OkDeadline(0));
    }

    /** `connect_batch`: up to two attempts in flight, until one fails or all have come back. */
    method ConnectBatch(k: Key) returns (conns: Bucket)
      requires Valid() && |View(k).tasks| == 1 && View(k).tasks[0].Dialling?
      modifies this
      ensures Valid() && old(history) <= history && cfHistory == old(cfHistory)
      ensures View(k).tasks == [Protocol.Dialled(conns)]
    {
      while true
        invariant Valid() && old(history) <= history && cfHistory == old(cfHistory)
        invariant |View(k).tasks| == 1 && View(k).tasks[0].Dialling?
        decreases AttemptsLeft(View(k).tasks[0])
      {
        Others(Mine(k, {}, 0, true));
        var done;
        done, conns := Attempt(k);
        if done {
          return;
        }
      }
    }

    /** The next attempt starts, or one in flight comes back. */
    method Attempt(k: Key) returns (done: bool, conns: Bucket)
      requires Valid() && |View(k).tasks| == 1 && View(k).tasks[0].Dialling?
      modifies this`history
      ensures Valid() && old(history) <= history && cfHistory == old(cfHistory) && |View(k).tasks| == 1
      ensures done ==> View(k).tasks == [Protocol.Dialled(conns)]
      ensures !done ==>
        View(k).tasks[0].Dialling? && AttemptsLeft(View(k).tasks[0]) < AttemptsLeft(old(View(k)).tasks[0])
    {
      Protocol.WalkKeepsInv(For(history, k), poolSize);
      var entry: Entry, fails: bool, starts: bool := *, *, *;
      var t := View(k).tasks[0];
      var step :=
        if Protocol.TaskEnabled(t, Protocol.DialsDone(0)) then Protocol.DialsDone(0)
        else if Protocol.TaskEnabled(t, Protocol.Dial(0)) && (starts || t.flying == 0) then Protocol.Dial(0)
        else if fails then Protocol.DialFailed(0)
        else Protocol.DialOk(0, entry);
      OneTaskStep(View(k), step, poolSize);
      Outside(k, step);
      return step.DialsDone? || step.DialFailed?, t.ready;
    }

    /**
     * `cf_get`: on a hit the spare is handed out and its replacement, through the
     * same domain, is scheduled; on a miss nothing is.
     */
    method CfGet(k: CfKey, now: nat, closed: Entry -> bool) returns (hit: Option<Entry>, spawn: bool)
      requires Valid()
      modifies this
      ensures Valid() && old(cfHistory) <= cfHistory && history == old(history)
      ensures hit == TakeFreshest(old(CfBucketOf(k)), now, CF_MAX_AGE, closed).0
      ensures LastGood(old(CfBucketOf(k)), now, 100_000, closed, hit)
      ensures spawn ==> hit.Some? && poolSize > 0 && k in cfRefilling
      ensures hit.Some? && poolSize > 0 ==>
        cfHistory != [] && cfHistory[|cfHistory| - 1] == Action(k, CfProtocol.Prefetch)
      ensures !shared ==> (spawn <==> hit.Some? && poolSize > 0 && k !in old(cfRefilling))
    {
      assert CfShows(k, CfView(k));
      hit := CfPopFresh(k, now, closed);
      spawn := false;
      if hit.Some? {
        CfOthers();
        assert CfShows(k, CfView(k));
        spawn := CfPrefetch(k);
        assert CfShows(k, CfView(k));
      }
    }

    /** All the others on the Cloudflare side, any number of steps. */
    method CfOthers()
      requires Valid()
      modifies this
      ensures Valid() && old(cfHistory) <= cfHistory && history == old(history)
      ensures !shared ==> unchanged(this)
    {
      if !shared {
        return;
      }
      var steps: nat :| true;
      for i := 0 to steps
        invariant Valid() && old(cfHistory) <= cfHistory && history == old(history)
      {
        var k: CfKey :| true;
        var step: CfStep :| true;
        if CfProtocol.Enabled(CfView(k), step, CfBudget()) {
          CfPerform(k, step);
        }
      }
    }

    method CfPerform(k: CfKey, step: CfStep)
      requires Valid() && CfProtocol.Enabled(CfView(k), step, CfBudget())
      modifies this
      ensures CfDid(k, step)
    {
      if step.Take? {
        var hit := CfPopFresh(k, step.now, step.closed);
      } else if step.Prefetch? {
        var spawn := CfPrefetch(k);
      } else {
        CfPerformTask(k, step);
      }
    }

    method CfPerformTask(k: CfKey, step: CfStep)
      requires Valid() && CfProtocol.Enabled(CfView(k), step, CfBudget()) && !step.Take? && !step.Prefetch?
      modifies this
      ensures CfDid(k, step)
    {
      Bounds(Key(0, false), k);
      assert step.task == 0;
      match step
      case Check(_) => var wanted := CfCheck(k);
      case Connected(_, _) => CfOutside(k, step);
      case Failed(_) => CfOutside(k, step);
      case Land(_) => CfLand(k, CfView(k).tasks[0].conn);
      case Release(_) => CfReleaseGuard(k);
      case Abort(_) => CfCut(k);
    }

    method CfCut(k: CfKey)
      requires Valid() && CfView(k).tasks != []
      modifies this`cfRefilling, this`cfHistory
      ensures CfDid(k, CfProtocol.Abort(0))
    {
      assert CfShows(k, CfView(k));
      Bounds(Key(0, false), k);
      cfRefilling := cfRefilling - {k};
      cfHistory := cfHistory + [Action(k, CfProtocol.Abort(0))];
      CfMoved(old(cfHistory), k, CfProtocol.Abort(0));
    }
  }

  /** The retain loop of `maintain`. */
  method RetainUsable(b: Bucket, now: nat, maxAge: nat, closed: Entry -> bool) returns (kept: Bucket)
    ensures kept == Retained(b, now, maxAge, closed) && KeepsGood(b, now, maxAge, closed, kept)
    ensures TakeFreshest(kept, now, maxAge, closed).0 == TakeFreshest(b, now, maxAge, closed).0
  {
    kept := [];
    for i := 0 to |b|
      invariant kept == Retained(b[..i], now, maxAge, closed)
    {
      assert b[..i + 1][..i] == b[..i];
      if !(now > b[i].created && now - b[i].created > maxAge) && !closed(b[i]) {
        kept := kept + [b[i]];
      }
    }
    assert b[..|b|] == b;
    RetainedKeepsGood(b, now, maxAge, closed);
    TakeAfterPrune(b, now, maxAge, closed);
  }

  method PushUpTo(b: Bucket, conns: Bucket, most: nat) returns (r: Bucket)
    ensures r == b + conns[..Min(most, |conns|)]
  {
    r := b;
    var i := 0;
    while i < |conns| && i < most
      invariant 0 <= i <= |conns| && i <= most
      invariant r == b + conns[..i]
    {
      r := r + [conns[i]];
      i := i + 1;
    }
  }

  /** The pop loop of `get` and `cf_get`. */
  method PopUsable(b: Bucket, now: nat, maxAge: nat, closed: Entry -> bool) returns (hit: Option<Entry>, left: Bucket)
    ensures (hit, left) == TakeFreshest(b, now, maxAge, closed)
  {
    left := b;
    while left != []
      invariant TakeFreshest(left, now, maxAge, closed) == TakeFreshest(b, now, maxAge, closed)
    {
      var entry := left[|left| - 1];
      left := left[..|left| - 1];
      if now > entry.created && now - entry.created > maxAge {
        continue;
      }
      if closed(entry) {
        continue;
      }
      return Some(entry), left;
    }
    return None, [];
  }
}
