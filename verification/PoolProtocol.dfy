/**
 * The pool as a concurrent protocol: any number of clients, refill tasks, the
 * warmup and the maintenance pass interleave between the pool's locks. A step
 * is what one of them does under one lock (or one connect attempt in between),
 * on one bucket.
 */
module PoolProtocol {
  import opened Wrappers
  import opened Buckets
  import opened Interleaving
  import Limits

  /** Attempts in flight at once, per refill and per warmup bucket. */
  const CONNECT_CONCURRENCY: nat := 2

  /** Where a refill task stands, one phase for each lock it still has to take. */
  datatype Phase =
    | Reserved
    | Dialling(needed: nat, started: nat, flying: nat, ready: Bucket)
    | Dialled(ready: Bucket)
    | Counted(failures: nat)
    | Cleared(ready: Bucket)
    | Reported(ready: Bucket)
    | Finished

  datatype Warm =
    | WarmIdle
    | WarmDialling(started: nat, flying: nat, ready: Bucket)
    | WarmDialled(ready: Bucket)
    | WarmDone

  /**
   * One bucket. `checked` are the callers between the two critical sections of
   * `reserve_refill`, named by the moment they passed the first one; `clearing`
   * counts those between the two locks of `report_success`. `clock` counts steps.
   */
  datatype State = State(
    idle: Bucket, refilling: bool, tasks: seq<Phase>, checked: set<nat>, clearing: nat, warm: Warm,
    failures: nat, deadline: Option<nat>, clock: nat)

  const INITIAL := State([], false, [], {}, 0, WarmIdle, 0, None, 0)

  datatype Step =
    | Take(now: nat, maxAge: nat, closed: Entry -> bool)
    | Prune(now: nat, maxAge: nat, closed: Entry -> bool)
    | ClearFailures
    | ClearDeadline
    | PassDeadline(now: nat)
    | Reserve(caller: nat)
    | Check(task: nat)
    | Dial(task: nat)
    | DialOk(task: nat, entry: Entry)
    | DialFailed(task: nat)
    | DialsDone(task: nat)
    | CountFailure(task: nat)
    | SetDeadline(task: nat, now: nat)
    | OkFailures(task: nat)
    | OkDeadline(task: nat)
    | Land(task: nat)
    | Release(task: nat)
    | Abort(task: nat)
    | WarmStart
    | WarmDial
    | WarmDialOk(entry: Entry)
    | WarmDialFailed
    | WarmDialsDone
    | WarmLand

  function Without<T>(s: seq<T>, i: nat): (r: seq<T>)
    requires i < |s|
    ensures |r| == |s| - 1
  {
    s[..i] + s[i + 1..]
  }

  /** The steps of a refill task. */
  predicate IsTaskStep(step: Step)
  {
    || step.Check? || step.Dial? || step.DialOk? || step.DialFailed? || step.DialsDone?
    || step.CountFailure? || step.SetDeadline? || step.OkFailures? || step.OkDeadline?
    || step.Land? || step.Release? || step.Abort?
  }

  predicate IsWarmStep(step: Step)
  {
    || step.WarmStart? || step.WarmDial? || step.WarmDialOk? || step.WarmDialFailed?
    || step.WarmDialsDone? || step.WarmLand?
  }

  predicate TaskEnabled(t: Phase, step: Step)
    requires IsTaskStep(step)
  {
    match step
    case Check(_) => t.Reserved?
    case Dial(_) => t.Dialling? && t.started < t.needed && t.flying < CONNECT_CONCURRENCY
    case DialOk(_, _) => t.Dialling? && t.flying > 0
    case DialFailed(_) => t.Dialling? && t.flying > 0
    case DialsDone(_) => t.Dialling? && t.flying == 0 && t.started == t.needed
    case CountFailure(_) => t.Dialled? && t.ready == []
    case SetDeadline(_, _) => t.Counted?
    case OkFailures(_) => t.Dialled? && t.ready != []
    case OkDeadline(_) => t.Cleared?
    case Land(_) => t.Reported?
    case Release(_) => t.Finished?
    case Abort(_) => true
  }

  predicate WarmEnabled(w: Warm, step: Step, poolSize: nat)
    requires IsWarmStep(step)
  {
    match step
    case WarmStart => w.WarmIdle?
    case WarmDial => w.WarmDialling? && w.started < poolSize && w.flying < CONNECT_CONCURRENCY
    case WarmDialOk(_) => w.WarmDialling? && w.flying > 0
    case WarmDialFailed => w.WarmDialling? && w.flying > 0
    case WarmDialsDone => w.WarmDialling? && w.flying == 0 && w.started == poolSize
    case WarmLand => w.WarmDialled?
  }

  predicate Enabled(s: State, step: Step, poolSize: nat)
  {
    if IsTaskStep(step) then step.task < |s.tasks| && TaskEnabled(s.tasks[step.task], step)
    else if IsWarmStep(step) then WarmEnabled(s.warm, step, poolSize)
    else
      match step
      case ClearDeadline => s.clearing > 0
      case PassDeadline(now) => poolSize > 0 && !Blocked(s.deadline, now)
      case Reserve(c) => c in s.checked
      case _ => true
  }

  /** Looking at the bucket once: a full one ends the task, a short one starts dialling. */
  function Looked(idle: nat, poolSize: nat): Phase
  {
    if idle >= poolSize then Finished else Dialling(poolSize - idle, 0, 0, [])
  }

  /** One more failure in a row; the count saturates. */
  function OneMoreFailure(failures: nat): nat { Min(failures + 1, MAX_FAILURES) }

  /** What a task step makes of its task. */
  function TaskAfter(s: State, t: Phase, step: Step, poolSize: nat): Phase
    requires IsTaskStep(step) && TaskEnabled(t, step)
  {
    match step
    case Check(_) => Looked(|s.idle|, poolSize)
    case Dial(_) => t.(started := t.started + 1, flying := t.flying + 1)
    case DialOk(_, e) => t.(flying := t.flying - 1, ready := t.ready + [e])
    case DialFailed(_) => Dialled(t.ready)
    case DialsDone(_) => Dialled(t.ready)
    case CountFailure(_) => Counted(OneMoreFailure(s.failures))
    case OkFailures(_) => Cleared(t.ready)
    case OkDeadline(_) => Reported(t.ready)
    case _ => Finished
  }

  function WarmAfter(w: Warm, step: Step, poolSize: nat): Warm
    requires IsWarmStep(step) && WarmEnabled(w, step, poolSize)
  {
    match step
    case WarmStart => WarmDialling(0, 0, [])
    case WarmDial => w.(started := w.started + 1, flying := w.flying + 1)
    case WarmDialOk(e) => w.(flying := w.flying - 1, ready := w.ready + [e])
    case WarmDialFailed => WarmDialled(w.ready)
    case WarmDialsDone => WarmDialled(w.ready)
    case WarmLand => WarmDone
  }

  function TasksAfter(s: State, step: Step, poolSize: nat): seq<Phase>
    requires IsTaskStep(step) && Enabled(s, step, poolSize)
  {
    if step.Release? || step.Abort? then Without(s.tasks, step.task)
    else s.tasks[step.task := TaskAfter(s, s.tasks[step.task], step, poolSize)]
  }

  /** What a step changes, the clock aside. */
  function Moved(s: State, step: Step, poolSize: nat): State
    requires Enabled(s, step, poolSize)
  {
    if IsTaskStep(step) then
      var s' := s.(tasks := TasksAfter(s, step, poolSize));
      match step
      case CountFailure(_) => s'.(failures := OneMoreFailure(s.failures))
      case SetDeadline(i, now) => s'.(deadline := Some(now + Delay(s.tasks[i].failures) * SECOND))
      case OkFailures(_) => s'.(failures := 0)
      case OkDeadline(_) => s'.(deadline := None)
      case Land(i) => s'.(idle := Landed(s.idle, s.tasks[i].ready, poolSize))
      case Release(_) => s'.(refilling := false)
      case Abort(_) => s'.(refilling := false)
      case _ => s'
    else if IsWarmStep(step) then
      var s' := s.(warm := WarmAfter(s.warm, step, poolSize));
      if step.WarmLand? then s'.(idle := s.idle + s.warm.ready) else s'
    else
      match step
      case Take(now, maxAge, closed) => s.(idle := TakeFreshest(s.idle, now, maxAge, closed).1)
      case Prune(now, maxAge, closed) => s.(idle := Retained(s.idle, now, maxAge, closed))
      case ClearFailures => s.(failures := 0, clearing := s.clearing + 1)
      case ClearDeadline => s.(deadline := None, clearing := s.clearing - 1)
      case PassDeadline(_) => s.(checked := s.checked + {s.clock}, deadline := None)
      case Reserve(c) =>
        var s' := s.(checked := s.checked - {c});
        if s.refilling then s' else s'.(refilling := true, tasks := s.tasks + [Reserved])
  }

  function After(s: State, step: Step, poolSize: nat): State
    requires Enabled(s, step, poolSize)
  {
    Moved(s, step, poolSize).(clock := s.clock + 1)
  }

  /** A connection that has been opened comes last among those that wait to land. */
  lemma OpenedIsLast(s: State, e: Entry, poolSize: nat)
    ensures Enabled(s, DialOk(0, e), poolSize) ==>
      After(s, DialOk(0, e), poolSize).tasks[0].ready == s.tasks[0].ready + [e]
    ensures Enabled(s, WarmDialOk(e), poolSize) ==>
      After(s, WarmDialOk(e), poolSize).warm.ready == s.warm.ready + [e]
  {
  }

  /** The take step, spelled out. */
  lemma Takes(s: State, now: nat, maxAge: nat, closed: Entry -> bool, poolSize: nat)
    ensures Enabled(s, Take(now, maxAge, closed), poolSize)
    ensures After(s, Take(now, maxAge, closed), poolSize)
      == s.(idle := TakeFreshest(s.idle, now, maxAge, closed).1, clock := s.clock + 1)
  {
  }

  /** The step past a deadline, spelled out. */
  lemma Passes(s: State, now: nat, poolSize: nat)
    requires Enabled(s, PassDeadline(now), poolSize)
    ensures After(s, PassDeadline(now), poolSize)
      == s.(checked := s.checked + {s.clock}, deadline := None, clock := s.clock + 1)
  {
  }

  /** The landing step, spelled out. */
  lemma Lands(s: State, conns: Bucket, poolSize: nat)
    requires s.tasks != [] && s.tasks[0] == Reported(conns)
    ensures Enabled(s, Land(0), poolSize)
    ensures After(s, Land(0), poolSize)
      == s.(idle := Landed(s.idle, conns, poolSize), tasks := s.tasks[0 := Finished], clock := s.clock + 1)
  {
  }

  // ------------------------------------------------------------------- runs

  /** What a sequence of steps makes of one bucket; None if one of them is not enabled. */
  function Walk(steps: seq<Step>, poolSize: nat): Option<State>
    decreases |steps|
  {
    if steps == [] then Some(INITIAL)
    else
      var n := |steps| - 1;
      match Walk(steps[..n], poolSize)
      case None => None
      case Some(s) => if Enabled(s, steps[n], poolSize) then Some(After(s, steps[n], poolSize)) else None
  }

  /** The whole pool: whoever performs the actions, each bucket goes through a walk. */
  ghost predicate IsRun(actions: seq<Action<Key, Step>>, poolSize: nat)
  {
    forall k :: Walk(For(actions, k), poolSize).Some?
  }

  function At(actions: seq<Action<Key, Step>>, k: Key, poolSize: nat): State
    requires IsRun(actions, poolSize)
  {
    Walk(For(actions, k), poolSize).value
  }

  lemma WalkOn(steps: seq<Step>, step: Step, poolSize: nat)
    requires Walk(steps, poolSize).Some? && Enabled(Walk(steps, poolSize).value, step, poolSize)
    ensures Walk(steps + [step], poolSize) == Some(After(Walk(steps, poolSize).value, step, poolSize))
  {
    assert (steps + [step])[..|steps|] == steps;
  }

  /** An enabled action prolongs a run, and moves its own bucket only. */
  lemma RunOn(actions: seq<Action<Key, Step>>, k: Key, step: Step, poolSize: nat)
    requires IsRun(actions, poolSize) && Enabled(At(actions, k, poolSize), step, poolSize)
    ensures IsRun(actions + [Action(k, step)], poolSize)
    ensures At(actions + [Action(k, step)], k, poolSize) == After(At(actions, k, poolSize), step, poolSize)
    ensures forall q :: q != k ==> At(actions + [Action(k, step)], q, poolSize) == At(actions, q, poolSize)
  {
    var all := actions + [Action(k, step)];
    WalkOn(For(actions, k), step, poolSize);
    forall q
      ensures For(all, q) == if q == k then For(actions, k) + [step] else For(actions, q)
    {
      ForSnoc(actions, Action(k, step), q);
    }
  }

  // ----------------------------------------------------------- descriptors

  /** Connections a refill task holds open. */
  function OpenBy(p: Phase): nat
  {
    match p
    case Dialling(_, _, flying, ready) => flying + |ready|
    case Dialled(ready) => |ready|
    case Cleared(ready) => |ready|
    case Reported(ready) => |ready|
    case _ => 0
  }

  function OpenByAll(tasks: seq<Phase>): nat
  {
    if tasks == [] then 0 else OpenBy(tasks[0]) + OpenByAll(tasks[1..])
  }

  function OpenByWarm(w: Warm): nat
  {
    match w
    case WarmIdle => 0
    case WarmDialling(_, flying, ready) => flying + |ready|
    case WarmDialled(ready) => |ready|
    case WarmDone => 0
  }

  /** Every descriptor the bucket accounts for. */
  function Fds(s: State): nat
  {
    |s.idle| + OpenByAll(s.tasks) + OpenByWarm(s.warm)
  }

  lemma OneTask(p: Phase)
    ensures OpenByAll([p]) == OpenBy(p)
  {
    assert [p][1..] == [];
    assert OpenByAll([]) == 0;
  }

  // -------------------------------------------------------------- invariant

  /** What a task may still come to hold. */
  function Claim(p: Phase): nat
  {
    if p.Dialling? then p.needed else OpenBy(p)
  }

  predicate TaskOk(p: Phase, poolSize: nat)
  {
    p.Dialling? ==> p.flying <= CONNECT_CONCURRENCY && p.flying + |p.ready| <= p.started <= p.needed <= poolSize
  }

  predicate WarmOk(w: Warm, poolSize: nat)
  {
    && (w.WarmDialling? ==> w.flying <= CONNECT_CONCURRENCY && w.flying + |w.ready| <= w.started <= poolSize)
    && (w.WarmDialled? ==> |w.ready| <= poolSize)
  }

  predicate Inv(s: State, poolSize: nat)
  {
    && |s.tasks| == (if s.refilling then 1 else 0)
    && (s.refilling ==> TaskOk(s.tasks[0], poolSize))
    && WarmOk(s.warm, poolSize)
    && |s.idle| + (if s.refilling then Claim(s.tasks[0]) else 0)
         <= (if s.warm.WarmDone? then 2 * poolSize else poolSize)
  }

  lemma BucketsShrink(b: Bucket, now: nat, maxAge: nat, closed: Entry -> bool)
    ensures |TakeFreshest(b, now, maxAge, closed).1| <= |b| && |Retained(b, now, maxAge, closed)| <= |b|
  {
    TakeFreshestTakesLastUsable(b, now, maxAge, closed);
  }

  /** A refill never claims more than it needed, and lands within the room there is. */
  lemma TaskStepFits(s: State, t: Phase, step: Step, poolSize: nat)
    requires IsTaskStep(step) && TaskEnabled(t, step) && TaskOk(t, poolSize) && WarmOk(s.warm, poolSize)
    requires |s.idle| + Claim(t) <= (if s.warm.WarmDone? then 2 * poolSize else poolSize)
    ensures TaskOk(TaskAfter(s, t, step, poolSize), poolSize)
    ensures step.Land? ==>
      && |Landed(s.idle, t.ready, poolSize)| <= (if s.warm.WarmDone? then 2 * poolSize else poolSize)
      && TaskAfter(s, t, step, poolSize) == Finished
    ensures |s.idle| + Claim(TaskAfter(s, t, step, poolSize)) <= (if s.warm.WarmDone? then 2 * poolSize else poolSize)
  {
  }

  lemma StepKeepsInv(s: State, step: Step, poolSize: nat)
    requires Inv(s, poolSize) && Enabled(s, step, poolSize)
    ensures Inv(After(s, step, poolSize), poolSize)
  {
    if IsTaskStep(step) {
      TaskStepKeepsInv(s, step, poolSize);
    } else if IsWarmStep(step) {
      WarmStepKeepsInv(s, step, poolSize);
    } else {
      BucketStepKeepsInv(s, step, poolSize);
    }
  }

  lemma TaskStepKeepsInv(s: State, step: Step, poolSize: nat)
    requires Inv(s, poolSize) && Enabled(s, step, poolSize) && IsTaskStep(step)
    ensures Inv(After(s, step, poolSize), poolSize)
  {
    var t := s.tasks[step.task];
    TaskStepFits(s, t, step, poolSize);
    var tasks := TasksAfter(s, step, poolSize);
    if step.Release? || step.Abort? {
      assert tasks == [];
    } else {
      assert |tasks| == 1 && tasks[0] == TaskAfter(s, t, step, poolSize);
    }
  }

  lemma WarmStepKeepsInv(s: State, step: Step, poolSize: nat)
    requires Inv(s, poolSize) && Enabled(s, step, poolSize) && IsWarmStep(step)
    ensures Inv(After(s, step, poolSize), poolSize)
  {
  }

  lemma BucketStepKeepsInv(s: State, step: Step, poolSize: nat)
    requires Inv(s, poolSize) && Enabled(s, step, poolSize) && !IsTaskStep(step) && !IsWarmStep(step)
    ensures Inv(After(s, step, poolSize), poolSize)
  {
    if step.Take? || step.Prune? {
      BucketsShrink(s.idle, step.now, step.maxAge, step.closed);
    }
  }

  lemma {:induction false} WalkKeepsInv(steps: seq<Step>, poolSize: nat)
    requires Walk(steps, poolSize).Some?
    ensures Inv(Walk(steps, poolSize).value, poolSize) && Walk(steps, poolSize).value.clock == |steps|
    decreases |steps|
  {
    if steps != [] {
      var n := |steps| - 1;
      WalkKeepsInv(steps[..n], poolSize);
      StepKeepsInv(Walk(steps[..n], poolSize).value, steps[n], poolSize);
    }
  }

  /**
   * Over all interleavings: a bucket has at most one refill in flight, exactly
   * while it is marked as refilling; idle plus refill connections stay within
   * the pool size until the warmup lands, and everything together within twice
   * the pool size always.
   */
  lemma BucketBounds(actions: seq<Action<Key, Step>>, poolSize: nat, k: Key)
    requires IsRun(actions, poolSize)
    ensures var s := At(actions, k, poolSize);
      && |s.tasks| <= 1 && (|s.tasks| == 1 <==> s.refilling)
      && (!s.warm.WarmDone? ==> |s.idle| + OpenByAll(s.tasks) <= poolSize)
      && Fds(s) <= 2 * poolSize
  {
    WalkKeepsInv(For(actions, k), poolSize);
    var s := At(actions, k, poolSize);
    if s.refilling {
      assert s.tasks == [s.tasks[0]];
      OneTask(s.tasks[0]);
    }
  }

  /** The bucket of nobody: nothing idle, nothing running. */
  lemma NothingAtFirst()
    ensures Fds(INITIAL) == 0 && Inv(INITIAL, 0)
  {
    assert OpenByAll([]) == 0;
  }

  lemma TaskFds(s: State, step: Step, poolSize: nat)
    requires Inv(s, poolSize) && IsTaskStep(step) && Enabled(s, step, poolSize)
    ensures s.tasks == [s.tasks[0]] && OpenByAll(s.tasks) == OpenBy(s.tasks[0])
    ensures var tasks := TasksAfter(s, step, poolSize);
      OpenByAll(tasks) == if step.Release? || step.Abort? then 0 else OpenBy(TaskAfter(s, s.tasks[0], step, poolSize))
  {
    OneTask(s.tasks[0]);
    if step.Release? || step.Abort? {
      assert TasksAfter(s, step, poolSize) == [];
    } else {
      assert TasksAfter(s, step, poolSize) == [TaskAfter(s, s.tasks[0], step, poolSize)];
      OneTask(TaskAfter(s, s.tasks[0], step, poolSize));
    }
  }

  /** How many dials end with the one that fails. */
  function Flying(s: State, step: Step, poolSize: nat): nat
    requires Enabled(s, step, poolSize)
  {
    if step.DialFailed? then s.tasks[step.task].flying else if step.WarmDialFailed? then s.warm.flying else 0
  }

  /** The steps after which connections may be gone: handed out, found unusable, surplus, or dropped with their task. */
  predicate MayDrop(step: Step) { step.Take? || step.Prune? || step.Land? || step.Abort? }

  /**
   * The descriptors of a bucket before and after a step: starting a dial opens
   * one, whoever does it; a dial that fails ends those still in flight; no other
   * step opens any, and only four kinds of them close any.
   */
  predicate Opens(step: Step, before: nat, now: nat, flying: nat)
  {
    if step.Dial? || step.WarmDial? then now == before + 1
    else if step.DialFailed? || step.WarmDialFailed? then now + flying == before && flying > 0
    else if MayDrop(step) then now <= before
    else now == before
  }

  lemma TaskStepOpens(s: State, step: Step, poolSize: nat)
    requires Inv(s, poolSize) && IsTaskStep(step) && Enabled(s, step, poolSize)
    ensures Opens(step, Fds(s), Fds(After(s, step, poolSize)), Flying(s, step, poolSize))
  {
    TaskFds(s, step, poolSize);
  }

  lemma BucketStepOpens(s: State, step: Step, poolSize: nat)
    requires Inv(s, poolSize) && !IsTaskStep(step) && !IsWarmStep(step) && Enabled(s, step, poolSize)
    ensures Opens(step, Fds(s), Fds(After(s, step, poolSize)), 0)
  {
    if step.Reserve? && !s.refilling {
      assert s.tasks == [] && s.tasks + [Reserved] == [Reserved];
      OneTask(Reserved);
    } else if step.Take? {
      BucketsShrink(s.idle, step.now, step.maxAge, step.closed);
    }
  }

  lemma OnlyDialsOpen(s: State, step: Step, poolSize: nat)
    requires Inv(s, poolSize) && Enabled(s, step, poolSize)
    ensures Opens(step, Fds(s), Fds(After(s, step, poolSize)), Flying(s, step, poolSize))
  {
    if IsTaskStep(step) {
      TaskStepOpens(s, step, poolSize);
    } else if !IsWarmStep(step) {
      BucketStepOpens(s, step, poolSize);
    }
  }

  // ---------------------------------------------------------------- backoff

  predicate ClearsFailures(step: Step) { step.ClearFailures? || step.OkFailures? }

  predicate ClearsDeadline(step: Step) { step.ClearDeadline? || step.OkDeadline? || step.PassDeadline? }

  /** Failures counted since the last success was reported. */
  function InARow(steps: seq<Step>): nat
  {
    if steps == [] then 0
    else
      var n := |steps| - 1;
      if steps[n].CountFailure? then InARow(steps[..n]) + 1
      else if ClearsFailures(steps[n]) then 0
      else InARow(steps[..n])
  }

  /** How many in a row the last failure was. */
  function LastCount(steps: seq<Step>): nat
  {
    if steps == [] then 0
    else if steps[|steps| - 1].CountFailure? then InARow(steps)
    else LastCount(steps[..|steps| - 1])
  }

  /** The deadline a history leaves: that of its last failure report, unless something cleared it since. */
  function DeadlineOf(steps: seq<Step>): Option<nat>
  {
    if steps == [] then None
    else
      var n := |steps| - 1;
      if steps[n].SetDeadline? then Some(steps[n].now + Delay(Min(LastCount(steps[..n]), MAX_FAILURES)) * SECOND)
      else if ClearsDeadline(steps[n]) then None
      else DeadlineOf(steps[..n])
  }

  predicate BackoffInv(s: State, steps: seq<Step>)
  {
    && s.failures == Min(InARow(steps), MAX_FAILURES)
    && s.deadline == DeadlineOf(steps)
    && forall i :: 0 <= i < |s.tasks| && s.tasks[i].Counted? ==>
      s.tasks[i].failures == Min(LastCount(steps), MAX_FAILURES)
  }

  lemma BackoffStep(s: State, steps: seq<Step>, step: Step, poolSize: nat)
    requires Inv(s, poolSize) && Enabled(s, step, poolSize) && BackoffInv(s, steps)
    ensures BackoffInv(After(s, step, poolSize), steps + [step])
  {
    assert (steps + [step])[..|steps|] == steps;
    if IsTaskStep(step) {
      BackoffTaskStep(s, steps, step, poolSize);
    } else if IsWarmStep(step) {
      assert After(s, step, poolSize).tasks == s.tasks;
    } else {
      BackoffBucketStep(s, steps, step, poolSize);
    }
  }

  lemma BackoffTaskStep(s: State, steps: seq<Step>, step: Step, poolSize: nat)
    requires Inv(s, poolSize) && Enabled(s, step, poolSize) && BackoffInv(s, steps) && IsTaskStep(step)
    ensures BackoffInv(After(s, step, poolSize), steps + [step])
  {
    assert (steps + [step])[..|steps|] == steps;
    assert step.task == 0;
  }

  lemma BackoffBucketStep(s: State, steps: seq<Step>, step: Step, poolSize: nat)
    requires Inv(s, poolSize) && Enabled(s, step, poolSize) && BackoffInv(s, steps)
    requires !IsTaskStep(step) && !IsWarmStep(step)
    ensures BackoffInv(After(s, step, poolSize), steps + [step])
  {
    assert (steps + [step])[..|steps|] == steps;
  }

  /** The k-th failure in a row puts the next refill off by the k-th delay, counted from its own report. */
  lemma {:induction false} BackoffOfWalk(steps: seq<Step>, poolSize: nat)
    requires Walk(steps, poolSize).Some?
    ensures BackoffInv(Walk(steps, poolSize).value, steps)
    decreases |steps|
  {
    if steps != [] {
      var n := |steps| - 1;
      BackoffOfWalk(steps[..n], poolSize);
      WalkKeepsInv(steps[..n], poolSize);
      BackoffStep(Walk(steps[..n], poolSize).value, steps[..n], steps[n], poolSize);
      assert steps == steps[..n] + [steps[n]];
    }
  }

  /** A failure report that nothing has cleared since. */
  predicate Uncleared(steps: seq<Step>, i: nat)
  {
    i < |steps| && steps[i].SetDeadline? && forall j :: i < j < |steps| ==> !ClearsDeadline(steps[j])
  }

  lemma {:induction false} DeadlineStands(steps: seq<Step>)
    ensures DeadlineOf(steps).Some? <==> exists i :: Uncleared(steps, i)
  {
    if steps != [] {
      var n := |steps| - 1;
      var before := steps[..n];
      DeadlineStands(before);
      if steps[n].SetDeadline? {
        assert Uncleared(steps, n);
      } else if !ClearsDeadline(steps[n]) {
        forall i: nat
          ensures Uncleared(steps, i) <==> Uncleared(before, i)
        {
          assert i < n ==> steps[i] == before[i];
          assert forall j :: i < j < n ==> steps[j] == before[j];
        }
      }
    }
  }

  lemma CheckedStep(s: State, step: Step, poolSize: nat)
    requires Enabled(s, step, poolSize)
    ensures After(s, step, poolSize).checked <= if step.PassDeadline? then s.checked + {s.clock} else s.checked
  {
  }

  /** A caller holds the moment at which it passed the deadline check. */
  lemma {:induction false} CheckedPassed(steps: seq<Step>, poolSize: nat, c: nat)
    requires Walk(steps, poolSize).Some? && c in Walk(steps, poolSize).value.checked
    ensures c < |steps| && steps[c].PassDeadline?
    decreases |steps|
  {
    assert steps != [];
    var n := |steps| - 1;
    var before := Walk(steps[..n], poolSize).value;
    WalkKeepsInv(steps[..n], poolSize);
    CheckedStep(before, steps[n], poolSize);
    if c in before.checked {
      CheckedPassed(steps[..n], poolSize, c);
    }
  }

  /**
   * Over all interleavings: a caller that passed its deadline check at moment
   * `c` reserves under a recorded deadline exactly when a failure was reported
   * after `c` and nothing has cleared it since.
   */
  lemma ReservationRespectsDeadline(actions: seq<Action<Key, Step>>, poolSize: nat, k: Key, c: nat)
    requires IsRun(actions, poolSize) && Enabled(At(actions, k, poolSize), Reserve(c), poolSize)
    ensures c < |For(actions, k)| && For(actions, k)[c].PassDeadline?
    ensures At(actions, k, poolSize).deadline == DeadlineOf(For(actions, k))
    ensures At(actions, k, poolSize).deadline.Some? <==> exists i :: i > c && Uncleared(For(actions, k), i)
  {
    var steps := For(actions, k);
    CheckedPassed(steps, poolSize, c);
    BackoffOfWalk(steps, poolSize);
    DeadlineStands(steps);
    forall i: nat | Uncleared(steps, i)
      ensures i > c
    {
      assert ClearsDeadline(steps[c]);
    }
  }

  // ----------------------------------------------- runs that go to the limit

  lemma Longer(steps: seq<Step>, step: Step, poolSize: nat, s: State) returns (more: seq<Step>, s': State)
    requires Walk(steps, poolSize) == Some(s) && Enabled(s, step, poolSize)
    ensures s' == After(s, step, poolSize) && Walk(more, poolSize) == Some(s')
  {
    WalkOn(steps, step, poolSize);
    more, s' := steps + [step], After(s, step, poolSize);
  }

  /** Any walk can be what happens to each of a set of buckets. */
  lemma RunOfWalk(keys: set<Key>, steps: seq<Step>, poolSize: nat) returns (actions: seq<Action<Key, Step>>)
    requires Walk(steps, poolSize).Some?
    ensures IsRun(actions, poolSize) && KeysIn(actions, keys)
    ensures forall k :: k in keys ==> Some(At(actions, k, poolSize)) == Walk(steps, poolSize)
  {
    actions := Everywhere(keys, steps);
  }

  /**
   * The gap between the two critical sections is real: two callers pass the
   * check, the first one's refill fails, and the second reserves at once, under
   * a deadline a second away.
   */
  lemma DeadlineRace(k: Key, poolSize: nat) returns (actions: seq<Action<Key, Step>>, c: nat)
    requires poolSize > 0
    ensures IsRun(actions, poolSize) && Enabled(At(actions, k, poolSize), Reserve(c), poolSize)
    ensures !At(actions, k, poolSize).refilling && Blocked(At(actions, k, poolSize).deadline, 0)
  {
    var steps, s := TwoCallersOneTask(poolSize);
    steps, s := FirstRefillFails(steps, s, poolSize);
    actions := RunOfWalk({k}, steps, poolSize);
    c := 1;
  }

  lemma TwoCallersOneTask(poolSize: nat) returns (steps: seq<Step>, s: State)
    requires poolSize > 0
    ensures Walk(steps, poolSize) == Some(s)
    ensures s.idle == [] && s.tasks == [Reserved] && s.failures == 0 && s.checked == {1}
  {
    steps, s := TwoCallers(poolSize);
    var before := s;
    steps, s := Longer(steps, Reserve(0), poolSize, s);
    assert s.tasks == before.tasks + [Reserved];
    assert {0, 1} - {0} == {1};
  }

  lemma TwoCallers(poolSize: nat) returns (steps: seq<Step>, s: State)
    requires poolSize > 0
    ensures Walk(steps, poolSize) == Some(s) && s == INITIAL.(checked := {0, 1}, clock := 2)
  {
    steps, s := Longer([], PassDeadline(0), poolSize, INITIAL);
    assert s == INITIAL.(checked := {0}, clock := 1);
    steps, s := Longer(steps, PassDeadline(0), poolSize, s);
    assert {0} + {1} == {0, 1};
  }

  lemma FirstRefillFails(steps: seq<Step>, s0: State, poolSize: nat) returns (more: seq<Step>, s: State)
    requires Walk(steps, poolSize) == Some(s0) && poolSize > 0
    requires s0.idle == [] && s0.tasks == [Reserved] && s0.failures == 0
    ensures Walk(more, poolSize) == Some(s)
    ensures !s.refilling && s.checked == s0.checked && s.deadline == Some(SECOND)
  {
    more, s := Longer(steps, Check(0), poolSize, s0);
    assert s.tasks == [Dialling(poolSize, 0, 0, [])];
    more, s := Longer(more, Dial(0), poolSize, s);
    assert s.tasks == [Dialling(poolSize, 1, 1, [])];
    more, s := Longer(more, DialFailed(0), poolSize, s);
    assert s.tasks == [Dialled([])];
    more, s := FailureReported(more, s, poolSize);
  }

  lemma FailureReported(steps: seq<Step>, s0: State, poolSize: nat) returns (more: seq<Step>, s: State)
    requires Walk(steps, poolSize) == Some(s0) && s0.tasks == [Dialled([])] && s0.failures == 0
    ensures Walk(more, poolSize) == Some(s)
    ensures !s.refilling && s.checked == s0.checked && s.deadline == Some(SECOND)
  {
    more, s := Longer(steps, CountFailure(0), poolSize, s0);
    assert s.tasks == [Counted(1)] && s.checked == s0.checked;
    more, s := DeadlineSet(more, s, poolSize);
    more, s := Longer(more, Release(0), poolSize, s);
  }

  lemma DeadlineSet(steps: seq<Step>, s0: State, poolSize: nat) returns (more: seq<Step>, s: State)
    requires Walk(steps, poolSize) == Some(s0) && s0.tasks == [Counted(1)]
    ensures Walk(more, poolSize) == Some(s)
    ensures s.tasks == [Finished] && s.checked == s0.checked && s.deadline == Some(SECOND)
  {
    DelayShape(1);
    more, s := Longer(steps, SetDeadline(0, 0), poolSize, s0);
  }

  /** The warmup opens its first `n` connections. */
  lemma {:induction false} WarmOpens(e: Entry, n: nat, poolSize: nat) returns (steps: seq<Step>, s: State)
    requires n <= poolSize
    ensures Walk(steps, poolSize) == Some(s)
    ensures s.warm.WarmDialling? && s.warm.started == n && s.warm.flying == 0 && |s.warm.ready| == n
    ensures s == INITIAL.(warm := s.warm, clock := s.clock)
  {
    if n == 0 {
      steps, s := Longer([], WarmStart, poolSize, INITIAL);
    } else {
      steps, s := WarmOpens(e, n - 1, poolSize);
      steps, s := Longer(steps, WarmDial, poolSize, s);
      steps, s := Longer(steps, WarmDialOk(e), poolSize, s);
    }
  }

  /** Meanwhile a refill of the still empty bucket is reserved and looks at it. */
  lemma RefillStarts(e: Entry, poolSize: nat) returns (steps: seq<Step>, s: State)
    requires 0 < poolSize
    ensures Walk(steps, poolSize) == Some(s)
    ensures s.idle == [] && s.warm.WarmDialling? && |s.warm.ready| == poolSize == s.warm.started && s.warm.flying == 0
    ensures s.tasks == [Dialling(poolSize, 0, 0, [])]
  {
    steps, s := WarmOpens(e, poolSize, poolSize);
    var at := s.clock;
    steps, s := Longer(steps, PassDeadline(0), poolSize, s);
    assert at in s.checked;
    steps, s := Longer(steps, Reserve(at), poolSize, s);
    assert s.tasks == [Reserved];
    steps, s := Longer(steps, Check(0), poolSize, s);
  }

  /** And opens as many. */
  lemma {:induction false} RefillOpens(e: Entry, n: nat, poolSize: nat) returns (steps: seq<Step>, s: State)
    requires n <= poolSize && 0 < poolSize
    ensures Walk(steps, poolSize) == Some(s)
    ensures s.idle == [] && s.warm.WarmDialling? && |s.warm.ready| == poolSize == s.warm.started && s.warm.flying == 0
    ensures |s.tasks| == 1 && s.tasks[0].Dialling? && s.tasks[0].needed == poolSize
    ensures s.tasks[0].started == n && s.tasks[0].flying == 0 && |s.tasks[0].ready| == n
  {
    if n == 0 {
      steps, s := RefillStarts(e, poolSize);
    } else {
      steps, s := RefillOpens(e, n - 1, poolSize);
      steps, s := Longer(steps, Dial(0), poolSize, s);
      steps, s := Longer(steps, DialOk(0, e), poolSize, s);
    }
  }

  lemma RefillReports(steps: seq<Step>, s0: State, poolSize: nat) returns (more: seq<Step>, s: State)
    requires Walk(steps, poolSize) == Some(s0) && |s0.tasks| == 1 && s0.tasks[0].Dialling?
    requires s0.tasks[0].flying == 0 && s0.tasks[0].started == s0.tasks[0].needed && s0.tasks[0].ready != []
    ensures Walk(more, poolSize) == Some(s)
    ensures s.idle == s0.idle && s.warm == s0.warm && s.tasks == [Reported(s0.tasks[0].ready)]
  {
    var ready := s0.tasks[0].ready;
    more, s := Longer(steps, DialsDone(0), poolSize, s0);
    assert s.tasks == [Dialled(ready)];
    more, s := Longer(more, OkFailures(0), poolSize, s);
    assert s.tasks == [Cleared(ready)];
    more, s := Longer(more, OkDeadline(0), poolSize, s);
  }

  lemma RefillLands(steps: seq<Step>, s0: State, poolSize: nat) returns (more: seq<Step>, s: State)
    requires Walk(steps, poolSize) == Some(s0) && s0.idle == []
    requires |s0.tasks| == 1 && s0.tasks[0].Reported? && |s0.tasks[0].ready| == poolSize
    ensures Walk(more, poolSize) == Some(s)
    ensures |s.idle| == poolSize && s.warm == s0.warm && s.tasks == []
  {
    more, s := Longer(steps, Land(0), poolSize, s0);
    assert s.tasks == [Finished];
    more, s := Longer(more, Release(0), poolSize, s);
  }

  lemma WarmupLands(steps: seq<Step>, s0: State, poolSize: nat) returns (more: seq<Step>, s: State)
    requires Walk(steps, poolSize) == Some(s0) && s0.tasks == []
    requires s0.warm.WarmDialling? && s0.warm.flying == 0 && s0.warm.started == poolSize
    ensures Walk(more, poolSize) == Some(s)
    ensures |s.idle| == |s0.idle| + |s0.warm.ready| && s.tasks == [] && s.warm.WarmDone?
  {
    more, s := Longer(steps, WarmDialsDone, poolSize, s0);
    more, s := Longer(more, WarmLand, poolSize, s);
  }

  /**
   * The bound of twice the pool size is reached, for every pool size and in
   * every bucket: a refill that lands while the warmup is connecting.
   */
  lemma BoundIsReached(keys: set<Key>, poolSize: nat) returns (actions: seq<Action<Key, Step>>)
    ensures IsRun(actions, poolSize) && KeysIn(actions, keys)
    ensures forall k :: k in keys ==> Fds(At(actions, k, poolSize)) == 2 * poolSize
  {
    var steps, s := [], INITIAL;
    if poolSize > 0 {
      steps, s := RefillOpens(Entry(0, 0, ""), poolSize, poolSize);
      steps, s := RefillReports(steps, s, poolSize);
      steps, s := RefillLands(steps, s, poolSize);
      steps, s := WarmupLands(steps, s, poolSize);
    }
    actions := RunOfWalk(keys, steps, poolSize);
  }

  // ------------------------------------------------------------ whole pool

  /** All descriptors of the direct pool. */
  ghost function TotalFds(actions: seq<Action<Key, Step>>, keys: set<Key>, poolSize: nat): nat
    requires IsRun(actions, poolSize)
  {
    Limits.Sum(FdsOf(actions, poolSize), keys)
  }

  ghost function FdsOf(actions: seq<Action<Key, Step>>, poolSize: nat): Key -> nat
    requires IsRun(actions, poolSize)
  {
    k => Fds(At(actions, k, poolSize))
  }

  /** All buckets together hold at most twice the pool size each, and some run has them hold exactly that. */
  lemma PoolBound(actions: seq<Action<Key, Step>>, keys: set<Key>, poolSize: nat)
    requires IsRun(actions, poolSize)
    ensures TotalFds(actions, keys, poolSize) <= 2 * Limits.Product(poolSize, |keys|)
    ensures (forall k :: k in keys ==> Fds(At(actions, k, poolSize)) == 2 * poolSize) ==>
      TotalFds(actions, keys, poolSize) == 2 * Limits.Product(poolSize, |keys|)
  {
    forall k | k in keys
      ensures FdsOf(actions, poolSize)(k) <= 2 * poolSize
    {
      BucketBounds(actions, poolSize, k);
    }
    Limits.SumBound(FdsOf(actions, poolSize), keys, 2 * poolSize);
    Limits.Twice(poolSize, |keys|);
  }
}
