/**
 * The Cloudflare side of the pool as a concurrent protocol (pool.rs): one spare
 * connection for each tier, DC and media kind, re-opened in the background.
 */
module CfProtocol {
  import opened Wrappers
  import opened Buckets
  import opened Interleaving
  import PoolProtocol
  import Limits

  /** Where the background task of `cf_prefetch` stands. */
  datatype Phase = Reserved | Flying | Ready(conn: Entry) | Finished

  datatype State = State(idle: Bucket, refilling: bool, tasks: seq<Phase>)

  const INITIAL := State([], false, [])

  datatype Step =
    | Take(now: nat, closed: Entry -> bool)
    | Prefetch
    | Check(task: nat)
    | Connected(task: nat, conn: Entry)
    | Failed(task: nat)
    | Land(task: nat)
    | Release(task: nat)
    | Abort(task: nat)

  predicate Enabled(s: State, step: Step, budget: nat)
  {
    match step
    case Take(_, _) => true
    case Prefetch => budget > 0
    case Check(i) => i < |s.tasks| && s.tasks[i].Reserved?
    case Connected(i, _) => i < |s.tasks| && s.tasks[i].Flying?
    case Failed(i) => i < |s.tasks| && s.tasks[i].Flying?
    case Land(i) => i < |s.tasks| && s.tasks[i].Ready?
    case Release(i) => i < |s.tasks| && s.tasks[i].Finished?
    case Abort(i) => i < |s.tasks|
  }

  function After(s: State, step: Step, budget: nat): State
    requires Enabled(s, step, budget)
  {
    match step
    case Take(now, closed) => s.(idle := TakeFreshest(s.idle, now, CF_MAX_AGE, closed).1)
    case Prefetch => if s.refilling then s else s.(refilling := true, tasks := s.tasks + [Reserved])
    case Check(i) => s.(tasks := s.tasks[i := if |s.idle| >= budget then Finished else Flying])
    case Connected(i, conn) => s.(tasks := s.tasks[i := Ready(conn)])
    case Failed(i) => s.(tasks := s.tasks[i := Finished])
    case Land(i) => s.(idle := Landed(s.idle, [s.tasks[i].conn], budget), tasks := s.tasks[i := Finished])
    case Release(i) => s.(tasks := PoolProtocol.Without(s.tasks, i), refilling := false)
    case Abort(i) => s.(tasks := PoolProtocol.Without(s.tasks, i), refilling := false)
  }

  // ------------------------------------------------------------------- runs

  function Walk(steps: seq<Step>, budget: nat): Option<State>
    decreases |steps|
  {
    if steps == [] then Some(INITIAL)
    else
      var n := |steps| - 1;
      match Walk(steps[..n], budget)
      case None => None
      case Some(s) => if Enabled(s, steps[n], budget) then Some(After(s, steps[n], budget)) else None
  }

  ghost predicate IsRun(actions: seq<Action<CfKey, Step>>, budget: nat)
  {
    forall k :: Walk(For(actions, k), budget).Some?
  }

  function At(actions: seq<Action<CfKey, Step>>, k: CfKey, budget: nat): State
    requires IsRun(actions, budget)
  {
    Walk(For(actions, k), budget).value
  }

  lemma WalkOn(steps: seq<Step>, step: Step, budget: nat)
    requires Walk(steps, budget).Some? && Enabled(Walk(steps, budget).value, step, budget)
    ensures Walk(steps + [step], budget) == Some(After(Walk(steps, budget).value, step, budget))
  {
    assert (steps + [step])[..|steps|] == steps;
  }

  lemma RunOn(actions: seq<Action<CfKey, Step>>, k: CfKey, step: Step, budget: nat)
    requires IsRun(actions, budget) && Enabled(At(actions, k, budget), step, budget)
    ensures IsRun(actions + [Action(k, step)], budget)
    ensures At(actions + [Action(k, step)], k, budget) == After(At(actions, k, budget), step, budget)
    ensures forall q :: q != k ==> At(actions + [Action(k, step)], q, budget) == At(actions, q, budget)
  {
    var all := actions + [Action(k, step)];
    WalkOn(For(actions, k), step, budget);
    forall q
      ensures For(all, q) == if q == k then For(actions, k) + [step] else For(actions, q)
    {
      ForSnoc(actions, Action(k, step), q);
    }
  }

  // ------------------------------------------------- descriptors, invariant

  /** A connect attempt and a fresh connection each hold a descriptor. */
  function OpenBy(p: Phase): nat { if p.Flying? || p.Ready? then 1 else 0 }

  function OpenByAll(tasks: seq<Phase>): nat
  {
    if tasks == [] then 0 else OpenBy(tasks[0]) + OpenByAll(tasks[1..])
  }

  function Fds(s: State): nat { |s.idle| + OpenByAll(s.tasks) }

  predicate Inv(s: State, budget: nat)
  {
    && |s.tasks| == (if s.refilling then 1 else 0)
    && |s.idle| + (if s.refilling then OpenBy(s.tasks[0]) else 0) <= budget
  }

  lemma StepKeepsInv(s: State, step: Step, budget: nat)
    requires Inv(s, budget) && Enabled(s, step, budget)
    ensures Inv(After(s, step, budget), budget)
  {
    if step.Take? {
      TakeFreshestTakesLastUsable(s.idle, step.now, CF_MAX_AGE, step.closed);
    }
  }

  lemma AtMostOne(tasks: seq<Phase>)
    requires |tasks| <= 1
    ensures OpenByAll(tasks) == if tasks == [] then 0 else OpenBy(tasks[0])
  {
    if tasks != [] {
      assert tasks[1..] == [];
    }
  }

  /**
   * The descriptors of a bucket, told by its steps: the check that finds room
   * opens one; that the connect succeeds changes nothing; that it fails closes
   * it; and no other step opens any.
   */
  lemma OnlyChecksOpen(s: State, step: Step, budget: nat)
    requires Inv(s, budget) && Enabled(s, step, budget)
    ensures var before, now := Fds(s), Fds(After(s, step, budget));
      if step.Check? then now == before + (if |s.idle| < budget then 1 else 0)
      else if step.Connected? then now == before
      else if step.Failed? then now == before - 1
      else now <= before
  {
    AtMostOne(s.tasks);
    AtMostOne(After(s, step, budget).tasks);
    if step.Take? {
      TakeFreshestTakesLastUsable(s.idle, step.now, CF_MAX_AGE, step.closed);
    }
  }

  lemma {:induction false} WalkKeepsInv(steps: seq<Step>, budget: nat)
    requires Walk(steps, budget).Some?
    ensures Inv(Walk(steps, budget).value, budget)
    decreases |steps|
  {
    if steps != [] {
      var n := |steps| - 1;
      WalkKeepsInv(steps[..n], budget);
      StepKeepsInv(Walk(steps[..n], budget).value, steps[n], budget);
    }
  }

  /** At most one refill per bucket, exactly while it is marked; and never more connections than the budget. */
  lemma CfBucketBounds(actions: seq<Action<CfKey, Step>>, budget: nat, k: CfKey)
    requires IsRun(actions, budget)
    ensures var s := At(actions, k, budget);
      |s.tasks| <= 1 && (|s.tasks| == 1 <==> s.refilling) && Fds(s) <= budget
  {
    WalkKeepsInv(For(actions, k), budget);
    var s := At(actions, k, budget);
    if s.refilling {
      assert s.tasks[1..] == [];
      assert OpenByAll([]) == 0;
    }
  }

  lemma Longer(steps: seq<Step>, step: Step, budget: nat, s: State) returns (more: seq<Step>, s': State)
    requires Walk(steps, budget) == Some(s) && Enabled(s, step, budget)
    ensures s' == After(s, step, budget) && Walk(more, budget) == Some(s')
  {
    WalkOn(steps, step, budget);
    more, s' := steps + [step], After(s, step, budget);
  }

  lemma SpareOpens() returns (steps: seq<Step>, s: State)
    ensures Walk(steps, 1) == Some(s) && Fds(s) == 1
  {
    var e := Entry(0, 0, "");
    steps, s := Longer([], Prefetch, 1, INITIAL);
    assert s == State([], true, [Reserved]);
    steps, s := Longer(steps, Check(0), 1, s);
    assert s == State([], true, [Flying]);
    steps, s := Longer(steps, Connected(0, e), 1, s);
    assert s == State([], true, [Ready(e)]);
    steps, s := Longer(steps, Land(0), 1, s);
    assert s.idle == [e] && s.tasks == [Finished];
    assert [Finished][1..] == [] && OpenByAll([]) == 0;
  }

  /** And every bucket can hold its whole budget. */
  lemma CfBoundIsReached(keys: set<CfKey>, budget: nat) returns (actions: seq<Action<CfKey, Step>>)
    requires budget <= CF_MAX
    ensures IsRun(actions, budget) && KeysIn(actions, keys)
    ensures forall k :: k in keys ==> Fds(At(actions, k, budget)) == budget
  {
    var steps, s := [], INITIAL;
    if budget == 1 {
      steps, s := SpareOpens();
    }
    actions := Everywhere(keys, steps);
  }

  /** All descriptors of the Cloudflare side. */
  ghost function TotalFds(actions: seq<Action<CfKey, Step>>, keys: set<CfKey>, budget: nat): nat
    requires IsRun(actions, budget)
  {
    Limits.Sum(FdsOf(actions, budget), keys)
  }

  ghost function FdsOf(actions: seq<Action<CfKey, Step>>, budget: nat): CfKey -> nat
    requires IsRun(actions, budget)
  {
    k => Fds(At(actions, k, budget))
  }

  lemma CfPoolBound(actions: seq<Action<CfKey, Step>>, keys: set<CfKey>, budget: nat)
    requires IsRun(actions, budget)
    ensures TotalFds(actions, keys, budget) <= Limits.Product(budget, |keys|)
    ensures (forall k :: k in keys ==> Fds(At(actions, k, budget)) == budget) ==>
      TotalFds(actions, keys, budget) == Limits.Product(budget, |keys|)
  {
    forall k | k in keys
      ensures FdsOf(actions, budget)(k) <= budget
    {
      CfBucketBounds(actions, budget, k);
    }
    Limits.SumBound(FdsOf(actions, budget), keys, budget);
  }
}
