/**
 * The start/stop protocol of the Telegram bridge (telegram.rs). Every critical
 * section under the mutex is one step; any number of starts, stops and
 * finishing server tasks interleave freely.
 */
module Telegram {
  import opened Wrappers

  /** Epochs are `u64` and wrap. */
  const EPOCH_MODULUS: nat := 0x1_0000_0000_0000_0000

  /**
   * A server task: the epoch it was started under, whether it has been told to stop, and whether its
   * completion block has run.
   */
  datatype Task = Task(epoch: nat, told: bool, completed: bool)

  datatype Outcome = Stopped | Failed(reason: string)

  /**
   * The shared state, with what specification needs: all tasks ever spawned in
   * order, and how many starts are between their check and their install.
   * `shutdown` and `doneRx` name the task their channel belongs to.
   */
  datatype State = State(
    shutdown: Option<nat>, error: Option<Outcome>, epoch: nat, doneRx: Option<nat>,
    tasks: seq<Task>, starting: nat)

  const INITIAL := State(None, None, 0, None, [], 0)

  /** Sending on, or dropping, the sender held in `shutdown` tells its task to stop. */
  function Tell(tasks: seq<Task>, sender: Option<nat>): (r: seq<Task>)
    ensures |r| == |tasks|
  {
    if sender.Some? && sender.value < |tasks|
    then tasks[sender.value := tasks[sender.value].(told := true)]
    else tasks
  }

  // ------------------------------------------------------------------- steps

  /** The first critical section of `start`: refused while a sender is held. */
  function CheckStart(s: State): Option<State>
  {
    if s.shutdown.Some? then None else Some(s.(doneRx := None, starting := s.starting + 1))
  }

  /** A start that fails before its second critical section. */
  function Abandon(s: State): State
    requires s.starting > 0
  {
    s.(starting := s.starting - 1)
  }

  /** The second critical section of `start`: a new epoch, and the task spawned for it. */
  function Install(s: State): State
    requires s.starting > 0
  {
    var epoch := (s.epoch + 1) % EPOCH_MODULUS;
    State(Some(|s.tasks|), None, epoch, Some(|s.tasks|),
          Tell(s.tasks, s.shutdown) + [Task(epoch, false, false)], s.starting - 1)
  }

  function Stop(s: State): State
  {
    s.(shutdown := None, error := None, tasks := Tell(s.tasks, s.shutdown))
  }

  /** The completion block of task `t`, whose server ended with `outcome`. */
  function Complete(s: State, t: nat, outcome: Outcome): State
    requires t < |s.tasks|
  {
    var s' := if s.epoch == s.tasks[t].epoch
      then s.(shutdown := None, error := Some(outcome), tasks := Tell(s.tasks, s.shutdown))
      else s;
    s'.(tasks := s'.tasks[t := s'.tasks[t].(completed := true)])
  }

  ghost predicate Next(s: State, s': State)
  {
    || CheckStart(s) == Some(s')
    || (s.starting > 0 && (s' == Abandon(s) || s' == Install(s)))
    || s' == Stop(s)
    || exists t: nat, outcome :: CanComplete(s, t) && s' == Complete(s, t, outcome)
  }

  predicate CanComplete(s: State, t: nat) { t < |s.tasks| && !s.tasks[t].completed }

  // -------------------------------------------------------------- invariant

  predicate Live(s: State, t: nat) { t < |s.tasks| && !s.tasks[t].completed }

  /** `running` in the status the interface sees. */
  predicate Running(s: State) { s.shutdown.Some? }

  ghost predicate Inv(s: State)
  {
    && s.epoch == |s.tasks| % EPOCH_MODULUS
    && (forall t :: 0 <= t < |s.tasks| ==> s.tasks[t].epoch == (t + 1) % EPOCH_MODULUS)
    && (s.shutdown.Some? ==>
          && s.shutdown.value == |s.tasks| - 1
          && Live(s, s.shutdown.value) && !s.tasks[s.shutdown.value].told)
    && (forall t :: 0 <= t < |s.tasks| && !s.tasks[t].completed && s.shutdown != Some(t) ==> s.tasks[t].told)
  }

  lemma TellTells(s: State)
    requires Inv(s)
    ensures forall t :: 0 <= t < |s.tasks| ==>
      Tell(s.tasks, s.shutdown)[t] == s.tasks[t].(told := s.tasks[t].told || s.shutdown == Some(t))
  {
  }

  lemma StepKeepsInv(s: State, s': State)
    requires Inv(s) && Next(s, s')
    ensures Inv(s')
  {
    InstallKeepsInv(s);
    StopKeepsInv(s);
    if exists t: nat, outcome :: CanComplete(s, t) && s' == Complete(s, t, outcome) {
      var t: nat, outcome :| CanComplete(s, t) && s' == Complete(s, t, outcome);
      CompleteKeepsInv(s, t, outcome);
    }
  }

  lemma InstallKeepsInv(s: State)
    requires Inv(s)
    ensures s.starting > 0 ==> Inv(Install(s))
  {
    TellTells(s);
    if s.starting > 0 {
      assert Install(s).epoch == |Install(s).tasks| % EPOCH_MODULUS;
    }
  }

  lemma StopKeepsInv(s: State)
    requires Inv(s)
    ensures Inv(Stop(s))
  {
    TellTells(s);
  }

  lemma CompleteKeepsInv(s: State, t: nat, outcome: Outcome)
    requires Inv(s) && CanComplete(s, t)
    ensures Inv(Complete(s, t, outcome))
  {
    TellTells(s);
    if s.shutdown == Some(t) {
      assert s.epoch == s.tasks[t].epoch;
    }
  }

  ghost predicate IsRun(run: seq<State>)
  {
    run != [] && run[0] == INITIAL && forall i :: 0 <= i < |run| - 1 ==> Next(run[i], run[i + 1])
  }

  lemma {:induction false} RunKeepsInv(run: seq<State>, i: nat)
    requires IsRun(run) && i < |run|
    ensures Inv(run[i])
  {
    if i > 0 {
      RunKeepsInv(run, i - 1);
      StepKeepsInv(run[i - 1], run[i]);
    }
  }

  /**
   * At every moment of every run each live task has been told to stop, except
   * the one whose sender is held; so at most one is untold. And `running`
   * means that the most recently started task is the untold one and has not
   * completed.
   */
  lemma AtMostOneUntold(run: seq<State>, i: nat, t: nat, u: nat)
    requires IsRun(run) && i < |run|
    requires Live(run[i], t) && Live(run[i], u) && !run[i].tasks[t].told && !run[i].tasks[u].told
    ensures t == u && run[i].shutdown == Some(t) && t == |run[i].tasks| - 1
  {
    RunKeepsInv(run, i);
  }

  lemma RunningMeansCurrentIsLive(run: seq<State>, i: nat)
    requires IsRun(run) && i < |run| && Running(run[i])
    ensures var s := run[i]; s.tasks != [] && Live(s, |s.tasks| - 1) && s.tasks[|s.tasks| - 1].epoch == s.epoch
  {
    RunKeepsInv(run, i);
  }

  /** What a status query can see, and a later start can observe. */
  function Visible(s: State): (Option<nat>, Option<Outcome>, nat, Option<nat>)
  {
    (s.shutdown, s.error, s.epoch, s.doneRx)
  }

  /**
   * The completion of a task that is not the latest one changes no shared state
   * and signals nobody, exactly unless a whole multiple of 2^64 starts came in
   * between.
   */
  lemma OlderCompletionIsSilent(run: seq<State>, i: nat, t: nat, outcome: Outcome)
    requires IsRun(run) && i < |run| && CanComplete(run[i], t)
    ensures var s, s' := run[i], Complete(run[i], t, outcome);
      var stale := (|s.tasks| - 1 - t) % EPOCH_MODULUS != 0;
      && (stale ==> Visible(s') == Visible(s) && s'.tasks == s.tasks[t := s.tasks[t].(completed := true)])
      && (!stale ==> s'.shutdown == None && s'.error == Some(outcome))
    ensures |run[i].tasks| <= EPOCH_MODULUS && t != |run[i].tasks| - 1 ==>
      Visible(Complete(run[i], t, outcome)) == Visible(run[i])
  {
    RunKeepsInv(run, i);
    SameRemainder(|run[i].tasks|, t + 1);
  }

  lemma SameRemainder(a: nat, b: nat)
    requires a >= b
    ensures a % EPOCH_MODULUS == b % EPOCH_MODULUS <==> (a - b) % EPOCH_MODULUS == 0
    ensures 0 < a - b < EPOCH_MODULUS ==> (a - b) % EPOCH_MODULUS != 0
  {
  }

  /** After a stop nothing is running, no error is left, and every live task has been told. */
  lemma StopTellsAll(run: seq<State>, i: nat)
    requires IsRun(run) && i < |run|
    ensures var s := Stop(run[i]);
      !Running(s) && s.error == None && forall t: nat :: Live(s, t) ==> s.tasks[t].told
  {
    RunKeepsInv(run, i);
    TellTells(run[i]);
  }

  // ------------------------------------------------------------------- class

  /** `TgState`: the mutex-protected fields, one method for each critical section. */
  class TgState {
    var shutdown: Option<nat>
    var error: Option<Outcome>
    var epoch: nat
    var doneRx: Option<nat>
    var spawned: nat
    ghost var tasks: seq<Task>
    ghost var starting: nat

    constructor ()
      ensures View() == INITIAL && spawned == 0
    {
      shutdown, error, epoch, doneRx, spawned := None, None, 0, None, 0;
      tasks, starting := [], 0;
    }

    ghost function View(): State
      reads this
    {
      State(shutdown, error, epoch, doneRx, tasks, starting)
    }

    ghost predicate Valid()
      reads this
    {
      spawned == |tasks| && epoch < EPOCH_MODULUS
    }

    method BeginStart() returns (ok: bool)
      requires Valid()
      modifies this
      ensures Valid()
      ensures ok <==> CheckStart(old(View())).Some?
      ensures View() == if ok then CheckStart(old(View())).value else old(View())
      ensures ok <==> old(shutdown).None?
      ensures ok ==> doneRx.None? && shutdown.None? && error == old(error) && epoch == old(epoch) && tasks == old(tasks)
    {
      if shutdown.Some? {
        return false;
      }
      doneRx := None;
      starting := starting + 1;
      return true;
    }

    /** Returns the epoch the new task has to remember. */
    method FinishStart() returns (mine: nat)
      requires Valid() && starting > 0
      modifies this
      ensures Valid()
      ensures View() == Install(old(View())) && mine == epoch
      ensures shutdown == doneRx == Some(old(spawned)) && error.None? && spawned == old(spawned) + 1
      ensures mine == if old(epoch) == 0xffff_ffff_ffff_ffff then 0 else old(epoch) + 1
      ensures tasks[|tasks| - 1] == Task(mine, false, false)
      ensures old(shutdown).Some? && old(shutdown).value < |old(tasks)| ==> tasks[old(shutdown).value].told
    {
      tasks := Tell(tasks, shutdown);
      epoch := (epoch + 1) % EPOCH_MODULUS;
      shutdown := Some(spawned);
      error := None;
      doneRx := Some(spawned);
      tasks := tasks + [Task(epoch, false, false)];
      spawned := spawned + 1;
      starting := starting - 1;
      mine := epoch;
    }

    method StopBridge()
      requires Valid()
      modifies this
      ensures Valid()
      ensures View() == Stop(old(View()))
      ensures shutdown.None? && error.None? && doneRx == old(doneRx) && epoch == old(epoch)
      ensures old(shutdown).Some? && old(shutdown).value < |old(tasks)| ==> tasks[old(shutdown).value].told
    {
      if shutdown.Some? {
        tasks := Tell(tasks, shutdown);
        shutdown := None;
      }
      error := None;
    }

    /** The end of task `t`, which was started under epoch `mine`. */
    method TaskEnded(t: nat, mine: nat, outcome: Outcome)
      requires Valid() && t < |tasks| && tasks[t].epoch == mine
      modifies this
      ensures Valid()
      ensures View() == Complete(old(View()), t, outcome)
      ensures if old(epoch) == mine then shutdown.None? && error == Some(outcome)
        else shutdown == old(shutdown) && error == old(error)
      ensures doneRx == old(doneRx) && epoch == old(epoch) && tasks[t].completed
    {
      if epoch == mine {
        tasks := Tell(tasks, shutdown);
        shutdown := None;
        error := Some(outcome);
      }
      tasks := tasks[t := tasks[t].(completed := true)];
    }
  }
}
