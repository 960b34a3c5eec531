/** What the steps of a run of the delegate protocol lead back to. */
module DelegateRuns {
  import opened Tasks
  import opened DelegateProtocol
  import opened DelegateSafety

  // ---- Runs with their steps ----

  ghost predicate IsRunOf(w: World, run: seq<State>, steps: seq<Step>) {
    && |run| == |steps| + 1 && Init(run[0])
    && forall i :: 0 <= i < |steps| ==> Takes(w, run[i], run[i + 1], steps[i])
  }

  /** Every run takes some steps. */
  lemma {:induction false} RunHasSteps(w: World, run: seq<State>) returns (steps: seq<Step>)
    requires IsRun(w, run)
    ensures IsRunOf(w, run, steps)
  {
    hide Takes;
    steps := [];
    while |steps| + 1 < |run|
      invariant |steps| + 1 <= |run|
      invariant forall i :: 0 <= i < |steps| ==> Takes(w, run[i], run[i + 1], steps[i])
    {
      var n := |steps|;
      assert Next(w, run[n + 1 - 1], run[n + 1]);
      var step :| Takes(w, run[n], run[n + 1], step);
      steps := steps + [step];
    }
  }

  lemma {:induction false} StepsMakeRun(w: World, run: seq<State>, steps: seq<Step>)
    requires IsRunOf(w, run, steps)
    ensures IsRun(w, run)
  {
    hide Takes;
    forall i | 0 < i < |run| ensures Next(w, run[i - 1], run[i]) {
      assert Takes(w, run[i - 1], run[i - 1 + 1], steps[i - 1]);
    }
  }

  lemma StepOf(w: World, run: seq<State>, steps: seq<Step>, i: nat)
    requires IsRunOf(w, run, steps) && i < |steps|
    ensures Takes(w, run[i], run[i + 1], steps[i]) && Inv(w, run[i]) && Inv(w, run[i + 1])
  {
    hide Takes, Inv;
    StepsMakeRun(w, run, steps);
    RunKeeps(w, run, i);
    RunKeeps(w, run, i + 1);
  }

  // ---- Where a step takes a goroutine ----

  predicate IsBy(step: Step, t: nat) {
    !step.RestartStep? && !step.RestoreStep? && step.t == t
  }

  /** The places to which a step can take its goroutine. */
  predicate Leads(step: Step, th: Thread) {
    match step
    case SubmitStep(_, task, allowReplace) => th == Submitted(task, allowReplace)
    case CheckDuplicateStep(_, task, allowReplace, _) => th == Done || th == Unchecked(task, allowReplace)
    case EnterStep(_, task, allowReplace) => th == Holding(task, allowReplace)
    case CheckInputsStep(_, task, _, _) =>
      th == Releasing(Done) || th == Clear(task) || (th.Replacing? && th.task == task)
    case ReplaceStep(_, task, _, _) => th == Clear(task) || th == Releasing(Done)
    case SaveStep(_, task, _) => th == Releasing(Done) || th == Added(task)
    case ScheduleStep(_, task, _) => th == Unscheduled(task.id) || th == Releasing(Done)
    case FailUnscheduledStep(_, _, _, _) => th == Releasing(Done)
    case ReleaseStep(_) => th.Done? || th.Ticking? || th.Read?
    case RunJobStep(_, id) => th == Registering(id)
    case EnterRegisterStep(_, id) => th == Reading(id)
    case ReadTaskStep(_, _, _) => th == Releasing(Done) || (th.Releasing? && th.after.Read?)
    case CheckStatusStep(_, task) => th == Done || th == Checked(task)
    case CallServerStep(_, task, _) => th == Rejected(task.id) || (th.Accepted? && th.task == task)
    case FailRejectedStep(_, _, _, _) => th == Done
    case RememberStep(_, _, _) => th == Done
    case BatchStartedStep(_, _) => th.Running?
    case BatchFinalizedStep(_, session, selected, txid) => th == Forgetting(session, selected, txid, 0)
    case ForgetStep(_, session, selected, txid, next) =>
      th == Forgetting(session, selected, txid, next + 1) || th == Completing(session, selected, txid)
    case FinishStep(_, session, selected, _, _) => th == Done || th == Running(session, selected)
    case BatchFailedStep(_, _, selected) => th == Retrying(selected, 0)
    case RetryStep(_, selected, next, worker) =>
      th == Done || th == AwaitingRetry(selected, next, worker) || th.Registering?
    case RetriedStep(_, selected, next, worker) => th == Retrying(selected, next + 1)
    case StopStep(_) => th == Done
    case StartMonitorStep(_) => th == Ticking([])
    case SpendStep(_, _) => th.Ticking? || th.Captured? || th.Monitoring? || th.Sweeping?
    case TickStep(_, spent) => th == Captured([], spent)
    case EnterMonitorStep(_, spent, taken) => th == Monitoring(spent, taken)
    case FindSpentStep(_, spent, taken, _) => th.Sweeping? && th.spent == spent && th.taken == taken
    case SweepStep(_, spent, _, _, _, _) => th == Releasing(Ticking(spent))
    case _ => false
  }

  predicate Begins(step: Step) {
    step.SubmitStep? || step.RunJobStep? || step.BatchStartedStep? || step.StartMonitorStep?
  }

  /** The place a goroutine is at before a step of its own. */
  predicate LeavesFrom(step: Step, th: Thread) {
    match step
    case CheckDuplicateStep(_, task, allowReplace, _) => th == Submitted(task, allowReplace)
    case EnterStep(_, task, allowReplace) => th == Unchecked(task, allowReplace)
    case CheckInputsStep(_, task, allowReplace, _) => th == Holding(task, allowReplace)
    case ReplaceStep(_, task, ids, _) => th == Replacing(task, ids)
    case SaveStep(_, task, _) => th == Clear(task)
    case ScheduleStep(_, task, _) => th == Added(task)
    case FailUnscheduledStep(_, id, _, _) => th == Unscheduled(id)
    case ReleaseStep(_) => th.Releasing?
    case EnterRegisterStep(_, id) => th == Registering(id)
    case ReadTaskStep(_, id, _) => th == Reading(id)
    case CheckStatusStep(_, task) => th == Read(task)
    case CallServerStep(_, task, _) => th == Checked(task)
    case FailRejectedStep(_, id, _, _) => th == Rejected(id)
    case RememberStep(_, task, intentID) => th == Accepted(task, intentID)
    case BatchFinalizedStep(_, session, selected, _) => th == Running(session, selected)
    case ForgetStep(_, session, selected, txid, next) => th == Forgetting(session, selected, txid, next)
    case FinishStep(_, session, selected, txid, _) => th == Completing(session, selected, txid)
    case BatchFailedStep(_, session, selected) => th == Running(session, selected)
    case RetryStep(_, selected, next, _) => th == Retrying(selected, next)
    case RetriedStep(_, selected, next, worker) => th == AwaitingRetry(selected, next, worker)
    case StopStep(_) => !Holds(th)
    case SpendStep(_, _) => th.Ticking? || th.Captured? || th.Monitoring? || th.Sweeping?
    case TickStep(_, spent) => th == Ticking(spent)
    case EnterMonitorStep(_, spent, taken) => th == Captured(spent, taken)
    case FindSpentStep(_, spent, taken, _) => th == Monitoring(spent, taken)
    case SweepStep(_, spent, taken, ids, found, _) => th == Sweeping(spent, taken, ids, found)
    case _ => false
  }

  ghost predicate Placed(s: State, s': State, step: Step, t: nat) {
    && (t in s'.threads ==>
          || (t in s.threads && s'.threads[t] == s.threads[t] && !step.RestartStep?)
          || (Leads(step, s'.threads[t]) &&
              (IsBy(step, t) || (step.RetryStep? && step.worker == t && t !in s.threads))))
    && (t in s.threads && !step.RestartStep? ==> t in s'.threads)
    && (step == ReleaseStep(t) ==>
          t in s.threads && s.threads[t].Releasing? && t in s'.threads && s'.threads[t] == s.threads[t].after)
    && (IsBy(step, t) ==> if Begins(step) then t !in s.threads else t in s.threads && LeavesFrom(step, s.threads[t]))
  }

  lemma ReleasePlaces(w: World, s: State, s': State, step: Step, t: nat)
    requires Takes(w, s, s', step) && step.ReleaseStep? && Inv(w, s)
    ensures Placed(s, s', step, t)
  {
    hide RepoOk, IntentsOk, CompletedOk, CopyOf;
    assert ThreadOk(w, s.repo, s.history, s.threads[step.t]);
  }

  lemma CheckingPlaces(w: World, s: State, s': State, step: Step, t: nat)
    requires Takes(w, s, s', step)
    requires step.SubmitStep? || step.CheckDuplicateStep? || step.EnterStep? || step.CheckInputsStep?
    ensures Placed(s, s', step, t)
  {
    hide Settle, PendingByInputs, NewTask, Select, SelectionEvents, TaskIds, AllPending;
    match step
    case _ =>
  }

  lemma SavingPlaces(w: World, s: State, s': State, step: Step, t: nat)
    requires Takes(w, s, s', step)
    requires step.ReplaceStep? || step.SaveStep?
    ensures Placed(s, s', step, t)
  {
    hide Settle, PendingByInputs, NewTask, Select, SelectionEvents, TaskIds, AllPending;
    match step
    case _ =>
  }

  lemma SchedulingPlaces(w: World, s: State, s': State, step: Step, t: nat)
    requires Takes(w, s, s', step)
    requires step.ScheduleStep? || step.FailUnscheduledStep?
    ensures Placed(s, s', step, t)
  {
    hide Settle, PendingByInputs, NewTask, Select, SelectionEvents, TaskIds, AllPending;
    match step
    case _ =>
  }

  lemma JobPlaces(w: World, s: State, s': State, step: Step, t: nat)
    requires Takes(w, s, s', step)
    requires step.RunJobStep? || step.EnterRegisterStep?
    ensures Placed(s, s', step, t)
  {
    hide Settle, PendingByInputs, NewTask, Select, SelectionEvents, TaskIds, AllPending;
    match step
    case _ =>
  }

  lemma ReadingPlaces(w: World, s: State, s': State, step: Step, t: nat)
    requires Takes(w, s, s', step)
    requires step.ReadTaskStep? || step.CheckStatusStep?
    ensures Placed(s, s', step, t)
  {
    hide Settle, PendingByInputs, NewTask, Select, SelectionEvents, TaskIds, AllPending;
    match step
    case _ =>
  }

  lemma RegisteringPlaces(w: World, s: State, s': State, step: Step, t: nat)
    requires Takes(w, s, s', step)
    requires step.CallServerStep? || step.FailRejectedStep? || step.RememberStep? || step.StopStep?
    ensures Placed(s, s', step, t)
  {
    hide Settle, PendingByInputs, NewTask, Select, SelectionEvents, TaskIds, AllPending;
    match step
    case _ =>
  }

  lemma BatchPlaces(w: World, s: State, s': State, step: Step, t: nat)
    requires Takes(w, s, s', step)
    requires step.BatchStartedStep? || step.BatchFinalizedStep?
    ensures Placed(s, s', step, t)
  {
    hide Settle, PendingByInputs, NewTask, Select, SelectionEvents, TaskIds, AllPending;
    match step
    case _ =>
  }

  lemma FinishPlaces(w: World, s: State, s': State, step: Step, t: nat)
    requires Takes(w, s, s', step)
    requires step.ForgetStep? || step.FinishStep?
    ensures Placed(s, s', step, t)
  {
    hide Settle, PendingByInputs, NewTask, Select, SelectionEvents, TaskIds, AllPending;
    match step
    case _ =>
  }

  lemma FailedPlaces(w: World, s: State, s': State, step: Step, t: nat)
    requires Takes(w, s, s', step)
    requires step.BatchFailedStep? || step.RetriedStep?
    ensures Placed(s, s', step, t)
  {
    hide Settle, PendingByInputs, NewTask, Select, SelectionEvents, TaskIds, AllPending;
    match step
    case _ =>
  }

  lemma RetryPlaces(w: World, s: State, s': State, step: Step, t: nat)
    requires Takes(w, s, s', step)
    requires step.RetryStep?
    ensures Placed(s, s', step, t)
  {
    hide Settle, PendingByInputs, NewTask, Select, SelectionEvents, TaskIds, AllPending;
    match step
    case _ =>
  }

  lemma SpendPlaces(w: World, s: State, s': State, step: Step, t: nat)
    requires Takes(w, s, s', step)
    requires step.SpendStep?
    ensures Placed(s, s', step, t)
  {
    hide Settle, PendingByInputs, NewTask, Select, SelectionEvents, TaskIds, AllPending;
    match step
    case _ =>
  }

  lemma TickPlaces(w: World, s: State, s': State, step: Step, t: nat)
    requires Takes(w, s, s', step)
    requires step.StartMonitorStep? || step.TickStep? || step.EnterMonitorStep?
    ensures Placed(s, s', step, t)
  {
    hide Settle, PendingByInputs, NewTask, Select, SelectionEvents, TaskIds, AllPending;
    match step
    case _ =>
  }

  lemma SweepPlaces(w: World, s: State, s': State, step: Step, t: nat)
    requires Takes(w, s, s', step)
    requires step.FindSpentStep? || step.SweepStep? || step.RestartStep? || step.RestoreStep?
    ensures Placed(s, s', step, t)
  {
    hide Settle, PendingByInputs, NewTask, Select, SelectionEvents, TaskIds, AllPending;
    match step
    case _ =>
  }

  /** A goroutine is where it was, or where a step of its own, or its start, can take it. */
  lemma StepPlaces(w: World, s: State, s': State, step: Step, t: nat)
    requires Takes(w, s, s', step) && Inv(w, s)
    ensures Placed(s, s', step, t)
  {
    hide Takes, Inv, Placed;
    if step.ReleaseStep? {
      ReleasePlaces(w, s, s', step, t);
    } else if step.SubmitStep? || step.CheckDuplicateStep? || step.EnterStep? || step.CheckInputsStep? {
      CheckingPlaces(w, s, s', step, t);
    } else if step.ReplaceStep? || step.SaveStep? {
      SavingPlaces(w, s, s', step, t);
    } else if step.ScheduleStep? || step.FailUnscheduledStep? {
      SchedulingPlaces(w, s, s', step, t);
    } else if step.RunJobStep? || step.EnterRegisterStep? {
      JobPlaces(w, s, s', step, t);
    } else if step.ReadTaskStep? || step.CheckStatusStep? {
      ReadingPlaces(w, s, s', step, t);
    } else if step.CallServerStep? || step.FailRejectedStep? || step.RememberStep? || step.StopStep? {
      RegisteringPlaces(w, s, s', step, t);
    } else if step.BatchStartedStep? || step.BatchFinalizedStep? {
      BatchPlaces(w, s, s', step, t);
    } else if step.ForgetStep? || step.FinishStep? {
      FinishPlaces(w, s, s', step, t);
    } else if step.BatchFailedStep? || step.RetriedStep? {
      FailedPlaces(w, s, s', step, t);
    } else if step.RetryStep? {
      RetryPlaces(w, s, s', step, t);
    } else if step.SpendStep? {
      SpendPlaces(w, s, s', step, t);
    } else if step.StartMonitorStep? || step.TickStep? || step.EnterMonitorStep? {
      TickPlaces(w, s, s', step, t);
    } else {
      SweepPlaces(w, s, s', step, t);
    }
  }
}
