/** No pending task is lost: some job, goroutine, registered intent or session is always in charge of it. */
module DelegateTracking {
  import opened Tasks
  import opened DelegateProtocol
  import opened DelegateSafety
  import opened DelegateRuns
  import opened DelegateOrigins
  import opened DelegateOutcomes
  import opened DelegateSessions

  predicate Selects(selected: seq<Registered>, from: nat, id: string) {
    exists k :: from <= k < |selected| && selected[k].taskID == id
  }

  /** The goroutine is in charge of the task. */
  predicate InCharge(th: Thread, id: string) {
    match th
    case Added(task) => task.id == id
    case Unscheduled(x) => x == id
    case Registering(x) => x == id
    case Reading(x) => x == id
    case Read(task) => task.id == id
    case Checked(task) => task.id == id
    case Rejected(x) => x == id
    case Accepted(task, _) => task.id == id
    case Running(_, selected) => Selects(selected, 0, id)
    case Forgetting(_, selected, _, _) => Selects(selected, 0, id)
    case Completing(_, selected, _) => Selects(selected, 0, id)
    case Retrying(selected, next) => Selects(selected, next, id)
    case AwaitingRetry(selected, next, _) => Selects(selected, next + 1, id)
    case Releasing(after) => after.Read? && after.task.id == id
    case _ => false
  }

  ghost predicate Handled(s: State, id: string) {
    exists t :: t in s.threads && InCharge(s.threads[t], id)
  }

  ghost predicate HasIntent(s: State, id: string) {
    exists hash :: hash in s.intents && s.intents[hash].taskID == id
  }

  /** Somebody is in charge of the task. */
  ghost predicate Tracked(s: State, id: string) {
    id in s.scheduled || Handled(s, id) || HasIntent(s, id)
  }

  /**
   * What can lose a task: a call about it that fails, a goroutine in charge of it that is stopped, a restart that does
   * not schedule it again, and two intents with one hash.
   */
  predicate Fault(w: World, s: State, step: Step, id: string) {
    match step
    case ReadTaskStep(_, x, fails) => x == id && fails
    case FailUnscheduledStep(_, x, _, fails) => x == id && fails
    case FailRejectedStep(_, x, _, fails) => x == id && fails
    case StopStep(t) => t in s.threads && InCharge(s.threads[t], id)
    case RestartStep(ids) => id !in ids
    case RememberStep(_, task, intentID) => task.id != id && IntentFor(s, w.hash(intentID), id)
    case ForgetStep(_, _, selected, _, next) =>
      next < |selected| && selected[next].taskID != id && IntentFor(s, w.hash(selected[next].intentID), id)
    case _ => false
  }

  predicate IntentFor(s: State, hash: string, id: string) {
    hash in s.intents && s.intents[hash].taskID == id
  }

  // ---- The goroutine in charge moves on ----

  lemma StillHandled(s: State, t: nat, id: string)
    requires t in s.threads && InCharge(s.threads[t], id)
    ensures Tracked(s, id)
  {}

  /** Within a submission and a registration. */
  lemma ScheduleHandsOn(w: World, s: State, s': State, t: nat, task: Task, fails: bool)
    requires Takes(w, s, s', ScheduleStep(t, task, fails))
    ensures Tracked(s', task.id)
  {
    if fails { StillHandled(s', t, task.id); }
  }

  lemma EnterHandsOn(w: World, s: State, s': State, t: nat, id: string)
    requires Takes(w, s, s', EnterRegisterStep(t, id))
    ensures Tracked(s', id)
  {
    StillHandled(s', t, id);
  }

  lemma ReadHandsOn(w: World, s: State, s': State, t: nat, id: string)
    requires Takes(w, s, s', ReadTaskStep(t, id, false)) && id in s.repo && s.repo[id].id == id
    ensures Tracked(s', id)
  {
    StillHandled(s', t, id);
  }

  lemma ReleaseHandsOn(w: World, s: State, s': State, t: nat, id: string)
    requires Takes(w, s, s', ReleaseStep(t)) && s.threads[t].after.Read? && s.threads[t].after.task.id == id
    ensures Tracked(s', id)
  {
    StillHandled(s', t, id);
  }

  lemma StatusHandsOn(w: World, s: State, s': State, t: nat, task: Task)
    requires Takes(w, s, s', CheckStatusStep(t, task)) && task.status == Pending
    ensures Tracked(s', task.id)
  {
    StillHandled(s', t, task.id);
  }

  lemma ServerHandsOn(w: World, s: State, s': State, step: Step)
    requires step.CallServerStep? && Takes(w, s, s', step)
    ensures Tracked(s', step.task.id)
  {
    StillHandled(s', step.t, step.task.id);
  }

  lemma RememberHandsOn(w: World, s: State, s': State, t: nat, task: Task, intentID: string)
    requires Takes(w, s, s', RememberStep(t, task, intentID))
    ensures Tracked(s', task.id)
  {
    assert s'.intents[w.hash(intentID)].taskID == task.id;
  }

  /** Within a session. */
  lemma BatchHandsOn(w: World, s: State, s': State, step: Step, id: string)
    requires step.BatchFinalizedStep? || step.BatchFailedStep? || step.ForgetStep?
    requires Takes(w, s, s', step) && Selects(step.selected, 0, id)
    ensures Tracked(s', id)
  {
    StillHandled(s', step.t, id);
  }

  lemma FinishHandsOn(w: World, s: State, s': State, t: nat, session: nat, selected: seq<Registered>, txid: string,
                      done: set<string>, id: string)
    requires Takes(w, s, s', FinishStep(t, session, selected, txid, done)) && Selects(selected, 0, id)
    requires IsPending(s.repo, id) && IsPending(s'.repo, id)
    ensures Tracked(s', id)
  {
    var k :| 0 <= k < |selected| && selected[k].taskID == id;
    assert selected[k] in selected;
    assert id in TaskIds(selected) && id !in done;
    StillHandled(s', t, id);
  }

  lemma RetryHandsOn(w: World, s: State, s': State, t: nat, selected: seq<Registered>, next: nat, worker: nat,
                     id: string)
    requires Takes(w, s, s', RetryStep(t, selected, next, worker)) && Selects(selected, next, id)
    ensures Tracked(s', id)
  {
    var k :| next <= k < |selected| && selected[k].taskID == id;
    if k == next { StillHandled(s', worker, id); } else { StillHandled(s', t, id); }
  }

  lemma RetriedHandsOn(w: World, s: State, s': State, t: nat, selected: seq<Registered>, next: nat, worker: nat,
                       id: string)
    requires Takes(w, s, s', RetriedStep(t, selected, next, worker)) && Selects(selected, next + 1, id)
    ensures Tracked(s', id)
  {
    StillHandled(s', t, id);
  }

  // ---- One step ----

  lemma FailureSettles(w: World, s: State, s': State, step: Step, id: string)
    requires (step.FailUnscheduledStep? || step.FailRejectedStep?) && step.id == id && !step.fails
    requires Takes(w, s, s', step)
    ensures !IsPending(s'.repo, id)
  {}

  /** A copy of a task that is still pending was pending when it was read. */
  lemma CopyIsPending(w: World, run: seq<State>, steps: seq<Step>, i: nat, task: Task)
    requires IsRunOf(w, run, steps) && i < |run| && WasStored(run, i, task) && IsPending(run[i].repo, task.id)
    ensures task.status == Pending
  {
    hide Takes;
    var k: nat :| k < i && task.id in run[k].repo && run[k].repo[task.id] == task;
    StepsMakeRun(w, run, steps);
    TerminalForever(w, run, k, i, task.id);
  }

  /** What a goroutine in charge does next. */
  predicate Charged(step: Step, th: Thread, id: string) {
    match step
    case ScheduleStep(_, task, _) => task.id == id
    case FailUnscheduledStep(_, x, _, _) => x == id
    case EnterRegisterStep(_, x) => x == id
    case ReadTaskStep(_, x, _) => x == id
    case ReleaseStep(_) => th.Releasing? && th.after.Read? && th.after.task.id == id
    case CheckStatusStep(_, task) => task.id == id
    case CallServerStep(_, task, _) => task.id == id
    case FailRejectedStep(_, x, _, _) => x == id
    case RememberStep(_, task, _) => task.id == id
    case BatchFinalizedStep(_, _, selected, _) => Selects(selected, 0, id)
    case ForgetStep(_, _, selected, _, _) => Selects(selected, 0, id)
    case FinishStep(_, _, selected, _, _) => Selects(selected, 0, id)
    case BatchFailedStep(_, _, selected) => Selects(selected, 0, id)
    case RetryStep(_, selected, next, _) => Selects(selected, next, id)
    case RetriedStep(_, selected, next, _) => Selects(selected, next + 1, id)
    case StopStep(_) => true
    case _ => false
  }

  lemma ChargedNext(step: Step, th: Thread, id: string)
    requires InCharge(th, id) && LeavesFrom(step, th)
    ensures Charged(step, th, id)
  {
    hide Selects;
  }

  lemma RegistrationHandsOn(w: World, run: seq<State>, steps: seq<Step>, i: nat, t: nat, id: string)
    requires IsRunOf(w, run, steps) && i < |steps| && IsBy(steps[i], t) && t in run[i].threads
    requires Charged(steps[i], run[i].threads[t], id) && !Fault(w, run[i], steps[i], id)
    requires SubmissionStep(steps[i]) || RegistrationStep(steps[i])
    requires LeavesFrom(steps[i], run[i].threads[t]) && Story(run, steps, i, t, run[i].threads[t])
    requires IsPending(run[i].repo, id) && IsPending(run[i + 1].repo, id) && run[i].repo[id].id == id
    ensures Tracked(run[i + 1], id)
  {
    hide Takes, Tracked, WasStored, IsPending, Inv;
    StepOf(w, run, steps, i);
    var (s, s', step) := (run[i], run[i + 1], steps[i]);
    match step
    case ScheduleStep(_, task, fails) => ScheduleHandsOn(w, s, s', t, task, fails);
    case FailUnscheduledStep(_, _, _, _) => FailureSettles(w, s, s', step, id);
    case EnterRegisterStep(_, _) => EnterHandsOn(w, s, s', t, id);
    case ReadTaskStep(_, _, _) =>
      assert id in s.repo by { PendingIsStored(s.repo, id); }
      ReadHandsOn(w, s, s', t, id);
    case ReleaseStep(_) => ReleaseHandsOn(w, s, s', t, id);
    case CheckStatusStep(_, task) =>
      CopyIsPending(w, run, steps, i, task);
      StatusHandsOn(w, s, s', t, task);
    case CallServerStep(_, _, _) => ServerHandsOn(w, s, s', step);
    case FailRejectedStep(_, _, _, _) => FailureSettles(w, s, s', step, id);
    case RememberStep(_, task, intentID) => RememberHandsOn(w, s, s', t, task, intentID);
  }

  lemma PendingIsStored(repo: Repo, id: string)
    requires IsPending(repo, id)
    ensures id in repo
  {}

  lemma SessionHandsOn(w: World, s: State, s': State, step: Step, t: nat, id: string)
    requires Takes(w, s, s', step) && SessionStep(step) && IsBy(step, t) && t in s.threads
    requires Charged(step, s.threads[t], id) && !Fault(w, s, step, id) && InCharge(s.threads[t], id)
    requires IsPending(s.repo, id) && IsPending(s'.repo, id)
    ensures Tracked(s', id)
  {
    hide Takes, Tracked, IsPending, Selects;
    match step
    case BatchFinalizedStep(_, _, _, _) => BatchHandsOn(w, s, s', step, id);
    case ForgetStep(_, _, _, _, _) => BatchHandsOn(w, s, s', step, id);
    case FinishStep(_, session, selected, txid, done) =>
      FinishHandsOn(w, s, s', t, session, selected, txid, done, id);
    case BatchFailedStep(_, _, _) => BatchHandsOn(w, s, s', step, id);
    case RetryStep(_, selected, next, worker) => RetryHandsOn(w, s, s', t, selected, next, worker, id);
    case RetriedStep(_, selected, next, worker) => RetriedHandsOn(w, s, s', t, selected, next, worker, id);
    case _ =>
  }

  lemma ChargedKind(step: Step, th: Thread, id: string)
    requires Charged(step, th, id)
    ensures SubmissionStep(step) || RegistrationStep(step) || SessionStep(step)
  {
    hide Selects;
  }

  /** A restart keeps the jobs of its tasks, and nothing else. */
  lemma RestartTracks(w: World, s: State, s': State, step: Step, id: string)
    requires Takes(w, s, s', step) && step.RestartStep? && !Fault(w, s, step, id)
    ensures Tracked(s', id)
  {}

  lemma HandlerStep(w: World, run: seq<State>, steps: seq<Step>, i: nat, t: nat, id: string)
    requires IsRunOf(w, run, steps) && i < |steps| && t in run[i].threads && InCharge(run[i].threads[t], id)
    requires IsPending(run[i].repo, id) && IsPending(run[i + 1].repo, id) && !Fault(w, run[i], steps[i], id)
    ensures Tracked(run[i + 1], id)
  {
    hide Takes, Inv, InCharge, Fault, Tracked, IsPending, Story, Charged, LeavesFrom, Leads;
    StepOf(w, run, steps, i);
    var (s, s', step) := (run[i], run[i + 1], steps[i]);
    StepPlaces(w, s, s', step, t);
    if step.RestartStep? {
      RestartTracks(w, s, s', step, id);
    } else if s'.threads[t] == s.threads[t] {
      StillHandled(s', t, id);
    } else {
      ChargedNext(step, s.threads[t], id);
      ChargedKind(step, s.threads[t], id);
      RunTells(w, run, steps, i);
      if SessionStep(step) {
        SessionHandsOn(w, s, s', step, t, id);
      } else {
        PendingIsStored(s.repo, id);
        StoredUnderItsId(w, s.repo, id) by { RepoIs(w, s); }
        RegistrationHandsOn(w, run, steps, i, t, id);
      }
    }
  }

  // ---- Jobs and intents ----

  lemma JobStep(w: World, s: State, s': State, step: Step, id: string)
    requires Takes(w, s, s', step) && id in s.scheduled && !Fault(w, s, step, id)
    ensures Tracked(s', id)
  {
    hide Takes, Fault, Tracked;
    if step.RunJobStep? {
      JobRuns(w, s, s', step, id);
    } else if step.RestartStep? {
      RestartTracks(w, s, s', step, id);
    } else {
      if SubmissionStep(step) { SubmissionJobs(w, s, s', step, id); } else { OtherJobs(w, s, s', step, id); }
      ScheduledIsTracked(s', id);
    }
  }

  lemma ScheduledIsTracked(s: State, id: string)
    requires id in s.scheduled
    ensures Tracked(s, id)
  {}

  lemma JobRuns(w: World, s: State, s': State, step: Step, id: string)
    requires Takes(w, s, s', step) && id in s.scheduled && step.RunJobStep?
    ensures Tracked(s', id)
  {
    if step.id == id { StillHandled(s', step.t, id); }
  }

  lemma SubmissionJobs(w: World, s: State, s': State, step: Step, id: string)
    requires Takes(w, s, s', step) && SubmissionStep(step) && id in s.scheduled
    ensures id in s'.scheduled
  {
    hide Settle, PendingByInputs, NewTask;
    match step
    case _ =>
  }

  lemma OtherJobs(w: World, s: State, s': State, step: Step, id: string)
    requires Takes(w, s, s', step) && !SubmissionStep(step) && !step.RunJobStep? && !step.RestartStep?
    requires id in s.scheduled
    ensures id in s'.scheduled
  {
    hide Settle, PendingByInputs, Select, SelectionEvents, AllPending, TaskIds, NewTask;
    match step
    case _ =>
  }

  lemma IntentIsTracked(s: State, hash: string, id: string)
    requires IntentFor(s, hash, id)
    ensures Tracked(s, id)
  {}

  lemma IntentsStep(w: World, run: seq<State>, steps: seq<Step>, i: nat, hash: string, id: string)
    requires IsRunOf(w, run, steps) && i < |steps| && IntentFor(run[i], hash, id)
    requires IsPending(run[i].repo, id) && IsPending(run[i + 1].repo, id) && !Fault(w, run[i], steps[i], id)
    ensures Tracked(run[i + 1], id)
  {
    hide Takes, Inv, Tracked, IsPending;
    StepOf(w, run, steps, i);
    var (s, s', step) := (run[i], run[i + 1], steps[i]);
    IntentsChangeSo(w, s, s', step, hash);
    if step.RestartStep? {
      RestartTracks(w, s, s', step, id);
    } else if Forgets(w, step, hash) {
      StepPlaces(w, s, s', step, step.t);
      assert step.selected[step.next].taskID == id;
      HandlerStep(w, run, steps, i, step.t, id);
    } else {
      IntentIsTracked(s', hash, id);
    }
  }

  // ---- Runs ----

  lemma TrackedNext(w: World, run: seq<State>, steps: seq<Step>, i: nat, id: string)
    requires IsRunOf(w, run, steps) && i < |steps| && Tracked(run[i], id)
    requires IsPending(run[i].repo, id) && IsPending(run[i + 1].repo, id) && !Fault(w, run[i], steps[i], id)
    ensures Tracked(run[i + 1], id)
  {
    hide Takes, Fault, IsPending, InCharge;
    if id in run[i].scheduled {
      assert Takes(w, run[i], run[i + 1], steps[i]);
      JobStep(w, run[i], run[i + 1], steps[i], id);
    } else if Handled(run[i], id) {
      var t :| t in run[i].threads && InCharge(run[i].threads[t], id);
      HandlerStep(w, run, steps, i, t, id);
    } else {
      var hash :| hash in run[i].intents && run[i].intents[hash].taskID == id;
      IntentsStep(w, run, steps, i, hash, id);
    }
  }

  /** A task that has just become pending has been added, by a submission that is in charge of it. */
  lemma TrackedFirst(w: World, run: seq<State>, steps: seq<Step>, i: nat, id: string)
    requires IsRunOf(w, run, steps) && i < |steps|
    requires !IsPending(run[i].repo, id) && IsPending(run[i + 1].repo, id)
    ensures Tracked(run[i + 1], id)
  {
    hide Takes, Tracked, AddedBy, Inv;
    StepOf(w, run, steps, i);
    if id in run[i].repo {
      StepSettles(w, run[i], run[i + 1], steps[i], id);
    } else {
      TasksWereSubmitted(w, run, steps, i, id);
      AddedIsSave(run, steps, i, run[i + 1].repo[id]);
      SaveTracks(w, run[i], run[i + 1], steps[i], id);
    }
  }

  lemma AddedIsSave(run: seq<State>, steps: seq<Step>, i: nat, task: Task)
    requires i < |steps| < |run| && AddedBy(run, steps, i, task)
    ensures steps[i].SaveStep? && steps[i].task == task
  {}

  lemma SaveTracks(w: World, s: State, s': State, step: Step, id: string)
    requires Takes(w, s, s', step) && step.SaveStep? && step.task.id == id && id !in s.repo && id in s'.repo
    ensures Tracked(s', id)
  {
    StillHandled(s', step.t, id);
  }

  /**
   * As long as no such fault concerns it, a pending task is never lost: a job is scheduled for it, a goroutine is in
   * charge of it, or an intent is registered for it.
   */
  lemma {:induction false} NoPendingTaskIsLost(w: World, run: seq<State>, steps: seq<Step>, i: nat, id: string)
    requires IsRunOf(w, run, steps) && i <= |steps| && IsPending(run[i].repo, id)
    requires forall j :: 0 <= j < i ==> !Fault(w, run[j], steps[j], id)
    ensures Tracked(run[i], id)
  {
    hide Takes, Fault, Tracked;
    if i > 0 {
      if IsPending(run[i - 1].repo, id) {
        NoPendingTaskIsLost(w, run, steps, i - 1, id);
        TrackedNext(w, run, steps, i - 1, id);
      } else {
        TrackedFirst(w, run, steps, i - 1, id);
      }
    }
  }
}
