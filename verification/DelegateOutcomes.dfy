/** Which tasks a run adds, replaces and settles, told by the steps that led to it. */
module DelegateOutcomes {
  import opened Tasks
  import opened DelegateProtocol
  import opened DelegateSafety
  import opened DelegateRuns
  import opened DelegateOrigins

  // ---- Adding ----

  /** Nothing pending shares an input with the task. */
  ghost predicate AddedBy(run: seq<State>, steps: seq<Step>, i: nat, task: Task)
    requires i < |steps| < |run|
  {
    && steps[i].SaveStep? && steps[i].task == task && task.status == Pending
    && NonePendingOn(run[i].repo, task.intent.inputs)
    && MayAdd(run, steps, i, steps[i].t, task)
  }

  /**
   * A task comes into the repository as a submission gave it, pending, and when nothing pending has one of its inputs;
   * and a submission that must not replace others has found nothing to replace when it looked.
   */
  lemma TasksWereSubmitted(w: World, run: seq<State>, steps: seq<Step>, i: nat, id: string)
    requires IsRunOf(w, run, steps) && i < |steps| && id !in run[i].repo && id in run[i + 1].repo
    ensures AddedBy(run, steps, i, run[i + 1].repo[id]) && run[i + 1].repo[id].id == id
  {
    hide Takes, Inv, MayAdd, NonePendingOn;
    StepOf(w, run, steps, i);
    RunTells(w, run, steps, i);
    var step := steps[i];
    if step.SaveStep? {
      SavedTask(w, run, steps, i, id);
    } else if Settling(step) {
      SettlingAddsNone(w, run[i], run[i + 1], step);
    } else {
      QuietRepo(w, run[i], run[i + 1], step);
    }
  }

  lemma SettlingAddsNone(w: World, s: State, s': State, step: Step)
    requires Takes(w, s, s', step) && Settling(step)
    ensures s'.repo.Keys == s.repo.Keys
  {
    match step
    case _ =>
  }

  lemma SavedTask(w: World, run: seq<State>, steps: seq<Step>, i: nat, id: string)
    requires |run| == |steps| + 1 && i < |steps| && Takes(w, run[i], run[i + 1], steps[i]) && steps[i].SaveStep?
    requires Inv(w, run[i]) && Stories(run, steps, i) && id !in run[i].repo && id in run[i + 1].repo
    ensures AddedBy(run, steps, i, run[i + 1].repo[id]) && run[i + 1].repo[id].id == id
  {
    hide MayAdd, NonePendingOn, RepoOk, IntentsOk, CompletedOk, LockOk;
    var (t, task) := (steps[i].t, steps[i].task);
    assert run[i].threads[t] == Clear(task);
    assert ThreadOk(w, run[i].repo, run[i].history, Clear(task));
    assert Story(run, steps, i, t, Clear(task));
  }

  // ---- Settling ----

  /** The story behind a task that a step has just settled, which was still pending before. */
  ghost predicate SettledFor(run: seq<State>, steps: seq<Step>, i: nat, before: Task, after: Task)
    requires i < |steps| < |run|
  {
    match steps[i]
    case ReplaceStep(t, task, _, _) =>
      && after == before.(status := Cancelled)
      && WasSubmitted(steps, i, t, task, true) && Overlap(before.intent.inputs, task.intent.inputs)
    case SweepStep(_, _, taken, _, _, _) =>
      after == before.(status := Cancelled) && Overlap(before.intent.inputs, taken)
    case FailUnscheduledStep(t, id, reason, _) =>
      after == before.(status := Failed, failReason := reason) && id == before.id && WasUnscheduled(steps, i, t, id)
    case FailRejectedStep(t, id, reason, _) =>
      after == before.(status := Failed, failReason := reason) && id == before.id && WasRejected(steps, i, t, id)
    case FinishStep(_, _, selected, txid, _) =>
      && after == before.(status := Completed, commitmentTxid := txid)
      && exists r :: r in selected && r.taskID == before.id
    case _ => false
  }

  /** The inputs of a task do not change, so a task that was found by its inputs still has one of them. */
  lemma StillOverlaps(w: World, run: seq<State>, steps: seq<Step>, i: nat, inputs: seq<Outpoint>, ids: set<string>,
                      id: string)
    requires IsRunOf(w, run, steps) && i < |run| && WerePendingOn(run, i, inputs, ids) && id in ids
    ensures id in run[i].repo && Overlap(run[i].repo[id].intent.inputs, inputs)
  {
    hide IsRunOf, IsRun, Overlap;
    var k: nat :| k < i && PendingOn(run[k].repo, inputs, ids);
    StepsMakeRun(w, run, steps);
    TerminalForever(w, run, k, i, id);
  }

  lemma HowIsSettling(step: Step, id: string, before: Task, after: Task)
    requires SettledHow(step, id, before, after)
    ensures Settling(step) && !Begins(step) && IsBy(step, step.t)
  {}

  lemma ReplacedFor(w: World, run: seq<State>, steps: seq<Step>, i: nat, id: string, after: Task)
    requires IsRunOf(w, run, steps) && i < |steps| < |run| && id in run[i].repo && steps[i].ReplaceStep?
    requires SettledHow(steps[i], id, run[i].repo[id], after)
    requires Story(run, steps, i, steps[i].t, Replacing(steps[i].task, steps[i].ids))
    ensures SettledFor(run, steps, i, run[i].repo[id], after)
  {
    hide IsRunOf, WasSubmitted, WerePendingOn, Overlap;
    StillOverlaps(w, run, steps, i, steps[i].task.intent.inputs, steps[i].ids, id);
  }

  lemma SweptFor(w: World, run: seq<State>, steps: seq<Step>, i: nat, id: string, after: Task)
    requires IsRunOf(w, run, steps) && i < |steps| < |run| && id in run[i].repo && steps[i].SweepStep?
    requires SettledHow(steps[i], id, run[i].repo[id], after)
    requires Story(run, steps, i, steps[i].t, Sweeping(steps[i].spent, steps[i].taken, steps[i].ids, steps[i].found))
    ensures SettledFor(run, steps, i, run[i].repo[id], after)
  {
    hide IsRunOf, WasSubmitted, WerePendingOn, Overlap;
    StillOverlaps(w, run, steps, i, steps[i].taken, steps[i].ids, id);
  }

  lemma OtherwiseFor(run: seq<State>, steps: seq<Step>, i: nat, before: Task, after: Task, th: Thread)
    requires i < |steps| < |run| && !steps[i].ReplaceStep? && !steps[i].SweepStep?
    requires SettledHow(steps[i], before.id, before, after)
    requires Settling(steps[i]) && LeavesFrom(steps[i], th) && Story(run, steps, i, steps[i].t, th)
    ensures SettledFor(run, steps, i, before, after)
  {
    hide WasSubmitted, WasUnscheduled, WasRejected;
  }

  /**
   * A stored task changes in a step only when it is pending. It is cancelled by a submission that may replace others
   * and has one of its inputs, or by a sweep that took one of them; it fails when it could not be scheduled or the
   * server refused it; and it is completed by a session that had selected it.
   */
  lemma TasksAreSettledFor(w: World, run: seq<State>, steps: seq<Step>, i: nat, id: string)
    requires IsRunOf(w, run, steps) && i < |steps| && id in run[i].repo && id in run[i + 1].repo
    requires run[i + 1].repo[id] != run[i].repo[id]
    ensures IsPending(run[i].repo, id) && SettledFor(run, steps, i, run[i].repo[id], run[i + 1].repo[id])
  {
    hide Takes, SettledHow, SettledFor, Story, LeavesFrom, RepoOk, ThreadsOk, LockOk, IntentsOk, CompletedOk;
    var (before, after) := (run[i].repo[id], run[i + 1].repo[id]);
    StepOf(w, run, steps, i);
    StepSettlesSo(w, run[i], run[i + 1], steps[i], id);
    HowIsSettling(steps[i], id, before, after);
    var t := steps[i].t;
    StepPlaces(w, run[i], run[i + 1], steps[i], t);
    RunTells(w, run, steps, i);
    StoredUnderItsId(w, run[i].repo, id);
    CauseIs(w, run, steps, i, id, after);
  }

  lemma CauseIs(w: World, run: seq<State>, steps: seq<Step>, i: nat, id: string, after: Task)
    requires IsRunOf(w, run, steps) && i < |steps| < |run| && id in run[i].repo && run[i].repo[id].id == id
    requires SettledHow(steps[i], id, run[i].repo[id], after) && Settling(steps[i])
    requires var t := steps[i].t;
      t in run[i].threads && LeavesFrom(steps[i], run[i].threads[t]) && Story(run, steps, i, t, run[i].threads[t])
    ensures SettledFor(run, steps, i, run[i].repo[id], after)
  {
    hide IsRunOf, SettledHow, SettledFor, Story;
    if steps[i].ReplaceStep? {
      ReplacedFor(w, run, steps, i, id, after);
    } else if steps[i].SweepStep? {
      SweptFor(w, run, steps, i, id, after);
    } else {
      OtherwiseFor(run, steps, i, run[i].repo[id], after, run[i].threads[steps[i].t]);
    }
  }

  // ---- Refused submissions ----

  /** A submission that has ended, or has only to release the mutex. */
  predicate Ended(th: Thread) {
    th == Done || th == Releasing(Done)
  }

  lemma EndedPlace(s: State, s': State, step: Step, t: nat)
    requires Placed(s, s', step, t) && t in s.threads && Ended(s.threads[t]) && !step.RestartStep?
    ensures t in s'.threads && Ended(s'.threads[t])
    ensures IsBy(step, t) ==> step.ReleaseStep? || step.StopStep?
  {}

  lemma {:induction false} EndedStays(w: World, run: seq<State>, steps: seq<Step>, k: nat, i: nat, t: nat)
    requires IsRunOf(w, run, steps) && k <= i <= |steps| && NoRestart(steps, k, i)
    requires t in run[k].threads && Ended(run[k].threads[t])
    ensures t in run[i].threads && Ended(run[i].threads[t])
    decreases i
  {
    hide Takes, Inv, Placed, Ended;
    if k < i {
      EndedStays(w, run, steps, k, i - 1, t);
      StepOf(w, run, steps, i - 1);
      StepPlaces(w, run[i - 1], run[i], steps[i - 1], t);
      EndedPlace(run[i - 1], run[i], steps[i - 1], t);
    }
  }

  /** A goroutine that has ended changes nothing in the repository any more. */
  lemma EndedIsQuiet(w: World, run: seq<State>, steps: seq<Step>, i: nat, t: nat)
    requires IsRunOf(w, run, steps) && i < |steps| && t in run[i].threads && Ended(run[i].threads[t])
    requires IsBy(steps[i], t)
    ensures run[i + 1].repo == run[i].repo && run[i + 1].scheduled == run[i].scheduled
  {
    hide Takes, Inv, Placed, Ended;
    StepOf(w, run, steps, i);
    StepPlaces(w, run[i], run[i + 1], steps[i], t);
    EndedPlace(run[i], run[i + 1], steps[i], t);
    EndingIsQuiet(w, run[i], run[i + 1], steps[i]);
  }

  lemma EndingIsQuiet(w: World, s: State, s': State, step: Step)
    requires Takes(w, s, s', step) && (step.ReleaseStep? || step.StopStep?)
    ensures s'.repo == s.repo && s'.scheduled == s.scheduled
  {}

  /**
   * A submission that must not replace others, and meets a pending task on one of its inputs, is refused: it changes
   * nothing then, nor later.
   */
  lemma OverlapIsRefused(w: World, run: seq<State>, steps: seq<Step>, k: nat, i: nat, t: nat, task: Task, fails: bool,
                         id: string)
    requires IsRunOf(w, run, steps) && k < i <= |steps| && NoRestart(steps, k, i)
    requires steps[k] == CheckInputsStep(t, task, false, fails)
    requires IsPending(run[k].repo, id) && Overlap(run[k].repo[id].intent.inputs, task.intent.inputs)
    ensures run[k + 1].repo == run[k].repo && run[k + 1].scheduled == run[k].scheduled
    ensures t in run[i].threads && Ended(run[i].threads[t])
    ensures i < |steps| && IsBy(steps[i], t) ==>
      run[i + 1].repo == run[i].repo && run[i + 1].scheduled == run[i].scheduled
  {
    hide Takes, Inv, Ended, Overlap;
    StepOf(w, run, steps, k);
    RefusedAt(w, run[k], run[k + 1], t, task, fails, id);
    EndedStays(w, run, steps, k + 1, i, t);
    if i < |steps| && IsBy(steps[i], t) { EndedIsQuiet(w, run, steps, i, t); }
  }

  lemma RefusedAt(w: World, s: State, s': State, t: nat, task: Task, fails: bool, id: string)
    requires Takes(w, s, s', CheckInputsStep(t, task, false, fails))
    requires IsPending(s.repo, id) && Overlap(s.repo[id].intent.inputs, task.intent.inputs)
    ensures s'.repo == s.repo && s'.scheduled == s.scheduled && t in s'.threads && Ended(s'.threads[t])
  {
    hide Overlap;
    assert id in PendingByInputs(s.repo, task.intent.inputs);
  }

  /** One that may replace others goes on to cancel just those, and one that meets none goes on to add its task. */
  lemma OverlapIsFound(w: World, run: seq<State>, steps: seq<Step>, k: nat, t: nat, task: Task, allowReplace: bool)
    requires IsRunOf(w, run, steps) && k < |steps| && steps[k] == CheckInputsStep(t, task, allowReplace, false)
    ensures t in run[k + 1].threads
    ensures NonePendingOn(run[k].repo, task.intent.inputs) ==> run[k + 1].threads[t] == Clear(task)
    ensures !NonePendingOn(run[k].repo, task.intent.inputs) && allowReplace ==>
      && run[k + 1].threads[t].Replacing? && run[k + 1].threads[t].task == task
      && forall id :: id in run[k + 1].threads[t].ids <==>
           IsPending(run[k].repo, id) && Overlap(run[k].repo[id].intent.inputs, task.intent.inputs)
  {
    hide Takes, Inv, NonePendingOn;
    StepOf(w, run, steps, k);
    FoundAt(w, run[k], run[k + 1], t, task, allowReplace);
  }

  lemma FoundAt(w: World, s: State, s': State, t: nat, task: Task, allowReplace: bool)
    requires Takes(w, s, s', CheckInputsStep(t, task, allowReplace, false))
    ensures t in s'.threads
    ensures NonePendingOn(s.repo, task.intent.inputs) ==> s'.threads[t] == Clear(task)
    ensures !NonePendingOn(s.repo, task.intent.inputs) && allowReplace ==>
      && s'.threads[t].Replacing? && s'.threads[t].task == task
      && forall id :: id in s'.threads[t].ids <==>
           IsPending(s.repo, id) && Overlap(s.repo[id].intent.inputs, task.intent.inputs)
  {
    hide Overlap, NonePendingOn;
    FreeWhenEmpty(s.repo, task.intent.inputs);
  }

  /** A pending task with the same transaction. */
  ghost predicate Duplicated(repo: Repo, task: Task) {
    exists id :: id in repo && repo[id].status == Pending && repo[id].intent.txid == task.intent.txid
  }

  /**
   * A submission goes past the duplicate check just when no pending task has its transaction, or the query fails;
   * otherwise it changes nothing then, nor later.
   */
  lemma DuplicatesAreRefused(w: World, run: seq<State>, steps: seq<Step>, k: nat, i: nat, t: nat, task: Task,
                             allowReplace: bool, fails: bool)
    requires IsRunOf(w, run, steps) && k < i <= |steps| && NoRestart(steps, k, i)
    requires steps[k] == CheckDuplicateStep(t, task, allowReplace, fails)
    ensures run[k + 1].repo == run[k].repo && run[k + 1].scheduled == run[k].scheduled && t in run[k + 1].threads
    ensures fails || !Duplicated(run[k].repo, task) ==> run[k + 1].threads[t] == Unchecked(task, allowReplace)
    ensures !fails && Duplicated(run[k].repo, task) ==>
      && t in run[i].threads && Ended(run[i].threads[t])
      && (i < |steps| && IsBy(steps[i], t) ==>
            run[i + 1].repo == run[i].repo && run[i + 1].scheduled == run[i].scheduled)
  {
    hide Takes, Inv, Duplicated;
    StepOf(w, run, steps, k);
    CheckedAt(w, run[k], run[k + 1], t, task, allowReplace, fails);
    if !fails && Duplicated(run[k].repo, task) {
      EndedStays(w, run, steps, k + 1, i, t);
      if i < |steps| && IsBy(steps[i], t) { EndedIsQuiet(w, run, steps, i, t); }
    }
  }

  lemma CheckedAt(w: World, s: State, s': State, t: nat, task: Task, allowReplace: bool, fails: bool)
    requires Takes(w, s, s', CheckDuplicateStep(t, task, allowReplace, fails))
    ensures s'.repo == s.repo && s'.scheduled == s.scheduled && t in s'.threads
    ensures s'.threads[t] == if !fails && Duplicated(s.repo, task) then Done else Unchecked(task, allowReplace)
  {
    assert Duplicated(s.repo, task) <==>
      exists id :: IsPending(s.repo, id) && s.repo[id].intent.txid == task.intent.txid;
  }

  // ---- One submission ----

  /** The places of the submission of a task. */
  predicate Submits(th: Thread, task: Task) {
    match th
    case Submitted(x, _) => x == task
    case Unchecked(x, _) => x == task
    case Holding(x, _) => x == task
    case Replacing(x, _) => x == task
    case Clear(x) => x == task
    case Added(x) => x == task
    case Unscheduled(id) => id == task.id
    case Releasing(after) => after == Done
    case Done => true
    case _ => false
  }

  lemma SubmitsOn(s: State, s': State, step: Step, t: nat, task: Task)
    requires Placed(s, s', step, t) && t in s.threads && Submits(s.threads[t], task) && !step.RestartStep?
    ensures t in s'.threads && Submits(s'.threads[t], task)
  {
    if s'.threads[t] != s.threads[t] {
      SubmitsNext(s.threads[t], s'.threads[t], step, task);
    }
  }

  lemma SubmitsNext(th: Thread, th': Thread, step: Step, task: Task)
    requires Submits(th, task) && LeavesFrom(step, th) && Leads(step, th')
    requires step.ReleaseStep? ==> th.Releasing? && th' == th.after
    ensures Submits(th', task)
  {
    hide Submits, LeavesFrom, Leads;
    SubmitsStep(th, step, task);
    if step.ReleaseStep? {
      SubmitsAfter(th, task);
    } else if step.StopStep? {
      StopLeads(step, th', task);
    } else {
      SubmitsByStep(th, th', step, task);
    }
  }

  lemma SubmitsStep(th: Thread, step: Step, task: Task)
    requires Submits(th, task) && LeavesFrom(step, th)
    ensures SubmissionStep(step) || step.StopStep?
  {}

  lemma SubmitsAfter(th: Thread, task: Task)
    requires Submits(th, task) && th.Releasing?
    ensures Submits(th.after, task)
  {}

  lemma StopLeads(step: Step, th: Thread, task: Task)
    requires step.StopStep? && Leads(step, th)
    ensures Submits(th, task)
  {}

  lemma SubmitsByStep(th: Thread, th': Thread, step: Step, task: Task)
    requires Submits(th, task) && LeavesFrom(step, th) && Leads(step, th') && SubmissionStep(step) && !step.ReleaseStep?
    ensures Submits(th', task)
  {}

  lemma {:induction false} SubmitsFrom(w: World, run: seq<State>, steps: seq<Step>, j: nat, i: nat, t: nat, task: Task,
                                       allowReplace: bool)
    requires IsRunOf(w, run, steps) && i <= |steps| && SubmittedAt(steps, i, j, t, task, allowReplace)
    ensures t in run[i].threads && Submits(run[i].threads[t], task)
    decreases i
  {
    hide Takes, Inv, Placed, Submits;
    StepOf(w, run, steps, i - 1);
    StepPlaces(w, run[i - 1], run[i], steps[i - 1], t);
    if j + 1 < i {
      assert SubmittedAt(steps, i - 1, j, t, task, allowReplace);
      SubmitsFrom(w, run, steps, j, i - 1, t, task, allowReplace);
      SubmitsOn(run[i - 1], run[i], steps[i - 1], t, task);
    } else {
      SubmitsFirst(w, run[j], run[i], t, task, allowReplace);
    }
  }

  lemma SubmitsFirst(w: World, s: State, s': State, t: nat, task: Task, allowReplace: bool)
    requires Takes(w, s, s', SubmitStep(t, task, allowReplace))
    ensures t !in s.threads && t in s'.threads && Submits(s'.threads[t], task)
  {}

  /** A goroutine has begun with at most one submission. */
  lemma SubmittedOnce(w: World, run: seq<State>, steps: seq<Step>, j: nat, k: nat, i: nat, t: nat,
                      a: Task, ra: bool, b: Task, rb: bool)
    requires IsRunOf(w, run, steps) && i <= |steps|
    requires SubmittedAt(steps, i, j, t, a, ra) && SubmittedAt(steps, i, k, t, b, rb)
    ensures j == k && a == b && ra == rb
  {
    hide Takes, Submits;
    if j < k {
      assert SubmittedAt(steps, k, j, t, a, ra);
      SubmitsFrom(w, run, steps, j, k, t, a, ra);
      SubmitsFirst(w, run[k], run[k + 1], t, b, rb);
    } else if k < j {
      assert SubmittedAt(steps, j, k, t, b, rb);
      SubmitsFrom(w, run, steps, k, j, t, b, rb);
      SubmitsFirst(w, run[j], run[j + 1], t, a, ra);
    }
  }

  /**
   * A submission that must not replace others never settles a stored task, but for failing its own when that could
   * not be scheduled.
   */
  lemma NoReplacementWithoutLeave(w: World, run: seq<State>, steps: seq<Step>, i: nat, t: nat, task: Task, id: string)
    requires IsRunOf(w, run, steps) && i < |steps| && WasSubmitted(steps, i, t, task, false) && IsBy(steps[i], t)
    requires id in run[i].repo && id in run[i + 1].repo && run[i + 1].repo[id] != run[i].repo[id]
    ensures steps[i].FailUnscheduledStep? && id == task.id && run[i + 1].repo[id].status == Failed
  {
    hide Takes, Inv, Submits, Placed;
    var j: nat :| SubmittedAt(steps, i, j, t, task, false);
    SubmitsFrom(w, run, steps, j, i, t, task, false);
    TasksAreSettledFor(w, run, steps, i, id);
    StepOf(w, run, steps, i);
    StepPlaces(w, run[i], run[i + 1], steps[i], t);
    StoredUnderItsId(w, run[i].repo, id) by { RepoIs(w, run[i]); }
    if steps[i].ReplaceStep? {
      var k: nat :| SubmittedAt(steps, i, k, t, steps[i].task, true);
      SubmittedOnce(w, run, steps, j, k, i, t, task, false, steps[i].task, true);
    } else {
      OwnFailure(run[i], run[i + 1], steps[i], t, task);
    }
  }

  lemma RepoIs(w: World, s: State)
    requires Inv(w, s)
    ensures RepoOk(w, s.repo)
  {}

  lemma OwnFailure(s: State, s': State, step: Step, t: nat, task: Task)
    requires Placed(s, s', step, t) && IsBy(step, t) && t in s.threads && Submits(s.threads[t], task)
    requires Settling(step) && !step.ReplaceStep?
    ensures step.FailUnscheduledStep? && step.id == task.id
  {}
}
