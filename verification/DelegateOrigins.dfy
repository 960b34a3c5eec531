/** Where the tasks of a run come from, and who may settle them. */
module DelegateOrigins {
  import opened Results
  import opened Tasks
  import opened DelegateProtocol
  import opened DelegateSafety
  import opened DelegateRuns

  // ---- What happened before ----

  /** The process did not restart in the steps from j to i. */
  predicate NoRestart(steps: seq<Step>, j: nat, i: nat)
    requires i <= |steps|
  {
    forall k :: j <= k < i ==> !steps[k].RestartStep?
  }

  /** Goroutine t, as it is at i, began with the submission of step j. */
  predicate SubmittedAt(steps: seq<Step>, i: nat, j: nat, t: nat, task: Task, allowReplace: bool)
    requires i <= |steps|
  {
    j < i && steps[j] == SubmitStep(t, task, allowReplace) && NoRestart(steps, j, i)
  }

  ghost predicate WasSubmitted(steps: seq<Step>, i: nat, t: nat, task: Task, allowReplace: bool)
    requires i <= |steps|
  {
    exists j: nat :: SubmittedAt(steps, i, j, t, task, allowReplace)
  }

  /** Each of the tasks is pending and has one of the inputs. */
  ghost predicate PendingOn(repo: Repo, inputs: seq<Outpoint>, ids: set<string>) {
    forall id :: id in ids ==> id in repo && repo[id].status == Pending && Overlap(repo[id].intent.inputs, inputs)
  }

  ghost predicate WerePendingOn(run: seq<State>, i: nat, inputs: seq<Outpoint>, ids: set<string>)
    requires i < |run|
  {
    exists k: nat :: k < i && PendingOn(run[k].repo, inputs, ids)
  }

  /** The query of step k found no pending task with an input of the submission's. */
  ghost predicate FreeAt(run: seq<State>, steps: seq<Step>, k: nat, t: nat, task: Task, allowReplace: bool)
    requires k < |steps| < |run|
  {
    steps[k] == CheckInputsStep(t, task, allowReplace, false) && NonePendingOn(run[k].repo, task.intent.inputs)
  }

  /** The submission may replace others, or found nothing to replace. */
  ghost predicate MayAdd(run: seq<State>, steps: seq<Step>, i: nat, t: nat, task: Task)
    requires i <= |steps| < |run|
  {
    WasSubmitted(steps, i, t, task, true) ||
    (WasSubmitted(steps, i, t, task, false) && exists k: nat :: k < i && FreeAt(run, steps, k, t, task, false))
  }

  /** The task was stored just so before. */
  ghost predicate WasStored(run: seq<State>, i: nat, task: Task)
    requires i < |run|
  {
    exists k: nat :: k < i && task.id in run[k].repo && run[k].repo[task.id] == task
  }

  ghost predicate WasUnscheduled(steps: seq<Step>, i: nat, t: nat, id: string)
    requires i <= |steps|
  {
    exists k: nat, task: Task :: k < i && steps[k] == ScheduleStep(t, task, true) && task.id == id
  }

  ghost predicate WasRejected(steps: seq<Step>, i: nat, t: nat, id: string)
    requires i <= |steps|
  {
    exists k: nat, task: Task :: k < i && steps[k] == CallServerStep(t, task, None) && task.id == id
  }

  /** What led to the place of a goroutine. */
  ghost predicate Story(run: seq<State>, steps: seq<Step>, i: nat, t: nat, th: Thread)
    requires i <= |steps| < |run|
  {
    match th
    case Submitted(task, allowReplace) => WasSubmitted(steps, i, t, task, allowReplace)
    case Unchecked(task, allowReplace) => WasSubmitted(steps, i, t, task, allowReplace)
    case Holding(task, allowReplace) => WasSubmitted(steps, i, t, task, allowReplace)
    case Replacing(task, ids) =>
      WasSubmitted(steps, i, t, task, true) && WerePendingOn(run, i, task.intent.inputs, ids)
    case Clear(task) => MayAdd(run, steps, i, t, task)
    case Added(task) => MayAdd(run, steps, i, t, task)
    case Unscheduled(id) => WasUnscheduled(steps, i, t, id)
    case Rejected(id) => WasRejected(steps, i, t, id)
    case Read(task) => WasStored(run, i, task)
    case Checked(task) => WasStored(run, i, task) && task.status == Pending
    case Accepted(task, _) => WasStored(run, i, task) && task.status == Pending
    case Sweeping(_, taken, ids, _) => WerePendingOn(run, i, taken, ids)
    case Releasing(after) => after.Read? ==> WasStored(run, i, after.task)
    case _ => true
  }

  ghost predicate Stories(run: seq<State>, steps: seq<Step>, i: nat)
    requires i <= |steps| < |run|
  {
    forall t :: t in run[i].threads ==> Story(run, steps, i, t, run[i].threads[t])
  }

  // ---- Stories stay true ----

  lemma SubmittedLater(steps: seq<Step>, i: nat, t: nat, task: Task, allowReplace: bool)
    requires i < |steps| && WasSubmitted(steps, i, t, task, allowReplace) && !steps[i].RestartStep?
    ensures WasSubmitted(steps, i + 1, t, task, allowReplace)
  {
    var j: nat :| SubmittedAt(steps, i, j, t, task, allowReplace);
    assert SubmittedAt(steps, i + 1, j, t, task, allowReplace);
  }

  lemma PendingLater(run: seq<State>, i: nat, inputs: seq<Outpoint>, ids: set<string>)
    requires i + 1 < |run| && WerePendingOn(run, i, inputs, ids)
    ensures WerePendingOn(run, i + 1, inputs, ids)
  {
    hide PendingOn;
  }

  lemma MayAddLater(run: seq<State>, steps: seq<Step>, i: nat, t: nat, task: Task)
    requires i < |steps| < |run| && MayAdd(run, steps, i, t, task) && !steps[i].RestartStep?
    ensures MayAdd(run, steps, i + 1, t, task)
  {
    hide WasSubmitted, FreeAt;
    if WasSubmitted(steps, i, t, task, true) {
      SubmittedLater(steps, i, t, task, true);
    } else {
      SubmittedLater(steps, i, t, task, false);
    }
  }

  lemma StoredLater(run: seq<State>, i: nat, task: Task)
    requires i + 1 < |run| && WasStored(run, i, task)
    ensures WasStored(run, i + 1, task)
  {}

  lemma StoryStays(run: seq<State>, steps: seq<Step>, i: nat, t: nat, th: Thread)
    requires i < |steps| < |run| && Story(run, steps, i, t, th) && !steps[i].RestartStep?
    ensures Story(run, steps, i + 1, t, th)
  {
    hide WasSubmitted, WerePendingOn, MayAdd, WasStored;
    match th
    case Submitted(task, allowReplace) => SubmittedLater(steps, i, t, task, allowReplace);
    case Unchecked(task, allowReplace) => SubmittedLater(steps, i, t, task, allowReplace);
    case Holding(task, allowReplace) => SubmittedLater(steps, i, t, task, allowReplace);
    case Replacing(task, ids) =>
      SubmittedLater(steps, i, t, task, true);
      PendingLater(run, i, task.intent.inputs, ids);
    case Clear(task) => MayAddLater(run, steps, i, t, task);
    case Added(task) => MayAddLater(run, steps, i, t, task);
    case Read(task) => StoredLater(run, i, task);
    case Checked(task) => StoredLater(run, i, task);
    case Accepted(task, _) => StoredLater(run, i, task);
    case Sweeping(_, taken, ids, _) => PendingLater(run, i, taken, ids);
    case Releasing(after) =>
      if after.Read? { StoredLater(run, i, after.task); }
    case _ =>
  }

  // ---- The steps that tell ----

  lemma SubmitTells(w: World, run: seq<State>, steps: seq<Step>, i: nat, t: nat, task: Task, allowReplace: bool)
    requires i < |steps| && steps[i] == SubmitStep(t, task, allowReplace)
    ensures WasSubmitted(steps, i + 1, t, task, allowReplace)
  {
    assert SubmittedAt(steps, i + 1, i, t, task, allowReplace);
  }

  /** What the query for overlapping tasks makes of a submission. */
  lemma CheckInputsTells(w: World, run: seq<State>, steps: seq<Step>, i: nat, t: nat, task: Task, allowReplace: bool,
                         fails: bool)
    requires |run| == |steps| + 1 && i < |steps| && steps[i] == CheckInputsStep(t, task, allowReplace, fails)
    requires CheckInputs(run[i], run[i + 1], t, task, allowReplace, fails)
    requires WasSubmitted(steps, i, t, task, allowReplace)
    ensures t in run[i + 1].threads && Story(run, steps, i + 1, t, run[i + 1].threads[t])
  {
    hide WasSubmitted;
    SubmittedLater(steps, i, t, task, allowReplace);
    var ids := PendingByInputs(run[i].repo, task.intent.inputs);
    assert PendingOn(run[i].repo, task.intent.inputs, ids);
    if !fails && ids == {} {
      FreeWhenEmpty(run[i].repo, task.intent.inputs);
      assert FreeAt(run, steps, i, t, task, allowReplace);
    }
  }

  lemma FreeWhenEmpty(repo: Repo, inputs: seq<Outpoint>)
    ensures PendingByInputs(repo, inputs) == {} <==> NonePendingOn(repo, inputs)
  {
    hide Overlap;
    if PendingByInputs(repo, inputs) == {} {
      forall id | IsPending(repo, id) ensures !Overlap(repo[id].intent.inputs, inputs) {
        assert id !in PendingByInputs(repo, inputs);
      }
    }
  }

  /** After a successful or failed replacement the submission goes on or ends. */
  lemma ReplaceTells(run: seq<State>, steps: seq<Step>, i: nat, t: nat, task: Task, ids: set<string>,
                     done: set<string>)
    requires |run| == |steps| + 1 && i < |steps| && steps[i] == ReplaceStep(t, task, ids, done)
    requires Replace(run[i], run[i + 1], t, task, ids, done) && WasSubmitted(steps, i, t, task, true)
    ensures t in run[i + 1].threads && Story(run, steps, i + 1, t, run[i + 1].threads[t])
  {
    hide WasSubmitted, Settle;
    SubmittedLater(steps, i, t, task, true);
  }

  lemma SaveTells(run: seq<State>, steps: seq<Step>, i: nat, t: nat, task: Task, fails: bool)
    requires |run| == |steps| + 1 && i < |steps| && steps[i] == SaveStep(t, task, fails)
    requires Save(run[i], run[i + 1], t, task, fails) && MayAdd(run, steps, i, t, task)
    ensures t in run[i + 1].threads && Story(run, steps, i + 1, t, run[i + 1].threads[t])
  {
    hide MayAdd;
    MayAddLater(run, steps, i, t, task);
  }

  lemma ScheduleTells(run: seq<State>, steps: seq<Step>, i: nat, t: nat, task: Task, fails: bool)
    requires |run| == |steps| + 1 && i < |steps| && steps[i] == ScheduleStep(t, task, fails)
    requires Schedule(run[i], run[i + 1], t, task, fails)
    ensures t in run[i + 1].threads && Story(run, steps, i + 1, t, run[i + 1].threads[t])
  {}

  lemma ReadTaskTells(run: seq<State>, steps: seq<Step>, i: nat, t: nat, id: string, fails: bool)
    requires |run| == |steps| + 1 && i < |steps| && steps[i] == ReadTaskStep(t, id, fails)
    requires ReadTask(run[i], run[i + 1], t, id, fails) && (id in run[i].repo ==> run[i].repo[id].id == id)
    ensures t in run[i + 1].threads && Story(run, steps, i + 1, t, run[i + 1].threads[t])
  {}

  lemma ReleaseTells(run: seq<State>, steps: seq<Step>, i: nat, t: nat)
    requires |run| == |steps| + 1 && i < |steps| && steps[i] == ReleaseStep(t)
    requires Release(run[i], run[i + 1], t) && Leads(steps[i], run[i + 1].threads[t])
    requires Story(run, steps, i, t, run[i].threads[t])
    ensures t in run[i + 1].threads && Story(run, steps, i + 1, t, run[i + 1].threads[t])
  {
    hide WasStored;
    var after := run[i].threads[t].after;
    if after.Read? { StoredLater(run, i, after.task); }
  }

  lemma CheckStatusTells(run: seq<State>, steps: seq<Step>, i: nat, t: nat, task: Task)
    requires |run| == |steps| + 1 && i < |steps| && steps[i] == CheckStatusStep(t, task)
    requires CheckStatus(run[i], run[i + 1], t, task) && WasStored(run, i, task)
    ensures t in run[i + 1].threads && Story(run, steps, i + 1, t, run[i + 1].threads[t])
  {
    hide WasStored;
    StoredLater(run, i, task);
  }

  lemma CallServerTells(run: seq<State>, steps: seq<Step>, i: nat, t: nat, task: Task, answer: Option<string>)
    requires |run| == |steps| + 1 && i < |steps| && steps[i] == CallServerStep(t, task, answer)
    requires CallServer(run[i], run[i + 1], t, task, answer) && WasStored(run, i, task) && task.status == Pending
    ensures t in run[i + 1].threads && Story(run, steps, i + 1, t, run[i + 1].threads[t])
  {
    hide WasStored;
    StoredLater(run, i, task);
  }

  lemma FindSpentTells(run: seq<State>, steps: seq<Step>, i: nat, t: nat, spent: seq<Outpoint>, taken: seq<Outpoint>,
                       fails: bool)
    requires |run| == |steps| + 1 && i < |steps| && steps[i] == FindSpentStep(t, spent, taken, fails)
    requires FindSpent(run[i], run[i + 1], t, spent, taken, fails)
    ensures t in run[i + 1].threads && Story(run, steps, i + 1, t, run[i + 1].threads[t])
  {
    var ids := if fails then {} else PendingByInputs(run[i].repo, taken);
    assert PendingOn(run[i].repo, taken, ids);
  }

  lemma SpendTells(run: seq<State>, steps: seq<Step>, i: nat, t: nat, spent: seq<Outpoint>)
    requires |run| == |steps| + 1 && i < |steps| && steps[i] == SpendStep(t, spent)
    requires Spend(run[i], run[i + 1], t, spent) && Story(run, steps, i, t, run[i].threads[t])
    ensures t in run[i + 1].threads && Story(run, steps, i + 1, t, run[i + 1].threads[t])
  {
    hide WerePendingOn;
    var th := run[i].threads[t];
    if th.Sweeping? { PendingLater(run, i, th.taken, th.ids); }
  }

  predicate Telling(step: Step) {
    step.SubmitStep? || step.CheckDuplicateStep? || step.EnterStep? || step.CheckInputsStep? || step.ReplaceStep? ||
    step.SaveStep? || step.ScheduleStep? || step.ReadTaskStep? || step.ReleaseStep? || step.CheckStatusStep? ||
    step.CallServerStep? || step.FindSpentStep? || step.SpendStep?
  }

  /** The other steps lead to places that need no story. */
  lemma OthersTellNothing(run: seq<State>, steps: seq<Step>, i: nat, t: nat, step: Step, th: Thread)
    requires i <= |steps| < |run| && Leads(step, th) && !Telling(step)
    ensures Story(run, steps, i, t, th)
  {
    hide WasSubmitted, WerePendingOn, MayAdd, WasStored, WasUnscheduled, WasRejected;
  }

  lemma EarlyTells(w: World, run: seq<State>, steps: seq<Step>, i: nat, t: nat)
    requires |run| == |steps| + 1 && i < |steps| && Takes(w, run[i], run[i + 1], steps[i])
    requires steps[i].SubmitStep? || steps[i].CheckDuplicateStep? || steps[i].EnterStep? || steps[i].CheckInputsStep?
    requires IsBy(steps[i], t) && t in run[i + 1].threads && Leads(steps[i], run[i + 1].threads[t])
    requires steps[i].SubmitStep? || (t in run[i].threads && LeavesFrom(steps[i], run[i].threads[t]) &&
                                      Story(run, steps, i, t, run[i].threads[t]))
    ensures Story(run, steps, i + 1, t, run[i + 1].threads[t])
  {
    hide WasSubmitted, WerePendingOn, MayAdd, WasStored, WasUnscheduled, WasRejected;
    hide Submit, CheckDuplicate, Enter, CheckInputs;
    match steps[i]
    case SubmitStep(_, task, r) => SubmitTells(w, run, steps, i, t, task, r);
    case CheckDuplicateStep(_, task, r, _) => SubmittedLater(steps, i, t, task, r);
    case EnterStep(_, task, r) => SubmittedLater(steps, i, t, task, r);
    case CheckInputsStep(_, task, r, fails) => CheckInputsTells(w, run, steps, i, t, task, r, fails);
  }

  lemma SavingTells(w: World, run: seq<State>, steps: seq<Step>, i: nat, t: nat)
    requires |run| == |steps| + 1 && i < |steps| && Takes(w, run[i], run[i + 1], steps[i])
    requires steps[i].ReplaceStep? || steps[i].SaveStep? || steps[i].ScheduleStep? || steps[i].ReleaseStep?
    requires IsBy(steps[i], t) && t in run[i + 1].threads && Leads(steps[i], run[i + 1].threads[t])
    requires t in run[i].threads && LeavesFrom(steps[i], run[i].threads[t])
    requires Story(run, steps, i, t, run[i].threads[t])
    ensures Story(run, steps, i + 1, t, run[i + 1].threads[t])
  {
    hide WasSubmitted, WerePendingOn, MayAdd, WasStored, WasUnscheduled, WasRejected;
    hide Replace, Save, Schedule, Release;
    match steps[i]
    case ReplaceStep(_, task, ids, done) => ReplaceTells(run, steps, i, t, task, ids, done);
    case SaveStep(_, task, fails) => SaveTells(run, steps, i, t, task, fails);
    case ScheduleStep(_, task, fails) => ScheduleTells(run, steps, i, t, task, fails);
    case ReleaseStep(_) => ReleaseTells(run, steps, i, t);
  }

  lemma LaterTells(w: World, run: seq<State>, steps: seq<Step>, i: nat, t: nat)
    requires |run| == |steps| + 1 && i < |steps| && Takes(w, run[i], run[i + 1], steps[i]) && RepoOk(w, run[i].repo)
    requires steps[i].ReadTaskStep? || steps[i].CheckStatusStep? || steps[i].CallServerStep?
    requires IsBy(steps[i], t) && t in run[i + 1].threads && Leads(steps[i], run[i + 1].threads[t])
    requires t in run[i].threads && LeavesFrom(steps[i], run[i].threads[t])
    requires Story(run, steps, i, t, run[i].threads[t])
    ensures Story(run, steps, i + 1, t, run[i + 1].threads[t])
  {
    hide WasSubmitted, WerePendingOn, MayAdd, WasStored, WasUnscheduled, WasRejected, RepoOk;
    hide ReadTask, CheckStatus, CallServer, FindSpent, Spend;
    match steps[i]
    case ReadTaskStep(_, id, fails) =>
      StoredUnderItsId(w, run[i].repo, id);
      ReadTaskTells(run, steps, i, t, id, fails);
    case CheckStatusStep(_, task) => CheckStatusTells(run, steps, i, t, task);
    case CallServerStep(_, task, answer) => CallServerTells(run, steps, i, t, task, answer);
  }

  lemma StoredUnderItsId(w: World, repo: Repo, id: string)
    requires RepoOk(w, repo)
    ensures id in repo ==> repo[id].id == id
  {
    assert id in repo ==> TaskOk(w, id, repo[id]);
  }

  lemma SpentTells(w: World, run: seq<State>, steps: seq<Step>, i: nat, t: nat)
    requires |run| == |steps| + 1 && i < |steps| && Takes(w, run[i], run[i + 1], steps[i])
    requires steps[i].FindSpentStep? || steps[i].SpendStep?
    requires IsBy(steps[i], t) && t in run[i + 1].threads && Leads(steps[i], run[i + 1].threads[t])
    requires t in run[i].threads && LeavesFrom(steps[i], run[i].threads[t])
    requires Story(run, steps, i, t, run[i].threads[t])
    ensures Story(run, steps, i + 1, t, run[i + 1].threads[t])
  {
    hide WasSubmitted, WerePendingOn, MayAdd, WasStored, WasUnscheduled, WasRejected, FindSpent, Spend;
    match steps[i]
    case FindSpentStep(_, spent, taken, fails) => FindSpentTells(run, steps, i, t, spent, taken, fails);
    case SpendStep(_, spent) => SpendTells(run, steps, i, t, spent);
  }

  lemma StepTells(w: World, run: seq<State>, steps: seq<Step>, i: nat, t: nat)
    requires IsRunOf(w, run, steps) && i < |steps| && Stories(run, steps, i) && t in run[i + 1].threads
    ensures Story(run, steps, i + 1, t, run[i + 1].threads[t])
  {
    hide Takes, Story, Leads, LeavesFrom, RepoOk, ThreadsOk, LockOk, IntentsOk, CompletedOk;
    StepOf(w, run, steps, i);
    StepPlaces(w, run[i], run[i + 1], steps[i], t);
    var th := run[i + 1].threads[t];
    if t in run[i].threads && th == run[i].threads[t] && !steps[i].RestartStep? {
      StoryStays(run, steps, i, t, th);
    } else if !Telling(steps[i]) {
      OthersTellNothing(run, steps, i + 1, t, steps[i], th);
    } else if steps[i].SubmitStep? || steps[i].CheckDuplicateStep? || steps[i].EnterStep? || steps[i].CheckInputsStep? {
      EarlyTells(w, run, steps, i, t);
    } else if steps[i].ReplaceStep? || steps[i].SaveStep? || steps[i].ScheduleStep? || steps[i].ReleaseStep? {
      SavingTells(w, run, steps, i, t);
    } else if steps[i].FindSpentStep? || steps[i].SpendStep? {
      SpentTells(w, run, steps, i, t);
    } else {
      LaterTells(w, run, steps, i, t);
    }
  }

  lemma {:induction false} RunTells(w: World, run: seq<State>, steps: seq<Step>, i: nat)
    requires IsRunOf(w, run, steps) && i <= |steps|
    ensures Stories(run, steps, i)
  {
    if i > 0 {
      hide Story, Takes;
      RunTells(w, run, steps, i - 1);
      forall t | t in run[i].threads ensures Story(run, steps, i, t, run[i].threads[t]) {
        StepTells(w, run, steps, i - 1, t);
      }
    }
  }

  // ---- What changes the repository ----

  predicate Settling(step: Step) {
    step.ReplaceStep? || step.FailUnscheduledStep? || step.FailRejectedStep? || step.FinishStep? || step.SweepStep?
  }

  lemma {:induction false} QuietSubmission(w: World, s: State, s': State, step: Step)
    requires Takes(w, s, s', step) && SubmissionStep(step) && !Settling(step) && !step.SaveStep?
    ensures s'.repo == s.repo
  {
    hide Settle, PendingByInputs, NewTask;
    match step
    case _ =>
  }

  lemma QuietOther(w: World, s: State, s': State, step: Step)
    requires Takes(w, s, s', step) && !SubmissionStep(step) && !Settling(step)
    ensures s'.repo == s.repo
  {
    hide Settle, PendingByInputs, Select, SelectionEvents, AllPending, TaskIds, NewTask;
    match step
    case _ =>
  }

  /** Only these steps touch the repository. */
  lemma QuietRepo(w: World, s: State, s': State, step: Step)
    requires Takes(w, s, s', step) && !Settling(step) && !step.SaveStep?
    ensures s'.repo == s.repo
  {
    hide Takes;
    if SubmissionStep(step) { QuietSubmission(w, s, s', step); } else { QuietOther(w, s, s', step); }
  }

  /** How the task is settled by a step. */
  ghost predicate SettledHow(step: Step, id: string, before: Task, after: Task) {
    match step
    case ReplaceStep(_, _, ids, _) => id in ids && after == before.(status := Cancelled)
    case SweepStep(_, _, _, ids, _, _) => id in ids && after == before.(status := Cancelled)
    case FailUnscheduledStep(_, failed, reason, _) =>
      id == failed && after == before.(status := Failed, failReason := reason)
    case FailRejectedStep(_, failed, reason, _) =>
      id == failed && after == before.(status := Failed, failReason := reason)
    case FinishStep(_, _, selected, txid, _) =>
      (exists r :: r in selected && r.taskID == id) &&
      after == before.(status := Completed, commitmentTxid := txid)
    case _ => false
  }

  lemma SettlesSo(w: World, s: State, s': State, step: Step, id: string)
    requires Takes(w, s, s', step) && Settling(step) && id in s.repo && id in s'.repo && s'.repo[id] != s.repo[id]
    ensures IsPending(s.repo, id) && SettledHow(step, id, s.repo[id], s'.repo[id])
  {
    match step
    case _ =>
  }

  lemma StepSettlesSo(w: World, s: State, s': State, step: Step, id: string)
    requires Takes(w, s, s', step) && id in s.repo && id in s'.repo && s'.repo[id] != s.repo[id]
    ensures IsPending(s.repo, id) && SettledHow(step, id, s.repo[id], s'.repo[id])
  {
    hide Takes, SettledHow;
    if Settling(step) {
      SettlesSo(w, s, s', step, id);
    } else if step.SaveStep? {
      StepSettles(w, s, s', step, id);
      SavingSettlesNone(w, s, s', step, id);
    } else {
      QuietRepo(w, s, s', step);
    }
  }

  lemma SavingSettlesNone(w: World, s: State, s': State, step: Step, id: string)
    requires Takes(w, s, s', step) && step.SaveStep? && id in s.repo
    ensures id in s'.repo && s'.repo[id] == s.repo[id]
  {}
}
