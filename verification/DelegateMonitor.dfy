/** What the monitor of spent vtxos and the status checks of a run have seen. */
module DelegateMonitor {
  import opened Tasks
  import opened DelegateProtocol
  import opened DelegateSafety
  import opened DelegateRuns
  import opened DelegateOrigins

  // ---- Spent outpoints ----

  predicate Monitors(th: Thread) {
    th.Ticking? || th.Captured? || th.Monitoring? || th.Sweeping? || (th.Releasing? && th.after.Ticking?)
  }

  /** The outpoints the monitor holds. */
  predicate Keeps(th: Thread, x: Outpoint) {
    match th
    case Ticking(spent) => x in spent
    case Captured(spent, taken) => x in spent || x in taken
    case Monitoring(spent, taken) => x in spent || x in taken
    case Sweeping(spent, taken, _, _) => x in spent || x in taken
    case Releasing(after) => after.Ticking? && x in after.spent
    case _ => false
  }

  predicate Reports(step: Step, t: nat, x: Outpoint) {
    step.SpendStep? && step.t == t && x in step.spent
  }

  predicate Sweeps(step: Step, t: nat, x: Outpoint) {
    step.SweepStep? && step.t == t && x in step.taken
  }

  /** The outpoint was reported to the monitor t, as it is at i, in step j. */
  predicate ReportedAt(steps: seq<Step>, i: nat, j: nat, t: nat, x: Outpoint)
    requires i <= |steps|
  {
    j < i && Reports(steps[j], t, x) && NoRestart(steps, j, i)
  }

  ghost predicate SweptSince(steps: seq<Step>, i: nat, j: nat, t: nat, x: Outpoint)
    requires i <= |steps|
  {
    exists k: nat :: j < k < i && Sweeps(steps[k], t, x)
  }

  lemma MonitorKeeps(s: State, s': State, step: Step, t: nat, x: Outpoint)
    requires Placed(s, s', step, t) && t in s.threads && t in s'.threads && Keeps(s.threads[t], x)
    requires Monitors(s.threads[t]) && !step.RestartStep? && !step.SpendStep?
    ensures Keeps(s'.threads[t], x) || Sweeps(step, t, x) || step == StopStep(t)
  {
    if s'.threads[t] != s.threads[t] {
      if step.ReleaseStep? {
      } else {
        HandsOver(step, s.threads[t], s'.threads[t], t, x);
      }
    }
  }

  lemma HandsOver(step: Step, th: Thread, th': Thread, t: nat, x: Outpoint)
    requires IsBy(step, t) && LeavesFrom(step, th) && Leads(step, th') && Keeps(th, x) && Monitors(th)
    requires !step.ReleaseStep? && !step.SpendStep?
    ensures Keeps(th', x) || Sweeps(step, t, x) || step == StopStep(t)
  {}

  lemma SpendKeepsAll(w: World, s: State, s': State, step: Step, t: nat, x: Outpoint)
    requires Takes(w, s, s', step) && step.SpendStep? && t in s.threads && Keeps(s.threads[t], x)
    ensures t in s'.threads && Keeps(s'.threads[t], x)
  {
    hide Keeps;
    SpendIs(w, s, s', step);
    if step.t == t { MoreKept(s.threads[t], s'.threads[t], step.spent, x); }
  }

  /** What is waiting grows, and nothing else changes. */
  predicate Grows(th: Thread, th': Thread, spent: seq<Outpoint>) {
    match th
    case Ticking(b) => th' == Ticking(b + spent)
    case Captured(b, taken) => th' == Captured(b + spent, taken)
    case Monitoring(b, taken) => th' == Monitoring(b + spent, taken)
    case Sweeping(b, taken, ids, found) => th' == Sweeping(b + spent, taken, ids, found)
    case _ => false
  }

  lemma SpendIs(w: World, s: State, s': State, step: Step)
    requires Takes(w, s, s', step) && step.SpendStep?
    ensures step.t in s.threads && step.t in s'.threads && s' == s.(threads := s'.threads)
    ensures s'.threads == s.threads[step.t := s'.threads[step.t]]
    ensures Grows(s.threads[step.t], s'.threads[step.t], step.spent)
  {}

  lemma MoreKept(th: Thread, th': Thread, spent: seq<Outpoint>, x: Outpoint)
    requires Grows(th, th', spent)
    ensures Keeps(th, x) || x in spent ==> Keeps(th', x)
    ensures Monitors(th')
  {}

  lemma MonitorStays(s: State, s': State, step: Step, t: nat)
    requires Placed(s, s', step, t) && t in s.threads && Monitors(s.threads[t]) && !step.RestartStep?
    requires step != StopStep(t)
    ensures t in s'.threads && Monitors(s'.threads[t])
  {
    if s'.threads[t] != s.threads[t] && !step.ReleaseStep? {
      MonitorOn(step, s.threads[t], s'.threads[t], t);
    }
  }

  lemma MonitorOn(step: Step, th: Thread, th': Thread, t: nat)
    requires IsBy(step, t) && LeavesFrom(step, th) && Leads(step, th') && Monitors(th)
    requires step != StopStep(t) && !step.ReleaseStep?
    ensures Monitors(th')
  {}

  /** The monitor was not stopped in the steps from j to i. */
  predicate Running(steps: seq<Step>, j: nat, i: nat, t: nat)
    requires i <= |steps|
  {
    forall k :: j <= k < i ==> steps[k] != StopStep(t)
  }

  /**
   * As long as the monitor runs, a spent outpoint that was reported to it is still waiting, or has been taken, or has
   * been swept since.
   */
  lemma {:induction false} NoSpentIsLost(w: World, run: seq<State>, steps: seq<Step>, i: nat, j: nat, t: nat,
                                         x: Outpoint)
    requires IsRunOf(w, run, steps) && i <= |steps| && ReportedAt(steps, i, j, t, x) && Running(steps, j, i, t)
    ensures t in run[i].threads && Monitors(run[i].threads[t])
    ensures Keeps(run[i].threads[t], x) || SweptSince(steps, i, j, t, x)
    decreases i
  {
    hide Takes, Inv, Placed, Keeps, Monitors, Sweeps, Reports;
    var h := i - 1;
    StepOf(w, run, steps, h);
    StepPlaces(w, run[h], run[i], steps[h], t);
    if j < h {
      assert ReportedAt(steps, h, j, t, x);
      NoSpentIsLost(w, run, steps, h, j, t, x);
      if Keeps(run[h].threads[t], x) {
        StillKept(w, run[h], run[i], steps[h], t, x);
        if Sweeps(steps[h], t, x) { assert SweptSince(steps, i, j, t, x); }
      } else {
        SweptLater(steps, h, j, t, x);
      }
      MonitorStays(run[h], run[i], steps[h], t);
    } else {
      ReportIsKept(w, run[h], run[i], steps[h], t, x);
    }
  }

  lemma StillKept(w: World, s: State, s': State, step: Step, t: nat, x: Outpoint)
    requires Takes(w, s, s', step) && Placed(s, s', step, t) && t in s.threads && !step.RestartStep?
    requires Keeps(s.threads[t], x) && Monitors(s.threads[t]) && step != StopStep(t)
    ensures t in s'.threads && (Keeps(s'.threads[t], x) || Sweeps(step, t, x))
  {
    hide Takes, Keeps, Monitors, Sweeps, Leads, LeavesFrom;
    if step.SpendStep? { SpendKeepsAll(w, s, s', step, t, x); } else { MonitorKeeps(s, s', step, t, x); }
  }

  lemma SweptLater(steps: seq<Step>, i: nat, j: nat, t: nat, x: Outpoint)
    requires i < |steps| && SweptSince(steps, i, j, t, x)
    ensures SweptSince(steps, i + 1, j, t, x)
  {
    hide Sweeps;
  }

  lemma ReportIsKept(w: World, s: State, s': State, step: Step, t: nat, x: Outpoint)
    requires Takes(w, s, s', step) && Reports(step, t, x)
    ensures t in s'.threads && Keeps(s'.threads[t], x) && Monitors(s'.threads[t])
  {
    hide Keeps, Monitors, Grows;
    SpendIs(w, s, s', step);
    MoreKept(s.threads[t], s'.threads[t], step.spent, x);
  }

  /** A successful query finds just the pending tasks on the outpoints that were taken. */
  lemma SpentIsFound(w: World, run: seq<State>, steps: seq<Step>, k: nat, t: nat, spent: seq<Outpoint>,
                     taken: seq<Outpoint>, fails: bool)
    requires IsRunOf(w, run, steps) && k < |steps| && steps[k] == FindSpentStep(t, spent, taken, fails)
    ensures t in run[k + 1].threads && run[k + 1].threads[t].Sweeping?
    ensures run[k + 1].threads[t].taken == taken && run[k + 1].threads[t].found == !fails
    ensures forall id :: id in run[k + 1].threads[t].ids <==>
      !fails && IsPending(run[k].repo, id) && Overlap(run[k].repo[id].intent.inputs, taken)
  {
    hide Overlap, IsPending, Inv;
    StepOf(w, run, steps, k);
    SpentFoundAt(w, run[k], run[k + 1], t, spent, taken, fails);
  }

  lemma SpentFoundAt(w: World, s: State, s': State, t: nat, spent: seq<Outpoint>, taken: seq<Outpoint>, fails: bool)
    requires Takes(w, s, s', FindSpentStep(t, spent, taken, fails))
    ensures t in s'.threads && s'.threads[t].Sweeping?
    ensures s'.threads[t].taken == taken && s'.threads[t].found == !fails
    ensures forall id :: id in s'.threads[t].ids <==>
      !fails && IsPending(s.repo, id) && Overlap(s.repo[id].intent.inputs, taken)
  {
    hide Overlap;
  }

  // ---- Status checks ----

  predicate Noting(step: Step) {
    step.CheckStatusStep? || step.RememberStep? || step.BatchStartedStep? || step.BatchFinalizedStep?
  }

  lemma QuietSubmissionHistory(w: World, s: State, s': State, step: Step)
    requires Takes(w, s, s', step) && SubmissionStep(step)
    ensures s'.history == s.history
  {
    hide Settle, PendingByInputs, NewTask;
    match step
    case _ =>
  }

  lemma QuietHistory(w: World, s: State, s': State, step: Step)
    requires Takes(w, s, s', step) && !SubmissionStep(step) && !Noting(step)
    ensures s'.history == s.history
  {
    hide Settle, PendingByInputs, Select, AllPending, TaskIds, NewTask;
    match step
    case _ =>
  }

  lemma {:induction false} SelectionSeesNone(session: nat, selected: seq<Registered>, id: string)
    ensures SawPending(id) !in SelectionEvents(session, selected)
  {
    if selected != [] {
      SelectionSeesNone(session, selected[1..], id);
    }
  }

  lemma NotingSees(w: World, s: State, s': State, step: Step, id: string)
    requires Takes(w, s, s', step) && Noting(step) && SawPending(id) in s'.history && SawPending(id) !in s.history
    ensures step.CheckStatusStep? && step.task.id == id && step.task.status == Pending
  {
    hide Select, SelectionEvents;
    if step.BatchStartedStep? {
      SelectionSeesNone(|s.history|, Select(s.intents, step.hashes), id);
    }
  }

  lemma NewlySeen(w: World, s: State, s': State, step: Step, id: string)
    requires Takes(w, s, s', step) && SawPending(id) in s'.history && SawPending(id) !in s.history
    ensures step.CheckStatusStep? && step.task.id == id && step.task.status == Pending
  {
    hide Takes;
    if Noting(step) {
      NotingSees(w, s, s', step, id);
    } else if SubmissionStep(step) {
      QuietSubmissionHistory(w, s, s', step);
    } else {
      QuietHistory(w, s, s', step);
    }
  }

  ghost predicate WasPending(run: seq<State>, i: nat, id: string)
    requires i < |run|
  {
    exists k: nat :: k < i && id in run[k].repo && run[k].repo[id].status == Pending
  }

  /** A task is seen pending only when it was. */
  lemma {:induction false} SeenWasPending(w: World, run: seq<State>, steps: seq<Step>, i: nat, id: string)
    requires IsRunOf(w, run, steps) && i < |run| && SawPending(id) in run[i].history
    ensures WasPending(run, i, id)
  {
    hide Takes, Inv, Leads;
    if i > 0 {
      var h := i - 1;
      if SawPending(id) in run[h].history {
        SeenWasPending(w, run, steps, h, id);
      } else {
        StepOf(w, run, steps, h);
        NewlySeen(w, run[h], run[i], steps[h], id);
        StepPlaces(w, run[h], run[i], steps[h], steps[h].t);
        RunTells(w, run, steps, h);
        assert Story(run, steps, h, steps[h].t, run[h].threads[steps[h].t]);
      }
    }
  }
}
