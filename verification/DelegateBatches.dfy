/** Which delegate tasks a batch session can select, and when its submission spends each vtxo once. */
module DelegateBatches {
  import opened Results
  import opened Tasks
  import opened DelegateProtocol
  import opened DelegateSafety
  import Forfeits

  // ---- Pending tasks ----

  /** In every run, tasks that are pending when their forfeits are submitted want no vtxo in common. */
  lemma PendingTasksApart(w: World, run: seq<State>, i: nat, f: Forfeits.World, ids: seq<string>)
    requires IsRun(w, run) && i < |run| && forall j :: 0 <= j < |ids| ==> IsPending(run[i].repo, ids[j])
    ensures forall j :: 0 <= j < |ids| ==> ids[j] in run[i].repo
    ensures Forfeits.TasksApart(f, run[i].repo, ids)
  {
    hide IsRun;
    RunKeeps(w, run, i);
    var repo := run[i].repo;
    forall j | 0 <= j < |ids| ensures TaskOk(w, ids[j], repo[ids[j]]) {
      assert IsPending(repo, ids[j]);
    }
    forall j, k | 0 <= j < k < |ids| && ids[j] != ids[k]
      ensures !Overlap(repo[ids[j]].intent.inputs, repo[ids[k]].intent.inputs) {
      assert IsPending(repo, ids[j]) && IsPending(repo, ids[k]);
    }
    Forfeits.DisjointTasksApart(f, repo, ids);
  }

  /**
   * So for pending tasks a submission spends each vtxo once if and only if no id is repeated and no vtxo is listed
   * twice.
   */
  lemma PendingSpentOnceExactly(w: World, run: seq<State>, i: nat, f: Forfeits.World, cfg: Forfeits.Config,
                                leaves: seq<Forfeits.Leaf>, ids: seq<string>, txs: seq<Forfeits.Psbt>)
    requires IsRun(w, run) && i < |run| && forall j :: 0 <= j < |ids| ==> IsPending(run[i].repo, ids[j])
    requires Forfeits.ReadsBack(f) && Forfeits.RepoStoredOk(f, cfg, run[i].repo)
    requires var all := Forfeits.OfTasks(f, run[i].repo, ids, |ids|);
      all.Ok? && Forfeits.SubmittedAll(f, all.value, leaves, txs)
    ensures forall j :: 0 <= j < |ids| ==> ids[j] in run[i].repo
    ensures Forfeits.SpendOnce(txs) <==>
      Forfeits.NoRepeats(f, run[i].repo, ids) && forall j :: 0 <= j < |ids| ==>
          Forfeits.ListedOnce(f, run[i].repo, ids[j])
  {
    hide *;
    PendingTasksApart(w, run, i, f, ids);
    Forfeits.SpentOnceExactly(f, cfg, run[i].repo, leaves, ids, txs);
  }

  // ---- What can be reached ----

  ghost predicate Reachable(w: World, s: State) {
    exists run: seq<State> :: EndsIn(w, run, s)
  }

  ghost predicate EndsIn(w: World, run: seq<State>, s: State) {
    IsRun(w, run) && run[|run| - 1] == s
  }

  const START := State(map[], map[], None, map[], multiset{}, [])

  lemma Begin(w: World)
    ensures Reachable(w, START)
  {
    assert EndsIn(w, [START], START);
  }

  lemma Extend(w: World, s: State, step: Step, s': State)
    requires Reachable(w, s) && Takes(w, s, s', step)
    ensures Reachable(w, s')
  {
    hide Takes, Init;
    var run: seq<State> :| EndsIn(w, run, s);
    var longer := run + [s'];
    forall i | 0 < i < |longer| ensures Next(w, longer[i - 1], longer[i]) {
      if i < |run| { assert Next(w, run[i - 1], run[i]); } else { assert Takes(w, longer[i - 1], longer[i], step); }
    }
    assert EndsIn(w, longer, s');
  }

  function At(s: State, t: nat, th: Thread): State {
    s.(threads := s.threads[t := th])
  }

  lemma Again(s: State, t: nat, a: Thread, b: Thread)
    ensures At(At(s, t, a), t, b) == At(s, t, b)
  {}

  /** A submission that replaces the pending tasks on its inputs. */
  function Stored(s: State, t: nat, task: Task): State {
    s.(repo := Settle(s.repo, PendingByInputs(s.repo, task.intent.inputs), Cancel)[task.id := task],
       threads := s.threads[t := Done], scheduled := s.scheduled + multiset{task.id})
  }

  ghost predicate Quiet(s: State, t: nat) {
    s.delegateMtx == None && t !in s.threads
  }

  /** Delegate, up to the query for overlapping tasks. */
  lemma SubmitUpToCheck(w: World, s: State, t: nat, task: Task) returns (s': State)
    requires Reachable(w, s) && Quiet(s, t) && NewTask(w, task)
    requires forall id :: IsPending(s.repo, id) ==> s.repo[id].intent.txid != task.intent.txid
    ensures Reachable(w, s') && s' == At(s, t, Holding(task, true)).(delegateMtx := Some(t))
  {
    hide Reachable, NewTask;
    var s1 := At(s, t, Submitted(task, true));
    Extend(w, s, SubmitStep(t, task, true), s1);
    var s2 := At(s1, t, Unchecked(task, true));
    Extend(w, s1, CheckDuplicateStep(t, task, true, false), s2);
    s' := At(s2, t, Holding(task, true)).(delegateMtx := Some(t));
    Extend(w, s2, EnterStep(t, task, true), s');
    Again(s, t, Submitted(task, true), Unchecked(task, true));
    Again(s, t, Unchecked(task, true), Holding(task, true));
  }

  /** Cancelling what overlaps. */
  lemma ReplaceOverlapping(w: World, s: State, t: nat, task: Task) returns (s': State)
    requires Reachable(w, s) && t in s.threads && s.threads[t] == Holding(task, true)
    ensures Reachable(w, s')
    ensures s' == At(s, t, Clear(task)).(repo := Settle(s.repo, PendingByInputs(s.repo, task.intent.inputs), Cancel))
  {
    hide Reachable, Settle, PendingByInputs, Selects;
    var ids := PendingByInputs(s.repo, task.intent.inputs);
    if ids == {} {
      s' := At(s, t, Clear(task));
      Extend(w, s, CheckInputsStep(t, task, true, false), s');
      SettleNone(s.repo);
    } else {
      var s1 := At(s, t, Replacing(task, ids));
      Extend(w, s, CheckInputsStep(t, task, true, false), s1);
      s' := At(s1, t, Clear(task)).(repo := Settle(s.repo, ids, Cancel));
      Extend(w, s1, ReplaceStep(t, task, ids, ids), s');
      Again(s, t, Replacing(task, ids), Clear(task));
    }
  }

  lemma SettleNone(repo: Repo)
    ensures Settle(repo, {}, Cancel) == repo
  {}

  /** A whole call of Delegate that replaces pending tasks. */
  lemma Store(w: World, s: State, t: nat, task: Task)
    requires Reachable(w, s) && Quiet(s, t) && NewTask(w, task) && task.id !in s.repo
    requires forall id :: IsPending(s.repo, id) ==> s.repo[id].intent.txid != task.intent.txid
    ensures Reachable(w, Stored(s, t, task))
  {
    hide Reachable, NewTask, Settle, PendingByInputs;
    var s1 := SubmitUpToCheck(w, s, t, task);
    var s2 := ReplaceOverlapping(w, s1, t, task);
    SettleKeys(s.repo, PendingByInputs(s.repo, task.intent.inputs));
    var s3 := SaveAndSchedule(w, s2, t, task);
    Again(s, t, Holding(task, true), Clear(task));
    Again(s, t, Clear(task), Done);
    assert s3 == Stored(s, t, task);
  }

  lemma SaveAndSchedule(w: World, s: State, t: nat, task: Task) returns (s': State)
    requires Reachable(w, s) && t in s.threads && s.threads[t] == Clear(task) && task.id !in s.repo
    ensures Reachable(w, s')
    ensures s' == At(s, t, Done).(repo := s.repo[task.id := task], scheduled := s.scheduled + multiset{task.id},
                                  delegateMtx := None)
  {
    hide Reachable;
    var s1 := At(s, t, Added(task)).(repo := s.repo[task.id := task]);
    Extend(w, s, SaveStep(t, task, false), s1);
    var s2 := At(s1, t, Releasing(Done)).(scheduled := s.scheduled + multiset{task.id});
    Extend(w, s1, ScheduleStep(t, task, false), s2);
    s' := At(s2, t, Done).(delegateMtx := None);
    Extend(w, s2, ReleaseStep(t), s');
    Again(s, t, Added(task), Releasing(Done));
    Again(s, t, Releasing(Done), Done);
  }

  lemma SettleKeys(repo: Repo, ids: set<string>)
    ensures Settle(repo, ids, Cancel).Keys == repo.Keys
  {}

  /** A job that starts to register its task. */
  function Started(s: State, t: nat, id: string): State {
    At(s, t, Registering(id)).(scheduled := s.scheduled - multiset{id})
  }

  lemma RunIt(w: World, s: State, t: nat, id: string)
    requires Reachable(w, s) && t !in s.threads && id in s.scheduled
    ensures Reachable(w, Started(s, t, id))
  {
    hide Reachable;
    Extend(w, s, RunJobStep(t, id), Started(s, t, id));
  }

  /** A registration that the server accepts. */
  function Accepting(w: World, s: State, t: nat, id: string, intentID: string): State
    requires id in s.repo
  {
    s.(intents := s.intents[w.hash(intentID) := Registered(id, intentID, s.repo[id].intent.inputs)],
       threads := s.threads[t := Done], history := s.history + [SawPending(id), IntentRegistered(id, intentID)])
  }

  /** A goroutine about to register a task, with the mutex free. */
  ghost predicate AboutTo(s: State, t: nat, id: string) {
    s.delegateMtx == None && t in s.threads && s.threads[t] == Registering(id)
  }

  /** registerDelegate, up to the release of the mutex. */
  lemma ReadToRegister(w: World, s: State, t: nat, id: string) returns (s': State)
    requires Reachable(w, s) && AboutTo(s, t, id) && id in s.repo
    ensures Reachable(w, s') && s' == At(s, t, Read(s.repo[id]))
  {
    hide Reachable;
    var s1 := At(s, t, Reading(id)).(delegateMtx := Some(t));
    Extend(w, s, EnterRegisterStep(t, id), s1);
    var s2 := At(s1, t, Releasing(Read(s.repo[id])));
    Extend(w, s1, ReadTaskStep(t, id, false), s2);
    s' := At(s2, t, Read(s.repo[id])).(delegateMtx := None);
    Extend(w, s2, ReleaseStep(t), s');
    Again(s, t, Reading(id), Releasing(Read(s.repo[id])));
    Again(s, t, Releasing(Read(s.repo[id])), Read(s.repo[id]));
  }

  lemma CheckAndCall(w: World, s: State, t: nat, task: Task, intentID: string) returns (s': State)
    requires Reachable(w, s) && t in s.threads && s.threads[t] == Read(task) && task.status == Pending
    ensures Reachable(w, s') && s' == At(s, t, Accepted(task, intentID)).(history := s.history + [SawPending(task.id)])
  {
    hide Reachable;
    var s1 := At(s, t, Checked(task)).(history := s.history + [SawPending(task.id)]);
    Extend(w, s, CheckStatusStep(t, task), s1);
    s' := At(s1, t, Accepted(task, intentID));
    Extend(w, s1, CallServerStep(t, task, Some(intentID)), s');
    Again(s, t, Checked(task), Accepted(task, intentID));
  }

  lemma Register(w: World, s: State, t: nat, id: string, intentID: string)
    requires Reachable(w, s) && AboutTo(s, t, id) && IsPending(s.repo, id) && s.repo[id].id == id
    ensures Reachable(w, Accepting(w, s, t, id, intentID))
  {
    hide Reachable;
    var task := s.repo[id];
    var s1 := ReadToRegister(w, s, t, id);
    var s2 := CheckAndCall(w, s1, t, task, intentID);
    var s3 := RememberIt(w, s2, t, task, intentID);
    Again(s, t, Read(task), Accepted(task, intentID));
    Again(s, t, Accepted(task, intentID), Done);
    assert s3.history == s.history + [SawPending(id), IntentRegistered(id, intentID)];
  }

  lemma RememberIt(w: World, s: State, t: nat, task: Task, intentID: string) returns (s': State)
    requires Reachable(w, s) && t in s.threads && s.threads[t] == Accepted(task, intentID)
    ensures Reachable(w, s')
    ensures s' == At(s, t,
                     Done).(intents := s.intents[w.hash(intentID) := Registered(task.id, intentID, task.intent.inputs)],
                                  history := s.history + [IntentRegistered(task.id, intentID)])
  {
    hide Reachable;
    s' := At(s, t, Done).(intents := s.intents[w.hash(intentID) := Registered(task.id, intentID, task.intent.inputs)],
                          history := s.history + [IntentRegistered(task.id, intentID)]);
    Extend(w, s, RememberStep(t, task, intentID), s');
  }

  /** A session that has selected these registrations is running. */
  ghost predicate Selects(s: State, t: nat, selected: seq<Registered>) {
    t in s.threads && s.threads[t].Running? && s.threads[t].selected == selected
  }

  lemma SelectTwo(w: World, s: State, t: nat, a: string, b: string) returns (s': State)
    requires Reachable(w, s) && t !in s.threads && a in s.intents && b in s.intents
    ensures Reachable(w, s') && s'.repo == s.repo && Selects(s', t, [s.intents[a], s.intents[b]])
  {
    hide Reachable;
    var hashes := [a, b];
    assert hashes[1..] == [b] && [b][1..] == [];
    assert Select(s.intents, []) == [];
    assert Select(s.intents, [b]) == [s.intents[b]];
    var selected := Select(s.intents, hashes);
    assert selected == [s.intents[a], s.intents[b]];
    s' := At(s, t, Running(|s.history|, selected)).(history := s.history + SelectionEvents(|s.history|, selected));
    Extend(w, s, BatchStartedStep(t, hashes), s');
  }

  /** A scheduled job registers its task. */
  lemma RegisterJob(w: World, s: State, t: nat, id: string, intentID: string) returns (s': State)
    requires Reachable(w, s) && Quiet(s, t) && id in s.scheduled && IsPending(s.repo, id) && s.repo[id].id == id
    ensures Reachable(w, s') && s'.repo == s.repo && s'.delegateMtx == None
    ensures s'.intents == s.intents[w.hash(intentID) := Registered(id, intentID, s.repo[id].intent.inputs)]
    ensures s'.threads.Keys == s.threads.Keys + {t}
  {
    hide Reachable;
    RunIt(w, s, t, id);
    var s1 := Started(s, t, id);
    Register(w, s1, t, id, intentID);
    s' := Accepting(w, s1, t, id, intentID);
  }

  /** A batch that names one intent starts and fails, and a worker is about to register the task again. */
  lemma FailBatch(w: World, s: State, t: nat, hash: string, worker: nat) returns (s': State)
    requires Reachable(w, s) && Quiet(s, t) && worker !in s.threads && t != worker && hash in s.intents
    ensures Reachable(w, s') && AboutTo(s', worker, s.intents[hash].taskID)
    ensures s'.repo == s.repo && s'.intents == s.intents && s'.threads.Keys == s.threads.Keys + {t, worker}
  {
    hide Reachable;
    var selected := [s.intents[hash]];
    var s1 := StartBatch(w, s, t, hash);
    var s2 := At(s1, t, Retrying(selected, 0));
    Extend(w, s1, BatchFailedStep(t, |s.history|, selected), s2);
    s' := RetryFirst(w, s2, t, selected, worker);
  }

  lemma StartBatch(w: World, s: State, t: nat, hash: string) returns (s': State)
    requires Reachable(w, s) && t !in s.threads && hash in s.intents
    ensures Reachable(w, s') && s'.repo == s.repo && s'.intents == s.intents && s'.delegateMtx == s.delegateMtx
    ensures s'.threads == s.threads[t := Running(|s.history|, [s.intents[hash]])]
  {
    hide Reachable;
    var selected, session := [s.intents[hash]], |s.history|;
    SelectOne(s.intents, hash);
    s' := At(s, t, Running(session, selected)).(history := s.history + SelectionEvents(session, selected));
    Extend(w, s, BatchStartedStep(t, [hash]), s');
  }

  lemma SelectOne(intents: map<string, Registered>, hash: string)
    requires hash in intents
    ensures Select(intents, [hash]) == [intents[hash]]
  {
    assert [hash][1..] == [];
    assert Select(intents, []) == [];
  }

  lemma RetryFirst(w: World, s: State, t: nat, selected: seq<Registered>, worker: nat) returns (s': State)
    requires Reachable(w, s) && t in s.threads && s.threads[t] == Retrying(selected, 0) && selected != [] &&
      worker !in s.threads
    ensures Reachable(w, s')
    ensures s' == At(At(s, t, AwaitingRetry(selected, 0, worker)), worker, Registering(selected[0].taskID))
  {
    hide Reachable;
    s' := At(At(s, t, AwaitingRetry(selected, 0, worker)), worker, Registering(selected[0].taskID));
    Extend(w, s, RetryStep(t, selected, 0, worker), s');
  }

  /**
   * A task that is registered again after a failed batch keeps its older intent too, and when the server names both in
   * one event, the session selects the pending task twice.
   */
  lemma SelectionCanRepeat(w: World, task: Task, x: string, y: string) returns (s: State)
    requires NewTask(w, task) && w.hash(x) != w.hash(y)
    ensures Reachable(w, s) && s.repo == map[task.id := task] && IsPending(s.repo, task.id)
    ensures Selects(s, 4, [Registered(task.id, x, task.intent.inputs), Registered(task.id, y, task.intent.inputs)])
  {
    hide Reachable, Settle, PendingByInputs, Selects;
    Begin(w);
    Store(w, START, 0, task);
    OnlyTask(task);
    var s1 := RegisterJob(w, Stored(START, 0, task), 1, task.id, x);
    var s2 := FailBatch(w, s1, 2, w.hash(x), 3);
    Register(w, s2, 3, task.id, y);
    var s3 := Accepting(w, s2, 3, task.id, y);
    s := SelectTwo(w, s3, 4, w.hash(x), w.hash(y));
  }

  /** What that session submits spends a wanted vtxo of the task twice, with two connectors. */
  lemma RepeatedSelectionSpendsTwice(w: World, f: Forfeits.World, cfg: Forfeits.Config, task: Task, x: string,
                                     y: string,
                                     leaves: seq<Forfeits.Leaf>, o: Outpoint, txs: seq<Forfeits.Psbt>)
                                       returns (s: State)
    requires NewTask(w, task) && w.hash(x) != w.hash(y) && Forfeits.ReadsBack(f) &&
      Forfeits.StoredOk(f, cfg, task.forfeitTxs)
    requires var repo := map[task.id := task]; Forfeits.WantedAt(f, repo, task.id) == [o]
    requires var all := Forfeits.OfTasks(f, map[task.id := task], [task.id, task.id], 2);
      all.Ok? && Forfeits.SubmittedAll(f, all.value, leaves, txs)
    requires leaves != [] && forall i, j :: 0 <= i < j < |leaves| ==> leaves[i].txid != leaves[j].txid
    ensures Reachable(w, s) && s.repo == map[task.id := task]
    ensures Selects(s, 4, [Registered(task.id, x, task.intent.inputs), Registered(task.id, y, task.intent.inputs)])
    ensures |txs| == 2 && |txs[0].txIns| == |txs[1].txIns| == 2
    ensures txs[0].txIns[0] == txs[1].txIns[0] == o && txs[0].txIns[1] != txs[1].txIns[1]
  {
    s := SelectionCanRepeat(w, task, x, y);
    OneTaskStoredOk(f, cfg, task);
    hide *;
    Forfeits.RepeatedIdSpendsTwice(f, cfg, map[task.id := task], leaves, task.id, o, txs);
  }

  lemma OneTaskStoredOk(f: Forfeits.World, cfg: Forfeits.Config, task: Task)
    requires Forfeits.StoredOk(f, cfg, task.forfeitTxs)
    ensures Forfeits.RepoStoredOk(f, cfg, map[task.id := task])
  {}

  /**
   * A task that was replaced after its registration keeps its intent: a batch can select it, cancelled, together with
   * the task on the same inputs that replaced it.
   */
  lemma SelectionCanOverlap(w: World, prior: Task, task: Task, x: string, y: string) returns (s: State)
    requires NewTask(w, prior) && NewTask(w, task) && prior.id != task.id && prior.intent.txid != task.intent.txid
    requires Overlap(prior.intent.inputs, task.intent.inputs) && w.hash(x) != w.hash(y)
    ensures Reachable(w, s) && IsPending(s.repo, task.id) && s.repo[task.id] == task
    ensures prior.id in s.repo && s.repo[prior.id] == SettledTask(prior, Cancel)
    ensures Selects(s, 4, [Registered(prior.id, x, prior.intent.inputs), Registered(task.id, y, task.intent.inputs)])
  {
    hide Reachable, Settle, PendingByInputs, Selects;
    Begin(w);
    Store(w, START, 0, prior);
    var s1 := Stored(START, 0, prior);
    OnlyTask(prior);
    var s2 := RegisterJob(w, s1, 1, prior.id, x);
    Cancelled(prior, task.intent.inputs);
    Store(w, s2, 2, task);
    var s3 := RegisterJob(w, Stored(s2, 2, task), 3, task.id, y);
    s := SelectTwo(w, s3, 4, w.hash(x), w.hash(y));
  }

  lemma OnlyTask(task: Task)
    ensures Settle(map[], PendingByInputs(map[], task.intent.inputs), Cancel) == map[]
  {}

  lemma Cancelled(task: Task, inputs: seq<Outpoint>)
    requires task.status == Pending && Overlap(task.intent.inputs, inputs)
    ensures var repo := map[task.id := task];
      Settle(repo, PendingByInputs(repo, inputs), Cancel) == map[task.id := SettledTask(task, Cancel)]
  {}
}
