/** What every run of the delegate protocol keeps. */
module DelegateSafety {
  import opened Results
  import opened Tasks
  import opened DelegateProtocol

  // ---- Runs ----

  datatype Step =
    | SubmitStep(t: nat, task: Task, allowReplace: bool)
    | CheckDuplicateStep(t: nat, task: Task, allowReplace: bool, fails: bool)
    | EnterStep(t: nat, task: Task, allowReplace: bool)
    | CheckInputsStep(t: nat, task: Task, allowReplace: bool, fails: bool)
    | ReplaceStep(t: nat, task: Task, ids: set<string>, done: set<string>)
    | SaveStep(t: nat, task: Task, fails: bool)
    | ScheduleStep(t: nat, task: Task, fails: bool)
    | FailUnscheduledStep(t: nat, id: string, reason: string, fails: bool)
    | ReleaseStep(t: nat)
    | RunJobStep(t: nat, id: string)
    | EnterRegisterStep(t: nat, id: string)
    | ReadTaskStep(t: nat, id: string, fails: bool)
    | CheckStatusStep(t: nat, task: Task)
    | CallServerStep(t: nat, task: Task, answer: Option<string>)
    | FailRejectedStep(t: nat, id: string, reason: string, fails: bool)
    | RememberStep(t: nat, task: Task, intentID: string)
    | BatchStartedStep(t: nat, hashes: seq<string>)
    | BatchFinalizedStep(t: nat, session: nat, selected: seq<Registered>, txid: string)
    | ForgetStep(t: nat, session: nat, selected: seq<Registered>, txid: string, next: nat)
    | FinishStep(t: nat, session: nat, selected: seq<Registered>, txid: string, done: set<string>)
    | BatchFailedStep(t: nat, session: nat, selected: seq<Registered>)
    | RetryStep(t: nat, selected: seq<Registered>, next: nat, worker: nat)
    | RetriedStep(t: nat, selected: seq<Registered>, next: nat, worker: nat)
    | StopStep(t: nat)
    | StartMonitorStep(t: nat)
    | SpendStep(t: nat, spent: seq<Outpoint>)
    | TickStep(t: nat, spent: seq<Outpoint>)
    | EnterMonitorStep(t: nat, spent: seq<Outpoint>, taken: seq<Outpoint>)
    | FindSpentStep(t: nat, spent: seq<Outpoint>, taken: seq<Outpoint>, fails: bool)
    | SweepStep(t: nat, spent: seq<Outpoint>, taken: seq<Outpoint>, ids: set<string>, found: bool, done: set<string>)
    | RestartStep(ids: set<string>)
    | RestoreStep(ids: set<string>)

  ghost predicate Takes(w: World, s: State, s': State, step: Step) {
    match step
    case SubmitStep(t, task, r) => Submit(w, s, s', t, task, r)
    case CheckDuplicateStep(t, task, r, fails) => CheckDuplicate(s, s', t, task, r, fails)
    case EnterStep(t, task, r) => Enter(s, s', t, task, r)
    case CheckInputsStep(t, task, r, fails) => CheckInputs(s, s', t, task, r, fails)
    case ReplaceStep(t, task, ids, done) => Replace(s, s', t, task, ids, done)
    case SaveStep(t, task, fails) => Save(s, s', t, task, fails)
    case ScheduleStep(t, task, fails) => Schedule(s, s', t, task, fails)
    case FailUnscheduledStep(t, id, reason, fails) => FailUnscheduled(s, s', t, id, reason, fails)
    case ReleaseStep(t) => Release(s, s', t)
    case RunJobStep(t, id) => RunJob(s, s', t, id)
    case EnterRegisterStep(t, id) => EnterRegister(s, s', t, id)
    case ReadTaskStep(t, id, fails) => ReadTask(s, s', t, id, fails)
    case CheckStatusStep(t, task) => CheckStatus(s, s', t, task)
    case CallServerStep(t, task, answer) => CallServer(s, s', t, task, answer)
    case FailRejectedStep(t, id, reason, fails) => FailRejected(s, s', t, id, reason, fails)
    case RememberStep(t, task, intentID) => Remember(w, s, s', t, task, intentID)
    case BatchStartedStep(t, hashes) => BatchStarted(s, s', t, hashes)
    case BatchFinalizedStep(t, session, selected, txid) => BatchFinalized(s, s', t, session, selected, txid)
    case ForgetStep(t, session, selected, txid, next) => Forget(w, s, s', t, session, selected, txid, next)
    case FinishStep(t, session, selected, txid, done) => Finish(s, s', t, session, selected, txid, done)
    case BatchFailedStep(t, session, selected) => BatchFailed(s, s', t, session, selected)
    case RetryStep(t, selected, next, worker) => Retry(s, s', t, selected, next, worker)
    case RetriedStep(t, selected, next, worker) => Retried(s, s', t, selected, next, worker)
    case StopStep(t) => Stop(s, s', t)
    case StartMonitorStep(t) => StartMonitor(s, s', t)
    case SpendStep(t, spent) => Spend(s, s', t, spent)
    case TickStep(t, spent) => Tick(s, s', t, spent)
    case EnterMonitorStep(t, spent, taken) => EnterMonitor(s, s', t, spent, taken)
    case FindSpentStep(t, spent, taken, fails) => FindSpent(s, s', t, spent, taken, fails)
    case SweepStep(t, spent, taken, ids, found, done) => Sweep(s, s', t, spent, taken, ids, found, done)
    case RestartStep(ids) => Restart(s, s', ids)
    case RestoreStep(ids) => Restore(s, s', ids)
  }

  ghost predicate Next(w: World, s: State, s': State) {
    exists step :: Takes(w, s, s', step)
  }

  /** A run of the service: any interleaving of steps. */
  ghost predicate IsRun(w: World, run: seq<State>) {
    |run| > 0 && Init(run[0]) && forall i :: 0 < i < |run| ==> Next(w, run[i - 1], run[i])
  }

  // ---- What a history shows ----

  /** The task was seen pending, and after that an intent was registered for it. */
  ghost predicate WasRegistered(h: seq<Event>, id: string, intentID: string) {
    exists j: nat :: RegisteredAt(h, j, id, intentID)
  }

  predicate RegisteredAt(h: seq<Event>, j: nat, id: string, intentID: string) {
    j < |h| && h[j] == IntentRegistered(id, intentID) && SawPending(id) in h[..j]
  }

  /** After that, the session selected the intent. */
  ghost predicate WasSelected(h: seq<Event>, session: nat, id: string, intentID: string) {
    exists k: nat :: SelectedAt(h, k, session, id, intentID)
  }

  ghost predicate SelectedAt(h: seq<Event>, k: nat, session: nat, id: string, intentID: string) {
    k < |h| && h[k] == Selected(session, id, intentID) && WasRegistered(h[..k], id, intentID)
  }

  /** After that, the batch of the session was finalized in a transaction. */
  ghost predicate WasFinalized(h: seq<Event>, id: string, txid: string) {
    exists l: nat, session: nat, intentID :: FinalizedAt(h, l, session, id, intentID, txid)
  }

  ghost predicate FinalizedAt(h: seq<Event>, l: nat, session: nat, id: string, intentID: string, txid: string) {
    l < |h| && h[l] == Finalized(session, txid) && WasSelected(h[..l], session, id, intentID)
  }

  lemma RegisteredLater(h: seq<Event>, h': seq<Event>, id: string, intentID: string)
    requires h <= h' && WasRegistered(h, id, intentID)
    ensures WasRegistered(h', id, intentID)
  {
    var j: nat :| RegisteredAt(h, j, id, intentID);
    assert h'[..j] == h[..j];
    assert RegisteredAt(h', j, id, intentID);
  }

  lemma SelectedLater(h: seq<Event>, h': seq<Event>, session: nat, id: string, intentID: string)
    requires h <= h' && WasSelected(h, session, id, intentID)
    ensures WasSelected(h', session, id, intentID)
  {
    var k: nat :| SelectedAt(h, k, session, id, intentID);
    assert h'[..k] == h[..k];
    assert SelectedAt(h', k, session, id, intentID);
  }

  lemma FinalizedLater(h: seq<Event>, h': seq<Event>, id: string, txid: string)
    requires h <= h' && WasFinalized(h, id, txid)
    ensures WasFinalized(h', id, txid)
  {
    var l: nat, session: nat, intentID :| FinalizedAt(h, l, session, id, intentID, txid);
    assert h'[..l] == h[..l];
    assert FinalizedAt(h', l, session, id, intentID, txid);
  }

  // ---- The invariant ----

  ghost predicate RepoOk(w: World, repo: Repo) {
    && PendingDisjoint(repo)
    && forall id :: id in repo ==> TaskOk(w, id, repo[id])
  }

  predicate TaskOk(w: World, id: string, task: Task) {
    && task.id == id && task.intent.inputs == w.inputsOf(task.intent.txid) && task.intent.inputs != []
    && forall x :: x in task.forfeitTxs ==> x in task.intent.inputs
  }

  /** A copy of a stored task that was made earlier. */
  ghost predicate CopyOf(repo: Repo, task: Task) {
    task.id in repo && repo[task.id].intent == task.intent
  }

  ghost predicate SelectedOk(h: seq<Event>, session: nat, selected: seq<Registered>) {
    forall r :: r in selected ==> WasSelected(h, session, r.taskID, r.intentID)
  }

  ghost predicate FinalizedOk(h: seq<Event>, selected: seq<Registered>, txid: string) {
    forall r :: r in selected ==> WasFinalized(h, r.taskID, txid)
  }

  /** What is known at each place of a goroutine. */
  ghost predicate ThreadOk(w: World, repo: Repo, h: seq<Event>, th: Thread) {
    match th
    case Submitted(task, _) => NewTask(w, task)
    case Unchecked(task, _) => NewTask(w, task)
    case Holding(task, _) => NewTask(w, task)
    case Replacing(task, ids) => NewTask(w, task) && PendingByInputs(repo, task.intent.inputs) <= ids
    case Clear(task) => NewTask(w, task) && NonePendingOn(repo, task.intent.inputs)
    case Read(task) => CopyOf(repo, task)
    case Checked(task) => CopyOf(repo, task) && SawPending(task.id) in h
    case Accepted(task, _) => CopyOf(repo, task) && SawPending(task.id) in h
    case Running(session, selected) => SelectedOk(h, session, selected)
    case Forgetting(session, selected, txid, _) => SelectedOk(h, session, selected) && FinalizedOk(h, selected, txid)
    case Completing(session, selected, txid) => SelectedOk(h, session, selected) && FinalizedOk(h, selected, txid)
    case Sweeping(_, taken, ids, found) => found ==> PendingByInputs(repo, taken) <= ids
    case Releasing(after) =>
        !Holds(after) && (after.Done? || after.Ticking? || (after.Read? && CopyOf(repo, after.task)))
    case _ => true
  }

  ghost predicate ThreadsOk(w: World, s: State) {
    forall t :: t in s.threads ==> ThreadOk(w, s.repo, s.history, s.threads[t])
  }

  /** delegateMtx is held by the goroutine between taking and releasing it, and by no other. */
  ghost predicate LockOk(s: State) {
    && (forall t :: t in s.threads && Holds(s.threads[t]) ==> s.delegateMtx == Some(t))
    && (s.delegateMtx.Some? ==> s.delegateMtx.value in s.threads && Holds(s.threads[s.delegateMtx.value]))
  }

  /** A registered intent has the inputs of its stored task, and was registered after the task was seen pending. */
  ghost predicate IntentOk(w: World, s: State, hash: string, r: Registered) {
    && hash == w.hash(r.intentID)
    && r.taskID in s.repo && s.repo[r.taskID].intent.inputs == r.inputs
    && WasRegistered(s.history, r.taskID, r.intentID)
  }

  ghost predicate IntentsOk(w: World, s: State) {
    forall hash :: hash in s.intents ==> IntentOk(w, s, hash, s.intents[hash])
  }

  ghost predicate CompletedOk(repo: Repo, h: seq<Event>) {
    forall id :: id in repo && repo[id].status == Completed ==> WasFinalized(h, id, repo[id].commitmentTxid)
  }

  ghost predicate Inv(w: World, s: State) {
    RepoOk(w, s.repo) && ThreadsOk(w, s) && LockOk(s) && IntentsOk(w, s) && CompletedOk(s.repo, s.history)
  }

  lemma InitHolds(w: World, s: State)
    requires Init(s)
    ensures Inv(w, s)
  {}

  // ---- What settling and time keep ----

  lemma SettlingKeepsRepo(w: World, repo: Repo, repo': Repo)
    requires RepoOk(w, repo) && OnlySettles(repo, repo')
    requires forall id :: id in repo ==> repo'[id].id == repo[id].id && repo'[id].forfeitTxs == repo[id].forfeitTxs
    ensures RepoOk(w, repo')
  {
    SettlingKeepsDisjoint(repo, repo');
    forall id | id in repo' ensures TaskOk(w, id, repo'[id]) {
      assert TaskOk(w, id, repo[id]) && SettledOrSame(repo[id], repo'[id]);
    }
  }

  lemma CopyStays(repo: Repo, repo': Repo, task: Task)
    requires OnlySettles(repo, repo') && CopyOf(repo, task)
    ensures CopyOf(repo', task)
  {}

  lemma SelectionStays(h: seq<Event>, h': seq<Event>, session: nat, selected: seq<Registered>)
    requires h <= h' && SelectedOk(h, session, selected)
    ensures SelectedOk(h', session, selected)
  {
    forall r | r in selected ensures WasSelected(h', session, r.taskID, r.intentID) {
      SelectedLater(h, h', session, r.taskID, r.intentID);
    }
  }

  lemma FinalizationStays(h: seq<Event>, h': seq<Event>, selected: seq<Registered>, txid: string)
    requires h <= h' && FinalizedOk(h, selected, txid)
    ensures FinalizedOk(h', selected, txid)
  {
    forall r | r in selected ensures WasFinalized(h', r.taskID, txid) {
      FinalizedLater(h, h', r.taskID, txid);
    }
  }

  /** What is known at a place stays true while others settle tasks and time passes. */
  lemma ThreadStays(w: World, repo: Repo, h: seq<Event>, repo': Repo, h': seq<Event>, th: Thread)
    requires ThreadOk(w, repo, h, th) && OnlySettles(repo, repo') && h <= h'
    ensures ThreadOk(w, repo', h', th)
  {
    match th
    case Replacing(task, _) => SettlingShrinksPending(repo, repo', task.intent.inputs);
    case Clear(task) => SettlingKeepsNone(repo, repo', task.intent.inputs);
    case Read(task) => CopyStays(repo, repo', task);
    case Checked(task) => CopyStays(repo, repo', task);
    case Accepted(task, _) => CopyStays(repo, repo', task);
    case Running(session, selected) => SelectionStays(h, h', session, selected);
    case Forgetting(session, selected, txid, _) =>
      SelectionStays(h, h', session, selected);
      FinalizationStays(h, h', selected, txid);
    case Completing(session, selected, txid) =>
      SelectionStays(h, h', session, selected);
      FinalizationStays(h, h', selected, txid);
    case Sweeping(_, taken, _, _) => SettlingShrinksPending(repo, repo', taken);
    case Releasing(after) =>
      if after.Read? { CopyStays(repo, repo', after.task); }
    case _ =>
  }

  lemma IntentsStay(w: World, s: State, s': State)
    requires IntentsOk(w, s) && OnlySettles(s.repo, s'.repo) && s.history <= s'.history
    requires forall hash :: hash in s'.intents ==> hash in s.intents && s'.intents[hash] == s.intents[hash]
    ensures IntentsOk(w, s')
  {
    forall hash | hash in s'.intents ensures IntentOk(w, s', hash, s'.intents[hash]) {
      var r := s.intents[hash];
      assert IntentOk(w, s, hash, r);
      RegisteredLater(s.history, s'.history, r.taskID, r.intentID);
      assert SettledOrSame(s.repo[r.taskID], s'.repo[r.taskID]);
    }
  }

  lemma CompletedStays(repo: Repo, h: seq<Event>, h': seq<Event>)
    requires CompletedOk(repo, h) && h <= h'
    ensures CompletedOk(repo, h')
  {
    forall id | id in repo && repo[id].status == Completed ensures WasFinalized(h', id, repo[id].commitmentTxid) {
      FinalizedLater(h, h', id, repo[id].commitmentTxid);
    }
  }

  lemma NothingSettled(repo: Repo)
    ensures OnlySettles(repo, repo)
  {}

  /** The lock after goroutine t has moved within or outside the critical section. */
  lemma LockStays(s: State, s': State, t: nat, to: Thread)
    requires LockOk(s) && s'.delegateMtx == s.delegateMtx && s'.threads == s.threads[t := to]
    requires if t in s.threads then Holds(s.threads[t]) == Holds(to) else !Holds(to)
    ensures LockOk(s')
  {}

  /** A step of one goroutine that does not touch the repository or the intents. */
  lemma QuietStep(w: World, s: State, s': State, t: nat, to: Thread)
    requires Inv(w, s) && s'.repo == s.repo && s'.intents == s.intents && s.history <= s'.history
    requires s'.threads == s.threads[t := to] && ThreadOk(w, s'.repo, s'.history, to) && LockOk(s')
    ensures Inv(w, s')
  {
    hide ThreadOk, RepoOk, LockOk, IntentsOk, CompletedOk;
    NothingSettled(s.repo);
    ThreadsStay(w, s, s', t, to);
    SameIntents(w, s, s');
    CompletedStays(s.repo, s.history, s'.history);
  }

  lemma SameIntents(w: World, s: State, s': State)
    requires IntentsOk(w, s) && OnlySettles(s.repo, s'.repo) && s.history <= s'.history && s'.intents == s.intents
    ensures IntentsOk(w, s')
  {
    IntentsStay(w, s, s');
  }

  lemma ThreadsStay(w: World, s: State, s': State, t: nat, to: Thread)
    requires ThreadsOk(w, s) && OnlySettles(s.repo, s'.repo) && s.history <= s'.history
    requires s'.threads == s.threads[t := to] && ThreadOk(w, s'.repo, s'.history, to)
    ensures ThreadsOk(w, s')
  {
    hide ThreadOk, OnlySettles;
    forall x | x in s'.threads ensures ThreadOk(w, s'.repo, s'.history, s'.threads[x]) {
      if x != t {
        ThreadStays(w, s.repo, s.history, s'.repo, s'.history, s.threads[x]);
      }
    }
  }

  /** A step of one goroutine that settles tasks. */
  lemma SettlingStep(w: World, s: State, s': State, t: nat, to: Thread, ids: set<string>, outcome: Outcome)
    requires Inv(w, s) && s'.repo == Settle(s.repo, ids, outcome) && s'.intents == s.intents && s.history == s'.history
    requires s'.threads == s.threads[t := to] && ThreadOk(w, s'.repo, s'.history, to) && LockOk(s')
    requires outcome.Complete? ==> forall id :: id in ids ==> WasFinalized(s.history, id, outcome.commitmentTxid)
    ensures Inv(w, s')
  {
    hide ThreadOk, LockOk, WasFinalized, PendingDisjoint;
    SettleOnlySettles(s.repo, ids, outcome);
    SettlingKeepsRepo(w, s.repo, s'.repo);
    ThreadsStay(w, s, s', t, to);
    SameIntents(w, s, s');
    NewlyCompleted(s.repo, s.history, ids, outcome);
  }

  lemma NewlyCompleted(repo: Repo, h: seq<Event>, ids: set<string>, outcome: Outcome)
    requires CompletedOk(repo, h)
    requires outcome.Complete? ==> forall id :: id in ids ==> WasFinalized(h, id, outcome.commitmentTxid)
    ensures CompletedOk(Settle(repo, ids, outcome), h)
  {}

  // ---- Every step keeps the invariant ----

  lemma SubmitKeeps(w: World, s: State, s': State, t: nat, task: Task, allowReplace: bool)
    requires Inv(w, s) && Submit(w, s, s', t, task, allowReplace)
    ensures Inv(w, s')
  {
    hide RepoOk, LockOk, IntentsOk, CompletedOk, ThreadsOk;
    LockStays(s, s', t, Submitted(task, allowReplace));
    QuietStep(w, s, s', t, Submitted(task, allowReplace));
  }

  /** What is known at the place of goroutine t. */
  lemma AtPlace(w: World, s: State, t: nat)
    requires Inv(w, s) && t in s.threads
    ensures ThreadOk(w, s.repo, s.history, s.threads[t])
    ensures LockOk(s)
  {}

  /** A move within or outside the critical section. */
  lemma MoveKeeps(w: World, s: State, s': State, t: nat, from: Thread, to: Thread)
    requires Inv(w, s) && Moves(s, s', t, from, to) && Holds(from) == Holds(to)
    requires ThreadOk(w, s.repo, s.history, from) ==> ThreadOk(w, s.repo, s.history, to)
    ensures Inv(w, s')
  {
    hide RepoOk, LockOk, IntentsOk, CompletedOk, ThreadsOk, ThreadOk, Inv;
    AtPlace(w, s, t);
    LockStays(s, s', t, to);
    QuietStep(w, s, s', t, to);
  }

  lemma LockKeeps(w: World, s: State, s': State, t: nat, from: Thread, to: Thread)
    requires Inv(w, s) && Locks(s, s', t, from, to) && Holds(to)
    requires ThreadOk(w, s.repo, s.history, from) ==> ThreadOk(w, s.repo, s.history, to)
    ensures Inv(w, s')
  {
    hide RepoOk, IntentsOk, CompletedOk, ThreadsOk, ThreadOk;
    AtPlace(w, s, t);
    QuietStep(w, s, s', t, to);
  }

  lemma SpawnKeeps(w: World, s: State, s': State, t: nat, th: Thread)
    requires Inv(w, s) && Spawns(s, s', t, th) && !Holds(th) && ThreadOk(w, s.repo, s.history, th)
    ensures Inv(w, s')
  {
    hide RepoOk, IntentsOk, CompletedOk, ThreadsOk, ThreadOk;
    LockStays(s, s', t, th);
    QuietStep(w, s, s', t, th);
  }

  lemma CheckInputsKeeps(w: World, s: State, s': State, t: nat, task: Task, allowReplace: bool, fails: bool)
    requires Inv(w, s) && CheckInputs(s, s', t, task, allowReplace, fails)
    ensures Inv(w, s')
  {
    hide RepoOk, LockOk, IntentsOk, CompletedOk, ThreadsOk, NewTask;
    var ids := PendingByInputs(s.repo, task.intent.inputs);
    forall id | ids == {} && IsPending(s.repo, id) ensures !Overlap(s.repo[id].intent.inputs, task.intent.inputs) {
      assert id !in ids;
    }
    MoveKeeps(w, s, s', t, Holding(task, allowReplace), s'.threads[t]);
  }

  lemma ReplaceKeeps(w: World, s: State, s': State, t: nat, task: Task, ids: set<string>, done: set<string>)
    requires Inv(w, s) && Replace(s, s', t, task, ids, done)
    ensures Inv(w, s')
  {
    hide RepoOk, LockOk, IntentsOk, CompletedOk, ThreadsOk, NewTask, Settle, Inv;
    AtPlace(w, s, t);
    var to := s'.threads[t];
    if done == ids { CancellingClears(s.repo, task.intent.inputs, ids); }
    LockStays(s, s', t, to);
    SettlingStep(w, s, s', t, to, done, Cancel);
  }

  /** Adding a task while holding the mutex: no other goroutine relies on the absence of pending tasks. */
  lemma AddKeepsThread(w: World, repo: Repo, h: seq<Event>, task: Task, th: Thread)
    requires ThreadOk(w, repo, h, th) && task.id !in repo && !th.Replacing? && !th.Clear? && !th.Sweeping?
    ensures ThreadOk(w, repo[task.id := task], h, th)
  {
    hide SelectedOk, FinalizedOk, NewTask;
  }

  lemma AddKeepsThreads(w: World, s: State, s': State, t: nat, task: Task)
    requires Inv(w, s) && t in s.threads && s.threads[t] == Clear(task) && task.id !in s.repo
    requires s' == s.(repo := s.repo[task.id := task], threads := s.threads[t := Added(task)])
    ensures ThreadsOk(w, s') && LockOk(s')
  {
    hide ThreadOk;
    forall x | x in s'.threads ensures ThreadOk(w, s'.repo, s'.history, s'.threads[x]) {
      if x != t {
        assert Holds(s.threads[t]) && s.delegateMtx == Some(t);
        assert !Holds(s.threads[x]);
        AddKeepsThread(w, s.repo, s.history, task, s.threads[x]);
      } else {
        AddedOk(w, s'.repo, s'.history, task);
      }
    }
  }

  lemma AddedOk(w: World, repo: Repo, h: seq<Event>, task: Task)
    ensures ThreadOk(w, repo, h, Added(task))
  {}

  lemma AddKeepsIntents(w: World, s: State, s': State, task: Task)
    requires IntentsOk(w, s) && task.id !in s.repo && s'.repo == s.repo[task.id := task]
    requires s'.intents == s.intents && s'.history == s.history
    ensures IntentsOk(w, s')
  {
    forall hash | hash in s'.intents ensures IntentOk(w, s', hash, s'.intents[hash]) {
      assert IntentOk(w, s, hash, s.intents[hash]);
    }
  }

  lemma SaveKeeps(w: World, s: State, s': State, t: nat, task: Task, fails: bool)
    requires Inv(w, s) && Save(s, s', t, task, fails)
    ensures Inv(w, s')
  {
    hide ThreadOk, LockOk, IntentsOk, WasFinalized, PendingDisjoint, ThreadsOk;
    if fails || task.id in s.repo {
      ReleasingOk(w, s.repo, s.history);
      MoveKeeps(w, s, s', t, Clear(task), Releasing(Done));
    } else {
      AtPlace(w, s, t);
      ClearIs(w, s.repo, s.history, task);
      AddingKeepsDisjoint(s.repo, task);
      AddKeepsThreads(w, s, s', t, task);
      AddKeepsIntents(w, s, s', task);
    }
  }

  lemma ReleasingOk(w: World, repo: Repo, h: seq<Event>)
    ensures ThreadOk(w, repo, h, Releasing(Done)) && ThreadOk(w, repo, h, Done)
  {}

  lemma ClearIs(w: World, repo: Repo, h: seq<Event>, task: Task)
    requires ThreadOk(w, repo, h, Clear(task))
    ensures TaskOk(w, task.id, task) && task.status == Pending && NonePendingOn(repo, task.intent.inputs)
  {}

  lemma ScheduleKeeps(w: World, s: State, s': State, t: nat, task: Task, fails: bool)
    requires Inv(w, s) && Schedule(s, s', t, task, fails)
    ensures Inv(w, s')
  {
    hide RepoOk, LockOk, IntentsOk, CompletedOk, ThreadsOk, Inv;
    AtPlace(w, s, t);
    LockStays(s, s', t, s'.threads[t]);
    QuietStep(w, s, s', t, s'.threads[t]);
  }

  /** FailTasks for one task, or nothing when it fails. */
  lemma FailKeeps(w: World, s: State, s': State, t: nat, to: Thread, id: string, reason: string, fails: bool)
    requires Inv(w, s) && t in s.threads && ThreadOk(w, s.repo, s.history, Done) &&
      (to == Done || to == Releasing(Done))
    requires Holds(s.threads[t]) == Holds(to)
    requires s' == s.(repo := if fails then s.repo
                      else Settle(s.repo, {id}, Fail(reason)), threads := s.threads[t := to])
    ensures Inv(w, s')
  {
    hide RepoOk, LockOk, IntentsOk, CompletedOk, ThreadsOk, ThreadOk, Settle, Inv;
    AtPlace(w, s, t);
    LockStays(s, s', t, to);
    ReleasingOk(w, s'.repo, s'.history);
    if fails {
      QuietStep(w, s, s', t, to);
    } else {
      SettlingStep(w, s, s', t, to, {id}, Fail(reason));
    }
  }

  lemma ReleaseKeeps(w: World, s: State, s': State, t: nat)
    requires Inv(w, s) && Release(s, s', t)
    ensures Inv(w, s')
  {
    hide RepoOk, IntentsOk, CompletedOk, ThreadsOk;
    AtPlace(w, s, t);
    assert Holds(s.threads[t]);
    QuietStep(w, s, s', t, s.threads[t].after);
  }

  lemma ReadTaskKeeps(w: World, s: State, s': State, t: nat, id: string, fails: bool)
    requires Inv(w, s) && ReadTask(s, s', t, id, fails)
    ensures Inv(w, s')
  {
    hide LockOk, IntentsOk, CompletedOk, ThreadsOk, PendingDisjoint;
    MoveKeeps(w, s, s', t, Reading(id), s'.threads[t]);
  }

  lemma CheckStatusKeeps(w: World, s: State, s': State, t: nat, task: Task)
    requires Inv(w, s) && CheckStatus(s, s', t, task)
    ensures Inv(w, s')
  {
    hide RepoOk, LockOk, IntentsOk, CompletedOk, ThreadsOk, Inv;
    AtPlace(w, s, t);
    LockStays(s, s', t, s'.threads[t]);
    if task.status == Pending { assert s'.history[|s.history|] == SawPending(task.id); }
    QuietStep(w, s, s', t, s'.threads[t]);
  }

  lemma RememberKeeps(w: World, s: State, s': State, t: nat, task: Task, intentID: string)
    requires Inv(w, s) && Remember(w, s, s', t, task, intentID)
    ensures Inv(w, s')
  {
    hide RepoOk, LockOk, CompletedOk, ThreadsOk, ThreadOk;
    AtPlace(w, s, t);
    AcceptedIs(w, s.repo, s.history, task, intentID);
    LockStays(s, s', t, Done);
    NothingSettled(s.repo);
    ReleasingOk(w, s'.repo, s'.history);
    ThreadsStay(w, s, s', t, Done);
    CompletedStays(s.repo, s.history, s'.history);
    assert s'.history[..|s.history|] == s.history;
    assert RegisteredAt(s'.history, |s.history|, task.id, intentID);
    OneMoreIntent(w, s, s', w.hash(intentID), Registered(task.id, intentID, task.intent.inputs));
  }

  lemma AcceptedIs(w: World, repo: Repo, h: seq<Event>, task: Task, intentID: string)
    requires ThreadOk(w, repo, h, Accepted(task, intentID))
    ensures CopyOf(repo, task) && SawPending(task.id) in h
  {}

  lemma OneMoreIntent(w: World, s: State, s': State, hash: string, r: Registered)
    requires IntentsOk(w, s) && s'.repo == s.repo && s.history <= s'.history && s'.intents == s.intents[hash := r]
    requires IntentOk(w, s', hash, r)
    ensures IntentsOk(w, s')
  {
    forall x | x in s'.intents ensures IntentOk(w, s', x, s'.intents[x]) {
      if x != hash {
        assert IntentOk(w, s, x, s.intents[x]);
        RegisteredLater(s.history, s'.history, s.intents[x].taskID, s.intents[x].intentID);
      }
    }
  }

  // ---- Batches ----

  lemma {:induction false} SelectedAreRegistered(intents: map<string, Registered>, hashes: seq<string>, r: Registered)
    requires r in Select(intents, hashes)
    ensures exists hash :: hash in intents && intents[hash] == r
  {
    if hashes[0] in intents && r == intents[hashes[0]] {
    } else {
      SelectedAreRegistered(intents, hashes[1..], r);
    }
  }

  lemma {:induction false} SelectionIsRecorded(session: nat, selected: seq<Registered>, r: Registered)
    requires r in selected
    ensures Selected(session, r.taskID, r.intentID) in SelectionEvents(session, selected)
  {
    if r != selected[0] {
      SelectionIsRecorded(session, selected[1..], r);
    }
  }

  lemma NewlySelected(w: World, s: State, hashes: seq<string>, session: nat)
    requires IntentsOk(w, s)
    ensures var selected := Select(s.intents, hashes);
      SelectedOk(s.history + SelectionEvents(session, selected), session, selected)
  {
    var selected := Select(s.intents, hashes);
    hide Select, SelectionEvents, WasSelected, WasRegistered, IntentsOk;
    forall r | r in selected
      ensures WasSelected(s.history + SelectionEvents(session, selected), session, r.taskID, r.intentID) {
      SelectedAreRegistered(s.intents, hashes, r);
      RegisteredSelected(w, s, selected, session, r);
    }
  }

  lemma RegisteredSelected(w: World, s: State, selected: seq<Registered>, session: nat, r: Registered)
    requires IntentsOk(w, s) && r in selected && exists hash :: hash in s.intents && s.intents[hash] == r
    ensures WasSelected(s.history + SelectionEvents(session, selected), session, r.taskID, r.intentID)
  {
    hide WasSelected, WasRegistered, SelectionEvents;
    var hash :| hash in s.intents && s.intents[hash] == r;
    assert IntentOk(w, s, hash, r);
    SelectionIsRecorded(session, selected, r);
    var events := SelectionEvents(session, selected);
    var i: nat :| i < |events| && events[i] == Selected(session, r.taskID, r.intentID);
    SelectedNow(s.history, s.history + events, |s.history| + i, session, r);
  }

  lemma SelectedNow(h: seq<Event>, h': seq<Event>, k: nat, session: nat, r: Registered)
    requires h <= h' && |h| <= k < |h'| && h'[k] == Selected(session, r.taskID, r.intentID)
    requires WasRegistered(h, r.taskID, r.intentID)
    ensures WasSelected(h', session, r.taskID, r.intentID)
  {
    RegisteredLater(h, h'[..k], r.taskID, r.intentID);
    assert SelectedAt(h', k, session, r.taskID, r.intentID);
  }

  lemma BatchStartedKeeps(w: World, s: State, s': State, t: nat, hashes: seq<string>)
    requires Inv(w, s) && BatchStarted(s, s', t, hashes)
    ensures Inv(w, s')
  {
    hide RepoOk, LockOk, IntentsOk, CompletedOk, ThreadsOk;
    var selected := Select(s.intents, hashes);
    NewlySelected(w, s, hashes, |s.history|);
    LockStays(s, s', t, Running(|s.history|, selected));
    QuietStep(w, s, s', t, Running(|s.history|, selected));
  }

  lemma NewlyFinalized(h: seq<Event>, session: nat, selected: seq<Registered>, txid: string)
    requires SelectedOk(h, session, selected)
    ensures FinalizedOk(h + [Finalized(session, txid)], selected, txid)
  {
    var h' := h + [Finalized(session, txid)];
    assert h'[..|h|] == h;
    forall r | r in selected ensures WasFinalized(h', r.taskID, txid) {
      assert FinalizedAt(h', |h|, session, r.taskID, r.intentID, txid);
    }
  }

  lemma BatchFinalizedKeeps(w: World, s: State, s': State, t: nat, session: nat, selected: seq<Registered>,
                            txid: string)
    requires Inv(w, s) && BatchFinalized(s, s', t, session, selected, txid)
    ensures Inv(w, s')
  {
    hide RepoOk, LockOk, IntentsOk, CompletedOk, ThreadsOk, SelectedOk, FinalizedOk, Inv;
    AtPlace(w, s, t);
    NewlyFinalized(s.history, session, selected, txid);
    SelectionStays(s.history, s'.history, session, selected);
    LockStays(s, s', t, Forgetting(session, selected, txid, 0));
    QuietStep(w, s, s', t, Forgetting(session, selected, txid, 0));
  }

  lemma ForgetKeeps(w: World, s: State, s': State, t: nat, session: nat, selected: seq<Registered>, txid: string,
                    next: nat)
    requires Inv(w, s) && Forget(w, s, s', t, session, selected, txid, next)
    ensures Inv(w, s')
  {
    hide RepoOk, LockOk, IntentsOk, CompletedOk, ThreadsOk, SelectedOk, FinalizedOk;
    AtPlace(w, s, t);
    var to := s'.threads[t];
    LockStays(s, s', t, to);
    NothingSettled(s.repo);
    ThreadsStay(w, s, s', t, to);
    IntentsStay(w, s, s');
  }

  lemma FinishKeeps(w: World, s: State, s': State, t: nat, session: nat, selected: seq<Registered>, txid: string,
                    done: set<string>)
    requires Inv(w, s) && Finish(s, s', t, session, selected, txid, done)
    ensures Inv(w, s')
  {
    hide RepoOk, LockOk, IntentsOk, CompletedOk, ThreadsOk, SelectedOk, Settle, WasFinalized, Inv;
    AtPlace(w, s, t);
    var to := s'.threads[t];
    LockStays(s, s', t, to);
    SettlingStep(w, s, s', t, to, done, Complete(txid));
  }

  lemma RetryKeeps(w: World, s: State, s': State, t: nat, selected: seq<Registered>, next: nat, worker: nat)
    requires Inv(w, s) && Retry(s, s', t, selected, next, worker)
    ensures Inv(w, s')
  {
    hide RepoOk, LockOk, IntentsOk, CompletedOk, ThreadsOk, Inv;
    if next < |selected| {
      var s1 := s.(threads := s.threads[t := AwaitingRetry(selected, next, worker)]);
      MoveKeeps(w, s, s1, t, Retrying(selected, next), AwaitingRetry(selected, next, worker));
      SpawnKeeps(w, s1, s', worker, Registering(selected[next].taskID));
    } else {
      MoveKeeps(w, s, s', t, Retrying(selected, next), Done);
    }
  }

  lemma SweepKeeps(w: World, s: State, s': State, t: nat, spent: seq<Outpoint>, taken: seq<Outpoint>, ids: set<string>,
                   found: bool, done: set<string>)
    requires Inv(w, s) && Sweep(s, s', t, spent, taken, ids, found, done)
    ensures Inv(w, s')
  {
    hide RepoOk, LockOk, IntentsOk, CompletedOk, ThreadsOk, Settle, Inv;
    AtPlace(w, s, t);
    LockStays(s, s', t, Releasing(Ticking(spent)));
    SettlingStep(w, s, s', t, Releasing(Ticking(spent)), done, Cancel);
  }

  lemma SpendKeeps(w: World, s: State, s': State, t: nat, spent: seq<Outpoint>)
    requires Inv(w, s) && Spend(s, s', t, spent)
    ensures Inv(w, s')
  {
    hide RepoOk, LockOk, IntentsOk, CompletedOk, ThreadsOk, Inv;
    AtPlace(w, s, t);
    var to := s'.threads[t];
    LockStays(s, s', t, to);
    QuietStep(w, s, s', t, to);
  }

  lemma RestartKeeps(w: World, s: State, s': State, ids: set<string>)
    requires Inv(w, s) && (Restart(s, s', ids) || Restore(s, s', ids))
    ensures Inv(w, s')
  {
    hide RepoOk, CompletedOk, ThreadOk;
    if Restore(s, s', ids) {
      assert forall hash :: hash in s'.intents ==>
          (IntentOk(w, s', hash, s'.intents[hash]) <== IntentOk(w, s, hash, s.intents[hash]));
    }
  }

  /** The monitor leaves no pending task on the spent outpoints it took, unless one of its repository calls failed. */
  lemma SweepClears(w: World, s: State, s': State, t: nat, spent: seq<Outpoint>, taken: seq<Outpoint>, ids: set<string>)
    requires Inv(w, s) && Sweep(s, s', t, spent, taken, ids, true, ids)
    ensures NonePendingOn(s'.repo, taken)
  {
    hide RepoOk, LockOk, IntentsOk, CompletedOk, ThreadsOk, Inv, Settle, NonePendingOn;
    AtPlace(w, s, t);
    CancellingClears(s.repo, taken, ids);
  }

  lemma CheckDuplicateKeeps(w: World, s: State, s': State, t: nat, task: Task, allowReplace: bool, fails: bool)
    requires Inv(w, s) && CheckDuplicate(s, s', t, task, allowReplace, fails)
    ensures Inv(w, s')
  {
    hide Inv, RepoOk;
    MoveKeeps(w, s, s', t, Submitted(task, allowReplace), s'.threads[t]);
  }

  lemma EnterKeeps(w: World, s: State, s': State, t: nat, task: Task, allowReplace: bool)
    requires Inv(w, s) && Enter(s, s', t, task, allowReplace)
    ensures Inv(w, s')
  {
    hide Inv, RepoOk;
    LockKeeps(w, s, s', t, Unchecked(task, allowReplace), Holding(task, allowReplace));
  }

  lemma FailUnscheduledKeeps(w: World, s: State, s': State, t: nat, id: string, reason: string, fails: bool)
    requires Inv(w, s) && FailUnscheduled(s, s', t, id, reason, fails)
    ensures Inv(w, s')
  {
    hide Inv, RepoOk;
    FailKeeps(w, s, s', t, Releasing(Done), id, reason, fails);
  }

  lemma RunJobKeeps(w: World, s: State, s': State, t: nat, id: string)
    requires Inv(w, s) && RunJob(s, s', t, id)
    ensures Inv(w, s')
  {
    hide Inv, RepoOk;
    SpawnKeeps(w, s, s'.(scheduled := s.scheduled), t, Registering(id));
    ScheduleDoesNotMatter(w, s'.(scheduled := s.scheduled), s');
  }

  lemma ScheduleDoesNotMatter(w: World, s: State, s': State)
    requires Inv(w, s) && s' == s.(scheduled := s'.scheduled)
    ensures Inv(w, s')
  {
    hide RepoOk, CompletedOk, ThreadOk, WasRegistered;
    assert forall hash :: hash in s'.intents ==>
      (IntentOk(w, s', hash, s'.intents[hash]) <== IntentOk(w, s, hash, s.intents[hash]));
  }

  lemma EnterRegisterKeeps(w: World, s: State, s': State, t: nat, id: string)
    requires Inv(w, s) && EnterRegister(s, s', t, id)
    ensures Inv(w, s')
  {
    hide Inv, RepoOk;
    LockKeeps(w, s, s', t, Registering(id), Reading(id));
  }

  lemma CallServerKeeps(w: World, s: State, s': State, t: nat, task: Task, answer: Option<string>)
    requires Inv(w, s) && CallServer(s, s', t, task, answer)
    ensures Inv(w, s')
  {
    hide Inv, RepoOk;
    MoveKeeps(w, s, s', t, Checked(task), s'.threads[t]);
  }

  lemma FailRejectedKeeps(w: World, s: State, s': State, t: nat, id: string, reason: string, fails: bool)
    requires Inv(w, s) && FailRejected(s, s', t, id, reason, fails)
    ensures Inv(w, s')
  {
    hide Inv, RepoOk;
    FailKeeps(w, s, s', t, Done, id, reason, fails);
  }

  lemma BatchFailedKeeps(w: World, s: State, s': State, t: nat, session: nat, selected: seq<Registered>)
    requires Inv(w, s) && BatchFailed(s, s', t, session, selected)
    ensures Inv(w, s')
  {
    hide Inv, RepoOk;
    MoveKeeps(w, s, s', t, Running(session, selected), Retrying(selected, 0));
  }

  lemma RetriedKeeps(w: World, s: State, s': State, t: nat, selected: seq<Registered>, next: nat, worker: nat)
    requires Inv(w, s) && Retried(s, s', t, selected, next, worker)
    ensures Inv(w, s')
  {
    hide Inv, RepoOk;
    MoveKeeps(w, s, s', t, AwaitingRetry(selected, next, worker), Retrying(selected, next + 1));
  }

  lemma StopKeeps(w: World, s: State, s': State, t: nat)
    requires Inv(w, s) && Stop(s, s', t)
    ensures Inv(w, s')
  {
    hide Inv, RepoOk;
    MoveKeeps(w, s, s', t, s.threads[t], Done);
  }

  lemma StartMonitorKeeps(w: World, s: State, s': State, t: nat)
    requires Inv(w, s) && StartMonitor(s, s', t)
    ensures Inv(w, s')
  {
    hide Inv, RepoOk;
    SpawnKeeps(w, s, s', t, Ticking([]));
  }

  lemma TickKeeps(w: World, s: State, s': State, t: nat, spent: seq<Outpoint>)
    requires Inv(w, s) && Tick(s, s', t, spent)
    ensures Inv(w, s')
  {
    hide Inv, RepoOk;
    MoveKeeps(w, s, s', t, Ticking(spent), Captured([], spent));
  }

  lemma EnterMonitorKeeps(w: World, s: State, s': State, t: nat, spent: seq<Outpoint>, taken: seq<Outpoint>)
    requires Inv(w, s) && EnterMonitor(s, s', t, spent, taken)
    ensures Inv(w, s')
  {
    hide Inv, RepoOk;
    LockKeeps(w, s, s', t, Captured(spent, taken), Monitoring(spent, taken));
  }

  lemma FindSpentKeeps(w: World, s: State, s': State, t: nat, spent: seq<Outpoint>, taken: seq<Outpoint>, fails: bool)
    requires Inv(w, s) && FindSpent(s, s', t, spent, taken, fails)
    ensures Inv(w, s')
  {
    hide Inv, RepoOk;
    MoveKeeps(w, s, s', t, Monitoring(spent, taken), s'.threads[t]);
  }

  predicate SubmissionStep(step: Step) {
    step.SubmitStep? || step.CheckDuplicateStep? || step.EnterStep? || step.CheckInputsStep? ||
    step.ReplaceStep? || step.SaveStep? || step.ScheduleStep? || step.FailUnscheduledStep? ||
    step.ReleaseStep?
  }

  lemma SubmissionStepKeeps(w: World, s: State, s': State, step: Step)
    requires Inv(w, s) && Takes(w, s, s', step) && SubmissionStep(step)
    ensures Inv(w, s')
  {
    hide Inv, Submit, CheckDuplicate, Enter, CheckInputs, Replace, Save, Schedule, FailUnscheduled, Release,
         RunJob, EnterRegister, ReadTask, CheckStatus, CallServer, FailRejected, Remember, BatchStarted,
         BatchFinalized, Forget, Finish, BatchFailed, Retry, Retried, Stop, StartMonitor, Spend, Tick, EnterMonitor,
         FindSpent, Sweep;
    match step
    case SubmitStep(t, task, r) => SubmitKeeps(w, s, s', t, task, r);
    case CheckDuplicateStep(t, task, r, fails) => CheckDuplicateKeeps(w, s, s', t, task, r, fails);
    case EnterStep(t, task, r) => EnterKeeps(w, s, s', t, task, r);
    case CheckInputsStep(t, task, r, fails) => CheckInputsKeeps(w, s, s', t, task, r, fails);
    case ReplaceStep(t, task, ids, done) => ReplaceKeeps(w, s, s', t, task, ids, done);
    case SaveStep(t, task, fails) => SaveKeeps(w, s, s', t, task, fails);
    case ScheduleStep(t, task, fails) => ScheduleKeeps(w, s, s', t, task, fails);
    case FailUnscheduledStep(t, id, reason, fails) => FailUnscheduledKeeps(w, s, s', t, id, reason, fails);
    case ReleaseStep(t) => ReleaseKeeps(w, s, s', t);
  }

  predicate RegistrationStep(step: Step) {
    step.RunJobStep? || step.EnterRegisterStep? || step.ReadTaskStep? || step.CheckStatusStep? ||
    step.CallServerStep? || step.FailRejectedStep? || step.RememberStep?
  }

  lemma RegistrationStepKeeps(w: World, s: State, s': State, step: Step)
    requires Inv(w, s) && Takes(w, s, s', step) && RegistrationStep(step)
    ensures Inv(w, s')
  {
    hide Inv, Submit, CheckDuplicate, Enter, CheckInputs, Replace, Save, Schedule, FailUnscheduled, Release,
         RunJob, EnterRegister, ReadTask, CheckStatus, CallServer, FailRejected, Remember, BatchStarted,
         BatchFinalized, Forget, Finish, BatchFailed, Retry, Retried, Stop, StartMonitor, Spend, Tick, EnterMonitor,
         FindSpent, Sweep;
    match step
    case RunJobStep(t, id) => RunJobKeeps(w, s, s', t, id);
    case EnterRegisterStep(t, id) => EnterRegisterKeeps(w, s, s', t, id);
    case ReadTaskStep(t, id, fails) => ReadTaskKeeps(w, s, s', t, id, fails);
    case CheckStatusStep(t, task) => CheckStatusKeeps(w, s, s', t, task);
    case CallServerStep(t, task, answer) => CallServerKeeps(w, s, s', t, task, answer);
    case FailRejectedStep(t, id, reason, fails) => FailRejectedKeeps(w, s, s', t, id, reason, fails);
    case RememberStep(t, task, intentID) => RememberKeeps(w, s, s', t, task, intentID);
  }

  predicate SessionStep(step: Step) {
    step.BatchStartedStep? || step.BatchFinalizedStep? || step.ForgetStep? || step.FinishStep? ||
    step.BatchFailedStep? || step.RetryStep? || step.RetriedStep? || step.StopStep?
  }

  lemma SessionStepKeeps(w: World, s: State, s': State, step: Step)
    requires Inv(w, s) && Takes(w, s, s', step) && SessionStep(step)
    ensures Inv(w, s')
  {
    hide Inv, Submit, CheckDuplicate, Enter, CheckInputs, Replace, Save, Schedule, FailUnscheduled, Release,
         RunJob, EnterRegister, ReadTask, CheckStatus, CallServer, FailRejected, Remember, BatchStarted,
         BatchFinalized, Forget, Finish, BatchFailed, Retry, Retried, Stop, StartMonitor, Spend, Tick, EnterMonitor,
         FindSpent, Sweep;
    match step
    case BatchStartedStep(t, hashes) => BatchStartedKeeps(w, s, s', t, hashes);
    case BatchFinalizedStep(t, session, selected, txid) => BatchFinalizedKeeps(w, s, s', t, session, selected, txid);
    case ForgetStep(t, session, selected, txid, next) => ForgetKeeps(w, s, s', t, session, selected, txid, next);
    case FinishStep(t, session, selected, txid, done) => FinishKeeps(w, s, s', t, session, selected, txid, done);
    case BatchFailedStep(t, session, selected) => BatchFailedKeeps(w, s, s', t, session, selected);
    case RetryStep(t, selected, next, worker) => RetryKeeps(w, s, s', t, selected, next, worker);
    case RetriedStep(t, selected, next, worker) => RetriedKeeps(w, s, s', t, selected, next, worker);
    case StopStep(t) => StopKeeps(w, s, s', t);
  }

  predicate MonitorStep(step: Step) {
    step.StartMonitorStep? || step.SpendStep? || step.TickStep? || step.EnterMonitorStep? ||
    step.FindSpentStep? || step.SweepStep? || step.RestartStep? || step.RestoreStep?
  }

  lemma MonitorStepKeeps(w: World, s: State, s': State, step: Step)
    requires Inv(w, s) && Takes(w, s, s', step) && MonitorStep(step)
    ensures Inv(w, s')
  {
    hide Inv, Submit, CheckDuplicate, Enter, CheckInputs, Replace, Save, Schedule, FailUnscheduled, Release,
         RunJob, EnterRegister, ReadTask, CheckStatus, CallServer, FailRejected, Remember, BatchStarted,
         BatchFinalized, Forget, Finish, BatchFailed, Retry, Retried, Stop, StartMonitor, Spend, Tick, EnterMonitor,
         FindSpent, Sweep;
    match step
    case StartMonitorStep(t) => StartMonitorKeeps(w, s, s', t);
    case SpendStep(t, spent) => SpendKeeps(w, s, s', t, spent);
    case TickStep(t, spent) => TickKeeps(w, s, s', t, spent);
    case EnterMonitorStep(t, spent, taken) => EnterMonitorKeeps(w, s, s', t, spent, taken);
    case FindSpentStep(t, spent, taken, fails) => FindSpentKeeps(w, s, s', t, spent, taken, fails);
    case SweepStep(t, spent, taken, ids, found, done) => SweepKeeps(w, s, s', t, spent, taken, ids, found, done);
    case RestartStep(ids) => RestartKeeps(w, s, s', ids);
    case RestoreStep(ids) => RestartKeeps(w, s, s', ids);
  }

  lemma StepKeeps(w: World, s: State, s': State, step: Step)
    requires Inv(w, s) && Takes(w, s, s', step)
    ensures Inv(w, s')
  {
    hide Inv, Takes;
    if SubmissionStep(step) {
      SubmissionStepKeeps(w, s, s', step);
    } else if RegistrationStep(step) {
      RegistrationStepKeeps(w, s, s', step);
    } else if SessionStep(step) {
      SessionStepKeeps(w, s, s', step);
    } else {
      MonitorStepKeeps(w, s, s', step);
    }
  }

  /** The invariant holds in every state of every run. */
  lemma {:induction false} RunKeeps(w: World, run: seq<State>, i: nat)
    requires IsRun(w, run) && i < |run|
    ensures Inv(w, run[i])
  {
    hide Inv, Takes;
    if i == 0 {
      InitHolds(w, run[0]);
    } else {
      RunKeeps(w, run, i - 1);
      assert Next(w, run[i - 1], run[i]);
      var step :| Takes(w, run[i - 1], run[i], step);
      StepKeeps(w, run[i - 1], run[i], step);
    }
  }

  // ---- What holds in every run ----

  /** Pending tasks never share an input, whatever is submitted, replaced, registered or swept at the same time. */
  lemma PendingTasksDisjoint(w: World, run: seq<State>, i: nat)
    requires IsRun(w, run) && i < |run|
    ensures PendingDisjoint(run[i].repo)
  {
    RunKeeps(w, run, i);
  }

  /** At most one pending task per intent transaction, although the duplicate check runs outside the mutex. */
  lemma OnePendingTaskPerIntent(w: World, run: seq<State>, i: nat, a: string, b: string)
    requires IsRun(w, run) && i < |run| && IsPending(run[i].repo, a) && IsPending(run[i].repo, b)
    requires run[i].repo[a].intent.txid == run[i].repo[b].intent.txid
    ensures a == b
  {
    hide IsRun;
    RunKeeps(w, run, i);
    var repo := run[i].repo;
    assert TaskOk(w, a, repo[a]) && TaskOk(w, b, repo[b]);
    var x := repo[a].intent.inputs[0];
    assert x in repo[a].intent.inputs && x in repo[b].intent.inputs;
    assert Overlap(repo[a].intent.inputs, repo[b].intent.inputs);
  }

  /**
   * Every registered intent has the inputs of its stored task, and the task was seen pending before the registration.
   */
  lemma RegisteredIntentsMatch(w: World, run: seq<State>, i: nat, hash: string)
    requires IsRun(w, run) && i < |run| && hash in run[i].intents
    ensures var r := run[i].intents[hash];
      && hash == w.hash(r.intentID) && r.taskID in run[i].repo && run[i].repo[r.taskID].intent.inputs == r.inputs
      && WasRegistered(run[i].history, r.taskID, r.intentID)
  {
    hide IsRun;
    RunKeeps(w, run, i);
    assert IntentOk(w, run[i], hash, run[i].intents[hash]);
  }

  /**
   * A completed task carries the transaction of a finalized batch whose session had selected an intent that was
   * registered for the task after a check that saw it pending.
   */
  lemma CompletedTasksWereBatched(w: World, run: seq<State>, i: nat, id: string)
    requires IsRun(w, run) && i < |run| && id in run[i].repo && run[i].repo[id].status == Completed
    ensures WasFinalized(run[i].history, id, run[i].repo[id].commitmentTxid)
  {
    RunKeeps(w, run, i);
  }

  /** What a step does to the repository: nothing, settle some tasks, or add one. */
  ghost predicate RepoStep(repo: Repo, repo': Repo) {
    || repo' == repo
    || (exists ids: set<string>, outcome :: repo' == Settle(repo, ids, outcome))
    || (exists task: Task :: task.id !in repo && repo' == repo[task.id := task])
  }

  lemma SubmissionRepoStep(w: World, s: State, s': State, step: Step)
    requires Takes(w, s, s', step) && SubmissionStep(step)
    ensures RepoStep(s.repo, s'.repo)
  {
    hide Settle, PendingByInputs, NewTask;
    match step
    case _ =>
  }

  lemma OtherRepoStep(w: World, s: State, s': State, step: Step)
    requires Takes(w, s, s', step) && !SubmissionStep(step)
    ensures RepoStep(s.repo, s'.repo)
  {
    hide Settle, PendingByInputs, Select, SelectionEvents, AllPending, TaskIds, NewTask;
    match step
    case _ =>
  }

  /** What one step may do to a stored task: nothing, or settle it when it is pending. */
  lemma StepSettles(w: World, s: State, s': State, step: Step, id: string)
    requires Takes(w, s, s', step) && id in s.repo
    ensures id in s'.repo && SettledOrSame(s.repo[id], s'.repo[id])
  {
    hide Takes;
    if SubmissionStep(step) { SubmissionRepoStep(w, s, s', step); } else { OtherRepoStep(w, s, s', step); }
  }

  /** A task stays in the repository; it leaves pending at most once, and once terminal it never changes again. */
  lemma {:induction false} TerminalForever(w: World, run: seq<State>, i: nat, j: nat, id: string)
    requires IsRun(w, run) && i <= j < |run| && id in run[i].repo
    ensures id in run[j].repo && SettledOrSame(run[i].repo[id], run[j].repo[id])
    ensures run[i].repo[id].status != Pending ==> run[j].repo[id] == run[i].repo[id]
    decreases j
  {
    hide Takes;
    if i < j {
      TerminalForever(w, run, i, j - 1, id);
      assert Next(w, run[j - 1], run[j]);
      var step :| Takes(w, run[j - 1], run[j], step);
      StepSettles(w, run[j - 1], run[j], step, id);
    }
  }
}
