/**
 * The delegate service as a state machine: submissions, registrations, batch sessions and the monitor of spent vtxos,
 * interleaved in every way that the mutexes allow. Repository calls and critical sections on the intents mutex are
 * single steps; a mutex that is held across several steps is part of the state.
 */
module DelegateProtocol {
  import opened Results
  import opened Tasks

  // ---- State ----

  datatype Registered = Registered(taskID: string, intentID: string, inputs: seq<Outpoint>)

  /** What has happened, for statements about whole runs; no step looks at it. */
  datatype Event =
    | SawPending(id: string)
    | IntentRegistered(id: string, intentID: string)
    | Selected(session: nat, id: string, intentID: string)
    | Finalized(session: nat, txid: string)

  /** Where a goroutine is. */
  datatype Thread =
    // Delegate
    | Submitted(task: Task, allowReplace: bool)
    | Unchecked(task: Task, allowReplace: bool)
    | Holding(task: Task, allowReplace: bool)
    | Replacing(task: Task, ids: set<string>)
    | Clear(task: Task)
    | Added(task: Task)
    | Unscheduled(id: string)
    // registerDelegate
    | Registering(id: string)
    | Reading(id: string)
    | Read(task: Task)
    | Checked(task: Task)
    | Rejected(id: string)
    | Accepted(task: Task, intentID: string)
    // runDelegateBatch
    | Running(session: nat, selected: seq<Registered>)
    | Forgetting(session: nat, selected: seq<Registered>, txid: string, next: nat)
    | Completing(session: nat, selected: seq<Registered>, txid: string)
    | Retrying(selected: seq<Registered>, next: nat)
    | AwaitingRetry(selected: seq<Registered>, next: nat, worker: nat)
    // the ticker of monitorVtxosSpent
    | Ticking(spent: seq<Outpoint>)
    | Captured(spent: seq<Outpoint>, taken: seq<Outpoint>)
    | Monitoring(spent: seq<Outpoint>, taken: seq<Outpoint>)
    | Sweeping(spent: seq<Outpoint>, taken: seq<Outpoint>, ids: set<string>, found: bool)
    // a goroutine about to release delegateMtx, and one that has returned
    | Releasing(after: Thread)
    | Done

  /**
   * delegateMtx is the goroutine that holds the mutex, intents the registeredIntents map by hash of the intent id, and
   * scheduled holds the ids of the jobs that wait to run.
   */
  datatype State = State(repo: Repo, intents: map<string, Registered>, delegateMtx: Option<nat>,
                         threads: map<nat, Thread>, scheduled: multiset<string>, history: seq<Event>)

  /**
   * What the protocol does not decide: the inputs a transaction with a given id spends, and the hash of an intent id.
   */
  datatype World = World(inputsOf: string -> seq<Outpoint>, hash: string -> string)

  ghost predicate Init(s: State) {
    s.repo == map[] && s.intents == map[] && s.delegateMtx == None && s.threads == map[] && s.scheduled == multiset{} &&
        s.history == []
  }

  // ---- Steps ----

  /** Goroutine t moves from one place to another, and nothing else changes. */
  ghost predicate Moves(s: State, s': State, t: nat, from: Thread, to: Thread) {
    t in s.threads && s.threads[t] == from && s' == s.(threads := s.threads[t := to])
  }

  /** A new goroutine starts. */
  ghost predicate Spawns(s: State, s': State, t: nat, th: Thread) {
    t !in s.threads && s' == s.(threads := s.threads[t := th])
  }

  /** Goroutine t takes delegateMtx. */
  ghost predicate Locks(s: State, s': State, t: nat, from: Thread, to: Thread) {
    s.delegateMtx == None && t in s.threads && s.threads[t] == from
    && s' == s.(threads := s.threads[t := to], delegateMtx := Some(t))
  }

  /** The task newDelegateTask builds from a proof with this transaction id. */
  ghost predicate NewTask(w: World, task: Task) {
    && task.intent.inputs == w.inputsOf(task.intent.txid) && task.intent.inputs != []
    && task.status == Pending
    && forall x :: x in task.forfeitTxs ==> x in task.intent.inputs
  }

  // Delegate

  ghost predicate Submit(w: World, s: State, s': State, t: nat, task: Task, allowReplace: bool) {
    NewTask(w, task) && Spawns(s, s', t, Submitted(task, allowReplace))
  }

  /** The query for a pending task with the same transaction; when it fails, the submission goes on. */
  ghost predicate CheckDuplicate(s: State, s': State, t: nat, task: Task, allowReplace: bool, fails: bool) {
    Moves(s, s', t, Submitted(task, allowReplace),
          if !fails && exists id :: IsPending(s.repo, id) && s.repo[id].intent.txid == task.intent.txid then Done
          else Unchecked(task, allowReplace))
  }

  ghost predicate Enter(s: State, s': State, t: nat, task: Task, allowReplace: bool) {
    Locks(s, s', t, Unchecked(task, allowReplace), Holding(task, allowReplace))
  }

  /** The query for overlapping pending tasks, which may fail. */
  ghost predicate CheckInputs(s: State, s': State, t: nat, task: Task, allowReplace: bool, fails: bool) {
    var ids := PendingByInputs(s.repo, task.intent.inputs);
    Moves(s, s', t, Holding(task, allowReplace),
          if fails then Releasing(Done)
          else if ids == {} then Clear(task)
          else if allowReplace then Replacing(task, ids)
          else Releasing(Done))
  }

  /** CancelTasks; when it fails, some of the tasks have been cancelled. */
  ghost predicate Replace(s: State, s': State, t: nat, task: Task, ids: set<string>, done: set<string>) {
    && t in s.threads && s.threads[t] == Replacing(task, ids) && done <= ids
    && s' == s.(repo := Settle(s.repo, done, Cancel),
                threads := s.threads[t := if done == ids then Clear(task) else Releasing(Done)])
  }

  /** Add, which fails for an id that is taken, or for other reasons. */
  ghost predicate Save(s: State, s': State, t: nat, task: Task, fails: bool) {
    && t in s.threads && s.threads[t] == Clear(task)
    && s' == if fails || task.id in s.repo then s.(threads := s.threads[t := Releasing(Done)])
             else s.(repo := s.repo[task.id := task], threads := s.threads[t := Added(task)])
  }

  ghost predicate Schedule(s: State, s': State, t: nat, task: Task, fails: bool) {
    && t in s.threads && s.threads[t] == Added(task)
    && s' == if fails then s.(threads := s.threads[t := Unscheduled(task.id)])
             else s.(scheduled := s.scheduled + multiset{task.id}, threads := s.threads[t := Releasing(Done)])
  }

  /** FailTasks for a task that could not be scheduled; the attempt may fail. */
  ghost predicate FailUnscheduled(s: State, s': State, t: nat, id: string, reason: string, fails: bool) {
    && t in s.threads && s.threads[t] == Unscheduled(id)
    && s' == s.(repo := if fails then s.repo
                else Settle(s.repo, {id}, Fail(reason)), threads := s.threads[t := Releasing(Done)])
  }

  ghost predicate Release(s: State, s': State, t: nat) {
    && t in s.threads && s.threads[t].Releasing?
    && s' == s.(threads := s.threads[t := s.threads[t].after], delegateMtx := None)
  }

  // registerDelegate

  /** A scheduled job runs, once. */
  ghost predicate RunJob(s: State, s': State, t: nat, id: string) {
    && id in s.scheduled && t !in s.threads
    && s' == s.(threads := s.threads[t := Registering(id)], scheduled := s.scheduled - multiset{id})
  }

  ghost predicate EnterRegister(s: State, s': State, t: nat, id: string) {
    Locks(s, s', t, Registering(id), Reading(id))
  }

  ghost predicate ReadTask(s: State, s': State, t: nat, id: string, fails: bool) {
    Moves(s, s', t, Reading(id), if fails || id !in s.repo then Releasing(Done) else Releasing(Read(s.repo[id])))
  }

  ghost predicate CheckStatus(s: State, s': State, t: nat, task: Task) {
    && t in s.threads && s.threads[t] == Read(task)
    && s' == if task.status != Pending then s.(threads := s.threads[t := Done])
             else s.(threads := s.threads[t := Checked(task)], history := s.history + [SawPending(task.id)])
  }

  /** The RegisterIntent call returns an intent id or an error. */
  ghost predicate CallServer(s: State, s': State, t: nat, task: Task, answer: Option<string>) {
    Moves(s, s', t, Checked(task), if answer.None? then Rejected(task.id) else Accepted(task, answer.value))
  }

  ghost predicate FailRejected(s: State, s': State, t: nat, id: string, reason: string, fails: bool) {
    && t in s.threads && s.threads[t] == Rejected(id)
    && s' == s.(repo := if fails then s.repo else Settle(s.repo, {id}, Fail(reason)), threads := s.threads[t := Done])
  }

  ghost predicate Remember(w: World, s: State, s': State, t: nat, task: Task, intentID: string) {
    && t in s.threads && s.threads[t] == Accepted(task, intentID)
    && s' == s.(intents := s.intents[w.hash(intentID) := Registered(task.id, intentID, task.intent.inputs)],
                threads := s.threads[t := Done], history := s.history + [IntentRegistered(task.id, intentID)])
  }

  // Batches

  /** The registered intents that a batch-started event names, in the order of the event. */
  function Select(intents: map<string, Registered>, hashes: seq<string>): seq<Registered> {
    if hashes == [] then []
    else (if hashes[0] in intents then [intents[hashes[0]]] else []) + Select(intents, hashes[1..])
  }

  function SelectionEvents(session: nat, selected: seq<Registered>): seq<Event> {
    if selected == [] then []
    else [Selected(session, selected[0].taskID, selected[0].intentID)] + SelectionEvents(session, selected[1..])
  }

  /** A session is known by the moment it starts. */
  ghost predicate BatchStarted(s: State, s': State, t: nat, hashes: seq<string>) {
    var selected, session := Select(s.intents, hashes), |s.history|;
    && selected != [] && t !in s.threads
    && s' == s.(threads := s.threads[t := Running(session, selected)],
                history := s.history + SelectionEvents(session, selected))
  }

  ghost predicate BatchFinalized(s: State, s': State, t: nat, session: nat, selected: seq<Registered>, txid: string) {
    && t in s.threads && s.threads[t] == Running(session, selected)
    && s' == s.(threads := s.threads[t := Forgetting(session, selected, txid, 0)],
                history := s.history + [Finalized(session, txid)])
  }

  ghost predicate Forget(w: World, s: State, s': State, t: nat, session: nat, selected: seq<Registered>, txid: string,
                         next: nat) {
    && t in s.threads && s.threads[t] == Forgetting(session, selected, txid, next)
    && s' == if next < |selected|
             then s.(intents := s.intents - {w.hash(selected[next].intentID)},
                     threads := s.threads[t := Forgetting(session, selected, txid, next + 1)])
             else s.(threads := s.threads[t := Completing(session, selected, txid)])
  }

  function TaskIds(selected: seq<Registered>): set<string> {
    set r | r in selected :: r.taskID
  }

  /** CompleteTasks; when it fails, some of the tasks have been completed and the session goes on. */
  ghost predicate Finish(s: State, s': State, t: nat, session: nat, selected: seq<Registered>, txid: string,
                         done: set<string>) {
    && t in s.threads && s.threads[t] == Completing(session, selected, txid) && done <= TaskIds(selected)
    && s' == s.(repo := Settle(s.repo, done, Complete(txid)),
                threads := s.threads[t := if done == TaskIds(selected) then Done else Running(session, selected)])
  }

  ghost predicate BatchFailed(s: State, s': State, t: nat, session: nat, selected: seq<Registered>) {
    Moves(s, s', t, Running(session, selected), Retrying(selected, 0))
  }

  /** The next selected task is registered again, by a worker the session waits for. */
  ghost predicate Retry(s: State, s': State, t: nat, selected: seq<Registered>, next: nat, worker: nat) {
    && t in s.threads && s.threads[t] == Retrying(selected, next)
    && if next < |selected|
       then worker !in s.threads
            && s' == s.(threads := s.threads[t := AwaitingRetry(selected, next,
                                                                worker)][worker := Registering(selected[next].taskID)])
       else s' == s.(threads := s.threads[t := Done])
  }

  ghost predicate Retried(s: State, s': State, t: nat, selected: seq<Registered>, next: nat, worker: nat) {
    && worker in s.threads && s.threads[worker] == Done
    && Moves(s, s', t, AwaitingRetry(selected, next, worker), Retrying(selected, next + 1))
  }

  /** A session, or any goroutine between its steps, ends: its stream closes or its context is cancelled. */
  ghost predicate Stop(s: State, s': State, t: nat) {
    t in s.threads && !Holds(s.threads[t]) && s' == s.(threads := s.threads[t := Done])
  }

  // The monitor of spent vtxos

  ghost predicate StartMonitor(s: State, s': State, t: nat) {
    Spawns(s, s', t, Ticking([]))
  }

  /** Spent outpoints arrive, at any time. */
  ghost predicate Spend(s: State, s': State, t: nat, spent: seq<Outpoint>) {
    && t in s.threads
    && match s.threads[t]
       case Ticking(b) => s' == s.(threads := s.threads[t := Ticking(b + spent)])
       case Captured(b, taken) => s' == s.(threads := s.threads[t := Captured(b + spent, taken)])
       case Monitoring(b, taken) => s' == s.(threads := s.threads[t := Monitoring(b + spent, taken)])
       case Sweeping(b, taken, ids, found) =>
           s' == s.(threads := s.threads[t := Sweeping(b + spent, taken, ids, found)])
       case _ => false
  }

  ghost predicate Tick(s: State, s': State, t: nat, spent: seq<Outpoint>) {
    Moves(s, s', t, Ticking(spent), Captured([], spent))
  }

  ghost predicate EnterMonitor(s: State, s': State, t: nat, spent: seq<Outpoint>, taken: seq<Outpoint>) {
    Locks(s, s', t, Captured(spent, taken), Monitoring(spent, taken))
  }

  ghost predicate FindSpent(s: State, s': State, t: nat, spent: seq<Outpoint>, taken: seq<Outpoint>, fails: bool) {
    Moves(s, s', t, Monitoring(spent, taken),
          Sweeping(spent, taken, if fails then {} else PendingByInputs(s.repo, taken), !fails))
  }

  ghost predicate Sweep(s: State, s': State, t: nat, spent: seq<Outpoint>, taken: seq<Outpoint>, ids: set<string>,
                        found: bool, done: set<string>) {
    && t in s.threads && s.threads[t] == Sweeping(spent, taken, ids, found) && done <= ids
    && s' == s.(repo := Settle(s.repo, done, Cancel), threads := s.threads[t := Releasing(Ticking(spent))])
  }

  // The process

  /** GetAllPending */
  function AllPending(repo: Repo): set<string> {
    set id | id in repo && IsPending(repo, id)
  }

  /**
   * The process restarts: memory is lost, the repository stays, and pending tasks, unless that fails, are scheduled
   * again.
   */
  ghost predicate Restart(s: State, s': State, ids: set<string>) {
    ids <= AllPending(s.repo) && s' == State(s.repo, map[], None, map[], multiset(ids), s.history)
  }

  /** Start after Stop in one process: pending tasks are scheduled again beside what is still scheduled and running. */
  ghost predicate Restore(s: State, s': State, ids: set<string>) {
    ids <= AllPending(s.repo) && s' == s.(scheduled := s.scheduled + multiset(ids))
  }

  /** The places between taking delegateMtx and releasing it. */
  predicate Holds(th: Thread) {
    th.Holding? || th.Replacing? || th.Clear? || th.Added? || th.Unscheduled? || th.Reading? || th.Monitoring? ||
        th.Sweeping?
    || th.Releasing?
  }
}
