/** Delegate tasks and the repository operations on them, as one abstract map. */
module Tasks {
  datatype Status = Pending | Completed | Failed | Cancelled

  /** A transaction output: the 64 hexadecimal digits of the transaction hash, and an index. */
  datatype Outpoint = Outpoint(hash: string, index: nat)

  datatype Intent = Intent(message: string, proof: string, txid: string, inputs: seq<Outpoint>)

  /** The nanoseconds of a second, to which the stores cut a schedule. */
  const SECOND: int := 1_000_000_000

  /** scheduledAt counts nanoseconds since the epoch. */
  datatype Task = Task(id: string, intent: Intent, forfeitTxs: map<Outpoint, string>, fee: nat,
                       delegatePublicKey: string,
                       scheduledAt: int, status: Status, failReason: string, commitmentTxid: string)

  type Repo = map<string, Task>

  predicate Overlap(a: seq<Outpoint>, b: seq<Outpoint>) {
    exists x :: x in a && x in b
  }

  predicate IsPending(repo: Repo, id: string) {
    id in repo && repo[id].status == Pending
  }

  /** GetPendingTaskIDsByInputs */
  function PendingByInputs(repo: Repo, inputs: seq<Outpoint>): set<string> {
    set id | id in repo && IsPending(repo, id) && Overlap(repo[id].intent.inputs, inputs)
  }

  /** How the repository settles a task. */
  datatype Outcome = Cancel | Complete(commitmentTxid: string) | Fail(reason: string)

  function SettledTask(t: Task, outcome: Outcome): Task {
    match outcome
    case Cancel => t.(status := Cancelled)
    case Complete(txid) => t.(status := Completed, commitmentTxid := txid)
    case Fail(reason) => t.(status := Failed, failReason := reason)
  }

  /** CancelTasks, CompleteTasks and FailTasks: the pending ones among ids are settled, the others are left alone. */
  function Settle(repo: Repo, ids: set<string>, outcome: Outcome): Repo {
    map id | id in repo :: if id in ids && IsPending(repo, id) then SettledTask(repo[id], outcome) else repo[id]
  }

  /** A task that is settled keeps everything else. */
  lemma SettledIs(repo: Repo, ids: set<string>, id: string, commitmentTxid: string, reason: string)
    requires id in repo
    ensures forall outcome :: id !in ids || repo[id].status != Pending ==> Settle(repo, ids, outcome)[id] == repo[id]
    ensures id in ids && repo[id].status == Pending ==>
      && Settle(repo, ids, Cancel)[id] == repo[id].(status := Cancelled)
      && Settle(repo, ids, Complete(commitmentTxid))[id]
         == repo[id].(status := Completed, commitmentTxid := commitmentTxid)
      && Settle(repo, ids, Fail(reason))[id] == repo[id].(status := Failed, failReason := reason)
  {}

  /** Settling only moves pending tasks to a terminal status, and changes nothing else about a task's intent. */
  predicate OnlySettles(repo: Repo, repo': Repo) {
    && repo'.Keys == repo.Keys
    && forall id :: id in repo ==> SettledOrSame(repo[id], repo'[id])
  }

  predicate SettledOrSame(t: Task, t': Task) {
    t' == t || (t.status == Pending && t'.status != Pending && t'.intent == t.intent)
  }

  lemma SettleOnlySettles(repo: Repo, ids: set<string>, outcome: Outcome)
    ensures OnlySettles(repo, Settle(repo, ids, outcome))
  {}

  /** No two pending tasks have an input in common. */
  ghost predicate PendingDisjoint(repo: Repo) {
    forall a, b :: IsPending(repo, a) && IsPending(repo, b) && a != b ==>
      !Overlap(repo[a].intent.inputs, repo[b].intent.inputs)
  }

  /** No pending task has one of the inputs. */
  ghost predicate NonePendingOn(repo: Repo, inputs: seq<Outpoint>) {
    forall id :: IsPending(repo, id) ==> !Overlap(repo[id].intent.inputs, inputs)
  }

  lemma SettlingKeepsDisjoint(repo: Repo, repo': Repo)
    requires OnlySettles(repo, repo') && PendingDisjoint(repo)
    ensures PendingDisjoint(repo')
  {
    forall a, b | IsPending(repo', a) && IsPending(repo', b) && a != b
      ensures !Overlap(repo'[a].intent.inputs, repo'[b].intent.inputs)
    {
      assert SettledOrSame(repo[a], repo'[a]) && SettledOrSame(repo[b], repo'[b]);
      assert IsPending(repo, a) && IsPending(repo, b);
    }
  }

  lemma SettlingKeepsNone(repo: Repo, repo': Repo, inputs: seq<Outpoint>)
    requires OnlySettles(repo, repo') && NonePendingOn(repo, inputs)
    ensures NonePendingOn(repo', inputs)
  {}

  lemma SettlingShrinksPending(repo: Repo, repo': Repo, inputs: seq<Outpoint>)
    requires OnlySettles(repo, repo')
    ensures PendingByInputs(repo', inputs) <= PendingByInputs(repo, inputs)
  {}

  /** Cancelling every pending task on the inputs leaves none. */
  lemma CancellingClears(repo: Repo, inputs: seq<Outpoint>, ids: set<string>)
    requires PendingByInputs(repo, inputs) <= ids
    ensures NonePendingOn(Settle(repo, ids, Cancel), inputs)
  {}

  /** A pending task whose inputs no other pending task has can be added. */
  lemma AddingKeepsDisjoint(repo: Repo, task: Task)
    requires PendingDisjoint(repo) && NonePendingOn(repo, task.intent.inputs) && task.id !in repo
    ensures PendingDisjoint(repo[task.id := task])
  {}
}
