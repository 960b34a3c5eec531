/** The sqlite task store: two tables, and the loops that turn their joined rows back into tasks. */
module SqliteStore {
  import opened Results
  import opened Tasks
  import opened OutpointText

  // ---- Tables ----

  /** A row of delegate_task; scheduledAt counts seconds. */
  datatype TaskRow = TaskRow(txid: string, message: string, proof: string, fee: nat, publicKey: string,
                             scheduledAt: int,
                             status: Status, failReason: string, commitmentTxid: string)

  /** delegate_task_input has one row per task and outpoint, with a forfeit that may be missing. */
  datatype Tables = Tables(tasks: map<string, TaskRow>, inputs: map<(string, string), Option<string>>)

  /** A joined row: the task's columns, and an outpoint and a forfeit unless the task has no inputs. */
  datatype Joined = Joined(id: string, task: TaskRow, outpoint: Option<string>, forfeitTx: Option<string>)

  function RowOf(t: Task): TaskRow {
    TaskRow(t.intent.txid, t.intent.message, t.intent.proof, t.fee, t.delegatePublicKey, t.scheduledAt / SECOND,
            t.status, "", "")
  }

  /** The forfeit column of an input, which is missing when the task has no forfeit for it. */
  function ForfeitOf(t: Task, o: Outpoint): Option<string> {
    if o in t.forfeitTxs then Some(t.forfeitTxs[o]) else None
  }

  /** The input rows after the first n inputs of a task were inserted; a repeated input replaces its row. */
  function InputRows(inputs: map<(string, string), Option<string>>, t: Task, n: nat): map<(string, string),
      Option<string>>
    requires n <= |t.intent.inputs|
  {
    if n == 0 then inputs
    else
      var o := t.intent.inputs[n - 1];
      InputRows(inputs, t, n - 1)[(t.id, Key(o)) := ForfeitOf(t, o)]
  }

  /** What the primary keys of the tables allow: input rows belong to tasks. */
  predicate Keyed(db: Tables) {
    forall k :: k in db.inputs ==> k.0 in db.tasks
  }

  class Repository {
    var db: Tables

    /** Add, in a transaction: an id that is taken, or a failing insertion, leaves the tables as they were. */
    method Add(task: Task, fails: bool) returns (err: bool)
      requires Keyed(db)
      modifies this
      ensures Keyed(db) && (err <==> fails || task.id in old(db).tasks)
      ensures db == if err then old(db)
                    else Tables(old(db).tasks[task.id := RowOf(task)],
                                InputRows(old(db).inputs, task, |task.intent.inputs|))
    {
      if fails || task.id in db.tasks {
        return true;
      }
      var inputs := db.inputs;
      var i := 0;
      while i < |task.intent.inputs|
        invariant 0 <= i <= |task.intent.inputs| && inputs == InputRows(old(db).inputs, task, i)
      {
        var input := task.intent.inputs[i];
        inputs := inputs[(task.id, Key(input)) := ForfeitOf(task, input)];
        i := i + 1;
      }
      InputRowsOwn(db.inputs, task, |task.intent.inputs|);
      db := Tables(db.tasks[task.id := RowOf(task)], inputs);
      err := false;
    }
  }

  lemma {:induction false} InputRowsOwn(inputs: map<(string, string), Option<string>>, t: Task, n: nat)
    requires n <= |t.intent.inputs|
    ensures forall k :: k in InputRows(inputs, t, n) <==>
      k in inputs || exists i :: 0 <= i < n && k == (t.id, Key(t.intent.inputs[i]))
    ensures forall k :: k in inputs && k.0 != t.id ==>
      k in InputRows(inputs, t, n) && InputRows(inputs, t, n)[k] == inputs[k]
  {
    hide Key;
    if n > 0 {
      InputRowsOwn(inputs, t, n - 1);
      var k := (t.id, Key(t.intent.inputs[n - 1]));
      assert exists i :: 0 <= i < n && k == (t.id, Key(t.intent.inputs[i]));
    }
  }

  /** The row of each input, when none of the inputs were there before. */
  lemma {:induction false} InputRowIs(inputs: map<(string, string), Option<string>>, t: Task, n: nat, i: nat)
    requires i < n <= |t.intent.inputs| && forall j :: 0 <= j < |t.intent.inputs| ==> ValidOutpoint(t.intent.inputs[j])
    ensures var k := (t.id, Key(t.intent.inputs[i]));
      k in InputRows(inputs, t, n) && InputRows(inputs, t, n)[k] == ForfeitOf(t, t.intent.inputs[i])
  {
    hide Key, ValidOutpoint;
    if Key(t.intent.inputs[i]) == Key(t.intent.inputs[n - 1]) {
      KeysDistinct(t.intent.inputs[i], t.intent.inputs[n - 1]);
    } else {
      InputRowIs(inputs, t, n - 1, i);
    }
  }

  // ---- Joined rows ----

  /** rows are the join of one task with its input rows, each once, in some order. */
  predicate IsJoin(db: Tables, id: string, rows: seq<Joined>) {
    && id in db.tasks
    && (forall i :: 0 <= i < |rows| ==> rows[i].id == id && rows[i].task == db.tasks[id])
    && (forall i :: 0 <= i < |rows| ==>
          if rows[i].outpoint.None? then rows[i].forfeitTx.None?
          else
            && (id, rows[i].outpoint.value) in db.inputs
            && db.inputs[(id, rows[i].outpoint.value)] == rows[i].forfeitTx)
    && (forall k :: k in db.inputs && k.0 == id ==> exists i :: 0 <= i < |rows| && rows[i].outpoint == Some(k.1))
    && (forall i, j :: 0 <= i < j < |rows| ==> rows[i].outpoint != rows[j].outpoint)
    && |rows| > 0
  }

  /** The inputs of the first n rows. */
  function InputsOf(rows: seq<Joined>, id: string, n: nat): seq<Outpoint>
    requires n <= |rows|
  {
    if n == 0 then []
    else
      InputsOf(rows, id, n - 1)
      + if rows[n - 1].id == id && rows[n - 1].outpoint.Some? && ParseOutpoint(rows[n - 1].outpoint.value).Some?
        then [ParseOutpoint(rows[n - 1].outpoint.value).value] else []
  }

  /** The forfeits of the first n rows: empty ones are dropped. */
  function ForfeitsOf(rows: seq<Joined>, id: string, n: nat): map<Outpoint, string>
    requires n <= |rows|
  {
    if n == 0 then map[]
    else
      var r := rows[n - 1];
      if r.id == id && r.outpoint.Some? && ParseOutpoint(r.outpoint.value).Some? && r.forfeitTx.Some? &&
          r.forfeitTx.value != ""
      then ForfeitsOf(rows, id, n - 1)[ParseOutpoint(r.outpoint.value).value := r.forfeitTx.value]
      else ForfeitsOf(rows, id, n - 1)
  }

  /** The task of an id, from the first n rows; first is the row that brought the id up. */
  function TaskOf(first: Joined, rows: seq<Joined>, n: nat): Task
    requires n <= |rows|
  {
    var t := first.task;
    Task(first.id, Intent(t.message, t.proof, t.txid, InputsOf(rows, first.id, n)), ForfeitsOf(rows, first.id, n),
         t.fee,
         t.publicKey, t.scheduledAt * SECOND, t.status, t.failReason, t.commitmentTxid)
  }

  /** Every outpoint column can be parsed. */
  predicate AllParse(rows: seq<Joined>, n: nat)
    requires n <= |rows|
  {
    forall i :: 0 <= i < n && rows[i].outpoint.Some? ==> ParseOutpoint(rows[i].outpoint.value).Some?
  }

  method GetByID(rows: seq<Joined>, id: string) returns (r: Result<Task>)
    requires forall i :: 0 <= i < |rows| ==> rows[i].id == id
    ensures r.Ok? <==> |rows| > 0 && AllParse(rows, |rows|)
    ensures r.Ok? ==> r.value == TaskOf(rows[0], rows, |rows|)
  {
    hide ParseOutpoint;
    if |rows| == 0 {
      return Err("delegate task not found");
    }
    var firstRow := rows[0];
    var inputs: seq<Outpoint> := [];
    var forfeitTxs: map<Outpoint, string> := map[];
    var i := 0;
    while i < |rows|
      invariant 0 <= i <= |rows| && AllParse(rows, i)
      invariant inputs == InputsOf(rows, id, i) && forfeitTxs == ForfeitsOf(rows, id, i)
    {
      var row := rows[i];
      i := i + 1;
      if row.outpoint.Some? {
        var outpoint := ParseOutpoint(row.outpoint.value);
        if outpoint.None? {
          return Err("failed to parse outpoint");
        }
        inputs := inputs + [outpoint.value];
        if row.forfeitTx.Some? && row.forfeitTx.value != "" {
          forfeitTxs := forfeitTxs[outpoint.value := row.forfeitTx.value];
        }
      }
    }
    var t := firstRow.task;
    r := Ok(Task(firstRow.id, Intent(t.message, t.proof, t.txid, inputs), forfeitTxs, t.fee, t.publicKey,
                 t.scheduledAt * SECOND,
                 t.status, t.failReason, t.commitmentTxid));
  }

  // ---- Adding and getting ----

  lemma {:induction false} InputIn(rows: seq<Joined>, id: string, n: nat, o: Outpoint)
    requires n <= |rows|
    ensures o in InputsOf(rows, id, n) <==>
      exists i :: 0 <= i < n && rows[i].id == id && rows[i].outpoint.Some? &&
          ParseOutpoint(rows[i].outpoint.value) == Some(o)
  {
    hide ParseOutpoint;
    if n > 0 {
      InputIn(rows, id, n - 1, o);
    }
  }

  /** One row per outpoint: then each forfeit column decides its own entry. */
  lemma {:induction false} ForfeitIn(rows: seq<Joined>, id: string, n: nat, o: Outpoint, i: nat)
    requires i < n <= |rows| && rows[i].id == id && rows[i].outpoint.Some? &&
      ParseOutpoint(rows[i].outpoint.value) == Some(o)
    requires forall j :: 0 <= j < |rows| && j != i && rows[j].id == id && rows[j].outpoint.Some? ==>
      ParseOutpoint(rows[j].outpoint.value) != Some(o)
    ensures o in ForfeitsOf(rows, id, n) <==> rows[i].forfeitTx.Some? && rows[i].forfeitTx.value != ""
    ensures o in ForfeitsOf(rows, id, n) ==> ForfeitsOf(rows, id, n)[o] == rows[i].forfeitTx.value
  {
    hide ParseOutpoint;
    if i == n - 1 {
      NoForfeit(rows, id, n - 1, o);
    } else {
      ForfeitIn(rows, id, n - 1, o, i);
    }
  }

  lemma {:induction false} NoForfeit(rows: seq<Joined>, id: string, n: nat, o: Outpoint)
    requires n <= |rows|
    requires forall j :: 0 <= j < n && rows[j].id == id && rows[j].outpoint.Some? ==>
      ParseOutpoint(rows[j].outpoint.value) != Some(o)
    ensures o !in ForfeitsOf(rows, id, n)
  {
    hide ParseOutpoint;
    if n > 0 {
      NoForfeit(rows, id, n - 1, o);
    }
  }

  /** A task as newDelegateTask makes it: forfeits only for its inputs. */
  predicate Accepted(t: Task) {
    && (forall i :: 0 <= i < |t.intent.inputs| ==> ValidOutpoint(t.intent.inputs[i]))
    && (forall o :: o in t.forfeitTxs ==> o in t.intent.inputs)
  }

  /** The row of a stored task, whatever has happened to it. */
  predicate RowMatches(r: TaskRow, t: Task) {
    r == RowOf(t).(failReason := t.failReason, commitmentTxid := t.commitmentTxid)
  }

  /** An input row holds an input of its task and the forfeit for it. */
  predicate InputMatches(t: Task, outpoint: string, forfeitTx: Option<string>) {
    exists i :: 0 <= i < |t.intent.inputs| && Key(t.intent.inputs[i]) == outpoint &&
        ForfeitOf(t, t.intent.inputs[i]) == forfeitTx
  }

  ghost predicate TasksMatch(tasks: map<string, TaskRow>, repo: Repo) {
    && tasks.Keys == repo.Keys
    && forall id :: id in repo ==> repo[id].id == id && Accepted(repo[id]) && RowMatches(tasks[id], repo[id])
  }

  ghost predicate InputsMatch(inputs: map<(string, string), Option<string>>, repo: Repo) {
    forall k :: k in inputs ==> k.0 in repo && InputMatches(repo[k.0], k.1, inputs[k])
  }

  predicate HasRows(inputs: map<(string, string), Option<string>>, id: string, t: Task) {
    forall i :: 0 <= i < |t.intent.inputs| ==> (id, Key(t.intent.inputs[i])) in inputs
  }

  ghost predicate InputsPresent(inputs: map<(string, string), Option<string>>, repo: Repo) {
    forall id :: id in repo ==> HasRows(inputs, id, repo[id])
  }

  /** The tables hold exactly the tasks of the abstract map. */
  ghost predicate Represents(db: Tables, repo: Repo) {
    TasksMatch(db.tasks, repo) && InputsMatch(db.inputs, repo) && InputsPresent(db.inputs, repo)
  }

  /** Adding a new task to the tables adds it to the map. */
  lemma AddRefines(db: Tables, repo: Repo, t: Task)
    requires Represents(db, repo) && t.id !in repo && Accepted(t) && t.failReason == "" && t.commitmentTxid == ""
    ensures Represents(Tables(db.tasks[t.id := RowOf(t)], InputRows(db.inputs, t, |t.intent.inputs|)), repo[t.id := t])
  {
    hide InputsMatch, InputsPresent, Accepted;
    AddedInputsMatch(db.inputs, repo, t);
    AddedInputsPresent(db.inputs, repo, t);
  }

  lemma AddedInputsMatch(inputs: map<(string, string), Option<string>>, repo: Repo, t: Task)
    requires InputsMatch(inputs, repo) && t.id !in repo && Accepted(t)
    ensures InputsMatch(InputRows(inputs, t, |t.intent.inputs|), repo[t.id := t])
  {
    hide Key, ValidOutpoint, InputMatches;
    var n := |t.intent.inputs|;
    var rows := InputRows(inputs, t, n);
    InputRowsOwn(inputs, t, n);
    forall k | k in rows ensures k.0 in repo[t.id := t] && InputMatches(repo[t.id := t][k.0], k.1, rows[k]) {
      if k !in inputs {
        var i :| 0 <= i < n && k == (t.id, Key(t.intent.inputs[i]));
        InputRowIs(inputs, t, n, i);
        MatchesAt(t, i);
      }
    }
  }

  lemma AddedInputsPresent(inputs: map<(string, string), Option<string>>, repo: Repo, t: Task)
    requires InputsPresent(inputs, repo) && Accepted(t)
    ensures InputsPresent(InputRows(inputs, t, |t.intent.inputs|), repo[t.id := t])
  {
    hide Key, ValidOutpoint, ForfeitOf;
    var rows := InputRows(inputs, t, |t.intent.inputs|);
    InputRowsOwn(inputs, t, |t.intent.inputs|);
    var repo' := repo[t.id := t];
    forall id | id in repo' ensures HasRows(rows, id, repo'[id]) {
      if id == t.id {
        forall i | 0 <= i < |t.intent.inputs| ensures (id, Key(t.intent.inputs[i])) in rows {
          InputRowIs(inputs, t, |t.intent.inputs|, i);
        }
      } else {
        assert HasRows(inputs, id, repo[id]);
      }
    }
  }

  lemma MatchesAt(t: Task, i: nat)
    requires i < |t.intent.inputs|
    ensures InputMatches(t, Key(t.intent.inputs[i]), ForfeitOf(t, t.intent.inputs[i]))
  {}

  /** The UPDATE statements: pending tasks among ids are settled. */
  function UpdateRows(db: Tables, ids: set<string>, outcome: Outcome): Tables {
    Tables(map id | id in db.tasks ::
           if id in ids && db.tasks[id].status == Pending then SettledRow(db.tasks[id], outcome) else db.tasks[id],
           db.inputs)
  }

  function SettledRow(r: TaskRow, outcome: Outcome): TaskRow {
    match outcome
    case Cancel => r.(status := Cancelled)
    case Complete(txid) => r.(status := Completed, commitmentTxid := txid)
    case Fail(reason) => r.(status := Failed, failReason := reason)
  }

  lemma UpdateRefines(db: Tables, repo: Repo, ids: set<string>, outcome: Outcome)
    requires Represents(db, repo)
    ensures Represents(UpdateRows(db, ids, outcome), Settle(repo, ids, outcome))
  {
    UpdatedTasks(db, repo, ids, outcome);
    SettledInputs(db.inputs, repo, ids, outcome);
    hide TasksMatch, InputsMatch, InputsPresent;
  }

  lemma UpdatedTasks(db: Tables, repo: Repo, ids: set<string>, outcome: Outcome)
    requires TasksMatch(db.tasks, repo)
    ensures TasksMatch(UpdateRows(db, ids, outcome).tasks, Settle(repo, ids, outcome))
  {
    hide Accepted, RowMatches, SettledRow, SettledTask;
    var repo', tasks' := Settle(repo, ids, outcome), UpdateRows(db, ids, outcome).tasks;
    forall id | id in repo' ensures repo'[id].id == id && Accepted(repo'[id]) && RowMatches(tasks'[id], repo'[id]) {
      SettledMatches(db.tasks[id], repo[id], outcome);
    }
  }

  lemma SettledMatches(r: TaskRow, t: Task, outcome: Outcome)
    requires RowMatches(r, t) && Accepted(t)
    ensures r.status == t.status
    ensures RowMatches(SettledRow(r, outcome), SettledTask(t, outcome)) && Accepted(SettledTask(t, outcome))
    ensures SettledTask(t, outcome).id == t.id
  {
    hide ValidOutpoint;
  }

  lemma SettledInputs(inputs: map<(string, string), Option<string>>, repo: Repo, ids: set<string>, outcome: Outcome)
    requires InputsMatch(inputs, repo) && InputsPresent(inputs, repo)
    ensures InputsMatch(inputs, Settle(repo, ids, outcome)) && InputsPresent(inputs, Settle(repo, ids, outcome))
  {
    hide Key;
    var repo' := Settle(repo, ids, outcome);
    forall id | id in repo'
      ensures repo'[id].intent == repo[id].intent && repo'[id].forfeitTxs == repo[id].forfeitTxs {}
    hide Settle;
    forall k | k in inputs ensures InputMatches(repo'[k.0], k.1, inputs[k]) {
      SameInputs(repo[k.0], repo'[k.0], k.1, inputs[k]);
    }
    forall id | id in repo' ensures HasRows(inputs, id, repo'[id]) {
      assert HasRows(inputs, id, repo[id]);
    }
  }

  lemma SameInputs(t: Task, t': Task, outpoint: string, forfeitTx: Option<string>)
    requires t'.intent == t.intent && t'.forfeitTxs == t.forfeitTxs && InputMatches(t, outpoint, forfeitTx)
    ensures InputMatches(t', outpoint, forfeitTx)
  {}

  /** The query for pending tasks with an input row among the outpoints. */
  function QueryByInputs(db: Tables, outpoints: set<string>): set<string> {
    set k | k in db.inputs && k.0 in db.tasks && db.tasks[k.0].status == Pending && k.1 in outpoints :: k.0
  }

  lemma QueryRefines(db: Tables, repo: Repo, inputs: seq<Outpoint>)
    requires Represents(db, repo) && forall i :: 0 <= i < |inputs| ==> ValidOutpoint(inputs[i])
    ensures QueryByInputs(db, set i | 0 <= i < |inputs| :: Key(inputs[i])) == PendingByInputs(repo, inputs)
  {
    hide Represents, Key, ValidOutpoint;
    var keys := set i | 0 <= i < |inputs| :: Key(inputs[i]);
    forall id | id in QueryByInputs(db, keys) ensures id in PendingByInputs(repo, inputs) {
      QueryFindsPending(db, repo, inputs, keys, id);
    }
    forall id | id in PendingByInputs(repo, inputs) ensures id in QueryByInputs(db, keys) {
      PendingIsQueried(db, repo, inputs, keys, id);
    }
  }

  lemma QueryFindsPending(db: Tables, repo: Repo, inputs: seq<Outpoint>, keys: set<string>, id: string)
    requires Represents(db, repo) && forall i :: 0 <= i < |inputs| ==> ValidOutpoint(inputs[i])
    requires keys == (set i | 0 <= i < |inputs| :: Key(inputs[i])) && id in QueryByInputs(db, keys)
    ensures id in PendingByInputs(repo, inputs)
  {
    hide Key, ValidOutpoint, HasRows;
    var k :| k in db.inputs && k.0 == id && k.1 in keys && db.tasks[id].status == Pending;
    var t := repo[id];
    var i :| 0 <= i < |t.intent.inputs| && Key(t.intent.inputs[i]) == k.1;
    var j :| 0 <= j < |inputs| && Key(inputs[j]) == k.1;
    KeysDistinct(t.intent.inputs[i], inputs[j]);
    assert inputs[j] in inputs && inputs[j] in t.intent.inputs;
  }

  lemma PendingIsQueried(db: Tables, repo: Repo, inputs: seq<Outpoint>, keys: set<string>, id: string)
    requires Represents(db, repo) && keys == (set i | 0 <= i < |inputs| :: Key(inputs[i]))
    requires id in PendingByInputs(repo, inputs)
    ensures id in QueryByInputs(db, keys)
  {
    hide Key, ValidOutpoint, InputMatches;
    var t := repo[id];
    var x :| x in t.intent.inputs && x in inputs;
    var i :| 0 <= i < |t.intent.inputs| && t.intent.inputs[i] == x;
    var j :| 0 <= j < |inputs| && inputs[j] == x;
    assert HasRows(db.inputs, id, t);
    assert (id, Key(x)) in db.inputs && Key(inputs[j]) in keys;
  }

  // ---- Getting ----

  lemma RowOfInput(db: Tables, repo: Repo, id: string, rows: seq<Joined>, i: nat)
    requires Represents(db, repo) && IsJoin(db, id, rows) && i < |repo[id].intent.inputs|
    ensures exists k :: (0 <= k < |rows| && rows[k].outpoint == Some(Key(repo[id].intent.inputs[i]))
                         && rows[k].forfeitTx == ForfeitOf(repo[id], repo[id].intent.inputs[i]))
  {
    hide Key, ValidOutpoint;
    var t := repo[id];
    var key := (id, Key(t.intent.inputs[i]));
    assert HasRows(db.inputs, id, t);
    assert key in db.inputs && key.0 == id;
    var k :| 0 <= k < |rows| && rows[k].outpoint == Some(key.1);
    var j :| 0 <= j < |t.intent.inputs| && Key(t.intent.inputs[j]) == key.1 &&
        ForfeitOf(t, t.intent.inputs[j]) == db.inputs[key];
    KeysDistinct(t.intent.inputs[i], t.intent.inputs[j]);
  }

  lemma InputOfRow(db: Tables, repo: Repo, id: string, rows: seq<Joined>, k: nat)
    requires Represents(db, repo) && IsJoin(db, id, rows) && k < |rows| && rows[k].outpoint.Some?
    ensures exists i :: (0 <= i < |repo[id].intent.inputs| && rows[k].outpoint.value == Key(repo[id].intent.inputs[i])
                         && ParseOutpoint(rows[k].outpoint.value) == Some(repo[id].intent.inputs[i])
                         && rows[k].forfeitTx == ForfeitOf(repo[id], repo[id].intent.inputs[i]))
  {
    hide Key, ValidOutpoint, ParseOutpoint;
    var t := repo[id];
    var key := (id, rows[k].outpoint.value);
    assert key in db.inputs;
    var i :| 0 <= i < |t.intent.inputs| && Key(t.intent.inputs[i]) == key.1 &&
        ForfeitOf(t, t.intent.inputs[i]) == db.inputs[key];
    OutpointParses(t.intent.inputs[i]);
  }

  /** What is read has the inputs of the task, though in the store's order and without repetitions. */
  lemma GetInputs(db: Tables, repo: Repo, id: string, rows: seq<Joined>, o: Outpoint)
    requires Represents(db, repo) && IsJoin(db, id, rows)
    ensures AllParse(rows, |rows|)
    ensures o in InputsOf(rows, id, |rows|) <==> o in repo[id].intent.inputs
  {
    hide Key, ValidOutpoint, ParseOutpoint, InputsMatch, InputsPresent;
    forall k | 0 <= k < |rows| && rows[k].outpoint.Some? ensures ParseOutpoint(rows[k].outpoint.value).Some? {
      InputOfRow(db, repo, id, rows, k);
    }
    InputIn(rows, id, |rows|, o);
    if o in repo[id].intent.inputs {
      InputHasRow(db, repo, id, rows, o);
    }
    if o in InputsOf(rows, id, |rows|) {
      var k :| 0 <= k < |rows| && rows[k].id == id && rows[k].outpoint.Some? &&
          ParseOutpoint(rows[k].outpoint.value) == Some(o);
      InputOfRow(db, repo, id, rows, k);
    }
  }

  lemma InputHasRow(db: Tables, repo: Repo, id: string, rows: seq<Joined>, o: Outpoint)
    requires Represents(db, repo) && IsJoin(db, id, rows) && o in repo[id].intent.inputs
    ensures exists k :: (0 <= k < |rows| && rows[k].id == id && rows[k].outpoint.Some? &&
                         ParseOutpoint(rows[k].outpoint.value) == Some(o)
                         && rows[k].forfeitTx == ForfeitOf(repo[id], o))
  {
    hide Key, ValidOutpoint, ParseOutpoint;
    var i :| 0 <= i < |repo[id].intent.inputs| && repo[id].intent.inputs[i] == o;
    RowOfInput(db, repo, id, rows, i);
    OutpointParses(o);
  }

  /** What is read agrees with the task in everything else, its schedule cut to whole seconds. */
  lemma GetColumns(db: Tables, repo: Repo, id: string, rows: seq<Joined>)
    requires Represents(db, repo) && IsJoin(db, id, rows)
    ensures var t := TaskOf(rows[0], rows, |rows|);
      t.(intent := t.intent.(inputs := repo[id].intent.inputs), forfeitTxs := repo[id].forfeitTxs)
      == repo[id].(scheduledAt := repo[id].scheduledAt / 1_000_000_000 * 1_000_000_000)
  {
    hide InputsOf, ForfeitsOf, InputsMatch, InputsPresent;
  }

  /** No forfeit with a transaction in it is lost, and none is invented. */
  lemma GetForfeit(db: Tables, repo: Repo, id: string, rows: seq<Joined>, o: Outpoint)
    requires Represents(db, repo) && IsJoin(db, id, rows)
    ensures o in ForfeitsOf(rows, id, |rows|) <==> o in repo[id].forfeitTxs && repo[id].forfeitTxs[o] != ""
    ensures o in ForfeitsOf(rows, id, |rows|) ==> ForfeitsOf(rows, id, |rows|)[o] == repo[id].forfeitTxs[o]
  {
    hide Key, ValidOutpoint, ParseOutpoint;
    if o in repo[id].intent.inputs {
      InputHasRow(db, repo, id, rows, o);
      var k :| 0 <= k < |rows| && rows[k].id == id && rows[k].outpoint.Some? &&
          ParseOutpoint(rows[k].outpoint.value) == Some(o)
               && rows[k].forfeitTx == ForfeitOf(repo[id], o);
      forall j | 0 <= j < |rows| && j != k && rows[j].id == id && rows[j].outpoint.Some?
        ensures ParseOutpoint(rows[j].outpoint.value) != Some(o)
      {
        RowsDiffer(db, repo, id, rows, j, k, o);
      }
      ForfeitIn(rows, id, |rows|, o, k);
    } else {
      forall j | 0 <= j < |rows| && rows[j].id == id && rows[j].outpoint.Some?
        ensures ParseOutpoint(rows[j].outpoint.value) != Some(o)
      {
        InputOfRow(db, repo, id, rows, j);
      }
      NoForfeit(rows, id, |rows|, o);
    }
  }

  lemma RowsDiffer(db: Tables, repo: Repo, id: string, rows: seq<Joined>, j: nat, k: nat, o: Outpoint)
    requires Represents(db, repo) && IsJoin(db, id, rows) && j < |rows| && k < |rows| && j != k
    requires rows[j].outpoint.Some? && rows[k].outpoint.Some? && ParseOutpoint(rows[k].outpoint.value) == Some(o)
    ensures ParseOutpoint(rows[j].outpoint.value) != Some(o)
  {
    hide Key, ValidOutpoint, ParseOutpoint;
    InputOfRow(db, repo, id, rows, j);
    InputOfRow(db, repo, id, rows, k);
    OtherRow(rows, j, k);
  }

  lemma OtherRow(rows: seq<Joined>, j: nat, k: nat)
    requires j < |rows| && k < |rows| && j != k
    requires forall a, b :: 0 <= a < b < |rows| ==> rows[a].outpoint != rows[b].outpoint
    ensures rows[j].outpoint != rows[k].outpoint
  {}

  // ---- Grouping ----

  /** The ids of the first n rows, in the order they are first seen. */
  function FirstSeen(rows: seq<Joined>, n: nat): seq<string>
    requires n <= |rows|
  {
    if n == 0 then []
    else
      var before := FirstSeen(rows, n - 1);
      if rows[n - 1].id in before then before else before + [rows[n - 1].id]
  }

  /** The first row of an id. */
  function FirstRow(rows: seq<Joined>, id: string): (i: nat)
    ensures i <= |rows| && (i < |rows| ==> rows[i].id == id)
    ensures forall j :: 0 <= j < i ==> rows[j].id != id
  {
    if rows == [] || rows[0].id == id then 0
    else
      var i := 1 + FirstRow(rows[1..], id);
      assert forall j :: 0 < j < i ==> rows[j] == rows[1..][j - 1];
      i
  }

  lemma {:induction false} SeenIs(rows: seq<Joined>, n: nat, id: string)
    requires n <= |rows|
    ensures id in FirstSeen(rows, n) <==> exists j :: 0 <= j < n && rows[j].id == id
  {
    if n > 0 {
      SeenIs(rows, n - 1, id);
    }
  }

  /** They come in the order of their first rows. */
  lemma {:induction false} SeenInOrder(rows: seq<Joined>, n: nat, a: nat, b: nat)
    requires n <= |rows| && a < b < |FirstSeen(rows, n)|
    ensures FirstRow(rows, FirstSeen(rows, n)[a]) < FirstRow(rows, FirstSeen(rows, n)[b]) < n
  {
    hide FirstRow;
    var ids := FirstSeen(rows, n - 1);
    FirstOrNot(rows, n - 1);
    if b < |ids| {
      SeenInOrder(rows, n - 1, a, b);
    } else {
      SeenBefore(rows, n - 1, ids[a]);
    }
  }

  lemma SeenBefore(rows: seq<Joined>, n: nat, id: string)
    requires n <= |rows| && id in FirstSeen(rows, n)
    ensures FirstRow(rows, id) < n
  {
    SeenIs(rows, n, id);
  }

  /** An id seen in the first n rows has its task in the map; one not seen has none. */
  predicate GroupedId(rows: seq<Joined>, n: nat, taskMap: map<string, Task>, id: string)
    requires n <= |rows|
  {
    && (id in taskMap <==> id in FirstSeen(rows, n))
    && (id in taskMap ==> FirstRow(rows, id) < n && taskMap[id] == TaskOf(rows[FirstRow(rows, id)], rows, n))
  }

  /** The tasks seen in the first n rows. */
  ghost predicate Grouped(rows: seq<Joined>, n: nat, taskMap: map<string, Task>)
    requires n <= |rows|
  {
    forall id :: GroupedId(rows, n, taskMap, id)
  }

  lemma GroupedStep(rows: seq<Joined>, n: nat, taskMap: map<string, Task>, taskMap': map<string, Task>)
    requires n < |rows| && Grouped(rows, n, taskMap) && FirstRow(rows, rows[n].id) <= n
    requires taskMap' == taskMap[rows[n].id := TaskOf(rows[FirstRow(rows, rows[n].id)], rows, n + 1)]
    ensures Grouped(rows, n + 1, taskMap')
  {
    hide GroupedId, TaskOf, FirstRow, FirstSeen;
    var m := n + 1;
    forall id ensures GroupedId(rows, m, taskMap', id) {
      assert GroupedId(rows, n, taskMap, id);
      IdStep(rows, n, taskMap, taskMap', id);
    }
  }

  lemma IdStep(rows: seq<Joined>, n: nat, taskMap: map<string, Task>, taskMap': map<string, Task>, id: string)
    requires n < |rows| && GroupedId(rows, n, taskMap, id) && FirstRow(rows, rows[n].id) <= n
    requires taskMap' == taskMap[rows[n].id := TaskOf(rows[FirstRow(rows, rows[n].id)], rows, n + 1)]
    ensures GroupedId(rows, n + 1, taskMap', id)
  {
    hide TaskOf;
    if id in taskMap && id != rows[n].id {
      OtherTaskSame(rows, rows[FirstRow(rows, id)], n);
    }
  }

  lemma OtherTaskSame(rows: seq<Joined>, first: Joined, n: nat)
    requires n < |rows| && rows[n].id != first.id
    ensures TaskOf(first, rows, n + 1) == TaskOf(first, rows, n)
  {
    hide ParseOutpoint;
  }

  lemma FirstOrNot(rows: seq<Joined>, n: nat)
    requires n < |rows|
    ensures FirstRow(rows, rows[n].id) <= n
    ensures rows[n].id !in FirstSeen(rows, n) ==> FirstRow(rows, rows[n].id) == n
  {
    SeenIs(rows, n, rows[n].id);
  }

  lemma {:induction false} NothingOfOthers(rows: seq<Joined>, id: string, n: nat)
    requires n <= |rows| && forall j :: 0 <= j < n ==> rows[j].id != id
    ensures InputsOf(rows, id, n) == [] && ForfeitsOf(rows, id, n) == map[]
  {
    hide ParseOutpoint;
    if n > 0 {
      NothingOfOthers(rows, id, n - 1);
    }
  }

  /** GetAll, from the joined rows of the page. */
  method GetAll(rows: seq<Joined>) returns (r: Result<seq<Task>>)
    ensures r.Ok? <==> AllParse(rows, |rows|)
    ensures r.Ok? ==>
      var ids := FirstSeen(rows, |rows|);
      && |r.value| == |ids|
      && forall k :: 0 <= k < |ids| ==>
           FirstRow(rows, ids[k]) < |rows| && r.value[k] == TaskOf(rows[FirstRow(rows, ids[k])], rows, |rows|)
  {
    hide ParseOutpoint, Grouped, TaskOf, FirstRow, InputsOf, ForfeitsOf;
    var taskMap: map<string, Task> := map[];
    var taskOrder: seq<string> := [];
    NothingGrouped(rows);
    var i := 0;
    while i < |rows|
      invariant 0 <= i <= |rows| && AllParse(rows, i)
      invariant taskOrder == FirstSeen(rows, i) && Grouped(rows, i, taskMap)
    {
      var row := rows[i];
      FirstOrNot(rows, i);
      GroupedIs(rows, i, taskMap, row.id);
      ghost var before := taskMap;
      var parsed := if row.outpoint.Some? then ParseOutpoint(row.outpoint.value) else None;
      if row.outpoint.Some? && parsed.None? {
        return Err("failed to parse outpoint");
      }
      if row.id !in taskMap {
        var inputs: seq<Outpoint> := [];
        var forfeitTxs: map<Outpoint, string> := map[];
        if row.outpoint.Some? {
          inputs := inputs + [parsed.value];
          if row.forfeitTx.Some? && row.forfeitTx.value != "" {
            forfeitTxs := forfeitTxs[parsed.value := row.forfeitTx.value];
          }
        }
        NewTaskIs(rows, i, inputs, forfeitTxs);
        var t := row.task;
        taskMap := taskMap[row.id := Task(row.id, Intent(t.message, t.proof, t.txid, inputs), forfeitTxs, t.fee,
                                          t.publicKey,
                                          t.scheduledAt * SECOND, t.status, t.failReason, t.commitmentTxid)];
        taskOrder := taskOrder + [row.id];
      } else {
        var task := taskMap[row.id];
        if row.outpoint.Some? {
          task := task.(intent := task.intent.(inputs := task.intent.inputs + [parsed.value]));
          if row.forfeitTx.Some? && row.forfeitTx.value != "" {
            task := task.(forfeitTxs := task.forfeitTxs[parsed.value := row.forfeitTx.value]);
          }
        }
        OldTaskIs(rows, i, FirstRow(rows, row.id), task);
        taskMap := taskMap[row.id := task];
      }
      GroupedStep(rows, i, before, taskMap);
      i := i + 1;
    }
    var tasks: seq<Task> := [];
    var k := 0;
    while k < |taskOrder|
      invariant 0 <= k == |tasks| <= |taskOrder|
      invariant forall j :: 0 <= j < k ==> taskOrder[j] in taskMap && tasks[j] == taskMap[taskOrder[j]]
    {
      GroupedIs(rows, |rows|, taskMap, taskOrder[k]);
      if taskOrder[k] in taskMap {
        tasks := tasks + [taskMap[taskOrder[k]]];
      }
      k := k + 1;
    }
    GroupedAll(rows, taskMap);
    r := Ok(tasks);
  }

  lemma NothingGrouped(rows: seq<Joined>)
    ensures Grouped(rows, 0, map[])
  {}

  lemma GroupedIs(rows: seq<Joined>, n: nat, taskMap: map<string, Task>, id: string)
    requires n <= |rows| && Grouped(rows, n, taskMap)
    ensures id in taskMap <==> id in FirstSeen(rows, n)
    ensures id in taskMap ==> FirstRow(rows, id) < n && taskMap[id] == TaskOf(rows[FirstRow(rows, id)], rows, n)
  {
    hide TaskOf, FirstRow, FirstSeen;
    assert GroupedId(rows, n, taskMap, id);
  }

  lemma GroupedAll(rows: seq<Joined>, taskMap: map<string, Task>)
    requires Grouped(rows, |rows|, taskMap)
    ensures forall id :: id in FirstSeen(rows, |rows|) ==>
      id in taskMap && FirstRow(rows, id) < |rows| && taskMap[id] == TaskOf(rows[FirstRow(rows, id)], rows, |rows|)
  {
    hide Grouped, TaskOf, FirstRow, FirstSeen;
    forall id | id in FirstSeen(rows, |rows|)
      ensures id in taskMap && FirstRow(rows, id) < |rows| &&
        taskMap[id] == TaskOf(rows[FirstRow(rows, id)], rows, |rows|)
    {
      GroupedIs(rows, |rows|, taskMap, id);
    }
  }

  lemma NewTaskIs(rows: seq<Joined>, i: nat, inputs: seq<Outpoint>, forfeitTxs: map<Outpoint, string>)
    requires i < |rows| && FirstRow(rows, rows[i].id) == i && AllParse(rows, i)
    requires rows[i].outpoint.Some? ==> ParseOutpoint(rows[i].outpoint.value).Some?
    requires inputs == if rows[i].outpoint.Some? then [ParseOutpoint(rows[i].outpoint.value).value] else []
    requires forfeitTxs == if rows[i].outpoint.Some? && rows[i].forfeitTx.Some? && rows[i].forfeitTx.value != ""
                           then map[ParseOutpoint(rows[i].outpoint.value).value := rows[i].forfeitTx.value] else map[]
    ensures var t := rows[i].task;
      TaskOf(rows[i], rows, i + 1)
      == Task(rows[i].id, Intent(t.message, t.proof, t.txid, inputs), forfeitTxs, t.fee, t.publicKey,
              t.scheduledAt * SECOND,
              t.status, t.failReason, t.commitmentTxid)
  {
    hide ParseOutpoint;
    NothingOfOthers(rows, rows[i].id, i);
  }

  lemma OldTaskIs(rows: seq<Joined>, i: nat, f: nat, task: Task)
    requires i < |rows| && f < |rows| && rows[f].id == rows[i].id
    requires rows[i].outpoint.Some? ==> ParseOutpoint(rows[i].outpoint.value).Some?
    requires var was, r := TaskOf(rows[f], rows, i), rows[i];
      task == if r.outpoint.None? then was
              else
                var o := ParseOutpoint(r.outpoint.value).value;
                was.(intent := was.intent.(inputs := was.intent.inputs + [o]),
                     forfeitTxs := if r.forfeitTx.Some? &&
                         r.forfeitTx.value != "" then was.forfeitTxs[o := r.forfeitTx.value] else was.forfeitTxs)
    ensures task == TaskOf(rows[f], rows, i + 1)
  {
    hide ParseOutpoint;
  }

  /** The number of the first n rows that carry an outpoint, and of the inputs that the grouped tasks have. */
  function OutpointRows(rows: seq<Joined>, n: nat): nat
    requires n <= |rows|
  {
    if n == 0 then 0 else OutpointRows(rows, n - 1) + if rows[n - 1].outpoint.Some? then 1 else 0
  }

  function InputsOfAll(rows: seq<Joined>, ids: seq<string>, n: nat): nat
    requires n <= |rows|
  {
    if ids == [] then 0 else InputsOfAll(rows, ids[..|ids| - 1], n) + |InputsOf(rows, ids[|ids| - 1], n)|
  }

  predicate Distinct(ids: seq<string>) {
    forall i, j :: 0 <= i < j < |ids| ==> ids[i] != ids[j]
  }

  lemma {:induction false} OneMoreRow(rows: seq<Joined>, ids: seq<string>, n: nat)
    requires n < |rows| && AllParse(rows, n + 1) && Distinct(ids)
    ensures InputsOfAll(rows, ids, n + 1)
         == InputsOfAll(rows, ids, n) + if rows[n].id in ids && rows[n].outpoint.Some? then 1 else 0
  {
    hide ParseOutpoint;
    if ids != [] {
      var front, last := ids[..|ids| - 1], ids[|ids| - 1];
      OneMoreRow(rows, front, n);
      assert ids == front + [last];
      assert rows[n].id in ids <==> rows[n].id in front || rows[n].id == last;
    }
  }

  lemma {:induction false} SeenDistinct(rows: seq<Joined>, n: nat)
    requires n <= |rows|
    ensures Distinct(FirstSeen(rows, n))
  {
    if n > 0 {
      SeenDistinct(rows, n - 1);
    }
  }

  /** Every outpoint row lands in exactly one task: the tasks together have as many inputs as there are such rows. */
  lemma {:induction false} EachOutpointOnce(rows: seq<Joined>, n: nat)
    requires n <= |rows| && AllParse(rows, n)
    ensures InputsOfAll(rows, FirstSeen(rows, n), n) == OutpointRows(rows, n)
  {
    hide ParseOutpoint, InputsOf, InputsOfAll, FirstSeen, Distinct;
    SeenStep(rows, n);
    if n > 0 {
      EachOutpointOnce(rows, n - 1);
      SeenDistinct(rows, n - 1);
      OneMoreRow(rows, FirstSeen(rows, n - 1), n - 1);
      if rows[n - 1].id !in FirstSeen(rows, n - 1) {
        NewIdCounts(rows, FirstSeen(rows, n - 1), n - 1);
      }
    } else {
      NoIds(rows);
    }
  }

  lemma SeenStep(rows: seq<Joined>, n: nat)
    requires n <= |rows|
    ensures FirstSeen(rows, n)
         == if n == 0 then []
            else if rows[n - 1].id in FirstSeen(rows, n - 1) then FirstSeen(rows, n - 1)
            else FirstSeen(rows, n - 1) + [rows[n - 1].id]
  {}

  lemma NoIds(rows: seq<Joined>)
    ensures InputsOfAll(rows, [], 0) == 0
  {}

  lemma NewIdCounts(rows: seq<Joined>, ids: seq<string>, n: nat)
    requires n < |rows| && AllParse(rows, n + 1) && ids == FirstSeen(rows, n) && rows[n].id !in ids
    ensures InputsOfAll(rows, ids + [rows[n].id], n + 1)
         == InputsOfAll(rows, ids, n + 1) + if rows[n].outpoint.Some? then 1 else 0
  {
    hide ParseOutpoint, FirstSeen;
    SeenIs(rows, n, rows[n].id);
    NothingOfOthers(rows, rows[n].id, n);
    assert (ids + [rows[n].id])[..|ids|] == ids;
  }

  // ---- Pages ----

  lemma {:induction false} InputsOfConcat(a: seq<Joined>, b: seq<Joined>, id: string, n: nat)
    requires n <= |b|
    ensures InputsOf(a + b, id, |a| + n) == InputsOf(a, id, |a|) + InputsOf(b, id, n)
  {
    hide ParseOutpoint;
    if n == 0 {
      InputsOfPrefix(a, b, id, |a|);
    } else {
      InputsOfConcat(a, b, id, n - 1);
      assert (a + b)[|a| + n - 1] == b[n - 1];
    }
  }

  lemma {:induction false} InputsOfPrefix(a: seq<Joined>, b: seq<Joined>, id: string, n: nat)
    requires n <= |a|
    ensures InputsOf(a + b, id, n) == InputsOf(a, id, n)
  {
    hide ParseOutpoint;
    if n > 0 {
      InputsOfPrefix(a, b, id, n - 1);
    }
  }

  lemma {:induction false} SomeInputs(rows: seq<Joined>, id: string, n: nat)
    requires n <= |rows| && AllParse(rows, n)
    ensures InputsOf(rows, id, n) == [] <==> forall j :: 0 <= j < n ==> rows[j].id != id || rows[j].outpoint.None?
  {
    hide ParseOutpoint;
    if n > 0 {
      SomeInputs(rows, id, n - 1);
    }
  }

  /** The joined rows that LIMIT and OFFSET select. */
  function Page(rows: seq<Joined>, offset: nat, limit: nat): seq<Joined> {
    rows[Clip(rows, offset)..Clip(rows, offset + limit)]
  }

  function Clip(rows: seq<Joined>, n: nat): (r: nat)
    ensures r <= |rows|
  {
    if n <= |rows| then n else |rows|
  }

  /**
   * LIMIT and OFFSET count joined rows, not tasks. A task keeps all of its inputs exactly when each of its outpoint
   * rows stands at a place of the page.
   */
  lemma PageKeepsInputs(rows: seq<Joined>, offset: nat, limit: nat, id: string)
    requires AllParse(rows, |rows|)
    ensures var page := Page(rows, offset, limit);
      InputsOf(page, id, |page|) == InputsOf(rows, id, |rows|) <==>
        forall k :: 0 <= k < |rows| && rows[k].id == id && rows[k].outpoint.Some? ==> offset <= k < offset + limit
  {
    hide InputsOf, AllParse;
    var lo, hi := Clip(rows, offset), Clip(rows, offset + limit);
    assert rows == rows[..lo] + rows[lo..hi] + rows[hi..];
    PartsParse(rows, lo);
    PartsParse(rows, hi);
    MiddleKeepsInputs(rows[..lo], rows[lo..hi], rows[hi..], id);
    PagePlaces(rows, offset, limit, id);
  }

  lemma PartsParse(rows: seq<Joined>, n: nat)
    requires n <= |rows| && AllParse(rows, |rows|)
    ensures AllParse(rows[..n], n) && AllParse(rows[n..], |rows| - n)
  {
    hide ParseOutpoint;
  }

  /** None of the rows carries an input of the task. */
  predicate NoInputs(rows: seq<Joined>, id: string) {
    forall j :: 0 <= j < |rows| ==> rows[j].id != id || rows[j].outpoint.None?
  }

  lemma MiddleKeepsInputs(before: seq<Joined>, page: seq<Joined>, after: seq<Joined>, id: string)
    requires AllParse(before, |before|) && AllParse(after, |after|)
    ensures var rows := before + page + after;
      InputsOf(page, id, |page|) == InputsOf(rows, id, |rows|) <==> NoInputs(before, id) && NoInputs(after, id)
  {
    hide ParseOutpoint, InputsOf;
    InputsOfConcat(before, page, id, |page|);
    InputsOfConcat(before + page, after, id, |after|);
    SomeInputs(before, id, |before|);
    SomeInputs(after, id, |after|);
    MiddleIsAll(InputsOf(before, id, |before|), InputsOf(page, id, |page|), InputsOf(after, id, |after|));
  }

  lemma PagePlaces(rows: seq<Joined>, offset: nat, limit: nat, id: string)
    ensures NoInputs(rows[..Clip(rows, offset)], id) && NoInputs(rows[Clip(rows, offset + limit)..], id) <==>
      forall k :: 0 <= k < |rows| && rows[k].id == id && rows[k].outpoint.Some? ==> offset <= k < offset + limit
  {
    var hi := Clip(rows, offset + limit);
    if NoInputs(rows[hi..], id) {
      forall k | hi <= k < |rows| ensures rows[k].id != id || rows[k].outpoint.None? {
        assert rows[hi..][k - hi] == rows[k];
      }
    }
  }

  lemma MiddleIsAll(x: seq<Outpoint>, y: seq<Outpoint>, z: seq<Outpoint>)
    ensures y == x + y + z <==> x == [] && z == []
  {}

  /** A page of one row cuts a task with two inputs in half. */
  lemma PageCanSplitTask(id: string, t: TaskRow, a: Outpoint, b: Outpoint)
    requires ValidOutpoint(a) && ValidOutpoint(b) && a != b
    ensures var rows := [Joined(id, t, Some(Key(a)), None), Joined(id, t, Some(Key(b)), None)];
      InputsOf(rows[..1], id, 1) == [a] && InputsOf(rows, id, 2) == [a, b]
  {
    hide Key, ParseOutpoint, ValidOutpoint;
    OutpointParses(a);
    OutpointParses(b);
    var rows := [Joined(id, t, Some(Key(a)), None), Joined(id, t, Some(Key(b)), None)];
    assert InputsOf(rows, id, 0) == [];
    assert InputsOf(rows, id, 1) == [a];
    assert InputsOf(rows[..1], id, 0) == [];
  }
}
