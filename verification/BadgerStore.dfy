/** The badger task store: its records, and its operations as operations on one abstract map of tasks. */
module BadgerStore {
  import opened Results
  import opened Tasks
  import opened OutpointText

  /** A stored record; the JSON columns are taken as the values they encode. scheduledAt counts seconds. */
  datatype Record = Record(id: string, message: string, proof: string, txid: string, inputs: seq<Outpoint>,
                           forfeitTxs: map<string, string>, fee: nat, delegatePublicKey: string, scheduledAt: int,
                           status: Status, failReason: string, commitmentTxid: string)

  /** Outpoints come from decoded transactions. */
  predicate Storable(t: Task) {
    && (forall i :: 0 <= i < |t.intent.inputs| ==> ValidOutpoint(t.intent.inputs[i]))
    && (forall o :: o in t.forfeitTxs ==> ValidOutpoint(o))
  }

  /** toDelegateTaskData */
  function ToRecord(t: Task): Record
    requires Storable(t)
  {
    Record(t.id, t.intent.message, t.intent.proof, t.intent.txid, t.intent.inputs, KeyedForfeits(t.forfeitTxs), t.fee,
           t.delegatePublicKey, t.scheduledAt / SECOND, t.status, t.failReason, t.commitmentTxid)
  }

  function KeyedForfeits(m: map<Outpoint, string>): map<string, string>
    requires forall o :: o in m ==> ValidOutpoint(o)
  {
    assert forall a, b :: a in m && b in m && Key(a) == Key(b) ==> a == b by {
      forall a, b | a in m && b in m && Key(a) == Key(b) ensures a == b { KeysDistinct(a, b); }
    }
    map o | o in m :: Key(o) := m[o]
  }

  /** What the record's columns must be for it to be read. */
  predicate Readable(d: Record) {
    && (forall i :: 0 <= i < |d.inputs| ==> ParseHash(d.inputs[i].hash).Some?)
    && (forall k :: k in d.forfeitTxs ==> ParseKey(k).Some?)
  }

  /** The task that a record was made from, as far as the record keeps it. */
  function Kept(t: Task): Task {
    t.(scheduledAt := t.scheduledAt / SECOND * SECOND)
  }

  /** Only the schedule can differ, by less than a second. */
  lemma KeptIs(t: Task)
    ensures Kept(t).(scheduledAt := t.scheduledAt) == t
    ensures Kept(t).scheduledAt % 1_000_000_000 == 0 && Kept(t).scheduledAt <= t.scheduledAt
    ensures t.scheduledAt - Kept(t).scheduledAt < 1_000_000_000
  {}

  /** t is what toDelegateTask makes of the record. */
  ghost predicate ReadsAs(d: Record, t: Task) {
    && Readable(d)
    && t.id == d.id && t.intent.message == d.message && t.intent.proof == d.proof && t.intent.txid == d.txid
    && |t.intent.inputs| == |d.inputs|
    && (forall i :: 0 <= i < |d.inputs| ==>
        t.intent.inputs[i] == Outpoint(ParseHash(d.inputs[i].hash).value, d.inputs[i].index))
    && (forall k :: k in d.forfeitTxs ==> ParseKey(k).value in t.forfeitTxs)
    && (forall o :: o in t.forfeitTxs ==>
        exists k :: k in d.forfeitTxs && ParseKey(k) == Some(o) && t.forfeitTxs[o] == d.forfeitTxs[k])
    && t.fee == d.fee && t.delegatePublicKey == d.delegatePublicKey && t.scheduledAt == d.scheduledAt * SECOND
    && t.status == d.status && t.failReason == d.failReason && t.commitmentTxid == d.commitmentTxid
  }

  /** toDelegateTask */
  method ToTask(d: Record) returns (r: Result<Task>)
    ensures r.Ok? <==> Readable(d)
    ensures r.Ok? ==> ReadsAs(d, r.value)
  {
    hide ParseHash;
    var inputs: seq<Outpoint> := [];
    var i := 0;
    while i < |d.inputs|
      invariant 0 <= i == |inputs| <= |d.inputs|
      invariant forall j :: 0 <= j < i ==> ParseHash(d.inputs[j].hash).Some?
      invariant forall j :: 0 <= j < i ==> inputs[j] == Outpoint(ParseHash(d.inputs[j].hash).value, d.inputs[j].index)
    {
      var hash := ParseHash(d.inputs[i].hash);
      if hash.None? {
        return Err("failed to parse hash for input");
      }
      inputs := inputs + [Outpoint(hash.value, d.inputs[i].index)];
      i := i + 1;
    }
    var forfeitTxs := ToForfeits(d.forfeitTxs);
    if forfeitTxs.Err? {
      return Err(forfeitTxs.error);
    }
    r := Ok(Task(d.id, Intent(d.message, d.proof, d.txid, inputs), forfeitTxs.value, d.fee, d.delegatePublicKey,
                 d.scheduledAt * SECOND, d.status, d.failReason, d.commitmentTxid));
  }

  /** The stored forfeits, in whatever order the map yields them. */
  method ToForfeits(stored: map<string, string>) returns (r: Result<map<Outpoint, string>>)
    ensures r.Ok? <==> forall k :: k in stored ==> ParseKey(k).Some?
    ensures r.Ok? ==>
      && (forall k :: k in stored ==> ParseKey(k).value in r.value)
      && (forall o :: o in r.value ==> exists k :: k in stored && ParseKey(k) == Some(o) && r.value[o] == stored[k])
  {
    var m: map<Outpoint, string> := map[];
    var keys := stored.Keys;
    while keys != {}
      invariant keys <= stored.Keys
      invariant forall k :: k in stored && k !in keys ==> ParseKey(k).Some? && ParseKey(k).value in m
      invariant forall o :: o in m ==> exists k :: k in stored && ParseKey(k) == Some(o) && m[o] == stored[k]
      decreases |keys|
    {
      var key :| key in keys;
      keys := keys - {key};
      var o := ReadKey(key);
      if o.None? {
        return Err("failed to parse forfeit tx key");
      }
      m := m[o.value := stored[key]];
    }
    r := Ok(m);
  }

  method ReadKey(key: string) returns (o: Option<Outpoint>)
    ensures o == ParseKey(key)
  {
    var lastColonIdx := FindLastColon(key);
    if lastColonIdx == -1 {
      return None;
    }
    var hashStr := key[..lastColonIdx];
    var index := ScanUint32(key[lastColonIdx + 1..]);
    if index.None? {
      return None;
    }
    var hash := ParseHash(hashStr);
    if hash.None? {
      return None;
    }
    o := Some(Outpoint(hash.value, index.value));
  }

  // ---- Reading undoes writing ----

  lemma InputsReadBack(t: Task, i: nat)
    requires Storable(t) && i < |t.intent.inputs|
    ensures ParseHash(t.intent.inputs[i].hash) == Some(t.intent.inputs[i].hash)
  {
    HashParses(t.intent.inputs[i]);
  }

  lemma StoredKeys(m: map<Outpoint, string>, k: string)
    requires (forall o :: o in m ==> ValidOutpoint(o)) && k in KeyedForfeits(m)
    ensures ParseKey(k).Some? && ParseKey(k).value in m && m[ParseKey(k).value] == KeyedForfeits(m)[k]
  {
    hide ParseKey;
    var o :| o in m && Key(o) == k && KeyedForfeits(m)[k] == m[o];
    KeyParses(o);
  }

  lemma RecordReadable(t: Task)
    requires Storable(t)
    ensures Readable(ToRecord(t))
  {
    hide ParseHash, ParseKey, KeyedForfeits;
    var d := ToRecord(t);
    forall i | 0 <= i < |d.inputs| ensures ParseHash(d.inputs[i].hash).Some? { InputsReadBack(t, i); }
    forall k | k in d.forfeitTxs ensures ParseKey(k).Some? { StoredKeys(t.forfeitTxs, k); }
  }

  /** A task is read back from its record, except that its schedule is cut to whole seconds. */
  lemma RecordRoundTrip(t: Task, r: Task)
    requires Storable(t) && ReadsAs(ToRecord(t), r)
    ensures r == Kept(t)
  {
    hide ParseHash, ParseKey, KeyedForfeits, ValidOutpoint;
    var d := ToRecord(t);
    forall i | 0 <= i < |d.inputs| ensures r.intent.inputs[i] == t.intent.inputs[i] { InputsReadBack(t, i); }
    ForfeitsReadBack(t.forfeitTxs, r.forfeitTxs);
    assert r.intent.inputs == t.intent.inputs;
  }

  lemma KeyStored(m: map<Outpoint, string>, o: Outpoint)
    requires (forall x :: x in m ==> ValidOutpoint(x)) && o in m
    ensures Key(o) in KeyedForfeits(m) && ParseKey(Key(o)) == Some(o)
  {
    hide ParseKey;
    KeyParses(o);
  }

  lemma ForfeitsReadBack(m: map<Outpoint, string>, r: map<Outpoint, string>)
    requires forall o :: o in m ==> ValidOutpoint(o)
    requires forall k :: k in KeyedForfeits(m) ==> ParseKey(k).Some? && ParseKey(k).value in r
    requires forall o :: o in r ==>
      exists k :: k in KeyedForfeits(m) && ParseKey(k) == Some(o) && r[o] == KeyedForfeits(m)[k]
    ensures r == m
  {
    hide ParseKey, KeyedForfeits, Key, ValidOutpoint;
    forall o | o in r ensures o in m && r[o] == m[o] {
      var k :| k in KeyedForfeits(m) && ParseKey(k) == Some(o) && r[o] == KeyedForfeits(m)[k];
      StoredKeys(m, k);
    }
    forall o | o in m ensures o in r {
      KeyStored(m, o);
    }
  }

  // ---- The store ----

  /** The records of tasks. */
  ghost predicate Holds(data: map<string, Record>, repo: Repo) {
    && data.Keys == repo.Keys
    && forall id :: id in repo ==> RecordOf(data[id], id, repo[id])
  }

  ghost predicate RecordOf(d: Record, id: string, t: Task) {
    t.id == id && Storable(t) && Kept(t) == t && d == ToRecord(t)
  }

  class Repository {
    var data: map<string, Record>
    /** The tasks that the records stand for. */
    ghost var tasks: Repo

    ghost predicate Valid()
      reads this
    {
      Holds(data, tasks)
    }

    constructor ()
      ensures Valid() && tasks == map[]
    {
      data, tasks := map[], map[];
    }

    /** Add fails for an id that is taken; otherwise the task is stored with its schedule cut to seconds. */
    method Add(task: Task) returns (err: bool)
      requires Valid() && Storable(task)
      modifies this
      ensures Valid() && (err <==> task.id in old(tasks))
      ensures tasks == if err then old(tasks) else old(tasks)[task.id := Kept(task)]
    {
      hide ToRecord, Storable;
      if task.id in data {
        return true;
      }
      KeptIsKept(task);
      data := data[task.id := ToRecord(task)];
      tasks := tasks[task.id := Kept(task)];
      err := false;
    }

    method GetByID(id: string) returns (r: Result<Task>)
      requires Valid()
      ensures r.Ok? <==> id in tasks
      ensures r.Ok? ==> r.value == tasks[id]
    {
      hide ToRecord, Storable, Readable, ReadsAs;
      if id !in data {
        return Err("delegate task not found");
      }
      RecordReadable(tasks[id]);
      r := ToTask(data[id]);
      RecordRoundTrip(tasks[id], r.value);
    }

    /** One task is settled when it is stored and pending; the update may fail. */
    method SettleOne(id: string, outcome: Outcome, fails: bool) returns (err: bool)
      requires Valid()
      modifies this
      ensures Valid() && (err <==> fails && IsPending(old(tasks), id))
      ensures tasks == if err then old(tasks) else Settle(old(tasks), {id}, outcome)
    {
      hide ToRecord, Storable;
      var task := GetByID(id);
      if task.Err? {
        NothingToSettle(tasks, id, outcome);
        return false;
      }
      if task.value.status != Pending {
        NothingToSettle(tasks, id, outcome);
        return false;
      }
      if fails {
        return true;
      }
      SettledStorable(task.value, outcome);
      data := data[id := ToRecord(SettledTask(task.value, outcome))];
      OneSettled(tasks, id, outcome);
      tasks := tasks[id := SettledTask(task.value, outcome)];
      err := false;
    }

    /** CancelTasks, CompleteTasks and FailTasks: one task after the other; a failing update ends the loop. */
    method SettleTasks(ids: seq<string>, outcome: Outcome, faults: set<string>) returns (err: bool)
      requires Valid()
      modifies this
      ensures Valid()
      ensures tasks == Settle(old(tasks), FirstIds(ids, FirstFault(old(tasks), ids, faults)), outcome)
      ensures err <==> FirstFault(old(tasks), ids, faults) < |ids|
    {
      hide Holds, Settle;
      var i := 0;
      NoneSettled(tasks, outcome);
      assert FirstIds(ids, 0) == {};
      while i < |ids|
        invariant 0 <= i <= FirstFault(old(tasks), ids, faults)
        invariant Valid() && tasks == Settle(old(tasks), FirstIds(ids, i), outcome)
      {
        FaultReached(old(tasks), ids, faults, outcome, i);
        err := SettleOne(ids[i], outcome, ids[i] in faults);
        if err {
          return;
        }
        SettledInTurn(old(tasks), ids, i, outcome);
        i := i + 1;
      }
      err := false;
    }

    /** GetPendingTaskIDsByInputs, in the order the store yields the records. */
    method GetPendingTaskIDsByInputs(inputs: seq<Outpoint>) returns (ids: set<string>)
      requires Valid() && forall i :: 0 <= i < |inputs| ==> ValidOutpoint(inputs[i])
      ensures ids == PendingByInputs(tasks, inputs)
    {
      hide ToRecord, Storable, Key, ValidOutpoint;
      ids := {};
      var inputSet := set i | 0 <= i < |inputs| :: Key(inputs[i]);
      var left := data.Keys;
      while left != {}
        invariant left <= data.Keys
        invariant forall id :: id in ids <==> id in data.Keys - left && id in PendingByInputs(tasks, inputs)
        decreases |left|
      {
        var id :| id in left;
        left := left - {id};
        var d := data[id];
        assert RecordOf(d, id, tasks[id]);
        RecordColumns(tasks[id]);
        if d.status == Pending {
          var overlap := HasOverlap(d.inputs, inputSet);
          OverlapByKeys(tasks[id].intent.inputs, inputs, inputSet);
          if overlap {
            ids := ids + {id};
          }
        }
      }
    }

    /** GetAll, from the ids of the tasks with a status in the order of their schedules: a page of whole tasks. */
    method GetAll(status: Status, sorted: seq<string>, limit: nat, offset: nat) returns (r: Result<seq<Task>>)
      requires Valid() && IsListing(tasks, status, sorted)
      ensures r.Ok? && |r.value| == if offset >= |sorted| then 0 else if limit < |sorted| - offset then limit
        else |sorted| - offset
      ensures forall k :: 0 <= k < |r.value| ==> sorted[offset + k] in tasks && r.value[k] == tasks[sorted[offset + k]]
    {
      hide ToRecord, Storable, Readable, ReadsAs;
      var start := offset;
      if start > |sorted| {
        start := |sorted|;
      }
      var end := start + limit;
      if end > |sorted| {
        end := |sorted|;
      }
      if start >= end {
        return Ok([]);
      }
      var page: seq<Task> := [];
      for i := start to end
        invariant |page| == i - start
        invariant forall k :: 0 <= k < |page| ==> page[k] == tasks[sorted[start + k]]
      {
        var task := GetByID(sorted[i]);
        if task.Err? {
          assert false;
        }
        page := page + [task.value];
      }
      r := Ok(page);
    }
  }

  /** The tasks with a status, each once, the latest schedule first. */
  ghost predicate IsListing(repo: Repo, status: Status, ids: seq<string>) {
    && (forall id :: id in ids <==> id in repo && repo[id].status == status)
    && (forall i, j :: 0 <= i < j < |ids| ==>
        ids[i] != ids[j] && repo[ids[i]].scheduledAt / SECOND >= repo[ids[j]].scheduledAt / SECOND)
  }

  /** The place of the first pending task whose update fails, or the number of ids. */
  ghost function FirstFault(repo: Repo, ids: seq<string>, faults: set<string>): (n: nat)
    ensures n <= |ids| && (n < |ids| ==> ids[n] in faults && IsPending(repo, ids[n]))
    ensures forall k :: 0 <= k < n ==> !(ids[k] in faults && IsPending(repo, ids[k]))
  {
    if ids == [] || (ids[0] in faults && IsPending(repo, ids[0])) then 0
    else
      var n := 1 + FirstFault(repo, ids[1..], faults);
      assert forall k :: 0 < k < n ==> ids[k] == ids[1..][k - 1];
      n
  }

  /** Up to the first fault, an update fails exactly there. */
  lemma FaultReached(repo: Repo, ids: seq<string>, faults: set<string>, outcome: Outcome, i: nat)
    requires i < |ids| && i <= FirstFault(repo, ids, faults)
    ensures ids[i] in faults && IsPending(Settle(repo, FirstIds(ids, i), outcome), ids[i]) <==>
      i == FirstFault(repo, ids, faults)
  {
    if i == FirstFault(repo, ids, faults) {
      assert ids[i] !in FirstIds(ids, i);
    }
  }

  method HasOverlap(inputs: seq<Outpoint>, inputSet: set<string>) returns (hasOverlap: bool)
    ensures hasOverlap <==> exists i :: 0 <= i < |inputs| && Key(inputs[i]) in inputSet
  {
    hide Key;
    hasOverlap := false;
    var i := 0;
    while i < |inputs|
      invariant 0 <= i <= |inputs| && forall j :: 0 <= j < i ==> Key(inputs[j]) !in inputSet
    {
      if Key(inputs[i]) in inputSet {
        return true;
      }
      i := i + 1;
    }
  }

  lemma KeptIsKept(t: Task)
    requires Storable(t)
    ensures Storable(Kept(t)) && Kept(Kept(t)) == Kept(t) && ToRecord(Kept(t)) == ToRecord(t)
  {
    hide KeyedForfeits;
    WholeSeconds(t.scheduledAt);
  }

  lemma WholeSeconds(n: int)
    ensures n / SECOND * SECOND / SECOND == n / SECOND
  {}

  lemma RecordColumns(t: Task)
    requires Storable(t)
    ensures ToRecord(t).status == t.status && ToRecord(t).inputs == t.intent.inputs
    ensures forall i :: 0 <= i < |t.intent.inputs| ==> ValidOutpoint(t.intent.inputs[i])
  {}

  lemma SettledStorable(t: Task, outcome: Outcome)
    requires Storable(t) && Kept(t) == t
    ensures Storable(SettledTask(t, outcome)) && Kept(SettledTask(t, outcome)) == SettledTask(t, outcome)
    ensures SettledTask(t, outcome).id == t.id
  {}

  lemma NothingToSettle(repo: Repo, id: string, outcome: Outcome)
    requires !IsPending(repo, id)
    ensures Settle(repo, {id}, outcome) == repo
  {}

  lemma OneSettled(repo: Repo, id: string, outcome: Outcome)
    requires IsPending(repo, id)
    ensures Settle(repo, {id}, outcome) == repo[id := SettledTask(repo[id], outcome)]
  {}

  function FirstIds(ids: seq<string>, n: nat): set<string>
    requires n <= |ids|
  {
    set i | 0 <= i < n :: ids[i]
  }

  lemma NoneSettled(repo: Repo, outcome: Outcome)
    ensures Settle(repo, {}, outcome) == repo
  {}

  lemma SettledInTurn(repo: Repo, ids: seq<string>, i: nat, outcome: Outcome)
    requires i < |ids|
    ensures Settle(Settle(repo, FirstIds(ids, i), outcome), {ids[i]}, outcome) == Settle(repo, FirstIds(ids, i + 1),
      outcome)
  {
    assert FirstIds(ids, i + 1) == FirstIds(ids, i) + {ids[i]};
    SettledTwice(repo, FirstIds(ids, i), {ids[i]}, outcome);
  }

  lemma SettledTwice(repo: Repo, a: set<string>, b: set<string>, outcome: Outcome)
    ensures Settle(Settle(repo, a, outcome), b, outcome) == Settle(repo, a + b, outcome)
  {}

  /** Comparing keys compares outpoints. */
  lemma OverlapByKeys(a: seq<Outpoint>, b: seq<Outpoint>, keys: set<string>)
    requires (forall i :: 0 <= i < |a| ==> ValidOutpoint(a[i])) && (forall i :: 0 <= i < |b| ==> ValidOutpoint(b[i]))
    requires keys == set i | 0 <= i < |b| :: Key(b[i])
    ensures (exists i :: 0 <= i < |a| && Key(a[i]) in keys) <==> Overlap(a, b)
  {
    hide Key, ValidOutpoint;
    if i :| 0 <= i < |a| && Key(a[i]) in keys {
      var j :| 0 <= j < |b| && Key(b[j]) == Key(a[i]);
      KeysDistinct(a[i], b[j]);
      assert a[i] in a && a[i] in b;
    }
    if Overlap(a, b) {
      var x :| x in a && x in b;
      var i :| 0 <= i < |a| && a[i] == x;
      var j :| 0 <= j < |b| && b[j] == x;
      assert Key(b[j]) in keys;
    }
  }
}
