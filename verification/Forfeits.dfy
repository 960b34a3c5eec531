/** Forfeit transactions: what is accepted with a task, and what is submitted for a batch. */
module Forfeits {
  import opened Results
  import opened Tasks

  datatype TxOut = TxOut(script: string, value: int)

  /**
   * A psbt input: the value of its witness utxo, and the numbers of tapscript signatures and leaf scripts it carries.
   */
  datatype PInput = PInput(utxo: Option<int>, spendSigs: nat, leafScripts: nat)

  /** A partially signed transaction: the outpoints it spends, its outputs, and its psbt inputs. */
  datatype Psbt = Psbt(txIns: seq<Outpoint>, txOuts: seq<TxOut>, inputs: seq<PInput>)

  datatype Config = Config(forfeitScript: string, dust: int)

  const ANCHOR_PKSCRIPT: string := "51024e73"

  datatype Vtxo = Vtxo(outpoint: Outpoint, recoverable: bool, parses: bool)

  /** A leaf of the connector tree: its transaction id and outputs. */
  datatype Leaf = Leaf(txid: string, outs: seq<TxOut>)

  /**
   * What the code calls: the encoding of psbts and its inverse, the checks of leaf script and signature, the indexer,
   * which may fail, and signing and encoding of a completed forfeit, which may fail.
   */
  datatype World = World(encode: Psbt -> string, parse: string -> Option<Psbt>, authentic: Psbt -> bool,
                         vtxosOf: seq<Outpoint> -> Option<seq<Vtxo>>, signs: Psbt -> bool)

  /** Encoded psbts are read back. */
  ghost predicate ReadsBack(w: World) {
    forall p :: w.parse(w.encode(p)) == Some(p)
  }

  // ---- Acceptance ----

  /** One forfeit as validateForfeits accepts it. */
  predicate Acceptable(w: World, cfg: Config, p: Psbt) {
    && |p.txOuts| == 2 && |p.txIns| == 1 && |p.inputs| == 1
    && p.txOuts[0].script == cfg.forfeitScript && p.txOuts[1].script == ANCHOR_PKSCRIPT
    && p.inputs[0].utxo.Some? && p.inputs[0].spendSigs == 1 && p.inputs[0].leafScripts == 1
    && cfg.dust + p.inputs[0].utxo.value == p.txOuts[0].value
    && w.authentic(p)
  }

  method ValidateForfeits(w: World, cfg: Config, forfeits: seq<Psbt>) returns (ok: bool)
    ensures ok <==> forall p :: p in forfeits ==> Acceptable(w, cfg, p)
  {
    var i := 0;
    while i < |forfeits|
      invariant 0 <= i <= |forfeits| && forall j :: 0 <= j < i ==> Acceptable(w, cfg, forfeits[j])
    {
      var forfeit := forfeits[i];
      assert forfeit in forfeits;
      if |forfeit.txOuts| != 2 { return false; }
      if |forfeit.txIns| != 1 || |forfeit.inputs| != 1 { return false; }
      if forfeit.txOuts[0].script != cfg.forfeitScript { return false; }
      if forfeit.txOuts[1].script != ANCHOR_PKSCRIPT { return false; }
      var total := 0;
      if forfeit.inputs[0].utxo.None? { return false; }
      if forfeit.inputs[0].spendSigs != 1 { return false; }
      if forfeit.inputs[0].leafScripts != 1 { return false; }
      total := total + forfeit.inputs[0].utxo.value;
      if cfg.dust + total != forfeit.txOuts[0].value { return false; }
      if !w.authentic(forfeit) { return false; }
      i := i + 1;
    }
    ok := true;
  }

  /** Each stored forfeit is the encoding of an accepted one that spends the outpoint it is stored under. */
  ghost predicate StoredOk(w: World, cfg: Config, stored: map<Outpoint, string>) {
    forall x :: x in stored ==> exists p :: Acceptable(w, cfg, p) && p.txIns[0] == x && stored[x] == w.encode(p)
  }

  /** No later one of the first n forfeits spends the outpoint of the i-th. */
  predicate IsLast(forfeits: seq<Psbt>, n: nat, i: nat)
    requires i < n <= |forfeits| && forall p :: p in forfeits ==> |p.txIns| == 1
  {
    forall j :: i < j < n ==> forfeits[j].txIns[0] != forfeits[i].txIns[0]
  }

  /** Of the forfeits that spend one outpoint the last is kept. */
  ghost predicate LastKept(w: World, forfeits: seq<Psbt>, n: nat, indexed: map<Outpoint, string>)
    requires n <= |forfeits| && forall p :: p in forfeits ==> |p.txIns| == 1
  {
    forall i :: 0 <= i < n && IsLast(forfeits, n, i) ==>
        forfeits[i].txIns[0] in indexed && indexed[forfeits[i].txIns[0]] == w.encode(forfeits[i])
  }

  lemma LastKeptNext(w: World, forfeits: seq<Psbt>, n: nat, indexed: map<Outpoint, string>)
    requires n < |forfeits| && (forall p :: p in forfeits ==> |p.txIns| == 1) && LastKept(w, forfeits, n, indexed)
    ensures LastKept(w, forfeits, n + 1, indexed[forfeits[n].txIns[0] := w.encode(forfeits[n])])
  {
    forall i | 0 <= i < n && IsLast(forfeits, n + 1, i)
      ensures IsLast(forfeits, n, i) && forfeits[n].txIns[0] != forfeits[i].txIns[0]
    {}
  }

  /** Accepted forfeits, encoded, by the outpoint they spend. */
  method IndexForfeits(w: World, cfg: Config, forfeits: seq<Psbt>) returns (indexed: map<Outpoint, string>)
    requires forall p :: p in forfeits ==> Acceptable(w, cfg, p)
    ensures StoredOk(w, cfg, indexed)
    ensures forall p :: p in forfeits ==> |p.txIns| == 1 && p.txIns[0] in indexed
    ensures forall x :: x in indexed ==> exists p :: p in forfeits && p.txIns == [x]
    ensures LastKept(w, forfeits, |forfeits|, indexed)
  {
    hide LastKept;
    indexed := map[];
    NoneKept(w, cfg, forfeits);
    var i := 0;
    while i < |forfeits|
      invariant 0 <= i <= |forfeits| && StoredOk(w, cfg, indexed)
      invariant forall j :: 0 <= j < i ==> |forfeits[j].txIns| == 1 && forfeits[j].txIns[0] in indexed
      invariant forall x :: x in indexed ==> exists p :: p in forfeits && p.txIns == [x]
      invariant (forall p :: p in forfeits ==> |p.txIns| == 1) && LastKept(w, forfeits, i, indexed)
    {
      var forfeit := forfeits[i];
      StoredOneMore(w, cfg, indexed, forfeit);
      OneOutpoint(w, cfg, forfeit);
      LastKeptNext(w, forfeits, i, indexed);
      indexed := indexed[forfeit.txIns[0] := w.encode(forfeit)];
      i := i + 1;
    }
  }

  lemma NoneKept(w: World, cfg: Config, forfeits: seq<Psbt>)
    requires forall p :: p in forfeits ==> Acceptable(w, cfg, p)
    ensures (forall p :: p in forfeits ==> |p.txIns| == 1) && LastKept(w, forfeits, 0, map[])
  {}

  lemma StoredOneMore(w: World, cfg: Config, stored: map<Outpoint, string>, p: Psbt)
    requires StoredOk(w, cfg, stored) && Acceptable(w, cfg, p)
    ensures StoredOk(w, cfg, stored[p.txIns[0] := w.encode(p)])
  {}

  lemma OneOutpoint(w: World, cfg: Config, p: Psbt)
    requires Acceptable(w, cfg, p)
    ensures |p.txIns| == 1 && p.txIns == [p.txIns[0]]
  {}

  /**
   * The part of newDelegateTask that deals with forfeits: they are validated, indexed, and checked against the inputs.
   */
  method AcceptForfeits(w: World, cfg: Config, forfeits: seq<Psbt>, inputs: seq<Outpoint>)
    returns (r: Result<map<Outpoint, string>>)
    ensures r.Ok? ==> StoredOk(w, cfg, r.value) && (forall x :: x in r.value ==> x in inputs)
    ensures r.Ok? ==> forall p :: p in forfeits ==> |p.txIns| == 1 && p.txIns[0] in r.value
    ensures r.Ok? ==> LastKept(w, forfeits, |forfeits|, r.value)
    ensures r.Ok? <==>
      (forall p :: p in forfeits ==> Acceptable(w, cfg, p)) && forall p :: p in forfeits ==> p.txIns[0] in inputs
  {
    hide StoredOk, LastKept;
    var valid := ValidateForfeits(w, cfg, forfeits);
    if !valid {
      return Err("invalid forfeit");
    }
    var indexed := IndexForfeits(w, cfg, forfeits);
    if exists x :: x in indexed && x !in inputs {
      ghost var x :| x in indexed && x !in inputs;
      ghost var p :| p in forfeits && p.txIns == [x];
      return Err("forfeit tx input is not referenced in the intent");
    }
    r := Ok(indexed);
  }

  /** It spends the outpoint and pays the vtxo's value and the dust amount to the forfeit address. */
  predicate IsForfeit(w: World, cfg: Config, p: Psbt, o: Outpoint, value: int, anchor: int) {
    && p.txIns == [o] && p.inputs == [PInput(Some(value), 1, 1)]
    && p.txOuts == [TxOut(cfg.forfeitScript, cfg.dust + value), TxOut("51024e73", anchor)]
    && w.authentic(p)
  }

  /** What is accepted is just such a forfeit. */
  lemma AcceptableIsForfeit(w: World, cfg: Config, p: Psbt)
    ensures Acceptable(w, cfg, p) <==> exists o, value, anchor :: IsForfeit(w, cfg, p, o, value, anchor)
  {
    if Acceptable(w, cfg, p) {
      ForfeitOf(w, cfg, p);
    }
  }

  lemma ForfeitOf(w: World, cfg: Config, p: Psbt)
    requires Acceptable(w, cfg, p)
    ensures IsForfeit(w, cfg, p, p.txIns[0], p.inputs[0].utxo.value, p.txOuts[1].value)
  {
    assert p.txIns == [p.txIns[0]] && p.inputs == [p.inputs[0]] && p.txOuts == [p.txOuts[0], p.txOuts[1]];
  }

  // ---- Collecting the forfeits of a batch ----

  /** A collected forfeit, with the vtxo it was stored for. */
  datatype Collected = Collected(outpoint: Outpoint, psbt: Psbt)

  /** The vtxos of a task that need a forfeit and have one, in the indexer's order. */
  predicate Wanted(task: Task, v: Vtxo) {
    !v.recoverable && v.parses && v.outpoint in task.forfeitTxs
  }

  /** The forfeits of the first n vtxos of a task. */
  function OfVtxos(w: World, task: Task, vtxos: seq<Vtxo>, n: nat): Result<seq<Collected>>
    requires n <= |vtxos|
  {
    if n == 0 then Ok([])
    else
      var before := OfVtxos(w, task, vtxos, n - 1);
      var v := vtxos[n - 1];
      if before.Err? || !Wanted(task, v) then before
      else
        match w.parse(task.forfeitTxs[v.outpoint])
        case None => Err("failed to parse forfeit tx")
        case Some(p) => Ok(before.value + [Collected(v.outpoint, p)])
  }

  function Inputs(task: Task): seq<Outpoint> {
    task.intent.inputs
  }

  /** The forfeits of the first n tasks; a task whose lookup fails contributes none. */
  function OfTasks(w: World, repo: Repo, ids: seq<string>, n: nat): Result<seq<Collected>>
    requires n <= |ids|
  {
    if n == 0 then Ok([])
    else
      var before := OfTasks(w, repo, ids, n - 1);
      if before.Err? then before
      else if ids[n - 1] !in repo then Err("failed to get delegate")
      else
        var task := repo[ids[n - 1]];
        match w.vtxosOf(Inputs(task))
        case None => before
        case Some(vtxos) =>
          var more := OfVtxos(w, task, vtxos, |vtxos|);
          if more.Err? then more else Ok(before.value + more.value)
  }

  // ---- Connectors ----

  /** extractConnector: the first output that is not the anchor. */
  function ConnectorIndex(outs: seq<TxOut>): (i: nat)
    ensures i <= |outs|
    ensures i < |outs| ==> outs[i].script != ANCHOR_PKSCRIPT
    ensures forall j :: 0 <= j < i ==> outs[j].script == ANCHOR_PKSCRIPT
  {
    if outs == [] || outs[0].script != ANCHOR_PKSCRIPT then 0 else 1 + ConnectorIndex(outs[1..])
  }

  predicate HasConnector(leaf: Leaf) {
    ConnectorIndex(leaf.outs) < |leaf.outs|
  }

  function ConnectorOf(leaf: Leaf): Outpoint
    requires HasConnector(leaf)
  {
    Outpoint(leaf.txid, ConnectorIndex(leaf.outs))
  }

  function ConnectorValue(leaf: Leaf): int
    requires HasConnector(leaf)
  {
    leaf.outs[ConnectorIndex(leaf.outs)].value
  }

  method ExtractConnector(leaf: Leaf) returns (r: Option<(TxOut, Outpoint)>)
    ensures r.Some? <==> HasConnector(leaf)
    ensures r.Some? ==> r.value.1 == ConnectorOf(leaf) && r.value.0 == leaf.outs[ConnectorIndex(leaf.outs)]
  {
    var i := 0;
    while i < |leaf.outs|
      invariant 0 <= i <= |leaf.outs| && forall j :: 0 <= j < i ==> leaf.outs[j].script == ANCHOR_PKSCRIPT
    {
      if leaf.outs[i].script == ANCHOR_PKSCRIPT {
        i := i + 1;
        continue;
      }
      FirstIs(leaf.outs, i);
      return Some((leaf.outs[i], Outpoint(leaf.txid, i)));
    }
    r := None;
  }

  lemma FirstIs(outs: seq<TxOut>, i: nat)
    requires i < |outs| && outs[i].script != ANCHOR_PKSCRIPT && forall j :: 0 <= j < i ==>
      outs[j].script == ANCHOR_PKSCRIPT
    ensures ConnectorIndex(outs) == i
  {}

  /** The forfeit with the connector added as one more input. */
  function Completed(p: Psbt, leaf: Leaf): Psbt
    requires HasConnector(leaf)
  {
    p.(txIns := p.txIns + [ConnectorOf(leaf)], inputs := p.inputs + [PInput(Some(ConnectorValue(leaf)), 0, 0)])
  }

  // ---- Submission ----

  /**
   * What reaches the server: nothing, or one transaction per collected forfeit, each with the connector of its own
   * leaf.
   */
  ghost predicate SubmittedAll(w: World, collected: seq<Collected>, leaves: seq<Leaf>, txs: seq<Psbt>) {
    && |txs| == |collected| <= |leaves|
    && forall i :: 0 <= i < |txs| ==>
       HasConnector(leaves[i]) && txs[i] == Completed(collected[i].psbt, leaves[i]) && w.signs(txs[i])
  }

  /** Every collected forfeit can be completed and signed. */
  predicate CanSubmit(w: World, collected: seq<Collected>, leaves: seq<Leaf>) {
    && |collected| <= |leaves|
    && forall i :: 0 <= i < |collected| ==> HasConnector(leaves[i]) && w.signs(Completed(collected[i].psbt, leaves[i]))
  }

  /** submitForfeitTxs: Ok(None) submits nothing because there is nothing to do, an error submits nothing either. */
  method SubmitForfeitTxs(w: World, repo: Repo, leaves: seq<Leaf>, ids: seq<string>)
    returns (r: Result<Option<seq<Psbt>>>)
    ensures leaves == [] || ids == [] ==> r == Ok(None)
    ensures leaves != [] && ids != [] ==>
      var all := OfTasks(w, repo, ids, |ids|);
      && (r.Ok? <==> all.Ok? && CanSubmit(w, all.value, leaves))
      && (r.Ok? ==> r.value.Some? && SubmittedAll(w, all.value, leaves, r.value.value))
  {
    if |leaves| == 0 {
      return Ok(None);
    }
    if |ids| == 0 {
      return Ok(None);
    }
    var forfeitTxs: seq<Psbt> := [];
    ghost var collected: seq<Collected> := [];
    var i := 0;
    while i < |ids|
      invariant 0 <= i <= |ids| && OfTasks(w, repo, ids, i) == Ok(collected)
      invariant |forfeitTxs| == |collected| && forall j :: 0 <= j < |collected| ==> forfeitTxs[j] == collected[j].psbt
    {
      if ids[i] !in repo {
        OneTaskErrorEnds(w, repo, ids, i + 1, |ids|);
        return Err("failed to get delegate");
      }
      var task := repo[ids[i]];
      var vtxos := w.vtxosOf(Inputs(task));
      i := i + 1;
      if vtxos.None? {
        continue;
      }
      var more;
      ghost var found;
      more, found := CollectVtxos(w, task, vtxos.value);
      if more.Err? {
        OneTaskErrorEnds(w, repo, ids, i, |ids|);
        return Err(more.error);
      }
      forfeitTxs := forfeitTxs + more.value;
      collected := collected + found;
    }
    if |forfeitTxs| > |leaves| {
      return Err("insufficient connectors");
    }
    r := SignAll(w, collected, forfeitTxs, leaves);
  }

  method CollectVtxos(w: World, task: Task, vtxos: seq<Vtxo>)
    returns (r: Result<seq<Psbt>>, ghost found: seq<Collected>)
    ensures r.Ok? ==> OfVtxos(w, task, vtxos, |vtxos|) == Ok(found) && |r.value| == |found|
    ensures r.Ok? ==> forall j :: 0 <= j < |found| ==> r.value[j] == found[j].psbt
    ensures r.Err? ==> OfVtxos(w, task, vtxos, |vtxos|).Err?
  {
    var txs: seq<Psbt> := [];
    found := [];
    var k := 0;
    while k < |vtxos|
      invariant 0 <= k <= |vtxos| && OfVtxos(w, task, vtxos, k) == Ok(found)
      invariant |txs| == |found| && forall j :: 0 <= j < |found| ==> txs[j] == found[j].psbt
    {
      var v := vtxos[k];
      k := k + 1;
      if v.recoverable { continue; }
      if !v.parses { continue; }
      if v.outpoint !in task.forfeitTxs { continue; }
      var p := w.parse(task.forfeitTxs[v.outpoint]);
      if p.None? {
        OneErrorEnds(w, task, vtxos, k, |vtxos|);
        return Err("failed to parse forfeit tx"), found;
      }
      txs := txs + [p.value];
      found := found + [Collected(v.outpoint, p.value)];
    }
    r := Ok(txs);
  }

  lemma {:induction false} OneErrorEnds(w: World, task: Task, vtxos: seq<Vtxo>, k: nat, n: nat)
    requires k <= n <= |vtxos| && OfVtxos(w, task, vtxos, k).Err?
    ensures OfVtxos(w, task, vtxos, n).Err?
  {
    if k < n {
      OneErrorEnds(w, task, vtxos, k, n - 1);
    }
  }

  lemma {:induction false} OneTaskErrorEnds(w: World, repo: Repo, ids: seq<string>, k: nat, n: nat)
    requires k <= n <= |ids| && OfTasks(w, repo, ids, k).Err?
    ensures OfTasks(w, repo, ids, n).Err?
  {
    if k < n {
      OneTaskErrorEnds(w, repo, ids, k, n - 1);
    }
  }

  method SignAll(w: World, ghost collected: seq<Collected>, forfeitTxs: seq<Psbt>, leaves: seq<Leaf>)
    returns (r: Result<Option<seq<Psbt>>>)
    requires |forfeitTxs| == |collected| <= |leaves| && forall j :: 0 <= j < |collected| ==>
      forfeitTxs[j] == collected[j].psbt
    ensures r.Ok? <==> CanSubmit(w, collected, leaves)
    ensures r.Ok? ==> r.value.Some? && SubmittedAll(w, collected, leaves, r.value.value)
  {
    var signed: seq<Psbt> := [];
    var i := 0;
    while i < |forfeitTxs|
      invariant 0 <= i == |signed| <= |forfeitTxs|
      invariant forall j :: 0 <= j < i ==>
        HasConnector(leaves[j]) && signed[j] == Completed(collected[j].psbt, leaves[j]) && w.signs(signed[j])
    {
      var c := ExtractConnector(leaves[i]);
      if c.None? {
        return Err("connector not found");
      }
      var tx := forfeitTxs[i];
      tx := tx.(inputs := tx.inputs + [PInput(Some(c.value.0.value), 0, 0)]);
      tx := tx.(txIns := tx.txIns + [c.value.1]);
      assert tx == Completed(collected[i].psbt, leaves[i]);
      if !w.signs(tx) {
        return Err("failed to sign forfeit");
      }
      signed := signed + [tx];
      i := i + 1;
    }
    r := Ok(Some(signed));
  }

  // ---- What is collected ----

  /** The vtxos that need a forfeit and have one, among the first n of a task. */
  function WantedOf(task: Task, vtxos: seq<Vtxo>, n: nat): seq<Outpoint>
    requires n <= |vtxos|
  {
    if n == 0 then []
    else WantedOf(task, vtxos, n - 1) + if Wanted(task, vtxos[n - 1]) then [vtxos[n - 1].outpoint] else []
  }

  /** The same over tasks whose lookup succeeds. */
  function WantedOfTasks(w: World, repo: Repo, ids: seq<string>, n: nat): seq<Outpoint>
    requires n <= |ids| && forall i :: 0 <= i < n ==> ids[i] in repo
  {
    if n == 0 then []
    else
      var task := repo[ids[n - 1]];
      WantedOfTasks(w, repo, ids, n - 1)
      + match w.vtxosOf(Inputs(task)) case None => [] case Some(vtxos) => WantedOf(task, vtxos, |vtxos|)
  }

  function Outpoints(collected: seq<Collected>): (r: seq<Outpoint>)
    ensures |r| == |collected| && forall i :: 0 <= i < |r| ==> r[i] == collected[i].outpoint
  {
    seq(|collected|, i requires 0 <= i < |collected| => collected[i].outpoint)
  }

  lemma OutpointsConcat(a: seq<Collected>, b: seq<Collected>)
    ensures Outpoints(a + b) == Outpoints(a) + Outpoints(b)
  {}

  lemma {:induction false} VtxosWanted(w: World, task: Task, vtxos: seq<Vtxo>, n: nat)
    requires n <= |vtxos| && OfVtxos(w, task, vtxos, n).Ok?
    ensures Outpoints(OfVtxos(w, task, vtxos, n).value) == WantedOf(task, vtxos, n)
  {
    if n > 0 {
      VtxosWanted(w, task, vtxos, n - 1);
      if Wanted(task, vtxos[n - 1]) {
        OutpointsConcat(OfVtxos(w, task, vtxos, n - 1).value,
                        [Collected(vtxos[n - 1].outpoint, w.parse(task.forfeitTxs[vtxos[n - 1].outpoint]).value)]);
      }
    }
  }

  /** Exactly one forfeit is collected for each wanted vtxo, in order. */
  lemma {:induction false} OnePerWantedVtxo(w: World, repo: Repo, ids: seq<string>, n: nat)
    requires n <= |ids| && OfTasks(w, repo, ids, n).Ok?
    ensures forall i :: 0 <= i < n ==> ids[i] in repo
    ensures Outpoints(OfTasks(w, repo, ids, n).value) == WantedOfTasks(w, repo, ids, n)
  {
    if n > 0 {
      OnePerWantedVtxo(w, repo, ids, n - 1);
      var task := repo[ids[n - 1]];
      var vtxos := w.vtxosOf(Inputs(task));
      if vtxos.Some? {
        VtxosWanted(w, task, vtxos.value, |vtxos.value|);
        OutpointsConcat(OfTasks(w, repo, ids, n - 1).value, OfVtxos(w, task, vtxos.value, |vtxos.value|).value);
      }
    }
  }

  /** Forfeits that were stored by an acceptance. */
  ghost predicate RepoStoredOk(w: World, cfg: Config, repo: Repo) {
    forall id :: id in repo ==> StoredOk(w, cfg, repo[id].forfeitTxs)
  }

  ghost predicate AllAcceptable(w: World, cfg: Config, collected: seq<Collected>) {
    forall i :: 0 <= i < |collected| ==>
        Acceptable(w, cfg, collected[i].psbt) && collected[i].psbt.txIns == [collected[i].outpoint]
  }

  lemma {:induction false} VtxosAcceptable(w: World, cfg: Config, task: Task, vtxos: seq<Vtxo>, n: nat)
    requires ReadsBack(w) && StoredOk(w, cfg, task.forfeitTxs) && n <= |vtxos|
    ensures OfVtxos(w, task, vtxos, n).Ok? && AllAcceptable(w, cfg, OfVtxos(w, task, vtxos, n).value)
  {
    if n > 0 {
      VtxosAcceptable(w, cfg, task, vtxos, n - 1);
      var v := vtxos[n - 1];
      if Wanted(task, v) {
        var p :| Acceptable(w, cfg, p) && p.txIns[0] == v.outpoint && task.forfeitTxs[v.outpoint] == w.encode(p);
        assert w.parse(w.encode(p)) == Some(p) && p.txIns == [v.outpoint];
      }
    }
  }

  lemma {:induction false} TasksAcceptable(w: World, cfg: Config, repo: Repo, ids: seq<string>, n: nat)
    requires ReadsBack(w) && RepoStoredOk(w, cfg, repo) && n <= |ids| && OfTasks(w, repo, ids, n).Ok?
    ensures AllAcceptable(w, cfg, OfTasks(w, repo, ids, n).value)
  {
    hide ReadsBack, Acceptable;
    if n > 0 {
      TasksAcceptable(w, cfg, repo, ids, n - 1);
      var task := repo[ids[n - 1]];
      var vtxos := w.vtxosOf(Inputs(task));
      if vtxos.Some? {
        VtxosAcceptable(w, cfg, task, vtxos.value, |vtxos.value|);
      }
    }
  }

  /** The value that a transaction spends, as its psbt inputs say. */
  function InputValue(inputs: seq<PInput>): int {
    if inputs == [] then 0 else (if inputs[0].utxo.Some? then inputs[0].utxo.value else 0) + InputValue(inputs[1..])
  }

  /**
   * What a successful submission contains: one transaction for each wanted vtxo, spending that vtxo and one connector
   * of its own; and a transaction whose connector carries the dust amount pays out exactly what it spends.
   */
  lemma SubmissionIsSound(w: World, cfg: Config, repo: Repo, leaves: seq<Leaf>, ids: seq<string>, txs: seq<Psbt>,
                          i: nat)
    requires ReadsBack(w) && RepoStoredOk(w, cfg, repo) && OfTasks(w, repo, ids, |ids|).Ok?
    requires SubmittedAll(w, OfTasks(w, repo, ids, |ids|).value, leaves, txs) && i < |txs|
    ensures forall j :: 0 <= j < |ids| ==> ids[j] in repo
    ensures |txs| == |WantedOfTasks(w, repo, ids, |ids|)| && HasConnector(leaves[i])
    ensures txs[i].txIns == [WantedOfTasks(w, repo, ids, |ids|)[i],
                             Outpoint(leaves[i].txid, ConnectorIndex(leaves[i].outs))]
    ensures |txs[i].txOuts| == 2 && txs[i].txOuts[0].script == cfg.forfeitScript &&
      txs[i].txOuts[1].script == ANCHOR_PKSCRIPT
    ensures leaves[i].outs[ConnectorIndex(leaves[i].outs)].value == cfg.dust ==>
      InputValue(txs[i].inputs) == txs[i].txOuts[0].value
  {
    hide ReadsBack;
    OnePerWantedVtxo(w, repo, ids, |ids|);
    TasksAcceptable(w, cfg, repo, ids, |ids|);
    var c := OfTasks(w, repo, ids, |ids|).value[i];
    assert Acceptable(w, cfg, c.psbt) && c.psbt.txIns == [c.outpoint];
    ValueOfTwo(c.psbt.inputs[0], PInput(Some(ConnectorValue(leaves[i])), 0, 0));
    assert c.psbt.inputs == [c.psbt.inputs[0]];
  }

  lemma ValueOfTwo(a: PInput, b: PInput)
    requires a.utxo.Some? && b.utxo.Some?
    ensures InputValue([a] + [b]) == a.utxo.value + b.utxo.value
  {
    assert [b][1..] == [];
    assert InputValue([b]) == b.utxo.value;
    assert ([a] + [b])[1..] == [b];
  }

  /** Leaves with distinct transaction ids give distinct connectors. */
  lemma ConnectorsDistinct(w: World, collected: seq<Collected>, leaves: seq<Leaf>, txs: seq<Psbt>, i: nat, j: nat)
    requires SubmittedAll(w, collected, leaves, txs) && i < j < |txs|
    requires forall a, b :: 0 <= a < b < |leaves| ==> leaves[a].txid != leaves[b].txid
    ensures |txs[i].txIns| > 0 && |txs[j].txIns| > 0
    ensures txs[i].txIns[|txs[i].txIns| - 1] != txs[j].txIns[|txs[j].txIns| - 1]
  {}

  /** Nothing can be submitted for accepted tasks when there are fewer leaves than wanted vtxos. */
  lemma EnoughConnectors(w: World, repo: Repo, leaves: seq<Leaf>, ids: seq<string>, txs: seq<Psbt>)
    requires OfTasks(w, repo, ids, |ids|).Ok? && SubmittedAll(w, OfTasks(w, repo, ids, |ids|).value, leaves, txs)
    ensures forall j :: 0 <= j < |ids| ==> ids[j] in repo
    ensures |WantedOfTasks(w, repo, ids, |ids|)| <= |leaves|
  {
    OnePerWantedVtxo(w, repo, ids, |ids|);
  }

  // ---- Which vtxos are spent, and which twice ----

  ghost predicate Distinct(s: seq<Outpoint>) {
    forall i, j :: 0 <= i < j < |s| ==> s[i] != s[j]
  }

  /** The vtxos of a stored task for which a forfeit is collected each time its id comes up. */
  function WantedAt(w: World, repo: Repo, id: string): seq<Outpoint>
    requires id in repo
  {
    match w.vtxosOf(Inputs(repo[id])) case None => [] case Some(vtxos) => WantedOf(repo[id], vtxos, |vtxos|)
  }

  /** The indexer lists no wanted vtxo of the task twice. */
  ghost predicate ListedOnce(w: World, repo: Repo, id: string)
    requires id in repo
  {
    w.vtxosOf(Inputs(repo[id])).Some? ==>
      var vtxos := w.vtxosOf(Inputs(repo[id])).value;
      forall a, b :: 0 <= a < b < |vtxos| && Wanted(repo[id], vtxos[a]) && Wanted(repo[id], vtxos[b]) ==>
        vtxos[a].outpoint != vtxos[b].outpoint
  }

  ghost predicate NoneInCommon(a: seq<Outpoint>, b: seq<Outpoint>) {
    forall x :: x in a ==> x !in b
  }

  lemma DistinctConcat(a: seq<Outpoint>, b: seq<Outpoint>)
    ensures Distinct(a + b) <==> Distinct(a) && Distinct(b) && NoneInCommon(a, b)
  {
    var c := a + b;
    if Distinct(c) {
      forall i, j | 0 <= i < j < |a| ensures a[i] != a[j] {
        assert c[i] != c[j];
      }
      forall i, j | 0 <= i < |a| && 0 <= j < |b| ensures a[i] != b[j] {
        assert c[i] != c[|a| + j];
      }
      forall i, j | 0 <= i < j < |b| ensures b[i] != b[j] {
        assert c[|a| + i] != c[|a| + j];
      }
    }
    if Distinct(a) && Distinct(b) && NoneInCommon(a, b) {
      forall i, j | 0 <= i < j < |c| ensures c[i] != c[j] {
        if i < |a| { assert c[i] == a[i] && a[i] in a; }
      }
    }
  }

  lemma DistinctOne(x: Outpoint)
    ensures Distinct([x]) && Distinct([])
  {}

  lemma {:induction false} InWantedOf(task: Task, vtxos: seq<Vtxo>, n: nat, x: Outpoint)
    requires n <= |vtxos|
    ensures x in WantedOf(task, vtxos, n) <==>
      exists a :: 0 <= a < n && Wanted(task, vtxos[a]) && vtxos[a].outpoint == x
  {
    if n > 0 {
      InWantedOf(task, vtxos, n - 1, x);
    }
  }

  lemma {:induction false} WantedOnce(task: Task, vtxos: seq<Vtxo>, n: nat)
    requires n <= |vtxos|
    ensures Distinct(WantedOf(task, vtxos, n)) <==>
      forall a, b :: 0 <= a < b < n && Wanted(task, vtxos[a]) && Wanted(task, vtxos[b]) ==>
          vtxos[a].outpoint != vtxos[b].outpoint
  {
    hide Distinct, Wanted;
    if n == 0 {
      DistinctOne(Outpoint("", 0));
    } else {
      var v := vtxos[n - 1];
      WantedOnce(task, vtxos, n - 1);
      InWantedOf(task, vtxos, n - 1, v.outpoint);
      DistinctConcat(WantedOf(task, vtxos, n - 1), if Wanted(task, v) then [v.outpoint] else []);
      DistinctOne(v.outpoint);
    }
  }

  lemma OnceAt(w: World, repo: Repo, id: string)
    requires id in repo
    ensures Distinct(WantedAt(w, repo, id)) <==> ListedOnce(w, repo, id)
  {
    hide Wanted, WantedOf;
    var vtxos := w.vtxosOf(Inputs(repo[id]));
    if vtxos.Some? { WantedOnce(repo[id], vtxos.value, |vtxos.value|); }
  }

  lemma {:induction false} InWanted(w: World, repo: Repo, ids: seq<string>, n: nat, x: Outpoint)
    requires n <= |ids| && forall i :: 0 <= i < n ==> ids[i] in repo
    ensures x in WantedOfTasks(w, repo, ids, n) <==> exists i :: 0 <= i < n && x in WantedAt(w, repo, ids[i])
  {
    hide WantedOf;
    if n > 0 {
      InWanted(w, repo, ids, n - 1, x);
    }
  }

  /** The task has a forfeit for the outpoint, and the indexer lists it for the task as not recoverable. */
  ghost predicate NeedsForfeit(w: World, task: Task, x: Outpoint) {
    && x in task.forfeitTxs && w.vtxosOf(task.intent.inputs).Some?
    && exists v :: v in w.vtxosOf(task.intent.inputs).value && v.outpoint == x && !v.recoverable && v.parses
  }

  lemma {:induction false} WantedIsNeeded(task: Task, vtxos: seq<Vtxo>, n: nat, x: Outpoint)
    requires n <= |vtxos|
    ensures x in WantedOf(task, vtxos, n) <==>
      x in task.forfeitTxs && exists v :: v in vtxos[..n] && v.outpoint == x && !v.recoverable && v.parses
  {
    if n > 0 {
      WantedIsNeeded(task, vtxos, n - 1, x);
      assert vtxos[..n] == vtxos[..n - 1] + [vtxos[n - 1]];
    }
  }

  lemma WantedAtIsNeeded(w: World, repo: Repo, id: string, x: Outpoint)
    requires id in repo
    ensures x in WantedAt(w, repo, id) <==> NeedsForfeit(w, repo[id], x)
  {
    hide WantedOf;
    var vtxos := w.vtxosOf(Inputs(repo[id]));
    if vtxos.Some? {
      WantedIsNeeded(repo[id], vtxos.value, |vtxos.value|, x);
      assert vtxos.value[..|vtxos.value|] == vtxos.value;
    }
  }

  /** A submission spends a vtxo if and only if one of its tasks needs a forfeit for it. */
  lemma SpentIfNeeded(w: World, cfg: Config, repo: Repo, leaves: seq<Leaf>, ids: seq<string>, txs: seq<Psbt>,
                      x: Outpoint)
    requires ReadsBack(w) && RepoStoredOk(w, cfg, repo) && OfTasks(w, repo, ids, |ids|).Ok?
    requires SubmittedAll(w, OfTasks(w, repo, ids, |ids|).value, leaves, txs)
    ensures forall i :: 0 <= i < |txs| ==> |txs[i].txIns| == 2
    ensures (exists i :: 0 <= i < |txs| && txs[i].txIns[0] == x) <==>
      exists id :: id in ids && id in repo && NeedsForfeit(w, repo[id], x)
  {
    hide ReadsBack, RepoStoredOk, OfTasks, WantedOfTasks, WantedAt, NeedsForfeit;
    OnePerWantedVtxo(w, repo, ids, |ids|);
    var wanted := WantedOfTasks(w, repo, ids, |ids|);
    forall i | 0 <= i < |txs| ensures |txs| == |wanted| && |txs[i].txIns| == 2 && txs[i].txIns[0] == wanted[i] {
      SubmissionIsSound(w, cfg, repo, leaves, ids, txs, i);
    }
    hide SubmittedAll;
    InWanted(w, repo, ids, |ids|, x);
    forall id | id in repo ensures x in WantedAt(w, repo, id) <==> NeedsForfeit(w, repo[id], x) {
      WantedAtIsNeeded(w, repo, id, x);
    }
    assert |txs| == |wanted|;
    assert x in wanted <==> exists i :: 0 <= i < |txs| && txs[i].txIns[0] == x;
  }

  /** A stored forfeit that is needed cannot be read. */
  ghost predicate Unreadable(w: World, task: Task) {
    exists x :: NeedsForfeit(w, task, x) && w.parse(task.forfeitTxs[x]).None?
  }

  lemma {:induction false} VtxosFail(w: World, task: Task, vtxos: seq<Vtxo>, n: nat)
    requires n <= |vtxos|
    ensures OfVtxos(w, task, vtxos, n).Err? <==>
      exists x :: x in WantedOf(task, vtxos, n) && x in task.forfeitTxs && w.parse(task.forfeitTxs[x]).None?
  {
    if n > 0 {
      VtxosFail(w, task, vtxos, n - 1);
    }
  }

  lemma TaskFails(w: World, task: Task, vtxos: seq<Vtxo>)
    requires w.vtxosOf(Inputs(task)) == Some(vtxos)
    ensures OfVtxos(w, task, vtxos, |vtxos|).Err? <==> Unreadable(w, task)
  {
    hide OfVtxos, WantedOf;
    VtxosFail(w, task, vtxos, |vtxos|);
    assert vtxos[..|vtxos|] == vtxos;
    forall x ensures x in WantedOf(task, vtxos, |vtxos|) <==> NeedsForfeit(w, task, x) {
      WantedIsNeeded(task, vtxos, |vtxos|, x);
    }
  }

  /** Collecting fails just when a task is missing or a forfeit that is needed cannot be read. */
  lemma {:induction false} CollectingFailsExactly(w: World, repo: Repo, ids: seq<string>, n: nat)
    requires n <= |ids|
    ensures OfTasks(w, repo, ids, n).Err? <==>
      exists i :: 0 <= i < n && (ids[i] !in repo || Unreadable(w, repo[ids[i]]))
  {
    hide Unreadable, OfVtxos;
    if n > 0 {
      CollectingFailsExactly(w, repo, ids, n - 1);
      if ids[n - 1] in repo {
        var task := repo[ids[n - 1]];
        var vtxos := w.vtxosOf(Inputs(task));
        if vtxos.Some? { TaskFails(w, task, vtxos.value); } else { NothingListed(w, task); }
      }
    }
  }

  lemma NothingListed(w: World, task: Task)
    requires w.vtxosOf(Inputs(task)).None?
    ensures !Unreadable(w, task)
  {}

  /** A leaf has a connector when it has an output that is not the anchor. */
  lemma HasConnectorIs(leaf: Leaf)
    ensures HasConnector(leaf) <==> exists o :: o in leaf.outs && o.script != "51024e73"
  {
    var i := ConnectorIndex(leaf.outs);
    if i < |leaf.outs| { assert leaf.outs[i] in leaf.outs; }
  }

  /** No vtxo is wanted at two places of the list. */
  ghost predicate Apart(w: World, repo: Repo, ids: seq<string>, n: nat)
    requires n <= |ids| && forall i :: 0 <= i < n ==> ids[i] in repo
  {
    forall i, j :: 0 <= i < j < n ==> NoneInCommon(WantedAt(w, repo, ids[i]), WantedAt(w, repo, ids[j]))
  }

  lemma ApartStep(w: World, repo: Repo, ids: seq<string>, n: nat)
    requires 0 < n <= |ids| && forall i :: 0 <= i < n ==> ids[i] in repo
    ensures Apart(w, repo, ids, n) <==>
      Apart(w, repo, ids, n - 1) && NoneInCommon(WantedOfTasks(w, repo, ids, n - 1), WantedAt(w, repo, ids[n - 1]))
  {
    hide WantedAt, WantedOfTasks;
    var before := WantedOfTasks(w, repo, ids, n - 1);
    forall x ensures x in before <==> exists i :: 0 <= i < n - 1 && x in WantedAt(w, repo, ids[i]) {
      InWanted(w, repo, ids, n - 1, x);
    }
  }

  lemma {:induction false} WantedDistinct(w: World, repo: Repo, ids: seq<string>, n: nat)
    requires n <= |ids| && forall i :: 0 <= i < n ==> ids[i] in repo
    ensures Distinct(WantedOfTasks(w, repo, ids, n)) <==>
      (forall i :: 0 <= i < n ==> ListedOnce(w, repo, ids[i])) && Apart(w, repo, ids, n)
  {
    hide Distinct, ListedOnce, WantedOf;
    if n == 0 {
      DistinctOne(Outpoint("", 0));
    } else {
      WantedDistinct(w, repo, ids, n - 1);
      OnceAt(w, repo, ids[n - 1]);
      ApartStep(w, repo, ids, n);
      hide Apart, NoneInCommon;
      DistinctConcat(WantedOfTasks(w, repo, ids, n - 1), WantedAt(w, repo, ids[n - 1]));
    }
  }

  /** No two submitted transactions spend the same vtxo. */
  ghost predicate SpendOnce(txs: seq<Psbt>) {
    && (forall i :: 0 <= i < |txs| ==> |txs[i].txIns| > 0)
    && forall i, j :: 0 <= i < j < |txs| ==> txs[i].txIns[0] != txs[j].txIns[0]
  }

  /** No id with a wanted vtxo is repeated. */
  ghost predicate NoRepeats(w: World, repo: Repo, ids: seq<string>)
    requires forall i :: 0 <= i < |ids| ==> ids[i] in repo
  {
    forall i, j :: 0 <= i < j < |ids| && ids[i] == ids[j] ==> WantedAt(w, repo, ids[i]) == []
  }

  /** Different ids have no wanted vtxo in common. */
  ghost predicate TasksApart(w: World, repo: Repo, ids: seq<string>)
    requires forall i :: 0 <= i < |ids| ==> ids[i] in repo
  {
    forall i, j :: 0 <= i < j < |ids| && ids[i] != ids[j] ==>
        NoneInCommon(WantedAt(w, repo, ids[i]), WantedAt(w, repo, ids[j]))
  }

  lemma ApartIs(w: World, repo: Repo, ids: seq<string>)
    requires forall i :: 0 <= i < |ids| ==> ids[i] in repo
    ensures Apart(w, repo, ids, |ids|) <==> NoRepeats(w, repo, ids) && TasksApart(w, repo, ids)
  {
    hide WantedAt, NoneInCommon;
    forall i | 0 <= i < |ids|
      ensures NoneInCommon(WantedAt(w, repo, ids[i]), WantedAt(w, repo, ids[i])) <==> WantedAt(w, repo, ids[i]) == []
    {
      NoneWithItself(WantedAt(w, repo, ids[i]));
    }
  }

  lemma NoneWithItself(s: seq<Outpoint>)
    ensures NoneInCommon(s, s) <==> s == []
  {
    assert s != [] ==> s[0] in s;
  }

  /**
   * A submission spends each vtxo once if and only if no id with a wanted vtxo is repeated, the indexer lists no wanted
   * vtxo of a task twice, and no vtxo is wanted by two tasks. Nothing in the code sees to the first and the last.
   */
  lemma SpentOnceExactly(w: World, cfg: Config, repo: Repo, leaves: seq<Leaf>, ids: seq<string>, txs: seq<Psbt>)
    requires ReadsBack(w) && RepoStoredOk(w, cfg, repo) && OfTasks(w, repo, ids, |ids|).Ok?
    requires SubmittedAll(w, OfTasks(w, repo, ids, |ids|).value, leaves, txs)
    ensures forall j :: 0 <= j < |ids| ==> ids[j] in repo
    ensures SpendOnce(txs) <==>
      NoRepeats(w, repo, ids) && TasksApart(w, repo, ids) && forall i :: 0 <= i < |ids| ==> ListedOnce(w, repo, ids[i])
  {
    hide ReadsBack, RepoStoredOk, OfTasks, NoRepeats, TasksApart, ListedOnce, Apart, WantedOfTasks;
    OnePerWantedVtxo(w, repo, ids, |ids|);
    WantedDistinct(w, repo, ids, |ids|);
    ApartIs(w, repo, ids);
    var wanted := WantedOfTasks(w, repo, ids, |ids|);
    forall i | 0 <= i < |txs| ensures |txs| == |wanted| && |txs[i].txIns| > 0 && txs[i].txIns[0] == wanted[i] {
      SubmissionIsSound(w, cfg, repo, leaves, ids, txs, i);
    }
    hide SubmittedAll;
    assert |txs| == |wanted|;
  }

  /** No outpoint, vtxo or connector, is spent at two places of a submission. */
  ghost predicate NothingTwice(txs: seq<Psbt>) {
    forall i, k, j, l ::
        0 <= i < |txs| && 0 <= k < |txs[i].txIns| && 0 <= j < |txs| && 0 <= l < |txs[j].txIns| && (i, k) != (j, l) ==>
      txs[i].txIns[k] != txs[j].txIns[l]
  }

  /** With different leaves that is so if and only if each vtxo is spent once and none of them is a connector. */
  lemma NothingTwiceExactly(w: World, cfg: Config, repo: Repo, leaves: seq<Leaf>, ids: seq<string>, txs: seq<Psbt>)
    requires ReadsBack(w) && RepoStoredOk(w, cfg, repo) && OfTasks(w, repo, ids, |ids|).Ok?
    requires SubmittedAll(w, OfTasks(w, repo, ids, |ids|).value, leaves, txs)
    requires forall a, b :: 0 <= a < b < |leaves| ==> leaves[a].txid != leaves[b].txid
    ensures forall i :: 0 <= i < |txs| ==> |txs[i].txIns| == 2
    ensures NothingTwice(txs) <==>
      SpendOnce(txs) && forall i, j :: 0 <= i < |txs| && 0 <= j < |txs| ==> txs[i].txIns[0] != txs[j].txIns[1]
  {
    hide ReadsBack, RepoStoredOk, OfTasks, WantedOfTasks;
    forall i | 0 <= i < |txs| ensures |txs[i].txIns| == 2 {
      SubmissionIsSound(w, cfg, repo, leaves, ids, txs, i);
    }
    forall i, j | 0 <= i < j < |txs| ensures txs[i].txIns[1] != txs[j].txIns[1] {
      ConnectorsDistinct(w, OfTasks(w, repo, ids, |ids|).value, leaves, txs, i, j);
    }
    hide SubmittedAll;
    PairsDistinct(txs);
  }

  lemma PairsDistinct(txs: seq<Psbt>)
    requires forall i :: 0 <= i < |txs| ==> |txs[i].txIns| == 2
    requires forall i, j :: 0 <= i < j < |txs| ==> txs[i].txIns[1] != txs[j].txIns[1]
    ensures NothingTwice(txs) <==>
      SpendOnce(txs) && forall i, j :: 0 <= i < |txs| && 0 <= j < |txs| ==> txs[i].txIns[0] != txs[j].txIns[1]
  {
    if NothingTwice(txs) {
      forall i, j | 0 <= i < j < |txs| ensures txs[i].txIns[0] != txs[j].txIns[0] {
        assert (i, 0) != (j, 0);
      }
      forall i, j | 0 <= i < |txs| && 0 <= j < |txs| ensures txs[i].txIns[0] != txs[j].txIns[1] {
        assert (i, 0) != (j, 1);
      }
    }
  }

  /** Tasks that have no input in common and key their forfeits by inputs want no vtxo twice. */
  lemma DisjointTasksApart(w: World, repo: Repo, ids: seq<string>)
    requires forall i :: 0 <= i < |ids| ==> ids[i] in repo
    requires forall i, x :: 0 <= i < |ids| && x in repo[ids[i]].forfeitTxs ==> x in Inputs(repo[ids[i]])
    requires forall i, j :: 0 <= i < j < |ids| && ids[i] != ids[j] ==>
      !Overlap(Inputs(repo[ids[i]]), Inputs(repo[ids[j]]))
    ensures TasksApart(w, repo, ids)
  {
    hide Inputs;
    forall i, j | 0 <= i < j < |ids| && ids[i] != ids[j]
      ensures NoneInCommon(WantedAt(w, repo, ids[i]), WantedAt(w, repo, ids[j])) {
      forall x | x in WantedAt(w, repo, ids[i]) ensures x in Inputs(repo[ids[i]]) {
        WantedIsInput(w, repo, ids[i], x);
      }
      forall x | x in WantedAt(w, repo, ids[j]) ensures x in Inputs(repo[ids[j]]) {
        WantedIsInput(w, repo, ids[j], x);
      }
    }
  }

  lemma WantedIsInput(w: World, repo: Repo, id: string, x: Outpoint)
    requires id in repo && x in WantedAt(w, repo, id)
    requires forall y :: y in repo[id].forfeitTxs ==> y in Inputs(repo[id])
    ensures x in Inputs(repo[id])
  {
    hide Inputs, WantedOf;
    var vtxos := w.vtxosOf(Inputs(repo[id])).value;
    InWantedOf(repo[id], vtxos, |vtxos|, x);
  }

  /** A repeated id spends a vtxo twice, with two connectors. */
  lemma RepeatedIdSpendsTwice(w: World, cfg: Config, repo: Repo, leaves: seq<Leaf>, a: string, o: Outpoint,
                              txs: seq<Psbt>)
    requires ReadsBack(w) && RepoStoredOk(w, cfg, repo) && a in repo && WantedAt(w, repo, a) == [o]
    requires leaves != [] && OfTasks(w, repo, [a, a], 2).Ok? &&
      SubmittedAll(w, OfTasks(w, repo, [a, a], 2).value, leaves, txs)
    requires forall i, j :: 0 <= i < j < |leaves| ==> leaves[i].txid != leaves[j].txid
    ensures |txs| == 2 && |txs[0].txIns| == |txs[1].txIns| == 2
    ensures txs[0].txIns[0] == txs[1].txIns[0] == o && txs[0].txIns[1] != txs[1].txIns[1]
  {
    var ids := [a, a];
    assert WantedOfTasks(w, repo, ids, 1) == WantedOfTasks(w, repo, ids, 0) + [o];
    assert WantedOfTasks(w, repo, ids, 2) == [o] + [o];
    hide WantedOfTasks, OfTasks, ReadsBack, RepoStoredOk;
    OnePerWantedVtxo(w, repo, ids, 2);
    assert |txs| == 2;
    SubmissionIsSound(w, cfg, repo, leaves, ids, txs, 0);
    SubmissionIsSound(w, cfg, repo, leaves, ids, txs, 1);
  }
}
