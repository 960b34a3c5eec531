/** What the sessions, the jobs and the monitor of a run have done, told by its steps. */
module DelegateSessions {
  import opened Tasks
  import opened DelegateProtocol
  import opened DelegateSafety
  import opened DelegateRuns

  // ---- Registered intents ----

  predicate Remembers(w: World, step: Step, hash: string) {
    step.RememberStep? && w.hash(step.intentID) == hash
  }

  predicate Forgets(w: World, step: Step, hash: string) {
    step.ForgetStep? && step.next < |step.selected| && w.hash(step.selected[step.next].intentID) == hash
  }

  /** What a step does to a registered intent. */
  ghost predicate IntentStep(w: World, s: State, s': State, step: Step, hash: string) {
    && (hash in s'.intents <==>
          (Remembers(w, step, hash) || (hash in s.intents && !Forgets(w, step, hash) && !step.RestartStep?)))
    && (Remembers(w, step, hash) ==>
          hash in s'.intents && s'.intents[hash] == Registered(step.task.id, step.intentID, step.task.intent.inputs))
    && (hash in s'.intents && !Remembers(w, step, hash) ==> hash in s.intents && s'.intents[hash] == s.intents[hash])
  }

  predicate Registry(step: Step) {
    step.RememberStep? || step.ForgetStep? || step.RestartStep?
  }

  lemma QuietSubmissionIntents(w: World, s: State, s': State, step: Step)
    requires Takes(w, s, s', step) && SubmissionStep(step)
    ensures s'.intents == s.intents
  {
    hide Settle, PendingByInputs, NewTask;
    match step
    case _ =>
  }

  lemma QuietIntents(w: World, s: State, s': State, step: Step)
    requires Takes(w, s, s', step) && !SubmissionStep(step) && !Registry(step)
    ensures s'.intents == s.intents
  {
    hide Settle, PendingByInputs, Select, SelectionEvents, AllPending, TaskIds, NewTask;
    match step
    case _ =>
  }

  lemma RegistryIntents(w: World, s: State, s': State, step: Step, hash: string)
    requires Takes(w, s, s', step) && Registry(step)
    ensures IntentStep(w, s, s', step, hash)
  {
    hide AllPending;
    match step
    case _ =>
  }

  lemma SameIntents(w: World, s: State, s': State, step: Step, hash: string)
    requires s'.intents == s.intents && !Registry(step)
    ensures IntentStep(w, s, s', step, hash)
  {}

  /**
   * An intent is registered when the server has accepted it, with the id and the inputs of its task, and stays so until
   * a session forgets it or the process restarts.
   */
  lemma IntentsChangeSo(w: World, s: State, s': State, step: Step, hash: string)
    requires Takes(w, s, s', step)
    ensures IntentStep(w, s, s', step, hash)
  {
    hide Takes, IntentStep;
    if Registry(step) {
      RegistryIntents(w, s, s', step, hash);
    } else {
      if SubmissionStep(step) { QuietSubmissionIntents(w, s, s', step); } else { QuietIntents(w, s, s', step); }
      SameIntents(w, s, s', step, hash);
    }
  }

  // ---- Selection ----

  /** A session selects, for each hash that the event names and in that order, the intent registered under it. */
  lemma {:induction false} SelectIsRegistered(intents: map<string, Registered>, hashes: seq<string>, more: seq<string>,
                                              hash: string)
    ensures Select(intents, hashes + more) == Select(intents, hashes) + Select(intents, more)
    ensures Select(intents, [hash]) == if hash in intents then [intents[hash]] else []
  {
    if hashes == [] {
      assert hashes + more == more;
    } else {
      SelectIsRegistered(intents, hashes[1..], more, hash);
      assert (hashes + more)[1..] == hashes[1..] + more;
    }
    assert [hash][1..] == [];
  }

  // ---- Forgetting ----

  /** An intent that is registered now was registered after step f. */
  ghost predicate GoneSince(w: World, run: seq<State>, steps: seq<Step>, f: nat, i: nat, hash: string)
    requires i <= |steps| < |run|
  {
    hash in run[i].intents ==> exists j: nat :: f < j < i && Remembers(w, steps[j], hash)
  }

  /** The batch was finalized in step f, and the first n selected intents have been forgotten since. */
  ghost predicate ForgottenSince(w: World, run: seq<State>, steps: seq<Step>, f: nat, i: nat, t: nat, session: nat,
                                 selected: seq<Registered>, txid: string, n: nat)
    requires i <= |steps| < |run|
  {
    && f < i && steps[f] == BatchFinalizedStep(t, session, selected, txid) && n <= |selected|
    && forall k :: 0 <= k < n ==> GoneSince(w, run, steps, f, i, w.hash(selected[k].intentID))
  }

  ghost predicate Forgot(w: World, run: seq<State>, steps: seq<Step>, i: nat, t: nat, th: Thread)
    requires i <= |steps| < |run|
  {
    match th
    case Forgetting(session, selected, txid, next) =>
      exists f: nat :: ForgottenSince(w, run, steps, f, i, t, session, selected, txid, next)
    case Completing(session, selected, txid) =>
      exists f: nat :: ForgottenSince(w, run, steps, f, i, t, session, selected, txid, |selected|)
    case _ => true
  }

  lemma GoneIs(w: World, run: seq<State>, steps: seq<Step>, f: nat, i: nat, hash: string)
    requires i <= |steps| < |run| && GoneSince(w, run, steps, f, i, hash) && hash in run[i].intents
    ensures exists j: nat :: f < j < i && Remembers(w, steps[j], hash)
  {}

  lemma GoneLater(w: World, run: seq<State>, steps: seq<Step>, f: nat, i: nat, hash: string)
    requires |run| == |steps| + 1 && f < i < |steps| && GoneSince(w, run, steps, f, i, hash)
    requires IntentStep(w, run[i], run[i + 1], steps[i], hash)
    ensures GoneSince(w, run, steps, f, i + 1, hash)
  {}

  lemma ForgottenLater(w: World, run: seq<State>, steps: seq<Step>, f: nat, i: nat, t: nat, session: nat,
                       selected: seq<Registered>, txid: string, n: nat)
    requires |run| == |steps| + 1 && i < |steps|
    requires ForgottenSince(w, run, steps, f, i, t, session, selected, txid, n)
    requires Takes(w, run[i], run[i + 1], steps[i])
    ensures ForgottenSince(w, run, steps, f, i + 1, t, session, selected, txid, n)
  {
    hide Takes, GoneSince, IntentStep;
    forall k | 0 <= k < n ensures GoneSince(w, run, steps, f, i + 1, w.hash(selected[k].intentID)) {
      IntentsChangeSo(w, run[i], run[i + 1], steps[i], w.hash(selected[k].intentID));
      GoneLater(w, run, steps, f, i, w.hash(selected[k].intentID));
    }
  }

  lemma ForgotStays(w: World, run: seq<State>, steps: seq<Step>, i: nat, t: nat, th: Thread)
    requires |run| == |steps| + 1 && i < |steps| && Takes(w, run[i], run[i + 1], steps[i])
    requires Forgot(w, run, steps, i, t, th)
    ensures Forgot(w, run, steps, i + 1, t, th)
  {
    hide Takes, ForgottenSince;
    if th.Forgetting? {
      var f: nat :| ForgottenSince(w, run, steps, f, i, t, th.session, th.selected, th.txid, th.next);
      ForgottenLater(w, run, steps, f, i, t, th.session, th.selected, th.txid, th.next);
    } else if th.Completing? {
      var f: nat :| ForgottenSince(w, run, steps, f, i, t, th.session, th.selected, th.txid, |th.selected|);
      ForgottenLater(w, run, steps, f, i, t, th.session, th.selected, th.txid, |th.selected|);
    }
  }

  /** A step of forgetting removes the next intent, or ends when all are removed. */
  lemma ForgetTells(w: World, run: seq<State>, steps: seq<Step>, i: nat, t: nat, session: nat,
                    selected: seq<Registered>, txid: string, next: nat)
    requires |run| == |steps| + 1 && i < |steps| && steps[i] == ForgetStep(t, session, selected, txid, next)
    requires Takes(w, run[i], run[i + 1], steps[i])
    requires Forgot(w, run, steps, i, t, Forgetting(session, selected, txid, next))
    ensures t in run[i + 1].threads && Forgot(w, run, steps, i + 1, t, run[i + 1].threads[t])
  {
    hide GoneSince, ForgottenSince;
    ForgetIs(w, run[i], run[i + 1], t, session, selected, txid, next);
    hide Takes;
    var f: nat :| ForgottenSince(w, run, steps, f, i, t, session, selected, txid, next);
    ForgottenLater(w, run, steps, f, i, t, session, selected, txid, next);
    OneMoreForgotten(w, run, steps, f, i, t, session, selected, txid, next);
  }

  lemma ForgetIs(w: World, s: State, s': State, t: nat, session: nat, selected: seq<Registered>, txid: string,
                 next: nat)
    requires Takes(w, s, s', ForgetStep(t, session, selected, txid, next))
    ensures t in s'.threads
    ensures s'.threads[t] == if next < |selected| then Forgetting(session, selected, txid, next + 1)
                             else Completing(session, selected, txid)
    ensures next < |selected| ==> w.hash(selected[next].intentID) !in s'.intents
  {}

  lemma OneMoreForgotten(w: World, run: seq<State>, steps: seq<Step>, f: nat, i: nat, t: nat, session: nat,
                         selected: seq<Registered>, txid: string, next: nat)
    requires |run| == |steps| + 1 && i < |steps|
    requires ForgottenSince(w, run, steps, f, i + 1, t, session, selected, txid, next)
    requires next < |selected| ==> w.hash(selected[next].intentID) !in run[i + 1].intents
    ensures next < |selected| ==> ForgottenSince(w, run, steps, f, i + 1, t, session, selected, txid, next + 1)
    ensures next >= |selected| ==> ForgottenSince(w, run, steps, f, i + 1, t, session, selected, txid, |selected|)
  {}

  lemma FinalizedTells(w: World, run: seq<State>, steps: seq<Step>, i: nat, t: nat, session: nat,
                       selected: seq<Registered>, txid: string)
    requires |run| == |steps| + 1 && i < |steps| && steps[i] == BatchFinalizedStep(t, session, selected, txid)
    ensures Forgot(w, run, steps, i + 1, t, Forgetting(session, selected, txid, 0))
  {
    assert ForgottenSince(w, run, steps, i, i + 1, t, session, selected, txid, 0);
  }

  lemma ForgotNext(w: World, run: seq<State>, steps: seq<Step>, i: nat, t: nat)
    requires IsRunOf(w, run, steps) && i < |steps| && t in run[i + 1].threads
    requires forall x :: x in run[i].threads ==> Forgot(w, run, steps, i, x, run[i].threads[x])
    ensures Forgot(w, run, steps, i + 1, t, run[i + 1].threads[t])
  {
    hide Takes, Inv, Forgot;
    StepOf(w, run, steps, i);
    StepPlaces(w, run[i], run[i + 1], steps[i], t);
    var th := run[i + 1].threads[t];
    if t in run[i].threads && th == run[i].threads[t] && !steps[i].RestartStep? {
      ForgotStays(w, run, steps, i, t, th);
    } else if steps[i].BatchFinalizedStep? {
      FinalizedTells(w, run, steps, i, t, steps[i].session, steps[i].selected, steps[i].txid);
    } else if steps[i].ForgetStep? {
      ForgetTells(w, run, steps, i, t, steps[i].session, steps[i].selected, steps[i].txid, steps[i].next);
    } else {
      OthersForgetNothing(w, run, steps, i + 1, t, steps[i], th);
    }
  }

  lemma OthersForgetNothing(w: World, run: seq<State>, steps: seq<Step>, i: nat, t: nat, step: Step, th: Thread)
    requires i <= |steps| < |run| && Leads(step, th) && !step.BatchFinalizedStep? && !step.ForgetStep?
    ensures Forgot(w, run, steps, i, t, th)
  {
    hide ForgottenSince;
  }

  lemma {:induction false} RunForgets(w: World, run: seq<State>, steps: seq<Step>, i: nat, t: nat)
    requires IsRunOf(w, run, steps) && i <= |steps| && t in run[i].threads
    ensures Forgot(w, run, steps, i, t, run[i].threads[t])
  {
    if i > 0 {
      hide Takes, Forgot;
      var h := i - 1;
      forall x | x in run[h].threads ensures Forgot(w, run, steps, h, x, run[h].threads[x]) {
        RunForgets(w, run, steps, h, x);
      }
      ForgotNext(w, run, steps, i - 1, t);
    }
  }

  /**
   * When a session comes to complete its tasks, its batch has been finalized, and since then each of the intents it
   * had selected has been removed: one of them is registered now only if it was registered anew after that.
   */
  lemma FinalizedIntentsAreForgotten(w: World, run: seq<State>, steps: seq<Step>, i: nat, t: nat)
    returns (f: nat)
    requires IsRunOf(w, run, steps) && i <= |steps| && t in run[i].threads && run[i].threads[t].Completing?
    ensures var th := run[i].threads[t];
      f < i && steps[f] == BatchFinalizedStep(t, th.session, th.selected, th.txid)
    ensures forall r :: r in run[i].threads[t].selected && w.hash(r.intentID) in run[i].intents ==>
      exists j: nat :: f < j < i && Remembers(w, steps[j], w.hash(r.intentID))
  {
    hide Takes, GoneSince;
    var th := run[i].threads[t];
    RunForgets(w, run, steps, i, t);
    f :| ForgottenSince(w, run, steps, f, i, t, th.session, th.selected, th.txid, |th.selected|);
    forall r | r in th.selected && w.hash(r.intentID) in run[i].intents
      ensures exists j: nat :: f < j < i && Remembers(w, steps[j], w.hash(r.intentID))
    {
      var k :| 0 <= k < |th.selected| && th.selected[k] == r;
      GoneIs(w, run, steps, f, i, w.hash(th.selected[k].intentID));
    }
  }
}
