/** What a gate check, or the gate of LockNode and UnlockNode, has seen of the wallet before it lets a call through. */
module GateChecks {
  import opened UnlockGate

  /** The wallet was set up and unlocked at some moment before i. */
  predicate UnlockedAt(run: seq<State>, i: nat, a: nat)
    requires i < |run|
  {
    a < i && run[a].initialized && !run[a].wallet.locked
  }

  /** And its sync event was there after that. */
  predicate SyncedAt(run: seq<State>, i: nat, a: nat, b: nat)
    requires i < |run|
  {
    b < i && UnlockedAt(run, b, a) && run[b].wallet.syncEvent
  }

  /** And it was ready after that. */
  predicate ReadyAt(run: seq<State>, i: nat, a: nat, b: nat, c: nat)
    requires i < |run|
  {
    c < i && SyncedAt(run, c, a, b) && run[c].wallet.ready
  }

  /** At some moment one of the conditions did not hold. */
  predicate ShutAt(run: seq<State>, i: nat, a: nat)
    requires i < |run|
  {
    a < i && (!run[a].initialized || run[a].wallet.locked || !run[a].wallet.syncEvent || !run[a].wallet.ready)
  }

  ghost predicate Saw(run: seq<State>, i: nat, pc: GatePc)
    requires i < |run|
  {
    match pc
    case GateStart => true
    case GateSawUnlocked => exists a: nat :: UnlockedAt(run, i, a)
    case GateSawSynced => exists a: nat, b: nat :: b < i && SyncedAt(run, i, a, b)
    case GatePassed => exists a: nat, b: nat, c: nat :: b < c < i && ReadyAt(run, i, a, b, c)
    case GateRefused => exists a: nat :: ShutAt(run, i, a)
  }

  lemma SawLater(run: seq<State>, i: nat, pc: GatePc)
    requires i + 1 < |run| && Saw(run, i, pc)
    ensures Saw(run, i + 1, pc)
  {
    match pc
    case GateStart =>
    case GateSawUnlocked =>
      var a: nat :| UnlockedAt(run, i, a);
      assert UnlockedAt(run, i + 1, a);
    case GateSawSynced =>
      var a: nat, b: nat :| b < i && SyncedAt(run, i, a, b);
      assert SyncedAt(run, i + 1, a, b);
    case GatePassed =>
      var a: nat, b: nat, c: nat :| b < c < i && ReadyAt(run, i, a, b, c);
      assert ReadyAt(run, i + 1, a, b, c);
    case GateRefused =>
      var a: nat :| ShutAt(run, i, a);
      assert ShutAt(run, i + 1, a);
  }

  lemma SeesUnlocked(run: seq<State>, i: nat)
    requires i + 1 < |run| && run[i].initialized && !run[i].wallet.locked
    ensures Saw(run, i + 1, GateSawUnlocked)
  {
    assert UnlockedAt(run, i + 1, i);
  }

  lemma SeesEvent(run: seq<State>, i: nat)
    requires i + 1 < |run| && Saw(run, i, GateSawUnlocked) && run[i].wallet.syncEvent
    ensures Saw(run, i + 1, GateSawSynced)
  {
    var a: nat :| UnlockedAt(run, i, a);
    assert SyncedAt(run, i + 1, a, i);
  }

  lemma SeesReady(run: seq<State>, i: nat)
    requires i + 1 < |run| && Saw(run, i, GateSawSynced) && run[i].wallet.ready
    ensures Saw(run, i + 1, GatePassed)
  {
    var a: nat, b: nat :| b < i && SyncedAt(run, i, a, b);
    assert ReadyAt(run, i + 1, a, b, i);
  }

  lemma SeesShut(run: seq<State>, i: nat)
    requires i + 1 < |run|
    requires !run[i].initialized || run[i].wallet.locked || !run[i].wallet.syncEvent || !run[i].wallet.ready
    ensures Saw(run, i + 1, GateRefused)
  {
    assert ShutAt(run, i + 1, i);
  }

  lemma SawNext(run: seq<State>, i: nat, g: nat)
    requires i + 1 < |run| && g in run[i].gates && Saw(run, i, run[i].gates[g])
    requires run[i + 1] == GateNext(run[i], g)
    ensures g in run[i + 1].gates && Saw(run, i + 1, run[i + 1].gates[g])
  {
    hide Saw;
    var s := run[i];
    match s.gates[g]
    case GateStart =>
      if s.initialized && !s.wallet.locked { SeesUnlocked(run, i); } else { SeesShut(run, i); }
    case GateSawUnlocked =>
      if s.wallet.syncEvent { SeesEvent(run, i); } else { SeesShut(run, i); }
    case GateSawSynced =>
      if s.wallet.ready { SeesReady(run, i); } else { SeesShut(run, i); }
    case _ => SawLater(run, i, s.gates[g]);
  }

  /** A step moves the check it belongs to, and no other. */
  lemma OtherGates(s: State, step: Step, g: nat)
    requires Enabled(s, step) && g in After(s, step).gates && step != GateStep(g)
    ensures if g in s.gates then After(s, step).gates[g] == s.gates[g] else After(s, step).gates[g] == GateStart
  {
    hide UnlockTo, UnlockWrites, LockTo, LockWrites, FinTo, FinWrites, Close, Send, Make;
  }

  lemma {:induction false} ChecksSaw(run: seq<State>, steps: seq<Step>, i: nat, g: nat)
    requires IsRun(run, steps) && i < |run| && g in run[i].gates
    ensures Saw(run, i, run[i].gates[g])
  {
    hide After, Enabled, Saw, GateNext;
    if i > 0 {
      var h := i - 1;
      OneStep(run, steps, h);
      if steps[h] == GateStep(g) {
        GateStepIs(run[h], g);
        ChecksSaw(run, steps, h, g);
        SawNext(run, h, g);
      } else {
        OtherGates(run[h], steps[h], g);
        if g in run[h].gates {
          ChecksSaw(run, steps, h, g);
          SawLater(run, h, run[i].gates[g]);
        } else {
          StartSaw(run, i);
        }
      }
    }
  }

  lemma StartSaw(run: seq<State>, i: nat)
    requires i < |run|
    ensures Saw(run, i, GateStart)
  {}

  lemma GateStepIs(s: State, g: nat)
    requires Enabled(s, GateStep(g))
    ensures g in s.gates && After(s, GateStep(g)) == GateNext(s, g)
  {
    hide GateNext;
  }

  /**
   * A check that has passed saw the wallet set up and unlocked, then its sync event, then its readiness, at three
   * moments in that order; one that was refused met a moment at which one of these was missing.
   */
  lemma PassedGateSawAll(run: seq<State>, steps: seq<Step>, i: nat, g: nat)
    requires IsRun(run, steps) && i < |run| && g in run[i].gates
    ensures run[i].gates[g] == GatePassed ==> exists a: nat, b: nat, c: nat ::
      b < c < i && ReadyAt(run, i, a, b, c)
    ensures run[i].gates[g] == GateRefused ==> exists a: nat :: ShutAt(run, i, a)
  {
    ChecksSaw(run, steps, i, g);
  }

  // ---- The gates of LockNode and UnlockNode ----

  /** LockNode past its gate. */
  predicate Locking(c: Call) {
    c.DoLock? || Closing(c)
  }

  ghost predicate CallSaw(run: seq<State>, i: nat, c: Call)
    requires i < |run|
  {
    && (c == LockSawUnlocked ==> Saw(run, i, GateSawUnlocked))
    && (c == LockSawSynced ==> Saw(run, i, GateSawSynced))
    && (Locking(c) ==> Saw(run, i, GatePassed))
    && (Unlocking(c) ==> WasLocked(run, i))
  }

  /** UnlockNode past its gate. */
  predicate Unlocking(c: Call) {
    c.ClearReady? || c.DoUnlock? || Opening(c)
  }

  /** The wallet was set up and locked at some moment before i. */
  predicate LockedAt(run: seq<State>, i: nat, a: nat)
    requires i < |run|
  {
    a < i && run[a].initialized && run[a].wallet.locked
  }

  ghost predicate WasLocked(run: seq<State>, i: nat)
    requires i < |run|
  {
    exists a: nat :: LockedAt(run, i, a)
  }

  lemma LockedLater(run: seq<State>, i: nat)
    requires i + 1 < |run| && WasLocked(run, i)
    ensures WasLocked(run, i + 1)
  {
    var a: nat :| LockedAt(run, i, a);
    assert LockedAt(run, i + 1, a);
  }

  lemma CallSawLater(run: seq<State>, i: nat, c: Call)
    requires i + 1 < |run| && CallSaw(run, i, c)
    ensures CallSaw(run, i + 1, c)
  {
    hide Saw, WasLocked;
    if c == LockSawUnlocked { SawLater(run, i, GateSawUnlocked); }
    if c == LockSawSynced { SawLater(run, i, GateSawSynced); }
    if Locking(c) { SawLater(run, i, GatePassed); }
    if Unlocking(c) { LockedLater(run, i); }
  }

  lemma UnlockSees(run: seq<State>, i: nat, ok: bool)
    requires i + 1 < |run| && CallSaw(run, i, run[i].call)
    ensures CallSaw(run, i + 1, UnlockTo(run[i].initialized, run[i].wallet, run[i].call, ok))
  {
    hide CallSaw;
    CallSawLater(run, i, run[i].call);
    if run[i].call == UnlockCalled {
      UnlockCallSees(run, i, ok);
    } else {
      UnlockGoesOn(run, i + 1, run[i].initialized, run[i].wallet, run[i].call, ok);
    }
  }

  lemma UnlockCallSees(run: seq<State>, i: nat, ok: bool)
    requires i + 1 < |run|
    ensures CallSaw(run, i + 1, UnlockTo(run[i].initialized, run[i].wallet, UnlockCalled, ok))
  {
    if run[i].initialized && run[i].wallet.locked { assert LockedAt(run, i + 1, i); }
  }

  lemma UnlockGoesOn(run: seq<State>, i: nat, initialized: bool, w: Wallet, c: Call, ok: bool)
    requires i < |run| && CallSaw(run, i, c) && c != UnlockCalled
    ensures CallSaw(run, i, UnlockTo(initialized, w, c, ok))
  {
    hide Saw, WasLocked;
  }

  lemma LockSees(run: seq<State>, i: nat, ok: bool)
    requires i + 1 < |run| && CallSaw(run, i, run[i].call)
    ensures CallSaw(run, i + 1, LockTo(run[i].initialized, run[i].wallet, run[i].call, ok))
  {
    hide CallSaw;
    var c := run[i].call;
    CallSawLater(run, i, c);
    if c == LockCalled || c == LockSawUnlocked || c == LockSawSynced {
      LockGateSees(run, i, ok);
    } else {
      LockGoesOn(run, i + 1, run[i].initialized, run[i].wallet, c, ok);
    }
  }

  lemma LockGateSees(run: seq<State>, i: nat, ok: bool)
    requires i + 1 < |run| && CallSaw(run, i, run[i].call)
    requires run[i].call == LockCalled || run[i].call == LockSawUnlocked || run[i].call == LockSawSynced
    ensures CallSaw(run, i + 1, LockTo(run[i].initialized, run[i].wallet, run[i].call, ok))
  {
    hide Saw, WasLocked;
    var s := run[i];
    if s.call == LockCalled && s.initialized && !s.wallet.locked { SeesUnlocked(run, i); }
    if s.call == LockSawUnlocked && s.wallet.syncEvent { SeesEvent(run, i); }
    if s.call == LockSawSynced && s.wallet.ready { SeesReady(run, i); }
  }

  lemma LockGoesOn(run: seq<State>, i: nat, initialized: bool, w: Wallet, c: Call, ok: bool)
    requires i < |run| && CallSaw(run, i, c)
    requires c != LockCalled && c != LockSawUnlocked && c != LockSawSynced
    ensures CallSaw(run, i, LockTo(initialized, w, c, ok))
  {
    hide Saw, WasLocked;
  }

  /** Steps other than those of the call in progress leave it where it is, or begin one. */
  lemma OtherCalls(s: State, step: Step)
    requires Enabled(s, step) && !step.UnlockStep? && !step.LockStep?
    ensures var c := After(s, step).call; c == s.call || c == UnlockCalled || c == LockCalled
  {
    hide UnlockTo, UnlockWrites, LockTo, LockWrites, FinTo, FinWrites, Close, Send, Make;
  }

  lemma CallSteps(s: State, step: Step, ok: bool)
    requires Enabled(s, step)
    ensures step == UnlockStep(ok) ==> After(s, step).call == UnlockTo(s.initialized, s.wallet, s.call, ok)
    ensures step == LockStep(ok) ==> After(s, step).call == LockTo(s.initialized, s.wallet, s.call, ok)
  {
    hide UnlockTo, UnlockWrites, LockTo, LockWrites, FinTo, FinWrites, Close, Send, Make;
  }

  lemma NothingSeen(run: seq<State>, i: nat, c: Call)
    requires i < |run| && (c == Idle || c == UnlockCalled || c == LockCalled)
    ensures CallSaw(run, i, c)
  {}

  lemma {:induction false} CallsSaw(run: seq<State>, steps: seq<Step>, i: nat)
    requires IsRun(run, steps) && i < |run|
    ensures CallSaw(run, i, run[i].call)
  {
    hide After, Enabled, CallSaw, UnlockTo, LockTo;
    if i == 0 {
      NothingSeen(run, 0, run[0].call);
    } else {
      var h := i - 1;
      OneStep(run, steps, h);
      CallsSaw(run, steps, h);
      match steps[h]
      case UnlockStep(ok) =>
        CallSteps(run[h], steps[h], ok);
        UnlockSees(run, h, ok);
      case LockStep(ok) =>
        CallSteps(run[h], steps[h], ok);
        LockSees(run, h, ok);
      case _ =>
        OtherCalls(run[h], steps[h]);
        if run[i].call == run[h].call {
          CallSawLater(run, h, run[i].call);
        } else {
          NothingSeen(run, i, run[i].call);
        }
    }
  }

  /**
   * LockNode takes the wallet apart only after it saw it set up and unlocked, synced and ready, and UnlockNode opens it
   * only after it saw it set up and locked.
   */
  lemma CallsPassTheirGates(run: seq<State>, steps: seq<Step>, i: nat)
    requires IsRun(run, steps) && i < |run|
    ensures Locking(run[i].call) ==> exists a: nat, b: nat, c: nat :: b < c < i && ReadyAt(run, i, a, b, c)
    ensures Unlocking(run[i].call) ==> exists a: nat :: LockedAt(run, i, a)
  {
    CallsSaw(run, steps, i);
  }
}
