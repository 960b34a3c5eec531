/** Runs from the start that reach the states in which unlocking and locking go wrong. */
module UnlockRuns {
  import opened Results
  import opened UnlockGate

  ghost predicate Reachable(s: State) {
    exists run: seq<State>, steps: seq<Step> :: EndsIn(run, steps, s)
  }

  predicate EndsIn(run: seq<State>, steps: seq<Step>, s: State) {
    IsRun(run, steps) && run[|steps|] == s
  }

  function Start(enabled: bool): State {
    State(enabled, false, Wallet(true, false, false, false, false, false, false, false), Channels(None, 0, {}, false),
          None, Idle, [], [], map[])
  }

  lemma Begin(enabled: bool)
    ensures Reachable(Start(enabled))
  {
    assert EndsIn([Start(enabled)], [], Start(enabled));
  }

  lemma Take(s: State, step: Step) returns (s': State)
    requires Reachable(s) && Enabled(s, step)
    ensures Reachable(s') && s' == After(s, step)
  {
    hide Enabled, After, Init;
    var run: seq<State>, steps: seq<Step> :| EndsIn(run, steps, s);
    s' := After(s, step);
    assert EndsIn(run + [s'], steps + [step], s');
  }

  /**
   * Some places in the run of a first unlock: before the configuration is read, and when both goroutines are spawned.
   */
  function Opened(enabled: bool): State {
    State(enabled, true, Wallet(false, false, false, false, false, false, true, false), Channels(None, 0, {}, false),
          None, ReadConfig, [], [], map[])
  }

  function Spawned(enabled: bool): State {
    Opened(enabled).(syncCh := Channels(Some(0), 1, {}, false), call := Idle, syncs := [SyncStart],
                     fins := [FinWaiting])
  }

  /** Synced, with the goroutine that finishes the unlock about to load the key or to migrate. */
  function Synced(enabled: bool, ok: bool): State {
    Spawned(enabled).(wallet := Wallet(false, false, true, ok, false, false, true, false), syncs := [SyncDone(ok)],
                      fins := [if enabled then FinDump else FinMigrate])
  }

  lemma ReachOpened(enabled: bool)
    ensures Reachable(Opened(enabled))
  {
    hide Reachable, LockNext, SyncNext, FinNext, GateNext;
    Begin(enabled);
    var s := Take(Start(enabled), SetupStep);
    s := Take(s, CallUnlockStep);
    s := Take(s, UnlockStep(true));
    s := Take(s, UnlockStep(true));
    s := Take(s, UnlockStep(true));
    assert s == Opened(enabled);
  }

  lemma ReachSpawned(enabled: bool)
    ensures Reachable(Spawned(enabled))
  {
    hide Reachable, LockNext, SyncNext, FinNext, GateNext;
    ReachOpened(enabled);
    var s := Take(Opened(enabled), UnlockStep(true));
    s := Take(s, UnlockStep(true));
    s := Take(s, UnlockStep(true));
    s := Take(s, UnlockStep(true));
    s := Take(s, UnlockStep(true));
    assert s == Spawned(enabled);
  }

  lemma ReachSynced(enabled: bool, ok: bool)
    ensures Reachable(Synced(enabled, ok))
  {
    hide Reachable, UnlockNext, LockNext, GateNext;
    ReachSpawned(enabled);
    var s := Take(Spawned(enabled), SyncStep(0, ok));
    s := Take(s, SyncStep(0, ok));
    s := Take(s, SyncStep(0, ok));
    s := Take(s, SyncStep(0, ok));
    s := Take(s, SyncStep(0, ok));
    s := Take(s, FinStep(0, true));
    s := Take(s, FinStep(0, true));
    assert s == Synced(enabled, ok);
  }

  /** A stuck wallet can be reached by an unlock that fails to read the configuration. */
  lemma StuckAfterConfig(enabled: bool) returns (s: State)
    ensures Reachable(s) && Stuck(s) && s.delegateEnabled == enabled
  {
    hide Reachable;
    ReachOpened(enabled);
    s := Take(Opened(enabled), UnlockStep(false));
  }

  /** The unwinding that follows when loading the delegate key fails: half-way there, and before the re-lock. */
  function Unloaded(): State {
    Synced(true, true).(wallet := Wallet(false, false, true, true, false, false, false, false), fins := [UnwindReady])
  }

  function Relocking(): State {
    Unloaded().(wallet := Wallet(false, false, false, true, false, false, false, false),
                syncCh := Channels(None, 1, {0}, false), fins := [UnwindLock])
  }

  lemma ReachUnloaded()
    ensures Reachable(Unloaded())
  {
    hide Reachable, UnlockNext, LockNext, SyncNext, GateNext;
    ReachSynced(true, true);
    var s := Take(Synced(true, true), FinStep(0, false));
    s := Take(s, FinStep(0, true));
    s := Take(s, FinStep(0, true));
    s := Take(s, FinStep(0, true));
    assert s == Unloaded();
  }

  lemma ReachRelock()
    ensures Reachable(Relocking())
  {
    hide Reachable, UnlockNext, LockNext, SyncNext, GateNext;
    ReachUnloaded();
    var s := Take(Unloaded(), FinStep(0, true));
    s := Take(s, FinStep(0, true));
    s := Take(s, FinStep(0, true));
    assert s == Relocking();
  }

  /** And by an unwinding whose re-lock fails. */
  lemma StuckAfterRelock() returns (s: State)
    ensures Reachable(s) && Stuck(s)
  {
    hide Reachable;
    ReachRelock();
    s := Take(Relocking(), FinStep(0, false));
  }

  /** A ready wallet, LockNode past its gate, and a check that has seen the wallet unlocked and synced. */
  function Ready(ok: bool): State {
    Synced(true, ok).(wallet := Wallet(false, true, true, ok, true, true, true, true), fins := [FinSanitize])
  }

  function LockingBesideCheck(): State {
    Ready(true).(call := DoLock, gates := map[0 := GateSawSynced])
  }

  lemma ReachReady(ok: bool)
    ensures Reachable(Ready(ok))
  {
    hide Reachable, UnlockNext, LockNext, SyncNext, GateNext;
    ReachSynced(true, ok);
    var s := Take(Synced(true, ok), FinStep(0, true));
    s := Take(s, FinStep(0, true));
    s := Take(s, FinStep(0, true));
    s := Take(s, FinStep(0, true));
    s := Take(s, FinStep(0, true));
    assert s == Ready(ok);
  }

  /** The gate opens after a sync that failed. */
  lemma GateOpensAfterFailedSync() returns (s: State)
    ensures Reachable(s) && s.wallet.ready && !s.wallet.locked && !s.wallet.synced && s.syncs == [SyncDone(false)]
  {
    ReachReady(false);
    s := Ready(false);
  }

  lemma ReachLocking()
    ensures Reachable(LockingBesideCheck())
  {
    hide Reachable;
    ReachReady(true);
    var s := Take(Ready(true), CheckStep(0));
    s := Take(s, GateStep(0));
    s := Take(s, GateStep(0));
    s := Take(s, CallLockStep);
    s := Take(s, LockStep(true));
    s := Take(s, LockStep(true));
    s := Take(s, LockStep(true));
    assert s == LockingBesideCheck();
  }

  /** A check does pass after LockNode dropped the key. */
  lemma GatePassesWithoutKey() returns (s: State)
    ensures Reachable(s) && 0 in s.gates && s.gates[0] == GatePassed
    ensures s.delegateEnabled && s.wallet.locked && !s.wallet.key
  {
    hide Reachable;
    ReachLocking();
    s := Take(LockingBesideCheck(), LockStep(true));
    s := Take(s, LockStep(true));
    s := Take(s, LockStep(true));
    s := Take(s, GateStep(0));
  }
}
