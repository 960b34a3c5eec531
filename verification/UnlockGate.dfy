/**
 * The unlock and lock lifecycle of the wallet service, with a program counter for every goroutine. The public unlock
 * and lock calls are serialised; the goroutines an unlock leaves behind, and the gate checks of other calls, interleave
 * with everything. A step is one read or write of a shared field, one channel operation, or one call into the wallet.
 */
module UnlockGate {
  import opened Results

  /** Where UnlockNode or LockNode is, at most one of which is in progress. */
  datatype Call =
    | Idle
    // UnlockNode
    | UnlockCalled | ClearReady | DoUnlock | ReadConfig | Subscribe | MakeChannel | SpawnSync | SpawnFinalize
    // LockNode: its gate, and its body
    | LockCalled | LockSawUnlocked | LockSawSynced
    | DoLock | StopDelegate | ClearKey | StopServices | LowerReady | DropEvent | CloseChannel

  /** The goroutine that waits for the sync event; ok is what the event it got says: synced, or an error. */
  datatype SyncPc =
    | SyncStart | SyncWaiting | SyncGot(ok: bool) | SyncSending(ok: bool) | SyncReleasing(ok: bool) | SyncDone(ok: bool)

  /** The goroutine that finishes an unlock, and unwindFailedUnlock in it. */
  datatype FinPc =
    | FinWaiting | FinSynced | FinDump | FinDecode | FinDelegate | FinMigrate | FinOpen | FinSanitize | FinDone
    | UnwindServices | UnwindDelegate | UnwindKey | UnwindReady | UnwindEvent | UnwindChannel | UnwindLock

  /** A gate check, isInitializedAndUnlocked, of some other call. */
  datatype GatePc = GateStart | GateSawUnlocked | GateSawSynced | GatePassed | GateRefused

  /**
   * The shared fields: whether the wallet is locked, walletReady, whether syncEvent is stored, whether the event stored
   * last says synced, whether the delegate key is loaded, whether the delegate service runs, whether scheduler and
   * subscription run, and whether a migration was attempted since the last unlock.
   */
  datatype Wallet = Wallet(locked: bool, ready: bool, syncEvent: bool, synced: bool, key: bool, delegate: bool,
                           services: bool,
                           migrated: bool)

  /** syncCh, the number of channels made so far, and those that are closed. */
  datatype Channels = Channels(current: Option<nat>, made: nat, closed: set<nat>, panicked: bool)

  /** Unlocks are numbered: syncs[n] and fins[n] are the two goroutines of unlock n. */
  datatype State = State(delegateEnabled: bool, initialized: bool, wallet: Wallet, syncCh: Channels,
                         syncLock: Option<nat>,
                         call: Call, syncs: seq<SyncPc>, fins: seq<FinPc>, gates: map<nat, GatePc>)

  predicate Init(s: State) {
    && s.wallet == Wallet(true, false, false, false, false, false, false, false)
    && s.syncCh == Channels(None, 0, {}, false) && s.syncLock == None
    && s.call == Idle && s.syncs == [] && s.fins == [] && s.gates == map[]
  }

  // ---- Steps ----

  /** The next place of UnlockNode; ok is the answer of the wallet, store or indexer it calls. */
  function UnlockTo(initialized: bool, w: Wallet, call: Call, ok: bool): Call {
    match call
    case UnlockCalled => if !initialized || !w.locked then Idle else ClearReady
    case ClearReady => DoUnlock
    case DoUnlock => if ok then ReadConfig else Idle
    case ReadConfig => if ok then Subscribe else Idle
    case Subscribe => if ok then MakeChannel else Idle
    case MakeChannel => SpawnSync
    case SpawnSync => SpawnFinalize
    case SpawnFinalize => Idle
    case _ => call
  }

  /** What it does to the shared fields. */
  function UnlockWrites(w: Wallet, call: Call, ok: bool): Wallet {
    match call
    case ClearReady => w.(ready := false)
    case DoUnlock => if ok then w.(locked := false, services := true) else w
    case MakeChannel => w.(migrated := false)
    case _ => w
  }

  function Make(c: Channels): Channels {
    c.(current := Some(c.made), made := c.made + 1)
  }

  /** One step of UnlockNode. */
  function UnlockNext(s: State, ok: bool): State {
    s.(call := UnlockTo(s.initialized, s.wallet, s.call, ok), wallet := UnlockWrites(s.wallet, s.call, ok),
       syncCh := if s.call == MakeChannel then Make(s.syncCh) else s.syncCh,
       syncs := if s.call == SpawnSync then s.syncs + [SyncStart] else s.syncs,
       fins := if s.call == SpawnFinalize then s.fins + [FinWaiting] else s.fins)
  }

  /** close(s.syncCh) and forgetting it; closing a closed channel panics. */
  function Close(c: Channels): Channels {
    match c.current
    case None => c
    case Some(n) => Channels(None, c.made, c.closed + {n}, c.panicked || n in c.closed)
  }

  /** Sending on a closed channel panics. */
  function Send(c: Channels): Channels {
    match c.current
    case None => c
    case Some(n) => c.(panicked := c.panicked || n in c.closed)
  }

  /** The next place of LockNode. */
  function LockTo(initialized: bool, w: Wallet, call: Call, ok: bool): Call {
    match call
    case LockCalled => if !initialized || w.locked then Idle else LockSawUnlocked
    case LockSawUnlocked => if w.syncEvent then LockSawSynced else Idle
    case LockSawSynced => if w.ready then DoLock else Idle
    case DoLock => if ok then StopDelegate else Idle
    case StopDelegate => ClearKey
    case ClearKey => StopServices
    case StopServices => LowerReady
    case LowerReady => DropEvent
    case DropEvent => CloseChannel
    case CloseChannel => Idle
    case _ => call
  }

  /** What it does to the shared fields. */
  function LockWrites(w: Wallet, call: Call, ok: bool): Wallet {
    match call
    case DoLock => w.(locked := w.locked || ok)
    case StopDelegate => w.(delegate := false)
    case ClearKey => w.(key := false)
    case StopServices => w.(services := false)
    case LowerReady => w.(ready := false)
    case DropEvent => w.(syncEvent := false)
    case _ => w
  }

  /** One step of LockNode. */
  function LockNext(s: State, ok: bool): State {
    s.(call := LockTo(s.initialized, s.wallet, s.call, ok), wallet := LockWrites(s.wallet, s.call, ok),
       syncCh := if s.call == CloseChannel then Close(s.syncCh) else s.syncCh)
  }

  /** Whether the sync goroutine of unlock n can take its next step: the mutex and a nil channel block it. */
  predicate SyncEnabled(s: State, n: nat) {
    && n < |s.syncs| && !s.syncs[n].SyncDone?
    && (s.syncs[n] == SyncStart ==> s.syncLock == None)
    && (s.syncs[n].SyncSending? ==> s.syncCh.current != None)
  }

  function SyncNext(s: State, n: nat, ok: bool): State
    requires SyncEnabled(s, n)
  {
    match s.syncs[n]
    case SyncStart => s.(syncLock := Some(n), syncs := s.syncs[n := SyncWaiting])
    case SyncWaiting => s.(syncs := s.syncs[n := SyncGot(ok)])
    case SyncGot(k) => s.(wallet := s.wallet.(syncEvent := true, synced := k), syncs := s.syncs[n := SyncSending(k)])
    case SyncSending(k) => s.(syncCh := Send(s.syncCh), syncs := s.syncs[n := SyncReleasing(k)])
    case SyncReleasing(k) => s.(syncLock := None, syncs := s.syncs[n := SyncDone(k)])
  }

  predicate FinEnabled(s: State, n: nat) {
    n < |s.fins| && s.fins[n] != FinDone && (s.fins[n] == FinWaiting ==> n < |s.syncs| && s.syncs[n].SyncDone?)
  }

  /** The next place of the goroutine that finishes an unlock. */
  function FinTo(enabled: bool, w: Wallet, pc: FinPc, ok: bool): FinPc {
    match pc
    case FinWaiting => FinSynced
    case FinSynced => if !w.syncEvent then FinDone else if enabled then FinDump else FinMigrate
    case FinDump => if ok then FinDecode else UnwindServices
    case FinDecode => if ok then FinDelegate else UnwindServices
    case FinDelegate => FinMigrate
    case FinMigrate => FinOpen
    case FinOpen => FinSanitize
    case FinSanitize => FinDone
    case FinDone => FinDone
    case UnwindServices => UnwindDelegate
    case UnwindDelegate => UnwindKey
    case UnwindKey => UnwindReady
    case UnwindReady => UnwindEvent
    case UnwindEvent => UnwindChannel
    case UnwindChannel => UnwindLock
    case UnwindLock => FinDone
  }

  /** What it does to the shared fields. */
  function FinWrites(w: Wallet, pc: FinPc, ok: bool): Wallet {
    match pc
    case FinDecode => w.(key := w.key || ok)
    case FinDelegate => w.(delegate := true)
    case FinMigrate => w.(migrated := true)
    case FinOpen => w.(ready := true)
    case UnwindServices => w.(services := false)
    case UnwindDelegate => w.(delegate := false)
    case UnwindKey => w.(key := false)
    case UnwindReady => w.(ready := false)
    case UnwindEvent => w.(syncEvent := false)
    case UnwindLock => w.(locked := w.locked || ok)
    case _ => w
  }

  /** One step of the goroutine that finishes unlock n. */
  function FinNext(s: State, n: nat, ok: bool): State
    requires FinEnabled(s, n)
  {
    s.(wallet := FinWrites(s.wallet, s.fins[n], ok),
       syncCh := if s.fins[n] == UnwindChannel then Close(s.syncCh) else s.syncCh,
       fins := s.fins[n := FinTo(s.delegateEnabled, s.wallet, s.fins[n], ok)])
  }

  /** One step of a gate check. */
  function GateNext(s: State, g: nat): State
    requires g in s.gates
  {
    match s.gates[g]
    case GateStart => s.(gates := s.gates[g := if !s.initialized || s.wallet.locked then GateRefused
                                          else GateSawUnlocked])
    case GateSawUnlocked => s.(gates := s.gates[g := if s.wallet.syncEvent then GateSawSynced else GateRefused])
    case GateSawSynced => s.(gates := s.gates[g := if s.wallet.ready then GatePassed else GateRefused])
    case _ => s
  }

  datatype Step =
    | SetupStep
    | CallUnlockStep | UnlockStep(ok: bool)
    | CallLockStep | LockStep(ok: bool)
    | SyncStep(n: nat, ok: bool) | FinStep(n: nat, ok: bool)
    | CheckStep(g: nat) | GateStep(g: nat)

  predicate Enabled(s: State, step: Step) {
    match step
    case SetupStep => !s.initialized
    case CallUnlockStep => s.call == Idle
    case UnlockStep(_) => true
    case CallLockStep => s.call == Idle
    case LockStep(_) => true
    case SyncStep(n, _) => SyncEnabled(s, n)
    case FinStep(n, _) => FinEnabled(s, n)
    case CheckStep(g) => g !in s.gates
    case GateStep(g) => g in s.gates
  }

  function After(s: State, step: Step): State
    requires Enabled(s, step)
  {
    match step
    case SetupStep => s.(initialized := true)
    case CallUnlockStep => s.(call := UnlockCalled)
    case UnlockStep(ok) => UnlockNext(s, ok)
    case CallLockStep => s.(call := LockCalled)
    case LockStep(ok) => LockNext(s, ok)
    case SyncStep(n, ok) => SyncNext(s, n, ok)
    case FinStep(n, ok) => FinNext(s, n, ok)
    case CheckStep(g) => s.(gates := s.gates[g := GateStart])
    case GateStep(g) => GateNext(s, g)
  }

  predicate IsRun(run: seq<State>, steps: seq<Step>) {
    && |run| == |steps| + 1 && Init(run[0])
    && forall i :: 0 <= i < |steps| ==> Enabled(run[i], steps[i]) && run[i + 1] == After(run[i], steps[i])
  }

  // ---- The invariant ----

  predicate FinActive(pc: FinPc) {
    !pc.FinSanitize? && !pc.FinDone?
  }

  /** The place of the goroutine of the last unlock, while it is still at work. */
  function Finishing(fins: seq<FinPc>): FinPc {
    if fins == [] then FinDone else fins[|fins| - 1]
  }

  /** The goroutines of every unlock but the last are through, and none finishes before its sync goroutine. */
  predicate Goroutines(call: Call, syncs: seq<SyncPc>, fins: seq<FinPc>) {
    && |syncs| == |fins| + (if call.SpawnFinalize? then 1 else 0)
    && (forall n :: 0 <= n < |fins| ==> fins[n] == FinWaiting || syncs[n].SyncDone?)
    && (forall n :: 0 <= n < |fins| - 1 ==> !FinActive(fins[n]))
    && (call.SpawnFinalize? ==> !FinActive(Finishing(fins)))
  }

  predicate HoldsSyncLock(pc: SyncPc) {
    pc.SyncWaiting? || pc.SyncGot? || pc.SyncSending? || pc.SyncReleasing?
  }

  predicate SyncLockOk(syncLock: Option<nat>, syncs: seq<SyncPc>) {
    && (forall n :: 0 <= n < |syncs| && HoldsSyncLock(syncs[n]) ==> syncLock == Some(n))
    && (syncLock.Some? ==> syncLock.value < |syncs| && HoldsSyncLock(syncs[syncLock.value]))
  }

  /** The channel in use is open, and no channel was ever closed twice or sent to after it was closed. */
  predicate ChannelsOk(c: Channels) {
    && (forall n :: n in c.closed ==> n < c.made)
    && (c.current.Some? ==> c.current.value < c.made && c.current.value !in c.closed)
    && !c.panicked
  }

  predicate EventStored(pc: SyncPc) {
    pc.SyncSending? || pc.SyncReleasing? || pc.SyncDone?
  }

  /** UnlockNode after the wallet was unlocked. */
  predicate Opening(c: Call) {
    c.ReadConfig? || c.Subscribe? || c.MakeChannel? || c.SpawnSync? || c.SpawnFinalize?
  }

  /** LockNode after the wallet was locked. */
  predicate Closing(c: Call) {
    c.StopDelegate? || c.ClearKey? || c.StopServices? || c.LowerReady? || c.DropEvent? || c.CloseChannel?
  }

  /** The clean locked state. */
  predicate Clean(w: Wallet, ch: bool) {
    w.locked && !w.ready && !w.syncEvent && !ch && !w.key && !w.delegate && !w.services
  }

  /** Everything a ready wallet has. */
  predicate Assembled(enabled: bool, w: Wallet, ch: bool) {
    w.syncEvent && ch && w.key == enabled && w.delegate == enabled && w.migrated
  }

  /** Unlocked, but with nothing left at work that could open the gate. */
  predicate Wedged(w: Wallet, ch: bool) {
    !w.locked && !w.ready && !w.syncEvent && !ch && !w.key && !w.delegate
  }

  /** The fields while UnlockNode assembles the wallet; sync is the goroutine it has spawned last. */
  predicate OpeningOk(call: Call, w: Wallet, ch: bool, sync: SyncPc) {
    && !w.locked && !w.ready && !w.key && !w.delegate
    && ch == (call.SpawnSync? || call.SpawnFinalize?)
    && w.syncEvent == (call.SpawnFinalize? && EventStored(sync))
  }

  /** The fields while the last unlock is being finished or unwound. */
  predicate FinishingOk(enabled: bool, w: Wallet, ch: bool, pc: FinPc, sync: SyncPc) {
    && !w.locked && !w.ready
    && match pc
       case FinWaiting => w.syncEvent == EventStored(sync) && ch && !w.key && !w.delegate
       case FinSynced => w.syncEvent && ch && !w.key && !w.delegate
       case FinDump => enabled && w.syncEvent && ch && !w.key && !w.delegate
       case FinDecode => enabled && w.syncEvent && ch && !w.key && !w.delegate
       case FinDelegate => enabled && w.syncEvent && ch && w.key
       case FinMigrate => w.syncEvent && ch && w.key == enabled && w.delegate == enabled
       case FinOpen => Assembled(enabled, w, ch)
       case UnwindServices => w.syncEvent && ch
       case UnwindDelegate => w.syncEvent && ch && !w.services
       case UnwindKey => w.syncEvent && ch && !w.services && !w.delegate
       case UnwindReady => w.syncEvent && ch && !w.services && !w.delegate && !w.key
       case UnwindEvent => w.syncEvent && ch && !w.services && !w.delegate && !w.key
       case UnwindChannel => !w.syncEvent && ch && !w.services && !w.delegate && !w.key
       case UnwindLock => !w.syncEvent && !ch && !w.services && !w.delegate && !w.key
       case _ => false
  }

  /** The fields while LockNode takes the wallet apart. */
  predicate ClosingOk(enabled: bool, call: Call, w: Wallet, ch: bool) {
    && w.locked && ch
    && w.syncEvent == !call.CloseChannel?
    && w.ready == (!call.DropEvent? && !call.CloseChannel?)
    && (if call.StopDelegate? then w.delegate == enabled else !w.delegate)
    && (if call.StopDelegate? || call.ClearKey? then w.key == enabled else !w.key)
    && (call.LowerReady? || call.DropEvent? || call.CloseChannel? ==> !w.services)
  }

  predicate FieldsOk(enabled: bool, call: Call, w: Wallet, ch: bool, pc: FinPc, sync: SyncPc) {
    if Opening(call) then OpeningOk(call, w, ch, sync) && !FinActive(pc)
    else if Closing(call) then ClosingOk(enabled, call, w, ch) && !FinActive(pc)
    else if FinActive(pc) then call != ClearReady && call != DoUnlock && call != DoLock &&
        FinishingOk(enabled, w, ch, pc, sync)
    else if w.ready then !w.locked && Assembled(enabled, w, ch) && call != ClearReady && call != DoUnlock
    else if w.locked then Clean(w, ch) && call != DoLock
    else Wedged(w, ch) && call != ClearReady && call != DoUnlock && call != DoLock
  }

  function LastSync(syncs: seq<SyncPc>): SyncPc {
    if syncs == [] then SyncDone(false) else syncs[|syncs| - 1]
  }

  predicate Inv(s: State) {
    && Goroutines(s.call, s.syncs, s.fins) && SyncLockOk(s.syncLock, s.syncs) && ChannelsOk(s.syncCh)
    && FieldsOk(s.delegateEnabled, s.call, s.wallet, s.syncCh.current.Some?, Finishing(s.fins), LastSync(s.syncs))
  }

  lemma InitHolds(s: State)
    requires Init(s)
    ensures Inv(s)
  {}

  // ---- Every step keeps the invariant ----

  lemma UnlockKeeps(s: State, ok: bool)
    requires Inv(s)
    ensures Inv(UnlockNext(s, ok))
  {
    hide UnlockTo, UnlockWrites, Make, Goroutines, SyncLockOk, ChannelsOk, FieldsOk, FinActive;
    UnlockGoroutines(s.initialized, s.delegateEnabled, s.wallet, s.syncCh.current.Some?, s.call, ok, s.syncs, s.fins);
    if s.call == SpawnSync { SpawnedLock(s.syncLock, s.syncs); }
    MakeOk(s.syncCh);
    var sync := if s.call == SpawnSync then SyncStart else LastSync(s.syncs);
    UnlockFields(s.initialized, s.delegateEnabled, s.wallet, s.syncCh.current.Some?, s.call, ok, Finishing(s.fins),
                 LastSync(s.syncs), sync);
  }

  lemma UnlockGoroutines(initialized: bool, enabled: bool, w: Wallet, ch: bool, call: Call, ok: bool,
                         syncs: seq<SyncPc>, fins: seq<FinPc>)
    requires Goroutines(call, syncs, fins) && FieldsOk(enabled, call, w, ch, Finishing(fins), LastSync(syncs))
    ensures Goroutines(UnlockTo(initialized, w, call, ok), if call == SpawnSync then syncs + [SyncStart] else syncs,
                       if call == SpawnFinalize then fins + [FinWaiting] else fins)
  {}

  lemma SpawnedLock(syncLock: Option<nat>, syncs: seq<SyncPc>)
    requires SyncLockOk(syncLock, syncs)
    ensures SyncLockOk(syncLock, syncs + [SyncStart])
  {}

  lemma MakeOk(c: Channels)
    requires ChannelsOk(c)
    ensures ChannelsOk(Make(c)) && Make(c).current.Some?
  {}

  lemma UnlockFields(initialized: bool, enabled: bool, w: Wallet, ch: bool, call: Call, ok: bool, pc: FinPc,
                     last: SyncPc, sync: SyncPc)
    requires FieldsOk(enabled, call, w, ch, pc, last) && sync == (if call == SpawnSync then SyncStart else last)
    ensures FieldsOk(enabled, UnlockTo(initialized, w, call, ok), UnlockWrites(w, call, ok), ch || call == MakeChannel,
                     if call == SpawnFinalize then FinWaiting else pc, sync)
  {
    hide ClosingOk, FinishingOk;
    if FinActive(pc) && !Opening(call) && !Closing(call) {
      FinishingShut(enabled, w, ch, pc, last);
    } else if call == SpawnFinalize {
      SpawnedFinishing(enabled, w, ch, last);
    }
  }

  lemma SpawnedFinishing(enabled: bool, w: Wallet, ch: bool, sync: SyncPc)
    requires OpeningOk(SpawnFinalize, w, ch, sync)
    ensures FinishingOk(enabled, w, ch, FinWaiting, sync)
  {}

  lemma LockKeeps(s: State, ok: bool)
    requires Inv(s)
    ensures Inv(LockNext(s, ok))
  {
    hide LockTo, LockWrites, Close, Goroutines, SyncLockOk, ChannelsOk, FieldsOk, FinActive;
    LockGoroutines(s.initialized, s.wallet, s.call, ok, s.syncs, s.fins);
    CloseOk(s.syncCh);
    LockFields(s.initialized, s.delegateEnabled, s.wallet, s.syncCh.current.Some?, s.call, ok, Finishing(s.fins),
               LastSync(s.syncs));
  }

  lemma LockGoroutines(initialized: bool, w: Wallet, call: Call, ok: bool, syncs: seq<SyncPc>, fins: seq<FinPc>)
    requires Goroutines(call, syncs, fins)
    ensures Goroutines(LockTo(initialized, w, call, ok), syncs, fins)
  {}

  lemma CloseOk(c: Channels)
    requires ChannelsOk(c)
    ensures ChannelsOk(Close(c)) && Close(c).current == None
  {}

  lemma LockFields(initialized: bool, enabled: bool, w: Wallet, ch: bool, call: Call, ok: bool, pc: FinPc, sync: SyncPc)
    requires FieldsOk(enabled, call, w, ch, pc, sync)
    ensures FieldsOk(enabled, LockTo(initialized, w, call, ok), LockWrites(w, call, ok), ch &&
                     call != CloseChannel, pc, sync)
  {
    hide OpeningOk, FinishingOk, LockWrites, Assembled, Wedged;
    if Closing(call) || call == DoLock {
      ClosingFields(initialized, enabled, w, ch, call, ok);
    } else {
      LockQuiet(initialized, w, call, ok);
      if FinActive(pc) && !Opening(call) { FinishingShut(enabled, w, ch, pc, sync); }
    }
  }

  /** Before it locks the wallet, LockNode changes nothing, and it gets there only past an open gate. */
  lemma LockQuiet(initialized: bool, w: Wallet, call: Call, ok: bool)
    requires !Closing(call) && call != DoLock
    ensures LockWrites(w, call, ok) == w
    ensures var to := LockTo(initialized, w, call, ok);
      to == call || (!Opening(call) && call != ClearReady && call != DoUnlock
                     && (to == Idle || to == LockSawUnlocked || to == LockSawSynced || (to == DoLock && w.ready)))
  {}

  lemma FinishingShut(enabled: bool, w: Wallet, ch: bool, pc: FinPc, sync: SyncPc)
    requires FinishingOk(enabled, w, ch, pc, sync)
    ensures !w.ready && !w.locked
  {}

  lemma ClosingFields(initialized: bool, enabled: bool, w: Wallet, ch: bool, call: Call, ok: bool)
    requires (Closing(call) && ClosingOk(enabled, call, w, ch)) ||
      (call == DoLock && w.ready && !w.locked && Assembled(enabled, w, ch))
    ensures var to, w', ch' := LockTo(initialized, w, call, ok), LockWrites(w, call, ok), ch && call != CloseChannel;
      if Closing(to) then ClosingOk(enabled, to, w', ch')
      else to == Idle && if call == CloseChannel then Clean(w', ch') else w' == w && ch' == ch
  {}

  /** Only the sync goroutine of the last unlock is still at work, and nothing else of that unlock yet. */
  lemma LastSyncOnly(s: State, n: nat)
    requires Inv(s) && SyncEnabled(s, n)
    ensures n == |s.syncs| - 1
    ensures s.call.SpawnFinalize? || Finishing(s.fins) == FinWaiting
  {
    hide ChannelsOk, SyncLockOk, FieldsOk;
  }

  lemma SyncKeeps(s: State, n: nat, ok: bool)
    requires Inv(s) && SyncEnabled(s, n)
    ensures Inv(SyncNext(s, n, ok))
  {
    hide Goroutines, SyncLockOk, ChannelsOk, FieldsOk, Send, FinActive;
    LastSyncOnly(s, n);
    var s' := SyncNext(s, n, ok);
    SyncGoroutines(s, n, ok);
    SyncLocks(s, n, ok);
    SendOk(s.syncCh);
    assert LastSync(s'.syncs) == s'.syncs[n] && s'.syncCh.current == s.syncCh.current;
    SyncFields(s.delegateEnabled, s.call, s.wallet, s.syncCh.current.Some?, Finishing(s.fins), s.syncs[n], s'.syncs[n],
               s'.wallet);
  }

  lemma SyncGoroutines(s: State, n: nat, ok: bool)
    requires Goroutines(s.call, s.syncs, s.fins) && SyncEnabled(s, n) && n == |s.syncs| - 1
    requires s.call.SpawnFinalize? || Finishing(s.fins) == FinWaiting
    ensures var s' := SyncNext(s, n, ok); Goroutines(s'.call, s'.syncs, s'.fins)
  {}

  lemma SyncLocks(s: State, n: nat, ok: bool)
    requires SyncLockOk(s.syncLock, s.syncs) && SyncEnabled(s, n)
    ensures var s' := SyncNext(s, n, ok); SyncLockOk(s'.syncLock, s'.syncs)
  {}

  lemma SendOk(c: Channels)
    requires ChannelsOk(c)
    ensures ChannelsOk(Send(c)) && Send(c).current == c.current
  {}

  lemma SyncFields(enabled: bool, call: Call, w: Wallet, ch: bool, pc: FinPc, sync: SyncPc, sync': SyncPc, w': Wallet)
    requires FieldsOk(enabled, call, w, ch, pc, sync) && (call.SpawnFinalize? || pc == FinWaiting) && !sync.SyncDone?
    requires w' == if sync.SyncGot? then w.(syncEvent := true, synced := sync.ok) else w
    requires EventStored(sync') == (EventStored(sync) || sync.SyncGot?)
    ensures FieldsOk(enabled, call, w', ch, pc, sync')
  {
    hide ClosingOk, Assembled, Clean, Wedged;
  }

  /** Only the goroutine of the last unlock is still at work, or it is one that sanitizes behind an open gate. */
  lemma LastFinOnly(s: State, n: nat)
    requires Inv(s) && FinEnabled(s, n) && s.fins[n] != FinSanitize
    ensures n == |s.fins| - 1 && Finishing(s.fins) == s.fins[n] && FinActive(s.fins[n])
  {
    hide ChannelsOk, SyncLockOk, FieldsOk;
  }

  lemma FinKeeps(s: State, n: nat, ok: bool)
    requires Inv(s) && FinEnabled(s, n)
    ensures Inv(FinNext(s, n, ok))
  {
    hide Inv, FinNext;
    if s.fins[n] == FinSanitize { SanitizeKeeps(s, n, ok); } else { LastFinKeeps(s, n, ok); }
  }

  lemma SanitizeKeeps(s: State, n: nat, ok: bool)
    requires Inv(s) && FinEnabled(s, n) && s.fins[n] == FinSanitize
    ensures Inv(FinNext(s, n, ok))
  {
    var s' := FinNext(s, n, ok);
    FinGoroutines(s.delegateEnabled, s.wallet, s.call, s.syncs, s.fins, n, ok);
    hide ChannelsOk, SyncLockOk, Goroutines, Close, OpeningOk, ClosingOk, FinishingOk, Assembled, Clean, Wedged;
    assert FinActive(Finishing(s'.fins)) == FinActive(Finishing(s.fins));
  }

  lemma LastFinKeeps(s: State, n: nat, ok: bool)
    requires Inv(s) && FinEnabled(s, n) && s.fins[n] != FinSanitize
    ensures Inv(FinNext(s, n, ok))
  {
    hide ChannelsOk, SyncLockOk, FieldsOk, FinWrites, FinTo, FinActive, Close;
    LastFinOnly(s, n);
    CloseOk(s.syncCh);
    Waited(s, n);
    FinGoroutines(s.delegateEnabled, s.wallet, s.call, s.syncs, s.fins, n, ok);
    hide Goroutines;
    FinFields(s.delegateEnabled, s.call, s.wallet, s.syncCh.current.Some?, s.fins[n], LastSync(s.syncs), ok);
  }

  /** The goroutine of the last unlock goes on from waiting when the last sync goroutine is through. */
  lemma Waited(s: State, n: nat)
    requires Inv(s) && FinEnabled(s, n) && n == |s.fins| - 1 && FinActive(s.fins[n])
    ensures s.fins[n] == FinWaiting ==> LastSync(s.syncs).SyncDone?
  {
    hide ChannelsOk, SyncLockOk, FieldsOk;
  }

  lemma FinGoroutines(enabled: bool, w: Wallet, call: Call, syncs: seq<SyncPc>, fins: seq<FinPc>, n: nat, ok: bool)
    requires Goroutines(call, syncs, fins) && n < |fins| && fins[n] != FinDone &&
      (fins[n] == FinWaiting ==> syncs[n].SyncDone?)
    ensures Goroutines(call, syncs, fins[n := FinTo(enabled, w, fins[n], ok)])
  {}

  lemma FinFields(enabled: bool, call: Call, w: Wallet, ch: bool, pc: FinPc, sync: SyncPc, ok: bool)
    requires FieldsOk(enabled, call, w, ch, pc, sync) && FinActive(pc) && (pc == FinWaiting ==> sync.SyncDone?)
    ensures FieldsOk(enabled, call, FinWrites(w, pc, ok), ch && pc != UnwindChannel, FinTo(enabled, w, pc, ok), sync)
  {}

  lemma QuietKeeps(s: State, step: Step)
    requires Inv(s) && Enabled(s, step)
    requires step.SetupStep? || step.CallUnlockStep? || step.CallLockStep? || step.CheckStep? || step.GateStep?
    ensures Inv(After(s, step))
  {
    hide Inv, GateNext, UnlockNext, LockNext, SyncNext, FinNext, SyncEnabled, FinEnabled;
    if step.CallUnlockStep? || step.CallLockStep? {
      CallKeeps(s, After(s, step).call);
    } else if step.GateStep? {
      GateOnly(s, step.g);
      SameKeeps(s, GateNext(s, step.g));
    } else {
      SameKeeps(s, After(s, step));
    }
  }

  /** A call begins. */
  lemma CallKeeps(s: State, call: Call)
    requires Inv(s) && s.call == Idle && (call == UnlockCalled || call == LockCalled)
    ensures Inv(s.(call := call))
  {
    hide ChannelsOk, SyncLockOk, FinishingOk, Assembled, Clean, Wedged;
  }

  lemma GateOnly(s: State, g: nat)
    requires g in s.gates
    ensures GateNext(s, g) == s.(gates := GateNext(s, g).gates)
  {}

  lemma SameKeeps(s: State, s': State)
    requires Inv(s) && s' == s.(initialized := s'.initialized, gates := s'.gates)
    ensures Inv(s')
  {
    hide ChannelsOk, SyncLockOk, Goroutines, FieldsOk;
  }

  lemma StepKeeps(s: State, step: Step)
    requires Inv(s) && Enabled(s, step)
    ensures Inv(After(s, step))
  {
    hide Inv, UnlockNext, LockNext, SyncNext, FinNext, SyncEnabled, FinEnabled;
    match step
    case UnlockStep(ok) => UnlockKeeps(s, ok);
    case LockStep(ok) => LockKeeps(s, ok);
    case SyncStep(n, ok) => SyncKeeps(s, n, ok);
    case FinStep(n, ok) => FinKeeps(s, n, ok);
    case _ => QuietKeeps(s, step);
  }

  lemma {:induction false} RunKeeps(run: seq<State>, steps: seq<Step>, i: nat)
    requires IsRun(run, steps) && i < |run|
    ensures Inv(run[i])
  {
    hide Inv, Enabled, After, Init;
    if i == 0 {
      InitHolds(run[0]);
    } else {
      RunKeeps(run, steps, i - 1);
      StepKeeps(run[i - 1], steps[i - 1]);
    }
  }

  // ---- What holds in every run ----

  /**
   * No goroutine ever sends on a closed channel or closes one twice, however often unlocking fails and is tried again.
   */
  lemma NeverPanics(run: seq<State>, steps: seq<Step>, i: nat)
    requires IsRun(run, steps) && i < |run|
    ensures !run[i].syncCh.panicked
  {
    hide IsRun;
    RunKeeps(run, steps, i);
  }

  /** A sync goroutine that has its event finds a channel to send it on: it never blocks on a nil channel. */
  lemma SyncNeverBlocks(run: seq<State>, steps: seq<Step>, i: nat, n: nat)
    requires IsRun(run, steps) && i < |run| && n < |run[i].syncs| && run[i].syncs[n].SyncSending?
    ensures SyncEnabled(run[i], n)
  {
    hide IsRun;
    RunKeeps(run, steps, i);
    SendingHasChannel(run[i], n);
  }

  lemma SendingHasChannel(s: State, n: nat)
    requires Inv(s) && n < |s.syncs| && s.syncs[n].SyncSending?
    ensures s.syncCh.current.Some?
  {
    hide ChannelsOk, SyncLockOk, ClosingOk;
  }

  /**
   * The gate opens only in the step that ends a complete unlock: the wallet is unlocked and synced, a migration was
   * attempted, and with the delegate enabled the key is loaded and the service runs.
   */
  lemma GateOpensWhenAssembled(run: seq<State>, steps: seq<Step>, i: nat)
    requires IsRun(run, steps) && i < |steps| && !run[i].wallet.ready && run[i + 1].wallet.ready
    ensures steps[i].FinStep?
    ensures !run[i + 1].wallet.locked
    ensures Assembled(run[i + 1].delegateEnabled, run[i + 1].wallet, run[i + 1].syncCh.current.Some?)
  {
    RunKeeps(run, steps, i);
    RunKeeps(run, steps, i + 1);
    hide IsRun;
    Opens(run[i], steps[i]);
  }

  lemma Opens(s: State, step: Step)
    requires Inv(s) && Enabled(s, step) && !s.wallet.ready && After(s, step).wallet.ready
    ensures step.FinStep? && s.fins[step.n] == FinOpen
    ensures !s.wallet.locked && Assembled(s.delegateEnabled, s.wallet, s.syncCh.current.Some?)
    ensures var s' := After(s, step);
      s'.wallet == s.wallet.(ready := true) && s'.syncCh == s.syncCh && s'.delegateEnabled == s.delegateEnabled
  {
    OnlyFinOpens(s, step);
    LastFinOnly(s, step.n);
    hide ChannelsOk, SyncLockOk, Goroutines;
  }

  lemma OnlyFinOpens(s: State, step: Step)
    requires Enabled(s, step) && !s.wallet.ready && After(s, step).wallet.ready
    ensures step.FinStep? && s.fins[step.n] == FinOpen
  {
    hide UnlockNext, LockNext, SyncNext, FinNext, GateNext, SyncEnabled;
    match step
    case UnlockStep(ok) => UnlockLeavesGate(s, ok);
    case LockStep(ok) => LockLeavesGate(s, ok);
    case SyncStep(n, ok) => SyncLeavesGate(s, n, ok);
    case FinStep(n, ok) => FinLeavesGate(s, n, ok);
    case GateStep(g) => GateLeavesGate(s, g);
    case _ =>
  }

  lemma UnlockLeavesGate(s: State, ok: bool)
    ensures UnlockNext(s, ok).wallet.ready ==> s.wallet.ready
  {
    hide UnlockTo, Make;
  }

  lemma LockLeavesGate(s: State, ok: bool)
    ensures LockNext(s, ok).wallet.ready ==> s.wallet.ready
  {
    hide LockTo, LockWrites, Close;
    LockOnlyShuts(s.wallet, s.call, ok);
  }

  lemma GateLeavesGate(s: State, g: nat)
    requires g in s.gates
    ensures GateNext(s, g).wallet == s.wallet
  {}

  lemma LockOnlyShuts(w: Wallet, call: Call, ok: bool)
    ensures LockWrites(w, call, ok).ready ==> w.ready
  {}

  lemma OnlyOpening(w: Wallet, pc: FinPc, ok: bool)
    ensures FinWrites(w, pc, ok).ready && !w.ready ==> pc == FinOpen
  {}

  lemma FinLeavesGate(s: State, n: nat, ok: bool)
    requires FinEnabled(s, n) && !s.wallet.ready && FinNext(s, n, ok).wallet.ready
    ensures s.fins[n] == FinOpen
  {
    hide FinTo, FinWrites, Close;
    OnlyOpening(s.wallet, s.fins[n], ok);
  }

  lemma SyncLeavesGate(s: State, n: nat, ok: bool)
    requires SyncEnabled(s, n)
    ensures SyncNext(s, n, ok).wallet.ready == s.wallet.ready
  {}

  /** An open gate outside LockNode means an assembled wallet. */
  lemma OpenGateIsAssembled(run: seq<State>, steps: seq<Step>, i: nat)
    requires IsRun(run, steps) && i < |run| && run[i].wallet.ready && !Closing(run[i].call)
    ensures !run[i].wallet.locked
    ensures Assembled(run[i].delegateEnabled, run[i].wallet, run[i].syncCh.current.Some?)
  {
    RunKeeps(run, steps, i);
    hide IsRun;
    ReadyIsAssembled(run[i]);
  }

  lemma ReadyIsAssembled(s: State)
    requires Inv(s) && s.wallet.ready && !Closing(s.call)
    ensures !s.wallet.locked && Assembled(s.delegateEnabled, s.wallet, s.syncCh.current.Some?)
  {
    hide ChannelsOk, SyncLockOk, Goroutines;
  }

  // ---- What the sync event says ----

  /** An event that is stored is the one that the goroutine of the last unlock got. */
  predicate EventOk(s: State) {
    s.wallet.syncEvent ==> EventStored(LastSync(s.syncs)) && s.wallet.synced == LastSync(s.syncs).ok
  }

  lemma EventKept(s: State, step: Step)
    requires Inv(s) && Enabled(s, step) && EventOk(s)
    ensures EventOk(After(s, step))
  {
    hide Inv, UnlockNext, LockNext, FinNext, GateNext, SyncNext, SyncEnabled, FinEnabled;
    match step
    case UnlockStep(ok) => UnlockKeepsEvent(s, ok);
    case LockStep(ok) => LockKeepsEvent(s, ok);
    case SyncStep(n, ok) => SyncStoresEvent(s, n, ok);
    case FinStep(n, ok) => FinKeepsEvent(s, n, ok);
    case GateStep(g) => GateOnly(s, g);
    case _ =>
  }

  lemma UnlockKeepsEvent(s: State, ok: bool)
    requires Inv(s) && EventOk(s)
    ensures EventOk(UnlockNext(s, ok))
  {
    hide ChannelsOk, SyncLockOk, Goroutines, FieldsOk, Make, UnlockTo, UnlockWrites;
    UnlockLeavesEvent(s.wallet, s.call, ok);
    if s.call == SpawnSync { NoEventBeforeSync(s); }
  }

  lemma UnlockLeavesEvent(w: Wallet, call: Call, ok: bool)
    ensures var w' := UnlockWrites(w, call, ok); w'.syncEvent == w.syncEvent && w'.synced == w.synced
  {}

  lemma NoEventBeforeSync(s: State)
    requires Inv(s) && s.call == SpawnSync
    ensures !s.wallet.syncEvent
  {
    hide ChannelsOk, SyncLockOk, Goroutines;
  }

  lemma LockKeepsEvent(s: State, ok: bool)
    requires EventOk(s)
    ensures EventOk(LockNext(s, ok))
  {
    hide LockTo, Close;
  }

  lemma FinKeepsEvent(s: State, n: nat, ok: bool)
    requires EventOk(s) && FinEnabled(s, n)
    ensures EventOk(FinNext(s, n, ok))
  {
    hide FinTo, Close;
  }

  lemma SyncStoresEvent(s: State, n: nat, ok: bool)
    requires Inv(s) && EventOk(s) && SyncEnabled(s, n)
    ensures EventOk(SyncNext(s, n, ok))
  {
    LastSyncOnly(s, n);
    hide Inv, Send;
  }

  lemma {:induction false} EventAlways(run: seq<State>, steps: seq<Step>, i: nat)
    requires IsRun(run, steps) && i < |run|
    ensures EventOk(run[i])
  {
    hide Inv, Enabled, After, EventOk;
    if i == 0 {
      NoEventYet(run[0]);
    } else {
      EventAlways(run, steps, i - 1);
      RunKeeps(run, steps, i - 1);
      EventKept(run[i - 1], steps[i - 1]);
    }
  }

  lemma NoEventYet(s: State)
    requires Init(s)
    ensures EventOk(s)
  {}

  /**
   * The goroutine that finishes an unlock never stops because the sync failed: the event is stored whatever it says.
   */
  lemma SyncFailureIsIgnored(run: seq<State>, steps: seq<Step>, i: nat, n: nat, ok: bool)
    requires IsRun(run, steps) && i < |run| && n < |run[i].fins| && run[i].fins[n] == FinSynced
    ensures run[i].wallet.syncEvent && FinTo(run[i].delegateEnabled, run[i].wallet, FinSynced, ok) != FinDone
  {
    hide IsRun;
    RunKeeps(run, steps, i);
    LastFinOnly(run[i], n);
    StoredWhenSynced(run[i]);
  }

  lemma StoredWhenSynced(s: State)
    requires Inv(s) && Finishing(s.fins) == FinSynced
    ensures s.wallet.syncEvent
  {
    hide ChannelsOk, SyncLockOk, Goroutines;
  }

  /** So a wallet behind an open gate is synced if and only if the event of the last unlock said so. */
  lemma OpenGateSyncedExactly(run: seq<State>, steps: seq<Step>, i: nat)
    requires IsRun(run, steps) && i < |run| && run[i].wallet.ready && !Closing(run[i].call)
    ensures EventStored(LastSync(run[i].syncs)) && (run[i].wallet.synced <==> LastSync(run[i].syncs).ok)
  {
    EventAlways(run, steps, i);
    OpenGateIsAssembled(run, steps, i);
    hide IsRun;
  }

  // ---- What a failure leads to ----

  /** The steps an unwinding goroutine has left; none for one that is not unwinding. */
  function Left(pc: FinPc): nat {
    match pc
    case UnwindServices => 7
    case UnwindDelegate => 6
    case UnwindKey => 5
    case UnwindReady => 4
    case UnwindEvent => 3
    case UnwindChannel => 2
    case UnwindLock => 1
    case _ => 0
  }

  /** How many of the steps from i up to j goroutine n took. */
  function Taken(steps: seq<Step>, i: nat, j: nat, n: nat): nat
    requires i <= j <= |steps|
  {
    if i == j then 0 else Taken(steps, i, j - 1, n) + if steps[j - 1].FinStep? && steps[j - 1].n == n then 1 else 0
  }

  /** Nothing holds an unwinding goroutine up, and it goes on with each step of its own and with no other. */
  lemma UnwindGoesOn(s: State, step: Step, n: nat)
    requires Enabled(s, step) && n < |s.fins| && (s.fins[n] == FinDone || Left(s.fins[n]) > 0)
    ensures Left(s.fins[n]) > 0 ==> FinEnabled(s, n)
    ensures var s' := After(s, step);
      && n < |s'.fins| && (s'.fins[n] == FinDone || Left(s'.fins[n]) > 0)
      && Left(s.fins[n]) == Left(s'.fins[n]) + if step.FinStep? && step.n == n then 1 else 0
  {
    hide UnlockTo, UnlockWrites, LockNext, SyncNext, GateNext, FinWrites, Close, Make;
    match step
    case LockStep(ok) => LockKeepsFins(s, ok);
    case SyncStep(m, ok) => SyncKeepsFins(s, m, ok);
    case GateStep(g) => GateKeepsFins(s, g);
    case _ =>
  }

  lemma LockKeepsFins(s: State, ok: bool)
    ensures LockNext(s, ok).fins == s.fins
  {}

  lemma SyncKeepsFins(s: State, n: nat, ok: bool)
    requires SyncEnabled(s, n)
    ensures SyncNext(s, n, ok).fins == s.fins
  {}

  lemma GateKeepsFins(s: State, g: nat)
    requires g in s.gates
    ensures GateNext(s, g).fins == s.fins
  {}

  /** The step in which loading the delegate key fails. */
  predicate Fails(s: State, step: Step, n: nat) {
    step == FinStep(n, false) && n < |s.fins| && (s.fins[n] == FinDump || s.fins[n] == FinDecode)
  }

  /**
   * After a failure the goroutine is as many of its own steps from the end as it has not taken, whatever runs beside
   * it.
   */
  lemma {:induction false} Unwinding(run: seq<State>, steps: seq<Step>, i: nat, j: nat, n: nat)
    requires IsRun(run, steps) && i < j <= |steps| && Fails(run[i], steps[i], n)
    ensures n < |run[j].fins| && (run[j].fins[n] == FinDone || Left(run[j].fins[n]) > 0)
    ensures Left(run[j].fins[n]) + Taken(steps, i + 1, j, n) == 7
    ensures Taken(steps, i + 1, j, n) < 7 ==> FinEnabled(run[j], n)
    decreases j
  {
    hide Enabled, After, FinWrites, Close, FinEnabled;
    if j == i + 1 {
      FailingStep(run[i], n);
    } else {
      Unwinding(run, steps, i, j - 1, n);
      UnwindGoesOn(run[j - 1], steps[j - 1], n);
    }
    if Left(run[j].fins[n]) > 0 { StillAtWork(run[j], n); }
  }

  lemma StillAtWork(s: State, n: nat)
    requires n < |s.fins| && Left(s.fins[n]) > 0
    ensures FinEnabled(s, n)
  {}

  lemma FailingStep(s: State, n: nat)
    requires Enabled(s, FinStep(n, false)) && Fails(s, FinStep(n, false), n)
    ensures After(s, FinStep(n, false)).fins == s.fins[n := UnwindServices]
  {}

  /**
   * After loading the delegate key failed, the seventh step that the goroutine takes, if the re-lock in it succeeds,
   * leaves the clean locked state, from which a fresh unlock can start. Until then it can always take its next step.
   */
  lemma FailureUnwinds(run: seq<State>, steps: seq<Step>, i: nat, k: nat, n: nat)
    requires IsRun(run, steps) && i < k < |steps| && Fails(run[i], steps[i], n)
    requires steps[k] == FinStep(n, true) && Taken(steps, i + 1, k, n) == 6
    ensures Clean(run[k + 1].wallet, run[k + 1].syncCh.current.Some?)
    ensures Finishing(run[k + 1].fins) == FinDone
  {
    hide Enabled, After, Fails, Taken, FinEnabled;
    Unwinding(run, steps, i, k, n);
    RunKeeps(run, steps, k);
    OneStep(run, steps, k);
    hide IsRun;
    Unwound(run[k], n);
    FinAfter(run[k], n);
  }

  lemma OneStep(run: seq<State>, steps: seq<Step>, k: nat)
    requires IsRun(run, steps) && k < |steps|
    ensures Enabled(run[k], steps[k]) && run[k + 1] == After(run[k], steps[k])
  {}

  lemma FinAfter(s: State, n: nat)
    requires Enabled(s, FinStep(n, true))
    ensures FinEnabled(s, n) && After(s, FinStep(n, true)) == FinNext(s, n, true)
  {}

  lemma Unwound(s: State, n: nat)
    requires Inv(s) && FinEnabled(s, n) && s.fins[n] == UnwindLock
    ensures var s' := FinNext(s, n, true);
      Clean(s'.wallet, s'.syncCh.current.Some?) && Finishing(s'.fins) == FinDone
  {
    LastFinOnly(s, n);
    hide ChannelsOk, SyncLockOk, Goroutines;
  }

  // ---- What a failure can leave behind ----

  /** Nothing is at work, the wallet is unlocked, and its gate is shut. */
  predicate Stuck(s: State) {
    && Wedged(s.wallet, s.syncCh.current.Some?) && !FinActive(Finishing(s.fins))
    && !Opening(s.call) && !Closing(s.call)
  }

  /**
   * A stuck wallet stays stuck: UnlockNode returns at once because the wallet is not locked, LockNode is refused by the
   * gate, and no goroutine is left to open it.
   */
  lemma StuckForever(s: State, step: Step)
    requires Inv(s) && Stuck(s) && Enabled(s, step)
    ensures Stuck(After(s, step))
  {
    StepKeeps(s, step);
    match step
    case SyncStep(n, _) => LastSyncOnly(s, n);
    case FinStep(n, ok) =>
      if s.fins[n] != FinSanitize { LastFinOnly(s, n); } else { SanitizeStuck(s, n, ok); }
    case _ => StuckCalls(s, step);
  }

  /** So it is stuck in the rest of every run. */
  lemma {:induction false} StuckToTheEnd(run: seq<State>, steps: seq<Step>, i: nat, j: nat)
    requires IsRun(run, steps) && i <= j < |run| && Stuck(run[i])
    ensures Stuck(run[j])
    decreases j
  {
    hide Inv, Stuck, Enabled, After, Init;
    if i < j {
      StuckToTheEnd(run, steps, i, j - 1);
      RunKeeps(run, steps, j - 1);
      StuckForever(run[j - 1], steps[j - 1]);
    }
  }

  lemma SanitizeStuck(s: State, n: nat, ok: bool)
    requires Inv(s) && Stuck(s) && FinEnabled(s, n) && s.fins[n] == FinSanitize
    ensures Stuck(FinNext(s, n, ok))
  {
    hide ChannelsOk, SyncLockOk, Goroutines, FieldsOk;
  }

  lemma StuckCalls(s: State, step: Step)
    requires Inv(s) && Stuck(s) && Enabled(s, step) && !step.SyncStep? && !step.FinStep?
    ensures Stuck(After(s, step))
  {
    StuckCall(s);
    hide Inv, Wedged, FinActive, GateNext, UnlockNext, LockNext;
    match step
    case UnlockStep(ok) => UnlockStaysStuck(s, ok);
    case LockStep(ok) => LockStaysStuck(s, ok);
    case GateStep(g) => GateOnly(s, g);
    case _ =>
  }

  lemma UnlockStaysStuck(s: State, ok: bool)
    requires Stuck(s) && Harmless(s.call)
    ensures Stuck(UnlockNext(s, ok))
  {
    hide Wedged, FinActive, UnlockTo, UnlockWrites, Make;
    StuckUnlocks(s.initialized, s.wallet, s.syncCh.current.Some?, s.call, ok);
  }

  lemma LockStaysStuck(s: State, ok: bool)
    requires Stuck(s) && Harmless(s.call)
    ensures Stuck(LockNext(s, ok))
  {
    hide Wedged, FinActive, LockTo, LockWrites, Close;
    StuckLocks(s.initialized, s.wallet, s.syncCh.current.Some?, s.call, ok);
  }

  /** The calls that can be in progress beside a stuck wallet, all of them before they change anything. */
  predicate Harmless(call: Call) {
    call == Idle || call == UnlockCalled || call == LockCalled || call == LockSawUnlocked || call == LockSawSynced
  }

  lemma StuckCall(s: State)
    requires Inv(s) && Stuck(s)
    ensures Harmless(s.call)
  {
    hide ChannelsOk, SyncLockOk, Goroutines;
  }

  lemma StuckUnlocks(initialized: bool, w: Wallet, ch: bool, call: Call, ok: bool)
    requires Wedged(w, ch) && Harmless(call)
    ensures Harmless(UnlockTo(initialized, w, call, ok)) && UnlockWrites(w, call, ok) == w
  {}

  lemma StuckLocks(initialized: bool, w: Wallet, ch: bool, call: Call, ok: bool)
    requires Wedged(w, ch) && Harmless(call)
    ensures Harmless(LockTo(initialized, w, call, ok)) && LockWrites(w, call, ok) == w
  {}

  /**
   * The steps that leave a wallet stuck are exactly the failures of UnlockNode between unlocking the wallet and making
   * the channel, and the failure to re-lock at the end of an unwinding.
   */
  predicate LeavesStuck(s: State, step: Step) {
    || (step.UnlockStep? && !step.ok && (s.call == ReadConfig || s.call == Subscribe))
    || (step.FinStep? && !step.ok && step.n < |s.fins| && s.fins[step.n] == UnwindLock)
  }

  lemma StuckExactly(s: State, step: Step)
    requires Inv(s) && Enabled(s, step) && !Stuck(s)
    ensures Stuck(After(s, step)) <==> LeavesStuck(s, step)
  {
    hide UnlockNext, LockNext, SyncNext, FinNext, SyncEnabled, Inv, Stuck;
    match step
    case UnlockStep(ok) => UnlockStuck(s, ok);
    case LockStep(ok) => LockStuck(s, ok);
    case SyncStep(n, ok) => SyncStuck(s, n, ok);
    case FinStep(n, ok) => FinStuck(s, n, ok);
    case _ => QuietStuck(s, step);
  }

  lemma UnlockStuck(s: State, ok: bool)
    requires Inv(s) && !Stuck(s)
    ensures Stuck(UnlockNext(s, ok)) <==> !ok && (s.call == ReadConfig || s.call == Subscribe)
  {
    hide ChannelsOk, SyncLockOk, Goroutines;
  }

  lemma LockStuck(s: State, ok: bool)
    requires Inv(s) && !Stuck(s)
    ensures !Stuck(LockNext(s, ok))
  {
    hide ChannelsOk, SyncLockOk, Goroutines;
  }

  lemma SyncStuck(s: State, n: nat, ok: bool)
    requires Inv(s) && !Stuck(s) && SyncEnabled(s, n)
    ensures !Stuck(SyncNext(s, n, ok))
  {
    LastSyncOnly(s, n);
    hide ChannelsOk, SyncLockOk, Goroutines, FieldsOk;
  }

  lemma FinStuck(s: State, n: nat, ok: bool)
    requires Inv(s) && !Stuck(s) && FinEnabled(s, n)
    ensures Stuck(FinNext(s, n, ok)) <==> !ok && s.fins[n] == UnwindLock
  {
    hide ChannelsOk, SyncLockOk, Goroutines, FieldsOk, Wedged, Close;
    if s.fins[n] == FinSanitize {
      assert FinActive(Finishing(FinNext(s, n, ok).fins)) == FinActive(Finishing(s.fins));
    } else {
      LastFinOnly(s, n);
      LastFinStuck(s.delegateEnabled, s.call, s.wallet, s.syncCh.current.Some?, s.fins[n], LastSync(s.syncs), ok);
      assert FinNext(s, n, ok).syncCh.current.Some? == (s.syncCh.current.Some? &&
                                                        s.fins[n] != UnwindChannel) by { ClosedAfter(s.syncCh); }
    }
  }

  lemma ClosedAfter(c: Channels)
    ensures Close(c).current == None
  {}

  lemma LastFinStuck(enabled: bool, call: Call, w: Wallet, ch: bool, pc: FinPc, sync: SyncPc, ok: bool)
    requires FieldsOk(enabled, call, w, ch, pc, sync) && FinActive(pc)
    ensures !Opening(call) && !Closing(call)
    ensures Wedged(FinWrites(w, pc, ok), ch && pc != UnwindChannel) && !FinActive(FinTo(enabled, w, pc, ok)) <==>
      !ok && pc == UnwindLock
  {}

  lemma QuietStuck(s: State, step: Step)
    requires Inv(s) && !Stuck(s) && Enabled(s, step)
    requires step.SetupStep? || step.CallUnlockStep? || step.CallLockStep? || step.CheckStep? || step.GateStep?
    ensures !Stuck(After(s, step))
  {
    hide ChannelsOk, SyncLockOk, Goroutines, FieldsOk, Wedged, FinActive, UnlockNext, LockNext, SyncNext, FinNext;
  }

  // ---- Gate checks beside LockNode ----

  /**
   * A gate check reads three fields one after the other, so it can pass beside LockNode after the key is gone: here it
   * saw the wallet unlocked and synced, and LockNode reaches ClearKey before it reads walletReady.
   */
  lemma GateCanPassWhileLocking(s: State, g: nat)
    requires Inv(s) && s.call == DoLock && g in s.gates && s.gates[g] == GateSawSynced
    ensures var s' := GateNext(LockNext(LockNext(LockNext(s, true), true), true), g);
      s'.gates[g] == GatePassed && s'.wallet.locked && !s'.wallet.key && !s'.wallet.delegate
  {
    LockingIsReady(s);
    hide Inv, LockNext, LockTo, LockWrites, Close;
    var s1 := OneLockStep(s);
    var s2 := OneLockStep(s1);
    var s3 := OneLockStep(s2);
  }

  /** The first steps of taking the wallet apart. */
  lemma OneLockStep(s: State) returns (s': State)
    requires s.call == DoLock || s.call == StopDelegate || s.call == ClearKey
    ensures s' == LockNext(s, true)
    ensures s' == s.(call := if s.call == DoLock then StopDelegate else if s.call == StopDelegate then ClearKey
                     else StopServices,
                     wallet := if s.call == DoLock then s.wallet.(locked := true)
                               else if s.call == StopDelegate then s.wallet.(delegate := false)
                                   else s.wallet.(key := false))
  {
    s' := LockNext(s, true);
  }

  lemma LockingIsReady(s: State)
    requires Inv(s) && s.call == DoLock
    ensures s.wallet.ready
  {
    hide ChannelsOk, SyncLockOk, Goroutines;
  }

  /** That is the only way: a check that passes finds the key in the configured state unless LockNode has cleared it. */
  lemma PassingGate(s: State, g: nat)
    requires Inv(s) && g in s.gates && s.gates[g] == GateSawSynced && GateNext(s, g).gates[g] == GatePassed
    ensures s.wallet.key == s.delegateEnabled <==>
      !s.delegateEnabled || (s.call != StopServices && s.call != LowerReady)
  {
    hide ChannelsOk, SyncLockOk, Goroutines, FinishingOk;
    assert s.wallet.ready;
    if !Closing(s.call) { FinishingShutWhenActive(s); }
  }

  lemma FinishingShutWhenActive(s: State)
    requires Inv(s) && s.wallet.ready && !Closing(s.call)
    ensures !FinActive(Finishing(s.fins)) && !Opening(s.call)
  {
    hide ChannelsOk, SyncLockOk, Goroutines;
  }
}
