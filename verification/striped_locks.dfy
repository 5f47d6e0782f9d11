/**
 The checkpoint locks by identity. A task asks the server's table for the transfer's lock before it
 waits for it, and a terminal status drops the lock from the table, so that the next task to ask gets
 another one (crates/metra-server/src/quic.rs, crates/metra-server/src/state.rs). This system runs the
 striped upload under that table: it shows that all tasks share one lock until the first terminal
 status, and what can go wrong afterwards.
 */
module StripedLocks {
  import opened Common
  import opened Ranges
  import opened Checkpoint
  import opened SessionReport
  import StripedUpload
  import opened StripedSafety
  import opened StripedProgress

  type Config = StripedUpload.Config
  type Upload = StripedUpload.State
  type UploadAction = StripedUpload.Action
  type UploadEvent = StripedUpload.Event
  type Handler = StripedUpload.Handler

  /** What a lane's handler is doing besides the upload itself. */
  datatype Aux =
    | Free
    | HasLock(lock: nat)     // asked for the lock; holds it while between load and store
    | Marking                // opened, about to set Running
    | Broken                 // stream error, about to read the status
    | Failing                // about to set Failed: saw Running, or the destination is refused
    | Clearing               // Failed is set, about to drop the locks

  datatype State = State(up: Upload, aux: seq<Aux>, table: Option<nat>, nextLock: nat, status: TransferStatus)

  predicate ValidConfig(cfg: Config) { StripedUpload.ValidConfig(cfg) }

  function Init(cfg: Config): State {
    State(StripedUpload.Init(cfg), seq(cfg.lanes, _ => Free), None, 0, Queued)
  }

  predicate Terminal(status: TransferStatus) { status.Completed? || status.Failed? }

  /** The upload itself does not look at locks here: this system guards it. */
  function Unlocked(cfg: Config): Config { cfg.(locked := false) }

  function Locked(cfg: Config): Config { cfg.(locked := true) }

  // ---------------------------------------------------------------- steps

  datatype Action =
    | Ask(lane: nat)
    | Do(action: UploadAction)
    | SetRunning(lane: nat)
    | ReadStatus(lane: nat)
    | SetFailed(lane: nat)
    | Clear(lane: nat)
    | Restart
    | Lose(keep: nat)

  predicate WantsLock(h: Handler) { h.Idle? || h.Received? || (h.Streaming? && h.phase.Synced?) }

  predicate Acquires(a: UploadAction) { a.FindCheckpoint? || a.LoadForUpdate? || a.LoadForFinalize? }

  function GivenLock(s: State): nat { if s.table.Some? then s.table.value else s.nextLock }

  function SetAux(s: State, lane: nat, aux: Aux): State
    requires lane < |s.aux|
  {
    s.(aux := s.aux[lane := aux])
  }

  /** Nobody else is between load and store under the lock that the lane asked for. */
  predicate LockFree(s: State, lane: nat) {
    && lane < |s.aux| == |s.up.handlers|
    && s.aux[lane].HasLock?
    && forall j :: 0 <= j < |s.aux| && j != lane && StripedUpload.HoldsCheckpointLock(s.up.handlers[j]) ==> s.aux[j] != s.aux[lane]
  }

  predicate MayDo(s: State, a: UploadAction) {
    && a.lane < |s.aux| == |s.up.handlers|
    && if Acquires(a) then LockFree(s, a.lane)
       else if a.Abort? then s.aux[a.lane].Free? || s.aux[a.lane].HasLock? || s.aux[a.lane].Marking?
       else s.aux[a.lane].Free? || StripedUpload.HoldsCheckpointLock(s.up.handlers[a.lane])
  }

  /** An error before Running is set ends the stream quietly; after it, the transfer is to be marked failed. */
  function AfterAux(aux: Aux, h: Handler, a: UploadAction, h': Handler): Aux {
    if a.Abort? then
      if h.Idle? || h.NoCheckpoint? || h.Reloaded? || aux.Marking? then Free else Broken
    else if StripedUpload.HoldsCheckpointLock(h') then aux
    else if a.StoreReloaded? then Marking
    else if a.Reject? then Failing
    else if h'.Idle? && (a.LoadForUpdate? || a.FinishReceive? || a.LoadForFinalize?) then Broken
    else Free
  }

  ghost predicate StepDo(cfg: Config, s: State, a: UploadAction, s': State)
    requires ValidConfig(cfg)
  {
    && MayDo(s, a)
    && StripedUpload.LaneStep(Unlocked(cfg), s.up, a, s'.up)
    && a.lane < |s'.up.handlers|
    && s' == SetAux(s.(up := s'.up, status := if a.ReportRunning? then Running else s.status), a.lane,
                    AfterAux(s.aux[a.lane], s.up.handlers[a.lane], a, s'.up.handlers[a.lane]))
  }

  ghost predicate Next(cfg: Config, s: State, a: Action, s': State)
    requires ValidConfig(cfg)
  {
    match a
    case Ask(lane) =>
      && lane < |s.aux| == |s.up.handlers| && s.aux[lane].Free? && WantsLock(s.up.handlers[lane])
      && s' == SetAux(s.(table := Some(GivenLock(s)), nextLock := if s.table.Some? then s.nextLock else s.nextLock + 1),
                      lane, HasLock(GivenLock(s)))
    case Do(action) => StepDo(cfg, s, action, s')
    case SetRunning(lane) =>
      lane < |s.aux| && s.aux[lane].Marking? && s' == SetAux(s.(status := Running), lane, Free)
    case ReadStatus(lane) =>
      lane < |s.aux| && s.aux[lane].Broken? && s' == SetAux(s, lane, if s.status.Running? then Failing else Free)
    case SetFailed(lane) =>
      lane < |s.aux| && s.aux[lane].Failing? && s' == SetAux(s.(status := TransferStatus.Failed), lane, Clearing)
    case Clear(lane) =>
      lane < |s.aux| && s.aux[lane].Clearing? && s' == SetAux(s.(table := None), lane, Free)
    case Restart =>
      && !StripedUpload.Renamed(s.up)
      && s' == State(s.up.(handlers := seq(cfg.lanes, _ => StripedUpload.Idle)), seq(cfg.lanes, _ => Free), None, s.nextLock, s.status)
    case Lose(keep) =>
      && StripedUpload.PowerLoss(Unlocked(cfg), s.up, keep, s'.up)
      && s' == State(s'.up, seq(cfg.lanes, _ => Free), None, s.nextLock, s.status)
  }

  ghost predicate NextAt(cfg: Config, run: seq<State>, actions: seq<Action>, i: nat)
    requires ValidConfig(cfg) && i < |actions| < |run|
  {
    Next(cfg, run[i], actions[i], run[i + 1])
  }

  ghost predicate IsRun(cfg: Config, run: seq<State>, actions: seq<Action>) {
    && ValidConfig(cfg)
    && |run| == |actions| + 1
    && run[0] == Init(cfg)
    && forall i :: 0 <= i < |actions| ==> NextAt(cfg, run, actions, i)
  }

  /** A lane sets Failed only after it has seen Running, or when it has refused the destination. */
  lemma {:induction false} FailingHasCause(cfg: Config, run: seq<State>, actions: seq<Action>, i: nat, lane: nat) returns (j: nat)
    requires IsRun(cfg, run, actions) && i < |run| && lane < |run[i].aux| && run[i].aux[lane].Failing?
    ensures j < i && ((actions[j] == ReadStatus(lane) && run[j].status.Running?) || actions[j] == Do(StripedUpload.Reject(lane)))
  {
    assert NextAt(cfg, run, actions, i - 1);
    if lane < |run[i - 1].aux| && run[i - 1].aux[lane].Failing? {
      j := FailingHasCause(cfg, run, actions, i - 1, lane);
    } else {
      j := i - 1;
    }
  }

  // ---------------------------------------------------------------- runs of the upload

  /** The upload can come to this state under the given discipline, and without a removal if `calm`. */
  ghost predicate Comes(cfg: Config, calm: bool, t: Upload) {
    exists run, events ::
      && StripedUpload.IsRun(cfg, run, events) && run[|events|] == t
      && (calm ==> NoRemoval(events))
  }

  lemma ComesOn(cfg: Config, calm: bool, t: Upload, e: UploadEvent, u: Upload)
    requires StripedUpload.ValidConfig(cfg) && Comes(cfg, calm, t) && StripedUpload.Next(cfg, t, e, u)
    requires calm ==> !(e.Lane? && e.action.RemoveRejected?)
    ensures Comes(cfg, calm, u)
  {
    var run, events :| StripedUpload.IsRun(cfg, run, events) && run[|events|] == t && (calm ==> NoRemoval(events));
    var longer, more := run + [u], events + [e];
    forall i | 0 <= i < |more| ensures StripedUpload.NextAt(cfg, longer, more, i) {
      assert i < |events| ==> StripedUpload.NextAt(cfg, run, events, i);
    }
    assert StripedUpload.IsRun(cfg, longer, more) && longer[|more|] == u;
    assert calm ==> NoRemoval(more);
  }

  /** Breaking off every handler, one after the other. */
  lemma {:induction false} ComesToIdle(cfg: Config, calm: bool, t: Upload, from: nat)
    requires StripedUpload.ValidConfig(cfg) && Comes(cfg, calm, t) && !StripedUpload.Renamed(t)
    requires |t.handlers| == cfg.lanes && from <= cfg.lanes
    requires forall l :: 0 <= l < from ==> t.handlers[l].Idle?
    ensures Comes(cfg, calm, t.(handlers := seq(cfg.lanes, _ => StripedUpload.Idle)))
    decreases cfg.lanes - from
  {
    if from == cfg.lanes {
      assert t.handlers == seq(cfg.lanes, _ => StripedUpload.Idle);
    } else {
      var one := StripedUpload.SetHandler(t, from, StripedUpload.Idle);
      ComesOn(cfg, calm, t, StripedUpload.Lane(StripedUpload.Abort(from)), one);
      ComesToIdle(cfg, calm, one, from + 1);
    }
  }

  lemma ComesAsRun(cfg: Config, calm: bool, t: Upload) returns (run: seq<Upload>, events: seq<UploadEvent>)
    requires Comes(cfg, calm, t)
    ensures StripedUpload.IsRun(cfg, run, events) && run[|events|] == t && (calm ==> NoRemoval(events))
  {
    run, events :| StripedUpload.IsRun(cfg, run, events) && run[|events|] == t && (calm ==> NoRemoval(events));
  }

  lemma ComesWithInv(cfg: Config, calm: bool, t: Upload)
    requires Comes(cfg, calm, t)
    ensures StripedUpload.ValidConfig(cfg) && Inv(cfg, t)
  {
    var run, events := ComesAsRun(cfg, calm, t);
    RunKeepsInv(cfg, run, events, |events|);
  }

  // ---------------------------------------------------------------- safety carries over

  /**
   Every run under the table of locks is a run of the upload in which any two tasks may hold
   different locks. What StripedSafety proves of those holds here: crash consistency, and the contents
   of the renamed file.
   */
  lemma {:induction false} RunsAreUploads(cfg: Config, run: seq<State>, actions: seq<Action>, i: nat)
    requires IsRun(cfg, run, actions) && i < |run|
    ensures Comes(Unlocked(cfg), false, run[i].up)
    ensures |run[i].aux| == |run[i].up.handlers| == cfg.lanes
  {
    if i == 0 {
      var u := [StripedUpload.Init(cfg)];
      assert StripedUpload.Init(Unlocked(cfg)) == StripedUpload.Init(cfg);
      assert StripedUpload.IsRun(Unlocked(cfg), u, []);
    } else {
      RunsAreUploads(cfg, run, actions, i - 1);
      assert NextAt(cfg, run, actions, i - 1);
      match actions[i - 1] {
        case Do(a) => ComesOn(Unlocked(cfg), false, run[i - 1].up, StripedUpload.Lane(a), run[i].up);
        case Lose(keep) => ComesOn(Unlocked(cfg), false, run[i - 1].up, StripedUpload.Loss(keep), run[i].up);
        case Restart => ComesToIdle(Unlocked(cfg), false, run[i - 1].up, 0);
        case _ =>
      }
      ComesWithInv(Unlocked(cfg), false, run[i].up);
    }
  }

  // ---------------------------------------------------------------- one lock until the first terminal status

  /** No terminal status has been set so far. */
  ghost predicate Quiet(run: seq<State>) {
    forall i :: 0 <= i < |run| ==> !Terminal(run[i].status)
  }

  /** Whoever has a lock has the one in the table, and whoever is between load and store has one. */
  ghost predicate OneLock(s: State) {
    && |s.aux| == |s.up.handlers|
    && forall l :: 0 <= l < |s.aux| ==>
      && (s.aux[l].HasLock? ==> s.table == Some(s.aux[l].lock))
      && (StripedUpload.HoldsCheckpointLock(s.up.handlers[l]) ==> s.aux[l].HasLock?)
      && (s.up.handlers[l].Rejected? ==> s.aux[l].Failing?)
      && !s.aux[l].Clearing?
  }

  /** With one lock, or one lane, the guard of this system is the lock discipline of the upload. */
  lemma GuardIsDiscipline(cfg: Config, s: State, a: UploadAction, s': State)
    requires ValidConfig(cfg) && StepDo(cfg, s, a, s')
    requires OneLock(s) || cfg.lanes == 1
    ensures StripedUpload.LaneStep(Locked(cfg), s.up, a, s'.up)
  {
    if Acquires(a) {
      assert !StripedUpload.HoldsCheckpointLock(s.up.handlers[a.lane]);
      assert StripedUpload.CheckpointLockFree(Locked(cfg), s.up);
    }
  }

  /** The acting lane keeps its lock as long as it is between load and store, and takes no other. */
  lemma LockFollowsHandler(cfg: Config, s: State, a: UploadAction, s': State)
    requires ValidConfig(cfg) && StepDo(cfg, s, a, s') && a.lane < |s'.aux|
    requires StripedUpload.HoldsCheckpointLock(s.up.handlers[a.lane]) ==> s.aux[a.lane].HasLock?
    requires !s.aux[a.lane].Clearing?
    ensures s'.aux[a.lane].HasLock? ==> s'.aux[a.lane] == s.aux[a.lane]
    ensures StripedUpload.HoldsCheckpointLock(s'.up.handlers[a.lane]) ==> s'.aux[a.lane].HasLock?
    ensures !s'.aux[a.lane].Clearing?
  {
  }

  /** Between a rejection and the removal the failure is set: a rejected handler does nothing else. */
  lemma RejectedFails(cfg: Config, s: State, a: UploadAction, s': State)
    requires ValidConfig(cfg) && StepDo(cfg, s, a, s') && a.lane < |s'.aux|
    requires s.up.handlers[a.lane].Rejected? ==> s.aux[a.lane].Failing?
    ensures s'.up.handlers[a.lane].Rejected? ==> s'.aux[a.lane].Failing?
    ensures !a.RemoveRejected?
  {
  }

  lemma DoKeepsOneLock(cfg: Config, s: State, a: UploadAction, s': State)
    requires ValidConfig(cfg) && OneLock(s) && StepDo(cfg, s, a, s')
    ensures OneLock(s') && !a.RemoveRejected?
  {
    LockTakenWhenFree(Unlocked(cfg), s.up, a, s'.up);
    LockFollowsHandler(cfg, s, a, s');
    RejectedFails(cfg, s, a, s');
    assert forall l :: 0 <= l < |s.aux| && l != a.lane ==> s'.aux[l] == s.aux[l];
  }

  lemma NextKeepsOneLock(cfg: Config, s: State, a: Action, s': State)
    requires ValidConfig(cfg) && OneLock(s) && Next(cfg, s, a, s') && !Terminal(s'.status)
    ensures OneLock(s')
  {
    if a.Do? {
      DoKeepsOneLock(cfg, s, a.action, s');
    }
  }

  lemma {:induction false} OneLockUntilTerminal(cfg: Config, run: seq<State>, actions: seq<Action>, i: nat)
    requires IsRun(cfg, run, actions) && i < |run| && Quiet(run[..i + 1])
    ensures OneLock(run[i])
  {
    if i > 0 {
      assert forall j :: 0 <= j <= i ==> run[j] == run[..i + 1][j];
      OneLockUntilTerminal(cfg, run, actions, i - 1);
      assert NextAt(cfg, run, actions, i - 1);
      NextKeepsOneLock(cfg, run[i - 1], actions[i - 1], run[i]);
    }
  }

  /**
   The single lock. Until the first terminal status every run under the table of locks is a run of the
   upload with one checkpoint lock, in which no checkpoint has been removed; with one lane, always
   with one lock.
   */
  lemma {:induction false} SingleLockUntilTerminal(cfg: Config, run: seq<State>, actions: seq<Action>, i: nat)
    requires IsRun(cfg, run, actions) && i < |run|
    requires Quiet(run[..i + 1]) || cfg.lanes == 1
    ensures Comes(Locked(cfg), cfg.lanes > 1, run[i].up)
  {
    if i == 0 {
      var u := [StripedUpload.Init(cfg)];
      assert StripedUpload.Init(Locked(cfg)) == StripedUpload.Init(cfg);
      assert StripedUpload.IsRun(Locked(cfg), u, []) && NoRemoval([]);
    } else {
      assert forall j :: 0 <= j <= i ==> run[j] == run[..i + 1][j];
      SingleLockUntilTerminal(cfg, run, actions, i - 1);
      RunsAreUploads(cfg, run, actions, i - 1);
      assert NextAt(cfg, run, actions, i - 1);
      if cfg.lanes > 1 {
        OneLockUntilTerminal(cfg, run, actions, i - 1);
      }
      LockedNext(cfg, run[i - 1], actions[i - 1], run[i]);
    }
  }

  lemma LockedNext(cfg: Config, s: State, a: Action, s': State)
    requires ValidConfig(cfg) && Next(cfg, s, a, s') && Comes(Locked(cfg), cfg.lanes > 1, s.up)
    requires |s.aux| == |s.up.handlers| == cfg.lanes
    requires OneLock(s) || cfg.lanes == 1
    ensures Comes(Locked(cfg), cfg.lanes > 1, s'.up)
  {
    match a {
      case Do(action) =>
        GuardIsDiscipline(cfg, s, action, s');
        if cfg.lanes > 1 {
          DoKeepsOneLock(cfg, s, action, s');
        }
        ComesOn(Locked(cfg), cfg.lanes > 1, s.up, StripedUpload.Lane(action), s'.up);
      case Lose(keep) => ComesOn(Locked(cfg), cfg.lanes > 1, s.up, StripedUpload.Loss(keep), s'.up);
      case Restart => ComesToIdle(Locked(cfg), cfg.lanes > 1, s.up, 0);
      case _ =>
    }
  }

  /** So until the first terminal status no waiting writer gets two chunks ahead of its checkpoint. */
  lemma LagBelowUntilTerminal(cfg: Config, run: seq<State>, actions: seq<Action>, i: nat, lane: nat)
    requires IsRun(cfg, run, actions) && i < |run| && lane < cfg.lanes
    requires Quiet(run[..i + 1]) || cfg.lanes == 1
    ensures LagBelow(Locked(cfg), run[i].up, lane, 2 * C)
  {
    SingleLockUntilTerminal(cfg, run, actions, i);
    RunsAreUploads(cfg, run, actions, i);
    var u, events := ComesAsRun(Locked(cfg), cfg.lanes > 1, run[i].up);
    assert events[..|events|] == events;
    LagBound(Locked(cfg), u, events, |events|, lane);
  }

  /** And no lane's step lowers a stored offset. */
  lemma OffsetsRiseUntilTerminal(cfg: Config, run: seq<State>, actions: seq<Action>, i: nat)
    requires IsRun(cfg, run, actions) && i < |actions| && actions[i].Do? && Quiet(run[..i + 2])
    ensures Risen(cfg.lanes, StripedUpload.Stored(run[i].up.dir), StripedUpload.Stored(run[i + 1].up.dir))
  {
    assert forall j :: 0 <= j <= i + 1 ==> run[j] == run[..i + 2][j];
    assert Quiet(run[..i + 1]);
    OneLockUntilTerminal(cfg, run, actions, i);
    SingleLockUntilTerminal(cfg, run, actions, i);
    assert NextAt(cfg, run, actions, i);
    GuardIsDiscipline(cfg, run[i], actions[i].action, run[i + 1]);
    DoKeepsOneLock(cfg, run[i], actions[i].action, run[i + 1]);
    var calm := cfg.lanes > 1;
    var u, events := ComesAsRun(Locked(cfg), calm, run[i].up);
    RunKeepsLockedInv(Locked(cfg), u, events, |events|);
    StepActs(Locked(cfg), run[i].up, actions[i].action, run[i + 1].up);
  }
}
