/**
 The race of the lanes to finalize, in one session from a fresh checkpoint, with no stream error:
 every lane updates the checkpoint, takes the transfer's finalize lock, and decides
 (crates/metra-server/src/quic.rs, crates/metra-server/src/state.rs).

 Locks are modelled by identity, because a terminal status drops the lock from the table: a later
 lane then gets a different lock and may be in the critical section together with an earlier one.
 */
module FinalizeRace {
  import opened Common
  import opened Ranges
  import opened Checkpoint
  import opened SessionReport

  datatype Config = Config(fileSize: nat, lanes: nat, transferId: nat, overwrite: bool, immutable: bool, destExists: bool)

  /** At least one lane and no empty lane: what the client's lane normalization gives. */
  predicate ValidConfig(cfg: Config) {
    1 <= cfg.lanes <= cfg.fileSize
  }

  predicate Refuses(cfg: Config, destExists: bool) {
    (cfg.immutable && destExists) || (!cfg.overwrite && destExists)
  }

  /** The destination can be written: the check a caller can make before the upload. */
  predicate Permitted(cfg: Config) {
    !Refuses(cfg, cfg.destExists)
  }

  datatype Stage =
    | Entered                          // about to read the status
    | NotDone                          // about to load the checkpoint
    | Read(complete: bool)             // about to decide
    | DestinationOk                     // destination checked, about to rename
    | Moved                            // renamed, about to set the status
    | Marked(status: TransferStatus)   // terminal status set, about to drop the locks
    | Dropped(status: TransferStatus)  // about to remove the checkpoint

  datatype LanePc =
    | NotOpened
    | Reloaded                           // checkpoint loaded, about to set Running
    | Streaming(offset: nat)             // last offset recorded in the checkpoint
    | WaitingFor(lock: nat)
    | Critical(lock: nat, stage: Stage)
    | Broken                             // stream error, about to read the status
    | Failing                            // saw Running, about to set Failed
    | Acked(status: TransferStatus)
    | Errored

  datatype State = State(
    lanes: seq<LanePc>,
    stored: Option<TransferCheckpoint>,
    status: TransferStatus,
    lockTable: Option<nat>,
    nextLock: nat,
    destExists: bool,
    renames: nat)

  function Start(cfg: Config, l: nat): nat requires ValidConfig(cfg) { LaneStart(cfg.fileSize, cfg.lanes, l) }

  function End(cfg: Config, l: nat): nat requires ValidConfig(cfg) { LaneEnd(cfg.fileSize, cfg.lanes, l) }

  predicate Terminal(status: TransferStatus) { status.Completed? || status.Failed? }

  function Init(cfg: Config): State {
    State(seq(cfg.lanes, _ => NotOpened), None, Queued, None, 0, cfg.destExists, 0)
  }

  // ---------------------------------------------------------------- steps

  /** One step of a lane; `Advance` carries the offset the writer records next. */
  datatype Action = Advance(lane: nat, to: nat) | Go(lane: nat)

  predicate Enabled(cfg: Config, s: State, a: Action)
    requires ValidConfig(cfg)
  {
    && a.lane < |s.lanes| == cfg.lanes
    && match s.lanes[a.lane]
       case Streaming(o) =>
         if o < End(cfg, a.lane) then a.Advance? && o < a.to <= End(cfg, a.lane) else a.Go?
       case WaitingFor(lock) =>
         a.Go? && forall j :: 0 <= j < |s.lanes| ==> !(s.lanes[j].Critical? && s.lanes[j].lock == lock)
       case Acked(_) => false
       case Errored => false
       case _ => a.Go?
  }

  function SetLane(s: State, l: nat, pc: LanePc): State
    requires l < |s.lanes|
  {
    s.(lanes := s.lanes[l := pc])
  }

  function Open(cfg: Config, s: State, l: nat): State
    requires ValidConfig(cfg) && l < |s.lanes|
    requires Start(cfg, l) <= End(cfg, l)
  {
    var (stored, r) := LoadOrInit(s.stored, cfg.transferId, cfg.fileSize, cfg.lanes, l, Start(cfg, l), End(cfg, l));
    SetLane(s.(stored := stored), l, if r.Ok? then Reloaded else Errored)
  }

  function Record(cfg: Config, s: State, l: nat, to: nat): State
    requires ValidConfig(cfg) && l < |s.lanes|
  {
    var (stored, r) := UpdateOffset(s.stored, l, to);
    SetLane(s.(stored := stored), l, if r.Ok? then Streaming(to) else Broken)
  }

  /** `finalize_lock_for`: the lock in the table, or a new one. */
  function AskLock(s: State, l: nat): State
    requires l < |s.lanes|
  {
    match s.lockTable
    case Some(lock) => SetLane(s, l, WaitingFor(lock))
    case None => SetLane(s.(lockTable := Some(s.nextLock), nextLock := s.nextLock + 1), l, WaitingFor(s.nextLock))
  }

  function InLock(cfg: Config, s: State, l: nat, lock: nat, stage: Stage): State
    requires l < |s.lanes|
  {
    match stage
    case Entered =>
      SetLane(s, l, if s.status.Completed? then Acked(Completed) else Critical(lock, NotDone))
    case NotDone =>
      (match s.stored
       case None => SetLane(s, l, Broken)
       case Some(c) => SetLane(s, l, Critical(lock, Read(AllLanesComplete(c)))))
    case Read(complete) =>
      if !complete then SetLane(s.(status := Running), l, Acked(Running))
      else if Refuses(cfg, s.destExists) then SetLane(s.(status := Failed), l, Critical(lock, Marked(Failed)))
      else SetLane(s, l, Critical(lock, DestinationOk))
    case DestinationOk =>
      SetLane(s.(renames := s.renames + 1, destExists := true), l, Critical(lock, Moved))
    case Moved => SetLane(s.(status := Completed), l, Critical(lock, Marked(Completed)))
    case Marked(status) => SetLane(s.(lockTable := None), l, Critical(lock, Dropped(status)))
    case Dropped(status) => SetLane(s.(stored := None), l, Acked(status))
  }

  ghost function Do(cfg: Config, s: State, a: Action): State
    requires ValidConfig(cfg) && Enabled(cfg, s, a)
  {
    var l := a.lane;
    match s.lanes[l]
    case NotOpened => LaneInsideFile(cfg.fileSize, cfg.lanes, l); Open(cfg, s, l)
    case Reloaded => SetLane(s.(status := Running), l, Streaming(Start(cfg, l)))
    case Streaming(o) => if a.Advance? then Record(cfg, s, l, a.to) else AskLock(s, l)
    case WaitingFor(lock) => SetLane(s, l, Critical(lock, Entered))
    case Critical(lock, stage) => InLock(cfg, s, l, lock, stage)
    case Broken => SetLane(s, l, if s.status.Running? then Failing else Errored)
    case Failing => SetLane(s.(status := Failed, lockTable := None), l, Errored)
    case _ => s
  }

  ghost predicate NextAt(cfg: Config, run: seq<State>, actions: seq<Action>, i: nat)
    requires ValidConfig(cfg) && i < |actions| < |run|
  {
    Enabled(cfg, run[i], actions[i]) && run[i + 1] == Do(cfg, run[i], actions[i])
  }

  /** A run: any interleaving of the lanes, one step at a time, from a transfer nobody has opened. */
  ghost predicate IsRun(cfg: Config, run: seq<State>, actions: seq<Action>) {
    && ValidConfig(cfg)
    && |run| == |actions| + 1
    && run[0] == Init(cfg)
    && forall i :: 0 <= i < |actions| ==> NextAt(cfg, run, actions, i)
  }

  /** Nothing more can happen. */
  ghost predicate Stuck(cfg: Config, s: State)
    requires ValidConfig(cfg)
  {
    forall a :: !Enabled(cfg, s, a)
  }

  predicate Answered(pc: LanePc) { pc.Acked? || pc.Errored? }

  // ---------------------------------------------------------------- the invariant

  predicate Finished(cfg: Config, l: nat, pc: LanePc)
    requires ValidConfig(cfg)
  {
    match pc
    case NotOpened => false
    case Reloaded => false
    case Streaming(o) => o == End(cfg, l)
    case _ => true
  }

  ghost predicate AllFinished(cfg: Config, s: State)
    requires ValidConfig(cfg)
  {
    forall l :: 0 <= l < |s.lanes| ==> Finished(cfg, l, s.lanes[l])
  }

  /** The lane has not yet decided whether it is the last one. */
  predicate Undecided(pc: LanePc) {
    match pc
    case NotOpened => true
    case Reloaded => true
    case Streaming(_) => true
    case WaitingFor(_) => true
    case Critical(_, stage) => stage.Entered? || stage.NotDone? || (stage.Read? && stage.complete) || stage.DestinationOk? || stage.Moved?
    case _ => false
  }

  /** The lane saw other lanes incomplete and gave up. */
  predicate GaveUp(pc: LanePc) {
    pc == Acked(Running) || (pc.Critical? && pc.stage == Read(false))
  }

  predicate Announces(pc: LanePc) {
    pc == Acked(Completed) || (pc.Critical? && (pc.stage == Marked(Completed) || pc.stage == Dropped(Completed)))
  }

  ghost predicate SomeUndecided(s: State) { exists l :: 0 <= l < |s.lanes| && Undecided(s.lanes[l]) }

  ghost predicate SomeMoved(s: State) {
    exists l :: 0 <= l < |s.lanes| && s.lanes[l].Critical? && s.lanes[l].stage.Moved?
  }

  ghost predicate SomeAnnounces(s: State) { exists l :: 0 <= l < |s.lanes| && Announces(s.lanes[l]) }

  /** The stored offset of a lane reaches its end exactly when the lane is finished. */
  ghost predicate OffsetOk(cfg: Config, s: State, l: nat)
    requires ValidConfig(cfg) && s.stored.Some? && l < |s.lanes| == |s.stored.value.lanes|
  {
    var offset := s.stored.value.lanes[l].offset;
    match s.lanes[l]
    case NotOpened => offset == Start(cfg, l)
    case Reloaded => offset == Start(cfg, l)
    case Streaming(o) => Start(cfg, l) <= offset <= o <= End(cfg, l) && (o == End(cfg, l) ==> offset == End(cfg, l))
    case _ => offset == End(cfg, l)
  }

  ghost predicate StoreInv(cfg: Config, s: State)
    requires ValidConfig(cfg)
  {
    && |s.lanes| == cfg.lanes
    && (s.stored.Some? ==>
          && Canonical(s.stored.value, cfg.fileSize, cfg.lanes)
          && forall l :: 0 <= l < cfg.lanes ==> OffsetOk(cfg, s, l))
    && (!Terminal(s.status) && s.stored.None? ==> forall l :: 0 <= l < cfg.lanes ==> s.lanes[l].NotOpened?)
  }

  predicate HasLock(pc: LanePc) { pc.WaitingFor? || pc.Critical? }

  ghost predicate LockInv(s: State) {
    && (s.lockTable.Some? ==> s.lockTable.value < s.nextLock)
    && (forall l :: 0 <= l < |s.lanes| && HasLock(s.lanes[l]) ==> s.lanes[l].lock < s.nextLock)
    && (!Terminal(s.status) ==>
          forall l :: 0 <= l < |s.lanes| && HasLock(s.lanes[l]) ==> s.lockTable == Some(s.lanes[l].lock))
    && (forall i, j | 0 <= i < |s.lanes| && 0 <= j < |s.lanes| ::
          s.lanes[i].Critical? && s.lanes[j].Critical? && s.lanes[i].lock == s.lanes[j].lock ==> i == j)
  }

  ghost predicate LaneInv(cfg: Config, s: State, l: nat)
    requires ValidConfig(cfg) && l < |s.lanes|
  {
    match s.lanes[l]
    case Streaming(o) => o <= End(cfg, l)
    case Critical(_, stage) =>
      (match stage
       case Entered => true
       case NotDone => Permitted(cfg) ==> !Terminal(s.status)
       case Read(complete) =>
         (if complete then AllFinished(cfg, s) && (Permitted(cfg) ==> !Terminal(s.status)) else !Terminal(s.status))
       case DestinationOk => AllFinished(cfg, s) && Permitted(cfg) && !Terminal(s.status)
       case Moved => AllFinished(cfg, s) && Permitted(cfg) && !Terminal(s.status) && s.renames == 1
       case Marked(status) => Terminal(status) && s.status == status
       case Dropped(status) => Terminal(status) && s.status == status)
    case Broken => !Permitted(cfg) && s.status.Failed?
    case Failing => false
    case Acked(status) => status.Running? || (Terminal(status) && s.status == status)
    case Errored => !Permitted(cfg) && s.status.Failed?
    case _ => true
  }

  ghost predicate OutcomeInv(cfg: Config, s: State)
    requires ValidConfig(cfg)
  {
    && (Terminal(s.status) ==> AllFinished(cfg, s))
    && (s.status.Completed? ==> Permitted(cfg) && s.renames == 1 && SomeAnnounces(s))
    && (s.status.Failed? ==> !Permitted(cfg))
    && (s.renames == 0 ==> s.destExists == cfg.destExists)
    && (s.renames > 0 ==> Permitted(cfg) && s.renames == 1 && (s.status.Completed? || SomeMoved(s)))
    && (!Terminal(s.status) && (exists l :: 0 <= l < |s.lanes| && GaveUp(s.lanes[l])) ==> SomeUndecided(s))
  }

  ghost predicate Inv(cfg: Config, s: State)
    requires ValidConfig(cfg)
  {
    && StoreInv(cfg, s)
    && LockInv(s)
    && (forall l :: 0 <= l < |s.lanes| ==> LaneInv(cfg, s, l))
    && OutcomeInv(cfg, s)
  }
}
