/**
 The striped upload on the server as a step system: lane handlers that write their own range of one
 staging file, sync it, and record their progress in a shared checkpoint; disconnects and power
 losses at any point; and the first finalize (crates/metra-server/src/quic.rs).

 Storage is modelled as it behaves under power loss.
   - The transfer's directory is a log of operations that become durable in order: a power loss
     keeps some prefix of it.
   - Each byte of the staging file carries the values a power loss may leave in its place. A byte
     never synced may turn into anything; a synced byte keeps its value; overwriting a byte adds the
     new value to what may be found there.
 */
module StripedUpload {
  import opened Common
  import opened Ranges
  import opened Checkpoint

  datatype Kept = Anything | OneOf(values: set<byte>)

  datatype Cell = Cell(value: byte, kept: Kept)

  datatype DirOp =
    | CreateStaging
    | StoreCheckpoint(checkpoint: TransferCheckpoint)
    | RemoveCheckpoint
    | RenameStaging

  /** Where the disk writer of a lane is. */
  datatype WriterPhase =
    | Receiving                            // waiting for the next chunk
    | Unsynced                             // about to sync the staging file
    | Synced                               // about to load the checkpoint
    | Loaded(copy: TransferCheckpoint)     // about to store the raised copy

  datatype Handler =
    | Idle
    | NoCheckpoint                         // found no checkpoint, about to store a new one
    | Reloaded(copy: TransferCheckpoint)   // about to store the copy with its own offset rounded
    | Opened(resume: nat)                  // about to pre-size the staging file
    | Streaming(resume: nat, written: nat, sinceUpdate: nat, lastDurable: nat, closed: bool, phase: WriterPhase)
    | Received                             // every expected byte written, about to finalize
    | Finalizing(copy: TransferCheckpoint)
    | Rejected                             // destination refused, about to remove the checkpoint

  /**
   The transfer. `locked` selects the checkpoint-lock discipline: true when all tasks share one
   lock, false when tasks may hold different locks, so that a stale copy may overwrite a newer
   checkpoint; StripedLocks derives which of them applies from the table of locks. `permitted` says
   whether the destination may be written: the check that finalize makes.
   */
  datatype Config = Config(source: seq<byte>, lanes: nat, transferId: nat, locked: bool, permitted: bool)

  datatype State = State(dir: seq<DirOp>, file: seq<Cell>, handlers: seq<Handler>)

  predicate ValidConfig(cfg: Config) {
    cfg.lanes > 0 && |cfg.source| > 0
  }

  function Start(cfg: Config, lane: nat): nat
    requires ValidConfig(cfg)
  {
    LaneStart(|cfg.source|, cfg.lanes, lane)
  }

  function End(cfg: Config, lane: nat): nat
    requires ValidConfig(cfg)
  {
    LaneEnd(|cfg.source|, cfg.lanes, lane)
  }

  /** The checkpoint file that a directory holds. */
  function Stored(dir: seq<DirOp>): Option<TransferCheckpoint> {
    if dir == [] then None
    else
      match dir[|dir| - 1]
      case StoreCheckpoint(c) => Some(c)
      case RemoveCheckpoint => None
      case _ => Stored(dir[..|dir| - 1])
  }

  predicate Renamed(s: State) { RenameStaging in s.dir }

  /** The handler is between loading the checkpoint and storing it back. */
  predicate HoldsCheckpointLock(h: Handler) {
    h.NoCheckpoint? || h.Reloaded? || (h.Streaming? && h.phase.Loaded?)
  }

  predicate CheckpointLockFree(cfg: Config, s: State) {
    cfg.locked ==> forall l :: 0 <= l < |s.handlers| ==> !HoldsCheckpointLock(s.handlers[l])
  }

  // ---------------------------------------------------------------- storage

  function Overwrite(cell: Cell, value: byte): Cell {
    Cell(value, if cell.kept.Anything? then Anything else OneOf(cell.kept.values + {value}))
  }

  function WriteAt(file: seq<Cell>, pos: nat, bytes: seq<byte>): seq<Cell>
    requires pos + |bytes| <= |file|
  {
    seq(|file|, p requires 0 <= p < |file| =>
      if pos <= p < pos + |bytes| then Overwrite(file[p], bytes[p - pos]) else file[p])
  }

  /** `set_len`: cut or extend with zeros that were never synced. */
  function SetLen(file: seq<Cell>, len: nat): seq<Cell> {
    if len <= |file| then file[..len] else file + seq(len - |file|, _ => Cell(0, Anything))
  }

  /**
   `sync_data` by one lane: its own bytes [from, to) become durable. Other lanes write at the same
   time, so each of their bytes may or may not be covered.
   */
  ghost predicate SyncedBy(file: seq<Cell>, file': seq<Cell>, from: nat, to: nat) {
    && |file'| == |file|
    && forall p :: 0 <= p < |file| ==>
      && file'[p].value == file[p].value
      && (file'[p] == file[p] || file'[p].kept == OneOf({file[p].value}))
      && (from <= p < to ==> file'[p].kept == OneOf({file[p].value}))
  }

  ghost predicate MayKeep(cell: Cell, value: byte) {
    cell.kept.Anything? || value in cell.kept.values
  }

  /** What a power loss may leave of the staging file; only bytes never synced can be cut off. */
  ghost predicate AfterPowerLoss(file: seq<Cell>, file': seq<Cell>) {
    && |file'| <= |file|
    && (forall p :: 0 <= p < |file'| ==> MayKeep(file[p], file'[p].value) && file'[p].kept == OneOf({file'[p].value}))
    && (forall p :: |file'| <= p < |file| ==> file[p].kept.Anything?)
  }

  // ---------------------------------------------------------------- steps

  datatype Action =
    | FindCheckpoint(lane: nat)
    | StoreFresh(lane: nat)
    | StoreReloaded(lane: nat)
    | Presize(lane: nat)
    | WriteChunk(lane: nat, len: nat)
    | CloseStream(lane: nat)
    | SyncFile(lane: nat, file': seq<Cell>)
    | LoadForUpdate(lane: nat)
    | StoreUpdate(lane: nat)
    | FinishReceive(lane: nat)
    | LoadForFinalize(lane: nat)
    | ReportRunning(lane: nat)
    | Rename(lane: nat)
    | Reject(lane: nat)
    | RemoveRejected(lane: nat)
    | Abort(lane: nat)

  function SetHandler(s: State, lane: nat, h: Handler): State
    requires lane < |s.handlers|
  {
    s.(handlers := s.handlers[lane := h])
  }

  function Append(s: State, op: DirOp): State {
    s.(dir := s.dir + [op])
  }

  /** Opening: load the checkpoint if there is one; an empty lane is refused by the range check. */
  ghost predicate StepFindCheckpoint(cfg: Config, s: State, lane: nat, s': State)
    requires ValidConfig(cfg) && lane < |s.handlers| == cfg.lanes
  {
    && s.handlers[lane].Idle?
    && Start(cfg, lane) < End(cfg, lane)
    && CheckpointLockFree(cfg, s)
    && match Stored(s.dir)
       case None => s' == SetHandler(s, lane, NoCheckpoint)
       case Some(c) =>
         match ValidateLayout(c, |cfg.source|, cfg.lanes, Start(cfg, lane), End(cfg, lane), lane)
         case Err(_) => s' == s
         case Ok(i) => s' == SetHandler(s, lane, Reloaded(Reopened(c, i)))
  }

  ghost predicate StepStoreFresh(cfg: Config, s: State, lane: nat, s': State)
    requires ValidConfig(cfg) && lane < |s.handlers| == cfg.lanes
  {
    && s.handlers[lane].NoCheckpoint?
    && var blank := NewCheckpoint(cfg.transferId, |cfg.source|, cfg.lanes);
    && match ValidateLayout(blank, |cfg.source|, cfg.lanes, Start(cfg, lane), End(cfg, lane), lane)
       case Err(_) => s' == SetHandler(Append(s, StoreCheckpoint(blank)), lane, Idle)
       case Ok(i) => s' == SetHandler(Append(s, StoreCheckpoint(blank)), lane, Reloaded(Reopened(blank, i)))
  }

  ghost predicate StepStoreReloaded(cfg: Config, s: State, lane: nat, s': State)
    requires ValidConfig(cfg) && lane < |s.handlers| == cfg.lanes
  {
    && s.handlers[lane].Reloaded?
    && var copy := s.handlers[lane].copy;
    && lane < |copy.lanes|
    && s' == SetHandler(Append(s, StoreCheckpoint(copy)), lane, Opened(copy.lanes[lane].offset))
  }

  ghost predicate StepPresize(cfg: Config, s: State, lane: nat, s': State)
    requires ValidConfig(cfg) && lane < |s.handlers| == cfg.lanes
  {
    && s.handlers[lane].Opened?
    && var resume := s.handlers[lane].resume;
    && var created := if CreateStaging in s.dir then s else Append(s, CreateStaging);
    && s' == SetHandler(created.(file := SetLen(s.file, |cfg.source|)), lane,
                        Streaming(resume, 0, 0, resume, false, Receiving))
  }

  /** An honest sender: the next bytes of the lane, in order, and never past its end. */
  ghost predicate StepWriteChunk(cfg: Config, s: State, lane: nat, len: nat, s': State)
    requires ValidConfig(cfg) && lane < |s.handlers| == cfg.lanes
  {
    && s.handlers[lane].Streaming?
    && var h := s.handlers[lane];
    && h.phase.Receiving? && !h.closed
    && var pos := h.resume + h.written;
    && 1 <= len && pos + len <= End(cfg, lane)
    && pos + len <= |s.file| && pos + len <= |cfg.source|
    && var since := h.sinceUpdate + len;
    && s' == SetHandler(s.(file := WriteAt(s.file, pos, cfg.source[pos..pos + len])), lane,
         h.(written := h.written + len, sinceUpdate := since,
            phase := if since >= RESUME_CHUNK_SIZE_BYTES then Unsynced else Receiving))
  }

  /** The chunk channel closes: all bytes arrived, or the stream was cut. */
  ghost predicate StepCloseStream(cfg: Config, s: State, lane: nat, s': State)
    requires ValidConfig(cfg) && lane < |s.handlers| == cfg.lanes
  {
    && s.handlers[lane].Streaming?
    && var h := s.handlers[lane];
    && h.phase.Receiving? && !h.closed
    && s' == SetHandler(s, lane, h.(closed := true,
         phase := if h.resume + h.written > h.lastDurable then Unsynced else Receiving))
  }

  ghost predicate StepSyncFile(cfg: Config, s: State, lane: nat, file': seq<Cell>, s': State)
    requires ValidConfig(cfg) && lane < |s.handlers| == cfg.lanes
  {
    && s.handlers[lane].Streaming?
    && var h := s.handlers[lane];
    && h.phase.Unsynced?
    && SyncedBy(s.file, file', h.resume, h.resume + h.written)
    && s' == SetHandler(s.(file := file'), lane, h.(phase := Synced))
  }

  ghost predicate StepLoadForUpdate(cfg: Config, s: State, lane: nat, s': State)
    requires ValidConfig(cfg) && lane < |s.handlers| == cfg.lanes
  {
    && s.handlers[lane].Streaming?
    && var h := s.handlers[lane];
    && h.phase.Synced?
    && CheckpointLockFree(cfg, s)
    && match Stored(s.dir)
       case None => s' == SetHandler(s, lane, Idle)
       case Some(c) => s' == SetHandler(s, lane, h.(phase := Loaded(c)))
  }

  ghost predicate StepStoreUpdate(cfg: Config, s: State, lane: nat, s': State)
    requires ValidConfig(cfg) && lane < |s.handlers| == cfg.lanes
  {
    && s.handlers[lane].Streaming?
    && var h := s.handlers[lane];
    && h.phase.Loaded?
    && lane < |h.phase.copy.lanes|
    && h.phase.copy.lanes[lane].rangeStart <= h.phase.copy.lanes[lane].rangeEndExclusive
    && var raised := Raised(h.phase.copy, lane, h.resume + h.written);
    && s' == SetHandler(Append(s, StoreCheckpoint(raised)), lane,
         h.(phase := Receiving, lastDurable := h.resume + h.written, sinceUpdate := 0))
  }

  /** The writer is joined: finalize if the whole lane arrived, otherwise the session is over. */
  ghost predicate StepFinishReceive(cfg: Config, s: State, lane: nat, s': State)
    requires ValidConfig(cfg) && lane < |s.handlers| == cfg.lanes
  {
    && s.handlers[lane].Streaming?
    && var h := s.handlers[lane];
    && h.phase.Receiving? && h.closed
    && s' == SetHandler(s, lane, if h.resume + h.written == End(cfg, lane) then Received else Idle)
  }

  ghost predicate StepLoadForFinalize(cfg: Config, s: State, lane: nat, s': State)
    requires ValidConfig(cfg) && lane < |s.handlers| == cfg.lanes
  {
    && s.handlers[lane].Received?
    && CheckpointLockFree(cfg, s)
    && match Stored(s.dir)
       case None => s' == SetHandler(s, lane, Idle)
       case Some(c) => s' == SetHandler(s, lane, Finalizing(c))
  }

  ghost predicate StepDecide(cfg: Config, s: State, a: Action, s': State)
    requires ValidConfig(cfg) && a.lane < |s.handlers| == cfg.lanes
  {
    && s.handlers[a.lane].Finalizing?
    && var complete := AllLanesComplete(s.handlers[a.lane].copy);
    match a
    case ReportRunning(lane) => !complete && s' == SetHandler(s, lane, Idle)
    case Rename(lane) => complete && cfg.permitted && s' == SetHandler(Append(s, RenameStaging), lane, Idle)
    case Reject(lane) => complete && !cfg.permitted && s' == SetHandler(s, lane, Rejected)
    case _ => false
  }

  ghost predicate StepRemoveRejected(cfg: Config, s: State, lane: nat, s': State)
    requires ValidConfig(cfg) && lane < |s.handlers| == cfg.lanes
  {
    && s.handlers[lane].Rejected?
    && s' == SetHandler(Append(s, RemoveCheckpoint), lane, Idle)
  }

  ghost predicate LaneStep(cfg: Config, s: State, a: Action, s': State)
    requires ValidConfig(cfg)
  {
    && a.lane < |s.handlers| == cfg.lanes
    && !Renamed(s)
    && match a
       case FindCheckpoint(lane) => StepFindCheckpoint(cfg, s, lane, s')
       case StoreFresh(lane) => StepStoreFresh(cfg, s, lane, s')
       case StoreReloaded(lane) => StepStoreReloaded(cfg, s, lane, s')
       case Presize(lane) => StepPresize(cfg, s, lane, s')
       case WriteChunk(lane, len) => StepWriteChunk(cfg, s, lane, len, s')
       case CloseStream(lane) => StepCloseStream(cfg, s, lane, s')
       case SyncFile(lane, file') => StepSyncFile(cfg, s, lane, file', s')
       case LoadForUpdate(lane) => StepLoadForUpdate(cfg, s, lane, s')
       case StoreUpdate(lane) => StepStoreUpdate(cfg, s, lane, s')
       case FinishReceive(lane) => StepFinishReceive(cfg, s, lane, s')
       case LoadForFinalize(lane) => StepLoadForFinalize(cfg, s, lane, s')
       case ReportRunning(_) => StepDecide(cfg, s, a, s')
       case Rename(_) => StepDecide(cfg, s, a, s')
       case Reject(_) => StepDecide(cfg, s, a, s')
       case RemoveRejected(lane) => StepRemoveRejected(cfg, s, lane, s')
       case Abort(lane) => s' == SetHandler(s, lane, Idle)
  }

  /** A power loss ends every handler and keeps a prefix of the directory operations. */
  ghost predicate PowerLoss(cfg: Config, s: State, keep: nat, s': State) {
    && !Renamed(s)
    && keep <= |s.dir|
    && s'.dir == s.dir[..keep]
    && s'.handlers == seq(cfg.lanes, _ => Idle)
    && (if CreateStaging in s'.dir then AfterPowerLoss(s.file, s'.file) else s'.file == [])
  }

  datatype Event = Lane(action: Action) | Loss(keep: nat)

  ghost predicate Next(cfg: Config, s: State, e: Event, s': State)
    requires ValidConfig(cfg)
  {
    match e
    case Lane(a) => LaneStep(cfg, s, a, s')
    case Loss(keep) => PowerLoss(cfg, s, keep, s')
  }

  function Init(cfg: Config): State {
    State([], [], seq(cfg.lanes, _ => Idle))
  }

  ghost predicate NextAt(cfg: Config, run: seq<State>, events: seq<Event>, i: nat)
    requires ValidConfig(cfg) && i < |events| < |run|
  {
    Next(cfg, run[i], events[i], run[i + 1])
  }

  /** A run: any interleaving of lane steps and power losses from the empty directory. */
  ghost predicate IsRun(cfg: Config, run: seq<State>, events: seq<Event>) {
    && ValidConfig(cfg)
    && |run| == |events| + 1
    && run[0] == Init(cfg)
    && forall i :: 0 <= i < |events| ==> NextAt(cfg, run, events, i)
  }
}
