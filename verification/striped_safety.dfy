/** Crash consistency and content correctness of the striped upload, over every run. */
module StripedSafety {
  import opened Common
  import opened Ranges
  import opened Checkpoint
  import opened StripedUpload

  /** The byte holds the source's value and no power loss can take it away. */
  ghost predicate DurableAt(cfg: Config, file: seq<Cell>, p: int) {
    0 <= p < |file| && p < |cfg.source| && file[p] == Cell(cfg.source[p], OneOf({cfg.source[p]}))
  }

  ghost predicate WrittenAt(cfg: Config, file: seq<Cell>, p: int) {
    0 <= p < |file| && p < |cfg.source| && file[p].value == cfg.source[p]
  }

  ghost predicate Durable(cfg: Config, file: seq<Cell>, from: int, to: int) {
    forall p :: from <= p < to ==> DurableAt(cfg, file, p)
  }

  ghost predicate Written(cfg: Config, file: seq<Cell>, from: int, to: int) {
    forall p :: from <= p < to ==> WrittenAt(cfg, file, p)
  }

  /** Everything a checkpoint claims to have received is durable. */
  ghost predicate Claims(cfg: Config, c: TransferCheckpoint, file: seq<Cell>) {
    forall i :: 0 <= i < |c.lanes| ==> Durable(cfg, file, c.lanes[i].rangeStart, c.lanes[i].offset)
  }

  ghost predicate Sound(cfg: Config, c: TransferCheckpoint, file: seq<Cell>) {
    Canonical(c, |cfg.source|, cfg.lanes) && Claims(cfg, c, file)
  }

  ghost predicate Untouched(c: TransferCheckpoint) {
    forall i :: 0 <= i < |c.lanes| ==> c.lanes[i].offset <= c.lanes[i].rangeStart
  }

  // ---------------------------------------------------------------- the invariant

  /** Every checkpoint in the directory log is sound, and claims nothing before the file existed. */
  ghost predicate SoundEntry(cfg: Config, dir: seq<DirOp>, file: seq<Cell>, j: int)
    requires 0 <= j < |dir|
  {
    dir[j].StoreCheckpoint? ==>
      && Sound(cfg, dir[j].checkpoint, file)
      && (CreateStaging in dir[..j] || Untouched(dir[j].checkpoint))
  }

  ghost predicate SoundDir(cfg: Config, dir: seq<DirOp>, file: seq<Cell>) {
    && (forall j :: 0 <= j < |dir| ==> SoundEntry(cfg, dir, file, j))
    && (CreateStaging !in dir ==> file == [])
    && |file| <= |cfg.source|
  }

  ghost predicate SoundStream(cfg: Config, lane: nat, h: Handler, dir: seq<DirOp>, file: seq<Cell>)
    requires ValidConfig(cfg) && h.Streaming?
  {
    var reached := h.resume + h.written;
    && CreateStaging in dir && |file| == |cfg.source|
    && Start(cfg, lane) <= h.resume <= h.lastDurable <= reached <= End(cfg, lane)
    && h.sinceUpdate == reached - h.lastDurable
    && Durable(cfg, file, Start(cfg, lane), h.lastDurable)
    && Written(cfg, file, h.lastDurable, reached)
    && (h.phase.Receiving? && !h.closed ==> h.sinceUpdate < RESUME_CHUNK_SIZE_BYTES)
    && (h.phase.Receiving? && h.closed ==> h.sinceUpdate == 0)
    && (h.phase.Synced? || h.phase.Loaded? ==> Durable(cfg, file, Start(cfg, lane), reached))
    && (h.phase.Loaded? ==> Sound(cfg, h.phase.copy, file))
  }

  ghost predicate SoundHandler(cfg: Config, lane: nat, h: Handler, dir: seq<DirOp>, file: seq<Cell>)
    requires ValidConfig(cfg)
  {
    match h
    case Reloaded(copy) => Sound(cfg, copy, file)
    case Opened(resume) =>
      Start(cfg, lane) <= resume <= End(cfg, lane) && Durable(cfg, file, Start(cfg, lane), resume)
    case Streaming(_, _, _, _, _, _) => SoundStream(cfg, lane, h, dir, file)
    case Finalizing(copy) => Sound(cfg, copy, file)
    case _ => true
  }

  ghost predicate Inv(cfg: Config, s: State)
    requires ValidConfig(cfg)
  {
    && |s.handlers| == cfg.lanes
    && SoundDir(cfg, s.dir, s.file)
    && forall l :: 0 <= l < |s.handlers| ==> SoundHandler(cfg, l, s.handlers[l], s.dir, s.file)
  }

  // ---------------------------------------------------------------- what steps keep

  /** The file changed without losing a correct byte: it only grew, and correct bytes stayed. */
  ghost predicate FileKept(cfg: Config, file: seq<Cell>, file': seq<Cell>) {
    && |file| <= |file'| <= |cfg.source|
    && forall p {:trigger WrittenAt(cfg, file', p)} {:trigger DurableAt(cfg, file', p)} ::
        && (WrittenAt(cfg, file, p) ==> WrittenAt(cfg, file', p))
        && (DurableAt(cfg, file, p) ==> DurableAt(cfg, file', p))
  }

  lemma SoundKept(cfg: Config, c: TransferCheckpoint, file: seq<Cell>, file': seq<Cell>)
    requires Sound(cfg, c, file) && FileKept(cfg, file, file')
    ensures Sound(cfg, c, file')
  {
    forall i | 0 <= i < |c.lanes| ensures Durable(cfg, file', c.lanes[i].rangeStart, c.lanes[i].offset) {
      assert Durable(cfg, file, c.lanes[i].rangeStart, c.lanes[i].offset);
    }
  }

  lemma HandlerKept(cfg: Config, lane: nat, h: Handler, dir: seq<DirOp>, file: seq<Cell>, dir': seq<DirOp>, file': seq<Cell>)
    requires ValidConfig(cfg) && SoundHandler(cfg, lane, h, dir, file)
    requires FileKept(cfg, file, file') && dir <= dir'
    ensures SoundHandler(cfg, lane, h, dir', file')
  {
    match h {
      case Reloaded(copy) => SoundKept(cfg, copy, file, file');
      case Finalizing(copy) => SoundKept(cfg, copy, file, file');
      case Streaming(_, _, _, _, _, phase) =>
        assert forall op :: op in dir ==> op in dir';
        if phase.Loaded? {
          SoundKept(cfg, phase.copy, file, file');
        }
      case _ =>
    }
  }

  lemma DirKept(cfg: Config, dir: seq<DirOp>, file: seq<Cell>, file': seq<Cell>)
    requires SoundDir(cfg, dir, file) && FileKept(cfg, file, file')
    ensures forall j :: 0 <= j < |dir| ==> SoundEntry(cfg, dir, file', j)
  {
    forall j | 0 <= j < |dir| ensures SoundEntry(cfg, dir, file', j) {
      assert SoundEntry(cfg, dir, file, j);
      if dir[j].StoreCheckpoint? {
        SoundKept(cfg, dir[j].checkpoint, file, file');
      }
    }
  }

  lemma ClaimsNothingWithoutFile(cfg: Config, c: TransferCheckpoint)
    requires Sound(cfg, c, [])
    ensures Untouched(c)
  {
    forall i | 0 <= i < |c.lanes| ensures c.lanes[i].offset <= c.lanes[i].rangeStart {
      assert Durable(cfg, [], c.lanes[i].rangeStart, c.lanes[i].offset);
      assert c.lanes[i].rangeStart < c.lanes[i].offset ==> DurableAt(cfg, [], c.lanes[i].rangeStart);
    }
  }

  lemma DirAppended(cfg: Config, dir: seq<DirOp>, file: seq<Cell>, op: DirOp)
    requires SoundDir(cfg, dir, file)
    requires op.StoreCheckpoint? ==> Sound(cfg, op.checkpoint, file)
    ensures SoundDir(cfg, dir + [op], file)
  {
    var dir' := dir + [op];
    forall j | 0 <= j < |dir'| ensures SoundEntry(cfg, dir', file, j) {
      if j < |dir| {
        assert SoundEntry(cfg, dir, file, j);
        assert dir'[..j] == dir[..j];
      } else {
        assert dir'[..j] == dir;
        if op.StoreCheckpoint? && CreateStaging !in dir {
          ClaimsNothingWithoutFile(cfg, op.checkpoint);
        }
      }
    }
  }

  /** A step of one lane keeps the invariant if it keeps the file, the log and its own handler sound. */
  lemma LaneKeepsInv(cfg: Config, s: State, lane: nat, s': State)
    requires ValidConfig(cfg) && Inv(cfg, s) && lane < cfg.lanes
    requires |s'.handlers| == |s.handlers|
    requires forall l :: 0 <= l < |s.handlers| && l != lane ==> s'.handlers[l] == s.handlers[l]
    requires s.dir <= s'.dir && SoundDir(cfg, s'.dir, s'.file) && FileKept(cfg, s.file, s'.file)
    requires SoundHandler(cfg, lane, s'.handlers[lane], s'.dir, s'.file)
    ensures Inv(cfg, s')
  {
    forall l | 0 <= l < |s'.handlers| ensures SoundHandler(cfg, l, s'.handlers[l], s'.dir, s'.file) {
      if l != lane {
        HandlerKept(cfg, l, s.handlers[l], s.dir, s.file, s'.dir, s'.file);
      }
    }
  }

  lemma {:induction false} StoredIsSound(cfg: Config, dir: seq<DirOp>, file: seq<Cell>)
    requires forall j :: 0 <= j < |dir| ==> SoundEntry(cfg, dir, file, j)
    ensures Stored(dir).Some? ==> Sound(cfg, Stored(dir).value, file)
  {
    if dir != [] {
      var last := |dir| - 1;
      assert SoundEntry(cfg, dir, file, last);
      forall j | 0 <= j < last ensures SoundEntry(cfg, dir[..last], file, j) {
        assert SoundEntry(cfg, dir, file, j);
        assert dir[..last][..j] == dir[..j];
      }
      StoredIsSound(cfg, dir[..last], file);
    }
  }

  lemma FreshIsSound(cfg: Config, file: seq<Cell>)
    requires ValidConfig(cfg)
    ensures Sound(cfg, NewCheckpoint(cfg.transferId, |cfg.source|, cfg.lanes), file)
  {
    NewIsCanonical(cfg.transferId, |cfg.source|, cfg.lanes);
  }

  /** Raising a lane of a sound copy to an offset whose bytes are durable keeps the copy sound. */
  lemma RaisedIsSound(cfg: Config, c: TransferCheckpoint, file: seq<Cell>, lane: nat, reached: nat)
    requires ValidConfig(cfg) && Sound(cfg, c, file) && lane < cfg.lanes
    requires Start(cfg, lane) <= reached <= End(cfg, lane) && Durable(cfg, file, Start(cfg, lane), reached)
    ensures c.lanes[lane].rangeStart <= c.lanes[lane].rangeEndExclusive
    ensures Sound(cfg, Raised(c, lane, reached), file)
  {
    RaisedStaysCanonical(c, |cfg.source|, cfg.lanes, lane, reached);
    assert CanonicalLane(c, lane);
    DurableLag(reached, c.lanes[lane].rangeStart, c.lanes[lane].rangeEndExclusive);
    var r := Raised(c, lane, reached);
    forall i | 0 <= i < |r.lanes| ensures Durable(cfg, file, r.lanes[i].rangeStart, r.lanes[i].offset) {
      assert Durable(cfg, file, c.lanes[i].rangeStart, c.lanes[i].offset);
      assert CanonicalLane(c, i);
    }
  }

  // ---------------------------------------------------------------- one lemma per kind of step

  lemma OpeningKeepsInv(cfg: Config, s: State, a: Action, s': State)
    requires ValidConfig(cfg) && Inv(cfg, s) && LaneStep(cfg, s, a, s')
    requires a.FindCheckpoint? || a.StoreFresh? || a.StoreReloaded?
    ensures Inv(cfg, s')
  {
    var lane := a.lane;
    assert SoundHandler(cfg, lane, s.handlers[lane], s.dir, s.file);
    LaneInsideFile(|cfg.source|, cfg.lanes, lane);
    match a {
      case FindCheckpoint(_) =>
        StoredIsSound(cfg, s.dir, s.file);
        if Stored(s.dir).Some? {
          CanonicalValidates(Stored(s.dir).value, |cfg.source|, cfg.lanes, lane);
          ReopenedIsIdentity(Stored(s.dir).value, |cfg.source|, cfg.lanes, lane);
        }
      case StoreFresh(_) =>
        var c := NewCheckpoint(cfg.transferId, |cfg.source|, cfg.lanes);
        FreshIsSound(cfg, s.file);
        CanonicalValidates(c, |cfg.source|, cfg.lanes, lane);
        ReopenedIsIdentity(c, |cfg.source|, cfg.lanes, lane);
        DirAppended(cfg, s.dir, s.file, StoreCheckpoint(c));
      case StoreReloaded(_) =>
        var copy := s.handlers[lane].copy;
        DirAppended(cfg, s.dir, s.file, StoreCheckpoint(copy));
        assert CanonicalLane(copy, lane);
    }
    LaneKeepsInv(cfg, s, lane, s');
  }

  lemma PresizeKeepsInv(cfg: Config, s: State, lane: nat, s': State)
    requires ValidConfig(cfg) && Inv(cfg, s) && LaneStep(cfg, s, Presize(lane), s')
    ensures Inv(cfg, s')
  {
    assert SoundHandler(cfg, lane, s.handlers[lane], s.dir, s.file);
    assert FileKept(cfg, s.file, s'.file);
    DirKept(cfg, s.dir, s.file, s'.file);
    if CreateStaging !in s.dir {
      assert s'.dir[|s.dir|] == CreateStaging;
      forall j | 0 <= j < |s'.dir| ensures SoundEntry(cfg, s'.dir, s'.file, j) {
        if j < |s.dir| {
          assert SoundEntry(cfg, s.dir, s'.file, j);
          assert s'.dir[..j] == s.dir[..j];
        }
      }
    }
    LaneKeepsInv(cfg, s, lane, s');
  }

  lemma WriteKeepsFile(cfg: Config, file: seq<Cell>, pos: nat, len: nat)
    requires pos + len <= |file| <= |cfg.source|
    ensures var file' := WriteAt(file, pos, cfg.source[pos..pos + len]);
            FileKept(cfg, file, file') && Written(cfg, file', pos, pos + len)
  {
    var file' := WriteAt(file, pos, cfg.source[pos..pos + len]);
    forall p | DurableAt(cfg, file, p) ensures DurableAt(cfg, file', p) {
      var v := cfg.source[p];
      assert {v} + {v} == {v};
    }
  }

  lemma WriteKeepsInv(cfg: Config, s: State, lane: nat, len: nat, s': State)
    requires ValidConfig(cfg) && Inv(cfg, s) && LaneStep(cfg, s, WriteChunk(lane, len), s')
    ensures Inv(cfg, s')
  {
    var h := s.handlers[lane];
    assert SoundHandler(cfg, lane, h, s.dir, s.file);
    WriteKeepsFile(cfg, s.file, h.resume + h.written, len);
    DirKept(cfg, s.dir, s.file, s'.file);
    LaneKeepsInv(cfg, s, lane, s');
  }

  lemma SyncKeepsFile(cfg: Config, file: seq<Cell>, file': seq<Cell>, from: nat, to: nat)
    requires SyncedBy(file, file', from, to) && |file| <= |cfg.source|
    ensures FileKept(cfg, file, file')
    ensures forall p :: from <= p < to && WrittenAt(cfg, file, p) ==> DurableAt(cfg, file', p)
  {
  }

  lemma SyncKeepsInv(cfg: Config, s: State, lane: nat, file': seq<Cell>, s': State)
    requires ValidConfig(cfg) && Inv(cfg, s) && LaneStep(cfg, s, SyncFile(lane, file'), s')
    ensures Inv(cfg, s')
  {
    var h := s.handlers[lane];
    assert SoundHandler(cfg, lane, h, s.dir, s.file);
    SyncKeepsFile(cfg, s.file, file', h.resume, h.resume + h.written);
    DirKept(cfg, s.dir, s.file, s'.file);
    LaneKeepsInv(cfg, s, lane, s');
  }

  lemma UpdateKeepsInv(cfg: Config, s: State, a: Action, s': State)
    requires ValidConfig(cfg) && Inv(cfg, s) && LaneStep(cfg, s, a, s')
    requires a.LoadForUpdate? || a.StoreUpdate?
    ensures Inv(cfg, s')
  {
    var lane := a.lane;
    var h := s.handlers[lane];
    assert SoundHandler(cfg, lane, h, s.dir, s.file);
    if a.LoadForUpdate? {
      StoredIsSound(cfg, s.dir, s.file);
    } else {
      RaisedIsSound(cfg, h.phase.copy, s.file, lane, h.resume + h.written);
      DirAppended(cfg, s.dir, s.file, StoreCheckpoint(Raised(h.phase.copy, lane, h.resume + h.written)));
    }
    LaneKeepsInv(cfg, s, lane, s');
  }

  lemma EndingKeepsInv(cfg: Config, s: State, a: Action, s': State)
    requires ValidConfig(cfg) && Inv(cfg, s) && LaneStep(cfg, s, a, s')
    requires a.CloseStream? || a.FinishReceive? || a.LoadForFinalize? || a.ReportRunning? || a.Rename?
          || a.Reject? || a.RemoveRejected? || a.Abort?
    ensures Inv(cfg, s')
  {
    assert SoundHandler(cfg, a.lane, s.handlers[a.lane], s.dir, s.file);
    StoredIsSound(cfg, s.dir, s.file);
    DirAppended(cfg, s.dir, s.file, RenameStaging);
    DirAppended(cfg, s.dir, s.file, RemoveCheckpoint);
    LaneKeepsInv(cfg, s, a.lane, s');
  }

  lemma PowerLossKeepsInv(cfg: Config, s: State, keep: nat, s': State)
    requires ValidConfig(cfg) && Inv(cfg, s) && PowerLoss(cfg, s, keep, s')
    ensures Inv(cfg, s')
  {
    forall j | 0 <= j < |s'.dir| ensures SoundEntry(cfg, s'.dir, s'.file, j) {
      assert SoundEntry(cfg, s.dir, s.file, j);
      assert s'.dir[..j] == s.dir[..j];
      if s'.dir[j].StoreCheckpoint? {
        SoundAfterPowerLoss(cfg, s, s', s'.dir[j].checkpoint);
      }
    }
  }

  lemma SoundAfterPowerLoss(cfg: Config, s: State, s': State, c: TransferCheckpoint)
    requires Sound(cfg, c, s.file)
    requires CreateStaging in s'.dir || Untouched(c)
    requires CreateStaging in s'.dir ==> AfterPowerLoss(s.file, s'.file)
    ensures Sound(cfg, c, s'.file)
  {
    forall i | 0 <= i < |c.lanes| ensures Durable(cfg, s'.file, c.lanes[i].rangeStart, c.lanes[i].offset) {
      assert Durable(cfg, s.file, c.lanes[i].rangeStart, c.lanes[i].offset);
      forall p | c.lanes[i].rangeStart <= p < c.lanes[i].offset ensures DurableAt(cfg, s'.file, p) {
        assert DurableAt(cfg, s.file, p);
      }
    }
  }

  lemma NextKeepsInv(cfg: Config, s: State, e: Event, s': State)
    requires ValidConfig(cfg) && Inv(cfg, s) && Next(cfg, s, e, s')
    ensures Inv(cfg, s')
  {
    match e {
      case Loss(keep) => PowerLossKeepsInv(cfg, s, keep, s');
      case Lane(a) =>
        match a {
          case Presize(lane) => PresizeKeepsInv(cfg, s, lane, s');
          case WriteChunk(lane, len) => WriteKeepsInv(cfg, s, lane, len, s');
          case SyncFile(lane, file') => SyncKeepsInv(cfg, s, lane, file', s');
          case LoadForUpdate(_) => UpdateKeepsInv(cfg, s, a, s');
          case StoreUpdate(_) => UpdateKeepsInv(cfg, s, a, s');
          case FindCheckpoint(_) => OpeningKeepsInv(cfg, s, a, s');
          case StoreFresh(_) => OpeningKeepsInv(cfg, s, a, s');
          case StoreReloaded(_) => OpeningKeepsInv(cfg, s, a, s');
          case _ => EndingKeepsInv(cfg, s, a, s');
        }
    }
  }

  lemma {:induction false} RunKeepsInv(cfg: Config, run: seq<State>, events: seq<Event>, i: nat)
    requires IsRun(cfg, run, events) && i < |run|
    ensures Inv(cfg, run[i])
  {
    if i > 0 {
      RunKeepsInv(cfg, run, events, i - 1);
      assert NextAt(cfg, run, events, i - 1);
      NextKeepsInv(cfg, run[i - 1], events[i - 1], run[i]);
    }
  }

  // ---------------------------------------------------------------- main results

  /**
   Crash consistency. In every run, under either lock discipline, and at every point of it, the
   stored checkpoint is a reachable one, and every source byte it claims is in the staging file,
   durably: whatever a power loss does next, the byte is there with the source's value.
   */
  lemma CrashConsistency(cfg: Config, run: seq<State>, events: seq<Event>, i: nat, lane: nat, p: nat)
    requires IsRun(cfg, run, events) && i < |run| && lane < cfg.lanes
    requires Stored(run[i].dir).Some?
    ensures Canonical(Stored(run[i].dir).value, |cfg.source|, cfg.lanes)
    ensures var c := Stored(run[i].dir).value;
            c.lanes[lane].rangeStart <= p < c.lanes[lane].offset ==>
              && CreateStaging in run[i].dir
              && DurableAt(cfg, run[i].file, p)
              && forall file': seq<Cell> :: AfterPowerLoss(run[i].file, file') ==> p < |file'| && file'[p].value == cfg.source[p]
  {
    RunKeepsInv(cfg, run, events, i);
    StoredIsSound(cfg, run[i].dir, run[i].file);
    var c := Stored(run[i].dir).value;
    assert Durable(cfg, run[i].file, c.lanes[lane].rangeStart, c.lanes[lane].offset);
    if c.lanes[lane].rangeStart <= p < c.lanes[lane].offset {
      assert DurableAt(cfg, run[i].file, p);
    }
  }

  /** When a sound checkpoint is complete, the whole file is durable: the lanes cover every byte. */
  lemma CompleteMeansWholeFile(cfg: Config, c: TransferCheckpoint, file: seq<Cell>)
    requires ValidConfig(cfg) && Sound(cfg, c, file) && AllLanesComplete(c)
    requires |file| <= |cfg.source|
    ensures |file| == |cfg.source| && Durable(cfg, file, 0, |cfg.source|)
  {
    forall p | 0 <= p < |cfg.source| ensures DurableAt(cfg, file, p) {
      var owner := LanesPartitionFile(|cfg.source|, cfg.lanes, p);
      assert CanonicalLane(c, owner);
      assert Durable(cfg, file, c.lanes[owner].rangeStart, c.lanes[owner].offset);
    }
    assert DurableAt(cfg, file, |cfg.source| - 1);
  }

  /**
   Content correctness. In every run, a rename moves a file that has exactly the source's length
   and exactly its bytes, and that any later power loss leaves as it is. A rejection, too, is only of
   a file that is complete.
   */
  lemma RenamedFileIsSource(cfg: Config, run: seq<State>, events: seq<Event>, i: nat)
    requires IsRun(cfg, run, events) && i < |events|
    requires events[i].Lane? && (events[i].action.Rename? || events[i].action.Reject?)
    ensures var file := run[i + 1].file;
            && |file| == |cfg.source|
            && (forall p :: 0 <= p < |file| ==> file[p].value == cfg.source[p])
            && (forall file': seq<Cell> :: AfterPowerLoss(file, file') ==>
                  |file'| == |file| && forall p :: 0 <= p < |file'| ==> file'[p].value == cfg.source[p])
  {
    var s := run[i];
    RunKeepsInv(cfg, run, events, i);
    assert NextAt(cfg, run, events, i);
    var lane := events[i].action.lane;
    assert SoundHandler(cfg, lane, s.handlers[lane], s.dir, s.file);
    CompleteMeansWholeFile(cfg, s.handlers[lane].copy, s.file);
    var file := run[i + 1].file;
    assert file == s.file;
    forall p | 0 <= p < |file| ensures file[p] == Cell(cfg.source[p], OneOf({cfg.source[p]})) {
      assert DurableAt(cfg, file, p);
    }
    forall file': seq<Cell> | AfterPowerLoss(file, file')
      ensures |file'| == |file| && forall p :: 0 <= p < |file'| ==> file'[p].value == cfg.source[p]
    {
      assert |file'| < |file| ==> file[|file'|].kept.Anything?;
    }
  }

  /** In every run, a lane goes on to finalize only when its whole range is durable. */
  lemma FinalizesOnlyWholeLanes(cfg: Config, run: seq<State>, events: seq<Event>, i: nat, lane: nat, p: nat)
    requires IsRun(cfg, run, events) && i < |events| && events[i] == Lane(FinishReceive(lane))
    requires lane < |run[i + 1].handlers| && run[i + 1].handlers[lane].Received?
    ensures Start(cfg, lane) <= p < End(cfg, lane) ==> DurableAt(cfg, run[i + 1].file, p)
  {
    RunKeepsInv(cfg, run, events, i);
    assert NextAt(cfg, run, events, i);
    assert SoundHandler(cfg, lane, run[i].handlers[lane], run[i].dir, run[i].file);
  }

  /** And it leaves the rename to others only when the checkpoint it has loaded lacks part of some lane. */
  lemma GivesUpOnlyIfIncomplete(cfg: Config, run: seq<State>, events: seq<Event>, i: nat, lane: nat) returns (l: nat)
    requires IsRun(cfg, run, events) && i < |events| && events[i] == Lane(ReportRunning(lane))
    ensures lane < |run[i].handlers| && run[i].handlers[lane].Finalizing?
    ensures l < cfg.lanes == |run[i].handlers[lane].copy.lanes|
    ensures run[i].handlers[lane].copy.lanes[l].offset < End(cfg, l)
  {
    RunKeepsInv(cfg, run, events, i);
    assert NextAt(cfg, run, events, i);
    var copy := run[i].handlers[lane].copy;
    assert SoundHandler(cfg, lane, run[i].handlers[lane], run[i].dir, run[i].file);
    l :| 0 <= l < |copy.lanes| && copy.lanes[l].offset < copy.lanes[l].rangeEndExclusive;
    assert CanonicalLane(copy, l);
  }

  /** In every run, a handler that finds no checkpoint to update or to finalize ends, and brings none back. */
  lemma MissingCheckpointEndsHandler(cfg: Config, run: seq<State>, events: seq<Event>, i: nat, lane: nat)
    requires IsRun(cfg, run, events) && i < |events|
    requires events[i] == Lane(LoadForUpdate(lane)) || events[i] == Lane(LoadForFinalize(lane))
    requires Stored(run[i].dir).None?
    ensures lane < |run[i + 1].handlers| && run[i + 1].handlers[lane].Idle?
    ensures run[i + 1].dir == run[i].dir && run[i + 1].file == run[i].file
  {
    assert NextAt(cfg, run, events, i);
  }

  /** A writer syncs and records only when 1 MiB has gathered, or what is left when its stream has ended. */
  predicate Due(h: Handler) {
    h.Streaming? && !h.phase.Receiving? ==> h.sinceUpdate >= RESUME_CHUNK_SIZE_BYTES || (h.closed && h.sinceUpdate > 0)
  }

  lemma StepKeepsDue(cfg: Config, s: State, a: Action, s': State)
    requires ValidConfig(cfg) && LaneStep(cfg, s, a, s') && Due(s.handlers[a.lane])
    requires SoundHandler(cfg, a.lane, s.handlers[a.lane], s.dir, s.file)
    ensures |s'.handlers| == |s.handlers| && Due(s'.handlers[a.lane])
    ensures forall l :: 0 <= l < |s.handlers| && l != a.lane ==> s'.handlers[l] == s.handlers[l]
  {
  }

  lemma {:induction false} SyncsWhenDue(cfg: Config, run: seq<State>, events: seq<Event>, i: nat, lane: nat)
    requires IsRun(cfg, run, events) && i < |run|
    ensures |run[i].handlers| == cfg.lanes && (lane < cfg.lanes ==> Due(run[i].handlers[lane]))
  {
    if i > 0 {
      SyncsWhenDue(cfg, run, events, i - 1, lane);
      assert NextAt(cfg, run, events, i - 1);
      match events[i - 1] {
        case Lane(a) =>
          SyncsWhenDue(cfg, run, events, i - 1, a.lane);
          RunKeepsInv(cfg, run, events, i - 1);
          StepKeepsDue(cfg, run[i - 1], a, run[i]);
        case Loss(_) =>
      }
    }
  }
}
