/**
 Progress of the striped upload: when stored offsets rise and fall, how far the checkpoint lags behind
 the disk when all tasks share one checkpoint lock, and how many sessions a lane needs.
 */
module StripedProgress {
  import opened Common
  import opened Ranges
  import opened Checkpoint
  import opened StripedUpload
  import opened StripedSafety

  const C: nat := RESUME_CHUNK_SIZE_BYTES

  // ---------------------------------------------------------------- the stored checkpoint

  lemma StoredAppend(dir: seq<DirOp>, op: DirOp)
    ensures Stored(dir + [op]) ==
            match op
            case StoreCheckpoint(c) => Some(c)
            case RemoveCheckpoint => None
            case _ => Stored(dir)
  {
    assert (dir + [op])[..|dir|] == dir;
  }

  /** The offset that the checkpoint holds for a lane, or will hold when it is created. */
  ghost function StoredOffset(cfg: Config, s: State, lane: nat): nat
    requires ValidConfig(cfg)
  {
    if Stored(s.dir).Some? && lane < |Stored(s.dir).value.lanes| then Stored(s.dir).value.lanes[lane].offset
    else Start(cfg, lane)
  }

  ghost predicate StoredOk(cfg: Config, s: State) {
    Stored(s.dir).Some? ==> Canonical(Stored(s.dir).value, |cfg.source|, cfg.lanes)
  }

  lemma StoredIsOk(cfg: Config, s: State)
    requires ValidConfig(cfg) && Inv(cfg, s)
    ensures StoredOk(cfg, s)
  {
    StoredIsSound(cfg, s.dir, s.file);
  }

  lemma StoredOffsetIsLegal(cfg: Config, s: State, lane: nat)
    requires ValidConfig(cfg) && StoredOk(cfg, s) && lane < cfg.lanes
    ensures ResumePoint(StoredOffset(cfg, s, lane), Start(cfg, lane), End(cfg, lane))
  {
    LaneInsideFile(|cfg.source|, cfg.lanes, lane);
    if Stored(s.dir).Some? {
      assert CanonicalLane(Stored(s.dir).value, lane);
    }
  }

  /** The stored checkpoint went from one value to another without losing an offset. */
  ghost predicate Risen(lanes: nat, before: Option<TransferCheckpoint>, after: Option<TransferCheckpoint>) {
    before.Some? ==>
      && after.Some? && |before.value.lanes| == |after.value.lanes| == lanes
      && forall l :: 0 <= l < lanes ==> before.value.lanes[l].offset <= after.value.lanes[l].offset
  }

  /** A step moves its own lane only, and takes the checkpoint lock only when nobody holds it. */
  lemma LockTakenWhenFree(cfg: Config, s: State, a: Action, s': State)
    requires ValidConfig(cfg) && LaneStep(cfg, s, a, s')
    ensures |s'.handlers| == |s.handlers| && a.lane < |s.handlers|
    ensures forall l :: 0 <= l < |s.handlers| && l != a.lane ==> s'.handlers[l] == s.handlers[l]
    ensures HoldsCheckpointLock(s'.handlers[a.lane]) && !HoldsCheckpointLock(s.handlers[a.lane]) ==> CheckpointLockFree(cfg, s)
  {
  }

  /** Only four kinds of step change the stored checkpoint, and three of them hold the checkpoint lock. */
  lemma WhoStores(cfg: Config, s: State, a: Action, s': State)
    requires ValidConfig(cfg) && LaneStep(cfg, s, a, s')
    ensures a.StoreFresh? || a.StoreReloaded? || a.StoreUpdate? ==> HoldsCheckpointLock(s.handlers[a.lane])
    ensures a.RemoveRejected? ==> Stored(s'.dir) == None && s.handlers[a.lane].Rejected? && s'.handlers[a.lane].Idle?
    ensures !a.StoreFresh? && !a.StoreReloaded? && !a.StoreUpdate? && !a.RemoveRejected? ==> Stored(s'.dir) == Stored(s.dir)
  {
    StoredAppend(s.dir, CreateStaging);
    StoredAppend(s.dir, RenameStaging);
    StoredAppend(s.dir, RemoveCheckpoint);
  }

  // ---------------------------------------------------------------- one lock: stored offsets only rise

  /** What a task between its load and its store knows: its copy is current, unless the checkpoint is gone. */
  predicate CopyCurrent(h: Handler, stored: Option<TransferCheckpoint>) {
    match h
    case NoCheckpoint => stored.None?
    case Reloaded(copy) => stored.None? || stored == Some(copy)
    case Streaming(_, _, _, _, _, phase) => phase.Loaded? ==> stored.None? || stored == Some(phase.copy)
    case _ => true
  }

  ghost predicate OneHolder(s: State) {
    forall i, j | 0 <= i < |s.handlers| && 0 <= j < |s.handlers| ::
      HoldsCheckpointLock(s.handlers[i]) && HoldsCheckpointLock(s.handlers[j]) ==> i == j
  }

  ghost predicate CopiesCurrent(s: State) {
    forall l :: 0 <= l < |s.handlers| ==> CopyCurrent(s.handlers[l], Stored(s.dir))
  }

  ghost predicate LockedInv(cfg: Config, s: State)
    requires ValidConfig(cfg)
  {
    Inv(cfg, s) && OneHolder(s) && CopiesCurrent(s)
  }

  lemma HolderStaysUnique(cfg: Config, s: State, a: Action, s': State)
    requires ValidConfig(cfg) && cfg.locked && OneHolder(s) && LaneStep(cfg, s, a, s')
    ensures OneHolder(s')
  {
    LockTakenWhenFree(cfg, s, a, s');
  }

  /** Raising a lane loses no offset, and brings the lane's own up to the durable part of `to`. */
  lemma RaisedIsRisen(cfg: Config, c: TransferCheckpoint, lane: nat, to: nat)
    requires ValidConfig(cfg) && Canonical(c, |cfg.source|, cfg.lanes) && lane < cfg.lanes
    ensures c.lanes[lane].rangeStart <= c.lanes[lane].rangeEndExclusive
    ensures Risen(cfg.lanes, Some(c), Some(Raised(c, lane, to)))
    ensures Start(cfg, lane) <= End(cfg, lane)
    ensures DurableResumeOffset(to, Start(cfg, lane), End(cfg, lane)) <= Raised(c, lane, to).lanes[lane].offset
  {
    LaneInsideFile(|cfg.source|, cfg.lanes, lane);
    assert CanonicalLane(c, lane);
  }

  /** What the acting lane's step does to the store under the lock, and that its own copy stays current. */
  ghost predicate ActsOnStore(cfg: Config, s: State, a: Action, s': State)
    requires ValidConfig(cfg) && a.lane < |s'.handlers|
  {
    && CopyCurrent(s'.handlers[a.lane], Stored(s'.dir))
    && (!a.RemoveRejected? ==> Risen(cfg.lanes, Stored(s.dir), Stored(s'.dir)))
  }

  lemma OpeningActs(cfg: Config, s: State, a: Action, s': State)
    requires ValidConfig(cfg) && LockedInv(cfg, s) && LaneStep(cfg, s, a, s') && a.lane < |s'.handlers|
    requires a.FindCheckpoint? || a.StoreFresh?
    ensures ActsOnStore(cfg, s, a, s')
  {
    var lane := a.lane;
    StoredIsOk(cfg, s);
    assert CopyCurrent(s.handlers[lane], Stored(s.dir));
    var c := if Stored(s.dir).Some? then Stored(s.dir).value else NewCheckpoint(cfg.transferId, |cfg.source|, cfg.lanes);
    NewIsCanonical(cfg.transferId, |cfg.source|, cfg.lanes);
    CanonicalValidates(c, |cfg.source|, cfg.lanes, lane);
    ReopenedIsIdentity(c, |cfg.source|, cfg.lanes, lane);
    StoredAppend(s.dir, StoreCheckpoint(c));
  }

  lemma StoreReloadedActs(cfg: Config, s: State, a: Action, s': State)
    requires ValidConfig(cfg) && LockedInv(cfg, s) && LaneStep(cfg, s, a, s') && a.lane < |s'.handlers|
    requires a.StoreReloaded?
    ensures ActsOnStore(cfg, s, a, s')
  {
    StoredIsOk(cfg, s);
    assert CopyCurrent(s.handlers[a.lane], Stored(s.dir));
    StoredAppend(s.dir, StoreCheckpoint(s.handlers[a.lane].copy));
  }

  lemma StoreUpdateActs(cfg: Config, s: State, a: Action, s': State)
    requires ValidConfig(cfg) && LockedInv(cfg, s) && LaneStep(cfg, s, a, s') && a.lane < |s'.handlers|
    requires a.StoreUpdate?
    ensures ActsOnStore(cfg, s, a, s')
  {
    var h := s.handlers[a.lane];
    assert SoundHandler(cfg, a.lane, h, s.dir, s.file);
    assert CopyCurrent(h, Stored(s.dir));
    RaisedIsRisen(cfg, h.phase.copy, a.lane, h.resume + h.written);
    StoredAppend(s.dir, StoreCheckpoint(Raised(h.phase.copy, a.lane, h.resume + h.written)));
  }

  lemma OtherStepActs(cfg: Config, s: State, a: Action, s': State)
    requires ValidConfig(cfg) && LockedInv(cfg, s) && LaneStep(cfg, s, a, s') && a.lane < |s'.handlers|
    requires !a.FindCheckpoint? && !a.StoreFresh? && !a.StoreReloaded? && !a.StoreUpdate?
    ensures ActsOnStore(cfg, s, a, s')
  {
    StoredIsOk(cfg, s);
    WhoStores(cfg, s, a, s');
    assert CopyCurrent(s.handlers[a.lane], Stored(s.dir));
  }

  lemma StepActs(cfg: Config, s: State, a: Action, s': State)
    requires ValidConfig(cfg) && LockedInv(cfg, s) && LaneStep(cfg, s, a, s')
    ensures a.lane < |s'.handlers| && ActsOnStore(cfg, s, a, s')
  {
    LockTakenWhenFree(cfg, s, a, s');
    match a {
      case FindCheckpoint(_) => OpeningActs(cfg, s, a, s');
      case StoreFresh(_) => OpeningActs(cfg, s, a, s');
      case StoreReloaded(_) => StoreReloadedActs(cfg, s, a, s');
      case StoreUpdate(_) => StoreUpdateActs(cfg, s, a, s');
      case _ => OtherStepActs(cfg, s, a, s');
    }
  }

  lemma CopiesStayCurrent(cfg: Config, s: State, a: Action, s': State)
    requires ValidConfig(cfg) && cfg.locked && LockedInv(cfg, s) && LaneStep(cfg, s, a, s')
    ensures CopiesCurrent(s')
  {
    LockTakenWhenFree(cfg, s, a, s');
    StepActs(cfg, s, a, s');
    WhoStores(cfg, s, a, s');
    forall l | 0 <= l < |s'.handlers| ensures CopyCurrent(s'.handlers[l], Stored(s'.dir)) {
      if l != a.lane {
        assert CopyCurrent(s.handlers[l], Stored(s.dir));
        assert Stored(s'.dir) == Stored(s.dir) || Stored(s'.dir) == None || !HoldsCheckpointLock(s.handlers[l]);
      }
    }
  }

  lemma NextKeepsLockedInv(cfg: Config, s: State, e: Event, s': State)
    requires ValidConfig(cfg) && cfg.locked && LockedInv(cfg, s) && Next(cfg, s, e, s')
    ensures LockedInv(cfg, s')
  {
    NextKeepsInv(cfg, s, e, s');
    if e.Lane? {
      HolderStaysUnique(cfg, s, e.action, s');
      CopiesStayCurrent(cfg, s, e.action, s');
    }
  }

  lemma {:induction false} RunKeepsLockedInv(cfg: Config, run: seq<State>, events: seq<Event>, i: nat)
    requires IsRun(cfg, run, events) && cfg.locked && i < |run|
    ensures LockedInv(cfg, run[i])
  {
    if i == 0 {
      RunKeepsInv(cfg, run, events, 0);
    } else {
      RunKeepsLockedInv(cfg, run, events, i - 1);
      assert NextAt(cfg, run, events, i - 1);
      NextKeepsLockedInv(cfg, run[i - 1], events[i - 1], run[i]);
    }
  }

  /**
   Monotonicity. With one checkpoint lock, a lane's step keeps every stored offset or raises it,
   except for the one step that takes a checkpoint away: the removal after a rejected finalize.
   */
  lemma StoredOffsetsOnlyRise(cfg: Config, run: seq<State>, events: seq<Event>, i: nat)
    requires IsRun(cfg, run, events) && cfg.locked && i < |events| && events[i].Lane?
    ensures Risen(cfg.lanes, Stored(run[i].dir), Stored(run[i + 1].dir))
       <==> !(events[i].action.RemoveRejected? && Stored(run[i].dir).Some?)
  {
    RunKeepsLockedInv(cfg, run, events, i);
    assert NextAt(cfg, run, events, i);
    StepActs(cfg, run[i], events[i].action, run[i + 1]);
    WhoStores(cfg, run[i], events[i].action, run[i + 1]);
  }

  // ---------------------------------------------------------------- one lock: the lag

  /** No step of the run so far has removed the checkpoint after a rejected finalize. */
  predicate NoRemoval(events: seq<Event>) {
    forall i :: 0 <= i < |events| ==> !(events[i].Lane? && events[i].action.RemoveRejected?)
  }

  /** How far a session has come, as far as it has been recorded. */
  function Recorded(cfg: Config, lane: nat, h: Handler): nat
    requires ValidConfig(cfg) && InFlight(h)
  {
    match h
    case Opened(resume) => resume
    case Streaming(_, _, _, lastDurable, _, _) =>
      if Start(cfg, lane) <= End(cfg, lane) then DurableResumeOffset(lastDurable, Start(cfg, lane), End(cfg, lane)) else 0
  }

  predicate InFlight(h: Handler) { h.Opened? || h.Streaming? }

  /** The checkpoint shows what the lane's session has recorded. */
  ghost predicate Tracked(cfg: Config, s: State, lane: nat)
    requires ValidConfig(cfg) && lane < |s.handlers|
  {
    InFlight(s.handlers[lane]) ==>
      Stored(s.dir).Some? && Recorded(cfg, lane, s.handlers[lane]) <= StoredOffset(cfg, s, lane)
  }

  ghost predicate CalmInv(cfg: Config, s: State)
    requires ValidConfig(cfg)
  {
    && LockedInv(cfg, s)
    && forall l :: 0 <= l < |s.handlers| ==> Tracked(cfg, s, l)
  }

  /** A step that is not a store changes nothing in what its own session has recorded. */
  lemma OwnRecordKept(cfg: Config, s: State, a: Action, s': State)
    requires ValidConfig(cfg) && Inv(cfg, s) && LaneStep(cfg, s, a, s') && a.lane < |s'.handlers|
    requires !a.StoreReloaded? && !a.StoreUpdate?
    ensures InFlight(s'.handlers[a.lane]) ==>
      && InFlight(s.handlers[a.lane])
      && Recorded(cfg, a.lane, s'.handlers[a.lane]) <= Recorded(cfg, a.lane, s.handlers[a.lane])
      && s'.handlers[a.lane].resume == s.handlers[a.lane].resume
  {
    if a.Presize? {
      assert SoundHandler(cfg, a.lane, s.handlers[a.lane], s.dir, s.file);
      DurableLag(s.handlers[a.lane].resume, Start(cfg, a.lane), End(cfg, a.lane));
    }
  }

  /** A store brings the checkpoint up to what its own session has recorded. */
  lemma ReloadStored(cfg: Config, s: State, lane: nat, s': State)
    requires ValidConfig(cfg) && lane < |s.handlers| == cfg.lanes && StepStoreReloaded(cfg, s, lane, s')
    ensures |s'.handlers| == cfg.lanes && Stored(s'.dir).Some?
    ensures s'.handlers[lane] == Opened(StoredOffset(cfg, s', lane))
  {
    StoredAppend(s.dir, StoreCheckpoint(s.handlers[lane].copy));
  }

  lemma UpdateStored(cfg: Config, s: State, lane: nat, s': State)
    requires ValidConfig(cfg) && lane < |s.handlers| == cfg.lanes && StepStoreUpdate(cfg, s, lane, s')
    requires Canonical(s.handlers[lane].phase.copy, |cfg.source|, cfg.lanes)
    ensures |s'.handlers| == cfg.lanes && Stored(s'.dir).Some? && s'.handlers[lane].Streaming?
    ensures Recorded(cfg, lane, s'.handlers[lane]) <= StoredOffset(cfg, s', lane)
    ensures s'.handlers[lane].resume == s.handlers[lane].resume
  {
    var h := s.handlers[lane];
    RaisedIsRisen(cfg, h.phase.copy, lane, h.resume + h.written);
    StoredAppend(s.dir, StoreCheckpoint(Raised(h.phase.copy, lane, h.resume + h.written)));
  }

  lemma OwnRecordStored(cfg: Config, s: State, a: Action, s': State)
    requires ValidConfig(cfg) && Inv(cfg, s) && LaneStep(cfg, s, a, s') && a.lane < |s'.handlers|
    requires a.StoreReloaded? || a.StoreUpdate?
    ensures InFlight(s'.handlers[a.lane]) && Stored(s'.dir).Some?
    ensures Recorded(cfg, a.lane, s'.handlers[a.lane]) <= StoredOffset(cfg, s', a.lane)
    ensures a.StoreReloaded? ==> s'.handlers[a.lane] == Opened(StoredOffset(cfg, s', a.lane))
    ensures a.StoreUpdate? ==> InFlight(s.handlers[a.lane]) && s'.handlers[a.lane].resume == s.handlers[a.lane].resume
  {
    if a.StoreReloaded? {
      ReloadStored(cfg, s, a.lane, s');
    } else {
      assert SoundHandler(cfg, a.lane, s.handlers[a.lane], s.dir, s.file);
      UpdateStored(cfg, s, a.lane, s');
    }
  }

  lemma RisenOffset(cfg: Config, s: State, s': State, lane: nat)
    requires ValidConfig(cfg) && lane < cfg.lanes && StoredOk(cfg, s) && StoredOk(cfg, s')
    requires Risen(cfg.lanes, Stored(s.dir), Stored(s'.dir))
    ensures StoredOffset(cfg, s, lane) <= StoredOffset(cfg, s', lane)
  {
    StoredOffsetIsLegal(cfg, s', lane);
  }

  lemma StaysTracked(cfg: Config, s: State, a: Action, s': State, lane: nat)
    requires ValidConfig(cfg) && cfg.locked && CalmInv(cfg, s) && LaneStep(cfg, s, a, s') && lane < cfg.lanes
    requires cfg.lanes == 1 || !a.RemoveRejected?
    requires |s'.handlers| == cfg.lanes && StoredOk(cfg, s')
    ensures Tracked(cfg, s', lane)
  {
    LockTakenWhenFree(cfg, s, a, s');
    StepActs(cfg, s, a, s');
    WhoStores(cfg, s, a, s');
    StoredIsOk(cfg, s);
    assert Tracked(cfg, s, lane);
    if !a.RemoveRejected? {
      RisenOffset(cfg, s, s', lane);
    }
    if lane == a.lane {
      if a.StoreReloaded? || a.StoreUpdate? {
        OwnRecordStored(cfg, s, a, s');
      } else {
        OwnRecordKept(cfg, s, a, s');
      }
    }
  }

  /** Only a removal with other lanes alive can take the checkpoint from under a writer. */
  lemma NextKeepsCalmInv(cfg: Config, s: State, e: Event, s': State)
    requires ValidConfig(cfg) && cfg.locked && CalmInv(cfg, s) && Next(cfg, s, e, s')
    requires cfg.lanes == 1 || !(e.Lane? && e.action.RemoveRejected?)
    ensures CalmInv(cfg, s')
  {
    NextKeepsLockedInv(cfg, s, e, s');
    StoredIsOk(cfg, s');
    if e.Lane? {
      LockTakenWhenFree(cfg, s, e.action, s');
      forall l | 0 <= l < |s'.handlers| ensures Tracked(cfg, s', l) {
        StaysTracked(cfg, s, e.action, s', l);
      }
    }
  }

  lemma {:induction false} RunKeepsCalmInv(cfg: Config, run: seq<State>, events: seq<Event>, i: nat)
    requires IsRun(cfg, run, events) && cfg.locked && i < |run|
    requires cfg.lanes == 1 || NoRemoval(events[..i])
    ensures CalmInv(cfg, run[i])
  {
    if i == 0 {
      RunKeepsLockedInv(cfg, run, events, 0);
    } else {
      assert cfg.lanes > 1 ==> forall j :: 0 <= j < i ==> events[j] == events[..i][j];
      assert cfg.lanes == 1 || NoRemoval(events[..i - 1]);
      RunKeepsCalmInv(cfg, run, events, i - 1);
      assert NextAt(cfg, run, events, i - 1);
      NextKeepsCalmInv(cfg, run[i - 1], events[i - 1], run[i]);
    }
  }

  ghost predicate NobodyRejected(s: State) { forall l :: 0 <= l < |s.handlers| ==> !s.handlers[l].Rejected? }

  /** A rejection needs a refused destination. */
  lemma NextRejectsNobody(cfg: Config, s: State, e: Event, s': State)
    requires ValidConfig(cfg) && cfg.permitted && Next(cfg, s, e, s') && NobodyRejected(s)
    ensures NobodyRejected(s') && !(e.Lane? && e.action.RemoveRejected?)
  {
    if e.Lane? {
      LockTakenWhenFree(cfg, s, e.action, s');
    }
  }

  lemma {:induction false} PermittedMeansNoRemoval(cfg: Config, run: seq<State>, events: seq<Event>, i: nat)
    requires IsRun(cfg, run, events) && cfg.permitted && i < |run|
    ensures NobodyRejected(run[i]) && NoRemoval(events[..i])
  {
    if i > 0 {
      PermittedMeansNoRemoval(cfg, run, events, i - 1);
      assert NextAt(cfg, run, events, i - 1);
      NextRejectsNobody(cfg, run[i - 1], events[i - 1], run[i]);
      assert events[..i] == events[..i - 1] + [events[i - 1]];
    }
  }

  /** The disk writer of the lane waits for its next chunk. */
  predicate Waits(h: Handler) { h.Streaming? && h.phase.Receiving? }

  /** A waiting writer is less than `bound` bytes ahead of the stored offset. */
  ghost predicate LagBelow(cfg: Config, s: State, lane: nat, bound: nat)
    requires ValidConfig(cfg)
  {
    lane < |s.handlers| && Waits(s.handlers[lane]) ==>
      s.handlers[lane].resume + s.handlers[lane].written < StoredOffset(cfg, s, lane) + bound
  }

  /**
   Lag bound. With one checkpoint lock, as long as no checkpoint was removed or if there is only one
   lane: whenever a disk writer waits for its next chunk, it is less than two chunks ahead of the
   stored offset, whatever the frame sizes and whatever the other lanes do; once the stream has
   ended, less than one chunk. StripedRecovery.LagBoundIff says exactly when the bound of two chunks
   holds in all runs.
   */
  lemma LagBound(cfg: Config, run: seq<State>, events: seq<Event>, i: nat, lane: nat)
    requires IsRun(cfg, run, events) && cfg.locked && i < |run| && lane < |run[i].handlers|
    requires cfg.lanes == 1 || NoRemoval(events[..i])
    ensures LagBelow(cfg, run[i], lane, 2 * C)
    ensures Waits(run[i].handlers[lane]) ==> Stored(run[i].dir).Some?
    ensures Waits(run[i].handlers[lane]) && run[i].handlers[lane].closed ==> LagBelow(cfg, run[i], lane, C)
  {
    RunKeepsCalmInv(cfg, run, events, i);
    var h := run[i].handlers[lane];
    assert Tracked(cfg, run[i], lane);
    if Waits(h) {
      assert SoundHandler(cfg, lane, h, run[i].dir, run[i].file);
      DurableLag(h.lastDurable, Start(cfg, lane), End(cfg, lane));
    }
  }

  /** A lane of less than two chunks cannot lag by two, under any lock discipline and after any removal. */
  lemma ShortLaneLag(cfg: Config, s: State, lane: nat)
    requires ValidConfig(cfg) && Inv(cfg, s) && lane < cfg.lanes
    requires End(cfg, 0) - Start(cfg, 0) < 2 * C
    ensures LagBelow(cfg, s, lane, 2 * C)
  {
    LanesBalanced(|cfg.source|, cfg.lanes, 0, lane);
    StoredIsOk(cfg, s);
    StoredOffsetIsLegal(cfg, s, lane);
    assert SoundHandler(cfg, lane, s.handlers[lane], s.dir, s.file);
  }

  // ---------------------------------------------------------------- sessions

  /** A session that delivered a whole chunk, or the rest of its lane. */
  ghost predicate Useful(cfg: Config, s: State, e: Event, lane: nat)
    requires ValidConfig(cfg)
  {
    && e == Lane(FinishReceive(lane))
    && lane < |s.handlers| && s.handlers[lane].Streaming?
    && var h := s.handlers[lane];
    && h.written > 0
    && (h.written >= C || h.resume + h.written == End(cfg, lane))
  }

  /** The step lowered the stored offset of the lane. */
  ghost predicate SetsBack(cfg: Config, s: State, s': State, lane: nat)
    requires ValidConfig(cfg)
  {
    StoredOffset(cfg, s', lane) < StoredOffset(cfg, s, lane)
  }

  /** How many useful sessions a lane can still have when it would resume from `offset`. */
  function SessionsLeft(offset: nat, rangeEnd: nat): nat {
    if offset >= rangeEnd then 0 else rangeEnd / C - offset / C + 1
  }

  /** The sessions that a whole lane needs at most. */
  function WholeLane(cfg: Config, lane: nat): nat
    requires ValidConfig(cfg)
    ensures SessionsLeft(Start(cfg, lane), End(cfg, lane)) <= WholeLane(cfg, lane)
  {
    if End(cfg, lane) / C >= Start(cfg, lane) / C then End(cfg, lane) / C - Start(cfg, lane) / C + 1 else 1
  }

  lemma SessionsLeftFalls(cfg: Config, lane: nat, a: nat, b: nat)
    requires ValidConfig(cfg) && lane < cfg.lanes && a <= b
    requires ResumePoint(a, Start(cfg, lane), End(cfg, lane)) && ResumePoint(b, Start(cfg, lane), End(cfg, lane))
    ensures SessionsLeft(b, End(cfg, lane)) <= SessionsLeft(a, End(cfg, lane)) <= WholeLane(cfg, lane)
    ensures a < b ==> SessionsLeft(b, End(cfg, lane)) < SessionsLeft(a, End(cfg, lane))
  {
    if a < b < End(cfg, lane) {
      assert a / C < b / C;
    }
  }

  /**
   What a lane can still spend, given its handler and its stored offset. A session in flight that the
   checkpoint shows counts from where it resumed; one that the checkpoint has lost may still end as
   useful, and then the lane starts over from whatever is stored.
   */
  function Left(cfg: Config, lane: nat, h: Handler, offset: nat): nat
    requires ValidConfig(cfg)
  {
    if !InFlight(h) then SessionsLeft(offset, End(cfg, lane))
    else if Recorded(cfg, lane, h) <= offset then SessionsLeft(h.resume, End(cfg, lane))
    else WholeLane(cfg, lane) + if h.resume < End(cfg, lane) then 1 else 0
  }

  predicate LegalFlight(cfg: Config, lane: nat, h: Handler)
    requires ValidConfig(cfg)
  {
    InFlight(h) ==>
      && ResumePoint(h.resume, Start(cfg, lane), End(cfg, lane))
      && h.resume <= Recorded(cfg, lane, h)
  }

  /** A change of the stored offset alone: only lowering it costs, and at most a whole lane. */
  lemma LeftWhenStoredMoves(cfg: Config, lane: nat, h: Handler, offset: nat, offset': nat)
    requires ValidConfig(cfg) && lane < cfg.lanes && LegalFlight(cfg, lane, h)
    requires ResumePoint(offset, Start(cfg, lane), End(cfg, lane)) && ResumePoint(offset', Start(cfg, lane), End(cfg, lane))
    ensures Left(cfg, lane, h, offset') <= Left(cfg, lane, h, offset) + if offset' < offset then WholeLane(cfg, lane) else 0
  {
    if InFlight(h) {
      SessionsLeftFalls(cfg, lane, h.resume, h.resume);
    } else if offset <= offset' {
      SessionsLeftFalls(cfg, lane, offset, offset');
    } else {
      SessionsLeftFalls(cfg, lane, offset', offset);
    }
  }

  /** A session ends. */
  lemma LeftWhenSessionEnds(cfg: Config, lane: nat, h: Handler, h': Handler, offset: nat)
    requires ValidConfig(cfg) && lane < cfg.lanes && LegalFlight(cfg, lane, h) && InFlight(h) && !InFlight(h')
    requires ResumePoint(offset, Start(cfg, lane), End(cfg, lane))
    ensures Left(cfg, lane, h', offset) <= Left(cfg, lane, h, offset)
    ensures h.resume < Recorded(cfg, lane, h) && h.resume < End(cfg, lane)
        ==> Left(cfg, lane, h', offset) < Left(cfg, lane, h, offset)
  {
    SessionsLeftFalls(cfg, lane, offset, offset);
    if Recorded(cfg, lane, h) <= offset {
      SessionsLeftFalls(cfg, lane, h.resume, offset);
    }
  }

  lemma ChunkMovesResumePoint(resume: nat, reached: nat, rangeStart: nat, rangeEnd: nat)
    requires rangeStart <= resume < reached <= rangeEnd
    requires reached >= resume + C || reached == rangeEnd
    ensures resume < DurableResumeOffset(reached, rangeStart, rangeEnd)
  {
    DurableLag(reached, rangeStart, rangeEnd);
  }

  /** A useful session has recorded more than where it resumed. */
  lemma UsefulSessionRecords(cfg: Config, s: State, e: Event, s': State, lane: nat)
    requires ValidConfig(cfg) && Inv(cfg, s) && Next(cfg, s, e, s') && Useful(cfg, s, e, lane)
    ensures s.handlers[lane].resume < Recorded(cfg, lane, s.handlers[lane]) <= End(cfg, lane)
  {
    var h := s.handlers[lane];
    assert SoundHandler(cfg, lane, h, s.dir, s.file);
    ChunkMovesResumePoint(h.resume, h.resume + h.written, Start(cfg, lane), End(cfg, lane));
    DurableLag(h.lastDurable, Start(cfg, lane), End(cfg, lane));
  }

  /** With one lock, and nothing removed under it, it leaves the stored offset above where it resumed. */
  lemma UsefulSessionRaisesOffset(cfg: Config, run: seq<State>, events: seq<Event>, i: nat, lane: nat)
    requires IsRun(cfg, run, events) && cfg.locked && i < |events| && Useful(cfg, run[i], events[i], lane)
    requires cfg.lanes == 1 || NoRemoval(events[..i])
    ensures run[i].handlers[lane].resume < StoredOffset(cfg, run[i + 1], lane)
  {
    RunKeepsCalmInv(cfg, run, events, i);
    assert NextAt(cfg, run, events, i);
    UsefulSessionRecords(cfg, run[i], events[i], run[i + 1], lane);
    assert Tracked(cfg, run[i], lane);
    WhoStores(cfg, run[i], events[i].action, run[i + 1]);
  }

  // ---------------------------------------------------------------- spending sessions

  ghost predicate LegalFlights(cfg: Config, s: State)
    requires ValidConfig(cfg)
  {
    forall l :: 0 <= l < |s.handlers| && InFlight(s.handlers[l]) ==>
      ResumePoint(s.handlers[l].resume, Start(cfg, l), End(cfg, l))
  }

  lemma FlightIsLegal(cfg: Config, s: State, lane: nat)
    requires ValidConfig(cfg) && Inv(cfg, s) && LegalFlights(cfg, s) && lane < cfg.lanes
    ensures LegalFlight(cfg, lane, s.handlers[lane])
  {
    var h := s.handlers[lane];
    assert SoundHandler(cfg, lane, h, s.dir, s.file);
    if h.Streaming? {
      FixedPointsAreResumePoints(h.resume, Start(cfg, lane), End(cfg, lane));
      DurableMonotone(h.resume, h.lastDurable, Start(cfg, lane), End(cfg, lane));
    }
  }

  lemma NextKeepsFlightsLegal(cfg: Config, s: State, e: Event, s': State)
    requires ValidConfig(cfg) && Inv(cfg, s) && Inv(cfg, s') && LegalFlights(cfg, s) && Next(cfg, s, e, s')
    ensures LegalFlights(cfg, s')
  {
    if e.Lane? {
      LockTakenWhenFree(cfg, s, e.action, s');
      var lane := e.action.lane;
      StoredIsOk(cfg, s');
      StoredOffsetIsLegal(cfg, s', lane);
      if e.action.StoreReloaded? || e.action.StoreUpdate? {
        OwnRecordStored(cfg, s, e.action, s');
      } else {
        OwnRecordKept(cfg, s, e.action, s');
      }
    }
  }

  ghost function Budget(cfg: Config, s: State, lane: nat): nat
    requires ValidConfig(cfg) && lane < |s.handlers|
  {
    Left(cfg, lane, s.handlers[lane], StoredOffset(cfg, s, lane))
  }

  /** One event: a useful session costs at least one of those left; only setting the lane back gives any. */
  ghost predicate Spends(cfg: Config, s: State, e: Event, s': State, lane: nat)
    requires ValidConfig(cfg) && lane < |s.handlers| && lane < |s'.handlers|
  {
    Budget(cfg, s', lane) + (if Useful(cfg, s, e, lane) then 1 else 0)
      <= Budget(cfg, s, lane) + if SetsBack(cfg, s, s', lane) then WholeLane(cfg, lane) else 0
  }

  /** A step of another lane, or of the lane itself outside a session. */
  lemma SameHandlerSpends(cfg: Config, s: State, e: Event, s': State, lane: nat)
    requires ValidConfig(cfg) && Inv(cfg, s) && Inv(cfg, s') && LegalFlights(cfg, s) && lane < cfg.lanes
    requires s'.handlers[lane] == s.handlers[lane] || (!InFlight(s.handlers[lane]) && !InFlight(s'.handlers[lane]))
    requires !Useful(cfg, s, e, lane)
    ensures Spends(cfg, s, e, s', lane)
  {
    FlightIsLegal(cfg, s, lane);
    StoredIsOk(cfg, s);
    StoredIsOk(cfg, s');
    StoredOffsetIsLegal(cfg, s, lane);
    StoredOffsetIsLegal(cfg, s', lane);
    LeftWhenStoredMoves(cfg, lane, s.handlers[lane], StoredOffset(cfg, s, lane), StoredOffset(cfg, s', lane));
  }

  /** The lane's own session stores, or goes on. */
  lemma OwnFlightSpends(cfg: Config, s: State, a: Action, s': State)
    requires ValidConfig(cfg) && Inv(cfg, s) && Inv(cfg, s') && LegalFlights(cfg, s) && LegalFlights(cfg, s')
    requires LaneStep(cfg, s, a, s') && a.lane < cfg.lanes && InFlight(s'.handlers[a.lane])
    requires !a.FinishReceive?
    ensures Spends(cfg, s, Lane(a), s', a.lane)
  {
    var lane := a.lane;
    WhoStores(cfg, s, a, s');
    FlightIsLegal(cfg, s, lane);
    FlightIsLegal(cfg, s', lane);
    StoredIsOk(cfg, s);
    StoredIsOk(cfg, s');
    StoredOffsetIsLegal(cfg, s, lane);
    StoredOffsetIsLegal(cfg, s', lane);
    SessionsLeftFalls(cfg, lane, s'.handlers[lane].resume, s'.handlers[lane].resume);
    if a.StoreReloaded? || a.StoreUpdate? {
      OwnRecordStored(cfg, s, a, s');
      if a.StoreReloaded? && StoredOffset(cfg, s, lane) <= StoredOffset(cfg, s', lane) {
        SessionsLeftFalls(cfg, lane, StoredOffset(cfg, s, lane), StoredOffset(cfg, s', lane));
      }
    } else {
      OwnRecordKept(cfg, s, a, s');
    }
  }

  lemma OwnEndSpends(cfg: Config, s: State, e: Event, s': State, lane: nat)
    requires ValidConfig(cfg) && Inv(cfg, s) && Inv(cfg, s') && LegalFlights(cfg, s) && lane < cfg.lanes
    requires Next(cfg, s, e, s') && InFlight(s.handlers[lane]) && !InFlight(s'.handlers[lane])
    ensures Spends(cfg, s, e, s', lane)
  {
    FlightIsLegal(cfg, s, lane);
    StoredIsOk(cfg, s);
    StoredIsOk(cfg, s');
    StoredOffsetIsLegal(cfg, s, lane);
    StoredOffsetIsLegal(cfg, s', lane);
    LeftWhenSessionEnds(cfg, lane, s.handlers[lane], s'.handlers[lane], StoredOffset(cfg, s, lane));
    LeftWhenStoredMoves(cfg, lane, s'.handlers[lane], StoredOffset(cfg, s, lane), StoredOffset(cfg, s', lane));
    if Useful(cfg, s, e, lane) {
      UsefulSessionRecords(cfg, s, e, s', lane);
      WhoStores(cfg, s, e.action, s');
    }
  }

  /** A step in which the lane starts a session is the one that opens it. */
  lemma SessionStarts(cfg: Config, s: State, a: Action, s': State)
    requires ValidConfig(cfg) && LaneStep(cfg, s, a, s') && a.lane < |s'.handlers| && a.FinishReceive?
    ensures InFlight(s.handlers[a.lane]) && !InFlight(s'.handlers[a.lane])
  {
  }

  lemma NextSpends(cfg: Config, s: State, e: Event, s': State, lane: nat)
    requires ValidConfig(cfg) && Inv(cfg, s) && Inv(cfg, s') && LegalFlights(cfg, s) && LegalFlights(cfg, s')
    requires Next(cfg, s, e, s') && lane < cfg.lanes
    ensures Spends(cfg, s, e, s', lane)
  {
    if e.Lane? {
      LockTakenWhenFree(cfg, s, e.action, s');
      if e.action.FinishReceive? {
        SessionStarts(cfg, s, e.action, s');
      }
      if lane != e.action.lane {
        SameHandlerSpends(cfg, s, e, s', lane);
      } else if InFlight(s'.handlers[lane]) {
        OwnFlightSpends(cfg, s, e.action, s');
      } else if InFlight(s.handlers[lane]) {
        OwnEndSpends(cfg, s, e, s', lane);
      } else {
        SameHandlerSpends(cfg, s, e, s', lane);
      }
    } else if InFlight(s.handlers[lane]) {
      OwnEndSpends(cfg, s, e, s', lane);
    } else {
      SameHandlerSpends(cfg, s, e, s', lane);
    }
  }

  ghost function UsefulSessions(cfg: Config, run: seq<State>, events: seq<Event>, i: nat, lane: nat): nat
    requires ValidConfig(cfg) && i <= |events| && |run| == |events| + 1
  {
    if i == 0 then 0
    else UsefulSessions(cfg, run, events, i - 1, lane) + if Useful(cfg, run[i - 1], events[i - 1], lane) then 1 else 0
  }

  ghost function Setbacks(cfg: Config, run: seq<State>, i: nat, lane: nat): nat
    requires ValidConfig(cfg) && i < |run|
  {
    if i == 0 then 0
    else Setbacks(cfg, run, i - 1, lane) + if SetsBack(cfg, run[i - 1], run[i], lane) then 1 else 0
  }

  lemma {:induction false} RunKeepsFlightsLegal(cfg: Config, run: seq<State>, events: seq<Event>, i: nat)
    requires IsRun(cfg, run, events) && i < |run|
    ensures LegalFlights(cfg, run[i])
  {
    if i > 0 {
      RunKeepsFlightsLegal(cfg, run, events, i - 1);
      RunKeepsInv(cfg, run, events, i - 1);
      RunKeepsInv(cfg, run, events, i);
      assert NextAt(cfg, run, events, i - 1);
      NextKeepsFlightsLegal(cfg, run[i - 1], events[i - 1], run[i]);
    }
  }

  lemma RunSpends(cfg: Config, run: seq<State>, events: seq<Event>, i: nat, lane: nat)
    requires IsRun(cfg, run, events) && i < |events| && lane < cfg.lanes
    ensures |run[i].handlers| == |run[i + 1].handlers| == cfg.lanes
    ensures Spends(cfg, run[i], events[i], run[i + 1], lane)
  {
    RunKeepsInv(cfg, run, events, i);
    RunKeepsInv(cfg, run, events, i + 1);
    RunKeepsFlightsLegal(cfg, run, events, i);
    RunKeepsFlightsLegal(cfg, run, events, i + 1);
    assert NextAt(cfg, run, events, i);
    NextSpends(cfg, run[i], events[i], run[i + 1], lane);
  }

  lemma {:induction false} SessionsSpent(cfg: Config, run: seq<State>, events: seq<Event>, i: nat, lane: nat)
    requires IsRun(cfg, run, events) && lane < cfg.lanes && i <= |events|
    ensures |run[i].handlers| == cfg.lanes
    ensures UsefulSessions(cfg, run, events, i, lane) + Budget(cfg, run[i], lane)
         <= Allowance(WholeLane(cfg, lane), Setbacks(cfg, run, i, lane))
  {
    if i == 0 {
      AllowanceGrows(WholeLane(cfg, lane), 0);
    } else {
      SessionsSpent(cfg, run, events, i - 1, lane);
      RunSpends(cfg, run, events, i - 1, lane);
      AllowanceGrows(WholeLane(cfg, lane), Setbacks(cfg, run, i - 1, lane));
    }
  }

  /** What a lane may spend with that many setbacks. */
  function Allowance(whole: nat, setbacks: nat): nat { whole * (1 + setbacks) }

  lemma AllowanceGrows(whole: nat, setbacks: nat)
    ensures Allowance(whole, 0) == whole
    ensures Allowance(whole, setbacks + 1) == Allowance(whole, setbacks) + whole
  {
  }

  /**
   Restart bound. In every run, under any lock discipline and over any number of disconnects and
   power losses, a lane has at most end/C - start/C + 1 useful sessions, and as many again each time
   its stored offset was set back. When it has had that many, it is complete.
   */
  lemma UsefulSessionsBounded(cfg: Config, run: seq<State>, events: seq<Event>, lane: nat)
    requires IsRun(cfg, run, events) && lane < cfg.lanes
    ensures Start(cfg, lane) <= End(cfg, lane)
    ensures var bound := Allowance(End(cfg, lane) / C - Start(cfg, lane) / C + 1, Setbacks(cfg, run, |events|, lane));
            && UsefulSessions(cfg, run, events, |events|, lane) <= bound
            && (UsefulSessions(cfg, run, events, |events|, lane) == bound ==>
                  StoredOffset(cfg, run[|events|], lane) == End(cfg, lane))
  {
    var s := run[|events|];
    LaneInsideFile(|cfg.source|, cfg.lanes, lane);
    SessionsSpent(cfg, run, events, |events|, lane);
    RunKeepsInv(cfg, run, events, |events|);
    RunKeepsFlightsLegal(cfg, run, events, |events|);
    FlightIsLegal(cfg, s, lane);
    StoredIsOk(cfg, s);
    StoredOffsetIsLegal(cfg, s, lane);
    assert WholeLane(cfg, lane) == End(cfg, lane) / C - Start(cfg, lane) / C + 1;
  }

  /** With one lock, what sets a lane back is a power loss, or the removal after a rejected finalize. */
  lemma WhatSetsBack(cfg: Config, run: seq<State>, events: seq<Event>, i: nat, lane: nat)
    requires IsRun(cfg, run, events) && cfg.locked && i < |events| && lane < cfg.lanes
    requires SetsBack(cfg, run[i], run[i + 1], lane)
    ensures events[i].Loss? || (events[i].action.RemoveRejected? && !cfg.permitted)
  {
    assert events[..i + 1][i] == events[i];
    if cfg.permitted {
      PermittedMeansNoRemoval(cfg, run, events, i + 1);
    }
    if events[i].Lane? {
      RunKeepsLockedInv(cfg, run, events, i);
      RunKeepsLockedInv(cfg, run, events, i + 1);
      StoredIsOk(cfg, run[i]);
      StoredIsOk(cfg, run[i + 1]);
      StoredOffsetsOnlyRise(cfg, run, events, i);
      if Risen(cfg.lanes, Stored(run[i].dir), Stored(run[i + 1].dir)) {
        RisenOffset(cfg, run[i], run[i + 1], lane);
      }
    }
  }

  /** So with one lock, a permitted destination and no power loss, nothing ever sets a lane back. */
  lemma {:induction false} NothingSetsBack(cfg: Config, run: seq<State>, events: seq<Event>, i: nat, lane: nat)
    requires IsRun(cfg, run, events) && cfg.locked && cfg.permitted && lane < cfg.lanes && i <= |events|
    requires forall j :: 0 <= j < |events| ==> events[j].Lane?
    ensures Setbacks(cfg, run, i, lane) == 0
  {
    if i > 0 {
      NothingSetsBack(cfg, run, events, i - 1, lane);
      if SetsBack(cfg, run[i - 1], run[i], lane) {
        WhatSetsBack(cfg, run, events, i - 1, lane);
        assert false;
      }
    }
  }

  /** And then end/C - start/C + 1 useful sessions complete the lane. */
  lemma UsefulSessionsComplete(cfg: Config, run: seq<State>, events: seq<Event>, lane: nat)
    requires IsRun(cfg, run, events) && cfg.locked && cfg.permitted && lane < cfg.lanes
    requires forall j :: 0 <= j < |events| ==> events[j].Lane?
    ensures var needed := End(cfg, lane) / C - Start(cfg, lane) / C + 1;
            && needed >= 0 && UsefulSessions(cfg, run, events, |events|, lane) <= needed
            && (UsefulSessions(cfg, run, events, |events|, lane) == needed ==>
                  StoredOffset(cfg, run[|events|], lane) == End(cfg, lane))
  {
    UsefulSessionsBounded(cfg, run, events, lane);
    NothingSetsBack(cfg, run, events, |events|, lane);
    AllowanceGrows(End(cfg, lane) / C - Start(cfg, lane) / C + 1, 0);
  }
}
