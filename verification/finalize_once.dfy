/** Exactly one rename, and no lost last lane, in every interleaving of the lanes' finalize race. */
module FinalizeOnce {
  import opened Common
  import opened Ranges
  import opened Checkpoint
  import opened SessionReport
  import opened FinalizeRace

  ghost predicate Steps(cfg: Config, s: State, a: Action, s': State)
    requires ValidConfig(cfg)
  {
    Inv(cfg, s) && Enabled(cfg, s, a) && s' == Do(cfg, s, a)
  }

  /** Only lane `a` moved, and it is finished if it was finished before. */
  ghost predicate OneMoved(cfg: Config, s: State, l: nat, s': State)
    requires ValidConfig(cfg)
  {
    && l < |s.lanes| == |s'.lanes| == cfg.lanes
    && (forall j :: 0 <= j < |s.lanes| && j != l ==> s'.lanes[j] == s.lanes[j])
    && (Finished(cfg, l, s.lanes[l]) ==> Finished(cfg, l, s'.lanes[l]))
  }

  /** A step that changes neither status nor renames keeps what the other lanes know. */
  lemma OthersKeepInv(cfg: Config, s: State, l: nat, s': State)
    requires ValidConfig(cfg) && Inv(cfg, s) && OneMoved(cfg, s, l, s')
    requires s'.status == s.status && s'.renames == s.renames
    ensures forall j :: 0 <= j < |s'.lanes| && j != l ==> LaneInv(cfg, s', j)
    ensures AllFinished(cfg, s) ==> AllFinished(cfg, s')
  {
    forall j | 0 <= j < |s'.lanes| && j != l ensures LaneInv(cfg, s', j) {
      assert LaneInv(cfg, s, j);
      if AllFinished(cfg, s) {
        assert AllFinished(cfg, s');
      }
    }
  }

  /** A lane that moves on without deciding changes nothing about the outcome. */
  lemma UndecidedKeepsOutcome(cfg: Config, s: State, l: nat, s': State)
    requires ValidConfig(cfg) && Inv(cfg, s) && OneMoved(cfg, s, l, s')
    requires s'.status == s.status && s'.renames == s.renames && s'.destExists == s.destExists
    requires Undecided(s'.lanes[l]) && !Announces(s.lanes[l])
    requires !(s.lanes[l].Critical? && s.lanes[l].stage.Moved?)
    ensures OutcomeInv(cfg, s')
  {
    OthersKeepInv(cfg, s, l, s');
    MovedStays(s, l, s');
    assert SomeUndecided(s');
  }

  lemma StoreKept(cfg: Config, s: State, l: nat, s': State)
    requires ValidConfig(cfg) && StoreInv(cfg, s) && OneMoved(cfg, s, l, s')
    requires s'.stored == s.stored && s'.status == s.status
    requires s.stored.Some? ==> OffsetOk(cfg, s', l)
    requires s.stored.Some? || Terminal(s.status)
    ensures StoreInv(cfg, s')
  {
    if s.stored.Some? {
      forall j | 0 <= j < cfg.lanes ensures OffsetOk(cfg, s', j) { assert OffsetOk(cfg, s, j); }
    }
  }

  // ---------------------------------------------------------------- before the finalize lock

  /** A lane without a lock leaves the locks as they are. */
  lemma LocksKept(s: State, l: nat, s': State)
    requires LockInv(s) && l < |s.lanes| == |s'.lanes| && s'.lanes == s.lanes[l := s'.lanes[l]]
    requires s'.lockTable == s.lockTable && s'.nextLock == s.nextLock && s'.status == s.status
    requires !HasLock(s'.lanes[l])
    ensures LockInv(s')
  {
  }

  lemma OpenKeepsStore(cfg: Config, s: State, l: nat, c: TransferCheckpoint)
    requires ValidConfig(cfg) && StoreInv(cfg, s) && l < |s.lanes| && s.lanes[l].NotOpened? && !Terminal(s.status)
    requires c == if s.stored.Some? then s.stored.value else NewCheckpoint(cfg.transferId, cfg.fileSize, cfg.lanes)
    requires Canonical(c, cfg.fileSize, cfg.lanes)
    ensures StoreInv(cfg, SetLane(s.(stored := Some(c)), l, Reloaded))
  {
    forall j | 0 <= j < cfg.lanes ensures OffsetOk(cfg, SetLane(s.(stored := Some(c)), l, Reloaded), j) {
      assert s.stored.Some? ==> OffsetOk(cfg, s, j);
    }
  }

  lemma OpenKeepsInv(cfg: Config, s: State, l: nat, s': State)
    requires ValidConfig(cfg) && l < |s.lanes| && Steps(cfg, s, Go(l), s') && s.lanes[l].NotOpened?
    ensures Inv(cfg, s')
  {
    ReopenResumesAtStoredOffset(s.stored, cfg.transferId, cfg.fileSize, cfg.lanes, l);
    assert !Terminal(s.status) by { assert !Finished(cfg, l, s.lanes[l]); }
    var c := if s.stored.Some? then s.stored.value else NewCheckpoint(cfg.transferId, cfg.fileSize, cfg.lanes);
    NewIsCanonical(cfg.transferId, cfg.fileSize, cfg.lanes);
    assert s' == SetLane(s.(stored := Some(c)), l, Reloaded);
    OthersKeepInv(cfg, s, l, s');
    UndecidedKeepsOutcome(cfg, s, l, s');
    OpenKeepsStore(cfg, s, l, c);
    LocksKept(s, l, s');
  }

  lemma RunningKeepsInv(cfg: Config, s: State, l: nat, s': State)
    requires ValidConfig(cfg) && l < |s.lanes| && Steps(cfg, s, Go(l), s') && s.lanes[l].Reloaded?
    ensures Inv(cfg, s')
  {
    assert !Terminal(s.status) by { assert !Finished(cfg, l, s.lanes[l]); }
    LaneInsideFile(cfg.fileSize, cfg.lanes, l);
    assert s'.lanes[l] == Streaming(Start(cfg, l)) && s'.status == Running;
    forall j | 0 <= j < |s'.lanes| ensures LaneInv(cfg, s', j) {
      assert LaneInv(cfg, s, j);
      assert !AllFinished(cfg, s) by { assert !Finished(cfg, l, s.lanes[l]); }
    }
    LanesNonEmptyIff(cfg.fileSize, cfg.lanes);
    if s.stored.Some? {
      forall j | 0 <= j < cfg.lanes ensures OffsetOk(cfg, s', j) { assert OffsetOk(cfg, s, j); }
    }
    assert SomeUndecided(s') by { assert Undecided(s'.lanes[l]); }
    MovedStays(s, l, s');
  }

  /** A lane that is not at the rename stage does not take the witness of a rename away. */
  lemma MovedStays(s: State, l: nat, s': State)
    requires l < |s.lanes| == |s'.lanes| && (forall j :: 0 <= j < |s.lanes| && j != l ==> s'.lanes[j] == s.lanes[j])
    requires !(s.lanes[l].Critical? && s.lanes[l].stage.Moved?)
    ensures SomeMoved(s) ==> SomeMoved(s')
    ensures SomeAnnounces(s) && !Announces(s.lanes[l]) ==> SomeAnnounces(s')
  {
    if SomeMoved(s) {
      var m :| 0 <= m < |s.lanes| && s.lanes[m].Critical? && s.lanes[m].stage.Moved?;
      assert s'.lanes[m] == s.lanes[m];
    }
    if SomeAnnounces(s) && !Announces(s.lanes[l]) {
      var m :| 0 <= m < |s.lanes| && Announces(s.lanes[m]);
      assert s'.lanes[m] == s.lanes[m];
    }
  }

  lemma RecordKeepsStore(cfg: Config, s: State, l: nat, to: nat)
    requires ValidConfig(cfg) && StoreInv(cfg, s) && l < |s.lanes| && s.lanes[l].Streaming? && s.stored.Some?
    requires s.lanes[l].offset < to <= End(cfg, l) && CanonicalLane(s.stored.value, l)
    requires s.stored.value.lanes[l].rangeStart <= s.stored.value.lanes[l].rangeEndExclusive
    ensures StoreInv(cfg, SetLane(s.(stored := Some(Raised(s.stored.value, l, to))), l, Streaming(to)))
  {
    var c := s.stored.value;
    var s' := SetLane(s.(stored := Some(Raised(c, l, to))), l, Streaming(to));
    assert OffsetOk(cfg, s, l);
    RaisedStaysCanonical(c, cfg.fileSize, cfg.lanes, l, to);
    DurableLag(to, Start(cfg, l), End(cfg, l));
    forall j | 0 <= j < cfg.lanes ensures OffsetOk(cfg, s', j) { assert OffsetOk(cfg, s, j); }
  }

  lemma RecordKeepsInv(cfg: Config, s: State, l: nat, to: nat, s': State)
    requires ValidConfig(cfg) && l < |s.lanes| && Steps(cfg, s, Advance(l, to), s') && s.lanes[l].Streaming?
    ensures Inv(cfg, s')
  {
    assert !Finished(cfg, l, s.lanes[l]);
    assert s.stored.Some?;
    var c := s.stored.value;
    UpdateRaisesOwnLane(c, cfg.fileSize, cfg.lanes, l, to);
    assert CanonicalLane(c, l);
    assert s' == SetLane(s.(stored := Some(Raised(c, l, to))), l, Streaming(to));
    OthersKeepInv(cfg, s, l, s');
    UndecidedKeepsOutcome(cfg, s, l, s');
    RecordKeepsStore(cfg, s, l, to);
    LocksKept(s, l, s');
  }

  lemma AskKeepsInv(cfg: Config, s: State, l: nat, s': State)
    requires ValidConfig(cfg) && l < |s.lanes| && Steps(cfg, s, Go(l), s') && s.lanes[l].Streaming?
    ensures Inv(cfg, s')
  {
    assert LaneInv(cfg, s, l);
    assert s.stored.Some? ==> OffsetOk(cfg, s, l);
    OthersKeepInv(cfg, s, l, s');
    UndecidedKeepsOutcome(cfg, s, l, s');
    StoreKept(cfg, s, l, s');
    AskKeepsLocks(s, l);
  }

  lemma AskKeepsLocks(s: State, l: nat)
    requires l < |s.lanes| && LockInv(s) && s.lanes[l].Streaming?
    ensures LockInv(AskLock(s, l))
  {
  }

  lemma EnterKeepsInv(cfg: Config, s: State, l: nat, s': State)
    requires ValidConfig(cfg) && l < |s.lanes| && Steps(cfg, s, Go(l), s') && s.lanes[l].WaitingFor?
    ensures Inv(cfg, s')
  {
    assert s.stored.Some? ==> OffsetOk(cfg, s, l);
    OthersKeepInv(cfg, s, l, s');
    UndecidedKeepsOutcome(cfg, s, l, s');
    StoreKept(cfg, s, l, s');
    EnterKeepsLocks(s, l);
  }

  lemma EnterKeepsLocks(s: State, l: nat)
    requires l < |s.lanes| && LockInv(s) && s.lanes[l].WaitingFor?
    requires forall j :: 0 <= j < |s.lanes| ==> !(s.lanes[j].Critical? && s.lanes[j].lock == s.lanes[l].lock)
    ensures LockInv(SetLane(s, l, Critical(s.lanes[l].lock, Entered)))
  {
    assert HasLock(s.lanes[l]);
  }

  // ---------------------------------------------------------------- in the critical section

  /** What a step in the critical section can change. */
  ghost predicate CriticalEffect(s: State, l: nat, s': State)
    requires l < |s.lanes| && s.lanes[l].Critical?
  {
    && |s'.lanes| == |s.lanes|
    && (forall j :: 0 <= j < |s.lanes| && j != l ==> s'.lanes[j] == s.lanes[j])
    && !Undone(s'.lanes[l])
    && (HasLock(s'.lanes[l]) ==> s'.lanes[l].Critical? && s'.lanes[l].lock == s.lanes[l].lock)
    && (Terminal(s.status) ==> Terminal(s'.status))
    && (s'.lockTable == s.lockTable || (s'.lockTable.None? && Terminal(s'.status)))
    && (s'.stored == s.stored || (s'.stored.None? && Terminal(s'.status)))
    && s'.nextLock == s.nextLock
  }

  predicate Undone(pc: LanePc) { pc.NotOpened? || pc.Reloaded? || pc.Streaming? }

  lemma CriticalEffects(cfg: Config, s: State, l: nat, s': State)
    requires ValidConfig(cfg) && l < |s.lanes| && Steps(cfg, s, Go(l), s') && s.lanes[l].Critical?
    ensures CriticalEffect(s, l, s')
  {
    assert LaneInv(cfg, s, l);
  }

  lemma CriticalKeepsStore(cfg: Config, s: State, l: nat, s': State)
    requires ValidConfig(cfg) && l < |s.lanes| && Steps(cfg, s, Go(l), s') && s.lanes[l].Critical?
    ensures StoreInv(cfg, s') && LockInv(s')
  {
    CriticalEffects(cfg, s, l, s');
    EffectKeepsStore(cfg, s, l, s');
    EffectKeepsLocks(s, l, s');
  }

  lemma EffectKeepsStore(cfg: Config, s: State, l: nat, s': State)
    requires ValidConfig(cfg) && l < |s.lanes| && s.lanes[l].Critical?
    requires StoreInv(cfg, s) && CriticalEffect(s, l, s')
    ensures StoreInv(cfg, s')
  {
    if s'.stored.Some? {
      forall j | 0 <= j < cfg.lanes ensures OffsetOk(cfg, s', j) { assert OffsetOk(cfg, s, j); }
    }
    assert s.stored.Some? || Terminal(s.status);
  }

  lemma EffectKeepsLocks(s: State, l: nat, s': State)
    requires l < |s.lanes| && s.lanes[l].Critical?
    requires LockInv(s) && CriticalEffect(s, l, s')
    ensures LockInv(s')
  {
    assert HasLock(s.lanes[l]);
  }

  /** The checkpoint is complete exactly when every lane has recorded its end. */
  lemma CompleteIffFinished(cfg: Config, s: State)
    requires ValidConfig(cfg) && Inv(cfg, s) && s.stored.Some?
    ensures AllLanesComplete(s.stored.value) <==> AllFinished(cfg, s)
  {
    var c := s.stored.value;
    LanesNonEmptyIff(cfg.fileSize, cfg.lanes);
    forall j | 0 <= j < cfg.lanes
      ensures c.lanes[j].offset >= c.lanes[j].rangeEndExclusive <==> Finished(cfg, j, s.lanes[j])
    {
      assert OffsetOk(cfg, s, j) && CanonicalLane(c, j);
      assert Start(cfg, j) < End(cfg, j);
    }
  }

  lemma EnteredKeepsInv(cfg: Config, s: State, l: nat, s': State)
    requires ValidConfig(cfg) && l < |s.lanes| && Steps(cfg, s, Go(l), s')
    requires s.lanes[l].Critical? && s.lanes[l].stage.Entered?
    ensures Inv(cfg, s')
  {
    CriticalKeepsStore(cfg, s, l, s');
    OthersKeepInv(cfg, s, l, s');
    MovedStays(s, l, s');
    if !s.status.Completed? {
      assert SomeUndecided(s') by { assert Undecided(s'.lanes[l]); }
    }
  }

  lemma LoadKeepsInv(cfg: Config, s: State, l: nat, s': State)
    requires ValidConfig(cfg) && l < |s.lanes| && Steps(cfg, s, Go(l), s')
    requires s.lanes[l].Critical? && s.lanes[l].stage.NotDone?
    ensures Inv(cfg, s')
  {
    CriticalKeepsStore(cfg, s, l, s');
    OthersKeepInv(cfg, s, l, s');
    MovedStays(s, l, s');
    assert LaneInv(cfg, s, l);
    if s.stored.Some? {
      CompleteIffFinished(cfg, s);
      if AllFinished(cfg, s) {
        assert AllFinished(cfg, s');
        assert SomeUndecided(s') by { assert Undecided(s'.lanes[l]); }
      } else {
        var j :| 0 <= j < |s.lanes| && !Finished(cfg, j, s.lanes[j]);
        assert Undecided(s'.lanes[j]);
      }
    }
  }

  lemma GiveUpKeepsInv(cfg: Config, s: State, l: nat, s': State)
    requires ValidConfig(cfg) && l < |s.lanes| && Steps(cfg, s, Go(l), s')
    requires s.lanes[l].Critical? && s.lanes[l].stage == Read(false)
    ensures Inv(cfg, s')
  {
    CriticalKeepsStore(cfg, s, l, s');
    assert LaneInv(cfg, s, l);
    assert GaveUp(s.lanes[l]);
    var u :| 0 <= u < |s.lanes| && Undecided(s.lanes[u]);
    assert Undecided(s'.lanes[u]);
    MovedStays(s, l, s');
    forall j | 0 <= j < |s'.lanes| ensures LaneInv(cfg, s', j) {
      assert LaneInv(cfg, s, j);
      if AllFinished(cfg, s) { assert AllFinished(cfg, s'); }
    }
  }

  /** While no terminal status is set, only one lane is in the critical section. */
  lemma AloneWhileRunning(cfg: Config, s: State, l: nat, m: nat)
    requires ValidConfig(cfg) && Inv(cfg, s) && !Terminal(s.status)
    requires l < |s.lanes| && m < |s.lanes| && s.lanes[l].Critical? && s.lanes[m].Critical?
    ensures l == m
  {
    assert HasLock(s.lanes[l]) && HasLock(s.lanes[m]);
  }

  lemma DecideKeepsInv(cfg: Config, s: State, l: nat, s': State)
    requires ValidConfig(cfg) && l < |s.lanes| && Steps(cfg, s, Go(l), s')
    requires s.lanes[l].Critical? && s.lanes[l].stage == Read(true) && Permitted(cfg)
    ensures Inv(cfg, s')
  {
    CriticalKeepsStore(cfg, s, l, s');
    assert LaneInv(cfg, s, l);
    if s.renames > 0 {
      var m :| 0 <= m < |s.lanes| && s.lanes[m].Critical? && s.lanes[m].stage.Moved?;
      AloneWhileRunning(cfg, s, l, m);
    }
    OthersKeepInv(cfg, s, l, s');
    MovedStays(s, l, s');
    assert SomeUndecided(s') by { assert Undecided(s'.lanes[l]); }
  }

  lemma RefuseKeepsInv(cfg: Config, s: State, l: nat, s': State)
    requires ValidConfig(cfg) && l < |s.lanes| && Steps(cfg, s, Go(l), s')
    requires s.lanes[l].Critical? && s.lanes[l].stage == Read(true) && !Permitted(cfg)
    ensures Inv(cfg, s')
  {
    CriticalKeepsStore(cfg, s, l, s');
    assert LaneInv(cfg, s, l);
    assert AllFinished(cfg, s');
    forall j | 0 <= j < |s'.lanes| ensures LaneInv(cfg, s', j) {
      assert LaneInv(cfg, s, j);
      if j != l && s.lanes[j].Critical? && !Terminal(s.status) {
        AloneWhileRunning(cfg, s, l, j);
      }
    }
  }

  lemma MoveKeepsInv(cfg: Config, s: State, l: nat, s': State)
    requires ValidConfig(cfg) && l < |s.lanes| && Steps(cfg, s, Go(l), s')
    requires s.lanes[l].Critical? && s.lanes[l].stage.DestinationOk?
    ensures Inv(cfg, s')
  {
    CriticalKeepsStore(cfg, s, l, s');
    assert LaneInv(cfg, s, l);
    if s.renames > 0 {
      var m :| 0 <= m < |s.lanes| && s.lanes[m].Critical? && s.lanes[m].stage.Moved?;
      AloneWhileRunning(cfg, s, l, m);
    }
    assert AllFinished(cfg, s');
    assert s'.lanes[l].Critical? && s'.lanes[l].stage.Moved?;
    assert SomeUndecided(s') by { assert Undecided(s'.lanes[l]); }
    forall j | 0 <= j < |s'.lanes| ensures LaneInv(cfg, s', j) {
      assert LaneInv(cfg, s, j);
      if j != l && s.lanes[j].Critical? {
        AloneWhileRunning(cfg, s, l, j);
      }
    }
  }

  lemma MarkKeepsInv(cfg: Config, s: State, l: nat, s': State)
    requires ValidConfig(cfg) && l < |s.lanes| && Steps(cfg, s, Go(l), s')
    requires s.lanes[l].Critical? && s.lanes[l].stage.Moved?
    ensures Inv(cfg, s')
  {
    CriticalKeepsStore(cfg, s, l, s');
    assert LaneInv(cfg, s, l);
    assert AllFinished(cfg, s');
    assert SomeAnnounces(s') by { assert Announces(s'.lanes[l]); }
    forall j | 0 <= j < |s'.lanes| ensures LaneInv(cfg, s', j) {
      assert LaneInv(cfg, s, j);
      if j != l && s.lanes[j].Critical? {
        AloneWhileRunning(cfg, s, l, j);
      }
    }
  }

  lemma ReleaseKeepsInv(cfg: Config, s: State, l: nat, s': State)
    requires ValidConfig(cfg) && l < |s.lanes| && Steps(cfg, s, Go(l), s')
    requires s.lanes[l].Critical? && (s.lanes[l].stage.Marked? || s.lanes[l].stage.Dropped?)
    ensures Inv(cfg, s')
  {
    CriticalKeepsStore(cfg, s, l, s');
    assert LaneInv(cfg, s, l);
    OthersKeepInv(cfg, s, l, s');
    if s.status.Completed? {
      assert SomeAnnounces(s') by { assert Announces(s'.lanes[l]); }
    }
  }

  lemma BrokenKeepsInv(cfg: Config, s: State, l: nat, s': State)
    requires ValidConfig(cfg) && l < |s.lanes| && Steps(cfg, s, Go(l), s')
    requires s.lanes[l].Broken? || s.lanes[l].Failing?
    ensures Inv(cfg, s')
  {
    assert LaneInv(cfg, s, l);
    OthersKeepInv(cfg, s, l, s');
    if s.stored.Some? {
      forall j | 0 <= j < cfg.lanes ensures OffsetOk(cfg, s', j) { assert OffsetOk(cfg, s, j); }
    }
  }

  lemma StepKeepsInv(cfg: Config, s: State, a: Action, s': State)
    requires ValidConfig(cfg) && Steps(cfg, s, a, s')
    ensures Inv(cfg, s')
  {
    var l := a.lane;
    match s.lanes[l] {
      case NotOpened => OpenKeepsInv(cfg, s, l, s');
      case Reloaded => RunningKeepsInv(cfg, s, l, s');
      case Streaming(_) =>
        if a.Advance? { RecordKeepsInv(cfg, s, l, a.to, s'); } else { AskKeepsInv(cfg, s, l, s'); }
      case WaitingFor(_) => EnterKeepsInv(cfg, s, l, s');
      case Critical(_, stage) =>
        match stage {
          case Entered => EnteredKeepsInv(cfg, s, l, s');
          case NotDone => LoadKeepsInv(cfg, s, l, s');
          case Read(complete) =>
            if !complete { GiveUpKeepsInv(cfg, s, l, s'); }
            else if Permitted(cfg) { DecideKeepsInv(cfg, s, l, s'); }
            else { RefuseKeepsInv(cfg, s, l, s'); }
          case DestinationOk => MoveKeepsInv(cfg, s, l, s');
          case Moved => MarkKeepsInv(cfg, s, l, s');
          case _ => ReleaseKeepsInv(cfg, s, l, s');
        }
      case _ => BrokenKeepsInv(cfg, s, l, s');
    }
  }

  lemma InitInv(cfg: Config)
    requires ValidConfig(cfg)
    ensures Inv(cfg, Init(cfg))
  {
  }

  lemma {:induction false} RunKeepsInv(cfg: Config, run: seq<State>, actions: seq<Action>, i: nat)
    requires IsRun(cfg, run, actions) && i < |run|
    ensures Inv(cfg, run[i])
  {
    if i == 0 {
      InitInv(cfg);
    } else {
      RunKeepsInv(cfg, run, actions, i - 1);
      assert NextAt(cfg, run, actions, i - 1);
      StepKeepsInv(cfg, run[i - 1], actions[i - 1], run[i]);
    }
  }

  // ---------------------------------------------------------------- termination

  function StageSteps(stage: Stage): nat {
    match stage
    case Entered => 10
    case NotDone => 9
    case Read(_) => 8
    case DestinationOk => 7
    case Moved => 6
    case Marked(_) => 5
    case Dropped(_) => 4
  }

  /** How many steps a lane can still take, at most. */
  function StepsLeft(cfg: Config, l: nat, pc: LanePc): nat
    requires ValidConfig(cfg)
  {
    match pc
    case NotOpened => Max(0, End(cfg, l) - Start(cfg, l)) + 14
    case Reloaded => Max(0, End(cfg, l) - Start(cfg, l)) + 13
    case Streaming(o) => Max(0, End(cfg, l) - o) + 12
    case WaitingFor(_) => 11
    case Critical(_, stage) => StageSteps(stage)
    case Broken => 2
    case Failing => 1
    case _ => 0
  }

  function Measure(cfg: Config, s: State): nat
    requires ValidConfig(cfg)
  {
    Sum(seq(|s.lanes|, l requires 0 <= l < |s.lanes| => StepsLeft(cfg, l, s.lanes[l])))
  }

  lemma StepTakesLaneOn(cfg: Config, s: State, a: Action, s': State)
    requires ValidConfig(cfg) && Steps(cfg, s, a, s')
    ensures |s'.lanes| == |s.lanes|
    ensures forall j :: 0 <= j < |s.lanes| && j != a.lane ==> s'.lanes[j] == s.lanes[j]
    ensures StepsLeft(cfg, a.lane, s'.lanes[a.lane]) < StepsLeft(cfg, a.lane, s.lanes[a.lane])
  {
    assert LaneInv(cfg, s, a.lane);
    LaneInsideFile(cfg.fileSize, cfg.lanes, a.lane);
    if s.lanes[a.lane].Critical? {
      CriticalStepsFall(cfg, s, a.lane);
    }
  }

  lemma CriticalStepsFall(cfg: Config, s: State, l: nat)
    requires ValidConfig(cfg) && l < |s.lanes| && s.lanes[l].Critical?
    ensures var s' := InLock(cfg, s, l, s.lanes[l].lock, s.lanes[l].stage);
      && |s'.lanes| == |s.lanes|
      && (forall j :: 0 <= j < |s.lanes| && j != l ==> s'.lanes[j] == s.lanes[j])
      && StepsLeft(cfg, l, s'.lanes[l]) < StepsLeft(cfg, l, s.lanes[l])
  {
  }

  lemma MeasureFalls(cfg: Config, s: State, a: Action, s': State)
    requires ValidConfig(cfg) && Steps(cfg, s, a, s')
    ensures Measure(cfg, s') < Measure(cfg, s)
  {
    StepTakesLaneOn(cfg, s, a, s');
    var before := seq(|s.lanes|, l requires 0 <= l < |s.lanes| => StepsLeft(cfg, l, s.lanes[l]));
    var after := seq(|s'.lanes|, l requires 0 <= l < |s'.lanes| => StepsLeft(cfg, l, s'.lanes[l]));
    SumUpdate(before, a.lane, StepsLeft(cfg, a.lane, s'.lanes[a.lane]));
    assert after == before[a.lane := StepsLeft(cfg, a.lane, s'.lanes[a.lane])];
  }

  /** Every run is finite: its length is bounded by the file and lane counts alone. */
  lemma {:induction false} RunsAreFinite(cfg: Config, run: seq<State>, actions: seq<Action>, i: nat)
    requires IsRun(cfg, run, actions) && i < |run|
    ensures i + Measure(cfg, run[i]) <= Measure(cfg, Init(cfg))
  {
    if i > 0 {
      RunsAreFinite(cfg, run, actions, i - 1);
      RunKeepsInv(cfg, run, actions, i - 1);
      assert NextAt(cfg, run, actions, i - 1);
      MeasureFalls(cfg, run[i - 1], actions[i - 1], run[i]);
    }
  }

  /** No deadlock: a lane without its answer can move, or the lane that holds its lock can. */
  lemma UnansweredLaneCanMove(cfg: Config, s: State, l: nat) returns (a: Action)
    requires ValidConfig(cfg) && Inv(cfg, s) && l < cfg.lanes && !Answered(s.lanes[l])
    ensures Enabled(cfg, s, a)
  {
    assert LaneInv(cfg, s, l);
    match s.lanes[l] {
      case Streaming(o) =>
        a := if o < End(cfg, l) then Advance(l, End(cfg, l)) else Go(l);
      case WaitingFor(lock) =>
        if j :| 0 <= j < |s.lanes| && s.lanes[j].Critical? && s.lanes[j].lock == lock {
          a := Go(j);
        } else {
          a := Go(l);
        }
      case _ => a := Go(l);
    }
  }

  // ---------------------------------------------------------------- what status queries see

  lemma StatusAfterStep(cfg: Config, s: State, a: Action)
    requires ValidConfig(cfg) && Enabled(cfg, s, a)
    ensures !s.status.Queued? ==> !Do(cfg, s, a).status.Queued?
    ensures Do(cfg, s, a).lanes[a.lane].Streaming? ==> s.lanes[a.lane].Streaming? || !Do(cfg, s, a).status.Queued?
    ensures forall j :: 0 <= j < |s.lanes| && j != a.lane ==> Do(cfg, s, a).lanes[j] == s.lanes[j]
  {
    if s.lanes[a.lane].NotOpened? {
      LaneInsideFile(cfg.fileSize, cfg.lanes, a.lane);
    }
  }

  lemma {:induction false} StartedIsNotQueued(cfg: Config, run: seq<State>, actions: seq<Action>, i: nat, l: nat)
    requires IsRun(cfg, run, actions) && i < |run| && l < |run[i].lanes| && run[i].lanes[l].Streaming?
    ensures !run[i].status.Queued?
  {
    if i > 0 {
      assert NextAt(cfg, run, actions, i - 1);
      StatusAfterStep(cfg, run[i - 1], actions[i - 1]);
      if run[i - 1].lanes[l].Streaming? {
        StartedIsNotQueued(cfg, run, actions, i - 1, l);
      }
    }
  }

  /** In every run, a transfer is Running for as long as a lane that has started is not at its end. */
  lemma RunningUntilFinished(cfg: Config, run: seq<State>, actions: seq<Action>, i: nat, l: nat)
    requires IsRun(cfg, run, actions) && i < |run|
    requires l < |run[i].lanes| && run[i].lanes[l].Streaming? && run[i].lanes[l].offset < End(cfg, l)
    ensures run[i].status.Running?
  {
    StartedIsNotQueued(cfg, run, actions, i, l);
    RunKeepsInv(cfg, run, actions, i);
    assert !Finished(cfg, l, run[i].lanes[l]);
  }

  lemma DestinationAfterStep(cfg: Config, s: State, a: Action)
    requires ValidConfig(cfg) && Enabled(cfg, s, a)
    requires s.renames > 0 ==> s.destExists
    ensures Do(cfg, s, a).renames > 0 ==> Do(cfg, s, a).destExists
  {
    if s.lanes[a.lane].NotOpened? {
      LaneInsideFile(cfg.fileSize, cfg.lanes, a.lane);
    }
  }

  lemma {:induction false} RenamedIsThere(cfg: Config, run: seq<State>, actions: seq<Action>, i: nat)
    requires IsRun(cfg, run, actions) && i < |run|
    ensures run[i].renames > 0 ==> run[i].destExists
  {
    if i > 0 {
      RenamedIsThere(cfg, run, actions, i - 1);
      assert NextAt(cfg, run, actions, i - 1);
      DestinationAfterStep(cfg, run[i - 1], actions[i - 1]);
    }
  }

  // ---------------------------------------------------------------- cleaning up

  /** The lane is about to remove the checkpoint, after it has set a terminal status. */
  predicate Cleans(pc: LanePc) { pc.Critical? && (pc.stage.Marked? || pc.stage.Dropped?) }

  ghost predicate SomeCleans(s: State) { exists l :: 0 <= l < |s.lanes| && Cleans(s.lanes[l]) }

  lemma StepKeepsCleaner(cfg: Config, s: State, a: Action, s': State)
    requires ValidConfig(cfg) && Steps(cfg, s, a, s')
    requires Terminal(s.status) && s.stored.Some? ==> SomeCleans(s)
    ensures Terminal(s'.status) && s'.stored.Some? ==> SomeCleans(s')
  {
    var l := a.lane;
    assert LaneInv(cfg, s, l);
    if Terminal(s.status) {
      assert Finished(cfg, l, s.lanes[l]);
      if s.stored.Some? {
        var m :| 0 <= m < |s.lanes| && Cleans(s.lanes[m]);
        assert m != l ==> Cleans(s'.lanes[m]);
        assert m == l && s.lanes[l].stage.Marked? ==> Cleans(s'.lanes[l]);
      }
    } else {
      assert Terminal(s'.status) ==> Cleans(s'.lanes[l]);
    }
  }

  /** After a terminal status the checkpoint is there only as long as some lane is about to remove it. */
  lemma {:induction false} RunKeepsCleaner(cfg: Config, run: seq<State>, actions: seq<Action>, i: nat)
    requires IsRun(cfg, run, actions) && i < |run|
    ensures Terminal(run[i].status) && run[i].stored.Some? ==> SomeCleans(run[i])
  {
    if i > 0 {
      RunKeepsCleaner(cfg, run, actions, i - 1);
      RunKeepsInv(cfg, run, actions, i - 1);
      assert NextAt(cfg, run, actions, i - 1);
      StepKeepsCleaner(cfg, run[i - 1], actions[i - 1], run[i]);
    }
  }

  /** What a step does to the lock table: nothing, or it empties it, or it puts a new lock there. */
  lemma TableAfterStep(cfg: Config, s: State, a: Action)
    requires ValidConfig(cfg) && Enabled(cfg, s, a)
    ensures Do(cfg, s, a).lockTable in {s.lockTable, None, Some(s.nextLock)}
    ensures forall j :: 0 <= j < |s.lanes| && j != a.lane ==> Do(cfg, s, a).lanes[j] == s.lanes[j]
  {
    if s.lanes[a.lane].NotOpened? {
      LaneInsideFile(cfg.fileSize, cfg.lanes, a.lane);
    }
  }

  lemma OnlyMarkedDrops(cfg: Config, s: State, a: Action)
    requires ValidConfig(cfg) && Enabled(cfg, s, a)
    requires Dropped(Do(cfg, s, a).lanes[a.lane])
    ensures Do(cfg, s, a).lockTable == None
  {
    if s.lanes[a.lane].NotOpened? {
      LaneInsideFile(cfg.fileSize, cfg.lanes, a.lane);
    }
  }

  predicate Dropped(pc: LanePc) { pc.Critical? && pc.stage.Dropped? }

  /** Once a lane has dropped the finalize lock, no lane that asks later is given that lock. */
  lemma {:induction false} DroppedLockIsGone(cfg: Config, run: seq<State>, actions: seq<Action>, i: nat, l: nat)
    requires IsRun(cfg, run, actions) && i < |run|
    requires l < |run[i].lanes| && Dropped(run[i].lanes[l])
    ensures run[i].lockTable != Some(run[i].lanes[l].lock)
  {
    if i > 0 {
      assert NextAt(cfg, run, actions, i - 1);
      TableAfterStep(cfg, run[i - 1], actions[i - 1]);
      if actions[i - 1].lane == l {
        OnlyMarkedDrops(cfg, run[i - 1], actions[i - 1]);
      } else {
        RunKeepsInv(cfg, run, actions, i - 1);
        RunKeepsInv(cfg, run, actions, i);
        DroppedLockIsGone(cfg, run, actions, i - 1, l);
        assert HasLock(run[i - 1].lanes[l]);
      }
    }
  }

  // ---------------------------------------------------------------- main results

  /** The acknowledgements of all lanes, in the order in which the client joins them. */
  ghost predicate AcksOf(s: State, joined: seq<nat>, acks: seq<CompleteAck>) {
    && |joined| == |acks|
    && (forall l :: 0 <= l < |s.lanes| ==> l in joined)
    && forall i :: 0 <= i < |joined| ==> joined[i] < |s.lanes| && s.lanes[joined[i]] == Acked(acks[i].status)
  }

  /**
   Exactly one rename, no lost last lane. Every run that cannot go on has answered every lane. If the
   destination is permitted it ends Completed after exactly one rename, with every lane acknowledged
   and the client's fold of the acknowledgements Completed in any order; if it is not, it ends Failed
   and nothing was renamed. Either way the checkpoint is gone.
   */
  lemma FinalizedExactlyOnce(cfg: Config, run: seq<State>, actions: seq<Action>)
    requires IsRun(cfg, run, actions) && Stuck(cfg, run[|actions|])
    ensures var s := run[|actions|];
            && (forall l :: 0 <= l < |s.lanes| ==> Answered(s.lanes[l]))
            && |actions| <= Measure(cfg, Init(cfg)) && s.stored == None
            && (!cfg.destExists || (cfg.overwrite && !cfg.immutable) ==>
                  && s.status == Completed && s.renames == 1 && s.destExists
                  && (forall l :: 0 <= l < |s.lanes| ==> s.lanes[l].Acked?)
                  && forall joined, acks :: AcksOf(s, joined, acks) ==>
                       FoldAcks(acks).Some? && FoldAcks(acks).value.status == Completed)
            && (cfg.destExists && (cfg.immutable || !cfg.overwrite) ==> s.status == Failed && s.renames == 0)
  {
    var s := run[|actions|];
    RunKeepsInv(cfg, run, actions, |actions|);
    RunsAreFinite(cfg, run, actions, |actions|);
    forall l | 0 <= l < |s.lanes| ensures Answered(s.lanes[l]) {
      if !Answered(s.lanes[l]) {
        var a := UnansweredLaneCanMove(cfg, s, l);
      }
    }
    AnsweredMeansTerminal(cfg, s);
    RunKeepsCleaner(cfg, run, actions, |actions|);
    RenamedIsThere(cfg, run, actions, |actions|);
    if Permitted(cfg) {
      forall l | 0 <= l < |s.lanes| ensures s.lanes[l].Acked? { assert LaneInv(cfg, s, l); }
      forall joined, acks | AcksOf(s, joined, acks)
        ensures FoldAcks(acks).Some? && FoldAcks(acks).value.status == Completed
      {
        FoldOfAllLanes(cfg, s, joined, acks);
      }
    }
  }

  lemma AnsweredMeansTerminal(cfg: Config, s: State)
    requires ValidConfig(cfg) && Inv(cfg, s)
    requires forall l :: 0 <= l < |s.lanes| ==> Answered(s.lanes[l])
    ensures Terminal(s.status)
  {
    assert LaneInv(cfg, s, 0);
    forall u | 0 <= u < |s.lanes| ensures !Undecided(s.lanes[u]) { assert Answered(s.lanes[u]); }
    assert !Terminal(s.status) ==> GaveUp(s.lanes[0]);
  }

  lemma FoldOfAllLanes(cfg: Config, s: State, joined: seq<nat>, acks: seq<CompleteAck>)
    requires ValidConfig(cfg) && Inv(cfg, s) && s.status.Completed?
    requires forall l :: 0 <= l < |s.lanes| ==> Answered(s.lanes[l])
    requires AcksOf(s, joined, acks)
    ensures FoldAcks(acks).Some? && FoldAcks(acks).value.status == Completed
  {
    var winner :| 0 <= winner < |s.lanes| && Announces(s.lanes[winner]);
    assert winner in joined;
    var at :| 0 <= at < |joined| && joined[at] == winner;
    assert acks[at].status == Completed;
    forall i | 0 <= i < |acks| ensures acks[i].status != Failed {
      assert LaneInv(cfg, s, joined[i]);
    }
    FoldStatus(acks);
  }

  /** Completed is never left, and the number of renames never goes past one. */
  lemma {:induction false} CompletedIsFinal(cfg: Config, run: seq<State>, actions: seq<Action>, i: nat, j: nat)
    requires IsRun(cfg, run, actions) && i <= j < |run|
    ensures run[j].renames <= 1
    ensures run[i].status.Completed? ==> run[j].status.Completed? && run[j].renames == 1
    decreases j - i
  {
    RunKeepsInv(cfg, run, actions, j);
    if i < j && run[i].status.Completed? {
      RunKeepsInv(cfg, run, actions, i);
      assert NextAt(cfg, run, actions, i);
      CompletedStays(cfg, run[i], actions[i], run[i + 1]);
      CompletedIsFinal(cfg, run, actions, i + 1, j);
    }
  }

  lemma CompletedStays(cfg: Config, s: State, a: Action, s': State)
    requires ValidConfig(cfg) && Steps(cfg, s, a, s') && s.status.Completed?
    ensures s'.status.Completed?
  {
    assert LaneInv(cfg, s, a.lane);
    assert Finished(cfg, a.lane, s.lanes[a.lane]);
  }
}
