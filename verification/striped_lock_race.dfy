/**
 A run of the striped upload under the table of checkpoint locks in which a failed stream lets one
 lane's store put another lane's stored offset back; and with it the exact condition of the lag bound
 when locks are known by identity.
 */
module StripedLockRace {
  import opened Common
  import opened Ranges
  import opened Checkpoint
  import opened SessionReport
  import U = StripedUpload
  import opened StripedSafety
  import opened StripedProgress
  import opened StripedLocks
  import R = StripedRecovery

  // ---------------------------------------------------------------- reachability

  ghost predicate Path(cfg: Config, run: seq<State>, actions: seq<Action>)
    requires ValidConfig(cfg)
  {
    |run| == |actions| + 1 && forall i :: 0 <= i < |actions| ==> NextAt(cfg, run, actions, i)
  }

  ghost predicate Reaches(cfg: Config, s: State, t: State)
    requires ValidConfig(cfg)
  {
    exists run, actions :: Path(cfg, run, actions) && run[0] == s && run[|actions|] == t
  }

  lemma ReachesSelf(cfg: Config, s: State)
    requires ValidConfig(cfg)
    ensures Reaches(cfg, s, s)
  {
    assert Path(cfg, [s], []);
  }

  lemma ReachesOn(cfg: Config, s: State, t: State, a: Action, u: State)
    requires ValidConfig(cfg) && Reaches(cfg, s, t) && Next(cfg, t, a, u)
    ensures Reaches(cfg, s, u)
  {
    var run, actions :| Path(cfg, run, actions) && run[0] == s && run[|actions|] == t;
    var longer, more := run + [u], actions + [a];
    forall i | 0 <= i < |more| ensures NextAt(cfg, longer, more, i) {
      assert i < |actions| ==> NextAt(cfg, run, actions, i);
    }
    assert Path(cfg, longer, more);
  }

  lemma {:induction false} ReachesAlong(cfg: Config, s: State, run: seq<State>, actions: seq<Action>, i: nat)
    requires ValidConfig(cfg) && Path(cfg, run, actions) && Reaches(cfg, s, run[0]) && i <= |actions|
    ensures Reaches(cfg, s, run[i])
  {
    if i > 0 {
      ReachesAlong(cfg, s, run, actions, i - 1);
      assert NextAt(cfg, run, actions, i - 1);
      ReachesOn(cfg, s, run[i - 1], actions[i - 1], run[i]);
    }
  }

  lemma Then(cfg: Config, s: State, t: State, u: State)
    requires ValidConfig(cfg) && Reaches(cfg, s, t) && Reaches(cfg, t, u)
    ensures Reaches(cfg, s, u)
  {
    var run, actions :| Path(cfg, run, actions) && run[0] == t && run[|actions|] == u;
    ReachesAlong(cfg, s, run, actions, |actions|);
  }

  lemma Step(cfg: Config, s: State, a: Action, t: State)
    requires ValidConfig(cfg) && Next(cfg, s, a, t)
    ensures Reaches(cfg, s, t)
  {
    ReachesSelf(cfg, s);
    ReachesOn(cfg, s, s, a, t);
  }

  lemma ReachesIsRun(cfg: Config, t: State) returns (run: seq<State>, actions: seq<Action>)
    requires ValidConfig(cfg) && Reaches(cfg, Init(cfg), t)
    ensures IsRun(cfg, run, actions) && run[|actions|] == t
  {
    run, actions :| Path(cfg, run, actions) && run[0] == Init(cfg) && run[|actions|] == t;
  }

  /** The upload's invariant at every state that a run can reach. */
  lemma ReachedIsSound(cfg: Config, t: State)
    requires ValidConfig(cfg) && Reaches(cfg, Init(cfg), t)
    ensures Inv(Unlocked(cfg), t.up) && |t.aux| == |t.up.handlers| == cfg.lanes
  {
    var run, actions := ReachesIsRun(cfg, t);
    RunsAreUploads(cfg, run, actions, |actions|);
    ComesWithInv(Unlocked(cfg), false, t.up);
  }

  // ---------------------------------------------------------------- single steps

  ghost predicate Shaped(cfg: Config, s: State) {
    |s.aux| == |s.up.handlers| == cfg.lanes && !U.Renamed(s.up)
  }

  lemma Asks(cfg: Config, s: State, lane: nat) returns (s': State)
    requires ValidConfig(cfg) && Shaped(cfg, s) && lane < cfg.lanes && s.aux[lane].Free? && WantsLock(s.up.handlers[lane])
    ensures Reaches(cfg, s, s') && s'.up == s.up && s'.status == s.status
    ensures s'.aux == s.aux[lane := HasLock(GivenLock(s))] && s'.table == Some(GivenLock(s))
    ensures s'.nextLock == if s.table.Some? then s.nextLock else s.nextLock + 1
  {
    s' := SetAux(s.(table := Some(GivenLock(s)), nextLock := if s.table.Some? then s.nextLock else s.nextLock + 1),
                 lane, HasLock(GivenLock(s)));
    Step(cfg, s, Ask(lane), s');
  }

  lemma Does(cfg: Config, s: State, a: UploadAction, up: Upload) returns (s': State)
    requires ValidConfig(cfg) && Shaped(cfg, s) && MayDo(s, a) && !a.ReportRunning?
    requires U.LaneStep(Unlocked(cfg), s.up, a, up) && |up.handlers| == cfg.lanes
    ensures Reaches(cfg, s, s') && s'.up == up && s'.table == s.table && s'.nextLock == s.nextLock && s'.status == s.status
    ensures s'.aux == s.aux[a.lane := AfterAux(s.aux[a.lane], s.up.handlers[a.lane], a, up.handlers[a.lane])]
  {
    s' := SetAux(s.(up := up), a.lane, AfterAux(s.aux[a.lane], s.up.handlers[a.lane], a, up.handlers[a.lane]));
    Step(cfg, s, Do(a), s');
  }

  /** Nobody is between load and store under the lock that the table gives out next. */
  ghost predicate NobodyUnder(cfg: Config, s: State, lane: nat, lock: nat) {
    && Shaped(cfg, s)
    && forall j :: 0 <= j < cfg.lanes && j != lane && U.HoldsCheckpointLock(s.up.handlers[j]) ==> s.aux[j] != HasLock(lock)
  }

  /** The lane has asked for its lock and loads the checkpoint. */
  lemma AsksAndFinds(cfg: Config, s: State, lane: nat) returns (s': State)
    requires ValidConfig(cfg) && Inv(Unlocked(cfg), s.up) && lane < cfg.lanes && NobodyUnder(cfg, s, lane, GivenLock(s))
    requires s.aux[lane].Free? && s.up.handlers[lane].Idle? && U.Start(cfg, lane) < U.End(cfg, lane)
    ensures Reaches(cfg, s, s') && Shaped(cfg, s') && s'.status == s.status && s'.up.dir == s.up.dir
    ensures s'.aux == s.aux[lane := HasLock(GivenLock(s))] && s'.table == Some(GivenLock(s))
    ensures s'.nextLock == if s.table.Some? then s.nextLock else s.nextLock + 1
    ensures s'.up.handlers == s.up.handlers[lane :=
              if U.Stored(s.up.dir).Some? then U.Reloaded(R.Current(cfg, s.up)) else U.NoCheckpoint]
  {
    var asked := Asks(cfg, s, lane);
    var up := R.FindStep(Unlocked(cfg), s.up, lane);
    assert LockFree(asked, lane);
    s' := Does(cfg, asked, U.FindCheckpoint(lane), up);
    Then(cfg, s, asked, s');
    assert s'.aux == asked.aux;
  }

  lemma Creates(cfg: Config, s: State, lane: nat) returns (s': State)
    requires ValidConfig(cfg) && Shaped(cfg, s) && lane < cfg.lanes && s.up.handlers[lane].NoCheckpoint? && s.aux[lane].HasLock?
    ensures Reaches(cfg, s, s') && Shaped(cfg, s') && s'.status == s.status
    ensures s'.aux == s.aux && s'.table == s.table && s'.nextLock == s.nextLock
    ensures var blank := NewCheckpoint(cfg.transferId, |cfg.source|, cfg.lanes);
            U.Stored(s'.up.dir) == Some(blank) && s'.up.handlers == s.up.handlers[lane := U.Reloaded(blank)]
  {
    var up := R.CreateStep(Unlocked(cfg), s.up, lane);
    s' := Does(cfg, s, U.StoreFresh(lane), up);
    assert s'.aux == s.aux;
  }

  /** It stores the checkpoint back, the transfer is Running, and the file is pre-sized. */
  lemma StoresBackAndPresizes(cfg: Config, s: State, lane: nat, c: TransferCheckpoint) returns (s': State)
    requires ValidConfig(cfg) && Shaped(cfg, s) && lane < cfg.lanes && s.aux[lane].HasLock?
    requires s.up.handlers[lane] == U.Reloaded(c) && lane < |c.lanes|
    ensures Reaches(cfg, s, s') && Shaped(cfg, s') && s'.status == Running && U.Stored(s'.up.dir) == Some(c)
    ensures s'.aux == s.aux[lane := Free] && s'.table == s.table && s'.nextLock == s.nextLock
    ensures s'.up.handlers == s.up.handlers[lane := R.Resuming(c.lanes[lane].offset)]
  {
    var up := R.StoreBackStep(Unlocked(cfg), s.up, lane, c);
    var stored := Does(cfg, s, U.StoreReloaded(lane), up);
    assert stored.aux == s.aux[lane := Marking];
    var running := SetAux(stored.(status := Running), lane, Free);
    Step(cfg, stored, SetRunning(lane), running);
    Then(cfg, s, stored, running);
    assert running.aux == s.aux[lane := Free];
    var sized := R.PresizeStep(Unlocked(cfg), up, lane, c.lanes[lane].offset);
    s' := Does(cfg, running, U.Presize(lane), sized);
    Then(cfg, s, running, s');
    assert s'.aux == running.aux;
    R.Moved(s.up, up, sized, lane, U.Opened(c.lanes[lane].offset), R.Resuming(c.lanes[lane].offset));
  }

  /** An open, under the lock that the table gives. */
  lemma Opens(cfg: Config, s: State, lane: nat) returns (s': State)
    requires ValidConfig(cfg) && Inv(Unlocked(cfg), s.up) && lane < cfg.lanes && NobodyUnder(cfg, s, lane, GivenLock(s))
    requires s.aux[lane].Free? && s.up.handlers[lane].Idle? && U.Start(cfg, lane) < U.End(cfg, lane)
    ensures Reaches(cfg, s, s') && Shaped(cfg, s') && s'.status == Running
    ensures s'.aux == s.aux && s'.table == Some(GivenLock(s))
    ensures s'.nextLock == if s.table.Some? then s.nextLock else s.nextLock + 1
    ensures lane < |R.Current(cfg, s.up).lanes| && U.Stored(s'.up.dir) == Some(R.Current(cfg, s.up))
    ensures s'.up.handlers == s.up.handlers[lane := R.Resuming(R.Current(cfg, s.up).lanes[lane].offset)]
  {
    var c := R.Current(cfg, s.up);
    R.CurrentIsCanonical(Unlocked(cfg), s.up);
    var found := AsksAndFinds(cfg, s, lane);
    var loaded := found;
    if U.Stored(s.up.dir).None? {
      loaded := Creates(cfg, found, lane);
      Then(cfg, s, found, loaded);
      R.Moved(s.up, found.up, loaded.up, lane, U.NoCheckpoint, U.Reloaded(c));
    }
    s' := StoresBackAndPresizes(cfg, loaded, lane, c);
    Then(cfg, s, loaded, s');
    R.Moved(s.up, loaded.up, s'.up, lane, U.Reloaded(c), R.Resuming(c.lanes[lane].offset));
    assert s'.aux == s.aux;
  }

  /** The handler after a chunk of n bytes, at each point of recording it. */
  function Wrote(resume: nat, n: nat, phase: U.WriterPhase): Handler {
    U.Streaming(resume, n, n, resume, false, phase)
  }

  lemma WritesAndSyncs(cfg: Config, s: State, lane: nat, resume: nat, n: nat) returns (s': State)
    requires ValidConfig(cfg) && Inv(Unlocked(cfg), s.up) && Shaped(cfg, s) && lane < cfg.lanes && s.aux[lane].Free?
    requires s.up.handlers[lane] == R.Resuming(resume) && n >= C && resume + n <= U.End(cfg, lane)
    ensures Reaches(cfg, s, s') && Shaped(cfg, s') && s'.status == s.status && s'.up.dir == s.up.dir
    ensures s'.aux == s.aux && s'.table == s.table && s'.nextLock == s.nextLock
    ensures s'.up.handlers == s.up.handlers[lane := Wrote(resume, n, U.Synced)]
  {
    var up := R.WriteStep(Unlocked(cfg), s.up, lane, resume, n);
    var written := Does(cfg, s, U.WriteChunk(lane, n), up);
    assert written.aux == s.aux;
    assert up.handlers[lane] == Wrote(resume, n, U.Unsynced);
    var synced := R.SyncStep(Unlocked(cfg), up, lane);
    s' := Does(cfg, written, U.SyncFile(lane, R.AllSynced(up.file)), synced);
    assert s'.aux == s.aux;
    R.Moved(s.up, up, synced, lane, Wrote(resume, n, U.Unsynced), Wrote(resume, n, U.Synced));
    Then(cfg, s, written, s');
  }

  /** A chunk is written and synced, and the checkpoint is loaded under the lock that the table gives. */
  lemma WritesAndLoads(cfg: Config, s: State, lane: nat, resume: nat, n: nat, c: TransferCheckpoint) returns (s': State)
    requires ValidConfig(cfg) && Inv(Unlocked(cfg), s.up) && lane < cfg.lanes && NobodyUnder(cfg, s, lane, GivenLock(s))
    requires s.aux[lane].Free? && U.Stored(s.up.dir) == Some(c)
    requires s.up.handlers[lane] == R.Resuming(resume) && n >= C && resume + n <= U.End(cfg, lane)
    ensures Reaches(cfg, s, s') && Shaped(cfg, s') && s'.status == s.status && s'.up.dir == s.up.dir
    ensures s'.aux == s.aux[lane := HasLock(GivenLock(s))] && s'.table == Some(GivenLock(s))
    ensures s'.nextLock == if s.table.Some? then s.nextLock else s.nextLock + 1
    ensures s'.up.handlers == s.up.handlers[lane := Wrote(resume, n, U.Loaded(c))]
  {
    var synced := WritesAndSyncs(cfg, s, lane, resume, n);
    var asked := Asks(cfg, synced, lane);
    Then(cfg, s, synced, asked);
    assert LockFree(asked, lane);
    var up := R.LoadStep(Unlocked(cfg), asked.up, lane, c);
    s' := Does(cfg, asked, U.LoadForUpdate(lane), up);
    Then(cfg, s, asked, s');
    R.Moved(s.up, asked.up, up, lane, Wrote(resume, n, U.Synced), Wrote(resume, n, U.Loaded(c)));
    assert s'.aux == asked.aux;
  }

  /** The raised copy is stored, and the writer waits for its next chunk. */
  lemma StoresNext(cfg: Config, s: State, lane: nat, resume: nat, n: nat, c: TransferCheckpoint) returns (s': State)
    requires ValidConfig(cfg) && Shaped(cfg, s) && lane < cfg.lanes && s.aux[lane].HasLock?
    requires s.up.handlers[lane] == Wrote(resume, n, U.Loaded(c))
    requires lane < |c.lanes| && c.lanes[lane].rangeStart <= c.lanes[lane].rangeEndExclusive
    ensures Next(cfg, s, Do(U.StoreUpdate(lane)), s') && Shaped(cfg, s')
    ensures s'.aux == s.aux[lane := Free]
    ensures s'.up.handlers == s.up.handlers[lane := U.Streaming(resume, n, 0, resume + n, false, U.Receiving)]
    ensures U.Stored(s'.up.dir) == Some(Raised(c, lane, resume + n))
  {
    var up := R.StoreStep(Unlocked(cfg), s.up, lane, c);
    s' := SetAux(s.(up := up), lane, AfterAux(s.aux[lane], s.up.handlers[lane], U.StoreUpdate(lane), up.handlers[lane]));
  }

  /** The stream of a waiting lane breaks: the transfer is marked failed and its locks are forgotten. */
  lemma Fails(cfg: Config, s: State, lane: nat) returns (s': State)
    requires ValidConfig(cfg) && Shaped(cfg, s) && lane < cfg.lanes && s.aux[lane].Free? && s.status == Running
    requires Waits(s.up.handlers[lane])
    ensures Reaches(cfg, s, s') && Shaped(cfg, s') && s'.status == TransferStatus.Failed
    ensures s'.aux == s.aux && s'.table == None && s'.nextLock == s.nextLock && s'.up.dir == s.up.dir
    ensures s'.up.handlers == s.up.handlers[lane := U.Idle]
  {
    var broken := Does(cfg, s, U.Abort(lane), U.SetHandler(s.up, lane, U.Idle));
    assert broken.aux == s.aux[lane := Broken];
    var failing := SetAux(broken, lane, Failing);
    Step(cfg, broken, ReadStatus(lane), failing);
    Then(cfg, s, broken, failing);
    var clearing := SetAux(failing.(status := TransferStatus.Failed), lane, Clearing);
    Step(cfg, failing, SetFailed(lane), clearing);
    Then(cfg, s, failing, clearing);
    s' := SetAux(clearing.(table := None), lane, Free);
    Step(cfg, clearing, Clear(lane), s');
    Then(cfg, s, clearing, s');
    assert s'.aux == s.aux;
  }

  // ---------------------------------------------------------------- the run

  function Blank(cfg: Config): TransferCheckpoint
    requires ValidConfig(cfg)
  {
    NewCheckpoint(cfg.transferId, |cfg.source|, cfg.lanes)
  }

  /** The lanes of a long file, as far as the run needs them. */
  lemma LongLanes(cfg: Config)
    requires ValidConfig(cfg) && cfg.lanes >= 2 && U.End(cfg, 0) - U.Start(cfg, 0) >= 2 * C
    ensures U.Start(cfg, 0) == 0 && U.Start(cfg, 1) + C <= U.End(cfg, 1)
    ensures Canonical(Blank(cfg), |cfg.source|, cfg.lanes) && CanonicalLane(Blank(cfg), 0) && CanonicalLane(Blank(cfg), 1)
    ensures Blank(cfg).lanes[0].offset == 0 && Blank(cfg).lanes[1].offset == U.Start(cfg, 1)
    ensures Blank(cfg).lanes[1].rangeStart <= Blank(cfg).lanes[1].rangeEndExclusive
    ensures Blank(cfg).lanes[0].rangeStart <= Blank(cfg).lanes[0].rangeEndExclusive
  {
    LayoutEnds(|cfg.source|, cfg.lanes);
    LanesBalanced(|cfg.source|, cfg.lanes, 0, 1);
    NewIsCanonical(cfg.transferId, |cfg.source|, cfg.lanes);
  }

  /** Both lanes are open under the first lock, and lane 1 has loaded the blank checkpoint. */
  ghost predicate OneBetween(cfg: Config, s: State)
    requires ValidConfig(cfg) && cfg.lanes >= 2
  {
    && Shaped(cfg, s) && s.status == Running && s.table == Some(0) && s.nextLock == 1
    && s.aux == seq(cfg.lanes, _ => Free)[1 := HasLock(0)]
    && s.up.handlers == seq(cfg.lanes, _ => U.Idle)[0 := R.Resuming(0)][1 := Wrote(U.Start(cfg, 1), C, U.Loaded(Blank(cfg)))]
    && U.Stored(s.up.dir) == Some(Blank(cfg))
  }

  lemma OpensBoth(cfg: Config) returns (s: State)
    requires ValidConfig(cfg) && cfg.lanes >= 2 && U.End(cfg, 0) - U.Start(cfg, 0) >= 2 * C
    ensures Reaches(cfg, Init(cfg), s) && Shaped(cfg, s) && s.status == Running && s.table == Some(0) && s.nextLock == 1
    ensures s.aux == seq(cfg.lanes, _ => Free) && U.Stored(s.up.dir) == Some(Blank(cfg))
    ensures s.up.handlers == seq(cfg.lanes, _ => U.Idle)[0 := R.Resuming(0)][1 := R.Resuming(U.Start(cfg, 1))]
  {
    LongLanes(cfg);
    var start := Init(cfg);
    ReachesSelf(cfg, start);
    ReachedIsSound(cfg, start);
    var one := Opens(cfg, start, 0);
    ReachedIsSound(cfg, one);
    s := Opens(cfg, one, 1);
    Then(cfg, start, one, s);
  }

  lemma LoadsBetween(cfg: Config) returns (s: State)
    requires ValidConfig(cfg) && cfg.lanes >= 2 && U.End(cfg, 0) - U.Start(cfg, 0) >= 2 * C
    ensures Reaches(cfg, Init(cfg), s) && OneBetween(cfg, s)
  {
    LongLanes(cfg);
    var both := OpensBoth(cfg);
    ReachedIsSound(cfg, both);
    s := WritesAndLoads(cfg, both, 1, U.Start(cfg, 1), C, Blank(cfg));
    Then(cfg, Init(cfg), both, s);
    R.Moved(both.up.(handlers := both.up.handlers[1 := U.Idle]), both.up, s.up, 1, R.Resuming(U.Start(cfg, 1)),
            Wrote(U.Start(cfg, 1), C, U.Loaded(Blank(cfg))));
  }

  /** Lane 0 fails, is opened again under a second lock, and has loaded the checkpoint for its first 2 MiB. */
  lemma FailsAndLoads(cfg: Config, s: State) returns (s': State)
    requires ValidConfig(cfg) && cfg.lanes >= 2 && U.End(cfg, 0) - U.Start(cfg, 0) >= 2 * C
    requires Reaches(cfg, Init(cfg), s) && OneBetween(cfg, s)
    ensures Reaches(cfg, Init(cfg), s') && Shaped(cfg, s')
    ensures s'.aux[1] == HasLock(0) && s'.aux[0] == HasLock(1)
    ensures s'.up.handlers == s.up.handlers[0 := Wrote(0, 2 * C, U.Loaded(Blank(cfg)))]
  {
    LongLanes(cfg);
    var failed := Fails(cfg, s, 0);
    Then(cfg, Init(cfg), s, failed);
    ReachedIsSound(cfg, failed);
    var again := Opens(cfg, failed, 0);
    Then(cfg, Init(cfg), failed, again);
    ReachedIsSound(cfg, again);
    s' := WritesAndLoads(cfg, again, 0, 0, 2 * C, Blank(cfg));
    Then(cfg, Init(cfg), again, s');
    R.Moved(s.up, failed.up, again.up, 0, U.Idle, R.Resuming(0));
    R.Moved(s.up, again.up, s'.up, 0, R.Resuming(0), Wrote(0, 2 * C, U.Loaded(Blank(cfg))));
  }

  /** What the two stores do to the offset of lane 0: the first brings it to 2 MiB, the second puts it back. */
  lemma OffsetsOfTheStores(cfg: Config)
    requires ValidConfig(cfg) && cfg.lanes >= 2 && U.End(cfg, 0) - U.Start(cfg, 0) >= 2 * C
    requires Blank(cfg).lanes[0].rangeStart <= Blank(cfg).lanes[0].rangeEndExclusive
    requires Blank(cfg).lanes[1].rangeStart <= Blank(cfg).lanes[1].rangeEndExclusive
    ensures Raised(Blank(cfg), 0, 2 * C).lanes[0].offset == 2 * C
    ensures Raised(Blank(cfg), 1, U.Start(cfg, 1) + C).lanes[0].offset == 0
  {
    LongLanes(cfg);
  }

  /**
   The race. With two lanes or more and a first lane of 2 MiB or more there is a run, whether or not
   the destination may be written, in which the stream of lane 0 fails while lane 1 is between load
   and store. Lane 0 is opened again under a new lock and records 2 MiB; then lane 1 stores its stale
   copy. That step lowers the stored offset of lane 0, which waits 2 MiB ahead of it.
   */
  lemma FailedStreamSetsBack(cfg: Config) returns (run: seq<State>, actions: seq<Action>, before: State)
    requires ValidConfig(cfg) && cfg.lanes >= 2 && U.End(cfg, 0) - U.Start(cfg, 0) >= 2 * C
    ensures IsRun(cfg, run, actions) && |run[|actions|].up.handlers| == cfg.lanes
    ensures Reaches(cfg, Init(cfg), before) && Next(cfg, before, Do(U.StoreUpdate(1)), run[|actions|])
    ensures SetsBack(Unlocked(cfg), before.up, run[|actions|].up, 0)
    ensures Waits(run[|actions|].up.handlers[0]) && !LagBelow(Unlocked(cfg), run[|actions|].up, 0, 2 * C)
  {
    LongLanes(cfg);
    OffsetsOfTheStores(cfg);
    var between := LoadsBetween(cfg);
    var loaded := FailsAndLoads(cfg, between);
    before := StoresNext(cfg, loaded, 0, 0, 2 * C, Blank(cfg));
    ReachesOn(cfg, Init(cfg), loaded, Do(U.StoreUpdate(0)), before);
    var after := StoresNext(cfg, before, 1, U.Start(cfg, 1), C, Blank(cfg));
    ReachesOn(cfg, Init(cfg), before, Do(U.StoreUpdate(1)), after);
    run, actions := ReachesIsRun(cfg, after);
  }

  // ---------------------------------------------------------------- the exact condition

  /** In no run under the table of locks does a waiting writer get two chunks ahead of its checkpoint. */
  ghost predicate NeverLags(cfg: Config)
    requires ValidConfig(cfg)
  {
    forall run: seq<State>, actions: seq<Action>, lane: nat | IsRun(cfg, run, actions) && lane < cfg.lanes ::
      LagBelow(Unlocked(cfg), run[|actions|].up, lane, 2 * C)
  }

  /**
   The exact condition of the lag bound in the server as it is, with its table of locks, failing
   streams and restarts: there is only one lane, or no lane has two chunks. Whether the destination
   may be written makes no difference.
   */
  lemma LagBoundIff(cfg: Config)
    requires ValidConfig(cfg)
    ensures NeverLags(cfg) <==> cfg.lanes == 1 || U.End(cfg, 0) - U.Start(cfg, 0) < 2 * C
  {
    if cfg.lanes == 1 || U.End(cfg, 0) - U.Start(cfg, 0) < 2 * C {
      forall run: seq<State>, actions: seq<Action>, lane: nat | IsRun(cfg, run, actions) && lane < cfg.lanes
        ensures LagBelow(Unlocked(cfg), run[|actions|].up, lane, 2 * C)
      {
        if cfg.lanes == 1 {
          LagBelowUntilTerminal(cfg, run, actions, |actions|, lane);
        } else {
          RunsAreUploads(cfg, run, actions, |actions|);
          ComesWithInv(Unlocked(cfg), false, run[|actions|].up);
          ShortLaneLag(Unlocked(cfg), run[|actions|].up, lane);
        }
      }
    } else {
      var run, actions, before := FailedStreamSetsBack(cfg);
    }
  }
}
