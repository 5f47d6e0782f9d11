/**
 What can still be done from any point of a striped upload: one more session for each lane always
 brings it to the rename. And what goes wrong after a rejected finalize: a run in which the
 checkpoint falls behind the disk by two chunks, though all tasks share one checkpoint lock.
 */
module StripedRecovery {
  import opened Common
  import opened Ranges
  import opened Checkpoint
  import opened StripedUpload
  import opened StripedSafety
  import opened StripedProgress

  // ---------------------------------------------------------------- reachability

  ghost predicate StepAt(cfg: Config, run: seq<State>, actions: seq<Action>, i: nat)
    requires ValidConfig(cfg) && i < |actions| < |run|
  {
    LaneStep(cfg, run[i], actions[i], run[i + 1])
  }

  /** Lane steps only: no power loss. */
  ghost predicate Path(cfg: Config, run: seq<State>, actions: seq<Action>)
    requires ValidConfig(cfg)
  {
    |run| == |actions| + 1 && forall i :: 0 <= i < |actions| ==> StepAt(cfg, run, actions, i)
  }

  function OpensOf(a: Action): seq<nat> { if a.FindCheckpoint? then [a.lane] else [] }

  /** The lanes that are opened along a path, in order: one for each session. */
  function Opens(actions: seq<Action>): seq<nat> {
    if actions == [] then [] else Opens(actions[..|actions| - 1]) + OpensOf(actions[|actions| - 1])
  }

  /** A path from s to t that opens exactly these lanes. */
  ghost predicate Reaches(cfg: Config, s: State, opens: seq<nat>, t: State)
    requires ValidConfig(cfg)
  {
    exists run, actions :: Path(cfg, run, actions) && run[0] == s && run[|actions|] == t && Opens(actions) == opens
  }

  lemma ReachesSelf(cfg: Config, s: State)
    requires ValidConfig(cfg)
    ensures Reaches(cfg, s, [], s)
  {
    assert Path(cfg, [s], []) && Opens([]) == [];
  }

  lemma ReachesOn(cfg: Config, s: State, opens: seq<nat>, t: State, a: Action, u: State)
    requires ValidConfig(cfg) && Reaches(cfg, s, opens, t) && LaneStep(cfg, t, a, u)
    ensures Reaches(cfg, s, opens + OpensOf(a), u)
  {
    var run, actions :| Path(cfg, run, actions) && run[0] == s && run[|actions|] == t && Opens(actions) == opens;
    var longer, more := run + [u], actions + [a];
    forall i | 0 <= i < |more| ensures StepAt(cfg, longer, more, i) {
      assert i < |actions| ==> StepAt(cfg, run, actions, i);
    }
    assert more[..|actions|] == actions;
    assert Path(cfg, longer, more);
  }

  lemma ReachesStep(cfg: Config, s: State, a: Action, t: State)
    requires ValidConfig(cfg) && LaneStep(cfg, s, a, t)
    ensures Reaches(cfg, s, OpensOf(a), t)
  {
    ReachesSelf(cfg, s);
    ReachesOn(cfg, s, [], s, a, t);
    assert [] + OpensOf(a) == OpensOf(a);
  }

  lemma ReachesThen(cfg: Config, s: State, opens: seq<nat>, t: State, more: seq<nat>, u: State)
    requires ValidConfig(cfg) && Reaches(cfg, s, opens, t) && Reaches(cfg, t, more, u)
    ensures Reaches(cfg, s, opens + more, u)
  {
    var run, actions :| Path(cfg, run, actions) && run[0] == t && run[|actions|] == u && Opens(actions) == more;
    ReachesAlong(cfg, s, opens, run, actions, |actions|);
    assert actions[..|actions|] == actions;
  }

  lemma OpensNext(actions: seq<Action>, i: nat)
    requires 0 < i <= |actions|
    ensures Opens(actions[..i]) == Opens(actions[..i - 1]) + OpensOf(actions[i - 1])
  {
    assert actions[..i][..i - 1] == actions[..i - 1];
  }

  /** Going on without opening a lane. */
  lemma ThenQuietly(cfg: Config, s: State, opens: seq<nat>, t: State, u: State)
    requires ValidConfig(cfg) && Reaches(cfg, s, opens, t) && Reaches(cfg, t, [], u)
    ensures Reaches(cfg, s, opens, u)
  {
    ReachesThen(cfg, s, opens, t, [], u);
    assert opens + [] == opens;
  }

  lemma {:induction false} ReachesAlong(cfg: Config, s: State, opens: seq<nat>, run: seq<State>, actions: seq<Action>, i: nat)
    requires ValidConfig(cfg) && Path(cfg, run, actions) && Reaches(cfg, s, opens, run[0]) && i <= |actions|
    ensures Reaches(cfg, s, opens + Opens(actions[..i]), run[i])
  {
    if i == 0 {
      assert opens + [] == opens;
    } else {
      ReachesAlong(cfg, s, opens, run, actions, i - 1);
      assert StepAt(cfg, run, actions, i - 1);
      ReachesOn(cfg, s, opens + Opens(actions[..i - 1]), run[i - 1], actions[i - 1], run[i]);
      OpensNext(actions, i);
      assert opens + Opens(actions[..i - 1]) + OpensOf(actions[i - 1]) == opens + Opens(actions[..i]);
    }
  }

  lemma {:induction false} PathKeepsInv(cfg: Config, run: seq<State>, actions: seq<Action>, i: nat)
    requires ValidConfig(cfg) && Path(cfg, run, actions) && Inv(cfg, run[0]) && i <= |actions|
    ensures Inv(cfg, run[i])
  {
    if i > 0 {
      PathKeepsInv(cfg, run, actions, i - 1);
      assert StepAt(cfg, run, actions, i - 1);
      NextKeepsInv(cfg, run[i - 1], Lane(actions[i - 1]), run[i]);
    }
  }

  lemma ReachesKeepsInv(cfg: Config, s: State, opens: seq<nat>, t: State)
    requires ValidConfig(cfg) && Inv(cfg, s) && Reaches(cfg, s, opens, t)
    ensures Inv(cfg, t)
  {
    var run, actions :| Path(cfg, run, actions) && run[0] == s && run[|actions|] == t && Opens(actions) == opens;
    PathKeepsInv(cfg, run, actions, |actions|);
  }

  lemma ReachesIsRun(cfg: Config, opens: seq<nat>, t: State) returns (run: seq<State>, events: seq<Event>)
    requires ValidConfig(cfg) && Reaches(cfg, Init(cfg), opens, t)
    ensures IsRun(cfg, run, events) && run[|events|] == t
  {
    var states, actions :| Path(cfg, states, actions) && states[0] == Init(cfg) && states[|actions|] == t && Opens(actions) == opens;
    run, events := states, seq(|actions|, i requires 0 <= i < |actions| => Lane(actions[i]));
    forall i | 0 <= i < |events| ensures NextAt(cfg, run, events, i) {
      assert StepAt(cfg, states, actions, i);
    }
  }

  // ---------------------------------------------------------------- one session of one lane

  /** The checkpoint that an open finds, or creates. */
  function Current(cfg: Config, s: State): TransferCheckpoint
    requires ValidConfig(cfg)
  {
    if Stored(s.dir).Some? then Stored(s.dir).value else NewCheckpoint(cfg.transferId, |cfg.source|, cfg.lanes)
  }

  lemma CurrentIsCanonical(cfg: Config, s: State)
    requires ValidConfig(cfg) && Inv(cfg, s)
    ensures Canonical(Current(cfg, s), |cfg.source|, cfg.lanes)
  {
    StoredIsSound(cfg, s.dir, s.file);
    NewIsCanonical(cfg.transferId, |cfg.source|, cfg.lanes);
  }

  /** Nobody but this lane's handler is doing anything to the checkpoint, and it is not over. */
  ghost predicate Alone(cfg: Config, s: State, lane: nat) {
    && !Renamed(s) && lane < |s.handlers| == cfg.lanes
    && forall l :: 0 <= l < |s.handlers| && l != lane ==> !HoldsCheckpointLock(s.handlers[l])
  }

  ghost predicate Ready(cfg: Config, s: State, lane: nat)
    requires ValidConfig(cfg)
  {
    Inv(cfg, s) && Alone(cfg, s, lane)
  }

  lemma Appended(s: State, op: DirOp)
    ensures Stored(Append(s, op).dir) ==
            match op
            case StoreCheckpoint(c) => Some(c)
            case RemoveCheckpoint => None
            case _ => Stored(s.dir)
    ensures Renamed(Append(s, op)) <==> Renamed(s) || op.RenameStaging?
  {
    assert (s.dir + [op])[..|s.dir|] == s.dir;
  }

  /** Two steps of one lane, seen as one. */
  lemma Moved(s: State, t: State, u: State, lane: nat, a: Handler, b: Handler)
    requires lane < |s.handlers| && t.handlers == s.handlers[lane := a] && u.handlers == t.handlers[lane := b]
    ensures t.handlers[lane] == a && u.handlers[lane] == b && u.handlers == s.handlers[lane := b]
  {
  }

  lemma FindStep(cfg: Config, s: State, lane: nat) returns (s': State)
    requires ValidConfig(cfg) && Inv(cfg, s) && !Renamed(s) && lane < cfg.lanes && CheckpointLockFree(cfg, s)
    requires s.handlers[lane].Idle? && Start(cfg, lane) < End(cfg, lane)
    ensures LaneStep(cfg, s, FindCheckpoint(lane), s') && s'.dir == s.dir && s'.file == s.file
    ensures s'.handlers == s.handlers[lane := if Stored(s.dir).Some? then Reloaded(Current(cfg, s)) else NoCheckpoint]
  {
    var c := Current(cfg, s);
    CurrentIsCanonical(cfg, s);
    CanonicalValidates(c, |cfg.source|, cfg.lanes, lane);
    ReopenedIsIdentity(c, |cfg.source|, cfg.lanes, lane);
    s' := SetHandler(s, lane, if Stored(s.dir).Some? then Reloaded(c) else NoCheckpoint);
  }

  lemma Finds(cfg: Config, s: State, lane: nat) returns (s': State)
    requires ValidConfig(cfg) && Ready(cfg, s, lane) && s.handlers[lane].Idle? && Start(cfg, lane) < End(cfg, lane)
    ensures Reaches(cfg, s, [lane], s') && s'.dir == s.dir && s'.file == s.file
    ensures s'.handlers == s.handlers[lane := if Stored(s.dir).Some? then Reloaded(Current(cfg, s)) else NoCheckpoint]
  {
    s' := FindStep(cfg, s, lane);
    ReachesStep(cfg, s, FindCheckpoint(lane), s');
  }

  lemma CreateStep(cfg: Config, s: State, lane: nat) returns (s': State)
    requires ValidConfig(cfg) && !Renamed(s) && lane < |s.handlers| == cfg.lanes && s.handlers[lane].NoCheckpoint?
    ensures LaneStep(cfg, s, StoreFresh(lane), s') && !Renamed(s')
    ensures var blank := NewCheckpoint(cfg.transferId, |cfg.source|, cfg.lanes);
            Stored(s'.dir) == Some(blank) && s'.handlers == s.handlers[lane := Reloaded(blank)]
  {
    var blank := NewCheckpoint(cfg.transferId, |cfg.source|, cfg.lanes);
    NewIsCanonical(cfg.transferId, |cfg.source|, cfg.lanes);
    CanonicalValidates(blank, |cfg.source|, cfg.lanes, lane);
    ReopenedIsIdentity(blank, |cfg.source|, cfg.lanes, lane);
    s' := SetHandler(Append(s, StoreCheckpoint(blank)), lane, Reloaded(blank));
    Appended(s, StoreCheckpoint(blank));
  }

  lemma Creates(cfg: Config, s: State, lane: nat) returns (s': State)
    requires ValidConfig(cfg) && !Renamed(s) && lane < |s.handlers| == cfg.lanes && s.handlers[lane].NoCheckpoint?
    ensures Reaches(cfg, s, [], s') && !Renamed(s')
    ensures var blank := NewCheckpoint(cfg.transferId, |cfg.source|, cfg.lanes);
            Stored(s'.dir) == Some(blank) && s'.handlers == s.handlers[lane := Reloaded(blank)]
  {
    s' := CreateStep(cfg, s, lane);
    ReachesStep(cfg, s, StoreFresh(lane), s');
  }

  lemma Reloads(cfg: Config, s: State, lane: nat) returns (s': State)
    requires ValidConfig(cfg) && Ready(cfg, s, lane) && s.handlers[lane].Idle? && Start(cfg, lane) < End(cfg, lane)
    ensures Reaches(cfg, s, [lane], s') && !Renamed(s')
    ensures s'.handlers == s.handlers[lane := Reloaded(Current(cfg, s))]
  {
    s' := Finds(cfg, s, lane);
    if Stored(s.dir).None? {
      var found := s';
      s' := Creates(cfg, found, lane);
      ThenQuietly(cfg, s, [lane], found, s');
    }
  }

  function Resuming(offset: nat): Handler { Streaming(offset, 0, 0, offset, false, Receiving) }

  lemma StoreBackStep(cfg: Config, s: State, lane: nat, c: TransferCheckpoint) returns (s': State)
    requires ValidConfig(cfg) && !Renamed(s) && lane < |s.handlers| == cfg.lanes
    requires s.handlers[lane] == Reloaded(c) && lane < |c.lanes|
    ensures LaneStep(cfg, s, StoreReloaded(lane), s') && !Renamed(s') && Stored(s'.dir) == Some(c)
    ensures s'.handlers == s.handlers[lane := Opened(c.lanes[lane].offset)]
  {
    s' := SetHandler(Append(s, StoreCheckpoint(c)), lane, Opened(c.lanes[lane].offset));
    Appended(s, StoreCheckpoint(c));
  }

  lemma StoresBack(cfg: Config, s: State, lane: nat, c: TransferCheckpoint) returns (s': State)
    requires ValidConfig(cfg) && !Renamed(s) && lane < |s.handlers| == cfg.lanes
    requires s.handlers[lane] == Reloaded(c) && lane < |c.lanes|
    ensures Reaches(cfg, s, [], s') && !Renamed(s') && Stored(s'.dir) == Some(c)
    ensures s'.handlers == s.handlers[lane := Opened(c.lanes[lane].offset)]
  {
    s' := StoreBackStep(cfg, s, lane, c);
    ReachesStep(cfg, s, StoreReloaded(lane), s');
  }

  lemma PresizeStep(cfg: Config, s: State, lane: nat, resume: nat) returns (s': State)
    requires ValidConfig(cfg) && !Renamed(s) && lane < |s.handlers| == cfg.lanes && s.handlers[lane] == Opened(resume)
    ensures LaneStep(cfg, s, Presize(lane), s') && !Renamed(s') && Stored(s'.dir) == Stored(s.dir)
    ensures s'.handlers == s.handlers[lane := Resuming(resume)]
  {
    var created := if CreateStaging in s.dir then s else Append(s, CreateStaging);
    Appended(s, CreateStaging);
    s' := SetHandler(created.(file := SetLen(s.file, |cfg.source|)), lane, Resuming(resume));
  }

  lemma Presizes(cfg: Config, s: State, lane: nat, resume: nat) returns (s': State)
    requires ValidConfig(cfg) && !Renamed(s) && lane < |s.handlers| == cfg.lanes && s.handlers[lane] == Opened(resume)
    ensures Reaches(cfg, s, [], s') && !Renamed(s') && Stored(s'.dir) == Stored(s.dir)
    ensures s'.handlers == s.handlers[lane := Resuming(resume)]
  {
    s' := PresizeStep(cfg, s, lane, resume);
    ReachesStep(cfg, s, Presize(lane), s');
  }

  /** An open: the checkpoint is loaded or created, rounded, stored back, and the file is pre-sized. */
  lemma OpensLane(cfg: Config, s: State, lane: nat) returns (s': State)
    requires ValidConfig(cfg) && Ready(cfg, s, lane) && s.handlers[lane].Idle? && Start(cfg, lane) < End(cfg, lane)
    ensures Reaches(cfg, s, [lane], s') && !Renamed(s') && lane < |Current(cfg, s).lanes|
    ensures Stored(s'.dir) == Some(Current(cfg, s))
    ensures s'.handlers == s.handlers[lane := Resuming(Current(cfg, s).lanes[lane].offset)]
  {
    var c := Current(cfg, s);
    CurrentIsCanonical(cfg, s);
    var r := Reloads(cfg, s, lane);
    var o := StoresBack(cfg, r, lane, c);
    Moved(s, r, o, lane, Reloaded(c), Opened(c.lanes[lane].offset));
    ThenQuietly(cfg, s, [lane], r, o);
    s' := Presizes(cfg, o, lane, c.lanes[lane].offset);
    Moved(s, o, s', lane, Opened(c.lanes[lane].offset), Resuming(c.lanes[lane].offset));
    ThenQuietly(cfg, s, [lane], o, s');
  }

  /** A sync that reaches every byte of the file. */
  function AllSynced(file: seq<Cell>): seq<Cell> {
    seq(|file|, p requires 0 <= p < |file| => Cell(file[p].value, OneOf({file[p].value})))
  }

  lemma SyncStep(cfg: Config, s: State, lane: nat) returns (s': State)
    requires ValidConfig(cfg) && !Renamed(s) && lane < |s.handlers| == cfg.lanes
    requires s.handlers[lane].Streaming? && s.handlers[lane].phase.Unsynced?
    ensures LaneStep(cfg, s, SyncFile(lane, AllSynced(s.file)), s') && s'.dir == s.dir
    ensures s'.handlers == s.handlers[lane := s.handlers[lane].(phase := Synced)]
  {
    s' := SetHandler(s.(file := AllSynced(s.file)), lane, s.handlers[lane].(phase := Synced));
    assert SyncedBy(s.file, AllSynced(s.file), s.handlers[lane].resume, s.handlers[lane].resume + s.handlers[lane].written);
  }

  lemma Syncs(cfg: Config, s: State, lane: nat) returns (s': State)
    requires ValidConfig(cfg) && !Renamed(s) && lane < |s.handlers| == cfg.lanes
    requires s.handlers[lane].Streaming? && s.handlers[lane].phase.Unsynced?
    ensures Reaches(cfg, s, [], s') && s'.dir == s.dir
    ensures s'.handlers == s.handlers[lane := s.handlers[lane].(phase := Synced)]
  {
    s' := SyncStep(cfg, s, lane);
    ReachesStep(cfg, s, SyncFile(lane, AllSynced(s.file)), s');
  }

  lemma LoadStep(cfg: Config, s: State, lane: nat, c: TransferCheckpoint) returns (s': State)
    requires ValidConfig(cfg) && !Renamed(s) && lane < |s.handlers| == cfg.lanes && CheckpointLockFree(cfg, s) && Stored(s.dir) == Some(c)
    requires s.handlers[lane].Streaming? && s.handlers[lane].phase.Synced?
    ensures LaneStep(cfg, s, LoadForUpdate(lane), s') && s'.dir == s.dir
    ensures s'.handlers == s.handlers[lane := s.handlers[lane].(phase := Loaded(c))]
  {
    s' := SetHandler(s, lane, s.handlers[lane].(phase := Loaded(c)));
  }

  lemma Loads(cfg: Config, s: State, lane: nat, c: TransferCheckpoint) returns (s': State)
    requires ValidConfig(cfg) && Alone(cfg, s, lane) && Stored(s.dir) == Some(c)
    requires s.handlers[lane].Streaming? && s.handlers[lane].phase.Synced?
    ensures Reaches(cfg, s, [], s') && s'.dir == s.dir
    ensures s'.handlers == s.handlers[lane := s.handlers[lane].(phase := Loaded(c))]
  {
    s' := LoadStep(cfg, s, lane, c);
    ReachesStep(cfg, s, LoadForUpdate(lane), s');
  }

  /** The handler after it has recorded everything it wrote. */
  function Recording(h: Handler): Handler
    requires h.Streaming?
  {
    Streaming(h.resume, h.written, 0, h.resume + h.written, h.closed, Receiving)
  }

  lemma StoreStep(cfg: Config, s: State, lane: nat, c: TransferCheckpoint) returns (s': State)
    requires ValidConfig(cfg) && !Renamed(s) && lane < |s.handlers| == cfg.lanes
    requires s.handlers[lane].Streaming? && s.handlers[lane].phase == Loaded(c)
    requires lane < |c.lanes| && c.lanes[lane].rangeStart <= c.lanes[lane].rangeEndExclusive
    ensures LaneStep(cfg, s, StoreUpdate(lane), s') && !Renamed(s')
    ensures s'.handlers == s.handlers[lane := Recording(s.handlers[lane])]
    ensures Stored(s'.dir) == Some(Raised(c, lane, s.handlers[lane].resume + s.handlers[lane].written))
  {
    var h := s.handlers[lane];
    var raised := Raised(c, lane, h.resume + h.written);
    s' := SetHandler(Append(s, StoreCheckpoint(raised)), lane, Recording(h));
    Appended(s, StoreCheckpoint(raised));
  }

  lemma Stores(cfg: Config, s: State, lane: nat, c: TransferCheckpoint) returns (s': State)
    requires ValidConfig(cfg) && !Renamed(s) && lane < |s.handlers| == cfg.lanes
    requires s.handlers[lane].Streaming? && s.handlers[lane].phase == Loaded(c)
    requires lane < |c.lanes| && c.lanes[lane].rangeStart <= c.lanes[lane].rangeEndExclusive
    ensures Reaches(cfg, s, [], s') && !Renamed(s')
    ensures s'.handlers == s.handlers[lane := Recording(s.handlers[lane])]
    ensures Stored(s'.dir) == Some(Raised(c, lane, s.handlers[lane].resume + s.handlers[lane].written))
  {
    s' := StoreStep(cfg, s, lane, c);
    ReachesStep(cfg, s, StoreUpdate(lane), s');
  }

  lemma Records(cfg: Config, s: State, lane: nat, c: TransferCheckpoint) returns (s': State)
    requires ValidConfig(cfg) && Alone(cfg, s, lane) && Stored(s.dir) == Some(c)
    requires s.handlers[lane].Streaming? && s.handlers[lane].phase.Unsynced?
    requires lane < |c.lanes| && c.lanes[lane].rangeStart <= c.lanes[lane].rangeEndExclusive
    ensures Reaches(cfg, s, [], s') && !Renamed(s')
    ensures s'.handlers == s.handlers[lane := Recording(s.handlers[lane])]
    ensures Stored(s'.dir) == Some(Raised(c, lane, s.handlers[lane].resume + s.handlers[lane].written))
  {
    var h := s.handlers[lane];
    var synced := Syncs(cfg, s, lane);
    assert synced.handlers[lane] == h.(phase := Synced);
    var loaded := Loads(cfg, synced, lane, c);
    assert loaded.handlers[lane] == h.(phase := Loaded(c));
    Moved(s, synced, loaded, lane, h.(phase := Synced), h.(phase := Loaded(c)));
    ThenQuietly(cfg, s, [], synced, loaded);
    s' := Stores(cfg, loaded, lane, c);
    assert Recording(h.(phase := Loaded(c))) == Recording(h);
    Moved(s, loaded, s', lane, h.(phase := Loaded(c)), Recording(h));
    ThenQuietly(cfg, s, [], loaded, s');
  }

  lemma Closes(cfg: Config, s: State, lane: nat) returns (s': State)
    requires ValidConfig(cfg) && !Renamed(s) && lane < |s.handlers| == cfg.lanes
    requires s.handlers[lane].Streaming? && s.handlers[lane].phase.Receiving? && !s.handlers[lane].closed
    ensures Reaches(cfg, s, [], s') && s'.dir == s.dir
    ensures var h := s.handlers[lane];
            s'.handlers == s.handlers[lane := h.(closed := true,
              phase := if h.resume + h.written > h.lastDurable then Unsynced else Receiving)]
  {
    var h := s.handlers[lane];
    s' := SetHandler(s, lane, h.(closed := true,
            phase := if h.resume + h.written > h.lastDurable then Unsynced else Receiving));
    ReachesStep(cfg, s, CloseStream(lane), s');
  }

  lemma Finishes(cfg: Config, s: State, lane: nat) returns (s': State)
    requires ValidConfig(cfg) && !Renamed(s) && lane < |s.handlers| == cfg.lanes
    requires s.handlers[lane].Streaming? && s.handlers[lane].phase.Receiving? && s.handlers[lane].closed
    requires s.handlers[lane].resume + s.handlers[lane].written == End(cfg, lane)
    ensures Reaches(cfg, s, [], s') && s'.dir == s.dir && s'.handlers == s.handlers[lane := Received]
  {
    s' := SetHandler(s, lane, Received);
    ReachesStep(cfg, s, FinishReceive(lane), s');
  }

  /** The handler after its first chunk of n bytes. */
  function Wrote(resume: nat, n: nat): Handler {
    Streaming(resume, n, n, resume, false, if n >= RESUME_CHUNK_SIZE_BYTES then Unsynced else Receiving)
  }

  lemma WriteStep(cfg: Config, s: State, lane: nat, resume: nat, n: nat) returns (s': State)
    requires ValidConfig(cfg) && Inv(cfg, s) && !Renamed(s) && lane < cfg.lanes
    requires s.handlers[lane] == Resuming(resume) && n > 0 && resume + n <= End(cfg, lane)
    ensures LaneStep(cfg, s, WriteChunk(lane, n), s') && s'.dir == s.dir
    ensures s'.handlers == s.handlers[lane := Wrote(resume, n)]
  {
    assert SoundHandler(cfg, lane, s.handlers[lane], s.dir, s.file);
    LaneInsideFile(|cfg.source|, cfg.lanes, lane);
    s' := SetHandler(s.(file := WriteAt(s.file, resume, cfg.source[resume..resume + n])), lane, Wrote(resume, n));
    assert StepWriteChunk(cfg, s, lane, n, s');
  }

  lemma Writes(cfg: Config, s: State, lane: nat, resume: nat, n: nat) returns (s': State)
    requires ValidConfig(cfg) && Ready(cfg, s, lane)
    requires s.handlers[lane] == Resuming(resume) && n > 0 && resume + n <= End(cfg, lane)
    ensures Reaches(cfg, s, [], s') && Inv(cfg, s') && s'.dir == s.dir
    ensures s'.handlers == s.handlers[lane := Wrote(resume, n)]
  {
    s' := WriteStep(cfg, s, lane, resume, n);
    ReachesStep(cfg, s, WriteChunk(lane, n), s');
    ReachesKeepsInv(cfg, s, [], s');
  }

  /** A chunk of a whole MiB or more is recorded before the stream closes. */
  lemma RecordsThenCloses(cfg: Config, s: State, lane: nat, resume: nat, n: nat, c: TransferCheckpoint) returns (s': State)
    requires ValidConfig(cfg) && Alone(cfg, s, lane) && Stored(s.dir) == Some(c)
    requires s.handlers[lane] == Wrote(resume, n) && n >= RESUME_CHUNK_SIZE_BYTES
    requires lane < |c.lanes| && c.lanes[lane].rangeStart <= c.lanes[lane].rangeEndExclusive
    ensures Reaches(cfg, s, [], s') && !Renamed(s')
    ensures s'.handlers == s.handlers[lane := Streaming(resume, n, 0, resume + n, true, Receiving)]
    ensures Stored(s'.dir) == Some(Raised(c, lane, resume + n))
  {
    var recorded := Records(cfg, s, lane, c);
    var h := Streaming(resume, n, 0, resume + n, false, Receiving);
    assert Recording(Wrote(resume, n)) == h;
    assert recorded.handlers[lane] == h;
    s' := Closes(cfg, recorded, lane);
    Moved(s, recorded, s', lane, h, h.(closed := true));
    ThenQuietly(cfg, s, [], recorded, s');
  }

  /** A shorter one when it has closed. */
  lemma ClosesThenRecords(cfg: Config, s: State, lane: nat, resume: nat, n: nat, c: TransferCheckpoint) returns (s': State)
    requires ValidConfig(cfg) && Alone(cfg, s, lane) && Stored(s.dir) == Some(c)
    requires s.handlers[lane] == Wrote(resume, n) && 0 < n < RESUME_CHUNK_SIZE_BYTES
    requires lane < |c.lanes| && c.lanes[lane].rangeStart <= c.lanes[lane].rangeEndExclusive
    ensures Reaches(cfg, s, [], s') && !Renamed(s')
    ensures s'.handlers == s.handlers[lane := Streaming(resume, n, 0, resume + n, true, Receiving)]
    ensures Stored(s'.dir) == Some(Raised(c, lane, resume + n))
  {
    var closed := Closes(cfg, s, lane);
    var h := Streaming(resume, n, n, resume, true, Unsynced);
    assert closed.handlers[lane] == h;
    s' := Records(cfg, closed, lane, c);
    Moved(s, closed, s', lane, h, Streaming(resume, n, 0, resume + n, true, Receiving));
    ThenQuietly(cfg, s, [], closed, s');
  }

  /** A chunk of n bytes is recorded, sooner or later, and the stream closes. */
  lemma RecordsAndCloses(cfg: Config, s: State, lane: nat, resume: nat, n: nat, c: TransferCheckpoint) returns (s': State)
    requires ValidConfig(cfg) && Alone(cfg, s, lane) && Stored(s.dir) == Some(c)
    requires s.handlers[lane] == Wrote(resume, n) && n > 0
    requires lane < |c.lanes| && c.lanes[lane].rangeStart <= c.lanes[lane].rangeEndExclusive
    ensures Reaches(cfg, s, [], s') && !Renamed(s')
    ensures s'.handlers == s.handlers[lane := Streaming(resume, n, 0, resume + n, true, Receiving)]
    ensures Stored(s'.dir) == Some(Raised(c, lane, resume + n))
  {
    if n >= RESUME_CHUNK_SIZE_BYTES {
      s' := RecordsThenCloses(cfg, s, lane, resume, n, c);
    } else {
      s' := ClosesThenRecords(cfg, s, lane, resume, n, c);
    }
  }

  /** The rest of the lane arrives as one chunk, is synced and recorded, and the stream closes. */
  lemma SendsRest(cfg: Config, s: State, lane: nat, resume: nat, n: nat, c: TransferCheckpoint) returns (s': State)
    requires ValidConfig(cfg) && Ready(cfg, s, lane) && Stored(s.dir) == Some(c)
    requires s.handlers[lane] == Resuming(resume) && n > 0 && resume + n == End(cfg, lane)
    requires lane < |c.lanes| && c.lanes[lane].rangeStart <= c.lanes[lane].rangeEndExclusive
    ensures Reaches(cfg, s, [], s') && !Renamed(s') && s'.handlers == s.handlers[lane := Received]
    ensures Stored(s'.dir) == Some(Raised(c, lane, resume + n))
  {
    var written := Writes(cfg, s, lane, resume, n);
    var last := RecordsAndCloses(cfg, written, lane, resume, n, c);
    var closed := Streaming(resume, n, 0, resume + n, true, Receiving);
    Moved(s, written, last, lane, Wrote(resume, n), closed);
    ThenQuietly(cfg, s, [], written, last);
    s' := Finishes(cfg, last, lane);
    Moved(s, last, s', lane, closed, Received);
    ThenQuietly(cfg, s, [], last, s');
  }

  /** A lane that is already at its end has nothing to send. */
  lemma SendsNothing(cfg: Config, s: State, lane: nat) returns (s': State)
    requires ValidConfig(cfg) && Ready(cfg, s, lane) && s.handlers[lane] == Resuming(End(cfg, lane))
    ensures Reaches(cfg, s, [], s') && s'.dir == s.dir && s'.handlers == s.handlers[lane := Received]
  {
    var closed := Closes(cfg, s, lane);
    s' := Finishes(cfg, closed, lane);
    Moved(s, closed, s', lane, Resuming(End(cfg, lane)).(closed := true), Received);
    ThenQuietly(cfg, s, [], closed, s');
  }

  lemma RaisedToEnd(cfg: Config, c: TransferCheckpoint, lane: nat)
    requires ValidConfig(cfg) && Canonical(c, |cfg.source|, cfg.lanes) && lane < cfg.lanes
    ensures c.lanes[lane].rangeStart <= c.lanes[lane].rangeEndExclusive
    ensures Raised(c, lane, End(cfg, lane)).lanes[lane].offset == End(cfg, lane)
    ensures c.lanes[lane].offset == End(cfg, lane) ==> Raised(c, lane, End(cfg, lane)) == c
  {
    assert CanonicalLane(c, lane);
  }

  /**
   One undisturbed session of a lane, from wherever the checkpoint stands, ends with the whole lane
   received, and changes nothing in the checkpoint but this lane's offset, which is now its end.
   */
  lemma LaneSession(cfg: Config, s: State, lane: nat) returns (s': State)
    requires ValidConfig(cfg) && Ready(cfg, s, lane) && s.handlers[lane].Idle? && Start(cfg, lane) < End(cfg, lane)
    ensures Reaches(cfg, s, [lane], s') && !Renamed(s')
    ensures s'.handlers == s.handlers[lane := Received]
    ensures var c := Current(cfg, s);
            && lane < |c.lanes| && c.lanes[lane].rangeStart <= c.lanes[lane].rangeEndExclusive
            && Stored(s'.dir) == Some(Raised(c, lane, End(cfg, lane)))
            && Raised(c, lane, End(cfg, lane)).lanes[lane].offset == End(cfg, lane)
  {
    var c := Current(cfg, s);
    CurrentIsCanonical(cfg, s);
    RaisedToEnd(cfg, c, lane);
    var begun := OpensLane(cfg, s, lane);
    ReachesKeepsInv(cfg, s, [lane], begun);
    assert SoundHandler(cfg, lane, begun.handlers[lane], begun.dir, begun.file);
    if c.lanes[lane].offset == End(cfg, lane) {
      s' := SendsNothing(cfg, begun, lane);
      assert Stored(s'.dir) == Some(Raised(c, lane, End(cfg, lane)));
    } else {
      s' := SendsRest(cfg, begun, lane, c.lanes[lane].offset, End(cfg, lane) - c.lanes[lane].offset, c);
      assert Stored(s'.dir) == Some(Raised(c, lane, End(cfg, lane)));
    }
    Moved(s, begun, s', lane, Resuming(c.lanes[lane].offset), Received);
    ThenQuietly(cfg, s, [lane], begun, s');
  }

  // ---------------------------------------------------------------- recovery

  ghost predicate AllIdle(s: State) { forall l :: 0 <= l < |s.handlers| ==> s.handlers[l].Idle? }

  /** Every live session is broken off: a restart of the server process. */
  lemma {:induction false} Interrupted(cfg: Config, s: State, from: nat) returns (s': State)
    requires ValidConfig(cfg) && |s.handlers| == cfg.lanes && !Renamed(s) && from <= cfg.lanes
    requires forall l :: 0 <= l < from ==> s.handlers[l].Idle?
    ensures Reaches(cfg, s, [], s') && AllIdle(s') && s'.dir == s.dir && s'.file == s.file
    decreases cfg.lanes - from
  {
    if from == cfg.lanes {
      ReachesSelf(cfg, s);
      s' := s;
    } else {
      var one := SetHandler(s, from, Idle);
      ReachesStep(cfg, s, Abort(from), one);
      s' := Interrupted(cfg, one, from + 1);
      ThenQuietly(cfg, s, [], one, s');
    }
  }

  /** The file is the source, in length and in every byte. */
  ghost predicate FileIsSource(cfg: Config, file: seq<Cell>) {
    |file| == |cfg.source| && forall p :: 0 <= p < |file| ==> file[p].value == cfg.source[p]
  }

  lemma CompleteFileIsSource(cfg: Config, s: State, c: TransferCheckpoint)
    requires ValidConfig(cfg) && Inv(cfg, s) && Stored(s.dir) == Some(c) && AllLanesComplete(c)
    ensures FileIsSource(cfg, s.file)
  {
    StoredIsSound(cfg, s.dir, s.file);
    CompleteMeansWholeFile(cfg, c, s.file);
    forall p | 0 <= p < |s.file| ensures s.file[p].value == cfg.source[p] {
      assert DurableAt(cfg, s.file, p);
    }
  }

  /** A lane that has been received whole while another is not reports that it waits. */
  lemma WaitsForOthers(cfg: Config, s: State, lane: nat, c: TransferCheckpoint) returns (s': State)
    requires ValidConfig(cfg) && Ready(cfg, s, lane) && s.handlers[lane].Received?
    requires Stored(s.dir) == Some(c) && !AllLanesComplete(c)
    ensures Reaches(cfg, s, [], s') && Inv(cfg, s') && s'.handlers == s.handlers[lane := Idle] && s'.dir == s.dir
  {
    var loaded := SetHandler(s, lane, Finalizing(c));
    ReachesStep(cfg, s, LoadForFinalize(lane), loaded);
    s' := SetHandler(loaded, lane, Idle);
    ReachesStep(cfg, loaded, ReportRunning(lane), s');
    ThenQuietly(cfg, s, [], loaded, s');
    ReachesKeepsInv(cfg, s, [], s');
  }

  /** With a complete checkpoint, the destination decides between the rename and a rejection. */
  lemma Decides(cfg: Config, s: State, lane: nat, c: TransferCheckpoint) returns (s': State)
    requires ValidConfig(cfg) && Ready(cfg, s, lane) && s.handlers[lane].Received?
    requires Stored(s.dir) == Some(c) && AllLanesComplete(c)
    ensures Reaches(cfg, s, [], s') && Inv(cfg, s')
    ensures cfg.permitted ==> Renamed(s') && FileIsSource(cfg, s'.file)
    ensures !cfg.permitted ==> !Renamed(s') && s'.dir == s.dir && s'.handlers == s.handlers[lane := Rejected]
  {
    var loaded := SetHandler(s, lane, Finalizing(c));
    ReachesStep(cfg, s, LoadForFinalize(lane), loaded);
    if cfg.permitted {
      CompleteFileIsSource(cfg, s, c);
      s' := SetHandler(Append(loaded, RenameStaging), lane, Idle);
      Appended(loaded, RenameStaging);
      ReachesStep(cfg, loaded, Rename(lane), s');
    } else {
      s' := SetHandler(loaded, lane, Rejected);
      ReachesStep(cfg, loaded, Reject(lane), s');
    }
    ThenQuietly(cfg, s, [], loaded, s');
    ReachesKeepsInv(cfg, s, [], s');
  }

  /** The lanes opened, each at most once, in order, all in [first, past). */
  predicate Ascending(opens: seq<nat>, first: nat, past: nat) {
    && (forall i :: 0 <= i < |opens| ==> first <= opens[i] < past)
    && (forall i, j | 0 <= i < j < |opens| :: opens[i] < opens[j])
  }

  lemma AscendingNext(lane: nat, more: seq<nat>, past: nat)
    requires lane < past && Ascending(more, lane + 1, past)
    ensures Ascending([lane] + more, lane, past)
  {
  }

  /** The lanes below `lane` are at their ends. */
  ghost predicate DoneBelow(cfg: Config, c: TransferCheckpoint, lane: nat)
    requires ValidConfig(cfg)
  {
    && Canonical(c, |cfg.source|, cfg.lanes) && lane <= cfg.lanes
    && forall l :: 0 <= l < lane ==> c.lanes[l].offset >= c.lanes[l].rangeEndExclusive
  }

  lemma DoneNext(cfg: Config, c: TransferCheckpoint, lane: nat)
    requires ValidConfig(cfg) && DoneBelow(cfg, c, lane) && lane < cfg.lanes
    ensures c.lanes[lane].rangeStart <= c.lanes[lane].rangeEndExclusive
    ensures var raised := Raised(c, lane, End(cfg, lane));
      && DoneBelow(cfg, raised, lane + 1)
      && (AllLanesComplete(raised) ==> OthersComplete(c, lane))
      && (!AllLanesComplete(raised) ==> lane + 1 < cfg.lanes)
  {
    RaisedStaysCanonical(c, |cfg.source|, cfg.lanes, lane, End(cfg, lane));
    RaisedToEnd(cfg, c, lane);
    var raised := Raised(c, lane, End(cfg, lane));
    assert CanonicalLane(c, lane) && CanonicalLane(raised, lane);
    assert forall l :: 0 <= l < cfg.lanes && l != lane ==> raised.lanes[l] == c.lanes[l];
  }

  /** Every lane but this one is at its end. */
  predicate OthersComplete(c: TransferCheckpoint, lane: nat) {
    forall l :: 0 <= l < |c.lanes| && l != lane ==> c.lanes[l].offset >= c.lanes[l].rangeEndExclusive
  }

  /** All lanes are idle and those below `lane` are complete. */
  ghost predicate CompleteBelow(cfg: Config, s: State, lane: nat)
    requires ValidConfig(cfg)
  {
    Inv(cfg, s) && !Renamed(s) && AllIdle(s) && DoneBelow(cfg, Current(cfg, s), lane)
  }

  /** A session of the next lane: now the checkpoint is complete, or all lanes are idle again. */
  lemma SendsOne(cfg: Config, s: State, lane: nat) returns (s': State, done: bool)
    requires ValidConfig(cfg) && cfg.lanes <= |cfg.source| && CompleteBelow(cfg, s, lane) && lane < cfg.lanes
    ensures Reaches(cfg, s, [lane], s') && !Renamed(s')
    ensures done ==> s'.handlers == s.handlers[lane := Received] && OthersComplete(Current(cfg, s), lane)
    ensures done ==> Stored(s'.dir).Some? && AllLanesComplete(Stored(s'.dir).value)
    ensures !done ==> lane + 1 < cfg.lanes && CompleteBelow(cfg, s', lane + 1) && s'.handlers == s.handlers
  {
    LanesNonEmptyIff(|cfg.source|, cfg.lanes);
    s' := LaneSession(cfg, s, lane);
    DoneNext(cfg, Current(cfg, s), lane);
    done := AllLanesComplete(Stored(s'.dir).value);
    if !done {
      var sent := s';
      ReachesKeepsInv(cfg, s, [lane], sent);
      s' := WaitsForOthers(cfg, sent, lane, Stored(sent.dir).value);
      Moved(s, sent, s', lane, Received, Idle);
      ThenQuietly(cfg, s, [lane], sent, s');
    }
  }

  /** One session of each lane in turn, until the checkpoint is complete: lane `last` comes to finalize. */
  lemma {:induction false} SendsAll(cfg: Config, s: State, lane: nat) returns (opens: seq<nat>, s': State, last: nat)
    requires ValidConfig(cfg) && cfg.lanes <= |cfg.source| && CompleteBelow(cfg, s, lane) && lane < cfg.lanes
    ensures lane <= last < cfg.lanes && Ascending(opens, lane, cfg.lanes)
    ensures Reaches(cfg, s, opens, s') && !Renamed(s') && s'.handlers == s.handlers[last := Received]
    ensures Stored(s'.dir).Some? && AllLanesComplete(Stored(s'.dir).value)
    decreases cfg.lanes - lane
  {
    var one, done := SendsOne(cfg, s, lane);
    opens := [lane];
    if done {
      s', last := one, lane;
    } else {
      var more;
      more, s', last := SendsAll(cfg, one, lane + 1);
      ReachesThen(cfg, s, opens, one, more, s');
      AscendingNext(lane, more, cfg.lanes);
      opens := opens + more;
    }
  }

  /**
   Recovery. From every state that any run can reach before the rename, with any interleaving,
   disconnects and power losses behind it and under either lock discipline, breaking off whatever is
   going on and then opening each lane at most once, in order, leads to the rename of a file that is
   the source, if the destination may be written. (Lane normalization gives the premise that no lane
   is empty.)
   */
  lemma AlwaysRecoverable(cfg: Config, run: seq<State>, events: seq<Event>, i: nat) returns (opens: seq<nat>, s': State)
    requires IsRun(cfg, run, events) && i < |run| && cfg.lanes <= |cfg.source| && !Renamed(run[i]) && cfg.permitted
    ensures Reaches(cfg, run[i], opens, s') && Ascending(opens, 0, cfg.lanes)
    ensures Renamed(s') && FileIsSource(cfg, s'.file)
  {
    RunKeepsInv(cfg, run, events, i);
    var idle := Interrupted(cfg, run[i], 0);
    ReachesKeepsInv(cfg, run[i], [], idle);
    CurrentIsCanonical(cfg, idle);
    assert DoneBelow(cfg, Current(cfg, idle), 0);
    var sent, last;
    opens, sent, last := SendsAll(cfg, idle, 0);
    ReachesKeepsInv(cfg, idle, opens, sent);
    s' := Decides(cfg, sent, last, Stored(sent.dir).value);
    assert [] + opens == opens;
    ReachesThen(cfg, run[i], [], idle, opens, sent);
    ThenQuietly(cfg, run[i], opens, sent, s');
  }

  /** And if it may not be written, no run ever renames. */
  lemma NeverRenamedUnlessPermitted(cfg: Config, run: seq<State>, events: seq<Event>, i: nat)
    requires IsRun(cfg, run, events) && i < |run| && Renamed(run[i])
    ensures cfg.permitted
  {
    if i > 0 {
      assert NextAt(cfg, run, events, i - 1);
      NextRenames(cfg, run[i - 1], events[i - 1], run[i]);
    }
  }

  lemma NextRenames(cfg: Config, s: State, e: Event, s': State)
    requires ValidConfig(cfg) && Next(cfg, s, e, s') && Renamed(s')
    ensures e.Lane? && e.action.Rename? && cfg.permitted
  {
    assert e.Lane? ==> forall op :: op in s'.dir ==> op in s.dir || op == s'.dir[|s'.dir| - 1];
  }

  // ---------------------------------------------------------------- after a rejected finalize

  /** All lanes are sent, the destination is refused, and it is not lane 0 that was refused. */
  lemma AllSentAndRejected(cfg: Config) returns (opens: seq<nat>, s: State, last: nat)
    requires ValidConfig(cfg) && 2 <= cfg.lanes <= |cfg.source| && !cfg.permitted
    ensures Reaches(cfg, Init(cfg), opens, s) && Inv(cfg, s) && !Renamed(s)
    ensures 0 < last < cfg.lanes && |s.handlers| == cfg.lanes && s.handlers[last].Rejected?
    ensures forall l :: 0 <= l < cfg.lanes && l != last ==> s.handlers[l].Idle?
    ensures Stored(s.dir).Some? && AllLanesComplete(Stored(s.dir).value)
  {
    var start := Init(cfg);
    LanesNonEmptyIff(|cfg.source|, cfg.lanes);
    CurrentIsCanonical(cfg, start);
    var waiting, done := SendsOne(cfg, start, 0);
    assert !OthersComplete(Current(cfg, start), 0) by {
      assert Current(cfg, start).lanes[1].offset < Current(cfg, start).lanes[1].rangeEndExclusive;
    }
    var more: seq<nat>, sent: State;
    more, sent, last := SendsAll(cfg, waiting, 1);
    ReachesKeepsInv(cfg, waiting, more, sent);
    opens := [0] + more;
    ReachesThen(cfg, start, [0], waiting, more, sent);
    s := Decides(cfg, sent, last, Stored(sent.dir).value);
    ThenQuietly(cfg, start, opens, sent, s);
  }

  lemma Removes(cfg: Config, s: State, lane: nat) returns (s': State)
    requires ValidConfig(cfg) && Alone(cfg, s, lane) && s.handlers[lane].Rejected?
    ensures Reaches(cfg, s, [], s') && Alone(cfg, s', lane)
    ensures Stored(s'.dir) == None && s'.handlers == s.handlers[lane := Idle]
  {
    s' := SetHandler(Append(s, RemoveCheckpoint), lane, Idle);
    Appended(s, RemoveCheckpoint);
    ReachesStep(cfg, s, RemoveRejected(lane), s');
  }

  /** The rejected lane removes the checkpoint, is opened again, and creates a new one. */
  lemma StartsOver(cfg: Config, s: State, lane: nat) returns (s': State)
    requires ValidConfig(cfg) && Ready(cfg, s, lane) && s.handlers[lane].Rejected? && Start(cfg, lane) < End(cfg, lane)
    ensures Reaches(cfg, s, [lane], s')
    ensures s'.handlers == s.handlers[lane := Reloaded(NewCheckpoint(cfg.transferId, |cfg.source|, cfg.lanes))]
    ensures Stored(s'.dir) == Some(NewCheckpoint(cfg.transferId, |cfg.source|, cfg.lanes))
  {
    var blank := NewCheckpoint(cfg.transferId, |cfg.source|, cfg.lanes);
    var removed := Removes(cfg, s, lane);
    ReachesKeepsInv(cfg, s, [], removed);
    var found := Finds(cfg, removed, lane);
    Moved(s, removed, found, lane, Idle, NoCheckpoint);
    ReachesThen(cfg, s, [], removed, [lane], found);
    s' := Creates(cfg, found, lane);
    Moved(s, found, s', lane, NoCheckpoint, Reloaded(blank));
    assert [] + [lane] == [lane];
    ThenQuietly(cfg, s, [lane], found, s');
  }

  /**
   A rejected finalize removes the checkpoint. With a refused destination, two lanes or more and a
   first lane of 2 MiB or more there is then a run, under one shared checkpoint lock as under
   several, in which lane 0 was opened again before the removal and waits for its next chunk, while
   the checkpoint, created anew for the rejected lane, is two chunks or more behind it.
   */
  lemma LagBoundFailsAfterRejection(cfg: Config) returns (run: seq<State>, events: seq<Event>)
    requires ValidConfig(cfg) && !cfg.permitted && cfg.lanes >= 2 && End(cfg, 0) - Start(cfg, 0) >= 2 * C
    ensures IsRun(cfg, run, events)
    ensures var s := run[|events|];
            && |s.handlers| == cfg.lanes && Waits(s.handlers[0]) && Stored(s.dir).Some?
            && !LagBelow(cfg, s, 0, 2 * C)
  {
    LaneLength(|cfg.source|, cfg.lanes, 0);
    NonEmptyWhenLong(|cfg.source|, cfg.lanes);
    LanesNonEmptyIff(|cfg.source|, cfg.lanes);
    var opens, rejected, last := AllSentAndRejected(cfg);
    CurrentIsCanonical(cfg, rejected);
    assert CanonicalLane(Current(cfg, rejected), 0);
    var again := OpensLane(cfg, rejected, 0);
    ReachesThen(cfg, Init(cfg), opens, rejected, [0], again);
    ReachesKeepsInv(cfg, rejected, [0], again);
    var s := StartsOver(cfg, again, last);
    ReachesThen(cfg, Init(cfg), opens + [0], again, [last], s);
    run, events := ReachesIsRun(cfg, opens + [0] + [last], s);
  }

  lemma NonEmptyWhenLong(fileSize: nat, lanes: nat)
    requires lanes > 0 && fileSize / lanes + (if 0 < fileSize % lanes then 1 else 0) >= 2
    ensures lanes <= fileSize
  {
    if fileSize < lanes {
      SmallDivision(fileSize, lanes);
    }
  }

  /** In no run does a waiting writer get two chunks ahead of its checkpoint. */
  ghost predicate NeverLags(cfg: Config)
    requires ValidConfig(cfg)
  {
    forall run, events, lane | IsRun(cfg, run, events) && 0 <= lane < cfg.lanes :: LagBelow(cfg, run[|events|], lane, 2 * C)
  }

  /**
   The exact condition of the lag bound, with one checkpoint lock. Every waiting writer stays less
   than two chunks ahead of its checkpoint in every run, if and only if the destination may be
   written, or there is only one lane, or no lane has two chunks.
   */
  lemma LagBoundIff(cfg: Config)
    requires ValidConfig(cfg) && cfg.locked
    ensures NeverLags(cfg) <==> cfg.permitted || cfg.lanes == 1 || End(cfg, 0) - Start(cfg, 0) < 2 * C
  {
    if cfg.permitted || cfg.lanes == 1 || End(cfg, 0) - Start(cfg, 0) < 2 * C {
      forall run, events, lane: nat | IsRun(cfg, run, events) && lane < cfg.lanes
        ensures LagBelow(cfg, run[|events|], lane, 2 * C)
      {
        RunKeepsInv(cfg, run, events, |events|);
        if cfg.permitted || cfg.lanes == 1 {
          if cfg.permitted {
            PermittedMeansNoRemoval(cfg, run, events, |events|);
          }
          LagBound(cfg, run, events, |events|, lane);
        } else {
          ShortLaneLag(cfg, run[|events|], lane);
        }
      }
    } else {
      var run, events := LagBoundFailsAfterRejection(cfg);
    }
  }
}
