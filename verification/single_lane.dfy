/**
 The single-lane upload as a step system: any number of sessions, one after the other (the lane
 lease admits one handler at a time), each resuming where the staging file ends, interrupted at any
 point by a disconnect, a failed write or a crash of the server process, and finalized by renaming
 the staging file; also the variant that discards the payload (crates/metra-server/src/quic.rs).
 */
module SingleLane {
  import opened Common
  import opened LaneWriter

  /** `existing` is what the destination held before; the other two flags say whether it may be replaced. */
  datatype Config = Config(source: seq<byte>, discard: bool, existing: Option<seq<byte>>, overwrite: bool, immutable: bool)

  /** How a session was answered, other than by a stream error. */
  datatype Report =
    | Oversize                       // the staging file is larger than the file
    | Incomplete(bytes: nat)
    | DestinationRefused(bytes: nat)
    | Completed(bytes: nat)

  datatype Session =
    | Idle
    | Opened(resume: nat)
    | Streaming(resume: nat, received: nat, written: nat, cut: bool)
    | Received(bytes: nat)           // about to finalize
    | Checked                        // destination permitted, about to remove what is there
    | Renaming

  datatype State = State(
    staging: Option<seq<byte>>,
    destination: Option<seq<byte>>,
    bytesTransferred: nat,
    session: Session,
    reports: seq<Report>)

  predicate ValidConfig(cfg: Config) { cfg.source != [] }

  function Init(cfg: Config): State { State(None, cfg.existing, 0, Idle, []) }

  function Len(file: Option<seq<byte>>): nat {
    match file case None => 0 case Some(bytes) => |bytes|
  }

  /** Writing past the end of a file fills the gap with zeros. */
  function WriteFile(file: seq<byte>, pos: nat, bytes: seq<byte>): seq<byte> {
    if pos <= |file| then Overwritten(file, pos, bytes)
    else file + seq(pos - |file|, _ => 0) + bytes
  }

  // ---------------------------------------------------------------- steps

  datatype Action =
    | Open
    | OpenStaging
    | Arrive(len: nat)               // a whole frame, taken up by the frame reader
    | Write(len: nat)                // by the disk writer; a chunk may be written in parts
    | Record                         // persist_progress
    | Disconnect
    | EndStream
    | CheckSize
    | CheckDestination
    | RemoveExisting
    | Rename
    | Fail                           // any error of the stream or of the storage
    | Crash(reloaded: nat)           // of the process; the counter comes back from the transfer store

  predicate Enabled(cfg: Config, s: State, a: Action) {
    match a
    case Open => s.session.Idle?
    case OpenStaging => s.session.Opened?
    case Arrive(len) =>
      && s.session.Streaming? && !s.session.cut && len > 0
      && s.session.resume + s.session.received + len <= |cfg.source|
    case Write(len) =>
      && !cfg.discard && s.session.Streaming? && len > 0
      && s.session.written + len <= s.session.received
    case Record => !cfg.discard && s.session.Streaming?
    case Disconnect => s.session.Streaming? && s.session.resume + s.session.received < |cfg.source|
    case EndStream =>
      && s.session.Streaming? && s.session.written == s.session.received
      && (s.session.cut || s.session.resume + s.session.received >= |cfg.source|)
    case CheckSize => s.session.Received? && (s.session.bytes != |cfg.source| || cfg.discard)
    case CheckDestination => s.session.Received? && s.session.bytes == |cfg.source| && !cfg.discard
    case RemoveExisting => s.session.Checked?
    case Rename => s.session.Renaming? && s.staging.Some?
    case Fail => !s.session.Idle?
    case Crash(_) => true
  }

  /** The offset at which a session resumes. */
  function ResumeOffset(cfg: Config, s: State): nat {
    if cfg.discard then Min(s.bytesTransferred, |cfg.source|) else Len(s.staging)
  }

  function Answer(s: State, r: Report): State { s.(session := Idle, reports := s.reports + [r]) }

  /** Bytes of the source sent by a client that resumes at the acknowledged offset. */
  function Sent(cfg: Config, x: Session): seq<byte>
    requires x.Streaming? && x.written <= x.received && x.resume + x.received <= |cfg.source|
  {
    cfg.source[x.resume..x.resume + x.received]
  }

  ghost predicate Next(cfg: Config, s: State, a: Action, s': State) {
    && Enabled(cfg, s, a)
    && var x := s.session;
    && match a
       case Open =>
         if ResumeOffset(cfg, s) > |cfg.source| then s' == Answer(s, Oversize)
         else s' == s.(session := Opened(ResumeOffset(cfg, s)), bytesTransferred := ResumeOffset(cfg, s))
       case OpenStaging =>
         s' == s.(session := Streaming(x.resume, 0, 0, false),
                  staging := if cfg.discard || s.staging.Some? then s.staging else Some([]))
       case Arrive(len) =>
         s' == s.(session := x.(received := x.received + len, written := x.written + if cfg.discard then len else 0))
       case Write(len) =>
         && x.resume + x.received <= |cfg.source| && s.staging.Some?
         && s' == s.(session := x.(written := x.written + len),
                     staging := Some(WriteFile(s.staging.value, x.resume + x.written, Sent(cfg, x)[x.written..x.written + len])))
       case Record => s' == s.(bytesTransferred := Min(x.resume + x.written, |cfg.source|))
       case Disconnect => s' == s.(session := x.(cut := true))
       case EndStream => s' == s.(session := if x.cut then Idle else Received(x.resume + x.written))
       case CheckSize =>
         var counted := s.(bytesTransferred := Min(x.bytes, |cfg.source|));
         s' == Answer(counted, if x.bytes != |cfg.source| then Incomplete(counted.bytesTransferred) else Completed(counted.bytesTransferred))
       case CheckDestination =>
         var counted := s.(bytesTransferred := Min(x.bytes, |cfg.source|));
         if s.destination.Some? && (cfg.immutable || !cfg.overwrite)
         then s' == Answer(counted, DestinationRefused(counted.bytesTransferred))
         else s' == counted.(session := Checked)
       case RemoveExisting => s' == s.(destination := None, session := Renaming)
       case Rename =>
         s' == Answer(s.(destination := s.staging, staging := None), Completed(s.bytesTransferred))
       case Fail => s' == s.(session := Idle)
       case Crash(reloaded) => s' == s.(session := Idle, bytesTransferred := reloaded)
  }

  ghost predicate IsRun(cfg: Config, run: seq<State>, actions: seq<Action>) {
    && ValidConfig(cfg)
    && |run| == |actions| + 1
    && run[0] == Init(cfg)
    && forall i :: 0 <= i < |actions| ==> Next(cfg, run[i], actions[i], run[i + 1])
  }

  // ---------------------------------------------------------------- invariant

  predicate SessionInv(cfg: Config, s: State) {
    var n, x := |cfg.source|, s.session;
    match x
    case Idle => true
    case Opened(resume) => resume <= n && (!cfg.discard ==> resume == Len(s.staging))
    case Streaming(resume, received, written, cut) =>
      && written <= received && resume + received <= n
      && (cut ==> resume + received < n)
      && (if cfg.discard then written == received else s.staging.Some? && Len(s.staging) == resume + written)
    case Received(bytes) => bytes == n && (!cfg.discard ==> Len(s.staging) == n)
    case _ => !cfg.discard && s.bytesTransferred == n && Len(s.staging) == n
  }

  predicate IsPrefix(file: Option<seq<byte>>, source: seq<byte>) {
    match file case None => true case Some(bytes) => bytes <= source
  }

  predicate Good(cfg: Config, r: Report) {
    match r
    case Oversize => false
    case Incomplete(_) => false
    case DestinationRefused(bytes) => bytes == |cfg.source| && !cfg.discard
    case Completed(bytes) => bytes == |cfg.source|
  }

  /** The destination is untouched, taken away, or the whole file. */
  predicate NeverPartial(cfg: Config, s: State) {
    s.destination == cfg.existing || (!cfg.discard && s.destination in {None, Some(cfg.source)})
  }

  predicate Inv(cfg: Config, s: State) {
    && IsPrefix(s.staging, cfg.source)
    && (cfg.discard ==> s.staging.None?)
    && SessionInv(cfg, s)
    && NeverPartial(cfg, s)
    && forall i :: 0 <= i < |s.reports| ==> Good(cfg, s.reports[i])
  }

  lemma WriteExtendsPrefix(file: seq<byte>, source: seq<byte>, to: nat)
    requires file <= source && |file| <= to <= |source|
    ensures WriteFile(file, |file|, source[|file|..to]) == source[..to]
  {
    assert Overwritten(file, |file|, source[|file|..to]) == source[..to];
  }

  lemma SentPart(cfg: Config, x: Session, to: nat)
    requires x.Streaming? && x.written <= to <= x.received && x.resume + x.received <= |cfg.source|
    ensures Sent(cfg, x)[x.written..to] == cfg.source[x.resume + x.written..x.resume + to]
  {
  }

  lemma WriteKeepsInv(cfg: Config, s: State, len: nat, s': State)
    requires Inv(cfg, s) && Next(cfg, s, Write(len), s')
    ensures Inv(cfg, s') && Len(s'.staging) == Len(s.staging) + len
  {
    var x := s.session;
    SentPart(cfg, x, x.written + len);
    WriteExtendsPrefix(s.staging.value, cfg.source, x.resume + x.written + len);
  }

  /** A staging file of the full length is the source. */
  lemma FullLengthIsSource(cfg: Config, s: State)
    requires IsPrefix(s.staging, cfg.source) && Len(s.staging) == |cfg.source| > 0
    ensures s.staging == Some(cfg.source)
  {
    var bytes := s.staging.value;
    assert bytes == cfg.source[..|bytes|] == cfg.source;
  }

  lemma StepKeepsInv(cfg: Config, s: State, a: Action, s': State)
    requires ValidConfig(cfg) && Inv(cfg, s) && Next(cfg, s, a, s')
    ensures Inv(cfg, s')
  {
    if a.Write? {
      WriteKeepsInv(cfg, s, a.len, s');
    } else if a.Rename? {
      FullLengthIsSource(cfg, s);
    }
  }

  lemma {:induction false} RunKeepsInv(cfg: Config, run: seq<State>, actions: seq<Action>, i: nat)
    requires IsRun(cfg, run, actions) && i <= |actions|
    ensures Inv(cfg, run[i])
  {
    if i > 0 {
      RunKeepsInv(cfg, run, actions, i - 1);
      StepKeepsInv(cfg, run[i - 1], actions[i - 1], run[i]);
    }
  }

  // ---------------------------------------------------------------- main results

  /**
   Prefix and resume. In every run the staging file is a prefix of the source, a session resumes at
   its length, and while it streams the file ends where the writer stands.
   */
  lemma StagingIsPrefix(cfg: Config, run: seq<State>, actions: seq<Action>, i: nat)
    requires IsRun(cfg, run, actions) && i <= |actions| && !cfg.discard
    ensures run[i].staging.Some? ==> run[i].staging.value <= cfg.source
    ensures run[i].session.Opened? ==> run[i].session.resume == Len(run[i].staging)
    ensures run[i].session.Streaming? ==> Len(run[i].staging) == run[i].session.resume + run[i].session.written
  {
    RunKeepsInv(cfg, run, actions, i);
  }

  /**
   Whenever a receive succeeds, finalize sees the whole file: the two incomplete-stream answers and
   the oversize refusal are never given, with or without discarding, and each completion reports the
   full size.
   */
  lemma NeverIncomplete(cfg: Config, run: seq<State>, actions: seq<Action>, i: nat)
    requires IsRun(cfg, run, actions) && i <= |actions|
    ensures forall r :: r in run[i].reports ==> !r.Incomplete? && !r.Oversize?
    ensures forall r :: r in run[i].reports && r.Completed? ==> r.bytes == |cfg.source|
    ensures run[i].session.Received? ==> run[i].session.bytes == |cfg.source|
    ensures run[i].session.Received? && !cfg.discard ==> run[i].staging == Some(cfg.source)
  {
    RunKeepsInv(cfg, run, actions, i);
    if run[i].session.Received? && !cfg.discard {
      FullLengthIsSource(cfg, run[i]);
    }
    assert forall r :: r in run[i].reports ==> Good(cfg, r);
  }

  /**
   Publishing. At every rename the staging file is the source, byte for byte; at no point of any run
   can a partial file be seen at the destination; and a discarded upload never touches storage.
   */
  lemma DestinationNeverPartial(cfg: Config, run: seq<State>, actions: seq<Action>, i: nat)
    requires IsRun(cfg, run, actions) && i <= |actions|
    ensures run[i].destination in {cfg.existing, None, Some(cfg.source)}
    ensures cfg.discard ==> run[i].destination == cfg.existing && run[i].staging == None
    ensures i < |actions| && actions[i].Rename? ==>
      run[i].staging == Some(cfg.source) && run[i + 1].destination == Some(cfg.source)
  {
    assert i < |actions| ==> Next(cfg, run[i], actions[i], run[i + 1]);
    RunKeepsInv(cfg, run, actions, i);
    if run[i].session.Renaming? {
      FullLengthIsSource(cfg, run[i]);
    }
  }

  /** Something is at the destination that may not be replaced. */
  predicate Protected(cfg: Config) {
    cfg.existing.Some? && (cfg.immutable || !cfg.overwrite)
  }

  /** A destination that may not be replaced keeps its contents in every run, and nothing is ever renamed. */
  lemma {:induction false} ProtectedDestinationKept(cfg: Config, run: seq<State>, actions: seq<Action>, i: nat)
    requires IsRun(cfg, run, actions) && i <= |actions| && Protected(cfg)
    ensures run[i].destination == cfg.existing
    ensures !run[i].session.Checked? && !run[i].session.Renaming?
    ensures RemoveExisting !in actions[..i] && Rename !in actions[..i]
  {
    if i > 0 {
      ProtectedDestinationKept(cfg, run, actions, i - 1);
      assert Next(cfg, run[i - 1], actions[i - 1], run[i]);
      assert actions[..i] == actions[..i - 1] + [actions[i - 1]];
    }
  }

  /** The check goes on exactly when nothing is in the way or it may be replaced, and answers "refused" otherwise. */
  lemma DestinationCheckIff(cfg: Config, run: seq<State>, actions: seq<Action>, i: nat)
    requires IsRun(cfg, run, actions) && i < |actions| && actions[i].CheckDestination?
    ensures run[i].destination.None? || (cfg.overwrite && !cfg.immutable) <==> run[i + 1].session.Checked?
    ensures !run[i + 1].session.Checked? ==>
      && run[i + 1].session.Idle? && run[i + 1].reports == run[i].reports + [DestinationRefused(|cfg.source|)]
      && run[i + 1].staging == Some(cfg.source)
    ensures run[i + 1].destination == run[i].destination
  {
    RunKeepsInv(cfg, run, actions, i);
    assert Next(cfg, run[i], actions[i], run[i + 1]);
    FullLengthIsSource(cfg, run[i]);
  }

  /**
   Where a session resumes, in every run: behind what is in the staging file, or, when the payload is
   discarded, where the counter stands, and never past the end.
   */
  lemma ResumesWhere(cfg: Config, run: seq<State>, actions: seq<Action>, i: nat)
    requires IsRun(cfg, run, actions) && i < |actions| && actions[i].Open?
    ensures run[i + 1].session.Opened? && run[i + 1].session.resume <= |cfg.source|
    ensures !cfg.discard && run[i].staging.None? ==> run[i + 1].session.resume == 0
    ensures !cfg.discard && run[i].staging.Some? ==> run[i + 1].session.resume == |run[i].staging.value|
    ensures cfg.discard && run[i].bytesTransferred <= |cfg.source| ==> run[i + 1].session.resume == run[i].bytesTransferred
    ensures cfg.discard && run[i].bytesTransferred > |cfg.source| ==> run[i + 1].session.resume == |cfg.source|
    ensures run[i + 1].bytesTransferred == run[i + 1].session.resume
  {
    RunKeepsInv(cfg, run, actions, i);
    assert Next(cfg, run[i], actions[i], run[i + 1]);
  }

  /** Bytes written since the last rename, over all sessions. */
  function WrittenSinceRename(actions: seq<Action>): nat {
    if actions == [] then 0
    else
      var before := WrittenSinceRename(actions[..|actions| - 1]);
      match actions[|actions| - 1]
      case Write(len) => before + len
      case Rename => 0
      case _ => before
  }

  /**
   Conservation across interruptions: the staging file holds as many bytes as all sessions together
   have written since the last rename. None is written twice, and none is lost.
   */
  lemma {:induction false} NoByteWrittenTwice(cfg: Config, run: seq<State>, actions: seq<Action>, i: nat)
    requires IsRun(cfg, run, actions) && i <= |actions|
    ensures Len(run[i].staging) == WrittenSinceRename(actions[..i])
  {
    if i > 0 {
      NoByteWrittenTwice(cfg, run, actions, i - 1);
      RunKeepsInv(cfg, run, actions, i - 1);
      assert actions[..i][..i - 1] == actions[..i - 1];
      if actions[i - 1].Write? {
        WriteKeepsInv(cfg, run[i - 1], actions[i - 1].len, run[i]);
      }
    }
  }

  /**
   The counter that the client sees. While a session streams to disk it lies between where the session
   resumed and what is in the staging file, and recording progress sets it to the latter.
   */
  lemma {:induction false} CounterFollowsStaging(cfg: Config, run: seq<State>, actions: seq<Action>, i: nat)
    requires IsRun(cfg, run, actions) && i <= |actions| && !cfg.discard
    ensures run[i].session.Opened? ==> run[i].bytesTransferred == run[i].session.resume
    ensures run[i].session.Streaming? ==> run[i].session.resume <= run[i].bytesTransferred <= Len(run[i].staging)
    ensures i > 0 && actions[i - 1].Record? ==> run[i].bytesTransferred == Len(run[i].staging)
  {
    if i > 0 {
      CounterFollowsStaging(cfg, run, actions, i - 1);
      RunKeepsInv(cfg, run, actions, i - 1);
      assert Next(cfg, run[i - 1], actions[i - 1], run[i]);
      if actions[i - 1].Write? {
        WriteKeepsInv(cfg, run[i - 1], actions[i - 1].len, run[i]);
      }
    }
  }

  // ---------------------------------------------------------------- recovery

  ghost predicate Steps(cfg: Config, run: seq<State>, actions: seq<Action>) {
    && |run| == |actions| + 1
    && forall i :: 0 <= i < |actions| ==> Next(cfg, run[i], actions[i], run[i + 1])
  }

  lemma StepsJoin(cfg: Config, run: seq<State>, actions: seq<Action>, later: seq<State>, more: seq<Action>)
    requires Steps(cfg, run, actions) && Steps(cfg, later, more) && run[|actions|] == later[0]
    ensures Steps(cfg, run + later[1..], actions + more)
    ensures (run + later[1..])[|actions| + |more|] == later[|more|]
  {
    var joined := run + later[1..];
    assert forall i :: 0 <= i <= |more| ==> joined[|actions| + i] == later[i];
    forall i | 0 <= i < |more| ensures Next(cfg, joined[|actions| + i], more[i], joined[|actions| + i + 1]) {
      assert Next(cfg, later[i], more[i], later[i + 1]);
    }
    forall i | 0 <= i < |actions| + |more| ensures Next(cfg, joined[i], (actions + more)[i], joined[i + 1]) {
      assert i >= |actions| ==> Next(cfg, joined[|actions| + (i - |actions|)], more[i - |actions|], joined[|actions| + (i - |actions|) + 1]);
    }
  }

  /** An undisturbed stream sends what is missing, and no more. */
  lemma StreamsTheRest(cfg: Config, s: State) returns (run: seq<State>, actions: seq<Action>)
    requires ValidConfig(cfg) && Inv(cfg, s) && s.session == Streaming(Len(s.staging), 0, 0, false) && !cfg.discard
    ensures Steps(cfg, run, actions) && run[0] == s
    ensures run[|actions|] == s.(staging := Some(cfg.source), session := Received(|cfg.source|))
    ensures forall a :: a in actions ==> a in {Arrive(|cfg.source| - Len(s.staging)), Write(|cfg.source| - Len(s.staging)), EndStream}
  {
    var have, rest := Len(s.staging), |cfg.source| - Len(s.staging);
    var whole := s.(staging := Some(cfg.source));
    if rest == 0 {
      FullLengthIsSource(cfg, s);
      run, actions := [s, whole.(session := Received(|cfg.source|))], [EndStream];
    } else {
      var arrived := s.(session := Streaming(have, rest, 0, false));
      var written := whole.(session := Streaming(have, rest, rest, false));
      SentPart(cfg, arrived.session, rest);
      WriteExtendsPrefix(s.staging.value, cfg.source, |cfg.source|);
      assert cfg.source[..|cfg.source|] == cfg.source;
      assert Next(cfg, arrived, Write(rest), written);
      run, actions := [s, arrived, written, whole.(session := Received(|cfg.source|))], [Arrive(rest), Write(rest), EndStream];
    }
  }

  /** A whole staging file is published, given a destination that may be written. */
  lemma Publishes(cfg: Config, s: State) returns (run: seq<State>, actions: seq<Action>)
    requires s.session == Received(|cfg.source|) && s.staging == Some(cfg.source) && !cfg.discard
    requires s.destination.Some? ==> cfg.overwrite && !cfg.immutable
    ensures Steps(cfg, run, actions) && run[0] == s && actions == [CheckDestination, RemoveExisting, Rename]
    ensures run[|actions|].reports == s.reports + [Completed(|cfg.source|)]
    ensures run[|actions|].destination == Some(cfg.source)
  {
    var checked := s.(bytesTransferred := |cfg.source|, session := Checked);
    var removed := checked.(destination := None, session := Renaming);
    var done := Answer(removed.(destination := s.staging, staging := None), Completed(|cfg.source|));
    assert Next(cfg, s, CheckDestination, checked);
    assert Next(cfg, checked, RemoveExisting, removed) && Next(cfg, removed, Rename, done);
    run, actions := [s, checked, removed, done], [CheckDestination, RemoveExisting, Rename];
  }

  /**
   Recovery. However a transfer was interrupted, one undisturbed session completes it, provided the
   destination may be written, and that session writes only the bytes that are missing.
   */
  lemma OneSessionCompletes(cfg: Config, s: State) returns (run: seq<State>, actions: seq<Action>)
    requires ValidConfig(cfg) && Inv(cfg, s) && s.session.Idle? && !cfg.discard
    requires s.destination.Some? ==> cfg.overwrite && !cfg.immutable
    ensures Steps(cfg, run, actions) && run[0] == s
    ensures run[|actions|].reports == s.reports + [Completed(|cfg.source|)]
    ensures run[|actions|].destination == Some(cfg.source)
    ensures forall a :: a in actions && a.Write? ==> a.len == |cfg.source| - Len(s.staging)
  {
    var begun := s.(session := Opened(Len(s.staging)), bytesTransferred := Len(s.staging));
    var streaming := begun.(session := Streaming(Len(s.staging), 0, 0, false), staging := Some(if s.staging.Some? then s.staging.value else []));
    assert Next(cfg, s, Open, begun) && Next(cfg, begun, OpenStaging, streaming);
    var streamed, sent := StreamsTheRest(cfg, streaming);
    var published, final := Publishes(cfg, streamed[|sent|]);
    StepsJoin(cfg, streamed, sent, published, final);
    run, actions := streamed + published[1..], sent + final;
    StepsJoin(cfg, [s, begun, streaming], [Open, OpenStaging], run, actions);
    run, actions := [s, begun, streaming] + run[1..], [Open, OpenStaging] + actions;
  }
}
