/**
 The client's end of a session: joining the lanes in whatever order they complete, adding up their
 bytes and folding their acknowledgements into the one it reports
 (crates/metra-client/src/transfer.rs).
 */
module SessionReport {
  import opened Common
  import opened Ranges

  datatype TransferStatus = Queued | Running | Completed | Failed

  /** Acknowledgement times are opaque, ordered values. */
  datatype CompleteAck = CompleteAck(status: TransferStatus, bytesReceived: nat, updatedAt: int, message: string)

  function Priority(status: TransferStatus): nat {
    match status
    case Queued => 0
    case Running => 1
    case Completed => 2
    case Failed => 3
  }

  function ChoosePreferred(current: Option<CompleteAck>, candidate: CompleteAck): CompleteAck {
    match current
    case None => candidate
    case Some(existing) =>
      if Priority(candidate.status) > Priority(existing.status)
        || (Priority(candidate.status) == Priority(existing.status)
            && (candidate.bytesReceived > existing.bytesReceived
                || (candidate.bytesReceived == existing.bytesReceived
                    && candidate.updatedAt > existing.updatedAt)))
      then candidate else existing
  }

  // ---------------------------------------------------------------- the fold as a maximum

  /** Lexicographic order on (status priority, bytes, time). */
  predicate AtMost(a: CompleteAck, b: CompleteAck) {
    var pa, pb := Priority(a.status), Priority(b.status);
    pa < pb || (pa == pb && (a.bytesReceived < b.bytesReceived
                             || (a.bytesReceived == b.bytesReceived && a.updatedAt <= b.updatedAt)))
  }

  predicate SameKey(a: CompleteAck, b: CompleteAck) {
    a.status == b.status && a.bytesReceived == b.bytesReceived && a.updatedAt == b.updatedAt
  }

  /** The acknowledgement left after folding a list in order. */
  function FoldAcks(acks: seq<CompleteAck>): Option<CompleteAck> {
    if acks == [] then None
    else Some(ChoosePreferred(FoldAcks(acks[..|acks| - 1]), acks[|acks| - 1]))
  }

  /** The fold is one of the acknowledgements and the greatest of them. */
  lemma {:induction false} FoldIsMaximum(acks: seq<CompleteAck>)
    requires acks != []
    ensures FoldAcks(acks).Some? && FoldAcks(acks).value in acks
    ensures forall a :: a in acks ==> AtMost(a, FoldAcks(acks).value)
  {
    var front := acks[..|acks| - 1];
    assert acks == front + [acks[|acks| - 1]];
    if front != [] {
      FoldIsMaximum(front);
    }
  }

  /** Of several greatest ones it is the first: with its message, which is not part of the order. */
  lemma {:induction false} FoldKeepsFirst(acks: seq<CompleteAck>) returns (i: nat)
    requires acks != []
    ensures i < |acks| && FoldAcks(acks) == Some(acks[i])
    ensures forall j :: 0 <= j < i ==> !AtMost(acks[i], acks[j])
  {
    var front, last := acks[..|acks| - 1], |acks| - 1;
    if front == [] || ChoosePreferred(FoldAcks(front), acks[last]) != FoldAcks(front).value {
      i := last;
      forall j | 0 <= j < last ensures !AtMost(acks[last], acks[j]) {
        FoldIsMaximum(front);
        assert front[j] in front;
      }
    } else {
      i := FoldKeepsFirst(front);
    }
  }

  /** The reported key does not depend on the order in which the lanes were joined. */
  lemma FoldOrderIndependent(acks: seq<CompleteAck>, permuted: seq<CompleteAck>)
    requires multiset(acks) == multiset(permuted) && acks != []
    ensures FoldAcks(permuted).Some? && FoldAcks(acks).Some?
    ensures SameKey(FoldAcks(acks).value, FoldAcks(permuted).value)
  {
    assert permuted != [] by { assert acks[0] in multiset(permuted); }
    FoldIsMaximum(acks);
    FoldIsMaximum(permuted);
    var a, b := FoldAcks(acks).value, FoldAcks(permuted).value;
    assert a in multiset(permuted) && b in multiset(acks);
    assert AtMost(a, b) && AtMost(b, a);
    PriorityInjective(a.status, b.status);
  }

  lemma PriorityInjective(a: TransferStatus, b: TransferStatus)
    ensures Priority(a) == Priority(b) <==> a == b
  {
  }

  /** One failed lane makes the whole report failed; otherwise one completed lane makes it completed. */
  lemma FoldStatus(acks: seq<CompleteAck>)
    requires acks != []
    ensures FoldAcks(acks).Some?
    ensures FoldAcks(acks).value.status == Failed <==> exists i :: 0 <= i < |acks| && acks[i].status == Failed
    ensures FoldAcks(acks).value.status == Completed <==>
            && (exists i :: 0 <= i < |acks| && acks[i].status == Completed)
            && (forall i :: 0 <= i < |acks| ==> acks[i].status != Failed)
    ensures FoldAcks(acks).value.status == Running <==>
            && (exists i :: 0 <= i < |acks| && acks[i].status == Running)
            && (forall i :: 0 <= i < |acks| ==> acks[i].status != Failed && acks[i].status != Completed)
  {
    FoldIsMaximum(acks);
    var best := FoldAcks(acks).value;
    forall i | 0 <= i < |acks| ensures Priority(acks[i].status) <= Priority(best.status) {
      assert acks[i] in acks;
    }
    var i :| 0 <= i < |acks| && acks[i] == best;
  }

  // ---------------------------------------------------------------- joining the lanes

  datatype LaneResult = LaneResult(bytesStreamed: nat, resumedFromBytes: nat, completeAck: CompleteAck)

  function Streamed(results: seq<LaneResult>): nat {
    if results == [] then 0 else Streamed(results[..|results| - 1]) + results[|results| - 1].bytesStreamed
  }

  function Resumed(results: seq<LaneResult>): nat {
    if results == [] then 0 else Resumed(results[..|results| - 1]) + results[|results| - 1].resumedFromBytes
  }

  function Acks(results: seq<LaneResult>): seq<CompleteAck> {
    seq(|results|, i requires 0 <= i < |results| => results[i].completeAck)
  }

  /** The join loop; `joined` is the order in which the lane tasks finish. */
  method JoinLanes(joined: seq<LaneResult>) returns (streamed: nat, resumed: nat, best: Option<CompleteAck>)
    ensures streamed == Streamed(joined) && resumed == Resumed(joined)
    ensures best == FoldAcks(Acks(joined))
  {
    streamed, resumed, best := 0, 0, None;
    var i := 0;
    while i < |joined|
      invariant 0 <= i <= |joined|
      invariant streamed == Streamed(joined[..i]) && resumed == Resumed(joined[..i])
      invariant best == FoldAcks(Acks(joined[..i]))
    {
      assert joined[..i + 1][..i] == joined[..i];
      assert Acks(joined[..i + 1])[..i] == Acks(joined[..i]);
      streamed := streamed + joined[i].bytesStreamed;
      resumed := resumed + joined[i].resumedFromBytes;
      best := Some(ChoosePreferred(best, joined[i].completeAck));
      i := i + 1;
    }
    assert joined[..i] == joined;
  }

  /** The client's own check of the resume offset that the server acknowledged. */
  predicate ResumeOffsetAccepted(fileSize: nat, lanes: nat, lane: nat, resume: nat)
    requires lane < lanes
  {
    LaneStart(fileSize, lanes, lane) <= resume <= LaneEnd(fileSize, lanes, lane)
  }

  /** What a lane reports after a successful send that resumed at the acknowledged offset. */
  predicate LaneReports(fileSize: nat, lanes: nat, lane: nat, resume: nat, r: LaneResult)
    requires lane < lanes
  {
    && ResumeOffsetAccepted(fileSize, lanes, lane, resume)
    && r.bytesStreamed == LaneEnd(fileSize, lanes, lane) - resume
    && r.resumedFromBytes == resume - LaneStart(fileSize, lanes, lane)
  }

  lemma {:induction false} InLaneOrder(fileSize: nat, lanes: nat, resumes: seq<nat>, results: seq<LaneResult>, m: nat)
    requires lanes > 0 && |results| == |resumes| == lanes && m <= lanes
    requires forall l :: 0 <= l < lanes ==> LaneReports(fileSize, lanes, l, resumes[l], results[l])
    ensures Resumed(results[..m]) + Streamed(results[..m]) == LaneStart(fileSize, lanes, m)
  {
    if m == 0 {
      LayoutEnds(fileSize, lanes);
    } else {
      InLaneOrder(fileSize, lanes, resumes, results, m - 1);
      assert results[..m][..m - 1] == results[..m - 1];
      assert LaneReports(fileSize, lanes, m - 1, resumes[m - 1], results[m - 1]);
    }
  }

  /** Bytes of a multiset of lane results; the order in which they were added up does not matter. */
  lemma {:induction false} TotalsOrderIndependent(a: seq<LaneResult>, b: seq<LaneResult>)
    requires multiset(a) == multiset(b)
    ensures Streamed(a) == Streamed(b) && Resumed(a) == Resumed(b)
    decreases |a|
  {
    if a == [] {
      assert |multiset(b)| == |b| && |multiset(a)| == |a|;
    } else {
      var last := |a| - 1;
      assert a[last] in multiset(b);
      var i := IndexOf(b, a[last]);
      SameWithout(a, b, i);
      TotalsWithout(b, i);
      TotalsOrderIndependent(a[..last], b[..i] + b[i + 1..]);
    }
  }

  function IndexOf(b: seq<LaneResult>, r: LaneResult): (i: nat)
    requires r in b
    ensures i < |b| && b[i] == r
  {
    if b[0] == r then 0 else 1 + IndexOf(b[1..], r)
  }

  lemma SameWithout(a: seq<LaneResult>, b: seq<LaneResult>, i: nat)
    requires a != [] && multiset(a) == multiset(b) && i < |b| && b[i] == a[|a| - 1]
    ensures multiset(a[..|a| - 1]) == multiset(b[..i] + b[i + 1..])
  {
    MultisetWithout(a, |a| - 1);
    MultisetWithout(b, i);
    assert a[..|a| - 1] + a[|a|..] == a[..|a| - 1];
  }

  lemma MultisetWithout(b: seq<LaneResult>, i: nat)
    requires i < |b|
    ensures multiset(b[..i] + b[i + 1..]) == multiset(b) - multiset{b[i]}
  {
    assert b == b[..i] + [b[i]] + b[i + 1..];
    assert multiset(b) == multiset(b[..i]) + multiset{b[i]} + multiset(b[i + 1..]);
  }

  lemma {:induction false} TotalsWithout(b: seq<LaneResult>, i: nat)
    requires i < |b|
    ensures Streamed(b) == Streamed(b[..i] + b[i + 1..]) + b[i].bytesStreamed
    ensures Resumed(b) == Resumed(b[..i] + b[i + 1..]) + b[i].resumedFromBytes
    decreases |b|
  {
    var last := |b| - 1;
    if i == last {
      assert b[..i] + b[i + 1..] == b[..last];
    } else {
      TotalsWithout(b[..last], i);
      assert (b[..i] + b[i + 1..])[..last - 1] == b[..last][..i] + b[..last][i + 1..];
    }
  }

  /**
   Session conservation. Whatever the resume offsets the server acknowledged, and whatever the order
   in which the lanes completed, the session reports resumed + streamed == file size, and folds the
   acknowledgements to the same key as any other order.
   */
  lemma SessionConservesBytes(fileSize: nat, lanes: nat, resumes: seq<nat>, results: seq<LaneResult>, joined: seq<LaneResult>)
    requires lanes > 0 && |results| == |resumes| == lanes
    requires forall l :: 0 <= l < lanes ==> LaneReports(fileSize, lanes, l, resumes[l], results[l])
    requires multiset(joined) == multiset(results)
    ensures Resumed(joined) + Streamed(joined) == fileSize
  {
    InLaneOrder(fileSize, lanes, resumes, results, lanes);
    assert results[..lanes] == results;
    LayoutEnds(fileSize, lanes);
    TotalsOrderIndependent(joined, results);
  }
}
