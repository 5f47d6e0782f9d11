/**
 Lane writer leases over every run of the stream handlers: who holds one, and when that keeps two
 writers of one transfer apart (crates/metra-server/src/quic.rs, crates/metra-server/src/state.rs).
 The checkpoint of a transfer fixes its layout, but a finalize removes it, whether or not the
 destination was accepted, and the next open creates one for whatever lane count it names.
 */
module Leases {
  import opened Common
  import opened Ranges
  import opened Checkpoint
  import opened Admission

  type TransferId = nat
  type HandlerId = nat

  /** A live handler that holds a lane guard; `accepted` once the layout check has passed. */
  datatype Handler = Handler(transfer: TransferId, open: AcceptedOpen, accepted: bool, finalizing: bool)

  /** `layouts` holds the stored checkpoint of each transfer that has one. */
  datatype State = State(
    leases: set<(TransferId, nat)>,
    handlers: map<HandlerId, Handler>,
    layouts: map<TransferId, TransferCheckpoint>)

  /** File sizes of the known transfers. */
  type Transfers = map<TransferId, nat>

  datatype Action =
    | Acquire(id: HandlerId, transfer: TransferId, open: OpenRequest)
    | CheckLayout(id: HandlerId)
    | Record(id: HandlerId, offset: nat)
    | FindComplete(id: HandlerId)
    | RemoveLayout(id: HandlerId)
    | Release(id: HandlerId)

  function Init(): State { State({}, map[], map[]) }

  /**
   Opening up to the guard: refused opens and a refused acquire leave no trace. The guard is an
   object of the handler that got it, so only an acquiring handler ever gives a lease back.
   */
  ghost predicate StepAcquire(sizes: Transfers, s: State, id: HandlerId, transfer: TransferId, open: OpenRequest, s': State) {
    && id !in s.handlers
    && match CheckOpen(open)
       case Err(_) => s' == s
       case Ok(accepted) =>
         if transfer !in sizes || open.fileSizeBytes != sizes[transfer] then s' == s
         else if (transfer, accepted.laneIndex) in s.leases then s' == s
         else s' == s.(leases := s.leases + {(transfer, accepted.laneIndex)},
                       handlers := s.handlers[id := Handler(transfer, accepted, false, false)])
  }

  function LayoutFor(sizes: Transfers, s: State, h: Handler): TransferCheckpoint
    requires h.transfer in sizes && h.open.totalLanes > 0
  {
    if h.transfer in s.layouts then s.layouts[h.transfer]
    else NewCheckpoint(h.transfer, sizes[h.transfer], h.open.totalLanes)
  }

  /** A striped handler loads the checkpoint, creating it if there is none, and validates its layout. */
  ghost predicate StepCheckLayout(sizes: Transfers, s: State, id: HandlerId, s': State) {
    && id in s.handlers && !s.handlers[id].accepted && s.handlers[id].open.striped
    && s.handlers[id].transfer in sizes && s.handlers[id].open.totalLanes > 0
    && var h := s.handlers[id];
    && var c := LayoutFor(sizes, s, h);
    && var kept := s.(layouts := s.layouts[h.transfer := c]);
    && match ValidateLayout(c, sizes[h.transfer], h.open.totalLanes, h.open.rangeStart, h.open.rangeEndExclusive, h.open.laneIndex)
       case Err(_) => s' == Dropped(kept, id)
       case Ok(_) => s' == kept.(handlers := s.handlers[id := h.(accepted := true)])
  }

  /** A progress update: into whatever checkpoint is stored by then; an error ends the handler. */
  ghost predicate StepRecord(s: State, id: HandlerId, offset: nat, s': State) {
    && id in s.handlers && s.handlers[id].accepted && !s.handlers[id].finalizing
    && var t := s.handlers[id].transfer;
    && var (stored, r) := UpdateOffset(if t in s.layouts then Some(s.layouts[t]) else None, s.handlers[id].open.laneIndex, offset);
    && if stored.Some? && r.Ok? then s' == s.(layouts := s.layouts[t := stored.value]) else s' == Dropped(s, id)
  }

  /** A finalizing handler has found the checkpoint complete; it goes on to remove it. */
  ghost predicate StepFindComplete(s: State, id: HandlerId, s': State) {
    && id in s.handlers && s.handlers[id].accepted && !s.handlers[id].finalizing
    && s.handlers[id].transfer in s.layouts && AllLanesComplete(s.layouts[s.handlers[id].transfer])
    && s' == s.(handlers := s.handlers[id := s.handlers[id].(finalizing := true)])
  }

  /** The handler ends, in any way, and its guard is dropped. */
  function Dropped(s: State, id: HandlerId): State
    requires id in s.handlers
  {
    s.(leases := s.leases - {LeaseOf(s.handlers[id])}, handlers := s.handlers - {id})
  }

  ghost predicate Next(sizes: Transfers, s: State, a: Action, s': State) {
    match a
    case Acquire(id, transfer, open) => StepAcquire(sizes, s, id, transfer, open, s')
    case CheckLayout(id) => StepCheckLayout(sizes, s, id, s')
    case Record(id, offset) => StepRecord(s, id, offset, s')
    case FindComplete(id) => StepFindComplete(s, id, s')
    case RemoveLayout(id) =>
      && id in s.handlers && s.handlers[id].finalizing
      && s' == s.(layouts := s.layouts - {s.handlers[id].transfer}, handlers := s.handlers[id := s.handlers[id].(finalizing := false)])
    case Release(id) => id in s.handlers && s' == Dropped(s, id)
  }

  ghost predicate NextAt(sizes: Transfers, run: seq<State>, actions: seq<Action>, i: nat)
    requires i < |actions| < |run|
  {
    Next(sizes, run[i], actions[i], run[i + 1])
  }

  ghost predicate IsRun(sizes: Transfers, run: seq<State>, actions: seq<Action>) {
    && |run| == |actions| + 1
    && run[0] == Init()
    && forall i :: 0 <= i < |actions| ==> NextAt(sizes, run, actions, i)
  }

  // ---------------------------------------------------------------- leases and handlers

  function LeaseOf(h: Handler): (TransferId, nat) { (h.transfer, h.open.laneIndex) }

  /** The leases are the lanes of the live handlers, one handler for each. */
  ghost predicate LeaseInv(s: State) {
    && (forall id :: id in s.handlers ==> LeaseOf(s.handlers[id]) in s.leases)
    && (forall lease :: lease in s.leases ==> exists id :: id in s.handlers && LeaseOf(s.handlers[id]) == lease)
    && (forall i, j :: i in s.handlers && j in s.handlers && LeaseOf(s.handlers[i]) == LeaseOf(s.handlers[j]) ==> i == j)
  }

  /** Changing a handler, but not its lane. */
  lemma MarkKeepsLeases(s: State, id: HandlerId, h: Handler, s': State)
    requires LeaseInv(s) && id in s.handlers && LeaseOf(h) == LeaseOf(s.handlers[id])
    requires s'.leases == s.leases && s'.handlers == s.handlers[id := h]
    ensures LeaseInv(s')
  {
    assert forall i :: i in s'.handlers <==> i in s.handlers;
    assert forall i :: i in s'.handlers ==> LeaseOf(s'.handlers[i]) == LeaseOf(s.handlers[i]);
    forall lease | lease in s'.leases ensures exists i :: i in s'.handlers && LeaseOf(s'.handlers[i]) == lease {
      var i :| i in s.handlers && LeaseOf(s.handlers[i]) == lease;
      assert i in s'.handlers;
    }
  }

  lemma AddKeepsLeases(s: State, id: HandlerId, h: Handler, s': State)
    requires LeaseInv(s) && id !in s.handlers && LeaseOf(h) !in s.leases
    requires s'.leases == s.leases + {LeaseOf(h)} && s'.handlers == s.handlers[id := h]
    ensures LeaseInv(s')
  {
    assert s'.handlers[id] == h;
    assert forall i :: i in s.handlers ==> i in s'.handlers && s'.handlers[i] == s.handlers[i];
    forall lease | lease in s'.leases ensures exists i :: i in s'.handlers && LeaseOf(s'.handlers[i]) == lease {
      if lease in s.leases {
        var i :| i in s.handlers && LeaseOf(s.handlers[i]) == lease;
        assert i in s'.handlers;
      } else {
        assert id in s'.handlers;
      }
    }
  }

  lemma DropKeepsLeases(s: State, id: HandlerId, s': State)
    requires LeaseInv(s) && id in s.handlers
    requires s'.leases == s.leases - {LeaseOf(s.handlers[id])} && s'.handlers == s.handlers - {id}
    ensures LeaseInv(s')
  {
    forall lease | lease in s'.leases ensures exists i :: i in s'.handlers && LeaseOf(s'.handlers[i]) == lease {
      var i :| i in s.handlers && LeaseOf(s.handlers[i]) == lease;
      assert i in s'.handlers;
    }
  }

  lemma NextKeepsLeases(sizes: Transfers, s: State, a: Action, s': State)
    requires LeaseInv(s) && Next(sizes, s, a, s')
    ensures LeaseInv(s')
  {
    if s'.leases == s.leases && s'.handlers == s.handlers {
    } else if a.Acquire? {
      AddKeepsLeases(s, a.id, s'.handlers[a.id], s');
    } else if a.id in s'.handlers {
      MarkKeepsLeases(s, a.id, s'.handlers[a.id], s');
    } else {
      DropKeepsLeases(s, a.id, s');
    }
  }

  lemma {:induction false} RunKeepsLeases(sizes: Transfers, run: seq<State>, actions: seq<Action>, i: nat)
    requires IsRun(sizes, run, actions) && i < |run|
    ensures LeaseInv(run[i])
  {
    if i > 0 {
      RunKeepsLeases(sizes, run, actions, i - 1);
      assert NextAt(sizes, run, actions, i - 1);
      NextKeepsLeases(sizes, run[i - 1], actions[i - 1], run[i]);
    }
  }

  /** In every run the leases are exactly the lanes of the live handlers, one handler per lease. */
  lemma LeasesAreLiveHandlers(sizes: Transfers, run: seq<State>, actions: seq<Action>, i: nat)
    requires IsRun(sizes, run, actions) && i < |run|
    ensures run[i].leases == set id | id in run[i].handlers :: LeaseOf(run[i].handlers[id])
    ensures forall a, b :: a in run[i].handlers && b in run[i].handlers && a != b
              ==> LeaseOf(run[i].handlers[a]) != LeaseOf(run[i].handlers[b])
  {
    RunKeepsLeases(sizes, run, actions, i);
  }

  /** A refused acquire, and the end of another handler, leave a live handler's lease alone. */
  lemma OnlyTheHolderFrees(sizes: Transfers, run: seq<State>, actions: seq<Action>, i: nat, id: HandlerId)
    requires IsRun(sizes, run, actions) && i < |actions|
    requires id in run[i].handlers && actions[i].id != id
    ensures id in run[i + 1].handlers && run[i + 1].handlers[id] == run[i].handlers[id]
    ensures LeaseOf(run[i].handlers[id]) in run[i + 1].leases
  {
    RunKeepsLeases(sizes, run, actions, i);
    RunKeepsLeases(sizes, run, actions, i + 1);
    assert NextAt(sizes, run, actions, i);
  }

  /** A handler that fails the layout check, finds no checkpoint to update, or ends, holds nothing any more. */
  lemma EndedHandlersHoldNothing(sizes: Transfers, run: seq<State>, actions: seq<Action>, i: nat, id: HandlerId)
    requires IsRun(sizes, run, actions) && i < |actions| && id in run[i].handlers
    ensures id !in run[i + 1].handlers ==> LeaseOf(run[i].handlers[id]) !in run[i + 1].leases
    ensures actions[i] == Release(id) ==> id !in run[i + 1].handlers
    ensures actions[i] == CheckLayout(id) && id in run[i + 1].handlers ==> run[i + 1].handlers[id].accepted
    ensures actions[i].Record? && actions[i].id == id && run[i].handlers[id].transfer !in run[i].layouts ==> id !in run[i + 1].handlers
  {
    RunKeepsLeases(sizes, run, actions, i);
    assert NextAt(sizes, run, actions, i);
  }

  /** A handler removes the checkpoint only after it has found one of its transfer complete. */
  lemma {:induction false} FinalizingSawComplete(sizes: Transfers, run: seq<State>, actions: seq<Action>, i: nat, id: HandlerId)
    returns (j: nat)
    requires IsRun(sizes, run, actions) && i < |run| && id in run[i].handlers && run[i].handlers[id].finalizing
    ensures j < i && actions[j] == FindComplete(id) && run[i].handlers[id].transfer in run[j].layouts
    ensures AllLanesComplete(run[j].layouts[run[i].handlers[id].transfer])
  {
    assert NextAt(sizes, run, actions, i - 1);
    if actions[i - 1] == FindComplete(id) {
      j := i - 1;
    } else {
      j := FinalizingSawComplete(sizes, run, actions, i - 1, id);
    }
  }

  // ---------------------------------------------------------------- ranges

  /** An accepted handler has the range of its lane in the layout of the lane count that it named. */
  ghost predicate OwnsLane(sizes: Transfers, h: Handler) {
    && h.transfer in sizes && h.open.laneIndex < h.open.totalLanes
    && h.open.rangeStart == LaneStart(sizes[h.transfer], h.open.totalLanes, h.open.laneIndex)
    && h.open.rangeEndExclusive == LaneEnd(sizes[h.transfer], h.open.totalLanes, h.open.laneIndex)
    && h.open.rangeStart < h.open.rangeEndExclusive
  }

  ghost predicate RangeInv(sizes: Transfers, s: State) {
    && (forall t :: t in s.layouts ==> t in sizes && Canonical(s.layouts[t], sizes[t], s.layouts[t].totalLanes))
    && (forall id :: id in s.handlers ==> Opened(sizes, s.handlers[id]))
    && (forall id :: id in s.handlers && s.handlers[id].accepted ==> OwnsLane(sizes, s.handlers[id]) && s.handlers[id].open.striped)
  }

  /** What the checks of an open message leave. */
  ghost predicate Opened(sizes: Transfers, h: Handler) {
    && h.transfer in sizes
    && h.open.rangeStart < h.open.rangeEndExclusive <= sizes[h.transfer]
    && 1 <= h.open.totalLanes <= TRANSFER_LANES_MAX
    && (h.open.striped <==> h.open.totalLanes > 1 || h.open.rangeStart != 0 || h.open.rangeEndExclusive != sizes[h.transfer])
  }

  lemma ValidatedIsCanonicalLane(c: TransferCheckpoint, size: nat, lanes: nat, start: nat, end: nat, lane: nat)
    requires Canonical(c, size, c.totalLanes)
    requires ValidateLayout(c, size, lanes, start, end, lane).Ok?
    ensures lanes == c.totalLanes && lane < lanes
    ensures start == LaneStart(size, lanes, lane) && end == LaneEnd(size, lanes, lane)
  {
    var i := ValidateLayout(c, size, lanes, start, end, lane).value;
    assert CanonicalLane(c, i);
  }

  lemma CheckLayoutKeepsRanges(sizes: Transfers, s: State, id: HandlerId, s': State)
    requires RangeInv(sizes, s) && StepCheckLayout(sizes, s, id, s')
    ensures RangeInv(sizes, s')
  {
    var h := s.handlers[id];
    var c := LayoutFor(sizes, s, h);
    NewIsCanonical(h.transfer, sizes[h.transfer], h.open.totalLanes);
    if ValidateLayout(c, sizes[h.transfer], h.open.totalLanes, h.open.rangeStart, h.open.rangeEndExclusive, h.open.laneIndex).Ok? {
      ValidatedIsCanonicalLane(c, sizes[h.transfer], h.open.totalLanes, h.open.rangeStart, h.open.rangeEndExclusive, h.open.laneIndex);
    }
  }

  lemma RecordKeepsRanges(sizes: Transfers, s: State, id: HandlerId, offset: nat, s': State)
    requires RangeInv(sizes, s) && StepRecord(s, id, offset, s')
    ensures RangeInv(sizes, s')
  {
    var h := s.handlers[id];
    if h.transfer in s.layouts {
      var c := s.layouts[h.transfer];
      var found := FindLane(c.lanes, h.open.laneIndex);
      if found.Some? {
        RaisedStaysCanonical(c, sizes[h.transfer], c.totalLanes, found.value, offset);
      }
    }
  }

  lemma NextKeepsRanges(sizes: Transfers, s: State, a: Action, s': State)
    requires RangeInv(sizes, s) && Next(sizes, s, a, s')
    ensures RangeInv(sizes, s')
  {
    match a {
      case CheckLayout(id) => CheckLayoutKeepsRanges(sizes, s, id, s');
      case Record(id, offset) => RecordKeepsRanges(sizes, s, id, offset, s');
      case _ =>
    }
  }

  lemma {:induction false} RunKeepsRanges(sizes: Transfers, run: seq<State>, actions: seq<Action>, i: nat)
    requires IsRun(sizes, run, actions) && i < |run|
    ensures RangeInv(sizes, run[i])
  {
    if i > 0 {
      RunKeepsRanges(sizes, run, actions, i - 1);
      assert NextAt(sizes, run, actions, i - 1);
      NextKeepsRanges(sizes, run[i - 1], actions[i - 1], run[i]);
    }
  }

  // ---------------------------------------------------------------- when writers are disjoint

  /** Every open of the transfer names a lane count in `counts`; the server reads 0 as 1. */
  ghost predicate OnlyCounts(actions: seq<Action>, transfer: TransferId, counts: set<nat>) {
    forall i :: 0 <= i < |actions| && actions[i].Acquire? && actions[i].transfer == transfer
      ==> Max(actions[i].open.totalLanes, 1) in counts
  }

  /** Any two live accepted handlers of the transfer have disjoint ranges. */
  ghost predicate Disjoint(s: State, transfer: TransferId) {
    forall a, b :: a in s.handlers && b in s.handlers && a != b && Owner(s.handlers[a], transfer) && Owner(s.handlers[b], transfer)
      ==> Apart(s.handlers[a].open, s.handlers[b].open)
  }

  predicate Owner(h: Handler, transfer: TransferId) { h.transfer == transfer && h.accepted }

  predicate Apart(x: AcceptedOpen, y: AcceptedOpen) {
    x.rangeEndExclusive <= y.rangeStart || y.rangeEndExclusive <= x.rangeStart
  }

  ghost predicate CountsInv(s: State, transfer: TransferId, counts: set<nat>) {
    forall id :: id in s.handlers && s.handlers[id].transfer == transfer ==>
      s.handlers[id].open.totalLanes in counts
  }

  lemma {:induction false} RunKeepsCounts(sizes: Transfers, run: seq<State>, actions: seq<Action>, i: nat, transfer: TransferId, counts: set<nat>)
    requires IsRun(sizes, run, actions) && i < |run| && OnlyCounts(actions, transfer, counts)
    ensures CountsInv(run[i], transfer, counts)
  {
    if i > 0 {
      RunKeepsCounts(sizes, run, actions, i - 1, transfer, counts);
      assert NextAt(sizes, run, actions, i - 1);
    }
  }

  /** Lane counts that cut the file in the same way: beyond one lane per byte, more lanes are empty. */
  predicate SameLayout(size: nat, n: nat, m: nat) { Min(n, size) == Min(m, size) }

  lemma SameLayoutSameLanes(size: nat, n: nat, m: nat, lane: nat)
    requires n > 0 && m > 0 && SameLayout(size, n, m) && lane <= Min(n, size)
    ensures LaneStart(size, n, lane) == LaneStart(size, m, lane)
  {
    if n != m {
      OneBytePerLane(size, n, lane);
      OneBytePerLane(size, m, lane);
    }
  }

  /** With at least as many lanes as bytes, lane i is byte i. */
  lemma OneBytePerLane(size: nat, n: nat, lane: nat)
    requires n > 0 && n >= size && lane <= size
    ensures LaneStart(size, n, lane) == lane
  {
    if n == size {
      assert size / n == 1 && size % n == 0;
    } else {
      SmallDivision(size, n);
    }
  }

  lemma OwnedLaneIsNotEmpty(sizes: Transfers, h: Handler)
    requires OwnsLane(sizes, h)
    ensures h.open.laneIndex < Min(h.open.totalLanes, sizes[h.transfer])
  {
    var size, n := sizes[h.transfer], h.open.totalLanes;
    if n > size && h.open.laneIndex >= size {
      LaneStartsAscend(size, n, size, h.open.laneIndex);
      OneBytePerLane(size, n, size);
      LaneInsideFile(size, n, h.open.laneIndex);
    }
  }

  /** Two owners of different lanes, with lane counts that cut the file in the same way, are apart. */
  lemma OwnersApart(sizes: Transfers, x: Handler, y: Handler)
    requires OwnsLane(sizes, x) && OwnsLane(sizes, y) && x.transfer == y.transfer
    requires x.open.laneIndex != y.open.laneIndex
    requires SameLayout(sizes[x.transfer], x.open.totalLanes, y.open.totalLanes)
    ensures Apart(x.open, y.open)
  {
    var size, n, m := sizes[x.transfer], x.open.totalLanes, y.open.totalLanes;
    OwnedLaneIsNotEmpty(sizes, x);
    OwnedLaneIsNotEmpty(sizes, y);
    SameLayoutSameLanes(size, n, m, y.open.laneIndex);
    SameLayoutSameLanes(size, n, m, y.open.laneIndex + 1);
    LanesDisjoint(size, n, x.open.laneIndex, y.open.laneIndex);
  }

  /**
   Disjoint writers. If all striped opens of a transfer name lane counts that cut its file in the same
   way, in particular if they name one lane count, then in every run, removals included, any two live
   accepted handlers of it own disjoint ranges.
   */
  lemma WritersAreDisjoint(sizes: Transfers, run: seq<State>, actions: seq<Action>, i: nat, transfer: TransferId, counts: set<nat>)
    requires IsRun(sizes, run, actions) && i < |run| && transfer in sizes && OnlyCounts(actions, transfer, counts)
    requires OneLayout(sizes[transfer], counts)
    ensures Disjoint(run[i], transfer)
  {
    RunKeepsLeases(sizes, run, actions, i);
    RunKeepsRanges(sizes, run, actions, i);
    RunKeepsCounts(sizes, run, actions, i, transfer, counts);
    var hs := run[i].handlers;
    forall a, b | a in hs && b in hs && a != b && Owner(hs[a], transfer) && Owner(hs[b], transfer)
      ensures Apart(hs[a].open, hs[b].open)
    {
      assert LeaseOf(hs[a]) != LeaseOf(hs[b]);
      StripedHasTwoLanes(sizes, hs[a]);
      StripedHasTwoLanes(sizes, hs[b]);
      OwnersApart(sizes, hs[a], hs[b]);
    }
  }

  /** The lane counts that a striped handler can be accepted with all cut the file in the same way. */
  ghost predicate OneLayout(size: nat, counts: set<nat>) {
    forall n, m :: n in counts && m in counts && Striping(n) && Striping(m) ==> SameLayout(size, n, m)
  }

  predicate Striping(n: nat) { 2 <= n <= TRANSFER_LANES_MAX }

  /** The one lane of a single-lane layout is the whole file, and that open is not striped. */
  lemma StripedHasTwoLanes(sizes: Transfers, h: Handler)
    requires OwnsLane(sizes, h) && Opened(sizes, h) && h.open.striped
    ensures Striping(h.open.totalLanes)
  {
    if h.open.totalLanes == 1 {
      LayoutEnds(sizes[h.transfer], 1);
    }
  }

  // ---------------------------------------------------------------- two layouts overlap

  /** A state that runs can reach with only these lane counts for the transfer. */
  ghost predicate Comes(sizes: Transfers, transfer: TransferId, counts: set<nat>, s: State) {
    exists run, actions :: IsRun(sizes, run, actions) && OnlyCounts(actions, transfer, counts) && run[|actions|] == s
  }

  lemma ComesOn(sizes: Transfers, transfer: TransferId, counts: set<nat>, s: State, a: Action, t: State)
    requires Comes(sizes, transfer, counts, s) && Next(sizes, s, a, t)
    requires a.Acquire? && a.transfer == transfer ==> Max(a.open.totalLanes, 1) in counts
    ensures Comes(sizes, transfer, counts, t)
  {
    var run, actions :| IsRun(sizes, run, actions) && OnlyCounts(actions, transfer, counts) && run[|actions|] == s;
    var longer, more := run + [t], actions + [a];
    forall i | 0 <= i < |more| ensures NextAt(sizes, longer, more, i) {
      assert i < |actions| ==> NextAt(sizes, run, actions, i);
    }
    assert IsRun(sizes, longer, more) && OnlyCounts(more, transfer, counts) && longer[|more|] == t;
  }

  function Owning(size: nat, transfer: TransferId, lanes: nat, lane: nat): Handler
    requires lane < lanes
  {
    Handler(transfer, IntendedOpen(size, lanes, lane), true, false)
  }

  /** A client's handler opens a free lane and is accepted. */
  lemma OpensLane(sizes: Transfers, transfer: TransferId, counts: set<nat>, s: State, id: HandlerId, lanes: nat, lane: nat,
                  c: TransferCheckpoint) returns (s': State)
    requires Comes(sizes, transfer, counts, s) && transfer in sizes && lanes in counts && Striping(lanes) && lane < lanes
    requires LaneStart(sizes[transfer], lanes, lane) < LaneEnd(sizes[transfer], lanes, lane)
    requires id !in s.handlers && (transfer, lane) !in s.leases
    requires c == if transfer in s.layouts then s.layouts[transfer] else NewCheckpoint(transfer, sizes[transfer], lanes)
    requires Canonical(c, sizes[transfer], lanes)
    ensures Comes(sizes, transfer, counts, s')
    ensures s' == State(s.leases + {(transfer, lane)}, s.handlers[id := Owning(sizes[transfer], transfer, lanes, lane)], s.layouts[transfer := c])
  {
    var size := sizes[transfer];
    ClientOpenIsAccepted(size, lanes, lane);
    var waiting := Handler(transfer, IntendedOpen(size, lanes, lane), false, false);
    var acquired := s.(leases := s.leases + {(transfer, lane)}, handlers := s.handlers[id := waiting]);
    ComesOn(sizes, transfer, counts, s, Acquire(id, transfer, ClientOpen(size, lanes, lane)), acquired);
    CanonicalValidates(c, size, lanes, lane);
    s' := State(acquired.leases, acquired.handlers[id := waiting.(accepted := true)], s.layouts[transfer := c]);
    ComesOn(sizes, transfer, counts, acquired, CheckLayout(id), s');
    assert s'.handlers == s.handlers[id := Owning(size, transfer, lanes, lane)];
  }

  /** The lanes below k are open, accepted and recorded as complete, each by the handler of its number. */
  ghost predicate Filled(size: nat, transfer: TransferId, s: State, lanes: nat, k: nat) {
    && k <= lanes
    && (forall id: HandlerId :: id in s.handlers <==> id < k)
    && (forall id :: id in s.handlers ==> s.handlers[id] == Owning(size, transfer, lanes, id))
    && (forall lease: (TransferId, nat) :: lease in s.leases <==> lease.0 == transfer && lease.1 < k)
    && (transfer !in s.layouts <==> k == 0)
    && (k > 0 ==> Canonical(s.layouts[transfer], size, lanes)
                  && forall l :: 0 <= l < k ==> s.layouts[transfer].lanes[l].offset >= s.layouts[transfer].lanes[l].rangeEndExclusive)
  }

  /** A complete lane is recorded. */
  lemma RecordsEnd(sizes: Transfers, transfer: TransferId, counts: set<nat>, s: State, id: HandlerId, lanes: nat) returns (s': State)
    requires Comes(sizes, transfer, counts, s) && transfer in sizes && transfer in s.layouts && id < lanes
    requires Canonical(s.layouts[transfer], sizes[transfer], lanes)
    requires id in s.handlers && s.handlers[id] == Owning(sizes[transfer], transfer, lanes, id)
    ensures Comes(sizes, transfer, counts, s') && s'.leases == s.leases && s'.handlers == s.handlers
    ensures transfer in s'.layouts && Canonical(s'.layouts[transfer], sizes[transfer], lanes)
    ensures s'.layouts[transfer].lanes[id].offset >= s'.layouts[transfer].lanes[id].rangeEndExclusive
    ensures forall l :: 0 <= l < lanes && l != id ==> s'.layouts[transfer].lanes[l] == s.layouts[transfer].lanes[l]
  {
    var c, to := s.layouts[transfer], LaneEnd(sizes[transfer], lanes, id);
    UpdateRaisesOwnLane(c, sizes[transfer], lanes, id, to);
    RaisedStaysCanonical(c, sizes[transfer], lanes, id, to);
    assert CanonicalLane(c, id);
    s' := s.(layouts := s.layouts[transfer := Raised(c, id, to)]);
    ComesOn(sizes, transfer, counts, s, Record(id, to), s');
  }

  lemma FilledNext(size: nat, transfer: TransferId, s: State, s': State, lanes: nat, k: nat)
    requires 0 < k <= lanes && Filled(size, transfer, s, lanes, k - 1)
    requires s'.handlers == s.handlers[k - 1 := Owning(size, transfer, lanes, k - 1)]
    requires s'.leases == s.leases + {(transfer, k - 1)}
    requires transfer in s'.layouts && Canonical(s'.layouts[transfer], size, lanes)
    requires s'.layouts[transfer].lanes[k - 1].offset >= s'.layouts[transfer].lanes[k - 1].rangeEndExclusive
    requires k > 1 ==> forall l :: 0 <= l < k - 1 ==> s'.layouts[transfer].lanes[l] == s.layouts[transfer].lanes[l]
    ensures Filled(size, transfer, s', lanes, k)
  {
    forall id: HandlerId ensures id in s'.handlers <==> id < k {
      assert id in s.handlers <==> id < k - 1;
    }
    forall lease: (TransferId, nat) ensures lease in s'.leases <==> lease.0 == transfer && lease.1 < k {
      assert lease in s.leases <==> lease.0 == transfer && lease.1 < k - 1;
      assert lease == (lease.0, lease.1);
    }
  }

  /** The next lane is opened, accepted and recorded as complete. */
  lemma OpensAndRecords(sizes: Transfers, transfer: TransferId, counts: set<nat>, s: State, lanes: nat, lane: nat, c: TransferCheckpoint)
    returns (s': State)
    requires Comes(sizes, transfer, counts, s) && transfer in sizes && lanes in counts && Striping(lanes) && lane < lanes
    requires LaneStart(sizes[transfer], lanes, lane) < LaneEnd(sizes[transfer], lanes, lane)
    requires lane !in s.handlers && (transfer, lane) !in s.leases
    requires c == if transfer in s.layouts then s.layouts[transfer] else NewCheckpoint(transfer, sizes[transfer], lanes)
    requires Canonical(c, sizes[transfer], lanes)
    ensures Comes(sizes, transfer, counts, s')
    ensures s'.handlers == s.handlers[lane := Owning(sizes[transfer], transfer, lanes, lane)]
    ensures s'.leases == s.leases + {(transfer, lane)}
    ensures transfer in s'.layouts && Canonical(s'.layouts[transfer], sizes[transfer], lanes)
    ensures s'.layouts[transfer].lanes[lane].offset >= s'.layouts[transfer].lanes[lane].rangeEndExclusive
    ensures forall l :: 0 <= l < lanes && l != lane ==> s'.layouts[transfer].lanes[l] == c.lanes[l]
  {
    var begun := OpensLane(sizes, transfer, counts, s, lane, lanes, lane, c);
    s' := RecordsEnd(sizes, transfer, counts, begun, lane, lanes);
  }

  lemma FillsNext(sizes: Transfers, transfer: TransferId, counts: set<nat>, s: State, lanes: nat, k: nat) returns (s': State)
    requires transfer in sizes && lanes in counts && Striping(lanes) && 0 < k <= lanes <= sizes[transfer]
    requires Comes(sizes, transfer, counts, s) && Filled(sizes[transfer], transfer, s, lanes, k - 1)
    ensures Comes(sizes, transfer, counts, s') && Filled(sizes[transfer], transfer, s', lanes, k)
  {
    var size := sizes[transfer];
    LanesNonEmptyIff(size, lanes);
    NewIsCanonical(transfer, size, lanes);
    var c := if transfer in s.layouts then s.layouts[transfer] else NewCheckpoint(transfer, size, lanes);
    s' := OpensAndRecords(sizes, transfer, counts, s, lanes, k - 1, c);
    FilledNext(size, transfer, s, s', lanes, k);
  }

  lemma {:induction false} FillsLanes(sizes: Transfers, transfer: TransferId, counts: set<nat>, lanes: nat, k: nat) returns (s: State)
    requires transfer in sizes && lanes in counts && Striping(lanes) && k <= lanes <= sizes[transfer]
    ensures Comes(sizes, transfer, counts, s) && Filled(sizes[transfer], transfer, s, lanes, k)
  {
    var size := sizes[transfer];
    if k == 0 {
      s := Init();
      assert forall id: HandlerId :: id !in s.handlers;
      assert IsRun(sizes, [s], []) && OnlyCounts([], transfer, counts) && [s][0] == s;
    } else {
      var before := FillsLanes(sizes, transfer, counts, lanes, k - 1);
      s := FillsNext(sizes, transfer, counts, before, lanes, k);
    }
  }

  /** A complete checkpoint is found and removed by the handler of lane 0; all handlers are still live. */
  lemma RemovesLayout(sizes: Transfers, transfer: TransferId, counts: set<nat>, s: State, lanes: nat) returns (s': State)
    requires Comes(sizes, transfer, counts, s) && transfer in sizes && Striping(lanes)
    requires Filled(sizes[transfer], transfer, s, lanes, lanes)
    ensures Comes(sizes, transfer, counts, s') && s'.leases == s.leases && s'.handlers == s.handlers && transfer !in s'.layouts
  {
    assert AllLanesComplete(s.layouts[transfer]);
    var h := s.handlers[0];
    var found := s.(handlers := s.handlers[0 := h.(finalizing := true)]);
    ComesOn(sizes, transfer, counts, s, FindComplete(0), found);
    s' := found.(layouts := found.layouts - {transfer}, handlers := found.handlers[0 := h]);
    ComesOn(sizes, transfer, counts, found, RemoveLayout(0), s');
    assert s'.handlers == s.handlers;
  }

  /** The last lane that is not empty ends at the end of the file. */
  lemma LastLane(size: nat, lanes: nat)
    requires lanes > 0 && size > 0
    ensures Min(lanes, size) - 1 >= 0
    ensures var last: nat := Min(lanes, size) - 1; LaneStart(size, lanes, last) < LaneEnd(size, lanes, last) == size
  {
    if lanes <= size {
      LanesNonEmptyIff(size, lanes);
      LayoutEnds(size, lanes);
    } else {
      OneBytePerLane(size, lanes, size - 1);
      OneBytePerLane(size, lanes, size);
    }
  }

  /**
   Overlap. For any two lane counts that cut a file differently there is a run, by two sessions of
   honest clients, in which two live accepted handlers of the transfer both own its last byte: all
   lanes of the smaller count arrive, one of them finalizes and removes the checkpoint while the
   others are still live, and an open with the larger count creates its own.
   */
  lemma TwoLayoutsOverlap(sizes: Transfers, transfer: TransferId, n: nat, m: nat)
    returns (run: seq<State>, actions: seq<Action>)
    requires transfer in sizes && Striping(n) && Striping(m) && Min(n, sizes[transfer]) < Min(m, sizes[transfer])
    ensures IsRun(sizes, run, actions) && OnlyCounts(actions, transfer, {n, m}) && !Disjoint(run[|actions|], transfer)
  {
    var size, counts := sizes[transfer], {n, m};
    var lane: nat := Min(m, size) - 1;
    LastLane(size, n);
    LastLane(size, m);
    NewIsCanonical(transfer, size, m);
    var filled := FillsLanes(sizes, transfer, counts, n, n);
    var removed := RemovesLayout(sizes, transfer, counts, filled, n);
    var s := OpensLane(sizes, transfer, counts, removed, n, m, lane, NewCheckpoint(transfer, size, m));
    assert s.handlers[n - 1] == Owning(size, transfer, n, n - 1) && s.handlers[n] == Owning(size, transfer, m, lane);
    assert !Apart(s.handlers[n - 1].open, s.handlers[n].open);
    run, actions :| IsRun(sizes, run, actions) && OnlyCounts(actions, transfer, counts) && run[|actions|] == s;
  }

  ghost predicate AlwaysDisjoint(sizes: Transfers, transfer: TransferId, counts: set<nat>) {
    forall run, actions | IsRun(sizes, run, actions) && OnlyCounts(actions, transfer, counts) :: Disjoint(run[|actions|], transfer)
  }

  /**
   The exact condition. Whatever else happens, live accepted handlers of a transfer own disjoint ranges
   in every run, if and only if the lane counts its opens may name cut the file in one way.
   */
  lemma DisjointIff(sizes: Transfers, transfer: TransferId, counts: set<nat>)
    requires transfer in sizes
    ensures AlwaysDisjoint(sizes, transfer, counts) <==> OneLayout(sizes[transfer], counts)
  {
    if OneLayout(sizes[transfer], counts) {
      forall run, actions | IsRun(sizes, run, actions) && OnlyCounts(actions, transfer, counts) ensures Disjoint(run[|actions|], transfer) {
        WritersAreDisjoint(sizes, run, actions, |actions|, transfer, counts);
      }
    } else {
      var n, m :| n in counts && m in counts && Striping(n) && Striping(m) && !SameLayout(sizes[transfer], n, m);
      var run, actions;
      if Min(n, sizes[transfer]) < Min(m, sizes[transfer]) {
        run, actions := TwoLayoutsOverlap(sizes, transfer, n, m);
      } else {
        run, actions := TwoLayoutsOverlap(sizes, transfer, m, n);
      }
      assert OnlyCounts(actions, transfer, counts);
    }
  }
}
