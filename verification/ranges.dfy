/**
 How a file of N bytes is cut into lanes. The client and the server each carry their own copy of
 the same loop (crates/metra-client/src/transfer.rs and crates/metra-server/src/quic.rs); both are
 this one method.
 */
module Ranges {
  import opened Common

  /** First byte of a lane, in closed form; LaneStart(n, k, k) is the end of the last lane. */
  function LaneStart(fileSize: nat, lanes: nat, lane: nat): (start: nat)
    requires lanes > 0
  {
    lane * (fileSize / lanes) + Min(lane, fileSize % lanes)
  }

  function LaneEnd(fileSize: nat, lanes: nat, lane: nat): nat
    requires lanes > 0
  {
    LaneStart(fileSize, lanes, lane + 1)
  }

  lemma LaneLength(fileSize: nat, lanes: nat, lane: nat)
    requires lanes > 0
    ensures LaneEnd(fileSize, lanes, lane)
         == LaneStart(fileSize, lanes, lane) + fileSize / lanes + (if lane < fileSize % lanes then 1 else 0)
  {
    var base := fileSize / lanes;
    assert (lane + 1) * base == lane * base + base;
  }

  lemma LayoutEnds(fileSize: nat, lanes: nat)
    requires lanes > 0
    ensures LaneStart(fileSize, lanes, 0) == 0
    ensures LaneStart(fileSize, lanes, lanes) == fileSize
  {
    assert lanes * (fileSize / lanes) + fileSize % lanes == fileSize;
  }

  lemma {:induction false} LaneStartsAscend(fileSize: nat, lanes: nat, i: nat, j: nat)
    requires lanes > 0 && i <= j
    ensures LaneStart(fileSize, lanes, i) <= LaneStart(fileSize, lanes, j)
    decreases j - i
  {
    if i < j {
      LaneLength(fileSize, lanes, i);
      LaneStartsAscend(fileSize, lanes, i + 1, j);
    }
  }

  /** Every lane lies inside the file. */
  lemma LaneInsideFile(fileSize: nat, lanes: nat, lane: nat)
    requires lane < lanes
    ensures LaneStart(fileSize, lanes, lane) <= LaneEnd(fileSize, lanes, lane) <= fileSize
  {
    LaneStartsAscend(fileSize, lanes, lane, lane + 1);
    LaneStartsAscend(fileSize, lanes, lane + 1, lanes);
    LayoutEnds(fileSize, lanes);
  }

  /** The lane loop of both sides. All arithmetic is 64-bit: the verifier checks that nothing wraps. */
  method SplitRanges(fileSizeBytes: u64, lanes: u32) returns (ranges: seq<(u64, u64)>)
    requires lanes > 0
    ensures |ranges| == lanes as int
    ensures forall i :: 0 <= i < |ranges| ==>
      && ranges[i].0 as int == LaneStart(fileSizeBytes as int, lanes as int, i)
      && ranges[i].1 as int == LaneEnd(fileSizeBytes as int, lanes as int, i)
  {
    var base := fileSizeBytes / (lanes as u64);
    var remainder := fileSizeBytes % (lanes as u64);
    ranges := [];
    var start: u64 := 0;
    var lane: u32 := 0;
    LayoutEnds(fileSizeBytes as int, lanes as int);
    while lane < lanes
      invariant lane <= lanes
      invariant |ranges| == lane as int
      invariant start as int == LaneStart(fileSizeBytes as int, lanes as int, lane as int)
      invariant forall i :: 0 <= i < |ranges| ==>
        && ranges[i].0 as int == LaneStart(fileSizeBytes as int, lanes as int, i)
        && ranges[i].1 as int == LaneEnd(fileSizeBytes as int, lanes as int, i)
    {
      LaneLength(fileSizeBytes as int, lanes as int, lane as int);
      LaneInsideFile(fileSizeBytes as int, lanes as int, lane as int);
      var laneLen := base + (if (lane as u64) < remainder then 1 else 0);
      var end := start + laneLen;
      ranges := ranges + [(start, end)];
      start := end;
      lane := lane + 1;
    }
  }

  ghost predicate InLane(fileSize: nat, lanes: nat, lane: nat, p: nat)
    requires lanes > 0
  {
    LaneStart(fileSize, lanes, lane) <= p < LaneEnd(fileSize, lanes, lane)
  }

  /** The lanes are a partition of the file: each byte belongs to exactly one of them. */
  lemma LanesPartitionFile(fileSize: nat, lanes: nat, p: nat) returns (owner: nat)
    requires lanes > 0 && p < fileSize
    ensures owner < lanes && InLane(fileSize, lanes, owner, p)
    ensures forall i: nat :: i < lanes && InLane(fileSize, lanes, i, p) ==> i == owner
  {
    LayoutEnds(fileSize, lanes);
    owner := OwnerBelow(fileSize, lanes, p, lanes);
    forall i: nat | i < lanes && InLane(fileSize, lanes, i, p) ensures i == owner {
      if i < owner {
        LaneStartsAscend(fileSize, lanes, i + 1, owner);
      } else if owner < i {
        LaneStartsAscend(fileSize, lanes, owner + 1, i);
      }
    }
  }

  lemma {:induction false} OwnerBelow(fileSize: nat, lanes: nat, p: nat, bound: nat) returns (owner: nat)
    requires lanes > 0 && p < LaneStart(fileSize, lanes, bound)
    ensures owner < bound && InLane(fileSize, lanes, owner, p)
  {
    assert bound > 0 by { LayoutEnds(fileSize, lanes); }
    if LaneStart(fileSize, lanes, bound - 1) <= p {
      owner := bound - 1;
    } else {
      owner := OwnerBelow(fileSize, lanes, p, bound - 1);
    }
  }

  /** Bytes of different lanes never meet. */
  lemma LanesDisjoint(fileSize: nat, lanes: nat, i: nat, j: nat)
    requires i < lanes && j < lanes && i != j
    ensures LaneEnd(fileSize, lanes, i) <= LaneStart(fileSize, lanes, j)
         || LaneEnd(fileSize, lanes, j) <= LaneStart(fileSize, lanes, i)
  {
    if i < j {
      LaneStartsAscend(fileSize, lanes, i + 1, j);
    } else {
      LaneStartsAscend(fileSize, lanes, j + 1, i);
    }
  }

  /** Lane lengths differ by at most one byte, longer lanes first. */
  lemma LanesBalanced(fileSize: nat, lanes: nat, i: nat, j: nat)
    requires i <= j < lanes
    ensures var li := LaneEnd(fileSize, lanes, i) - LaneStart(fileSize, lanes, i);
            var lj := LaneEnd(fileSize, lanes, j) - LaneStart(fileSize, lanes, j);
            lj <= li <= lj + 1
  {
    LaneLength(fileSize, lanes, i);
    LaneLength(fileSize, lanes, j);
  }

  /** No lane is empty exactly when there are at least as many bytes as lanes. */
  lemma LanesNonEmptyIff(fileSize: nat, lanes: nat)
    requires lanes > 0
    ensures (forall i: nat :: i < lanes ==> LaneStart(fileSize, lanes, i) < LaneEnd(fileSize, lanes, i))
       <==> lanes <= fileSize
  {
    forall i: nat | i < lanes
      ensures LaneEnd(fileSize, lanes, i)
           == LaneStart(fileSize, lanes, i) + fileSize / lanes + (if i < fileSize % lanes then 1 else 0)
    {
      LaneLength(fileSize, lanes, i);
    }
    if lanes <= fileSize {
      assert fileSize / lanes >= 1;
    } else {
      assert fileSize / lanes == 0 && fileSize % lanes == fileSize by { SmallDivision(fileSize, lanes); }
      assert LaneStart(fileSize, lanes, lanes - 1) == LaneEnd(fileSize, lanes, lanes - 1);
    }
  }

  lemma SmallDivision(a: nat, b: nat)
    requires a < b
    ensures a / b == 0 && a % b == a
  {
  }
}
