/**
 The shared server state: lane writer leases, per-transfer locks and the transfer table
 (crates/metra-server/src/state.rs, crates/metra-server/src/quic.rs).
 */
module AppState {
  import opened Common
  import opened SessionReport

  type TransferId = nat

  datatype TransferSummary = TransferSummary(fileSizeBytes: nat, status: TransferStatus, bytesTransferred: nat)

  /** A lock is known by its identity. */
  class Lock {
    constructor () {}
  }

  class State {
    var activeLaneWriters: set<(TransferId, nat)>
    var finalizeLocks: map<TransferId, Lock>
    var checkpointLocks: map<TransferId, Lock>
    var transfers: map<TransferId, TransferSummary>

    constructor (transfers: map<TransferId, TransferSummary>)
      ensures this.transfers == transfers && activeLaneWriters == {}
      ensures finalizeLocks == map[] && checkpointLocks == map[]
    {
      this.transfers, activeLaneWriters := transfers, {};
      finalizeLocks, checkpointLocks := map[], map[];
    }

    /** Inserts the lease; false, and no change at all, when it was already held. */
    method TryAcquireLaneWriter(transfer: TransferId, lane: nat) returns (acquired: bool)
      modifies this`activeLaneWriters
      ensures acquired <==> (transfer, lane) !in old(activeLaneWriters)
      ensures activeLaneWriters == old(activeLaneWriters) + {(transfer, lane)}
      ensures !acquired ==> activeLaneWriters == old(activeLaneWriters)
    {
      acquired := (transfer, lane) !in activeLaneWriters;
      activeLaneWriters := activeLaneWriters + {(transfer, lane)};
    }

    method ReleaseLaneWriter(transfer: TransferId, lane: nat)
      modifies this`activeLaneWriters
      ensures activeLaneWriters == old(activeLaneWriters) - {(transfer, lane)}
    {
      activeLaneWriters := activeLaneWriters - {(transfer, lane)};
    }

    /** The lock of the transfer; the same one until the locks of the transfer are cleared. */
    method FinalizeLockFor(transfer: TransferId) returns (lock: Lock)
      modifies this`finalizeLocks
      ensures finalizeLocks == old(finalizeLocks)[transfer := lock]
      ensures if transfer in old(finalizeLocks) then lock == old(finalizeLocks)[transfer] else fresh(lock)
    {
      if transfer in finalizeLocks {
        lock := finalizeLocks[transfer];
      } else {
        lock := new Lock();
        finalizeLocks := finalizeLocks[transfer := lock];
      }
    }

    method CheckpointLockFor(transfer: TransferId) returns (lock: Lock)
      modifies this`checkpointLocks
      ensures checkpointLocks == old(checkpointLocks)[transfer := lock]
      ensures if transfer in old(checkpointLocks) then lock == old(checkpointLocks)[transfer] else fresh(lock)
    {
      if transfer in checkpointLocks {
        lock := checkpointLocks[transfer];
      } else {
        lock := new Lock();
        checkpointLocks := checkpointLocks[transfer := lock];
      }
    }

    /** Forgets the locks of one transfer: whoever asks next gets new ones. */
    method ClearTransferLocks(transfer: TransferId)
      modifies this`finalizeLocks, this`checkpointLocks
      ensures finalizeLocks == old(finalizeLocks) - {transfer}
      ensures checkpointLocks == old(checkpointLocks) - {transfer}
    {
      finalizeLocks := finalizeLocks - {transfer};
      checkpointLocks := checkpointLocks - {transfer};
    }

    /** Sets status and counter of a known transfer; a terminal status of a known one drops its locks. */
    method SetTransferStatus(transfer: TransferId, status: TransferStatus, bytes: nat)
      modifies this`transfers, this`finalizeLocks, this`checkpointLocks
      ensures transfer !in old(transfers) ==>
        transfers == old(transfers) && finalizeLocks == old(finalizeLocks) && checkpointLocks == old(checkpointLocks)
      ensures transfer in old(transfers) ==>
        var size := old(transfers)[transfer].fileSizeBytes;
        transfers == old(transfers)[transfer := TransferSummary(size, status, Min(bytes, size))]
      ensures transfer in old(transfers) ==>
        var gone := if status.Completed? || status.Failed? then {transfer} else {};
        finalizeLocks == old(finalizeLocks) - gone && checkpointLocks == old(checkpointLocks) - gone
    {
      var terminal := false;
      if transfer in transfers {
        var size := transfers[transfer].fileSizeBytes;
        transfers := transfers[transfer := TransferSummary(size, status, Min(bytes, size))];
        terminal := status.Completed? || status.Failed?;
      }
      if terminal {
        ClearTransferLocks(transfer);
      }
    }
  }
}
