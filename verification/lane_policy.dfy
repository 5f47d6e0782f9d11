/** The lane policy file: recommended lane counts (crates/metra-client/src/lane_policy.rs). */
module LanePolicy {
  import opened Common
  import opened PolicyStore

  const LANE_POLICY_SCHEMA_VERSION: nat := 1

  datatype LaneAdvice = LaneAdvice(recommendedLanes: nat, source: string, p50Gbps: real, p95Gbps: real)

  type LanePolicyEntry = Entry<LaneAdvice>

  datatype LanePolicyStore = LanePolicyStore(schemaVersion: nat, updatedAt: int, entries: seq<LanePolicyEntry>)

  datatype PolicyError = NoLanesRecommended

  function HasLanes(advice: LaneAdvice): bool { advice.recommendedLanes > 0 }

  /** The file; `history` is the accepted upserts since it did not exist. */
  class LanePolicyFile {
    var store: Option<LanePolicyStore>
    ghost var history: seq<LanePolicyEntry>

    ghost predicate Valid()
      reads this
    {
      && (forall i :: 0 <= i < |history| ==> HasLanes(history[i].advice))
      && (store.None? <==> history == [])
      && (store.Some? ==> store.value.schemaVersion == LANE_POLICY_SCHEMA_VERSION
                          && store.value.entries == AfterUpserts(history))
    }

    function Entries(): seq<LanePolicyEntry>
      reads this
    {
      if store.Some? then store.value.entries else []
    }

    constructor ()
      ensures Valid() && store == None && history == []
    {
      store, history := None, [];
    }

    /** On any contents of the file, one upsert; from no file at all, the last-writer-wins map. */
    method Upsert(entry: LanePolicyEntry, now: int) returns (r: Result<(), PolicyError>)
      modifies this
      ensures old(Valid()) ==> Valid()
      ensures r.Ok? <==> entry.advice.recommendedLanes != 0
      ensures r.Err? ==> store == old(store) && history == old(history)
      ensures r.Ok? ==> history == old(history) + [entry]
      ensures r.Ok? ==> store == Some(LanePolicyStore(LANE_POLICY_SCHEMA_VERSION, now, Upserted(old(Entries()), entry)))
      ensures r.Ok? && old(Valid()) ==> Represents(Entries(), LastWriters(old(history))[entry.profile := entry])
    {
      if entry.advice.recommendedLanes == 0 {
        return Err(NoLanesRecommended);
      }
      var loaded := if store.Some? then store.value else LanePolicyStore(LANE_POLICY_SCHEMA_VERSION, now, []);
      loaded := loaded.(schemaVersion := LANE_POLICY_SCHEMA_VERSION, updatedAt := now);
      var updated := UpsertInto(loaded.entries, entry);
      history := history + [entry];
      store := Some(loaded.(entries := updated));
      assert history[..|history| - 1] == old(history);
      StoreIsLastWriterWins(history);
      r := Ok(());
    }

    /** What the client consults before a send: nothing without a file, else the nearest entry. */
    method Consult(requested: Profile) returns (s: Option<Selection<LaneAdvice>>)
      ensures s == Select(HasLanes, Entries(), requested)
      ensures Valid() ==> Answers(HasLanes, LastWriters(history), requested, s)
    {
      s := if store.None? then None else Select(HasLanes, store.value.entries, requested);
      if store.Some? && Valid() {
        SelectsFromMap(HasLanes, history, requested);
      }
    }
  }
}
