/** The runtime policy file: recommended runtime settings (crates/metra-client/src/runtime_policy.rs). */
module RuntimePolicy {
  import opened Common
  import opened PolicyStore

  const RUNTIME_POLICY_SCHEMA_VERSION: nat := 1

  datatype RuntimeAdvice = RuntimeAdvice(
    recommendedProfile: string, effectiveIoChunkBytes: nat, fileReadPipelineDepth: nat,
    source: string, p50Gbps: real, p95Gbps: real)

  type RuntimePolicyEntry = Entry<RuntimeAdvice>

  datatype RuntimePolicyStore = RuntimePolicyStore(schemaVersion: nat, updatedAt: int, entries: seq<RuntimePolicyEntry>)

  datatype PolicyError = EmptyProfile | NoIoChunk | NoPipelineDepth

  /** The characters that `trim` removes: those with the Unicode property White_Space. */
  predicate IsWhitespace(c: char) {
    var n := c as int;
    || 9 <= n <= 13 || n == 32 || n == 0x85 || n == 0xA0 || n == 0x1680 || 0x2000 <= n <= 0x200A
    || n == 0x2028 || n == 0x2029 || n == 0x202F || n == 0x205F || n == 0x3000
  }

  predicate OnlyWhitespace(s: string) { forall i :: 0 <= i < |s| ==> IsWhitespace(s[i]) }

  function TrimStart(s: string): string {
    if s != "" && IsWhitespace(s[0]) then TrimStart(s[1..]) else s
  }

  function TrimEnd(s: string): string {
    if s != "" && IsWhitespace(s[|s| - 1]) then TrimEnd(s[..|s| - 1]) else s
  }

  function Trim(s: string): string { TrimEnd(TrimStart(s)) }

  lemma {:induction false} TrimStartEmptyIff(s: string)
    ensures TrimStart(s) == "" <==> OnlyWhitespace(s)
    ensures TrimStart(s) == "" || !IsWhitespace(TrimStart(s)[0])
  {
    if s != "" && IsWhitespace(s[0]) {
      TrimStartEmptyIff(s[1..]);
      assert forall i :: 0 < i < |s| ==> s[i] == s[1..][i - 1];
    }
  }

  lemma {:induction false} TrimEndKeepsHead(s: string)
    requires s != "" && !IsWhitespace(s[0])
    ensures TrimEnd(s) != ""
  {
    if IsWhitespace(s[|s| - 1]) {
      TrimEndKeepsHead(s[..|s| - 1]);
    }
  }

  /** A profile name is refused exactly when it holds nothing but white space. */
  lemma TrimEmptyIff(s: string)
    ensures Trim(s) == "" <==> OnlyWhitespace(s)
  {
    TrimStartEmptyIff(s);
    if TrimStart(s) != "" {
      TrimEndKeepsHead(TrimStart(s));
    }
  }

  function IsComplete(advice: RuntimeAdvice): bool {
    Trim(advice.recommendedProfile) != "" && advice.effectiveIoChunkBytes > 0 && advice.fileReadPipelineDepth > 0
  }

  /** The file; `history` is the accepted upserts since it did not exist. */
  class RuntimePolicyFile {
    var store: Option<RuntimePolicyStore>
    ghost var history: seq<RuntimePolicyEntry>

    ghost predicate Valid()
      reads this
    {
      && (forall i :: 0 <= i < |history| ==> IsComplete(history[i].advice))
      && (store.None? <==> history == [])
      && (store.Some? ==> store.value.schemaVersion == RUNTIME_POLICY_SCHEMA_VERSION
                          && store.value.entries == AfterUpserts(history))
    }

    function Entries(): seq<RuntimePolicyEntry>
      reads this
    {
      if store.Some? then store.value.entries else []
    }

    constructor ()
      ensures Valid() && store == None && history == []
    {
      store, history := None, [];
    }

    /** On any contents of the file, one upsert; from no file at all, the last-writer-wins map. */
    method Upsert(entry: RuntimePolicyEntry, now: int) returns (r: Result<(), PolicyError>)
      modifies this
      ensures old(Valid()) ==> Valid()
      ensures r == Err(EmptyProfile) <==> OnlyWhitespace(entry.advice.recommendedProfile)
      ensures r == Err(NoIoChunk) <==>
              !OnlyWhitespace(entry.advice.recommendedProfile) && entry.advice.effectiveIoChunkBytes == 0
      ensures r == Err(NoPipelineDepth) <==>
              !OnlyWhitespace(entry.advice.recommendedProfile) && entry.advice.effectiveIoChunkBytes > 0
              && entry.advice.fileReadPipelineDepth == 0
      ensures r.Ok? <==> IsComplete(entry.advice)
      ensures r.Err? ==> store == old(store) && history == old(history)
      ensures r.Ok? ==> history == old(history) + [entry]
      ensures r.Ok? ==> store == Some(RuntimePolicyStore(RUNTIME_POLICY_SCHEMA_VERSION, now, Upserted(old(Entries()), entry)))
      ensures r.Ok? && old(Valid()) ==> Represents(Entries(), LastWriters(old(history))[entry.profile := entry])
    {
      TrimEmptyIff(entry.advice.recommendedProfile);
      if Trim(entry.advice.recommendedProfile) == "" {
        return Err(EmptyProfile);
      }
      if entry.advice.effectiveIoChunkBytes == 0 {
        return Err(NoIoChunk);
      }
      if entry.advice.fileReadPipelineDepth == 0 {
        return Err(NoPipelineDepth);
      }
      var loaded := if store.Some? then store.value else RuntimePolicyStore(RUNTIME_POLICY_SCHEMA_VERSION, now, []);
      loaded := loaded.(schemaVersion := RUNTIME_POLICY_SCHEMA_VERSION, updatedAt := now);
      var updated := UpsertInto(loaded.entries, entry);
      history := history + [entry];
      store := Some(loaded.(entries := updated));
      assert history[..|history| - 1] == old(history);
      StoreIsLastWriterWins(history);
      r := Ok(());
    }

    /** What the client consults before a send: nothing without a file, else the nearest entry. */
    method Consult(requested: Profile) returns (s: Option<Selection<RuntimeAdvice>>)
      ensures s == Select(IsComplete, Entries(), requested)
      ensures Valid() ==> Answers(IsComplete, LastWriters(history), requested, s)
    {
      s := if store.None? then None else Select(IsComplete, store.value.entries, requested);
      if store.Some? && Valid() {
        SelectsFromMap(IsComplete, history, requested);
      }
    }
  }
}
