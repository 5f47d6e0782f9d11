/**
 The policy store that the client keeps twice, for lanes and for runtime settings: a sorted list of
 tuned entries, one per workload profile, and the selection of the entry nearest to a requested
 profile (crates/metra-client/src/lane_policy.rs, crates/metra-client/src/runtime_policy.rs).
 `width` is the profile's concurrency in the one store and its lane count in the other.
 */
module PolicyStore {
  import opened Common
  import opened Sorting

  datatype Profile = Profile(sizeGib: nat, width: nat, ioChunkBytes: nat, noDisk: bool)

  /** What was tuned (`advice`) for a profile, and when; times are opaque, ordered values. */
  datatype Entry<+V> = Entry(profile: Profile, advice: V, tunedAt: int)

  datatype Selection<+V> = Selection(entry: Entry<V>, exactProfileMatch: bool)

  datatype Ordering = Less | Equal | Greater

  function Cmp(a: int, b: int): Ordering {
    if a < b then Less else if a == b then Equal else Greater
  }

  function Then(first: Ordering, second: Ordering): Ordering {
    if first.Equal? then second else first
  }

  function Bit(b: bool): nat { if b then 1 else 0 }

  function AbsDiff(a: nat, b: nat): nat { if a < b then b - a else a - b }

  // ---------------------------------------------------------------- upsert

  function CompareProfiles(a: Profile, b: Profile): Ordering {
    Then(Cmp(Bit(a.noDisk), Bit(b.noDisk)),
         Then(Cmp(a.width, b.width), Then(Cmp(a.sizeGib, b.sizeGib), Cmp(a.ioChunkBytes, b.ioChunkBytes))))
  }

  function CompareEntries<V>(left: Entry<V>, right: Entry<V>): Ordering {
    Then(CompareProfiles(left.profile, right.profile), Cmp(right.tunedAt, left.tunedAt))
  }

  function Before<V>(left: Entry<V>, right: Entry<V>): bool { !CompareEntries(left, right).Greater? }

  /** Index of the first entry for a profile, or the length of the list. */
  function FindProfile<V>(entries: seq<Entry<V>>, p: Profile): (i: nat)
    ensures i <= |entries|
    ensures i < |entries| ==> entries[i].profile == p
    ensures forall j :: 0 <= j < i ==> entries[j].profile != p
  {
    if entries == [] || entries[0].profile == p then 0 else 1 + FindProfile(entries[1..], p)
  }

  function Replaced<V>(entries: seq<Entry<V>>, entry: Entry<V>): seq<Entry<V>> {
    var i := FindProfile(entries, entry.profile);
    if i < |entries| then entries[i := entry] else entries + [entry]
  }

  function Upserted<V>(entries: seq<Entry<V>>, entry: Entry<V>): seq<Entry<V>> {
    SortBy(Before, Replaced(entries, entry))
  }

  /** The update of the list as both stores run it; the sort is the library's. */
  method UpsertInto<V>(entries: seq<Entry<V>>, entry: Entry<V>) returns (updated: seq<Entry<V>>)
    ensures updated == Upserted(entries, entry)
  {
    var i := 0;
    while i < |entries| && entries[i].profile != entry.profile
      invariant 0 <= i <= |entries|
      invariant forall j :: 0 <= j < i ==> entries[j].profile != entry.profile
    {
      i := i + 1;
    }
    assert i == FindProfile(entries, entry.profile);
    if i < |entries| {
      updated := entries[i := entry];
    } else {
      updated := entries + [entry];
    }
    updated := SortBy(Before, updated);
  }

  // ---------------------------------------------------------------- select

  function MatchKey(p: Profile, requested: Profile): (nat, nat, nat, nat) {
    (Bit(p.noDisk != requested.noDisk), AbsDiff(p.width, requested.width),
     AbsDiff(p.sizeGib, requested.sizeGib), AbsDiff(p.ioChunkBytes, requested.ioChunkBytes))
  }

  function CompareKeys(a: (nat, nat, nat, nat), b: (nat, nat, nat, nat)): Ordering {
    Then(Cmp(a.0, b.0), Then(Cmp(a.1, b.1), Then(Cmp(a.2, b.2), Cmp(a.3, b.3))))
  }

  function CompareMatch<V>(left: Entry<V>, right: Entry<V>, requested: Profile): Ordering {
    Then(CompareKeys(MatchKey(left.profile, requested), MatchKey(right.profile, requested)),
         Cmp(right.tunedAt, left.tunedAt))
  }

  function Usable<V>(usable: V -> bool, entries: seq<Entry<V>>): seq<Entry<V>> {
    if entries == [] then []
    else (if usable(entries[0].advice) then [entries[0]] else []) + Usable(usable, entries[1..])
  }

  /** The first of the least entries. */
  function MinBy<V>(entries: seq<Entry<V>>, requested: Profile): Option<Entry<V>> {
    if entries == [] then None
    else
      match MinBy(entries[..|entries| - 1], requested)
      case None => Some(entries[|entries| - 1])
      case Some(best) =>
        if CompareMatch(best, entries[|entries| - 1], requested).Greater? then Some(entries[|entries| - 1]) else Some(best)
  }

  function Select<V>(usable: V -> bool, entries: seq<Entry<V>>, requested: Profile): Option<Selection<V>> {
    match MinBy(Usable(usable, entries), requested)
    case None => None
    case Some(best) => Some(Selection(best, best.profile == requested))
  }

  // ---------------------------------------------------------------- the orders

  lemma EntryOrder<V(!new)>()
    ensures TotalPreorder<Entry<V>>(Before)
  {
    forall x: Entry<V>, y: Entry<V>, z: Entry<V> | Before(x, y) && Before(y, z) ensures Before(x, z) {
      ProfilesTransitive(x.profile, y.profile, z.profile);
    }
  }

  lemma ProfilesTransitive(a: Profile, b: Profile, c: Profile)
    requires !CompareProfiles(a, b).Greater? && !CompareProfiles(b, c).Greater?
    ensures !CompareProfiles(a, c).Greater?
    ensures CompareProfiles(a, c).Equal? ==> CompareProfiles(a, b).Equal? && CompareProfiles(b, c).Equal?
  {
  }

  /** The order of the list: disk before no_disk, then by width, size and I/O chunk, smaller ones first. */
  predicate Precedes(p: Profile, q: Profile) {
    if p.noDisk != q.noDisk then q.noDisk
    else
      || p.width < q.width
      || (p.width == q.width && (p.sizeGib < q.sizeGib || (p.sizeGib == q.sizeGib && p.ioChunkBytes < q.ioChunkBytes)))
  }

  lemma BeforeMeansPrecedes<V>(left: Entry<V>, right: Entry<V>)
    ensures Before(left, right) <==>
      Precedes(left.profile, right.profile) || (left.profile == right.profile && left.tunedAt >= right.tunedAt)
  {
  }

  lemma ProfileOrder(a: Profile, b: Profile)
    ensures CompareProfiles(a, b).Equal? <==> a == b
  {
  }

  /** Nothing is nearer to a request than its own profile, and everything else is farther. */
  lemma OwnProfileIsNearest(p: Profile, requested: Profile)
    ensures !Nearer(p, requested, requested)
    ensures p != requested ==> Nearer(requested, p, requested)
  {
  }

  /**
   Profile p is strictly nearer to the request than q: it agrees on no_disk and q does not; or they
   are level there and its width is nearer; or level there too and its size; or the I/O chunk.
   */
  predicate Nearer(p: Profile, q: Profile, requested: Profile) {
    var widthP, widthQ := AbsDiff(p.width, requested.width), AbsDiff(q.width, requested.width);
    var sizeP, sizeQ := AbsDiff(p.sizeGib, requested.sizeGib), AbsDiff(q.sizeGib, requested.sizeGib);
    var chunkP, chunkQ := AbsDiff(p.ioChunkBytes, requested.ioChunkBytes), AbsDiff(q.ioChunkBytes, requested.ioChunkBytes);
    if p.noDisk != q.noDisk then p.noDisk == requested.noDisk
    else widthP < widthQ || (widthP == widthQ && (sizeP < sizeQ || (sizeP == sizeQ && chunkP < chunkQ)))
  }

  /** Nearer, or just as near and tuned no earlier. */
  predicate NoWorse<V>(left: Entry<V>, right: Entry<V>, requested: Profile) {
    || Nearer(left.profile, right.profile, requested)
    || (!Nearer(right.profile, left.profile, requested) && left.tunedAt >= right.tunedAt)
  }

  lemma CompareMeansNoWorse<V>(a: Entry<V>, b: Entry<V>, requested: Profile)
    ensures CompareMatch(a, b, requested).Greater? <==> !NoWorse(a, b, requested)
  {
  }

  lemma NearerOrder(p: Profile, q: Profile, r: Profile, requested: Profile)
    ensures !(Nearer(p, q, requested) && Nearer(q, p, requested))
    ensures !Nearer(q, p, requested) && !Nearer(r, q, requested) ==>
      && !Nearer(r, p, requested)
      && (Nearer(p, q, requested) || Nearer(q, r, requested) ==> Nearer(p, r, requested))
  {
  }

  lemma NoWorseOrder<V>(a: Entry<V>, b: Entry<V>, c: Entry<V>, requested: Profile)
    ensures NoWorse(a, b, requested) || NoWorse(b, a, requested)
    ensures NoWorse(a, b, requested) && NoWorse(b, c, requested) ==> NoWorse(a, c, requested)
  {
    NearerOrder(a.profile, b.profile, c.profile, requested);
    NearerOrder(b.profile, a.profile, c.profile, requested);
    NearerOrder(b.profile, c.profile, c.profile, requested);
  }

  // ---------------------------------------------------------------- the list represents a map

  type PolicyMap<V> = map<Profile, Entry<V>>

  ghost predicate OnePerProfile<V>(entries: seq<Entry<V>>) {
    forall i, j :: 0 <= i < j < |entries| ==> entries[i].profile != entries[j].profile
  }

  ghost predicate Represents<V>(entries: seq<Entry<V>>, m: PolicyMap<V>) {
    && OnePerProfile(entries)
    && (forall i :: 0 <= i < |entries| ==> entries[i].profile in m && m[entries[i].profile] == entries[i])
    && (forall p :: p in m ==> m[p] in entries)
  }

  /** The last entry written for each profile. */
  function LastWriters<V>(updates: seq<Entry<V>>): PolicyMap<V> {
    if updates == [] then map[]
    else
      var last := updates[|updates| - 1];
      LastWriters(updates[..|updates| - 1])[last.profile := last]
  }

  /** The stored list after a sequence of upserts into an empty store. */
  function AfterUpserts<V>(updates: seq<Entry<V>>): seq<Entry<V>> {
    if updates == [] then [] else Upserted(AfterUpserts(updates[..|updates| - 1]), updates[|updates| - 1])
  }

  ghost predicate KeyedByProfile<V>(m: PolicyMap<V>) {
    forall p :: p in m ==> m[p].profile == p
  }

  lemma {:induction false} LastWritersKeyed<V>(updates: seq<Entry<V>>)
    ensures KeyedByProfile(LastWriters(updates))
  {
    if updates != [] {
      LastWritersKeyed(updates[..|updates| - 1]);
    }
  }

  lemma ReplacedRepresents<V>(entries: seq<Entry<V>>, entry: Entry<V>, m: PolicyMap<V>)
    requires Represents(entries, m) && KeyedByProfile(m)
    ensures Represents(Replaced(entries, entry), m[entry.profile := entry])
  {
    var i := FindProfile(entries, entry.profile);
    var after, updated := Replaced(entries, entry), m[entry.profile := entry];
    assert after[i] == entry;
    forall p | p in updated ensures updated[p] in after {
      if p != entry.profile {
        var j :| 0 <= j < |entries| && entries[j] == m[p];
        assert after[j] == entries[j];
      }
    }
  }

  /** Representing a map does not depend on the order of the list. */
  lemma PermutedRepresents<V>(entries: seq<Entry<V>>, permuted: seq<Entry<V>>, m: PolicyMap<V>)
    requires Represents(entries, m) && multiset(entries) == multiset(permuted)
    ensures Represents(permuted, m)
  {
    forall i | 0 <= i < |permuted| ensures permuted[i].profile in m && m[permuted[i].profile] == permuted[i] {
      assert permuted[i] in multiset(entries);
    }
    forall p | p in m ensures m[p] in permuted {
      assert m[p] in multiset(entries);
    }
    forall i, j | 0 <= i < j < |permuted| ensures permuted[i].profile != permuted[j].profile {
      NoDuplicates(entries, permuted[i]);
      EqualElementsCountTwice(permuted, i, j);
    }
  }

  lemma EqualElementsCountTwice<T>(xs: seq<T>, i: nat, j: nat)
    requires i < j < |xs|
    ensures xs[i] == xs[j] ==> multiset(xs)[xs[i]] >= 2
  {
    assert xs == xs[..j] + xs[j..];
    assert xs[..j][i] == xs[i] && xs[j..][0] == xs[j];
    assert xs[i] in multiset(xs[..j]) && xs[j] in multiset(xs[j..]);
  }

  lemma {:induction false} NoDuplicates<V>(entries: seq<Entry<V>>, e: Entry<V>)
    requires OnePerProfile(entries)
    ensures multiset(entries)[e] <= 1
  {
    if entries != [] {
      NoDuplicates(entries[1..], e);
      assert entries == [entries[0]] + entries[1..];
      assert e in multiset(entries[1..]) <==> e in entries[1..];
    }
  }

  /**
   Refinement. After any sequence of upserts into an empty store, the list is in strictly ascending
   order of its profiles and has exactly one entry per profile ever written, the last one written for it.
   */
  lemma StoreIsLastWriterWins<V(!new)>(updates: seq<Entry<V>>)
    ensures forall i, j :: 0 <= i < j < |AfterUpserts(updates)| ==>
      Precedes(AfterUpserts(updates)[i].profile, AfterUpserts(updates)[j].profile)
    ensures Represents(AfterUpserts(updates), LastWriters(updates))
  {
    StoreIsSorted(updates);
    var entries := AfterUpserts(updates);
    forall i, j | 0 <= i < j < |entries| ensures Precedes(entries[i].profile, entries[j].profile) {
      assert Before(entries[i], entries[j]) && entries[i].profile != entries[j].profile;
      BeforeMeansPrecedes(entries[i], entries[j]);
    }
  }

  lemma {:induction false} StoreIsSorted<V(!new)>(updates: seq<Entry<V>>)
    ensures SortedBy(Before, AfterUpserts(updates))
    ensures Represents(AfterUpserts(updates), LastWriters(updates))
  {
    if updates != [] {
      var front, last := updates[..|updates| - 1], updates[|updates| - 1];
      StoreIsSorted(front);
      LastWritersKeyed(front);
      var replaced := Replaced(AfterUpserts(front), last);
      ReplacedRepresents(AfterUpserts(front), last, LastWriters(front));
      EntryOrder<V>();
      SortBySorts(Before, replaced);
      SortByKeeps(Before, replaced);
      PermutedRepresents(replaced, SortBy(Before, replaced), LastWriters(updates));
    }
  }

  lemma {:induction false} SortedRepresentationUnique<V>(a: seq<Entry<V>>, b: seq<Entry<V>>, m: PolicyMap<V>)
    requires Represents(a, m) && Represents(b, m) && SortedBy(Before, a) && SortedBy(Before, b)
    ensures a == b
  {
    SameMultiset(a, b, m);
    forall x, y | x in a && y in a && Before(x, y) && Before(y, x) ensures x == y {
      ProfileOrder(x.profile, y.profile);
      ProfileOrder(y.profile, x.profile);
    }
    SortedUnique(Before, a, b);
  }

  lemma SameMultiset<V>(a: seq<Entry<V>>, b: seq<Entry<V>>, m: PolicyMap<V>)
    requires Represents(a, m) && Represents(b, m)
    ensures multiset(a) == multiset(b)
  {
    forall e ensures multiset(a)[e] == multiset(b)[e] {
      NoDuplicates(a, e);
      NoDuplicates(b, e);
      assert e in multiset(a) <==> e in a;
      assert e in multiset(b) <==> e in b;
      assert e in a ==> e == m[e.profile];
      assert e in b ==> e == m[e.profile];
    }
  }

  /** The stored list, and with it every selection, is a function of the map alone. */
  lemma StoreIsFunctionOfMap<V(!new)>(usable: V -> bool, a: seq<Entry<V>>, b: seq<Entry<V>>, requested: Profile)
    requires LastWriters(a) == LastWriters(b)
    ensures AfterUpserts(a) == AfterUpserts(b)
    ensures Select(usable, AfterUpserts(a), requested) == Select(usable, AfterUpserts(b), requested)
  {
    StoreIsSorted(a);
    StoreIsSorted(b);
    SortedRepresentationUnique(AfterUpserts(a), AfterUpserts(b), LastWriters(a));
  }

  // ---------------------------------------------------------------- selection

  lemma {:induction false} UsableMembers<V>(usable: V -> bool, entries: seq<Entry<V>>)
    ensures forall e :: e in Usable(usable, entries) <==> e in entries && usable(e.advice)
  {
    if entries != [] {
      UsableMembers(usable, entries[1..]);
      assert entries == [entries[0]] + entries[1..];
    }
  }

  lemma {:induction false} MinByIsLeast<V>(entries: seq<Entry<V>>, requested: Profile)
    ensures MinBy(entries, requested).None? <==> entries == []
    ensures entries != [] ==>
      && MinBy(entries, requested).value in entries
      && forall e :: e in entries ==> NoWorse(MinBy(entries, requested).value, e, requested)
  {
    if entries != [] {
      var front, last := entries[..|entries| - 1], entries[|entries| - 1];
      MinByIsLeast(front, requested);
      assert entries == front + [last];
      if front != [] {
        var best := MinBy(front, requested).value;
        CompareMeansNoWorse(best, last, requested);
        forall e | e in entries ensures NoWorse(MinBy(entries, requested).value, e, requested) {
          NoWorseOrder(best, last, last, requested);
          NoWorseOrder(last, best, e, requested);
        }
      } else {
        NoWorseOrder(last, last, last, requested);
      }
    }
  }

  /**
   Selection on any store, sorted or not: nothing exactly when no entry is usable; otherwise a usable
   entry that is nearest in the lexicographic order of the match keys, most recently tuned among the
   nearest, and an exact match exactly when a usable entry has the requested profile.
   */
  lemma SelectsNearest<V>(usable: V -> bool, entries: seq<Entry<V>>, requested: Profile)
    ensures Select(usable, entries, requested).None? <==> forall e :: e in entries ==> !usable(e.advice)
    ensures var s := Select(usable, entries, requested); s.Some? ==>
      && s.value.entry in entries && usable(s.value.entry.advice)
      && (forall e :: e in entries && usable(e.advice) ==> NoWorse(s.value.entry, e, requested))
      && (s.value.exactProfileMatch <==> s.value.entry.profile == requested)
      && (s.value.exactProfileMatch <==> exists e :: e in entries && usable(e.advice) && e.profile == requested)
  {
    var candidates := Usable(usable, entries);
    UsableMembers(usable, entries);
    MinByIsLeast(candidates, requested);
    if candidates != [] {
      var best := MinBy(candidates, requested).value;
      assert candidates[0] in candidates;
      forall e | e in entries && usable(e.advice) && e.profile == requested ensures best.profile == requested {
        assert NoWorse(best, e, requested);
        OwnProfileIsNearest(best.profile, requested);
      }
    }
  }

  /** The position of the i-th usable entry; the usable ones before it come first. */
  lemma {:induction false} UsableAt<V>(usable: V -> bool, entries: seq<Entry<V>>, i: nat) returns (at: nat)
    requires i < |Usable(usable, entries)|
    ensures at < |entries| && entries[at] == Usable(usable, entries)[i]
    ensures forall j :: 0 <= j < at && usable(entries[j].advice) ==> entries[j] in Usable(usable, entries)[..i]
  {
    var rest := Usable(usable, entries[1..]);
    if usable(entries[0].advice) {
      assert Usable(usable, entries) == [entries[0]] + rest;
      if i == 0 {
        at := 0;
      } else {
        var before := UsableAt(usable, entries[1..], i - 1);
        at := before + 1;
        assert Usable(usable, entries)[..i] == [entries[0]] + rest[..i - 1];
        forall j | 0 <= j < at && usable(entries[j].advice) ensures entries[j] in Usable(usable, entries)[..i] {
          assert j > 0 ==> entries[1..][j - 1] == entries[j];
        }
      }
    } else {
      var before := UsableAt(usable, entries[1..], i);
      at := before + 1;
      assert Usable(usable, entries) == rest;
      forall j | 0 <= j < at && usable(entries[j].advice) ensures entries[j] in Usable(usable, entries)[..i] {
        assert entries[1..][j - 1] == entries[j];
      }
    }
  }

  lemma {:induction false} MinByIsFirst<V>(entries: seq<Entry<V>>, requested: Profile) returns (i: nat)
    requires entries != []
    ensures i < |entries| && MinBy(entries, requested) == Some(entries[i])
    ensures forall e :: e in entries[..i] ==> !NoWorse(e, entries[i], requested)
  {
    var front, last := entries[..|entries| - 1], |entries| - 1;
    MinByIsLeast(front, requested);
    if front == [] || MinBy(front, requested) != MinBy(entries, requested) {
      i := last;
      forall e | e in entries[..last] ensures !NoWorse(e, entries[last], requested) {
        var best := MinBy(front, requested).value;
        CompareMeansNoWorse(best, entries[last], requested);
        NoWorseOrder(best, e, entries[last], requested);
      }
    } else {
      i := MinByIsFirst(front, requested);
      assert front[..i] == entries[..i];
    }
  }

  /** Among equally good entries the first in the list is selected. */
  lemma SelectsFirst<V>(usable: V -> bool, entries: seq<Entry<V>>, requested: Profile) returns (at: nat)
    requires Select(usable, entries, requested).Some?
    ensures at < |entries| && entries[at] == Select(usable, entries, requested).value.entry
    ensures forall j :: 0 <= j < at && usable(entries[j].advice) ==> !NoWorse(entries[j], entries[at], requested)
  {
    var candidates := Usable(usable, entries);
    var i := MinByIsFirst(candidates, requested);
    at := UsableAt(usable, entries, i);
  }

  /**
   What a request must get from a map: nothing exactly when it is empty; the requested profile's own
   entry, reported as exact, if there is one; otherwise one of the nearest entries, most recently
   tuned among the nearest, reported as not exact.
   */
  ghost predicate Answers<V>(usable: V -> bool, m: PolicyMap<V>, requested: Profile, s: Option<Selection<V>>) {
    && (s.None? <==> m == map[])
    && (requested in m ==> s == Some(Selection(m[requested], true)))
    && (s.Some? ==>
      && s.value.entry.profile in m && m[s.value.entry.profile] == s.value.entry
      && usable(s.value.entry.advice)
      && (s.value.exactProfileMatch <==> requested in m)
      && forall p :: p in m ==> NoWorse(s.value.entry, m[p], requested))
  }

  /** Selection from the map, after accepted upserts (usable advice only) into an empty store. */
  lemma SelectsFromMap<V(!new)>(usable: V -> bool, updates: seq<Entry<V>>, requested: Profile)
    requires forall i :: 0 <= i < |updates| ==> usable(updates[i].advice)
    ensures Answers(usable, LastWriters(updates), requested, Select(usable, AfterUpserts(updates), requested))
  {
    var m, entries := LastWriters(updates), AfterUpserts(updates);
    StoreIsLastWriterWins(updates);
    LastWritersKeyed(updates);
    WrittenAreUsable(usable, updates);
    SelectsNearest(usable, entries, requested);
    assert forall p :: p in m ==> m[p] in entries && usable(m[p].advice);
  }

  lemma {:induction false} WrittenAreUsable<V>(usable: V -> bool, updates: seq<Entry<V>>)
    requires forall i :: 0 <= i < |updates| ==> usable(updates[i].advice)
    ensures forall p :: p in LastWriters(updates) ==> usable(LastWriters(updates)[p].advice)
  {
    if updates != [] {
      WrittenAreUsable(usable, updates[..|updates| - 1]);
    }
  }
}
