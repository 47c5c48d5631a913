/** The query-result cache: reads that expire, and refreshes that may not undo newer writes. */
module QueryCaches {
  import opened Models

  /** One cached result. Entries are told apart by identity. */
  class CacheEntry {
    const response: string
    const createdAt: real

    constructor (response: string, createdAt: real)
      ensures this.response == response && this.createdAt == createdAt
    {
      this.response, this.createdAt := response, createdAt;
    }
  }

  type Entries = map<string, CacheEntry>

  // -------------------------------------------------------- atomic operations

  predicate IsExpired(ttl: Option<real>, e: CacheEntry, now: real) {
    ttl.Some? && now - e.createdAt > ttl.value
  }

  /** Each happens under the lock. `now` is what the clock reads. */
  datatype Operation =
    | Get(key: string, now: real)
    | Put(key: string, entry: CacheEntry)
    | Delete(key: string)
    | Clear
    | Snapshot
    | Commit(oldKey: string, expected: CacheEntry, newKey: string, newEntry: CacheEntry)

  /** Whether a refresh still finds what it started from. */
  predicate IsLive(entries: Entries, key: string, e: CacheEntry) {
    key in entries && entries[key] == e
  }

  function Next(ttl: Option<real>, entries: Entries, op: Operation): Entries {
    match op
    case Get(key, now) => if key in entries && IsExpired(ttl, entries[key], now) then entries - {key} else entries
    case Put(key, entry) => entries[key := entry]
    case Delete(key) => entries - {key}
    case Clear => map[]
    case Snapshot => entries
    case Commit(oldKey, expected, newKey, newEntry) =>
      if !IsLive(entries, oldKey, expected) then entries
      else (if newKey != oldKey then entries - {oldKey} else entries)[newKey := newEntry]
  }

  /** The cache after the operations, in the order they got the lock. */
  function Run(ttl: Option<real>, start: Entries, trace: seq<Operation>): Entries {
    if trace == [] then start else
      Next(ttl, Run(ttl, start, trace[..|trace| - 1]), trace[|trace| - 1])
  }

  class QueryCache {
    const ttl: Option<real>
    var entries: Entries

    constructor (ttl: Option<real>)
      ensures this.ttl == ttl && entries == map[]
    {
      this.ttl, entries := ttl, map[];
    }

    method Read(key: string, now: real) returns (found: Option<CacheEntry>)
      modifies this
      ensures entries == Next(ttl, old(entries), Get(key, now))
      ensures found.Some? <==> key in old(entries) && !IsExpired(ttl, old(entries)[key], now)
      ensures found.Some? ==> found.value == old(entries)[key] && !IsExpired(ttl, found.value, now)
      ensures found.None? ==> key !in entries
    {
      if key !in entries { return None; }
      var entry := entries[key];
      if ttl.Some? {
        if now - entry.createdAt > ttl.value {
          entries := entries - {key};
          return None;
        }
      }
      return Some(entry);
    }

    method Store(key: string, entry: CacheEntry)
      modifies this
      ensures entries == Next(ttl, old(entries), Put(key, entry))
    {
      entries := entries[key := entry];
    }

    method Remove(key: string) returns (removed: bool)
      modifies this
      ensures entries == Next(ttl, old(entries), Delete(key)) && removed == (key in old(entries))
    {
      removed := key in entries;
      if removed { entries := entries - {key}; }
    }

    method Empty()
      modifies this
      ensures entries == Next(ttl, old(entries), Clear)
    {
      entries := map[];
    }

    method TakeSnapshot() returns (copy: Entries)
      ensures copy == entries
    {
      copy := entries;
    }

    /** Writes a refreshed result, if the entry it was refreshed from is still there. */
    method CommitReplace(oldKey: string, expected: CacheEntry, newKey: string, newEntry: CacheEntry)
      returns (committed: bool)
      modifies this
      ensures entries == Next(ttl, old(entries), Commit(oldKey, expected, newKey, newEntry))
      ensures committed <==> IsLive(old(entries), oldKey, expected)
    {
      if !(oldKey in entries && entries[oldKey] == expected) { return false; }
      if newKey != oldKey { entries := entries - {oldKey}; }
      entries := entries[newKey := newEntry];
      return true;
    }
  }

  // --------------------------------------------------------------- one commit

  /** A commit never makes the cache larger, and touches no key but its two. */
  lemma CommitNeverGrows(ttl: Option<real>, entries: Entries, op: Operation)
    requires op.Commit?
    ensures |Next(ttl, entries, op)| <= |entries|
    ensures forall k :: k != op.oldKey && k != op.newKey ==>
      (k in Next(ttl, entries, op) <==> k in entries) && (k in entries ==> Next(ttl, entries, op)[k] == entries[k])
    ensures !IsLive(entries, op.oldKey, op.expected) ==> Next(ttl, entries, op) == entries
    ensures op.newKey != op.oldKey && IsLive(entries, op.oldKey, op.expected) ==> op.oldKey !in Next(ttl, entries, op)
  {
    if IsLive(entries, op.oldKey, op.expected) {
      var after := Next(ttl, entries, op);
      if op.newKey == op.oldKey {
        assert after.Keys == entries.Keys;
      } else {
        var rest := entries.Keys - {op.oldKey};
        assert after.Keys == rest + {op.newKey};
        assert |entries.Keys| == |rest| + 1;
        assert |rest + {op.newKey}| <= |rest| + 1;
      }
    }
  }

  // -------------------------------------------------------------------- runs

  /** What an operation may put into the cache. */
  function Inserted(op: Operation): set<CacheEntry> {
    if op.Put? then {op.entry} else if op.Commit? then {op.newEntry} else {}
  }

  /** Every entry there has been. */
  function Seen(start: Entries, trace: seq<Operation>): set<CacheEntry> {
    if trace == [] then start.Values else Seen(start, trace[..|trace| - 1]) + Inserted(trace[|trace| - 1])
  }

  /** Every result that is written is a new object. */
  predicate WritesNewEntries(start: Entries, trace: seq<Operation>) {
    trace == [] ||
    (WritesNewEntries(start, trace[..|trace| - 1]) &&
     Inserted(trace[|trace| - 1]) !! Seen(start, trace[..|trace| - 1]))
  }

  lemma {:induction false} LiveIsSeen(ttl: Option<real>, start: Entries, trace: seq<Operation>)
    ensures Run(ttl, start, trace).Values <= Seen(start, trace)
  {
    if trace != [] {
      var n := |trace| - 1;
      LiveIsSeen(ttl, start, trace[..n]);
      NextInserts(ttl, Run(ttl, start, trace[..n]), trace[n]);
    }
  }

  lemma NextInserts(ttl: Option<real>, entries: Entries, op: Operation)
    ensures Next(ttl, entries, op).Values <= entries.Values + Inserted(op)
  {
    var after := Next(ttl, entries, op);
    forall e | e in after.Values ensures e in entries.Values + Inserted(op) {
      var k :| k in after && after[k] == e;
      if e !in Inserted(op) { assert k in entries && entries[k] == e; }
    }
  }

  lemma {:induction false} PrefixWritesNew(start: Entries, trace: seq<Operation>, i: nat)
    requires WritesNewEntries(start, trace) && i <= |trace|
    ensures WritesNewEntries(start, trace[..i]) && Seen(start, trace[..i]) <= Seen(start, trace)
    decreases |trace|
  {
    if i < |trace| {
      var n := |trace| - 1;
      PrefixWritesNew(start, trace[..n], i);
      assert trace[..n][..i] == trace[..i];
    } else {
      assert trace[..i] == trace;
    }
  }

  /** An entry that is gone from its key never comes back there; one that is gone altogether never
      comes back at all. */
  lemma {:induction false} GoneForGood(
    ttl: Option<real>, start: Entries, trace: seq<Operation>, i: nat, k: string, e: CacheEntry)
    requires WritesNewEntries(start, trace) && i <= |trace| && e in Seen(start, trace[..i])
    ensures !IsLive(Run(ttl, start, trace[..i]), k, e) ==> !IsLive(Run(ttl, start, trace), k, e)
    ensures e !in Run(ttl, start, trace[..i]).Values ==> e !in Run(ttl, start, trace).Values
    decreases |trace|
  {
    if i < |trace| {
      var n := |trace| - 1;
      PrefixWritesNew(start, trace[..n], i);
      assert trace[..n][..i] == trace[..i];
      GoneForGood(ttl, start, trace[..n], i, k, e);
      assert e !in Inserted(trace[n]);
      NextInserts(ttl, Run(ttl, start, trace[..n]), trace[n]);
    } else {
      assert trace[..i] == trace;
    }
  }

  /** The entry has been at its key all the while from `i` to `j`. */
  predicate LiveThroughout(
    ttl: Option<real>, start: Entries, trace: seq<Operation>, i: nat, j: nat, k: string, e: CacheEntry)
    requires i <= j <= |trace|
  {
    forall m :: i <= m <= j ==> IsLive(Run(ttl, start, trace[..m]), k, e)
  }

  /** A refresh that took its snapshot at `i` and commits at `j` lands exactly if the entry it
      refreshes was at its key all the while. So it revives nothing that was removed and replaces
      nothing newer there; and when it does not land, it changes nothing. */
  lemma CommitLandsIffLiveThroughout(
    ttl: Option<real>, start: Entries, trace: seq<Operation>, i: nat, j: nat, op: Operation)
    requires WritesNewEntries(start, trace) && i <= j < |trace| && trace[j] == op && op.Commit?
    requires IsLive(Run(ttl, start, trace[..i]), op.oldKey, op.expected)
    ensures var before, after := Run(ttl, start, trace[..j]), Run(ttl, start, trace[..j + 1]);
      && (IsLive(before, op.oldKey, op.expected) <==> LiveThroughout(ttl, start, trace, i, j, op.oldKey, op.expected))
      && (!LiveThroughout(ttl, start, trace, i, j, op.oldKey, op.expected) ==> after == before)
      && (LiveThroughout(ttl, start, trace, i, j, op.oldKey, op.expected) ==> IsLive(after, op.newKey, op.newEntry))
  {
    assert trace[..j + 1][..j] == trace[..j];
    if IsLive(Run(ttl, start, trace[..j]), op.oldKey, op.expected) {
      forall m | i <= m <= j ensures IsLive(Run(ttl, start, trace[..m]), op.oldKey, op.expected) {
        PrefixWritesNew(start, trace, j);
        SnapshotIsSeen(ttl, start, trace, i, m, op.oldKey, op.expected);
        assert trace[..j][..m] == trace[..m];
        GoneForGood(ttl, start, trace[..j], m, op.oldKey, op.expected);
      }
    } else {
      assert !LiveThroughout(ttl, start, trace, i, j, op.oldKey, op.expected);
    }
  }

  lemma SnapshotIsSeen(
    ttl: Option<real>, start: Entries, trace: seq<Operation>, i: nat, m: nat, k: string, e: CacheEntry)
    requires WritesNewEntries(start, trace) && i <= m <= |trace| && IsLive(Run(ttl, start, trace[..i]), k, e)
    ensures e in Seen(start, trace[..m])
  {
    LiveIsSeen(ttl, start, trace[..i]);
    PrefixWritesNew(start, trace, m);
    PrefixWritesNew(start, trace[..m], i);
    assert trace[..m][..i] == trace[..i];
    assert e in Run(ttl, start, trace[..i]).Values;
  }

  /** If the written entries were not new, a removed one could come back, and a refresh of its first
      life land on its second. */
  lemma OldEntriesCanReturn(e: CacheEntry, f: CacheEntry)
    requires e != f
    ensures
      var start := map["k" := e];
      var trace := [Snapshot, Delete("k"), Put("k", e), Commit("k", e, "k", f)];
      !WritesNewEntries(start, trace) && IsLive(Run(None, start, trace), "k", f) &&
      !LiveThroughout(None, start, trace, 1, 3, "k", e)
  {
    var start := map["k" := e];
    var trace := [Snapshot, Delete("k"), Put("k", e), Commit("k", e, "k", f)];
    assert trace[..3] == [Snapshot, Delete("k"), Put("k", e)]
      && trace[..3][..2] == trace[..2] == [Snapshot, Delete("k")];
    assert trace[..2][..1] == trace[..1] == [Snapshot] && trace[..1][..0] == [];
    assert Run(None, start, trace[..1]) == start && Run(None, start, trace[..2]) == map[];
    assert Run(None, start, trace[..3]) == start;
    assert e in Seen(start, trace[..2]) by {
      assert start["k"] == e && e in Seen(start, trace[..0]);
      assert e in Seen(start, trace[..1]);
    }
    assert !IsLive(Run(None, start, trace[..2]), "k", e);
  }
}
