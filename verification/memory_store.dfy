/** The per-session memory store (`MemoryManager` in memory_manager.py): a
    map from session id to an ordered bucket of memory records, with
    capacity-bounded insertion that evicts the least important record. */
module MemoryStore {
  import opened Wrappers
  import opened Text
  import opened StableSort

  /** One stored memory, as the dictionary the store keeps per record. */
  datatype Memory = Memory(content: string, importance: int, timestamp: string, memoryId: string)

  /** Sort key of `list.sort(key=lambda x: x["importance"])`. */
  function Importance(m: Memory): int { m.importance }

  /** Sort key of the same sort with `reverse=True`. */
  function NegImportance(m: Memory): int { -m.importance }

  /** `min(max(importance, 1), 5)`: the importance every write stores. */
  function Clamp(x: int): (r: int)
    ensures 1 <= r <= 5
    ensures 1 <= x <= 5 ==> r == x
    ensures x < 1 ==> r == 1
    ensures x > 5 ==> r == 5
  {
    var atLeastOne := if x > 1 then x else 1;
    if atLeastOne < 5 then atLeastOne else 5
  }

  /** Every importance of the bucket lies in 1..5. */
  ghost predicate Clamped(b: seq<Memory>) {
    forall i :: 0 <= i < |b| ==> 1 <= b[i].importance <= 5
  }

  /** The bucket after `add_memory`'s capacity check and before the append:
      a full bucket is sorted ascending by importance in place and its head
      popped. */
  function MakeRoom(bucket: seq<Memory>, maxMemories: int): (r: seq<Memory>)
    requires |bucket| >= maxMemories ==> bucket != []
    ensures |bucket| < maxMemories ==> r == bucket
    ensures |bucket| >= maxMemories ==>
      && |r| + 1 == |bucket|
      && (exists i :: 0 <= i < |bucket| && multiset(r) + multiset{bucket[i]} == multiset(bucket)
                      && forall j :: 0 <= j < |bucket| ==> bucket[i].importance <= bucket[j].importance)
      && forall i, j :: 0 <= i < j < |r| ==> r[i].importance <= r[j].importance
  {
    if |bucket| >= maxMemories then
      var i := FirstMinIndex(bucket, Importance);
      var rest := SortBy(RemoveAt(bucket, i), Importance);
      assert SortBy(bucket, Importance) == [bucket[i]] + rest;
      assert SortBy(bucket, Importance)[1..] == rest;
      SortBy(bucket, Importance)[1..]
    else bucket
  }

  /** The record `add_memory` appends; the clock readings are parameters. */
  function NewRecord(sid: string, content: string, importance: int, timestamp: string, idStamp: string): Memory
  {
    Memory(content, Clamp(importance), timestamp, sid + "_" + idStamp)
  }

  /** Below capacity the new record goes at the end and nothing else moves. */
  lemma AddBelowCapacity(b: seq<Memory>, maxMemories: int, rec: Memory)
    requires |b| < maxMemories
    ensures MakeRoom(b, maxMemories) + [rec] == b + [rec]
    ensures (MakeRoom(b, maxMemories) + [rec])[..|b|] == b
  {
  }

  /** At capacity exactly one record goes: the first one of minimum
      importance. The survivors are the stable ascending sort of the other
      records, so the bucket keeps its length and is reordered. */
  lemma EvictsFirstMinimum(b: seq<Memory>, maxMemories: int)
    requires |b| >= maxMemories && b != []
    ensures var i := FirstMinIndex(b, Importance);
      && (forall j :: 0 <= j < |b| ==> b[i].importance <= b[j].importance)
      && (forall j :: 0 <= j < i ==> b[i].importance < b[j].importance)
      && MakeRoom(b, maxMemories) == SortBy(RemoveAt(b, i), Importance)
      && multiset(MakeRoom(b, maxMemories)) + multiset{b[i]} == multiset(b)
      && |MakeRoom(b, maxMemories)| + 1 == |b|
  {
    var i := FirstMinIndex(b, Importance);
    assert SortBy(b, Importance) == [b[i]] + SortBy(RemoveAt(b, i), Importance);
  }

  /** With importances 1, 1, 3, 5 and capacity 4, the first record of
      importance 1 is evicted. */
  lemma EvictionExample(a: Memory, b: Memory, c: Memory, d: Memory)
    requires a.importance == 1 && b.importance == 1 && c.importance == 3 && d.importance == 5
    ensures MakeRoom([a, b, c, d], 4) == [b, c, d]
  {
    var s := [a, b, c, d];
    SortByCharacterized(s, s, Importance);
  }

  /** Eviction reorders the survivors for good: with importances 3, 1, 5, 1
      the first 1 is evicted and the other three are left in ascending
      order of importance, no longer in insertion order. */
  lemma EvictionReorders(a: Memory, b: Memory, c: Memory, d: Memory)
    requires a.importance == 3 && b.importance == 1 && c.importance == 5 && d.importance == 1
    ensures MakeRoom([a, b, c, d], 4) == [d, a, c]
  {
    var s := [a, b, c, d];
    var r := [b, d, a, c];
    forall k
      ensures FilterKey(r, Importance, k) == FilterKey(s, Importance, k)
    {
      FilterKeyConcat([a, b], [c, d], Importance, k);
      FilterKeyConcat([a], [b], Importance, k);
      FilterKeyConcat([c], [d], Importance, k);
      FilterKeyConcat([b, d], [a, c], Importance, k);
      FilterKeyConcat([b], [d], Importance, k);
      FilterKeyConcat([a], [c], Importance, k);
      assert s == [a, b] + [c, d] && r == [b, d] + [a, c];
      assert [a, b] == [a] + [b] && [c, d] == [c] + [d] && [b, d] == [b] + [d] && [a, c] == [a] + [c];
    }
    SortByCharacterized(s, r, Importance);
  }

  /** Making room never invents a record: every survivor was in the bucket. */
  lemma MakeRoomFromBucket(b: seq<Memory>, maxMemories: int)
    requires |b| >= maxMemories ==> b != []
    ensures forall k :: 0 <= k < |MakeRoom(b, maxMemories)| ==> MakeRoom(b, maxMemories)[k] in b
  {
    var r := MakeRoom(b, maxMemories);
    if |b| >= maxMemories {
      var i :| 0 <= i < |b| && multiset(r) + multiset{b[i]} == multiset(b);
      forall k | 0 <= k < |r|
        ensures r[k] in b
      {
        assert r[k] in multiset(r);
        assert r[k] in multiset(b);
      }
    }
  }

  /** Writes keep every importance in 1..5: adding to a clamped bucket gives
      a clamped bucket. */
  lemma AddKeepsClamped(b: seq<Memory>, maxMemories: int, rec: Memory)
    requires |b| >= maxMemories ==> b != []
    requires Clamped(b) && 1 <= rec.importance <= 5
    ensures Clamped(MakeRoom(b, maxMemories) + [rec])
  {
    var room := MakeRoom(b, maxMemories);
    MakeRoomFromBucket(b, maxMemories);
    forall j | 0 <= j < |room|
      ensures 1 <= room[j].importance <= 5
    {
      assert room[j] in b;
    }
    assert (room + [rec])[|room|] == rec;
  }

  /** `IsSubsequence(r, s)`: `r` is `s` with some elements left out. */
  ghost predicate IsSubsequence<T>(r: seq<T>, s: seq<T>)
    decreases |s|
  {
    r == [] || (s != [] && ((r[0] == s[0] && IsSubsequence(r[1..], s[1..])) || IsSubsequence(r, s[1..])))
  }

  /** `[m for m in b if kw in m["content"].lower()]` */
  function Matching(b: seq<Memory>, kw: string): (r: seq<Memory>)
    ensures IsSubsequence(r, b)
    ensures forall m :: m in r <==> m in b && Contains(Lower(m.content), kw)
    ensures forall m :: multiset(r)[m] == if Contains(Lower(m.content), kw) then multiset(b)[m] else 0
  {
    if b == [] then []
    else
      assert b == [b[0]] + b[1..];
      if Contains(Lower(b[0].content), kw) then [b[0]] + Matching(b[1..], kw)
      else Matching(b[1..], kw)
  }

  /** `len([m for m in b if m["importance"] == k])` */
  function Count(b: seq<Memory>, k: int): nat
  {
    |FilterKey(b, Importance, k)|
  }

  /** `sum(m["importance"] for m in b)` */
  function ImportanceSum(b: seq<Memory>): int
  {
    if b == [] then 0 else b[0].importance + ImportanceSum(b[1..])
  }

  /** The importance distribution of a clamped bucket accounts for every
      record. */
  lemma {:induction false} DistributionTotal(b: seq<Memory>)
    requires Clamped(b)
    ensures Count(b, 1) + Count(b, 2) + Count(b, 3) + Count(b, 4) + Count(b, 5) == |b|
    decreases |b|
  {
    if b != [] {
      DistributionTotal(b[1..]);
    }
  }

  /** The descending view groups records of equal importance in insertion
      order. */
  lemma {:induction false} FilterNegImportance(s: seq<Memory>, k: int)
    ensures FilterKey(s, NegImportance, -k) == FilterKey(s, Importance, k)
    decreases |s|
  {
    if s != [] {
      FilterNegImportance(s[1..], k);
    }
  }

  lemma DescendingStable(b: seq<Memory>, k: int)
    ensures FilterKey(SortBy(b, NegImportance), Importance, k) == FilterKey(b, Importance, k)
  {
    var r := SortBy(b, NegImportance);
    SortByStable(b, NegImportance, -k);
    FilterNegImportance(b, k);
    FilterNegImportance(r, k);
  }

  /** `get_memory_stats` without the float average: the count, the sum the
      average is taken of, and the histogram over importances 1..5. */
  datatype Stats = Stats(total: nat, importanceSum: int, distribution: map<int, nat>)

  class MemoryManager {
    /** `self.memories`: session id to bucket, in insertion order. */
    var memories: map<string, seq<Memory>>
    /** `config.get("enable_memory_management", True)` */
    var enabled: bool
    /** `config.get("max_memories", 10)` */
    var maxMemories: int

    /** The store as `_load_memories` leaves it; the file contents are a
        parameter. */
    constructor (loaded: map<string, seq<Memory>>, enabled: bool, maxMemories: int)
      ensures memories == loaded && this.enabled == enabled && this.maxMemories == maxMemories
    {
      memories := loaded;
      this.enabled := enabled;
      this.maxMemories := maxMemories;
    }

    /** The bucket of `sid` as stored, empty when absent. */
    function Bucket(sid: string): seq<Memory>
      reads this
    {
      if sid in memories then memories[sid] else []
    }

    /** `get_memories`: the bucket, or nothing while management is off. */
    function GetMemories(sid: string): (r: seq<Memory>)
      reads this
      ensures enabled && sid in memories ==> r == memories[sid]
      ensures !enabled || sid !in memories ==> r == []
    {
      if enabled then Bucket(sid) else []
    }

    /** While memory management is off every read sees an empty store. */
    lemma DisabledReadsNothing(sid: string, keyword: string)
      requires !enabled
      ensures GetMemories(sid) == [] && GetMemoriesSorted(sid) == [] && SearchMemories(sid, keyword) == []
    {
    }

    /** `get_memories_sorted`: the bucket by importance, highest first. */
    function GetMemoriesSorted(sid: string): (r: seq<Memory>)
      reads this
      ensures multiset(r) == multiset(GetMemories(sid))
      ensures forall i, j :: 0 <= i < j < |r| ==> r[i].importance >= r[j].importance
    {
      SortBy(GetMemories(sid), NegImportance)
    }

    /** The sort behind `get_memories_sorted` is stable: records of equal
        importance keep their insertion order. */
    lemma SortedViewStable(sid: string, k: int)
      ensures FilterKey(GetMemoriesSorted(sid), Importance, k) == FilterKey(GetMemories(sid), Importance, k)
    {
      DescendingStable(GetMemories(sid), k);
    }

    /** `search_memories`: case-insensitive substring search over the
        contents, keeping insertion order; an empty keyword matches all. */
    function SearchMemories(sid: string, keyword: string): (r: seq<Memory>)
      reads this
      ensures keyword == [] ==> r == GetMemories(sid)
      ensures IsSubsequence(r, GetMemories(sid))
      ensures keyword != [] ==>
        forall m :: m in r <==> m in GetMemories(sid) && Contains(Lower(m.content), Lower(keyword))
      ensures keyword != [] ==>
        forall m :: multiset(r)[m] == if Contains(Lower(m.content), Lower(keyword)) then multiset(GetMemories(sid))[m] else 0
    {
      var b := GetMemories(sid);
      if keyword == [] then
        assert IsSubsequence(b, b) by { SubsequenceOfSelf(b); }
        b
      else Matching(b, Lower(keyword))
    }

    /** `add_memory`. Fails while management is off; otherwise creates the
        bucket if needed, makes room when it holds `maxMemories` or more
        records, and appends the new record with clamped importance. The
        source's `pop(0)` on an empty list is excluded by the requires. */
    method AddMemory(sid: string, content: string, importance: int, timestamp: string, idStamp: string)
      returns (ok: bool)
      requires enabled && |Bucket(sid)| >= maxMemories ==> Bucket(sid) != []
      modifies this`memories
      ensures ok == enabled
      ensures !ok ==> memories == old(memories)
      ensures ok ==> memories == old(memories)[sid :=
        MakeRoom(old(Bucket(sid)), maxMemories) + [NewRecord(sid, content, importance, timestamp, idStamp)]]
    {
      if !enabled {
        return false;
      }
      if sid !in memories {
        memories := memories[sid := []];
      }
      var bucket := memories[sid];
      if |bucket| >= maxMemories {
        bucket := SortBy(bucket, Importance);
        bucket := bucket[1..];
      }
      memories := memories[sid := bucket + [NewRecord(sid, content, importance, timestamp, idStamp)]];
      return true;
    }

    /** `remove_memory`: positional removal; `None` and no change for a
        missing session or an index outside the bucket. An emptied bucket
        stays in the map. */
    method RemoveMemory(sid: string, index: int) returns (removed: Option<Memory>)
      modifies this`memories
      ensures sid !in old(memories) || !(0 <= index < |old(memories)[sid]|) ==>
        removed == None && memories == old(memories)
      ensures sid in old(memories) && 0 <= index < |old(memories)[sid]| ==>
        removed == Some(old(memories)[sid][index]) &&
        memories == old(memories)[sid := RemoveAt(old(memories)[sid], index)]
    {
      if sid !in memories {
        return None;
      }
      var bucket := memories[sid];
      if index < 0 || index >= |bucket| {
        return None;
      }
      removed := Some(bucket[index]);
      memories := memories[sid := RemoveAt(bucket, index)];
    }

    /** `clear_memories`: drops the whole bucket and says whether there was
        one. */
    method ClearMemories(sid: string) returns (existed: bool)
      modifies this`memories
      ensures existed == (sid in old(memories))
      ensures memories == old(memories) - {sid}
    {
      existed := sid in memories;
      if existed {
        memories := memories - {sid};
      }
    }

    /** `update_memory_importance`: sets one record's importance, clamped;
        `False` and no change for a missing session or a bad index. */
    method UpdateMemoryImportance(sid: string, index: int, importance: int) returns (ok: bool)
      modifies this`memories
      ensures ok == (sid in old(memories) && 0 <= index < |old(memories)[sid]|)
      ensures !ok ==> memories == old(memories)
      ensures ok ==> memories == old(memories)[sid :=
        old(memories)[sid][index := old(memories)[sid][index].(importance := Clamp(importance))]]
    {
      if sid !in memories {
        return false;
      }
      var bucket := memories[sid];
      if index < 0 || index >= |bucket| {
        return false;
      }
      memories := memories[sid := bucket[index := bucket[index].(importance := Clamp(importance))]];
      return true;
    }

    /** `get_memory_stats`: all zero and an empty histogram for an empty
        (or absent, or switched off) bucket; otherwise the record count, the
        importance sum and how many records have each importance 1..5. */
    method GetMemoryStats(sid: string) returns (st: Stats)
      ensures GetMemories(sid) == [] ==> st == Stats(0, 0, map[])
      ensures GetMemories(sid) != [] ==>
        && st.total == |GetMemories(sid)|
        && st.importanceSum == ImportanceSum(GetMemories(sid))
        && st.distribution.Keys == {1, 2, 3, 4, 5}
        && forall k :: 1 <= k <= 5 ==> st.distribution[k] == Count(GetMemories(sid), k)
    {
      var b := GetMemories(sid);
      if b == [] {
        return Stats(0, 0, map[]);
      }
      var dist: map<int, nat> := map[];
      for i := 1 to 6
        invariant forall k :: k in dist <==> 1 <= k < i
        invariant forall k :: 1 <= k < i ==> dist[k] == Count(b, k)
      {
        dist := dist[i := Count(b, i)];
      }
      assert forall k :: k in dist.Keys <==> k in {1, 2, 3, 4, 5};
      st := Stats(|b|, ImportanceSum(b), dist);
    }
  }

  lemma {:induction false} SubsequenceOfSelf<T>(s: seq<T>)
    ensures IsSubsequence(s, s)
    decreases |s|
  {
    if s != [] {
      SubsequenceOfSelf(s[1..]);
    }
  }
}
