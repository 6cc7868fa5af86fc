/**
 * The run's corpus of embedding priors with its per-item exclusion cache. Each critical section is
 * one method; other callers may run between the two sections of a snapshot.
 */
module Priors {
  import opened Common

  type Vector = seq<real>

  datatype Entry = Entry(record: string, item: string, vector: Vector)

  // ---- The corpus as a plain list of insertions ----

  ghost predicate Holds(log: seq<Entry>, record: string) {
    exists e :: e in log && e.record == record
  }

  /** The corpus after attempted insertions: the first vector of each record, in order. */
  ghost function FirstWins(attempts: seq<Entry>): seq<Entry> {
    if attempts == [] then []
    else
      var before, e := FirstWins(attempts[..|attempts| - 1]), attempts[|attempts| - 1];
      if Holds(before, e.record) then before else before + [e]
  }

  /** The plain filter: the vectors of all other items, in insertion order. */
  ghost function Without(log: seq<Entry>, item: string): seq<Vector> {
    if log == [] then []
    else
      var e := log[|log| - 1];
      Without(log[..|log| - 1], item) + if e.item == item then [] else [e.vector]
  }

  /** Every attempted record is in the corpus once, under the vector of its first attempt. */
  lemma {:induction false} OneVectorPerRecord(attempts: seq<Entry>, i: nat)
    requires i < |attempts|
    ensures forall x, y | 0 <= x < y < |FirstWins(attempts)| ::
              FirstWins(attempts)[x].record != FirstWins(attempts)[y].record
    ensures Holds(FirstWins(attempts), attempts[i].record)
    ensures (forall j | 0 <= j < i :: attempts[j].record != attempts[i].record) ==> attempts[i] in FirstWins(attempts)
  {
    var m := |attempts| - 1;
    var before := FirstWins(attempts[..m]);
    if m > 0 {
      OneVectorPerRecord(attempts[..m], if i < m then i else 0);
      if i < m { assert attempts[..m][i] == attempts[i]; }
    }
    FirstWinsHoldsOnlyAttempts(attempts[..m]);
    assert attempts[m].record == attempts[i].record && i == m ==> attempts[i] in before + [attempts[m]];
  }

  lemma {:induction false} FirstWinsHoldsOnlyAttempts(attempts: seq<Entry>)
    ensures forall e | e in FirstWins(attempts) :: e in attempts
  {
    if attempts != [] {
      FirstWinsHoldsOnlyAttempts(attempts[..|attempts| - 1]);
    }
  }

  // ---- Exclusion indexes ----

  /** The positions an item owns, ascending. */
  ghost function Owned(itemIds: seq<string>, item: string): seq<nat> {
    if itemIds == [] then []
    else
      var m := |itemIds| - 1;
      Owned(itemIds[..m], item) + if itemIds[m] == item then [m] else []
  }

  ghost predicate Ascending(positions: seq<nat>) {
    forall i, j | 0 <= i < j < |positions| :: positions[i] < positions[j]
  }

  /** Exactly the item's positions, in the order that a search by halving rests on. */
  lemma {:induction false} OwnedPositions(itemIds: seq<string>, item: string)
    ensures forall i: nat :: i in Owned(itemIds, item) <==> i < |itemIds| && itemIds[i] == item
    ensures Ascending(Owned(itemIds, item))
  {
    if itemIds != [] {
      var m := |itemIds| - 1;
      OwnedPositions(itemIds[..m], item);
      OwnedBelow(itemIds[..m], item);
      forall i: nat ensures i in Owned(itemIds, item) <==> i < |itemIds| && itemIds[i] == item {
        assert i < m ==> itemIds[..m][i] == itemIds[i];
      }
    }
  }

  lemma {:induction false} OwnedBelow(itemIds: seq<string>, item: string)
    ensures forall i | 0 <= i < |Owned(itemIds, item)| :: Owned(itemIds, item)[i] < |itemIds|
  {
    if itemIds != [] {
      OwnedBelow(itemIds[..|itemIds| - 1], item);
    }
  }

  /** Search an ascending list by halving. */
  method BinarySearch(positions: seq<nat>, position: nat) returns (found: bool)
    requires Ascending(positions)
    ensures found <==> position in positions
  {
    var low, high := 0, |positions|;
    while low < high
      invariant 0 <= low <= high <= |positions|
      invariant forall i | 0 <= i < low :: positions[i] < position
      invariant forall i | high <= i < |positions| :: position < positions[i]
    {
      var middle := (low + high) / 2;
      if positions[middle] < position {
        low := middle + 1;
      } else if position < positions[middle] {
        high := middle;
      } else {
        return true;
      }
    }
    return false;
  }

  class PriorState {
    var all: seq<Vector>
    var recordIds: set<string>
    var itemIds: seq<string>
    var itemsWithVectors: set<string>
    var exclusionIndices: map<string, seq<nat>>
    /** Every insertion that was attempted, and the corpus as a plain list. */
    ghost var attempts: seq<Entry>
    ghost var log: seq<Entry>

    ghost predicate Valid()
      reads this
    {
      log == FirstWins(attempts) && |all| == |itemIds| == |log|
      && (forall i | 0 <= i < |log| :: all[i] == log[i].vector && itemIds[i] == log[i].item)
      && (forall r :: r in recordIds <==> Holds(log, r))
      && (forall item :: item in itemsWithVectors <==> item in itemIds)
      && forall item | item in exclusionIndices :: exclusionIndices[item] == Owned(itemIds, item)
    }

    constructor ()
      ensures Valid() && attempts == [] && log == []
    {
      all, recordIds, itemIds, itemsWithVectors, exclusionIndices := [], {}, [], {}, map[];
      attempts, log := [], [];
    }

    /** Append a vector unless its record already has one; a new vector empties the cache. */
    method Insert(record: string, item: string, vector: Vector)
      requires Valid()
      modifies this
      ensures Valid() && attempts == old(attempts) + [Entry(record, item, vector)]
      ensures log == if Holds(old(log), record) then old(log) else old(log) + [Entry(record, item, vector)]
    {
      ghost var e := Entry(record, item, vector);
      attempts := attempts + [e];
      assert attempts[..|attempts| - 1] == old(attempts);
      if record in recordIds { return; }
      ghost var before := log;
      log := log + [e];
      assert forall x :: x in log <==> x in before || x == e;
      all, itemIds := all + [vector], itemIds + [item];
      recordIds, itemsWithVectors := recordIds + {record}, itemsWithVectors + {item};
      exclusionIndices := map[];
    }

    /** The first, shared section: an item without vectors sees the whole corpus. */
    method ReadSection(item: string) returns (r: Option<seq<Vector>>)
      requires Valid()
      ensures r.Some? ==> r.value == Without(log, item)
    {
      if item !in itemsWithVectors {
        NothingExcluded(log, all, item);
        return Some(all);
      }
      return None;
    }

    /** The second, exclusive section: the corpus and the item's positions, cached if need be. */
    method WriteSection(item: string) returns (vectors: seq<Vector>, excluded: seq<nat>)
      requires Valid()
      modifies this`exclusionIndices
      ensures Valid() && vectors == all && excluded == Owned(itemIds, item)
    {
      if item !in exclusionIndices {
        var indices := Collect(item);
        exclusionIndices := exclusionIndices[item := indices];
      }
      return all, exclusionIndices[item];
    }

    method Collect(item: string) returns (indices: seq<nat>)
      ensures indices == Owned(itemIds, item)
    {
      indices := [];
      for i := 0 to |itemIds|
        invariant indices == Owned(itemIds[..i], item)
      {
        assert itemIds[..i + 1][..i] == itemIds[..i];
        if itemIds[i] == item {
          indices := indices + [i];
        }
      }
      assert itemIds[..|itemIds|] == itemIds;
    }

    /** What other callers may do meanwhile: insert, and fill the cache. */
    method Others()
      requires Valid()
      modifies this
      ensures Valid() && old(log) <= log
    {
      var calls: int := *;
      for n := 0 to if calls < 0 then 0 else calls
        invariant Valid() && old(log) <= log
      {
        var record: string, item: string, vector: Vector := *, *, *;
        if * {
          Insert(record, item, vector);
        } else {
          var _, _ := WriteSection(item);
        }
      }
    }

    /** A snapshot is the plain filter of the corpus as it was at some moment of the call. */
    method Snapshot(item: string) returns (vectors: seq<Vector>)
      requires Valid()
      modifies this
      ensures Valid() && old(log) <= log
      ensures exists n :: |old(log)| <= n <= |log| && vectors == Without(log[..n], item)
    {
      var shared := ReadSection(item);
      if shared.Some? {
        assert log[..|log|] == log;
        return shared.value;
      }
      Others();
      var corpus, excluded := WriteSection(item);
      ghost var then', owners := log, itemIds;
      Others();
      vectors := Filter(corpus, excluded, item, then', owners);
      assert log[..|then'|] == then';
    }
  }

  lemma {:induction false} NothingExcluded(log: seq<Entry>, all: seq<Vector>, item: string)
    requires |all| == |log| && forall i | 0 <= i < |log| :: all[i] == log[i].vector && log[i].item != item
    ensures Without(log, item) == all
  {
    if log != [] {
      NothingExcluded(log[..|log| - 1], all[..|log| - 1], item);
    }
  }

  /** The vectors whose position is not excluded, in order. */
  method Filter(all: seq<Vector>, excluded: seq<nat>, ghost item: string, ghost log: seq<Entry>,
                ghost owners: seq<string>)
    returns (kept: seq<Vector>)
    requires |all| == |log| == |owners| && excluded == Owned(owners, item)
    requires forall i | 0 <= i < |log| :: all[i] == log[i].vector && owners[i] == log[i].item
    ensures kept == Without(log, item)
  {
    kept := [];
    OwnedPositions(owners, item);
    for i := 0 to |all|
      invariant kept == Without(log[..i], item)
    {
      assert log[..i + 1][..i] == log[..i];
      var isExcluded := BinarySearch(excluded, i);
      if !isExcluded {
        kept := kept + [all[i]];
      }
    }
    assert log[..|all|] == log;
  }
}
