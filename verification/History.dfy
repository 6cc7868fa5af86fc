/**
 * The durable history of one shard: its records and its cursor, over any number of launches.
 * Every event is one committed store transaction; whatever a launch held in memory is absent.
 */
module History {
  import opened Common
  import opened Lifecycle
  import opened BestOfK

  datatype Shard = Shard(items: seq<Item>, cursor: nat)

  datatype Event = Wrote(offset: nat, key: Key, record: Record) | Committed

  /** The oracle of each seed item. */
  type Fates = nat -> Oracle

  ghost predicate Happens(k: nat, a: Shard, e: Event, b: Shard) {
    match e
    case Wrote(off, key, r) =>
      off < |a.items| && Write(k, a.items[off], key, r)
      && b == a.(items := a.items[off := a.items[off][key := r]])
    case Committed =>
      a.cursor < |a.items| && Settled(k, a.items[a.cursor]) && b == a.(cursor := a.cursor + 1)
  }

  ghost predicate Foretold(fates: Fates, a: Shard, e: Event) {
    e.Wrote? && e.offset < |a.items| ==> Conforms(fates(e.offset), a.items[e.offset], e.key, e.record)
  }

  ghost predicate HappensAt(k: nat, h: seq<Shard>, es: seq<Event>, n: nat)
    requires |h| == |es| + 1 && n < |es|
  {
    Happens(k, h[n], es[n], h[n + 1])
  }

  /** A shard's history over any number of launches, from an empty store. */
  ghost predicate IsHistory(k: nat, h: seq<Shard>, es: seq<Event>) {
    |h| == |es| + 1 && h[0].cursor == 0 && (forall off | 0 <= off < |h[0].items| :: h[0].items[off] == map[])
    && forall n: nat | n < |es| :: HappensAt(k, h, es, n)
  }

  ghost predicate IsForetold(fates: Fates, h: seq<Shard>, es: seq<Event>) {
    |h| == |es| + 1 && forall n: nat | n < |es| :: Foretold(fates, h[n], es[n])
  }

  lemma {:induction false} HistoryShape(k: nat, h: seq<Shard>, es: seq<Event>, n: nat)
    requires IsHistory(k, h, es) && n < |h|
    ensures |h[n].items| == |h[0].items| && h[n].cursor <= |h[n].items|
  {
    if n > 0 {
      HistoryShape(k, h, es, n - 1);
      assert HappensAt(k, h, es, n - 1);
    }
  }

  /** What one item goes through in its shard's history. */
  ghost function ItemRun(k: nat, h: seq<Shard>, es: seq<Event>, off: nat): (run: seq<Item>)
    requires IsHistory(k, h, es) && off < |h[0].items|
    ensures |run| == |h| && IsRun(k, run)
    ensures forall n: nat | n < |h| :: off < |h[n].items| && run[n] == h[n].items[off]
  {
    assert forall n: nat | n < |h| :: off < |h[n].items| by {
      forall n: nat | n < |h| ensures off < |h[n].items| { HistoryShape(k, h, es, n); }
    }
    var run := seq(|h|, n requires 0 <= n < |h| => h[n].items[off]);
    assert forall n: nat | n + 1 < |run| :: StepAt(k, run, n) by {
      forall n: nat | n + 1 < |run| ensures StepAt(k, run, n) {
        assert HappensAt(k, h, es, n);
        if es[n].Wrote? && es[n].offset == off {
          assert Write(k, run[n], es[n].key, es[n].record);
        }
      }
    }
    run
  }

  lemma ItemRunForetold(fates: Fates, k: nat, h: seq<Shard>, es: seq<Event>, off: nat)
    requires IsHistory(k, h, es) && IsForetold(fates, h, es) && off < |h[0].items|
    ensures IsOracleRun(fates(off), k, ItemRun(k, h, es, off))
  {
    var run := ItemRun(k, h, es, off);
    forall n: nat | n + 1 < |run| ensures OracleStepAt(fates(off), k, run, n) {
      assert HappensAt(k, h, es, n) && Foretold(fates, h[n], es[n]);
      if es[n].Wrote? && es[n].offset == off {
        assert Write(k, run[n], es[n].key, es[n].record) && Conforms(fates(off), run[n], es[n].key, es[n].record);
      }
    }
  }

  /**
   * Cursor soundness over whole histories: the cursor never moves back, and every item below it
   * has all its siblings stored and terminal, with a terminal retry for a revising winner.
   */
  lemma {:induction false} CursorSound(k: nat, h: seq<Shard>, es: seq<Event>, m: nat, n: nat)
    requires IsHistory(k, h, es) && m <= n < |h|
    ensures h[m].cursor <= h[n].cursor <= |h[n].items|
    ensures forall off: nat | off < h[n].cursor :: Settled(k, h[n].items[off])
    decreases n
  {
    HistoryShape(k, h, es, n);
    if n > 0 {
      CursorSound(k, h, es, if m < n then m else n - 1, n - 1);
      assert HappensAt(k, h, es, n - 1);
      if es[n - 1].Wrote? {
        var off := es[n - 1].offset;
        if off < h[n].cursor {
          WriteKeepsSettled(k, h[n - 1].items[off], es[n - 1].key, es[n - 1].record);
        }
      }
    }
  }

  /** Every committed item, in every history foretold by one oracle, is what the oracle makes of it. */
  lemma CommittedIsFinal(fates: Fates, k: nat, h: seq<Shard>, es: seq<Event>, n: nat, off: nat, key: Key)
    requires IsHistory(k, h, es) && IsForetold(fates, h, es) && n < |h| && off < h[n].cursor
    ensures off < |h[n].items|
    ensures key in h[n].items[off] <==> FinalState(fates(off), k, key).Some?
    ensures key in h[n].items[off] ==>
              h[n].items[off][key].state == FinalState(fates(off), k, key).value
              || (h[n].items[off][key].state == Exported && FinalState(fates(off), k, key).value == Formatted)
  {
    CursorSound(k, h, es, n, n);
    HistoryShape(k, h, es, n);
    ItemRunForetold(fates, k, h, es, off);
    CrashConfluence(fates(off), k, ItemRun(k, h, es, off), n);
  }
}
