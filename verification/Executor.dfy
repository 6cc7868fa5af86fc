/**
 * One launch of the engine over its shards. The methods follow the engine's own control flow. Every
 * store write may fail, with or without having committed, and so may every read; the cancellation
 * token may be set between any two polls; and every remote call may be denied or hit a systemic
 * fault. A failed access unwinds the launch, so a crash is a launch that stops there.
 */
module Executor {
  import opened Common
  import opened Lifecycle
  import opened BestOfK
  import opened History

  /** A record transaction: insert, or replace the expected snapshot. */
  datatype Command = Command(off: nat, key: Key, expected: Option<Record>, updated: Record)

  /** The record has moved beyond what the command expected. */
  predicate IsPast(c: Command, items: seq<Item>) {
    c.off < |items| && c.key in items[c.off]
    && (c.expected.Some? ==> Stage(c.expected.value.state) < Stage(items[c.off][c.key].state))
  }

  function Current(items: seq<Item>, off: nat, key: Key): Option<Record>
    requires off < |items|
  {
    if key in items[off] then Some(items[off][key]) else None
  }

  /** A record that moves on leaves no earlier command behind. */
  lemma AllPast(mutations: set<Command>, items: seq<Item>, command: Command)
    requires forall c | c in mutations :: IsPast(c, items)
    requires command.off < |items| && command.expected == Current(items, command.off, command.key)
    requires command.expected.Some? ==> Stage(command.expected.value.state) < Stage(command.updated.state)
    ensures var after := items[command.off := items[command.off][command.key := command.updated]];
            forall c | c in mutations + {command} :: IsPast(c, after)
  {
    var after := items[command.off := items[command.off][command.key := command.updated]];
    forall c | c in mutations + {command} ensures IsPast(c, after) {
      assert c != command ==> IsPast(c, items);
    }
  }

  /** The state of a store at some moment, as far as it only grows. */
  datatype Snapshot = Snapshot(
    history: seq<Shard>, events: seq<Event>, mutations: set<Command>, cursor: nat, faults: nat)

  /** The durable rows of one shard. `history` and `events` record them for the specification. */
  class Store {
    const k: nat
    /** How many items the shard's plan has. */
    const length: nat
    var items: seq<Item>
    var cursor: nat
    /** The commands that were committed, each recognized by its content. */
    var mutations: set<Command>
    ghost var history: seq<Shard>
    ghost var events: seq<Event>
    /** How many accesses and remote calls have failed and how often the breaker tripped, ever. */
    ghost var faults: nat

    ghost predicate Valid()
      reads this
    {
      0 < k && IsHistory(k, history, events) && history[|events|] == Shard(items, cursor)
      && cursor <= |items| == length
      && forall c | c in mutations :: IsPast(c, items)
    }

    lemma ItemInv(off: nat)
      requires Valid() && off < |items|
      ensures Inv(k, items[off])
    {
      HistoryShape(k, history, events, |events|);
      RunKeepsInv(k, ItemRun(k, history, events, off), |events|);
    }

    lemma RecordShape(off: nat, key: Key)
      requires Valid() && off < |items| && key in items[off]
      ensures RecordInv(key, items[off][key]) && key.index < k
    {
      ItemInv(off);
    }

    /** The rows changed only by events that the oracle foretells, and no fault is forgotten. */
    twostate predicate Grew(fates: Fates)
      reads this
    {
      old(events) <= events && old(history) <= history && |history| == |events| + 1
      && |items| == |old(items)| && old(cursor) <= cursor && old(faults) <= faults && old(mutations) <= mutations
      && forall n: nat | |old(events)| <= n < |events| :: Foretold(fates, history[n], events[n])
    }

    ghost function Now(): Snapshot
      reads this
    {
      Snapshot(history, events, mutations, cursor, faults)
    }

    /** What `Grew` says, of the state at `start` and now. */
    ghost predicate Since(fates: Fates, start: Snapshot)
      reads this
    {
      start.events <= events && start.history <= history && |history| == |events| + 1
      && start.cursor <= cursor && start.faults <= faults && start.mutations <= mutations
      && forall n: nat | |start.events| <= n < |events| :: Foretold(fates, history[n], events[n])
    }

    /** No row but that of `key` changed. */
    twostate predicate OnlyWrote(off: nat, key: Key)
      reads this
    {
      cursor == old(cursor) && |items| == |old(items)|
      && (forall o | 0 <= o < |items| && o != off :: items[o] == old(items[o]))
      && (off < |items| ==>
            forall x | x != key :: (x in items[off] <==> x in old(items[off]))
                                   && (x in items[off] ==> items[off][x] == old(items[off][x])))
    }

    /** No row of another item changed, and the cursor did not. */
    twostate predicate OnlyItem(off: nat)
      reads this
    {
      cursor == old(cursor) && |items| == |old(items)|
      && forall o | 0 <= o < |items| && o != off :: items[o] == old(items[o])
    }

    constructor (k: nat, length: nat)
      requires 0 < k
      ensures Valid() && this.k == k && this.length == length && cursor == 0 && events == [] && faults == 0
    {
      this.k, this.length, faults := k, length, 0;
      var empty: seq<Item> := seq(length, _ => map[]);
      items, cursor, mutations, events := empty, 0, {}, [];
      history := [Shard(empty, 0)];
    }

    /**
     * One guarded record transaction. `expected` is the snapshot that the command was computed from,
     * `None` for an insertion. A command that was committed before is acknowledged again, without
     * effect; a stale one conflicts; and any failure may hide a commit.
     */
    method Put(ghost fates: Fates, off: nat, key: Key, expected: Option<Record>, r: Record) returns (ok: bool)
      requires Valid() && off < |items|
      requires expected == Current(items, off, key) ==>
                 Write(k, items[off], key, r) && Conforms(fates(off), items[off], key, r)
      modifies this
      ensures Valid() && Grew(fates) && OnlyWrote(off, key)
      ensures ok <==> faults == old(faults)
      ensures var command := Command(off, key, expected, r);
              (ok ==> command in mutations)
              && (expected == old(Current(items, off, key)) ==> command !in old(mutations))
              && if command in mutations && command !in old(mutations)
                 then events == old(events) + [Wrote(off, key, r)] && items[off] == old(items[off])[key := r]
                      && expected == old(Current(items, off, key))
                 else events == old(events) && items == old(items) && mutations == old(mutations)
    {
      var committed: bool := *;
      if !committed {
        faults := faults + 1;
        return false;
      }
      var command := Command(off, key, expected, r);
      if command !in mutations {
        if Current(items, off, key) != expected {
          faults := faults + 1;
          return false;
        }
        Apply(fates, command);
      }
      ok := *;
      faults := if ok then faults else faults + 1;
    }

    lemma Ages(off: nat, key: Key, r: Record)
      requires Valid() && off < |items| && Write(k, items[off], key, r) && key in items[off]
      ensures Stage(items[off][key].state) < Stage(r.state)
    {
      ItemInv(off);
      WriteAdvances(k, items[off], key, r);
    }

    lemma PastAfter(command: Command)
      requires Valid() && command.off < |items| && command.expected == Current(items, command.off, command.key)
      requires Write(k, items[command.off], command.key, command.updated)
      ensures var after := items[command.off := items[command.off][command.key := command.updated]];
              forall c | c in mutations + {command} :: IsPast(c, after)
    {
      if command.key in items[command.off] { Ages(command.off, command.key, command.updated); }
      AllPast(mutations, items, command);
    }

    /** Write the row and remember the command. */
    method Apply(ghost fates: Fates, command: Command)
      requires Valid() && command.off < |items| && command.expected == Current(items, command.off, command.key)
      requires Write(k, items[command.off], command.key, command.updated)
      requires Conforms(fates(command.off), items[command.off], command.key, command.updated)
      modifies this
      ensures Valid() && Grew(fates) && OnlyWrote(command.off, command.key) && faults == old(faults)
      ensures items[command.off] == old(items[command.off])[command.key := command.updated]
      ensures mutations == old(mutations) + {command}
      ensures events == old(events) + [Wrote(command.off, command.key, command.updated)]
    {
      var off, key, r := command.off, command.key, command.updated;
      PastAfter(command);
      Append(Wrote(off, key, r), Shard(items[off := items[off][key := r]], cursor));
      items := items[off := items[off][key := r]];
      mutations := mutations + {command};
    }

    /**
     * A caller that repeats an unacknowledged command until it is acknowledged: however often it is
     * sent and wherever the failures fall, it is applied at most once, and once acknowledged, exactly
     * once.
     */
    method Resend(ghost fates: Fates, off: nat, key: Key, r: Record, tries: nat) returns (ok: bool)
      requires Valid() && off < |items|
      requires Write(k, items[off], key, r) && Conforms(fates(off), items[off], key, r)
      modifies this
      ensures Valid() && Grew(fates) && OnlyWrote(off, key)
      ensures items[off] == old(items[off]) || items[off] == old(items[off])[key := r]
      ensures ok ==> items[off] == old(items[off])[key := r]
      ensures |events| <= |old(events)| + 1
    {
      var expected := Current(items, off, key);
      ok := false;
      for n := 0 to tries
        invariant Valid() && Grew(fates) && OnlyWrote(off, key) && |events| <= |old(events)| + 1
        invariant if Command(off, key, expected, r) in mutations
                  then items[off] == old(items[off])[key := r]
                  else items[off] == old(items[off]) && |events| == |old(events)|
      {
        ok := Put(fates, off, key, expected, r);
        if ok { return; }
      }
    }

    /** The cursor row moves past `off`; the executor calls it once the item is settled. */
    method Commit(ghost fates: Fates, off: nat) returns (ok: bool)
      requires Valid() && off == cursor < |items| && Settled(k, items[off])
      modifies this
      ensures Valid() && Grew(fates) && items == old(items)
      ensures cursor == off || cursor == off + 1
      ensures ok ==> cursor == off + 1
      ensures ok <==> faults == old(faults)
    {
      var committed: bool := *;
      if !committed {
        faults := faults + 1;
        return false;
      }
      Append(Committed, Shard(items, off + 1));
      cursor := off + 1;
      ok := *;
      faults := if ok then faults else faults + 1;
    }

    /** Record a fault outside the store's own transactions. */
    ghost method Fail()
      modifies this`faults
      ensures faults == old(faults) + 1
    {
      faults := faults + 1;
    }

    ghost method Append(e: Event, next: Shard)
      requires IsHistory(k, history, events) && Happens(k, history[|events|], e, next)
      modifies this`history, this`events
      ensures events == old(events) + [e] && history == old(history) + [next]
      ensures IsHistory(k, history, events)
    {
      ghost var h, es := history, events;
      history, events := history + [next], events + [e];
      forall n: nat | n < |events| ensures HappensAt(k, history, events, n) {
        assert n < |es| ==> HappensAt(k, h, es, n);
      }
    }
  }

  /** The run's cancellation token: monotone, and anyone may set it between two polls. */
  class Token {
    var cancelled: bool

    method Poll() returns (c: bool)
      modifies this
      ensures c == cancelled && (old(cancelled) ==> cancelled)
    {
      var others: bool := *;
      cancelled := cancelled || others;
      c := cancelled;
    }

    method Cancel()
      modifies this
      ensures cancelled
    {
      cancelled := true;
    }
  }

  // ---- Driving one record ----

  datatype Fault = Halt | Systemic

  /** A finished operation, a run-level stop, or a fault of one record's content. */
  datatype Outcome<+T> = Done(value: T) | Stopped(fault: Fault) | RecordFault(attributed: Option<Key>)

  function GradedBy(fate: Fate, p: Record): Record
    requires Judges(fate, p)
  {
    p.(state := Judged, grade := Some(fate.grade))
  }

  /** The persisted content fault of a record: its verification or its judging fails. */
  predicate Faults(fate: Fate, p: Record) {
    (p.state == AssistantGenerated && fate.VerifyFault?) || (p.state == Verified && !Judges(fate, p))
  }

  /** At most one transition was made from `p`. */
  ghost predicate Advanced(p: Record, r: Record) {
    r == p
    || (Stage(r.state) > Stage(p.state)
        && (p.state == Judged ==> p.grade.Some? && r == p.(state := Reconciled(p.grade.value, p.tagged)))
        && (p.state == Admitted ==> r == p.(state := Formatted)))
  }

  /** What driving a sibling from `Judged` or beyond can have made of it so far. */
  ghost predicate DrivenFrom(first: Record, rec: Record) {
    rec == first
    || (first.state == Judged && first.grade.Some? && rec.grade == first.grade
        && (rec.state == Reconciled(first.grade.value, first.tagged)
            || (first.grade.value.decision == Accept && rec.state == Formatted)))
    || (first.state == Admitted && rec == first.(state := Formatted))
  }

  lemma DrivenStep(first: Record, p: Record, r: Record)
    requires DrivenFrom(first, p) && Advanced(p, r) && !IsUngraded(p.state) && !IsTerminal(p.state)
    ensures DrivenFrom(first, r) && !IsUngraded(r.state)
  {
  }

  lemma OneKeyWritten(a: Item, b: Item, key: Key)
    requires key in b && forall x | x != key :: (x in b <==> x in a) && (x in b ==> b[x] == a[x])
    ensures b == a[key := b[key]]
  {
  }

  class Launch {
    const store: Store
    const token: Token
    const fates: Fates

    constructor (store: Store, token: Token, fates: Fates)
      ensures this.store == store && this.token == token && this.fates == fates
    {
      this.store, this.token, this.fates := store, token, fates;
    }

    ghost predicate Valid()
      reads store
    {
      store.Valid()
    }

    /** Some access or remote call has failed, or the breaker has tripped, since. */
    twostate predicate Struck()
      reads store
    {
      store.faults != old(store.faults)
    }

    ghost predicate At(off: nat, key: Key, rec: Record)
      reads store
    {
      off < |store.items| && key in store.items[off] && store.items[off][key] == rec
    }

    /** A judged sibling may be driven on only if the group keeps it or its own grade refuses it. */
    ghost predicate Drivable(off: nat, key: Key)
      reads store
    {
      off < |store.items| && key in store.items[off]
      && (key.Original? ==>
            !IsUngraded(store.items[off][key].state)
            && (store.items[off][key].state == Judged ==>
                  AllGraded(store.k, store.items[off])
                  && (Keeps(store.k, store.items[off], key.index)
                      || (store.items[off][key].grade.Some? && !IsAdmissible(store.items[off][key].grade.value)))))
    }

    /** A remote request: answered, denied admission, or failed for every record alike. */
    method Call() returns (fault: Option<Fault>)
      modifies store`faults
      ensures old(store.faults) <= store.faults && (fault.Some? <==> Struck())
    {
      if * { return None; }
      store.Fail();
      if * { return Some(Halt); } else { return Some(Systemic); }
    }

    /** Read one row; the read itself may fail. */
    method Get(off: nat, key: Key) returns (out: Outcome<Option<Record>>)
      requires off < |store.items|
      modifies store`faults
      ensures old(store.faults) <= store.faults && (out.Stopped? <==> Struck()) && !out.RecordFault?
      ensures out.Stopped? ==> out.fault == Systemic
      ensures out.Done? ==> out.value == Current(store.items, off, key)
    {
      var ok: bool := *;
      if !ok {
        store.Fail();
        return Stopped(Systemic);
      }
      return Done(Current(store.items, off, key));
    }

    /** One lifecycle transition of `rec`, persisted before it returns. */
    method Advance(off: nat, key: Key, rec: Record) returns (out: Outcome<Record>)
      requires Valid() && At(off, key, rec) && !IsTerminal(rec.state)
      requires rec.state == Judged ==> Drivable(off, key)
      modifies store
      ensures Valid() && store.Grew(fates) && store.OnlyWrote(off, key)
      ensures out.Stopped? <==> Struck()
      ensures key in store.items[off]
      ensures out.Done? ==> At(off, key, out.value) && Stage(out.value.state) > Stage(rec.state)
      ensures out.RecordFault? ==> Faults(fates(off)(key), rec) && At(off, key, rec) && out.attributed == None
      ensures Advanced(rec, store.items[off][key])
    {
      store.RecordShape(off, key);
      match rec.state {
        case AssistantGenerated => out := Verify(off, key, rec);
        case Verified => out := Judge(off, key, rec);
        case Judged => out := Reconcile(off, key, rec);
        case Admitted => out := Format(off, key, rec);
      }
    }

    /** The verifier settles on the record, or its content faults. */
    method Verify(off: nat, key: Key, rec: Record) returns (out: Outcome<Record>)
      requires Valid() && At(off, key, rec) && rec.state == AssistantGenerated
      modifies store
      ensures Valid() && store.Grew(fates) && store.OnlyWrote(off, key)
      ensures out.Stopped? <==> Struck()
      ensures At(off, key, rec) || At(off, key, rec.(state := Verified))
      ensures out.Done? ==> At(off, key, out.value) && out.value == rec.(state := Verified)
      ensures out.RecordFault? ==> Faults(fates(off)(key), rec) && At(off, key, rec) && out.attributed == None
    {
      store.ItemInv(off);
      if fates(off)(key).VerifyFault? { return RecordFault(None); }
      out := Persist(off, key, rec, rec.(state := Verified));
    }

    /** The judge panel grades the record, is denied or unavailable, or the record's content faults. */
    method Judge(off: nat, key: Key, rec: Record) returns (out: Outcome<Record>)
      requires Valid() && At(off, key, rec) && rec.state == Verified
      modifies store
      ensures Valid() && store.Grew(fates) && store.OnlyWrote(off, key)
      ensures out.Stopped? <==> Struck()
      ensures At(off, key, rec) || (Judges(fates(off)(key), rec) && At(off, key, GradedBy(fates(off)(key), rec)))
      ensures out.Done? ==> Judges(fates(off)(key), rec) && At(off, key, out.value)
                            && out.value == GradedBy(fates(off)(key), rec)
      ensures out.RecordFault? ==> Faults(fates(off)(key), rec) && At(off, key, rec) && out.attributed == None
    {
      store.ItemInv(off);
      var fault := Call();
      if fault.Some? { return Stopped(fault.value); }
      if !Judges(fates(off)(key), rec) { return RecordFault(None); }
      out := Persist(off, key, rec, GradedBy(fates(off)(key), rec));
    }

    /** The record's own decision becomes its state. */
    method Reconcile(off: nat, key: Key, rec: Record) returns (out: Outcome<Record>)
      requires Valid() && At(off, key, rec) && rec.state == Judged && Drivable(off, key) && rec.grade.Some?
      modifies store
      ensures Valid() && store.Grew(fates) && store.OnlyWrote(off, key)
      ensures out.Stopped? <==> Struck()
      ensures At(off, key, rec) || At(off, key, rec.(state := Reconciled(rec.grade.value, rec.tagged)))
      ensures out.Done? ==> At(off, key, out.value)
                            && out.value == rec.(state := Reconciled(rec.grade.value, rec.tagged))
      ensures !out.RecordFault?
    {
      store.ItemInv(off);
      if key.Retry? { assert EstablishedAt(store.k, store.items[off], key.index); }
      out := Persist(off, key, rec, rec.(state := Reconciled(rec.grade.value, rec.tagged)));
    }

    /** The admitted record is rendered; it was rendered for the judge already, so it cannot fault. */
    method Format(off: nat, key: Key, rec: Record) returns (out: Outcome<Record>)
      requires Valid() && At(off, key, rec) && rec.state == Admitted
      modifies store
      ensures Valid() && store.Grew(fates) && store.OnlyWrote(off, key)
      ensures out.Stopped? <==> Struck()
      ensures At(off, key, rec) || At(off, key, rec.(state := Formatted))
      ensures out.Done? ==> At(off, key, out.value) && out.value == rec.(state := Formatted)
      ensures !out.RecordFault?
    {
      store.ItemInv(off);
      if key.Retry? { assert EstablishedAt(store.k, store.items[off], key.index); }
      if !rec.renders { return RecordFault(None); }
      out := Persist(off, key, rec, rec.(state := Formatted));
    }

    /** Commit `next` against the snapshot `rec`; an admitted record's prior is embedded afterwards. */
    method Persist(off: nat, key: Key, rec: Record, next: Record) returns (out: Outcome<Record>)
      requires Valid() && At(off, key, rec)
      requires Write(store.k, store.items[off], key, next) && Conforms(fates(off), store.items[off], key, next)
      modifies store
      ensures Valid() && store.Grew(fates) && store.OnlyWrote(off, key)
      ensures out.Stopped? <==> Struck()
      ensures At(off, key, rec) || At(off, key, next)
      ensures out.Done? ==> At(off, key, next) && out.value == next
      ensures !out.RecordFault?
    {
      var ok := store.Put(fates, off, key, Some(rec), next);
      if !ok { return Stopped(Systemic); }
      if next.state == Admitted {
        var fault := Call();
        if fault.Some? { return Stopped(fault.value); }
      }
      return Done(next);
    }

    /** One transition of a record that is being driven from `first`. */
    method Hop(off: nat, key: Key, rec: Record, ghost first: Record) returns (out: Outcome<Record>)
      requires Valid() && At(off, key, rec) && Drivable(off, key) && !IsTerminal(rec.state)
      requires key.Original? ==> DrivenFrom(first, rec)
      modifies store
      ensures Valid() && store.Grew(fates) && store.OnlyWrote(off, key)
      ensures out.Stopped? <==> Struck()
      ensures key in store.items[off]
      ensures out.Done? ==> At(off, key, out.value) && Drivable(off, key) && Stage(out.value.state) > Stage(rec.state)
      ensures out.RecordFault? ==>
                Faults(fates(off)(key), store.items[off][key]) && key.Retry? && out.attributed == None
      ensures key.Original? ==> DrivenFrom(first, store.items[off][key])
    {
      out := Advance(off, key, rec);
      if key.Original? { DrivenStep(first, rec, store.items[off][key]); }
    }

    /**
     * Drive a record until it is terminal or the token is set. The pipeline is so short that the
     * defensive cap of sixteen transitions is never met.
     */
    method Drive(off: nat, key: Key) returns (out: Outcome<Record>)
      requires Valid() && Drivable(off, key)
      modifies store, token
      ensures Valid() && store.Grew(fates) && store.OnlyWrote(off, key)
      ensures out.Stopped? <==> Struck()
      ensures old(token.cancelled) ==> token.cancelled
      ensures key in store.items[off]
      ensures out.Done? ==> At(off, key, out.value) && (token.cancelled || IsTerminal(out.value.state))
      ensures out.RecordFault? ==> key in store.items[off] && Faults(fates(off)(key), store.items[off][key])
                                   && key.Retry? && out.attributed == None
      ensures key.Original? ==> DrivenFrom(old(store.items[off][key]), store.items[off][key])
    {
      var rec := store.items[off][key];
      ghost var first := rec;
      for n := 0 to 16
        invariant Valid() && store.Grew(fates) && store.OnlyWrote(off, key) && !Struck()
        invariant old(token.cancelled) ==> token.cancelled
        invariant At(off, key, rec) && Drivable(off, key)
        invariant n <= Stage(rec.state)
        invariant key.Original? ==> DrivenFrom(first, rec)
      {
        if IsTerminal(rec.state) { return Done(rec); }
        var cancelled := token.Poll();
        if cancelled { return Done(rec); }
        out := Hop(off, key, rec, first);
        if !out.Done? { return; }
        rec := out.value;
      }
      assert false;
    }

    /**
     * Terminalize the faulting record at `Error`, creating its stub if the fault came first. A
     * record that already has its decision is left alone.
     */
    method Park(off: nat, key: Key) returns (out: Outcome<Record>)
      requires Valid() && off < |store.items| && key.index < store.k
      requires key.Retry? ==> Original(key.index) in store.items[off]
                              && store.items[off][Original(key.index)].state == Revising
      requires if key !in store.items[off] then fates(off)(key).GenerationFault?
               else IsDecided(store.items[off][key].state) || Faults(fates(off)(key), store.items[off][key])
      modifies store
      ensures Valid() && store.Grew(fates) && store.OnlyWrote(off, key)
      ensures out.Stopped? <==> Struck()
      ensures out.Done? || out == Stopped(Systemic)
      ensures key in old(store.items[off]) && IsDecided(old(store.items[off][key].state)) ==>
                store.items == old(store.items) && (out.Done? ==> out.value == old(store.items[off][key]))
      ensures out.Done? && !(key in old(store.items[off]) && IsDecided(old(store.items[off][key].state))) ==>
                At(off, key, out.value) && out.value.state == Error
    {
      var read := Get(off, key);
      if !read.Done? { return Stopped(Systemic); }
      var ok;
      if read.value.Some? {
        var existing := read.value.value;
        if IsDecided(existing.state) { return Done(existing); }
        ok := store.Put(fates, off, key, Some(existing), existing.(state := Error));
      } else {
        ok := store.Put(fates, off, key, None, Stub());
      }
      if !ok { return Stopped(Systemic); }
      return Done(store.items[off][key]);
    }

    /** The single teacher call of a record id; its precondition is that the id is not stored. */
    method CallTeacher(off: nat, key: Key) returns (fault: Option<Fault>)
      requires off < |store.items| && key !in store.items[off]
      modifies store`faults
      ensures old(store.faults) <= store.faults && (fault.Some? <==> Struck())
    {
      fault := Call();
    }

    /** Generate a record and store it at `AssistantGenerated`; `None` when cancelled beforehand. */
    method Generate(off: nat, key: Key) returns (out: Outcome<Option<Record>>)
      requires Valid() && off < |store.items| && key.index < store.k && key !in store.items[off]
      requires key.Retry? ==> Original(key.index) in store.items[off]
                              && store.items[off][Original(key.index)].state == Revising
      modifies store, token
      ensures Valid() && store.Grew(fates) && store.OnlyWrote(off, key)
      ensures out.Stopped? <==> Struck()
      ensures old(token.cancelled) ==> token.cancelled
      ensures out.Done? && out.value.Some? ==>
                At(off, key, out.value.value) && out.value.value.state == AssistantGenerated
      ensures out.Done? && out.value.None? ==> token.cancelled && store.items == old(store.items)
      ensures out.RecordFault? ==> key !in store.items[off] && fates(off)(key).GenerationFault?
    {
      var cancelled := token.Poll();
      if cancelled { return Done(None); }
      var fault := CallTeacher(off, key);
      if fault.Some? { return Stopped(fault.value); }
      if fates(off)(key).GenerationFault? { return RecordFault(None); }
      var rec := Created(fates(off), key);
      var ok := store.Put(fates, off, key, None, rec);
      return if ok then Done(Some(rec)) else Stopped(Systemic);
    }

    // ---- One best-of-k group ----

    /**
     * One sibling's task may be scheduled: what it holds is what the store holds. A failed task
     * shows a fault beyond the `base` that were counted when its group began.
     */
    ghost predicate TaskOk(off: nat, i: nat, task: Task, base: nat)
      reads store, token
    {
      off < |store.items| && match task
      case Pending => true
      case Running(rec, hops) => At(off, Original(i), rec) && hops <= Stage(rec.state)
      case Finished(Driven(rec)) => At(off, Original(i), rec) && (token.cancelled || !IsUngraded(rec.state))
      case Finished(Interrupted) => token.cancelled
      case Finished(Failed(_)) => base < store.faults
    }

    /** One turn of sibling `i`: one step of its future, with at most one store transaction. */
    method PollTask(off: nat, i: nat, task: Task, ghost base: nat) returns (next: Task)
      requires Valid() && i < store.k && !task.Finished? && TaskOk(off, i, task, base) && base <= store.faults
      modifies store, token
      ensures Valid() && store.Grew(fates) && store.OnlyWrote(off, Original(i))
      ensures old(token.cancelled) ==> token.cancelled
      ensures TaskOk(off, i, next, base) && Polls(next) < Polls(task)
      ensures Struck() <==> next.Finished? && next.out.Failed?
    {
      match task
      case Pending => next := Start(off, i, base);
      case Running(rec, hops) => next := Continue(off, i, rec, hops, base);
    }

    /** Resume the stored sibling, or generate it; what faults here is parked. */
    method Start(off: nat, i: nat, ghost base: nat) returns (next: Task)
      requires Valid() && i < store.k && off < |store.items| && base <= store.faults
      modifies store, token
      ensures Valid() && store.Grew(fates) && store.OnlyWrote(off, Original(i))
      ensures old(token.cancelled) ==> token.cancelled
      ensures TaskOk(off, i, next, base) && !next.Pending?
      ensures Struck() <==> next.Finished? && next.out.Failed?
    {
      var read := Get(off, Original(i));
      if !read.Done? { return Finished(Failed(Systemic)); }
      if read.value.Some? { return Running(read.value.value, 0); }
      var generated := Generate(off, Original(i));
      match generated
      case Done(None) => return Finished(Interrupted);
      case Done(Some(rec)) => return Running(rec, 0);
      case Stopped(fault) => return Finished(Failed(fault));
      case RecordFault(_) => next := ParkTask(off, i, base);
    }

    /** Drive the sibling one transition nearer to `Judged`; what faults here is parked. */
    method Continue(off: nat, i: nat, rec: Record, hops: nat, ghost base: nat) returns (next: Task)
      requires Valid() && i < store.k && At(off, Original(i), rec) && hops <= Stage(rec.state) && base <= store.faults
      modifies store, token
      ensures Valid() && store.Grew(fates) && store.OnlyWrote(off, Original(i))
      ensures old(token.cancelled) ==> token.cancelled
      ensures TaskOk(off, i, next, base) && Polls(next) < 6 - Stage(rec.state)
      ensures Struck() <==> next.Finished? && next.out.Failed?
    {
      var cancelled := token.Poll();
      if cancelled || !(rec.state in {AssistantGenerated, Verified}) {
        store.RecordShape(off, Original(i));
        return Finished(Driven(rec));
      }
      var out := Advance(off, Original(i), rec);
      match out
      case Done(advanced) => return Running(advanced, hops + 1);
      case Stopped(fault) => return Finished(Failed(fault));
      case RecordFault(_) => next := ParkTask(off, i, base);
    }

    /** Let sibling `i` take its turn among the others. */
    method Turn(off: nat, i: nat, tasks: seq<Task>, ghost base: nat) returns (after: seq<Task>)
      requires Valid() && i < store.k == |tasks| && !tasks[i].Finished? && base <= store.faults
      requires forall j | 0 <= j < |tasks| :: TaskOk(off, j, tasks[j], base)
      modifies store, token
      ensures Valid() && store.Grew(fates) && store.OnlyWrote(off, Original(i))
      ensures old(token.cancelled) ==> token.cancelled
      ensures |after| == |tasks| && (forall j | 0 <= j < |tasks| && j != i :: after[j] == tasks[j])
      ensures forall j | 0 <= j < |after| :: TaskOk(off, j, after[j], base)
      ensures TotalPolls(after) < TotalPolls(tasks)
      ensures Struck() <==> after[i].Finished? && after[i].out.Failed?
    {
      var next := PollTask(off, i, tasks[i], base);
      after := tasks[i := next];
      TotalPollsDrops(tasks, i, next);
      assert forall j: nat | j != i :: Original(j) != Original(i);
    }

    method ParkTask(off: nat, i: nat, ghost base: nat) returns (next: Task)
      requires Valid() && off < |store.items| && i < store.k && base <= store.faults
      requires if Original(i) in store.items[off] then Faults(fates(off)(Original(i)), store.items[off][Original(i)])
               else fates(off)(Original(i)).GenerationFault?
      modifies store
      ensures Valid() && store.Grew(fates) && store.OnlyWrote(off, Original(i))
      ensures next.Finished? && TaskOk(off, i, next, base)
      ensures Struck() <==> next.out.Failed?
    {
      var parked := Park(off, Original(i));
      next := Finished(if parked.Done? then Driven(parked.value) else Failed(Systemic));
    }

    /**
     * Drive every sibling to `Judged`, in any interleaving: the tasks take their turns in any
     * order, and all of them settle. A fault seals dispatch at once.
     */
    method FanOut(off: nat) returns (tasks: seq<Task>, interrupted: bool, fatal: bool)
      requires Valid() && off < |store.items|
      modifies store, token
      ensures Valid() && store.Grew(fates) && store.OnlyItem(off)
      ensures old(token.cancelled) || interrupted || fatal ==> token.cancelled
      ensures fatal ==> Struck()
      ensures Struck() ==> interrupted || fatal
      ensures |tasks| == store.k
      ensures forall i | 0 <= i < store.k :: tasks[i].Finished? && TaskOk(off, i, tasks[i], old(store.faults))
      ensures interrupted || fatal || forall i | 0 <= i < store.k :: tasks[i].out.Driven?
    {
      ghost var base := store.faults;
      tasks, interrupted, fatal := seq(store.k, _ => Pending), false, false;
      while exists i :: 0 <= i < |tasks| && !tasks[i].Finished?
        invariant Valid() && store.Grew(fates) && store.OnlyItem(off) && |tasks| == store.k
        invariant forall i | 0 <= i < |tasks| :: TaskOk(off, i, tasks[i], base)
        invariant forall i | 0 <= i < |tasks| && tasks[i].Finished? && !tasks[i].out.Driven? :: interrupted || fatal
        invariant old(token.cancelled) || interrupted || fatal ==> token.cancelled
        invariant fatal ==> base < store.faults
        invariant base < store.faults ==> interrupted || fatal
        decreases TotalPolls(tasks)
      {
        var i :| 0 <= i < |tasks| && !tasks[i].Finished?;
        tasks := Turn(off, i, tasks, base);
        var i', f' := Join(tasks[i], base);
        interrupted, fatal := interrupted || i', fatal || f';
      }
    }

    /** What a sibling's end means for its group; a run-level fault cancels the whole run. */
    method Join(task: Task, ghost base: nat) returns (interrupted: bool, fatal: bool)
      requires task.Finished? && task.out.Interrupted? ==> token.cancelled
      requires task.Finished? && task.out.Failed? ==> base < store.faults
      modifies token
      ensures fatal ==> base < store.faults
      ensures old(token.cancelled) || interrupted || fatal ==> token.cancelled
      ensures task.Finished? && !task.out.Driven? ==> interrupted || fatal
    {
      interrupted, fatal := false, false;
      match task
      case Finished(Driven(_)) => interrupted := token.Poll();
      case Finished(Interrupted) => interrupted := true;
      case Finished(Failed(fault)) =>
        token.Cancel();
        interrupted, fatal := fault == Halt, fault == Systemic;
      case _ =>
    }

    /** Read every stored sibling before anything is dispatched; a cancellation ends the reading. */
    method ReadGroup(off: nat) returns (out: Outcome<()>)
      requires Valid() && off < |store.items|
      modifies store`faults, token
      ensures Valid() && old(store.faults) <= store.faults && (out.Stopped? <==> Struck()) && !out.RecordFault?
      ensures old(token.cancelled) ==> token.cancelled
    {
      for i := 0 to store.k
        invariant Valid() && !Struck()
        invariant old(token.cancelled) ==> token.cancelled
      {
        var cancelled := token.Poll();
        if cancelled { break; }
        var read := Get(off, Original(i));
        if !read.Done? { return Stopped(Systemic); }
      }
      return Done(());
    }

    /** Run the best-of-k group of one seed item. */
    method RunGroup(off: nat) returns (out: Outcome<Group>)
      requires Valid() && off < |store.items|
      modifies store, token
      ensures Valid() && store.Grew(fates) && store.OnlyItem(off)
      ensures out.Stopped? ==> Struck()
      ensures Struck() ==> out.Stopped? || token.cancelled
      ensures old(token.cancelled) ==> token.cancelled
      ensures !out.RecordFault?
      ensures out.Done? && out.value.interrupted ==> token.cancelled
      ensures out.Done? && !out.value.interrupted ==>
                Mirrors(off, out.value.siblings) && AllTerminal(out.value.siblings)
                && KeepIs(store.k, store.items[off], out.value.best)
    {
      var read := ReadGroup(off);
      if !read.Done? { return Stopped(Systemic); }
      var stopped := token.Poll();
      if stopped { return Done(Group([], None, true)); }
      var tasks, interrupted, fatal := FanOut(off);
      if fatal { return Stopped(Systemic); }
      stopped := token.Poll();
      if interrupted || stopped { return Done(Group([], None, true)); }
      var siblings := seq(store.k, i requires 0 <= i < store.k => tasks[i].out.rec);
      forall i: nat | i < store.k ensures At(off, Original(i), siblings[i]) && !IsUngraded(siblings[i].state) {
        assert TaskOk(off, i, tasks[i], old(store.faults));
      }
      var selected := SelectAndFinalize(off, siblings);
      if !selected.Done? { return Stopped(selected.fault); }
      stopped := token.Poll();
      return Done(Group(selected.value.0, selected.value.1, stopped));
    }

    /** `siblings` is the group as the store holds it. */
    ghost predicate Mirrors(off: nat, siblings: seq<Record>)
      reads store
    {
      |siblings| == store.k && forall i | 0 <= i < store.k :: At(off, Original(i), siblings[i])
    }

    ghost predicate Graded(off: nat, siblings: seq<Record>)
      reads store
    {
      off < |store.items| && GroupIs(store.k, store.items[off], siblings)
    }

    ghost predicate AllTerminal(siblings: seq<Record>) {
      forall i | 0 <= i < |siblings| :: IsTerminal(siblings[i].state)
    }

    /**
     * Admit the single best sibling and retain the rest. A winner established by an earlier
     * launch is never re-elected. No fault of one record's content can surface from here.
     */
    method SelectAndFinalize(off: nat, siblings: seq<Record>) returns (out: Outcome<(seq<Record>, Option<nat>)>)
      requires Valid() && off < |store.items| && Graded(off, siblings)
      modifies store, token
      ensures Valid() && store.Grew(fates) && store.OnlyItem(off)
      ensures out.Stopped? <==> Struck()
      ensures old(token.cancelled) ==> token.cancelled
      ensures !out.RecordFault?
      ensures out.Done? ==> Mirrors(off, out.value.0) && KeepIs(store.k, store.items[off], out.value.1)
      ensures out.Done? ==> token.cancelled || AllTerminal(out.value.0)
    {
      var group := siblings;
      var keep := FirstEstablished(group);
      if keep == None {
        keep := Elect(group);
      }
      ChoiceIsKeep(store.k, store.items[off], group, keep);
      if keep.Some? {
        var finalized := Finish(off, keep.value, group, keep);
        if !finalized.Done? { return Stopped(finalized.fault); }
        group := group[keep.value := finalized.value];
      }
      var retained := RetainRemaining(off, group, keep);
      if !retained.Done? { return Stopped(retained.fault); }
      return Done((retained.value, keep));
    }

    /** Every other judged sibling is finished: overridden to `Rejected`, or by its own decision. */
    method RetainRemaining(off: nat, siblings: seq<Record>, keep: Option<nat>) returns (out: Outcome<seq<Record>>)
      requires Valid() && off < |store.items| && Graded(off, siblings)
      requires KeepIs(store.k, store.items[off], keep)
      requires keep.Some? ==> token.cancelled || IsTerminal(siblings[keep.value].state)
      modifies store, token
      ensures Valid() && store.Grew(fates) && store.OnlyItem(off)
      ensures out.Stopped? <==> Struck()
      ensures old(token.cancelled) ==> token.cancelled
      ensures !out.RecordFault?
      ensures out.Done? ==> Mirrors(off, out.value) && KeepIs(store.k, store.items[off], keep)
      ensures out.Done? ==> token.cancelled || AllTerminal(out.value)
    {
      var group := siblings;
      for i := 0 to store.k
        invariant Valid() && store.Grew(fates) && store.OnlyItem(off) && Graded(off, group) && !Struck()
        invariant old(token.cancelled) ==> token.cancelled
        invariant KeepIs(store.k, store.items[off], keep)
        invariant token.cancelled
                  || forall j | 0 <= j < store.k && (j < i || keep == Some(j)) :: IsTerminal(group[j].state)
      {
        if keep != Some(i) {
          var retained := Finish(off, i, group, keep);
          if !retained.Done? { return Stopped(retained.fault); }
          group := group[i := retained.value];
        }
      }
      return Done(group);
    }

    /** Drive the kept sibling or retain another one; the group's choice stays what it was. */
    method Finish(off: nat, i: nat, group: seq<Record>, keep: Option<nat>) returns (out: Outcome<Record>)
      requires Valid() && i < store.k && Graded(off, group) && KeepIs(store.k, store.items[off], keep)
      modifies store, token
      ensures Valid() && store.Grew(fates) && store.OnlyItem(off)
      ensures out.Stopped? <==> Struck()
      ensures old(token.cancelled) ==> token.cancelled
      ensures !out.RecordFault?
      ensures out.Done? ==> Graded(off, group[i := out.value]) && KeepIs(store.k, store.items[off], keep)
      ensures out.Done? ==> token.cancelled || IsTerminal(out.value.state)
    {
      ghost var a := store.items[off];
      store.ItemInv(off);
      if keep == Some(i) {
        out := Drive(off, Original(i));
      } else {
        NotKept(store.k, a, keep, i);
        out := Retain(off, i, group[i]);
      }
      if out.Done? {
        OneKeyWritten(a, store.items[off], Original(i));
        store.ItemInv(off);
        KeepStays(store.k, a, group, keep, i, out.value);
      }
    }

    /** Finish one sibling the group does not keep; one that is no longer judged is left alone. */
    method Retain(off: nat, i: nat, sib: Record) returns (out: Outcome<Record>)
      requires Valid() && i < store.k && At(off, Original(i), sib)
      requires AllGraded(store.k, store.items[off]) && !Keeps(store.k, store.items[off], i) && !IsEstablished(sib.state)
      modifies store, token
      ensures Valid() && store.Grew(fates) && store.OnlyWrote(off, Original(i))
      ensures out.Stopped? <==> Struck()
      ensures old(token.cancelled) ==> token.cancelled
      ensures !out.RecordFault?
      ensures out.Done? ==> At(off, Original(i), out.value) && !IsUngraded(out.value.state)
      ensures out.Done? && out.value != sib ==> sib.state == Judged && out.value.state in {Rejected, NeedsReview}
      ensures out.Done? ==> token.cancelled || IsTerminal(out.value.state)
    {
      store.RecordShape(off, Original(i));
      if sib.state != Judged { return Done(sib); }
      if IsAdmissible(sib.grade.value) {
        var ok := store.Put(fates, off, Original(i), Some(sib), sib.(state := Rejected));
        return if ok then Done(sib.(state := Rejected)) else Stopped(Systemic);
      }
      out := Drive(off, Original(i));
    }

    // ---- The bounded revise and the shard loop ----

    /** Read the retry of a revising original, or generate it; false when cancelled first. */
    method StartRetry(off: nat, i: nat) returns (out: Outcome<bool>)
      requires Valid() && off < |store.items| && i < store.k
      requires Original(i) in store.items[off] && store.items[off][Original(i)].state == Revising
      modifies store, token
      ensures Valid() && store.Grew(fates) && store.OnlyWrote(off, Retry(i))
      ensures out.Stopped? <==> Struck()
      ensures old(token.cancelled) ==> token.cancelled
      ensures out.Done? ==> if out.value then Retry(i) in store.items[off] else token.cancelled
      ensures out.RecordFault? ==> Retry(i) !in store.items[off] && fates(off)(Retry(i)).GenerationFault?
    {
      var read := Get(off, Retry(i));
      if !read.Done? { return Stopped(Systemic); }
      if read.value.Some? { return Done(true); }
      var cancelled := token.Poll();
      if cancelled { return Done(false); }
      var generated := Generate(off, Retry(i));
      match generated
      case Done(stored) => return Done(stored.Some?);
      case Stopped(fault) => return Stopped(fault);
      case RecordFault(_) => return RecordFault(None);
    }

    /**
     * The single retry of a revising winner. It returns the original only when cancelled first;
     * the retry itself can never come back at `Revising`, and its faults are its own.
     */
    method ReviseOnce(off: nat, i: nat, original: Record) returns (out: Outcome<Record>)
      requires Valid() && i < store.k && At(off, Original(i), original) && original.state == Revising
      modifies store, token
      ensures Valid() && store.Grew(fates) && store.OnlyWrote(off, Retry(i))
      ensures out.Stopped? <==> Struck()
      ensures old(token.cancelled) ==> token.cancelled
      ensures out.Done? && out.value.state == Revising ==> token.cancelled
      ensures out.Done? && out.value.state != Revising ==>
                At(off, Retry(i), out.value) && (token.cancelled || IsTerminal(out.value.state))
      ensures out.RecordFault? ==> out.attributed == Some(Retry(i))
      ensures out.RecordFault? ==>
                if Retry(i) in store.items[off] then Faults(fates(off)(Retry(i)), store.items[off][Retry(i)])
                else fates(off)(Retry(i)).GenerationFault?
    {
      var cancelled := token.Poll();
      if cancelled { return Done(original); }
      var started := StartRetry(off, i);
      if started.Stopped? { return Stopped(started.fault); }
      if started.RecordFault? { return RecordFault(Some(Retry(i))); }
      if !started.value { return Done(original); }
      out := Drive(off, Retry(i));
      if out.RecordFault? { return RecordFault(Some(Retry(i))); }
      store.RecordShape(off, Retry(i));
    }

    /** Take a revising member's retry to its end, parking the retry if its own content faults. */
    method ReviseMember(off: nat, i: nat, original: Record) returns (out: Outcome<ItemOutcome>)
      requires Valid() && i < store.k && At(off, Original(i), original) && original.state == Revising
      modifies store, token
      ensures Valid() && store.Grew(fates) && store.OnlyWrote(off, Retry(i))
      ensures out.Stopped? <==> Struck()
      ensures old(token.cancelled) ==> token.cancelled
      ensures !out.RecordFault?
      ensures out == Done(ItemSettled) ==>
                Retry(i) in store.items[off] && IsTerminal(store.items[off][Retry(i)].state)
      ensures out.Done? && out.value != ItemSettled ==> token.cancelled && out.value == ItemInterrupted
    {
      var cancelled := token.Poll();
      if cancelled { return Done(ItemInterrupted); }
      var revised := ReviseOnce(off, i, original);
      match revised
      case Done(retry) =>
        cancelled := token.Poll();
        if cancelled && !IsTerminal(retry.state) { return Done(ItemInterrupted); }
        if retry.state == Revising { return Done(if cancelled then ItemInterrupted else PendingRevise); }
        return Done(ItemSettled);
      case RecordFault(_) =>
        var parked := Park(off, Retry(i));
        return if parked.Done? then Done(ItemSettled) else Stopped(parked.fault);
      case Stopped(fault) => return Stopped(fault);
    }

    /** The bounded revise of every member of a terminal group that stands at `Revising`. */
    method ReviseMembers(off: nat, siblings: seq<Record>) returns (out: Outcome<ItemOutcome>)
      requires Valid() && off < |store.items| && Mirrors(off, siblings) && AllTerminal(siblings)
      modifies store, token
      ensures Valid() && store.Grew(fates) && store.OnlyItem(off)
      ensures out.Stopped? <==> Struck()
      ensures old(token.cancelled) ==> token.cancelled
      ensures !out.RecordFault?
      ensures out == Done(ItemSettled) ==> Settled(store.k, store.items[off]) && Mirrors(off, siblings)
      ensures out.Done? && out.value != ItemSettled ==> token.cancelled && out.value == ItemInterrupted
    {
      for i := 0 to |siblings|
        invariant Valid() && store.Grew(fates) && store.OnlyItem(off) && !Struck()
        invariant old(token.cancelled) ==> token.cancelled
        invariant RevisedUpTo(store.k, store.items[off], siblings, i)
      {
        if siblings[i].state == Revising {
          ghost var a := store.items[off];
          out := ReviseMember(off, i, siblings[i]);
          if out != Done(ItemSettled) { return; }
          RevisedOneMore(store.k, a, store.items[off], siblings, i);
        }
      }
      return Done(ItemSettled);
    }

    /** Some sibling has its decision; in a settled item all others stand at `Error`. */
    ghost predicate SomeDecidedIn(off: nat)
      reads store
    {
      off < |store.items|
      && exists i: nat :: i < store.k && Original(i) in store.items[off]
                          && IsDecided(store.items[off][Original(i)].state)
    }

    /** Run one seed item: its group, then the retry of a revising member. */
    method ProcessItem(off: nat) returns (out: Outcome<(ItemOutcome, Option<ItemHealth>)>)
      requires Valid() && off < |store.items|
      modifies store, token
      ensures Valid() && store.Grew(fates) && store.OnlyItem(off)
      ensures out.Stopped? ==> Struck()
      ensures Struck() ==> out.Stopped? || token.cancelled
      ensures old(token.cancelled) ==> token.cancelled
      ensures !out.RecordFault?
      ensures out.Done? && out.value.0 == ItemSettled ==> Settled(store.k, store.items[off])
      ensures out.Done? && out.value.0 != ItemSettled ==> token.cancelled && out.value.0 == ItemInterrupted
      ensures out.Done? && out.value.0 == ItemSettled ==>
                out.value.1 == Some(if SomeDecidedIn(off) then SomeDecided else AllErrored)
    {
      var ran := RunGroup(off);
      if !ran.Done? { return Stopped(ran.fault); }
      var health := GroupHealth(ran.value.siblings);
      if ran.value.interrupted { return Done((ItemInterrupted, None)); }
      var revised := ReviseMembers(off, ran.value.siblings);
      if !revised.Done? { return Stopped(revised.fault); }
      return Done((revised.value, if revised.value == ItemInterrupted then None else health));
    }

    /** Process the item at the cursor and, once it is settled, commit it; false ends the shard's loop. */
    method CommitItem() returns (out: Outcome<bool>)
      requires Valid() && store.cursor < |store.items|
      modifies store, token
      ensures Valid() && store.Grew(fates)
      ensures out.Stopped? ==> Struck()
      ensures Struck() ==> out.Stopped? || token.cancelled
      ensures old(token.cancelled) ==> token.cancelled
      ensures !out.RecordFault?
      ensures out.Done? ==> if out.value then store.cursor == old(store.cursor) + 1
                            else token.cancelled && store.cursor == old(store.cursor)
    {
      var off := store.cursor;
      var processed := ProcessItem(off);
      match processed
      case Stopped(Halt) =>
        token.Cancel();
        return Done(false);
      case Stopped(Systemic) => return Stopped(Systemic);
      case Done((outcome, health)) =>
        // The circuit breaker counts errored items of every shard, so it may trip on any of them.
        var tripped: bool := *;
        if health == Some(AllErrored) && tripped {
          store.Fail();
          return Stopped(Systemic);
        }
        match outcome {
          case ItemSettled =>
            var ok := store.Commit(fates, off);
            return if ok then Done(true) else Stopped(Systemic);
          case PendingRevise => return Done(false);
          case ItemInterrupted => return Done(false);
        }
    }

    /** The shard's cursor row; the read itself may fail. */
    method LoadCursor() returns (out: Outcome<nat>)
      modifies store`faults
      ensures old(store.faults) <= store.faults && (out.Stopped? <==> Struck()) && !out.RecordFault?
      ensures out.Done? ==> out.value == store.cursor
    {
      var ok: bool := *;
      if !ok {
        store.Fail();
        return Stopped(Systemic);
      }
      return Done(store.cursor);
    }

    /**
     * What a shard's task has made of the shard. A fault beyond the `base` that were counted when it
     * began shows as a failure or has set the token, and every early end has set it.
     */
    ghost predicate ShardOk(task: ShardTask, base: nat, cancelled: bool)
      reads store
    {
      base <= store.faults && match task
      case Queued => base == store.faults && store.cursor <= |store.items|
      case Going(start, off) =>
        start <= |store.items| && off <= |store.items| && store.cursor == (if off < start then start else off)
        && (cancelled || base == store.faults)
      case Ended(true) => base < store.faults
      case _ => cancelled || (base == store.faults && store.cursor == |store.items|)
    }

    /** One turn of the shard's loop: load the cursor, pass over a committed item, or take the next one. */
    method ShardTurn(task: ShardTask, ghost base: nat) returns (next: ShardTask)
      requires Valid() && (task.Queued? || task.Going?) && ShardOk(task, base, token.cancelled)
      modifies store, token
      ensures Valid() && store.Grew(fates)
      ensures old(token.cancelled) ==> token.cancelled
      ensures ShardOk(next, base, token.cancelled) && Turns(next, store.length) < Turns(task, store.length)
      ensures next.Going? || next.Ended?
    {
      match task
      case Queued =>
        var loaded := LoadCursor();
        return if loaded.Done? then Going(loaded.value, 0) else Ended(true);
      case Going(start, off) =>
        if off == |store.items| { return Ended(false); }
        if off < start { return Going(start, off + 1); }
        var cancelled := token.Poll();
        if cancelled { return Ended(false); }
        var committed := CommitItem();
        if !committed.Done? { return Ended(true); }
        return if committed.value then Going(start, off + 1) else Ended(false);
    }

    /**
     * Drive the shard's items from its cursor. A return without failure leaves the cursor at the
     * end of the shard unless the token was set: every early break has set it.
     */
    method RunShard() returns (out: Outcome<()>)
      requires Valid()
      modifies store, token
      ensures Valid() && store.Grew(fates)
      ensures out.Stopped? ==> Struck()
      ensures Struck() ==> out.Stopped? || token.cancelled
      ensures old(token.cancelled) ==> token.cancelled
      ensures !out.RecordFault?
      ensures out.Done? ==> token.cancelled || store.cursor == |store.items|
    {
      ghost var base := store.faults;
      var task := Queued;
      while !task.Ended?
        invariant Valid() && store.Grew(fates) && ShardOk(task, base, token.cancelled)
        invariant task.Queued? || task.Going? || task.Ended?
        invariant old(token.cancelled) ==> token.cancelled
        decreases Turns(task, store.length)
      {
        task := ShardTurn(task, base);
      }
      return if task.failed then Stopped(Systemic) else Done(());
    }
  }

  /** The first `n` members that stand at `Revising` have a terminal retry; all members are terminal. */
  ghost predicate RevisedUpTo(k: nat, a: Item, siblings: seq<Record>, n: nat) {
    |siblings| == k && forall i: nat | i < k ::
      Original(i) in a && a[Original(i)] == siblings[i] && IsTerminal(siblings[i].state)
      && (i < n && siblings[i].state == Revising ==> Retry(i) in a && IsTerminal(a[Retry(i)].state))
  }

  lemma RevisedOneMore(k: nat, a: Item, b: Item, siblings: seq<Record>, n: nat)
    requires RevisedUpTo(k, a, siblings, n)
    requires forall x | x != Retry(n) :: (x in b <==> x in a) && (x in b ==> b[x] == a[x])
    requires Retry(n) in b && IsTerminal(b[Retry(n)].state)
    ensures RevisedUpTo(k, b, siblings, n + 1)
  {
    forall i: nat | i < k ensures Original(i) in b && b[Original(i)] == siblings[i]
      && (i < n && siblings[i].state == Revising ==> Retry(i) in b && IsTerminal(b[Retry(i)].state))
    {
      assert Original(i) != Retry(n) && (i < n ==> Retry(i) != Retry(n));
    }
  }

  datatype ItemOutcome = ItemSettled | PendingRevise | ItemInterrupted

  datatype ItemHealth = SomeDecided | AllErrored

  /** An empty group is neutral; otherwise one decided record makes the item healthy. */
  function GroupHealth(siblings: seq<Record>): (health: Option<ItemHealth>)
    ensures health == None <==> siblings == []
    ensures health == Some(SomeDecided) <==> exists s :: s in siblings && IsDecided(s.state)
  {
    if siblings == [] then None
    else if exists i :: 0 <= i < |siblings| && IsDecided(siblings[i].state) then Some(SomeDecided)
    else Some(AllErrored)
  }

  // ---- Whole launches, and launches after launches ----

  /** The terminal summary of a launch. */
  datatype Report = Report(completed: bool, pending: nat)

  /** The first shards have every item below their cursor. */
  ghost predicate AllCommitted(shards: seq<Launch>, n: nat)
    reads set i | 0 <= i < |shards| :: shards[i].store
  {
    n <= |shards| && forall i | 0 <= i < n :: shards[i].store.cursor == |shards[i].store.items|
  }

  /** A fault struck some shard of this launch. */
  twostate predicate AnyStruck(shards: seq<Launch>, n: nat)
    requires n <= |shards|
    reads set i | 0 <= i < |shards| :: shards[i].store
  {
    exists i :: 0 <= i < n && shards[i].Struck()
  }

  /** Nothing but foretold transactions changed the shard. */
  twostate predicate Ran(launch: Launch)
    reads launch.store
  {
    launch.Valid() && launch.store.Grew(launch.fates)
  }

  // ---- The shards' tasks ----

  /** A shard's future: not started, at an offset of its plan, ended, or ended and joined. */
  datatype ShardTask = Queued | Going(start: nat, off: nat) | Ended(failed: bool) | Joined

  /** How many turns a task may still take over a shard of this length, its joining included. */
  function Turns(task: ShardTask, length: nat): nat {
    match task
    case Queued => length + 3
    case Going(_, off) => if off <= length then length - off + 2 else 2
    case Ended(_) => 1
    case Joined => 0
  }

  function TotalTurns(tasks: seq<ShardTask>, shards: seq<Launch>): nat
    requires |tasks| == |shards|
  {
    if tasks == [] then 0 else Turns(tasks[0], shards[0].store.length) + TotalTurns(tasks[1..], shards[1..])
  }

  lemma {:induction false} TotalTurnsDrops(tasks: seq<ShardTask>, shards: seq<Launch>, i: nat, next: ShardTask)
    requires i < |tasks| == |shards| && Turns(next, shards[i].store.length) < Turns(tasks[i], shards[i].store.length)
    ensures TotalTurns(tasks[i := next], shards) < TotalTurns(tasks, shards)
  {
    if i == 0 {
      assert tasks[i := next][1..] == tasks[1..];
    } else {
      assert tasks[i := next][1..] == tasks[1..][i - 1 := next];
      TotalTurnsDrops(tasks[1..], shards[1..], i - 1, next);
    }
  }

  /** The launches are over stores of their own, under one token. */
  ghost predicate AreShards(shards: seq<Launch>, token: Token)
    reads set i | 0 <= i < |shards| :: shards[i].store
  {
    (forall i | 0 <= i < |shards| :: shards[i].Valid() && shards[i].token == token)
    && forall i, j | 0 <= i < j < |shards| :: shards[i].store != shards[j].store
  }

  /** A shard's task is where its shard is, and the shard only grew since `start`. */
  ghost predicate InOrder(launch: Launch, task: ShardTask, start: Snapshot, cancelled: bool)
    reads launch.store
  {
    launch.Valid() && launch.store.Since(launch.fates, start) && launch.ShardOk(task, start.faults, cancelled)
  }

  /** Let one shard take its turn, or join it if it has ended: a failed one cancels the others then. */
  method TakeTurn(launch: Launch, task: ShardTask, ghost start: Snapshot) returns (next: ShardTask)
    requires InOrder(launch, task, start, launch.token.cancelled) && !task.Joined?
    modifies launch.store, launch.token
    ensures InOrder(launch, next, start, launch.token.cancelled) && old(launch.store.faults) <= launch.store.faults
    ensures old(launch.token.cancelled) ==> launch.token.cancelled
    ensures task == Ended(true) ==> launch.token.cancelled && start.faults < launch.store.faults
    ensures Turns(next, launch.store.length) < Turns(task, launch.store.length)
  {
    if task.Ended? {
      if task.failed { launch.token.Cancel(); }
      return Joined;
    }
    next := launch.ShardTurn(task, start.faults);
  }

  /** Setting the token takes nothing from a shard. */
  lemma StaysInOrder(launch: Launch, task: ShardTask, start: Snapshot, before: bool, after: bool)
    requires InOrder(launch, task, start, before) && (before ==> after)
    ensures InOrder(launch, task, start, after)
  {
  }

  ghost predicate AllInOrder(shards: seq<Launch>, tasks: seq<ShardTask>, starts: seq<Snapshot>, cancelled: bool)
    requires |shards| == |tasks| == |starts|
    reads set i | 0 <= i < |shards| :: shards[i].store
  {
    forall i | 0 <= i < |shards| :: InOrder(shards[i], tasks[i], starts[i], cancelled)
  }

  /** Shard `i` takes its turn; all others stay as they are. */
  method Round(shards: seq<Launch>, tasks: seq<ShardTask>, i: nat, token: Token, ghost starts: seq<Snapshot>)
    returns (after: seq<ShardTask>)
    requires AreShards(shards, token) && i < |shards| == |tasks| == |starts| && !tasks[i].Joined?
    requires AllInOrder(shards, tasks, starts, token.cancelled)
    modifies token, shards[i].store
    ensures AreShards(shards, token) && |after| == |tasks|
    ensures AllInOrder(shards, after, starts, token.cancelled)
    ensures forall j | 0 <= j < |shards| :: old(shards[j].store.faults) <= shards[j].store.faults
    ensures tasks[i] == Ended(true) ==> starts[i].faults < shards[i].store.faults
    ensures TotalTurns(after, shards) < TotalTurns(tasks, shards)
  {
    ghost var before := token.cancelled;
    var next := TakeTurn(shards[i], tasks[i], starts[i]);
    forall j | 0 <= j < |shards| && j != i ensures InOrder(shards[j], tasks[j], starts[j], token.cancelled) {
      StaysInOrder(shards[j], tasks[j], starts[j], before, token.cancelled);
    }
    TotalTurnsDrops(tasks, shards, i, next);
    after := tasks[i := next];
  }

  ghost function Starts(shards: seq<Launch>): seq<Snapshot>
    reads set i | 0 <= i < |shards| :: shards[i].store
  {
    seq(|shards|, i requires 0 <= i < |shards| reads set j | 0 <= j < |shards| :: shards[j].store =>
      shards[i].store.Now())
  }

  /** All turns of all shards, in any order. */
  method TakeTurns(shards: seq<Launch>, token: Token, ghost starts: seq<Snapshot>)
    returns (failed: bool, ghost struck: nat)
    requires AreShards(shards, token) && starts == Starts(shards)
    modifies token, set i | 0 <= i < |shards| :: shards[i].store
    ensures forall i | 0 <= i < |shards| :: InOrder(shards[i], Joined, starts[i], token.cancelled)
    ensures failed ==> struck < |shards| && starts[struck].faults < shards[struck].store.faults
  {
    var tasks: seq<ShardTask> := seq(|shards|, _ => Queued);
    failed, struck := false, 0;
    while exists i :: 0 <= i < |tasks| && !tasks[i].Joined?
      invariant |tasks| == |shards| && AreShards(shards, token)
      invariant AllInOrder(shards, tasks, starts, token.cancelled)
      invariant failed ==> struck < |shards| && starts[struck].faults < shards[struck].store.faults
      decreases TotalTurns(tasks, shards)
    {
      var i :| 0 <= i < |tasks| && !tasks[i].Joined?;
      var after := Round(shards, tasks, i, token, starts);
      if tasks[i] == Ended(true) {
        failed, struck := true, i;
      }
      tasks := after;
    }
  }

  /**
   * Run all shards: they take their turns in any order, and a failed one cancels the others when it
   * is joined, which may be some turns later.
   */
  method RunShards(shards: seq<Launch>, token: Token) returns (failed: bool)
    requires AreShards(shards, token)
    modifies token, set i | 0 <= i < |shards| :: shards[i].store
    ensures forall i | 0 <= i < |shards| :: Ran(shards[i])
    ensures token.cancelled || AllCommitted(shards, |shards|)
    ensures failed ==> AnyStruck(shards, |shards|)
    ensures AnyStruck(shards, |shards|) ==> token.cancelled
  {
    ghost var starts := Starts(shards);
    ghost var struck;
    failed, struck := TakeTurns(shards, token, starts);
    assert forall i | 0 <= i < |shards| :: InOrder(shards[i], Joined, starts[i], token.cancelled);
  }

  // ---- The run ----

  /** The states of a run's row: running, failed, halted, or completed. */
  datatype RunStatus = Underway | Broken | Halted | Completed

  /** The run's own row, with the queries over the whole run and the export; each of them may fail. */
  class Ledger {
    var status: RunStatus
    /** How many accesses have failed, ever. */
    ghost var faults: nat

    /** A query, or the publication of the export. */
    method Try() returns (ok: bool)
      modifies this`faults
      ensures old(faults) <= faults && (ok <==> faults == old(faults))
    {
      ok := *;
      faults := if ok then faults else faults + 1;
    }

    /** Set the status; a failure may hide a commit. */
    method SetStatus(next: RunStatus) returns (ok: bool)
      modifies this
      ensures old(faults) <= faults && (ok <==> faults == old(faults))
      ensures status == next || (!ok && status == old(status))
    {
      ok := *;
      var committed: bool := *;
      if ok || committed {
        status := next;
      }
      faults := if ok then faults else faults + 1;
    }
  }

  /**
   * Run every shard under one token, export unless halted, and record the outcome. The run's row
   * never says completed while an item is pending. A launch completes exactly when no fault strikes
   * it and nobody cancels it, and then the row says so.
   */
  method RunLaunch(shards: seq<Launch>, token: Token, ledger: Ledger, exporting: bool) returns (out: Outcome<Report>)
    requires AreShards(shards, token) && (ledger.status == Completed ==> AllCommitted(shards, |shards|))
    modifies token, ledger, set i | 0 <= i < |shards| :: shards[i].store
    ensures forall i | 0 <= i < |shards| :: Ran(shards[i])
    ensures ledger.status == Completed ==> AllCommitted(shards, |shards|)
    ensures out.Done? && out.value.completed ==> out.value.pending == 0 && AllCommitted(shards, |shards|)
    ensures out.Done? && !out.value.completed ==> token.cancelled
    ensures out.Done? ==> ledger.status == if out.value.completed then Completed else Halted
    ensures !out.RecordFault?
    ensures out.Stopped? ==> AnyStruck(shards, |shards|) || ledger.faults > old(ledger.faults)
    ensures out == Done(Report(true, 0))
            <==> !AnyStruck(shards, |shards|) && ledger.faults == old(ledger.faults) && !token.cancelled
  {
    var registered := Register(ledger);
    if !registered { return Stopped(Systemic); }
    out := RunRegistered(shards, token, ledger, exporting);
  }

  /** The launch once it is registered. */
  method RunRegistered(shards: seq<Launch>, token: Token, ledger: Ledger, exporting: bool)
    returns (out: Outcome<Report>)
    requires AreShards(shards, token) && ledger.status == Underway
    modifies token, ledger, set i | 0 <= i < |shards| :: shards[i].store
    ensures forall i | 0 <= i < |shards| :: Ran(shards[i])
    ensures ledger.status == Completed ==> AllCommitted(shards, |shards|)
    ensures out.Done? ==> out.value.completed == !token.cancelled && (out.value.completed ==> out.value.pending == 0)
    ensures out.Done? ==> ledger.status == if out.value.completed then Completed else Halted
    ensures old(ledger.faults) <= ledger.faults && !out.RecordFault?
    ensures out.Stopped? ==> AnyStruck(shards, |shards|) || ledger.faults > old(ledger.faults)
    ensures out.Done? ==> ledger.faults == old(ledger.faults)
    ensures AnyStruck(shards, |shards|) ==> token.cancelled
  {
    var failed := RunShards(shards, token);
    out := Conclude(shards, token, failed, ledger, exporting);
  }

  /** Check the stored records and enter the launch. */
  method Register(ledger: Ledger) returns (ok: bool)
    modifies ledger
    ensures old(ledger.faults) <= ledger.faults && (ok <==> ledger.faults == old(ledger.faults))
    ensures ledger.status == Underway || (!ok && ledger.status == old(ledger.status))
  {
    ok := ledger.Try();
    if ok { ok := ledger.SetStatus(Underway); }
  }

  /** What follows when all shards are joined; a launch that fails is marked, if that succeeds. */
  method Conclude(shards: seq<Launch>, token: Token, failed: bool, ledger: Ledger, exporting: bool)
    returns (out: Outcome<Report>)
    requires forall i | 0 <= i < |shards| :: shards[i].Valid()
    requires failed || token.cancelled || AllCommitted(shards, |shards|)
    requires ledger.status != Completed
    modifies token, ledger
    ensures old(token.cancelled) ==> token.cancelled
    ensures old(ledger.faults) <= ledger.faults && !out.RecordFault?
    ensures out.Done? <==> !failed && ledger.faults == old(ledger.faults)
    ensures out.Done? ==> out.value.completed == !token.cancelled
                          && (out.value.pending == 0 <==> AllCommitted(shards, |shards|))
    ensures out.Done? ==> ledger.status == if token.cancelled then Halted else Completed
    ensures ledger.status == Completed ==> !failed && !token.cancelled
  {
    if failed {
      var _ := ledger.SetStatus(Broken);
      return Stopped(Systemic);
    }
    var halted := token.Poll();
    out := Finalize(shards, halted, ledger, exporting);
    if !out.Done? {
      var _ := ledger.SetStatus(Broken);
    }
  }

  /** Export, count, and set the final status, unless one of these fails. */
  method Finalize(shards: seq<Launch>, halted: bool, ledger: Ledger, exporting: bool) returns (out: Outcome<Report>)
    requires (forall i | 0 <= i < |shards| :: shards[i].Valid()) && (halted || AllCommitted(shards, |shards|))
    requires ledger.status != Completed
    modifies ledger
    ensures old(ledger.faults) <= ledger.faults && (out.Done? <==> ledger.faults == old(ledger.faults))
    ensures !out.RecordFault?
    ensures out.Done? ==> out.value.completed == !halted && (out.value.pending == 0 <==> AllCommitted(shards, |shards|))
    ensures out.Done? ==> ledger.status == if halted then Halted else Completed
    ensures ledger.status == Completed ==> !halted
  {
    var ok := true;
    if !halted && exporting {
      ok := ledger.Try();
      if !ok { return Stopped(Systemic); }
    }
    ok := ledger.Try();
    if !ok { return Stopped(Systemic); }
    var counted := PendingItems(shards, ledger);
    if !counted.Done? { return Stopped(Systemic); }
    ok := ledger.Try();
    if !ok { return Stopped(Systemic); }
    ok := ledger.SetStatus(if halted then Halted else Completed);
    return if ok then Done(Report(!halted, counted.value)) else Stopped(Systemic);
  }

  /** The items at or above the cursors; every cursor is read again. */
  method PendingItems(shards: seq<Launch>, ledger: Ledger) returns (out: Outcome<nat>)
    requires forall i | 0 <= i < |shards| :: shards[i].Valid()
    modifies ledger`faults
    ensures old(ledger.faults) <= ledger.faults && (out.Done? <==> ledger.faults == old(ledger.faults))
    ensures !out.RecordFault?
    ensures out.Done? ==> (out.value == 0 <==> AllCommitted(shards, |shards|))
  {
    var pending: nat := 0;
    for n := 0 to |shards|
      invariant ledger.faults == old(ledger.faults)
      invariant forall i | 0 <= i < |shards| :: shards[i].store.cursor <= |shards[i].store.items|
      invariant pending == 0 <==> AllCommitted(shards, n)
    {
      var ok := ledger.Try();
      if !ok { return Stopped(Systemic); }
      pending := pending + (|shards[n].store.items| - shards[n].store.cursor);
    }
    return Done(pending);
  }

  /** Every item below the cursor is what the oracle's uninterrupted run makes of it. */
  ghost predicate CommittedAsForetold(store: Store, fates: Fates)
    requires store.cursor <= |store.items|
    reads store
  {
    forall off: nat, key | off < store.cursor ::
      (key in store.items[off] <==> FinalState(fates(off), store.k, key).Some?)
      && (key in store.items[off] ==>
            store.items[off][key].state == FinalState(fates(off), store.k, key).value
            || (store.items[off][key].state == Exported && FinalState(fates(off), store.k, key).value == Formatted))
  }

  /** Which of the first `n` launches were cancelled. */
  ghost function CancelledBelow(tokens: seq<Token>, n: nat): set<nat>
    requires n <= |tokens|
    reads tokens
  {
    set i: nat | i < n && tokens[i].cancelled
  }

  lemma CancelledOneMore(tokens: seq<Token>, n: nat, before: set<nat>)
    requires n < |tokens| && before == CancelledBelow(tokens, n)
    ensures |CancelledBelow(tokens, n + 1)| == |before| + if tokens[n].cancelled then 1 else 0
  {
    assert CancelledBelow(tokens, n + 1) == if tokens[n].cancelled then before + {n} else before;
  }

  /** One launch over one shard; whatever keeps it from the end shows as a fault or a cancellation. */
  method LaunchOnce(store: Store, fates: Fates, token: Token)
    requires store.Valid()
    modifies store, token
    ensures store.Valid() && store.Grew(fates)
    ensures token.cancelled || store.faults > old(store.faults) || store.cursor == |store.items|
  {
    var launch := new Launch(store, token, fates);
    var _ := launch.RunShard();
  }

  /**
   * Any number of launches over one shard, each under a token of its own and stopped wherever a
   * crash, a cancellation or a fault stops it. Every item below the cursor then holds exactly what
   * the oracle's uninterrupted run would have made of it. Once there were more launches than faults
   * and cancelled launches, every item is below the cursor.
   */
  method Relaunch(store: Store, fates: Fates, tokens: seq<Token>)
    requires store.Valid() && IsForetold(fates, store.history, store.events)
    requires forall i, j | 0 <= i < j < |tokens| :: tokens[i] != tokens[j]
    modifies store, tokens
    ensures store.Valid() && store.Grew(fates) && IsForetold(fates, store.history, store.events)
    ensures CommittedAsForetold(store, fates)
    ensures |tokens| > store.faults - old(store.faults) + |CancelledBelow(tokens, |tokens|)| ==>
              store.cursor == |store.items|
  {
    for n := 0 to |tokens|
      invariant store.Valid() && store.Grew(fates)
      invariant n > store.faults - old(store.faults) + |CancelledBelow(tokens, n)| ==> store.cursor == |store.items|
    {
      ghost var before := CancelledBelow(tokens, n);
      LaunchOnce(store, fates, tokens[n]);
      CancelledOneMore(tokens, n, before);
    }
    ForetoldLonger(fates, old(store.history), old(store.events), store.history, store.events);
    Foreseen(store, fates);
  }

  lemma ForetoldLonger(fates: Fates, h: seq<Shard>, es: seq<Event>, h': seq<Shard>, es': seq<Event>)
    requires IsForetold(fates, h, es) && h <= h' && es <= es' && |h'| == |es'| + 1
    requires forall n: nat | |es| <= n < |es'| :: Foretold(fates, h'[n], es'[n])
    ensures IsForetold(fates, h', es')
  {
    forall n: nat | n < |es'| ensures Foretold(fates, h'[n], es'[n]) {
      assert n < |es| ==> Foretold(fates, h[n], es[n]);
    }
  }

  lemma Foreseen(store: Store, fates: Fates)
    requires store.Valid() && IsForetold(fates, store.history, store.events)
    ensures CommittedAsForetold(store, fates)
  {
    forall off: nat, key | off < store.cursor
      ensures && (key in store.items[off] <==> FinalState(fates(off), store.k, key).Some?)
              && (key in store.items[off] ==>
                    store.items[off][key].state == FinalState(fates(off), store.k, key).value
                    || (store.items[off][key].state == Exported
                        && FinalState(fates(off), store.k, key).value == Formatted))
    {
      CommittedIsFinal(fates, store.k, store.history, store.events, |store.events|, off, key);
    }
  }

  /** The siblings of a group, the elected or established winner, and whether it was interrupted. */
  datatype Group = Group(siblings: seq<Record>, best: Option<nat>, interrupted: bool)

  // ---- Election ----

  ghost predicate IsFirstEstablished(siblings: seq<Record>, winner: Option<nat>) {
    match winner
    case Some(w) =>
      w < |siblings| && IsEstablished(siblings[w].state)
      && forall i | 0 <= i < w :: !IsEstablished(siblings[i].state)
    case None => forall i | 0 <= i < |siblings| :: !IsEstablished(siblings[i].state)
  }

  /** The lowest-index maximum of the aggregates, or no contender at all. */
  ghost predicate IsBest(siblings: seq<Record>, best: Option<nat>) {
    match best
    case Some(b) =>
      b < |siblings| && Contends(siblings[b])
      && forall i | 0 <= i < |siblings| && Contends(siblings[i]) ::
           Score(siblings[i]) < Score(siblings[b]) || (Score(siblings[i]) == Score(siblings[b]) && b <= i)
    case None => forall i | 0 <= i < |siblings| :: !Contends(siblings[i])
  }

  method FirstEstablished(siblings: seq<Record>) returns (winner: Option<nat>)
    ensures IsFirstEstablished(siblings, winner)
  {
    for i := 0 to |siblings|
      invariant forall j | 0 <= j < i :: !IsEstablished(siblings[j].state)
    {
      if IsEstablished(siblings[i].state) { return Some(i); }
    }
    return None;
  }

  predicate Contends(s: Record) {
    s.state == Judged && s.grade.Some? && IsAdmissible(s.grade.value) && s.grade.value.aggregate.Some?
  }

  function Score(s: Record): real
    requires Contends(s)
  {
    s.grade.value.aggregate.value
  }

  lemma ChoiceIsKeep(k: nat, a: Item, siblings: seq<Record>, keep: Option<nat>)
    requires |siblings| == k && forall i: nat | i < k :: Original(i) in a && a[Original(i)] == siblings[i]
    requires if IsFirstEstablished(siblings, None) then IsBest(siblings, keep) else IsFirstEstablished(siblings, keep)
    ensures KeepIs(k, a, keep)
  {
    assert forall i: nat :: EstablishedAt(k, a, i) <==> i < k && IsEstablished(siblings[i].state);
    assert forall i: nat | i < k :: Candidate(a, i) <==> Contends(siblings[i]);
    if keep.Some? && !IsFirstEstablished(siblings, keep) {
      assert Elected(k, a, keep.value);
    }
  }

  /** Largest aggregate among the admissible judged siblings; strict `>` keeps the first of a tie. */
  method Elect(siblings: seq<Record>) returns (best: Option<nat>)
    ensures IsBest(siblings, best)
  {
    best := None;
    for i := 0 to |siblings|
      invariant IsBest(siblings[..i], best)
    {
      if Contends(siblings[i]) && (best == None || Score(siblings[i]) > Score(siblings[best.value])) {
        best := Some(i);
      }
    }
  }

  // ---- Sibling tasks ----

  datatype SiblingOutcome = Driven(rec: Record) | Interrupted | Failed(fault: Fault)

  /** A sibling's future: not started, driving with so many transitions made, or finished. */
  datatype Task = Pending | Running(rec: Record, hops: nat) | Finished(out: SiblingOutcome)

  /** How often a task can still be scheduled. */
  function Polls(task: Task): nat {
    match task
    case Pending => 7
    case Running(rec, _) => 6 - Stage(rec.state)
    case Finished(_) => 0
  }

  function TotalPolls(tasks: seq<Task>): nat {
    if tasks == [] then 0 else Polls(tasks[0]) + TotalPolls(tasks[1..])
  }

  lemma {:induction false} TotalPollsDrops(tasks: seq<Task>, i: nat, next: Task)
    requires i < |tasks| && Polls(next) < Polls(tasks[i])
    ensures TotalPolls(tasks[i := next]) < TotalPolls(tasks)
  {
    if i == 0 {
      assert tasks[i := next][1..] == tasks[1..];
    } else {
      assert tasks[i := next][1..] == tasks[1..][i - 1 := next];
      TotalPollsDrops(tasks[1..], i - 1, next);
    }
  }
}
