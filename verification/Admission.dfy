/**
 * The admission protocol of one launch: many callers, one gate, a live-ownership set and a store.
 * Every code section between two awaits, and every store transaction, is one event; a caller may
 * be dropped at any point, and other processes may admit and settle attempts of their own.
 */
module Admission {
  import opened Common

  type Id = nat

  type Caller = nat

  datatype Denial =
    | UnregisteredContext | PolicySuperseded | IncompleteHistory | UnknownCoverage
    | UnresolvedAttempts
    | InvalidEvidence | UnknownCost | LimitReached

  datatype Answer = Admitted(id: Id) | Denied(reason: Denial) | Wait | Failed

  /** What becomes of a transaction: acknowledged, rolled back, or committed without acknowledgment. */
  datatype Fault = NoFault | RolledBack | AckLost

  /** What the gate holder is doing; `snapshot` is the live set its admission was asked with. */
  datatype Work =
    | Admitting(snapshot: set<Id>) | Answered(answer: Answer)
    | Updating(id: Id, settles: bool) | Updated(ok: bool)

  datatype Gate = Free | Held(caller: Caller, work: Work)

  datatype Phase = Queued | Sleeping | Publishing(id: Id) | Owning(id: Id) | Ended

  /**
   * `own` and `foreign` hold the run's stored attempts, of this launch and of all others, and whether
   * each is settled. `finite` tells the run's effective policy; it is `superseded` once it is no
   * longer the one this launch has captured.
   */
  datatype State = State(
    finite: bool, superseded: bool, cancelled: bool, live: set<Id>, reason: Option<Denial>, gate: Gate,
    phases: map<Caller, Phase>, own: map<Id, bool>, foreign: map<Id, bool>)

  datatype Event =
    | Arrive(c: Caller)
    | Enter(c: Caller)
    | Decide(c: Caller, earlier: Option<Denial>, later: Option<Denial>, fresh': Id, fault: Fault)
    | Handle(c: Caller)
    | Wake(c: Caller)
    | Transfer(c: Caller)
    | Observe(c: Caller, settles: bool)
    | Commit(c: Caller, fault: Fault)
    | Acknowledge(c: Caller)
    | Drop(c: Caller)
    | Cancel
    | Foreign(id: Id, settled: bool)
    | Register(finite: bool)

  // ---- The admission transaction ----

  function Unresolved(s: State): set<Id> {
    (set id | id in s.own && !s.own[id]) + (set id | id in s.foreign && !s.foreign[id])
  }

  /** The store's decision; `earlier` and `later` are the denials it checks before and after. */
  function Decision(s: State, snapshot: set<Id>, earlier: Option<Denial>, later: Option<Denial>, id: Id): Answer {
    if s.superseded then Denied(PolicySuperseded)
    else if earlier.Some? then Denied(earlier.value)
    else if !s.finite then Admitted(id)
    else if Unresolved(s) != {} then (if Unresolved(s) <= snapshot then Wait else Denied(UnresolvedAttempts))
    else if later.Some? then Denied(later.value)
    else Admitted(id)
  }

  function NoAttempts(): map<Id, bool> {
    map[]
  }

  // ---- One event ----

  predicate Holds(s: State, c: Caller) {
    s.gate.Held? && s.gate.caller == c
  }

  predicate In(s: State, c: Caller, phase: Phase) {
    c in s.phases && s.phases[c] == phase
  }

  predicate Owns(s: State, c: Caller) {
    c in s.phases && s.phases[c].Owning?
  }

  /** The caller has been given an attempt and not let go of it. */
  predicate Bears(s: State, c: Caller) {
    c in s.phases && (s.phases[c].Publishing? || s.phases[c].Owning?)
  }

  /** What spend, coverage and evidence may make the transaction deny; none of it is modelled. */
  predicate OtherDenials(finite: bool, earlier: Option<Denial>, later: Option<Denial>) {
    (earlier.Some? ==>
       earlier.value == UnregisteredContext || (finite && earlier.value in {IncompleteHistory, UnknownCoverage}))
    && (later.Some? ==> later.value in {InvalidEvidence, UnknownCost, LimitReached})
  }

  predicate Enabled(s: State, e: Event) {
    match e
    case Arrive(c) => c !in s.phases
    case Enter(c) => In(s, c, Queued) && s.gate == Free
    case Decide(c, earlier, later, id, _) =>
      Holds(s, c) && s.gate.work.Admitting? && id !in s.own && id !in s.foreign
      && OtherDenials(s.finite, earlier, later)
    case Handle(c) => Holds(s, c) && s.gate.work.Answered?
    case Wake(c) => In(s, c, Sleeping)
    case Transfer(c) => c in s.phases && s.phases[c].Publishing?
    case Observe(c, _) => Owns(s, c) && s.gate == Free
    case Commit(c, _) => Holds(s, c) && s.gate.work.Updating? && s.gate.work.id in s.own
    case Acknowledge(c) => Holds(s, c) && s.gate.work.Updated?
    case Drop(c) => c in s.phases && s.phases[c] != Ended
    case Cancel => true
    // Another process admits an attempt in a transaction like this one's, or settles its own.
    case Foreign(id, settled) =>
      id !in s.own && if id in s.foreign then settled else !settled && (s.finite ==> Unresolved(s) == {})
    // Another process registers a launch under another policy.
    case Register(finite) => finite ==> Unresolved(s) == {}
  }

  function Seal(s: State): State {
    s.(cancelled := true, gate := Free)
  }

  function Released(s: State, c: Caller): set<Id> {
    if Bears(s, c) then s.live - {s.phases[c].id} else s.live
  }

  function Next(s: State, e: Event): State
    requires Enabled(s, e)
  {
    match e
    case Arrive(c) => s.(phases := s.phases[c := Queued])
    case Enter(c) =>
      if s.cancelled then s.(phases := s.phases[c := Ended]) else s.(gate := Held(c, Admitting(s.live)))
    case Decide(c, earlier, later, id, fault) =>
      var decision := Decision(s, s.gate.work.snapshot, earlier, later, id);
      s.(own := if decision.Admitted? && fault != RolledBack then s.own[id := false] else s.own,
         gate := Held(c, Answered(if fault == NoFault then decision else Failed)))
    case Handle(c) =>
      (match s.gate.work.answer
       case Admitted(id) => s.(live := s.live + {id}, phases := s.phases[c := Publishing(id)], gate := Free)
       case Denied(reason) => Seal(s).(reason := Some(reason), phases := s.phases[c := Ended])
       case Wait => s.(phases := s.phases[c := Sleeping], gate := Free)
       case Failed => Seal(s).(phases := s.phases[c := Ended]))
    case Wake(c) => s.(phases := s.phases[c := if s.cancelled then Ended else Queued])
    case Transfer(c) => s.(phases := s.phases[c := Owning(s.phases[c].id)])
    case Observe(c, settles) => s.(gate := Held(c, Updating(s.phases[c].id, settles)))
    case Commit(c, fault) =>
      s.(own := if s.gate.work.settles && fault != RolledBack then s.own[s.gate.work.id := true] else s.own,
         gate := Held(c, Updated(fault == NoFault)))
    case Acknowledge(c) => if s.gate.work.ok then s.(gate := Free) else Seal(s)
    case Drop(c) =>
      s.(live := Released(s, c), phases := s.phases[c := Ended], gate := if Holds(s, c) then Free else s.gate)
    case Cancel => s.(cancelled := true)
    case Foreign(id, settled) => s.(foreign := s.foreign[id := settled])
    case Register(finite) => s.(finite := finite, superseded := true)
  }

  // ---- Runs ----

  ghost predicate AtMostOne(ids: set<Id>) {
    forall i, j | i in ids && j in ids :: i == j
  }

  /**
   * A launch has just been registered. Under a finite policy that is denied with an unresolved
   * attempt left from another policy, so at most one is left, admitted under the same policy.
   */
  ghost predicate Initial(s: State) {
    !s.superseded && (s.finite ==> AtMostOne(Unresolved(s)))
    && !s.cancelled && s.live == {} && s.reason == None && s.gate == Free && s.phases == map[]
    && s.own == NoAttempts()
  }

  ghost predicate StepAt(h: seq<State>, es: seq<Event>, n: nat)
    requires |h| == |es| + 1 && n < |es|
  {
    Enabled(h[n], es[n]) && h[n + 1] == Next(h[n], es[n])
  }

  ghost predicate IsRun(h: seq<State>, es: seq<Event>) {
    |h| == |es| + 1 && Initial(h[0]) && forall n: nat | n < |es| :: StepAt(h, es, n)
  }

  // ---- Invariant ----

  /** Every attempt a caller holds is live, stored and held by no one else. */
  ghost predicate OwnersInv(s: State) {
    (forall c | Bears(s, c) :: s.phases[c].id in s.live)
    && (forall c, d | Bears(s, c) && Bears(s, d) && s.phases[c].id == s.phases[d].id :: c == d)
    && s.live <= s.own.Keys
  }

  /** An attempt that is not handed over yet is not settled. */
  ghost predicate PublishingInv(s: State) {
    forall c | c in s.phases && s.phases[c].Publishing? && s.phases[c].id in s.own :: !s.own[s.phases[c].id]
  }

  ghost predicate GateInv(s: State) {
    s.gate.Held? ==>
      match s.gate.work
      case Admitting(snapshot) => In(s, s.gate.caller, Queued) && s.live <= snapshot
      case Answered(answer) =>
        In(s, s.gate.caller, Queued)
        && (answer.Admitted? ==> answer.id in s.own && !s.own[answer.id] && answer.id !in s.live)
      case Updating(id, _) => In(s, s.gate.caller, Owning(id))
      case Updated(_) => Owns(s, s.gate.caller)
  }

  ghost predicate Inv(s: State) {
    OwnersInv(s) && PublishingInv(s) && GateInv(s) && (s.finite ==> AtMostOne(Unresolved(s)))
  }

  lemma NextKeepsInv(s: State, e: Event)
    requires Inv(s) && Enabled(s, e)
    ensures Inv(Next(s, e))
  {
    NextKeepsOwners(s, e);
    NextKeepsPublishing(s, e);
    NextKeepsGate(s, e);
    if Next(s, e).finite {
      forall i, j | i in Unresolved(Next(s, e)) && j in Unresolved(Next(s, e)) ensures i == j {
        NewlyUnresolved(s, e, i);
        NewlyUnresolved(s, e, j);
      }
    }
  }

  /** An attempt becomes unresolved only by being admitted, here or elsewhere. */
  lemma NewlyUnresolved(s: State, e: Event, id: Id)
    requires Enabled(s, e) && id in Unresolved(Next(s, e))
    ensures id in Unresolved(s) || (e.Decide? && id == e.fresh') || (e.Foreign? && id == e.id)
    ensures Next(s, e).finite ==> id in Unresolved(s) || Unresolved(s) == {}
  {
  }

  lemma NextKeepsOwners(s: State, e: Event)
    requires OwnersInv(s) && GateInv(s) && Enabled(s, e)
    ensures OwnersInv(Next(s, e))
  {
    var t := Next(s, e);
    forall c | Bears(t, c) ensures t.phases[c].id in t.live {
      BearerIsOld(s, e, c);
      if e != Handle(c) { LiveStays(s, e, c); }
    }
    forall c, d | Bears(t, c) && Bears(t, d) && t.phases[c].id == t.phases[d].id ensures c == d {
      BearerIsOld(s, e, c);
      BearerIsOld(s, e, d);
    }
  }

  /** Only an admission that is handled gives a caller an attempt. */
  lemma BearerIsOld(s: State, e: Event, c: Caller)
    requires Enabled(s, e) && Bears(Next(s, e), c)
    ensures (Bears(s, c) && Next(s, e).phases[c].id == s.phases[c].id)
            || (e == Handle(c) && s.gate.work.answer == Admitted(Next(s, e).phases[c].id))
  {
  }

  /** Only the drop of its own caller takes an attempt out of the live set. */
  lemma LiveStays(s: State, e: Event, c: Caller)
    requires OwnersInv(s) && Enabled(s, e) && Bears(s, c) && e != Drop(c)
    ensures s.phases[c].id in Next(s, e).live
  {
  }

  lemma NextKeepsPublishing(s: State, e: Event)
    requires OwnersInv(s) && PublishingInv(s) && GateInv(s) && Enabled(s, e)
    ensures PublishingInv(Next(s, e))
  {
    var t := Next(s, e);
    forall c | c in t.phases && t.phases[c].Publishing? && t.phases[c].id in t.own ensures !t.own[t.phases[c].id] {
      BearerIsOld(s, e, c);
    }
  }

  lemma NextKeepsGate(s: State, e: Event)
    requires OwnersInv(s) && GateInv(s) && Enabled(s, e)
    ensures GateInv(Next(s, e))
  {
  }

  lemma {:induction false} RunKeepsInv(h: seq<State>, es: seq<Event>, n: nat)
    requires IsRun(h, es) && n < |h|
    ensures Inv(h[n])
  {
    if n > 0 {
      RunKeepsInv(h, es, n - 1);
      assert StepAt(h, es, n - 1);
      NextKeepsInv(h[n - 1], es[n - 1]);
    }
  }

  // ---- Sealing ----

  /** The event shows a caller a failed store transaction or a denial. */
  ghost predicate Seals(s: State, e: Event) {
    (e.Handle? && Holds(s, e.c) && s.gate.work.Answered? && (s.gate.work.answer.Failed? || s.gate.work.answer.Denied?))
    || (e.Acknowledge? && Holds(s, e.c) && s.gate.work.Updated? && !s.gate.work.ok)
  }

  /** The launch is cancelled and no admission is in flight. */
  ghost predicate Shut(s: State) {
    s.cancelled && !(s.gate.Held? && s.gate.work.Admitting?)
  }

  lemma ShutStays(s: State, e: Event)
    requires Enabled(s, e)
    ensures Shut(s) ==> Shut(Next(s, e)) && !e.Decide?
    ensures Seals(s, e) ==> Shut(Next(s, e))
    ensures !e.Decide? ==> GateInv(s) ==> Next(s, e).own.Keys == s.own.Keys
  {
  }

  lemma {:induction false} StaysShut(h: seq<State>, es: seq<Event>, m: nat, n: nat)
    requires IsRun(h, es) && m <= n < |h| && Shut(h[m])
    ensures Shut(h[n])
  {
    if m < n {
      StaysShut(h, es, m, n - 1);
      assert StepAt(h, es, n - 1);
      ShutStays(h[n - 1], es[n - 1]);
    }
  }

  /**
   * After a failed store transaction or a denial no admission transaction of this launch runs
   * again, so no intent is committed, in any interleaving.
   */
  lemma NoIntentAfterSeal(h: seq<State>, es: seq<Event>, m: nat, n: nat)
    requires IsRun(h, es) && m < n < |es| && Seals(h[m], es[m])
    ensures !es[n].Decide? && h[n + 1].own.Keys == h[n].own.Keys
  {
    assert StepAt(h, es, m) && StepAt(h, es, n);
    ShutStays(h[m], es[m]);
    StaysShut(h, es, m + 1, n);
    RunKeepsInv(h, es, n);
    ShutStays(h[n], es[n]);
  }

  /** Whatever happened before, a free gate lets an owner settle its attempt and learn of it. */
  lemma OwnerCanSettle(s: State, c: Caller) returns (t: State, u: State, v: State)
    requires Inv(s) && Owns(s, c) && s.gate == Free
    ensures Enabled(s, Observe(c, true)) && t == Next(s, Observe(c, true))
    ensures Enabled(t, Commit(c, NoFault)) && u == Next(t, Commit(c, NoFault))
    ensures Enabled(u, Acknowledge(c)) && v == Next(u, Acknowledge(c))
    ensures s.phases[c].id in v.own && v.own[s.phases[c].id] && v.gate == Free && v.cancelled == s.cancelled
  {
    t := Next(s, Observe(c, true));
    u := Next(t, Commit(c, NoFault));
    v := Next(u, Acknowledge(c));
  }

  /** Work left before the gate is free. */
  ghost function GateWork(s: State): nat {
    match s.gate
    case Free => 0
    case Held(_, work) => if work.Admitting? || work.Updating? then 2 else 1
  }

  ghost predicate Finishes(s: State, e: Event) {
    Enabled(s, e) && (e.Decide? || e.Handle? || e.Commit? || e.Acknowledge?) && GateWork(Next(s, e)) < GateWork(s)
  }

  lemma FreshId(used: set<Id>) returns (id: Id)
    ensures forall x | x in used :: x < id
  {
    if used == {} {
      id := 0;
    } else {
      var x :| x in used;
      var rest := FreshId(used - {x});
      id := if rest > x then rest else x + 1;
      assert forall y | y in used :: y == x || y in used - {x};
    }
  }

  /** A held gate is never stuck: its holder has a step of its own that brings it nearer to free. */
  lemma GateIsFreed(s: State) returns (e: Event)
    requires Inv(s) && s.gate != Free
    ensures Finishes(s, e)
  {
    var c := s.gate.caller;
    match s.gate.work
    case Admitting(_) =>
      var id := FreshId(s.own.Keys + s.foreign.Keys);
      assert id !in s.own.Keys + s.foreign.Keys;
      e := Decide(c, None, None, id, NoFault);
    case Answered(_) => e := Handle(c);
    case Updating(_, _) => e := Commit(c, NoFault);
    case Updated(_) => e := Acknowledge(c);
  }

  // ---- Ownership ----

  ghost function Decided(s: State, e: Event): Answer
    requires Enabled(s, e) && e.Decide?
  {
    Decision(s, s.gate.work.snapshot, e.earlier, e.later, e.fresh')
  }

  /**
   * An unresolved attempt whose owner is live is never taken for an orphan: the refusal names
   * some other attempt, one that is not live. If all unresolved attempts are live, the caller waits.
   */
  lemma LiveIsNoOrphan(h: seq<State>, es: seq<Event>, n: nat)
    requires IsRun(h, es) && n < |es| && es[n].Decide?
    ensures Enabled(h[n], es[n])
    ensures Decided(h[n], es[n]) == Denied(UnresolvedAttempts) ==>
              exists id :: id in Unresolved(h[n]) && id !in h[n].live
    ensures h[n].finite && !h[n].superseded && es[n].earlier == None && Unresolved(h[n]) != {} ==>
              Unresolved(h[n]) <= h[n].live ==> Decided(h[n], es[n]) == Wait
  {
    RunKeepsInv(h, es, n);
    assert StepAt(h, es, n);
  }

  /** A stored attempt of this launch that nobody owns any more and nobody has settled. */
  ghost predicate Orphan(s: State, id: Id) {
    id in s.own && !s.own[id] && id !in s.live
    && !(s.gate.Held? && s.gate.work == Answered(Admitted(id)))
  }

  /** The admission under way, if any, was asked with the attempt released. */
  ghost predicate Unseen(s: State, id: Id) {
    s.gate.Held? && s.gate.work.Admitting? ==> id !in s.gate.work.snapshot
  }

  lemma OrphanStays(s: State, e: Event, id: Id)
    requires Inv(s) && Enabled(s, e) && Orphan(s, id)
    ensures Orphan(Next(s, e), id)
    ensures Unseen(s, id) ==> Unseen(Next(s, e), id)
  {
  }

  lemma {:induction false} OrphanPersists(h: seq<State>, es: seq<Event>, m: nat, n: nat, id: Id)
    requires IsRun(h, es) && m <= n < |h| && Orphan(h[m], id) && Unseen(h[m], id)
    ensures Orphan(h[n], id) && Unseen(h[n], id)
    decreases n
  {
    if m < n {
      OrphanPersists(h, es, m, n - 1, id);
      RunKeepsInv(h, es, n - 1);
      assert StepAt(h, es, n - 1);
      OrphanStays(h[n - 1], es[n - 1], id);
    }
  }

  /** Without a superseding policy the run keeps the launch's own. */
  lemma {:induction false} PolicyIsFixed(h: seq<State>, es: seq<Event>, n: nat)
    requires IsRun(h, es) && n < |h|
    ensures h[n].superseded || h[n].finite == h[0].finite
  {
    if n > 0 {
      PolicyIsFixed(h, es, n - 1);
      assert StepAt(h, es, n - 1);
    }
  }

  /**
   * A released unresolved attempt stays unresolved for ever, and every admission asked for after
   * its release is denied in a launch under a finite policy: nothing is committed any more.
   */
  lemma OrphanIsAlwaysDenied(h: seq<State>, es: seq<Event>, m: nat, n: nat, id: Id)
    requires IsRun(h, es) && h[0].finite && m <= n < |es| && Orphan(h[m], id) && Unseen(h[m], id) && es[n].Decide?
    ensures Enabled(h[n], es[n]) && Decided(h[n], es[n]).Denied?
    ensures es[n].earlier == None && !h[n].superseded ==> Decided(h[n], es[n]) == Denied(UnresolvedAttempts)
    ensures h[n + 1].own == h[n].own
  {
    OrphanPersists(h, es, m, n, id);
    PolicyIsFixed(h, es, n);
    assert StepAt(h, es, n);
    assert id in Unresolved(h[n]) && id !in h[n].gate.work.snapshot;
  }

  /** While the run's policy is finite, at most one of its attempts is unresolved, whoever made it. */
  lemma OneUnresolved(h: seq<State>, es: seq<Event>, n: nat, i: Id, j: Id)
    requires IsRun(h, es) && n < |h| && h[n].finite && i in Unresolved(h[n]) && j in Unresolved(h[n])
    ensures i == j
  {
    RunKeepsInv(h, es, n);
  }

  // ---- What other callers may do meanwhile ----

  predicate IsOf(e: Event, c: Caller) {
    !e.Cancel? && !e.Foreign? && !e.Register? && e.c == c
  }

  /** `t` is a later state than `s`, seen by a caller that took no step of its own in between. */
  ghost predicate Meanwhile(s: State, t: State, c: Caller) {
    Later(s, t)
    && (c in s.phases ==> c in t.phases && t.phases[c] == s.phases[c])
    && (Holds(s, c) <==> Holds(t, c)) && (Holds(s, c) ==> t.gate == s.gate)
    && (Bears(s, c) && s.phases[c].id in s.own ==> t.own[s.phases[c].id] == s.own[s.phases[c].id])
  }

  ghost predicate Later(s: State, t: State) {
    (s.cancelled ==> t.cancelled) && forall id | id in s.own :: id in t.own && (s.own[id] ==> t.own[id])
  }

  lemma NextIsLater(s: State, e: Event)
    requires Enabled(s, e)
    ensures Later(s, Next(s, e))
  {
  }

  /** No one else touches a caller's phase, its hold of the gate or the attempt it bears. */
  lemma OthersKeep(s: State, e: Event, c: Caller)
    requires Inv(s) && Enabled(s, e) && !IsOf(e, c)
    ensures Meanwhile(s, Next(s, e), c)
  {
    NextIsLater(s, e);
    OthersKeepPlace(s, e, c);
    if Bears(s, c) { OthersKeepAttempt(s, e, c); }
  }

  lemma OthersKeepPlace(s: State, e: Event, c: Caller)
    requires GateInv(s) && Enabled(s, e) && !IsOf(e, c)
    ensures c in s.phases ==> c in Next(s, e).phases && Next(s, e).phases[c] == s.phases[c]
    ensures (Holds(s, c) <==> Holds(Next(s, e), c)) && (Holds(s, c) ==> Next(s, e).gate == s.gate)
  {
  }

  /** Only its bearer settles an attempt. */
  lemma OthersKeepAttempt(s: State, e: Event, c: Caller)
    requires OwnersInv(s) && GateInv(s) && Enabled(s, e) && !IsOf(e, c) && Bears(s, c)
    ensures s.phases[c].id in Next(s, e).own && Next(s, e).own[s.phases[c].id] == s.own[s.phases[c].id]
  {
    OnlyCommitSettles(s, e, s.phases[c].id);
    if e.Commit? { assert Bears(s, e.c) && s.gate.work.id == s.phases[e.c].id; }
  }

  lemma OnlyCommitSettles(s: State, e: Event, id: Id)
    requires Enabled(s, e) && id in s.own
    ensures id in Next(s, e).own
    ensures Next(s, e).own[id] == s.own[id] || (e.Commit? && id == s.gate.work.id)
  {
    assert e.Decide? || e.Commit? || Next(s, e).own == s.own;
  }

  // ---- The coordinator ----

  /** The end of an admission: the caller owns an attempt, is refused, or was dropped. */
  datatype Begun = Granted(id: Id) | Refused | Dropped

  /** The end of an observation: known to be stored, not known to be, or its caller was dropped. */
  datatype Observed = Acknowledged | Lost | Gone

  /**
   * The coordinator of one launch, its callers and the rows it shares. `history` and `events` record
   * its states and what happened between them; what is proved of runs holds of every valid object.
   */
  class StoreObserver {
    var finite: bool
    var superseded: bool
    var cancelled: bool
    var live: set<Id>
    var reason: Option<Denial>
    var gate: Gate
    var phases: map<Caller, Phase>
    var own: map<Id, bool>
    var foreign: map<Id, bool>
    ghost var history: seq<State>
    ghost var events: seq<Event>

    function Now(): State
      reads this
    {
      State(finite, superseded, cancelled, live, reason, gate, phases, own, foreign)
    }

    ghost predicate Valid()
      reads this
    {
      IsRun(history, events) && history[|events|] == Now()
    }

    /** One event happened, and the object is valid again. */
    twostate predicate Took(e: Event)
      reads this
    {
      Valid() && old(Valid()) && events == old(events) + [e] && Enabled(old(Now()), e) && Now() == Next(old(Now()), e)
    }

    /** No caller owns the attempt any more; one that is not settled stays an orphan. */
    ghost predicate Abandoned(id: Id)
      reads this
    {
      id in own && id !in live && (!own[id] ==> Orphan(Now(), id))
    }

    lemma Invariant()
      requires Valid()
      ensures Inv(Now())
    {
      RunKeepsInv(history, events, |events|);
    }

    lemma BearsItsOwn(c: Caller)
      requires Valid() && Bears(Now(), c)
      ensures var id := phases[c].id;
              id in own && id in live && !(gate.Held? && gate.work == Answered(Admitted(id)))
    {
      Invariant();
    }

    lemma AnswersFresh()
      requires Valid() && gate.Held? && gate.work.Answered? && gate.work.answer.Admitted?
      ensures gate.work.answer.id in own && !own[gate.work.answer.id]
    {
      Invariant();
    }

    constructor (finite: bool, foreign: map<Id, bool>)
      requires finite ==> AtMostOne(set id | id in foreign && !foreign[id])
      ensures Valid() && Initial(Now()) && this.finite == finite && this.foreign == foreign
    {
      this.finite, this.superseded, this.foreign := finite, false, foreign;
      cancelled, live, reason, gate, phases, own := false, {}, None, Free, map[], map[];
      new;
      history, events := [Now()], [];
      assert Unresolved(Now()) == set id | id in foreign && !foreign[id];
    }

    ghost method Record(e: Event)
      requires IsRun(history, events) && Enabled(history[|events|], e) && Now() == Next(history[|events|], e)
      modifies this`history, this`events
      ensures Valid() && events == old(events) + [e]
    {
      ghost var h, es := history, events;
      history, events := history + [Now()], events + [e];
      forall n: nat | n < |events| ensures StepAt(history, events, n) {
        assert n < |es| ==> StepAt(h, es, n);
      }
    }

    /** A step of another caller, of another process or of the store. */
    method Happen(e: Event)
      requires Valid() && Enabled(Now(), e)
      modifies this
      ensures Took(e)
    {
      var t := Next(Now(), e);
      finite, superseded, cancelled, live, reason := t.finite, t.superseded, t.cancelled, t.live, t.reason;
      gate, phases, own, foreign := t.gate, t.phases, t.own, t.foreign;
      Record(e);
    }

    /** Admission, up to the transaction: a cancelled launch asks for nothing. */
    method Enter(c: Caller)
      requires Valid() && Enabled(Now(), Event.Enter(c))
      modifies this
      ensures Took(Event.Enter(c))
    {
      if cancelled {
        phases := phases[c := Ended];
      } else {
        gate := Held(c, Admitting(live));
      }
      Record(Event.Enter(c));
    }

    method Persistence()
      modifies this`cancelled
      ensures cancelled
    {
      cancelled := true;
    }

    /**
     * Admission, after the transaction: either an unsettled attempt is owned, or the caller waits, or
     * the launch is shut before the gate is free.
     */
    method Handle(c: Caller)
      requires Valid() && Enabled(Now(), Event.Handle(c))
      modifies this
      ensures Took(Event.Handle(c)) && gate == Free && c in phases
      ensures match phases[c]
              case Publishing(id) => id in live && id in own && !own[id]
              case Sleeping => true
              case _ => Shut(Now()) && !Bears(Now(), c)
    {
      match gate.work.answer {
        case Failed =>
          Persistence();
          phases, gate := phases[c := Ended], Free;
        case Admitted(id) =>
          AnswersFresh();
          live := live + {id};
          phases, gate := phases[c := Publishing(id)], Free;
        case Denied(denial) =>
          reason := Some(denial);
          cancelled := true;
          phases, gate := phases[c := Ended], Free;
        case Wait =>
          phases, gate := phases[c := Sleeping], Free;
      }
      Record(Event.Handle(c));
    }

    /** A waiter resumes; a cancelled one gives up first. */
    method Wake(c: Caller)
      requires Valid() && Enabled(Now(), Event.Wake(c))
      modifies this
      ensures Took(Event.Wake(c))
    {
      phases := phases[c := if cancelled then Ended else Queued];
      Record(Event.Wake(c));
    }

    /** Metadata, settlement and interpretation, after the transaction. */
    method Acknowledge(c: Caller)
      requires Valid() && Enabled(Now(), Event.Acknowledge(c))
      modifies this
      ensures Took(Event.Acknowledge(c)) && gate == Free
      ensures !old(gate.work.ok) ==> Shut(Now())
    {
      if !gate.work.ok {
        Persistence();
      }
      gate := Free;
      Record(Event.Acknowledge(c));
    }

    method Release(id: Id)
      modifies this`live
      ensures live == old(live) - {id}
    {
      live := live - {id};
    }

    /**
     * A caller goes away, before or after its attempt was handed over to it. An attempt that it
     * leaves unsettled is an orphan from now on.
     */
    method Drop(c: Caller)
      requires Valid() && Enabled(Now(), Event.Drop(c))
      modifies this
      ensures Took(Event.Drop(c)) && !Bears(Now(), c) && !Holds(Now(), c)
      ensures old(Bears(Now(), c)) ==> Abandoned(old(phases[c].id))
    {
      if phases[c].Publishing? || phases[c].Owning? {
        BearsItsOwn(c);
        Release(phases[c].id);
      }
      if gate.Held? && gate.caller == c {
        gate := Free;
      }
      phases := phases[c := Ended];
      Record(Event.Drop(c));
    }

    /** An await of caller `c`: others take any number of steps, and `c` may be dropped at its end. */
    method Await(c: Caller) returns (dropped: bool)
      requires Valid() && c in phases && phases[c] != Ended
      modifies this
      ensures Valid() && old(events) <= events && Later(old(Now()), Now())
      ensures !dropped ==> Meanwhile(old(Now()), Now(), c)
      ensures AsksNothing(c, events, |old(events)|)
      ensures dropped ==> In(Now(), c, Ended) && !Holds(Now(), c)
      ensures dropped && old(Bears(Now(), c)) ==>
                var id := old(phases[c].id); Abandoned(id) && (id in old(own) ==> own[id] == old(own[id]))
    {
      var steps: nat :| 0 <= steps;
      for n := 0 to steps
        invariant Valid() && old(events) <= events && Meanwhile(old(Now()), Now(), c)
        invariant AsksNothing(c, events, |old(events)|)
      {
        var e: Event := *;
        if !IsOf(e, c) && Enabled(Now(), e) {
          Invariant();
          OthersKeep(Now(), e, c);
          Happen(e);
        }
      }
      dropped := *;
      if dropped {
        NextIsLater(Now(), Event.Drop(c));
        Drop(c);
      }
    }

    /** The admission transaction of the gate's holder. */
    method Admit(c: Caller) returns (ghost e: Event)
      requires Valid() && Holds(Now(), c) && gate.work.Admitting?
      modifies this
      ensures Took(e) && e.Decide? && e.c == c && Later(old(Now()), Now())
      ensures Holds(Now(), c) && gate.work.Answered?
      ensures gate.work.answer.Admitted? ==> gate.work.answer.id !in old(own)
    {
      var earlier: Option<Denial> := *;
      var later: Option<Denial> := *;
      if !OtherDenials(finite, earlier, later) {
        earlier, later := None, None;
      }
      ghost var unused := FreshId(own.Keys + foreign.Keys);
      assert unused !in own.Keys + foreign.Keys;
      var id: Id :| id !in own && id !in foreign;
      var fault: Fault := *;
      e := Decide(c, earlier, later, id, fault);
      NextIsLater(Now(), e);
      Happen(Decide(c, earlier, later, id, fault));
    }

    /** One passage through the gate. What is granted was not stored before and is not settled. */
    method Ask(c: Caller) returns (dropped: bool)
      requires Valid() && In(Now(), c, Queued) && gate == Free
      modifies this
      ensures Valid() && old(events) <= events && Later(old(Now()), Now())
      ensures c in phases && !Holds(Now(), c) && (dropped ==> phases[c] == Ended)
      ensures match phases[c]
              case Publishing(id) => id in own && !own[id] && id !in old(own)
              case Ended => dropped || cancelled
              case phase => phase == Sleeping
      ensures old(cancelled) ==> phases[c] == Ended && AsksNothing(c, events, |old(events)|)
    {
      Enter(c);
      if phases[c] == Ended { return false; }
      dropped := Await(c);
      if dropped { return; }
      dropped := Conclude(c);
    }

    /** The holder's transaction and what follows it, up to the release of the gate. */
    method Conclude(c: Caller) returns (dropped: bool)
      requires Valid() && Holds(Now(), c) && In(Now(), c, Queued) && gate.work.Admitting?
      modifies this
      ensures Valid() && old(events) <= events && Later(old(Now()), Now())
      ensures c in phases && !Holds(Now(), c) && (dropped ==> phases[c] == Ended)
      ensures match phases[c]
              case Publishing(id) => id in own && !own[id] && id !in old(own)
              case Ended => dropped || cancelled
              case phase => phase == Sleeping
    {
      ghost var decision := Admit(c);
      dropped := Await(c);
      if dropped { return; }
      NextIsLater(Now(), Event.Handle(c));
      Handle(c);
    }

    /**
     * A caller asks to send a request, until it owns a fresh unsettled attempt, is refused, or is
     * dropped while it waits its turns. A refused or dropped caller bears no attempt and holds no
     * gate, and only a cancelled launch refuses. A launch that is cancelled already asks for nothing.
     */
    method Begin(c: Caller, turns: nat) returns (out: Begun)
      requires Valid() && c !in phases
      modifies this
      ensures Valid() && old(events) <= events && Later(old(Now()), Now())
      ensures match out
              case Granted(id) => In(Now(), c, Owning(id)) && id in live && id in own && !own[id] && id !in old(own)
              case Refused => In(Now(), c, Ended) && cancelled
              case Dropped => In(Now(), c, Ended)
      ensures !Holds(Now(), c)
      ensures old(cancelled) ==> !out.Granted? && AsksNothing(c, events, |old(events)|)
    {
      Invariant();
      NextIsLater(Now(), Arrive(c));
      Happen(Arrive(c));
      for turn := 0 to turns
        invariant Valid() && old(events) <= events && Later(old(Now()), Now())
        invariant (In(Now(), c, Queued) || In(Now(), c, Sleeping)) && !Holds(Now(), c)
        invariant old(cancelled) ==> AsksNothing(c, events, |old(events)|)
      {
        var dropped := TakeTurn(c);
        if dropped { return Dropped; }
        if phases[c] == Ended { return Refused; }
        if phases[c].Publishing? {
          out := Publish(c);
          return;
        }
      }
      NextIsLater(Now(), Event.Drop(c));
      Drop(c);
      return Dropped;
    }

    /** Wait, then wake up or pass through the gate if it is free. */
    method TakeTurn(c: Caller) returns (dropped: bool)
      requires Valid() && (In(Now(), c, Queued) || In(Now(), c, Sleeping)) && !Holds(Now(), c)
      modifies this
      ensures Valid() && old(events) <= events && Later(old(Now()), Now())
      ensures c in phases && !Holds(Now(), c) && (dropped ==> phases[c] == Ended)
      ensures match phases[c]
              case Publishing(id) => id in own && !own[id] && id !in old(own)
              case Ended => dropped || cancelled
              case phase => phase == Sleeping || phase == Queued
      ensures old(cancelled) ==> !phases[c].Publishing? && AsksNothing(c, events, |old(events)|)
    {
      dropped := Await(c);
      if dropped { return; }
      if phases[c] == Sleeping {
        NextIsLater(Now(), Event.Wake(c));
        Wake(c);
      } else if gate == Free {
        dropped := Ask(c);
      }
    }

    /** The advisory snapshot is published before the attempt is handed over. */
    method Publish(c: Caller) returns (out: Begun)
      requires Valid() && c in phases && phases[c].Publishing? && phases[c].id in own && !Holds(Now(), c)
      modifies this
      ensures Valid() && old(events) <= events && Later(old(Now()), Now())
      ensures match out
              case Granted(id) => id == old(phases[c].id) && In(Now(), c, Owning(id)) && id in live && !own[id]
              case Dropped => In(Now(), c, Ended)
              case Refused => false
      ensures !Holds(Now(), c) && AsksNothing(c, events, |old(events)|)
    {
      var dropped := Await(c);
      if dropped { return Dropped; }
      NextIsLater(Now(), Transfer(c));
      Invariant();
      Happen(Transfer(c));
      return Granted(phases[c].id);
    }

    /** What became of storing an observation of the attempt that `c` owned. */
    twostate predicate Observes(c: Caller, settles: bool, out: Observed)
      reads this
    {
      old(Owns(Now(), c)) &&
      var id := old(phases[c].id);
      id in own && id in old(own) && match out
      case Acknowledged => In(Now(), c, Owning(id)) && id in live && (own[id] <==> old(own[id]) || settles)
      case Lost => Shut(Now()) && In(Now(), c, Owning(id)) && (own[id] ==> old(own[id]) || settles)
      case Gone => Abandoned(id) && In(Now(), c, Ended) && (own[id] ==> old(own[id]) || settles)
    }

    /** One passage through the gate for an owner. */
    method Observation(c: Caller, settles: bool) returns (out: Observed)
      requires Valid() && Owns(Now(), c) && gate == Free
      modifies this
      ensures Valid() && old(events) <= events && Later(old(Now()), Now())
      ensures !Holds(Now(), c) && Observes(c, settles, out)
    {
      Open(c, settles);
      var dropped := Await(c);
      if dropped { return Gone; }
      dropped := Transact(c);
      if dropped { return Gone; }
      out := Close(c);
    }

    /** The owner takes the gate for its transaction. */
    method Open(c: Caller, settles: bool)
      requires Valid() && Owns(Now(), c) && gate == Free
      modifies this
      ensures Valid() && old(events) <= events && Later(old(Now()), Now())
      ensures In(Now(), c, old(phases[c])) && Holds(Now(), c)
      ensures gate.work == Updating(old(phases[c].id), settles) && old(phases[c].id) in own && own == old(own)
    {
      Invariant();
      NextIsLater(Now(), Observe(c, settles));
      Happen(Observe(c, settles));
    }

    /** The owner lets the gate go; an unacknowledged transaction shuts the launch first. */
    method Close(c: Caller) returns (out: Observed)
      requires Valid() && Holds(Now(), c) && gate.work.Updated?
      modifies this
      ensures Valid() && old(events) <= events && Later(old(Now()), Now())
      ensures old(Owns(Now(), c)) && In(Now(), c, old(phases[c])) && gate == Free && own == old(own)
      ensures if old(gate.work.ok) then out == Acknowledged && old(phases[c].id) in live else out == Lost && Shut(Now())
    {
      Invariant();
      out := if gate.work.ok then Acknowledged else Lost;
      NextIsLater(Now(), Event.Acknowledge(c));
      Acknowledge(c);
    }

    /** The transaction of an observation and the wait for its acknowledgment. */
    method Transact(c: Caller) returns (dropped: bool)
      requires Valid() && Holds(Now(), c) && gate.work.Updating?
      modifies this
      ensures Valid() && old(events) <= events && Later(old(Now()), Now())
      ensures var id := old(gate.work.id);
              id in own && id in old(own) && (own[id] ==> old(own[id]) || old(gate.work.settles))
              && if dropped then In(Now(), c, Ended) && !Holds(Now(), c) && Abandoned(id)
                 else In(Now(), c, Owning(id)) && Holds(Now(), c) && gate.work.Updated?
                      && (gate.work.ok && old(gate.work.settles) ==> own[id])
    {
      Invariant();
      var fault: Fault := *;
      NextIsLater(Now(), Event.Commit(c, fault));
      Happen(Event.Commit(c, fault));
      dropped := Await(c);
    }

    /**
     * Store metadata, a settlement or an interpretation of the attempt that the caller owns. What is
     * acknowledged is stored, and only a settlement settles; a lost acknowledgment shuts the launch.
     */
    method Settle(c: Caller, settles: bool, turns: nat) returns (out: Observed)
      requires Valid() && Owns(Now(), c) && !Holds(Now(), c)
      modifies this
      ensures Valid() && old(events) <= events && Later(old(Now()), Now())
      ensures !Holds(Now(), c) && Observes(c, settles, out)
    {
      Invariant();
      for turn := 0 to turns
        invariant Valid() && old(events) <= events && Later(old(Now()), Now()) && !Holds(Now(), c)
        invariant In(Now(), c, Owning(old(phases[c].id)))
        invariant old(phases[c].id) in own && own[old(phases[c].id)] == old(own[phases[c].id])
      {
        var dropped := Await(c);
        if dropped { return Gone; }
        if gate == Free {
          out := Observation(c, settles);
          return;
        }
      }
      NextIsLater(Now(), Event.Drop(c));
      Drop(c);
      return Gone;
    }
  }

  /** Since `from`, caller `c` ran no admission transaction. */
  ghost predicate AsksNothing(c: Caller, es: seq<Event>, from: nat) {
    forall n: nat | from <= n < |es| :: !(es[n].Decide? && es[n].c == c)
  }
}
