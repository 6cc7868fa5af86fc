/**
 * Durable protocol of one best-of-k seed item. Every step is one committed store transaction;
 * a crash or a cancellation between two transactions leaves the durable item where it was, so a
 * run with any number of crashes and relaunches is still a sequence of these steps.
 */
module BestOfK {
  import opened Common
  import opened Lifecycle

  // ---- Group election, read off the durable item ----

  ghost predicate AllGraded(k: nat, a: Item) {
    forall i: nat | i < k :: Original(i) in a && !IsUngraded(a[Original(i)].state)
  }

  /** A still-judged sibling that the election considers. */
  ghost predicate Candidate(a: Item, i: nat) {
    Original(i) in a && a[Original(i)].state == Judged && a[Original(i)].grade.Some?
    && IsAdmissible(a[Original(i)].grade.value) && a[Original(i)].grade.value.aggregate.Some?
  }

  ghost function Aggregate(a: Item, i: nat): real
    requires Candidate(a, i)
  {
    a[Original(i)].grade.value.aggregate.value
  }

  /** Largest aggregate wins, and a tie keeps the lowest completion index. */
  ghost predicate Elected(k: nat, a: Item, i: nat) {
    i < k && Candidate(a, i)
    && forall j: nat | j < k && Candidate(a, j) ::
         Aggregate(a, j) < Aggregate(a, i) || (Aggregate(a, j) == Aggregate(a, i) && i <= j)
  }

  ghost predicate EstablishedAt(k: nat, a: Item, i: nat) {
    i < k && Original(i) in a && IsEstablished(a[Original(i)].state)
  }

  ghost predicate HasEstablished(k: nat, a: Item) {
    exists i: nat :: EstablishedAt(k, a, i)
  }

  /** The sibling the group keeps: the established winner, else the freshly elected one. */
  ghost predicate Keeps(k: nat, a: Item, i: nat) {
    if HasEstablished(k, a) then EstablishedAt(k, a, i) else Elected(k, a, i)
  }

  /** `keep` names the kept sibling; `None` says the group has no winner and can elect none. */
  ghost predicate KeepIs(k: nat, a: Item, keep: Option<nat>) {
    match keep
    case Some(i) => Keeps(k, a, i)
    case None => !HasEstablished(k, a) && forall i: nat | i < k :: !Candidate(a, i)
  }

  /** `group` is the fully graded group as the durable item holds it. */
  ghost predicate GroupIs(k: nat, a: Item, group: seq<Record>) {
    |group| == k && AllGraded(k, a) && forall i: nat | i < k :: Original(i) in a && a[Original(i)] == group[i]
  }

  /** Finishing one sibling leaves the group's choice as it was. */
  lemma KeepStays(k: nat, a: Item, group: seq<Record>, keep: Option<nat>, j: nat, r: Record)
    requires Inv(k, a) && GroupIs(k, a, group) && KeepIs(k, a, keep) && j < k && Inv(k, a[Original(j) := r])
    requires r == a[Original(j)]
             || if keep == Some(j) then IsEstablished(r.state)
                else r.state in {Rejected, NeedsReview} && a[Original(j)].state == Judged
    ensures KeepIs(k, a[Original(j) := r], keep) && GroupIs(k, a[Original(j) := r], group[j := r])
  {
    var b := a[Original(j) := r];
    if r == a[Original(j)] {
      assert b == a;
    } else {
      assert forall i: nat | i != j :: EstablishedAt(k, a, i) <==> EstablishedAt(k, b, i);
      assert forall i: nat | i != j :: Candidate(a, i) <==> Candidate(b, i);
      assert !EstablishedAt(k, b, j) || keep == Some(j);
    }
  }

  lemma NotKept(k: nat, a: Item, keep: Option<nat>, j: nat)
    requires Inv(k, a) && KeepIs(k, a, keep) && keep != Some(j) && j < k
    ensures !Keeps(k, a, j) && !EstablishedAt(k, a, j)
  {
  }

  // ---- One durable step ----

  function Stub(): Record {
    Record(Error, None, false, false)
  }

  /** A write that creates a record: a generated one, or the stub of a faulted generation. */
  ghost predicate Inserts(r: Record, retry: bool) {
    (r.state == AssistantGenerated && r.grade.None? && r.tagged == retry) || r == Stub()
  }

  /** Verification and judging, or the fault that parks the record. */
  ghost predicate Grades(p: Record, r: Record) {
    r.renders == p.renders && r.tagged == p.tagged &&
    ((p.state == AssistantGenerated && r.state == Verified && r.grade == p.grade)
     || (p.state == Verified && r.state == Judged && r.grade.Some? && (IsAdmissible(r.grade.value) ==> p.renders))
     || (p.state in {AssistantGenerated, Verified} && r.state == Error && r.grade == p.grade))
  }

  /** Rendering an admitted record and acknowledging a published one. */
  ghost predicate Publishes(p: Record, r: Record) {
    (p.state == Admitted && r == p.(state := Formatted)) || (p.state == Formatted && r == p.(state := Exported))
  }

  ghost predicate Finalizes(k: nat, a: Item, i: nat, p: Record, r: Record) {
    p.state == Judged && p.grade.Some? && AllGraded(k, a)
    && r == p.(state := if Keeps(k, a, i) || !IsAdmissible(p.grade.value)
                        then Reconciled(p.grade.value, p.tagged) else Rejected)
  }

  ghost predicate Write(k: nat, a: Item, key: Key, r: Record) {
    match key
    case Original(i) =>
      i < k && if key !in a then Inserts(r, false)
               else Grades(a[key], r) || Publishes(a[key], r) || Finalizes(k, a, i, a[key], r)
    case Retry(i) =>
      i < k && Original(i) in a && a[Original(i)].state == Revising
      && if key !in a then Inserts(r, true)
         else Grades(a[key], r) || Publishes(a[key], r)
              || (a[key].state == Judged && a[key].grade.Some?
                  && r == a[key].(state := Reconciled(a[key].grade.value, a[key].tagged)))
  }

  ghost predicate Step(k: nat, a: Item, b: Item) {
    exists key, r :: Write(k, a, key, r) && b == a[key := r]
  }

  ghost predicate StepAt(k: nat, h: seq<Item>, n: nat)
    requires n + 1 < |h|
  {
    h[n + 1] == h[n] || Step(k, h[n], h[n + 1])
  }

  /** Durable states of one item, over any number of launches; other items may step in between. */
  ghost predicate IsRun(k: nat, h: seq<Item>) {
    |h| > 0 && h[0] == map[] && forall n: nat | n + 1 < |h| :: StepAt(k, h, n)
  }

  ghost predicate Settled(k: nat, a: Item) {
    forall i: nat | i < k ::
      Original(i) in a && IsTerminal(a[Original(i)].state)
      && (a[Original(i)].state == Revising ==> Retry(i) in a && IsTerminal(a[Retry(i)].state))
  }

  lemma WriteKeepsSettled(k: nat, a: Item, key: Key, r: Record)
    requires Settled(k, a) && Write(k, a, key, r)
    ensures Settled(k, a[key := r])
  {
  }

  // ---- Invariant ----

  ghost predicate RecordInv(key: Key, r: Record) {
    (r.state in {AssistantGenerated, Verified, Judged, Admitted, Revising} ==> r.tagged == key.Retry?)
    && (r.state in {Judged, Admitted, Formatted, Exported, Revising} ==> r.grade.Some?)
    && (r.state == Judged && IsAdmissible(r.grade.value) ==> r.renders)
    && (IsAdmitted(r.state) ==> r.renders && r.grade.value.decision == Accept)
    && (r.state == Revising ==> key.Original? && r.grade.value.decision == Revise)
    && (IsUngraded(r.state) ==> r.grade.None?)
    && r.state !in {Seeded, UserSynthesized}
  }

  /** The part of the invariant about winners. */
  ghost predicate WinnerInv(k: nat, a: Item) {
    (forall i: nat | EstablishedAt(k, a, i) :: AllGraded(k, a))
    && (forall i: nat, j: nat | EstablishedAt(k, a, i) && EstablishedAt(k, a, j) :: i == j)
  }

  ghost predicate Inv(k: nat, a: Item) {
    (forall key | key in a :: key.index < k && RecordInv(key, a[key]))
    && (forall i: nat | Retry(i) in a :: EstablishedAt(k, a, i) && a[Original(i)].state == Revising)
    && WinnerInv(k, a)
  }

  lemma WriteKeepsWinners(k: nat, a: Item, key: Key, r: Record)
    requires Inv(k, a) && Write(k, a, key, r)
    ensures WinnerInv(k, a[key := r])
  {
    var b := a[key := r];
    if key.Original? {
      forall i: nat | i != key.index ensures EstablishedAt(k, a, i) <==> EstablishedAt(k, b, i) {}
      if EstablishedAt(k, b, key.index) && !EstablishedAt(k, a, key.index) {
        assert !HasEstablished(k, a);
      }
      if AllGraded(k, a) { assert AllGraded(k, b); }
    } else {
      forall i: nat ensures EstablishedAt(k, a, i) <==> EstablishedAt(k, b, i) {}
      assert AllGraded(k, a) ==> AllGraded(k, b);
    }
  }

  lemma WriteShape(k: nat, a: Item, key: Key, r: Record)
    requires Inv(k, a) && Write(k, a, key, r)
    ensures key.index < k && RecordInv(key, r)
    ensures key in a && a[key].state == Revising ==> r == a[key]
  {
  }

  lemma WriteAdvances(k: nat, a: Item, key: Key, r: Record)
    requires Inv(k, a) && Write(k, a, key, r) && key in a
    ensures Stage(a[key].state) < Stage(r.state)
  {
  }

  lemma WriteKeepsInv(k: nat, a: Item, key: Key, r: Record)
    requires Inv(k, a) && Write(k, a, key, r)
    ensures Inv(k, a[key := r])
  {
    WriteKeepsWinners(k, a, key, r);
    WriteShape(k, a, key, r);
    var b := a[key := r];
    forall i: nat | Retry(i) in b ensures EstablishedAt(k, b, i) && b[Original(i)].state == Revising {
      assert Retry(i) in a ==> EstablishedAt(k, a, i);
    }
  }

  lemma {:induction false} RunKeepsInv(k: nat, h: seq<Item>, n: nat)
    requires IsRun(k, h) && n < |h|
    ensures Inv(k, h[n])
  {
    if n == 0 {
      StartKeepsInv(k, h);
    } else {
      RunKeepsInv(k, h, n - 1);
      StepKeepsInv(k, h, n);
    }
  }

  lemma StartKeepsInv(k: nat, h: seq<Item>)
    requires IsRun(k, h)
    ensures Inv(k, h[0])
  {
    assert h[0] == map[];
  }

  lemma StepKeepsInv(k: nat, h: seq<Item>, n: nat)
    requires IsRun(k, h) && 0 < n < |h| && Inv(k, h[n - 1])
    ensures Inv(k, h[n])
  {
    assert StepAt(k, h, n - 1);
    if h[n] != h[n - 1] {
      var key, r :| Write(k, h[n - 1], key, r) && h[n] == h[n - 1][key := r];
      WriteKeepsInv(k, h[n - 1], key, r);
    }
  }

  // ---- Main safety results ----

  /** In every durable state at most one sibling is a winner and at most one record is admitted. */
  lemma {:induction false} OneWinner(k: nat, h: seq<Item>, n: nat)
    requires IsRun(k, h) && n < |h|
    ensures forall i: nat, j: nat | EstablishedAt(k, h[n], i) && EstablishedAt(k, h[n], j) :: i == j
    ensures forall x, y | x in h[n] && y in h[n] && IsAdmitted(h[n][x].state) && IsAdmitted(h[n][y].state) :: x == y
  {
    RunKeepsInv(k, h, n);
    var a := h[n];
    forall x, y | x in a && y in a && IsAdmitted(a[x].state) && IsAdmitted(a[y].state) ensures x == y {
      assert EstablishedAt(k, a, x.index) && EstablishedAt(k, a, y.index) by {
        if x.Retry? { assert Retry(x.index) in a; } else { assert Original(x.index) in a; }
        if y.Retry? { assert Retry(y.index) in a; } else { assert Original(y.index) in a; }
      }
    }
  }

  /** What a decided record may still become: publication progress only. */
  ghost predicate Progressed(s: State, t: State) {
    s == t || (s == Admitted && t in {Formatted, Exported}) || (s == Formatted && t == Exported)
  }

  /**
   * Over a whole run: a stored record is never dropped, a decided one only gains publication
   * progress (so it never becomes `Error`), an errored one stays errored, and a persisted grade
   * is never replaced.
   */
  lemma {:induction false} Absorption(k: nat, h: seq<Item>, m: nat, n: nat, key: Key)
    requires IsRun(k, h) && m <= n < |h| && key in h[m]
    ensures key in h[n]
    ensures IsDecided(h[m][key].state) ==> Progressed(h[m][key].state, h[n][key].state)
    ensures h[m][key].state == Error ==> h[n][key] == h[m][key]
    ensures h[m][key].grade.Some? ==> h[n][key].grade == h[m][key].grade
    decreases n - m
  {
    if m < n {
      Absorption(k, h, m, n - 1, key);
      RunKeepsInv(k, h, n - 1);
      assert StepAt(k, h, n - 1);
    }
  }

  /** The step from `h[n]` to `h[n + 1]` moves the record at `key` to `Revising`. */
  ghost predicate EntersRevising(h: seq<Item>, n: nat, key: Key)
    requires n + 1 < |h|
  {
    key in h[n + 1] && h[n + 1][key].state == Revising && (key in h[n] ==> h[n][key].state != Revising)
  }

  lemma OneRevising(k: nat, a: Item, x: Key, y: Key)
    requires Inv(k, a) && x in a && y in a && a[x].state == Revising && a[y].state == Revising
    ensures x == y && x.Original?
  {
    assert EstablishedAt(k, a, x.index) && EstablishedAt(k, a, y.index);
  }

  /** A whole run holds at most one `Revising` transition of the item, and never one of a retry. */
  lemma {:induction false} OneRevision(k: nat, h: seq<Item>, m: nat, n: nat, x: Key, y: Key)
    requires IsRun(k, h) && m <= n && n + 1 < |h|
    requires EntersRevising(h, m, x) && EntersRevising(h, n, y)
    ensures m == n && x == y && x.Original?
  {
    Absorption(k, h, m + 1, n + 1, x);
    assert x == y && x.Original? by {
      RunKeepsInv(k, h, n + 1);
      OneRevising(k, h[n + 1], x, y);
    }
    if m < n {
      Absorption(k, h, m + 1, n, x);
    }
  }

  // ---- Crash confluence: what a fixed oracle makes of an item ----

  /** What generation, verification and judging of one record id yield, on every launch. */
  datatype Fate =
    | GenerationFault
    | VerifyFault(renders: bool)
    | JudgeFault(renders: bool)
    | Graded(renders: bool, grade: Grade)

  type Oracle = o: Key -> Fate | forall key :: o(key).Graded? && IsAdmissible(o(key).grade) ==> o(key).renders
    witness (key: Key) => GenerationFault

  /** The judge rail renders an admissible candidate, so a record that does not render faults there. */
  predicate Judges(fate: Fate, p: Record) {
    fate.Graded? && (IsAdmissible(fate.grade) ==> p.renders)
  }

  /** The write of `r` at `key` is what the oracle says of that record id. */
  ghost predicate Conforms(o: Oracle, a: Item, key: Key, r: Record) {
    var fate := o(key);
    if key !in a then
      if fate.GenerationFault? then r == Stub() else r.state == AssistantGenerated && r.renders == fate.renders
    else if a[key].state == AssistantGenerated then r.state == if fate.VerifyFault? then Error else Verified
    else if a[key].state == Verified then
      if Judges(fate, a[key]) then r.state == Judged && r.grade == Some(fate.grade) else r.state == Error
    else true
  }

  ghost predicate OracleStep(o: Oracle, k: nat, a: Item, b: Item) {
    exists key, r :: Write(k, a, key, r) && Conforms(o, a, key, r) && b == a[key := r]
  }

  ghost predicate OracleStepAt(o: Oracle, k: nat, h: seq<Item>, n: nat)
    requires n + 1 < |h|
  {
    h[n + 1] == h[n] || OracleStep(o, k, h[n], h[n + 1])
  }

  ghost predicate IsOracleRun(o: Oracle, k: nat, h: seq<Item>) {
    |h| > 0 && h[0] == map[] && forall n: nat | n + 1 < |h| :: OracleStepAt(o, k, h, n)
  }

  ghost predicate Contender(o: Oracle, i: nat) {
    var fate := o(Original(i));
    fate.Graded? && IsAdmissible(fate.grade) && fate.grade.aggregate.Some?
  }

  ghost function Promise(o: Oracle, i: nat): real
    requires Contender(o, i)
  {
    o(Original(i)).grade.aggregate.value
  }

  /** The sibling an uninterrupted run elects: lowest-index argmax over the whole group. */
  ghost predicate Champion(o: Oracle, k: nat, i: nat) {
    i < k && Contender(o, i)
    && forall j: nat | j < k && Contender(o, j) ::
         Promise(o, j) < Promise(o, i) || (Promise(o, j) == Promise(o, i) && i <= j)
  }

  lemma {:induction false} ChampionExists(o: Oracle, k: nat, i: nat) returns (c: nat)
    requires i < k && Contender(o, i)
    ensures Champion(o, k, c)
  {
    if exists j: nat :: j < k - 1 && Contender(o, j) {
      var j: nat :| j < k - 1 && Contender(o, j);
      c := ChampionExists(o, k - 1, j);
      if Contender(o, k - 1) && Promise(o, c) < Promise(o, k - 1) {
        c := k - 1;
      }
    } else {
      c := i;
    }
  }

  /** The lifecycle an uninterrupted run gives each record id; `None` when the id is never made. */
  ghost function FinalState(o: Oracle, k: nat, key: Key): Option<State> {
    if key.index >= k then None
    else if key.Retry? && !(Champion(o, k, key.index) && o(Original(key.index)).grade.decision == Revise) then None
    else if !o(key).Graded? then Some(Error)
    else
      var g := o(key).grade;
      if key.Original? && IsAdmissible(g) && !Champion(o, k, key.index) then Some(Rejected)
      else if g.decision == Accept then Some(Formatted)
      else Some(Reconciled(g, key.Retry?))
  }

  /** A record on the way to its final state, as far as the oracle has let it come. */
  ghost predicate OnTrack(o: Oracle, k: nat, key: Key, r: Record) {
    var fate := o(key);
    FinalState(o, k, key).Some?
    && match fate
       case GenerationFault => r == Stub()
       case VerifyFault(renders) => r.state in {AssistantGenerated, Error}
       case JudgeFault(renders) => r.state in {AssistantGenerated, Verified, Error}
       case Graded(renders, g) =>
         r.renders == renders
         && if r.state in {AssistantGenerated, Verified} then true
            else r.grade == Some(g)
                 && (r.state == Judged || r.state == FinalState(o, k, key).value
                     || (FinalState(o, k, key).value == Formatted && IsAdmitted(r.state)))
  }

  ghost predicate TrackInv(o: Oracle, k: nat, a: Item) {
    Inv(k, a) && forall key | key in a :: OnTrack(o, k, key, a[key])
  }

  /** With every sibling graded, the group keeps the champion of the oracle and no other. */
  lemma KeepsChampion(o: Oracle, k: nat, a: Item, i: nat)
    requires TrackInv(o, k, a) && AllGraded(k, a) && i < k
    ensures Keeps(k, a, i) <==> Champion(o, k, i)
  {
    if HasEstablished(k, a) {
      var w: nat :| EstablishedAt(k, a, w);
      assert OnTrack(o, k, Original(w), a[Original(w)]) && OnTrack(o, k, Original(i), a[Original(i)]);
    } else {
      forall j: nat | j < k ensures Candidate(a, j) ==> Contender(o, j) && Aggregate(a, j) == Promise(o, j) {
        assert OnTrack(o, k, Original(j), a[Original(j)]);
      }
      forall j: nat | Champion(o, k, j) ensures Candidate(a, j) {
        assert OnTrack(o, k, Original(j), a[Original(j)]) && !EstablishedAt(k, a, j);
      }
      if Elected(k, a, i) {
        var c := ChampionExists(o, k, i);
        assert Candidate(a, c);
      }
    }
  }

  lemma WriteKeepsTrack(o: Oracle, k: nat, a: Item, key: Key, r: Record)
    requires TrackInv(o, k, a) && Write(k, a, key, r) && Conforms(o, a, key, r)
    ensures TrackInv(o, k, a[key := r])
  {
    WriteKeepsInv(k, a, key, r);
    if key in a && key.Original? && a[key].state == Judged {
      KeepsChampion(o, k, a, key.index);
    }
    if key.Retry? {
      assert OnTrack(o, k, Original(key.index), a[Original(key.index)]);
    }
    assert OnTrack(o, k, key, r);
  }

  lemma {:induction false} OracleRunOnTrack(o: Oracle, k: nat, h: seq<Item>, n: nat)
    requires IsOracleRun(o, k, h) && n < |h|
    ensures TrackInv(o, k, h[n])
  {
    if n == 0 {
      StartOnTrack(o, k, h);
    } else {
      OracleRunOnTrack(o, k, h, n - 1);
      StepKeepsTrack(o, k, h, n);
    }
  }

  lemma StartOnTrack(o: Oracle, k: nat, h: seq<Item>)
    requires IsOracleRun(o, k, h)
    ensures TrackInv(o, k, h[0])
  {
    assert h[0] == map[];
  }

  lemma StepKeepsTrack(o: Oracle, k: nat, h: seq<Item>, n: nat)
    requires IsOracleRun(o, k, h) && 0 < n < |h| && TrackInv(o, k, h[n - 1])
    ensures TrackInv(o, k, h[n])
  {
    assert OracleStepAt(o, k, h, n - 1);
    if h[n] != h[n - 1] {
      var key, r :| Write(k, h[n - 1], key, r) && Conforms(o, h[n - 1], key, r) && h[n] == h[n - 1][key := r];
      WriteKeepsTrack(o, k, h[n - 1], key, r);
    }
  }

  /**
   * Crash confluence: once the item is settled, its records are exactly the ones the oracle's
   * uninterrupted run makes, each in its final state, wherever crashes and cancellations fell.
   * Publication may since have acknowledged a formatted winner.
   */
  lemma {:induction false} CrashConfluence(o: Oracle, k: nat, h: seq<Item>, n: nat)
    requires IsOracleRun(o, k, h) && n < |h| && Settled(k, h[n])
    ensures forall key :: key in h[n] <==> FinalState(o, k, key).Some?
    ensures forall key | key in h[n] ::
              h[n][key].state == FinalState(o, k, key).value
              || (h[n][key].state == Exported && FinalState(o, k, key).value == Formatted)
  {
    OracleRunOnTrack(o, k, h, n);
    var a := h[n];
    forall key | FinalState(o, k, key).Some? ensures key in a {
      assert Original(key.index) in a && OnTrack(o, k, Original(key.index), a[Original(key.index)]);
    }
    forall key | key in a ensures a[key].state == FinalState(o, k, key).value
      || (a[key].state == Exported && FinalState(o, k, key).value == Formatted)
    {
      assert OnTrack(o, k, key, a[key]);
      assert Original(key.index) in a;
      if key.Retry? { assert EstablishedAt(k, a, key.index); }
    }
  }

  /** Two settled runs under one oracle agree, whatever was interrupted in either of them. */
  lemma SettledRunsAgree(o: Oracle, k: nat, g: seq<Item>, m: nat, h: seq<Item>, n: nat)
    requires IsOracleRun(o, k, g) && m < |g| && Settled(k, g[m])
    requires IsOracleRun(o, k, h) && n < |h| && Settled(k, h[n])
    ensures g[m].Keys == h[n].Keys
    ensures forall key | key in g[m] ::
              Progressed(g[m][key].state, h[n][key].state) || Progressed(h[n][key].state, g[m][key].state)
  {
    CrashConfluence(o, k, g, m);
    CrashConfluence(o, k, h, n);
    assert forall key :: key in g[m].Keys <==> key in h[n].Keys;
  }

  // ---- Every run can be brought to its end ----

  /** What the generation edge first stores for a record id. */
  function Created(o: Oracle, key: Key): Record {
    if o(key).GenerationFault? then Stub() else Record(AssistantGenerated, None, o(key).renders, key.Retry?)
  }

  /** The state a stored record is driven to next, given the oracle. */
  ghost function Next(o: Oracle, k: nat, a: Item, key: Key): Record
    requires TrackInv(o, k, a) && key in a
  {
    var p := a[key];
    var fate := o(key);
    match p.state
    case AssistantGenerated => p.(state := if fate.VerifyFault? then Error else Verified)
    case Verified =>
      if Judges(fate, p) then p.(state := Judged, grade := Some(fate.grade)) else p.(state := Error)
    case Judged =>
      if key.Retry? || Keeps(k, a, key.index) || !IsAdmissible(p.grade.value)
      then p.(state := Reconciled(p.grade.value, p.tagged)) else p.(state := Rejected)
    case _ => p.(state := Formatted)
  }

  /** An unsettled item shows a missing or an undriven record, of a sibling or of a due retry. */
  lemma NextWrite(o: Oracle, k: nat, a: Item) returns (key: Key, r: Record)
    requires TrackInv(o, k, a) && !Settled(k, a)
    ensures Write(k, a, key, r) && Conforms(o, a, key, r) && key.index < k
    ensures key in a ==> Stage(a[key].state) < Stage(r.state)
  {
    if !AllGraded(k, a) {
      var i: nat :| i < k && (Original(i) in a ==> IsUngraded(a[Original(i)].state));
      key := Original(i);
    } else if i: nat :| i < k && !IsTerminal(a[Original(i)].state) {
      key := Original(i);
    } else {
      var i: nat :| i < k && a[Original(i)].state == Revising
                    && (Retry(i) in a ==> !IsTerminal(a[Retry(i)].state));
      key := Retry(i);
    }
    if key in a {
      r := Next(o, k, a, key);
      DrivenWrite(o, k, a, key);
    } else {
      r := Created(o, key);
    }
  }

  lemma DrivenWrite(o: Oracle, k: nat, a: Item, key: Key)
    requires TrackInv(o, k, a) && key in a && !IsTerminal(a[key].state)
    requires key.Original? && a[key].state == Judged ==> AllGraded(k, a)
    ensures Write(k, a, key, Next(o, k, a, key)) && Conforms(o, a, key, Next(o, k, a, key))
    ensures Stage(a[key].state) < Stage(Next(o, k, a, key).state)
  {
    assert OnTrack(o, k, key, a[key]);
    if key.Retry? { assert EstablishedAt(k, a, key.index); }
  }

  /** The transitions that the records of one sibling can still make. */
  function Remaining(a: Item, key: Key): nat {
    if key in a then 5 - Stage(a[key].state) else 6
  }

  function Work(a: Item, n: nat): nat {
    if n == 0 then 0 else Work(a, n - 1) + Remaining(a, Original(n - 1)) + Remaining(a, Retry(n - 1))
  }

  lemma {:induction false} WorkDrops(a: Item, key: Key, r: Record, n: nat)
    requires key in a ==> Stage(a[key].state) < Stage(r.state)
    ensures if key.index < n then Work(a[key := r], n) < Work(a, n) else Work(a[key := r], n) == Work(a, n)
  {
    if n > 0 {
      WorkDrops(a, key, r, n - 1);
      assert Remaining(a[key := r], key) < Remaining(a, key);
    }
  }

  lemma Extends(o: Oracle, k: nat, h: seq<Item>, b: Item)
    requires IsOracleRun(o, k, h) && OracleStep(o, k, h[|h| - 1], b)
    ensures IsOracleRun(o, k, h + [b])
  {
    forall n: nat | n < |h| ensures OracleStepAt(o, k, h + [b], n) {
      assert n + 1 < |h| ==> OracleStepAt(o, k, h, n);
    }
  }

  /**
   * Wherever a run was interrupted, writes that the oracle foretells bring its item to the end, so
   * the outcome of which `CrashConfluence` speaks is always reached by relaunching.
   */
  lemma {:induction false} CanSettle(o: Oracle, k: nat, h: seq<Item>) returns (g: seq<Item>)
    requires IsOracleRun(o, k, h)
    ensures h <= g && IsOracleRun(o, k, g) && Settled(k, g[|g| - 1])
    decreases Work(h[|h| - 1], k)
  {
    var a := h[|h| - 1];
    OracleRunOnTrack(o, k, h, |h| - 1);
    if Settled(k, a) {
      g := h;
    } else {
      var key, r := NextWrite(o, k, a);
      WorkDrops(a, key, r, k);
      assert OracleStep(o, k, a, a[key := r]);
      Extends(o, k, h, a[key := r]);
      g := CanSettle(o, k, h + [a[key := r]]);
    }
  }
}
