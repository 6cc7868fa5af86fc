/** The record lifecycle, the graded record and the state predicates shared by the engine. */
module Lifecycle {
  import opened Common

  datatype State =
    | Seeded | UserSynthesized | AssistantGenerated | Verified | Judged
    | Admitted | Formatted | Exported | Rejected | Revising | NeedsReview | Error

  datatype Decision = Accept | Revise | Reject | Escalate

  /** The persisted judging block: the re-derived decision and the panel aggregate, if any. */
  datatype Grade = Grade(decision: Decision, aggregate: Option<real>)

  /**
   * One stored record. `renders` is what the pure render of its messages yields, both for the
   * judge prompt and for the formatting edge; `tagged` is the bounded-revise retry tag.
   */
  datatype Record = Record(state: State, grade: Option<Grade>, renders: bool, tagged: bool)

  /** A record of one seed item: the attempt-0 sibling or the attempt-1 retry of a completion. */
  datatype Key = Original(index: nat) | Retry(index: nat)

  type Item = map<Key, Record>

  /** No further driving by the step machine; `Revising` and `Formatted` are handed on. */
  predicate IsTerminal(s: State) {
    s in {Exported, Formatted, Rejected, NeedsReview, Error, Revising}
  }

  /** An outcome no fault may overwrite. */
  predicate IsDecided(s: State) {
    s in {Admitted, Formatted, Exported, Rejected, NeedsReview, Revising}
  }

  predicate IsAdmitted(s: State) {
    s in {Admitted, Formatted, Exported}
  }

  predicate IsEstablished(s: State) {
    IsAdmitted(s) || s == Revising
  }

  predicate IsUngraded(s: State) {
    s in {Seeded, UserSynthesized, AssistantGenerated, Verified}
  }

  predicate IsAdmissible(g: Grade) {
    g.decision in {Accept, Revise}
  }

  function ToLifecycle(d: Decision): State {
    match d
    case Accept => Admitted
    case Reject => Rejected
    case Revise => Revising
    case Escalate => NeedsReview
  }

  /** The reconcile edge: a second revise, on a tagged retry, is downgraded to a rejection. */
  function Reconciled(g: Grade, tagged: bool): State {
    if g.decision == Revise && tagged then Rejected else ToLifecycle(g.decision)
  }

  /** How far a stored record has come; every write takes it further. */
  function Stage(s: State): nat {
    match s
    case AssistantGenerated => 0
    case Verified => 1
    case Judged => 2
    case Admitted => 3
    case Exported => 5
    case _ => 4
  }
}
