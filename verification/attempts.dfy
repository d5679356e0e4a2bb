/** What one completed attempt leaves behind, and the one rule for continuing after it. */
module Attempts {
  datatype Mutation = NoMutation | Committed | PartialOrUnknown

  /** A success carries no partial mutation; a failure carries its producer's own claim that continuing is safe. */
  datatype Outcome<F> =
    | Succeeded(committed: bool)
    | Failed(failure: F, left: Mutation, claimedSafe: bool)
  {
    function Mutation(): Mutation {
      match this
      case Succeeded(committed) => if committed then Committed else NoMutation
      case Failed(_, left, _) => left
    }

    predicate SafeToContinue() {
      Succeeded? || (claimedSafe && left != PartialOrUnknown)
    }
  }

  /** What is not known to be whole is never safe, whatever its producer claims. */
  lemma {:induction false} UnknownIsNeverSafe<F>(outcome: Outcome<F>)
    ensures outcome.SafeToContinue()
       <==> outcome.Mutation() != PartialOrUnknown && (outcome.Failed? ==> outcome.claimedSafe)
  {
  }
}
