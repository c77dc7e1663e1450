/** Large invariants are kept folded, so that proofs can carry them along without looking into them: they sit behind
    a quantifier that only fires once a proof asserts Opened of their name. */
module Folding {
  datatype Fold =
    | OfTable | OfInsertion
    | OfScheduler | OfReport
    | OfNfa | OfPatterns | OfList | OfKids | OfRecord | OfContent | OfTag | OfRunes | OfQueue
    | OfReading | OfRead | OfRound | OfError

  ghost predicate Opened(f: Fold) {
    true
  }
}
