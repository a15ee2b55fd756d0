/** Failure-carrying values for the universe engine.  Every `ValueError` (and the
    one `IndexError`) that the engine can raise becomes an `Error` kind. */
module Outcomes {

  datatype Option<+T> = None | Some(value: T)

  /** The reasons an engine operation can fail. */
  datatype Error =
    | NonPositiveDimensions   // a universe needs at least one dimension
    | TooManyDimensions       // more than two dimensions are not supported
    | SizeXorInitial          // exactly one of size and initial state must be given
    | InfiniteUniverse        // an infinite Size cannot be allocated
    | InitialRankMismatch     // the initial array's rank differs from the dimensions
    | InitialNotSquare        // the squareness test on the initial array failed
    | CenterRankMismatch      // a rule's center arity differs from its window's rank
    | LocationRankMismatch    // a transform location's arity differs from the dimensions
    | RuleRankMismatch        // a rule's window rank differs from the dimensions
    | NoRules                 // the padding is the max of an empty rule list
    | PadShapeMismatch        // two axes of padding given for a flat (empty) array
    | ColumnOutOfBounds       // a match in a column past the right edge of the grid

  datatype Result<+T> = Ok(value: T) | Err(error: Error)

  /** What a mutating call leaves behind, with the error it raised if any.  An
      exception part-way through does not undo the mutations made before it. */
  datatype Outcome<+T> = Outcome(after: T, raised: Option<Error>)
}
