/** Option and Result: the model's way of writing pandas' missing values and
    the exceptions a view either reports or lets escape. */
module Wrappers {

  /** `None` stands for a missing cell or for a NaN result. */
  datatype Option<+T> = None | Some(value: T)

  /** Why a view could not produce its result. */
  datatype Failure =
    | MissingColumn(name: string)   // a KeyError on a column the table does not have
    | NoScoreColumns                // no catalogue score column exists in the table
    | NoSelection                   // the user selected no column
    | NoResults                     // a summary over an empty result table
    | NoDefinedGap                  // idxmax over a column with no defined value
    | LengthMismatch                // a paired test given samples of different lengths
    | TooFewGroups                  // a many-sample test given fewer than two groups

  datatype Result<+T> = Ok(value: T) | Err(failure: Failure)
}
