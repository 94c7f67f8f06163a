/** Failure-carrying datatypes shared by every module of the model. */
module Common {

  datatype Option<T> = None | Some(value: T)

  /** The exceptions the pipeline scripts raise (and do not catch). */
  datatype Error =
    | NoInputFiles                  // FileNotFoundError raised by a loader
    | UnreadableFile(name: string)  // read_csv failed on this file
    | NothingToConcatenate          // pandas.concat of an empty list (ValueError)
    | UnknownFileName(name: string) // KeyError on the fixed quarters table
    | MissingColumn(column: string) // KeyError on df[column]
    | BadNumber(text: string)       // ValueError from float() / int()
    | ZeroWeights                   // numpy.average: weights sum to zero

  datatype Result<T> = Success(value: T) | Failure(error: Error)
}
