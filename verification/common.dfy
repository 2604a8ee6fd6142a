/** Failure-carrying wrappers shared by every module of the odds pipeline. */
module Common {

  /** `None` stands for a missing value (pandas NaN, `dict.get` miss, `None`). */
  datatype Option<+T> = None | Some(value: T)

  /** The exceptions the pipeline raises to its caller. */
  datatype Error =
    | NoData                    // ValueError: no table loaded yet
    | GameOddsNotSet            // ValueError: the game-odds map is empty
    | FileNotFound(path: string)
    | DriverNotFound(name: string)
    | MissingColumn(name: string)   // pandas KeyError on a column lookup
    | PageUnavailable(url: string)  // the browser failed to load or read a page

  datatype Result<+T> = Success(value: T) | Failure(error: Error)
}
