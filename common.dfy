/** Value wrappers shared by the tournament model. */
module Common {

  /** A nullable column value (SQL NULL, JSON null, a missing request key). */
  datatype Option<T> = None | Some(value: T)

  /** The one validation error the draws report: the player count is odd. */
  datatype Error = OddPlayerCount

  /** The outcome of a draw: its value, or the error returned to the caller. */
  datatype Result<T> = Ok(value: T) | Err(error: Error)
}
