/** Result shapes shared by the handlers of the pennywise backend. */
module Outcomes {

  /** An optional request field or an optional row. */
  datatype Option<+T> = None | Some(value: T)

  /** A handler either answers with a value or throws; `message` is the thrown error's text. */
  datatype Result<+T> = Ok(value: T) | Err(message: string)

  /** What a handler leaves in the database, together with what it answers. */
  datatype Step<+S, +T> = Step(state: S, reply: T)
}
