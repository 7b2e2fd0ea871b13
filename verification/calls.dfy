/** Outcome types shared by every module of the model. */
module Calls {

  /** An optional value: JavaScript's `null` or `undefined` become `None`. */
  datatype Option<T> = None | Some(value: T)

  /** The outcome of a call into the chain, the database or a remote service:
      either the value it returned or an exception, whose details the
      application never inspects. */
  datatype Call<T> = Ok(value: T) | Threw
}
