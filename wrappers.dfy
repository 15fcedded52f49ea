/** Option and Result, used wherever the JavaScript source yields
    `undefined`/`null` or raises a TypeError. */
module Wrappers {

  datatype Option<+T> = None | Some(value: T)

  /** `Crash` stands for a JavaScript TypeError the source does not catch
      (a property read on `null` or `undefined`). */
  datatype Result<+T> = Ok(value: T) | Crash(reason: string)
}
