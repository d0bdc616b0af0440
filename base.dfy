/** Shared value types: optional values and the failures the environment can report. */
module Base {

  /** An optional value, as JavaScript's `undefined`-or-value arguments and results. */
  datatype Option<T> = None | Some(value: T)

  /** A failed Node.js system call: its `code` (such as "EEXIST") and its `message`. */
  datatype Fault = Fault(code: string, message: string)
}
