/**
 * Value-or-absent and value-or-exception wrappers shared by every module.
 *
 * Python's `str | None` becomes `Option<string>`. An extractor call that may
 * let an exception escape becomes `Py<T>`: either the value it returns or the
 * exception it raises. `Py` is failure-compatible, so `var x :- e; ...`
 * reads like Python's implicit propagation of an uncaught exception.
 */
module Base {

  datatype Option<+T> = None | Some(value: T)

  /** The exceptions that can escape the modelled code. */
  datatype PyException = IndexError | ValueError

  datatype Py<+T> = Value(value: T) | Raises(exc: PyException) {

    predicate IsFailure() {
      Raises?
    }

    function PropagateFailure<U>(): Py<U>
      requires Raises?
    {
      Raises(exc)
    }

    function Extract(): T
      requires Value?
    {
      value
    }
  }

  /**
   * A Python `float`. Its values are never inspected by the extractors, only
   * produced by `float(text)` and stored, so the model leaves it abstract.
   */
  type Float(==)

  /**
   * Python's `float(text)`: `None` where it raises `ValueError`. What it
   * gives on non-blank text is left open; the rider extractors apply it
   * through `PyFloat`, which refuses blank text as Python does.
   */
  type FloatParser = string -> Option<Float>

  /** Python truthiness of an optional string: `if text:` is false for None and for "". */
  predicate Truthy(text: Option<string>) {
    text.Some? && text.value != ""
  }
}
