/** Option and Result wrappers, and the errors the construction engine can raise. */
module Outcomes {

  /** Python's `None` for an optional value. */
  datatype Option<+T> = None | Some(value: T)

  /** The failure modes of the engine.
      - MissingLookup: the explicit `Exception('First drop L not in lookup_map')`;
      - MissingWheel: the `KeyError` of `wheel_map[L]` when L is in the lookup map but not in the wheel map;
      - IndexOutOfRange: the `IndexError` of the admissible-term arrays once `b` outgrows their size;
      - ValueError: the length check of `count_matching_indexes`;
      - OutOfFuel: not an error of the source; the model ran out of steps before the orbit halted. */
  datatype Error =
    | MissingLookup(firstDrop: int)
    | MissingWheel(firstDrop: int)
    | IndexOutOfRange
    | ValueError
    | OutOfFuel

  datatype Result<+T> = Success(value: T) | Failure(error: Error)

  /** The errors a Python `except Exception` handler catches. */
  predicate IsException(e: Error) {
    !e.OutOfFuel?
  }
}
