/** Values shared by the thermal decision engine: one fused sensor record,
    the four action flags of a decision, and the error kinds a caller sees. */
module Records {

  datatype Option<T> = None | Some(value: T)

  /** An action flag as the source stores it: the integer 0 (off) or 1 (on). */
  type Bit = b: int | 0 <= b <= 1

  /** A label of the comfort classifier: -1 (cold), 0 (neutral) or 1 (warm). */
  type Label = l: int | -1 <= l <= 1

  /** The `{heat, cool, humidify, dry}` dictionary of one decision. */
  datatype Actions = Actions(heat: Bit, cool: Bit, humidify: Bit, dry: Bit)

  const NoActions: Actions := Actions(0, 0, 0, 0)

  /** One fused, resampled sensor row. `timestamp` is in seconds; `feedback`
      is the occupant's vote (-2..2) when given; `decision` holds the four
      action columns once a decision has been written onto the row. */
  datatype Record = Record(
    timestamp: int,
    wristTemp: real,
    roomTemp: real,
    humidity: real,
    prediction: Label,
    feedback: Option<int>,
    decision: Option<Actions>)

  /** A decision remembered for undo: the room readings of its row and the
      actions taken. */
  datatype Decision = Decision(roomTemp: real, humidity: real, actions: Actions)

  datatype Error =
    | EmptyHistory      // no cached sensor rows to refresh from
    | EmptyWindow       // the trimmed window holds no row to decide on
    | NoPriorDecision   // rollback asked for before any decision was captured
    | NothingToPersist  // today's file has no row to write the actions onto

  datatype Result<T> = Ok(value: T) | Err(error: Error)

  /** The result of a step that returns nothing on success. */
  datatype Outcome = Pass | Fail(error: Error)
}
