/** Value types shared by the model: Swift's fixed-width integers, Core Media's
    rational time value, and an Option for values that are implicitly unwrapped
    in the view controller (`Float!`, `CMTime!`). */
module Media {

  datatype Option<+T> = None | Some(value: T)

  const INT64_MIN: int := -0x8000_0000_0000_0000
  const INT64_MAX: int := 0x7FFF_FFFF_FFFF_FFFF

  /** Swift `Int64`: arithmetic on it traps when the exact result leaves this range. */
  newtype int64 = x: int | -0x8000_0000_0000_0000 <= x < 0x8000_0000_0000_0000

  /** Swift `Int32`, the type of `CMTime.timescale`. */
  newtype int32 = x: int | -0x8000_0000 <= x < 0x8000_0000

  predicate InInt64(x: int) {
    INT64_MIN <= x <= INT64_MAX
  }

  /** `CMTime`: the rational number value/timescale seconds. Used for presentation
      timestamps of samples and for exposure durations. */
  datatype CMTime = CMTime(value: int64, timescale: int32)
}
