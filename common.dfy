/** Types shared by every part of the model: nullable values, the
    application's error codes, results of service calls and reel statuses. */
module Common {

  /** A Java reference that may be null. */
  datatype Option<+T> = None | Some(value: T)

  /** The application's `ErrorCode` enumeration; a service that throws a
      `CustomException` returns `Err` with the code it carries. */
  datatype ErrorCode =
    | InvalidInputValue
    | InvalidReelUrl
    | InvalidMapApp
    | Unauthorized
    | Forbidden
    | UserNotFound
    | ReelNotFound
    | PlaceNotFound
    | ReelAlreadyExists
    | InternalServerError

  /** The outcome of a service call: its value, or the error code of the
      `CustomException` it throws. */
  datatype Result<+T> = Ok(value: T) | Err(error: ErrorCode)

  /** `ReelStatus`: where a reel is in the processing pipeline. */
  datatype ReelStatus = Processing | NoAddress | PlaceFound | PlaceNotFound | Failed

  /** Database identifiers (`Long` primary keys). */
  type UserId = int
  type ReelId = nat
  type PlaceId = nat

  /** A `BigDecimal` rating, kept opaque: the model never computes with it. */
  datatype Rating = Rating(unscaled: int, scale: int)

  /** Java's `int`, used for counters that wrap around on overflow. */
  newtype Int32 = x: int | -0x8000_0000 <= x < 0x8000_0000

  const Int32Max: Int32 := 0x7fff_ffff
  const Int32Min: Int32 := -0x8000_0000

  /** `x + 1` on a Java `int`: the maximum wraps to the minimum. The result
      is the mathematical successor taken modulo 2^32 into the signed range,
      which is what two's-complement addition computes. */
  function Int32Inc(x: Int32): (r: Int32)
    ensures r as int == (x as int + 1 + 0x8000_0000) % 0x1_0000_0000 - 0x8000_0000
  {
    if x == Int32Max then Int32Min else x + 1
  }
}
