/** The Kotlin value types the app's records use: `Int` and `Long` with
    their two's-complement ranges, `T?` as `Option<T>` and `Result<T>` as it
    comes out of the repositories' flows. */
module Kotlin {

  /** Kotlin `Int`: a signed 32-bit integer. */
  newtype Int32 = x: int | -0x8000_0000 <= x < 0x8000_0000

  /** Kotlin `Long`: a signed 64-bit integer (timestamps in milliseconds). */
  newtype Int64 = x: int | -0x8000_0000_0000_0000 <= x < 0x8000_0000_0000_0000

  /** A nullable value `T?`. */
  datatype Option<T> = None | Some(value: T)

  /** `kotlin.Result<T>`; the exception a failure carries is not modelled. */
  datatype Result<T> = Success(value: T) | Failure
}
