/** Result types and a few notions that several modules of this project share. */
module Basics {

  datatype Option<+T> = None | Some(value: T)

  datatype Result<+T, +E> = Success(value: T) | Failure(error: E)

  /** Times are in microseconds. */
  const SECOND := 1_000_000

  /** The code points that str.strip removes. */
  predicate IsSpace(codePoint: int) {
    9 <= codePoint <= 13 || 28 <= codePoint <= 32 || codePoint == 0x85 || codePoint == 0xA0 || codePoint == 0x1680
    || 0x2000 <= codePoint <= 0x200A || codePoint == 0x2028 || codePoint == 0x2029 || codePoint == 0x202F
    || codePoint == 0x205F || codePoint == 0x3000
  }
}
