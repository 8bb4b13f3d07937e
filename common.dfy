/** Values shared by every part of the model. */
module Common {

  /** An optional value; `None` stands for Kotlin's `null`. */
  datatype Option<+T> = None | Some(value: T)

  /** A JVM `Byte`: a signed 8-bit integer, as `MessageDigest` and `FileInputStream` deliver them. */
  newtype int8 = x: int | -128 <= x < 128

  /** The unsigned reading of a byte, `b.toInt() and 0xff` in Kotlin. */
  function Unsigned(b: int8): (u: int)
    ensures 0 <= u < 256
    ensures u % 256 == (b as int) % 256
  {
    if b < 0 then b as int + 256 else b as int
  }

  /** The byte whose unsigned reading is `u`, the inverse of `Unsigned`. */
  function Signed(u: int): (b: int8)
    requires 0 <= u < 256
    ensures Unsigned(b) == u
  {
    if u >= 128 then (u - 256) as int8 else u as int8
  }

  /** `s` begins with `prefix`. */
  predicate StartsWith(s: string, prefix: string) {
    |prefix| <= |s| && s[..|prefix|] == prefix
  }
}
