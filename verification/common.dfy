/** Values shared by every module: Java's nullable references, thrown exceptions and bytes. */
module Common {

  /** A Java reference that may be null: `None` stands for null. */
  datatype Option<+T> = None | Some(value: T)

  /** How a `void` Java call ends: normally, or by throwing `error`. */
  datatype Outcome<+E> = Pass | Fail(error: E)

  /** How a value-returning Java call ends: with `value`, or by throwing `error`. */
  datatype Result<+T, +E> = Success(value: T) | Failure(error: E)

  /** Java's signed 8-bit `byte`. */
  newtype JavaByte = x: int | -128 <= x < 128

  /** A Java `byte[]`. */
  type Bytes = seq<JavaByte>

  /** The unsigned reading of a byte (two's complement), as `new BigInteger(1, …)` and
      `String.format("%02X", …)` read a negative byte. */
  function Unsigned(b: JavaByte): (v: nat)
    ensures v < 256
    ensures (v - b as int) % 256 == 0
    ensures 0 <= b ==> v == b as int
  {
    if b < 0 then b as int + 256 else b as int
  }

  /** The byte whose unsigned reading is `v`, as Java stores it. */
  function FromUnsigned(v: nat): (b: JavaByte)
    requires v < 256
    ensures Unsigned(b) == v
  {
    if v < 128 then v as JavaByte else (v - 256) as JavaByte
  }
}
