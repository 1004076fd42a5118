/** What several modules share: an optional value, and the integers of the machine. */
module Common {

  datatype Option<T> = None | Some(value: T)

  /** The range of a 32-bit `int`. */
  predicate Int32(x: int) { -0x8000_0000 <= x <= 0x7fff_ffff }

  /** C++ integer division, which truncates towards zero. */
  function TruncDiv(a: int, b: int): int
    requires b > 0
  {
    if a >= 0 then a / b else -((-a) / b)
  }

  /** C++ integer remainder; takes the sign of the dividend. */
  function TruncMod(a: int, b: int): int
    requires b > 0
  {
    if a >= 0 then a % b else -((-a) % b)
  }
}
