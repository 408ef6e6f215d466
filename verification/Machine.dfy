/** Unsigned 64-bit arithmetic: values, and operations that wrap around. */
module Machine {
  const TWO_63: int := 0x8000_0000_0000_0000
  const TWO_64: int := 0x1_0000_0000_0000_0000

  type u64 = x: int | 0 <= x < TWO_64

  function AddWrap(x: u64, y: u64): (z: u64)
    ensures x + y < TWO_64 <==> z == x + y
  {
    (x + y) % TWO_64
  }

  function MulWrap(x: u64, y: u64): (z: u64)
    ensures x * y < TWO_64 ==> z == x * y
  {
    assert 0 <= x * y;
    (x * y) % TWO_64
  }

  datatype Option<+T> = None | Some(value: T)
}
