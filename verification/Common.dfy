/** Go's `value, ok` and `value, error` results, and its 64-bit integers. */
module Common {
  datatype Option<+T> = None | Some(value: T)

  datatype Result<+T> = Ok(value: T) | Err(message: string)

  type Int64 = n: int | -0x8000_0000_0000_0000 <= n < 0x8000_0000_0000_0000

  /** The 64-bit number a sum or conversion wraps around to. */
  function Wrap64(n: int): Int64 {
    var m := n % 0x1_0000_0000_0000_0000;
    if m < 0x8000_0000_0000_0000 then m else m - 0x1_0000_0000_0000_0000
  }

  function Plus64(a: Int64, b: Int64): Int64 { Wrap64(a as int + b as int) }

  lemma WrapSum(a: int, b: int)
    ensures Wrap64(Wrap64(a) + b) == Wrap64(a + b)
    ensures -0x8000_0000_0000_0000 <= a < 0x8000_0000_0000_0000 <==> Wrap64(a) == a
  {
  }
}
