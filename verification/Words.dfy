// Machine integers and small value types shared by the other modules.
module Words {

  const MAX_INT64: int := 0x7FFF_FFFF_FFFF_FFFF
  const MIN_INT64: int := -0x8000_0000_0000_0000
  const MAX_UINT64: int := 0xFFFF_FFFF_FFFF_FFFF

  newtype int64 = x: int | -0x8000_0000_0000_0000 <= x <= 0x7FFF_FFFF_FFFF_FFFF
  newtype uint64 = x: int | 0 <= x <= 0xFFFF_FFFF_FFFF_FFFF

  datatype Option<+T> = None | Some(value: T)

  datatype Result<+T, +E> = Success(value: T) | Failure(error: E)

  // Go's `/` on signed integers truncates toward zero; Dafny's does not.
  function TruncDiv(a: int, b: int): (q: int)
    requires b > 0
    ensures 0 <= a ==> q == a / b && 0 <= q <= a
    ensures a <= 0 ==> a <= q <= 0
  {
    if a >= 0 then QuotientNotBigger(a, b); a / b else QuotientNotBigger(-a, b); -(-a / b)
  }

  lemma QuotientNotBigger(a: nat, b: int)
    requires b > 0
    ensures 0 <= a / b <= a
  {
    var q, c := a / b, b - 1;
    assert q >= 0 && q * c >= 0;
    assert b * q == q * c + q;
    assert a == b * q + a % b;
  }
}
