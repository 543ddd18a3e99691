/** Constants, results and error values shared by every backend. */
module Common {

  const U32_MAX: nat := 0xFFFF_FFFF
  const U64_MAX: nat := 0xFFFF_FFFF_FFFF_FFFF
  const USIZE_MAX: nat := U64_MAX
  const I64_MAX: nat := 0x7FFF_FFFF_FFFF_FFFF
  const ISIZE_MAX: nat := I64_MAX

  /** The most one ring entry may ask for: the length field is 32 bits wide. */
  const MAX_IO_LEN: nat := U32_MAX

  newtype Byte = b: int | 0 <= b < 256

  datatype Option<+T> = None | Some(value: T)

  /** The errors the backends return; the texts attached to them are not modelled. */
  datatype Error =
    | Os(code: int)        // a negative completion result, or a failed system call
    | Submit(code: int)    // submit_and_wait failed
    | UnexpectedEof
    | WriteZero
    | SqFull
    | NoCqe
    | RingInit(code: int)
    | OffsetOverflow
    | SlicesOverlap
    | PositionOverflow
    | NegativePosition
    | InvalidInput
    | InvalidData
    | Unsupported

  datatype Result<+T> = Ok(value: T) | Err(error: Error)

  function Min(a: nat, b: nat): nat {
    if a < b then a else b
  }

  function Max(a: nat, b: nat): nat {
    if a < b then b else a
  }

  /** Rust's Option::get_or_insert on the pending error: the first error stays. */
  function GetOrInsert(pending: Option<Error>, error: Error): Option<Error> {
    if pending.Some? then pending else Some(error)
  }

  lemma MultipleLeavesNothing(q: nat, page: nat)
    requires page > 0
    ensures (q * page) % page == 0
  {
    var x := q * page;
    var d := q - x / page;
    assert x == (x / page) * page + x % page;
    assert d * page == x % page < page;
    ProductSign(d, page);
  }

  lemma ProductSign(d: int, n: nat)
    ensures d > 0 ==> d * n >= n
    ensures d < 0 ==> d * n + n <= 0
  {
    if d > 0 {
      assert d * n == (d - 1) * n + n;
    } else if d < 0 {
      assert d * n + n == -((-d - 1) * n);
    }
  }
}
