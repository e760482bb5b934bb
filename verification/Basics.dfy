/** Result and byte types shared by every module. */
module Basics {

  datatype Option<+T> = None | Some(value: T)

  /** The outcome of a fallible operation, usable with `:-`. */
  datatype Result<+T, +E> = Ok(value: T) | Err(error: E) {
    predicate IsFailure() {
      Err?
    }

    function PropagateFailure<U>(): Result<U, E>
      requires Err?
    {
      Err(error)
    }

    function Extract(): T
      requires Ok?
    {
      value
    }
  }

  type byte = b: int | 0 <= b < 256
  type Bytes = seq<byte>

  const U32: int := 0x1_0000_0000
  const U64: int := 0x1_0000_0000_0000_0000

  predicate IsU32(n: int) {
    0 <= n < U32
  }

  predicate IsU64(n: int) {
    0 <= n < U64
  }

  predicate IsI32(n: int) {
    -0x8000_0000 <= n < 0x8000_0000
  }

  predicate IsI64(n: int) {
    -0x8000_0000_0000_0000 <= n < 0x8000_0000_0000_0000
  }

  /** `n as u64` of a signed integer: two's complement, as Rust casts it. */
  function AsU64(n: int): (r: nat)
    ensures IsU64(r)
  {
    n % U64
  }

  function AsU32(n: int): (r: nat)
    ensures IsU32(r)
  {
    n % U32
  }

  /** `n as i64` of an unsigned value. */
  function AsI64(n: int): (r: int)
    ensures IsI64(r)
  {
    var m := n % U64;
    if m < 0x8000_0000_0000_0000 then m else m - U64
  }

  /** `n as u32 as i32`, which is also `n as i64 as i32`. */
  function AsI32(n: int): (r: int)
    ensures IsI32(r)
  {
    var m := n % U32;
    if m < 0x8000_0000 then m else m - U32
  }

  /** Sign extension to 64 bits is undone by truncation to 32 and to 64 bits. */
  lemma SignExtensionRoundTrip(n: int)
    ensures IsI32(n) ==> AsI32(AsU64(n)) == n
    ensures IsI64(n) ==> AsI64(AsU64(n)) == n
    ensures IsI32(n) ==> AsI32(AsU32(n)) == n
    ensures IsU32(n) ==> AsU32(n) == n
    ensures IsU64(n) ==> AsU64(n) == n
  {
    if IsI32(n) && n < 0 {
      assert AsU64(n) == n + U64;
      assert (n + U64) % U32 == n + U32 by {
        assert n + U64 == (n + U32) + 0xFFFF_FFFF * U32;
      }
    }
  }

  lemma Associative<T>(a: seq<T>, b: seq<T>, c: seq<T>)
    ensures (a + b) + c == a + (b + c)
  {
  }
}
