/** Bytes, digests, fixed-width integers, and the failure types the other modules share. */
module Primitives {
  type byte = b: int | 0 <= b < 0x100
  type Bytes = seq<byte>
  type Digest = d: Bytes | |d| == 32 witness seq(32, _ => 0)
  type Pubkey = Digest

  /** The hash is an arbitrary function: nothing is assumed of it, in particular not injectivity. */
  type Hasher = Bytes -> Digest

  const U64_MAX: int := 0xFFFF_FFFF_FFFF_FFFF
  const I64_MAX: int := 0x7FFF_FFFF_FFFF_FFFF
  const I64_MIN: int := -0x8000_0000_0000_0000
  const TWO_64: int := 0x1_0000_0000_0000_0000
  const TWO_128: int := 0x1_0000_0000_0000_0000_0000_0000_0000_0000
  type u64 = n: int | 0 <= n <= U64_MAX
  type i64 = n: int | I64_MIN <= n <= I64_MAX

  datatype Option<+T> = None | Some(value: T)

  datatype Result<+T, +E> = Ok(value: T) | Err(error: E) {
    predicate IsFailure() { Err? }

    function PropagateFailure<U>(): Result<U, E>
      requires Err?
    {
      Err(error)
    }

    function Extract(): T
      requires Ok?
    {
      value
    }
  }

  /** A check that passes or fails with an error; usable as `:- Need(...)`. */
  datatype Check<+E> = Pass | Fail(reason: E) {
    predicate IsFailure() { Fail? }

    function PropagateFailure<U>(): Result<U, E>
      requires Fail?
    {
      Err(reason)
    }
  }

  function Need<E>(condition: bool, error: E): Check<E> {
    if condition then Pass else Fail(error)
  }

  predicate Distinct<T(==)>(s: seq<T>) {
    forall i, j :: 0 <= i < j < |s| ==> s[i] != s[j]
  }

  // ----- little-endian encoding -----

  function ToLeBytes(n: nat, width: nat): (bs: Bytes)
    ensures |bs| == width
  {
    if width == 0 then [] else [n % 0x100] + ToLeBytes(n / 0x100, width - 1)
  }

  function FromLeBytes(bs: Bytes): nat {
    if bs == [] then 0 else bs[0] + 0x100 * FromLeBytes(bs[1..])
  }

  function Pow256(width: nat): nat {
    if width == 0 then 1 else 0x100 * Pow256(width - 1)
  }

  lemma {:induction false} LeRoundTrip(n: nat, width: nat)
    requires n < Pow256(width)
    ensures FromLeBytes(ToLeBytes(n, width)) == n
  {
    if width > 0 {
      LeRoundTrip(n / 0x100, width - 1);
      assert ToLeBytes(n, width)[1..] == ToLeBytes(n / 0x100, width - 1);
    }
  }

  /** `u64::to_le_bytes`. */
  function U64LeBytes(n: u64): (bs: Bytes)
    ensures |bs| == 8
  {
    ToLeBytes(n, 8)
  }

  lemma U64LeBytesInjective(n: u64, m: u64)
    requires U64LeBytes(n) == U64LeBytes(m)
    ensures n == m
  {
    assert Pow256(8) == TWO_64 by {
      assert Pow256(4) == 0x1_0000_0000;
    }
    LeRoundTrip(n, 8);
    LeRoundTrip(m, 8);
  }

  // ----- lexicographic order, the order Rust gives byte arrays -----

  predicate LexLeq(a: Bytes, b: Bytes) {
    a == [] || (b != [] && (a[0] < b[0] || (a[0] == b[0] && LexLeq(a[1..], b[1..]))))
  }

  lemma {:induction false} LexLeqTotalOrder(a: Bytes, b: Bytes)
    ensures LexLeq(a, b) || LexLeq(b, a)
    ensures LexLeq(a, b) && LexLeq(b, a) ==> a == b
  {
    if a != [] && b != [] && a[0] == b[0] {
      LexLeqTotalOrder(a[1..], b[1..]);
      assert a == [a[0]] + a[1..] && b == [b[0]] + b[1..];
    }
  }
}
