/** The integer/byte codecs of `jpake/__init__.py`: `_from_bytes` reads a
    big-endian unsigned integer, `_to_bytes` writes a non-negative integer in
    `bit_length() // 8 + 1` big-endian bytes. */
module Bytes {
  import opened Results
  import opened Errors
  import opened ModArith

  type byte = x: int | 0 <= x < 256
  type Bytes = seq<byte>

  /** Python's `int.bit_length()` on a non-negative number: the number of
      binary digits, 0 for 0. */
  function BitLength(n: nat): (r: nat)
    ensures r == 0 <==> n == 0
    ensures n < Pow(2, r)
    ensures r > 0 ==> Pow(2, r - 1) <= n
  {
    if n == 0 then 0 else 1 + BitLength(n / 2)
  }

  /** The number of bytes `_to_bytes` writes for n. */
  function ByteLength(n: nat): nat
  {
    BitLength(n) / 8 + 1
  }

  /** The low `len` bytes of n, most significant first. */
  function ToBigEndian(n: nat, len: nat): (r: Bytes)
    ensures |r| == len
  {
    if len == 0 then [] else ToBigEndian(n / 256, len - 1) + [n % 256]
  }

  /** `_from_bytes`: `int.from_bytes(bs, 'big')`. */
  function FromBytes(bs: Bytes): (r: nat)
    ensures r < Pow(256, |bs|)
  {
    if |bs| == 0 then 0
    else
      var hi := FromBytes(bs[..|bs| - 1]);
      assert hi * 256 + bs[|bs| - 1] < Pow(256, |bs| - 1) * 256 by {
        assert hi <= Pow(256, |bs| - 1) - 1;
      }
      hi * 256 + bs[|bs| - 1]
  }

  /** Python's `n.to_bytes(len, 'big')`: `OverflowError` unless n is
      non-negative and fits in `len` bytes. */
  function IntToBytes(n: int, len: nat): (r: Result<Bytes, Error>)
    ensures r.Ok? <==> 0 <= n < Pow(256, len)
    ensures r.Err? ==> r.error == Overflow
    ensures r.Ok? ==> |r.value| == len && FromBytes(r.value) == n
  {
    if n < 0 || n >= Pow(256, len) then Err(Overflow)
    else
      FromToBigEndian(n, len);
      Ok(ToBigEndian(n, len))
  }

  /** `_to_bytes`: `num.to_bytes(num.bit_length() // 8 + 1, 'big')`. A negative
      number is rejected by `to_bytes` with `OverflowError`; a non-negative one
      always fits, and reads back as itself. */
  function ToBytes(n: int): (r: Result<Bytes, Error>)
    ensures r.Err? <==> n < 0
    ensures r.Err? ==> r.error == Overflow
    ensures r.Ok? ==> |r.value| == ByteLength(n) >= 1
    ensures r.Ok? ==> FromBytes(r.value) == n
  {
    if n < 0 then Err(Overflow)
    else
      ByteLengthRoom(n);
      IntToBytes(n, ByteLength(n))
  }

  /** Reading back a big-endian encoding wide enough for n gives n. */
  lemma {:induction false} FromToBigEndian(n: nat, len: nat)
    requires n < Pow(256, len)
    ensures FromBytes(ToBigEndian(n, len)) == n
  {
    if len > 0 {
      var bs := ToBigEndian(n, len);
      assert bs[..len - 1] == ToBigEndian(n / 256, len - 1);
      assert n / 256 < Pow(256, len - 1);
      FromToBigEndian(n / 256, len - 1);
    }
  }

  /** `bit_length() // 8 + 1` bytes always have room for n. */
  lemma ByteLengthRoom(n: nat)
    ensures n < Pow(256, ByteLength(n))
  {
    var bl := BitLength(n);
    Pow256(ByteLength(n));
    PowMonotone(2, bl, 8 * ByteLength(n));
  }

  /** A larger number never needs fewer bits. */
  lemma {:induction false} BitLengthMonotone(n: nat, m: nat)
    requires n <= m
    ensures BitLength(n) <= BitLength(m)
  {
    if n > 0 {
      BitLengthMonotone(n / 2, m / 2);
    }
  }

  lemma ByteLengthMonotone(n: nat, m: nat)
    requires n <= m
    ensures ByteLength(n) <= ByteLength(m)
  {
    BitLengthMonotone(n, m);
  }
}
