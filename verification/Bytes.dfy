/** Byte strings and the fixed-width big-endian integers of the control wire format. */
module Bytes {
  type byte = x: int | 0 <= x < 256

  datatype Option<+T> = None | Some(value: T)

  function Pow256(k: nat): (p: nat)
    ensures p > 0
  {
    if k == 0 then 1 else 256 * Pow256(k - 1)
  }

  /** The number a big-endian byte string denotes. */
  function Integer(data: seq<byte>): (n: nat)
    ensures n < Pow256(|data|)
  {
    if data == [] then 0 else Integer(data[..|data| - 1]) * 256 + data[|data| - 1]
  }

  lemma {:induction false} IntegerOfNothing()
    ensures Integer([]) == 0
  {}

  lemma {:induction false} IntegerNext(data: seq<byte>, from: nat, i: nat)
    requires from + i < |data|
    ensures Integer(data[from..from + i + 1]) == Integer(data[from..from + i]) * 256 + data[from + i]
  {
    assert data[from..from + i + 1][..i] == data[from..from + i];
  }

  /** The `size` lowest base-256 digits of `n`, most significant first. */
  function BigEndian(n: nat, size: nat): (data: seq<byte>)
    ensures |data| == size
  {
    if size == 0 then [] else BigEndian(n / 256, size - 1) + [n % 256]
  }

  lemma {:induction false} IntegerOfBigEndian(n: nat, size: nat)
    requires n < Pow256(size)
    ensures Integer(BigEndian(n, size)) == n
  {
    if size > 0 {
      IntegerOfBigEndian(n / 256, size - 1);
      var data := BigEndian(n, size);
      assert data[..size - 1] == BigEndian(n / 256, size - 1);
    }
  }

  /** The ASCII bytes of a string literal (anything else would read as a question mark). */
  function Ascii(s: string): (data: seq<byte>)
    ensures |data| == |s|
  {
    seq(|s|, i requires 0 <= i < |s| => if s[i] as int < 128 then s[i] as int else 63)
  }

  function Min(a: int, b: int): int {
    if a <= b then a else b
  }
}
