/**
 What several components share: options, bytes, 32-bit bounds and error numbers.
 */
module Common {

  datatype Option<T> = None | Some(value: T)

  type Byte = x: nat | x < 256

  const U32: nat := 0x1_0000_0000

  const EINTR: int := 4
  const EIO: int := 5
  const EAGAIN: int := 11
  const ENOMEM: int := 12
  const EACCES: int := 13
  const EBUSY: int := 16
  const EINVAL: int := 22
  const ETIMEDOUT: int := 110

  function Min(a: nat, b: nat): nat { if a > b then b else a }

  function Max(a: nat, b: nat): nat { if a > b then a else b }

  /** Copies bytes into a buffer; the rest of the buffer keeps its contents. */
  method Copy(dst: array<Byte>, at: nat, src: seq<Byte>)
    requires at + |src| <= dst.Length
    modifies dst
    ensures dst[..at] == old(dst[..at]) && dst[at + |src|..] == old(dst[at + |src|..])
    ensures dst[at..at + |src|] == src
  {
    var k := 0;
    while k < |src|
      invariant k <= |src|
      invariant dst[..at] == old(dst[..at]) && dst[at + |src|..] == old(dst[at + |src|..])
      invariant dst[at..at + k] == src[..k]
    {
      dst[at + k] := src[k];
      k := k + 1;
    }
  }
}
