/** Vocabulary shared by the models: bytes, options, the kernel's error numbers. */
module Common {

  type byte = x: int | 0 <= x < 256

  /** A C int. */
  type cint = x: int | -0x8000_0000 <= x < 0x8000_0000

  datatype Option<+T> = None | Some(value: T)

  const EAGAIN: int := 11
  const ENOMEM: int := 12
  const EFAULT: int := 14
  const EBUSY: int := 16
  const ENODEV: int := 19
  const EINVAL: int := 22
  const ENOTTY: int := 25
  const EPIPE: int := 32
  const EIO: int := 5
  const ERESTARTSYS: int := 512
  const EIOCBQUEUED: int := 529

  function Min(a: int, b: int): int { if a <= b then a else b }

  function Max(a: int, b: int): int { if a <= b then b else a }

  /** s with the bytes from position at on replaced by data. */
  function Splice(s: seq<byte>, at: nat, data: seq<byte>): (r: seq<byte>)
    requires at + |data| <= |s|
    ensures |r| == |s|
    ensures forall k | 0 <= k < |s| :: r[k] == if at <= k < at + |data| then data[k - at] else s[k]
  {
    s[..at] + data + s[at + |data|..]
  }

  /** The first m bytes of one buffer, then the other. */
  function Mix(a: seq<byte>, b: seq<byte>, m: nat): (r: seq<byte>)
    requires m <= |a| && m <= |b|
    ensures |r| == |b| && forall k | 0 <= k < |b| :: r[k] == if k < m then a[k] else b[k]
  {
    a[..m] + b[m..]
  }

  method Memcpy(dst: array<byte>, to: nat, src: array<byte>, from: nat, n: nat)
    requires dst != src && to + n <= dst.Length && from + n <= src.Length
    modifies dst
    ensures dst[..] == old(dst[..])[..to] + src[from..from + n] + old(dst[..])[to + n..]
  {
    forall k | 0 <= k < n { dst[to + k] := src[from + k]; }
  }

  lemma MixMore(a: seq<byte>, b: seq<byte>, m: nat, nb: nat)
    requires m + nb <= |a| && m + nb <= |b|
    ensures Mix(a, b, m)[..m] + a[m..m + nb] + Mix(a, b, m)[m + nb..] == Mix(a, b, m + nb)
  {
  }
}
