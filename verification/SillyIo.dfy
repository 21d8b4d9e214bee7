/**
 * Reading a window of I/O memory at 8, 16 or 32 bits at a time, or with memcpy. A transfer
 * that is not aligned for its width is downgraded to a narrower one; all four modes are
 * proved to give the same bytes. The clipping of the range is done in unsigned 64-bit
 * arithmetic, as the code does it, with the exact condition under which it is right.
 */
module SillyIo {
  import opened Common
  import Arith
  import opened Bits

  const ISA_BASE: nat := 0xA0000
  const ISA_MAX: nat := 0x100000
  const WINDOW: nat := 0x60000
  const U64: nat := 0x1_0000_0000_0000_0000

  // ---- The range ----

  /** An unsigned long sum or difference. */
  function Wrap(n: int): (r: nat)
    ensures r < U64
  {
    n % U64
  }

  function Address(pos: int): nat { Wrap(ISA_BASE + pos) }

  /** The count after the range check. */
  function Clip(pos: int, count: nat): nat {
    if Wrap(Address(pos) + count) > ISA_MAX then Wrap(ISA_MAX - Address(pos)) else count
  }

  /**
   * The clipped range lies in the window exactly for positions 0 to WINDOW whose address plus
   * count does not wrap. In particular a position past the window is not caught: the test for
   * a negative count that should return 0 is on an unsigned value.
   */
  lemma RangeInWindow(pos: int, count: nat)
    requires -0x8000_0000_0000_0000 <= pos < 0x8000_0000_0000_0000 && count < U64
    ensures ISA_BASE <= Address(pos) && Address(pos) + Clip(pos, count) <= ISA_MAX
            <==> 0 <= pos <= WINDOW && ISA_BASE + pos + count < U64
    ensures 0 <= pos <= WINDOW && ISA_BASE + pos + count < U64 ==>
              Address(pos) == ISA_BASE + pos && Clip(pos, count) == Min(count, WINDOW - pos)
  {
  }

  /** The promised empty read past the window is never given: the count is then enormous. */
  lemma PastTheWindow(pos: int, count: nat)
    requires WINDOW < pos < 0x8000_0000_0000_0000 && count < U64
    ensures Clip(pos, count) > 0x7000_0000_0000_0000
  {
  }

  /**
   * What saves the driver is kmalloc: a count it could grant, anything below 2 GB, means that
   * the range is in the window exactly if the position is not negative.
   */
  lemma GrantedIsInside(pos: int, count: nat)
    requires -0x8000_0000_0000_0000 <= pos < 0x8000_0000_0000_0000 && count < U64
    requires Clip(pos, count) < 0x8000_0000
    ensures ISA_BASE <= Address(pos) && Address(pos) + Clip(pos, count) <= ISA_MAX <==> 0 <= pos
    ensures 0 <= pos ==> Clip(pos, count) == Min(count, WINDOW - pos)
  {
    RangeInWindow(pos, count);
  }

  // ---- Words ----

  /** A little-endian word. */
  function Word(bytes: seq<byte>): nat {
    if bytes == [] then 0 else bytes[0] + 256 * Word(bytes[1..])
  }

  function Bytes(word: nat, width: nat): (r: seq<byte>)
    ensures |r| == width
  {
    if width == 0 then [] else [word % 256] + Bytes(word / 256, width - 1)
  }

  /** A word loaded and stored is the bytes it was loaded from. */
  lemma {:induction false} LoadStore(bytes: seq<byte>)
    ensures Bytes(Word(bytes), |bytes|) == bytes
  {
    if bytes != [] {
      LoadStore(bytes[1..]);
      assert Word(bytes) / 256 == Word(bytes[1..]) && Word(bytes) % 256 == bytes[0];
    }
  }

  method IoRead(mem: array<byte>, at: nat, width: nat) returns (word: nat)
    requires at + width <= mem.Length
    ensures word == Word(mem[at..at + width])
  {
    word := 0;
    var k := width;
    while k > 0
      invariant 0 <= k <= width
      invariant word == Word(mem[at + k..at + width])
    {
      k := k - 1;
      assert mem[at + k..at + width][1..] == mem[at + k + 1..at + width];
      word := mem[at + k] + 256 * word;
    }
  }

  method Store(kbuf: array<byte>, at: nat, width: nat, word: nat)
    requires at + width <= kbuf.Length
    modifies kbuf
    ensures kbuf[..] == Splice(old(kbuf[..]), at, Bytes(word, width))
  {
    ghost var was := kbuf[..];
    var bytes := Bytes(word, width);
    forall k | 0 <= k < width { kbuf[at + k] := bytes[k]; }
    assert kbuf[..] == Splice(was, at, bytes);
  }

  /** One word, loaded and stored. */
  method MoveWord(mem: array<byte>, at: nat, kbuf: array<byte>, ptr: nat, width: nat)
    requires mem != kbuf && at + width <= mem.Length && ptr + width <= kbuf.Length
    modifies kbuf
    ensures kbuf[..] == Splice(old(kbuf[..]), ptr, mem[at..at + width])
  {
    ghost var bytes := mem[at..at + width];
    var word := IoRead(mem, at, width);
    LoadStore(bytes);
    Store(kbuf, ptr, width, word);
    assert mem[at..at + width] == bytes;
  }

  lemma SliceOfSlice(a: seq<byte>, i: nat, n: nat, j: nat, m: nat)
    requires j + m <= n && i + n <= |a|
    ensures a[i..i + n][j..j + m] == a[i + j..i + j + m]
  {
    var s, t := a[i..i + n][j..j + m], a[i + j..i + j + m];
    assert |s| == |t| && forall k | 0 <= k < m :: s[k] == t[k];
  }

  /** The next word of a carries the copy of a to b one word further. */
  lemma OneWordMore(a: seq<byte>, b: seq<byte>, ptr: nat, n: nat)
    requires ptr + n <= |a| <= |b|
    ensures Splice(Mix(a, b, ptr), ptr, a[ptr..ptr + n]) == Mix(a, b, ptr + n)
  {
  }

  /** The next word of whole. */
  method CopyWord(mem: array<byte>, add: nat, kbuf: array<byte>, ptr: nat, width: nat,
                  ghost whole: seq<byte>, ghost was: seq<byte>)
    requires mem != kbuf && ptr + width <= |whole| <= kbuf.Length && add + |whole| <= mem.Length
    requires mem[add..add + |whole|] == whole
    requires |was| == kbuf.Length && kbuf[..] == Mix(whole, was, ptr)
    modifies kbuf
    ensures kbuf[..] == Mix(whole, was, ptr + width)
  {
    SliceOfSlice(mem[..], add, |whole|, ptr, width);
    OneWordMore(whole, was, ptr, width);
    MoveWord(mem, add + ptr, kbuf, ptr, width);
  }

  lemma OneWordLess(left: nat, width: nat)
    requires width > 0
    ensures left >= width ==> (left - width) % width == left % width
    ensures left < width ==> left % width == left
  {
    if left >= width {
      var q, r := left / width, left % width;
      Arith.Distribute(q, 1, width);
      Arith.DivModUnique(left - width, width, q - 1, r);
    } else {
      Arith.DivModUnique(left, width, 0, left);
    }
  }

  /**
   * The loop of one width: as many whole words as fit are copied byte for byte, and a
   * remainder shorter than a word is left out.
   */
  method CopyWords(mem: array<byte>, add: nat, kbuf: array<byte>, count: nat, width: nat)
    requires mem != kbuf && width > 0 && add + count <= mem.Length && count == kbuf.Length
    modifies kbuf
    ensures kbuf[..] == Mix(mem[add..add + count], old(kbuf[..]), count - count % width)
  {
    ghost var was, whole, rest := kbuf[..], mem[add..add + count], count % width;
    var ptr: nat, left: nat := 0, count;
    while left >= width
      invariant ptr + left == count && left % width == rest
      invariant kbuf[..] == Mix(whole, was, ptr)
    {
      CopyWord(mem, add, kbuf, ptr, width, whole, was);
      OneWordLess(left, width);
      ptr := ptr + width;
      left := left - width;
    }
    OneWordLess(left, width);
  }

  // ---- The read ----

  datatype Mode = M8 | M16 | M32 | Memcpy

  /** The minor number is the mode; any other minor is invalid. */
  function ModeOf(minor: nat): (r: Option<Mode>)
    ensures r.None? <==> minor > 3
  {
    match minor
    case 0 => Some(M8)
    case 1 => Some(M16)
    case 2 => Some(M32)
    case 3 => Some(Memcpy)
    case _ => None
  }

  function Downgraded(mode: Mode, addr: nat, count: nat): (r: Mode)
    ensures r == M32 ==> addr % 4 == 0 && count % 4 == 0
    ensures r == M16 ==> addr % 2 == 0 && count % 2 == 0
    ensures mode == Memcpy <==> r == Memcpy
  {
    assert Pow2(1) == 2 && Pow2(2) == 4;
    AlignedTogether(addr, count, 1);
    AlignedTogether(addr, count, 2);
    var m := if mode == M32 && BitAnd(BitOr(addr, count), 3) != 0 then M16 else mode;
    if m == M16 && BitAnd(BitOr(addr, count), 1) != 0 then M8 else m
  }

  /** The switch on the mode: whichever it is, kbuf gets the bytes at add. */
  method Fill(mem: array<byte>, add: nat, addr: nat, kbuf: array<byte>, mode: Mode)
    requires mem != kbuf && add + kbuf.Length <= mem.Length
    modifies kbuf
    ensures kbuf[..] == mem[add..add + kbuf.Length]
  {
    var count := kbuf.Length;
    match Downgraded(mode, addr, count)
    case M32 => CopyWords(mem, add, kbuf, count, 4);
    case M16 => CopyWords(mem, add, kbuf, count, 2);
    case M8 => CopyWords(mem, add, kbuf, count, 1);
    case Memcpy => forall k | 0 <= k < count { kbuf[k] := mem[add + k]; }
  }

  /** copy_to_user of the first n bytes. */
  method CopyToUser(user: array<byte>, kbuf: array<byte>, n: nat)
    requires user != kbuf && n <= kbuf.Length && n <= user.Length
    modifies user
    ensures user[..] == Splice(old(user[..]), 0, kbuf[..n])
  {
    ghost var was := user[..];
    forall k | 0 <= k < n { user[k] := kbuf[k]; }
    assert user[..] == Splice(was, 0, kbuf[..n]);
  }

  /**
   * silly_read. mem is I/O memory with the window at index base, reaching beyond the window on
   * either side. The environment decides whether the kernel buffer is granted (never one of
   * 2 GB or more) and how many bytes land before the user's buffer faults. The bytes are those
   * at the position whatever the valid mode; a faulting copy moves the position back by EFAULT.
   */
  method Read(mem: array<byte>, base: nat, user: array<byte>, minor: nat, pos: int, count: nat,
              granted: bool, landed: nat)
    returns (ret: int, pos': int)
    requires mem != user && count < U64 && Min(landed, Clip(pos, count)) <= user.Length
    requires granted ==> Clip(pos, count) < 0x8000_0000
    requires granted ==> 0 <= base + pos && base + pos + Clip(pos, count) <= mem.Length
    modifies user
    ensures var n := Clip(pos, count);
            if !granted then ret == -ENOMEM && pos' == pos && user[..] == old(user[..])
            else if minor > 3 then ret == -EINVAL && pos' == pos && user[..] == old(user[..])
            else
              && ret == (if landed < n then -EFAULT else n)
              && pos' == pos + ret
              && user[..] == Splice(old(user[..]), 0, mem[base + pos..base + pos + Min(n, landed)])
  {
    var addr, n := Address(pos), Clip(pos, count);
    if !granted {
      return -ENOMEM, pos;
    }
    var kbuf := new byte[n](_ => 0);
    var mode := ModeOf(minor);
    if mode.None? {
      return -EINVAL, pos;
    }
    Fill(mem, base + pos, addr, kbuf, mode.value);
    ret := n;
    assert kbuf[..Min(n, landed)] == mem[base + pos..base + pos + Min(n, landed)];
    CopyToUser(user, kbuf, Min(n, landed));
    if ret > 0 && landed < n {
      ret := -EFAULT;
    }
    pos' := pos + ret;
  }
}
