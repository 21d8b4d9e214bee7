/**
 * What a scullc device is to its clients: a byte file with holes. Storage is a map from
 * quantum number (offset / quantum) to the bytes of that quantum; neither list items nor
 * quantum sets appear here. The linked structure of Scullc.dfy is proved to behave like
 * this file, and the promises made to clients are proved about it.
 */
module SparseFile {
  import opened Arith
  import opened Common

  datatype File = File(size: nat, blocks: map<nat, seq<byte>>)

  ghost predicate WellFormed(f: File, quantum: nat) {
    && quantum > 0
    && forall n | n in f.blocks :: |f.blocks[n]| == quantum
  }

  /** The byte a client finds at an offset; a hole counts as 0. */
  ghost function View(f: File, quantum: nat, off: nat): byte
    requires WellFormed(f, quantum)
  {
    Cell(f, quantum, off / quantum, off % quantum)
  }

  /** The byte at an offset of a quantum. */
  ghost function Cell(f: File, quantum: nat, n: nat, at: nat): byte
    requires WellFormed(f, quantum) && at < quantum
  {
    if n in f.blocks then f.blocks[n][at] else 0
  }

  /**
   * The copy between the device and the caller's buffer. A user-space copy moves `landed`
   * bytes and faults when that is short. The aio path calls memcpy and tests the pointer it
   * returns, which is never null: every byte moves and the call is still taken as a fault.
   */
  datatype Copy = UserCopy(landed: nat) | Memcpy

  function Landed(c: Copy, count: nat): nat {
    match c
    case UserCopy(landed) => Min(landed, count)
    case Memcpy => count
  }

  predicate Faults(c: Copy, count: nat) {
    match c
    case UserCopy(landed) => landed < count
    case Memcpy => true
  }

  datatype Io = Io(file: File, pos: nat, ret: int, data: seq<byte>)

  /** The bytes of quantum n, zeros for a hole. */
  function BlockAt(blocks: map<nat, seq<byte>>, n: nat, quantum: nat): (b: seq<byte>)
    requires n in blocks ==> |blocks[n]| == quantum
    ensures |b| == quantum
  {
    if n in blocks then blocks[n] else seq(quantum, _ => 0)
  }

  /** The blocks with quantum n allocated. */
  function Grown(blocks: map<nat, seq<byte>>, n: nat, quantum: nat): map<nat, seq<byte>>
    requires n in blocks ==> |blocks[n]| == quantum
  {
    if n in blocks then blocks else blocks[n := BlockAt(blocks, n, quantum)]
  }

  lemma GrownUpdate(blocks: map<nat, seq<byte>>, n: nat, quantum: nat, bytes: seq<byte>)
    requires n in blocks ==> |blocks[n]| == quantum
    ensures n in Grown(blocks, n, quantum) && Grown(blocks, n, quantum)[n] == BlockAt(blocks, n, quantum)
    ensures Grown(blocks, n, quantum)[n := bytes] == blocks[n := bytes]
  {
  }

  /** Bytes put into quantum n, which is zeroed storage if it was a hole. */
  function Put(f: File, quantum: nat, n: nat, at: nat, data: seq<byte>): (g: File)
    requires WellFormed(f, quantum) && at + |data| <= quantum
    ensures WellFormed(g, quantum)
  {
    f.(blocks := f.blocks[n := Splice(BlockAt(f.blocks, n, quantum), at, data)])
  }

  lemma PutCell(f: File, quantum: nat, n: nat, at: nat, data: seq<byte>, m: nat, k: nat)
    requires WellFormed(f, quantum) && at + |data| <= quantum && k < quantum
    ensures Cell(Put(f, quantum, n, at, data), quantum, m, k)
            == if m == n && at <= k < at + |data| then data[k - at] else Cell(f, quantum, m, k)
  {
  }

  /** One write call: at most up to the end of the quantum that holds the position. */
  function Write(f: File, quantum: nat, pos: nat, buf: seq<byte>, granted: bool, copy: Copy): Io
    requires WellFormed(f, quantum)
  {
    WriteIn(f, quantum, pos / quantum, pos % quantum, pos, buf, granted, copy)
  }

  /** The same once the position has been split into quantum n and offset at. */
  function WriteIn(f: File, quantum: nat, n: nat, at: nat, pos: nat, buf: seq<byte>, granted: bool, copy: Copy): Io
    requires WellFormed(f, quantum) && at < quantum
  {
    if n !in f.blocks && !granted then Io(f, pos, -ENOMEM, [])
    else
      var count := Min(|buf|, quantum - at);
      var stored := Put(f, quantum, n, at, buf[..Landed(copy, count)]);
      if Faults(copy, count) then Io(stored, pos, -EFAULT, [])
      else Io(stored.(size := Max(f.size, pos + count)), pos + count, count, [])
  }

  /** One read call: nothing past the end or at a hole, else up to the end of the quantum. */
  function Read(f: File, quantum: nat, pos: nat, count: nat, copy: Copy): Io
    requires WellFormed(f, quantum)
  {
    ReadIn(f, quantum, pos / quantum, pos % quantum, pos, count, copy)
  }

  function ReadIn(f: File, quantum: nat, n: nat, at: nat, pos: nat, count: nat, copy: Copy): Io
    requires WellFormed(f, quantum) && at < quantum
  {
    if pos > f.size || n !in f.blocks then Io(f, pos, 0, [])
    else
      var take := Min(Min(count, f.size - pos), quantum - at);
      var data := f.blocks[n][at..at + take];
      if Faults(copy, take) then Io(f, pos, -EFAULT, data[..Landed(copy, take)])
      else Io(f, pos + take, take, data)
  }

  /** The driver cuts the count to the size before it looks for the quantum. */
  lemma CutFirst(f: File, quantum: nat, n: nat, at: nat, pos: nat, cut: nat, count: nat, copy: Copy)
    requires WellFormed(f, quantum) && n == pos / quantum && at == pos % quantum
    requires pos <= f.size && cut == Min(count, f.size - pos)
    ensures ReadIn(f, quantum, n, at, pos, cut, copy) == Read(f, quantum, pos, count, copy)
  {
  }

  // ---------------------------------------------------------------- the index arithmetic

  /**
   * The triple (list item, slot in the item's quantum set, offset in the quantum) that
   * scullc computes is one-to-one with the position, and its last two levels collapse to
   * the quantum number and offset used by this file.
   */
  lemma IndexBijection(pos: nat, quantum: nat, qset: nat, item: nat, slot: nat, off: nat)
    requires quantum > 0 && qset > 0 && slot < qset && off < quantum
    ensures quantum * qset > 0
    ensures var rest := pos % (quantum * qset);
            && pos / (quantum * qset) == item && rest / quantum == slot && rest % quantum == off
            <==> pos == (item * qset + slot) * quantum + off
  {
    MulAtLeast(qset, quantum);
    DigitsUnique(pos, quantum, qset, item, slot, off);
  }

  /** The triple computed from a position is always in range, and so names its quantum. */
  lemma IndexInRange(pos: nat, quantum: nat, qset: nat)
    requires quantum > 0 && qset > 0
    ensures quantum * qset > 0
    ensures var itemsize := quantum * qset;
            var rest := pos % itemsize;
            && rest / quantum < qset
            && pos / quantum == (pos / itemsize) * qset + rest / quantum
            && pos % quantum == rest % quantum
  {
    MulAtLeast(qset, quantum);
    TwoLevels(pos, quantum, qset, quantum * qset);
  }

  // ---------------------------------------------------------------- one call

  /** The bytes of buf that a write call moves into the device. */
  function Moved(f: File, quantum: nat, pos: nat, buf: seq<byte>, granted: bool, copy: Copy): (r: nat)
    requires WellFormed(f, quantum)
    ensures r <= |buf| && pos % quantum + r <= quantum
  {
    MovedIn(f, quantum, pos / quantum, pos % quantum, buf, granted, copy)
  }

  function MovedIn(f: File, quantum: nat, n: nat, at: nat, buf: seq<byte>, granted: bool, copy: Copy): (r: nat)
    requires WellFormed(f, quantum) && at < quantum
    ensures r <= |buf| && at + r <= quantum
  {
    if n !in f.blocks && !granted then 0 else Landed(copy, Min(|buf|, quantum - at))
  }

  lemma WriteInCell(f: File, quantum: nat, n: nat, at: nat, pos: nat, buf: seq<byte>, granted: bool, copy: Copy,
                    m: nat, k: nat)
    requires WellFormed(f, quantum) && at < quantum && k < quantum
    ensures var g := WriteIn(f, quantum, n, at, pos, buf, granted, copy).file;
            var moved := MovedIn(f, quantum, n, at, buf, granted, copy);
            && WellFormed(g, quantum)
            && Cell(g, quantum, m, k) == if m == n && at <= k < at + moved then buf[k - at] else Cell(f, quantum, m, k)
  {
    if n in f.blocks || granted {
      PutCell(f, quantum, n, at, buf[..MovedIn(f, quantum, n, at, buf, granted, copy)], m, k);
    }
  }

  /** A write call changes exactly the bytes that moved. */
  lemma WriteView(f: File, quantum: nat, pos: nat, buf: seq<byte>, granted: bool, copy: Copy, off: nat)
    requires WellFormed(f, quantum)
    ensures var io := Write(f, quantum, pos, buf, granted, copy);
            && WellFormed(io.file, quantum)
            && View(io.file, quantum, off)
               == (if pos <= off < pos + Moved(f, quantum, pos, buf, granted, copy)
                   then buf[off - pos] else View(f, quantum, off))
  {
    var moved := Moved(f, quantum, pos, buf, granted, copy);
    WriteInCell(f, quantum, pos / quantum, pos % quantum, pos, buf, granted, copy, off / quantum, off % quantum);
    if pos <= off < pos + moved {
      WithinBlock(pos, off - pos, quantum);
    } else if off / quantum == pos / quantum {
      SameBlock(off, pos, quantum);
    }
  }

  lemma WriteInExtent(f: File, quantum: nat, n: nat, at: nat, pos: nat, buf: seq<byte>, granted: bool, copy: Copy)
    requires WellFormed(f, quantum) && at < quantum
    ensures var io := WriteIn(f, quantum, n, at, pos, buf, granted, copy);
            && (io.ret >= 0 ==> io.ret == MovedIn(f, quantum, n, at, buf, granted, copy) && io.pos == pos + io.ret
                                && io.file.size == Max(f.size, io.pos))
            && (io.ret < 0 ==> io.file.size == f.size && io.pos == pos)
            && io.file.blocks.Keys == f.blocks.Keys + (if io.ret == -ENOMEM then {} else {n})
  {
  }

  /** How many bytes those are: with storage, as many as land and the rest of the quantum holds. */
  lemma MovedIs(f: File, quantum: nat, pos: nat, buf: seq<byte>, granted: bool, copy: Copy)
    requires WellFormed(f, quantum)
    ensures var stored := pos / quantum in f.blocks || granted;
            var room := quantum - pos % quantum;
            Moved(f, quantum, pos, buf, granted, copy)
            == if !stored then 0
               else if copy.UserCopy? && copy.landed < Min(|buf|, room) then copy.landed
               else Min(|buf|, room)
  {
  }

  /** The only block that can appear is the target's, and the size moves only on success. */
  lemma WriteExtent(f: File, quantum: nat, pos: nat, buf: seq<byte>, granted: bool, copy: Copy)
    requires WellFormed(f, quantum)
    ensures var io := Write(f, quantum, pos, buf, granted, copy);
            && (io.ret >= 0 ==> io.ret == Moved(f, quantum, pos, buf, granted, copy) && io.pos == pos + io.ret
                                && io.file.size == Max(f.size, io.pos))
            && (io.ret < 0 ==> io.file.size == f.size && io.pos == pos)
            && io.file.blocks.Keys == f.blocks.Keys + (if io.ret == -ENOMEM then {} else {pos / quantum})
  {
    WriteInExtent(f, quantum, pos / quantum, pos % quantum, pos, buf, granted, copy);
  }

  /** What a read call returns: the view's bytes, as many as size, quantum and hole allow. */
  lemma ReadReturnsView(f: File, quantum: nat, pos: nat, count: nat, copy: Copy)
    requires WellFormed(f, quantum)
    ensures var io := Read(f, quantum, pos, count, copy);
            var n := if pos > f.size || pos / quantum !in f.blocks then 0
                     else Min(Min(count, f.size - pos), quantum - pos % quantum);
            && io.file == f
            && io.ret in {n, -EFAULT}
            && (io.ret == -EFAULT <==> pos <= f.size && pos / quantum in f.blocks
                                       && (copy.UserCopy? ==> copy.landed < n))
            && (io.ret == -EFAULT ==> |io.data| == if copy.UserCopy? then copy.landed else n)
            && (io.ret >= 0 ==> io.ret == n == |io.data| && io.pos == pos + n)
            && (io.ret < 0 ==> io.pos == pos && pos <= f.size && pos / quantum in f.blocks && Faults(copy, n))
            && forall k | 0 <= k < |io.data| :: io.data[k] == View(f, quantum, pos + k)
  {
    var io := Read(f, quantum, pos, count, copy);
    forall k | 0 <= k < |io.data| ensures io.data[k] == View(f, quantum, pos + k) {
      WithinBlock(pos, k, quantum);
    }
  }

  /** When a write call succeeds: exactly with storage for its block and a copy that can succeed. */
  lemma WriteSucceedsIff(f: File, quantum: nat, pos: nat, buf: seq<byte>, granted: bool, copy: Copy)
    requires WellFormed(f, quantum)
    ensures Write(f, quantum, pos, buf, granted, copy).ret >= 0
            <==> (pos / quantum in f.blocks || granted)
                 && copy.UserCopy? && copy.landed >= Min(|buf|, quantum - pos % quantum)
  {
  }

  /** Which error a failing write returns: no storage for the block is told before a faulting copy. */
  lemma WriteErrors(f: File, quantum: nat, pos: nat, buf: seq<byte>, granted: bool, copy: Copy)
    requires WellFormed(f, quantum)
    ensures var ret := Write(f, quantum, pos, buf, granted, copy).ret;
            && (ret == -ENOMEM <==> pos / quantum !in f.blocks && !granted)
            && (ret < 0 ==> ret in {-ENOMEM, -EFAULT})
  {
  }

  /**
   * The driver registers only the aio entry points, whose memcpy test is inverted. As
   * written they never succeed: a write never returns a count and never moves the size,
   * and a read never delivers a positive count.
   */
  lemma MemcpyNeverSucceeds(f: File, quantum: nat, pos: nat, buf: seq<byte>, count: nat, granted: bool)
    requires WellFormed(f, quantum)
    ensures var w := Write(f, quantum, pos, buf, granted, Memcpy);
            w.ret < 0 && w.pos == pos && w.file.size == f.size
    ensures var r := Read(f, quantum, pos, count, Memcpy);
            && r.ret <= 0 && r.pos == pos
            && (r.ret == 0 <==> pos > f.size || pos / quantum !in f.blocks)
  {
  }

  // ---------------------------------------------------------------- every run

  /** The calls clients make; each names the open file whose position it uses. */
  datatype Op =
    | Seek(h: nat, off: int, whence: int)
    | DoRead(h: nat, count: nat, copy: Copy)
    | DoWrite(h: nat, buf: seq<byte>, granted: bool, copy: Copy)
    | Trim(qset: int)

  /** A write as its caller saw it: where, what landed, and whether it returned a count. */
  datatype Entry = Entry(pos: nat, data: seq<byte>, counted: bool)

  datatype Sys = Sys(file: File, pos: map<nat, nat>, log: seq<Entry>)

  function Pos(s: Sys, h: nat): nat { if h in s.pos then s.pos[h] else 0 }

  /** llseek: the new position, or -EINVAL when it would be negative or whence is unknown. */
  function SeekTo(size: nat, pos: nat, off: int, whence: int): int {
    var target := if whence == 0 then off else if whence == 1 then pos + off else size + off;
    if whence !in {0, 1, 2} || target < 0 then -EINVAL else target
  }

  /** The log after a write call: a call that got no storage leaves no entry. */
  function Logged(f: File, log: seq<Entry>, quantum: nat, p: nat, buf: seq<byte>, granted: bool, copy: Copy): seq<Entry>
    requires WellFormed(f, quantum)
  {
    var ret := Write(f, quantum, p, buf, granted, copy).ret;
    if ret == -ENOMEM then log
    else log + [Entry(p, buf[..Moved(f, quantum, p, buf, granted, copy)], ret >= 0)]
  }

  /** The three whences name one move: from the position, or from the end, is from 0 to the sum. */
  lemma SeekIsAbsolute(size: nat, pos: nat, any: nat, off: int)
    ensures SeekTo(size, pos, off, 1) == SeekTo(size, any, pos + off, 0)
    ensures SeekTo(size, pos, off, 2) == SeekTo(size, any, size + off, 0)
    ensures off >= 0 ==> SeekTo(size, pos, off, 0) == off
  {
  }

  /** A relative seek by 0 tells the position, and one from the end the size. */
  lemma SeekTells(size: nat, pos: nat)
    ensures SeekTo(size, pos, 0, 1) == pos && SeekTo(size, pos, 0, 2) == size
  {
  }

  /** Accepted relative seeks add up. */
  lemma SeeksCompose(size: nat, pos: nat, a: int, b: int)
    requires SeekTo(size, pos, a, 1) >= 0
    ensures SeekTo(size, SeekTo(size, pos, a, 1), b, 1) == SeekTo(size, pos, a + b, 1)
  {
  }

  /** A seek is refused exactly to before the start, or with a whence that is none of the three. */
  lemma SeekRefusedIff(size: nat, pos: nat, off: int, whence: int)
    ensures SeekTo(size, pos, off, whence) < 0
            <==> match whence case 0 => off < 0 case 1 => pos + off < 0 case 2 => size + off < 0 case _ => true
    ensures SeekTo(size, pos, off, whence) < 0 ==> SeekTo(size, pos, off, whence) == -EINVAL
  {
  }

  ghost function Step(s: Sys, quantum: nat, op: Op): (s': Sys)
    requires WellFormed(s.file, quantum)
    ensures WellFormed(s'.file, quantum)
  {
    match op
    case Seek(h, off, whence) =>
      var r := SeekTo(s.file.size, Pos(s, h), off, whence);
      if r < 0 then s else s.(pos := s.pos[h := r])
    case DoRead(h, count, copy) =>
      s.(pos := s.pos[h := Read(s.file, quantum, Pos(s, h), count, copy).pos])
    case DoWrite(h, buf, granted, copy) =>
      var p := Pos(s, h);
      var io := Write(s.file, quantum, p, buf, granted, copy);
      Sys(io.file, s.pos[h := io.pos], Logged(s.file, s.log, quantum, p, buf, granted, copy))
    case Trim(_) => s.(file := File(0, map[]), log := [])
  }

  /** A call moves no position but its own file's, by what it returns; a refused seek moves none. */
  lemma StepMoves(s: Sys, quantum: nat, op: Op, h: nat)
    requires WellFormed(s.file, quantum)
    ensures var t := Step(s, quantum, op);
            match op
            case Seek(g, off, whence) =>
              var r := SeekTo(s.file.size, Pos(s, g), off, whence);
              t.file == s.file && Pos(t, h) == if h == g && r >= 0 then r else Pos(s, h)
            case DoRead(g, count, copy) =>
              var r := Read(s.file, quantum, Pos(s, g), count, copy).ret;
              t.file == s.file && Pos(t, h) == Pos(s, h) + if h == g && r >= 0 then r else 0
            case DoWrite(g, buf, granted, copy) =>
              var r := Write(s.file, quantum, Pos(s, g), buf, granted, copy).ret;
              Pos(t, h) == Pos(s, h) + if h == g && r >= 0 then r else 0
            case Trim(_) => t.file == File(0, map[]) && Pos(t, h) == Pos(s, h)
  {
  }

  /** After a seek to the end, a write that returns n makes the file longer by n. */
  lemma AppendGrows(s: Sys, quantum: nat, h: nat, buf: seq<byte>, granted: bool, copy: Copy)
    requires WellFormed(s.file, quantum)
    ensures var t := Step(s, quantum, Seek(h, 0, 2));
            var n := Write(t.file, quantum, Pos(t, h), buf, granted, copy).ret;
            Step(t, quantum, DoWrite(h, buf, granted, copy)).file.size == s.file.size + if n >= 0 then n else 0
  {
  }

  ghost function Run(s: Sys, quantum: nat, ops: seq<Op>): (s': Sys)
    requires WellFormed(s.file, quantum)
    ensures WellFormed(s'.file, quantum)
    decreases |ops|
  {
    if ops == [] then s else Run(Step(s, quantum, ops[0]), quantum, ops[1..])
  }

  /** Reference contents: the last entry that covers the offset decides, else 0. */
  ghost function Render(log: seq<Entry>, off: nat): byte {
    if log == [] then 0
    else
      var e := log[|log| - 1];
      if e.pos <= off < e.pos + |e.data| then e.data[off - e.pos] else Render(log[..|log| - 1], off)
  }

  /** Reference size: the farthest end of a write that returned a count. */
  ghost function End(log: seq<Entry>): nat {
    if log == [] then 0
    else
      var e := log[|log| - 1];
      if e.counted then Max(End(log[..|log| - 1]), e.pos + |e.data|) else End(log[..|log| - 1])
  }

  /** Reference allocation: the quanta that some write has targeted. */
  ghost function Stored(log: seq<Entry>, quantum: nat): set<nat>
    requires quantum > 0
  {
    if log == [] then {} else Stored(log[..|log| - 1], quantum) + {log[|log| - 1].pos / quantum}
  }

  ghost predicate Agrees(s: Sys, quantum: nat)
    requires WellFormed(s.file, quantum)
  {
    && s.file.size == End(s.log)
    && s.file.blocks.Keys == Stored(s.log, quantum)
    && forall off: nat :: View(s.file, quantum, off) == Render(s.log, off)
  }

  lemma RenderLast(log: seq<Entry>, e: Entry, off: nat)
    ensures Render(log + [e], off)
            == if e.pos <= off < e.pos + |e.data| then e.data[off - e.pos] else Render(log, off)
  {
    assert (log + [e])[..|log|] == log;
  }

  lemma EndLast(log: seq<Entry>, e: Entry)
    ensures End(log + [e]) == if e.counted then Max(End(log), e.pos + |e.data|) else End(log)
  {
    assert (log + [e])[..|log|] == log;
  }

  lemma StoredLast(log: seq<Entry>, e: Entry, quantum: nat)
    requires quantum > 0
    ensures Stored(log + [e], quantum) == Stored(log, quantum) + {e.pos / quantum}
  {
    assert (log + [e])[..|log|] == log;
  }

  lemma RenderWrite(log: seq<Entry>, p: nat, buf: seq<byte>, moved: nat, counted: bool, off: nat)
    requires moved <= |buf|
    ensures Render(log + [Entry(p, buf[..moved], counted)], off)
            == if p <= off < p + moved then buf[off - p] else Render(log, off)
  {
    RenderLast(log, Entry(p, buf[..moved], counted), off);
  }

  lemma WriteShows(f: File, log: seq<Entry>, quantum: nat, p: nat, buf: seq<byte>, granted: bool, copy: Copy, off: nat)
    requires WellFormed(f, quantum) && View(f, quantum, off) == Render(log, off)
    ensures var io := Write(f, quantum, p, buf, granted, copy);
            && WellFormed(io.file, quantum)
            && View(io.file, quantum, off) == Render(Logged(f, log, quantum, p, buf, granted, copy), off)
  {
    var io := Write(f, quantum, p, buf, granted, copy);
    WriteView(f, quantum, p, buf, granted, copy, off);
    if io.ret != -ENOMEM {
      RenderWrite(log, p, buf, Moved(f, quantum, p, buf, granted, copy), io.ret >= 0, off);
    }
  }

  lemma WriteExtends(f: File, log: seq<Entry>, quantum: nat, p: nat, buf: seq<byte>, granted: bool, copy: Copy)
    requires WellFormed(f, quantum) && f.size == End(log) && f.blocks.Keys == Stored(log, quantum)
    ensures var io := Write(f, quantum, p, buf, granted, copy);
            var log' := Logged(f, log, quantum, p, buf, granted, copy);
            && io.file.size == End(log')
            && io.file.blocks.Keys == Stored(log', quantum)
  {
    WriteExtent(f, quantum, p, buf, granted, copy);
    var ret := Write(f, quantum, p, buf, granted, copy).ret;
    if ret != -ENOMEM {
      var e := Entry(p, buf[..Moved(f, quantum, p, buf, granted, copy)], ret >= 0);
      EndLast(log, e);
      StoredLast(log, e, quantum);
    }
  }

  lemma WriteAgrees(s: Sys, quantum: nat, h: nat, buf: seq<byte>, granted: bool, copy: Copy)
    requires WellFormed(s.file, quantum) && Agrees(s, quantum)
    ensures Agrees(Step(s, quantum, DoWrite(h, buf, granted, copy)), quantum)
  {
    var p := Pos(s, h);
    var s' := Step(s, quantum, DoWrite(h, buf, granted, copy));
    WriteExtends(s.file, s.log, quantum, p, buf, granted, copy);
    forall off: nat ensures View(s'.file, quantum, off) == Render(s'.log, off) {
      WriteShows(s.file, s.log, quantum, p, buf, granted, copy, off);
    }
  }

  lemma StepAgrees(s: Sys, quantum: nat, op: Op)
    requires WellFormed(s.file, quantum) && Agrees(s, quantum)
    ensures Agrees(Step(s, quantum, op), quantum)
  {
    if op.DoWrite? { WriteAgrees(s, quantum, op.h, op.buf, op.granted, op.copy); }
  }

  /**
   * Over every run of seeks, reads, writes (failed ones included) and trims by any number
   * of open files, the device is what the log of writes since the last trim says it is.
   */
  lemma {:induction false} RunAgrees(s: Sys, quantum: nat, ops: seq<Op>)
    requires WellFormed(s.file, quantum) && Agrees(s, quantum)
    ensures Agrees(Run(s, quantum, ops), quantum)
    decreases |ops|
  {
    if ops != [] {
      StepAgrees(s, quantum, ops[0]);
      RunAgrees(Step(s, quantum, ops[0]), quantum, ops[1..]);
    }
  }

  // ---------------------------------------------------------------- clients that retry

  /** A client that writes until nothing is left, and the number of calls it made. */
  ghost function WriteAll(f: File, quantum: nat, pos: nat, buf: seq<byte>): (r: (File, nat))
    requires WellFormed(f, quantum)
    ensures WellFormed(r.0, quantum)
    decreases |buf|
  {
    if buf == [] then (f, 0)
    else
      var io := Write(f, quantum, pos, buf, true, UserCopy(|buf|));
      var rest := WriteAll(io.file, quantum, io.pos, buf[io.ret..]);
      (rest.0, rest.1 + 1)
  }

  /** A client that reads until it has n bytes or a call returns 0. */
  ghost function ReadAll(f: File, quantum: nat, pos: nat, n: nat): seq<byte>
    requires WellFormed(f, quantum)
    decreases n
  {
    var io := Read(f, quantum, pos, n, UserCopy(n));
    if n == 0 || io.ret <= 0 then [] else io.data + ReadAll(f, quantum, io.pos, n - io.ret)
  }

  /** Exactly one call for each quantum the range touches. */
  lemma {:induction false} WriteAllCalls(f: File, quantum: nat, pos: nat, buf: seq<byte>)
    requires WellFormed(f, quantum) && buf != []
    ensures WriteAll(f, quantum, pos, buf).1 == (pos + |buf| - 1) / quantum - pos / quantum + 1
    decreases |buf|
  {
    var io := Write(f, quantum, pos, buf, true, UserCopy(|buf|));
    var room := quantum - pos % quantum;
    if |buf| <= room {
      assert io.ret == |buf|;
      WithinBlock(pos, |buf| - 1, quantum);
    } else {
      NextBlock(pos, quantum);
      WriteAllCalls(io.file, quantum, io.pos, buf[room..]);
    }
  }

  lemma {:induction false} WriteAllExtent(f: File, quantum: nat, pos: nat, buf: seq<byte>)
    requires WellFormed(f, quantum)
    ensures var g := WriteAll(f, quantum, pos, buf).0;
            && f.blocks.Keys <= g.blocks.Keys
            && g.size == (if buf == [] then f.size else Max(f.size, pos + |buf|))
    decreases |buf|
  {
    if buf != [] {
      var io := Write(f, quantum, pos, buf, true, UserCopy(|buf|));
      WriteAllExtent(io.file, quantum, io.pos, buf[io.ret..]);
    }
  }

  /** One call of such a client makes progress, and shows up in the view as it should. */
  lemma OneCall(f: File, quantum: nat, pos: nat, buf: seq<byte>, off: nat)
    requires WellFormed(f, quantum) && buf != []
    ensures var io := Write(f, quantum, pos, buf, true, UserCopy(|buf|));
            && 0 < io.ret <= |buf| && io.pos == pos + io.ret && WellFormed(io.file, quantum)
            && View(io.file, quantum, off) == if pos <= off < io.pos then buf[off - pos] else View(f, quantum, off)
  {
    WriteExtent(f, quantum, pos, buf, true, UserCopy(|buf|));
    WriteView(f, quantum, pos, buf, true, UserCopy(|buf|), off);
  }

  lemma {:induction false} WriteAllView(f: File, quantum: nat, pos: nat, buf: seq<byte>, off: nat)
    requires WellFormed(f, quantum)
    ensures View(WriteAll(f, quantum, pos, buf).0, quantum, off)
            == if pos <= off < pos + |buf| then buf[off - pos] else View(f, quantum, off)
    decreases |buf|
  {
    if buf != [] {
      var io := Write(f, quantum, pos, buf, true, UserCopy(|buf|));
      OneCall(f, quantum, pos, buf, off);
      var rest := buf[io.ret..];
      assert WriteAll(f, quantum, pos, buf).0 == WriteAll(io.file, quantum, io.pos, rest).0;
      WriteAllView(io.file, quantum, io.pos, rest, off);
      assert io.pos <= off < pos + |buf| ==> rest[off - io.pos] == buf[off - pos];
    }
  }

  ghost predicate HasByte(f: File, quantum: nat, off: nat)
    requires quantum > 0
  {
    off / quantum in f.blocks
  }

  /** Every quantum of the written range is stored. */
  lemma {:induction false} WriteAllStores(f: File, quantum: nat, pos: nat, buf: seq<byte>, off: nat)
    requires WellFormed(f, quantum) && pos <= off < pos + |buf|
    ensures HasByte(WriteAll(f, quantum, pos, buf).0, quantum, off)
    decreases |buf|
  {
    var io := Write(f, quantum, pos, buf, true, UserCopy(|buf|));
    if off < io.pos {
      WithinBlock(pos, off - pos, quantum);
      WriteAllExtent(io.file, quantum, io.pos, buf[io.ret..]);
    } else {
      WriteAllStores(io.file, quantum, io.pos, buf[io.ret..], off);
    }
  }

  /** The byte b is stored at an offset, not merely seen there through a hole. */
  ghost predicate Holds(f: File, quantum: nat, off: nat, b: byte)
    requires WellFormed(f, quantum)
  {
    HasByte(f, quantum, off) && View(f, quantum, off) == b
  }

  lemma ReadHeld(f: File, quantum: nat, pos: nat, buf: seq<byte>)
    requires WellFormed(f, quantum) && buf != [] && pos + |buf| <= f.size
    requires forall k | 0 <= k < |buf| :: Holds(f, quantum, pos + k, buf[k])
    ensures var io := Read(f, quantum, pos, |buf|, UserCopy(|buf|));
            && 0 < io.ret == |io.data| <= |buf| && io.pos == pos + io.ret && io.data == buf[..io.ret]
  {
    assert Holds(f, quantum, pos + 0, buf[0]);
    ReadReturnsView(f, quantum, pos, |buf|, UserCopy(|buf|));
    var io := Read(f, quantum, pos, |buf|, UserCopy(|buf|));
    forall k | 0 <= k < |io.data| ensures io.data[k] == buf[k] {
      assert Holds(f, quantum, pos + k, buf[k]);
    }
  }

  lemma WriteAllHolds(f: File, quantum: nat, pos: nat, buf: seq<byte>, off: nat)
    requires WellFormed(f, quantum) && pos <= off < pos + |buf|
    ensures Holds(WriteAll(f, quantum, pos, buf).0, quantum, off, buf[off - pos])
  {
    WriteAllView(f, quantum, pos, buf, off);
    WriteAllStores(f, quantum, pos, buf, off);
  }

  /** A read loop returns what is stored, inside the size. */
  lemma {:induction false} ReadAllView(f: File, quantum: nat, pos: nat, buf: seq<byte>)
    requires WellFormed(f, quantum) && (buf != [] ==> pos + |buf| <= f.size)
    requires forall k | 0 <= k < |buf| :: Holds(f, quantum, pos + k, buf[k])
    ensures ReadAll(f, quantum, pos, |buf|) == buf
    decreases |buf|
  {
    if buf != [] {
      ReadHeld(f, quantum, pos, buf);
      var io := Read(f, quantum, pos, |buf|, UserCopy(|buf|));
      var rest := buf[io.ret..];
      forall k | 0 <= k < |rest| ensures Holds(f, quantum, io.pos + k, rest[k]) {
        assert Holds(f, quantum, pos + (io.ret + k), buf[io.ret + k]);
      }
      ReadAllView(f, quantum, io.pos, rest);
    }
  }

  /** What a retrying client writes, a read loop from the same position returns. */
  lemma WriteThenRead(f: File, quantum: nat, pos: nat, buf: seq<byte>)
    requires WellFormed(f, quantum)
    ensures ReadAll(WriteAll(f, quantum, pos, buf).0, quantum, pos, |buf|) == buf
  {
    WriteAllExtent(f, quantum, pos, buf);
    forall k | 0 <= k < |buf| ensures Holds(WriteAll(f, quantum, pos, buf).0, quantum, pos + k, buf[k]) {
      WriteAllHolds(f, quantum, pos, buf, pos + k);
    }
    ReadAllView(WriteAll(f, quantum, pos, buf).0, quantum, pos, buf);
  }
}
