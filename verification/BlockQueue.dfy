/**
 * The request routine of a RAM disk: requests are fetched from a queue, each carried out and
 * ended segment by segment. The routine is proved to be a left fold of segment transfers;
 * about that fold it is proved which write decides each byte of the disk, and that a request
 * moves its data the same way however the block layer cut it into segments. The contents are
 * a value that maps each segment buffer to its bytes, so buffers may occur more than once.
 */
module BlockQueue {
  import opened Common
  import Arith

  const SECTOR: nat := 512
  const U32: nat := 0x1_0000_0000

  datatype Request = Request(fs: bool, write: bool, sector: nat, segs: seq<array<byte>>)

  /** One segment as the driver sees it: the position is that of the current segment. */
  datatype Seg = Seg(fs: bool, write: bool, sector: nat, buf: array<byte>)

  datatype Contents = Contents(disk: seq<byte>, bufs: map<array<byte>, seq<byte>>)

  ghost predicate Sized(c: Contents) {
    forall b | b in c.bufs :: |c.bufs[b]| == b.Length
  }

  ghost predicate Known(c: Contents, segs: seq<Seg>) {
    forall i | 0 <= i < |segs| :: segs[i].buf in c.bufs
  }

  // ---- Where a segment lands ----

  /** The byte offset: the sector and the product are both unsigned 32-bit values. */
  function Offset(sector: nat): (r: nat)
  {
    (sector % U32) * 512 % U32
  }

  predicate Accepted(disk: nat, sector: nat, size: nat) {
    Offset(sector) + size <= disk
  }

  lemma OffsetWraps(sector: nat)
    ensures Offset(sector) == sector % 0x80_0000 * 512
    ensures Offset(sector) == sector * 512 <==> sector < 0x80_0000
  {
    var q, r := sector / 0x80_0000, sector % 0x80_0000;
    Arith.DivModUnique(sector % U32, 0x80_0000, q % 512, r);
    Arith.DivModUnique(sector % U32 * 512, U32, q % 512, r * 512);
  }

  /**
   * The end-of-device test lets through exactly the segments that fit, and, because the offset
   * wraps, those from sector 2^23 on whose wrapped place fits.
   */
  lemma AcceptedIff(disk: nat, sector: nat, size: nat)
    requires disk < U32
    ensures Accepted(disk, sector, size)
            <==> sector * 512 + size <= disk
                 || (sector >= 0x80_0000 && sector % 0x80_0000 * 512 + size <= disk)
  {
    OffsetWraps(sector);
  }

  /**
   * Every segment of whole sectors inside the capacity the driver announces is accepted, at its
   * own place: no offset wraps there, whatever disk size an int can hold.
   */
  lemma InsideCapacity(disk: nat, sector: nat, sectors: nat)
    requires disk < 0x8000_0000 && sector + sectors <= disk / 512
    ensures Offset(sector) == sector * 512 && Accepted(disk, sector, sectors * 512)
  {
    OffsetWraps(sector);
  }

  /** A segment past any capacity, which the routine alone would let overwrite the first sector. */
  lemma WrappedWrite(c: Contents, buf: array<byte>)
    requires |c.disk| == 128 * 1024 * 1024 && buf in c.bufs && Sized(c) && buf.Length == 512
    ensures Apply(c, Seg(true, true, 0x80_0000, buf)).disk == c.bufs[buf] + c.disk[512..]
  {
  }

  // ---- The fold ----

  function Apply(c: Contents, s: Seg): (r: Contents)
    requires Sized(c) && s.buf in c.bufs
    ensures Sized(r) && r.bufs.Keys == c.bufs.Keys && |r.disk| == |c.disk|
  {
    var at, data := Offset(s.sector), c.bufs[s.buf];
    if !s.fs || !Accepted(|c.disk|, s.sector, |data|) then c
    else if s.write then c.(disk := Splice(c.disk, at, data))
    else c.(bufs := c.bufs[s.buf := c.disk[at..at + |data|]])
  }

  function After(c: Contents, segs: seq<Seg>): (r: Contents)
    requires Sized(c) && Known(c, segs)
    ensures Sized(r) && r.bufs.Keys == c.bufs.Keys && |r.disk| == |c.disk|
    decreases |segs|
  {
    if segs == [] then c else After(Apply(c, segs[0]), segs[1..])
  }

  /** Ending the current segment moves the position on by its sectors. */
  function EndCurrent(rq: Request): Request
    requires rq.segs != []
  {
    rq.(sector := rq.sector + rq.segs[0].Length / 512, segs := rq.segs[1..])
  }

  function SegsOf(rq: Request): seq<Seg>
    decreases |rq.segs|
  {
    if rq.segs == [] then []
    else [Seg(rq.fs, rq.write, rq.sector, rq.segs[0])] + SegsOf(EndCurrent(rq))
  }

  function AllSegs(queue: seq<Request>): seq<Seg> {
    if queue == [] then [] else SegsOf(queue[0]) + AllSegs(queue[1..])
  }

  lemma {:induction false} SegsKnown(c: Contents, rq: Request)
    requires forall b | b in rq.segs :: b in c.bufs
    ensures Known(c, SegsOf(rq)) && |SegsOf(rq)| == |rq.segs|
    decreases |rq.segs|
  {
    if rq.segs != [] { SegsKnown(c, EndCurrent(rq)); }
  }

  lemma {:induction false} QueueKnown(c: Contents, queue: seq<Request>)
    requires forall rq, b | rq in queue && b in rq.segs :: b in c.bufs
    ensures Known(c, AllSegs(queue))
  {
    if queue != [] {
      SegsKnown(c, queue[0]);
      QueueKnown(c, queue[1..]);
    }
  }

  function Count(queue: seq<Request>): nat {
    if queue == [] then 0 else |queue[0].segs| + Count(queue[1..])
  }

  /** Every segment of every request is there once. */
  lemma {:induction false} CountSegs(queue: seq<Request>)
    ensures |AllSegs(queue)| == Count(queue)
  {
    if queue != [] {
      CountRequest(queue[0]);
      CountSegs(queue[1..]);
    }
  }

  /** Segment i of a request starts where the sectors of those before it end. */
  lemma {:induction false} CountRequest(rq: Request)
    ensures |SegsOf(rq)| == |rq.segs|
    ensures forall i | 0 <= i < |rq.segs| ::
              SegsOf(rq)[i] == Seg(rq.fs, rq.write, rq.sector + Sectors(rq.segs[..i]), rq.segs[i])
    decreases |rq.segs|
  {
    if rq.segs != [] {
      var next := EndCurrent(rq);
      CountRequest(next);
      forall i | 0 <= i < |rq.segs|
        ensures SegsOf(rq)[i] == Seg(rq.fs, rq.write, rq.sector + Sectors(rq.segs[..i]), rq.segs[i])
      {
        if i > 0 {
          assert rq.segs[..i][1..] == next.segs[..i - 1];
          assert SegsOf(rq)[i] == SegsOf(next)[i - 1];
        }
      }
    }
  }

  function Sectors(segs: seq<array<byte>>): nat {
    if segs == [] then 0 else segs[0].Length / 512 + Sectors(segs[1..])
  }

  // ---- The routine ----

  /** Segment buffers hold whole sectors and are not the disk itself. */
  ghost predicate Buffers(disk: array<byte>, bufs: set<array<byte>>, queue: seq<Request>) {
    && disk !in bufs
    && (forall b | b in bufs :: b.Length % 512 == 0 && b.Length < 0x8000_0000)
    && (forall rq, b | rq in queue && b in rq.segs :: b in bufs)
  }

  ghost function Now(disk: array<byte>, bufs: set<array<byte>>): (c: Contents)
    reads disk, bufs
    ensures Sized(c)
  {
    Contents(disk[..], map b | b in bufs :: b[..])
  }

  ghost predicate Holds(b: array<byte>, bytes: seq<byte>)
    reads b
  {
    b[..] == bytes
  }

  /** The contents are known once they are for the disk and for each buffer. */
  lemma NowIs(disk: array<byte>, bufs: set<array<byte>>, c: Contents)
    requires disk[..] == c.disk && c.bufs.Keys == bufs
    requires forall b | b in bufs :: Holds(b, c.bufs[b])
    ensures Now(disk, bufs) == c
  {
    forall b | b in bufs ensures Now(disk, bufs).bufs[b] == c.bufs[b] { assert Holds(b, c.bufs[b]); }
    assert Now(disk, bufs).bufs == c.bufs;
  }

  /** A write segment: the buffer goes to the disk. */
  method ToDisk(disk: array<byte>, ptr: nat, buf: array<byte>, ghost bufs: set<array<byte>>)
    requires disk !in bufs && buf in bufs && ptr + buf.Length <= disk.Length
    modifies disk
    ensures var was := old(Now(disk, bufs));
            Now(disk, bufs) == was.(disk := Splice(was.disk, ptr, was.bufs[buf]))
  {
    ghost var was := Now(disk, bufs);
    Memcpy(disk, ptr, buf, 0, buf.Length);
    forall b | b in bufs ensures Holds(b, was.bufs[b]) { assert b != disk; }
    NowIs(disk, bufs, was.(disk := Splice(was.disk, ptr, was.bufs[buf])));
  }

  /** A read segment: the disk goes to the buffer. */
  method FromDisk(disk: array<byte>, ptr: nat, buf: array<byte>, ghost bufs: set<array<byte>>)
    requires disk !in bufs && buf in bufs && ptr + buf.Length <= disk.Length
    modifies buf
    ensures var was := old(Now(disk, bufs));
            Now(disk, bufs) == was.(bufs := was.bufs[buf := was.disk[ptr..ptr + buf.Length]])
  {
    ghost var was := Now(disk, bufs);
    Memcpy(buf, 0, disk, ptr, buf.Length);
    ghost var next := was.bufs[buf := was.disk[ptr..ptr + buf.Length]];
    forall b | b in bufs ensures Holds(b, next[b]) { assert b != buf ==> old(b[..]) == was.bufs[b]; }
    NowIs(disk, bufs, was.(bufs := next));
  }

  /** What the routine does with the current segment before ending it. */
  method Transfer(disk: array<byte>, rq: Request, ghost bufs: set<array<byte>>)
    requires rq.segs != [] && Buffers(disk, bufs, [rq])
    modifies disk, rq.segs[0]
    ensures rq.segs[0] in bufs
    ensures Now(disk, bufs) == Apply(old(Now(disk, bufs)), Seg(rq.fs, rq.write, rq.sector, rq.segs[0]))
  {
    var buf := rq.segs[0];
    assert rq in [rq] && buf in rq.segs;
    if rq.fs {
      var nrSectors, sector := buf.Length / 512, rq.sector % U32;
      var ptr, size := sector * 512 % U32, nrSectors * 512;
      if ptr + size <= disk.Length {
        if rq.write {
          ToDisk(disk, ptr, buf, bufs);
        } else {
          FromDisk(disk, ptr, buf, bufs);
        }
      }
    }
  }

  /** The request being served, and those still queued. */
  datatype Service = Service(current: Option<Request>, rest: seq<Request>)

  function Fetch(queue: seq<Request>): Service {
    if queue == [] then Service(None, []) else Service(Some(queue[0]), queue[1..])
  }

  /** Ending the current segment: the next request is fetched once none is left in this one. */
  function Ended(rq: Request, rest: seq<Request>): Service {
    var left := if rq.segs == [] then rq else EndCurrent(rq);
    if left.segs == [] then Fetch(rest) else Service(Some(left), rest)
  }

  function Pending(v: Service): seq<Seg> {
    if v.current.None? then [] else SegsOf(v.current.value) + AllSegs(v.rest)
  }

  lemma EndedPending(rq: Request, rest: seq<Request>)
    ensures var pending := Pending(Service(Some(rq), rest));
            Pending(Ended(rq, rest)) == if rq.segs == [] then pending else pending[1..]
  {
    if rq.segs != [] {
      var left := EndCurrent(rq);
      assert SegsOf(rq) == [Seg(rq.fs, rq.write, rq.sector, rq.segs[0])] + SegsOf(left);
      assert (SegsOf(rq) + AllSegs(rest))[1..] == SegsOf(left) + AllSegs(rest);
      assert left.segs == [] ==> SegsOf(left) == [];
    }
  }

  ghost predicate Serves(v: Service, disk: array<byte>, bufs: set<array<byte>>) {
    Buffers(disk, bufs, v.rest) && (v.current.Some? ==> Buffers(disk, bufs, [v.current.value]))
  }

  lemma EndedServes(v: Service, disk: array<byte>, bufs: set<array<byte>>)
    requires v.current.Some? && Serves(v, disk, bufs)
    ensures Serves(Ended(v.current.value, v.rest), disk, bufs)
  {
    var rq := v.current.value;
    assert rq in [rq];
    var next := Ended(rq, v.rest);
    forall q, b | q in next.rest && b in q.segs ensures b in bufs { assert q in v.rest; }
    if next.current.Some? {
      forall q, b | q in [next.current.value] && b in q.segs ensures b in bufs {
        if rq.segs != [] && EndCurrent(rq).segs != [] {
          assert b in rq.segs;
        } else {
          assert q in v.rest;
        }
      }
    }
  }

  function Left(v: Service): nat {
    if v.current.Some? then |v.current.value.segs| + 1 else 0
  }

  /** One round of the loop: it carries out the first pending segment, if the request has one. */
  method Round(disk: array<byte>, v: Service, ghost bufs: set<array<byte>>) returns (v': Service, served: nat)
    requires v.current.Some? && Serves(v, disk, bufs) && Known(Now(disk, bufs), Pending(v))
    modifies disk, bufs
    ensures Serves(v', disk, bufs) && Known(Now(disk, bufs), Pending(v'))
    ensures After(Now(disk, bufs), Pending(v')) == After(old(Now(disk, bufs)), Pending(v))
    ensures served + |Pending(v')| == |Pending(v)|
    ensures |v'.rest| < |v.rest| || (|v'.rest| == |v.rest| && Left(v') < Left(v))
  {
    var rq := v.current.value;
    EndedPending(rq, v.rest);
    EndedServes(v, disk, bufs);
    served := 0;
    if rq.segs != [] {
      assert Pending(v)[0].buf == rq.segs[0];
      Transfer(disk, rq, bufs);
      served := 1;
    }
    v' := Ended(rq, v.rest);
  }

  /**
   * my_request: whatever the queue, the routine ends every segment once, and leaves the disk
   * and the segment buffers as the fold of all segments in queue order says. A segment that is
   * skipped or refused is ended as successful all the same.
   */
  method MyRequest(disk: array<byte>, queue: seq<Request>, ghost bufs: set<array<byte>>) returns (ended: nat)
    requires Buffers(disk, bufs, queue)
    modifies disk, bufs
    ensures ended == |AllSegs(queue)|
    ensures Known(old(Now(disk, bufs)), AllSegs(queue))
    ensures Now(disk, bufs) == After(old(Now(disk, bufs)), AllSegs(queue))
  {
    QueueKnown(Now(disk, bufs), queue);
    ended := 0;
    var v := Fetch(queue);
    assert queue != [] ==> forall q | q in [queue[0]] :: q in queue;
    while v.current.Some?
      invariant Serves(v, disk, bufs) && Known(Now(disk, bufs), Pending(v))
      invariant After(Now(disk, bufs), Pending(v)) == After(old(Now(disk, bufs)), AllSegs(queue))
      invariant ended + |Pending(v)| == |AllSegs(queue)|
      decreases |v.rest|, Left(v)
    {
      var served;
      v, served := Round(disk, v, bufs);
      ended := ended + served;
    }
  }

  // ---- What the fold means ----

  /** Segment i of segs writes byte k of the disk. */
  ghost predicate Writes(c: Contents, segs: seq<Seg>, i: nat, k: nat)
    requires i < |segs|
  {
    var s := segs[i];
    && s.fs && s.write && Accepted(|c.disk|, s.sector, s.buf.Length)
    && Offset(s.sector) <= k < Offset(s.sector) + s.buf.Length
  }

  /** A byte of the disk that no segment writes is kept. */
  lemma {:induction false} UnwrittenByteKept(c: Contents, segs: seq<Seg>, k: nat)
    requires Sized(c) && Known(c, segs) && k < |c.disk|
    requires forall i: nat | i < |segs| :: !Writes(c, segs, i, k)
    ensures After(c, segs).disk[k] == c.disk[k]
    decreases |segs|
  {
    if segs != [] {
      var d, rest := Apply(c, segs[0]), segs[1..];
      assert !Writes(c, segs, 0, k);
      forall i: nat | i < |rest| ensures !Writes(d, rest, i, k) { assert !Writes(c, segs, i + 1, k); }
      UnwrittenByteKept(d, rest, k);
    }
  }

  lemma NoLaterWrite(c: Contents, segs: seq<Seg>, i: nat, k: nat)
    requires Sized(c) && Known(c, segs) && segs != []
    requires forall j: nat | i < j < |segs| :: !Writes(c, segs, j, k)
    ensures var d, rest := Apply(c, segs[0]), segs[1..];
            forall j: nat | i <= j < |rest| :: !Writes(d, rest, j, k)
  {
    var d, rest := Apply(c, segs[0]), segs[1..];
    forall j: nat | i <= j < |rest| ensures !Writes(d, rest, j, k) { assert !Writes(c, segs, j + 1, k); }
  }

  lemma SplitAt(segs: seq<Seg>, i: nat)
    requires i < |segs|
    ensures segs[..i] + segs[i..] == segs && segs[i..][0] == segs[i]
  {
  }

  /** When only the first segment writes a byte. */
  lemma FirstWriteStays(c: Contents, segs: seq<Seg>, k: nat)
    requires Sized(c) && Known(c, segs) && k < |c.disk| && segs != []
    requires Writes(c, segs, 0, k) && forall j: nat | 0 < j < |segs| :: !Writes(c, segs, j, k)
    ensures After(c, segs).disk[k] == c.bufs[segs[0].buf][k - Offset(segs[0].sector)]
  {
    NoLaterWrite(c, segs, 0, k);
    UnwrittenByteKept(Apply(c, segs[0]), segs[1..], k);
  }

  /** Any other byte is what the last segment to write it had in its buffer when its turn came. */
  lemma LastWriteDecides(c: Contents, segs: seq<Seg>, i: nat, k: nat)
    requires Sized(c) && Known(c, segs) && k < |c.disk| && i < |segs|
    requires Writes(c, segs, i, k) && forall j: nat | i < j < |segs| :: !Writes(c, segs, j, k)
    ensures Known(c, segs[..i])
    ensures After(c, segs).disk[k] == After(c, segs[..i]).bufs[segs[i].buf][k - Offset(segs[i].sector)]
  {
    var d, rest := After(c, segs[..i]), segs[i..];
    AfterBoth(c, segs[..i], rest);
    SplitAt(segs, i);
    forall j: nat | j < |rest| ensures Writes(d, rest, j, k) == Writes(c, segs, i + j, k) {
      assert rest[j] == segs[i + j];
    }
    FirstWriteStays(d, rest, k);
  }

  /** Segment i of segs reads into buffer b. */
  ghost predicate Reads(c: Contents, segs: seq<Seg>, i: nat, b: array<byte>)
    requires i < |segs|
  {
    var s := segs[i];
    s.fs && !s.write && s.buf == b && Accepted(|c.disk|, s.sector, s.buf.Length)
  }

  /** A buffer that no accepted filesystem read goes to is kept. */
  lemma {:induction false} UnreadBufferKept(c: Contents, segs: seq<Seg>, b: array<byte>)
    requires Sized(c) && Known(c, segs) && b in c.bufs
    requires forall i: nat | i < |segs| :: !Reads(c, segs, i, b)
    ensures After(c, segs).bufs[b] == c.bufs[b]
    decreases |segs|
  {
    if segs != [] {
      var d, rest := Apply(c, segs[0]), segs[1..];
      assert !Reads(c, segs, 0, b);
      forall i: nat | i < |rest| ensures !Reads(d, rest, i, b) { assert !Reads(c, segs, i + 1, b); }
      UnreadBufferKept(d, rest, b);
    }
  }

  /** When only the first segment reads into a buffer. */
  lemma FirstReadStays(c: Contents, segs: seq<Seg>, b: array<byte>)
    requires Sized(c) && Known(c, segs) && b in c.bufs && segs != []
    requires Reads(c, segs, 0, b) && forall j: nat | 0 < j < |segs| :: !Reads(c, segs, j, b)
    ensures var at := Offset(segs[0].sector); After(c, segs).bufs[b] == c.disk[at..at + b.Length]
  {
    var d, rest := Apply(c, segs[0]), segs[1..];
    forall j: nat | j < |rest| ensures !Reads(d, rest, j, b) { assert !Reads(c, segs, j + 1, b); }
    UnreadBufferKept(d, rest, b);
  }

  /** Any other holds what the disk had at the place of the last read into it, when its turn came. */
  lemma LastReadDecides(c: Contents, segs: seq<Seg>, i: nat, b: array<byte>)
    requires Sized(c) && Known(c, segs) && b in c.bufs && i < |segs|
    requires Reads(c, segs, i, b) && forall j: nat | i < j < |segs| :: !Reads(c, segs, j, b)
    ensures Known(c, segs[..i])
    ensures var at := Offset(segs[i].sector); After(c, segs).bufs[b] == After(c, segs[..i]).disk[at..at + b.Length]
  {
    var d, rest := After(c, segs[..i]), segs[i..];
    AfterBoth(c, segs[..i], rest);
    SplitAt(segs, i);
    forall j: nat | j < |rest| ensures Reads(d, rest, j, b) == Reads(c, segs, i + j, b) {
      assert rest[j] == segs[i + j];
    }
    assert Reads(d, rest, 0, b) == Reads(c, segs, i + 0, b);
    assert After(c, segs) == After(d, rest);
    FirstReadStays(d, rest, b);
  }

  /** The bytes of a list of buffers, one after the other. */
  function Joined(c: Contents, segs: seq<array<byte>>): (r: seq<byte>)
    requires Sized(c) && forall b | b in segs :: b in c.bufs
    ensures |r| == Total(segs)
  {
    if segs == [] then [] else c.bufs[segs[0]] + Joined(c, segs[1..])
  }

  function Total(segs: seq<array<byte>>): nat {
    if segs == [] then 0 else segs[0].Length + Total(segs[1..])
  }

  /** A request that fits on the disk, of segments that hold whole sectors. */
  ghost predicate Fits(c: Contents, rq: Request) {
    && |c.disk| < U32 && rq.sector * 512 + Total(rq.segs) <= |c.disk| && rq.fs
    && (forall b | b in rq.segs :: b.Length % 512 == 0 && b in c.bufs)
  }

  lemma FirstFits(c: Contents, rq: Request)
    requires Fits(c, rq) && Sized(c) && rq.segs != []
    ensures Offset(rq.sector) == rq.sector * 512
    ensures Accepted(|c.disk|, rq.sector, rq.segs[0].Length)
    ensures rq.sector * 512 + rq.segs[0].Length == EndCurrent(rq).sector * 512
    ensures Fits(Apply(c, Seg(rq.fs, rq.write, rq.sector, rq.segs[0])), EndCurrent(rq))
  {
    OffsetWraps(rq.sector);
    assert rq.segs[0] in rq.segs;
  }

  lemma SpliceOn(s: seq<byte>, at: nat, first: seq<byte>, rest: seq<byte>)
    requires at + |first| + |rest| <= |s|
    ensures Splice(Splice(s, at, first), at + |first|, rest) == Splice(s, at, first + rest)
  {
  }

  /** A write request stores its data as one piece, wherever the segments were cut. */
  lemma {:induction false} WriteRequest(c: Contents, rq: Request)
    requires Sized(c) && Fits(c, rq) && rq.write
    ensures Known(c, SegsOf(rq))
    ensures After(c, SegsOf(rq)) == c.(disk := Splice(c.disk, rq.sector * 512, Joined(c, rq.segs)))
    decreases |rq.segs|
  {
    SegsKnown(c, rq);
    if rq.segs != [] {
      FirstFits(c, rq);
      var d, next := Apply(c, SegsOf(rq)[0]), EndCurrent(rq);
      WriteRequest(d, next);
      SameJoined(c, d, next.segs);
      SpliceOn(c.disk, rq.sector * 512, c.bufs[rq.segs[0]], Joined(c, next.segs));
    } else {
      assert Splice(c.disk, rq.sector * 512, []) == c.disk;
    }
  }

  lemma {:induction false} SameJoined(c: Contents, d: Contents, segs: seq<array<byte>>)
    requires Sized(c) && Sized(d)
    requires forall b | b in segs :: b in c.bufs && b in d.bufs && c.bufs[b] == d.bufs[b]
    ensures Joined(c, segs) == Joined(d, segs)
  {
    if segs != [] { SameJoined(c, d, segs[1..]); }
  }

  /** A read request keeps the disk and all but its own buffers. */
  lemma {:induction false} ReadKeeps(c: Contents, rq: Request)
    requires Sized(c) && Fits(c, rq) && !rq.write
    ensures Known(c, SegsOf(rq))
    ensures After(c, SegsOf(rq)).disk == c.disk
    ensures forall b | b in c.bufs && b !in rq.segs :: After(c, SegsOf(rq)).bufs[b] == c.bufs[b]
    decreases |rq.segs|
  {
    SegsKnown(c, rq);
    if rq.segs != [] {
      FirstFits(c, rq);
      ReadKeeps(Apply(c, SegsOf(rq)[0]), EndCurrent(rq));
    }
  }

  ghost predicate Distinct(segs: seq<array<byte>>) {
    segs != [] ==> segs[0] !in segs[1..] && Distinct(segs[1..])
  }

  /** The first segment of a read request gets its bytes, and no later one takes them away. */
  lemma FirstRead(c: Contents, rq: Request)
    requires Sized(c) && Fits(c, rq) && !rq.write && rq.segs != [] && Distinct(rq.segs)
    ensures var b, d, next := rq.segs[0], Apply(c, SegsOf(rq)[0]), EndCurrent(rq);
            && Sized(d) && Fits(d, next) && d.disk == c.disk && Known(d, SegsOf(next))
            && next.segs == rq.segs[1..] && next.sector * 512 == rq.sector * 512 + b.Length
            && After(c, SegsOf(rq)) == After(d, SegsOf(next))
            && After(d, SegsOf(next)).bufs[b] == c.disk[rq.sector * 512..rq.sector * 512 + b.Length]
  {
    FirstFits(c, rq);
    ReadKeeps(Apply(c, SegsOf(rq)[0]), EndCurrent(rq));
  }

  /** Joined to the rest, the first segment gives the whole. */
  lemma JoinFirst(c: Contents, rq: Request, e: Contents, next: Request)
    requires Sized(c) && Sized(e) && Fits(c, rq) && rq.segs != [] && e.bufs.Keys == c.bufs.Keys
    requires next.segs == rq.segs[1..] && next.sector * 512 == rq.sector * 512 + rq.segs[0].Length
    requires e.bufs[rq.segs[0]] == c.disk[rq.sector * 512..rq.sector * 512 + rq.segs[0].Length]
    requires next.sector * 512 + Total(next.segs) <= |c.disk|
    requires Joined(e, next.segs) == c.disk[next.sector * 512..next.sector * 512 + Total(next.segs)]
    ensures Joined(e, rq.segs) == c.disk[rq.sector * 512..rq.sector * 512 + Total(rq.segs)]
  {
    var at := rq.sector * 512;
    JoinSlices(e, rq.segs, c.disk, at, at + rq.segs[0].Length, at + Total(rq.segs));
  }

  lemma JoinSlices(e: Contents, segs: seq<array<byte>>, data: seq<byte>, at: nat, mid: nat, end: nat)
    requires Sized(e) && segs != [] && (forall b | b in segs :: b in e.bufs) && at <= mid <= end <= |data|
    requires e.bufs[segs[0]] == data[at..mid] && Joined(e, segs[1..]) == data[mid..end]
    ensures Joined(e, segs) == data[at..end]
  {
    assert data[at..mid] + data[mid..end] == data[at..end];
  }

  /** A read request into distinct buffers gives them, joined, the disk's bytes at its position. */
  lemma {:induction false} ReadRequest(c: Contents, rq: Request)
    requires Sized(c) && Fits(c, rq) && !rq.write
    requires Distinct(rq.segs)
    ensures Known(c, SegsOf(rq))
    ensures Joined(After(c, SegsOf(rq)), rq.segs) == c.disk[rq.sector * 512..rq.sector * 512 + Total(rq.segs)]
    decreases |rq.segs|
  {
    SegsKnown(c, rq);
    if rq.segs != [] {
      var d, next := Apply(c, SegsOf(rq)[0]), EndCurrent(rq);
      FirstRead(c, rq);
      ReadRequest(d, next);
      JoinFirst(c, rq, After(c, SegsOf(rq)), next);
    }
  }

  lemma {:induction false} AfterBoth(c: Contents, first: seq<Seg>, second: seq<Seg>)
    requires Sized(c) && Known(c, first) && Known(c, second)
    ensures Known(c, first + second) && After(c, first + second) == After(After(c, first), second)
    decreases |first|
  {
    if first == [] {
      assert first + second == second;
    } else {
      var d := Apply(c, first[0]);
      assert (first + second)[0] == first[0] && (first + second)[1..] == first[1..] + second;
      AfterBoth(d, first[1..], second);
    }
  }

  lemma TwoRequests(w: Request, r: Request)
    ensures AllSegs([w, r]) == SegsOf(w) + SegsOf(r)
  {
    assert [w, r][1..] == [r] && [r][1..] == [];
    assert AllSegs([r]) == SegsOf(r) + AllSegs([]);
  }

  /** What one request writes, the next reads back, however either is cut into segments. */
  lemma WriteThenRead(c: Contents, w: Request, r: Request)
    requires Sized(c) && Fits(c, w) && Fits(c, r) && w.write && !r.write
    requires w.sector == r.sector && Total(w.segs) == Total(r.segs)
    requires Distinct(r.segs)
    ensures Known(c, AllSegs([w, r]))
    ensures Joined(After(c, AllSegs([w, r])), r.segs) == Joined(c, w.segs)
  {
    WriteRequest(c, w);
    var d := After(c, SegsOf(w));
    ReadRequest(d, r);
    AfterBoth(c, SegsOf(w), SegsOf(r));
    TwoRequests(w, r);
  }
}
