/** What every step of the USB skeleton driver keeps. */
module UsbInvariant {
  import opened Common
  import opened UsbSkeleton

  /** The bytes taken out of the buffer so far, whether or not they reached a reader. */
  function TakenBytes(chunks: seq<Chunk>): seq<byte> {
    if chunks == [] then [] else TakenBytes(chunks[..|chunks| - 1]) + chunks[|chunks| - 1].data
  }

  /** ongoing_read is set and the URB is not submitted. */
  predicate Preparing(s: State) {
    s.ioMutex.Reading? && (s.ioMutex.read.ZeroIo? || s.ioMutex.read.SubmitIo? || s.ioMutex.read.SubmitFailed?)
  }

  predicate ReaderOk(s: State)
    requires s.ioMutex.Reading?
  {
    && s.ioMutex.count > 0
    && match s.ioMutex.read
       case TestError | ClearError(_, _) | Data => !s.bulkIn.ongoingRead
       case MarkIo(len, _) => !s.bulkIn.ongoingRead && s.bulkIn.copied == s.bulkIn.filled && len > 0
       case ZeroIo(_, _) => s.bulkIn.copied == s.bulkIn.filled
       case SubmitIo(_, _) | SubmitFailed => s.bulkIn.filled == 0
       case _ => true
  }

  /**
   * The bulk-in path. A refill starts only when the buffer is used up, the URB is never
   * submitted while in flight, and no byte is lost, repeated or reordered.
   */
  ghost predicate Data(s: State) {
    Buffering(s) && Delivered(s)
  }

  /** Nothing is lost, repeated or reordered between the bus and the readers. */
  ghost predicate Delivered(s: State) {
    && s.bulkIn.copied <= s.bulkIn.filled <= |s.bulkIn.buffer|
    && TakenBytes(s.bulkIn.chunks) + s.bulkIn.buffer[s.bulkIn.copied..s.bulkIn.filled] == s.bulkIn.completed
    && forall c | c in s.bulkIn.chunks :: c.data != []
  }

  predicate Buffering(s: State) {
    && s.bulkIn.copied <= s.bulkIn.filled <= |s.bulkIn.buffer|
    && (s.bulkIn.inFlight ==> s.bulkIn.ongoingRead && s.bulkIn.filled == 0 && s.bulkIn.inLen <= |s.bulkIn.buffer|)
    && (s.bulkIn.ongoingRead && !s.bulkIn.inFlight <==> Preparing(s))
    && (s.ioMutex.Reading? ==> ReaderOk(s))
  }

  predicate WriteOk(s: State, w: nat)
    requires w in s.writes
  {
    && (Calling(s, w) ==> s.writes[w].h in s.handles)
    && (s.writes[w].pc in {Locked, Ready, Gone} ==> s.ioMutex == Writing(w))
    && (s.writes[w].pc == Ready ==> !s.disconnected)
  }

  /** References, disconnection and the mutex. */
  ghost predicate Lifetime(s: State) {
    && s.kref == (if RefDropped(s.stage) then 0 else 1) + |s.handles|
    && s.deletes == (if s.kref == 0 then 1 else 0)
    && (s.disconnected <==> s.stage in {Marked, Unlocked, InKilled, OutKilled, Dropped})
    && (s.ioMutex == Disconnecting <==> s.stage in {Locking, Marked})
    && (s.stage in {Probing, ProbeFailed} ==>
          s.handles == {} && s.writes == map[] && InIdle(s) && s.ioMutex == Nobody)
    && (s.stage in {InKilled, OutKilled, Dropped} ==> InIdle(s))
    && (s.stage in {OutKilled, Dropped} ==> NothingFlies(s))
  }

  ghost predicate Mutex(s: State) {
    && (forall w | w in s.writes :: WriteOk(s, w))
    && match s.ioMutex
       case Reading(h, _, _, pc) => h in s.handles && (s.disconnected ==> pc in {Check, Unlock})
       case Writing(w) =>
         w in s.writes && (s.writes[w].pc in {Locked, Ready, Gone, Done} || Flying(s.writes[w].pc))
       case Flushing(h, pc) => h in s.handles && Drained(s, pc)
       case Resetting(pc) => s.stage in {Bound, Deregistered} && Drained(s, pc)
       case _ => true
  }

  /** skel_draw_down has done its work as far as pc says, and nothing has been submitted since. */
  ghost predicate Drained(s: State, pc: DrainPc) {
    && (pc != DrainOut ==> NothingFlies(s))
    && (pc in {Settle, Leave} ==> InIdle(s))
  }

  /** Writes that hold one of the permits. */
  ghost function Holders(writes: map<nat, Write>): set<nat> {
    set w | w in writes && HoldsPermit(writes[w].pc)
  }

  predicate BufferOk(x: Write) {
    x.frees + (if HasBuffer(x.pc) then 1 else 0) == x.allocs <= 1
    && (x.pc in {Entered, Permitted, Tested, Failed(false)} ==> x.allocs == 0)
    && (HasBuffer(x.pc) || x.pc == Freed ==> x.allocs == 1)
  }

  /** Permits and write buffers. */
  ghost predicate Permits(s: State) {
    && s.limitSem + |Holders(s.writes)| == WRITES_IN_FLIGHT
    && forall w | w in s.writes :: BufferOk(s.writes[w])
  }

  predicate TakeOk(s: State, t: Take) {
    t.id < |s.err.recorded| && t.report == Report(s.err.recorded[t.id])
  }

  ghost predicate TakenTwice(taken: seq<Take>) {
    exists i, j :: 0 <= i < j < |taken| && taken[i].id == taken[j].id
  }

  ghost predicate IsTaken(taken: seq<Take>, id: nat) {
    exists i :: 0 <= i < |taken| && taken[i].id == id
  }

  /** A read is about to report a record that has been reported already. */
  ghost predicate AboutToRepeat(s: State) {
    s.ioMutex.Reading? && s.ioMutex.read.ClearError? && IsTaken(s.err.taken, s.ioMutex.read.id)
  }

  /** Error records and who reported them. */
  ghost predicate Errors(s: State) {
    && s.err.errors <= 0
    && (forall i | 0 <= i < |s.err.recorded| :: s.err.recorded[i] < 0)
    && (s.err.errors < 0 ==>
          && s.err.errId < |s.err.recorded| && s.err.recorded[s.err.errId] == s.err.errors
          && !IsTaken(s.err.taken, s.err.errId))
    && (forall i | 0 <= i < |s.err.taken| :: TakeOk(s, s.err.taken[i]))
    && (s.ioMutex.Reading? && s.ioMutex.read.ClearError? ==>
          var id := s.ioMutex.read.id; id < |s.err.recorded| && s.err.recorded[id] == s.ioMutex.read.value)
    && (s.err.raced <==> TakenTwice(s.err.taken) || AboutToRepeat(s))
  }

  ghost predicate Inv(s: State) {
    Data(s) && Lifetime(s) && Mutex(s) && Permits(s) && Errors(s)
  }

  lemma InitInv(buffer: seq<byte>)
    ensures Inv(Init(buffer))
  {
    assert Holders(map[]) == {};
  }

  // ---------------------------------------------------------------- what each kind of step can touch

  /** No read in progress has moved. */
  predicate SameReader(s: State, t: State) {
    t.ioMutex == s.ioMutex || (!s.ioMutex.Reading? && !t.ioMutex.Reading?)
  }

  lemma LifeTouches(s: State, e: LifeEvent)
    requires Lifetime(s) && LifeStep(s, e).Some?
    ensures var t := LifeStep(s, e).value;
            && t == s.(stage := t.stage, disconnected := t.disconnected, ioMutex := t.ioMutex,
                       handles := t.handles, kref := t.kref, deletes := t.deletes)
            && SameReader(s, t)
  {
  }

  /** t differs from s in one write, the semaphore, the error records and possibly the mutex. */
  ghost predicate Wrote(s: State, t: State, w: nat) {
    && t == s.(writes := t.writes, limitSem := t.limitSem, ioMutex := t.ioMutex, err := t.err)
    && w in t.writes && t.writes == s.writes[w := t.writes[w]]
    && SameReader(s, t)
  }

  lemma WriteTouches(s: State, w: nat, e: WriteEvent)
    requires WriteStep(s, w, e).Some?
    ensures Wrote(s, WriteStep(s, w, e).value, w)
  {
  }

  lemma SubmitTouches(s: State, w: nat, e: SubmitEvent)
    requires SubmitStep(s, w, e).Some?
    ensures Wrote(s, SubmitStep(s, w, e).value, w)
  {
  }

  lemma CallbackTouches(s: State, w: nat, e: CallbackEvent)
    requires CallbackStep(s, w, e).Some?
    ensures Wrote(s, CallbackStep(s, w, e).value, w)
  {
  }

  /** Reading and the bulk-in URB leave writes, references and stage alone. */
  ghost predicate ReadOnly(s: State, t: State) {
    t == s.(ioMutex := t.ioMutex, err := t.err, bulkIn := t.bulkIn) && t.err.raced == s.err.raced
  }

  lemma ReadTouches(s: State, e: ReadEvent)
    requires ReadStep(s, e).Some?
    ensures ReadOnly(s, ReadStep(s, e).value)
  {
  }

  lemma IoTouches(s: State, e: IoEvent)
    requires IoStep(s, e).Some?
    ensures ReadOnly(s, IoStep(s, e).value)
  {
  }

  lemma BusTouches(s: State, e: BusEvent)
    requires BusStep(s, e).Some?
    ensures ReadOnly(s, BusStep(s, e).value)
  {
  }

  lemma DrainTouches(s: State, e: DrainEvent)
    requires DrainStep(s, e).Some?
    ensures var t := DrainStep(s, e).value;
            && t == s.(ioMutex := t.ioMutex, err := t.err) && t.err.raced == s.err.raced
            && SameReader(s, t)
  {
  }

  // ---------------------------------------------------------------- the data path

  lemma TakenLast(chunks: seq<Chunk>, c: Chunk)
    ensures TakenBytes(chunks + [c]) == TakenBytes(chunks) + c.data
  {
    assert (chunks + [c])[..|chunks|] == chunks;
  }

  lemma TakeSlice(before: seq<byte>, b: seq<byte>, i: nat, j: nat, k: nat)
    requires i <= j <= k <= |b|
    ensures (before + b[i..j]) + b[j..k] == before + b[i..k]
  {
    assert b[i..j] + b[j..k] == b[i..k];
  }

  lemma ChunksLast(chunks: seq<Chunk>, c: Chunk)
    requires (forall x | x in chunks :: x.data != []) && c.data != []
    ensures forall x | x in chunks + [c] :: x.data != []
  {
  }

  /** Handing out the next part of the buffer, up to end, keeps everything accounted for. */
  lemma TakeDelivers(s: State, t: State, end: nat, reached: bool)
    requires Delivered(s) && s.bulkIn.copied < end <= s.bulkIn.filled
    requires var chunk := Chunk(s.bulkIn.buffer[s.bulkIn.copied..end], reached);
             t.bulkIn == s.bulkIn.(chunks := s.bulkIn.chunks + [chunk], copied := end)
    ensures Delivered(t)
  {
    var c := Chunk(s.bulkIn.buffer[s.bulkIn.copied..end], reached);
    TakenLast(s.bulkIn.chunks, c);
    ChunksLast(s.bulkIn.chunks, c);
    TakeSlice(TakenBytes(s.bulkIn.chunks), s.bulkIn.buffer, s.bulkIn.copied, end, s.bulkIn.filled);
  }

  lemma ReadDataDelivers(s: State, fault: bool)
    requires Data(s) && ReadStep(s, ReadData(fault)).Some?
    ensures Delivered(ReadStep(s, ReadData(fault)).value)
  {
    if s.bulkIn.filled != 0 && s.bulkIn.filled != s.bulkIn.copied {
      var end := s.bulkIn.copied + Min(s.bulkIn.filled - s.bulkIn.copied, s.ioMutex.count);
      TakeDelivers(s, ReadStep(s, ReadData(fault)).value, end, !fault);
    }
  }

  lemma ReadDataKeepsBuffering(s: State, fault: bool)
    requires Buffering(s) && ReadStep(s, ReadData(fault)).Some?
    ensures Buffering(ReadStep(s, ReadData(fault)).value)
  {
  }

  lemma ReadKeepsData(s: State, e: ReadEvent)
    requires Data(s) && ReadStep(s, e).Some? && !e.ReadData?
    ensures Data(ReadStep(s, e).value)
  {
  }

  lemma IoKeepsData(s: State, e: IoEvent)
    requires Data(s) && IoStep(s, e).Some?
    ensures Data(IoStep(s, e).value)
  {
  }

  lemma SpliceHead(s: seq<byte>, data: seq<byte>)
    requires |data| <= |s|
    ensures Splice(s, 0, data)[0..|data|] == data
  {
  }

  lemma BusKeepsData(s: State, e: BusEvent)
    requires Data(s) && BusStep(s, e).Some?
    ensures Data(BusStep(s, e).value)
  {
    if e.InCallback? && e.status == 0 { SpliceHead(s.bulkIn.buffer, e.data); }
  }

  lemma DataKept(s: State, e: Event)
    requires Data(s) && Lifetime(s) && Step(s, e).Some?
    ensures Data(Step(s, e).value)
  {
    match e
    case Life(l) => LifeTouches(s, l);
    case Read(r) =>
      if r.ReadData? {
        ReadDataDelivers(s, r.fault);
        ReadDataKeepsBuffering(s, r.fault);
      } else {
        ReadKeepsData(s, r);
      }
    case Io(i) => IoKeepsData(s, i);
    case WriteBy(w, x) => WriteTouches(s, w, x);
    case Submit(w, x) => SubmitTouches(s, w, x);
    case Callback(w, x) => CallbackTouches(s, w, x);
    case Bus(b) => BusKeepsData(s, b);
    case Drain(d) => DrainTouches(s, d);
  }

  // ---------------------------------------------------------------- permits

  lemma HoldersUpdate(writes: map<nat, Write>, w: nat, x: Write)
    ensures Holders(writes[w := x]) == if HoldsPermit(x.pc) then Holders(writes) + {w} else Holders(writes) - {w}
    ensures w in Holders(writes) <==> w in writes && HoldsPermit(writes[w].pc)
  {
  }

  /** One write moved: what it gained or lost of permit and buffer must balance. */
  lemma OneWriteKeepsPermits(s: State, t: State, w: nat)
    requires Permits(s) && w in t.writes && t.writes == s.writes[w := t.writes[w]] && BufferOk(t.writes[w])
    requires t.limitSem + (if HoldsPermit(t.writes[w].pc) then 1 else 0)
             == s.limitSem + (if w in s.writes && HoldsPermit(s.writes[w].pc) then 1 else 0)
    ensures Permits(t)
  {
    HoldersUpdate(s.writes, w, t.writes[w]);
  }

  lemma TestKeepsPermits(s: State, w: nat)
    requires Permits(s) && WriteStep(s, w, WriteTest).Some?
    ensures Permits(WriteStep(s, w, WriteTest).value)
  {
    var t, x := WriteStep(s, w, WriteTest).value, s.writes[w];
    var y := Write(x.h, if s.err.errors < 0 then Failed(false) else Tested, x.allocs, x.frees);
    assert t.limitSem == s.limitSem && t.writes == s.writes[w := y] && BufferOk(x);
    OneWriteKeepsPermits(s, t, w);
  }

  lemma WriteKeepsPermits(s: State, w: nat, e: WriteEvent)
    requires Permits(s) && WriteStep(s, w, e).Some? && !e.WriteTest?
    ensures Permits(WriteStep(s, w, e).value)
  {
    OneWriteKeepsPermits(s, WriteStep(s, w, e).value, w);
  }

  lemma SubmitKeepsPermits(s: State, w: nat, e: SubmitEvent)
    requires Permits(s) && SubmitStep(s, w, e).Some?
    ensures Permits(SubmitStep(s, w, e).value)
  {
    OneWriteKeepsPermits(s, SubmitStep(s, w, e).value, w);
  }

  lemma CallbackKeepsPermits(s: State, w: nat, e: CallbackEvent)
    requires Permits(s) && CallbackStep(s, w, e).Some?
    ensures Permits(CallbackStep(s, w, e).value)
  {
    OneWriteKeepsPermits(s, CallbackStep(s, w, e).value, w);
  }

  lemma PermitsKept(s: State, e: Event)
    requires Permits(s) && Lifetime(s) && Step(s, e).Some?
    ensures Permits(Step(s, e).value)
  {
    match e
    case Life(l) => LifeTouches(s, l);
    case WriteBy(w, x) => if x.WriteTest? { TestKeepsPermits(s, w); } else { WriteKeepsPermits(s, w, x); }
    case Submit(w, x) => SubmitKeepsPermits(s, w, x);
    case Callback(w, x) => CallbackKeepsPermits(s, w, x);
    case Drain(d) => DrainTouches(s, d);
    case Read(r) => ReadTouches(s, r);
    case Io(i) => IoTouches(s, i);
    case Bus(b) => BusTouches(s, b);
  }

  // ---------------------------------------------------------------- references and the mutex

  /** A step of a write call outside io_mutex disturbs nobody else. */
  lemma QuietWrite(s: State, t: State, w: nat)
    requires Lifetime(s) && Mutex(s) && Wrote(s, t, w) && t.ioMutex == s.ioMutex != Writing(w)
    requires w !in s.writes ==> s.handles != {}
    requires w in s.writes ==> !Flying(s.writes[w].pc) && s.writes[w].pc != Done && t.writes[w].h == s.writes[w].h
    requires t.writes[w].h in s.handles && t.writes[w].pc !in {Locked, Ready, Gone} && !Flying(t.writes[w].pc)
    ensures Lifetime(t) && Mutex(t)
  {
  }

  lemma WriteIsQuiet(s: State, w: nat, e: WriteEvent)
    requires Lifetime(s) && Mutex(s) && WriteStep(s, w, e).Some? && !e.WriteTest?
    ensures Lifetime(WriteStep(s, w, e).value) && Mutex(WriteStep(s, w, e).value)
  {
    WriteTouches(s, w, e);
    assert w in s.writes ==> WriteOk(s, w);
    QuietWrite(s, WriteStep(s, w, e).value, w);
  }

  lemma TestIsQuiet(s: State, w: nat)
    requires Lifetime(s) && Mutex(s) && WriteStep(s, w, WriteTest).Some?
    ensures Lifetime(WriteStep(s, w, WriteTest).value) && Mutex(WriteStep(s, w, WriteTest).value)
  {
    WriteTouches(s, w, WriteTest);
    assert WriteOk(s, w);
    QuietWrite(s, WriteStep(s, w, WriteTest).value, w);
  }

  /** Opening and releasing move a handle and the reference that goes with it. */
  lemma HandleKeepsControl(s: State, e: LifeEvent)
    requires Lifetime(s) && Mutex(s) && LifeStep(s, e).Some? && (e.Open? || e.Release?)
    ensures Lifetime(LifeStep(s, e).value) && Mutex(LifeStep(s, e).value)
  {
    var t := LifeStep(s, e).value;
    LifeTouches(s, e);
    forall w | w in t.writes ensures WriteOk(t, w) { assert WriteOk(s, w); }
  }

  lemma LifeKeepsLifetime(s: State, e: LifeEvent)
    requires Lifetime(s) && Mutex(s) && LifeStep(s, e).Some? && !e.Open? && !e.Release?
    ensures Lifetime(LifeStep(s, e).value)
  {
    LifeTouches(s, e);
  }

  lemma LifeKeepsMutex(s: State, e: LifeEvent)
    requires Lifetime(s) && Mutex(s) && LifeStep(s, e).Some? && !e.Open? && !e.Release?
    ensures Mutex(LifeStep(s, e).value)
  {
    var t := LifeStep(s, e).value;
    LifeTouches(s, e);
    forall w | w in t.writes ensures WriteOk(t, w) { assert WriteOk(s, w); }
  }

  lemma ReadKeepsControl(s: State, e: ReadEvent)
    requires Lifetime(s) && Mutex(s) && ReadStep(s, e).Some?
    ensures Lifetime(ReadStep(s, e).value) && Mutex(ReadStep(s, e).value)
  {
    ReadTouches(s, e);
  }

  lemma IoKeepsControl(s: State, e: IoEvent)
    requires Lifetime(s) && Mutex(s) && IoStep(s, e).Some?
    ensures Lifetime(IoStep(s, e).value) && Mutex(IoStep(s, e).value)
  {
    IoTouches(s, e);
  }

  lemma SubmitKeepsControl(s: State, w: nat, e: SubmitEvent)
    requires Lifetime(s) && Mutex(s) && SubmitStep(s, w, e).Some?
    ensures Lifetime(SubmitStep(s, w, e).value) && Mutex(SubmitStep(s, w, e).value)
  {
    SubmitTouches(s, w, e);
  }

  lemma CallbackKeepsControl(s: State, w: nat, e: CallbackEvent)
    requires Lifetime(s) && Mutex(s) && CallbackStep(s, w, e).Some?
    ensures Lifetime(CallbackStep(s, w, e).value) && Mutex(CallbackStep(s, w, e).value)
  {
    CallbackTouches(s, w, e);
  }

  lemma BusKeepsControl(s: State, e: BusEvent)
    requires Lifetime(s) && Mutex(s) && BusStep(s, e).Some?
    ensures Lifetime(BusStep(s, e).value) && Mutex(BusStep(s, e).value)
  {
    BusTouches(s, e);
  }

  lemma DrainKeepsControl(s: State, e: DrainEvent)
    requires Lifetime(s) && Mutex(s) && DrainStep(s, e).Some?
    ensures Lifetime(DrainStep(s, e).value) && Mutex(DrainStep(s, e).value)
  {
    DrainTouches(s, e);
  }

  lemma ControlKept(s: State, e: Event)
    requires Lifetime(s) && Mutex(s) && Step(s, e).Some?
    ensures Lifetime(Step(s, e).value) && Mutex(Step(s, e).value)
  {
    match e
    case Life(l) =>
      if l.Open? || l.Release? {
        HandleKeepsControl(s, l);
      } else {
        LifeKeepsLifetime(s, l);
        LifeKeepsMutex(s, l);
      }
    case Read(r) => ReadKeepsControl(s, r);
    case Io(i) => IoKeepsControl(s, i);
    case WriteBy(w, x) => if x.WriteTest? { TestIsQuiet(s, w); } else { WriteIsQuiet(s, w, x); }
    case Submit(w, x) => SubmitKeepsControl(s, w, x);
    case Callback(w, x) => CallbackKeepsControl(s, w, x);
    case Bus(b) => BusKeepsControl(s, b);
    case Drain(d) => DrainKeepsControl(s, d);
  }

  // ---------------------------------------------------------------- errors

  lemma TakenLastTwice(taken: seq<Take>, t: Take)
    ensures TakenTwice(taken + [t]) <==> TakenTwice(taken) || IsTaken(taken, t.id)
    ensures forall id :: IsTaken(taken + [t], id) <==> IsTaken(taken, id) || id == t.id
  {
    var all := taken + [t];
    if TakenTwice(taken) {
      var i, j :| 0 <= i < j < |taken| && taken[i].id == taken[j].id;
      assert all[i].id == all[j].id;
    }
    if IsTaken(taken, t.id) {
      var i :| 0 <= i < |taken| && taken[i].id == t.id;
      assert all[i].id == all[|taken|].id;
    }
    forall id ensures IsTaken(all, id) <==> IsTaken(taken, id) || id == t.id {
      assert all[|taken|] == t;
      if IsTaken(taken, id) {
        var i :| 0 <= i < |taken| && taken[i].id == id;
        assert all[i].id == id;
      }
    }
  }

  /** Storing a new value in errors keeps the books. */
  lemma RecordKeepsErrors(s: State, value: int)
    requires Errors(s) && value < 0
    ensures Errors(Record(s, value))
  {
    var t := Record(s, value);
    forall i | 0 <= i < |t.err.taken| ensures TakeOk(t, t.err.taken[i]) && t.err.taken[i].id < |s.err.recorded| {
      assert TakeOk(s, s.err.taken[i]);
    }
  }

  /** Reporting the pending error under err_lock repeats nothing. */
  lemma TakeKeepsErrors(s: State, taker: Taker, raced: bool)
    requires Errors(s)
    requires raced <==> s.err.raced || (s.err.errors < 0 && s.ioMutex.Reading? && s.ioMutex.read.ClearError?
                                    && s.ioMutex.read.id == s.err.errId)
    ensures Errors(Raced(TakeError(s, taker), raced))
  {
    if s.err.errors < 0 {
      TakenLastTwice(s.err.taken, Take(s.err.errId, Report(s.err.errors), taker));
    }
  }

  /** Only the fields the books read matter. */
  lemma ErrorsFrame(s: State, t: State)
    requires Errors(s) && SameReader(s, t)
    requires t.err == s.err
    ensures Errors(t)
  {
    forall i | 0 <= i < |t.err.taken| ensures TakeOk(t, t.err.taken[i]) { assert TakeOk(s, s.err.taken[i]); }
  }

  lemma LifeKeepsErrors(s: State, e: LifeEvent)
    requires Lifetime(s) && Errors(s) && LifeStep(s, e).Some?
    ensures Errors(LifeStep(s, e).value)
  {
    LifeTouches(s, e);
    ErrorsFrame(s, LifeStep(s, e).value);
  }

  lemma ClearKeepsErrors(s: State)
    requires Errors(s) && ReadStep(s, ReadClear).Some?
    ensures Errors(ReadStep(s, ReadClear).value)
  {
    TakenLastTwice(s.err.taken, Take(s.ioMutex.read.id, Report(s.ioMutex.read.value), ByRead));
  }

  lemma ReadKeepsErrors(s: State, e: ReadEvent)
    requires Errors(s) && ReadStep(s, e).Some? && !e.ReadClear?
    ensures Errors(ReadStep(s, e).value)
  {
    var t := ReadStep(s, e).value;
    assert t.err.taken == s.err.taken && t.err.recorded == s.err.recorded && t.err.errors == s.err.errors;
  }

  lemma IoKeepsErrors(s: State, e: IoEvent)
    requires Errors(s) && IoStep(s, e).Some?
    ensures Errors(IoStep(s, e).value)
  {
    var t := IoStep(s, e).value;
    assert t.err == s.err;
  }

  lemma SubmitKeepsErrors(s: State, w: nat, e: SubmitEvent)
    requires Errors(s) && SubmitStep(s, w, e).Some?
    ensures Errors(SubmitStep(s, w, e).value)
  {
    SubmitTouches(s, w, e);
    ErrorsFrame(s, SubmitStep(s, w, e).value);
  }

  lemma TestKeepsErrors(s: State, w: nat)
    requires Errors(s) && WriteStep(s, w, WriteTest).Some?
    ensures Errors(WriteStep(s, w, WriteTest).value)
  {
    var t := WriteStep(s, w, WriteTest).value;
    if s.err.errors < 0 {
      TakeKeepsErrors(s, ByWrite, t.err.raced);
      ErrorsFrame(Raced(TakeError(s, ByWrite), t.err.raced), t);
    } else {
      ErrorsFrame(s, t);
    }
  }

  lemma WriteKeepsErrors(s: State, w: nat, e: WriteEvent)
    requires Errors(s) && WriteStep(s, w, e).Some? && !e.WriteTest?
    ensures Errors(WriteStep(s, w, e).value)
  {
    ErrorsFrame(s, WriteStep(s, w, e).value);
  }

  lemma CallbackKeepsErrors(s: State, w: nat, e: CallbackEvent)
    requires Errors(s) && CallbackStep(s, w, e).Some?
    ensures Errors(CallbackStep(s, w, e).value)
  {
    var t := CallbackStep(s, w, e).value;
    if e.CallbackStatus? && e.status < 0 {
      RecordKeepsErrors(s, e.status);
      ErrorsFrame(Record(s, e.status), t);
    } else {
      ErrorsFrame(s, t);
    }
  }

  lemma BusKeepsErrors(s: State, e: BusEvent)
    requires Errors(s) && BusStep(s, e).Some?
    ensures Errors(BusStep(s, e).value)
  {
    var t := BusStep(s, e).value;
    if e.InCallback? && e.status < 0 {
      RecordKeepsErrors(s, e.status);
      ErrorsFrame(Record(s, e.status), t);
    } else {
      ErrorsFrame(s, t);
    }
  }

  lemma DrainKeepsErrors(s: State, e: DrainEvent)
    requires Errors(s) && DrainStep(s, e).Some?
    ensures Errors(DrainStep(s, e).value)
  {
    var t := DrainStep(s, e).value;
    if e.SettleErrors? {
      if s.ioMutex.Flushing? {
        TakeKeepsErrors(s, ByFlush, s.err.raced);
        ErrorsFrame(TakeError(s, ByFlush), t);
      } else {
        RecordKeepsErrors(s, -EPIPE);
        ErrorsFrame(Record(s, -EPIPE), t);
      }
    } else {
      ErrorsFrame(s, t);
    }
  }

  lemma ErrorsKept(s: State, e: Event)
    requires Lifetime(s) && Errors(s) && Step(s, e).Some?
    ensures Errors(Step(s, e).value)
  {
    match e
    case Life(l) => LifeKeepsErrors(s, l);
    case Read(r) => if r.ReadClear? { ClearKeepsErrors(s); } else { ReadKeepsErrors(s, r); }
    case Io(i) => IoKeepsErrors(s, i);
    case WriteBy(w, x) => if x.WriteTest? { TestKeepsErrors(s, w); } else { WriteKeepsErrors(s, w, x); }
    case Submit(w, x) => SubmitKeepsErrors(s, w, x);
    case Callback(w, x) => CallbackKeepsErrors(s, w, x);
    case Bus(b) => BusKeepsErrors(s, b);
    case Drain(d) => DrainKeepsErrors(s, d);
  }

  // ---------------------------------------------------------------- every run

  /** Every step keeps every invariant. */
  lemma InvKept(s: State, e: Event)
    requires Inv(s) && Step(s, e).Some?
    ensures Inv(Step(s, e).value)
  {
    DataKept(s, e);
    ControlKept(s, e);
    PermitsKept(s, e);
    ErrorsKept(s, e);
  }

  lemma AllSteps()
    ensures forall t, e :: Inv(t) && Step(t, e).Some? ==> Inv(Step(t, e).value)
  {
    forall t, e | Inv(t) && Step(t, e).Some? ensures Inv(Step(t, e).value) { InvKept(t, e); }
  }
}
