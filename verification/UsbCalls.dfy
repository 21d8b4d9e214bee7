/** What one call on the USB skeleton driver does for its caller. */
module UsbCalls {
  import opened Common
  import opened Runs
  import opened UsbSkeleton
  import opened UsbInvariant
  import opened UsbSafety

  // ---------------------------------------------------------------- reads

  /**
   * With unread bytes in the buffer a read takes one chunk, the next bytes as far as they go and
   * as many as it was asked for, and then starts I/O for the rest, if any, without waiting.
   */
  lemma ReadTakesNextBytes(s: State, fault: bool)
    requires Seen(s) && s.bulkIn.copied < s.bulkIn.filled && Step(s, Read(ReadData(fault))).Some?
    ensures var t, from, count := Step(s, Read(ReadData(fault))).value, s.bulkIn.copied, s.ioMutex.count;
            var n := Min(s.bulkIn.filled - from, count);
            && 0 < n && from + n <= |s.bulkIn.buffer|
            && t.bulkIn.chunks == s.bulkIn.chunks + [Chunk(s.bulkIn.buffer[from..from + n], !fault)]
            && t.bulkIn.copied == from + n
            && t.ioMutex.Reading? && t.ioMutex.read == if n < count then MarkIo(count - n, false) else Unlock
  {
    SeenInv(s);
  }

  /** Without, it takes none, and starts I/O for all it was asked for and waits. */
  lemma ReadOfNothingStartsIo(s: State, fault: bool)
    requires Seen(s) && s.bulkIn.copied == s.bulkIn.filled && Step(s, Read(ReadData(fault))).Some?
    ensures var t := Step(s, Read(ReadData(fault))).value;
            t.bulkIn == s.bulkIn && t.ioMutex.Reading? && t.ioMutex.read == MarkIo(s.ioMutex.count, true)
  {
  }

  /** The URB asks for what the read wants and the buffer holds. */
  lemma RequestLength(s: State)
    requires Step(s, Io(IoSubmit(true))).Some?
    ensures var t := Step(s, Io(IoSubmit(true))).value;
            t.bulkIn.inFlight && t.bulkIn.inLen == Min(|s.bulkIn.buffer|, s.ioMutex.read.len)
  {
  }

  /** While a read is under way, a nonblocking one gives up, and only a blocking one waits. */
  lemma OnlyBlockingReadsWait(s: State)
    requires Seen(s) && s.ioMutex.Reading? && s.ioMutex.read == Retry && s.bulkIn.ongoingRead
    ensures Step(s, Read(ReadRetry)).Some?
    ensures Step(s, Read(ReadRetry)).value == At(s, if s.ioMutex.nonblock then Unlock else Wait)
  {
  }

  /** A read of len bytes is about to be started, or has been, or could not be. */
  predicate Starting(pc: ReadPc, len: nat, wait: bool) {
    match pc
    case MarkIo(l, w) => l == len && w == wait
    case ZeroIo(l, w) => l == len && w == wait
    case SubmitIo(l, w) => l == len && w == wait
    case SubmitFailed => true
    case Unlock => true
    case _ => false
  }

  /** Where a call stands that has taken nothing so far. */
  predicate Looking(pc: ReadPc, count: nat) {
    pc in {Check, Retry, Wait, TestError, Data} || pc.ClearError? || Starting(pc, count, true)
  }

  /** How far the call that started with the chunks `before` has got. */
  ghost predicate During(before: seq<Chunk>, call: Owner, t: State)
    requires call.Reading?
  {
    && t.ioMutex.Reading? && t.ioMutex == call.(read := t.ioMutex.read)
    && if t.bulkIn.chunks == before then Looking(t.ioMutex.read, call.count)
       else OneMore(before, t.bulkIn.chunks, call.count)
            && Starting(t.ioMutex.read, call.count - |t.bulkIn.chunks[|before|].data|, false)
  }

  /** One chunk more, of at most count bytes and at least one. */
  predicate OneMore(before: seq<Chunk>, after: seq<Chunk>, count: nat) {
    |after| == |before| + 1 && after[..|before|] == before && 0 < |after[|before|].data| <= count
  }

  lemma ReadStays(before: seq<Chunk>, call: Owner, s: State, e: ReadEvent)
    requires call.Reading? && Inv(s) && During(before, call, s) && ReadStep(s, e).Some? && !e.ReadUnlock?
    ensures During(before, call, ReadStep(s, e).value)
  {
    var t := ReadStep(s, e).value;
    if e.ReadData? && t.bulkIn.chunks != s.bulkIn.chunks {
      assert s.bulkIn.chunks == before && t.bulkIn.chunks[..|before|] == before;
    }
  }

  lemma IoStays(before: seq<Chunk>, call: Owner, s: State, e: IoEvent)
    requires call.Reading? && During(before, call, s) && IoStep(s, e).Some?
    ensures During(before, call, IoStep(s, e).value)
  {
    assert IoStep(s, e).value.bulkIn.chunks == s.bulkIn.chunks;
  }

  lemma OthersStay(before: seq<Chunk>, call: Owner, s: State, e: Event)
    requires call.Reading? && Inv(s) && During(before, call, s) && Step(s, e).Some? && !e.Read? && !e.Io?
    ensures During(before, call, Step(s, e).value)
  {
    var t := Step(s, e).value;
    match e
    case Life(l) => LifeTouches(s, l);
    case WriteBy(w, x) => WriteTouches(s, w, x);
    case Submit(w, x) => SubmitTouches(s, w, x);
    case Callback(w, x) => CallbackTouches(s, w, x);
    case Bus(b) => assert t.bulkIn.chunks == s.bulkIn.chunks && t.ioMutex == s.ioMutex;
    case Drain(d) => DrainTouches(s, d);
  }

  lemma StepStays(before: seq<Chunk>, call: Owner, s: State, e: Event)
    requires call.Reading? && Inv(s) && During(before, call, s) && Step(s, e).Some? && e != Read(ReadUnlock)
    ensures During(before, call, Step(s, e).value)
  {
    match e
    case Read(r) => ReadStays(before, call, s, r);
    case Io(i) => IoStays(before, call, s, i);
    case _ => OthersStay(before, call, s, e);
  }

  lemma {:induction false} CallStays(before: seq<Chunk>, call: Owner, s: State, es: seq<Event>)
    requires call.Reading? && Inv(s) && During(before, call, s)
    requires Run(Step, s, es).Some? && Read(ReadUnlock) !in es
    ensures During(before, call, Run(Step, s, es).value)
    decreases |es|
  {
    if es != [] {
      InvKept(s, es[0]);
      StepStays(before, call, s, es[0]);
      CallStays(before, call, Step(s, es[0]).value, es[1..]);
    }
  }

  /**
   * From taking io_mutex to giving it back, whatever everybody else does meanwhile, a read call
   * takes at most one chunk out of the buffer, of at most the bytes it was asked for.
   */
  lemma ReadTakesAtMostItsCount(s: State, es: seq<Event>)
    requires Seen(s) && s.ioMutex.Reading? && s.ioMutex.read == Check
    requires Run(Step, s, es).Some? && Read(ReadUnlock) !in es
    ensures var t, before := Run(Step, s, es).value, s.bulkIn.chunks;
            && t.ioMutex.Reading? && t.ioMutex == s.ioMutex.(read := t.ioMutex.read)
            && (t.bulkIn.chunks == before
                || (|t.bulkIn.chunks| == |before| + 1 && t.bulkIn.chunks[..|before|] == before
                    && 0 < |t.bulkIn.chunks[|before|].data| <= s.ioMutex.count))
  {
    SeenInv(s);
    CallStays(s.bulkIn.chunks, s.ioMutex, s, es);
  }

  // ---------------------------------------------------------------- reads that get their bytes

  /** The device is at rest for readers: nobody holds io_mutex, no error waits, no read goes on. */
  predicate AtRest(s: State, h: nat) {
    && s.ioMutex == Nobody && h in s.handles && !s.disconnected
    && s.err.errors == 0 && !s.bulkIn.ongoingRead
  }

  /** A read looks at the buffer. */
  lemma ReadLooks(start: State, s: State, h: nat, count: nat, nonblock: bool) returns (t: State)
    requires Reachable(Step, start, s) && AtRest(s, h) && count > 0
    ensures Reachable(Step, start, t) && t == s.(ioMutex := Reading(h, count, nonblock, Data))
  {
    t := ReachStep(Step, start, s, Read(ReadLock(h, count, nonblock)));
    t := ReachStep(Step, start, t, Read(ReadCheck));
    t := ReachStep(Step, start, t, Read(ReadRetry));
    t := ReachStep(Step, start, t, Read(ReadTest));
  }

  /** A read that finds as many bytes as it wants returns them at once, blocking or not. */
  lemma ReadOfWaitingBytes(start: State, s: State, h: nat, count: nat, nonblock: bool) returns (t: State)
    requires Reachable(Step, start, s) && AtRest(s, h) && Inv(s)
    requires 0 < count <= s.bulkIn.filled - s.bulkIn.copied
    ensures s.bulkIn.filled <= |s.bulkIn.buffer|
    ensures var from := s.bulkIn.copied;
            && Reachable(Step, start, t) && AtRest(t, h)
            && t.bulkIn.chunks == s.bulkIn.chunks + [Chunk(s.bulkIn.buffer[from..from + count], true)]
            && t.bulkIn.copied == from + count
  {
    t := ReadLooks(start, s, h, count, nonblock);
    t := ReachStep(Step, start, t, Read(ReadData(false)));
    assert t.ioMutex == Reading(h, count, nonblock, Unlock);
    t := ReachStep(Step, start, t, Read(ReadUnlock));
  }

  /** A blocking read of a used-up buffer starts I/O and waits for it. */
  lemma BlockingReadWaits(start: State, s: State, h: nat, count: nat) returns (t: State)
    requires Reachable(Step, start, s) && AtRest(s, h) && s.bulkIn.copied == s.bulkIn.filled && count > 0
    ensures Reachable(Step, start, t) && t.ioMutex == Reading(h, count, false, Wait) && t.err == s.err
    ensures t.bulkIn == s.bulkIn.(filled := 0, copied := 0, ongoingRead := true, inFlight := true,
                                  inLen := Min(|s.bulkIn.buffer|, count))
  {
    t := ReadLooks(start, s, h, count, false);
    t := ReachStep(Step, start, t, Read(ReadData(false)));
    t := ReachStep(Step, start, t, Io(IoMark));
    t := ReachStep(Step, start, t, Io(IoZero));
    t := ReachStep(Step, start, t, Io(IoSubmit(true)));
    t := ReachStep(Step, start, t, Read(ReadRetry));
  }

  /** The bus brings data, and wakes it. */
  lemma WaitingReadWakes(start: State, s: State, data: seq<byte>) returns (t: State)
    requires Reachable(Step, start, s) && s.err.errors == 0
    requires s.ioMutex.Reading? && s.ioMutex.read == Wait && s.bulkIn.inFlight
    requires |data| <= s.bulkIn.inLen <= |s.bulkIn.buffer|
    ensures Reachable(Step, start, t) && t.ioMutex == s.ioMutex.(read := Data)
    ensures t.bulkIn.chunks == s.bulkIn.chunks && t.bulkIn.copied == s.bulkIn.copied && t.bulkIn.filled == |data|
    ensures t.bulkIn.buffer == Splice(s.bulkIn.buffer, 0, data)
  {
    t := ReachStep(Step, start, s, Bus(InCallback(0, data)));
    t := ReachStep(Step, start, t, Read(ReadWake));
    t := ReachStep(Step, start, t, Read(ReadTest));
  }

  /** And the read returns what the bus brought. */
  lemma BlockingReadReturns(start: State, s: State, h: nat, count: nat, data: seq<byte>) returns (t: State)
    requires Reachable(Step, start, s) && AtRest(s, h) && s.bulkIn.copied == s.bulkIn.filled
    requires 0 < |data| <= count && |data| <= |s.bulkIn.buffer|
    ensures Reachable(Step, start, t) && t.ioMutex.Reading?
    ensures t.bulkIn.chunks == s.bulkIn.chunks + [Chunk(data, true)]
    ensures t.ioMutex.read == if |data| < count then MarkIo(count - |data|, false) else Unlock
  {
    t := BlockingReadWaits(start, s, h, count);
    t := WaitingReadWakes(start, t, data);
    SpliceHead(s.bulkIn.buffer, data);
    t := ReachStep(Step, start, t, Read(ReadData(false)));
  }

  // ---------------------------------------------------------------- writes that end

  /** A write whose URB cannot be submitted frees its buffer, gives back its permit, and is done. */
  lemma FailedSubmit(start: State, s: State, w: nat) returns (t: State)
    requires Reachable(Step, start, s) && s.ioMutex == Writing(w) && w in s.writes && s.writes[w].pc == Ready
    ensures Reachable(Step, start, t)
    ensures var x := s.writes[w];
            t == s.(writes := s.writes[w := Write(x.h, Done, x.allocs, x.frees + 1)], limitSem := s.limitSem + 1,
                    ioMutex := Nobody)
  {
    t := ReachStep(Step, start, s, Submit(w, SubmitUrb(false)));
    t := FailedWrite(start, t, w);
    assert t.writes == s.writes[w := t.writes[w]];
  }

  lemma FailedWrite(start: State, s: State, w: nat) returns (t: State)
    requires Reachable(Step, start, s) && s.ioMutex == Writing(w) && w in s.writes && s.writes[w].pc == Gone
    ensures Reachable(Step, start, t)
    ensures var x := s.writes[w];
            t == s.(writes := s.writes[w := Write(x.h, Done, x.allocs, x.frees + 1)], limitSem := s.limitSem + 1,
                    ioMutex := Nobody)
  {
    t := ReachStep(Step, start, s, Submit(w, SubmitUnlock));
    t := ReachStep(Step, start, t, WriteBy(w, WriteFree));
    t := ReachStep(Step, start, t, WriteBy(w, WriteUp));
    assert t.writes == s.writes[w := t.writes[w]];
  }

  /** One in flight is ended by its callback, which frees the buffer and gives back the permit. */
  lemma CompletedWrite(start: State, s: State, w: nat) returns (t: State)
    requires Reachable(Step, start, s) && w in s.writes && s.writes[w].pc == InFlight
    ensures Reachable(Step, start, t)
    ensures var x := s.writes[w];
            t == s.(writes := s.writes[w := Write(x.h, Done, x.allocs, x.frees + 1)], limitSem := s.limitSem + 1)
  {
    t := ReachStep(Step, start, s, Callback(w, CallbackStatus(0)));
    t := ReachStep(Step, start, t, Callback(w, CallbackFree));
    t := ReachStep(Step, start, t, Callback(w, CallbackUp));
    assert t.writes == s.writes[w := t.writes[w]];
  }

  /** A write that has no permit yet can be interrupted, or refused, and leaves nothing behind. */
  lemma WriteGivesUp(s: State, w: nat)
    requires Seen(s) && w in s.writes && s.writes[w].pc == Entered
    ensures Step(s, WriteBy(w, WriteGiveUp)).Some?
    ensures var t := Step(s, WriteBy(w, WriteGiveUp)).value;
            t == s.(writes := s.writes[w := Write(s.writes[w].h, Done, 0, 0)])
  {
    SeenInv(s);
    assert BufferOk(s.writes[w]);
  }

  // ---------------------------------------------------------------- nobody is stuck

  /** The call of write w, or its callback, has a step to make, unless it waits for io_mutex. */
  lemma WriteMoves(s: State, w: nat) returns (e: Event)
    requires Seen(s) && w in s.writes && s.writes[w].pc != Done
    requires s.writes[w].pc == Filled ==> s.ioMutex == Nobody
    ensures Step(s, e).Some?
    ensures match e
            case WriteBy(v, _) => v == w
            case Submit(v, _) => v == w
            case Callback(v, _) => v == w
            case _ => false
  {
    SeenInv(s);
    assert WriteOk(s, w);
    match s.writes[w].pc
    case Entered => e := WriteBy(w, WriteGiveUp);
    case Permitted => e := WriteBy(w, WriteTest);
    case Tested => e := WriteBy(w, WriteAlloc(Copied));
    case Filled => e := Submit(w, SubmitLock);
    case Locked => e := Submit(w, SubmitCheck);
    case Ready => e := Submit(w, SubmitUrb(true));
    case Gone => e := Submit(w, SubmitUnlock);
    case InFlight => e := Callback(w, CallbackStatus(0));
    case Called => e := Callback(w, CallbackFree);
    case Freed => e := Callback(w, CallbackUp);
    case Failed(_) => e := WriteBy(w, WriteFree);
    case Releasing => e := WriteBy(w, WriteUp);
  }

  /** A read that holds io_mutex always has a step to make: even the one that waits can be interrupted. */
  lemma ReadMoves(s: State) returns (e: Event)
    requires Seen(s) && s.ioMutex.Reading?
    ensures Step(s, e).Some? && (e.Read? || e.Io?)
  {
    SeenInv(s);
    match s.ioMutex.read
    case Check => e := Read(ReadCheck);
    case Retry => e := Read(ReadRetry);
    case Wait => e := Read(ReadSignal);
    case TestError => e := Read(ReadTest);
    case ClearError(_, _) => e := Read(ReadClear);
    case Data => e := Read(ReadData(false));
    case MarkIo(_, _) => e := Io(IoMark);
    case ZeroIo(_, _) => e := Io(IoZero);
    case SubmitIo(_, _) => e := Io(IoSubmit(true));
    case SubmitFailed => e := Io(IoUnmark);
    case Unlock => e := Read(ReadUnlock);
  }

  /** So io_mutex is never held for good: its holder moves, or waits for URBs that are in flight. */
  lemma HolderMoves(s: State) returns (e: Event)
    requires Seen(s) && s.ioMutex != Nobody
    requires s.ioMutex.Flushing? || s.ioMutex.Resetting? ==>
               (Draining(s.ioMutex, DrainOut) ==> NothingFlies(s)) && (Draining(s.ioMutex, DrainIn) ==> InIdle(s))
    ensures Step(s, e).Some?
    ensures match s.ioMutex
            case Reading(_, _, _, _) => e.Read? || e.Io?
            case Writing(w) => e.Submit? && e.w == w
            case Flushing(_, _) => e.Drain?
            case Resetting(_) => e.Drain?
            case Disconnecting => e.Life?
            case Nobody => false
  {
    SeenInv(s);
    match s.ioMutex
    case Reading(_, _, _, _) => e := ReadMoves(s);
    case Writing(w) =>
      var pc := s.writes[w].pc;
      e := Submit(w, if pc == Locked then SubmitCheck else if pc == Ready then SubmitUrb(true) else SubmitUnlock);
    case Flushing(_, pc) => e := Drain(NextDrain(pc));
    case Resetting(pc) => e := Drain(NextDrain(pc));
    case Disconnecting => e := Life(if s.stage == Locking then DisconnectMark else DisconnectUnlock);
  }

  function NextDrain(pc: DrainPc): DrainEvent {
    match pc
    case DrainOut => OutEmpty
    case DrainIn => InEmpty
    case Settle => SettleErrors
    case Leave => DrainUnlock
  }

  /** The bulk-in URB in flight can be brought to an end, and its callback returns. */
  lemma BulkInEnds(s: State)
    requires Seen(s)
    ensures s.bulkIn.inFlight ==>
              var e := Bus(InCallback(0, []));
              Step(s, e).Some? && !Step(s, e).value.bulkIn.inFlight && !Step(s, e).value.bulkIn.ongoingRead
    ensures s.bulkIn.tails > 0 ==>
              Step(s, Bus(InReturn)).Some?
              && Step(s, Bus(InReturn)).value.bulkIn == s.bulkIn.(tails := s.bulkIn.tails - 1)
  {
    SeenInv(s);
  }

  /** An unused device that is unplugged is disconnected, killed off and deleted. */
  lemma Disconnects(start: State, s: State) returns (t: State)
    requires Reachable(Step, start, s) && s.stage == Bound && s.ioMutex == Nobody && s.kref == 1 && s.deletes == 0
    requires InIdle(s) && NothingFlies(s)
    ensures Reachable(Step, start, t)
    ensures t == s.(stage := Dropped, disconnected := true, kref := 0, deletes := 1)
  {
    t := Unplugged(start, s);
    t := ReachStep(Step, start, t, Life(KillIn));
    t := ReachStep(Step, start, t, Life(KillOut));
    t := ReachStep(Step, start, t, Life(Drop));
  }

  lemma Unplugged(start: State, s: State) returns (t: State)
    requires Reachable(Step, start, s) && s.stage == Bound && s.ioMutex == Nobody
    ensures Reachable(Step, start, t) && t == s.(stage := Unlocked, disconnected := true)
  {
    t := ReachStep(Step, start, s, Life(Deregister));
    t := ReachStep(Step, start, t, Life(DisconnectLock));
    t := ReachStep(Step, start, t, Life(DisconnectMark));
    t := ReachStep(Step, start, t, Life(DisconnectUnlock));
  }

  /** Opening takes a reference and closing an unused file gives it back. */
  lemma OpensAndCloses(start: State, s: State, h: nat) returns (t: State)
    requires Reachable(Step, start, s) && s.stage == Bound && h !in s.handles && Unused(s, h) && s.kref > 0
    ensures Reachable(Step, start, t) && t == s
    ensures Step(s, Life(Open(h))).Some? && Step(s, Life(Open(h))).value.kref == s.kref + 1
  {
    t := ReachStep(Step, start, s, Life(Open(h)));
    t := ReachStep(Step, start, t, Life(Release(h)));
    assert (s.handles + {h}) - {h} == s.handles;
  }

  // ---------------------------------------------------------------- errors

  /** A waiting error has been reported to this taker, and waits no more. */
  ghost predicate Reported(s: State, t: State, taker: Taker) {
    && s.err.errors < 0 && t.err.errors == 0 && t.err.recorded == s.err.recorded
    && t.err.taken == s.err.taken + [Take(s.err.errId, if s.err.errors == -EPIPE then -EPIPE else -EIO, taker)]
  }

  /** A flush reports the waiting error, if there is one, and leaves a clean slate. */
  lemma FlushReports(s: State)
    requires Seen(s) && s.ioMutex.Flushing? && Step(s, Drain(SettleErrors)).Some?
    ensures var t := Step(s, Drain(SettleErrors)).value;
            if s.err.errors < 0 then Reported(s, t, ByFlush) else t.err == s.err && t.err.errors == 0
  {
    SeenInv(s);
  }

  /** A reset records -EPIPE, for the next caller to be told. */
  lemma ResetRecords(s: State)
    requires Seen(s) && s.ioMutex.Resetting? && Step(s, Drain(SettleErrors)).Some?
    ensures var t := Step(s, Drain(SettleErrors)).value;
            && t.err.errors == -EPIPE && t.err.taken == s.err.taken
            && t.err.recorded == s.err.recorded + [-EPIPE] && t.err.errId == |s.err.recorded|
  {
  }

  /** A write reports the waiting error and submits nothing; without one it goes on. */
  lemma WriteReports(s: State, w: nat)
    requires Seen(s) && Step(s, WriteBy(w, WriteTest)).Some?
    ensures var t := Step(s, WriteBy(w, WriteTest)).value;
            && w in t.writes
            && if s.err.errors < 0 then Reported(s, t, ByWrite) && t.writes[w].pc == Failed(false)
               else t.err == s.err && t.writes[w].pc == Tested
  {
    SeenInv(s);
  }

  /** A read loads the waiting error, and what it has loaded it reports, and returns. */
  lemma ReadReports(s: State)
    requires Seen(s) && s.ioMutex.Reading? && s.ioMutex.read == TestError
    ensures Step(s, Read(ReadTest)).Some?
    ensures var t := Step(s, Read(ReadTest)).value;
            if s.err.errors < 0 then
              var u := Step(t, Read(ReadClear));
              u.Some? && Reported(s, u.value, ByRead) && u.value.ioMutex == s.ioMutex.(read := Unlock)
            else t == At(s, Data)
  {
    SeenInv(s);
  }

  /** A status other than 0 is recorded by the callback that gets it, and waits. */
  lemma CallbackRecords(s: State, e: Event, status: int)
    requires (e.Callback? && e.callback == CallbackStatus(status))
             || (e.Bus? && e.bus.InCallback? && e.bus.status == status)
    requires status < 0 && Step(s, e).Some?
    ensures var t := Step(s, e).value;
            && t.err.errors == status && t.err.errId == |s.err.recorded|
            && t.err.recorded == s.err.recorded + [status] && t.err.taken == s.err.taken
  {
  }
}
