/** What the invariants of the USB skeleton driver mean for its users and for the bus. */
module UsbSafety {
  import opened Common
  import opened Runs
  import opened UsbSkeleton
  import opened UsbInvariant

  /** Reachable by some run of the driver from probe on. */
  ghost predicate Seen(s: State) {
    exists buffer :: Reachable(Step, Init(buffer), s)
  }

  lemma SeenInv(s: State)
    requires Seen(s)
    ensures Inv(s)
  {
    var buffer :| Reachable(Step, Init(buffer), s);
    InitInv(buffer);
    AllSteps();
    ReachKeeps(Step, Inv, Init(buffer), s);
  }

  // ---------------------------------------------------------------- the bytes readers get

  /** What the read calls have returned to their callers. */
  function Returned(chunks: seq<Chunk>): seq<byte> {
    if chunks == [] then []
    else
      var c := chunks[|chunks| - 1];
      Returned(chunks[..|chunks| - 1]) + if c.ok then c.data else []
  }

  lemma {:induction false} ReturnedIsTaken(chunks: seq<Chunk>)
    requires forall c | c in chunks :: c.data != []
    ensures |Returned(chunks)| <= |TakenBytes(chunks)|
    ensures Returned(chunks) == TakenBytes(chunks) <==> forall c | c in chunks :: c.ok
    ensures |Returned(chunks)| == |TakenBytes(chunks)| ==> forall c | c in chunks :: c.ok
  {
    if chunks != [] {
      var before := chunks[..|chunks| - 1];
      ReturnedIsTaken(before);
      assert forall c :: c in chunks <==> c in before || c == chunks[|chunks| - 1];
    }
  }

  /**
   * The bytes returned by all reads, followed by what is left in the buffer, are the bytes
   * of all successful bulk-in completions, in order, exactly when no copy to a reader has
   * failed; the bytes taken out of the buffer always are.
   */
  lemma ReadersGetEveryByteOnce(s: State)
    requires Seen(s)
    ensures s.bulkIn.copied <= s.bulkIn.filled <= |s.bulkIn.buffer|
    ensures TakenBytes(s.bulkIn.chunks) + s.bulkIn.buffer[s.bulkIn.copied..s.bulkIn.filled] == s.bulkIn.completed
    ensures Returned(s.bulkIn.chunks) + s.bulkIn.buffer[s.bulkIn.copied..s.bulkIn.filled] == s.bulkIn.completed
            <==> forall c | c in s.bulkIn.chunks :: c.ok
  {
    SeenInv(s);
    ReturnedIsTaken(s.bulkIn.chunks);
    var residue := s.bulkIn.buffer[s.bulkIn.copied..s.bulkIn.filled];
    if Returned(s.bulkIn.chunks) + residue == s.bulkIn.completed {
      assert |Returned(s.bulkIn.chunks) + residue| == |TakenBytes(s.bulkIn.chunks) + residue|;
    }
  }

  /** The buffer is emptied only when used up, and the URB submitted only when it is not in flight. */
  lemma RefillOnlyWhenUsedUp(s: State, ok: bool)
    requires Seen(s)
    ensures Step(s, Io(IoZero)).Some? ==> s.bulkIn.copied == s.bulkIn.filled && !s.bulkIn.inFlight
    ensures Step(s, Io(IoSubmit(ok))).Some? ==> s.bulkIn.copied == s.bulkIn.filled == 0 && !s.bulkIn.inFlight
  {
    SeenInv(s);
  }

  // ---------------------------------------------------------------- references

  /**
   * kref counts the probe reference and the open files; skel_delete has run exactly when
   * both are gone, once, and then nothing is in flight and nobody holds the mutex.
   */
  lemma DeletedOnceAndLast(s: State)
    requires Seen(s)
    ensures s.kref == (if RefDropped(s.stage) then 0 else 1) + |s.handles|
    ensures s.deletes == if RefDropped(s.stage) && s.handles == {} then 1 else 0
    ensures s.deletes == 1 ==> InIdle(s) && NothingFlies(s) && s.ioMutex == Nobody
  {
    SeenInv(s);
    if s.deletes == 1 {
      assert s.handles == {};
      assert s.ioMutex.Writing? ==> WriteOk(s, s.ioMutex.w);
    }
  }

  /** After skel_delete no call, callback or bus event touches the device again. */
  lemma NothingRunsAfterDelete(s: State, e: Event)
    requires Seen(s) && s.deletes > 0
    ensures Step(s, e) == None
  {
    SeenInv(s);
    DeletedOnceAndLast(s);
    assert forall w | w in s.writes :: WriteOk(s, w) && s.writes[w].pc == Done;
  }

  // ---------------------------------------------------------------- disconnection

  /** Once disconnected is set, no read or write URB is submitted. */
  lemma NoSubmitOnceDisconnected(s: State, w: nat, ok: bool)
    requires Seen(s) && s.disconnected
    ensures Step(s, Io(IoMark)) == None && Step(s, Io(IoSubmit(ok))) == None
    ensures Step(s, Submit(w, SubmitUrb(ok))) == None
  {
    SeenInv(s);
    assert w in s.writes ==> WriteOk(s, w);
  }

  predicate Killed(s: State) { s.stage in {OutKilled, Dropped} }

  /** After the two kills nothing is in flight, now or in any later state. */
  lemma QuietAfterKills(s: State, t: State)
    requires Seen(s) && Killed(s) && Reachable(Step, s, t)
    ensures Killed(t) && t.disconnected && InIdle(t) && NothingFlies(t)
  {
    SeenInv(s);
    var inv := (x: State) => Inv(x) && Killed(x);
    forall x, e | inv(x) && Step(x, e).Some? ensures inv(Step(x, e).value) {
      InvKept(x, e);
      StaysKilled(x, e);
    }
    ReachKeeps(Step, inv, s, t);
  }

  lemma StaysKilled(s: State, e: Event)
    requires Inv(s) && Killed(s) && Step(s, e).Some?
    ensures Killed(Step(s, e).value)
  {
    match e
    case Life(l) =>
    case Read(r) => ReadTouches(s, r);
    case Io(i) => IoTouches(s, i);
    case WriteBy(w, x) => WriteTouches(s, w, x);
    case Submit(w, x) => SubmitTouches(s, w, x);
    case Callback(w, x) => CallbackTouches(s, w, x);
    case Bus(b) => BusTouches(s, b);
    case Drain(d) => DrainTouches(s, d);
  }

  /** When flush reads the errors, or post_reset stores its own, no URB is active. */
  lemma SettledMeansIdle(s: State)
    requires Seen(s) && Step(s, Drain(SettleErrors)).Some?
    ensures InIdle(s) && NothingFlies(s)
  {
    SeenInv(s);
  }

  // ---------------------------------------------------------------- writes

  ghost function CallsHolding(s: State): set<nat> {
    set w | w in s.writes && HoldsPermit(s.writes[w].pc) && !Flying(s.writes[w].pc)
  }

  ghost function AwaitingCallback(s: State): set<nat> {
    set w | w in s.writes && Flying(s.writes[w].pc)
  }

  /** The permits are the semaphore's count, the calls that hold one, and the URBs in flight. */
  lemma EightPermits(s: State)
    requires Seen(s)
    ensures s.limitSem + |CallsHolding(s)| + |AwaitingCallback(s)| == WRITES_IN_FLIGHT
  {
    SeenInv(s);
    assert Holders(s.writes) == CallsHolding(s) + AwaitingCallback(s);
    assert CallsHolding(s) !! AwaitingCallback(s);
  }

  /** Every write buffer is freed exactly once by the time its write is done, and never twice. */
  lemma BuffersFreedOnce(s: State, w: nat)
    requires Seen(s) && w in s.writes
    ensures s.writes[w].frees <= s.writes[w].allocs <= 1
    ensures s.writes[w].pc == Done ==> s.writes[w].frees == s.writes[w].allocs
    ensures Flying(s.writes[w].pc) ==> s.writes[w].allocs == 1
    ensures s.writes[w].pc in {InFlight, Called} ==> s.writes[w].frees == 0
  {
    SeenInv(s);
    assert BufferOk(s.writes[w]);
  }

  // ---------------------------------------------------------------- error reports

  /** errors is never positive, and a report says -EPIPE exactly for a recorded -EPIPE. */
  lemma ReportsAreRight(s: State)
    requires Seen(s)
    ensures s.err.errors <= 0
    ensures forall i | 0 <= i < |s.err.taken| ::
              && s.err.taken[i].id < |s.err.recorded| && s.err.recorded[s.err.taken[i].id] < 0
              && s.err.taken[i].report in {-EPIPE, -EIO}
              && (s.err.taken[i].report == -EPIPE <==> s.err.recorded[s.err.taken[i].id] == -EPIPE)
  {
    SeenInv(s);
    forall i | 0 <= i < |s.err.taken| ensures TakeOk(s, s.err.taken[i]) {}
  }

  /**
   * The schedule that spoils "any error is reported once": a write looks at errors, under
   * err_lock, while a read that has loaded the same record has not cleared it yet.
   */
  predicate RaceStep(s: State, e: Event) {
    && e.WriteBy? && e.write.WriteTest?
    && e.w in s.writes && s.writes[e.w].pc == Permitted
    && s.err.errors < 0 && s.ioMutex.Reading? && s.ioMutex.read.ClearError? && s.ioMutex.read.id == s.err.errId
  }

  ghost predicate Races(s: State, es: seq<Event>)
    requires Run(Step, s, es).Some?
    decreases |es|
  {
    es != [] && (RaceStep(s, es[0]) || Races(Step(s, es[0]).value, es[1..]))
  }

  lemma WriteRaces(s: State, w: nat, e: WriteEvent)
    requires WriteStep(s, w, e).Some?
    ensures WriteStep(s, w, e).value.err.raced == (s.err.raced || RaceStep(s, WriteBy(w, e)))
  {
  }

  lemma SubmitRaces(s: State, w: nat, e: SubmitEvent)
    requires SubmitStep(s, w, e).Some?
    ensures SubmitStep(s, w, e).value.err.raced == s.err.raced
  {
  }

  lemma CallbackRaces(s: State, w: nat, e: CallbackEvent)
    requires CallbackStep(s, w, e).Some?
    ensures CallbackStep(s, w, e).value.err.raced == s.err.raced
  {
  }

  lemma OthersDoNotRace(s: State, e: Event)
    requires Inv(s) && Step(s, e).Some? && !e.WriteBy?
    ensures Step(s, e).value.err.raced == s.err.raced
  {
    match e
    case Life(l) => LifeTouches(s, l);
    case Submit(w, x) => SubmitRaces(s, w, x);
    case Callback(w, x) => CallbackRaces(s, w, x);
    case Read(r) => ReadTouches(s, r);
    case Io(i) => IoTouches(s, i);
    case Bus(b) => BusTouches(s, b);
    case Drain(d) => DrainTouches(s, d);
  }

  lemma RacedStep(s: State, e: Event)
    requires Inv(s) && Step(s, e).Some?
    ensures Step(s, e).value.err.raced == (s.err.raced || RaceStep(s, e))
  {
    if e.WriteBy? {
      WriteRaces(s, e.w, e.write);
    } else {
      OthersDoNotRace(s, e);
    }
  }

  lemma {:induction false} RacedRun(s: State, es: seq<Event>)
    requires Inv(s) && Run(Step, s, es).Some?
    ensures Run(Step, s, es).value.err.raced == (s.err.raced || Races(s, es))
    decreases |es|
  {
    if es != [] {
      InvKept(s, es[0]);
      RacedStep(s, es[0]);
      RacedRun(Step(s, es[0]).value, es[1..]);
    }
  }

  /**
   * No record is reported twice, or about to be, exactly when no step of the run raced.
   * Flushes never take part: without a race every record has at most one reporter.
   */
  lemma ReportedOnceIffNoRace(buffer: seq<byte>, es: seq<Event>)
    requires Run(Step, Init(buffer), es).Some?
    ensures var t := Run(Step, Init(buffer), es).value;
            TakenTwice(t.err.taken) || AboutToRepeat(t) <==> Races(Init(buffer), es)
  {
    InitInv(buffer);
    RacedRun(Init(buffer), es);
    SeenInv(Run(Step, Init(buffer), es).value) by {
      assert Reachable(Step, Init(buffer), Run(Step, Init(buffer), es).value);
    }
  }

  lemma Opened() returns (s: State)
    ensures Reachable(Step, Init([]), s) && s == Init([]).(stage := Bound, handles := {0}, kref := 2)
  {
    s := Init([]);
    ReachStart(Step, s);
    s := ReachStep(Step, Init([]), s, Life(ProbeOk));
    s := ReachStep(Step, Init([]), s, Life(Open(0)));
  }

  lemma MidReset() returns (s: State)
    ensures Reachable(Step, Init([]), s)
    ensures s == Init([]).(stage := Bound, handles := {0}, kref := 2, ioMutex := Resetting(Settle))
  {
    s := Opened();
    s := ReachStep(Step, Init([]), s, Drain(ResetLock));
    s := ReachStep(Step, Init([]), s, Drain(OutEmpty));
    s := ReachStep(Step, Init([]), s, Drain(InEmpty));
  }

  /** Open, then a reset: one -EPIPE is recorded and waits to be reported. */
  lemma AfterReset() returns (s: State)
    ensures Reachable(Step, Init([]), s)
    ensures s == Init([]).(stage := Bound, handles := {0}, kref := 2, err := ErrorBook(-EPIPE, [-EPIPE], 0, [], false))
  {
    s := MidReset();
    s := ReachStep(Step, Init([]), s, Drain(SettleErrors));
    s := ReachStep(Step, Init([]), s, Drain(DrainUnlock));
  }

  /** A read has loaded the record, and a write has a permit. */
  lemma BothInPlace() returns (s: State)
    ensures Reachable(Step, Init([]), s) && s.err.errors == -EPIPE && s.err.errId == 0 && s.err.taken == []
    ensures s.ioMutex == Reading(0, 1, false, ClearError(0, -EPIPE)) && 1 in s.writes && s.writes[1].pc == Permitted
  {
    s := AfterReset();
    s := ReachStep(Step, Init([]), s, WriteBy(1, WriteEnter(0)));
    s := ReachStep(Step, Init([]), s, WriteBy(1, WriteDown));
    s := ReachStep(Step, Init([]), s, Read(ReadLock(0, 1, false)));
    s := ReachStep(Step, Init([]), s, Read(ReadCheck));
    s := ReachStep(Step, Init([]), s, Read(ReadRetry));
    s := ReachStep(Step, Init([]), s, Read(ReadTest));
  }

  /** The race does happen: one recorded -EPIPE is reported by a write and again by a read. */
  lemma DoubleReport()
    ensures exists s :: Seen(s) && s.err.taken == [Take(0, -EPIPE, ByWrite), Take(0, -EPIPE, ByRead)]
  {
    var s := BothInPlace();
    s := ReachStep(Step, Init([]), s, WriteBy(1, WriteTest));
    s := ReachStep(Step, Init([]), s, Read(ReadClear));
  }
}
