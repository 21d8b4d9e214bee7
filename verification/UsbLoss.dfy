/** Which recorded errors of the USB skeleton driver are never reported to anybody. */
module UsbLoss {
  import opened Common
  import opened Runs
  import opened UsbSkeleton
  import opened UsbInvariant
  import opened UsbSafety

  predicate Waiting(s: State, id: nat) { s.err.errors < 0 && s.err.errId == id }

  /** A read has loaded the record and will report it. */
  predicate Loaded(s: State, id: nat) {
    s.ioMutex.Reading? && s.ioMutex.read.ClearError? && s.ioMutex.read.id == id
  }

  /** Recorded, and neither reported nor ever to be. */
  ghost predicate Lost(s: State, id: nat) {
    id < |s.err.recorded| && !Waiting(s, id) && !Loaded(s, id) && !IsTaken(s.err.taken, id)
  }

  /** The steps that store a status in errors. */
  predicate Records(s: State, e: Event) {
    match e
    case Callback(_, CallbackStatus(status)) => status < 0
    case Bus(InCallback(status, _)) => status < 0
    case Drain(SettleErrors) => s.ioMutex.Resetting?
    case _ => false
  }

  /**
   * A waiting record is lost when a newer one overwrites it before a read has loaded it, or
   * when a read that has loaded another one clears errors.
   */
  predicate Drops(s: State, e: Event, id: nat) {
    && Waiting(s, id)
    && ((Records(s, e) && !Loaded(s, id))
        || (e == Read(ReadClear) && s.ioMutex.Reading? && s.ioMutex.read.ClearError? && s.ioMutex.read.id != id))
  }

  // ---------------------------------------------------------------- one step

  /** The error records are the same in both states, but for the note of a race. */
  predicate SameErrors(s: State, t: State) {
    t.err == s.err.(raced := t.err.raced)
  }

  lemma LossFrame(s: State, t: State, id: nat)
    requires SameErrors(s, t) && Loaded(t, id) == Loaded(s, id)
    ensures Lost(t, id) <==> Lost(s, id)
  {
  }

  lemma RecordLoss(s: State, t: State, value: int, id: nat)
    requires Errors(s) && SameErrors(Record(s, value), t) && value < 0 && Loaded(t, id) == Loaded(s, id)
    ensures Lost(t, id) <==> Lost(s, id) || (Waiting(s, id) && !Loaded(s, id))
  {
    if Waiting(s, id) { assert !IsTaken(s.err.taken, id); }
  }

  /** A write or a flush takes the waiting record under the lock, and nothing is lost. */
  lemma TakeLoss(s: State, t: State, taker: Taker, id: nat)
    requires Errors(s) && SameErrors(TakeError(s, taker), t) && Loaded(t, id) == Loaded(s, id)
    ensures Lost(t, id) <==> Lost(s, id)
  {
    if s.err.errors != 0 { TakenLastTwice(s.err.taken, Take(s.err.errId, Report(s.err.errors), taker)); }
  }

  lemma ClearLoss(s: State, id: nat)
    requires Errors(s) && ReadStep(s, ReadClear).Some?
    ensures Lost(ReadStep(s, ReadClear).value, id) <==> Lost(s, id) || (Waiting(s, id) && s.ioMutex.read.id != id)
  {
    TakenLastTwice(s.err.taken, Take(s.ioMutex.read.id, Report(s.ioMutex.read.value), ByRead));
    if Waiting(s, id) { assert !IsTaken(s.err.taken, id); }
  }

  lemma ReadLoss(s: State, e: ReadEvent, id: nat)
    requires Errors(s) && ReadStep(s, e).Some?
    ensures Lost(ReadStep(s, e).value, id) <==> Lost(s, id) || Drops(s, Read(e), id)
  {
    var t := ReadStep(s, e).value;
    if e.ReadClear? {
      ClearLoss(s, id);
    } else if !e.ReadTest? {
      assert SameErrors(s, t) && !Loaded(s, id) && !Loaded(t, id);
    } else {
      assert SameErrors(s, t) && !Loaded(s, id) && (Loaded(t, id) <==> Waiting(s, id));
    }
  }

  lemma IoLoss(s: State, e: IoEvent, id: nat)
    requires IoStep(s, e).Some?
    ensures Lost(IoStep(s, e).value, id) <==> Lost(s, id)
  {
    LossFrame(s, IoStep(s, e).value, id);
  }

  lemma TestLoss(s: State, w: nat, id: nat)
    requires Errors(s) && WriteStep(s, w, WriteTest).Some?
    ensures Lost(WriteStep(s, w, WriteTest).value, id) <==> Lost(s, id)
  {
    var t := WriteStep(s, w, WriteTest).value;
    if s.err.errors < 0 {
      TakeLoss(s, t, ByWrite, id);
    } else {
      LossFrame(s, t, id);
    }
  }

  lemma WriteLoss(s: State, w: nat, e: WriteEvent, id: nat)
    requires WriteStep(s, w, e).Some? && !e.WriteTest?
    ensures Lost(WriteStep(s, w, e).value, id) <==> Lost(s, id)
  {
    LossFrame(s, WriteStep(s, w, e).value, id);
  }

  lemma SubmitLoss(s: State, w: nat, e: SubmitEvent, id: nat)
    requires SubmitStep(s, w, e).Some?
    ensures Lost(SubmitStep(s, w, e).value, id) <==> Lost(s, id)
  {
    SubmitTouches(s, w, e);
    LossFrame(s, SubmitStep(s, w, e).value, id);
  }

  lemma CallbackLoss(s: State, w: nat, e: CallbackEvent, id: nat)
    requires Errors(s) && CallbackStep(s, w, e).Some?
    ensures Lost(CallbackStep(s, w, e).value, id) <==> Lost(s, id) || Drops(s, Callback(w, e), id)
  {
    var t := CallbackStep(s, w, e).value;
    CallbackTouches(s, w, e);
    if e.CallbackStatus? && e.status < 0 {
      RecordLoss(s, t, e.status, id);
    } else {
      LossFrame(s, t, id);
    }
  }

  lemma BusLoss(s: State, e: BusEvent, id: nat)
    requires Errors(s) && BusStep(s, e).Some?
    ensures Lost(BusStep(s, e).value, id) <==> Lost(s, id) || Drops(s, Bus(e), id)
  {
    var t := BusStep(s, e).value;
    if e.InCallback? && e.status < 0 {
      RecordLoss(s, t, e.status, id);
    } else {
      LossFrame(s, t, id);
    }
  }

  lemma DrainLoss(s: State, e: DrainEvent, id: nat)
    requires Errors(s) && DrainStep(s, e).Some?
    ensures Lost(DrainStep(s, e).value, id) <==> Lost(s, id) || Drops(s, Drain(e), id)
  {
    var t := DrainStep(s, e).value;
    DrainTouches(s, e);
    if !e.SettleErrors? {
      LossFrame(s, t, id);
    } else if s.ioMutex.Flushing? {
      TakeLoss(s, t, ByFlush, id);
    } else {
      RecordLoss(s, t, -EPIPE, id);
    }
  }

  /** A record is lost after a step exactly if it was before, or the step drops it. */
  lemma StepLoss(s: State, e: Event, id: nat)
    requires Inv(s) && Step(s, e).Some?
    ensures Lost(Step(s, e).value, id) <==> Lost(s, id) || Drops(s, e, id)
  {
    match e
    case Life(l) => LifeTouches(s, l); LossFrame(s, Step(s, e).value, id);
    case Read(r) => ReadLoss(s, r, id);
    case Io(i) => IoLoss(s, i, id);
    case WriteBy(w, x) => if x.WriteTest? { TestLoss(s, w, id); } else { WriteLoss(s, w, x, id); }
    case Submit(w, x) => SubmitLoss(s, w, x, id);
    case Callback(w, x) => CallbackLoss(s, w, x, id);
    case Bus(b) => BusLoss(s, b, id);
    case Drain(d) => DrainLoss(s, d, id);
  }

  // ---------------------------------------------------------------- runs

  /** Some step of the run drops the record. */
  ghost predicate Dropped(s: State, es: seq<Event>, id: nat)
    requires Run(Step, s, es).Some?
    decreases |es|
  {
    es != [] && (Drops(s, es[0], id) || Dropped(Step(s, es[0]).value, es[1..], id))
  }

  lemma {:induction false} RunLoss(s: State, es: seq<Event>, id: nat)
    requires Inv(s) && Run(Step, s, es).Some?
    ensures Lost(Run(Step, s, es).value, id) <==> Lost(s, id) || Dropped(s, es, id)
    decreases |es|
  {
    if es != [] {
      InvKept(s, es[0]);
      StepLoss(s, es[0], id);
      RunLoss(Step(s, es[0]).value, es[1..], id);
    }
  }

  /**
   * Of all recorded errors exactly those that some step of the run dropped have not been
   * reported, are not about to be, and do not wait for a reporter.
   */
  lemma LostIffDropped(buffer: seq<byte>, es: seq<Event>, id: nat)
    requires Run(Step, Init(buffer), es).Some?
    ensures var t := Run(Step, Init(buffer), es).value;
            Dropped(Init(buffer), es, id)
            <==> id < |t.err.recorded| && !IsTaken(t.err.taken, id) && !Loaded(t, id) && !Waiting(t, id)
  {
    InitInv(buffer);
    RunLoss(Init(buffer), es, id);
  }

  // ---------------------------------------------------------------- it does happen

  lemma PermitOne(s: State, w: nat) returns (t: State)
    requires Reachable(Step, Init([]), s) && 0 in s.handles && w !in s.writes && s.limitSem > 0
    ensures Reachable(Step, Init([]), t)
    ensures t == s.(writes := s.writes[w := Write(0, Permitted, 0, 0)], limitSem := s.limitSem - 1)
  {
    t := ReachStep(Step, Init([]), s, WriteBy(w, WriteEnter(0)));
    t := ReachStep(Step, Init([]), t, WriteBy(w, WriteDown));
    assert t.writes == s.writes[w := Write(0, Permitted, 0, 0)];
  }

  /** A write call goes through up to io_mutex. */
  lemma FillOne(s: State, w: nat) returns (t: State)
    requires Reachable(Step, Init([]), s) && s.err.errors == 0 && 0 in s.handles && w !in s.writes && s.limitSem > 0
    ensures Reachable(Step, Init([]), t)
    ensures t == s.(writes := s.writes[w := Write(0, Filled, 1, 0)], limitSem := s.limitSem - 1)
  {
    t := PermitOne(s, w);
    t := ReachStep(Step, Init([]), t, WriteBy(w, WriteTest));
    assert t.writes == s.writes[w := Write(0, Tested, 0, 0)];
    t := ReachStep(Step, Init([]), t, WriteBy(w, WriteAlloc(Copied)));
    assert t.writes == s.writes[w := Write(0, Filled, 1, 0)];
  }

  /** And submits its URB. */
  lemma FlyOne(s: State, w: nat) returns (t: State)
    requires Reachable(Step, Init([]), s) && s.ioMutex == Nobody && !s.disconnected
    requires w in s.writes && s.writes[w] == Write(0, Filled, 1, 0)
    ensures Reachable(Step, Init([]), t) && t == s.(writes := s.writes[w := Write(0, InFlight, 1, 0)])
  {
    t := ReachStep(Step, Init([]), s, Submit(w, SubmitLock));
    t := ReachStep(Step, Init([]), t, Submit(w, SubmitCheck));
    assert t.writes == s.writes[w := Write(0, Ready, 1, 0)];
    t := ReachStep(Step, Init([]), t, Submit(w, SubmitUrb(true)));
    t := ReachStep(Step, Init([]), t, Submit(w, SubmitUnlock));
    assert t.writes == s.writes[w := Write(0, InFlight, 1, 0)];
  }

  lemma TwoFlying() returns (s: State)
    ensures Reachable(Step, Init([]), s) && s.ioMutex == Nobody && !s.bulkIn.ongoingRead && !s.disconnected
    ensures s.err.errors == 0 && s.err.recorded == [] && s.err.taken == [] && 0 in s.handles
    ensures 1 in s.writes && s.writes[1].pc == InFlight && 2 in s.writes && s.writes[2].pc == InFlight
  {
    s := Opened();
    s := FillOne(s, 1);
    s := FlyOne(s, 1);
    s := FillOne(s, 2);
    s := FlyOne(s, 2);
  }

  lemma FirstLoaded() returns (s: State)
    ensures Reachable(Step, Init([]), s) && s.err.recorded == [-EIO] && s.err.taken == []
    ensures s.ioMutex == Reading(0, 1, false, ClearError(0, -EIO))
    ensures 2 in s.writes && s.writes[2].pc == InFlight
  {
    s := TwoFlying();
    s := ReachStep(Step, Init([]), s, Callback(1, CallbackStatus(-EIO)));
    s := ReachStep(Step, Init([]), s, Read(ReadLock(0, 1, false)));
    s := ReachStep(Step, Init([]), s, Read(ReadCheck));
    s := ReachStep(Step, Init([]), s, Read(ReadRetry));
    s := ReachStep(Step, Init([]), s, Read(ReadTest));
  }

  /** A read that reports one failed write erases the record of another, which nobody reports. */
  lemma ErasedUnreported()
    ensures exists s :: Seen(s) && s.err.recorded == [-EIO, -EPIPE] && s.err.taken == [Take(0, -EIO, ByRead)]
                        && Lost(s, 1)
  {
    var s := FirstLoaded();
    s := ReachStep(Step, Init([]), s, Callback(2, CallbackStatus(-EPIPE)));
    s := ReachStep(Step, Init([]), s, Read(ReadClear));
    assert !IsTaken(s.err.taken, 1);
  }
}
