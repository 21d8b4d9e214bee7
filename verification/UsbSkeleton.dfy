/**
 * The USB skeleton driver as a state machine. A step is what one caller, callback or bus
 * event does between two points where another can get in: a lock or unlock, one critical
 * section under err_lock, one unlocked access. The fields of struct usb_skel keep their
 * meaning; the fields after them describe the bus, the calls in progress and the history.
 */
module UsbSkeleton {
  import opened Common

  const WRITES_IN_FLIGHT: nat := 8

  /** Where a read that holds io_mutex is. */
  datatype ReadPc =
    | Check                                // about to look at disconnected
    | Retry                                // about to look at ongoing_read
    | Wait                                 // in wait_event_interruptible
    | TestError                            // about to load errors
    | ClearError(id: nat, value: int)      // loaded a negative value, about to clear
    | Data                                 // about to look at the buffer
    | MarkIo(len: nat, wait: bool)         // skel_do_read_io: about to set ongoing_read
    | ZeroIo(len: nat, wait: bool)         // about to empty the buffer
    | SubmitIo(len: nat, wait: bool)       // about to submit the bulk-in URB
    | SubmitFailed                         // about to clear ongoing_read again
    | Unlock

  /** Where a flush or a reset that holds io_mutex is. */
  datatype DrainPc = DrainOut | DrainIn | Settle | Leave

  /** The holder of io_mutex. */
  datatype Owner =
    | Nobody
    | Reading(h: nat, count: nat, nonblock: bool, read: ReadPc)
    | Writing(w: nat)
    | Flushing(h: nat, drain: DrainPc)
    | Resetting(drain: DrainPc)
    | Disconnecting

  /** A write call and, once submitted, its URB. */
  datatype WritePc =
    | Entered                // waiting for a permit
    | Permitted              // holds a permit
    | Tested                 // no error was pending
    | Filled                 // buffer allocated and copied
    | Locked                 // holds io_mutex
    | Ready                  // not disconnected, URB anchored
    | Gone                   // to be unlocked and failed
    | InFlight               // submitted
    | Called                 // callback has recorded the status
    | Freed                  // callback has freed the buffer
    | Failed(buf: bool)      // error path, with or without a buffer
    | Releasing              // error path, about to give the permit back
    | Done

  datatype Write = Write(h: nat, pc: WritePc, allocs: nat, frees: nat)

  /** Probe and disconnect. */
  datatype Stage =
    | Probing | Bound | Deregistered | Locking | Marked | Unlocked | InKilled | OutKilled | Dropped | ProbeFailed

  datatype Taker = ByRead | ByWrite | ByFlush
  datatype Take = Take(id: nat, report: int, taker: Taker)
  datatype Chunk = Chunk(data: seq<byte>, ok: bool)

  /** errors, and who recorded and reported what. */
  datatype ErrorBook = ErrorBook(
    errors: int,
    // history
    recorded: seq<int>,          // every value stored in errors, in order
    errId: nat,                  // the record now in errors, if errors is not 0
    taken: seq<Take>,            // who reported which record as what
    raced: bool)                 // a write took the very record a read had loaded but not cleared

  /** The bulk-in buffer and URB. */
  datatype BulkIn = BulkIn(
    buffer: seq<byte>,
    filled: nat,
    copied: nat,
    ongoingRead: bool,
    inFlight: bool,              // the URB is submitted
    inLen: nat,                  // and may bring this many bytes
    tails: nat,                  // callbacks past their critical section, not yet returned
    // history
    completed: seq<byte>,        // data of all successful completions
    chunks: seq<Chunk>)          // what reads took out of the buffer

  datatype State = State(
    limitSem: nat,
    bulkIn: BulkIn,
    err: ErrorBook,
    kref: nat,
    disconnected: bool,
    ioMutex: Owner,
    writes: map<nat, Write>,
    handles: set<nat>,           // open files
    stage: Stage,
    deletes: nat)                // runs of skel_delete

  datatype LifeEvent =
    | ProbeOk | ProbeFail | Open(h: nat) | Release(h: nat)
    | Deregister | DisconnectLock | DisconnectMark | DisconnectUnlock | KillIn | KillOut | Drop

  datatype ReadEvent =
    | ReadLock(h: nat, count: nat, nonblock: bool)
    | ReadCheck | ReadRetry | ReadWake | ReadSignal | ReadTest | ReadClear
    | ReadData(fault: bool) | ReadUnlock

  /** skel_do_read_io */
  datatype IoEvent = IoMark | IoZero | IoSubmit(ok: bool) | IoUnmark

  datatype AllocOutcome = NoBuffer | CopyFault | Copied

  datatype WriteEvent =
    | WriteEnter(h: nat) | WriteGiveUp | WriteDown | WriteTest | WriteAlloc(outcome: AllocOutcome)
    | WriteFree | WriteUp

  /** The part of skel_write under io_mutex. */
  datatype SubmitEvent = SubmitLock | SubmitCheck | SubmitUrb(ok: bool) | SubmitUnlock

  /** skel_write_bulk_callback */
  datatype CallbackEvent = CallbackStatus(status: int) | CallbackFree | CallbackUp

  datatype BusEvent = InCallback(status: int, data: seq<byte>) | InReturn

  datatype DrainEvent = FlushLock(h: nat) | ResetLock | OutEmpty | InEmpty | SettleErrors | DrainUnlock

  datatype Event =
    | Life(life: LifeEvent)
    | Read(read: ReadEvent)
    | Io(io: IoEvent)
    | WriteBy(w: nat, write: WriteEvent)
    | Submit(w: nat, submit: SubmitEvent)
    | Callback(w: nat, callback: CallbackEvent)
    | Bus(bus: BusEvent)
    | Drain(drain: DrainEvent)

  // ---------------------------------------------------------------- state in words

  /** Submitted and its callback not yet through. */
  predicate Flying(pc: WritePc) { pc in {InFlight, Called, Freed} }

  predicate HoldsPermit(pc: WritePc) { pc !in {Entered, Done} }

  predicate HasBuffer(pc: WritePc) {
    pc in {Filled, Locked, Ready, Gone, InFlight, Called, Failed(true)}
  }

  /** The write call has not returned. */
  predicate Calling(s: State, w: nat)
    requires w in s.writes
  {
    (!Flying(s.writes[w].pc) && s.writes[w].pc != Done) || s.ioMutex == Writing(w)
  }

  ghost predicate NothingFlies(s: State) {
    forall w | w in s.writes :: !Flying(s.writes[w].pc)
  }

  predicate InIdle(s: State) { !s.bulkIn.inFlight && s.bulkIn.tails == 0 }

  ghost predicate Unused(s: State, h: nat) {
    && !(s.ioMutex.Reading? && s.ioMutex.h == h)
    && !(s.ioMutex.Flushing? && s.ioMutex.h == h)
    && forall w | w in s.writes && s.writes[w].h == h :: !Calling(s, w)
  }

  predicate RefDropped(st: Stage) { st in {Dropped, ProbeFailed} }

  /** The value a caller sees for a recorded error. */
  function Report(value: int): int { if value == -EPIPE then -EPIPE else -EIO }

  function Init(bulkInBuffer: seq<byte>): State {
    State(WRITES_IN_FLIGHT, BulkIn(bulkInBuffer, 0, 0, false, false, 0, 0, [], []), ErrorBook(0, [], 0, [], false),
          1, false, Nobody, map[], {}, Probing, 0)
  }

  // ---------------------------------------------------------------- steps

  function Record(s: State, value: int): State {
    s.(err := s.err.(errors := value, errId := |s.err.recorded|, recorded := s.err.recorded + [value]))
  }

  /** Report the pending error once, under err_lock. */
  function TakeError(s: State, taker: Taker): State {
    if s.err.errors == 0 then s
    else s.(err := s.err.(errors := 0, taken := s.err.taken + [Take(s.err.errId, Report(s.err.errors), taker)]))
  }

  function Raced(s: State, raced: bool): State { s.(err := s.err.(raced := raced)) }

  /** kref_put: the last reference runs skel_delete. */
  function Put(s: State): State
    requires s.kref > 0
  {
    s.(kref := s.kref - 1, deletes := s.deletes + if s.kref == 1 then 1 else 0)
  }

  ghost function LifeStep(s: State, e: LifeEvent): Option<State> {
    match e
    case ProbeOk => if s.stage == Probing then Some(s.(stage := Bound)) else None
    case ProbeFail => if s.stage == Probing && s.kref > 0 then Some(Put(s.(stage := ProbeFailed))) else None
    case Open(h) =>
      if s.stage == Bound && h !in s.handles then Some(s.(handles := s.handles + {h}, kref := s.kref + 1)) else None
    case Release(h) =>
      if h in s.handles && Unused(s, h) && s.kref > 0 then Some(Put(s.(handles := s.handles - {h}))) else None
    case Deregister => if s.stage == Bound then Some(s.(stage := Deregistered)) else None
    case DisconnectLock =>
      if s.stage == Deregistered && s.ioMutex == Nobody
      then Some(s.(stage := Locking, ioMutex := Disconnecting)) else None
    case DisconnectMark => if s.stage == Locking then Some(s.(stage := Marked, disconnected := true)) else None
    case DisconnectUnlock => if s.stage == Marked then Some(s.(stage := Unlocked, ioMutex := Nobody)) else None
    case KillIn => if s.stage == Unlocked && InIdle(s) then Some(s.(stage := InKilled)) else None
    case KillOut => if s.stage == InKilled && NothingFlies(s) then Some(s.(stage := OutKilled)) else None
    case Drop => if s.stage == OutKilled && s.kref > 0 then Some(Put(s.(stage := Dropped))) else None
  }

  function At(s: State, pc: ReadPc): State
    requires s.ioMutex.Reading?
  {
    s.(ioMutex := s.ioMutex.(read := pc))
  }

  /** skel_read outside skel_do_read_io. */
  function ReadStep(s: State, e: ReadEvent): Option<State> {
    if e.ReadLock? then
      if s.ioMutex == Nobody && e.h in s.handles && e.count > 0
      then Some(s.(ioMutex := Reading(e.h, e.count, e.nonblock, Check))) else None
    else if !s.ioMutex.Reading? then None
    else
      var pc, count := s.ioMutex.read, s.ioMutex.count;
      match e
      case ReadCheck => if pc == Check then Some(At(s, if s.disconnected then Unlock else Retry)) else None
      case ReadRetry =>
        if pc != Retry then None
        else Some(At(s, if !s.bulkIn.ongoingRead then TestError else if s.ioMutex.nonblock then Unlock else Wait))
      case ReadWake => if pc == Wait && !s.bulkIn.ongoingRead then Some(At(s, TestError)) else None
      case ReadSignal => if pc == Wait then Some(At(s, Unlock)) else None
      case ReadTest =>
        if pc != TestError then None
        else Some(At(s, if s.err.errors < 0 then ClearError(s.err.errId, s.err.errors) else Data))
      case ReadClear =>
        if !pc.ClearError? then None
        else
          var err := s.err.(errors := 0, taken := s.err.taken + [Take(pc.id, Report(pc.value), ByRead)]);
          Some(At(s.(err := err), Unlock))
      case ReadData(fault) =>
        if pc != Data then None
        else if s.bulkIn.filled == 0 || s.bulkIn.filled == s.bulkIn.copied then Some(At(s, MarkIo(count, true)))
        else if !(s.bulkIn.copied <= s.bulkIn.filled <= |s.bulkIn.buffer|) then None // never: see UsbInvariant.Data
        else
          var available := s.bulkIn.filled - s.bulkIn.copied;
          var chunk := Min(available, count);
          var next := s.bulkIn.copied + chunk;
          var data := s.bulkIn.buffer[s.bulkIn.copied..next];
          var s' := s.(bulkIn := s.bulkIn.(copied := next, chunks := s.bulkIn.chunks + [Chunk(data, !fault)]));
          Some(At(s', if available < count then MarkIo(count - chunk, false) else Unlock))
      case ReadUnlock => if pc == Unlock then Some(s.(ioMutex := Nobody)) else None
  }

  function IoStep(s: State, e: IoEvent): Option<State> {
    if !s.ioMutex.Reading? then None
    else
      var pc := s.ioMutex.read;
      match e
      case IoMark =>
        if !pc.MarkIo? then None
        else Some(At(s.(bulkIn := s.bulkIn.(ongoingRead := true)), ZeroIo(pc.len, pc.wait)))
      case IoZero =>
        if !pc.ZeroIo? then None
        else Some(At(s.(bulkIn := s.bulkIn.(filled := 0, copied := 0)), SubmitIo(pc.len, pc.wait)))
      case IoSubmit(ok) =>
        if !pc.SubmitIo? then None
        else if !ok then Some(At(s, SubmitFailed))
        else
          var s' := s.(bulkIn := s.bulkIn.(inFlight := true, inLen := Min(|s.bulkIn.buffer|, pc.len)));
          Some(At(s', if pc.wait then Retry else Unlock))
      case IoUnmark =>
        if pc != SubmitFailed then None
        else Some(At(s.(bulkIn := s.bulkIn.(ongoingRead := false)), Unlock))
  }

  /** w with its pc moved, and its buffer allocated or freed as many times as said. */
  function Go(s: State, w: nat, pc: WritePc, allocs: nat := 0, frees: nat := 0): (r: State)
    requires w in s.writes
    ensures w in r.writes && r.writes == s.writes[w := r.writes[w]] && r == s.(writes := r.writes)
    ensures r.writes[w] == Write(s.writes[w].h, pc, s.writes[w].allocs + allocs, s.writes[w].frees + frees)
  {
    var x := s.writes[w];
    s.(writes := s.writes[w := Write(x.h, pc, x.allocs + allocs, x.frees + frees)])
  }

  /** skel_write outside io_mutex. */
  function WriteStep(s: State, w: nat, e: WriteEvent): Option<State> {
    if e.WriteEnter? then
      if w !in s.writes && e.h in s.handles then Some(s.(writes := s.writes[w := Write(e.h, Entered, 0, 0)])) else None
    else if w !in s.writes then None
    else
      var pc := s.writes[w].pc;
      match e
      case WriteGiveUp => if pc == Entered then Some(Go(s, w, Done)) else None
      case WriteDown =>
        if pc == Entered && s.limitSem > 0 then Some(Go(s.(limitSem := s.limitSem - 1), w, Permitted)) else None
      case WriteTest =>
        if pc != Permitted then None
        else if s.err.errors >= 0 then Some(Go(s, w, Tested))
        else
          var race := s.ioMutex.Reading? && s.ioMutex.read.ClearError? && s.ioMutex.read.id == s.err.errId;
          Some(Go(Raced(TakeError(s, ByWrite), s.err.raced || race), w, Failed(false)))
      case WriteAlloc(outcome) =>
        if pc != Tested then None
        else if outcome == NoBuffer then Some(Go(s, w, Failed(false)))
        else Some(Go(s, w, if outcome == CopyFault then Failed(true) else Filled, 1))
      case WriteFree =>
        if !pc.Failed? then None else Some(Go(s, w, Releasing, 0, if pc.buf then 1 else 0))
      case WriteUp => if pc == Releasing then Some(Go(s.(limitSem := s.limitSem + 1), w, Done)) else None
  }

  function SubmitStep(s: State, w: nat, e: SubmitEvent): Option<State> {
    if w !in s.writes then None
    else
      var pc := s.writes[w].pc;
      match e
      case SubmitLock =>
        if pc == Filled && s.ioMutex == Nobody then Some(Go(s.(ioMutex := Writing(w)), w, Locked)) else None
      case SubmitCheck => if pc == Locked then Some(Go(s, w, if s.disconnected then Gone else Ready)) else None
      case SubmitUrb(ok) => if pc == Ready then Some(Go(s, w, if ok then InFlight else Gone)) else None
      case SubmitUnlock =>
        if s.ioMutex != Writing(w) || pc == Locked || pc == Ready then None
        else Some(Go(s.(ioMutex := Nobody), w, if pc == Gone then Failed(true) else pc))
  }

  function CallbackStep(s: State, w: nat, e: CallbackEvent): Option<State> {
    if w !in s.writes then None
    else
      var pc := s.writes[w].pc;
      match e
      case CallbackStatus(status) =>
        if pc != InFlight || status > 0 then None
        else Some(Go(if status < 0 then Record(s, status) else s, w, Called))
      case CallbackFree => if pc == Called then Some(Go(s, w, Freed, 0, 1)) else None
      case CallbackUp => if pc == Freed then Some(Go(s.(limitSem := s.limitSem + 1), w, Done)) else None
  }

  function BusStep(s: State, e: BusEvent): Option<State> {
    match e
    case InCallback(status, data) =>
      if !s.bulkIn.inFlight || status > 0 || |data| > s.bulkIn.inLen || |data| > |s.bulkIn.buffer| then None
      else
        var s' := s.(bulkIn := s.bulkIn.(ongoingRead := false, inFlight := false, tails := s.bulkIn.tails + 1));
        if status < 0 then Some(Record(s', status))
        else
          var buffer, completed := Splice(s.bulkIn.buffer, 0, data), s.bulkIn.completed + data;
          Some(s'.(bulkIn := s'.bulkIn.(buffer := buffer, filled := |data|, completed := completed)))
    case InReturn => if s.bulkIn.tails > 0 then Some(s.(bulkIn := s.bulkIn.(tails := s.bulkIn.tails - 1))) else None
  }

  predicate Draining(o: Owner, pc: DrainPc) { (o.Flushing? || o.Resetting?) && o.drain == pc }

  ghost function DrainStep(s: State, e: DrainEvent): Option<State> {
    match e
    case FlushLock(h) =>
      if s.ioMutex == Nobody && h in s.handles then Some(s.(ioMutex := Flushing(h, DrainOut))) else None
    case ResetLock => if s.ioMutex == Nobody && s.stage == Bound then Some(s.(ioMutex := Resetting(DrainOut))) else None
    case OutEmpty =>
      if Draining(s.ioMutex, DrainOut) && NothingFlies(s)
      then Some(s.(ioMutex := s.ioMutex.(drain := DrainIn))) else None
    case InEmpty =>
      if Draining(s.ioMutex, DrainIn) && InIdle(s) then Some(s.(ioMutex := s.ioMutex.(drain := Settle))) else None
    case SettleErrors =>
      if !Draining(s.ioMutex, Settle) then None
      else
        var s' := s.(ioMutex := s.ioMutex.(drain := Leave));
        Some(if s.ioMutex.Flushing? then TakeError(s', ByFlush) else Record(s', -EPIPE))
    case DrainUnlock => if Draining(s.ioMutex, Leave) then Some(s.(ioMutex := Nobody)) else None
  }

  ghost function Step(s: State, e: Event): Option<State> {
    match e
    case Life(l) => LifeStep(s, l)
    case Read(r) => ReadStep(s, r)
    case Io(i) => IoStep(s, i)
    case WriteBy(w, x) => WriteStep(s, w, x)
    case Submit(w, x) => SubmitStep(s, w, x)
    case Callback(w, x) => CallbackStep(s, w, x)
    case Bus(b) => BusStep(s, b)
    case Drain(d) => DrainStep(s, d)
  }
}
