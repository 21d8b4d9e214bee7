/**
 * The same producer and consumer with a kernel thread woken through `cond`. Conservation and
 * non-negativity hold as for the tasklet; but an event posted between the thread's last
 * decrement and its clearing of cond stays behind, and the lemmas say exactly when.
 */
module ThreadCatchup {
  import opened Common
  import opened Runs

  /** Where the thread is. */
  datatype Pc = Clear | Wait | Start | Top | Test | Catch | Again | Stopped

  datatype State = State(
    counterTh: nat, counterBh: nat, nevents: int, catchup: nat, cond: bool, stop: bool,
    posted: nat,    // handlers that have incremented nevents but not counter_th
    counted: nat,   // handlers that have incremented counter_th but not set cond
    pc: Pc,
    runs: nat)      // times the thread has found an event and entered the inner loop

  datatype Event =
    | PostEvent | CountTop | SetCond | Stop
    | ClearCond | Woken | Look | CountBottom | Consume | NoteCatchup | Loop

  const Init := State(0, 0, 0, 0, true, false, 0, 0, Clear, 0)

  function Step(s: State, e: Event): Option<State> {
    match e
    case PostEvent => Some(s.(nevents := s.nevents + 1, posted := s.posted + 1))
    case CountTop =>
      if s.posted > 0
      then Some(s.(counterTh := s.counterTh + 1, posted := s.posted - 1, counted := s.counted + 1)) else None
    case SetCond => if s.counted > 0 then Some(s.(cond := true, counted := s.counted - 1)) else None
    case Stop => Some(s.(stop := true))
    case ClearCond =>
      if s.pc == Clear then Some(s.(cond := false, pc := Wait)) else None
    case Woken => if s.pc == Wait && (s.stop || s.cond) then Some(s.(pc := Start)) else None
    case Look =>
      if s.pc != Start then None
      else if s.stop then Some(s.(pc := Stopped))
      else if s.nevents <= 0 then Some(s.(pc := Again))
      else Some(s.(pc := Top, runs := s.runs + 1))
    case CountBottom => if s.pc == Top then Some(s.(counterBh := s.counterBh + 1, pc := Test)) else None
    case Consume =>
      if s.pc == Test then Some(s.(nevents := s.nevents - 1, pc := if s.nevents == 1 then Again else Catch)) else None
    case NoteCatchup => if s.pc == Catch then Some(s.(catchup := s.catchup + 1, pc := Top)) else None
    case Loop => if s.pc == Again then Some(s.(pc := if s.stop then Stopped else Clear)) else None
  }

  predicate Inv(s: State) {
    && s.nevents >= (if s.pc in {Top, Test, Catch} then 1 else 0)
    && s.counterBh + s.nevents == s.counterTh + s.posted + (if s.pc == Test then 1 else 0)
    && s.catchup + s.runs == s.counterBh + (if s.pc == Top then 1 else 0)
  }

  lemma StepInv(s: State, e: Event)
    requires Inv(s) && Step(s, e).Some?
    ensures Inv(Step(s, e).value)
  {
  }

  lemma AllSteps()
    ensures forall t, e :: Inv(t) && Step(t, e).Some? ==> Inv(Step(t, e).value)
  {
    forall t, e | Inv(t) && Step(t, e).Some? ensures Inv(Step(t, e).value) { StepInv(t, e); }
  }

  /** The thread sleeps, and no handler is running that will wake it. */
  predicate Asleep(s: State) {
    s.pc == Wait && !s.cond && !s.stop && s.posted == 0 && s.counted == 0
  }

  /** Events beyond those of handlers that have yet to set cond. */
  function Behind(s: State): int { s.nevents - s.posted - s.counted }

  /** The state in which a run last cleared cond. */
  ghost function Cleared(s: State, es: seq<Event>): Option<State>
    requires Run(Step, s, es).Some?
    decreases |es|
  {
    if es == [] then None
    else
      var later := Cleared(Step(s, es[0]).value, es[1..]);
      if later.Some? then later else if es[0] == ClearCond then Some(s) else None
  }

  /** While the thread waits with cond clear, Behind does not change. */
  lemma {:induction false} SinceCleared(s: State, es: seq<Event>)
    requires Run(Step, s, es).Some?
    ensures var t, c := Run(Step, s, es).value, Cleared(s, es);
            t.pc == Wait && !t.cond ==>
              if c.Some? then Behind(t) == Behind(c.value) else s.pc == Wait && !s.cond && Behind(t) == Behind(s)
    decreases |es|
  {
    if es != [] { SinceCleared(Step(s, es[0]).value, es[1..]); }
  }

  lemma RunInv(es: seq<Event>)
    requires Run(Step, Init, es).Some?
    ensures Inv(Run(Step, Init, es).value)
  {
    AllSteps();
    RunKeeps(Step, Inv, Init, es);
  }

  /** In every run no event count is negative, and no event or bottom half is miscounted. */
  lemma Conserved(es: seq<Event>)
    requires Run(Step, Init, es).Some?
    ensures var s := Run(Step, Init, es).value;
            && s.nevents >= 0
            && s.counterBh + s.nevents == s.counterTh + s.posted + (if s.pc == Test then 1 else 0)
            && s.catchup + s.runs == s.counterBh + (if s.pc == Top then 1 else 0)
  {
    RunInv(es);
  }

  /**
   * When a run leaves the thread asleep, what the thread owes is what was there when it last
   * cleared cond: it has kept up exactly if it found no event then but those of handlers still
   * to set cond.
   */
  lemma KeepsUpIff(es: seq<Event>)
    requires Run(Step, Init, es).Some? && Asleep(Run(Step, Init, es).value)
    ensures var s := Run(Step, Init, es).value;
            && Cleared(Init, es).Some?
            && s.counterTh - s.counterBh == Behind(Cleared(Init, es).value)
            && (s.counterTh == s.counterBh <==>
                  var c := Cleared(Init, es).value; c.nevents == c.posted + c.counted)
  {
    RunInv(es);
    SinceCleared(Init, es);
  }

  // ---------------------------------------------------------------- the thread left alone

  /** The next step of the thread, if it has one to make. */
  function Thread(s: State): Event {
    match s.pc
    case Clear => ClearCond
    case Wait => Woken
    case Start => Look
    case Top => CountBottom
    case Test => Consume
    case Catch => NoteCatchup
    case Again => Loop
    case Stopped => Loop
  }

  /** Steps the thread can make before it clears cond, waits or stops, if no more interrupts come. */
  function Left(s: State): nat
    requires Inv(s)
  {
    match s.pc
    case Clear | Stopped => 0
    case Again => 1
    case Test => 3 * s.nevents
    case Top => 3 * s.nevents + 1
    case Catch => 3 * s.nevents + 2
    case Start => 3 * s.nevents + 2
    case Wait => 3 * s.nevents + 3
  }

  /** The thread alone, until it is about to clear cond, or has stopped, or is not woken. */
  ghost function Alone(s: State): (t: State)
    requires Inv(s)
    ensures Inv(t)
    decreases Left(s)
  {
    var next := Step(s, Thread(s));
    if s.pc == Clear || next.None? then s else StepInv(s, Thread(s)); Alone(next.value)
  }

  /** Woken, or in the inner loop or about to enter it. */
  predicate Working(s: State) {
    s.pc in {Start, Top, Test, Catch} || (s.pc == Wait && s.cond)
  }

  /**
   * Once the handlers are through, a thread at work does the bottom half of every one of them
   * before it next clears cond; catchup grows by one less than the events it found when it
   * entered the loop.
   */
  lemma {:induction false} CatchesUp(s: State)
    requires Inv(s) && Working(s) && !s.stop && s.posted == 0 && s.counted == 0
    ensures var t := Alone(s);
            && t.pc == Clear && t.nevents == 0 && t.counterTh == s.counterTh == t.counterBh
            && t.runs == s.runs + (if s.pc in {Wait, Start} && s.nevents > 0 then 1 else 0)
            && (s.pc in {Wait, Start} ==> t.catchup == s.catchup + if s.nevents > 0 then s.nevents - 1 else 0)
    decreases Left(s)
  {
    var next := Step(s, Thread(s)).value;
    StepInv(s, Thread(s));
    if Working(next) {
      CatchesUp(next);
    } else {
      var last := Step(next, Loop).value;
      assert next.pc == Again && last.pc == Clear && Alone(last) == last && Alone(next) == last;
    }
  }

  /** A thread that is told to stop finishes the loop it is in and stops. */
  lemma {:induction false} Stops(s: State)
    requires Inv(s) && s.stop && s.pc != Clear
    ensures Alone(s).pc == Stopped
    decreases Left(s)
  {
    if s.pc != Stopped {
      StepInv(s, Thread(s));
      Stops(Step(s, Thread(s)).value);
    }
  }

  /** An interrupt that is through before the thread clears cond is left behind. */
  lemma LeftBehind()
    ensures exists s :: Reachable(Step, Init, s) && Asleep(s) && s.counterTh == 1 && s.counterBh == 0
  {
    ReachStart(Step, Init);
    var s := ReachStep(Step, Init, Init, PostEvent);
    s := ReachStep(Step, Init, s, CountTop);
    s := ReachStep(Step, Init, s, SetCond);
    s := ReachStep(Step, Init, s, ClearCond);
  }
}
