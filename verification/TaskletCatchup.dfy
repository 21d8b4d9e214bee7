/**
 * Producer and consumer with the catch-up tasklet: any number of interrupt handlers and the
 * tasklet interleave between their atomic operations. tasklet_schedule sets one pending
 * flag, and the tasklet does not run beside itself.
 */
module TaskletCatchup {
  import opened Common
  import opened Runs

  /** Where the tasklet is. */
  datatype Pc =
    | Idle
    | Start   // about to look at nevents
    | Top     // about to increment counter_bh
    | Test    // about to decrement and test nevents
    | Catch   // about to increment catchup

  datatype State = State(
    counterTh: nat, counterBh: nat, nevents: int, catchup: nat,
    counted: nat,   // handlers that have incremented counter_th but not nevents
    posted: nat,    // handlers that have incremented nevents but not scheduled the tasklet
    pending: bool, pc: Pc,
    runs: nat)      // runs of the tasklet that found an event

  datatype Event = CountTop | PostEvent | Schedule | Begin | Look | CountBottom | Consume | NoteCatchup

  const Init := State(0, 0, 0, 0, 0, 0, false, Idle, 0)

  function Step(s: State, e: Event): Option<State> {
    match e
    case CountTop => Some(s.(counterTh := s.counterTh + 1, counted := s.counted + 1))
    case PostEvent =>
      if s.counted > 0
      then Some(s.(nevents := s.nevents + 1, counted := s.counted - 1, posted := s.posted + 1)) else None
    case Schedule => if s.posted > 0 then Some(s.(pending := true, posted := s.posted - 1)) else None
    case Begin => if s.pending && s.pc == Idle then Some(s.(pending := false, pc := Start)) else None
    case Look =>
      if s.pc != Start then None
      else if s.nevents <= 0 then Some(s.(pc := Idle))
      else Some(s.(pc := Top, runs := s.runs + 1))
    case CountBottom => if s.pc == Top then Some(s.(counterBh := s.counterBh + 1, pc := Test)) else None
    case Consume =>
      if s.pc == Test then Some(s.(nevents := s.nevents - 1, pc := if s.nevents == 1 then Idle else Catch)) else None
    case NoteCatchup => if s.pc == Catch then Some(s.(catchup := s.catchup + 1, pc := Top)) else None
  }

  predicate Inv(s: State) {
    && s.nevents >= (if s.pc in {Top, Test, Catch} then 1 else 0)
    // conservation, up to the steps in progress
    && s.counterBh + s.nevents + s.counted == s.counterTh + (if s.pc == Test then 1 else 0)
    // an event left over is announced
    && (s.nevents > 0 && s.pc == Idle ==> s.pending || s.posted > 0)
    && s.catchup + s.runs == s.counterBh + (if s.pc == Top then 1 else 0)
  }

  lemma StepInv(s: State, e: Event)
    requires Inv(s) && Step(s, e).Some?
    ensures Inv(Step(s, e).value)
  {
  }

  lemma AllSteps()
    ensures forall t, e :: Inv(t) && Step(t, e).Some? ==> Inv(Step(t, e).value)
  {
    forall t, e | Inv(t) && Step(t, e).Some? ensures Inv(Step(t, e).value) { StepInv(t, e); }
  }

  lemma ReachInv(s: State)
    requires Reachable(Step, Init, s)
    ensures Inv(s)
  {
    AllSteps();
    ReachKeeps(Step, Inv, Init, s);
  }

  /** No handler is running, and the tasklet is neither pending nor running. */
  predicate Quiet(s: State) {
    s.counted == 0 && s.posted == 0 && !s.pending && s.pc == Idle
  }

  /**
   * In every reachable state no event count is negative and none is lost; when all is
   * quiet every top half has had its bottom half, and catchup counts the bottom halves
   * beyond the first of each run.
   */
  lemma NoBottomHalfLost(s: State)
    requires Reachable(Step, Init, s)
    ensures s.nevents >= 0
    ensures s.counterBh + s.nevents + s.counted == s.counterTh + (if s.pc == Test then 1 else 0)
    ensures Quiet(s) ==> s.counterBh == s.counterTh && s.nevents == 0 && s.catchup == s.counterBh - s.runs
  {
    ReachInv(s);
  }

  /** The next step of the tasklet, if it has one to make. */
  function Tasklet(s: State): Event {
    match s.pc
    case Idle => Begin
    case Start => Look
    case Top => CountBottom
    case Test => Consume
    case Catch => NoteCatchup
  }

  /** Steps the tasklet can still make if no more interrupts come. */
  function Left(s: State): nat
    requires Inv(s)
  {
    3 * s.nevents + (if s.pending then 3 else 0)
    + match s.pc case Idle => 0 case Start => 2 case Top => 1 case Test => 0 case Catch => 2
  }

  /** The tasklet left alone, until it has nothing to do. */
  ghost function Settle(s: State): (t: State)
    requires Inv(s)
    ensures Inv(t)
    decreases Left(s)
  {
    var next := Step(s, Tasklet(s));
    if next.None? then s else StepInv(s, Tasklet(s)); Settle(next.value)
  }

  /** Once the handlers are through, the tasklet catches up with every one of them and stops. */
  lemma {:induction false} CatchesUp(s: State)
    requires Inv(s) && s.counted == 0 && s.posted == 0
    ensures Quiet(Settle(s)) && Settle(s).counterTh == s.counterTh == Settle(s).counterBh
    decreases Left(s)
  {
    var next := Step(s, Tasklet(s));
    if next.Some? {
      StepInv(s, Tasklet(s));
      CatchesUp(next.value);
    }
  }
}
