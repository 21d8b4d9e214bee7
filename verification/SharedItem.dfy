/**
 * The earlier scheme: one work item shared by all interrupt lines, whose irq field the last
 * interrupt overwrites. Scheduling a pending item does nothing, so bottom halves are merged,
 * and they can be credited to the wrong line; only the totals balance. As in WorkItems, an
 * interrupt counted between request_irq and the reset of its counter is wiped out.
 */
module SharedItem {
  import opened Common
  import opened Runs
  import opened IrqLines

  /** Where the worker is. */
  datatype Worker = Idle | Loading | Running(irq: nat)

  datatype State = State(
    interrupts: seq<int>, bhs: seq<nat>, phase: seq<Phase>,
    irq: nat,                 // my_data.irq
    stored: multiset<nat>,    // handlers that have stored their line but not counted
    counted: nat,             // handlers that have counted but not scheduled
    pending: bool, worker: Worker,
    merged: nat,              // times the item was scheduled while it was pending already
    wiped: int)               // interrupts counted between request_irq and the reset to 0

  datatype Event =
    | Register(irq: nat) | ResetCounter(irq: nat)
    | Store(irq: nat) | Count(irq: nat) | Schedule | Begin | Load | CountBottom

  function Step(s: State, e: Event): Option<State> {
    match e
    case Register(irq) =>
      if irq < |s.phase| && s.phase[irq] == Unregistered then Some(s.(phase := s.phase[irq := Window])) else None
    case ResetCounter(irq) =>
      if irq < |s.phase| && irq < |s.interrupts| && s.phase[irq] == Window
      then Some(s.(phase := s.phase[irq := Ready], wiped := s.wiped + s.interrupts[irq] + 1,
                   interrupts := s.interrupts[irq := 0]))
      else None
    case Store(irq) =>
      if irq < |s.phase| && s.phase[irq] != Unregistered
      then Some(s.(irq := irq, stored := s.stored + multiset{irq})) else None
    case Count(irq) =>
      if irq in s.stored && irq < |s.interrupts|
      then Some(s.(interrupts := s.interrupts[irq := s.interrupts[irq] + 1], stored := s.stored - multiset{irq},
                   counted := s.counted + 1))
      else None
    case Schedule =>
      if s.counted > 0
      then Some(s.(pending := true, counted := s.counted - 1, merged := s.merged + if s.pending then 1 else 0))
      else None
    case Begin => if s.pending && s.worker == Idle then Some(s.(pending := false, worker := Loading)) else None
    case Load => if s.worker == Loading then Some(s.(worker := Running(s.irq))) else None
    case CountBottom =>
      if s.worker.Running? && s.worker.irq < |s.bhs|
      then Some(s.(bhs := s.bhs[s.worker.irq := s.bhs[s.worker.irq] + 1], worker := Idle)) else None
  }

  function Init(lines: nat): State {
    State(seq(lines, _ => -1), seq(lines, _ => 0), seq(lines, _ => Unregistered),
          0, multiset{}, 0, false, Idle, 0, 0)
  }

  function Sum(s: seq<int>): int {
    if s == [] then 0 else s[0] + Sum(s[1..])
  }

  lemma {:induction false} SumUpdate(s: seq<int>, i: nat, v: int)
    requires i < |s|
    ensures Sum(s[i := v]) == Sum(s) + v - s[i]
  {
    var t := s[i := v];
    if i == 0 {
      assert t[1..] == s[1..];
    } else {
      assert t[1..] == s[1..][i - 1 := v];
      SumUpdate(s[1..], i - 1, v);
    }
  }

  lemma {:induction false} SumConstant(s: seq<int>, v: int)
    requires forall i | 0 <= i < |s| :: s[i] == v
    ensures Sum(s) == |s| * v
  {
    if s != [] { SumConstant(s[1..], v); }
  }

  /** 1 for each line whose counter still starts from -1. */
  function Flags(phase: seq<Phase>): (r: seq<int>)
    ensures |r| == |phase| && forall i | 0 <= i < |phase| :: r[i] == if phase[i] == Ready then 0 else 1
  {
    seq(|phase|, i requires 0 <= i < |phase| => if phase[i] == Ready then 0 else 1)
  }

  /** Lines whose counter has not been reset to 0. */
  function NotReady(phase: seq<Phase>): int { Sum(Flags(phase)) }

  lemma PhaseUpdate(phase: seq<Phase>, irq: nat, p: Phase)
    requires irq < |phase|
    ensures NotReady(phase[irq := p])
            == NotReady(phase) + (if p == Ready then 0 else 1) - (if phase[irq] == Ready then 0 else 1)
  {
    var v := if p == Ready then 0 else 1;
    assert Flags(phase[irq := p]) == Flags(phase)[irq := v];
    SumUpdate(Flags(phase), irq, v);
  }

  /** Interrupts that have been counted and whose bottom half is due or under way. */
  function Due(s: State): nat {
    s.counted + (if s.pending then 1 else 0) + (if s.worker != Idle then 1 else 0)
  }

  /** Each interrupt counted has its bottom half done or due, or was merged into another's. */
  predicate Balanced(s: State) {
    Sum(s.bhs) + Due(s) + s.merged == Sum(s.interrupts) + s.wiped + NotReady(s.phase)
  }

  predicate Inv(s: State) {
    && Balanced(s) && s.wiped >= 0
    && |s.phase| == |s.interrupts| && forall i | 0 <= i < |s.interrupts| :: s.interrupts[i] >= -1
  }

  lemma LineInv(s: State, e: Event)
    requires Inv(s) && (e.Register? || e.ResetCounter?) && Step(s, e).Some?
    ensures Inv(Step(s, e).value)
  {
    PhaseUpdate(s.phase, e.irq, if e.Register? then Window else Ready);
    if e.ResetCounter? { SumUpdate(s.interrupts, e.irq, 0); }
  }

  lemma CountInv(s: State, irq: nat)
    requires Inv(s) && Step(s, Count(irq)).Some?
    ensures Inv(Step(s, Count(irq)).value)
  {
    SumUpdate(s.interrupts, irq, s.interrupts[irq] + 1);
  }

  lemma CountBottomInv(s: State)
    requires Inv(s) && Step(s, CountBottom).Some?
    ensures Inv(Step(s, CountBottom).value)
  {
    SumUpdate(s.bhs, s.worker.irq, s.bhs[s.worker.irq] + 1);
  }

  lemma StepInv(s: State, e: Event)
    requires Inv(s) && Step(s, e).Some?
    ensures Inv(Step(s, e).value)
  {
    match e
    case Register(_) | ResetCounter(_) => LineInv(s, e);
    case Count(irq) => CountInv(s, irq);
    case CountBottom => CountBottomInv(s);
    case _ =>
  }

  lemma AllSteps()
    ensures forall t, e :: Inv(t) && Step(t, e).Some? ==> Inv(Step(t, e).value)
  {
    forall t, e | Inv(t) && Step(t, e).Some? ensures Inv(Step(t, e).value) { StepInv(t, e); }
  }

  lemma ReachInv(lines: nat, s: State)
    requires Reachable(Step, Init(lines), s)
    ensures Inv(s)
  {
    var i := Init(lines);
    SumConstant(i.interrupts, -1);
    SumConstant(i.bhs, 0);
    SumConstant(Flags(i.phase), 1);
    AllSteps();
    ReachKeeps(Step, Inv, i, s);
  }

  /**
   * The totals balance, for any interleaving and at any stage of registration. So once every
   * line is ready the bottom halves outnumber the interrupts exactly when more interrupts have
   * been wiped out than are due or have been merged; without a wipe they never do.
   */
  lemma TotalsBalance(lines: nat, s: State)
    requires Reachable(Step, Init(lines), s)
    ensures Sum(s.bhs) + Due(s) + s.merged == Sum(s.interrupts) + s.wiped + NotReady(s.phase)
    ensures (forall i | 0 <= i < |s.phase| :: s.phase[i] == Ready) ==>
              (Sum(s.bhs) <= Sum(s.interrupts) <==> s.wiped <= Due(s) + s.merged)
    ensures (forall i | 0 <= i < |s.phase| :: s.phase[i] == Ready) && s.wiped == 0 ==>
              Sum(s.bhs) <= Sum(s.interrupts)
  {
    ReachInv(lines, s);
    if forall i | 0 <= i < |s.phase| :: s.phase[i] == Ready {
      SumConstant(Flags(s.phase), 0);
    }
  }

  /** A pending item is run, for the line that was stored last, and then the worker is free again. */
  lemma PendingRuns(start: State, s: State) returns (t: State)
    requires Reachable(Step, start, s) && s.pending && s.worker == Idle && s.irq < |s.bhs|
    ensures Reachable(Step, start, t)
    ensures t == s.(pending := false, bhs := s.bhs[s.irq := s.bhs[s.irq] + 1])
  {
    t := ReachStep(Step, start, s, Begin);
    t := ReachStep(Step, start, t, Load);
    t := ReachStep(Step, start, t, CountBottom);
  }

  // ---------------------------------------------------------------- runs that fail

  lemma OneRegistered(lines: nat) returns (s: State)
    requires lines > 0
    ensures Reachable(Step, Init(lines), s) && s == Init(lines).(phase := Init(lines).phase[0 := Window])
  {
    ReachStart(Step, Init(lines));
    s := ReachStep(Step, Init(lines), Init(lines), Register(0));
  }

  lemma StoredEarly() returns (s: State)
    ensures Reachable(Step, Init(1), s)
    ensures s == State([-1], [0], [Window], 0, multiset{0}, 0, false, Idle, 0, 0)
  {
    s := OneRegistered(1);
    assert s.phase == [Window] && s.interrupts == [-1] && s.bhs == [0];
    s := ReachStep(Step, Init(1), s, Store(0));
  }

  lemma CountedEarly() returns (s: State)
    ensures Reachable(Step, Init(1), s)
    ensures s == State([0], [0], [Window], 0, multiset{}, 0, true, Idle, 0, 0)
  {
    s := StoredEarly();
    s := ReachStep(Step, Init(1), s, Count(0));
    assert s.interrupts == [0] && s.stored == multiset{};
    s := ReachStep(Step, Init(1), s, Schedule);
  }

  lemma BegunEarly() returns (s: State)
    ensures Reachable(Step, Init(1), s)
    ensures s == State([0], [0], [Window], 0, multiset{}, 0, false, Running(0), 0, 0)
  {
    s := CountedEarly();
    s := ReachStep(Step, Init(1), s, Begin);
    s := ReachStep(Step, Init(1), s, Load);
  }

  lemma DoneEarly() returns (s: State)
    ensures Reachable(Step, Init(1), s)
    ensures s == State([0], [1], [Window], 0, multiset{}, 0, false, Idle, 0, 0)
  {
    s := BegunEarly();
    s := ReachStep(Step, Init(1), s, CountBottom);
    assert s.bhs == [1];
  }

  /** One interrupt before the reset: its bottom half is done, all is quiet, its count is gone. */
  lemma MoreBottomHalves()
    ensures exists s :: Reachable(Step, Init(1), s) && s.phase == [Ready] && Due(s) == 0 && s.merged == 0
                        && s.interrupts == [0] && s.bhs == [1] && s.wiped == 1
  {
    var s := DoneEarly();
    s := ReachStep(Step, Init(1), s, ResetCounter(0));
    assert s.interrupts == [0] && s.phase == [Ready];
  }

  lemma TwoReady() returns (s: State)
    ensures Reachable(Step, Init(2), s)
    ensures s == State([0, 0], [0, 0], [Ready, Ready], 0, multiset{}, 0, false, Idle, 0, 0)
  {
    s := OneRegistered(2);
    assert s.phase == [Window, Unregistered] && s.interrupts == [-1, -1] && s.bhs == [0, 0];
    s := ReachStep(Step, Init(2), s, ResetCounter(0));
    s := ReachStep(Step, Init(2), s, Register(1));
    s := ReachStep(Step, Init(2), s, ResetCounter(1));
    assert s.phase == [Ready, Ready] && s.interrupts == [0, 0];
  }

  /** The second line stores its number while the first one's item is pending. */
  lemma Overwritten() returns (s: State)
    ensures Reachable(Step, Init(2), s) && s.interrupts == [1, 0] && s.bhs == [0, 0]
    ensures s.phase == [Ready, Ready] && s.irq == 1 && s.pending && s.worker == Idle
  {
    s := TwoReady();
    s := ReachStep(Step, Init(2), s, Store(0));
    s := ReachStep(Step, Init(2), s, Count(0));
    assert s.interrupts == [1, 0];
    s := ReachStep(Step, Init(2), s, Schedule);
    s := ReachStep(Step, Init(2), s, Store(1));
  }

  /**
   * Per line nothing holds: with two ready lines a bottom half can be credited to a line that
   * has had no interrupt counted, while the line that was interrupted has none.
   */
  lemma WrongLine()
    ensures exists s :: Reachable(Step, Init(2), s) && s.phase == [Ready, Ready]
                        && s.interrupts == [1, 0] && s.bhs == [0, 1]
  {
    var s := Overwritten();
    s := ReachStep(Step, Init(2), s, Begin);
    s := ReachStep(Step, Init(2), s, Load);
    s := ReachStep(Step, Init(2), s, CountBottom);
    assert s.bhs == [0, 1];
  }
}
