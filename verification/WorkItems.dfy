/**
 * Bottom halves for every interrupt line, one freshly allocated work item (or tasklet) per
 * interrupt. interrupts[irq] starts at -1, the line is requested, and only then is the
 * counter set to 0: an interrupt that is counted in between is wiped out, and the lemmas
 * say by how much.
 */
module WorkItems {
  import opened Common
  import opened Runs
  import opened IrqLines

  /** Where an item is. */
  datatype Pc =
    | Allocated   // by the handler, which has not counted its interrupt
    | Counted     // and not yet scheduled the item
    | Queued
    | Ran         // bhs incremented, the item not yet freed

  datatype Item = Item(irq: nat, pc: Pc)

  datatype State = State(
    interrupts: map<nat, int>, bhs: map<nat, int>, phase: map<nat, Phase>,
    items: map<nat, Item>,
    next: nat,              // items allocated so far, and the next one's identity
    frees: nat,             // items freed so far
    wiped: map<nat, int>)   // interrupts counted between request_irq and the reset to 0

  datatype Event =
    | Register(irq: nat) | ResetCounter(irq: nat)
    | Arrive(irq: nat) | Count(id: nat) | Schedule(id: nat) | Bottom(id: nat) | Free(id: nat)

  function Init(lines: set<nat>): State {
    State(map irq | irq in lines :: -1, map irq | irq in lines :: 0, map irq | irq in lines :: Unregistered,
          map[], 0, 0, map irq | irq in lines :: 0)
  }

  predicate Knows(s: State, irq: nat) {
    irq in s.interrupts && irq in s.bhs && irq in s.phase && irq in s.wiped
  }

  function Move(s: State, id: nat, pc: Pc): State
    requires id in s.items
  {
    s.(items := s.items[id := s.items[id].(pc := pc)])
  }

  function Step(s: State, e: Event): Option<State> {
    match e
    case Register(irq) =>
      if Knows(s, irq) && s.phase[irq] == Unregistered then Some(s.(phase := s.phase[irq := Window])) else None
    case ResetCounter(irq) =>
      if Knows(s, irq) && s.phase[irq] == Window
      then Some(s.(phase := s.phase[irq := Ready], wiped := s.wiped[irq := s.interrupts[irq] + 1],
                   interrupts := s.interrupts[irq := 0]))
      else None
    case Arrive(irq) =>
      if Knows(s, irq) && s.phase[irq] != Unregistered && s.next !in s.items
      then Some(s.(items := s.items[s.next := Item(irq, Allocated)], next := s.next + 1)) else None
    case Count(id) =>
      if id in s.items && s.items[id].pc == Allocated && s.items[id].irq in s.interrupts
      then
        var irq := s.items[id].irq;
        Some(Move(s, id, Counted).(interrupts := s.interrupts[irq := s.interrupts[irq] + 1])) else None
    case Schedule(id) =>
      if id in s.items && s.items[id].pc == Counted then Some(Move(s, id, Queued)) else None
    case Bottom(id) =>
      if id in s.items && s.items[id].pc == Queued && s.items[id].irq in s.bhs
      then
        var irq := s.items[id].irq;
        Some(Move(s, id, Ran).(bhs := s.bhs[irq := s.bhs[irq] + 1])) else None
    case Free(id) =>
      if id in s.items && s.items[id].pc == Ran
      then Some(s.(items := s.items - {id}, frees := s.frees + 1)) else None
  }

  predicate Owes(x: Item, irq: nat) {
    x.irq == irq && x.pc in {Counted, Queued}
  }

  /** Interrupts of a line that have been counted and still wait for their bottom half. */
  ghost function Outstanding(items: map<nat, Item>, irq: nat): set<nat> {
    set id | id in items && Owes(items[id], irq)
  }

  /** What interrupts[irq] starts from, less what the reset wiped out. */
  function Base(s: State, irq: nat): int
    requires Knows(s, irq)
  {
    if s.phase[irq] == Ready then -s.wiped[irq] else -1
  }

  ghost predicate LineOk(s: State, irq: nat) {
    Knows(s, irq) ==>
      && s.interrupts[irq] == Base(s, irq) + s.bhs[irq] + |Outstanding(s.items, irq)|
      && (s.phase[irq] == Unregistered ==> s.bhs[irq] == 0 && s.interrupts[irq] == -1)
      && (s.phase[irq] != Ready ==> s.wiped[irq] == 0)
      && s.wiped[irq] >= 0 && s.bhs[irq] >= 0
  }

  /** Every item belongs to a registered line, has an old identity, and is not yet freed. */
  ghost predicate ItemsOk(s: State) {
    && (forall id | id in s.items ::
          id < s.next && s.items[id].irq in s.phase && s.phase[s.items[id].irq] != Unregistered)
    && s.frees + |s.items| == s.next
  }

  ghost predicate Inv(s: State) {
    && (forall irq :: LineOk(s, irq))
    && s.interrupts.Keys == s.bhs.Keys == s.phase.Keys == s.wiped.Keys
    && ItemsOk(s)
  }

  lemma OutstandingUpdate(items: map<nat, Item>, id: nat, x: Item, irq: nat)
    ensures Outstanding(items[id := x], irq)
            == if Owes(x, irq) then Outstanding(items, irq) + {id} else Outstanding(items, irq) - {id}
    ensures id in Outstanding(items, irq) <==> id in items && Owes(items[id], irq)
  {
  }

  lemma OutstandingRemove(items: map<nat, Item>, id: nat, irq: nat)
    requires id in items && !Owes(items[id], irq)
    ensures Outstanding(items - {id}, irq) == Outstanding(items, irq)
    ensures |items - {id}| == |items| - 1
  {
    assert items == (items - {id})[id := items[id]];
  }

  lemma RegisterLine(s: State, e: Event, irq: nat)
    requires Inv(s) && (e.Register? || e.ResetCounter?) && Step(s, e).Some?
    ensures LineOk(Step(s, e).value, irq)
  {
    assert LineOk(s, irq);
  }

  lemma ArriveLine(s: State, i: nat, irq: nat)
    requires Inv(s) && Step(s, Arrive(i)).Some?
    ensures LineOk(Step(s, Arrive(i)).value, irq)
  {
    assert LineOk(s, irq);
    OutstandingUpdate(s.items, s.next, Item(i, Allocated), irq);
  }

  lemma CountLine(s: State, id: nat, irq: nat)
    requires Inv(s) && Step(s, Count(id)).Some?
    ensures LineOk(Step(s, Count(id)).value, irq)
  {
    assert LineOk(s, irq);
    OutstandingUpdate(s.items, id, s.items[id].(pc := Counted), irq);
  }

  lemma ScheduleLine(s: State, id: nat, irq: nat)
    requires Inv(s) && Step(s, Schedule(id)).Some?
    ensures LineOk(Step(s, Schedule(id)).value, irq)
  {
    assert LineOk(s, irq);
    OutstandingUpdate(s.items, id, s.items[id].(pc := Queued), irq);
  }

  lemma BottomLine(s: State, id: nat, irq: nat)
    requires Inv(s) && Step(s, Bottom(id)).Some?
    ensures LineOk(Step(s, Bottom(id)).value, irq)
  {
    assert LineOk(s, irq);
    OutstandingUpdate(s.items, id, s.items[id].(pc := Ran), irq);
  }

  lemma FreeLine(s: State, id: nat, irq: nat)
    requires Inv(s) && Step(s, Free(id)).Some?
    ensures LineOk(Step(s, Free(id)).value, irq)
  {
    assert LineOk(s, irq);
    OutstandingRemove(s.items, id, irq);
  }

  lemma StepLine(s: State, e: Event, irq: nat)
    requires Inv(s) && Step(s, e).Some?
    ensures LineOk(Step(s, e).value, irq)
  {
    match e
    case Register(_) | ResetCounter(_) => RegisterLine(s, e, irq);
    case Arrive(i) => ArriveLine(s, i, irq);
    case Count(id) => CountLine(s, id, irq);
    case Schedule(id) => ScheduleLine(s, id, irq);
    case Bottom(id) => BottomLine(s, id, irq);
    case Free(id) => FreeLine(s, id, irq);
  }

  lemma StepItems(s: State, e: Event)
    requires ItemsOk(s) && Step(s, e).Some?
    ensures ItemsOk(Step(s, e).value)
  {
    if e.Free? { OutstandingRemove(s.items, e.id, s.items[e.id].irq); }
  }

  lemma StepInv(s: State, e: Event)
    requires Inv(s) && Step(s, e).Some?
    ensures Inv(Step(s, e).value)
  {
    StepItems(s, e);
    forall irq ensures LineOk(Step(s, e).value, irq) { StepLine(s, e, irq); }
  }

  lemma AllSteps()
    ensures forall t, e :: Inv(t) && Step(t, e).Some? ==> Inv(Step(t, e).value)
  {
    forall t, e | Inv(t) && Step(t, e).Some? ensures Inv(Step(t, e).value) { StepInv(t, e); }
  }

  lemma InitInv(lines: set<nat>)
    ensures Inv(Init(lines))
  {
    forall irq ensures LineOk(Init(lines), irq) {
      assert Outstanding(map[], irq) == {};
    }
  }

  lemma ReachableInv(lines: set<nat>, s: State)
    requires Reachable(Step, Init(lines), s)
    ensures Inv(s)
  {
    InitInv(lines);
    AllSteps();
    ReachKeeps(Step, Inv, Init(lines), s);
  }

  /**
   * For every line and interleaving: once the line is ready, interrupts[irq] is bhs[irq]
   * plus the outstanding items of that line, exactly if no interrupt was counted before the
   * counter was reset; otherwise it is short by the interrupts wiped out. Each item is freed
   * exactly once.
   */
  lemma EveryInterruptHasItsBottomHalf(lines: set<nat>, s: State, irq: nat)
    requires Reachable(Step, Init(lines), s) && Knows(s, irq) && s.phase[irq] == Ready
    ensures s.interrupts[irq] + s.wiped[irq] == s.bhs[irq] + |Outstanding(s.items, irq)|
    ensures s.interrupts[irq] == s.bhs[irq] + |Outstanding(s.items, irq)| <==> s.wiped[irq] == 0
    ensures s.items == map[] ==> s.interrupts[irq] == s.bhs[irq] - s.wiped[irq]
    ensures s.frees + |s.items| == s.next
  {
    ReachableInv(lines, s);
    assert LineOk(s, irq);
  }

  lemma InWindow() returns (s: State)
    ensures Reachable(Step, Init({0}), s)
    ensures s == State(map[0 := -1], map[0 := 0], map[0 := Window], map[0 := Item(0, Allocated)], 1, 0, map[0 := 0])
  {
    var i := Init({0});
    assert i.interrupts == map[0 := -1] && i.bhs == map[0 := 0] && i.wiped == map[0 := 0];
    ReachStart(Step, i);
    s := ReachStep(Step, i, i, Register(0));
    assert s.phase == map[0 := Window];
    s := ReachStep(Step, i, s, Arrive(0));
    assert s.items == map[0 := Item(0, Allocated)];
  }

  /** One line; its first interrupt has been counted before the reset, and its item is scheduled. */
  lemma CountedEarly() returns (s: State)
    ensures Reachable(Step, Init({0}), s)
    ensures s == State(map[0 := 0], map[0 := 0], map[0 := Window], map[0 := Item(0, Queued)], 1, 0, map[0 := 0])
  {
    s := InWindow();
    s := ReachStep(Step, Init({0}), s, Count(0));
    assert s.interrupts == map[0 := 0] && s.items == map[0 := Item(0, Counted)];
    s := ReachStep(Step, Init({0}), s, Schedule(0));
    assert s.items == map[0 := Item(0, Queued)];
  }

  lemma DoneEarly() returns (s: State)
    ensures Reachable(Step, Init({0}), s)
    ensures s == State(map[0 := 0], map[0 := 1], map[0 := Window], map[], 1, 1, map[0 := 0])
  {
    s := CountedEarly();
    s := ReachStep(Step, Init({0}), s, Bottom(0));
    assert s.bhs == map[0 := 1] && s.items == map[0 := Item(0, Ran)];
    s := ReachStep(Step, Init({0}), s, Free(0));
    assert s.items == map[];
  }

  /** The reset does wipe out interrupts: a quiet, ready line with a bottom half and no interrupt. */
  lemma WipedOut()
    ensures exists s :: Reachable(Step, Init({0}), s) && s.phase == map[0 := Ready] && s.items == map[]
                        && s.interrupts == map[0 := 0] && s.bhs == map[0 := 1] && s.wiped == map[0 := 1]
  {
    var s := DoneEarly();
    s := ReachStep(Step, Init({0}), s, ResetCounter(0));
    assert s.phase == map[0 := Ready] && s.interrupts == map[0 := 0] && s.wiped == map[0 := 1];
  }

  /** An interrupt whose item has just been allocated is counted, and its item scheduled, run and freed. */
  lemma ItemRuns(start: State, s: State, id: nat) returns (t: State)
    requires Reachable(Step, start, s) && id in s.items && s.items[id].pc == Allocated && Knows(s, s.items[id].irq)
    ensures Reachable(Step, start, t)
    ensures var irq := s.items[id].irq;
            t == s.(interrupts := s.interrupts[irq := s.interrupts[irq] + 1], bhs := s.bhs[irq := s.bhs[irq] + 1],
                    items := s.items - {id}, frees := s.frees + 1)
  {
    t := ItemScheduled(start, s, id);
    t := ReachStep(Step, start, t, Bottom(id));
    t := ReachStep(Step, start, t, Free(id));
    assert t.items == s.items - {id};
  }

  lemma ItemScheduled(start: State, s: State, id: nat) returns (t: State)
    requires Reachable(Step, start, s) && id in s.items && s.items[id].pc == Allocated && Knows(s, s.items[id].irq)
    ensures Reachable(Step, start, t)
    ensures var irq := s.items[id].irq;
            t == s.(interrupts := s.interrupts[irq := s.interrupts[irq] + 1],
                    items := s.items[id := Item(irq, Queued)])
  {
    t := ReachStep(Step, start, s, Count(id));
    t := ReachStep(Step, start, t, Schedule(id));
    assert t.items == s.items[id := Item(s.items[id].irq, Queued)];
  }

  /** The item has been allocated and freed. */
  ghost predicate Gone(s: State, id: nat) {
    Inv(s) && id < s.next && id !in s.items
  }

  lemma GoneStays(s: State, id: nat, e: Event)
    requires Gone(s, id) && Step(s, e).Some?
    ensures Gone(Step(s, e).value, id)
  {
    StepInv(s, e);
  }

  /** A freed item never comes back, in any later state, so no second free is possible. */
  lemma FreedForGood(lines: set<nat>, s: State, id: nat, t: State)
    requires Reachable(Step, Init(lines), s) && id < s.next && id !in s.items && Reachable(Step, s, t)
    ensures id !in t.items && Step(t, Free(id)) == None
  {
    ReachableInv(lines, s);
    var gone := (x: State) => Gone(x, id);
    forall x, e | gone(x) && Step(x, e).Some? ensures gone(Step(x, e).value) { GoneStays(x, id, e); }
    ReachKeeps(Step, gone, s, t);
  }
}
