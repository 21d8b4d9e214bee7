/**
 * scullc calls at the granularity of the lock. A read or write takes the geometry of the device
 * before it takes the lock, so a trim by another process may come in between and leave the call
 * with a set size that is no longer the device's. What a stored array is here is its length;
 * an index past it is a wild access. The lemmas say exactly which calls do harm, and that runs
 * without them are runs of the abstract file.
 */
module ScullcLock {
  import opened Arith
  import opened Common
  import opened SparseFile

  datatype Dev = Dev(
    qset: nat,
    sets: map<nat, nat>,                   // the length of the array of each list item that has one
    blocks: map<(nat, nat), seq<byte>>,    // the quantum in a slot of an item
    size: nat,
    wild: bool)                            // something was accessed past the end of an array

  /** Every array is as long as the device says, and holds quanta of the right length. */
  ghost predicate Sound(d: Dev, quantum: nat) {
    && !d.wild && quantum > 0 && d.qset > 0
    && (forall i | i in d.sets :: d.sets[i] == d.qset)
    && (forall k | k in d.blocks :: k.0 in d.sets && k.1 < d.qset && |d.blocks[k]| == quantum)
  }

  /** Quantum n of the file is in slot n % qset of item n / qset. */
  ghost predicate Number(d: Dev, f: File, n: nat)
    requires d.qset > 0
  {
    var k := (n / d.qset, n % d.qset);
    (n in f.blocks <==> k in d.blocks) && (n in f.blocks ==> d.blocks[k] == f.blocks[n])
  }

  ghost predicate Shows(d: Dev, f: File)
    requires d.qset > 0
  {
    d.size == f.size && forall n: nat :: Number(d, f, n)
  }

  /** A position split by the geometry a call has taken. */
  datatype Place = Place(item: nat, slot: nat, at: nat)

  function Split(quantum: nat, qset: nat, pos: nat): (p: Place)
    requires quantum > 0 && qset > 0
    ensures p.slot < qset && p.at < quantum
    ensures p.item * qset + p.slot == pos / quantum && p.at == pos % quantum
  {
    IndexInRange(pos, quantum, qset);
    var rest := pos % (quantum * qset);
    Place(pos / (quantum * qset), rest / quantum, rest % quantum)
  }

  /** The outcome of what is allocated and copied under the lock. */
  datatype Env = Env(setOk: bool, quantumOk: bool, copy: Copy)

  /** Finding or making the array of an item: its length is the set size the call has taken. */
  function WithSet(d: Dev, item: nat, qset: nat, setOk: bool): Dev {
    if item in d.sets || !setOk then d else d.(sets := d.sets[item := qset])
  }

  /** The write under the lock, with a set size taken before it. */
  function WriteBody(d: Dev, quantum: nat, qset: nat, pos: nat, buf: seq<byte>, env: Env): (Dev, int)
    requires quantum > 0 && qset > 0 && forall k | k in d.blocks :: |d.blocks[k]| == quantum
  {
    var p := Split(quantum, qset, pos);
    var e := WithSet(d, p.item, qset, env.setOk);
    if p.item !in e.sets then (e, -ENOMEM)
    else if p.slot >= e.sets[p.item] then (e.(wild := true), -EFAULT)
    else
      var k := (p.item, p.slot);
      if k !in e.blocks && !env.quantumOk then (e, -ENOMEM)
      else
        var block := if k in e.blocks then e.blocks[k] else seq(quantum, _ => 0);
        var count := Min(|buf|, quantum - p.at);
        var g := e.(blocks := e.blocks[k := Splice(block, p.at, buf[..Landed(env.copy, count)])]);
        if Faults(env.copy, count) then (g, -EFAULT) else (g.(size := Max(g.size, pos + count)), count)
  }

  /** The read under the lock: the device, and whether the read finds a quantum. */
  function ReadBody(d: Dev, quantum: nat, qset: nat, pos: nat): (Dev, bool)
    requires quantum > 0 && qset > 0
  {
    var p := Split(quantum, qset, pos);
    if pos > d.size || p.item !in d.sets then (d, false)
    else if p.slot >= d.sets[p.item] then (d.(wild := true), false)
    else (d, (p.item, p.slot) in d.blocks)
  }

  // ---------------------------------------------------------------- one call

  /** Harm: an array of the wrong length is hung up, or an array is indexed past its end. */
  predicate WriteHarms(d: Dev, quantum: nat, qset: nat, pos: nat, setOk: bool)
    requires quantum > 0 && qset > 0
  {
    var p := Split(quantum, qset, pos);
    if p.item in d.sets then p.slot >= d.qset else setOk && qset != d.qset
  }

  predicate ReadHarms(d: Dev, quantum: nat, qset: nat, pos: nat)
    requires quantum > 0 && qset > 0
  {
    var p := Split(quantum, qset, pos);
    pos <= d.size && p.item in d.sets && p.slot >= d.qset
  }

  lemma WriteKeepsIff(d: Dev, quantum: nat, qset: nat, pos: nat, buf: seq<byte>, env: Env)
    requires Sound(d, quantum) && qset > 0
    ensures Sound(WriteBody(d, quantum, qset, pos, buf, env).0, quantum)
            <==> !WriteHarms(d, quantum, qset, pos, env.setOk)
  {
    var p := Split(quantum, qset, pos);
    var e := WithSet(d, p.item, qset, env.setOk);
    if p.item !in d.sets && env.setOk && qset != d.qset {
      assert p.item in WriteBody(d, quantum, qset, pos, buf, env).0.sets;
    }
  }

  lemma ReadKeepsIff(d: Dev, quantum: nat, qset: nat, pos: nat)
    requires Sound(d, quantum) && qset > 0
    ensures Sound(ReadBody(d, quantum, qset, pos).0, quantum) <==> !ReadHarms(d, quantum, qset, pos)
  {
  }

  lemma {:induction false} Beyond(s: set<nat>) returns (n: nat)
    ensures forall i | i in s :: i < n
  {
    if s == {} {
      n := 0;
    } else {
      var i :| i in s;
      var m := Beyond(s - {i});
      n := Max(m, i + 1);
      forall j | j in s ensures j < n { assert j == i || j in s - {i}; }
    }
  }

  /** Every write is harmless exactly if the set size taken is still the device's. */
  lemma HarmlessIffCurrent(d: Dev, quantum: nat, qset: nat)
    requires Sound(d, quantum) && qset > 0
    ensures (forall pos, setOk :: !WriteHarms(d, quantum, qset, pos, setOk)) <==> qset == d.qset
  {
    if qset != d.qset {
      var n := Beyond(d.sets.Keys);
      var pos := n * (quantum * qset);
      MulAtLeast(qset, quantum);
      DivModUnique(pos, quantum * qset, n, 0);
      assert WriteHarms(d, quantum, qset, pos, true);
    }
  }

  /**
   * A stale write that keeps the structure stores its bytes in the quantum of its position, as
   * the device now numbers quanta, exactly if it goes to the first list item.
   */
  lemma StaleLandsIff(d: Dev, quantum: nat, qset: nat, pos: nat)
    requires Sound(d, quantum) && qset > 0 && qset != d.qset
    ensures var p := Split(quantum, qset, pos);
            p.item * d.qset + p.slot == pos / quantum <==> p.item == 0
  {
    var p := Split(quantum, qset, pos);
    Distribute(d.qset, qset, p.item);
    if p.item > 0 {
      if d.qset > qset { MulAtLeast(d.qset - qset, p.item); }
      else { Distribute(qset, d.qset, p.item); MulAtLeast(qset - d.qset, p.item); }
    }
  }

  lemma PutNumber(d: Dev, e: Dev, f: File, g: File, item: nat, slot: nat, block: seq<byte>, n: nat)
    requires d.qset == e.qset && slot < d.qset && Number(d, f, n)
    requires e.blocks == d.blocks[(item, slot) := block] && g.blocks == f.blocks[item * d.qset + slot := block]
    ensures Number(e, g, n)
  {
    SlotOf(n, d.qset, item, slot);
  }

  /** With the set size still the device's, the write is the abstract file's. */
  lemma FreshWrite(d: Dev, f: File, quantum: nat, pos: nat, buf: seq<byte>, env: Env)
    requires Sound(d, quantum) && WellFormed(f, quantum) && Shows(d, f)
    ensures var granted := env.quantumOk && (env.setOk || Split(quantum, d.qset, pos).item in d.sets);
            var io := Write(f, quantum, pos, buf, granted, env.copy);
            var (e, ret) := WriteBody(d, quantum, d.qset, pos, buf, env);
            ret == io.ret && e.qset == d.qset && WellFormed(io.file, quantum) && Shows(e, io.file)
  {
    var p := Split(quantum, d.qset, pos);
    var k, n0 := (p.item, p.slot), p.item * d.qset + p.slot;
    SlotOf(n0, d.qset, p.item, p.slot);
    assert Number(d, f, n0);
    var granted := env.quantumOk && (env.setOk || p.item in d.sets);
    var io := Write(f, quantum, pos, buf, granted, env.copy);
    var e := WriteBody(d, quantum, d.qset, pos, buf, env).0;
    forall n: nat ensures Number(e, io.file, n) {
      assert Number(d, f, n);
      if io.ret != -ENOMEM { PutNumber(d, e, f, io.file, p.item, p.slot, e.blocks[k], n); }
    }
  }

  /** And the read finds the quantum exactly if the file has it. */
  lemma FreshRead(d: Dev, f: File, quantum: nat, pos: nat)
    requires Sound(d, quantum) && WellFormed(f, quantum) && Shows(d, f) && pos <= d.size
    ensures ReadBody(d, quantum, d.qset, pos) == (d, pos / quantum in f.blocks)
  {
    var p := Split(quantum, d.qset, pos);
    SlotOf(pos / quantum, d.qset, p.item, p.slot);
    assert Number(d, f, pos / quantum);
  }

  // ---------------------------------------------------------------- runs

  /** Calls in progress have taken a set size and not yet the lock. */
  datatype State = State(dev: Dev, taken: map<nat, nat>)

  datatype Event =
    | Take(call: nat)
    | LockedWrite(call: nat, pos: nat, buf: seq<byte>, env: Env)
    | LockedRead(call: nat, pos: nat)
    | LockedTrim(qset: nat)

  /** Trim walks every array with the device's own set size, whatever length the array has. */
  predicate TrimHarms(d: Dev) {
    exists i :: i in d.sets && d.sets[i] < d.qset
  }

  function Trimmed(d: Dev, qset: nat): Dev { Dev(qset, map[], map[], 0, d.wild || TrimHarms(d)) }

  const Empty: Dev := Dev(2, map[], map[], 0, false)

  predicate Enabled(s: State, e: Event) {
    match e
    case Take(_) => true
    case LockedWrite(call, _, _, _) => call in s.taken
    case LockedRead(call, _) => call in s.taken
    case LockedTrim(qset) => qset > 0
  }

  /** What the steps rely on: set sizes and block lengths are those of real calls. */
  ghost predicate Typed(s: State, quantum: nat) {
    && quantum > 0 && s.dev.qset > 0
    && (forall c | c in s.taken :: s.taken[c] > 0)
    && (forall k | k in s.dev.blocks :: |s.dev.blocks[k]| == quantum)
  }

  ghost function Step(s: State, quantum: nat, e: Event): (t: State)
    requires Typed(s, quantum) && Enabled(s, e)
    ensures Typed(t, quantum)
  {
    match e
    case Take(call) => s.(taken := s.taken[call := s.dev.qset])
    case LockedWrite(call, pos, buf, env) =>
      State(WriteBody(s.dev, quantum, s.taken[call], pos, buf, env).0, s.taken - {call})
    case LockedRead(call, pos) => State(ReadBody(s.dev, quantum, s.taken[call], pos).0, s.taken - {call})
    case LockedTrim(qset) => s.(dev := Trimmed(s.dev, qset))
  }

  predicate Harms(s: State, quantum: nat, e: Event)
    requires quantum > 0 && Enabled(s, e) && forall c | c in s.taken :: s.taken[c] > 0
  {
    match e
    case LockedWrite(call, pos, _, env) => WriteHarms(s.dev, quantum, s.taken[call], pos, env.setOk)
    case LockedRead(call, pos) => ReadHarms(s.dev, quantum, s.taken[call], pos)
    case LockedTrim(_) => TrimHarms(s.dev)
    case Take(_) => false
  }

  /** A run of which every event could happen. */
  ghost predicate Possible(s: State, quantum: nat, es: seq<Event>)
    requires Typed(s, quantum)
    decreases |es|
  {
    es == [] || (Enabled(s, es[0]) && Possible(Step(s, quantum, es[0]), quantum, es[1..]))
  }

  ghost predicate SoundThroughout(s: State, quantum: nat, es: seq<Event>)
    requires Typed(s, quantum) && Possible(s, quantum, es)
    decreases |es|
  {
    Sound(s.dev, quantum) && (es != [] ==> SoundThroughout(Step(s, quantum, es[0]), quantum, es[1..]))
  }

  ghost predicate NoHarm(s: State, quantum: nat, es: seq<Event>)
    requires Typed(s, quantum) && Possible(s, quantum, es)
    decreases |es|
  {
    es != [] ==> !Harms(s, quantum, es[0]) && NoHarm(Step(s, quantum, es[0]), quantum, es[1..])
  }

  lemma StepKeepsIff(s: State, quantum: nat, e: Event)
    requires Typed(s, quantum) && Sound(s.dev, quantum) && Enabled(s, e)
    ensures Sound(Step(s, quantum, e).dev, quantum) <==> !Harms(s, quantum, e)
  {
    match e
    case LockedWrite(call, pos, buf, env) => WriteKeepsIff(s.dev, quantum, s.taken[call], pos, buf, env);
    case LockedRead(call, pos) => ReadKeepsIff(s.dev, quantum, s.taken[call], pos);
    case _ =>
  }

  /** The structure is kept throughout a run exactly if no step of it does harm. */
  lemma {:induction false} SoundIffNoHarm(s: State, quantum: nat, es: seq<Event>)
    requires Typed(s, quantum) && Sound(s.dev, quantum) && Possible(s, quantum, es)
    ensures SoundThroughout(s, quantum, es) <==> NoHarm(s, quantum, es)
    decreases |es|
  {
    if es != [] {
      StepKeepsIff(s, quantum, es[0]);
      if Sound(Step(s, quantum, es[0]).dev, quantum) { SoundIffNoHarm(Step(s, quantum, es[0]), quantum, es[1..]); }
    }
  }

  /** A write takes the set size 2, a trim adopts 1, and the write hangs up an array of length 2. */
  lemma TrimInBetween(quantum: nat, buf: seq<byte>)
    requires quantum > 0
    ensures var s := State(Empty, map[]);
            var es := [Take(0), LockedTrim(1), LockedWrite(0, 0, buf, Env(true, true, UserCopy(|buf|)))];
            && Sound(s.dev, quantum) && Possible(s, quantum, es)
            && !NoHarm(s, quantum, es) && !SoundThroughout(s, quantum, es)
  {
    var s := State(Empty, map[]);
    var write := LockedWrite(0, 0, buf, Env(true, true, UserCopy(|buf|)));
    var es := [Take(0), LockedTrim(1), write];
    var t := Step(s, quantum, Take(0));
    var u := Step(t, quantum, LockedTrim(1));
    assert es[1..] == [LockedTrim(1), write] && es[1..][1..] == [write] && [write][1..] == [];
    assert t == State(Empty, map[0 := 2]) && u.dev.qset == 1 && u.taken == map[0 := 2] && u.dev.sets == map[];
    assert Possible(u, quantum, [write]) && Possible(t, quantum, es[1..]);
    assert Harms(u, quantum, write) && !NoHarm(u, quantum, [write]) && !NoHarm(t, quantum, es[1..]);
    SoundIffNoHarm(s, quantum, es);
  }

  /** Every call still finds, when it gets the lock, the set size it took. */
  ghost predicate Undisturbed(s: State, quantum: nat, es: seq<Event>)
    requires Typed(s, quantum) && Possible(s, quantum, es)
    decreases |es|
  {
    es != [] ==>
      && (es[0].LockedWrite? || es[0].LockedRead? ==> s.taken[es[0].call] == s.dev.qset)
      && Undisturbed(Step(s, quantum, es[0]), quantum, es[1..])
  }

  /** The same run on the abstract file. */
  ghost function FileAfter(s: State, f: File, quantum: nat, es: seq<Event>): (g: File)
    requires Typed(s, quantum) && Possible(s, quantum, es) && WellFormed(f, quantum)
    decreases |es|
  {
    if es == [] then f
    else
      var next := match es[0]
        case LockedWrite(call, pos, buf, env) =>
          var granted := env.quantumOk && (env.setOk || Split(quantum, s.taken[call], pos).item in s.dev.sets);
          Write(f, quantum, pos, buf, granted, env.copy).file
        case LockedTrim(_) => File(0, map[])
        case _ => f;
      FileAfter(Step(s, quantum, es[0]), next, quantum, es[1..])
  }

  /** The device a run leaves. */
  ghost function DevAfter(s: State, quantum: nat, es: seq<Event>): Dev
    requires Typed(s, quantum) && Possible(s, quantum, es)
    decreases |es|
  {
    if es == [] then s.dev else DevAfter(Step(s, quantum, es[0]), quantum, es[1..])
  }

  /**
   * A run in which every call still has the right set size when it gets the lock does no harm,
   * and does to the file what its calls do one after the other, in the order of the locks.
   */
  lemma {:induction false} UndisturbedRunsAreSerial(s: State, f: File, quantum: nat, es: seq<Event>)
    requires Typed(s, quantum) && Possible(s, quantum, es) && Undisturbed(s, quantum, es)
    requires Sound(s.dev, quantum) && WellFormed(f, quantum) && Shows(s.dev, f)
    ensures NoHarm(s, quantum, es) && Sound(DevAfter(s, quantum, es), quantum)
    ensures Shows(DevAfter(s, quantum, es), FileAfter(s, f, quantum, es))
    decreases |es|
  {
    if es != [] {
      StepKeepsIff(s, quantum, es[0]);
      match es[0]
      case LockedWrite(call, pos, buf, env) =>
        FreshWrite(s.dev, f, quantum, pos, buf, env);
        var granted := env.quantumOk && (env.setOk || Split(quantum, s.taken[call], pos).item in s.dev.sets);
        var g := Write(f, quantum, pos, buf, granted, env.copy).file;
        UndisturbedRunsAreSerial(Step(s, quantum, es[0]), g, quantum, es[1..]);
      case LockedTrim(_) => UndisturbedRunsAreSerial(Step(s, quantum, es[0]), File(0, map[]), quantum, es[1..]);
      case _ => UndisturbedRunsAreSerial(Step(s, quantum, es[0]), f, quantum, es[1..]);
    }
  }
}
