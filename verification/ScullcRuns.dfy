/**
 * Runs of calls on a scullc device, one after the other, through the file positions of any
 * number of open files. The ioctls let a trim adopt any set size, and reads and writes then
 * divide by it: a call on a device whose set size is not positive is followed here as C
 * computes it, to an answer, a division by zero, or a walk of a negative number of items.
 */
module ScullcRuns {
  import opened Common
  import opened SparseFile
  import opened Scullc

  // ---------------------------------------------------------------- whether a call returns

  /** C's division and remainder, which truncate, of a number that is not negative. */
  function CDiv(a: nat, b: int): int
    requires b != 0
  {
    if b > 0 then a / b else -(a / -b)
  }

  function CMod(a: nat, b: int): nat
    requires b != 0
  {
    if b > 0 then a % b else a % -b
  }

  datatype Fate = Served | DividesByZero | WalksNegative

  /** What becomes of a read or write that has the lock. */
  function FateOf(reading: bool, quantum: nat, qset: int, size: nat, pos: nat): Fate {
    var itemsize := quantum * qset;
    if reading && pos > size then Served
    else if itemsize == 0 then DividesByZero
    else if CDiv(pos, itemsize) < 0 then WalksNegative
    else Served
  }

  /**
   * The call returns exactly with a positive set size, or as a read past the end, or, with a
   * negative set size, at a position in what would be the first list item.
   */
  predicate Returns(reading: bool, quantum: nat, qset: int, size: nat, pos: nat) {
    qset > 0 || (reading && pos > size) || (qset < 0 && pos < quantum * -qset)
  }

  lemma NegativeItem(quantum: nat, qset: int, pos: nat)
    requires quantum > 0 && qset < 0
    ensures quantum * qset == -(quantum * -qset) < 0
    ensures CDiv(pos, quantum * qset) < 0 <==> pos >= quantum * -qset
    ensures pos < quantum * -qset ==> CDiv(pos, quantum * qset) == 0 && CMod(pos, quantum * qset) == pos
  {
    var size := quantum * -qset;
    Arith.MulAtLeast(-qset, quantum);
    assert quantum * qset == -size;
    if pos < size {
      Arith.DivModUnique(pos, size, 0, pos);
    } else {
      Arith.QuotientBelow(pos, size, 1);
    }
  }

  lemma PositiveItem(quantum: nat, qset: int, pos: nat)
    requires quantum > 0 && qset > 0
    ensures quantum * qset > 0 && CDiv(pos, quantum * qset) >= 0
  {
    Arith.MulAtLeast(qset, quantum);
  }

  lemma FateIff(reading: bool, quantum: nat, qset: int, size: nat, pos: nat)
    requires quantum > 0
    ensures FateOf(reading, quantum, qset, size, pos) == Served <==> Returns(reading, quantum, qset, size, pos)
    ensures FateOf(reading, quantum, qset, size, pos) == DividesByZero <==> qset == 0 && !(reading && pos > size)
  {
    if qset > 0 { PositiveItem(quantum, qset, pos); }
    if qset < 0 { NegativeItem(quantum, qset, pos); }
  }

  // ---------------------------------------------------------------- the calls on values

  /** What a call's outcome depends on besides the device: the lock, the allocations, the copy. */
  datatype Env = Env(aio: bool, locked: bool, setOk: bool, quantumOk: bool, landed: nat)

  function CopyOf(env: Env): Copy { if env.aio then Memcpy else UserCopy(env.landed) }

  datatype Call =
    | SeekCall(h: nat, off: int, whence: int)
    | ReadCall(h: nat, count: nat, env: Env)
    | WriteCall(h: nat, buf: seq<byte>, env: Env)
    | TrimCall(qset: cint)

  datatype Result = Result(ret: int, data: seq<byte>)

  /** The abstract file with its positions, the set size, and the list items that have an array. */
  datatype Model = Model(sys: Sys, qset: int, sets: set<nat>)

  function CallFate(m: Model, quantum: nat, call: Call): Fate {
    match call
    case ReadCall(h, _, env) =>
      if env.locked then FateOf(true, quantum, m.qset, m.sys.file.size, Pos(m.sys, h)) else Served
    case WriteCall(h, _, env) =>
      if env.locked then FateOf(false, quantum, m.qset, m.sys.file.size, Pos(m.sys, h)) else Served
    case _ => Served
  }

  /** The condition for a call to return, as its caller could check it. */
  predicate CallReturns(m: Model, quantum: nat, call: Call) {
    match call
    case ReadCall(h, _, env) => env.locked ==> Returns(true, quantum, m.qset, m.sys.file.size, Pos(m.sys, h))
    case WriteCall(h, _, env) => env.locked ==> Returns(false, quantum, m.qset, m.sys.file.size, Pos(m.sys, h))
    case _ => true
  }

  /** A write has storage if its quantum can be allocated, and the array of its item is there or can be. */
  function Granted(m: Model, quantum: nat, pos: nat, env: Env): bool
    requires quantum > 0
  {
    m.qset > 0 && env.quantumOk && (env.setOk || ItemOf(quantum, m.qset, pos) in m.sets)
  }

  function ItemOf(quantum: nat, qset: int, pos: nat): nat
    requires quantum > 0 && qset > 0
  {
    PositiveItem(quantum, qset, pos);
    pos / (quantum * qset)
  }

  ghost function Next(m: Model, quantum: nat, call: Call): (n: Model)
    requires WellFormed(m.sys.file, quantum)
    ensures WellFormed(n.sys.file, quantum)
  {
    match call
    case SeekCall(h, off, whence) => m.(sys := Step(m.sys, quantum, Seek(h, off, whence)))
    case ReadCall(h, count, env) =>
      if env.locked then m.(sys := Step(m.sys, quantum, DoRead(h, count, CopyOf(env)))) else m
    case WriteCall(h, buf, env) =>
      if !env.locked then m
      else
        var p := Pos(m.sys, h);
        var sets := m.sets + if m.qset > 0 && env.setOk then {ItemOf(quantum, m.qset, p)} else {};
        m.(sys := Step(m.sys, quantum, DoWrite(h, buf, Granted(m, quantum, p, env), CopyOf(env))), sets := sets)
    case TrimCall(qset) => Model(Step(m.sys, quantum, Trim(qset)), qset, {})
  }

  ghost function Answer(m: Model, quantum: nat, call: Call): Result
    requires WellFormed(m.sys.file, quantum)
  {
    match call
    case SeekCall(h, off, whence) => Result(SeekTo(m.sys.file.size, Pos(m.sys, h), off, whence), [])
    case ReadCall(h, count, env) =>
      if !env.locked then Result(-ERESTARTSYS, [])
      else var io := Read(m.sys.file, quantum, Pos(m.sys, h), count, CopyOf(env)); Result(io.ret, io.data)
    case WriteCall(h, buf, env) =>
      if !env.locked then Result(-ERESTARTSYS, [])
      else
        var p := Pos(m.sys, h);
        Result(Write(m.sys.file, quantum, p, buf, Granted(m, quantum, p, env), CopyOf(env)).ret, [])
    case TrimCall(_) => Result(0, [])
  }

  // ---------------------------------------------------------------- runs on values

  /** The first call that does not return decides; after it there are no more. */
  ghost function RunFate(m: Model, quantum: nat, calls: seq<Call>): Fate
    requires WellFormed(m.sys.file, quantum)
    decreases |calls|
  {
    if calls == [] then Served
    else if CallFate(m, quantum, calls[0]) != Served then CallFate(m, quantum, calls[0])
    else RunFate(Next(m, quantum, calls[0]), quantum, calls[1..])
  }

  ghost function After(m: Model, quantum: nat, calls: seq<Call>): (n: Model)
    requires WellFormed(m.sys.file, quantum)
    ensures WellFormed(n.sys.file, quantum)
    decreases |calls|
  {
    if calls == [] || CallFate(m, quantum, calls[0]) != Served then m
    else After(Next(m, quantum, calls[0]), quantum, calls[1..])
  }

  ghost function Answers(m: Model, quantum: nat, calls: seq<Call>): seq<Result>
    requires WellFormed(m.sys.file, quantum)
    decreases |calls|
  {
    if calls == [] || CallFate(m, quantum, calls[0]) != Served then []
    else [Answer(m, quantum, calls[0])] + Answers(Next(m, quantum, calls[0]), quantum, calls[1..])
  }

  ghost predicate AllReturn(m: Model, quantum: nat, calls: seq<Call>)
    requires WellFormed(m.sys.file, quantum)
    decreases |calls|
  {
    calls != [] ==>
      CallReturns(m, quantum, calls[0]) && AllReturn(Next(m, quantum, calls[0]), quantum, calls[1..])
  }

  lemma CallFateIff(m: Model, quantum: nat, call: Call)
    requires quantum > 0
    ensures CallFate(m, quantum, call) == Served <==> CallReturns(m, quantum, call)
  {
    if call.ReadCall? { FateIff(true, quantum, m.qset, m.sys.file.size, Pos(m.sys, call.h)); }
    if call.WriteCall? { FateIff(false, quantum, m.qset, m.sys.file.size, Pos(m.sys, call.h)); }
  }

  /** A run is served to its end exactly if each of its calls meets the condition when its turn comes. */
  lemma {:induction false} ServedIffAllReturn(m: Model, quantum: nat, calls: seq<Call>)
    requires WellFormed(m.sys.file, quantum)
    ensures RunFate(m, quantum, calls) == Served <==> AllReturn(m, quantum, calls)
    ensures RunFate(m, quantum, calls) == Served ==> |Answers(m, quantum, calls)| == |calls|
    decreases |calls|
  {
    if calls != [] {
      CallFateIff(m, quantum, calls[0]);
      ServedIffAllReturn(Next(m, quantum, calls[0]), quantum, calls[1..]);
    }
  }

  lemma NextAgrees(m: Model, quantum: nat, call: Call)
    requires WellFormed(m.sys.file, quantum) && Agrees(m.sys, quantum)
    ensures Agrees(Next(m, quantum, call).sys, quantum)
  {
    match call
    case SeekCall(h, off, whence) => StepAgrees(m.sys, quantum, Seek(h, off, whence));
    case ReadCall(h, count, env) => StepAgrees(m.sys, quantum, DoRead(h, count, CopyOf(env)));
    case WriteCall(h, buf, env) =>
      StepAgrees(m.sys, quantum, DoWrite(h, buf, Granted(m, quantum, Pos(m.sys, h), env), CopyOf(env)));
    case TrimCall(qset) => StepAgrees(m.sys, quantum, Trim(qset));
  }

  /** What a run leaves agrees with the log of its writes, wherever it stops. */
  lemma {:induction false} RunAgreesWithLog(m: Model, quantum: nat, calls: seq<Call>)
    requires WellFormed(m.sys.file, quantum) && Agrees(m.sys, quantum)
    ensures Agrees(After(m, quantum, calls).sys, quantum)
    decreases |calls|
  {
    if calls != [] && CallFate(m, quantum, calls[0]) == Served {
      NextAgrees(m, quantum, calls[0]);
      RunAgreesWithLog(Next(m, quantum, calls[0]), quantum, calls[1..]);
    }
  }

  const Fine: Env := Env(false, true, true, true, 1)
  const Fresh: Model := Model(Sys(File(0, map[]), map[], []), 4, {})

  /** After a trim to 0 a write divides by zero; after one to -1, a write one quantum in walks off. */
  lemma TrimThenWrite(quantum: nat)
    requires quantum > 0
    ensures RunFate(Fresh, quantum, [TrimCall(0), WriteCall(0, [1], Fine)]) == DividesByZero
    ensures RunFate(Fresh, quantum, [TrimCall(-1), SeekCall(0, quantum, 0), WriteCall(0, [1], Fine)]) == WalksNegative
  {
    var write := WriteCall(0, [1], Fine);
    var empty := Next(Fresh, quantum, TrimCall(0));
    assert [TrimCall(0), write][1..] == [write];
    assert CallFate(empty, quantum, write) == DividesByZero;
    var negative := Next(Fresh, quantum, TrimCall(-1));
    var there := Next(negative, quantum, SeekCall(0, quantum, 0));
    var calls := [TrimCall(-1), SeekCall(0, quantum, 0), write];
    assert calls[1..] == [SeekCall(0, quantum, 0), write] && calls[1..][1..] == [write];
    NegativeItem(quantum, -1, quantum);
    assert CallFate(there, quantum, write) == WalksNegative;
    assert RunFate(there, quantum, [write]) == WalksNegative;
    assert RunFate(negative, quantum, calls[1..]) == RunFate(there, quantum, [write]);
  }

  /** But a read past the end of the emptied device is still answered, with 0. */
  lemma TrimThenRead(quantum: nat)
    requires quantum > 0
    ensures var calls := [TrimCall(0), SeekCall(0, 5, 0), ReadCall(0, 1, Fine)];
            && RunFate(Fresh, quantum, calls) == Served
            && Answers(Fresh, quantum, calls) == [Result(0, []), Result(5, []), Result(0, [])]
  {
    var read := ReadCall(0, 1, Fine);
    var calls := [TrimCall(0), SeekCall(0, 5, 0), read];
    var empty := Next(Fresh, quantum, TrimCall(0));
    var there := Next(empty, quantum, SeekCall(0, 5, 0));
    assert calls[1..] == [SeekCall(0, 5, 0), read] && calls[1..][1..] == [read] && [read][1..] == [];
    assert CallFate(there, quantum, read) == Served && Answer(there, quantum, read) == Result(0, []);
    assert RunFate(there, quantum, [read]) == Served;
    assert RunFate(empty, quantum, calls[1..]) == RunFate(there, quantum, [read]);
    assert Answers(there, quantum, [read]) == [Result(0, [])];
    assert Answers(empty, quantum, calls[1..]) == [Result(5, [])] + [Result(0, [])];
  }

  lemma FirstCall(m: Model, quantum: nat, a: Call, rest: seq<Call>)
    requires WellFormed(m.sys.file, quantum) && CallReturns(m, quantum, a)
    ensures var n := Next(m, quantum, a);
            && RunFate(m, quantum, [a] + rest) == RunFate(n, quantum, rest)
            && After(m, quantum, [a] + rest) == After(n, quantum, rest)
            && Answers(m, quantum, [a] + rest) == [Answer(m, quantum, a)] + Answers(n, quantum, rest)
  {
    CallFateIff(m, quantum, a);
    assert ([a] + rest)[0] == a && ([a] + rest)[1..] == rest;
  }

  lemma OneCall(m: Model, quantum: nat, a: Call)
    requires WellFormed(m.sys.file, quantum) && CallReturns(m, quantum, a)
    ensures RunFate(m, quantum, [a]) == Served && After(m, quantum, [a]) == Next(m, quantum, a)
    ensures Answers(m, quantum, [a]) == [Answer(m, quantum, a)]
  {
    FirstCall(m, quantum, a, []);
    assert [a] + [] == [a];
  }

  /** What a run of two calls answers and leaves. */
  lemma TwoCalls(m: Model, quantum: nat, a: Call, b: Call)
    requires WellFormed(m.sys.file, quantum) && CallReturns(m, quantum, a)
    requires CallReturns(Next(m, quantum, a), quantum, b)
    ensures var n := Next(m, quantum, a);
            && RunFate(m, quantum, [a, b]) == Served && After(m, quantum, [a, b]) == Next(n, quantum, b)
            && Answers(m, quantum, [a, b]) == [Answer(m, quantum, a), Answer(n, quantum, b)]
  {
    FirstCall(m, quantum, a, [b]);
    OneCall(Next(m, quantum, a), quantum, b);
    assert [a] + [b] == [a, b];
  }

  /**
   * A file that seeks to the end is told the size, and makes the device longer by exactly what
   * its next write returns; that leaves it at the new end.
   */
  lemma Appending(m: Model, quantum: nat, h: nat, buf: seq<byte>, env: Env)
    requires WellFormed(m.sys.file, quantum) && m.qset > 0
    ensures var calls := [SeekCall(h, 0, 2), WriteCall(h, buf, env)];
            var results, t := Answers(m, quantum, calls), After(m, quantum, calls);
            && RunFate(m, quantum, calls) == Served && |results| == 2
            && results[0].ret == m.sys.file.size
            && t.sys.file.size == m.sys.file.size + (if results[1].ret >= 0 then results[1].ret else 0)
            && Pos(t.sys, h) == t.sys.file.size
  {
    var seek, write := SeekCall(h, 0, 2), WriteCall(h, buf, env);
    TwoCalls(m, quantum, seek, write);
    SeekTells(m.sys.file.size, Pos(m.sys, h));
    StepMoves(m.sys, quantum, Seek(h, 0, 2), h);
    var n := Next(m, quantum, seek);
    if env.locked {
      var granted := Granted(n, quantum, Pos(n.sys, h), env);
      StepMoves(n.sys, quantum, DoWrite(h, buf, granted, CopyOf(env)), h);
      AppendGrows(m.sys, quantum, h, buf, granted, CopyOf(env));
    }
  }

  /** A relative seek by 0 tells where the file is, and moves nothing. */
  lemma Telling(m: Model, quantum: nat, h: nat, g: nat)
    requires WellFormed(m.sys.file, quantum)
    ensures Answer(m, quantum, SeekCall(h, 0, 1)).ret == Pos(m.sys, h)
    ensures var n := Next(m, quantum, SeekCall(h, 0, 1)); n.sys.file == m.sys.file && Pos(n.sys, g) == Pos(m.sys, g)
  {
    SeekTells(m.sys.file.size, Pos(m.sys, h));
    StepMoves(m.sys, quantum, Seek(h, 0, 1), g);
  }

  // ---------------------------------------------------------------- the calls on the device

  /** Between calls: no mapping, and a valid structure or at least an empty one. */
  ghost predicate Resting(dev: ScullcDev)
    reads dev, dev.layout.path.Keys
  {
    && dev.vmas == 0 && dev.quantum > 0 && -0x8000_0000 <= dev.qset < 0x8000_0000 && dev in dev.layout.path
    && (dev.Bare() || dev.Valid()) && (dev.qset > 0 ==> dev.Valid())
  }

  /** The device is what the model says, positions apart. */
  ghost predicate Is(dev: ScullcDev, m: Model)
    reads dev
  {
    dev.Flat() == m.sys.file && dev.qset == m.qset && dev.Sets() == m.sets
  }

  lemma RestingWhole(dev: ScullcDev)
    requires Resting(dev)
    ensures WellFormed(dev.Flat(), dev.quantum)
  {
    if dev.Valid() { dev.StoredWhole(); }
  }

  /** The size in bytes of an array of qset pointers, as kmalloc is asked for it. */
  function ArrayBytes(qset: int): nat { qset * 8 % 0x1_0000_0000_0000_0000 }

  /** A negative number of pointers is more than kmalloc ever grants. */
  lemma NegativeArray(qset: cint)
    requires qset < 0
    ensures ArrayBytes(qset) > 0x7000_0000_0000_0000
  {
  }

  /** scullc_do_read on a device of any geometry. */
  method Reading(dev: ScullcDev, count: nat, pos: nat, env: Env)
    returns (fate: Fate, ret: int, newPos: nat, data: seq<byte>)
    requires Resting(dev)
    modifies dev.layout.path.Keys
    ensures Resting(dev) && dev.quantum == old(dev.quantum) && dev.qset == old(dev.qset)
    ensures fresh(dev.layout.path.Keys - old(dev.layout.path.Keys)) && dev.Sets() == old(dev.Sets())
    ensures dev.Flat() == old(dev.Flat()) && WellFormed(dev.Flat(), dev.quantum)
    ensures fate == if env.locked then FateOf(true, dev.quantum, dev.qset, dev.size, pos) else Served
    ensures !env.locked ==> ret == -ERESTARTSYS && newPos == pos && data == []
    ensures env.locked && fate == Served ==>
              Io(dev.Flat(), newPos, ret, data) == Read(dev.Flat(), dev.quantum, pos, count, CopyOf(env))
  {
    RestingWhole(dev);
    if dev.qset > 0 {
      PositiveItem(dev.quantum, dev.qset, pos);
      fate := Served;
      ret, newPos, data := dev.DoRead(count, pos, env.aio, env.locked, env.landed);
      return;
    }
    if !env.locked { return Served, -ERESTARTSYS, pos, []; }
    if pos > dev.size { return Served, 0, pos, []; }
    var itemsize := dev.quantum * dev.qset;
    if itemsize == 0 { return DividesByZero, 0, pos, []; }
    if CDiv(pos, itemsize) < 0 { return WalksNegative, 0, pos, []; }
    NegativeItem(dev.quantum, dev.qset, pos);
    assert dev.data == null;                        // item 0: the head, which has no array
    fate, ret, newPos, data := Served, 0, pos, [];
  }

  /** scullc_do_write on a device of any geometry. */
  method Writing(dev: ScullcDev, buf: seq<byte>, pos: nat, env: Env, ghost m: Model)
    returns (fate: Fate, ret: int, newPos: nat)
    requires Resting(dev) && Is(dev, m)
    modifies dev.layout.path.Keys
    ensures Resting(dev) && dev.quantum == old(dev.quantum) && dev.qset == old(dev.qset)
    ensures fresh(dev.layout.path.Keys - old(dev.layout.path.Keys)) && WellFormed(m.sys.file, dev.quantum)
    ensures fate == if env.locked then FateOf(false, dev.quantum, dev.qset, old(dev.size), pos) else Served
    ensures !env.locked ==> ret == -ERESTARTSYS && newPos == pos
    ensures !env.locked || fate != Served ==> dev.Flat() == old(dev.Flat()) && dev.Sets() == old(dev.Sets())
    ensures env.locked && fate == Served ==>
              Io(dev.Flat(), newPos, ret, [])
              == Write(m.sys.file, dev.quantum, pos, buf, Granted(m, dev.quantum, pos, env), CopyOf(env))
    ensures env.locked && fate == Served ==>
              dev.Sets() == old(dev.Sets())
                            + if dev.qset > 0 && env.setOk then {ItemOf(dev.quantum, dev.qset, pos)} else {}
  {
    RestingWhole(dev);
    if dev.qset > 0 {
      PositiveItem(dev.quantum, dev.qset, pos);
      fate := Served;
      ret, newPos := dev.DoWrite(buf, pos, env.aio, env.locked, env.setOk, env.quantumOk, env.landed);
      return;
    }
    if !env.locked { return Served, -ERESTARTSYS, pos; }
    var itemsize := dev.quantum * dev.qset;
    if itemsize == 0 { return DividesByZero, 0, pos; }
    if CDiv(pos, itemsize) < 0 { return WalksNegative, 0, pos; }
    NegativeItem(dev.quantum, dev.qset, pos);
    NegativeArray(dev.qset);
    assert dev.data == null;                        // item 0: the head, whose array cannot be had
    fate, ret, newPos := Served, -ENOMEM, pos;
  }

  /** One call, through the file position of the open file that makes it. */
  method Perform(dev: ScullcDev, start: map<nat, nat>, call: Call, ghost m: Model)
    returns (fate: Fate, pos: map<nat, nat>, result: Result)
    requires Resting(dev) && Is(dev, m) && start == m.sys.pos
    modifies dev.layout.path.Keys
    ensures Resting(dev) && dev.quantum == old(dev.quantum)
    ensures fresh(dev.layout.path.Keys - old(dev.layout.path.Keys))
    ensures WellFormed(m.sys.file, dev.quantum) && fate == CallFate(m, dev.quantum, call)
    ensures fate != Served ==> Is(dev, m) && pos == start
    ensures fate == Served ==>
              && Is(dev, Next(m, dev.quantum, call)) && pos == Next(m, dev.quantum, call).sys.pos
              && result == Answer(m, dev.quantum, call)
  {
    RestingWhole(dev);
    fate, pos, result := Served, start, Result(0, []);
    match call
    case SeekCall(h, off, whence) =>
      var p := if h in start then start[h] else 0;
      var ret := SeekTo(dev.size, p, off, whence);
      if ret >= 0 { pos := pos[h := ret]; }
      result := Result(ret, []);
    case ReadCall(h, count, env) =>
      var p := if h in start then start[h] else 0;
      var ret, newPos, data;
      fate, ret, newPos, data := Reading(dev, count, p, env);
      if fate == Served && env.locked { pos := pos[h := newPos]; }
      result := Result(ret, data);
    case WriteCall(h, buf, env) =>
      var p := if h in start then start[h] else 0;
      var ret, newPos;
      fate, ret, newPos := Writing(dev, buf, p, env, m);
      if fate == Served && env.locked { pos := pos[h := newPos]; }
      result := Result(ret, []);
    case TrimCall(qset) =>
      var ret := dev.Trim(qset, dev.quantum);
      result := Result(ret, []);
  }

  /**
   * Any run of calls on the linked structure goes as far as the same run of the model, gives
   * the same answers, and leaves the same file, positions and arrays, whatever locks,
   * allocations and copies fail on the way and whatever set sizes its trims adopt.
   */
  method Replay(dev: ScullcDev, start: map<nat, nat>, calls: seq<Call>)
    returns (fate: Fate, pos: map<nat, nat>, results: seq<Result>)
    requires Resting(dev)
    modifies dev.layout.path.Keys
    ensures Resting(dev) && dev.quantum == old(dev.quantum) && WellFormed(old(dev.Flat()), dev.quantum)
    ensures var m := Model(Sys(old(dev.Flat()), start, []), old(dev.qset), old(dev.Sets()));
            && fate == RunFate(m, dev.quantum, calls)
            && results == Answers(m, dev.quantum, calls)
            && Is(dev, After(m, dev.quantum, calls)) && pos == After(m, dev.quantum, calls).sys.pos
            && (fate == Served <==> AllReturn(m, dev.quantum, calls))
  {
    RestingWhole(dev);
    fate, pos, results := Served, start, [];
    ghost var first := Model(Sys(dev.Flat(), start, []), dev.qset, dev.Sets());
    ghost var m, quantum := first, dev.quantum;
    ServedIffAllReturn(first, quantum, calls);
    for i := 0 to |calls|
      invariant Resting(dev) && dev.quantum == quantum && fate == Served
      invariant fresh(dev.layout.path.Keys - old(dev.layout.path.Keys))
      invariant WellFormed(m.sys.file, quantum) && Is(dev, m) && pos == m.sys.pos
      invariant RunFate(first, quantum, calls) == RunFate(m, quantum, calls[i..])
      invariant After(first, quantum, calls) == After(m, quantum, calls[i..])
      invariant Answers(first, quantum, calls) == results + Answers(m, quantum, calls[i..])
    {
      var call := calls[i];
      assert calls[i..][0] == call && calls[i..][1..] == calls[i + 1..];
      var result;
      fate, pos, result := Perform(dev, pos, call, m);
      if fate != Served { return; }
      results := results + [result];
      m := Next(m, quantum, call);
    }
  }
}
