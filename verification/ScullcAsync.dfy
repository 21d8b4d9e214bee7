/**
 * The asynchronous entry points of scullc: the transfer is done at submission, and only the
 * report of its result is put off to a delayed work item. Completions may run in any order
 * and be mixed with later submissions.
 */
module ScullcAsync {
  import opened Common
  import opened SparseFile

  /** A work record: the request to complete, and the result to complete it with. */
  datatype Work = Work(iocb: nat, result: int)

  /**
   * A submission with everything its outcome depends on: whether the lock and the two
   * kmallocs succeed, how many bytes copy_from_iter or copy_to_iter moves, and whether the
   * request is synchronous.
   */
  datatype Event =
    | SubmitWrite(iocb: nat, buf: seq<byte>, pos: nat, env: Env)
    | SubmitRead(iocb: nat, total: nat, pos: nat, env: Env)
    | Complete(work: Work)

  datatype Env = Env(bufOk: bool, locked: bool, granted: bool, moved: nat, sync: bool, workOk: bool)

  datatype State = State(
    file: File,
    pending: multiset<Work>,   // scheduled, not yet run
    direct: multiset<Work>,    // finished by the return value of the submission
    completed: multiset<Work>, // finished by ki_complete
    submitted: multiset<Work>, // every request, with the result computed for it
    frees: nat,                // work records given back, and
    allocs: nat)               // taken

  /** The transfer: what it leaves in the file and the result it computes. */
  ghost function Transfer(f: File, quantum: nat, e: Event): (r: (File, int))
    requires WellFormed(f, quantum) && !e.Complete?
    ensures WellFormed(r.0, quantum)
  {
    if !e.env.bufOk then (f, -ENOMEM)
    else match e
      case SubmitWrite(_, buf, pos, env) =>
        var got := buf[..Min(env.moved, |buf|)];
        if !env.locked then (f, -ERESTARTSYS)
        else var io := Write(f, quantum, pos, got, env.granted, Memcpy); (io.file, io.ret)
      case SubmitRead(_, total, pos, env) =>
        // copy_to_iter takes the read's result for a length; a negative one covers the buffer
        var ret := if env.locked then Read(f, quantum, pos, total, Memcpy).ret else -ERESTARTSYS;
        (f, Min(env.moved, if ret < 0 then total else ret))
  }

  ghost function Step(s: State, quantum: nat, e: Event): (r: Option<State>)
    requires WellFormed(s.file, quantum)
    ensures r.Some? ==> WellFormed(r.value.file, quantum)
  {
    match e
    case Complete(w) =>
      if w !in s.pending then None
      else Some(s.(pending := s.pending - multiset{w}, completed := s.completed + multiset{w}, frees := s.frees + 1))
    case _ =>
      var (f, result) := Transfer(s.file, quantum, e);
      var w := multiset{Work(e.iocb, result)};
      var s' := s.(file := f, submitted := s.submitted + w);
      if !e.env.bufOk || e.env.sync || !e.env.workOk then Some(s'.(direct := s.direct + w))
      else Some(s'.(pending := s.pending + w, allocs := s.allocs + 1))
  }

  /** The state after a run, or None if some completion was not scheduled. */
  ghost function Run(s: State, quantum: nat, es: seq<Event>): (r: Option<State>)
    requires WellFormed(s.file, quantum)
    ensures r.Some? ==> WellFormed(r.value.file, quantum)
    decreases |es|
  {
    if es == [] then Some(s)
    else
      var next := Step(s, quantum, es[0]);
      if next.None? then None else Run(next.value, quantum, es[1..])
  }

  ghost predicate Inv(s: State) {
    && s.direct + s.completed + s.pending == s.submitted
    && s.allocs == s.frees + |s.pending|
  }

  /**
   * Every request finishes exactly once: it is reported by its own submission, or waits in
   * one work record, or has been completed from it, each time with the result computed when
   * it was submitted; and records are freed as often as they have been completed.
   */
  lemma {:induction false} ExactlyOnce(s: State, quantum: nat, es: seq<Event>)
    requires WellFormed(s.file, quantum) && Inv(s) && Run(s, quantum, es).Some?
    ensures Inv(Run(s, quantum, es).value)
    ensures var t := Run(s, quantum, es).value;
            |t.pending| == 0 ==> t.direct + t.completed == t.submitted && t.frees == t.allocs
    decreases |es|
  {
    if es != [] {
      var t := Step(s, quantum, es[0]).value;
      assert Inv(t) by {
        if es[0].Complete? {
          assert t.direct + t.completed + t.pending == s.direct + s.completed + s.pending;
        }
      }
      ExactlyOnce(t, quantum, es[1..]);
    }
  }

  function Submissions(es: seq<Event>): seq<Event> {
    if es == [] then [] else (if es[0].Complete? then [] else [es[0]]) + Submissions(es[1..])
  }

  /** The contents of the device after submissions alone. */
  ghost function Contents(f: File, quantum: nat, es: seq<Event>): (g: File)
    requires WellFormed(f, quantum)
    ensures WellFormed(g, quantum)
    decreases |es|
  {
    if es == [] then f
    else if es[0].Complete? then Contents(f, quantum, es[1..])
    else Contents(Transfer(f, quantum, es[0]).0, quantum, es[1..])
  }

  lemma {:induction false} CompletionsMoveNothing(s: State, quantum: nat, es: seq<Event>)
    requires WellFormed(s.file, quantum) && Run(s, quantum, es).Some?
    ensures Run(s, quantum, es).value.file == Contents(s.file, quantum, Submissions(es))
    decreases |es|
  {
    if es != [] {
      CompletionsMoveNothing(Step(s, quantum, es[0]).value, quantum, es[1..]);
      var subs := Submissions(es);
      if es[0].Complete? {
        assert subs == Submissions(es[1..]);
      } else {
        assert subs[0] == es[0] && subs[1..] == Submissions(es[1..]);
      }
    }
  }

  /** Two runs that submit the same requests in the same order end with the same device. */
  lemma OrderOfCompletionIsInvisible(s: State, t: State, quantum: nat, es: seq<Event>, fs: seq<Event>)
    requires WellFormed(s.file, quantum) && s.file == t.file && Submissions(es) == Submissions(fs)
    requires Run(s, quantum, es).Some? && Run(t, quantum, fs).Some?
    ensures Run(s, quantum, es).value.file == Run(t, quantum, fs).value.file
  {
    CompletionsMoveNothing(s, quantum, es);
    CompletionsMoveNothing(t, quantum, fs);
  }

  // ---------------------------------------------------------------- what a submission does

  /** A write that gets its buffer, the lock and storage for its quantum: what it stores, and how much. */
  ghost predicate Lands(f: File, quantum: nat, e: Event)
    requires quantum > 0
  {
    e.SubmitWrite? && e.env.bufOk && e.env.locked && (e.pos / quantum in f.blocks || e.env.granted)
  }

  function Length(quantum: nat, e: Event): nat
    requires quantum > 0 && e.SubmitWrite?
  {
    Min(Min(e.env.moved, |e.buf|), quantum - e.pos % quantum)
  }

  /**
   * Such a write stores its bytes, up to the end of the quantum, allocates the quantum, and
   * computes -EFAULT all the same; no byte elsewhere changes, nor does the size.
   */
  lemma SubmissionStores(f: File, quantum: nat, e: Event, off: nat)
    requires WellFormed(f, quantum) && Lands(f, quantum, e)
    ensures var (g, result) := Transfer(f, quantum, e);
            && WellFormed(g, quantum) && result == -EFAULT && g.size == f.size
            && g.blocks.Keys == f.blocks.Keys + {e.pos / quantum}
            && View(g, quantum, off)
               == if e.pos <= off < e.pos + Min(Min(e.env.moved, |e.buf|), quantum - e.pos % quantum)
                  then e.buf[off - e.pos] else View(f, quantum, off)
  {
    var got := e.buf[..Min(e.env.moved, |e.buf|)];
    WriteView(f, quantum, e.pos, got, e.env.granted, Memcpy, off);
    MovedIs(f, quantum, e.pos, got, e.env.granted, Memcpy);
    WriteExtent(f, quantum, e.pos, got, e.env.granted, Memcpy);
    WriteErrors(f, quantum, e.pos, got, e.env.granted, Memcpy);
    MemcpyNeverSucceeds(f, quantum, e.pos, got, 0, e.env.granted);
  }

  /** Any other submission leaves the file alone, and a write computes the error of what it lacked. */
  lemma OthersStoreNothing(f: File, quantum: nat, e: Event)
    requires WellFormed(f, quantum) && !e.Complete? && !Lands(f, quantum, e)
    ensures Transfer(f, quantum, e).0 == f
    ensures e.SubmitWrite? ==>
              Transfer(f, quantum, e).1 == if e.env.bufOk && !e.env.locked then -ERESTARTSYS else -ENOMEM
  {
    if e.SubmitWrite? && e.env.bufOk && e.env.locked {
      WriteErrors(f, quantum, e.pos, e.buf[..Min(e.env.moved, |e.buf|)], e.env.granted, Memcpy);
    }
  }

  /**
   * The result of a read: -ENOMEM without a buffer; 0 past the end or at a hole; and otherwise,
   * since copy_to_iter takes the read's error for a length, whatever it moves of the whole buffer.
   */
  lemma ReadResult(f: File, quantum: nat, e: Event)
    requires WellFormed(f, quantum) && e.SubmitRead?
    ensures Transfer(f, quantum, e).1
            == if !e.env.bufOk then -ENOMEM
               else if e.env.locked && (e.pos > f.size || e.pos / quantum !in f.blocks) then 0
               else Min(e.env.moved, e.total)
  {
    ReadReturnsView(f, quantum, e.pos, e.total, Memcpy);
    MemcpyNeverSucceeds(f, quantum, e.pos, [], e.total, false);
  }

  /** A submission is put off exactly if it is asynchronous and gets its buffer and a work record. */
  lemma PutOffIff(s: State, quantum: nat, e: Event)
    requires WellFormed(s.file, quantum) && !e.Complete?
    ensures Step(s, quantum, e).Some?
    ensures var t, w := Step(s, quantum, e).value, Work(e.iocb, Transfer(s.file, quantum, e).1);
            && t.file == Transfer(s.file, quantum, e).0 && t.completed == s.completed && t.frees == s.frees
            && (t.pending == s.pending + multiset{w} <==> !e.env.sync && e.env.bufOk && e.env.workOk)
            && (t.direct == s.direct + multiset{w} <==> e.env.sync || !e.env.bufOk || !e.env.workOk)
  {
    var t, w := Step(s, quantum, e).value, Work(e.iocb, Transfer(s.file, quantum, e).1);
    assert |s.pending + multiset{w}| == |s.pending| + 1 && |s.direct + multiset{w}| == |s.direct| + 1;
  }

  // ---------------------------------------------------------------- what runs of them store

  /** The event, in device f, is a submission that stores the byte at off. */
  ghost predicate CoversIn(f: File, quantum: nat, e: Event, off: nat)
    requires WellFormed(f, quantum)
  {
    Lands(f, quantum, e) && e.pos <= off < e.pos + Length(quantum, e)
  }

  /** Submission i of es stores it, in the device as it is when its turn comes. */
  ghost predicate Covers(f: File, quantum: nat, es: seq<Event>, i: nat, off: nat)
    requires WellFormed(f, quantum) && i < |es|
  {
    CoversIn(Contents(f, quantum, es[..i]), quantum, es[i], off)
  }

  ghost function Moved(f: File, quantum: nat, e: Event): (g: File)
    requires WellFormed(f, quantum)
    ensures WellFormed(g, quantum)
  {
    if e.Complete? then f else Transfer(f, quantum, e).0
  }

  lemma {:induction false} ContentsLast(f: File, quantum: nat, es: seq<Event>, e: Event)
    requires WellFormed(f, quantum)
    ensures Contents(f, quantum, es + [e]) == Moved(Contents(f, quantum, es), quantum, e)
    decreases |es|
  {
    if es == [] {
      assert es + [e] == [e] && [e][1..] == [];
    } else {
      assert (es + [e])[0] == es[0] && (es + [e])[1..] == es[1..] + [e];
      ContentsLast(Moved(f, quantum, es[0]), quantum, es[1..], e);
    }
  }

  lemma OneEvent(f: File, quantum: nat, e: Event, off: nat)
    requires WellFormed(f, quantum)
    ensures View(Moved(f, quantum, e), quantum, off)
            == if CoversIn(f, quantum, e, off) then e.buf[off - e.pos] else View(f, quantum, off)
  {
    if Lands(f, quantum, e) {
      SubmissionStores(f, quantum, e, off);
    } else if !e.Complete? {
      OthersStoreNothing(f, quantum, e);
    }
  }

  /** What one more event does to a byte. */
  lemma LastEvent(f: File, quantum: nat, es: seq<Event>, e: Event, off: nat)
    requires WellFormed(f, quantum)
    ensures var g := Contents(f, quantum, es);
            View(Contents(f, quantum, es + [e]), quantum, off)
            == if CoversIn(g, quantum, e, off) then e.buf[off - e.pos] else View(g, quantum, off)
  {
    ContentsLast(f, quantum, es, e);
    OneEvent(Contents(f, quantum, es), quantum, e, off);
  }

  lemma CoversPrefix(f: File, quantum: nat, es: seq<Event>, n: nat, i: nat, off: nat)
    requires WellFormed(f, quantum) && i < n <= |es|
    ensures Covers(f, quantum, es[..n], i, off) == Covers(f, quantum, es, i, off)
  {
    assert es[..n][..i] == es[..i];
  }

  /** A byte that no submission covers is kept. */
  lemma {:induction false} UncoveredKept(f: File, quantum: nat, es: seq<Event>, off: nat)
    requires WellFormed(f, quantum) && forall i: nat | i < |es| :: !Covers(f, quantum, es, i, off)
    ensures View(Contents(f, quantum, es), quantum, off) == View(f, quantum, off)
    decreases |es|
  {
    if es != [] {
      var n := |es| - 1;
      LastEvent(f, quantum, es[..n], es[n], off);
      assert es[..n] + [es[n]] == es && !Covers(f, quantum, es, n, off);
      forall i: nat | i < n ensures !Covers(f, quantum, es[..n], i, off) { CoversPrefix(f, quantum, es, n, i, off); }
      UncoveredKept(f, quantum, es[..n], off);
    }
  }

  /** Any other byte is the one the last submission to cover it stored. */
  lemma {:induction false} LastSubmissionDecides(f: File, quantum: nat, es: seq<Event>, i: nat, off: nat)
    requires WellFormed(f, quantum) && i < |es| && Covers(f, quantum, es, i, off)
    requires forall j: nat | i < j < |es| :: !Covers(f, quantum, es, j, off)
    ensures View(Contents(f, quantum, es), quantum, off) == es[i].buf[off - es[i].pos]
    decreases |es|
  {
    var n := |es| - 1;
    LastEvent(f, quantum, es[..n], es[n], off);
    assert es[..n] + [es[n]] == es;
    if i < n {
      assert !Covers(f, quantum, es, n, off);
      CoversPrefix(f, quantum, es, n, i, off);
      forall j: nat | i < j < n ensures !Covers(f, quantum, es[..n], j, off) {
        CoversPrefix(f, quantum, es, n, j, off);
      }
      LastSubmissionDecides(f, quantum, es[..n], i, off);
    }
  }

  /** So it is on the device itself after any run, completions mixed in as they may be. */
  lemma RunStores(s: State, quantum: nat, es: seq<Event>, i: nat, off: nat)
    requires WellFormed(s.file, quantum) && Run(s, quantum, es).Some?
    requires var subs := Submissions(es);
             && i < |subs| && Covers(s.file, quantum, subs, i, off)
             && forall j: nat | i < j < |subs| :: !Covers(s.file, quantum, subs, j, off)
    ensures View(Run(s, quantum, es).value.file, quantum, off) == Submissions(es)[i].buf[off - Submissions(es)[i].pos]
  {
    CompletionsMoveNothing(s, quantum, es);
    LastSubmissionDecides(s.file, quantum, Submissions(es), i, off);
  }

  // ---------------------------------------------------------------- what it never does

  lemma TransferFails(f: File, quantum: nat, e: Event)
    requires WellFormed(f, quantum) && !e.Complete?
    ensures Transfer(f, quantum, e).0.size == f.size
    ensures e.SubmitWrite? ==> Transfer(f, quantum, e).1 < 0
  {
    if e.SubmitWrite? { MemcpyNeverSucceeds(f, quantum, e.pos, e.buf[..Min(e.env.moved, |e.buf|)], 0, e.env.granted); }
  }

  /** No request of these, all of them writes, has been answered with a count. */
  ghost predicate AllWritesFail(s: State, writes: set<nat>) {
    forall w | w in s.submitted && w.iocb in writes :: w.result < 0
  }

  function Readers(es: seq<Event>): set<nat> {
    set e | e in es && e.SubmitRead? :: e.iocb
  }

  /**
   * The consequence of testing memcpy's result as a fault: through the registered entry
   * points the size never changes, and no write is ever reported as a success, directly or
   * by completion.
   */
  lemma {:induction false} NothingEverSucceeds(s: State, quantum: nat, es: seq<Event>, writes: set<nat>)
    requires WellFormed(s.file, quantum) && Run(s, quantum, es).Some?
    requires AllWritesFail(s, writes) && Readers(es) !! writes
    ensures Run(s, quantum, es).value.file.size == s.file.size
    ensures AllWritesFail(Run(s, quantum, es).value, writes)
    decreases |es|
  {
    if es != [] {
      var t := Step(s, quantum, es[0]).value;
      if !es[0].Complete? {
        TransferFails(s.file, quantum, es[0]);
        if es[0].SubmitRead? { assert es[0].iocb in Readers(es); }
      }
      NothingEverSucceeds(t, quantum, es[1..], writes);
    }
  }
}
