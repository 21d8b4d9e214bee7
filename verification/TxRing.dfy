/**
 * The transmit side of a UART driver: a ring of 4096 bytes that the serial core fills and the
 * driver drains a bounded number at a time. The ring is proved to be a queue, and over any
 * run every byte written is sent once, in order, or still pending.
 */
module TxRing {
  import opened Common
  import Arith
  import opened Bits

  const SIZE: nat := 4096
  const WAKEUP_CHARS: nat := 256

  // ---- The line as a value ----

  /**
   * What a port means: the characters pending, the flow control character waiting (0 for none),
   * the transmit counter; and the history of characters written, of those sent, and of flow
   * control characters sent.
   */
  datatype Line = Line(pending: seq<byte>, xChar: byte, stopped: bool, tx: nat,
                       written: seq<byte>, sent: seq<byte>, xSent: nat)

  /** The most characters one call sends: the do loop sends one even when half the fifo is none. */
  function Chunk(fifosize: nat): nat { Max(1, fifosize / 2) }

  /** That is half the fifo, rounded down, and 1 for a fifo of fewer than 4. */
  lemma ChunkIs(fifosize: nat)
    ensures fifosize < 4 ==> Chunk(fifosize) == 1
    ensures fifosize >= 2 ==> 2 * Chunk(fifosize) <= fifosize < 2 * Chunk(fifosize) + 2
  {
  }

  /** The first n pending characters sent. */
  function Taken(l: Line, n: nat): Line
    requires n <= |l.pending|
  {
    l.(pending := l.pending[n..], tx := l.tx + n, sent := l.sent + l.pending[..n])
  }

  lemma TakeMore(l: Line, n: nat, m: nat)
    requires n + m <= |l.pending|
    ensures Taken(Taken(l, n), m) == Taken(l, n + m)
  {
    assert l.pending[n..][m..] == l.pending[n + m..];
    assert l.pending[..n] + l.pending[n..][..m] == l.pending[..n + m];
    assert l.sent + l.pending[..n] + l.pending[n..][..m] == l.sent + (l.pending[..n] + l.pending[n..][..m]);
  }

  /** A call of tiny_tx_chars. */
  function Drained(l: Line, fifosize: nat): Line {
    if l.xChar != 0 then l.(tx := l.tx + 1, xChar := 0, xSent := l.xSent + 1)
    else if l.pending == [] || l.stopped then l
    else Taken(l, Min(|l.pending|, Chunk(fifosize)))
  }

  /** The serial core's character write: it is refused when the ring is full. */
  function Accept(l: Line, c: byte): Line {
    if |l.pending| < SIZE - 1 then l.(pending := l.pending + [c], written := l.written + [c]) else l
  }

  /** A flow control character goes alone, stopped or not, and sends no other character. */
  lemma XCharAlone(l: Line, fifosize: nat)
    requires l.xChar != 0
    ensures var d := Drained(l, fifosize);
            && d.pending == l.pending && d.sent == l.sent && d.written == l.written && d.stopped == l.stopped
            && d.xChar == 0 && d.xSent == l.xSent + 1 && d.tx == l.tx + 1
  {
  }

  /** Without one a stopped port sends nothing, and any other the next characters, as many as a chunk. */
  lemma SendsIffGoing(l: Line, fifosize: nat)
    requires l.xChar == 0
    ensures l.stopped ==> Drained(l, fifosize) == l
    ensures !l.stopped ==>
              var d, n := Drained(l, fifosize), if |l.pending| <= Chunk(fifosize) then |l.pending| else Chunk(fifosize);
              && d.sent == l.sent + l.pending[..n] && d.pending == l.pending[n..] && d.tx == l.tx + n
              && d.written == l.written && d.xSent == l.xSent && d.xChar == 0 && !d.stopped
  {
    if l.pending == [] { assert l.sent + l.pending[..0] == l.sent; }
  }

  // ---- Runs ----

  /** What happens to a port: the serial core's three requests, and the timer that drains it. */
  datatype Event = Put(c: byte) | SendXChar(x: byte) | SetStopped(b: bool) | Timer

  function Step(fifosize: nat, l: Line, e: Event): Line {
    match e
    case Put(c) => Accept(l, c)
    case SendXChar(x) => l.(xChar := x)
    case SetStopped(b) => l.(stopped := b)
    case Timer => Drained(l, fifosize)
  }

  function Run(fifosize: nat, l: Line, es: seq<Event>): Line
    decreases |es|
  {
    if es == [] then l else Run(fifosize, Step(fifosize, l, es[0]), es[1..])
  }

  const Idle: Line := Line([], 0, false, 0, [], [], 0)

  /** What was written is what was sent and then what is pending. */
  ghost predicate InOrder(l: Line) {
    && l.written == l.sent + l.pending
    && l.tx == |l.sent| + l.xSent
    && |l.pending| < SIZE
  }

  lemma StepInOrder(fifosize: nat, l: Line, e: Event)
    ensures InOrder(l) ==> InOrder(Step(fifosize, l, e))
  {
  }

  /** Nothing is lost, repeated or reordered in any run. */
  lemma {:induction false} NothingLost(fifosize: nat, l: Line, es: seq<Event>)
    requires InOrder(l)
    ensures InOrder(Run(fifosize, l, es))
    decreases |es|
  {
    if es != [] {
      StepInOrder(fifosize, l, es[0]);
      NothingLost(fifosize, Step(fifosize, l, es[0]), es[1..]);
    }
  }

  function Puts(chars: seq<byte>): (es: seq<Event>)
    ensures |es| == |chars|
  {
    seq(|chars|, i requires 0 <= i < |chars| => Put(chars[i]))
  }

  /** As many characters as fit are taken, in order; the ring holds 4095. */
  lemma {:induction false} RoomFor(fifosize: nat, l: Line, chars: seq<byte>)
    requires |l.pending| + |chars| <= 4095
    ensures Run(fifosize, l, Puts(chars)) == l.(pending := l.pending + chars, written := l.written + chars)
    decreases |chars|
  {
    if chars == [] {
      assert l.pending + chars == l.pending && l.written + chars == l.written;
    } else {
      var next := Accept(l, chars[0]);
      assert Puts(chars)[0] == Put(chars[0]) && Puts(chars)[1..] == Puts(chars[1..]);
      RoomFor(fifosize, next, chars[1..]);
      assert next.pending + chars[1..] == l.pending + chars && next.written + chars[1..] == l.written + chars;
    }
  }

  /** A full ring refuses a character, and nothing changes. */
  lemma FullRefuses(l: Line, c: byte)
    requires |l.pending| == 4095
    ensures Accept(l, c) == l
  {
  }

  function Ticks(l: Line, fifosize: nat, k: nat): Line {
    if k == 0 then l else Drained(Ticks(l, fifosize, k - 1), fifosize)
  }

  /** An unstopped port sends a full chunk at each tick until it has sent everything. */
  lemma {:induction false} TicksTake(l: Line, fifosize: nat, k: nat)
    requires l.xChar == 0 && !l.stopped
    ensures Ticks(l, fifosize, k) == Taken(l, Min(|l.pending|, k * Chunk(fifosize)))
  {
    if k > 0 {
      TicksTake(l, fifosize, k - 1);
      var c := Chunk(fifosize);
      Arith.Distribute(k, 1, c);
      var n := Min(|l.pending|, (k - 1) * c);
      TakeMore(l, n, Min(|l.pending| - n, c));
    } else {
      assert Taken(l, 0) == l;
    }
  }

  /** The ring is empty after exactly as many ticks as it holds chunks, begun ones included. */
  lemma EmptyAfter(l: Line, fifosize: nat, k: nat)
    requires l.xChar == 0 && !l.stopped
    ensures Ticks(l, fifosize, k).pending == [] <==> |l.pending| <= k * Chunk(fifosize)
  {
    TicksTake(l, fifosize, k);
  }

  // ---- The ring ----

  /** A position in the ring, or one turn past it. */
  function At(i: nat): nat { if i < 4096 then i else i - 4096 }

  /** The mask of the ring macros brings a position back into the ring. */
  lemma MaskIsAt(i: nat)
    requires i < 8192
    ensures BitAnd(i, SIZE - 1) == At(i)
  {
    assert Pow2(12) == 4096;
    MaskIsRemainder(i, 12);
  }

  /** The n characters from tail on. */
  function Queue(b: seq<byte>, tail: nat, n: nat): (r: seq<byte>)
    requires |b| == 4096 && tail < 4096 && n <= 4096
    ensures |r| == n && forall i | 0 <= i < n :: r[i] == b[At(tail + i)]
  {
    seq(n, i requires 0 <= i < n => b[At(tail + i)])
  }

  lemma DropFirst(b: seq<byte>, tail: nat, n: nat)
    requires |b| == 4096 && tail < 4096 && 0 < n <= 4096
    ensures Queue(b, tail, n)[0] == b[tail]
    ensures Queue(b, At(tail + 1), n - 1) == Queue(b, tail, n)[1..]
  {
  }

  lemma AddLast(b: seq<byte>, tail: nat, n: nat, c: byte)
    requires |b| == 4096 && tail < 4096 && n < 4095
    ensures Queue(b[At(tail + n) := c], tail, n + 1) == Queue(b, tail, n) + [c]
  {
  }

  class Port {
    const buf: array<byte>
    const fifosize: nat
    var head: nat
    var tail: nat
    var xChar: byte
    var stopped: bool
    var tx: nat
    ghost var written: seq<byte>
    ghost var sent: seq<byte>
    ghost var xSent: nat

    ghost predicate Valid()
      reads this
    {
      buf.Length == 4096 && head < 4096 && tail < 4096
    }

    /** (head - tail) & (UART_XMIT_SIZE - 1), a whole turn added so that nothing is negative. */
    function CharsPending(): (n: nat)
      requires Valid()
      reads this
      ensures n < 4096 && At(tail + n) == head && (n == 0 <==> head == tail)
    {
      MaskIsAt(head + 4096 - tail);
      BitAnd(head + 4096 - tail, SIZE - 1)
    }

    ghost function Pending(): seq<byte>
      requires Valid()
      reads this, buf
    {
      Queue(buf[..], tail, CharsPending())
    }

    ghost function State(): Line
      requires Valid()
      reads this, buf
    {
      Line(Pending(), xChar, stopped, tx, written, sent, xSent)
    }

    constructor (fifosize: nat)
      ensures Valid() && fresh(buf) && this.fifosize == fifosize
      ensures State() == Idle
    {
      buf := new byte[4096](_ => 0);
      this.fifosize := fifosize;
      head, tail, xChar, stopped, tx := 0, 0, 0, false, 0;
      written, sent, xSent := [], [], 0;
    }

    method PutChar(c: byte)
      requires Valid()
      modifies this, buf
      ensures Valid() && State() == Accept(old(State()), c)
    {
      if CharsPending() < 4095 {
        AddLast(buf[..], tail, CharsPending(), c);
        ghost var next := buf[..][head := c];
        buf[head] := c;
        assert buf[..] == next;
        MaskIsAt(head + 1);
        head := BitAnd(head + 1, SIZE - 1);
        written := written + [c];
      }
    }

    method SendXChar(c: byte)
      requires Valid()
      modifies this`xChar
      ensures Valid() && State() == old(State()).(xChar := c)
    {
      xChar := c;
    }

    method SetStopped(b: bool)
      requires Valid()
      modifies this`stopped
      ensures Valid() && State() == old(State()).(stopped := b)
    {
      stopped := b;
    }

    /** tiny_tx_chars; wakeup tells whether the writers were woken. */
    method TxChars() returns (wakeup: bool)
      requires Valid()
      modifies this
      ensures Valid() && State() == Drained(old(State()), fifosize)
      ensures wakeup <==> old(xChar == 0 && Pending() != [] && !stopped) && |Pending()| < WAKEUP_CHARS
    {
      if xChar != 0 {
        tx := tx + 1;
        xChar := 0;
        xSent := xSent + 1;
        return false;
      }
      if head == tail || stopped {
        return false;
      }
      Drain();
      wakeup := CharsPending() < WAKEUP_CHARS;
    }

    /** The do loop. */
    method Drain()
      requires Valid() && head != tail
      modifies this`tail, this`tx, this`sent
      ensures Valid() && Chunk(fifosize) >= 1
      ensures State() == Taken(old(State()), Min(old(|Pending()|), Chunk(fifosize)))
    {
      ghost var was, n := State(), 0;
      var count: int := fifosize / 2;
      var more := true;
      assert Taken(was, 0) == was;
      while more
        invariant Valid() && 0 <= n <= |was.pending| && State() == Taken(was, n)
        invariant more ==> count == fifosize / 2 - n && n < |was.pending| && n < Chunk(fifosize)
        invariant !more ==> n == Min(|was.pending|, Chunk(fifosize))
        decreases more, |was.pending| - n
      {
        TakeOne();
        TakeMore(was, n, 1);
        n := n + 1;
        if head == tail {
          more := false;
        } else {
          count := count - 1;
          more := count > 0;
        }
      }
    }

    /** One character out of the ring. */
    method TakeOne()
      requires Valid() && head != tail
      modifies this`tail, this`tx, this`sent
      ensures Valid() && |old(Pending())| > 0 && State() == Taken(old(State()), 1)
    {
      DropFirst(buf[..], tail, CharsPending());
      sent := sent + [buf[tail]];
      MaskIsAt(tail + 1);
      tail := BitAnd(tail + 1, SIZE - 1);
      tx := tx + 1;
    }
  }

  /**
   * Any run of requests and timer ticks on a port leaves what the same run leaves of the
   * line, and so, from a fresh port on, everything written has been sent or is pending.
   */
  method Replay(port: Port, es: seq<Event>)
    requires port.Valid()
    modifies port, port.buf
    ensures port.Valid()
    ensures Run(port.fifosize, old(port.State()), es) == port.State()
    ensures old(port.State()) == Idle ==> InOrder(port.State())
  {
    ghost var fifosize, start := port.fifosize, port.State();
    for i := 0 to |es|
      invariant port.Valid()
      invariant Run(fifosize, port.State(), es[i..]) == Run(fifosize, start, es)
      invariant InOrder(start) ==> InOrder(port.State())
    {
      assert es[i..][0] == es[i] && es[i..][1..] == es[i + 1..];
      StepInOrder(fifosize, port.State(), es[i]);
      match es[i]
      case Put(c) => port.PutChar(c);
      case SendXChar(x) => port.SendXChar(x);
      case SetStopped(b) => port.SetStopped(b);
      case Timer => var _ := port.TxChars();
    }
  }
}
