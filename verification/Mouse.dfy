/**
 * The serial mouse: three-byte packets, the first of which carries bit 0x40. The interrupt
 * handler buffers bytes and drops a first byte without that bit, so that it finds the packet
 * boundary again after a byte has been lost.
 */
module Mouse {

  /** (signed char) b */
  function Signed(b: bv8): int {
    var n := b as int;
    if n < 128 then n else n - 256
  }

  type Packet = p: seq<bv8> | |p| == 3 witness [0, 0, 0]

  function DeltaX(packet: Packet): bv8 {
    ((packet[0] & 0x03) << 6) | (packet[1] & 0x3f)
  }

  function DeltaY(packet: Packet): bv8 {
    ((packet[0] & 0x0c) << 4) | (packet[2] & 0x3f)
  }

  predicate First(b: bv8) { b & 0x40 != 0 }

  /** What the mouse sends for a motion, given as two's complement bytes, and two buttons. */
  function Encode(dx: bv8, dy: bv8, left: bool, right: bool): (r: Packet)
    ensures First(r[0]) && !First(r[1]) && !First(r[2])
  {
    var buttons: bv8 := (if left then 0x20 else 0) | (if right then 0x10 else 0);
    [0x40 | buttons | ((dy >> 6) << 2) | (dx >> 6), dx & 0x3f, dy & 0x3f]
  }

  /** The decoder recovers both motions from what the mouse sent. */
  lemma DecodeEncode(dx: bv8, dy: bv8, left: bool, right: bool)
    ensures DeltaX(Encode(dx, dy, left, right)) == dx && DeltaY(Encode(dx, dy, left, right)) == dy
  {
  }

  lemma OneMore(b: bv8)
    requires b != 255
    ensures (b + 1) as int == b as int + 1
  {
  }

  function FromNat(n: nat): (b: bv8)
    requires n < 256
    ensures b as int == n
  {
    if n == 0 then 0
    else
      var b := FromNat(n - 1);
      OneMore(b);
      b + 1
  }

  /** The byte of a motion: two's complement. */
  function AsByte(d: int): (b: bv8)
    requires -128 <= d < 128
    ensures Signed(b) == d
  {
    FromNat(if d >= 0 then d else d + 256)
  }

  /** A byte as a signed char: in range, and the same number modulo 256. */
  lemma SignedIs(b: bv8)
    ensures -128 <= Signed(b) < 128 && (Signed(b) - b as int) % 256 == 0
  {
  }

  // ---------------------------------------------------------------- reference parser

  /** The packets in a byte stream: skip to a first byte, take three, go on. */
  function Packets(bytes: seq<bv8>): seq<Packet>
    decreases |bytes|
  {
    if bytes == [] then []
    else if !First(bytes[0]) then Packets(bytes[1..])
    else if |bytes| < 3 then []
    else [bytes[..3]] + Packets(bytes[3..])
  }

  /** The bytes left over, which begin the next packet. */
  function Rest(bytes: seq<bv8>): seq<bv8>
    decreases |bytes|
  {
    if bytes == [] then []
    else if !First(bytes[0]) then Rest(bytes[1..])
    else if |bytes| < 3 then bytes
    else Rest(bytes[3..])
  }

  predicate Leftover(b: seq<bv8>) {
    |b| < 3 && (b != [] ==> First(b[0]))
  }

  lemma {:induction false} RestIsLeftover(bytes: seq<bv8>)
    ensures Leftover(Rest(bytes)) && Rest(Rest(bytes)) == Rest(bytes) && Packets(Rest(bytes)) == []
    decreases |bytes|
  {
    if bytes != [] {
      if !First(bytes[0]) { RestIsLeftover(bytes[1..]); }
      else if |bytes| >= 3 { RestIsLeftover(bytes[3..]); }
    }
  }

  /** Parsing can stop anywhere and go on from the bytes left over. */
  lemma {:induction false} ParseInTwo(a: seq<bv8>, b: seq<bv8>)
    ensures Packets(a + b) == Packets(a) + Packets(Rest(a) + b) && Rest(a + b) == Rest(Rest(a) + b)
    decreases |a|
  {
    if a == [] {
      assert a + b == b;
    } else if !First(a[0]) {
      assert (a + b)[1..] == a[1..] + b;
      ParseInTwo(a[1..], b);
    } else if |a| >= 3 {
      assert (a + b)[3..] == a[3..] + b && (a + b)[..3] == a[..3];
      ParseInTwo(a[3..], b);
    }
  }

  /** One more byte after a leftover: dropped, kept, or the end of a packet. */
  lemma OneByte(held: seq<bv8>, byte: bv8)
    requires Leftover(held)
    ensures |held| == 2 ==> Packets(held + [byte]) == [held + [byte]] && Rest(held + [byte]) == []
    ensures |held| < 2 ==> Packets(held + [byte]) == []
    ensures |held| < 2 ==> Rest(held + [byte]) == if held == [] && !First(byte) then [] else held + [byte]
  {
    var s := held + [byte];
    if |held| == 2 {
      assert s[..3] == s && s[3..] == [];
    } else if held == [] {
      assert s == [byte] && s[1..] == [];
    }
  }

  /** What one more byte does to the packets framed so far and the bytes left over. */
  lemma ByteReceived(received: seq<bv8>, byte: bv8)
    ensures Leftover(Rest(received))
    ensures var held, framed := Rest(received), Packets(received);
            && Packets(received + [byte]) == (if |held| == 2 then framed + [held + [byte]] else framed)
            && Rest(received + [byte]) == (if |held| == 2 || (held == [] && !First(byte)) then [] else held + [byte])
  {
    ParseInTwo(received, [byte]);
    RestIsLeftover(received);
    OneByte(Rest(received), byte);
    assert Packets(received) + [] == Packets(received);
  }

  function SumX(packets: seq<Packet>): int {
    if packets == [] then 0 else SumX(packets[..|packets| - 1]) + Signed(DeltaX(packets[|packets| - 1]))
  }

  function SumY(packets: seq<Packet>): int {
    if packets == [] then 0 else SumY(packets[..|packets| - 1]) + Signed(DeltaY(packets[|packets| - 1]))
  }

  lemma SumOne(packets: seq<Packet>, from: nat, p: Packet)
    requires from <= |packets|
    ensures SumX((packets + [p])[from..]) == SumX(packets[from..]) + Signed(DeltaX(p))
    ensures SumY((packets + [p])[from..]) == SumY(packets[from..]) + Signed(DeltaY(p))
  {
    var tail := (packets + [p])[from..];
    assert tail[..|tail| - 1] == packets[from..];
  }

  // ---------------------------------------------------------------- the driver

  class Driver {
    var byteIn: array<bv8>
    var nbytesIn: int
    var xpos: int
    var ypos: int
    var interruptNumber: int
    ghost var received: seq<bv8>             // every byte since the driver was loaded
    ghost var beforeX: nat                   // packets framed before xpos was last zeroed
    ghost var beforeY: nat                   // and before ypos was

    ghost predicate Valid()
      reads this, byteIn
    {
      && byteIn.Length == 3
      && 0 <= nbytesIn < 3
      && byteIn[..nbytesIn] == Rest(received)
      && interruptNumber == |received|
      && beforeX <= |Packets(received)| && beforeY <= |Packets(received)|
      && xpos == SumX(Packets(received)[beforeX..])
      && ypos == SumY(Packets(received)[beforeY..])
    }

    constructor ()
      ensures Valid() && received == [] && fresh(byteIn)
    {
      byteIn := new bv8[3](_ => 0);
      nbytesIn, xpos, ypos, interruptNumber := 0, 0, 0, 0;
      received, beforeX, beforeY := [], 0, 0;
    }

    /** The first store of MY_IOC_Z; a packet under way is kept. */
    method ZeroX()
      requires Valid()
      modifies this`xpos, this`beforeX
      ensures Valid() && xpos == 0 && beforeX == |Packets(received)|
    {
      xpos := 0;
      beforeX := |Packets(received)|;
    }

    /** The second store. */
    method ZeroY()
      requires Valid()
      modifies this`ypos, this`beforeY
      ensures Valid() && ypos == 0 && beforeY == |Packets(received)|
    {
      ypos := 0;
      beforeY := |Packets(received)|;
    }

    /**
     * MY_IOC_Z, with the bytes that arrive between its two stores. Afterwards ypos is 0 and xpos
     * the sum over the packets completed in between, so that the two are sums over the same
     * packets exactly if there were none.
     */
    method Zero(between: seq<bv8>)
      requires Valid()
      modifies this, byteIn
      ensures Valid() && received == old(received) + between && byteIn == old(byteIn)
      ensures |Packets(old(received))| <= |Packets(received)|
      ensures ypos == 0 && xpos == SumX(Packets(received)[|Packets(old(received))|..])
      ensures beforeX == beforeY <==> Packets(received) == Packets(old(received))
    {
      ghost var start := received;
      ZeroX();
      for i := 0 to |between|
        invariant Valid() && byteIn == old(byteIn)
        invariant received == start + between[..i] && beforeX == |Packets(start)|
      {
        Interrupt(between[i]);
        assert between[..i] + [between[i]] == between[..i + 1];
      }
      assert between[..|between|] == between;
      ZeroY();
      ParseInTwo(start, between);
      assert |Packets(received)| == |Packets(start)| ==> Packets(received) == Packets(start);
    }

    /** One byte from the UART. */
    method Interrupt(byte: bv8)
      requires Valid()
      modifies this, byteIn
      ensures Valid() && received == old(received) + [byte] && unchanged(`beforeX, `beforeY, `byteIn)
    {
      ghost var held, framed := byteIn[..nbytesIn], Packets(received);
      ByteReceived(received, byte);
      received := received + [byte];
      interruptNumber := interruptNumber + 1;
      if nbytesIn > 0 || byte & 0x40 != 0 {
        byteIn[nbytesIn] := byte;
        nbytesIn := nbytesIn + 1;
        assert byteIn[..nbytesIn] == held + [byte];
      }
      if nbytesIn == 3 {
        ghost var p: Packet := byteIn[..3];
        SumOne(framed, beforeX, p);
        SumOne(framed, beforeY, p);
        xpos := xpos + Signed(((byteIn[0] & 0x03) << 6) | (byteIn[1] & 0x3f));
        ypos := ypos + Signed(((byteIn[0] & 0x0c) << 4) | (byteIn[2] & 0x3f));
        nbytesIn := 0;
      }
    }
  }

  /** A motion of the mouse and its buttons. */
  datatype Motion = Motion(dx: int, dy: int, left: bool, right: bool)

  predicate InRange(m: Motion) { -128 <= m.dx < 128 && -128 <= m.dy < 128 }

  function PacketOf(m: Motion): Packet
    requires InRange(m)
  {
    Encode(AsByte(m.dx), AsByte(m.dy), m.left, m.right)
  }

  lemma PacketMoves(m: Motion)
    requires InRange(m)
    ensures Signed(DeltaX(PacketOf(m))) == m.dx && Signed(DeltaY(PacketOf(m))) == m.dy
  {
    DecodeEncode(AsByte(m.dx), AsByte(m.dy), m.left, m.right);
  }

  function TotalX(motions: seq<Motion>): int {
    if motions == [] then 0 else motions[0].dx + TotalX(motions[1..])
  }

  function TotalY(motions: seq<Motion>): int {
    if motions == [] then 0 else motions[0].dy + TotalY(motions[1..])
  }

  /** At a packet boundary, the three bytes of a motion move the position by it. */
  method OneMotion(driver: Driver, m: Motion)
    requires driver.Valid() && Rest(driver.received) == [] && InRange(m)
    modifies driver, driver.byteIn
    ensures driver.Valid() && Rest(driver.received) == [] && driver.byteIn == old(driver.byteIn)
    ensures driver.xpos == old(driver.xpos) + m.dx && driver.ypos == old(driver.ypos) + m.dy
  {
    var p: seq<bv8> := PacketOf(m);
    ghost var start := driver.received;
    driver.Interrupt(p[0]);
    driver.Interrupt(p[1]);
    driver.Interrupt(p[2]);
    assert start + [p[0]] + [p[1]] + [p[2]] == start + p;
    OnePacketMore(start, p);
    SumOne(Packets(start), driver.beforeX, p);
    SumOne(Packets(start), driver.beforeY, p);
    PacketMoves(m);
  }

  lemma OnePacketMore(received: seq<bv8>, p: Packet)
    requires Rest(received) == [] && First(p[0])
    ensures Packets(received + p) == Packets(received) + [p] && Rest(received + p) == []
  {
    ParseInTwo(received, p);
    var s: seq<bv8> := p;
    assert [] + s == s && s[..3] == s && s[3..] == [];
    assert Packets(s) == [p] && Rest(s) == [];
  }

  /** And any number of motions move it by their sum. */
  method Motions(driver: Driver, motions: seq<Motion>)
    requires driver.Valid() && Rest(driver.received) == [] && forall m | m in motions :: InRange(m)
    modifies driver, driver.byteIn
    ensures driver.Valid() && Rest(driver.received) == []
    ensures driver.xpos == old(driver.xpos) + TotalX(motions) && driver.ypos == old(driver.ypos) + TotalY(motions)
  {
    for i := 0 to |motions|
      invariant driver.Valid() && Rest(driver.received) == [] && driver.byteIn == old(driver.byteIn)
      invariant driver.xpos + TotalX(motions[i..]) == old(driver.xpos) + TotalX(motions)
      invariant driver.ypos + TotalY(motions[i..]) == old(driver.ypos) + TotalY(motions)
    {
      assert motions[i..][0] == motions[i] && motions[i..][1..] == motions[i + 1..];
      OneMotion(driver, motions[i]);
    }
  }

  /**
   * The reset does tear: with the last byte of a packet between its two stores, the position is
   * that packet's motion along x and none along y, and no packets have these two sums.
   */
  method TornReset() returns (driver: Driver)
    ensures driver.Valid() && driver.xpos == 65 && driver.ypos == 0
    ensures forall mark: nat | mark <= |Packets(driver.received)| ::
              SumX(Packets(driver.received)[mark..]) != 65 || SumY(Packets(driver.received)[mark..]) != 0
  {
    driver := new Driver();
    driver.Interrupt(0x41);
    driver.Interrupt(0x01);
    driver.Zero([0x02]);
    OnePacket();
  }

  lemma OnePacket()
    ensures Packets([0x41, 0x01, 0x02]) == [[0x41, 0x01, 0x02]] && Packets([0x41, 0x01]) == []
    ensures forall mark: nat | mark <= 1 ::
              var packets: seq<Packet> := [[0x41, 0x01, 0x02]];
              if mark == 0 then SumX(packets[mark..]) == 65 && SumY(packets[mark..]) == 2
              else SumX(packets[mark..]) == 0 && SumY(packets[mark..]) == 0
  {
    var bytes: seq<bv8> := [0x41, 0x01, 0x02];
    assert bytes[..3] == bytes && bytes[3..] == [];
    var packets: seq<Packet> := [bytes];
    assert packets[0..] == packets && packets[1..] == [] && packets[..0] == [];
    assert DeltaX(packets[0]) == 65 && DeltaY(packets[0]) == 2;
  }

  // ---------------------------------------------------------------- resynchronisation

  predicate WellFormed(p: Packet) {
    First(p[0]) && !First(p[1]) && !First(p[2])
  }

  /** A stream of packets with stray bytes before each: (noise, packet) pairs. */
  function Stream(parts: seq<(seq<bv8>, Packet)>): seq<bv8> {
    if parts == [] then [] else parts[0].0 + parts[0].1 + Stream(parts[1..])
  }

  function Sent(parts: seq<(seq<bv8>, Packet)>): seq<Packet> {
    if parts == [] then [] else [parts[0].1] + Sent(parts[1..])
  }

  predicate Noise(b: seq<bv8>) { forall x | x in b :: !First(x) }

  lemma {:induction false} NoiseIsSkipped(noise: seq<bv8>, rest: seq<bv8>)
    requires Noise(noise)
    ensures Packets(noise + rest) == Packets(rest) && Rest(noise + rest) == Rest(rest)
  {
    if noise == [] {
      assert noise + rest == rest;
    } else {
      assert (noise + rest)[1..] == noise[1..] + rest;
      NoiseIsSkipped(noise[1..], rest);
    }
  }

  /** Whatever bytes are left over, one well-formed packet brings the parser to a boundary. */
  lemma OnePacketResyncs(held: seq<bv8>, p: Packet)
    requires Leftover(held) && WellFormed(p)
    ensures Rest(held + p) == []
  {
    var tail := (held + p)[3..];
    assert |tail| == |held| && forall k | 0 <= k < |tail| :: tail[k] == p[3 - |held| + k];
    NoiseIsSkipped(tail, []);
    assert tail + [] == tail;
  }

  lemma {:induction false} StreamDecodes(parts: seq<(seq<bv8>, Packet)>)
    requires forall x | x in parts :: Noise(x.0) && WellFormed(x.1)
    ensures Packets(Stream(parts)) == Sent(parts) && Rest(Stream(parts)) == []
  {
    if parts != [] {
      var noise, p: seq<bv8> := parts[0].0, parts[0].1;
      var tail := Stream(parts[1..]);
      assert Stream(parts) == noise + (p + tail);
      NoiseIsSkipped(noise, p + tail);
      assert (p + tail)[..3] == p && (p + tail)[3..] == tail;
      StreamDecodes(parts[1..]);
    }
  }

  /**
   * From any state the handler can be left in, after one well-formed packet every later
   * packet is framed as it was sent, with stray bytes between packets ignored, and the
   * parser ends on a boundary.
   */
  lemma ResyncThenDecode(held: seq<bv8>, p: Packet, parts: seq<(seq<bv8>, Packet)>)
    requires Leftover(held) && WellFormed(p)
    requires forall x | x in parts :: Noise(x.0) && WellFormed(x.1)
    ensures Packets(held + p + Stream(parts)) == Packets(held + p) + Sent(parts)
    ensures Rest(held + p + Stream(parts)) == []
  {
    OnePacketResyncs(held, p);
    ParseInTwo(held + p, Stream(parts));
    assert [] + Stream(parts) == Stream(parts);
    StreamDecodes(parts);
  }
}
