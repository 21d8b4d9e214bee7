/**
 * The scullc device as the driver stores it: a linked list of items, each with an array of
 * pointers to quanta, all allocated on demand. Every operation is proved to do to the
 * abstract file (Flat) what SparseFile says, and the ghost map `path` gives, for every live
 * allocation, the one way to reach it from the head.
 */
module Scullc {
  import opened Arith
  import opened Common
  import opened SparseFile

  /** A way to reach an allocation from the head of the list. */
  datatype Path =
    | Node(item: nat)
    | Array(item: nat)
    | Quantum(item: nat, slot: nat)

  /**
   * Where everything hangs: the list items in order, the quantum set of each (or null), the
   * quanta by (item, slot), and for each live allocation the way to it from the head.
   */
  datatype Layout = Layout(
    spine: seq<ScullcDev>,
    sets: seq<array?<array?<byte>>>,
    blocks: map<(nat, nat), array<byte>>,
    path: map<object, Path>)
  {
    ghost predicate Knows(o: object, p: Path) {
      o in path && path[o] == p
    }

    ghost predicate Leads(p: Path, o: object) {
      match p
      case Node(i) => i < |spine| && spine[i] == o
      case Array(i) => i < |sets| && sets[i] == o
      case Quantum(i, s) => (i, s) in blocks && blocks[(i, s)] == o
    }

    /** Something hangs at the end of the way p. */
    ghost predicate Has(p: Path) {
      match p
      case Node(i) => i < |spine|
      case Array(i) => i < |sets| && sets[i] != null
      case Quantum(i, s) => (i, s) in blocks
    }

    ghost predicate ItemOwned(i: int) {
      0 <= i < |spine| ==> Knows(spine[i], Node(i))
    }

    ghost predicate SetOwned(i: int, qset: nat) {
      0 <= i < |sets| && sets[i] != null ==> Knows(sets[i], Array(i)) && sets[i].Length == qset
    }

    ghost predicate BlockOwned(i: nat, s: nat, qset: nat, quantum: nat) {
      (i, s) in blocks ==>
        && i < |sets| && sets[i] != null && s < qset
        && Knows(blocks[(i, s)], Quantum(i, s)) && blocks[(i, s)].Length == quantum
    }

    ghost predicate PathOwned(o: object) {
      o in path ==> Leads(path[o], o)
    }

    /** Live allocations and paths correspond one to one, and the lengths are right. */
    ghost predicate Owned(head: ScullcDev, qset: nat, quantum: nat) {
      && |sets| == |spine| > 0 && spine[0] == head
      && (forall i :: ItemOwned(i))
      && (forall i :: SetOwned(i, qset))
      && (forall i: nat, s: nat :: BlockOwned(i, s, qset, quantum))
      && (forall o {:trigger PathOwned(o)} | o in path :: PathOwned(o))
    }

    /** Every allocation that can be reached from the head is live, and by one path only. */
    lemma ExactlyOnePath(head: ScullcDev, qset: nat, quantum: nat, o: object)
      requires Owned(head, qset, quantum)
      ensures o in path <==> exists p :: Leads(p, o)
      ensures forall p, q | Leads(p, o) && Leads(q, o) :: p == q
    {
      if o in path { assert PathOwned(o); }
      forall p | Leads(p, o) ensures Knows(o, p) {
        match p
        case Node(i) => assert ItemOwned(i);
        case Array(i) => assert SetOwned(i, qset);
        case Quantum(i, s) => assert BlockOwned(i, s, qset, quantum);
      }
    }

    lemma LeadsToOne(p: Path, o: object, x: object)
      requires Leads(p, o) && Leads(p, x)
      ensures o == x
    {
    }

    lemma Covered(head: ScullcDev, qset: nat, quantum: nat)
      requires Owned(head, qset, quantum)
      ensures forall x | x in spine :: x in path
      ensures forall i | 0 <= i < |sets| && sets[i] != null :: sets[i] in path && sets[i].Length == qset
      ensures forall k | k in blocks :: blocks[k] in path
    {
      forall i | 0 <= i < |spine| ensures spine[i] in path { assert ItemOwned(i); }
      forall i | 0 <= i < |sets| && sets[i] != null ensures sets[i] in path && sets[i].Length == qset {
        assert SetOwned(i, qset);
      }
      forall k | k in blocks ensures blocks[k] in path { assert BlockOwned(k.0, k.1, qset, quantum); }
    }

    /** The pointers an item stores. */
    ghost predicate Item(i: nat)
      requires i < |spine| == |sets|
      reads spine
    {
      && spine[i].data == sets[i]
      && spine[i].next == if i + 1 < |spine| then spine[i + 1] else null
    }

    /** The pointers a quantum set stores. */
    ghost predicate Slot(i: nat, s: nat)
      requires i < |sets| && sets[i] != null && s < sets[i].Length
      reads sets
    {
      sets[i][s] == if (i, s) in blocks then blocks[(i, s)] else null
    }

    /** Quantum number n of the file is slot n % qset of item n / qset, or a hole in both. */
    ghost predicate Number(n: nat, qset: nat, file: map<nat, seq<byte>>)
      requires qset > 0
      reads blocks.Values
    {
      var k := (n / qset, n % qset);
      && (n in file <==> k in blocks)
      && (n in file ==> blocks[k][..] == file[n])
    }

    /** l with more empty items at the end. */
    ghost predicate Extends(l: Layout) {
      && l.spine <= spine && l.sets <= sets && blocks == l.blocks && l.path.Keys <= path.Keys
      && forall i | |l.sets| <= i < |sets| :: sets[i] == null
    }

    ghost function AddItem(item: ScullcDev): Layout {
      Layout(spine + [item], sets + [null], blocks, path[item := Node(|spine|)])
    }

    lemma AddItemOwned(head: ScullcDev, qset: nat, quantum: nat, item: ScullcDev)
      requires Owned(head, qset, quantum) && item !in path
      ensures AddItem(item).Owned(head, qset, quantum)
    {
      var l := AddItem(item);
      forall i ensures l.ItemOwned(i) { assert ItemOwned(i); }
      forall i ensures l.SetOwned(i, qset) { assert SetOwned(i, qset); }
      forall i: nat, s: nat ensures l.BlockOwned(i, s, qset, quantum) { assert BlockOwned(i, s, qset, quantum); }
      forall o | o in l.path ensures l.PathOwned(o) { assert o in path ==> PathOwned(o); }
    }

    ghost function AddSet(i: nat, a: array<array?<byte>>): Layout
      requires i < |sets|
    {
      Layout(spine, sets[i := a], blocks, path[a := Array(i)])
    }

    lemma AddSetOwned(head: ScullcDev, qset: nat, quantum: nat, i: nat, a: array<array?<byte>>)
      requires Owned(head, qset, quantum) && i < |sets| && sets[i] == null && a !in path && a.Length == qset
      ensures AddSet(i, a).Owned(head, qset, quantum)
      ensures forall s: nat :: (i, s) !in blocks
    {
      var l := AddSet(i, a);
      forall s: nat ensures (i, s) !in blocks { assert BlockOwned(i, s, qset, quantum); }
      forall j ensures l.ItemOwned(j) { assert ItemOwned(j); }
      forall j ensures l.SetOwned(j, qset) { assert SetOwned(j, qset); }
      forall j: nat, s: nat ensures l.BlockOwned(j, s, qset, quantum) { assert BlockOwned(j, s, qset, quantum); }
      forall o | o in l.path ensures l.PathOwned(o) { assert o in path ==> PathOwned(o); }
    }

    ghost function AddBlock(i: nat, s: nat, b: array<byte>): Layout {
      Layout(spine, sets, blocks[(i, s) := b], path[b := Quantum(i, s)])
    }

    lemma AddBlockOwned(head: ScullcDev, qset: nat, quantum: nat, i: nat, s: nat, b: array<byte>)
      requires Owned(head, qset, quantum) && i < |sets| && sets[i] != null && s < qset
      requires (i, s) !in blocks && b !in path && b.Length == quantum
      ensures AddBlock(i, s, b).Owned(head, qset, quantum)
    {
      var l := AddBlock(i, s, b);
      forall j ensures l.ItemOwned(j) { assert ItemOwned(j); }
      forall j ensures l.SetOwned(j, qset) { assert SetOwned(j, qset); }
      forall j: nat, t: nat ensures l.BlockOwned(j, t, qset, quantum) { assert BlockOwned(j, t, qset, quantum); }
      forall o | o in l.path ensures l.PathOwned(o) { assert o in path ==> PathOwned(o); }
    }

    lemma AddBlockNumber(qset: nat, file: map<nat, seq<byte>>, i: nat, s: nat, b: array<byte>, n: nat)
      requires s < qset && Number(n, qset, file)
      ensures AddBlock(i, s, b).Number(n, qset, file[i * qset + s := b[..]])
    {
      SlotOf(n, qset, i, s);
    }

    lemma DepositNumber(qset: nat, file: map<nat, seq<byte>>, i: nat, s: nat, bytes: seq<byte>, n: nat)
      requires s < qset && (i, s) in blocks && blocks[(i, s)][..] == bytes
      requires n != i * qset + s ==> Number(n, qset, file)
      ensures Number(n, qset, file[i * qset + s := bytes])
    {
      SlotOf(n, qset, i, s);
    }

    ghost function Without(o: object): Layout {
      this.(path := path - {o})
    }

    /** Is this path's target still allocated when trim is at slot s of item i? */
    ghost predicate Kept(p: Path, i: nat, s: nat) {
      match p
      case Node(j) => j == 0 || j >= i
      case Array(j) => j >= i
      case Quantum(j, t) => j > i || (j == i && t >= s)
    }

    /** What is left when trim is at slot s of item i. */
    ghost function From(i: nat, s: nat): Layout {
      this.(path := map o | o in path && Kept(path[o], i, s) :: path[o])
    }

    lemma FromStart()
      ensures From(0, 0) == this
    {
      assert From(0, 0).path == path;
    }

    lemma FromSlot(head: ScullcDev, qset: nat, quantum: nat, i: nat, s: nat)
      requires Owned(head, qset, quantum)
      ensures (i, s) in blocks ==>
                blocks[(i, s)] in From(i, s).path && From(i, s).Without(blocks[(i, s)]) == From(i, s + 1)
      ensures (i, s) !in blocks ==> From(i, s) == From(i, s + 1)
    {
      assert BlockOwned(i, s, qset, quantum);
      forall o | o in path && path[o] == Quantum(i, s) ensures (i, s) in blocks && blocks[(i, s)] == o {
        assert PathOwned(o);
      }
      if (i, s) in blocks {
        assert From(i, s).path - {blocks[(i, s)]} == From(i, s + 1).path;
      } else {
        assert From(i, s).path == From(i, s + 1).path;
      }
    }

    /** What is left of item i once its quanta are gone: its array if it has one, and itself. */
    ghost function ItemRest(i: nat): set<object>
      requires i < |spine| && i < |sets|
    {
      (if sets[i] != null then {sets[i] as object} else {}) + (if i > 0 then {spine[i] as object} else {})
    }

    lemma FromItem(head: ScullcDev, qset: nat, quantum: nat, i: nat)
      requires Owned(head, qset, quantum) && i < |spine|
      ensures sets[i] == null ==> From(i, 0) == From(i, qset)
      ensures ItemRest(i) <= From(i, qset).path.Keys
      ensures From(i, qset).path - ItemRest(i) == From(i + 1, 0).path
      ensures sets[i] != null ==> sets[i] as object != spine[i]
    {
      assert ItemOwned(i) && SetOwned(i, qset);
      forall o | o in path && path[o].item == i
        ensures o in ItemRest(i) || path[o] == Node(0) || (path[o].Quantum? && sets[i] != null && path[o].slot < qset)
      {
        assert PathOwned(o);
        if path[o].Quantum? { assert BlockOwned(i, path[o].slot, qset, quantum); }
      }
      assert From(i, qset).path - ItemRest(i) == From(i + 1, 0).path;
      if sets[i] == null { assert From(i, 0).path == From(i, qset).path; }
    }

    lemma FromEnd(head: ScullcDev, qset: nat, quantum: nat)
      requires Owned(head, qset, quantum)
      ensures From(|spine|, 0).path == map[head as object := Node(0)]
    {
      assert ItemOwned(0);
      forall o | o in path ensures path[o].item < |spine| {
        var p := path[o];
        assert PathOwned(o) && (p.Quantum? ==> BlockOwned(p.item, p.slot, qset, quantum));
      }
      forall o | o in path && path[o] == Node(0) ensures o == head { assert PathOwned(o); }
    }
  }

  class ScullcDev {
    var data: array?<array?<byte>>
    var next: ScullcDev?
    var vmas: int
    var quantum: nat
    var qset: int                // the ioctls may set any value
    var size: nat
    // Meaningful on the head only.
    ghost var layout: Layout
    ghost var blocks: map<nat, seq<byte>>

    ghost predicate Valid()
      reads this, layout.path.Keys
    {
      && quantum > 0 && qset > 0
      && layout.Owned(this, qset, quantum)
      && (layout.Covered(this, qset, quantum); forall i: nat | i < |layout.spine| :: layout.Item(i))
      && (forall i: nat, s: nat | i < |layout.sets| && layout.sets[i] != null && s < layout.sets[i].Length ::
            layout.Slot(i, s))
      && (forall n: nat :: layout.Number(n, qset, blocks))
    }

    /** An empty device: a lone head, whatever its geometry. */
    ghost predicate Bare()
      reads this
    {
      && data == null && next == null && size == 0 && blocks == map[]
      && layout == Layout([this], [null], map[], map[this as object := Node(0)])
    }

    /** The file a client sees. */
    ghost function Flat(): File
      reads this
    {
      File(size, blocks)
    }

    constructor (quantum: nat, qset: int)
      requires quantum > 0
      ensures Bare() && Flat() == File(0, map[]) && (qset > 0 ==> Valid())
      ensures this.quantum == quantum && this.qset == qset && vmas == 0
    {
      this.data, this.next, this.vmas := null, null, 0;
      this.quantum, this.qset, this.size := quantum, qset, 0;
      this.blocks := map[];
      new;
      this.layout := Layout([this], [null], map[], map[this as object := Node(0)]);
    }

    /** A list item as follow creates it: kmalloc and memset to zero. */
    constructor Zeroed()
      ensures data == null && next == null
    {
      data, next, vmas, quantum, qset, size := null, null, 0, 0, 0, 0;
      layout, blocks := Layout([], [], map[], map[]), map[];
    }

    /** Hang an empty item on the end of the list. */
    method Append(last: ScullcDev) returns (item: ScullcDev)
      requires Valid() && last == layout.spine[|layout.spine| - 1]
      modifies last`next, this`layout
      ensures Valid() && fresh(item)
      ensures layout == old(layout).AddItem(item)
    {
      item := new ScullcDev.Zeroed();
      ghost var l, n := layout, |layout.spine|;
      assert item !in l.path;
      l.AddItemOwned(this, qset, quantum, item);
      last.next := item;
      layout := l.AddItem(item);
      forall i: nat | i < n + 1 ensures layout.Item(i) {
        if i < n { assert old(l.Item(i)) && l.ItemOwned(i) && l.ItemOwned(n - 1); }
      }
      forall i: nat, s: nat | i < |layout.sets| && layout.sets[i] != null && s < layout.sets[i].Length
        ensures layout.Slot(i, s)
      {
        assert old(l.Slot(i, s)) && l.SetOwned(i, qset);
      }
      forall n: nat ensures layout.Number(n, qset, blocks) {
        assert old(l.Number(n, qset, blocks)) && l.BlockOwned(n / qset, n % qset, qset, quantum);
      }
    }

    /** Walk n links, appending empty items where the list ends. No stored byte changes. */
    method Follow(n: nat) returns (p: ScullcDev)
      requires Valid()
      modifies layout.path.Keys
      ensures Valid() && layout.Extends(old(layout)) && fresh(layout.path.Keys - old(layout.path.Keys))
      ensures n < |layout.spine| && p == layout.spine[n]
      ensures |layout.spine| == Max(|old(layout.spine)|, n + 1)
      ensures unchanged(`blocks, `size, `quantum, `qset, `vmas)
    {
      p := this;
      var k := 0;
      while k < n
        invariant Valid() && layout.Extends(old(layout)) && fresh(layout.path.Keys - old(layout.path.Keys))
        invariant k <= n && k < |layout.spine| && p == layout.spine[k]
        invariant |layout.spine| == Max(|old(layout.spine)|, k + 1)
        invariant unchanged(`blocks, `size, `quantum, `qset, `vmas)
      {
        assert layout.Item(k) && layout.ItemOwned(k) && layout.ItemOwned(0);
        if p.next == null {
          var _ := Append(p);
          assert layout.Item(k);
        }
        p := p.next;
        k := k + 1;
      }
    }

    /** Give item i its array of pointers, all null. */
    method AddSet(i: nat, p: ScullcDev) returns (a: array<array?<byte>>)
      requires Valid() && i < |layout.spine| && p == layout.spine[i] && p.data == null
      modifies p`data, this`layout
      ensures Valid() && fresh(a) && a.Length == qset && p.data == a
      ensures |old(layout.sets)| == |old(layout.spine)| && layout == old(layout).AddSet(i, a)
    {
      a := new array?<byte>[qset](_ => null);
      ghost var l := layout;
      assert a !in l.path;
      assert l.Item(i) && l.ItemOwned(i);
      l.AddSetOwned(this, qset, quantum, i, a);
      p.data := a;
      layout := l.AddSet(i, a);
      forall j: nat | j < |layout.spine| ensures layout.Item(j) {
        assert old(l.Item(j)) && l.ItemOwned(j);
      }
      forall j: nat, s: nat | j < |layout.sets| && layout.sets[j] != null && s < layout.sets[j].Length
        ensures layout.Slot(j, s)
      {
        if j != i { assert old(l.Slot(j, s)) && l.SetOwned(j, qset); }
      }
      forall n: nat ensures layout.Number(n, qset, blocks) {
        assert old(l.Number(n, qset, blocks)) && l.BlockOwned(n / qset, n % qset, qset, quantum);
      }
    }

    /** Fill slot s of item i with a zeroed quantum. */
    method AddBlock(a: array<array?<byte>>, i: nat, s: nat) returns (b: array<byte>)
      requires Valid() && i < |layout.sets| && layout.sets[i] == a && s < a.Length && (i, s) !in layout.blocks
      modifies a, this`layout, this`blocks
      ensures Valid() && fresh(b) && b.Length == quantum
      ensures layout == old(layout).AddBlock(i, s, b)
      ensures blocks == old(blocks)[i * qset + s := seq(quantum, _ => 0)]
    {
      b := new byte[quantum](_ => 0);
      ghost var l, at, zeros := layout, i * qset + s, seq(quantum, _ => 0);
      assert b !in l.path && b[..] == zeros;
      assert l.SetOwned(i, qset);
      l.AddBlockOwned(this, qset, quantum, i, s, b);
      a[s] := b;
      layout := l.AddBlock(i, s, b);
      blocks := blocks[at := zeros];
      forall j: nat | j < |layout.spine| ensures layout.Item(j) {
        assert old(l.Item(j)) && l.ItemOwned(j);
      }
      forall j: nat, t: nat | j < |layout.sets| && layout.sets[j] != null && t < layout.sets[j].Length
        ensures layout.Slot(j, t)
      {
        assert old(l.Slot(j, t)) && l.SetOwned(j, qset);
      }
      forall n: nat ensures layout.Number(n, qset, blocks) {
        assert old(l.Number(n, qset, blocks)) && l.BlockOwned(n / qset, n % qset, qset, quantum);
        l.AddBlockNumber(qset, old(blocks), i, s, b, n);
        assert b[..] == zeros;
      }
    }

    /** Overwrite part of the quantum in slot s of item i. */
    method Deposit(i: nat, s: nat, b: array<byte>, at: nat, bytes: seq<byte>)
      requires Valid() && (i, s) in layout.blocks && b == layout.blocks[(i, s)]
      requires s < qset && b.Length == quantum && at + |bytes| <= quantum
      modifies b, this`blocks
      ensures Valid()
      ensures i * qset + s in old(blocks) && |old(blocks)[i * qset + s]| == quantum
      ensures blocks == old(blocks)[i * qset + s := Splice(old(blocks)[i * qset + s], at, bytes)]
    {
      ghost var l, n0 := layout, i * qset + s;
      SlotOf(n0, qset, i, s);
      assert l.Number(n0, qset, blocks);
      ghost var file, next := blocks, Splice(b[..], at, bytes);
      Overwrite(b, at, bytes);
      blocks := file[n0 := next];
      forall j: nat | j < |layout.spine| ensures layout.Item(j) {
        assert old(l.Item(j)) && l.ItemOwned(j);
      }
      forall j: nat, t: nat | j < |layout.sets| && layout.sets[j] != null && t < layout.sets[j].Length
        ensures layout.Slot(j, t)
      {
        assert old(l.Slot(j, t)) && l.SetOwned(j, qset);
      }
      forall n: nat ensures layout.Number(n, qset, blocks) {
        if n != n0 {
          SlotOf(n, qset, i, s);
          assert old(l.Number(n, qset, blocks));
          assert l.BlockOwned(n / qset, n % qset, qset, quantum) && l.BlockOwned(i, s, qset, quantum);
          assert l.Number(n, qset, file);
        }
        l.DepositNumber(qset, file, i, s, next, n);
      }
    }

    /** memcpy into a quantum. */
    method Overwrite(b: array<byte>, at: nat, bytes: seq<byte>)
      requires at + |bytes| <= b.Length
      modifies b
      ensures b[..] == Splice(old(b[..]), at, bytes)
    {
      forall k | 0 <= k < |bytes| { b[at + k] := bytes[k]; }
      assert b[..] == Splice(old(b[..]), at, bytes);
    }

    /** Every stored block is one quantum long. */
    lemma StoredWhole()
      requires Valid()
      ensures WellFormed(Flat(), quantum)
    {
      forall n | n in blocks ensures |blocks[n]| == quantum {
        assert layout.Number(n, qset, blocks) && layout.BlockOwned(n / qset, n % qset, qset, quantum);
      }
    }

    /** The list items that have an array. */
    ghost function Sets(): set<nat>
      reads this
    {
      set i: nat | i < |layout.sets| && layout.sets[i] != null
    }

    lemma HeadLive()
      requires Valid()
      ensures this in layout.path
    {
      layout.Covered(this, qset, quantum);
    }

    lemma Anchored()
      requires Valid()
      ensures this in layout.path
      ensures forall i | 0 <= i < |layout.spine| ::
                layout.spine[i] in layout.path && layout.spine[i].data == layout.sets[i]
      ensures forall i | 0 <= i < |layout.sets| && layout.sets[i] != null ::
                layout.sets[i] in layout.path && layout.sets[i].Length == qset
      ensures forall k | k in layout.blocks ::
                && k.0 < |layout.sets| && layout.sets[k.0] != null && k.1 < qset
                && layout.blocks[k] in layout.path && layout.blocks[k].Length == quantum
    {
      layout.Covered(this, qset, quantum);
      forall i | 0 <= i < |layout.spine| ensures layout.spine[i].data == layout.sets[i] { assert layout.Item(i); }
      forall k | k in layout.blocks
        ensures k.0 < |layout.sets| && layout.sets[k.0] != null && k.1 < qset && layout.blocks[k].Length == quantum
      {
        assert layout.BlockOwned(k.0, k.1, qset, quantum);
      }
    }

    // ---- the pointers, followed from the head ----

    /** `next`, n times. */
    ghost function NextTimes(n: nat): (p: ScullcDev?)
      requires Valid()
      reads this, layout.path.Keys
      ensures p == if n < |layout.spine| then layout.spine[n] else null
    {
      layout.Covered(this, qset, quantum);
      if n == 0 then this
      else
        var q := NextTimes(n - 1);
        assert n <= |layout.spine| ==> layout.Item(n - 1);
        if q == null then null else q.next
    }

    /** `next`, n times, and then `data`. */
    ghost function DataAt(n: nat): (a: array?<array?<byte>>)
      requires Valid()
      reads this, layout.path.Keys
      ensures a == if n < |layout.spine| then layout.sets[n] else null
    {
      layout.Covered(this, qset, quantum);
      assert n < |layout.spine| ==> layout.Item(n);
      var p := NextTimes(n);
      if p == null then null else p.data
    }

    /** What a way through the pointers leads to, or null: `next` n times, then `data`, then a slot. */
    ghost function At(w: Path): (o: object?)
      requires Valid()
      reads this, layout.path.Keys
      ensures o != null <==> layout.Has(w)
      ensures o != null ==> layout.Leads(w, o)
    {
      match w
      case Node(n) =>
        NextTimes(n)
      case Array(n) =>
        DataAt(n)
      case Quantum(n, s) =>
        layout.Covered(this, qset, quantum);
        assert layout.BlockOwned(n, s, qset, quantum);
        var a := DataAt(n);
        assert a != null && s < a.Length ==> layout.Slot(n, s);
        if a == null || s >= a.Length then null else a[s]
    }

    /**
     * Followed through the real pointers, two different ways never lead to the same object: the
     * list has no cycle, and no array or quantum is shared. What can be reached is what is live.
     */
    lemma OneWay(o: object)
      requires Valid()
      ensures forall v, w | At(v) == o && At(w) == o :: v == w
      ensures o in layout.path.Keys <==> exists w :: At(w) == o
    {
      layout.ExactlyOnePath(this, qset, quantum, o);
      if o in layout.path.Keys {
        var p :| layout.Leads(p, o);
        assert At(p) != null;
        layout.LeadsToOne(p, o, At(p));
      }
    }

    /** In particular no chain of next pointers comes back to an item, and each chain ends. */
    lemma Acyclic(i: nat, j: nat)
      requires Valid() && i != j && NextTimes(i) != null
      ensures NextTimes(i) != NextTimes(j) && NextTimes(|layout.spine|) == null
    {
      assert At(Node(i)) == NextTimes(i) && At(Node(j)) == NextTimes(j);
      OneWay(NextTimes(i));
    }

    /** The array of an item, appending items and allocating it if need be; null on -ENOMEM. */
    method ReachSet(item: nat, setOk: bool) returns (a: array?<array?<byte>>)
      requires Valid()
      modifies layout.path.Keys
      ensures Valid() && fresh(layout.path.Keys - old(layout.path.Keys))
      ensures old(layout.path.Keys) <= layout.path.Keys && layout.blocks == old(layout).blocks
      ensures unchanged(`blocks, `quantum, `qset, `vmas, `size)
      ensures a == null <==> !setOk && item !in old(Sets())
      ensures a != null ==> item < |layout.sets| && layout.sets[item] == a && a in layout.path && a.Length == qset
      ensures Sets() == old(Sets()) + if setOk then {item} else {}
    {
      Anchored();
      var p := Follow(item);
      Anchored();
      a := p.data;
      if a == null && setOk {
        a := AddSet(item, p);
        Anchored();
      }
    }

    /** The quantum in slot s of an item, allocating what is missing on the way; null on -ENOMEM. */
    method Reach(item: nat, s: nat, setOk: bool, quantumOk: bool) returns (b: array?<byte>)
      requires Valid() && s < qset
      modifies layout.path.Keys
      ensures Valid() && fresh(layout.path.Keys - old(layout.path.Keys))
      ensures old(layout.path.Keys) <= layout.path.Keys
      ensures unchanged(`quantum, `qset, `vmas, `size)
      ensures b == null <==> item * qset + s !in old(blocks) && !(quantumOk && (setOk || item in old(Sets())))
      ensures b == null ==> blocks == old(blocks)
      ensures b != null ==>
        && (item, s) in layout.blocks && b == layout.blocks[(item, s)] && b in layout.path && b.Length == quantum
        && (item * qset + s in old(blocks) ==> |old(blocks)[item * qset + s]| == quantum)
        && blocks == Grown(old(blocks), item * qset + s, quantum)
      ensures Sets() == old(Sets()) + if setOk then {item} else {}
    {
      ghost var n := item * qset + s;
      SlotOf(n, qset, item, s);
      assert layout.Number(n, qset, blocks) && layout.BlockOwned(item, s, qset, quantum);
      HeadLive();
      var a := ReachSet(item, setOk);
      if a == null { return null; }
      assert layout.Slot(item, s);
      b := a[s];
      if b == null && quantumOk {
        b := AddBlock(a, item, s);
      }
      assert layout.BlockOwned(item, s, qset, quantum);
    }

    method Grow(end: nat)
      requires Valid()
      modifies this`size
      ensures Valid() && size == Max(old(size), end)
    {
      ghost var l := layout;
      if size < end { size := end; }
      forall i: nat | i < |l.spine| ensures l.Item(i) { assert old(l.Item(i)); }
      forall n: nat ensures l.Number(n, qset, blocks) { assert old(l.Number(n, qset, blocks)); }
    }

    /** The write once the position is split: into slot s of an item, from offset qPos on. */
    method WriteAt(item: nat, s: nat, qPos: nat, buf: seq<byte>, copy: Copy, setOk: bool, quantumOk: bool)
      returns (ret: int)
      requires Valid() && s < qset && qPos < quantum
      modifies layout.path.Keys
      ensures Valid() && fresh(layout.path.Keys - old(layout.path.Keys))
      ensures old(layout.path.Keys) <= layout.path.Keys
      ensures unchanged(`quantum, `qset, `vmas, `size)
      ensures var n, count := item * qset + s, Min(|buf|, quantum - qPos);
        if n !in old(blocks) && !(quantumOk && (setOk || item in old(Sets()))) then
          ret == -ENOMEM && blocks == old(blocks)
        else
          && (n in old(blocks) ==> |old(blocks)[n]| == quantum)
          && blocks == old(blocks)[n := Splice(BlockAt(old(blocks), n, quantum), qPos, buf[..Landed(copy, count)])]
          && ret == if Faults(copy, count) then -EFAULT else count
      ensures Sets() == old(Sets()) + if setOk then {item} else {}
    {
      HeadLive();
      ghost var n, before := item * qset + s, blocks;
      var b := Reach(item, s, setOk, quantumOk);
      if b == null { return -ENOMEM; }
      ghost var landed := buf[..Landed(copy, Min(|buf|, quantum - qPos))];
      GrownUpdate(before, n, quantum, Splice(BlockAt(before, n, quantum), qPos, landed));
      ret := CopyIn(b, item, s, qPos, buf, copy);
    }

    /** The copy into a quantum that a write ends with. */
    method CopyIn(b: array<byte>, item: nat, s: nat, qPos: nat, buf: seq<byte>, copy: Copy) returns (ret: int)
      requires Valid() && (item, s) in layout.blocks && b == layout.blocks[(item, s)]
      requires s < qset && b.Length == quantum && qPos < quantum
      modifies b, this`blocks
      ensures Valid()
      ensures item * qset + s in old(blocks) && |old(blocks)[item * qset + s]| == quantum
      ensures var n, count := item * qset + s, Min(|buf|, quantum - qPos);
        && blocks == old(blocks)[n := Splice(old(blocks)[n], qPos, buf[..Landed(copy, count)])]
        && ret == if Faults(copy, count) then -EFAULT else count
    {
      var count := Min(|buf|, quantum - qPos);
      Deposit(item, s, b, qPos, buf[..Landed(copy, count)]);
      ret := if Faults(copy, count) then -EFAULT else count;
    }

    /** List item, slot of its set, and offset in the quantum of a position. */
    method Split(pos: nat) returns (item: nat, sPos: nat, qPos: nat)
      requires quantum > 0 && qset > 0
      ensures sPos < qset && qPos < quantum && quantum * qset > 0
      ensures item == pos / (quantum * qset)
      ensures item * qset + sPos == pos / quantum && qPos == pos % quantum
    {
      IndexInRange(pos, quantum, qset);
      var itemsize := quantum * qset;
      item := pos / itemsize;
      var rest := pos % itemsize;
      sPos, qPos := rest / quantum, rest % quantum;
    }

    /**
     * scullc_do_write. The outcome of the interruptible lock, of the two allocations and of
     * the user copy are parameters; with aio set the copy is memcpy.
     */
    method DoWrite(buf: seq<byte>, pos: nat, aio: bool, locked: bool, setOk: bool, quantumOk: bool, landed: nat)
      returns (ret: int, newPos: nat)
      requires Valid()
      modifies layout.path.Keys
      ensures Valid() && fresh(layout.path.Keys - old(layout.path.Keys))
      ensures old(layout.path.Keys) <= layout.path.Keys && unchanged(`quantum, `qset, `vmas)
      ensures WellFormed(old(Flat()), quantum) && quantum * qset > 0
      ensures !locked ==> ret == -ERESTARTSYS && newPos == pos && Flat() == old(Flat())
      ensures locked ==>
        var granted := quantumOk && (setOk || pos / (quantum * qset) in old(Sets()));
        var io := Write(old(Flat()), quantum, pos, buf, granted, if aio then Memcpy else UserCopy(landed));
        Flat() == io.file && ret == io.ret && newPos == io.pos
      ensures Sets() == old(Sets()) + if locked && setOk then {pos / (quantum * qset)} else {}
    {
      StoredWhole();
      newPos := pos;
      if !locked { return -ERESTARTSYS, pos; }
      var item, sPos, qPos := Split(pos);
      ret := WriteAt(item, sPos, qPos, buf, if aio then Memcpy else UserCopy(landed), setOk, quantumOk);
      if ret >= 0 {
        newPos := pos + ret;
        HeadLive();
        Grow(newPos);
      }
    }

    /** The quantum in slot s of an item if there is one; the walk may append empty items. */
    method Peek(item: nat, s: nat) returns (b: array?<byte>)
      requires Valid() && s < qset
      modifies layout.path.Keys
      ensures Valid() && fresh(layout.path.Keys - old(layout.path.Keys))
      ensures old(layout.path.Keys) <= layout.path.Keys
      ensures unchanged(`blocks, `quantum, `qset, `vmas, `size)
      ensures b != null <==> item * qset + s in blocks
      ensures b != null ==> b.Length == quantum == |blocks[item * qset + s]| && b[..] == blocks[item * qset + s]
      ensures Sets() == old(Sets())
    {
      ghost var n := item * qset + s;
      SlotOf(n, qset, item, s);
      Anchored();
      var p := Follow(item);
      Anchored();
      assert layout.Number(n, qset, blocks);
      if p.data == null { return null; }
      assert layout.Slot(item, s);
      b := p.data[s];
    }

    /** The copy out of a quantum that a read ends with. */
    method CopyOut(b: array<byte>, qPos: nat, n: nat, copy: Copy) returns (ret: int, data: seq<byte>)
      requires qPos + n <= b.Length
      ensures ret == (if Faults(copy, n) then -EFAULT else n)
      ensures data == (if Faults(copy, n) then b[..][qPos..qPos + n][..Landed(copy, n)] else b[..][qPos..qPos + n])
    {
      data := b[qPos..qPos + n];
      ret := n;
      assert data == b[..][qPos..qPos + n];
      if Faults(copy, n) { data, ret := data[..Landed(copy, n)], -EFAULT; }
    }

    /** The read of n bytes, which the size allows, at offset qPos of slot s of an item. */
    method ReadAt(item: nat, s: nat, qPos: nat, pos: nat, n: nat, copy: Copy)
      returns (ret: int, newPos: nat, data: seq<byte>)
      requires Valid() && s < qset && qPos < quantum && pos + n <= size
      modifies layout.path.Keys
      ensures Valid() && fresh(layout.path.Keys - old(layout.path.Keys))
      ensures old(layout.path.Keys) <= layout.path.Keys && unchanged(`blocks, `size, `quantum, `qset, `vmas)
      ensures WellFormed(Flat(), quantum)
      ensures Io(Flat(), newPos, ret, data) == ReadIn(Flat(), quantum, item * qset + s, qPos, pos, n, copy)
      ensures Sets() == old(Sets())
    {
      var b := Peek(item, s);
      StoredWhole();
      if b == null { return 0, pos, []; }
      var take := Min(n, quantum - qPos);
      ret, data := CopyOut(b, qPos, take, copy);
      newPos := if ret < 0 then pos else pos + take;
    }

    /** The read call once it has the lock. */
    method LockedRead(count: nat, pos: nat, copy: Copy) returns (ret: int, newPos: nat, data: seq<byte>)
      requires Valid()
      modifies layout.path.Keys
      ensures Valid() && fresh(layout.path.Keys - old(layout.path.Keys))
      ensures old(layout.path.Keys) <= layout.path.Keys && unchanged(`blocks, `size, `quantum, `qset, `vmas)
      ensures WellFormed(Flat(), quantum)
      ensures Io(Flat(), newPos, ret, data) == Read(Flat(), quantum, pos, count, copy)
      ensures Sets() == old(Sets())
    {
      StoredWhole();
      if pos > size { return 0, pos, []; }
      var n := if pos + count > size then size - pos else count;
      var item, sPos, qPos := Split(pos);
      CutFirst(Flat(), quantum, item * qset + sPos, qPos, pos, n, count, copy);
      ret, newPos, data := ReadAt(item, sPos, qPos, pos, n, copy);
    }

    /** scullc_do_read; data is what reached the caller's buffer, short on a user-copy fault. */
    method DoRead(count: nat, pos: nat, aio: bool, locked: bool, landed: nat)
      returns (ret: int, newPos: nat, data: seq<byte>)
      requires Valid()
      modifies layout.path.Keys
      ensures Valid() && fresh(layout.path.Keys - old(layout.path.Keys))
      ensures old(layout.path.Keys) <= layout.path.Keys && unchanged(`quantum, `qset, `vmas)
      ensures Flat() == old(Flat()) && WellFormed(Flat(), quantum)
      ensures !locked ==> ret == -ERESTARTSYS && newPos == pos && data == []
      ensures locked ==>
        Io(Flat(), newPos, ret, data) == Read(Flat(), quantum, pos, count, if aio then Memcpy else UserCopy(landed))
      ensures Sets() == old(Sets())
    {
      if locked {
        ret, newPos, data := LockedRead(count, pos, if aio then Memcpy else UserCopy(landed));
      } else {
        StoredWhole();
        ret, newPos, data := -ERESTARTSYS, pos, [];
      }
    }

    /** kfree or kmem_cache_free: only a live allocation can be freed, and then it is live no more. */
    ghost method Free(o: object)
      requires o in layout.path
      modifies this`layout
      ensures layout == old(layout).Without(o)
    {
      layout := layout.Without(o);
    }

    /** Free what hangs on item i, and the item itself unless it is the head. */
    method FreeItem(dptr: ScullcDev, oldQset: nat, ghost l: Layout, ghost oldQuantum: nat, ghost i: nat)
      returns (next: ScullcDev?)
      requires l.Owned(this, oldQset, oldQuantum) && i < |l.spine| && dptr == l.spine[i] && l.Item(i)
      requires l.sets[i] != null ==> l.sets[i].Length == oldQset && forall s: nat | s < oldQset :: l.Slot(i, s)
      requires layout == l.From(i, 0)
      modifies dptr`data, this`layout
      ensures layout == l.From(i + 1, 0)
      ensures dptr.data == null && next == old(dptr.next)
    {
      l.FromItem(this, oldQset, oldQuantum, i);
      assert l.ItemOwned(i) && l.ItemOwned(0);
      var a := dptr.data;
      if a != null {
        for s := 0 to oldQset
          invariant layout == l.From(i, s)
          modifies this`layout
        {
          assert l.Slot(i, s);
          l.FromSlot(this, oldQset, oldQuantum, i, s);
          if a[s] != null {
            Free(a[s]);
          }
        }
        Free(a);
        dptr.data := null;
      }
      next := dptr.next;
      if dptr != this { Free(dptr); }
      assert layout.path == l.From(i, oldQset).path - l.ItemRest(i);
    }

    /** One round of the trim loop: the items still to come keep their pointers. */
    method FreeNext(dptr: ScullcDev, oldQset: nat, ghost l: Layout, ghost oldQuantum: nat, ghost i: nat)
      returns (next: ScullcDev?)
      requires l.Owned(this, oldQset, oldQuantum) && i < |l.spine| && dptr == l.spine[i]
      requires l.sets[i] != null ==> l.sets[i].Length == oldQset && forall s: nat | s < oldQset :: l.Slot(i, s)
      requires forall j: nat | i <= j < |l.spine| :: l.Item(j)
      requires layout == l.From(i, 0)
      modifies dptr`data, this`layout
      ensures layout == l.From(i + 1, 0) && dptr.data == null
      ensures next == if i + 1 < |l.spine| then l.spine[i + 1] else null
      ensures forall j: nat | i < j < |l.spine| :: l.Item(j)
    {
      assert l.Item(i);
      next := FreeItem(dptr, oldQset, l, oldQuantum, i);
      forall j: nat | i < j < |l.spine| ensures l.Item(j) {
        assert old(l.Item(j)) && l.ItemOwned(j) && l.ItemOwned(i);
      }
    }

    /** The head alone again, with the given geometry. */
    method Reset(newQset: int, newQuantum: nat)
      requires newQuantum > 0
      requires data == null && layout.path == map[this as object := Node(0)]
      modifies this
      ensures Bare() && (newQset > 0 ==> Valid()) && unchanged(`vmas)
      ensures Flat() == File(0, map[]) && qset == newQset && quantum == newQuantum
    {
      size, qset, quantum, next := 0, newQset, newQuantum, null;
      layout, blocks := Layout([this], [null], map[], layout.path), map[];
    }

    /**
     * scullc_trim: frees every quantum, array and item but the head, using the old set size,
     * then empties the file and adopts the module's current geometry. It is the one call that
     * also serves a device left with a set size that is not positive.
     */
    method Trim(newQset: int, newQuantum: nat) returns (ret: int)
      requires (Valid() || (Bare() && quantum > 0)) && newQuantum > 0
      modifies layout.path.Keys
      ensures unchanged(`vmas)
      ensures vmas != 0 ==> ret == -EBUSY && layout == old(layout) && Flat() == old(Flat())
                            && unchanged(`quantum, `qset, `data, `next) && (old(Valid()) ==> Valid())
      ensures vmas == 0 ==> ret == 0 && Bare() && Flat() == File(0, map[])
                            && qset == newQset && quantum == newQuantum && (newQset > 0 ==> Valid())
    {
      if vmas != 0 { return -EBUSY; }
      if Valid() { Anchored(); }
      FreeAll(Max(qset, 0), quantum);        // no round of the loop over an array for a negative size
      Reset(newQset, newQuantum);
      ret := 0;
    }

    /** The trim loop: nothing but the head is left. */
    method FreeAll(oldQset: nat, ghost oldQuantum: nat)
      requires layout.Owned(this, oldQset, oldQuantum) && forall i: nat | i < |layout.spine| :: layout.Item(i)
      requires forall i: nat | i < |layout.sets| && layout.sets[i] != null ::
                 layout.sets[i].Length == oldQset && forall s: nat | s < oldQset :: layout.Slot(i, s)
      modifies layout.spine, this`layout
      ensures data == null && layout.path == map[this as object := Node(0)] && unchanged(`vmas)
    {
      ghost var l, i := layout, 0;
      l.FromStart();
      var dptr: ScullcDev? := this;
      while dptr != null
        invariant 0 <= i <= |l.spine|
        invariant dptr == if i < |l.spine| then l.spine[i] else null
        invariant layout == l.From(i, 0)
        invariant forall j: nat | i <= j < |l.spine| :: l.Item(j)
        invariant i > 0 ==> this.data == null
        invariant unchanged(`vmas)
        modifies l.spine
        decreases |l.spine| - i
      {
        assert l.SetOwned(i, oldQset);
        dptr := FreeNext(dptr, oldQset, l, oldQuantum, i);
        i := i + 1;
      }
      l.FromEnd(this, oldQset, oldQuantum);
    }
  }
}
