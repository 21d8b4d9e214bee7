/**
 * Read and write by pinned user pages: a loop copies page by page between the user's pages and
 * the kernel's memory from the ramdisk on. Copying in pages is proved equal to copying the flat
 * bytes, from the start of the first page. The code checks neither that the user's buffer
 * starts there nor that the ramdisk is long enough; the last lemmas say what that takes.
 * A page is 4096 bytes.
 */
module UserMap {
  import opened Common

  /** (lbuf - 1) / 4096 + 1 in size_t, then narrowed to int: 0 for an empty buffer. */
  function Pages(lbuf: nat): (n: nat)
    ensures lbuf <= n * 4096 < lbuf + 4096
  {
    if lbuf == 0 then 0 else (lbuf - 1) / 4096 + 1
  }

  ghost predicate Pinned(pages: seq<array<byte>>, kernel: array<byte>) {
    && (forall j | 0 <= j < |pages| :: pages[j].Length == 4096 && pages[j] != kernel)
    && (forall i, j | 0 <= i < j < |pages| :: pages[i] != pages[j])
  }

  /** The user's memory from the start of the first page on. */
  ghost function Flat(pages: seq<array<byte>>): seq<byte>
    reads pages
  {
    if pages == [] then [] else Flat(pages[..|pages| - 1]) + pages[|pages| - 1][..]
  }

  /** Page p of a flat buffer. */
  function Page(u: seq<byte>, p: nat): (r: seq<byte>)
    requires (p + 1) * 4096 <= |u|
    ensures |r| == 4096 && forall k | 0 <= k < 4096 :: r[k] == u[p * 4096 + k]
  {
    u[p * 4096..(p + 1) * 4096]
  }

  ghost predicate ShowsPage(pages: seq<array<byte>>, u: seq<byte>, p: nat)
    requires p < |pages| && (p + 1) * 4096 <= |u|
    reads pages
  {
    pages[p][..] == Page(u, p)
  }

  /** Every page shows its part of the flat buffer u. */
  ghost predicate Shows(pages: seq<array<byte>>, u: seq<byte>)
    reads pages
  {
    |u| == |pages| * 4096 && forall p: nat | p < |pages| :: ShowsPage(pages, u, p)
  }

  lemma {:induction false} FlatShown(pages: seq<array<byte>>)
    requires forall p | 0 <= p < |pages| :: pages[p].Length == 4096
    ensures Shows(pages, Flat(pages))
    decreases |pages|
  {
    if pages != [] {
      var last, u := |pages| - 1, Flat(pages);
      var before := pages[..last];
      FlatShown(before);
      assert u == Flat(before) + pages[last][..];
      forall p: nat | p < |pages| ensures ShowsPage(pages, u, p) {
        if p < last {
          assert ShowsPage(before, Flat(before), p) && before[p] == pages[p];
          assert Page(u, p) == Page(Flat(before), p);
        } else {
          assert Page(u, p) == pages[last][..];
        }
      }
    }
  }

  /** Only one flat buffer is shown by given pages. */
  lemma ShownIsFlat(pages: seq<array<byte>>, u: seq<byte>)
    requires forall p | 0 <= p < |pages| :: pages[p].Length == 4096
    requires Shows(pages, u)
    ensures Flat(pages) == u
  {
    var f := Flat(pages);
    FlatShown(pages);
    forall k | 0 <= k < |u| ensures f[k] == u[k] {
      var p := k / 4096;
      assert ShowsPage(pages, f, p) && ShowsPage(pages, u, p);
      assert k == p * 4096 + k % 4096;
      assert Page(f, p)[k % 4096] == Page(u, p)[k % 4096];
    }
  }

  /** Copying nb more bytes at m, inside page j, changes page j alone. */
  lemma MixPage(a: seq<byte>, b: seq<byte>, m: nat, nb: nat, j: nat, p: nat)
    requires m == j * 4096 && nb <= 4096 && m + nb <= |a|
    requires (j + 1) * 4096 <= |b| && (p + 1) * 4096 <= |b|
    ensures p != j ==> Page(Mix(a, b, m + nb), p) == Page(Mix(a, b, m), p)
    ensures p == j ==> Page(Mix(a, b, m + nb), p) == a[m..m + nb] + Page(b, j)[nb..]
    ensures Page(Mix(a, b, m), j) == Page(b, j)
  {
  }

  /** The read case of one page: the user's page j now shows the disk's bytes. */
  method CopyOut(kernel: array<byte>, pages: seq<array<byte>>, j: nat, m: nat, nb: nat,
                 ghost user: seq<byte>, ghost disk: seq<byte>)
    requires Pinned(pages, kernel) && j < |pages| && |user| == |pages| * 4096
    requires m == j * 4096 && nb <= 4096 && m + nb <= kernel.Length
    requires kernel[..] == disk && Shows(pages, Mix(disk, user, m))
    modifies pages[j]
    ensures Shows(pages, Mix(disk, user, m + nb))
    ensures kernel[..] == disk
  {
    ghost var was, now := Mix(disk, user, m), Mix(disk, user, m + nb);
    assert ShowsPage(pages, was, j);
    MixPage(disk, user, m, nb, j, j);
    Memcpy(pages[j], 0, kernel, m, nb);
    assert kernel[..] == disk;
    forall p: nat | p < |pages| ensures ShowsPage(pages, now, p) {
      MixPage(disk, user, m, nb, j, p);
      if p != j {
        assert old(ShowsPage(pages, was, p)) && pages[p] != pages[j];
      }
    }
  }

  /** The write case of one page: the disk now holds the user's bytes up to there. */
  method CopyIn(kernel: array<byte>, pages: seq<array<byte>>, j: nat, m: nat, nb: nat,
                ghost user: seq<byte>, ghost disk: seq<byte>)
    requires Pinned(pages, kernel) && j < |pages| && Shows(pages, user)
    requires m == j * 4096 && nb <= 4096 && m + nb <= kernel.Length == |disk|
    requires kernel[..] == Mix(user, disk, m)
    modifies kernel
    ensures kernel[..] == Mix(user, disk, m + nb)
    ensures Shows(pages, user)
  {
    MixMore(user, disk, m, nb);
    assert ShowsPage(pages, user, j);
    assert pages[j][0..nb] == user[m..m + nb];
    Memcpy(kernel, m, pages[j], 0, nb);
    forall p: nat | p < |pages| ensures ShowsPage(pages, user, p) {
      assert old(ShowsPage(pages, user, p)) && pages[p] != kernel;
    }
  }

  /** What the user's buffer and the disk hold when the first m bytes have been copied. */
  function UserAfter(rw: int, user: seq<byte>, disk: seq<byte>, m: nat): seq<byte>
    requires m <= |user| && m <= |disk|
  {
    if rw == 0 then Mix(disk, user, m) else user
  }

  function DiskAfter(rw: int, user: seq<byte>, disk: seq<byte>, m: nat): seq<byte>
    requires m <= |user| && m <= |disk|
  {
    if rw == 1 then Mix(user, disk, m) else disk
  }

  /** The copy has got to m: both the pages and the disk hold what they should. */
  ghost predicate CopiedTo(pages: seq<array<byte>>, kernel: array<byte>, rw: int,
                           user: seq<byte>, disk: seq<byte>, m: nat)
    requires m <= |user| && m <= |disk|
    reads pages, kernel
  {
    kernel[..] == DiskAfter(rw, user, disk, m) && Shows(pages, UserAfter(rw, user, disk, m))
  }

  /** The switch on rw, for page j. */
  method CopyPage(kernel: array<byte>, pages: seq<array<byte>>, j: nat, m: nat, nb: nat, rw: int,
                  ghost user: seq<byte>, ghost disk: seq<byte>)
    requires Pinned(pages, kernel) && j < |pages| && |user| == |pages| * 4096
    requires m == j * 4096 && nb <= 4096 && m + nb <= kernel.Length == |disk|
    requires CopiedTo(pages, kernel, rw, user, disk, m)
    modifies kernel, pages[j]
    ensures CopiedTo(pages, kernel, rw, user, disk, m + nb)
  {
    if rw == 0 {
      CopyOut(kernel, pages, j, m, nb, user, disk);
    } else if rw == 1 {
      CopyIn(kernel, pages, j, m, nb, user, disk);
    }
  }

  /** The page loop. */
  method CopyPages(kernel: array<byte>, pages: seq<array<byte>>, lbuf: nat, rw: int,
                   ghost user: seq<byte>, ghost disk: seq<byte>)
    requires lbuf <= kernel.Length == |disk| && |pages| == Pages(lbuf) && Pinned(pages, kernel)
    requires |user| == |pages| * 4096 && CopiedTo(pages, kernel, rw, user, disk, 0)
    modifies kernel, pages
    ensures CopiedTo(pages, kernel, rw, user, disk, lbuf)
  {
    var npages := Pages(lbuf);
    var j, ktmp := 0, 0;
    ghost var done := 0;
    while j < npages
      invariant 0 <= j <= npages && ktmp == j * 4096 && done == Min(ktmp, lbuf)
      invariant CopiedTo(pages, kernel, rw, user, disk, done)
    {
      var nb := if j == npages - 1 then (lbuf - 1) % 4096 + 1 else 4096;
      assert done == ktmp;
      CopyPage(kernel, pages, j, ktmp, nb, rw, user, disk);
      done := ktmp + nb;
      j := j + 1;
      ktmp := ktmp + 4096;
    }
  }

  /**
   * mycdrv_rw: rw 0 copies the kernel's memory to the pages, rw 1 the pages to it. Exactly
   * the first lbuf bytes of the destination change, and they become the source's. Without
   * memory for the page table (granted is false) nothing changes.
   */
  method ReadWrite(kernel: array<byte>, pages: seq<array<byte>>, lbuf: nat, rw: int, granted: bool)
    returns (ret: int)
    requires lbuf <= kernel.Length && |pages| == Pages(lbuf) && Pinned(pages, kernel)
    modifies kernel, pages
    ensures ret == if granted then lbuf else -ENOMEM
    ensures lbuf <= |old(Flat(pages))|
    ensures kernel[..] == if granted && rw == 1 then Mix(old(Flat(pages)), old(kernel[..]), lbuf)
                           else old(kernel[..])
    ensures Flat(pages) == if granted && rw == 0 then Mix(old(kernel[..]), old(Flat(pages)), lbuf)
                           else old(Flat(pages))
  {
    ghost var disk, user := kernel[..], Flat(pages);
    FlatShown(pages);
    if !granted {
      return -ENOMEM;
    }
    assert Mix(disk, user, 0) == user && Mix(user, disk, 0) == disk;
    CopyPages(kernel, pages, lbuf, rw, user, disk);
    ShownIsFlat(pages, UserAfter(rw, user, disk, lbuf));
    ret := lbuf;
  }

  // ---- What the caller must see to ----

  /** The caller's buffer starts at byte off of the first page; a read gives it the disk's bytes. */
  ghost predicate ReadLands(off: nat, lbuf: nat, memory: seq<byte>, disk: seq<byte>)
    requires off + lbuf <= |memory| && lbuf <= |disk|
  {
    Mix(disk, memory, lbuf)[off..off + lbuf] == disk[..lbuf]
  }

  ghost predicate WriteLands(off: nat, lbuf: nat, memory: seq<byte>, disk: seq<byte>)
    requires off + lbuf <= |memory| && lbuf <= |disk|
  {
    Mix(memory, disk, lbuf)[..lbuf] == memory[off..off + lbuf]
  }

  /** n zeros but for a 1 at position at. */
  function Mark(n: nat, at: nat): (r: seq<byte>)
    requires at < n
    ensures |r| == n && forall k | 0 <= k < n :: r[k] == if k == at then 1 else 0
  {
    seq(n, k => if k == at then 1 else 0)
  }

  /** The copies are to and from the caller's buffer exactly if it is page aligned, or empty. */
  lemma LandsIffAligned(off: nat, lbuf: nat)
    ensures (forall memory, disk | |memory| == off + lbuf && |disk| == lbuf :: ReadLands(off, lbuf, memory, disk))
            <==> off == 0 || lbuf == 0
    ensures (forall memory, disk | |memory| == off + lbuf && |disk| == lbuf :: WriteLands(off, lbuf, memory, disk))
            <==> off == 0 || lbuf == 0
  {
    if off > 0 && lbuf > 0 {
      var memory, disk := Mark(off + lbuf, off), Mark(lbuf, 0);
      assert Mix(memory, disk, lbuf)[..lbuf][0] == 0 && memory[off..off + lbuf][0] == 1;
      assert !WriteLands(off, lbuf, memory, disk);
      var blank := seq(off + lbuf, _ => 0);
      assert Mix(disk, blank, lbuf)[off..off + lbuf][0] == 0 && disk[..lbuf][0] == 1;
      assert !ReadLands(off, lbuf, blank, disk);
    }
  }

  /** A write leaves what follows a ramdisk of the given size alone. */
  ghost predicate Inside(size: nat, lbuf: nat, memory: seq<byte>, kernel: seq<byte>)
    requires lbuf <= |memory| && lbuf <= |kernel| && size <= |kernel|
  {
    Mix(memory, kernel, lbuf)[size..] == kernel[size..]
  }

  /** Writes stay inside the ramdisk exactly for lengths up to its size. */
  lemma InsideIffShort(size: nat, lbuf: nat)
    ensures (forall memory, kernel | |memory| == lbuf && |kernel| == size + lbuf :: Inside(size, lbuf, memory, kernel))
            <==> lbuf <= size
  {
    if lbuf > size {
      var memory, kernel := Mark(lbuf, size), seq(size + lbuf, _ => 0);
      assert Mix(memory, kernel, lbuf)[size..][0] == 1 && kernel[size..][0] == 0;
      assert !Inside(size, lbuf, memory, kernel);
    }
  }

  /** What a write stores, a read of the same length gives back, into whatever pages. */
  method WriteThenRead(kernel: array<byte>, source: seq<array<byte>>, target: seq<array<byte>>, lbuf: nat)
    requires lbuf <= kernel.Length && |source| == |target| == Pages(lbuf)
    requires Pinned(source, kernel) && Pinned(target, kernel)
    modifies kernel, source, target
    ensures lbuf <= |Flat(target)| && lbuf <= |old(Flat(source))|
    ensures Flat(target)[..lbuf] == old(Flat(source))[..lbuf]
  {
    var _ := ReadWrite(kernel, source, lbuf, 1, true);
    var _ := ReadWrite(kernel, target, lbuf, 0, true);
  }
}
