/**
 Collecting and clearing dump info: the firmware image, the RDDM image and the
 contiguous remote heaps become dump segments, and each becomes a minidump region
 under a name of its own.
 */
module DumpInfoSpec {
  import opened Common

  const FW_IMAGE: nat := 0
  const FW_RDDM: nat := 1
  const FW_REMOTE_HEAP: nat := 2
  const DUMP_TYPE_MAX: nat := 3
  const MEM_TYPE_DDR: nat := 1

  /** An image buffer; addresses are numbers, 0 the null pointer. */
  datatype Buf = Buf(va: nat, dma: nat, len: nat)

  datatype FwMem = FwMem(kind: nat, contiguous: bool, va: nat, pa: nat, size: nat)

  datatype DumpSeg = DumpSeg(address: nat, va: nat, size: nat, kind: nat)

  /** A segment with the name of its minidump region. */
  datatype Item = Item(seg: DumpSeg, name: string)

  datatype Region = Region(va: nat, phys: nat, size: nat)

  /** What is dumped; `nameSize` is the size of a region's name, its NUL included. */
  datatype Sources = Sources(fbc: seq<Buf>, rddm: seq<Buf>, mem: seq<FwMem>, nameSize: nat)

  function HexDigit(d: nat): char
    requires d < 16
  {
    "0123456789ABCDEF"[d]
  }

  function Hex(n: nat): string {
    (if n < 16 then "" else Hex(n / 16)) + [HexDigit(n % 16)]
  }

  function Prefix(kind: nat): string {
    if kind == FW_IMAGE then "FBC_" else if kind == FW_RDDM then "RDDM_" else "RHEAP_"
  }

  function FullName(kind: nat, no: nat): string { Prefix(kind) + Hex(no) }

  /** The name as printed into a buffer of this size. */
  function RegionName(kind: nat, no: nat, size: nat): string {
    var name := FullName(kind, no);
    if |name| < size then name else if size == 0 then "" else name[..size - 1]
  }

  function BufItem(kind: nat, b: Buf, no: nat, size: nat): Item {
    Item(DumpSeg(b.dma, b.va, b.len, kind), RegionName(kind, no, size))
  }

  function BufItems(kind: nat, bufs: seq<Buf>, size: nat): seq<Item> {
    seq(|bufs|, i requires 0 <= i < |bufs| => BufItem(kind, bufs[i], i, size))
  }

  predicate IsHeap(m: FwMem) { m.kind == MEM_TYPE_DDR && m.contiguous }

  function HeapItem(m: FwMem, no: nat, size: nat): Item {
    Item(DumpSeg(m.pa, m.va, m.size, FW_REMOTE_HEAP), RegionName(FW_REMOTE_HEAP, no, size))
  }

  /** The number of heaps among the first i firmware memories. */
  function HeapCount(mem: seq<FwMem>, i: nat): nat
    requires i <= |mem|
  {
    if i == 0 then 0 else HeapCount(mem, i - 1) + if IsHeap(mem[i - 1]) then 1 else 0
  }

  /** The heaps among the first i firmware memories, numbered from 0. */
  function HeapItems(mem: seq<FwMem>, i: nat, size: nat): (items: seq<Item>)
    requires i <= |mem|
    ensures |items| == HeapCount(mem, i)
  {
    if i == 0 then []
    else
      HeapItems(mem, i - 1, size) +
      if IsHeap(mem[i - 1]) then [HeapItem(mem[i - 1], HeapCount(mem, i - 1), size)] else []
  }

  function Items(s: Sources): seq<Item> {
    BufItems(FW_IMAGE, s.fbc, s.nameSize) + BufItems(FW_RDDM, s.rddm, s.nameSize) +
    HeapItems(s.mem, |s.mem|, s.nameSize)
  }

  function Segs(items: seq<Item>): (segs: seq<DumpSeg>)
    ensures |segs| == |items|
  {
    seq(|items|, i requires 0 <= i < |items| => items[i].seg)
  }

  /** The minidump table refuses a name twice; `ok` covers its other failures. */
  function AddRegion(t: map<string, Region>, name: string, r: Region, ok: bool): map<string, Region> {
    if ok && name !in t then t[name := r] else t
  }

  /** It removes a region only if the entry named is that region. */
  function RemoveRegion(t: map<string, Region>, name: string, r: Region): map<string, Region> {
    if name in t && t[name] == r then t - {name} else t
  }

  function RegionOf(item: Item, phys: nat): Region { Region(item.seg.va, phys, item.seg.size) }

  /** The table after the first n segments were added; pa(k) is the k-th segment's
      physical address, None if it could not be found. */
  function AddFirst(items: seq<Item>, n: nat, t: map<string, Region>, pa: nat -> Option<nat>,
                    ok: nat -> bool): map<string, Region>
    requires n <= |items|
  {
    if n == 0 then t
    else
      var t' := AddFirst(items, n - 1, t, pa, ok);
      match pa(n - 1)
      case None => t'
      case Some(phys) => AddRegion(t', items[n - 1].name, RegionOf(items[n - 1], phys), ok(n - 1))
  }

  /** The address clearing works with: a failure to find it is ignored, leaving what
      was in memory. */
  function Address(k: nat, pa: nat -> Option<nat>, garbage: nat -> nat): nat {
    match pa(k) case None => garbage(k) case Some(phys) => phys
  }

  function RemoveFirst(items: seq<Item>, n: nat, t: map<string, Region>, pa: nat -> Option<nat>,
                       garbage: nat -> nat): map<string, Region>
    requires n <= |items|
  {
    if n == 0 then t
    else RemoveRegion(RemoveFirst(items, n - 1, t, pa, garbage), items[n - 1].name,
                      RegionOf(items[n - 1], Address(n - 1, pa, garbage)))
  }
}

module DumpInfoDriver {
  import opened Common
  import opened DumpInfoSpec

  /** The i-th buffer is the i-th item from `at` on. */
  ghost predicate BufAt(items: seq<Item>, at: nat, kind: nat, bufs: seq<Buf>, size: nat, i: nat)
    requires i < |bufs|
  {
    at + i < |items| && items[at + i] == BufItem(kind, bufs[i], i, size)
  }

  ghost predicate BufsIn(items: seq<Item>, at: nat, kind: nat, bufs: seq<Buf>, size: nat) {
    at + |bufs| <= |items| && forall i: nat :: i < |bufs| ==> BufAt(items, at, kind, bufs, size, i)
  }

  /** The i-th memory, if it is a heap, is the next item after the heaps before it. */
  ghost predicate HeapAt(items: seq<Item>, at: nat, mem: seq<FwMem>, size: nat, i: nat)
    requires i < |mem|
  {
    IsHeap(mem[i]) ==>
      var j := HeapCount(mem, i);
      at + j < |items| && items[at + j] == HeapItem(mem[i], j, size)
  }

  ghost predicate HeapsIn(items: seq<Item>, at: nat, mem: seq<FwMem>, size: nat) {
    |items| == at + HeapCount(mem, |mem|) && forall i: nat :: i < |mem| ==> HeapAt(items, at, mem, size, i)
  }

  /** The list is made up of the sources' parts. */
  ghost predicate Lists(items: seq<Item>, s: Sources) {
    && BufsIn(items, 0, FW_IMAGE, s.fbc, s.nameSize)
    && BufsIn(items, |s.fbc|, FW_RDDM, s.rddm, s.nameSize)
    && HeapsIn(items, |s.fbc| + |s.rddm|, s.mem, s.nameSize)
  }

  lemma {:induction false} CountGrows(mem: seq<FwMem>, i: nat, j: nat)
    requires i <= j <= |mem|
    ensures HeapCount(mem, i) <= HeapCount(mem, j)
  {
    if i < j { CountGrows(mem, i, j - 1); }
  }

  lemma {:induction false} HeapStands(mem: seq<FwMem>, size: nat, i: nat, n: nat)
    requires i < n <= |mem| && IsHeap(mem[i])
    ensures var j := HeapCount(mem, i);
            j < HeapCount(mem, n) && HeapItems(mem, n, size)[j] == HeapItem(mem[i], j, size)
    decreases n
  {
    if i < n - 1 { HeapStands(mem, size, i, n - 1); }
  }

  lemma {:induction false} PartsStand(a: seq<Item>, b: seq<Item>, c: seq<Item>)
    ensures forall i :: 0 <= i < |a| ==> (a + b + c)[i] == a[i]
    ensures forall i :: 0 <= i < |b| ==> (a + b + c)[|a| + i] == b[i]
    ensures forall i :: 0 <= i < |c| ==> (a + b + c)[|a| + |b| + i] == c[i]
  {
  }

  lemma {:induction false} BufsListed(front: seq<Item>, kind: nat, bufs: seq<Buf>, size: nat, back: seq<Item>)
    ensures BufsIn(front + BufItems(kind, bufs, size) + back, |front|, kind, bufs, size)
  {
    PartsStand(front, BufItems(kind, bufs, size), back);
    var items, at := front + BufItems(kind, bufs, size) + back, |front|;
    forall i: nat | i < |bufs| ensures BufAt(items, at, kind, bufs, size, i) {
    }
  }

  lemma {:induction false} HeapsListed(front: seq<Item>, mem: seq<FwMem>, size: nat)
    ensures HeapsIn(front + HeapItems(mem, |mem|, size), |front|, mem, size)
  {
    var items, at := front + HeapItems(mem, |mem|, size), |front|;
    forall i: nat | i < |mem| ensures HeapAt(items, at, mem, size, i) {
      if IsHeap(mem[i]) { HeapStands(mem, size, i, |mem|); }
    }
  }

  lemma {:induction false} ItemsListed(s: Sources)
    ensures Lists(Items(s), s)
  {
    hide BufsIn, HeapsIn, HeapItems;
    var n := s.nameSize;
    var a, b := BufItems(FW_IMAGE, s.fbc, n), BufItems(FW_RDDM, s.rddm, n);
    var c := HeapItems(s.mem, |s.mem|, n);
    BufsListed([], FW_IMAGE, s.fbc, n, b + c);
    assert Items(s) == [] + a + (b + c);
    BufsListed(a, FW_RDDM, s.rddm, n, c);
    HeapsListed(a + b, s.mem, n);
  }

  class DumpInfo {
    const src: Sources
    const dumpSegs: array?<DumpSeg>
    var nentries: nat
    var dataValid: bool
    var regions: map<string, Region>
    var overrun: bool             // a segment was written past the table

    /** The first n segments are recorded, as far as the table reaches. */
    ghost predicate Recorded(items: seq<Item>, n: nat, t: map<string, Region>, o: bool,
                             pa: nat -> Option<nat>, ok: nat -> bool)
      requires dumpSegs != null && n <= |items|
      reads this, dumpSegs
    {
      var m := Min(n, dumpSegs.Length);
      && dumpSegs[..m] == Segs(items)[..m] && regions == AddFirst(items, n, t, pa, ok)
      && overrun == (o || n > dumpSegs.Length)
    }

    method AddDumpSeg(k: nat, item: Item, pa: nat -> Option<nat>, ok: nat -> bool,
                      ghost items: seq<Item>, ghost t: map<string, Region>, ghost o: bool)
      requires dumpSegs != null && k < |items| && item == items[k] && Recorded(items, k, t, o, pa, ok)
      modifies this`regions, this`overrun, dumpSegs
      ensures Recorded(items, k + 1, t, o, pa, ok)
    {
      var segs: array<DumpSeg> := dumpSegs;
      if k < segs.Length {
        segs[k] := item.seg;
        assert segs[..k + 1] == segs[..k] + [item.seg];
        assert Segs(items)[..k + 1] == Segs(items)[..k] + [item.seg];
      } else {
        overrun := true;
      }
      if pa(k).Some? {
        regions := AddRegion(regions, item.name, RegionOf(item, pa(k).value), ok(k));
      }
    }

    /** One turn of the loops over image buffers. */
    method CollectBuf(kind: nat, bufs: seq<Buf>, i: nat, at: nat, pa: nat -> Option<nat>, ok: nat -> bool,
                      ghost items: seq<Item>, ghost t: map<string, Region>, ghost o: bool)
      requires dumpSegs != null && i < |bufs| && BufAt(items, at, kind, bufs, src.nameSize, i)
      requires Recorded(items, at + i, t, o, pa, ok)
      modifies this`regions, this`overrun, dumpSegs
      ensures Recorded(items, at + i + 1, t, o, pa, ok)
    {
      AddDumpSeg(at + i, BufItem(kind, bufs[i], i, src.nameSize), pa, ok, items, t, o);
    }

    method CollectBufs(kind: nat, bufs: seq<Buf>, at: nat, pa: nat -> Option<nat>, ok: nat -> bool,
                       ghost items: seq<Item>, ghost t: map<string, Region>, ghost o: bool)
      requires dumpSegs != null && BufsIn(items, at, kind, bufs, src.nameSize) && Recorded(items, at, t, o, pa, ok)
      modifies this`regions, this`overrun, dumpSegs
      ensures Recorded(items, at + |bufs|, t, o, pa, ok)
    {
      hide Segs, AddFirst, AddRegion, Min;
      var i := 0;
      while i < |bufs|
        invariant i <= |bufs| && Recorded(items, at + i, t, o, pa, ok)
      {
        assert BufAt(items, at, kind, bufs, src.nameSize, i);
        CollectBuf(kind, bufs, i, at, pa, ok, items, t, o);
        i := i + 1;
      }
    }

    /** One turn of the loop over the firmware memories. */
    method CollectMem(i: nat, j: nat, at: nat, pa: nat -> Option<nat>, ok: nat -> bool,
                      ghost items: seq<Item>, ghost t: map<string, Region>, ghost o: bool) returns (j': nat)
      requires dumpSegs != null && i < |src.mem| && j == HeapCount(src.mem, i) && at + j <= |items|
      requires HeapAt(items, at, src.mem, src.nameSize, i) && Recorded(items, at + j, t, o, pa, ok)
      modifies this`regions, this`overrun, dumpSegs
      ensures j' == HeapCount(src.mem, i + 1) && at + j' <= |items| && Recorded(items, at + j', t, o, pa, ok)
    {
      j' := j;
      if src.mem[i].kind == MEM_TYPE_DDR {
        if src.mem[i].contiguous {
          AddDumpSeg(at + j, HeapItem(src.mem[i], j, src.nameSize), pa, ok, items, t, o);
          j' := j + 1;
        }
      }
    }

    method CollectHeaps(at: nat, pa: nat -> Option<nat>, ok: nat -> bool,
                        ghost items: seq<Item>, ghost t: map<string, Region>, ghost o: bool) returns (j: nat)
      requires dumpSegs != null && at <= |items|
      requires HeapsIn(items, at, src.mem, src.nameSize) && Recorded(items, at, t, o, pa, ok)
      modifies this`regions, this`overrun, dumpSegs
      ensures at + j == |items| && Recorded(items, at + j, t, o, pa, ok)
    {
      var i := 0;
      j := 0;
      while i < |src.mem|
        invariant i <= |src.mem| && j == HeapCount(src.mem, i)
        invariant at + j <= |items| && Recorded(items, at + j, t, o, pa, ok)
      {
        assert HeapAt(items, at, src.mem, src.nameSize, i);
        j := CollectMem(i, j, at, pa, ok, items, t, o);
        i := i + 1;
      }
    }

    method CollectAll(pa: nat -> Option<nat>, ok: nat -> bool, ghost items: seq<Item>) returns (n: nat)
      requires dumpSegs != null && Lists(items, src)
      modifies this`regions, this`overrun, dumpSegs
      ensures n == |items| && Recorded(items, n, old(regions), old(overrun), pa, ok)
    {
      hide BufsIn, BufAt, HeapAt, Segs;
      ghost var t, o := regions, overrun;
      CollectBufs(FW_IMAGE, src.fbc, 0, pa, ok, items, t, o);
      n := |src.fbc|;
      CollectBufs(FW_RDDM, src.rddm, n, pa, ok, items, t, o);
      n := n + |src.rddm|;
      var j := CollectHeaps(n, pa, ok, items, t, o);
      n := n + j;
    }

    /** The part of the collection after the RDDM download. */
    method Collect(pa: nat -> Option<nat>, ok: nat -> bool)
      modifies this, dumpSegs
      ensures dumpSegs == null ==>
                nentries == 0 && regions == old(regions) && dataValid == old(dataValid) && overrun == old(overrun)
      ensures dumpSegs != null ==>
                && nentries == |Items(src)| && Recorded(Items(src), nentries, old(regions), old(overrun), pa, ok)
                && dataValid == (old(dataValid) || nentries > 0)
    {
      nentries := 0;
      if dumpSegs == null { return; }
      ItemsListed(src);
      nentries := CollectAll(pa, ok, Items(src));
      if nentries > 0 { dataValid := true; }
    }

    method RemoveDumpSeg(k: nat, item: Item, pa: nat -> Option<nat>, garbage: nat -> nat,
                         ghost items: seq<Item>, ghost t: map<string, Region>)
      requires k < |items| && item == items[k] && regions == RemoveFirst(items, k, t, pa, garbage)
      modifies this`regions
      ensures regions == RemoveFirst(items, k + 1, t, pa, garbage)
    {
      var phys := garbage(k);
      if pa(k).Some? { phys := pa(k).value; }
      regions := RemoveRegion(regions, item.name, RegionOf(item, phys));
    }

    method ClearBufs(kind: nat, bufs: seq<Buf>, at: nat, pa: nat -> Option<nat>, garbage: nat -> nat,
                     ghost items: seq<Item>, ghost t: map<string, Region>)
      requires BufsIn(items, at, kind, bufs, src.nameSize) && regions == RemoveFirst(items, at, t, pa, garbage)
      modifies this`regions
      ensures regions == RemoveFirst(items, at + |bufs|, t, pa, garbage)
    {
      var i := 0;
      while i < |bufs|
        invariant i <= |bufs| && regions == RemoveFirst(items, at + i, t, pa, garbage)
      {
        assert BufAt(items, at, kind, bufs, src.nameSize, i);
        RemoveDumpSeg(at + i, BufItem(kind, bufs[i], i, src.nameSize), pa, garbage, items, t);
        i := i + 1;
      }
    }

    method ClearHeaps(at: nat, pa: nat -> Option<nat>, garbage: nat -> nat,
                      ghost items: seq<Item>, ghost t: map<string, Region>)
      requires at <= |items| && HeapsIn(items, at, src.mem, src.nameSize)
      requires regions == RemoveFirst(items, at, t, pa, garbage)
      modifies this`regions
      ensures regions == RemoveFirst(items, |items|, t, pa, garbage)
    {
      hide HeapItem, RemoveFirst, RemoveRegion, Address;
      var i, j := 0, 0;
      while i < |src.mem|
        invariant i <= |src.mem| && j == HeapCount(src.mem, i) && at + j <= |items|
        invariant regions == RemoveFirst(items, at + j, t, pa, garbage)
      {
        CountGrows(src.mem, i + 1, |src.mem|);
        assert HeapAt(items, at, src.mem, src.nameSize, i);
        if src.mem[i].kind == MEM_TYPE_DDR && src.mem[i].contiguous {
          RemoveDumpSeg(at + j, HeapItem(src.mem[i], j, src.nameSize), pa, garbage, items, t);
          j := j + 1;
        }
        i := i + 1;
      }
    }

    method ClearAll(pa: nat -> Option<nat>, garbage: nat -> nat, ghost items: seq<Item>)
      requires Lists(items, src)
      modifies this`regions
      ensures regions == RemoveFirst(items, |items|, old(regions), pa, garbage)
    {
      ghost var t := regions;
      ClearBufs(FW_IMAGE, src.fbc, 0, pa, garbage, items, t);
      ClearBufs(FW_RDDM, src.rddm, |src.fbc|, pa, garbage, items, t);
      ClearHeaps(|src.fbc| + |src.rddm|, pa, garbage, items, t);
    }

    method Clear(pa: nat -> Option<nat>, garbage: nat -> nat)
      modifies this`nentries, this`dataValid, this`regions
      ensures dumpSegs == null ==> nentries == old(nentries) && regions == old(regions) && dataValid == old(dataValid)
      ensures dumpSegs != null ==>
                && nentries == 0 && !dataValid
                && regions == RemoveFirst(Items(src), |Items(src)|, old(regions), pa, garbage)
    {
      if dumpSegs == null { return; }
      ItemsListed(src);
      ClearAll(pa, garbage, Items(src));
      nentries := 0;
      dataValid := false;
    }
  }
}

module DumpInfoProofs {
  import opened Common
  import opened DumpInfoSpec

  lemma {:induction false} DigitInjective(c: nat, d: nat)
    requires c < 16 && d < 16 && HexDigit(c) == HexDigit(d)
    ensures c == d
  {
  }

  function HexFront(n: nat): string { if n < 16 then "" else Hex(n / 16) }

  lemma {:induction false} HexParts(n: nat)
    ensures Hex(n) == HexFront(n) + [HexDigit(n % 16)] && |Hex(n)| >= 1
  {
  }

  lemma {:induction false} HexInjective(m: nat, n: nat)
    requires Hex(m) == Hex(n)
    ensures m == n
  {
    HexParts(m);
    HexParts(n);
    var a, b := HexFront(m), HexFront(n);
    assert |a| == |b| && (a + [HexDigit(m % 16)])[|a|] == (b + [HexDigit(n % 16)])[|b|];
    DigitInjective(m % 16, n % 16);
    assert a == (a + [HexDigit(m % 16)])[..|a|] == (b + [HexDigit(n % 16)])[..|b|] == b;
    HexParts(m / 16);
    HexParts(n / 16);
    if m >= 16 && n >= 16 { HexInjective(m / 16, n / 16); }
  }

  /** Regions of different kinds or numbers have different names, if these fit. */
  lemma {:induction false} NamesDiffer(k: nat, m: nat, l: nat, n: nat, size: nat)
    requires k < DUMP_TYPE_MAX && l < DUMP_TYPE_MAX && |FullName(k, m)| < size && |FullName(l, n)| < size
    requires RegionName(k, m, size) == RegionName(l, n, size)
    ensures k == l && m == n
  {
    var a, b := FullName(k, m), FullName(l, n);
    assert a[0] == Prefix(k)[0] && b[0] == Prefix(l)[0] && a[1] == Prefix(k)[1] && b[1] == Prefix(l)[1];
    assert a[|Prefix(k)|..] == Hex(m) && b[|Prefix(l)|..] == Hex(n);
    HexInjective(m, n);
  }

  /** The kind and number of the k-th item. */
  function KindAt(s: Sources, k: nat): nat {
    if k < |s.fbc| then FW_IMAGE else if k < |s.fbc| + |s.rddm| then FW_RDDM else FW_REMOTE_HEAP
  }

  function NumberAt(s: Sources, k: nat): nat {
    if k < |s.fbc| then k else if k < |s.fbc| + |s.rddm| then k - |s.fbc| else k - |s.fbc| - |s.rddm|
  }

  /** An item that is the no-th of its kind. */
  ghost predicate Named(item: Item, kind: nat, no: nat, size: nat) {
    item.seg.kind == kind && item.name == RegionName(kind, no, size)
  }

  lemma {:induction false} HeapsNamed(mem: seq<FwMem>, n: nat, size: nat, k: nat)
    requires n <= |mem| && k < HeapCount(mem, n)
    ensures Named(HeapItems(mem, n, size)[k], FW_REMOTE_HEAP, k, size)
    decreases n
  {
    hide RegionName, IsHeap;
    if k < HeapCount(mem, n - 1) { HeapsNamed(mem, n - 1, size, k); }
  }

  lemma {:induction false} ItemNamed(s: Sources, k: nat)
    requires k < |Items(s)|
    ensures Named(Items(s)[k], KindAt(s, k), NumberAt(s, k), s.nameSize)
  {
    if k >= |s.fbc| + |s.rddm| { HeapsNamed(s.mem, |s.mem|, s.nameSize, k - |s.fbc| - |s.rddm|); }
  }

  /** If all names fit, no two segments share one. */
  lemma {:induction false} ItemsDistinct(s: Sources, i: nat, j: nat)
    requires i < j < |Items(s)|
    requires |FullName(KindAt(s, i), NumberAt(s, i))| < s.nameSize
    requires |FullName(KindAt(s, j), NumberAt(s, j))| < s.nameSize
    ensures Items(s)[i].name != Items(s)[j].name
  {
    ItemNamed(s, i);
    ItemNamed(s, j);
    if Items(s)[i].name == Items(s)[j].name {
      NamesDiffer(KindAt(s, i), NumberAt(s, i), KindAt(s, j), NumberAt(s, j), s.nameSize);
    }
  }

  // --------------------------------------------------- what a segment is made of

  /** The heaps among the first i firmware memories, in order. */
  function HeapsAmong(mem: seq<FwMem>, i: nat): seq<FwMem>
    requires i <= |mem|
  {
    if i == 0 then []
    else
      var m := mem[i - 1];
      HeapsAmong(mem, i - 1) + if m.kind == MEM_TYPE_DDR && m.contiguous then [m] else []
  }

  /** A region of the device's memory that is to be dumped. */
  datatype Source = Source(address: nat, va: nat, size: nat)

  /** The sources of one kind, as firmware and driver set them up. */
  function SourcesOf(s: Sources, kind: nat): seq<Source> {
    if kind == FW_IMAGE then
      seq(|s.fbc|, i requires 0 <= i < |s.fbc| => Source(s.fbc[i].dma, s.fbc[i].va, s.fbc[i].len))
    else if kind == FW_RDDM then
      seq(|s.rddm|, i requires 0 <= i < |s.rddm| => Source(s.rddm[i].dma, s.rddm[i].va, s.rddm[i].len))
    else
      var heaps := HeapsAmong(s.mem, |s.mem|);
      seq(|heaps|, i requires 0 <= i < |heaps| => Source(heaps[i].pa, heaps[i].va, heaps[i].size))
  }

  /** Where the segments of a kind start. */
  function StartOf(s: Sources, kind: nat): nat {
    if kind == FW_IMAGE then 0 else if kind == FW_RDDM then |s.fbc| else |s.fbc| + |s.rddm|
  }

  /** The segment stands for the source. */
  predicate StandsFor(seg: DumpSeg, src: Source, kind: nat) {
    seg.address == src.address && seg.va == src.va && seg.size == src.size && seg.kind == kind
  }

  lemma {:induction false} HeapsStandFor(mem: seq<FwMem>, n: nat, size: nat, j: nat)
    requires n <= |mem| && j < HeapCount(mem, n)
    ensures HeapCount(mem, n) == |HeapsAmong(mem, n)|
    ensures var m, seg := HeapsAmong(mem, n)[j], HeapItems(mem, n, size)[j].seg;
            StandsFor(seg, Source(m.pa, m.va, m.size), FW_REMOTE_HEAP)
    decreases n
  {
    HeapCounts(mem, n - 1);
    if j < HeapCount(mem, n - 1) { HeapsStandFor(mem, n - 1, size, j); }
  }

  lemma {:induction false} HeapCounts(mem: seq<FwMem>, n: nat)
    requires n <= |mem|
    ensures HeapCount(mem, n) == |HeapsAmong(mem, n)|
  {
    if n > 0 { HeapCounts(mem, n - 1); }
  }

  lemma {:induction false} ItemCount(s: Sources)
    ensures |Items(s)| == |s.fbc| + |s.rddm| + |SourcesOf(s, FW_REMOTE_HEAP)|
    ensures |SourcesOf(s, FW_IMAGE)| == |s.fbc| && |SourcesOf(s, FW_RDDM)| == |s.rddm|
  {
    HeapCounts(s.mem, |s.mem|);
  }

  /** The no-th segment of a kind stands for the no-th source of that kind, and there
      are as many segments as sources. */
  lemma {:induction false} SegmentsStandFor(s: Sources, kind: nat, no: nat)
    requires kind < DUMP_TYPE_MAX && no < |SourcesOf(s, kind)|
    ensures |Items(s)| == |s.fbc| + |s.rddm| + |SourcesOf(s, FW_REMOTE_HEAP)|
    ensures var k := StartOf(s, kind) + no; k < |Items(s)| && StandsFor(Items(s)[k].seg, SourcesOf(s, kind)[no], kind)
  {
    hide HeapsAmong, HeapCount, RegionName;
    ItemCount(s);
    if kind == FW_REMOTE_HEAP { HeapsStandFor(s.mem, |s.mem|, s.nameSize, no); }
  }

  /** What is printed into the region's name. */
  function Label(kind: nat): string {
    if kind == FW_IMAGE then "FBC_" else if kind == FW_RDDM then "RDDM_" else "RHEAP_"
  }

  function DigitValue(c: char): nat {
    if '0' <= c <= '9' then (c - '0') as nat else if 'A' <= c <= 'F' then (c - 'A') as nat + 10 else 16
  }

  /** The number that hexadecimal digits stand for. */
  function HexValue(text: string): nat {
    if text == "" then 0 else 16 * HexValue(text[..|text| - 1]) + DigitValue(text[|text| - 1])
  }

  lemma {:induction false} DigitRead(d: nat)
    requires d < 16
    ensures DigitValue(HexDigit(d)) == d
  {
  }

  /** A number printed in hexadecimal is read back, and has no leading zero. */
  lemma {:induction false} HexReads(n: nat)
    ensures HexValue(Hex(n)) == n && (n > 0 ==> Hex(n)[0] != '0')
  {
    HexParts(n);
    DigitRead(n % 16);
    var front := HexFront(n);
    assert Hex(n)[..|front|] == front && Hex(n)[|front|] == HexDigit(n % 16);
    if n >= 16 { HexReads(n / 16); HexParts(n / 16); }
  }

  /** The name of the no-th region of a kind: its label and number, if they fit the
      buffer, and what of them fits if not. */
  lemma {:induction false} NamesAre(s: Sources, kind: nat, no: nat)
    requires kind < DUMP_TYPE_MAX && no < |SourcesOf(s, kind)|
    ensures var k, full := StartOf(s, kind) + no, Label(kind) + Hex(no);
            && k < |Items(s)|
            && (|full| < s.nameSize ==> Items(s)[k].name == full)
            && (0 < s.nameSize <= |full| ==> Items(s)[k].name == full[..s.nameSize - 1])
  {
    hide Hex;
    SegmentsStandFor(s, kind, no);
    ItemNamed(s, StartOf(s, kind) + no);
  }

  /** None of the segments' names is in the table. */
  ghost predicate Fresh(items: seq<Item>, t: map<string, Region>) {
    forall k :: 0 <= k < |items| ==> items[k].name !in t
  }

  /** The k-th segment's region is put into the table: its address is found, the table
      takes it, and no earlier segment has taken its name. */
  ghost predicate Added(items: seq<Item>, k: nat, pa: nat -> Option<nat>, ok: nat -> bool)
    requires k < |items|
  {
    pa(k).Some? && ok(k) && forall i: nat :: i < k && items[i].name == items[k].name ==> !(pa(i).Some? && ok(i))
  }

  /** The region added for segment k is found again from some segment of that name. */
  ghost predicate FoundAgain(items: seq<Item>, k: nat, pa: nat -> Option<nat>, pa': nat -> Option<nat>,
                             garbage: nat -> nat)
    requires k < |items| && pa(k).Some?
  {
    exists j: nat :: j < |items| && Matches(items, j, k, pa(k).value, pa', garbage)
  }

  ghost predicate Matches(items: seq<Item>, j: nat, k: nat, phys: nat, pa': nat -> Option<nat>, garbage: nat -> nat)
    requires j < |items| && k < |items|
  {
    items[j].name == items[k].name && RegionOf(items[j], Address(j, pa', garbage)) == RegionOf(items[k], phys)
  }

  /** What collecting the first n segments does to one name. */
  lemma {:induction false} NameCollected(items: seq<Item>, n: nat, t: map<string, Region>,
                                         pa: nat -> Option<nat>, ok: nat -> bool, name: string)
    requires n <= |items|
    ensures var t' := AddFirst(items, n, t, pa, ok);
            && (name in t ==> name in t' && t'[name] == t[name])
            && (name !in t && name in t' ==>
                  exists k: nat :: k < n && items[k].name == name && Added(items, k, pa, ok)
                                   && t'[name] == RegionOf(items[k], pa(k).value))
            && (name !in t && name !in t' ==>
                  forall k: nat :: k < n && items[k].name == name ==> !(pa(k).Some? && ok(k)))
    decreases n
  {
    if n > 0 { NameCollected(items, n - 1, t, pa, ok, name); }
  }

  lemma {:induction false} AddedStays(items: seq<Item>, n: nat, t: map<string, Region>,
                                      pa: nat -> Option<nat>, ok: nat -> bool, k: nat)
    requires k < n <= |items| && Fresh(items, t) && Added(items, k, pa, ok)
    ensures var t' := AddFirst(items, n, t, pa, ok);
            items[k].name in t' && t'[items[k].name] == RegionOf(items[k], pa(k).value)
    decreases n
  {
    if k < n - 1 {
      AddedStays(items, n - 1, t, pa, ok, k);
    } else {
      NameCollected(items, k, t, pa, ok, items[k].name);
    }
  }

  /** A region that was added is that of its source. */
  lemma {:induction false} RegionsAre(s: Sources, t: map<string, Region>, pa: nat -> Option<nat>, ok: nat -> bool,
                                      kind: nat, no: nat)
    requires kind < DUMP_TYPE_MAX && no < |SourcesOf(s, kind)|
    requires Fresh(Items(s), t) && StartOf(s, kind) + no < |Items(s)|
    requires Added(Items(s), StartOf(s, kind) + no, pa, ok)
    ensures var k, src := StartOf(s, kind) + no, SourcesOf(s, kind)[no];
            var t' := AddFirst(Items(s), |Items(s)|, t, pa, ok);
            && Items(s)[k].name in t' && t'[Items(s)[k].name].va == src.va && t'[Items(s)[k].name].size == src.size
            && Some(t'[Items(s)[k].name].phys) == pa(k)
  {
    hide Items, SourcesOf, AddFirst;
    SegmentsStandFor(s, kind, no);
    AddedStays(Items(s), |Items(s)|, t, pa, ok, StartOf(s, kind) + no);
  }

  /** What clearing the first n segments does to one name. */
  lemma {:induction false} NameCleared(items: seq<Item>, n: nat, t: map<string, Region>,
                                       pa: nat -> Option<nat>, garbage: nat -> nat, name: string)
    requires n <= |items|
    ensures var t' := RemoveFirst(items, n, t, pa, garbage);
            && (name in t' ==> name in t && t'[name] == t[name])
            && (name in t && name !in t' <==>
                  exists k: nat :: k < n && items[k].name == name && name in t
                                   && t[name] == RegionOf(items[k], Address(k, pa, garbage)))
    decreases n
  {
    if n > 0 { NameCleared(items, n - 1, t, pa, garbage, name); }
  }

  /** A region that was added is cleared exactly if it is found again. */
  lemma {:induction false} AddedClearedIff(items: seq<Item>, t: map<string, Region>, pa: nat -> Option<nat>,
                                           ok: nat -> bool, pa': nat -> Option<nat>, garbage: nat -> nat, k: nat)
    requires Fresh(items, t) && k < |items| && Added(items, k, pa, ok)
    ensures var t2 := RemoveFirst(items, |items|, AddFirst(items, |items|, t, pa, ok), pa', garbage);
            items[k].name !in t2 <==> FoundAgain(items, k, pa, pa', garbage)
  {
    var n, name := |items|, items[k].name;
    var t1 := AddFirst(items, n, t, pa, ok);
    AddedStays(items, n, t, pa, ok, k);
    NameCleared(items, n, t1, pa', garbage, name);
    if FoundAgain(items, k, pa, pa', garbage) {
      var j: nat :| j < n && Matches(items, j, k, pa(k).value, pa', garbage);
      assert items[j].name == name && t1[name] == RegionOf(items[j], Address(j, pa', garbage));
    }
    if name !in RemoveFirst(items, n, t1, pa', garbage) {
      var j: nat :| j < n && items[j].name == name && t1[name] == RegionOf(items[j], Address(j, pa', garbage));
      assert Matches(items, j, k, pa(k).value, pa', garbage);
    }
  }

  /** A name that was there before stays, one that was not and was not added is still
      not there. */
  lemma {:induction false} OtherName(items: seq<Item>, t: map<string, Region>, pa: nat -> Option<nat>,
                                     ok: nat -> bool, pa': nat -> Option<nat>, garbage: nat -> nat, name: string)
    requires Fresh(items, t)
    requires forall k: nat :: k < |items| && items[k].name == name ==> !Added(items, k, pa, ok)
    ensures var t2 := RemoveFirst(items, |items|, AddFirst(items, |items|, t, pa, ok), pa', garbage);
            (name in t2 <==> name in t) && (name in t ==> t2[name] == t[name])
  {
    var n := |items|;
    NameCollected(items, n, t, pa, ok, name);
    NameCleared(items, n, AddFirst(items, n, t, pa, ok), pa', garbage, name);
  }

  /** Clearing takes back exactly the regions that collection added, and leaves all
      others, exactly if every region added is found again. */
  lemma {:induction false} ClearUndoesCollectIff(items: seq<Item>, t: map<string, Region>, pa: nat -> Option<nat>,
                                                 ok: nat -> bool, pa': nat -> Option<nat>, garbage: nat -> nat)
    requires Fresh(items, t)
    ensures RemoveFirst(items, |items|, AddFirst(items, |items|, t, pa, ok), pa', garbage) == t <==>
            forall k: nat :: k < |items| && Added(items, k, pa, ok) ==> FoundAgain(items, k, pa, pa', garbage)
  {
    var n := |items|;
    var t2 := RemoveFirst(items, n, AddFirst(items, n, t, pa, ok), pa', garbage);
    if forall k: nat :: k < n && Added(items, k, pa, ok) ==> FoundAgain(items, k, pa, pa', garbage) {
      forall name ensures (name in t2 <==> name in t) && (name in t ==> t2[name] == t[name]) {
        if k: nat :| k < n && items[k].name == name && Added(items, k, pa, ok) {
          AddedClearedIff(items, t, pa, ok, pa', garbage, k);
        } else {
          OtherName(items, t, pa, ok, pa', garbage, name);
        }
      }
      assert t2 == t;
    } else {
      var k: nat :| k < n && Added(items, k, pa, ok) && !FoundAgain(items, k, pa, pa', garbage);
      AddedClearedIff(items, t, pa, ok, pa', garbage, k);
    }
  }

  /** In particular when clearing finds the addresses that collection found. */
  lemma {:induction false} SameAddressesSuffice(s: Sources, t: map<string, Region>, pa: nat -> Option<nat>,
                                                ok: nat -> bool, garbage: nat -> nat)
    requires Fresh(Items(s), t)
    ensures RemoveFirst(Items(s), |Items(s)|, AddFirst(Items(s), |Items(s)|, t, pa, ok), pa, garbage) == t
  {
    var items := Items(s);
    forall k: nat | k < |items| && Added(items, k, pa, ok) ensures FoundAgain(items, k, pa, pa, garbage) {
      assert Matches(items, k, k, pa(k).value, pa, garbage);
    }
    ClearUndoesCollectIff(items, t, pa, ok, pa, garbage);
  }
}
