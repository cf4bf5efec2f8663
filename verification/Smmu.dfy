/**
 The SMMU IOVA allocator: a bump pointer that hands out page-aligned ranges and
 falls back to the start of whatever is unmapped.  `pages` is the IOMMU's page
 table, from IOVA page number to physical page number.  Addresses are handed
 out as 32-bit values.
 */
module SmmuSpec {
  import opened Common

  const PAGE: nat := 4096

  function RoundUp(x: nat): nat { (x + PAGE - 1) / PAGE * PAGE }
  function RoundDown(x: nat): nat { x - x % PAGE }

  /** The window handed out; `geometry` makes map respect its end. */
  datatype Window = Window(start: nat, len: nat, geometry: bool)

  datatype Iova = Iova(current: nat, pages: map<nat, nat>)

  predicate Between(k: nat, v: nat, n: nat) { v <= k < v + n }

  /** The n pages from page v on. */
  function Pages(v: nat, n: nat): set<nat> {
    set k: nat | v <= k < v + n && Between(k, v, n)
  }

  /** The n pages from IOVA page v on, to physical page p on. */
  function Range(v: nat, p: nat, n: nat): map<nat, nat> {
    map k | k in Pages(v, n) :: p + (k - v)
  }

  function MapLen(paddr: nat, size: nat): nat { RoundUp(size + paddr - RoundDown(paddr)) }

  function UnmapLen(addr: nat, size: nat): nat { RoundUp(size + addr - RoundDown(addr)) }

  datatype MapResult = NoSpace | Failed(ret: int) | Mapped(addr: nat)

  /** The IOMMU refuses to map a page twice; `answer` is its answer otherwise. */
  function MapIova(w: Window, s: Iova, paddr: nat, size: nat, answer: int): (Iova, MapResult) {
    var len, iova := MapLen(paddr, size), RoundUp(s.current);
    var range := Range(iova / PAGE, paddr / PAGE, len / PAGE);
    if w.geometry && iova >= w.start + w.len then (s, NoSpace)
    else if !(range.Keys !! s.pages.Keys) then (s, Failed(-EINVAL))
    else if answer != 0 then (s, Failed(answer))
    else (Iova(iova + len, s.pages + range), Mapped((iova + paddr - RoundDown(paddr)) % U32))
  }

  /** How many of the n pages from page v on are mapped in a row. */
  function MappedRun(pages: map<nat, nat>, v: nat, n: nat): (m: nat)
    ensures m <= n
    decreases n
  {
    if n == 0 || v !in pages then 0 else 1 + MappedRun(pages, v + 1, n - 1)
  }

  /** The pages the IOMMU removes when asked for n: those mapped in a row, and no
      more than `limit`. */
  function Removed(pages: map<nat, nat>, v: nat, n: nat, limit: nat): nat {
    Min(limit, MappedRun(pages, v, n))
  }

  /** An unmap that removes fewer pages than asked for has removed them all the same. */
  function UnmapIova(w: Window, s: Iova, addr: nat, size: nat, limit: nat): (Iova, int) {
    var iova, len := RoundDown(addr), UnmapLen(addr, size);
    var m := Removed(s.pages, iova / PAGE, len / PAGE, limit);
    var left := s.pages - Pages(iova / PAGE, m);
    if iova >= w.start + w.len then (s, -ENOMEM)
    else if m != len / PAGE then (Iova(s.current, left), -EINVAL)
    else (Iova(iova, left), 0)
  }
}

module SmmuDriver {
  import opened Common
  import opened SmmuSpec

  class SmmuIova {
    const window: Window
    var current: nat
    var pages: map<nat, nat>

    function Abs(): Iova
      reads this
    {
      Iova(current, pages)
    }

    constructor (window: Window)
      ensures this.window == window && Abs() == Iova(window.start, map[])
    {
      this.window := window;
      current, pages := window.start, map[];
    }

    /** The IOMMU core. */
    method IommuMap(iova: nat, paddr: nat, len: nat, answer: int) returns (ret: int)
      modifies this`pages
      ensures var range := Range(iova / PAGE, paddr / PAGE, len / PAGE);
              ret == (if !(range.Keys !! old(pages).Keys) then -EINVAL else answer)
              && pages == if ret == 0 then old(pages) + range else old(pages)
    {
      var range := Range(iova / PAGE, paddr / PAGE, len / PAGE);
      if !(range.Keys !! pages.Keys) { return -EINVAL; }
      if answer == 0 { pages := pages + range; }
      return answer;
    }

    method IommuUnmap(iova: nat, len: nat, limit: nat) returns (unmapped: nat)
      modifies this`pages
      ensures var m := Removed(old(pages), iova / PAGE, len / PAGE, limit);
              unmapped == m * PAGE && pages == old(pages) - Pages(iova / PAGE, m)
    {
      var m := Removed(pages, iova / PAGE, len / PAGE, limit);
      pages := pages - Pages(iova / PAGE, m);
      return m * PAGE;
    }

    method Map(paddr: nat, size: nat, answer: int) returns (ret: int, addr: nat)
      modifies this
      ensures var (s, r) := MapIova(window, old(Abs()), paddr, size, answer);
              && Abs() == s
              && match r
                 case NoSpace => ret == -ENOMEM
                 case Failed(err) => ret == err
                 case Mapped(a) => ret == 0 && addr == a
    {
      addr := 0;
      var len := RoundUp(size + paddr - RoundDown(paddr));
      var iova := RoundUp(current);
      if window.geometry && iova >= window.start + window.len { return -ENOMEM, addr; }
      SamePage(paddr);
      ret := IommuMap(iova, RoundDown(paddr), len, answer);
      if ret != 0 { return; }
      current := iova + len;
      addr := (iova + paddr - RoundDown(paddr)) % U32;
    }

    method Unmap(addr: nat, size: nat, limit: nat) returns (ret: int)
      modifies this
      ensures (Abs(), ret) == UnmapIova(window, old(Abs()), addr, size, limit)
    {
      var iova := RoundDown(addr);
      var len := RoundUp(size + addr - iova);
      if iova >= window.start + window.len { return -ENOMEM; }
      var unmapped := IommuUnmap(iova, len, limit);
      if unmapped != len { return -EINVAL; }
      current := iova;
      return 0;
    }
  }

  lemma {:induction false} SamePage(paddr: nat)
    ensures RoundDown(paddr) / PAGE == paddr / PAGE
  {
  }
}

module SmmuProofs {
  import opened Common
  import opened SmmuSpec

  /** The physical address an IOVA leads to. */
  function Translate(pages: map<nat, nat>, addr: nat): Option<nat> {
    if addr / PAGE in pages then Some(pages[addr / PAGE] * PAGE + addr % PAGE) else None
  }

  lemma {:induction false} RoundFacts(x: nat)
    ensures RoundUp(x) % PAGE == 0 && x <= RoundUp(x) < x + PAGE
    ensures RoundDown(x) % PAGE == 0 && RoundDown(x) <= x < RoundDown(x) + PAGE && x - RoundDown(x) == x % PAGE
  {
  }

  /** Byte b counted from the start of page v. */
  lemma {:induction false} ByteAt(v: nat, b: nat)
    ensures (v * PAGE + b) / PAGE == v + b / PAGE && (v * PAGE + b) % PAGE == b % PAGE
  {
  }

  lemma {:induction false} LengthCovers(n: nat, b: nat)
    requires b < n
    ensures b / PAGE < RoundUp(n) / PAGE
  {
  }

  /** Byte b of a mapped range leads to byte b of the physical range. */
  lemma {:induction false} RangeTranslates(pages: map<nat, nat>, v: nat, p: nat, n: nat, b: nat)
    requires b / PAGE < n
    ensures Translate(pages + Range(v, p, n), v * PAGE + b) == Some(p * PAGE + b)
  {
    ByteAt(v, b);
    ByteAt(p, b);
    assert v + b / PAGE in Range(v, p, n);
  }

  /** The address handed out, if it is not cut, is as far into its page as the
      buffer is. */
  lemma {:induction false} AddressIs(current: nat, paddr: nat)
    requires RoundUp(current) + paddr % PAGE < U32
    ensures (RoundUp(current) + paddr - RoundDown(paddr)) % U32 == RoundUp(current) / PAGE * PAGE + paddr % PAGE
    ensures paddr == paddr / PAGE * PAGE + paddr % PAGE
  {
    RoundFacts(current);
    RoundFacts(paddr);
  }

  /** Every byte of the buffer is reached through the returned address. */
  lemma {:induction false} MapTranslates(w: Window, s: Iova, paddr: nat, size: nat, answer: int, k: nat)
    requires k < size && RoundUp(s.current) + paddr % PAGE < U32
    ensures var (s', r) := MapIova(w, s, paddr, size, answer);
            r.Mapped? ==> Translate(s'.pages, r.addr + k) == Some(paddr + k)
  {
    var b := paddr % PAGE + k;
    AddressIs(s.current, paddr);
    RoundFacts(paddr);
    LengthCovers(size + paddr % PAGE, b);
    RangeTranslates(s.pages, RoundUp(s.current) / PAGE, paddr / PAGE, MapLen(paddr, size) / PAGE, b);
    hide Range, Pages, Translate, RoundUp, RoundDown;
  }

  /** Unmapping with the returned address and the same size always recomputes the length
      that was mapped ... */
  lemma {:induction false} LengthRecomputed(iova: nat, paddr: nat, size: nat)
    requires iova % PAGE == 0
    ensures UnmapLen((iova + paddr - RoundDown(paddr)) % U32, size) == MapLen(paddr, size)
  {
    var addr := (iova + paddr - RoundDown(paddr)) % U32;
    RoundFacts(paddr);
    assert U32 == PAGE * 0x10_0000;
    assert addr % PAGE == paddr % PAGE;
  }

  /** ... and the IOVA exactly if the address was not cut to 32 bits. */
  lemma {:induction false} UnmapRecomputesIff(iova: nat, paddr: nat)
    requires iova % PAGE == 0
    ensures RoundDown((iova + paddr - RoundDown(paddr)) % U32) == iova <==> iova + paddr % PAGE < U32
  {
    RoundFacts(paddr);
    assert U32 == PAGE * 0x10_0000;
  }

  lemma {:induction false} MappedRunIs(pages: map<nat, nat>, v: nat, n: nat)
    requires forall k: nat :: Between(k, v, n) ==> k in pages
    ensures MappedRun(pages, v, n) == n
    decreases n
  {
    if n > 0 {
      assert Between(v, v, n);
      forall k: nat | Between(k, v + 1, n - 1) ensures k in pages { assert Between(k, v, n); }
      MappedRunIs(pages, v + 1, n - 1);
    }
  }

  /** Map then unmap gives back every page and the bump pointer, exactly if the
      range starts inside the window.  Without the geometry attribute, map also
      hands out ranges beyond it that unmap then refuses. */
  lemma {:induction false} MapThenUnmapIff(w: Window, s: Iova, paddr: nat, size: nat, limit: nat)
    requires RoundUp(s.current) + paddr % PAGE < U32 && limit >= MapLen(paddr, size) / PAGE
    ensures var (s1, r) := MapIova(w, s, paddr, size, 0);
            r.Mapped? ==>
              var (s2, ret) := UnmapIova(w, s1, r.addr, size, limit);
              && (ret == 0 <==> RoundUp(s.current) < w.start + w.len)
              && (ret == 0 ==> s2 == Iova(RoundUp(s.current), s.pages))
              && (ret != 0 ==> s2 == s1 && !w.geometry)
  {
    var (s1, r) := MapIova(w, s, paddr, size, 0);
    if r.Mapped? {
      var iova, n := RoundUp(s.current), MapLen(paddr, size) / PAGE;
      RoundFacts(s.current);
      LengthRecomputed(iova, paddr, size);
      UnmapRecomputesIff(iova, paddr);
      MappedBack(s.pages, iova / PAGE, paddr / PAGE, n);
    }
  }

  /** Taking a fresh range away again. */
  lemma {:induction false} MappedBack(pages: map<nat, nat>, v: nat, p: nat, n: nat)
    requires Pages(v, n) !! pages.Keys
    ensures Range(v, p, n).Keys == Pages(v, n)
    ensures MappedRun(pages + Range(v, p, n), v, n) == n
    ensures pages + Range(v, p, n) - Pages(v, n) == pages
  {
    var more := pages + Range(v, p, n);
    forall k: nat | Between(k, v, n) ensures k in more { assert k in Pages(v, n); }
    MappedRunIs(more, v, n);
  }

  // ------------------------------------------------- last in, first out

  /** A live mapping: its pages in IOVA and physical space, how many of them a failed
      unmap has already removed, and what unmap needs. */
  datatype Live = Live(page: nat, phys: nat, n: nat, gone: nat, addr: nat, size: nat)

  datatype Op = MapOp(paddr: nat, size: nat, answer: int) | UnmapLastOp(limit: nat)

  datatype Alloc = Alloc(iova: Iova, live: seq<Live>)

  /** The pages an unmap of a live mapping removes. */
  function Taken(w: Window, s: Iova, l: Live, limit: nat): nat {
    if RoundDown(l.addr) >= w.start + w.len then 0
    else Removed(s.pages, RoundDown(l.addr) / PAGE, UnmapLen(l.addr, l.size) / PAGE, limit)
  }

  function Step(w: Window, a: Alloc, op: Op): Alloc {
    match op
    case MapOp(paddr, size, answer) =>
      var (s, r) := MapIova(w, a.iova, paddr, size, answer);
      if r.Mapped? then Alloc(s, a.live + [NewLive(a.iova, paddr, size, r.addr)]) else Alloc(s, a.live)
    case UnmapLastOp(limit) =>
      if a.live == [] then a
      else
        var front, last := a.live[..|a.live| - 1], a.live[|a.live| - 1];
        var (s, ret) := UnmapIova(w, a.iova, last.addr, last.size, limit);
        Alloc(s, if ret == 0 then front
                 else front + [last.(gone := last.gone + Taken(w, a.iova, last, limit))])
  }

  function NewLive(s: Iova, paddr: nat, size: nat, addr: nat): Live {
    Live(RoundUp(s.current) / PAGE, paddr / PAGE, MapLen(paddr, size) / PAGE, 0, addr, size)
  }

  function Run(w: Window, ops: seq<Op>): Alloc {
    if ops == [] then Alloc(Iova(w.start, map[]), [])
    else Step(w, Run(w, ops[..|ops| - 1]), ops[|ops| - 1])
  }

  /** The live mappings are stacked below the bump pointer ... */
  ghost predicate Stacked(current: nat, live: seq<Live>) {
    && (forall i :: 0 <= i < |live| ==> (live[i].page + live[i].n) * PAGE <= current)
    && (forall i, j :: 0 <= i < j < |live| ==> live[i].page + live[i].n <= live[j].page)
  }

  /** ... with the addresses unmap recomputes them from ... */
  predicate RecoverableAt(l: Live) {
    l.gone <= l.n && RoundDown(l.addr) == l.page * PAGE && UnmapLen(l.addr, l.size) == l.n * PAGE
  }

  ghost predicate Recoverable(live: seq<Live>) {
    forall i :: 0 <= i < |live| ==> RecoverableAt(live[i])
  }

  /** The pages of a live mapping that are left. */
  predicate Left(l: Live, k: nat) {
    l.page + l.gone <= k < l.page + l.n
  }

  predicate SomeLeft(live: seq<Live>, k: nat) {
    exists i :: 0 <= i < |live| && Left(live[i], k)
  }

  /** ... and what is left of them makes up the page table. */
  ghost predicate Covers(pages: map<nat, nat>, live: seq<Live>) {
    && (forall k :: k in pages ==> SomeLeft(live, k))
    && (forall i, k: nat :: 0 <= i < |live| && Left(live[i], k) ==>
          k in pages && pages[k] == live[i].phys + (k - live[i].page))
  }

  ghost predicate Inv(a: Alloc) {
    Stacked(a.iova.current, a.live) && Recoverable(a.live) && Covers(a.iova.pages, a.live)
  }

  /** A range above the bump pointer is free, so the IOMMU never finds it mapped. */
  lemma {:induction false} FreshRange(a: Alloc, n: nat)
    requires Stacked(a.iova.current, a.live) && Covers(a.iova.pages, a.live)
    ensures Pages(RoundUp(a.iova.current) / PAGE, n) !! a.iova.pages.Keys
  {
    RoundFacts(a.iova.current);
    forall k | k in a.iova.pages ensures k < RoundUp(a.iova.current) / PAGE {
      var i :| 0 <= i < |a.live| && Left(a.live[i], k);
      assert k * PAGE < a.iova.current;
    }
  }

  lemma {:induction false} PushCovers(pages: map<nat, nat>, live: seq<Live>, l: Live)
    requires Covers(pages, live) && Pages(l.page, l.n) !! pages.Keys && l.gone == 0
    ensures Covers(pages + Range(l.page, l.phys, l.n), live + [l])
  {
    var all, more := live + [l], pages + Range(l.page, l.phys, l.n);
    forall k | k in more ensures SomeLeft(all, k) {
      if k in Pages(l.page, l.n) {
        assert Left(all[|live|], k);
      } else {
        var i :| 0 <= i < |live| && Left(live[i], k);
        assert Left(all[i], k);
      }
    }
    forall i, k: nat | 0 <= i < |all| && Left(all[i], k)
      ensures k in more && more[k] == all[i].phys + (k - all[i].page)
    {
      PushedAt(pages, live, l, i, k);
    }
  }

  lemma {:induction false} PushedAt(pages: map<nat, nat>, live: seq<Live>, l: Live, i: nat, k: nat)
    requires Covers(pages, live) && Pages(l.page, l.n) !! pages.Keys && l.gone == 0
    requires i <= |live| && Left((live + [l])[i], k)
    ensures var more := pages + Range(l.page, l.phys, l.n);
            k in more && more[k] == (live + [l])[i].phys + (k - (live + [l])[i].page)
  {
    if i < |live| {
      assert Left(live[i], k);
    } else {
      assert k in Pages(l.page, l.n);
    }
  }

  /** Removing pages from the start of what is left of the last mapping. */
  lemma {:induction false} CutCovers(pages: map<nat, nat>, live: seq<Live>, last: Live, m: nat)
    requires Covers(pages, live + [last]) && last.gone + m <= last.n && (m == 0 || last.gone == 0)
    requires forall i :: 0 <= i < |live| ==> live[i].page + live[i].n <= last.page
    ensures Covers(pages - Pages(last.page, m), live + [last.(gone := last.gone + m)])
  {
    var all, all', cut := live + [last], live + [last.(gone := last.gone + m)], pages - Pages(last.page, m);
    forall k | k in cut ensures SomeLeft(all', k) {
      var i :| 0 <= i < |all| && Left(all[i], k);
      assert i == |live| && m > 0 ==> !Between(k, last.page, m);
      assert Left(all'[i], k);
    }
    forall i, k: nat | 0 <= i < |all'| && Left(all'[i], k)
      ensures k in cut && cut[k] == all'[i].phys + (k - all'[i].page)
    {
      assert Left(all[i], k);
      assert !Between(k, last.page, m);
    }
  }

  /** A mapping nothing is left of can be dropped. */
  lemma {:induction false} DropCovers(pages: map<nat, nat>, live: seq<Live>, last: Live)
    requires Covers(pages, live + [last]) && last.gone == last.n
    ensures Covers(pages, live)
  {
    var all := live + [last];
    forall k | k in pages ensures SomeLeft(live, k) {
      var i :| 0 <= i < |all| && Left(all[i], k);
      assert Left(live[i], k);
    }
    forall i, k: nat | 0 <= i < |live| && Left(live[i], k)
      ensures k in pages && pages[k] == live[i].phys + (k - live[i].page)
    {
      assert Left(all[i], k);
    }
  }

  /** What a mapping needs for its address to lead back to it. */
  predicate KeepsInv(w: Window, a: Alloc, op: Op) {
    op.MapOp? && MapIova(w, a.iova, op.paddr, op.size, op.answer).1.Mapped? ==>
      RoundUp(a.iova.current) + op.paddr % PAGE < U32
  }

  lemma {:induction false} PushStacked(current: nat, live: seq<Live>, l: Live)
    requires Stacked(current, live) && RoundUp(current) == l.page * PAGE
    ensures Stacked(l.page * PAGE + l.n * PAGE, live + [l])
  {
    RoundFacts(current);
    forall i | 0 <= i < |live| ensures live[i].page + live[i].n <= l.page {
      assert (live[i].page + live[i].n) * PAGE <= l.page * PAGE;
    }
  }

  lemma {:induction false} PushRecoverable(live: seq<Live>, l: Live)
    requires Recoverable(live)
    ensures Recoverable(live + [l]) <==> RecoverableAt(l)
  {
    assert (live + [l])[|live|] == l;
  }

  /** The new mapping's address leads back to it exactly if it was not cut. */
  lemma {:induction false} NewLiveIff(s: Iova, paddr: nat, size: nat)
    ensures var addr := (RoundUp(s.current) + paddr - RoundDown(paddr)) % U32;
            var l := NewLive(s, paddr, size, addr);
            && l.page * PAGE == RoundUp(s.current) && l.n * PAGE == MapLen(paddr, size)
            && (RecoverableAt(l) <==> RoundUp(s.current) + paddr % PAGE < U32)
  {
    RoundFacts(s.current);
    RoundFacts(size + paddr - RoundDown(paddr));
    LengthRecomputed(RoundUp(s.current), paddr, size);
    UnmapRecomputesIff(RoundUp(s.current), paddr);
  }

  /** Mapping keeps the invariant exactly if the address handed out was not cut; and
      it never finds its range mapped. */
  lemma {:induction false} MapKeptIff(w: Window, a: Alloc, paddr: nat, size: nat, answer: int)
    requires Inv(a)
    ensures Inv(Step(w, a, MapOp(paddr, size, answer))) <==> KeepsInv(w, a, MapOp(paddr, size, answer))
    ensures answer == 0 ==> !MapIova(w, a.iova, paddr, size, answer).1.Failed?
  {
    var (s, r) := MapIova(w, a.iova, paddr, size, answer);
    var iova, n := RoundUp(a.iova.current), MapLen(paddr, size) / PAGE;
    FreshRange(a, n);
    assert Range(iova / PAGE, paddr / PAGE, n).Keys == Pages(iova / PAGE, n);
    if r.Mapped? {
      var l := NewLive(a.iova, paddr, size, r.addr);
      NewLiveIff(a.iova, paddr, size);
      PushStacked(a.iova.current, a.live, l);
      PushRecoverable(a.live, l);
      PushCovers(a.iova.pages, a.live, l);
    }
  }

  /** A mapping that is partly gone is gone at its start. */
  lemma {:induction false} StartGone(a: Alloc, i: nat)
    requires Covers(a.iova.pages, a.live) && Stacked(a.iova.current, a.live) && i < |a.live| && a.live[i].gone > 0
    ensures a.live[i].n > 0 ==> a.live[i].page !in a.iova.pages
  {
    var l := a.live[i];
    forall j | 0 <= j < |a.live| && l.n > 0 ensures !Left(a.live[j], l.page) {
      if j < i { assert a.live[j].page + a.live[j].n <= l.page; }
      if i < j { assert l.page + l.n <= a.live[j].page; }
    }
  }

  /** What unmapping a live mapping removes: what is left of it, up to the limit, if
      nothing is gone yet and it lies in the window. */
  lemma {:induction false} TakenIs(w: Window, a: Alloc, i: nat, limit: nat)
    requires Recoverable(a.live) && Covers(a.iova.pages, a.live) && i < |a.live|
    requires Stacked(a.iova.current, a.live)
    ensures var l := a.live[i];
            Taken(w, a.iova, l, limit) ==
              if l.page * PAGE >= w.start + w.len || l.gone > 0 then 0 else Min(limit, l.n)
  {
    var l := a.live[i];
    assert RoundDown(l.addr) / PAGE == l.page && UnmapLen(l.addr, l.size) / PAGE == l.n;
    if l.gone == 0 {
      forall k: nat | Between(k, l.page, l.n) ensures k in a.iova.pages { assert Left(l, k); }
      MappedRunIs(a.iova.pages, l.page, l.n);
    } else {
      StartGone(a, i);
    }
  }

  /** Unmapping a live mapping succeeds exactly if it lies in the window, nothing of it
      is gone, and the IOMMU removes it whole. */
  lemma {:induction false} UnmapLiveIff(w: Window, a: Alloc, i: nat, limit: nat)
    requires Inv(a) && i < |a.live|
    ensures var l := a.live[i];
            var (s, ret) := UnmapIova(w, a.iova, l.addr, l.size, limit);
            && (ret == 0 <==> l.page * PAGE < w.start + w.len && (l.n == 0 || (l.gone == 0 && l.n <= limit)))
            && s.pages == a.iova.pages - Pages(l.page, Taken(w, a.iova, l, limit))
            && s.current == if ret == 0 then l.page * PAGE else a.iova.current
  {
    var l := a.live[i];
    TakenIs(w, a, i, limit);
    assert RoundDown(l.addr) / PAGE == l.page && UnmapLen(l.addr, l.size) / PAGE == l.n;
    assert a.iova.pages - Pages(l.page, 0) == a.iova.pages;
  }

  lemma {:induction false} PopStacked(current: nat, live: seq<Live>, last: Live)
    requires Stacked(current, live + [last])
    ensures Stacked(last.page * PAGE, live)
    ensures forall i :: 0 <= i < |live| ==> live[i].page + live[i].n <= last.page
  {
    var all := live + [last];
    forall i | 0 <= i < |live|
      ensures live[i].page + live[i].n <= last.page && (live[i].page + live[i].n) * PAGE <= last.page * PAGE
    {
      assert all[i] == live[i] && all[|live|] == last;
    }
    assert forall i, j :: 0 <= i < j < |live| ==> all[i] == live[i] && all[j] == live[j];
  }

  lemma {:induction false} SwapStacked(current: nat, live: seq<Live>, last: Live, m: nat)
    requires Stacked(current, live + [last])
    ensures Stacked(current, live + [last.(gone := m)])
  {
    var all, all' := live + [last], live + [last.(gone := m)];
    assert forall i :: 0 <= i < |all| ==> all'[i].page == all[i].page && all'[i].n == all[i].n;
  }

  lemma {:induction false} PopRecoverable(live: seq<Live>, last: Live, m: nat)
    requires Recoverable(live + [last]) && m <= last.n
    ensures Recoverable(live) && Recoverable(live + [last.(gone := m)])
  {
    var all := live + [last];
    assert all[|live|] == last && forall i :: 0 <= i < |live| ==> all[i] == live[i];
  }

  /** What unmapping the last mapping makes of the state: it is gone, or m more of its
      pages are. */
  predicate LastTaken(a: Alloc, e: Alloc, front: seq<Live>, last: Live, m: nat) {
    && last.gone + m <= last.n && (m == 0 || last.gone == 0)
    && e.iova.pages == a.iova.pages - Pages(last.page, m)
    && (if e.live == front then last.gone + m == last.n && e.iova.current == last.page * PAGE
        else e.live == front + [last.(gone := last.gone + m)] && e.iova.current == a.iova.current)
  }

  lemma {:induction false} UnmapStepIs(w: Window, a: Alloc, front: seq<Live>, last: Live, limit: nat)
    requires Inv(a) && a.live == front + [last]
    ensures LastTaken(a, Step(w, a, UnmapLastOp(limit)), front, last, Taken(w, a.iova, last, limit))
  {
    hide UnmapIova, Taken, Pages, Stacked, Covers;
    assert a.live[|front|] == last && a.live[..|front|] == front && RecoverableAt(a.live[|front|]);
    UnmapLiveIff(w, a, |front|, limit);
    TakenIs(w, a, |front|, limit);
  }

  lemma {:induction false} LastKept(a: Alloc, e: Alloc, front: seq<Live>, last: Live, m: nat)
    requires Inv(a) && a.live == front + [last] && LastTaken(a, e, front, last, m)
    ensures Inv(e)
  {
    PopStacked(a.iova.current, front, last);
    SwapStacked(a.iova.current, front, last, last.gone + m);
    PopRecoverable(front, last, last.gone + m);
    CutCovers(a.iova.pages, front, last, m);
    if e.live == front { DropCovers(e.iova.pages, front, last.(gone := last.n)); }
  }

  /** Unmapping the last mapping keeps the invariant, whatever the IOMMU removes. */
  lemma {:induction false} UnmapPreserves(w: Window, a: Alloc, limit: nat)
    requires Inv(a)
    ensures Inv(Step(w, a, UnmapLastOp(limit)))
  {
    if a.live != [] {
      var front, last := a.live[..|a.live| - 1], a.live[|a.live| - 1];
      var e := Step(w, a, UnmapLastOp(limit));
      assert a.live == front + [last];
      UnmapStepIs(w, a, front, last, limit);
      LastKept(a, e, front, last, Taken(w, a.iova, last, limit));
    }
  }

  /** The state that the i-th operation of a run finds. */
  function Before(w: Window, ops: seq<Op>, i: nat): Alloc
    requires i <= |ops|
  {
    Run(w, ops[..i])
  }

  lemma {:induction false} BeforeNext(w: Window, ops: seq<Op>, i: nat)
    requires i < |ops|
    ensures Before(w, ops, i + 1) == Step(w, Before(w, ops, i), ops[i])
  {
    assert ops[..i + 1][..i] == ops[..i];
  }

  /** No address of the run was cut to 32 bits. */
  ghost predicate NoneCut(w: Window, ops: seq<Op>) {
    forall i: nat :: i < |ops| ==> KeepsInv(w, Before(w, ops, i), ops[i])
  }

  lemma {:induction false} StepKeptIff(w: Window, a: Alloc, op: Op)
    requires Inv(a)
    ensures Inv(Step(w, a, op)) <==> KeepsInv(w, a, op)
  {
    match op
    case MapOp(paddr, size, answer) => MapKeptIff(w, a, paddr, size, answer);
    case UnmapLastOp(limit) => UnmapPreserves(w, a, limit);
  }

  lemma {:induction false} RunKeepsInv(w: Window, ops: seq<Op>, i: nat)
    requires NoneCut(w, ops) && i <= |ops|
    ensures Inv(Before(w, ops, i))
  {
    if i > 0 {
      RunKeepsInv(w, ops, i - 1);
      BeforeNext(w, ops, i - 1);
      StepKeptIff(w, Before(w, ops, i - 1), ops[i - 1]);
    }
  }

  /** Under last-in-first-out unmapping, for every window and whatever fails: in all
      states the live mappings are page-aligned, disjoint and below the bump pointer,
      their addresses lead back to them, and the page table is what is left of them,
      exactly if no address was cut to 32 bits. */
  lemma {:induction false} RunKeepsInvIff(w: Window, ops: seq<Op>)
    ensures (forall i: nat :: i <= |ops| ==> Inv(Before(w, ops, i))) <==> NoneCut(w, ops)
  {
    if NoneCut(w, ops) {
      forall i: nat | i <= |ops| ensures Inv(Before(w, ops, i)) { RunKeepsInv(w, ops, i); }
    } else {
      var i: nat :| i < |ops| && !KeepsInv(w, Before(w, ops, i), ops[i]);
      BeforeNext(w, ops, i);
      if Inv(Before(w, ops, i)) { StepKeptIff(w, Before(w, ops, i), ops[i]); }
    }
  }

  /** A window below 2^32 with the geometry attribute never cuts an address. */
  lemma {:induction false} WindowNeverCuts(w: Window, ops: seq<Op>)
    requires w.geometry && w.start + w.len <= U32
    ensures NoneCut(w, ops)
  {
    forall i: nat | i < |ops| ensures KeepsInv(w, Before(w, ops, i), ops[i]) {
      RoundFacts(Before(w, ops, i).iova.current);
      assert U32 == PAGE * 0x10_0000;
    }
  }

  // ------------------------------------------------------------ no space lost

  function PagesUsed(live: seq<Live>): nat {
    if live == [] then 0 else PagesUsed(live[..|live| - 1]) + live[|live| - 1].n
  }

  /** The live mappings fill the window from its first page on, without a gap, and the
      bump pointer stands at their end. */
  ghost predicate Packed(w: Window, a: Alloc) {
    && RoundUp(a.iova.current) == RoundUp(w.start) + PagesUsed(a.live) * PAGE
    && forall i: nat :: i < |a.live| ==> StartsAfter(w, a.live, i)
  }

  ghost predicate StartsAfter(w: Window, live: seq<Live>, i: nat)
    requires i < |live|
  {
    live[i].page * PAGE == RoundUp(w.start) + PagesUsed(live[..i]) * PAGE
  }

  lemma {:induction false} FrontPacked(w: Window, live: seq<Live>, l: Live)
    ensures PagesUsed(live + [l]) == PagesUsed(live) + l.n
    ensures forall i: nat :: i < |live| ==> (StartsAfter(w, live + [l], i) <==> StartsAfter(w, live, i))
    ensures StartsAfter(w, live + [l], |live|) <==> l.page * PAGE == RoundUp(w.start) + PagesUsed(live) * PAGE
  {
    var all := live + [l];
    assert all[..|live|] == live;
    forall i: nat | i < |live| ensures StartsAfter(w, all, i) <==> StartsAfter(w, live, i) {
      assert all[..i] == live[..i];
    }
  }

  lemma {:induction false} RoundedIsItself(n: nat)
    ensures RoundUp(n * PAGE) == n * PAGE
  {
  }

  lemma {:induction false} PushKeepsPacked(w: Window, a: Alloc, e: Alloc, l: Live)
    requires Packed(w, a) && l.page * PAGE == RoundUp(a.iova.current)
    requires e.live == a.live + [l] && e.iova.current == (l.page + l.n) * PAGE
    ensures Packed(w, e)
  {
    hide RoundUp;
    FrontPacked(w, a.live, l);
    RoundedIsItself(l.page + l.n);
  }

  lemma {:induction false} LastTakenKeepsPacked(w: Window, a: Alloc, e: Alloc, front: seq<Live>, last: Live, m: nat)
    requires Packed(w, a) && a.live == front + [last] && LastTaken(a, e, front, last, m)
    ensures Packed(w, e)
  {
    hide RoundUp, Pages;
    FrontPacked(w, front, last);
    FrontPacked(w, front, last.(gone := last.gone + m));
    RoundedIsItself(last.page);
  }

  lemma {:induction false} UnmapKeepsPacked(w: Window, ops: seq<Op>, i: nat, limit: nat)
    requires NoneCut(w, ops) && i <= |ops| && Packed(w, Before(w, ops, i))
    ensures Packed(w, Step(w, Before(w, ops, i), UnmapLastOp(limit)))
  {
    hide Packed, Inv, Taken, LastTaken, Before, NoneCut;
    var a := Before(w, ops, i);
    if a.live != [] {
      var front, last := a.live[..|a.live| - 1], a.live[|a.live| - 1];
      hide Step;
      assert a.live == front + [last];
      RunKeepsInv(w, ops, i);
      UnmapStepIs(w, a, front, last, limit);
      LastTakenKeepsPacked(w, a, Step(w, a, UnmapLastOp(limit)), front, last, Taken(w, a.iova, last, limit));
    }
  }

  /** As long as no address is cut, no IOVA space is ever lost: the live mappings stand
      side by side from the start of the window. */
  lemma {:induction false} RunStaysPacked(w: Window, ops: seq<Op>, i: nat)
    requires NoneCut(w, ops) && i <= |ops|
    ensures Packed(w, Before(w, ops, i))
  {
    if i == 0 {
      assert Before(w, ops, 0) == Alloc(Iova(w.start, map[]), []);
    } else {
      hide Inv, Packed, Before, NoneCut, Range, Pages, RoundUp;
      RunStaysPacked(w, ops, i - 1);
      BeforeNext(w, ops, i - 1);
      var a, e := Before(w, ops, i - 1), Before(w, ops, i);
      match ops[i - 1]
      case MapOp(paddr, size, answer) =>
        NewLiveIff(a.iova, paddr, size);
        if e.live != a.live { PushKeepsPacked(w, a, e, e.live[|a.live|]); } else { assert |e.live| == |a.live|; }
      case UnmapLastOp(limit) => UnmapKeepsPacked(w, ops, i - 1, limit);
    }
  }

  lemma {:induction false} RangeKeys(v: nat, p: nat, n: nat)
    ensures Range(v, p, n).Keys == Pages(v, n)
  {
  }

  lemma {:induction false} NeverMappedTwice(w: Window, a: Alloc, paddr: nat, size: nat, answer: int)
    requires Inv(a)
    ensures var (s, r) := MapIova(w, a.iova, paddr, size, answer);
            var iova := RoundUp(a.iova.current);
            if w.geometry && iova >= w.start + w.len then s == a.iova && r == NoSpace
            else if answer != 0 then s == a.iova && r == Failed(answer)
            else s.current == iova + MapLen(paddr, size) && r == Mapped((iova + paddr - RoundDown(paddr)) % U32)
  {
    var iova, n := RoundUp(a.iova.current), MapLen(paddr, size) / PAGE;
    FreshRange(a, n);
    RangeKeys(iova / PAGE, paddr / PAGE, n);
    hide Inv, Range, Pages, RoundUp, RoundDown, MapLen;
  }

  /** So a mapping is refused for lack of space exactly if the live mappings reach the
      end of the window, and otherwise starts right behind them, unless the IOMMU
      fails: then its error is returned and nothing has changed. */
  lemma {:induction false} NoSpaceIff(w: Window, ops: seq<Op>, paddr: nat, size: nat, answer: int)
    requires NoneCut(w, ops)
    ensures var a := Before(w, ops, |ops|);
            var (s, r) := MapIova(w, a.iova, paddr, size, answer);
            var behind := RoundUp(w.start) + PagesUsed(a.live) * PAGE;
            && (r.NoSpace? <==> w.geometry && behind >= w.start + w.len)
            && (r.NoSpace? || answer != 0 ==> s == a.iova)
            && (!r.NoSpace? && answer != 0 ==> r == Failed(answer))
            && (!r.NoSpace? && answer == 0 ==>
                  r == Mapped((behind + paddr % PAGE) % U32) && s.current == behind + MapLen(paddr, size))
  {
    hide MapIova, Before, Inv, NoneCut, RoundUp, MapLen;
    RunStaysPacked(w, ops, |ops|);
    RunKeepsInv(w, ops, |ops|);
    NeverMappedTwice(w, Before(w, ops, |ops|), paddr, size, answer);
    RoundFacts(paddr);
    hide RoundDown;
  }

  function Without(live: seq<Live>, i: nat): seq<Live>
    requires i < |live|
  {
    live[..i] + live[i + 1..]
  }

  /** Unmapping one of the non-empty live mappings keeps the others below the
      bump pointer exactly if it is the last one. */
  lemma {:induction false} OutOfOrderIff(w: Window, a: Alloc, i: nat, limit: nat)
    requires Inv(a) && i < |a.live| && forall j :: 0 <= j < |a.live| ==> a.live[j].n > 0
    ensures var (s, ret) := UnmapIova(w, a.iova, a.live[i].addr, a.live[i].size, limit);
            ret == 0 ==> (Stacked(s.current, Without(a.live, i)) <==> i == |a.live| - 1)
  {
    var l, rest := a.live[i], Without(a.live, i);
    UnmapLiveIff(w, a, i, limit);
    if i < |a.live| - 1 {
      assert rest[i] == a.live[i + 1];
      assert l.page + l.n <= a.live[i + 1].page;
    } else {
      assert rest == a.live[..i];
      assert a.live == rest + [l];
      PopStacked(a.iova.current, rest, l);
    }
  }
}
