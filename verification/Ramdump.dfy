/**
 The ramdump: the collected segments become the segments of an ELF file, behind a
 first segment of meta information that says, for each type, at which program
 header its segments start and how many there are.
 */
module RamdumpSpec {
  import opened Common
  import opened DumpInfoSpec
  import Elf = ElfDumpSpec

  const RAMDUMP_MAGIC: nat := 0x574C414E
  const RAMDUMP_VERSION: nat := 0

  /** One entry of the meta information; start 0 means none yet. */
  datatype Entry = Entry(kind: nat, start: nat, num: nat)

  /** `segs` are the segments listed so far; the next to read is dump[|segs|]. */
  datatype Listing = Listing(segs: seq<DumpSeg>, entries: seq<Entry>)

  const EMPTY_LISTING: Listing := Listing([], [Entry(0, 0, 0), Entry(0, 0, 0), Entry(0, 0, 0)])

  function Enter(e: Entry, kind: nat, i: nat): Entry {
    var e' := if e.start == 0 then Entry(kind, i + 1, e.num) else e;
    e'.(num := e'.num + 1)
  }

  /** One turn of the loop, the i-th.  A segment of unknown type, or an allocation
      that fails, leaves the read position where it is. */
  function Turn(dump: seq<DumpSeg>, l: Listing, i: nat, alloc: nat -> bool): Listing
    requires |l.segs| < |dump| && |l.entries| == DUMP_TYPE_MAX
  {
    var d := dump[|l.segs|];
    if d.kind >= DUMP_TYPE_MAX || !alloc(i) then l
    else Listing(l.segs + [d], l.entries[d.kind := Enter(l.entries[d.kind], d.kind, i)])
  }

  /** The listing after n turns. */
  function ListFirst(dump: seq<DumpSeg>, n: nat, alloc: nat -> bool): (l: Listing)
    requires n <= |dump|
    ensures |l.segs| <= n && |l.entries| == DUMP_TYPE_MAX
  {
    if n == 0 then EMPTY_LISTING else Turn(dump, ListFirst(dump, n - 1, alloc), n - 1, alloc)
  }

  function EntryBytes(e: Entry): (s: seq<Byte>)
    ensures |s| == 12
  {
    Elf.Le(e.kind, 4) + Elf.Le(e.start, 4) + Elf.Le(e.num, 4)
  }

  /** The meta information as it lies in memory. */
  function MetaBytes(chipset: nat, entries: seq<Entry>): (s: seq<Byte>)
    requires |entries| == DUMP_TYPE_MAX
    ensures |s| == 52
  {
    Elf.Le(RAMDUMP_MAGIC, 4) + Elf.Le(RAMDUMP_VERSION, 4) + Elf.Le(chipset, 4) + Elf.Le(DUMP_TYPE_MAX, 4)
    + EntryBytes(entries[0]) + EntryBytes(entries[1]) + EntryBytes(entries[2])
  }

  /** What a pointer of the host leads to. */
  function Load(memory: nat -> Byte, va: nat, n: nat): (s: seq<Byte>)
    ensures |s| == n
  {
    seq(n, k requires 0 <= k < n => memory(va + k))
  }

  function ToElf(d: DumpSeg, memory: nat -> Byte): Elf.Segment {
    Elf.Segment(d.address, if d.va == 0 then None else Some(Load(memory, d.va, d.size)), d.size)
  }

  function AllToElf(segs: seq<DumpSeg>, memory: nat -> Byte): (r: seq<Elf.Segment>)
    ensures |r| == |segs| && Elf.Sized(r)
  {
    seq(|segs|, i requires 0 <= i < |segs| => ToElf(segs[i], memory))
  }

  function MetaSegment(chipset: nat, entries: seq<Entry>): Elf.Segment
    requires |entries| == DUMP_TYPE_MAX
  {
    Elf.Segment(0, Some(MetaBytes(chipset, entries)), 52)
  }

  /** The segments of the file. */
  function FileSegments(dump: seq<DumpSeg>, chipset: nat, alloc: nat -> bool, metaAlloc: bool,
                        memory: nat -> Byte): (r: seq<Elf.Segment>)
    ensures Elf.Sized(r)
  {
    var l := ListFirst(dump, |dump|, alloc);
    (if metaAlloc then [MetaSegment(chipset, l.entries)] else []) + AllToElf(l.segs, memory)
  }
}

module RamdumpDriver {
  import opened Common
  import opened DumpInfoSpec
  import opened RamdumpSpec
  import Elf = ElfDumpSpec
  import ElfDumpDriver

  method ListSegments(dump: seq<DumpSeg>, alloc: nat -> bool) returns (segs: seq<DumpSeg>, entry: array<Entry>)
    ensures fresh(entry) && Listing(segs, entry[..]) == ListFirst(dump, |dump|, alloc)
  {
    entry := new Entry[DUMP_TYPE_MAX](_ => Entry(0, 0, 0));
    segs := [];
    var i := 0;
    assert entry[..] == EMPTY_LISTING.entries;
    while i < |dump|
      invariant i <= |dump| && |segs| <= i && fresh(entry) && entry.Length == DUMP_TYPE_MAX
      invariant Listing(segs, entry[..]) == ListFirst(dump, i, alloc)
    {
      var d := dump[|segs|];
      i := i + 1;
      if d.kind >= DUMP_TYPE_MAX { continue; }
      if !alloc(i - 1) { continue; }
      if entry[d.kind].start == 0 {
        entry[d.kind] := Entry(d.kind, i, entry[d.kind].num);
      }
      entry[d.kind] := entry[d.kind].(num := entry[d.kind].num + 1);
      segs := segs + [d];
    }
  }

  method DoElfRamdump(dump: seq<DumpSeg>, chipset: nat, c: Elf.Class, enabled: bool, alloc: nat -> bool,
                      metaAlloc: bool, fileAlloc: bool, descAlloc: bool, saved: bool, memory: nat -> Byte,
                      mapOk: nat -> bool, phys: nat -> Byte)
    returns (ret: int, image: Option<seq<Byte>>)
    ensures !enabled ==> ret == 0 && image == None
    ensures enabled ==>
              var segs := FileSegments(dump, chipset, alloc, metaAlloc, memory);
              && (segs == [] ==> ret == -EINVAL && image == None)
              && (segs != [] && !(fileAlloc && descAlloc) ==> ret == -ENOMEM && image == None)
              && (segs != [] && fileAlloc && descAlloc ==>
                    image == Some(Elf.Image(c, segs, mapOk, phys)) && ret == (if saved then 0 else -ETIMEDOUT))
  {
    if !enabled { return 0, None; }
    var listed, entry := ListSegments(dump, alloc);
    var segs := AllToElf(listed, memory);
    if metaAlloc { segs := [MetaSegment(chipset, entry[..])] + segs; }
    assert metaAlloc || segs == [] + segs;
    ret, image := ElfDumpDriver.QcomElfDump(segs, c, fileAlloc, descAlloc, saved, mapOk, phys);
  }
}

module RamdumpProofs {
  import opened Common
  import opened DumpInfoSpec
  import opened RamdumpSpec
  import Elf = ElfDumpSpec
  import ElfDumpProofs
  import opened DumpInfoProofs

  /** Segments of one type stand together. */
  ghost predicate Grouped(dump: seq<DumpSeg>) {
    forall i, j, k :: 0 <= i <= j <= k < |dump| && dump[i].kind == dump[k].kind ==> dump[j].kind == dump[i].kind
  }

  /** p is where the segments of a type start. */
  ghost predicate StartsAt(dump: seq<DumpSeg>, kind: nat, p: nat) {
    p < |dump| && dump[p].kind == kind && forall q :: 0 <= q < p ==> dump[q].kind != kind
  }

  /** The entry names exactly the program headers of its type; header 0 is the meta
      information's own, so the k-th segment has header k + 1. */
  ghost predicate NamesHeaders(e: Entry, segs: seq<DumpSeg>, kind: nat) {
    forall k :: 0 <= k < |segs| ==> (segs[k].kind == kind <==> e.start <= k + 1 < e.start + e.num)
  }

  /** The first n turns list a segment each. */
  ghost predicate AllListed(dump: seq<DumpSeg>, alloc: nat -> bool, n: nat)
    requires n <= |dump|
  {
    forall i :: 0 <= i < n ==> alloc(i) && dump[i].kind < DUMP_TYPE_MAX
  }

  /** What is listed is a part of the dump from its start; it is behind only after
      a turn that listed nothing. */
  ghost predicate Position(dump: seq<DumpSeg>, n: nat, l: Listing, alloc: nat -> bool, q: nat)
    requires n <= |dump| && q <= |dump|
  {
    var m := |l.segs|;
    && m <= n && l.segs == dump[..m]
    && (forall k :: 0 <= k < m ==> dump[k].kind < DUMP_TYPE_MAX)
    && (m == n ==> AllListed(dump, alloc, n))
    && (AllListed(dump, alloc, q) ==> n <= m || q <= m)
  }

  lemma {:induction false} PositionHolds(dump: seq<DumpSeg>, n: nat, alloc: nat -> bool, q: nat)
    requires n <= |dump| && q <= |dump|
    ensures Position(dump, n, ListFirst(dump, n, alloc), alloc, q)
    decreases n
  {
    if n == 0 {
    } else {
      PositionHolds(dump, n - 1, alloc, q);
    }
  }

  ghost predicate EntryInv(dump: seq<DumpSeg>, l: Listing, alloc: nat -> bool, kind: nat, p: nat)
    requires kind < |l.entries| && p < |dump|
  {
    var m, e := |l.segs|, l.entries[kind];
    && m <= |dump|
    && (m <= p ==> e.start == 0 && e.num == 0)
    && (m > p ==>
          && e.kind == kind && e.num > 0 && p + e.num <= m && e.start > p
          && (forall k :: 0 <= k < m ==> (dump[k].kind == kind <==> p <= k < p + e.num))
          && (e.start == p + 1 <==> AllListed(dump, alloc, p + 1)))
  }

  lemma {:induction false} EntryHolds(dump: seq<DumpSeg>, n: nat, alloc: nat -> bool, kind: nat, p: nat)
    requires Grouped(dump) && n <= |dump| && kind < DUMP_TYPE_MAX && StartsAt(dump, kind, p)
    ensures EntryInv(dump, ListFirst(dump, n, alloc), alloc, kind, p)
    decreases n
  {
    hide Turn, Grouped;
    if n == 0 {
      assert ListFirst(dump, 0, alloc) == EMPTY_LISTING;
    } else {
      EntryHolds(dump, n - 1, alloc, kind, p);
      EntryStep(dump, n - 1, alloc, kind, p);
    }
  }

  lemma {:induction false} EntryStep(dump: seq<DumpSeg>, n: nat, alloc: nat -> bool, kind: nat, p: nat)
    requires Grouped(dump) && n < |dump| && kind < DUMP_TYPE_MAX && StartsAt(dump, kind, p)
    requires EntryInv(dump, ListFirst(dump, n, alloc), alloc, kind, p)
    ensures EntryInv(dump, ListFirst(dump, n + 1, alloc), alloc, kind, p)
  {
    PositionHolds(dump, n, alloc, p + 1);
    TurnKeepsEntry(dump, n, ListFirst(dump, n, alloc), alloc, kind, p);
  }

  lemma {:induction false} TurnKeepsEntry(dump: seq<DumpSeg>, n: nat, l: Listing, alloc: nat -> bool, kind: nat, p: nat)
    requires Grouped(dump) && n < |dump| && kind < DUMP_TYPE_MAX && StartsAt(dump, kind, p)
    requires |l.segs| <= n && |l.entries| == DUMP_TYPE_MAX
    requires Position(dump, n, l, alloc, p + 1) && EntryInv(dump, l, alloc, kind, p)
    ensures EntryInv(dump, Turn(dump, l, n, alloc), alloc, kind, p)
  {
    var m, d := |l.segs|, dump[|l.segs|];
    if d.kind < DUMP_TYPE_MAX && alloc(n) {
      if d.kind == kind && m > p {
        assert dump[m - 1].kind == kind;
        assert m == p + l.entries[kind].num;
      }
    }
  }

  /** An entry names exactly the headers of its type, exactly if no allocation
      failed up to the first segment of the type: a failed one is skipped without
      moving the read position, but still counts as a header. */
  lemma {:induction false} EntryRightIff(dump: seq<DumpSeg>, alloc: nat -> bool, kind: nat, p: nat)
    requires Grouped(dump) && kind < DUMP_TYPE_MAX && StartsAt(dump, kind, p)
    ensures var l := ListFirst(dump, |dump|, alloc);
            NamesHeaders(l.entries[kind], l.segs, kind) <==> (p < |l.segs| ==> forall i :: 0 <= i <= p ==> alloc(i))
  {
    var n := |dump|;
    var l := ListFirst(dump, n, alloc);
    EntryHolds(dump, n, alloc, kind, p);
    PositionHolds(dump, n, alloc, p + 1);
    var m, e := |l.segs|, l.entries[kind];
    if p < m {
      assert AllListed(dump, alloc, p + 1) <==> forall i :: 0 <= i <= p ==> alloc(i);
      assert l.segs[p].kind == kind;
      if e.start > p + 1 { assert !(e.start <= p + 1); }
    }
  }

  // ------------------------------------------- from the sources to the file

  lemma {:induction false} KindsOf(s: Sources, k: nat)
    requires k < |Items(s)|
    ensures Segs(Items(s))[k].kind == KindAt(s, k)
    ensures |Items(s)| == |s.fbc| + |s.rddm| + |SourcesOf(s, FW_REMOTE_HEAP)|
  {
    ItemCount(s);
    ItemNamed(s, k);
  }

  /** Collection groups the segments by type. */
  lemma {:induction false} CollectionGroups(s: Sources)
    ensures Grouped(Segs(Items(s)))
  {
    var dump := Segs(Items(s));
    forall i, j, k | 0 <= i <= j <= k < |dump| && dump[i].kind == dump[k].kind ensures dump[j].kind == dump[i].kind {
      KindsOf(s, i);
      KindsOf(s, j);
      KindsOf(s, k);
    }
  }

  lemma {:induction false} CollectionStarts(s: Sources, kind: nat)
    requires kind < DUMP_TYPE_MAX && |SourcesOf(s, kind)| > 0
    ensures StartsAt(Segs(Items(s)), kind, StartOf(s, kind))
  {
    var dump, p := Segs(Items(s)), StartOf(s, kind);
    ItemCount(s);
    KindsOf(s, p);
    forall q | 0 <= q < p ensures dump[q].kind != kind { KindsOf(s, q); }
  }

  /** With no allocation failure every segment is listed, and the entry of a type
      starts at its first header and counts its sources. */
  lemma {:induction false} EntriesOf(s: Sources, alloc: nat -> bool, kind: nat)
    requires (forall i :: 0 <= i < |Items(s)| ==> alloc(i)) && kind < DUMP_TYPE_MAX && |SourcesOf(s, kind)| > 0
    ensures var l := ListFirst(Segs(Items(s)), |Items(s)|, alloc);
            && l.segs == Segs(Items(s))
            && l.entries[kind] == Entry(kind, StartOf(s, kind) + 1, |SourcesOf(s, kind)|)
  {
    var dump, p, n := Segs(Items(s)), StartOf(s, kind), |Items(s)|;
    CollectionGroups(s);
    CollectionStarts(s, kind);
    AllListedOf(s, alloc);
    EntryHolds(dump, n, alloc, kind, p);
    PositionHolds(dump, n, alloc, n);
    var l := ListFirst(dump, n, alloc);
    assert l.segs == dump;
    CountIs(s, kind, l.entries[kind].num);
  }

  /** The entry of a type without segments stays empty. */
  lemma {:induction false} EntryOfNone(dump: seq<DumpSeg>, n: nat, alloc: nat -> bool, kind: nat)
    requires n <= |dump| && kind < DUMP_TYPE_MAX && forall i :: 0 <= i < |dump| ==> dump[i].kind != kind
    ensures ListFirst(dump, n, alloc).entries[kind] == Entry(0, 0, 0)
    decreases n
  {
    if n > 0 { EntryOfNone(dump, n - 1, alloc, kind); }
  }

  lemma {:induction false} AllListedOf(s: Sources, alloc: nat -> bool)
    requires forall i :: 0 <= i < |Items(s)| ==> alloc(i)
    ensures AllListed(Segs(Items(s)), alloc, |Items(s)|)
  {
    var dump := Segs(Items(s));
    forall i | 0 <= i < |dump| ensures dump[i].kind < DUMP_TYPE_MAX { KindsOf(s, i); }
  }

  lemma {:induction false} CountIs(s: Sources, kind: nat, num: nat)
    requires kind < DUMP_TYPE_MAX && |SourcesOf(s, kind)| > 0 && StartOf(s, kind) + num <= |Items(s)|
    requires var dump, p := Segs(Items(s)), StartOf(s, kind);
             forall k :: 0 <= k < |dump| ==> (dump[k].kind == kind <==> p <= k < p + num)
    ensures num == |SourcesOf(s, kind)|
  {
    var dump, p, n := Segs(Items(s)), StartOf(s, kind), |SourcesOf(s, kind)|;
    ItemCount(s);
    KindsOf(s, p + n - 1);
    assert dump[p + n - 1].kind == kind;
    if p + n < |dump| {
      KindsOf(s, p + n);
      assert dump[p + n].kind != kind;
    }
  }

  /** What a tool reads from the meta information. */
  function ReadStart(meta: seq<Byte>, kind: nat): nat { ElfDumpProofs.Read(meta, 16 + 12 * kind + 4, 4) }

  function ReadKind(meta: seq<Byte>, kind: nat): nat { ElfDumpProofs.Read(meta, 16 + 12 * kind, 4) }

  function ReadNum(meta: seq<Byte>, kind: nat): nat { ElfDumpProofs.Read(meta, 16 + 12 * kind + 8, 4) }

  /** What a tool finds for the no-th segment of a kind, from the file alone. */
  function FindInFile(img: seq<Byte>, c: Elf.Class, kind: nat, no: nat): Option<seq<Byte>> {
    match ElfDumpProofs.ReadBytes(img, ElfDumpProofs.ReadPhdr(img, c, 0))
    case None => None
    case Some(meta) =>
      if no < ReadNum(meta, kind) then
        ElfDumpProofs.ReadBytes(img, ElfDumpProofs.ReadPhdr(img, c, ReadStart(meta, kind) + no))
      else None
  }

  lemma {:induction false} EntryFields(e: Entry)
    requires e.start < U32 && e.num < U32
    ensures ElfDumpProofs.Read(EntryBytes(e), 4, 4) == e.start && ElfDumpProofs.Read(EntryBytes(e), 8, 4) == e.num
    ensures e.kind < U32 ==> ElfDumpProofs.Read(EntryBytes(e), 0, 4) == e.kind
  {
    var s := EntryBytes(e);
    assert s[0..4] == Elf.Le(e.kind, 4) && s[4..8] == Elf.Le(e.start, 4) && s[8..12] == Elf.Le(e.num, 4);
    if e.kind < U32 { ElfDumpProofs.Powers(); ElfDumpProofs.UnLe(e.kind, 4); }
    ElfDumpProofs.Powers();
    ElfDumpProofs.UnLe(e.start, 4);
    ElfDumpProofs.UnLe(e.num, 4);
  }

  lemma {:induction false} MetaEntry(chipset: nat, entries: seq<Entry>, kind: nat)
    requires |entries| == DUMP_TYPE_MAX && kind < DUMP_TYPE_MAX
    ensures MetaBytes(chipset, entries)[16 + 12 * kind..28 + 12 * kind] == EntryBytes(entries[kind])
  {
    hide EntryBytes, Elf.Le;
    var head := Elf.Le(RAMDUMP_MAGIC, 4) + Elf.Le(RAMDUMP_VERSION, 4) + Elf.Le(chipset, 4) + Elf.Le(DUMP_TYPE_MAX, 4);
    MetaParts(head, EntryBytes(entries[0]), EntryBytes(entries[1]), EntryBytes(entries[2]));
  }

  lemma {:induction false} MetaParts(head: seq<Byte>, a: seq<Byte>, b: seq<Byte>, c: seq<Byte>)
    requires |head| == 16 && |a| == |b| == |c| == 12
    ensures var s := head + a + b + c; s[16..28] == a && s[28..40] == b && s[40..52] == c
  {
  }

  lemma {:induction false} MetaFields(chipset: nat, entries: seq<Entry>, kind: nat)
    requires |entries| == DUMP_TYPE_MAX && kind < DUMP_TYPE_MAX
    requires entries[kind].start < U32 && entries[kind].num < U32
    ensures ReadStart(MetaBytes(chipset, entries), kind) == entries[kind].start
    ensures ReadNum(MetaBytes(chipset, entries), kind) == entries[kind].num
    ensures entries[kind].kind < U32 ==> ReadKind(MetaBytes(chipset, entries), kind) == entries[kind].kind
  {
    MetaEntry(chipset, entries, kind);
    FieldsOfEntry(MetaBytes(chipset, entries), EntryBytes(entries[kind]), 16 + 12 * kind);
    EntryFields(entries[kind]);
  }

  lemma {:induction false} FieldsOfEntry(s: seq<Byte>, e: seq<Byte>, at: nat)
    requires |e| == 12 && at + 12 <= |s| && s[at..at + 12] == e
    ensures ElfDumpProofs.Read(s, at, 4) == ElfDumpProofs.Read(e, 0, 4)
    ensures ElfDumpProofs.Read(s, at + 4, 4) == ElfDumpProofs.Read(e, 4, 4)
    ensures ElfDumpProofs.Read(s, at + 8, 4) == ElfDumpProofs.Read(e, 8, 4)
  {
    ElfDumpProofs.ReadInside(s, e, at, 0, 4);
    ElfDumpProofs.ReadInside(s, e, at, 4, 4);
    ElfDumpProofs.ReadInside(s, e, at, 8, 4);
  }

  /** The bytes of one of the file's segments are read back through its header. */
  lemma {:induction false} SegmentFound(c: Elf.Class, segs: seq<Elf.Segment>, i: nat, mapOk: nat -> bool,
                                        phys: nat -> Byte)
    requires Elf.Sized(segs) && i < |segs| && |Elf.Image(c, segs, mapOk, phys)| < ElfDumpProofs.Limit(c)
    ensures var img := Elf.Image(c, segs, mapOk, phys);
            ElfDumpProofs.ReadBytes(img, ElfDumpProofs.ReadPhdr(img, c, i))
                 == Some(Elf.Content(segs[i], mapOk, phys))
  {
    hide Elf.Image, Elf.Content, ElfDumpProofs.HasBytes, ElfDumpProofs.ReadPhdr, ElfDumpProofs.FitsClass;
    ElfDumpProofs.SmallFilesFit(c, segs, i, mapOk, phys);
    ElfDumpProofs.SegmentReadsBackIff(c, segs, i, mapOk, phys);
    ElfDumpProofs.ContentIs(segs[i], mapOk, phys);
  }

  lemma {:induction false} FileSegmentsOf(s: Sources, chipset: nat, alloc: nat -> bool, memory: nat -> Byte,
                                          kind: nat, no: nat)
    requires forall i :: 0 <= i < |Items(s)| ==> alloc(i)
    requires kind < DUMP_TYPE_MAX && no < |SourcesOf(s, kind)|
    ensures var segs, k := FileSegments(Segs(Items(s)), chipset, alloc, true, memory), StartOf(s, kind) + no;
            var entries := ListFirst(Segs(Items(s)), |Items(s)|, alloc).entries;
            && |segs| == |Items(s)| + 1 && k < |Items(s)|
            && segs[0] == MetaSegment(chipset, entries) && segs[k + 1] == ToElf(Items(s)[k].seg, memory)
            && entries[kind] == Entry(kind, StartOf(s, kind) + 1, |SourcesOf(s, kind)|)
  {
    EntriesOf(s, alloc, kind);
    ItemCount(s);
  }

  function SizesOf(dump: seq<DumpSeg>, n: nat): nat
    requires n <= |dump|
  {
    if n == 0 then 0 else SizesOf(dump, n - 1) + dump[n - 1].size
  }

  /** The size of the file for a dump that is listed completely, with or without the meta
      information. */
  function FileSize(c: Elf.Class, dump: seq<DumpSeg>, meta: bool): nat {
    Elf.EhdrSize(c) + Elf.PhdrsSize(c, if meta then |dump| + 1 else |dump|) + SizesOf(dump, |dump|) +
    if meta then 52 else 0
  }

  lemma {:induction false} SizesAgree(front: seq<Elf.Segment>, dump: seq<DumpSeg>, memory: nat -> Byte, n: nat)
    requires n <= |dump|
    ensures Elf.SizeSum(front + AllToElf(dump, memory), |front| + n) == Elf.SizeSum(front, |front|) + SizesOf(dump, n)
  {
    var segs := front + AllToElf(dump, memory);
    if n == 0 {
      FrontSize(front, AllToElf(dump, memory), |front|);
    } else {
      SizesAgree(front, dump, memory, n - 1);
      assert segs[|front| + n - 1] == ToElf(dump[n - 1], memory);
    }
  }

  lemma {:induction false} FrontSize(front: seq<Elf.Segment>, back: seq<Elf.Segment>, n: nat)
    requires n <= |front|
    ensures Elf.SizeSum(front + back, n) == Elf.SizeSum(front, n)
  {
    if n > 0 { FrontSize(front, back, n - 1); }
  }

  lemma {:induction false} FileSizeIs(c: Elf.Class, front: seq<Elf.Segment>, dump: seq<DumpSeg>, memory: nat -> Byte,
                                      mapOk: nat -> bool, phys: nat -> Byte, meta: bool)
    requires Elf.Sized(front + AllToElf(dump, memory))
    requires if meta then |front| == 1 && front[0].size == 52 else front == []
    ensures |Elf.Image(c, front + AllToElf(dump, memory), mapOk, phys)| == FileSize(c, dump, meta)
  {
    var segs := front + AllToElf(dump, memory);
    SizesAgree(front, dump, memory, |dump|);
    assert meta ==> Elf.SizeSum(front, 1) == Elf.SizeSum(front, 0) + 52;
    hide Elf.Contents, Elf.Phdrs, Elf.EncodeEhdr;
  }

  lemma {:induction false} SourcesSize(s: Sources, c: Elf.Class, chipset: nat, alloc: nat -> bool, meta: bool,
                                       memory: nat -> Byte, mapOk: nat -> bool, phys: nat -> Byte, kind: nat)
    requires (forall i :: 0 <= i < |Items(s)| ==> alloc(i)) && kind < DUMP_TYPE_MAX && |SourcesOf(s, kind)| > 0
    ensures |Elf.Image(c, FileSegments(Segs(Items(s)), chipset, alloc, meta, memory), mapOk, phys)|
         == FileSize(c, Segs(Items(s)), meta)
  {
    EntriesOf(s, alloc, kind);
    var dump := Segs(Items(s));
    var front := if meta then [MetaSegment(chipset, ListFirst(dump, |dump|, alloc).entries)] else [];
    FileSizeIs(c, front, dump, memory, mapOk, phys, meta);
    hide Elf.Image, FileSize, Items, SourcesOf, MetaSegment;
  }

  /** The bytes of a source: what its pointer leads to, or without one what its physical
      address does, or 0xff where that cannot be mapped. */
  predicate HoldsSource(bytes: seq<Byte>, src: Source, memory: nat -> Byte, mapOk: nat -> bool, phys: nat -> Byte) {
    && |bytes| == src.size
    && forall k: nat :: k < |bytes| ==>
         bytes[k] == if src.va != 0 then memory(src.va + k)
                     else if mapOk(src.address) then phys(src.address + k) else 0xff
  }

  lemma {:induction false} SegmentHolds(seg: DumpSeg, src: Source, kind: nat, memory: nat -> Byte, mapOk: nat -> bool,
                                        phys: nat -> Byte)
    requires StandsFor(seg, src, kind)
    ensures HoldsSource(Elf.Content(ToElf(seg, memory), mapOk, phys), src, memory, mapOk, phys)
  {
  }

  /** From the file alone, a tool finds the bytes of each source: the no-th of its
      kind as firmware and driver set them up, if the file is shorter than its class
      addresses. */
  lemma {:induction false} SourcesFound(s: Sources, c: Elf.Class, chipset: nat, alloc: nat -> bool,
                                        memory: nat -> Byte, mapOk: nat -> bool, phys: nat -> Byte, kind: nat,
                                        no: nat)
    requires forall i :: 0 <= i < |Items(s)| ==> alloc(i)
    requires kind < DUMP_TYPE_MAX && no < |SourcesOf(s, kind)|
    requires |Items(s)| < 0xFFFF_FFFF && FileSize(c, Segs(Items(s)), true) < ElfDumpProofs.Limit(c)
    ensures var img := Elf.Image(c, FileSegments(Segs(Items(s)), chipset, alloc, true, memory), mapOk, phys);
            var found := FindInFile(img, c, kind, no);
            found.Some? && HoldsSource(found.value, SourcesOf(s, kind)[no], memory, mapOk, phys)
  {
    hide Items, SourcesOf, HoldsSource, StandsFor, ToElf, FileSize, MetaBytes, ReadStart, ReadNum;
    hide FileSegments, ListFirst, Elf.Image, ElfDumpProofs.ReadBytes, ElfDumpProofs.ReadPhdr;
    ItemCount(s);
    var segs := FileSegments(Segs(Items(s)), chipset, alloc, true, memory);
    var entries, k := ListFirst(Segs(Items(s)), |Items(s)|, alloc).entries, StartOf(s, kind) + no;
    assert Elf.Content(MetaSegment(chipset, entries), mapOk, phys) == MetaBytes(chipset, entries);
    hide Elf.Content, MetaSegment;
    SourcesSize(s, c, chipset, alloc, true, memory, mapOk, phys, kind);
    FileSegmentsOf(s, chipset, alloc, memory, kind, no);
    SegmentFound(c, segs, 0, mapOk, phys);
    SegmentFound(c, segs, k + 1, mapOk, phys);
    MetaFields(chipset, entries, kind);
    SegmentsStandFor(s, kind, no);
    SegmentHolds(Items(s)[k].seg, SourcesOf(s, kind)[no], kind, memory, mapOk, phys);
  }

  lemma {:induction false} HeadFields(a: nat, b: nat, c: nat, d: nat, rest: seq<Byte>)
    requires a < U32 && b < U32 && c < U32 && d < U32
    ensures var s := Elf.Le(a, 4) + Elf.Le(b, 4) + Elf.Le(c, 4) + Elf.Le(d, 4) + rest;
            && ElfDumpProofs.Read(s, 0, 4) == a && ElfDumpProofs.Read(s, 4, 4) == b
            && ElfDumpProofs.Read(s, 8, 4) == c && ElfDumpProofs.Read(s, 12, 4) == d
  {
    hide Elf.Le, ElfDumpProofs.Un;
    var s := Elf.Le(a, 4) + Elf.Le(b, 4) + Elf.Le(c, 4) + Elf.Le(d, 4) + rest;
    assert s[0..4] == Elf.Le(a, 4) && s[4..8] == Elf.Le(b, 4) && s[8..12] == Elf.Le(c, 4) && s[12..16] == Elf.Le(d, 4);
    ElfDumpProofs.Powers();
    ElfDumpProofs.UnLe(a, 4);
    ElfDumpProofs.UnLe(b, 4);
    ElfDumpProofs.UnLe(c, 4);
    ElfDumpProofs.UnLe(d, 4);
  }

  lemma {:induction false} MetaHead(chipset: nat, entries: seq<Entry>)
    requires chipset < U32 && |entries| == DUMP_TYPE_MAX
    ensures var meta := MetaBytes(chipset, entries);
            && ElfDumpProofs.Read(meta, 0, 4) == 0x574C414E && ElfDumpProofs.Read(meta, 4, 4) == 0
            && ElfDumpProofs.Read(meta, 8, 4) == chipset && ElfDumpProofs.Read(meta, 12, 4) == 3
  {
    hide Elf.Le, EntryBytes, ElfDumpProofs.Read;
    var rest := EntryBytes(entries[0]) + EntryBytes(entries[1]) + EntryBytes(entries[2]);
    HeadFields(RAMDUMP_MAGIC, RAMDUMP_VERSION, chipset, DUMP_TYPE_MAX, rest);
    assert MetaBytes(chipset, entries) == Elf.Le(RAMDUMP_MAGIC, 4) + Elf.Le(RAMDUMP_VERSION, 4) + Elf.Le(chipset, 4) +
                                          Elf.Le(DUMP_TYPE_MAX, 4) + rest;
  }

  /** The file's first segment is the meta information: its magic and version, the
      chipset, three entries; the entry of a type that has sources names that type, the
      header its segments start at and their number. */
  lemma {:induction false} MetaFound(s: Sources, c: Elf.Class, chipset: nat, alloc: nat -> bool, memory: nat -> Byte,
                                     mapOk: nat -> bool, phys: nat -> Byte, kind: nat)
    requires forall i :: 0 <= i < |Items(s)| ==> alloc(i)
    requires kind < DUMP_TYPE_MAX && SourcesOf(s, kind) != [] && chipset < U32
    requires |Items(s)| < 0xFFFF_FFFF && FileSize(c, Segs(Items(s)), true) < ElfDumpProofs.Limit(c)
    ensures var img := Elf.Image(c, FileSegments(Segs(Items(s)), chipset, alloc, true, memory), mapOk, phys);
            var found := ElfDumpProofs.ReadBytes(img, ElfDumpProofs.ReadPhdr(img, c, 0));
            && ElfDumpProofs.ReadPhdr(img, c, 0).paddr == 0 && found.Some? && |found.value| == 52
            && ElfDumpProofs.Read(found.value, 0, 4) == 0x574C414E && ElfDumpProofs.Read(found.value, 4, 4) == 0
            && ElfDumpProofs.Read(found.value, 8, 4) == chipset && ElfDumpProofs.Read(found.value, 12, 4) == 3
            && ReadKind(found.value, kind) == kind && ReadStart(found.value, kind) == StartOf(s, kind) + 1
            && ReadNum(found.value, kind) == |SourcesOf(s, kind)|
  {
    hide Items, SourcesOf, FileSize, MetaBytes, ListFirst, FileSegments, ReadKind, ReadStart, ReadNum;
    hide Elf.Image, ElfDumpProofs.Read, ElfDumpProofs.ReadBytes, ElfDumpProofs.ReadPhdr;
    ItemCount(s);
    var segs := FileSegments(Segs(Items(s)), chipset, alloc, true, memory);
    var entries := ListFirst(Segs(Items(s)), |Items(s)|, alloc).entries;
    SourcesSize(s, c, chipset, alloc, true, memory, mapOk, phys, kind);
    FileSegmentsOf(s, chipset, alloc, memory, kind, 0);
    SegmentFound(c, segs, 0, mapOk, phys);
    assert 0 < ElfDumpProofs.Limit(c);
    ElfDumpProofs.AddressReadsBackIff(c, segs, 0, mapOk, phys);
    MetaHead(chipset, entries);
    MetaFields(chipset, entries, kind);
  }

  /** If the meta information cannot be allocated, the file holds the sources alone, each
      at the header of its place in the collection. */
  lemma {:induction false} FoundWithoutMeta(s: Sources, c: Elf.Class, chipset: nat, alloc: nat -> bool,
                                            memory: nat -> Byte, mapOk: nat -> bool, phys: nat -> Byte, kind: nat,
                                            no: nat)
    requires forall i :: 0 <= i < |Items(s)| ==> alloc(i)
    requires kind < DUMP_TYPE_MAX && no < |SourcesOf(s, kind)|
    requires FileSize(c, Segs(Items(s)), false) < ElfDumpProofs.Limit(c)
    ensures var img := Elf.Image(c, FileSegments(Segs(Items(s)), chipset, alloc, false, memory), mapOk, phys);
            var found := ElfDumpProofs.ReadBytes(img, ElfDumpProofs.ReadPhdr(img, c, StartOf(s, kind) + no));
            found.Some? && HoldsSource(found.value, SourcesOf(s, kind)[no], memory, mapOk, phys)
  {
    hide Items, SourcesOf, HoldsSource, StandsFor, ToElf, ListFirst, MetaSegment;
    hide Elf.Image, Elf.Content, ElfDumpProofs.ReadBytes, ElfDumpProofs.ReadPhdr;
    var segs, k := FileSegments(Segs(Items(s)), chipset, alloc, false, memory), StartOf(s, kind) + no;
    EntriesOf(s, alloc, kind);
    SourcesSize(s, c, chipset, alloc, false, memory, mapOk, phys, kind);
    SegmentsStandFor(s, kind, no);
    hide FileSize;
    assert segs == AllToElf(Segs(Items(s)), memory);
    SegmentFound(c, segs, k, mapOk, phys);
    SegmentHolds(Items(s)[k].seg, SourcesOf(s, kind)[no], kind, memory, mapOk, phys);
  }
}
