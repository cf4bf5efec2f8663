/**
 The ELF core writer for crash dumps: one buffer holding the ELF header, one
 program header per segment and the segments' bytes.  Field layouts are those of
 the System V gABI, chapter 4 "ELF Header" and chapter 5 "Program Header",
 little-endian.
 */
module ElfDumpSpec {
  import opened Common

  const ET_CORE: nat := 4
  const EM_NONE: nat := 0
  const EV_CURRENT: nat := 1
  const PT_LOAD: nat := 1
  const PF_RWX: nat := 7

  datatype Class = Elf32 | Elf64

  /** A segment to dump.  `va` holds the bytes in memory, None for a null pointer:
      then the physical address is mapped. */
  datatype Segment = Segment(da: nat, va: Option<seq<Byte>>, size: nat)

  /** A pointer is to as many bytes as the segment is long. */
  predicate Sized(segs: seq<Segment>) {
    forall i :: 0 <= i < |segs| ==> segs[i].va.Some? ==> |segs[i].va.value| == segs[i].size
  }

  function Pow256(n: nat): (p: nat)
    ensures p >= 1
  {
    if n == 0 then 1 else 256 * Pow256(n - 1)
  }

  /** The n low bytes of a value, lowest first. */
  function Le(v: nat, n: nat): (s: seq<Byte>)
    ensures |s| == n
  {
    if n == 0 then [] else [v % 256] + Le(v / 256, n - 1)
  }

  function EhdrSize(c: Class): nat { if c.Elf32? then 52 else 64 }
  function PhdrSize(c: Class): nat { if c.Elf32? then 32 else 56 }
  function WordSize(c: Class): nat { if c.Elf32? then 4 else 8 }
  function PhdrsSize(c: Class, n: nat): nat { if c.Elf32? then 32 * n else 56 * n }

  /** A field of a header: its value, and its width in bytes. */
  datatype Field = Field(value: nat, width: nat)

  /** The width of the first k fields. */
  function Width(fs: seq<Field>, k: nat): nat
    requires k <= |fs|
  {
    if k == 0 then 0 else Width(fs, k - 1) + fs[k - 1].width
  }

  /** The first k fields as they lie in memory. */
  function EncodeFirst(fs: seq<Field>, k: nat): (s: seq<Byte>)
    requires k <= |fs|
    ensures |s| == Width(fs, k)
  {
    if k == 0 then [] else EncodeFirst(fs, k - 1) + Le(fs[k - 1].value, fs[k - 1].width)
  }

  datatype Ehdr = Ehdr(kind: nat, machine: nat, version: nat, phoff: nat, ehsize: nat, phentsize: nat, phnum: nat)

  datatype Phdr = Phdr(kind: nat, offset: nat, vaddr: nat, paddr: nat, filesz: nat, memsz: nat, flags: nat, align: nat)

  /** e_ident (magic, class, data encoding, version, ABI, padding), then e_type to
      e_shstrndx. */
  function EhdrFields(c: Class, h: Ehdr): (fs: seq<Field>)
    ensures |fs| == 19
  {
    var w := WordSize(c);
    [Field(0x464C457F, 4), Field(if c.Elf32? then 1 else 2, 1), Field(1, 1), Field(1, 1), Field(0, 1), Field(0, 8),
     Field(h.kind, 2), Field(h.machine, 2), Field(h.version, 4), Field(0, w), Field(h.phoff, w), Field(0, w),
     Field(0, 4), Field(h.ehsize, 2), Field(h.phentsize, 2), Field(h.phnum, 2), Field(0, 2), Field(0, 2), Field(0, 2)]
  }

  function PhdrFields(c: Class, p: Phdr): (fs: seq<Field>)
    ensures |fs| == 8
  {
    match c
    case Elf32 => [Field(p.kind, 4), Field(p.offset, 4), Field(p.vaddr, 4), Field(p.paddr, 4),
                   Field(p.filesz, 4), Field(p.memsz, 4), Field(p.flags, 4), Field(p.align, 4)]
    case Elf64 => [Field(p.kind, 4), Field(p.flags, 4), Field(p.offset, 8), Field(p.vaddr, 8), Field(p.paddr, 8),
                   Field(p.filesz, 8), Field(p.memsz, 8), Field(p.align, 8)]
  }

  /** The width of an ELF header. */
  lemma {:induction false} EhdrWidth(c: Class, h: Ehdr)
    ensures Width(EhdrFields(c, h), 19) == EhdrSize(c)
  {
    var fs, w := EhdrFields(c, h), WordSize(c);
    assert Width(fs, 1) == 4;
    assert Width(fs, 2) == 5;
    assert Width(fs, 3) == 6;
    assert Width(fs, 4) == 7;
    assert Width(fs, 6) == 16;
    assert Width(fs, 8) == 20;
    assert Width(fs, 10) == 24 + w;
    assert Width(fs, 12) == 24 + 3 * w;
    assert Width(fs, 14) == 30 + 3 * w;
    assert Width(fs, 16) == 34 + 3 * w;
    assert Width(fs, 18) == 38 + 3 * w;
  }

  lemma {:induction false} PhdrWidths32(p: Phdr)
    ensures var fs := PhdrFields(Elf32, p); forall k :: 0 <= k <= 8 ==> Width(fs, k) == 4 * k
  {
    var fs := PhdrFields(Elf32, p);
    assert Width(fs, 0) == 0 && Width(fs, 1) == 4 && Width(fs, 2) == 8;
    assert Width(fs, 3) == 12 && Width(fs, 4) == 16;
    assert Width(fs, 5) == 20 && Width(fs, 6) == 24;
    assert Width(fs, 7) == 28 && Width(fs, 8) == 32;
  }

  lemma {:induction false} PhdrWidths64(p: Phdr)
    ensures var fs := PhdrFields(Elf64, p);
            Width(fs, 0) == 0 && Width(fs, 1) == 4 && forall k :: 2 <= k <= 8 ==> Width(fs, k) == 8 * (k - 1)
  {
    var fs := PhdrFields(Elf64, p);
    assert Width(fs, 0) == 0 && Width(fs, 1) == 4 && Width(fs, 2) == 8;
    assert Width(fs, 3) == 16 && Width(fs, 4) == 24;
    assert Width(fs, 5) == 32 && Width(fs, 6) == 40;
    assert Width(fs, 7) == 48 && Width(fs, 8) == 56;
  }

  function EncodeEhdr(c: Class, h: Ehdr): (s: seq<Byte>)
    ensures |s| == EhdrSize(c)
  {
    EhdrWidth(c, h);
    EncodeFirst(EhdrFields(c, h), 19)
  }

  function EncodePhdr(c: Class, p: Phdr): (s: seq<Byte>)
    ensures |s| == PhdrSize(c)
  {
    PhdrWidths32(p);
    PhdrWidths64(p);
    EncodeFirst(PhdrFields(c, p), 8)
  }

  function SizeSum(segs: seq<Segment>, i: nat): nat
    requires i <= |segs|
  {
    if i == 0 then 0 else SizeSum(segs, i - 1) + segs[i - 1].size
  }

  /** Where the i-th segment's bytes start in the file. */
  function DataOffset(c: Class, segs: seq<Segment>, i: nat): nat
    requires i <= |segs|
  {
    EhdrSize(c) + PhdrsSize(c, |segs|) + SizeSum(segs, i)
  }

  function EhdrOf(c: Class, n: nat): Ehdr {
    Ehdr(ET_CORE, EM_NONE, EV_CURRENT, EhdrSize(c), EhdrSize(c), PhdrSize(c), n)
  }

  function PhdrOf(c: Class, segs: seq<Segment>, i: nat): Phdr
    requires i < |segs|
  {
    var s := segs[i];
    Phdr(PT_LOAD, DataOffset(c, segs, i), s.da, s.da, s.size, s.size, PF_RWX, 0)
  }

  function Phdrs(c: Class, segs: seq<Segment>, i: nat): (s: seq<Byte>)
    requires i <= |segs|
    ensures |s| == PhdrsSize(c, i)
  {
    if i == 0 then [] else Phdrs(c, segs, i - 1) + EncodePhdr(c, PhdrOf(c, segs, i - 1))
  }

  /** An ELF header and the first i program headers. */
  function Headers(ehdr: seq<Byte>, c: Class, segs: seq<Segment>, i: nat): (s: seq<Byte>)
    requires i <= |segs|
    ensures |s| == |ehdr| + PhdrsSize(c, i)
  {
    ehdr + Phdrs(c, segs, i)
  }

  /** What is copied for a segment: memory, device memory that could be mapped, or
      0xff for device memory that could not. */
  function Content(s: Segment, mapOk: nat -> bool, phys: nat -> Byte): seq<Byte> {
    match s.va
    case Some(bytes) => bytes
    case None => if mapOk(s.da) then seq(s.size, k requires 0 <= k < s.size => phys(s.da + k))
                 else seq(s.size, _ => 0xff)
  }

  function Contents(segs: seq<Segment>, i: nat, mapOk: nat -> bool, phys: nat -> Byte): (s: seq<Byte>)
    requires i <= |segs| && Sized(segs)
    ensures |s| == SizeSum(segs, i)
  {
    if i == 0 then [] else Contents(segs, i - 1, mapOk, phys) + Content(segs[i - 1], mapOk, phys)
  }

  function Image(c: Class, segs: seq<Segment>, mapOk: nat -> bool, phys: nat -> Byte): seq<Byte>
    requires Sized(segs)
  {
    Headers(EncodeEhdr(c, EhdrOf(c, |segs|)), c, segs, |segs|) + Contents(segs, |segs|, mapOk, phys)
  }
}

module ElfDumpDriver {
  import opened Common
  import opened ElfDumpSpec

  lemma {:induction false} SumGrows(segs: seq<Segment>, i: nat, j: nat)
    requires i <= j <= |segs|
    ensures SizeSum(segs, i) <= SizeSum(segs, j)
  {
    if i < j { SumGrows(segs, i, j - 1); }
  }

  /** Where the writer stands: `head` fills the file from its start, `body` from d0. */
  predicate Filled(data: seq<Byte>, head: seq<Byte>, d0: nat, body: seq<Byte>) {
    && |head| <= d0 && d0 + |body| <= |data|
    && data[..|head|] == head && data[d0..d0 + |body|] == body
  }

  /** A header put after `head` leaves the body. */
  lemma {:induction false} HeadNext(d: seq<Byte>, d': seq<Byte>, head: seq<Byte>, d0: nat, body: seq<Byte>,
                                    h: seq<Byte>)
    requires Filled(d, head, d0, body) && |head| + |h| <= d0 && |d'| == |d|
    requires d'[..|head|] == d[..|head|] && d'[|head|..|head| + |h|] == h && d'[|head| + |h|..] == d[|head| + |h|..]
    ensures Filled(d', head + h, d0, body)
  {
    var n := |head| + |h|;
    assert d'[..n] == d'[..|head|] + d'[|head|..n];
    assert d'[d0..d0 + |body|] == d'[n..][d0 - n..d0 - n + |body|];
    assert d[d0..d0 + |body|] == d[n..][d0 - n..d0 - n + |body|];
  }

  /** Bytes put after `body` leave the headers. */
  lemma {:induction false} BodyNext(d: seq<Byte>, d': seq<Byte>, head: seq<Byte>, d0: nat, body: seq<Byte>,
                                    b: seq<Byte>)
    requires Filled(d, head, d0, body) && d0 + |body| + |b| <= |d'| == |d|
    requires var at := d0 + |body|; d'[..at] == d[..at] && d'[at..at + |b|] == b
    ensures Filled(d', head, d0, body + b)
  {
    var at := d0 + |body|;
    assert d'[..|head|] == d'[..at][..|head|] && d[..|head|] == d[..at][..|head|];
    assert d'[d0..at + |b|] == d'[d0..at] + d'[at..at + |b|];
    assert d'[d0..at] == d'[..at][d0..] && d[d0..at] == d[..at][d0..];
  }

  method CopySegment(data: array<Byte>, offset: nat, seg: Segment, mapOk: nat -> bool, phys: nat -> Byte)
    requires offset + seg.size <= data.Length
    requires seg.va.Some? ==> |seg.va.value| == seg.size
    modifies data
    ensures data[..offset] == old(data[..offset])
    ensures data[offset..offset + seg.size] == Content(seg, mapOk, phys)
  {
    if seg.va.Some? {
      Copy(data, offset, seg.va.value);
    } else if mapOk(seg.da) {
      Copy(data, offset, seq(seg.size, k requires 0 <= k < seg.size => phys(seg.da + k)));
    } else {
      Copy(data, offset, seq(seg.size, _ => 0xff));
    }
  }

  /** A program header at phdr. */
  method WriteHeader(data: array<Byte>, phdr: nat, h: seq<Byte>, ghost head: seq<Byte>, ghost d0: nat,
                     ghost body: seq<Byte>)
    requires Filled(data[..], head, d0, body) && phdr == |head| && phdr + |h| <= d0
    modifies data
    ensures Filled(data[..], head + h, d0, body)
  {
    ghost var d := data[..];
    Copy(data, phdr, h);
    HeadNext(d, data[..], head, d0, body, h);
  }

  /** A segment's bytes at offset. */
  method WriteBody(data: array<Byte>, offset: nat, seg: Segment, mapOk: nat -> bool, phys: nat -> Byte,
                   ghost head: seq<Byte>, ghost d0: nat, ghost body: seq<Byte>)
    requires Filled(data[..], head, d0, body) && offset == d0 + |body| && offset + seg.size <= data.Length
    requires seg.va.Some? ==> |seg.va.value| == seg.size
    modifies data
    ensures Filled(data[..], head, d0, body + Content(seg, mapOk, phys))
  {
    ghost var d := data[..];
    CopySegment(data, offset, seg, mapOk, phys);
    BodyNext(d, data[..], head, d0, body, Content(seg, mapOk, phys));
  }

  /** One turn of the loop: program header p at phdr, the segment's bytes at offset. */
  method WriteSegment(data: array<Byte>, phdr: nat, p: Phdr, offset: nat, c: Class, seg: Segment, mapOk: nat -> bool,
                      phys: nat -> Byte, ghost head: seq<Byte>, ghost d0: nat, ghost body: seq<Byte>)
    requires Filled(data[..], head, d0, body) && phdr == |head| && offset == d0 + |body|
    requires phdr + PhdrSize(c) <= d0 && offset + seg.size <= data.Length
    requires seg.va.Some? ==> |seg.va.value| == seg.size
    modifies data
    ensures Filled(data[..], head + EncodePhdr(c, p), d0, body + Content(seg, mapOk, phys))
  {
    var h := EncodePhdr(c, p);
    WriteHeader(data, phdr, h, head, d0, body);
    WriteBody(data, offset, seg, mapOk, phys, head + h, d0, body);
  }

  method TotalSize(segs: seq<Segment>, c: Class) returns (dataSize: nat, phnum: nat)
    ensures phnum == |segs| && dataSize == DataOffset(c, segs, |segs|)
  {
    dataSize, phnum := EhdrSize(c), 0;
    while phnum < |segs|
      invariant phnum <= |segs| && dataSize == EhdrSize(c) + PhdrsSize(c, phnum) + SizeSum(segs, phnum)
    {
      dataSize := dataSize + PhdrSize(c) + segs[phnum].size;
      phnum := phnum + 1;
    }
  }

  /** The device's coredump interface takes the buffer, behind a descriptor, and
      waits: `saved` tells whether it was fetched in time. */
  method QcomElfDump(segs: seq<Segment>, c: Class, allocOk: bool, descOk: bool, saved: bool, mapOk: nat -> bool,
                     phys: nat -> Byte)
    returns (ret: int, image: Option<seq<Byte>>)
    requires Sized(segs)
    ensures segs == [] ==> ret == -EINVAL && image == None
    ensures segs != [] && !(allocOk && descOk) ==> ret == -ENOMEM && image == None
    ensures segs != [] && allocOk && descOk ==>
              image == Some(Image(c, segs, mapOk, phys)) && ret == (if saved then 0 else -ETIMEDOUT)
  {
    if |segs| == 0 { return -EINVAL, None; }
    var dataSize, phnum := TotalSize(segs, c);
    if !allocOk { return -ENOMEM, None; }
    var data := new Byte[dataSize];
    FillImage(data, segs, c, mapOk, phys);
    if !descOk { return -ENOMEM, None; }
    image := Some(data[..]);
    ret := if saved then 0 else -ETIMEDOUT;
  }

  /** There is room for a turn, and it adds one header and one segment. */
  lemma {:induction false} TurnFits(ehdr: seq<Byte>, c: Class, segs: seq<Segment>, i: nat, mapOk: nat -> bool,
                                    phys: nat -> Byte)
    requires Sized(segs) && i < |segs|
    ensures Headers(ehdr, c, segs, i + 1) == Headers(ehdr, c, segs, i) + EncodePhdr(c, PhdrOf(c, segs, i))
    ensures Contents(segs, i + 1, mapOk, phys) == Contents(segs, i, mapOk, phys) + Content(segs[i], mapOk, phys)
    ensures PhdrsSize(c, i) + PhdrSize(c) == PhdrsSize(c, i + 1) <= PhdrsSize(c, |segs|)
    ensures DataOffset(c, segs, i) + segs[i].size == DataOffset(c, segs, i + 1) <= DataOffset(c, segs, |segs|)
  {
    hide EncodePhdr, PhdrFields, Content;
    SumGrows(segs, i + 1, |segs|);
  }

  lemma {:induction false} StartOfImage(d: seq<Byte>, ehdr: seq<Byte>, c: Class, segs: seq<Segment>,
                                        mapOk: nat -> bool, phys: nat -> Byte)
    requires Sized(segs) && |d| == DataOffset(c, segs, |segs|) && |ehdr| == EhdrSize(c) && d[..EhdrSize(c)] == ehdr
    ensures Filled(d, Headers(ehdr, c, segs, 0), DataOffset(c, segs, 0), Contents(segs, 0, mapOk, phys))
  {
    SumGrows(segs, 0, |segs|);
    assert Headers(ehdr, c, segs, 0) == ehdr;
  }

  lemma {:induction false} EndOfImage(d: seq<Byte>, head: seq<Byte>, body: seq<Byte>)
    requires Filled(d, head, |head|, body) && |d| == |head| + |body|
    ensures d == head + body
  {
    assert d == d[..|head|] + d[|head|..];
  }

  method FillImage(data: array<Byte>, segs: seq<Segment>, c: Class, mapOk: nat -> bool, phys: nat -> Byte)
    requires Sized(segs) && data.Length == DataOffset(c, segs, |segs|)
    modifies data
    ensures data[..] == Image(c, segs, mapOk, phys)
  {
    var ehdr := EncodeEhdr(c, Ehdr(ET_CORE, EM_NONE, EV_CURRENT, EhdrSize(c), EhdrSize(c), PhdrSize(c), |segs|));
    WriteAll(data, ehdr, segs, c, mapOk, phys);
  }

  method WriteAll(data: array<Byte>, ehdr: seq<Byte>, segs: seq<Segment>, c: Class, mapOk: nat -> bool,
                  phys: nat -> Byte)
    requires Sized(segs) && data.Length == DataOffset(c, segs, |segs|) && |ehdr| == EhdrSize(c)
    modifies data
    ensures data[..] == Headers(ehdr, c, segs, |segs|) + Contents(segs, |segs|, mapOk, phys)
  {
    hide Content, PhdrFields, EncodeFirst, Le;
    Copy(data, 0, ehdr);
    StartOfImage(data[..], ehdr, c, segs, mapOk, phys);
    WriteSegments(data, ehdr, segs, c, mapOk, phys);
    EndOfImage(data[..], Headers(ehdr, c, segs, |segs|), Contents(segs, |segs|, mapOk, phys));
  }

  method WriteSegments(data: array<Byte>, ghost ehdr: seq<Byte>, segs: seq<Segment>, c: Class, mapOk: nat -> bool,
                       phys: nat -> Byte)
    requires Sized(segs) && data.Length == DataOffset(c, segs, |segs|) && |ehdr| == EhdrSize(c)
    requires Filled(data[..], Headers(ehdr, c, segs, 0), DataOffset(c, segs, 0), Contents(segs, 0, mapOk, phys))
    modifies data
    ensures Filled(data[..], Headers(ehdr, c, segs, |segs|), DataOffset(c, segs, 0),
                   Contents(segs, |segs|, mapOk, phys))
  {
    hide Filled, Headers, Contents, PhdrSize, EncodePhdr;
    var phdr: nat, offset: nat, i: nat := EhdrSize(c), EhdrSize(c) + PhdrsSize(c, |segs|), 0;
    while i < |segs|
      invariant i <= |segs| && phdr == EhdrSize(c) + PhdrsSize(c, i) && offset == DataOffset(c, segs, i)
      invariant Filled(data[..], Headers(ehdr, c, segs, i), DataOffset(c, segs, 0), Contents(segs, i, mapOk, phys))
    {
      TurnFits(ehdr, c, segs, i, mapOk, phys);
      var seg := segs[i];
      var p := Phdr(PT_LOAD, offset, seg.da, seg.da, seg.size, seg.size, PF_RWX, 0);
      WriteSegment(data, phdr, p, offset, c, seg, mapOk, phys,
                   Headers(ehdr, c, segs, i), DataOffset(c, segs, 0), Contents(segs, i, mapOk, phys));
      offset := offset + seg.size;
      phdr := phdr + PhdrSize(c);
      i := i + 1;
    }
  }
}

module ElfDumpProofs {
  import opened Common
  import opened ElfDumpSpec
  import opened Slices

  /** The value of bytes, lowest first. */
  function Un(s: seq<Byte>): nat {
    if s == [] then 0 else s[0] + 256 * Un(s[1..])
  }

  lemma {:induction false} UnBelow(s: seq<Byte>)
    ensures Un(s) < Pow256(|s|)
  {
    if s == [] {
    } else {
      UnBelow(s[1..]);
    }
  }

  lemma {:induction false} UnLe(v: nat, n: nat)
    requires v < Pow256(n)
    ensures Un(Le(v, n)) == v
  {
    if n == 0 {
    } else {
      UnLe(v / 256, n - 1);
      assert Le(v, n)[1..] == Le(v / 256, n - 1);
    }
  }

  /** A field gives back its value exactly if the value fits. */
  lemma {:induction false} FitsIff(v: nat, n: nat)
    ensures Un(Le(v, n)) == v <==> v < Pow256(n)
  {
    if v < Pow256(n) { UnLe(v, n); } else { UnBelow(Le(v, n)); }
  }

  // ------------------------------------------------------------- a reader

  /** What an ELF reader takes from n bytes at a position. */
  function Read(img: seq<Byte>, at: nat, n: nat): nat {
    if at + n <= |img| then Un(img[at..at + n]) else 0
  }

  function ReadPhnum(img: seq<Byte>, c: Class): nat { Read(img, if c.Elf32? then 44 else 56, 2) }

  function ReadPhdrAt(img: seq<Byte>, c: Class, at: nat): Phdr {
    match c
    case Elf32 => Phdr(Read(img, at, 4), Read(img, at + 4, 4), Read(img, at + 8, 4), Read(img, at + 12, 4),
                       Read(img, at + 16, 4), Read(img, at + 20, 4), Read(img, at + 24, 4), Read(img, at + 28, 4))
    case Elf64 => Phdr(Read(img, at, 4), Read(img, at + 8, 8), Read(img, at + 16, 8), Read(img, at + 24, 8),
                       Read(img, at + 32, 8), Read(img, at + 40, 8), Read(img, at + 4, 4), Read(img, at + 48, 8))
  }

  function ReadPhoff(img: seq<Byte>, c: Class): nat { Read(img, if c.Elf32? then 28 else 32, WordSize(c)) }

  function ReadPhentsize(img: seq<Byte>, c: Class): nat { Read(img, if c.Elf32? then 42 else 54, 2) }

  /** The i-th program header of a file. */
  function ReadPhdr(img: seq<Byte>, c: Class, i: nat): Phdr {
    ReadPhdrAt(img, c, ReadPhoff(img, c) + i * ReadPhentsize(img, c))
  }

  /** The bytes of a segment, as the file's own header places them. */
  function ReadBytes(img: seq<Byte>, h: Phdr): Option<seq<Byte>> {
    if h.offset + h.filesz <= |img| then Some(img[h.offset..h.offset + h.filesz]) else None
  }

  function Limit(c: Class): nat { if c.Elf32? then 0x1_0000_0000 else 0x1_0000_0000_0000_0000 }

  lemma {:induction false} Powers()
    ensures Pow256(2) == 0x1_0000 && Pow256(4) == 0x1_0000_0000 && Pow256(8) == 0x1_0000_0000_0000_0000
  {
    assert Pow256(4) == 256 * (256 * Pow256(2));
    assert Pow256(6) == 256 * (256 * Pow256(4));
  }

  /** What a field of n bytes keeps of a value. */
  function Kept(v: nat, n: nat): nat { Un(Le(v, n)) }

  function KeptPhdr(c: Class, p: Phdr): Phdr {
    var w := WordSize(c);
    Phdr(Kept(p.kind, 4), Kept(p.offset, w), Kept(p.vaddr, w), Kept(p.paddr, w),
         Kept(p.filesz, w), Kept(p.memsz, w), Kept(p.flags, 4), Kept(p.align, w))
  }

  lemma {:induction false} ReadInside(img: seq<Byte>, part: seq<Byte>, base: nat, at: nat, n: nat)
    requires base + |part| <= |img| && img[base..base + |part|] == part && at + n <= |part|
    ensures Read(img, base + at, n) == Read(part, at, n)
  {
    SliceOfSlice(img, base, |part|, at, n);
  }

  /** A field of an encoded list of fields is read back as far as it is kept. */
  lemma {:induction false} ReadField(fs: seq<Field>, k: nat, n: nat)
    requires k < n <= |fs|
    ensures Width(fs, k) + fs[k].width <= Width(fs, n)
    ensures Read(EncodeFirst(fs, n), Width(fs, k), fs[k].width) == Kept(fs[k].value, fs[k].width)
  {
    var front, last := EncodeFirst(fs, n - 1), Le(fs[n - 1].value, fs[n - 1].width);
    if k < n - 1 {
      ReadField(fs, k, n - 1);
      assert (front + last)[0..|front|] == front;
      ReadInside(front + last, front, 0, Width(fs, k), fs[k].width);
    } else {
      assert (front + last)[|front|..|front| + |last|] == last;
    }
  }

  predicate HasBlock(s: seq<Byte>, a: nat, n: nat, block: seq<Byte>) {
    a + n <= |s| && s[a..a + n] == block
  }

  lemma {:induction false} BlockOfPrefix(s: seq<Byte>, t: seq<Byte>, a: nat, n: nat, block: seq<Byte>)
    requires s <= t && HasBlock(s, a, n, block)
    ensures HasBlock(t, a, n, block)
  {
    assert t[a..a + n] == s[a..a + n];
  }

  lemma {:induction false} BlockAtEnd(front: seq<Byte>, last: seq<Byte>)
    ensures HasBlock(front + last, |front|, |last|, last)
  {
  }

  lemma {:induction false} BlockInside(e: seq<Byte>, p: seq<Byte>, body: seq<Byte>, a: nat, n: nat, block: seq<Byte>)
    requires HasBlock(p, a, n, block)
    ensures HasBlock(e + p + body, |e| + a, n, block)
  {
    assert (e + p + body)[|e| + a..|e| + a + n] == p[a..a + n];
  }

  lemma {:induction false} PhdrsPrefix(c: Class, segs: seq<Segment>, m: nat, n: nat)
    requires m <= n <= |segs|
    ensures Phdrs(c, segs, m) <= Phdrs(c, segs, n)
    decreases n
  {
    if m < n { PhdrsPrefix(c, segs, m, n - 1); }
  }

  lemma {:induction false} PhdrSlice(c: Class, segs: seq<Segment>, i: nat)
    requires i < |segs|
    ensures HasBlock(Phdrs(c, segs, |segs|), PhdrsSize(c, i), PhdrSize(c), EncodePhdr(c, PhdrOf(c, segs, i)))
  {
    var block := EncodePhdr(c, PhdrOf(c, segs, i));
    BlockAtEnd(Phdrs(c, segs, i), block);
    PhdrsPrefix(c, segs, i + 1, |segs|);
    BlockOfPrefix(Phdrs(c, segs, i + 1), Phdrs(c, segs, |segs|), PhdrsSize(c, i), PhdrSize(c), block);
  }

  lemma {:induction false} ContentSlice(segs: seq<Segment>, i: nat, n: nat, mapOk: nat -> bool, phys: nat -> Byte)
    requires Sized(segs) && i < n <= |segs|
    ensures SizeSum(segs, i + 1) <= SizeSum(segs, n)
    ensures Contents(segs, n, mapOk, phys)[SizeSum(segs, i)..SizeSum(segs, i + 1)] == Content(segs[i], mapOk, phys)
  {
    hide Content;
    var front, last := Contents(segs, n - 1, mapOk, phys), Content(segs[n - 1], mapOk, phys);
    if i < n - 1 {
      ContentSlice(segs, i, n - 1, mapOk, phys);
      SliceOfLeft(front, last, SizeSum(segs, i), SizeSum(segs, i + 1));
    } else {
      assert (front + last)[|front|..|front| + |last|] == last;
    }
  }

  lemma {:induction false} ContentPlaced(head: seq<Byte>, segs: seq<Segment>, i: nat, mapOk: nat -> bool,
                                         phys: nat -> Byte)
    requires Sized(segs) && i < |segs|
    ensures var img, at := head + Contents(segs, |segs|, mapOk, phys), |head| + SizeSum(segs, i);
            && |img| == |head| + SizeSum(segs, |segs|)
            && SizeSum(segs, i + 1) == SizeSum(segs, i) + segs[i].size <= SizeSum(segs, |segs|)
            && img[at..at + segs[i].size] == Content(segs[i], mapOk, phys)
  {
    ContentSlice(segs, i, |segs|, mapOk, phys);
    SliceOfRight(head, Contents(segs, |segs|, mapOk, phys), SizeSum(segs, i), SizeSum(segs, i + 1));
  }

  /** The bytes of a segment: those its pointer leads to, or without one those at its
      physical address, or 0xff where these cannot be mapped. */
  ghost predicate HasBytes(bytes: seq<Byte>, seg: Segment, mapOk: nat -> bool, phys: nat -> Byte) {
    && |bytes| == seg.size
    && (seg.va.Some? ==> bytes == seg.va.value)
    && (seg.va.None? && mapOk(seg.da) ==> forall k: nat :: k < |bytes| ==> bytes[k] == phys(seg.da + k))
    && (seg.va.None? && !mapOk(seg.da) ==> forall k: nat :: k < |bytes| ==> bytes[k] == 0xff)
  }

  lemma {:induction false} ContentIs(seg: Segment, mapOk: nat -> bool, phys: nat -> Byte)
    requires seg.va.Some? ==> |seg.va.value| == seg.size
    ensures forall bytes :: HasBytes(bytes, seg, mapOk, phys) <==> bytes == Content(seg, mapOk, phys)
  {
    var c := Content(seg, mapOk, phys);
    forall bytes | HasBytes(bytes, seg, mapOk, phys) ensures bytes == c {
      assert |c| == seg.size && forall k :: 0 <= k < |c| ==> bytes[k] == c[k];
    }
  }

  /** The extents of the segments tile the file after the headers. */
  lemma {:induction false} ExtentsTile(c: Class, segs: seq<Segment>, i: nat, mapOk: nat -> bool, phys: nat -> Byte)
    requires Sized(segs) && i < |segs|
    ensures var img, at := Image(c, segs, mapOk, phys), DataOffset(c, segs, i);
            && DataOffset(c, segs, 0) == EhdrSize(c) + PhdrsSize(c, |segs|)
            && DataOffset(c, segs, i + 1) == at + segs[i].size <= |img| == DataOffset(c, segs, |segs|)
            && HasBytes(img[at..at + segs[i].size], segs[i], mapOk, phys)
  {
    hide Contents, Content, Phdrs, EncodeFirst, HasBytes;
    ContentIs(segs[i], mapOk, phys);
    ContentPlaced(Headers(EncodeEhdr(c, EhdrOf(c, |segs|)), c, segs, |segs|), segs, i, mapOk, phys);
  }

  // ------------------------------------------------------------ round trip

  lemma {:induction false} ReadOfFirst(e: seq<Byte>, p: seq<Byte>, body: seq<Byte>, at: nat, n: nat)
    requires at + n <= |e|
    ensures Read(e + p + body, at, n) == Read(e, at, n)
  {
    var img := e + p + body;
    assert img[0..|e|] == e;
    ReadInside(img, e, 0, at, n);
  }

  lemma {:induction false} BlockInImage(ehdr: seq<Byte>, c: Class, segs: seq<Segment>, body: seq<Byte>, a: nat,
                                        n: nat, block: seq<Byte>)
    requires HasBlock(Phdrs(c, segs, |segs|), a, n, block)
    ensures HasBlock(Headers(ehdr, c, segs, |segs|) + body, |ehdr| + a, n, block)
  {
    BlockInside(ehdr, Phdrs(c, segs, |segs|), body, a, n, block);
  }

  /** The ELF header of a file. */
  function EhdrBytes(c: Class, n: nat): seq<Byte> { EncodeEhdr(c, EhdrOf(c, n)) }

  /** Where the fields of an ELF header stand: offset and width of each, as the gABI
      lays them out. */
  function FieldAt(c: Class, k: nat): (nat, nat)
    requires k < 19
  {
    match c
    case Elf32 => [(0, 4), (4, 1), (5, 1), (6, 1), (7, 1), (8, 8), (16, 2), (18, 2), (20, 4), (24, 4), (28, 4), (32, 4),
                   (36, 4), (40, 2), (42, 2), (44, 2), (46, 2), (48, 2), (50, 2)][k]
    case Elf64 => [(0, 4), (4, 1), (5, 1), (6, 1), (7, 1), (8, 8), (16, 2), (18, 2), (20, 4), (24, 8), (32, 8), (40, 8),
                   (48, 4), (52, 2), (54, 2), (56, 2), (58, 2), (60, 2), (62, 2)][k]
  }

  lemma {:induction false} WidthsMatch(c: Class, h: Ehdr, k: nat)
    requires k < 19
    ensures var fs := EhdrFields(c, h); Width(fs, k) == FieldAt(c, k).0 && fs[k].width == FieldAt(c, k).1
  {
    hide Width;
    var fs := EhdrFields(c, h);
    WidthNext(fs, k);
    if k > 0 { WidthsMatch(c, h, k - 1); }
  }

  lemma {:induction false} WidthNext(fs: seq<Field>, k: nat)
    requires k <= |fs|
    ensures Width(fs, k) == if k == 0 then 0 else Width(fs, k - 1) + fs[k - 1].width
  {
  }

  /** What they hold: the ELF magic, the class, little-endian, version 1; a core file of
      no machine, without sections, whose n program headers follow the header. */
  function FieldValue(c: Class, n: nat, k: nat): nat
    requires k < 19
  {
    var size := if c.Elf32? then 52 else 64;
    [0x464C457F, if c.Elf32? then 1 else 2, 1, 1, 0, 0, 4, 0, 1, 0, size, 0,
     0, size, if c.Elf32? then 32 else 56, n % 65536, 0, 0, 0][k]
  }

  lemma {:induction false} SmallKept(v: nat, n: nat)
    requires v < 256 && n >= 1
    ensures Kept(v, n) == v
  {
    assert Pow256(n) == 256 * Pow256(n - 1);
    FitsIff(v, n);
  }

  lemma {:induction false} MagicKept()
    ensures Kept(0x464C457F, 4) == 0x464C457F
  {
    Powers();
    FitsIff(0x464C457F, 4);
  }

  lemma {:induction false} CountKept(n: nat)
    ensures Kept(n, 2) == n % 65536
  {
    var s := Le(n, 2);
    assert Le(n / 256, 1) == [n / 256 % 256];
    assert s[1..] == Le(n / 256, 1) && s[1..][1..] == [];
    assert Un(s) == s[0] + 256 * Un(s[1..]) && Un(s[1..]) == n / 256 % 256;
  }

  lemma {:induction false} ValueKept(c: Class, n: nat, k: nat)
    requires k < 19
    ensures var f := EhdrFields(c, EhdrOf(c, n))[k]; Kept(f.value, f.width) == FieldValue(c, n, k)
  {
    hide Kept;
    var f := EhdrFields(c, EhdrOf(c, n))[k];
    if k == 0 {
      MagicKept();
    } else if k == 15 {
      CountKept(n);
    } else {
      SmallKept(f.value, f.width);
    }
  }

  /** Each field of the file's header is read back. */
  lemma {:induction false} ReadsHeader(c: Class, segs: seq<Segment>, body: seq<Byte>, k: nat)
    requires k < 19
    ensures var (at, n) := FieldAt(c, k);
            Read(Headers(EhdrBytes(c, |segs|), c, segs, |segs|) + body, at, n) == FieldValue(c, |segs|, k)
  {
    hide Width, EncodeFirst, Read, Kept, FieldValue, FieldAt;
    var h := EhdrOf(c, |segs|);
    EhdrWidth(c, h);
    WidthsMatch(c, h, k);
    ReadField(EhdrFields(c, h), k, 19);
    ReadOfFirst(EhdrBytes(c, |segs|), Phdrs(c, segs, |segs|), body, FieldAt(c, k).0, FieldAt(c, k).1);
    ValueKept(c, |segs|, k);
  }

  /** The fields that lead to the program headers. */
  lemma {:induction false} ReadsPlace(c: Class, segs: seq<Segment>, body: seq<Byte>)
    ensures var img := Headers(EhdrBytes(c, |segs|), c, segs, |segs|) + body;
            && ReadPhoff(img, c) == EhdrSize(c) && ReadPhentsize(img, c) == PhdrSize(c)
            && ReadPhnum(img, c) == |segs| % 65536
  {
    hide Read, Headers, EhdrBytes, Phdrs;
    ReadsHeader(c, segs, body, 10);
    ReadsHeader(c, segs, body, 14);
    ReadsHeader(c, segs, body, 15);
  }

  lemma {:induction false} ReadsBlock(img: seq<Byte>, c: Class, at: nat, p: Phdr, k: nat)
    requires HasBlock(img, at, PhdrSize(c), EncodePhdr(c, p)) && k < 8
    ensures var fs := PhdrFields(c, p); Read(img, at + Width(fs, k), fs[k].width) == Kept(fs[k].value, fs[k].width)
  {
    var fs := PhdrFields(c, p);
    ReadField(fs, k, 8);
    ReadInside(img, EncodePhdr(c, p), at, Width(fs, k), fs[k].width);
  }

  lemma {:induction false} ReadsBlock32(img: seq<Byte>, at: nat, p: Phdr)
    requires HasBlock(img, at, 32, EncodePhdr(Elf32, p))
    ensures ReadPhdrAt(img, Elf32, at) == KeptPhdr(Elf32, p)
  {
    hide Read, Kept, Width, EncodePhdr, HasBlock;
    PhdrWidths32(p);
    ReadsBlock(img, Elf32, at, p, 0);
    ReadsBlock(img, Elf32, at, p, 1);
    ReadsBlock(img, Elf32, at, p, 2);
    ReadsBlock(img, Elf32, at, p, 3);
    ReadsBlock(img, Elf32, at, p, 4);
    ReadsBlock(img, Elf32, at, p, 5);
    ReadsBlock(img, Elf32, at, p, 6);
    ReadsBlock(img, Elf32, at, p, 7);
  }

  lemma {:induction false} ReadsBlock64(img: seq<Byte>, at: nat, p: Phdr)
    requires HasBlock(img, at, 56, EncodePhdr(Elf64, p))
    ensures ReadPhdrAt(img, Elf64, at) == KeptPhdr(Elf64, p)
  {
    hide Read, Kept, Width, EncodePhdr, HasBlock;
    PhdrWidths64(p);
    ReadsBlock(img, Elf64, at, p, 0);
    ReadsBlock(img, Elf64, at, p, 1);
    ReadsBlock(img, Elf64, at, p, 2);
    ReadsBlock(img, Elf64, at, p, 3);
    ReadsBlock(img, Elf64, at, p, 4);
    ReadsBlock(img, Elf64, at, p, 5);
    ReadsBlock(img, Elf64, at, p, 6);
    ReadsBlock(img, Elf64, at, p, 7);
  }

  lemma {:induction false} ReadsBlockOf(img: seq<Byte>, c: Class, at: nat, p: Phdr)
    requires HasBlock(img, at, PhdrSize(c), EncodePhdr(c, p))
    ensures ReadPhdrAt(img, c, at) == KeptPhdr(c, p)
  {
    if c.Elf32? { ReadsBlock32(img, at, p); } else { ReadsBlock64(img, at, p); }
  }

  lemma {:induction false} PhdrInImage(ehdr: seq<Byte>, c: Class, segs: seq<Segment>, body: seq<Byte>, i: nat)
    requires i < |segs|
    ensures HasBlock(Headers(ehdr, c, segs, |segs|) + body, |ehdr| + PhdrsSize(c, i), PhdrSize(c),
                     EncodePhdr(c, PhdrOf(c, segs, i)))
  {
    PhdrSlice(c, segs, i);
    BlockInImage(ehdr, c, segs, body, PhdrsSize(c, i), PhdrSize(c), EncodePhdr(c, PhdrOf(c, segs, i)));
  }

  lemma {:induction false} ReadsPhdrAt(ehdr: seq<Byte>, c: Class, segs: seq<Segment>, body: seq<Byte>, i: nat)
    requires i < |segs|
    ensures ReadPhdrAt(Headers(ehdr, c, segs, |segs|) + body, c, |ehdr| + PhdrsSize(c, i))
         == KeptPhdr(c, PhdrOf(c, segs, i))
  {
    hide *;
    PhdrInImage(ehdr, c, segs, body, i);
    ReadsBlockOf(Headers(ehdr, c, segs, |segs|) + body, c, |ehdr| + PhdrsSize(c, i), PhdrOf(c, segs, i));
  }

  lemma {:induction false} PhdrPlace(img: seq<Byte>, c: Class, i: nat)
    requires ReadPhoff(img, c) == EhdrSize(c) && ReadPhentsize(img, c) == PhdrSize(c)
    ensures ReadPhdr(img, c, i) == ReadPhdrAt(img, c, EhdrSize(c) + PhdrsSize(c, i))
  {
    assert i * PhdrSize(c) == PhdrsSize(c, i);
  }

  /** The header read back for segment i is the one written, as far as the fields of
      the class keep it. */
  lemma {:induction false} ReadsPhdr(c: Class, segs: seq<Segment>, body: seq<Byte>, i: nat)
    requires i < |segs|
    ensures ReadPhdr(Headers(EhdrBytes(c, |segs|), c, segs, |segs|) + body, c, i) == KeptPhdr(c, PhdrOf(c, segs, i))
  {
    ReadsPlace(c, segs, body);
    ReadsPhdrAt(EhdrBytes(c, |segs|), c, segs, body, i);
    PhdrPlace(Headers(EhdrBytes(c, |segs|), c, segs, |segs|) + body, c, i);
  }

  /** Reading the file back gives the number of segments, and for each of them its
      place and its bytes. */
  ghost predicate ReadsBack(c: Class, segs: seq<Segment>, img: seq<Byte>, mapOk: nat -> bool, phys: nat -> Byte) {
    && ReadPhnum(img, c) == |segs|
    && forall i :: 0 <= i < |segs| ==> ReadsSegment(c, segs, img, i, mapOk, phys)
  }

  ghost predicate ReadsSegment(c: Class, segs: seq<Segment>, img: seq<Byte>, i: nat, mapOk: nat -> bool,
                               phys: nat -> Byte)
    requires i < |segs|
  {
    var h := ReadPhdr(img, c, i);
    && h.offset == DataOffset(c, segs, i) && h.filesz == segs[i].size
    && ReadBytes(img, h).Some? && HasBytes(ReadBytes(img, h).value, segs[i], mapOk, phys)
  }

  predicate FitsClass(c: Class, segs: seq<Segment>, i: nat)
    requires i < |segs|
  {
    DataOffset(c, segs, i) < Limit(c) && segs[i].size < Limit(c)
  }

  lemma {:induction false} LimitIsPower(c: Class)
    ensures Limit(c) == Pow256(WordSize(c))
  {
    Powers();
  }

  /** The header written for segment i keeps what it says exactly if it fits. */
  lemma {:induction false} KeptIff(c: Class, segs: seq<Segment>, i: nat)
    requires i < |segs|
    ensures var h := KeptPhdr(c, PhdrOf(c, segs, i));
            && (h.offset == DataOffset(c, segs, i) && h.filesz == segs[i].size <==> FitsClass(c, segs, i))
            && (h.paddr == segs[i].da <==> segs[i].da < Limit(c)) && h.vaddr == h.paddr && h.memsz == h.filesz
            && h.kind == 1 && h.flags == 7 && h.align == 0
  {
    LimitIsPower(c);
    Powers();
    UnLe(PT_LOAD, 4);
    UnLe(PF_RWX, 4);
    UnLe(0, WordSize(c));
    FitsIff(DataOffset(c, segs, i), WordSize(c));
    FitsIff(segs[i].size, WordSize(c));
    FitsIff(segs[i].da, WordSize(c));
  }

  lemma {:induction false} ReadsAsPlaced(c: Class, segs: seq<Segment>, img: seq<Byte>, i: nat, mapOk: nat -> bool,
                                         phys: nat -> Byte, h: Phdr)
    requires i < |segs| && ReadPhdr(img, c, i) == h
    requires var off := DataOffset(c, segs, i);
             off + segs[i].size <= |img| && HasBytes(img[off..off + segs[i].size], segs[i], mapOk, phys)
    ensures ReadsSegment(c, segs, img, i, mapOk, phys) <==>
            h.offset == DataOffset(c, segs, i) && h.filesz == segs[i].size
  {
  }

  lemma {:induction false} SegmentReadsBackIff(c: Class, segs: seq<Segment>, i: nat, mapOk: nat -> bool,
                                               phys: nat -> Byte)
    requires Sized(segs) && i < |segs|
    ensures ReadsSegment(c, segs, Image(c, segs, mapOk, phys), i, mapOk, phys) <==> FitsClass(c, segs, i)
  {
    var h := KeptPhdr(c, PhdrOf(c, segs, i));
    ReadsPhdr(c, segs, Contents(segs, |segs|, mapOk, phys), i);
    ExtentsTile(c, segs, i, mapOk, phys);
    ReadsAsPlaced(c, segs, Image(c, segs, mapOk, phys), i, mapOk, phys, h);
    KeptIff(c, segs, i);
  }

  /** The round trip holds exactly if there are fewer than 65536 segments and every
      offset and length fits the class. */
  lemma {:induction false} ReadsBackIff(c: Class, segs: seq<Segment>, mapOk: nat -> bool, phys: nat -> Byte)
    requires Sized(segs)
    ensures ReadsBack(c, segs, Image(c, segs, mapOk, phys), mapOk, phys) <==>
            |segs| < 65536 && forall i :: 0 <= i < |segs| ==> FitsClass(c, segs, i)
  {
    hide Contents, Headers, ReadPhnum, ReadsSegment, FitsClass;
    ReadsPlace(c, segs, Contents(segs, |segs|, mapOk, phys));
    forall i | 0 <= i < |segs|
      ensures ReadsSegment(c, segs, Image(c, segs, mapOk, phys), i, mapOk, phys) <==> FitsClass(c, segs, i)
    {
      SegmentReadsBackIff(c, segs, i, mapOk, phys);
    }
  }

  /** A file shorter than the class addresses has offsets and lengths that fit. */
  lemma {:induction false} SmallFilesFit(c: Class, segs: seq<Segment>, i: nat, mapOk: nat -> bool, phys: nat -> Byte)
    requires Sized(segs) && i < |segs| && |Image(c, segs, mapOk, phys)| < Limit(c)
    ensures FitsClass(c, segs, i)
  {
    ExtentsTile(c, segs, i, mapOk, phys);
  }

  /** The address is read back exactly if it fits the class: an ELF32 file drops the
      upper half of a 64-bit address. */
  lemma {:induction false} AddressReadsBackIff(c: Class, segs: seq<Segment>, i: nat, mapOk: nat -> bool,
                                               phys: nat -> Byte)
    requires Sized(segs) && i < |segs|
    ensures ReadPhdr(Image(c, segs, mapOk, phys), c, i).paddr == segs[i].da <==> segs[i].da < Limit(c)
  {
    ReadsPhdr(c, segs, Contents(segs, |segs|, mapOk, phys), i);
    KeptIff(c, segs, i);
  }
}
