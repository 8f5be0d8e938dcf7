/** ELF files as elf.h lays them out, least byte first, and what bootmain.c makes of them. */
module ElfFile {
  import opened Prelude
  import opened LittleEndian
  import opened BootLoader

  /** A number and the bytes it takes. */
  datatype Field = Field(value: nat, size: nat)

  function Encode(fs: seq<Field>): seq<byte> {
    if fs == [] then [] else Encode(fs[..|fs| - 1]) + Bytes(fs[|fs| - 1].value, fs[|fs| - 1].size)
  }

  datatype Class = Class32 | Class64 {
    /** The size of an address or offset. */
    function Word(): nat { if this == Class32 then 4 else 8 }
  }

  datatype Ehdr = Ehdr(e_ident: nat, e_type: nat, e_machine: nat, e_version: nat, e_entry: nat, e_phoff: nat,
                       e_shoff: nat, e_flags: nat, e_ehsize: nat, e_phentsize: nat, e_phnum: nat, e_shentsize: nat,
                       e_shnum: nat, e_shstrndx: nat)

  /** Elf32_Ehdr, Elf64_Ehdr. */
  function EhdrFields(h: Ehdr, c: Class): seq<Field> {
    [Field(h.e_ident, 16), Field(h.e_type, 2), Field(h.e_machine, 2), Field(h.e_version, 4),
     Field(h.e_entry, c.Word()), Field(h.e_phoff, c.Word()), Field(h.e_shoff, c.Word()),
     Field(h.e_flags, 4), Field(h.e_ehsize, 2), Field(h.e_phentsize, 2), Field(h.e_phnum, 2),
     Field(h.e_shentsize, 2), Field(h.e_shnum, 2), Field(h.e_shstrndx, 2)]
  }

  datatype Phdr = Phdr(p_type: nat, p_flags: nat, p_offset: nat, p_vaddr: nat, p_paddr: nat, p_filesz: nat,
                       p_memsz: nat, p_align: nat)

  /** Elf32_Phdr, Elf64_Phdr: the flags are not at the same place. */
  function PhdrFields(p: Phdr, c: Class): seq<Field> {
    match c
    case Class32 =>
      [Field(p.p_type, 4), Field(p.p_offset, 4), Field(p.p_vaddr, 4), Field(p.p_paddr, 4),
       Field(p.p_filesz, 4), Field(p.p_memsz, 4), Field(p.p_flags, 4), Field(p.p_align, 4)]
    case Class64 =>
      [Field(p.p_type, 4), Field(p.p_flags, 4), Field(p.p_offset, 8), Field(p.p_vaddr, 8),
       Field(p.p_paddr, 8), Field(p.p_filesz, 8), Field(p.p_memsz, 8), Field(p.p_align, 8)]
  }

  function Table(ps: seq<Phdr>, c: Class): seq<byte> {
    if ps == [] then [] else Table(ps[..|ps| - 1], c) + Encode(PhdrFields(ps[|ps| - 1], c))
  }

  /** The bytes are in memory from `a` on, around its end if need be. */
  ghost predicate Holds(m: seq<byte>, a: int, bs: seq<byte>)
    requires |m| == M
  {
    forall i :: 0 <= i < |bs| ==> m[Wrap(a + i)] == bs[i]
  }

  // ---------- Reading fields ----------

  function Offset(fs: seq<Field>, k: nat): nat
    requires k <= |fs|
  {
    if k == 0 then 0 else Offset(fs, k - 1) + fs[k - 1].size
  }

  lemma HoldsParts(m: seq<byte>, a: int, bs: seq<byte>, cs: seq<byte>)
    requires |m| == M && Holds(m, a, bs + cs)
    ensures Holds(m, a, bs) && Holds(m, a + |bs|, cs)
  {
    forall i | 0 <= i < |bs| ensures m[Wrap(a + i)] == bs[i] {
      assert (bs + cs)[i] == bs[i];
    }
    forall i | 0 <= i < |cs| ensures m[Wrap(a + |bs| + i)] == cs[i] {
      assert (bs + cs)[|bs| + i] == cs[i];
      assert m[Wrap(a + (|bs| + i))] == cs[i];
    }
  }

  lemma {:induction false} OffsetOfFront(fs: seq<Field>, k: nat)
    requires k < |fs|
    ensures Offset(fs[..|fs| - 1], k) == Offset(fs, k)
    decreases k
  {
    if k > 0 {
      OffsetOfFront(fs, k - 1);
    }
  }

  lemma {:induction false} EncodedSize(fs: seq<Field>)
    ensures |Encode(fs)| == Offset(fs, |fs|)
    decreases |fs|
  {
    if fs != [] {
      EncodedSize(fs[..|fs| - 1]);
      OffsetOfFront(fs, |fs| - 1);
    }
  }

  /** Field number `k` of encoded fields is where the sizes of those before it say. */
  lemma {:induction false} FieldIsThere(m: seq<byte>, a: int, fs: seq<Field>, k: nat)
    requires |m| == M && Holds(m, a, Encode(fs)) && k < |fs|
    ensures Holds(m, a + Offset(fs, k), Bytes(fs[k].value, fs[k].size))
    decreases |fs|
  {
    hide Holds, Bytes;
    var front, last := fs[..|fs| - 1], fs[|fs| - 1];
    HoldsParts(m, a, Encode(front), Bytes(last.value, last.size));
    EncodedSize(front);
    OffsetOfFront(fs, k);
    if k < |fs| - 1 {
      FieldIsThere(m, a, front, k);
    }
  }

  lemma TwoDigits(v: nat)
    ensures v % 256 + 0x100 * (v / 256 % 256) == v % 0x1_0000 && v / 256 / 256 == v / 0x1_0000
  {
    var low, mid, high := v % 256, v / 256 % 256, v / 256 / 256;
    assert v == 0x1_0000 * high + (0x100 * mid + low);
    assert 0 <= 0x100 * mid + low < 0x1_0000;
  }

  lemma BytesStep(v: nat, n: nat)
    requires n > 0
    ensures Bytes(v, n) == [v % 256] + Bytes(v / 256, n - 1)
  {
  }

  lemma TwoBytes(v: nat, n: nat)
    requires n >= 2
    ensures var low: int, high: int := Bytes(v, n)[0], Bytes(v, n)[1]; low + 0x100 * high == v % 0x1_0000
    ensures Bytes(v, n)[2..] == Bytes(v / 0x1_0000, n - 2)
  {
    hide Bytes;
    BytesStep(v, n);
    BytesStep(v / 256, n - 1);
    TwoDigits(v);
    assert Bytes(v, n)[2..] == Bytes(v / 256, n - 1)[1..];
  }

  lemma Low16Reads(m: seq<byte>, a: int, v: nat, n: nat)
    requires |m| == M && n >= 2 && Holds(m, a, Bytes(v, n))
    ensures Low16(m, a) == v % 0x1_0000
  {
    TwoBytes(v, n);
    assert m[Wrap(a + 0)] == Bytes(v, n)[0];
  }

  lemma Low32Reads(m: seq<byte>, a: int, v: nat, n: nat)
    requires |m| == M && n >= 4 && Holds(m, a, Bytes(v, n))
    ensures Low32(m, a) == v % M
  {
    hide Low16, Holds, Bytes;
    Low16Reads(m, a, v, n);
    TwoBytes(v, n);
    assert Bytes(v, n) == Bytes(v, n)[..2] + Bytes(v / 0x1_0000, n - 2);
    HoldsParts(m, a, Bytes(v, n)[..2], Bytes(v / 0x1_0000, n - 2));
    Low16Reads(m, a + 2, v / 0x1_0000, n - 2);
  }

  // ---------- Headers are read back ----------

  function LayoutFor(c: Class): Layout { if c == Class32 then ELF32 else ELF64 }

  /** What load_elf32 and load_elf64 pass on: four fields, of which a 64-bit one loses its upper half. */
  function SegmentOf(p: Phdr): Segment { Segment(p.p_filesz % M, p.p_memsz % M, p.p_paddr % M, p.p_offset % M) }

  lemma Phdr32Offsets(p: Phdr)
    ensures var fs := PhdrFields(p, Class32);
            && Offset(fs, 1) == 4 && Offset(fs, 3) == 12 && Offset(fs, 4) == 16
            && Offset(fs, 5) == 20 && Offset(fs, 8) == 32
  {
    var fs := PhdrFields(p, Class32);
    assert Offset(fs, 0) == 0 && Offset(fs, 1) == 4 && Offset(fs, 2) == 8 && Offset(fs, 3) == 12;
    assert Offset(fs, 4) == 16 && Offset(fs, 5) == 20 && Offset(fs, 6) == 24 && Offset(fs, 7) == 28;
  }

  lemma Phdr64Offsets(p: Phdr)
    ensures var fs := PhdrFields(p, Class64);
            && Offset(fs, 2) == 8 && Offset(fs, 4) == 24 && Offset(fs, 5) == 32
            && Offset(fs, 6) == 40 && Offset(fs, 8) == 56
  {
    var fs := PhdrFields(p, Class64);
    assert Offset(fs, 0) == 0 && Offset(fs, 1) == 4 && Offset(fs, 2) == 8 && Offset(fs, 3) == 16;
    assert Offset(fs, 4) == 24 && Offset(fs, 5) == 32 && Offset(fs, 6) == 40 && Offset(fs, 7) == 48;
  }

  lemma ReadsField(m: seq<byte>, a: int, fs: seq<Field>, k: nat)
    requires |m| == M && Holds(m, a, Encode(fs)) && k < |fs| && fs[k].size >= 4
    ensures Low32(m, a + Offset(fs, k)) == fs[k].value % M
  {
    hide Holds, Low32, Offset, Bytes;
    FieldIsThere(m, a, fs, k);
    Low32Reads(m, a + Offset(fs, k), fs[k].value, fs[k].size);
  }

  lemma ReadsHalf(m: seq<byte>, a: int, fs: seq<Field>, k: nat)
    requires |m| == M && Holds(m, a, Encode(fs)) && k < |fs| && fs[k].size == 2
    ensures Low16(m, a + Offset(fs, k)) == fs[k].value % 0x1_0000
  {
    hide Holds, Low16, Offset, Bytes;
    FieldIsThere(m, a, fs, k);
    Low16Reads(m, a + Offset(fs, k), fs[k].value, fs[k].size);
  }

  /** A program header written field by field is read back. */
  lemma ProgramHeaderIsRead(m: seq<byte>, ph: u32, p: Phdr, c: Class)
    requires |m| == M && Holds(m, ph, Encode(PhdrFields(p, c)))
    ensures ReadSegment(LayoutFor(c), m, ph) == SegmentOf(p)
  {
    hide Holds, Low32, Offset, Encode;
    var fs := PhdrFields(p, c);
    match c
    case Class32 =>
      Phdr32Offsets(p);
      ReadsField(m, ph, fs, 1);
      ReadsField(m, ph, fs, 3);
      ReadsField(m, ph, fs, 4);
      ReadsField(m, ph, fs, 5);
    case Class64 =>
      Phdr64Offsets(p);
      ReadsField(m, ph, fs, 2);
      ReadsField(m, ph, fs, 4);
      ReadsField(m, ph, fs, 5);
      ReadsField(m, ph, fs, 6);
  }

  lemma EhdrOffsets(h: Ehdr, c: Class)
    ensures var fs := EhdrFields(h, c);
            && Offset(fs, 2) == 18 && Offset(fs, 4) == 24
            && Offset(fs, 5) == LayoutFor(c).e_phoff && Offset(fs, 10) == LayoutFor(c).e_phnum
  {
    var fs := EhdrFields(h, c);
    assert Offset(fs, 0) == 0 && Offset(fs, 1) == 16 && Offset(fs, 2) == 18 && Offset(fs, 3) == 20;
    assert Offset(fs, 4) == 24 && Offset(fs, 5) == 24 + c.Word() && Offset(fs, 6) == 24 + 2 * c.Word();
    assert Offset(fs, 7) == 24 + 3 * c.Word() && Offset(fs, 8) == 28 + 3 * c.Word();
    assert Offset(fs, 9) == 30 + 3 * c.Word() && Offset(fs, 10) == 32 + 3 * c.Word();
  }

  /** So is a file header: the machine alone decides for which word size the rest is read. */
  lemma FileHeaderIsRead(m: seq<byte>, h: Ehdr, c: Class)
    requires |m| == M && Holds(m, HEADER, Encode(EhdrFields(h, c)))
    ensures LayoutOf(m) == LayoutFor(if h.e_machine % 0x1_0000 == 62 then Class64 else Class32)
    ensures FirstHeader(LayoutFor(c), m) == Wrap(HEADER + h.e_phoff % M)
    ensures Headers(LayoutFor(c), m) == h.e_phnum % 0x1_0000
    ensures Low32(m, HEADER + 24) == h.e_entry % M
  {
    hide Holds, Low32, Low16, Offset, Encode;
    var fs := EhdrFields(h, c);
    EhdrOffsets(h, c);
    ReadsHalf(m, HEADER, fs, 2);
    ReadsField(m, HEADER, fs, 4);
    ReadsField(m, HEADER, fs, 5);
    ReadsHalf(m, HEADER, fs, 10);
  }

  lemma PhdrSize(p: Phdr, c: Class)
    ensures |Encode(PhdrFields(p, c))| == LayoutFor(c).phentsize
  {
    EncodedSize(PhdrFields(p, c));
    Phdr32Offsets(p);
    Phdr64Offsets(p);
  }

  lemma {:induction false} TableSize(ps: seq<Phdr>, c: Class)
    ensures |Table(ps, c)| == |ps| * LayoutFor(c).phentsize
    decreases |ps|
  {
    hide Encode, PhdrFields, LayoutFor;
    if ps != [] {
      var front := ps[..|ps| - 1];
      TableSize(front, c);
      PhdrSize(ps[|ps| - 1], c);
      assert |ps| * LayoutFor(c).phentsize == |front| * LayoutFor(c).phentsize + LayoutFor(c).phentsize;
    }
  }

  lemma {:induction false} TableEntry(m: seq<byte>, a: int, ps: seq<Phdr>, c: Class, i: nat)
    requires |m| == M && Holds(m, a, Table(ps, c)) && i < |ps|
    ensures Holds(m, a + i * LayoutFor(c).phentsize, Encode(PhdrFields(ps[i], c)))
    decreases |ps|
  {
    hide Holds, Encode, PhdrFields, LayoutFor;
    var front, last := ps[..|ps| - 1], ps[|ps| - 1];
    HoldsParts(m, a, Table(front, c), Encode(PhdrFields(last, c)));
    if i < |front| {
      TableEntry(m, a, front, c, i);
    } else {
      TableSize(front, c);
    }
  }

  /** The header and the table of program headers are in memory where load_kernel looks for them. */
  ghost predicate HasHeaders(m: seq<byte>, h: Ehdr, ps: seq<Phdr>, c: Class)
    requires |m| == M
  {
    && Holds(m, HEADER, Encode(EhdrFields(h, c))) && Holds(m, HEADER + h.e_phoff, Table(ps, c))
    && (c == Class64 <==> h.e_machine == 62) && h.e_machine < 0x1_0000
    && h.e_phnum == |ps| < 0x1_0000
    && h.e_phoff + |ps| * LayoutFor(c).phentsize <= PAGE
  }

  /** The segments that load_kernel finds are those of the table. */
  lemma HeadersAreRead(m: seq<byte>, h: Ehdr, ps: seq<Phdr>, c: Class)
    requires |m| == M && HasHeaders(m, h, ps, c)
    ensures var L := LayoutOf(m);
            && L == LayoutFor(c) && Headers(L, m) == |ps|
            && Low32(m, HEADER + L.e_phoff) == h.e_phoff
            && forall i :: 0 <= i < |ps| ==> SegmentAt(L, m, i) == SegmentOf(ps[i])
  {
    hide Holds, Low32, Low16, Encode, Table, EhdrFields, PhdrFields;
    FileHeaderIsRead(m, h, c);
    var L := LayoutFor(c);
    assert Low32(m, HEADER + L.e_phoff) == h.e_phoff by {
      ReadsPhoff(m, h, c);
    }
    forall i | 0 <= i < |ps| ensures SegmentAt(L, m, i) == SegmentOf(ps[i]) {
      TableEntry(m, HEADER + h.e_phoff, ps, c, i);
      EntryInPage(h, ps, c, i);
      ProgramHeaderIsRead(m, HeaderAt(L, m, i), ps[i], c);
    }
  }

  lemma ReadsPhoff(m: seq<byte>, h: Ehdr, c: Class)
    requires |m| == M && Holds(m, HEADER, Encode(EhdrFields(h, c)))
    ensures Low32(m, HEADER + LayoutFor(c).e_phoff) == h.e_phoff % M
  {
    hide Holds, Low32, Offset, Encode;
    EhdrOffsets(h, c);
    ReadsField(m, HEADER, EhdrFields(h, c), 5);
  }

  lemma EntryInPage(h: Ehdr, ps: seq<Phdr>, c: Class, i: nat)
    requires i < |ps| && h.e_phoff + |ps| * LayoutFor(c).phentsize <= PAGE
    ensures 0 <= HEADER + h.e_phoff + i * LayoutFor(c).phentsize < HEADER + PAGE
  {
    assert (i + 1) * LayoutFor(c).phentsize <= |ps| * LayoutFor(c).phentsize;
    assert (i + 1) * LayoutFor(c).phentsize == i * LayoutFor(c).phentsize + LayoutFor(c).phentsize;
  }

  // ---------- From the file to memory ----------

  /** The file on the disk has these bytes from offset `at` on. */
  ghost predicate FileHas(disk: Disk, at: nat, bs: seq<byte>) {
    forall i :: 0 <= i < |bs| ==> disk(FILE + at + i) == bs[i]
  }

  /** The file starts with the header, and the table of program headers is within its first page. */
  ghost predicate IsElf(disk: Disk, h: Ehdr, ps: seq<Phdr>, c: Class) {
    && FileHas(disk, 0, Encode(EhdrFields(h, c))) && FileHas(disk, h.e_phoff, Table(ps, c))
    && (c == Class64 <==> h.e_machine == 62) && h.e_machine < 0x1_0000
    && h.e_phnum == |ps| < 0x1_0000
    && h.e_phoff + |ps| * LayoutFor(c).phentsize <= PAGE
  }

  /** Each segment is plain, at the same place in a sector as in the file, and touches neither the header page nor a
      segment before it. */
  ghost predicate Loadable(ps: seq<Phdr>) {
    forall i :: 0 <= i < |ps| ==>
      var s := SegmentOf(ps[i]);
      && Plain(s) && s.paddr % SECTSIZE == s.offset % SECTSIZE
      && (forall a: u32 :: InHeader(a) ==> !Touches(s, a))
      && forall j, a: u32 :: 0 <= j < i && InSegment(SegmentOf(ps[j]), a) ==> !Touches(s, a)
  }

  lemma PageHolds(disk: Disk, m: seq<byte>, at: nat, bs: seq<byte>)
    requires |m| == M && FileHas(disk, at, bs) && at + |bs| <= PAGE
    requires forall a: u32 :: InHeader(a) ==> m[a] == disk(FILE + (a - HEADER))
    ensures Holds(m, HEADER + at, bs)
  {
    forall i | 0 <= i < |bs| ensures m[Wrap(HEADER + at + i)] == bs[i] {
      assert InHeader(HEADER + at + i);
      assert FILE + at + i == FILE + (HEADER + at + i - HEADER);
    }
  }

  lemma EhdrSize(h: Ehdr, c: Class)
    ensures |Encode(EhdrFields(h, c))| <= 64
  {
    var fs := EhdrFields(h, c);
    EncodedSize(fs);
    EhdrOffsets(h, c);
    assert Offset(fs, 11) == Offset(fs, 10) + 2 && Offset(fs, 12) == Offset(fs, 10) + 4;
    assert Offset(fs, 13) == Offset(fs, 10) + 6 && Offset(fs, 14) == Offset(fs, 10) + 8;
  }

  /** The first page of the file at HEADER holds the headers. */
  lemma PageHasHeaders(disk: Disk, m: seq<byte>, h: Ehdr, ps: seq<Phdr>, c: Class)
    requires |m| == M && IsElf(disk, h, ps, c)
    requires forall a: u32 :: InHeader(a) ==> m[a] == disk(FILE + (a - HEADER))
    ensures HasHeaders(m, h, ps, c)
  {
    hide Holds, FileHas, Encode, Table, EhdrFields;
    EhdrSize(h, c);
    TableSize(ps, c);
    PageHolds(disk, m, 0, Encode(EhdrFields(h, c)));
    PageHolds(disk, m, h.e_phoff, Table(ps, c));
  }

  lemma LoadableIsSafe(m: seq<byte>, h: Ehdr, ps: seq<Phdr>, c: Class)
    requires |m| == M && HasHeaders(m, h, ps, c) && Loadable(ps)
    ensures HeaderSafe(LayoutOf(m), m) && Separate(LayoutOf(m), m)
  {
    hide Holds, Low32, Low16, SegmentAt, SegmentOf, Plain, Touches, Table, Encode, EhdrFields;
    HeadersAreRead(m, h, ps, c);
    hide HasHeaders;
  }

  /** The bytes of the file that the program header names are at its address, and zeroes behind them. */
  ghost predicate IsLoaded(disk: Disk, m: seq<byte>, p: Phdr)
    requires |m| == M
  {
    var offset, paddr, filesz, memsz := p.p_offset % M, p.p_paddr % M, p.p_filesz % M, p.p_memsz % M;
    && paddr + memsz <= M
    && forall a :: paddr <= a < paddr + memsz ==>
         m[a] == if a < paddr + filesz then disk(FILE + offset + (a - paddr)) else 0
  }

  /** From the bytes of a file to memory: load_kernel loads every segment that the program headers of the file describe,
      whatever was in memory, and finds the entry point of the file header. */
  lemma ElfFileIsLoaded(disk: Disk, m: seq<byte>, mainarg: u32, h: Ehdr, ps: seq<Phdr>, c: Class)
    returns (m': seq<byte>)
    requires |m| == M && Ends(Wrap(mainarg + 1024)) && IsElf(disk, h, ps, c) && Loadable(ps)
    ensures |m'| == M && KernelLoaded(disk, m, mainarg) == Some(m') && Low32(m', HEADER + 24) == h.e_entry % M
    ensures forall i :: 0 <= i < |ps| ==> IsLoaded(disk, m', ps[i])
  {
    hide Holds, Low32, Low16, SegmentAt, Touches, Table, Encode, EhdrFields, IsElf, HasHeaders;
    hide KernelLoaded, WithHeader;
    var hm := WithHeader(disk, m, mainarg);
    forall a: u32 | InHeader(a) ensures hm[a] == disk(FILE + (a - HEADER)) {
      HeaderAndArguments(disk, m, mainarg, a);
    }
    PageHasHeaders(disk, hm, h, ps, c);
    HeadersAreRead(hm, h, ps, c);
    LoadableIsSafe(hm, h, ps, c);
    SeparateIsRight(LayoutOf(hm), hm);
    m' := KernelInPlace(disk, m, mainarg);
    PageHasHeaders(disk, m', h, ps, c);
    EntryIsRead(m', h, ps, c);
    forall i | 0 <= i < |ps| ensures IsLoaded(disk, m', ps[i]) {
      assert InPlace(disk, m', SegmentAt(LayoutOf(hm), hm, i));
    }
  }

  lemma EntryIsRead(m: seq<byte>, h: Ehdr, ps: seq<Phdr>, c: Class)
    requires |m| == M && HasHeaders(m, h, ps, c)
    ensures Low32(m, HEADER + 24) == h.e_entry % M
  {
    hide Holds, Low32, Low16;
    FileHeaderIsRead(m, h, c);
  }
}
