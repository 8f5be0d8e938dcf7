/** The loader of bootmain.c: whole sectors are copied from the disk over a 32-bit memory that also holds the header
    that says what to copy. */
module BootLoader {
  import opened Prelude

  const SECTSIZE: int := 512
  const ARGSIZE: int := 1024

  /** The number of addresses, and of 32-bit values. */
  const M: int := 0x1_0000_0000

  type u32 = x: int | 0 <= x < M

  /** Byte k of what the controller returns for sector s is number SECTSIZE * s + k. */
  type Disk = nat -> byte

  function Wrap(x: int): u32 { x % M }

  /** From `x` up to `y`, going around the end of memory. */
  function Dist(x: u32, y: u32): u32 { if y >= x then y - x else y + M - x }

  function SectorStart(a: u32): u32 { a - a % SECTSIZE }

  /** The quotient of C, which rounds toward zero. */
  function SectorsIn(offset: int): int { if offset >= 0 then offset / SECTSIZE else -(-offset / SECTSIZE) }

  function FirstSector(offset: int): u32 { Wrap(SectorsIn(offset) + ARGSIZE / SECTSIZE + 1) }

  // ---------- copy_from_disk ----------

  /** The memory after the sector `sect` was read to `buf`. */
  function Sector(disk: Disk, m: seq<byte>, buf: u32, sect: u32): (r: seq<byte>)
    requires |m| == M
    ensures |r| == M
  {
    seq(M, a requires 0 <= a < M => if SectorStart(a) == buf then disk(SECTSIZE * sect + a % SECTSIZE) else m[a])
  }

  /** The loop over the sectors ends: `cur` cannot step over the end of memory and start again below `ed`. */
  predicate Ends(ed: u32) { ed <= M - SECTSIZE }

  function CopySectors(disk: Disk, m: seq<byte>, cur: u32, ed: u32, sect: u32): (r: seq<byte>)
    requires |m| == M && cur % SECTSIZE == 0 && Ends(ed)
    ensures |r| == M
    decreases ed - cur
  {
    if cur < ed then CopySectors(disk, Sector(disk, m, cur, sect), Wrap(cur + SECTSIZE), ed, Wrap(sect + 1)) else m
  }

  /** What is at address `a` after the sectors from `sect` on were read to `lo` up to `ed`, rounded up to a whole
      sector. */
  function CopiedByte(disk: Disk, lo: u32, ed: u32, sect: u32, a: u32, before: byte): byte {
    if lo <= a && SectorStart(a) < ed then disk(SECTSIZE * Wrap(sect + (a - lo) / SECTSIZE) + a % SECTSIZE) else before
  }

  lemma CopyFirst(disk: Disk, lo: u32, ed: u32, sect: u32, a: u32, before: byte)
    requires lo % SECTSIZE == 0 && lo < ed && Ends(ed)
    ensures CopiedByte(disk, lo, ed, sect, a, before) ==
            CopiedByte(disk, lo + SECTSIZE, ed, Wrap(sect + 1), a,
                       if SectorStart(a) == lo then disk(SECTSIZE * sect + a % SECTSIZE) else before)
  {
    if lo <= a < lo + SECTSIZE {
      assert (a - lo) / SECTSIZE == 0 && SectorStart(a) == lo;
    } else if lo <= a {
      var q := (a - lo) / SECTSIZE;
      assert (a - (lo + SECTSIZE)) / SECTSIZE == q - 1 && SectorStart(a) != lo;
      WrapAdd(sect + 1, q - 1);
    }
  }

  lemma NextStart(cur: u32, ed: u32)
    requires cur % SECTSIZE == 0 && cur < ed && Ends(ed)
    ensures Wrap(cur + SECTSIZE) == cur + SECTSIZE && (cur + SECTSIZE) % SECTSIZE == 0
  {
  }

  lemma WrapAdd(x: int, y: int)
    ensures Wrap(Wrap(x) + y) == Wrap(x + y)
  {
  }

  /** Reading sector after sector puts the disk's bytes, in order, over all the sectors that [lo, ed) touches. */
  lemma {:induction false} CopySectorsBytes(disk: Disk, m: seq<byte>, lo: u32, ed: u32, sect: u32, a: u32)
    requires |m| == M && lo % SECTSIZE == 0 && Ends(ed)
    ensures CopySectors(disk, m, lo, ed, sect)[a] == CopiedByte(disk, lo, ed, sect, a, m[a])
    decreases ed - lo
  {
    hide Wrap;
    if lo >= ed {
      assert CopiedByte(disk, lo, ed, sect, a, m[a]) == m[a];
    } else {
      NextStart(lo, ed);
      CopyFirst(disk, lo, ed, sect, a, m[a]);
      var m1 := Sector(disk, m, lo, sect);
      assert m1[a] == if SectorStart(a) == lo then disk(SECTSIZE * sect + a % SECTSIZE) else m[a];
      CopySectorsBytes(disk, m1, lo + SECTSIZE, ed, Wrap(sect + 1), a);
    }
  }

  /** The memory after copy_from_disk(buf, nbytes, offset). */
  function Copied(disk: Disk, m: seq<byte>, buf: u32, nbytes: int, offset: int): (r: seq<byte>)
    requires |m| == M && Ends(Wrap(buf + nbytes))
    ensures |r| == M
  {
    CopySectors(disk, m, SectorStart(buf), Wrap(buf + nbytes), FirstSector(offset))
  }

  // ---------- load_program ----------

  /** The arguments of load_program. */
  datatype Segment = Segment(filesz: u32, memsz: u32, paddr: u32, offset: u32)

  /** The conversion of a uint32_t argument to an int parameter. */
  function ToInt(x: u32): int { if x < M / 2 then x else x - M }

  predicate SegmentEnds(s: Segment) { Ends(Wrap(s.paddr + s.filesz)) }

  /** The bss loop counts from filesz to memsz, around if memsz is smaller. */
  function Zeroed(m: seq<byte>, start: u32, count: u32): (r: seq<byte>)
    requires |m| == M
    ensures |r| == M
  {
    seq(M, a requires 0 <= a < M => if Dist(start, a) < count then 0 else m[a])
  }

  lemma ZeroNone(m: seq<byte>, start: u32)
    requires |m| == M
    ensures Zeroed(m, start, 0) == m
  {
  }

  lemma ZeroOneMore(m: seq<byte>, start: u32, count: u32)
    requires |m| == M && count + 1 < M
    ensures Zeroed(m, start, count)[Wrap(start + count) := 0] == Zeroed(m, start, count + 1)
  {
  }

  lemma StepCloser(from: u32, i: u32, to: u32)
    requires i != to && Dist(from, i) + Dist(i, to) == Dist(from, to)
    ensures Dist(from, Wrap(i + 1)) == Dist(from, i) + 1 && Dist(Wrap(i + 1), to) == Dist(i, to) - 1
  {
  }

  function Loaded(disk: Disk, m: seq<byte>, s: Segment): (r: seq<byte>)
    requires |m| == M && SegmentEnds(s)
    ensures |r| == M
  {
    var copied := Copied(disk, m, s.paddr, ToInt(s.filesz), ToInt(s.offset));
    Zeroed(copied, Wrap(s.paddr + s.filesz), Dist(s.filesz, s.memsz))
  }

  // ---------- load_elf32, load_elf64 ----------

  /** Where the fields of an ELF header and of its program headers are (elf.h), for one word size. */
  datatype Layout = Layout(e_phoff: nat, e_phnum: nat, phentsize: nat,
                           p_offset: nat, p_paddr: nat, p_filesz: nat, p_memsz: nat)

  const ELF32: Layout := Layout(28, 44, 32, 4, 12, 16, 20)
  const ELF64: Layout := Layout(32, 56, 56, 8, 24, 32, 40)

  /** The header is read from where load_kernel put it, one page. */
  const HEADER: u32 := 0x8000
  const PAGE: u32 := 4096

  function Low16(m: seq<byte>, a: int): (r: nat)
    requires |m| == M
    ensures r < 0x1_0000
  {
    var low: int, high: int := m[Wrap(a)], m[Wrap(a + 1)];
    low + 0x100 * high
  }

  /** The low 32 bits of a little-endian field; the casts drop the others. */
  function Low32(m: seq<byte>, a: int): (r: u32)
    requires |m| == M
  {
    Low16(m, a) + 0x1_0000 * Low16(m, a + 2)
  }

  function ReadSegment(L: Layout, m: seq<byte>, ph: u32): Segment
    requires |m| == M
  {
    Segment(Low32(m, ph + L.p_filesz), Low32(m, ph + L.p_memsz), Low32(m, ph + L.p_paddr), Low32(m, ph + L.p_offset))
  }

  /** The loop over the program headers from number `i` at `ph` on; headers and their number are read from the memory as
      it is then. None if a copy does not end. */
  function LoadSegments(L: Layout, disk: Disk, m: seq<byte>, ph: u32, i: nat): (r: Option<seq<byte>>)
    requires |m| == M
    ensures r.Some? ==> |r.value| == M
    decreases 0x1_0000 - i
  {
    if i >= Low16(m, HEADER + L.e_phnum) then Some(m) else
    var s := ReadSegment(L, m, ph);
    if SegmentEnds(s) then LoadSegments(L, disk, Loaded(disk, m, s), Wrap(ph + L.phentsize), i + 1) else None
  }

  function FirstHeader(L: Layout, m: seq<byte>): u32
    requires |m| == M
  {
    Wrap(HEADER + Low32(m, HEADER + L.e_phoff))
  }

  // ---------- load_kernel ----------

  const EM_X86_64: nat := 62

  function LayoutOf(m: seq<byte>): Layout
    requires |m| == M
  {
    if Low16(m, HEADER + 18) == EM_X86_64 then ELF64 else ELF32
  }

  /** The arguments, then the first page of the file. */
  function WithHeader(disk: Disk, m: seq<byte>, mainarg: u32): (r: seq<byte>)
    requires |m| == M && Ends(Wrap(mainarg + 1024))
    ensures |r| == M
  {
    Copied(disk, Copied(disk, m, mainarg, 1024, -1024), HEADER, 4096, 0)
  }

  function KernelLoaded(disk: Disk, m: seq<byte>, mainarg: u32): Option<seq<byte>>
    requires |m| == M && Ends(Wrap(mainarg + 1024))
  {
    var h := WithHeader(disk, m, mainarg);
    LoadSegments(LayoutOf(h), disk, h, FirstHeader(LayoutOf(h), h), 0)
  }

  class Machine {
    const disk: Disk
    const mem: array<byte>

    ghost predicate Valid() { mem.Length == M }

    constructor (disk: Disk, mem: array<byte>)
      requires mem.Length == M
      ensures Valid() && this.disk == disk && this.mem == mem
    {
      this.disk, this.mem := disk, mem;
    }

    method ReadDisk(buf: u32, sect: u32)
      requires Valid() && buf % SECTSIZE == 0
      modifies mem
      ensures mem[..] == Sector(disk, old(mem[..]), buf, sect)
    {
      var i := 0;
      while i < SECTSIZE / 4
        invariant 0 <= i <= SECTSIZE / 4
        invariant forall a: u32 ::
                    mem[a] == if buf <= a < buf + 4 * i then disk(SECTSIZE * sect + (a - buf)) else old(mem[a])
      {
        var k := 4 * i;
        mem[buf + k] := disk(SECTSIZE * sect + k);
        mem[buf + k + 1] := disk(SECTSIZE * sect + k + 1);
        mem[buf + k + 2] := disk(SECTSIZE * sect + k + 2);
        mem[buf + k + 3] := disk(SECTSIZE * sect + k + 3);
        i := i + 1;
      }
    }

    method CopyFromDisk(buf: u32, nbytes: int, offset: int)
      requires Valid() && Ends(Wrap(buf + nbytes))
      modifies mem
      ensures mem[..] == Copied(disk, old(mem[..]), buf, nbytes, offset)
    {
      hide Sector, Wrap;
      var cur: int := SectorStart(buf);
      var ed := Wrap(buf + nbytes);
      var sect: int := FirstSector(offset);
      while cur < ed
        invariant 0 <= cur < M && cur % SECTSIZE == 0 && 0 <= sect < M
        invariant CopySectors(disk, mem[..], cur, ed, sect) == Copied(disk, old(mem[..]), buf, nbytes, offset)
      {
        NextStart(cur, ed);
        ReadDisk(cur, sect);
        cur, sect := Wrap(cur + SECTSIZE), Wrap(sect + 1);
      }
    }

    method LoadProgram(s: Segment)
      requires Valid() && SegmentEnds(s)
      modifies mem
      ensures mem[..] == Loaded(disk, old(mem[..]), s)
    {
      CopyFromDisk(s.paddr, ToInt(s.filesz), ToInt(s.offset));
      ZeroBss(Wrap(s.paddr + s.filesz), s.filesz, s.memsz);
    }

    /** The second half of load_program. */
    method ZeroBss(start: u32, from: u32, to: u32)
      requires Valid()
      modifies mem
      ensures mem[..] == Zeroed(old(mem[..]), start, Dist(from, to))
    {
      ZeroNone(mem[..], start);
      hide Zeroed;
      var bss: int, i: int := start, from;
      while i != to
        invariant 0 <= i < M && 0 <= bss < M && bss == Wrap(start + Dist(from, i))
        invariant Dist(from, i) + Dist(i, to) == Dist(from, to)
        invariant mem[..] == Zeroed(old(mem[..]), start, Dist(from, i))
        decreases Dist(i, to)
      {
        ZeroOneMore(old(mem[..]), start, Dist(from, i));
        StepCloser(from, i, to);
        WrapAdd(start + Dist(from, i), 1);
        ghost var before := mem[..];
        mem[bss] := 0;
        assert mem[..] == before[bss := 0];
        bss := Wrap(bss + 1);
        i := Wrap(i + 1);
      }
    }

    method LoadElf(L: Layout)
      requires Valid() && LoadSegments(L, disk, mem[..], FirstHeader(L, mem[..]), 0).Some?
      modifies mem
      ensures Some(mem[..]) == LoadSegments(L, disk, old(mem[..]), FirstHeader(L, old(mem[..])), 0)
    {
      hide Low16, ReadSegment, Loaded, Wrap;
      var ph: int := FirstHeader(L, mem[..]);
      var i := 0;
      while i < Low16(mem[..], HEADER + L.e_phnum)
        invariant 0 <= ph < M
        invariant LoadSegments(L, disk, mem[..], ph, i) ==
                  LoadSegments(L, disk, old(mem[..]), FirstHeader(L, old(mem[..])), 0)
        decreases 0x1_0000 - i
      {
        LoadProgram(ReadSegment(L, mem[..], ph));
        ph := Wrap(ph + L.phentsize);
        i := i + 1;
      }
    }

    /** Returns the address that it would jump to. */
    method LoadKernel(is_ap: bool, mainarg: u32) returns (entry: u32)
      requires Valid() && (!is_ap ==> Ends(Wrap(mainarg + 1024)) && KernelLoaded(disk, mem[..], mainarg).Some?)
      modifies mem
      ensures Some(mem[..]) == if is_ap then Some(old(mem[..])) else KernelLoaded(disk, old(mem[..]), mainarg)
      ensures entry == Low32(mem[..], HEADER + 24)
    {
      hide Low16, Low32, Copied, LoadSegments;
      if !is_ap {
        CopyFromDisk(mainarg, 1024, -1024);
        CopyFromDisk(HEADER, 4096, 0);
        if Low16(mem[..], HEADER + 18) == EM_X86_64 {
          LoadElf(ELF64);
        } else {
          LoadElf(ELF32);
        }
      }
      entry := Low32(mem[..], HEADER + 24);
    }
  }

  // ---------- When copying ends ----------

  /** `cur` after n rounds of the loop. */
  function CurAfter(cur: u32, n: nat): u32 { if n == 0 then cur else Wrap(CurAfter(cur, n - 1) + SECTSIZE) }

  lemma {:induction false} CurIsAligned(cur: u32, n: nat)
    requires cur % SECTSIZE == 0
    ensures CurAfter(cur, n) % SECTSIZE == 0
    decreases n
  {
    if n > 0 {
      CurIsAligned(cur, n - 1);
      StepIsAligned(CurAfter(cur, n - 1));
    }
  }

  lemma StepIsAligned(cur: u32)
    requires cur % SECTSIZE == 0
    ensures Wrap(cur + SECTSIZE) == (if cur == M - SECTSIZE then 0 else cur + SECTSIZE)
    ensures Wrap(cur + SECTSIZE) % SECTSIZE == 0
  {
    assert cur <= M - SECTSIZE;
  }

  /** The rounds that it takes to get to the last sector. */
  lemma {:induction false} ReachesLastSector(cur: u32) returns (n: nat)
    requires cur % SECTSIZE == 0
    ensures CurAfter(cur, n) == M - SECTSIZE
    decreases M - cur
  {
    if cur == M - SECTSIZE {
      n := 0;
    } else {
      StepIsAligned(cur);
      var k := ReachesLastSector(cur + SECTSIZE);
      n := k + 1;
      OneMoreRound(cur, k);
    }
  }

  lemma {:induction false} OneMoreRound(cur: u32, n: nat)
    ensures CurAfter(Wrap(cur + SECTSIZE), n) == CurAfter(cur, n + 1)
    decreases n
  {
    if n > 0 {
      OneMoreRound(cur, n - 1);
    }
  }

  /** The copying loop gets to a `cur` that is not below `ed` exactly if `ed` is not in the last sector of the memory;
      otherwise `cur` steps from the last sector to address 0 and starts again. */
  lemma CopyEndsExactly(cur: u32, ed: u32)
    requires cur % SECTSIZE == 0
    ensures (exists n: nat :: CurAfter(cur, n) >= ed) <==> Ends(ed)
  {
    hide CurAfter;
    if Ends(ed) {
      var n := ReachesLastSector(cur);
      assert CurAfter(cur, n) >= ed;
    } else {
      forall n: nat ensures CurAfter(cur, n) < ed {
        CurIsAligned(cur, n);
      }
    }
  }

  // ---------- One segment ----------

  /** Where the file starts on the disk: behind the boot sector and the arguments. */
  const FILE: nat := SECTSIZE + ARGSIZE

  /** Nothing wraps around for this segment, and its copy ends. */
  predicate Plain(s: Segment) {
    s.filesz <= s.memsz && s.paddr + s.memsz <= M && s.paddr + s.filesz <= M - SECTSIZE && s.offset < M / 2
  }

  /** Where a byte comes from: it is as before, zero, or a byte of the disk. */
  datatype Source = Kept | Zero | FromDisk(index: nat)

  function Value(disk: Disk, src: Source, before: byte): byte {
    match src
    case Kept => before
    case Zero => 0
    case FromDisk(k) => disk(k)
  }

  /** One byte after load_program: the bss is zero; the sectors that the file part touches hold the file's sectors from
      the one of `offset` on; nothing else changes. */
  function SourceOf(s: Segment, a: u32): Source {
    if s.paddr + s.filesz <= a < s.paddr + s.memsz then Zero
    else if SectorStart(s.paddr) <= a && SectorStart(a) < s.paddr + s.filesz then
      FromDisk(FILE + s.offset - s.offset % SECTSIZE + (a - SectorStart(s.paddr)))
    else Kept
  }

  lemma LoadedByte(disk: Disk, m: seq<byte>, s: Segment, a: u32)
    requires |m| == M && Plain(s)
    ensures SegmentEnds(s)
    ensures Loaded(disk, m, s)[a] == Value(disk, SourceOf(s, a), m[a])
  {
    var ed := s.paddr + s.filesz;
    assert Wrap(ed) == ed && Wrap(s.paddr + ToInt(s.filesz)) == ed;
    CopySectorsBytes(disk, m, SectorStart(s.paddr), ed, FirstSector(s.offset), a);
    if SectorStart(s.paddr) <= a {
      SectorNumber(s, a);
    }
  }

  lemma SectorNumber(s: Segment, a: u32)
    requires Plain(s) && SectorStart(s.paddr) <= a
    ensures SECTSIZE * Wrap(FirstSector(s.offset) + (a - SectorStart(s.paddr)) / SECTSIZE) + a % SECTSIZE ==
            FILE + s.offset - s.offset % SECTSIZE + (a - SectorStart(s.paddr))
  {
    var q := s.offset / SECTSIZE;
    assert FirstSector(s.offset) == q + 3;
    var d := (a - SectorStart(s.paddr)) / SECTSIZE;
    assert Wrap(q + 3 + d) == q + 3 + d;
    assert a - SectorStart(s.paddr) == SECTSIZE * d + a % SECTSIZE;
  }

  /** The segment is in memory as the program header says: file bytes first, then zeroes. */
  ghost predicate InPlace(disk: Disk, m: seq<byte>, s: Segment)
    requires |m| == M && Plain(s)
  {
    forall a :: s.paddr <= a < s.paddr + s.memsz ==>
      m[a] == if a < s.paddr + s.filesz then disk(FILE + s.offset + (a - s.paddr)) else 0
  }

  /** Whole sectors are copied to whole sectors, so the bytes of a segment arrive at their addresses, whatever is on the
      disk, exactly if its address and its offset are at the same place in a sector. */
  lemma CongruenceDecides(m: seq<byte>, s: Segment)
    requires |m| == M && Plain(s) && s.filesz > 0
    ensures SegmentEnds(s)
    ensures (forall disk: Disk :: InPlace(disk, Loaded(disk, m, s), s)) <==> s.paddr % SECTSIZE == s.offset % SECTSIZE
  {
    if s.paddr % SECTSIZE == s.offset % SECTSIZE {
      forall disk: Disk ensures SegmentEnds(s) && InPlace(disk, Loaded(disk, m, s), s) {
        LoadedInPlace(disk, m, s);
      }
    } else {
      var disk: Disk := x => if x == FILE + s.offset then 1 else 0;
      LoadedByte(disk, m, s, s.paddr);
      assert !InPlace(disk, Loaded(disk, m, s), s);
    }
  }

  lemma LoadedInPlace(disk: Disk, m: seq<byte>, s: Segment)
    requires |m| == M && Plain(s) && s.paddr % SECTSIZE == s.offset % SECTSIZE
    ensures SegmentEnds(s) && InPlace(disk, Loaded(disk, m, s), s)
  {
    LoadedByte(disk, m, s, s.paddr);
    forall a | s.paddr <= a < s.paddr + s.memsz
      ensures Loaded(disk, m, s)[a] == if a < s.paddr + s.filesz then disk(FILE + s.offset + (a - s.paddr)) else 0
    {
      LoadedByte(disk, m, s, a);
    }
  }

  // ---------- All segments ----------

  /** The addresses that loading the segment writes, rounded to whole sectors. */
  predicate Touches(s: Segment, a: u32) {
    && SectorStart(s.paddr) <= a
    && (SectorStart(a) < s.paddr + s.filesz || a < s.paddr + s.memsz)
  }

  predicate InSegment(s: Segment, a: u32) { s.paddr <= a < s.paddr + s.memsz }

  predicate InHeader(a: u32) { HEADER <= a < HEADER + PAGE }

  function HeaderAt(L: Layout, m: seq<byte>, i: nat): u32
    requires |m| == M
  {
    Wrap(HEADER + Low32(m, HEADER + L.e_phoff) + i * L.phentsize)
  }

  function Headers(L: Layout, m: seq<byte>): nat
    requires |m| == M
  {
    Low16(m, HEADER + L.e_phnum)
  }

  function SegmentAt(L: Layout, m: seq<byte>, i: nat): Segment
    requires |m| == M
  {
    ReadSegment(L, m, HeaderAt(L, m, i))
  }

  /** The header is in its page with all program headers, and every segment is plain and does not touch the page. */
  ghost predicate HeaderSafe(L: Layout, m: seq<byte>)
    requires |m| == M
  {
    && Low32(m, HEADER + L.e_phoff) + Headers(L, m) * L.phentsize <= PAGE
    && forall i :: 0 <= i < Headers(L, m) ==>
         Plain(SegmentAt(L, m, i)) && forall a: u32 :: InHeader(a) ==> !Touches(SegmentAt(L, m, i), a)
  }

  ghost predicate SameHeader(m: seq<byte>, m': seq<byte>)
    requires |m| == M && |m'| == M
  {
    forall a: u32 :: InHeader(a) ==> m'[a] == m[a]
  }

  predicate Known(L: Layout) { L == ELF32 || L == ELF64 }

  /** What is read from an unchanged header page does not change. */
  lemma SameHeaderReads(L: Layout, m: seq<byte>, m': seq<byte>, i: nat)
    requires |m| == M && |m'| == M && SameHeader(m, m') && Known(L)
    requires Low32(m, HEADER + L.e_phoff) + Headers(L, m) * L.phentsize <= PAGE
    ensures Headers(L, m') == Headers(L, m) && HeaderAt(L, m', i) == HeaderAt(L, m, i)
    ensures i < Headers(L, m) ==> SegmentAt(L, m', i) == SegmentAt(L, m, i)
  {
    hide Low32, Low16, SameHeader;
    SameLow32(m, m', HEADER + L.e_phoff);
    SameLow16(m, m', HEADER + L.e_phnum);
    if i < Headers(L, m) {
      HeaderInPage(L, m, i);
      hide HeaderAt;
      var ph := HeaderAt(L, m, i);
      SameLow32(m, m', ph + L.p_filesz);
      SameLow32(m, m', ph + L.p_memsz);
      SameLow32(m, m', ph + L.p_paddr);
      SameLow32(m, m', ph + L.p_offset);
    }
  }

  lemma HeaderInPage(L: Layout, m: seq<byte>, i: nat)
    requires |m| == M && Known(L) && i < Headers(L, m)
    requires Low32(m, HEADER + L.e_phoff) + Headers(L, m) * L.phentsize <= PAGE
    ensures HEADER <= HeaderAt(L, m, i) && HeaderAt(L, m, i) + L.phentsize <= HEADER + PAGE
  {
    hide Low32, Low16;
    assert (i + 1) * L.phentsize <= Headers(L, m) * L.phentsize;
    assert (i + 1) * L.phentsize == i * L.phentsize + L.phentsize;
  }

  lemma SameLow16(m: seq<byte>, m': seq<byte>, a: int)
    requires |m| == M && |m'| == M && SameHeader(m, m') && HEADER <= a && a + 2 <= HEADER + PAGE
    ensures Low16(m', a) == Low16(m, a)
  {
    assert Wrap(a) == a && Wrap(a + 1) == a + 1;
  }

  lemma SameLow32(m: seq<byte>, m': seq<byte>, a: int)
    requires |m| == M && |m'| == M && SameHeader(m, m') && HEADER <= a && a + 4 <= HEADER + PAGE
    ensures Low32(m', a) == Low32(m, a)
  {
    SameLow16(m, m', a);
    SameLow16(m, m', a + 2);
  }

  lemma TouchesIsSource(s: Segment, a: u32)
    requires Plain(s)
    ensures Touches(s, a) <==> SourceOf(s, a) != Kept
  {
  }

  /** Loading a segment changes nothing but what it touches. */
  lemma LoadedElsewhere(disk: Disk, m: seq<byte>, s: Segment)
    requires |m| == M && Plain(s)
    ensures SegmentEnds(s) && forall a: u32 :: !Touches(s, a) ==> Loaded(disk, m, s)[a] == m[a]
  {
    LoadedByte(disk, m, s, s.paddr);
    forall a: u32 | !Touches(s, a) ensures Loaded(disk, m, s)[a] == m[a] {
      LoadedByte(disk, m, s, a);
      TouchesIsSource(s, a);
    }
  }

  /** Where the byte at `a` comes from after segments i, i + 1, ...: the last one that touches it decides. */
  ghost function LastSource(L: Layout, h: seq<byte>, i: nat, a: u32): Source
    requires |h| == M
    decreases Headers(L, h) - i
  {
    if i >= Headers(L, h) then Kept
    else if LastSource(L, h, i + 1, a) != Kept then LastSource(L, h, i + 1, a)
    else SourceOf(SegmentAt(L, h, i), a)
  }

  /** No segment from number i on touches the address. */
  ghost predicate Untouched(L: Layout, h: seq<byte>, i: nat, a: u32)
    requires |h| == M
  {
    forall j :: i <= j < Headers(L, h) ==> !Touches(SegmentAt(L, h, j), a)
  }

  lemma {:induction false} UntouchedIsKept(L: Layout, h: seq<byte>, i: nat, a: u32)
    requires |h| == M && HeaderSafe(L, h) && i <= Headers(L, h)
    ensures Untouched(L, h, i, a) <==> LastSource(L, h, i, a) == Kept
    decreases Headers(L, h) - i
  {
    hide Low16, Low32, SegmentAt, Touches, SourceOf, Plain;
    if i < Headers(L, h) {
      UntouchedIsKept(L, h, i + 1, a);
      TouchesIsSource(SegmentAt(L, h, i), a);
    }
  }

  lemma LoadKeepsHeader(L: Layout, disk: Disk, h: seq<byte>, m: seq<byte>, i: nat)
    requires |h| == M && |m| == M && HeaderSafe(L, h) && SameHeader(h, m) && i < Headers(L, h)
    ensures SegmentEnds(SegmentAt(L, h, i)) && SameHeader(h, Loaded(disk, m, SegmentAt(L, h, i)))
  {
    hide Low16, Low32, Touches, SegmentAt, Plain, HeaderAt, Loaded;
    LoadedElsewhere(disk, m, SegmentAt(L, h, i));
  }

  /** Every byte of the memory after segments i, i + 1, ... were loaded, with the header of `h` in place throughout. */
  lemma {:induction false} FinalBytes(L: Layout, disk: Disk, h: seq<byte>, m: seq<byte>, i: nat) returns (m': seq<byte>)
    requires |h| == M && |m| == M && Known(L) && HeaderSafe(L, h) && SameHeader(h, m) && i <= Headers(L, h)
    ensures |m'| == M && LoadSegments(L, disk, m, HeaderAt(L, h, i), i) == Some(m')
    ensures forall a: u32 :: m'[a] == Value(disk, LastSource(L, h, i, a), m[a])
    decreases Headers(L, h) - i
  {
    hide Low16, Low32, Loaded, SourceOf;
    SameHeaderReads(L, h, m, i);
    if i == Headers(L, h) {
      m' := m;
    } else {
      var s := SegmentAt(L, h, i);
      LoadKeepsHeader(L, disk, h, m, i);
      var m1 := Loaded(disk, m, s);
      NextHeader(L, h, i);
      m' := FinalBytes(L, disk, h, m1, i + 1);
      forall a: u32 ensures m'[a] == Value(disk, LastSource(L, h, i, a), m[a]) {
        LoadedByte(disk, m, s, a);
      }
    }
  }

  lemma NextHeader(L: Layout, h: seq<byte>, i: nat)
    requires |h| == M
    ensures Wrap(HeaderAt(L, h, i) + L.phentsize) == HeaderAt(L, h, i + 1)
  {
    WrapAdd(HEADER + Low32(h, HEADER + L.e_phoff) + i * L.phentsize, L.phentsize);
    assert (i + 1) * L.phentsize == i * L.phentsize + L.phentsize;
  }

  /** Where the byte at `a` of the segment should come from. */
  function Wanted(s: Segment, a: u32): Source
    requires InSegment(s, a)
  {
    if a < s.paddr + s.filesz then FromDisk(FILE + s.offset + (a - s.paddr)) else Zero
  }

  /** Every byte of every segment comes from the right place in the end: the last segment that touches it is the segment
      itself, or another that puts the same byte there. */
  ghost predicate SourcesRight(L: Layout, h: seq<byte>)
    requires |h| == M
  {
    forall i, a: u32 :: 0 <= i < Headers(L, h) && InSegment(SegmentAt(L, h, i), a) ==>
      LastSource(L, h, 0, a) == Wanted(SegmentAt(L, h, i), a)
  }

  /** All segments are in place after loading. */
  ghost predicate AllInPlace(L: Layout, disk: Disk, m: seq<byte>)
    requires |m| == M && HeaderSafe(L, m)
  {
    var r := LoadSegments(L, disk, m, FirstHeader(L, m), 0);
    r.Some? && forall i :: 0 <= i < Headers(L, m) ==> InPlace(disk, r.value, SegmentAt(L, m, i))
  }

  /** Loading all program headers ends with the header and everything else that no segment touches as it was, and if all
      sources are right with every segment in place. */
  lemma AllSegmentsInPlace(L: Layout, disk: Disk, m: seq<byte>) returns (m': seq<byte>)
    requires |m| == M && Known(L) && HeaderSafe(L, m)
    ensures |m'| == M && LoadSegments(L, disk, m, FirstHeader(L, m), 0) == Some(m')
    ensures SameHeader(m, m')
    ensures forall a: u32 :: Untouched(L, m, 0, a) ==> m'[a] == m[a]
    ensures SourcesRight(L, m) ==> AllInPlace(L, disk, m)
  {
    hide Low16, Low32, Touches, SegmentAt, SourceOf, LastSource, LoadSegments;
    m' := FinalBytes(L, disk, m, m, 0);
    forall a: u32 | Untouched(L, m, 0, a) ensures m'[a] == m[a] {
      UntouchedIsKept(L, m, 0, a);
    }
    forall i | SourcesRight(L, m) && 0 <= i < Headers(L, m) ensures InPlace(disk, m', SegmentAt(L, m, i)) {
      var s := SegmentAt(L, m, i);
      forall a | s.paddr <= a < s.paddr + s.memsz
        ensures m'[a] == if a < s.paddr + s.filesz then disk(FILE + s.offset + (a - s.paddr)) else 0
      {
        assert InSegment(SegmentAt(L, m, i), a);
      }
    }
  }

  /** A byte that comes from the wrong place is wrong for some disk. */
  lemma WrongSource(L: Layout, m: seq<byte>, i: nat, a: u32) returns (disk: Disk)
    requires |m| == M && Known(L) && HeaderSafe(L, m) && i < Headers(L, m) && InSegment(SegmentAt(L, m, i), a)
    requires LastSource(L, m, 0, a) != Wanted(SegmentAt(L, m, i), a)
    ensures !AllInPlace(L, disk, m)
  {
    hide Low16, Low32, Touches, Plain, SegmentAt, SourceOf, LastSource, LoadSegments;
    var s, last := SegmentAt(L, m, i), LastSource(L, m, 0, a);
    var wanted := Wanted(s, a);
    disk := k => if last == FromDisk(k) then 1 else if wanted == FromDisk(k) then 2 else 0;
    var m' := FinalBytes(L, disk, m, m, 0);
    InSegmentIsTouched(s, a);
    UntouchedIsKept(L, m, 0, a);
    assert m'[a] != Value(disk, wanted, 0);
  }

  lemma InSegmentIsTouched(s: Segment, a: u32)
    requires Plain(s) && InSegment(s, a)
    ensures Touches(s, a)
  {
  }

  /** The segments end up in place, whatever is on the disk, exactly if every byte of every segment comes from the right
      place in the end; the program headers decide it. */
  lemma SegmentsInPlaceExactly(L: Layout, m: seq<byte>)
    requires |m| == M && Known(L) && HeaderSafe(L, m)
    ensures (forall disk: Disk :: AllInPlace(L, disk, m)) <==> SourcesRight(L, m)
  {
    hide Low16, Low32, Touches, Plain, SegmentAt, SourceOf, LastSource, LoadSegments, AllInPlace;
    if SourcesRight(L, m) {
      forall disk: Disk ensures AllInPlace(L, disk, m) {
        var m' := AllSegmentsInPlace(L, disk, m);
      }
    } else {
      var i, a: u32 :| 0 <= i < Headers(L, m) && InSegment(SegmentAt(L, m, i), a)
                       && LastSource(L, m, 0, a) != Wanted(SegmentAt(L, m, i), a);
      var disk := WrongSource(L, m, i, a);
    }
  }

  /** Every segment is at the same place in a sector as in the file, and touches no segment before it. */
  ghost predicate Separate(L: Layout, m: seq<byte>)
    requires |m| == M
  {
    forall i :: 0 <= i < Headers(L, m) ==>
      var s := SegmentAt(L, m, i);
      && s.paddr % SECTSIZE == s.offset % SECTSIZE
      && forall j, a: u32 :: 0 <= j < i && InSegment(SegmentAt(L, m, j), a) ==> !Touches(s, a)
  }

  lemma {:induction false} LastIsOwn(L: Layout, h: seq<byte>, k: nat, i: nat, a: u32)
    requires |h| == M && HeaderSafe(L, h) && k <= i < Headers(L, h)
    requires Untouched(L, h, i + 1, a) && Touches(SegmentAt(L, h, i), a)
    ensures LastSource(L, h, k, a) == SourceOf(SegmentAt(L, h, i), a) != Kept
    decreases i - k
  {
    hide Low16, Low32, SegmentAt, Touches, SourceOf, Plain;
    if k == i {
      UntouchedIsKept(L, h, i + 1, a);
      TouchesIsSource(SegmentAt(L, h, i), a);
    } else {
      LastIsOwn(L, h, k + 1, i, a);
    }
  }

  lemma OwnSourceIsWanted(s: Segment, a: u32)
    requires Plain(s) && InSegment(s, a) && s.paddr % SECTSIZE == s.offset % SECTSIZE
    ensures Touches(s, a) && SourceOf(s, a) == Wanted(s, a)
  {
  }

  /** For a file laid out in this way all sources are right. */
  lemma SeparateIsRight(L: Layout, h: seq<byte>)
    requires |h| == M && HeaderSafe(L, h) && Separate(L, h)
    ensures SourcesRight(L, h)
  {
    hide Low16, Low32, SegmentAt, Touches, SourceOf, Plain, LastSource;
    forall i, a: u32 | 0 <= i < Headers(L, h) && InSegment(SegmentAt(L, h, i), a)
      ensures LastSource(L, h, 0, a) == Wanted(SegmentAt(L, h, i), a)
    {
      OwnSourceIsWanted(SegmentAt(L, h, i), a);
      LastIsOwn(L, h, 0, i, a);
    }
  }

  /** The argument area, of two whole sectors. */
  predicate InArguments(mainarg: u32, a: u32) {
    mainarg % SECTSIZE == 0 && mainarg + 1024 <= M - SECTSIZE && mainarg <= a < mainarg + 1024
  }

  /** The page at HEADER is the first page of the file, and the two sectors before the file are at `mainarg`. */
  lemma HeaderAndArguments(disk: Disk, m: seq<byte>, mainarg: u32, a: u32)
    requires |m| == M && Ends(Wrap(mainarg + 1024))
    ensures InHeader(a) ==> WithHeader(disk, m, mainarg)[a] == disk(FILE + (a - HEADER))
    ensures InArguments(mainarg, a) && !InHeader(a) ==>
              WithHeader(disk, m, mainarg)[a] == disk(SECTSIZE + (a - mainarg))
  {
    hide CopySectors, CopiedByte;
    var m1 := Copied(disk, m, mainarg, 1024, -1024);
    AlignedCopy(disk, m1, HEADER, PAGE, 3, a);
    if InArguments(mainarg, a) {
      AlignedCopy(disk, m, mainarg, 1024, 1, a);
    }
  }

  /** A copy to the start of a sector is plain. */
  lemma AlignedCopy(disk: Disk, m: seq<byte>, buf: u32, nbytes: nat, sect: nat, a: u32)
    requires |m| == M && buf % SECTSIZE == 0 && nbytes % SECTSIZE == 0 && buf + nbytes <= M - SECTSIZE && sect < 4
    ensures CopySectors(disk, m, buf, buf + nbytes, sect)[a] ==
            if buf <= a < buf + nbytes then disk(SECTSIZE * sect + (a - buf)) else m[a]
  {
    hide CopySectors;
    CopySectorsBytes(disk, m, buf, buf + nbytes, sect, a);
    if buf <= a {
      var d := (a - buf) / SECTSIZE;
      assert Wrap(sect + d) == sect + d;
      assert a - buf == SECTSIZE * d + a % SECTSIZE;
    }
  }

  /** Starting from any memory: if the segments of the file on the disk leave the header page alone, load_kernel ends
      with the first page of the file at HEADER, the arguments wherever neither the page nor a segment covers them, and
      every segment in place if all sources are right. */
  lemma KernelInPlace(disk: Disk, m: seq<byte>, mainarg: u32) returns (m': seq<byte>)
    requires |m| == M && Ends(Wrap(mainarg + 1024))
    requires HeaderSafe(LayoutOf(WithHeader(disk, m, mainarg)), WithHeader(disk, m, mainarg))
    ensures |m'| == M && KernelLoaded(disk, m, mainarg) == Some(m')
    ensures var h := WithHeader(disk, m, mainarg);
            SourcesRight(LayoutOf(h), h) ==>
              forall i :: 0 <= i < Headers(LayoutOf(h), h) ==> InPlace(disk, m', SegmentAt(LayoutOf(h), h, i))
    ensures forall a: u32 :: InHeader(a) ==> m'[a] == disk(FILE + (a - HEADER))
    ensures var h := WithHeader(disk, m, mainarg);
            forall a: u32 :: InArguments(mainarg, a) && !InHeader(a) && Untouched(LayoutOf(h), h, 0, a) ==>
              m'[a] == disk(SECTSIZE + (a - mainarg))
  {
    var h := WithHeader(disk, m, mainarg);
    var L := LayoutOf(h);
    m' := AllSegmentsInPlace(L, disk, h);
    hide HeaderSafe, SegmentAt, InPlace, Touches, Low16, Low32, LoadSegments, WithHeader, LastSource;
    forall a: u32 ensures InHeader(a) ==> m'[a] == disk(FILE + (a - HEADER)) {
      HeaderAndArguments(disk, m, mainarg, a);
    }
    forall a: u32 | InArguments(mainarg, a) && !InHeader(a) && Untouched(L, h, 0, a)
      ensures m'[a] == disk(SECTSIZE + (a - mainarg))
    {
      HeaderAndArguments(disk, m, mainarg, a);
    }
  }
}
