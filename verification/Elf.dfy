/** Loading a static ELF image (core/binfmt_elf.c): what the headers say, and
    what memory must hold afterwards. */
module Elf {
  import opened Basics
  import opened Bytes
  import opened Vmas

  const PAGE := 4096
  const EHDR := 64
  const PHDR := 56
  /** Where a DYN image with no address of its own goes. */
  const DYN_BASE := 0x555555554000

  function RoundDown(x: nat): (r: nat)
    ensures r <= x < r + PAGE && r % PAGE == 0
  {
    x - x % PAGE
  }

  function RoundUp(x: nat): (r: nat)
    ensures x <= r < x + PAGE && r % PAGE == 0
  {
    RoundDown(x + PAGE - 1)
  }

  /** The little-endian number in bytes `at` to `at + n` of an image. */
  function Field(image: seq<Byte>, at: nat, n: nat): nat
    requires at + n <= |image|
  {
    Unsigned(image[at..at + n])
  }

  datatype Header = Header(dyn: bool, entry: nat, phoff: nat, phentsize: nat, phnum: nat)

  /** A PT_LOAD header, its address biased. */
  datatype Segment = Segment(flags: nat, offset: nat, va: nat, filesz: nat, memsz: nat)

  predicate Identified(image: seq<Byte>) {
    && |image| >= EHDR
    && image[0] == 0x7f && image[1] == 69 && image[2] == 76 && image[3] == 70
    && image[4] == 2 && image[5] == 1
    && Field(image, 18, 2) == 62 && Field(image, 16, 2) in {2, 3}
  }

  /** The checks up to the program headers; `None` refuses the image. */
  function HeaderOf(image: seq<Byte>): Opt<Header> {
    if !Identified(image) then None
    else
      var h := Header(Field(image, 16, 2) == 3, Field(image, 24, 8), Field(image, 32, 8), Field(image, 54, 2), Field(image, 56, 2));
      if h.phoff == 0 || h.phentsize < PHDR then None
      else if (h.phoff + h.phnum * h.phentsize) % WORD > |image| then None
      else Some(h)
  }

  function Bias(h: Header): nat {
    if h.dyn then DYN_BASE else 0
  }

  /** The program headers lie within the image. */
  predicate TableFits(image: seq<Byte>, h: Header) {
    h.phoff + h.phnum * h.phentsize <= |image| && h.phentsize >= PHDR
  }

  /** Program header `i` if it is a PT_LOAD. */
  function LoadAt(image: seq<Byte>, h: Header, i: nat): Opt<Segment>
    requires TableFits(image, h) && i < h.phnum
  {
    TableRoom(h, i);
    var at := h.phoff + i * h.phentsize;
    if Field(image, at, 4) != 1 then None
    else Some(Segment(Field(image, at + 4, 4), Field(image, at + 8, 8), Field(image, at + 16, 8) + Bias(h),
                      Field(image, at + 32, 8), Field(image, at + 40, 8)))
  }

  lemma MulRoom(i: nat, n: nat, e: nat)
    requires i < n
    ensures i * e + e <= n * e
  {
    var d := n - i - 1;
    assert n * e == (i + 1 + d) * e == i * e + e + d * e;
  }

  lemma TableSo(image: seq<Byte>)
    requires NoWrap(image) && HeaderOf(image).Some?
    ensures TableFits(image, HeaderOf(image).value)
  {
  }

  lemma TableRoom(h: Header, i: nat)
    requires i < h.phnum && h.phentsize >= PHDR
    ensures h.phoff + i * h.phentsize + PHDR <= h.phoff + h.phnum * h.phentsize
  {
    MulRoom(i, h.phnum, h.phentsize);
  }

  function Start(g: Segment): nat { RoundDown(g.va) }
  function End(g: Segment): nat { RoundUp(g.va + g.memsz) }

  /** `prot_of`. */
  function ProtOf(flags: nat): Prot {
    Prot((flags / 4) % 2 == 1, (flags / 2) % 2 == 1, flags % 2 == 1)
  }

  /** No sum of the loader's wraps at 2^64. */
  ghost predicate NoWrap(image: seq<Byte>) {
    HeaderOf(image).Some? ==>
      var h := HeaderOf(image).value;
      && h.phoff + h.phnum * h.phentsize < WORD
      && (TableFits(image, h) ==>
            forall i :: 0 <= i < h.phnum && LoadAt(image, h, i).Some? ==>
              var g := LoadAt(image, h, i).value; g.offset + g.filesz < WORD && g.va + g.memsz + PAGE <= WORD)
  }

  // ---- memory ----

  /** A byte of user memory and what may be done with it. */
  datatype Cell = Cell(byte: Byte, prot: Prot)

  type Memory = map<nat, Cell>

  predicate Within(a: nat, lo: nat, hi: nat) {
    lo <= a < hi
  }

  /** The byte a loaded segment has at an address of its pages: the file's, or zero. */
  function ByteAt(image: seq<Byte>, g: Segment, a: nat): Byte
    requires g.offset + g.filesz <= |image|
  {
    if g.va <= a < g.va + g.filesz then image[g.offset + a - g.va] else 0
  }

  /** What a segment's pages hold and allow once it is loaded. */
  ghost predicate Loaded(image: seq<Byte>, g: Segment, m: Memory) {
    && g.filesz <= g.memsz && g.offset + g.filesz <= |image|
    && forall a: nat :: Within(a, Start(g), End(g)) ==> a in m && m[a] == Cell(ByteAt(image, g, a), ProtOf(g.flags))
  }

  /** No byte of the segment's pages is mapped. */
  ghost predicate Clear(g: Segment, m: Memory) {
    forall a: nat :: Within(a, Start(g), End(g)) ==> a !in m
  }

  ghost predicate Apart(g: Segment, k: Segment) {
    forall a: nat :: !(Within(a, Start(g), End(g)) && Within(a, Start(k), End(k)))
  }

  /** Nothing outside the segment's pages differs. */
  ghost predicate OnlyIn(g: Segment, m: Memory, now: Memory) {
    forall a: nat :: !Within(a, Start(g), End(g)) ==> (a in now <==> a in m) && (a in m ==> now[a] == m[a])
  }

  lemma LoadedStays(image: seq<Byte>, g: Segment, k: Segment, m: Memory, now: Memory)
    requires Loaded(image, g, m) && Apart(g, k) && OnlyIn(k, m, now)
    ensures Loaded(image, g, now)
  {
    hide Within, Start, End, ByteAt;
  }

  // ---- the headers as they are written ----

  /** `Elf64_Ehdr`, field by field. */
  datatype Ehdr = Ehdr(ident: seq<Byte>, typ: nat, machine: nat, version: nat, entry: nat, phoff: nat, shoff: nat, flags: nat,
                       ehsize: nat, phentsize: nat, phnum: nat, shentsize: nat, shnum: nat, shstrndx: nat)

  predicate EhdrFits(e: Ehdr) {
    && |e.ident| == 16 && e.typ < 0x1_0000 && e.machine < 0x1_0000 && e.version < 0x1_0000_0000
    && e.entry < WORD && e.phoff < WORD && e.shoff < WORD && e.flags < 0x1_0000_0000
    && e.ehsize < 0x1_0000 && e.phentsize < 0x1_0000 && e.phnum < 0x1_0000
    && e.shentsize < 0x1_0000 && e.shnum < 0x1_0000 && e.shstrndx < 0x1_0000
  }

  function EhdrBytes(e: Ehdr): seq<Byte> {
    e.ident + Le(2, e.typ) + Le(2, e.machine) + Le(4, e.version) + Le(8, e.entry) + Le(8, e.phoff) + Le(8, e.shoff) + Le(4, e.flags)
    + Le(2, e.ehsize) + Le(2, e.phentsize) + Le(2, e.phnum) + Le(2, e.shentsize) + Le(2, e.shnum) + Le(2, e.shstrndx)
  }

  /** `Elf64_Phdr`, field by field. */
  datatype Phdr = Phdr(typ: nat, flags: nat, offset: nat, vaddr: nat, paddr: nat, filesz: nat, memsz: nat, align: nat)

  predicate PhdrFits(p: Phdr) {
    && p.typ < 0x1_0000_0000 && p.flags < 0x1_0000_0000 && p.offset < WORD && p.vaddr < WORD && p.paddr < WORD
    && p.filesz < WORD && p.memsz < WORD && p.align < WORD
  }

  function PhdrBytes(p: Phdr): seq<Byte> {
    Le(4, p.typ) + Le(4, p.flags) + Le(8, p.offset) + Le(8, p.vaddr) + Le(8, p.paddr) + Le(8, p.filesz) + Le(8, p.memsz) + Le(8, p.align)
  }

  /** A number written in its width reads back. */
  lemma FieldBack(image: seq<Byte>, at: nat, n: nat, v: nat)
    requires at + n <= |image| && image[at..at + n] == Le(n, v) && v < Span(n)
    ensures Field(image, at, n) == v
  {
    UnsignedOfLe(n, v);
    ModUnique(v, Span(n), 0, v);
  }

  /** Any 64 bytes are a header, and any 56 a program header. */
  lemma EhdrOf(b: seq<Byte>) returns (e: Ehdr)
    requires |b| == 64
    ensures EhdrFits(e) && EhdrBytes(e) == b
  {
    hide Le, Unsigned, Span;
    Spans();
    e := Ehdr(b[..16], Unsigned(b[16..18]), Unsigned(b[18..20]), Unsigned(b[20..24]), Unsigned(b[24..32]), Unsigned(b[32..40]),
              Unsigned(b[40..48]), Unsigned(b[48..52]), Unsigned(b[52..54]), Unsigned(b[54..56]), Unsigned(b[56..58]),
              Unsigned(b[58..60]), Unsigned(b[60..62]), Unsigned(b[62..64]));
    LeOfUnsigned(b[16..18]);
    LeOfUnsigned(b[18..20]);
    LeOfUnsigned(b[20..24]);
    LeOfUnsigned(b[24..32]);
    LeOfUnsigned(b[32..40]);
    LeOfUnsigned(b[40..48]);
    LeOfUnsigned(b[48..52]);
    LeOfUnsigned(b[52..54]);
    LeOfUnsigned(b[54..56]);
    LeOfUnsigned(b[56..58]);
    LeOfUnsigned(b[58..60]);
    LeOfUnsigned(b[60..62]);
    LeOfUnsigned(b[62..64]);
    assert EhdrBytes(e) == b;
  }

  /** Where the fields the loader reads lie. */
  lemma EhdrRead(image: seq<Byte>, e: Ehdr)
    requires EhdrFits(e) && EhdrBytes(e) <= image
    ensures |image| >= 64 && image[..16] == e.ident
    ensures Field(image, 16, 2) == e.typ && Field(image, 18, 2) == e.machine && Field(image, 24, 8) == e.entry
    ensures Field(image, 32, 8) == e.phoff && Field(image, 54, 2) == e.phentsize && Field(image, 56, 2) == e.phnum
  {
    hide Le, Unsigned, Span, Field;
    Spans();
    var b := EhdrBytes(e);
    assert image[..64] == b;
    assert image[..16] == b[..16] == e.ident;
    assert image[16..18] == b[16..18] == Le(2, e.typ);
    assert image[18..20] == b[18..20] == Le(2, e.machine);
    assert image[24..32] == b[24..32] == Le(8, e.entry);
    assert image[32..40] == b[32..40] == Le(8, e.phoff);
    assert image[54..56] == b[54..56] == Le(2, e.phentsize);
    assert image[56..58] == b[56..58] == Le(2, e.phnum);
    FieldBack(image, 16, 2, e.typ);
    FieldBack(image, 18, 2, e.machine);
    FieldBack(image, 24, 8, e.entry);
    FieldBack(image, 32, 8, e.phoff);
    FieldBack(image, 54, 2, e.phentsize);
    FieldBack(image, 56, 2, e.phnum);
  }

  /** An image is taken for what its header says, if it is a little-endian 64-bit executable or shared
      object for x86-64 whose program headers are there, are of full size and lie in the image; any
      other is refused. */
  lemma HeaderExactly(image: seq<Byte>, e: Ehdr)
    requires EhdrFits(e) && EhdrBytes(e) <= image
    ensures HeaderOf(image)
            == if && e.ident[..6] == [0x7f, 69, 76, 70, 2, 1] && e.machine == 62 && e.typ in {2, 3}
                  && e.phoff != 0 && e.phentsize >= 56 && (e.phoff + e.phnum * e.phentsize) % WORD <= |image|
               then Some(Header(e.typ == 3, e.entry, e.phoff, e.phentsize, e.phnum)) else None
  {
    hide Field, EhdrBytes, EhdrFits;
    EhdrRead(image, e);
    IdentRead(image, e.ident);
  }

  lemma IdentRead(image: seq<Byte>, ident: seq<Byte>)
    requires |image| >= 64 && |ident| == 16 && image[..16] == ident
    ensures ident[..6] == [0x7f, 69, 76, 70, 2, 1] <==>
            image[0] == 0x7f && image[1] == 69 && image[2] == 76 && image[3] == 70 && image[4] == 2 && image[5] == 1
  {
    assert forall k :: 0 <= k < 6 ==> image[k] == image[..16][k];
    if image[0] == 0x7f && image[1] == 69 && image[2] == 76 && image[3] == 70 && image[4] == 2 && image[5] == 1 {
      assert ident[..6] == [0x7f, 69, 76, 70, 2, 1];
    }
  }

  /** An image too short for a header is refused. */
  lemma ShortRefused(image: seq<Byte>)
    requires |image| < 64
    ensures HeaderOf(image) == None
  {
  }

  /** A program header is a segment to load exactly when its type is PT_LOAD, with its own flags,
      offset and sizes, at its address, or that much above 0x555555554000 in a shared object; its
      flags are the protection: 4 to read, 2 to write, 1 to execute. */
  lemma SegmentRead(image: seq<Byte>, h: Header, i: nat, p: Phdr)
    requires TableFits(image, h) && i < h.phnum && PhdrFits(p)
    requires h.phoff + i * h.phentsize + 56 <= |image|
    requires image[h.phoff + i * h.phentsize..h.phoff + i * h.phentsize + 56] == PhdrBytes(p)
    ensures LoadAt(image, h, i)
            == if p.typ == 1 then Some(Segment(p.flags, p.offset, p.vaddr + if h.dyn then 0x5555_5555_4000 else 0, p.filesz, p.memsz))
               else None
  {
    hide Le, Unsigned, Span, Field, TableFits, PhdrBytes;
    Spans();
    var at := h.phoff + i * h.phentsize;
    var b := PhdrBytes(p);
    PhdrParts(p);
    PartOf(image, at, b, 0, 4);
    PartOf(image, at, b, 4, 8);
    PartOf(image, at, b, 8, 16);
    PartOf(image, at, b, 16, 24);
    PartOf(image, at, b, 32, 40);
    PartOf(image, at, b, 40, 48);
    FieldBack(image, at, 4, p.typ);
    FieldBack(image, at + 4, 4, p.flags);
    FieldBack(image, at + 8, 8, p.offset);
    FieldBack(image, at + 16, 8, p.vaddr);
    FieldBack(image, at + 32, 8, p.filesz);
    FieldBack(image, at + 40, 8, p.memsz);
  }

  lemma PhdrParts(p: Phdr)
    requires PhdrFits(p)
    ensures var b := PhdrBytes(p);
            && |b| == 56 && b[0..4] == Le(4, p.typ) && b[4..8] == Le(4, p.flags) && b[8..16] == Le(8, p.offset)
            && b[16..24] == Le(8, p.vaddr) && b[32..40] == Le(8, p.filesz) && b[40..48] == Le(8, p.memsz)
  {
    hide Le, Unsigned, Span;
    Spans();
  }

  lemma PartOf(image: seq<Byte>, at: nat, b: seq<Byte>, lo: nat, hi: nat)
    requires lo <= hi <= |b| && at + |b| <= |image| && image[at..at + |b|] == b
    ensures image[at + lo..at + hi] == b[lo..hi]
  {
    forall k | lo <= k < hi ensures image[at + k] == b[k] { assert image[at + k] == image[at..at + |b|][k]; }
  }

  lemma ProtBits(r: nat, w: nat, x: nat, others: nat)
    requires r < 2 && w < 2 && x < 2
    ensures ProtOf(8 * others + 4 * r + 2 * w + x) == Prot(r == 1, w == 1, x == 1)
  {
    var v := 8 * others + 4 * r + 2 * w + x;
    ModUnique(v, 4, 2 * others + r, 2 * w + x);
    ModUnique(v, 2, 4 * others + 2 * r + w, x);
  }
}
