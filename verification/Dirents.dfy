/** Directory streams (core/vfs.c:527-607, core/hostfs_nt.c:948-1027): a resumable
    reader over the host's batches, with entries held over between calls. */
module Dirents {
  import opened Basics
  import opened Bytes
  import Names

  datatype Kind = KFile | KDir | KLink | KFifo | KChr | KBlk | KSock

  /** A converted host entry (`struct hfs_dirent`). */
  datatype Entry = Entry(ino: Word, kind: Kind, name: seq<Byte>)

  /** What the host lists, under a name in UTF-16. */
  datatype Raw = Raw(ino: Word, kind: Kind, name: seq<Names.Wide>)

  /** One `linux_dirent64`. */
  datatype Record = Record(ino: Word, off: nat, dtype: Byte, name: seq<Byte>)

  const HEADER := 19
  /** The largest record there can be. */
  const RECORD_MAX := 280
  const BATCH := 32

  predicate NameOk(name: seq<Byte>) {
    |name| <= NAME_MAX && 0 !in name
  }

  predicate ListingOk(listing: seq<Raw>) {
    |listing| < 0x4000_0000_0000_0000
  }

  predicate EntriesNamed(es: seq<Entry>) {
    forall i :: 0 <= i < |es| ==> NameOk(es[i].name)
  }

  function DType(k: Kind): Byte {
    match k
    case KDir => 4 case KLink => 10 case KFifo => 1 case KChr => 2 case KBlk => 6 case KSock => 12 case KFile => 8
  }

  // ---- records as bytes ----

  function RecLen(name: seq<Byte>): (n: nat)
    ensures HEADER + |name| + 1 <= n < HEADER + |name| + 9 && n % 8 == 0
    ensures |name| <= NAME_MAX ==> n <= RECORD_MAX
  {
    (HEADER + |name| + 1 + 7) / 8 * 8
  }

  function Packed(r: Record): (s: seq<Byte>)
    ensures |s| == RecLen(r.name)
  {
    Le(8, r.ino) + Le(8, r.off) + Le(2, RecLen(r.name)) + [r.dtype] + r.name + Zeros(RecLen(r.name) - HEADER - |r.name|)
  }

  function PackedAll(rs: seq<Record>): seq<Byte> {
    if rs == [] then [] else Packed(rs[0]) + PackedAll(rs[1..])
  }

  lemma Assoc(x: seq<Byte>, y: seq<Byte>, z: seq<Byte>)
    ensures (x + y) + z == x + (y + z)
  {
  }

  lemma PackedHead(r: Record, rest: seq<Record>)
    ensures PackedAll([r] + rest) == Packed(r) + PackedAll(rest)
  {
    assert ([r] + rest)[1..] == rest;
  }

  lemma {:induction false} PackedConcat(a: seq<Record>, b: seq<Record>)
    ensures PackedAll(a + b) == PackedAll(a) + PackedAll(b)
  {
    hide Packed;
    if a == [] {
      assert a + b == b && [] + PackedAll(b) == PackedAll(b);
    } else {
      PackedConcat(a[1..], b);
      HeadOff(a, b);
      PackedHead(a[0], a[1..] + b);
      PackedHead(a[0], a[1..]);
      hide PackedAll;
      Assoc(Packed(a[0]), PackedAll(a[1..]), PackedAll(b));
    }
  }

  lemma HeadOff(a: seq<Record>, b: seq<Record>)
    requires a != []
    ensures a + b == [a[0]] + (a[1..] + b) && a == [a[0]] + a[1..]
  {
  }

  lemma PackedSnoc(rs: seq<Record>, r: Record)
    ensures PackedAll(rs + [r]) == PackedAll(rs) + Packed(r)
  {
    PackedConcat(rs, [r]);
    assert [r][1..] == [];
    assert Packed(r) + [] == Packed(r);
  }

  /** Up to the first NUL. */
  function CString(s: seq<Byte>): (t: seq<Byte>)
    ensures t <= s && 0 !in t
  {
    if s == [] || s[0] == 0 then [] else [s[0]] + CString(s[1..])
  }

  lemma {:induction false} CStringOf(name: seq<Byte>, rest: seq<Byte>)
    requires 0 !in name && rest != [] && rest[0] == 0
    ensures CString(name + rest) == name
  {
    if name == [] {
      assert name + rest == rest;
    } else {
      CStringOf(name[1..], rest);
      assert (name + rest)[1..] == name[1..] + rest;
    }
  }

  /** A program reading the buffer: records until the bytes run out, by d_reclen. */
  function Parsed(s: seq<Byte>): seq<Record> {
    if |s| < HEADER then []
    else
      var len := Unsigned(s[16..18]);
      if len < HEADER || len > |s| then []
      else
        Spans();
        [Record(Unsigned(s[..8]), Unsigned(s[8..16]), s[18], CString(s[19..len]))] + Parsed(s[len..])
  }

  predicate RecordOk(r: Record) {
    NameOk(r.name) && r.off < 0x8000_0000_0000_0000
  }

  /** Where the fields of a record lie. */
  lemma FieldsAt(ino: seq<Byte>, off: seq<Byte>, len: seq<Byte>, t: Byte, tail: seq<Byte>, rest: seq<Byte>)
    requires |ino| == 8 && |off| == 8 && |len| == 2
    ensures var s := ino + off + len + [t] + tail + rest;
            && s[..8] == ino && s[8..16] == off && s[16..18] == len && s[18] == t
            && s[19..19 + |tail|] == tail && s[19 + |tail|..] == rest
  {
    var head := ino + off + len + [t];
    assert |head| == 19;
    var s := head + tail + rest;
    assert s[..19] == head;
    assert s[..8] == head[..8] == ino && s[8..16] == head[8..16] == off && s[16..18] == head[16..18] == len;
  }

  lemma ParseOne(r: Record, rest: seq<Byte>)
    requires RecordOk(r)
    ensures Parsed(Packed(r) + rest) == [r] + Parsed(rest)
  {
    hide Le, Unsigned, Span, RecLen, Zeros;
    var n := RecLen(r.name);
    var pad := Zeros(n - HEADER - |r.name|);
    var s := Packed(r) + rest;
    FieldsAt(Le(8, r.ino), Le(8, r.off), Le(2, n), r.dtype, r.name + pad, rest);
    assert s == Le(8, r.ino) + Le(8, r.off) + Le(2, n) + [r.dtype] + (r.name + pad) + rest;
    NumbersRead(r.ino, r.off, n);
    ZerosAt(n - HEADER - |r.name|);
    CStringOf(r.name, pad);
  }

  lemma NumbersRead(ino: Word, off: nat, n: nat)
    requires off < 0x8000_0000_0000_0000 && n <= RECORD_MAX
    ensures Unsigned(Le(8, ino)) == ino && Unsigned(Le(8, off)) == off && Unsigned(Le(2, n)) == n
  {
    hide Le, Unsigned, Span;
    Spans();
    UnsignedOfLe(8, ino);
    UnsignedOfLe(8, off);
    UnsignedOfLe(2, n);
  }

  lemma ZerosAt(n: nat)
    ensures forall i :: 0 <= i < n ==> Zeros(n)[i] == 0
  {
  }

  /** What was packed is what a program reads. */
  lemma {:induction false} ParsePacked(rs: seq<Record>)
    requires forall i :: 0 <= i < |rs| ==> RecordOk(rs[i])
    ensures Parsed(PackedAll(rs)) == rs
  {
    if rs != [] {
      ParseOne(rs[0], PackedAll(rs[1..]));
      ParsePacked(rs[1..]);
      assert rs == [rs[0]] + rs[1..];
    }
  }

  // ---- what a directory is to return ----

  /** The entry a listed name becomes: none for `.` and `..`, nor for a name whose UTF-8
      form is too long for the buffer; a name is read up to its first NUL. */
  function Converted(raw: Raw): (e: Opt<Entry>)
    ensures e.Some? ==> NameOk(e.value.name)
  {
    if raw.name in {[46], [46, 46]} || |Names.FromWide(raw.name)| > NAME_MAX then None
    else Some(Entry(raw.ino, raw.kind, CString(Names.FromWide(raw.name))))
  }

  function AsList(e: Opt<Entry>): seq<Entry> {
    if e.Some? then [e.value] else []
  }

  /** The entries the host's listing converts to, in its order. */
  function Entries(listing: seq<Raw>): seq<Entry> {
    if listing == [] then [] else AsList(Converted(listing[0])) + Entries(listing[1..])
  }

  lemma {:induction false} CStringWhole(s: seq<Byte>)
    requires 0 !in s
    ensures CString(s) == s
  {
    if s != [] { CStringWhole(s[1..]); }
  }

  lemma {:induction false} NoNul(cs: seq<nat>)
    requires Names.Scalars(cs)
    ensures 0 !in Names.Utf8All(cs)
  {
    if cs != [] { NoNul(cs[1..]); }
  }

  lemma DotsAsTheyAre()
    ensures Names.FromWide([46]) == [46] && Names.FromWide([46, 46]) == [46, 46]
  {
    assert [46, 46][1..] == [46] && [46][1..] == [];
  }

  /** A file made under a Linux name is listed under that name exactly when no character
      of the name lies from U+F000 to U+F0FF. */
  lemma ListedAsNamed(cs: seq<nat>, ino: Word, kind: Kind)
    requires Names.Scalars(cs) && |Names.Utf8All(cs)| <= NAME_MAX && Names.Utf8All(cs) !in {[46], [46, 46]}
    ensures var w := Names.ToWide(Names.Utf8All(cs));
            && w.Some?
            && (Converted(Raw(ino, kind, w.value)) == Some(Entry(ino, kind, Names.Utf8All(cs))) <==> Names.NoPrivate(cs))
  {
    hide Names.ToWide, Names.FromWide, Names.Utf8All, Names.NoPrivate, CString;
    var name := Names.Utf8All(cs);
    Names.RoundTrip(cs);
    NoNul(cs);
    CStringWhole(name);
    DotsAsTheyAre();
  }

  lemma EntriesHead(raw: Raw, rest: seq<Raw>)
    ensures Entries([raw] + rest) == AsList(Converted(raw)) + Entries(rest)
  {
    assert ([raw] + rest)[1..] == rest;
  }

  function RecordOf(e: Entry, off: nat): Record {
    Record(e.ino, off, DType(e.kind), e.name)
  }

  /** Entries as records, with d_off counting on from `off`. */
  function Numbered(es: seq<Entry>, off: nat): (rs: seq<Record>)
    ensures |rs| == |es|
    ensures forall i :: 0 <= i < |es| ==> rs[i] == RecordOf(es[i], off + i)
  {
    if es == [] then [] else [RecordOf(es[0], off)] + Numbered(es[1..], off + 1)
  }

  function DotRecord(ino: Word): Record { Record(ino, 1, 4, [46]) }
  function DotDotRecord(): Record { Record(1, 2, 4, [46, 46]) }

  /** The whole directory: `.`, `..`, then every convertible entry once, in host order. */
  function Everything(ino: Word, listing: seq<Raw>): seq<Record> {
    [DotRecord(ino), DotDotRecord()] + Numbered(Entries(listing), 3)
  }

  /** The file type bits of the mode stat shows for an object of the kind. */
  function ModeBits(k: Kind): (n: nat)
    ensures n < 0x1_0000
  {
    match k
    case KFifo => 0x1000 case KChr => 0x2000 case KDir => 0x4000 case KBlk => 0x6000
    case KFile => 0x8000 case KLink => 0xa000 case KSock => 0xc000
  }

  /** d_type is the type of the mode, four bits wide. */
  lemma TypeBits(k: Kind)
    ensures DType(k) == ModeBits(k) / 0x1000
  {
  }

  lemma DirBits()
    ensures ModeBits(KDir) / 0x1000 == 4
  {
  }

  /** What the records of a directory tell: `.` with the directory's own inode, `..`, and each entry
      with its inode, its name and the type stat shows of it, d_off counting from 1. */
  lemma RecordsTell(ino: Word, listing: seq<Raw>)
    ensures var rs, es := Everything(ino, listing), Entries(listing);
            && |rs| == |es| + 2
            && rs[0] == Record(ino, 1, ModeBits(KDir) / 0x1000, [46]) && rs[1] == Record(1, 2, ModeBits(KDir) / 0x1000, [46, 46])
            && forall i :: 0 <= i < |es| ==> rs[i + 2] == Record(es[i].ino, i + 3, ModeBits(es[i].kind) / 0x1000, es[i].name)
  {
    hide Entries, DType, ModeBits;
    var es := Entries(listing);
    DirBits();
    forall i | 0 <= i < |es|
      ensures Everything(ino, listing)[i + 2] == Record(es[i].ino, i + 3, ModeBits(es[i].kind) / 0x1000, es[i].name)
    {
      TypeBits(es[i].kind);
      assert Everything(ino, listing)[i + 2] == Numbered(es, 3)[i];
    }
  }

  /** What the host lists is passed over only as `.` or `..`, or for a name of more than 255 bytes. */
  lemma ConvertedUnless(raw: Raw)
    ensures Converted(raw).None? <==> raw.name == [0x2e] || raw.name == [0x2e, 0x2e] || |Names.FromWide(raw.name)| > 255
  {
    hide Names.FromWide, CString;
  }

  /** Every entry is of something the host listed, with its inode and its kind, and everything the
      host lists under a name that converts is there. */
  lemma {:induction false} EntriesListed(listing: seq<Raw>)
    ensures forall e :: e in Entries(listing) ==> exists raw :: raw in listing && Converted(raw) == Some(e) && e.ino == raw.ino && e.kind == raw.kind
    ensures forall raw :: raw in listing && Converted(raw).Some? ==> Converted(raw).value in Entries(listing)
  {
    if listing != [] {
      EntriesListed(listing[1..]);
      hide Names.FromWide, CString;
      forall e | e in Entries(listing)
        ensures exists raw :: raw in listing && Converted(raw) == Some(e) && e.ino == raw.ino && e.kind == raw.kind
      {
        if e in AsList(Converted(listing[0])) {
          assert listing[0] in listing;
        } else {
          var raw :| raw in listing[1..] && Converted(raw) == Some(e) && e.ino == raw.ino && e.kind == raw.kind;
          assert raw in listing;
        }
      }
    }
  }
}
