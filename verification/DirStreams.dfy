/** The directory stream as it runs: the host reader's batches, the entries held
    between calls, and the position (core/vfs.c:527-607). */
module DirStreams {
  import opened Basics
  import opened Bytes
  import opened Dirents
  import Names

  const EINVAL := 22

  /** `dirent_pack`: one record behind the `used` bytes, if it fits in `cap`. */
  method DirentPack(buf: array<Byte>, cap: nat, used: nat, r: Record) returns (ok: bool, now: nat)
    requires used <= cap <= buf.Length
    modifies buf
    ensures ok == (used + RecLen(r.name) <= cap)
    ensures if ok then now == used + RecLen(r.name) && buf[..now] == old(buf[..used]) + Packed(r)
            else now == used && buf[..] == old(buf[..])
  {
    var rec := RecLen(r.name);
    if used + rec > cap { return false, used; }
    ghost var head := buf[..used];
    var p := Packed(r);
    forall k | 0 <= k < rec { buf[used + k] := p[k]; }
    now := used + rec;
    ok := true;
    assert buf[..now][..used] == head;
    assert buf[..now][used..] == p;
    assert buf[..now] == buf[..now][..used] + buf[..now][used..];
  }

  /** `done` and then `left` make up `all`. */
  ghost predicate Splits(done: seq<Record>, left: seq<Record>, all: seq<Record>) {
    done + left == all
  }

  lemma Resplit(s: seq<Raw>, c: nat, n: nat)
    requires c + n <= |s|
    ensures s[c..c + n] + s[c + n..] == s[c..]
  {
  }

  lemma NoBatch(s: seq<Raw>, c: nat)
    requires c <= |s|
    ensures [] + s[c..] == s[c..] && s[0..] == s
  {
  }

  class DirStream {
    const listing: seq<Raw>
    const ino: Word
    // struct hfs_dir and the host handle's own cursor
    var open: bool
    var cursor: nat
    var batch: seq<Raw>
    var exhausted: bool
    /** How many entries the host puts in each batch to come. */
    var sizes: seq<nat>
    // struct file
    var pos: nat
    var held: seq<Entry>
    /** What calls have returned since the last rewind. */
    ghost var got: seq<Record>

    constructor (listing: seq<Raw>, ino: Word, sizes: seq<nat>)
      requires ListingOk(listing)
      ensures Valid() && got == [] && this.listing == listing && this.ino == ino
    {
      this.listing, this.ino, this.sizes := listing, ino, sizes;
      open, cursor, batch, exhausted := false, 0, [], false;
      pos, held, got := 0, [], [];
    }

    /** What the host has still to list: the batch, then what is behind its cursor. */
    ghost function Unread(): seq<Raw>
      requires cursor <= |listing|
      reads this
    {
      batch + listing[cursor..]
    }

    /** The entries the host reader has still to hand out. */
    ghost function Ahead(): seq<Entry>
      requires cursor <= |listing|
      reads this
    {
      Entries(Unread())
    }

    /** The records still to come. */
    ghost function Pending(): seq<Record>
      requires cursor <= |listing|
      reads this
    {
      if pos == 0 then Everything(ino, listing)
      else if pos == 1 then Everything(ino, listing)[1..]
      else Numbered(held + Ahead(), pos + 1)
    }

    ghost predicate ReaderOk()
      reads this
    {
      && ListingOk(listing) && cursor <= |listing|
      && (exhausted ==> batch == [] && cursor == |listing|)
    }

    ghost predicate Valid()
      reads this
    {
      && ReaderOk() && |held| <= BATCH && EntriesNamed(held)
      && (pos < 2 ==> held == []) && (pos >= 2 ==> open)
      && Splits(got, Pending(), Everything(ino, listing))
    }

    // ---- the host reader ----

    /** `dir_fill`: the host's next batch, from the start if asked. */
    method Fill(restart: bool)
      requires ReaderOk() && (restart || (batch == [] && !exhausted))
      modifies this`cursor, this`batch, this`exhausted, this`sizes
      ensures ReaderOk() && (batch != [] || exhausted)
      ensures Unread() == if restart then listing else old(Unread())
    {
      NoBatch(listing, cursor);
      if restart { cursor := 0; }
      FillFrom();
    }

    /** The batch from the host's cursor on. */
    method FillFrom()
      requires ListingOk(listing) && cursor <= |listing|
      modifies this`cursor, this`batch, this`exhausted, this`sizes
      ensures ReaderOk() && (batch != [] || exhausted)
      ensures Unread() == old(listing[cursor..])
    {
      exhausted := cursor == |listing|;
      var n := if exhausted then 0 else BatchSize(|listing| - cursor);
      if !exhausted && sizes != [] { sizes := sizes[1..]; }
      Resplit(listing, cursor, n);
      batch := listing[cursor..cursor + n];
      cursor := cursor + n;
    }

    function BatchSize(left: nat): (n: nat)
      requires left > 0
      reads this`sizes
      ensures 0 < n <= left
    {
      var n := if sizes == [] || sizes[0] == 0 then 1 else sizes[0];
      if n > left then left else n
    }

    /** The next listed name leaves the batch. */
    method Take() returns (raw: Raw)
      requires ReaderOk() && batch != []
      modifies this`batch
      ensures ReaderOk() && old(Unread()) == [raw] + Unread()
    {
      raw := batch[0];
      batch := batch[1..];
    }

    lemma NoneAhead()
      requires ReaderOk()
      ensures exhausted ==> Ahead() == []
    {
    }

    /** A listed name through `name_from_wide`, unless it is a dot. */
    method Convert(raw: Raw) returns (e: Opt<Entry>)
      ensures e == Converted(raw)
    {
      hide Names.FromWide;
      if raw.name in {[46], [46, 46]} { return None; }
      var out := new Byte[NAME_MAX + 1];
      var n := Names.NameFromWide(raw.name, out, NAME_MAX + 1);
      if n < 0 { return None; }
      return Some(Entry(raw.ino, raw.kind, CString(out[..n])));
    }

    /** The next listed name joins `es` if it converts and is not a dot. */
    method AddNext(es: seq<Entry>) returns (more: seq<Entry>)
      requires ReaderOk() && batch != [] && EntriesNamed(es)
      modifies this`batch
      ensures ReaderOk() && EntriesNamed(more) && |more| <= |es| + 1
      ensures more + Ahead() == es + old(Ahead())
      ensures |Unread()| == old(|Unread()|) - 1
    {
      hide Entries, ListingOk, NameOk, Converted;
      var raw := Take();
      EntriesHead(raw, Unread());
      var e := Convert(raw);
      more := es + AsList(e);
    }

    /** `hfs_dir_read`: up to `cap` converted entries. */
    method DirRead(cap: nat, restart: bool) returns (es: seq<Entry>)
      requires ReaderOk() && cap > 0
      modifies this`cursor, this`batch, this`exhausted, this`sizes
      ensures ReaderOk() && |es| <= cap && EntriesNamed(es)
      ensures es + Ahead() == if restart then Entries(listing) else old(Ahead())
      ensures |es| < cap ==> Ahead() == []
    {
      assert Entries([]) == [] && EntriesNamed([]);
      hide Entries, EntriesNamed, ListingOk, Unread;
      ghost var all := if restart then Entries(listing) else Ahead();
      es := [];
      if restart {
        Fill(true);
      } else if batch == [] && !exhausted {
        Fill(false);
      }
      while |es| < cap && !exhausted
        invariant ReaderOk() && |es| <= cap && EntriesNamed(es)
        invariant es + Ahead() == all
        decreases !exhausted, |Unread()|, batch == []
      {
        if batch == [] {
          Fill(false);
        } else {
          es := AddNext(es);
        }
      }
      NoneAhead();
    }

    // ---- getdents and lseek ----

    /** The records to come once the reader is past the dots; a restart is still to be done. */
    ghost function Coming(restart: bool): seq<Record>
      requires cursor <= |listing|
      reads this
    {
      Numbered(held + if restart then Entries(listing) else Ahead(), pos + 1)
    }

    /** Past the dots: `rs` is packed in the first `used` bytes, and `goal` is what is to be returned in all. */
    ghost predicate Packing(buf: array<Byte>, len: nat, used: nat, rs: seq<Record>, restart: bool, goal: seq<Record>)
      reads this, buf
    {
      && ReaderOk() && |held| <= BATCH && EntriesNamed(held) && pos >= 2 && (restart ==> held == [])
      && used <= len <= buf.Length && buf[..used] == PackedAll(rs)
      && Splits(rs, Coming(restart), goal)
    }

    /** The first held entry into the buffer, if it fits. */
    method PackFirst(buf: array<Byte>, len: nat, used: nat, ghost rs: seq<Record>, ghost goal: seq<Record>)
      returns (ok: bool, now: nat, ghost more: seq<Record>)
      requires Packing(buf, len, used, rs, false, goal) && held != []
      modifies this`held, this`pos, buf
      ensures Packing(buf, len, now, more, false, goal)
      ensures Ahead() == old(Ahead())
      ensures if ok then |held| == old(|held|) - 1 && now > used
              else now == used && more == rs && held == old(held) && now + RecLen(held[0].name) > len
    {
      hide Entries, Packed, ListingOk, Numbered, PackedAll, Splits;
      var r := RecordOf(held[0], pos + 1);
      ok, now := DirentPack(buf, len, used, r);
      more := rs;
      if !ok {
        assert buf[..][..now] == buf[..now];
        return;
      }
      PackedSnoc(rs, r);
      NumberedHead(held, Ahead(), pos + 1);
      more := rs + [r];
      ghost var rest := Numbered(held[1..] + Ahead(), pos + 2);
      held := held[1..];
      pos := pos + 1;
      assert Coming(false) == rest;
      SplitsNext(rs, r, rest, goal);
    }

    /** The inner loop: held entries into the buffer, until one does not fit. */
    method PackHeld(buf: array<Byte>, len: nat, used: nat, ghost rs: seq<Record>, ghost goal: seq<Record>)
      returns (now: nat, ghost more: seq<Record>)
      requires Packing(buf, len, used, rs, false, goal)
      modifies this`held, this`pos, buf
      ensures Packing(buf, len, now, more, false, goal)
      ensures held != [] ==> now + RecLen(held[0].name) > len
      ensures Ahead() == old(Ahead()) && used <= now && (now == used ==> |held| == old(|held|)) && |held| <= old(|held|)
    {
      assert cursor <= |listing|;
      hide Packing;
      now, more := used, rs;
      while held != []
        invariant Packing(buf, len, now, more, false, goal)
        invariant cursor <= |listing| && Ahead() == old(Ahead())
        invariant used <= now && (now == used ==> |held| == old(|held|)) && |held| <= old(|held|)
        decreases |held|
      {
        var ok;
        ok, now, more := PackFirst(buf, len, now, more, goal);
        if !ok { return; }
      }
    }

    /** The host's next entries, to be held; none when the directory is done. */
    method ReadBatch(restart: bool) returns (done: bool)
      requires ReaderOk() && held == []
      modifies this`cursor, this`batch, this`exhausted, this`sizes, this`held
      ensures ReaderOk() && |held| <= BATCH && EntriesNamed(held)
      ensures Coming(false) == old(Coming(restart))
      ensures done ==> Coming(false) == []
      ensures !done ==> held != []
      ensures !restart && !done ==> |held| + |Ahead()| == |old(Ahead())|
    {
      hide Entries, ListingOk, EntriesNamed;
      ghost var ahead := if restart then Entries(listing) else Ahead();
      NoneHeld(ahead, pos + 1);
      hide Numbered;
      var es := DirRead(BATCH, restart);
      ghost var left := Ahead();
      held := es;
      assert Ahead() == left;
      hide Unread;
      done := held == [];
      assert done ==> ahead == [];
    }

    /** `hostdir_getdents` past the dots. */
    method PackHost(buf: array<Byte>, len: nat, used: nat, again: bool, ghost rs: seq<Record>, ghost goal: seq<Record>)
      returns (n: int, ghost more: seq<Record>)
      requires Packing(buf, len, used, rs, again, goal)
      modifies this`cursor, this`batch, this`exhausted, this`sizes, this`held, this`pos, buf
      ensures n == -EINVAL || n >= 0
      ensures Packing(buf, len, if n < 0 then 0 else n, more, false, goal)
      ensures n < 0 ==> more == [] && held != [] && RecLen(held[0].name) > len && used == 0
      ensures n >= used || n < 0
      ensures n >= 0 && Coming(false) != [] ==> held != [] && n > 0 && n + RecLen(held[0].name) > len
    {
      hide Coming, Entries, Numbered, ListingOk, Unread, PackedAll;
      var restart: bool, now: nat := again, used;
      more := rs;
      while true
        invariant Packing(buf, len, now, more, restart, goal) && used <= now
        decreases restart, |held| + |Ahead()|, |Ahead()|
      {
        if !restart {
          now, more := PackHeld(buf, len, now, more, goal);
          if held != [] {
            PackedNone(more);
            assert buf[..now] == PackedAll(more);
            return if now != 0 then now else -EINVAL, more;
          }
        }
        var done := ReadBatch(restart);
        restart := false;
        if done { return now, more; }
      }
    }

    /** `hostdir_getdents` past the dots, in terms of what is still to come. */
    method Finish(buf: array<Byte>, len: nat, used: nat, restart: bool, ghost rs: seq<Record>, ghost goal: seq<Record>)
      returns (n: int, ghost more: seq<Record>)
      requires Packing(buf, len, used, rs, restart, goal)
      modifies this`cursor, this`batch, this`exhausted, this`sizes, this`held, this`pos, buf
      ensures ReaderOk() && |held| <= BATCH && EntriesNamed(held) && pos >= 2
      ensures Splits(more, Pending(), goal)
      ensures if n < 0 then n == -EINVAL && more == [] else n <= len && buf[..n] == PackedAll(more)
      ensures n < 0 ==> Pending() != [] && RecLen(Pending()[0].name) > len
      ensures n >= 0 && Pending() != [] ==> n + RecLen(Pending()[0].name) > len
      ensures n == 0 <==> goal == []
    {
      hide Entries, ListingOk, PackedAll, Numbered, Unread;
      n, more := PackHost(buf, len, used, restart, rs, goal);
      HeldFirst(held, Ahead(), pos + 1);
      PackedNone(more);
      assert n >= 0 ==> buf[..n] == PackedAll(more);
    }

    /** `.`, if it is still to come. */
    method PackDot(buf: array<Byte>, len: nat) returns (ok: bool, used: nat, ghost rs: seq<Record>)
      requires pos < 2 && len <= buf.Length
      modifies this`pos, buf
      ensures if ok then pos == 1 && used <= len && buf[..used] == PackedAll(rs) && (used == 0 <==> old(pos) == 1)
              else old(pos) == 0 && pos == 0 && len < RecLen(DotRecord(ino).name)
      ensures rs == if ok && old(pos) == 0 then [DotRecord(ino)] else []
    {
      ok, used, rs := true, 0, [];
      if pos == 0 {
        ok, used := DirentPack(buf, len, used, DotRecord(ino));
        if !ok { return; }
        pos := 1;
        rs := [DotRecord(ino)];
        OnePacked(DotRecord(ino));
      }
    }

    /** `hostdir_getdents`: records while they fit. Nothing is lost or repeated, a
        call stops only for want of room, and with room for any record 0 means the end. */
    method GetDents(buf: array<Byte>, len: nat) returns (n: int, ghost rs: seq<Record>)
      requires Valid() && len <= buf.Length
      modifies this, buf
      ensures Valid() && got == old(got) + rs && Splits(rs, Pending(), old(Pending()))
      ensures if n < 0 then n == -22 && rs == [] else n <= len && buf[..n] == PackedAll(rs)
      ensures n < 0 ==> Pending() != [] && RecLen(Pending()[0].name) > len
      ensures n >= 0 && Pending() != [] ==> n + RecLen(Pending()[0].name) > len
      ensures n == 0 <==> old(Pending()) == [] || (old(pos) == 1 && len < RecLen(DotDotRecord().name))
    {
      DotsFirst(ino, listing);
      hide Packing, PackedAll, Packed, Entries, Numbered, Everything, ListingOk, RecLen, Splits;
      ghost var goal, before := Pending(), got;
      if pos >= 2 {
        assert Packing(buf, len, 0, [], false, goal) by { FirstPacking(buf, len, goal); }
        n, rs := Finish(buf, len, 0, false, [], goal);
      } else {
        n, rs := StartDents(buf, len, goal);
      }
      GotMore(before, rs, Pending(), goal, Everything(ino, listing));
      got := got + rs;
    }

    lemma FirstPacking(buf: array<Byte>, len: nat, goal: seq<Record>)
      requires Valid() && pos >= 2 && len <= buf.Length && goal == Pending()
      ensures Packing(buf, len, 0, [], false, goal)
    {
    }

    /** The first call, or one after it that has `..` still to return. */
    method StartDents(buf: array<Byte>, len: nat, ghost goal: seq<Record>) returns (n: int, ghost rs: seq<Record>)
      requires Valid() && len <= buf.Length && pos < 2 && goal == Pending()
      modifies this`open, this`cursor, this`batch, this`exhausted, this`sizes, this`held, this`pos, buf
      ensures ReaderOk() && |held| <= BATCH && EntriesNamed(held) && (pos < 2 ==> held == []) && (pos >= 2 ==> open)
      ensures Splits(rs, Pending(), goal)
      ensures if n < 0 then n == -EINVAL && rs == [] else n <= len && buf[..n] == PackedAll(rs)
      ensures n < 0 ==> Pending() != [] && RecLen(Pending()[0].name) > len
      ensures n >= 0 && Pending() != [] ==> n + RecLen(Pending()[0].name) > len
      ensures n == 0 <==> old(pos) == 1 && len < RecLen(DotDotRecord().name)
    {
      DotsFirst(ino, listing);
      hide PackedAll, Packed, Entries, Numbered, Everything, ListingOk, RecLen, Splits;
      ghost var was := pos;
      SplitsAll(goal);
      SplitsDot(was, ino, listing);
      var ok, used;
      ok, used, rs := PackDot(buf, len);
      if !ok { return -EINVAL, rs; }
      var now;
      ok, now := DirentPack(buf, len, used, DotDotRecord());
      if !ok {
        assert buf[..][..used] == buf[..used];
        return used, rs;
      }
      PackedSnoc(rs, DotDotRecord());
      rs := rs + [DotDotRecord()];
      pos := 2;
      open, batch, exhausted := true, [], false;
      NoneHeld(Entries(listing), 3);
      TwoDots(was, ino, listing);
      assert Packing(buf, len, now, rs, true, goal);
      n, rs := Finish(buf, len, now, true, rs, goal);
    }

    /** `hostdir_lseek`. */
    method Seek(off: int, whence: nat) returns (r: int)
      requires Valid()
      modifies this
      ensures Valid()
      ensures whence == 0 && off == 0 ==> r == 0 && got == [] && Pending() == Everything(ino, listing)
      ensures !(whence == 0 && off == 0) ==> got == old(got) && Pending() == old(Pending())
                                             && r == if whence == 1 && off == 0 then pos else -22
    {
      SplitsAll(Everything(ino, listing));
      hide Everything, Numbered, Entries, Splits;
      if whence == 0 && off == 0 {
        pos, held, open := 0, [], false;
        got := [];
        return 0;
      }
      if whence == 1 && off == 0 { return pos; }
      return -EINVAL;
    }
  }

  lemma NoneHeld(ahead: seq<Entry>, off: nat)
    ensures Numbered([] + ahead, off) == Numbered(ahead, off)
    ensures ahead == [] ==> Numbered(ahead, off) == []
  {
    assert [] + ahead == ahead;
  }

  lemma HeldFirst(held: seq<Entry>, ahead: seq<Entry>, off: nat)
    ensures held != [] ==> Numbered(held + ahead, off) != [] && Numbered(held + ahead, off)[0].name == held[0].name
  {
  }

  /** Nothing packed is no record. */
  lemma PackedNone(rs: seq<Record>)
    ensures PackedAll(rs) == [] <==> rs == []
  {
    if rs != [] { assert |Packed(rs[0])| > 0; }
  }

  lemma DotsFirst(ino: Word, listing: seq<Raw>)
    ensures Everything(ino, listing) == [DotRecord(ino)] + Everything(ino, listing)[1..]
    ensures Everything(ino, listing)[1..] == [DotDotRecord()] + Numbered(Entries(listing), 3)
  {
  }

  /** The dots in front of the numbered entries make up what was to come at `pos`. */
  lemma TwoDots(pos: nat, ino: Word, listing: seq<Raw>)
    requires pos < 2
    ensures Splits((if pos == 0 then [DotRecord(ino)] else []) + [DotDotRecord()], Numbered(Entries(listing), 3),
                   if pos == 0 then Everything(ino, listing) else Everything(ino, listing)[1..])
  {
  }

  lemma GotMore(got: seq<Record>, rs: seq<Record>, pending: seq<Record>, was: seq<Record>, all: seq<Record>)
    requires Splits(rs, pending, was) && Splits(got, was, all)
    ensures Splits(got + rs, pending, all)
  {
  }

  lemma SplitsNext(done: seq<Record>, r: Record, left: seq<Record>, all: seq<Record>)
    requires Splits(done, [r] + left, all)
    ensures Splits(done + [r], left, all)
  {
    assert done + ([r] + left) == (done + [r]) + left;
  }

  lemma SplitsAll(all: seq<Record>)
    ensures Splits([], all, all)
  {
  }

  /** Stopping before `..`. */
  lemma SplitsDot(pos: nat, ino: Word, listing: seq<Raw>)
    requires pos < 2
    ensures Splits(if pos == 0 then [DotRecord(ino)] else [], Everything(ino, listing)[1..],
                   if pos == 0 then Everything(ino, listing) else Everything(ino, listing)[1..])
  {
  }

  lemma OnePacked(r: Record)
    ensures PackedAll([r]) == Packed(r) && [] + Packed(r) == Packed(r)
  {
  }

  lemma NumberedHead(held: seq<Entry>, ahead: seq<Entry>, off: nat)
    requires held != []
    ensures Numbered(held + ahead, off) == [RecordOf(held[0], off)] + Numbered(held[1..] + ahead, off + 1)
  {
    assert (held + ahead)[1..] == held[1..] + ahead;
  }

  /** `d_off` counts 1, 2, 3 and so on over the whole directory, and every record
      starts 8-aligned. */
  lemma OffsetsCount(ino: Word, listing: seq<Raw>, i: nat)
    requires i < |Everything(ino, listing)|
    ensures Everything(ino, listing)[i].off == i + 1
    ensures |PackedAll(Everything(ino, listing)[..i])| % 8 == 0
  {
    AlignedAll(Everything(ino, listing)[..i]);
  }

  lemma {:induction false} AlignedAll(rs: seq<Record>)
    ensures |PackedAll(rs)| % 8 == 0
  {
    hide Packed, RecLen;
    if rs != [] {
      AlignedAll(rs[1..]);
      assert |PackedAll(rs)| == RecLen(rs[0].name) + |PackedAll(rs[1..])|;
    }
  }

  lemma {:induction false} EntriesOk(listing: seq<Raw>)
    ensures EntriesNamed(Entries(listing)) && |Entries(listing)| <= |listing|
  {
    if listing != [] {
      EntriesOk(listing[1..]);
    }
  }

  lemma EverythingOk(ino: Word, listing: seq<Raw>)
    requires ListingOk(listing)
    ensures forall i :: 0 <= i < |Everything(ino, listing)| ==> RecordOk(Everything(ino, listing)[i])
  {
    EntriesOk(listing);
  }

  /** A program that reads until 0, with a buffer of any size from 280 bytes up at
      each call, parses exactly the directory. */
  method ReadAll(d: DirStream, buf: array<Byte>, lens: seq<nat>) returns (bytes: seq<Byte>)
    requires d.Valid() && d.got == []
    requires lens != [] && forall i :: 0 <= i < |lens| ==> RECORD_MAX <= lens[i] <= buf.Length
    modifies d, buf
    ensures bytes == PackedAll(Everything(d.ino, d.listing))
    ensures Parsed(bytes) == Everything(d.ino, d.listing)
  {
    hide Everything, Parsed, Packed, ListingOk, PackedAll, DirStream.Pending;
    bytes := [];
    assert PackedAll([]) == [] by { PackedNone([]); }
    var i, more := 0, true;
    while more
      invariant d.Valid() && bytes == PackedAll(d.got) && (!more ==> d.Pending() == [])
      decreases more, |d.Pending()|
    {
      var part;
      part, more := ReadOnce(d, buf, lens[i % |lens|]);
      bytes := bytes + part;
      i := i + 1;
    }
    AllGot(d.got, Everything(d.ino, d.listing));
    EverythingOk(d.ino, d.listing);
    ParsePacked(Everything(d.ino, d.listing));
  }

  /** One call with room for any record, and whether there is more to read. */
  method ReadOnce(d: DirStream, buf: array<Byte>, len: nat) returns (part: seq<Byte>, more: bool)
    requires d.Valid() && RECORD_MAX <= len <= buf.Length
    modifies d, buf
    ensures d.Valid() && PackedAll(d.got) == old(PackedAll(d.got)) + part
    ensures if more then |d.Pending()| < old(|d.Pending()|) else d.Pending() == []
  {
    ghost var was := d.Pending();
    hide Everything, Packed, ListingOk, PackedAll, DirStream.Pending;
    RoomForAny(d);
    DotDotSmall();
    var n;
    ghost var rs;
    ghost var before := d.got;
    n, rs := d.GetDents(buf, len);
    RoomForAny(d);
    more := n != 0;
    PackedConcat(before, rs);
    PackedNone(rs);
    part := buf[..n];
  }

  /** The one way to 0 before the end: a first buffer with room for `.` only, and a second one
      too small for `..`. */
  method EarlyZero(d: DirStream, buf: array<Byte>, first: nat, second: nat) returns (n1: int, n2: int)
    requires d.Valid() && d.pos == 0 && 24 <= first < 48 && second < 24 && first <= buf.Length && second <= buf.Length
    modifies d, buf
    ensures d.Valid() && n1 == 24 && n2 == 0 && d.Pending() != []
  {
    DotsFirst(d.ino, d.listing);
    ghost var all := Everything(d.ino, d.listing);
    assert d.Pending() == all && RecLen(DotDotRecord().name) == 24;
    hide Everything, Packed, PackedAll, ListingOk, RecLen, DirStream.Pending;
    ghost var rs1, rs2;
    n1, rs1 := d.GetDents(buf, first);
    OnlyDot(d, rs1, first, n1, all);
    n2, rs2 := d.GetDents(buf, second);
    PackedNone(rs2);
    SplitsFront(rs2, d.Pending(), all[1..]);
  }

  lemma OnlyDot(d: DirStream, rs: seq<Record>, len: nat, n: int, all: seq<Record>)
    requires d.Valid() && all == Everything(d.ino, d.listing) && Splits(rs, d.Pending(), all) && 24 <= len < 48
    requires if n < 0 then rs == [] else n <= len && n == |PackedAll(rs)|
    requires n < 0 ==> d.Pending() != [] && RecLen(d.Pending()[0].name) > len
    requires n >= 0 && d.Pending() != [] ==> n + RecLen(d.Pending()[0].name) > len
    ensures n == 24 && d.pos == 1 && d.Pending() == all[1..]
  {
    DotsFirst(d.ino, d.listing);
    assert RecLen(DotRecord(d.ino).name) == 24 && RecLen(DotDotRecord().name) == 24;
    var p := d.Pending();
    FirstOfTwo(rs, p, all, len, n, DotRecord(d.ino), DotDotRecord());
    assert p != [] && p[0] == all[1] && p[0].off == 2;
    assert |p| == |all| - 1;
    NextOffset(d);
  }

  /** Past the dots the next record's offset is behind the position. */
  lemma NextOffset(d: DirStream)
    requires d.Valid()
    ensures d.pos >= 2 && d.Pending() != [] ==> d.Pending()[0].off == d.pos + 1
  {
  }

  lemma PackedLengths(rs: seq<Record>)
    ensures rs == [] ==> PackedAll(rs) == []
    ensures |rs| == 1 ==> |PackedAll(rs)| == RecLen(rs[0].name)
    ensures |rs| >= 2 ==> |PackedAll(rs)| >= RecLen(rs[0].name) + RecLen(rs[1].name)
  {
    hide Packed;
    if |rs| >= 2 { assert rs[1..][0] == rs[1]; }
  }

  lemma FirstOfTwo(rs: seq<Record>, p: seq<Record>, all: seq<Record>, len: nat, n: int, a: Record, b: Record)
    requires Splits(rs, p, all) && |all| >= 2 && all[0] == a && all[1] == b && RecLen(a.name) == 24 && RecLen(b.name) == 24
    requires if n < 0 then rs == [] else n <= len && n == |PackedAll(rs)|
    requires 24 <= len < 48
    requires n < 0 ==> p != [] && RecLen(p[0].name) > len
    requires n >= 0 && p != [] ==> n + RecLen(p[0].name) > len
    ensures rs == [a] && p == all[1..] && n == 24
  {
    PackedLengths(rs);
    hide PackedAll, RecLen;
    SplitsFront(rs, p, all);
  }

  lemma SplitsFront(done: seq<Record>, left: seq<Record>, all: seq<Record>)
    requires Splits(done, left, all)
    ensures |done| + |left| == |all| && (done == [] ==> left == all) && (|done| == 1 ==> left == all[1..])
    ensures |done| > 0 ==> all != [] && done[0] == all[0]
    ensures |done| > 1 ==> |all| > 1 && done[1] == all[1]
  {
  }

  lemma DotDotSmall()
    ensures RecLen(DotDotRecord().name) <= RECORD_MAX
  {
  }

  lemma AllGot(got: seq<Record>, all: seq<Record>)
    requires Splits(got, [], all)
    ensures got == all
  {
  }

  lemma RoomForAny(d: DirStream)
    requires d.Valid()
    ensures d.Pending() != [] ==> RecLen(d.Pending()[0].name) <= RECORD_MAX
  {
    EverythingOk(d.ino, d.listing);
    var p, e := d.Pending(), Everything(d.ino, d.listing);
    if p != [] { assert p[0] == e[|d.got|]; }
  }
}
