/** Descriptors and pipes together (core/sys_fs.c:146-188, 192-237, 289-305,
    604-623): a pipe lives as long as a description of either end does. The ring
    itself is the queue that PipeRing implements. */
module PipeCalls {
  import opened Bytes
  import opened Pipes
  import opened Descriptors

  type RingId = nat

  datatype End = ReadEnd(ring: RingId) | WriteEnd(ring: RingId) | Plain

  /** A live ring and its two descriptions. */
  datatype Pipe = Pipe(q: Queue, rd: FileId, wr: FileId)

  /** What a byte call answers: the pipe's own answer, a bad descriptor, or a file that is no pipe. */
  datatype Answer = Piped(c: Count) | BadFd | OtherFile

  /** A ring's ends are counted by the descriptions that are live. */
  ghost predicate PipeOk(r: RingId, p: Pipe, ends: map<FileId, End>) {
    && Fifo(p.q) && p.rd != p.wr
    && p.q.readers == (if p.rd in ends then 1 else 0)
    && p.q.writers == (if p.wr in ends then 1 else 0)
    && (p.rd in ends ==> ends[p.rd] == ReadEnd(r))
    && (p.wr in ends ==> ends[p.wr] == WriteEnd(r))
    && (p.rd in ends || p.wr in ends)
  }

  /** A pipe description's ring is live, and knows it. */
  ghost predicate EndOk(f: FileId, e: End, rings: map<RingId, Pipe>) {
    match e
    case ReadEnd(r) => r in rings && rings[r].rd == f
    case WriteEnd(r) => r in rings && rings[r].wr == f
    case Plain => true
  }

  /** Every ring ever made is live, or was freed exactly once. */
  ghost predicate FreedOk(freed: seq<RingId>, next: RingId, rings: map<RingId, Pipe>) {
    && NoDup(freed) && 0 < next && (forall r :: r in rings ==> 0 < r < next)
    && (forall r :: r in freed <==> 0 < r < next && r !in rings)
  }

  /** Both descriptions of every ring were made before `next`. */
  ghost predicate Known(rings: map<RingId, Pipe>, next: FileId) {
    forall r :: r in rings ==> rings[r].rd < next && rings[r].wr < next
  }

  ghost predicate Wired(ends: map<FileId, End>, rings: map<RingId, Pipe>) {
    && (forall r :: r in rings ==> PipeOk(r, rings[r], ends))
    && (forall f :: f in ends ==> EndOk(f, ends[f], rings))
  }

  class Process {
    const t: FdTable
    /** What each live description is of. */
    var ends: map<FileId, End>
    var rings: map<RingId, Pipe>
    var nextRing: RingId
    /** The rings freed so far, in order. */
    ghost var freed: seq<RingId>

    constructor ()
      ensures Valid() && fresh(t) && fresh(t.slots) && fresh(t.cloexec) && ends == map[] && rings == map[] && freed == []
    {
      t := new FdTable();
      ends, rings, nextRing, freed := map[], map[], 1, [];
    }

    /** In order, but for the references the system call at work has still to drop. */
    ghost predicate Working(extra: multiset<FileId>)
      reads this, t, t.slots, t.cloexec
    {
      t.Valid(extra) && ends.Keys == t.refs.Keys && Wired(ends, rings) && FreedOk(freed, nextRing, rings) && Known(rings, t.nextFile)
    }

    ghost predicate Valid()
      reads this, t, t.slots, t.cloexec
    {
      Working(multiset{})
    }

    /** The description behind a descriptor, or 0. */
    function Get(fd: int): FileId
      requires t.slots.Length == NR_OPEN
      reads t.slots
    {
      if 0 <= fd < NR_OPEN then t.slots[fd] else 0
    }

    /** The release of a description whose last reference is gone; a ring goes with its second end. */
    method Drop(f: FileId)
      requires Wired(ends, rings) && FreedOk(freed, nextRing, rings) && f in ends
      modifies this`ends, this`rings, this`freed
      ensures Wired(ends, rings) && FreedOk(freed, nextRing, rings)
      ensures ends == old(ends) - {f} && rings == AfterDrop(old(rings), old(ends[f]))
      ensures forall next :: Known(old(rings), next) ==> Known(rings, next)
    {
      DropWired(ends, rings, f);
      var e := ends[f];
      assert EndOk(f, e, rings);
      hide Wired;
      ends := ends - {f};
      if e.Plain? { return; }
      var r, p := e.ring, rings[e.ring];
      var q := LessEnd(p.q, e.ReadEnd?);
      if EndsGone(q) {
        rings := rings - {r};
        freed := freed + [r];
      } else {
        rings := rings[r := p.(q := q)];
      }
    }

    /** `file_put`. */
    method Put(f: FileId, ghost extra: multiset<FileId>) returns (gone: bool)
      requires Working(extra + multiset{f})
      modifies this`ends, this`rings, this`freed, t`refs, t`released
      ensures Working(extra)
      ensures gone == (multiset(t.slots[..])[f] + extra[f] == 0)
      ensures f in old(ends)
      ensures ends == (if gone then old(ends) - {f} else old(ends))
      ensures rings == if gone then AfterDrop(old(rings), old(ends)[f]) else old(rings)
    {
      assert f in extra + multiset{f};
      assert f in t.refs by { t.ExtraLive(extra + multiset{f}, f); }
      hide Wired, FreedOk, FdTable.Valid;
      gone := t.Put(f, extra);
      if gone { Drop(f); }
    }

    /** `fd_close`. */
    method CloseFd(fd: int, ghost extra: multiset<FileId>) returns (r: FdResult)
      requires Working(extra)
      modifies this`ends, this`rings, this`freed, t`refs, t`released, t.slots, t.cloexec
      ensures Working(extra)
      ensures t.slots.Length == NR_OPEN && r == if old(Get(fd)) != 0 then Fd(0) else Bad(EBADF)
      ensures r.Bad? ==> t.slots[..] == old(t.slots[..]) && t.cloexec[..] == old(t.cloexec[..]) && ends == old(ends) && rings == old(rings)
      ensures r.Fd? ==> t.slots[..] == old(t.slots[..])[fd := 0] && t.cloexec[..] == old(t.cloexec[..])[fd := false]
      ensures r.Fd? ==>
                var f := old(t.slots[fd]);
                && f in old(ends)
                && if multiset(t.slots[..])[f] + extra[f] == 0 then ends == old(ends) - {f} && rings == AfterDrop(old(rings), old(ends)[f])
                   else ends == old(ends) && rings == old(rings)
    {
      hide Wired, FreedOk, AfterDrop, Known, FdTable.Valid;
      var gone;
      r, gone := TakeOut(fd, extra);
      if gone != 0 { Drop(gone); }
    }

    /** The table's part of close. */
    method TakeOut(fd: int, ghost extra: multiset<FileId>) returns (r: FdResult, gone: FileId)
      requires t.Valid(extra) && ends.Keys == t.refs.Keys
      modifies t`refs, t`released, t.slots, t.cloexec
      ensures t.Valid(extra) && t.slots.Length == NR_OPEN && r == if old(Get(fd)) != 0 then Fd(0) else Bad(EBADF)
      ensures r.Bad? ==> t.slots[..] == old(t.slots[..]) && t.cloexec[..] == old(t.cloexec[..]) && gone == 0
      ensures r.Fd? ==> t.slots[..] == old(t.slots[..])[fd := 0] && t.cloexec[..] == old(t.cloexec[..])[fd := false]
      ensures r.Fd? ==> var f := old(t.slots[fd]); f != 0 && f in ends && gone == if multiset(t.slots[..])[f] + extra[f] == 0 then f else 0
      ensures t.refs.Keys == if gone == 0 then ends.Keys else ends.Keys - {gone}
    {
      if Get(fd) != 0 { t.SlotLive(extra, fd); }
      hide FdTable.Valid;
      r, gone := t.Close(fd, extra);
    }

    /** sys_dup, sys_dup2 and sys_dup3 above the table, and F_DUPFD. */
    method Dup(fd: int, on: bool, min: int) returns (r: FdResult)
      requires Valid()
      modifies t`refs, t.slots, t.cloexec
      ensures Valid()
      ensures old(Get(fd)) == 0 ==> r == Bad(EBADF)
      ensures old(Get(fd)) != 0 && min < 0 ==> r == Bad(EINVAL)
      ensures old(Get(fd)) != 0 && min >= 0 && r.Bad? ==> r == Bad(EMFILE) && forall i :: min <= i < NR_OPEN ==> old(t.slots[..])[i] != 0
      ensures r.Fd? ==>
                && 0 <= min <= r.n < NR_OPEN && Lowest(old(t.slots[..]), min, r.n)
                && t.slots[..] == old(t.slots[..])[r.n := old(Get(fd))] && t.cloexec[..] == old(t.cloexec[..])[r.n := on]
      ensures r.Bad? ==> t.slots[..] == old(t.slots[..]) && t.cloexec[..] == old(t.cloexec[..])
    {
      var f := Get(fd);
      if f == 0 { return Bad(EBADF); }
      t.SlotLive(multiset{}, fd);
      hide Wired, FreedOk;
      r := t.Install(f, on, min, multiset{});
    }

    method Dup2(oldfd: int, newfd: int, on: bool) returns (r: FdResult)
      requires Valid()
      modifies this`ends, this`rings, this`freed, t`refs, t`released, t.slots, t.cloexec
      ensures Valid()
      ensures r == if old(Get(oldfd)) != 0 && 0 <= newfd < NR_OPEN then Fd(newfd) else Bad(EBADF)
      ensures r.Bad? || oldfd == newfd ==> t.slots[..] == old(t.slots[..]) && t.cloexec[..] == old(t.cloexec[..])
      ensures r.Fd? && oldfd != newfd ==>
                t.slots[..] == old(t.slots[..])[newfd := old(Get(oldfd))] && t.cloexec[..] == old(t.cloexec[..])[newfd := on]
      ensures ends == old(ends) || (old(Get(newfd)) != 0 && r.Fd? && ends == old(ends) - {old(Get(newfd))})
      ensures forall x :: x in rings ==> x in old(rings) && SameBytes(rings[x], old(rings)[x])
    {
      hide Wired, FreedOk, Known, FdTable.Valid, SameBytes;
      var gone;
      r, gone := SwapIn(oldfd, newfd, on);
      DropAny(gone);
    }

    /** The table's part of dup2: the description behind `newfd` is `gone` if that was its last reference. */
    method SwapIn(oldfd: int, newfd: int, on: bool) returns (r: FdResult, gone: FileId)
      requires t.Valid(multiset{}) && ends.Keys == t.refs.Keys
      modifies t`refs, t`released, t.slots, t.cloexec
      ensures t.Valid(multiset{}) && t.slots.Length == NR_OPEN
      ensures gone != 0 ==> gone in ends && gone == old(Get(newfd)) && r.Fd?
      ensures t.refs.Keys == if gone == 0 then ends.Keys else ends.Keys - {gone}
      ensures r == if old(Get(oldfd)) != 0 && 0 <= newfd < NR_OPEN then Fd(newfd) else Bad(EBADF)
      ensures r.Bad? || oldfd == newfd ==> t.slots[..] == old(t.slots[..]) && t.cloexec[..] == old(t.cloexec[..])
      ensures r.Fd? && oldfd != newfd ==>
                t.slots[..] == old(t.slots[..])[newfd := old(Get(oldfd))] && t.cloexec[..] == old(t.cloexec[..])[newfd := on]
    {
      if 0 <= newfd < NR_OPEN && t.slots[newfd] != 0 { t.SlotLive(multiset{}, newfd); }
      hide FdTable.Valid;
      r, gone := t.Dup2(oldfd, newfd, on, multiset{});
    }

    /** The release of a description, if there is one to release. */
    method DropAny(gone: FileId)
      requires Wired(ends, rings) && FreedOk(freed, nextRing, rings) && (gone != 0 ==> gone in ends)
      modifies this`ends, this`rings, this`freed
      ensures Wired(ends, rings) && FreedOk(freed, nextRing, rings)
      ensures forall next :: Known(old(rings), next) ==> Known(rings, next)
      ensures ends == if gone == 0 then old(ends) else old(ends) - {gone}
      ensures forall x :: x in rings ==> x in old(rings) && SameBytes(rings[x], old(rings)[x])
    {
      hide Wired, FreedOk, AfterDrop, Known;
      if gone != 0 {
        DropSame(rings, ends[gone]);
        Drop(gone);
      }
    }

    method Dup3(oldfd: int, newfd: int, on: bool, badFlags: bool) returns (r: FdResult)
      requires Valid()
      modifies this`ends, this`rings, this`freed, t`refs, t`released, t.slots, t.cloexec
      ensures Valid()
      ensures badFlags || oldfd == newfd ==> r == Bad(EINVAL) && t.slots[..] == old(t.slots[..])
      ensures r.Bad? ==> t.slots[..] == old(t.slots[..]) && t.cloexec[..] == old(t.cloexec[..])
      ensures r.Fd? ==>
                && 0 <= newfd < NR_OPEN
                && t.slots[..] == old(t.slots[..])[newfd := old(Get(oldfd))] && t.cloexec[..] == old(t.cloexec[..])[newfd := on]
      ensures !badFlags && oldfd != newfd ==> r == if old(Get(oldfd)) != 0 && 0 <= newfd < NR_OPEN then Fd(newfd) else Bad(EBADF)
      ensures ends == old(ends) || (old(Get(newfd)) != 0 && r.Fd? && ends == old(ends) - {old(Get(newfd))})
      ensures forall x :: x in rings ==> x in old(rings) && SameBytes(rings[x], old(rings)[x])
    {
      if badFlags || oldfd == newfd { return Bad(EINVAL); }
      r := Dup2(oldfd, newfd, on);
    }

    /** F_SETFD; F_GETFD only looks. */
    method SetFd(fd: int, on: bool) returns (r: FdResult)
      requires Valid()
      modifies t.cloexec
      ensures Valid()
      ensures if old(Get(fd)) != 0 then r == Fd(0) && t.cloexec[..] == old(t.cloexec[..])[fd := on]
              else r == Bad(EBADF) && t.cloexec[..] == old(t.cloexec[..])
    {
      r := t.SetCloexec(fd, on, multiset{});
    }

    // ---- pipe2 ----

    /** `vfs_pipe`: a fresh ring and its two descriptions, each with its creator's reference. */
    method MakePipe() returns (rd: FileId, wr: FileId)
      requires Valid()
      modifies this, t
      ensures Working(multiset{rd, wr}) && rd != 0 && wr != 0
      ensures Besides(ends, rings, old(ends), old(rings), old(nextRing), rd, wr)
      ensures multiset(t.Slots())[rd] == 0 && multiset(t.Slots())[wr] == 0 && nextRing == old(nextRing) + 1
    {
      hide Wired, FdTable.Valid, NoDup;
      rd := t.New(multiset{});
      wr := t.New(multiset{} + multiset{rd});
      assert multiset{} + multiset{rd} + multiset{wr} == multiset{rd, wr};
      t.NoSlots(multiset{rd, wr}, rd, wr);
      PipeWired(ends, rings, nextRing, rd, wr);
      ends := ends[rd := ReadEnd(nextRing)][wr := WriteEnd(nextRing)];
      rings := rings[nextRing := Pipe(Queue([], 1, 1, [], []), rd, wr)];
      nextRing := nextRing + 1;
    }

    /** Both descriptions into the lowest free slots. */
    method InstallBoth(rd: FileId, wr: FileId, on: bool) returns (a: FdResult, b: FdResult)
      requires Working(multiset{rd, wr}) && rd in ends && wr in ends
      modifies t`refs, t.slots, t.cloexec
      ensures Working(multiset{rd, wr})
      ensures Installed(old(t.Slots()), old(t.Flags()), t.Slots(), t.Flags(), rd, wr, a, b, on)
      ensures b.Bad? ==> b == Bad(EMFILE)
    {
      ghost var slots0, clo0 := t.Slots(), t.Flags();
      hide Wired, FreedOk, Known, FdTable.Valid, FdTable.Slots, FdTable.Flags, Placed, Installed;
      a := InstallOne(rd, on, multiset{rd, wr});
      ghost var slots1, clo1 := t.Slots(), t.Flags();
      b := a;
      if a.Fd? { b := InstallOne(wr, on, multiset{rd, wr}); }
      PlacedBoth(slots0, clo0, slots1, clo1, t.Slots(), t.Flags(), rd, wr, a, b, on);
    }

    method InstallOne(f: FileId, on: bool, ghost extra: multiset<FileId>) returns (r: FdResult)
      requires Working(extra) && f in ends
      modifies t`refs, t.slots, t.cloexec
      ensures Working(extra)
      ensures Placed(old(t.Slots()), old(t.Flags()), t.Slots(), t.Flags(), f, r, on)
    {
      assert |t.Slots()| == NR_OPEN && |t.Flags()| == NR_OPEN;
      hide Wired, FreedOk, Known, FdTable.Valid, Lowest;
      r := t.Install(f, on, 0, extra);
    }

    /** The creator's two references go. Descriptions in no slot go with them. */
    method PutBoth(rd: FileId, wr: FileId)
      requires Working(multiset{rd, wr}) && rd != wr
      modifies this`ends, this`rings, this`freed, t`refs, t`released
      ensures Valid()
      ensures rd in old(ends) && wr in old(ends)
      ensures var rings1 := if multiset(t.Slots())[rd] == 0 then AfterDrop(old(rings), old(ends)[rd]) else old(rings);
              var ends1 := if multiset(t.Slots())[rd] == 0 then old(ends) - {rd} else old(ends);
              && rings == (if multiset(t.Slots())[wr] == 0 then AfterDrop(rings1, old(ends)[wr]) else rings1)
              && ends == (if multiset(t.Slots())[wr] == 0 then ends1 - {wr} else ends1)
    {
      hide Wired, FreedOk, Known, FdTable.Valid, AfterDrop;
      assert multiset{rd, wr} == multiset{wr} + multiset{rd};
      var a := Put(rd, multiset{wr});
      assert multiset{wr} == multiset{} + multiset{wr};
      var b := Put(wr, multiset{});
    }

    /** Neither description got a slot: both go, and the ring. */
    method FailNone(rd: FileId, wr: FileId, ghost ends0: map<FileId, End>, ghost rings0: map<RingId, Pipe>, ghost r: RingId)
      requires Working(multiset{rd, wr}) && Besides(ends, rings, ends0, rings0, r, rd, wr)
      requires multiset(t.Slots())[rd] == 0 && multiset(t.Slots())[wr] == 0
      modifies this`ends, this`rings, this`freed, t`refs, t`released
      ensures Valid() && ends == ends0 && rings == rings0
    {
      hide Wired, FreedOk, Known, AfterDrop, FdTable.Valid;
      PipeUndone(ends0, rings0, r, rd, wr);
      PutBoth(rd, wr);
    }

    /** Only the read end got a slot, `fd`. */
    method FailOne(rd: FileId, wr: FileId, fd: nat, ghost ends0: map<FileId, End>, ghost rings0: map<RingId, Pipe>, ghost r: RingId)
      requires Working(multiset{rd, wr}) && Besides(ends, rings, ends0, rings0, r, rd, wr)
      requires fd < NR_OPEN && |t.Slots()| == NR_OPEN && t.Slots()[fd] == rd && rd != 0
      requires multiset(t.Slots())[rd] == 1 && multiset(t.Slots())[wr] == 0
      modifies this`ends, this`rings, this`freed, t`refs, t`released, t.slots, t.cloexec
      ensures Valid() && ends == ends0 && rings == rings0
      ensures t.Slots() == old(t.Slots())[fd := 0] && t.Flags() == old(t.Flags())[fd := false]
    {
      hide Wired, FreedOk, Known, AfterDrop, FdTable.Valid;
      PipeUndone(ends0, rings0, r, rd, wr);
      Swapped(t.Slots(), fd, 0);
      PutBoth(rd, wr);
      var _ := CloseFd(fd, multiset{});
    }

    /** Both got slots, but the caller cannot be told. */
    method FailBoth(rd: FileId, wr: FileId, a: nat, b: nat, ghost ends0: map<FileId, End>, ghost rings0: map<RingId, Pipe>, ghost r: RingId)
      requires Valid() && Besides(ends, rings, ends0, rings0, r, rd, wr)
      requires a < NR_OPEN && b < NR_OPEN && a != b && |t.Slots()| == NR_OPEN && t.Slots()[a] == rd && t.Slots()[b] == wr && rd != 0 && wr != 0
      requires multiset(t.Slots())[rd] == 1 && multiset(t.Slots())[wr] == 1
      modifies this`ends, this`rings, this`freed, t`refs, t`released, t.slots, t.cloexec
      ensures Valid() && ends == ends0 && rings == rings0
      ensures t.Slots() == old(t.Slots())[a := 0][b := 0] && t.Flags() == old(t.Flags())[a := false][b := false]
    {
      hide Wired, FreedOk, Known, AfterDrop, FdTable.Valid;
      PipeUndone(ends0, rings0, r, rd, wr);
      ghost var s := t.Slots();
      Swapped(s, a, 0);
      Swapped(s[a := 0], b, 0);
      var _ := CloseFd(a, multiset{});
      var _ := CloseFd(b, multiset{});
    }

    /** The rest of `sys_pipe2` once the descriptors are, or are not, installed. */
    method Settle(rd: FileId, wr: FileId, a: FdResult, b: FdResult, on: bool, fault: bool, ghost slots0: seq<FileId>,
                  ghost clo0: seq<bool>, ghost ends0: map<FileId, End>, ghost rings0: map<RingId, Pipe>, ghost r0: RingId)
      returns (r: FdResult)
      requires Working(multiset{rd, wr}) && Besides(ends, rings, ends0, rings0, r0, rd, wr) && rd != 0 && wr != 0
      requires Installed(slots0, clo0, t.Slots(), t.Flags(), rd, wr, a, b, on)
      requires multiset(slots0)[rd] == 0 && multiset(slots0)[wr] == 0
      requires Unflagged(slots0, clo0)
      modifies this`ends, this`rings, this`freed, t`refs, t`released, t.slots, t.cloexec
      ensures Valid()
      ensures r.Fd? ==> PipeMade(slots0, clo0, ends0, rings0, r0, t.Slots(), t.Flags(), ends, rings, a, r, on)
      ensures r == if a.Bad? || b.Bad? then Bad(EMFILE) else if fault then Bad(EFAULT) else b
      ensures r.Bad? ==> t.Slots() == slots0 && t.Flags() == clo0 && ends == ends0 && rings == rings0
    {
      assert rd != wr;
      InstalledFacts(slots0, clo0, t.Slots(), t.Flags(), rd, wr, a, b, on);
      hide FdTable.Slots, FdTable.Flags, FdTable.Valid, Besides, Wired, FreedOk, Known, AfterDrop, PipeMade, Installed, Unflagged;
      if a.Bad? {
        FailNone(rd, wr, ends0, rings0, r0);
        return Bad(EMFILE);
      }
      if b.Bad? {
        FailOne(rd, wr, a.n, ends0, rings0, r0);
        return Bad(EMFILE);
      }
      MadeSo(slots0, clo0, ends0, rings0, r0, t.Slots(), t.Flags(), ends, rings, a, b, on, rd, wr);
      SettleBoth(rd, wr, a.n, b.n, fault, ends0, rings0, r0);
      r := if fault then Bad(EFAULT) else b;
    }

    /** Both are in their slots: the creator's references go, and everything else if the caller cannot be told. */
    method SettleBoth(rd: FileId, wr: FileId, a: nat, b: nat, fault: bool,
                      ghost ends0: map<FileId, End>, ghost rings0: map<RingId, Pipe>, ghost r0: RingId)
      requires Working(multiset{rd, wr}) && Besides(ends, rings, ends0, rings0, r0, rd, wr) && rd != wr
      requires a < NR_OPEN && b < NR_OPEN && a != b && |t.Slots()| == NR_OPEN && |t.Flags()| == NR_OPEN
      requires t.Slots()[a] == rd && t.Slots()[b] == wr && rd != 0 && wr != 0
      requires multiset(t.Slots())[rd] == 1 && multiset(t.Slots())[wr] == 1
      modifies this`ends, this`rings, this`freed, t`refs, t`released, t.slots, t.cloexec
      ensures Valid()
      ensures if fault then t.Slots() == old(t.Slots())[a := 0][b := 0] && t.Flags() == old(t.Flags())[a := false][b := false]
                            && ends == ends0 && rings == rings0
              else t.Slots() == old(t.Slots()) && t.Flags() == old(t.Flags()) && ends == old(ends) && rings == old(rings)
    {
      hide FdTable.Slots, FdTable.Flags, FdTable.Valid, Besides, Wired, FreedOk, Known, AfterDrop;
      PutBoth(rd, wr);
      if fault { FailBoth(rd, wr, a, b, ends0, rings0, r0); }
    }

    /** A fresh pipe with both descriptions installed, if two slots are free. */
    method PipeIn(on: bool) returns (rd: FileId, wr: FileId, a: FdResult, b: FdResult)
      requires Valid()
      modifies this, t, t.slots, t.cloexec
      ensures Working(multiset{rd, wr}) && rd != 0 && wr != 0 && nextRing == old(nextRing) + 1
      ensures Besides(ends, rings, old(ends), old(rings), old(nextRing), rd, wr)
      ensures multiset(old(t.Slots()))[rd] == 0 && multiset(old(t.Slots()))[wr] == 0
      ensures Installed(old(t.Slots()), old(t.Flags()), t.Slots(), t.Flags(), rd, wr, a, b, on)
      ensures b.Bad? <==> Crowded(old(t.Slots()))
    {
      hide Wired, FreedOk, Known, FdTable.Valid, FdTable.Slots, FdTable.Flags, Installed, Crowded;
      ghost var slots0, clo0 := t.Slots(), t.Flags();
      rd, wr := MakePipe();
      a, b := InstallBoth(rd, wr, on);
      InstalledUnless(slots0, clo0, t.Slots(), t.Flags(), rd, wr, a, b, on);
    }

    /** `sys_pipe2` with the flags checked; `fault` says the descriptors cannot be
        copied out. A call that fails leaves everything as it found it. */
    method Pipe2(on: bool, fault: bool) returns (a: FdResult, b: FdResult)
      requires Valid()
      modifies this, t, t.slots, t.cloexec
      ensures Valid()
      ensures b.Fd? ==> !fault && PipeMade(old(t.Slots()), old(t.Flags()), old(ends), old(rings), old(nextRing),
                                           t.Slots(), t.Flags(), ends, rings, a, b, on)
      ensures b.Bad? <==> fault || Crowded(old(t.Slots()))
      ensures b.Bad? ==> b == Bad(if Crowded(old(t.Slots())) then EMFILE else EFAULT)
      ensures b.Bad? ==> t.Slots() == old(t.Slots()) && t.Flags() == old(t.Flags()) && ends == old(ends) && rings == old(rings)
      ensures nextRing == old(nextRing) + 1
    {
      assert |t.Slots()| == NR_OPEN && |t.Flags()| == NR_OPEN;
      ghost var ends0, rings0, r0, slots0, clo0 := ends, rings, nextRing, t.Slots(), t.Flags();
      assert Unflagged(slots0, clo0);
      hide Wired, FreedOk, Known, AfterDrop, FdTable.Slots, FdTable.Flags, PipeMade, Installed, FdTable.Valid, Unflagged;
      hide Crowded;
      var rd, wr;
      rd, wr, a, b := PipeIn(on);
      b := Settle(rd, wr, a, b, on, fault, slots0, clo0, ends0, rings0, r0);
    }

    // ---- bytes ----

    /** `read` on a descriptor; only the read end of a pipe gives bytes. */
    method Read(fd: int, len: nat) returns (a: Answer, out: seq<Byte>)
      requires Valid()
      modifies this`rings
      ensures Valid()
      ensures old(Get(fd)) == 0 ==> a == BadFd
      ensures a.Piped? <==> old(Get(fd)) != 0 && ends[old(Get(fd))].ReadEnd?
      ensures !a.Piped? ==> rings == old(rings) && out == []
      ensures a.Piped? ==>
                var r := ends[old(Get(fd))].ring;
                && r in old(rings) && rings.Keys == old(rings.Keys)
                && rings == old(rings)[r := old(rings)[r].(q := rings[r].q)]
                && (a.c, out, rings[r].q) == ReadOf(old(rings)[r].q, len)
                && (len > 0 ==> (a.c == Bytes(0) <==> old(rings)[r].q.contents == [] && old(rings)[r].wr !in ends))
    {
      var f := Get(fd);
      if f == 0 { return BadFd, []; }
      t.SlotLive(multiset{}, fd);
      var e := ends[f];
      if e.Plain? { return OtherFile, []; }
      if e.WriteEnd? { return BadFd, []; }
      assert EndOk(f, e, rings) && PipeOk(e.ring, rings[e.ring], ends);
      hide FdTable.Valid, FreedOk, Known, Fifo, ReadOf, Wired;
      var p := rings[e.ring];
      var (c, bytes, q) := ReadOf(p.q, len);
      CallsKeepFifo(p.q, len, []);
      CallsKeepEnds(p.q, len, []);
      QueueStep(ends, rings, e.ring, q);
      if len > 0 { EndOfFile(p.q, len); }
      rings := rings[e.ring := p.(q := q)];
      KnownStep(old(rings), e.ring, q, t.nextFile);
      FreedStep(freed, nextRing, old(rings), e.ring, q);
      return Piped(c), bytes;
    }

    /** `write` on a descriptor; only the write end of a pipe takes bytes. */
    method Write(fd: int, data: seq<Byte>) returns (a: Answer)
      requires Valid()
      modifies this`rings
      ensures Valid()
      ensures old(Get(fd)) == 0 ==> a == BadFd
      ensures a.Piped? <==> old(Get(fd)) != 0 && ends[old(Get(fd))].WriteEnd?
      ensures !a.Piped? ==> rings == old(rings)
      ensures a.Piped? ==>
                var r := ends[old(Get(fd))].ring;
                && r in old(rings) && rings.Keys == old(rings.Keys)
                && rings == old(rings)[r := old(rings)[r].(q := rings[r].q)]
                && (a.c, rings[r].q) == WriteOf(old(rings)[r].q, data)
    {
      var f := Get(fd);
      if f == 0 { return BadFd; }
      t.SlotLive(multiset{}, fd);
      var e := ends[f];
      if e.Plain? { return OtherFile; }
      if e.ReadEnd? { return BadFd; }
      assert EndOk(f, e, rings) && PipeOk(e.ring, rings[e.ring], ends);
      hide FdTable.Valid, FreedOk, Known, Fifo, WriteOf, Wired;
      var p := rings[e.ring];
      var (c, q) := WriteOf(p.q, data);
      CallsKeepFifo(p.q, 0, data);
      CallsKeepEnds(p.q, 0, data);
      QueueStep(ends, rings, e.ring, q);
      rings := rings[e.ring := p.(q := q)];
      KnownStep(old(rings), e.ring, q, t.nextFile);
      FreedStep(freed, nextRing, old(rings), e.ring, q);
      return Piped(c);
    }

    /** The end of `sys_openat`: a fresh description into the lowest free slot, or gone again. */
    method OpenPlain(on: bool) returns (r: FdResult, f: FileId)
      requires Valid()
      modifies this, t, t.slots, t.cloexec
      ensures Valid()
      ensures nextRing == old(nextRing)
      ensures f !in old(ends) && rings == old(rings) && ends == if r.Fd? then old(ends)[f := Plain] else old(ends)
      ensures Placed(old(t.Slots()), old(t.Flags()), t.Slots(), t.Flags(), f, r, on)
    {
      hide Wired, FreedOk, Known, FdTable.Valid, Placed, FdTable.Slots, FdTable.Flags;
      f := NewPlain();
      ghost var slots0, clo0 := t.Slots(), t.Flags();
      r := InstallOne(f, on, multiset{f});
      PlacedCount(slots0, clo0, t.Slots(), t.Flags(), f, r, on);
      PutPlain(f);
      assert ends == if r.Fd? then old(ends)[f := Plain] else old(ends);
    }

    /** The creator's reference goes. */
    method PutPlain(f: FileId)
      requires Working(multiset{f}) && f in ends && ends[f] == Plain
      modifies this`ends, this`rings, this`freed, t`refs, t`released
      ensures Valid() && rings == old(rings)
      ensures ends == if multiset(t.Slots())[f] == 0 then old(ends) - {f} else old(ends)
    {
      hide Wired, FreedOk, Known, FdTable.Valid;
      assert multiset{f} == multiset{} + multiset{f};
      var gone := Put(f, multiset{});
    }

    method NewPlain() returns (f: FileId)
      requires Valid()
      modifies this, t
      ensures Working(multiset{f}) && rings == old(rings) && nextRing == old(nextRing) && f !in old(ends) && ends == old(ends)[f := Plain]
      ensures multiset(t.Slots())[f] == 0 && f != 0
    {
      hide FdTable.Valid, NoDup;
      f := t.New(multiset{});
      assert multiset{f} == multiset{} + multiset{f};
      t.NoSlots(multiset{f}, f, f);
      PlainWired(ends, rings, f);
      ends := ends[f := Plain];
    }

    /** `fdtable_release`: every descriptor closed, every description released, every ring freed. */
    method ReleaseAll()
      requires Valid()
      modifies this`ends, this`rings, this`freed, t`refs, t`released, t.slots, t.cloexec
      ensures Valid() && ends == map[] && rings == map[]
      ensures forall r :: 0 < r < nextRing ==> r in freed
      ensures forall f :: 0 < f < t.nextFile ==> f in t.released
    {
      for i := 0 to NR_OPEN
        invariant Valid() && ZeroBelow(t.Slots(), i)
      {
        CloseAt(i);
      }
      NoneLeft();
    }

    /** One round of `fdtable_release`. */
    method CloseAt(i: nat)
      requires Valid() && i < NR_OPEN && ZeroBelow(t.Slots(), i)
      modifies this`ends, this`rings, this`freed, t`refs, t`released, t.slots, t.cloexec
      ensures Valid() && ZeroBelow(t.Slots(), i + 1)
    {
      assert |t.Slots()| == NR_OPEN && Get(i) == t.Slots()[i];
      ZeroNext(t.Slots(), i);
      hide Wired, FreedOk, Known, FdTable.Valid, ZeroBelow, AfterDrop;
      var _ := CloseFd(i, multiset{});
    }

    lemma NoneLeft()
      requires Valid() && ZeroBelow(t.Slots(), NR_OPEN)
      ensures ends == map[] && rings == map[]
    {
      t.AllSlotted();
      assert forall f :: f !in ends.Keys;
      assert ends.Keys == {};
      assert forall r :: r in rings ==> PipeOk(r, rings[r], ends);
      assert rings.Keys == {};
    }
  }

  ghost predicate ZeroBelow(slots: seq<FileId>, n: nat) {
    forall k :: 0 <= k < n && k < |slots| ==> slots[k] == 0
  }

  lemma ZeroNext(slots: seq<FileId>, i: nat)
    requires i < |slots| && ZeroBelow(slots, i)
    ensures ZeroBelow(slots[i := 0], i + 1) && (slots[i] == 0 ==> ZeroBelow(slots, i + 1))
  {
  }

  /** What the process had, and a pipe's ring and two descriptions besides. */
  ghost predicate Besides(ends: map<FileId, End>, rings: map<RingId, Pipe>, ends0: map<FileId, End>, rings0: map<RingId, Pipe>,
                          r: RingId, rd: FileId, wr: FileId) {
    && rd !in ends0 && wr !in ends0 && rd != wr && r !in rings0
    && ends == ends0[rd := ReadEnd(r)][wr := WriteEnd(r)]
    && rings == rings0[r := Pipe(Queue([], 1, 1, [], []), rd, wr)]
  }

  /** What installing one description came to. */
  ghost predicate Placed(slots0: seq<FileId>, clo0: seq<bool>, slots: seq<FileId>, clo: seq<bool>, f: FileId, r: FdResult, on: bool) {
    && |slots0| == NR_OPEN && |clo0| == NR_OPEN
    && if r.Fd? then r.n < NR_OPEN && Lowest(slots0, 0, r.n) && slots == slots0[r.n := f] && clo == clo0[r.n := on]
       else r == Bad(EMFILE) && Full(slots0) && slots == slots0 && clo == clo0
  }

  /** No slot is free. */
  ghost predicate Full(slots: seq<FileId>) {
    forall i :: 0 <= i < |slots| ==> slots[i] != 0
  }

  /** No two are. */
  ghost predicate Crowded(slots: seq<FileId>) {
    forall i, j :: 0 <= i < j < |slots| ==> slots[i] != 0 || slots[j] != 0
  }

  lemma PlacedCount(slots0: seq<FileId>, clo0: seq<bool>, slots: seq<FileId>, clo: seq<bool>, f: FileId, r: FdResult, on: bool)
    requires Placed(slots0, clo0, slots, clo, f, r, on) && f != 0 && multiset(slots0)[f] == 0
    ensures multiset(slots)[f] == if r.Fd? then 1 else 0
  {
    if r.Fd? { Swapped(slots0, r.n, f); }
  }

  lemma PlacedBoth(slots0: seq<FileId>, clo0: seq<bool>, slots1: seq<FileId>, clo1: seq<bool>, slots: seq<FileId>, clo: seq<bool>,
                   rd: FileId, wr: FileId, a: FdResult, b: FdResult, on: bool)
    requires Placed(slots0, clo0, slots1, clo1, rd, a, on)
    requires if a.Fd? then Placed(slots1, clo1, slots, clo, wr, b, on) else b == a && slots == slots1 && clo == clo1
    ensures Installed(slots0, clo0, slots, clo, rd, wr, a, b, on) && (b.Bad? ==> b == Bad(EMFILE))
  {
  }

  /** What installing the two descriptions came to. */
  ghost predicate Installed(slots0: seq<FileId>, clo0: seq<bool>, slots: seq<FileId>, clo: seq<bool>, rd: FileId, wr: FileId,
                            a: FdResult, b: FdResult, on: bool) {
    && |slots0| == NR_OPEN && |clo0| == NR_OPEN && (b.Fd? ==> a.Fd?)
    && (a.Fd? ==> a.n < NR_OPEN && Lowest(slots0, 0, a.n))
    && (b.Fd? ==> b.n < NR_OPEN && Lowest(slots0[a.n := rd], 0, b.n))
    && (a.Bad? ==> Full(slots0)) && (a.Fd? && b.Bad? ==> Full(slots0[a.n := rd]))
    && slots == (if b.Fd? then slots0[a.n := rd][b.n := wr] else if a.Fd? then slots0[a.n := rd] else slots0)
    && clo == (if b.Fd? then clo0[a.n := on][b.n := on] else if a.Fd? then clo0[a.n := on] else clo0)
  }

  lemma InstalledUnless(slots0: seq<FileId>, clo0: seq<bool>, slots: seq<FileId>, clo: seq<bool>, rd: FileId, wr: FileId,
                        a: FdResult, b: FdResult, on: bool)
    requires Installed(slots0, clo0, slots, clo, rd, wr, a, b, on) && rd != 0
    ensures b.Bad? <==> Crowded(slots0)
  {
    if b.Fd? {
      assert b.n != a.n && slots0[a.n] == 0 && slots0[b.n] == 0;
    } else if a.Fd? {
      forall i, j | 0 <= i < j < |slots0| ensures slots0[i] != 0 || slots0[j] != 0 {
        assert slots0[a.n := rd][i] != 0 && slots0[a.n := rd][j] != 0;
      }
    }
  }

  /** A pipe2 that worked: the two lowest free descriptors, a fresh ring, nothing else. */
  ghost predicate PipeMade(slots0: seq<FileId>, clo0: seq<bool>, ends0: map<FileId, End>, rings0: map<RingId, Pipe>, r0: RingId,
                           slots: seq<FileId>, clo: seq<bool>, ends: map<FileId, End>, rings: map<RingId, Pipe>,
                           a: FdResult, b: FdResult, on: bool) {
    && |slots0| == |slots| == NR_OPEN && |clo0| == NR_OPEN
    && a.Fd? && b.Fd? && a.n < NR_OPEN && b.n < NR_OPEN && a.n != b.n
    && Lowest(slots0, 0, a.n) && Lowest(slots0[a.n := slots[a.n]], 0, b.n)
    && slots == slots0[a.n := slots[a.n]][b.n := slots[b.n]]
    && clo == clo0[a.n := on][b.n := on]
    && Besides(ends, rings, ends0, rings0, r0, slots[a.n], slots[b.n])
  }

  /** A free slot carries no flag. */
  ghost predicate Unflagged(slots: seq<FileId>, clo: seq<bool>) {
    |slots| == NR_OPEN && |clo| == NR_OPEN && forall i :: 0 <= i < NR_OPEN && slots[i] == 0 ==> !clo[i]
  }

  lemma InstalledFacts(slots0: seq<FileId>, clo0: seq<bool>, slots: seq<FileId>, clo: seq<bool>, rd: FileId, wr: FileId,
                       a: FdResult, b: FdResult, on: bool)
    requires Installed(slots0, clo0, slots, clo, rd, wr, a, b, on) && rd != 0 && wr != 0 && rd != wr
    requires multiset(slots0)[rd] == 0 && multiset(slots0)[wr] == 0
    requires Unflagged(slots0, clo0)
    ensures |slots| == NR_OPEN && |clo| == NR_OPEN
    ensures a.Bad? ==> b.Bad? && slots == slots0 && clo == clo0
    ensures a.Fd? ==> a.n < NR_OPEN && slots[a.n] == rd && multiset(slots)[rd] == 1
    ensures a.Fd? && b.Bad? ==> multiset(slots)[wr] == 0 && slots[a.n := 0] == slots0 && clo[a.n := false] == clo0
    ensures b.Fd? ==> b.n < NR_OPEN && a.n != b.n && slots[b.n] == wr && multiset(slots)[wr] == 1
                      && slots[a.n := 0][b.n := 0] == slots0 && clo[a.n := false][b.n := false] == clo0
  {
    if a.Fd? {
      FirstCount(slots0, a.n, rd, wr);
      if b.Fd? {
        BothCount(slots0, a.n, b.n, rd, wr);
        BothRestored(slots0, a.n, b.n, rd, wr, 0);
        BothRestored(clo0, a.n, b.n, on, on, false);
      } else {
        Restored(slots0, a.n, rd, 0);
        Restored(clo0, a.n, on, false);
      }
    }
  }

  lemma MadeSo(slots0: seq<FileId>, clo0: seq<bool>, ends0: map<FileId, End>, rings0: map<RingId, Pipe>, r0: RingId,
               slots: seq<FileId>, clo: seq<bool>, ends: map<FileId, End>, rings: map<RingId, Pipe>,
               a: FdResult, b: FdResult, on: bool, rd: FileId, wr: FileId)
    requires Installed(slots0, clo0, slots, clo, rd, wr, a, b, on) && b.Fd? && a.n != b.n
    requires Besides(ends, rings, ends0, rings0, r0, rd, wr)
    ensures PipeMade(slots0, clo0, ends0, rings0, r0, slots, clo, ends, rings, a, b, on)
  {
  }

  /** The rings once a description of `e` is gone. */
  function AfterDrop(rings: map<RingId, Pipe>, e: End): map<RingId, Pipe> {
    if e.Plain? || e.ring !in rings then rings
    else
      var p := rings[e.ring];
      var q := LessEnd(p.q, e.ReadEnd?);
      if EndsGone(q) then rings - {e.ring} else rings[e.ring := p.(q := q)]
  }

  lemma DropWired(ends: map<FileId, End>, rings: map<RingId, Pipe>, f: FileId)
    requires Wired(ends, rings) && f in ends
    ensures Wired(ends - {f}, AfterDrop(rings, ends[f]))
  {
    var e, less, after := ends[f], ends - {f}, AfterDrop(rings, ends[f]);
    assert EndOk(f, e, rings);
    forall r | r in after ensures PipeOk(r, after[r], less) { DropPipe(ends, rings, f, r); }
    forall g | g in less ensures EndOk(g, less[g], after) { DropEnd(ends, rings, f, g); }
  }

  /** A fresh ring goes with its two descriptions, whichever is first. */
  lemma PipeUndone(ends: map<FileId, End>, rings: map<RingId, Pipe>, r: RingId, rd: FileId, wr: FileId)
    requires rd !in ends && wr !in ends && rd != wr && r !in rings
    ensures var more, after := ends[rd := ReadEnd(r)][wr := WriteEnd(r)], rings[r := Pipe(Queue([], 1, 1, [], []), rd, wr)];
            && AfterDrop(AfterDrop(after, ReadEnd(r)), WriteEnd(r)) == rings
            && AfterDrop(AfterDrop(after, WriteEnd(r)), ReadEnd(r)) == rings
            && more - {rd} - {wr} == ends && more - {wr} - {rd} == ends
  {
  }

  lemma FirstCount(slots: seq<FileId>, a: nat, rd: FileId, wr: FileId)
    requires a < |slots| && slots[a] == 0 && rd != 0 && rd != wr && multiset(slots)[rd] == 0 && multiset(slots)[wr] == 0
    ensures multiset(slots[a := rd])[rd] == 1 && multiset(slots[a := rd])[wr] == 0
  {
    Swapped(slots, a, rd);
  }

  lemma BothCount(slots: seq<FileId>, a: nat, b: nat, rd: FileId, wr: FileId)
    requires a < |slots| && slots[a] == 0 && rd != 0 && wr != 0 && rd != wr && multiset(slots)[rd] == 0 && multiset(slots)[wr] == 0
    requires b < |slots| && slots[a := rd][b] == 0
    ensures a != b && slots[b] == 0
    ensures var s := slots[a := rd][b := wr];
            && multiset(s)[rd] == 1 && multiset(s)[wr] == 1
            && multiset(s[a := 0])[rd] == 0 && multiset(s[a := 0])[wr] == 1
            && multiset(s[a := 0][b := 0])[wr] == 0
  {
    FirstCount(slots, a, rd, wr);
    Swapped(slots[a := rd], b, wr);
    var s := slots[a := rd][b := wr];
    Swapped(s, a, 0);
    Swapped(s[a := 0], b, 0);
  }

  lemma Restored<T>(s: seq<T>, i: nat, x: T, y: T)
    requires i < |s| && s[i] == y
    ensures s[i := x][i := y] == s
  {
  }

  lemma BothRestored<T>(s: seq<T>, i: nat, j: nat, x: T, y: T, z: T)
    requires i < |s| && j < |s| && i != j && s[i] == z && s[j] == z
    ensures s[i := x][j := y][i := z][j := z] == s
  {
  }

  lemma DropSame(rings: map<RingId, Pipe>, e: End)
    ensures forall x :: x in AfterDrop(rings, e) ==> x in rings && SameBytes(AfterDrop(rings, e)[x], rings[x])
  {
  }

  /** A fresh ring with two fresh descriptions. */
  lemma PipeWired(ends: map<FileId, End>, rings: map<RingId, Pipe>, r: RingId, rd: FileId, wr: FileId)
    requires Wired(ends, rings) && r !in rings && rd !in ends && wr !in ends && Known(rings, rd) && rd < wr
    ensures Wired(ends[rd := ReadEnd(r)][wr := WriteEnd(r)], rings[r := Pipe(Queue([], 1, 1, [], []), rd, wr)])
  {
    var more, after := ends[rd := ReadEnd(r)][wr := WriteEnd(r)], rings[r := Pipe(Queue([], 1, 1, [], []), rd, wr)];
    forall x | x in after ensures PipeOk(x, after[x], more) {
      if x != r { assert PipeOk(x, rings[x], ends); }
    }
    forall f | f in more ensures EndOk(f, more[f], after) {
      if f in ends { assert EndOk(f, ends[f], rings); }
    }
  }

  lemma PlainWired(ends: map<FileId, End>, rings: map<RingId, Pipe>, f: FileId)
    requires Wired(ends, rings) && f !in ends && Known(rings, f)
    ensures Wired(ends[f := Plain], rings)
  {
    forall x | x in rings ensures PipeOk(x, rings[x], ends[f := Plain]) { assert PipeOk(x, rings[x], ends); }
    var more := ends[f := Plain];
    forall g | g in more ensures EndOk(g, more[g], rings) {
      if g != f { assert EndOk(g, ends[g], rings); }
    }
  }

  lemma CallsKeepEnds(q: Queue, len: nat, data: seq<Byte>)
    ensures var a := ReadOf(q, len).2; a.readers == q.readers && a.writers == q.writers
    ensures var b := WriteOf(q, data).1; b.readers == q.readers && b.writers == q.writers
  {
  }

  lemma QueueStep(ends: map<FileId, End>, rings: map<RingId, Pipe>, r: RingId, q: Queue)
    requires Wired(ends, rings) && r in rings
    requires Fifo(q) && q.readers == rings[r].q.readers && q.writers == rings[r].q.writers
    ensures Wired(ends, rings[r := rings[r].(q := q)])
  {
    var after := rings[r := rings[r].(q := q)];
    forall x | x in after ensures PipeOk(x, after[x], ends) { assert PipeOk(x, rings[x], ends); }
    forall f | f in ends ensures EndOk(f, ends[f], after) { assert EndOk(f, ends[f], rings); }
  }

  lemma KnownStep(rings: map<RingId, Pipe>, r: RingId, q: Queue, next: FileId)
    requires r in rings && Known(rings, next)
    ensures Known(rings[r := rings[r].(q := q)], next)
  {
  }

  lemma FreedStep(freed: seq<RingId>, next: RingId, rings: map<RingId, Pipe>, r: RingId, q: Queue)
    requires r in rings && FreedOk(freed, next, rings)
    ensures FreedOk(freed, next, rings[r := rings[r].(q := q)])
  {
  }

  lemma DropPipe(ends: map<FileId, End>, rings: map<RingId, Pipe>, f: FileId, r: RingId)
    requires Wired(ends, rings) && f in ends && r in AfterDrop(rings, ends[f])
    ensures r in rings && SameBytes(AfterDrop(rings, ends[f])[r], rings[r])
    ensures PipeOk(r, AfterDrop(rings, ends[f])[r], ends - {f})
  {
    assert EndOk(f, ends[f], rings) && PipeOk(r, rings[r], ends);
  }

  lemma DropEnd(ends: map<FileId, End>, rings: map<RingId, Pipe>, f: FileId, g: FileId)
    requires Wired(ends, rings) && f in ends && g in ends && g != f
    ensures EndOk(g, ends[g], AfterDrop(rings, ends[f]))
  {
    assert EndOk(f, ends[f], rings) && EndOk(g, ends[g], rings);
    if !ends[g].Plain? { assert PipeOk(ends[g].ring, rings[ends[g].ring], ends); }
  }

  /** The same pipe, with no byte in or out between. */
  ghost predicate SameBytes(p: Pipe, was: Pipe) {
    && p.rd == was.rd && p.wr == was.wr
    && p.q.contents == was.q.contents && p.q.accepted == was.q.accepted && p.q.returned == was.q.returned
  }

  // ---- whole runs ----

  datatype Call =
    | CallPipe2(on: bool, fault: bool) | CallOpen(on: bool) | CallDup(fd: int, on: bool, min: int)
    | CallDup2(fd: int, newfd: int) | CallDup3(fd: int, newfd: int, on: bool, badFlags: bool)
    | CallSetFd(fd: int, on: bool) | CallClose(fd: int) | CallRead(fd: int, len: nat) | CallWrite(fd: int, data: seq<Byte>)

  /** What a call let its caller see: bytes taken from it or given to it through a pipe, or neither. */
  datatype Said =
    | Silent
    | Wrote(ring: RingId, c: Count, data: seq<Byte>)
    | ReadOut(ring: RingId, c: Count, out: seq<Byte>)

  /** The bytes one write's answer says were taken. */
  function PartTaken(c: Count, data: seq<Byte>): seq<Byte> {
    if c.Bytes? && c.n <= |data| then data[..c.n] else []
  }

  /** All the bytes that writes to the ring took, by their answers. */
  function Took(said: seq<Said>, r: RingId): seq<Byte> {
    if said == [] then []
    else
      var x := said[|said| - 1];
      Took(said[..|said| - 1], r) + if x.Wrote? && x.ring == r then PartTaken(x.c, x.data) else []
  }

  /** All the bytes that reads of the ring handed out. */
  function Gave(said: seq<Said>, r: RingId): seq<Byte> {
    if said == [] then []
    else
      var x := said[|said| - 1];
      Gave(said[..|said| - 1], r) + if x.ReadOut? && x.ring == r then x.out else []
  }

  /** What is said goes with the call: a write's own data, a read's bytes as its answer counts them. */
  predicate Goes(c: Call, x: Said) {
    match x
    case Silent => true
    case Wrote(_, n, data) => c.CallWrite? && data == c.data && (n.Bytes? ==> n.n <= |data|)
    case ReadOut(_, n, out) => c.CallRead? && |out| <= c.len && (if n.Bytes? then n.n == |out| else out == [])
  }

  function BytesIn(rings: map<RingId, Pipe>, r: RingId): seq<Byte> {
    if r in rings then rings[r].q.accepted else []
  }

  function BytesOut(rings: map<RingId, Pipe>, r: RingId): seq<Byte> {
    if r in rings then rings[r].q.returned else []
  }

  /** One call's effect on what has gone in and come out, as it was said. */
  ghost predicate Moved(rings0: map<RingId, Pipe>, next0: RingId, x: Said, rings: map<RingId, Pipe>, next: RingId) {
    && next0 <= next && (forall r :: r in rings0 ==> r < next0) && (forall r :: r in rings ==> r < next)
    && (x.Silent? || x.ring in rings0)
    && (forall r :: r in rings && r in rings0 ==> rings[r].q.accepted == rings0[r].q.accepted + Took([x], r))
    && (forall r :: r in rings && r in rings0 ==> rings[r].q.returned == rings0[r].q.returned + Gave([x], r))
    && (forall r :: r in rings && r !in rings0 ==> next0 <= r && rings[r].q.accepted == [] && rings[r].q.returned == [])
    && (x.Silent? || rings.Keys == rings0.Keys)
  }

  /** From the first moment on, with the live rings: what went in and came out is what was said,
      and for every ring there ever was the bytes given are the first of the bytes taken. */
  ghost predicate Accounted(rings0: map<RingId, Pipe>, next0: RingId, said: seq<Said>, rings: map<RingId, Pipe>, next: RingId) {
    && next0 <= next
    && (forall r: RingId :: BytesOut(rings0, r) + Gave(said, r) <= BytesIn(rings0, r) + Took(said, r))
    && (forall r :: r in rings ==> r < next)
    && (forall r :: r in rings ==> rings[r].q.accepted == BytesIn(rings0, r) + Took(said, r))
    && (forall r :: r in rings ==> rings[r].q.returned == BytesOut(rings0, r) + Gave(said, r))
    && (forall r: RingId :: next <= r ==> Took(said, r) == [] && Gave(said, r) == [])
    && (forall r :: r in rings0 ==> r < next0)
  }

  lemma OneSaid(x: Said, r: RingId)
    ensures Took([x], r) == (if x.Wrote? && x.ring == r then PartTaken(x.c, x.data) else [])
    ensures Gave([x], r) == (if x.ReadOut? && x.ring == r then x.out else [])
  {
    assert [x][..0] == [];
  }

  lemma SaidNext(said: seq<Said>, x: Said, r: RingId)
    ensures Took(said + [x], r) == Took(said, r) + Took([x], r)
    ensures Gave(said + [x], r) == Gave(said, r) + Gave([x], r)
  {
    OneSaid(x, r);
    assert (said + [x])[..|said|] == said;
  }

  lemma AccountedNext(rings0: map<RingId, Pipe>, next0: RingId, said: seq<Said>, was: map<RingId, Pipe>, then0: RingId, x: Said,
                      rings: map<RingId, Pipe>, next: RingId)
    requires Accounted(rings0, next0, said, was, then0) && Moved(was, then0, x, rings, next)
    requires forall r :: r in rings ==> rings[r].q.accepted == rings[r].q.returned + rings[r].q.contents
    ensures Accounted(rings0, next0, said + [x], rings, next)
  {
    hide Took, Gave;
    forall r: RingId
      ensures BytesOut(rings0, r) + Gave(said + [x], r) <= BytesIn(rings0, r) + Took(said + [x], r)
      ensures r in rings ==> rings[r].q.accepted == BytesIn(rings0, r) + Took(said + [x], r)
                             && rings[r].q.returned == BytesOut(rings0, r) + Gave(said + [x], r)
      ensures next <= r ==> Took(said + [x], r) == [] && Gave(said + [x], r) == []
    {
      SaidNext(said, x, r);
      OneSaid(x, r);
      if r in rings && r in was {
        Grouped(BytesIn(rings0, r), Took(said, r), Took([x], r));
        Grouped(BytesOut(rings0, r), Gave(said, r), Gave([x], r));
        assert rings[r].q.returned <= rings[r].q.accepted;
      } else {
        assert Took([x], r) == [] && Gave([x], r) == [];
        assert Took(said, r) + [] == Took(said, r) && Gave(said, r) + [] == Gave(said, r);
      }
    }
  }

  lemma Grouped(a: seq<Byte>, b: seq<Byte>, c: seq<Byte>)
    ensures (a + b) + c == a + (b + c)
  {
  }

  lemma SilentMoved(rings0: map<RingId, Pipe>, next0: RingId, rings: map<RingId, Pipe>, next: RingId)
    requires next0 <= next && (forall r :: r in rings0 ==> r < next0) && (forall r :: r in rings ==> r < next)
    requires forall r :: r in rings && r in rings0 ==> SameBytes(rings[r], rings0[r])
    requires forall r :: r in rings && r !in rings0 ==> next0 <= r && rings[r].q.accepted == [] && rings[r].q.returned == []
    ensures Moved(rings0, next0, Silent, rings, next)
  {
    forall r: RingId ensures Took([Silent], r) == [] && Gave([Silent], r) == [] { OneSaid(Silent, r); }
  }

  lemma SameMoved(rings: map<RingId, Pipe>, freed: seq<RingId>, next: RingId)
    requires FreedOk(freed, next, rings)
    ensures Moved(rings, next, Silent, rings, next)
  {
    SilentMoved(rings, next, rings, next);
  }

  lemma ReadMoved(rings0: map<RingId, Pipe>, freed: seq<RingId>, next: RingId, r: RingId, c: Count, len: nat, out: seq<Byte>,
                  rings: map<RingId, Pipe>)
    requires FreedOk(freed, next, rings0) && r in rings0 && r in rings
    requires rings == rings0[r := rings0[r].(q := rings[r].q)] && (c, out, rings[r].q) == ReadOf(rings0[r].q, len)
    ensures Moved(rings0, next, ReadOut(r, c, out), rings, next) && Goes(CallRead(0, len), ReadOut(r, c, out))
  {
    hide ReadOf, NoDup, Took, Gave;
    ReadHandsOut(rings0[r].q, len);
    var x := ReadOut(r, c, out);
    forall k | k in rings
      ensures rings[k].q.accepted == rings0[k].q.accepted + Took([x], k)
      ensures rings[k].q.returned == rings0[k].q.returned + Gave([x], k)
    {
      OneSaid(x, k);
      Nothing(rings0[k].q.accepted);
      Nothing(rings0[k].q.returned);
    }
  }

  lemma WroteMoved(rings0: map<RingId, Pipe>, freed: seq<RingId>, next: RingId, r: RingId, c: Count, data: seq<Byte>,
                   rings: map<RingId, Pipe>)
    requires FreedOk(freed, next, rings0) && r in rings0 && r in rings && Fifo(rings0[r].q)
    requires rings == rings0[r := rings0[r].(q := rings[r].q)] && (c, rings[r].q) == WriteOf(rings0[r].q, data)
    ensures Moved(rings0, next, Wrote(r, c, data), rings, next) && Goes(CallWrite(0, data), Wrote(r, c, data))
  {
    hide WriteOf, NoDup, Took, Gave, Fifo;
    WriteTakesIn(rings0[r].q, data);
    var x := Wrote(r, c, data);
    forall k | k in rings
      ensures rings[k].q.accepted == rings0[k].q.accepted + Took([x], k)
      ensures rings[k].q.returned == rings0[k].q.returned + Gave([x], k)
    {
      OneSaid(x, k);
      Nothing(rings0[k].q.accepted);
      Nothing(rings0[k].q.returned);
    }
  }

  /** `read` and what it says. */
  method PerformRead(p: Process, fd: int, len: nat) returns (x: Said)
    requires p.Valid()
    modifies p`rings
    ensures p.Valid() && Goes(CallRead(fd, len), x) && Moved(old(p.rings), old(p.nextRing), x, p.rings, p.nextRing)
    ensures x.ReadOut? <==> old(p.Get(fd)) != 0 && old(p.Get(fd)) in p.ends && p.ends[old(p.Get(fd))].ReadEnd?
  {
    hide FdTable.Valid, Known, Wired, ReadOf, Moved, FreedOk;
    InFlight(p);
    SlotKnown(p, fd);
    SameMoved(p.rings, p.freed, p.nextRing);
    ghost var rings0 := p.rings;
    var f := p.Get(fd);
    var a, out := p.Read(fd, len);
    if !a.Piped? { return Silent; }
    x := ReadOut(p.ends[f].ring, a.c, out);
    ReadMoved(rings0, p.freed, p.nextRing, p.ends[f].ring, a.c, len, out, p.rings);
  }

  /** `write` and what it says. */
  method PerformWrite(p: Process, fd: int, data: seq<Byte>) returns (x: Said)
    requires p.Valid()
    modifies p`rings
    ensures p.Valid() && Goes(CallWrite(fd, data), x) && Moved(old(p.rings), old(p.nextRing), x, p.rings, p.nextRing)
    ensures x.Wrote? <==> old(p.Get(fd)) != 0 && old(p.Get(fd)) in p.ends && p.ends[old(p.Get(fd))].WriteEnd?
  {
    hide FdTable.Valid, Known, Wired, WriteOf, Moved, FreedOk;
    InFlight(p);
    SlotKnown(p, fd);
    SameMoved(p.rings, p.freed, p.nextRing);
    ghost var rings0 := p.rings;
    var f := p.Get(fd);
    var a := p.Write(fd, data);
    if !a.Piped? { return Silent; }
    x := Wrote(p.ends[f].ring, a.c, data);
    WroteMoved(rings0, p.freed, p.nextRing, p.ends[f].ring, a.c, data, p.rings);
  }

  lemma SlotKnown(p: Process, fd: int)
    requires p.Valid()
    ensures p.t.slots.Length == NR_OPEN && (p.Get(fd) != 0 ==> p.Get(fd) in p.ends)
  {
    if p.t.slots.Length == NR_OPEN && 0 <= fd < NR_OPEN && p.t.slots[fd] != 0 { p.t.SlotLive(multiset{}, fd); }
  }

  /** A call that moves no byte. */
  method PerformTable(p: Process, c: Call)
    requires p.Valid() && !c.CallRead? && !c.CallWrite?
    modifies p, p.t, p.t.slots, p.t.cloexec
    ensures p.Valid() && Moved(old(p.rings), old(p.nextRing), Silent, p.rings, p.nextRing)
  {
    hide FdTable.Valid, Wired, Known, AfterDrop, NoDup, SameBytes, Moved, Took, Gave;
    ghost var rings0, next0 := p.rings, p.nextRing;
    AllSame(rings0);
    match c {
      case CallPipe2(on, fault) =>
        var _, _ := p.Pipe2(on, fault);
      case CallOpen(on) => var _, _ := p.OpenPlain(on);
      case CallDup(fd, on, min) => var _ := p.Dup(fd, on, min);
      case CallDup2(fd, newfd) => var _ := p.Dup2(fd, newfd, false);
      case CallDup3(fd, newfd, on, badFlags) => var _ := p.Dup3(fd, newfd, on, badFlags);
      case CallSetFd(fd, on) => var _ := p.SetFd(fd, on);
      case CallClose(fd) =>
        ghost var ends0 := p.ends;
        SlotKnown(p, fd);
        ghost var f := p.Get(fd);
        if f in ends0 { DropSame(rings0, ends0[f]); }
        var _ := p.CloseFd(fd, multiset{});
    }
    SilentMoved(rings0, next0, p.rings, p.nextRing);
  }

  lemma AllSame(rings: map<RingId, Pipe>)
    ensures forall r :: r in rings ==> SameBytes(rings[r], rings[r])
  {
  }

  /** Any one call and what its caller sees. */
  method Perform(p: Process, c: Call) returns (x: Said)
    requires p.Valid()
    modifies p, p.t, p.t.slots, p.t.cloexec
    ensures p.Valid() && Goes(c, x) && Moved(old(p.rings), old(p.nextRing), x, p.rings, p.nextRing)
  {
    hide Process.Working, Moved;
    match c
    case CallRead(fd, len) => x := PerformRead(p, fd, len);
    case CallWrite(fd, data) => x := PerformWrite(p, fd, data);
    case _ =>
      x := Silent;
      PerformTable(p, c);
  }

  /** Over any run, for every pipe there ever was: the bytes its readers were given are, in order,
      the first of the bytes its writers were told were taken. Each live pipe holds the rest;
      each description counts its slots; nothing is released or freed twice; free slots carry no flag. */
  method Run(p: Process, calls: seq<Call>) returns (said: seq<Said>)
    requires p.Valid()
    modifies p, p.t, p.t.slots, p.t.cloexec
    ensures p.Valid()
    ensures |said| == |calls| && forall i :: 0 <= i < |calls| ==> Goes(calls[i], said[i])
    ensures forall r: RingId :: BytesOut(old(p.rings), r) + Gave(said, r) <= BytesIn(old(p.rings), r) + Took(said, r)
    ensures forall r :: r in p.rings ==>
              BytesIn(old(p.rings), r) + Took(said, r) == BytesOut(old(p.rings), r) + Gave(said, r) + p.rings[r].q.contents
    ensures forall r :: r in p.rings ==> (p.rings[r].q.writers == 0 <==> p.rings[r].wr !in p.ends)
    ensures forall f :: f in p.t.refs ==> p.t.refs[f] == multiset(p.t.Slots())[f] > 0
    ensures NoDup(p.t.released) && (forall f :: f in p.t.refs ==> f !in p.t.released)
    ensures NoDup(p.freed) && (forall r :: r in p.rings ==> r !in p.freed)
    ensures forall i :: 0 <= i < NR_OPEN && p.Get(i) == 0 ==> i < p.t.cloexec.Length && !p.t.cloexec[i]
  {
    ghost var rings0, next0 := p.rings, p.nextRing;
    said := [];
    InFlight(p);
    Unsaid(rings0, p.freed, next0);
    hide Accounted, Moved, Took, Gave, Goes;
    for i := 0 to |calls|
      invariant p.Valid() && |said| == i && forall k :: 0 <= k < i ==> Goes(calls[k], said[k])
      invariant Accounted(rings0, next0, said, p.rings, p.nextRing)
    {
      hide Process.Working;
      ghost var was, then0 := p.rings, p.nextRing;
      var x := Perform(p, calls[i]);
      InFlight(p);
      AccountedNext(rings0, next0, said, was, then0, x, p.rings, p.nextRing);
      said := said + [x];
    }
    InFlight(p);
    Balanced(rings0, next0, said, p.rings, p.nextRing);
    assert forall r :: r in p.rings ==> PipeOk(r, p.rings[r], p.ends);
  }

  lemma Unsaid(rings: map<RingId, Pipe>, freed: seq<RingId>, next: RingId)
    requires FreedOk(freed, next, rings)
    requires forall r :: r in rings ==> rings[r].q.accepted == rings[r].q.returned + rings[r].q.contents
    ensures Accounted(rings, next, [], rings, next)
  {
    hide NoDup;
    forall r: RingId ensures BytesOut(rings, r) + Gave([], r) <= BytesIn(rings, r) + Took([], r) {
      if r in rings { assert rings[r].q.returned <= rings[r].q.accepted; }
    }
  }

  lemma InFlight(p: Process)
    requires p.Valid()
    ensures FreedOk(p.freed, p.nextRing, p.rings)
    ensures forall r :: r in p.rings ==> Fifo(p.rings[r].q)
  {
    hide FreedOk, Known, FdTable.Valid;
    assert forall r :: r in p.rings ==> PipeOk(r, p.rings[r], p.ends);
  }

  lemma Balanced(rings0: map<RingId, Pipe>, next0: RingId, said: seq<Said>, rings: map<RingId, Pipe>, next: RingId)
    requires Accounted(rings0, next0, said, rings, next)
    requires forall r :: r in rings ==> rings[r].q.accepted == rings[r].q.returned + rings[r].q.contents
    ensures forall r: RingId :: BytesOut(rings0, r) + Gave(said, r) <= BytesIn(rings0, r) + Took(said, r)
    ensures forall r :: r in rings ==>
              BytesIn(rings0, r) + Took(said, r) == BytesOut(rings0, r) + Gave(said, r) + rings[r].q.contents
  {
  }
}
