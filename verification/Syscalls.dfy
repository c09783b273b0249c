/** Descriptors, pipes and the VFS as one process (core/sys_fs.c): over any run of
    system calls the host handles that are open are the mount roots and those of
    descriptions some descriptor holds. */
module Syscalls {
  import D = Descriptors
  import P = PipeCalls
  import R = Runs
  import opened Bytes
  import opened Errors
  import opened Paths
  import opened TreeEdits
  import opened Spaces
  import opened Hosts
  import opened Walks
  import opened Kernels
  import opened Openings
  import opened VfsOps

  const AT_FDCWD := -100

  /** What a call answers: a descriptor, nothing to tell, or why not. */
  datatype Answer = Desc(fd: nat) | Done | NoDesc(e: D.FdErrno) | Failed(errno: Errno)

  datatype Syscall =
    | Openat(dirfd: int, path: string, m: OpenMode, on: bool)
    | Close(fd: int)
    | Dup(fd: int, on: bool, min: int)
    | Dup2(oldfd: int, newfd: int)
    | Dup3(oldfd: int, newfd: int, on: bool, badFlags: bool)
    | Pipe2(on: bool, fault: bool)
    | SetFd(fd: int, on: bool)
    | Read(fd: int, len: nat)
    | Write(fd: int, data: seq<Byte>)
    | Makeat(dirfd: int, path: string, what: NewObject)
    | Linkat(dirfd: int, path: string, dirfd2: int, newpath: string, follow: bool)
    | Unlinkat(dirfd: int, path: string, rmdir: bool)
    | Renameat(dirfd: int, path: string, dirfd2: int, newpath: string, noreplace: bool)
    | Setattrat(dirfd: int, path: string, follow: bool)
    | Fsetattr(fd: int)
    | Truncate(path: string)
    | Chdir(path: string)
    | Fchdir(fd: int)
    | Statat(dirfd: int, path: string, follow: bool)
    | Readlinkat(dirfd: int, path: string)

  predicate OnPath(c: Syscall) {
    || c.Makeat? || c.Linkat? || c.Unlinkat? || c.Renameat? || c.Setattrat? || c.Truncate? || c.Chdir? || c.Statat?
    || c.Readlinkat?
  }

  /** The VFS description behind each open file description that is no pipe. */
  type Behind = map<D.FileId, nat>

  /** Every VFS description belongs to exactly one open file description, and the other way round. */
  ghost predicate Matched(ends: map<D.FileId, P.End>, behind: Behind, files: map<nat, Description>) {
    && (forall f :: f in behind <==> f in ends && ends[f] == P.Plain)
    && (forall f :: f in behind ==> behind[f] in files)
    && (forall f, g :: f in behind && g in behind && f != g ==> behind[f] != behind[g])
    && (forall d :: d in files ==> Backs(behind, d))
  }

  ghost predicate Backs(behind: Behind, d: nat) {
    exists f :: f in behind && behind[f] == d
  }

  /** The host handles of the descriptions that sit in a slot. */
  ghost function SlotHandles(slots: seq<D.FileId>, behind: Behind, files: map<nat, Description>): set<Handle> {
    set i | 0 <= i < |slots| && slots[i] in behind && behind[slots[i]] in files && files[behind[slots[i]]].h != 0
      :: files[behind[slots[i]]].h
  }

  /** With every open file description in a slot, the handles of the VFS are those of the slots. */
  lemma HandlesSlotted(slots: seq<D.FileId>, ends: map<D.FileId, P.End>, behind: Behind, files: map<nat, Description>)
    requires Matched(ends, behind, files) && forall f :: f in ends ==> f in slots
    ensures Handles(files) == SlotHandles(slots, behind, files)
  {
    forall h | h in Handles(files) ensures h in SlotHandles(slots, behind, files) {
      var d :| d in files && files[d].h == h && h != 0;
      assert Backs(behind, d);
      var f :| f in behind && behind[f] == d;
      var i :| 0 <= i < |slots| && slots[i] == f;
      assert files[behind[slots[i]]].h == h;
    }
  }

  lemma MatchedMore(ends: map<D.FileId, P.End>, behind: Behind, files: map<nat, Description>, f: D.FileId, d: nat, desc: Description)
    requires Matched(ends, behind, files) && f !in ends && d !in files
    ensures Matched(ends[f := P.Plain], behind[f := d], files[d := desc])
  {
    var more, filed := behind[f := d], files[d := desc];
    forall x | x in filed ensures Backs(more, x) {
      if x == d { assert more[f] == d; } else { KeptBack(behind, x, f, d); }
    }
  }

  lemma BehindLive(ends: map<D.FileId, P.End>, behind: Behind, files: map<nat, Description>, f: D.FileId)
    requires Matched(ends, behind, files)
    ensures f in behind ==> f in ends
  {
  }

  lemma KeptBack(behind: Behind, x: nat, f: D.FileId, d: nat)
    requires Backs(behind, x) && f !in behind
    ensures Backs(behind[f := d], x)
  {
    var g :| g in behind && behind[g] == x;
    assert behind[f := d][g] == x;
  }

  lemma MatchedLess(ends: map<D.FileId, P.End>, behind: Behind, files: map<nat, Description>, f: D.FileId)
    requires Matched(ends, behind, files) && f in behind
    ensures f in ends && behind[f] in files
    ensures Matched(ends - {f}, behind - {f}, files - {behind[f]})
  {
    var less, filed := behind - {f}, files - {behind[f]};
    forall x | x in filed ensures Backs(less, x) {
      assert Backs(behind, x);
      var g :| g in behind && behind[g] == x;
      assert g in less && less[g] == x;
    }
  }

  /** Pipes come and go without touching the match. */
  lemma MatchedPipes(ends: map<D.FileId, P.End>, behind: Behind, files: map<nat, Description>, now: map<D.FileId, P.End>)
    requires Matched(ends, behind, files)
    requires forall f :: f in now && now[f] == P.Plain <==> f in ends && ends[f] == P.Plain
    ensures Matched(now, behind, files)
  {
  }

  // ---- moments of a run ----

  /** The VFS and the host, the descriptor table, and what is behind each descriptor at one moment. */
  datatype Moment = Moment(m: R.Moment, slots: seq<D.FileId>, refs: map<D.FileId, nat>, behind: Behind)

  /** The file layer is in order, the open handles are the mount roots and those of descriptions
      in a slot, and every description counts its slots. */
  ghost predicate Settled(s: Moment) {
    && R.Orderly(s.m)
    && s.m.live.Keys == Roots(s.m.mounts) + SlotHandles(s.slots, s.behind, s.m.files)
    && forall f :: f in s.refs ==> s.refs[f] == multiset(s.slots)[f] > 0
  }

  function SlotOf(slots: seq<D.FileId>, fd: int): D.FileId {
    if 0 <= fd < |slots| then slots[fd] else 0
  }

  /** Where a path given with a descriptor starts. */
  function StartAt(slots: seq<D.FileId>, behind: Behind, fd: int): R.At {
    if fd == AT_FDCWD then R.AtCwd
    else
      var f := SlotOf(slots, fd);
      if f == 0 then R.AtNone else if f in behind then R.AtFile(behind[f]) else R.AtPipe
  }

  /** A path call with its descriptors looked up. */
  function OpOf(slots: seq<D.FileId>, behind: Behind, c: Syscall): (op: R.Op)
    requires OnPath(c)
    ensures !op.DoOpen? && !op.DoClose?
  {
    match c
    case Makeat(fd, path, what) => R.DoMake(StartAt(slots, behind, fd), path, what)
    case Linkat(fd, path, fd2, newpath, follow) =>
      R.DoLink(StartAt(slots, behind, fd), path, StartAt(slots, behind, fd2), newpath, follow)
    case Unlinkat(fd, path, rmdir) => R.DoUnlink(StartAt(slots, behind, fd), path, rmdir)
    case Renameat(fd, path, fd2, newpath, noreplace) =>
      R.DoRename(StartAt(slots, behind, fd), path, StartAt(slots, behind, fd2), newpath, noreplace)
    case Setattrat(fd, path, follow) => R.DoSetAttr(StartAt(slots, behind, fd), path, follow)
    case Truncate(path) => R.DoTruncate(R.AtCwd, path)
    case Chdir(path) => R.DoChdir(R.AtCwd, path)
    case Statat(fd, path, follow) => R.DoStat(StartAt(slots, behind, fd), path, follow)
    case Readlinkat(fd, path) => R.DoReadlink(StartAt(slots, behind, fd), path)
  }

  /** The tree, the mounts and the working directory as they were. */
  ghost predicate Keeps(s: R.Moment, t: R.Moment) {
    && t.mounts == s.mounts && SeatsOf(t.mounts, t.live) == SeatsOf(s.mounts, s.live)
    && t.objs == s.objs && t.cwd == s.cwd && (s.quiet ==> t.quiet)
  }

  /** Descriptors and descriptions as they were. */
  predicate Unmoved(s: Moment, t: Moment) {
    t.slots == s.slots && t.behind == s.behind && t.m.files == s.m.files
  }

  /** What is behind `f` goes unless it is still held. */
  predicate Lets(f: D.FileId, held: bool, behind0: Behind, files0: map<nat, Description>, behind: Behind, files: map<nat, Description>) {
    if f in behind0 && !held then behind == behind0 - {f} && files == files0 - {behind0[f]}
    else behind == behind0 && files == files0
  }

  /** A description goes exactly when the slot `n` was the last to hold it. */
  predicate Releases(s: Moment, n: nat, t: Moment) {
    Lets(SlotOf(s.slots, n), SlotOf(s.slots, n) in t.slots, s.behind, s.m.files, t.behind, t.m.files)
  }

  /** A fresh description in the lowest free slot. */
  ghost predicate InSlot(s: Moment, t: Moment, n: nat, f: D.FileId, d: nat) {
    && n < |s.slots| && D.Lowest(s.slots, 0, n) && t.slots == s.slots[n := f]
    && f !in s.behind && t.behind == s.behind[f := d]
    && d !in s.m.files && d in t.m.files && t.m.files == s.m.files[d := t.m.files[d]]
  }

  ghost predicate NewSlot(s: Moment, t: Moment, n: nat) {
    exists f, d :: InSlot(s, t, n, f, d)
  }

  /** Every slot is taken. */
  ghost predicate NoRoom(s: Moment, a: Answer) {
    a == NoDesc(D.EMFILE) && P.Full(s.slots)
  }

  /** The lowest free slot from `min` on, holding what `fd` holds. */
  ghost predicate Duped(s: Moment, t: Moment, fd: int, min: int, n: nat) {
    0 <= min <= n < |s.slots| && D.Lowest(s.slots, min, n) && t.slots == s.slots[n := SlotOf(s.slots, fd)]
  }

  /** The two lowest free slots, for the ends of a pipe. */
  ghost predicate Piped(slots0: seq<D.FileId>, slots: seq<D.FileId>, a: nat, b: nat) {
    && |slots| == |slots0| && a < |slots0| && b < |slots0| && a != b
    && D.Lowest(slots0, 0, a) && D.Lowest(slots0[a := slots[a]], 0, b)
    && slots == slots0[a := slots[a]][b := slots[b]]
  }

  /** What the file layer answered. */
  function Told(a: Answer): Result<()> {
    if a.Failed? then Err(a.errno) else Ok(())
  }

  /** There is one way to succeed. */
  lemma Succeeded(r: Result<()>)
    ensures r == if r.Ok? then Ok(()) else Err(r.errno)
  {
    if r.Ok? { match r.value case () => }
  }

  /** From `s` the call may answer `a` and come to `t`, the host tree taking the edit `e`. */
  ghost predicate Follows(s: Moment, c: Syscall, a: Answer, e: Edit, t: Moment)
    requires R.Orderly(s.m)
  {
    if OnPath(c) then (a == Done || a.Failed?) && Unmoved(s, t) && R.Follows(s.m, OpOf(s.slots, s.behind, c), Told(a), e, t.m)
    else match c
      case Openat(fd, path, m, _) =>
        var op := R.DoOpen(StartAt(s.slots, s.behind, fd), path, m);
        if a.NoDesc? then NoRoom(s, a) && Unmoved(s, t) && exists mid: R.Moment :: R.Follows(s.m, op, Ok(()), e, mid) && Keeps(mid, t.m)
        else (if a.Desc? then NewSlot(s, t, a.fd) else a.Failed? && Unmoved(s, t)) && R.Follows(s.m, op, Told(a), e, t.m)
      case Close(fd) =>
        && e == NoEdit && Keeps(s.m, t.m)
        && if SlotOf(s.slots, fd) == 0 then a == NoDesc(D.EBADF) && Unmoved(s, t)
           else a == Done && t.slots == s.slots[fd := 0] && Releases(s, fd, t)
      case Dup2(oldfd, newfd) => e == NoEdit && Keeps(s.m, t.m) && Overwrites(s, oldfd, newfd, a, t)
      case Dup3(oldfd, newfd, _, badFlags) =>
        && e == NoEdit && Keeps(s.m, t.m)
        && if badFlags || oldfd == newfd then a == NoDesc(D.EINVAL) && Unmoved(s, t) else Overwrites(s, oldfd, newfd, a, t)
      case Fsetattr(fd) =>
        && Unmoved(s, t)
        && if Behinds(s, fd) then (a == Done || a.Failed?) && R.Follows(s.m, R.DoSetFileAttr(FileOf(s, fd)), Told(a), e, t.m)
           else e == NoEdit && Keeps(s.m, t.m) && a == NoFile(s, fd, EPERM)
      case Fchdir(fd) =>
        && Unmoved(s, t)
        && if Behinds(s, fd) then (a == Done || a.Failed?) && R.Follows(s.m, R.DoFchdir(FileOf(s, fd)), Told(a), e, t.m)
           else e == NoEdit && Keeps(s.m, t.m) && a == NoFile(s, fd, ENOTDIR)
      case _ => e == NoEdit && Keeps(s.m, t.m) && Tables(s, c, a, t)
  }

  /** The slot of `newfd` comes to hold what `oldfd` holds. */
  ghost predicate Overwrites(s: Moment, oldfd: int, newfd: int, a: Answer, t: Moment) {
    if SlotOf(s.slots, oldfd) == 0 || !(0 <= newfd < |s.slots|) then a == NoDesc(D.EBADF) && Unmoved(s, t)
    else a == Desc(newfd) && t.slots == s.slots[newfd := s.slots[oldfd]] && Releases(s, newfd, t)
  }

  /** The answer on a descriptor that is not open, or is of a pipe. */
  function NoFile(s: Moment, fd: int, e: Errno): Answer {
    if SlotOf(s.slots, fd) == 0 then NoDesc(D.EBADF) else Failed(e)
  }

  /** The descriptor holds a description of the VFS. */
  predicate Behinds(s: Moment, fd: int) {
    SlotOf(s.slots, fd) in s.behind
  }

  function FileOf(s: Moment, fd: int): nat
    requires Behinds(s, fd)
  {
    s.behind[SlotOf(s.slots, fd)]
  }

  /** What the calls on descriptors alone do to the table. */
  ghost predicate Tables(s: Moment, c: Syscall, a: Answer, t: Moment) {
    && t.behind == s.behind && t.m.files == s.m.files
    && match c
       case Dup(fd, _, min) =>
         if a.Desc? then SlotOf(s.slots, fd) != 0 && Duped(s, t, fd, min, a.fd)
         else
           && t.slots == s.slots
           && a == NoDesc(if SlotOf(s.slots, fd) == 0 then D.EBADF else if min < 0 then D.EINVAL else D.EMFILE)
           && (a.e == D.EMFILE ==> forall i :: min <= i < |s.slots| ==> s.slots[i] != 0)
       case Pipe2(_, fault) =>
         if a == Done then !fault && exists x, y :: Piped(s.slots, t.slots, x, y)
         else (fault || P.Crowded(s.slots)) && a == NoDesc(if P.Crowded(s.slots) then D.EMFILE else D.EFAULT) && t.slots == s.slots
       case SetFd(fd, _) => a == (if SlotOf(s.slots, fd) == 0 then NoDesc(D.EBADF) else Done) && t.slots == s.slots
       case _ => t.slots == s.slots
  }

  ghost predicate Leads(s: Moment, c: Syscall, a: Answer, t: Moment) {
    R.Orderly(s.m) && exists e :: Follows(s, c, a, e, t)
  }

  /** The call goes on with a path the code could not build. */
  ghost predicate UndefinedAt(s: Moment, c: Syscall)
    requires R.Orderly(s.m)
  {
    OnPath(c) && R.UndefinedAt(s.m, OpOf(s.slots, s.behind, c))
  }

  /** The moments of a run: each in order, each come to from the one before by its call and answer, and
      each with a sound space if the first one's was. */
  ghost predicate Traced(log: seq<Moment>, calls: seq<Syscall>, said: seq<Answer>) {
    && 0 < |log| <= |calls| + 1 && |said| == |log| - 1
    && (forall i :: 0 <= i < |log| ==> Settled(log[i]) && (Steady(log[0]) ==> Steady(log[i])))
    && (forall i :: 0 <= i < |log| - 1 ==> Leads(log[i], calls[i], said[i], log[i + 1]))
  }

  /** The mounts sit on top directories and the host tree is a tree. */
  ghost predicate Steady(s: Moment) {
    R.Sound(R.SpaceAt(s.m))
  }

  class System {
    const p: P.Process
    const v: Vfs
    var behind: Behind

    ghost predicate Valid()
      reads this, p, p.t, p.t.slots, p.t.cloexec, v, v.fs, v.fs.host
    {
      p.Valid() && v.Valid() && Matched(p.ends, behind, v.files)
    }

    constructor (p: P.Process, v: Vfs)
      requires p.Valid() && v.Valid() && p.ends == map[] && v.files == map[]
      ensures Valid() && this.p == p && this.v == v
    {
      this.p, this.v, behind := p, v, map[];
    }

    /** The handles that are open are the mount roots and those of descriptions in a slot. */
    lemma HandlesHeld()
      requires Valid()
      ensures v.fs.host.live.Keys == Roots(v.fs.mounts) + SlotHandles(p.t.Slots(), behind, v.files)
    {
      p.t.AllSlotted();
      HandlesSlotted(p.t.Slots(), p.ends, behind, v.files);
    }

    lemma Ready()
      requires Valid()
      ensures p.t.slots.Length == D.NR_OPEN && AllInOrder(v.files) && v.nextFile !in v.files
    {
      v.Seating();
    }

    /** A description is live exactly while it is in a slot. */
    lemma SlotIffLive(f: D.FileId)
      requires Valid()
      ensures 0 !in behind && (f != 0 ==> (f in p.ends <==> f in p.t.Slots()))
    {
      p.t.AllSlotted();
      if f != 0 && f in p.t.Slots() {
        var i :| 0 <= i < |p.t.Slots()| && p.t.Slots()[i] == f;
        p.t.SlotLive(multiset{}, i);
      }
    }

    lemma Counts()
      requires Valid()
      ensures forall f :: f in p.t.refs ==> p.t.refs[f] == multiset(p.t.Slots())[f] > 0
    {
    }

    /** What the system is like now. */
    ghost function Present(): Moment
      reads this, p, p.t, p.t.slots, v, v.fs, v.fs.host
    {
      Moment(R.Now(v), p.t.Slots(), p.t.refs, behind)
    }

    lemma Arranged()
      requires Valid()
      ensures Settled(Present()) && p.t.slots.Length == D.NR_OPEN
    {
      hide R.Orderly, Matched, Vfs.Valid;
      R.Ordered(v);
      HandlesHeld();
      Counts();
    }

    lemma GetIsSlot(fd: int)
      requires Valid()
      ensures p.t.slots.Length == D.NR_OPEN == |p.t.Slots()| && p.Get(fd) == SlotOf(p.t.Slots(), fd)
    {
    }

    /** After the descriptor table dropped what `f` was: if it was a VFS description, its release. */
    method Settle(f: D.FileId, ghost ends0: map<D.FileId, P.End>)
      requires p.Valid() && v.Valid() && Matched(ends0, behind, v.files)
      requires p.ends == ends0 || p.ends == ends0 - {f}
      modifies this, v, v.fs.host
      ensures Valid() && Keeps(old(R.Now(v)), R.Now(v))
      ensures Lets(f, f in p.ends, old(behind), old(v.files), behind, v.files)
    {
      hide Vfs.Valid, P.Process.Working, Matched;
      BehindLive(ends0, behind, v.files, f);
      if f in behind && f !in p.ends {
        MatchedLess(ends0, behind, v.files, f);
        v.CloseFile(behind[f]);
        behind := behind - {f};
      } else {
        NothingLost(ends0, behind, v.files, f, p.ends);
      }
    }

    /** `sys_openat`: a description that finds no slot is gone again. */
    method DoOpen(dirfd: int, path: string, m: OpenMode, on: bool, permits: Permits) returns (a: Answer, ghost e: Edit)
      requires Valid()
      modifies this, p, p.t, p.t.slots, p.t.cloexec, v, v.fs.host
      ensures Valid() && R.Orderly(old(Present()).m)
      ensures Follows(old(Present()), Openat(dirfd, path, m, on), a, e, Present())
      ensures a.Desc? ==> exists f, d :: InSlot(old(Present()), Present(), a.fd, f, d)
      ensures !a.Desc? ==> Unmoved(old(Present()), Present())
    {
      hide Vfs.Valid, P.Process.Working, Matched, R.Follows, R.Orderly, Follows, D.Lowest;
      Ready();
      R.Ordered(v);
      ghost var s := Present();
      var r;
      r, e := R.RunOpen(v, StartAt(p.t.slots[..], behind, dirfd), path, m, permits);
      if r.Err? {
        a := Failed(r.errno);
        OpenFailed(s, Present(), Openat(dirfd, path, m, on), a, e);
        return;
      }
      ghost var mid := R.Now(v);
      var f;
      a, f := Place(r.value, on, s.m.files);
      if a.Desc? {
        OpenPlaced(s, mid, Present(), Openat(dirfd, path, m, on), a, e, f, r.value);
      } else {
        OpenDropped(s, mid, Present(), Openat(dirfd, path, m, on), a, e);
      }
    }

    /** `fd_install` and `file_put`: the new description into a slot, or closed. */
    method Place(d: nat, on: bool, ghost files0: map<nat, Description>) returns (a: Answer, f: D.FileId)
      requires p.Valid() && v.Valid() && Matched(p.ends, behind, files0)
      requires d !in files0 && d in v.files && v.files == files0[d := v.files[d]]
      modifies this, p, p.t, p.t.slots, p.t.cloexec, v, v.fs.host
      ensures Valid() && Keeps(old(R.Now(v)), R.Now(v)) && (a.Desc? || (a == NoDesc(D.EMFILE) && P.Full(old(p.t.Slots()))))
      ensures a.Desc? ==>
                && a.fd < |old(p.t.Slots())| && D.Lowest(old(p.t.Slots()), 0, a.fd) && p.t.Slots() == old(p.t.Slots())[a.fd := f]
                && f !in old(behind) && behind == old(behind)[f := d] && v.files == old(v.files) && v.fs.host.live == old(v.fs.host.live)
      ensures !a.Desc? ==> p.t.Slots() == old(p.t.Slots()) && behind == old(behind) && v.files == files0
    {
      hide Vfs.Valid, P.Process.Working, Matched, D.Lowest;
      ghost var ends0 := p.ends;
      var r;
      r, f := p.OpenPlain(on);
      BehindLive(ends0, behind, files0, f);
      if r.Fd? {
        MatchedMore(ends0, behind, files0, f, d, v.files[d]);
        behind := behind[f := d];
        return Desc(r.n), f;
      }
      v.CloseFile(d);
      assert v.files == files0;
      return NoDesc(r.e), f;
    }

    /** `sys_close`. */
    method DoClose(fd: int) returns (a: Answer)
      requires Valid()
      modifies this, p, p.t, p.t.slots, p.t.cloexec, v, v.fs.host
      ensures Valid() && R.Orderly(old(Present()).m)
      ensures a == if SlotOf(old(p.t.Slots()), fd) == 0 then NoDesc(D.EBADF) else Done
      ensures Follows(old(Present()), Close(fd), a, NoEdit, Present())
      ensures a == Done ==> p.t.Slots() == old(p.t.Slots())[fd := 0] && Releases(old(Present()), fd, Present())
      ensures a != Done ==> Unmoved(old(Present()), Present())
    {
      hide Vfs.Valid, P.Process.Working, Matched, R.Orderly, Follows, Lets, Keeps, Releases;
      R.Ordered(v);
      GetIsSlot(fd);
      ghost var s, ends0 := Present(), p.ends;
      var f := p.Get(fd);
      SlotIffLive(f);
      var r := p.CloseFd(fd, multiset{});
      Settle(f, ends0);
      SlotIffLive(f);
      a := if r.Fd? then Done else NoDesc(r.e);
      ClosedSo(s, Present(), fd, a, f in p.ends);
    }

    /** dup2 and dup3: what `newfd` was is closed on the way. */
    method DoDup(oldfd: int, newfd: int, on: bool, third: bool, badFlags: bool) returns (a: Answer)
      requires Valid()
      modifies this, p, p.t, p.t.slots, p.t.cloexec, v, v.fs.host
      ensures Valid() && R.Orderly(old(Present()).m)
      ensures Follows(old(Present()), if third then Dup3(oldfd, newfd, on, badFlags) else Dup2(oldfd, newfd), a, NoEdit, Present())
      ensures a == if third && (badFlags || oldfd == newfd) then NoDesc(D.EINVAL)
                   else if SlotOf(old(p.t.Slots()), oldfd) == 0 || !(0 <= newfd < D.NR_OPEN) then NoDesc(D.EBADF) else Desc(newfd)
      ensures a.Desc? ==> p.t.Slots() == old(p.t.Slots())[newfd := old(p.t.Slots())[oldfd]] && Releases(old(Present()), newfd, Present())
      ensures !a.Desc? ==> Unmoved(old(Present()), Present())
    {
      hide Vfs.Valid, P.Process.Working, Matched, R.Orderly, P.SameBytes, Follows, Lets, Keeps, Releases;
      R.Ordered(v);
      GetIsSlot(oldfd);
      GetIsSlot(newfd);
      ghost var s, ends0 := Present(), p.ends;
      var f := p.Get(newfd);
      SlotIffLive(f);
      var r;
      if third {
        r := p.Dup3(oldfd, newfd, on, badFlags);
      } else {
        r := p.Dup2(oldfd, newfd, on);
      }
      Settle(f, ends0);
      SlotIffLive(f);
      a := if r.Fd? then Desc(r.n) else NoDesc(r.e);
      DupedSo(s, Present(), oldfd, newfd, on, third, badFlags, a, f in p.ends);
    }

    /** The calls on descriptors alone. */
    method DoTable(c: Syscall) returns (a: Answer)
      requires Valid() && (c.Dup? || c.Pipe2? || c.SetFd? || c.Read? || c.Write?)
      modifies p, p.t, p.t.slots, p.t.cloexec
      ensures Valid() && R.Orderly(old(Present()).m)
      ensures Follows(old(Present()), c, a, NoEdit, Present())
    {
      hide Vfs.Valid, P.Process.Working, Matched, R.Orderly, D.Lowest, Follows, Keeps, P.PipeMade;
      R.Ordered(v);
      if c.Dup? || c.SetFd? { GetIsSlot(c.fd); }
      ghost var s := Present();
      a := Done;
      match c
      case Dup(fd, on, min) =>
        var r := p.Dup(fd, on, min);
        a := if r.Fd? then Desc(r.n) else NoDesc(r.e);
        if r.Fd? { DupfdSo(s, Present(), c, r.n); } else { TableSo(s, Present(), c, a); }
      case Pipe2(on, fault) => a := DoPipe(c);
      case SetFd(fd, on) =>
        var r := p.SetFd(fd, on);
        a := if r.Fd? then Done else NoDesc(r.e);
        TableSo(s, Present(), c, a);
      case Read(fd, len) =>
        var _, _ := p.Read(fd, len);
        TableSo(s, Present(), c, a);
      case Write(fd, data) =>
        var _ := p.Write(fd, data);
        TableSo(s, Present(), c, a);
    }

    /** `sys_pipe2`. */
    method DoPipe(c: Syscall) returns (a: Answer)
      requires Valid() && c.Pipe2?
      modifies p, p.t, p.t.slots, p.t.cloexec
      ensures Valid() && R.Orderly(old(Present()).m) && (a == Done || a.NoDesc?)
      ensures Follows(old(Present()), c, a, NoEdit, Present())
    {
      hide Vfs.Valid, P.Process.Working, Matched, R.Orderly, D.Lowest, Follows, Keeps, P.PipeMade;
      R.Ordered(v);
      ghost var s, ends0, rings0, r0, clo0 := Present(), p.ends, p.rings, p.nextRing, p.t.Flags();
      var x, y := p.Pipe2(c.on, c.fault);
      a := if y.Fd? then Done else NoDesc(y.e);
      if y.Fd? {
        PipesOnly(s.slots, clo0, ends0, rings0, r0, p.t.Slots(), p.t.Flags(), p.ends, p.rings, x, y, c.on);
        PipedSo(s, Present(), c, x.n, y.n);
      } else {
        TableSo(s, Present(), c, a);
      }
      MatchedPipes(ends0, behind, v.files, p.ends);
    }

    /** A path call, with its descriptors looked up. */
    method DoPath(c: Syscall, permits: Permits) returns (sure: bool, a: Answer, ghost e: Edit)
      requires Valid() && OnPath(c)
      modifies v, v.fs, v.fs.host
      ensures R.Orderly(old(Present()).m)
      ensures sure ==> Valid() && Follows(old(Present()), c, a, e, Present())
      ensures !sure ==> UndefinedAt(old(Present()), c)
    {
      hide P.Process.Working, Vfs.Valid, Matched, R.Follows, R.Orderly, R.UndefinedAt;
      ghost var s := Present();
      var op := OpOf(p.t.slots[..], behind, c);
      var r;
      sure, r, e := R.Do(v, op, permits);
      a := if r.Ok? then Done else Failed(r.errno);
      Succeeded(r);
      if sure { FilesStand(s.m, op, r, e, R.Now(v)); }
    }

    /** A call on a descriptor's own description. */
    method DoOnFile(fd: int, chdir: bool) returns (a: Answer, ghost e: Edit)
      requires Valid()
      modifies v, v.fs, v.fs.host
      ensures Valid() && R.Orderly(old(Present()).m)
      ensures Follows(old(Present()), if chdir then Fchdir(fd) else Fsetattr(fd), a, e, Present())
    {
      hide P.Process.Working, Vfs.Valid, Matched, R.Follows, R.Orderly, Follows;
      GetIsSlot(fd);
      R.Ordered(v);
      SlotIffLive(0);
      ghost var s := Present();
      e := NoEdit;
      var f := p.Get(fd);
      if f !in behind {
        a := if f == 0 then NoDesc(D.EBADF) else Failed(if chdir then ENOTDIR else EPERM);
        OnFileSo(s, Present(), fd, chdir, a, e);
        return;
      }
      var op := if chdir then R.DoFchdir(behind[f]) else R.DoSetFileAttr(behind[f]);
      var r;
      r, e := R.RunOnFile(v, op);
      FilesStand(s.m, op, r, e, R.Now(v));
      a := if r.Ok? then Done else Failed(r.errno);
      Succeeded(r);
      OnFileSo(s, Present(), fd, chdir, a, e);
    }

    /** Any one call; `sure` unless it goes on with a path the code could not build. */
    method Perform(c: Syscall, permits: Permits) returns (sure: bool, a: Answer, ghost e: Edit)
      requires Valid()
      modifies this, p, p.t, p.t.slots, p.t.cloexec, v, v.fs, v.fs.host
      ensures R.Orderly(old(Present()).m)
      ensures sure ==> Valid() && Follows(old(Present()), c, a, e, Present())
      ensures !sure ==> UndefinedAt(old(Present()), c)
    {
      hide Valid, R.Orderly, Follows, Unmoved, Releases, InSlot, UndefinedAt, Present;
      sure, e := true, NoEdit;
      match c
      case Openat(fd, path, m, on) => a, e := DoOpen(fd, path, m, on, permits);
      case Close(fd) => a := DoClose(fd);
      case Dup2(oldfd, newfd) => a := DoDup(oldfd, newfd, false, false, false);
      case Dup3(oldfd, newfd, on, badFlags) => a := DoDup(oldfd, newfd, on, true, badFlags);
      case Dup(_, _, _) => a := DoTable(c);
      case Pipe2(_, _) => a := DoTable(c);
      case SetFd(_, _) => a := DoTable(c);
      case Read(_, _) => a := DoTable(c);
      case Write(_, _) => a := DoTable(c);
      case Fsetattr(fd) => a, e := DoOnFile(fd, false);
      case Fchdir(fd) => a, e := DoOnFile(fd, true);
      case _ => sure, a, e := DoPath(c, permits);
    }

    /** Over every run of system calls, at every moment up to the end or to a call that is
        undefined: the host handles that are open are the mount roots and those of descriptions
        some descriptor holds, every description counts its descriptors, the host tree stays a
        tree, and each call did and answered what it may. The run ends early only at a
        moment in which the next call is undefined. */
    method Run(calls: seq<Syscall>, permits: Permits) returns (done: nat, said: seq<Answer>, ghost log: seq<Moment>)
      requires Valid()
      modifies this, p, p.t, p.t.slots, p.t.cloexec, v, v.fs, v.fs.host
      ensures done <= |calls| && |log| == done + 1 && Traced(log, calls, said) && log[0] == old(Present())
      ensures done < |calls| ==> UndefinedAt(log[done], calls[done])
      ensures done == |calls| ==> Valid() && Present() == log[done]
    {
      hide Valid, Settled, Traced, UndefinedAt, Follows, R.Orderly, Present;
      Arranged();
      log, said := [Present()], [];
      Begun(Present(), calls);
      done := 0;
      while done < |calls|
        invariant 0 <= done <= |calls| && Valid() && Traced(log, calls, said) && |log| == done + 1
        invariant log[0] == old(Present()) && log[done] == Present()
      {
        var sure, a;
        ghost var e;
        sure, a, e := Perform(calls[done], permits);
        if !sure { return; }
        Arranged();
        Extended(log, calls, said, a, e, Present());
        log, said := log + [Present()], said + [a];
        done := done + 1;
      }
    }

    /** The end of the process: every descriptor closed and the mounts let go, nothing is left open. */
    method Exit()
      requires Valid()
      modifies this, p, p.t, p.t.slots, p.t.cloexec, v, v.fs, v.fs.host
      ensures p.ends == map[] && p.rings == map[] && v.files == map[] && v.fs.host.live == map[]
    {
      hide P.Process.Working, Matched, Vfs.Valid;
      p.ReleaseAll();
      R.Shutdown(v);
      behind := map[];
    }
  }

  /** A new pipe adds no description of the VFS. */
  lemma PipesOnly(slots0: seq<D.FileId>, clo0: seq<bool>, ends0: map<D.FileId, P.End>, rings0: map<P.RingId, P.Pipe>, r0: P.RingId,
                  slots: seq<D.FileId>, clo: seq<bool>, ends: map<D.FileId, P.End>, rings: map<P.RingId, P.Pipe>,
                  a: D.FdResult, b: D.FdResult, on: bool)
    requires P.PipeMade(slots0, clo0, ends0, rings0, r0, slots, clo, ends, rings, a, b, on)
    ensures forall f :: f in ends && ends[f] == P.Plain <==> f in ends0 && ends0[f] == P.Plain
    ensures a.Fd? && b.Fd? && Piped(slots0, slots, a.n, b.n)
  {
  }

  /** A pipe's description gone, or nothing. */
  lemma NothingLost(ends0: map<D.FileId, P.End>, behind: Behind, files: map<nat, Description>, f: D.FileId, now: map<D.FileId, P.End>)
    requires Matched(ends0, behind, files) && (now == ends0 || now == ends0 - {f}) && (f !in behind || f in now)
    ensures Matched(now, behind, files)
  {
  }

  /** What a call on the file layer leaves as it was. */
  lemma FilesStand(s: R.Moment, op: R.Op, r: Result<()>, e: Edit, t: R.Moment)
    requires R.Orderly(s) && R.Follows(s, op, r, e, t) && !op.DoOpen? && !op.DoClose?
    ensures t.files == s.files
  {
    hide R.Orderly, Accepts, Apply, IntoItself, SeatsOf;
  }

  lemma ClosedSo(s: Moment, t: Moment, fd: int, a: Answer, held: bool)
    requires a == if SlotOf(s.slots, fd) == 0 then NoDesc(D.EBADF) else Done
    requires R.Orderly(s.m) && Keeps(s.m, t.m) && 0 !in s.behind
    requires var f := SlotOf(s.slots, fd);
             && t.slots == (if f == 0 then s.slots else s.slots[fd := 0])
             && Lets(f, held, s.behind, s.m.files, t.behind, t.m.files) && (f != 0 ==> (held <==> f in t.slots))
    ensures Follows(s, Close(fd), a, NoEdit, t)
    ensures if SlotOf(s.slots, fd) == 0 then Unmoved(s, t) else Releases(s, fd, t)
  {
    hide R.Orderly, SeatsOf;
  }

  lemma DupedSo(s: Moment, t: Moment, oldfd: int, newfd: int, on: bool, third: bool, badFlags: bool, a: Answer, held: bool)
    requires a == if third && (badFlags || oldfd == newfd) then NoDesc(D.EINVAL)
                  else if SlotOf(s.slots, oldfd) == 0 || !(0 <= newfd < |s.slots|) then NoDesc(D.EBADF) else Desc(newfd)
    requires R.Orderly(s.m) && Keeps(s.m, t.m) && 0 !in s.behind
    requires var f := SlotOf(s.slots, newfd);
             var ok := !(third && (badFlags || oldfd == newfd)) && SlotOf(s.slots, oldfd) != 0 && 0 <= newfd < |s.slots|;
             && t.slots == (if ok then s.slots[newfd := s.slots[oldfd]] else s.slots)
             && Lets(f, held, s.behind, s.m.files, t.behind, t.m.files) && (f != 0 ==> (held <==> f in t.slots))
    ensures Follows(s, if third then Dup3(oldfd, newfd, on, badFlags) else Dup2(oldfd, newfd), a, NoEdit, t)
    ensures if !(third && (badFlags || oldfd == newfd)) && SlotOf(s.slots, oldfd) != 0 && 0 <= newfd < |s.slots|
            then Releases(s, newfd, t) else Unmoved(s, t)
  {
    hide R.Orderly, SeatsOf, Keeps;
    if SlotOf(s.slots, newfd) != 0 { assert s.slots[newfd] in s.slots; }
  }

  lemma TableSo(s: Moment, t: Moment, c: Syscall, a: Answer)
    requires c.Dup? ==>
               && a == NoDesc(if SlotOf(s.slots, c.fd) == 0 then D.EBADF else if c.min < 0 then D.EINVAL else D.EMFILE)
               && (a.e == D.EMFILE ==> forall i :: c.min <= i < |s.slots| ==> s.slots[i] != 0)
    requires c.Pipe2? ==> (c.fault || P.Crowded(s.slots)) && a == NoDesc(if P.Crowded(s.slots) then D.EMFILE else D.EFAULT)
    requires c.SetFd? ==> a == if SlotOf(s.slots, c.fd) == 0 then NoDesc(D.EBADF) else Done
    requires R.Orderly(s.m) && t.m == s.m && t.behind == s.behind && t.slots == s.slots
    requires c.Dup? || c.Pipe2? || c.SetFd? || c.Read? || c.Write?
    ensures Follows(s, c, a, NoEdit, t)
  {
    hide R.Orderly, SeatsOf;
  }

  lemma DupfdSo(s: Moment, t: Moment, c: Syscall, n: nat)
    requires R.Orderly(s.m) && t.m == s.m && t.behind == s.behind
    requires c.Dup? && SlotOf(s.slots, c.fd) != 0 && Duped(s, t, c.fd, c.min, n)
    ensures Follows(s, c, Desc(n), NoEdit, t)
  {
    hide R.Orderly, SeatsOf, Duped;
  }

  lemma PipedSo(s: Moment, t: Moment, c: Syscall, a: nat, b: nat)
    requires R.Orderly(s.m) && t.m == s.m && t.behind == s.behind && c.Pipe2? && !c.fault && Piped(s.slots, t.slots, a, b)
    ensures Follows(s, c, Done, NoEdit, t)
  {
    hide R.Orderly, SeatsOf, Piped;
  }

  lemma OnFileSo(s: Moment, t: Moment, fd: int, chdir: bool, a: Answer, e: Edit)
    requires R.Orderly(s.m) && Unmoved(s, t)
    requires if Behinds(s, fd) then
               && (a == Done || a.Failed?)
               && R.Follows(s.m, if chdir then R.DoFchdir(FileOf(s, fd)) else R.DoSetFileAttr(FileOf(s, fd)), Told(a), e, t.m)
             else t.m == s.m && e == NoEdit && a == NoFile(s, fd, if chdir then ENOTDIR else EPERM)
    ensures Follows(s, if chdir then Fchdir(fd) else Fsetattr(fd), a, e, t)
  {
    hide R.Orderly, R.Follows, SeatsOf;
  }

  lemma OpenPlaced(s: Moment, mid: R.Moment, t: Moment, c: Syscall, a: Answer, e: Edit, f: D.FileId, d: nat)
    requires c.Openat? && R.Orderly(s.m) && a.Desc?
    requires R.Follows(s.m, R.DoOpen(StartAt(s.slots, s.behind, c.dirfd), c.path, c.m), Ok(()), e, mid)
    requires Keeps(mid, t.m) && t.m.files == mid.files && t.m.live == mid.live && InSlot(s, t, a.fd, f, d)
    ensures Follows(s, c, a, e, t)
  {
    hide R.Orderly, Accepts, Apply, IntoItself, IsSpace, SeatsOf, InSlot, R.Answered, R.Describes;
    assert NewSlot(s, t, a.fd);
    DescribedStill(s.m, R.DoOpen(StartAt(s.slots, s.behind, c.dirfd), c.path, c.m), e, mid, t.m);
  }

  lemma DescribedStill(s: R.Moment, op: R.Op, e: Edit, mid: R.Moment, t: R.Moment)
    requires R.Orderly(s) && op.DoOpen? && t.files == mid.files && t.live == mid.live
    ensures forall d :: R.Describes(s, op, e, mid, d) ==> R.Describes(s, op, e, t, d)
  {
    hide R.Orderly, Comes, OpenAim;
  }

  lemma OpenFailed(s: Moment, t: Moment, c: Syscall, a: Answer, e: Edit)
    requires c.Openat? && R.Orderly(s.m) && a.Failed? && Unmoved(s, t)
    requires R.Follows(s.m, R.DoOpen(StartAt(s.slots, s.behind, c.dirfd), c.path, c.m), Told(a), e, t.m)
    ensures Follows(s, c, a, e, t)
  {
    hide R.Orderly, R.Follows, Unmoved;
  }

  lemma OpenDropped(s: Moment, mid: R.Moment, t: Moment, c: Syscall, a: Answer, e: Edit)
    requires c.Openat? && R.Orderly(s.m) && NoRoom(s, a) && Unmoved(s, t) && Keeps(mid, t.m)
    requires R.Follows(s.m, R.DoOpen(StartAt(s.slots, s.behind, c.dirfd), c.path, c.m), Ok(()), e, mid)
    ensures Follows(s, c, a, e, t)
  {
    hide R.Orderly, R.Follows, Unmoved, Keeps;
  }

  lemma StaysSteady(s: Moment, c: Syscall, a: Answer, e: Edit, t: Moment)
    requires R.Orderly(s.m) && Follows(s, c, a, e, t)
    ensures Steady(s) ==> Steady(t)
  {
    hide R.Orderly, R.Sound, Unmoved, Releases, NewSlot, Tables, Overwrites, SeatsOf, R.Follows;
    if OnPath(c) {
      R.SoundOn(s.m, OpOf(s.slots, s.behind, c), Told(a), e, t.m);
    } else if c.Openat? {
      var op := R.DoOpen(StartAt(s.slots, s.behind, c.dirfd), c.path, c.m);
      if a.NoDesc? {
        var mid: R.Moment :| R.Follows(s.m, op, Ok(()), e, mid) && Keeps(mid, t.m);
        R.SoundOn(s.m, op, Ok(()), e, mid);
        assert R.SpaceAt(t.m) == R.SpaceAt(mid);
      } else {
        R.SoundOn(s.m, op, Told(a), e, t.m);
      }
    } else if c.Fsetattr? && Behinds(s, c.fd) {
      R.SoundOn(s.m, R.DoSetFileAttr(FileOf(s, c.fd)), Told(a), e, t.m);
    } else if c.Fchdir? && Behinds(s, c.fd) {
      R.SoundOn(s.m, R.DoFchdir(FileOf(s, c.fd)), Told(a), e, t.m);
    } else {
      assert R.SpaceAt(t.m) == R.SpaceAt(s.m);
    }
  }

  lemma Begun(s: Moment, calls: seq<Syscall>)
    requires Settled(s)
    ensures Traced([s], calls, [])
  {
  }

  lemma LeadsOn(s: Moment, c: Syscall, a: Answer, e: Edit, t: Moment)
    requires R.Orderly(s.m) && Follows(s, c, a, e, t)
    ensures Leads(s, c, a, t)
  {
    hide R.Orderly, Follows;
  }

  lemma Extended(log: seq<Moment>, calls: seq<Syscall>, said: seq<Answer>, a: Answer, e: Edit, t: Moment)
    requires Traced(log, calls, said) && |log| <= |calls| && Settled(t)
    requires R.Orderly(log[|log| - 1].m) && Follows(log[|log| - 1], calls[|log| - 1], a, e, t)
    ensures Traced(log + [t], calls, said + [a])
  {
    var n := |log| - 1;
    hide R.Orderly, Settled, Steady, Follows, Leads;
    StaysSteady(log[n], calls[n], a, e, t);
    LeadsOn(log[n], calls[n], a, e, t);
    var longer, more := log + [t], said + [a];
    forall i | 0 <= i < |longer| - 1 ensures Leads(longer[i], calls[i], more[i], longer[i + 1]) {
      if i < n { assert longer[i] == log[i] && longer[i + 1] == log[i + 1] && more[i] == said[i]; }
    }
  }
}
