/** The operations of the VFS (core/vfs.c:642-1159) over open descriptions: who
    owns which host handle, what each operation does to the tree, and what stays
    canonical. */
module VfsOps {
  import opened Basics
  import opened Errors
  import opened Paths
  import opened Trees
  import opened TreeEdits
  import opened Spaces
  import opened Resolution
  import opened Hosts
  import opened Walks
  import opened Kernels
  import opened Openings
  import opened Renames

  /** An open file description: its host handle (0 for none) and where it was opened. */
  datatype Description = Description(h: Handle, kind: FileKind, path: string)

  function Roots(mounts: seq<Mount>): set<Handle> {
    set k | 0 <= k < |mounts| && mounts[k].HostMount? :: mounts[k].root
  }

  function Handles(files: map<nat, Description>): set<Handle> {
    set f | f in files && files[f].h != 0 :: files[f].h
  }

  /** The open handles are exactly the mount roots and those the descriptions
      own, each by one owner. */
  ghost predicate Owned(mounts: seq<Mount>, files: map<nat, Description>, live: map<Handle, NodeId>) {
    && live.Keys == Roots(mounts) + Handles(files)
    && Roots(mounts) !! Handles(files)
    && (forall j, k :: 0 <= j < k < |mounts| && mounts[j].HostMount? && mounts[k].HostMount? ==> mounts[j].root != mounts[k].root)
    && (forall f, g :: f in files && g in files && f != g && files[f].h != 0 ==> files[f].h != files[g].h)
    && 0 !in live
  }

  predicate OfHost(k: FileKind) {
    k.HostFile? || k.HostFolder? || k.LinkFile?
  }

  /** The recorded path is canonical, or missing where O_CREAT could not build a plain file's,
      and exactly the descriptions of host objects own a handle. */
  predicate InOrder(d: Description) {
    (GoodPath(d.path) || (d.kind.HostFile? && d.path == "")) && (d.h != 0 <==> OfHost(d.kind))
  }

  ghost predicate AllInOrder(files: map<nat, Description>) {
    forall f :: f in files ==> InOrder(files[f])
  }

  lemma OwnedOpen(mounts: seq<Mount>, files: map<nat, Description>, live: map<Handle, NodeId>, f: nat, d: Description, n: NodeId)
    requires Owned(mounts, files, live) && f !in files && d.h !in live && d.h != 0
    ensures Owned(mounts, files[f := d], live[d.h := n])
  {
    var more := files[f := d];
    assert Handles(more) == Handles(files) + {d.h} by {
      forall h | h in Handles(files) ensures h in Handles(more) {
        var g :| g in files && files[g].h == h && h != 0;
        assert more[g].h == h;
      }
      assert more[f].h == d.h;
    }
  }

  lemma OwnedSynth(mounts: seq<Mount>, files: map<nat, Description>, live: map<Handle, NodeId>, f: nat, d: Description)
    requires Owned(mounts, files, live) && f !in files && d.h == 0
    ensures Owned(mounts, files[f := d], live)
  {
    var more := files[f := d];
    forall h | h in Handles(files) ensures h in Handles(more) {
      var g :| g in files && files[g].h == h && h != 0;
      assert more[g].h == h;
    }
    assert Handles(more) == Handles(files);
  }

  lemma OwnedClose(mounts: seq<Mount>, files: map<nat, Description>, live: map<Handle, NodeId>, f: nat)
    requires Owned(mounts, files, live) && f in files
    ensures Owned(mounts, files - {f}, live - {files[f].h})
    ensures files[f].h != 0 ==> files[f].h in live
  {
    var less := files - {f};
    var h := files[f].h;
    assert h != 0 ==> h in Handles(files);
    forall x | x in Handles(files) && x != h ensures x in Handles(less) {
      var g :| g in files && files[g].h == x && x != 0;
      assert less[g].h == x;
    }
    assert Handles(less) == Handles(files) - {h};
  }

  /** No mount root belongs to a description. */
  lemma RootsKept(mounts: seq<Mount>, files: map<nat, Description>, live: map<Handle, NodeId>, f: nat)
    requires Owned(mounts, files, live) && f in files && RootsOpen(mounts, live)
    ensures RootsOpen(mounts, live - {files[f].h}) && SeatsOf(mounts, live - {files[f].h}) == SeatsOf(mounts, live)
  {
    var h := files[f].h;
    assert h != 0 ==> h in Handles(files);
    forall k | 0 <= k < |mounts| && mounts[k].HostMount? ensures mounts[k].root != h {
      assert mounts[k].root in Roots(mounts);
    }
  }

  /** The path does not lead to a directory, for this reason. */
  ghost predicate DirFails(sp: Space, abs: string, e: Errno)
    requires ValidSeats(sp.seats)
  {
    match NodeAt(sp, Components(abs))
    case Err(e') => e == e'
    case Ok(n) => e == ENOTDIR && !IsDir(sp.objs, n)
  }

  // ---- what the operations answer when the host refuses nothing ----

  datatype NewObject = NewLink(target: string) | NewDir | NewSpecial

  function ObjectOf(what: NewObject, d: NodeId): Object {
    match what
    case NewLink(target) => Symlink(target)
    case NewDir => Directory(map[], d)
    case NewSpecial => Plain(true)
  }

  /** `host_parent`: what it answers before the directory is opened. */
  function ParentCheck(mounts: seq<Mount>, w: Result<Loc>): Result<Loc> {
    match w
    case Err(e) => Err(e)
    case Ok(loc) => if OnHost(mounts, loc) then w else Err(EACCES)
  }

  /** symlink, mkdir and mknod. */
  ghost function MakeAnswer(sp: Space, mounts: seq<Mount>, w: Result<Loc>, what: NewObject): Result<()>
    requires ValidSeats(sp.seats)
  {
    if what == NewLink("") then Err(ENOENT)
    else match ParentCheck(mounts, w)
    case Err(e) => Err(e)
    case Ok(loc) =>
      match NodeAt(sp, Components(loc.abs))
      case Err(e) => Err(e)
      case Ok(d) =>
        if !IsDir(sp.objs, d) then Err(ENOTDIR)
        else if what.NewLink? && |what.target| >= PATH_MAX then Err(ENAMETOOLONG)
        else if Lookup(sp.objs, d, loc.last).Ok? then Err(EEXIST)
        else Ok(())
  }

  /** `vfs_link`: the file a further name is for. */
  ghost function LinkSource(sp: Space, mounts: seq<Mount>, w: Result<Loc>): Result<NodeId>
    requires ValidSeats(sp.seats) && |sp.seats| == |mounts|
  {
    match w
    case Err(e) => Err(e)
    case Ok(loc) =>
      if !OnHost(mounts, loc) then Err(EPERM)
      else match NodeAt(sp, Components(loc.abs))
        case Err(e) => Err(e)
        case Ok(n) =>
          if IsDir(sp.objs, n) then Err(EPERM)
          else if Point(sp.seats, loc.mount) == Components(loc.abs) then Err(Unspecified)
          else Ok(n)
  }

  /** `vfs_link`: the directory the new name goes into, and the name. */
  ghost function LinkTarget(sp: Space, mounts: seq<Mount>, mount: nat, nw: Result<Loc>): Result<(NodeId, string)>
    requires ValidSeats(sp.seats)
  {
    match ParentCheck(mounts, nw)
    case Err(e) => Err(e)
    case Ok(loc) =>
      match NodeAt(sp, Components(loc.abs))
      case Err(e) => Err(e)
      case Ok(d) =>
        if !IsDir(sp.objs, d) then Err(ENOTDIR)
        else if loc.mount != mount then Err(EXDEV)
        else Ok((d, loc.last))
  }

  /** `vfs_link`: the new entry, or why there is none. */
  ghost function LinkAnswer(sp: Space, mounts: seq<Mount>, ow: Result<Loc>, nw: Result<Loc>): Result<Edit>
    requires ValidSeats(sp.seats) && |sp.seats| == |mounts|
  {
    match LinkSource(sp, mounts, ow)
    case Err(e) => Err(e)
    case Ok(x) =>
      match LinkTarget(sp, mounts, ow.value.mount, nw)
      case Err(e) => Err(e)
      case Ok((d, name)) =>
        match TieAnswer(sp.objs, d, name, x)
        case Err(e) => Err(e)
        case Ok(_) => Ok(Tie(d, name, x))
  }

  lemma TargetFails(sp: Space, mounts: seq<Mount>, mount: nat, w: Result<Loc>, e: Errno)
    requires ValidSeats(sp.seats)
    requires var c := ParentCheck(mounts, w); c == Err(e) || (c.Ok? && DirFails(sp, c.value.abs, e))
    ensures LinkTarget(sp, mounts, mount, w) == Err(e)
  {
  }

  lemma TargetFound(sp: Space, mounts: seq<Mount>, mount: nat, w: Result<Loc>, loc: Loc, d: NodeId)
    requires ValidSeats(sp.seats) && ParentCheck(mounts, w) == Ok(loc)
    requires NodeAt(sp, Components(loc.abs)) == Ok(d) && IsDir(sp.objs, d)
    ensures LinkTarget(sp, mounts, mount, w) == if loc.mount == mount then Ok((d, loc.last)) else Err(EXDEV)
  {
  }

  /** What `vfs_link` answers once its source is settled. */
  lemma LinkSettled(sp: Space, mounts: seq<Mount>, o: Loc, w: Result<Loc>, x: NodeId)
    requires ValidSeats(sp.seats) && |sp.seats| == |mounts| && LinkSource(sp, mounts, Ok(o)) == Ok(x)
    ensures var t, a := LinkTarget(sp, mounts, o.mount, w), LinkAnswer(sp, mounts, Ok(o), w);
            && (t.Err? ==> a == Err(t.errno))
            && (t.Ok? ==> var y := TieAnswer(sp.objs, t.value.0, t.value.1, x);
                          a == if y.Ok? then Ok(Tie(t.value.0, t.value.1, x)) else Err(y.errno))
  {
  }

  lemma SourceAgain(sp: Space, mounts: seq<Mount>, w: Result<Loc>, o: Loc)
    requires ValidSeats(sp.seats) && |sp.seats| == |mounts| && o.mount < |mounts|
    requires OnHost(mounts, o) && Point(sp.seats, o.mount) != Components(o.abs)
    requires var s := LinkSource(sp, mounts, w); s.Ok? && NodeAt(sp, Components(o.abs)) == s
    ensures LinkSource(sp, mounts, Ok(o)) == LinkSource(sp, mounts, w)
  {
  }

  lemma LinkFails(sp: Space, mounts: seq<Mount>, ow: Result<Loc>, nw: Result<Loc>)
    requires ValidSeats(sp.seats) && |sp.seats| == |mounts|
    ensures var s := LinkSource(sp, mounts, ow); s.Err? ==> LinkAnswer(sp, mounts, ow, nw) == Err(s.errno)
  {
  }

  /** `vfs_chdir`: to a directory that may be searched. */
  ghost function ChdirAnswer(sp: Space, w: Result<Loc>, permits: Permits): Result<()>
    requires ValidSeats(sp.seats)
  {
    match w
    case Err(e) => Err(e)
    case Ok(loc) =>
      match NodeAt(sp, Components(loc.abs))
      case Err(e) => Err(e)
      case Ok(n) => if permits(n, false, false) then Ok(()) else Err(EACCES)
  }

  /** The path leads to no link, for this reason. */
  ghost predicate NoLink(sp: Space, w: Result<Loc>, e: Errno)
    requires ValidSeats(sp.seats)
  {
    match w
    case Err(e') => e == e'
    case Ok(loc) =>
      match NodeAt(sp, Components(loc.abs))
      case Err(e') => e == e'
      case Ok(n) => e == EINVAL && !IsLink(sp.objs, n)
  }

  /** The path leads to nothing whose attributes can be set, for this reason. */
  ghost predicate AttrFails(sp: Space, mounts: seq<Mount>, w: Result<Loc>, e: Errno)
    requires ValidSeats(sp.seats) && |sp.seats| == |mounts|
  {
    match w
    case Err(e') => e == e'
    case Ok(loc) =>
      if !OnHost(mounts, loc) then e == EPERM
      else match NodeAt(sp, Components(loc.abs))
        case Err(e') => e == e'
        case Ok(n) => e == ENOTDIR && Point(sp.seats, loc.mount) == Components(loc.abs) && !IsDir(sp.objs, n)
  }

  lemma NoneReparsed(objs: Objects)
    ensures forall n :: OpenExisting(objs, n, PLAIN.(reparse := true)).Ok?
  {
  }

  lemma WalkFailed(sp: Space, mounts: seq<Mount>, e: Errno)
    requires ValidSeats(sp.seats) && |sp.seats| == |mounts|
    ensures AttrFails(sp, mounts, Err(e), e)
  {
  }

  predicate EndsInDot(path: string) {
    path != "" && path[|path| - 1] == '.' && (|path| == 1 || path[|path| - 2] == '/')
  }

  /** `vfs_unlink` up to the host's own answer: the location, or why not. */
  ghost function UnlinkCheck(sp: Space, mounts: seq<Mount>, w: Result<Loc>, path: string, rmdir: bool): Result<Loc>
    requires ValidSeats(sp.seats)
  {
    match w
    case Err(e) =>
      if e != EEXIST then Err(e)
      else if rmdir && EndsInDot(path) then Err(EINVAL)
      else Err(if rmdir then EBUSY else EISDIR)
    case Ok(loc) =>
      if !OnHost(mounts, loc) then Err(EACCES)
      else if !Fits(loc.abs, loc.last) then Err(Unspecified)
      else
        var cs := Components(Join(loc.abs, loc.last));
        if Seated(sp.seats, cs) then Err(EBUSY)
        else match NodeAt(sp, cs)
          case Err(e) => Err(e)
          case Ok(n) =>
            if rmdir && !IsDir(sp.objs, n) then Err(ENOTDIR)
            else if !rmdir && IsDir(sp.objs, n) then Err(EISDIR)
            else Ok(loc)
  }

  /** `vfs_unlink` in full. */
  ghost function UnlinkAnswer(sp: Space, mounts: seq<Mount>, w: Result<Loc>, path: string, rmdir: bool): Result<()>
    requires ValidSeats(sp.seats)
  {
    match UnlinkCheck(sp, mounts, w, path, rmdir)
    case Err(e) => Err(e)
    case Ok(loc) => RemoveFrom(sp, loc, rmdir)
  }

  /** The answer from the point where the parent is opened. */
  ghost function RemoveFrom(sp: Space, loc: Loc, rmdir: bool): Result<()>
    requires ValidSeats(sp.seats)
  {
    match NodeAt(sp, Components(loc.abs))
    case Err(e) => Err(e)
    case Ok(d) => RemoveAnswer(sp.objs, d, loc.last, rmdir)
  }

  lemma UnlinkSettled(sp: Space, mounts: seq<Mount>, w: Result<Loc>, path: string, rmdir: bool)
    requires ValidSeats(sp.seats)
    ensures var c, a := UnlinkCheck(sp, mounts, w, path, rmdir), UnlinkAnswer(sp, mounts, w, path, rmdir);
            if c.Err? then a == Err(c.errno) else w == c && a == RemoveFrom(sp, c.value, rmdir)
  {
    hide RemoveFrom, NodeAt, Seated, Components, Join, Fits, OnHost;
  }

  lemma AcceptsNothing(objs: Objects)
    ensures Accepts(objs, NoEdit) && Apply(objs, NoEdit) == objs
  {
  }

  lemma RemoveFound(sp: Space, loc: Loc, rmdir: bool, d: NodeId)
    requires ValidSeats(sp.seats) && NodeAt(sp, Components(loc.abs)) == Ok(d)
    ensures RemoveFrom(sp, loc, rmdir) == RemoveAnswer(sp.objs, d, loc.last, rmdir)
  {
  }

  /** The edit takes the location's name out of its directory. */
  ghost predicate Removes(sp: Space, w: Result<Loc>, e: Edit)
    requires ValidSeats(sp.seats)
  {
    && w.Ok? && e.Unmake? && e.name == w.value.last
    && NodeAt(sp, Components(w.value.abs)) == Ok(e.d)
  }

  /** The edit adds the new object under the location's name. */
  ghost predicate Makes(sp: Space, w: Result<Loc>, what: NewObject, e: Edit)
    requires ValidSeats(sp.seats)
  {
    && w.Ok? && e.Make? && e.o == ObjectOf(what, e.d) && e.name == w.value.last
    && NodeAt(sp, Components(w.value.abs)) == Ok(e.d)
  }

  lemma RemoveFails(sp: Space, loc: Loc, rmdir: bool, e: Errno)
    requires ValidSeats(sp.seats) && DirFails(sp, loc.abs, e)
    ensures RemoveFrom(sp, loc, rmdir) == Err(e)
  {
  }

  /** `vfs_rename` up to the host's own answer: `Ok(true)` to go ahead, `Ok(false)`
      when both names are the same. */
  ghost function RenameCheck(sp: Space, mounts: seq<Mount>, ow: Result<Loc>, nw: Result<Loc>, noreplace: bool): Result<bool>
    requires ValidSeats(sp.seats)
  {
    if ow.Err? then Err(if ow.errno == EEXIST then EBUSY else ow.errno)
    else if nw.Err? then Err(if nw.errno == EEXIST then EBUSY else nw.errno)
    else
      var o, n := ow.value, nw.value;
      if !OnHost(mounts, o) || !OnHost(mounts, n) then Err(EACCES)
      else if o.mount != n.mount then Err(EXDEV)
      else if !Fits(o.abs, o.last) || !Fits(n.abs, n.last) then Err(Unspecified)
      else RenameNames(sp, Join(o.abs, o.last), Join(n.abs, n.last), noreplace)
  }

  ghost function RenameNames(sp: Space, ocand: string, ncand: string, noreplace: bool): Result<bool>
    requires ValidSeats(sp.seats)
  {
    if Seated(sp.seats, Components(ocand)) || Seated(sp.seats, Components(ncand)) then Err(EBUSY)
    else match NodeAt(sp, Components(ocand))
      case Err(e) => Err(e)
      case Ok(x) =>
        DecideNames(sp.objs, ocand, ncand, x, NodeAt(sp, Components(ncand)), noreplace)
  }

  // ---- where the code reads a path it could not build ----

  /** The walk ends on a host mount, at a name that does not fit behind its directory. */
  predicate Unfit(mounts: seq<Mount>, w: Result<Loc>) {
    w.Ok? && OnHost(mounts, w.value) && !Fits(w.value.abs, w.value.last)
  }

  /** Both walks end on one host mount, and either name does not fit. */
  predicate UnfitPair(mounts: seq<Mount>, ow: Result<Loc>, nw: Result<Loc>) {
    && ow.Ok? && nw.Ok? && OnHost(mounts, ow.value) && OnHost(mounts, nw.value) && ow.value.mount == nw.value.mount
    && (Unfit(mounts, ow) || Unfit(mounts, nw))
  }

  lemma MoveErrors(objs: Objects, od: NodeId, on: string, nd: NodeId, nn: string, noreplace: bool)
    ensures MoveAnswer(objs, od, on, nd, nn, noreplace) != Err(Unspecified)
  {
  }

  /** An unlink is undefined exactly when its walk succeeds on a host mount and
      the directory with the name behind it is too long for a path buffer. */
  lemma UnlinkUndefined(sp: Space, mounts: seq<Mount>, cwd: string, b: Origin, path: string, rmdir: bool)
    requires ValidSeats(sp.seats) && GoodPath(cwd) && OriginFits(b)
    ensures var w := PathAnswer(sp, cwd, b, path, PARENT);
            UnlinkAnswer(sp, mounts, w, path, rmdir) == Err(Unspecified) <==> Unfit(mounts, w)
  {
    PathDetermined(sp, cwd, b, path, PARENT);
    hide PathAnswer, UnlinkAnswer, Unfit;
    WalkedUnlink(sp, mounts, PathAnswer(sp, cwd, b, path, PARENT), path, rmdir);
  }

  /** The same once the walk is done. */
  lemma WalkedUnlink(sp: Space, mounts: seq<Mount>, w: Result<Loc>, path: string, rmdir: bool)
    requires ValidSeats(sp.seats) && w != Err(Unspecified)
    ensures UnlinkAnswer(sp, mounts, w, path, rmdir) == Err(Unspecified) <==> Unfit(mounts, w)
  {
    UnlinkSettled(sp, mounts, w, path, rmdir);
    CheckUndefined(sp, mounts, w, path, rmdir);
    if w.Ok? { RemoveErrors(sp, w.value, rmdir); }
    hide UnlinkCheck, UnlinkAnswer, RemoveFrom, Unfit, ValidSeats;
  }

  lemma CheckUndefined(sp: Space, mounts: seq<Mount>, w: Result<Loc>, path: string, rmdir: bool)
    requires ValidSeats(sp.seats) && w != Err(Unspecified)
    ensures UnlinkCheck(sp, mounts, w, path, rmdir) == Err(Unspecified) <==> Unfit(mounts, w)
  {
    if w.Ok? { NodeErrors(sp, Components(Join(w.value.abs, w.value.last))); }
    hide NodeAt, Components, Join, ValidSeats, Fits, OnHost, Seated;
  }

  lemma RemoveErrors(sp: Space, loc: Loc, rmdir: bool)
    requires ValidSeats(sp.seats)
    ensures RemoveFrom(sp, loc, rmdir) != Err(Unspecified)
  {
    NodeErrors(sp, Components(loc.abs));
    hide NodeAt, Components, ValidSeats;
  }

  /** A rename is undefined exactly when both walks succeed on one host mount and
      either name is too long for a path buffer behind its directory. */
  lemma RenameUndefined(sp: Space, mounts: seq<Mount>, cwd: string, ob: Origin, oldpath: string, nb: Origin, newpath: string,
                        noreplace: bool)
    requires ValidSeats(sp.seats) && GoodPath(cwd) && OriginFits(ob) && OriginFits(nb)
    ensures var ow, nw := PathAnswer(sp, cwd, ob, oldpath, PARENT), PathAnswer(sp, cwd, nb, newpath, PARENT);
            RenameAnswer(sp, mounts, ow, nw, noreplace) == Err(Unspecified) <==> UnfitPair(mounts, ow, nw)
  {
    PathDetermined(sp, cwd, ob, oldpath, PARENT);
    PathDetermined(sp, cwd, nb, newpath, PARENT);
    var ow, nw := PathAnswer(sp, cwd, ob, oldpath, PARENT), PathAnswer(sp, cwd, nb, newpath, PARENT);
    hide PathAnswer, NodeAt, Components, Join, ValidSeats, MoveAnswer, Inside, Fits, OnHost;
    if ow.Ok? && nw.Ok? { NamesDetermined(sp, ow.value, nw.value, noreplace); }
  }

  lemma NamesDetermined(sp: Space, o: Loc, n: Loc, noreplace: bool)
    requires ValidSeats(sp.seats)
    ensures RenameNames(sp, Join(o.abs, o.last), Join(n.abs, n.last), noreplace) != Err(Unspecified)
    ensures forall seen :: OpenedAnswer(sp, o, n, noreplace, seen) != Err(Unspecified)
  {
    NodeErrors(sp, Components(Join(o.abs, o.last)));
    NodeErrors(sp, Components(o.abs));
    NodeErrors(sp, Components(n.abs));
    hide NodeAt, Components, Join, ValidSeats, MoveAnswer, Inside;
    var p := Parents(sp, o, n);
    if p.Ok? { MoveErrors(sp.objs, p.value.0, o.last, p.value.1, n.last, noreplace); }
  }

  /** On a space whose mounts sit on directories a link is never undefined. */
  lemma LinkDetermined(sp: Space, mounts: seq<Mount>, cwd: string, ob: Origin, oldpath: string, nb: Origin, newpath: string,
                       follow: bool)
    requires IsSpace(sp) && |sp.seats| == |mounts| && GoodPath(cwd) && OriginFits(ob) && OriginFits(nb)
    ensures LinkAnswer(sp, mounts, PathAnswer(sp, cwd, ob, oldpath, PLAIN_WALK.(nofollow := !follow)),
                       PathAnswer(sp, cwd, nb, newpath, PARENT)) != Err(Unspecified)
  {
    var flags := PLAIN_WALK.(nofollow := !follow);
    PathDetermined(sp, cwd, ob, oldpath, flags);
    PathDetermined(sp, cwd, nb, newpath, PARENT);
    PathFits(sp, cwd, ob, oldpath, flags);
    hide PathAnswer, LinkAnswer, IsSpace, LocFits;
    WalkedDetermined(sp, mounts, PathAnswer(sp, cwd, ob, oldpath, flags), PathAnswer(sp, cwd, nb, newpath, PARENT));
  }

  /** The same once both walks are done. */
  lemma WalkedDetermined(sp: Space, mounts: seq<Mount>, ow: Result<Loc>, nw: Result<Loc>)
    requires IsSpace(sp) && |sp.seats| == |mounts| && ow != Err(Unspecified) && nw != Err(Unspecified)
    requires ow.Ok? ==> ow.value.mount < |mounts|
    ensures LinkAnswer(sp, mounts, ow, nw) != Err(Unspecified)
  {
    SourceDetermined(sp, mounts, ow);
    hide LinkSource, LinkTarget, TieAnswer, IsSpace;
    var x := LinkSource(sp, mounts, ow);
    if x.Ok? {
      var mount := ow.value.mount;
      TargetDetermined(sp, mounts, mount, nw);
      var t := LinkTarget(sp, mounts, mount, nw);
      if t.Ok? { TieErrors(sp.objs, t.value.0, t.value.1, x.value); }
    }
  }

  lemma SourceDetermined(sp: Space, mounts: seq<Mount>, w: Result<Loc>)
    requires IsSpace(sp) && |sp.seats| == |mounts| && w != Err(Unspecified)
    ensures LinkSource(sp, mounts, w) != Err(Unspecified)
    ensures w.Err? ==> LinkSource(sp, mounts, w).Err?
  {
    if w.Ok? {
      NodeErrors(sp, Components(w.value.abs));
      if OnHost(mounts, w.value) && Point(sp.seats, w.value.mount) == Components(w.value.abs) { SeatIsDir(sp, w.value.mount); }
    }
    hide NodeAt, Components, IsSpace, ValidSeats;
  }

  lemma TargetDetermined(sp: Space, mounts: seq<Mount>, mount: nat, w: Result<Loc>)
    requires ValidSeats(sp.seats) && w != Err(Unspecified)
    ensures LinkTarget(sp, mounts, mount, w) != Err(Unspecified)
  {
    if w.Ok? { NodeErrors(sp, Components(w.value.abs)); }
    hide NodeAt, Components, ValidSeats;
  }

  lemma TieErrors(objs: Objects, d: NodeId, name: string, n: NodeId)
    ensures TieAnswer(objs, d, name, n) != Err(Unspecified)
  {
  }

  /** What is at a mount's own point is a directory. */
  lemma SeatIsDir(sp: Space, k: nat)
    requires IsSpace(sp) && k < |sp.seats|
    ensures NodeAt(sp, Point(sp.seats, k)).Ok? && IsDir(sp.objs, NodeAt(sp, Point(sp.seats, k)).value)
  {
    AtPoint(sp, k);
  }

  /** `vfs_rename` in full. */
  ghost function RenameAnswer(sp: Space, mounts: seq<Mount>, ow: Result<Loc>, nw: Result<Loc>, noreplace: bool): Result<()>
    requires ValidSeats(sp.seats)
  {
    var c := RenameCheck(sp, mounts, ow, nw, noreplace);
    if c.Err? then Err(c.errno)
    else if !c.value then Ok(())
    else OpenedAnswer(sp, ow.value, nw.value, noreplace, Seen(sp, nw.value))
  }

  /** The parent directories of a rename, or why one of them cannot be opened. */
  ghost function Parents(sp: Space, o: Loc, n: Loc): Result<(NodeId, NodeId)>
    requires ValidSeats(sp.seats)
  {
    var od, nd := NodeAt(sp, Components(o.abs)), NodeAt(sp, Components(n.abs));
    if od.Err? then Err(od.errno)
    else if !IsDir(sp.objs, od.value) then Err(ENOTDIR)
    else if nd.Err? then Err(nd.errno)
    else if !IsDir(sp.objs, nd.value) then Err(ENOTDIR)
    else Ok((od.value, nd.value))
  }

  /** The answer from the point where the parents are opened. */
  ghost function OpenedAnswer(sp: Space, o: Loc, n: Loc, noreplace: bool, seen: bool): Result<()>
    requires ValidSeats(sp.seats)
  {
    match Parents(sp, o, n)
    case Err(e) => Err(e)
    case Ok((od, nd)) =>
      var r := MoveAnswer(sp.objs, od, o.last, nd, n.last, noreplace);
      if r == Err(EACCES) && seen then Err(ENOTEMPTY) else r
  }

  /** The edit moves the old location's name to the new location's. */
  ghost predicate Relocates(sp: Space, o: Loc, n: Loc, e: Edit)
    requires ValidSeats(sp.seats)
  {
    && e.Relocate? && e.on == o.last && e.nn == n.last
    && Parents(sp, o, n) == Ok((e.od, e.nd))
  }

  /** Both locations spell the same path. */
  predicate SamePath(o: Loc, n: Loc) {
    Join(o.abs, o.last) == Join(n.abs, n.last)
  }

  /** A rename that succeeds moves the one name to the other, unless they are the same. */
  ghost predicate RenameDone(sp: Space, ow: Result<Loc>, nw: Result<Loc>, e: Edit)
    requires ValidSeats(sp.seats)
  {
    && ow.Ok? && nw.Ok?
    && if e == NoEdit then SamePath(ow.value, nw.value) else Relocates(sp, ow.value, nw.value, e)
  }

  lemma RelocatesBoth(sp: Space, o: Loc, n: Loc, od: NodeId, nd: NodeId)
    requires ValidSeats(sp.seats) && Parents(sp, o, n) == Ok((od, nd))
    ensures Relocates(sp, o, n, Relocate(od, o.last, nd, n.last))
  {
  }

  /** The target of a rename exists and is a directory. */
  ghost predicate Seen(sp: Space, n: Loc)
    requires ValidSeats(sp.seats)
  {
    var v := NodeAt(sp, Components(Join(n.abs, n.last)));
    v.Ok? && IsDir(sp.objs, v.value)
  }

  /** The decision on two names once both are looked at. */
  function DecideNames(objs: Objects, ocand: string, ncand: string, x: NodeId, v: Result<NodeId>, noreplace: bool): Result<bool> {
    if ocand == ncand then Ok(false)
    else if IsDir(objs, x) && Inside(ocand, ncand) then Err(EINVAL)
    else if v.Ok? && noreplace then Err(EEXIST)
    else if v.Ok? && IsDir(objs, x) && !IsDir(objs, v.value) then Err(ENOTDIR)
    else if v.Ok? && !IsDir(objs, x) && IsDir(objs, v.value) then Err(EISDIR)
    else Ok(true)
  }

  lemma BothClosed(live0: map<Handle, NodeId>, h: Handle, a: NodeId, g: Handle, b: NodeId, live: map<Handle, NodeId>)
    requires h !in live0 && g !in live0[h := a] && live == live0[h := a][g := b] - {h} - {g}
    ensures live == live0
  {
  }

  /** `live` holds what `live0` did and the fresh handle `h`. */
  ghost predicate Opens(live0: map<Handle, NodeId>, live: map<Handle, NodeId>, h: Handle) {
    h != 0 && h !in live0 && h in live && live == live0[h := live[h]]
  }

  /** `live` holds what `live0` did and the two fresh handles. */
  ghost predicate OpensTwo(live0: map<Handle, NodeId>, live: map<Handle, NodeId>, h: Handle, g: Handle) {
    && h !in live0 && g !in live0 && h != g && h in live && g in live
    && live == live0[h := live[h]][g := live[g]]
  }

  lemma OpensTwice(live0: map<Handle, NodeId>, live1: map<Handle, NodeId>, h: Handle, live: map<Handle, NodeId>, g: Handle)
    requires Opens(live0, live1, h) && Opens(live1, live, g)
    ensures OpensTwo(live0, live, h, g) && live[h] == live1[h]
  {
  }

  lemma OneClosed(live0: map<Handle, NodeId>, live1: map<Handle, NodeId>, h: Handle, live: map<Handle, NodeId>)
    requires Opens(live0, live1, h) && live == live1 - {h}
    ensures live == live0
  {
  }

  lemma TwoClosed(live0: map<Handle, NodeId>, live1: map<Handle, NodeId>, h: Handle, g: Handle, live: map<Handle, NodeId>)
    requires OpensTwo(live0, live1, h, g)
    requires live == live1 - {h} - {g} || live == live1 - {g} - {h}
    ensures live == live0
  {
  }

  lemma Swapped(live0: map<Handle, NodeId>, d: Handle, a: NodeId, h: Handle, n: NodeId, live: map<Handle, NodeId>)
    requires d !in live0 && h !in live0[d := a] && h != 0 && live == (live0[d := a] - {d})[h := n]
    ensures Opens(live0, live, h)
  {
  }

  /** The description is the one an open was to come to. */
  ghost predicate Takes(a: Result<Aim>, d: Description, live: map<Handle, NodeId>) {
    && a.Ok? && a.value.Take? && a.value.path == d.path && a.value.kind == d.kind
    && (d.h != 0 ==> d.h in live && live[d.h] == a.value.n)
  }

  /** A round of O_CREAT came to what it was to come to. */
  ghost predicate RoundComes(a: Round, r: Result<Tried>, e: Edit, live: map<Handle, NodeId>) {
    && (a.Again? ==> r == Ok(Follow(a.target)))
    && (a.Answered? && a.r.Err? ==> r == Err(a.r.errno))
    && (a.Answered? && a.r.Ok? ==> r.Ok? && r.value.Got? && r.value.h in live)
    && (a.Answered? && a.r.Ok? && a.r.value.Take? ==> e == NoEdit && live[r.value.h] == a.r.value.n)
    && (a.Answered? && a.r.Ok? && a.r.value.Fresh? ==> e == Make(a.r.value.d, a.r.value.name, live[r.value.h], Plain(false)))
  }

  /** An open came to what it was to come to. */
  ghost predicate Comes(a: Result<Aim>, r: Result<Description>, e: Edit, live: map<Handle, NodeId>) {
    && (a.Err? ==> r == Err(a.errno) && e == NoEdit)
    && (a.Ok? ==> r.Ok? && a.value.path == r.value.path)
    && (a.Ok? && a.value.Take? ==> Takes(a, r.value, live) && e == NoEdit)
    && (a.Ok? && a.value.Fresh? ==> r.value.kind == HostFile && r.value.h in live
                                    && e == Make(a.value.d, a.value.name, live[r.value.h], Plain(false)))
  }

  /** The open was to make a file. */
  predicate ToMake(a: Result<Aim>) {
    a.Ok? && a.value.Fresh?
  }

  /** The edit is that file. */
  ghost predicate Founds(a: Result<Aim>, e: Edit) {
    && ToMake(a) && e.Make?
    && e.d == a.value.d && e.name == a.value.name && e.o == Plain(false)
  }

  lemma CameFounded(a: Result<Aim>, r: Result<Description>, e: Edit, live: map<Handle, NodeId>)
    requires Comes(a, r, e, live) && r.Ok?
    ensures if ToMake(a) then Founds(a, e) else e == NoEdit
  {
  }

  /** After an open: the one fresh handle of its description, if that has one. */
  ghost predicate OpensOr(live0: map<Handle, NodeId>, live: map<Handle, NodeId>, r: Result<Description>) {
    && (r.Ok? ==> InOrder(r.value))
    && (r.Ok? && r.value.h != 0 ==> Opens(live0, live, r.value.h))
    && (r.Err? || r.value.h == 0 ==> live == live0)
  }

  lemma OwnedOr(mounts: seq<Mount>, files: map<nat, Description>, live0: map<Handle, NodeId>, live: map<Handle, NodeId>,
                f: nat, d: Description)
    requires Owned(mounts, files, live0) && OpensOr(live0, live, Ok(d)) && f !in files
    ensures Owned(mounts, files[f := d], live)
  {
    hide Owned, InOrder;
    if d.h == 0 {
      OwnedSynth(mounts, files, live, f, d);
    } else {
      OwnedOpen(mounts, files, live0, f, d, live[d.h]);
    }
  }

  lemma FiledInOrder(files: map<nat, Description>, f: nat, d: Description)
    requires AllInOrder(files) && InOrder(d)
    ensures AllInOrder(files[f := d])
  {
  }

  lemma NotOpened(live0: map<Handle, NodeId>, live: map<Handle, NodeId>, r: Result<Description>)
    requires OpensOr(live0, live, r) && r.Err?
    ensures live == live0
  {
  }

  lemma CameToErr(a: Result<Aim>, r: Result<Description>, e: Edit, live: map<Handle, NodeId>)
    requires Comes(a, r, e, live) && r.Err?
    ensures a == Err(r.errno) && e == NoEdit
  {
  }

  lemma ComesErr(a: Result<Aim>, e: Errno, live: map<Handle, NodeId>)
    requires a == Err(e)
    ensures Comes(a, Err(e), NoEdit, live)
  {
  }

  lemma ComesTaken(a: Result<Aim>, r: Result<Description>, live: map<Handle, NodeId>)
    requires if r.Ok? then Takes(a, r.value, live) else a == Err(r.errno)
    ensures Comes(a, r, NoEdit, live)
  {
  }

  /** What O_CREAT opens or makes it records under the path it built. */
  lemma CreatesAt(sp: Space, mounts: seq<Mount>, loc: Loc, m: OpenMode)
    requires ValidSeats(sp.seats)
    ensures var a := CreateRound(sp, mounts, loc, m);
            a.Answered? && a.r.Ok? ==> a.r.value.path == CreatedPath(loc) && (a.r.value.Take? ==> a.r.value.kind == HostFile)
  {
    hide NodeAt, Components, CreatedPath, CreateAnswer;
  }

  lemma RoundRefused(sp: Space, mounts: seq<Mount>, loc: Loc, m: OpenMode, e: Errno, live: map<Handle, NodeId>)
    requires ValidSeats(sp.seats)
    requires if OnHost(mounts, loc) then DirFails(sp, loc.abs, e) else e == EACCES
    ensures RoundComes(CreateRound(sp, mounts, loc, m), Err(e), NoEdit, live)
  {
  }

  lemma RoundGot(sp: Space, mounts: seq<Mount>, loc: Loc, m: OpenMode, d: NodeId, t: Result<Tried>, made: bool, e: Edit,
                 live: map<Handle, NodeId>)
    requires ValidSeats(sp.seats) && OnHost(mounts, loc) && NodeAt(sp, Components(loc.abs)) == Ok(d) && IsDir(sp.objs, d)
    requires made || (t.Ok? && t.value.Got?) ==> t.Ok? && t.value.Got? && t.value.h in live
    requires e == if made then Make(d, loc.last, live[t.value.h], Plain(false)) else NoEdit
    requires Tries(CreateAnswer(sp.objs, d, loc.last, m.directory, m.excl), t, made, live)
    ensures RoundComes(CreateRound(sp, mounts, loc, m), t, e, live)
  {
    hide NodeAt, Components, CreateAnswer, CreatedPath;
  }

  lemma RoundFollows(a: Round, t: Result<Tried>, e: Edit, live: map<Handle, NodeId>)
    requires RoundComes(a, t, e, live) && t.Ok? && t.value.Follow?
    ensures a == Again(t.value.target)
  {
  }

  lemma RoundEnds(a: Round, t: Result<Tried>, e: Edit, live: map<Handle, NodeId>, r: Result<Description>)
    requires RoundComes(a, t, e, live) && !(t.Ok? && t.value.Follow?) && (t.Err? ==> e == NoEdit)
    requires t.Err? ==> r == Err(t.errno)
    requires t.Ok? ==> r.Ok? && r.value.kind == HostFile && r.value.h == t.value.h
    requires t.Ok? && a.Answered? && a.r.Ok? ==> a.r.value.path == r.value.path && (a.r.value.Take? ==> a.r.value.kind == HostFile)
    ensures a.Answered? && Comes(a.r, r, e, live)
  {
  }

  /** The kinds of description with a truncate operation. */
  predicate Truncates(k: FileKind) {
    k.HostFile? || k.LinkFile?
  }

  const FOR_WRITING := OpenMode(WriteOnly, false, false, false, false, false, false)

  /** `vfs_truncate`, once it is clear what there is to open. */
  function TruncateAnswer(aim: Result<Aim>): Result<()> {
    match aim
    case Err(e) => Err(e)
    case Ok(a) => if a.Take? && Truncates(a.kind) then Ok(()) else Err(EINVAL)
  }

  lemma PlainTakes(sp: Space, mounts: seq<Mount>, cwd: string, b: Origin, path: string, m: OpenMode, permits: Permits)
    requires ValidSeats(sp.seats) && |sp.seats| == |mounts| && GoodPath(cwd) && OriginFits(b) && !m.create
    ensures var a := OpenAim(sp, mounts, cwd, b, path, m, permits, 0); a.Ok? ==> a.value.Take?
  {
    WalkAimFits(sp, mounts, cwd, b, path, PLAIN_WALK.(nofollow := m.nofollow), m, permits);
    hide WalkAim, AimFits;
  }

  lemma NotTruncated(aim: Result<Aim>, e: Errno)
    requires aim == Err(e)
    ensures TruncateAnswer(aim) == Err(e)
  {
  }

  lemma TruncatesKind(aim: Result<Aim>, d: Description, e: Edit, live: map<Handle, NodeId>)
    requires Comes(aim, Ok(d), e, live) && (aim.Ok? ==> aim.value.Take?)
    ensures TruncateAnswer(aim) == if Truncates(d.kind) then Ok(()) else Err(EINVAL)
  {
  }

  predicate Special(objs: Objects, n: NodeId) {
    IsReparse(objs, n) && !IsLink(objs, n)
  }

  /** Asked for as what it is, an object opens; a special file hands back itself. */
  lemma OpensPlainly(objs: Objects, n: NodeId)
    ensures OpenExisting(objs, n, PLAIN.(dir := IsDir(objs, n), reparse := IsLink(objs, n))) == Ok(Special(objs, n))
  {
  }

  lemma SpaceIsTree(sp: Space)
    requires IsSpace(sp)
    ensures IsTree(sp.objs)
  {
  }

  /** A rename the checks let through: both names are free of mounts, on one host
      mount, and a directory does not go inside itself. */
  ghost predicate RenameClear(sp: Space, mounts: seq<Mount>, o: Loc, n: Loc)
    requires ValidSeats(sp.seats)
  {
    var ocand, ncand := Join(o.abs, o.last), Join(n.abs, n.last);
    && LocFits(sp.seats, o, true) && LocFits(sp.seats, n, true)
    && OnHost(mounts, o) && OnHost(mounts, n) && o.mount == n.mount
    && !Seated(sp.seats, Components(ocand)) && !Seated(sp.seats, Components(ncand))
    && ocand != ncand
    && var x := NodeAt(sp, Components(ocand)); x.Ok? && (IsDir(sp.objs, x.value) ==> !Inside(ocand, ncand))
  }

  /** A cleared rename is one that a tree survives. */
  lemma ClearKeepsTree(sp: Space, mounts: seq<Mount>, o: Loc, n: Loc, od: NodeId, nd: NodeId)
    requires IsSpace(sp) && RenameClear(sp, mounts, o, n)
    requires Parents(sp, o, n) == Ok((od, nd))
    requires Accepts(sp.objs, Relocate(od, o.last, nd, n.last))
    ensures !IntoItself(sp.objs, Relocate(od, o.last, nd, n.last))
  {
    var ocs, ncs := Components(o.abs), Components(n.abs);
    JoinAppends(o.abs, o.last);
    BestUnique(sp.seats, ocs, o.mount);
    BestUnique(sp.seats, ncs, n.mount);
    assert forall k :: 0 <= k < |sp.seats| ==> Point(sp.seats, k) != ocs + [o.last];
    ChildLookup(sp, ocs, o.last);
    hide IsSpace, Join, Components, Inside, Canonical, IsBest, Beneath, Movable;
    RenameSafe(sp, o.abs, o.last, n.abs, n.last, Place(o.mount, od), Place(n.mount, nd));
  }

  class Vfs {
    const fs: FileSystem
    var seated: bool
    var files: map<nat, Description>
    var nextFile: nat

    /** vfs_init: the root tree, /proc and /dev; nothing is open but the root. */
    constructor (fs: FileSystem, root: NodeId, proc: NodeId, dev: NodeId)
      requires fs.host.Valid() && fs.host.live == map[]
      modifies fs, fs.host
      ensures this.fs == fs && files == map[]
      ensures seated ==> Valid()
      ensures !seated ==> fs.host.live == map[]
    {
      this.fs := fs;
      files, nextFile := map[], 0;
      new;
      seated := fs.Init(root, proc, dev);
      if seated {
        assert Roots(fs.mounts) == {fs.mounts[0].root};
        assert Handles(files) == {};
        RootText();
      }
    }

    ghost predicate Valid()
      reads this, fs, fs.host
    {
      && fs.Mounted() && GoodPath(fs.cwd)
      && (forall f :: f in files ==> f < nextFile)
      && Owned(fs.mounts, files, fs.host.live)
      && AllInOrder(files)
    }

    /** An operation that leaves the open handles and descriptions as they were. */
    twostate predicate Kept()
      reads this, fs, fs.host
    {
      && files == old(files) && nextFile == old(nextFile)
      && fs.mounts == old(fs.mounts)
      && fs.host.live == old(fs.host.live)
      && (old(fs.host.Quiet()) ==> fs.host.Quiet())
    }

    lemma Seating()
      requires Valid()
      ensures fs.Mounted() && GoodPath(fs.cwd) && AllInOrder(files) && nextFile !in files
      ensures ValidSeats(fs.TheSpace().seats) && |fs.TheSpace().seats| == |fs.mounts|
    {
    }

    /** Host work that leaves the open handles as they were leaves everything in order. */
    twostate lemma StillValid()
      requires old(Valid()) && unchanged(this) && unchanged(fs)
      requires fs.host.Valid() && fs.host.live == old(fs.host.live)
      ensures Valid()
    {
      fs.StillMounted();
    }

    // ---- the parent-based operations ----

    /** `host_parent`: the parent directory of a path, opened on its host mount. */
    method HostParent(b: Origin, path: string) returns (r: Result<(Loc, Handle)>)
      requires fs.Mounted() && GoodPath(fs.cwd) && OriginFits(b)
      modifies fs.host
      ensures fs.Mounted() && fs.host.objs == old(fs.host.objs) && fs.TheSpace() == old(fs.TheSpace())
      ensures old(fs.host.Quiet()) ==> fs.host.Quiet()
      ensures r.Err? ==> fs.host.live == old(fs.host.live)
      ensures r.Ok? ==>
                var (loc, d) := r.value;
                && d != 0 && d !in old(fs.host.live) && d in fs.host.live
                && fs.host.live == old(fs.host.live)[d := fs.host.live[d]]
                && LocFits(fs.Seats(), loc, true) && OnHost(fs.mounts, loc) && IsName(loc.last)
                && NodeAt(fs.TheSpace(), Components(loc.abs)) == Ok(fs.host.live[d])
                && IsDir(fs.host.objs, fs.host.live[d])
      ensures r != Err(Unspecified)
      ensures r.Ok? || old(fs.host.Quiet()) ==>
                var c := ParentCheck(fs.mounts, old(fs.WalkAnswer(b, path, PARENT)));
                match r
                case Ok(v) => c == Ok(v.0)
                case Err(e) => c == Err(e) || (c.Ok? && DirFails(fs.TheSpace(), c.value.abs, e))
    {
      hide NodeAt, Canonical, Components, WalkText;
      var loc := fs.Walk(b, path, PARENT);
      if loc.Err? { return Err(loc.errno); }
      if !fs.mounts[loc.value.mount].HostMount? { return Err(EACCES); }
      var d := OpenLoc(loc.value);
      if d.Err? { return Err(d.errno); }
      return Ok((loc.value, d.value));
    }

    /** `open_host_dir` on the directory a walk found. */
    method OpenLoc(loc: Loc) returns (r: Result<Handle>)
      requires fs.Mounted() && LocFits(fs.Seats(), loc, true) && fs.mounts[loc.mount].HostMount?
      modifies fs.host
      ensures fs.Mounted() && fs.host.objs == old(fs.host.objs) && fs.TheSpace() == old(fs.TheSpace())
      ensures old(fs.host.Quiet()) ==> fs.host.Quiet()
      ensures r.Err? ==> fs.host.live == old(fs.host.live) && Refused(r)
      ensures r.Ok? ==>
                && r.value != 0 && r.value !in old(fs.host.live) && r.value in fs.host.live
                && fs.host.live == old(fs.host.live)[r.value := fs.host.live[r.value]]
                && NodeAt(fs.TheSpace(), Components(loc.abs)) == Ok(fs.host.live[r.value])
                && IsDir(fs.host.objs, fs.host.live[r.value])
      ensures old(fs.host.Quiet()) && r.Err? ==>
                DirFails(fs.TheSpace(), loc.abs, r.errno)
    {
      ghost var sp, cs, k := fs.TheSpace(), Components(loc.abs), loc.mount;
      BestMeansNoSeat(sp.seats, cs, k);
      NodeUnder(sp, cs, k);
      HostDirDescends(sp.objs, sp.seats[k].root, cs[|Point(sp.seats, k)|..]);
      hide NodeAt, HostDir, Descend, NoSeat, Canonical, Components;
      r := fs.OpenHostDir(loc.mount, loc.abs);
    }

    // ---- opening ----

    /** Open an existing host object whose parent is to be opened first. */
    method OpenBelow(loc: Loc, f: OpenFlags) returns (r: Result<Opened>)
      requires fs.Mounted() && LocFits(fs.Seats(), loc, false) && OnHost(fs.mounts, loc)
      requires Point(fs.Seats(), loc.mount) != Components(loc.abs) && !f.create && !(f.dir && f.nodir)
      modifies fs.host
      ensures fs.Mounted() && fs.host.Valid() && fs.host.objs == old(fs.host.objs) && fs.TheSpace() == old(fs.TheSpace())
      ensures old(fs.host.Quiet()) ==> fs.host.Quiet()
      ensures r.Err? ==> fs.host.live == old(fs.host.live)
      ensures r.Ok? ==>
                && Opens(old(fs.host.live), fs.host.live, r.value.h)
                && NodeAt(fs.TheSpace(), Components(loc.abs)) == Ok(fs.host.live[r.value.h])
                && OpenExisting(fs.host.objs, fs.host.live[r.value.h], f) == Ok(r.value.reparse)
      ensures old(fs.host.Quiet()) && r.Err? ==>
                var n := NodeAt(fs.TheSpace(), Components(loc.abs));
                n == Err(r.errno) || (n.Ok? && OpenExisting(fs.host.objs, n.value, f) == Err(r.errno))
    {
      hide NodeAt, Canonical, Components, OpenExisting, ValidSeats;
      ghost var live0 := fs.host.live;
      var d := fs.OpenParent(loc.mount, loc.abs);
      if d.Err? { return Err(d.errno); }
      ghost var a := fs.host.live[d.value];
      r := fs.host.OpenThenClose(d.value, Base(loc.abs), f);
      if r.Ok? {
        Swapped(live0, d.value, a, r.value.h, fs.host.live[r.value.h], fs.host.live);
        SeatsKept(fs.mounts, live0, r.value.h, fs.host.live[r.value.h]);
      } else {
        Reopened(live0, d.value, a, fs.host.live);
      }
    }

    /** The object behind a location: a second handle on a mount's root, or an open under its parent. */
    method OpenObject(loc: Loc, dir: bool, link: bool) returns (r: Result<Opened>)
      requires fs.Mounted() && LocFits(fs.Seats(), loc, false) && OnHost(fs.mounts, loc)
      requires NodeAt(fs.TheSpace(), Components(loc.abs)).Ok?
      requires var n := NodeAt(fs.TheSpace(), Components(loc.abs)).value; dir == IsDir(fs.host.objs, n) && link == IsLink(fs.host.objs, n)
      modifies fs.host
      ensures fs.Mounted() && fs.host.Valid() && fs.host.objs == old(fs.host.objs) && fs.TheSpace() == old(fs.TheSpace())
      ensures old(fs.host.Quiet()) ==> fs.host.Quiet() && r.Ok?
      ensures r.Err? ==> fs.host.live == old(fs.host.live)
      ensures r.Ok? ==>
                && Opens(old(fs.host.live), fs.host.live, r.value.h)
                && NodeAt(fs.TheSpace(), Components(loc.abs)) == Ok(fs.host.live[r.value.h])
                && r.value.reparse == (Point(fs.Seats(), loc.mount) != Components(loc.abs) && Special(fs.host.objs, fs.host.live[r.value.h]))
    {
      RelOfCanonical(fs.mounts[loc.mount].point, loc.abs);
      NodeUnder(fs.TheSpace(), Components(loc.abs), loc.mount);
      ghost var sp, live0 := fs.TheSpace(), fs.host.live;
      ghost var n := NodeAt(sp, Components(loc.abs)).value;
      OpensPlainly(fs.host.objs, n);
      hide NodeAt, Canonical, Components, OpenExisting, ValidSeats, IsBest, Rel, Special;
      if Rel(fs.mounts[loc.mount].point, loc.abs) == "" {
        ghost var none := Components(loc.abs)[|Point(sp.seats, loc.mount)|..];
        DescendNowhere(sp.objs, sp.seats[loc.mount].root, none);
        var g := fs.host.Reopen(fs.mounts[loc.mount].root, dir);
        if g.Err? { return Err(g.errno); }
        SeatsKept(fs.mounts, live0, g.value, n);
        return Ok(Opened(g.value, false));
      }
      r := OpenBelow(loc, PLAIN.(dir := dir, reparse := link));
    }

    /** The existing half of `vfs_open` on a host mount. */
    method TakeHost(loc: Loc, m: OpenMode, permits: Permits) returns (r: Result<Description>)
      requires fs.Mounted() && LocFits(fs.Seats(), loc, false) && OnHost(fs.mounts, loc)
      modifies fs.host
      ensures fs.Mounted() && fs.host.Valid() && fs.host.objs == old(fs.host.objs) && fs.TheSpace() == old(fs.TheSpace())
      ensures old(fs.host.Quiet()) ==> fs.host.Quiet()
      ensures r.Err? ==> fs.host.live == old(fs.host.live)
      ensures r.Ok? ==>
                && Opens(old(fs.host.live), fs.host.live, r.value.h) && r.value.path == loc.abs && OfHost(r.value.kind)
                && ExistingAim(fs.TheSpace(), fs.mounts, loc, m, permits) == Ok(Take(loc.abs, fs.host.live[r.value.h], r.value.kind))
      ensures r.Err? && old(fs.host.Quiet()) ==> ExistingAim(fs.TheSpace(), fs.mounts, loc, m, permits) == Err(r.errno)
    {
      hide NodeAt, Canonical, Components, ValidSeats, IsBest;
      ghost var live0 := fs.host.live;
      var st := fs.StatAbs(loc.abs);
      if st.Err? { return Err(st.errno); }
      var n := st.value;
      var c := HostCheck(fs.host.objs, n, m, permits);
      if c.Err? { return Err(c.errno); }
      var o := OpenObject(loc, IsDir(fs.host.objs, n), IsLink(fs.host.objs, n));
      if o.Err? { return Err(o.errno); }
      var h := o.value.h;
      var special := Special(fs.host.objs, fs.host.live[h]);
      if o.value.reparse || (special && !m.opath) {
        fs.host.Close(h);
        Reopened(live0, h, n, fs.host.live);
        return Err(if o.value.reparse then ELOOP else ENXIO);
      }
      return Ok(Description(h, KindOf(fs.host.objs, fs.host.live[h]), loc.abs));
    }

    /** The existing half of `vfs_open`. */
    method TakeExisting(loc: Loc, m: OpenMode, permits: Permits) returns (r: Result<Description>)
      requires fs.Mounted() && LocFits(fs.Seats(), loc, false) && loc.mount < |fs.mounts|
      modifies fs.host
      ensures fs.Mounted() && fs.host.Valid() && fs.host.objs == old(fs.host.objs) && fs.TheSpace() == old(fs.TheSpace())
      ensures old(fs.host.Quiet()) ==> fs.host.Quiet()
      ensures OpensOr(old(fs.host.live), fs.host.live, r)
      ensures r.Ok? ==> Takes(ExistingAim(fs.TheSpace(), fs.mounts, loc, m, permits), r.value, fs.host.live)
      ensures r.Err? && old(fs.host.Quiet()) ==> ExistingAim(fs.TheSpace(), fs.mounts, loc, m, permits) == Err(r.errno)
    {
      hide NodeAt, Canonical, Components, ValidSeats, HostOpen;
      if fs.mounts[loc.mount].HostMount? {
        r := TakeHost(loc, m, permits);
        return;
      }
      var st := fs.StatAbs(loc.abs);
      if st.Err? { return Err(st.errno); }
      var k := SynthOpen(fs.host.objs, st.value, fs.mounts[loc.mount].dev, m);
      if k.Err? { return Err(k.errno); }
      return Ok(Description(0, k.value, loc.abs));
    }

    /** Walk to an existing object and open it. */
    method TakePath(b: Origin, path: string, flags: WalkFlags, m: OpenMode, permits: Permits) returns (r: Result<Description>)
      requires fs.Mounted() && GoodPath(fs.cwd) && OriginFits(b) && !flags.parent
      modifies fs.host
      ensures fs.Mounted() && fs.host.Valid() && fs.host.objs == old(fs.host.objs) && fs.Seats() == old(fs.Seats())
      ensures old(fs.host.Quiet()) ==> fs.host.Quiet()
      ensures OpensOr(old(fs.host.live), fs.host.live, r)
      ensures r.Ok? || old(fs.host.Quiet()) ==>
                Comes(WalkAim(old(fs.TheSpace()), fs.mounts, fs.cwd, b, path, flags, m, permits), r, NoEdit, fs.host.live)
    {
      hide PathAnswer, NodeAt, Canonical, Components, ValidSeats, ExistingAim, Comes;
      ghost var sp := fs.TheSpace();
      WalkAimFits(sp, fs.mounts, fs.cwd, b, path, flags, m, permits);
      ghost var aim := WalkAim(sp, fs.mounts, fs.cwd, b, path, flags, m, permits);
      var w := fs.Walk(b, path, flags);
      if w.Err? {
        r := Err(w.errno);
      } else {
        r := TakeExisting(w.value, m, permits);
      }
      if r.Ok? || old(fs.host.Quiet()) { ComesTaken(aim, r, fs.host.live); }
    }

    /** One round of O_CREAT under the parent a walk found. */
    method CreateIn(loc: Loc, m: OpenMode) returns (r: Result<Tried>, ghost e: Edit)
      requires fs.Mounted() && LocFits(fs.Seats(), loc, true) && loc.mount < |fs.mounts|
      modifies fs.host
      ensures fs.Mounted() && fs.host.Valid() && fs.Seats() == old(fs.Seats())
      ensures e.NoEdit? || e.Make?
      ensures Accepts(old(fs.host.objs), e) && fs.host.objs == Apply(old(fs.host.objs), e)
      ensures old(fs.host.Quiet()) ==> fs.host.Quiet()
      ensures r.Ok? && r.value.Got? ==> Opens(old(fs.host.live), fs.host.live, r.value.h)
      ensures !(r.Ok? && r.value.Got?) ==> fs.host.live == old(fs.host.live) && e == NoEdit
      ensures r.Ok? || old(fs.host.Quiet()) ==>
                RoundComes(CreateRound(old(fs.TheSpace()), fs.mounts, loc, m), r, e, fs.host.live)
    {
      assert IsName(loc.last);
      AcceptsNothing(fs.host.objs);
      hide NodeAt, Canonical, Components, LocFits, ValidSeats, IsName, CreateAnswer, Accepts, Apply, CreateRound, RoundComes, DirFails;
      e := NoEdit;
      ghost var live0, sp, quiet := fs.host.live, fs.TheSpace(), fs.host.Quiet();
      if !fs.mounts[loc.mount].HostMount? {
        RoundRefused(sp, fs.mounts, loc, m, EACCES, fs.host.live);
        return Err(EACCES), e;
      }
      var d := OpenLoc(loc);
      if d.Err? {
        if quiet { RoundRefused(sp, fs.mounts, loc, m, d.errno, fs.host.live); }
        return Err(d.errno), e;
      }
      r, e := CreateUnder(loc, m, d.value, live0);
    }

    /** The same with the parent open, which is let go. */
    method CreateUnder(loc: Loc, m: OpenMode, d: Handle, ghost live0: map<Handle, NodeId>) returns (r: Result<Tried>, ghost e: Edit)
      requires fs.Mounted() && LocFits(fs.Seats(), loc, true) && OnHost(fs.mounts, loc)
      requires Opens(live0, fs.host.live, d) && RootsOpen(fs.mounts, live0) && SeatsOf(fs.mounts, live0) == fs.Seats()
      requires NodeAt(fs.TheSpace(), Components(loc.abs)) == Ok(fs.host.live[d]) && IsDir(fs.host.objs, fs.host.live[d])
      modifies fs.host
      ensures fs.Mounted() && fs.host.Valid() && fs.Seats() == old(fs.Seats())
      ensures e.NoEdit? || e.Make?
      ensures Accepts(old(fs.host.objs), e) && fs.host.objs == Apply(old(fs.host.objs), e)
      ensures old(fs.host.Quiet()) ==> fs.host.Quiet()
      ensures r.Ok? && r.value.Got? ==> Opens(live0, fs.host.live, r.value.h)
      ensures !(r.Ok? && r.value.Got?) ==> fs.host.live == live0 && e == NoEdit
      ensures r.Ok? || old(fs.host.Quiet()) ==>
                RoundComes(CreateRound(old(fs.TheSpace()), fs.mounts, loc, m), r, e, fs.host.live)
    {
      ghost var live1, a, sp := fs.host.live, fs.host.live[d], fs.TheSpace();
      assert IsName(loc.last) && d in live1 && d !in live0 && live1 == live0[d := a];
      AcceptsNothing(fs.host.objs);
      hide NodeAt, Canonical, Components, LocFits, ValidSeats, IsName, CreateAnswer, Accepts, Apply, CreateRound, RoundComes, Opens, Tries;
      hide FileSystem.Mounted, SeatsOf, RootsOpen, IsDir;
      e := NoEdit;
      ghost var made;
      r, made := fs.host.CreateThenClose(d, loc.last, m.directory, m.excl);
      if r.Ok? && r.value.Got? {
        ghost var n := fs.host.live[r.value.h];
        Swapped(live0, d, a, r.value.h, n, fs.host.live);
        SeatsKept(fs.mounts, live0, r.value.h, n);
        if made { e := Make(a, loc.last, n, Plain(false)); }
      } else {
        Reopened(live0, d, a, fs.host.live);
        fs.MountedAgain(live0);
      }
      if r.Ok? || old(fs.host.Quiet()) { RoundGot(sp, fs.mounts, loc, m, a, r, made, e, fs.host.live); }
    }

    /** `vfs_open_depth`, up to the description. */
    method OpenHandle(b: Origin, path: string, m: OpenMode, permits: Permits, depth: nat)
      returns (r: Result<Description>, ghost e: Edit)
      requires fs.Mounted() && GoodPath(fs.cwd) && OriginFits(b)
      modifies fs.host
      ensures fs.Mounted() && fs.host.Valid() && fs.Seats() == old(fs.Seats())
      ensures e.NoEdit? || e.Make?
      ensures Accepts(old(fs.host.objs), e) && fs.host.objs == Apply(old(fs.host.objs), e)
      ensures old(fs.host.Quiet()) ==> fs.host.Quiet()
      ensures r.Err? || !m.create ==> e == NoEdit
      ensures OpensOr(old(fs.host.live), fs.host.live, r)
      ensures r.Ok? || old(fs.host.Quiet()) ==>
                Comes(OpenAim(old(fs.TheSpace()), fs.mounts, fs.cwd, b, path, m, permits, depth), r, e, fs.host.live)
      decreases MAX_DEPTH + 1 - depth, 1
    {
      assert Accepts(fs.host.objs, NoEdit) && Apply(fs.host.objs, NoEdit) == fs.host.objs;
      hide PathAnswer, NodeAt, Canonical, Components, ValidSeats, WalkAim, MakingAim, Accepts, Apply, Comes;
      e := NoEdit;
      ghost var sp := fs.TheSpace();
      if depth > MAX_DEPTH {
        r := Err(ELOOP);
      } else if !m.create {
        r := TakePath(b, path, PLAIN_WALK.(nofollow := m.nofollow), m, permits);
        return;
      } else {
        var w := fs.Walk(b, path, PARENT);
        if w.Ok? {
          r, e := CreateAt(w.value, m, permits, depth);
          return;
        }
        if w.errno == EEXIST {
          r := TakePath(b, path, PLAIN_WALK, m, permits);
          return;
        }
        r := Err(w.errno);
      }
      if old(fs.host.Quiet()) { ComesErr(OpenAim(sp, fs.mounts, fs.cwd, b, path, m, permits, depth), r.errno, fs.host.live); }
    }

    /** O_CREAT under the parent a walk found: a round, and another open if it met a link. */
    method CreateAt(loc: Loc, m: OpenMode, permits: Permits, depth: nat)
      returns (r: Result<Description>, ghost e: Edit)
      requires fs.Mounted() && GoodPath(fs.cwd) && LocFits(fs.Seats(), loc, true) && depth <= MAX_DEPTH && m.create
      modifies fs.host
      ensures fs.Mounted() && fs.host.Valid() && fs.Seats() == old(fs.Seats())
      ensures e.NoEdit? || e.Make?
      ensures Accepts(old(fs.host.objs), e) && fs.host.objs == Apply(old(fs.host.objs), e)
      ensures old(fs.host.Quiet()) ==> fs.host.Quiet()
      ensures r.Err? ==> e == NoEdit
      ensures OpensOr(old(fs.host.live), fs.host.live, r)
      ensures r.Ok? || old(fs.host.Quiet()) ==>
                Comes(MakingAim(old(fs.TheSpace()), fs.mounts, fs.cwd, loc, m, permits, depth), r, e, fs.host.live)
      decreases MAX_DEPTH + 1 - depth, 0
    {
      AcceptsNothing(fs.host.objs);
      assert IsName(loc.last);
      CreatedGood(loc);
      hide CreatedPath, LocFits, FileSystem.Mounted, SeatsOf, PathAnswer, NodeAt, Canonical, Components, ValidSeats;
      hide OpenAim, CreateRound, Accepts, Apply, Comes, RoundComes;
      ghost var sp := fs.TheSpace();
      ghost var round := CreateRound(sp, fs.mounts, loc, m);
      var t;
      t, e := CreateIn(loc, m);
      if t.Ok? && t.value.Follow? {
        RoundFollows(round, t, e, fs.host.live);
        r, e := OpenHandle(Dir(loc.abs), t.value.target, m, permits, depth + 1);
        return;
      }
      r := if t.Err? then Err(t.errno) else Ok(Description(t.value.h, HostFile, CreatedPath(loc)));
      if r.Ok? || old(fs.host.Quiet()) {
        CreatesAt(sp, fs.mounts, loc, m);
        RoundEnds(round, t, e, fs.host.live, r);
      }
    }

    /** `vfs_open`: a new description, or nothing changed but the file made. */
    method Open(b: Origin, path: string, m: OpenMode, permits: Permits) returns (r: Result<nat>, ghost e: Edit)
      requires Valid() && OriginFits(b)
      modifies this`files, this`nextFile, fs.host
      ensures Valid() && fs.mounts == old(fs.mounts) && fs.Seats() == old(fs.Seats())
      ensures e.NoEdit? || e.Make?
      ensures Accepts(old(fs.host.objs), e) && fs.host.objs == Apply(old(fs.host.objs), e)
      ensures old(fs.host.Quiet()) ==> fs.host.Quiet()
      ensures !m.create ==> e == NoEdit
      ensures e == NoEdit || Founds(OpenAim(old(fs.TheSpace()), fs.mounts, fs.cwd, b, path, m, permits, 0), e)
      ensures (r.Ok? || old(fs.host.Quiet())) && e == NoEdit ==>
                !ToMake(OpenAim(old(fs.TheSpace()), fs.mounts, fs.cwd, b, path, m, permits, 0))
      ensures r.Err? ==> files == old(files) && nextFile == old(nextFile) && fs.host.live == old(fs.host.live)
      ensures r.Ok? ==>
                && r.value == old(nextFile) && r.value in files && files == old(files)[r.value := files[r.value]]
                && OpensOr(old(fs.host.live), fs.host.live, Ok(files[r.value]))
                && Comes(OpenAim(old(fs.TheSpace()), fs.mounts, fs.cwd, b, path, m, permits, 0), Ok(files[r.value]), e, fs.host.live)
      ensures r.Err? && old(fs.host.Quiet()) ==>
                OpenAim(old(fs.TheSpace()), fs.mounts, fs.cwd, b, path, m, permits, 0) == Err(r.errno) && e == NoEdit
    {
      hide OpenAim, ValidSeats, Canonical, Accepts, Apply, Owned, InOrder, Comes, OpensOr, Founds;
      ghost var live0 := fs.host.live;
      var d;
      d, e := OpenHandle(b, path, m, permits, 0);
      if d.Err? {
        if old(fs.host.Quiet()) { CameToErr(OpenAim(old(fs.TheSpace()), fs.mounts, fs.cwd, b, path, m, permits, 0), d, e, fs.host.live); }
        NotOpened(live0, fs.host.live, d);
        return Err(d.errno), e;
      }
      CameFounded(OpenAim(old(fs.TheSpace()), fs.mounts, fs.cwd, b, path, m, permits, 0), d, e, fs.host.live);
      r := Describe(d.value, live0);
    }

    /** `file_new`: the description filed, or, for want of memory, its handle closed again. */
    method Describe(d: Description, ghost live0: map<Handle, NodeId>) returns (r: Result<nat>)
      requires fs.Mounted() && GoodPath(fs.cwd) && (forall f :: f in files ==> f < nextFile) && AllInOrder(files)
      requires RootsOpen(fs.mounts, live0) && SeatsOf(fs.mounts, live0) == fs.Seats()
      requires Owned(fs.mounts, files, live0) && OpensOr(live0, fs.host.live, Ok(d))
      modifies this`files, this`nextFile, fs.host
      ensures Valid() && fs.Seats() == old(fs.Seats()) && fs.host.objs == old(fs.host.objs)
      ensures old(fs.host.Quiet()) ==> fs.host.Quiet() && r.Ok?
      ensures r.Err? ==> files == old(files) && nextFile == old(nextFile) && fs.host.live == live0
      ensures r.Ok? ==>
                && r.value == old(nextFile) && r.value in files && files == old(files)[r.value := d]
                && fs.host.live == old(fs.host.live)
    {
      hide ValidSeats, Canonical, Owned, AllInOrder, InOrder, OpensOr, SeatsOf, RootsOpen;
      var a := fs.host.Ask();
      if a.Refuses? {
        LetGo(d, live0);
        r := Err(ENOMEM);
      } else {
        r := FileAway(d, live0);
      }
    }

    /** The handle of a description there is no memory for. */
    method LetGo(d: Description, ghost live0: map<Handle, NodeId>)
      requires fs.Mounted() && OpensOr(live0, fs.host.live, Ok(d))
      requires RootsOpen(fs.mounts, live0) && SeatsOf(fs.mounts, live0) == fs.Seats()
      modifies fs.host`live
      ensures fs.Mounted() && fs.Seats() == old(fs.Seats()) && fs.host.live == live0
    {
      if d.h != 0 {
        ghost var n := fs.host.live[d.h];
        fs.host.Close(d.h);
        Reopened(live0, d.h, n, fs.host.live);
      }
    }

    method FileAway(d: Description, ghost live0: map<Handle, NodeId>) returns (r: Result<nat>)
      requires fs.Mounted() && GoodPath(fs.cwd) && (forall f :: f in files ==> f < nextFile) && AllInOrder(files)
      requires Owned(fs.mounts, files, live0) && OpensOr(live0, fs.host.live, Ok(d))
      modifies this`files, this`nextFile
      ensures Valid() && r == Ok(old(nextFile)) && files == old(files)[r.value := d]
    {
      assert nextFile !in files;
      FiledInOrder(files, nextFile, d);
      OwnedOr(fs.mounts, files, live0, fs.host.live, nextFile, d);
      hide ValidSeats, Canonical, Owned, AllInOrder, InOrder, FileSystem.Mounted, OpensOr;
      files := files[nextFile := d];
      nextFile := nextFile + 1;
      return Ok(nextFile - 1);
    }

    /** The last reference to a description goes: its host handle is closed, once. */
    method CloseFile(f: nat)
      requires Valid() && f in files
      modifies this`files, fs.host
      ensures Valid() && fs.mounts == old(fs.mounts) && fs.host.objs == old(fs.host.objs) && fs.Seats() == old(fs.Seats())
      ensures files == old(files) - {f} && fs.host.live == old(fs.host.live) - {old(files)[f].h}
      ensures old(fs.host.Quiet()) ==> fs.host.Quiet()
    {
      hide ValidSeats, Canonical, Roots, Handles;
      OwnedClose(fs.mounts, files, fs.host.live, f);
      var h := files[f].h;
      RootsKept(fs.mounts, files, fs.host.live, f);
      if h != 0 { fs.host.Close(h); }
      files := files - {f};
    }

    /** symlink, mkdir and mknod: a new object in the parent directory. */
    method MakeNew(b: Origin, path: string, what: NewObject) returns (r: Result<()>, ghost e: Edit)
      requires Valid() && OriginFits(b)
      modifies fs.host
      ensures Valid() && Kept()
      ensures Accepts(old(fs.host.objs), e) && fs.host.objs == Apply(old(fs.host.objs), e)
      ensures r.Err? ==> e == NoEdit
      ensures r.Ok? ==> Makes(old(fs.TheSpace()), old(fs.WalkAnswer(b, path, PARENT)), what, e)
      ensures r.Ok? || old(fs.host.Quiet()) ==>
                r == MakeAnswer(old(fs.TheSpace()), fs.mounts, old(fs.WalkAnswer(b, path, PARENT)), what)
    {
      hide NodeAt, Canonical, Components, IsBest, WalkText, Owned, AllInOrder, LocFits;
      e := NoEdit;
      if what == NewLink("") { return Err(ENOENT), e; }
      var pd := HostParent(b, path);
      if pd.Err? { return Err(pd.errno), e; }
      var (loc, d) := pd.value;
      ghost var n := fs.host.live[d];
      if what.NewLink? && |what.target| >= PATH_MAX {
        fs.host.Close(d);
        Reopened(old(fs.host.live), d, n, fs.host.live);
        return Err(ENAMETOOLONG), e;
      }
      var made := fs.host.MakeAt(d, loc.last, ObjectOf(what, fs.host.live[d]));
      fs.host.Close(d);
      Reopened(old(fs.host.live), d, n, fs.host.live);
      fs.StillMounted();
      if made.Err? { return Err(made.errno), e; }
      e := Make(n, loc.last, made.value, ObjectOf(what, n));
      return Ok(()), e;
    }

    /** The file `vfs_link` is to give a further name. */
    method CheckLink(b: Origin, path: string, follow: bool) returns (r: Result<Loc>)
      requires Valid() && OriginFits(b)
      modifies fs.host
      ensures Valid() && Kept() && fs.host.objs == old(fs.host.objs) && fs.TheSpace() == old(fs.TheSpace())
      ensures r.Ok? ==>
                && LocFits(fs.Seats(), r.value, false) && OnHost(fs.mounts, r.value)
                && Point(fs.Seats(), r.value.mount) != Components(r.value.abs)
      ensures var w := old(fs.WalkAnswer(b, path, PLAIN_WALK.(nofollow := !follow)));
              var s := LinkSource(old(fs.TheSpace()), fs.mounts, w);
              && (r.Ok? ==> s.Ok? && NodeAt(fs.TheSpace(), Components(r.value.abs)) == s)
              && (r == Err(Unspecified) ==> s == Err(Unspecified))
              && (r.Ok? || old(fs.host.Quiet()) ==> if r.Ok? then w == r else s == Err(r.errno))
    {
      hide NodeAt, Canonical, Components, PathAnswer, Rel, Owned, AllInOrder;
      var w := fs.Walk(b, path, PLAIN_WALK.(nofollow := !follow));
      if w.Err? { return Err(w.errno); }
      var loc := w.value;
      if !fs.mounts[loc.mount].HostMount? { return Err(EPERM); }
      var st := fs.StatAbs(loc.abs);
      if st.Err? { return Err(st.errno); }
      if IsDir(fs.host.objs, st.value) { return Err(EPERM); }
      RelOfCanonical(fs.mounts[loc.mount].point, loc.abs);
      if Rel(fs.mounts[loc.mount].point, loc.abs) == "" { return Err(Unspecified); }
      return Ok(loc);
    }

    /** `vfs_link`: a further name for a file. */
    method Link(ob: Origin, oldpath: string, nb: Origin, newpath: string, follow: bool) returns (r: Result<()>, ghost e: Edit)
      requires Valid() && OriginFits(ob) && OriginFits(nb)
      modifies fs.host
      ensures r != Err(Unspecified) ==>
                && Valid() && Kept()
                && Accepts(old(fs.host.objs), e) && fs.host.objs == Apply(old(fs.host.objs), e)
                && (if r.Ok? then e.Tie? else e == NoEdit)
      ensures r == Err(Unspecified) ==>
                LinkAnswer(old(fs.TheSpace()), fs.mounts, old(fs.WalkAnswer(ob, oldpath, PLAIN_WALK.(nofollow := !follow))),
                           old(fs.WalkAnswer(nb, newpath, PARENT))) == Err(Unspecified)
      ensures r.Ok? || old(fs.host.Quiet()) ==>
                var a := LinkAnswer(old(fs.TheSpace()), fs.mounts, old(fs.WalkAnswer(ob, oldpath, PLAIN_WALK.(nofollow := !follow))),
                                    old(fs.WalkAnswer(nb, newpath, PARENT)));
                if r.Ok? then a == Ok(e) else a == Err(r.errno)
    {
      hide NodeAt, Canonical, Components, PathAnswer, Accepts, Apply, LinkSource, LinkAnswer, LocFits, Valid, Point;
      e := NoEdit;
      AcceptsNothing(fs.host.objs);
      Seating();
      LinkFails(fs.TheSpace(), fs.mounts, fs.WalkAnswer(ob, oldpath, PLAIN_WALK.(nofollow := !follow)), fs.WalkAnswer(nb, newpath, PARENT));
      ghost var sp, w := fs.TheSpace(), fs.WalkAnswer(ob, oldpath, PLAIN_WALK.(nofollow := !follow));
      var c := CheckLink(ob, oldpath, follow);
      if c.Err? { return Err(c.errno), e; }
      SourceAgain(sp, fs.mounts, w, c.value);
      r, e := LinkInto(c.value, nb, newpath);
    }

    /** Open the directory the new name goes into, which must be on the file's own mount. */
    method OpenTarget(mount: nat, nb: Origin, newpath: string) returns (r: Result<Handle>, name: string)
      requires Valid() && OriginFits(nb)
      modifies fs.host
      ensures fs.Mounted() && fs.host.Valid() && fs.host.objs == old(fs.host.objs) && fs.TheSpace() == old(fs.TheSpace())
      ensures old(fs.host.Quiet()) ==> fs.host.Quiet()
      ensures r.Err? ==> fs.host.live == old(fs.host.live)
      ensures r.Ok? ==> Opens(old(fs.host.live), fs.host.live, r.value) && IsName(name)
      ensures r != Err(Unspecified)
      ensures r.Ok? || old(fs.host.Quiet()) ==>
                var t := LinkTarget(old(fs.TheSpace()), fs.mounts, mount, old(fs.WalkAnswer(nb, newpath, PARENT)));
                if r.Ok? then t == Ok((fs.host.live[r.value], name)) else t == Err(r.errno)
    {
      name := "";
      hide NodeAt, Canonical, Components, PathAnswer, Owned, AllInOrder, LocFits, IsName, IsDir, LinkTarget;
      ghost var live0, sp, w, quiet := fs.host.live, fs.TheSpace(), fs.WalkAnswer(nb, newpath, PARENT), fs.host.Quiet();
      var pd := HostParent(nb, newpath);
      if pd.Err? {
        if quiet { TargetFails(sp, fs.mounts, mount, w, pd.errno); }
        return Err(pd.errno), name;
      }
      var (loc, d) := pd.value;
      name := loc.last;
      ghost var live1 := fs.host.live;
      TargetFound(sp, fs.mounts, mount, w, loc, live1[d]);
      if loc.mount != mount {
        fs.host.Close(d);
        OneClosed(live0, live1, d, fs.host.live);
        return Err(EXDEV), name;
      }
      return Ok(d), name;
    }

    /** Open the directory the new name goes into and the one the file is in. */
    method OpenForLink(o: Loc, nb: Origin, newpath: string) returns (r: Result<(Handle, Handle)>, name: string)
      requires Valid() && OriginFits(nb)
      requires LocFits(fs.Seats(), o, false) && OnHost(fs.mounts, o) && Point(fs.Seats(), o.mount) != Components(o.abs)
      requires NodeAt(fs.TheSpace(), Components(o.abs)).Ok?
      modifies fs.host
      ensures fs.Mounted() && fs.host.Valid() && fs.host.objs == old(fs.host.objs) && fs.TheSpace() == old(fs.TheSpace())
      ensures old(fs.host.Quiet()) ==> fs.host.Quiet()
      ensures r.Err? ==> fs.host.live == old(fs.host.live)
      ensures o.abs != "" && IsName(Base(o.abs))
      ensures r.Ok? ==>
                var (d, g) := r.value;
                && OpensTwo(old(fs.host.live), fs.host.live, d, g) && IsName(name)
                && Lookup(fs.host.objs, fs.host.live[g], Base(o.abs)) == NodeAt(fs.TheSpace(), Components(o.abs))
      ensures r != Err(Unspecified)
      ensures r.Ok? || old(fs.host.Quiet()) ==>
                var t := LinkTarget(old(fs.TheSpace()), fs.mounts, o.mount, old(fs.WalkAnswer(nb, newpath, PARENT)));
                if r.Ok? then t == Ok((fs.host.live[r.value.0], name)) else t == Err(r.errno)
    {
      hide NodeAt, Canonical, Components, PathAnswer, Owned, AllInOrder, IsBest, LocFits, IsName, Point, IsDir, LinkTarget, Lookup;
      ghost var live0 := fs.host.live;
      var d;
      d, name := OpenTarget(o.mount, nb, newpath);
      if d.Err? {
        NamedBelow(o);
        return Err(d.errno), name;
      }
      var od := OpenSecond(o, d.value, live0);
      if od.Err? { return Err(od.errno), name; }
      return Ok((d.value, od.value)), name;
    }

    lemma NamedBelow(o: Loc)
      requires fs.Mounted() && LocFits(fs.Seats(), o, false) && Point(fs.Seats(), o.mount) != Components(o.abs)
      ensures o.abs != "" && IsName(Base(o.abs))
    {
      NodeByParent(fs.TheSpace(), o.abs, o.mount);
    }

    /** The second directory of a link, or the first one let go again. */
    method OpenSecond(o: Loc, d: Handle, ghost live0: map<Handle, NodeId>) returns (r: Result<Handle>)
      requires fs.Mounted() && LocFits(fs.Seats(), o, false) && OnHost(fs.mounts, o) && Point(fs.Seats(), o.mount) != Components(o.abs)
      requires Opens(live0, fs.host.live, d) && RootsOpen(fs.mounts, live0) && SeatsOf(fs.mounts, live0) == fs.Seats()
      modifies fs.host
      ensures fs.Mounted() && fs.host.Valid() && fs.host.objs == old(fs.host.objs) && fs.TheSpace() == old(fs.TheSpace())
      ensures old(fs.host.Quiet()) ==> fs.host.Quiet()
      ensures o.abs != "" && IsName(Base(o.abs))
      ensures r.Err? ==> fs.host.live == live0 && Refused(r)
      ensures r.Ok? ==>
                && OpensTwo(live0, fs.host.live, d, r.value) && fs.host.live[d] == old(fs.host.live)[d]
                && Lookup(fs.host.objs, fs.host.live[r.value], Base(o.abs)) == NodeAt(fs.TheSpace(), Components(o.abs))
      ensures old(fs.host.Quiet()) && r.Err? ==> NodeAt(fs.TheSpace(), Components(o.abs)) == Err(r.errno)
    {
      ghost var live1 := fs.host.live;
      assert d in live1 && ValidSeats(fs.Seats());
      hide NodeAt, Canonical, Components, IsBest, LocFits, IsName, Point, Lookup, FileSystem.Mounted, SeatsOf, RootsOpen, Opens, OpensTwo;
      hide ValidSeats;
      r := OpenDirOf(o);
      if r.Err? {
        fs.host.Close(d);
        OneClosed(live0, live1, d, fs.host.live);
        fs.MountedAgain(live0);
      } else {
        OpensTwice(live0, live1, d, fs.host.live, r.value);
      }
    }

    /** The directory an existing object is in. */
    method OpenDirOf(o: Loc) returns (r: Result<Handle>)
      requires fs.Mounted() && LocFits(fs.Seats(), o, false) && OnHost(fs.mounts, o) && Point(fs.Seats(), o.mount) != Components(o.abs)
      modifies fs.host
      ensures fs.Mounted() && fs.host.Valid() && fs.host.objs == old(fs.host.objs) && fs.TheSpace() == old(fs.TheSpace())
      ensures old(fs.host.Quiet()) ==> fs.host.Quiet()
      ensures r.Err? ==> fs.host.live == old(fs.host.live) && Refused(r)
      ensures o.abs != "" && IsName(Base(o.abs))
      ensures r.Ok? ==>
                && Opens(old(fs.host.live), fs.host.live, r.value)
                && Lookup(fs.host.objs, fs.host.live[r.value], Base(o.abs)) == NodeAt(fs.TheSpace(), Components(o.abs))
      ensures old(fs.host.Quiet()) && r.Err? ==> NodeAt(fs.TheSpace(), Components(o.abs)) == Err(r.errno)
    {
      hide NodeAt, Canonical, Components, IsName;
      r := fs.OpenParent(o.mount, o.abs);
    }

    method LinkInto(o: Loc, nb: Origin, newpath: string) returns (r: Result<()>, ghost e: Edit)
      requires Valid() && OriginFits(nb)
      requires LocFits(fs.Seats(), o, false) && OnHost(fs.mounts, o) && Point(fs.Seats(), o.mount) != Components(o.abs)
      requires var s := LinkSource(fs.TheSpace(), fs.mounts, Ok(o)); s.Ok? && NodeAt(fs.TheSpace(), Components(o.abs)) == s
      modifies fs.host
      ensures Valid() && Kept()
      ensures Accepts(old(fs.host.objs), e) && fs.host.objs == Apply(old(fs.host.objs), e)
      ensures r.Err? ==> e == NoEdit
      ensures r.Ok? ==> e.Tie?
      ensures r != Err(Unspecified)
      ensures r.Ok? || old(fs.host.Quiet()) ==>
                var a := LinkAnswer(old(fs.TheSpace()), fs.mounts, Ok(o), old(fs.WalkAnswer(nb, newpath, PARENT)));
                if r.Ok? then a == Ok(e) else a == Err(r.errno)
    {
      e := NoEdit;
      assert Accepts(fs.host.objs, NoEdit) && Apply(fs.host.objs, NoEdit) == fs.host.objs;
      hide NodeAt, Canonical, Components, PathAnswer, Owned, AllInOrder, Accepts, Apply, IsBest;
      hide LinkSource, LinkTarget, LinkAnswer, TieAnswer, IsName, LocFits, Lookup;
      ghost var live0 := fs.host.live;
      LinkSettled(fs.TheSpace(), fs.mounts, o, fs.WalkAnswer(nb, newpath, PARENT), NodeAt(fs.TheSpace(), Components(o.abs)).value);
      var both, name := OpenForLink(o, nb, newpath);
      if both.Err? { return Err(both.errno), e; }
      var (d, g) := both.value;
      assert d in fs.host.live && g in fs.host.live && d != g;
      hide OpensTwo;
      ghost var live1, n := fs.host.live, 0;
      r, n := fs.host.LinkThenCloseAll(g, Base(o.abs), d, name);
      TwoClosed(live0, live1, d, g, fs.host.live);
      StillValid();
      if r.Ok? { e := Tie(live1[d], name, n); }
    }

    /** What `vfs_unlink` checks before it opens the parent. */
    method CheckUnlink(b: Origin, path: string, rmdir: bool) returns (r: Result<Loc>)
      requires Valid() && OriginFits(b)
      modifies fs.host
      ensures fs.Mounted() && Valid() && Kept() && fs.host.objs == old(fs.host.objs) && fs.TheSpace() == old(fs.TheSpace())
      ensures r.Ok? ==> LocFits(fs.Seats(), r.value, true) && OnHost(fs.mounts, r.value)
      ensures r == Err(Unspecified) ==> Unfit(fs.mounts, old(fs.WalkAnswer(b, path, PARENT)))
      ensures var c := UnlinkCheck(old(fs.TheSpace()), fs.mounts, old(fs.WalkAnswer(b, path, PARENT)), path, rmdir);
              r == c || (r.Err? && !old(fs.host.Quiet()))
    {
      hide NodeAt, Canonical, Components, WalkText, Seated;
      var w := fs.Walk(b, path, PARENT);
      if w.Err? {
        if w.errno != EEXIST { return Err(w.errno); }
        if rmdir && EndsInDot(path) { return Err(EINVAL); }
        return Err(if rmdir then EBUSY else EISDIR);
      }
      var loc := w.value;
      if !fs.mounts[loc.mount].HostMount? { return Err(EACCES); }
      if !Fits(loc.abs, loc.last) { return Err(Unspecified); }
      var cand := Join(loc.abs, loc.last);
      JoinAppends(loc.abs, loc.last);
      var seated := fs.MountAt(cand);
      if seated { return Err(EBUSY); }
      var st := fs.StatAbs(cand);
      if st.Err? { return Err(st.errno); }
      if rmdir && !IsDir(fs.host.objs, st.value) { return Err(ENOTDIR); }
      if !rmdir && IsDir(fs.host.objs, st.value) { return Err(EISDIR); }
      return Ok(loc);
    }

    /** `vfs_unlink`: unlink and rmdir. Nothing is promised where the code reads a path
        it could not build. */
    method Unlink(b: Origin, path: string, rmdir: bool) returns (r: Result<()>, ghost e: Edit)
      requires Valid() && OriginFits(b)
      modifies fs.host
      ensures r != Err(Unspecified) ==>
                && Valid() && Kept()
                && Accepts(old(fs.host.objs), e) && fs.host.objs == Apply(old(fs.host.objs), e)
                && (r.Err? ==> e == NoEdit)
                && (r.Ok? ==> e.Unmake? && IsDir(old(fs.host.objs), old(fs.host.objs)[e.d].entries[e.name]) == rmdir)
      ensures r == Err(Unspecified) ==> Unfit(fs.mounts, old(fs.WalkAnswer(b, path, PARENT)))
      ensures r.Ok? ==> Removes(old(fs.TheSpace()), old(fs.WalkAnswer(b, path, PARENT)), e)
      ensures r.Ok? || old(fs.host.Quiet()) ==>
                r == UnlinkAnswer(old(fs.TheSpace()), fs.mounts, old(fs.WalkAnswer(b, path, PARENT)), path, rmdir)
    {
      hide NodeAt, Canonical, Components, PathAnswer, UnlinkCheck, RemoveFrom, Owned, AllInOrder;
      e := NoEdit;
      ghost var sp, w := fs.TheSpace(), fs.WalkAnswer(b, path, PARENT);
      UnlinkSettled(sp, fs.mounts, w, path, rmdir);
      hide UnlinkAnswer, Accepts, Apply, Removes, IsDir;
      AcceptsNothing(fs.host.objs);
      var c := CheckUnlink(b, path, rmdir);
      if c.Err? { return Err(c.errno), e; }
      r, e := RemoveAt(c.value, rmdir);
    }

    /** Open the parent, take the name out and let the parent go. */
    method RemoveAt(loc: Loc, rmdir: bool) returns (r: Result<()>, ghost e: Edit)
      requires Valid() && LocFits(fs.Seats(), loc, true) && OnHost(fs.mounts, loc)
      modifies fs.host
      ensures Valid() && Kept()
      ensures Accepts(old(fs.host.objs), e) && fs.host.objs == Apply(old(fs.host.objs), e)
      ensures r != Err(Unspecified)
      ensures r.Err? ==> e == NoEdit
      ensures r.Ok? ==> Removes(old(fs.TheSpace()), Ok(loc), e)
                        && IsDir(old(fs.host.objs), old(fs.host.objs)[e.d].entries[e.name]) == rmdir
      ensures r.Ok? || old(fs.host.Quiet()) ==> r == RemoveFrom(old(fs.TheSpace()), loc, rmdir)
    {
      hide NodeAt, Canonical, Components, IsBest, RemoveFrom, RemoveAnswer, DirFails, LocFits, Owned, AllInOrder;
      e := NoEdit;
      ghost var sp, quiet := fs.TheSpace(), fs.host.Quiet();
      var d := OpenLoc(loc);
      if d.Err? {
        if quiet { RemoveFails(sp, loc, rmdir, d.errno); }
        StillValid();
        return Err(d.errno), e;
      }
      ghost var n := fs.host.live[d.value];
      RemoveFound(sp, loc, rmdir, n);
      r := fs.host.UnlinkAt(d.value, loc.last, rmdir);
      fs.host.Close(d.value);
      Reopened(old(fs.host.live), d.value, n, fs.host.live);
      StillValid();
      if r.Ok? { e := Unmake(n, loc.last); }
    }

    /** Both walks of a rename and the checks on the mounts they end on. */
    method RenameWalks(ob: Origin, oldpath: string, nb: Origin, newpath: string) returns (r: Result<(Loc, Loc)>)
      requires Valid() && OriginFits(ob) && OriginFits(nb)
      modifies fs.host
      ensures Valid() && Kept() && fs.host.objs == old(fs.host.objs) && fs.TheSpace() == old(fs.TheSpace())
      ensures r.Ok? ==>
                var (o, n) := r.value;
                && LocFits(fs.Seats(), o, true) && LocFits(fs.Seats(), n, true)
                && OnHost(fs.mounts, o) && OnHost(fs.mounts, n) && o.mount == n.mount
                && Fits(o.abs, o.last) && Fits(n.abs, n.last)
                && old(fs.WalkAnswer(ob, oldpath, PARENT)) == Ok(o) && old(fs.WalkAnswer(nb, newpath, PARENT)) == Ok(n)
      ensures r == Err(Unspecified) ==>
                UnfitPair(fs.mounts, old(fs.WalkAnswer(ob, oldpath, PARENT)), old(fs.WalkAnswer(nb, newpath, PARENT)))
      ensures r.Err? && old(fs.host.Quiet()) ==>
                forall noreplace :: RenameCheck(old(fs.TheSpace()), fs.mounts, old(fs.WalkAnswer(ob, oldpath, PARENT)),
                  old(fs.WalkAnswer(nb, newpath, PARENT)), noreplace) == Err(r.errno)
    {
      hide NodeAt, Canonical, Components, WalkText, RenameNames;
      var ow := fs.Walk(ob, oldpath, PARENT);
      if ow.Err? { return Err(if ow.errno == EEXIST then EBUSY else ow.errno); }
      var nw := fs.Walk(nb, newpath, PARENT);
      if nw.Err? { return Err(if nw.errno == EEXIST then EBUSY else nw.errno); }
      var o, n := ow.value, nw.value;
      if !fs.mounts[o.mount].HostMount? || !fs.mounts[n.mount].HostMount? { return Err(EACCES); }
      if o.mount != n.mount { return Err(EXDEV); }
      if !Fits(o.abs, o.last) || !Fits(n.abs, n.last) { return Err(Unspecified); }
      return Ok((o, n));
    }

    /** The checks on the two names; `seen` says the target is an existing directory. */
    method CheckNames(o: Loc, n: Loc, noreplace: bool) returns (r: Result<bool>, seen: bool)
      requires Valid() && LocFits(fs.Seats(), o, true) && LocFits(fs.Seats(), n, true)
      requires OnHost(fs.mounts, o) && OnHost(fs.mounts, n) && o.mount == n.mount
      requires Fits(o.abs, o.last) && Fits(n.abs, n.last)
      modifies fs.host
      ensures Valid() && Kept() && fs.host.objs == old(fs.host.objs) && fs.TheSpace() == old(fs.TheSpace())
      ensures r != Err(Unspecified) && (r == Ok(false) ==> SamePath(o, n))
      ensures r == Ok(true) ==> RenameClear(fs.TheSpace(), fs.mounts, o, n)
      ensures old(fs.host.Quiet()) ==>
                && r == RenameNames(fs.TheSpace(), Join(o.abs, o.last), Join(n.abs, n.last), noreplace)
                && (r.Ok? ==> seen == Seen(fs.TheSpace(), n))
    {
      hide NodeAt, Canonical, Components, Seated, Inside, Join;
      seen := false;
      var ocand, ncand := Join(o.abs, o.last), Join(n.abs, n.last);
      JoinAppends(o.abs, o.last);
      JoinAppends(n.abs, n.last);
      var omount := fs.MountAt(ocand);
      var nmount := fs.MountAt(ncand);
      if omount || nmount { return Err(EBUSY), seen; }
      var ost := fs.StatAbs(ocand);
      if ost.Err? { return Err(ost.errno), seen; }
      var nst := fs.StatAbs(ncand);
      seen := nst.Ok? && IsDir(fs.host.objs, nst.value);
      r := DecideNames(fs.host.objs, ocand, ncand, ost.value, nst, noreplace);
    }

    /** Both parents of a rename, opened. */
    method OpenBoth(o: Loc, n: Loc) returns (r: Result<(Handle, Handle)>)
      requires Valid() && LocFits(fs.Seats(), o, true) && LocFits(fs.Seats(), n, true)
      requires OnHost(fs.mounts, o) && OnHost(fs.mounts, n)
      modifies fs.host
      ensures fs.Mounted() && fs.host.Valid() && fs.host.objs == old(fs.host.objs) && fs.TheSpace() == old(fs.TheSpace())
      ensures old(fs.host.Quiet()) ==> fs.host.Quiet()
      ensures r.Err? ==> fs.host.live == old(fs.host.live) && Refused(r)
      ensures r.Ok? ==>
                var (h, g) := r.value;
                && h in fs.host.live && g in fs.host.live
                && h !in old(fs.host.live) && g !in old(fs.host.live) && g != h
                && fs.host.live == old(fs.host.live)[h := fs.host.live[h]][g := fs.host.live[g]]
                && Parents(fs.TheSpace(), o, n) == Ok((fs.host.live[h], fs.host.live[g]))
      ensures old(fs.host.Quiet()) && r.Err? ==> Parents(fs.TheSpace(), o, n) == Err(r.errno)
    {
      hide NodeAt, Canonical, Components, LocFits;
      var od := OpenLoc(o);
      if od.Err? { return Err(od.errno); }
      ghost var live0, a := old(fs.host.live), fs.host.live[od.value];
      var nd := OpenLoc(n);
      if nd.Err? {
        fs.host.Close(od.value);
        Reopened(live0, od.value, a, fs.host.live);
        return Err(nd.errno);
      }
      return Ok((od.value, nd.value));
    }

    /** Everything open, move the name and let both directories go. */
    method RenameOpen(o: Loc, n: Loc, noreplace: bool, seen: bool) returns (r: Result<()>, ghost e: Edit)
      requires Valid() && RenameClear(fs.TheSpace(), fs.mounts, o, n)
      modifies fs.host
      ensures Valid() && Kept()
      ensures Accepts(old(fs.host.objs), e) && fs.host.objs == Apply(old(fs.host.objs), e)
      ensures r != Err(Unspecified)
      ensures r.Err? ==> e == NoEdit
      ensures r.Ok? ==> Relocates(old(fs.TheSpace()), o, n, e)
      ensures old(fs.host.Quiet()) ==> r == OpenedAnswer(old(fs.TheSpace()), o, n, noreplace, seen)
    {
      assert LocFits(fs.Seats(), o, true) && LocFits(fs.Seats(), n, true) && IsName(n.last);
      assert OnHost(fs.mounts, o) && OnHost(fs.mounts, n) && ValidSeats(fs.TheSpace().seats);
      hide NodeAt, Relocates, Parents, Canonical, Components, RenameClear, LocFits, OnHost, IsName, MoveAnswer, ValidSeats;
      assert Accepts(fs.host.objs, NoEdit) && Apply(fs.host.objs, NoEdit) == fs.host.objs;
      hide Accepts, Apply, Valid, FileSystem.Mounted, SeatsOf;
      e := NoEdit;
      ghost var live0, sp := fs.host.live, fs.TheSpace();
      var both := OpenBoth(o, n);
      if both.Err? {
        r := Err(both.errno);
      } else {
        var (h, g) := both.value;
        ghost var a, b := fs.host.live[h], fs.host.live[g];
        r := fs.host.RenameThenClose(h, o.last, g, n.last, noreplace, seen);
        BothClosed(live0, h, a, g, b, fs.host.live);
        if r.Ok? { e := Relocate(a, o.last, b, n.last); }
        RelocatesBoth(sp, o, n, a, b);
      }
      StillValid();
    }

    /** `vfs_rename`. Nothing is promised where the code reads a path it could not build. */
    method Rename(ob: Origin, oldpath: string, nb: Origin, newpath: string, noreplace: bool)
      returns (r: Result<()>, ghost e: Edit)
      requires Valid() && OriginFits(ob) && OriginFits(nb)
      modifies fs.host
      ensures r != Err(Unspecified) ==>
                && Valid() && Kept()
                && Accepts(old(fs.host.objs), e) && fs.host.objs == Apply(old(fs.host.objs), e)
                && (r.Err? ==> e == NoEdit)
                && (IsSpace(old(fs.TheSpace())) ==> IsTree(fs.host.objs))
      ensures var ow, nw := old(fs.WalkAnswer(ob, oldpath, PARENT)), old(fs.WalkAnswer(nb, newpath, PARENT));
              && (r == Err(Unspecified) ==> UnfitPair(fs.mounts, ow, nw))
              && (r.Ok? ==> RenameDone(old(fs.TheSpace()), ow, nw, e))
      ensures old(fs.host.Quiet()) ==>
                r == RenameAnswer(old(fs.TheSpace()), fs.mounts, old(fs.WalkAnswer(ob, oldpath, PARENT)),
                                  old(fs.WalkAnswer(nb, newpath, PARENT)), noreplace)
    {
      hide NodeAt, Parents, Canonical, Components, WalkText, RenameClear, IsTree, IsSpace, RenameNames, LocFits, Movable, Seen;
      e := NoEdit;
      ghost var sp := fs.TheSpace();
      if IsSpace(sp) { SpaceIsTree(sp); }
      var w := RenameWalks(ob, oldpath, nb, newpath);
      if w.Err? { return Err(w.errno), e; }
      var (o, n) := w.value;
      var go, seen := CheckNames(o, n, noreplace);
      if go.Err? { return Err(go.errno), e; }
      if !go.value { return Ok(()), e; }
      r, e := RenameOpen(o, n, noreplace, seen);
      if IsSpace(sp) {
        if r.Ok? { ClearKeepsTree(sp, fs.mounts, o, n, e.od, e.nd); }
        EditKeepsTree(sp.objs, e);
      }
    }

    // ---- attributes, status and the working directory ----

    /** `open_attr`: the object at a location, opened for its attributes. */
    method OpenAttr(loc: Loc) returns (r: Result<Handle>)
      requires Valid() && LocFits(fs.Seats(), loc, false)
      modifies fs.host
      ensures fs.Mounted() && fs.host.Valid() && fs.host.objs == old(fs.host.objs) && fs.TheSpace() == old(fs.TheSpace())
      ensures old(fs.host.Quiet()) ==> fs.host.Quiet()
      ensures r.Err? ==> fs.host.live == old(fs.host.live)
      ensures r.Ok? ==> Opens(old(fs.host.live), fs.host.live, r.value)
                        && NodeAt(fs.TheSpace(), Components(loc.abs)) == Ok(fs.host.live[r.value]) && OnHost(fs.mounts, loc)
      ensures old(fs.host.Quiet()) && r.Err? ==> AttrFails(fs.TheSpace(), fs.mounts, Ok(loc), r.errno)
    {
      RelOfCanonical(fs.mounts[loc.mount].point, loc.abs);
      NodeUnder(fs.TheSpace(), Components(loc.abs), loc.mount);
      NoneReparsed(fs.host.objs);
      hide NodeAt, Canonical, Components, OpenExisting, Rel, IsBest;
      if !fs.mounts[loc.mount].HostMount? { return Err(EPERM); }
      if Rel(fs.mounts[loc.mount].point, loc.abs) == "" {
        ghost var sp, live0 := fs.TheSpace(), fs.host.live;
        DescendNowhere(sp.objs, sp.seats[loc.mount].root, Components(loc.abs)[|Point(sp.seats, loc.mount)|..]);
        r := fs.host.Reopen(fs.mounts[loc.mount].root, true);
        if r.Ok? { SeatsKept(fs.mounts, live0, r.value, fs.host.live[r.value]); }
        return;
      }
      var o := OpenBelow(loc, PLAIN.(reparse := true));
      if o.Err? { return Err(o.errno); }
      return Ok(o.value.h);
    }

    /** chmod, chown and utimens by path: the attributes of `n` change. */
    method SetAttr(b: Origin, path: string, follow: bool) returns (r: Result<()>, ghost n: NodeId)
      requires Valid() && OriginFits(b)
      modifies fs.host
      ensures Valid() && Kept() && fs.host.objs == old(fs.host.objs)
      ensures r.Ok? ==>
                var w := old(fs.WalkAnswer(b, path, PLAIN_WALK.(nofollow := !follow)));
                w.Ok? && OnHost(fs.mounts, w.value) && NodeAt(old(fs.TheSpace()), Components(w.value.abs)) == Ok(n)
      ensures r.Err? && old(fs.host.Quiet()) ==>
                AttrFails(old(fs.TheSpace()), fs.mounts, old(fs.WalkAnswer(b, path, PLAIN_WALK.(nofollow := !follow))), r.errno)
    {
      n := 0;
      hide NodeAt, Canonical, Components, PathAnswer, IsBest, Owned, AllInOrder, OnHost, AttrFails;
      var w := fs.Walk(b, path, PLAIN_WALK.(nofollow := !follow));
      if w.Err? {
        WalkFailed(fs.TheSpace(), fs.mounts, w.errno);
        return Err(w.errno), n;
      }
      ghost var live0 := fs.host.live;
      var h := OpenAttr(w.value);
      if h.Err? { return Err(h.errno), n; }
      ghost var live1 := fs.host.live;
      n := live1[h.value];
      var a := fs.host.Ask();
      fs.host.Close(h.value);
      OneClosed(live0, live1, h.value, fs.host.live);
      StillValid();
      return if a.Works? then Ok(()) else Err(a.errno), n;
    }

    /** The same by descriptor: the object is opened again through its handle. */
    method SetFileAttr(f: nat) returns (r: Result<()>, ghost n: NodeId)
      requires Valid() && f in files
      modifies fs.host
      ensures Valid() && Kept() && fs.host.objs == old(fs.host.objs)
      ensures !OfHost(files[f].kind) ==> r == Err(EPERM)
      ensures OfHost(files[f].kind) ==> files[f].h in fs.host.live && n == fs.host.live[files[f].h]
      ensures old(fs.host.Quiet()) && OfHost(files[f].kind) ==>
                r == if files[f].kind.HostFolder? && !IsDir(fs.host.objs, n) then Err(ENOTDIR) else Ok(())
    {
      n := 0;
      var d := files[f];
      if !OfHost(d.kind) { return Err(EPERM), n; }
      assert d.h in Handles(files);
      hide ValidSeats, Canonical, Handles, Roots;
      ghost var live0 := fs.host.live;
      n := live0[d.h];
      var h := fs.host.Reopen(d.h, d.kind.HostFolder?);
      if h.Err? { return Err(h.errno), n; }
      ghost var live1 := fs.host.live;
      var a := fs.host.Ask();
      fs.host.Close(h.value);
      OneClosed(live0, live1, h.value, fs.host.live);
      StillValid();
      return if a.Works? then Ok(()) else Err(a.errno), n;
    }

    /** `vfs_truncate`: an open for writing, the change, and the last reference gone. */
    method Truncate(b: Origin, path: string, permits: Permits) returns (r: Result<()>)
      requires Valid() && OriginFits(b)
      modifies this`files, this`nextFile, fs.host
      ensures Valid() && fs.mounts == old(fs.mounts) && files == old(files)
      ensures fs.host.live == old(fs.host.live) && fs.host.objs == old(fs.host.objs)
      ensures old(fs.host.Quiet()) ==> fs.host.Quiet()
      ensures r.Ok? || old(fs.host.Quiet()) ==>
                r == TruncateAnswer(OpenAim(old(fs.TheSpace()), fs.mounts, fs.cwd, b, path, FOR_WRITING, permits, 0))
    {
      hide Owned, AllInOrder, InOrder, Comes, OpenAim, Handles, Roots, ValidSeats;
      ghost var live0, files0, objs0, new0 := fs.host.live, files, fs.host.objs, nextFile;
      assert new0 !in files0;
      ghost var aim, quiet := OpenAim(fs.TheSpace(), fs.mounts, fs.cwd, b, path, FOR_WRITING, permits, 0), fs.host.Quiet();
      PlainTakes(fs.TheSpace(), fs.mounts, fs.cwd, b, path, FOR_WRITING, permits);
      var f;
      ghost var e;
      f, e := Open(b, path, FOR_WRITING, permits);
      if f.Err? {
        if quiet { NotTruncated(aim, f.errno); }
        return Err(f.errno);
      }
      var k := files[f.value].kind;
      TruncatesKind(aim, files[f.value], e, fs.host.live);
      var a := fs.host.Ask();
      CloseFile(f.value);
      assert files == files0;
      if !Truncates(k) { return Err(EINVAL); }
      return if a.Works? then Ok(()) else Err(a.errno);
    }

    /** `vfs_chdir`: the working directory becomes the canonical path of a directory. */
    method Chdir(b: Origin, path: string, permits: Permits) returns (r: Result<()>)
      requires Valid() && OriginFits(b)
      modifies fs`cwd, fs.host
      ensures Valid() && files == old(files) && fs.mounts == old(fs.mounts)
      ensures fs.host.live == old(fs.host.live) && fs.host.objs == old(fs.host.objs)
      ensures old(fs.host.Quiet()) ==> fs.host.Quiet()
      ensures r.Err? ==> fs.cwd == old(fs.cwd)
      ensures r.Ok? ==>
                var w := old(fs.WalkAnswer(b, path, PLAIN_WALK.(mustdir := true))); w.Ok? && fs.cwd == w.value.abs
      ensures r.Ok? || old(fs.host.Quiet()) ==>
                r == ChdirAnswer(old(fs.TheSpace()), old(fs.WalkAnswer(b, path, PLAIN_WALK.(mustdir := true))), permits)
    {
      hide NodeAt, Canonical, Components, PathAnswer, IsBest, Owned, AllInOrder, ValidSeats;
      var w := fs.Walk(b, path, PLAIN_WALK.(mustdir := true));
      if w.Err? { return Err(w.errno); }
      var st := fs.StatAbs(w.value.abs);
      if st.Err? { return Err(st.errno); }
      if !permits(st.value, false, false) { return Err(EACCES); }
      fs.cwd := w.value.abs;
      return Ok(());
    }

    /** `vfs_fchdir`: to a host directory, or anything under /proc that has a path. */
    method Fchdir(f: nat) returns (r: Result<()>)
      requires Valid() && f in files
      modifies fs`cwd
      ensures Valid()
      ensures var k := files[f].kind;
              if k.HostFolder? || k.ProcFile? || k.ProcDir? then r == Ok(()) && fs.cwd == files[f].path
              else r == Err(ENOTDIR) && fs.cwd == old(fs.cwd)
    {
      hide Canonical;
      var k := files[f].kind;
      if !k.HostFolder? && !(k.ProcFile? || k.ProcDir?) { return Err(ENOTDIR); }
      fs.cwd := files[f].path;
      return Ok(());
    }

    /** `vfs_stat`: the object a path names. */
    method Stat(b: Origin, path: string, follow: bool) returns (r: Result<NodeId>)
      requires Valid() && OriginFits(b)
      modifies fs.host
      ensures Valid() && Kept() && fs.host.objs == old(fs.host.objs)
      ensures r.Ok? || old(fs.host.Quiet()) ==>
                var w := old(fs.WalkAnswer(b, path, PLAIN_WALK.(nofollow := !follow)));
                r == if w.Err? then Err(w.errno) else NodeAt(old(fs.TheSpace()), Components(w.value.abs))
    {
      hide NodeAt, Canonical, Components, PathAnswer, IsBest, Owned, AllInOrder, ValidSeats;
      var w := fs.Walk(b, path, PLAIN_WALK.(nofollow := !follow));
      if w.Err? { return Err(w.errno); }
      r := fs.StatAbs(w.value.abs);
      if r.Ok? && IsLink(fs.host.objs, r.value) { var _ := fs.ReadlinkAbs(w.value.abs); }
    }

    /** `vfs_readlink`: the target of the link a path names. */
    method Readlink(b: Origin, path: string) returns (r: Result<string>)
      requires Valid() && OriginFits(b)
      modifies fs.host
      ensures Valid() && Kept() && fs.host.objs == old(fs.host.objs)
      ensures r.Ok? ==>
                var w := old(fs.WalkAnswer(b, path, PLAIN_WALK.(nofollow := true)));
                && w.Ok?
                && var n := NodeAt(old(fs.TheSpace()), Components(w.value.abs));
                   n.Ok? && IsLink(fs.host.objs, n.value) && r.value == fs.host.objs[n.value].target
      ensures old(fs.host.Quiet()) && r.Err? ==>
                var w := old(fs.WalkAnswer(b, path, PLAIN_WALK.(nofollow := true)));
                NoLink(old(fs.TheSpace()), w, r.errno) || (w.Ok? && Seated(old(fs.TheSpace()).seats, Components(w.value.abs)))
    {
      hide NodeAt, Canonical, Components, PathAnswer, IsBest, Owned, AllInOrder, ValidSeats;
      var w := fs.Walk(b, path, PLAIN_WALK.(nofollow := true));
      if w.Err? { return Err(w.errno); }
      var st := fs.StatAbs(w.value.abs);
      if st.Err? { return Err(st.errno); }
      if !IsLink(fs.host.objs, st.value) { return Err(EINVAL); }
      r := fs.ReadlinkAbs(w.value.abs);
    }
  }
}
