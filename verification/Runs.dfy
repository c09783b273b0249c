/** Whole runs of the VFS: any operations in any order, each succeeding or
    failing wherever the host makes it fail. */
module Runs {
  import opened Basics
  import opened Errors
  import opened Paths
  import opened Trees
  import opened TreeEdits
  import opened Spaces
  import opened Hosts
  import opened Walks
  import opened Kernels
  import opened Openings
  import opened VfsOps

  /** AT_FDCWD, a description, a pipe, or a descriptor that is not open. */
  datatype At = AtCwd | AtFile(f: nat) | AtPipe | AtNone

  datatype Op =
    | DoOpen(at: At, path: string, m: OpenMode)
    | DoClose(f: nat)
    | DoMake(at: At, path: string, what: NewObject)
    | DoLink(at: At, path: string, at2: At, newpath: string, follow: bool)
    | DoUnlink(at: At, path: string, rmdir: bool)
    | DoRename(at: At, path: string, at2: At, newpath: string, noreplace: bool)
    | DoSetAttr(at: At, path: string, follow: bool)
    | DoSetFileAttr(f: nat)
    | DoTruncate(at: At, path: string)
    | DoChdir(at: At, path: string)
    | DoFchdir(f: nat)
    | DoStat(at: At, path: string, follow: bool)
    | DoReadlink(at: At, path: string)

  // ---- moments of a run ----

  /** The state of the VFS and the host at one moment; `quiet` if the host will refuse nothing more. */
  datatype Moment = Moment(objs: Objects, live: map<Handle, NodeId>, mounts: seq<Mount>, cwd: string, files: map<nat, Description>,
                           quiet: bool)

  ghost function Now(v: Vfs): Moment
    reads v, v.fs, v.fs.host
  {
    Moment(v.fs.host.objs, v.fs.host.live, v.fs.mounts, v.fs.cwd, v.files, v.fs.host.Quiet())
  }

  function SpaceAt(m: Moment): Space {
    Space(m.objs, SeatsOf(m.mounts, m.live))
  }

  /** The open handles are exactly the mount roots and those of descriptions, and every
      recorded path and the working directory are canonical. */
  ghost predicate Orderly(m: Moment) {
    && ValidSeats(SeatsOf(m.mounts, m.live)) && GoodPath(m.cwd)
    && Owned(m.mounts, m.files, m.live) && AllInOrder(m.files)
  }

  lemma Ordered(v: Vfs)
    requires v.Valid()
    ensures Orderly(Now(v)) && SpaceAt(Now(v)) == v.fs.TheSpace()
  {
  }

  /** A space whose mounts sit on top directories. */
  ghost predicate Sound(sp: Space) {
    && IsSpace(sp)
    && forall k :: 0 <= k < |sp.seats| ==> sp.objs[sp.seats[k].root].parent == sp.seats[k].root
  }

  /** An edit that keeps the tree keeps every top directory. */
  lemma EditKeepsTop(objs: Objects, e: Edit, t: NodeId)
    requires IsTree(objs) && Accepts(objs, e) && IsDir(objs, t) && objs[t].parent == t
    ensures IsDir(Apply(objs, e), t) && Apply(objs, e)[t].parent == t
  {
    hide Ranked, IsName;
    if e.Unmake? {
      assert EdgeOk(objs, e.d, e.name);
    } else if e.Relocate? {
      assert EdgeOk(objs, e.od, e.on);
      assert EdgeOk(objs, e.nd, e.nn);
    }
  }

  lemma EditKeepsSound(sp: Space, e: Edit)
    requires Sound(sp) && Accepts(sp.objs, e) && !IntoItself(sp.objs, e)
    ensures Sound(Space(Apply(sp.objs, e), sp.seats))
  {
    EditKeepsTree(sp.objs, e);
    forall k | 0 <= k < |sp.seats|
      ensures IsDir(Apply(sp.objs, e), sp.seats[k].root) && Apply(sp.objs, e)[sp.seats[k].root].parent == sp.seats[k].root
    {
      EditKeepsTop(sp.objs, e, sp.seats[k].root);
    }
  }

  // ---- what one operation may do ----

  /** `base_of`: where a path given with a descriptor starts. */
  function BaseOf(files: map<nat, Description>, at: At, path: string): (r: Result<Origin>)
    requires AllInOrder(files)
    ensures r.Ok? ==> OriginFits(r.value)
  {
    if at.AtCwd? || (path != "" && path[0] == '/') then Ok(Cwd)
    else if at.AtNone? || (at.AtFile? && at.f !in files) then Err(EBADF)
    else if path == "" then Ok(Cwd)
    else if at.AtPipe? then Err(ENOTDIR)
    else if files[at.f].kind in {HostFolder, ProcDir, DevDir} then Ok(Dir(files[at.f].path))
    else Err(ENOTDIR)
  }

  /** The operation works on a path, or on two. */
  predicate OnPaths(op: Op) {
    !op.DoClose? && !op.DoSetFileAttr? && !op.DoFchdir?
  }

  /** Why the operation stops before it has looked at a path: a descriptor it was to start from, or
      nothing to link. */
  function Stopped(files: map<nat, Description>, op: Op): Opt<Errno>
    requires AllInOrder(files) && OnPaths(op)
  {
    var b := BaseOf(files, op.at, op.path);
    if b.Err? then Some(b.errno)
    else if op.DoLink? && op.path == "" then Some(ENOENT)
    else if !op.DoLink? && !op.DoRename? then None
    else
      var nb := BaseOf(files, op.at2, op.newpath);
      if nb.Err? then Some(nb.errno) else None
  }

  /** What the path names at that moment. */
  ghost function Named(m: Moment, at: At, path: string, flags: WalkFlags): Result<Loc>
    requires Orderly(m)
  {
    match BaseOf(m.files, at, path)
    case Err(e) => Err(e)
    case Ok(b) => PathAnswer(SpaceAt(m), m.cwd, b, path, flags)
  }

  /** The operation goes on with a path the code could not build. */
  ghost predicate UndefinedAt(m: Moment, op: Op)
    requires Orderly(m)
  {
    match op
    case DoUnlink(at, path, _) => Unfit(m.mounts, Named(m, at, path, PARENT))
    case DoRename(at, path, at2, newpath, _) => UnfitPair(m.mounts, Named(m, at, path, PARENT), Named(m, at2, newpath, PARENT))
    case DoLink(at, path, at2, newpath, follow) =>
      LinkAnswer(SpaceAt(m), m.mounts, Named(m, at, path, PLAIN_WALK.(nofollow := !follow)), Named(m, at2, newpath, PARENT))
      == Err(Unspecified)
    case _ => false
  }

  /** The tree changes, unless the host refuses. */
  ghost predicate Changes(m: Moment, op: Op)
    requires Orderly(m)
  {
    match op
    case DoOpen(at, path, om) =>
      var b := BaseOf(m.files, at, path);
      om.create && b.Ok? && ToMake(OpenAim(SpaceAt(m), m.mounts, m.cwd, b.value, path, om, ANYONE, 0))
    case DoMake(at, path, what) => MakeAnswer(SpaceAt(m), m.mounts, Named(m, at, path, PARENT), what).Ok?
    case DoLink(at, path, at2, newpath, follow) =>
      LinkAnswer(SpaceAt(m), m.mounts, Named(m, at, path, PLAIN_WALK.(nofollow := !follow)), Named(m, at2, newpath, PARENT)).Ok?
    case DoUnlink(at, path, rmdir) => UnlinkAnswer(SpaceAt(m), m.mounts, Named(m, at, path, PARENT), path, rmdir).Ok?
    case DoRename(at, path, at2, newpath, noreplace) =>
      var ow, nw := Named(m, at, path, PARENT), Named(m, at2, newpath, PARENT);
      RenameAnswer(SpaceAt(m), m.mounts, ow, nw, noreplace).Ok? && ow.Ok? && nw.Ok? && !SamePath(ow.value, nw.value)
    case _ => false
  }

  /** The edit is the one the operation's paths call for; none if they call for none or, on a
      host that may still refuse, at a refusal. A rename may also meet a refusal in looking at
      its new name and go on as if nothing were there. */
  ghost predicate Suits(m: Moment, op: Op, e: Edit)
    requires Orderly(m)
  {
    if e == NoEdit then !(m.quiet && Changes(m, op))
    else (Changes(m, op) || op.DoRename?) && match op
    case DoOpen(at, path, om) =>
      var b := BaseOf(m.files, at, path);
      om.create && b.Ok? && Founds(OpenAim(SpaceAt(m), m.mounts, m.cwd, b.value, path, om, ANYONE, 0), e)
    case DoMake(at, path, what) => Makes(SpaceAt(m), Named(m, at, path, PARENT), what, e)
    case DoLink(at, path, at2, newpath, follow) =>
      LinkAnswer(SpaceAt(m), m.mounts, Named(m, at, path, PLAIN_WALK.(nofollow := !follow)), Named(m, at2, newpath, PARENT)) == Ok(e)
    case DoUnlink(at, path, _) => Removes(SpaceAt(m), Named(m, at, path, PARENT), e)
    case DoRename(at, path, at2, newpath, _) =>
      RenameDone(SpaceAt(m), Named(m, at, path, PARENT), Named(m, at2, newpath, PARENT), e)
    case _ => false
  }

  /** The new description is the one the operation's path calls for. */
  ghost predicate Describes(s: Moment, op: Op, e: Edit, t: Moment, f: nat)
    requires Orderly(s) && op.DoOpen?
  {
    && f !in s.files && f in t.files && t.files == s.files[f := t.files[f]]
    && var b := BaseOf(s.files, op.at, op.path);
       b.Ok? && Comes(OpenAim(SpaceAt(s), s.mounts, s.cwd, b.value, op.path, op.m, ANYONE, 0), Ok(t.files[f]), e, t.live)
  }

  /** The descriptions afterwards: one more, one less, or as they were. */
  ghost predicate Files(s: Moment, op: Op, a: Result<()>, e: Edit, t: Moment)
    requires Orderly(s)
  {
    match op
    case DoOpen(_, _, _) => if a.Ok? then exists f :: Describes(s, op, e, t, f) else t.files == s.files
    case DoClose(f) => t.files == s.files - {f}
    case _ => t.files == s.files
  }

  /** The working directory afterwards. */
  ghost predicate Directory(s: Moment, op: Op, a: Result<()>, t: Moment)
    requires Orderly(s)
  {
    match op
    case DoChdir(at, path) =>
      var w := Named(s, at, path, PLAIN_WALK.(mustdir := true));
      if a.Ok? then w.Ok? && t.cwd == w.value.abs else t.cwd == s.cwd
    case DoFchdir(f) => t.cwd == if f in s.files && s.files[f].kind in {HostFolder, ProcFile, ProcDir} then s.files[f].path else s.cwd
    case _ => t.cwd == s.cwd
  }

  /** From `s` the operation may answer `a` and come to `t`, the host tree taking the edit `e`, one
      a tree survives. */
  ghost predicate Follows(s: Moment, op: Op, a: Result<()>, e: Edit, t: Moment)
    requires Orderly(s)
  {
    && t.mounts == s.mounts && SeatsOf(t.mounts, t.live) == SeatsOf(s.mounts, s.live)
    && Accepts(s.objs, e) && t.objs == Apply(s.objs, e) && Suits(s, op, e)
    && (IsSpace(SpaceAt(s)) ==> !IntoItself(s.objs, e))
    && Files(s, op, a, e, t) && Directory(s, op, a, t) && (s.quiet ==> t.quiet) && Answered(s, op, a) && Settles(s, op, a, e)
  }

  /** What the operation answers: the errno of a descriptor to start from that is not open or no
      directory, before anything else; after a success, and on a quiet host, what its paths call for. */
  ghost predicate Answered(s: Moment, op: Op, a: Result<()>)
    requires Orderly(s)
  {
    match op
    case DoClose(f) => a == if f in s.files then Ok(()) else Err(EBADF)
    case DoSetFileAttr(f) => if f !in s.files then a == Err(EBADF) else !OfHost(s.files[f].kind) ==> a == Err(EPERM)
    case DoFchdir(f) =>
      a == if f !in s.files then Err(EBADF)
           else if s.files[f].kind in {HostFolder, ProcFile, ProcDir} then Ok(()) else Err(ENOTDIR)
    case _ => match Stopped(s.files, op)
      case Some(e) => a == Err(e)
      case None => Tells(s, op, a)
  }

  ghost predicate Tells(s: Moment, op: Op, a: Result<()>)
    requires Orderly(s)
  {
    match op
    case DoMake(at, path, what) =>
      s.quiet || a.Ok? ==> a == MakeAnswer(SpaceAt(s), s.mounts, Named(s, at, path, PARENT), what)
    case DoLink(at, path, at2, newpath, follow) =>
      var r := LinkAnswer(SpaceAt(s), s.mounts, Named(s, at, path, PLAIN_WALK.(nofollow := !follow)), Named(s, at2, newpath, PARENT));
      s.quiet || a.Ok? ==> if r.Ok? then a.Ok? else a == Err(r.errno)
    case DoUnlink(at, path, rmdir) =>
      s.quiet || a.Ok? ==> a == UnlinkAnswer(SpaceAt(s), s.mounts, Named(s, at, path, PARENT), path, rmdir)
    case DoRename(at, path, at2, newpath, noreplace) =>
      s.quiet ==> a == RenameAnswer(SpaceAt(s), s.mounts, Named(s, at, path, PARENT), Named(s, at2, newpath, PARENT), noreplace)
    case DoOpen(at, path, m) => s.quiet && a.Err? ==> Aimed(s, at, path, m, Who(a)) == Err(a.errno)
    case DoTruncate(at, path) => s.quiet || a.Ok? ==> a == TruncateAnswer(Aimed(s, at, path, FOR_WRITING, Who(a)))
    case DoChdir(at, path) =>
      s.quiet || a.Ok? ==> a == ChdirAnswer(SpaceAt(s), Named(s, at, path, PLAIN_WALK.(mustdir := true)), Who(a))
    case DoSetAttr(at, path, follow) => Sees(s, op, Named(s, at, path, PLAIN_WALK.(nofollow := !follow)), a)
    case DoStat(at, path, follow) => Sees(s, op, Named(s, at, path, PLAIN_WALK.(nofollow := !follow)), a)
    case DoReadlink(at, path) => Sees(s, op, Named(s, at, path, PLAIN_WALK.(nofollow := true)), a)
    case _ => true
  }

  /** The answer to one with every permission, or, if it is EACCES, to one with none: the permissions
      are not part of a moment. */
  function Who(a: Result<()>): Permits {
    if a == Err(EACCES) then NOBODY else ANYONE
  }

  ghost function Aimed(s: Moment, at: At, path: string, m: OpenMode, permits: Permits): Result<Aim>
    requires Orderly(s)
  {
    match BaseOf(s.files, at, path)
    case Err(e) => Err(e)
    case Ok(b) => OpenAim(SpaceAt(s), s.mounts, s.cwd, b, path, m, permits, 0)
  }

  /** What the three operations that only look answer on what the walk found. */
  ghost predicate Sees(s: Moment, op: Op, w: Result<Loc>, a: Result<()>)
    requires ValidSeats(SpaceAt(s).seats)
  {
    var n := if w.Err? then Err(w.errno) else NodeAt(SpaceAt(s), Components(w.value.abs));
    && (a.Ok? ==> n.Ok?)
    && (a.Ok? && op.DoReadlink? ==> IsLink(s.objs, n.value))
    && (a.Ok? && op.DoSetAttr? ==> OnHost(s.mounts, w.value))
    && (s.quiet && a.Err? ==>
          if op.DoReadlink? then NoLink(SpaceAt(s), w, a.errno) || (w.Ok? && Seated(SpaceAt(s).seats, Components(w.value.abs)))
          else if op.DoSetAttr? then AttrFails(SpaceAt(s), s.mounts, w, a.errno)
          else n == Err(a.errno))
  }

  /** The tree changes with a success and not without one, but for a file that O_CREAT made on a host
      that then refused to open it. */
  ghost predicate Settles(s: Moment, op: Op, a: Result<()>, e: Edit)
    requires Orderly(s)
  {
    match op
    case DoOpen(_, _, _) => s.quiet && a.Err? ==> e == NoEdit
    case DoMake(_, _, _) => a.Ok? <==> e != NoEdit
    case DoLink(_, _, _, _, _) => a.Ok? <==> e != NoEdit
    case DoUnlink(_, _, _) => a.Ok? <==> e != NoEdit
    case DoRename(at, path, at2, newpath, _) =>
      if a.Ok? then RenameDone(SpaceAt(s), Named(s, at, path, PARENT), Named(s, at2, newpath, PARENT), e) else e == NoEdit
    case _ => e == NoEdit
  }

  ghost predicate Leads(s: Moment, op: Op, a: Result<()>, t: Moment) {
    Orderly(s) && Orderly(t) && exists e :: Follows(s, op, a, e, t)
  }

  lemma StoppedStands(m: Moment, op: Op)
    requires Orderly(m) && OnPaths(op) && Stopped(m.files, op).Some?
    ensures !Changes(m, op)
  {
    hide WalkText, NodeAt, SpaceAt, Orderly, Canonical;
  }

  /** The edit, whatever became of the descriptions and the working directory. */
  ghost predicate Edits(s: Moment, e: Edit, t: Moment) {
    && t.mounts == s.mounts && SeatsOf(t.mounts, t.live) == SeatsOf(s.mounts, s.live)
    && Accepts(s.objs, e) && t.objs == Apply(s.objs, e) && (s.quiet ==> t.quiet)
  }

  lemma Goes(s: Moment, op: Op, a: Result<()>, e: Edit, t: Moment)
    requires Orderly(s) && Edits(s, e, t) && Suits(s, op, e) && (e.Relocate? && IsSpace(SpaceAt(s)) ==> !IntoItself(s.objs, e))
    requires Files(s, op, a, e, t) && Directory(s, op, a, t) && Answered(s, op, a) && Settles(s, op, a, e)
    ensures Follows(s, op, a, e, t)
  {
    hide Answered, Suits, Orderly, IsSpace, SeatsOf, Accepts, Apply, Settles, Files, Directory, IntoItself;
    if !e.Relocate? { NotMoved(s.objs, e); }
  }

  /** Nothing done is something any operation may come to, but for the closing of what is open. */
  lemma Standing(s: Moment, op: Op, a: Result<()>, t: Moment)
    requires Orderly(s) && Edits(s, NoEdit, t) && !Changes(s, op) && Answered(s, op, a)
    requires a.Ok? ==> op.DoSetAttr? || op.DoTruncate? || op.DoStat? || op.DoReadlink? || op.DoSetFileAttr?
    requires t.files == s.files && t.cwd == s.cwd && (op.DoClose? || op.DoFchdir? ==> op.f !in s.files)
    ensures Follows(s, op, a, NoEdit, t)
  {
    hide Orderly, Edits, Changes, Answered, Follows, Named, SpaceAt, RenameDone, Describes;
    assert op.DoClose? ==> s.files - {op.f} == s.files;
    Goes(s, op, a, NoEdit, t);
  }

  /** The edit and nothing else. */
  lemma Edited(s: Moment, op: Op, a: Result<()>, e: Edit, t: Moment)
    requires Orderly(s) && Edits(s, e, t) && t.files == s.files && t.cwd == s.cwd && Answered(s, op, a) && Settles(s, op, a, e)
    requires op.DoMake? || op.DoLink? || op.DoUnlink? || op.DoRename?
    requires Suits(s, op, e) && (e.Relocate? && IsSpace(SpaceAt(s)) ==> !IntoItself(s.objs, e))
    ensures Follows(s, op, a, e, t)
  {
    hide Answered, Suits, Orderly, IsSpace, SpaceAt, Edits, Settles, IntoItself, Follows;
    Goes(s, op, a, e, t);
  }

  /** The edit, and a description if the open came to one. */
  lemma OpenGoes(s: Moment, at: At, path: string, m: OpenMode, b: Origin, permits: Permits, r: Result<nat>, e: Edit, t: Moment)
    requires Orderly(s) && Edits(s, e, t) && t.cwd == s.cwd && BaseOf(s.files, at, path) == Ok(b)
    requires e == NoEdit || (m.create && Founds(OpenAim(SpaceAt(s), s.mounts, s.cwd, b, path, m, permits, 0), e))
    requires (s.quiet || r.Ok?) && e == NoEdit ==> !ToMake(OpenAim(SpaceAt(s), s.mounts, s.cwd, b, path, m, permits, 0))
    requires r.Err? ==> t.files == s.files
    requires r.Err? && s.quiet ==> OpenAim(SpaceAt(s), s.mounts, s.cwd, b, path, m, permits, 0) == Err(r.errno) && e == NoEdit
    requires r.Ok? ==>
               && r.value !in s.files && r.value in t.files && t.files == s.files[r.value := t.files[r.value]]
               && Comes(OpenAim(SpaceAt(s), s.mounts, s.cwd, b, path, m, permits, 0), Ok(t.files[r.value]), e, t.live)
    ensures Follows(s, DoOpen(at, path, m), if r.Ok? then Ok(()) else Err(r.errno), e, t)
  {
    hide Orderly, OpenAim, Edits, SpaceAt, Comes, Answered, Follows, Suits, Describes, Founds, ToMake, BaseOf;
    var op, a := DoOpen(at, path, m), if r.Ok? then Ok(()) else Err(r.errno);
    OpenTells(s, at, path, m, b, permits, a);
    OpenSuits(s, at, path, m, b, permits, e);
    if r.Ok? {
      OpenDescribes(s, at, path, m, b, permits, r.value, e, t);
      assert Describes(s, op, e, t, r.value);
    }
    Goes(s, op, a, e, t);
  }

  lemma OpenTells(s: Moment, at: At, path: string, m: OpenMode, b: Origin, permits: Permits, a: Result<()>)
    requires Orderly(s) && BaseOf(s.files, at, path) == Ok(b)
    requires a.Err? && s.quiet ==> OpenAim(SpaceAt(s), s.mounts, s.cwd, b, path, m, permits, 0) == Err(a.errno)
    ensures Answered(s, DoOpen(at, path, m), a)
  {
    hide OpenAim, IsSpace, SeatsOf;
    MadeForAnyone(SpaceAt(s), s.mounts, s.cwd, b, path, m, permits, ANYONE, 0);
    MadeForAnyone(SpaceAt(s), s.mounts, s.cwd, b, path, m, permits, NOBODY, 0);
  }

  lemma OpenSuits(s: Moment, at: At, path: string, m: OpenMode, b: Origin, permits: Permits, e: Edit)
    requires Orderly(s) && BaseOf(s.files, at, path) == Ok(b)
    requires e == NoEdit || (m.create && Founds(OpenAim(SpaceAt(s), s.mounts, s.cwd, b, path, m, permits, 0), e))
    requires s.quiet && e == NoEdit ==> !ToMake(OpenAim(SpaceAt(s), s.mounts, s.cwd, b, path, m, permits, 0))
    ensures Suits(s, DoOpen(at, path, m), e) && (e == NoEdit || e.Make?)
  {
    hide OpenAim, IsSpace, SeatsOf;
    MadeForAnyone(SpaceAt(s), s.mounts, s.cwd, b, path, m, permits, ANYONE, 0);
    MadeForAnyone(SpaceAt(s), s.mounts, s.cwd, b, path, m, ANYONE, permits, 0);
  }

  lemma OpenDescribes(s: Moment, at: At, path: string, m: OpenMode, b: Origin, permits: Permits, f: nat, e: Edit, t: Moment)
    requires Orderly(s) && BaseOf(s.files, at, path) == Ok(b)
    requires f !in s.files && f in t.files && t.files == s.files[f := t.files[f]]
    requires Comes(OpenAim(SpaceAt(s), s.mounts, s.cwd, b, path, m, permits, 0), Ok(t.files[f]), e, t.live)
    ensures Describes(s, DoOpen(at, path, m), e, t, f)
  {
    hide OpenAim, IsSpace, SeatsOf, Comes;
    CameOk(OpenAim(SpaceAt(s), s.mounts, s.cwd, b, path, m, permits, 0), Ok(t.files[f]), e, t.live);
    MadeForAnyone(SpaceAt(s), s.mounts, s.cwd, b, path, m, permits, ANYONE, 0);
  }

  lemma CameOk(a: Result<Aim>, r: Result<Description>, e: Edit, live: map<Handle, NodeId>)
    requires Comes(a, r, e, live) && r.Ok?
    ensures a.Ok?
  {
  }

  lemma OnFileGoes(s: Moment, op: Op, a: Result<()>, t: Moment)
    requires Orderly(s) && Edits(s, NoEdit, t) && !OnPaths(op) && Answered(s, op, a)
    requires op.f in s.files && t.files == if op.DoClose? then s.files - {op.f} else s.files
    requires t.cwd == if op.DoFchdir? && s.files[op.f].kind in {HostFolder, ProcFile, ProcDir} then s.files[op.f].path else s.cwd
    ensures Follows(s, op, a, NoEdit, t)
  {
    hide Orderly, Edits, SpaceAt, Answered, Follows, Named, Describes;
    Goes(s, op, a, NoEdit, t);
  }

  lemma ChdirGoes(s: Moment, at: At, path: string, b: Origin, permits: Permits, r: Result<()>, t: Moment)
    requires Orderly(s) && Edits(s, NoEdit, t) && t.files == s.files && BaseOf(s.files, at, path) == Ok(b)
    requires var w := PathAnswer(SpaceAt(s), s.cwd, b, path, PLAIN_WALK.(mustdir := true));
             && (if r.Ok? then w.Ok? && t.cwd == w.value.abs else t.cwd == s.cwd)
             && (s.quiet || r.Ok? ==> r == ChdirAnswer(SpaceAt(s), w, permits))
    ensures Follows(s, DoChdir(at, path), r, NoEdit, t)
  {
    hide Orderly, Edits, SpaceAt, Answered, Follows, Named, Describes, PathAnswer, BaseOf, ChdirAnswer;
    NamedAs(s, at, path, b, PLAIN_WALK.(mustdir := true));
    ChdirTells(s, at, path, b, permits, r);
    Goes(s, DoChdir(at, path), r, NoEdit, t);
  }

  lemma ChdirTells(s: Moment, at: At, path: string, b: Origin, permits: Permits, r: Result<()>)
    requires Orderly(s) && BaseOf(s.files, at, path) == Ok(b)
    requires s.quiet || r.Ok? ==> r == ChdirAnswer(SpaceAt(s), Named(s, at, path, PLAIN_WALK.(mustdir := true)), permits)
    ensures Answered(s, DoChdir(at, path), r)
  {
    hide IsSpace, SeatsOf, Named, NodeAt;
  }

  lemma TruncateGoes(s: Moment, at: At, path: string, b: Origin, permits: Permits, a: Result<()>, t: Moment)
    requires Orderly(s) && Edits(s, NoEdit, t) && t.files == s.files && t.cwd == s.cwd && BaseOf(s.files, at, path) == Ok(b)
    requires s.quiet || a.Ok? ==> a == TruncateAnswer(OpenAim(SpaceAt(s), s.mounts, s.cwd, b, path, FOR_WRITING, permits, 0))
    ensures Follows(s, DoTruncate(at, path), a, NoEdit, t)
  {
    hide OpenAim, IsSpace, SeatsOf, Edits, Follows;
    MadeForAnyone(SpaceAt(s), s.mounts, s.cwd, b, path, FOR_WRITING, permits, ANYONE, 0);
    MadeForAnyone(SpaceAt(s), s.mounts, s.cwd, b, path, FOR_WRITING, permits, NOBODY, 0);
    Standing(s, DoTruncate(at, path), a, t);
  }

  /** An operation that looks at what its path leads to. */
  lemma LookGoes(s: Moment, op: Op, b: Origin, flags: WalkFlags, a: Result<()>, t: Moment)
    requires Orderly(s) && Edits(s, NoEdit, t) && t.files == s.files && t.cwd == s.cwd && (op.DoSetAttr? || op.DoStat? || op.DoReadlink?)
    requires BaseOf(s.files, op.at, op.path) == Ok(b)
    requires flags == if op.DoReadlink? then PLAIN_WALK.(nofollow := true) else PLAIN_WALK.(nofollow := !op.follow)
    requires Sees(s, op, PathAnswer(SpaceAt(s), s.cwd, b, op.path, flags), a)
    ensures Follows(s, op, a, NoEdit, t)
  {
    hide Orderly, PathAnswer, SpaceAt, Named, Sees, Edits, Follows, BaseOf;
    NamedAs(s, op.at, op.path, b, flags);
    LookTells(s, op, b, flags, a);
    hide Answered;
    Standing(s, op, a, t);
  }

  lemma LookTells(s: Moment, op: Op, b: Origin, flags: WalkFlags, a: Result<()>)
    requires Orderly(s) && (op.DoSetAttr? || op.DoStat? || op.DoReadlink?) && BaseOf(s.files, op.at, op.path) == Ok(b)
    requires flags == if op.DoReadlink? then PLAIN_WALK.(nofollow := true) else PLAIN_WALK.(nofollow := !op.follow)
    requires Sees(s, op, Named(s, op.at, op.path, flags), a)
    ensures Answered(s, op, a)
  {
    hide Orderly, BaseOf, SpaceAt, Named, Sees, NodeAt, Aimed, MakeAnswer, LinkAnswer, UnlinkAnswer, RenameAnswer, ChdirAnswer, TruncateAnswer;
  }

  lemma MakeGoes(s: Moment, at: At, path: string, what: NewObject, b: Origin, r: Result<()>, e: Edit, t: Moment)
    requires Orderly(s) && Edits(s, e, t) && t.files == s.files && t.cwd == s.cwd && BaseOf(s.files, at, path) == Ok(b)
    requires if r.Ok? then Makes(SpaceAt(s), PathAnswer(SpaceAt(s), s.cwd, b, path, PARENT), what, e) else e == NoEdit
    requires s.quiet || r.Ok? ==> r == MakeAnswer(SpaceAt(s), s.mounts, PathAnswer(SpaceAt(s), s.cwd, b, path, PARENT), what)
    ensures Follows(s, DoMake(at, path, what), r, e, t)
  {
    hide PathAnswer, IsSpace, Edits, Follows, NodeAt, MakeAnswer;
    NamedAs(s, at, path, b, PARENT);
    assert Settles(s, DoMake(at, path, what), r, e);
    Edited(s, DoMake(at, path, what), r, e, t);
  }

  lemma UnlinkGoes(s: Moment, at: At, path: string, rmdir: bool, b: Origin, r: Result<()>, e: Edit, t: Moment)
    requires Orderly(s) && Edits(s, e, t) && t.files == s.files && t.cwd == s.cwd && BaseOf(s.files, at, path) == Ok(b)
    requires if r.Ok? then Removes(SpaceAt(s), PathAnswer(SpaceAt(s), s.cwd, b, path, PARENT), e) else e == NoEdit
    requires s.quiet || r.Ok? ==> r == UnlinkAnswer(SpaceAt(s), s.mounts, PathAnswer(SpaceAt(s), s.cwd, b, path, PARENT), path, rmdir)
    ensures Follows(s, DoUnlink(at, path, rmdir), r, e, t)
  {
    hide PathAnswer, IsSpace, Edits, Follows, NodeAt, UnlinkAnswer;
    NamedAs(s, at, path, b, PARENT);
    Edited(s, DoUnlink(at, path, rmdir), r, e, t);
  }

  lemma UnlinkStops(s: Moment, at: At, path: string, rmdir: bool, b: Origin)
    requires Orderly(s) && BaseOf(s.files, at, path) == Ok(b)
    requires Unfit(s.mounts, PathAnswer(SpaceAt(s), s.cwd, b, path, PARENT))
    ensures UndefinedAt(s, DoUnlink(at, path, rmdir))
  {
    hide PathAnswer, Unfit;
    NamedAs(s, at, path, b, PARENT);
  }

  lemma LinkGoes(s: Moment, op: Op, b: Origin, nb: Origin, r: Result<()>, e: Edit, t: Moment)
    requires op.DoLink? && op.path != "" && Orderly(s) && Edits(s, e, t) && t.files == s.files && t.cwd == s.cwd
    requires BaseOf(s.files, op.at, op.path) == Ok(b) && BaseOf(s.files, op.at2, op.newpath) == Ok(nb)
    requires if r.Ok? then e.Tie? else e == NoEdit
    requires var a := LinkAnswer(SpaceAt(s), s.mounts, PathAnswer(SpaceAt(s), s.cwd, b, op.path, PLAIN_WALK.(nofollow := !op.follow)),
                                 PathAnswer(SpaceAt(s), s.cwd, nb, op.newpath, PARENT));
             (r.Ok? ==> a == Ok(e)) && (s.quiet && r.Err? ==> a == Err(r.errno))
    ensures Follows(s, op, r, e, t)
  {
    hide PathAnswer, LinkAnswer, IsSpace, Edits, Follows, NodeAt;
    NamedAs(s, op.at, op.path, b, PLAIN_WALK.(nofollow := !op.follow));
    NamedAs(s, op.at2, op.newpath, nb, PARENT);
    assert Stopped(s.files, op) == None;
    assert Tells(s, op, r);
    Edited(s, op, r, e, t);
  }

  lemma LinkStops(s: Moment, op: Op, b: Origin, nb: Origin)
    requires op.DoLink? && Orderly(s)
    requires BaseOf(s.files, op.at, op.path) == Ok(b) && BaseOf(s.files, op.at2, op.newpath) == Ok(nb)
    requires LinkAnswer(SpaceAt(s), s.mounts, PathAnswer(SpaceAt(s), s.cwd, b, op.path, PLAIN_WALK.(nofollow := !op.follow)),
                        PathAnswer(SpaceAt(s), s.cwd, nb, op.newpath, PARENT)) == Err(Unspecified)
    ensures UndefinedAt(s, op)
  {
    hide PathAnswer, LinkAnswer;
    NamedAs(s, op.at, op.path, b, PLAIN_WALK.(nofollow := !op.follow));
    NamedAs(s, op.at2, op.newpath, nb, PARENT);
  }

  lemma RenameGoes(s: Moment, op: Op, b: Origin, nb: Origin, r: Result<()>, e: Edit, t: Moment)
    requires op.DoRename? && Orderly(s) && Edits(s, e, t) && t.files == s.files && t.cwd == s.cwd
    requires BaseOf(s.files, op.at, op.path) == Ok(b) && BaseOf(s.files, op.at2, op.newpath) == Ok(nb)
    requires var ow, nw := PathAnswer(SpaceAt(s), s.cwd, b, op.path, PARENT), PathAnswer(SpaceAt(s), s.cwd, nb, op.newpath, PARENT);
             && (if r.Ok? then RenameDone(SpaceAt(s), ow, nw, e) else e == NoEdit)
             && (s.quiet ==> r == RenameAnswer(SpaceAt(s), s.mounts, ow, nw, op.noreplace))
    requires IsSpace(SpaceAt(s)) ==> IsTree(t.objs)
    ensures Follows(s, op, r, e, t)
  {
    SpaceTree(SpaceAt(s));
    hide PathAnswer, Relocates, SamePath, RenameAnswer, IsSpace, Follows, NodeAt, IsTree, Apply, Accepts, IntoItself;
    NamedAs(s, op.at, op.path, b, PARENT);
    NamedAs(s, op.at2, op.newpath, nb, PARENT);
    if IsSpace(SpaceAt(s)) { EditKeepsTree(s.objs, e); }
    Edited(s, op, r, e, t);
  }

  lemma RenameStops(s: Moment, op: Op, b: Origin, nb: Origin)
    requires op.DoRename? && Orderly(s)
    requires BaseOf(s.files, op.at, op.path) == Ok(b) && BaseOf(s.files, op.at2, op.newpath) == Ok(nb)
    requires UnfitPair(s.mounts, PathAnswer(SpaceAt(s), s.cwd, b, op.path, PARENT), PathAnswer(SpaceAt(s), s.cwd, nb, op.newpath, PARENT))
    ensures UndefinedAt(s, op)
  {
    hide PathAnswer, UnfitPair;
    NamedAs(s, op.at, op.path, b, PARENT);
    NamedAs(s, op.at2, op.newpath, nb, PARENT);
  }

  lemma NotMoved(objs: Objects, e: Edit)
    requires Accepts(objs, e) && !e.Relocate?
    ensures !IntoItself(objs, e)
  {
  }

  lemma SpaceTree(sp: Space)
    ensures IsSpace(sp) ==> IsTree(sp.objs)
  {
  }

  lemma NamedAs(m: Moment, at: At, path: string, b: Origin, flags: WalkFlags)
    requires Orderly(m) && BaseOf(m.files, at, path) == Ok(b)
    ensures Named(m, at, path, flags) == PathAnswer(SpaceAt(m), m.cwd, b, path, flags)
  {
    hide PathAnswer;
  }

  // ---- the operations ----

  method Idle(v: Vfs, op: Op) returns (a: Result<()>, ghost e: Edit)
    requires v.Valid() && AllInOrder(v.files) && OnPaths(op) && Stopped(v.files, op).Some?
    ensures a == Err(Stopped(v.files, op).value)
    ensures v.Valid() && Orderly(old(Now(v))) && Follows(old(Now(v)), op, a, e, Now(v))
  {
    e := NoEdit;
    Ordered(v);
    StoppedStands(Now(v), op);
    a := Err(Stopped(v.files, op).value);
    Standing(Now(v), op, a, Now(v));
  }

  method RunOpen(v: Vfs, at: At, path: string, m: OpenMode, permits: Permits) returns (r: Result<nat>, ghost e: Edit)
    requires v.Valid()
    modifies v, v.fs.host
    ensures v.Valid() && Orderly(old(Now(v)))
    ensures Follows(old(Now(v)), DoOpen(at, path, m), if r.Ok? then Ok(()) else Err(r.errno), e, Now(v))
    ensures r.Err? ==> v.files == old(v.files)
    ensures r.Ok? ==> r.value !in old(v.files) && r.value in v.files && v.files == old(v.files)[r.value := v.files[r.value]]
  {
    hide Vfs.Valid, Comes, OpenAim, OpensOr, Apply, Accepts, IsSpace, Orderly, Follows, SeatsOf, ValidSeats, Founds;
    Ordered(v);
    v.Seating();
    ghost var s := Now(v);
    var b := BaseOf(v.files, at, path);
    if b.Err? {
      var a;
      a, e := Idle(v, DoOpen(at, path, m));
      return Err(b.errno), e;
    }
    assert ValidSeats(SpaceAt(s).seats);
    r, e := v.Open(b.value, path, m, permits);
    OpenGoes(s, at, path, m, b.value, permits, r, e, Now(v));
  }

  method RunMake(v: Vfs, at: At, path: string, what: NewObject) returns (a: Result<()>, ghost e: Edit)
    requires v.Valid()
    modifies v.fs.host
    ensures v.Valid() && Orderly(old(Now(v))) && Follows(old(Now(v)), DoMake(at, path, what), a, e, Now(v))
  {
    hide PathAnswer, Apply, Accepts, IsSpace, Orderly, Vfs.Valid, Follows, UndefinedAt, SeatsOf, ValidSeats, MakeAnswer, Makes;
    Ordered(v);
    v.Seating();
    ghost var s := Now(v);
    var b := BaseOf(v.files, at, path);
    if b.Err? { a, e := Idle(v, DoMake(at, path, what)); return; }
    assert ValidSeats(SpaceAt(s).seats);
    a, e := v.MakeNew(b.value, path, what);
    MakeGoes(s, at, path, what, b.value, a, e, Now(v));
  }

  method RunLink(v: Vfs, at: At, path: string, at2: At, newpath: string, follow: bool) returns (sure: bool, a: Result<()>, ghost e: Edit)
    requires v.Valid()
    modifies v.fs.host
    ensures Orderly(old(Now(v)))
    ensures sure ==> v.Valid() && Follows(old(Now(v)), DoLink(at, path, at2, newpath, follow), a, e, Now(v))
    ensures !sure ==> UndefinedAt(old(Now(v)), DoLink(at, path, at2, newpath, follow))
  {
    hide PathAnswer, Apply, Accepts, IsSpace, Orderly, Vfs.Valid, Follows, UndefinedAt, SeatsOf, ValidSeats, LinkAnswer;
    Ordered(v);
    v.Seating();
    ghost var s := Now(v);
    var b, nb := BaseOf(v.files, at, path), BaseOf(v.files, at2, newpath);
    if b.Err? || path == "" || nb.Err? {
      a, e := Idle(v, DoLink(at, path, at2, newpath, follow));
      return true, a, e;
    }
    assert ValidSeats(SpaceAt(s).seats);
    a, e := v.Link(b.value, path, nb.value, newpath, follow);
    sure := a != Err(Unspecified);
    if sure {
      LinkGoes(s, DoLink(at, path, at2, newpath, follow), b.value, nb.value, a, e, Now(v));
    } else {
      LinkStops(s, DoLink(at, path, at2, newpath, follow), b.value, nb.value);
    }
  }

  method RunUnlink(v: Vfs, at: At, path: string, rmdir: bool) returns (sure: bool, a: Result<()>, ghost e: Edit)
    requires v.Valid()
    modifies v.fs.host
    ensures Orderly(old(Now(v)))
    ensures sure ==> v.Valid() && Follows(old(Now(v)), DoUnlink(at, path, rmdir), a, e, Now(v))
    ensures !sure ==> UndefinedAt(old(Now(v)), DoUnlink(at, path, rmdir))
  {
    hide PathAnswer, Apply, Accepts, IsSpace, Orderly, Vfs.Valid, Follows, UndefinedAt, SeatsOf, ValidSeats, UnlinkAnswer, Removes, Unfit;
    Ordered(v);
    v.Seating();
    ghost var s := Now(v);
    var b := BaseOf(v.files, at, path);
    if b.Err? {
      a, e := Idle(v, DoUnlink(at, path, rmdir));
      return true, a, e;
    }
    assert ValidSeats(SpaceAt(s).seats);
    a, e := v.Unlink(b.value, path, rmdir);
    sure := a != Err(Unspecified);
    if sure {
      UnlinkGoes(s, at, path, rmdir, b.value, a, e, Now(v));
    } else {
      UnlinkStops(s, at, path, rmdir, b.value);
    }
  }

  method RunRename(v: Vfs, at: At, path: string, at2: At, newpath: string, noreplace: bool) returns (sure: bool, a: Result<()>, ghost e: Edit)
    requires v.Valid()
    modifies v.fs.host
    ensures Orderly(old(Now(v)))
    ensures sure ==> v.Valid() && Follows(old(Now(v)), DoRename(at, path, at2, newpath, noreplace), a, e, Now(v))
    ensures !sure ==> UndefinedAt(old(Now(v)), DoRename(at, path, at2, newpath, noreplace))
  {
    hide PathAnswer, Apply, Accepts, IsSpace, Orderly, Vfs.Valid, Follows, UndefinedAt, SeatsOf, ValidSeats;
    hide RenameAnswer, RenameDone, UnfitPair, IsTree;
    Ordered(v);
    v.Seating();
    ghost var s := Now(v);
    var b, nb := BaseOf(v.files, at, path), BaseOf(v.files, at2, newpath);
    if b.Err? || nb.Err? {
      a, e := Idle(v, DoRename(at, path, at2, newpath, noreplace));
      return true, a, e;
    }
    assert ValidSeats(SpaceAt(s).seats);
    a, e := v.Rename(b.value, path, nb.value, newpath, noreplace);
    sure := a != Err(Unspecified);
    if sure {
      RenameGoes(s, DoRename(at, path, at2, newpath, noreplace), b.value, nb.value, a, e, Now(v));
    } else {
      RenameStops(s, DoRename(at, path, at2, newpath, noreplace), b.value, nb.value);
    }
  }

  method RunAttr(v: Vfs, at: At, path: string, follow: bool, permits: Permits, truncate: bool) returns (a: Result<()>, ghost e: Edit)
    requires v.Valid()
    modifies v, v.fs.host
    ensures v.Valid() && Orderly(old(Now(v)))
    ensures Follows(old(Now(v)), if truncate then DoTruncate(at, path) else DoSetAttr(at, path, follow), a, e, Now(v))
  {
    hide PathAnswer, NodeAt, IsSpace, Orderly, Vfs.Valid, Follows;
    e := NoEdit;
    Ordered(v);
    v.Seating();
    ghost var s := Now(v);
    var op := if truncate then DoTruncate(at, path) else DoSetAttr(at, path, follow);
    var b := BaseOf(v.files, at, path);
    if b.Err? { a, e := Idle(v, op); return; }
    if truncate {
      a := v.Truncate(b.value, path, permits);
      TruncateGoes(s, at, path, b.value, permits, a, Now(v));
    } else {
      ghost var n;
      a, n := v.SetAttr(b.value, path, follow);
      LookGoes(s, op, b.value, PLAIN_WALK.(nofollow := !follow), a, Now(v));
    }
  }

  method RunChdir(v: Vfs, at: At, path: string, permits: Permits) returns (a: Result<()>, ghost e: Edit)
    requires v.Valid()
    modifies v.fs, v.fs.host
    ensures v.Valid() && Orderly(old(Now(v))) && Follows(old(Now(v)), DoChdir(at, path), a, e, Now(v))
  {
    hide PathAnswer, ChdirAnswer, IsSpace, Orderly, Vfs.Valid, Follows, SeatsOf, ValidSeats;
    e := NoEdit;
    Ordered(v);
    v.Seating();
    ghost var s := Now(v);
    var b := BaseOf(v.files, at, path);
    if b.Err? { a, e := Idle(v, DoChdir(at, path)); return; }
    assert ValidSeats(SpaceAt(s).seats);
    a := v.Chdir(b.value, path, permits);
    ChdirGoes(s, at, path, b.value, permits, a, Now(v));
  }

  method RunLook(v: Vfs, at: At, path: string, follow: bool, readlink: bool) returns (a: Result<()>, ghost e: Edit)
    requires v.Valid()
    modifies v.fs.host
    ensures v.Valid() && Orderly(old(Now(v)))
    ensures Follows(old(Now(v)), if readlink then DoReadlink(at, path) else DoStat(at, path, follow), a, e, Now(v))
  {
    hide PathAnswer, NodeAt, IsSpace, Orderly, Vfs.Valid, Follows;
    e := NoEdit;
    Ordered(v);
    v.Seating();
    ghost var s := Now(v);
    var op := if readlink then DoReadlink(at, path) else DoStat(at, path, follow);
    var b := BaseOf(v.files, at, path);
    if b.Err? { a, e := Idle(v, op); return; }
    if readlink {
      var r := v.Readlink(b.value, path);
      a := if r.Ok? then Ok(()) else Err(r.errno);
      LookGoes(s, op, b.value, PLAIN_WALK.(nofollow := true), a, Now(v));
    } else {
      var r := v.Stat(b.value, path, follow);
      a := if r.Ok? then Ok(()) else Err(r.errno);
      LookGoes(s, op, b.value, PLAIN_WALK.(nofollow := !follow), a, Now(v));
    }
  }

  /** An operation on a description. */
  method RunOnFile(v: Vfs, op: Op) returns (a: Result<()>, ghost e: Edit)
    requires v.Valid() && !OnPaths(op)
    modifies v, v.fs, v.fs.host
    ensures v.Valid() && Orderly(old(Now(v))) && Follows(old(Now(v)), op, a, e, Now(v))
  {
    hide IsSpace, Orderly, Vfs.Valid, SeatsOf, Follows;
    e := NoEdit;
    Ordered(v);
    ghost var s := Now(v);
    if op.f !in v.files {
      a := Err(EBADF);
      Standing(s, op, a, s);
      return;
    }
    v.Seating();
    a := Ok(());
    if op.DoClose? {
      v.CloseFile(op.f);
    } else if op.DoSetFileAttr? {
      ghost var n;
      a, n := v.SetFileAttr(op.f);
    } else {
      a := v.Fchdir(op.f);
    }
    OnFileGoes(s, op, a, Now(v));
  }

  /** Any one operation; `sure` unless it goes on with a path the code could not build. */
  method Do(v: Vfs, op: Op, permits: Permits) returns (sure: bool, a: Result<()>, ghost e: Edit)
    requires v.Valid()
    modifies v, v.fs, v.fs.host
    ensures Orderly(old(Now(v)))
    ensures sure ==> v.Valid() && Follows(old(Now(v)), op, a, e, Now(v))
    ensures !sure ==> UndefinedAt(old(Now(v)), op)
  {
    hide Vfs.Valid, Follows, UndefinedAt, Orderly;
    sure := true;
    match op
    case DoOpen(at, path, m) =>
      var r;
      r, e := RunOpen(v, at, path, m, permits);
      a := if r.Ok? then Ok(()) else Err(r.errno);
    case DoMake(at, path, what) => a, e := RunMake(v, at, path, what);
    case DoLink(at, path, at2, newpath, follow) => sure, a, e := RunLink(v, at, path, at2, newpath, follow);
    case DoUnlink(at, path, rmdir) => sure, a, e := RunUnlink(v, at, path, rmdir);
    case DoRename(at, path, at2, newpath, noreplace) => sure, a, e := RunRename(v, at, path, at2, newpath, noreplace);
    case DoSetAttr(at, path, follow) => a, e := RunAttr(v, at, path, follow, permits, false);
    case DoTruncate(at, path) => a, e := RunAttr(v, at, path, false, permits, true);
    case DoChdir(at, path) => a, e := RunChdir(v, at, path, permits);
    case DoStat(at, path, follow) => a, e := RunLook(v, at, path, follow, false);
    case DoReadlink(at, path) => a, e := RunLook(v, at, path, false, true);
    case DoClose(_) => a, e := RunOnFile(v, op);
    case DoSetFileAttr(_) => a, e := RunOnFile(v, op);
    case DoFchdir(_) => a, e := RunOnFile(v, op);
  }

  // ---- any run ----

  /** The moments of a run: each in order, each come to from the one before by its operation and answer,
      and each sound if the first one was. */
  ghost predicate Traced(log: seq<Moment>, ops: seq<Op>, said: seq<Result<()>>) {
    && 0 < |log| <= |ops| + 1 && |said| == |log| - 1
    && (forall i :: 0 <= i < |log| ==> Orderly(log[i]) && (Sound(SpaceAt(log[0])) ==> Sound(SpaceAt(log[i]))))
    && (forall i :: 0 <= i < |log| - 1 ==> Leads(log[i], ops[i], said[i], log[i + 1]))
  }

  lemma Begun(m: Moment, ops: seq<Op>)
    requires Orderly(m)
    ensures Traced([m], ops, [])
  {
  }

  lemma LeadsOn(s: Moment, op: Op, a: Result<()>, e: Edit, t: Moment)
    requires Orderly(s) && Follows(s, op, a, e, t) && Orderly(t)
    ensures Leads(s, op, a, t)
  {
    hide Orderly, Follows;
  }

  lemma Extended(log: seq<Moment>, ops: seq<Op>, said: seq<Result<()>>, a: Result<()>, e: Edit, m: Moment)
    requires Traced(log, ops, said) && |log| <= |ops| && Orderly(m)
    requires Follows(log[|log| - 1], ops[|log| - 1], a, e, m)
    ensures Traced(log + [m], ops, said + [a])
  {
    var n := |log| - 1;
    hide Orderly, Sound, Follows, Leads, SpaceAt;
    SoundOn(log[n], ops[n], a, e, m);
    LeadsOn(log[n], ops[n], a, e, m);
    var longer, more := log + [m], said + [a];
    forall i | 0 <= i < |longer| - 1 ensures Leads(longer[i], ops[i], more[i], longer[i + 1]) {
      if i < n { assert longer[i] == log[i] && longer[i + 1] == log[i + 1] && more[i] == said[i]; }
    }
  }

  lemma SoundOn(s: Moment, op: Op, a: Result<()>, e: Edit, t: Moment)
    requires Orderly(s) && Follows(s, op, a, e, t)
    ensures Sound(SpaceAt(s)) ==> Sound(SpaceAt(t))
  {
    hide Orderly, Accepts, Apply, IntoItself, IsTree, SeatsOf, Suits, Files, Directory, Answered;
    if Sound(SpaceAt(s)) { EditKeepsSound(SpaceAt(s), e); }
  }

  /** Over every run, at every moment up to the end or to an operation that is undefined: the
      open host handles are exactly the mount roots and those of live descriptions, every
      recorded path and the working directory are canonical, the host tree stays a tree, and
      the operations have done and answered what their paths call for, or nothing. The run ends early only
      at a moment in which the next operation is undefined. */
  method Run(v: Vfs, ops: seq<Op>, permits: Permits) returns (done: nat, said: seq<Result<()>>, ghost log: seq<Moment>)
    requires v.Valid()
    modifies v, v.fs, v.fs.host
    ensures done <= |ops| && |log| == done + 1 && Traced(log, ops, said) && log[0] == old(Now(v))
    ensures done < |ops| ==> UndefinedAt(log[done], ops[done])
    ensures done == |ops| ==> v.Valid() && Now(v) == log[done]
  {
    hide Vfs.Valid, Traced, Orderly, UndefinedAt, Follows;
    Ordered(v);
    log, said := [Now(v)], [];
    Begun(Now(v), ops);
    done := 0;
    while done < |ops|
      invariant 0 <= done <= |ops| && v.Valid() && Traced(log, ops, said) && |log| == done + 1
      invariant log[0] == old(Now(v)) && log[done] == Now(v) && Orderly(log[done])
    {
      var sure, a;
      ghost var e;
      sure, a, e := Do(v, ops[done], permits);
      if !sure { return; }
      Ordered(v);
      Extended(log, ops, said, a, e, Now(v));
      log, said := log + [Now(v)], said + [a];
      done := done + 1;
    }
  }

  /** With no description left, what is open is the mount roots, each open once. */
  lemma OnlyRoots(v: Vfs)
    requires v.Valid() && v.files == map[]
    ensures v.fs.host.Valid() && RootsOpen(v.fs.mounts, v.fs.host.live) && v.fs.host.live.Keys == Roots(v.fs.mounts)
    ensures forall j, k :: 0 <= j < k < |v.fs.mounts| && v.fs.mounts[j].HostMount? && v.fs.mounts[k].HostMount? ==>
              v.fs.mounts[j].root != v.fs.mounts[k].root
  {
    hide ValidSeats, Canonical;
    assert Handles(v.files) == {};
  }

  /** Close every description, then let the mounts go: nothing is left open. */
  method Shutdown(v: Vfs)
    requires v.Valid()
    modifies v, v.fs, v.fs.host
    ensures v.files == map[] && v.fs.host.live == map[]
  {
    hide Vfs.Valid, RootsOpen;
    while v.files != map[]
      invariant v.Valid() && v.fs.mounts == old(v.fs.mounts)
      decreases |v.files|
    {
      var f :| f in v.files;
      v.CloseFile(f);
    }
    OnlyRoots(v);
    v.fs.Release();
    assert v.fs.host.live.Keys == {};
  }
}
