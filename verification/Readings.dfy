/** What the operations and system calls of a run did and answered, read off the tree, the working
    directory and the descriptors: where a path given with a descriptor starts, what it leads to, and
    what became of that. */
module Readings {
  import D = Descriptors
  import R = Runs
  import S = Syscalls
  import opened Basics
  import opened Errors
  import opened Paths
  import opened Trees
  import opened TreeEdits
  import opened Spaces
  import opened Resolution
  import opened Hosts
  import opened Walks
  import opened Naming
  import opened Openings
  import opened VfsOps
  import opened Outcomes

  // ---- where a path starts ----

  /** The directory a path starts at: the root if it is absolute; else the working directory, or the
      directory a description was opened on. */
  function From(m: R.Moment, at: R.At, path: string): Result<string>
    requires path != ""
  {
    if path[0] == '/' then Ok("/")
    else match at
      case AtCwd => Ok(m.cwd)
      case AtNone => Err(EBADF)
      case AtPipe => Err(ENOTDIR)
      case AtFile(f) =>
        if f !in m.files then Err(EBADF)
        else if m.files[f].kind.HostFolder? || m.files[f].kind.ProcDir? || m.files[f].kind.DevDir? then Ok(m.files[f].path)
        else Err(ENOTDIR)
  }

  /** What the path leads to. */
  ghost function Means(m: R.Moment, at: R.At, path: string, want: Want): Result<Found>
    requires path != "" && ValidSeats(R.SpaceAt(m).seats)
  {
    match From(m, at, path)
    case Err(e) => Err(e)
    case Ok(dir) => Leads(R.SpaceAt(m), dir, path, want)
  }

  /** If it starts anywhere, every directory on the way there is in place. */
  ghost predicate Starts(m: R.Moment, at: R.At, path: string) {
    && path != "" && IsSpace(R.SpaceAt(m))
    && (From(m, at, path).Ok? ==> Begins(R.SpaceAt(m), From(m, at, path).value, path))
  }

  lemma NamedMeans(m: R.Moment, at: R.At, path: string, flags: WalkFlags)
    requires R.Orderly(m) && Starts(m, at, path)
    ensures From(m, at, path).Err? ==> R.BaseOf(m.files, at, path) == Err(From(m, at, path).errno)
    ensures From(m, at, path).Ok? ==> R.BaseOf(m.files, at, path).Ok?
    ensures var w := R.Named(m, at, path, flags);
            w != Err(ENAMETOOLONG) ==>
              Finds(R.SpaceAt(m), w, Means(m, at, path, Want(!flags.nofollow, flags.mustdir, flags.parent, false)), flags.parent)
  {
    hide PathAnswer, Leads, IsSpace, Finds, Begins, SeatsOf;
    var b := R.BaseOf(m.files, at, path);
    SeatsOfSpace(R.SpaceAt(m));
    if b.Ok? {
      R.NamedAs(m, at, path, b.value, flags);
      RootedAnywhere(R.SpaceAt(m), m.cwd, path);
      RootedAnywhere(R.SpaceAt(m), "/", path);
      var want := Want(!flags.nofollow, flags.mustdir, flags.parent, false);
      SameLead(R.SpaceAt(m), DirOf(m.cwd, b.value), From(m, at, path).value, path, want);
      WalkFinds(R.SpaceAt(m), m.cwd, b.value, path, flags);
    } else {
      NotFound(R.SpaceAt(m), b.errno, flags.parent);
    }
  }

  lemma NotFound(sp: Space, e: Errno, parent: bool)
    requires ValidSeats(sp.seats)
    ensures Finds(sp, Err(e), Err(e), parent)
  {
  }

  lemma RootedAnywhere(sp: Space, dir: string, path: string)
    requires ValidSeats(sp.seats) && path != ""
    ensures path[0] == '/' ==> Begins(sp, dir, path)
  {
  }

  lemma SameLead(sp: Space, dir: string, other: string, path: string, want: Want)
    requires ValidSeats(sp.seats) && path != "" && (path[0] == '/' || dir == other)
    ensures Leads(sp, dir, path, want) == Leads(sp, other, path, want)
  {
    hide Resolve;
  }

  // ---- what an operation did ----

  /** A path with nowhere to start is refused with that errno, and nothing happens. */
  lemma StartFails(s: R.Moment, op: R.Op, a: Result<()>, e: Edit, t: R.Moment)
    requires R.Orderly(s) && R.OnPaths(op) && Starts(s, op.at, op.path) && R.Follows(s, op, a, e, t)
    ensures From(s, op.at, op.path).Err? ==>
              a == Err(From(s, op.at, op.path).errno) && e == NoEdit && t.files == s.files && t.cwd == s.cwd
  {
    hide PathAnswer, IsSpace, Begins, ValidSeats, Owned, Accepts, Apply, IntoItself, SeatsOf, NodeAt, Finds, Comes, OpenAim;
    NamedMeans(s, op.at, op.path, PARENT);
    NamedMeans(s, op.at, op.path, PLAIN_WALK.(mustdir := true));
    if From(s, op.at, op.path).Err? { R.StoppedStands(s, op); }
  }

  /** mkdir, symlink and mknod make the object under the name the path leads to. */
  lemma MakeMeans(s: R.Moment, op: R.Op, a: Result<()>, e: Edit, t: R.Moment)
    requires op.DoMake? && R.Orderly(s) && Starts(s, op.at, op.path) && R.Follows(s, op, a, e, t)
    ensures var x := Means(s, op.at, op.path, FOR_NAME);
            && (e != NoEdit ==> x.Ok? && e.Make? && e.d == x.value.place.node && e.name == x.value.last && AsAsked(e.o, op.what, e.d))
            && (s.quiet && From(s, op.at, op.path).Ok? ==>
                  a == Err(ENAMETOOLONG) || a == Made(R.SpaceAt(s), s.mounts, x, op.what))
  {
    hide PathAnswer, Leads, IsSpace, Begins, ValidSeats, Owned, Accepts, Apply, IntoItself, SeatsOf, NodeAt, Finds, MakeAnswer, Made, Means, R.Named;
    NamedMeans(s, op.at, op.path, PARENT);
    var w, f := R.Named(s, op.at, op.path, PARENT), Means(s, op.at, op.path, FOR_NAME);
    if w == Err(ENAMETOOLONG) {
      TooLong(R.SpaceAt(s), s.mounts, w, op.what);
    } else {
      MakeByTree(R.SpaceAt(s), s.mounts, w, f, op.what);
      NameFound(R.SpaceAt(s), w, f);
    }
  }

  lemma TooLong(sp: Space, mounts: seq<Mount>, w: Result<Loc>, what: NewObject)
    requires ValidSeats(sp.seats) && w == Err(ENAMETOOLONG)
    ensures MakeAnswer(sp, mounts, w, what) == Err(if what == NewLink("") then ENOENT else ENAMETOOLONG)
    ensures forall f :: what == NewLink("") ==> Made(sp, mounts, f, what) == Err(ENOENT)
  {
  }

  lemma NameFound(sp: Space, w: Result<Loc>, f: Result<Found>)
    requires IsSpace(sp) && Finds(sp, w, f, true)
    ensures w.Ok? ==> f.Ok? && NodeAt(sp, Components(w.value.abs)) == Ok(f.value.place.node) && w.value.last == f.value.last
    ensures w.Err? ==> f == Err(w.errno)
  {
    hide Agrees, LocFits, IsSpace, NodeAt, Covered, Seated, Join;
    if w.Ok? { NameKnown(sp, w, f.value); }
  }

  /** unlink and rmdir take away the name the path leads to. */
  lemma UnlinkMeans(s: R.Moment, op: R.Op, a: Result<()>, e: Edit, t: R.Moment)
    requires op.DoUnlink? && R.Orderly(s) && Starts(s, op.at, op.path) && R.Follows(s, op, a, e, t) && !R.UndefinedAt(s, op)
    ensures var x := Means(s, op.at, op.path, FOR_NAME);
            && (e != NoEdit ==> x.Ok? && e == Unmake(x.value.place.node, x.value.last))
            && (s.quiet && From(s, op.at, op.path).Ok? ==>
                  a == Err(ENAMETOOLONG) || a == Gone(R.SpaceAt(s), s.mounts, x, op.path, op.rmdir))
  {
    hide PathAnswer, Leads, IsSpace, Begins, ValidSeats, Owned, Accepts, Apply, IntoItself, SeatsOf, NodeAt, Finds, UnlinkAnswer, Gone;
    hide Means, R.Named;
    NamedMeans(s, op.at, op.path, PARENT);
    var w, f := R.Named(s, op.at, op.path, PARENT), Means(s, op.at, op.path, FOR_NAME);
    if w == Err(ENAMETOOLONG) {
      TooLongToo(R.SpaceAt(s), s.mounts, w, op.path, op.rmdir);
    } else {
      UnlinkByTree(R.SpaceAt(s), s.mounts, w, f, op.path, op.rmdir);
      NameFound(R.SpaceAt(s), w, f);
    }
  }

  lemma TooLongToo(sp: Space, mounts: seq<Mount>, w: Result<Loc>, path: string, rmdir: bool)
    requires ValidSeats(sp.seats) && w == Err(ENAMETOOLONG)
    ensures UnlinkAnswer(sp, mounts, w, path, rmdir) == Err(ENAMETOOLONG)
  {
  }

  /** rename moves the one name to the other. */
  lemma RenameMeans(s: R.Moment, op: R.Op, a: Result<()>, e: Edit, t: R.Moment)
    requires op.DoRename? && R.Orderly(s) && Starts(s, op.at, op.path) && Starts(s, op.at2, op.newpath)
    requires R.Follows(s, op, a, e, t) && !R.UndefinedAt(s, op)
    ensures var x, y := Means(s, op.at, op.path, FOR_NAME), Means(s, op.at2, op.newpath, FOR_NAME);
            && (e != NoEdit ==> x.Ok? && y.Ok? && e == Relocate(x.value.place.node, x.value.last, y.value.place.node, y.value.last))
            && (From(s, op.at, op.path).Ok? && From(s, op.at2, op.newpath).Err? ==> a == Err(From(s, op.at2, op.newpath).errno))
            && (s.quiet && From(s, op.at, op.path).Ok? && From(s, op.at2, op.newpath).Ok? ==>
                  a == Err(ENAMETOOLONG) || a == Renamed(R.SpaceAt(s), s.mounts, x, y, op.noreplace))
  {
    hide PathAnswer, Leads, IsSpace, Begins, ValidSeats, Owned, Accepts, Apply, IntoItself, SeatsOf, NodeAt, Finds, RenameAnswer, Renamed;
    hide Means, R.Named, SamePath, UnfitPair;
    NamedMeans(s, op.at, op.path, PARENT);
    NamedMeans(s, op.at2, op.newpath, PARENT);
    var ow, nw := R.Named(s, op.at, op.path, PARENT), R.Named(s, op.at2, op.newpath, PARENT);
    var f, g := Means(s, op.at, op.path, FOR_NAME), Means(s, op.at2, op.newpath, FOR_NAME);
    RenameTooLong(R.SpaceAt(s), s.mounts, ow, nw, f, g, op.noreplace);
    if ow != Err(ENAMETOOLONG) { NameFound(R.SpaceAt(s), ow, f); }
    if nw != Err(ENAMETOOLONG) { NameFound(R.SpaceAt(s), nw, g); }
    if ow != Err(ENAMETOOLONG) && nw != Err(ENAMETOOLONG) {
      RenameByTree(R.SpaceAt(s), s.mounts, ow, f, nw, g, op.noreplace);
    }
  }

  lemma RenameTooLong(sp: Space, mounts: seq<Mount>, ow: Result<Loc>, nw: Result<Loc>, f: Result<Found>, g: Result<Found>, noreplace: bool)
    requires ValidSeats(sp.seats) && (ow == Err(ENAMETOOLONG) || Finds(sp, ow, f, true))
    ensures ow == Err(ENAMETOOLONG) ==> RenameAnswer(sp, mounts, ow, nw, noreplace) == Err(ENAMETOOLONG)
    ensures ow.Ok? && nw == Err(ENAMETOOLONG) ==> RenameAnswer(sp, mounts, ow, nw, noreplace) == Err(ENAMETOOLONG)
    ensures ow.Err? && ow != Err(ENAMETOOLONG) ==> RenameAnswer(sp, mounts, ow, nw, noreplace) == Renamed(sp, mounts, f, g, noreplace)
  {
  }

  /** link gives what the one path leads to the name the other leads to. */
  lemma LinkMeans(s: R.Moment, op: R.Op, a: Result<()>, e: Edit, t: R.Moment)
    requires op.DoLink? && R.Orderly(s) && Starts(s, op.at, op.path) && Starts(s, op.at2, op.newpath)
    requires R.Follows(s, op, a, e, t)
    ensures var x, y := Means(s, op.at, op.path, if op.follow then FOR_OBJECT else FOR_LINK), Means(s, op.at2, op.newpath, FOR_NAME);
            && (e != NoEdit ==> x.Ok? && y.Ok? && e == Tie(y.value.place.node, y.value.last, x.value.place.node))
            && (From(s, op.at, op.path).Ok? && From(s, op.at2, op.newpath).Err? ==> a == Err(From(s, op.at2, op.newpath).errno))
            && (s.quiet && From(s, op.at, op.path).Ok? && From(s, op.at2, op.newpath).Ok? ==>
                  var r := Tied(R.SpaceAt(s), s.mounts, x, y);
                  a == Err(ENAMETOOLONG) || (if r.Ok? then a.Ok? else a == Err(r.errno)))
  {
    hide PathAnswer, Leads, IsSpace, Begins, ValidSeats, Owned, Accepts, Apply, IntoItself, SeatsOf, NodeAt, Finds, LinkAnswer, Means, R.Named;
    var flags := PLAIN_WALK.(nofollow := !op.follow);
    NamedMeans(s, op.at, op.path, flags);
    NamedMeans(s, op.at2, op.newpath, PARENT);
    var ow, nw := R.Named(s, op.at, op.path, flags), R.Named(s, op.at2, op.newpath, PARENT);
    var f, g := Means(s, op.at, op.path, if op.follow then FOR_OBJECT else FOR_LINK), Means(s, op.at2, op.newpath, FOR_NAME);
    LinkTooLong(R.SpaceAt(s), s.mounts, ow, nw, f, g);
    if ow != Err(ENAMETOOLONG) && nw != Err(ENAMETOOLONG) {
      LinkByTree(R.SpaceAt(s), s.mounts, ow, f, nw, g);
      TiedFound(R.SpaceAt(s), s.mounts, f, g);
    }
    hide Tied;
  }

  lemma TiedFound(sp: Space, mounts: seq<Mount>, f: Result<Found>, g: Result<Found>)
    ensures var r := Tied(sp, mounts, f, g);
            r.Ok? ==> f.Ok? && g.Ok? && r.value == Tie(g.value.place.node, g.value.last, f.value.place.node)
  {
  }

  lemma LinkTooLong(sp: Space, mounts: seq<Mount>, ow: Result<Loc>, nw: Result<Loc>, f: Result<Found>, g: Result<Found>)
    requires IsSpace(sp) && |sp.seats| == |mounts| && (ow == Err(ENAMETOOLONG) || Finds(sp, ow, f, false))
    ensures ow == Err(ENAMETOOLONG) ==> LinkAnswer(sp, mounts, ow, nw) == Err(ENAMETOOLONG)
    ensures ow != Err(ENAMETOOLONG) && nw == Err(ENAMETOOLONG) ==>
              var l, r := LinkAnswer(sp, mounts, ow, nw), Tied(sp, mounts, f, g);
              l.Err? && (l == Err(ENAMETOOLONG) || r == l)
  {
    hide Agrees, LocFits, NodeAt, Components, IsSpace, Join, Point;
    SeatsOfSpace(sp);
    if ow.Ok? { ObjectKnown(sp, ow, f.value); }
  }

  /** chdir goes to the directory the path leads to. */
  lemma ChdirMeans(s: R.Moment, op: R.Op, a: Result<()>, e: Edit, t: R.Moment)
    requires op.DoChdir? && R.Orderly(s) && Starts(s, op.at, op.path) && R.Follows(s, op, a, e, t)
    ensures var x := Means(s, op.at, op.path, FOR_DIR);
            && (t.cwd != s.cwd ==> x.Ok? && NodeAt(R.SpaceAt(s), Components(t.cwd)) == Ok(x.value.place.node))
            && (a.Ok? ==> x.Ok?)
            && (s.quiet && From(s, op.at, op.path).Ok? ==>
                  a == Err(ENAMETOOLONG) || (if x.Err? then a == Err(x.errno) else a.Ok? || a == Err(EACCES)))
  {
    hide PathAnswer, Leads, IsSpace, Begins, ValidSeats, Owned, Accepts, Apply, IntoItself, SeatsOf, NodeAt, Finds, Means, R.Named;
    var flags := PLAIN_WALK.(mustdir := true);
    NamedMeans(s, op.at, op.path, flags);
    var w := R.Named(s, op.at, op.path, flags);
    if w != Err(ENAMETOOLONG) { ThingFound(R.SpaceAt(s), w, Means(s, op.at, op.path, FOR_DIR)); }
  }

  lemma ThingFound(sp: Space, w: Result<Loc>, f: Result<Found>)
    requires IsSpace(sp) && Finds(sp, w, f, false)
    ensures w.Ok? ==> f.Ok? && NodeAt(sp, Components(w.value.abs)) == Ok(f.value.place.node)
    ensures w.Err? ==> f == Err(w.errno)
  {
    hide Agrees, LocFits, IsSpace, NodeAt;
    if w.Ok? { ObjectKnown(sp, w, f.value); }
  }

  /** A success of stat, readlink or chmod: the last two take only a link, and only objects of the host. */
  ghost predicate Shows(s: R.Moment, op: R.Op, pl: Place) {
    (op.DoReadlink? ==> IsLink(s.objs, pl.node)) && (op.DoSetAttr? ==> OfHostMount(s.mounts, pl))
  }

  /** stat, readlink and chmod answer as what the path leads to has it. */
  lemma LookMeans(s: R.Moment, op: R.Op, a: Result<()>, e: Edit, t: R.Moment)
    requires (op.DoStat? || op.DoSetAttr? || op.DoReadlink?) && R.Orderly(s) && Starts(s, op.at, op.path) && R.Follows(s, op, a, e, t)
    ensures e == NoEdit
    ensures var x := Means(s, op.at, op.path, if !op.DoReadlink? && op.follow then FOR_OBJECT else FOR_LINK);
            && (a.Ok? ==> x.Ok? && Shows(s, op, x.value.place))
            && (s.quiet && From(s, op.at, op.path).Ok? ==>
                  a == Err(ENAMETOOLONG) || (if x.Err? then a == Err(x.errno) else Shows(s, op, x.value.place) ==> a.Ok?))
  {
    hide PathAnswer, Leads, IsSpace, Begins, ValidSeats, Owned, Accepts, Apply, IntoItself, SeatsOf, NodeAt, Finds, Means, R.Named;
    hide OnHost, Seated, NoLink, AttrFails;
    var flags := if op.DoReadlink? then PLAIN_WALK.(nofollow := true) else PLAIN_WALK.(nofollow := !op.follow);
    NamedMeans(s, op.at, op.path, flags);
    var w := R.Named(s, op.at, op.path, flags);
    TooLongSeen(R.SpaceAt(s), s.mounts, w);
    if w != Err(ENAMETOOLONG) {
      var x := Means(s, op.at, op.path, if !op.DoReadlink? && op.follow then FOR_OBJECT else FOR_LINK);
      ThingFound(R.SpaceAt(s), w, x);
      LookByTree(R.SpaceAt(s), s.mounts, w, x, ANYONE);
      ThingSeated(R.SpaceAt(s), s.mounts, w, x);
    }
  }

  lemma TooLongSeen(sp: Space, mounts: seq<Mount>, w: Result<Loc>)
    requires ValidSeats(sp.seats) && |sp.seats| == |mounts|
    ensures w == Err(ENAMETOOLONG) ==> forall e :: NoLink(sp, w, e) || AttrFails(sp, mounts, w, e) ==> e == ENAMETOOLONG
  {
  }

  lemma ThingSeated(sp: Space, mounts: seq<Mount>, w: Result<Loc>, f: Result<Found>)
    requires IsSpace(sp) && |sp.seats| == |mounts| && Finds(sp, w, f, false)
    ensures w.Ok? ==> (OnHost(mounts, w.value) <==> OfHostMount(mounts, f.value.place))
    ensures w.Ok? && Seated(sp.seats, Components(w.value.abs)) ==> !IsLink(sp.objs, f.value.place.node)
  {
    hide Agrees, IsSpace, NodeAt, Components, Canonical;
    if w.Ok? { ObjectKnown(sp, w, f.value); }
  }

  /** A new description is of the object the path leads to, and a file made has the name it leads to. */
  lemma OpenMeans(s: R.Moment, op: R.Op, a: Result<()>, e: Edit, t: R.Moment, f: nat)
    requires op.DoOpen? && R.Orderly(s) && Starts(s, op.at, op.path) && R.Follows(s, op, a, e, t)
    ensures f !in s.files && f in t.files && !op.m.create ==>
              var x, d := Means(s, op.at, op.path, if op.m.nofollow then FOR_LINK else FOR_OBJECT), t.files[f];
              && x.Ok? && (d.h != 0 ==> d.h in t.live && t.live[d.h] == x.value.place.node)
              && (d.kind == HostFile || NodeAt(R.SpaceAt(s), Components(d.path)) == Ok(x.value.place.node))
    ensures var x := Means(s, op.at, op.path, FOR_NAME);
            e != NoEdit && x.Ok? && Lookup(s.objs, x.value.place.node, x.value.last).Err? ==>
              e.Make? && e.d == x.value.place.node && e.name == x.value.last && e.o == Plain(false)
    ensures !op.m.create && From(s, op.at, op.path).Ok? ==>
              OpenAnswers(s, Means(s, op.at, op.path, if op.m.nofollow then FOR_LINK else FOR_OBJECT), op.m, a)
  {
    hide PathAnswer, Leads, IsSpace, Begins, ValidSeats, Owned, Accepts, Apply, IntoItself, SeatsOf, NodeAt, OpenAim, Lookup, AimFits, Means;
    hide OpenAnswers;
    var b := R.BaseOf(s.files, op.at, op.path);
    NamedMeans(s, op.at, op.path, PARENT);
    if b.Ok? {
      OpenAimMeans(s, op, b.value);
      if !op.m.create {
        OpenSaid(s, op, b.value, a, e, t);
        OpenTried(s, op, b.value, a, R.Who(a));
      }
    }
  }

  /** truncate works on files of the host that may be written. */
  lemma TruncateMeans(s: R.Moment, op: R.Op, a: Result<()>, e: Edit, t: R.Moment)
    requires op.DoTruncate? && R.Orderly(s) && Starts(s, op.at, op.path) && R.Follows(s, op, a, e, t)
    ensures (s.quiet || a.Ok?) && From(s, op.at, op.path).Ok? ==>
              var x := Means(s, op.at, op.path, FOR_OBJECT);
              a == Err(ENAMETOOLONG) ||
              if x.Err? then a == Err(x.errno)
              else a.Ok? <==> OfHostMount(s.mounts, x.value.place) && Openable(s.objs, x.value.place.node, FOR_WRITING, R.Who(a))
  {
    hide PathAnswer, Leads, IsSpace, Begins, Owned, Accepts, Apply, IntoItself, SeatsOf, NodeAt, OpenAim, Openable, TruncateAnswer;
    var b := R.BaseOf(s.files, op.at, op.path);
    NamedMeans(s, op.at, op.path, PARENT);
    if b.Ok? {
      var sp := R.SpaceAt(s);
      SeatsOfSpace(sp);
      SameLead(sp, DirOf(s.cwd, b.value), From(s, op.at, op.path).value, op.path, FOR_OBJECT);
      RootedAnywhere(sp, DirOf(s.cwd, b.value), op.path);
      TruncatePath(sp, s.mounts, s.cwd, b.value, op.path, R.Who(a));
    }
  }

  lemma OpenAimMeans(s: R.Moment, op: R.Op, b: Origin)
    requires op.DoOpen? && R.Orderly(s) && Starts(s, op.at, op.path) && R.BaseOf(s.files, op.at, op.path) == Ok(b)
    ensures var r := OpenAim(R.SpaceAt(s), s.mounts, s.cwd, b, op.path, op.m, ANYONE, 0);
            && (r.Ok? && !op.m.create ==>
                  var x := Means(s, op.at, op.path, if op.m.nofollow then FOR_LINK else FOR_OBJECT);
                  && x.Ok? && r.value.Take? && r.value.n == x.value.place.node
                  && (r.value.kind == HostFile || NodeAt(R.SpaceAt(s), Components(r.value.path)) == Ok(r.value.n)))
            && (op.m.create && ToMake(r) ==>
                  var x := Means(s, op.at, op.path, FOR_NAME);
                  x.Ok? && Lookup(s.objs, x.value.place.node, x.value.last).Err? ==>
                    r.value.d == x.value.place.node && r.value.name == x.value.last)
  {
    hide PathAnswer, Leads, IsSpace, ValidSeats, Owned, SeatsOf, NodeAt, OpenAim, Lookup, AimFits, Canonical, Components, IsSpecial, Openable;
    var sp, dir := R.SpaceAt(s), DirOf(s.cwd, b);
    SeatsOfSpace(sp);
    SameLead(sp, dir, From(s, op.at, op.path).value, op.path, FOR_NAME);
    SameLead(sp, dir, From(s, op.at, op.path).value, op.path, if op.m.nofollow then FOR_LINK else FOR_OBJECT);
    OpenFits(sp, s.mounts, s.cwd, b, op.path, op.m, ANYONE, 0);
    AimMeans(sp, OpenAim(sp, s.mounts, s.cwd, b, op.path, op.m, ANYONE, 0));
    if op.m.create {
      CreatePath(sp, s.mounts, s.cwd, b, op.path, op.m, ANYONE, 0);
      WalkedFirst(sp, s.mounts, s.cwd, b, op.path, op.m);
    } else {
      OpenPath(sp, s.mounts, s.cwd, b, op.path, op.m, ANYONE);
    }
  }

  /** An open that is not refused for want of a permission answers as what the path leads to has it. */
  ghost predicate OpenAnswers(s: R.Moment, x: Result<Found>, m: OpenMode, a: Result<()>) {
    && (a.Ok? ==> x.Ok? && (OfHostMount(s.mounts, x.value.place) ==> Openable(s.objs, x.value.place.node, m, ANYONE)))
    && (s.quiet && a.Err? ==>
          a == Err(ENAMETOOLONG) ||
          if x.Err? then a == Err(x.errno)
          else OfHostMount(s.mounts, x.value.place) ==> !Openable(s.objs, x.value.place.node, m, if a == Err(EACCES) then NOBODY else ANYONE))
  }

  lemma OpenSaid(s: R.Moment, op: R.Op, b: Origin, a: Result<()>, e: Edit, t: R.Moment)
    requires op.DoOpen? && R.Orderly(s) && R.Follows(s, op, a, e, t) && R.BaseOf(s.files, op.at, op.path) == Ok(b)
    ensures var r := OpenAim(R.SpaceAt(s), s.mounts, s.cwd, b, op.path, op.m, R.Who(a), 0);
            (a.Ok? ==> r.Ok?) && (s.quiet && a.Err? ==> r == Err(a.errno))
  {
    hide IsSpace, Owned, Accepts, Apply, IntoItself, SeatsOf, NodeAt, OpenAim, R.Suits, R.Directory, R.Settles;
  }

  lemma OpenTried(s: R.Moment, op: R.Op, b: Origin, a: Result<()>, permits: Permits)
    requires op.DoOpen? && R.Orderly(s) && Starts(s, op.at, op.path) && R.BaseOf(s.files, op.at, op.path) == Ok(b) && !op.m.create
    requires permits == if a == Err(EACCES) then NOBODY else ANYONE
    requires var r := OpenAim(R.SpaceAt(s), s.mounts, s.cwd, b, op.path, op.m, permits, 0);
             (a.Ok? ==> r.Ok?) && (s.quiet && a.Err? ==> r == Err(a.errno))
    ensures OpenAnswers(s, Means(s, op.at, op.path, if op.m.nofollow then FOR_LINK else FOR_OBJECT), op.m, a)
  {
    hide PathAnswer, Leads, IsSpace, ValidSeats, Owned, SeatsOf, OpenAim, Lookup, Canonical, Components, IsSpecial, Openable;
    var sp, dir := R.SpaceAt(s), DirOf(s.cwd, b);
    SeatsOfSpace(sp);
    SameLead(sp, dir, From(s, op.at, op.path).value, op.path, if op.m.nofollow then FOR_LINK else FOR_OBJECT);
    OpenPath(sp, s.mounts, s.cwd, b, op.path, op.m, permits);
  }

  lemma WalkedFirst(sp: Space, mounts: seq<Mount>, cwd: string, b: Origin, path: string, m: OpenMode)
    requires ValidSeats(sp.seats) && |sp.seats| == |mounts| && GoodPath(cwd) && OriginFits(b) && m.create
    ensures PathAnswer(sp, cwd, b, path, PARENT) == Err(ENAMETOOLONG) ==>
              OpenAim(sp, mounts, cwd, b, path, m, ANYONE, 0) == Err(ENAMETOOLONG)
  {
    hide PathAnswer;
  }

  lemma AimMeans(sp: Space, r: Result<Aim>)
    requires ValidSeats(sp.seats) && (r.Ok? ==> AimFits(sp, r.value))
    ensures r.Ok? && r.value.Take? ==> r.value.kind == HostFile || NodeAt(sp, Components(r.value.path)) == Ok(r.value.n)
  {
  }

  // ---- the same for system calls ----

  /** The directory a path given with a descriptor starts at: the root if it is absolute, the working
      directory for AT_FDCWD, else that of the descriptor. */
  function FromFd(s: S.Moment, fd: int, path: string): Result<string>
    requires path != ""
  {
    if path[0] == '/' then Ok("/")
    else if fd == -100 then Ok(s.m.cwd)
    else if fd < 0 || fd >= |s.slots| || s.slots[fd] == 0 then Err(EBADF)
    else if s.slots[fd] !in s.behind then Err(ENOTDIR)
    else if s.behind[s.slots[fd]] !in s.m.files then Err(EBADF)
    else
      var d := s.m.files[s.behind[s.slots[fd]]];
      if d.kind.HostFolder? || d.kind.ProcDir? || d.kind.DevDir? then Ok(d.path) else Err(ENOTDIR)
  }

  ghost function FdMeans(s: S.Moment, fd: int, path: string, want: Want): Result<Found>
    requires path != "" && ValidSeats(R.SpaceAt(s.m).seats)
  {
    match FromFd(s, fd, path)
    case Err(e) => Err(e)
    case Ok(dir) => Leads(R.SpaceAt(s.m), dir, path, want)
  }

  ghost predicate FdStarts(s: S.Moment, fd: int, path: string) {
    && path != "" && IsSpace(R.SpaceAt(s.m)) && 0 !in s.behind
    && (FromFd(s, fd, path).Ok? ==> Begins(R.SpaceAt(s.m), FromFd(s, fd, path).value, path))
  }

  lemma FdStart(s: S.Moment, fd: int, path: string)
    requires R.Orderly(s.m) && FdStarts(s, fd, path)
    ensures var at := S.StartAt(s.slots, s.behind, fd);
            && Starts(s.m, at, path) && From(s.m, at, path) == FromFd(s, fd, path)
            && forall want :: Means(s.m, at, path, want) == FdMeans(s, fd, path, want)
  {
    hide Leads, IsSpace, Begins, R.Orderly, SeatsOf;
    SeatsOfSpace(R.SpaceAt(s.m));
  }

  /** The one path of a call, and the descriptor it is given with. */
  function PathOf(c: S.Syscall): (int, string)
    requires S.OnPath(c) || c.Openat?
  {
    match c
    case Openat(fd, path, _, _) => (fd, path)
    case Makeat(fd, path, _) => (fd, path)
    case Linkat(fd, path, _, _, _) => (fd, path)
    case Unlinkat(fd, path, _) => (fd, path)
    case Renameat(fd, path, _, _, _) => (fd, path)
    case Setattrat(fd, path, _) => (fd, path)
    case Truncate(path) => (-100, path)
    case Chdir(path) => (-100, path)
    case Statat(fd, path, _) => (fd, path)
    case Readlinkat(fd, path) => (fd, path)
  }

  /** The operation behind a path call or openat. */
  lemma CallIs(s: S.Moment, c: S.Syscall, a: S.Answer, e: Edit, t: S.Moment) returns (op: R.Op)
    requires (S.OnPath(c) || c.Openat?) && R.Orderly(s.m) && S.Follows(s, c, a, e, t) && !a.NoDesc?
    ensures R.OnPaths(op) && op.at == S.StartAt(s.slots, s.behind, PathOf(c).0) && op.path == PathOf(c).1
    ensures R.Follows(s.m, op, S.Told(a), e, t.m) && (c.Openat? ==> op == R.DoOpen(op.at, c.path, c.m))
    ensures S.OnPath(c) ==> op == S.OpOf(s.slots, s.behind, c) && (a == S.Done || a.Failed?)
  {
    hide R.Follows, R.Orderly, S.Unmoved, S.NewSlot;
    op := if c.Openat? then R.DoOpen(S.StartAt(s.slots, s.behind, c.dirfd), c.path, c.m) else S.OpOf(s.slots, s.behind, c);
  }

  /** A file opened for which there was no slot. */
  lemma CallDropped(s: S.Moment, c: S.Syscall, a: S.Answer, e: Edit, t: S.Moment) returns (op: R.Op, mid: R.Moment)
    requires c.Openat? && R.Orderly(s.m) && S.Follows(s, c, a, e, t) && a.NoDesc?
    ensures op == R.DoOpen(S.StartAt(s.slots, s.behind, c.dirfd), c.path, c.m) && R.Follows(s.m, op, Ok(()), e, mid)
    ensures t.m.files == s.m.files
  {
    hide R.Follows, R.Orderly, S.NewSlot, S.Keeps;
    op := R.DoOpen(S.StartAt(s.slots, s.behind, c.dirfd), c.path, c.m);
    mid :| R.Follows(s.m, op, Ok(()), e, mid) && S.Keeps(mid, t.m);
  }

  /** A call whose descriptor is not open, or is of no directory, fails with that errno and does nothing. */
  lemma CallFails(s: S.Moment, c: S.Syscall, a: S.Answer, e: Edit, t: S.Moment)
    requires (S.OnPath(c) || c.Openat?) && R.Orderly(s.m) && S.Follows(s, c, a, e, t)
    requires FdStarts(s, PathOf(c).0, PathOf(c).1)
    ensures var from := FromFd(s, PathOf(c).0, PathOf(c).1);
            from.Err? ==> a == S.Failed(from.errno) && e == NoEdit && t.m.files == s.m.files && t.m.cwd == s.m.cwd
  {
    hide S.Follows, S.OpOf, R.Follows, R.Orderly, FromFd, FdStarts, Starts;
    if a.NoDesc? {
      NotOnPath(s, c, a, e, t);
      DroppedStarts(s, c, a, e, t);
    } else {
      var op := CallIs(s, c, a, e, t);
      FdStart(s, PathOf(c).0, PathOf(c).1);
      StartsSo(s.m, op.at, op.path);
      StartFails(s.m, op, S.Told(a), e, t.m);
    }
  }

  /** A file was opened, so the path starts somewhere. */
  lemma DroppedStarts(s: S.Moment, c: S.Syscall, a: S.Answer, e: Edit, t: S.Moment)
    requires c.Openat? && R.Orderly(s.m) && S.Follows(s, c, a, e, t) && a.NoDesc? && FdStarts(s, c.dirfd, c.path)
    ensures c.path != "" && FromFd(s, c.dirfd, c.path).Ok?
  {
    hide S.Follows, S.OpOf, R.Follows, R.Orderly, FromFd, FdStarts, Starts;
    var op, mid := CallDropped(s, c, a, e, t);
    FdStart(s, c.dirfd, c.path);
    StartsSo(s.m, op.at, op.path);
    StartFails(s.m, op, Ok(()), e, mid);
  }

  lemma NotOnPath(s: S.Moment, c: S.Syscall, a: S.Answer, e: Edit, t: S.Moment)
    requires (S.OnPath(c) || c.Openat?) && R.Orderly(s.m) && S.Follows(s, c, a, e, t) && a.NoDesc?
    ensures c.Openat?
  {
    hide R.Follows, R.Orderly, S.NewSlot, S.Keeps;
  }

  lemma StartsSo(m: R.Moment, at: R.At, path: string)
    requires Starts(m, at, path)
    ensures path != ""
  {
  }

  /** The edit is to the names and objects the call's paths lead to, each from its own descriptor. */
  ghost predicate EditsAs(s: S.Moment, c: S.Syscall, e: Edit)
    requires S.OnPath(c) && PathOf(c).1 != "" && (c.Linkat? || c.Renameat? ==> c.newpath != "")
    requires ValidSeats(R.SpaceAt(s.m).seats)
  {
    match c
    case Makeat(fd, path, what) =>
      var x := FdMeans(s, fd, path, FOR_NAME);
      x.Ok? && e.Make? && e.d == x.value.place.node && e.name == x.value.last && AsAsked(e.o, what, e.d)
    case Unlinkat(fd, path, _) =>
      var x := FdMeans(s, fd, path, FOR_NAME); x.Ok? && e == Unmake(x.value.place.node, x.value.last)
    case Renameat(fd, path, fd2, newpath, _) =>
      var x, y := FdMeans(s, fd, path, FOR_NAME), FdMeans(s, fd2, newpath, FOR_NAME);
      x.Ok? && y.Ok? && e == Relocate(x.value.place.node, x.value.last, y.value.place.node, y.value.last)
    case Linkat(fd, path, fd2, newpath, follow) =>
      var x, y := FdMeans(s, fd, path, if follow then FOR_OBJECT else FOR_LINK), FdMeans(s, fd2, newpath, FOR_NAME);
      x.Ok? && y.Ok? && e == Tie(y.value.place.node, y.value.last, x.value.place.node)
    case _ => false
  }

  /** What the calls that change the tree did to it. */
  lemma CallMeans(s: S.Moment, c: S.Syscall, a: S.Answer, e: Edit, t: S.Moment)
    requires S.OnPath(c) && R.Orderly(s.m) && S.Follows(s, c, a, e, t) && e != NoEdit && !S.UndefinedAt(s, c)
    requires FdStarts(s, PathOf(c).0, PathOf(c).1)
    requires c.Linkat? || c.Renameat? ==> FdStarts(s, c.dirfd2, c.newpath)
    ensures EditsAs(s, c, e)
  {
    hide S.Follows, R.Orderly, FromFd, Starts, Means, FdMeans, SeatsOf, R.UndefinedAt, R.Follows, Begins, IsSpace, EditsAs, S.Unmoved;
    OnPathSays(s, c, a, e, t);
    var op := CallIs(s, c, a, e, t);
    FdStart(s, PathOf(c).0, PathOf(c).1);
    EditsOnly(s.m, op, S.Told(a), e, t.m);
    if c.Linkat? || c.Renameat? {
      FdStart(s, c.dirfd2, c.newpath);
      TwoPaths(s, c, op, a, e, t);
    } else {
      OnePath(s, c, op, a, e, t);
    }
  }

  lemma OnPathSays(s: S.Moment, c: S.Syscall, a: S.Answer, e: Edit, t: S.Moment)
    requires S.OnPath(c) && R.Orderly(s.m) && S.Follows(s, c, a, e, t)
    ensures (a == S.Done || a.Failed?) && S.Unmoved(s, t)
  {
    hide R.Follows, R.Orderly, S.NewSlot, S.Keeps, S.Unmoved;
  }

  lemma OnePath(s: S.Moment, c: S.Syscall, op: R.Op, a: S.Answer, e: Edit, t: S.Moment)
    requires (c.Makeat? || c.Unlinkat?) && op == S.OpOf(s.slots, s.behind, c) && PathOf(c).1 != ""
    requires R.Orderly(s.m) && R.Follows(s.m, op, S.Told(a), e, t.m) && e != NoEdit && !R.UndefinedAt(s.m, op)
    requires Starts(s.m, op.at, op.path) && forall want :: Means(s.m, op.at, op.path, want) == FdMeans(s, PathOf(c).0, op.path, want)
    ensures EditsAs(s, c, e)
  {
    hide R.Orderly, Means, FdMeans, SeatsOf, R.UndefinedAt, R.Follows;
    if op.DoMake? { MakeMeans(s.m, op, S.Told(a), e, t.m); } else { UnlinkMeans(s.m, op, S.Told(a), e, t.m); }
  }

  lemma TwoPaths(s: S.Moment, c: S.Syscall, op: R.Op, a: S.Answer, e: Edit, t: S.Moment)
    requires (c.Linkat? || c.Renameat?) && op == S.OpOf(s.slots, s.behind, c) && c.path != "" && c.newpath != ""
    requires R.Orderly(s.m) && R.Follows(s.m, op, S.Told(a), e, t.m) && e != NoEdit && !R.UndefinedAt(s.m, op)
    requires Starts(s.m, op.at, op.path) && forall want :: Means(s.m, op.at, op.path, want) == FdMeans(s, c.dirfd, c.path, want)
    requires Starts(s.m, op.at2, op.newpath)
    requires forall want :: Means(s.m, op.at2, op.newpath, want) == FdMeans(s, c.dirfd2, c.newpath, want)
    ensures EditsAs(s, c, e)
  {
    hide R.Orderly, Means, FdMeans, SeatsOf, R.UndefinedAt, R.Follows;
    if op.DoRename? { RenameMeans(s.m, op, S.Told(a), e, t.m); } else { LinkMeans(s.m, op, S.Told(a), e, t.m); }
  }

  /** On a quiet host the answer is read off what the call's paths lead to. */
  ghost predicate AnswersAs(s: S.Moment, c: S.Syscall, a: S.Answer)
    requires S.OnPath(c) && PathOf(c).1 != "" && (c.Linkat? || c.Renameat? ==> c.newpath != "")
    requires ValidSeats(R.SpaceAt(s.m).seats)
  {
    var sp, mounts := R.SpaceAt(s.m), s.m.mounts;
    match c
    case Makeat(fd, path, what) => a == Reply(Made(sp, mounts, FdMeans(s, fd, path, FOR_NAME), what))
    case Unlinkat(fd, path, rmdir) => a == Reply(Gone(sp, mounts, FdMeans(s, fd, path, FOR_NAME), path, rmdir))
    case Renameat(fd, path, fd2, newpath, noreplace) =>
      a == Reply(Renamed(sp, mounts, FdMeans(s, fd, path, FOR_NAME), FdMeans(s, fd2, newpath, FOR_NAME), noreplace))
    case Linkat(fd, path, fd2, newpath, follow) =>
      a == Reply(Tied(sp, mounts, FdMeans(s, fd, path, if follow then FOR_OBJECT else FOR_LINK), FdMeans(s, fd2, newpath, FOR_NAME)))
    case Statat(fd, path, follow) => a == Reply(FdMeans(s, fd, path, if follow then FOR_OBJECT else FOR_LINK))
    case Readlinkat(fd, path) =>
      var x := FdMeans(s, fd, path, FOR_LINK);
      if x.Err? then a == S.Failed(x.errno) else a == S.Done <==> IsLink(s.m.objs, x.value.place.node)
    case Setattrat(fd, path, follow) =>
      var x := FdMeans(s, fd, path, if follow then FOR_OBJECT else FOR_LINK);
      if x.Err? then a == S.Failed(x.errno) else a == S.Done <==> OfHostMount(mounts, x.value.place)
    case Chdir(path) =>
      var x := FdMeans(s, -100, path, FOR_DIR);
      if x.Err? then a == S.Failed(x.errno) else a == S.Done || a == S.Failed(EACCES)
    case Truncate(path) =>
      var x := FdMeans(s, -100, path, FOR_OBJECT);
      if x.Err? then a == S.Failed(x.errno)
      else a == S.Done <==> OfHostMount(mounts, x.value.place)
                            && Openable(s.m.objs, x.value.place.node, FOR_WRITING, if a == S.Failed(EACCES) then NOBODY else ANYONE)
  }

  function Reply<T>(r: Result<T>): S.Answer {
    if r.Ok? then S.Done else S.Failed(r.errno)
  }

  /** What a path call answers on a host that refuses nothing. */
  lemma CallAnswers(s: S.Moment, c: S.Syscall, a: S.Answer, e: Edit, t: S.Moment)
    requires S.OnPath(c) && R.Orderly(s.m) && S.Follows(s, c, a, e, t) && s.m.quiet && !S.UndefinedAt(s, c)
    requires FdStarts(s, PathOf(c).0, PathOf(c).1) && FromFd(s, PathOf(c).0, PathOf(c).1).Ok?
    requires c.Linkat? || c.Renameat? ==> FdStarts(s, c.dirfd2, c.newpath) && FromFd(s, c.dirfd2, c.newpath).Ok?
    ensures a == S.Failed(ENAMETOOLONG) || AnswersAs(s, c, a)
  {
    hide S.Follows, R.Orderly, FromFd, Starts, Means, FdMeans, SeatsOf, R.UndefinedAt, R.Follows, Begins, IsSpace, AnswersAs, S.Unmoved;
    OnPathSays(s, c, a, e, t);
    var op := CallIs(s, c, a, e, t);
    FdStart(s, PathOf(c).0, PathOf(c).1);
    if c.Linkat? || c.Renameat? {
      FdStart(s, c.dirfd2, c.newpath);
      TwoAnswer(s, c, op, a, e, t);
    } else if c.Makeat? || c.Unlinkat? {
      OneAnswers(s, c, op, a, e, t);
    } else {
      LookAnswers(s, c, op, a, e, t);
    }
  }

  lemma OneAnswers(s: S.Moment, c: S.Syscall, op: R.Op, a: S.Answer, e: Edit, t: S.Moment)
    requires (c.Makeat? || c.Unlinkat?) && op == S.OpOf(s.slots, s.behind, c) && PathOf(c).1 != "" && (a == S.Done || a.Failed?)
    requires R.Orderly(s.m) && R.Follows(s.m, op, S.Told(a), e, t.m) && s.m.quiet && !R.UndefinedAt(s.m, op)
    requires Starts(s.m, op.at, op.path) && forall want :: Means(s.m, op.at, op.path, want) == FdMeans(s, PathOf(c).0, op.path, want)
    requires From(s.m, op.at, op.path).Ok?
    ensures a == S.Failed(ENAMETOOLONG) || AnswersAs(s, c, a)
  {
    hide R.Orderly, Means, FdMeans, SeatsOf, R.UndefinedAt, R.Follows, Made, Gone, From, Starts;
    if op.DoMake? { MakeMeans(s.m, op, S.Told(a), e, t.m); } else { UnlinkMeans(s.m, op, S.Told(a), e, t.m); }
  }

  lemma TwoAnswer(s: S.Moment, c: S.Syscall, op: R.Op, a: S.Answer, e: Edit, t: S.Moment)
    requires (c.Linkat? || c.Renameat?) && op == S.OpOf(s.slots, s.behind, c) && c.path != "" && c.newpath != "" && (a == S.Done || a.Failed?)
    requires R.Orderly(s.m) && R.Follows(s.m, op, S.Told(a), e, t.m) && s.m.quiet && !R.UndefinedAt(s.m, op)
    requires Starts(s.m, op.at, op.path) && forall want :: Means(s.m, op.at, op.path, want) == FdMeans(s, c.dirfd, c.path, want)
    requires Starts(s.m, op.at2, op.newpath)
    requires forall want :: Means(s.m, op.at2, op.newpath, want) == FdMeans(s, c.dirfd2, c.newpath, want)
    requires From(s.m, op.at, op.path).Ok? && From(s.m, op.at2, op.newpath).Ok?
    ensures a == S.Failed(ENAMETOOLONG) || AnswersAs(s, c, a)
  {
    hide R.Orderly, Means, FdMeans, SeatsOf, R.UndefinedAt, R.Follows, Renamed, Tied, From, Starts;
    if op.DoRename? { RenameMeans(s.m, op, S.Told(a), e, t.m); } else { LinkMeans(s.m, op, S.Told(a), e, t.m); }
  }

  lemma LookAnswers(s: S.Moment, c: S.Syscall, op: R.Op, a: S.Answer, e: Edit, t: S.Moment)
    requires (c.Statat? || c.Readlinkat? || c.Setattrat? || c.Chdir? || c.Truncate?) && op == S.OpOf(s.slots, s.behind, c)
    requires PathOf(c).1 != "" && (a == S.Done || a.Failed?) && R.Orderly(s.m) && R.Follows(s.m, op, S.Told(a), e, t.m) && s.m.quiet
    requires Starts(s.m, op.at, op.path) && forall want :: Means(s.m, op.at, op.path, want) == FdMeans(s, PathOf(c).0, op.path, want)
    requires From(s.m, op.at, op.path).Ok?
    ensures a == S.Failed(ENAMETOOLONG) || AnswersAs(s, c, a)
  {
    hide R.Orderly, Means, FdMeans, SeatsOf, R.Follows, From, Starts, Openable;
    if c.Chdir? {
      ChdirMeans(s.m, op, S.Told(a), e, t.m);
    } else if c.Truncate? {
      TruncateMeans(s.m, op, S.Told(a), e, t.m);
    } else {
      LookMeans(s.m, op, S.Told(a), e, t.m);
    }
  }

  /** A path call that fails changes nothing in the tree, and of those that change it each does so with
      every success, but a rename of a name to itself. */
  lemma CallDoes(s: S.Moment, c: S.Syscall, a: S.Answer, e: Edit, t: S.Moment)
    requires S.OnPath(c) && R.Orderly(s.m) && S.Follows(s, c, a, e, t)
    ensures c.Makeat? || c.Linkat? || c.Unlinkat? ==> (a == S.Done <==> e != NoEdit)
    ensures c.Renameat? ==> a == S.Done || e == NoEdit
    ensures c.Setattrat? || c.Truncate? || c.Chdir? || c.Statat? || c.Readlinkat? ==> e == NoEdit
    ensures a == S.Done || a.Failed?
    ensures t.slots == s.slots && t.behind == s.behind && t.m.files == s.m.files && (t.m.cwd != s.m.cwd ==> c.Chdir? && a == S.Done)
  {
    hide S.Follows, R.Orderly, R.Follows;
    OnPathSays(s, c, a, e, t);
    var op := CallIs(s, c, a, e, t);
    Done(s.m, op, S.Told(a), e, t.m);
  }

  lemma Done(s: R.Moment, op: R.Op, a: Result<()>, e: Edit, t: R.Moment)
    requires R.Orderly(s) && R.Follows(s, op, a, e, t)
    ensures op.DoMake? || op.DoLink? || op.DoUnlink? ==> (a.Ok? <==> e != NoEdit)
    ensures op.DoRename? ==> a.Ok? || e == NoEdit
    ensures op.DoSetAttr? || op.DoTruncate? || op.DoChdir? || op.DoStat? || op.DoReadlink? ==> e == NoEdit
    ensures R.OnPaths(op) && t.cwd != s.cwd ==> op.DoChdir? && a.Ok?
  {
    hide R.Orderly, SeatsOf, Accepts, Apply, IntoItself, R.Answered, R.Suits, R.Named, RenameDone, R.Files;
  }

  lemma EditsOnly(s: R.Moment, op: R.Op, a: Result<()>, e: Edit, t: R.Moment)
    requires R.Orderly(s) && R.Follows(s, op, a, e, t) && e != NoEdit
    ensures op.DoMake? || op.DoUnlink? || op.DoRename? || op.DoLink? || op.DoOpen?
  {
    hide R.Orderly, SeatsOf, Accepts, Apply, IntoItself, R.Answered, R.Files, R.Directory;
  }

  /** openat's new description is of the object its path leads to from its descriptor; chdir's
      directory is the one its path leads to. */
  lemma CallReaches(s: S.Moment, c: S.Syscall, a: S.Answer, e: Edit, t: S.Moment)
    requires (c.Openat? || c.Chdir?) && R.Orderly(s.m) && S.Follows(s, c, a, e, t) && FdStarts(s, PathOf(c).0, PathOf(c).1)
    ensures c.Openat? && !c.m.create ==>
              forall f :: f in t.m.files && f !in s.m.files ==>
                var x, d := FdMeans(s, c.dirfd, c.path, if c.m.nofollow then FOR_LINK else FOR_OBJECT), t.m.files[f];
                && x.Ok? && (d.h != 0 ==> d.h in t.m.live && t.m.live[d.h] == x.value.place.node)
                && (d.kind == HostFile || NodeAt(R.SpaceAt(s.m), Components(d.path)) == Ok(x.value.place.node))
    ensures c.Chdir? && t.m.cwd != s.m.cwd ==>
              var x := FdMeans(s, -100, c.path, FOR_DIR);
              x.Ok? && NodeAt(R.SpaceAt(s.m), Components(t.m.cwd)) == Ok(x.value.place.node)
  {
    if a.NoDesc? {
      NotOnPath(s, c, a, e, t);
      var _, _ := CallDropped(s, c, a, e, t);
      return;
    }
    var op := CallIs(s, c, a, e, t);
    hide S.Follows, R.Orderly, FromFd, Starts, Means, FdMeans, SeatsOf, R.Follows, NodeAt, Components;
    FdStart(s, PathOf(c).0, PathOf(c).1);
    hide FdStarts;
    if c.Chdir? {
      ChdirMeans(s.m, op, S.Told(a), e, t.m);
    } else {
      forall f | f in t.m.files && f !in s.m.files && !c.m.create
        ensures var x, d := FdMeans(s, c.dirfd, c.path, if c.m.nofollow then FOR_LINK else FOR_OBJECT), t.m.files[f];
                && x.Ok? && (d.h != 0 ==> d.h in t.m.live && t.m.live[d.h] == x.value.place.node)
                && (d.kind == HostFile || NodeAt(R.SpaceAt(s.m), Components(d.path)) == Ok(x.value.place.node))
      {
        OpenMeans(s.m, op, S.Told(a), e, t.m, f);
      }
    }
  }
}
