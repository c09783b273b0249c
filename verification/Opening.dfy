/** What `vfs_open` decides (core/vfs.c:642-766, core/vfs_synth.c:229-292, 435-461)
    when the host refuses nothing, and what that means for the tree. */
module Openings {
  import opened Basics
  import opened Errors
  import opened Paths
  import opened Trees
  import opened TreeEdits
  import opened Spaces
  import opened Resolution
  import opened Hosts
  import opened Walks

  /** The access mode of open(2); the fourth value asks for neither. */
  datatype Access = ReadOnly | WriteOnly | ReadWrite | NoAccess

  datatype OpenMode = OpenMode(acc: Access, create: bool, excl: bool, nofollow: bool, directory: bool, opath: bool, trunc: bool)

  datatype FileKind = HostFile | HostFolder | LinkFile | ProcFile | ProcDir | DevFile | DevDir

  /** What an open comes to: an object taken, or a file made as `name` in `d`. */
  datatype Aim = Take(path: string, n: NodeId, kind: FileKind) | Fresh(path: string, d: NodeId, name: string)

  /** Who may read (`0`) or write (`1`) what: the permission check, whatever it says. */
  type Permits = (NodeId, bool, bool) -> bool

  const PARENT := WalkFlags(true, false, false)
  const PLAIN_WALK := WalkFlags(false, false, false)

  predicate OnHost(mounts: seq<Mount>, loc: Loc) {
    loc.mount < |mounts| && mounts[loc.mount].HostMount?
  }

  predicate WantsRead(m: OpenMode) { m.acc.ReadOnly? || m.acc.ReadWrite? }

  predicate WantsWrite(m: OpenMode) { m.acc.WriteOnly? || m.acc.ReadWrite? || m.trunc }

  function KindOf(objs: Objects, n: NodeId): FileKind {
    if IsDir(objs, n) then HostFolder else if IsLink(objs, n) then LinkFile else HostFile
  }

  /** `procfs_open` and `devfs_open`. */
  function SynthOpen(objs: Objects, n: NodeId, dev: bool, m: OpenMode): Result<FileKind> {
    if IsLink(objs, n) then
      if !m.opath then Err(ELOOP) else if dev then Err(ENXIO) else Ok(ProcFile)
    else if IsDir(objs, n) then
      if !m.acc.ReadOnly? then Err(EISDIR) else Ok(if dev then DevDir else ProcDir)
    else if dev && m.directory then Err(ENOTDIR)
    else Ok(if dev then DevFile else ProcFile)
  }

  /** The checks on an existing host object, before it is opened. */
  function HostCheck(objs: Objects, n: NodeId, m: OpenMode, permits: Permits): Result<()> {
    if IsLink(objs, n) && !m.opath then Err(ELOOP)
    else if IsDir(objs, n) && !m.acc.ReadOnly? && !m.opath then Err(EISDIR)
    else if !IsDir(objs, n) && m.directory then Err(ENOTDIR)
    else if !m.opath && !permits(n, WantsRead(m), WantsWrite(m)) then Err(EACCES)
    else Ok(())
  }

  /** A special file answers as a link that is not to be followed; only one that
      is a whole mount gets as far as `ENXIO`. */
  function HostOpen(objs: Objects, n: NodeId, isRoot: bool, m: OpenMode, permits: Permits): Result<FileKind> {
    match HostCheck(objs, n, m, permits)
    case Err(e) => Err(e)
    case Ok(_) =>
      if IsReparse(objs, n) && !IsLink(objs, n) then
        if !isRoot then Err(ELOOP) else if m.opath then Ok(HostFile) else Err(ENXIO)
      else Ok(KindOf(objs, n))
  }

  /** Opening what a walk resolved. */
  ghost function ExistingAim(sp: Space, mounts: seq<Mount>, loc: Loc, m: OpenMode, permits: Permits): Result<Aim>
    requires ValidSeats(sp.seats) && loc.mount < |mounts| == |sp.seats|
  {
    match NodeAt(sp, Components(loc.abs))
    case Err(e) => Err(e)
    case Ok(n) =>
      var k := if mounts[loc.mount].HostMount? then HostOpen(sp.objs, n, Point(sp.seats, loc.mount) == Components(loc.abs), m, permits)
               else SynthOpen(sp.objs, n, mounts[loc.mount].dev, m);
      match k
      case Err(e) => Err(e)
      case Ok(kind) => Ok(Take(loc.abs, n, kind))
  }

  /** The path a created description records; nothing if it does not fit. */
  function CreatedPath(loc: Loc): string {
    if Fits(loc.abs, loc.last) then Join(loc.abs, loc.last) else ""
  }

  /** One round of O_CREAT: an answer, or a link's target to start over with. */
  datatype Round = Answered(r: Result<Aim>) | Again(target: string)

  ghost function CreateRound(sp: Space, mounts: seq<Mount>, loc: Loc, m: OpenMode): Round
    requires ValidSeats(sp.seats)
  {
    if !OnHost(mounts, loc) then Answered(Err(EACCES))
    else match NodeAt(sp, Components(loc.abs))
      case Err(e) => Answered(Err(e))
      case Ok(d) =>
        if !IsDir(sp.objs, d) then Answered(Err(ENOTDIR))
        else match CreateAnswer(sp.objs, d, loc.last, m.directory, m.excl)
          case Err(e) => Answered(Err(e))
          case Ok(CreateNew) => Answered(Ok(Fresh(CreatedPath(loc), d, loc.last)))
          case Ok(CreateOpen(n)) => Answered(Ok(Take(CreatedPath(loc), n, HostFile)))
          case Ok(CreateThrough(t)) => Again(t)
  }

  const MAX_DEPTH := 40

  /** Walk to an existing object and open it. */
  ghost function WalkAim(sp: Space, mounts: seq<Mount>, cwd: string, b: Origin, path: string, flags: WalkFlags, m: OpenMode,
                         permits: Permits): Result<Aim>
    requires ValidSeats(sp.seats) && |sp.seats| == |mounts| && GoodPath(cwd) && OriginFits(b) && !flags.parent
  {
    PathFits(sp, cwd, b, path, flags);
    match PathAnswer(sp, cwd, b, path, flags)
    case Err(e) => Err(e)
    case Ok(loc) => ExistingAim(sp, mounts, loc, m, permits)
  }

  /** `vfs_open_depth`: O_CREAT starts over through a link at most 40 times. */
  ghost function OpenAim(sp: Space, mounts: seq<Mount>, cwd: string, b: Origin, path: string, m: OpenMode,
                         permits: Permits, depth: nat): Result<Aim>
    requires ValidSeats(sp.seats) && |sp.seats| == |mounts| && GoodPath(cwd) && OriginFits(b)
    decreases MAX_DEPTH + 1 - depth, 1
  {
    if depth > MAX_DEPTH then Err(ELOOP)
    else if !m.create then WalkAim(sp, mounts, cwd, b, path, PLAIN_WALK.(nofollow := m.nofollow), m, permits)
    else
      PathFits(sp, cwd, b, path, PARENT);
      match PathAnswer(sp, cwd, b, path, PARENT)
      case Err(e) => if e == EEXIST then WalkAim(sp, mounts, cwd, b, path, PLAIN_WALK, m, permits) else Err(e)
      case Ok(loc) => MakingAim(sp, mounts, cwd, loc, m, permits, depth)
  }

  /** O_CREAT under the parent a walk found. */
  ghost function MakingAim(sp: Space, mounts: seq<Mount>, cwd: string, loc: Loc, m: OpenMode, permits: Permits,
                           depth: nat): Result<Aim>
    requires ValidSeats(sp.seats) && |sp.seats| == |mounts| && GoodPath(cwd) && GoodPath(loc.abs) && depth <= MAX_DEPTH
    decreases MAX_DEPTH + 1 - depth, 0
  {
    match CreateRound(sp, mounts, loc, m)
    case Answered(r) => r
    case Again(target) => OpenAim(sp, mounts, cwd, Dir(loc.abs), target, m, permits, depth + 1)
  }

  /** Everyone may do everything. */
  const ANYONE: Permits := (n, read, write) => true
  const NOBODY: Permits := (n, read, write) => false

  /** No permission decides what O_CREAT makes: only existing objects are checked. An open that answers
      EACCES does so for nobody too, and any other comes to what it comes to for anyone. */
  lemma {:induction false} MadeForAnyone(sp: Space, mounts: seq<Mount>, cwd: string, b: Origin, path: string, m: OpenMode,
                                         permits: Permits, others: Permits, depth: nat)
    requires ValidSeats(sp.seats) && |sp.seats| == |mounts| && GoodPath(cwd) && OriginFits(b)
    ensures var r := OpenAim(sp, mounts, cwd, b, path, m, permits, depth);
            (r.Ok? && r.value.Fresh?) || (others == ANYONE && r != Err(EACCES)) || (others == NOBODY && r == Err(EACCES)) ==>
              OpenAim(sp, mounts, cwd, b, path, m, others, depth) == r
    decreases MAX_DEPTH + 1 - depth
  {
    hide PathAnswer, CreateRound, Canonical, Components, WalkAim;
    if depth <= MAX_DEPTH {
      OpenForAnyone(sp, mounts, cwd, b, path, PLAIN_WALK.(nofollow := m.nofollow), m, permits);
      OpenForAnyone(sp, mounts, cwd, b, path, PLAIN_WALK, m, permits);
      PathFits(sp, cwd, b, path, PARENT);
      var w := PathAnswer(sp, cwd, b, path, PARENT);
      if m.create && w.Ok? {
        var c := CreateRound(sp, mounts, w.value, m);
        if c.Again? { MadeForAnyone(sp, mounts, cwd, Dir(w.value.abs), c.target, m, permits, others, depth + 1); }
      }
    }
  }

  lemma OpenForAnyone(sp: Space, mounts: seq<Mount>, cwd: string, b: Origin, path: string, flags: WalkFlags, m: OpenMode,
                      permits: Permits)
    requires ValidSeats(sp.seats) && |sp.seats| == |mounts| && GoodPath(cwd) && OriginFits(b) && !flags.parent
    ensures var r := WalkAim(sp, mounts, cwd, b, path, flags, m, permits);
            && (r.Ok? ==> r.value.Take?)
            && WalkAim(sp, mounts, cwd, b, path, flags, m, if r == Err(EACCES) then NOBODY else ANYONE) == r
  {
    hide PathAnswer, NodeAt, Canonical, Components;
  }

  // ---- what an open comes to ----

  /** The recorded path is canonical and within the buffers, or missing where O_CREAT met a
      name that does not fit; what is taken is what it names, unless O_CREAT found it, and
      what is made has an unused name in a directory. */
  ghost predicate AimFits(sp: Space, a: Aim)
    requires ValidSeats(sp.seats)
  {
    match a
    case Take(path, n, kind) =>
      && (if path == "" then kind == HostFile else GoodPath(path))
      && (kind == HostFile || NodeAt(sp, Components(path)) == Ok(n))
    case Fresh(path, d, name) =>
      && IsName(name) && IsDir(sp.objs, d) && Lookup(sp.objs, d, name) == Err(ENOENT)
      && (path != "" ==> GoodPath(path))
  }

  lemma ExistingFits(sp: Space, mounts: seq<Mount>, loc: Loc, m: OpenMode, permits: Permits)
    requires ValidSeats(sp.seats) && loc.mount < |mounts| == |sp.seats| && LocFits(sp.seats, loc, false)
    ensures var r := ExistingAim(sp, mounts, loc, m, permits);
            r.Ok? ==> r.value.Take? && r.value.path == loc.abs && NodeAt(sp, Components(loc.abs)) == Ok(r.value.n) && AimFits(sp, r.value)
  {
    CanonicalIsAbsolute(loc.abs);
    hide NodeAt, Canonical, Components, IsBest;
  }

  lemma CreatedGood(loc: Loc)
    requires GoodPath(loc.abs) && IsName(loc.last)
    ensures CreatedPath(loc) == "" || GoodPath(CreatedPath(loc))
    ensures if |loc.abs| + 1 + |loc.last| + 1 <= 4096 then Components(CreatedPath(loc)) == Components(loc.abs) + [loc.last]
            else CreatedPath(loc) == ""
  {
    hide Canonical, Components;
    JoinAppends(loc.abs, loc.last);
  }

  lemma RoundFits(sp: Space, mounts: seq<Mount>, loc: Loc, m: OpenMode)
    requires ValidSeats(sp.seats) && LocFits(sp.seats, loc, true)
    ensures var r := CreateRound(sp, mounts, loc, m); r.Answered? && r.r.Ok? ==> AimFits(sp, r.r.value)
  {
    hide NodeAt, Canonical, Components, IsBest;
    CreatedGood(loc);
    hide CreatedPath;
  }

  lemma {:induction false} OpenFits(sp: Space, mounts: seq<Mount>, cwd: string, b: Origin, path: string, m: OpenMode,
                                    permits: Permits, depth: nat)
    requires ValidSeats(sp.seats) && |sp.seats| == |mounts| && GoodPath(cwd) && OriginFits(b)
    ensures var r := OpenAim(sp, mounts, cwd, b, path, m, permits, depth); r.Ok? ==> AimFits(sp, r.value)
    decreases MAX_DEPTH + 1 - depth
  {
    hide PathAnswer, WalkAim, CreateRound, AimFits, Canonical, Components;
    if depth <= MAX_DEPTH {
      WalkAimFits(sp, mounts, cwd, b, path, PLAIN_WALK.(nofollow := m.nofollow), m, permits);
      WalkAimFits(sp, mounts, cwd, b, path, PLAIN_WALK, m, permits);
      PathFits(sp, cwd, b, path, PARENT);
      var w := PathAnswer(sp, cwd, b, path, PARENT);
      if m.create && w.Ok? {
        RoundFits(sp, mounts, w.value, m);
        var c := CreateRound(sp, mounts, w.value, m);
        if c.Again? { OpenFits(sp, mounts, cwd, Dir(w.value.abs), c.target, m, permits, depth + 1); }
      }
    }
  }

  lemma WalkAimFits(sp: Space, mounts: seq<Mount>, cwd: string, b: Origin, path: string, flags: WalkFlags, m: OpenMode,
                    permits: Permits)
    requires ValidSeats(sp.seats) && |sp.seats| == |mounts| && GoodPath(cwd) && OriginFits(b) && !flags.parent
    ensures var r := WalkAim(sp, mounts, cwd, b, path, flags, m, permits); r.Ok? ==> r.value.Take? && AimFits(sp, r.value)
  {
    hide PathAnswer, ExistingAim, AimFits, Canonical, Components;
    PathFits(sp, cwd, b, path, flags);
    var w := PathAnswer(sp, cwd, b, path, flags);
    if w.Ok? { ExistingFits(sp, mounts, w.value, m, permits); }
  }

  /** A plain open takes the very node that resolution over the tree reaches, and
      fails as resolution does. */
  lemma OpenAgrees(sp: Space, mounts: seq<Mount>, cwd: string, b: Origin, path: string, m: OpenMode, permits: Permits)
    requires IsSpace(sp) && |sp.seats| == |mounts| && GoodPath(cwd) && OriginFits(b) && !m.create
    requires path != "" && |path| < PATH_MAX && DirChain(sp, Components(StartOf(cwd, b, path)))
    ensures GoodPath(StartOf(cwd, b, path))
    ensures var r := OpenAim(sp, mounts, cwd, b, path, m, permits, 0);
            var found := Reference(sp, StartOf(cwd, b, path), path, WantFor(PLAIN_WALK.(nofollow := m.nofollow), Trailing(path)));
            && (r.Ok? ==> r.value.Take? && found.Ok? && found.value.place.node == r.value.n)
            && (found.Err? ==> r == Err(found.errno) || r == Err(ENAMETOOLONG))
  {
    RootText();
    var flags := PLAIN_WALK.(nofollow := m.nofollow);
    WalkAgrees(sp, StartOf(cwd, b, path), path, flags);
    PathFits(sp, cwd, b, path, flags);
    var w := PathAnswer(sp, cwd, b, path, flags);
    hide WalkText, Reference, Canonical, Components, IsBest, IsSpace, DirChain, WantFor, At, HostOpen, SynthOpen;
    if w.Ok? { ExistingFits(sp, mounts, w.value, m, permits); }
  }

  /** With O_EXCL nothing that exists is opened, except where the path ends in no name of its
      own: there is nothing in it but slashes, or it ends in `.` or `..`. */
  lemma ExclusiveOpens(sp: Space, mounts: seq<Mount>, cwd: string, b: Origin, path: string, m: OpenMode, permits: Permits)
    requires ValidSeats(sp.seats) && |sp.seats| == |mounts| && GoodPath(cwd) && OriginFits(b) && m.create && m.excl
    ensures var r := OpenAim(sp, mounts, cwd, b, path, m, permits, 0);
            r.Ok? ==> (r.value.Take? <==> Nameless(path))
  {
    PathByName(sp, cwd, b, path, PARENT);
    WalkAimFits(sp, mounts, cwd, b, path, PLAIN_WALK, m, permits);
    PathFits(sp, cwd, b, path, PARENT);
    var w := PathAnswer(sp, cwd, b, path, PARENT);
    if w.Ok? { ExclusiveRound(sp, mounts, w.value, m); }
    hide PathAnswer, WalkAim, CreateRound, Nameless, AimFits, Canonical;
  }

  /** With O_EXCL a round only ever makes a file. */
  lemma ExclusiveRound(sp: Space, mounts: seq<Mount>, loc: Loc, m: OpenMode)
    requires ValidSeats(sp.seats) && m.excl
    ensures var c := CreateRound(sp, mounts, loc, m); c.Answered? && (c.r.Ok? ==> c.r.value.Fresh?)
  {
    hide NodeAt, Components, CreatedPath;
  }

  /** The root directory is so opened, on every tree and from everywhere. */
  lemma ExclusiveOpensRoot(sp: Space, mounts: seq<Mount>, cwd: string, b: Origin, permits: Permits)
    requires IsSpace(sp) && |sp.seats| == |mounts| && mounts[0].HostMount? && GoodPath(cwd) && OriginFits(b)
    requires permits(sp.seats[0].root, true, false)
    ensures Nameless("/")
    ensures OpenAim(sp, mounts, cwd, b, "/", OpenMode(ReadOnly, true, true, false, false, false, false), permits, 0)
            == Ok(Take("/", sp.seats[0].root, HostFolder))
  {
    RootText();
    var none: seq<string> := [];
    assert IsBest(sp.seats, none, 0);
    BestUnique(sp.seats, none, 0);
    AtPoint(sp, 0);
    assert Point(sp.seats, 0) == none;
    RootWalks(sp);
    hide WalkText, At, IsSpace, ValidSeats, Components, Canonical;
  }

  lemma RootWalks(sp: Space)
    requires ValidSeats(sp.seats) && GoodPath("/")
    ensures WalkText(sp, "/", "/", 0, PARENT, false) == Err(EEXIST)
    ensures WalkText(sp, "/", "/", 0, PLAIN_WALK, false) == Ok(Loc(SeatOf(sp.seats, Components("/")), "/", ""))
  {
    assert SkipSlashes("/") == SkipSlashes("/"[1..]) == "";
  }
}
