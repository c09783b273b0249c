/** A directory deep enough that a name in it has no room behind its path: where
    unlink and rename read a path that was never built. */
module DeepPaths {
  import opened Basics
  import opened Errors
  import opened Paths
  import opened Trees
  import opened Spaces
  import opened Walks
  import opened Openings
  import opened VfsOps

  /** Naming an entry of such a directory is all it takes: the walk stops at the
      parent before any path is joined. */
  lemma ParentWalkReaches(sp: Space, cwd: string, b: Origin, name: string)
    requires ValidSeats(sp.seats) && GoodPath(cwd) && OriginFits(b) && IsName(name)
    requires DirHolds(sp, StartOf(cwd, b, name))
    ensures var abs := StartOf(cwd, b, name);
            PathAnswer(sp, cwd, b, name, PARENT) == Ok(Loc(SeatOf(sp.seats, Components(abs)), abs, name))
  {
    hide Canonical, NodeAt, Components, SeatOf, ValidSeats;
    RootText();
    NameLenWhole(name);
    assert name[..|name|] == name && name[|name|..] == "";
    assert SkipSlashes(name) == name && SkipSlashes("") == "";
  }

  ghost predicate DirHolds(sp: Space, abs: string)
    requires ValidSeats(sp.seats)
  {
    var n := NodeAt(sp, Components(abs));
    n.Ok? && IsDir(sp.objs, n.value)
  }

  const DEPTH := 15

  /** A name of the greatest length. */
  function LongName(): (s: string)
    ensures IsName(s) && |s| == NAME_MAX
  {
    var s := seq(NAME_MAX, _ => 'a');
    assert s[0] == 'a' && s[1] == 'a';
    s
  }

  predicate Among(i: nat, n: nat) {
    i <= n
  }

  /** A chain of directories, each the only entry of the one before. */
  function Chain(n: nat): Objects {
    map i: nat | 0 <= i <= n && Among(i, n) :: Directory(if i < n then map[LongName() := i + 1] else map[], if i == 0 then 0 else i - 1)
  }

  function Names(n: nat): (cs: seq<string>)
    ensures |cs| == n && AllNames(cs)
  {
    seq(n, _ => LongName())
  }

  lemma ChainIsTree(n: nat)
    ensures IsTree(Chain(n))
  {
    var objs := Chain(n);
    hide LongName;
    forall d: NodeId, a: string ensures EdgeOk(objs, d, a) { ChainEdge(n, d, a); }
    forall m: NodeId ensures NodeOk(objs, m) { ChainNode(n, m); }
    var depth: map<NodeId, nat> := map i: nat | 0 <= i <= n && Among(i, n) :: i;
    assert Ranked(objs, depth);
  }

  lemma ChainEdge(n: nat, d: NodeId, a: string)
    ensures EdgeOk(Chain(n), d, a)
  {
    var name := LongName();
    hide LongName;
  }

  lemma ChainNode(n: nat, m: NodeId)
    ensures NodeOk(Chain(n), m)
  {
    hide LongName;
    if 0 < m <= n { assert Lookup(Chain(n), m - 1, LongName()) == Ok(m); }
  }

  lemma {:induction false} ChainDescends(n: nat, from: nat, k: nat)
    requires from + k <= n
    ensures Descend(Chain(n), from, Names(k)) == Ok(from + k)
    decreases k
  {
    hide LongName;
    if k > 0 {
      ChainDescends(n, from + 1, k - 1);
      assert Names(k)[1..] == Names(k - 1);
    }
  }

  lemma {:induction false} TailLength(k: nat)
    ensures |Tail(Names(k))| == k * (NAME_MAX + 1)
  {
    if k > 0 {
      TailLength(k - 1);
      assert Names(k)[..k - 1] == Names(k - 1);
    }
  }

  /** The chain, mounted at the root. */
  function Deep(): Space {
    Space(Chain(DEPTH), [Seat([], 0)])
  }

  lemma DeepIsSpace()
    ensures IsSpace(Deep()) && ValidSeats(Deep().seats)
  {
    ChainIsTree(DEPTH);
    hide IsTree, LongName;
  }

  /** The one mount is the mount of every path. */
  lemma OneSeat(cs: seq<string>)
    ensures ValidSeats(Deep().seats) && SeatOf(Deep().seats, cs) == 0
    ensures NodeAt(Deep(), cs) == Descend(Chain(DEPTH), 0, cs)
  {
    DeepIsSpace();
    hide Chain, ValidSeats, IsSpace, Descend;
    assert Deep().seats[0] == Seat([], 0);
    assert IsBest(Deep().seats, cs, 0);
    BestUnique(Deep().seats, cs, 0);
    assert cs[0..] == cs;
  }

  /** Every directory of the chain is where its path says. */
  lemma DeepNode(k: nat)
    requires k <= DEPTH
    ensures ValidSeats(Deep().seats) && GoodPath(Render(Names(k))) && DirHolds(Deep(), Render(Names(k)))
    ensures SeatOf(Deep().seats, Components(Render(Names(k)))) == 0
    ensures k > 0 ==> |Render(Names(k))| == k * (NAME_MAX + 1)
  {
    OneSeat(Names(k));
    ChainDescends(DEPTH, 0, k);
    TailLength(k);
    RenderRoundTrip(Names(k));
    ChainDir(DEPTH, k);
    hide Chain, Names, Components, Canonical, NodeAt, Descend, ValidSeats;
  }

  lemma ChainDir(n: nat, k: nat)
    requires k <= n
    ensures IsDir(Chain(n), k)
  {
  }

  /** Such a location is reached on an ordinary tree: from a working directory 3840
      bytes deep, unlinking a long name, or renaming the topmost directory to one. */
  lemma UndefinedIsReached()
    ensures IsSpace(Deep()) && ValidSeats(Deep().seats) && GoodPath(Render(Names(DEPTH))) && GoodPath("/")
    ensures var sp, mounts, cwd, name := Deep(), [HostMount("/", 1)], Render(Names(DEPTH)), LongName();
            && UnlinkAnswer(sp, mounts, PathAnswer(sp, cwd, Cwd, name, PARENT), name, false) == Err(Unspecified)
            && RenameAnswer(sp, mounts, PathAnswer(sp, cwd, Dir("/"), name, PARENT), PathAnswer(sp, cwd, Cwd, name, PARENT), false)
                 == Err(Unspecified)
  {
    var cwd, name := Render(Names(DEPTH)), LongName();
    DeepIsSpace();
    DeepNode(0);
    DeepNode(DEPTH);
    assert Render(Names(0)) == "/";
    hide Chain, Names, Components, Canonical, PathAnswer, DirHolds, IsSpace, Render, LongName, RenameNames, NodeAt;
    assert name[0] != '/';
    ParentWalkReaches(Deep(), cwd, Cwd, name);
    ParentWalkReaches(Deep(), cwd, Dir("/"), name);
  }
}
