/** What the text of a path names, read off nodes and parent pointers alone: the rules of
    section 4.13 of POSIX.1-2017 XBD for the whole of a caller's path, trailing slashes,
    starting directory and link limit included, and the kernel's walk against them. */
module Naming {
  import opened Basics
  import opened Errors
  import opened Paths
  import opened Trees
  import opened Spaces
  import opened Resolution
  import opened Walks

  /** A path that ends in slashes is resolved as if a single dot were appended, unless only the
      parent of its last name is wanted. */
  function Spelled(path: string, parentOnly: bool): seq<string> {
    Components(path) + if !parentOnly && path != "" && path[|path| - 1] == '/' then ["."] else []
  }

  /** What a path leads to, given with the directory at `dir`. */
  ghost function Leads(sp: Space, dir: string, path: string, want: Want): Result<Found>
    requires ValidSeats(sp.seats)
  {
    if path == "" then Err(ENOENT)
    else match At(sp, if path[0] == '/' then [] else Components(dir))
      case Err(e) => Err(e)
      case Ok(from) => Resolve(sp, from, Spelled(path, want.parentOnly), 40, want)
  }

  /** Where only the parent is wanted, nothing else is. */
  lemma {:induction false} OnlyParent(sp: Space, cur: Place, cs: seq<string>, budget: nat, want: Want, other: Want)
    requires ValidSeats(sp.seats) && cur.seat < |sp.seats| && !want.strict && !other.strict
    requires want.parentOnly && other.parentOnly
    ensures Resolve(sp, cur, cs, budget, want) == Resolve(sp, cur, cs, budget, other)
    decreases budget, |cs|
  {
    hide Enter, Up, Components;
    var m := Next(sp, cur, cs, budget, want);
    assert m == Next(sp, cur, cs, budget, other);
    if m.Go? { OnlyParent(sp, m.cur, m.cs, m.budget, want, other); }
  }

  /** To demand a directory and to follow a last link is to resolve one dot more. */
  lemma {:induction false} DotDemands(sp: Space, cur: Place, cs: seq<string>, budget: nat, want: Want)
    requires ValidSeats(sp.seats) && cur.seat < |sp.seats| && !want.strict && !want.parentOnly
    ensures Resolve(sp, cur, cs + ["."], budget, want) == Resolve(sp, cur, cs, budget, want.(followLast := true, mustDir := true))
    decreases budget, |cs|
  {
    var all, firm := cs + ["."], want.(followLast := true, mustDir := true);
    if cs == [] {
      assert all == ["."] && all[1..] == [];
      var none: seq<string> := [];
      assert Resolve(sp, cur, none, budget, want) == Resolve(sp, cur, all[1..], budget, want);
      assert Next(sp, cur, none, budget, firm) == if IsDir(sp.objs, cur.node) then Stop(Ok(Found(cur, ""))) else Stop(Err(ENOTDIR));
    } else {
      assert all[0] == cs[0] && all[1..] == cs[1..] + ["."];
      DotNext(sp, cur, cs, budget, want);
      var m := Next(sp, cur, cs, budget, firm);
      hide Next;
      if m.Go? { DotDemands(sp, m.cur, m.cs, m.budget, want); }
    }
  }

  lemma DotNext(sp: Space, cur: Place, cs: seq<string>, budget: nat, want: Want)
    requires ValidSeats(sp.seats) && cur.seat < |sp.seats| && cs != [] && !want.parentOnly
    ensures var m := Next(sp, cur, cs, budget, want.(followLast := true, mustDir := true));
            var n := Next(sp, cur, cs + ["."], budget, want);
            if m.Stop? then n == m else n.Go? && n.cur == m.cur && n.cs == m.cs + ["."] && n.budget == m.budget
  {
    hide Enter, Up, Components, Usable, ValidSeats, IsDir;
    var all := cs + ["."];
    assert all[0] == cs[0] && all[1..] == cs[1..] + ["."] && all[1..] != [];
    var e := Enter(sp, cur, cs[0]);
    if e.Ok? && IsLink(sp.objs, e.value.node) {
      var t := Components(sp.objs[e.value.node].target);
      assert t + (cs[1..] + ["."]) == (t + cs[1..]) + ["."];
    }
  }

  /** A path with a trailing slash, read as the walk's flags read it. */
  lemma TrailingReads(sp: Space, cur: Place, path: string, flags: WalkFlags)
    requires ValidSeats(sp.seats) && cur.seat < |sp.seats| && path != ""
    requires path == "/" ==> IsDir(sp.objs, cur.node)
    ensures Resolve(sp, cur, Components(path), 40, WantFor(flags, Trailing(path)))
            == Resolve(sp, cur, Spelled(path, flags.parent), 40, Want(!flags.nofollow, flags.mustdir, flags.parent, false))
  {
    var want := Want(!flags.nofollow, flags.mustdir, flags.parent, false);
    var cs := Components(path);
    assert cs + [] == cs;
    if flags.parent {
      OnlyParent(sp, cur, cs, 40, WantFor(flags, Trailing(path)), want);
    } else if path[|path| - 1] == '/' {
      DotDemands(sp, cur, cs, 40, want);
      if |path| == 1 { RootAlone(sp, cur, want); }
    }
  }

  lemma RootAlone(sp: Space, cur: Place, want: Want)
    requires ValidSeats(sp.seats) && cur.seat < |sp.seats| && IsDir(sp.objs, cur.node) && !want.parentOnly
    ensures Components("/") == []
    ensures Resolve(sp, cur, [], 40, want) == Resolve(sp, cur, [], 40, want.(followLast := true, mustDir := true))
  {
    RootText();
    var none: seq<string> := [];
    assert Next(sp, cur, none, 40, want) == Stop(Ok(Found(cur, "")));
  }

  /** The walk answers as the path reads: it starts at the root, at the descriptor's directory or at
      the working directory, follows at most forty links, and takes a slash at the end for a dot;
      only ENAMETOOLONG is its own. */
  lemma PathLeads(sp: Space, cwd: string, b: Origin, path: string, flags: WalkFlags)
    requires IsSpace(sp) && GoodPath(cwd) && OriginFits(b)
    requires (path != "" && path[0] == '/') || DirChain(sp, Components(if b.Dir? then b.path else cwd))
    ensures var r := PathAnswer(sp, cwd, b, path, flags);
            && (|path| >= 4096 ==> r == Err(ENAMETOOLONG))
            && (r == Err(ENAMETOOLONG)
                || Agrees(sp, r, Leads(sp, if b.Dir? then b.path else cwd, path,
                                       Want(!flags.nofollow, flags.mustdir, flags.parent, false))))
  {
    hide WalkText, Resolve, Agrees, WantFor, Trailing, Spelled, Canonical;
    RootText();
    Unnamed(sp);
    if path != "" && |path| < PATH_MAX {
      var start := StartOf(cwd, b, path);
      TopChain(sp);
      WalkAgrees(sp, start, path, flags);
      ChainFront(sp, Components(start));
      TrailingReads(sp, At(sp, Components(start)).value, path, flags);
    }
  }

  lemma Unnamed(sp: Space)
    requires ValidSeats(sp.seats)
    ensures Agrees(sp, Err(ENOENT), Err(ENOENT))
  {
  }

  lemma TopChain(sp: Space)
    requires IsSpace(sp)
    ensures DirChain(sp, []) && DirAt(sp, [])
  {
    AtPoint(sp, 0);
    var none: seq<string> := [];
    assert none[..0] == none;
    assert DirAt(sp, none);
  }

  /** On any space and with every flag: a path that ends in a slash leads to a directory or fails. */
  lemma SlashNamesDir(sp: Space, cwd: string, b: Origin, path: string, flags: WalkFlags)
    requires ValidSeats(sp.seats) && GoodPath(cwd) && OriginFits(b)
    requires |path| > 1 && path[|path| - 1] == '/' && !flags.parent
    ensures var r := PathAnswer(sp, cwd, b, path, flags);
            r.Ok? ==> var n := NodeAt(sp, Components(r.value.abs)); n.Ok? && IsDir(sp.objs, n.value)
  {
    hide WalkText, Canonical, Components;
    RootText();
    if |path| < PATH_MAX { EndsOnDir(sp, StartOf(cwd, b, path), path, 0, flags); }
  }

  lemma {:induction false} EndsOnDir(sp: Space, abs: string, p: string, nlinks: nat, flags: WalkFlags)
    requires ValidSeats(sp.seats) && GoodPath(abs) && |p| < PATH_MAX && nlinks <= MAX_LINKS && !flags.parent
    ensures var r := WalkText(sp, abs, p, nlinks, flags, true);
            r.Ok? ==> var n := NodeAt(sp, Components(r.value.abs)); n.Ok? && IsDir(sp.objs, n.value)
    decreases MAX_LINKS - nlinks, |p|
  {
    hide SkipSlashes, Canonical, Components, NodeAt, LocFits, StepOf;
    var q := SkipSlashes(p);
    if q != "" {
      StepFits(sp, abs, q, nlinks, flags, true);
      StepRefuses(sp, abs, q, nlinks, flags, true);
      var step := StepOf(sp, abs, q, nlinks, flags, true);
      if step.More? { EndsOnDir(sp, step.abs, step.p, step.nlinks, flags); }
    }
  }

  /** Unless a parent is wanted, a walk that stops before its end has failed. */
  lemma StepRefuses(sp: Space, abs: string, p: string, nlinks: nat, flags: WalkFlags, trailing: bool)
    requires ValidSeats(sp.seats) && GoodPath(abs) && p != "" && p[0] != '/' && nlinks <= MAX_LINKS && !flags.parent
    ensures var s := StepOf(sp, abs, p, nlinks, flags, trailing); s.Answer? ==> s.r.Err?
  {
    hide NodeAt, Components, Canonical, Join, Seated, Parent, SkipSlashes;
  }

  /** Resolving a link's name is resolving its target, from the root or from where the link is,
      with one link fewer to spend; an empty target, or one of 4096 characters or more, is ENOENT. */
  lemma LinkLeads(sp: Space, cur: Place, l: string, rest: seq<string>, left: nat, want: Want)
    requires ValidSeats(sp.seats) && cur.seat < |sp.seats| && IsDir(sp.objs, cur.node) && IsName(l)
    requires !want.strict && (rest != [] || (want.followLast && !want.parentOnly))
    requires var e := Enter(sp, cur, l); e.Ok? && IsLink(sp.objs, e.value.node)
    ensures var t := sp.objs[Enter(sp, cur, l).value.node].target;
            Resolve(sp, cur, [l] + rest, left, want) ==
              if left == 0 then Err(ELOOP)
              else if t == "" || |t| >= 4096 then Err(ENOENT)
              else Resolve(sp, if t[0] == '/' then Place(0, sp.seats[0].root) else cur, Components(t) + rest, left - 1, want)
  {
    hide Resolve, Components, Enter, IsName;
    LinkResolve(sp, cur, l, rest, sp.objs[Enter(sp, cur, l).value.node].target, left, want);
  }

  /** A name of up to 255 characters is looked for, a longer one is refused. */
  lemma NameLimit(sp: Space, cwd: string, b: Origin, name: string, flags: WalkFlags)
    requires ValidSeats(sp.seats) && GoodPath(cwd) && OriginFits(b)
    requires name !in {"", ".", ".."} && '/' !in name && |name| < 4096
    ensures |name| > 255 ==> PathAnswer(sp, cwd, b, name, flags) == Err(ENAMETOOLONG)
    ensures |name| <= 255 && flags.parent ==> PathAnswer(sp, cwd, b, name, flags) != Err(ENAMETOOLONG)
  {
    hide Components, Canonical, At;
    var start := StartOf(cwd, b, name);
    assert SkipSlashes(name) == name && NameLen(name) == |name| && SkipSlashes("") == "";
    assert name[..|name|] == name && name[|name|..] == "";
    NotTooLong(sp, Components(start));
  }

  lemma NotTooLong(sp: Space, cs: seq<string>)
    requires ValidSeats(sp.seats)
    ensures NodeAt(sp, cs) != Err(ENAMETOOLONG)
  {
    var k := SeatOf(sp.seats, cs);
    DescendFinds(sp.objs, sp.seats[k].root, cs[|Point(sp.seats, k)|..]);
  }

  lemma {:induction false} DescendFinds(objs: Objects, n: NodeId, cs: seq<string>)
    ensures Descend(objs, n, cs) != Err(ENAMETOOLONG)
    decreases |cs|
  {
    if cs != [] && Lookup(objs, n, cs[0]).Ok? { DescendFinds(objs, Lookup(objs, n, cs[0]).value, cs[1..]); }
  }

  /** For an operation on a name a slash behind it makes no difference. */
  lemma ParentIgnoresSlash(path: string)
    requires path != ""
    ensures Spelled(path + "/", true) == Spelled(path, true)
  {
    ComponentsConcat(path, "/");
    RootText();
  }
}
