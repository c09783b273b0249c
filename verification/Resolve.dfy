/** Pathname resolution as section 4.13 of POSIX.1-2017 XBD describes it: over
    nodes and parent pointers, with no path text but the links' own. */
module Resolution {
  import opened Basics
  import opened Errors
  import opened Paths
  import opened Trees
  import opened Spaces

  const MAX_LINKS := 40

  /** `strict` is the POSIX reading of a trailing slash inside a link's target. */
  datatype Want = Want(followLast: bool, mustDir: bool, parentOnly: bool, strict: bool)

  /** The node reached; `last` names the final component when only its parent was wanted. */
  datatype Found = Found(place: Place, last: string)

  predicate Usable(target: string) {
    0 < |target| < PATH_MAX
  }

  ghost function RootPlace(sp: Space): Place
    requires ValidSeats(sp.seats)
  {
    Place(0, sp.seats[0].root)
  }

  predicate EndsInSlash(t: string) {
    t != "" && t[|t| - 1] == '/'
  }

  /** One move of a resolution: an answer, or a smaller resolution. `slash` says
      that a link was followed in last position whose target ends in a slash. */
  datatype Move =
    | Stop(answer: Result<Found>)
    | Go(cur: Place, cs: seq<string>, budget: nat, slash: bool)

  ghost function Next(sp: Space, cur: Place, cs: seq<string>, budget: nat, want: Want): (m: Move)
    requires ValidSeats(sp.seats) && cur.seat < |sp.seats|
    ensures m.Go? ==> m.cur.seat < |sp.seats| && cs != []
    ensures m.Go? ==> m.budget < budget || (m.budget == budget && |m.cs| < |cs|)
  {
    if cs == [] then
      if want.parentOnly then Stop(Err(EEXIST))
      else if want.mustDir && !IsDir(sp.objs, cur.node) then Stop(Err(ENOTDIR))
      else Stop(Ok(Found(cur, "")))
    else if !IsDir(sp.objs, cur.node) then Stop(Err(ENOTDIR))
    else
      var c, rest := cs[0], cs[1..];
      if c == "." then Go(cur, rest, budget, false)
      else if c == ".." then Go(Up(sp, cur), rest, budget, false)
      else if rest == [] && want.parentOnly then Stop(Ok(Found(cur, c)))
      else match Enter(sp, cur, c)
        case Err(e) => Stop(Err(e))
        case Ok(next) =>
          if IsLink(sp.objs, next.node) && (rest != [] || want.followLast) then
            var target := sp.objs[next.node].target;
            if budget == 0 then Stop(Err(ELOOP))
            else if !Usable(target) then Stop(Err(ENOENT))
            else Go(if target[0] == '/' then RootPlace(sp) else cur, Components(target) + rest,
                    budget - 1, rest == [] && EndsInSlash(target))
          else Go(next, rest, budget, false)
  }

  ghost function Resolve(sp: Space, cur: Place, cs: seq<string>, budget: nat, want: Want): Result<Found>
    requires ValidSeats(sp.seats) && cur.seat < |sp.seats|
    decreases budget, |cs|
  {
    match Next(sp, cur, cs, budget, want)
    case Stop(r) => r
    case Go(cur', cs', budget', slash) =>
      Resolve(sp, cur', cs', budget', if want.strict && slash then want.(mustDir := true) else want)
  }

  // ---- trailing slashes inside link targets ----

  /** Some link followed in last position has a target that ends in a slash. */
  ghost predicate TargetSlash(sp: Space, cur: Place, cs: seq<string>, budget: nat, want: Want)
    requires ValidSeats(sp.seats) && cur.seat < |sp.seats|
    decreases budget, |cs|
  {
    match Next(sp, cur, cs, budget, want)
    case Stop(_) => false
    case Go(cur', cs', budget', slash) => slash || TargetSlash(sp, cur', cs', budget', want)
  }

  /** The answer once a directory is demanded at the end. */
  ghost function Demanded(sp: Space, loose: Result<Found>, demand: bool): Result<Found> {
    if demand && loose.Ok? && !IsDir(sp.objs, loose.value.place.node) then Err(ENOTDIR) else loose
  }

  /** Demanding a directory at the end only changes an answer that is not one. */
  lemma {:induction false} MustDirRefines(sp: Space, cur: Place, cs: seq<string>, budget: nat, want: Want)
    requires ValidSeats(sp.seats) && cur.seat < |sp.seats| && !want.strict && !want.parentOnly
    ensures Resolve(sp, cur, cs, budget, want.(mustDir := true)) ==
            Demanded(sp, Resolve(sp, cur, cs, budget, want), true)
    decreases budget, |cs|
  {
    var m := Next(sp, cur, cs, budget, want);
    if m.Go? {
      assert Next(sp, cur, cs, budget, want.(mustDir := true)) == m;
      MustDirRefines(sp, m.cur, m.cs, m.budget, want);
    }
  }

  /** The exact gap between the walk's reading and the POSIX one: they differ
      just when a followed last link ends in a slash and leads to a non-directory. */
  lemma {:induction false} StrictExactly(sp: Space, cur: Place, cs: seq<string>, budget: nat, want: Want)
    requires ValidSeats(sp.seats) && cur.seat < |sp.seats| && !want.strict && !want.parentOnly
    ensures Resolve(sp, cur, cs, budget, want.(strict := true)) ==
            Demanded(sp, Resolve(sp, cur, cs, budget, want), TargetSlash(sp, cur, cs, budget, want))
    decreases budget, |cs|
  {
    var m := Next(sp, cur, cs, budget, want);
    assert Next(sp, cur, cs, budget, want.(strict := true)) == m;
    if m.Go? {
      if m.slash {
        StrictExactly(sp, m.cur, m.cs, m.budget, want.(mustDir := true));
        MustDirRefines(sp, m.cur, m.cs, m.budget, want);
        assert want.(mustDir := true).(strict := true) == want.(strict := true).(mustDir := true);
      } else {
        StrictExactly(sp, m.cur, m.cs, m.budget, want);
      }
    }
  }

  /** A link whose target is a plain file's name and a slash: the walk's reading
      accepts it, POSIX refuses. */
  lemma SlashAfterFile(sp: Space, cur: Place, l: string, f: string)
    requires ValidSeats(sp.seats) && cur.seat < |sp.seats| && IsDir(sp.objs, cur.node)
    requires IsName(l) && IsName(f)
    requires Enter(sp, cur, l).Ok? && Enter(sp, cur, f).Ok?
    requires IsLink(sp.objs, Enter(sp, cur, l).value.node)
    requires sp.objs[Enter(sp, cur, l).value.node].target == f + "/"
    requires var n := Enter(sp, cur, f).value.node; !IsLink(sp.objs, n) && !IsDir(sp.objs, n)
    ensures var want := Want(true, false, false, false);
            && Resolve(sp, cur, [l], 40, want) == Ok(Found(Enter(sp, cur, f).value, ""))
            && Resolve(sp, cur, [l], 40, want.(strict := true)) == Err(ENOTDIR)
  {
    var want := Want(true, false, false, false);
    hide Enter, Components, IsName, Resolve, TargetSlash, EndsInSlash, Usable;
    NameThenSlash(f);
    ThroughLink(sp, cur, l, f);
    ToFile(sp, cur, f, want);
    ToFile(sp, cur, f, want.(strict := true, mustDir := true));
  }

  lemma NameThenSlash(f: string)
    requires IsName(f)
    ensures Components(f + "/") == [f] && Usable(f + "/") && EndsInSlash(f + "/") && (f + "/")[0] != '/'
  {
    ComponentsOfName(f);
    ComponentsConcat(f, "/");
    assert Components("/") == Components("/"[1..]) == [];
    assert Components(f + "/") == [f] + [];
    assert (f + "/")[0] == f[0];
  }

  /** Following the link `l` to the text `f/`. */
  lemma ThroughLink(sp: Space, cur: Place, l: string, f: string)
    requires ValidSeats(sp.seats) && cur.seat < |sp.seats| && IsDir(sp.objs, cur.node) && IsName(l)
    requires var a := Enter(sp, cur, l); a.Ok? && IsLink(sp.objs, a.value.node) && sp.objs[a.value.node].target == f + "/"
    requires Components(f + "/") == [f] && Usable(f + "/") && EndsInSlash(f + "/") && (f + "/")[0] != '/'
    ensures var want := Want(true, false, false, false);
            && Resolve(sp, cur, [l], 40, want) == Resolve(sp, cur, [f], 39, want)
            && Resolve(sp, cur, [l], 40, want.(strict := true)) == Resolve(sp, cur, [f], 39, want.(strict := true, mustDir := true))
  {
    hide Enter, Components, Usable, EndsInSlash, ValidSeats;
    var want := Want(true, false, false, false);
    assert [l][1..] == [] && [f] + [] == [f];
    assert Next(sp, cur, [l], 40, want) == Go(cur, [f], 39, true);
    assert Next(sp, cur, [l], 40, want.(strict := true)) == Go(cur, [f], 39, true);
    hide Next;
  }

  /** A plain file's name as all there is to resolve. */
  lemma ToFile(sp: Space, cur: Place, f: string, want: Want)
    requires ValidSeats(sp.seats) && cur.seat < |sp.seats| && IsDir(sp.objs, cur.node) && IsName(f) && !want.parentOnly
    requires var a := Enter(sp, cur, f); a.Ok? && !IsLink(sp.objs, a.value.node) && !IsDir(sp.objs, a.value.node)
    ensures Resolve(sp, cur, [f], 39, want) == if want.mustDir then Err(ENOTDIR) else Ok(Found(Enter(sp, cur, f).value, ""))
  {
    hide Enter, Components, ValidSeats;
    var file := Enter(sp, cur, f).value;
    assert [f][1..] == [];
    assert Next(sp, cur, [f], 39, want) == Go(file, [], 39, false);
    assert Next(sp, file, [], 39, want) == Stop(if want.mustDir then Err(ENOTDIR) else Ok(Found(file, "")));
    hide Next;
  }

  function SlashSpace(): Space {
    Space(map[0 := Directory(map["f" := 1, "l" := 2], 0), 1 := Plain(false), 2 := Symlink("f/")],
          [Seat([], 0)])
  }

  lemma SlashSpaceIsSpace()
    ensures IsSpace(SlashSpace())
  {
    var objs := SlashSpace().objs;
    assert forall d :: IsDir(objs, d) ==> d == 0;
    assert forall a :: a in objs[0].entries ==> IsName(a) && !IsDir(objs, objs[0].entries[a]);
    assert Linked(objs);
    assert Ranked(objs, map[0 := 0]);
  }

  /** The gap is real: in this tree `l` names a file through the target `f/`. */
  lemma SlashWitness()
    ensures IsSpace(SlashSpace())
    ensures var sp := SlashSpace();
            var want := Want(true, false, false, false);
            && Resolve(sp, RootPlace(sp), ["l"], 40, want) == Ok(Found(Place(0, 1), ""))
            && Resolve(sp, RootPlace(sp), ["l"], 40, want.(strict := true)) == Err(ENOTDIR)
  {
    SlashSpaceIsSpace();
    var sp := SlashSpace();
    var root := RootPlace(sp);
    assert forall k: nat, name :: !SeatedAt(sp, root, name, k);
    SlashAfterFile(sp, root, "l", "f");
  }
}
