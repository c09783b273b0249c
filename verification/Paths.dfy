/** Path text and path arithmetic (core/vfs.c): absolute paths as strings, the
    components they are made of, and the string operations the walk uses. */
module Paths {
  import opened Basics

  /** A component a canonical path may contain. */
  predicate IsName(c: string) {
    0 < |c| <= NAME_MAX && '/' !in c && c != "." && c != ".."
  }

  predicate AllNames(cs: seq<string>) {
    forall i :: 0 <= i < |cs| ==> IsName(cs[i])
  }

  /** The length of the text before the first slash (`strchr` or `strlen`). */
  function NameLen(t: string): (n: nat)
    ensures n <= |t|
    ensures '/' !in t[..n]
    ensures n < |t| ==> t[n] == '/'
  {
    if t == "" || t[0] == '/' then 0
    else
      var n := 1 + NameLen(t[1..]);
      assert t[..n] == [t[0]] + t[1..][..n - 1];
      n
  }

  /** What a path says component by component: the non-empty pieces between slashes. */
  function Components(t: string): (cs: seq<string>)
    ensures forall i :: 0 <= i < |cs| ==> cs[i] != "" && '/' !in cs[i]
    decreases |t|
  {
    if t == "" then []
    else if t[0] == '/' then Components(t[1..])
    else [t[..NameLen(t)]] + Components(t[NameLen(t)..])
  }

  function Tail(cs: seq<string>): string {
    if cs == [] then "" else Tail(cs[..|cs| - 1]) + "/" + cs[|cs| - 1]
  }

  /** The canonical text of a list of components. */
  function Render(cs: seq<string>): string {
    if cs == [] then "/" else Tail(cs)
  }

  /** Absolute, and without an empty, "." , ".." or overlong component. */
  predicate Canonical(abs: string) {
    AllNames(Components(abs)) && Render(Components(abs)) == abs
  }

  // ---- components of concatenated text ----

  lemma {:induction false} ComponentsConcat(a: string, b: string)
    requires b == "" || b[0] == '/'
    ensures Components(a + b) == Components(a) + Components(b)
    decreases |a|
  {
    if a == "" {
      assert a + b == b;
    } else if a[0] == '/' {
      assert (a + b)[1..] == a[1..] + b;
      ComponentsConcat(a[1..], b);
    } else {
      NameLenConcat(a, b);
      var n := NameLen(a);
      assert (a + b)[..n] == a[..n];
      assert (a + b)[n..] == a[n..] + b;
      ComponentsConcat(a[n..], b);
    }
  }

  lemma {:induction false} NameLenConcat(a: string, b: string)
    requires b == "" || b[0] == '/'
    ensures NameLen(a + b) == NameLen(a)
  {
    if a == "" {
      assert a + b == b;
    } else if a[0] != '/' {
      assert (a + b)[1..] == a[1..] + b;
      NameLenConcat(a[1..], b);
    }
  }

  lemma {:induction false} NameLenWhole(c: string)
    requires '/' !in c
    ensures NameLen(c) == |c|
  {
    if c != "" {
      NameLenWhole(c[1..]);
    }
  }

  lemma ComponentsOfName(c: string)
    requires c != "" && '/' !in c
    ensures Components(c) == [c]
    ensures Components("/" + c) == [c]
  {
    NameLenWhole(c);
    assert c[..|c|] == c;
    assert Components(c[|c|..]) == [];
    assert ("/" + c)[1..] == c;
  }

  // ---- canonical text round trip ----

  lemma {:induction false} ComponentsOfTail(cs: seq<string>)
    requires forall i :: 0 <= i < |cs| ==> cs[i] != "" && '/' !in cs[i]
    ensures Components(Tail(cs)) == cs
    ensures cs != [] ==> Tail(cs) != "" && Tail(cs)[0] == '/' && |Tail(cs)| > 1
  {
    if cs != [] {
      var front, c := cs[..|cs| - 1], cs[|cs| - 1];
      ComponentsOfTail(front);
      ComponentsOfName(c);
      ComponentsConcat(Tail(front), "/" + c);
      assert Tail(cs) == Tail(front) + ("/" + c);
      assert front + [c] == cs;
    }
  }

  /** Canonical text and component lists determine each other. */
  lemma RenderRoundTrip(cs: seq<string>)
    requires AllNames(cs)
    ensures Components(Render(cs)) == cs
    ensures Canonical(Render(cs))
  {
    ComponentsOfTail(cs);
    assert Components("/") == Components("/"[1..]) == [];
  }

  lemma CanonicalIsAbsolute(abs: string)
    requires Canonical(abs)
    ensures abs != "" && abs[0] == '/'
    ensures |abs| == 1 <==> Components(abs) == []
    ensures Components(abs) == [] ==> abs == "/"
  {
    ComponentsOfTail(Components(abs));
  }

  // ---- path_join ----

  /** Whether `path_join` finds room for the result and its terminator. */
  predicate Fits(dir: string, name: string) {
    |dir| + 1 + |name| + 1 <= PATH_MAX
  }

  function Join(dir: string, name: string): string {
    if dir == "/" then "/" + name else dir + "/" + name
  }

  /** `path_join` appends one component, and refuses exactly the results that do
      not fit the buffer with their terminator. */
  lemma JoinAppends(abs: string, name: string)
    requires Canonical(abs) && IsName(name)
    ensures Canonical(Join(abs, name))
    ensures Components(Join(abs, name)) == Components(abs) + [name]
    ensures Fits(abs, name) <==> |Join(abs, name)| < PATH_MAX
  {
    CanonicalIsAbsolute(abs);
    var cs := Components(abs);
    var all := cs + [name];
    assert all[..|all| - 1] == cs && all[|all| - 1] == name;
    if cs == [] {
      assert Tail(all) == "" + "/" + name == "/" + name;
    }
    assert Render(all) == Join(abs, name);
    RenderRoundTrip(all);
  }

  // ---- path_parent ----

  /** The position of the last slash, or -1 (`strrchr`). */
  function LastSlash(t: string): (i: int)
    ensures -1 <= i < |t|
    ensures i >= 0 ==> t[i] == '/'
    ensures forall k :: i < k < |t| ==> t[k] != '/'
  {
    if t == "" then -1
    else if t[|t| - 1] == '/' then |t| - 1
    else LastSlash(t[..|t| - 1])
  }

  function Parent(abs: string): string
    requires abs != ""
  {
    var i := LastSlash(abs);
    if i <= 0 then abs[..1] else abs[..i]
  }

  /** The text after the last slash, as `strrchr(abs, '/') + 1` names it. */
  function Base(abs: string): string {
    abs[LastSlash(abs) + 1..]
  }

  lemma LastSlashOf(a: string, c: string)
    requires '/' !in c
    ensures LastSlash(a + "/" + c) == |a|
  {
    var t := a + "/" + c;
    assert t[|a|] == '/' && t[|a| + 1..] == c;
    assert forall k :: |a| < k < |t| ==> t[k] == c[k - |a| - 1];
  }

  /** Lexical parent and base name are the front and the last of the components. */
  lemma ParentDropsLast(abs: string)
    requires Canonical(abs)
    ensures Canonical(Parent(abs))
    ensures |Parent(abs)| <= |abs|
    ensures var cs := Components(abs);
            if cs == [] then Parent(abs) == "/" && Components(Parent(abs)) == []
            else Components(Parent(abs)) == cs[..|cs| - 1] && Base(abs) == cs[|cs| - 1]
  {
    CanonicalIsAbsolute(abs);
    var cs := Components(abs);
    if cs == [] {
      assert Components("/") == Components("/"[1..]) == [];
    } else {
      TailParent(cs);
      RenderRoundTrip(cs[..|cs| - 1]);
    }
  }

  lemma SplitAtLast(t: string, c: string)
    requires '/' !in c
    ensures Parent(t + "/" + c) == if t == "" then "/" else t
    ensures Base(t + "/" + c) == c
  {
    LastSlashOf(t, c);
    var all := t + "/" + c;
    assert all[|t| + 1..] == c && all[..|t|] == t;
    if t == "" { assert all[..1] == "/"; }
  }

  lemma TailParent(cs: seq<string>)
    requires AllNames(cs) && cs != []
    ensures Tail(cs) != ""
    ensures Parent(Tail(cs)) == Render(cs[..|cs| - 1])
    ensures Base(Tail(cs)) == cs[|cs| - 1]
  {
    var front := cs[..|cs| - 1];
    assert IsName(cs[|cs| - 1]);
    SplitAtLast(Tail(front), cs[|cs| - 1]);
    ComponentsOfTail(front);
  }

  // ---- mount points as prefixes ----

  /** The test `mount_of` makes of one mount point. */
  predicate Hit(point: string, abs: string) {
    |point| == 1 || (point <= abs && (|abs| == |point| || abs[|point|] == '/'))
  }

  /** `path_rel`: what is left of `abs` under a mount point that was hit. */
  function Rel(point: string, abs: string): string
    requires abs != "" && (|point| == 1 || |abs| == |point| || |point| < |abs|)
  {
    if |point| == 1 then abs[1..]
    else if |abs| == |point| then ""
    else abs[|point| + 1..]
  }

  lemma {:induction false} TailSplit(a: seq<string>, b: seq<string>)
    ensures Tail(a + b) == Tail(a) + Tail(b)
  {
    if b == [] {
      assert a + b == a;
    } else {
      var front := b[..|b| - 1];
      TailSplit(a, front);
      assert (a + b)[..|a + b| - 1] == a + front;
      assert (a + b)[|a + b| - 1] == b[|b| - 1];
    }
  }

  /** Components joined by single slashes, without a leading one. */
  function Joined(cs: seq<string>): string {
    if cs == [] then "" else if |cs| == 1 then cs[0] else cs[0] + "/" + Joined(cs[1..])
  }

  lemma {:induction false} TailIsJoined(cs: seq<string>)
    requires cs != []
    ensures Tail(cs) == "/" + Joined(cs)
  {
    assert cs == [cs[0]] + cs[1..];
    TailSplit([cs[0]], cs[1..]);
    assert Tail([cs[0]]) == "" + "/" + cs[0] == "/" + cs[0];
    if |cs| > 1 {
      TailIsJoined(cs[1..]);
      assert Tail(cs) == ("/" + cs[0]) + ("/" + Joined(cs[1..])) == "/" + (cs[0] + "/" + Joined(cs[1..]));
    } else {
      assert Tail(cs[1..]) == "" && Tail(cs) == "/" + cs[0];
    }
  }

  /** Reading one component off joined text. */
  lemma JoinedStep(cs: seq<string>)
    requires AllNames(cs) && cs != []
    ensures var t := Joined(cs);
            && NameLen(t) == |cs[0]| && t != "" && t[..|cs[0]|] == cs[0]
            && (if t[|cs[0]|..] == "" then "" else t[|cs[0]| + 1..]) == Joined(cs[1..])
  {
    var c := cs[0];
    assert IsName(c);
    NameLenWhole(c);
    if |cs| > 1 {
      var rest := "/" + Joined(cs[1..]);
      assert Joined(cs) == c + rest;
      NameLenConcat(c, rest);
      assert Joined(cs)[|c| + 1..] == Joined(cs[1..]);
    } else {
      assert cs[1..] == [];
    }
  }

  lemma JoinedComponents(cs: seq<string>)
    requires AllNames(cs)
    ensures Components(Joined(cs)) == cs
    ensures Joined(cs) == "" <==> cs == []
  {
    ComponentsOfTail(cs);
    if cs != [] {
      TailIsJoined(cs);
      JoinedStep(cs);
      assert ("/" + Joined(cs))[1..] == Joined(cs);
    }
  }

  /** Everything is under the root. */
  lemma RootHits(cs: seq<string>)
    requires AllNames(cs)
    ensures Render(cs) != "" && Hit("/", Render(cs)) && Rel("/", Render(cs)) == Joined(cs)
  {
    if cs != [] {
      TailIsJoined(cs);
      assert Tail(cs)[1..] == Joined(cs);
    }
  }

  /** A path below a point, and the point itself. */
  lemma BelowHits(ps: seq<string>, more: seq<string>)
    requires AllNames(ps) && AllNames(more) && ps != []
    ensures var point, abs := Render(ps), Render(ps + more);
            && abs != "" && |point| > 1 && Hit(point, abs) && (|abs| == |point| || |point| < |abs|)
            && Rel(point, abs) == Joined(more)
  {
    hide Joined, Tail, Components;
    ComponentsOfTail(ps);
    TailSplit(ps, more);
    JoinedComponents(more);
    var point := Tail(ps);
    if more == [] {
      assert ps + more == ps;
    } else {
      TailIsJoined(more);
      var rest := Joined(more);
      assert Render(ps + more) == point + ("/" + rest);
      assert (point + ("/" + rest))[|point| + 1..] == rest;
    }
  }

  /** A component-wise prefix is hit, and what is left is the rest of the components. */
  lemma PrefixHits(point: string, abs: string)
    requires Canonical(point) && Canonical(abs) && Components(point) <= Components(abs)
    ensures abs != "" && Hit(point, abs) && (|point| == 1 || |abs| == |point| || |point| < |abs|)
    ensures Rel(point, abs) == Joined(Components(abs)[|Components(point)|..])
  {
    hide Joined, Hit, Rel, Components;
    var ps, cs := Components(point), Components(abs);
    CanonicalIsAbsolute(point);
    var more := cs[|ps|..];
    assert cs == ps + more;
    if ps == [] {
      RootHits(cs);
      assert more == cs;
    } else {
      BelowHits(ps, more);
    }
  }

  /** What is hit is a component-wise prefix. */
  lemma HitsPrefix(point: string, abs: string)
    requires Canonical(point) && Canonical(abs) && Hit(point, abs)
    ensures Components(point) <= Components(abs)
  {
    hide Components, Render;
    CanonicalIsAbsolute(point);
    if |point| != 1 {
      var rest := abs[|point|..];
      assert abs == point + rest;
      ComponentsConcat(point, rest);
    }
  }

  /** The string test for a mount hit is the component-wise prefix test, and
      `path_rel` names exactly the components past the mount point. */
  lemma HitIsPrefix(point: string, abs: string)
    requires Canonical(point) && Canonical(abs)
    ensures Hit(point, abs) <==> Components(point) <= Components(abs)
    ensures Hit(point, abs) ==>
              && (|point| == 1 || |abs| == |point| || |point| < |abs|)
              && abs != ""
              && Components(Rel(point, abs)) == Components(abs)[|Components(point)|..]
              && Rel(point, abs) == Joined(Components(abs)[|Components(point)|..])
              && (Rel(point, abs) == "" <==> Components(point) == Components(abs))
  {
    hide Hit, Rel, Components, Joined, Render;
    if Hit(point, abs) { HitsPrefix(point, abs); }
    var ps, cs := Components(point), Components(abs);
    if ps <= cs {
      PrefixHits(point, abs);
      JoinedComponents(cs[|ps|..]);
    }
  }
}
