/** The mapped-range table (core/vma.c:17-70): a fixed array kept sorted, in which
    no two ranges meet. */
module Vmas {
  import opened Bytes

  const VMA_MAX := 64

  datatype Prot = Prot(read: bool, write: bool, exec: bool)

  datatype Vma = Vma(start: nat, end: nat, prot: Prot, offset: nat, fileBacked: bool)

  const NONE := Vma(0, 0, Prot(false, false, false), 0, false)

  /** Non-empty ranges, each before the next. */
  ghost predicate Sorted(s: seq<Vma>) {
    && (forall i :: 0 <= i < |s| ==> s[i].start < s[i].end)
    && (forall i, j :: 0 <= i < j < |s| ==> s[i].end <= s[j].start)
  }

  predicate Meets(v: Vma, start: nat, end: nat) {
    start < v.end && v.start < end
  }

  ghost predicate Overlaps(s: seq<Vma>, start: nat, end: nat) {
    exists i :: 0 <= i < |s| && Meets(s[i], start, end)
  }

  function Inserted(s: seq<Vma>, at: nat, v: Vma): seq<Vma>
    requires at <= |s|
  {
    s[..at] + [v] + s[at..]
  }

  /** Putting a range between what ends before it and what starts after it. */
  lemma JoinedSorted(a: seq<Vma>, v: Vma, b: seq<Vma>)
    requires Sorted(a + b) && v.start < v.end
    requires forall i :: 0 <= i < |a| ==> a[i].end <= v.start
    requires forall i :: 0 <= i < |b| ==> v.end <= b[i].start
    ensures Sorted(a + [v] + b)
  {
    var s, t := a + b, a + [v] + b;
    forall i | 0 <= i < |t| ensures t[i].start < t[i].end {
      if i < |a| { assert t[i] == s[i]; } else if i > |a| { assert t[i] == s[i - 1]; }
    }
    forall i, j | 0 <= i < j < |t| ensures t[i].end <= t[j].start {
      if j < |a| { assert t[i] == s[i] && t[j] == s[j]; }
      else if i > |a| { assert t[i] == s[i - 1] && t[j] == s[j - 1]; }
      else if i < |a| && j > |a| { assert t[i] == s[i] && t[j] == s[j - 1]; }
      else if j == |a| { assert t[i] == a[i]; }
      else { assert t[j] == b[j - |a| - 1]; }
    }
  }

  lemma InsertedBag(s: seq<Vma>, at: nat, v: Vma)
    requires at <= |s|
    ensures multiset(Inserted(s, at, v)) == multiset(s) + multiset{v}
  {
    assert s == s[..at] + s[at..];
  }

  /** A range that meets no other goes where its start belongs. */
  lemma InsertedSorted(s: seq<Vma>, at: nat, v: Vma)
    requires Sorted(s) && at <= |s| && v.start < v.end && !Overlaps(s, v.start, v.end)
    requires forall i :: 0 <= i < at ==> s[i].start < v.start
    requires at < |s| ==> v.start <= s[at].start
    ensures Sorted(Inserted(s, at, v))
    ensures multiset(Inserted(s, at, v)) == multiset(s) + multiset{v}
  {
    InsertedBag(s, at, v);
    assert s == s[..at] + s[at..];
    forall i | 0 <= i < at ensures s[..at][i].end <= v.start { assert !Meets(s[i], v.start, v.end); }
    forall i | 0 <= i < |s| - at ensures v.end <= s[at..][i].start {
      assert !Meets(s[at + i], v.start, v.end);
      assert i > 0 ==> s[at].end <= s[at + i].start;
    }
    hide Sorted, Overlaps, Inserted;
    JoinedSorted(s[..at], v, s[at..]);
    InsertedIs(s, at, v);
  }

  lemma InsertedIs(s: seq<Vma>, at: nat, v: Vma)
    requires at <= |s|
    ensures Inserted(s, at, v) == s[..at] + [v] + s[at..]
  {
  }

  /** The ranges after `v` was offered: with it, unless it meets another or there is no room. */
  ghost predicate Offered(was: seq<Vma>, now: seq<Vma>, v: Vma) {
    if |was| < VMA_MAX && !Overlaps(was, v.start, v.end) then multiset(now) == multiset(was) + multiset{v} else now == was
  }

  class VmaTable {
    const g: array<Vma>
    var n: nat

    constructor ()
      ensures Valid() && fresh(g) && Ranges() == []
    {
      g := new Vma[VMA_MAX](_ => NONE);
      n := 0;
    }

    ghost predicate Valid()
      reads this, g
    {
      g.Length == VMA_MAX && n <= VMA_MAX && Sorted(g[..n])
    }

    ghost function Ranges(): seq<Vma>
      requires n <= g.Length
      reads this, g
    {
      g[..n]
    }

    /** `vma_record`: refuse an empty, wrapping or overlapping range, or a full table; else insert in order. */
    method Record(start: Word, len: Word, prot: Prot, offset: nat, fileBacked: bool) returns (ok: bool)
      requires Valid()
      modifies this, g
      ensures Valid()
      ensures ok <==> len > 0 && start + len < WORD && |old(Ranges())| < 64 && !Overlaps(old(Ranges()), start, start + len)
      ensures !ok ==> Ranges() == old(Ranges())
      ensures ok ==> multiset(Ranges()) == multiset(old(Ranges())) + multiset{Vma(start, start + len, prot, offset, fileBacked)}
    {
      hide Sorted, Overlaps, Meets, Inserted;
      var end := (start + len) % WORD;
      if len == 0 || end < start || n == VMA_MAX { return false; }
      var met := AnyMeets(start, end);
      if met { return false; }
      var at := PlaceOf(start);
      var v := Vma(start, end, prot, offset, fileBacked);
      InsertedSorted(Ranges(), at, v);
      InsertAt(at, v);
      ok := true;
    }

    /** Whether a range meets one that is recorded. */
    method AnyMeets(start: nat, end: nat) returns (met: bool)
      requires Valid()
      ensures met <==> Overlaps(Ranges(), start, end)
    {
      hide Sorted, Meets;
      for i := 0 to n
        invariant forall k :: 0 <= k < i ==> !Meets(g[..n][k], start, end)
      {
        if Meets(g[i], start, end) {
          assert Ranges()[i] == g[i];
          return true;
        }
      }
      return false;
    }

    /** The first recorded range that does not start before `start`. */
    method PlaceOf(start: nat) returns (at: nat)
      requires Valid()
      ensures at <= n && forall k :: 0 <= k < at ==> Ranges()[k].start < start
      ensures at < n ==> start <= Ranges()[at].start
    {
      hide Sorted;
      at := 0;
      while at < n && g[at].start < start
        invariant 0 <= at <= n
        invariant forall k :: 0 <= k < at ==> g[..n][k].start < start
      {
        at := at + 1;
      }
    }

    /** The `memmove` and the new entry. */
    method InsertAt(at: nat, v: Vma)
      requires g.Length == VMA_MAX && n < VMA_MAX && at <= n
      modifies this`n, g
      ensures n == old(n) + 1 && Ranges() == Inserted(old(Ranges()), at, v)
    {
      ghost var was := g[..n];
      forall k | at < k <= n { g[k] := g[k - 1]; }
      g[at] := v;
      n := n + 1;
      ghost var now := Inserted(was, at, v);
      assert |now| == n;
      forall k | 0 <= k < n ensures g[k] == now[k] {
        if k > at { assert now[k] == was[k - 1]; }
      }
      assert g[..n] == now;
    }
  }
}
