/** Open file descriptions and the descriptor table (core/file.c): who holds a
    description, when it dies, and where a new descriptor goes. */
module Descriptors {
  /** A description; 0 is no description (NULL in a slot). */
  type FileId = nat

  const NR_OPEN := 1024

  datatype FdErrno = EBADF | EINVAL | EMFILE | EFAULT

  datatype FdResult = Fd(n: nat) | Bad(e: FdErrno)

  ghost predicate NoDup(s: seq<FileId>) {
    forall i, j :: 0 <= i < j < |s| ==> s[i] != s[j]
  }

  /** The lowest free slot from `min` on, or the end of the table. */
  ghost predicate Lowest(slots: seq<FileId>, min: nat, fd: nat) {
    && min <= fd <= |slots|
    && (fd < |slots| ==> slots[fd] == 0)
    && forall i :: min <= i < fd ==> slots[i] != 0
  }

  class FdTable {
    const slots: array<FileId>
    const cloexec: array<bool>
    /** `refs` of every live description. */
    var refs: map<FileId, nat>
    var nextFile: FileId
    /** The descriptions whose release has run, in order. */
    ghost var released: seq<FileId>

    /** `fdtable_init`. */
    constructor ()
      ensures Valid(multiset{}) && fresh(slots) && fresh(cloexec)
      ensures refs == map[] && released == [] && forall i :: 0 <= i < NR_OPEN ==> slots[i] == 0
    {
      slots := new FileId[NR_OPEN](_ => 0);
      cloexec := new bool[NR_OPEN](_ => false);
      refs, nextFile, released := map[], 1, [];
    }

    /** The table's slots and flags as values. */
    ghost function Slots(): seq<FileId>
      reads slots
    {
      slots[..]
    }

    ghost function Flags(): seq<bool>
      reads cloexec
    {
      cloexec[..]
    }

    ghost predicate Shaped()
      reads this
    {
      slots.Length == NR_OPEN && cloexec.Length == NR_OPEN && 0 < nextFile
    }

    /** `refs` counts the slots that hold a description and the references its
        creator has not dropped yet. */
    ghost predicate Counted(extra: multiset<FileId>)
      reads this, slots
    {
      && (forall f :: f in refs ==> 0 < f < nextFile && refs[f] > 0 && refs[f] == multiset(slots[..])[f] + extra[f])
      && (forall f :: f in extra ==> f in refs)
      && (forall i :: 0 <= i < slots.Length && slots[i] != 0 ==> slots[i] in refs)
    }

    /** Every description ever made is live, or was released exactly once. */
    ghost predicate Accounted()
      reads this
    {
      && NoDup(released)
      && (forall f :: f in released <==> 0 < f < nextFile && f !in refs)
    }

    ghost predicate Valid(extra: multiset<FileId>)
      reads this, slots, cloexec
    {
      && Shaped() && Counted(extra) && Accounted()
      && (forall i :: 0 <= i < NR_OPEN && slots[i] == 0 ==> !cloexec[i])
    }

    lemma ExtraLive(extra: multiset<FileId>, f: FileId)
      requires Valid(extra) && f in extra
      ensures f in refs
    {
    }

    /** A description with no reference but its creator's is in no slot. */
    lemma NoSlots(extra: multiset<FileId>, f: FileId, g: FileId)
      requires Valid(extra) && f in refs && g in refs && refs[f] == extra[f] && refs[g] == extra[g]
      ensures multiset(slots[..])[f] == 0 && multiset(slots[..])[g] == 0
    {
    }

    /** With no reference outstanding, every description is in a slot. */
    lemma AllSlotted()
      requires Valid(multiset{})
      ensures forall f :: f in refs ==> f != 0 && f in Slots()
    {
      forall f | f in refs ensures f in slots[..] { assert multiset(slots[..])[f] > 0; }
    }

    lemma SlotLive(extra: multiset<FileId>, fd: int)
      requires Valid(extra) && 0 <= fd < NR_OPEN && slots[fd] != 0
      ensures slots[fd] in refs && 0 !in refs
    {
    }

    /** `file_new`: one reference, its creator's. */
    method New(ghost extra: multiset<FileId>) returns (f: FileId)
      requires Valid(extra)
      modifies this
      ensures Valid(extra + multiset{f}) && f == old(nextFile) && f != 0 && f !in old(refs) && nextFile == f + 1
      ensures refs == old(refs)[f := 1] && released == old(released)
    {
      f := nextFile;
      assert multiset(slots[..])[f] == 0;
      nextFile := nextFile + 1;
      refs := refs[f := 1];
    }

    /** `file_put`: the last reference releases the description. */
    method Put(f: FileId, ghost extra: multiset<FileId>) returns (gone: bool)
      requires Valid(extra + multiset{f})
      modifies this`refs, this`released
      ensures Valid(extra)
      ensures gone == (multiset(slots[..])[f] + extra[f] == 0)
      ensures gone <==> f !in refs
      ensures refs == (if gone then old(refs) - {f} else old(refs)[f := old(refs)[f] - 1])
      ensures released == old(released) + if gone then [f] else []
    {
      assert f in extra + multiset{f};
      if refs[f] > 1 {
        refs := refs[f := refs[f] - 1];
        return false;
      }
      refs := refs - {f};
      released := released + [f];
      return true;
    }

    /** `file_get`, then the slot: `fd` comes to hold `f` instead of nothing. */
    method Hold(fd: nat, f: FileId, on: bool, ghost extra: multiset<FileId>)
      requires Valid(extra) && fd < NR_OPEN && slots[fd] == 0 && f in refs
      modifies this`refs, slots, cloexec
      ensures Valid(extra) && refs == old(refs)[f := old(refs)[f] + 1]
      ensures slots[..] == old(slots[..])[fd := f] && cloexec[..] == old(cloexec[..])[fd := on]
    {
      ghost var was := slots[..];
      refs := refs[f := refs[f] + 1];
      slots[fd] := f;
      cloexec[fd] := on;
      assert slots[..] == was[fd := f];
      assert cloexec[..] == old(cloexec[..])[fd := on];
      Swapped(was, fd, f);
    }

    /** `fd_install`: the lowest free descriptor not below `min`. */
    method Install(f: FileId, on: bool, min: int, ghost extra: multiset<FileId>) returns (r: FdResult)
      requires Valid(extra) && f in refs
      modifies this`refs, slots, cloexec
      ensures Valid(extra) && slots.Length == 1024
      ensures min < 0 ==> r == Bad(EINVAL)
      ensures r.Fd? ==>
                && min <= r.n < NR_OPEN && Lowest(old(slots[..]), min, r.n)
                && slots[..] == old(slots[..])[r.n := f] && cloexec[..] == old(cloexec[..])[r.n := on]
                && refs == old(refs)[f := old(refs)[f] + 1]
      ensures r.Bad? ==> slots[..] == old(slots[..]) && cloexec[..] == old(cloexec[..]) && refs == old(refs)
      ensures min >= 0 && r.Bad? ==> r == Bad(EMFILE) && forall i :: min <= i < NR_OPEN ==> slots[i] != 0
    {
      if min < 0 { return Bad(EINVAL); }
      var i: nat := min;
      while i < NR_OPEN
        invariant min <= i && (i <= NR_OPEN || i == min)
        invariant forall k :: min <= k < i && k < NR_OPEN ==> slots[k] != 0
      {
        if slots[i] == 0 {
          Hold(i, f, on, extra);
          return Fd(i);
        }
        i := i + 1;
      }
      return Bad(EMFILE);
    }

    /** A slot is emptied; its reference is left for the caller to drop. */
    method Vacate(fd: nat, ghost extra: multiset<FileId>) returns (f: FileId)
      requires Valid(extra) && fd < NR_OPEN && slots[fd] != 0
      modifies slots, cloexec
      ensures f == old(slots[fd]) && Valid(extra + multiset{f})
      ensures slots[..] == old(slots[..])[fd := 0] && cloexec[..] == old(cloexec[..])[fd := false]
    {
      ghost var was := slots[..];
      f := slots[fd];
      slots[fd] := 0;
      cloexec[fd] := false;
      assert slots[..] == was[fd := 0];
      assert cloexec[..] == old(cloexec[..])[fd := false];
      Swapped(was, fd, 0);
    }

    /** `fd_close`; `gone` is the description it was the last descriptor of, or 0. */
    method Close(fd: int, ghost extra: multiset<FileId>) returns (r: FdResult, gone: FileId)
      requires Valid(extra)
      modifies this`refs, this`released, slots, cloexec
      ensures Valid(extra)
      ensures r == if 0 <= fd < NR_OPEN && old(slots[..])[fd] != 0 then Fd(0) else Bad(EBADF)
      ensures r.Bad? ==> slots[..] == old(slots[..]) && cloexec[..] == old(cloexec[..]) && refs == old(refs) && gone == 0
      ensures r.Fd? ==> slots[..] == old(slots[..])[fd := 0] && cloexec[..] == old(cloexec[..])[fd := false]
      ensures r.Fd? ==> gone == if multiset(slots[..])[old(slots[fd])] + extra[old(slots[fd])] == 0 then old(slots[fd]) else 0
      ensures released == old(released) + (if gone != 0 then [gone] else [])
      ensures gone != 0 ==> refs == old(refs) - {gone}
      ensures gone == 0 ==> refs.Keys == old(refs).Keys
    {
      if !(0 <= fd < NR_OPEN) || slots[fd] == 0 { return Bad(EBADF), 0; }
      var f := Vacate(fd, extra);
      assert f in refs;
      var last := Put(f, extra);
      return Fd(0), if last then f else 0;
    }

    /** `fd_dup2`. */
    method Dup2(oldfd: int, newfd: int, on: bool, ghost extra: multiset<FileId>) returns (r: FdResult, gone: FileId)
      requires Valid(extra)
      modifies this`refs, this`released, slots, cloexec
      ensures Valid(extra)
      ensures r == if 0 <= oldfd < NR_OPEN && old(slots[..])[oldfd] != 0 && 0 <= newfd < NR_OPEN then Fd(newfd) else Bad(EBADF)
      ensures r.Bad? || oldfd == newfd ==>
                slots[..] == old(slots[..]) && cloexec[..] == old(cloexec[..]) && refs == old(refs) && gone == 0
      ensures r.Fd? && oldfd != newfd ==>
                && slots[..] == old(slots[..])[newfd := old(slots[oldfd])] && cloexec[..] == old(cloexec[..])[newfd := on]
                && gone == (var o := old(slots[newfd]); if o != 0 && multiset(slots[..])[o] + extra[o] == 0 then o else 0)
      ensures released == old(released) + (if gone != 0 then [gone] else [])
      ensures gone != 0 ==> refs.Keys == old(refs).Keys - {gone}
      ensures gone == 0 ==> refs.Keys == old(refs).Keys
    {
      if !(0 <= oldfd < NR_OPEN) || slots[oldfd] == 0 { return Bad(EBADF), 0; }
      if !(0 <= newfd < NR_OPEN) { return Bad(EBADF), 0; }
      if oldfd == newfd { return Fd(newfd), 0; }
      var f := slots[oldfd];
      assert f in refs;
      hide Valid;
      if slots[newfd] == 0 {
        Hold(newfd, f, on, extra);
        gone := 0;
      } else {
        gone := Replace(newfd, f, on, extra);
      }
      r := Fd(newfd);
    }

    /** The occupied slot comes to hold `f`, and the description it held loses a reference. */
    method Replace(fd: nat, f: FileId, on: bool, ghost extra: multiset<FileId>) returns (gone: FileId)
      requires Valid(extra) && fd < NR_OPEN && slots[fd] != 0 && f in refs
      modifies this`refs, this`released, slots, cloexec
      ensures Valid(extra)
      ensures slots[..] == old(slots[..])[fd := f] && cloexec[..] == old(cloexec[..])[fd := on]
      ensures gone == (var o := old(slots[fd]); if multiset(slots[..])[o] + extra[o] == 0 then o else 0)
      ensures released == old(released) + (if gone != 0 then [gone] else [])
      ensures refs.Keys == old(refs).Keys - {gone} && (gone == 0 ==> refs.Keys == old(refs).Keys)
    {
      SlotLive(extra, fd);
      hide Valid;
      var o := Swap(fd, f, on, extra);
      ghost var held := refs;
      var last := Put(o, extra);
      gone := if last then o else 0;
      assert held.Keys == old(refs).Keys;
      KeysLeft(held, refs, o, last);
    }

    /** The slot's old description for `f`; the old one's reference is left for the caller to drop. */
    method Swap(fd: nat, f: FileId, on: bool, ghost extra: multiset<FileId>) returns (o: FileId)
      requires Valid(extra) && fd < NR_OPEN && slots[fd] != 0 && f in refs
      modifies this`refs, slots, cloexec
      ensures Valid(extra + multiset{o}) && o == old(slots[fd])
      ensures slots[..] == old(slots[..])[fd := f] && cloexec[..] == old(cloexec[..])[fd := on]
      ensures refs.Keys == old(refs).Keys
    {
      ghost var was, clo := slots[..], cloexec[..];
      o := Vacate(fd, extra);
      Overwritten(was, fd, 0, f);
      Overwritten(clo, fd, false, on);
      hide Valid;
      Hold(fd, f, on, extra + multiset{o});
    }

    method GetCloexec(fd: int, ghost extra: multiset<FileId>) returns (r: FdResult)
      requires Valid(extra)
      ensures r == if 0 <= fd < NR_OPEN && slots[fd] != 0 then Fd(if cloexec[fd] then 1 else 0) else Bad(EBADF)
    {
      if !(0 <= fd < NR_OPEN) || slots[fd] == 0 { return Bad(EBADF); }
      return Fd(if cloexec[fd] then 1 else 0);
    }

    method SetCloexec(fd: int, on: bool, ghost extra: multiset<FileId>) returns (r: FdResult)
      requires Valid(extra)
      modifies cloexec
      ensures Valid(extra)
      ensures if 0 <= fd < NR_OPEN && slots[fd] != 0 then r == Fd(0) && cloexec[..] == old(cloexec[..])[fd := on]
              else r == Bad(EBADF) && cloexec[..] == old(cloexec[..])
    {
      if !(0 <= fd < NR_OPEN) || slots[fd] == 0 { return Bad(EBADF); }
      cloexec[fd] := on;
      return Fd(0);
    }
  }

  /** Dropping a reference takes away at most the description itself. */
  lemma KeysLeft(before: map<FileId, nat>, after: map<FileId, nat>, o: FileId, gone: bool)
    requires 0 !in before && o in before && before[o] > 0
    requires after == if gone then before - {o} else before[o := before[o] - 1]
    ensures after.Keys == before.Keys - {if gone then o else 0}
  {
  }

  lemma Overwritten<T>(s: seq<T>, i: nat, a: T, b: T)
    requires i < |s|
    ensures s[i := a][i := b] == s[i := b] && s[i := a][i] == a
  {
  }

  /** Replacing a slot's description changes who is counted by one each. */
  lemma Swapped(was: seq<FileId>, fd: nat, f: FileId)
    requires fd < |was|
    ensures multiset(was[fd := f]) == multiset(was) - multiset{was[fd]} + multiset{f}
    ensures multiset(was)[was[fd]] > 0
  {
    assert was[fd] in was;
    assert was == was[..fd] + [was[fd]] + was[fd + 1..];
    assert was[fd := f] == was[..fd] + [f] + was[fd + 1..];
  }
}
