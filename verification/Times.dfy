/** Setting and reading file times (core/sys_fs.c:103-120, 513-533,
    core/hostfs_nt.c:363-378, 695-710): nanoseconds since 1970 against the host's
    hundreds of nanoseconds since 1601, in 64-bit arithmetic. */
module Times {
  import opened Basics

  const BILLION := 1_000_000_000
  const EPOCH_DIFF := 116_444_736_000_000_000
  const I64_MIN := -0x8000_0000_0000_0000
  const I64_MAX := 0x7fff_ffff_ffff_ffff

  /** HFS_TIME_OMIT and HFS_TIME_NOW. */
  const OMIT := -1
  const NOW := -2

  const UTIME_NOW := 0x3fff_ffff
  const UTIME_OMIT := 0x3fff_fffe

  datatype Timespec = Timespec(sec: int, nsec: int)

  predicate I64(x: int) {
    I64_MIN <= x <= I64_MAX
  }

  /** C division, toward zero. */
  function Div(a: int, b: int): int
    requires b > 0
  {
    if a >= 0 then a / b else -((-a) / b)
  }

  function Rem(a: int, b: int): int
    requires b > 0
  {
    a - b * Div(a, b)
  }

  /** One timespec of `sys_utimensat`; `None` is EINVAL. */
  function Asked(ts: Timespec): Opt<int> {
    if ts.nsec == UTIME_NOW then Some(NOW)
    else if ts.nsec == UTIME_OMIT then Some(OMIT)
    else if ts.nsec < 0 || ts.nsec >= BILLION then None
    else Some(ts.sec * BILLION + ts.nsec)
  }

  /** `ft_of`. */
  function FileTime(ns: int): int {
    Div(ns, 100) + EPOCH_DIFF
  }

  /** `ns_of`. */
  function Nanoseconds(ft: int): int {
    if ft == 0 then 0 else (ft - EPOCH_DIFF) * 100
  }

  /** The field `hfs_set_times` hands the host: 0 leaves the time alone. */
  function Field(ns: int, now: int): int {
    if ns == NOW then FileTime(now) else if ns == OMIT then 0 else FileTime(ns)
  }

  /** The host's two times after `hfs_set_times`. */
  function SetTimes(atime: int, mtime: int, now: int, was: (int, int)): (int, int) {
    var a, m := Field(atime, now), Field(mtime, now);
    (if a == 0 then was.0 else a, if m == 0 then was.1 else m)
  }

  /** `to_stat`. */
  function Shape(ns: int): Timespec {
    Timespec(Div(ns, BILLION), Rem(ns, BILLION))
  }

  /** What stat shows of a host time. */
  function Shown(ft: int): Timespec {
    Shape(Nanoseconds(ft))
  }

  /** Every 64-bit time is stored as a positive host time, so never as "leave alone". */
  lemma StoredIsPositive(ns: int)
    requires I64(ns)
    ensures 0 < FileTime(ns) && I64(FileTime(ns))
    ensures I64((FileTime(ns) - EPOCH_DIFF) * 100)
  {
  }

  /** A time a timespec can name is never confused with a sentinel unless it is one of theirs. */
  lemma SentinelsExactly(ts: Timespec)
    requires 0 <= ts.nsec < BILLION
    ensures Asked(ts) == Some(OMIT) <==> ts == Timespec(-1, BILLION - 1)
    ensures Asked(ts) == Some(NOW) <==> ts == Timespec(-1, BILLION - 2)
  {
  }

  /** The round trip, exactly: the seconds come back and the nanoseconds rounded
      down to 100 for every time from 1970 on and every whole second before it,
      and for no other. */
  lemma RoundTripExactly(ts: Timespec)
    requires 0 <= ts.nsec < BILLION && I64(ts.sec * BILLION + ts.nsec)
    requires ts.sec * BILLION + ts.nsec != OMIT && ts.sec * BILLION + ts.nsec != NOW
    ensures Asked(ts) == Some(ts.sec * BILLION + ts.nsec)
    ensures Shown(FileTime(Asked(ts).value)) == Timespec(ts.sec, ts.nsec - ts.nsec % 100) <==> ts.sec >= 0 || ts.nsec == 0
  {
    var ns := ts.sec * BILLION + ts.nsec;
    StoredIsPositive(ns);
    assert Nanoseconds(FileTime(ns)) == 100 * Div(ns, 100);
    if ts.sec >= 0 {
      LaterShape(ts.sec, ts.nsec);
    } else if ts.nsec == 0 {
      WholeShape(ts.sec);
    } else {
      EarlierShape(ts.sec, ts.nsec);
    }
  }

  lemma LaterShape(sec: int, nsec: int)
    requires sec >= 0 && 0 <= nsec < BILLION
    ensures Shape(100 * Div(sec * BILLION + nsec, 100)) == Timespec(sec, nsec - nsec % 100)
  {
    var kept := nsec - nsec % 100;
    Hundreds(sec * 10_000_000 + nsec / 100, nsec % 100);
    Billions(sec, kept);
  }

  lemma WholeShape(sec: int)
    requires sec < 0
    ensures Shape(100 * Div(sec * BILLION, 100)) == Timespec(sec, 0)
  {
    Hundreds(-sec * 10_000_000, 0);
    Billions(-sec, 0);
  }

  /** Cut toward zero, the time lands in a later second. */
  lemma EarlierShape(sec: int, nsec: int)
    requires sec < 0 && 0 < nsec < BILLION
    ensures Shape(100 * Div(sec * BILLION + nsec, 100)).sec > sec
  {
    var ns := -(sec * BILLION + nsec);
    var y := 100 * (ns / 100);
    assert 0 <= y <= ns < -sec * BILLION;
    var q := y / BILLION;
    assert BILLION * q <= y;
    assert q < -sec;
  }

  lemma Hundreds(q: int, r: int)
    requires q >= 0 && 0 <= r < 100
    ensures (q * 100 + r) / 100 == q
  {
  }

  lemma Billions(q: int, r: int)
    requires q >= 0 && 0 <= r < BILLION
    ensures (q * BILLION + r) / BILLION == q
  {
  }

  /** The same through utimensat, the host and stat, with the other time left alone. */
  lemma SetThenStat(ts: Timespec, now: int, was: (int, int))
    requires ts.sec >= 0 && 0 <= ts.nsec < BILLION && I64(ts.sec * BILLION + ts.nsec)
    ensures var after := SetTimes(Asked(ts).value, OMIT, now, was);
            Shown(after.0) == Timespec(ts.sec, ts.nsec - ts.nsec % 100) && after.1 == was.1
    ensures var after := SetTimes(OMIT, Asked(ts).value, now, was);
            Shown(after.1) == Timespec(ts.sec, ts.nsec - ts.nsec % 100) && after.0 == was.0
  {
    RoundTripExactly(ts);
    StoredIsPositive(ts.sec * BILLION + ts.nsec);
  }

  /** A time just before 1970 comes back as 1970 itself. */
  lemma BeforeTheEpoch()
    ensures Shown(FileTime(Asked(Timespec(-1, 999_999_950)).value)) == Timespec(0, 0)
  {
  }

  /** A timespec is refused exactly when its nanoseconds are out of range and name neither of the two
      special requests. */
  lemma AskedExactly(ts: Timespec)
    ensures Asked(ts).None? <==> !(0 <= ts.nsec < 1_000_000_000) && ts.nsec != 0x3fff_ffff && ts.nsec != 0x3fff_fffe
  {
  }

  /** UTIME_NOW stores the time it is, UTIME_OMIT leaves what was there, whatever the seconds say. */
  lemma NowAndOmit(sec: int, now: int, was: (int, int))
    requires I64(now) && now >= 0
    ensures var after := SetTimes(Asked(Timespec(sec, 0x3fff_ffff)).value, Asked(Timespec(sec, 0x3fff_fffe)).value, now, was);
            Nanoseconds(after.0) == now - now % 100 && after.1 == was.1
    ensures var after := SetTimes(Asked(Timespec(sec, 0x3fff_fffe)).value, Asked(Timespec(sec, 0x3fff_ffff)).value, now, was);
            Nanoseconds(after.1) == now - now % 100 && after.0 == was.0
  {
    StoredIsPositive(now);
  }

  /** What stat shows of a host time from 1970 on: its whole seconds and hundreds of nanoseconds since
      then; of a time the host does not keep, 1970 itself. */
  lemma ShownFromSeventy(sec: nat, h: nat)
    requires h < 10_000_000
    ensures Shown(116_444_736_000_000_000 + 10_000_000 * sec + h) == Timespec(sec, 100 * h)
    ensures Shown(0) == Timespec(0, 0)
  {
    Billions(sec, 100 * h);
  }

  /** The host counts from 1601: 369 years of 365 days and 89 leap days before 1970. */
  lemma EpochsApart()
    ensures FileTime(0) == (369 * 365 + 89) * 86_400 * 10_000_000
  {
  }
}
