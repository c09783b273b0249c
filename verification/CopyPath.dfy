/** Copying a path in from user memory (core/sys_fs.c:46-74): chunks of 64 bytes,
    and single bytes where a chunk cannot be read, come to what single bytes
    throughout would. */
module CopyPath {
  import opened Basics
  import opened Bytes

  const CHUNK := 64

  datatype Errno = EFAULT | ENAMETOOLONG

  datatype Result = Path(s: seq<Byte>) | Err(e: Errno)

  /** User memory as the kernel may read it. */
  type Memory = map<Word, Byte>

  function At(u: Word, k: nat): Word {
    (u + k) % WORD
  }

  /** A copy one byte at a time, `k` bytes in with `got` read. */
  function Bytewise(m: Memory, u: Word, k: nat, got: seq<Byte>): Result
    requires k <= PATH_MAX
    decreases PATH_MAX - k
  {
    if k == PATH_MAX then Err(ENAMETOOLONG)
    else if At(u, k) !in m then Err(EFAULT)
    else if m[At(u, k)] == 0 then Path(got)
    else Bytewise(m, u, k + 1, got + [m[At(u, k)]])
  }

  /** The first `n` bytes can be read and none is NUL. */
  ghost predicate Plain(m: Memory, u: Word, n: nat) {
    forall k :: 0 <= k < n ==> At(u, k) in m && m[At(u, k)] != 0
  }

  /** What the byte-wise copy comes to: the string if a NUL is reached first,
      EFAULT if an unreadable byte is, ENAMETOOLONG after 4096 without either. */
  lemma {:induction false} BytewiseMeans(m: Memory, u: Word, k: nat, got: seq<Byte>)
    requires k <= PATH_MAX && Plain(m, u, k) && |got| == k && forall i :: 0 <= i < k ==> got[i] == m[At(u, i)]
    ensures var r := Bytewise(m, u, k, got);
            && (r.Path? ==> Plain(m, u, |r.s|) && |r.s| < PATH_MAX && At(u, |r.s|) in m && m[At(u, |r.s|)] == 0
                            && forall i :: 0 <= i < |r.s| ==> r.s[i] == m[At(u, i)])
            && (r == Err(EFAULT) <==> exists n :: k <= n < PATH_MAX && Plain(m, u, n) && At(u, n) !in m)
            && (r == Err(ENAMETOOLONG) <==> Plain(m, u, PATH_MAX))
    ensures forall i: nat :: i < 4096 ==> At(u, i) == if u + i < 0x1_0000_0000_0000_0000 then u + i else u + i - 0x1_0000_0000_0000_0000
    decreases PATH_MAX - k
  {
    if k < PATH_MAX && At(u, k) in m && m[At(u, k)] != 0 {
      BytewiseMeans(m, u, k + 1, got + [m[At(u, k)]]);
    }
  }

  /** Nothing is decided over bytes that are plain. */
  lemma {:induction false} BytewiseSkips(m: Memory, u: Word, k: nat, n: nat, buf: seq<Byte>)
    requires k <= n <= PATH_MAX && n <= |buf|
    requires forall i :: k <= i < n ==> At(u, i) in m && m[At(u, i)] != 0 && buf[i] == m[At(u, i)]
    ensures Bytewise(m, u, k, buf[..k]) == Bytewise(m, u, n, buf[..n])
    decreases n - k
  {
    if k < n {
      assert buf[..k] + [buf[k]] == buf[..k + 1];
      BytewiseSkips(m, u, k + 1, n, buf);
    }
  }

  /** `user_copy_in` of the `n` bytes from byte `k` of the path on: all of them, or a fault. */
  method CopyIn(m: Memory, buf: array<Byte>, u: Word, k: nat, n: nat) returns (ok: bool)
    requires k + n <= buf.Length
    modifies buf
    ensures ok <==> forall i :: k <= i < k + n ==> At(u, i) in m
    ensures forall i :: 0 <= i < k ==> buf[i] == old(buf[i])
    ensures ok ==> forall i :: k <= i < k + n ==> buf[i] == m[At(u, i)]
  {
    var j := k;
    while j < k + n
      invariant k <= j <= k + n
      invariant forall i :: k <= i < j ==> At(u, i) in m && buf[i] == m[At(u, i)]
      invariant forall i :: 0 <= i < k ==> buf[i] == old(buf[i])
    {
      if At(u, j) !in m { return false; }
      buf[j] := m[At(u, j)];
      j := j + 1;
    }
    ok := true;
  }

  /** `memchr` for NUL: its place between `from` and `to`, or `to`. */
  method FindNul(buf: array<Byte>, from: nat, to: nat) returns (at: nat)
    requires from <= to <= buf.Length
    ensures from <= at <= to && (at < to ==> buf[at] == 0)
    ensures forall i :: from <= i < at ==> buf[i] != 0
  {
    at := from;
    while at < to && buf[at] != 0
      invariant from <= at <= to && forall i :: from <= i < at ==> buf[i] != 0
    {
      at := at + 1;
    }
  }

  /** `copy_path`. */
  method CopyPath(m: Memory, u: Word, buf: array<Byte>) returns (r: Result)
    requires buf.Length == PATH_MAX
    modifies buf
    ensures r == Bytewise(m, u, 0, [])
  {
    hide At;
    var got := 0;
    while got < PATH_MAX
      invariant 0 <= got <= PATH_MAX
      invariant Bytewise(m, u, 0, []) == Bytewise(m, u, got, buf[..got])
    {
      var chunk := CHUNK;
      if got + chunk > PATH_MAX { chunk := PATH_MAX - got; }
      var done;
      done, r := CopyChunk(m, u, buf, got, chunk);
      if done { return; }
      got := got + chunk;
    }
    r := Err(ENAMETOOLONG);
  }

  /** One chunk, whole if it can be read and byte by byte if not. */
  method CopyChunk(m: Memory, u: Word, buf: array<Byte>, got: nat, chunk: nat) returns (done: bool, r: Result)
    requires buf.Length == PATH_MAX && got + chunk <= PATH_MAX && chunk > 0
    modifies buf
    ensures done ==> r == Bytewise(m, u, got, old(buf[..got]))
    ensures !done ==> Bytewise(m, u, got, old(buf[..got])) == Bytewise(m, u, got + chunk, buf[..got + chunk])
  {
    hide At;
    r := Err(EFAULT);
    ghost var was := buf[..got];
    var whole := CopyIn(m, buf, u, got, chunk);
    assert buf[..got] == was;
    if !whole {
      done, r := CopySingly(m, u, buf, got, chunk);
      return;
    }
    var at := FindNul(buf, got, got + chunk);
    BytewiseSkips(m, u, got, at, buf[..]);
    assert buf[..][..got] == was && buf[..][..at] == buf[..at];
    if at < got + chunk {
      return true, Path(buf[..at]);
    }
    done := false;
  }

  /** The fallback loop. */
  method CopySingly(m: Memory, u: Word, buf: array<Byte>, got: nat, chunk: nat) returns (done: bool, r: Result)
    requires buf.Length == PATH_MAX && got + chunk <= PATH_MAX
    modifies buf
    ensures done ==> r == Bytewise(m, u, got, old(buf[..got]))
    ensures !done ==> Bytewise(m, u, got, old(buf[..got])) == Bytewise(m, u, got + chunk, buf[..got + chunk])
  {
    hide At;
    r := Err(EFAULT);
    var k := got;
    while k < got + chunk
      invariant got <= k <= got + chunk
      invariant Bytewise(m, u, got, old(buf[..got])) == Bytewise(m, u, k, buf[..k])
    {
      ghost var was := buf[..k];
      var ok := CopyIn(m, buf, u, k, 1);
      assert buf[..k] == was;
      if !ok { return true, Err(EFAULT); }
      if buf[k] == 0 { return true, Path(buf[..k]); }
      assert buf[..k + 1] == was + [buf[k]];
      k := k + 1;
    }
    done := false;
  }
}
