/** The pipe's ring buffer (core/vfs_synth.c:470-530): bytes leave in the order
    they came, and none is lost or made up. */
module Pipes {
  import opened Bytes

  const RING := 65536
  const PIPE_BUF := 4096
  const BOUNCE := 65536

  datatype PipeErrno = EAGAIN | EPIPE

  datatype Count = Bytes(n: nat) | Fails(e: PipeErrno)

  // ---- the queue a ring stands for ----

  /** The bytes in flight, the ends that are open, and all that went in and came out. */
  datatype Queue = Queue(contents: seq<Byte>, readers: nat, writers: nat, accepted: seq<Byte>, returned: seq<Byte>)

  function Least(a: nat, b: nat): nat {
    if a < b then a else b
  }

  /** A read call of `len` bytes: its answer, the bytes, and the queue after it. */
  function ReadOf(q: Queue, len: nat): (Count, seq<Byte>, Queue) {
    var n := Least(len, |q.contents|);
    (if len > 0 && q.contents == [] && q.writers > 0 then Fails(EAGAIN) else Bytes(n),
     q.contents[..n],
     q.(contents := q.contents[n..], returned := q.returned + q.contents[..n]))
  }

  function WriteAnswer(q: Queue, data: seq<Byte>): Count {
    if data == [] then Bytes(0)
    else if q.readers == 0 then Fails(EPIPE)
    else if |q.contents| >= RING || (|data| <= PIPE_BUF && RING - |q.contents| < |data|) then Fails(EAGAIN)
    else Bytes(Least(|data|, RING - |q.contents|))
  }

  /** How many bytes a write call takes. */
  function Taken(q: Queue, data: seq<Byte>): (n: nat)
    ensures n <= |data|
  {
    var r := WriteAnswer(q, data);
    if r.Bytes? then r.n else 0
  }

  /** A write call: its answer, and the queue after it. */
  function WriteOf(q: Queue, data: seq<Byte>): (Count, Queue) {
    var part := data[..Taken(q, data)];
    (WriteAnswer(q, data), q.(contents := q.contents + part, accepted := q.accepted + part))
  }

  /** One end's description is gone. */
  function LessEnd(q: Queue, reading: bool): Queue {
    if reading then if q.readers > 0 then q.(readers := q.readers - 1) else q
    else if q.writers > 0 then q.(writers := q.writers - 1) else q
  }

  /** No end is held any more: the ring is to be freed. */
  predicate EndsGone(q: Queue) {
    q.readers == 0 && q.writers == 0
  }

  /** First in, first out; nothing lost, nothing made up. */
  ghost predicate Fifo(q: Queue) {
    q.accepted == q.returned + q.contents && |q.contents| <= RING
  }

  lemma CallsKeepFifo(q: Queue, len: nat, data: seq<Byte>)
    requires Fifo(q)
    ensures Fifo(ReadOf(q, len).2) && Fifo(WriteOf(q, data).1)
  {
    var n := Least(len, |q.contents|);
    assert q.contents == q.contents[..n] + q.contents[n..];
    var part := data[..Taken(q, data)];
    assert q.returned + (q.contents + part) == (q.returned + q.contents) + part;
  }

  /** What a read hands out is the front of what is in flight, as much as is asked for and there,
      and the answer counts just these bytes. */
  lemma ReadHandsOut(q: Queue, len: nat)
    ensures var (r, out, after) := ReadOf(q, len);
            && q.contents == out + after.contents && (|out| == len || after.contents == []) && |out| <= len
            && after.returned == q.returned + out && after.accepted == q.accepted
            && r == (if out == [] && len > 0 && q.writers > 0 then Fails(EAGAIN) else Bytes(|out|))
  {
    var n := Least(len, |q.contents|);
    assert q.contents == q.contents[..n] + q.contents[n..];
  }

  /** What a write puts in flight is the front of the caller's bytes, and the answer counts just
      these: all of them, as many as the ring has room for, or none. */
  lemma WriteTakesIn(q: Queue, data: seq<Byte>)
    requires Fifo(q)
    ensures var (r, after) := WriteOf(q, data);
            var n := if r.Bytes? then r.n else 0;
            && n <= |data| && after.contents == q.contents + data[..n] && after.accepted == q.accepted + data[..n]
            && after.returned == q.returned && |after.contents| <= 65536
            && (n < |data| ==> n == 0 || |after.contents| == 65536)
            && (r == Fails(EPIPE) <==> data != [] && q.readers == 0)
            && (r == Fails(EAGAIN) <==> data != [] && q.readers > 0
                                        && 65536 - |q.contents| < if |data| <= 4096 then |data| else 1)
  {
  }

  /** A write of at most PIPE_BUF bytes goes in whole or not at all; a longer one
      is refused only by a full ring or for want of a reader. */
  lemma AtomicWrite(q: Queue, data: seq<Byte>)
    requires Fifo(q)
    ensures |data| <= PIPE_BUF ==> Taken(q, data) == |data| || Taken(q, data) == 0
    ensures data != [] ==> (Taken(q, data) == 0 <==> q.readers == 0 || |q.contents| == RING
                                                     || (|data| <= PIPE_BUF && |data| > RING - |q.contents|))
  {
  }

  /** A read of at least one byte answers 0 exactly when the ring is empty and no writer is left. */
  lemma EndOfFile(q: Queue, len: nat)
    requires len > 0
    ensures ReadOf(q, len).0 == Bytes(0) <==> q.contents == [] && q.writers == 0
  {
  }

  // ---- the ring ----

  /** Byte `i` behind the head. */
  function At(head: nat, i: nat): (k: nat)
    ensures k < RING
  {
    (head + i) % RING
  }

  lemma AtNext(head: nat, i: nat)
    requires head < RING
    ensures At((head + 1) % RING, i) == At(head, i + 1)
  {
  }

  /** Two places in the ring differ unless they are a whole turn apart. */
  lemma AtDiffers(head: nat, i: nat, j: nat)
    requires i < j < i + RING
    ensures At(head, i) != At(head, j)
  {
  }

  lemma Regroup(out: seq<Byte>, b: Byte, rest: seq<Byte>)
    ensures out + ([b] + rest) == (out + [b]) + rest
  {
  }

  lemma Nothing(s: seq<Byte>)
    ensures s + [] == s && [] + s == s
  {
  }

  /** Bytes move from the ring to what was returned. */
  lemma MoveOver(accepted: seq<Byte>, returned: seq<Byte>, was: seq<Byte>, out: seq<Byte>, left: seq<Byte>)
    requires accepted == returned + was && was == out + left
    ensures accepted == (returned + out) + left
  {
  }

  lemma Joined(accepted: seq<Byte>, returned: seq<Byte>, was: seq<Byte>, more: seq<Byte>)
    requires accepted == returned + was
    ensures accepted + more == returned + (was + more)
  {
  }

  lemma MoreOut(was: seq<Byte>, had: seq<Byte>, out: seq<Byte>, left: seq<Byte>, part: seq<Byte>, now: seq<Byte>)
    requires was == out + left && left == part + now
    ensures was == (out + part) + now && (had + out) + part == had + (out + part)
    ensures part == [] ==> out + part == out && was == out + now
  {
  }

  lemma MoreIn(data: seq<Byte>, done: nat, k: nat, was: seq<Byte>, had: seq<Byte>, now: seq<Byte>, got: seq<Byte>)
    requires done + k <= |data| && now == was + data[..done] && got == had + data[..done]
    ensures now + data[done..done + k] == was + data[..done + k]
    ensures got + data[done..done + k] == had + data[..done + k]
  {
    assert data[..done + k] == data[..done] + data[done..done + k];
  }

  class PipeRing {
    const buf: array<Byte>
    var head: nat
    var tail: nat
    var count: nat
    var readers: nat
    var writers: nat
    /** Every byte a write has accepted and every byte a read has returned, in order. */
    ghost var accepted: seq<Byte>
    ghost var returned: seq<Byte>

    constructor ()
      ensures Valid() && fresh(this) && fresh(buf)
      ensures Contents() == [] && accepted == [] && returned == [] && readers == 1 && writers == 1
    {
      buf := new Byte[RING](_ => 0);
      head, tail, count, readers, writers := 0, 0, 0, 1, 1;
      accepted, returned := [], [];
    }

    ghost predicate Shaped()
      reads this
    {
      && buf.Length == RING && head < RING && count <= RING && tail == At(head, count)
    }

    ghost function Contents(): (s: seq<Byte>)
      requires Shaped()
      reads this, buf
      ensures |s| == count
    {
      seq(count, i requires 0 <= i < count reads this, buf requires Shaped() => buf[At(head, i)])
    }

    ghost predicate Valid()
      reads this, buf
    {
      && Shaped() && accepted == returned + Contents()
    }

    ghost function Now(): Queue
      requires Shaped()
      reads this, buf
    {
      Queue(Contents(), readers, writers, accepted, returned)
    }

    /** The byte at the head leaves. */
    method Pop() returns (b: Byte)
      requires Shaped() && count > 0
      modifies this`head, this`count
      ensures Shaped() && count == old(count) - 1
      ensures old(Contents()) == [b] + Contents()
    {
      ghost var before := Contents();
      b := buf[head];
      assert At(head, 0) == head;
      var next := (head + 1) % RING;
      forall i: nat | i < count ensures At(next, i) == At(head, i + 1) { AtNext(head, i); }
      head := next;
      count := count - 1;
    }

    /** A byte joins at the tail. */
    method Push(b: Byte)
      requires Shaped() && count < RING
      modifies this`tail, this`count, buf
      ensures Shaped() && count == old(count) + 1
      ensures Contents() == old(Contents()) + [b]
    {
      AtNext(head, count);
      forall i | 0 <= i < count ensures At(head, i) != tail { AtDiffers(head, i, count); }
      TailNext(head, count);
      buf[tail] := b;
      tail := (tail + 1) % RING;
      count := count + 1;
    }

    lemma TailNext(h: nat, n: nat)
      ensures (At(h, n) + 1) % RING == At(h, n + 1)
    {
    }

    /** The loop of `pipe_read`. */
    method Drain(len: nat) returns (out: seq<Byte>)
      requires Shaped()
      modifies this`head, this`count
      ensures Shaped() && old(Contents()) == out + Contents()
      ensures |out| == if len < old(count) then len else old(count)
    {
      out := [];
      ghost var before := Contents();
      assert before == out + Contents();
      while |out| < len && count > 0
        invariant Shaped() && |out| <= len && before == out + Contents()
        decreases count
      {
        ghost var was := Contents();
        var b := Pop();
        Regroup(out, b, Contents());
        out := out + [b];
      }
    }

    /** `pipe_read`. */
    method Read(len: nat) returns (r: Count, out: seq<Byte>)
      requires Valid()
      modifies this`head, this`count, this`returned
      ensures Valid() && accepted == old(accepted) && returned == old(returned) + out
      ensures old(Contents()) == out + Contents()
      ensures old(count) == 0 ==> out == [] && r == if writers == 0 then Bytes(0) else Fails(EAGAIN)
      ensures old(count) > 0 ==> r == Bytes(|out|) && |out| == if len < old(count) then len else old(count)
    {
      hide At;
      if count == 0 {
        Nothing(Contents());
        Nothing(returned);
        return if writers == 0 then Bytes(0) else Fails(EAGAIN), [];
      }
      ghost var was, had := Contents(), returned;
      out := Drain(len);
      MoveOver(accepted, had, was, out, Contents());
      returned := returned + out;
      r := Bytes(|out|);
    }

    /** The loop of `pipe_write`. */
    method Fill(data: seq<Byte>) returns (n: nat)
      requires Shaped()
      modifies this`tail, this`count, buf
      ensures Shaped() && n <= |data| && Contents() == old(Contents()) + data[..n]
      ensures n == if |data| < RING - old(count) then |data| else RING - old(count)
    {
      ghost var before := Contents();
      n := 0;
      while n < |data| && count < RING
        invariant Shaped() && n <= |data| && Contents() == before + data[..n]
        decreases |data| - n
      {
        Push(data[n]);
        assert data[..n + 1] == data[..n] + [data[n]];
        n := n + 1;
      }
    }

    /** `pipe_write`. */
    method Write(data: seq<Byte>) returns (r: Count)
      requires Valid()
      modifies this`tail, this`count, this`accepted, buf
      ensures Valid() && returned == old(returned)
      ensures var n := if r.Bytes? then r.n else 0;
              n <= |data| && accepted == old(accepted) + data[..n] && Contents() == old(Contents()) + data[..n]
      ensures r == if readers == 0 then Fails(EPIPE)
                   else if |data| <= PIPE_BUF && RING - old(count) < |data| then Fails(EAGAIN)
                   else if old(count) == RING then Fails(EAGAIN)
                   else Bytes(if |data| < RING - old(count) then |data| else RING - old(count))
    {
      hide At;
      Nothing(Contents());
      Nothing(accepted);
      if readers == 0 { return Fails(EPIPE); }
      if |data| <= PIPE_BUF && RING - count < |data| { return Fails(EAGAIN); }
      if count == RING { return Fails(EAGAIN); }
      ghost var was := Contents();
      var n := Fill(data);
      Joined(accepted, returned, was, data[..n]);
      accepted := accepted + data[..n];
      r := Bytes(n);
    }

    /** `do_read` (core/sys_fs.c:192-213) on the read end: chunks through a bounce
        buffer, until a short one. */
    method DoRead(len: nat) returns (r: Count, out: seq<Byte>)
      requires Valid()
      modifies this`head, this`count, this`returned
      ensures Valid() && (r, out, Now()) == ReadOf(old(Now()), len)
    {
      hide At;
      out := [];
      ghost var was, had := Contents(), returned;
      Nothing(was);
      Nothing(had);
      while |out| < len
        invariant Valid() && |out| <= len
        invariant was == out + Contents() && returned == had + out
        invariant |out| > 0 ==> |out| <= |was|
        decreases len - |out|
      {
        var chunk := if len - |out| > BOUNCE then BOUNCE else len - |out|;
        ghost var left := Contents();
        var n, part;
        n, part := Read(chunk);
        MoreOut(was, had, out, left, part, Contents());
        if n.Fails? { return if out != [] then Bytes(|out|) else n, out; }
        if n.n == 0 { break; }
        out := out + part;
        if n.n < chunk { break; }
      }
      r := Bytes(|out|);
    }

    /** `do_write` (core/sys_fs.c:215-237) on the write end. */
    method DoWrite(data: seq<Byte>) returns (r: Count)
      requires Valid()
      modifies this`tail, this`count, this`accepted, buf
      ensures Valid() && (r, Now()) == WriteOf(old(Now()), data)
    {
      hide At;
      var done := 0;
      ghost var was, had := Contents(), accepted;
      Nothing(was);
      Nothing(had);
      while done < |data|
        invariant Valid() && returned == old(returned) && done <= |data|
        invariant Contents() == was + data[..done] && accepted == had + data[..done]
        invariant done > 0 ==> readers > 0 && (done == |data| || done >= BOUNCE)
        decreases |data| - done
      {
        var chunk := if |data| - done > BOUNCE then BOUNCE else |data| - done;
        ghost var now, got := Contents(), accepted;
        var n := Write(data[done..done + chunk]);
        var k := if n.Bytes? then n.n else 0;
        MoreIn(data, done, k, was, had, now, got);
        assert data[done..done + chunk][..k] == data[done..done + k];
        if n.Fails? { return if done > 0 then Bytes(done) else n; }
        done := done + n.n;
        if n.n < chunk { break; }
      }
      r := Bytes(done);
    }

    /** One end's description is gone; `done` when the ring is to be freed. */
    method Release(reading: bool) returns (done: bool)
      requires Valid() && (if reading then readers > 0 else writers > 0)
      modifies this`readers, this`writers
      ensures Valid() && Now() == LessEnd(old(Now()), reading)
      ensures done <==> EndsGone(Now())
    {
      if reading { readers := readers - 1; } else { writers := writers - 1; }
      done := readers == 0 && writers == 0;
    }
  }
}
