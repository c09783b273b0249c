/** Little-endian bytes and two's complement, as the C sources move them. */
module Bytes {
  type Byte = x: int | 0 <= x < 256
  type Word = x: int | 0 <= x < WORD

  const WORD := 0x1_0000_0000_0000_0000

  /** 256 to the power `n`. */
  function Span(n: nat): (p: int)
    ensures p > 0
  {
    if n == 0 then 1 else 256 * Span(n - 1)
  }

  /** The low `n` bytes of `v`, lowest first; a negative `v` in two's complement. */
  function Le(n: nat, v: int): (s: seq<Byte>)
    ensures |s| == n
  {
    if n == 0 then [] else [v % 256] + Le(n - 1, v / 256)
  }

  function Zeros(n: nat): (s: seq<Byte>)
    ensures |s| == n
  {
    seq(n, _ => 0)
  }

  function Unsigned(s: seq<Byte>): (v: int)
    ensures 0 <= v < Span(|s|)
  {
    if s == [] then 0 else s[0] + 256 * Unsigned(s[1..])
  }

  function Signed(s: seq<Byte>): int {
    var v := Unsigned(s);
    if 2 * v >= Span(|s|) then v - Span(|s|) else v
  }

  /** Reading back what was written gives the value, reduced to the width. */
  lemma {:induction false} UnsignedOfLe(n: nat, v: int)
    ensures Unsigned(Le(n, v)) == v % Span(n)
  {
    if n > 0 {
      UnsignedOfLe(n - 1, v / 256);
      assert Le(n, v)[1..] == Le(n - 1, v / 256);
      SplitMod(v, Span(n - 1));
    }
  }

  lemma SplitMod(v: int, p: int)
    requires p > 0
    ensures v % (256 * p) == v % 256 + 256 * ((v / 256) % p)
  {
    var q, r := (v / 256) / p, (v / 256) % p;
    assert v == 256 * (v / 256) + v % 256 && v / 256 == p * q + r;
    assert v == (256 * p) * q + (256 * r + v % 256);
    assert 0 <= 256 * r + v % 256 < 256 * p;
    ModUnique(v, 256 * p, q, 256 * r + v % 256);
  }

  lemma ModUnique(v: int, m: int, q: int, r: int)
    requires m > 0 && 0 <= r < m && v == m * q + r
    ensures v % m == r && v / m == q
  {
    var d := v / m - q;
    assert m * (v / m) + v % m == m * q + r;
    assert m * d == r - v % m;
    assert d >= 1 ==> m * d >= m;
    assert d <= -1 ==> m * d <= -m;
  }

  lemma {:induction false} LeOfUnsigned(s: seq<Byte>)
    ensures Le(|s|, Unsigned(s)) == s
  {
    if s != [] {
      LeOfUnsigned(s[1..]);
      ModUnique(Unsigned(s), 256, Unsigned(s[1..]), s[0]);
    }
  }

  /** A signed value that fits its width survives being written and read. */
  lemma SignedOfLe(n: nat, v: int)
    requires n > 0 && -Span(n) <= 2 * v < Span(n)
    ensures Signed(Le(n, v)) == v
  {
    UnsignedOfLe(n, v);
    if v < 0 { ModUnique(v, Span(n), -1, v + Span(n)); } else { ModUnique(v, Span(n), 0, v); }
  }

  /** Bytes read as a signed value are the bytes that value is written as. */
  lemma LeOfSigned(s: seq<Byte>)
    requires s != []
    ensures Le(|s|, Signed(s)) == s && -Span(|s|) <= 2 * Signed(s) < Span(|s|)
  {
    var u, p := Unsigned(s), Span(|s|);
    LeOfUnsigned(s);
    ModUnique(u, p, 0, u);
    if 2 * u >= p { ModUnique(u - p, p, -1, u); }
    LeMod(|s|, u, Signed(s));
  }

  /** Only the value modulo the width is written. */
  lemma {:induction false} LeMod(n: nat, v: int, w: int)
    requires v % Span(n) == w % Span(n)
    ensures Le(n, v) == Le(n, w)
  {
    UnsignedOfLe(n, v);
    UnsignedOfLe(n, w);
    LeOfUnsigned(Le(n, v));
    LeOfUnsigned(Le(n, w));
  }

  /** The low bytes of a value are a prefix of more of its bytes. */
  lemma {:induction false} LePrefix(n: nat, m: nat, v: int)
    requires n <= m
    ensures Le(m, v)[..n] == Le(n, v)
    ensures Le(m, v)[n..] == Le(m - n, v / Span(n))
  {
    if n > 0 {
      LePrefix(n - 1, m - 1, v / 256);
      assert Le(m, v)[1..] == Le(m - 1, v / 256);
      assert Le(m, v)[n..] == Le(m - 1, v / 256)[n - 1..];
      DivDiv(v, Span(n - 1));
    }
  }

  lemma DivDiv(v: int, p: int)
    requires p > 0
    ensures v / (256 * p) == (v / 256) / p
  {
    var q, r := (v / 256) / p, (v / 256) % p;
    assert v == 256 * (v / 256) + v % 256 && v / 256 == p * q + r;
    ModUnique(v, 256 * p, q, 256 * r + v % 256);
  }

  lemma Spans()
    ensures Span(1) == 0x100 && Span(2) == 0x1_0000 && Span(4) == 0x1_0000_0000 && Span(8) == WORD
  {
    assert Span(2) == 256 * Span(1);
    assert Span(3) == 256 * Span(2);
    assert Span(4) == 256 * Span(3);
    assert Span(5) == 256 * Span(4);
    assert Span(6) == 256 * Span(5);
    assert Span(7) == 256 * Span(6);
  }
}
