/** File names between Linux and NTFS (core/hostfs_nt.c:291-361): UTF-8 to UTF-16
    with the bytes NTFS refuses moved to U+F000 and up, and back. */
module Names {
  import opened Basics
  import opened Bytes

  type Wide = x: int | 0 <= x < 0x1_0000

  /** A Unicode scalar value other than NUL: what a well-formed name is made of
      (section 3 of RFC 3629). */
  predicate Scalar(c: nat) {
    0 < c < 0x11_0000 && !(0xd800 <= c < 0xe000)
  }

  predicate Scalars(cs: seq<nat>) {
    forall i :: 0 <= i < |cs| ==> Scalar(cs[i])
  }

  /** The characters NTFS refuses in a name. */
  predicate Refused(c: nat) {
    c < 0x20 || c in {34, 42, 58, 60, 62, 63, 124, 92}
  }

  function Escape(c: nat): nat {
    if Refused(c) then 0xf000 + c else c
  }

  function Unescape(c: nat): nat {
    if 0xf000 <= c <= 0xf0ff then c - 0xf000 else c
  }

  function Utf8(c: nat): (s: seq<Byte>)
    requires c < 0x20_0000
    ensures 1 <= |s| <= 4
  {
    if c < 0x80 then [c]
    else if c < 0x800 then [0xc0 + c / 64, 0x80 + c % 64]
    else if c < 0x1_0000 then [0xe0 + c / 4096, 0x80 + (c / 64) % 64, 0x80 + c % 64]
    else [0xf0 + c / 0x4_0000, 0x80 + (c / 4096) % 64, 0x80 + (c / 64) % 64, 0x80 + c % 64]
  }

  function Utf16(c: nat): (s: seq<Wide>)
    requires c < 0x11_0000
    ensures 1 <= |s| <= 2
  {
    if c < 0x1_0000 then [c]
    else [0xd800 + (c - 0x1_0000) / 1024, 0xdc00 + (c - 0x1_0000) % 1024]
  }

  function Utf8All(cs: seq<nat>): seq<Byte>
    requires forall i :: 0 <= i < |cs| ==> cs[i] < 0x11_0000
  {
    if cs == [] then [] else Utf8(cs[0]) + Utf8All(cs[1..])
  }

  function Utf16All(cs: seq<nat>): seq<Wide>
    requires forall i :: 0 <= i < |cs| ==> cs[i] < 0x11_0000
  {
    if cs == [] then [] else Utf16(cs[0]) + Utf16All(cs[1..])
  }

  function EscapeAll(cs: seq<nat>): (ds: seq<nat>)
    ensures |ds| == |cs|
    ensures forall i :: 0 <= i < |cs| ==> ds[i] == Escape(cs[i])
  {
    seq(|cs|, i requires 0 <= i < |cs| => Escape(cs[i]))
  }

  function UnescapeAll(cs: seq<nat>): (ds: seq<nat>)
    ensures |ds| == |cs|
    ensures forall i :: 0 <= i < |cs| ==> ds[i] == Unescape(cs[i])
  {
    seq(|cs|, i requires 0 <= i < |cs| => Unescape(cs[i]))
  }

  // ---- one character at a time, as the code reads them ----

  predicate Continues(name: seq<Byte>, i: nat) {
    i < |name| && 0x80 <= name[i] < 0xc0
  }

  /** The six bits of a continuation byte behind `high`. */
  function Join6(high: nat, b: Byte): nat {
    high * 64 + b % 64
  }

  /** The code point at the head of a name and its length in bytes; `None` if malformed. */
  function Head8(name: seq<Byte>): Opt<(nat, nat)>
    requires name != []
  {
    var c: nat := name[0];
    if c < 0x80 then Some((c, 1))
    else if 0xc0 <= c < 0xe0 then
      if Continues(name, 1) then Some((Join6(c - 0xc0, name[1]), 2)) else None
    else if 0xe0 <= c < 0xf0 then
      if Continues(name, 1) && Continues(name, 2) then Some((Join6(Join6(c - 0xe0, name[1]), name[2]), 3)) else None
    else if 0xf0 <= c < 0xf8 then
      if Continues(name, 1) && Continues(name, 2) && Continues(name, 3) then
        Some((Join6(Join6(Join6(c - 0xf0, name[1]), name[2]), name[3]), 4))
      else None
    else None
  }

  lemma HeadFits(name: seq<Byte>)
    requires name != [] && Head8(name).Some?
    ensures var (c, n) := Head8(name).value; c < 0x20_0000 && 1 <= n <= |name|
  {
  }

  /** The units the escaped code point is written as; those past U+10FFFF are truncated to 16 bits each. */
  function Units(cp: nat): (s: seq<Wide>)
    ensures 1 <= |s| <= 2
  {
    if cp >= 0x1_0000 then [(0xd800 + (cp - 0x1_0000) / 1024) % 0x1_0000, 0xdc00 + (cp - 0x1_0000) % 1024] else [cp]
  }

  /** `name_to_wide` without its capacity. */
  function ToWide(name: seq<Byte>): Opt<seq<Wide>>
    decreases |name|
  {
    if name == [] then Some([])
    else
      match Head8(name)
      case None => None
      case Some((c, n)) =>
        HeadFits(name);
        match ToWide(name[n..])
        case None => None
        case Some(rest) => Some(Units(Escape(c)) + rest)
  }

  /** The code point at the head of a wide name and its length in units. */
  function Head16(w: seq<Wide>): (r: (nat, nat))
    requires w != []
    ensures r.0 < 0x11_0000 && 1 <= r.1 <= 2 && r.1 <= |w|
  {
    var u: nat := w[0];
    if 0xd800 <= u < 0xdc00 && |w| > 1 && 0xdc00 <= w[1] < 0xe000 then
      var v: nat := w[1];
      (0x1_0000 + (u - 0xd800) * 1024 + (v - 0xdc00), 2)
    else (u, 1)
  }

  /** `name_from_wide` without its capacity. */
  function FromWide(w: seq<Wide>): seq<Byte>
    decreases |w|
  {
    if w == [] then []
    else
      var (c, n) := Head16(w);
      Utf8(Unescape(c)) + FromWide(w[n..])
  }

  // ---- round trips ----

  lemma Six(c: nat, d: nat)
    ensures c == Join6(c / 64, 0x80 + c % 64)
    ensures d > 0 ==> (c / 64) / 64 == c / 4096 && (c / 4096) / 64 == c / 0x4_0000
  {
  }

  /** The bytes of a character join back into it. */
  lemma Utf8Joins(c: nat)
    requires c < 0x20_0000
    ensures Join6(Join6(c / 4096, 0x80 + (c / 64) % 64), 0x80 + c % 64) == c
    ensures Join6(Join6(Join6(c / 0x4_0000, 0x80 + (c / 4096) % 64), 0x80 + (c / 64) % 64), 0x80 + c % 64) == c
  {
    Six(c, 1);
    Six(c / 64, 1);
    Six(c / 4096, 1);
    hide Join6;
  }

  lemma HeadOfUtf8(c: nat, rest: seq<Byte>)
    requires Scalar(c)
    ensures Head8(Utf8(c) + rest) == Some((c, |Utf8(c)|))
    ensures Utf8(c)[0] != 0
  {
    hide Join6;
    var s := Utf8(c) + rest;
    assert forall i :: 0 <= i < |Utf8(c)| ==> s[i] == Utf8(c)[i];
    Six(c, 0);
    Utf8Joins(c);
  }

  lemma HeadOfUtf16(c: nat, rest: seq<Wide>)
    requires Scalar(c)
    ensures Head16(Utf16(c) + rest) == (c, |Utf16(c)|)
  {
    var s := Utf16(c) + rest;
    assert forall i :: 0 <= i < |Utf16(c)| ==> s[i] == Utf16(c)[i];
  }

  lemma EscapeScalar(c: nat)
    requires Scalar(c)
    ensures Scalar(Escape(c)) && Units(Escape(c)) == Utf16(Escape(c))
    ensures Unescape(Escape(c)) == c <==> !(0xf000 <= c <= 0xf0ff)
    ensures !Refused(Escape(c))
  {
  }

  /** A well-formed name becomes the UTF-16 of its escaped characters. */
  lemma {:induction false} ToWideOf(cs: seq<nat>)
    requires Scalars(cs)
    ensures Scalars(EscapeAll(cs))
    ensures ToWide(Utf8All(cs)) == Some(Utf16All(EscapeAll(cs)))
  {
    forall i | 0 <= i < |cs| ensures Scalar(EscapeAll(cs)[i]) { EscapeScalar(cs[i]); }
    if cs != [] {
      ToWideOf(cs[1..]);
      HeadOfUtf8(cs[0], Utf8All(cs[1..]));
      EscapeScalar(cs[0]);
      assert Utf8All(cs)[|Utf8(cs[0])|..] == Utf8All(cs[1..]);
      assert EscapeAll(cs)[1..] == EscapeAll(cs[1..]);
    }
  }

  /** Wide text becomes the UTF-8 of its characters, escapes undone. */
  lemma {:induction false} FromWideOf(ds: seq<nat>)
    requires Scalars(ds)
    ensures forall i :: 0 <= i < |ds| ==> UnescapeAll(ds)[i] < 0x11_0000
    ensures FromWide(Utf16All(ds)) == Utf8All(UnescapeAll(ds))
  {
    if ds != [] {
      FromWideOf(ds[1..]);
      HeadOfUtf16(ds[0], Utf16All(ds[1..]));
      assert Utf16All(ds)[|Utf16(ds[0])|..] == Utf16All(ds[1..]);
      assert UnescapeAll(ds)[1..] == UnescapeAll(ds[1..]);
    }
  }

  /** No character is where the escapes go. */
  predicate NoPrivate(cs: seq<nat>) {
    forall i :: 0 <= i < |cs| ==> !(0xf000 <= cs[i] <= 0xf0ff)
  }

  lemma {:induction false} Narrower(cs: seq<nat>)
    requires Scalars(cs)
    ensures Scalars(EscapeAll(cs)) && forall i :: 0 <= i < |cs| ==> UnescapeAll(EscapeAll(cs))[i] < 0x11_0000
    ensures |Utf16All(EscapeAll(cs))| <= |Utf8All(cs)|
    ensures var back := Utf8All(UnescapeAll(EscapeAll(cs)));
            if NoPrivate(cs) then back == Utf8All(cs) else |back| < |Utf8All(cs)|
  {
    forall i | 0 <= i < |cs| ensures Scalar(EscapeAll(cs)[i]) { EscapeScalar(cs[i]); }
    if cs != [] {
      Narrower(cs[1..]);
      EscapeScalar(cs[0]);
      assert EscapeAll(cs)[1..] == EscapeAll(cs[1..]);
      assert UnescapeAll(EscapeAll(cs))[1..] == UnescapeAll(EscapeAll(cs[1..]));
      assert NoPrivate(cs) <==> !(0xf000 <= cs[0] <= 0xf0ff) && NoPrivate(cs[1..]) by {
        if NoPrivate(cs[1..]) { assert forall i :: 1 <= i < |cs| ==> cs[i] == cs[1..][i - 1]; }
      }
    }
  }

  /** Within the lengths the callers use, a name comes back from the host as it
      went exactly when it has no character from U+F000 to U+F0FF. */
  lemma RoundTrip(cs: seq<nat>)
    requires Scalars(cs) && |Utf8All(cs)| <= 255
    ensures var w := ToWide(Utf8All(cs));
            && w.Some? && |w.value| <= 255 && |FromWide(w.value)| < 256
            && (FromWide(w.value) == Utf8All(cs) <==> NoPrivate(cs))
            && |FromWide(w.value)| <= |Utf8All(cs)|
  {
    ToWideOf(cs);
    Narrower(cs);
    FromWideOf(EscapeAll(cs));
  }

  /** The byte sequences of UTF-8 by their lead byte; as in the first definition of it, no value is
      excluded, nor a sequence longer than its value needs. */
  predicate IsSequence(p: seq<Byte>) {
    && (|| (|p| == 1 && p[0] < 0x80) || (|p| == 2 && 0xc0 <= p[0] < 0xe0)
        || (|p| == 3 && 0xe0 <= p[0] < 0xf0) || (|p| == 4 && 0xf0 <= p[0] < 0xf8))
    && forall k :: 1 <= k < |p| ==> 0x80 <= p[k] < 0xc0
  }

  function ValueOf(p: seq<Byte>): nat
    requires IsSequence(p)
  {
    var b := seq(|p|, k requires 0 <= k < |p| => p[k] as int);
    match |b|
    case 1 => b[0]
    case 2 => (b[0] - 0xc0) * 64 + (b[1] - 0x80)
    case 3 => (b[0] - 0xe0) * 4096 + (b[1] - 0x80) * 64 + (b[2] - 0x80)
    case _ => (b[0] - 0xf0) * 0x4_0000 + (b[1] - 0x80) * 4096 + (b[2] - 0x80) * 64 + (b[3] - 0x80)
  }

  /** A sequence becomes its value, moved up if it is barred, as one unit or a pair. */
  lemma SequenceWide(p: seq<Byte>, rest: seq<Byte>)
    requires IsSequence(p)
    ensures ToWide(p + rest).Some? <==> ToWide(rest).Some?
    ensures ToWide(rest).Some? ==>
              var c := if Barred(ValueOf(p)) then 0xf000 + ValueOf(p) else ValueOf(p);
              ToWide(p + rest).value
              == (if c < 0x1_0000 then [c as Wide] else [(0xd800 + (c - 0x1_0000) / 1024) % 0x1_0000, 0xdc00 + (c - 0x1_0000) % 1024])
                 + ToWide(rest).value
  {
    var name := p + rest;
    assert name[|p|..] == rest && forall k :: 0 <= k < |p| ==> name[k] == p[k];
    HeadValue(p, name);
  }

  lemma HeadValue(p: seq<Byte>, name: seq<Byte>)
    requires IsSequence(p) && p <= name
    ensures Head8(name) == Some((ValueOf(p), |p|))
  {
    assert forall k :: 0 <= k < |p| ==> name[k] == p[k];
  }

  function Whole(ps: seq<seq<Byte>>): seq<Byte> {
    if ps == [] then [] else ps[0] + Whole(ps[1..])
  }

  /** Exactly the names made of such sequences convert; any other is refused. */
  lemma ConvertsExactly(name: seq<Byte>)
    ensures ToWide(name).Some? <==> exists ps: seq<seq<Byte>> :: Whole(ps) == name && forall i :: 0 <= i < |ps| ==> IsSequence(ps[i])
  {
    if ToWide(name).Some? { var ps := SequencesOf(name); }
    if ps: seq<seq<Byte>> :| Whole(ps) == name && forall i :: 0 <= i < |ps| ==> IsSequence(ps[i]) { SequencesConvert(ps); }
  }

  lemma {:induction false} SequencesOf(name: seq<Byte>) returns (ps: seq<seq<Byte>>)
    requires ToWide(name).Some?
    ensures Whole(ps) == name && forall i :: 0 <= i < |ps| ==> IsSequence(ps[i])
    decreases |name|
  {
    if name == [] {
      ps := [];
    } else {
      HeadFits(name);
      var n := Head8(name).value.1;
      var rest := SequencesOf(name[n..]);
      ps := [name[..n]] + rest;
      assert ps[1..] == rest && name[..n] + name[n..] == name;
    }
  }

  lemma {:induction false} SequencesConvert(ps: seq<seq<Byte>>)
    requires forall i :: 0 <= i < |ps| ==> IsSequence(ps[i])
    ensures ToWide(Whole(ps)).Some?
  {
    if ps != [] {
      SequencesConvert(ps[1..]);
      SequenceWide(ps[0], Whole(ps[1..]));
    }
  }

  /** On the way back a surrogate without its other half is written as three bytes of its own. */
  lemma LoneBack(u: Wide, rest: seq<Wide>)
    requires 0xd800 <= u < 0xe000 && !(u < 0xdc00 && rest != [] && 0xdc00 <= rest[0] < 0xe000)
    ensures FromWide([u] + rest) == [0xed, 0x80 + (u / 64) % 64, 0x80 + u % 64] + FromWide(rest)
  {
    hide Utf8;
    LoneUtf8(u);
    assert ([u] + rest)[1..] == rest;
    if rest != [] { assert ([u] + rest)[1] == rest[0]; }
  }

  lemma LoneUtf8(u: nat)
    requires 0xd800 <= u < 0xe000
    ensures Utf8(u) == [0xed, 0x80 + (u / 64) % 64, 0x80 + u % 64]
  {
    assert u / 4096 == 13;
  }

  /** So no two such names meet on the host. */
  lemma NamesDistinct(cs: seq<nat>, ds: seq<nat>)
    requires Scalars(cs) && Scalars(ds) && NoPrivate(cs) && NoPrivate(ds)
    requires |Utf8All(cs)| <= 255 && |Utf8All(ds)| <= 255
    requires ToWide(Utf8All(cs)) == ToWide(Utf8All(ds))
    ensures Utf8All(cs) == Utf8All(ds)
  {
    RoundTrip(cs);
    RoundTrip(ds);
  }

  /** What NTFS takes in no name: control characters and " * : < > ? | and the backslash. */
  predicate Barred(u: nat) {
    u < 0x20 || u in {0x22, 0x2a, 0x3a, 0x3c, 0x3e, 0x3f, 0x7c, 0x5c}
  }

  /** Each barred character moved to U+F000 and up, every other where it is. */
  function MovedAll(cs: seq<nat>): (ds: seq<nat>)
    requires Scalars(cs)
    ensures Scalars(ds)
  {
    seq(|cs|, i requires 0 <= i < |cs| => if Barred(cs[i]) then 0xf000 + cs[i] else cs[i])
  }

  /** The wide name is the UTF-16 of the name with just the barred characters moved: one without any
      is written as it is. */
  lemma WideForm(cs: seq<nat>)
    requires Scalars(cs)
    ensures ToWide(Utf8All(cs)) == Some(Utf16All(MovedAll(cs)))
    ensures (forall i :: 0 <= i < |cs| ==> !Barred(cs[i])) ==> ToWide(Utf8All(cs)) == Some(Utf16All(cs))
  {
    ToWideOf(cs);
    assert MovedAll(cs) == EscapeAll(cs);
    if forall i :: 0 <= i < |cs| ==> !Barred(cs[i]) { assert MovedAll(cs) == cs; }
  }

  predicate Clean(w: seq<Wide>) {
    forall k :: 0 <= k < |w| ==> !Barred(w[k])
  }

  lemma CleanBoth(a: seq<Wide>, b: seq<Wide>)
    requires Clean(a) && Clean(b)
    ensures Clean(a + b)
  {
  }

  lemma {:induction false} EscapedClean(cs: seq<nat>)
    requires Scalars(cs)
    ensures Scalars(EscapeAll(cs)) && Clean(Utf16All(EscapeAll(cs)))
  {
    forall i | 0 <= i < |cs| ensures Scalar(EscapeAll(cs)[i]) { EscapeScalar(cs[i]); }
    if cs != [] {
      EscapedClean(cs[1..]);
      EscapeScalar(cs[0]);
      assert EscapeAll(cs)[1..] == EscapeAll(cs[1..]);
      CleanBoth(Utf16(Escape(cs[0])), Utf16All(EscapeAll(cs[1..])));
    }
  }

  /** The wide name has none of the characters NTFS refuses. */
  lemma NothingRefused(cs: seq<nat>)
    requires Scalars(cs)
    ensures var w := ToWide(Utf8All(cs)); w.Some? && Clean(w.value)
  {
    ToWideOf(cs);
    EscapedClean(cs);
  }

  // ---- as they run ----

  /** The value of a sequence's first `k` bytes, its lead byte giving `lead`. */
  function Partial(name: seq<Byte>, lead: nat, k: nat): nat
    requires 1 <= k <= |name|
  {
    if k == 1 then lead else Join6(Partial(name, lead, k - 1), name[k - 1])
  }

  /** One character of `name_to_wide`: the lead byte, then the continuation bytes in a loop. */
  method Decode(name: seq<Byte>, i: nat) returns (r: Opt<(nat, nat)>)
    requires i < |name|
    ensures r == Head8(name[i..])
  {
    ghost var s := name[i..];
    var c: nat := name[i];
    var cp, n := c, 1;
    if c >= 0x80 {
      if 0xc0 <= c < 0xe0 { cp, n := c - 0xc0, 2; }
      else if 0xe0 <= c < 0xf0 { cp, n := c - 0xe0, 3; }
      else if 0xf0 <= c < 0xf8 { cp, n := c - 0xf0, 4; }
      else { return None; }
    }
    ghost var lead := cp;
    hide Join6;
    var k := 1;
    while k < n
      invariant 1 <= k <= n && k <= |s|
      invariant forall j :: 1 <= j < k ==> Continues(s, j)
      invariant cp == Partial(s, lead, k)
    {
      if i + k >= |name| || !(0x80 <= name[i + k] < 0xc0) {
        assert !Continues(s, k);
        return None;
      }
      assert s[k] == name[i + k];
      cp := Join6(cp, name[i + k]);
      k := k + 1;
    }
    if n > 1 { assert Continues(s, 1) && Partial(s, lead, 2) == Join6(lead, s[1]); }
    if n > 2 { assert Continues(s, 2) && Partial(s, lead, 3) == Join6(Join6(lead, s[1]), s[2]); }
    r := Some((cp, n));
  }

  /** `name_to_wide`: the length written, or -1. */
  method NameToWide(name: seq<Byte>, out: array<Wide>, cap: nat) returns (r: int)
    requires cap <= out.Length
    modifies out
    ensures var w := ToWide(name);
            if w.Some? && |w.value| <= cap then r == |w.value| && out[..r] == w.value else r == -1
  {
    hide Units, Escape, Head8;
    ghost var goal := ToWide(name);
    var i: nat, o: nat := 0, 0;
    assert name[0..] == name && out[..0] == [];
    ThenLonger([], [], goal);
    if goal.Some? { assert [] + goal.value == goal.value; }
    while i < |name|
      invariant 0 <= i <= |name| && o <= cap
      invariant goal == Then(out[..o], ToWide(name[i..]))
      decreases |name| - i
    {
      var d := Decode(name, i);
      if d.None? { return -1; }
      HeadFits(name[i..]);
      var (c, n) := d.value;
      var u := Units(Escape(c));
      assert name[i..][n..] == name[i + n..];
      ghost var was := out[..o];
      ThenLonger(was, u, ToWide(name[i + n..]));
      if o + |u| > cap { return -1; }
      out[o] := u[0];
      if |u| == 2 { out[o + 1] := u[1]; }
      assert out[..o + |u|] == was + u;
      o := o + |u|;
      i := i + n;
    }
    assert name[i..] == [];
    r := o;
  }

  /** `done` in front of what is still to come. */
  function Then(done: seq<Wide>, rest: Opt<seq<Wide>>): Opt<seq<Wide>> {
    if rest.Some? then Some(done + rest.value) else None
  }

  lemma ThenLonger(done: seq<Wide>, u: seq<Wide>, rest: Opt<seq<Wide>>)
    ensures Then(done + u, rest) == Then(done, if rest.Some? then Some(u + rest.value) else None)
  {
    if rest.Some? { assert (done + u) + rest.value == done + (u + rest.value); }
  }

  /** `name_from_wide`: the length written with a NUL behind it, or -1. */
  method NameFromWide(w: seq<Wide>, out: array<Byte>, cap: nat) returns (r: int)
    requires 0 < cap <= out.Length
    modifies out
    ensures var name := FromWide(w);
            if |name| < cap then r == |name| && out[..r] == name && out[r] == 0 else r == -1
  {
    hide Utf8, Head16;
    ghost var goal := FromWide(w);
    var i: nat, o: nat := 0, 0;
    assert w[0..] == w && out[..0] == [];
    while i < |w|
      invariant 0 <= i <= |w| && o < cap
      invariant goal == out[..o] + FromWide(w[i..])
      decreases |w| - i
    {
      var (c, n) := Head16(w[i..]);
      var u := Utf8(Unescape(c));
      assert w[i..][n..] == w[i + n..];
      ghost var was := out[..o];
      assert goal == (was + u) + FromWide(w[i + n..]);
      if o + |u| >= cap { return -1; }
      forall k | 0 <= k < |u| { out[o + k] := u[k]; }
      assert out[..o + |u|] == was + u;
      o := o + |u|;
      i := i + n;
    }
    assert w[i..] == [];
    out[o] := 0;
    assert out[..o] == goal;
    r := o;
  }
}
