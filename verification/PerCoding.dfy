/** Aligned PER encodings as bit strings, what a decoder makes of a bit string, and the round trips.

    An encoding depends on the position `at` where it starts, because some parts are aligned to
    octets. Size constraints are not part of the model: every length is unconstrained.
 */
module PerCoding {
  import opened BitStrings
  import opened PerBuffer

  /** `PastEnd` marks inputs on which the decoder looks at an octet behind the end of its buffer. */
  datatype Fault = Error(stat: Stat) | PastEnd

  datatype Parsed<+T> = Got(value: T, at: nat) | Fail(why: Fault)

  /** The bits `e` stand at position `at`. */
  ghost predicate At(b: seq<bool>, at: nat, e: seq<bool>) {
    at + |e| <= |b| && b[at..at + |e|] == e
  }

  lemma AtBoth(b: seq<bool>, at: nat, e: seq<bool>, f: seq<bool>)
    ensures At(b, at, e + f) <==> At(b, at, e) && At(b, at + |e|, f)
  {
    if at + |e| + |f| <= |b| {
      assert b[at..at + |e| + |f|] == b[at..at + |e|] + b[at + |e|..at + |e| + |f|];
      if At(b, at, e + f) {
        assert b[at..at + |e|] == (e + f)[..|e|];
        assert b[at + |e|..at + |e| + |f|] == (e + f)[|e|..];
      }
    }
  }

  /** `decodeBits`. */
  ghost function ParseBits(b: seq<bool>, at: nat, n: nat): Parsed<nat>
    requires at <= |b|
  {
    if n == 0 then Got(0, at)
    else if at + n > |b| then Fail(Error(EndOfBuf))
    else Got(Val(b[at..at + n]), at + n)
  }

  lemma FieldRound(b: seq<bool>, at: nat, v: nat, n: nat)
    requires At(b, at, Bits(v, n)) && v < Pow2(n)
    ensures ParseBits(b, at, n) == Got(v, at + n)
  {
    ValBits(v, n);
    ShrSmall(v, n);
  }

  lemma PadRound(b: seq<bool>, at: nat)
    requires At(b, at, Padding(at))
    ensures at + |Padding(at)| == RoundUp(at) <= |b|
  {
  }

  // ---- Length determinants

  datatype Length = Length(n: nat, more: bool)

  /** How much of `n` items the next fragment takes. */
  function Part(n: nat): (k: nat)
    ensures k <= n && (k < n ==> k >= 16384) && (n >= 16384 ==> k % 16384 == 0 && k > 0)
  {
    if n < 16384 then n else 16384 * if n / 16384 < 4 then n / 16384 else 4
  }

  ghost function LengthBits(n: nat): (r: seq<bool>)
    ensures |r| == if n < 128 || n >= 16384 then 8 else 16
  {
    if n < 128 then Bits(n, 8)
    else if n < 16384 then [true] + Bits(n, 15)
    else [true] + [true] + Bits(Part(n) / 16384, 6)
  }

  ghost function EncLength(at: nat, n: nat): (r: seq<bool>)
    ensures (at + |r|) % 8 == 0 && |r| > 0
  {
    Whole(at + |Padding(at)|, |LengthBits(n)| / 8);
    Padding(at) + LengthBits(n)
  }

  /** The length determinant at an octet boundary. */
  ghost function ParseLengthAt(b: seq<bool>, p: nat): (r: Parsed<Length>)
    requires |b| % 8 == 0 && p % 8 == 0
    ensures r.Got? ==> (r.at == p + 8 || r.at == p + 16) && r.at <= |b|
    ensures r.Got? ==> if r.value.more then r.value.n < 0x10_0000 && r.value.n % 16384 == 0 else r.value.n < 16384
  {
    assert Pow2(6) == 64;
    assert Pow2(7) == 128;
    assert Pow2(14) == 16384;
    if p >= |b| then Fail(PastEnd)
    else if !b[p] then Got(Length(Val(b[p + 1..p + 8]), false), p + 8)
    else if !b[p + 1] then
      if p + 16 > |b| then Fail(Error(EndOfBuf)) else Got(Length(Val(b[p + 2..p + 16]), false), p + 16)
    else Got(Length(16384 * Val(b[p + 2..p + 8]), true), p + 8)
  }

  /** `decodeLength`. */
  ghost function ParseLength(b: seq<bool>, at: nat): (r: Parsed<Length>)
    requires |b| % 8 == 0 && at <= |b|
    ensures r.Got? ==> at < r.at <= |b| && r.at % 8 == 0
    ensures r.Got? ==> if r.value.more then r.value.n < 0x10_0000 && r.value.n % 16384 == 0 else r.value.n < 16384
  {
    ParseLengthAt(b, RoundUp(at))
  }

  /** The length determinant says how long the next fragment is, and whether there are more. */
  lemma LengthRound(b: seq<bool>, at: nat, n: nat)
    requires |b| % 8 == 0 && At(b, at, EncLength(at, n))
    ensures at <= |b| && ParseLength(b, at) == Got(Length(Part(n), n >= 16384), at + |EncLength(at, n)|)
  {
    AtBoth(b, at, Padding(at), LengthBits(n));
    PadRound(b, at);
    var p := RoundUp(at);
    assert b[p..p + |LengthBits(n)|] == LengthBits(n);
    if n < 128 {
      ShortLength(n);
      assert b[p..p + 8][0] == b[p] && b[p..p + 8][1..] == b[p + 1..p + 8];
    } else if n < 16384 {
      LongLength(n);
      assert b[p..p + 16][0] == b[p] && b[p..p + 16][1] == b[p + 1] && b[p..p + 16][2..] == b[p + 2..p + 16];
    } else {
      var m := Part(n) / 16384;
      assert Pow2(6) == 64;
      ValBits(m, 6);
      ShrSmall(m, 6);
      assert b[p..p + 8][0] == b[p] && b[p..p + 8][1] == b[p + 1] && b[p..p + 8][2..] == b[p + 2..p + 8];
    }
  }

  lemma ShortLength(n: nat)
    requires n < 128
    ensures !Bits(n, 8)[0] && Val(Bits(n, 8)[1..]) == n
  {
    SmallPowers();
    BitsSplit(n, 1, 7);
    ShrSmall(n, 7);
    ValBits(n, 7);
    assert Bits(0, 1) == Bits(0, 0) + [false];
  }

  lemma LongLength(n: nat)
    requires n < 16384
    ensures ([true] + Bits(n, 15))[1] == false && Val(([true] + Bits(n, 15))[2..]) == n
  {
    assert Pow2(7) == 128;
    assert Pow2(14) == 16384;
    BitsSplit(n, 1, 14);
    ShrSmall(n, 14);
    ValBits(n, 14);
    assert Bits(0, 1) == Bits(0, 0) + [false];
    assert ([true] + Bits(n, 15))[2..] == Bits(n, 14);
  }

  // ---- Octet strings

  /** The `n` octets at position `p`. */
  ghost function OctetsAt(b: seq<bool>, p: nat, n: nat): (r: seq<Byte>)
    requires p + 8 * n <= |b|
    ensures |r| == n && Octets(r) == b[p..p + 8 * n]
  {
    if n == 0 then []
    else
      var c := b[p + 8 * n - 8..p + 8 * n];
      assert Val(c) < 256 && Bits(Val(c), 8) == c by {
        SmallPowers();
        BitsVal(c);
      }
      var r := OctetsAt(b, p, n - 1);
      assert (r + [Val(c)])[..n - 1] == r;
      r + [Val(c)]
  }

  lemma FromOctets(b: seq<bool>, p: nat, s: seq<Byte>)
    requires At(b, p, Octets(s))
    ensures OctetsAt(b, p, |s|) == s
  {
    OctetsInjective(OctetsAt(b, p, |s|), s);
  }

  /** The next fragment of an octet string: its length and as many octets. */
  ghost function EncFragment(at: nat, s: seq<Byte>): (r: seq<bool>)
    ensures (at + |r|) % 8 == 0
  {
    var l := EncLength(at, |s|);
    Whole(at + |l|, Part(|s|));
    l + Octets(s[..Part(|s|)])
  }

  ghost function EncOctetString(at: nat, s: seq<Byte>): seq<bool>
    decreases |s|
  {
    var e := EncFragment(at, s);
    if Part(|s|) < |s| then e + EncOctetString(at + |e|, s[Part(|s|)..]) else e
  }

  lemma {:induction false} EndsAligned(at: nat, s: seq<Byte>)
    ensures (at + |EncOctetString(at, s)|) % 8 == 0
    decreases |s|
  {
    hide EncFragment, Part;
    var e := EncFragment(at, s);
    Rest(|s|);
    if Part(|s|) < |s| {
      EndsAligned(at + |e|, s[Part(|s|)..]);
    }
  }

  lemma Whole(p: nat, n: nat)
    ensures (p + 8 * n) % 8 == p % 8
  {
  }

  datatype Fragment = Fragment(s: seq<Byte>, more: bool)

  ghost function ParseFragment(b: seq<bool>, at: nat, cap: nat): (r: Parsed<Fragment>)
    requires |b| % 8 == 0 && at <= |b|
    ensures r.Got? ==> at < r.at <= |b| && r.at % 8 == 0 && |r.value.s| <= cap
  {
    match ParseLength(b, at)
    case Fail(why) => Fail(why)
    case Got(l, p) =>
      if p + 8 * l.n > |b| then Fail(Error(EndOfBuf))
      else if l.n > cap then Fail(Error(StrOvflw))
      else
        Whole(p, l.n);
        Got(Fragment(OctetsAt(b, p, l.n), l.more), p + 8 * l.n)
  }

  /** `decodeOctetString` into a buffer with room for `cap` octets. */
  ghost function ParseOctetString(b: seq<bool>, at: nat, cap: nat): (r: Parsed<seq<Byte>>)
    requires |b| % 8 == 0 && at <= |b|
    ensures r.Got? ==> at < r.at <= |b| && |r.value| <= cap
    decreases |b| - at
  {
    match ParseFragment(b, at, cap)
    case Fail(why) => Fail(why)
    case Got(f, p) =>
      if f.more then
        match ParseOctetString(b, p, cap - |f.s|)
        case Fail(why) => Fail(why)
        case Got(t, q) => Got(f.s + t, q)
      else Got(f.s, p)
  }

  lemma FragmentRound(b: seq<bool>, at: nat, s: seq<Byte>, cap: nat)
    requires |b| % 8 == 0 && At(b, at, EncFragment(at, s)) && Part(|s|) <= cap
    ensures at <= |b|
    ensures ParseFragment(b, at, cap) == Got(Fragment(s[..Part(|s|)], |s| >= 16384), at + |EncFragment(at, s)|)
  {
    hide EncLength, ParseLength, Part, OctetsAt, Octets;
    var k := Part(|s|);
    AtBoth(b, at, EncLength(at, |s|), Octets(s[..k]));
    LengthRound(b, at, |s|);
    FromOctets(b, at + |EncLength(at, |s|)|, s[..k]);
  }

  /** What is left of a long string behind a fragment. */
  lemma Rest(n: nat)
    ensures n < 16384 ==> Part(n) == n
    ensures n >= 16384 ==> 0 < Part(n) <= n && (n - Part(n)) % 16384 == n % 16384
    ensures n >= 16384 && Part(n) == n ==> n % 16384 == 0
  {
  }

  /** Encoded in fragments, decoded in fragments. */
  lemma {:induction false} OctetStringRound(b: seq<bool>, at: nat, s: seq<Byte>, cap: nat)
    requires |b| % 8 == 0 && At(b, at, EncOctetString(at, s)) && |s| <= cap
    requires s == [] || |s| % 16384 != 0
    ensures at <= |b| && ParseOctetString(b, at, cap) == Got(s, at + |EncOctetString(at, s)|)
    decreases |s|
  {
    hide EncFragment, ParseFragment, Part;
    var k, e := Part(|s|), EncFragment(at, s);
    Rest(|s|);
    if k < |s| {
      AtBoth(b, at, e, EncOctetString(at + |e|, s[k..]));
      FragmentRound(b, at, s, cap);
      OctetStringRound(b, at + |e|, s[k..], cap - k);
      assert s == s[..k] + s[k..];
    } else {
      FragmentRound(b, at, s, cap);
      assert s == s[..k];
    }
  }

  /** A fragment of a long string is the greatest one of the four sizes that fits. */
  lemma PartGreatest(n: nat, k: nat)
    requires n >= 16384
    ensures Part(n) % 16384 == 0 && 0 < Part(n) <= 65536 && Part(n) <= n
    ensures 0 < k <= 4 && 16384 * k <= n ==> 16384 * k <= Part(n)
  {
  }

  /** Fragments of `n` octets: one for every four units of 16384, and one for the rest. */
  function Fragments(n: nat): nat {
    (n / 16384 + 3) / 4 + if n == 0 || n % 16384 != 0 then 1 else 0
  }

  lemma FragmentsLess(n: nat)
    ensures if Part(n) < n then Fragments(n) == 1 + Fragments(n - Part(n)) else Fragments(n) == 1
    ensures Part(n) < n ==> (n - Part(n)) % 16384 == n % 16384
  {
  }

  /** An octet string takes its octets, one more for each fragment, and one more for a last fragment of 128
      octets or more.
   */
  lemma {:induction false} OctetStringBits(at: nat, s: seq<Byte>)
    ensures |EncOctetString(at, s)| ==
      |Padding(at)| + 8 * |s| + 8 * Fragments(|s|) + if |s| % 16384 >= 128 then 8 else 0
    decreases |s|
  {
    hide Part, Fragments, EncFragment, Padding;
    var k, e := Part(|s|), EncFragment(at, s);
    Rest(|s|);
    FragmentsLess(|s|);
    FragmentBits(at, s);
    if k < |s| {
      OctetStringBits(at + |e|, s[k..]);
      NoPadding(at + |e|);
    }
  }

  lemma FragmentBits(at: nat, s: seq<Byte>)
    ensures |EncFragment(at, s)| == |Padding(at)| + 8 * Part(|s|) + if 128 <= |s| < 16384 then 16 else 8
  {
    hide Part, Octets, Padding;
  }

  lemma NoPadding(at: nat)
    ensures at % 8 == 0 ==> Padding(at) == []
  {
  }

  /** A cut into fragments as section 10.9.3 of X.691 allows them; the last one may be the rest. */
  ghost predicate LegalCut(c: seq<nat>, n: nat) {
    && c != [] && Total(c) == n
    && (forall i :: 0 <= i < |c| - 1 ==> c[i] % 16384 == 0)
    && (forall i :: 0 <= i < |c| ==> c[i] <= 65536 && (c[i] >= 16384 ==> c[i] % 16384 == 0))
  }

  ghost function Total(c: seq<nat>): nat {
    if c == [] then 0 else c[0] + Total(c[1..])
  }

  /** No cut has fewer fragments. */
  lemma {:induction false} FewestFragments(c: seq<nat>, n: nat)
    requires LegalCut(c, n)
    ensures Fragments(n) <= |c|
  {
    if |c| > 1 {
      var rest := c[1..];
      assert forall i :: 0 <= i < |rest| ==> rest[i] == c[i + 1];
      FewestFragments(rest, n - c[0]);
      FragmentsStep(n, c[0]);
    } else {
      assert c[1..] == [];
    }
  }

  lemma FragmentsStep(n: nat, k: nat)
    requires k <= n && k <= 65536 && k % 16384 == 0
    ensures Fragments(n) <= 1 + Fragments(n - k)
  {
  }

  /** A string of a positive multiple of 16384 octets ends with a fragment that announces another one,
      which is missing: the decoder looks for its length behind the encoding.
   */
  lemma {:induction false} NoLastFragment(b: seq<bool>, at: nat, s: seq<Byte>, cap: nat)
    requires |b| % 8 == 0 && At(b, at, EncOctetString(at, s)) && |s| <= cap
    requires |s| > 0 && |s| % 16384 == 0
    ensures at <= |b|
    ensures var r, end := ParseOctetString(b, at, cap), at + |EncOctetString(at, s)|;
      if end == |b| then r == Fail(PastEnd) else r.Got? ==> r.at > end
    decreases |s|
  {
    hide EncFragment, ParseFragment, Part;
    var k, e := Part(|s|), EncFragment(at, s);
    Rest(|s|);
    if k < |s| {
      AtBoth(b, at, e, EncOctetString(at + |e|, s[k..]));
      FragmentRound(b, at, s, cap);
      NoLastFragment(b, at + |e|, s[k..], cap - k);
    } else {
      FragmentRound(b, at, s, cap);
      NothingLeft(b, cap - k);
    }
  }

  lemma NothingLeft(b: seq<bool>, cap: nat)
    requires |b| % 8 == 0
    ensures ParseOctetString(b, |b|, cap) == Fail(PastEnd)
  {
    assert ParseLength(b, |b|) == Fail(PastEnd);
    assert ParseFragment(b, |b|, cap) == Fail(PastEnd);
  }

  /** Octet strings come back, and the decoder stands behind their encoding, unless their length is a positive
      multiple of 16384, whatever stands in front and `later`.
   */
  lemma OctetStringComesBack(w: seq<bool>, s: seq<Byte>, cap: nat, later: seq<bool>)
    requires |s| <= cap && |later| % 8 == 0
    ensures var end, b := |w| + |EncOctetString(|w|, s)|, w + EncOctetString(|w|, s) + later;
      |b| % 8 == 0 && (ParseOctetString(b, |w|, cap) == Got(s, end) <==> (s == [] || |s| % 16384 != 0))
  {
    hide EncOctetString, ParseOctetString;
    EndsAligned(|w|, s);
    var b := w + EncOctetString(|w|, s) + later;
    assert At(b, |w|, EncOctetString(|w|, s));
    if s == [] || |s| % 16384 != 0 {
      OctetStringRound(b, |w|, s, cap);
    } else {
      NoLastFragment(b, |w|, s, cap);
    }
  }

  // ---- Constrained whole numbers

  const UINT_MAX: U32 := 0xFFFF_FFFF

  /** `getUIntBitCount`: a decision tree over the powers of two. */
  function BitCount(v: U32): (r: nat)
    ensures r <= 32
  {
    if v < 0x8000 then
      if v < 0x80 then
        if v < 0x8 then
          if v < 0x2 then (if v < 0x1 then 0 else 1) else (if v < 0x4 then 2 else 3)
        else
          if v < 0x20 then (if v < 0x10 then 4 else 5) else (if v < 0x40 then 6 else 7)
      else
        if v < 0x800 then
          if v < 0x200 then (if v < 0x100 then 8 else 9) else (if v < 0x400 then 10 else 11)
        else
          if v < 0x2000 then (if v < 0x1000 then 12 else 13) else (if v < 0x4000 then 14 else 15)
    else
      if v < 0x80_0000 then
        if v < 0x8_0000 then
          if v < 0x2_0000 then (if v < 0x1_0000 then 16 else 17) else (if v < 0x4_0000 then 18 else 19)
        else
          if v < 0x20_0000 then (if v < 0x10_0000 then 20 else 21) else (if v < 0x40_0000 then 22 else 23)
      else
        if v < 0x800_0000 then
          if v < 0x200_0000 then (if v < 0x100_0000 then 24 else 25) else (if v < 0x400_0000 then 26 else 27)
        else
          if v < 0x2000_0000 then (if v < 0x1000_0000 then 28 else 29)
          else if v < 0x4000_0000 then 30 else if v < 0x8000_0000 then 31 else 32
  }

  lemma {:induction false} PowersBelow(n: nat)
    requires n <= 32
    ensures Pow2(n) == [
      0x1, 0x2, 0x4, 0x8, 0x10, 0x20, 0x40, 0x80,
      0x100, 0x200, 0x400, 0x800, 0x1000, 0x2000, 0x4000, 0x8000,
      0x1_0000, 0x2_0000, 0x4_0000, 0x8_0000, 0x10_0000, 0x20_0000, 0x40_0000, 0x80_0000,
      0x100_0000, 0x200_0000, 0x400_0000, 0x800_0000, 0x1000_0000, 0x2000_0000, 0x4000_0000, 0x8000_0000,
      0x1_0000_0000][n]
  {
    if n > 0 {
      PowersBelow(n - 1);
    }
  }

  /** The decision tree finds the least number of bits that hold the value. */
  lemma BitCountLeast(v: U32)
    ensures v < Pow2(BitCount(v))
    ensures v > 0 ==> BitCount(v) > 0 && Pow2(BitCount(v) - 1) <= v
  {
    PowersBelow(BitCount(v));
    if v > 0 {
      PowersBelow(BitCount(v) - 1);
    }
  }

  /** Number of octets of a number that is not constrained to 16 bits. */
  function OctetCount(a: U32): (r: nat)
    ensures 1 <= r <= 4
  {
    if a < 0x100 then 1 else if a < 0x1_0000 then 2 else if a < 0x100_0000 then 3 else 4
  }

  /** `encodeNonNegBinInt` rounds the bit count up to the same number of octets. */
  lemma OctetCountIs(a: U32)
    ensures ((if a == 0 then 1 else BitCount(a)) + 7) / 8 == OctetCount(a)
  {
  }

  lemma OctetCountFits(a: U32)
    ensures a < Pow2(8 * OctetCount(a))
  {
    PowersBelow(8 * OctetCount(a));
  }

  /** The number `a` among `range` numbers (section 10.5.7 of X.691). */
  ghost function EncWhole(at: nat, a: U32, range: U32): seq<bool>
    requires range > 0
  {
    if range <= 255 then Bits(a, BitCount(range - 1))
    else if range == 256 then Padding(at) + Bits(a, 8)
    else if range <= 0x1_0000 then Padding(at) + Bits(a, 16)
    else Bits(OctetCount(a) - 1, 2) + Padding(at + 2) + Bits(a, 8 * OctetCount(a))
  }

  /** A number of a small range takes the least number of bits that distinguish the numbers of the range. */
  lemma SmallForm(at: nat, a: U32, range: U32)
    requires a < range <= 255
    ensures var e := EncWhole(at, a, range);
      range <= Pow2(|e|) && (|e| > 0 ==> Pow2(|e| - 1) < range) && Val(e) == a
  {
    hide Bits, Pow2, Val;
    BitCountLeast(range - 1);
    assert range == 1 ==> BitCount(range - 1) == 0;
    WholeValue([], a, BitCount(range - 1));
    var e := Bits(a, BitCount(range - 1));
    assert [] + e == e && e[0..] == e;
  }

  /** Up to 256 numbers take one octet, and up to 65536 two, behind an octet boundary. */
  lemma AlignedForm(at: nat, a: U32, range: U32)
    requires a < range && 256 <= range <= 0x1_0000
    ensures var e, front := EncWhole(at, a, range), |Padding(at)|;
      |e| == front + (if range == 256 then 8 else 16) && Val(e[front..]) == a
  {
    hide Bits, Padding, Pow2, Val;
    PowersBelow(8);
    PowersBelow(16);
    WholeValue(Padding(at), a, if range == 256 then 8 else 16);
  }

  /** A number of a large range takes the least number of octets for itself, behind their count. */
  lemma LargeForm(at: nat, a: U32, range: U32)
    requires range > 0x1_0000
    ensures var e, k, front := EncWhole(at, a, range), OctetCount(a), 2 + |Padding(at + 2)|;
      && |e| == front + 8 * k && Val(e[..2]) == k - 1 && Val(e[front..]) == a
      && a < Pow2(8 * k) && (k > 1 ==> Pow2(8 * (k - 1)) <= a)
  {
    hide Bits, BitCount, Padding, Pow2, Val;
    var k := OctetCount(a);
    PowersBelow(8 * k);
    PowersBelow(8 * (k - 1));
    PowersBelow(2);
    WholeValue([], k - 1, 2);
    WholeValue(Bits(k - 1, 2) + Padding(at + 2), a, 8 * k);
    LargeFront(Bits(k - 1, 2), Padding(at + 2), Bits(a, 8 * k));
  }

  lemma WholeValue(front: seq<bool>, a: nat, n: nat)
    requires a < Pow2(n)
    ensures |front + Bits(a, n)| == |front| + n && Val((front + Bits(a, n))[|front|..]) == a
  {
    hide Bits, Val, Pow2;
    ValBits(a, n);
    ShrSmall(a, n);
    assert (front + Bits(a, n))[|front|..] == Bits(a, n);
  }

  lemma LargeFront(c: seq<bool>, pad: seq<bool>, e: seq<bool>)
    requires |c| == 2
    ensures (c + pad + e)[..2] == c == ([] + c)[0..]
  {
  }

  ghost function ParseWhole(b: seq<bool>, at: nat, range: U32): (r: Parsed<nat>)
    requires |b| % 8 == 0 && at <= |b| && range > 0
    ensures r.Got? ==> r.at <= |b|
  {
    if range <= 255 then ParseBits(b, at, BitCount(range - 1))
    else if range <= 0x1_0000 then ParseBits(b, RoundUp(at), if range == 256 then 8 else 16)
    else
      match ParseBits(b, at, 2)
      case Fail(why) => Fail(why)
      case Got(n, p) => ParseBits(b, RoundUp(p), (n + 1) * 8)
  }

  /** Whole numbers in range come back, whatever the range. */
  lemma WholeRound(b: seq<bool>, at: nat, a: U32, range: U32)
    requires |b| % 8 == 0 && range > 0 && (a < range || range == UINT_MAX)
    requires At(b, at, EncWhole(at, a, range))
    ensures at <= |b| && ParseWhole(b, at, range) == Got(a, at + |EncWhole(at, a, range)|)
  {
    hide Padding, BitCount, RoundUp, ParseBits, Bits, OctetCount;
    if range <= 255 {
      BitCountLeast(range - 1);
      FieldRound(b, at, a, BitCount(range - 1));
    } else if range <= 0x1_0000 {
      var n := if range == 256 then 8 else 16;
      PowersBelow(n);
      AlignedRound(b, at, a, n);
    } else {
      CountedRound(b, at, a);
    }
  }

  /** A field of one or two octets behind an alignment. */
  lemma AlignedRound(b: seq<bool>, at: nat, a: U32, n: nat)
    requires |b| % 8 == 0 && (n == 8 || n == 16) && a < Pow2(n) && At(b, at, Padding(at) + Bits(a, n))
    ensures at <= |b| && ParseBits(b, RoundUp(at), n) == Got(a, at + |Padding(at) + Bits(a, n)|)
  {
    hide Padding, RoundUp, ParseBits, Bits, Pow2;
    AtBoth(b, at, Padding(at), Bits(a, n));
    PadRound(b, at);
    FieldRound(b, RoundUp(at), a, n);
  }

  /** A number with the count of its octets in front. */
  lemma CountedRound(b: seq<bool>, at: nat, a: U32)
    requires |b| % 8 == 0 && At(b, at, Bits(OctetCount(a) - 1, 2) + Padding(at + 2) + Bits(a, 8 * OctetCount(a)))
    ensures at <= |b|
    ensures var n := OctetCount(a);
      && ParseBits(b, at, 2) == Got(n - 1, at + 2)
      && at + 2 <= |b| && ParseBits(b, RoundUp(at + 2), 8 * n) == Got(a, RoundUp(at + 2) + 8 * n)
      && RoundUp(at + 2) == at + 2 + |Padding(at + 2)|
  {
    hide Padding, RoundUp, ParseBits, Bits, Pow2;
    var n := OctetCount(a);
    OctetCountFits(a);
    AtBoth(b, at, Bits(n - 1, 2) + Padding(at + 2), Bits(a, 8 * n));
    AtBoth(b, at, Bits(n - 1, 2), Padding(at + 2));
    SmallPowers();
    FieldRound(b, at, n - 1, 2);
    PadRound(b, at + 2);
    FieldRound(b, RoundUp(at + 2), a, 8 * n);
  }

  // ---- Constrained integers

  type I32 = i: int | -0x8000_0000 <= i < 0x8000_0000

  /** Conversion to an unsigned number of 32 bits. */
  function Wrap(i: int): U32 {
    i % 0x1_0000_0000
  }

  /** Conversion to a signed number of 32 bits. */
  function Signed(i: int): I32 {
    var u := i % 0x1_0000_0000;
    if u < 0x8000_0000 then u else u - 0x1_0000_0000
  }

  function Abs(i: int): nat {
    if i < 0 then -i else i
  }

  /** Range and offset as the encoder computes them, branching on the signs of the bounds. */
  function EncRange(lower: I32, upper: I32): U32 {
    var r := if (upper > 0 && lower >= 0) || (upper <= 0 && lower < 0) then Wrap(upper - lower)
      else Wrap(upper + Abs(lower));
    if r != UINT_MAX then r + 1 else r
  }

  function EncOffset(value: I32, lower: I32, upper: I32): U32 {
    if (upper > 0 && lower >= 0) || (upper <= 0 && lower < 0) then Wrap(value - lower) else Wrap(value + Abs(lower))
  }

  /** The range as the decoder computes it, by one modular subtraction. */
  function DecRange(lower: I32, upper: I32): U32 {
    var r := Wrap(upper - lower);
    if r != UINT_MAX then r + 1 else r
  }

  lemma SameRange(value: I32, lower: I32, upper: I32)
    requires lower <= value <= upper
    ensures EncRange(lower, upper) == DecRange(lower, upper) > 0
    ensures EncOffset(value, lower, upper) == value - lower
    ensures value - lower < EncRange(lower, upper) || EncRange(lower, upper) == UINT_MAX
    ensures Signed(EncOffset(value, lower, upper) + lower) == value
  {
  }

  /** An encoder's output, or why there is none. */
  datatype Encoded = Out(bits: seq<bool>) | Rejected(stat: Stat)

  ghost function EncConsInteger(at: nat, value: I32, lower: I32, upper: I32): Encoded {
    if value < lower || value > upper then Rejected(ConsVio)
    else if EncRange(lower, upper) == 0 then Rejected(RangErr)
    else if lower == upper then Out([])
    else Out(EncWhole(at, EncOffset(value, lower, upper), EncRange(lower, upper)))
  }

  ghost function ParseConsInteger(b: seq<bool>, at: nat, lower: I32, upper: I32): Parsed<I32>
    requires |b| % 8 == 0 && at <= |b|
  {
    if lower > upper then Fail(Error(RangErr))
    else if lower == upper then Got(lower, at)
    else
      match ParseWhole(b, at, DecRange(lower, upper))
      case Fail(why) => Fail(why)
      case Got(a, p) =>
        var value := Signed(a + lower);
        if value < lower || value > upper then Fail(Error(ConsVio)) else Got(value, p)
  }

  /** What is encoded is the distance from the lower bound, among as many numbers as there are between the bounds,
      or among 2 to the 32 less one of them if there are 2 to the 32.
   */
  lemma ConsIntegerIs(at: nat, value: I32, lower: I32, upper: I32)
    requires lower <= value <= upper
    ensures var count := if upper - lower == UINT_MAX then UINT_MAX else upper - lower + 1;
      EncConsInteger(at, value, lower, upper) == Out(if lower == upper then [] else EncWhole(at, value - lower, count))
  {
    hide EncWhole;
    SameRange(value, lower, upper);
  }

  /** Exactly the integers between the bounds can be encoded, and they come back. */
  lemma ConsIntegerRound(b: seq<bool>, at: nat, value: I32, lower: I32, upper: I32)
    requires |b| % 8 == 0 && at <= |b|
    ensures EncConsInteger(at, value, lower, upper).Out? <==> lower <= value <= upper
    ensures EncConsInteger(at, value, lower, upper).Out? && At(b, at, EncConsInteger(at, value, lower, upper).bits) ==>
      ParseConsInteger(b, at, lower, upper) == Got(value, at + |EncConsInteger(at, value, lower, upper).bits|)
  {
    hide EncWhole, ParseWhole;
    if lower <= value <= upper {
      SameRange(value, lower, upper);
      var e := EncConsInteger(at, value, lower, upper);
      assert e.Out?;
      if lower != upper && At(b, at, e.bits) {
        WholeRound(b, at, EncOffset(value, lower, upper), EncRange(lower, upper));
      }
    }
  }

  // ---- Semi-constrained integers

  /** The number of octets of the two's complement of `v` (section 10.4.6 of X.691). */
  function TwosCount(v: I32): (k: nat)
    ensures 1 <= k <= 4
  {
    if -0x80 <= v < 0x80 then 1
    else if -0x8000 <= v < 0x8000 then 2
    else if -0x80_0000 <= v < 0x80_0000 then 3
    else 4
  }

  /** `k` octets of the two's complement of `v`. */
  function TwosOctets(v: int, k: nat): (r: seq<Byte>)
    ensures |r| == k
    decreases k
  {
    if k == 0 then [] else TwosOctets(v / 256, k - 1) + [v % 256]
  }

  /** The number that octets stand for; the first one has the sign. */
  function TwosValue(s: seq<Byte>): int {
    if s == [] then 0
    else if |s| == 1 then (if s[0] < 128 then s[0] else s[0] - 256)
    else TwosValue(s[..|s| - 1]) * 256 + s[|s| - 1]
  }

  lemma {:induction false} TwosBack(v: int, k: nat)
    requires k > 0
    requires k == 1 ==> -0x80 <= v < 0x80
    requires k == 2 ==> -0x8000 <= v < 0x8000
    requires k == 3 ==> -0x80_0000 <= v < 0x80_0000
    requires k >= 4 ==> k == 4 && -0x8000_0000 <= v < 0x8000_0000
    ensures TwosValue(TwosOctets(v, k)) == v
    decreases k
  {
    if k > 1 {
      TwosBack(v / 256, k - 1);
      assert TwosOctets(v, k)[..k - 1] == TwosOctets(v / 256, k - 1);
    } else {
      assert TwosOctets(v, 1) == TwosOctets(v / 256, 0) + [v % 256];
    }
  }

  /** No shorter string of octets stands for the same number. */
  lemma TwosLeast(v: I32, s: seq<Byte>)
    requires s != [] && TwosValue(s) == v
    ensures |s| >= TwosCount(v)
  {
    if |s| == 2 {
      assert |s[..1]| == 1;
    } else if |s| == 3 {
      assert |s[..2]| == 2 && |s[..2][..1]| == 1;
    }
  }

  ghost function EncTwos(at: nat, v: I32): seq<bool> {
    EncLength(at, TwosCount(v)) + Octets(TwosOctets(v, TwosCount(v)))
  }

  /** `decodeSemiConsInteger`; `lower` is not added when it is the least integer of all. */
  ghost function ParseSemi(b: seq<bool>, at: nat, lower: I32): Parsed<I32>
    requires |b| % 8 == 0 && at <= |b|
  {
    match ParseLength(b, at)
    case Fail(why) => Fail(why)
    case Got(l, p) =>
      if p + 8 * l.n > |b| then Fail(Error(EndOfBuf))
      else Got(Signed(TwosValue(OctetsAt(b, p, l.n)) + Base(lower)), p + 8 * l.n)
  }

  function Base(lower: I32): I32 {
    if lower > -0x8000_0000 then lower else 0
  }

  /** The difference to the lower bound is encoded, so the value comes back when the difference does not
      overflow.
   */
  lemma SemiRound(b: seq<bool>, at: nat, value: I32, lower: I32)
    requires |b| % 8 == 0 && -0x8000_0000 <= value - Base(lower) < 0x8000_0000
    requires At(b, at, EncTwos(at, value - Base(lower)))
    ensures at <= |b| && ParseSemi(b, at, lower) == Got(value, at + |EncTwos(at, value - Base(lower))|)
  {
    hide EncLength, ParseLength, Octets, OctetsAt, TwosOctets, TwosValue;
    var v: I32 := value - Base(lower);
    var k := TwosCount(v);
    AtBoth(b, at, EncLength(at, k), Octets(TwosOctets(v, k)));
    LengthRound(b, at, k);
    FromOctets(b, at + |EncLength(at, k)|, TwosOctets(v, k));
    TwosBack(v, k);
    Whole(at + |EncLength(at, k)|, k);
  }

  // ---- Object identifiers

  const MAX_SUBIDS := 128

  type Oid = seq<U32>

  /** `getIdentByteCount`. */
  function IdentCount(v: U32): (r: nat)
    ensures 1 <= r <= 5
  {
    if v < 0x80 then 1 else if v < 0x4000 then 2 else if v < 0x20_0000 then 3 else if v < 0x1000_0000 then 4 else 5
  }

  /** `n` octets of seven bits each; all but the last one carry a continuation bit. */
  function IdentOctets(v: nat, n: nat, last: bool): (r: seq<Byte>)
    ensures |r| == n
  {
    if n == 0 then [] else IdentOctets(v / 128, n - 1, false) + [v % 128 + if last then 0 else 128]
  }

  function OidOctets(ids: Oid): seq<Byte> {
    if ids == [] then [] else IdentOctets(ids[0], IdentCount(ids[0]), true) + OidOctets(ids[1..])
  }

  /** The length that the encoder declares: the first two arcs count for one octet. */
  function OidLength(ids: Oid): nat {
    1 + IdentCounts(ids[if |ids| < 2 then |ids| else 2..])
  }

  function IdentCounts(ids: Oid): nat {
    if ids == [] then 0 else IdentCount(ids[0]) + IdentCounts(ids[1..])
  }

  predicate ValidOid(ids: Oid) {
    2 <= |ids| <= MAX_SUBIDS && ids[0] <= 2 && (ids[0] != 2 ==> ids[1] <= 39)
  }

  /** The first two arcs as one number. */
  function FirstTwo(ids: Oid): U32
    requires |ids| >= 2
  {
    var a: int, b: int := ids[0], ids[1];
    Wrap(a * 40 + b)
  }

  function SplitFirst(x: U32): Oid {
    if x / 40 >= 2 then [2, x - 80] else [x / 40, x % 40]
  }

  ghost function EncOid(at: nat, ids: Oid): seq<bool>
    requires ValidOid(ids)
  {
    EncLength(at, OidLength(ids)) + Octets(OidOctets([FirstTwo(ids)] + ids[2..]))
  }

  /** One subidentifier, from octets up to one without a continuation bit. */
  ghost function ParseIdent(b: seq<bool>, p: nat, acc: U32): (r: Parsed<U32>)
    requires p <= |b|
    ensures r.Got? ==> p < r.at <= |b|
    decreases |b| - p
  {
    match ParseBits(b, p, 8)
    case Fail(why) => Fail(why)
    case Got(x, q) =>
      if And(x, 0x80) != 0 then ParseIdent(b, q, SevenMore(acc, x)) else Got(SevenMore(acc, x), q)
  }

  lemma {:induction false} IdentWhole(b: seq<bool>, p: nat, acc: U32)
    requires p <= |b| && ParseIdent(b, p, acc).Got?
    ensures (ParseIdent(b, p, acc).at - p) % 8 == 0
    decreases |b| - p
  {
    hide SevenMore, And;
    var x := ParseBits(b, p, 8).value;
    if And(x, 0x80) != 0 {
      IdentWhole(b, p + 8, SevenMore(acc, x));
    }
  }

  function SevenMore(acc: U32, x: U32): U32 {
    Wrap(acc * 128 + x % 128)
  }

  /** The subidentifiers of the remaining `len` octets; `len` wraps around below zero. */
  ghost function ParseIdents(b: seq<bool>, p: nat, len: U32, ids: Oid): (r: Parsed<Oid>)
    requires p <= |b|
    ensures r.Got? ==> p <= r.at <= |b|
    decreases |b| - p
  {
    if len == 0 then Got(ids, p)
    else if |ids| >= MAX_SUBIDS then Fail(Error(InvObjId))
    else
      match ParseIdent(b, p, 0)
      case Fail(why) => Fail(why)
      case Got(v, q) =>
        ParseIdents(b, q, Wrap(len - (q - p) / 8), if ids == [] then SplitFirst(v) else ids + [v])
  }

  /** `decodeObjectIdentifier`. */
  ghost function ParseOid(b: seq<bool>, at: nat): Parsed<Oid>
    requires |b| % 8 == 0 && at <= |b|
  {
    match ParseLength(b, at)
    case Fail(why) => Fail(why)
    case Got(l, p) => if l.more then Fail(Error(OkFrag)) else ParseIdents(b, p, l.n, [])
  }

  lemma HighBit(x: Byte)
    ensures (And(x, 0x80) != 0) == (x >= 128)
  {
    SmallPowers();
    ShlMul(1, 7);
    AndBit(x, 7);
    ShrDiv(x, 7);
    assert Bits(x / 128, 1) == Bits(x / 128 / 2, 0) + [x / 128 % 2 == 1];
    assert Bits(x / 128, 1)[0] == (x / 128 == 1);
  }

  function Pow128(n: nat): nat {
    if n == 0 then 1 else 128 * Pow128(n - 1)
  }

  lemma OctetNext(b: seq<bool>, p: nat, x: Byte)
    requires At(b, p, Octets([x]))
    ensures ParseBits(b, p, 8) == Got(x, p + 8)
  {
    OctetsOne(x);
    SmallPowers();
    FieldRound(b, p, x, 8);
  }

  lemma IdentStep(b: seq<bool>, p: nat, acc: U32, x: Byte)
    requires At(b, p, Octets([x]))
    ensures p + 8 <= |b|
    ensures ParseIdent(b, p, acc) ==
      if x >= 128 then ParseIdent(b, p + 8, Wrap(acc * 128 + x % 128)) else Got(Wrap(acc * 128 + x % 128), p + 8)
  {
    hide And, Octets;
    OctetNext(b, p, x);
    HighBit(x);
  }

  /** Octets with continuation bits. */
  lemma {:induction false} IdentPrefix(b: seq<bool>, p: nat, u: U32, m: nat)
    requires At(b, p, Octets(IdentOctets(u, m, false))) && u < Pow128(m)
    ensures p + 8 * m <= |b| && ParseIdent(b, p, 0) == ParseIdent(b, p + 8 * m, u)
    decreases m
  {
    hide At, Octets, ParseIdent;
    if m > 0 {
      var s, x: Byte := IdentOctets(u / 128, m - 1, false), u % 128 + 128;
      OctetsConcat(s, [x]);
      AtBoth(b, p, Octets(s), Octets([x]));
      IdentPrefix(b, p, u / 128, m - 1);
      IdentStep(b, p + 8 * (m - 1), u / 128, x);
    } else {
      AtInside(b, p, Octets(IdentOctets(u, m, false)));
    }
  }

  lemma AtInside(b: seq<bool>, p: nat, e: seq<bool>)
    requires At(b, p, e)
    ensures p + |e| <= |b|
  {
  }

  lemma IdentFits(v: U32)
    ensures v / 128 < Pow128(IdentCount(v) - 1)
  {
    assert Pow128(1) == 0x80;
    assert Pow128(3) == 0x20_0000;
    assert Pow128(4) == 0x1000_0000;
  }

  /** Seven bits to an octet, and no octet too many. */
  lemma IdentLeast(v: U32)
    ensures v < Pow128(IdentCount(v)) && (IdentCount(v) > 1 ==> Pow128(IdentCount(v) - 1) <= v)
  {
    assert Pow128(1) == 0x80;
    assert Pow128(2) == 0x4000;
    assert Pow128(3) == 0x20_0000;
    assert Pow128(4) == 0x1000_0000;
    assert Pow128(5) == 0x8_0000_0000;
  }

  lemma IdentRound(b: seq<bool>, p: nat, v: U32)
    requires At(b, p, Octets(IdentOctets(v, IdentCount(v), true)))
    ensures p + 8 * IdentCount(v) <= |b| && ParseIdent(b, p, 0) == Got(v, p + 8 * IdentCount(v))
  {
    hide At, Octets, ParseIdent, IdentCount;
    var n := IdentCount(v);
    var s, x: Byte := IdentOctets(v / 128, n - 1, false), v % 128;
    IdentFits(v);
    OctetsConcat(s, [x]);
    AtBoth(b, p, Octets(s), Octets([x]));
    IdentPrefix(b, p, v / 128, n - 1);
    IdentStep(b, p + 8 * (n - 1), v / 128, x);
  }

  /** The declared octets hold exactly the remaining subidentifiers. */
  lemma {:induction false} IdentsRound(b: seq<bool>, p: nat, done: Oid, rest: Oid)
    requires At(b, p, Octets(OidOctets(rest))) && done != [] && |done| + |rest| <= MAX_SUBIDS
    ensures p + 8 * IdentCounts(rest) <= |b|
    ensures ParseIdents(b, p, Counts(rest), done) == Got(done + rest, p + 8 * IdentCounts(rest))
    decreases |rest|
  {
    hide At, Octets, ParseIdent, IdentCount, IdentOctets, Wrap;
    AtInside(b, p, Octets(OidOctets(rest)));
    CountsBound(rest);
    if rest == [] {
      assert done + rest == done;
    } else {
      var s, t := IdentOctets(rest[0], IdentCount(rest[0]), true), OidOctets(rest[1..]);
      OctetsConcat(s, t);
      AtBoth(b, p, Octets(s), Octets(t));
      IdentRound(b, p, rest[0]);
      IdentsRound(b, p + 8 * IdentCount(rest[0]), done + [rest[0]], rest[1..]);
      assert done + [rest[0]] + rest[1..] == done + rest;
      CountsNext(rest);
    }
  }

  lemma {:induction false} CountsBound(ids: Oid)
    ensures |ids| <= IdentCounts(ids) <= 5 * |ids| && |OidOctets(ids)| == IdentCounts(ids)
  {
    if ids != [] {
      CountsBound(ids[1..]);
    }
  }

  /** One subidentifier less. */
  lemma CountsNext(ids: Oid)
    requires ids != [] && |ids| <= MAX_SUBIDS
    ensures Counts(ids) > 0 && Wrap(Counts(ids) - IdentCount(ids[0])) == Counts(ids[1..])
  {
    hide IdentCount;
    CountsBound(ids);
    CountsBound(ids[1..]);
  }

  function Counts(ids: Oid): U32
    requires |ids| <= MAX_SUBIDS
  {
    assert IdentCounts(ids) <= 5 * MAX_SUBIDS by {
      CountsBound(ids);
    }
    IdentCounts(ids)
  }

  lemma WrapMinus(len: int, c: int, d: int)
    ensures Wrap(Wrap(len - c) - d) == Wrap(len - (c + d))
  {
  }

  /** The decoder stops only when it has read the declared number of octets, modulo 2 to the 32. */
  lemma {:induction false} Consumed(b: seq<bool>, p: nat, len: U32, ids: Oid) returns (k: nat)
    requires p <= |b| && ParseIdents(b, p, len, ids).Got?
    ensures var r := ParseIdents(b, p, len, ids);
      r.at == p + 8 * k && Wrap(len - k) == 0 && ids <= r.value
    decreases |b| - p
  {
    hide ParseIdent, Wrap;
    if len == 0 {
      k := 0;
      assert Wrap(0) == 0 by {
        WrapZero();
      }
    } else {
      var f := ParseIdent(b, p, 0);
      IdentWhole(b, p, 0);
      var c: nat := (f.at - p) / 8;
      var next := if ids == [] then SplitFirst(f.value) else ids + [f.value];
      var d := Consumed(b, f.at, Wrap(len - c), next);
      WrapMinus(len, c, d);
      k := c + d;
      assert ids <= next;
    }
  }

  lemma WrapZero()
    ensures Wrap(0) == 0
  {
  }

  lemma FirstIdent(b: seq<bool>, p: nat, len: U32, v: U32, n: nat)
    requires p <= |b| && len > 0 && ParseIdent(b, p, 0) == Got(v, p + 8 * n)
    ensures ParseIdents(b, p, len, []) == ParseIdents(b, p + 8 * n, Wrap(len - n), SplitFirst(v))
  {
    hide ParseIdent;
  }

  /** Object identifiers come back, and the decoder stands behind their encoding, exactly when their first
      two arcs fit into the one octet that the encoder counts for them, whatever stands in front and `later`.
   */
  lemma OidComesBack(w: seq<bool>, ids: Oid, later: seq<bool>)
    requires ValidOid(ids) && |later| % 8 == 0
    ensures var end, b := |w| + |EncOid(|w|, ids)|, w + EncOid(|w|, ids) + later;
      |b| % 8 == 0 && (ParseOid(b, |w|) == Got(ids, end) <==> SmallStart(ids))
  {
    hide EncLength, ParseLength, Octets, ParseIdents, IdentCounts, IdentCount, At, ParseIdent, Wrap, OidOctets;
    var b, at, rest := w + EncOid(|w|, ids) + later, |w|, ids[2..];
    var end := at + |EncOid(at, ids)|;
    var l, t := EncLength(at, OidLength(ids)), FirstTwo(ids);
    var p := at + |l|;
    var s := IdentOctets(t, IdentCount(t), true);
    OidParts(ids);
    AtAmong(w, EncOid(|w|, ids), later);
    AtBoth(b, at, l, Octets(OidOctets([t] + rest)));
    OctetsConcat(s, OidOctets(rest));
    AtBoth(b, p, Octets(s), Octets(OidOctets(rest)));
    Whole(p, |OidOctets([t] + rest)|);
    LengthRound(b, at, OidLength(ids));
    IdentRound(b, p, t);
    FirstIdent(b, p, OidLength(ids), t, IdentCount(t));
    assert ParseOid(b, at) == ParseIdents(b, p, OidLength(ids), []);
    if SmallStart(ids) {
      SplitBack(ids);
      IdentsRound(b, p + 8, SplitFirst(t), rest);
    } else if ParseIdents(b, p, OidLength(ids), []) == Got(ids, end) {
      var k := Consumed(b, p + 8 * IdentCount(t), Wrap(OidLength(ids) - IdentCount(t)), SplitFirst(t));
      WrapMinus(OidLength(ids), IdentCount(t), k);
      SplitOnce(ids);
      assert false;
    }
  }

  predicate SmallStart(ids: Oid)
    requires |ids| >= 2
  {
    var a: int, c: int := ids[0], ids[1];
    40 * a + c < 128
  }

  /** The round trip at any place of the octets. */
  lemma OidRound(b: seq<bool>, at: nat, ids: Oid)
    requires |b| % 8 == 0 && ValidOid(ids) && SmallStart(ids) && At(b, at, EncOid(at, ids))
    ensures at <= |b| && ParseOid(b, at) == Got(ids, at + |EncOid(at, ids)|)
  {
    hide EncOid, ParseOid;
    var end := at + |EncOid(at, ids)|;
    OidAligned(at, ids);
    assert b == b[..at] + EncOid(at, ids) + b[end..];
    OidComesBack(b[..at], ids, b[end..]);
  }

  lemma OidAligned(at: nat, ids: Oid)
    requires ValidOid(ids)
    ensures (at + |EncOid(at, ids)|) % 8 == 0
  {
    hide EncLength, OidOctets;
    Whole(at + |EncLength(at, OidLength(ids))|, |OidOctets([FirstTwo(ids)] + ids[2..])|);
  }

  lemma AtAmong(w: seq<bool>, e: seq<bool>, later: seq<bool>)
    ensures At(w + e + later, |w|, e)
  {
  }

  lemma OidParts(ids: Oid)
    requires ValidOid(ids)
    ensures 2 <= |ids| <= MAX_SUBIDS && |ids[2..]| == |ids| - 2
    ensures OidLength(ids) == 1 + IdentCounts(ids[2..]) < 16384 && Part(OidLength(ids)) == OidLength(ids)
    ensures IdentCounts(ids[2..]) == |OidOctets(ids[2..])|
    ensures OidOctets([FirstTwo(ids)] + ids[2..]) ==
      IdentOctets(FirstTwo(ids), IdentCount(FirstTwo(ids)), true) + OidOctets(ids[2..])
  {
    CountsBound(ids[2..]);
    assert ([FirstTwo(ids)] + ids[2..])[1..] == ids[2..];
  }

  lemma SplitBack(ids: Oid)
    requires ValidOid(ids) && SmallStart(ids)
    ensures IdentCount(FirstTwo(ids)) == 1 && SplitFirst(FirstTwo(ids)) == ids[..2]
    ensures SplitFirst(FirstTwo(ids)) + ids[2..] == ids
    ensures Wrap(OidLength(ids) - 1) == Counts(ids[2..]) == IdentCounts(ids[2..])
  {
    CountsBound(ids[2..]);
  }

  /** A number of the first two arcs that takes one octet stands for small arcs only. */
  lemma SplitOnce(ids: Oid)
    requires ValidOid(ids) && !SmallStart(ids)
    requires Wrap(1 - IdentCount(FirstTwo(ids))) == 0
    ensures !(SplitFirst(FirstTwo(ids)) <= ids)
  {
  }

  // ---- The sizing pass, and octet strings left in the decoder's buffer

  /** `getComponentLength`: adds up the lengths of all fragments of items of `bits` bits. */
  ghost function ParseTotal(b: seq<bool>, at: nat, bits: nat): Parsed<nat>
    requires |b| % 8 == 0 && at <= |b| && bits > 0
    decreases |b| - at
  {
    match ParseLength(b, at)
    case Fail(why) => Fail(why)
    case Got(l, p) =>
      if !l.more then Got(l.n, p)
      else if p + l.n * bits > |b| then Fail(Error(EndOfBuf))
      else
        match ParseTotal(b, p + l.n * bits, bits)
        case Fail(why) => Fail(why)
        case Got(n, q) => Got(l.n + n, q)
  }

  lemma FragmentIs(b: seq<bool>, at: nat, cap: nat)
    requires |b| % 8 == 0 && at <= |b|
    ensures match ParseLength(b, at)
      case Fail(why) => ParseFragment(b, at, cap) == Fail(why)
      case Got(l, p) =>
        if p + 8 * l.n > |b| then ParseFragment(b, at, cap) == Fail(Error(EndOfBuf))
        else if l.n > cap then ParseFragment(b, at, cap) == Fail(Error(StrOvflw))
        else
          && ParseFragment(b, at, cap).Got?
          && |ParseFragment(b, at, cap).value.s| == l.n && ParseFragment(b, at, cap).value.more == l.more
          && ParseFragment(b, at, cap).at == p + 8 * l.n
  {
    hide ParseLength;
  }

  /** The sizing pass announces exactly what the decoding pass writes, so that a buffer of that size is
      never too small.
   */
  lemma {:induction false} SizingAgrees(b: seq<bool>, at: nat, cap: nat)
    requires |b| % 8 == 0 && at <= |b|
    ensures ParseOctetString(b, at, cap).Got? ==>
      ParseTotal(b, at, 8).Got? && ParseTotal(b, at, 8).value == |ParseOctetString(b, at, cap).value|
    ensures ParseTotal(b, at, 8).Got? && ParseTotal(b, at, 8).value <= cap ==>
      ParseOctetString(b, at, cap).Got? || ParseOctetString(b, at, cap) == Fail(Error(EndOfBuf))
    decreases |b| - at
  {
    hide ParseLength, ParseFragment;
    FragmentIs(b, at, cap);
    match ParseLength(b, at)
    case Fail(_) =>
    case Got(l, p) =>
      if l.more && p + 8 * l.n <= |b| && l.n <= cap {
        SizingAgrees(b, p + 8 * l.n, cap - l.n);
      }
  }

  /** An octet string that a decoder hands out: a copy, or `n` octets in its own buffer. */
  datatype Octs = Copied(s: seq<Byte>) | InBuffer(p: nat, n: nat)

  ghost function Contents(b: seq<bool>, o: Octs): seq<Byte>
    requires o.InBuffer? ==> o.p + 8 * o.n <= |b|
  {
    match o
    case Copied(s) => s
    case InBuffer(p, n) => OctetsAt(b, p, n)
  }

  /** Copying needs the size first. */
  ghost function ParseCopied(b: seq<bool>, at: nat): (r: Parsed<Octs>)
    requires |b| % 8 == 0 && at <= |b|
    ensures r.Got? ==> r.value.Copied?
  {
    match ParseTotal(b, at, 8)
    case Fail(why) => Fail(why)
    case Got(n, _) =>
      match ParseOctetString(b, at, n)
      case Fail(why) => Fail(why)
      case Got(s, q) => Got(Copied(s), q)
  }

  /** `decodeDynOctetString`; with `fast` an unfragmented string is not copied. */
  ghost function ParseDyn(b: seq<bool>, at: nat, fast: bool): (r: Parsed<Octs>)
    requires |b| % 8 == 0 && at <= |b|
    ensures r.Got? && r.value.InBuffer? ==> r.value.p + 8 * r.value.n == r.at <= |b|
  {
    var p := RoundUp(at);
    if !fast then ParseCopied(b, at)
    else if p >= |b| then Fail(PastEnd)
    else if b[p] && b[p + 1] then ParseCopied(b, at)
    else
      match ParseLength(b, at)
      case Fail(why) => Fail(why)
      case Got(l, q) => if q + 8 * l.n > |b| then Fail(Error(EndOfBuf)) else Got(InBuffer(q, l.n), q + 8 * l.n)
  }

  /** Whether or not strings are copied makes no difference to their octets, the cursor or the error. */
  lemma FastCopyAgrees(b: seq<bool>, at: nat)
    requires |b| % 8 == 0 && at <= |b|
    ensures var fast, slow := ParseDyn(b, at, true), ParseDyn(b, at, false);
      && (fast.Fail? <==> slow.Fail?)
      && (fast.Fail? ==> fast.why == slow.why)
      && (fast.Got? ==> fast.at == slow.at && Contents(b, fast.value) == Contents(b, slow.value))
  {
    var p := RoundUp(at);
    if p < |b| && !(b[p] && b[p + 1]) {
      Unfragmented(b, at);
    }
  }

  lemma Unfragmented(b: seq<bool>, at: nat)
    requires |b| % 8 == 0 && RoundUp(at) < |b| && at <= |b|
    requires !(b[RoundUp(at)] && b[RoundUp(at) + 1])
    ensures ParseLength(b, at).Got? ==> !ParseLength(b, at).value.more
    ensures ParseLength(b, at).Got? ==>
      var l, q := ParseLength(b, at).value.n, ParseLength(b, at).at;
      ParseCopied(b, at) == if q + 8 * l > |b| then Fail(Error(EndOfBuf)) else Got(Copied(OctetsAt(b, q, l)), q + 8 * l)
    ensures ParseLength(b, at).Fail? ==> ParseCopied(b, at) == Fail(ParseLength(b, at).why)
  {
  }
}
