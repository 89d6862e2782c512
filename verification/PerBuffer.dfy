/** The buffer of an aligned PER encoder or decoder: octets and a bit cursor, and the operations that
    write or read a few bits at the cursor.
 */
module PerBuffer {
  import opened BitStrings

  datatype Stat = Ok | OkFrag | EndOfBuf | StrOvflw | ConsVio | RangErr | InvObjId | InvLen

  /** The bits in front of the cursor. The `o` low bits of the octet at the cursor lie behind it. */
  ghost function BitsTo(d: seq<Byte>, bi: nat, o: nat): (r: seq<bool>)
    requires bi < |d| && o <= 8
    ensures |r| == 8 * bi + 8 - o
  {
    Octets(d[..bi]) + Bits(Shr(d[bi], o), 8 - o)
  }

  /** A full octet is finished; the cursor may stand behind its last bit or in front of the next octet. */
  lemma BitsToNext(d: seq<Byte>, bi: nat, e: seq<Byte>)
    requires bi + 1 < |d| == |e| && d[..bi + 1] == e[..bi + 1]
    ensures BitsTo(e, bi + 1, 8) == BitsTo(d, bi, 0)
  {
    assert e[..bi + 1][..bi] == d[..bi];
    assert e[bi] == d[bi];
  }

  /** Storing `v` in the free positions of the octet at the cursor. */
  lemma Stored(d: seq<Byte>, bi: nat, o: nat, v: nat, n: nat, e: seq<Byte>)
    requires bi < |d| == |e| && n <= o <= 8 && Low(d[bi], o) == 0 && v < Pow2(n)
    requires e[..bi] == d[..bi] && e[bi] == Or(d[bi], Shl(v, o - n))
    ensures Low(e[bi], o - n) == 0
    ensures BitsTo(e, bi, o - n) == BitsTo(d, bi, o) + Bits(v, n)
  {
    Place(d[bi], v, o, n);
  }

  lemma BitStored(d: seq<Byte>, bi: nat, o: nat, value: bool, e: seq<Byte>)
    requires bi < |d| == |e| && o < 8 && Low(d[bi], o + 1) == 0
    requires e[..bi] == d[..bi] && e[bi] == if value then Or(d[bi], Shl(1, o)) else d[bi]
    ensures Low(e[bi], o) == 0
    ensures BitsTo(e, bi, o) == BitsTo(d, bi, o + 1) + [value]
  {
    hide BitsTo, Low, Or, Shl, Pow2;
    var v := if value then 1 else 0;
    SmallPowers();
    OrZero(d[bi]);
    CleanOctet(o);
    ShlZero(o);
    Stored(d, bi, o + 1, v, 1, e);
    assert Bits(v, 1) == Bits(0, 0) + [value];
  }

  lemma BitFits(b: Byte, o: nat)
    requires o < 8 && Low(b, o + 1) == 0
    ensures Or(b, Shl(1, o)) < 256
  {
    Place(b, 1, o + 1, 1);
  }

  lemma {:induction false} ShlZero(n: nat)
    ensures Shl(0, n) == 0
  {
    if n > 0 {
      ShlZero(n - 1);
    }
  }

  lemma CleanOctet(o: nat)
    ensures Low(0, o) == 0 && Shr(0, o) == 0
  {
    AndZero(o);
    ShrSmall(0, o);
  }

  /** With no bits of the current octet in use, its contents do not matter. */
  lemma BitsToFresh(d: seq<Byte>, e: seq<Byte>, bi: nat)
    requires bi < |d| == |e| && d[..bi] == e[..bi]
    ensures BitsTo(d, bi, 8) == BitsTo(e, bi, 8) == Octets(d[..bi])
  {
  }

  lemma NoBits(v: nat)
    ensures Bits(v, 0) == [] && Low(v, 0) == 0
  {
  }

  /** Masking off what does not belong to the field does not change its bits. */
  lemma Masked(value: U32, n: nat, v: nat)
    requires n <= 32 && v == if n < 32 then And(value, Pow2(n) - 1) else value
    ensures v < Pow2(n) && v < 0x1_0000_0000 && Bits(v, n) == Bits(value, n)
  {
    AndLow(value, n);
    BitsLow(value, n);
    Pow32();
    PowGrows(n, 32);
  }

  lemma Pow32()
    ensures Pow2(32) == 0x1_0000_0000
  {
    assert Pow2(8) == 256;
    assert Pow2(16) == 65536;
    assert Pow2(24) == 0x100_0000;
  }

  lemma Fits(b: Byte, o: nat, v: nat, n: nat)
    requires n <= o <= 8 && Low(b, o) == 0 && v < Pow2(n)
    ensures Or(b, Shl(v, o - n)) < 256
    ensures n == o ==> Or(b, v) < 256 && Shl(v, 0) == v
  {
    Place(b, v, o, n);
  }

  /** The bits of a field that go into the current octet. */
  lemma FieldPart(v: nat, o: nat, rest: nat)
    requires v < Pow2(o + rest)
    ensures Shr(v, rest) < Pow2(o)
    ensures Bits(v, o + rest) == Bits(Shr(v, rest), o) + Bits(v, rest)
  {
    BitsSplit(v, o, rest);
    ShrBelow(v, o, rest);
  }

  lemma {:induction false} ShrBelow(v: nat, o: nat, rest: nat)
    requires v < Pow2(o + rest)
    ensures Shr(v, rest) < Pow2(o)
  {
    if rest > 0 {
      ShrBelow(v / 2, o, rest - 1);
    }
  }

  lemma BitsToFull(d: seq<Byte>, bi: nat)
    requires bi < |d|
    ensures Octets(d[..bi + 1]) == BitsTo(d, bi, 0)
  {
    assert d[..bi + 1][..bi] == d[..bi];
  }

  lemma OctetFits(v: nat, rest: nat)
    ensures Low(Shr(v, rest), 8) < 256
  {
    SmallPowers();
  }

  /** Eight more bits of the field. */
  lemma NextOctet(front: seq<Byte>, w: seq<bool>, v: nat, n: nat, rest: nat)
    requires rest + 8 <= n && Low(Shr(v, rest), 8) < 256
    requires Octets(front) == w + Bits(Shr(v, rest + 8), n - rest - 8)
    ensures Octets(front + [Low(Shr(v, rest), 8)]) == w + Bits(Shr(v, rest), n - rest)
  {
    hide Low, Shr, Bits, Octets, Pow2;
    OctetsConcat(front, [Low(Shr(v, rest), 8)]);
    OctetsOne(Low(Shr(v, rest), 8));
    BitsLow(Shr(v, rest), 8);
    BitsSplit(Shr(v, rest), n - rest - 8, 8);
    ShrShr(v, rest, 8);
  }

  /** The last bits of the field, at the high end of an octet. */
  lemma LastPart(v: nat, n: nat, rest: nat, w: seq<bool>, d: seq<Byte>, bi: nat)
    requires rest < 8 && rest <= n && bi < |d| && Octets(d[..bi]) == w + Bits(Shr(v, rest), n - rest)
    ensures Low(Shl(And(v, Pow2(rest) - 1), 8 - rest), 8) < 256
    ensures var b: Byte := Low(Shl(And(v, Pow2(rest) - 1), 8 - rest), 8);
      && Low(b, 8 - rest) == 0 && BitsTo(d[bi := b], bi, 8 - rest) == w + Bits(v, n)
  {
    hide Low, Shr, Bits, Octets, And, Shl, Pow2;
    AndLow(v, rest);
    var x := Low(v, rest);
    ShlBelow(x, rest, 8 - rest);
    ShrSmall(Shl(x, 8 - rest), 8);
    SmallPowers();
    ShrShl(x, 8 - rest);
    BitsLow(v, rest);
    BitsSplit(v, n - rest, rest);
    var b: Byte := Low(Shl(x, 8 - rest), 8);
    assert d[bi := b][..bi] == d[..bi];
  }

  /** The masks for the high bits of an octet. */
  const HIGH_MASKS: seq<Byte> := [0x00, 0x80, 0xC0, 0xE0, 0xF0, 0xF8, 0xFC, 0xFE, 0xFF]

  lemma HighMask(value: Byte, n: nat)
    requires 0 < n < 8
    ensures And(value, HIGH_MASKS[n]) < 256 && And(value, HIGH_MASKS[n]) == value - Low(value, 8 - n)
  {
    SmallPowers();
    PowGrows(8 - n, 8);
    assert HIGH_MASKS[n] == Pow2(8) - Pow2(8 - n);
    AndHigh(value, 8, 8 - n);
    ShrSmall(value, 8);
  }

  /** What is left of an octet after its low bits are cleared. */
  lemma HighBits(value: Byte, n: nat, v: Byte)
    requires 0 < n <= 8
    requires v == value - Low(value, 8 - n)
    ensures Low(v, 8 - n) == 0 && Shr(v, 8 - n) == Shr(value, 8 - n)
  {
    ShrLow(value, 8 - n);
    ShrShl(Shr(value, 8 - n), 8 - n);
  }

  /** At the start of an octet the octet itself is stored. */
  lemma AtBoundary(d: seq<Byte>, bi: nat, n: nat)
    requires bi < |d| && 0 < n <= 8
    ensures BitsTo(d, bi, 8 - n) == BitsTo(d, bi, 8) + Bits(Shr(d[bi], 8 - n), n)
  {
  }

  lemma BitsToMore(d: seq<Byte>, bi: nat, o: nat)
    requires bi < |d| && o <= 8
    ensures BitsTo(d, bi, o) == BitsTo(d, bi, 8) + Bits(Shr(d[bi], o), 8 - o)
  {
  }

  /** The high bits of an octet fit into the current one. */
  lemma HighFits(v: Byte, n: nat, o: nat)
    requires 0 < n <= o <= 8 && Low(v, 8 - n) == 0
    ensures Shr(v, 8 - o) == Shl(Shr(v, 8 - n), o - n) && Shr(v, 8 - n) < Pow2(n)
  {
    SmallPowers();
    ShrBelow(v, n, 8 - n);
    ShrLow(v, 8 - n);
    var x := Shr(v, 8 - n);
    assert v == Shl(x, 8 - n);
    ShlShl(x, o - n, 8 - o);
    ShrShl(Shl(x, o - n), 8 - o);
  }

  /** The high bits of an octet go partly into the next one. */
  lemma HighSplit(v: Byte, n: nat, o: nat)
    requires o < n <= 8 && Low(v, 8 - n) == 0
    ensures Shr(v, 8 - o) < Pow2(o)
    ensures var next := Low(Shl(v, o), 8);
      && next < 256 && Low(next, o + 8 - n) == 0
      && Bits(Shr(v, 8 - n), n) == Bits(Shr(v, 8 - o), o) + Bits(Shr(next, o + 8 - n), n - o)
  {
    hide Low, Shl, Shr, Bits, Pow2;
    SmallPowers();
    ShrBelow(v, o, 8 - o);
    var x, y := Shr(v, 8 - n), Low(v, 8 - o);
    BitsSplit(x, o, n - o);
    ShrShr(v, 8 - n, n - o);
    LowShl(v, o, 8 - o);
    LowShl(y, o, 8 - n);
    LowOfLow(v, 8 - o, 8 - n);
    ShlZero(o);
    ShlShr(y, o, 8 - n);
    ShrOfLow(v, 8 - o, 8 - n);
    BitsLow(x, n - o);
  }

  lemma {:induction false} ShlShr(y: nat, o: nat, k: nat)
    ensures Shr(Shl(y, o), o + k) == Shr(y, k)
  {
    if o > 0 {
      ShlShr(y, o - 1, k);
    }
  }

  /** The zero bits up to the next octet boundary. */
  ghost function Padding(at: nat): (r: seq<bool>)
    ensures (at + |r|) % 8 == 0 && |r| < 8
  {
    Bits(0, (8 - at % 8) % 8)
  }

  lemma Padded(d: seq<Byte>, bi: nat, o: nat)
    requires bi < |d| && o < 8 && Low(d[bi], o) == 0
    ensures BitsTo(d, bi, 0) == BitsTo(d, bi, o) + Padding(8 * bi + 8 - o)
  {
    hide BitsTo, Padding, Bits, Low, Or, Shl;
    ShlZero(0);
    OrZero(d[bi]);
    SmallPowers();
    PowGrows(0, o);
    Stored(d, bi, o, 0, o, d);
    PaddingAfter(bi, o);
  }

  lemma ModEight(k: nat, r: nat)
    ensures (8 * k + r) % 8 == r % 8
  {
  }

  lemma PaddingIs(at: nat, o: nat)
    requires o < 8 && at % 8 == (8 - o) % 8
    ensures Padding(at) == Bits(0, o)
  {
    hide Bits;
    if o > 0 {
      assert at % 8 == 8 - o;
    }
  }

  lemma SlicePrefix(b: seq<bool>, i: nat, j: nat, n: nat)
    requires i + n <= j <= |b|
    ensures b[i..j][..n] == b[i..i + n]
  {
  }

  lemma PaddingAfter(bi: nat, o: nat)
    requires o < 8
    ensures Padding(8 * bi + 8 - o) == Bits(0, o)
  {
    hide Padding;
    ModEight(bi, 8 - o);
    PaddingIs(8 * bi + 8 - o, o);
  }

  /** Whole octets copied to an octet boundary. */
  lemma Copied(d: seq<Byte>, bi: nat, s: seq<Byte>, e: seq<Byte>)
    requires bi + |s| < |d| == |e| && e[..bi + |s|] == d[..bi] + s
    ensures BitsTo(e, bi + |s|, 8) == BitsTo(d, bi, 8) + Octets(s)
  {
    hide BitsTo, Octets;
    BitsToFresh(d, d, bi);
    BitsToFresh(e, e, bi + |s|);
    OctetsConcat(d[..bi], s);
  }

  lemma OneMore(s: seq<Byte>, k: nat)
    requires k < |s|
    ensures Octets(s[..k + 1]) == Octets(s[..k]) + Bits(s[k], 8)
  {
    assert s[..k + 1][..k] == s[..k];
  }

  lemma OctetsTo(s: seq<Byte>, k: nat)
    requires k <= |s|
    ensures Octets(s)[..8 * k] == Octets(s[..k])
  {
    OctetsSlice(s, 0, k);
    assert s[0..k] == s[..k];
  }

  lemma OctetsPart(s: seq<Byte>, k: nat, n: nat)
    requires k < |s| && n < 8
    ensures 8 * k + n <= 8 * |s| && Octets(s)[..8 * k + n] == Octets(s[..k]) + Bits(Shr(s[k], 8 - n), n)
  {
    hide Octets, Bits, Shr;
    OctetAt(s, k, 0, n);
    OctetsTo(s, k);
    var b := Octets(s);
    assert b[..8 * k + n] == b[..8 * k] + b[8 * k..8 * k + n];
  }

  lemma NoOctets()
    ensures Octets([]) == []
  {
  }

  lemma NoShift(v: nat)
    ensures Shr(v, 0) == v
  {
  }

  function RoundUp(at: nat): nat {
    (at + 7) / 8 * 8
  }

  lemma NoVal()
    ensures Val([]) == 0
  {
  }

  lemma BitAt(d: seq<Byte>, bi: nat, o: nat)
    requires bi < |d| && o < 8
    ensures Octets(d)[8 * bi + 7 - o] == (And(d[bi], Shl(1, o)) != 0)
  {
    hide Octets;
    OctetAt(d, bi, 7 - o, 8 - o);
    assert Octets(d)[8 * bi + 7 - o] == Octets(d)[8 * bi + (7 - o)..8 * bi + (8 - o)][0];
    AndBit(d[bi], o);
  }

  lemma {:induction false} AndBit(b: nat, o: nat)
    ensures And(b, Shl(1, o)) != 0 <==> Bits(Shr(b, o), 1) == [true]
  {
    if o == 0 {
      assert Bits(b, 1)[0] == (b % 2 == 1);
      AndNone(b / 2);
      assert And(b, 1) == if b == 0 then 0 else 2 * And(b / 2, 0) + b % 2;
    } else {
      AndBit(b / 2, o - 1);
      OnePositive(o);
    }
  }

  lemma AndNone(b: nat)
    ensures And(b, 0) == 0
  {
  }

  lemma {:induction false} OnePositive(o: nat)
    ensures Shl(1, o) > 0
  {
    if o > 0 {
      OnePositive(o - 1);
    }
  }

  /** A field inside the current octet. */
  lemma FieldInside(d: seq<Byte>, bi: nat, o: nat, n: nat)
    requires bi < |d| && o + n <= 8
    ensures 8 * bi + 8 - o <= 8 * |d|
    ensures And(Shr(d[bi], o), Pow2(n) - 1) == Val(Octets(d)[8 * bi + 8 - o - n..8 * bi + 8 - o]) < 0x1_0000_0000
  {
    hide Octets, Bits, Val, And, Pow2, Shr, Low;
    OctetAt(d, bi, 8 - o - n, 8 - o);
    ValBits(Shr(d[bi], o), n);
    AndLow(Shr(d[bi], o), n);
    SmallPowers();
    PowGrows(n, 8);
    assert 8 * bi + (8 - o - n) == 8 * bi + 8 - o - n && 8 * bi + (8 - o) == 8 * bi + 8 - o;
  }

  /** The rest of the current octet. */
  lemma FieldRest(d: seq<Byte>, bi: nat, o: nat)
    requires bi < |d| && o <= 8
    ensures And(d[bi], Pow2(o) - 1) == Val(Octets(d)[8 * bi + 8 - o..8 * bi + 8]) < 0x1_0000_0000
  {
    hide Octets, Bits, Val, And, Pow2, Shr, Low;
    FieldInside(d, bi, 0, o);
    NoShift(d[bi]);
  }

  /** `n` further bits, from the octet at `bi`. */
  lemma FieldMore(d: seq<Byte>, start: nat, bi: nat, n: nat)
    requires bi < |d| && n <= 8 && start <= 8 * bi && 8 * bi + n - start <= 32
    ensures 8 * bi + n <= 8 * |d|
    ensures var v := Val(Octets(d)[start..8 * bi]);
      && Or(Shl(v, n), Shr(d[bi], 8 - n)) == Val(Octets(d)[start..8 * bi + n]) < 0x1_0000_0000
    ensures Shr(d[bi], 0) == d[bi]
  {
    hide Octets, Bits, Val, And, Or, Pow2, Shr, Shl, Low;
    NoShift(d[bi]);
    var b := Octets(d);
    OctetAt(d, bi, 0, n);
    SmallPowers();
    ShrBelow(d[bi], n, 8 - n);
    ShrSmall(Shr(d[bi], 8 - n), n);
    ValBits(Shr(d[bi], 8 - n), n);
    assert b[start..8 * bi + n] == b[start..8 * bi] + b[8 * bi..8 * bi + n];
    ValSplit(b[start..8 * bi], b[8 * bi..8 * bi + n]);
    ShrShl(Val(b[start..8 * bi]), n);
    OrApart(Shl(Val(b[start..8 * bi]), n), Shr(d[bi], 8 - n), n);
    PowGrows(8 * bi + n - start, 32);
    Pow32();
  }

  lemma OneMoreHigh(m: Byte)
    requires m < 128
    ensures Or(m, 0x80) == m + 0x80
  {
    SmallPowers();
    ShrShl(1, 7);
    assert Shl(1, 7) == 0x80 by {
      ShlMul(1, 7);
    }
    OrApart(0x80, m, 7);
    OrSwap(m, 0x80);
  }

  lemma {:induction false} OrSwap(a: nat, b: nat)
    ensures Or(a, b) == Or(b, a)
    decreases a + b
  {
    if a + b > 0 {
      OrSwap(a / 2, b / 2);
    }
  }

  lemma PaddingOf(k: nat, m: nat)
    requires m < 8
    ensures Padding(8 * k + m) == Bits(0, if m == 0 then 0 else 8 - m)
  {
    hide Bits;
    assert (8 * k + m) % 8 == m;
  }

  /** Clearing the unused bits of the last octet. */
  lemma MaskedLast(s: seq<Byte>, k: nat, m: nat)
    requires 0 < m < 8 && |s| == k + 1
    ensures var c := And(s[k], HIGH_MASKS[m]);
      c < 256 && Octets(s[..k] + [c]) == Octets(s)[..8 * k + m] + Bits(0, 8 - m)
  {
    hide Octets, Bits, Shr, And, Low, Padding;
    HighMask(s[k], m);
    var c: Byte := And(s[k], HIGH_MASKS[m]);
    HighBits(s[k], m, c);
    OctetsPart(s, k, m);
    OctetsConcat(s[..k], [c]);
    OctetsOne(c);
    BitsSplit(c, m, 8 - m);
    BitsLow(c, 8 - m);
  }

  lemma AppendOctet(s: seq<Byte>, c: Byte, b: seq<bool>, p: nat)
    requires p + 8 * |s| + 8 <= |b| && Octets(s) == b[p..p + 8 * |s|]
    requires Bits(c, 8) == b[p + 8 * |s|..p + 8 * |s| + 8]
    ensures Octets(s + [c]) == b[p..p + 8 * |s + [c]|]
  {
    hide Octets, Bits;
    OctetsConcat(s, [c]);
    OctetsOne(c);
  }

  lemma AppendPart(s: seq<Byte>, c: Byte, b: seq<bool>, p: nat, n: nat)
    requires n < 8 && p + 8 * |s| + n <= |b| && Octets(s) == b[p..p + 8 * |s|]
    requires Bits(Shr(c, 8 - n), n) == b[p + 8 * |s|..p + 8 * |s| + n]
    ensures Octets(s + [c])[..8 * |s| + n] == b[p..p + 8 * |s| + n]
  {
    hide Octets, Bits, Shr;
    OctetsPart(s + [c], |s|, n);
    assert (s + [c])[..|s|] == s && (s + [c])[|s|] == c;
    assert b[p..p + 8 * |s| + n] == b[p..p + 8 * |s|] + b[p + 8 * |s|..p + 8 * |s| + n];
  }

  /** The low bits of one octet and the high bits of the next one make an octet. */
  lemma ShiftedOctet(d: seq<Byte>, bi: nat, o: nat)
    requires bi + 1 < |d| && o < 8
    ensures var b := Low(Shl(d[bi], 8 - o), 8);
      && b < 256
      && Or(b, Shr(d[bi + 1], o)) < 256
      && Bits(Or(b, Shr(d[bi + 1], o)), 8) == Octets(d)[8 * bi + 8 - o..8 * bi + 16 - o]
  {
    hide Octets, Bits, Shr, Shl, Or, Low, Pow2;
    SmallPowers();
    var x, y := Low(d[bi], o), Shr(d[bi + 1], o);
    LowShl(d[bi], 8 - o, o);
    OctetHigh(d[bi + 1], o);
    ShrShl(x, 8 - o);
    OrApart(Shl(x, 8 - o), y, 8 - o);
    Joined(x, y, 8 - o);
    BitsSplit(Shl(x, 8 - o) + y, o, 8 - o);
    BitsLow(Shl(x, 8 - o) + y, 8 - o);
    BitsLow(d[bi], o);
    OctetAt(d, bi, 8 - o, 8);
    OctetAt(d, bi + 1, 0, 8 - o);
    NoShift(d[bi]);
    ShlBelow(x, o, 8 - o);
    PowGrows(8 - o, 8);
    OrBelow(Shl(x, 8 - o), y, 8);
    var b := Octets(d);
    assert b[8 * bi + 8 - o..8 * bi + 16 - o] ==
      b[8 * bi + (8 - o)..8 * bi + 8] + b[8 * (bi + 1)..8 * (bi + 1) + (8 - o)];
  }

  lemma OctetHigh(b: Byte, o: nat)
    requires o <= 8
    ensures Shr(b, o) < Pow2(8 - o)
  {
    SmallPowers();
    ShrBelow(b, 8 - o, o);
  }

  /** The same for fewer bits than make an octet. */
  lemma ShiftedPart(d: seq<Byte>, bi: nat, o: nat, n: nat)
    requires bi < |d| && o < 8 && 0 < n < 8 && 8 * bi + 8 - o + n <= 8 * |d|
    ensures var b := Low(Shl(d[bi], 8 - o), 8);
      && b < 256
      && (n > o ==> Or(b, Shr(d[bi + 1], o)) < 256)
      && Bits(Shr(if n > o then Or(b, Shr(d[bi + 1], o)) else b, 8 - n), n) ==
        Octets(d)[8 * bi + 8 - o..8 * bi + 8 - o + n]
  {
    hide Octets, Bits, Shr, Shl, Or, Low, Pow2;
    SmallPowers();
    var b := Low(Shl(d[bi], 8 - o), 8);
    if n > o {
      ShiftedOctet(d, bi, o);
      BitsSlice(Or(b, Shr(d[bi + 1], o)), 8, 0, n);
      assert Octets(d)[8 * bi + 8 - o..8 * bi + 16 - o][..n] == Octets(d)[8 * bi + 8 - o..8 * bi + 8 - o + n];
    } else {
      var x := Low(d[bi], o);
      LowShl(d[bi], 8 - o, o);
      ShlShr(x, 8 - o, o - n);
      ShrOfLow(d[bi], o, o - n);
      BitsLow(Shr(d[bi], o - n), n);
      OctetAt(d, bi, 8 - o, 8 - o + n);
    }
  }

  /** What is in `out` from `k` on, if one octet more may have been cleared. */
  function Behind(out: seq<Byte>, k: nat, cleared: bool): seq<Byte>
    requires if cleared then k < |out| else k <= |out|
  {
    if cleared then [0] + out[k + 1..] else out[k..]
  }

  lemma NothingBehind(out: seq<Byte>, k: nat)
    requires k <= |out|
    ensures Behind(out, k, false) == out[k..]
  {
  }

  /** An octet that is shifted by all its bits. */
  lemma BehindSame(a: seq<Byte>, b: seq<Byte>, k: nat, e: nat, cleared: bool)
    requires k <= e && (if cleared then e < |a| else e <= |a|) && |a| == |b| && a[k..] == b[k..]
    ensures Behind(a, e, cleared) == Behind(b, e, cleared)
  {
    assert a[e..] == a[k..][e - k..] == b[k..][e - k..] == b[e..];
    if cleared {
      assert a[e + 1..] == a[k..][e + 1 - k..] == b[k..][e + 1 - k..] == b[e + 1..];
    }
  }

  lemma ClearedBehind(out: seq<Byte>, k: nat)
    requires k < |out|
    ensures Behind(out, k, true) == [0] + out[k + 1..]
  {
  }

  lemma ShiftedOut(b: Byte)
    ensures Low(Shl(b, 8), 8) == 0
  {
    ShrShl(b, 8);
  }

  class Buffer {
    const data: array<Byte>
    var byteIndex: nat
    var bitOffset: nat

    /** Number of bits in front of the cursor. */
    ghost function Pos(): nat
      reads this
      requires bitOffset <= 8
    {
      8 * byteIndex + 8 - bitOffset
    }

    /** The rest of the current octet, where further bits go, is clear; a fresh octet is cleared
        before bits go into it.
     */
    ghost predicate Writable()
      reads this, data
    {
      && bitOffset <= 8 && byteIndex < data.Length
      && (bitOffset < 8 ==> Low(data[byteIndex], bitOffset) == 0)
    }

    ghost function Written(): (r: seq<bool>)
      reads this, data
      requires Writable()
      ensures |r| == Pos()
    {
      BitsTo(data[..], byteIndex, bitOffset)
    }

    /** There is room for `n` more bits without expanding the buffer. */
    ghost predicate Room(n: nat)
      reads this
    {
      bitOffset <= 8 && Pos() + n + 24 <= 8 * data.Length
    }

    constructor (size: nat)
      requires size > 0
      ensures Writable() && Written() == [] && data.Length == size && fresh(data)
    {
      data, byteIndex, bitOffset := new Byte[size], 0, 8;
    }

    /** Another cursor in the same octets. */
    constructor Sub(src: Buffer)
      ensures data == src.data && byteIndex == src.byteIndex && bitOffset == src.bitOffset
    {
      data, byteIndex, bitOffset := src.data, src.byteIndex, src.bitOffset;
    }

    method EncodeBit(value: bool)
      requires Writable() && Room(1)
      modifies this, data
      ensures Writable() && Written() == old(Written()) + [value]
    {
      hide BitsTo, Low, Or, Shl;
      ghost var w := Written();
      CleanOctet(8);
      if bitOffset == 8 {
        ghost var d := data[..];
        data[byteIndex] := 0;
        BitsToFresh(d, data[..], byteIndex);
      }
      if bitOffset == 0 {
        ghost var d := data[..];
        byteIndex := byteIndex + 1;
        data[byteIndex] := 0;
        bitOffset := 7;
        BitsToNext(d, byteIndex - 1, data[..]);
      } else {
        bitOffset := bitOffset - 1;
      }
      ghost var d := data[..];
      assert BitsTo(d, byteIndex, bitOffset + 1) == w;
      if value {
        BitFits(data[byteIndex], bitOffset);
        data[byteIndex] := Or(data[byteIndex], Shl(1, bitOffset));
      }
      BitStored(d, byteIndex, bitOffset, value, data[..]);
      if bitOffset == 0 {
        d := data[..];
        bitOffset := 8;
        byteIndex := byteIndex + 1;
        data[byteIndex] := 0;
        BitsToNext(d, byteIndex - 1, data[..]);
      }
    }

    /** Whether the first shift of `EncodeBits`, by the bits that do not fit into the current octet, is
        one that a number of 32 bits allows.
     */
    predicate Shiftable(n: nat)
      reads this
    {
      bitOffset <= n ==> n - bitOffset < 32
    }

    /** There is just one cursor and one width for which it is not. `EncodeBitsFromOctet` leads to this
        cursor whenever it fills up an octet that has been begun.
     */
    lemma ShiftableUnless(n: nat)
      requires n <= 32 && bitOffset <= 8
      ensures !Shiftable(n) <==> n == 32 && bitOffset == 0
    {
    }

    /** Appends the low `n` bits of `value`. */
    method EncodeBits(value: U32, n: nat)
      requires Writable() && Room(n) && n <= 32 && Shiftable(n)
      modifies this, data
      ensures Writable() && Written() == old(Written()) + Bits(value, n)
      ensures n > 0 ==> bitOffset > 0
    {
      hide BitsTo, Low, Or, And, Shl, Shr, Bits, Pow2;
      ghost var w := Written();
      CleanOctet(8);
      NoBits(value);
      if n == 0 {
        return;
      }
      if bitOffset == 8 {
        ghost var d := data[..];
        data[byteIndex] := 0;
        BitsToFresh(d, data[..], byteIndex);
      }
      var v: nat := value;
      if n < 32 {
        v := And(v, Pow2(n) - 1);
      }
      Masked(value, n, v);
      ghost var d := data[..];
      if n < bitOffset {
        bitOffset := bitOffset - n;
        Fits(data[byteIndex], bitOffset + n, v, n);
        data[byteIndex] := Or(data[byteIndex], Shl(v, bitOffset));
        Stored(d, byteIndex, bitOffset + n, v, n, data[..]);
        return;
      }
      EncodeAcross(v, n);
    }

    /** A field that fills the current octet. */
    method EncodeAcross(v: nat, n: nat)
      requires bitOffset <= 8 && byteIndex < data.Length && Low(data[byteIndex], bitOffset) == 0
      requires Room(n) && bitOffset <= n <= 32 && v < Pow2(n)
      modifies this, data
      ensures Writable() && Written() == BitsTo(old(data[..]), old(byteIndex), old(bitOffset)) + Bits(v, n)
      ensures bitOffset > 0
    {
      hide BitsTo, Low, Or, And, Shl, Shr, Bits, Pow2;
      ghost var d := data[..];
      ghost var w := BitsTo(d, byteIndex, bitOffset);
      var rest: nat := n - bitOffset;
      FieldPart(v, bitOffset, rest);
      Fits(data[byteIndex], bitOffset, Shr(v, rest), bitOffset);
      data[byteIndex] := Or(data[byteIndex], Shr(v, rest));
      Stored(d, byteIndex, bitOffset, Shr(v, rest), bitOffset, data[..]);
      BitsToFull(data[..], byteIndex);
      byteIndex := byteIndex + 1;
      data[byteIndex] := 0;
      EncodeTail(v, n, rest, w);
    }

    /** The bits of the field that go into further octets. */
    method EncodeTail(v: nat, n: nat, left: nat, ghost w: seq<bool>)
      requires left <= n <= 32 && byteIndex < data.Length && data[byteIndex] == 0
      requires 8 * byteIndex + left == |w| + n && |w| + n + 24 <= 8 * data.Length
      requires Octets(data[..byteIndex]) == w + Bits(Shr(v, left), n - left)
      modifies this, data
      ensures Writable() && Written() == w + Bits(v, n) && bitOffset > 0
    {
      hide BitsTo, Low, Or, And, Shl, Shr, Bits, Pow2, Octets;
      var rest: nat := left;
      while rest >= 8
        invariant byteIndex < data.Length && 8 * byteIndex + rest == |w| + n && rest <= n
        invariant Octets(data[..byteIndex]) == w + Bits(Shr(v, rest), n - rest)
        invariant data[byteIndex] == 0
      {
        ghost var front := data[..byteIndex];
        rest := rest - 8;
        OctetFits(v, rest);
        data[byteIndex] := Low(Shr(v, rest), 8);
        assert data[..byteIndex + 1] == front + [data[byteIndex]];
        NextOctet(front, w, v, n, rest);
        byteIndex := byteIndex + 1;
        data[byteIndex] := 0;
      }
      bitOffset := 8 - rest;
      LastPart(v, n, rest, w, data[..], byteIndex);
      ghost var last: Byte := Low(Shl(And(v, Pow2(rest) - 1), bitOffset), 8);
      ghost var d := data[..][byteIndex := last];
      if rest > 0 {
        data[byteIndex] := Low(Shl(And(v, Pow2(rest) - 1), bitOffset), 8);
      } else {
        data[byteIndex] := 0;
        BitsToFresh(d, data[..], byteIndex);
      }
    }

    /** Appends the `n` high bits of an octet. The cursor may end behind the last bit of an octet. */
    method EncodeBitsFromOctet(value: Byte, n: nat)
      requires Writable() && Room(n) && n <= 8
      modifies this, data
      ensures Writable() && Written() == old(Written()) + Bits(Shr(value, 8 - n), n)
      ensures bitOffset == 0 <==> old(bitOffset) == n % 8
    {
      hide BitsTo, Low, Or, And, Shl, Shr, Bits, Pow2;
      NoBits(Shr(value, 8));
      NoBits(value);
      if n == 0 {
        return;
      }
      var v: Byte := value;
      if n < 8 {
        HighMask(value, n);
        v := And(value, HIGH_MASKS[n]);
      }
      HighBits(value, n, v);
      ghost var d := data[..];
      if bitOffset == 8 {
        data[byteIndex] := v;
        BitsToFresh(d, data[..], byteIndex);
        AtBoundary(data[..], byteIndex, n);
        if n == 8 {
          ghost var e := data[..];
          byteIndex := byteIndex + 1;
          data[byteIndex] := 0;
          BitsToNext(e, byteIndex - 1, data[..]);
        } else {
          bitOffset := bitOffset - n;
        }
      } else {
        EncodeInside(v, n);
      }
    }

    /** The high bits of an octet, at a cursor inside or at the end of an octet. */
    method EncodeInside(v: Byte, n: nat)
      requires Writable() && Room(n) && bitOffset < 8 && 0 < n <= 8 && Low(v, 8 - n) == 0
      modifies this, data
      ensures Writable() && Written() == old(Written()) + Bits(Shr(v, 8 - n), n)
      ensures bitOffset == 0 <==> old(bitOffset) == n % 8
    {
      hide BitsTo, Low, Or, And, Shl, Shr, Bits, Pow2;
      ghost var d, o := data[..], bitOffset;
      if n <= bitOffset {
        HighFits(v, n, bitOffset);
        Fits(data[byteIndex], bitOffset, Shr(v, 8 - n), n);
        data[byteIndex] := Or(data[byteIndex], Shr(v, 8 - bitOffset));
        bitOffset := bitOffset - n;
        Stored(d, byteIndex, o, Shr(v, 8 - n), n, data[..]);
      } else {
        HighSplit(v, n, bitOffset);
        Fits(data[byteIndex], bitOffset, Shr(v, 8 - bitOffset), bitOffset);
        data[byteIndex] := Or(data[byteIndex], Shr(v, 8 - bitOffset));
        Stored(d, byteIndex, o, Shr(v, 8 - o), o, data[..]);
        ghost var e := data[..];
        byteIndex := byteIndex + 1;
        data[byteIndex] := Low(Shl(v, bitOffset), 8);
        bitOffset := bitOffset + 8 - n;
        BitsToNext(e, byteIndex - 1, data[..]);
        BitsToMore(data[..], byteIndex, bitOffset);
      }
    }

    method EncodeByteAlign()
      requires Writable() && Room(bitOffset % 8)
      modifies this, data
      ensures Writable() && bitOffset == 8 && Written() == old(Written()) + Padding(|old(Written())|)
    {
      hide BitsTo, Low, Or, And, Shl, Shr, Bits, Pow2;
      NoBits(0);
      if bitOffset != 8 {
        ghost var d := data[..];
        Padded(d, byteIndex, bitOffset);
        byteIndex := byteIndex + 1;
        bitOffset := 8;
        data[byteIndex] := 0;
        BitsToNext(d, byteIndex - 1, data[..]);
      }
    }

    method EncodeFullOctets(s: seq<Byte>)
      requires Writable() && Room(8 * |s|)
      modifies this, data
      ensures Writable() && Written() == old(Written()) + Octets(s)
      ensures old(bitOffset) == 8 ==> bitOffset == 8
    {
      hide BitsTo, Low, Or, And, Shl, Shr, Bits, Pow2, Octets;
      ghost var w := Written();
      if bitOffset == 8 {
        ghost var d := data[..];
        forall k | 0 <= k < |s| {
          data[byteIndex + k] := s[k];
        }
        byteIndex := byteIndex + |s|;
        data[byteIndex] := 0;
        assert data[..byteIndex] == d[..byteIndex - |s|] + s;
        Copied(d, byteIndex - |s|, s, data[..]);
      } else {
        NoOctets();
        assert s[..0] == [];
        for i := 0 to |s|
          invariant Writable() && |w| == old(Pos()) && Written() == w + Octets(s[..i])
        {
          EncodeBitsFromOctet(s[i], 8);
          OneMore(s, i);
          NoShift(s[i]);
        }
        assert s[..|s|] == s;
      }
    }

    /** Appends the `n` first bits of an octet string. */
    method EncodeOctets(s: seq<Byte>, n: nat)
      requires Writable() && Room(n) && n <= 8 * |s|
      modifies this, data
      ensures Writable() && Written() == old(Written()) + Octets(s)[..n]
      ensures old(bitOffset) == 8 && n % 8 == 0 ==> bitOffset == 8
    {
      hide BitsTo, Low, Or, And, Shl, Shr, Bits, Pow2, Octets;
      if n == 0 {
        return;
      }
      var full := n / 8;
      NoOctets();
      assert s[..0] == [];
      OctetsTo(s, full);
      if full > 0 {
        EncodeFullOctets(s[..full]);
      }
      if n % 8 != 0 {
        EncodeBitsFromOctet(s[full], n % 8);
        OctetsPart(s, full, n % 8);
      }
    }

    /** What a decoder reads from. */
    ghost function Stream(): (r: seq<bool>)
      reads data
      ensures |r| == 8 * data.Length
    {
      Octets(data[..])
    }

    ghost predicate Readable()
      reads this
    {
      bitOffset <= 8 && Pos() <= 8 * data.Length
    }

    /** Reads a bit that the buffer holds. */
    method DecodeBit() returns (value: bool)
      requires Readable() && Pos() < 8 * data.Length
      modifies this
      ensures Readable() && Pos() == old(Pos()) + 1 && value == Stream()[old(Pos())]
      ensures bitOffset < 8
    {
      hide Octets, And, Shl;
      if bitOffset == 0 {
        byteIndex := byteIndex + 1;
        bitOffset := 7;
      } else {
        bitOffset := bitOffset - 1;
      }
      value := And(data[byteIndex], Shl(1, bitOffset)) != 0;
      BitAt(data[..], byteIndex, bitOffset);
    }

    /** Reads `n` bits as a number. */
    method DecodeBits(n: nat) returns (value: U32, stat: Stat)
      requires Readable() && n <= 32
      modifies this
      ensures Readable() && stat == (if n > 0 && old(Pos()) + n > 8 * data.Length then EndOfBuf else Ok)
      ensures Pos() == if stat == Ok then old(Pos()) + n else old(Pos())
      ensures stat == Ok ==> value == Val(Stream()[old(Pos())..old(Pos()) + n])
      ensures n > 0 && stat == Ok ==> bitOffset > 0
    {
      hide Octets, And, Or, Shl, Shr, Low, Pow2, Val;
      value, stat := 0, Ok;
      NoVal();
      if n == 0 {
        return;
      }
      if n < bitOffset {
        if byteIndex >= data.Length {
          return 0, EndOfBuf;
        }
        bitOffset := bitOffset - n;
        FieldInside(data[..], byteIndex, bitOffset, n);
        value := And(Shr(data[byteIndex], bitOffset), Pow2(n) - 1);
      } else if byteIndex + (n - bitOffset + 7) / 8 >= data.Length {
        stat := EndOfBuf;
      } else {
        value := DecodeAcross(n);
      }
    }

    /** Reads a field that takes the rest of the current octet. */
    method DecodeAcross(n: nat) returns (value: U32)
      requires Readable() && 0 < n <= 32 && bitOffset <= n && Pos() + n <= 8 * data.Length
      modifies this
      ensures Readable() && Pos() == old(Pos()) + n && bitOffset > 0
      ensures value == Val(Stream()[old(Pos())..old(Pos()) + n])
    {
      hide Octets, And, Or, Shl, Shr, Low, Pow2, Val;
      ghost var start := Pos();
      FieldRest(data[..], byteIndex, bitOffset);
      value := And(data[byteIndex], Pow2(bitOffset) - 1);
      var rest: nat := n - bitOffset;
      bitOffset := 8;
      byteIndex := byteIndex + 1;
      while rest >= 8
        invariant bitOffset == 8 && start <= Pos() && Pos() + rest == start + n
        invariant value == Val(Stream()[start..Pos()])
      {
        FieldMore(data[..], start, byteIndex, 8);
        value := Or(Shl(value, 8), data[byteIndex]);
        byteIndex := byteIndex + 1;
        rest := rest - 8;
      }
      if rest > 0 {
        bitOffset := 8 - rest;
        FieldMore(data[..], start, byteIndex, rest);
        value := Or(Shl(value, rest), Shr(data[byteIndex], bitOffset));
      }
    }

    method DecodeByteAlign()
      requires Readable()
      modifies this
      ensures Readable() && bitOffset == 8 && Pos() == RoundUp(old(Pos()))
    {
      if bitOffset != 8 {
        byteIndex := byteIndex + 1;
        bitOffset := 8;
      }
    }

    /** Moves the cursor forward. It may come to stand inside the octet behind the end. */
    method MoveBitCursor(n: nat) returns (stat: Stat)
      requires Readable()
      modifies this
      ensures 0 < bitOffset <= 8 && Pos() == old(Pos()) + n
      ensures stat == if Pos() / 8 > data.Length then EndOfBuf else Ok
    {
      var curr := byteIndex * 8 + (8 - bitOffset) + n;
      byteIndex := curr / 8;
      bitOffset := 8 - curr % 8;
      stat := if byteIndex > data.Length then EndOfBuf else Ok;
    }

    /** Whether `DecodeOctets` is going to clear an octet that it should not touch: the cursor is behind
        the last bit of an octet, and the bits are whole octets.
     */
    ghost predicate Oversteps(n: nat)
      reads this
    {
      bitOffset == 0 && n % 8 == 0
    }

    /** Copies the next `n` bits to whole octets of `out`, from `at` on; a partial last octet is
        filled up with zeros.
     */
    method DecodeOctets(out: array<Byte>, at: nat, n: nat) returns (stat: Stat)
      requires Readable() && at <= out.Length && out != data
      requires Pos() + n <= 8 * data.Length || byteIndex + (n + 7) / 8 > data.Length
      requires Oversteps(n) ==> at + n / 8 != out.Length
      modifies this, out
      ensures stat == if old(Pos()) + n > 8 * data.Length then EndOfBuf
        else if at + (n + 7) / 8 > out.Length then StrOvflw else Ok
      ensures Readable() && Pos() == if stat == Ok then old(Pos()) + n else old(Pos())
      ensures stat == Ok || old(bitOffset) > 0 ==> bitOffset > 0
      ensures stat != Ok ==> out[..] == old(out[..])
      ensures stat == Ok ==>
        && Octets(out[at..at + (n + 7) / 8]) == Stream()[old(Pos())..old(Pos()) + n] + Padding(n)
        && out[..at] == old(out[..at])
        && out[at + (n + 7) / 8..] == Behind(old(out[..]), at + (n + 7) / 8, old(Oversteps(n)))
    {
      hide Octets, Padding, Bits;
      var nbytes := (n + 7) / 8;
      if byteIndex + nbytes > data.Length {
        return EndOfBuf;
      }
      if nbytes > out.Length - at {
        return StrOvflw;
      }
      CopyBits(out, at, n);
      stat := Ok;
    }

    method CopyBits(out: array<Byte>, at: nat, n: nat)
      requires Readable() && Pos() + n <= 8 * data.Length && at + (n + 7) / 8 <= out.Length && out != data
      requires Oversteps(n) ==> at + n / 8 < out.Length
      modifies this, out
      ensures Readable() && bitOffset > 0 && Pos() == old(Pos()) + n
      ensures Octets(out[at..at + (n + 7) / 8]) == Stream()[old(Pos())..old(Pos()) + n] + Padding(n)
      ensures out[..at] == old(out[..at])
      ensures out[at + (n + 7) / 8..] == Behind(old(out[..]), at + (n + 7) / 8, old(Oversteps(n)))
    {
      hide Octets, Padding, Bits, Behind;
      ghost var p := Pos();
      ghost var was := out[..];
      if bitOffset == 8 {
        CopyOctets(out, at, n);
        var stat := MoveBitCursor(n);
        NothingBehind(was, at + (n + 7) / 8);
      } else {
        DecodeShifted(out, at, n);
      }
      ClearUnused(out, at, n);
    }

    /** Clears what is behind `n` bits in the last octet. */
    method ClearUnused(out: array<Byte>, at: nat, n: nat)
      requires at + (n + 7) / 8 <= out.Length
      modifies out
      ensures Octets(out[at..at + (n + 7) / 8]) == old(Octets(out[at..at + (n + 7) / 8])[..n]) + Padding(n)
      ensures out[..at] == old(out[..at])
      ensures out[at + (n + 7) / 8..] == old(out[at + (n + 7) / 8..])
    {
      hide Octets, Padding, Bits;
      assert n == 8 * (n / 8) + n % 8;
      PaddingOf(n / 8, n % 8);
      NoBits(0);
      if n % 8 > 0 {
        MaskLast(out, at, n / 8, n % 8);
      }
    }

    method CopyOctets(out: array<Byte>, at: nat, n: nat)
      requires Readable() && bitOffset == 8 && Pos() + n <= 8 * data.Length && at + (n + 7) / 8 <= out.Length
      requires out != data
      modifies out
      ensures Octets(out[at..at + (n + 7) / 8])[..n] == Stream()[Pos()..Pos() + n]
      ensures out[..at] == old(out[..at]) && out[at + (n + 7) / 8..] == old(out[at + (n + 7) / 8..])
    {
      hide Octets;
      var nbytes := (n + 7) / 8;
      forall k | 0 <= k < nbytes {
        out[at + k] := data[byteIndex + k];
      }
      assert out[at..at + nbytes] == data[byteIndex..byteIndex + nbytes];
      assert data[..][byteIndex..byteIndex + nbytes] == data[byteIndex..byteIndex + nbytes];
      OctetsSlice(data[..], byteIndex, byteIndex + nbytes);
      SlicePrefix(Stream(), 8 * byteIndex, 8 * (byteIndex + nbytes), n);
    }

    /** Clears the unused bits of the octet that holds only `m` bits. */
    method MaskLast(out: array<Byte>, at: nat, k: nat, m: nat)
      requires 0 < m < 8 && at + k < out.Length
      modifies out
      ensures Octets(out[at..at + k + 1]) == old(Octets(out[at..at + k + 1]))[..8 * k + m] + Bits(0, 8 - m)
      ensures out[..at] == old(out[..at]) && out[at + k + 1..] == old(out[at + k + 1..])
    {
      hide Octets, And, Bits;
      ghost var s := out[at..at + k + 1];
      var mask := Mask(m);
      HighMask(out[at + k], m);
      MaskedLast(s, k, m);
      out[at + k] := And(out[at + k], mask);
      assert out[at..at + k + 1] == s[..k] + [And(s[k], mask)];
    }

    /** The mask for the `n` high bits of an octet. */
    method Mask(n: nat) returns (mask: Byte)
      requires n < 8
      ensures mask == HIGH_MASKS[n]
    {
      hide Or;
      mask := 0;
      for j := 0 to n
        invariant mask == HIGH_MASKS[j]
      {
        OneMoreHigh(mask / 2);
        mask := Or(mask / 2, 0x80);
      }
    }

    /** Octets that do not start at the start of an octet of the buffer. The unused bits of a partial last
        octet may be anything.
     */
    method DecodeShifted(out: array<Byte>, at: nat, n: nat)
      requires bitOffset < 8 && Pos() + n <= 8 * data.Length && at + (n + 7) / 8 <= out.Length && out != data
      requires Oversteps(n) ==> at + n / 8 < out.Length
      modifies this, out
      ensures Readable() && bitOffset > 0 && Pos() == old(Pos()) + n
      ensures Octets(out[at..at + (n + 7) / 8])[..n] == Stream()[old(Pos())..old(Pos()) + n]
      ensures out[..at] == old(out[..at])
      ensures out[at + (n + 7) / 8..] == Behind(old(out[..]), at + (n + 7) / 8, old(Oversteps(n)))
    {
      hide Octets, Shl, Low, Behind;
      ghost var p, c := Pos(), Oversteps(n);
      ghost var was := out[..];
      var rest := ShiftOctets(out, at, n);
      assert n == 8 * (n / 8) + rest && (n + 7) / 8 == n / 8 + if rest > 0 then 1 else 0;
      assert out[..][at + n / 8..] == was[at + n / 8..];
      BehindSame(out[..], was, at + n / 8, at + (n + 7) / 8, c);
      ShiftEnd(out, at, n / 8, rest, p);
    }

    /** What is done behind `k` whole octets. */
    method ShiftEnd(out: array<Byte>, at: nat, k: nat, rest: nat, ghost p: nat)
      requires bitOffset < 8 && rest < 8 && Pos() == p + 8 * k && Pos() + rest <= 8 * data.Length && out != data
      requires if rest > 0 || bitOffset == 0 then at + k < out.Length else at + k <= out.Length
      requires bitOffset == 0 && rest == 0 ==> byteIndex < data.Length
      requires Octets(out[at..at + k]) == Stream()[p..p + 8 * k]
      modifies this, out
      ensures var e := if rest > 0 then at + k + 1 else at + k;
        && Readable() && bitOffset > 0 && Pos() == p + 8 * k + rest && e <= out.Length
        && Octets(out[at..e])[..8 * k + rest] == Stream()[p..p + 8 * k + rest]
        && out[..at] == old(out[..at])
        && out[e..] == Behind(old(out[..]), e, old(bitOffset) == 0 && rest == 0)
    {
      hide Octets, Behind;
      ghost var was := out[..];
      if rest > 0 {
        ShiftRest(out, at, k, rest, p);
        NothingBehind(was, at + k + 1);
      } else if bitOffset == 0 {
        StepOver(out, at + k);
        ClearedBehind(was, at + k);
      } else {
        NothingBehind(was, at + k);
      }
    }

    method ShiftRest(out: array<Byte>, at: nat, k: nat, rest: nat, ghost p: nat)
      requires bitOffset < 8 && 0 < rest < 8 && Pos() == p + 8 * k && Pos() + rest <= 8 * data.Length
      requires at + k < out.Length && out != data && Octets(out[at..at + k]) == Stream()[p..p + 8 * k]
      modifies this, out
      ensures Readable() && bitOffset > 0 && Pos() == p + 8 * k + rest
      ensures Octets(out[at..at + k + 1])[..8 * k + rest] == Stream()[p..p + 8 * k + rest]
      ensures out[..at] == old(out[..at]) && out[at + k + 1..] == old(out[at + k + 1..])
    {
      hide Octets;
      ghost var s := out[at..at + k];
      var b := ShiftPart(rest);
      PutOctet(out, at, at + k, b);
      AppendPart(s, b, Stream(), p, rest);
    }

    /** At `bitOffset == 0` whole octets are followed by an empty partial one, which is stored as well. */
    method StepOver(out: array<Byte>, i: nat)
      requires bitOffset == 0 && byteIndex < data.Length && i < out.Length && out != data
      modifies this, out
      ensures Readable() && bitOffset == 8 && Pos() == old(Pos())
      ensures out[..i] == old(out[..i]) && out[i] == 0 && out[i + 1..] == old(out[i + 1..])
    {
      ShiftedOut(data[byteIndex]);
      out[i] := Low(Shl(data[byteIndex], 8), 8);
      byteIndex := byteIndex + 1;
      bitOffset := 8;
    }

    method PutOctet(out: array<Byte>, at: nat, i: nat, b: Byte)
      requires at <= i < out.Length
      modifies out
      ensures out[..at] == old(out[..at]) && out[i + 1..] == old(out[i + 1..])
      ensures out[at..i + 1] == old(out[at..i]) + [b]
      ensures out[i] == b && out[at..i] == old(out[at..i])
    {
      out[i] := b;
    }

    method ShiftOctets(out: array<Byte>, at: nat, n: nat) returns (rest: nat)
      requires bitOffset < 8 && Pos() + n <= 8 * data.Length && at + n / 8 <= out.Length && out != data
      modifies this`byteIndex, out
      ensures rest == n % 8 && Pos() == old(Pos()) + n - rest
      ensures Octets(out[at..at + n / 8]) == Stream()[old(Pos())..old(Pos()) + n - rest]
      ensures out[..at] == old(out[..at]) && out[at + n / 8..] == old(out[at + n / 8..])
    {
      hide Octets, Or, Shl, Shr, Low, Bits;
      ghost var p := Pos();
      var rshift, lshift := bitOffset, 8 - bitOffset;
      var i := 0;
      rest := n;
      NoOctets();
      while rest >= 8
        invariant n == 8 * i + rest && Pos() == p + 8 * i
        invariant Octets(out[at..at + i]) == Stream()[p..p + 8 * i]
        invariant out[..at] == old(out[..at]) && out[at + i..] == old(out[at + i..])
      {
        ghost var s := out[at..at + i];
        ShiftedOctet(data[..], byteIndex, rshift);
        out[at + i] := Low(Shl(data[byteIndex], lshift), 8);
        byteIndex := byteIndex + 1;
        out[at + i] := Or(out[at + i], Shr(data[byteIndex], rshift));
        assert out[at..at + i + 1] == s + [out[at + i]];
        AppendOctet(s, out[at + i], Stream(), p);
        i := i + 1;
        rest := rest - 8;
      }
    }

    /** The last `rest` bits, at the high end of an octet. */
    method ShiftPart(rest: nat) returns (b: Byte)
      requires bitOffset < 8 && 0 < rest < 8 && Pos() + rest <= 8 * data.Length
      modifies this
      ensures Readable() && bitOffset > 0 && Pos() == old(Pos()) + rest
      ensures Bits(Shr(b, 8 - rest), rest) == Stream()[old(Pos())..old(Pos()) + rest]
    {
      hide Octets, Or, Shl, Shr, Low, Bits;
      var rshift, lshift := bitOffset, 8 - bitOffset;
      ShiftedPart(data[..], byteIndex, rshift, rest);
      b := Low(Shl(data[byteIndex], lshift), 8);
      if rest >= rshift {
        byteIndex := byteIndex + 1;
        if rest > rshift {
          b := Or(b, Shr(data[byteIndex], rshift));
        }
        bitOffset := 8 - (rest - rshift);
      } else {
        bitOffset := rshift - rest;
      }
    }
  }
}
