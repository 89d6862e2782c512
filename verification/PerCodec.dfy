/** The aligned PER encoder and decoder: every operation on a buffer is proved against the bit string
    that it appends, or against what it makes of the bit string in front of it.
 */
module PerCodec {
  import opened BitStrings
  import opened PerBuffer
  import opened PerCoding

  // ---- Encoding

  /** Returns how many items the fragment takes. */
  method EncodeLength(c: Buffer, n: U32) returns (enclen: nat)
    requires c.Writable() && c.Room(|EncLength(c.Pos(), n)|)
    modifies c, c.data
    ensures c.Writable() && c.bitOffset == 8 && c.Written() == old(c.Written()) + EncLength(old(c.Pos()), n)
    ensures enclen == Part(n)
  {
    hide LengthBits, Padding, Part;
    ghost var w, pad := c.Written(), Padding(c.Pos());
    c.EncodeByteAlign();
    enclen := EncodeLengthBits(c, n);
    assert w + pad + LengthBits(n) == w + (pad + LengthBits(n));
  }

  method EncodeLengthBits(c: Buffer, n: U32) returns (enclen: nat)
    requires c.Writable() && c.bitOffset == 8 && c.Room(|LengthBits(n)|)
    modifies c, c.data
    ensures c.Writable() && c.bitOffset == 8 && c.Written() == old(c.Written()) + LengthBits(n)
    ensures enclen == Part(n)
  {
    hide Bits;
    if n < 128 {
      c.EncodeBits(n, 8);
      enclen := n;
    } else if n < 16384 {
      EncodeMedium(c, n);
      enclen := n;
    } else {
      enclen := EncodeMultiplier(c, n);
    }
  }

  method EncodeMedium(c: Buffer, n: U32)
    requires c.Writable() && c.bitOffset == 8 && c.Room(16)
    modifies c, c.data
    ensures c.Writable() && c.bitOffset == 8 && c.Written() == old(c.Written()) + ([true] + Bits(n, 15))
  {
    hide Bits;
    ghost var w := c.Written();
    c.EncodeBit(true);
    c.EncodeBits(n, 15);
    assert c.Written() == w + ([true] + Bits(n, 15));
  }

  method EncodeMultiplier(c: Buffer, n: U32) returns (enclen: nat)
    requires c.Writable() && c.bitOffset == 8 && c.Room(8) && n >= 16384
    modifies c, c.data
    ensures var multiplier := if n / 16384 < 4 then n / 16384 else 4;
      && enclen == 16384 * multiplier && c.Writable() && c.bitOffset == 8
      && c.Written() == old(c.Written()) + ([true] + [true] + Bits(multiplier, 6))
  {
    hide Bits;
    ghost var w := c.Written();
    var multiplier := if n / 16384 < 4 then n / 16384 else 4;
    c.EncodeBit(true);
    c.EncodeBit(true);
    c.EncodeBits(multiplier, 6);
    enclen := 16384 * multiplier;
    assert c.Written() == w + ([true] + [true] + Bits(multiplier, 6));
  }

  /** One fragment of an octet string: as much of it as its length determinant allows. */
  method EncodeFragment(c: Buffer, s: seq<Byte>) returns (enclen: nat)
    requires c.Writable() && |s| < 0x1_0000_0000 && c.Room(|EncFragment(c.Pos(), s)|)
    modifies c, c.data
    ensures c.Writable() && c.Written() == old(c.Written()) + EncFragment(old(c.Pos()), s)
    ensures enclen == Part(|s|)
  {
    hide EncLength, Octets, Part;
    ghost var w := c.Written();
    OctetsTo(s, Part(|s|));
    enclen := EncodeLength(c, |s|);
    NoPadding(c.Pos());
    if enclen > 0 {
      c.EncodeByteAlign();
      c.EncodeOctets(s, enclen * 8);
    } else {
      NoOctets();
      assert s[..0] == [];
    }
    assert c.Written() == w + (EncLength(|w|, |s|) + Octets(s[..Part(|s|)]));
  }

  method EncodeOctetString(c: Buffer, s: seq<Byte>)
    requires c.Writable() && |s| < 0x1_0000_0000 && c.Room(|EncOctetString(c.Pos(), s)|)
    modifies c, c.data
    ensures c.Writable() && c.Written() == old(c.Written()) + EncOctetString(old(c.Pos()), s)
  {
    hide EncFragment, EncOctetString, Part;
    ghost var w, all := c.Written(), c.Written() + EncOctetString(c.Pos(), s);
    var numocts: nat, octidx: nat := |s|, 0;
    assert s[0..] == s;
    while true
      invariant c.Writable() && octidx + numocts == |s| && |c.Written()| + 24 <= |all| + 24 <= 8 * c.data.Length
      invariant all == c.Written() + EncOctetString(c.Pos(), s[octidx..])
      decreases numocts
    {
      ghost var rest, at := s[octidx..], c.Pos();
      NextFragment(at, rest);
      assert all == c.Written() + EncOctetString(at, rest);
      var enclen := EncodeFragment(c, s[octidx..]);
      if enclen < numocts {
        assert rest[enclen..] == s[octidx + enclen..];
        numocts := numocts - enclen;
        octidx := octidx + enclen;
      } else {
        break;
      }
    }
  }

  lemma NextFragment(at: nat, s: seq<Byte>)
    ensures EncOctetString(at, s) == EncFragment(at, s)
      + if Part(|s|) < |s| then EncOctetString(at + |EncFragment(at, s)|, s[Part(|s|)..]) else []
    ensures Part(|s|) == 0 ==> s == []
  {
  }

  method EncodeConsWholeNumber(c: Buffer, a: U32, range: U32) returns (stat: Stat)
    requires c.Writable() && range > 0 && c.Room(|EncWhole(c.Pos(), a, range)|)
    modifies c, c.data
    ensures stat == if a >= range && range != UINT_MAX then RangErr else Ok
    ensures c.Writable()
    ensures c.Written() == old(c.Written()) + if stat == Ok then EncWhole(old(c.Pos()), a, range) else []
  {
    hide Bits, BitCount, Padding;
    stat := Ok;
    if a >= range && range != UINT_MAX {
      return RangErr;
    }
    if range <= 255 {
      BitCountSmall(range - 1);
      c.EncodeBits(a, BitCount(range - 1));
    } else if range == 256 {
      EncodeAligned(c, a, 8);
    } else if range <= 65536 {
      EncodeAligned(c, a, 16);
    } else {
      EncodeLarge(c, a);
    }
  }

  method EncodeAligned(c: Buffer, a: U32, n: nat)
    requires c.Writable() && n <= 32 && c.Room(|Padding(c.Pos())| + n)
    modifies c, c.data
    ensures c.Writable() && c.Written() == old(c.Written()) + (Padding(old(c.Pos())) + Bits(a, n))
  {
    hide Bits, Padding;
    ghost var w, pad := c.Written(), Padding(c.Pos());
    c.EncodeByteAlign();
    c.EncodeBits(a, n);
    assert w + pad + Bits(a, n) == w + (pad + Bits(a, n));
  }

  /** A number with its octet count in front. */
  method EncodeLarge(c: Buffer, a: U32)
    requires c.Writable() && c.Room(2 + |Padding(c.Pos() + 2)| + 8 * OctetCount(a))
    modifies c, c.data
    ensures c.Writable()
    ensures c.Written() == old(c.Written()) +
      (Bits(OctetCount(a) - 1, 2) + Padding(old(c.Pos()) + 2) + Bits(a, 8 * OctetCount(a)))
  {
    hide Bits, Padding;
    ghost var w, pad := c.Written(), Padding(c.Pos() + 2);
    var nocts := if a < 256 then 1 else if a < 65536 then 2 else if a < 0x100_0000 then 3 else 4;
    c.EncodeBits(nocts - 1, 2);
    c.EncodeByteAlign();
    EncodeNonNegBinInt(c, a);
    assert w + Bits(nocts - 1, 2) + pad + Bits(a, 8 * nocts) == w + (Bits(nocts - 1, 2) + pad + Bits(a, 8 * nocts));
  }

  lemma BitCountSmall(v: U32)
    requires v < 255
    ensures BitCount(v) <= 8
  {
  }

  method EncodeNonNegBinInt(c: Buffer, a: U32)
    requires c.Writable() && c.bitOffset > 0 && c.Room(8 * OctetCount(a))
    modifies c, c.data
    ensures c.Writable() && c.Written() == old(c.Written()) + Bits(a, 8 * OctetCount(a))
  {
    hide Bits, BitCount;
    var bitcnt := if a == 0 then 1 else BitCount(a);
    OctetCountIs(a);
    bitcnt := (bitcnt + 7) / 8 * 8;
    c.EncodeBits(a, bitcnt);
  }

  method EncodeConsInteger(c: Buffer, value: I32, lower: I32, upper: I32) returns (stat: Stat)
    requires c.Writable() && (lower == -0x8000_0000 ==> upper <= 0)
    requires var e := EncConsInteger(c.Pos(), value, lower, upper); c.Room(if e.Out? then |e.bits| else 0)
    modifies c, c.data
    ensures c.Writable()
    ensures match EncConsInteger(old(c.Pos()), value, lower, upper)
      case Out(e) => stat == Ok && c.Written() == old(c.Written()) + e
      case Rejected(s) => stat == s && c.Written() == old(c.Written())
  {
    hide EncWhole;
    if value < lower || value > upper {
      return ConsVio;
    }
    var range, offset: U32;
    if (upper > 0 && lower >= 0) || (upper <= 0 && lower < 0) {
      range, offset := Wrap(upper - lower), Wrap(value - lower);
    } else {
      range, offset := Wrap(upper + Abs(lower)), Wrap(value + Abs(lower));
    }
    if range != UINT_MAX {
      range := range + 1;
    }
    SameRange(value, lower, upper);
    if range == 0 || lower > upper {
      stat := RangErr;
    } else if lower != upper {
      stat := EncodeConsWholeNumber(c, offset, range);
    } else {
      stat := Ok;
    }
  }

  // ---- Two's complement

  /** `v` without its `k` low octets. */
  ghost function Drop(v: int, k: nat): int
    decreases k
  {
    if k == 0 then v else Drop(v / 256, k - 1)
  }

  lemma {:induction false} DropOne(v: int, k: nat)
    ensures Drop(v, k + 1) == Drop(v, k) / 256
    decreases k
  {
    if k > 0 {
      DropOne(v / 256, k - 1);
    }
  }

  /** The next octet goes in front. */
  lemma {:induction false} TwosFront(v: int, k: nat)
    ensures TwosOctets(v, k + 1) == [Drop(v, k) % 256] + TwosOctets(v, k)
    decreases k
  {
    if k > 0 {
      TwosFront(v / 256, k - 1);
    }
  }

  lemma {:induction false} DropSmall(v: int, k: nat)
    requires k <= 4 && -0x8000_0000 <= v < 0x8000_0000
    ensures v >= 0 ==> Drop(v, k) >= 0
    ensures v < 0 ==> Drop(v, k) < 0
    ensures k == 4 ==> -1 <= Drop(v, k) <= 0
  {
    if k > 0 {
      DropOne(v, k - 1);
      DropSmall(v, k - 1);
    }
    if k == 4 {
      DropOne(v, 0);
      DropOne(v, 1);
      DropOne(v, 2);
    }
  }

  /** When only the sign is left, the highest octet tells whether it shows the sign. */
  lemma TwosCountIs(v: I32, k: nat)
    requires 0 < k <= 4 && (k > 1 ==> Drop(v, k - 1) != 0 && Drop(v, k - 1) != -1)
    requires -1 <= Drop(v, k) <= 0
    ensures TwosCount(v) ==
      if (v > 0 && Drop(v, k - 1) % 256 >= 128) || (v < 0 && Drop(v, k - 1) % 256 < 128) then k + 1 else k
  {
    hide Drop;
    NoTwos(v);
    DropOne(v, 0);
    if k >= 2 {
      DropOne(v, 1);
    }
    if k >= 3 {
      DropOne(v, 2);
    }
    if k >= 4 {
      DropOne(v, 3);
    }
  }

  /** One step of the division loop: truncation with the adjustment for negative numbers is division
      towards minus infinity, except that it may stop at 0 instead of -1.
   */
  lemma Divided(temp: int)
    ensures var t := Quotient(temp, 256);
      var u := if t < 0 && temp % 256 != 0 then t - 1 else t;
      u == temp / 256 || (u == 0 && temp / 256 == -1)
  {
  }

  /** The octet that one step of the division loop puts in front. */
  lemma OctetOff(value: I32, k: nat, temp: int)
    requires k <= 4 && (temp == Drop(value, k) || (k > 0 && temp == 0 && Drop(value, k) == -1))
    requires k == 0 || (temp != 0 && temp != -1)
    ensures k < 4 && TwosOctets(value, k + 1) == [temp % 256] + TwosOctets(value, k)
    ensures temp == Drop(value, k)
    ensures var t := Quotient(temp, 256);
      var u := if t < 0 && temp % 256 != 0 then t - 1 else t;
      u == Drop(value, k + 1) || (u == 0 && Drop(value, k + 1) == -1)
  {
    hide Drop, TwosOctets, Quotient;
    DropSmall(value, k);
    DropOne(value, k);
    TwosFront(value, k);
    Divided(temp);
  }

  /** The octets of the two's complement, the low ones first, in a local buffer. */
  method TwosBuffer(value: I32) returns (s: seq<Byte>)
    ensures s == TwosOctets(value, TwosCount(value))
  {
    hide TwosOctets, TwosCount, Drop, Quotient;
    var lbuf := new Byte[8](_ => 0);
    var i, temp: int, lb: Byte := 8, value, 0;
    var again := true;
    NoTwos(value);
    while again
      invariant 4 <= i <= 8
      invariant lbuf[..][i..] == TwosOctets(value, 8 - i)
      invariant forall k :: 0 <= k < i ==> lbuf[k] == 0
      invariant temp == Drop(value, 8 - i) || (i < 8 && temp == 0 && Drop(value, 8 - i) == -1)
      invariant i < 8 ==> lb == Drop(value, 7 - i) % 256
      invariant 1 < 8 - i ==> Drop(value, 7 - i) != 0 && Drop(value, 7 - i) != -1
      invariant again <==> i == 8 || (temp != 0 && temp != -1)
      decreases i
    {
      OctetOff(value, 8 - i, temp);
      ghost var d := lbuf[..];
      lb := temp % 256;
      temp := Quotient(temp, 256);
      if temp < 0 && lb != 0 {
        temp := temp - 1;
      }
      i := i - 1;
      lbuf[i] := lb;
      Slid(d, i, lb, lbuf[..]);
      again := temp != 0 && temp != -1;
    }
    DropSmall(value, 8 - i);
    TwosCountIs(value, 8 - i);
    TwosFront(value, 8 - i);
    assert lbuf[i..] == lbuf[..][i..];
    i := SignOctet(lbuf, i, value, lb);
    s := lbuf[i..];
  }

  lemma Slid(d: seq<Byte>, i: nat, x: Byte, e: seq<Byte>)
    requires i < |d| && e == d[i := x]
    ensures e[i..] == [x] + d[i + 1..]
  {
  }

  /** An octet for the sign, when the highest octet so far does not show it. */
  method SignOctet(lbuf: array<Byte>, start: nat, value: I32, lb: Byte) returns (i: nat)
    requires 0 < start <= lbuf.Length == 8 && lbuf[start - 1] == 0
    modifies lbuf
    ensures i <= 8
    ensures lbuf[i..] ==
      (if value > 0 && lb >= 128 then [0] else if value < 0 && lb < 128 then [0xff] else []) + old(lbuf[start..])
  {
    i := start;
    if value > 0 && lb >= 128 {
      i := i - 1;
    } else if value < 0 && lb < 128 {
      i := i - 1;
      lbuf[i] := 0xff;
    }
  }

  lemma NoTwos(v: int)
    ensures TwosOctets(v, 0) == [] && Drop(v, 0) == v
  {
  }

  method Encode2sCompBinInt(c: Buffer, value: I32)
    requires c.Writable() && c.Room(8 * TwosCount(value))
    modifies c, c.data
    ensures c.Writable() && c.Written() == old(c.Written()) + Octets(TwosOctets(value, TwosCount(value)))
  {
    hide Octets, TwosOctets, TwosCount;
    var s := TwosBuffer(value);
    assert Octets(s)[..8 * |s|] == Octets(s);
    c.EncodeOctets(s, |s| * 8);
  }

  /** The length loop looks for nine equal leading bits. */
  method TwosLength(v: I32) returns (nbytes: nat)
    ensures nbytes == TwosCount(v)
  {
    hide Pow2;
    var shift := 23;
    while shift > 0
      invariant shift == 23 || shift == 15 || shift == 7 || shift == -1
      invariant shift < 23 ==> -0x80_0000 <= v < 0x80_0000
      invariant shift < 15 ==> -0x8000 <= v < 0x8000
      invariant shift < 7 ==> -0x80 <= v < 0x80
    {
      NineBits(v, shift);
      var temp := v / Pow2(shift) % 0x200;
      if temp != 0 && temp != 0x1ff {
        break;
      }
      shift := shift - 8;
    }
    nbytes := (shift + 9) / 8;
  }

  method EncodeSemiConsInteger(c: Buffer, value: I32, lower: I32)
    requires c.Writable() && -0x8000_0000 <= value - Base(lower) < 0x8000_0000
    requires c.Room(|EncTwos(c.Pos(), value - Base(lower))|)
    modifies c, c.data
    ensures c.Writable() && c.Written() == old(c.Written()) + EncTwos(old(c.Pos()), value - Base(lower))
  {
    hide EncLength, Octets, TwosOctets, TwosCount, Padding;
    ghost var w, at := c.Written(), c.Pos();
    var v: I32 := if lower > -0x8000_0000 then value - lower else value;
    var nbytes := TwosLength(v);
    var len := EncodeLength(c, nbytes);
    NoPadding(c.Pos());
    c.EncodeByteAlign();
    Encode2sCompBinInt(c, v);
    assert c.Written() == w + (EncLength(at, nbytes) + Octets(TwosOctets(v, nbytes)));
  }

  lemma NineBits(v: I32, shift: nat)
    requires shift == 23 || shift == 15 || shift == 7
    requires shift < 23 ==> -0x80_0000 <= v < 0x80_0000
    requires shift < 15 ==> -0x8000 <= v < 0x8000
    ensures var temp := v / Pow2(shift) % 0x200;
      (temp == 0 || temp == 0x1ff) <==>
        if shift == 23 then -0x80_0000 <= v < 0x80_0000
        else if shift == 15 then -0x8000 <= v < 0x8000
        else -0x80 <= v < 0x80
  {
    hide Pow2;
    PowersBelow(shift);
    if shift == 23 {
      assert -0x100 <= v / 0x80_0000 < 0x100;
    } else if shift == 15 {
      assert -0x100 <= v / 0x8000 < 0x100;
    } else {
      assert -0x100 <= v / 0x80 < 0x100;
    }
  }

  // ---- Object identifiers

  /** The seven bits at `k`, cut out with a mask of 32 bits. */
  lemma {:induction false} ShrAnd(a: nat, b: nat, n: nat)
    ensures Shr(And(a, b), n) == And(Shr(a, n), Shr(b, n))
  {
    if n == 0 {
    } else {
      ShrAnd(a / 2, b / 2, n - 1);
      AndNone(a);
      AndNone(a / 2);
      NoneAnd(n);
    }
  }

  lemma {:induction false} NoneAnd(n: nat)
    ensures Shr(0, n) == 0
  {
    if n > 0 {
      NoneAnd(n - 1);
    }
  }

  /** `v` without its `n` low groups of seven bits. */
  ghost function Groups(v: nat, n: nat): nat {
    if n == 0 then v else Groups(v, n - 1) / 128
  }

  lemma {:induction false} GroupsShr(v: nat, n: nat)
    ensures Groups(v, n) == Shr(v, 7 * n)
  {
    if n > 0 {
      GroupsShr(v, n - 1);
      ShrShr(v, 7 * (n - 1), 7);
      ShrDiv(Shr(v, 7 * (n - 1)), 7);
      SmallPowers();
    }
  }

  lemma SevenBits(ident: U32, n: nat)
    requires n < 5
    ensures var mask := Low(Shl(0x7f, 7 * n), 32);
      Shr(And(ident, mask), 7 * n) == Groups(ident, n) % 128
  {
    var mask := Low(Shl(0x7f, 7 * n), 32);
    ShrAnd(ident, mask, 7 * n);
    ShrOfLow(Shl(0x7f, 7 * n), 32, 7 * n);
    ShrShl(0x7f, 7 * n);
    GroupsShr(ident, n);
    SevenLeft(ident, n);
  }

  lemma SevenLeft(ident: U32, n: nat)
    requires n < 5
    ensures And(Shr(ident, 7 * n), Low(0x7f, 32 - 7 * n)) == Shr(ident, 7 * n) % 128
  {
    hide And, Low, Shr, Pow2;
    var x := Shr(ident, 7 * n);
    SmallPowers();
    if n < 4 {
      PowersBelow(32 - 7 * n);
      ShrSmall(0x7f, 32 - 7 * n);
      AndLow(x, 7);
      ShrDiv(x, 7);
    } else {
      Pow32();
      ShrBelow(ident, 4, 28);
      ShrDiv(0x7f, 4);
      AndLow(x, 4);
      ShrSmall(x, 4);
    }
  }

  lemma {:induction false} GroupsGone(v: U32)
    ensures Groups(v, IdentCount(v)) == 0
  {
    assert Groups(v, 1) == v / 128;
    assert Groups(v, 2) == v / 128 / 128;
    assert Groups(v, 3) == v / 128 / 128 / 128;
    assert Groups(v, 4) == v / 128 / 128 / 128 / 128;
    assert Groups(v, 5) == v / 128 / 128 / 128 / 128 / 128;
  }

  lemma {:induction false} NoGroups(m: nat, last: bool)
    ensures m == 0 ==> IdentOctets(0, m, last) == [] && Octets(IdentOctets(0, m, last)) == []
  {
  }

  /** One more group of seven bits. */
  lemma OneGroup(v: U32, n: nat, m: nat, last: bool, x: Byte)
    requires x == Groups(v, n) % 128 + if last then 0 else 128
    ensures Octets(IdentOctets(Groups(v, n), m + 1, last)) ==
      Octets(IdentOctets(Groups(v, n + 1), m, false)) + Bits(x, 8)
  {
    OctetsConcat(IdentOctets(Groups(v, n + 1), m, false), [x]);
    OctetsOne(x);
  }

  method EncodeIdent(c: Buffer, ident: U32)
    requires c.Writable() && c.Room(8 * IdentCount(ident))
    modifies c, c.data
    ensures c.Writable() && c.Written() == old(c.Written()) + Octets(IdentOctets(ident, IdentCount(ident), true))
  {
    hide Octets, Bits, Groups, IdentOctets, And, Or, Shl, Shr, Low, Pow2;
    ghost var w, n := c.Written(), IdentCount(ident);
    if ident == 0 {
      c.EncodeBits(0, 8);
      ZeroIdent();
      return;
    }
    GroupsGone(ident);
    NoGroups(0, false);
    var nshifts: nat := IdentCount(ident);
    while nshifts > 0
      invariant nshifts <= n && c.Writable() && |c.Written()| + 8 * nshifts + 24 <= 8 * c.data.Length
      invariant c.Written() == w + Octets(IdentOctets(Groups(ident, nshifts), n - nshifts, nshifts == 0))
    {
      var mask := Low(Shl(0x7f, 7 * (nshifts - 1)), 32);
      nshifts := nshifts - 1;
      SevenBits(ident, nshifts);
      var lv := Shr(And(ident, mask), nshifts * 7);
      if nshifts != 0 {
        OneMoreHigh(lv);
        lv := Or(lv, 0x80);
      }
      OneGroup(ident, nshifts, n - nshifts - 1, nshifts == 0, lv);
      c.EncodeBits(lv, 8);
    }
    AllGroups(ident);
  }

  lemma ZeroIdent()
    ensures Octets(IdentOctets(0, 1, true)) == Bits(0, 8)
  {
    assert IdentOctets(0, 1, true) == IdentOctets(0, 0, false) + [0];
    OctetsOne(0);
  }

  lemma AllGroups(v: U32)
    ensures Groups(v, 0) == v
  {
  }

  method DeclaredLength(ids: Oid) returns (len: nat)
    requires |ids| <= MAX_SUBIDS
    ensures len == OidLength(ids) < 16384
  {
    hide IdentCount;
    len := 1;
    var i := 2;
    while i < |ids|
      invariant 2 <= i && (i <= |ids| || len == OidLength(ids))
      invariant i <= |ids| ==> len + IdentCounts(ids[i..]) == OidLength(ids)
      decreases |ids| - i
    {
      assert ids[i..][1..] == ids[i + 1..];
      len := len + IdentCount(ids[i]);
      i := i + 1;
    }
    CountsBound(ids[if |ids| < 2 then |ids| else 2..]);
  }

  lemma {:induction false} OidAppend(ids: Oid, v: U32)
    ensures OidOctets(ids + [v]) == OidOctets(ids) + IdentOctets(v, IdentCount(v), true)
    ensures IdentCounts(ids + [v]) == IdentCounts(ids) + IdentCount(v)
  {
    if ids != [] {
      assert (ids + [v])[1..] == ids[1..] + [v];
      OidAppend(ids[1..], v);
    }
  }

  lemma {:induction false} CountsOfMore(ids: Oid, k: nat)
    requires k <= |ids|
    ensures IdentCounts(ids[..k]) <= IdentCounts(ids)
  {
    if k > 0 {
      assert ids[..k][1..] == ids[1..][..k - 1];
      CountsOfMore(ids[1..], k - 1);
    }
  }

  /** What the `i`-th subidentifier adds. */
  lemma NextIdent(first: U32, ids: Oid, all: Oid, i: nat)
    requires 2 <= i < |ids| && all == [first] + ids[2..]
    ensures var done := [first] + ids[2..i];
      var more := [first] + ids[2..i + 1];
      && Octets(OidOctets(more)) ==
        Octets(OidOctets(done)) + Octets(IdentOctets(ids[i], IdentCount(ids[i]), true))
      && IdentCounts(done) + IdentCount(ids[i]) <= IdentCounts(all)
      && IdentCounts(more) == IdentCounts(done) + IdentCount(ids[i])
  {
    hide Octets, IdentOctets, IdentCount, OidOctets, IdentCounts;
    var done := [first] + ids[2..i];
    assert all[..i] == done + [ids[i]];
    CountsOfMore(all, i);
    OidAppend(done, ids[i]);
    OctetsConcat(OidOctets(done), IdentOctets(ids[i], IdentCount(ids[i]), true));
    assert [first] + ids[2..i + 1] == done + [ids[i]];
  }

  /** The subidentifiers, one after the other. */
  method EncodeIdents(c: Buffer, first: U32, ids: Oid, ghost all: Oid)
    requires c.Writable() && 2 <= |ids| && all == [first] + ids[2..] && c.Room(8 * IdentCounts(all))
    modifies c, c.data
    ensures c.Writable() && c.Written() == old(c.Written()) + Octets(OidOctets(all))
  {
    hide Octets, IdentOctets, IdentCount, OidOctets, IdentCounts, BitsTo, Low;
    ghost var w := c.Written();
    OneIdent(first);
    CountsOfMore(all, 1);
    assert all[..1] == [first] + ids[2..2];
    assert [first] + ids[2..2] == [first];
    EncodeIdent(c, first);
    for i := 2 to |ids|
      invariant c.Writable() && |w| + 8 * IdentCounts(all) + 24 <= 8 * c.data.Length
      invariant c.Written() == w + Octets(OidOctets([first] + ids[2..i]))
      invariant |c.Written()| == |w| + 8 * IdentCounts([first] + ids[2..i])
    {
      ghost var done := [first] + ids[2..i];
      NextIdent(first, ids, all, i);
      EncodeIdent(c, ids[i]);
    }
    assert ids[2..|ids|] == ids[2..];
  }

  lemma OneIdent(v: U32)
    ensures OidOctets([v]) == IdentOctets(v, IdentCount(v), true) && IdentCounts([v]) == IdentCount(v)
  {
    assert OidOctets([]) == [] && IdentCounts([]) == 0;
    assert [v][1..] == [];
  }

  /** On an identifier that breaks the rules the length has been written already. */
  method EncodeObjectIdentifier(c: Buffer, ids: Oid) returns (stat: Stat)
    requires c.Writable() && |ids| <= MAX_SUBIDS
    requires c.Room(if ValidOid(ids) then |EncOid(c.Pos(), ids)| else |EncLength(c.Pos(), OidLength(ids))|)
    modifies c, c.data
    ensures c.Writable() && stat == if ValidOid(ids) then Ok else InvObjId
    ensures c.Written() == old(c.Written()) +
      if ValidOid(ids) then EncOid(old(c.Pos()), ids) else EncLength(old(c.Pos()), OidLength(ids))
  {
    hide Octets, EncLength, OidOctets, IdentCounts, OidLength, Part;
    ghost var w := c.Written();
    var len := DeclaredLength(ids);
    ghost var l := EncLength(c.Pos(), len);
    var enclen := EncodeLength(c, len);
    if |ids| < 2 || ids[0] > 2 || (ids[0] != 2 && ids[1] > 39) {
      return InvObjId;
    }
    ghost var all := [FirstTwo(ids)] + ids[2..];
    CountsBound(all);
    EncodeIdents(c, FirstTwo(ids), ids, all);
    assert c.Written() == w + (l + Octets(OidOctets(all)));
    stat := Ok;
  }

  // ---- Decoding

  method DecodeLength(c: Buffer) returns (n: nat, stat: Stat)
    requires c.Readable() && ParseLength(c.Stream(), c.Pos()) != Fail(PastEnd)
    modifies c
    ensures match ParseLength(c.Stream(), old(c.Pos()))
      case Got(l, q) =>
        && c.Readable() && c.Pos() == q && c.bitOffset == 8 && n == l.n && stat == if l.more then OkFrag else Ok
      case Fail(why) => why == Error(stat) && stat == EndOfBuf
  {
    hide ParseLengthAt;
    c.DecodeByteAlign();
    n, stat := DecodeLengthAt(c);
  }

  method DecodeLengthAt(c: Buffer) returns (n: nat, stat: Stat)
    requires c.Readable() && c.bitOffset == 8 && ParseLengthAt(c.Stream(), c.Pos()) != Fail(PastEnd)
    modifies c
    ensures match ParseLengthAt(c.Stream(), old(c.Pos()))
      case Got(l, q) =>
        && c.Readable() && c.Pos() == q && c.bitOffset == 8 && n == l.n && stat == if l.more then OkFrag else Ok
      case Fail(why) => why == Error(stat) && stat == EndOfBuf
  {
    hide Val, Octets;
    n := 0;
    var bitValue := c.DecodeBit();
    if !bitValue {
      n, stat := c.DecodeBits(7);
    } else {
      n, stat := DecodeLongLength(c, c.Pos() - 1);
    }
  }

  /** A length of two octets, or of a fragment, behind its first bit. */
  method DecodeLongLength(c: Buffer, ghost p: nat) returns (n: nat, stat: Stat)
    requires c.Readable() && c.bitOffset == 7 && c.Pos() == p + 1 && c.Stream()[p]
    requires ParseLengthAt(c.Stream(), p) != Fail(PastEnd)
    modifies c
    ensures match ParseLengthAt(c.Stream(), p)
      case Got(l, q) =>
        && c.Readable() && c.Pos() == q && c.bitOffset == 8 && n == l.n && stat == if l.more then OkFrag else Ok
      case Fail(why) => why == Error(stat) && stat == EndOfBuf
  {
    hide Val, Octets;
    var bitValue := c.DecodeBit();
    if !bitValue {
      n, stat := c.DecodeBits(14);
    } else {
      var multiplier;
      multiplier, stat := c.DecodeBits(6);
      n := 16384 * multiplier;
      stat := OkFrag;
    }
  }

  method DecodeConsWholeNumber(c: Buffer, range: U32) returns (a: U32, stat: Stat)
    requires c.Readable() && range > 0
    modifies c
    ensures match ParseWhole(c.Stream(), old(c.Pos()), range)
      case Got(v, q) => stat == Ok && a == v && c.Readable() && c.Pos() == q
      case Fail(why) => why == Error(stat) && stat == EndOfBuf
  {
    hide Val, Octets, BitCount;
    var bitcnt: nat;
    a := 0;
    if range <= 255 {
      bitcnt := BitCount(range - 1);
    } else if range == 256 {
      c.DecodeByteAlign();
      bitcnt := 8;
    } else if range <= 65536 {
      c.DecodeByteAlign();
      bitcnt := 16;
    } else {
      bitcnt, stat := DecodeWidth(c);
      if stat != Ok {
        return;
      }
    }
    a, stat := c.DecodeBits(bitcnt);
  }

  /** The width of a number that has the count of its octets in front. */
  method DecodeWidth(c: Buffer) returns (bitcnt: nat, stat: Stat)
    requires c.Readable()
    modifies c
    ensures match ParseBits(c.Stream(), old(c.Pos()), 2)
      case Got(n, p) =>
        stat == Ok && n < 4 && bitcnt == (n + 1) * 8 && c.Readable() && c.bitOffset == 8 && c.Pos() == RoundUp(p)
      case Fail(why) => why == Error(stat) && stat == EndOfBuf
  {
    hide Val, Octets;
    var nocts;
    bitcnt := 0;
    nocts, stat := c.DecodeBits(2);
    if stat != Ok {
      return;
    }
    assert nocts < 4 by {
      SmallPowers();
    }
    c.DecodeByteAlign();
    bitcnt := (nocts + 1) * 8;
  }

  method DecodeConsInteger(c: Buffer, lower: I32, upper: I32) returns (value: I32, stat: Stat)
    requires c.Readable()
    modifies c
    ensures match ParseConsInteger(c.Stream(), old(c.Pos()), lower, upper)
      case Got(v, q) => stat == Ok && value == v && c.Readable() && c.Pos() == q
      case Fail(why) => why == Error(stat) && stat != Ok
  {
    hide ParseWhole, Octets;
    var range := Wrap(upper - lower);
    value, stat := 0, Ok;
    if range != UINT_MAX {
      range := range + 1;
    }
    if lower > upper {
      stat := RangErr;
    } else if lower != upper {
      var adjusted: U32;
      adjusted, stat := DecodeConsWholeNumber(c, range);
      if stat == Ok {
        value := Signed(adjusted + lower);
        if value < lower || value > upper {
          stat := ConsVio;
        }
      }
    } else {
      value := lower;
    }
  }

  method DecodeFragment(c: Buffer, out: array<Byte>, octidx: nat) returns (n: nat, lstat: Stat)
    requires c.Readable() && octidx <= out.Length && out != c.data
    requires ParseFragment(c.Stream(), c.Pos(), out.Length - octidx) != Fail(PastEnd)
    modifies c, out
    ensures match ParseFragment(c.Stream(), old(c.Pos()), out.Length - octidx)
      case Got(f, q) =>
        && lstat == (if f.more then OkFrag else Ok) && n == |f.s| && octidx + n <= out.Length
        && out[..octidx] == old(out[..octidx]) && out[octidx..octidx + n] == f.s && c.Readable() && c.Pos() == q
      case Fail(why) => why == Error(lstat) && lstat != Ok && lstat != OkFrag
  {
    hide ParseLength, Octets, OctetsAt, Padding;
    ghost var b := c.Stream();
    n, lstat := DecodeLength(c);
    if lstat != Ok && lstat != OkFrag {
      return;
    }
    ghost var p := c.Pos();
    NoOctets();
    if n > 0 {
      var stat := DecodeAligned(c, out, octidx, n);
      if stat != Ok {
        lstat := stat;
        return;
      }
    }
    FromOctets(b, p, out[octidx..octidx + n]);
  }

  /** The octets of a fragment. */
  method DecodeAligned(c: Buffer, out: array<Byte>, octidx: nat, n: nat) returns (stat: Stat)
    requires c.Readable() && c.bitOffset == 8 && octidx <= out.Length && out != c.data
    modifies c, out
    ensures stat == if old(c.Pos()) + 8 * n > 8 * c.data.Length then EndOfBuf
      else if octidx + n > out.Length then StrOvflw else Ok
    ensures stat == Ok ==>
      && c.Readable() && c.Pos() == old(c.Pos()) + 8 * n && out[..octidx] == old(out[..octidx])
      && Octets(out[octidx..octidx + n]) == c.Stream()[old(c.Pos())..old(c.Pos()) + 8 * n]
  {
    hide Octets, Padding;
    c.DecodeByteAlign();
    NoPadding(8 * n);
    assert (n * 8 + 7) / 8 == n;
    stat := c.DecodeOctets(out, octidx, n * 8);
  }

  ghost function Prepend(s: seq<Byte>, r: Parsed<seq<Byte>>): Parsed<seq<Byte>> {
    match r
    case Got(t, q) => Got(s + t, q)
    case Fail(why) => Fail(why)
  }

  lemma PrependFail(s: seq<Byte>, r: Parsed<seq<Byte>>)
    ensures r.Fail? <==> Prepend(s, r).Fail?
    ensures r.Fail? ==> Prepend(s, r) == r
  {
  }

  lemma PrependNone(r: Parsed<seq<Byte>>)
    ensures Prepend([], r) == r
  {
    if r.Got? {
      assert [] + r.value == r.value;
    }
  }

  lemma PrependBoth(s: seq<Byte>, t: seq<Byte>, r: Parsed<seq<Byte>>)
    ensures Prepend(s, Prepend(t, r)) == Prepend(s + t, r)
  {
    if r.Got? {
      assert s + (t + r.value) == s + t + r.value;
    }
  }

  lemma ParseNext(b: seq<bool>, at: nat, cap: nat, front: seq<Byte>)
    requires |b| % 8 == 0 && at <= |b|
    ensures Prepend(front, ParseOctetString(b, at, cap)) ==
      match ParseFragment(b, at, cap)
      case Fail(why) => Fail(why)
      case Got(f, p) =>
        if f.more then Prepend(front + f.s, ParseOctetString(b, p, cap - |f.s|)) else Got(front + f.s, p)
  {
    hide ParseFragment;
    match ParseFragment(b, at, cap)
    case Fail(_) =>
    case Got(f, p) =>
      if f.more {
        PrependBoth(front, f.s, ParseOctetString(b, p, cap - |f.s|));
      }
  }

  method DecodeOctetString(c: Buffer, out: array<Byte>) returns (numocts: nat, stat: Stat)
    requires c.Readable() && out != c.data
    requires ParseOctetString(c.Stream(), c.Pos(), out.Length) != Fail(PastEnd)
    modifies c, out
    ensures match ParseOctetString(c.Stream(), old(c.Pos()), out.Length)
      case Got(s, q) =>
        stat == Ok && numocts == |s| <= out.Length && out[..numocts] == s && c.Readable() && c.Pos() == q
      case Fail(why) => why == Error(stat) && stat != Ok
  {
    hide ParseFragment, ParseOctetString, Prepend, Octets;
    ghost var b, at := c.Stream(), c.Pos();
    PrependNone(ParseOctetString(b, at, out.Length));
    var octidx := 0;
    numocts := 0;
    stat := OkFrag;
    assert out[..0] == [];
    while stat == OkFrag
      invariant numocts == octidx <= out.Length && (stat == OkFrag || stat == Ok)
      invariant c.Readable()
      invariant ParseOctetString(b, at, out.Length) == if stat == OkFrag
        then Prepend(out[..octidx], ParseOctetString(b, c.Pos(), out.Length - octidx)) else Got(out[..octidx], c.Pos())
      decreases if stat == OkFrag then |b| + 1 - c.Pos() else 0
    {
      ghost var front := out[..octidx];
      ParseNext(b, c.Pos(), out.Length - octidx, front);
      PrependFail(front, ParseOctetString(b, c.Pos(), out.Length - octidx));
      var octcnt;
      octcnt, stat := DecodeFragment(c, out, octidx);
      if stat != Ok && stat != OkFrag {
        return;
      }
      numocts := numocts + octcnt;
      octidx := octidx + octcnt;
      assert out[..octidx] == front + out[octidx - octcnt..octidx];
    }
  }

  lemma SignedStep(x: int, y: int)
    ensures Signed(Signed(x) * 256 + y) == Signed(x * 256 + y)
    ensures Signed(Signed(x) + y) == Signed(x + y)
  {
    var k := (x - Signed(x)) / 0x1_0000_0000;
    assert x - Signed(x) == k * 0x1_0000_0000;
    assert x * 256 + y == Signed(x) * 256 + y + 256 * k * 0x1_0000_0000;
    Turns(Signed(x) * 256 + y, 256 * k);
    Turns(Signed(x) + y, k);
  }

  lemma Turns(x: int, k: int)
    ensures Signed(x + k * 0x1_0000_0000) == Signed(x)
  {
  }

  /** The next octet of a two's complement number. */
  lemma TwosMore(b: seq<bool>, p: nat, k: nat, value: I32, x: Byte)
    requires k > 0 && p + 8 * k + 8 <= |b| && value == Signed(TwosValue(OctetsAt(b, p, k)))
    requires Octets([x]) == b[p + 8 * k..p + 8 * k + 8]
    ensures OctetsAt(b, p, k + 1) == OctetsAt(b, p, k) + [x]
    ensures Signed(value * 256 + x) == Signed(TwosValue(OctetsAt(b, p, k + 1)))
  {
    hide Octets, Signed;
    NextAt(b, p, k, x);
    var s := OctetsAt(b, p, k);
    assert (s + [x])[..k] == s;
    SignedStep(TwosValue(s), x);
  }

  lemma NextAt(b: seq<bool>, p: nat, k: nat, x: Byte)
    requires p + 8 * k + 8 <= |b| && Octets([x]) == b[p + 8 * k..p + 8 * k + 8]
    ensures OctetsAt(b, p, k + 1) == OctetsAt(b, p, k) + [x]
  {
    hide Octets, OctetsAt;
    var s := OctetsAt(b, p, k);
    OctetsConcat(s, [x]);
    assert b[p..p + 8 * (k + 1)] == b[p..p + 8 * k] + b[p + 8 * k..p + 8 * k + 8];
    OctetsInjective(OctetsAt(b, p, k + 1), s + [x]);
  }

  /** One octet into a local variable. */
  method DecodeOctet(c: Buffer) returns (x: Byte, stat: Stat)
    requires c.Readable() && c.bitOffset == 8
    modifies c
    ensures stat == if old(c.Pos()) + 8 > 8 * c.data.Length then EndOfBuf else Ok
    ensures stat == Ok ==> c.Readable() && c.bitOffset == 8 && c.Pos() == old(c.Pos()) + 8
    ensures stat == Ok ==> Octets([x]) == c.Stream()[old(c.Pos())..old(c.Pos()) + 8]
  {
    hide Octets;
    var out := new Byte[1];
    NoPadding(8);
    stat := c.DecodeOctets(out, 0, 8);
    x := out[0];
    assert out[0..1] == [x];
  }

  method DecodeSemiConsInteger(c: Buffer, lower: I32) returns (value: I32, stat: Stat)
    requires c.Readable() && ParseLength(c.Stream(), c.Pos()) != Fail(PastEnd)
    modifies c
    ensures match ParseSemi(c.Stream(), old(c.Pos()), lower)
      case Got(v, q) => stat == Ok && value == v && c.Readable() && c.Pos() == q
      case Fail(why) => why == Error(stat) && stat != Ok
  {
    hide ParseLength, Octets, OctetsAt, TwosValue, Signed;
    ghost var b := c.Stream();
    value := 0;
    var nbytes;
    nbytes, stat := DecodeLength(c);
    if stat != Ok && stat != OkFrag {
      return;
    }
    ghost var p := c.Pos();
    if nbytes > 0 {
      c.DecodeByteAlign();
      value, stat := DecodeTwos(c, nbytes);
      if stat != Ok {
        return;
      }
    } else {
      ZeroOctets(b, p);
    }
    SignedStep(TwosValue(OctetsAt(b, p, nbytes)), Base(lower));
    if lower > -0x8000_0000 {
      value := Signed(value + lower);
    } else {
      SignedSelf(value);
    }
    stat := Ok;
  }

  lemma ZeroOctets(b: seq<bool>, p: nat)
    requires p <= |b|
    ensures TwosValue(OctetsAt(b, p, 0)) == 0 && Signed(0) == 0
  {
  }

  lemma SignedSelf(v: I32)
    ensures Signed(v) == v
  {
  }

  method DecodeTwos(c: Buffer, n: nat) returns (value: I32, stat: Stat)
    requires c.Readable() && c.bitOffset == 8 && n > 0
    modifies c
    ensures stat == if old(c.Pos()) + 8 * n > 8 * c.data.Length then EndOfBuf else Ok
    ensures stat == Ok ==> c.Readable() && c.Pos() == old(c.Pos()) + 8 * n
    ensures stat == Ok ==> value == Signed(TwosValue(OctetsAt(c.Stream(), old(c.Pos()), n)))
  {
    hide Octets, OctetsAt, TwosValue, Signed;
    ghost var b, p := c.Stream(), c.Pos();
    value := 0;
    var first;
    first, stat := DecodeOctet(c);
    if stat != Ok {
      return;
    }
    var signed: int := first;
    value := if signed < 128 then signed else signed - 256;
    FirstOctet(b, p, first);
    var nbytes: nat := n - 1;
    while nbytes > 0
      invariant nbytes < n && c.Readable() && c.bitOffset == 8 && c.Pos() == p + 8 * (n - nbytes) && stat == Ok
      invariant value == Signed(TwosValue(OctetsAt(b, p, n - nbytes)))
    {
      var ub;
      ub, stat := DecodeOctet(c);
      if stat != Ok {
        return;
      }
      TwosMore(b, p, n - nbytes, value, ub);
      value := Signed(value * 256 + ub);
      nbytes := nbytes - 1;
    }
  }

  lemma FirstOctet(b: seq<bool>, p: nat, x: Byte)
    requires p + 8 <= |b| && Octets([x]) == b[p..p + 8]
    ensures var signed: int := x;
      (if signed < 128 then signed else signed - 256) == Signed(TwosValue(OctetsAt(b, p, 1)))
  {
    hide Octets, OctetsAt;
    OctetsInjective(OctetsAt(b, p, 1), [x]);
  }

  method DecodeIdent(c: Buffer, len: U32) returns (v: U32, left: U32, stat: Stat)
    requires c.Readable()
    modifies c
    ensures match ParseIdent(c.Stream(), old(c.Pos()), 0)
      case Got(x, q) =>
        stat == Ok && v == x && left == Wrap(len - (q - old(c.Pos())) / 8) && c.Readable() && c.Pos() == q
      case Fail(why) => why == Error(stat) && stat != Ok
  {
    hide And, Octets, Wrap, SevenMore, Val;
    ghost var b, p := c.Stream(), c.Pos();
    v, left, stat := 0, len, Ok;
    var more := true;
    ghost var k := 0;
    WrapSelf(len);
    while more
      invariant c.Readable() && c.Pos() == p + 8 * k && left == Wrap(len - k)
      invariant ParseIdent(b, p, 0) == if more then ParseIdent(b, c.Pos(), v) else Got(v, c.Pos())
      invariant stat == Ok
      decreases if more then |b| + 1 - c.Pos() else 0
    {
      var x;
      x, stat := c.DecodeBits(8);
      if stat != Ok {
        return;
      }
      v := SevenMore(v, x);
      WrapMinus(len, k, 1);
      left := Wrap(left - 1);
      k := k + 1;
      more := And(x, 0x80) != 0;
    }
    assert (c.Pos() - p) / 8 == k;
  }

  lemma WrapSelf(x: U32)
    ensures Wrap(x) == x
  {
  }

  method DecodeObjectIdentifier(c: Buffer) returns (ids: seq<U32>, stat: Stat)
    requires c.Readable() && ParseLength(c.Stream(), c.Pos()) != Fail(PastEnd)
    modifies c
    ensures match ParseOid(c.Stream(), old(c.Pos()))
      case Got(v, q) => stat == Ok && ids == v && c.Readable() && c.Pos() == q
      case Fail(why) => why == Error(stat) && stat != Ok
  {
    hide ParseLength, Octets;
    ids := [];
    var n;
    n, stat := DecodeLength(c);
    if stat != Ok {
      return;
    }
    ids, stat := DecodeIdents(c, n);
  }

  /** The subidentifiers go into an array of fixed size. */
  method DecodeIdents(c: Buffer, n: U32) returns (ids: seq<U32>, stat: Stat)
    requires c.Readable()
    modifies c
    ensures match ParseIdents(c.Stream(), old(c.Pos()), n, [])
      case Got(v, q) => stat == Ok && ids == v && c.Readable() && c.Pos() == q
      case Fail(why) => why == Error(stat) && stat != Ok
  {
    hide Octets, ParseIdent, Wrap;
    ghost var b, p := c.Stream(), c.Pos();
    var subid := new U32[MAX_SUBIDS](_ => 0);
    var j, len := 0, n;
    stat := Ok;
    assert subid[..0] == [];
    while len > 0
      invariant 0 <= j <= MAX_SUBIDS && c.Readable() && stat == Ok
      invariant ParseIdents(b, p, n, []) == ParseIdents(b, c.Pos(), len, subid[..j])
      decreases |b| - c.Pos()
    {
      if j >= MAX_SUBIDS {
        return [], InvObjId;
      }
      ghost var done := subid[..j];
      ghost var f := ParseIdent(b, c.Pos(), 0);
      var v;
      v, len, stat := DecodeIdent(c, len);
      if stat != Ok {
        return [], stat;
      }
      subid[j] := v;
      if j == 0 {
        subid[0] := if v / 40 >= 2 then 2 else v / 40;
        subid[1] := if subid[0] == 2 then v - 80 else v % 40;
        j := 2;
        assert subid[..2] == SplitFirst(v);
      } else {
        j := j + 1;
        assert subid[..j] == done + [v];
      }
    }
    ids := subid[..j];
  }

  /** Adds up the lengths of the fragments with a cursor of its own. */
  method GetComponentLength(c: Buffer, itemBits: nat) returns (total: nat, stat: Stat)
    requires c.Readable() && (itemBits == 1 || itemBits == 8)
    requires ParseTotal(c.Stream(), c.Pos(), itemBits) != Fail(PastEnd)
    ensures match ParseTotal(c.Stream(), c.Pos(), itemBits)
      case Got(n, _) => stat == Ok && total == n
      case Fail(why) => why == Error(stat) && stat == EndOfBuf
  {
    hide ParseLength, Octets;
    var lctxt := new Buffer.Sub(c);
    ghost var b, all := c.Stream(), ParseTotal(c.Stream(), c.Pos(), itemBits);
    total := 0;
    while true
      invariant fresh(lctxt) && lctxt.data == c.data && lctxt.Readable()
      invariant c.Stream() == b && ParseTotal(b, lctxt.Pos(), itemBits) != Fail(PastEnd)
      invariant all == match ParseTotal(b, lctxt.Pos(), itemBits)
        case Got(n, q) => Got(total + n, q)
        case Fail(why) => Fail(why)
      decreases |b| - lctxt.Pos()
    {
      var len;
      len, stat := DecodeLength(lctxt);
      if stat != Ok && stat != OkFrag {
        return;
      }
      total := total + len;
      if stat == OkFrag {
        WholeItems(lctxt.Pos(), len, itemBits);
        stat := lctxt.MoveBitCursor(len * itemBits);
        if stat != Ok {
          return;
        }
      } else {
        return;
      }
    }
  }

  /** A fragment has a multiple of eight bits even when its items are single bits. */
  lemma WholeItems(p: nat, n: nat, bits: nat)
    requires p % 8 == 0 && n % 16384 == 0 && (bits == 1 || bits == 8)
    ensures (p + n * bits) % 8 == 0 && n * bits >= n
  {
    var k := n / 16384;
    assert n == 8 * (2048 * k);
  }

  /** A decoded octet string: in memory of its own, or in the octets of the decoder's buffer. */
  datatype DynOctets = Owned(a: array<Byte>, numocts: nat) | Shared(first: nat, numocts: nat)

  /** What the caller finds behind the pointer that it gets. */
  ghost function Found(c: Buffer, o: DynOctets): seq<Byte>
    reads c.data, if o.Owned? then {o.a} else {}
    requires if o.Owned? then o.numocts <= o.a.Length else o.first + o.numocts <= c.data.Length
  {
    match o
    case Owned(a, n) => a[..n]
    case Shared(i, n) => c.data[i..i + n]
  }

  method DecodeCopied(c: Buffer) returns (o: DynOctets, stat: Stat)
    requires c.Readable() && ParseCopied(c.Stream(), c.Pos()) != Fail(PastEnd)
    modifies c
    ensures o.Owned? && fresh(o.a) && o.numocts <= o.a.Length
    ensures match ParseCopied(c.Stream(), old(c.Pos()))
      case Got(x, q) => stat == Ok && c.Readable() && c.Pos() == q && Found(c, o) == x.s
      case Fail(why) => why == Error(stat) && stat != Ok
  {
    hide ParseTotal, ParseOctetString, Octets;
    var nocts;
    nocts, stat := GetComponentLength(c, 8);
    var a := new Byte[if stat == Ok then nocts else 0];
    o := Owned(a, 0);
    if stat == Ok {
      var n;
      n, stat := DecodeOctetString(c, a);
      if stat == Ok {
        o := Owned(a, n);
      }
    }
  }

  method DecodeDynOctetString(c: Buffer, fast: bool) returns (o: DynOctets, stat: Stat)
    requires c.Readable() && ParseDyn(c.Stream(), c.Pos(), fast) != Fail(PastEnd)
    modifies c
    ensures stat == Ok ==>
      if o.Owned? then fresh(o.a) && o.numocts <= o.a.Length else fast && o.first + o.numocts <= c.data.Length
    ensures match ParseDyn(c.Stream(), old(c.Pos()), fast)
      case Got(x, q) => stat == Ok && c.Readable() && c.Pos() == q && Found(c, o) == Contents(c.Stream(), x)
      case Fail(why) => why == Error(stat) && stat != Ok
  {
    hide ParseCopied, Octets, OctetsAt;
    if fast {
      var byteIndex, bitOffset := c.byteIndex, c.bitOffset;
      c.DecodeByteAlign();
      var bit := c.DecodeBit();
      if bit {
        bit := c.DecodeBit();
      }
      c.byteIndex, c.bitOffset := byteIndex, bitOffset;
      if !bit {
        o, stat := DecodeInPlace(c);
        return;
      }
    }
    o, stat := DecodeCopied(c);
  }

  /** An unfragmented string stays where it is. */
  method DecodeInPlace(c: Buffer) returns (o: DynOctets, stat: Stat)
    requires c.Readable() && RoundUp(c.Pos()) < 8 * c.data.Length
    requires !(c.Stream()[RoundUp(c.Pos())] && c.Stream()[RoundUp(c.Pos()) + 1])
    modifies c
    ensures o.Shared? && (stat == Ok ==> o.first + o.numocts <= c.data.Length)
    ensures match ParseDyn(c.Stream(), old(c.Pos()), true)
      case Got(x, q) => stat == Ok && c.Readable() && c.Pos() == q && Found(c, o) == Contents(c.Stream(), x)
      case Fail(why) => why == Error(stat) && stat != Ok
  {
    hide ParseLength, ParseCopied, Octets, OctetsAt;
    ghost var b, at := c.Stream(), c.Pos();
    o := Shared(0, 0);
    InPlace(b, at);
    var n;
    n, stat := DecodeLength(c);
    if stat != Ok {
      return;
    }
    ghost var p := c.Pos();
    if n > 0 {
      o := Shared(c.byteIndex, n);
      stat := c.MoveBitCursor(n * 8);
      if stat != Ok {
        return;
      }
    }
    OctetsSlice(c.data[..], o.first, o.first + n);
    NoOctets();
    assert Found(c, o) == c.data[..][o.first..o.first + n];
    FromOctets(b, p, Found(c, o));
  }

  lemma InPlace(b: seq<bool>, at: nat)
    requires |b| % 8 == 0 && at <= |b| && RoundUp(at) < |b| && !(b[RoundUp(at)] && b[RoundUp(at) + 1])
    ensures ParseLength(b, at) != Fail(PastEnd) && (ParseLength(b, at).Got? ==> !ParseLength(b, at).value.more)
    ensures ParseDyn(b, at, true) ==
      match ParseLength(b, at)
      case Fail(why) => Fail(why)
      case Got(l, q) => if q + 8 * l.n > |b| then Fail(Error(EndOfBuf)) else Got(InBuffer(q, l.n), q + 8 * l.n)
  {
    Unfragmented(b, at);
  }

  // ---- From the encoder's buffer to a decoder

  /** The bits in front of an encoder's cursor are the first bits that a decoder finds. */
  lemma WrittenIsRead(c: Buffer)
    requires c.Writable()
    ensures c.Stream()[..c.Pos()] == c.Written()
  {
    hide Octets, Bits, Shr;
    var d, k, o := c.data[..], c.byteIndex, c.bitOffset;
    OctetAt(d, k, 0, 8 - o);
    OctetsTo(d, k);
    var b := Octets(d);
    assert b[..8 * k + (8 - o)] == b[..8 * k] + b[8 * k..8 * k + (8 - o)];
  }

  /** What was appended last can be read back from where it starts, whatever is appended later on. */
  lemma ReadBack(c: Buffer, w: seq<bool>, e: seq<bool>, later: seq<bool>)
    requires c.Writable() && c.Written() == w + e + later
    ensures At(c.Stream(), |w|, e)
  {
    WrittenIsRead(c);
    assert c.Stream()[|w|..|w| + |e|] == (w + e + later)[|w|..|w| + |e|];
  }

  lemma LastRead(c: Buffer, w: seq<bool>, e: seq<bool>)
    requires c.Writable() && c.Written() == w + e
    ensures At(c.Stream(), |w|, e)
  {
    hide BitsTo;
    assert w + e + [] == w + e;
    ReadBack(c, w, e, []);
  }

  /** A message of a number, an octet string and an object identifier. */
  datatype Fields = Fields(number: I32, octets: seq<Byte>, oid: Oid)

  /** The fields that come back. */
  predicate Sendable(f: Fields, lower: I32, upper: I32) {
    && lower <= f.number <= upper && (lower == -0x8000_0000 ==> upper <= 0)
    && |f.octets| < 0x1_0000_0000 && (f.octets == [] || |f.octets| % 16384 != 0)
    && ValidOid(f.oid) && SmallStart(f.oid)
  }

  ghost function EncNumber(at: nat, f: Fields, lower: I32, upper: I32): (r: seq<bool>)
    requires lower <= f.number <= upper
    ensures EncConsInteger(at, f.number, lower, upper) == Out(r)
  {
    ConsIntegerRound(Octets([]), 0, f.number, lower, upper);
    EncConsInteger(at, f.number, lower, upper).bits
  }

  /** Where the octet string starts. */
  ghost function OctetsFrom(at: nat, f: Fields, lower: I32, upper: I32): (r: nat)
    requires lower <= f.number <= upper
    ensures r >= at
  {
    at + |EncNumber(at, f, lower, upper)|
  }

  /** Where the object identifier starts. */
  ghost function OidAt(at: nat, f: Fields, lower: I32, upper: I32): (r: nat)
    requires lower <= f.number <= upper
    ensures r >= OctetsFrom(at, f, lower, upper)
  {
    var p := OctetsFrom(at, f, lower, upper);
    p + |EncOctetString(p, f.octets)|
  }

  ghost function EncFields(at: nat, f: Fields, lower: I32, upper: I32): seq<bool>
    requires Sendable(f, lower, upper)
  {
    EncNumber(at, f, lower, upper) + EncOctetString(OctetsFrom(at, f, lower, upper), f.octets)
      + EncOid(OidAt(at, f, lower, upper), f.oid)
  }

  lemma FieldsLength(at: nat, f: Fields, lower: I32, upper: I32)
    requires Sendable(f, lower, upper)
    ensures at + |EncFields(at, f, lower, upper)| ==
      OidAt(at, f, lower, upper) + |EncOid(OidAt(at, f, lower, upper), f.oid)|
  {
    hide EncNumber, EncOctetString, EncOid;
  }

  method EncodeFields(c: Buffer, f: Fields, lower: I32, upper: I32) returns (stat: Stat)
    requires c.Writable() && Sendable(f, lower, upper) && c.Room(|EncFields(c.Pos(), f, lower, upper)|)
    modifies c, c.data
    ensures c.Writable() && c.Written() == old(c.Written()) + EncFields(old(c.Pos()), f, lower, upper)
    ensures stat == Ok
  {
    hide EncConsInteger, EncNumber, EncOctetString, EncOid, OidLength, BitsTo;
    ghost var w, e := c.Written(), EncNumber(c.Pos(), f, lower, upper);
    FieldsLength(c.Pos(), f, lower, upper);
    stat := EncodeConsInteger(c, f.number, lower, upper);
    ghost var o := EncOctetString(c.Pos(), f.octets);
    EncodeOctetString(c, f.octets);
    ghost var i := EncOid(c.Pos(), f.oid);
    stat := EncodeObjectIdentifier(c, f.oid);
    Appended(w, e, o, i);
  }

  lemma Appended(w: seq<bool>, e: seq<bool>, o: seq<bool>, i: seq<bool>)
    ensures w + e + o + i == w + (e + o + i)
  {
  }

  /** The decoders find the fields where the encoders have put them. */
  lemma FieldsRound(b: seq<bool>, at: nat, f: Fields, lower: I32, upper: I32)
    requires |b| % 8 == 0 && Sendable(f, lower, upper) && At(b, at, EncFields(at, f, lower, upper))
    ensures var p, q := OctetsFrom(at, f, lower, upper), OidAt(at, f, lower, upper);
      && q <= |b| && ParseConsInteger(b, at, lower, upper) == Got(f.number, p)
      && ParseOctetString(b, p, |f.octets|) == Got(f.octets, q)
      && ParseOid(b, q) == Got(f.oid, at + |EncFields(at, f, lower, upper)|)
  {
    hide EncConsInteger, EncNumber, EncOctetString, EncOid, ParseConsInteger, ParseOctetString, ParseOid, At;
    var e, p := EncNumber(at, f, lower, upper), OctetsFrom(at, f, lower, upper);
    var o, q := EncOctetString(p, f.octets), OidAt(at, f, lower, upper);
    FieldsLength(at, f, lower, upper);
    AtBoth(b, at, e + o, EncOid(q, f.oid));
    AtBoth(b, at, e, o);
    AtInside(b, q, EncOid(q, f.oid));
    ConsIntegerRound(b, at, f.number, lower, upper);
    OctetStringRound(b, p, f.octets, |f.octets|);
    OidRound(b, q, f.oid);
  }

  /** One after the other, into memory of the right size. */
  method DecodeFields(c: Buffer, lower: I32, upper: I32, n: nat, ghost f: Fields, ghost p: nat, ghost q: nat,
      ghost end: nat)
      returns (g: Fields, stat: Stat)
    requires c.Readable() && c.Pos() <= p <= q <= |c.Stream()|
    requires ParseConsInteger(c.Stream(), c.Pos(), lower, upper) == Got(f.number, p)
    requires ParseOctetString(c.Stream(), p, n) == Got(f.octets, q)
    requires ParseOid(c.Stream(), q) == Got(f.oid, end)
    modifies c
    ensures stat == Ok && g == f
    ensures c.Readable() && c.Pos() == end
  {
    hide ParseConsInteger, ParseOctetString, ParseOid, Octets;
    var number, numocts, oid;
    number, stat := DecodeConsInteger(c, lower, upper);
    var out := new Byte[n];
    numocts, stat := DecodeOctetString(c, out);
    var octets := out[..numocts];
    OidFirst(c.Stream(), q);
    oid, stat := DecodeObjectIdentifier(c);
    g := Fields(number, octets, oid);
  }

  lemma OidFirst(b: seq<bool>, at: nat)
    requires |b| % 8 == 0 && at <= |b| && ParseOid(b, at).Got?
    ensures ParseLength(b, at).Got?
  {
  }

  /** The encoders and then, with a second cursor in the same octets, the decoders: the fields come back
      and both cursors stand at the same place.
   */
  method Transfer(c: Buffer, f: Fields, lower: I32, upper: I32) returns (g: Fields, d: Buffer)
    requires c.Writable() && Sendable(f, lower, upper) && c.Room(|EncFields(c.Pos(), f, lower, upper)|)
    modifies c, c.data
    ensures c.Writable() && c.Written() == old(c.Written()) + EncFields(old(c.Pos()), f, lower, upper)
    ensures g == f && fresh(d) && d.Readable() && d.data == c.data && d.Pos() == c.Pos()
  {
    hide EncFields, OctetsFrom, OidAt, ParseConsInteger, ParseOctetString, ParseOid, Octets, At, BitsTo;
    ghost var w, e := c.Written(), EncFields(c.Pos(), f, lower, upper);
    d := new Buffer.Sub(c);
    var stat := EncodeFields(c, f, lower, upper);
    LastRead(c, w, e);
    FieldsRound(c.Stream(), |w|, f, lower, upper);
    ghost var p, q := OctetsFrom(|w|, f, lower, upper), OidAt(|w|, f, lower, upper);
    g, stat := DecodeFields(d, lower, upper, |f.octets|, f, p, q, |w + e|);
  }
}
