/** The bit reader of the MP3 decoder: getbits, getbits_fast and get1bit in formats/mp3/common.c. */
module MpgBits {
  import opened BitStrings

  /** The octets from the start of the frame on; the reader itself never looks for an end. */
  type Stream = nat -> Byte

  /** The bit at position `p`, the most significant bit of an octet first. */
  ghost function Bit(s: Stream, p: nat): bool {
    Bits(s(p / 8), 8)[p % 8]
  }

  /** The `n` bits from position `p` on. */
  ghost function Taken(s: Stream, p: nat, n: nat): (r: seq<bool>)
    ensures |r| == n
  {
    seq(n, (i: nat) => Bit(s, p + i))
  }

  /** The `n` bits from position `p` on as a number. */
  ghost function Num(s: Stream, p: nat, n: nat): (r: nat)
    ensures r < Pow2(n)
  {
    Val(Taken(s, p, n))
  }

  ghost function Zeros(n: nat): (r: seq<bool>)
    ensures |r| == n
  {
    seq(n, i => false)
  }

  lemma {:induction false} ZerosVal(n: nat)
    ensures Val(Zeros(n)) == 0
  {
    if n > 0 {
      ZerosVal(n - 1);
      assert Zeros(n)[..n - 1] == Zeros(n - 1);
    }
  }

  /** Shifting up drops the bits in front, shifting down drops the bits behind. */
  lemma Window(b: seq<bool>, k: nat, n: nat)
    requires k <= |b| && n <= |b|
    ensures Shr(Low(Shl(Val(b), k), |b|), |b| - n) == Val((b[k..] + Zeros(k))[..n])
  {
    hide Val, Shl, Shr, Low, Zeros;
    var c := b[k..] + Zeros(k);
    ZerosVal(k);
    ValSplit(b, Zeros(k));
    assert b + Zeros(k) == b[..k] + c;
    ValSplit(b[..k], c);
    Joined(Val(b[..k]), Val(c), |b|);
    assert c == c[..n] + c[n..];
    ValSplit(c[..n], c[n..]);
    Joined(Val(c[..n]), Val(c[n..]), |b| - n);
  }

  /** Two numbers put one behind the other. */
  lemma Together(a: seq<bool>, b: Byte)
    ensures Or(Shl(Val(a), 8), b) == Val(a + Bits(b, 8))
  {
    hide Val, Shl, Shr, Low, Or, Bits;
    SmallPowers();
    ShrShl(Val(a), 8);
    OrApart(Shl(Val(a), 8), b, 8);
    ValSplit(a, Bits(b, 8));
    ByteVal(b);
  }

  lemma ByteVal(b: Byte)
    ensures Val(Bits(b, 8)) == b
  {
    hide Val, Bits, Low, Shr, Shl;
    SmallPowers();
    ValBits(b, 8);
    ShrSmall(b, 8);
  }

  lemma OctetTaken(s: Stream, w: nat)
    ensures Taken(s, 8 * w, 8) == Bits(s(w), 8)
  {
    hide Bits;
    forall i | 0 <= i < 8
      ensures Taken(s, 8 * w, 8)[i] == Bits(s(w), 8)[i]
    {
      assert (8 * w + i) / 8 == w && (8 * w + i) % 8 == i;
      assert Taken(s, 8 * w, 8)[i] == Bit(s, 8 * w + i);
    }
  }

  lemma TakenMore(s: Stream, p: nat, m: nat, n: nat)
    ensures Taken(s, p, m + n) == Taken(s, p, m) + Taken(s, p + m, n)
  {
    hide Bit;
  }

  /** The bits of an octet, of two and of three. */
  lemma OctetsTaken(s: Stream, w: nat)
    ensures Taken(s, 8 * w, 8) == Bits(s(w), 8)
    ensures Taken(s, 8 * w, 16) == Bits(s(w), 8) + Bits(s(w + 1), 8)
    ensures Taken(s, 8 * w, 24) == Bits(s(w), 8) + Bits(s(w + 1), 8) + Bits(s(w + 2), 8)
  {
    hide Bits, Taken;
    OctetTaken(s, w);
    OctetTaken(s, w + 1);
    OctetTaken(s, w + 2);
    TakenMore(s, 8 * w, 8, 8);
    TakenMore(s, 8 * w, 16, 8);
  }

  lemma TakenPart(s: Stream, p: nat, m: nat, k: nat, n: nat)
    requires k <= m
    ensures n <= m - k ==> (Taken(s, p, m)[k..] + Zeros(k))[..n] == Taken(s, p + k, n)
    ensures m - k <= n <= m ==> (Taken(s, p, m)[k..] + Zeros(k))[..n] == Taken(s, p + k, m - k) + Zeros(n + k - m)
  {
    hide Bit;
  }

  class Reader {
    const stream: Stream
    var wordpointer: nat
    var bitindex: nat

    constructor (stream: Stream)
      ensures this.stream == stream && Valid() && Pos() == 0
    {
      this.stream := stream;
      wordpointer, bitindex := 0, 0;
    }

    ghost predicate Valid()
      reads this
    {
      bitindex < 8
    }

    ghost function Pos(): nat
      reads this
    {
      8 * wordpointer + bitindex
    }

    method Skip(n: nat)
      requires Valid()
      modifies this
      ensures Valid() && Pos() == old(Pos()) + n
    {
      bitindex := bitindex + n;
      wordpointer := wordpointer + bitindex / 8;
      bitindex := bitindex % 8;
    }

    /** `getbits`: where three octets do not reach, the missing low bits read as zeros. */
    method GetBits(n: nat) returns (rval: nat)
      requires Valid() && n <= 24
      modifies this
      ensures Valid() && Pos() == old(Pos()) + n
      ensures n + old(bitindex) <= 24 ==> rval == Num(stream, old(Pos()), n)
      ensures n + old(bitindex) >= 24 ==>
        rval == Val(Taken(stream, old(Pos()), 24 - old(bitindex)) + Zeros(n + old(bitindex) - 24))
    {
      hide Val, Bits, Shl, Shr, Low, Or, Taken;
      if n == 0 {
        Nothing(Taken(stream, Pos(), 0));
        return 0;
      }
      OctetsTaken(stream, wordpointer);
      TakenPart(stream, 8 * wordpointer, 24, bitindex, n);
      Window(Taken(stream, 8 * wordpointer, 24), bitindex, n);
      rval := ThreeOctets();
      rval := Low(Shl(rval, bitindex), 24);
      rval := Shr(rval, 24 - n);
      Skip(n);
    }

    method ThreeOctets() returns (rval: nat)
      ensures rval == Val(Taken(stream, 8 * wordpointer, 24))
    {
      hide Val, Bits, Shl, Or, Taken;
      OctetsTaken(stream, wordpointer);
      rval := stream(wordpointer);
      ByteVal(rval);
      Together(Bits(stream(wordpointer), 8), stream(wordpointer + 1));
      Together(Bits(stream(wordpointer), 8) + Bits(stream(wordpointer + 1), 8), stream(wordpointer + 2));
      rval := Or(Shl(rval, 8), stream(wordpointer + 1));
      rval := Or(Shl(rval, 8), stream(wordpointer + 2));
    }

    lemma Nothing(b: seq<bool>)
      requires b == []
      ensures Val(b) == 0
    {
    }

    /** `getbits_fast`: the same over two octets. */
    method GetBitsFast(n: nat) returns (rval: nat)
      requires Valid() && n <= 9
      modifies this
      ensures Valid() && Pos() == old(Pos()) + n
      ensures rval == Num(stream, old(Pos()), n)
    {
      hide Val, Bits, Shl, Shr, Low, Or, Taken;
      ghost var b := Taken(stream, 8 * wordpointer, 16);
      OctetsTaken(stream, wordpointer);
      TakenPart(stream, 8 * wordpointer, 16, bitindex, n);
      Window(b, bitindex, n);
      rval := stream(wordpointer);
      ByteVal(rval);
      Together(Bits(stream(wordpointer), 8), stream(wordpointer + 1));
      rval := Or(Shl(rval, 8), stream(wordpointer + 1));
      assert rval == Val(b);
      rval := Low(Shl(rval, bitindex), 16);
      rval := Shr(rval, 16 - n);
      Skip(n);
    }

    /** `get1bit`: the shifted octet keeps only its low eight bits. */
    method Get1Bit() returns (bit: bool)
      requires Valid()
      modifies this
      ensures Valid() && Pos() == old(Pos()) + 1
      ensures bit == Bit(stream, old(Pos()))
    {
      hide Val, Bits, Shl, Shr, Low, Taken;
      ghost var b := Taken(stream, 8 * wordpointer, 8);
      OctetsTaken(stream, wordpointer);
      TakenPart(stream, 8 * wordpointer, 8, bitindex, 1);
      Window(b, bitindex, 1);
      var rval: nat := stream(wordpointer);
      ByteVal(rval);
      rval := Low(Shl(rval, bitindex), 8);
      OneBit(stream, Pos());
      bit := Shr(rval, 7) == 1;
      Skip(1);
    }
  }

  lemma OneBit(s: Stream, p: nat)
    ensures Num(s, p, 1) == if Bit(s, p) then 1 else 0
  {
    assert Taken(s, p, 1) == [Bit(s, p)];
    assert Val([Bit(s, p)][..0]) == 0;
  }
}
