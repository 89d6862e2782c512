/** Bit strings, numbers written in them, and the machine operations that move bits about. */
module BitStrings {

  type Byte = n: nat | n < 256

  type U32 = n: nat | n < 0x1_0000_0000

  function Pow2(n: nat): (r: nat)
    ensures r > 0
  {
    if n == 0 then 1 else 2 * Pow2(n - 1)
  }

  /** Division as the machine does it, towards zero. */
  function Quotient(a: int, b: int): int
    requires b != 0
  {
    if a >= 0 then (if b > 0 then a / b else -(a / -b))
    else if b > 0 then -(-a / b)
    else -a / -b
  }

  /** The low `n` bits of `v`, the most significant one first. */
  ghost function Bits(v: nat, n: nat): (r: seq<bool>)
    ensures |r| == n
  {
    if n == 0 then [] else Bits(v / 2, n - 1) + [v % 2 == 1]
  }

  /** The number that a bit string stands for. */
  ghost function Val(b: seq<bool>): (r: nat)
    ensures r < Pow2(|b|)
  {
    if b == [] then 0 else 2 * Val(b[..|b| - 1]) + if b[|b| - 1] then 1 else 0
  }

  /** `v >> n`. */
  function Shr(v: nat, n: nat): nat {
    if n == 0 then v else Shr(v / 2, n - 1)
  }

  /** The low `n` bits of `v` as a number. */
  function Low(v: nat, n: nat): (r: nat)
    ensures r < Pow2(n)
  {
    if n == 0 then 0 else 2 * Low(v / 2, n - 1) + v % 2
  }

  /** `v << n`. */
  function Shl(v: nat, n: nat): nat {
    if n == 0 then v else 2 * Shl(v, n - 1)
  }

  lemma {:induction false} ShlMul(v: nat, n: nat)
    ensures Shl(v, n) == v * Pow2(n)
  {
    if n > 0 {
      ShlMul(v, n - 1);
      Twice(v, Pow2(n - 1));
    }
  }

  lemma {:induction false} ShrLow(v: nat, n: nat)
    ensures v == Shl(Shr(v, n), n) + Low(v, n)
  {
    if n > 0 {
      ShrLow(v / 2, n - 1);
    }
  }

  lemma Twice(a: nat, p: nat)
    ensures a * (2 * p) == 2 * (a * p)
  {
  }

  /** Shifting is dividing by a power of two. */
  lemma ShrDiv(v: nat, n: nat)
    ensures Shr(v, n) == v / Pow2(n) && Low(v, n) == v % Pow2(n)
  {
    ShrLow(v, n);
    ShlMul(Shr(v, n), n);
    DivisionUnique(v, Pow2(n), Shr(v, n), Low(v, n));
  }

  lemma DivisionUnique(v: nat, d: nat, q: nat, r: nat)
    requires v == q * d + r && r < d
    ensures v / d == q && v % d == r
  {
    var a: int := v / d - q;
    Multiple(a, d);
    assert a * d == v / d * d - q * d;
  }

  /** A multiple of `d` is zero or at least `d` away from zero. */
  lemma Multiple(a: int, d: int)
    requires d >= 0
    ensures a > 0 ==> a * d >= d
    ensures a < 0 ==> a * d <= -d
  {
    if a > 0 {
      assert a * d == (a - 1) * d + d;
    } else if a < 0 {
      assert a * d == -((-a - 1) * d) - d;
    }
  }

  lemma {:induction false} ShrShr(v: nat, m: nat, n: nat)
    ensures Shr(Shr(v, m), n) == Shr(v, m + n)
  {
    if m > 0 {
      ShrShr(v / 2, m - 1, n);
    }
  }

  lemma {:induction false} ShrSmall(v: nat, n: nat)
    requires v < Pow2(n)
    ensures Shr(v, n) == 0 && Low(v, n) == v
  {
    if n > 0 {
      ShrSmall(v / 2, n - 1);
    }
  }

  lemma {:induction false} ShrShl(v: nat, n: nat)
    ensures Shr(Shl(v, n), n) == v && Low(Shl(v, n), n) == 0
  {
    if n > 0 {
      ShrShl(v, n - 1);
    }
  }

  /** A number below `x` in its `n` high positions and `y` in its low ones. */
  lemma {:induction false} Joined(x: nat, y: nat, n: nat)
    requires y < Pow2(n)
    ensures Shr(Shl(x, n) + y, n) == x && Low(Shl(x, n) + y, n) == y
  {
    if n > 0 {
      Joined(x, y / 2, n - 1);
    }
  }

  lemma {:induction false} ValBits(v: nat, n: nat)
    ensures Val(Bits(v, n)) == Low(v, n)
  {
    if n > 0 {
      ValBits(v / 2, n - 1);
      assert Bits(v, n)[..n - 1] == Bits(v / 2, n - 1);
    }
  }

  lemma {:induction false} BitsVal(b: seq<bool>)
    ensures Bits(Val(b), |b|) == b
  {
    if b != [] {
      BitsVal(b[..|b| - 1]);
      assert Val(b) / 2 == Val(b[..|b| - 1]);
    }
  }

  /** Only the low `n` bits matter. */
  lemma BitsLow(v: nat, n: nat)
    ensures Bits(v, n) == Bits(Low(v, n), n)
  {
    ValBits(v, n);
    BitsVal(Bits(v, n));
  }

  /** A field cut in two. */
  lemma {:induction false} BitsSplit(v: nat, m: nat, n: nat)
    ensures Bits(v, m + n) == Bits(Shr(v, n), m) + Bits(v, n)
  {
    if n > 0 {
      BitsSplit(v / 2, m, n - 1);
      assert Bits(v, m + n) == Bits(v / 2, m + n - 1) + [v % 2 == 1];
    }
  }

  lemma {:induction false} ValSplit(a: seq<bool>, b: seq<bool>)
    ensures Val(a + b) == Shl(Val(a), |b|) + Val(b)
  {
    if b == [] {
      assert a + b == a;
    } else {
      var c := b[..|b| - 1];
      ValSplit(a, c);
      assert (a + b)[..|a + b| - 1] == a + c;
      assert (a + b)[|a + b| - 1] == b[|c|];
    }
  }

  lemma {:induction false} PowGrows(m: nat, n: nat)
    requires m <= n
    ensures Pow2(m) <= Pow2(n)
  {
    if m < n {
      PowGrows(m, n - 1);
    }
  }

  lemma SmallPowers()
    ensures Pow2(0) == 1 && Pow2(1) == 2 && Pow2(2) == 4 && Pow2(3) == 8 && Pow2(4) == 16
    ensures Pow2(5) == 32 && Pow2(6) == 64 && Pow2(7) == 128 && Pow2(8) == 256
  {
    assert Pow2(4) == 16;
  }

  /** Bitwise or and and. */
  function Or(a: nat, b: nat): nat
    decreases a + b
  {
    if a == 0 && b == 0 then 0
    else 2 * Or(a / 2, b / 2) + if a % 2 == 1 || b % 2 == 1 then 1 else 0
  }

  function And(a: nat, b: nat): nat {
    if a == 0 || b == 0 then 0
    else 2 * And(a / 2, b / 2) + if a % 2 == 1 && b % 2 == 1 then 1 else 0
  }

  lemma {:induction false} OrZero(a: nat)
    ensures Or(a, 0) == a
    decreases a
  {
    if a > 0 {
      OrZero(a / 2);
    }
  }

  /** Where the operands do not overlap, bitwise or is addition. */
  lemma {:induction false} OrApart(a: nat, b: nat, n: nat)
    requires Low(a, n) == 0 && b < Pow2(n)
    ensures Or(a, b) == a + b
    decreases n
  {
    if n == 0 {
      OrZero(a);
    } else {
      OrApart(a / 2, b / 2, n - 1);
    }
  }

  lemma {:induction false} AndLow(a: nat, n: nat)
    ensures And(a, Pow2(n) - 1) == Low(a, n)
    decreases n
  {
    if n > 0 {
      AndLow(a / 2, n - 1);
      assert (Pow2(n) - 1) / 2 == Pow2(n - 1) - 1;
      AndZero(n);
    }
  }

  lemma {:induction false} AndZero(n: nat)
    ensures Low(0, n) == 0
  {
    if n > 0 {
      AndZero(n - 1);
    }
  }

  /** A mask of ones above `k` zeros, `m` bits in all. */
  lemma {:induction false} AndHigh(a: nat, m: nat, k: nat)
    requires k <= m && Pow2(k) <= Pow2(m)
    ensures And(a, Pow2(m) - Pow2(k)) == Low(a, m) - Low(a, k)
    decreases m
  {
    if k == 0 {
      AndLow(a, m);
    } else {
      PowGrows(k - 1, m - 1);
      AndHigh(a / 2, m - 1, k - 1);
      var mask := Pow2(m) - Pow2(k);
      assert mask / 2 == Pow2(m - 1) - Pow2(k - 1) && mask % 2 == 0;
      AndZero(m);
      AndZero(k);
    }
  }

  /** The bits of a string of octets. */
  ghost function Octets(s: seq<Byte>): (r: seq<bool>)
    ensures |r| == 8 * |s|
  {
    if s == [] then [] else Octets(s[..|s| - 1]) + Bits(s[|s| - 1], 8)
  }

  lemma {:induction false} OctetsConcat(s: seq<Byte>, t: seq<Byte>)
    ensures Octets(s + t) == Octets(s) + Octets(t)
  {
    if t == [] {
      assert s + t == s;
    } else {
      OctetsConcat(s, t[..|t| - 1]);
      assert (s + t)[..|s + t| - 1] == s + t[..|t| - 1];
    }
  }

  lemma OctetsOne(b: Byte)
    ensures Octets([b]) == Bits(b, 8)
  {
    assert Octets([b]) == Octets([]) + Bits(b, 8);
  }

  lemma Middle<T>(a: seq<T>, b: seq<T>, c: seq<T>)
    ensures (a + b + c)[|a|..|a| + |b|] == b
  {
  }

  lemma OctetsCut(s: seq<Byte>, k: nat)
    requires k <= |s|
    ensures Octets(s) == Octets(s[..k]) + Octets(s[k..])
  {
    hide Octets;
    assert s == s[..k] + s[k..];
    OctetsConcat(s[..k], s[k..]);
  }

  /** The bits of a part of an octet string. */
  lemma OctetsSlice(s: seq<Byte>, i: nat, j: nat)
    requires i <= j <= |s|
    ensures Octets(s)[8 * i..8 * j] == Octets(s[i..j])
  {
    hide Octets;
    var a, b, c := Octets(s[..i]), Octets(s[i..j]), Octets(s[j..]);
    OctetsCut(s, j);
    OctetsCut(s[..j], i);
    assert s[..j][..i] == s[..i] && s[..j][i..] == s[i..j];
    Middle(a, b, c);
  }

  /** Octet strings with the same bits are the same. */
  lemma {:induction false} OctetsInjective(s: seq<Byte>, t: seq<Byte>)
    requires Octets(s) == Octets(t)
    ensures s == t
  {
    assert |s| == |t|;
    if s != [] {
      var n := |s| - 1;
      LastOctet(s);
      LastOctet(t);
      OctetsInjective(s[..n], t[..n]);
      assert s == s[..n] + [s[n]] && t == t[..n] + [t[n]];
    }
  }

  lemma LastOctet(s: seq<Byte>)
    requires s != []
    ensures var n := |s| - 1;
      Octets(s)[..8 * n] == Octets(s[..n]) && Val(Octets(s)[8 * n..]) == s[n]
  {
    var n := |s| - 1;
    assert Octets(s)[8 * n..] == Bits(s[n], 8);
    ValBits(s[n], 8);
    SmallPowers();
    ShrSmall(s[n], 8);
  }

  lemma {:induction false} OrBelow(a: nat, b: nat, n: nat)
    requires a < Pow2(n) && b < Pow2(n)
    ensures Or(a, b) < Pow2(n)
    decreases n
  {
    if n > 0 {
      OrBelow(a / 2, b / 2, n - 1);
    }
  }

  lemma {:induction false} ShrOfLow(x: nat, a: nat, b: nat)
    requires b <= a
    ensures Shr(Low(x, a), b) == Low(Shr(x, b), a - b)
  {
    if b > 0 {
      ShrOfLow(x / 2, a - 1, b - 1);
    }
  }

  lemma {:induction false} LowOfLow(x: nat, a: nat, b: nat)
    requires b <= a
    ensures Low(Low(x, a), b) == Low(x, b)
  {
    if b > 0 {
      LowOfLow(x / 2, a - 1, b - 1);
    }
  }

  lemma {:induction false} LowShl(y: nat, o: nat, k: nat)
    ensures Low(Shl(y, o), o + k) == Shl(Low(y, k), o)
  {
    if o > 0 {
      LowShl(y, o - 1, k);
    }
  }

  lemma {:induction false} ShlShl(v: nat, m: nat, n: nat)
    ensures Shl(Shl(v, m), n) == Shl(v, m + n)
  {
    if n > 0 {
      ShlShl(v, m, n - 1);
    }
  }

  lemma {:induction false} ShlBelow(v: nat, n: nat, m: nat)
    requires v < Pow2(n)
    ensures Shl(v, m) < Pow2(n + m)
  {
    if m > 0 {
      ShlBelow(v, n, m - 1);
    }
  }

  lemma {:induction false} ShlAdd(x: nat, y: nat, n: nat)
    ensures Shl(x + y, n) == Shl(x, n) + Shl(y, n)
  {
    if n > 0 {
      ShlAdd(x, y, n - 1);
    }
  }

  lemma Placed(b: Byte, v: nat, o: nat, n: nat)
    requires n <= o <= 8 && Low(b, o) == 0 && v < Pow2(n)
    ensures Or(b, Shl(v, o - n)) == Shl(Shl(Shr(b, o), n) + v, o - n) < 256
  {
    var h, w := Shr(b, o), Shl(v, o - n);
    ShlBelow(v, n, o - n);
    OrApart(b, w, o);
    SmallPowers();
    PowGrows(o, 8);
    OrBelow(b, w, 8);
    ShrLow(b, o);
    ShlShl(h, n, o - n);
    ShlAdd(Shl(h, n), v, o - n);
  }

  /** Storing the `n`-bit number `v` into the highest free positions of an octet whose `o` low
      positions are free.
   */
  lemma Place(b: Byte, v: nat, o: nat, n: nat)
    requires n <= o <= 8 && Low(b, o) == 0 && v < Pow2(n)
    ensures var c := Or(b, Shl(v, o - n));
      && c < 256 && Low(c, o - n) == 0
      && Bits(Shr(c, o - n), 8 - o + n) == Bits(Shr(b, o), 8 - o) + Bits(v, n)
  {
    var x := Shl(Shr(b, o), n) + v;
    Placed(b, v, o, n);
    ShrShl(x, o - n);
    BitsSplit(x, 8 - o, n);
    Joined(Shr(b, o), v, n);
    BitsLow(x, n);
  }

  /** A slice of the bits of a number. */
  lemma BitsSlice(v: nat, n: nat, i: nat, j: nat)
    requires i <= j <= n
    ensures Bits(v, n)[i..j] == Bits(Shr(v, n - j), j - i)
  {
    BitsSplit(v, j, n - j);
    BitsSplit(Shr(v, n - j), i, j - i);
  }

  /** The bits of one octet in the middle of a string. */
  lemma OctetAt(s: seq<Byte>, k: nat, i: nat, j: nat)
    requires k < |s| && i <= j <= 8 && 8 * k + j <= 8 * |s|
    ensures Octets(s)[8 * k + i..8 * k + j] == Bits(Shr(s[k], 8 - j), j - i)
  {
    hide Octets, Bits, Shr;
    OctetsSlice(s, k, k + 1);
    OctetsOne(s[k]);
    assert s[k..k + 1] == [s[k]];
    InnerSlice(Octets(s), 8 * k, 8 * (k + 1), i, j);
    BitsSlice(s[k], 8, i, j);
  }

  lemma InnerSlice(b: seq<bool>, p: nat, q: nat, i: nat, j: nat)
    requires p <= q <= |b| && i <= j <= q - p
    ensures b[p..q][i..j] == b[p + i..p + j]
  {
    forall k | 0 <= k < j - i
      ensures b[p..q][i..j][k] == b[p + i..p + j][k]
    {
      assert b[p..q][i + k] == b[p + i + k];
    }
  }
}
