/** The scale factors of layer 3: III_get_scale_factors_1 and III_get_scale_factors_2. */
module MpgScale {
  import opened BitStrings
  import opened MpgBits
  import opened MpgHuffman
  import opened MpgGranule
  import opened MpgBlock

  /** Numbers of the given widths, one behind the other. */
  ghost function Fields(s: Stream, p: nat, widths: seq<nat>): (r: seq<nat>)
    ensures |r| == |widths|
    decreases |widths|
  {
    if widths == [] then [] else [Num(s, p, widths[0])] + Fields(s, p + widths[0], widths[1..])
  }

  function Sum(widths: seq<nat>): nat {
    if widths == [] then 0 else widths[0] + Sum(widths[1..])
  }

  function Rep(count: nat, width: nat): (r: seq<nat>)
    ensures |r| == count
  {
    if count == 0 then [] else [width] + Rep(count - 1, width)
  }

  lemma {:induction false} Concat(s: Stream, p: nat, a: seq<nat>, b: seq<nat>)
    ensures Sum(a + b) == Sum(a) + Sum(b)
    ensures Fields(s, p, a + b) == Fields(s, p, a) + Fields(s, p + Sum(a), b)
    decreases |a|
  {
    hide Num, Fields, Sum;
    if a == [] {
      assert a + b == b;
      NoFields(s, p);
    } else {
      assert (a + b)[1..] == a[1..] + b;
      FirstField(s, p, a + b);
      FirstField(s, p, a);
      Concat(s, p + a[0], a[1..], b);
    }
  }

  lemma NoFields(s: Stream, p: nat)
    ensures Fields(s, p, []) == [] && Sum([]) == 0
  {
  }

  lemma FirstField(s: Stream, p: nat, widths: seq<nat>)
    requires widths != []
    ensures Fields(s, p, widths) == [Num(s, p, widths[0])] + Fields(s, p + widths[0], widths[1..])
    ensures Sum(widths) == widths[0] + Sum(widths[1..])
  {
    hide Num;
  }

  /** The lengths in `slen[0]` and `slen[1]`. */
  const SLEN0: seq<nat> := [0, 0, 0, 0, 3, 1, 1, 1, 2, 2, 2, 3, 3, 3, 4, 4]
  const SLEN1: seq<nat> := [0, 1, 2, 3, 0, 1, 2, 3, 1, 2, 3, 1, 2, 3, 2, 3]

  /** A group of factors that may be left out. */
  function Group(skip: bool, count: nat, width: nat): seq<nat> {
    Rep(count, if skip then 0 else width)
  }

  /** The widths of all factors of a granule in MPEG 1; those left out have no bits. */
  function Widths1(short: bool, mixed: bool, scfsi: int, num0: nat, num1: nat): seq<nat> {
    if short then (if mixed then Rep(8, num0) + Rep(9, num0) else Rep(18, num0)) + Rep(18, num1) + Rep(3, 0)
    else if scfsi < 0 then Rep(11, num0) + Rep(10, num1) + Rep(1, 0)
    else
      Group(Shr(scfsi, 3) % 2 == 1, 6, num0) + Group(Shr(scfsi, 2) % 2 == 1, 5, num0)
      + Group(Shr(scfsi, 1) % 2 == 1, 5, num1) + Group(scfsi % 2 == 1, 5, num1) + Rep(1, 0)
  }

  /** Each factor is the number of its width, behind those in front of it. */
  lemma {:induction false} FieldAt(s: Stream, p: nat, widths: seq<nat>, i: nat)
    requires i < |widths|
    ensures Fields(s, p, widths)[i] == Num(s, p + Sum(widths[..i]), widths[i])
    decreases |widths|
  {
    hide Num;
    FirstField(s, p, widths);
    if i > 0 {
      assert widths[..i][1..] == widths[1..][..i - 1];
      FieldAt(s, p + widths[0], widths[1..], i - 1);
    }
  }

  lemma {:induction false} RepAt(count: nat, width: nat, i: nat)
    requires i < count
    ensures Rep(count, width)[i] == width
  {
    if i > 0 {
      RepAt(count - 1, width, i - 1);
    }
  }

  /** The width of the `i`-th factor in MPEG 1. Long blocks have eleven factors of the first width and ten of the
      second one; in a second granule the factors of bands 0 to 5, 6 to 10, 11 to 15 and 16 to 20 are left out
      where the first granule's are shared. Short blocks have 18 of each, three for a band, and mixed ones eight for
      the long bands in front and three for a band from the fourth on. The last ones have no bits.
   */
  lemma WidthAt1(short: bool, mixed: bool, scfsi: int, num0: nat, num1: nat, i: nat)
    ensures var w := Widths1(short, mixed, scfsi, num0, num1);
      var first := if short then (if mixed then 17 else 18) else 11;
      var all := if short then first + 18 else 21;
      var shared := !short && scfsi >= 0
        && scfsi / (if i < 6 then 8 else if i < 11 then 4 else if i < 16 then 2 else 1) % 2 == 1;
      && |w| == (if short then all + 3 else 22)
      && (i < |w| ==> w[i] == if i >= all || shared then 0 else if i < first then num0 else num1)
  {
    hide Rep, Pow2;
    if scfsi >= 0 {
      ShrDiv(scfsi, 1);
      ShrDiv(scfsi, 2);
      ShrDiv(scfsi, 3);
      SmallPowers();
    }
    var a, b := if short then (if mixed then 17 else 18) else 11, if short then 18 else 10;
    if short || scfsi < 0 {
      if i < a {
        if short && mixed && i >= 8 {
          RepAt(9, num0, i - 8);
        } else {
          RepAt(if short && mixed then 8 else a, num0, i);
        }
      } else if i < a + b {
        RepAt(b, num1, i - a);
      } else if i < a + b + if short then 3 else 1 {
        RepAt(if short then 3 else 1, 0, i - a - b);
      }
    } else {
      SharedWidths(scfsi, num0, num1, i);
    }
  }

  lemma SharedWidths(scfsi: nat, num0: nat, num1: nat, i: nat)
    ensures var w := Widths1(false, false, scfsi, num0, num1);
      && |w| == 22
      && (i < 6 ==> w[i] == if Shr(scfsi, 3) % 2 == 1 then 0 else num0)
      && (6 <= i < 11 ==> w[i] == if Shr(scfsi, 2) % 2 == 1 then 0 else num0)
      && (11 <= i < 16 ==> w[i] == if Shr(scfsi, 1) % 2 == 1 then 0 else num1)
      && (16 <= i < 21 ==> w[i] == if scfsi % 2 == 1 then 0 else num1)
      && (i == 21 ==> w[i] == 0)
  {
    hide Rep, Shr;
    if i < 6 {
      RepAt(6, if Shr(scfsi, 3) % 2 == 1 then 0 else num0, i);
    } else if i < 11 {
      RepAt(5, if Shr(scfsi, 2) % 2 == 1 then 0 else num0, i - 6);
    } else if i < 16 {
      RepAt(5, if Shr(scfsi, 1) % 2 == 1 then 0 else num1, i - 11);
    } else if i < 21 {
      RepAt(5, if scfsi % 2 == 1 then 0 else num1, i - 16);
    } else if i == 21 {
      RepAt(1, 0, 0);
    }
  }

  /** The first `n` factors are the numbers of these widths from `p` on, and the reader stands behind them. */
  ghost predicate Have(scf: seq<nat>, n: nat, r: Reader, p: nat, widths: seq<nat>)
    reads r
  {
    n == |widths| <= |scf| && scf[..n] == Fields(r.stream, p, widths) && r.Pos() == p + Sum(widths)
  }

  /** One of the loops `for (i = count; i; i--) *scf++ = getbits_fast(width)`. */
  method ReadFields(r: Reader, scf: array<nat>, at: nat, count: nat, width: nat, ghost p: nat, ghost done: seq<nat>)
      returns (n: nat)
    requires r.Valid() && width <= 9 && at + count <= scf.Length && Have(scf[..], at, r, p, done)
    modifies r, scf
    ensures r.Valid() && n == at + count && Have(scf[..], n, r, p, done + Rep(count, width))
  {
    hide Fields, Sum, Num;
    var i := count;
    n := at;
    assert done + Rep(0, width) == done;
    while i > 0
      invariant 0 <= i <= count && n == at + count - i && r.Valid()
      invariant Have(scf[..], n, r, p, done + Rep(count - i, width))
    {
      OneMore(r.stream, p, done + Rep(count - i, width), width);
      ghost var was := scf[..n];
      scf[n] := r.GetBitsFast(width);
      assert scf[..n + 1] == was + [scf[n]];
      RepMore(done, count - i, width);
      n := n + 1;
      i := i - 1;
    }
  }

  lemma OneMore(s: Stream, p: nat, a: seq<nat>, width: nat)
    ensures Fields(s, p, a + [width]) == Fields(s, p, a) + [Num(s, p + Sum(a), width)]
    ensures Sum(a + [width]) == Sum(a) + width
  {
    hide Num;
    Concat(s, p, a, [width]);
    assert Fields(s, p + Sum(a), [width]) == [Num(s, p + Sum(a), width)] + Fields(s, p + Sum(a) + width, [width][1..]);
    assert Sum([width]) == width + Sum([width][1..]);
  }

  lemma {:induction false} RepMore(done: seq<nat>, count: nat, width: nat)
    ensures done + Rep(count, width) + [width] == done + Rep(count + 1, width)
  {
    if count > 0 {
      RepMore(done, count - 1, width);
      RepTail(count, width);
    }
  }

  lemma {:induction false} RepTail(count: nat, width: nat)
    ensures Rep(count + 1, width) == Rep(count, width) + [width]
  {
    if count > 0 {
      RepTail(count - 1, width);
    }
  }

  lemma {:induction false} RepSum(count: nat, width: nat)
    ensures Sum(Rep(count, width)) == count * width
  {
    if count > 0 {
      RepSum(count - 1, width);
      assert Rep(count, width)[1..] == Rep(count - 1, width);
    }
  }

  /** Factors that are set to zero: numbers without bits. */
  method ZeroFields(r: Reader, scf: array<nat>, at: nat, count: nat, ghost p: nat, ghost done: seq<nat>)
      returns (n: nat)
    requires at + count <= scf.Length && Have(scf[..], at, r, p, done)
    modifies scf
    ensures n == at + count && Have(scf[..], n, r, p, done + Rep(count, 0))
  {
    hide Fields, Sum;
    n := at;
    assert done + Rep(0, 0) == done;
    while n < at + count
      invariant at <= n <= at + count && Have(scf[..], n, r, p, done + Rep(n - at, 0))
    {
      OneMore(r.stream, p, done + Rep(n - at, 0), 0);
      assert Taken(r.stream, p + Sum(done + Rep(n - at, 0)), 0) == [];
      ghost var was := scf[..n];
      scf[n] := 0;
      assert scf[..n + 1] == was + [0];
      RepMore(done, n - at, 0);
      n := n + 1;
    }
  }

  lemma Nothing(scf: seq<nat>, r: Reader)
    ensures Have(scf, 0, r, r.Pos(), [])
  {
  }

  lemma GroupSum(skip: bool, count: nat, width: nat)
    ensures Sum(Group(skip, count, width)) == if skip then 0 else count * width
  {
    RepSum(count, if skip then 0 else width);
  }

  /** The bits of all factors in MPEG 1. */
  lemma Sum1(short: bool, mixed: bool, scfsi: int, num0: nat, num1: nat)
    ensures Sum(Widths1(short, mixed, scfsi, num0, num1)) ==
      if short then (num0 + num1) * 18 - (if mixed then num0 else 0)
      else if scfsi < 0 then (num0 + num1) * 10 + num0
      else
        (if Shr(scfsi, 3) % 2 == 1 then 0 else num0 * 6) + (if Shr(scfsi, 2) % 2 == 1 then 0 else num0 * 5)
        + (if Shr(scfsi, 1) % 2 == 1 then 0 else num1 * 5) + (if scfsi % 2 == 1 then 0 else num1 * 5)
  {
    hide Sum, Rep, Shr, Fields;
    var s: Stream := i => 0;
    RepSum(1, 0);
    RepSum(3, 0);
    if short {
      var a := if mixed then Rep(8, num0) + Rep(9, num0) else Rep(18, num0);
      RepSum(8, num0);
      RepSum(9, num0);
      RepSum(18, num0);
      RepSum(18, num1);
      Concat(s, 0, Rep(8, num0), Rep(9, num0));
      Concat(s, 0, a, Rep(18, num1));
      Concat(s, 0, a + Rep(18, num1), Rep(3, 0));
    } else if scfsi < 0 {
      RepSum(11, num0);
      RepSum(10, num1);
      Concat(s, 0, Rep(11, num0), Rep(10, num1));
      Concat(s, 0, Rep(11, num0) + Rep(10, num1), Rep(1, 0));
    } else {
      var a, b := Group(Shr(scfsi, 3) % 2 == 1, 6, num0), Group(Shr(scfsi, 2) % 2 == 1, 5, num0);
      var c, d := Group(Shr(scfsi, 1) % 2 == 1, 5, num1), Group(scfsi % 2 == 1, 5, num1);
      GroupSum(Shr(scfsi, 3) % 2 == 1, 6, num0);
      GroupSum(Shr(scfsi, 2) % 2 == 1, 5, num0);
      GroupSum(Shr(scfsi, 1) % 2 == 1, 5, num1);
      GroupSum(scfsi % 2 == 1, 5, num1);
      Concat(s, 0, a, b);
      Concat(s, 0, a + b, c);
      Concat(s, 0, a + b + c, d);
      Concat(s, 0, a + b + c + d, Rep(1, 0));
    }
  }

  /** One of the groups that granule 1 may leave out. */
  method ReadGroup(
      r: Reader, scf: array<nat>, at: nat, skip: bool, count: nat, width: nat, ghost p: nat, ghost done: seq<nat>)
      returns (n: nat, numbits: nat)
    requires r.Valid() && width <= 9 && at + count <= scf.Length && Have(scf[..], at, r, p, done)
    modifies r, scf
    ensures r.Valid() && n == at + count && Have(scf[..], n, r, p, done + Group(skip, count, width))
    ensures numbits == if skip then 0 else count * width
  {
    if !skip {
      n := ReadFields(r, scf, at, count, width, p, done);
      numbits := width * count;
    } else {
      n := ZeroFields(r, scf, at, count, p, done);
      numbits := 0;
    }
  }

  /** `III_get_scale_factors_1`: the factors, and as many bits as have been read. */
  method ScaleFactors1(r: Reader, scf: array<nat>, compress: nat, short: bool, mixed: bool, scfsi: int)
      returns (numbits: nat)
    requires r.Valid() && scf.Length == 39 && compress < 16
    modifies r, scf
    ensures r.Valid() && r.Pos() == old(r.Pos()) + numbits
    ensures var w := Widths1(short, mixed, scfsi, SLEN0[compress], SLEN1[compress]);
      && numbits == Sum(w) && |w| <= 39
      && scf[..|w|] == Fields(r.stream, old(r.Pos()), w)
  {
    hide Fields, Sum, Rep, Shr;
    ghost var p := r.Pos();
    var num0, num1 := SLEN0[compress], SLEN1[compress];
    Sum1(short, mixed, scfsi, num0, num1);
    Nothing(scf[..], r);
    var n: nat := 0;
    if short {
      numbits := ShortFactors(r, scf, mixed, num0, num1);
    } else if scfsi < 0 {
      assert [] + Rep(11, num0) == Rep(11, num0);
      n := ReadFields(r, scf, 0, 11, num0, p, []);
      n := ReadFields(r, scf, n, 10, num1, p, Rep(11, num0));
      n := ZeroFields(r, scf, n, 1, p, Rep(11, num0) + Rep(10, num1));
      numbits := (num0 + num1) * 10 + num0;
    } else {
      numbits := LaterFactors(r, scf, scfsi, num0, num1);
    }
  }

  method ShortFactors(r: Reader, scf: array<nat>, mixed: bool, num0: nat, num1: nat) returns (numbits: nat)
    requires r.Valid() && scf.Length == 39 && num0 <= 4 && num1 <= 4
    modifies r, scf
    ensures r.Valid()
    ensures var w := Widths1(true, mixed, 0, num0, num1);
      Have(scf[..], |w|, r, old(r.Pos()), w) && numbits == (num0 + num1) * 18 - (if mixed then num0 else 0)
  {
    hide Fields, Sum, Rep;
    ghost var p := r.Pos();
    Nothing(scf[..], r);
    var n: nat := 0;
    var i := 18;
    ghost var done: seq<nat> := [];
    numbits := (num0 + num1) * 18;
    if mixed {
      n := ReadFields(r, scf, n, 8, num0, p, done);
      done := Rep(8, num0);
      assert [] + done == done;
      i := 9;
      numbits := numbits - num0;
    }
    ghost var first := done + Rep(i, num0);
    assert !mixed ==> first == Rep(18, num0);
    n := ReadFields(r, scf, n, i, num0, p, done);
    n := ReadFields(r, scf, n, 18, num1, p, first);
    n := ZeroFields(r, scf, n, 3, p, first + Rep(18, num1));
  }

  method LaterFactors(r: Reader, scf: array<nat>, scfsi: nat, num0: nat, num1: nat) returns (numbits: nat)
    requires r.Valid() && scf.Length == 39 && num0 <= 4 && num1 <= 4
    modifies r, scf
    ensures r.Valid()
    ensures var w := Widths1(false, false, scfsi, num0, num1);
      Have(scf[..], |w|, r, old(r.Pos()), w) && numbits == Sum(w)
  {
    hide Fields, Sum, Rep, Shr, Have;
    ghost var p := r.Pos();
    Sum1(false, false, scfsi, num0, num1);
    Nothing(scf[..], r);
    var n, k: nat, k2: nat, k3: nat, k4: nat;
    var s3, s2, s1, s0 := Shr(scfsi, 3) % 2 == 1, Shr(scfsi, 2) % 2 == 1, Shr(scfsi, 1) % 2 == 1, scfsi % 2 == 1;
    ghost var a, b, c, d := Group(s3, 6, num0), Group(s2, 5, num0), Group(s1, 5, num1), Group(s0, 5, num1);
    assert [] + a == a;
    n, k := ReadGroup(r, scf, 0, s3, 6, num0, p, []);
    n, k2 := ReadGroup(r, scf, n, s2, 5, num0, p, a);
    n, k3 := ReadGroup(r, scf, n, s1, 5, num1, p, a + b);
    n, k4 := ReadGroup(r, scf, n, s0, 5, num1, p, a + b + c);
    n := ZeroFields(r, scf, n, 1, p, a + b + c + d);
    numbits := k + k2 + k3 + k4;
  }

  // ---- MPEG 2 ----

  /** How many factors share each of the four widths. */
  const STAB: seq<seq<seq<nat>>> := [
    [[6, 5, 5, 5], [6, 5, 7, 3], [11, 10, 0, 0], [7, 7, 7, 0], [6, 6, 6, 3], [8, 8, 5, 0]],
    [[9, 9, 9, 9], [9, 9, 12, 6], [18, 18, 0, 0], [12, 12, 12, 0], [12, 9, 9, 6], [15, 12, 9, 0]],
    [[6, 9, 9, 9], [6, 9, 12, 6], [15, 18, 0, 0], [6, 15, 12, 0], [6, 12, 9, 6], [6, 18, 9, 0]]]

  function Kind(short: bool, mixed: bool): nat {
    if !short then 0 else if mixed then 2 else 1
  }

  /** The widths from the `i`-th of the four on; `slen` has three bits for each of them. */
  function Packed(pnt: seq<nat>, slen: nat, i: nat): seq<nat>
    requires |pnt| == 4 && i <= 4
    decreases 4 - i
  {
    if i == 4 then [] else Rep(pnt[i], slen % 8) + Packed(pnt, Shr(slen, 3), i + 1)
  }

  /** In MPEG 2 the four shares have the widths in the four times three low bits, from the lowest ones on. */
  lemma WidthAt2(pnt: seq<nat>, slen: nat, i: nat)
    requires |pnt| == 4
    ensures var w, a := Packed(pnt, slen, 0), pnt[0];
      var b, c := a + pnt[1], a + pnt[1] + pnt[2];
      && |w| == c + pnt[3]
      && (i < |w| ==> w[i] == slen / (if i < a then 1 else if i < b then 8 else if i < c then 64 else 512) % 8)
  {
    hide Rep, Shr;
    var s1 := Shr(slen, 3);
    var s2 := Shr(s1, 3);
    var s3 := Shr(s2, 3);
    Thirds(slen);
    assert Packed(pnt, s3, 3) == Rep(pnt[3], s3 % 8) + Packed(pnt, Shr(s3, 3), 4);
    assert Packed(pnt, s2, 2) == Rep(pnt[2], s2 % 8) + Packed(pnt, s3, 3);
    assert Packed(pnt, s1, 1) == Rep(pnt[1], s1 % 8) + Packed(pnt, s2, 2);
    var a := pnt[0];
    var b, c := a + pnt[1], a + pnt[1] + pnt[2];
    if i < a {
      RepAt(pnt[0], slen % 8, i);
    } else if i < b {
      RepAt(pnt[1], s1 % 8, i - a);
    } else if i < c {
      RepAt(pnt[2], s2 % 8, i - b);
    } else if i < c + pnt[3] {
      RepAt(pnt[3], s3 % 8, i - c);
    }
  }

  lemma Thirds(slen: nat)
    ensures Shr(slen, 3) == slen / 8 && Shr(Shr(slen, 3), 3) == slen / 64
    ensures Shr(Shr(Shr(slen, 3), 3), 3) == slen / 512
  {
    hide Shr;
    SmallPowers();
    ShrDiv(slen, 3);
    ShrDiv(slen / 8, 3);
    ShrDiv(slen / 64, 3);
  }

  predicate InStab(kind: nat, slen: nat) {
    kind < 3 && Shr(slen, 12) % 8 < 6
  }

  /** The widths of all factors of a granule in MPEG 2. */
  function Widths2(kind: nat, slen: nat): seq<nat>
    requires InStab(kind, slen)
  {
    StabSize(kind, Shr(slen, 12) % 8);
    Packed(STAB[kind][Shr(slen, 12) % 8], slen, 0) + Rep(2 * kind + 1, 0)
  }

  /** The shares fill the table of factors, and never more than that. */
  lemma StabSize(kind: nat, j: nat)
    requires kind < 3 && j < 6
    ensures |STAB| == 3 && |STAB[kind]| == 6 && |STAB[kind][j]| == 4
    ensures var pnt := STAB[kind][j];
      pnt[0] + pnt[1] + pnt[2] + pnt[3] == if kind == 0 then 21 else if kind == 1 then 36 else 33
  {
    var row := STAB[kind];
    if kind == 0 {
      assert row == [[6, 5, 5, 5], [6, 5, 7, 3], [11, 10, 0, 0], [7, 7, 7, 0], [6, 6, 6, 3], [8, 8, 5, 0]];
    } else if kind == 1 {
      assert row == [[9, 9, 9, 9], [9, 9, 12, 6], [18, 18, 0, 0], [12, 12, 12, 0], [12, 9, 9, 6], [15, 12, 9, 0]];
    } else {
      assert row == [[6, 9, 9, 9], [6, 9, 12, 6], [15, 18, 0, 0], [6, 15, 12, 0], [6, 12, 9, 6], [6, 18, 9, 0]];
    }
  }

  function Share(pnt: seq<nat>, i: nat): nat
    requires |pnt| == 4 && i <= 4
    decreases 4 - i
  {
    if i == 4 then 0 else pnt[i] + Share(pnt, i + 1)
  }

  lemma {:induction false} PackedSize(pnt: seq<nat>, slen: nat, i: nat)
    requires |pnt| == 4 && i <= 4
    ensures |Packed(pnt, slen, i)| == Share(pnt, i)
    decreases 4 - i
  {
    if i < 4 {
      PackedSize(pnt, Shr(slen, 3), i + 1);
    }
  }

  /** `III_get_scale_factors_2`. */
  method ScaleFactors2(r: Reader, scf: array<nat>, slen: nat, short: bool, mixed: bool)
      returns (numbits: nat, preflag: bool)
    requires r.Valid() && scf.Length == 39 && InStab(Kind(short, mixed), slen)
    modifies r, scf
    ensures r.Valid() && r.Pos() == old(r.Pos()) + numbits && preflag == (Shr(slen, 15) % 2 == 1)
    ensures var w := Widths2(Kind(short, mixed), slen);
      && numbits == Sum(w) && |w| <= 39
      && scf[..|w|] == Fields(r.stream, old(r.Pos()), w)
  {
    hide Fields, Sum, Rep, Shr, Packed;
    ghost var p := r.Pos();
    preflag := Shr(slen, 15) % 2 == 1;
    var kind := 0;
    if short {
      kind := kind + 1;
      if mixed {
        kind := kind + 1;
      }
    }
    StabSize(kind, Shr(slen, 12) % 8);
    var pnt := STAB[kind][Shr(slen, 12) % 8];
    ghost var all := Packed(pnt, slen, 0);
    var n: nat;
    n, numbits := PackedFactors(r, scf, slen, pnt);
    PackedSize(pnt, slen, 0);
    Shared(pnt);
    n := ZeroFields(r, scf, n, 2 * kind + 1, p, all);
    RepSum(2 * kind + 1, 0);
    Concat(r.stream, p, all, Rep(2 * kind + 1, 0));
  }

  lemma Shared(pnt: seq<nat>)
    requires |pnt| == 4
    ensures Share(pnt, 0) == pnt[0] + pnt[1] + pnt[2] + pnt[3]
  {
    assert Share(pnt, 3) == pnt[3];
    assert Share(pnt, 2) == pnt[2] + pnt[3];
  }

  method PackedFactors(r: Reader, scf: array<nat>, slen: nat, pnt: seq<nat>) returns (n: nat, numbits: nat)
    requires r.Valid() && |pnt| == 4 && Share(pnt, 0) <= scf.Length
    modifies r, scf
    ensures r.Valid()
    ensures var w := Packed(pnt, slen, 0);
      n == |w| && numbits == Sum(w) && Have(scf[..], n, r, old(r.Pos()), w)
  {
    hide Fields, Sum, Rep, Shr, Have, Share, Packed;
    ghost var p := r.Pos();
    ghost var done: seq<nat> := [];
    var rest := slen;
    var i := 0;
    n, numbits := 0, 0;
    Nothing(scf[..], r);
    assert done + Packed(pnt, slen, 0) == Packed(pnt, slen, 0);
    NoFields(r.stream, p);
    while i < 4
      invariant 0 <= i <= 4 && r.Valid() && n + Share(pnt, i) <= scf.Length
      invariant done + Packed(pnt, rest, i) == Packed(pnt, slen, 0)
      invariant Have(scf[..], n, r, p, done) && numbits == Sum(done)
    {
      var num, bits := rest % 8, 0;
      NextShare(r.stream, p, done, pnt, rest, i);
      n, bits := ReadGroup(r, scf, n, num == 0, pnt[i], num, p, done);
      numbits := numbits + bits;
      done := done + Group(num == 0, pnt[i], num);
      rest := Shr(rest, 3);
      i := i + 1;
    }
    PackedEnd(pnt, rest);
    assert done + [] == done;
    HaveSize(scf[..], n, r, p, done);
  }

  lemma PackedEnd(pnt: seq<nat>, slen: nat)
    requires |pnt| == 4
    ensures Packed(pnt, slen, 4) == []
  {
  }

  /** The next of the four shares. */
  lemma NextShare(s: Stream, p: nat, done: seq<nat>, pnt: seq<nat>, slen: nat, i: nat)
    requires |pnt| == 4 && i < 4
    ensures var more := Group(slen % 8 == 0, pnt[i], slen % 8);
      && Share(pnt, i) == pnt[i] + Share(pnt, i + 1)
      && done + Packed(pnt, slen, i) == done + more + Packed(pnt, Shr(slen, 3), i + 1)
      && Sum(done + more) == Sum(done) + pnt[i] * (slen % 8)
  {
    hide Shr, Fields, Sum, Rep;
    var more := Rep(pnt[i], slen % 8);
    assert done + (more + Packed(pnt, Shr(slen, 3), i + 1)) == done + more + Packed(pnt, Shr(slen, 3), i + 1);
    RepSum(pnt[i], slen % 8);
    Concat(s, p, done, more);
  }

  lemma HaveSize(scf: seq<nat>, n: nat, r: Reader, p: nat, widths: seq<nat>)
    requires Have(scf, n, r, p, widths)
    ensures n == |widths|
  {
  }

  // ---- A granule of one channel ----

  /** `pretab1` and `pretab2`. */
  const PRETAB1: seq<nat> := [0, 0, 0, 0, 0, 0, 0, 0, 0, 0, 0, 1, 1, 1, 1, 2, 2, 3, 3, 3, 2, 0]
  const PRETAB2: seq<nat> := [0, 0, 0, 0, 0, 0, 0, 0, 0, 0, 0, 0, 0, 0, 0, 0, 0, 0, 0, 0, 0, 0]

  /** How the scale factors are coded: in MPEG 1, or packed with the choice of `pretab`. */
  datatype Scale = Mpeg1(compress: nat, scfsi: int, preflag: bool) | Mpeg2(slen: nat)

  /** Block types other than 2, block type 2, and block type 2 with long blocks in front. */
  datatype Form = Long | Short | Mixed

  predicate Scalable(k: Scale, form: Form) {
    match k
    case Mpeg1(compress, _, _) => compress < 16
    case Mpeg2(slen) => InStab(Kind(!form.Long?, form.Mixed?), slen)
  }

  function Widths(k: Scale, form: Form): seq<nat>
    requires Scalable(k, form)
  {
    match k
    case Mpeg1(compress, scfsi, _) => Widths1(!form.Long?, form.Mixed?, scfsi, SLEN0[compress], SLEN1[compress])
    case Mpeg2(slen) => Widths2(Kind(!form.Long?, form.Mixed?), slen)
  }

  function Pretab(k: Scale): seq<nat> {
    if (match k case Mpeg1(_, _, preflag) => preflag case Mpeg2(slen) => Shr(slen, 15) % 2 == 1)
    then PRETAB1 else PRETAB2
  }

  /** The index of the gain of the `i`-th entry of a layout. */
  function GainOf(scf: seq<nat>, k: Scale, form: Form, shift: nat, i: nat): nat
    requires i < |scf| && (form.Long? ==> i < 22)
  {
    Shl(scf[i] + if form.Long? then Pretab(k)[i] else 0, shift)
  }

  /** The gain is a scale factor, with the extra table for long blocks if there is one, shifted. */
  lemma GainMeans(scf: seq<nat>, k: Scale, form: Form, shift: nat, i: nat)
    requires i < |scf| && (form.Long? ==> i < 22)
    ensures var extra := form.Long? && match k case Mpeg1(_, _, preflag) => preflag
        case Mpeg2(slen) => slen / 0x8000 % 2 == 1;
      var more := if i < 11 || i == 21 then 0 else if i < 15 then 1 else if i < 17 || i == 20 then 2 else 3;
      GainOf(scf, k, form, shift, i) == (scf[i] + if extra then more else 0) * Pow2(shift)
  {
    ShlMul(scf[i] + if form.Long? then Pretab(k)[i] else 0, shift);
    if k.Mpeg2? {
      hide Shl;
      ShrDiv(k.slen, 15);
      assert Pow2(15) == 0x8000 by {
        assert Pow2(8) == 256;
      }
    }
  }

  method ReadFactors(r: Reader, scf: array<nat>, k: Scale, form: Form) returns (numbits: nat, pretab: seq<nat>)
    requires r.Valid() && scf.Length == 39 && Scalable(k, form)
    modifies r, scf
    ensures r.Valid() && r.Pos() == old(r.Pos()) + numbits && pretab == Pretab(k)
    ensures numbits == Sum(Widths(k, form)) && |Widths(k, form)| <= 39
    ensures scf[..|Widths(k, form)|] == Fields(r.stream, old(r.Pos()), Widths(k, form))
  {
    hide Fields, Sum, Shr, Widths1, Widths2;
    match k
    case Mpeg1(compress, scfsi, preflag) =>
      numbits := ScaleFactors1(r, scf, compress, !form.Long?, form.Mixed?, scfsi);
      pretab := if preflag then PRETAB1 else PRETAB2;
    case Mpeg2(slen) =>
      var preflag;
      numbits, preflag := ScaleFactors2(r, scf, slen, !form.Long?, form.Mixed?);
      pretab := if preflag then PRETAB1 else PRETAB2;
  }

  /** The cell of the `t`-th coefficient, if its value is `value`. */
  ghost predicate DeliveredAt(
      xr: seq<Cell>, layout: seq<Entry>, form: Form, scf: seq<nat>, k: Scale, shift: nat, t: nat, value: int)
    requires |xr| == 576 && |scf| == 39 && t < 576 && WellMapped(layout)
    requires form.Long? ==> Straight(layout)
  {
    var e := EntryOf(layout, t);
    var cell := xr[CellOf(layout, t)];
    cell == if value == 0 then Zero
      else Cell(value, e.win, GainOf(scf, k, form, shift, BandOf(Lens(layout), t / 2)))
  }

  /** The cells of a granule with the coefficients `c`. */
  ghost predicate Delivered(
      xr: seq<Cell>, layout: seq<Entry>, form: Form, scf: seq<nat>, k: Scale, shift: nat, c: seq<int>)
    requires |xr| == 576 && |scf| == 39 && |c| <= 576 && WellMapped(layout) && (form.Long? ==> Straight(layout))
  {
    forall t :: 0 <= t < |c| ==> DeliveredAt(xr, layout, form, scf, k, shift, t, c[t])
  }

  /** What the limits begin with. */
  function Lowest(form: Form): (r: seq<int>)
    ensures |r| == 4
  {
    if form.Mixed? then [2, 2, 2, -1] else [-1, -1, -1, -1]
  }

  /** The limits: behind the highest band of each window that has a coefficient other than zero. */
  ghost predicate Delimited(layout: seq<Entry>, form: Form, s: seq<int>, max: seq<int>)
    requires WellMapped(layout)
  {
    |max| == 4 && forall w: nat :: w < 4 ==>
      Highest(layout, s, w, if form.Mixed? && w < 3 then 2 else -1, max[w] - 1)
  }

  /** The limits of a window from those that a block has noted. */
  lemma DelimitingAt(layout: seq<Entry>, form: Form, s: seq<int>, w: nat)
    requires Counted(layout) && Rising(layout) && |s| <= 576 && w < 4
    ensures Highest(layout, s, w, if form.Mixed? && w < 3 then 2 else -1, Limits(layout, Lowest(form), s)[w])
  {
    LimitsHighest(layout, Lowest(form), s, w);
  }

  lemma Delimiting(b: Block, form: Form, cut: bool, max: seq<int>)
    requires b.Fixed() && b.LimitedTo(cut) && b.first == Lowest(form) && |b.max| == 4
    requires max == [b.max[0] + 1, b.max[1] + 1, b.max[2] + 1, b.max[3] + 1]
    ensures Delimited(b.layout, form, Flagged(b.c, cut), max)
  {
    hide Counted, Tiling, Rising, Straight, Highest, Limits, Flagged, Lowest;
    var s := Flagged(b.c, cut);
    DelimitingAt(b.layout, form, s, 0);
    DelimitingAt(b.layout, form, s, 1);
    DelimitingAt(b.layout, form, s, 2);
    DelimitingAt(b.layout, form, s, 3);
  }

  /** What a block promises is what is to be delivered. */
  lemma Delivering(b: Block, form: Form, scf: seq<nat>, k: Scale)
    requires b.Fixed() && |b.c| <= 576 && b.Placed()
    requires |scf| == 39 && b.scf == scf && b.pretab == Pretab(k) && b.long == form.Long?
    ensures Delivered(b.xr[..], b.layout, form, scf, k, b.shift, b.c)
  {
    hide Shl, Shr, WellMapped, Straight, DeliveredAt;
    forall t | 0 <= t < |b.c|
      ensures DeliveredAt(b.xr[..], b.layout, form, scf, k, b.shift, t, b.c[t])
    {
      DeliveringAt(b, form, scf, k, t);
    }
  }

  lemma DeliveringAt(b: Block, form: Form, scf: seq<nat>, k: Scale, t: nat)
    requires b.Fixed() && |b.c| <= 576 && b.Placed() && t < |b.c|
    requires |scf| == 39 && b.scf == scf && b.pretab == Pretab(k) && b.long == form.Long?
    ensures DeliveredAt(b.xr[..], b.layout, form, scf, k, b.shift, t, b.c[t])
  {
    hide Shl, Shr, Tiling, Rising, CellOf, BandOf;
    CellsApart(b.layout, t);
  }

  /**
   * The scale factors and the coefficients of one channel, as `do_layer3` reads them. Without an
   * error exactly the bits that the side information announces have been used up.
   */
  method ReadChannel(
      r: Reader, xr: array<Cell>, scf: array<nat>, g: GrInfo, layout: seq<Entry>, form: Form, shift: nat, k: Scale)
      returns (err: bool, max: seq<int>)
    requires r.Valid() && xr.Length == 576 && scf.Length == 39 && Fits(g) && Scalable(k, form)
    requires WellMapped(layout) && if form.Long? then Straight(layout) else g.bigValues <= g.region2
    modifies r, xr, scf
    ensures r.Valid() && |Widths(k, form)| <= 39
    ensures if err then r.Pos() > old(r.Pos()) + g.part23Length else r.Pos() == old(r.Pos()) + g.part23Length
    ensures scf[..|Widths(k, form)|] == Fields(r.stream, old(r.Pos()), Widths(k, form))
    ensures var used := Sum(Widths(k, form));
      var d := Coefficients(r.stream, g, old(r.Pos()) + used, g.part23Length - used);
      && (err <==> d.remain < 0)
      && Delivered(xr[..], layout, form, scf[..], k, shift, d.c)
      && Delimited(layout, form, Flagged(d.c, d.cut), max)
      && Cleared(xr[..], old(xr[..]), layout, form.Long?, |d.c|, d.cut)
  {
    hide Fields, Sum, Shr, Shl, Coefficients, Widths, WellMapped, Straight, Delivered, Delimited, Limits, Lowest,
      Cleared, Block.LimitedTo, Block.Placed;
    var part2bits, pretab := ReadFactors(r, scf, k, form);
    var b := new Block(xr, layout, form.Long?, scf[..], pretab, shift, Lowest(form));
    ghost var cut := Coefficients(r.stream, g, r.Pos(), g.part23Length - part2bits).cut;
    err := Dequantize(r, b, g, part2bits);
    max := [b.max[0] + 1, b.max[1] + 1, b.max[2] + 1, b.max[3] + 1];
    Delivering(b, form, scf[..], k);
    Delimiting(b, form, cut, max);
  }
}
