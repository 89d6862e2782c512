/**
 * III_dequantize_sample: where the coefficients of a granule go. They are kept as whole numbers
 * with the index of their gain. A block is described by the entries of its layout (`map` in the source), one for
 * each band,
 * or for each band and window: in the order of the stream, the cells of an entry lie one or three
 * apart.
 */
module MpgBlock {
  import opened BitStrings
  import opened MpgBits
  import opened MpgHuffman
  import opened MpgGranule

  /** A value, the window whose gains it takes (3 for none), and the index of the gain. */
  datatype Cell = Zero | Cell(value: int, win: nat, gain: nat)

  /** Pairs, the first cell, the window, and the band. */
  datatype Entry = Entry(len: nat, start: nat, win: nat, cb: nat)

  /** The pairs in the first `k` bands. */
  function Prefix(bands: seq<nat>, k: nat): nat
    requires k <= |bands|
  {
    if k == 0 then 0 else Prefix(bands, k - 1) + bands[k - 1]
  }

  /** The band that the pair `t` is in. */
  ghost function BandOf(bands: seq<nat>, t: nat): (k: nat)
    requires t < Prefix(bands, |bands|)
    ensures k < |bands| && Prefix(bands, k) <= t < Prefix(bands, k + 1)
  {
    BandUpTo(bands, t, |bands|)
  }

  ghost function BandUpTo(bands: seq<nat>, t: nat, n: nat): (k: nat)
    requires n <= |bands| && t < Prefix(bands, n)
    ensures k < n && Prefix(bands, k) <= t < Prefix(bands, k + 1)
  {
    if Prefix(bands, n - 1) <= t then n - 1 else BandUpTo(bands, t, n - 1)
  }

  lemma {:induction false} PrefixGrows(bands: seq<nat>, j: nat, k: nat)
    requires j <= k <= |bands|
    ensures Prefix(bands, j) <= Prefix(bands, k)
    decreases k - j
  {
    if j < k {
      PrefixGrows(bands, j, k - 1);
    }
  }

  lemma BandIs(bands: seq<nat>, t: nat, k: nat)
    requires t < Prefix(bands, |bands|) && k < |bands| && Prefix(bands, k) <= t < Prefix(bands, k + 1)
    ensures BandOf(bands, t) == k
  {
    var b := BandOf(bands, t);
    if b < k {
      PrefixGrows(bands, b + 1, k);
    } else if k < b {
      PrefixGrows(bands, k + 1, b);
    }
  }

  function Lens(layout: seq<Entry>): (r: seq<nat>)
    ensures |r| == |layout|
  {
    seq(|layout|, i requires 0 <= i < |layout| => layout[i].len)
  }

  function Stride(e: Entry): nat {
    if e.win == 3 then 1 else 3
  }

  /** The entry that the `t`-th coefficient belongs to, and the cell where it goes. */
  ghost function EntryOf(layout: seq<Entry>, t: nat): Entry
    requires t / 2 < Prefix(Lens(layout), |layout|)
  {
    layout[BandOf(Lens(layout), t / 2)]
  }

  ghost function CellOf(layout: seq<Entry>, t: nat): nat
    requires t / 2 < Prefix(Lens(layout), |layout|)
  {
    var k := BandOf(Lens(layout), t / 2);
    CellAt(layout[k], t - 2 * Prefix(Lens(layout), k))
  }

  /** The `d`-th cell of an entry. */
  function CellAt(e: Entry, d: nat): nat {
    if e.win == 3 then e.start + d else e.start + 3 * d
  }

  /** There are entries for all of the 576 coefficients. */
  ghost predicate Enough(layout: seq<Entry>) {
    Prefix(Lens(layout), |layout|) >= 288
  }

  ghost predicate Counted(layout: seq<Entry>) {
    && |layout| <= 39 && Prefix(Lens(layout), |layout|) == 288
    && forall e :: e in layout ==> e.len > 0 && e.win <= 3
  }

  /** All coefficients go to the 576 cells that there are. */
  ghost predicate Inside(layout: seq<Entry>)
    requires Enough(layout)
  {
    forall t :: 0 <= t < 576 ==> CellOf(layout, t) < 576
  }

  /** No two coefficients go to the same cell. */
  ghost predicate Distinct(layout: seq<Entry>)
    requires Enough(layout)
  {
    forall t, u :: 0 <= t < u < 576 ==> CellOf(layout, t) != CellOf(layout, u)
  }

  /** No two coefficients go to the same one of the 576 cells. */
  ghost predicate Tiling(layout: seq<Entry>)
    requires Counted(layout)
  {
    Inside(layout) && Distinct(layout)
  }

  /** The bands of each window are in ascending order. */
  ghost predicate Rising(layout: seq<Entry>) {
    forall i, j :: 0 <= i < j < |layout| && layout[i].win == layout[j].win ==> layout[i].cb <= layout[j].cb
  }

  ghost predicate WellMapped(layout: seq<Entry>) {
    Counted(layout) && Tiling(layout) && Rising(layout)
  }

  /** Where the coefficients of one entry go. */
  lemma CellIs(layout: seq<Entry>, t: nat, k: nat)
    requires Counted(layout) && k < |layout| && t < 576
    requires Prefix(Lens(layout), k) <= t / 2 < Prefix(Lens(layout), k + 1)
    ensures CellOf(layout, t) == CellAt(layout[k], t - 2 * Prefix(Lens(layout), k)) && EntryOf(layout, t) == layout[k]
  {
    BandIs(Lens(layout), t / 2, k);
  }

  lemma CellsApart(layout: seq<Entry>, t: nat)
    requires WellMapped(layout) && t < 576
    ensures CellOf(layout, t) < 576
    ensures forall u :: 0 <= u < 576 && u != t ==> CellOf(layout, u) != CellOf(layout, t)
  {
    hide CellOf;
  }

  /** The first coefficient of an entry goes to its first cell. */
  lemma AtEntry(layout: seq<Entry>, k: nat)
    requires k < |layout| && Counted(layout)
    ensures layout[k].len > 0 && layout[k].win <= 3
    ensures Prefix(Lens(layout), k + 1) == Prefix(Lens(layout), k) + layout[k].len <= 288
    ensures CellOf(layout, 2 * Prefix(Lens(layout), k)) == layout[k].start
  {
    hide CellOf;
    assert layout[k] in layout;
    PrefixGrows(Lens(layout), k + 1, |layout|);
    CellIs(layout, 2 * Prefix(Lens(layout), k), k);
  }

  /** The layout of a long block: the cells in their own order. */
  ghost predicate Straight(layout: seq<Entry>)
    requires Prefix(Lens(layout), |layout|) == 288
  {
    |layout| == 22 && (forall e :: e in layout ==> e.win == 3) && forall t :: 0 <= t < 576 ==> CellOf(layout, t) == t
  }

  /** The cells in the order of the coefficients. */
  ghost function InOrder(xr: seq<Cell>, layout: seq<Entry>): (r: seq<Cell>)
    requires |xr| == 576 && WellMapped(layout)
    ensures |r| == 576
  {
    seq(576, t requires 0 <= t < 576 => xr[CellOf(layout, t)])
  }

  /**
   * The cells that blocks with windows set to zero behind `n` coefficients: those of the pairs of
   * the current entry that have not been begun, one cell too early if a pair has been; and those of
   * the later entries, but only one pair of the last one. There are none at all if the last entry is
   * the current one.
   */
  ghost predicate Zeroed(layout: seq<Entry>, n: nat, cut: bool, t: nat)
    requires Counted(layout)
  {
    var lens, b := Lens(layout), Begun(n, cut);
    var m := if b == 0 || b > 288 then 0 else BandOf(lens, b - 1) + 1;
    && b <= 288 && m < |layout|
    && (n <= t < n + 2 * (Prefix(lens, m) - b) || 2 * Prefix(lens, m) <= t < 2 * Prefix(lens, |layout| - 1) + 2)
  }

  /** The cells behind `n` coefficients, given what was in them; after an odd number long blocks leave the last one. */
  ghost predicate Cleared(xr: seq<Cell>, was: seq<Cell>, layout: seq<Entry>, long: bool, n: nat, cut: bool)
    requires |xr| == |was| == 576 && WellMapped(layout)
  {
    forall t :: n <= t < 576 ==>
      var zero := if long then t < 576 - n % 2 else Zeroed(layout, n, cut, t);
      InOrder(xr, layout)[t] == if zero then Zero else InOrder(was, layout)[t]
  }

  /** Between `n` and `u` all has been cleared but what lies between `gap` and `back`. */
  ghost predicate Clears(before: seq<Cell>, now: seq<Cell>, n: nat, gap: int, back: nat, u: nat) {
    && |now| == |before|
    && forall t :: 0 <= t < |now| ==> now[t] == if n <= t < u && (t < gap || back <= t) then Zero else before[t]
  }

  lemma ClearsGap(before: seq<Cell>, now: seq<Cell>, n: nat, gap: int, back: nat, u: nat, v: nat)
    requires Clears(before, now, n, gap, back, u) && (u == v || (u == gap && v == back && n <= u <= v))
    ensures Clears(before, now, n, gap, back, v)
  {
  }

  lemma ClearsPair(before: seq<Cell>, now: seq<Cell>, n: nat, gap: int, back: nat, u: nat)
    requires Clears(before, now, n, gap, back, u) && n <= u && u + 2 <= |now| && (u + 2 <= gap || back <= u)
    ensures Clears(before, now[u := Zero][u + 1 := Zero], n, gap, back, u + 2)
  {
  }

  /** One cell and its place in the order of the coefficients. */
  lemma PutInOrder(xr: seq<Cell>, layout: seq<Entry>, u: nat)
    requires |xr| == 576 && WellMapped(layout) && u < 576
    ensures CellOf(layout, u) < 576
    ensures InOrder(xr[CellOf(layout, u) := Zero], layout) == InOrder(xr, layout)[u := Zero]
  {
    hide CellOf, Rising, Tiling;
    CellsApart(layout, u);
    forall t | 0 <= t < 576
      ensures CellOf(layout, t) < 576
    {
      CellsApart(layout, t);
    }
  }

  lemma ClearedAll(layout: seq<Entry>, before: seq<Cell>, now: seq<Cell>, n: nat, cut: bool, m0: nat, u: nat)
    requires Counted(layout) && |before| == 576 && Begun(n, cut) <= 288
    requires m0 == if Begun(n, cut) == 0 then 0 else BandOf(Lens(layout), Begun(n, cut) - 1) + 1
    requires m0 <= |layout| && Begun(n, cut) <= Prefix(Lens(layout), m0)
    requires u == if m0 == |layout| then n else 2 * Prefix(Lens(layout), |layout| - 1) + 2
    requires m0 < |layout| ==> Prefix(Lens(layout), m0) <= Prefix(Lens(layout), |layout| - 1)
    requires var p := Prefix(Lens(layout), m0);
      Clears(before, now, n, n + 2 * (p - Begun(n, cut)), 2 * p, u)
    ensures |now| == 576
    ensures forall t :: 0 <= t < 576 ==> now[t] == if t >= n && Zeroed(layout, n, cut, t) then Zero else before[t]
  {
    hide Prefix, BandOf, Counted;
  }

  // ---- The limits of the windows ----

  /** The coefficients up to the last one whose flag has been read; its sign may be missing. */
  function Flagged(c: seq<int>, cut: bool): seq<int> {
    if cut || |c| % 2 == 1 then c + [1] else c
  }

  /** The band that has been noted last for each window, one for every coefficient that is not zero. */
  ghost function Limits(layout: seq<Entry>, first: seq<int>, s: seq<int>): (r: seq<int>)
    requires Counted(layout) && |first| == 4 && |s| <= 576
    ensures |r| == 4
  {
    if s == [] then first
    else
      var r := Limits(layout, first, s[..|s| - 1]);
      if s[|s| - 1] == 0 then r
      else
        var e := EntryOf(layout, |s| - 1);
        assert e in layout;
        r[e.win := e.cb]
  }

  /** The highest band of a window that has a coefficient other than zero, or `first` if none has. */
  ghost predicate Highest(layout: seq<Entry>, s: seq<int>, w: nat, first: int, max: int)
    requires Counted(layout)
  {
    && (forall t :: 0 <= t < |s| && t < 576 && s[t] != 0 && EntryOf(layout, t).win == w ==>
          EntryOf(layout, t).cb <= max)
    && (max == first || exists t ::
          0 <= t < |s| && t < 576 && s[t] != 0 && EntryOf(layout, t).win == w && EntryOf(layout, t).cb == max)
  }

  lemma LimitsMore(layout: seq<Entry>, first: seq<int>, c: seq<int>, value: int)
    requires Counted(layout) && |first| == 4 && |c| < 576
    ensures EntryOf(layout, |c|).win < 4
    ensures Limits(layout, first, c + [value]) ==
      var r := Limits(layout, first, c);
      if value == 0 then r else r[EntryOf(layout, |c|).win := EntryOf(layout, |c|).cb]
  {
    assert (c + [value])[..|c|] == c;
    assert EntryOf(layout, |c|) in layout;
  }

  /** The later of two coefficients of a window is not in a lower band. */
  lemma BandsRise(layout: seq<Entry>, t: nat, u: nat)
    requires Counted(layout) && Rising(layout) && t <= u < 576 && EntryOf(layout, t).win == EntryOf(layout, u).win
    ensures EntryOf(layout, t).cb <= EntryOf(layout, u).cb
  {
    hide Prefix, BandOf;
    var j, k := BandOf(Lens(layout), t / 2), BandOf(Lens(layout), u / 2);
    if k < j {
      PrefixGrows(Lens(layout), k + 1, j);
    }
  }

  /** What has been noted last is the highest. */
  lemma {:induction false} LimitsHighest(layout: seq<Entry>, first: seq<int>, s: seq<int>, w: nat)
    requires Counted(layout) && Rising(layout) && |first| == 4 && |s| <= 576 && w < 4
    ensures Highest(layout, s, w, first[w], Limits(layout, first, s)[w])
    decreases |s|
  {
    hide EntryOf, Rising;
    if s != [] {
      var c, n := s[..|s| - 1], |s| - 1;
      LimitsHighest(layout, first, c, w);
      assert s == c + [s[n]];
      LimitsMore(layout, first, c, s[n]);
      forall t | 0 <= t <= n && EntryOf(layout, t).win == EntryOf(layout, n).win
        ensures EntryOf(layout, t).cb <= EntryOf(layout, n).cb
      {
        BandsRise(layout, t, n);
      }
    }
  }

  class Block {
    const xr: array<Cell>
    const layout: seq<Entry>
    const long: bool
    const scf: seq<nat>
    const pretab: seq<nat>
    const shift: nat
    ghost const first: seq<int>
    var m: nat
    var mc: nat
    var v: nat
    var cb: nat
    var lwin: nat
    var step: nat
    var max: seq<int>
    var xrpnt: nat
    ghost var c: seq<int>
    ghost var was: seq<Cell>

    constructor (
        xr: array<Cell>, layout: seq<Entry>, long: bool, scf: seq<nat>, pretab: seq<nat>, shift: nat, max: seq<int>)
      requires xr.Length == 576 && WellMapped(layout) && |scf| >= 39 && |pretab| >= 22 && |max| == 4
      requires long ==> Straight(layout)
      ensures this.xr == xr && this.layout == layout && this.long == long && this.scf == scf && this.pretab == pretab
      ensures this.shift == shift && first == max
      ensures Valid() && AtPair() && c == [] && was == xr[..]
    {
      this.xr, this.layout, this.long, this.scf, this.pretab, this.shift := xr, layout, long, scf, pretab, shift;
      m, mc, v, cb, lwin, step, xrpnt := 0, 0, 0, 0, 0, 1, 0;
      this.max, first := max, max;
      c, was := [], xr[..];
    }

    /** The index of the gain of an entry; only long blocks have the extra table. */
    function Gain(k: nat): nat
      requires k < |scf| && (long ==> k < |pretab|)
    {
      Shl(scf[k] + if long then pretab[k] else 0, shift)
    }

    ghost predicate Fixed() {
      && WellMapped(layout) && |scf| >= 39 && |pretab| >= 22 && xr.Length == 576
      && (long ==> Straight(layout)) && |first| == 4
    }

    /** What belongs into the cell of the `t`-th coefficient. */
    ghost function Expected(t: nat, value: int): Cell
      requires Fixed() && t < 576
    {
      if value == 0 then Zero
      else Cell(value, EntryOf(layout, t).win, Gain(BandOf(Lens(layout), t / 2)))
    }

    ghost predicate Sizes()
      reads this`was, this`c, this`m, this`max, this`xrpnt
    {
      Fixed() && |was| == 576 && |c| <= 576 && m <= |layout| && |max| == 4 && (long ==> xrpnt == |c|)
    }

    /** The coefficients are in their cells, and the cells of the others are as they were. */
    ghost predicate Cells()
      reads this`was, this`c, this`max, xr
      requires Fixed() && |was| == 576 && |c| <= 576 && |max| == 4
    {
      && (forall t :: 0 <= t < |c| ==> xr[CellOf(layout, t)] == Expected(t, c[t]))
      && (forall t :: |c| <= t < 576 ==> xr[CellOf(layout, t)] == was[CellOf(layout, t)])
    }

    /** The limits are those of the coefficients so far. */
    ghost predicate Limited()
      reads this`c, this`max
      requires Fixed()
    {
      |c| <= 576 && max == Limits(layout, first, c)
    }

    /** The band of the next coefficient has been noted already. */
    ghost predicate Marked()
      reads this`c, this`max
      requires Fixed()
    {
      |c| < 576 && max == Limits(layout, first, c + [1])
    }

    ghost predicate Valid()
      reads this`was, this`c, this`m, this`max, this`xrpnt, xr
    {
      Sizes() && Cells()
    }

    /** The entry that was loaded last, and the cell of the next coefficient in it. */
    ghost predicate Current()
      reads this`c, this`m, this`xrpnt, this`cb, this`lwin, this`step, this`v
      requires Fixed() && 0 < m <= |layout|
    {
      var e := layout[m - 1];
      && cb == e.cb && lwin == e.win && step == Stride(e) && v == Gain(m - 1)
      && 2 * Prefix(Lens(layout), m - 1) <= |c| && xrpnt == CellAt(e, |c| - 2 * Prefix(Lens(layout), m - 1))
    }

    /** The current pair is in the entry that was loaded last. */
    ghost predicate Inside()
      reads this`c, this`m, this`xrpnt, this`cb, this`lwin, this`step, this`v
      requires Fixed()
    {
      0 < m <= |layout| && Prefix(Lens(layout), m - 1) <= |c| / 2 < Prefix(Lens(layout), m) && Current()
    }

    /** At the beginning of a pair, with `mc` pairs of the entry still to come. */
    ghost predicate AtPair()
      reads this`c, this`m, this`mc, this`xrpnt, this`cb, this`lwin, this`step, this`v, this`max
      requires Fixed()
    {
      && m <= |layout| && |c| % 2 == 0 && Prefix(Lens(layout), m) == |c| / 2 + mc && (mc > 0 ==> Inside())
      && (m > 0 ==> mc < layout[m - 1].len) && Limited()
    }

    /** At the beginning of a pair, and in its entry. */
    ghost predicate Loaded()
      reads this`c, this`m, this`mc, this`xrpnt, this`cb, this`lwin, this`step, this`v, this`max
      requires Fixed()
    {
      && Inside() && |c| % 2 == 0 && 0 < mc <= layout[m - 1].len && Prefix(Lens(layout), m) == |c| / 2 + mc
      && Limited()
    }

    /** The next entry if there is nothing left of this one. A long block just goes on. */
    method NextBand()
      requires Valid() && AtPair() && |c| < 576
      modifies this`m, this`mc, this`v, this`cb, this`lwin, this`step, this`xrpnt
      ensures Valid() && Loaded()
    {
      hide Cells, Tiling, Rising, CellOf, Limited, Prefix, Shl;
      if mc == 0 {
        assert m < |layout|;
        var e := layout[m];
        AtEntry(layout, m);
        mc := e.len;
        if !long {
          xrpnt := e.start;
        }
        lwin, cb, step := e.win, e.cb, if e.win == 3 then 1 else 3;
        v := Shl(scf[m] + if long then pretab[m] else 0, shift);
        m := m + 1;
      }
    }

    method Put(value: int)
      requires Valid() && Inside() && |c| < 576 && if value == 0 then Limited() else Marked()
      modifies this`xrpnt, this`c, xr
      ensures Valid() && c == old(c) + [value] && Current() && (|old(c)| % 2 == 0 ==> Inside()) && Limited()
    {
      hide Cells, Tiling, Rising, CellOf, Gain, Prefix;
      AtEntry(layout, m - 1);
      LimitsMore(layout, first, c, value);
      LimitsMore(layout, first, c, 1);
      Store(value);
      xrpnt := xrpnt + step;
    }

    method Store(value: int)
      requires Valid() && Inside() && |c| < 576
      modifies this`c, xr
      ensures c == old(c) + [value] && Cells()
    {
      hide Tiling, Rising, CellOf, EntryOf, Gain;
      CellIs(layout, |c|, m - 1);
      CellsApart(layout, |c|);
      BandIs(Lens(layout), |c| / 2, m - 1) by {
        AtEntry(layout, m - 1);
      }
      xr[xrpnt] := if value == 0 then Zero else Cell(value, lwin, v);
      c := c + [value];
    }

    /** A value that is not zero is going to be in the current band. */
    method Mark()
      requires Valid() && Inside() && Limited() && |c| < 576
      modifies this`max
      ensures Valid() && Marked()
    {
      hide Tiling, Rising, CellOf, CellAt, Gain, Expected, Prefix, Limits;
      BandIs(Lens(layout), |c| / 2, m - 1) by {
        AtEntry(layout, m - 1);
      }
      LimitsMore(layout, first, c, 1);
      max := max[lwin := cb];
    }

    /** One of the two values of a symbol. */
    method Big(r: Reader, x: nat, linbits: nat, part2remain: int) returns (remain: int)
      requires r.Valid() && Valid() && Inside() && Limited() && |c| < 576 && x < 16 && linbits <= 13
      modifies r, this`xrpnt, this`c, this`max, xr
      ensures r.Valid() && Valid() && Current() && (|old(c)| % 2 == 0 ==> Inside()) && Limited()
      ensures var e := Extended(r.stream, old(r.Pos()), x, linbits);
        c == old(c) + [e.value] && r.Pos() == e.pos && remain == part2remain - (e.pos - old(r.Pos()))
      ensures |c| > 0 && -8207 < c[|c| - 1] < 8207
    {
      hide Cells, WellMapped, Current, Num, Bit, Prefix;
      remain := part2remain;
      if x == 15 {
        Mark();
        remain := remain - (linbits + 1);
        var more := r.GetBits(linbits);
        EscapeBelow(more, linbits);
        var negative := r.Get1Bit();
        assert x + more < 8207;
        Put(Signed(negative, x + more));
      } else if x > 0 {
        Mark();
        var negative := r.Get1Bit();
        Put(Signed(negative, x));
        remain := remain - 1;
      } else {
        Put(0);
      }
    }

    /** One round of the loop over a region. */
    method ReadPair(r: Reader, h: Huff, part2remain: int) returns (remain: int)
      requires r.Valid() && Valid() && AtPair() && |c| < 576 && h.linbits <= 13 && Values(h.tree, 256)
      modifies r, this`m, this`mc, this`v, this`cb, this`lwin, this`step, this`xrpnt, this`c, this`max, xr
      ensures r.Valid() && Valid() && AtPair()
      ensures var e := Pair(r.stream, h, old(r.Pos()));
        c == old(c) + [e.x.value, e.y.value] && r.Pos() == e.y.pos && remain == part2remain - (e.y.pos - old(r.Pos()))
    {
      hide Cells, WellMapped, Current, Extended, Descend, Prefix, Limited;
      NextBand();
      SymbolBelow(h.tree, r.stream, r.Pos(), 256);
      var y: int;
      y, remain := Decode(r, Flatten(h.tree), h.tree, part2remain);
      remain := Big(r, y / 16, h.linbits, remain);
      remain := Big(r, y % 16, h.linbits, remain);
      mc := mc - 1;
    }

    /** A region. */
    method ReadRegion(r: Reader, h: Huff, count: nat, part2remain: int) returns (remain: int)
      requires r.Valid() && Valid() && AtPair() && |c| + 2 * count <= 576 && h.linbits <= 13 && Values(h.tree, 256)
      modifies r, this`m, this`mc, this`v, this`cb, this`lwin, this`step, this`xrpnt, this`c, this`max, xr
      ensures r.Valid() && Valid() && AtPair()
      ensures Part(c, r.Pos(), remain, false) == Then(old(c), Region(r.stream, h, count, old(r.Pos()), part2remain))
    {
      hide Cells, WellMapped, Current, Pair, Values, Prefix, Limited;
      remain := part2remain;
      var lp := count;
      while lp > 0
        invariant 0 <= lp <= count && r.Valid() && Valid() && AtPair() && |c| + 2 * lp <= 576
        invariant Then(c, Region(r.stream, h, lp, r.Pos(), remain)) ==
          Then(old(c), Region(r.stream, h, count, old(r.Pos()), part2remain))
      {
        ghost var e := Pair(r.stream, h, r.Pos());
        ghost var rest := Region(r.stream, h, lp - 1, e.y.pos, remain - (e.y.pos - r.Pos()));
        assert c + ([e.x.value, e.y.value] + rest.c) == c + [e.x.value, e.y.value] + rest.c;
        remain := ReadPair(r, h, remain);
        lp := lp - 1;
      }
      assert c + [] == c;
    }

    /** One round of the loop over the groups of four. */
    method ReadGroup(r: Reader, tree: Tree, part2remain: int) returns (remain: int, ghost cut: bool)
      requires r.Valid() && Valid() && AtPair() && |c| + 4 <= 576 && part2remain > 0
      modifies r, this`m, this`mc, this`v, this`cb, this`lwin, this`step, this`xrpnt, this`c, this`max, xr
      ensures r.Valid() && Valid() && remain >= 0 && Ended(cut) && LimitedTo(cut) && (remain > 0 ==> AtPair() && !cut)
      ensures var d := DescendLimited(tree, r.stream, old(r.Pos()), part2remain);
        Part(c, r.Pos(), remain, cut) == Then(old(c), Flags(r.stream, d.value, 0, d.pos, d.remain))
    {
      hide Cells, WellMapped, Current, Prefix, DescendLimited, Flag, Bit, Flags, AtSecond, Then;
      var a: int;
      a, remain := DecodeLimited(r, Flatten(tree), tree, part2remain);
      ghost var p, left := r.Pos(), remain;
      var i := 0;
      var stop := false;
      while i < 4
        invariant 0 <= i <= 4 && remain >= 0 && r.Valid() && Valid() && |c| == |old(c)| + i
        invariant At(i)
        invariant Then(c, Flags(r.stream, a, i, r.Pos(), remain)) == Then(old(c), Flags(r.stream, a, 0, p, left))
      {
        FlagsStep(r.stream, a, i, r.Pos(), remain, c);
        stop, remain := ReadFlag(r, Flag(a, i), i, remain);
        if stop {
          cut := i % 2 == 0;
          return;
        }
        i := i + 1;
      }
      FlagsStep(r.stream, a, 4, r.Pos(), remain, c);
      cut := false;
    }

    /** One of the four values, with a new pair before the first and the third. */
    method ReadFlag(r: Reader, flag: bool, i: nat, part2remain: int) returns (stop: bool, remain: int)
      requires r.Valid() && Valid() && At(i) && |c| < 576 && part2remain >= 0
      modifies r, this`m, this`mc, this`v, this`cb, this`lwin, this`step, this`xrpnt, this`c, this`max, xr
      ensures r.Valid() && Valid() && (stop <==> flag && part2remain == 0)
      ensures if stop then Ended(i % 2 == 0) && LimitedTo(i % 2 == 0) else At(i + 1)
      ensures stop ==> c == old(c) && r.Pos() == old(r.Pos()) && remain == 0
      ensures !stop && !flag ==> c == old(c) + [0] && r.Pos() == old(r.Pos()) && remain == part2remain
      ensures !stop && flag ==>
        && c == old(c) + [Signed(Bit(r.stream, old(r.Pos())), 1)]
        && r.Pos() == old(r.Pos()) + 1 && remain == part2remain - 1
    {
      hide Cells, WellMapped, Current, Prefix, Bit;
      if i % 2 == 0 {
        NextBand();
        mc := mc - 1;
      }
      stop, remain := ReadSmall(r, flag, part2remain);
    }

    /** One flag and its sign; without a bit left for the sign it is all over. */
    method ReadSmall(r: Reader, flag: bool, part2remain: int) returns (stop: bool, remain: int)
      requires r.Valid() && Valid() && Inside() && Limited() && |c| < 576 && part2remain >= 0
      modifies r, this`xrpnt, this`c, this`max, xr
      ensures r.Valid() && Valid() && (stop <==> flag && part2remain == 0) && if stop then Marked() else Limited()
      ensures stop ==> c == old(c) && r.Pos() == old(r.Pos()) && remain == 0
      ensures Current() && (!stop && |old(c)| % 2 == 0 ==> Inside())
      ensures !stop && !flag ==> c == old(c) + [0] && r.Pos() == old(r.Pos()) && remain == part2remain
      ensures !stop && flag ==>
        && c == old(c) + [Signed(Bit(r.stream, old(r.Pos())), 1)]
        && r.Pos() == old(r.Pos()) + 1 && remain == part2remain - 1
    {
      hide Cells, WellMapped, Current, Prefix, Bit;
      remain := part2remain;
      stop := false;
      if flag {
        Mark();
        remain := remain - 1;
        if remain < 0 {
          remain := remain + 1;
          stop := true;
          return;
        }
        var negative := r.Get1Bit();
        Put(Signed(negative, 1));
      } else {
        Put(0);
      }
    }

    /** All groups of four that there is room for and bits left. */
    method ReadGroups(r: Reader, tree: Tree, l3: nat, part2remain: int) returns (remain: int, ghost cut: bool)
      requires r.Valid() && Valid() && AtPair() && |c| + 4 * l3 <= 576
      modifies r, this`m, this`mc, this`v, this`cb, this`lwin, this`step, this`xrpnt, this`c, this`max, xr
      ensures r.Valid() && Valid() && Ended(cut) && LimitedTo(cut)
      ensures Part(c, r.Pos(), remain, cut) == Then(old(c), Groups(r.stream, tree, l3, old(r.Pos()), part2remain))
    {
      hide Cells, WellMapped, AtPair, Groups, Flags, DescendLimited, Then, Ended, LimitedTo;
      ghost var all := Then(c, Groups(r.stream, tree, l3, r.Pos(), part2remain));
      remain, cut := part2remain, false;
      var n := l3;
      EndedAtPair();
      GroupsStep(r.stream, tree, n, r.Pos(), remain, c);
      while n > 0 && remain > 0
        invariant 0 <= n <= l3 && r.Valid() && Valid() && Ended(cut) && LimitedTo(cut) && |c| + 4 * n <= 576
        invariant remain > 0 ==> AtPair() && !cut && Then(c, Groups(r.stream, tree, n, r.Pos(), remain)) == all
        invariant remain <= 0 ==> Part(c, r.Pos(), remain, cut) == all
      {
        GroupsStep(r.stream, tree, n, r.Pos(), remain, c);
        GroupSize(r.stream, tree, r.Pos(), remain, c);
        remain, cut := ReadGroup(r, tree, remain);
        n := n - 1;
      }
      if remain > 0 {
        GroupsStep(r.stream, tree, n, r.Pos(), remain, c);
      }
    }

    lemma EndedAtPair()
      requires Fixed() && AtPair()
      ensures Ended(false) && LimitedTo(false)
    {
    }

    /** The limits at the end. */
    ghost predicate LimitedTo(cut: bool)
      reads this`c, this`max
      requires Fixed()
    {
      |Flagged(c, cut)| <= 576 && max == Limits(layout, first, Flagged(c, cut))
    }

    /** Behind the coefficients, with `mc` pairs of the entry that have not been begun. */
    ghost predicate Ended(cut: bool)
      reads this`c, this`m, this`mc, this`xrpnt, this`cb, this`lwin, this`step, this`v, this`max
      requires Fixed()
    {
      && m <= |layout| && Prefix(Lens(layout), m) == Begun(|c|, cut) + mc
      && (m > 0 ==> mc < layout[m - 1].len && (mc > 0 ==> Current()))
      && LimitedTo(cut)
    }

    /** The three regions, and what comes behind them; a block with windows has only two of them. */
    method ReadAll(r: Reader, g: GrInfo, part2remain: int) returns (remain: int, ghost cut: bool)
      requires r.Valid() && Valid() && AtPair() && c == [] && Fits(g) && (long || g.bigValues <= g.region2)
      modifies r, this`m, this`mc, this`v, this`cb, this`lwin, this`step, this`xrpnt, this`c, this`max, xr
      ensures r.Valid() && Valid() && Ended(cut) && LimitedTo(cut)
      ensures Part(c, r.Pos(), remain, cut) == Coefficients(r.stream, g, old(r.Pos()), part2remain)
    {
      hide Cells, WellMapped, AtPair, Regions, Groups, Ended, LimitedTo;
      remain := ReadRegions(r, g, part2remain);
      remain, cut := ReadGroups(r, g.count1, (288 - g.bigValues) / 2, remain);
    }

    method ReadRegions(r: Reader, g: GrInfo, part2remain: int) returns (remain: int)
      requires r.Valid() && Valid() && AtPair() && c == [] && Fits(g) && (long || g.bigValues <= g.region2)
      modifies r, this`m, this`mc, this`v, this`cb, this`lwin, this`step, this`xrpnt, this`c, this`max, xr
      ensures r.Valid() && Valid() && AtPair()
      ensures Part(c, r.Pos(), remain, false) == Regions(r.stream, g, old(r.Pos()), part2remain)
    {
      hide Cells, WellMapped, AtPair, Region, Values;
      var l := Lengths(g.bigValues, g.region1, g.region2);
      remain := ReadRegion(r, g.tables[0], l.0, part2remain);
      remain := ReadRegion(r, g.tables[1], l.1, remain);
      if long {
        remain := ReadRegion(r, g.tables[2], l.2, remain);
      } else {
        NoPairs(r.stream, g.tables[2], r.Pos(), remain, c);
      }
    }

    /** The coefficients are where they belong. */
    ghost predicate Placed()
      reads this`c, xr
      requires Fixed() && |c| <= 576
    {
      forall t :: 0 <= t < |c| ==> xr[CellOf(layout, t)] == Expected(t, c[t])
    }

    /** Long blocks: two zeros at a time up to the end; after an odd number of coefficients the last cell is left
        out. */
    method ZeroLong(ghost cut: bool)
      requires Valid() && long
      modifies this`xrpnt, xr
      ensures Placed()
      ensures Cleared(xr[..], was, layout, true, |c|, cut)
    {
      hide Counted, Tiling, Rising, Expected, EntryOf, Cells, Prefix;
      ghost var n := |c|;
      StraightCells();
      var i := (576 - xrpnt) / 2;
      while i > 0
        invariant 0 <= i && xrpnt % 2 == n % 2 && n <= xrpnt && xrpnt + 2 * i == 576 - n % 2
        invariant forall k :: 0 <= k < n ==> xr[k] == Expected(k, c[k])
        invariant forall k :: n <= k < xrpnt ==> xr[k] == Zero
        invariant forall k :: xrpnt <= k < 576 ==> xr[k] == was[k]
      {
        xr[xrpnt] := Zero;
        xr[xrpnt + 1] := Zero;
        xrpnt := xrpnt + 2;
        i := i - 1;
      }
    }

    lemma StraightCells()
      requires Valid() && long
      ensures forall k :: 0 <= k < |c| ==> xr[k] == Expected(k, c[k])
      ensures forall k :: |c| <= k < 576 ==> xr[k] == was[k]
      ensures forall k :: 0 <= k < 576 ==> CellOf(layout, k) == k
    {
      hide Tiling, Rising, Expected, EntryOf;
      assert forall k :: 0 <= k < 576 ==> CellOf(layout, k) == k;
      forall k | |c| <= k < 576
        ensures xr[k] == was[k]
      {
        assert xr[CellOf(layout, k)] == was[CellOf(layout, k)];
      }
    }

    /** Blocks with windows: two zeros at a time until the last entry of the layout has been loaded. */
    method ZeroShort(ghost cut: bool)
      requires Valid() && Ended(cut) && !long && Begun(|c|, cut) <= 288
      modifies this`m, this`mc, this`step, this`xrpnt, xr
      ensures Placed()
      ensures Cleared(xr[..], was, layout, false, |c|, cut)
    {
      hide Cells, Tiling, Rising, Expected, EntryOf, CellOf, Gain, Prefix, InOrder, LimitedTo;
      ghost var lens, n, m0 := Lens(layout), |c|, m;
      ghost var gap := n + 2 * (Prefix(lens, m0) - Begun(n, cut));
      ghost var u: nat := n;
      ghost var before := InOrder(xr[..], layout);
      StandingAtEnd(cut);
      Entered(cut);
      BeforeZeros();
      while m < |layout|
        invariant Clearing(before, n, gap, m0, u) && (m0 == |layout| ==> u == n)
        decreases |layout| - m, mc
      {
        u := ClearPair(before, n, gap, m0, u);
      }
      if m0 < |layout| {
        PrefixGrows(lens, m0, |layout| - 1);
        AtEntry(layout, |layout| - 1);
      }
      ClearedAll(layout, before, InOrder(xr[..], layout), n, cut, m0, u);
      PlacesKept(before);
    }

    /** Everything up to `u` is done, from the end of the coefficients on. */
    ghost predicate Clearing(before: seq<Cell>, n: nat, gap: int, m0: nat, u: nat)
      reads this`m, this`mc, this`xrpnt, this`step, xr
      requires Fixed()
    {
      var lens := Lens(layout);
      && m0 <= m <= |layout| && n <= u && |before| == 576
      && Clears(before, InOrder(xr[..], layout), n, gap, 2 * Prefix(lens, m0), u)
      && u + 2 * mc == (if m == m0 then gap else 2 * Prefix(lens, m))
      && (mc > 0 ==> Standing(u))
      && (m0 < m ==> 2 * Prefix(lens, m0) <= u && (m == |layout| ==> mc == layout[m - 1].len - 1))
    }

    method ClearPair(ghost before: seq<Cell>, ghost n: nat, ghost gap: int, ghost m0: nat, ghost at: nat)
      returns (ghost u: nat)
      requires Fixed() && Clearing(before, n, gap, m0, at) && m < |layout| && gap <= 2 * Prefix(Lens(layout), m0)
      requires n <= 2 * Prefix(Lens(layout), m0)
      modifies this`m, this`mc, this`step, this`xrpnt, xr
      ensures Clearing(before, n, gap, m0, u) && (m > old(m) || (m == old(m) && mc < old(mc)))
    {
      hide WellMapped, Expected, EntryOf, CellOf, Gain, Prefix, InOrder, Clears;
      ghost var back := 2 * Prefix(Lens(layout), m0);
      u := at;
      if mc == 0 {
        u := 2 * Prefix(Lens(layout), m);
        PrefixGrows(Lens(layout), m0, m);
        ClearsGap(before, InOrder(xr[..], layout), n, gap, back, at, u);
        NextZeros();
      }
      mc := mc - 1;
      PrefixGrows(Lens(layout), m0, m);
      PairsBelow();
      ClearsPair(before, InOrder(xr[..], layout), n, gap, back, u);
      PutZero(u);
      PutZero(u + 1);
      u := u + 2;
    }

    lemma PairsBelow()
      requires Fixed() && m <= |layout|
      ensures Prefix(Lens(layout), m) <= 288
    {
      hide Tiling, Rising, CellOf;
      PrefixGrows(Lens(layout), m, |layout|);
    }

    lemma PlacesKept(before: seq<Cell>)
      requires Fixed() && |c| <= 576 && |before| == 576
      requires forall t :: 0 <= t < |c| ==> before[t] == Expected(t, c[t]) && InOrder(xr[..], layout)[t] == before[t]
      ensures Placed()
    {
      hide Expected, Rising, CellOf;
      forall t | 0 <= t < |c|
        ensures xr[CellOf(layout, t)] == Expected(t, c[t])
      {
        assert InOrder(xr[..], layout)[t] == xr[CellOf(layout, t)];
      }
    }

    lemma BeforeZeros()
      requires Sizes() && Cells()
      ensures Placed()
      ensures forall t :: 0 <= t < |c| ==> InOrder(xr[..], layout)[t] == Expected(t, c[t])
      ensures forall t :: |c| <= t < 576 ==> InOrder(xr[..], layout)[t] == InOrder(was, layout)[t]
    {
      hide Expected, Rising, CellOf;
    }

    method NextZeros()
      requires Fixed() && m < |layout|
      modifies this`m, this`mc, this`step, this`xrpnt
      ensures m == old(m) + 1 && mc == layout[m - 1].len > 0
      ensures Prefix(Lens(layout), m) == Prefix(Lens(layout), old(m)) + mc && Standing(2 * Prefix(Lens(layout), old(m)))
    {
      hide Tiling, Rising, CellOf;
      AtEntry(layout, m);
      mc := layout[m].len;
      xrpnt := layout[m].start;
      step := if layout[m].win == 3 then 1 else 3;
      m := m + 1;
    }

    /** The next cell of the entry is the one of the `u`-th coefficient. */
    ghost predicate Standing(u: nat)
      reads this`m, this`xrpnt, this`step
    {
      && 0 < m <= |layout| && step == Stride(layout[m - 1])
      && 2 * Prefix(Lens(layout), m - 1) <= u && xrpnt == CellAt(layout[m - 1], u - 2 * Prefix(Lens(layout), m - 1))
    }

    method PutZero(ghost u: nat)
      requires Fixed() && u < 576 && Standing(u) && u < 2 * Prefix(Lens(layout), m)
      modifies this`xrpnt, xr
      ensures InOrder(xr[..], layout) == InOrder(old(xr[..]), layout)[u := Zero] && Standing(u + 1)
    {
      hide Tiling, Rising, Expected, EntryOf, CellOf, Gain, Prefix;
      AtEntry(layout, m - 1);
      CellIs(layout, u, m - 1);
      PutInOrder(xr[..], layout, u);
      ghost var before := xr[..];
      xr[xrpnt] := Zero;
      assert xr[..] == before[xrpnt := Zero];
      xrpnt := xrpnt + step;
    }

    /** The cell behind the coefficients, and which entry it is in. */
    lemma StandingAtEnd(cut: bool)
      requires Valid() && Ended(cut)
      ensures mc > 0 ==> Standing(|c|)
    {
      hide Cells, Tiling, Rising, Expected, EntryOf, CellOf, Gain;
    }

    /** The entry that is the current one is the one of the last pair begun. */
    lemma Entered(cut: bool)
      requires Fixed() && Ended(cut) && Begun(|c|, cut) <= 288
      ensures m == if Begun(|c|, cut) == 0 then 0 else BandOf(Lens(layout), Begun(|c|, cut) - 1) + 1
    {
      hide Tiling, Rising, CellOf, LimitedTo;
      if m > 0 {
        AtEntry(layout, m - 1);
        BandIs(Lens(layout), Begun(|c|, cut) - 1, m - 1);
      }
    }

    ghost predicate At(i: nat)
      reads this`c, this`m, this`mc, this`xrpnt, this`cb, this`lwin, this`step, this`v, this`max
      requires Fixed()
    {
      if i % 2 == 0 then AtPair() else AtSecond()
    }

    /** In the middle of a pair that has been counted already. */
    ghost predicate AtSecond()
      reads this`c, this`m, this`mc, this`xrpnt, this`cb, this`lwin, this`step, this`v, this`max
      requires Fixed()
    {
      && m <= |layout| && |c| % 2 == 1 && Prefix(Lens(layout), m) == |c| / 2 + 1 + mc && Inside()
      && mc < layout[m - 1].len && Limited()
    }
  }

  /** A region without pairs. */
  lemma NoPairs(s: Stream, h: Huff, p: nat, remain: int, c: seq<int>)
    ensures Then(c, Region(s, h, 0, p, remain)) == Part(c, p, remain, false)
  {
    assert c + [] == c;
  }

  /** What the next group adds to the coefficients `c`. */
  lemma GroupsStep(s: Stream, tree: Tree, l3: nat, p: nat, remain: int, c: seq<int>)
    ensures l3 == 0 || remain <= 0 ==> Then(c, Groups(s, tree, l3, p, remain)) == Part(c, p, remain, false)
    ensures l3 > 0 && remain > 0 ==>
      var d := DescendLimited(tree, s, p, remain);
      var g := Then(c, Flags(s, d.value, 0, d.pos, d.remain));
      Then(c, Groups(s, tree, l3, p, remain)) ==
        if g.remain == 0 then g else Then(g.c, Groups(s, tree, l3 - 1, g.pos, g.remain))
  {
    hide Flags, DescendLimited;
    assert c + [] == c;
    if l3 > 0 && remain > 0 {
      var d := DescendLimited(tree, s, p, remain);
      var g := Flags(s, d.value, 0, d.pos, d.remain);
      var rest := Groups(s, tree, l3 - 1, g.pos, g.remain).c;
      assert c + (g.c + rest) == c + g.c + rest;
    }
  }

  lemma GroupSize(s: Stream, tree: Tree, p: nat, remain: nat, c: seq<int>)
    ensures var d := DescendLimited(tree, s, p, remain);
      |Then(c, Flags(s, d.value, 0, d.pos, d.remain)).c| <= |c| + 4
  {
  }

  /** What the next flag adds to the coefficients `c`. */
  lemma FlagsStep(s: Stream, a: nat, i: nat, p: nat, remain: nat, c: seq<int>)
    requires i <= 4
    ensures i == 4 ==> Then(c, Flags(s, a, i, p, remain)) == Part(c, p, remain, false)
    ensures i < 4 && !Flag(a, i) ==>
      Then(c, Flags(s, a, i, p, remain)) == Then(c + [0], Flags(s, a, i + 1, p, remain))
    ensures i < 4 && Flag(a, i) && remain == 0 ==> Then(c, Flags(s, a, i, p, remain)) == Part(c, p, 0, i % 2 == 0)
    ensures i < 4 && Flag(a, i) && remain > 0 ==>
      Then(c, Flags(s, a, i, p, remain)) == Then(c + [Signed(Bit(s, p), 1)], Flags(s, a, i + 1, p + 1, remain - 1))
  {
    hide Bit, Flag;
    assert c + [] == c;
    if i < 4 {
      var rest := Flags(s, a, i + 1, p, remain).c;
      assert c + ([0] + rest) == c + [0] + rest;
      if remain > 0 {
        var sign := [Signed(Bit(s, p), 1)];
        var more := Flags(s, a, i + 1, p + 1, remain - 1).c;
        assert c + (sign + more) == c + sign + more;
      }
    }
  }

  lemma EscapeBelow(n: nat, linbits: nat)
    requires linbits <= 13 && n < Pow2(linbits)
    ensures n < 8192
  {
    PowGrows(linbits, 13);
    assert Pow2(13) == 8192;
  }

  /** The stuffing bits; too many bits read is an error. */
  method SkipStuffing(r: Reader, part2remain: int) returns (err: bool)
    requires r.Valid()
    modifies r
    ensures r.Valid() && (err <==> part2remain < 0)
    ensures r.Pos() == old(r.Pos()) + if err then 0 else part2remain
  {
    var remain := part2remain;
    while remain > 16
      invariant r.Valid() && r.Pos() + remain == old(r.Pos()) + part2remain
      invariant part2remain <= 16 ==> remain == part2remain
      invariant part2remain > 0 ==> remain > 0
    {
      var _ := r.GetBits(16);
      remain := remain - 16;
    }
    if remain > 0 {
      var _ := r.GetBits(remain);
    }
    return remain < 0;
  }


  /** `III_dequantize_sample`, for a block that has just been set up. */
  method Dequantize(r: Reader, b: Block, g: GrInfo, part2bits: nat) returns (err: bool)
    requires r.Valid() && b.Valid() && b.AtPair() && b.c == [] && Fits(g) && (b.long || g.bigValues <= g.region2)
    modifies r, b, b.xr
    ensures r.Valid() && b.Fixed() && |b.max| == 4 && |b.c| <= 576
    ensures var d := Coefficients(r.stream, g, old(r.Pos()), g.part23Length - part2bits);
      && b.c == d.c
      && (err <==> d.remain < 0)
      && r.Pos() == (if err then d.pos else old(r.Pos()) + g.part23Length - part2bits)
      && Cleared(b.xr[..], old(b.was), b.layout, b.long, |b.c|, d.cut)
    ensures b.Placed()
    ensures b.LimitedTo(Coefficients(r.stream, g, old(r.Pos()), g.part23Length - part2bits).cut)
  {
    hide WellMapped, Coefficients, b.AtPair, b.Ended, b.Cells, b.Placed, b.LimitedTo, Cleared, Zeroed;
    var remain;
    ghost var cut;
    AllBegun(r.stream, g, r.Pos(), g.part23Length - part2bits);
    remain, cut := b.ReadAll(r, g, g.part23Length - part2bits);
    if b.long {
      b.ZeroLong(cut);
    } else {
      b.ZeroShort(cut);
    }
    err := SkipStuffing(r, remain);
  }
}
