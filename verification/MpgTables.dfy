/** The widths of the bands for the nine sampling rates, and the layouts that follow from them. */
module MpgTables {
  import opened MpgBlock
  import opened MpgLayout

  /** Half of `longDiff` for the nine sampling rates. */
  const BANDS: seq<seq<nat>> := [
    [2, 2, 2, 2, 2, 2, 3, 3, 4, 4, 5, 6, 8, 10, 12, 14, 17, 21, 25, 27, 38, 79],
    [2, 2, 2, 2, 2, 2, 3, 3, 3, 4, 5, 6, 8, 9, 11, 14, 17, 20, 23, 27, 27, 96],
    [2, 2, 2, 2, 2, 2, 3, 3, 4, 5, 6, 8, 10, 12, 15, 19, 23, 28, 34, 42, 51, 13],
    [3, 3, 3, 3, 3, 3, 4, 5, 6, 7, 8, 10, 12, 14, 16, 19, 23, 26, 30, 34, 29, 27],
    [3, 3, 3, 3, 3, 3, 4, 5, 6, 7, 8, 9, 11, 13, 16, 19, 23, 26, 32, 35, 38, 18],
    [3, 3, 3, 3, 3, 3, 4, 5, 6, 7, 8, 10, 12, 14, 16, 19, 23, 26, 30, 34, 29, 27],
    [3, 3, 3, 3, 3, 3, 4, 5, 6, 7, 8, 10, 12, 14, 16, 19, 23, 26, 30, 34, 29, 27],
    [3, 3, 3, 3, 3, 3, 4, 5, 6, 7, 8, 10, 12, 14, 16, 19, 23, 26, 30, 34, 29, 27],
    [6, 6, 6, 6, 6, 6, 8, 10, 12, 14, 16, 20, 24, 28, 32, 38, 45, 1, 1, 1, 1, 1]]

  /** Half of `shortDiff`. */
  const SHORTS: seq<seq<nat>> := [
    [2, 2, 2, 2, 3, 4, 5, 6, 7, 9, 11, 15, 28],
    [2, 2, 2, 2, 3, 3, 5, 6, 7, 8, 10, 13, 33],
    [2, 2, 2, 2, 3, 4, 6, 8, 10, 13, 17, 21, 6],
    [2, 2, 2, 3, 3, 4, 5, 7, 9, 13, 16, 21, 9],
    [2, 2, 2, 3, 4, 5, 6, 7, 9, 12, 16, 22, 6],
    [2, 2, 2, 3, 4, 5, 6, 7, 9, 12, 15, 20, 9],
    [2, 2, 2, 3, 4, 5, 6, 7, 9, 12, 15, 20, 9],
    [2, 2, 2, 3, 4, 5, 6, 7, 9, 12, 15, 20, 9],
    [4, 4, 4, 6, 8, 10, 12, 14, 18, 1, 1, 1, 13]]

  /** The sums that the layouts of a sampling rate depend on. */
  function LongPairs(a: seq<nat>): nat
    requires |a| == 22
  {
    a[0] + a[1] + a[2] + a[3] + a[4] + a[5] + a[6] + a[7] + a[8] + a[9] + a[10] + a[11] + a[12]
    + a[13] + a[14] + a[15] + a[16] + a[17] + a[18] + a[19] + a[20] + a[21]
  }

  function ShortPairs(b: seq<nat>): nat
    requires |b| == 13
  {
    b[0] + b[1] + b[2] + b[3] + b[4] + b[5] + b[6] + b[7] + b[8] + b[9] + b[10] + b[11] + b[12]
  }

  function MixedPairs(a: seq<nat>, b: seq<nat>): nat
    requires |a| == 22 && |b| == 13
  {
    a[0] + a[1] + a[2] + a[3] + a[4] + a[5] + a[6] + a[7]
    + 3 * (b[3] + b[4] + b[5] + b[6] + b[7] + b[8] + b[9] + b[10] + b[11] + b[12])
  }

  lemma {:induction false} PrefixSlice(s: seq<nat>, n: nat, k: nat)
    requires k <= n <= |s|
    ensures Prefix(s[..n], k) == Prefix(s, k)
  {
    if k > 0 {
      PrefixSlice(s, n, k - 1);
    }
  }

  lemma PrefixTwo(s: seq<nat>, k: nat)
    requires k + 2 <= |s|
    ensures Prefix(s, k + 2) == Prefix(s, k) + s[k] + s[k + 1]
  {
    assert Prefix(s, k + 1) == Prefix(s, k) + s[k];
  }

  lemma LongTotal(a: seq<nat>)
    requires |a| == 22
    ensures Prefix(a, 22) == LongPairs(a)
    ensures Prefix(a, 8) == a[0] + a[1] + a[2] + a[3] + a[4] + a[5] + a[6] + a[7]
  {
    hide Prefix;
    NothingYet(a);
    PrefixTwo(a, 0);
    PrefixTwo(a, 2);
    PrefixTwo(a, 4);
    PrefixTwo(a, 6);
    PrefixTwo(a, 8);
    PrefixTwo(a, 10);
    PrefixTwo(a, 12);
    PrefixTwo(a, 14);
    PrefixTwo(a, 16);
    PrefixTwo(a, 18);
    PrefixTwo(a, 20);
  }

  lemma NothingYet(s: seq<nat>)
    ensures Prefix(s, 0) == 0
    ensures |s| > 0 ==> Prefix(s, 1) == s[0]
  {
  }

  lemma ShortTotal(b: seq<nat>)
    requires |b| == 13
    ensures Prefix(b, 13) == ShortPairs(b)
    ensures Prefix(b[3..], 10) == b[3] + b[4] + b[5] + b[6] + b[7] + b[8] + b[9] + b[10] + b[11] + b[12]
  {
    hide Prefix;
    NothingYet(b);
    NothingYet(b[3..]);
    PrefixTwo(b, 1);
    PrefixTwo(b, 3);
    PrefixTwo(b, 5);
    PrefixTwo(b, 7);
    PrefixTwo(b, 9);
    PrefixTwo(b, 11);
    PrefixTwo(b[3..], 0);
    PrefixTwo(b[3..], 2);
    PrefixTwo(b[3..], 4);
    PrefixTwo(b[3..], 6);
    PrefixTwo(b[3..], 8);
  }

  /** The layouts of a sampling rate, if its widths add up. */
  lemma RowGood(a: seq<nat>, b: seq<nat>)
    requires |a| == 22 && |b| == 13 && (forall i :: 0 <= i < 22 ==> a[i] > 0) && (forall i :: 0 <= i < 13 ==> b[i] > 0)
    requires LongPairs(a) == 288 && ShortPairs(b) == 96
    ensures WellMapped(Layout(a, [], 0)) && Straight(Layout(a, [], 0))
    ensures WellMapped(Layout([], b, 0))
  {
    hide Prefix, WellMapped, Straight, LongPairs, ShortPairs;
    LongTotal(a);
    ShortTotal(b);
    LongStraight(a);
    NothingYet([]);
    LayoutGood([], b, 0);
  }

  /** The layout of mixed blocks, with `q` thirds of the last band left when 288 pairs are over, or none. */
  lemma MixedGood(a: seq<nat>, b: seq<nat>, q: nat)
    requires |a| == 22 && |b| == 13 && (forall i :: 0 <= i < 22 ==> a[i] > 0) && (forall i :: 0 <= i < 13 ==> b[i] > 0)
    requires if q == 0 then MixedPairs(a, b) == 288 else q < b[12] && MixedPairs(a, b) + 3 * q == 288 + 3 * b[12]
    ensures Enough(Layout(a[..8], b[3..], 3)) && Distinct(Layout(a[..8], b[3..], 3))
    ensures q == 0 ==> WellMapped(Layout(a[..8], b[3..], 3))
    ensures q > 0 ==>
      && CellOf(Layout(a[..8], b[3..], 3), 576 - 4 * q) == 576
      && forall t :: 0 <= t < 576 - 4 * q ==> CellOf(Layout(a[..8], b[3..], 3), t) < 576
  {
    hide Prefix, CellOf, WellMapped, Layout;
    LongTotal(a);
    ShortTotal(b);
    PrefixSlice(a, 8, 8);
    LayoutCells(a[..8], b[3..], 3);
    if q == 0 {
      LayoutGood(a[..8], b[3..], 3);
    } else {
      NextPrefix(b[3..], 9);
      FirstOutside(a[..8], b[3..], 3, 9, q);
    }
  }

  /**
   * Where the mixed blocks of a sampling rate leave the 576 cells: so many times 4 coefficients before
   * the end. Those of MPEG 1 do not.
   */
  const OUTSIDE: seq<nat> := [0, 0, 0, 6, 3, 6, 6, 6, 7]

  /** The widths of a sampling rate add up for long and for short blocks, but not always for mixed ones. */
  ghost predicate RowWidths(j: nat) {
    && j < |BANDS| && j < |SHORTS| && j < |OUTSIDE|
    && var a, b, q := BANDS[j], SHORTS[j], OUTSIDE[j];
    && |a| == 22 && |b| == 13 && (forall i :: 0 <= i < 22 ==> a[i] > 0) && (forall i :: 0 <= i < 13 ==> b[i] > 0)
    && LongPairs(a) == 288 && ShortPairs(b) == 96 && (q == 0 <==> j < 3)
    && if q == 0 then MixedPairs(a, b) == 288 else q < b[12] && MixedPairs(a, b) + 3 * q == 288 + 3 * b[12]
  }

  lemma Row0Widths() ensures RowWidths(0) {}

  lemma Row1Widths() ensures RowWidths(1) {}

  lemma Row2Widths() ensures RowWidths(2) {}

  lemma Row3Widths() ensures RowWidths(3) {}

  lemma Row4Widths() ensures RowWidths(4) {}

  lemma Row5Widths() ensures RowWidths(5) {}

  lemma Row6Widths() ensures RowWidths(6) {}

  lemma Row7Widths() ensures RowWidths(7) {}

  lemma Row8Widths() ensures RowWidths(8) {}

  /** The layout of mixed blocks for a sampling rate. */
  function MixedLayout(j: nat): seq<Entry>
    requires j < 9
  {
    assert |BANDS| == |SHORTS| == 9 && |BANDS[j]| == 22 && |SHORTS[j]| == 13;
    Layout(BANDS[j][..8], SHORTS[j][3..], 3)
  }

  /**
   * For every sampling rate the layouts of long blocks and of short blocks are well-formed. Those of
   * mixed blocks are so for the three rates of MPEG 1. For the others the pairs go on beyond the last
   * cell: all coefficients still have cells of their own, but from `576 - 4 * OUTSIDE[j]` on some of
   * them are not among the 576.
   */
  lemma Rows(j: nat)
    requires j < 9
    ensures |BANDS| == |SHORTS| == |OUTSIDE| == 9 && |BANDS[j]| == 22 && |SHORTS[j]| == 13 && OUTSIDE[j] <= 7
    ensures WellMapped(Layout(BANDS[j], [], 0)) && Straight(Layout(BANDS[j], [], 0))
    ensures WellMapped(Layout([], SHORTS[j], 0))
    ensures Enough(MixedLayout(j)) && Distinct(MixedLayout(j))
    ensures Inside(MixedLayout(j)) <==> j < 3
    ensures j < 3 ==> WellMapped(MixedLayout(j))
    ensures j >= 3 ==>
      && CellOf(MixedLayout(j), 576 - 4 * OUTSIDE[j]) == 576
      && forall t :: 0 <= t < 576 - 4 * OUTSIDE[j] ==> CellOf(MixedLayout(j), t) < 576
  {
    hide CellOf, Straight, Layout, LongPairs, ShortPairs, MixedPairs, Rising;
    assert |BANDS| == |SHORTS| == |OUTSIDE| == 9 && |BANDS[j]| == 22 && |SHORTS[j]| == 13 && OUTSIDE[j] <= 7;
    RowIs(j);
    RowGood(BANDS[j], SHORTS[j]);
    MixedGood(BANDS[j], SHORTS[j], OUTSIDE[j]);
  }

  lemma RowIs(j: nat)
    requires j < 9
    ensures RowWidths(j)
  {
    hide BANDS, SHORTS, RowWidths;
    match j {
    case 0 => Row0Widths();
    case 1 => Row1Widths();
    case 2 => Row2Widths();
    case 3 => Row3Widths();
    case 4 => Row4Widths();
    case 5 => Row5Widths();
    case 6 => Row6Widths();
    case 7 => Row7Widths();
    case 8 => Row8Widths();
    }
  }

  // ---- The regions that the side information gives ----

  /** An element of `longIdx` in pairs; the widths of the bands lie behind its last one. */
  function LongIdx(j: nat, i: nat): nat
    requires j < 9 && i < 45
  {
    assert |BANDS| == 9 && |BANDS[j]| == 22;
    if i <= 22 then Prefix(BANDS[j], i) else BANDS[j][i - 23]
  }

  /** The ends of the first two regions: given by two counts, or implied by the block type. */
  datatype Ends = Counts(r0c: nat, r1c: nat) | Switched(blockType: nat)

  /** Four bits and three, or two bits other than 0. */
  predicate Readable(e: Ends) {
    match e
    case Counts(r0c, r1c) => r0c < 16 && r1c < 8
    case Switched(t) => 0 < t < 4
  }

  /** `region1start` and `region2start`; the first three rates are those of MPEG 1. */
  function RegionsOf(j: nat, e: Ends): (nat, nat)
    requires j < 9 && Readable(e)
  {
    match e
    case Counts(r0c, r1c) => (LongIdx(j, r0c + 1), LongIdx(j, r0c + 1 + r1c + 1))
    case Switched(t) => (if j < 3 || t == 2 then 18 else if j == 8 then 54 else 27, 288)
  }

  /**
   * The regions begin in order exactly if the counts stay within the row. Beyond it the end of the
   * second region is the width of one of the first two bands.
   */
  lemma RegionsInOrder(j: nat, e: Ends)
    requires j < 9 && Readable(e)
    ensures RegionsOf(j, e).0 <= RegionsOf(j, e).1 <==> (e.Counts? ==> e.r0c + e.r1c + 2 <= 22)
    ensures RegionsOf(j, e).1 <= 288
  {
    hide BANDS, Prefix;
    match e
    case Switched(_) =>
    case Counts(r0c, r1c) =>
      assert |BANDS| == 9 && |BANDS[j]| == 22 by {
        Rows(j);
      }
      FirstBands(j);
      if r0c + r1c + 2 <= 22 {
        PrefixGrows(BANDS[j], r0c + 1, r0c + r1c + 2);
        PrefixGrows(BANDS[j], r0c + r1c + 2, 22);
      } else {
        PrefixGrows(BANDS[j], 2, r0c + 1);
      }
  }

  /** The first two bands are shorter than they are together. */
  lemma FirstBands(j: nat)
    requires j < 9
    ensures |BANDS| == 9 && |BANDS[j]| == 22 && 0 < BANDS[j][0] <= 144 && 0 < BANDS[j][1] <= 144
    ensures Prefix(BANDS[j], 2) == BANDS[j][0] + BANDS[j][1] && Prefix(BANDS[j], 22) == 288
  {
    RowIs(j);
    LongTotal(BANDS[j]);
    hide Prefix;
    PrefixTwo(BANDS[j], 0);
    NothingYet(BANDS[j]);
  }
}
