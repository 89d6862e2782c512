/** The maps that init_layer3_const builds from the widths of the bands. */
module MpgLayout {
  import opened MpgBlock

  /**
   * Long bands of `a` pairs each, then short bands of `b` pairs for each of three windows, numbered
   * from `cb0` on. A long block has no short bands and a short block no long ones; a mixed block
   * has both.
   */
  function Layout(a: seq<nat>, b: seq<nat>, cb0: nat): (r: seq<Entry>)
    ensures |r| == |a| + 3 * |b|
  {
    seq(|a| + 3 * |b|, k requires 0 <= k < |a| + 3 * |b| => EntryAt(a, b, cb0, k))
  }

  function EntryAt(a: seq<nat>, b: seq<nat>, cb0: nat, k: nat): Entry
    requires k < |a| + 3 * |b|
  {
    if k < |a| then Entry(a[k], 2 * Prefix(a, k), 3, k)
    else
      var j := k - |a|;
      Entry(b[j / 3], Base(a, b, j / 3) + j % 3, j % 3, cb0 + j / 3)
  }

  /** The first cell of a short band. */
  function Base(a: seq<nat>, b: seq<nat>, cb: nat): nat
    requires cb <= |b|
  {
    2 * Prefix(a, |a|) + 6 * Prefix(b, cb)
  }

  lemma {:induction false} PrefixLong(a: seq<nat>, b: seq<nat>, cb0: nat, k: nat)
    requires k <= |a|
    ensures Prefix(Lens(Layout(a, b, cb0)), k) == Prefix(a, k)
  {
    if k > 0 {
      PrefixLong(a, b, cb0, k - 1);
    }
  }

  /** The pairs in the first `j` entries of the short bands. */
  function ShortPrefix(b: seq<nat>, j: nat): nat
    requires j <= 3 * |b|
  {
    3 * Prefix(b, j / 3) + if j % 3 == 0 then 0 else if j % 3 == 1 then b[j / 3] else 2 * b[j / 3]
  }

  lemma ShortPrefixNext(b: seq<nat>, j: nat)
    requires j < 3 * |b|
    ensures ShortPrefix(b, j + 1) == ShortPrefix(b, j) + b[j / 3]
  {
    hide Prefix;
    if j % 3 == 2 {
      NextPrefix(b, j / 3);
    }
  }

  lemma {:induction false} PrefixShort(a: seq<nat>, b: seq<nat>, cb0: nat, j: nat)
    requires j <= 3 * |b|
    ensures Prefix(Lens(Layout(a, b, cb0)), |a| + j) == Prefix(a, |a|) + ShortPrefix(b, j)
  {
    hide Prefix, ShortPrefix;
    if j == 0 {
      PrefixLong(a, b, cb0, |a|);
      assert ShortPrefix(b, 0) == 0 by {
        NothingShort(b);
      }
    } else {
      PrefixShort(a, b, cb0, j - 1);
      ShortPrefixNext(b, j - 1);
      assert Lens(Layout(a, b, cb0))[|a| + j - 1] == b[(j - 1) / 3];
      NextPrefix(Lens(Layout(a, b, cb0)), |a| + j - 1);
    }
  }

  lemma NothingShort(b: seq<nat>)
    ensures ShortPrefix(b, 0) == 0
  {
  }

  lemma NextPrefix(s: seq<nat>, k: nat)
    requires k < |s|
    ensures Prefix(s, k + 1) == Prefix(s, k) + s[k]
  {
  }

  ghost predicate Widths(a: seq<nat>, b: seq<nat>) {
    && |a| + 3 * |b| <= 39
    && (forall x :: x in a ==> x > 0) && (forall x :: x in b ==> x > 0)
  }

  lemma EntryGood(a: seq<nat>, b: seq<nat>, cb0: nat, k: nat)
    requires Widths(a, b) && k < |a| + 3 * |b|
    ensures EntryAt(a, b, cb0, k).len > 0 && EntryAt(a, b, cb0, k).win <= 3
  {
    hide Prefix;
    if k < |a| {
      assert a[k] in a;
    } else {
      assert b[(k - |a|) / 3] in b;
    }
  }

  lemma LayoutTotal(a: seq<nat>, b: seq<nat>, cb0: nat)
    ensures Prefix(Lens(Layout(a, b, cb0)), |a| + 3 * |b|) == Prefix(a, |a|) + 3 * Prefix(b, |b|)
  {
    hide Prefix, Lens, Layout;
    PrefixShort(a, b, cb0, 3 * |b|);
  }

  lemma EntriesGood(a: seq<nat>, b: seq<nat>, cb0: nat)
    requires Widths(a, b)
    ensures forall e :: e in Layout(a, b, cb0) ==> e.len > 0 && e.win <= 3
  {
    hide Prefix, EntryAt;
    forall e | e in Layout(a, b, cb0)
      ensures e.len > 0 && e.win <= 3
    {
      var k :| 0 <= k < |a| + 3 * |b| && Layout(a, b, cb0)[k] == e;
      EntryGood(a, b, cb0, k);
    }
  }

  /** A layout has the right number of pairs exactly if the widths add up. */
  lemma CountedIs(a: seq<nat>, b: seq<nat>, cb0: nat)
    requires Widths(a, b)
    ensures Counted(Layout(a, b, cb0)) <==> Prefix(a, |a|) + 3 * Prefix(b, |b|) == 288
  {
    hide Prefix, EntryAt, Lens, Layout, ShortPrefix;
    EntriesGood(a, b, cb0);
    LayoutTotal(a, b, cb0);
  }

  /** The coefficient `t`, seen from its entry. */
  lemma Seen(a: seq<nat>, b: seq<nat>, cb0: nat, t: nat) returns (k: nat)
    requires Total(a, b) >= 288 && t < 576
    ensures Enough(Layout(a, b, cb0)) && k < |a| + 3 * |b|
    ensures k < |a| ==> CellOf(Layout(a, b, cb0), t) == t < 2 * Prefix(a, |a|)
    ensures k >= |a| ==> var j := k - |a|;
      var d := t - 2 * Prefix(Lens(Layout(a, b, cb0)), k);
      && 0 <= d < 2 * b[j / 3]
      && Prefix(Lens(Layout(a, b, cb0)), k) == Prefix(a, |a|) + ShortPrefix(b, j)
      && CellOf(Layout(a, b, cb0), t) == Base(a, b, j / 3) + j % 3 + 3 * d
  {
    hide Prefix, ShortPrefix;
    var layout := Layout(a, b, cb0);
    LayoutTotal(a, b, cb0);
    k := BandOf(Lens(layout), t / 2);
    NextPrefix(Lens(layout), k);
    if k < |a| {
      PrefixLong(a, b, cb0, k);
      PrefixLong(a, b, cb0, k + 1);
      PrefixGrows(a, k + 1, |a|);
    } else {
      PrefixShort(a, b, cb0, k - |a|);
    }
  }

  /** A cell of a short band has one band, one window and one place in it. */
  lemma ShortCells(a: seq<nat>, b: seq<nat>, i: nat, w: nat, d: nat, j: nat, x: nat, e: nat)
    requires i < |b| && w < 3 && d < 2 * b[i] && j < |b| && x < 3 && e < 2 * b[j]
    requires Base(a, b, i) + w + 3 * d == Base(a, b, j) + x + 3 * e
    ensures i == j && w == x && d == e
  {
    hide Prefix;
    NextPrefix(b, i);
    NextPrefix(b, j);
    if i < j {
      PrefixGrows(b, i + 1, j);
    } else if j < i {
      PrefixGrows(b, j + 1, i);
    }
  }

  /** Different coefficients, different cells. */
  lemma Apart(a: seq<nat>, b: seq<nat>, cb0: nat, t: nat, u: nat)
    requires Total(a, b) >= 288 && t < 576 && u < 576 && Enough(Layout(a, b, cb0))
    ensures CellOf(Layout(a, b, cb0), t) == CellOf(Layout(a, b, cb0), u) ==> t == u
  {
    hide Prefix, CellOf, EntryAt, ShortPrefix;
    var lens := Lens(Layout(a, b, cb0));
    var k := Seen(a, b, cb0, t);
    var l := Seen(a, b, cb0, u);
    var n := |a|;
    if k >= n && l >= n && CellOf(Layout(a, b, cb0), t) == CellOf(Layout(a, b, cb0), u) {
      ShortCells(
        a, b, (k - n) / 3, (k - n) % 3, t - 2 * Prefix(lens, k), (l - n) / 3, (l - n) % 3, u - 2 * Prefix(lens, l));
    }
  }

  // ---- Cells beyond the last one ----

  /** The pairs of all bands. */
  function Total(a: seq<nat>, b: seq<nat>): nat {
    Prefix(a, |a|) + 3 * Prefix(b, |b|)
  }

  /** The long bands are enough, or else 288 pairs end where a short band ends. */
  ghost predicate EndsWhole(a: seq<nat>, b: seq<nat>) {
    Prefix(a, |a|) >= 288 || exists k :: 0 <= k <= |b| && Prefix(a, |a|) + 3 * Prefix(b, k) == 288
  }

  lemma ShortPrefixIs(b: seq<nat>, i: nat, w: nat)
    requires i < |b| && w < 3
    ensures 3 * i + w < 3 * |b|
    ensures ShortPrefix(b, 3 * i + w) == 3 * Prefix(b, i) + Times(w, b[i])
  {
    hide Prefix;
  }

  function Times(w: nat, n: nat): nat {
    if w == 0 then 0 else if w == 1 then n else 2 * n
  }

  /** Where the entry of a short band in one window is. */
  lemma ShortSpan(a: seq<nat>, b: seq<nat>, cb0: nat, i: nat, w: nat)
    requires i < |b| && w < 3
    ensures var layout, k := Layout(a, b, cb0), |a| + 3 * i + w;
      var p := Prefix(a, |a|) + 3 * Prefix(b, i) + Times(w, b[i]);
      && k < |layout| && Prefix(Lens(layout), k) == p && Prefix(Lens(layout), k + 1) == p + b[i]
      && layout[k] == Entry(b[i], Base(a, b, i) + w, w, cb0 + i)
  {
    hide Prefix, Lens, Layout, ShortPrefix, Base, Times;
    ShortPrefixIs(b, i, w);
    PrefixShort(a, b, cb0, 3 * i + w);
    PrefixShort(a, b, cb0, 3 * i + w + 1);
    ShortPrefixNext(b, 3 * i + w);
    LayoutAt(a, b, cb0, |a| + 3 * i + w);
  }

  lemma LayoutAt(a: seq<nat>, b: seq<nat>, cb0: nat, k: nat)
    requires k < |a| + 3 * |b|
    ensures Layout(a, b, cb0)[k] == EntryAt(a, b, cb0, k)
  {
  }

  /** The `d`-th coefficient of a short band in one window. */
  lemma ShortPlace(a: seq<nat>, b: seq<nat>, cb0: nat, i: nat, w: nat, d: nat)
    requires Total(a, b) >= 288 && i < |b| && w < 3 && d < 2 * b[i]
    ensures var t := 2 * (Prefix(a, |a|) + 3 * Prefix(b, i) + Times(w, b[i])) + d;
      t < 576 ==>
        && Enough(Layout(a, b, cb0))
        && CellOf(Layout(a, b, cb0), t) == Base(a, b, i) + w + 3 * d
        && EntryOf(Layout(a, b, cb0), t).win == w && EntryOf(Layout(a, b, cb0), t).cb == cb0 + i
  {
    hide Prefix, Lens, Layout, Base, Times;
    var t := 2 * (Prefix(a, |a|) + 3 * Prefix(b, i) + Times(w, b[i])) + d;
    if t < 576 {
      LayoutTotal(a, b, cb0);
      ShortSpan(a, b, cb0, i, w);
      BandIs(Lens(Layout(a, b, cb0)), t / 2, |a| + 3 * i + w);
    }
  }

  /** Where 288 pairs end at the end of a band, all coefficients go to the 576 cells. */
  lemma InsideIf(a: seq<nat>, b: seq<nat>, cb0: nat, t: nat)
    requires Total(a, b) >= 288 && EndsWhole(a, b) && t < 576 && Enough(Layout(a, b, cb0))
    ensures CellOf(Layout(a, b, cb0), t) < 576
  {
    hide Prefix, CellOf, EntryAt;
    var k := Seen(a, b, cb0, t);
    if k >= |a| {
      var i := (k - |a|) / 3;
      var e :| 0 <= e <= |b| && Prefix(a, |a|) + 3 * Prefix(b, e) == 288;
      NextPrefix(b, i);
      if e <= i {
        PrefixGrows(b, e, i);
      } else {
        PrefixGrows(b, i + 1, e);
      }
    }
  }

  /** The short band in which 288 pairs end. */
  lemma {:induction false} EndsInside(a: seq<nat>, b: seq<nat>, n: nat) returns (i: nat)
    requires n <= |b| && !EndsWhole(a, b) && Prefix(a, |a|) + 3 * Prefix(b, n) >= 288
    ensures i < n && Prefix(a, |a|) + 3 * Prefix(b, i) < 288 < Prefix(a, |a|) + 3 * Prefix(b, i + 1)
    decreases n
  {
    hide Prefix;
    NothingBefore(b);
    if Prefix(a, |a|) + 3 * Prefix(b, n - 1) < 288 {
      i := n - 1;
    } else {
      i := EndsInside(a, b, n - 1);
    }
  }

  lemma NothingBefore(b: seq<nat>)
    ensures Prefix(b, 0) == 0
  {
  }

  /** Otherwise the last coefficient, or the last one of a window, goes to a cell beyond them. */
  lemma OutsideIf(a: seq<nat>, b: seq<nat>, cb0: nat) returns (t: nat)
    requires Total(a, b) >= 288 && !EndsWhole(a, b)
    ensures t < 576 && Enough(Layout(a, b, cb0)) && CellOf(Layout(a, b, cb0), t) >= 576
  {
    hide Prefix, CellOf, Layout, EndsWhole, Enough;
    var i := EndsInside(a, b, |b|);
    NextPrefix(b, i);
    var n, p := b[i], Prefix(a, |a|) + 3 * Prefix(b, i);
    var r := 288 - p;
    if r <= n {
      t := 575;
      ShortPlace(a, b, cb0, i, 0, 2 * r - 1);
    } else if r <= 3 * n - 2 {
      t := 2 * p + 2 * n - 1;
      ShortPlace(a, b, cb0, i, 0, 2 * n - 1);
    } else {
      t := 2 * (p + n) + 2 * n - 1;
      ShortPlace(a, b, cb0, i, 1, 2 * n - 1);
    }
  }

  /**
   * The cells of a layout with enough pairs. Those of the 576 coefficients are always different
   * ones, but they are the 576 cells that there are only if the pairs end with a band.
   */
  lemma LayoutCells(a: seq<nat>, b: seq<nat>, cb0: nat)
    requires Total(a, b) >= 288
    ensures Enough(Layout(a, b, cb0)) && Distinct(Layout(a, b, cb0))
    ensures Inside(Layout(a, b, cb0)) <==> EndsWhole(a, b)
  {
    hide Prefix, CellOf, EndsWhole, Layout;
    LayoutTotal(a, b, cb0);
    assert |Layout(a, b, cb0)| == |a| + 3 * |b|;
    forall t, u | 0 <= t < u < 576
      ensures CellOf(Layout(a, b, cb0), t) != CellOf(Layout(a, b, cb0), u)
    {
      Apart(a, b, cb0, t, u);
    }
    if EndsWhole(a, b) {
      forall t | 0 <= t < 576
        ensures CellOf(Layout(a, b, cb0), t) < 576
      {
        InsideIf(a, b, cb0, t);
      }
    } else {
      var _ := OutsideIf(a, b, cb0);
    }
  }

  /**
   * The first coefficient that goes to a cell beyond the last one, where 288 pairs end behind `3 * q`
   * pairs of a short band with more than `q`.
   */
  lemma FirstOutside(a: seq<nat>, b: seq<nat>, cb0: nat, i: nat, q: nat)
    requires Total(a, b) >= 288 && i < |b| && 0 < q < b[i]
    requires Prefix(a, |a|) + 3 * Prefix(b, i) + 3 * q == 288
    ensures Enough(Layout(a, b, cb0)) && CellOf(Layout(a, b, cb0), 576 - 4 * q) == 576
    ensures forall t :: 0 <= t < 576 - 4 * q ==> CellOf(Layout(a, b, cb0), t) < 576
  {
    hide Prefix, CellOf, Layout;
    ShortPlace(a, b, cb0, i, 0, 2 * q);
    forall t | 0 <= t < 576 - 4 * q
      ensures CellOf(Layout(a, b, cb0), t) < 576
    {
      BeforeOutside(a, b, cb0, i, q, t);
    }
  }

  lemma BeforeOutside(a: seq<nat>, b: seq<nat>, cb0: nat, i: nat, q: nat, t: nat)
    requires Total(a, b) >= 288 && i < |b| && 0 < q < b[i] && t < 576 - 4 * q && Enough(Layout(a, b, cb0))
    requires Prefix(a, |a|) + 3 * Prefix(b, i) + 3 * q == 288
    ensures CellOf(Layout(a, b, cb0), t) < 576
  {
    hide Prefix, CellOf, Layout;
    var k := Seen(a, b, cb0, t);
    if k >= |a| {
      var j, w := (k - |a|) / 3, (k - |a|) % 3;
      NextPrefix(b, j);
      if j < i {
        PrefixGrows(b, j + 1, i);
      } else {
        PrefixGrows(b, i, j);
      }
    }
  }

  /** A layout whose widths add up is well-formed. */
  lemma LayoutGood(a: seq<nat>, b: seq<nat>, cb0: nat)
    requires Widths(a, b) && Total(a, b) == 288
    ensures WellMapped(Layout(a, b, cb0))
  {
    hide Prefix, CellOf;
    CountedIs(a, b, cb0);
    LayoutCells(a, b, cb0);
  }

  /** A long block is laid out in order. */
  lemma LongStraight(a: seq<nat>)
    requires Widths(a, []) && |a| == 22 && Prefix(a, 22) == 288
    ensures WellMapped(Layout(a, [], 0)) && Straight(Layout(a, [], 0))
    ensures forall t :: 0 <= t < 576 ==>
      EntryOf(Layout(a, [], 0), t).win == 3 && EntryOf(Layout(a, [], 0), t).cb == BandOf(a, t / 2)
  {
    hide Prefix, CellOf, Tiling;
    NoPrefix();
    LayoutGood(a, [], 0);
    assert Lens(Layout(a, [], 0)) == a;
    forall t | 0 <= t < 576
      ensures CellOf(Layout(a, [], 0), t) == t
      ensures EntryOf(Layout(a, [], 0), t).win == 3 && EntryOf(Layout(a, [], 0), t).cb == BandOf(a, t / 2)
    {
      var _ := Seen(a, [], 0, t);
    }
  }

  lemma NoPrefix()
    ensures Prefix([], 0) == 0
  {
  }
}
