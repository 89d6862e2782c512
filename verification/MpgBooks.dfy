/** The code books that a granule can select (the arrays `ht` and `htc` of formats/mp3/huffman.h). */
module MpgBooks {
  import opened BitStrings
  import opened MpgBits
  import opened MpgHuffman
  import opened MpgGranule
  import opened MpgCodes
  import opened MpgCodesSmall
  import opened MpgCodesLarge
  import opened MpgBlock
  import MpgLayout
  import opened MpgScale
  import MpgTables

  /** The table of `ht[i]`. */
  function HtRows(i: nat): Rows
    requires i < 32
  {
    if i >= 24 then TAB24
    else if i >= 16 then TAB16
    else
      match i
      case 1 => TAB1
      case 2 => TAB2
      case 3 => TAB3
      case 5 => TAB5
      case 6 => TAB6
      case 7 => TAB7
      case 8 => TAB8
      case 9 => TAB9
      case 10 => TAB10
      case 11 => TAB11
      case 12 => TAB12
      case 13 => TAB13
      case 15 => TAB15
      case _ => TAB0
  }

  /** The escape widths in `ht`. */
  const LINBITS: seq<nat> := [
    0, 0, 0, 0, 0, 0, 0, 0, 0, 0, 0, 0, 0, 0, 0, 0,
    1, 2, 3, 4, 6, 8, 10, 13, 4, 5, 6, 7, 8, 9, 11, 13]

  /** The table of `htc[i]`. */
  function HtcRows(i: nat): Rows
    requires i < 2
  {
    if i == 0 then TAB_C0 else TAB_C1
  }

  function HtTable(i: nat): seq<int>
    requires i < 32
  {
    Table(HtRows(i), 0)
  }

  function HtcTable(i: nat): seq<int>
    requires i < 2
  {
    Table(HtcRows(i), 0)
  }

  /** Every table that can be selected is the jump table of a tree. */
  lemma HtIsCode(i: nat)
    requires i < 32
    ensures IsCode(HtTable(i))
  {
    hide IsCode, Table;
    if i >= 24 {
      Tab24IsCode();
    } else if i >= 16 {
      Tab16IsCode();
    } else {
      match i
      case 1 => Tab1IsCode();
      case 2 => Tab2IsCode();
      case 3 => Tab3IsCode();
      case 5 => Tab5IsCode();
      case 6 => Tab6IsCode();
      case 7 => Tab7IsCode();
      case 8 => Tab8IsCode();
      case 9 => Tab9IsCode();
      case 10 => Tab10IsCode();
      case 11 => Tab11IsCode();
      case 12 => Tab12IsCode();
      case 13 => Tab13IsCode();
      case 15 => Tab15IsCode();
      case _ => Tab0IsCode();
    }
  }

  /** The trees of the last part have groups of four flags at their leaves. */
  lemma HtcIsCode(i: nat)
    requires i < 2
    ensures IsCode(HtcTable(i)) && Values(TreeOf(HtcTable(i)), 16)
  {
    hide IsCode, Values;
    Tab_c0IsCode();
    Tab_c1IsCode();
    assert forall e :: e in HtcTable(i) ==> e < 16 by {
      SmallEntries(i);
    }
    ValuesBelow(TreeOf(HtcTable(i)), 16);
  }

  lemma SmallEntries(i: nat)
    requires i < 2
    ensures forall e :: e in HtcTable(i) ==> e < 16
  {
    TwoRows(TAB_C0);
    TwoRows(TAB_C1);
  }

  lemma TwoRows(t: Rows)
    requires |t.full| == 2
    ensures Table(t, 0) == t.full[0] + (t.full[1] + t.last)
  {
    assert Table(t, 1) == t.full[1] + Table(t, 2);
  }

  /** If all entries of a table are small, so are the leaves of its tree. */
  lemma {:induction false} ValuesBelow(t: Tree, n: nat)
    requires forall e :: e in Flatten(t) ==> e < n
    ensures Values(t, n)
  {
    match t
    case Leaf(v) => assert v in Flatten(t);
    case Fork(zero, one) =>
      assert Flatten(t) == [-|Flatten(zero)|] + Flatten(zero) + Flatten(one);
      assert forall e :: e in Flatten(zero) || e in Flatten(one) ==> e in Flatten(t);
      ValuesBelow(zero, n);
      ValuesBelow(one, n);
  }

  /** The code books of a granule that selects `a`, `b` and `c`. */
  ghost function Books(a: nat, b: nat, c: nat): seq<Huff>
    requires a < 32 && b < 32 && c < 32
  {
    HtIsCode(a);
    HtIsCode(b);
    HtIsCode(c);
    [
      Huff(LINBITS[a], TreeOf(HtTable(a))),
      Huff(LINBITS[b], TreeOf(HtTable(b))),
      Huff(LINBITS[c], TreeOf(HtTable(c)))]
  }

  ghost function Count1(i: nat): Tree
    requires i < 2
  {
    HtcIsCode(i);
    TreeOf(HtcTable(i))
  }

  /** What the side information of a granule makes of the code books and the regions. */
  ghost predicate Selected(g: GrInfo, a: nat, b: nat, c: nat, i: nat, j: nat, e: MpgTables.Ends) {
    && g.bigValues <= 288 && a < 32 && b < 32 && c < 32 && i < 2 && j < 9 && MpgTables.Readable(e)
    && g.tables == Books(a, b, c) && g.count1 == Count1(i) && (g.region1, g.region2) == MpgTables.RegionsOf(j, e)
  }

  /**
   * Whatever five bits and one bit select, the decoder has the code books that reading relies on. The
   * regions are as it relies on exactly if their counts stay within a row of the table.
   */
  lemma SelectionFits(g: GrInfo, a: nat, b: nat, c: nat, i: nat, j: nat, e: MpgTables.Ends)
    requires Selected(g, a, b, c, i, j, e)
    ensures Fits(g) <==> (e.Counts? ==> e.r0c + e.r1c + 2 <= 22)
    ensures e.Switched? ==> g.bigValues <= g.region2
  {
    hide IsCode, Values, HtTable, HtcTable, MpgTables.LongIdx;
    MpgTables.RegionsInOrder(j, e);
    HtcIsCode(i);
    HtIsCode(a);
    HtIsCode(b);
    HtIsCode(c);
    EscapeWidths(a);
    EscapeWidths(b);
    EscapeWidths(c);
  }

  /** The layout that a granule is read with. */
  ghost function LayoutOf(j: nat, form: Form): seq<Entry>
    requires j < 9
  {
    MpgTables.Rows(j);
    match form
    case Long => MpgLayout.Layout(MpgTables.BANDS[j], [], 0)
    case Short => MpgLayout.Layout([], MpgTables.SHORTS[j], 0)
    case Mixed => MpgTables.MixedLayout(j)
  }

  /**
   * What `ReadChannel` asks for holds of every granule that can be received, but for mixed blocks
   * outside MPEG 1 and for counts beyond a row.
   */
  lemma ChannelReady(g: GrInfo, a: nat, b: nat, c: nat, i: nat, j: nat, e: MpgTables.Ends, form: Form)
    requires Selected(g, a, b, c, i, j, e) && (form.Long? <==> e != MpgTables.Switched(2))
    ensures (
        && Fits(g) && WellMapped(LayoutOf(j, form))
        && if form.Long? then Straight(LayoutOf(j, form)) else g.bigValues <= g.region2)
      <==> (form.Mixed? ==> j < 3) && (e.Counts? ==> e.r0c + e.r1c + 2 <= 22)
  {
    hide Fits, Straight, MpgTables.MixedLayout, MpgLayout.Layout, CellOf;
    SelectionFits(g, a, b, c, i, j, e);
    MpgTables.Rows(j);
  }

  lemma EscapeWidths(i: nat)
    requires i < 32
    ensures |LINBITS| == 32 && LINBITS[i] <= 13
  {
  }

  // ---- Bits that end between two coefficients of a pair ----

  /** The tree begins with an entry of its table, and its 0-branch with the next one. */
  lemma FirstEntry(t: Tree, rest: seq<int>, s: seq<int>)
    requires Flatten(t) + rest == s
    ensures s != [] && (s[0] < 0 <==> t.Fork?) && (s[0] >= 0 ==> t == Leaf(s[0]))
    ensures t.Fork? ==> Flatten(t.zero) + (Flatten(t.one) + rest) == s[1..]
  {
    if t.Fork? {
      ForkIs(t, rest);
    } else {
      LeafIs(t, rest);
    }
  }

  /** Four bits that are 0 select 15, all four flags, in the second table of the last part. */
  lemma AllFlags(s: Stream, p: nat)
    requires forall i :: p <= i < p + 4 ==> !Bit(s, i)
    ensures DescendLimited(Count1(1), s, p, 5) == Limited(15, p + 4, 1)
  {
    hide Bit, Flatten, IsCode, Values, Table;
    HtcIsCode(1);
    TwoRows(TAB_C1);
    var t, table := Count1(1), HtcTable(1);
    assert table[..5] == [-15, -7, -3, -1, 15];
    FirstEntry(t, [], table);
    var a := Flatten(t.one) + [];
    FirstEntry(t.zero, a, table[1..]);
    var b := Flatten(t.zero.one) + a;
    FirstEntry(t.zero.zero, b, table[2..]);
    var c := Flatten(t.zero.zero.one) + b;
    FirstEntry(t.zero.zero.zero, c, table[3..]);
    var d := Flatten(t.zero.zero.zero.one) + c;
    FirstEntry(t.zero.zero.zero.zero, d, table[4..]);
    assert !Bit(s, p) && !Bit(s, p + 1) && !Bit(s, p + 2) && !Bit(s, p + 3);
    assert DescendLimited(t.zero.zero.zero, s, p + 3, 2) == Limited(15, p + 4, 1);
    assert DescendLimited(t.zero, s, p + 1, 4) == Limited(15, p + 4, 1);
  }

  /**
   * A long block without big values whose five bits are 0: a group of four flags, the sign of the
   * first one, and nothing else. There is one coefficient, the zeros start at an odd cell, and the
   * last cell of the block keeps what was in it.
   */
  lemma OddEnd(s: Stream, p: nat, g: GrInfo, k: Scale, xr: seq<Cell>, was: seq<Cell>, layout: seq<Entry>)
    requires Fits(g) && g.bigValues == 0 && g.count1 == Count1(1) && g.part23Length == 5
    requires k.Mpeg1? && k.compress == 0
    requires forall i :: p <= i < p + 5 ==> !Bit(s, i)
    requires |xr| == |was| == 576 && WellMapped(layout) && Straight(layout)
    ensures Sum(Widths(k, Long)) == 0
    ensures Coefficients(s, g, p, 5) == Part([1], p + 5, 0, false)
    ensures Cleared(xr, was, layout, true, 1, false) ==> xr[575] == was[575]
  {
    hide Bit, Fits, WellMapped, Straight, InOrder, Descend, DescendLimited, Count1;
    NoWidths(k);
    OneCoefficient(s, p, g);
    LastCell(xr, layout);
    LastCell(was, layout);
  }

  lemma LastCell(xr: seq<Cell>, layout: seq<Entry>)
    requires |xr| == 576 && WellMapped(layout) && Straight(layout)
    ensures InOrder(xr, layout)[575] == xr[575]
  {
    hide Tiling, Rising;
  }

  lemma NoWidths(k: Scale)
    requires k.Mpeg1? && k.compress == 0
    ensures Sum(Widths(k, Long)) == 0
  {
    hide Sum, Rep;
    Sum1(false, false, k.scfsi, 0, 0);
  }

  lemma OneCoefficient(s: Stream, p: nat, g: GrInfo)
    requires Fits(g) && g.bigValues == 0 && g.count1 == Count1(1)
    requires forall i :: p <= i < p + 5 ==> !Bit(s, i)
    ensures Coefficients(s, g, p, 5) == Part([1], p + 5, 0, false)
  {
    hide Bit, Count1, DescendLimited;
    AllFlags(s, p);
    assert Regions(s, g, p, 5) == Part([], p, 5, false);
    assert !Bit(s, p + 4) && Flag(15, 0) && Flag(15, 1);
    assert Flags(s, 15, 1, p + 5, 0) == Part([], p + 5, 0, false);
    assert Flags(s, 15, 0, p + 4, 1) == Part([1], p + 5, 0, false);
  }
}
