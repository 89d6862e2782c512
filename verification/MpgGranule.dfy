/**
 * What a granule of one channel means as bits (formats/mp3/layer3.c): the scale factors, the
 * regions of big values, and the groups of four small ones that take what is left.
 */
module MpgGranule {
  import opened BitStrings
  import opened MpgBits
  import opened MpgHuffman

  /** A code book: the escape width and the tree. */
  datatype Huff = Huff(linbits: nat, tree: Tree)

  /** A number read from the stream, and the position behind it. */
  datatype Coef = Coef(value: int, pos: nat)

  function Signed(negative: bool, m: int): int {
    if negative then -m else m
  }

  /** A magnitude below 16, its escape bits if it is 15, and its sign if it is not 0. */
  ghost function Extended(s: Stream, p: nat, x: nat, linbits: nat): (r: Coef)
    ensures r.pos >= p
  {
    if x == 0 then Coef(0, p)
    else if x < 15 then Coef(Signed(Bit(s, p), x), p + 1)
    else
      var m := x + Num(s, p, linbits);
      Coef(Signed(Bit(s, p + linbits), m), p + linbits + 1)
  }

  /**
   * Coefficients read from the stream, the position behind them, and the bits that are left. The
   * last part of a granule may be cut off between two pairs, before a sign that belongs to it.
   */
  datatype Part = Part(c: seq<int>, pos: nat, remain: int, cut: bool)

  ghost function Then(a: seq<int>, b: Part): Part {
    Part(a + b.c, b.pos, b.remain, b.cut)
  }

  datatype Two = Two(x: Coef, y: Coef)

  /** A symbol of a code book stands for two coefficients. */
  ghost function Pair(s: Stream, h: Huff, p: nat): (r: Two)
    ensures r.y.pos >= p
  {
    var d := Descend(h.tree, s, p);
    var x := Extended(s, d.pos, d.value / 16, h.linbits);
    Two(x, Extended(s, x.pos, d.value % 16, h.linbits))
  }

  /** A region: `count` pairs in the code of `h`. */
  ghost function Region(s: Stream, h: Huff, count: nat, p: nat, remain: int): (r: Part)
    ensures |r.c| == 2 * count && !r.cut && r.pos + r.remain == p + remain && r.pos >= p
    decreases count
  {
    if count == 0 then Part([], p, remain, false)
    else
      var e := Pair(s, h, p);
      Then([e.x.value, e.y.value], Region(s, h, count - 1, e.y.pos, remain - (e.y.pos - p)))
  }

  /** The flags of a group of four from the `i`-th on, each with a sign if it is set. */
  ghost function Flags(s: Stream, a: nat, i: nat, p: nat, remain: nat): (r: Part)
    requires i <= 4
    ensures |r.c| <= 4 - i && r.pos + r.remain == p + remain && r.remain >= 0 && r.pos >= p
    ensures |r.c| < 4 - i ==> r.remain == 0
    ensures r.cut ==> |r.c| < 4 - i && (i + |r.c|) % 2 == 0
    decreases 4 - i
  {
    if i == 4 then Part([], p, remain, false)
    else if !Flag(a, i) then Then([0], Flags(s, a, i + 1, p, remain))
    else if remain == 0 then Part([], p, 0, i % 2 == 0)
    else Then([Signed(Bit(s, p), 1)], Flags(s, a, i + 1, p + 1, remain - 1))
  }

  /** `a & (0x8 >> i)`. */
  function Flag(a: nat, i: nat): bool
    requires i < 4
  {
    Shr(a, 3 - i) % 2 == 1
  }

  /** The last part: at most `l3` groups of four, as long as there are bits. */
  ghost function Groups(s: Stream, tree: Tree, l3: nat, p: nat, remain: int): (r: Part)
    ensures |r.c| <= 4 * l3 && r.pos + r.remain == p + remain && r.pos >= p
    ensures remain >= 0 ==> r.remain >= 0
    ensures remain < 0 ==> r.remain == remain
    decreases l3
  {
    if l3 == 0 || remain <= 0 then Part([], p, remain, false)
    else
      var d := DescendLimited(tree, s, p, remain);
      var g := Flags(s, d.value, 0, d.pos, d.remain);
      if g.remain == 0 then g else Then(g.c, Groups(s, tree, l3 - 1, g.pos, g.remain))
  }

  /** The pairs that have been begun when the bits end behind `n` coefficients. */
  function Begun(n: nat, cut: bool): nat {
    (n + 1) / 2 + if cut then 1 else 0
  }

  /** There is room for all pairs that are begun. */
  lemma {:induction false} GroupsBegun(s: Stream, tree: Tree, l3: nat, p: nat, remain: int)
    ensures var r := Groups(s, tree, l3, p, remain);
      Begun(|r.c|, r.cut) <= 2 * l3
    decreases l3
  {
    hide Flags, DescendLimited;
    if l3 > 0 && remain > 0 {
      var d := DescendLimited(tree, s, p, remain);
      var g := Flags(s, d.value, 0, d.pos, d.remain);
      GroupsBegun(s, tree, l3 - 1, g.pos, g.remain);
    }
  }

  /** The side information of a granule of one channel, as far as its bits depend on it. */
  datatype GrInfo = GrInfo(
    part23Length: nat,
    bigValues: nat,
    region1: nat,
    region2: nat,
    tables: seq<Huff>,
    count1: Tree)

  /** The pairs in the three regions. */
  function Lengths(bv: nat, region1: nat, region2: nat): (l: (nat, nat, nat))
    requires region1 <= region2
    ensures l.0 + l.1 + l.2 == bv
    ensures l.0 <= region1 && l.0 + l.1 <= region2
    ensures l.0 < region1 ==> l.1 == 0
    ensures l.0 + l.1 < region2 ==> l.2 == 0
  {
    if bv <= region1 then (bv, 0, 0)
    else if bv <= region2 then (region1, bv - region1, 0)
    else (region1, region2 - region1, bv - region2)
  }

  ghost predicate Fits(g: GrInfo) {
    && g.bigValues <= 288 && g.region1 <= g.region2 && |g.tables| == 3
    && (forall h :: h in g.tables ==> h.linbits <= 13 && Values(h.tree, 256))
    && Values(g.count1, 16)
  }

  /** All leaves of a tree are below `n`. */
  ghost predicate Values(t: Tree, n: nat) {
    match t
    case Leaf(v) => v < n
    case Fork(zero, one) => Values(zero, n) && Values(one, n)
  }

  lemma {:induction false} SymbolBelow(t: Tree, s: Stream, p: nat, n: nat)
    requires Values(t, n)
    ensures Descend(t, s, p).value < n
    decreases t
  {
    if t.Fork? {
      SymbolBelow(if Bit(s, p) then t.one else t.zero, s, p + 1, n);
    }
  }

  /** The three regions of a granule whose bits begin at `p`, `remain` of them. */
  ghost function Regions(s: Stream, g: GrInfo, p: nat, remain: int): (r: Part)
    requires Fits(g)
    ensures r.pos + r.remain == p + remain && r.pos >= p && |r.c| == 2 * g.bigValues && !r.cut
  {
    var l := Lengths(g.bigValues, g.region1, g.region2);
    var a := Region(s, g.tables[0], l.0, p, remain);
    var b := Then(a.c, Region(s, g.tables[1], l.1, a.pos, a.remain));
    Then(b.c, Region(s, g.tables[2], l.2, b.pos, b.remain))
  }

  /** All its coefficients. */
  ghost function Coefficients(s: Stream, g: GrInfo, p: nat, remain: int): (r: Part)
    requires Fits(g)
    ensures r.pos + r.remain == p + remain && r.pos >= p && |r.c| <= 576
  {
    var a := Regions(s, g, p, remain);
    Then(a.c, Groups(s, g.count1, (288 - g.bigValues) / 2, a.pos, a.remain))
  }

  lemma AllBegun(s: Stream, g: GrInfo, p: nat, remain: int)
    requires Fits(g)
    ensures var r := Coefficients(s, g, p, remain);
      Begun(|r.c|, r.cut) <= 288
  {
    hide Regions, Groups;
    var a := Regions(s, g, p, remain);
    GroupsBegun(s, g.count1, (288 - g.bigValues) / 2, a.pos, a.remain);
  }
}
