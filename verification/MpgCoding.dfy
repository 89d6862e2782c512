/** The bits that an encoder writes for given coefficients are read as those coefficients. */
module MpgCoding {
  import opened BitStrings
  import opened MpgBits
  import opened MpgHuffman
  import opened MpgGranule

  /** The bits `e` stand in the stream from `p` on. */
  ghost predicate Stands(s: Stream, p: nat, e: seq<bool>) {
    Taken(s, p, |e|) == e
  }

  lemma StandsBoth(s: Stream, p: nat, e: seq<bool>, f: seq<bool>)
    ensures Stands(s, p, e + f) <==> Stands(s, p, e) && Stands(s, p + |e|, f)
  {
    hide Taken;
    TakenMore(s, p, |e|, |f|);
    assert (e + f)[..|e|] == e && (e + f)[|e|..] == f;
  }

  lemma FirstBit(s: Stream, p: nat, e: seq<bool>)
    requires Stands(s, p, e) && e != []
    ensures Bit(s, p) == e[0] && Stands(s, p + 1, e[1..])
  {
    hide Bit;
    assert Taken(s, p, |e|)[0] == Bit(s, p);
    assert [e[0]] + e[1..] == e;
    StandsBoth(s, p, [e[0]], e[1..]);
  }

  // ---- Symbols

  /** A code word is read as its symbol. */
  lemma {:induction false} WordRead(t: Tree, s: Stream, p: nat, word: seq<bool>, value: nat)
    requires LeadsTo(t, word, value) && Stands(s, p, word)
    ensures Descend(t, s, p) == Symbol(value, p + |word|)
    decreases t
  {
    hide Bit, Stands;
    if t.Fork? {
      FirstBit(s, p, word);
      WordRead(if word[0] then t.one else t.zero, s, p + 1, word[1..], value);
    }
  }

  // ---- Pairs of big values

  function Magnitude(x: int): nat {
    if x < 0 then -x else x
  }

  /** The part of a magnitude that is in the symbol. */
  function Small(x: int): nat {
    if Magnitude(x) < 15 then Magnitude(x) else 15
  }

  /** The symbol of a pair: the first coefficient is in its high half. */
  function PairSymbol(x: int, y: int): nat {
    16 * Small(x) + Small(y)
  }

  /** What stands behind a code word for one of its coefficients: the rest of a magnitude of 15 or more, and a
      sign unless it is 0.
   */
  ghost function Extra(x: int, linbits: nat): seq<bool> {
    (if Magnitude(x) >= 15 then Bits(Magnitude(x) - 15, linbits) else []) + if x != 0 then [x < 0] else []
  }

  lemma ExtraRead(s: Stream, p: nat, x: int, linbits: nat)
    requires Magnitude(x) < 15 + Pow2(linbits) && Stands(s, p, Extra(x, linbits))
    ensures Extended(s, p, Small(x), linbits) == Coef(x, p + |Extra(x, linbits)|)
  {
    hide Bit, Bits, Pow2, Taken;
    if Magnitude(x) >= 15 {
      var e := Bits(Magnitude(x) - 15, linbits);
      StandsBoth(s, p, e, [x < 0]);
      FirstBit(s, p + linbits, [x < 0]);
      ValBits(Magnitude(x) - 15, linbits);
      ShrSmall(Magnitude(x) - 15, linbits);
    } else if x != 0 {
      assert Extra(x, linbits) == [x < 0];
      FirstBit(s, p, [x < 0]);
    }
  }

  ghost function PairText(h: Huff, word: seq<bool>, x: int, y: int): seq<bool> {
    word + Extra(x, h.linbits) + Extra(y, h.linbits)
  }

  /** A pair that the code book can have, with its code word. */
  ghost predicate PairOf(h: Huff, word: seq<bool>, x: int, y: int) {
    && Magnitude(x) < 15 + Pow2(h.linbits) && Magnitude(y) < 15 + Pow2(h.linbits)
    && LeadsTo(h.tree, word, PairSymbol(x, y))
  }

  /** A code word, then what belongs to the first coefficient, then what belongs to the second one. */
  lemma PairRead(s: Stream, h: Huff, p: nat, word: seq<bool>, x: int, y: int)
    requires PairOf(h, word, x, y) && Stands(s, p, PairText(h, word, x, y))
    ensures Pair(s, h, p).x.value == x && Pair(s, h, p).y == Coef(y, p + |PairText(h, word, x, y)|)
  {
    hide Stands, LeadsTo, Extra, Extended, Descend, Pow2;
    var e, f := Extra(x, h.linbits), Extra(y, h.linbits);
    StandsBoth(s, p, word + e, f);
    StandsBoth(s, p, word, e);
    WordRead(h.tree, s, p, word, PairSymbol(x, y));
    Halves(x, y);
    ExtraRead(s, p + |word|, x, h.linbits);
    ExtraRead(s, p + |word| + |e|, y, h.linbits);
  }

  lemma Halves(x: int, y: int)
    ensures PairSymbol(x, y) / 16 == Small(x) && PairSymbol(x, y) % 16 == Small(y)
  {
  }

  /** The pairs of a region with their code words. */
  ghost predicate PairsOf(h: Huff, words: seq<seq<bool>>, c: seq<int>) {
    |c| == 2 * |words| && forall i :: 0 <= i < |words| ==> PairOf(h, words[i], c[2 * i], c[2 * i + 1])
  }

  ghost function RegionText(h: Huff, words: seq<seq<bool>>, c: seq<int>): seq<bool>
    requires |c| == 2 * |words|
  {
    if words == [] then [] else PairText(h, words[0], c[0], c[1]) + RegionText(h, words[1..], c[2..])
  }

  lemma {:induction false} RegionRead(s: Stream, h: Huff, words: seq<seq<bool>>, c: seq<int>, p: nat, remain: int)
    requires PairsOf(h, words, c) && Stands(s, p, RegionText(h, words, c))
    ensures var n := |RegionText(h, words, c)|;
      Region(s, h, |words|, p, remain) == Part(c, p + n, remain - n, false)
    decreases |words|
  {
    hide Stands, PairOf, PairText, Pair;
    if words == [] {
      assert c == [];
    } else {
      var e := PairText(h, words[0], c[0], c[1]);
      assert PairOf(h, words[0], c[2 * 0], c[2 * 0 + 1]);
      StandsBoth(s, p, e, RegionText(h, words[1..], c[2..]));
      PairRead(s, h, p, words[0], c[0], c[1]);
      forall i | 0 <= i < |words[1..]|
        ensures PairOf(h, words[1..][i], c[2..][2 * i], c[2..][2 * i + 1])
      {
        assert PairOf(h, words[i + 1], c[2 * (i + 1)], c[2 * (i + 1) + 1]);
      }
      RegionRead(s, h, words[1..], c[2..], p + |e|, remain - |e|);
      assert [c[0], c[1]] + c[2..] == c;
    }
  }

  // ---- Groups of four

  /** The symbol of a group of four: a bit for each coefficient that is not 0, the first one highest. */
  function GroupSymbol(v: int, w: int, x: int, y: int): nat {
    (if v != 0 then 8 else 0) + (if w != 0 then 4 else 0) + (if x != 0 then 2 else 0) + if y != 0 then 1 else 0
  }

  predicate Tiny(x: int) {
    -1 <= x <= 1
  }

  function Signs(c: seq<int>): seq<bool> {
    if c == [] then [] else (if c[0] != 0 then [c[0] < 0] else []) + Signs(c[1..])
  }

  ghost function GroupText(word: seq<bool>, c: seq<int>): seq<bool> {
    word + Signs(c)
  }

  ghost predicate GroupOf(tree: Tree, word: seq<bool>, c: seq<int>) {
    && |c| == 4 && (forall i :: 0 <= i < 4 ==> Tiny(c[i]))
    && LeadsTo(tree, word, GroupSymbol(c[0], c[1], c[2], c[3]))
  }

  lemma FlagIs(c: seq<int>, i: nat)
    requires |c| == 4 && i < 4
    ensures Flag(GroupSymbol(c[0], c[1], c[2], c[3]), i) <==> c[i] != 0
  {
    hide Shr, Pow2;
    var a := GroupSymbol(c[0], c[1], c[2], c[3]);
    ShrDiv(a, 3 - i);
    SmallPowers();
    Digits(One(c[0]), One(c[1]), One(c[2]), One(c[3]));
  }

  function One(x: int): nat {
    if x != 0 then 1 else 0
  }

  lemma Digits(v: nat, w: nat, x: nat, y: nat)
    requires v <= 1 && w <= 1 && x <= 1 && y <= 1
    ensures var a := 8 * v + 4 * w + 2 * x + y;
      a / 8 % 2 == v && a / 4 % 2 == w && a / 2 % 2 == x && a / 1 % 2 == y
  {
  }

  lemma {:induction false} FlagsRead(s: Stream, c: seq<int>, i: nat, p: nat, remain: nat)
    requires |c| == 4 && (forall k :: 0 <= k < 4 ==> Tiny(c[k])) && i <= 4
    requires Stands(s, p, Signs(c[i..])) && |Signs(c[i..])| <= remain
    ensures var a, n := GroupSymbol(c[0], c[1], c[2], c[3]), |Signs(c[i..])|;
      Flags(s, a, i, p, remain) == Part(c[i..], p + n, remain - n, false)
    decreases 4 - i
  {
    hide Stands, Bit, GroupSymbol, Flags, Signs;
    SignsFirst(c, i);
    if i < 4 {
      assert c[i..] == [c[i]] + c[i + 1..];
      assert Tiny(c[i]);
      FlagStep(s, c, i, p, remain);
      if c[i] != 0 {
        StandsBoth(s, p, [c[i] < 0], Signs(c[i + 1..]));
        FirstBit(s, p, [c[i] < 0]);
        FlagsRead(s, c, i + 1, p + 1, remain - 1);
      } else {
        FlagsRead(s, c, i + 1, p, remain);
      }
    } else {
      assert Flags(s, GroupSymbol(c[0], c[1], c[2], c[3]), 4, p, remain) == Part([], p, remain, false) by {
        NoFlags(s, GroupSymbol(c[0], c[1], c[2], c[3]), p, remain);
      }
    }
  }

  lemma SignsFirst(c: seq<int>, i: nat)
    requires |c| == 4 && i <= 4
    ensures i == 4 ==> c[i..] == [] && Signs(c[i..]) == []
    ensures i < 4 ==> Signs(c[i..]) == if c[i] != 0 then [c[i] < 0] + Signs(c[i + 1..]) else Signs(c[i + 1..])
  {
    if i < 4 {
      assert c[i..][1..] == c[i + 1..];
    }
  }

  lemma NoFlags(s: Stream, a: nat, p: nat, remain: nat)
    ensures Flags(s, a, 4, p, remain) == Part([], p, remain, false)
  {
  }

  lemma FlagStep(s: Stream, c: seq<int>, i: nat, p: nat, remain: nat)
    requires |c| == 4 && i < 4 && (c[i] != 0 ==> remain > 0)
    ensures var a := GroupSymbol(c[0], c[1], c[2], c[3]);
      Flags(s, a, i, p, remain) ==
        if c[i] != 0 then Then([Signed(Bit(s, p), 1)], Flags(s, a, i + 1, p + 1, remain - 1))
        else Then([0], Flags(s, a, i + 1, p, remain))
  {
    hide Bit, Flag, GroupSymbol;
    FlagIs(c, i);
  }

  lemma GroupRead(s: Stream, tree: Tree, word: seq<bool>, c: seq<int>, p: nat, remain: nat)
    requires GroupOf(tree, word, c) && Stands(s, p, GroupText(word, c)) && |GroupText(word, c)| <= remain
    ensures var d, n := DescendLimited(tree, s, p, remain), |GroupText(word, c)|;
      Flags(s, d.value, 0, d.pos, d.remain) == Part(c, p + n, remain - n, false)
  {
    hide Stands, LeadsTo, Descend, DescendLimited, Flags;
    StandsBoth(s, p, word, Signs(c));
    WordRead(tree, s, p, word, GroupSymbol(c[0], c[1], c[2], c[3]));
    LimitedIs(tree, s, p, remain);
    assert c[0..] == c;
    FlagsRead(s, c, 0, p + |word|, remain - |word|);
  }

  /** The groups at the end of a granule, with their code words. */
  ghost predicate GroupsOf(tree: Tree, words: seq<seq<bool>>, c: seq<int>) {
    |c| == 4 * |words| && forall i :: 0 <= i < |words| ==> GroupOf(tree, words[i], c[4 * i..4 * i + 4])
  }

  ghost function GroupsText(words: seq<seq<bool>>, c: seq<int>): seq<bool>
    requires |c| == 4 * |words|
  {
    if words == [] then [] else GroupText(words[0], c[..4]) + GroupsText(words[1..], c[4..])
  }

  lemma WordNonempty(tree: Tree, word: seq<bool>, value: nat)
    requires tree.Fork? && LeadsTo(tree, word, value)
    ensures word != []
  {
  }

  /** The groups take exactly the bits that are left. */
  lemma {:induction false} GroupsRead(s: Stream, tree: Tree, words: seq<seq<bool>>, c: seq<int>, l3: nat, p: nat)
    requires tree.Fork? && GroupsOf(tree, words, c) && |words| <= l3 && Stands(s, p, GroupsText(words, c))
    ensures var n := |GroupsText(words, c)|;
      Groups(s, tree, l3, p, n) == Part(c, p + n, 0, false)
    decreases |words|
  {
    hide Stands, GroupOf, GroupText, Flags, DescendLimited;
    if words == [] {
      assert c == [];
    } else {
      var e, rest := GroupText(words[0], c[..4]), GroupsText(words[1..], c[4..]);
      assert c[4 * 0..4 * 0 + 4] == c[..4];
      assert GroupOf(tree, words[0], c[..4]);
      StandsBoth(s, p, e, rest);
      GroupSome(tree, words[0], c[..4]);
      GroupRead(s, tree, words[0], c[..4], p, |e + rest|);
      forall i | 0 <= i < |words[1..]|
        ensures GroupOf(tree, words[1..][i], c[4..][4 * i..4 * i + 4])
      {
        assert c[4..][4 * i..4 * i + 4] == c[4 * (i + 1)..4 * (i + 1) + 4];
      }
      GroupsRead(s, tree, words[1..], c[4..], l3 - 1, p + |e|);
      assert c[..4] + c[4..] == c;
    }
  }

  lemma GroupSome(tree: Tree, word: seq<bool>, c: seq<int>)
    requires tree.Fork? && GroupOf(tree, word, c)
    ensures GroupText(word, c) != []
  {
    WordNonempty(tree, word, GroupSymbol(c[0], c[1], c[2], c[3]));
  }

  // ---- All coefficients of a granule

  /** Code words for the coefficients `c` of a granule: a word for each pair of big values, in the code book of its
      region, and a word for each group of four.
   */
  ghost predicate Coded(g: GrInfo, words: seq<seq<bool>>, last: seq<seq<bool>>, c: seq<int>)
    requires Fits(g)
  {
    && |words| == g.bigValues && |last| <= (288 - g.bigValues) / 2 && |c| == 2 * |words| + 4 * |last|
    && var l := Lengths(g.bigValues, g.region1, g.region2);
      var m := l.0 + l.1;
      && PairsOf(g.tables[0], words[..l.0], c[..2 * l.0])
      && PairsOf(g.tables[1], words[l.0..m], c[2 * l.0..2 * m])
      && PairsOf(g.tables[2], words[m..], c[2 * m..2 * |words|])
      && GroupsOf(g.count1, last, c[2 * |words|..])
  }

  ghost function CodedText(g: GrInfo, words: seq<seq<bool>>, last: seq<seq<bool>>, c: seq<int>): seq<bool>
    requires Fits(g) && Coded(g, words, last, c)
  {
    var l := Lengths(g.bigValues, g.region1, g.region2);
    var m := l.0 + l.1;
    RegionText(g.tables[0], words[..l.0], c[..2 * l.0])
      + RegionText(g.tables[1], words[l.0..m], c[2 * l.0..2 * m])
      + RegionText(g.tables[2], words[m..], c[2 * m..2 * |words|])
      + GroupsText(last, c[2 * |words|..])
  }

  /** What an encoder has written is what a decoder reads, and it takes exactly these bits. */
  lemma CodedRead(s: Stream, g: GrInfo, words: seq<seq<bool>>, last: seq<seq<bool>>, c: seq<int>, p: nat)
    requires Fits(g) && g.count1.Fork? && Coded(g, words, last, c) && Stands(s, p, CodedText(g, words, last, c))
    ensures var n := |CodedText(g, words, last, c)|;
      Coefficients(s, g, p, n) == Part(c, p + n, 0, false)
  {
    hide Stands, PairsOf, GroupsOf, RegionText, GroupsText, Region, Groups;
    var l := Lengths(g.bigValues, g.region1, g.region2);
    var m := l.0 + l.1;
    var a := RegionText(g.tables[0], words[..l.0], c[..2 * l.0]);
    var b := RegionText(g.tables[1], words[l.0..m], c[2 * l.0..2 * m]);
    var d := RegionText(g.tables[2], words[m..], c[2 * m..2 * |words|]);
    var e := GroupsText(last, c[2 * |words|..]);
    var n := |a + b + d + e|;
    StandsBoth(s, p, a + b + d, e);
    StandsBoth(s, p, a + b, d);
    StandsBoth(s, p, a, b);
    RegionRead(s, g.tables[0], words[..l.0], c[..2 * l.0], p, n);
    RegionRead(s, g.tables[1], words[l.0..m], c[2 * l.0..2 * m], p + |a|, n - |a|);
    RegionRead(s, g.tables[2], words[m..], c[2 * m..2 * |words|], p + |a + b|, n - |a + b|);
    GroupsRead(s, g.count1, last, c[2 * |words|..], (288 - g.bigValues) / 2, p + |a + b + d|);
    Fourfold(c, 2 * l.0, 2 * m, 2 * |words|);
  }

  lemma Fourfold(c: seq<int>, i: nat, j: nat, k: nat)
    requires i <= j <= k <= |c|
    ensures c[..i] + c[i..j] + c[j..k] + c[k..] == c
  {
  }
}
