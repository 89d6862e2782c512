/** When a table is the jump table of a tree: it is read from its end, and the trees found so far are stacked. */
module MpgCodes {
  import opened BitStrings
  import opened MpgBits
  import opened MpgHuffman
  import opened MpgGranule

  /** A table is the jump table of a tree whose leaves are below 256. */
  ghost predicate IsCode(table: seq<int>) {
    exists t :: IsCodeOf(table, t)
  }

  ghost predicate IsCodeOf(table: seq<int>, t: Tree) {
    Flatten(t) == table && Values(t, 256)
  }

  /** The tree of a table; there is only one. */
  ghost function TreeOf(table: seq<int>): (t: Tree)
    requires IsCode(table)
    ensures Flatten(t) == table && Values(t, 256)
  {
    var t :| IsCodeOf(table, t);
    t
  }

  lemma OnlyTree(table: seq<int>, t: Tree)
    requires IsCode(table) && Flatten(t) == table
    ensures t == TreeOf(table)
  {
    FlattenInjective(t, TreeOf(table), [], []);
  }

  /** The lengths of the trees that a part of a table from some entry on consists of. */
  datatype Stack = Bad | Nil | Push(len: int, rest: Stack)

  /** One more entry in front: a leaf, or a node over the first two trees. */
  function Step(e: int, st: Stack): Stack {
    if e >= 256 then Bad
    else if e >= 0 then Push(1, st)
    else
      match st
      case Push(n, Push(m, rest)) => if n == -e then Push(1 + n + m, rest) else Bad
      case Push(_, Nil) => Bad
      case Push(_, Bad) => Bad
      case Nil => Bad
      case Bad => Bad
  }

  function At(row: seq<int>, i: int, st: Stack): Stack {
    if 0 <= i < |row| then Step(row[i], st) else st
  }

  /** A row of 15 entries, from its last one to its first one. */
  function Full(row: seq<int>, st: Stack): Stack
    requires |row| == 15
  {
    var a := Step(row[14], st);
    var b := Step(row[13], a);
    var c := Step(row[12], b);
    var d := Step(row[11], c);
    var e := Step(row[10], d);
    var f := Step(row[9], e);
    var g := Step(row[8], f);
    var h := Step(row[7], g);
    var i := Step(row[6], h);
    var j := Step(row[5], i);
    var k := Step(row[4], j);
    var l := Step(row[3], k);
    var m := Step(row[2], l);
    var n := Step(row[1], m);
    Step(row[0], n)
  }

  function Row(row: seq<int>, st: Stack): Stack {
    if |row| == 15 then Full(row, st) else Bad
  }

  /** A table is some rows of 15 entries and a shorter one at its end. */
  datatype Rows = Rows(full: seq<seq<int>>, last: seq<int>)

  /** The rows from the `k`-th on, as a stack and as a table. */
  function Stacked(t: Rows, k: nat): Stack
    requires k <= |t.full|
    decreases |t.full| - k
  {
    if k == |t.full| then ShortRow(t.last, 0, Nil) else Row(t.full[k], Stacked(t, k + 1))
  }

  function Table(t: Rows, k: nat): seq<int>
    requires k <= |t.full|
    decreases |t.full| - k
  {
    if k == |t.full| then t.last else t.full[k] + Table(t, k + 1)
  }

  /** A row of at most 15 entries, entry by entry. */
  function ShortRow(row: seq<int>, i: nat, st: Stack): Stack
    requires i <= 15
    decreases 15 - i
  {
    if |row| > 15 then Bad else if i == 15 then st else At(row, i, ShortRow(row, i + 1, st))
  }

  lemma RowIs(row: seq<int>, st: Stack)
    requires |row| == 15
    ensures ShortRow(row, 0, st) == Row(row, st)
  {
    hide Step;
    assert ShortRow(row, 12, st) == Step(row[12], Step(row[13], Step(row[14], st)));
    assert ShortRow(row, 9, st) == Step(row[9], Step(row[10], Step(row[11], ShortRow(row, 12, st))));
    assert ShortRow(row, 6, st) == Step(row[6], Step(row[7], Step(row[8], ShortRow(row, 9, st))));
    assert ShortRow(row, 3, st) == Step(row[3], Step(row[4], Step(row[5], ShortRow(row, 6, st))));
  }

  /** A short row at once. */
  lemma LastRow(row: seq<int>)
    requires |row| <= 11
    ensures ShortRow(row, 0, Nil) == Last(row)
  {
    hide Step;
    assert ShortRow(row, 12, Nil) == At(row, 12, At(row, 13, At(row, 14, Nil)));
    assert ShortRow(row, 9, Nil) == At(row, 9, At(row, 10, At(row, 11, ShortRow(row, 12, Nil))));
    assert ShortRow(row, 6, Nil) == At(row, 6, At(row, 7, At(row, 8, ShortRow(row, 9, Nil))));
    assert ShortRow(row, 3, Nil) == At(row, 3, At(row, 4, At(row, 5, ShortRow(row, 6, Nil))));
  }

  function Last(row: seq<int>): Stack {
    var a := At(row, 10, Nil);
    var b := At(row, 9, a);
    var c := At(row, 8, b);
    var d := At(row, 7, c);
    var e := At(row, 6, d);
    var f := At(row, 5, e);
    var g := At(row, 4, f);
    var h := At(row, 3, g);
    var i := At(row, 2, h);
    var j := At(row, 1, i);
    At(row, 0, j)
  }

  lemma OneRow(t: Rows, k: nat)
    requires k < |t.full|
    ensures Stacked(t, k) == Row(t.full[k], Stacked(t, k + 1))
  {
  }

  lemma FiveRows(t: Rows, k: nat)
    requires k + 5 <= |t.full|
    ensures Stacked(t, k) ==
      Row(t.full[k], Row(t.full[k + 1], Row(t.full[k + 2], Row(t.full[k + 3], Row(t.full[k + 4], Stacked(t, k + 5))))))
  {
    hide Row;
    OneRow(t, k);
    OneRow(t, k + 1);
    OneRow(t, k + 2);
    OneRow(t, k + 3);
    OneRow(t, k + 4);
  }

  lemma NoRow(t: Rows)
    ensures Stacked(t, |t.full|) == ShortRow(t.last, 0, Nil)
  {
  }

  // ---- A stack that is not bad stands for trees ----

  ghost predicate Parsed(s: seq<int>, st: Stack) {
    match st
    case Bad => false
    case Nil => s == []
    case Push(n, rest) => 0 <= n <= |s| && IsCode(s[..n]) && Parsed(s[n..], rest)
  }

  lemma LeafCode(e: int)
    requires 0 <= e < 256
    ensures IsCode([e])
  {
    assert IsCodeOf([e], Leaf(e));
  }

  lemma ForkCode(a: seq<int>, b: seq<int>)
    requires IsCode(a) && IsCode(b)
    ensures IsCode([-|a|] + a + b)
  {
    var t := Fork(TreeOf(a), TreeOf(b));
    assert Flatten(t) == [-|a|] + a + b;
    assert Values(t, 256);
    assert IsCodeOf([-|a|] + a + b, t);
  }

  lemma StepParsed(e: int, s: seq<int>, st: Stack)
    requires Parsed(s, st) && !Step(e, st).Bad?
    ensures Parsed([e] + s, Step(e, st))
  {
    hide IsCode;
    if e >= 0 {
      LeafCode(e);
      assert ([e] + s)[..1] == [e] && ([e] + s)[1..] == s;
    } else {
      var n, m := st.len, st.rest.len;
      var a, b := s[..n], s[n..][..m];
      assert IsCode(b) && Parsed(s[n..][m..], st.rest.rest);
      ForkCode(a, b);
      assert ([e] + s)[..1 + n + m] == [e] + a + b;
      assert ([e] + s)[1 + n + m..] == s[n..][m..];
    }
  }

  /** Nothing has gone wrong so far. */
  ghost predicate Sound(st: Stack) {
    match st
    case Bad => false
    case Nil => true
    case Push(_, rest) => Sound(rest)
  }

  lemma SoundBefore(row: seq<int>, i: nat, st: Stack)
    requires Sound(At(row, i, st))
    ensures Sound(st)
  {
    if i < |row| && row[i] < 0 {
      assert Sound(st.rest.rest) && Sound(st.rest);
    }
  }

  function From(row: seq<int>, i: nat): seq<int> {
    if i <= |row| then row[i..] else []
  }

  lemma AtParsed(row: seq<int>, i: nat, s: seq<int>, st: Stack)
    requires Parsed(From(row, i + 1) + s, st) && !At(row, i, st).Bad?
    ensures Parsed(From(row, i) + s, At(row, i, st))
  {
    hide Parsed, Step;
    if i < |row| {
      StepParsed(row[i], From(row, i + 1) + s, st);
      assert From(row, i) + s == [row[i]] + (From(row, i + 1) + s);
    } else {
      assert From(row, i) == From(row, i + 1);
    }
  }

  lemma {:induction false} RowParsed(row: seq<int>, i: nat, s: seq<int>, st: Stack)
    requires i <= 15 && |row| <= 15 && Parsed(s, st) && Sound(ShortRow(row, i, st))
    ensures Parsed(From(row, i) + s, ShortRow(row, i, st))
    decreases 15 - i
  {
    hide Parsed, At;
    if i == 15 {
      assert From(row, i) + s == s;
    } else {
      SoundBefore(row, i, ShortRow(row, i + 1, st));
      RowParsed(row, i + 1, s, st);
      AtParsed(row, i, s, ShortRow(row, i + 1, st));
    }
  }

  lemma {:induction false} RowSound(row: seq<int>, i: nat, st: Stack)
    requires i <= 15 && Sound(ShortRow(row, i, st))
    ensures Sound(st)
    decreases 15 - i
  {
    hide At;
    if i < 15 {
      SoundBefore(row, i, ShortRow(row, i + 1, st));
      RowSound(row, i + 1, st);
    }
  }

  lemma {:induction false} RowsParsed(t: Rows, k: nat)
    requires k <= |t.full| && Sound(Stacked(t, k))
    ensures Parsed(Table(t, k), Stacked(t, k))
    decreases |t.full| - k
  {
    hide Parsed, At, Row, ShortRow;
    if k == |t.full| {
      NothingParsed();
      LongIsBad(t.last, Nil);
      RowParsed(t.last, 0, [], Nil);
      assert From(t.last, 0) + [] == t.last;
    } else {
      var st := Stacked(t, k + 1);
      RowIsFull(t.full[k], st);
      RowIs(t.full[k], st);
      RowSound(t.full[k], 0, st);
      RowsParsed(t, k + 1);
      RowParsed(t.full[k], 0, Table(t, k + 1), st);
      assert From(t.full[k], 0) == t.full[k];
    }
  }

  lemma NothingParsed()
    ensures Parsed([], Nil)
  {
  }

  lemma RowIsFull(row: seq<int>, st: Stack)
    requires Sound(Row(row, st))
    ensures |row| == 15
  {
    hide Step;
  }

  lemma LongIsBad(row: seq<int>, st: Stack)
    requires Sound(ShortRow(row, 0, st))
    ensures |row| <= 15
  {
    hide At;
  }

  /** If one tree is left in the end, the table is its jump table. */
  lemma TableIsCode(t: Rows)
    requires Stacked(t, 0).Push? && Stacked(t, 0).rest == Nil
    ensures IsCode(Table(t, 0))
  {
    hide Row;
    RowsParsed(t, 0);
    var s := Table(t, 0);
    assert s[..Stacked(t, 0).len] == s;
  }
}
