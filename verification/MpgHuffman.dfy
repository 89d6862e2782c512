/**
 * The Huffman codes of layer 3 as jump tables (formats/mp3/huffman.h). A negative entry is an inner
 * node, followed by its 0-branch; its absolute value is the length of that branch. Any other entry
 * is a leaf.
 */
module MpgHuffman {
  import opened BitStrings
  import opened MpgBits

  datatype Tree = Leaf(value: nat) | Fork(zero: Tree, one: Tree)

  /** The jump table of a tree. */
  function Flatten(t: Tree): (r: seq<int>)
    ensures |r| > 0
    ensures t.Leaf? ==> r[0] == t.value
    ensures t.Fork? ==> r[0] < 0
  {
    match t
    case Leaf(v) => [v]
    case Fork(zero, one) => [-|Flatten(zero)|] + Flatten(zero) + Flatten(one)
  }

  lemma ForkIs(t: Tree, a: seq<int>)
    requires t.Fork?
    ensures (Flatten(t) + a)[0] == -|Flatten(t.zero)|
    ensures (Flatten(t) + a)[1..] == Flatten(t.zero) + (Flatten(t.one) + a)
  {
  }

  lemma LeafIs(t: Tree, a: seq<int>)
    requires t.Leaf?
    ensures Flatten(t) + a == [t.value] + a
    ensures (Flatten(t) + a)[0] == t.value && (Flatten(t) + a)[1..] == a
  {
  }

  /** A table belongs to one tree only, even with more behind it. */
  lemma {:induction false} FlattenInjective(t: Tree, u: Tree, a: seq<int>, b: seq<int>)
    requires Flatten(t) + a == Flatten(u) + b
    ensures t == u && a == b
  {
    hide Flatten;
    if t.Fork? {
      ForkIs(t, a);
    } else {
      LeafIs(t, a);
    }
    if u.Fork? {
      ForkIs(u, b);
    } else {
      LeafIs(u, b);
    }
    if t.Fork? && u.Fork? {
      FlattenInjective(t.zero, u.zero, Flatten(t.one) + a, Flatten(u.one) + b);
      FlattenInjective(t.one, u.one, a, b);
    }
  }

  /** The subtree at the end of a path, or nothing if the path is too long. */
  ghost predicate LeadsTo(t: Tree, path: seq<bool>, value: nat) {
    match t
    case Leaf(v) => path == [] && v == value
    case Fork(zero, one) => path != [] && LeadsTo(if path[0] then one else zero, path[1..], value)
  }

  /** A symbol, and the position behind its code word. */
  datatype Symbol = Symbol(value: nat, pos: nat)

  /** Walking down the tree bit by bit. */
  ghost function Descend(t: Tree, s: Stream, p: nat): (r: Symbol)
    ensures r.pos >= p
    decreases t
  {
    match t
    case Leaf(v) => Symbol(v, p)
    case Fork(zero, one) => Descend(if Bit(s, p) then one else zero, s, p + 1)
  }

  /** The bits that are used up are the path to the leaf: nothing less, and nothing behind it. */
  lemma {:induction false} DescendPath(t: Tree, s: Stream, p: nat)
    ensures LeadsTo(t, Taken(s, p, Descend(t, s, p).pos - p), Descend(t, s, p).value)
    decreases t
  {
    if t.Fork? {
      var u := if Bit(s, p) then t.one else t.zero;
      DescendPath(u, s, p + 1);
      var n := Descend(t, s, p).pos - p;
      assert Taken(s, p, n)[1..] == Taken(s, p + 1, n - 1) by {
        hide Bit;
      }
    }
  }

  /** The table holds the tree from the entry `i` on. */
  ghost predicate Holds(table: seq<int>, i: nat, t: Tree) {
    i + |Flatten(t)| <= |table| && table[i..i + |Flatten(t)|] == Flatten(t)
  }

  lemma Branches(table: seq<int>, i: nat, t: Tree)
    requires Holds(table, i, t)
    ensures table[i] == Flatten(t)[0]
    ensures t.Fork? ==> Holds(table, i + 1, t.zero) && Holds(table, i + 1 - table[i], t.one)
  {
    hide Flatten;
    assert table[i..i + |Flatten(t)|][0] == table[i];
    if t.Fork? {
      ForkIs(t, []);
      var z, o := Flatten(t.zero), Flatten(t.one);
      assert Flatten(t) + [] == Flatten(t) && o + [] == o;
      assert table[i..i + |Flatten(t)|][1..] == z + o;
      Parts(table, i, |Flatten(t)|, z, o);
    }
  }

  lemma Parts(table: seq<int>, i: nat, n: nat, z: seq<int>, o: seq<int>)
    requires 0 < n && i + n <= |table| && table[i..i + n][1..] == z + o
    ensures |z| + |o| == n - 1
    ensures table[i + 1..i + 1 + |z|] == z && table[i + 1 + |z|..i + 1 + |z| + |o|] == o
  {
    var rest := table[i..i + n][1..];
    assert rest[..|z|] == z && rest[|z|..] == o;
    assert rest[..|z|] == table[i + 1..i + 1 + |z|];
    assert rest[|z|..] == table[i + 1 + |z|..i + n];
  }

  /** The loop over the table: one bit and one count down for each inner node. */
  method Decode(r: Reader, table: seq<int>, ghost tree: Tree, part2remain: int) returns (y: int, remain: int)
    requires r.Valid() && table == Flatten(tree)
    modifies r
    ensures r.Valid() && y >= 0 && Symbol(y, r.Pos()) == Descend(tree, r.stream, old(r.Pos()))
    ensures r.Pos() + remain == old(r.Pos()) + part2remain
  {
    hide Flatten, Holds, Bit;
    ghost var t := tree;
    remain := part2remain;
    var val := 0;
    AtStart(tree);
    Branches(table, 0, t);
    y := table[val];
    val := val + 1;
    while y < 0
      invariant r.Valid() && r.Pos() + remain == old(r.Pos()) + part2remain
      invariant val > 0 && Holds(table, val - 1, t) && val <= |table| && y == table[val - 1] == Flatten(t)[0]
      invariant Descend(t, r.stream, r.Pos()) == Descend(tree, r.stream, old(r.Pos()))
      decreases t
    {
      Branches(table, val - 1, t);
      var bit := r.Get1Bit();
      if bit {
        val := val - y;
      }
      remain := remain - 1;
      t := if bit then t.one else t.zero;
      Branches(table, val, t);
      InTable(table, val, t);
      y := table[val];
      val := val + 1;
    }
  }

  lemma AtStart(t: Tree)
    ensures Holds(Flatten(t), 0, t)
  {
  }

  lemma InTable(table: seq<int>, i: nat, t: Tree)
    requires Holds(table, i, t)
    ensures i < |table|
  {
  }

  /** A symbol that the bits may not suffice for, and the bits that are left then. */
  datatype Limited = Limited(value: nat, pos: nat, remain: int)

  /** Walking down the tree as long as there are bits; 0 if they do not suffice. */
  ghost function DescendLimited(t: Tree, s: Stream, p: nat, remain: nat): (r: Limited)
    ensures r.remain >= 0 && r.pos + r.remain == p + remain && r.pos >= p
    decreases t
  {
    match t
    case Leaf(v) => Limited(v, p, remain)
    case Fork(zero, one) =>
      if remain == 0 then Limited(0, p, 0)
      else DescendLimited(if Bit(s, p) then one else zero, s, p + 1, remain - 1)
  }

  /** With enough bits the limit changes nothing, and without them none is left. */
  lemma {:induction false} LimitedIs(t: Tree, s: Stream, p: nat, remain: nat)
    ensures DescendLimited(t, s, p, remain) ==
      if Descend(t, s, p).pos <= p + remain
      then Limited(Descend(t, s, p).value, Descend(t, s, p).pos, p + remain - Descend(t, s, p).pos)
      else Limited(0, p + remain, 0)
    decreases t
  {
    if t.Fork? && remain > 0 {
      LimitedIs(if Bit(s, p) then t.one else t.zero, s, p + 1, remain - 1);
    }
  }

  /** The loop over a table of the last part, which must not read beyond the granule. */
  method DecodeLimited(r: Reader, table: seq<int>, ghost tree: Tree, part2remain: int) returns (a: int, remain: int)
    requires r.Valid() && table == Flatten(tree) && part2remain > 0
    modifies r
    ensures r.Valid() && a >= 0 && remain >= 0
    ensures Limited(a, r.Pos(), remain) == DescendLimited(tree, r.stream, old(r.Pos()), part2remain)
  {
    hide Flatten, Holds, Bit;
    ghost var t := tree;
    remain := part2remain;
    var val := 0;
    AtStart(tree);
    Branches(table, 0, t);
    a := table[val];
    val := val + 1;
    while a < 0
      invariant r.Valid() && remain >= 0
      invariant val > 0 && Holds(table, val - 1, t) && val <= |table| && a == table[val - 1] == Flatten(t)[0]
      invariant DescendLimited(t, r.stream, r.Pos(), remain) ==
        DescendLimited(tree, r.stream, old(r.Pos()), part2remain)
      decreases t
    {
      Branches(table, val - 1, t);
      remain := remain - 1;
      if remain < 0 {
        remain := remain + 1;
        a := 0;
        break;
      }
      var bit := r.Get1Bit();
      if bit {
        val := val - a;
      }
      t := if bit then t.one else t.zero;
      Branches(table, val, t);
      InTable(table, val, t);
      a := table[val];
      val := val + 1;
    }
  }
}
