/** Which allocations a heap has handed out, and what its counters say, as values. */
module HeapLedger {
  import opened BlockLayout
  import opened BlockHeaders
  import opened MemBlock
  import opened Sequences

  /** A pointer handed to a client: null, to the data behind the header at `off` in a standard
      block, or to a raw allocation.
   */
  datatype Ptr = Null | InBlock(blk: MemBlk, off: nat) | RawMem(mem: array<Cell>)

  /** The `k`-th data unit behind a pointer. */
  ghost function Word(p: Ptr, k: nat): Cell
    reads if p.InBlock? then {p.blk.data} else if p.RawMem? then {p.mem} else {}
  {
    match p
    case InBlock(b, a) => if a + 1 + k < b.data.Length then b.data[a + 1 + k] else Cell(false, false, 0, 0, 0)
    case RawMem(m) => if k < m.Length then m[k] else Cell(false, false, 0, 0, 0)
    case Null => Cell(false, false, 0, 0, 0)
  }

  type Layouts = map<MemBlk, Layout>

  /** Every node has memory of its own, and standard nodes have exactly the blocks of `layouts`. */
  ghost predicate Tied(links: seq<MemLink>, mems: seq<array<Cell>>, layouts: Layouts) {
    && Distinct(links) && Distinct(mems) && |mems| == |links|
    && (forall i {:trigger links[i].isRaw} :: 0 <= i < |links| ==> (links[i].isRaw <==> links[i].blk == null))
    && (forall i {:trigger links[i].blk} :: 0 <= i < |links| && !links[i].isRaw ==>
          links[i].blk in layouts && links[i].blk.data == mems[i])
    && (forall b :: b in layouts ==> exists i :: 0 <= i < |links| && links[i].blk == b)
  }

  /** `live` lists exactly the elements in use and the raw allocations, with their sizes. */
  ghost predicate Ledger(links: seq<MemLink>, mems: seq<array<Cell>>, layouts: Layouts, live: map<Ptr, nat>)
    requires |mems| == |links|
  {
    && (forall b, a: nat {:trigger InBlock(b, a)} :: b in layouts && a in Live(layouts[b]) ==>
          InBlock(b, a) in live && live[InBlock(b, a)] == Live(layouts[b])[a])
    && (forall i {:trigger mems[i]} :: 0 <= i < |links| && links[i].isRaw ==>
          RawMem(mems[i]) in live && live[RawMem(mems[i])] == mems[i].Length)
    && (forall p :: p in live ==>
          && !p.Null?
          && (p.InBlock? ==> p.blk in layouts && p.off in Live(layouts[p.blk]))
          && (p.RawMem? ==> exists i :: 0 <= i < |links| && links[i].isRaw && mems[i] == p.mem))
  }

  /** What the heap counters are told about one list node. */
  datatype Stat = Raw | Std(units: nat, clean: bool)

  ghost function StatOf(l: MemLink, layouts: Layouts): Stat {
    if l.blk == null || l.blk !in layouts then Raw else Std(l.blk.nunits, layouts[l.blk] == map[])
  }

  /** Total size and number of the standard blocks; `cleanOnly` counts only those without elements. */
  ghost function Units(links: seq<MemLink>, layouts: Layouts, cleanOnly: bool): nat {
    if links == [] then 0
    else UnitsOf(StatOf(links[0], layouts), cleanOnly) + Units(links[1..], layouts, cleanOnly)
  }

  ghost function Count(links: seq<MemLink>, layouts: Layouts, cleanOnly: bool): nat {
    if links == [] then 0
    else CountOf(StatOf(links[0], layouts), cleanOnly) + Count(links[1..], layouts, cleanOnly)
  }

  ghost function UnitsOf(s: Stat, cleanOnly: bool): nat {
    if s.Std? && (s.clean || !cleanOnly) then s.units else 0
  }

  ghost function CountOf(s: Stat, cleanOnly: bool): nat {
    if s.Std? && (s.clean || !cleanOnly) then 1 else 0
  }

  /** A node that leaves the list takes its share of the totals with it. */
  lemma {:induction false} CountWithout(links: seq<MemLink>, layouts: Layouts, i: nat, cleanOnly: bool)
    requires i < |links|
    ensures Units(links, layouts, cleanOnly) ==
      Units(Without(links, i), layouts, cleanOnly) + UnitsOf(StatOf(links[i], layouts), cleanOnly)
    ensures Count(links, layouts, cleanOnly) ==
      Count(Without(links, i), layouts, cleanOnly) + CountOf(StatOf(links[i], layouts), cleanOnly)
  {
    if i == 0 {
      assert Without(links, 0) == links[1..];
    } else {
      assert Without(links, i)[1..] == Without(links[1..], i - 1);
      CountWithout(links[1..], layouts, i - 1, cleanOnly);
    }
  }

  lemma {:induction false} CountSame(links: seq<MemLink>, s: Layouts, t: Layouts, cleanOnly: bool)
    requires forall i :: 0 <= i < |links| ==> StatOf(links[i], s) == StatOf(links[i], t)
    ensures Units(links, s, cleanOnly) == Units(links, t, cleanOnly)
    ensures Count(links, s, cleanOnly) == Count(links, t, cleanOnly)
  {
    if links != [] {
      assert StatOf(links[0], s) == StatOf(links[0], t);
      CountSame(links[1..], s, t, cleanOnly);
    }
  }

  /** Changing the layout of the block of the node at `i` changes that node's share only. */
  lemma CountUpdate(links: seq<MemLink>, s: Layouts, t: Layouts, i: nat, cleanOnly: bool)
    requires i < |links|
    requires forall j :: 0 <= j < |links| && j != i ==> StatOf(links[j], s) == StatOf(links[j], t)
    ensures Units(links, t, cleanOnly) == Units(links, s, cleanOnly)
      - UnitsOf(StatOf(links[i], s), cleanOnly) + UnitsOf(StatOf(links[i], t), cleanOnly)
    ensures Count(links, t, cleanOnly) == Count(links, s, cleanOnly)
      - CountOf(StatOf(links[i], s), cleanOnly) + CountOf(StatOf(links[i], t), cleanOnly)
  {
    CountWithout(links, s, i, cleanOnly);
    CountWithout(links, t, i, cleanOnly);
    CountSame(Without(links, i), s, t, cleanOnly);
  }

  /** A raw allocation is given back. */
  lemma RawGone(links: seq<MemLink>, mems: seq<array<Cell>>, layouts: Layouts, live: map<Ptr, nat>, i: nat)
    requires Tied(links, mems, layouts) && Ledger(links, mems, layouts, live)
    requires i < |links| && links[i].isRaw
    ensures Tied(Without(links, i), Without(mems, i), layouts)
    ensures Ledger(Without(links, i), Without(mems, i), layouts, live - {RawMem(mems[i])})
  {
    hide Distinct, Live;
    DistinctWithout(links, i);
    DistinctWithout(mems, i);
    var l := Without(links, i);
    forall b | b in layouts
      ensures exists j :: 0 <= j < |l| && l[j].blk == b
    {
      var j :| 0 <= j < |links| && links[j].blk == b;
      assert l[if j < i then j else j - 1] == links[j];
    }
    RawGoneLedger(links, mems, layouts, live, i);
  }

  lemma RawGoneLedger(links: seq<MemLink>, mems: seq<array<Cell>>, layouts: Layouts, live: map<Ptr, nat>, i: nat)
    requires Tied(links, mems, layouts) && Ledger(links, mems, layouts, live)
    requires i < |links| && links[i].isRaw
    ensures Ledger(Without(links, i), Without(mems, i), layouts, live - {RawMem(mems[i])})
  {
    hide Tied, Live, Distinct;
    MemsDistinct(links, mems, layouts);
    DistinctWithout(mems, i);
    RawsWithout(links, mems, layouts, live, i);
  }

  lemma TiedAt(links: seq<MemLink>, mems: seq<array<Cell>>, layouts: Layouts, i: nat)
    requires Tied(links, mems, layouts) && i < |links|
    ensures |mems| == |links|
    ensures links[i].isRaw <==> links[i].blk == null
    ensures !links[i].isRaw ==> links[i].blk in layouts && links[i].blk.data == mems[i]
    ensures forall l :: l in links && l != links[i] ==> l in Without(links, i)
  {
    var r := Without(links, i);
    forall l | l in links && l != links[i]
      ensures l in r
    {
      var j :| 0 <= j < |links| && links[j] == l;
      assert r[if j < i then j else j - 1] == l;
    }
  }

  lemma MemsDistinct(links: seq<MemLink>, mems: seq<array<Cell>>, layouts: Layouts)
    requires Tied(links, mems, layouts)
    ensures Distinct(mems) && |mems| == |links|
  {
  }

  lemma RawsWithout(links: seq<MemLink>, mems: seq<array<Cell>>, layouts: Layouts, live: map<Ptr, nat>, i: nat)
    requires Tied(links, mems, layouts) && Ledger(links, mems, layouts, live)
    requires i < |links|
    ensures var l, m := Without(links, i), Without(mems, i);
      forall p :: p in live && p.RawMem? && p != RawMem(mems[i]) ==>
        exists j :: 0 <= j < |l| && l[j].isRaw && m[j] == p.mem
  {
    hide Tied, Ledger, Without;
    MemsDistinct(links, mems, layouts);
    var l, m := Without(links, i), Without(mems, i);
    forall p | p in live && p.RawMem? && p != RawMem(mems[i])
      ensures exists j :: 0 <= j < |l| && l[j].isRaw && m[j] == p.mem
    {
      var j := RawOf(links, mems, layouts, live, p);
      var k := if j < i then j else j - 1;
      assert l[k] == links[j] && m[k] == mems[j];
    }
  }

  lemma OneNode(links: seq<MemLink>, mems: seq<array<Cell>>, layouts: Layouts, i: nat, j: nat)
    requires Tied(links, mems, layouts) && i < |links| && j < |links| && i != j
    requires !links[i].isRaw && !links[j].isRaw
    ensures links[j].blk != links[i].blk
  {
    assert links[j].blk.data == mems[j] && links[i].blk.data == mems[i];
  }

  /** A standard block without elements is given back. */
  lemma StdGone(links: seq<MemLink>, mems: seq<array<Cell>>, layouts: Layouts, live: map<Ptr, nat>, i: nat)
    requires Tied(links, mems, layouts) && Ledger(links, mems, layouts, live)
    requires i < |links| && !links[i].isRaw && Live(layouts[links[i].blk]) == map[]
    ensures Tied(Without(links, i), Without(mems, i), layouts - {links[i].blk})
    ensures Ledger(Without(links, i), Without(mems, i), layouts - {links[i].blk}, live)
  {
    hide Distinct, Live;
    DistinctWithout(links, i);
    DistinctWithout(mems, i);
    var l := Without(links, i);
    var t := layouts - {links[i].blk};
    forall j | 0 <= j < |links| && j != i && !links[j].isRaw
      ensures links[j].blk != links[i].blk
    {
      OneNode(links, mems, layouts, i, j);
    }
    forall b | b in t
      ensures exists j :: 0 <= j < |l| && l[j].blk == b
    {
      var j :| 0 <= j < |links| && links[j].blk == b;
      assert l[if j < i then j else j - 1] == links[j];
    }
    RawsWithout(links, mems, layouts, live, i);
  }

  /** An element of the block `b` goes into use or changes its size. */
  lemma ElemLive(links: seq<MemLink>, mems: seq<array<Cell>>, layouts: Layouts, live: map<Ptr, nat>, b: MemBlk,
                 s: Layout, a: nat, n: nat)
    requires Tied(links, mems, layouts) && Ledger(links, mems, layouts, live) && b in layouts
    requires Live(s) == Live(layouts[b])[a := n]
    ensures Tied(links, mems, layouts[b := s])
    ensures Ledger(links, mems, layouts[b := s], live[InBlock(b, a) := n])
  {
    hide Live, Distinct;
  }

  /** An element of the block `b` is given back. */
  lemma ElemGone(links: seq<MemLink>, mems: seq<array<Cell>>, layouts: Layouts, live: map<Ptr, nat>, b: MemBlk,
                 s: Layout, a: nat)
    requires Tied(links, mems, layouts) && Ledger(links, mems, layouts, live) && b in layouts
    requires Live(s) == Live(layouts[b]) - {a}
    ensures Tied(links, mems, layouts[b := s])
    ensures Ledger(links, mems, layouts[b := s], live - {InBlock(b, a)})
  {
    hide Live, Distinct;
  }

  /** A new standard block with one element comes in front. */
  lemma StdNew(links: seq<MemLink>, mems: seq<array<Cell>>, layouts: Layouts, live: map<Ptr, nat>, l: MemLink,
      b: MemBlk,
               s: Layout, a: nat, n: nat)
    requires Tied(links, mems, layouts) && Ledger(links, mems, layouts, live)
    requires l !in links && !l.isRaw && l.blk == b && b !in layouts && b.data !in mems
    requires Live(s) == map[a := n]
    ensures Tied([l] + links, [b.data] + mems, layouts[b := s])
    ensures Ledger([l] + links, [b.data] + mems, layouts[b := s], live[InBlock(b, a) := n])
  {
    hide Distinct, Live;
    DistinctFront(links, l);
    DistinctFront(mems, b.data);
    var k := [l] + links;
    var t := layouts[b := s];
    forall c | c in t
      ensures exists j :: 0 <= j < |k| && k[j].blk == c
    {
      if c == b {
        assert k[0].blk == b;
      } else {
        var j :| 0 <= j < |links| && links[j].blk == c;
        assert k[j + 1] == links[j];
      }
    }
    StdNewLedger(links, mems, layouts, live, l, b, s, a, n);
  }

  lemma StdNewLedger(links: seq<MemLink>, mems: seq<array<Cell>>, layouts: Layouts, live: map<Ptr, nat>, l: MemLink,
                     b: MemBlk, s: Layout, a: nat, n: nat)
    requires |mems| == |links| && Ledger(links, mems, layouts, live)
    requires !l.isRaw && b !in layouts && Live(s) == map[a := n]
    ensures Ledger([l] + links, [b.data] + mems, layouts[b := s], live[InBlock(b, a) := n])
  {
    hide Live;
    var k := [l] + links;
    var m := [b.data] + mems;
    forall p | p in live && p.RawMem?
      ensures exists i :: 0 <= i < |k| && k[i].isRaw && m[i] == p.mem
    {
      var j :| 0 <= j < |links| && links[j].isRaw && mems[j] == p.mem;
      assert k[j + 1] == links[j] && m[j + 1] == mems[j];
    }
  }

  /** A new raw allocation comes in front. */
  lemma RawNew(links: seq<MemLink>, mems: seq<array<Cell>>, layouts: Layouts, live: map<Ptr, nat>, l: MemLink,
      r: array<Cell>)
    requires Tied(links, mems, layouts) && Ledger(links, mems, layouts, live)
    requires l !in links && l.isRaw && l.blk == null && r !in mems
    ensures Tied([l] + links, [r] + mems, layouts)
    ensures Ledger([l] + links, [r] + mems, layouts, live[RawMem(r) := r.Length])
  {
    hide Distinct, Live;
    DistinctFront(links, l);
    DistinctFront(mems, r);
    var k := [l] + links;
    forall b | b in layouts
      ensures exists j :: 0 <= j < |k| && k[j].blk == b
    {
      var j :| 0 <= j < |links| && links[j].blk == b;
      assert k[j + 1] == links[j];
    }
    RawNewLedger(links, mems, layouts, live, l, r);
  }

  lemma RawNewLedger(links: seq<MemLink>, mems: seq<array<Cell>>, layouts: Layouts, live: map<Ptr, nat>, l: MemLink,
                     r: array<Cell>)
    requires |mems| == |links| && Ledger(links, mems, layouts, live) && l.isRaw
    ensures Ledger([l] + links, [r] + mems, layouts, live[RawMem(r) := r.Length])
  {
    hide Live;
    var k := [l] + links;
    var m := [r] + mems;
    forall p | p in live && p.RawMem?
      ensures exists i :: 0 <= i < |k| && k[i].isRaw && m[i] == p.mem
    {
      var j :| 0 <= j < |links| && links[j].isRaw && mems[j] == p.mem;
      assert k[j + 1] == links[j] && m[j + 1] == mems[j];
    }
    assert k[0].isRaw && m[0] == r;
  }

  /** A raw allocation moves to new memory. */
  lemma RawMoved(links: seq<MemLink>, mems: seq<array<Cell>>, layouts: Layouts, live: map<Ptr, nat>, i: nat,
      r: array<Cell>)
    requires Tied(links, mems, layouts) && Ledger(links, mems, layouts, live)
    requires i < |links| && links[i].isRaw && r !in mems
    ensures Tied(links, mems[i := r], layouts)
    ensures Ledger(links, mems[i := r], layouts, (live - {RawMem(mems[i])})[RawMem(r) := r.Length])
  {
    hide Distinct, Live;
    DistinctUpdate(mems, i, r);
    DistinctAt(mems, i);
    var m := mems[i := r];
    forall p | p in live && p.RawMem? && p.mem != mems[i]
      ensures exists j :: 0 <= j < |links| && links[j].isRaw && m[j] == p.mem
    {
      var j :| 0 <= j < |links| && links[j].isRaw && mems[j] == p.mem;
      assert m[j] == mems[j];
    }
    assert m[i] == r;
  }

  /** No two blocks share memory, and none shares it with a raw allocation. */
  lemma MemsApart(links: seq<MemLink>, mems: seq<array<Cell>>, layouts: Layouts, live: map<Ptr, nat>, b: MemBlk)
    requires Tied(links, mems, layouts) && Ledger(links, mems, layouts, live) && b in layouts
    ensures b.data in mems
    ensures forall c {:trigger c.data} :: c in layouts && c != b ==> c.data != b.data && c.data in mems
    ensures forall p {:trigger p in live} :: p in live && p.RawMem? ==> p.mem != b.data && p.mem in mems
    ensures forall p {:trigger p in live} :: p in live ==> (p.InBlock? ==> p.blk in layouts) && !p.Null?
  {
    hide Tied, Ledger;
    var i := BlockAt(links, mems, layouts, b);
    forall c | c in layouts && c != b
      ensures c.data != b.data && c.data in mems
    {
      var j := BlockAt(links, mems, layouts, c);
      MemsDiffer(links, mems, layouts, i, j);
    }
    forall p | p in live && p.RawMem?
      ensures p.mem != b.data && p.mem in mems
    {
      var j := RawOf(links, mems, layouts, live, p);
      MemsDiffer(links, mems, layouts, i, j);
    }
    LedgerKinds(links, mems, layouts, live);
  }

  lemma BlockAt(links: seq<MemLink>, mems: seq<array<Cell>>, layouts: Layouts, b: MemBlk) returns (i: nat)
    requires Tied(links, mems, layouts) && b in layouts
    ensures |mems| == |links| && i < |links| && links[i].blk == b && !links[i].isRaw && mems[i] == b.data
  {
    i :| 0 <= i < |links| && links[i].blk == b;
    assert !links[i].isRaw;
  }

  lemma RawOf(links: seq<MemLink>, mems: seq<array<Cell>>, layouts: Layouts, live: map<Ptr, nat>, p: Ptr)
      returns (j: nat)
    requires Tied(links, mems, layouts) && Ledger(links, mems, layouts, live) && p in live && p.RawMem?
    ensures |mems| == |links| && j < |links| && links[j].isRaw && mems[j] == p.mem
  {
    hide Tied, Live;
    MemsDistinct(links, mems, layouts);
    j :| 0 <= j < |links| && links[j].isRaw && mems[j] == p.mem;
  }

  lemma MemsDiffer(links: seq<MemLink>, mems: seq<array<Cell>>, layouts: Layouts, i: nat, j: nat)
    requires Tied(links, mems, layouts) && i < |links| && j < |links|
    ensures |mems| == |links| && (links[i] != links[j] ==> mems[i] != mems[j])
  {
    hide Tied;
    MemsDistinct(links, mems, layouts);
  }

  lemma LedgerKinds(links: seq<MemLink>, mems: seq<array<Cell>>, layouts: Layouts, live: map<Ptr, nat>)
    requires |mems| == |links| && Ledger(links, mems, layouts, live)
    ensures forall p {:trigger p in live} :: p in live ==> (p.InBlock? ==> p.blk in layouts) && !p.Null?
  {
    hide Live;
  }

  lemma LedgerAt(links: seq<MemLink>, mems: seq<array<Cell>>, layouts: Layouts, live: map<Ptr, nat>, b: MemBlk, a: nat)
    requires |mems| == |links| && Ledger(links, mems, layouts, live) && InBlock(b, a) in live
    ensures b in layouts && a in Live(layouts[b]) && live[InBlock(b, a)] == Live(layouts[b])[a]
  {
    hide Live;
  }

  /** A unit of an element that is in use before and after an operation on its block. */
  lemma UnitKept(links: seq<MemLink>, mems: seq<array<Cell>>, s: Layouts, before: map<Ptr, nat>,
                 t: Layouts, after: map<Ptr, nat>, d: seq<Cell>, e: seq<Cell>, p: Ptr, k: nat)
    requires |mems| == |links| && Ledger(links, mems, s, before) && Ledger(links, mems, t, after)
    requires p in before && p in after && p.InBlock? && k < before[p] && k < after[p]
    requires p.blk in s && p.blk in t ==> Kept(d, e, Live(s[p.blk]), Live(t[p.blk]))
    ensures |d| == |e| && (p.off + 1 + k < |d| ==> e[p.off + 1 + k] == d[p.off + 1 + k])
  {
    hide Ledger, Live, Kept;
    LedgerAt(links, mems, s, before, p.blk, p.off);
    LedgerAt(links, mems, t, after, p.blk, p.off);
    KeptAt(d, e, Live(s[p.blk]), Live(t[p.blk]), p.off, p.off + 1 + k);
  }

  lemma KeptAt(d: seq<Cell>, e: seq<Cell>, before: map<nat, nat>, after: map<nat, nat>, a: nat, u: nat)
    requires Kept(d, e, before, after) && a in before && a in after
    requires a < u <= a + before[a] && u <= a + after[a]
    ensures |d| == |e| && (u < |d| ==> e[u] == d[u])
  {
    assert Owns(before, a, u) && Owns(after, a, u);
  }

  /** The totals of the other nodes do not depend on the layout of a block that is gone. */
  lemma CountGone(links: seq<MemLink>, mems: seq<array<Cell>>, layouts: Layouts, i: nat, cleanOnly: bool)
    requires Tied(links, mems, layouts) && i < |links| && !links[i].isRaw
    ensures var l := Without(links, i);
      var t := layouts - {links[i].blk};
      && Units(l, t, cleanOnly) == Units(l, layouts, cleanOnly)
      && Count(l, t, cleanOnly) == Count(l, layouts, cleanOnly)
  {
    var l := Without(links, i);
    var t := layouts - {links[i].blk};
    forall j | 0 <= j < |l|
      ensures StatOf(l[j], layouts) == StatOf(l[j], t)
    {
      var k := if j < i then j else j + 1;
      assert l[j] == links[k];
      if !links[k].isRaw {
        OneNode(links, mems, layouts, i, k);
      }
    }
    CountSame(l, layouts, t, cleanOnly);
  }

  /** Changing the layout of the block of one node changes that node's share only. */
  lemma CountElem(links: seq<MemLink>, mems: seq<array<Cell>>, layouts: Layouts, i: nat, s: Layout, cleanOnly: bool)
    requires Tied(links, mems, layouts) && i < |links| && links[i].blk != null
    ensures var b := links[i].blk;
      var t := layouts[b := s];
      && b in layouts
      && Units(links, t, cleanOnly) == Units(links, layouts, cleanOnly)
           - UnitsOf(Std(b.nunits, layouts[b] == map[]), cleanOnly) + UnitsOf(Std(b.nunits, s == map[]), cleanOnly)
      && Count(links, t, cleanOnly) == Count(links, layouts, cleanOnly)
           - CountOf(Std(b.nunits, layouts[b] == map[]), cleanOnly) + CountOf(Std(b.nunits, s == map[]), cleanOnly)
  {
    assert !links[i].isRaw;
    var t := layouts[links[i].blk := s];
    forall j | 0 <= j < |links| && j != i
      ensures StatOf(links[j], layouts) == StatOf(links[j], t)
    {
      if !links[j].isRaw {
        OneNode(links, mems, layouts, i, j);
      }
    }
    CountUpdate(links, layouts, t, i, cleanOnly);
  }
}
