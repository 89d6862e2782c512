/** The heap: a doubly linked list of standard and raw memory blocks. */
module MemHeap {
  import opened BlockLayout
  import opened BlockHeaders
  import opened MemBlock
  import opened HeapLedger
  import opened HeapPlaces
  import opened Sequences

  /** The first raw node at or behind position `i`. */
  ghost function NextRaw(links: seq<MemLink>, i: nat): MemLink?
    decreases |links| - i
  {
    if i >= |links| then null
    else if links[i].isRaw then links[i]
    else NextRaw(links, i + 1)
  }

  lemma {:induction false} NextRawFront(l: MemLink, links: seq<MemLink>, i: nat)
    ensures NextRaw([l] + links, i + 1) == NextRaw(links, i)
    decreases |links| - i
  {
    if i < |links| {
      NextRawFront(l, links, i + 1);
    }
  }

  /** Behind the removed node nothing changes. */
  lemma {:induction false} NextRawBehind(links: seq<MemLink>, i: nat, j: nat)
    requires i < |links| && i <= j
    ensures NextRaw(Without(links, i), j) == NextRaw(links, j + 1)
    decreases |links| - j
  {
    if j + 1 < |links| {
      NextRawBehind(links, i, j + 1);
    }
  }

  /** In front of it, a node whose next raw node was the removed one gets the one behind it. */
  lemma {:induction false} NextRawBefore(links: seq<MemLink>, i: nat, j: nat)
    requires i < |links| && j <= i && Distinct(links)
    ensures NextRaw(Without(links, i), j) ==
      (if NextRaw(links, j) == links[i] then NextRaw(links, i + 1) else NextRaw(links, j))
    decreases i - j
  {
    if j == i {
      NextRawBehind(links, i, i);
      NextRawNot(links, i, i + 1);
    } else if !links[j].isRaw {
      NextRawBefore(links, i, j + 1);
    }
  }

  /** The next raw node behind position `i` is not the node at `i`. */
  lemma {:induction false} NextRawNot(links: seq<MemLink>, i: nat, j: nat)
    requires i < |links| && i < j && Distinct(links)
    ensures NextRaw(links, j) != links[i]
    decreases |links| - j
  {
    if j < |links| {
      NextRawNot(links, i, j + 1);
    }
  }

  /** Nothing raw lies in front of the next raw node. */
  lemma {:induction false} NextRawFirst(links: seq<MemLink>, i: nat, j: nat)
    requires i <= j < |links| && NextRaw(links, i) == links[j] && Distinct(links)
    ensures links[j].isRaw && forall k :: i <= k < j ==> !links[k].isRaw
    decreases j - i
  {
    if i < j {
      NextRawFirst(links, i + 1, j);
    } else if !links[i].isRaw {
      NextRawNot(links, i, i + 1);
    }
  }

  /** Where the next raw node is. */
  lemma {:induction false} NextRawIndex(links: seq<MemLink>, i: nat) returns (j: nat)
    requires NextRaw(links, i) != null
    ensures i <= j < |links| && links[j] == NextRaw(links, i) && links[j].isRaw
    ensures forall k :: i <= k < j ==> !links[k].isRaw
    decreases |links| - i
  {
    if links[i].isRaw {
      j := i;
    } else {
      j := NextRawIndex(links, i + 1);
    }
  }

  lemma {:induction false} NoNextRaw(links: seq<MemLink>, i: nat)
    requires NextRaw(links, i) == null
    ensures forall k :: i <= k < |links| ==> !links[k].isRaw
    decreases |links| - i
  {
    if i < |links| {
      NoNextRaw(links, i + 1);
    }
  }

  /** What the raw chain looks like without the node at `i`, whose predecessor in it is at `p`. */
  lemma NextRawRemoved(links: seq<MemLink>, i: nat, p: int, j: nat)
    requires i < |links| && j < |links| - 1 && Distinct(links) && -1 <= p < i
    requires p >= 0 ==> NextRaw(links, p + 1) == links[i] && (p == 0 || links[p].isRaw)
    requires p == -1 ==> i == 0
    ensures NextRaw(links, j + 2) != links[j + 1]
    ensures j >= i ==> NextRaw(Without(links, i), j + 1) == NextRaw(links, j + 2)
    ensures j < i && (j == 0 || links[j].isRaw) ==>
      NextRaw(Without(links, i), j + 1) == NextRaw(links, if j == p then i + 1 else j + 1)
  {
    NextRawNot(links, j + 1, j + 2);
    if j >= i {
      NextRawBehind(links, i, j + 1);
    } else {
      NextRawBefore(links, i, j + 1);
      NextRawFirst(links, p + 1, i);
      if NextRaw(links, j + 1) == links[i] {
        NextRawFirst(links, j + 1, i);
      }
    }
  }

  /** The block is well formed and has the layout `s`. */
  ghost predicate BlkOk(b: MemBlk, s: Layout)
    reads b, b.data
  {
    b.Valid() && b.layout == s
  }

  /** Where the chain of raw nodes goes on without a standard node. */
  lemma NextRawWithoutStd(links: seq<MemLink>, i: nat, j: nat)
    requires i < |links| && j < |links| - 1 && Distinct(links) && !links[i].isRaw
    ensures NextRaw(Without(links, i), j + 1) == NextRaw(links, if j >= i then j + 2 else j + 1)
  {
    hide NextRaw, Distinct, Without;
    if j >= i {
      NextRawBehind(links, i, j + 1);
    } else {
      NextRawBefore(links, i, j + 1);
      if NextRaw(links, j + 1) == links[i] {
        NextRawFirst(links, j + 1, i);
      }
    }
  }

  lemma BlkOkAt(b: MemBlk, s: Layout)
    ensures BlkOk(b, s) <==> b.Valid() && b.layout == s
    ensures b.Valid() ==> b.data.Length == b.nunits
  {
  }

  lemma CleanBlock(b: MemBlk)
    requires b.Valid()
    ensures b.layout == map[] <==> b.free_x == 0
  {
    if b.free_x == 0 {
      EmptyLayout(b.layout);
    }
  }

  lemma ElemInBlock(b: MemBlk, a: nat)
    requires b.Valid() && a in b.layout
    ensures b.layout != map[] && b.free_x > 0
  {
  }

  lemma NoneLive()
    ensures Live(map[]) == map[]
  {
  }

  lemma OnlyLive(s: Layout, a: nat)
    requires Live(s).Keys == {a}
    ensures Live(map[]) == Live(s) - {a}
  {
  }

  /** Each node leads to its memory, and a standard block knows its node. */
  ghost predicate NodesOk(links: seq<MemLink>, mems: seq<array<Cell>>)
    reads (set l | l in links)`mem, (set l | l in links && l.blk != null :: l.blk)`plink
  {
    && |mems| == |links|
    && (forall i {:trigger links[i]} :: 0 <= i < |links| ==>
          links[i].mem == mems[i] && (links[i].blk != null ==> links[i].blk.plink == links[i]))
  }

  lemma NodeMem(links: seq<MemLink>, mems: seq<array<Cell>>, i: nat)
    requires NodesOk(links, mems) && i < |links|
    ensures |mems| == |links| && links[i].mem == mems[i]
  {
  }

  lemma NodesWithout(links: seq<MemLink>, mems: seq<array<Cell>>, i: nat)
    requires NodesOk(links, mems) && i < |links|
    ensures NodesOk(Without(links, i), Without(mems, i))
    ensures links[i].mem == mems[i] && (links[i].blk != null ==> links[i].blk.plink == links[i])
  {
    var r := Without(links, i);
    forall j {:trigger r[j]} | 0 <= j < |r|
      ensures r[j].mem == Without(mems, i)[j] && (r[j].blk != null ==> r[j].blk.plink == r[j])
    {
      assert r[j] == links[if j < i then j else j + 1];
    }
  }

  lemma NullDead(links: seq<MemLink>, mems: seq<array<Cell>>, layouts: Layouts, live: map<Ptr, nat>)
    requires |mems| == |links| && Ledger(links, mems, layouts, live)
    ensures Null !in live && live - {Null} == live
  {
    hide Live;
  }

  /** A pointer that is no raw allocation points into a standard block. */
  lemma StdAt(links: seq<MemLink>, mems: seq<array<Cell>>, layouts: Layouts, live: map<Ptr, nat>, p: Ptr)
    requires NodesOk(links, mems) && Ledger(links, mems, layouts, live) && p in live
    requires forall k {:trigger links[k].isRaw} :: 0 <= k < |links| && links[k].isRaw ==> p != RawMem(links[k].mem)
    ensures p.InBlock? && p.blk in layouts && p.off in layouts[p.blk] && !layouts[p.blk][p.off].free
  {
  }

  lemma NodeOf(links: seq<MemLink>, mems: seq<array<Cell>>, layouts: Layouts, b: MemBlk) returns (i: nat)
    requires Tied(links, mems, layouts) && b in layouts
    ensures i < |links| && links[i].blk == b
  {
    i :| 0 <= i < |links| && links[i].blk == b;
  }

  lemma ElemKnows(b: MemBlk, a: nat)
    requires b.Valid() && a in b.layout
    ensures a < b.data.Length && b.data[a].free == b.layout[a].free && b.data[a].nunits == b.layout[a].size
    ensures !b.layout[a].free ==> b.data[a].link == a
  {
  }

  lemma FreshOffset(b: MemBlk)
    requires b.Valid()
    ensures b.free_x !in b.layout
  {
  }

  lemma NotLive(links: seq<MemLink>, mems: seq<array<Cell>>, layouts: Layouts, live: map<Ptr, nat>, b: MemBlk, a: nat)
    requires |mems| == |links| && Ledger(links, mems, layouts, live) && b in layouts
    requires a in layouts[b] ==> layouts[b][a].free
    ensures InBlock(b, a) !in live
  {
  }

  /** The element at `a` of the block of the node at `i` is in use now, with `n` units. */
  lemma ElemTaken(links: seq<MemLink>, mems: seq<array<Cell>>, s: Layouts, live: map<Ptr, nat>, i: nat, u: Layout,
      a: nat, n: nat)
    requires Tied(links, mems, s) && Ledger(links, mems, s, live)
    requires i < |links| && links[i].blk != null && links[i].blk in s && Live(u) == Live(s[links[i].blk])[a := n]
    ensures var b := links[i].blk;
      var t := s[b := u];
      && Tied(links, mems, t) && Ledger(links, mems, t, live[InBlock(b, a) := n])
      && Units(links, t, false) == Units(links, s, false) && Count(links, t, false) == Count(links, s, false)
      && Units(links, t, true) == Units(links, s, true) - (if s[b] == map[] then b.nunits else 0)
      && Count(links, t, true) == Count(links, s, true) - (if s[b] == map[] then 1 else 0)
  {
    hide Tied, Ledger, Units, Count;
    assert a in Live(u);
    ElemLive(links, mems, s, live, links[i].blk, u, a, n);
    CountElem(links, mems, s, i, u, false);
    CountElem(links, mems, s, i, u, true);
  }

  lemma IsLive(links: seq<MemLink>, mems: seq<array<Cell>>, layouts: Layouts, live: map<Ptr, nat>, b: MemBlk, a: nat)
    requires |mems| == |links| && Ledger(links, mems, layouts, live) && b in layouts && a in layouts[b]
    requires !layouts[b][a].free
    ensures InBlock(b, a) in live && live[InBlock(b, a)] == layouts[b][a].size && layouts[b] != map[]
  {
  }

  lemma AlwaysCoalesced(b: MemBlk)
    requires b.Valid()
    ensures Coalesced(b.layout)
  {
  }

  /** Behind every free element there is one in use. */
  lemma FreeElem(s: Layout, a: nat) returns (c: nat)
    requires Coalesced(s) && IsFree(s, a)
    ensures a in s && s[a].free && s != map[]
    ensures c in s && c != a && !s[c].free
  {
    c := End(s, a);
  }

  /** A raw allocation has memory of its own. */
  lemma RawAt(links: seq<MemLink>, mems: seq<array<Cell>>, layouts: Layouts, live: map<Ptr, nat>, p: Ptr)
    requires Tied(links, mems, layouts) && Ledger(links, mems, layouts, live) && p in live && !p.InBlock?
    ensures p.RawMem? && live[p] == p.mem.Length
    ensures forall b {:trigger b.data} :: b in layouts ==> b.data != p.mem
    ensures forall q {:trigger q in live} :: q in live && q != p ==>
      if q.InBlock? then q.blk in layouts else q.RawMem? && q.mem != p.mem
  {
    forall b | b in layouts
      ensures b.data != p.mem
    {
      MemsApart(links, mems, layouts, live, b);
    }
  }

  /** The data units of an element in use lie in the block and are no headers. */
  lemma UnitAt(b: MemBlk, a: nat, k: nat)
    requires b.Valid() && a in Live(b.layout) && k < Live(b.layout)[a]
    ensures a + 1 + k < b.data.Length && a + 1 + k !in b.layout
  {
    RegionsDisjoint(b.layout, b.free_x, a, a, a + 1 + k);
  }

  lemma UnitsApart(b: MemBlk, a: nat, k: nat, c: nat, j: nat)
    requires b.Valid() && a in Live(b.layout) && k < Live(b.layout)[a]
    requires c in Live(b.layout) && j < Live(b.layout)[c] && (a != c || k != j)
    ensures a + 1 + k != c + 1 + j
  {
    RegionsDisjoint(b.layout, b.free_x, a, c, a + 1 + k);
  }

  /** The rounded size of a new block has room for the header of an element and its `n` units. */
  lemma RoundedUp(n: nat, size: nat, rounded: nat)
    requires size > 0
    requires var need := n * 8 + BLOCK_HEADER + 8;
      rounded == if need < size then size else (need + size - 1) / size * size
    ensures rounded >= n * 8 + BLOCK_HEADER + 8
    ensures SizeFor(n, size, if rounded < BLOCK_HEADER + 8 * 0x1_0000 then (rounded - BLOCK_HEADER) / 8 else 0xFFFF)
  {
    var need := n * 8 + BLOCK_HEADER + 8;
    var k := if need < size then 1 else (need + size - 1) / size;
    assert need + size - 1 == (need + size - 1) / size * size + (need + size - 1) % size;
    assert need >= size ==> (k - 1) * size == k * size - size;
    assert BytesFor(n, size, k);
  }

  lemma TiledTail(b: MemBlk)
    requires b.Valid()
    ensures Tiled(b.layout, Tail(b.layout))
  {
    TailOf(b);
  }

  lemma AtEndRoom(links: seq<MemLink>, layouts: Layouts, n: nat, p: Ptr, i: nat)
    requires AtEnd(links, layouts, n, p, i)
    ensures !NoRooms(links, layouts, n)
  {
    assert links[i] in links;
  }

  lemma InHoleHole(links: seq<MemLink>, layouts: Layouts, n: nat, p: Ptr, got: nat, i: nat)
    requires InHole(links, layouts, n, p, got, i)
    ensures !NoHoles(links, layouts, n)
  {
    assert links[i] in links;
  }

  /** An element is resized in place exactly if it can be. */
  ghost predicate Holding(s: Layout, x: nat, units: nat, a: nat, n: nat, done: bool, got: nat) {
    && Tiled(s, x) && a in s && (done <==> CanHold(s, x, units, a, n))
    && (done ==> got == HeldSize(s, x, a, n))
  }

  lemma TooSmall(b: MemBlk, n: nat)
    requires b.Valid() && n > b.freeMem
    ensures NoHole(b.layout, n)
  {
    OkParts(b.data[..], b.layout, b.free_x, b.freeMem, b.lastElemOff, b.freeElemOff);
    forall c: nat | IsFree(b.layout, c)
      ensures b.layout[c].size < n
    {
      FreeSizeAtMost(b.layout, c, b.free_x);
    }
  }

  /** A new node in front adds its share to the totals. */
  lemma UnitsFront(links: seq<MemLink>, s: Layouts, t: Layouts, l: MemLink, cleanOnly: bool)
    requires forall j :: 0 <= j < |links| ==> StatOf(links[j], s) == StatOf(links[j], t)
    ensures Units([l] + links, t, cleanOnly) == UnitsOf(StatOf(l, t), cleanOnly) + Units(links, s, cleanOnly)
    ensures Count([l] + links, t, cleanOnly) == CountOf(StatOf(l, t), cleanOnly) + Count(links, s, cleanOnly)
  {
    assert ([l] + links)[1..] == links;
    CountSame(links, s, t, cleanOnly);
  }

  lemma BlockFront(links: seq<MemLink>, mems: seq<array<Cell>>, s: Layouts, l: MemLink, b: MemBlk, u: Layout,
      cleanOnly: bool)
    requires Tied(links, mems, s) && b !in s && l.blk == b
    requires u != map[]
    ensures Units([l] + links, s[b := u], cleanOnly) == (if cleanOnly then 0 else b.nunits) + Units(links, s, cleanOnly)
    ensures Count([l] + links, s[b := u], cleanOnly) == (if cleanOnly then 0 else 1) + Count(links, s, cleanOnly)
  {
    forall j | 0 <= j < |links|
      ensures StatOf(links[j], s) == StatOf(links[j], s[b := u])
    {
      if !links[j].isRaw {
        assert links[j].blk in s;
      }
    }
    UnitsFront(links, s, s[b := u], l, cleanOnly);
  }

  lemma NodesFront(links: seq<MemLink>, mems: seq<array<Cell>>, l: MemLink)
    requires NodesOk(links, mems)
    requires l.blk != null ==> l.blk.plink == l
    ensures NodesOk([l] + links, [l.mem] + mems)
  {
  }

  /** The new block `b`, whose only element has `n` units, comes in front. */
  lemma StdAdopted(links: seq<MemLink>, mems: seq<array<Cell>>, s: Layouts, live: map<Ptr, nat>, l: MemLink,
      b: MemBlk, n: nat)
    requires Tied(links, mems, s) && Ledger(links, mems, s, live)
    requires l !in links && !l.isRaw && l.blk == b && b !in s && b.data !in mems && Live(b.layout) == map[0 := n]
    ensures var t := s[b := b.layout];
      && Tied([l] + links, [b.data] + mems, t)
      && Ledger([l] + links, [b.data] + mems, t, live[InBlock(b, 0) := n])
      && Units([l] + links, t, false) == b.nunits + Units(links, s, false)
      && Count([l] + links, t, false) == 1 + Count(links, s, false)
      && Units([l] + links, t, true) == Units(links, s, true)
      && Count([l] + links, t, true) == Count(links, s, true)
  {
    hide Tied, Ledger, Units, Count;
    assert 0 in Live(b.layout);
    StdNew(links, mems, s, live, l, b, b.layout, 0, n);
    BlockFront(links, mems, s, l, b, b.layout, false);
    BlockFront(links, mems, s, l, b, b.layout, true);
  }

  lemma LiveIn(s: Layout, a: nat)
    requires a in Live(s)
    ensures a in s && !s[a].free && Live(s)[a] == s[a].size
  {
  }

  /** A block with an element in use is not empty. */
  lemma StillLive(links: seq<MemLink>, mems: seq<array<Cell>>, layouts: Layouts, live: map<Ptr, nat>, b: MemBlk, c: nat)
    requires |mems| == |links| && Ledger(links, mems, layouts, live) && InBlock(b, c) in live
    ensures b in layouts && layouts[b] != map[]
  {
  }

  lemma LinksDistinct(links: seq<MemLink>, mems: seq<array<Cell>>, layouts: Layouts, i: nat)
    requires Tied(links, mems, layouts) && i < |links|
    ensures forall j {:trigger links[j]} :: 0 <= j < |links| && j != i ==> links[j] != links[i]
  {
    DistinctAt(links, i);
  }

  lemma RawListed(links: seq<MemLink>, mems: seq<array<Cell>>, layouts: Layouts, live: map<Ptr, nat>, i: nat)
    requires |mems| == |links| && Ledger(links, mems, layouts, live) && i < |links| && links[i].isRaw
    ensures RawMem(mems[i]) in live && live[RawMem(mems[i])] == mems[i].Length
  {
  }

  ghost function Nodes(links: seq<MemLink>): set<MemLink> {
    set l | l in links
  }

  /** What is left of the ledger and the counters without a block that is empty. */
  lemma BlockGone(links: seq<MemLink>, mems: seq<array<Cell>>, s: Layouts, live: map<Ptr, nat>, i: nat)
    requires Tied(links, mems, s) && Ledger(links, mems, s, live) && i < |links| && links[i].blk != null
    requires links[i].blk in s && s[links[i].blk] == map[]
    ensures var b := links[i].blk;
      var r, t := Without(links, i), s - {b};
      && Tied(r, Without(mems, i), t) && Ledger(r, Without(mems, i), t, live)
      && b.nunits + Units(r, t, false) == Units(links, s, false) && 1 + Count(r, t, false) == Count(links, s, false)
      && b.nunits + Units(r, t, true) == Units(links, s, true) && 1 + Count(r, t, true) == Count(links, s, true)
  {
    hide Tied, Ledger, Units, Count, Without;
    TiedAt(links, mems, s, i);
    NoneLive();
    CountWithout(links, s, i, false);
    CountWithout(links, s, i, true);
    CountGone(links, mems, s, i, false);
    CountGone(links, mems, s, i, true);
    StdGone(links, mems, s, live, i);
  }

  lemma NodesFewer(links: seq<MemLink>, i: nat)
    requires i < |links|
    ensures Nodes(Without(links, i)) <= Nodes(links)
  {
  }

  ghost function Datas(layouts: Layouts): set<array<Cell>> {
    set b | b in layouts :: b.data
  }

  lemma DatasWith(s: Layouts, t: Layouts, b: MemBlk)
    requires t.Keys == s.Keys + {b}
    ensures Datas(t) == Datas(s) + {b.data}
  {
  }

  /** The array and the index where the `k`-th unit of an allocation is stored. */
  ghost function Place(p: Ptr, k: nat): (array<Cell>, nat)
    requires !p.Null?
  {
    if p.InBlock? then (p.blk.data, p.off + 1 + k) else (p.mem, k)
  }

  ghost predicate Stored(p: Ptr, k: nat) {
    !p.Null? && Place(p, k).1 < Place(p, k).0.Length
  }

  /** None of the blocks has room for an element of `n` units at its end. */
  ghost predicate NoRoom(links: seq<MemLink>, n: nat)
    reads set l | l in links && l.blk != null :: l.blk
  {
    forall l :: l in links && l.blk != null ==> n + 1 > l.blk.nunits - l.blk.free_x
  }

  /** There is one allocation more, of at least `n` units. */
  ghost predicate Gained(before: map<Ptr, nat>, after: map<Ptr, nat>, p: Ptr, n: nat) {
    p !in before && p in after && n <= after[p] && after == before[p := after[p]]
  }

  class MemHeap {
    var phead: MemLink?
    var usedUnits: nat
    var usedBlocks: nat
    var freeUnits: nat
    var freeBlocks: nat
    const keepFreeUnits: nat
    const defBlkSize: nat
    const dontKeepFree: bool

    ghost var links: seq<MemLink>
    ghost var mems: seq<array<Cell>>
    ghost var layouts: Layouts
    ghost var live: map<Ptr, nat>

    /** The nodes are doubly linked in the order of `links`. */
    ghost predicate Chain()
      reads this`links, this`phead, links`pnext, links`pprev
    {
      && Distinct(links)
      && phead == (if links == [] then null else links[0])
      && (forall i {:trigger links[i].pnext} :: 0 <= i < |links| ==>
            links[i].pnext == if i + 1 < |links| then links[i + 1] else null)
      && (forall i {:trigger links[i].pprev} :: 0 <= i < |links| ==>
            links[i].pprev == if i > 0 then links[i - 1] else null)
    }

    /** From the head, `pnextRaw` visits exactly the raw nodes in list order. */
    ghost predicate RawChain()
      reads this`links, links`pnextRaw
    {
      forall i {:trigger links[i].pnextRaw} :: 0 <= i < |links| ==>
        links[i].pnextRaw == if i == 0 || links[i].isRaw then NextRaw(links, i + 1) else null
    }

    /** The blocks are well formed; `but` is not looked at. */
    ghost predicate BlocksBut(but: MemBlk?)
      reads this`layouts, layouts.Keys, Datas(layouts)
    {
      forall c {:trigger c in layouts} :: c in layouts && c != but ==> BlkOk(c, layouts[c])
    }

    /** The heap is well formed, except that the block `but` may just have been emptied. */
    ghost predicate ValidBut(but: MemBlk?)
      reads this, links, layouts.Keys, Datas(layouts), (set l | l in links && l.blk != null :: l.blk)`plink
    {
      && NodesOk(links, mems) && BlocksBut(but) && Chain() && RawChain() && defBlkSize > 0
      && Tied(links, mems, layouts) && Ledger(links, mems, layouts, live)
      && usedUnits == Units(links, layouts, false) && usedBlocks == Count(links, layouts, false)
      && freeUnits == Units(links, layouts, true) - (if but != null then but.nunits else 0)
      && freeBlocks == Count(links, layouts, true) - (if but != null then 1 else 0)
    }

    ghost predicate Valid()
      reads this, links, layouts.Keys, Datas(layouts), (set l | l in links && l.blk != null :: l.blk)`plink
    {
      ValidBut(null)
    }

    /** The units of an allocation. */
    ghost function Got(p: Ptr): nat
      reads this`live
    {
      if p in live then live[p] else 0
    }

    /** `memHeapCreate`: no blocks yet. */
    constructor (defBlkSize: nat, keepFreeUnits: nat, dontKeepFree: bool)
      requires defBlkSize > 0
      ensures Valid() && live == map[] && links == [] && layouts == map[]
    {
      phead, usedUnits, usedBlocks, freeUnits, freeBlocks := null, 0, 0, 0, 0;
      this.defBlkSize, this.keepFreeUnits, this.dontKeepFree := defBlkSize, keepFreeUnits, dontKeepFree;
      links, mems, layouts, live := [], [], map[], map[];
    }

    /** The ledger after an operation. */
    ghost method Record(s: Layouts, v: map<Ptr, nat>)
      modifies this`layouts, this`live
      ensures layouts == s && live == v
    {
      layouts := s;
      live := v;
    }

    ghost method RecordMems(m: seq<array<Cell>>, s: Layouts, v: map<Ptr, nat>)
      modifies this`mems, this`layouts, this`live
      ensures mems == m && layouts == s && live == v
    {
      mems := m;
      layouts := s;
      live := v;
    }

    /** No two units handed out, of the same or of different allocations, are the same storage. */
    lemma StorageApart(p: Ptr, j: nat, q: Ptr, k: nat)
      requires Valid() && p in live && j < live[p] && q in live && k < live[q]
      ensures Stored(p, j) && Stored(q, k)
      ensures Place(p, j) == Place(q, k) ==> p == q && j == k
    {
      hide Tied, Ledger, Units, Count, RawChain, Chain, NodesOk, BlkOk, Live, MemBlk.Valid;
      MemsDistinct(links, mems, layouts);
      StoredAt(p, j);
      StoredAt(q, k);
      if p.InBlock? && q.InBlock? {
        LedgerAt(links, mems, layouts, live, p.blk, p.off);
        LedgerAt(links, mems, layouts, live, q.blk, q.off);
        if p.blk == q.blk {
          BlkOkAt(p.blk, layouts[p.blk]);
          if p != q || j != k {
            UnitsApart(p.blk, p.off, j, q.off, k);
          }
        } else {
          MemsApart(links, mems, layouts, live, p.blk);
        }
      } else if !p.InBlock? {
        RawAt(links, mems, layouts, live, p);
      } else {
        RawAt(links, mems, layouts, live, q);
      }
    }

    lemma BlockListed(p: Ptr)
      requires Valid() && p in live
      ensures !p.Null? && (p.InBlock? ==> p.blk in layouts)
    {
      hide Live;
    }

    lemma StoredAt(p: Ptr, j: nat)
      requires Valid() && p in live && j < live[p]
      ensures Stored(p, j)
    {
      hide Tied, Ledger, Units, Count, RawChain, Chain, NodesOk, BlkOk, Live, MemBlk.Valid;
      MemsDistinct(links, mems, layouts);
      if p.InBlock? {
        LedgerAt(links, mems, layouts, live, p.blk, p.off);
        BlkOkAt(p.blk, layouts[p.blk]);
        UnitAt(p.blk, p.off, j);
      } else {
        RawAt(links, mems, layouts, live, p);
      }
    }

    /** Puts a node in front of the list. */
    method AddBlock(l: MemLink)
      requires Chain() && RawChain() && l !in links
      modifies this`phead, this`links, l`pnext, l`pprev, l`pnextRaw, Nodes(links)`pprev, Nodes(links)`pnextRaw
      ensures Chain() && RawChain() && links == [l] + old(links)
    {
      ghost var old_links := links;
      l.pprev := null;
      l.pnext := phead;
      if phead != null {
        if phead.isRaw {
          l.pnextRaw := phead;
        } else {
          l.pnextRaw := phead.pnextRaw;
          phead.pnextRaw := null;
        }
      } else {
        l.pnextRaw := null;
      }
      phead := l;
      if l.pnext != null {
        l.pnext.pprev := l;
      }
      links := [l] + links;
      forall i: nat | i <= |old_links|
        ensures NextRaw(links, i + 1) == NextRaw(old_links, i)
      {
        NextRawFront(l, old_links, i);
      }
    }

    /** Takes the node at position `i` out of the doubly linked list. */
    method Unchain(l: MemLink, ghost i: nat)
      requires Chain() && i < |links| && links[i] == l
      modifies this`phead, Nodes(links)`pnext, Nodes(links)`pprev
      ensures var r := Without(links, i);
        && phead == (if r == [] then null else r[0])
        && (forall j {:trigger r[j].pnext} :: 0 <= j < |r| ==> r[j].pnext == if j + 1 < |r| then r[j + 1] else null)
        && (forall j {:trigger r[j].pprev} :: 0 <= j < |r| ==> r[j].pprev == if j > 0 then r[j - 1] else null)
      ensures Distinct(links)
    {
      if l.pnext != null {
        l.pnext.pprev := l.pprev;
      }
      if l.pprev != null {
        l.pprev.pnext := l.pnext;
      } else {
        phead := l.pnext;
      }
    }

    /** Follows the raw chain from the head to the raw node that `p` points to. */
    method FindRaw(p: Ptr) returns (l: MemLink?, prev: MemLink?, ghost i: nat, ghost q: int)
      requires Chain() && RawChain()
      ensures l == null ==> forall k {:trigger links[k].isRaw} :: 0 <= k < |links| && links[k].isRaw ==>
        p != RawMem(links[k].mem)
      ensures l != null ==> l.isRaw && p == RawMem(l.mem) && i < |links| && links[i] == l
      ensures l != null ==> if prev == null then i == 0 && q == -1 else
        0 <= q < i && links[q] == prev && prev.pnextRaw == l && (q == 0 || prev.isRaw)
    {
      l, prev, i, q := phead, null, 0, -1;
      while l != null && !(l.isRaw && p == RawMem(l.mem))
        invariant l != null ==> i < |links| && links[i] == l && (i == 0 || l.isRaw)
        invariant l != null && prev == null ==> i == 0 && q == -1
        invariant l != null && prev != null ==>
          0 <= q < i && links[q] == prev && prev.pnextRaw == l && (q == 0 || prev.isRaw)
        invariant forall k :: 0 <= k < |links| && (l == null || k < i) && links[k].isRaw ==> p != RawMem(links[k].mem)
        decreases if l == null then 0 else |links| - i + 1
      {
        prev, q := l, i;
        l := l.pnextRaw;
        if l != null {
          i := NextRawIndex(links, q + 1);
        } else {
          NoNextRaw(links, q + 1);
        }
      }
    }

    /** Takes a raw node out of both lists. */
    method UnlinkRaw(l: MemLink, prev: MemLink?, ghost i: nat, ghost p: int)
      requires Chain() && RawChain() && i < |links| && links[i] == l && l.isRaw
      requires if prev == null then i == 0 && p == -1 else
        0 <= p < i && links[p] == prev && prev.pnextRaw == l && (p == 0 || prev.isRaw)
      modifies this`phead, this`links, Nodes(links)`pnext, Nodes(links)`pprev, Nodes(links)`pnextRaw
      ensures Chain() && RawChain() && links == Without(old(links), i)
    {
      ghost var s := links;
      Unchain(l, i);
      if prev != null {
        prev.pnextRaw := l.pnextRaw;
      } else if phead != null && phead.pnextRaw == null && phead != l.pnextRaw {
        phead.pnextRaw := l.pnextRaw;
      }
      links := Without(s, i);
      forall j {:trigger links[j].pnextRaw} | 0 <= j < |links|
        ensures links[j].pnextRaw == if j == 0 || links[j].isRaw then NextRaw(links, j + 1) else null
      {
        NextRawRemoved(s, i, p, j);
      }
    }

    /** Takes a standard node out of the list. */
    method UnlinkStd(l: MemLink, ghost i: nat)
      requires Chain() && RawChain() && i < |links| && links[i] == l && !l.isRaw
      modifies this`phead, this`links, Nodes(links)`pnext, Nodes(links)`pprev, Nodes(links)`pnextRaw
      ensures Chain() && RawChain() && links == Without(old(links), i)
    {
      ghost var s := links;
      var head, next := phead, l.pnext;
      if l.pprev == null && next != null && !next.isRaw {
        next.pnextRaw := head.pnextRaw;
      }
      Unchain(l, i);
      links := Without(s, i);
      forall j {:trigger links[j].pnextRaw} | 0 <= j < |links|
        ensures links[j].pnextRaw == if j == 0 || links[j].isRaw then NextRaw(links, j + 1) else null
      {
        NextRawWithoutStd(s, i, j);
      }
    }

    /** Frees a raw allocation. */
    method FreeRaw(l: MemLink, prev: MemLink?, ghost i: nat, ghost q: int)
      requires Valid() && i < |links| && links[i] == l && l.isRaw
      requires if prev == null then i == 0 && q == -1 else
        0 <= q < i && links[q] == prev && prev.pnextRaw == l && (q == 0 || prev.isRaw)
      modifies this, Nodes(links)
      ensures Valid() && layouts == old(layouts) && live == old(live) - {RawMem(old(l.mem))}
      ensures links == Without(old(links), i)
    {
      hide Tied, Ledger, Units, Count, RawChain, Chain, NodesOk, BlkOk;
      NodesWithout(links, mems, i);
      TiedAt(links, mems, layouts, i);
      RawGone(links, mems, layouts, live, i);
      CountWithout(links, layouts, i, false);
      CountWithout(links, layouts, i, true);
      UnlinkRaw(l, prev, i, q);
      RecordMems(Without(mems, i), layouts, live - {RawMem(l.mem)});
      assert BlocksBut(null);
    }

    /** Gives the emptied standard block `b` back, or keeps it for later. */
    method FreeBlock(b: MemBlk, ghost i: nat)
      requires ValidBut(b) && b in layouts && layouts[b] == map[] && b.layout == map[] && b.data.Length == b.nunits
      requires i < |links| && links[i].blk == b
      modifies this, Nodes(links), b
      ensures Valid() && live == old(live) && Nodes(links) <= old(Nodes(links))
      ensures layouts.Keys == old(layouts.Keys) || layouts.Keys == old(layouts.Keys) - {b}
      ensures links ==
        if Dropped(b.nunits, dontKeepFree, keepFreeUnits, old(freeUnits)) then Without(old(links), i) else old(links)
    {
      hide Tied, Ledger, Units, Count, RawChain, Chain, NodesOk, BlkOk, MemBlk.Valid;
      if dontKeepFree || (keepFreeUnits > 0 && freeUnits + b.nunits > keepFreeUnits) {
        ReleaseBlock(b, i);
      } else {
        b.Reset();
        BlkOkAt(b, layouts[b]);
        freeUnits := freeUnits + b.nunits;
        freeBlocks := freeBlocks + 1;
      }
    }

    method ReleaseBlock(b: MemBlk, ghost i: nat)
      requires ValidBut(b) && b in layouts && layouts[b] == map[]
      requires i < |links| && links[i].blk == b
      modifies this, Nodes(links)
      ensures Valid() && live == old(live) && layouts == old(layouts) - {b} && Nodes(links) <= old(Nodes(links))
      ensures links == Without(old(links), i)
    {
      hide Tied, Ledger, Units, Count, RawChain, Chain, NodesOk, BlkOk, Nodes, Distinct, Without, Live, MemBlk.Valid;
      ghost var s := layouts;
      NodesFewer(links, i);
      NodesWithout(links, mems, i);
      TiedAt(links, mems, layouts, i);
      BlockGone(links, mems, s, live, i);
      usedUnits := usedUnits - b.nunits;
      usedBlocks := usedBlocks - 1;
      UnlinkStd(b.plink, i);
      RecordMems(Without(mems, i), s - {b}, live);
      assert BlocksBut(null);
    }

    /** Frees the element at `a` of the standard block `b`, which may become empty. */
    method FreeInBlock(b: MemBlk, a: nat, ghost i: nat) returns (emptied: bool)
      requires Valid() && b in layouts && i < |links| && links[i].blk == b && a in b.layout
      modifies this`layouts, this`live, b`free_x, b`freeMem, b`lastElemOff, b`freeElemOff, b`layout, b.data
      ensures ValidBut(if emptied then b else null)
      ensures layouts == old(layouts)[b := b.layout] && live == old(live) - {InBlock(b, a)}
      ensures emptied ==> b.layout == map[] && b.data.Length == b.nunits
      ensures emptied <==> Live(old(layouts)[b]).Keys == {a}
      ensures forall p, k: nat {:trigger Word(p, k)} ::
        p in old(live) && p in live && k < old(live)[p] && k < live[p] ==>
        Word(p, k) == old(Word(p, k))
    {
      hide Tied, Ledger, Units, Count, RawChain, Chain, NodesOk, BlkOk, Live, MemBlk.Valid, BlockHeaders.Kept;
      ghost var s, t, d := layouts, live, b.data[..];
      BlkOkAt(b, s[b]);
      ElemInBlock(b, a);
      MemsDistinct(links, mems, s);
      MemsApart(links, mems, s, t, b);
      emptied := b.FreeElem(a);
      Record(s[b := b.layout], live - {InBlock(b, a)});
      if emptied {
        OnlyLive(s[b], a);
      } else {
        BlkOkAt(b, b.layout);
        CleanBlock(b);
      }
      assert BlocksBut(if emptied then b else null);
      ElemGone(links, mems, s, t, b, b.layout, a);
      CountElem(links, mems, s, i, b.layout, false);
      CountElem(links, mems, s, i, b.layout, true);
      forall p, k: nat {:trigger Word(p, k)} | p in t && p in live && k < t[p] && k < live[p]
        ensures Word(p, k) == old(Word(p, k))
      {
        if p.InBlock? && p.blk == b {
          UnitKept(links, mems, s, t, layouts, live, d, b.data[..], p, k);
        }
      }
    }

    lemma StdElem(b: MemBlk, a: nat) returns (i: nat)
      requires Valid() && b in layouts && a in layouts[b]
      ensures |mems| == |links| && i < |links| && links[i].blk == b && b.data in Datas(layouts)
      ensures a in b.layout && a < b.data.Length && (!b.data[a].free ==> b.data[a].link == a)
    {
      hide Tied, Ledger, Units, Count, RawChain, Chain, NodesOk, BlkOk, Live, MemBlk.Valid;
      i := NodeOf(links, mems, layouts, b);
      MemsDistinct(links, mems, layouts);
      BlkOkAt(b, layouts[b]);
      ElemKnows(b, a);
    }

    /** Frees the element at `a` of the standard block `b`. */
    method FreeStd(b: MemBlk, a: nat)
      requires Valid() && b in layouts && a in layouts[b]
      modifies this, Nodes(links), b, b.data
      ensures Valid() && live == old(live) - {InBlock(b, a)} && Nodes(links) <= old(Nodes(links))
      ensures layouts.Keys <= old(layouts.Keys) && Datas(layouts) <= old(Datas(layouts))
      ensures |old(mems)| == |old(links)| && Released(old(links), old(mems), old(layouts), InBlock(b, a),
        dontKeepFree, keepFreeUnits, old(freeUnits), links)
      ensures forall q, k: nat {:trigger Word(q, k)} :: q in live && k < live[q] ==> Word(q, k) == old(Word(q, k))
    {
      hide ValidBut, Live, Nodes, Word;
      ghost var i := StdElem(b, a);
      // GET_MEMBLK: the element knows its own offset.
      assert !b.data[a].free ==> a - b.data[a].link == 0;
      var emptied := FreeInBlock(b, a, i);
      if emptied {
        FreeBlock(b, i);
      }
    }

    /** Gives `p` back. A null pointer and an element that is free already are left alone. */
    method Free(p: Ptr)
      requires Valid()
      requires p.Null? || p in live || (p.InBlock? && p.blk in layouts && p.off in layouts[p.blk])
      modifies this, Nodes(links), layouts.Keys, Datas(layouts)
      ensures Valid() && live == old(live) - {p} && Nodes(links) <= old(Nodes(links))
      ensures layouts.Keys <= old(layouts.Keys) && Datas(layouts) <= old(Datas(layouts))
      ensures |old(mems)| == |old(links)| && Released(old(links), old(mems), old(layouts), p, dontKeepFree,
        keepFreeUnits, old(freeUnits), links)
      ensures forall q, k: nat {:trigger Word(q, k)} :: q in live && k < live[q] ==> Word(q, k) == old(Word(q, k))
    {
      hide Tied, Ledger, Units, Count, RawChain, Chain, NodesOk, BlkOk, Live, MemBlk.Valid;
      MemsDistinct(links, mems, layouts);
      if p.Null? {
        NullDead(links, mems, layouts, live);
        return;
      }
      var l, prev, i, q := FindRaw(p);
      if l != null {
        NodeMem(links, mems, i);
        FreeRaw(l, prev, i, q);
        return;
      }
      if p in live {
        StdAt(links, mems, layouts, live, p);
      }
      FreeStd(p.blk, p.off);
    }

    /** Hands out `n` units of the untouched space at the end of the block `b`. */
    method AllocAtEndOf(b: MemBlk, n: nat, ghost i: nat) returns (p: Ptr)
      requires Valid() && b in layouts && i < |links| && links[i].blk == b && n + 1 <= b.nunits - b.free_x
      modifies this`layouts, this`live, this`freeUnits, this`freeBlocks
      modifies b`free_x, b`freeMem, b`lastElemOff, b`freeElemOff, b`layout, b.data
      ensures Valid() && p == InBlock(b, old(b.free_x)) && p !in old(live) && live == old(live)[p := n]
      ensures layouts.Keys == old(layouts.Keys) && Datas(layouts) == old(Datas(layouts))
      ensures Gained(old(live), live, p, n)
      ensures forall q, k: nat {:trigger Word(q, k)} :: q in old(live) && k < old(live)[q] ==>
        Word(q, k) == old(Word(q, k))
    {
      hide Tied, Ledger, Units, Count, RawChain, Chain, NodesOk, BlocksBut, Live, BlockHeaders.Kept;
      ghost var s, t, d := layouts, live, b.data[..];
      MemsDistinct(links, mems, s);
      MemsApart(links, mems, s, t, b);
      p := TakeAtEnd(b, n, i);
      forall q, k: nat {:trigger Word(q, k)} | q in t && k < t[q]
        ensures Word(q, k) == old(Word(q, k))
      {
        if q.InBlock? && q.blk == b {
          UnitKept(links, mems, s, t, layouts, live, d, b.data[..], q, k);
        }
      }
    }

    method TakeAtEnd(b: MemBlk, n: nat, ghost i: nat) returns (p: Ptr)
      requires Valid() && b in layouts && i < |links| && links[i].blk == b && n + 1 <= b.nunits - b.free_x
      modifies this`layouts, this`live, this`freeUnits, this`freeBlocks
      modifies b`free_x, b`freeMem, b`lastElemOff, b`freeElemOff, b`layout, b.data
      ensures Valid() && p == InBlock(b, old(b.free_x)) && p !in old(live) && live == old(live)[p := n]
      ensures layouts.Keys == old(layouts.Keys)
      ensures layouts == old(layouts)[b := layouts[b]]
      ensures BlockHeaders.Kept(old(b.data[..]), b.data[..], Live(old(layouts[b])), Live(layouts[b]))
    {
      hide Tied, Ledger, Units, Count, RawChain, Chain, NodesOk, BlkOk, Live, MemBlk.Valid, BlockHeaders.Kept;
      ghost var s, t := layouts, live;
      BlkOkAt(b, s[b]);
      CleanBlock(b);
      FreshOffset(b);
      MemsDistinct(links, mems, s);
      MemsApart(links, mems, s, t, b);
      NotLive(links, mems, s, t, b, b.free_x);
      CountWithout(links, s, i, true);
      if b.free_x == 0 {
        freeUnits := freeUnits - b.nunits;
        freeBlocks := freeBlocks - 1;
      }
      var a := b.AllocAtEnd(n);
      p := InBlock(b, a);
      Record(s[b := b.layout], live[p := n]);
      BlkOkAt(b, b.layout);
      assert BlocksBut(null);
      ElemTaken(links, mems, s, t, i, b.layout, a, n);
    }

    /** Hands out a free element of the block `b` with at least `n` units, whole. */
    method TakeWhole(b: MemBlk, n: nat, ghost i: nat) returns (a: int, ghost c: nat)
      requires Valid() && b in layouts && i < |links| && links[i].blk == b
      modifies this`layouts, this`live
      modifies b`free_x, b`freeMem, b`lastElemOff, b`freeElemOff, b`layout, b.data
      ensures Valid() && layouts.Keys == old(layouts.Keys) && a >= -1
      ensures a == -1 ==> live == old(live) && layouts == old(layouts) && NoHole(layouts[b], n)
      ensures a >= 0 ==> c != a && InBlock(b, c) in old(live) && FirstHole(old(layouts)[b], a, n)
      ensures a >= 0 ==> Got(InBlock(b, a)) == old(layouts)[b][a].size
      ensures a >= 0 ==>
        Gained(old(live), live, InBlock(b, a), n)
      ensures forall q, k: nat {:trigger Word(q, k)} :: q in old(live) && k < old(live)[q] ==>
        Word(q, k) == old(Word(q, k))
    {
      hide Tied, Ledger, Units, Count, RawChain, Chain, NodesOk, BlocksBut, Live, BlockHeaders.Kept;
      ghost var s, t, d := layouts, live, b.data[..];
      MemsDistinct(links, mems, s);
      MemsApart(links, mems, s, t, b);
      a, c := TakeFreeElem(b, n, i);
      forall q, k: nat {:trigger Word(q, k)} | q in t && k < t[q]
        ensures Word(q, k) == old(Word(q, k))
      {
        if q.InBlock? && q.blk == b {
          UnitKept(links, mems, s, t, layouts, live, d, b.data[..], q, k);
        }
      }
    }

    method TakeFreeElem(b: MemBlk, n: nat, ghost i: nat) returns (a: int, ghost c: nat)
      requires Valid() && b in layouts && i < |links| && links[i].blk == b
      modifies this`layouts, this`live
      modifies b`free_x, b`freeMem, b`lastElemOff, b`freeElemOff, b`layout, b.data
      ensures Valid() && layouts.Keys == old(layouts.Keys) && a >= -1
      ensures a == -1 ==> live == old(live) && layouts == old(layouts) && NoHole(layouts[b], n)
      ensures a >= 0 ==> c != a && InBlock(b, c) in old(live) && FirstHole(old(layouts)[b], a, n)
      ensures a >= 0 ==> Got(InBlock(b, a)) == old(layouts)[b][a].size
      ensures a >= 0 ==>
        Gained(old(live), live, InBlock(b, a), n)
      ensures layouts == old(layouts)[b := layouts[b]]
      ensures BlockHeaders.Kept(old(b.data[..]), b.data[..], Live(old(layouts[b])), Live(layouts[b]))
    {
      hide Tied, Ledger, Units, Count, RawChain, Chain, NodesOk, BlkOk, Live, MemBlk.Valid, BlockHeaders.Kept,
        IsFree, Coalesced;
      ghost var s, t := layouts, live;
      BlkOkAt(b, s[b]);
      MemsDistinct(links, mems, s);
      MemsApart(links, mems, s, t, b);
      AlwaysCoalesced(b);
      c := 0;
      a := b.TakeFree(n);
      layouts := s[b := b.layout];
      BlkOkAt(b, b.layout);
      assert BlocksBut(null);
      if a >= 0 {
        c := FreeElem(s[b], a);
        IsLive(links, mems, s, t, b, c);
        live := live[InBlock(b, a) := s[b][a].size];
        NotLive(links, mems, s, t, b, a);
        ElemTaken(links, mems, s, t, i, b.layout, a, s[b][a].size);
      } else {
        assert layouts == s;
      }
    }

    /** Tries to give the element at `a` of the block `b` room for `n` units where it is. */
    method ResizeIn(b: MemBlk, a: nat, n: nat, ghost i: nat) returns (done: bool)
      requires Valid() && b in layouts && i < |links| && links[i].blk == b && a in layouts[b] && !layouts[b][a].free
      modifies this`layouts, this`live
      modifies b`free_x, b`freeMem, b`lastElemOff, b`freeElemOff, b`layout, b.data
      ensures Valid() && layouts.Keys == old(layouts.Keys)
      ensures InBlock(b, a) in live && live == old(live)[InBlock(b, a) := live[InBlock(b, a)]]
      ensures if done then n <= live[InBlock(b, a)] <= n + 1
        else live == old(live) && live[InBlock(b, a)] < n && layouts == old(layouts)
      ensures Holding(old(layouts)[b], old(b.free_x), b.nunits, a, n, done, live[InBlock(b, a)])
      ensures forall q, k: nat {:trigger Word(q, k)} :: q in old(live) && k < old(live)[q] && k < live[q] ==>
        Word(q, k) == old(Word(q, k))
    {
      hide Tied, Ledger, Units, Count, RawChain, Chain, NodesOk, BlocksBut, Live, BlockHeaders.Kept;
      ghost var s, t, d := layouts, live, b.data[..];
      MemsDistinct(links, mems, s);
      MemsApart(links, mems, s, t, b);
      done := ResizeElem(b, a, n, i);
      forall q, k: nat {:trigger Word(q, k)} | q in t && k < t[q] && k < live[q]
        ensures Word(q, k) == old(Word(q, k))
      {
        if q.InBlock? && q.blk == b {
          UnitKept(links, mems, s, t, layouts, live, d, b.data[..], q, k);
        }
      }
    }

    method ResizeElem(b: MemBlk, a: nat, n: nat, ghost i: nat) returns (done: bool)
      requires Valid() && b in layouts && i < |links| && links[i].blk == b && a in layouts[b] && !layouts[b][a].free
      modifies this`layouts, this`live
      modifies b`free_x, b`freeMem, b`lastElemOff, b`freeElemOff, b`layout, b.data
      ensures Valid() && layouts.Keys == old(layouts.Keys)
      ensures InBlock(b, a) in live && live == old(live)[InBlock(b, a) := live[InBlock(b, a)]]
      ensures if done then n <= live[InBlock(b, a)] <= n + 1
        else live == old(live) && live[InBlock(b, a)] < n && layouts == old(layouts)
      ensures Holding(old(layouts)[b], old(b.free_x), b.nunits, a, n, done, live[InBlock(b, a)])
      ensures layouts == old(layouts)[b := layouts[b]]
      ensures BlockHeaders.Kept(old(b.data[..]), b.data[..], Live(old(layouts[b])), Live(layouts[b]))
    {
      hide StatOf, UnitsOf, CountOf, Tied, Ledger, Units, Count, RawChain, Chain, NodesOk, BlkOk, Live,
        MemBlk.Valid, BlockHeaders.Kept;
      ghost var s, t, p := layouts, live, InBlock(b, a);
      BlkOkAt(b, s[b]);
      MemsDistinct(links, mems, s);
      MemsApart(links, mems, s, t, b);
      IsLive(links, mems, s, t, b, a);
      done := b.ReallocInPlace(a, n);
      layouts := s[b := b.layout];
      BlkOkAt(b, b.layout);
      assert BlocksBut(null);
      if done {
        live := t[p := Live(b.layout)[a]];
        ElemTaken(links, mems, s, t, i, b.layout, a, Live(b.layout)[a]);
        assert ValidBut(null);
      } else {
        assert layouts == s;
      }
    }

    method StoreInBlock(b: MemBlk, a: nat, k: nat, c: Cell)
      requires Valid() && InBlock(b, a) in live && k < live[InBlock(b, a)]
      modifies b.data
      ensures Valid() && Word(InBlock(b, a), k) == c
      ensures forall q, j: nat {:trigger Word(q, j)} ::
        q in old(live) && j < old(live)[q] && (q == InBlock(b, a) ==> j != k) ==>
        Word(q, j) == old(Word(q, j))
    {
      hide Tied, Units, Count, RawChain, Chain, NodesOk, BlkOk, Live, MemBlk.Valid, Ledger;
      MemsDistinct(links, mems, layouts);
      LedgerAt(links, mems, layouts, live, b, a);
      MemsApart(links, mems, layouts, live, b);
      BlkOkAt(b, layouts[b]);
      UnitAt(b, a, k);
      b.Store(a + 1 + k, c);
      BlkOkAt(b, layouts[b]);
      forall q, j: nat {:trigger Word(q, j)} | q in live && j < live[q] && (q != InBlock(b, a) || j != k)
        ensures Word(q, j) == old(Word(q, j))
      {
        if q.InBlock? && q.blk == b {
          LedgerAt(links, mems, layouts, live, b, q.off);
          UnitsApart(b, a, k, q.off, j);
        }
      }
    }

    /** A client stores `c` into the `k`-th unit of its allocation `p`. */
    method Store(p: Ptr, k: nat, c: Cell)
      requires Valid() && p in live && k < live[p]
      modifies if p.InBlock? then {p.blk.data} else if p.RawMem? then {p.mem} else {}
      ensures Valid() && Word(p, k) == c
      ensures forall q, j: nat {:trigger Word(q, j)} :: q in old(live) && j < old(live)[q] && (q != p || j != k) ==>
        Word(q, j) == old(Word(q, j))
    {
      hide Tied, Units, Count, RawChain, Chain, NodesOk, BlkOk, Live, MemBlk.Valid, Ledger;
      MemsDistinct(links, mems, layouts);
      if p.InBlock? {
        StoreInBlock(p.blk, p.off, k, c);
      } else {
        RawAt(links, mems, layouts, live, p);
        p.mem[k] := c;
      }
    }

    /** Puts the node of a new raw allocation into the list. */
    method AdoptRaw(l: MemLink)
      requires Valid() && l !in links && l.isRaw && l.blk == null && l.mem !in mems
      modifies this, Nodes(links)`pprev, Nodes(links)`pnextRaw, l`pnext, l`pprev, l`pnextRaw
      ensures Valid() && links == [l] + old(links) && layouts == old(layouts)
      ensures live == old(live)[RawMem(l.mem) := l.mem.Length]
    {
      hide Tied, Ledger, Units, Count, RawChain, Chain, NodesOk, BlkOk, Live, MemBlk.Valid;
      RawNew(links, mems, layouts, live, l, l.mem);
      UnitsFront(links, layouts, layouts, l, false);
      UnitsFront(links, layouts, layouts, l, true);
      NodesFront(links, mems, l);
      AddBlock(l);
      mems := [l.mem] + mems;
      live := live[RawMem(l.mem) := l.mem.Length];
      assert NodesOk(links, mems);
      assert BlocksBut(null);
    }

    /** A raw allocation of its own for a large request; null when there is no memory. */
    method AllocRaw(n: nat, avail: bool) returns (p: Ptr)
      requires Valid()
      modifies this, Nodes(links)
      ensures Valid() && layouts == old(layouts) && fresh(Nodes(links) - old(Nodes(links)))
      ensures if avail then p.RawMem? && fresh(p.mem) && p !in old(live) && live == old(live)[p := n]
        else p.Null? && live == old(live)
      ensures n > 0xFFFE ==> Placed(old(links), old(layouts), n, defBlkSize, avail, p, Got(p))
      ensures Listed(old(links), old(layouts), p, links)
    {
      hide Tied, Ledger, Units, Count, RawChain, Chain, NodesOk, BlkOk, Live, MemBlk.Valid;
      if !avail {
        return Null;
      }
      var data := new Cell[n](_ => Cell(false, false, 0, 0, 0));
      var l := new MemLink.Raw(data);
      AdoptRaw(l);
      p := RawMem(data);
    }

    /** Puts the new standard block `b`, whose only element has `n` units, into the list. */
    method Adopt(b: MemBlk, l: MemLink, n: nat)
      requires Valid() && l !in links && !l.isRaw && l.blk == b && l.mem == b.data && b.plink == l
      requires b !in layouts && b.data !in mems && BlkOk(b, b.layout) && Live(b.layout) == map[0 := n]
      modifies this, Nodes(links)`pprev, Nodes(links)`pnextRaw, l`pnext, l`pprev, l`pnextRaw
      ensures Valid() && links == [l] + old(links) && layouts == old(layouts)[b := b.layout]
      ensures live == old(live)[InBlock(b, 0) := n]
    {
      hide StatOf, UnitsOf, CountOf, Tied, Ledger, Units, Count, RawChain, Chain, NodesOk, BlkOk, Live, MemBlk.Valid,
        Nodes, Distinct;
      StdAdopted(links, mems, layouts, live, l, b, n);
      NodesFront(links, mems, l);
      AddBlock(l);
      CountBlock(b, n);
      assert BlocksBut(null);
    }

    /** The counters know the new block. */
    method CountBlock(b: MemBlk, ghost n: nat)
      modifies this`usedUnits, this`usedBlocks, this`mems, this`layouts, this`live
      ensures usedUnits == old(usedUnits) + b.nunits && usedBlocks == old(usedBlocks) + 1
      ensures mems == [b.data] + old(mems) && layouts == old(layouts)[b := b.layout]
      ensures live == old(live)[InBlock(b, 0) := n]
    {
      usedUnits := usedUnits + b.nunits;
      usedBlocks := usedBlocks + 1;
      mems := [b.data] + mems;
      layouts := layouts[b := b.layout];
      live := live[InBlock(b, 0) := n];
    }

    /** A block of the default size, or of a multiple of it when the element is large. */
    method CreateBlock(n: nat) returns (b: MemBlk, l: MemLink)
      requires defBlkSize > 0 && n <= 0xFFFE
      ensures fresh(b) && fresh(l) && fresh(b.data) && !l.isRaw && l.blk == b && l.mem == b.data && b.plink == l
      ensures BlkOk(b, b.layout) && Live(b.layout) == map[0 := n] && SizeFor(n, defBlkSize, b.nunits)
    {
      hide Live, Ok;
      var allocSize := n * 8 + BLOCK_HEADER + 8;
      allocSize := if allocSize < defBlkSize then defBlkSize
        else (allocSize + defBlkSize - 1) / defBlkSize * defBlkSize;
      RoundedUp(n, defBlkSize, allocSize);
      var dataUnits := (allocSize - BLOCK_HEADER) / 8;
      if dataUnits >= 0x1_0000 {
        dataUnits := 0xFFFF;
      }
      b := new MemBlk(dataUnits, n);
      l := new MemLink.Std(b);
      b.plink := l;
      BlkOkAt(b, b.layout);
    }

    /** A new standard block whose first element has `n` units. */
    method NewBlock(n: nat) returns (p: Ptr)
      requires Valid() && n <= 0xFFFE
      modifies this, Nodes(links)
      ensures Valid() && p.InBlock? && fresh(p.blk) && fresh(p.blk.data) && layouts.Keys == old(layouts.Keys) + {p.blk}
      ensures p !in old(live) && live == old(live)[p := n] && Gained(old(live), live, p, n)
      ensures InNew(old(layouts), n, defBlkSize, p) && Listed(old(links), old(layouts), p, links)
      ensures fresh(Nodes(links) - old(Nodes(links))) && Datas(layouts) == old(Datas(layouts)) + {p.blk.data}
      ensures forall q, k: nat {:trigger Word(q, k)} :: q in old(live) && k < old(live)[q] ==>
        Word(q, k) == old(Word(q, k))
    {
      hide Datas, Word, Tied, Ledger, Units, Count, RawChain, Chain, NodesOk, BlkOk, Live, Ok;
      var b, l := CreateBlock(n);
      DatasWith(layouts, layouts[b := b.layout], b);
      Adopt(b, l, n);
      p := InBlock(b, 0);
    }

    /** The first block with room for an element of `n` units at its end. */
    method FindRoom(n: nat) returns (b: MemBlk?, ghost i: nat)
      requires Valid()
      ensures Valid()
      ensures b != null ==> b in layouts && i < |links| && links[i].blk == b && n + 1 <= b.nunits - b.free_x
      ensures b != null ==> b.data in Datas(layouts)
      ensures i <= |links| && (b == null ==> i == |links|) && NoRoom(links[..i], n)
      ensures if b == null then NoRooms(links, layouts, n) else AtEnd(links, layouts, n, InBlock(b, b.free_x), i)
    {
      hide Ledger, Units, Count, RawChain, NodesOk, BlkOk, Live, MemBlk.Valid, Tied;
      var l := phead;
      i := 0;
      while l != null
        invariant i <= |links| && l == if i < |links| then links[i] else null
        invariant NoRoom(links[..i], n) && NoRooms(links[..i], layouts, n)
        decreases if l == null then 0 else |links| - i + 1
      {
        TiedAt(links, mems, layouts, i);
        if !l.isRaw {
          BlkOkAt(l.blk, layouts[l.blk]);
          TailOf(l.blk);
        }
        if !l.isRaw && n + 1 <= l.blk.nunits - l.blk.free_x {
          return l.blk, i;
        }
        l := l.pnext;
        i := i + 1;
      }
      b := null;
    }

    /** Cuts the element at `a` of the block `b`, which has just been taken, to `n` units. An element that is to
        have none is given up again, unless it has none.
     */
    method CutTaken(b: MemBlk, a: nat, n: nat, ghost i: nat, ghost c: nat) returns (p: Ptr)
      requires Valid() && b in layouts && i < |links| && links[i].blk == b && InBlock(b, a) in live
      requires n <= live[InBlock(b, a)] && c != a && InBlock(b, c) in live
      modifies this`layouts, this`live
      modifies b`free_x, b`freeMem, b`lastElemOff, b`freeElemOff, b`layout, b.data
      ensures Valid() && layouts.Keys == old(layouts.Keys) && (p == Null || p == InBlock(b, a))
      ensures p.Null? ==> n == 0 && live == old(live) - {InBlock(b, a)}
      ensures !p.Null? ==> p in live && n <= live[p] && live == old(live)[p := live[p]]
      ensures n > 0 ==> live[p] == if old(live)[p] == n + 1 then n + 1 else n
      ensures forall q, k: nat {:trigger Word(q, k)} ::
        q in old(live) && q != InBlock(b, a) && k < old(live)[q] ==> Word(q, k) == old(Word(q, k))
    {
      hide Tied, Ledger, Units, Count, RawChain, Chain, NodesOk, BlkOk, Live, MemBlk.Valid;
      p := InBlock(b, a);
      MemsDistinct(links, mems, layouts);
      LedgerAt(links, mems, layouts, live, b, a);
      LiveIn(layouts[b], a);
      BlkOkAt(b, layouts[b]);
      ElemKnows(b, a);
      if n == 0 && b.data[a].nunits != 0 {
        var emptied := FreeInBlock(b, a, i);
        StillLive(links, mems, layouts, live, b, c);
        return Null;
      }
      var done := ResizeIn(b, a, n, i);
    }

    /** Tries to reuse a free element of the block `b`. */
    method ReuseIn(b: MemBlk, n: nat, ghost i: nat) returns (p: Ptr)
      requires Valid() && b in layouts && i < |links| && links[i].blk == b
      modifies this`layouts, this`live
      modifies b`free_x, b`freeMem, b`lastElemOff, b`freeElemOff, b`layout, b.data
      ensures Valid() && layouts.Keys == old(layouts.Keys)
      ensures p.Null? || (p.InBlock? && p.blk == b)
      ensures p.Null? ==> live == old(live)
      ensures !p.Null? ==> Gained(old(live), live, p, n)
      ensures n > 0 ==>
        if p.Null? then layouts == old(layouts) && NoHole(layouts[b], n)
        else
          && FirstHole(old(layouts)[b], p.off, n)
          && Got(p) == if old(layouts)[b][p.off].size == n + 1 then n + 1 else n
      ensures forall q, k: nat {:trigger Word(q, k)} :: q in old(live) && k < old(live)[q] ==>
        Word(q, k) == old(Word(q, k))
    {
      hide ValidBut, BlkOk, Live, MemBlk.Valid, NoHole, Word;
      if n > b.freeMem {
        NothingFits(b, n);
        return Null;
      }
      var a;
      ghost var c;
      a, c := TakeWhole(b, n, i);
      if a == -1 {
        return Null;
      }
      p := CutTaken(b, a, n, i, c);
    }

    lemma NothingFits(b: MemBlk, n: nat)
      requires Valid() && b in layouts && n > b.freeMem
      ensures NoHole(layouts[b], n)
    {
      hide Tied, Ledger, Units, Count, RawChain, Chain, NodesOk, BlkOk, Live, MemBlk.Valid, NoHole;
      BlkOkAt(b, layouts[b]);
      TooSmall(b, n);
    }

    /** Tries to reuse a free element of any block. */
    method Reuse(n: nat) returns (p: Ptr, ghost i: nat)
      requires Valid()
      modifies this`layouts, this`live, layouts.Keys, Datas(layouts)
      ensures Valid() && layouts.Keys == old(layouts.Keys) && Nodes(links) == old(Nodes(links))
      ensures Datas(layouts) == old(Datas(layouts))
      ensures p.Null? || (p.InBlock? && p.blk in layouts)
      ensures p.Null? ==> live == old(live)
      ensures !p.Null? ==> Gained(old(live), live, p, n)
      ensures n > 0 ==>
        if p.Null? then NoHoles(links, old(layouts), n) && layouts == old(layouts)
        else InHole(links, old(layouts), n, p, Got(p), i)
      ensures forall q, k: nat {:trigger Word(q, k)} :: q in old(live) && k < old(live)[q] ==>
        Word(q, k) == old(Word(q, k))
    {
      hide Tied, Ledger, Units, Count, RawChain, NodesOk, BlkOk, Live, MemBlk.Valid;
      var l := phead;
      i := 0;
      p := Null;
      while l != null
        invariant i <= |links| && l == if i < |links| then links[i] else null
        invariant n > 0 ==> layouts == old(layouts) && NoHoles(links[..i], layouts, n)
        invariant Valid() && layouts.Keys == old(layouts.Keys) && live == old(live) && p.Null?
        invariant forall q, k: nat {:trigger Word(q, k)} :: q in old(live) && k < old(live)[q] ==>
          Word(q, k) == old(Word(q, k))
        decreases if l == null then 0 else |links| - i + 1
      {
        TiedAt(links, mems, layouts, i);
        if !l.isRaw {
          p := ReuseIn(l.blk, n, i);
          if !p.Null? {
            return;
          }
        }
        l := l.pnext;
        i := i + 1;
      }
    }

    /** A free element, or else a new block. */
    method AllocElsewhere(n: nat, avail: bool) returns (p: Ptr)
      requires Valid() && n <= 0xFFFE && NoRooms(links, layouts, n)
      modifies this, Nodes(links), layouts.Keys, Datas(layouts)
      ensures Valid()
      ensures fresh(Nodes(links) - old(Nodes(links))) && fresh(layouts.Keys - old(layouts.Keys))
      ensures fresh(Datas(layouts) - old(Datas(layouts)))
      ensures !p.RawMem? && (p.InBlock? ==> p.blk in layouts)
      ensures p.Null? ==> !avail && live == old(live)
      ensures !p.Null? ==> Gained(old(live), live, p, n)
      ensures Placed(old(links), old(layouts), n, defBlkSize, avail, p, Got(p))
      ensures Listed(old(links), old(layouts), p, links)
      ensures forall q, k: nat {:trigger Word(q, k)} :: q in old(live) && k < old(live)[q] ==>
        Word(q, k) == old(Word(q, k))
    {
      hide Gained, Word, ValidBut, Live, Nodes, Datas, NoRooms, NoHoles, InHole, InNew;
      ghost var i;
      p, i := Reuse(n);
      if n > 0 && !p.Null? {
        InHoleHole(old(links), old(layouts), n, p, Got(p), i);
      }
      if !p.Null? || !avail {
        return;
      }
      label Full:
      p := NewBlock(n);
      assert forall o: MemLink {:trigger o in Nodes(links)} :: old(allocated(o)) ==> old@Full(allocated(o));
      assert forall o: array<Cell> {:trigger o in Datas(layouts)} :: old(allocated(o)) ==> old@Full(allocated(o));
    }

    /** An element of a standard block. */
    method AllocStd(n: nat, avail: bool) returns (p: Ptr)
      requires Valid() && n <= 0xFFFE
      modifies this, Nodes(links), layouts.Keys, Datas(layouts)
      ensures Valid()
      ensures fresh(Nodes(links) - old(Nodes(links))) && fresh(layouts.Keys - old(layouts.Keys))
      ensures fresh(Datas(layouts) - old(Datas(layouts)))
      ensures !p.RawMem? && (p.InBlock? ==> p.blk in layouts)
      ensures p.Null? ==> !avail && live == old(live)
      ensures !p.Null? ==> Gained(old(live), live, p, n)
      ensures Placed(old(links), old(layouts), n, defBlkSize, avail, p, Got(p))
      ensures Listed(old(links), old(layouts), p, links)
      ensures forall q, k: nat {:trigger Word(q, k)} :: q in old(live) && k < old(live)[q] ==>
        Word(q, k) == old(Word(q, k))
    {
      hide Word, ValidBut, Live, Gained, NoRoom, Nodes, Datas, NoRooms, AtEnd;
      var b, i := FindRoom(n);
      label Found:
      if b != null {
        AtEndRoom(links, layouts, n, InBlock(b, b.free_x), i);
        p := AllocAtEndOf(b, n, i);
      } else {
        p := AllocElsewhere(n, avail);
      }
      assert forall o: MemLink {:trigger o in Nodes(links)} :: old(allocated(o)) ==> old@Found(allocated(o));
      assert forall o: array<Cell> {:trigger o in Datas(layouts)} :: old(allocated(o)) ==> old@Found(allocated(o));
    }

    /** `memHeapAlloc`: null only when the system has no memory left. */
    method Alloc(nbytes: nat, avail: bool) returns (p: Ptr)
      requires Valid()
      modifies this, Nodes(links), layouts.Keys, Datas(layouts)
      ensures Valid()
      ensures fresh(Nodes(links) - old(Nodes(links))) && fresh(layouts.Keys - old(layouts.Keys))
      ensures fresh(Datas(layouts) - old(Datas(layouts)))
      ensures if p.InBlock? then p.blk in layouts else p.RawMem? ==> fresh(p.mem)
      ensures p.Null? ==> !avail && live == old(live)
      ensures !p.Null? ==> p !in old(live) && p in live && nbytes <= 8 * live[p] && live == old(live)[p := live[p]]
      ensures Placed(old(links), old(layouts), (nbytes + 7) / 8, defBlkSize, avail, p, Got(p))
      ensures Listed(old(links), old(layouts), p, links)
      ensures forall q, k: nat {:trigger Word(q, k)} :: q in old(live) && k < old(live)[q] ==>
        Word(q, k) == old(Word(q, k))
    {
      hide Word, ValidBut, Live, Placed, Listed;
      var n := (nbytes + 7) / 8;
      if n > 0xFFFE {
        p := AllocRaw(n, avail);
      } else {
        p := AllocStd(n, avail);
      }
    }

    /** The link of a raw allocation gets other memory. */
    method Repoint(l: MemLink, data: array<Cell>, ghost i: nat)
      requires Valid() && i < |links| && links[i] == l && l.isRaw && data !in mems
      modifies this`live, this`mems, l`mem
      ensures Valid() && l.mem == data
      ensures live == (old(live) - {RawMem(old(l.mem))})[RawMem(data) := data.Length]
    {
      hide Tied, Ledger, Units, Count, RawChain, Chain, BlkOk, Live, MemBlk.Valid, StatOf;
      ghost var m := mems;
      MemsDistinct(links, m, layouts);
      LinksDistinct(links, m, layouts, i);
      RawMoved(links, m, layouts, live, i, data);
      live := (live - {RawMem(l.mem)})[RawMem(data) := data.Length];
      l.mem := data;
      mems := m[i := data];
    }

    /** Moves a raw allocation to memory of another size. */
    method ReallocRaw(l: MemLink, n: nat, avail: bool, ghost i: nat) returns (q: Ptr)
      requires Valid() && i < |links| && links[i] == l && l.isRaw
      modifies this`live, this`mems, l`mem
      ensures Valid()
      ensures q.Null? || (q.RawMem? && fresh(q.mem))
      ensures q.Null? <==> !avail
      ensures q.Null? ==> live == old(live)
      ensures !q.Null? ==>
        var p := RawMem(old(l.mem));
        && p in old(live) && q !in old(live) && live == (old(live) - {p})[q := n]
        && forall k: nat {:trigger Word(q, k)} :: k < n && k < old(live)[p] ==> Word(q, k) == old(Word(p, k))
    {
      hide Tied, Ledger, Units, Count, RawChain, Chain, BlkOk, Live, MemBlk.Valid, StatOf;
      if !avail {
        return Null;
      }
      MemsDistinct(links, mems, layouts);
      RawListed(links, mems, layouts, live, i);
      RawAt(links, mems, layouts, live, RawMem(l.mem));
      var s := l.mem[..];
      var data := new Cell[n](k => if 0 <= k < |s| then s[k] else Cell(false, false, 0, 0, 0));
      q := RawMem(data);
      Repoint(l, data, i);
    }

    method Load(p: Ptr, k: nat) returns (c: Cell)
      requires Valid() && p in live && k < live[p]
      ensures c == Word(p, k)
    {
      hide Tied, Ledger, Units, Count, RawChain, Chain, BlkOk, Live, MemBlk.Valid, StatOf, NodesOk;
      MemsDistinct(links, mems, layouts);
      if p.InBlock? {
        LedgerAt(links, mems, layouts, live, p.blk, p.off);
        BlkOkAt(p.blk, layouts[p.blk]);
        UnitAt(p.blk, p.off, k);
        c := p.blk.data[p.off + 1 + k];
      } else {
        RawAt(links, mems, layouts, live, p);
        c := p.mem[k];
      }
    }

    method CopyUnit(q: Ptr, p: Ptr, k: nat)
      requires Valid() && p in live && q in live && p != q && k < live[p] && k < live[q]
      modifies if q.InBlock? then {q.blk.data} else if q.RawMem? then {q.mem} else {}
      ensures Valid() && Word(q, k) == old(Word(p, k))
      ensures forall r, j: nat {:trigger Word(r, j)} :: r in old(live) && (r != q || j != k) && j < old(live)[r] ==>
        Word(r, j) == old(Word(r, j))
    {
      hide Word, Tied, Ledger, Units, Count, RawChain, Chain, NodesOk, BlkOk;
      var c := Load(p, k);
      Store(q, k, c);
    }

    /** Copies the first `m` units of `p` to `q`. */
    method Copy(q: Ptr, p: Ptr, m: nat)
      requires Valid() && p in live && q in live && p != q && m <= live[p] && m <= live[q]
      modifies if q.InBlock? then {q.blk.data} else if q.RawMem? then {q.mem} else {}
      ensures Valid()
      ensures forall k: nat {:trigger Word(q, k)} :: k < m ==> Word(q, k) == old(Word(p, k))
      ensures forall r, k: nat {:trigger Word(r, k)} :: r in old(live) && r != q && k < old(live)[r] ==>
        Word(r, k) == old(Word(r, k))
    {
      hide ValidBut, Word;
      for i := 0 to m
        invariant Valid() && live == old(live)
        invariant forall k: nat {:trigger Word(q, k)} :: k < i ==> Word(q, k) == old(Word(p, k))
        invariant forall r, k: nat {:trigger Word(r, k)} :: r in old(live) && r != q && k < old(live)[r] ==>
          Word(r, k) == old(Word(r, k))
      {
        CopyUnit(q, p, i);
      }
    }

    /** Copies all of `p` to `q` and frees `p`. */
    method CopyAndFree(q: Ptr, p: Ptr, m: nat)
      requires Valid() && p in live && q in live && p != q && m == live[p] <= live[q]
      requires if q.InBlock? then q.blk in layouts else true
      modifies this, Nodes(links), layouts.Keys, Datas(layouts), if q.RawMem? then {q.mem} else {}
      ensures Valid() && live == old(live) - {p} && Nodes(links) <= old(Nodes(links))
      ensures layouts.Keys <= old(layouts.Keys) && Datas(layouts) <= old(Datas(layouts))
      ensures forall k: nat {:trigger Word(q, k)} :: k < m ==> Word(q, k) == old(Word(p, k))
      ensures forall r, k: nat {:trigger Word(r, k)} :: r in old(live) && r != p && r != q && k < old(live)[r] ==>
        Word(r, k) == old(Word(r, k))
    {
      hide ValidBut, Word;
      Copy(q, p, m);
      Free(p);
    }

    /** Makes a new allocation of `n` units, copies `p` to it and frees `p`. */
    method Move(p: Ptr, m: nat, n: nat, avail: bool) returns (q: Ptr)
      requires Valid() && p in live && live[p] == m <= n
      modifies this, Nodes(links), layouts.Keys, Datas(layouts)
      ensures Valid()
      ensures fresh(Nodes(links) - old(Nodes(links))) && fresh(layouts.Keys - old(layouts.Keys))
      ensures fresh(Datas(layouts) - old(Datas(layouts)))
      ensures q.RawMem? ==> q == p || fresh(q.mem)
      ensures q.Null? ==> !avail && live == old(live)
      ensures Placed(old(links), old(layouts), n, defBlkSize, avail, q, Got(q))
      ensures !q.Null? ==>
        && q !in old(live) && q in live && n <= live[q] && live == (old(live) - {p})[q := live[q]]
        && forall k: nat {:trigger Word(q, k)} :: k < m ==> Word(q, k) == old(Word(p, k))
      ensures forall r, k: nat {:trigger Word(r, k)} :: r in old(live) && (r != p || q.Null?) && k < old(live)[r] ==>
        Word(r, k) == old(Word(r, k))
    {
      hide Nodes, Datas, ValidBut, Word, Placed, Listed;
      q := Alloc(n * 8, avail);
      if q.Null? {
        return;
      }
      CopyAndFree(q, p, m);
    }

    /** Resizes the element at `a` of the block `b` in place or else moves it. */
    method ResizeOrMove(b: MemBlk, a: nat, size: nat, n: nat, avail: bool, ghost p: Ptr, ghost i: nat) returns (q: Ptr)
      requires Valid() && p == InBlock(b, a) && p in live && size == live[p] && n > 0
      requires b in layouts && i < |links| && links[i].blk == b && a in layouts[b] && !layouts[b][a].free
      modifies this, Nodes(links), layouts.Keys, Datas(layouts)
      ensures Valid()
      ensures fresh(Nodes(links) - old(Nodes(links))) && fresh(layouts.Keys - old(layouts.Keys))
      ensures fresh(Datas(layouts) - old(Datas(layouts)))
      ensures q.RawMem? ==> fresh(q.mem)
      ensures q.Null? ==> !avail && live == old(live)
      ensures Regrown(old(links), old(layouts), n, defBlkSize, avail, p, q, Got(q)) && (q == p ==> links == old(links))
      ensures !q.Null? ==>
        && q in live && n <= live[q] && live == (old(live) - {p})[q := live[q]] && (q == p || q !in old(live))
        && forall k: nat {:trigger Word(q, k)} :: k < old(live)[p] && k < live[q] ==> Word(q, k) == old(Word(p, k))
      ensures forall r, k: nat {:trigger Word(r, k)} ::
        r in old(live) && (r != p || (q.Null? && p in live)) && k < old(live)[r] ==>
        Word(r, k) == old(Word(r, k))
    {
      hide Word, ValidBut, Placed, Tiled;
      var done := ResizeIn(b, a, n, i);
      TailIs(old(layouts)[b], old(b.free_x));
      if done {
        return InBlock(b, a);
      }
      q := Move(InBlock(b, a), size, n, avail);
    }

    lemma LiveElem(b: MemBlk, a: nat) returns (i: nat)
      requires Valid() && InBlock(b, a) in live
      ensures |mems| == |links| && i < |links| && links[i].blk == b && b in layouts && b.data in Datas(layouts)
      ensures a < b.data.Length && b.data[a].nunits == live[InBlock(b, a)]
      ensures a in layouts[b] && !layouts[b][a].free && layouts[b][a].size == live[InBlock(b, a)]
      ensures Tiled(layouts[b], Tail(layouts[b]))
    {
      hide Tied, Ledger, Units, Count, RawChain, Chain, NodesOk, BlkOk, Live, MemBlk.Valid, Tiled;
      MemsDistinct(links, mems, layouts);
      LedgerAt(links, mems, layouts, live, b, a);
      LiveIn(layouts[b], a);
      BlkOkAt(b, layouts[b]);
      ElemKnows(b, a);
      TiledTail(b);
      i := NodeOf(links, mems, layouts, b);
    }

    /** Gives the element at `a` of the block `b` room for `n` units. */
    method ReallocStd(b: MemBlk, a: nat, n: nat, avail: bool, ghost p: Ptr) returns (q: Ptr)
      requires Valid() && p == InBlock(b, a) && p in live
      modifies this, Nodes(links), layouts.Keys, Datas(layouts)
      ensures Valid()
      ensures fresh(Nodes(links) - old(Nodes(links))) && fresh(layouts.Keys - old(layouts.Keys))
      ensures fresh(Datas(layouts) - old(Datas(layouts)))
      ensures q.RawMem? ==> fresh(q.mem)
      ensures q.Null? ==> if n == 0 then live == old(live) - {p} else !avail && live == old(live)
      ensures n > 0 ==>
        Regrown(old(links), old(layouts), n, defBlkSize, avail, p, q, Got(q)) && (q == p ==> links == old(links))
      ensures n == 0 ==> if old(live)[p] == 0 then q == p && live == old(live) && links == old(links) else
        q.Null? && |old(mems)| == |old(links)| && Released(old(links), old(mems), old(layouts), p, dontKeepFree,
          keepFreeUnits, old(freeUnits), links)
      ensures !q.Null? ==>
        && q in live && n <= live[q] && live == (old(live) - {p})[q := live[q]] && (q == p || q !in old(live))
        && forall k: nat {:trigger Word(q, k)} :: k < old(live)[p] && k < live[q] ==> Word(q, k) == old(Word(p, k))
      ensures forall r, k: nat {:trigger Word(r, k)} ::
        r in old(live) && (r != p || (q.Null? && p in live)) && k < old(live)[r] ==>
        Word(r, k) == old(Word(r, k))
    {
      hide Word, ValidBut, Tiled, Placed, Released, Nodes;
      ghost var i := LiveElem(b, a);
      var size := b.data[a].nunits;
      if size == n {
        return InBlock(b, a);
      }
      if n == 0 {
        FreeStd(b, a);
        return Null;
      }
      q := ResizeOrMove(b, a, size, n, avail, p, i);
    }

    /** Resizing a raw allocation: the other ones are not touched. */
    method ResizeRaw(p: Ptr, l: MemLink, n: nat, avail: bool, ghost i: nat) returns (q: Ptr)
      requires Valid() && p in live && n > 0 && i < |links| && links[i] == l && l.isRaw && p == RawMem(l.mem)
      modifies this`live, this`mems, l`mem
      ensures Valid()
      ensures fresh(Nodes(links) - old(Nodes(links))) && fresh(layouts.Keys - old(layouts.Keys))
      ensures fresh(Datas(layouts) - old(Datas(layouts)))
      ensures q.RawMem? ==> q == p || fresh(q.mem)
      ensures q.Null? ==> !avail && live == old(live)
      ensures links == old(links) && if avail then q.RawMem? && Got(q) == n else q.Null?
      ensures !q.Null? ==>
        && q in live && n <= live[q] && live == (old(live) - {p})[q := live[q]] && (q == p || q !in old(live))
        && forall k: nat {:trigger Word(q, k)} :: k < old(live)[p] && k < live[q] ==> Word(q, k) == old(Word(p, k))
      ensures forall r, k: nat {:trigger Word(r, k)} ::
        r in old(live) && (r != p || (q.Null? && p in live)) && k < old(live)[r] ==>
        Word(r, k) == old(Word(r, k))
    {
      hide Word, Tied, Ledger, Units, Count, RawChain, NodesOk, BlkOk, Live, MemBlk.Valid, Distinct;
      q := ReallocRaw(l, n, avail, i);
    }

    /** The raw link of a live allocation, or none for one in a block. */
    method RawOf(p: Ptr) returns (l: MemLink?, ghost i: nat)
      requires Valid() && p in live
      ensures Valid()
      ensures if l == null then p.InBlock?
        else i < |links| && links[i] == l && l in Nodes(links) && l.isRaw && p == RawMem(l.mem)
    {
      hide Word, Tied, Ledger, Units, Count, RawChain, Chain, NodesOk, BlkOk, Live, MemBlk.Valid;
      var prev;
      ghost var j;
      l, prev, i, j := FindRaw(p);
      if l == null {
        StdAt(links, mems, layouts, live, p);
      }
    }

    /** Reallocates a live allocation. */
    method Resize(p: Ptr, n: nat, avail: bool) returns (q: Ptr)
      requires Valid() && p in live && (p.RawMem? ==> n > 0)
      modifies this, Nodes(links), layouts.Keys, Datas(layouts)
      ensures Valid()
      ensures fresh(Nodes(links) - old(Nodes(links))) && fresh(layouts.Keys - old(layouts.Keys))
      ensures fresh(Datas(layouts) - old(Datas(layouts)))
      ensures q.RawMem? ==> q == p || fresh(q.mem)
      ensures q.Null? ==> if n == 0 then live == old(live) - {p} else !avail && live == old(live)
      ensures p.RawMem? ==> links == old(links) && if avail then q.RawMem? && Got(q) == n else q.Null?
      ensures p.InBlock? && n > 0 ==>
        Regrown(old(links), old(layouts), n, defBlkSize, avail, p, q, Got(q)) && (q == p ==> links == old(links))
      ensures p.InBlock? && n == 0 ==> if old(live)[p] == 0 then q == p && live == old(live) && links == old(links) else
        q.Null? && |old(mems)| == |old(links)| && Released(old(links), old(mems), old(layouts), p, dontKeepFree,
          keepFreeUnits, old(freeUnits), links)
      ensures !q.Null? ==>
        && q in live && n <= live[q] && live == (old(live) - {p})[q := live[q]] && (q == p || q !in old(live))
        && forall k: nat {:trigger Word(q, k)} :: k < old(live)[p] && k < live[q] ==> Word(q, k) == old(Word(p, k))
      ensures forall r, k: nat {:trigger Word(r, k)} ::
        r in old(live) && (r != p || (q.Null? && p in live)) && k < old(live)[r] ==>
        Word(r, k) == old(Word(r, k))
    {
      hide Word, ValidBut, Nodes, Datas, Regrown, Released;
      var l, i := RawOf(p);
      label Found:
      if l != null {
        q := ResizeRaw(p, l, n, avail, i);
      } else {
        q := ReallocStd(p.blk, p.off, n, avail, p);
      }
      // what was there at first was there when the link was found
      assert forall o: MemLink {:trigger o in Nodes(links)} :: old(allocated(o)) ==> old@Found(allocated(o));
      assert forall o: array<Cell> {:trigger o in Datas(layouts)} :: old(allocated(o)) ==> old@Found(allocated(o));
    }

    /** `memHeapRealloc`: null when the system has no memory left, or after a standard element was freed
        because nothing is asked for. What a raw reallocation to zero bytes does is left to the system.
     */
    method Realloc(p: Ptr, nbytes: nat, avail: bool) returns (q: Ptr)
      requires Valid() && (p.Null? || p in live) && (p.RawMem? ==> nbytes > 0)
      modifies this, Nodes(links), layouts.Keys, Datas(layouts)
      ensures Valid()
      ensures fresh(Nodes(links) - old(Nodes(links))) && fresh(layouts.Keys - old(layouts.Keys))
      ensures fresh(Datas(layouts) - old(Datas(layouts)))
      ensures q.RawMem? ==> q == p || fresh(q.mem)
      ensures q.Null? ==> if nbytes == 0 && !p.Null? then live == old(live) - {p} else !avail && live == old(live)
      ensures p.Null? ==> Placed(old(links), old(layouts), (nbytes + 7) / 8, defBlkSize, avail, q, Got(q))
      ensures p.Null? ==> Listed(old(links), old(layouts), q, links)
      ensures p.RawMem? ==> links == old(links) && if avail then q.RawMem? && Got(q) == (nbytes + 7) / 8 else q.Null?
      ensures p.InBlock? && nbytes > 0 ==>
        Regrown(old(links), old(layouts), (nbytes + 7) / 8, defBlkSize, avail, p, q, Got(q))
      ensures p.InBlock? && q == p ==> links == old(links)
      ensures p.InBlock? && nbytes == 0 ==>
        if old(live)[p] == 0 then q == p && live == old(live) && links == old(links) else
        q.Null? && |old(mems)| == |old(links)| && Released(old(links), old(mems), old(layouts), p, dontKeepFree,
          keepFreeUnits, old(freeUnits), links)
      ensures !q.Null? ==>
        && q in live && nbytes <= 8 * live[q] && live == (old(live) - {p})[q := live[q]] && (q == p || q !in old(live))
        && forall k: nat {:trigger Word(q, k)} :: p in old(live) && k < old(live)[p] && k < live[q] ==>
             Word(q, k) == old(Word(p, k))
      ensures forall r, k: nat {:trigger Word(r, k)} ::
        r in old(live) && (r != p || (q.Null? && p in live)) && k < old(live)[r] ==>
        Word(r, k) == old(Word(r, k))
    {
      hide Word, ValidBut, Nodes, Datas, Regrown, Released, Placed, Listed;
      if p.Null? {
        NullNotLive();
        q := Alloc(nbytes, avail);
      } else {
        q := Resize(p, (nbytes + 7) / 8, avail);
      }
    }

    lemma NullNotLive()
      requires Valid()
      ensures Null !in live && live - {Null} == live
    {
      MemsDistinct(links, mems, layouts);
      NullDead(links, mems, layouts, live);
    }
  }
}
