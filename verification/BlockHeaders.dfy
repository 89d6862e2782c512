/** The element headers of one standard memory block, and what each group of stores to them does
    to the layout they describe.
 */
module BlockHeaders {
  import opened BlockLayout

  /** A 16-bit field. Every store into one proves that the stored number fits. */
  type U16 = n: nat | n < 0x1_0000

  /** Eight bytes of a block, seen as an element header. A data unit holds an arbitrary cell. */
  datatype Cell = Cell(free: bool, last: bool, nunits: U16, prevOff: U16, link: U16)

  /** The headers say what the layout says. */
  ghost predicate Heads(d: seq<Cell>, s: Layout, x: nat) {
    && x <= |d|
    && Tiled(s, x)
    && forall a {:trigger d[a]} :: a in s ==>
         && a < |d|
         && d[a].nunits == s[a].size
         && d[a].free == s[a].free
         && d[a].last == (End(s, a) == x)
  }

  /** The element at `p` ends where the one at `a` starts. */
  ghost predicate Follows(s: Layout, p: nat, a: nat) {
    p in s && End(s, p) == a
  }

  /** Every header but the one at `skip` leads back to the header before it. */
  ghost predicate PrevLinks(d: seq<Cell>, s: Layout, skip: int) {
    forall a {:trigger d[a].prevOff} :: a in s && a != skip ==> a < |d| && PrevAt(s, a, d[a].prevOff)
  }

  ghost predicate PrevAt(s: Layout, a: nat, prevOff: nat) {
    if a == 0 then prevOff == 0 else 0 < prevOff <= a && Follows(s, a - prevOff, a)
  }

  /** Every element in use knows its own offset, which leads back to the block. */
  ghost predicate Begins(d: seq<Cell>, s: Layout) {
    forall a {:trigger d[a].link} :: a in s && !s[a].free ==> a < |d| && d[a].link == a
  }

  ghost predicate IsFree(s: Layout, a: nat) {
    a in s && s[a].free
  }

  /** `b` is the first free element at or after `from`. */
  ghost predicate FirstFree(s: Layout, from: nat, b: nat) {
    && IsFree(s, b) && from <= b
    && forall c: nat {:trigger IsFree(s, c)} :: IsFree(s, c) && from <= c ==> b <= c
  }

  ghost predicate NoneFree(s: Layout, from: nat) {
    forall c: nat {:trigger IsFree(s, c)} :: IsFree(s, c) ==> c < from
  }

  /** No free element has `n` units. */
  ghost predicate NoHole(s: Layout, n: nat) {
    forall c: nat {:trigger IsFree(s, c)} :: IsFree(s, c) ==> s[c].size < n
  }

  /** The first free element with at least `n` units. */
  ghost predicate FirstHole(s: Layout, a: nat, n: nat) {
    && IsFree(s, a) && n <= s[a].size
    && forall c: nat {:trigger IsFree(s, c)} :: IsFree(s, c) && c < a ==> s[c].size < n
  }

  /** Starting at `head`, the links visit exactly the free elements, in ascending order. */
  ghost predicate FreeList(d: seq<Cell>, s: Layout, head: nat) {
    && (if head == 0 then NoneFree(s, 0) else FirstFree(s, 0, head - 1))
    && (forall a: nat {:trigger IsFree(s, a)} :: IsFree(s, a) ==> a < |d|)
    && (forall a: nat {:trigger d[a].link} :: IsFree(s, a) ==> FreeLink(s, a, d[a].link))
  }

  ghost predicate FreeLink(s: Layout, a: nat, link: nat) {
    if link == 0 then NoneFree(s, a + 1) else FirstFree(s, a + 1, a + link)
  }

  ghost predicate LastElem(s: Layout, lastElemOff: nat, x: nat) {
    if x == 0 then lastElemOff == 0
    else lastElemOff > 0 && lastElemOff - 1 in s && End(s, lastElemOff - 1) == x
  }

  lemma AppendHeads(d: seq<Cell>, s: Layout, x: nat, last: nat, n: U16, c: Cell, e: seq<Cell>)
    requires Heads(d, s, x) && Coalesced(s) && LastElem(s, last, x)
    requires x + n + 1 <= |d|
    requires !c.free && c.last && c.nunits == n
    requires e == (if last != 0 then d[last - 1 := d[last - 1].(last := false)] else d)[x := c]
    ensures Heads(e, s[x := Elem(n, false)], x + n + 1)
  {
    var t := s[x := Elem(n, false)];
    Append(s, x, n);
    assert forall b {:trigger End(t, b)} :: b in s ==> End(t, b) == End(s, b);
    assert last > 0 ==> End(t, last - 1) == x;
  }

  lemma AppendPrev(d: seq<Cell>, s: Layout, x: nat, last: nat, n: U16, prevOff: U16, e: seq<Cell>)
    requires Tiled(s, x) && PrevLinks(d, s, -1) && LastElem(s, last, x)
    requires x < |d| == |e|
    requires prevOff == if last != 0 then x - last + 1 else 0
    requires e[x].prevOff == prevOff
    requires forall a {:trigger e[a]} :: a in s ==> e[a].prevOff == d[a].prevOff
    ensures PrevLinks(e, s[x := Elem(n, false)], -1)
  {
    var t := s[x := Elem(n, false)];
    assert forall b {:trigger End(t, b)} :: b in s ==> End(t, b) == End(s, b);
    assert forall a, p :: Follows(s, p, a) ==> Follows(t, p, a);
  }

  lemma FreeListSame(d: seq<Cell>, s: Layout, head: nat, e: seq<Cell>, t: Layout)
    requires FreeList(d, s, head) && |d| == |e|
    requires forall a: nat {:trigger IsFree(t, a)} :: IsFree(s, a) == IsFree(t, a)
    requires forall a: nat {:trigger e[a]} :: IsFree(s, a) && a < |d| ==> e[a].link == d[a].link
    ensures FreeList(e, t, head)
  {
  }

  /** A block's fields and headers describe the layout `s`. */
  ghost predicate Ok(d: seq<Cell>, s: Layout, x: nat, freeMem: nat, last: nat, head: nat) {
    && Heads(d, s, x)
    && PrevLinks(d, s, -1)
    && Begins(d, s)
    && FreeList(d, s, head)
    && LastElem(s, last, x)
    && Coalesced(s)
    && freeMem == FreeUnits(s, x)
  }

  lemma AppendOk(d: seq<Cell>, s: Layout, x: nat, freeMem: nat, last: nat, head: nat, n: U16, prevOff: U16,
      e: seq<Cell>)
    requires Ok(d, s, x, freeMem, last, head)
    requires x + n + 1 <= |d| && x < 0x1_0000
    requires prevOff == if last != 0 then x - last + 1 else 0
    requires last <= |d|
    requires e ==
      (if last != 0 then d[last - 1 := d[last - 1].(last := false)] else d)[x := Cell(false, true, n, prevOff, x)]
    ensures Ok(e, s[x := Elem(n, false)], x + n + 1, freeMem, x + 1, head)
    ensures Live(s[x := Elem(n, false)]) == Live(s)[x := n]
    ensures Kept(d, e, Live(s), Live(s)[x := n])
  {
    Append(s, x, n);
    HeadersOnly(d, e, s, x, Live(s)[x := n]);
    AppendHeads(d, s, x, last, n, e[x], e);
    AppendPrev(d, s, x, last, n, prevOff, e);
    FreeListSame(d, s, head, e, s[x := Elem(n, false)]);
  }

  /** Data units that belong to an element in use before and after are unchanged. */
  ghost predicate Kept(d: seq<Cell>, e: seq<Cell>, before: map<nat, nat>, after: map<nat, nat>) {
    && |d| == |e|
    && forall a: nat, u: nat {:trigger Owns(before, a, u), Owns(after, a, u)} ::
         Owns(before, a, u) && Owns(after, a, u) && u < |d| ==> e[u] == d[u]
  }

  /** Writing to headers only leaves the clients' data alone. */
  lemma HeadersOnly(d: seq<Cell>, e: seq<Cell>, s: Layout, x: nat, after: map<nat, nat>)
    requires Tiled(s, x) && |d| == |e|
    requires forall i {:trigger e[i]} :: 0 <= i < |d| && i !in s && i < x ==> e[i] == d[i]
    ensures Kept(d, e, Live(s), after)
  {
    forall a: nat, u: nat | Owns(Live(s), a, u)
      ensures u !in s && u < x
    {
      RegionsDisjoint(s, x, a, a, u);
    }
  }

  lemma OkBounds(d: seq<Cell>, s: Layout, x: nat, freeMem: nat, last: nat, head: nat)
    requires Ok(d, s, x, freeMem, last, head)
    ensures x <= |d| && last <= x && head <= x
    ensures last == 0 <==> x == 0
    ensures forall a :: a in s ==> a < x
  {
  }

  /** No element that starts in `[lo, hi)` is free. */
  ghost predicate NoFreeIn(s: Layout, lo: nat, hi: nat) {
    forall c: nat {:trigger IsFree(s, c)} :: IsFree(s, c) ==> !(lo <= c < hi)
  }

  /** While the element at `a` is being freed: it is marked, but may still have a free element behind
      it, and the header behind it may still point to an element that has been absorbed. */
  ghost predicate Freeing(d: seq<Cell>, s: Layout, x: nat, freeMem: nat, last: nat, head: nat, a: nat) {
    && Heads(d, s, x)
    && Begins(d, s)
    && FreeList(d, s, head)
    && LastElem(s, last, x)
    && freeMem == FreeUnits(s, x)
    && IsFree(s, a) && End(s, a) in s
    && PrevLinks(d, s, End(s, a))
    && forall b {:trigger End(s, b)} :: IsFree(s, b) && b != a ==> End(s, b) in s && !s[End(s, b)].free
  }

  lemma MarkLinks(d: seq<Cell>, s: Layout, x: nat, a: nat, e: seq<Cell>, skip: int)
    requires Heads(d, s, x) && PrevLinks(d, s, skip) && Begins(d, s)
    requires a in s && !s[a].free && |d| == |e|
    requires forall b {:trigger e[b]} :: b in s ==> e[b] == d[b].(link := e[b].link, free := e[b].free)
    requires forall b {:trigger e[b]} :: b in s && b != a ==>
      e[b].free == d[b].free && (e[b].link == d[b].link || d[b].free)
    requires e[a].free
    ensures var t := s[a := Elem(s[a].size, true)];
      Heads(e, t, x) && PrevLinks(e, t, skip) && Begins(e, t)
  {
    var t := s[a := Elem(s[a].size, true)];
    Mark(s, x, a);
    assert forall b {:trigger End(t, b)} :: b in s ==> End(t, b) == End(s, b);
    PrevLinksSame(d, s, skip, e, t);
  }

  lemma MarkFirst(d: seq<Cell>, s: Layout, head: nat, a: nat, link: U16, e: seq<Cell>)
    requires FreeList(d, s, head) && a in s && !s[a].free && a < |d| == |e|
    requires NoFreeIn(s, 0, a)
    requires link == if head == 0 then 0 else head - 1 - a
    requires e == d[a := d[a].(free := true, link := link)]
    ensures FreeList(e, s[a := Elem(s[a].size, true)], a + 1)
  {
    var t := s[a := Elem(s[a].size, true)];
    assert forall c: nat {:trigger IsFree(t, c)} :: IsFree(t, c) <==> IsFree(s, c) || c == a;
    forall c: nat | IsFree(t, c)
      ensures FreeLink(t, c, e[c].link)
    {
      assert c != a ==> a < c && FreeLink(s, c, d[c].link);
    }
  }

  lemma MarkAfter(d: seq<Cell>, s: Layout, head: nat, p: nat, a: nat, link: U16, e: seq<Cell>)
    requires FreeList(d, s, head) && a in s && !s[a].free && a < |d| == |e|
    requires IsFree(s, p) && p < a < 0x1_0000 && NoFreeIn(s, p + 1, a)
    requires link == if d[p].link == 0 then 0 else p + d[p].link - a
    requires e == d[a := d[a].(free := true, link := link)][p := d[p].(link := a - p)]
    ensures FreeList(e, s[a := Elem(s[a].size, true)], head)
  {
    var t := s[a := Elem(s[a].size, true)];
    assert forall c: nat {:trigger IsFree(t, c)} :: IsFree(t, c) <==> IsFree(s, c) || c == a;
    forall c: nat | IsFree(t, c)
      ensures FreeLink(t, c, e[c].link)
    {
      assert FreeLink(s, p, d[p].link);
      assert c != a ==> FreeLink(s, c, d[c].link);
      assert c < p ==> c + d[c].link <= p;
    }
  }

  /** The free element `b`, the first one behind `a`, leaves the free list. */
  lemma Unlink(d: seq<Cell>, s: Layout, head: nat, a: nat, b: nat, link: nat, e: seq<Cell>, t: Layout)
    requires FreeList(d, s, head) && |d| == |e|
    requires IsFree(s, a) && FirstFree(s, a + 1, b)
    requires b < |d| ==> link == if d[b].link == 0 then 0 else b + d[b].link - a
    requires forall c: nat {:trigger IsFree(t, c)} :: IsFree(t, c) <==> IsFree(s, c) && c != b
    requires forall c: nat {:trigger e[c]} :: IsFree(t, c) && c < |d| ==>
      e[c].link == if c == a then link else d[c].link
    ensures FreeList(e, t, head)
  {
    forall c: nat | IsFree(t, c)
      ensures FreeLink(t, c, e[c].link)
    {
      assert FreeLink(s, b, d[b].link);
      assert FreeLink(s, c, d[c].link);
      assert c < a ==> c + d[c].link <= a;
    }
  }

  /** The first free element leaves the free list. */
  lemma UnlinkFirst(d: seq<Cell>, s: Layout, head: nat, e: seq<Cell>, t: Layout, head': nat)
    requires FreeList(d, s, head) && |d| == |e| && 0 < head <= |d|
    requires head' == if d[head - 1].link == 0 then 0 else head + d[head - 1].link
    requires forall c: nat {:trigger IsFree(t, c)} :: IsFree(t, c) <==> IsFree(s, c) && c != head - 1
    requires forall c: nat {:trigger e[c]} :: IsFree(t, c) && c < |d| ==> e[c].link == d[c].link
    ensures FreeList(e, t, head')
  {
    assert FreeLink(s, head - 1, d[head - 1].link);
    forall c: nat | IsFree(t, c)
      ensures FreeLink(t, c, e[c].link)
    {
      assert FreeLink(s, c, d[c].link);
    }
  }

  /** An element that is not last and not behind a free one has been marked. */
  lemma Marked(d: seq<Cell>, s: Layout, x: nat, freeMem: nat, last: nat, head: nat, a: nat, e: seq<Cell>, head': nat)
    requires Ok(d, s, x, freeMem, last, head) && a in s && !s[a].free && |d| == |e|
    requires forall b {:trigger e[b]} :: b in s ==> e[b] == d[b].(link := e[b].link, free := e[b].free)
    requires forall b {:trigger e[b]} :: b in s && b != a ==>
      e[b].free == d[b].free && (e[b].link == d[b].link || d[b].free)
    requires e[a].free && End(s, a) < x
    requires forall p {:trigger Follows(s, p, a)} :: Follows(s, p, a) ==> !s[p].free
    requires FreeList(e, s[a := Elem(s[a].size, true)], head')
    ensures Freeing(e, s[a := Elem(s[a].size, true)], x, freeMem + s[a].size, last, head', a)
  {
    var t := s[a := Elem(s[a].size, true)];
    Mark(s, x, a);
    MarkLinks(d, s, x, a, e, -1);
    assert forall b {:trigger End(t, b)} :: b in s ==> End(t, b) == End(s, b);
    assert forall b {:trigger End(s, b)} :: IsFree(s, b) ==> !Follows(s, b, a);
  }

  lemma PrevInUse(d: seq<Cell>, s: Layout, x: nat, a: nat)
    requires Tiled(s, x) && PrevLinks(d, s, -1) && a in s && a > 0 && a < |d|
    requires 0 < d[a].prevOff <= a && a - d[a].prevOff in s ==> !s[a - d[a].prevOff].free
    ensures forall p {:trigger Follows(s, p, a)} :: Follows(s, p, a) ==> !s[p].free
  {
    assert PrevAt(s, a, d[a].prevOff);
    assert Follows(s, a - d[a].prevOff, a);
  }

  lemma MarkedFirst(d: seq<Cell>, s: Layout, x: nat, freeMem: nat, last: nat, head: nat, a: nat, link: U16,
      e: seq<Cell>)
    requires Ok(d, s, x, freeMem, last, head) && a in s && !s[a].free && End(s, a) < x
    requires NoFreeIn(s, 0, a) && a < |d| && link == if head == 0 then 0 else head - 1 - a
    requires e == d[a := d[a].(free := true, link := link)]
    ensures Freeing(e, s[a := Elem(s[a].size, true)], x, freeMem + s[a].size, last, a + 1, a)
    ensures forall i :: 0 <= i < |d| && i !in s ==> e[i] == d[i]
  {
    hide Ok, Heads, PrevLinks, Begins, FreeList, Tiled, Coalesced, Freeing;
    OkParts(d, s, x, freeMem, last, head);
    OkBounds(d, s, x, freeMem, last, head);
    MarkFirst(d, s, head, a, link, e);
    assert forall p {:trigger Follows(s, p, a)} :: Follows(s, p, a) ==> !IsFree(s, p);
    Marked(d, s, x, freeMem, last, head, a, e, a + 1);
  }

  lemma MarkedAfter(d: seq<Cell>, s: Layout, x: nat, freeMem: nat, last: nat, head: nat, p: nat, a: nat, link: U16,
                    e: seq<Cell>)
    requires Ok(d, s, x, freeMem, last, head) && a in s && !s[a].free && End(s, a) < x
    requires IsFree(s, p) && p < a < |d| && a < 0x1_0000 && NoFreeIn(s, p + 1, a)
    requires !s[a - d[a].prevOff].free
    requires link == if d[p].link == 0 then 0 else p + d[p].link - a
    requires e == d[a := d[a].(free := true, link := link)][p := d[p].(link := a - p)]
    ensures Freeing(e, s[a := Elem(s[a].size, true)], x, freeMem + s[a].size, last, head, a)
    ensures forall i :: 0 <= i < |d| && i !in s ==> e[i] == d[i]
  {
    hide Ok, Heads, PrevLinks, Begins, FreeList, Tiled, Coalesced, Freeing, NoFreeIn;
    OkParts(d, s, x, freeMem, last, head);
    OkBounds(d, s, x, freeMem, last, head);
    MarkAfter(d, s, head, p, a, link, e);
    PrevInUse(d, s, x, a);
    Marked(d, s, x, freeMem, last, head, a, e, head);
  }

  lemma UniteLinks(d: seq<Cell>, s: Layout, x: nat, p: nat, skip: int, n: U16, link: U16)
    requires Heads(d, s, x) && Begins(d, s) && PrevLinks(d, s, skip)
    requires IsFree(s, p) && IsFree(s, End(s, p)) && (skip == -1 || skip == End(s, p))
    requires End(s, End(s, p)) in s
    requires p < |d| && n == s[p].size + s[End(s, p)].size + 1
    ensures var e := d[p := d[p].(nunits := n, link := link)];
      var t := United(s, p);
      Heads(e, t, x) && Begins(e, t) && PrevLinks(e, t, End(t, p))
  {
    Unite(s, x, p);
    var e := d[p := d[p].(nunits := n, link := link)];
    UnitePrev(d, s, x, p, skip, e);
  }

  lemma UnitePrev(d: seq<Cell>, s: Layout, x: nat, p: nat, skip: int, e: seq<Cell>)
    requires Tiled(s, x) && PrevLinks(d, s, skip) && |d| == |e|
    requires IsFree(s, p) && End(s, p) in s && (skip == -1 || skip == End(s, p))
    requires Tiled(United(s, p), x)
    requires forall c {:trigger e[c]} :: 0 <= c < |d| ==> e[c].prevOff == d[c].prevOff
    ensures PrevLinks(e, United(s, p), End(United(s, p), p))
  {
    hide Tiled;
    var t := United(s, p);
    var a := End(s, p);
    assert End(t, p) == End(s, a);
    forall b | b in t && b != End(t, p)
      ensures b < |e| && PrevAt(t, b, e[b].prevOff)
    {
      assert b < |d| && PrevAt(s, b, d[b].prevOff);
      if b > 0 {
        var q := b - d[b].prevOff;
        assert Follows(s, q, b);
        assert q != p && q != a;
        assert q in t && End(t, q) == b;
      }
    }
  }

  /** The element at `a` was behind a free one, which has absorbed it. */
  lemma Absorbed(d: seq<Cell>, s: Layout, x: nat, freeMem: nat, last: nat, head: nat, a: nat, p: nat, n: U16,
      e: seq<Cell>)
    requires Ok(d, s, x, freeMem, last, head) && a in s && !s[a].free && End(s, a) < x
    requires IsFree(s, p) && Follows(s, p, a) && a < |d| && n == s[p].size + s[a].size + 1
    requires e == d[a := d[a].(free := true, link := 0)][p := d[p].(nunits := n)]
    ensures var t := United(s[a := Elem(s[a].size, true)], p);
      Freeing(e, t, x, freeMem + s[a].size + 1, last, head, p) && Live(t) == Live(s) - {a}
  {
    hide Ok, FreeUnits, FreeList, Tiled, Coalesced, Heads, Begins, PrevLinks;
    OkParts(d, s, x, freeMem, last, head);
    OkBounds(d, s, x, freeMem, last, head);
    OkAt(d, s, x, freeMem, last, head, a);
    var m := s[a := Elem(s[a].size, true)];
    var c := d[a := d[a].(free := true, link := 0)];
    var t := United(m, p);
    Mark(s, x, a);
    MarkLinks(d, s, x, a, c, -1);
    assert End(m, p) == a && End(m, a) == End(s, a) && End(s, a) in s by {
      AbsorbedEnd(s, x, a, p);
    }
    Unite(m, x, p);
    UniteLinks(c, m, x, p, -1, n, c[p].link);
    assert e == c[p := c[p].(nunits := n, link := c[p].link)];
    AbsorbedList(d, s, head, a, p, e, t);
    AbsorbedApart(s, x, a, p, t);
    AbsorbedLast(d, s, x, freeMem, last, head, a, p, t);
  }

  lemma AbsorbedEnd(s: Layout, x: nat, a: nat, p: nat)
    requires Tiled(s, x) && a in s && End(s, a) < x && Follows(s, p, a)
    ensures End(s, a) in s && p != a
  {
  }

  lemma AbsorbedList(d: seq<Cell>, s: Layout, head: nat, a: nat, p: nat, e: seq<Cell>, t: Layout)
    requires FreeList(d, s, head) && |d| == |e| && IsFree(s, p) && Follows(s, p, a)
    requires a in s && !s[a].free && t == United(s[a := Elem(s[a].size, true)], p)
    requires a < |d| && forall c: nat {:trigger e[c]} :: c < |d| && c != a ==> e[c].link == d[c].link
    ensures FreeList(e, t, head)
  {
    hide FreeList;
    FreeListSame(d, s, head, e, t);
  }

  lemma AbsorbedApart(s: Layout, x: nat, a: nat, p: nat, t: Layout)
    requires Tiled(s, x) && Coalesced(s) && IsFree(s, p) && Follows(s, p, a) && a in s && !s[a].free && End(s, a) < x
    requires t == United(s[a := Elem(s[a].size, true)], p)
    ensures IsFree(t, p) && End(t, p) in t
    ensures forall b {:trigger End(t, b)} :: IsFree(t, b) && b != p ==> End(t, b) in t && !t[End(t, b)].free
  {
    assert forall b {:trigger End(t, b)} :: b in t && b != p ==> End(t, b) == End(s, b);
    assert End(t, p) == End(s, a);
  }

  lemma AbsorbedLast(d: seq<Cell>, s: Layout, x: nat, freeMem: nat, last: nat, head: nat, a: nat, p: nat, t: Layout)
    requires Ok(d, s, x, freeMem, last, head) && a in s && End(s, a) < x && IsFree(s, p) && Follows(s, p, a)
    requires t == United(s[a := Elem(s[a].size, true)], p)
    ensures LastElem(t, last, x) && freeMem == FreeUnits(s, x)
  {
    hide FreeList, FreeUnits, Heads, Begins, PrevLinks;
  }

  /** A free element being freed absorbs the free element behind it. */
  lemma AbsorbedNext(d: seq<Cell>, s: Layout, x: nat, freeMem: nat, last: nat, head: nat, a: nat, n: U16, link: U16,
      e: seq<Cell>)
    requires Freeing(d, s, x, freeMem, last, head, a) && IsFree(s, End(s, a))
    requires End(s, a) < |d| && n == s[a].size + s[End(s, a)].size + 1
    requires link == if d[End(s, a)].link == 0 then 0 else End(s, a) + d[End(s, a)].link - a
    requires e == d[a := d[a].(nunits := n, link := link)]
    ensures var t := United(s, a);
      && Freeing(e, t, x, freeMem + 1, last, head, a) && Live(t) == Live(s)
      && !IsFree(t, End(t, a))
  {
    var b := End(s, a);
    var t := United(s, a);
    assert End(s, b) in s && !s[End(s, b)].free;
    Unite(s, x, a);
    UniteLinks(d, s, x, a, b, n, link);
    Unlink(d, s, head, a, b, link, e, t);
  }

  /** The header behind the freed element points back to it again. */
  lemma PrevFixed(d: seq<Cell>, s: Layout, x: nat, freeMem: nat, last: nat, head: nat, a: nat, e: seq<Cell>)
    requires Freeing(d, s, x, freeMem, last, head, a) && !IsFree(s, End(s, a))
    requires End(s, a) < |d| && End(s, a) - a < 0x1_0000
    requires e == d[End(s, a) := d[End(s, a)].(prevOff := End(s, a) - a)]
    ensures Ok(e, s, x, freeMem, last, head)
  {
    var b := End(s, a);
    assert PrevLinks(e, s, -1) by {
      assert Follows(s, a, b);
    }
    FreeListSame(d, s, head, e, s);
  }

  /** Everything from `y` on has been given back to the untouched space at the end of the block. */
  lemma Truncated(d: seq<Cell>, s: Layout, x: nat, freeMem: nat, last: nat, head: nat, y: nat, a: nat, last': nat,
                  head': nat, e: seq<Cell>)
    requires Ok(d, s, x, freeMem, last, head)
    requires a in s && !s[a].free && End(s, a) == x
    requires y == a || (IsFree(s, y) && End(s, y) == a)
    requires 0 < last' <= |d| == |e| && Follows(s, last' - 1, y) && !s[last' - 1].free
    requires FreeList(e, Below(s, y), head')
    requires forall b {:trigger e[b]} :: b in s && b < y ==> e[b] == d[b].(last := e[b].last, link := e[b].link)
    requires forall b {:trigger e[b]} :: b in s && b < y ==>
      (e[b].last <==> b == last' - 1) && (!s[b].free ==> e[b].link == d[b].link)
    ensures FreeSize(s, y) <= freeMem
    ensures Ok(e, Below(s, y), y, freeMem - FreeSize(s, y), last', head')
    ensures Live(Below(s, y)) == Live(s) - {a}
  {
    var t := Below(s, y);
    var z := last' - 1;
    assert y in s;
    assert z < y;
    assert forall b {:trigger End(s, b)} :: b in s && b != z ==> End(s, b) != y;
    Truncate(s, x, y, a);
    assert forall b {:trigger End(t, b)} :: b in t ==> End(t, b) == End(s, b);
    assert PrevLinks(e, t, -1) by {
      PrevBelow(d, s, y, e);
    }
    assert Heads(e, t, y);
  }

  /** The last element has been freed, and the one in front of it, at `last' - 1`, is in use. */
  lemma TruncatedAlone(d: seq<Cell>, s: Layout, x: nat, freeMem: nat, last: nat, head: nat, a: nat, last': nat)
    requires Ok(d, s, x, freeMem, last, head)
    requires a in s && !s[a].free && End(s, a) == x
    requires 0 < last' <= |d| && Follows(s, last' - 1, a) && !s[last' - 1].free
    ensures var e := d[last' - 1 := d[last' - 1].(last := true)];
      Ok(e, Below(s, a), a, freeMem, last', head) && Kept(d, e, Live(s), Live(Below(s, a)))
    ensures Live(Below(s, a)) == Live(s) - {a}
  {
    var e := d[last' - 1 := d[last' - 1].(last := true)];
    FreeListBelow(d, s, x, head, e, a);
    Truncated(d, s, x, freeMem, last, head, a, a, last', head, e);
    HeadersOnly(d, e, s, x, Live(Below(s, a)));
  }

  /** The last element has been freed, and with it the free one in front of it, at `y`. */
  lemma TruncatedBoth(d: seq<Cell>, s: Layout, x: nat, freeMem: nat, last: nat, head: nat, y: nat, a: nat, last': nat,
                      head': nat, c: seq<Cell>, e: seq<Cell>)
    requires Ok(d, s, x, freeMem, last, head)
    requires a in s && !s[a].free && End(s, a) == x && IsFree(s, y) && End(s, y) == a
    requires 0 < last' <= |d| && Follows(s, last' - 1, y) && !s[last' - 1].free
    requires c == d[last' - 1 := d[last' - 1].(last := true)] && |e| == |d|
    requires FreeList(e, Below(s, y), head')
    requires forall i {:trigger e[i]} :: 0 <= i < |e| ==>
      (!IsFree(s, i) ==> e[i] == c[i]) && e[i] == c[i].(link := e[i].link)
    ensures FreeSize(s, y) <= freeMem
    ensures Ok(e, Below(s, y), y, freeMem - FreeSize(s, y), last', head') && Kept(d, e, Live(s), Live(Below(s, y)))
    ensures Live(Below(s, y)) == Live(s) - {a}
  {
    hide Ok, Heads, PrevLinks, Begins, FreeList, Tiled, Coalesced, Kept;
    OkBounds(d, s, x, freeMem, last, head);
    OkParts(d, s, x, freeMem, last, head);
    Truncated(d, s, x, freeMem, last, head, y, a, last', head', e);
    HeadersOnly(d, e, s, x, Live(Below(s, y)));
  }

  lemma PrevBelow(d: seq<Cell>, s: Layout, y: nat, e: seq<Cell>)
    requires PrevLinks(d, s, -1) && |d| == |e|
    requires forall b {:trigger e[b]} :: b in s && b < y && b < |d| ==> e[b].prevOff == d[b].prevOff
    ensures PrevLinks(e, Below(s, y), -1)
  {
    var t := Below(s, y);
    assert forall b {:trigger End(t, b)} :: b in t ==> End(t, b) == End(s, b);
    forall b | b in t
      ensures b < |e| && PrevAt(t, b, e[b].prevOff)
    {
      assert b < |d| && PrevAt(s, b, d[b].prevOff);
      assert b > 0 ==> Follows(s, b - d[b].prevOff, b) && Follows(t, b - d[b].prevOff, b);
    }
  }

  /** What a well-formed block says at the header of the element at `a`. */
  lemma OkAt(d: seq<Cell>, s: Layout, x: nat, freeMem: nat, last: nat, head: nat, a: nat)
    requires Ok(d, s, x, freeMem, last, head) && a in s
    ensures a < End(s, a) <= x <= |d|
    ensures d[a].nunits == s[a].size && d[a].free == s[a].free && (d[a].last <==> End(s, a) == x)
    ensures PrevAt(s, a, d[a].prevOff)
    ensures !s[a].free ==> d[a].link == a
    ensures s[a].free ==> FreeLink(s, a, d[a].link) && 0 < head <= a + 1 && IsFree(s, head - 1)
    ensures s[a].free ==> End(s, a) in s && !s[End(s, a)].free
  {
  }

  lemma OkParts(d: seq<Cell>, s: Layout, x: nat, freeMem: nat, last: nat, head: nat)
    requires Ok(d, s, x, freeMem, last, head)
    ensures Heads(d, s, x) && PrevLinks(d, s, -1) && Begins(d, s) && FreeList(d, s, head)
    ensures Tiled(s, x) && Coalesced(s) && freeMem == FreeUnits(s, x)
  {
  }

  lemma OkTotal(d: seq<Cell>, s: Layout, x: nat, freeMem: nat, last: nat, head: nat)
    requires Ok(d, s, x, freeMem, last, head)
    ensures freeMem == FreeUnits(s, x)
  {
  }

  /** A block with elements has one in use. */
  lemma SomeLive(d: seq<Cell>, s: Layout, x: nat, freeMem: nat, last: nat, head: nat)
    requires Ok(d, s, x, freeMem, last, head) && x > 0
    ensures Live(s) != map[]
  {
    var a := LiveAtOrAfter(s, x, 0);
  }

  /** A free element in front of the last element is the last free one. */
  lemma NoneFreeBehind(s: Layout, x: nat, y: nat, a: nat)
    requires Tiled(s, x) && IsFree(s, y) && Follows(s, y, a)
    requires a in s && !s[a].free && End(s, a) == x
    ensures NoneFree(s, y + 1)
  {
    assert End(s, y) <= a < End(s, a);
  }

  /** Dropping an element in use from the end leaves the free list alone. */
  lemma FreeListBelow(d: seq<Cell>, s: Layout, x: nat, head: nat, e: seq<Cell>, a: nat)
    requires FreeList(d, s, head) && |d| == |e|
    requires Tiled(s, x) && a in s && !s[a].free && End(s, a) == x
    requires forall b: nat {:trigger e[b]} :: IsFree(s, b) && b < |d| ==> e[b].link == d[b].link
    ensures FreeList(e, Below(s, a), head)
  {
    var t := Below(s, a);
    assert End(s, a) <= x;
    assert forall b: nat {:trigger IsFree(t, b)} :: IsFree(s, b) == IsFree(t, b);
    FreeListSame(d, s, head, e, t);
  }

  /** Nothing is left when the last element is the first one, or only has a free one in front of it. */
  lemma NothingLeft(s: Layout, x: nat, y: nat, a: nat)
    requires Tiled(s, x) && a in s && !s[a].free && End(s, a) == x
    requires (y == a == 0) || (y == 0 && IsFree(s, y) && Follows(s, y, a))
    ensures Live(s).Keys == {a} && Below(s, y) == map[]
  {
    assert y <= a && End(s, a) == x && (y < a ==> End(s, y) == a);
    assert forall b :: b in s ==> b == a || (b == y && s[b].free);
    assert a in Live(s);
  }

  /** The last free element leaves the free list, together with everything behind it. */
  lemma DropLast(d: seq<Cell>, s: Layout, head: nat, y: nat, q: nat, e: seq<Cell>)
    requires FreeList(d, s, head) && |d| == |e|
    requires IsFree(s, q) && FirstFree(s, q + 1, y) && NoneFree(s, y + 1)
    requires q < |e| ==> e[q].link == 0
    requires forall c: nat {:trigger e[c]} :: IsFree(s, c) && c < |d| && c < q ==> e[c].link == d[c].link
    ensures FreeList(e, Below(s, y), head)
  {
    var t := Below(s, y);
    assert forall c: nat {:trigger IsFree(t, c)} :: IsFree(t, c) <==> IsFree(s, c) && c < y;
    forall c: nat | IsFree(t, c)
      ensures FreeLink(t, c, e[c].link)
    {
      assert FreeLink(s, c, d[c].link);
    }
  }

  lemma NextBeyond(s: Layout, q: nat, a: nat, link: nat)
    requires IsFree(s, q) && q < a && NoFreeIn(s, q + 1, a) && !IsFree(s, a) && FreeLink(s, q, link)
    ensures link > 0 ==> q + link > a
  {
  }

  lemma HeadBeyond(d: seq<Cell>, s: Layout, head: nat, a: nat)
    requires FreeList(d, s, head) && NoFreeIn(s, 0, a) && !IsFree(s, a)
    ensures head == 0 || head > a + 1
  {
  }

  lemma NoFreeInEmpty(s: Layout, a: nat)
    ensures NoFreeIn(s, a, a) && NoFreeIn(s, a + 1, a) && NoFreeIn(s, 0, 0)
  {
  }

  /** One step back over an element that is not free. */
  lemma StepBack(s: Layout, x: nat, p: int, q: nat, a: nat)
    requires Tiled(s, x) && q in s && !s[q].free && NoFreeIn(s, q + 1, a)
    requires p == -1 ==> q == 0
    requires p >= 0 ==> Follows(s, p, q)
    requires p >= -1
    ensures NoFreeIn(s, p + 1, a)
  {
    assert p >= 0 ==> End(s, p) == q;
  }

  lemma FreeingAt(d: seq<Cell>, s: Layout, x: nat, freeMem: nat, last: nat, head: nat, a: nat)
    requires Freeing(d, s, x, freeMem, last, head, a)
    ensures Tiled(s, x) && IsFree(s, a) && End(s, a) in s
    ensures a < End(s, a) < x <= |d| && End(s, End(s, a)) <= x
    ensures d[a].nunits == s[a].size && d[a].free && !d[a].last
    ensures d[End(s, a)].free == s[End(s, a)].free && d[End(s, a)].nunits == s[End(s, a)].size
    ensures IsFree(s, End(s, a)) ==> freeMem + 1 <= x && End(s, a) + d[End(s, a)].link < x
  {
    var b := End(s, a);
    assert End(s, b) <= x;
    if IsFree(s, b) {
      Unite(s, x, a);
      FreeUnitsBound(United(s, a), x, x);
      assert FreeLink(s, b, d[b].link);
    }
  }

  /** A new free element is being cut off behind the element in use at `a`: its header holds its
      size, but it is neither marked nor linked yet. */
  ghost predicate Splitting(d: seq<Cell>, s: Layout, x: nat, last: nat, head: nat, a: nat, b: nat) {
    && Tiled(s, x) && x <= |d|
    && a in s && !s[a].free && End(s, a) == b
    && IsFree(s, b) && End(s, b) in s
    && d[b].nunits == s[b].size
    && (forall c {:trigger d[c]} :: c in s && c != b ==>
          d[c].nunits == s[c].size && d[c].free == s[c].free && d[c].last == (End(s, c) == x))
    && (forall c {:trigger d[c].prevOff} :: c in s && c != b && c != End(s, b) ==> PrevAt(s, c, d[c].prevOff))
    && Begins(d, s)
    && FreeList(d, s - {b}, head)
    && LastElem(s, last, x)
    && (forall c {:trigger End(s, c)} :: IsFree(s, c) && c != b ==> End(s, c) in s && !s[End(s, c)].free)
  }

  /** The layout after the new free element at `b` has absorbed a free element behind it. */
  ghost function Merged(s: Layout, b: nat): Layout
    requires b in s && End(s, b) in s
  {
    if IsFree(s, End(s, b)) then United(s, b) else s
  }

  lemma MergedLayout(d: seq<Cell>, s: Layout, x: nat, last: nat, head: nat, a: nat, b: nat)
    requires Splitting(d, s, x, last, head, a, b)
    ensures b in s && End(s, b) in s
    ensures var t := Merged(s, b);
      && Tiled(t, x) && Coalesced(t) && LastElem(t, last, x)
      && IsFree(t, b) && End(t, b) in t && End(t, b) in s && !t[End(t, b)].free
      && a in t && a < b && End(t, b) < x <= |d| && End(s, a) == b && End(t, a) == b
      && (forall c {:trigger End(t, c)} :: c in t && c != b ==> c in s && t[c] == s[c] && End(t, c) == End(s, c))
      && Live(t) == Live(s)
      && (t == s || t == United(s, b))
      && FreeUnits(t, x) == FreeUnits(s, x) + (if IsFree(s, End(s, b)) then 1 else 0)
  {
    if IsFree(s, End(s, b)) {
      Unite(s, x, b);
    }
  }

  lemma SplitList(d: seq<Cell>, u: Layout, head: nat, q: int, b: nat, gone: nat, link: nat, f: seq<Cell>, t: Layout)
    requires FreeList(d, u, head) && |d| == |f| && b < |d|
    requires -1 <= q < b && NoFreeIn(u, q + 1, b + 1)
    requires q >= 0 ==> IsFree(u, q)
    requires b < gone && NoFreeIn(u, b, gone)
    requires forall c: nat {:trigger IsFree(t, c)} :: IsFree(t, c) <==> (IsFree(u, c) && c != gone) || c == b
    requires FreeLink(t, b, link)
    requires f[b].link == link && (q >= 0 ==> f[q].link == b - q)
    requires forall c: nat {:trigger f[c]} :: IsFree(u, c) && c < |d| && c != q && c != gone ==> f[c].link == d[c].link
    ensures FreeList(f, t, if q == -1 then b + 1 else head)
  {
    forall c: nat | IsFree(t, c)
      ensures FreeLink(t, c, f[c].link)
    {
      if c != b {
        assert FreeLink(u, c, d[c].link);
        assert c < q ==> 0 < d[c].link && c + d[c].link <= q;
      }
    }
  }

  /** The headers once the new free element at `b` is complete. */
  ghost function SplitCells(d: seq<Cell>, t: Layout, a: nat, b: nat, q: int, link: U16): seq<Cell>
    requires b in t && a < b < End(t, b) < |d| < 0x1_0000 && -1 <= q < b
  {
    var c := d[b := Cell(true, false, t[b].size, b - a, link)];
    var c := if q >= 0 then c[q := c[q].(link := b - q)] else c;
    var next := End(t, b);
    c[next := c[next].(prevOff := next - b)]
  }

  lemma SplitCellsAt(d: seq<Cell>, t: Layout, a: nat, b: nat, q: int, link: U16)
    requires b in t && a < b < End(t, b) < |d| < 0x1_0000 && -1 <= q < b
    ensures var f := SplitCells(d, t, a, b, q, link);
      && |f| == |d|
      && f[b] == Cell(true, false, t[b].size, b - a, link)
      && f[End(t, b)].prevOff == End(t, b) - b
      && (q >= 0 ==> f[q].link == b - q)
      && (forall c {:trigger f[c]} :: 0 <= c < |d| && c != b ==>
            && f[c].nunits == d[c].nunits && f[c].free == d[c].free && f[c].last == d[c].last
            && (c != End(t, b) ==> f[c].prevOff == d[c].prevOff)
            && (c != q ==> f[c].link == d[c].link))
  {
  }

  lemma SplitHeads(d: seq<Cell>, s: Layout, x: nat, last: nat, head: nat, a: nat, b: nat, q: int, link: U16)
    requires Splitting(d, s, x, last, head, a, b) && |d| < 0x1_0000
    requires -1 <= q < b && (q >= 0 ==> IsFree(s, q))
    ensures var t := Merged(s, b);
      b in t && End(t, b) < |d| &&
      var f := SplitCells(d, t, a, b, q, link);
      Heads(f, t, x) && Begins(f, t)
  {
    hide Splitting, SplitCells, Tiled, Heads, Begins;
    MergedLayout(d, s, x, last, head, a, b);
    SplitHeadsOnly(d, s, x, last, head, a, b, q, link);
    SplitBegins(d, s, x, last, head, a, b, q, link);
  }

  lemma SplitHeadsOnly(d: seq<Cell>, s: Layout, x: nat, last: nat, head: nat, a: nat, b: nat, q: int, link: U16)
    requires Splitting(d, s, x, last, head, a, b) && |d| < 0x1_0000
    requires -1 <= q < b && (q >= 0 ==> IsFree(s, q))
    ensures var t := Merged(s, b);
      b in t && End(t, b) < |d| && Heads(SplitCells(d, t, a, b, q, link), t, x)
  {
    hide SplitCells, FreeList, FreeLink, LastElem, Begins, PrevAt;
    var t := Merged(s, b);
    MergedLayout(d, s, x, last, head, a, b);
    SplitCellsAt(d, t, a, b, q, link);
  }

  lemma SplitBegins(d: seq<Cell>, s: Layout, x: nat, last: nat, head: nat, a: nat, b: nat, q: int, link: U16)
    requires Splitting(d, s, x, last, head, a, b) && |d| < 0x1_0000
    requires -1 <= q < b && (q >= 0 ==> IsFree(s, q))
    ensures var t := Merged(s, b);
      b in t && End(t, b) < |d| && Begins(SplitCells(d, t, a, b, q, link), t)
  {
    hide SplitCells, FreeList, FreeLink, LastElem, PrevAt, Tiled;
    var t := Merged(s, b);
    MergedLayout(d, s, x, last, head, a, b);
    SplitCellsAt(d, t, a, b, q, link);
  }

  lemma SplitPrev(d: seq<Cell>, s: Layout, x: nat, last: nat, head: nat, a: nat, b: nat, q: int, link: U16)
    requires Splitting(d, s, x, last, head, a, b) && |d| < 0x1_0000
    requires -1 <= q < b
    ensures var t := Merged(s, b);
      b in t && End(t, b) < |d| &&
      PrevLinks(SplitCells(d, t, a, b, q, link), t, -1)
  {
    hide Splitting, Merged, SplitCells, Tiled, Coalesced, LastElem;
    MergedLayout(d, s, x, last, head, a, b);
    var t := Merged(s, b);
    var f := SplitCells(d, t, a, b, q, link);
    SplitCellsAt(d, t, a, b, q, link);
    assert Follows(t, b, End(t, b)) && Follows(t, a, b);
    forall c | c in t
      ensures c < |f| && PrevAt(t, c, f[c].prevOff)
    {
      if c != b && c != End(t, b) {
        SplitPrevAt(d, s, x, last, head, a, b, c);
        assert f[c].prevOff == d[c].prevOff;
      }
    }
  }

  lemma SplitPrevAt(d: seq<Cell>, s: Layout, x: nat, last: nat, head: nat, a: nat, b: nat, c: nat)
    requires Splitting(d, s, x, last, head, a, b)
    requires c in Merged(s, b) && c != b && c != End(Merged(s, b), b)
    ensures c < |d| && PrevAt(Merged(s, b), c, d[c].prevOff)
  {
    hide FreeList, FreeLink, LastElem, Begins, FreeUnits, Live;
    var t := Merged(s, b);
    MergedLayout(d, s, x, last, head, a, b);
    assert c in s && c != End(s, b);
    assert PrevAt(s, c, d[c].prevOff);
    if c > 0 {
      var p := c - d[c].prevOff;
      assert Follows(s, p, c);
      assert p != b;
      if p == End(s, b) {
        assert t == s;
      }
      assert p in t && End(t, p) == c;
    }
  }

  lemma SplitFreeList(d: seq<Cell>, s: Layout, x: nat, last: nat, head: nat, a: nat, b: nat, q: int, link: U16)
    requires Splitting(d, s, x, last, head, a, b) && |d| < 0x1_0000
    requires -1 <= q < a && NoFreeIn(s, q + 1, a)
    requires q >= 0 ==> IsFree(s, q)
    requires FreeLink(Merged(s, b), b, link)
    ensures var t := Merged(s, b);
      b in t && End(t, b) < |d| &&
      FreeList(SplitCells(d, t, a, b, q, link), t, if q == -1 then b + 1 else head)
  {
    hide SplitCells, Heads, PrevLinks, Begins, LastElem, FreeLink;
    var t := Merged(s, b);
    MergedLayout(d, s, x, last, head, a, b);
    var u := s - {b};
    var gone := if t == s then b + 1 else End(s, b);
    assert NoFreeIn(s, a, b) && NoFreeIn(s, b + 1, gone) by {
      assert End(s, a) == b && End(s, b) in s;
    }
    assert forall c: nat {:trigger IsFree(u, c)} :: IsFree(u, c) <==> IsFree(s, c) && c != b;
    assert forall c: nat {:trigger IsFree(t, c)} :: IsFree(t, c) <==> (IsFree(u, c) && c != gone) || c == b;
    SplitCellsAt(d, t, a, b, q, link);
    SplitList(d, u, head, q, b, gone, link, SplitCells(d, t, a, b, q, link), t);
  }

  /** The block is well formed again once the new free element is complete. */
  lemma SplitDone(d: seq<Cell>, s: Layout, x: nat, last: nat, head: nat, a: nat, b: nat, q: int, link: U16)
    requires Splitting(d, s, x, last, head, a, b) && |d| < 0x1_0000
    requires -1 <= q < a && NoFreeIn(s, q + 1, a)
    requires q >= 0 ==> IsFree(s, q)
    requires FreeLink(Merged(s, b), b, link)
    ensures var t := Merged(s, b);
      b in t && End(t, b) < |d| &&
      Ok(SplitCells(d, t, a, b, q, link), t, x, FreeUnits(t, x), last, if q == -1 then b + 1 else head)
  {
    hide Splitting, SplitCells, Heads, PrevLinks, Begins, LastElem, FreeLink, FreeList, Merged, Coalesced, Tiled;
    MergedLayout(d, s, x, last, head, a, b);
    SplitHeads(d, s, x, last, head, a, b, q, link);
    SplitPrev(d, s, x, last, head, a, b, q, link);
    SplitFreeList(d, s, x, last, head, a, b, q, link);
  }

  /** The header at `a` with its size set to `n`. */
  ghost function Resized(d: seq<Cell>, a: nat, n: U16): seq<Cell>
    requires a < |d|
  {
    d[a := d[a].(nunits := n)]
  }

  lemma SplittingAt(d: seq<Cell>, s: Layout, x: nat, last: nat, head: nat, a: nat, b: nat)
    requires Splitting(d, s, x, last, head, a, b)
    ensures Tiled(s, x) && a in s && !s[a].free && b in s && End(s, b) in s
    ensures a < b < End(s, b) < End(s, End(s, b)) <= x <= |d|
    ensures d[b].nunits == s[b].size
    ensures var c := End(s, b);
      d[c].nunits == s[c].size && d[c].free == s[c].free &&
        (s[c].free ==> !d[c].last && c + d[c].link < x && End(s, c) < x)
    ensures head <= x && (0 < head <= a + 1 ==> IsFree(s, head - 1)) && head != a + 1
    ensures head == 0 || a < head ==> NoFreeIn(s, 0, a)
    ensures BackLinks(d, s, a)
  {
    var u := s - {b};
    assert forall c: nat {:trigger IsFree(u, c)} :: IsFree(u, c) <==> IsFree(s, c) && c != b;
    var c := End(s, b);
    assert End(s, c) <= x && a < b;
    assert head == 0 || a < head ==> NoFreeIn(s, 0, a) by {
      assert forall c: nat {:trigger IsFree(s, c)} :: IsFree(s, c) && c < a ==> IsFree(u, c);
    }
    if s[c].free {
      assert FreeLink(u, c, d[c].link);
    }
  }

  /** Every header up to `a` leads back to the one before it, and says whether it is free. */
  ghost predicate BackLinks(d: seq<Cell>, s: Layout, a: nat) {
    a < |d| && forall c {:trigger d[c]} :: c in s && c <= a ==>
      PrevAt(s, c, d[c].prevOff) && (c < a ==> d[c].free == s[c].free)
  }

  lemma BackLinksAt(d: seq<Cell>, s: Layout, a: nat, c: nat)
    requires BackLinks(d, s, a) && c in s && c <= a
    ensures c < |d| && PrevAt(s, c, d[c].prevOff) && (c < a ==> d[c].free == s[c].free)
  {
  }

  lemma AfterElem(s: Layout, x: nat, b: nat)
    requires Tiled(s, x) && b in s
    ensures NoFreeIn(s, b + 1, End(s, b))
  {
  }

  /** One step forward over an element that is not free. */
  lemma StepForward(s: Layout, x: nat, b: nat, c: nat)
    requires Tiled(s, x) && c in s && !s[c].free && NoFreeIn(s, b + 1, c)
    ensures c < End(s, c) <= x && NoFreeIn(s, b + 1, End(s, c))
    ensures End(s, c) < x ==> End(s, c) in s
  {
  }

  lemma FoundNextFree(s: Layout, x: nat, b: nat, next: int)
    requires Tiled(s, x) && b in s && next >= -1 && NoFreeIn(s, b + 1, if next == -1 then x else next)
    requires next != -1 ==> IsFree(s, next) && b < next
    ensures FreeLink(s, b, if next == -1 then 0 else next - b)
  {
  }

  /** The headers from `b` on say what the layout says. */
  ghost predicate HeadsFrom(d: seq<Cell>, s: Layout, x: nat, b: nat) {
    && x <= |d|
    && Tiled(s, x)
    && forall c {:trigger d[c]} :: c in s && b <= c ==>
         d[c].nunits == s[c].size && d[c].free == s[c].free && (d[c].last <==> End(s, c) == x)
  }

  lemma SplitHeadsFrom(d: seq<Cell>, s: Layout, x: nat, last: nat, head: nat, a: nat, b: nat, e: seq<Cell>)
    requires Splitting(d, s, x, last, head, a, b) && |d| == |e|
    requires b < |d| && b in s && End(s, b) in s && e[b].nunits == Merged(s, b)[b].size && e[b].free && !e[b].last
    requires forall c {:trigger e[c]} :: b < c < |d| ==> e[c] == d[c].(prevOff := e[c].prevOff)
    ensures HeadsFrom(e, Merged(s, b), x, b)
  {
    MergedLayout(d, s, x, last, head, a, b);
    assert End(Merged(s, b), b) < x;
  }

  lemma OkBack(d: seq<Cell>, s: Layout, x: nat, freeMem: nat, last: nat, head: nat, a: nat, e: seq<Cell>)
    requires Ok(d, s, x, freeMem, last, head) && a in s && a < |d| && |e| == |d|
    requires forall c {:trigger e[c]} :: 0 <= c < a ==> e[c] == d[c]
    requires e[a].prevOff == d[a].prevOff
    ensures BackLinks(e, s, a)
  {
    assert a < x <= |d|;
    forall c | c in s && c <= a
      ensures PrevAt(s, c, e[c].prevOff) && (c < a ==> e[c].free == s[c].free)
    {
      assert PrevAt(s, c, d[c].prevOff);
    }
  }

  lemma BackLinksSame(d: seq<Cell>, e: seq<Cell>, s: Layout, a: nat)
    requires BackLinks(d, s, a) && |d| == |e|
    requires forall c {:trigger e[c]} :: 0 <= c <= a && c < |d| ==> e[c] == d[c].(nunits := e[c].nunits)
    ensures BackLinks(e, s, a)
  {
  }

  /** The stores that complete a new free element, all but its link. */
  ghost predicate NewCells(d: seq<Cell>, t: Layout, a: nat, b: nat, q: int, e: seq<Cell>) {
    && b in t && a < b < End(t, b) < |d| == |e| && |d| < 0x1_0000 && -1 <= q < a
    && e[b] == Cell(true, false, t[b].size, b - a, e[b].link)
    && e[End(t, b)] == d[End(t, b)].(prevOff := End(t, b) - b)
    && (q >= 0 ==> e[q] == d[q].(link := b - q))
    && (forall i {:trigger e[i]} :: 0 <= i < |d| && i != b && i != End(t, b) && i != q ==> e[i] == d[i])
  }

  lemma NewCellsStored(d: seq<Cell>, n: U16, s: Layout, x: nat, last: nat, head: nat, a: nat, b: nat, q: int,
                       c: seq<Cell>, e: seq<Cell>)
    requires |d| < 0x1_0000 && a < |d|
    requires Splitting(Resized(d, a, n), s, x, last, head, a, b)
    requires -1 <= q < a && b < |d|
    requires c == var c := d[b := d[b].(free := true, last := false, prevOff := b - a)];
      if q >= 0 then c[q := c[q].(link := b - q)] else c
    requires b + 1 + c[b].nunits < |d|
    requires var f := c[b + 1 + c[b].nunits];
      var m := if f.free then c[b].nunits + f.nunits + 1 else c[b].nunits;
      && m < 0x1_0000 && b < b + m + 1 < |d| == |e|
      && e == c[b := c[b].(nunits := m, link := e[b].link)][b + m + 1 := c[b + m + 1].(prevOff := m + 1)]
    ensures b in s && End(s, b) in s && NewCells(d, Merged(s, b), a, b, q, e)
    ensures c[b + 1 + c[b].nunits].free == IsFree(s, End(s, b))
  {
    hide Splitting, Tiled, BackLinks;
    SplittingAt(Resized(d, a, n), s, x, last, head, a, b);
  }

  lemma NewCellsHeads(d: seq<Cell>, n: U16, s: Layout, x: nat, last: nat, head: nat, a: nat, b: nat, q: int,
      e: seq<Cell>)
    requires |d| < 0x1_0000 && a < |d|
    requires Splitting(Resized(d, a, n), s, x, last, head, a, b)
    requires b in s && End(s, b) in s && NewCells(d, Merged(s, b), a, b, q, e)
    ensures HeadsFrom(e, Merged(s, b), x, b)
  {
    hide Splitting, HeadsFrom;
    SplitHeadsFrom(Resized(d, a, n), s, x, last, head, a, b, e);
  }

  lemma NewCellsDone(d: seq<Cell>, n: U16, s: Layout, x: nat, last: nat, head: nat, a: nat, b: nat, q: int,
                     e: seq<Cell>, link: U16)
    requires |d| < 0x1_0000 && a < |d|
    requires Splitting(Resized(d, a, n), s, x, last, head, a, b)
    requires b in s && End(s, b) in s && NewCells(d, Merged(s, b), a, b, q, e)
    requires NoFreeIn(s, q + 1, a) && (q >= 0 ==> IsFree(s, q))
    requires FreeLink(Merged(s, b), b, link)
    ensures var t := Merged(s, b);
      Ok(Resized(e[b := e[b].(link := link)], a, n), t, x, FreeUnits(t, x), last, if q == -1 then b + 1 else head)
    ensures forall i {:trigger e[i]} :: 0 <= i < |d| && i !in s ==> e[i] == d[i]
  {
    hide Splitting, Ok, NoFreeIn, FreeLink;
    var t := Merged(s, b);
    MergedLayout(Resized(d, a, n), s, x, last, head, a, b);
    SplitDone(Resized(d, a, n), s, x, last, head, a, b, q, link);
    assert Resized(e[b := e[b].(link := link)], a, n) == SplitCells(Resized(d, a, n), t, a, b, q, link);
  }

  lemma PrevLinksSame(d: seq<Cell>, s: Layout, skip: int, e: seq<Cell>, t: Layout)
    requires PrevLinks(d, s, skip) && |e| == |d|
    requires forall a: nat :: (a in s <==> a in t) && (a in s ==> t[a].size == s[a].size)
    requires forall a {:trigger e[a]} :: a in s && a < |d| ==> e[a].prevOff == d[a].prevOff
    ensures PrevLinks(e, t, skip)
  {
    forall a | a in t && a != skip
      ensures a < |e| && PrevAt(t, a, e[a].prevOff)
    {
      assert a < |d| && PrevAt(s, a, d[a].prevOff);
      assert a > 0 ==> Follows(s, a - d[a].prevOff, a) && Follows(t, a - d[a].prevOff, a);
    }
  }

  /** The free element at `a` has been unlinked and is handed out whole. */
  lemma TakenOk(d: seq<Cell>, s: Layout, x: nat, freeMem: nat, last: nat, head: nat, a: nat, e: seq<Cell>, head': nat)
    requires Ok(d, s, x, freeMem, last, head) && IsFree(s, a) && a < 0x1_0000 && |e| == |d|
    requires forall i {:trigger e[i]} :: 0 <= i < |d| && i != a ==>
      e[i] == d[i].(link := e[i].link) && (!IsFree(s, i) ==> e[i] == d[i])
    requires a < |d| ==> e[a] == d[a].(free := false, link := a)
    requires FreeList(e, s[a := Elem(s[a].size, false)], head')
    ensures s[a].size <= freeMem
    ensures var t := s[a := Elem(s[a].size, false)];
      && Ok(e, t, x, freeMem - s[a].size, last, head')
      && Live(t) == Live(s)[a := s[a].size]
      && Kept(d, e, Live(s), Live(t))
  {
    hide FreeList, Kept, FreeUnits;
    var t := s[a := Elem(s[a].size, false)];
    Take(s, x, a);
    HeadersOnly(d, e, s, x, Live(t));
    assert PrevLinks(e, t, -1) by {
      PrevLinksSame(d, s, -1, e, t);
    }
    assert Heads(e, t, x) && Begins(e, t) by {
      hide PrevLinks, Coalesced, LastElem;
    }
    assert LastElem(t, last, x) && Coalesced(t) by {
      hide PrevLinks, Heads, Begins;
    }
  }

  lemma OkHead(d: seq<Cell>, s: Layout, x: nat, freeMem: nat, last: nat, head: nat)
    requires Ok(d, s, x, freeMem, last, head)
    ensures if head == 0 then NoneFree(s, 0) else FirstFree(s, 0, head - 1)
  {
  }

  /** The last element grows into the untouched space behind it, or shrinks. */
  lemma ResizeLastOk(d: seq<Cell>, s: Layout, x: nat, freeMem: nat, last: nat, head: nat, a: nat, n: U16)
    requires Ok(d, s, x, freeMem, last, head)
    requires a in s && !s[a].free && End(s, a) == x && a + n + 1 <= |d|
    ensures var t := s[a := Elem(n, false)];
      var e := Resized(d, a, n);
      && Ok(e, t, a + n + 1, freeMem, last, head)
      && Live(t) == Live(s)[a := n] && Kept(d, e, Live(s), Live(t))
  {
    hide FreeList, Kept;
    var t := s[a := Elem(n, false)];
    var e := Resized(d, a, n);
    ResizeLast(s, x, a, n);
    PrevLinksLast(d, s, x, a, e, t);
    FreeListSame(d, s, head, e, t);
    HeadersOnly(d, e, s, x, Live(t));
  }

  lemma PrevLinksLast(d: seq<Cell>, s: Layout, x: nat, a: nat, e: seq<Cell>, t: Layout)
    requires Tiled(s, x) && PrevLinks(d, s, -1) && |e| == |d|
    requires a in s && End(s, a) == x && t.Keys == s.Keys
    requires forall b :: b in s && b != a ==> t[b] == s[b]
    requires forall b {:trigger e[b]} :: 0 <= b < |d| ==> e[b].prevOff == d[b].prevOff
    ensures PrevLinks(e, t, -1)
  {
    forall b | b in t
      ensures b < |e| && PrevAt(t, b, e[b].prevOff)
    {
      assert b < |d| && PrevAt(s, b, d[b].prevOff);
      if b > 0 {
        var p := b - d[b].prevOff;
        assert Follows(s, p, b);
        assert p != a;
        assert p in t && End(t, p) == b;
      }
    }
  }

  /** The headers say what the layout says, but for the size of the element at `a`. */
  ghost predicate HeadsBut(d: seq<Cell>, s: Layout, x: nat, a: nat) {
    && x <= |d|
    && Tiled(s, x)
    && forall c {:trigger d[c]} :: c in s ==>
         (c != a ==> d[c].nunits == s[c].size) && d[c].free == s[c].free && (d[c].last <==> End(s, c) == x)
  }

  /** The headers describe `s`, except for the size of the element in use at `a`, and except for
      the back link of the header behind it. */
  ghost predicate Growing(d: seq<Cell>, s: Layout, x: nat, last: nat, head: nat, a: nat) {
    && a in s && !s[a].free && s[a].size < 0x1_0000 && a < |d|
    && HeadsBut(d, s, x, a)
    && Begins(d, s)
    && FreeList(d, s, head)
    && LastElem(s, last, x)
    && Coalesced(s)
    && End(s, a) in s
    && PrevLinks(d, s, End(s, a))
  }

  /** The free element behind the one at `a` has left the free list. */
  lemma UnlinkedNext(d: seq<Cell>, s: Layout, x: nat, freeMem: nat, last: nat, head: nat, a: nat, e: seq<Cell>,
      head': nat)
    requires Ok(d, s, x, freeMem, last, head) && x < 0x1_0000
    requires a in s && !s[a].free && End(s, a) in s && s[End(s, a)].free && |e| == |d|
    requires forall i {:trigger e[i]} :: 0 <= i < |d| ==>
      e[i] == d[i].(link := e[i].link) && (!IsFree(s, i) ==> e[i] == d[i])
    requires FreeList(e, United(s, a), head')
    ensures Growing(e, United(s, a), x, last, head', a)
    ensures Live(United(s, a)) == Live(s)[a := United(s, a)[a].size]
    ensures FreeUnits(United(s, a), x) == freeMem - s[End(s, a)].size && freeMem < x
  {
    hide Ok, FreeList, Heads, Begins, PrevLinks, HeadsBut, Tiled;
    OkParts(d, s, x, freeMem, last, head);
    OkBounds(d, s, x, freeMem, last, head);
    Extend(s, x, a);
    FreeUnitsBound(s, x, x);
    ExtendPrev(d, s, x, a, e);
    ExtendHeads(d, s, x, a, e);
    ExtendLast(d, s, x, freeMem, last, head, a);
  }

  lemma ExtendLast(d: seq<Cell>, s: Layout, x: nat, freeMem: nat, last: nat, head: nat, a: nat)
    requires Ok(d, s, x, freeMem, last, head)
    requires a in s && !s[a].free && End(s, a) in s && s[End(s, a)].free
    ensures LastElem(United(s, a), last, x) && United(s, a)[a].size < x
  {
    UniteTiled(s, x, a);
    assert last > 0 ==> End(s, last - 1) == x;
    assert End(s, End(s, a)) in s;
    assert last > 0 ==> End(United(s, a), last - 1) == End(s, last - 1);
  }

  lemma ExtendHeads(d: seq<Cell>, s: Layout, x: nat, a: nat, e: seq<Cell>)
    requires Heads(d, s, x) && Begins(d, s) && Coalesced(s) && |d| == |e|
    requires a in s && !s[a].free && End(s, a) in s && s[End(s, a)].free
    requires forall i {:trigger e[i]} :: 0 <= i < |d| ==>
      e[i] == d[i].(link := e[i].link) && (!IsFree(s, i) ==> e[i] == d[i])
    ensures HeadsBut(e, United(s, a), x, a) && Begins(e, United(s, a))
  {
    UniteTiled(s, x, a);
    assert End(s, End(s, a)) in s;
  }

  lemma ExtendPrev(d: seq<Cell>, s: Layout, x: nat, a: nat, e: seq<Cell>)
    requires Tiled(s, x) && x <= |d| && PrevLinks(d, s, -1) && |d| == |e|
    requires a in s && End(s, a) in s
    requires forall c {:trigger e[c]} :: 0 <= c < |d| ==> e[c].prevOff == d[c].prevOff
    ensures PrevLinks(e, United(s, a), End(United(s, a), a))
  {
    UniteTiled(s, x, a);
    var t := United(s, a);
    var n := End(s, a);
    forall b | b in t && b != End(t, a)
      ensures b < |e| && PrevAt(t, b, e[b].prevOff)
    {
      assert b < |d| && PrevAt(s, b, d[b].prevOff);
      if b > 0 {
        var q := b - d[b].prevOff;
        assert Follows(s, q, b);
        assert q != a && q != n;
        assert q in t && End(t, q) == b;
      }
    }
  }

  /** The element has taken over the whole space, and the header behind it points back to it. */
  lemma GrownOk(d: seq<Cell>, s: Layout, x: nat, last: nat, head: nat, a: nat, e: seq<Cell>)
    requires Growing(d, s, x, last, head, a)
    requires End(s, a) < |d| && End(s, a) - a < 0x1_0000
    requires e == Resized(d, a, s[a].size)[End(s, a) := d[End(s, a)].(prevOff := End(s, a) - a)]
    ensures Ok(e, s, x, FreeUnits(s, x), last, head)
  {
    hide FreeUnits, Coalesced, LastElem, FreeList;
    var b := End(s, a);
    FreeListSame(d, s, head, e, s);
    assert Heads(e, s, x) && Begins(e, s) by {
      hide PrevLinks;
    }
    assert PrevLinks(e, s, -1) by {
      hide Heads, Begins;
      assert Follows(s, a, b);
    }
  }

  /** The end of the element at `a` is being cut off. */
  lemma CutSplitting(d: seq<Cell>, s: Layout, x: nat, last: nat, head: nat, a: nat, n: U16, m: U16)
    requires Growing(d, s, x, last, head, a)
    requires m + n + 1 == s[a].size && a + n + 1 < |d|
    ensures var b := a + n + 1;
      Splitting(Resized(d[b := d[b].(nunits := m)], a, n), Cut(s, a, n), x, last, head, a, b)
    ensures Tiled(s, x)
  {
    hide HeadsBut, PrevLinks, Tiled, Coalesced, FreeList, Begins, LastElem;
    var b := a + n + 1;
    var t := Cut(s, a, n);
    var e := Resized(d[b := d[b].(nunits := m)], a, n);
    CutHeads(d, s, x, last, a, n, e);
    CutTiled(s, x, a, n);
    assert forall c: nat {:trigger IsFree(t - {b}, c)} :: IsFree(s, c) == IsFree(t - {b}, c);
    FreeListSame(d, s, head, e, t - {b});
    CutPrev(d, s, x, a, n, e);
  }

  lemma CutHeads(d: seq<Cell>, s: Layout, x: nat, last: nat, a: nat, n: nat, e: seq<Cell>)
    requires HeadsBut(d, s, x, a) && Begins(d, s) && Coalesced(s) && |e| == |d|
    requires a in s && !s[a].free && End(s, a) in s && n + 1 <= s[a].size && a + n + 1 < |d|
    requires forall c {:trigger e[c]} :: 0 <= c < |d| ==> e[c] == d[c].(nunits := e[c].nunits)
    requires forall c {:trigger e[c]} :: 0 <= c < |d| && c != a && c != a + n + 1 ==> e[c] == d[c]
    requires e[a].nunits == n
    requires LastElem(s, last, x)
    ensures Begins(e, Cut(s, a, n)) && Tiled(s, x) && x <= |d|
    ensures LastElem(Cut(s, a, n), last, x)
    ensures var t := Cut(s, a, n);
      && (forall c {:trigger e[c]} :: c in t && c != a + n + 1 ==>
            c < |e| && e[c].nunits == t[c].size && e[c].free == t[c].free && e[c].last == (End(t, c) == x))
      && (forall c {:trigger End(t, c)} :: IsFree(t, c) && c != a + n + 1 ==> End(t, c) in t && !t[End(t, c)].free)
  {
    CutTiled(s, x, a, n);
    var t := Cut(s, a, n);
    assert End(s, a) < x;
    assert last > 0 ==> last - 1 != a && End(t, last - 1) == End(s, last - 1);
  }

  lemma CutPrev(d: seq<Cell>, s: Layout, x: nat, a: nat, n: nat, e: seq<Cell>)
    requires Tiled(s, x) && x <= |d| && a in s && !s[a].free && n + 1 <= s[a].size
    requires PrevLinks(d, s, End(s, a)) && |e| == |d|
    requires forall c {:trigger e[c]} :: 0 <= c < |d| ==> e[c].prevOff == d[c].prevOff
    ensures var t := Cut(s, a, n);
      forall c {:trigger e[c].prevOff} :: c in t && c != a + n + 1 && c != End(s, a) ==>
        c < |e| && PrevAt(t, c, e[c].prevOff)
  {
    CutTiled(s, x, a, n);
    var t := Cut(s, a, n);
    forall c | c in t && c != a + n + 1 && c != End(s, a)
      ensures c < |e| && PrevAt(t, c, e[c].prevOff)
    {
      assert c < |d| && PrevAt(s, c, d[c].prevOff);
      if c > 0 {
        var q := c - d[c].prevOff;
        assert Follows(s, q, c);
        assert q != a;
        assert q in t && End(t, q) == c;
      }
    }
  }

  lemma UnitedFree(s: Layout, a: nat)
    requires a in s && !s[a].free && End(s, a) in s
    ensures forall c: nat {:trigger IsFree(United(s, a), c)} :: IsFree(United(s, a), c) <==>
      IsFree(s, c) && c != End(s, a)
  {
  }

  /** The element behind one that is not last. */
  lemma NextInLayout(d: seq<Cell>, s: Layout, x: nat, freeMem: nat, last: nat, head: nat, a: nat)
    requires Ok(d, s, x, freeMem, last, head) && a in s && End(s, a) < x
    ensures var b := End(s, a);
      && b in s && b < |d|
      && d[b].nunits == s[b].size && d[b].free == s[b].free
      && End(s, b) <= x
      && (s[b].free ==> !d[b].last)
  {
    assert End(s, a) in s;
    assert End(s, End(s, a)) <= x;
  }

  /** Writing only to headers, old or new, leaves the clients' data alone. */
  lemma OnlyHeaders(d: seq<Cell>, e: seq<Cell>, s: Layout, x: nat, t: Layout, y: nat)
    requires Tiled(s, x) && Tiled(t, y) && |d| == |e|
    requires forall i {:trigger e[i]} :: 0 <= i < |d| && i !in s && i !in t ==> e[i] == d[i]
    ensures Kept(d, e, Live(s), Live(t))
  {
    forall a: nat, u: nat | Owns(Live(s), a, u) && Owns(Live(t), a, u)
      ensures u !in s && u !in t
    {
      RegionsDisjoint(s, x, a, a, u);
      RegionsDisjoint(t, y, a, a, u);
    }
  }

  lemma KeptOk(d: seq<Cell>, s: Layout, x: nat, freeMem: nat, last: nat, head: nat,
               e: seq<Cell>, t: Layout, y: nat, freeMem': nat, last': nat, head': nat)
    requires Ok(d, s, x, freeMem, last, head) && Ok(e, t, y, freeMem', last', head') && |d| == |e|
    requires forall i {:trigger e[i]} :: 0 <= i < |d| && i !in s && i !in t ==> e[i] == d[i]
    ensures Kept(d, e, Live(s), Live(t))
  {
    OnlyHeaders(d, e, s, x, t, y);
  }

  /** The element at `a` has the requested size, or one unit more; the others are as before. */
  ghost predicate HasSize(before: map<nat, nat>, after: map<nat, nat>, a: nat, n: nat) {
    a in after && n <= after[a] <= n + 1 && after == before[a := after[a]]
  }

  lemma SizedOnce(before: map<nat, nat>, after: map<nat, nat>, a: nat, k: nat, n: nat)
    requires after == before[a := k] && n <= k <= n + 1
    ensures HasSize(before, after, a, n)
  {
  }

  lemma SizedTwice(
      before: map<nat, nat>, mid: map<nat, nat>, after: map<nat, nat>, a: nat, m: nat, k: nat, n: nat)
    requires mid == before[a := m] && after == mid[a := k] && n <= k <= n + 1
    ensures HasSize(before, after, a, n)
  {
    assert after == before[a := k];
  }

  lemma GrowingAt(d: seq<Cell>, s: Layout, x: nat, last: nat, head: nat, a: nat)
    requires Growing(d, s, x, last, head, a)
    ensures a in s && a < End(s, a) < x <= |d| && End(s, a) in s && !d[a].last
  {
    assert End(s, End(s, a)) <= x;
  }

  /** The free element behind the one at `a`, and what is behind that. */
  lemma UnitedNext(d: seq<Cell>, s: Layout, x: nat, freeMem: nat, last: nat, head: nat, a: nat)
    requires Ok(d, s, x, freeMem, last, head)
    requires a in s && !s[a].free && End(s, a) in s && s[End(s, a)].free
    ensures var t := United(s, a);
      && a in t && End(t, a) == End(s, End(s, a)) && a < End(s, a) < End(t, a) < x <= |d|
      && !IsFree(t, End(t, a)) && t.Keys <= s.Keys
      && s[End(s, a)].size <= freeMem
  {
    UniteTiled(s, x, a);
    assert End(s, End(s, a)) in s;
    FreeSizeAtMost(s, End(s, a), x);
  }

  lemma GrowingOk(d: seq<Cell>, s: Layout, x: nat, freeMem: nat, last: nat, head: nat, a: nat)
    requires Ok(d, s, x, freeMem, last, head) && x < 0x1_0000
    requires a in s && !s[a].free && End(s, a) < x
    ensures Growing(d, s, x, last, head, a)
    ensures Tiled(s, x) && freeMem == FreeUnits(s, x) && freeMem < x
  {
    assert End(s, a) in s;
    FreeUnitsBound(s, x, x);
  }

  /** Only the headers matter. */
  lemma OkSame(d: seq<Cell>, s: Layout, x: nat, freeMem: nat, last: nat, head: nat, e: seq<Cell>)
    requires Ok(d, s, x, freeMem, last, head) && |d| == |e|
    requires forall a {:trigger e[a]} :: a in s && a < |d| ==> e[a] == d[a]
    ensures Ok(e, s, x, freeMem, last, head)
  {
    hide Heads, PrevLinks, Begins, FreeList, LastElem, Coalesced, FreeUnits;
    OkBounds(d, s, x, freeMem, last, head);
    HeadsSame(d, s, x, e);
    PrevLinksSame(d, s, -1, e, s);
    FreeListSame(d, s, head, e, s);
  }

  lemma HeadsSame(d: seq<Cell>, s: Layout, x: nat, e: seq<Cell>)
    requires Heads(d, s, x) && Begins(d, s) && |d| == |e|
    requires forall a {:trigger e[a]} :: a in s && a < |d| ==> e[a] == d[a]
    ensures Heads(e, s, x) && Begins(e, s)
  {
  }

  lemma LiveAt(s: Layout, a: nat)
    requires a in s && !s[a].free
    ensures a in Live(s) && Live(s) == Live(s)[a := s[a].size]
  {
  }
}
