/** One standard memory block: its fields and element headers, updated in place. */
module MemBlock {
  import opened BlockLayout
  import opened BlockHeaders

  /** The list node in front of a block. A raw node stands for one allocation of its own. */
  class MemLink {
    const isRaw: bool
    const blk: MemBlk?
    var mem: array<Cell>
    var pnext: MemLink?
    var pprev: MemLink?
    var pnextRaw: MemLink?

    constructor Std(b: MemBlk)
      ensures !isRaw && blk == b && mem == b.data
    {
      isRaw, blk, mem := false, b, b.data;
      pnext, pprev, pnextRaw := null, null, null;
    }

    constructor Raw(m: array<Cell>)
      ensures isRaw && blk == null && mem == m
    {
      isRaw, blk, mem := true, null, m;
      pnext, pprev, pnextRaw := null, null, null;
    }
  }

  class MemBlk {
    const data: array<Cell>
    const nunits: U16
    var plink: MemLink?
    var free_x: U16
    var freeMem: U16
    var lastElemOff: U16
    var freeElemOff: U16
    ghost var layout: Layout

    ghost predicate Valid()
      reads this, data
    {
      data.Length == nunits && Ok(data[..], layout, free_x, freeMem, lastElemOff, freeElemOff)
    }

    method AllocAtEnd(n: nat) returns (a: nat)
      requires Valid()
      requires n + 1 <= nunits - free_x
      modifies this`free_x, this`freeMem, this`lastElemOff, this`freeElemOff, this`layout, data
      ensures Valid()
      ensures a == old(free_x) && Live(layout) == Live(old(layout))[a := n]
      ensures Kept(old(data[..]), data[..], Live(old(layout)), Live(layout))
    {
      hide Ok;
      ghost var d0, s0 := data[..], layout;
      OkBounds(d0, s0, free_x, freeMem, lastElemOff, freeElemOff);
      a := free_x;
      var prevOff: U16 := if lastElemOff != 0 then free_x - lastElemOff + 1 else 0;
      if lastElemOff != 0 {
        data[lastElemOff - 1] := data[lastElemOff - 1].(last := false);
      }
      data[a] := Cell(false, true, n, prevOff, a);
      AppendOk(d0, s0, free_x, freeMem, lastElemOff, freeElemOff, n, prevOff, data[..]);
      lastElemOff := free_x + 1;
      free_x := free_x + n + 1;
      layout := layout[a := Elem(n, false)];
    }

    /** Header offset of the element in front of the one at `a`, or -1. */
    function GetPrev(a: nat): int
      reads data
      requires a < data.Length
    {
      if data[a].prevOff == 0 then -1 else a - data[a].prevOff
    }

    function GetNext(a: nat): int
      reads data
      requires a < data.Length
    {
      if data[a].last then -1 else a + data[a].nunits + 1
    }

    function GetNextFree(a: nat): int
      reads data
      requires a < data.Length
    {
      if data[a].link == 0 then -1 else a + data[a].link
    }

    function GetFreeElem(): int
      reads this
    {
      freeElemOff - 1
    }

    /** The last free element, at `y`, leaves the free list. */
    method DropLastFree(y: nat, ghost s: Layout)
      requires FreeList(data[..], s, freeElemOff)
      requires IsFree(s, y) && NoneFree(s, y + 1)
      modifies this`freeElemOff, data
      ensures FreeList(data[..], Below(s, y), freeElemOff)
      ensures forall i {:trigger data[i]} :: 0 <= i < data.Length && !IsFree(s, i) ==> data[i] == old(data[i])
      ensures forall i {:trigger data[i]} :: 0 <= i < data.Length ==> data[i] == old(data[i]).(link := data[i].link)
    {
      ghost var d := data[..];
      var f := GetFreeElem();
      if f == y {
        freeElemOff := 0;
        assert forall c: nat {:trigger IsFree(Below(s, y), c)} :: IsFree(Below(s, y), c) ==> IsFree(s, c) && c < y;
      } else {
        var q := -1;
        while f < y
          invariant data[..] == d
          invariant 0 <= f && IsFree(s, f)
          invariant -1 <= q < f <= y && (q >= 0 ==> IsFree(s, q) && FirstFree(s, q + 1, f))
          invariant q == -1 ==> f != y
          decreases y - f
        {
          assert f < |d| && FreeLink(s, f, d[f].link);
          q := f;
          f := GetNextFree(f);
        }
        data[q] := data[q].(link := 0);
        DropLast(d, s, freeElemOff, y, q, data[..]);
      }
    }

    /** The free element at `y`, in front of the last element, at `a`, goes back together with it. */
    method FreePrevOfLast(y: nat, a: nat, ghost d: seq<Cell>, ghost s: Layout, ghost x: nat, ghost last: nat)
      requires data.Length == nunits && data[..] == d && free_x == a
      requires Ok(d, s, x, freeMem, last, freeElemOff)
      requires a in s && !s[a].free && End(s, a) == x && IsFree(s, y) && End(s, y) == a
      modifies this`free_x, this`freeMem, this`lastElemOff, this`freeElemOff, data
      ensures free_x == y && (lastElemOff == 0 <==> y == 0)
      ensures lastElemOff == 0 ==> data[..] == d
      ensures lastElemOff != 0 ==>
        && Ok(data[..], Below(s, y), y, freeMem, lastElemOff, freeElemOff)
        && Kept(d, data[..], Live(s), Live(Below(s, y)))
        && Live(Below(s, y)) == Live(s) - {a}
    {
      hide Ok, Heads, PrevLinks, Begins, FreeList, Tiled, Coalesced, Kept, NoneFree;
      ghost var freeMem0, head0 := freeMem, freeElemOff;
      OkAt(d, s, x, freeMem, last, freeElemOff, y);
      OkParts(d, s, x, freeMem, last, freeElemOff);
      FreeSizeAtMost(s, y, x);
      free_x := free_x - (data[y].nunits + 1);
      freeMem := freeMem - data[y].nunits;
      var p := GetPrev(y);
      if p == -1 {
        lastElemOff := 0;
      } else {
        assert Follows(s, p, y);
        OkAt(d, s, x, freeMem0, last, freeElemOff, p);
        data[p] := data[p].(last := true);
        lastElemOff := p + 1;
        FreeListSame(d, s, freeElemOff, data[..], s);
        NoneFreeBehind(s, x, y, a);
        ghost var c := data[..];
        DropLastFree(y, s);
        TruncatedBoth(d, s, x, freeMem0, last, head0, y, a, lastElemOff, freeElemOff, c, data[..]);
      }
    }

    /** The last element goes back to the untouched space, and with it a free one in front of it. */
    method FreeLast(a: nat) returns (emptied: bool)
      requires Valid() && a in layout && !layout[a].free && End(layout, a) == free_x
      modifies this`free_x, this`freeMem, this`lastElemOff, this`freeElemOff, this`layout, data
      ensures if emptied then free_x == 0 && Live(old(layout)).Keys == {a} && layout == map[]
        else Valid() && free_x > 0 && Live(layout) == Live(old(layout)) - {a}
      ensures Kept(old(data[..]), data[..], Live(old(layout)), Live(layout))
    {
      hide Ok, Heads, PrevLinks, Begins, FreeList, Tiled, Coalesced, Kept, NoneFree;
      ghost var d0, s0, x0, freeMem0, last0, head0 := data[..], layout, free_x, freeMem, lastElemOff, freeElemOff;
      OkAt(d0, s0, x0, freeMem0, last0, head0, a);
      OkParts(d0, s0, x0, freeMem0, last0, head0);
      var prev := GetPrev(a);
      free_x := free_x - (data[a].nunits + 1);
      ghost var y := a;
      if prev != -1 {
        assert Follows(s0, prev, a);
        OkAt(d0, s0, x0, freeMem0, last0, head0, prev);
      }
      if prev != -1 && data[prev].free {
        y := prev;
        FreePrevOfLast(prev, a, d0, s0, x0, last0);
      } else if prev == -1 {
        lastElemOff := 0;
      } else {
        data[prev] := data[prev].(last := true);
        lastElemOff := prev + 1;
        TruncatedAlone(d0, s0, x0, freeMem0, last0, head0, a, lastElemOff);
      }
      emptied := lastElemOff == 0;
      layout := Below(s0, y);
      if emptied {
        NothingLeft(s0, x0, y, a);
        HeadersOnly(d0, data[..], s0, x0, Live(layout));
      }
    }

    method SetFreeElem(a: nat)
      requires a < nunits == data.Length && freeElemOff <= nunits && !data[a].last
      modifies this`freeElemOff, data
      ensures freeElemOff == if old(freeElemOff) == 0 || old(freeElemOff) > a + 1 then a + 1 else old(freeElemOff)
      ensures data[..] == old(data[..])[a := old(data[a]).(free := true,
        link := if old(freeElemOff) > a + 1 then old(freeElemOff) - 1 - a else 0)]
    {
      if freeElemOff > a + 1 {
        data[a] := data[a].(link := GetFreeElem() - a);
        data[a] := data[a].(free := true);
        freeElemOff := a + 1;
      } else if freeElemOff == 0 {
        data[a] := data[a].(link := 0);
        data[a] := data[a].(free := true);
        freeElemOff := a + 1;
      } else {
        data[a] := data[a].(free := true);
        data[a] := data[a].(link := 0);
      }
    }

    /** Looks for the nearest free element in front of `a` and links `a` behind it. */
    method LinkBehindNearest(a: nat, ghost d: seq<Cell>, ghost s: Layout, ghost freeMem': nat, ghost head: nat)
      requires a in s && data.Length == nunits && Ok(d, s, free_x, freeMem', lastElemOff, head)
      requires !s[a].free && End(s, a) < free_x
      requires a > 0 && !s[a - d[a].prevOff].free
      requires data[..] == d[a := d[a].(free := true, link := if head > a + 1 then head - 1 - a else 0)]
      requires freeElemOff == if head == 0 || head > a + 1 then a + 1 else head
      requires freeMem == FreeUnits(s, free_x) + s[a].size
      modifies data
      ensures Freeing(data[..], s[a := Elem(s[a].size, true)], free_x, freeMem, lastElemOff, freeElemOff, a)
      ensures forall i :: 0 <= i < data.Length && i !in s ==> data[i] == d[i]
    {
      hide Ok, Heads, PrevLinks, Begins, FreeList, Tiled, Coalesced, NoneFree, NoFreeIn, Freeing, BackLinks;
      OkAt(d, s, free_x, freeMem', lastElemOff, head, a);
      OkParts(d, s, free_x, freeMem', lastElemOff, head);
      OkBack(d, s, free_x, freeMem', lastElemOff, head, a, data[..]);
      var q := PrevFree(a, s, free_x);
      if q != -1 {
        OkAt(d, s, free_x, freeMem', lastElemOff, head, q);
        LinkBehind(q, a, d, s, freeMem', head);
      } else {
        HeadBeyond(d, s, head, a);
        MarkedFirst(d, s, free_x, freeMem', lastElemOff, head, a, data[a].link, data[..]);
      }
    }

    /** The element at `a` follows the one at `q` in the free list. */
    method LinkBehind(q: nat, a: nat, ghost d: seq<Cell>, ghost s: Layout, ghost freeMem': nat, ghost head: nat)
      requires a in s && data.Length == nunits && Ok(d, s, free_x, freeMem', lastElemOff, head)
      requires !s[a].free && End(s, a) < free_x && a < |d| == nunits
      requires a - d[a].prevOff in s && !s[a - d[a].prevOff].free
      requires q < a && IsFree(s, q) && NoFreeIn(s, q + 1, a)
      requires data[..] == d[a := data[a]] && data[a] == d[a].(free := true, link := data[a].link)
      requires freeElemOff == head && freeMem == freeMem' + s[a].size
      modifies data
      ensures Freeing(data[..], s[a := Elem(s[a].size, true)], free_x, freeMem, lastElemOff, freeElemOff, a)
      ensures forall i :: 0 <= i < data.Length && i !in s ==> data[i] == d[i]
    {
      hide Ok, Heads, PrevLinks, Begins, FreeList, Tiled, Coalesced, NoneFree, NoFreeIn, Freeing, BackLinks;
      OkAt(d, s, free_x, freeMem', lastElemOff, head, q);
      var next := GetNextFree(q);
      NextBeyond(s, q, a, d[q].link);
      data[a] := data[a].(link := if next != -1 then next - a else 0);
      data[q] := data[q].(link := a - q);
      MarkedAfter(d, s, free_x, freeMem', lastElemOff, head, q, a, data[a].link, data[..]);
    }

    /** The element at `a` becomes free: a free element in front of it absorbs it, or else it is
        linked behind the nearest free element in front of it. */
    method MarkFree(a: nat) returns (e: nat)
      requires Valid() && a in layout && !layout[a].free && End(layout, a) < free_x
      modifies this`freeElemOff, this`freeMem, this`layout, data
      ensures data.Length == nunits && Freeing(data[..], layout, free_x, freeMem, lastElemOff, freeElemOff, e)
      ensures Live(layout) == Live(old(layout)) - {a}
      ensures Kept(old(data[..]), data[..], Live(old(layout)), Live(layout))
    {
      hide Ok, Heads, PrevLinks, Begins, FreeList, Tiled, Coalesced, Kept, NoneFree, NoFreeIn, Freeing;
      ghost var d0, s0, x, freeMem0, last, head0 := data[..], layout, free_x, freeMem, lastElemOff, freeElemOff;
      OkAt(d0, s0, x, freeMem0, last, head0, a);
      OkBounds(d0, s0, x, freeMem0, last, head0);
      OkParts(d0, s0, x, freeMem0, last, head0);
      Mark(s0, x, a);
      layout := s0[a := Elem(s0[a].size, true)];
      FreeUnitsBound(layout, x, x);
      SetFreeElem(a);
      freeMem := freeMem + data[a].nunits;
      e := a;
      if data[a].prevOff != 0 {
        var p := GetPrev(a);
        OkAt(d0, s0, x, freeMem0, last, head0, p);
        if data[p].free {
          AbsorbIntoPrev(a, p, d0, s0, freeMem0, head0);
          e := p;
        } else {
          LinkBehindNearest(a, d0, s0, freeMem0, head0);
        }
      } else {
        NoFreeInEmpty(s0, 0);
        MarkedFirst(d0, s0, x, freeMem0, last, head0, a, data[a].link, data[..]);
      }
      HeadersOnly(d0, data[..], s0, x, Live(layout));
    }

    /** The free element in front of one that has just been marked takes it in. */
    method AbsorbIntoPrev(a: nat, p: nat, ghost d: seq<Cell>, ghost s: Layout, ghost freeMem': nat, ghost head: nat)
      requires a in s && data.Length == nunits && Ok(d, s, free_x, freeMem', lastElemOff, head)
      requires !s[a].free && End(s, a) < free_x && p in s && s[p].free && p < a && d[a].prevOff == a - p
      requires data[..] == d[a := d[a].(free := true, link := if head > a + 1 then head - 1 - a else 0)]
      requires freeElemOff == if head == 0 || head > a + 1 then a + 1 else head
      requires layout == s[a := Elem(s[a].size, true)] && freeMem == freeMem' + s[a].size
      modifies this`freeMem, this`layout, data
      ensures Freeing(data[..], layout, free_x, freeMem, lastElemOff, freeElemOff, p)
      ensures Live(layout) == Live(s) - {a}
      ensures forall i :: 0 <= i < data.Length && i !in s ==> data[i] == d[i]
    {
      hide Ok, Heads, PrevLinks, Begins, FreeList, Tiled, Coalesced, NoneFree, NoFreeIn, Freeing;
      OkParts(d, s, free_x, freeMem', lastElemOff, head);
      OkAt(d, s, free_x, freeMem', lastElemOff, head, a);
      OkAt(d, s, free_x, freeMem', lastElemOff, head, p);
      OkHead(d, s, free_x, freeMem', lastElemOff, head);
      Mark(s, free_x, a);
      Unite(layout, free_x, p);
      FreeUnitsBound(United(layout, p), free_x, free_x);
      data[p] := data[p].(nunits := data[p].nunits + data[a].nunits + 1);
      freeMem := freeMem + 1;
      layout := United(layout, p);
      Absorbed(d, s, free_x, freeMem', lastElemOff, head, a, p, data[p].nunits, data[..]);
    }

    /** The second part of freeing: the element behind is taken in if it is free, and the header behind
        that points back again.
     */
    method UniteWithNext(e: nat)
      requires data.Length == nunits && Freeing(data[..], layout, free_x, freeMem, lastElemOff, freeElemOff, e)
      modifies this`freeMem, this`layout, data
      ensures Valid() && Live(layout) == Live(old(layout))
      ensures Kept(old(data[..]), data[..], Live(old(layout)), Live(layout))
    {
      hide Ok, Kept, Tiled, Freeing;
      ghost var d0, s0 := data[..], layout;
      FreeingAt(d0, s0, free_x, freeMem, lastElemOff, freeElemOff, e);
      AbsorbNext(e);
      PointBack(e);
      HeadersOnly(d0, data[..], s0, free_x, Live(layout));
    }

    method AbsorbNext(e: nat)
      requires data.Length == nunits && Freeing(data[..], layout, free_x, freeMem, lastElemOff, freeElemOff, e)
      modifies this`freeMem, this`layout, data
      ensures Freeing(data[..], layout, free_x, freeMem, lastElemOff, freeElemOff, e)
      ensures e in layout && !IsFree(layout, End(layout, e)) && Live(layout) == Live(old(layout))
      ensures forall i :: i in layout ==> i in old(layout)
      ensures forall i :: 0 <= i < data.Length && i !in old(layout) ==> data[i] == old(data[i])
    {
      hide Ok, Heads, PrevLinks, Begins, FreeList, Tiled, Coalesced, NoneFree, NoFreeIn, Freeing;
      ghost var d, s := data[..], layout;
      FreeingAt(d, s, free_x, freeMem, lastElemOff, freeElemOff, e);
      if !data[e].last && data[GetNext(e)].free {
        var next := GetNext(e);
        data[e] := data[e].(nunits := data[e].nunits + data[next].nunits + 1);
        if data[next].link == 0 {
          data[e] := data[e].(link := 0);
        } else {
          data[e] := data[e].(link := GetNextFree(next) - e);
        }
        AbsorbedNext(d, s, free_x, freeMem, lastElemOff, freeElemOff, e, data[e].nunits, data[e].link, data[..]);
        freeMem := freeMem + 1;
        layout := United(layout, e);
      }
    }

    method PointBack(e: nat)
      requires data.Length == nunits && Freeing(data[..], layout, free_x, freeMem, lastElemOff, freeElemOff, e)
      requires e in layout && !IsFree(layout, End(layout, e))
      modifies data
      ensures Valid() && forall i :: 0 <= i < data.Length && i !in layout ==> data[i] == old(data[i])
    {
      hide Ok, Heads, PrevLinks, Begins, FreeList, Tiled, Coalesced, NoneFree, NoFreeIn, Freeing;
      ghost var d := data[..];
      FreeingAt(d, layout, free_x, freeMem, lastElemOff, freeElemOff, e);
      if !data[e].last {
        var next := GetNext(e);
        data[next] := data[next].(prevOff := next - e);
        PrevFixed(d, layout, free_x, freeMem, lastElemOff, freeElemOff, e, data[..]);
      }
    }

    /** Frees the element at `a`; freeing it again does nothing. */
    method FreeElem(a: nat) returns (emptied: bool)
      requires Valid() && a in layout
      modifies this`free_x, this`freeMem, this`lastElemOff, this`freeElemOff, this`layout, data
      ensures if emptied then free_x == 0 && Live(old(layout)).Keys == {a} && layout == map[]
        else Valid() && free_x > 0 && Live(layout) == Live(old(layout)) - {a}
      ensures emptied <==> Live(old(layout)).Keys == {a}
      ensures Kept(old(data[..]), data[..], Live(old(layout)), Live(layout))
    {
      hide Ok, Heads, PrevLinks, Begins, FreeList, Tiled, Coalesced, NoneFree, NoFreeIn, Freeing;
      OkAt(data[..], layout, free_x, freeMem, lastElemOff, freeElemOff, a);
      emptied := false;
      if data[a].free {
        return;
      }
      if data[a].last {
        emptied := FreeLast(a);
      } else {
        var e := MarkFree(a);
        UniteWithNext(e);
      }
      if !emptied {
        SomeLive(data[..], layout, free_x, freeMem, lastElemOff, freeElemOff);
      }
    }

    /** The nearest free element in front of the one at `a`, or -1. */
    method PrevFree(a: nat, ghost s: Layout, ghost x: nat) returns (q: int)
      requires Tiled(s, x) && a in s && !s[a].free && BackLinks(data[..], s, a)
      ensures -1 <= q < a && NoFreeIn(s, q + 1, a)
      ensures q >= 0 ==> IsFree(s, q)
    {
      hide BackLinks, Tiled, NoFreeIn;
      NoFreeInEmpty(s, a);
      BackLinksAt(data[..], s, a, a);
      StepBack(s, x, GetPrev(a), a, a);
      q := GetPrev(a);
      if q != -1 {
        BackLinksAt(data[..], s, a, q);
      }
      while q != -1 && !data[q].free
        invariant -1 <= q < a && (q >= 0 ==> q in s) && NoFreeIn(s, q + 1, a)
        invariant q >= 0 ==> q < data.Length && data[q].free == s[q].free
        decreases q
      {
        BackLinksAt(data[..], s, a, q);
        StepBack(s, x, GetPrev(q), q, a);
        var p := GetPrev(q);
        if p != -1 {
          BackLinksAt(data[..], s, a, p);
        }
        q := p;
      }
    }

    /** The link for the free element at `b`: the distance to the nearest free element behind it, or 0. */
    method LinkToNextFree(b: nat, ghost s: Layout) returns (link: U16)
      requires HeadsFrom(data[..], s, free_x, b) && b in s && End(s, b) in s
      ensures FreeLink(s, b, link)
      ensures link == 0 || b + link < free_x
    {
      hide NoneFree, FirstFree, FreeLink, NoFreeIn;
      var next := GetNext(b);
      assert End(s, b) <= free_x;
      AfterElem(s, free_x, b);
      while next != -1 && !data[next].free
        invariant next == -1 || (next in s && b < next < data.Length)
        invariant NoFreeIn(s, b + 1, if next == -1 then free_x else next)
        decreases if next == -1 then 0 else data.Length - next
      {
        StepForward(s, free_x, b, next);
        next := GetNext(next);
      }
      if next != -1 {
        link := next - b;
      } else {
        link := 0;
      }
      FoundNextFree(s, free_x, b, next);
    }

    /** Marks the element cut off at `b`, behind the one at `a`, and links the nearest free element
        in front of it to it. */
    method LinkNewElem(b: nat, a: nat, ghost s: Layout) returns (q: int)
      requires data.Length == nunits && a < b < nunits && a in s && !s[a].free
      requires Tiled(s, free_x) && BackLinks(data[..], s, a)
      requires freeElemOff == 0 || a < freeElemOff ==> NoFreeIn(s, 0, a)
      modifies this`freeElemOff, data
      ensures -1 <= q < a && NoFreeIn(s, q + 1, a)
      ensures q >= 0 ==> IsFree(s, q)
      ensures freeElemOff != 0 && freeElemOff == if q == -1 then b + 1 else old(freeElemOff)
      ensures data[..] == var c := old(data[..])[b := old(data[b]).(free := true, last := false, prevOff := b - a)];
        if q >= 0 then c[q := c[q].(link := b - q)] else c
    {
      hide Tiled, BackLinks, NoFreeIn;
      ghost var d0 := data[..];
      data[b] := data[b].(free := true, last := false);
      data[b] := data[b].(prevOff := b - a);
      q := -1;
      if freeElemOff != 0 && freeElemOff < a + 1 {
        BackLinksSame(d0, data[..], s, a);
        q := PrevFree(a, s, free_x);
      }
      if q != -1 {
        data[q] := data[q].(link := b - q);
      } else {
        freeElemOff := b + 1;
      }
    }

    /** The new free element at `b` absorbs a free element behind it, and the header behind it
        points back to it. */
    method UniteNewElem(b: nat)
      requires data.Length == nunits && b < nunits && !data[b].last
      requires b + 1 + data[b].nunits < nunits
      requires var c := data[b + 1 + data[b].nunits];
        c.free ==> !c.last && b + c.link + data[b].nunits + 1 < nunits && b + data[b].nunits + c.nunits + 2 < nunits
      requires data[b + 1 + data[b].nunits].free ==> freeMem + 1 < 0x1_0000
      modifies this`freeMem, data
      ensures var c := old(data[b + 1 + data[b].nunits]);
        var n := if c.free then old(data[b].nunits) + c.nunits + 1 else old(data[b].nunits);
        && freeMem == old(freeMem) + (if c.free then 1 else 0)
        && b < b + n + 1 < data.Length
        && data[..] == old(data[..])[b := old(data[b]).(nunits := n, link := data[b].link)]
                         [b + n + 1 := old(data[b + n + 1]).(prevOff := n + 1)]
    {
      var next := GetNext(b);
      if data[next].free {
        data[b] := data[b].(nunits := data[b].nunits + data[next].nunits + 1);
        if data[next].link != 0 {
          data[b] := data[b].(link := GetNextFree(next) - b);
        } else {
          data[b] := data[b].(link := 0);
        }
        freeMem := freeMem + 1;
        next := GetNext(b);
      }
      data[next] := data[next].(prevOff := next - b);
    }

    /** Completes the free element that has been cut off behind the one at `a`. */
    method InitNewFreeElement(b: nat, a: nat, ghost s: Layout)
      requires data.Length == nunits && a < b < nunits && a in s && s[a].size < 0x1_0000
      requires Splitting(Resized(data[..], a, s[a].size), s, free_x, lastElemOff, freeElemOff, a, b)
      requires b in s && End(s, b) in s && (IsFree(s, End(s, b)) ==> freeMem + 1 < 0x1_0000)
      modifies this`freeElemOff, this`freeMem, data
      ensures data[a].nunits == old(data[a].nunits)
      ensures b in s && End(s, b) in s
      ensures var t := Merged(s, b);
        Ok(Resized(data[..], a, s[a].size), t, free_x, FreeUnits(t, free_x), lastElemOff, freeElemOff)
      ensures freeMem == old(freeMem) + (if IsFree(s, End(s, b)) then 1 else 0)
      ensures forall i {:trigger data[i]} :: 0 <= i < data.Length && i !in s ==> data[i] == old(data[i])
    {
      hide Splitting, Ok, Tiled, NoFreeIn, BackLinks, FreeLink, HeadsFrom, NewCells, Merged;
      ghost var n: U16 := s[a].size;
      ghost var d, head0 := data[..], freeElemOff;
      ghost var q := PlaceNewElem(b, a, s);
      var link: U16 := 0;
      if freeElemOff != 0 {
        MergedLayout(Resized(d, a, n), s, free_x, lastElemOff, head0, a, b);
        link := LinkToNextFree(b, Merged(s, b));
      }
      NewCellsDone(d, n, s, free_x, lastElemOff, head0, a, b, q, data[..], link);
      data[b] := data[b].(link := link);
    }

    /** The new free element is linked from the one in front of it, takes in a free one behind it, and is
        pointed back to.
     */
    method PlaceNewElem(b: nat, a: nat, ghost s: Layout) returns (ghost q: int)
      requires data.Length == nunits && a < b < nunits && a in s && s[a].size < 0x1_0000
      requires Splitting(Resized(data[..], a, s[a].size), s, free_x, lastElemOff, freeElemOff, a, b)
      requires b in s && End(s, b) in s && (IsFree(s, End(s, b)) ==> freeMem + 1 < 0x1_0000)
      modifies this`freeElemOff, this`freeMem, data
      ensures b in s && End(s, b) in s && data[a].nunits == old(data[a].nunits)
      ensures NewCells(old(data[..]), Merged(s, b), a, b, q, data[..]) && HeadsFrom(data[..], Merged(s, b), free_x, b)
      ensures -1 <= q < a && NoFreeIn(s, q + 1, a) && (q >= 0 ==> IsFree(s, q))
      ensures freeElemOff != 0 && freeElemOff == if q == -1 then b + 1 else old(freeElemOff)
      ensures freeMem == old(freeMem) + (if IsFree(s, End(s, b)) then 1 else 0)
    {
      hide Splitting, Ok, Tiled, NoFreeIn, BackLinks, FreeLink, HeadsFrom, NewCells, Merged;
      ghost var n: U16 := s[a].size;
      ghost var d, head0 := data[..], freeElemOff;
      SplittingAt(Resized(d, a, n), s, free_x, lastElemOff, head0, a, b);
      BackLinksSame(Resized(d, a, n), d, s, a);
      q := LinkNewElem(b, a, s);
      ghost var c := data[..];
      UniteNewElem(b);
      NewCellsStored(d, n, s, free_x, lastElemOff, head0, a, b, q, c, data[..]);
      NewCellsHeads(d, n, s, free_x, lastElemOff, head0, a, b, q, data[..]);
    }

    /** Takes the free element at `a`, whose predecessor in the free list is `p`, out of the list. */
    method UnlinkTaken(p: int, a: nat)
      requires Valid() && IsFree(layout, a)
      requires if p == -1 then freeElemOff == a + 1 else 0 <= p && IsFree(layout, p) && FirstFree(layout, p + 1, a)
      modifies this`free_x, this`freeMem, this`lastElemOff, this`freeElemOff, this`layout, data
      ensures Valid() && layout == old(layout)[a := Elem(old(layout)[a].size, false)] && free_x == old(free_x)
      ensures Live(layout) == Live(old(layout))[a := old(layout)[a].size]
      ensures Kept(old(data[..]), data[..], Live(old(layout)), Live(layout))
    {
      hide Ok, Heads, PrevLinks, Begins, FreeList, Tiled, Coalesced, Kept;
      ghost var d, s, freeMem0, head := data[..], layout, freeMem, freeElemOff;
      OkAt(d, s, free_x, freeMem, lastElemOff, freeElemOff, a);
      FreeSizeAtMost(s, a, free_x);
      OkTotal(d, s, free_x, freeMem, lastElemOff, freeElemOff);
      SkipTaken(p, a);
      freeMem := freeMem - data[a].nunits;
      layout := s[a := Elem(s[a].size, false)];
      TakenOk(d, s, free_x, freeMem0, lastElemOff, head, a, data[..], freeElemOff);
    }

    /** The free list goes past the element at `a`, which is marked as used. */
    method SkipTaken(p: int, a: nat)
      requires Valid() && IsFree(layout, a)
      requires if p == -1 then freeElemOff == a + 1 else 0 <= p && IsFree(layout, p) && FirstFree(layout, p + 1, a)
      modifies this`freeElemOff, data
      ensures FreeList(data[..], layout[a := Elem(layout[a].size, false)], freeElemOff)
      ensures a < data.Length && data[a] == old(data[a]).(free := false, link := a)
      ensures forall i {:trigger data[i]} :: 0 <= i < data.Length && i != a ==>
        data[i] == old(data[i]).(link := data[i].link) && (!IsFree(layout, i) ==> data[i] == old(data[i]))
    {
      hide Ok, Heads, PrevLinks, Begins, FreeList, Tiled, Coalesced;
      ghost var d, s, head := data[..], layout, freeElemOff;
      OkAt(d, s, free_x, freeMem, lastElemOff, freeElemOff, a);
      OkParts(d, s, free_x, freeMem, lastElemOff, freeElemOff);
      ghost var t := s[a := Elem(s[a].size, false)];
      if freeElemOff == a + 1 {
        var next := GetNextFree(a);
        freeElemOff := if next == -1 then 0 else next + 1;
      } else if p != -1 {
        OkAt(d, s, free_x, freeMem, lastElemOff, freeElemOff, p);
        var next := GetNextFree(a);
        data[p] := data[p].(link := if next != -1 then next - p else 0);
      }
      data[a] := data[a].(free := false);
      data[a] := data[a].(link := a);
      if head == a + 1 {
        UnlinkFirst(d, s, head, data[..], t, freeElemOff);
      } else {
        Unlink(d, s, head, p, a, data[p].link, data[..], t);
      }
    }

    /** Hands out the first free element with at least `n` units, whole; -1 when there is none. */
    method TakeFree(n: nat) returns (a: int)
      requires Valid()
      modifies this`free_x, this`freeMem, this`lastElemOff, this`freeElemOff, this`layout, data
      ensures Valid() && a >= -1 && free_x == old(free_x)
      ensures a == -1 ==> layout == old(layout) && data[..] == old(data[..])
      ensures a == -1 ==> NoHole(layout, n)
      ensures a >= 0 ==>
        && FirstHole(old(layout), a, n)
        && layout == old(layout)[a := Elem(old(layout)[a].size, false)]
        && Live(layout) == Live(old(layout))[a := old(layout)[a].size]
      ensures Kept(old(data[..]), data[..], Live(old(layout)), Live(layout))
    {
      hide Ok, Heads, PrevLinks, Begins, FreeList, Tiled, Coalesced, Kept;
      ghost var d, s := data[..], layout;
      OkParts(d, s, free_x, freeMem, lastElemOff, freeElemOff);
      OkHead(d, s, free_x, freeMem, lastElemOff, freeElemOff);
      a := GetFreeElem();
      var p := -1;
      while a != -1
        invariant -1 <= p && (a == -1 || (p < a && IsFree(s, a)))
        invariant p >= 0 ==> IsFree(s, p) && s[p].size < n
        invariant p >= 0 && a >= 0 ==> FirstFree(s, p + 1, a)
        invariant p == -1 && a >= 0 ==> a == freeElemOff - 1
        invariant forall c: nat {:trigger IsFree(s, c)} :: IsFree(s, c) && (a == -1 || c < a) ==> s[c].size < n
        invariant data[..] == d && layout == s
        invariant free_x == old(free_x) && freeMem == old(freeMem) && lastElemOff == old(lastElemOff)
          && freeElemOff == old(freeElemOff)
        decreases if a == -1 then 0 else free_x + 1 - a
      {
        OkAt(d, s, free_x, freeMem, lastElemOff, freeElemOff, a);
        if n <= data[a].nunits {
          UnlinkTaken(p, a);
          return;
        }
        p := a;
        a := GetNextFree(a);
      }
      HeadersOnly(d, data[..], s, free_x, Live(s));
    }

    /** Looks for the free element in front of `b`, from `first` on, and takes `b` out behind it. */
    method UnlinkBehind(b: nat, a: nat, first: int)
      requires Valid() && a in layout && !layout[a].free && End(layout, a) == b && IsFree(layout, b)
      requires freeElemOff != b + 1 && 0 <= first < a && IsFree(layout, first) && FirstFree(layout, 0, first)
      modifies data
      ensures FreeList(data[..], United(layout, a), freeElemOff)
      ensures forall i {:trigger data[i]} :: 0 <= i < data.Length ==>
        data[i] == old(data[i]).(link := data[i].link) && (!IsFree(layout, i) ==> data[i] == old(data[i]))
    {
      hide Ok, Heads, PrevLinks, Begins, FreeList, Tiled, Coalesced, PrevAt;
      ghost var d, s, t, head := data[..], layout, United(layout, a), freeElemOff;
      OkParts(d, s, free_x, freeMem, lastElemOff, head);
      OkAt(d, s, free_x, freeMem, lastElemOff, head, b);
      OkHead(d, s, free_x, freeMem, lastElemOff, head);
      UniteTiled(s, free_x, a);
      UnitedFree(s, a);
      var f := first;
      while f != -1 && f < b
        invariant data[..] == d && 0 <= f < b && IsFree(s, f)
        decreases b - f
      {
        OkAt(d, s, free_x, freeMem, lastElemOff, head, f);
        var next := GetNextFree(f);
        if next == b {
          data[f] := data[f].(link := if data[b].link != 0 then GetNextFree(b) - f else 0);
          Unlink(d, s, head, f, b, data[f].link, data[..], t);
          return;
        }
        f := next;
      }
    }

    /** Takes the free element at `b`, right behind the one at `a`, out of the free list. */
    method UnlinkNext(b: nat, a: nat)
      requires Valid() && a in layout && !layout[a].free && End(layout, a) == b && IsFree(layout, b)
      modifies this`freeElemOff, data
      ensures FreeList(data[..], United(layout, a), freeElemOff)
      ensures forall i {:trigger data[i]} :: 0 <= i < data.Length ==>
        data[i] == old(data[i]).(link := data[i].link) && (!IsFree(layout, i) ==> data[i] == old(data[i]))
    {
      hide Ok, Heads, PrevLinks, Begins, FreeList, Tiled, Coalesced, PrevAt;
      ghost var d, s, t, head := data[..], layout, United(layout, a), freeElemOff;
      OkParts(d, s, free_x, freeMem, lastElemOff, head);
      OkAt(d, s, free_x, freeMem, lastElemOff, head, b);
      OkHead(d, s, free_x, freeMem, lastElemOff, head);
      UniteTiled(s, free_x, a);
      UnitedFree(s, a);
      var f := GetFreeElem();
      if f == b {
        var next := GetNextFree(b);
        freeElemOff := if next == -1 then 0 else next + 1;
        UnlinkFirst(d, s, head, data[..], t, freeElemOff);
      } else if f < a {
        UnlinkBehind(b, a, f);
      }
    }

    /** Cuts the end off the element at `a`, which then has `n` units, and makes it a free element. */
    method CutFree(a: nat, n: U16, m: U16, ghost s: Layout)
      requires a in s && data.Length == nunits && Growing(data[..], s, free_x, lastElemOff, freeElemOff, a)
      requires m + n + 1 == s[a].size && a + n + 1 < nunits && !s[a].free
      requires IsFree(s, End(s, a)) ==> freeMem + 1 < 0x1_0000
      modifies this`freeElemOff, this`freeMem, this`layout, data
      ensures Ok(data[..], layout, free_x, FreeUnits(layout, free_x), lastElemOff, freeElemOff)
      ensures freeMem - old(freeMem) == FreeUnits(layout, free_x) - FreeUnits(s, free_x) - m
      ensures Live(layout) == Live(s)[a := n] && a + n + 1 in layout
      ensures forall i {:trigger data[i]} :: 0 <= i < data.Length && i !in s && i != a + n + 1 ==>
        data[i] == old(data[i])
    {
      hide Growing, Splitting, Ok, Merged, Tiled, Coalesced, LastElem;
      var b := a + n + 1;
      CutSplitting(data[..], s, free_x, lastElemOff, freeElemOff, a, n, m);
      data[b] := data[b].(nunits := m);
      ghost var t := Cut(s, a, n);
      CutOff(s, free_x, a, n);
      MergedLayout(Resized(data[..], a, n), t, free_x, lastElemOff, freeElemOff, a, b);
      InitNewFreeElement(b, a, t);
      ghost var e := data[..];
      data[a] := data[a].(nunits := n);
      layout := Merged(t, b);
      assert data[..] == Resized(e, a, n);
    }

    /** The element at `a` keeps all the space it has taken over. */
    method TakeAll(a: nat, sum: U16, ghost s: Layout)
      requires a in s && data.Length == nunits && Growing(data[..], s, free_x, lastElemOff, freeElemOff, a)
      requires sum == s[a].size && End(s, a) < nunits
      modifies this`layout, data
      ensures Ok(data[..], layout, free_x, FreeUnits(s, free_x), lastElemOff, freeElemOff)
      ensures layout == s
      ensures forall i {:trigger data[i]} :: 0 <= i < data.Length && i !in s ==> data[i] == old(data[i])
    {
      hide Ok, Growing;
      ghost var d := data[..];
      GrowingAt(d, s, free_x, lastElemOff, freeElemOff, a);
      data[a] := data[a].(nunits := sum);
      var next := GetNext(a);
      if next != -1 {
        data[next] := data[next].(prevOff := next - a);
      }
      GrownOk(d, s, free_x, lastElemOff, freeElemOff, a, data[..]);
      layout := s;
    }

    /** The element at `a` takes over space from the free element behind it. */
    method ExpandIntoNext(a: nat, n: nat)
      requires Valid() && a in layout && !layout[a].free && layout[a].size < n
      requires End(layout, a) in layout && layout[End(layout, a)].free
      requires n <= layout[a].size + layout[End(layout, a)].size + 1
      modifies this`free_x, this`freeMem, this`lastElemOff, this`freeElemOff, this`layout, data
      ensures Valid()
      ensures HasSize(Live(old(layout)), Live(layout), a, n)
      ensures a in Live(layout) && Live(layout)[a] ==
        if old(layout)[a].size + old(layout)[End(old(layout), a)].size == n then n + 1 else n
      ensures Kept(old(data[..]), data[..], Live(old(layout)), Live(layout))
    {
      hide Ok, Heads, PrevLinks, Begins, FreeList, Tiled, Coalesced, Kept, Growing, HasSize, Live;
      ghost var d, s, freeMem0, head := data[..], layout, freeMem, freeElemOff;
      OkAt(d, s, free_x, freeMem, lastElemOff, head, a);
      UnitedNext(d, s, free_x, freeMem, lastElemOff, head, a);
      NextInLayout(d, s, free_x, freeMem, lastElemOff, head, a);
      ghost var t := United(s, a);
      var next := GetNext(a);
      var size := data[a].nunits;
      var sum := size + data[next].nunits + 1;
      UnlinkNext(next, a);
      UnlinkedNext(d, s, free_x, freeMem0, lastElemOff, head, a, data[..], freeElemOff);
      freeMem := freeMem + 1;
      if sum - n > 1 {
        CutFree(a, n, sum - n - 1, t);
        freeMem := freeMem - 1;
        freeMem := freeMem - (n - size);
        SizedTwice(Live(s), Live(t), Live(layout), a, t[a].size, n, n);
      } else {
        freeMem := freeMem - (sum - size);
        TakeAll(a, sum, t);
        SizedOnce(Live(s), Live(layout), a, sum, n);
      }
      KeptOk(d, s, free_x, freeMem0, lastElemOff, head, data[..], layout, free_x, freeMem, lastElemOff, freeElemOff);
    }

    /** Tries to make the element at `a` longer without moving it. */
    method Expand(a: nat, n: nat) returns (done: bool)
      requires Valid() && a in layout && !layout[a].free && layout[a].size < n
      modifies this`free_x, this`freeMem, this`lastElemOff, this`freeElemOff, this`layout, data
      ensures Valid()
      ensures !done ==> layout == old(layout) && data[..] == old(data[..]) && free_x == old(free_x)
      ensures done ==> HasSize(Live(old(layout)), Live(layout), a, n)
      ensures Tiled(old(layout), old(free_x)) && (done <==> CanHold(old(layout), old(free_x), nunits, a, n))
      ensures done ==> a in Live(layout) && Live(layout)[a] == HeldSize(old(layout), old(free_x), a, n)
      ensures Kept(old(data[..]), data[..], Live(old(layout)), Live(layout))
    {
      hide Ok, Heads, PrevLinks, Begins, FreeList, Tiled, Coalesced, Kept, Growing;
      ghost var d, s := data[..], layout;
      OkAt(d, s, free_x, freeMem, lastElemOff, freeElemOff, a);
      OkParts(d, s, free_x, freeMem, lastElemOff, freeElemOff);
      if !data[a].last {
        NextInLayout(d, s, free_x, freeMem, lastElemOff, freeElemOff, a);
      }
      var size := data[a].nunits;
      done := false;
      if n - size <= nunits {
        if data[a].last {
          if n - size <= nunits - free_x {
            ResizeLastOk(d, s, free_x, freeMem, lastElemOff, freeElemOff, a, n);
            free_x := free_x + (n - size);
            data[a] := data[a].(nunits := n);
            layout := s[a := Elem(n, false)];
            return true;
          }
        } else {
          var next := GetNext(a);
          var sum := size;
          if data[next].free {
            sum := sum + data[next].nunits + 1;
          }
          if sum >= n {
            ExpandIntoNext(a, n);
            return true;
          }
        }
      }
      HeadersOnly(d, data[..], s, free_x, Live(s));
    }

    /** Makes the element at `a` shorter, unless the difference is a single unit. */
    method Shrink(a: nat, n: nat)
      requires Valid() && a in layout && !layout[a].free && n < layout[a].size
      modifies this`free_x, this`freeMem, this`lastElemOff, this`freeElemOff, this`layout, data
      ensures Valid()
      ensures HasSize(Live(old(layout)), Live(layout), a, n)
      ensures a in Live(layout) && Live(layout)[a] == if old(layout)[a].size == n + 1 then n + 1 else n
      ensures Kept(old(data[..]), data[..], Live(old(layout)), Live(layout))
    {
      hide Ok, Heads, PrevLinks, Begins, FreeList, Tiled, Coalesced, Kept, Growing;
      ghost var d, s, x0, freeMem0, head := data[..], layout, free_x, freeMem, freeElemOff;
      OkAt(d, s, free_x, freeMem, lastElemOff, head, a);
      var size := data[a].nunits;
      if size - n > 1 {
        if data[a].last {
          ResizeLastOk(d, s, free_x, freeMem, lastElemOff, head, a, n);
          free_x := free_x - (size - n);
          data[a] := data[a].(nunits := n);
          layout := s[a := Elem(n, false)];
        } else {
          ShrinkInside(a, n);
        }
      } else {
        KeptOk(d, s, free_x, freeMem, lastElemOff, head, d, s, free_x, freeMem, lastElemOff, head);
        LiveAt(s, a);
      }
    }

    method ShrinkInside(a: nat, n: nat)
      requires Valid() && a in layout && !layout[a].free && n + 1 < layout[a].size && End(layout, a) < free_x
      modifies this`free_x, this`freeMem, this`lastElemOff, this`freeElemOff, this`layout, data
      ensures Valid()
      ensures HasSize(Live(old(layout)), Live(layout), a, n) && a in Live(layout) && Live(layout)[a] == n
      ensures Kept(old(data[..]), data[..], Live(old(layout)), Live(layout))
    {
      hide Ok, Heads, PrevLinks, Begins, FreeList, Tiled, Coalesced, Kept, Growing;
      ghost var d, s, freeMem0, head := data[..], layout, freeMem, freeElemOff;
      OkAt(d, s, free_x, freeMem, lastElemOff, head, a);
      GrowingOk(d, s, free_x, freeMem, lastElemOff, head, a);
      var size := data[a].nunits;
      CutFree(a, n, size - n - 1, s);
      OkParts(data[..], layout, free_x, FreeUnits(layout, free_x), lastElemOff, freeElemOff);
      FreeUnitsBound(layout, free_x, free_x);
      freeMem := freeMem + (size - n) - 1;
      KeptOk(d, s, free_x, freeMem0, lastElemOff, head, data[..], layout, free_x, freeMem, lastElemOff, freeElemOff);
    }

    /** Tries to give the element at `a` room for `n` units where it is. */
    method ReallocInPlace(a: nat, n: nat) returns (done: bool)
      requires Valid() && a in layout && !layout[a].free
      modifies this`free_x, this`freeMem, this`lastElemOff, this`freeElemOff, this`layout, data
      ensures Valid()
      ensures !done ==>
        layout == old(layout) && data[..] == old(data[..]) && layout[a].size < n && free_x == old(free_x)
      ensures done ==> HasSize(Live(old(layout)), Live(layout), a, n)
      ensures Tiled(old(layout), old(free_x)) && (done <==> CanHold(old(layout), old(free_x), nunits, a, n))
      ensures done ==> a in Live(layout) && Live(layout)[a] == HeldSize(old(layout), old(free_x), a, n)
      ensures Kept(old(data[..]), data[..], Live(old(layout)), Live(layout))
    {
      hide Ok, Kept, Tiled;
      ghost var d, s := data[..], layout;
      OkAt(d, s, free_x, freeMem, lastElemOff, freeElemOff, a);
      OkParts(d, s, free_x, freeMem, lastElemOff, freeElemOff);
      if data[a].nunits == n {
        done := true;
        KeptOk(d, s, free_x, freeMem, lastElemOff, freeElemOff, d, s, free_x, freeMem, lastElemOff, freeElemOff);
        LiveAt(s, a);
      } else if data[a].nunits < n {
        done := Expand(a, n);
      } else {
        done := true;
        Shrink(a, n);
      }
    }

    /** A store to a unit that is no header. */
    method Store(u: nat, c: Cell)
      requires Valid() && u < data.Length && u !in layout
      modifies data
      ensures Valid() && data[..] == old(data[..])[u := c]
    {
      hide Ok;
      ghost var d := data[..];
      data[u] := c;
      OkSame(d, layout, free_x, freeMem, lastElemOff, freeElemOff, data[..]);
    }

    /** Makes an emptied block usable again. */
    method Reset()
      requires data.Length == nunits && layout == map[]
      modifies this`free_x, this`freeMem, this`lastElemOff, this`freeElemOff
      ensures Valid() && free_x == 0 && layout == map[]
    {
      free_x, freeElemOff, lastElemOff, freeMem := 0, 0, 0, 0;
    }

    /** A new block whose first element takes `n` units. */
    constructor (dataUnits: U16, n: nat)
      requires n + 1 <= dataUnits
      ensures Valid() && fresh(data) && nunits == dataUnits
      ensures Live(layout) == map[0 := n] && free_x == n + 1
    {
      var d := new Cell[dataUnits](i => Cell(false, true, if i == 0 then n else 0, 0, 0));
      data, nunits, plink := d, dataUnits, null;
      free_x, freeMem, lastElemOff, freeElemOff := n + 1, 0, 1, 0;
      layout := map[0 := Elem(n, false)];
      new;
      assert End(layout, 0) == n + 1;
      FreeUnitsBeyond(layout, 0, n + 1);
    }
  }
}
