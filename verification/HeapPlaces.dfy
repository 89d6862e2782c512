/** Where a heap puts an allocation, and whether one can stay where it is, as values. */
module HeapPlaces {
  import opened BlockLayout
  import opened BlockHeaders
  import opened MemBlock
  import opened HeapLedger
  import opened Sequences

  /** The end of the last element. */
  ghost function Tail(s: Layout): nat {
    if exists x: nat :: Tiled(s, x) then var x: nat :| Tiled(s, x); x else 0
  }

  lemma TiledOnce(s: Layout, x: nat, y: nat)
    requires Tiled(s, x) && Tiled(s, y)
    ensures x == y
  {
    if x < y {
      var a := Covered(s, y, x);
      assert false;
    } else if y < x {
      var a := Covered(s, x, y);
      assert false;
    }
  }

  lemma TailIs(s: Layout, x: nat)
    requires Tiled(s, x)
    ensures Tail(s) == x
  {
    assert exists y: nat :: Tiled(s, y);
    TiledOnce(s, x, Tail(s));
  }

  /** The end of the last element of a well-formed block is where its free space begins. */
  lemma TailOf(b: MemBlk)
    requires b.Valid()
    ensures Tail(b.layout) == b.free_x
  {
    TailIs(b.layout, b.free_x);
  }

  /** The block of a link has room for `n` units behind its last element. */
  ghost predicate RoomIn(l: MemLink, layouts: Layouts, n: nat) {
    l.blk != null && l.blk in layouts && n + 1 <= l.blk.nunits - Tail(layouts[l.blk])
  }

  /** The block of a link has a free element of at least `n` units. */
  ghost predicate HoleIn(l: MemLink, layouts: Layouts, n: nat) {
    l.blk != null && l.blk in layouts && !NoHole(layouts[l.blk], n)
  }

  ghost predicate NoRooms(links: seq<MemLink>, layouts: Layouts, n: nat) {
    forall l :: l in links ==> !RoomIn(l, layouts, n)
  }

  ghost predicate NoHoles(links: seq<MemLink>, layouts: Layouts, n: nat) {
    forall l :: l in links ==> !HoleIn(l, layouts, n)
  }

  /** `p` is the place behind the last element of the block at `i`, the first one with room. */
  ghost predicate AtEnd(links: seq<MemLink>, layouts: Layouts, n: nat, p: Ptr, i: nat) {
    && i < |links| && RoomIn(links[i], layouts, n) && NoRooms(links[..i], layouts, n)
    && p == InBlock(links[i].blk, Tail(layouts[links[i].blk]))
  }

  /** `p` is the first free element that is large enough, in the first block with one. It gets `got` units,
      one more than asked for if only the header of the rest would be left over.
   */
  ghost predicate InHole(links: seq<MemLink>, layouts: Layouts, n: nat, p: Ptr, got: nat, i: nat) {
    && i < |links| && HoleIn(links[i], layouts, n) && NoHoles(links[..i], layouts, n)
    && p.InBlock? && p.blk == links[i].blk && FirstHole(layouts[p.blk], p.off, n)
    && got == if layouts[p.blk][p.off].size == n + 1 then n + 1 else n
  }

  /** Size of the block header: eight bytes of pointer, eight 16-bit fields, the first unit's eight bytes. */
  const BLOCK_HEADER := 32

  /** A block of `units` units is the smallest one for `n` units that takes up whole blocks of `size` bytes;
      a block has at most 65535 units.
   */
  ghost predicate SizeFor(n: nat, size: nat, units: nat) {
    exists k: nat :: BytesFor(n, size, k) && units == if k * size < BLOCK_HEADER + 8 * 0x1_0000
      then (k * size - BLOCK_HEADER) / 8 else 0xFFFF
  }

  ghost predicate BytesFor(n: nat, size: nat, k: nat) {
    var need := BLOCK_HEADER + 8 + 8 * n;
    k > 0 && need <= k * size && (k > 1 ==> (k - 1) * size < need)
  }

  /** `p` is the first element of a new block. */
  ghost predicate InNew(layouts: Layouts, n: nat, size: nat, p: Ptr) {
    p.InBlock? && p.blk !in layouts && p.off == 0 && SizeFor(n, size, p.blk.nunits)
  }

  /** Where `n` units go: large ones get memory of their own; others behind the last element of a block, or
      into a free element, or only then into a new block. For no units at all only the first of these is
      said. The allocation has `got` units.
   */
  ghost predicate Placed(links: seq<MemLink>, layouts: Layouts, n: nat, size: nat, avail: bool, p: Ptr, got: nat) {
    if n > 0xFFFE then if avail then p.RawMem? && got == n else p.Null?
    else if !NoRooms(links, layouts, n) then got == n && exists i :: AtEnd(links, layouts, n, p, i)
    else if n == 0 then true
    else if !NoHoles(links, layouts, n) then exists i :: InHole(links, layouts, n, p, got, i)
    else if avail then InNew(layouts, n, size, p) && got == n
    else p.Null?
  }

  /** The list has a new link in front for a new block or for raw memory, and is as before otherwise. */
  ghost predicate Listed(links: seq<MemLink>, layouts: Layouts, p: Ptr, after: seq<MemLink>) {
    if p.RawMem? || (p.InBlock? && p.blk !in layouts) then
      |after| == |links| + 1 && after[1..] == links && after[0].blk == if p.InBlock? then p.blk else null
    else after == links
  }

  /** What becomes of the element `p` when it is to have `n` units, more than none: it stays where it is if it
      can, and is moved to where a new one would be put otherwise.
   */
  ghost predicate Regrown(links: seq<MemLink>, layouts: Layouts, n: nat, size: nat, avail: bool, p: Ptr, q: Ptr,
      got: nat)
  {
    && p.InBlock? && p.blk in layouts
    && var s := layouts[p.blk];
      && p.off in s && Tiled(s, Tail(s))
      && if CanHold(s, Tail(s), p.blk.nunits, p.off, n) then q == p && got == HeldSize(s, Tail(s), p.off, n)
         else q != p && Placed(links, layouts, n, size, avail, q, got)
  }

  /** An empty block is given back if no empty blocks are kept, or too many units would be in them. */
  ghost predicate Dropped(units: nat, dontKeep: bool, keepUnits: nat, freeUnits: nat) {
    dontKeep || (keepUnits > 0 && freeUnits + units > keepUnits)
  }

  /** The links after `p` has been given back: without that of `p` if it is raw, or if it was the only element
      in use of its block and the block is given back too.
   */
  ghost predicate Released(links: seq<MemLink>, mems: seq<array<Cell>>, layouts: Layouts, p: Ptr, dontKeep: bool,
      keepUnits: nat, freeUnits: nat, after: seq<MemLink>)
    requires |mems| == |links|
  {
    match p
    case Null => after == links
    case RawMem(m) => exists i :: 0 <= i < |links| && links[i].isRaw && mems[i] == m && after == Without(links, i)
    case InBlock(b, a) =>
      if b in layouts && Live(layouts[b]).Keys == {a} && Dropped(b.nunits, dontKeep, keepUnits, freeUnits)
        then exists i :: 0 <= i < |links| && links[i].blk == b && after == Without(links, i)
      else after == links
  }
}
