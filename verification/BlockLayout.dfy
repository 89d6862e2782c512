/** How one standard memory block is cut into elements.

    A layout maps the offset (in 8-byte units) of each element's header to the number of data
    units behind the header and to whether the element is free. The header itself takes one unit.
 */
module BlockLayout {

  datatype Elem = Elem(size: nat, free: bool)

  type Layout = map<nat, Elem>

  function End(s: Layout, a: nat): nat
    requires a in s
  {
    a + s[a].size + 1
  }

  /** The elements cover `[0, x)`, one after the other, without gaps or overlaps. */
  ghost predicate Tiled(s: Layout, x: nat) {
    && (x > 0 ==> 0 in s)
    && (forall a :: a in s ==> a < x)
    && (forall a {:trigger End(s, a)} :: a in s ==> End(s, a) <= x && (End(s, a) < x ==> End(s, a) in s))
    && (forall a, b {:trigger End(s, a), b in s} :: a in s && b in s && a < b ==> End(s, a) <= b)
  }

  /** A free element is never the last one and is never followed by another free element. */
  ghost predicate Coalesced(s: Layout) {
    forall a {:trigger End(s, a)} :: a in s && s[a].free ==> End(s, a) in s && !s[End(s, a)].free
  }

  /** The elements in use: header offset to size. */
  ghost function Live(s: Layout): map<nat, nat> {
    map a | a in s && !s[a].free :: s[a].size
  }

  /** Total size of the free elements whose header lies below `x`. */
  ghost function FreeUnits(s: Layout, x: nat): nat {
    if x == 0 then 0
    else FreeUnits(s, x - 1) + FreeSize(s, x - 1)
  }

  /** What the element at `a` contributes to the free units. */
  ghost function FreeSize(s: Layout, a: nat): nat {
    if a in s && s[a].free then s[a].size else 0
  }

  /** The element at `a` can have `n` units where it is, in a block of `units` units that is used up to `x`: it
      has them already, or there is room behind it.
   */
  ghost predicate CanHold(s: Layout, x: nat, units: nat, a: nat, n: nat)
    requires Tiled(s, x) && a in s
  {
    || n <= s[a].size
    || if End(s, a) == x then n - s[a].size <= units - x
       else s[End(s, a)].free && n <= s[a].size + s[End(s, a)].size + 1
  }

  /** The units that it then has: one more than asked for if only the header of the rest would be left over. */
  ghost function HeldSize(s: Layout, x: nat, a: nat, n: nat): nat
    requires Tiled(s, x) && a in s
  {
    var all := if n <= s[a].size then s[a].size
      else if End(s, a) == x then n else s[a].size + s[End(s, a)].size + 1;
    if all == n + 1 then n + 1 else n
  }

  /** The unit `u` belongs to the data of the element in use at `a`. */
  ghost predicate Owns(live: map<nat, nat>, a: nat, u: nat) {
    a in live && a < u <= a + live[a]
  }

  /** Regions handed out to clients do not overlap, and no header lies inside one. */
  lemma {:induction false} RegionsDisjoint(s: Layout, x: nat, a: nat, b: nat, u: nat)
    requires Tiled(s, x)
    requires Owns(Live(s), a, u)
    ensures u !in s && u < x
    ensures Owns(Live(s), b, u) ==> a == b
  {
    assert End(s, a) <= x;
    assert b in s ==> End(s, b) <= x;
  }

  /** Every unit below `x` is the header or the data of exactly one element. */
  lemma {:induction false} Covered(s: Layout, x: nat, u: nat) returns (a: nat)
    requires Tiled(s, x) && u < x
    ensures a in s && a <= u < End(s, a)
    ensures forall b :: b in s && b <= u < End(s, b) ==> b == a
  {
    a := 0;
    while End(s, a) <= u
      invariant a in s && a <= u
      decreases u - a
    {
      a := End(s, a);
    }
  }

  /** Two coalesced layouts with the same elements in use agree at every offset from `y` on,
      once they agree that an element starts at `y`. */
  lemma {:induction false} SameFrom(s: Layout, x: nat, t: Layout, z: nat, y: nat)
    requires Tiled(s, x) && Coalesced(s) && Tiled(t, z) && Coalesced(t)
    requires Live(s) == Live(t)
    requires y in s && y in t
    ensures x == z
    ensures forall a | a >= y :: (a in s <==> a in t) && (a in s ==> s[a] == t[a])
    decreases x - y
  {
    assert forall a :: a in Live(s) <==> a in Live(t);
    if s[y].free {
      assert y !in Live(t);
      var e := End(s, y);
      var f := End(t, y);
      assert e in Live(s) && f in Live(t);
      assert e in t && f in s;
      assert e == f;
    } else {
      assert y in Live(s);
      assert Live(s)[y] == Live(t)[y];
    }
    assert s[y] == t[y];
    var e := End(s, y);
    assert End(t, y) == e;
    if e < x && e < z {
      SameFrom(s, x, t, z, e);
    } else if e < x {
      var a := LiveAtOrAfter(s, x, e);
      assert false;
    } else if e < z {
      var a := LiveAtOrAfter(t, z, e);
      assert false;
    }
    forall a | a > y && (a in s || a in t)
      ensures a >= e && e < x && e < z
    {
      assert a in s ==> End(s, y) <= a < End(s, a) <= x;
      assert a in t ==> End(t, y) <= a < End(t, a) <= z;
    }
  }

  /** Some element in use starts at `e` or right behind the free element there. */
  lemma LiveAtOrAfter(s: Layout, x: nat, e: nat) returns (a: nat)
    requires Tiled(s, x) && Coalesced(s) && e in s
    ensures a in Live(s) && e <= a
  {
    a := if s[e].free then End(s, e) else e;
  }

  /** Freeing coalesces completely: the elements in use determine the whole layout, the free
      elements included, and also where the untouched space at the end of the block begins. */
  lemma {:induction false} LayoutUnique(s: Layout, x: nat, t: Layout, z: nat)
    requires Tiled(s, x) && Coalesced(s) && Tiled(t, z) && Coalesced(t)
    requires Live(s) == Live(t)
    ensures s == t && x == z
  {
    if x > 0 && z > 0 {
      SameFrom(s, x, t, z, 0);
    } else if x > 0 {
      var a := LiveAtOrAfter(s, x, 0);
      EmptyLayout(t);
      assert false;
    } else if z > 0 {
      var a := LiveAtOrAfter(t, z, 0);
      EmptyLayout(s);
      assert false;
    } else {
      EmptyLayout(s);
      EmptyLayout(t);
    }
  }

  lemma EmptyLayout(s: Layout)
    requires Tiled(s, 0)
    ensures s == map[] && Live(s) == map[]
  {
    assert forall a :: a in s ==> End(s, a) <= 0;
  }

  /** Changing the element at one offset changes the total by the difference there. */
  lemma {:induction false} FreeUnitsUpdate(s: Layout, t: Layout, a: nat, x: nat)
    requires a < x
    requires forall b: nat | b < x && b != a :: FreeSize(s, b) == FreeSize(t, b)
    ensures FreeUnits(t, x) == FreeUnits(s, x) - FreeSize(s, a) + FreeSize(t, a)
  {
    if a < x - 1 {
      FreeUnitsUpdate(s, t, a, x - 1);
    } else {
      FreeUnitsSame(s, t, x - 1);
    }
  }

  lemma FreeSizeAtMost(s: Layout, a: nat, x: nat)
    requires a < x
    ensures FreeSize(s, a) <= FreeUnits(s, x)
  {
    FreeUnitsUpdate(s, s - {a}, a, x);
  }

  lemma {:induction false} FreeUnitsSame(s: Layout, t: Layout, x: nat)
    requires forall b: nat | b < x :: FreeSize(s, b) == FreeSize(t, b)
    ensures FreeUnits(s, x) == FreeUnits(t, x)
  {
    if x > 0 {
      FreeUnitsSame(s, t, x - 1);
    }
  }

  /** Nothing is added above the last header. */
  lemma {:induction false} FreeUnitsBeyond(s: Layout, x: nat, y: nat)
    requires x <= y
    requires forall b: nat | x <= b < y :: FreeSize(s, b) == 0
    ensures FreeUnits(s, y) == FreeUnits(s, x)
  {
    if x < y {
      FreeUnitsBeyond(s, x, y - 1);
    }
  }

  /** The free data below the element at `a`, together with one header, fits below `a`. */
  lemma {:induction false} FreeUnitsBound(s: Layout, x: nat, a: nat)
    requires Tiled(s, x) && (a in s || a == x)
    ensures FreeUnits(s, a) <= a
    ensures a > 0 ==> FreeUnits(s, a) < a
  {
    assert a in s ==> End(s, a) <= x;
    if a > 0 {
      var p := Covered(s, x, a - 1);
      assert End(s, p) == a;
      FreeUnitsBound(s, x, p);
      FreeUnitsUpTo(s, x, p, a);
    }
  }

  lemma {:induction false} FreeUnitsUpTo(s: Layout, x: nat, p: nat, a: nat)
    requires Tiled(s, x) && p in s && p < a <= End(s, p)
    ensures FreeUnits(s, a) == FreeUnits(s, p) + FreeSize(s, p)
  {
    if a > p + 1 {
      FreeUnitsUpTo(s, x, p, a - 1);
    }
  }

  /** A new element in use behind the last one. */
  lemma Append(s: Layout, x: nat, n: nat)
    requires Tiled(s, x) && Coalesced(s)
    ensures var t := s[x := Elem(n, false)];
      && x !in s
      && Tiled(t, x + n + 1)
      && Coalesced(t)
      && FreeUnits(t, x + n + 1) == FreeUnits(s, x)
      && Live(t) == Live(s)[x := n]
  {
    var t := s[x := Elem(n, false)];
    assert forall b {:trigger End(t, b)} :: b in s ==> End(t, b) == End(s, b);
    FreeUnitsSame(s, t, x);
    FreeUnitsBeyond(t, x, x + n + 1);
  }

  /** The part of a layout below the offset `y`. */
  ghost function Below(s: Layout, y: nat): Layout {
    map a | a in s && a < y :: s[a]
  }

  /** Dropping everything from `y` on, when the element in front of `y` is in use. */
  lemma Truncate(s: Layout, x: nat, y: nat, a: nat)
    requires Tiled(s, x) && Coalesced(s)
    requires y in s && a in s && !s[a].free && End(s, a) == x
    requires y == a || (s[y].free && End(s, y) == a)
    requires forall p {:trigger End(s, p)} :: p in s && s[p].free ==> End(s, p) != y
    ensures var t := Below(s, y);
      && Tiled(t, y)
      && Coalesced(t)
      && FreeUnits(t, y) == FreeUnits(s, x) - FreeSize(s, y)
      && Live(t) == Live(s) - {a}
  {
    var t := Below(s, y);
    assert End(s, y) <= x;
    assert forall b {:trigger End(t, b)} :: b in t ==> End(t, b) == End(s, b) && End(s, b) <= y;
    assert forall b :: b in s && b >= y ==> b == y || b == a;
    FreeUnitsSame(s, t, y);
    if y < a {
      FreeUnitsUpTo(s, x, y, a);
    }
    FreeUnitsUpTo(s, x, a, x);
  }

  /** An element in use, not the last one, becomes free and is not yet united with its neighbours. */
  lemma Mark(s: Layout, x: nat, a: nat)
    requires Tiled(s, x) && a in s && !s[a].free
    ensures var t := s[a := Elem(s[a].size, true)];
      && Tiled(t, x)
      && FreeUnits(t, x) == FreeUnits(s, x) + s[a].size
      && Live(t) == Live(s) - {a}
  {
    var t := s[a := Elem(s[a].size, true)];
    assert forall b {:trigger End(t, b)} :: b in s ==> End(t, b) == End(s, b);
    FreeUnitsUpdate(s, t, a, x);
  }

  lemma UniteUnits(s: Layout, x: nat, p: nat)
    requires p < x && p in s && s[p].free
    requires End(s, p) in s && End(s, p) < x && s[End(s, p)].free
    ensures FreeUnits(United(s, p), x) == FreeUnits(s, x) + 1
  {
    var a := End(s, p);
    var t := United(s, p);
    var m := s - {a};
    FreeUnitsUpdate(s, m, a, x);
    FreeUnitsUpdate(m, t, p, x);
  }

  /** An element absorbs the one right behind it. */
  lemma UniteTiled(s: Layout, x: nat, p: nat)
    requires Tiled(s, x) && p in s && End(s, p) in s
    ensures var t := United(s, p);
      && Tiled(t, x)
      && p < End(s, p) < End(s, End(s, p)) <= x
      && End(t, p) == End(s, End(s, p))
      && (End(s, End(s, p)) in s ==> End(t, p) in t)
      && (forall b {:trigger End(t, b)} :: b in t && b != p ==> b != End(s, p) && End(t, b) == End(s, b) != End(s, p))
  {
    var a := End(s, p);
    var t := United(s, p);
    assert End(s, a) <= x;
    assert End(t, p) == End(s, a);
    assert forall b {:trigger End(s, b)} :: b in s && b != p ==> End(s, b) != a;
    assert forall b {:trigger End(t, b)} :: b in t && b != p ==> End(t, b) == End(s, b);
  }

  /** The free elements at `p` and right behind it become one. */
  lemma Unite(s: Layout, x: nat, p: nat)
    requires Tiled(s, x) && p in s && s[p].free
    requires End(s, p) in s && s[End(s, p)].free
    ensures var t := United(s, p);
      && Tiled(t, x)
      && FreeUnits(t, x) == FreeUnits(s, x) + 1
      && Live(t) == Live(s)
      && (forall b {:trigger End(t, b)} :: b in t && b != p ==> End(t, b) == End(s, b))
      && End(t, p) == End(s, End(s, p))
  {
    hide Tiled;
    UniteTiled(s, x, p);
    UniteUnits(s, x, p);
  }

  ghost function United(s: Layout, p: nat): Layout
    requires p in s && End(s, p) in s
  {
    (s - {End(s, p)})[p := Elem(s[p].size + s[End(s, p)].size + 1, s[p].free)]
  }

  /** A free element is handed out whole. */
  lemma Take(s: Layout, x: nat, a: nat)
    requires Tiled(s, x) && Coalesced(s) && a in s && s[a].free
    ensures var t := s[a := Elem(s[a].size, false)];
      && Tiled(t, x) && Coalesced(t)
      && FreeUnits(t, x) == FreeUnits(s, x) - s[a].size
      && Live(t) == Live(s)[a := s[a].size]
      && (forall b {:trigger End(t, b)} :: b in t ==> End(t, b) == End(s, b))
  {
    var t := s[a := Elem(s[a].size, false)];
    assert forall b {:trigger End(t, b)} :: b in s ==> End(t, b) == End(s, b);
    FreeUnitsUpdate(s, t, a, x);
  }

  /** An element in use takes over the free element behind it. */
  lemma Extend(s: Layout, x: nat, a: nat)
    requires Tiled(s, x) && Coalesced(s) && a in s && !s[a].free
    requires End(s, a) in s && s[End(s, a)].free
    ensures var t := United(s, a);
      && Tiled(t, x) && Coalesced(t)
      && End(t, a) == End(s, End(s, a)) && End(t, a) in t
      && FreeUnits(t, x) == FreeUnits(s, x) - s[End(s, a)].size
      && Live(t) == Live(s)[a := t[a].size]
      && (forall b {:trigger End(t, b)} :: b in t && b != a ==> End(t, b) == End(s, b))
  {
    hide Tiled;
    var n := End(s, a);
    var t := United(s, a);
    UniteTiled(s, x, a);
    FreeUnitsUpdate(s, t, n, x);
  }

  /** The layout after a free element is cut off the end of the one in use at `a`. */
  ghost function Cut(s: Layout, a: nat, n: nat): Layout
    requires a in s && n + 1 <= s[a].size
  {
    s[a := Elem(n, false)][a + n + 1 := Elem(s[a].size - n - 1, true)]
  }

  lemma CutTiled(s: Layout, x: nat, a: nat, n: nat)
    requires Tiled(s, x) && a in s && !s[a].free && n + 1 <= s[a].size
    ensures var t := Cut(s, a, n);
      var b := a + n + 1;
      && Tiled(t, x) && b !in s && b < x
      && End(t, a) == b && End(t, b) == End(s, a)
      && (forall c {:trigger End(t, c)} :: c in t && c != a && c != b ==> c in s && End(t, c) == End(s, c))
  {
    var t := Cut(s, a, n);
    var b := a + n + 1;
    assert End(s, a) <= x;
    assert b !in s;
    assert forall c {:trigger End(t, c)} :: c in t && c != a && c != b ==> c in s && End(t, c) == End(s, c);
    assert forall c :: c in s && c < b ==> c <= a;
  }

  lemma CutOff(s: Layout, x: nat, a: nat, n: nat)
    requires Tiled(s, x) && a in s && !s[a].free && n + 1 <= s[a].size
    ensures var t := Cut(s, a, n);
      var b := a + n + 1;
      && Tiled(t, x) && b !in s && b < x
      && End(t, a) == b && End(t, b) == End(s, a)
      && FreeUnits(t, x) == FreeUnits(s, x) + s[a].size - n - 1
      && Live(t) == Live(s)[a := n]
      && (forall c {:trigger End(t, c)} :: c in t && c != a && c != b ==> c in s && End(t, c) == End(s, c))
  {
    hide Tiled;
    CutTiled(s, x, a, n);
    FreeUnitsUpdate(s, Cut(s, a, n), a + n + 1, x);
  }

  /** The last element changes its size. */
  lemma ResizeLast(s: Layout, x: nat, a: nat, n: nat)
    requires Tiled(s, x) && Coalesced(s) && a in s && !s[a].free && End(s, a) == x
    ensures var t := s[a := Elem(n, false)];
      && Tiled(t, a + n + 1) && Coalesced(t)
      && FreeUnits(t, a + n + 1) == FreeUnits(s, x)
      && Live(t) == Live(s)[a := n]
      && (forall b {:trigger End(t, b)} :: b in t && b != a ==> b < a && End(t, b) == End(s, b) <= a)
  {
    var t := s[a := Elem(n, false)];
    assert forall b {:trigger End(t, b)} :: b in s && b != a ==> b < a && End(t, b) == End(s, b);
    FreeUnitsSame(s, t, a);
    FreeUnitsBeyond(s, a, x);
    FreeUnitsBeyond(t, a, a + n + 1);
  }
}
