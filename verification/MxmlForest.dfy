/** Adding and removing nodes: mxmlAdd, mxmlRemove and mxml_new over the pointers of a forest. */
module MxmlForest {
  import opened MxmlSave
  import opened MxmlTree
  import Sequences

  datatype Where = AddBefore | AddAfter

  /** The pointers of a node are what the description of the forest says. */
  ghost predicate Pointing(f: Shape, n: XmlNode)
    requires Proper(f) && n in f.kids
    reads n
  {
    && n.parent == f.up[n]
    && n.child == First(f.kids[n])
    && n.lastChild == Last(f.kids[n])
    && n.next == NextOf(f, n)
    && n.prev == PrevOf(f, n)
  }

  /** The place among the children of `p` at which `mxmlAdd` puts a node. */
  ghost function Place(f: Shape, p: XmlNode, position: Where, c: XmlNode?): (i: nat)
    requires Proper(f) && p in f.kids && (c != null ==> c in f.kids)
    ensures i <= |f.kids[p]|
  {
    if c == null || f.up[c] != p then (if position.AddBefore? then 0 else |f.kids[p]|)
    else UpAt(f, c); (if position.AddBefore? then f.at[c] else f.at[c] + 1)
  }

  ghost function Removed(f: Shape, n: XmlNode): Shape
    requires Proper(f) && n in f.kids
  {
    if f.up[n] == null then f else Cut(f, n)
  }

  /** A subtree whose nodes keep their children is the same subtree. */
  lemma {:induction false} SameWhole(f: Shape, g: Shape, n: XmlNode)
    requires Proper(f) && Proper(g) && n in f.kids && n in g.kids
    requires forall x :: x in Whole(f, n) && x in f.kids ==> x in g.kids && g.kids[x] == f.kids[x]
    ensures Whole(g, n) == Whole(f, n)
    decreases f.height[n], |f.kids[n]| + 1
  {
    hide Downward, Upward;
    assert n in Whole(f, n) by {
      assert Whole(f, n)[0] == n;
    }
    SameFrom(f, g, n, 0);
  }

  lemma {:induction false} SameFrom(f: Shape, g: Shape, n: XmlNode, i: nat)
    requires Proper(f) && Proper(g) && n in f.kids && n in g.kids && g.kids[n] == f.kids[n]
    requires i <= |f.kids[n]|
    requires forall x :: x in Whole(f, n) && x in f.kids ==> x in g.kids && g.kids[x] == f.kids[x]
    ensures BelowFrom(g, n, i) == BelowFrom(f, n, i)
    decreases f.height[n], |f.kids[n]| - i
  {
    if i < |f.kids[n]| {
      DownAt(f, n, i);
      DownAt(g, n, i);
      BelowChild(f, n, 0, i);
      assert Whole(f, n) == [n] + BelowFrom(f, n, 0);
      SameWhole(f, g, f.kids[n][i]);
      SameFrom(f, g, n, i + 1);
    }
  }

  lemma CutKeys(f: Shape, n: XmlNode)
    requires Proper(f) && n in f.kids && f.up[n] != null
    ensures Cut(f, n).kids.Keys == f.kids.Keys
  {
    UpAt(f, n);
  }

  /** Cutting a node off leaves its own subtree alone. */
  lemma CutWhole(f: Shape, n: XmlNode)
    requires Proper(f) && n in f.kids && f.up[n] != null && Proper(Cut(f, n))
    ensures Whole(Cut(f, n), n) == Whole(f, n)
  {
    hide Downward, Upward, Whole;
    UpAt(f, n);
    if f.up[n] in Whole(f, n) {
      WholeUp(f, n, f.up[n]);
      assert false;
    }
    SameWhole(f, Cut(f, n), n);
  }

  ghost predicate Listed(f: Shape, n: XmlNode)
    requires Proper(f)
  {
    n in f.kids && f.up[n] != null && Proper(Cut(f, n))
  }

  /** The parent and the siblings of a node are in the forest too. */
  lemma Around(f: Shape, n: XmlNode)
    requires Proper(f) && n in f.kids && f.up[n] != null
    ensures f.up[n] in f.kids
    ensures PrevOf(f, n) != null ==> PrevOf(f, n) in f.kids
    ensures NextOf(f, n) != null ==> NextOf(f, n) in f.kids
  {
    hide Downward, Upward;
    UpAt(f, n);
    if f.at[n] > 0 {
      DownAt(f, f.up[n], f.at[n] - 1);
    }
    if f.at[n] + 1 < |f.kids[f.up[n]]| {
      DownAt(f, f.up[n], f.at[n] + 1);
    }
  }

  /** The pointers of `x` once `n` is cut off. */
  ghost predicate CutOff(f: Shape, n: XmlNode, x: XmlNode)
    requires Proper(f) && Listed(f, n) && x in f.kids
    reads x
  {
    var b, a := PrevOf(f, n), NextOf(f, n);
    && x.parent == (if x == n then null else f.up[x])
    && x.child == (if x == f.up[n] && b == null then a else First(f.kids[x]))
    && x.lastChild == (if x == f.up[n] && a == null then b else Last(f.kids[x]))
    && x.next == (if x == n then null else if x == b then a else NextOf(f, x))
    && x.prev == (if x == n then null else if x == a then b else PrevOf(f, x))
  }

  lemma CutPointing(f: Shape, n: XmlNode, x: XmlNode)
    requires Proper(f) && Listed(f, n) && x in f.kids && CutOff(f, n, x)
    ensures Pointing(Cut(f, n), x)
  {
    hide Proper, First, Last, NextOf, PrevOf;
    CutPointers(f, n, x);
    CutEnds(f, n, x);
  }

  /** `n` is to become the `i`-th child of `p`. */
  ghost predicate Hangable(f: Shape, p: XmlNode, i: nat, n: XmlNode)
    requires Proper(f)
  {
    n in f.kids && f.up[n] == null && p in f.kids && i <= |f.kids[p]| && Proper(Hang(f, p, i, n))
  }

  /** The pointers of `x` once `n` is the `i`-th child of `p`. */
  ghost predicate HungIn(f: Shape, p: XmlNode, i: nat, n: XmlNode, x: XmlNode)
    requires Proper(f) && Hangable(f, p, i, n) && x in f.kids
    reads x
  {
    var b, a := Before(f, p, i), Behind(f, p, i);
    && x.parent == (if x == n then p else f.up[x])
    && x.child == (if x == p && i == 0 then n else First(f.kids[x]))
    && x.lastChild == (if x == p && i == |f.kids[p]| then n else Last(f.kids[x]))
    && x.next == (if x == n then a else if x == b then n else NextOf(f, x))
    && x.prev == (if x == n then b else if x == a then n else PrevOf(f, x))
  }

  lemma HungPointing(f: Shape, p: XmlNode, i: nat, n: XmlNode, x: XmlNode)
    requires Proper(f) && Hangable(f, p, i, n) && x in f.kids && HungIn(f, p, i, n, x)
    ensures Hang(f, p, i, n).kids.Keys == f.kids.Keys && Pointing(Hang(f, p, i, n), x)
  {
    hide Proper, Hang, First, Last, NextOf, PrevOf, Before, Behind;
    HangMarks(f, p, i, n, x);
    HangPointers(f, p, i, n, x);
    HangEnds(f, p, i, n, x);
  }

  /** The neighbours of a new child, and that they are not the child itself. */
  lemma Gap(f: Shape, p: XmlNode, i: nat, n: XmlNode)
    requires Proper(f) && Hangable(f, p, i, n)
    ensures Before(f, p, i) != null ==> Before(f, p, i) in f.kids && Before(f, p, i) != n
    ensures Behind(f, p, i) != null ==> Behind(f, p, i) in f.kids && Behind(f, p, i) != n
    ensures NextOf(f, n) == null && PrevOf(f, n) == null
    ensures Before(f, p, i) == null <==> i == 0
    ensures Behind(f, p, i) == null <==> i == |f.kids[p]|
    ensures i == 0 ==> Behind(f, p, i) == First(f.kids[p])
    ensures i == |f.kids[p]| ==> Before(f, p, i) == Last(f.kids[p])
  {
    hide Downward, Upward, Hang;
    if i > 0 {
      DownAt(f, p, i - 1);
    }
    if i < |f.kids[p]| {
      DownAt(f, p, i);
    }
  }

  lemma GapInFront(f: Shape, c: XmlNode, n: XmlNode)
    requires Proper(f) && c in f.kids && f.up[c] != null && Hangable(f, f.up[c], f.at[c], n)
    ensures var p, i, b := f.up[c], f.at[c], PrevOf(f, c);
      && p in f.kids && c in f.at && i < |f.kids[p]| && c != n
      && Behind(f, p, i) == c && Before(f, p, i) == b && (b == null <==> i == 0)
      && (b != null ==> b in f.kids && b != n)
  {
    hide Downward, Upward, Hang;
    GapAt(f, c);
    Gap(f, f.up[c], f.at[c], n);
  }

  lemma GapBehind(f: Shape, c: XmlNode, n: XmlNode)
    requires Proper(f) && c in f.kids && f.up[c] != null && Hangable(f, f.up[c], f.at[c] + 1, n)
    ensures var p, i, a := f.up[c], f.at[c] + 1, NextOf(f, c);
      && p in f.kids && c in f.at && i <= |f.kids[p]| && c != n
      && Before(f, p, i) == c && Behind(f, p, i) == a && (a == null <==> i == |f.kids[p]|)
      && (a != null ==> a in f.kids && a != n)
  {
    hide Downward, Upward, Hang;
    GapAt(f, c);
    Gap(f, f.up[c], f.at[c] + 1, n);
  }

  /** The gaps in front of a child and behind it. */
  lemma GapAt(f: Shape, c: XmlNode)
    requires Proper(f) && c in f.kids && f.up[c] != null
    ensures var p, i := f.up[c], f.at[c];
      && c in f.at && p in f.kids && i < |f.kids[p]|
      && Behind(f, p, i) == c && Before(f, p, i) == PrevOf(f, c)
      && Before(f, p, i + 1) == c && Behind(f, p, i + 1) == NextOf(f, c)
  {
    hide Downward, Upward;
    UpAt(f, c);
  }

  ghost function Added(f: Shape, p: XmlNode, position: Where, c: XmlNode?, n: XmlNode): Shape
    requires Proper(f) && n in f.kids && p in f.kids && (c != null ==> c in f.kids) && p !in Whole(f, n)
  {
    RemovedProper(f, n);
    var g := Removed(f, n);
    Hang(g, p, Place(g, p, position, c), n)
  }

  lemma RemovedProper(f: Shape, n: XmlNode)
    requires Proper(f) && n in f.kids
    ensures var g := Removed(f, n);
      && Proper(g) && g.kids.Keys == f.kids.Keys && g.height == f.height && g.up[n] == null
      && Whole(g, n) == Whole(f, n)
  {
    hide Downward, Upward, Whole;
    if f.up[n] != null {
      CutProper(f, n);
      CutKeys(f, n);
      CutWhole(f, n);
    }
  }

  /** The children of a node without `n`. */
  ghost function Others(f: Shape, x: XmlNode, n: XmlNode): seq<XmlNode>
    requires Proper(f) && x in f.kids && n in f.kids
  {
    if f.up[n] == x then UpAt(f, n); Sequences.Without(f.kids[x], f.at[n]) else f.kids[x]
  }

  /** The children `kids` are the children `others` with `n` next to `c`. */
  ghost predicate NextTo(kids: seq<XmlNode>, others: seq<XmlNode>, position: Where, c: XmlNode, n: XmlNode) {
    exists i :: 0 <= i < |others| && others[i] == c &&
      kids == others[..i] + (if position.AddBefore? then [n, c] else [c, n]) + others[i + 1..]
  }

  /** A node is listed where it is asked to be: next to the reference child if that is a child of the parent, on the
      side that is named, and as the first or the last child otherwise. The other children keep their order.
   */
  lemma AddedPlace(f: Shape, p: XmlNode, position: Where, c: XmlNode?, n: XmlNode)
    requires Proper(f) && n in f.kids && p in f.kids && (c != null ==> c in f.kids) && p !in Whole(f, n) && c != n
    ensures f.up[n] != null ==>
      f.up[n] in f.kids && f.at[n] < |f.kids[f.up[n]]| && f.kids[f.up[n]][f.at[n]] == n
    ensures var kids, others := Added(f, p, position, c, n).kids[p], Others(f, p, n);
      if c != null && f.up[c] == p then NextTo(kids, others, position, c, n)
      else kids == if position.AddBefore? then [n] + others else others + [n]
    ensures forall x :: x in f.kids && x != p ==> Added(f, p, position, c, n).kids[x] == Others(f, x, n)
  {
    hide Downward, Upward, Whole, Cut, Hang, Place, Removed, NextTo, Others;
    RemovedProper(f, n);
    var g := Removed(f, n);
    OthersAre(f, n);
    HungKids(g, p, Place(g, p, position, c), n);
    PlaceIn(f, p, position, c, n);
    if f.up[n] != null {
      UpAt(f, n);
    }
  }

  lemma OthersAre(f: Shape, n: XmlNode)
    requires Proper(f) && n in f.kids
    ensures forall x :: x in f.kids ==> x in Removed(f, n).kids && Removed(f, n).kids[x] == Others(f, x, n)
    ensures forall x :: x in f.kids && x != n ==> x in Removed(f, n).up && Removed(f, n).up[x] == f.up[x]
  {
    hide Downward, Upward;
    if f.up[n] != null {
      UpAt(f, n);
    }
  }

  lemma HungKids(f: Shape, p: XmlNode, i: nat, n: XmlNode)
    requires Proper(f) && n in f.kids && p in f.kids && i <= |f.kids[p]|
    ensures Hang(f, p, i, n).kids == f.kids[p := With(f.kids[p], i, n)]
  {
  }

  /** Where the place is among the other children. */
  lemma PlaceIn(f: Shape, p: XmlNode, position: Where, c: XmlNode?, n: XmlNode)
    requires Proper(f) && n in f.kids && p in f.kids && (c != null ==> c in f.kids) && c != n
    requires var g := Removed(f, n); Proper(g) && p in g.kids && (c != null ==> c in g.kids)
    ensures var kids, i := Removed(f, n).kids[p], Place(Removed(f, n), p, position, c);
      if c != null && f.up[c] == p then NextTo(With(kids, i, n), kids, position, c, n)
      else With(kids, i, n) == if position.AddBefore? then [n] + kids else kids + [n]
  {
    hide Downward, Upward, Removed;
    OthersAre(f, n);
    var g := Removed(f, n);
    if c != null && f.up[c] == p {
      UpAt(g, c);
      Beside(g.kids[p], g.at[c], n, c);
    }
  }

  lemma Beside(s: seq<XmlNode>, i: nat, n: XmlNode, c: XmlNode)
    requires i < |s| && s[i] == c
    ensures With(s, i, n) == s[..i] + [n, c] + s[i + 1..]
    ensures With(s, i + 1, n) == s[..i] + [c, n] + s[i + 1..]
  {
  }

  ghost function Grown(f: Shape, n: XmlNode): Shape {
    Shape(f.kids[n := []], f.up[n := null], f.at[n := 0], f.height[n := 0])
  }

  lemma GrownProper(f: Shape, n: XmlNode)
    requires Proper(f) && n !in f.kids
    ensures Proper(Grown(f, n)) && Whole(Grown(f, n), n) == [n]
  {
    var g := Grown(f, n);
    forall x, i | x in g.kids && 0 <= i < |g.kids[x]|
      ensures ListedGood(g, x, i)
    {
      DownAt(f, x, i);
    }
    forall x | x in g.kids
      ensures ParentGood(g, x)
    {
      if g.up[x] != null {
        UpAt(f, x);
      }
    }
    assert BelowFrom(g, n, 0) == [];
  }

  lemma GrownPointers(f: Shape, n: XmlNode, x: XmlNode)
    requires Proper(f) && n !in f.kids && Proper(Grown(f, n)) && x in Grown(f, n).kids
    ensures var g := Grown(f, n);
      if x == n then NextOf(g, x) == PrevOf(g, x) == null && g.kids[x] == [] && g.up[x] == null
      else NextOf(g, x) == NextOf(f, x) && PrevOf(g, x) == PrevOf(f, x) && g.kids[x] == f.kids[x] && g.up[x] == f.up[x]
  {
    hide Downward, Upward;
    if x != n && f.up[x] != null {
      UpAt(f, x);
    }
  }

  ghost function Forgotten(f: Shape, n: XmlNode): Shape {
    Shape(f.kids - {n}, f.up - {n}, f.at - {n}, f.height - {n})
  }

  /** A node that is in no list and has no children can go. */
  lemma ForgottenProper(f: Shape, n: XmlNode)
    requires Proper(f) && n in f.kids && f.up[n] == null && f.kids[n] == []
    ensures Proper(Forgotten(f, n))
  {
    var g := Forgotten(f, n);
    forall x, i | x in g.kids && 0 <= i < |g.kids[x]|
      ensures ListedGood(g, x, i)
    {
      DownAt(f, x, i);
    }
    forall x | x in g.kids
      ensures ParentGood(g, x)
    {
      if g.up[x] != null {
        UpAt(f, x);
      }
    }
  }

  lemma ForgottenPointers(f: Shape, n: XmlNode, x: XmlNode)
    requires Proper(f) && Proper(Forgotten(f, n)) && x in f.kids && x != n
    requires n in f.kids && f.kids[n] == []
    ensures var g := Forgotten(f, n);
      g.kids[x] == f.kids[x] && g.up[x] == f.up[x] && g.height[x] == f.height[x]
      && NextOf(g, x) == NextOf(f, x) && PrevOf(g, x) == PrevOf(f, x)
  {
    hide Downward, Upward;
    if f.up[x] != null {
      UpAt(f, x);
    }
  }

  /** What is left of `was` while the children of `n`, which is in no list, go one by one. */
  ghost predicate Half(was: Shape, n: XmlNode, j: nat, f: Shape)
    requires Proper(was) && n in was.kids && j <= |was.kids[n]|
  {
    && SameKeys(f)
    && f.kids.Keys == (set x | x in was.kids && (x !in Below(was, n) || x in BelowFrom(was, n, j)))
    && (forall x :: x in f.kids && x != n ==> f.kids[x] == was.kids[x])
    && (n in f.kids ==> f.kids[n] == was.kids[n][j..])
    && (forall x :: x in f.kids ==> f.up[x] == was.up[x] && f.height[x] == was.height[x])
  }

  /** What is left of `was` when `n` and all below it are gone. */
  ghost predicate Gone(was: Shape, n: XmlNode, f: Shape)
    requires Proper(was) && n in was.kids && Proper(Removed(was, n))
  {
    && SameKeys(f)
    && f.kids.Keys == (set x | x in was.kids && x !in Whole(was, n))
    && forall x :: x in f.kids ==>
      && x in Removed(was, n).kids && f.kids[x] == Removed(was, n).kids[x]
      && f.up[x] == Removed(was, n).up[x] && f.height[x] == was.height[x]
  }

  lemma HalfAtFirst(was: Shape, n: XmlNode)
    requires Proper(was) && n in was.kids
    ensures Half(was, n, 0, was)
  {
    assert was.kids[n] == was.kids[n][0..];
  }

  lemma HalfStays(was: Shape, n: XmlNode, j: nat, f: Shape)
    requires Proper(was) && n in was.kids && j <= |was.kids[n]| && Half(was, n, j, f)
    ensures n in f.kids && f.kids[n] == was.kids[n][j..] && f.kids.Keys <= was.kids.Keys
  {
    hide Downward, Upward;
    if n in Below(was, n) {
      BelowLower(was, n, n);
    }
  }

  /** The subtree of the next child is still there. */
  lemma HalfChild(was: Shape, n: XmlNode, j: nat, f: Shape)
    requires Proper(was) && n in was.kids && j < |was.kids[n]| && Proper(f) && Half(was, n, j, f)
    ensures var k := was.kids[n][j];
      && k in was.kids && k in f.kids && n in f.kids && f.kids[n] != [] && k == f.kids[n][0]
      && f.up[k] == n && f.at[k] == 0 && k in f.height && n in was.height && f.height[k] < was.height[n]
      && Whole(f, k) == Whole(was, k)
  {
    hide Downward, Upward;
    var k := was.kids[n][j];
    HalfStays(was, n, j, f);
    DownAt(was, n, j);
    DownAt(f, n, 0);
    assert BelowFrom(was, n, j) == Whole(was, k) + BelowFrom(was, n, j + 1);
    forall x | x in Whole(was, k) && x in was.kids
      ensures x in f.kids && f.kids[x] == was.kids[x]
    {
      WholeUp(was, k, x);
    }
    SameWhole(was, f, k);
  }

  /** Which nodes stay when the subtree of a child goes. */
  lemma NextPart(was: Shape, n: XmlNode, j: nat, x: XmlNode)
    requires Proper(was) && n in was.kids && j < |was.kids[n]| && x in was.kids && was.kids[n][j] in was.kids
    ensures (x !in Below(was, n) || x in BelowFrom(was, n, j)) && x !in Whole(was, was.kids[n][j]) <==>
      x !in Below(was, n) || x in BelowFrom(was, n, j + 1)
  {
    hide Downward, Upward;
    var k := was.kids[n][j];
    assert BelowFrom(was, n, j) == Whole(was, k) + BelowFrom(was, n, j + 1);
    BelowChild(was, n, 0, j);
    if x in BelowFrom(was, n, j + 1) {
      var i := FromChild(was, n, j + 1, x);
      Siblings(was, n, j, i, x);
    }
  }

  lemma HalfStep(was: Shape, n: XmlNode, j: nat, f: Shape, g: Shape)
    requires Proper(was) && n in was.kids && j < |was.kids[n]| && Proper(f) && Half(was, n, j, f)
    requires was.kids[n][j] in f.kids && Proper(Removed(f, was.kids[n][j])) && Gone(f, was.kids[n][j], g)
    ensures Half(was, n, j + 1, g)
  {
    hide Proper, Below, BelowFrom, Whole, Cut;
    var k := was.kids[n][j];
    HalfChild(was, n, j, f);
    forall x | x in was.kids
      ensures x in g.kids <==> x !in Below(was, n) || x in BelowFrom(was, n, j + 1)
    {
      NextPart(was, n, j, x);
    }
    CutFirst(f, n);
    assert f.kids[n][1..] == was.kids[n][j + 1..];
  }

  lemma CutFirst(f: Shape, n: XmlNode)
    requires Proper(f) && n in f.kids && f.kids[n] != []
    ensures var k := f.kids[n][0];
      && k in f.kids && f.up[k] == n
      && n in Cut(f, k).kids && Cut(f, k).kids[n] == f.kids[n][1..]
      && (forall x :: x in f.kids ==> x in Cut(f, k).kids && (x != n ==> Cut(f, k).kids[x] == f.kids[x]))
      && (forall x :: x in f.kids ==> x in Cut(f, k).up && (x != k ==> Cut(f, k).up[x] == f.up[x]))
  {
    hide Downward, Upward;
    DownAt(f, n, 0);
  }

  lemma HalfGone(was: Shape, n: XmlNode, r: Shape, f: Shape)
    requires Proper(was) && n in was.kids && r == Removed(was, n) && Proper(r)
    requires Half(r, n, |r.kids[n]|, f)
    ensures n in f.kids && f.kids[n] == [] && f.up[n] == null
    ensures Gone(was, n, Forgotten(f, n))
  {
    hide Downward, Upward;
    RemovedProper(was, n);
    HalfStays(r, n, |r.kids[n]|, f);
    assert Whole(r, n) == [n] + Below(r, n);
    assert BelowFrom(r, n, |r.kids[n]|) == [];
  }

  /** The first child and the last one are at the two ends. */
  lemma PlaceAt(f: Shape, c: XmlNode)
    requires Proper(f) && c in f.kids && f.up[c] != null
    ensures f.up[c] in f.kids && c in f.at
    ensures c == First(f.kids[f.up[c]]) <==> f.at[c] == 0
    ensures c == Last(f.kids[f.up[c]]) <==> f.at[c] + 1 == |f.kids[f.up[c]]|
  {
    var p := f.up[c];
    UpAt(f, c);
    DownAt(f, p, 0);
    DownAt(f, p, |f.kids[p]| - 1);
  }

  class Forest {
    ghost var f: Shape

    ghost predicate Valid()
      reads this, f.kids.Keys
    {
      Proper(f) && forall n :: n in f.kids ==> Pointing(f, n)
    }

    /** `mxmlAdd`: the node is taken from where it was, and put among the children of the parent. */
    method Add(parent: XmlNode?, position: Where, child: XmlNode?, node: XmlNode?)
      requires Valid() && Mine(parent) && Mine(child) && Mine(node)
      requires parent != null && node != null ==> parent !in Whole(f, node) && child != node
      modifies this, f.kids.Keys
      ensures Valid() && f.kids.Keys == old(f.kids.Keys)
      ensures f == if parent == null || node == null then old(f) else Added(old(f), parent, position, child, node)
    {
      if parent == null || node == null {
        return;
      }
      hide Proper, Hang, Cut, Place, First, Last, NextOf, PrevOf, Whole;
      RemovedProper(f, node);
      if node.parent != null {
        Remove(node);
      }
      Put(parent, position, child, node);
    }

    /** The part of `mxmlAdd` after the node has been taken from where it was. */
    method Put(parent: XmlNode, position: Where, child: XmlNode?, node: XmlNode)
      requires Valid() && parent in f.kids && Mine(child)
      requires node in f.kids && f.up[node] == null && parent !in Whole(f, node)
      modifies this, f.kids.Keys
      ensures Valid() && f.kids.Keys == old(f.kids.Keys)
      ensures f == old(Hang(f, parent, Place(f, parent, position, child), node))
    {
      hide Proper, Hang, Place, First, Last, NextOf, PrevOf, Before, Behind, Whole;
      ghost var i := Place(f, parent, position, child);
      HangProper(f, parent, i, node);
      Insert(parent, position, child, node);
      ghost var g := Hang(f, parent, i, node);
      HungAll(i, parent, node);
      f := g;
    }

    lemma HungAll(i: nat, parent: XmlNode, node: XmlNode)
      requires Proper(f) && Hangable(f, parent, i, node)
      requires forall x :: x in f.kids ==> HungIn(f, parent, i, node, x)
      ensures var g := Hang(f, parent, i, node);
        g.kids.Keys == f.kids.Keys && forall x :: x in g.kids ==> Pointing(g, x)
    {
      hide Proper, Hang, HungIn, Pointing;
      HungPointing(f, parent, i, node, node);
      forall x | x in f.kids
        ensures Pointing(Hang(f, parent, i, node), x)
      {
        HungPointing(f, parent, i, node, x);
      }
    }

    method Insert(parent: XmlNode, position: Where, child: XmlNode?, node: XmlNode)
      requires Valid() && parent in f.kids && Mine(child)
      requires Hangable(f, parent, Place(f, parent, position, child), node)
      modifies f.kids.Keys
      ensures forall x :: x in f.kids ==> HungIn(f, parent, Place(f, parent, position, child), node, x)
    {
      hide Proper, Hang, HungIn;
      assert Pointing(f, parent);
      assert child != null ==> Pointing(f, child);
      if child != null && child.parent == parent {
        PlaceAt(f, child);
      }
      match position
      case AddBefore =>
        if child == null || child == parent.child || child.parent != parent {
          AddFirst(parent, node);
        } else {
          AddInFront(parent, child, node, Place(f, parent, position, child));
        }
      case AddAfter =>
        if child == null || child == parent.lastChild || child.parent != parent {
          AddLast(parent, node, Place(f, parent, position, child));
        } else {
          AddAfterChild(parent, child, node, Place(f, parent, position, child));
        }
    }

    ghost predicate Mine(n: XmlNode?)
      reads this
    {
      n != null ==> n in f.kids
    }

    constructor ()
      ensures Valid() && f == Shape(map[], map[], map[], map[])
    {
      f := Shape(map[], map[], map[], map[]);
    }

    /** `mxml_new`: a node of its own, or the new last child of its parent. */
    method Create(parent: XmlNode?, isElement: bool, name: string, attrs: seq<Attr>) returns (node: XmlNode)
      requires Valid() && Mine(parent)
      modifies this, f.kids.Keys
      ensures Valid() && fresh(node) && f.kids.Keys == old(f.kids.Keys) + {node}
      ensures node.isElement == isElement && node.name == name && node.attrs == attrs
      ensures node !in old(f.kids) && Proper(Grown(old(f), node))
      ensures parent == null ==> f == Grown(old(f), node)
      ensures parent != null ==>
        && parent !in Whole(Grown(old(f), node), node)
        && f == Added(Grown(old(f), node), parent, AddAfter, null, node)
    {
      hide Proper, Whole, Added, Place, First, Last, NextOf, PrevOf;
      node := new XmlNode(isElement, name, attrs);
      Enter(node);
      if parent != null {
        Add(parent, AddAfter, null, node);
      }
    }

    ghost method Enter(node: XmlNode)
      requires Valid() && node !in f.kids
      requires node.parent == node.child == node.lastChild == node.prev == node.next == null
      modifies this
      ensures f == Grown(old(f), node) && Valid() && Whole(f, node) == [node]
    {
      hide Proper, Whole;
      GrownProper(f, node);
      ghost var g := Grown(f, node);
      forall x | x in g.kids
        ensures Pointing(g, x)
      {
        GrownPointers(f, node, x);
      }
      f := g;
    }

    /** `mxmlRemove`. */
    method Remove(node: XmlNode?)
      requires Valid() && Mine(node)
      modifies this, f.kids.Keys
      ensures Valid() && f.kids.Keys == old(f.kids.Keys)
      ensures f == if node == null then old(f) else Removed(old(f), node)
    {
      hide Proper, Cut, CutOff, First, Last, NextOf, PrevOf;
      if node == null {
        return;
      }
      assert Pointing(f, node);
      if node.parent == null {
        return;
      }
      CutProper(f, node);
      CutKeys(f, node);
      Unlink(node);
      forall x | x in f.kids
        ensures Pointing(Cut(f, node), x)
      {
        CutPointing(f, node, x);
      }
      f := Cut(f, node);
    }

    /** `mxmlDelete`: the node and everything below it, and nothing else, leaves the forest. */
    method Delete(node: XmlNode?)
      requires Valid() && Mine(node)
      modifies this, f.kids.Keys
      ensures Valid() && (node == null ==> f == old(f))
      ensures node != null ==> node in old(f.kids) && Proper(Removed(old(f), node)) && Gone(old(f), node, f)
      decreases Height(node)
    {
      hide Proper, Removed, Gone, Half, Below, BelowFrom, Whole, Last, NextOf, PrevOf;
      if node == null {
        return;
      }
      ghost var was := f;
      RemovedProper(was, node);
      Remove(node);
      ghost var r := f;
      ghost var j := 0;
      HalfAtFirst(r, node);
      HalfStays(r, node, 0, r);
      while node.child != null
        invariant Valid() && j <= |r.kids[node]| && Half(r, node, j, f) && f.kids.Keys <= r.kids.Keys
        invariant node in f.kids && f.kids[node] == r.kids[node][j..]
        decreases |r.kids[node]| - j
      {
        HalfChild(r, node, j, f);
        ghost var before := f;
        RemovedProper(f, node.child);
        Delete(node.child);
        HalfStep(r, node, j, before, f);
        j := j + 1;
        HalfStays(r, node, j, f);
      }
      HalfGone(was, node, r, f);
      Forget(node);
    }

    ghost function Height(n: XmlNode?): nat
      reads this
    {
      if n != null && n in f.height then f.height[n] + 1 else 0
    }

    ghost method Forget(node: XmlNode)
      requires Valid() && node in f.kids && f.up[node] == null && f.kids[node] == []
      modifies this
      ensures Valid() && f == old(Forgotten(f, node))
    {
      hide Proper;
      ForgottenProper(f, node);
      ghost var g := Forgotten(f, node);
      forall x | x in g.kids
        ensures Pointing(g, x)
      {
        ForgottenPointers(f, node, x);
      }
      f := g;
    }

    method Unlink(node: XmlNode)
      requires Valid() && Listed(f, node)
      modifies f.kids.Keys
      ensures forall x :: x in f.kids ==> CutOff(f, node, x)
    {
      hide Proper, First, Last, NextOf, PrevOf;
      Around(f, node);
      assert Pointing(f, node);
      SkipNext(node);
      SkipPrev(node);
      node.parent := null;
      node.prev := null;
      node.next := null;
    }

    method SkipNext(node: XmlNode)
      requires Valid() && Listed(f, node)
      modifies f.kids.Keys`next, f.kids.Keys`child
      ensures forall x :: x in f.kids ==>
        x.next == if x == PrevOf(f, node) then NextOf(f, node) else NextOf(f, x)
      ensures forall x :: x in f.kids ==>
        x.child == if x == f.up[node] && PrevOf(f, node) == null then NextOf(f, node) else First(f.kids[x])
    {
      hide Proper, First, Last, NextOf, PrevOf;
      Around(f, node);
      if node.prev != null {
        node.prev.next := node.next;
      } else {
        node.parent.child := node.next;
      }
    }

    method SkipPrev(node: XmlNode)
      requires Proper(f) && Listed(f, node)
      requires node.parent == f.up[node] && node.next == NextOf(f, node) && node.prev == PrevOf(f, node)
      requires forall x :: x in f.kids ==> x.prev == PrevOf(f, x) && x.lastChild == Last(f.kids[x])
      modifies f.kids.Keys`prev, f.kids.Keys`lastChild
      ensures forall x :: x in f.kids ==>
        x.prev == if x == NextOf(f, node) then PrevOf(f, node) else PrevOf(f, x)
      ensures forall x :: x in f.kids ==>
        x.lastChild == if x == f.up[node] && NextOf(f, node) == null then PrevOf(f, node) else Last(f.kids[x])
    {
      hide Proper, First, Last, NextOf, PrevOf;
      Around(f, node);
      if node.next != null {
        node.next.prev := node.prev;
      } else {
        node.parent.lastChild := node.prev;
      }
    }

    method AddFirst(parent: XmlNode, node: XmlNode)
      requires Valid() && Hangable(f, parent, 0, node)
      modifies f.kids.Keys
      ensures forall x :: x in f.kids ==> HungIn(f, parent, 0, node, x)
    {
      hide Proper, Hang, First, Last, NextOf, PrevOf, Before, Behind;
      Gap(f, parent, 0, node);
      assert Pointing(f, parent) && Pointing(f, node);
      TellFirst(parent, node);
      node.next := parent.child;
      node.parent := parent;
      parent.child := node;
    }

    /** The child that was first, or else the parent's end, points to the new node. */
    method TellFirst(parent: XmlNode, node: XmlNode)
      requires Proper(f) && Hangable(f, parent, 0, node) && parent.child == First(f.kids[parent])
      requires forall x :: x in f.kids ==> x.prev == PrevOf(f, x) && x.lastChild == Last(f.kids[x])
      modifies f.kids.Keys`prev, f.kids.Keys`lastChild
      ensures forall x :: x in f.kids ==>
        x.prev == if x == Behind(f, parent, 0) then node else PrevOf(f, x)
      ensures forall x :: x in f.kids ==>
        x.lastChild == if x == parent && 0 == |f.kids[parent]| then node else Last(f.kids[x])
    {
      hide Proper, Hang, First, Last, NextOf, PrevOf, Before, Behind;
      Gap(f, parent, 0, node);
      if parent.child != null {
        parent.child.prev := node;
      } else {
        parent.lastChild := node;
      }
    }

    method AddInFront(parent: XmlNode, child: XmlNode, node: XmlNode, ghost i: nat)
      requires Valid() && child in f.kids && f.up[child] == parent && f.at[child] == i
      requires Hangable(f, parent, i, node)
      modifies f.kids.Keys
      ensures forall x :: x in f.kids ==> HungIn(f, parent, i, node, x)
    {
      hide Proper, Hang, First, Last, NextOf, PrevOf, Before, Behind;
      GapInFront(f, child, node);
      assert Pointing(f, child);
      assert Pointing(f, parent);
      FrontNext(parent, child, node, i);
      FrontPrev(child, node, i);
      node.parent := parent;
    }

    /** The new node points to the one in front of it, and the one behind to the new one. */
    method FrontPrev(child: XmlNode, node: XmlNode, ghost i: nat)
      requires Proper(f) && child in f.kids && f.up[child] != null && f.at[child] == i
      requires Hangable(f, f.up[child], i, node)
      requires forall x :: x in f.kids ==> x.prev == PrevOf(f, x)
      modifies f.kids.Keys`prev
      ensures forall x :: x in f.kids ==>
        x.prev == if x == node then Before(f, f.up[child], i) else if x == child then node else PrevOf(f, x)
    {
      hide Proper, Hang, First, Last, NextOf, PrevOf, Before, Behind;
      GapInFront(f, child, node);
      node.prev := child.prev;
      child.prev := node;
    }

    /** The new node points to the one behind it, and the node in front or else the parent to the new one. */
    method FrontNext(parent: XmlNode, child: XmlNode, node: XmlNode, ghost i: nat)
      requires Valid() && child in f.kids && f.up[child] == parent && f.at[child] == i
      requires Hangable(f, parent, i, node)
      modifies f.kids.Keys`next, f.kids.Keys`child
      ensures forall x :: x in f.kids ==>
        x.next == if x == node then child else if x == Before(f, parent, i) then node else NextOf(f, x)
      ensures forall x :: x in f.kids ==> x.child == if x == parent && i == 0 then node else First(f.kids[x])
    {
      hide Proper, Hang, First, Last, NextOf, PrevOf, Before, Behind;
      GapInFront(f, child, node);
      assert Pointing(f, child);
      node.next := child;
      if child.prev != null {
        child.prev.next := node;
      } else {
        parent.child := node;
      }
    }

    method AddLast(parent: XmlNode, node: XmlNode, ghost i: nat)
      requires Valid() && parent in f.kids && i == |f.kids[parent]| && Hangable(f, parent, i, node)
      modifies f.kids.Keys
      ensures forall x :: x in f.kids ==> HungIn(f, parent, i, node, x)
    {
      hide Proper, Hang, First, Last, NextOf, PrevOf, Before, Behind;
      Gap(f, parent, i, node);
      assert Pointing(f, parent) && Pointing(f, node);
      node.parent := parent;
      node.prev := parent.lastChild;
      if parent.lastChild != null {
        parent.lastChild.next := node;
      } else {
        parent.child := node;
      }
      parent.lastChild := node;
    }

    method AddAfterChild(parent: XmlNode, child: XmlNode, node: XmlNode, ghost i: nat)
      requires Valid() && child in f.kids && f.up[child] == parent && f.at[child] + 1 == i
      requires Hangable(f, parent, i, node)
      modifies f.kids.Keys
      ensures forall x :: x in f.kids ==> HungIn(f, parent, i, node, x)
    {
      hide Proper, Hang, First, Last, NextOf, PrevOf, Before, Behind;
      GapBehind(f, child, node);
      assert Pointing(f, child);
      node.parent := parent;
      node.prev := child;
      node.next := child.next;
      if child.next != null {
        child.next.prev := node;
      } else {
        parent.lastChild := node;
      }
      child.next := node;
    }
  }
}
