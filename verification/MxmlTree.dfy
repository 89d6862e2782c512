/**
 * The pointer tree of mxml-node.c. The pointers of all nodes are tied to a plain description of
 * the forest: the list of children of each node, its parent, its place among its siblings, and a
 * height that proves there is no cycle.
 */
module MxmlTree {
  import opened Sequences
  import opened MxmlSave

  class XmlNode {
    const isElement: bool
    const name: string
    const attrs: seq<Attr>
    var parent: XmlNode?
    var child: XmlNode?
    var lastChild: XmlNode?
    var prev: XmlNode?
    var next: XmlNode?

    constructor (isElement: bool, name: string, attrs: seq<Attr>)
      ensures this.isElement == isElement && this.name == name && this.attrs == attrs
      ensures parent == child == lastChild == prev == next == null
    {
      this.isElement, this.name, this.attrs := isElement, name, attrs;
      parent, child, lastChild, prev, next := null, null, null, null, null;
    }

    /** `mxmlElementGetAttr`. */
    function GetAttr(key: string): Option<string> {
      if isElement then FirstAttr(attrs, key) else None
    }
  }

  // ---- The forest as a value ----

  datatype Shape = Shape(
    kids: map<XmlNode, seq<XmlNode>>,
    up: map<XmlNode, XmlNode?>,
    at: map<XmlNode, nat>,
    height: map<XmlNode, nat>)

  ghost predicate SameKeys(f: Shape) {
    f.up.Keys == f.kids.Keys && f.at.Keys == f.kids.Keys && f.height.Keys == f.kids.Keys
  }

  /** What is listed under a node has it as its parent, knows its own place, and is lower. */
  ghost predicate ListedGood(f: Shape, n: XmlNode, i: nat)
    requires SameKeys(f) && n in f.kids && i < |f.kids[n]|
  {
    var k := f.kids[n][i];
    k in f.kids && f.up[k] == n && f.at[k] == i && f.height[k] < f.height[n]
  }

  /** What has a parent is listed under it. */
  ghost predicate ParentGood(f: Shape, k: XmlNode)
    requires SameKeys(f) && k in f.kids
  {
    var p := f.up[k];
    p != null ==> p in f.kids && f.at[k] < |f.kids[p]| && f.kids[p][f.at[k]] == k
  }

  ghost predicate Downward(f: Shape)
    requires SameKeys(f)
  {
    forall n, i {:trigger f.kids[n][i]} :: n in f.kids && 0 <= i < |f.kids[n]| ==> ListedGood(f, n, i)
  }

  ghost predicate Upward(f: Shape)
    requires SameKeys(f)
  {
    forall k {:trigger f.up[k]} :: k in f.kids ==> ParentGood(f, k)
  }

  ghost predicate Proper(f: Shape) {
    SameKeys(f) && Downward(f) && Upward(f)
  }

  ghost function First(s: seq<XmlNode>): XmlNode? {
    if s == [] then null else s[0]
  }

  ghost function Last(s: seq<XmlNode>): XmlNode? {
    if s == [] then null else s[|s| - 1]
  }

  ghost function NextOf(f: Shape, n: XmlNode): XmlNode?
    requires Proper(f) && n in f.kids
  {
    if f.up[n] == null || f.at[n] + 1 == |f.kids[f.up[n]]| then null else f.kids[f.up[n]][f.at[n] + 1]
  }

  ghost function PrevOf(f: Shape, n: XmlNode): XmlNode?
    requires Proper(f) && n in f.kids
  {
    if f.up[n] == null || f.at[n] == 0 then null else f.kids[f.up[n]][f.at[n] - 1]
  }

  // ---- Everything below a node, in document order ----

  /** The nodes below `n`. */
  ghost function Below(f: Shape, n: XmlNode): seq<XmlNode>
    requires Proper(f) && n in f.kids
    decreases f.height[n], |f.kids[n]| + 1
  {
    BelowFrom(f, n, 0)
  }

  /** The nodes below `n`, from its `i`-th child on. */
  ghost function BelowFrom(f: Shape, n: XmlNode, i: nat): seq<XmlNode>
    requires Proper(f) && n in f.kids && i <= |f.kids[n]|
    decreases f.height[n], |f.kids[n]| - i
  {
    if i == |f.kids[n]| then [] else Whole(f, f.kids[n][i]) + BelowFrom(f, n, i + 1)
  }

  /** A node and everything below it. */
  ghost function Whole(f: Shape, n: XmlNode): (s: seq<XmlNode>)
    requires Proper(f) && n in f.kids
    ensures s != [] && s[0] == n
    decreases f.height[n], |f.kids[n]| + 2
  {
    [n] + Below(f, n)
  }

  /** A subtree holds its nodes' children. */
  lemma {:induction false} WholeDown(f: Shape, n: XmlNode, x: XmlNode, k: XmlNode)
    requires Proper(f) && n in f.kids && x in f.kids && x in Whole(f, n) && k in f.kids[x]
    ensures k in Whole(f, n)
    decreases f.height[n], |f.kids[n]| + 2
  {
    assert Whole(f, n) == [n] + BelowFrom(f, n, 0);
    if x == n {
      var i :| 0 <= i < |f.kids[n]| && f.kids[n][i] == k;
      BelowChild(f, n, 0, i);
      assert Whole(f, k)[0] in Whole(f, k);
    } else {
      var i := FromChild(f, n, 0, x);
      WholeDown(f, f.kids[n][i], x, k);
      BelowChild(f, n, 0, i);
    }
  }

  /** The subtree of a child is part of what is below. */
  lemma {:induction false} BelowChild(f: Shape, n: XmlNode, j: nat, i: nat)
    requires Proper(f) && n in f.kids && j <= i < |f.kids[n]|
    ensures forall x :: x in Whole(f, f.kids[n][i]) ==> x in BelowFrom(f, n, j)
    decreases i - j
  {
    if j < i {
      BelowChild(f, n, j + 1, i);
    }
  }

  /** What is below is in the subtree of a child. */
  lemma {:induction false} FromChild(f: Shape, n: XmlNode, j: nat, x: XmlNode) returns (i: nat)
    requires Proper(f) && n in f.kids && j <= |f.kids[n]| && x in BelowFrom(f, n, j)
    ensures j <= i < |f.kids[n]| && x in Whole(f, f.kids[n][i])
    decreases |f.kids[n]| - j
  {
    if x in Whole(f, f.kids[n][j]) {
      i := j;
    } else {
      i := FromChild(f, n, j + 1, x);
    }
  }

  /** A subtree holds only nodes of the forest, and all but its root have their parent in it. */
  lemma {:induction false} WholeUp(f: Shape, n: XmlNode, x: XmlNode)
    requires Proper(f) && n in f.kids && x in Whole(f, n)
    ensures x in f.kids && f.height[x] <= f.height[n]
    ensures x != n ==> f.up[x] != null && f.up[x] in Whole(f, n) && f.height[x] < f.height[n]
    decreases f.height[n]
  {
    if x != n {
      var i := FromChild(f, n, 0, x);
      WholeUp(f, f.kids[n][i], x);
      BelowChild(f, n, 0, i);
    }
  }

  // ---- Which nodes are in which subtree ----

  ghost function Higher(f: Shape, n: XmlNode): set<XmlNode>
    requires Proper(f) && n in f.kids
  {
    set x | x in f.kids && f.height[x] > f.height[n]
  }

  /** How many nodes are higher: climbing to the parent makes them fewer. */
  ghost function Above(f: Shape, n: XmlNode): nat
    requires Proper(f) && n in f.kids
  {
    |Higher(f, n)|
  }

  lemma AboveUp(f: Shape, n: XmlNode)
    requires Proper(f) && n in f.kids && f.up[n] != null
    ensures f.up[n] in f.kids && Above(f, f.up[n]) < Above(f, n)
  {
    var p := f.up[n];
    UpAt(f, n);
    Fewer(Higher(f, p), Higher(f, n), p);
  }

  lemma Fewer(a: set<XmlNode>, b: set<XmlNode>, x: XmlNode)
    requires a <= b && x in b && x !in a
    ensures |a| < |b|
  {
    var rest := b - a;
    assert b == a + rest && x in rest;
  }

  lemma BelowLower(f: Shape, n: XmlNode, x: XmlNode)
    requires Proper(f) && n in f.kids && x in Below(f, n)
    ensures x in f.kids && x != n && x in Whole(f, n) && f.height[x] < f.height[n]
  {
    hide Downward, Upward;
    var i := FromChild(f, n, 0, x);
    DownAt(f, n, i);
    WholeUp(f, f.kids[n][i], x);
  }

  lemma {:induction false} WholeInside(f: Shape, a: XmlNode, b: XmlNode, x: XmlNode)
    requires Proper(f) && a in f.kids && b in f.kids && x in f.kids && b in Whole(f, a) && x in Whole(f, b)
    ensures x in Whole(f, a)
    decreases Above(f, x)
  {
    if x != b {
      WholeUp(f, b, x);
      AboveUp(f, x);
      WholeInside(f, a, b, f.up[x]);
      WholeDown(f, a, f.up[x], x);
    }
  }

  /** Two subtrees have a node in common only if one holds the other. */
  lemma {:induction false} Nested(f: Shape, a: XmlNode, b: XmlNode, x: XmlNode)
    requires Proper(f) && a in f.kids && b in f.kids && x in f.kids && x in Whole(f, a) && x in Whole(f, b)
    ensures a in Whole(f, b) || b in Whole(f, a)
    decreases Above(f, x)
  {
    if x != a && x != b {
      WholeUp(f, a, x);
      WholeUp(f, b, x);
      AboveUp(f, x);
      Nested(f, a, b, f.up[x]);
    }
  }

  lemma Siblings(f: Shape, n: XmlNode, i: nat, j: nat, x: XmlNode)
    requires Proper(f) && n in f.kids && i < j < |f.kids[n]| && x in f.kids
    ensures !(x in Whole(f, f.kids[n][i]) && x in Whole(f, f.kids[n][j]))
  {
    hide Downward, Upward, Whole;
    var a, b := f.kids[n][i], f.kids[n][j];
    DownAt(f, n, i);
    DownAt(f, n, j);
    if x in Whole(f, a) && x in Whole(f, b) {
      Nested(f, a, b, x);
      if a in Whole(f, b) {
        WholeUp(f, b, a);
        WholeUp(f, b, n);
      } else {
        WholeUp(f, a, b);
        WholeUp(f, a, n);
      }
    }
  }

  // ---- Cutting a node off, and hanging it in somewhere ----

  ghost function With(s: seq<XmlNode>, i: nat, n: XmlNode): seq<XmlNode>
    requires i <= |s|
  {
    s[..i] + [n] + s[i..]
  }

  ghost function Cut(f: Shape, n: XmlNode): Shape
    requires Proper(f) && n in f.kids && f.up[n] != null
  {
    var p, i := f.up[n], f.at[n];
    Shape(
      f.kids[p := Without(f.kids[p], i)],
      f.up[n := null],
      map x | x in f.at :: if f.up[x] == p && f.at[x] > i then f.at[x] - 1 else f.at[x],
      f.height)
  }

  ghost function Hang(f: Shape, p: XmlNode, i: nat, n: XmlNode): Shape
    requires Proper(f) && n in f.kids && p in f.kids && i <= |f.kids[p]|
  {
    Shape(
      f.kids[p := With(f.kids[p], i, n)],
      f.up[n := p],
      map x | x in f.at :: if x == n then i else if f.up[x] == p && f.at[x] >= i then f.at[x] + 1 else f.at[x],
      map x | x in f.height :: if x in Whole(f, n) then f.height[x] else f.height[x] + f.height[n] + 1)
  }

  /** The places in a list that has one entry more. */
  lemma WithAt(s: seq<XmlNode>, i: nat, n: XmlNode)
    requires i <= |s|
    ensures |With(s, i, n)| == |s| + 1
    ensures forall j :: 0 <= j <= |s| ==> With(s, i, n)[j] == if j < i then s[j] else if j == i then n else s[j - 1]
  {
  }

  lemma DownAt(f: Shape, x: XmlNode, j: nat)
    requires Proper(f) && x in f.kids && j < |f.kids[x]|
    ensures ListedGood(f, x, j)
  {
    var k := f.kids[x][j];
  }

  lemma UpAt(f: Shape, k: XmlNode)
    requires Proper(f) && k in f.kids && f.up[k] != null
    ensures ParentGood(f, k) && f.height[k] < f.height[f.up[k]]
  {
    DownAt(f, f.up[k], f.at[k]);
  }

  lemma CutDown(f: Shape, n: XmlNode, x: XmlNode, j: nat)
    requires Proper(f) && n in f.kids && f.up[n] != null
    requires x in f.kids && j < |Cut(f, n).kids[x]|
    ensures ListedGood(Cut(f, n), x, j)
  {
    hide Downward, Upward;
    var p, i := f.up[n], f.at[n];
    UpAt(f, n);
    DownAt(f, x, if x == p && j >= i then j + 1 else j);
  }

  lemma CutUp(f: Shape, n: XmlNode, k: XmlNode)
    requires Proper(f) && n in f.kids && f.up[n] != null && k in f.kids
    ensures ParentGood(Cut(f, n), k)
  {
    hide Downward, Upward;
    UpAt(f, n);
    if Cut(f, n).up[k] != null {
      UpAt(f, k);
    }
  }

  lemma CutProper(f: Shape, n: XmlNode)
    requires Proper(f) && n in f.kids && f.up[n] != null
    ensures Proper(Cut(f, n))
  {
    hide Without, ListedGood, ParentGood;
    var g := Cut(f, n);
    UpAt(f, n);
    assert SameKeys(g);
    forall x, j | x in g.kids && 0 <= j < |g.kids[x]|
      ensures ListedGood(g, x, j)
    {
      CutDown(f, n, x, j);
    }
    forall k | k in g.kids
      ensures ParentGood(g, k)
    {
      CutUp(f, n, k);
    }
  }

  /** A child is in the subtree of a root exactly if its parent is. */
  lemma SameSide(f: Shape, n: XmlNode, x: XmlNode, d: nat)
    requires Proper(f) && n in f.kids && f.up[n] == null && x in f.kids && d < |f.kids[x]|
    ensures x in Whole(f, n) <==> f.kids[x][d] in Whole(f, n)
    ensures f.kids[x][d] != n
  {
    hide Whole;
    var k := f.kids[x][d];
    DownAt(f, x, d);
    if x in Whole(f, n) {
      WholeDown(f, n, x, k);
    } else if k in Whole(f, n) {
      WholeUp(f, n, k);
    }
  }

  /** Where an entry of a child list was before. */
  lemma HangKids(f: Shape, p: XmlNode, i: nat, n: XmlNode, x: XmlNode, j: nat)
    requires Proper(f) && n in f.kids && p in f.kids && i <= |f.kids[p]|
    requires x in f.kids && j < |Hang(f, p, i, n).kids[x]| && !(x == p && j == i)
    ensures var d := if x == p && j > i then j - 1 else j;
      d < |f.kids[x]| && Hang(f, p, i, n).kids[x][j] == f.kids[x][d]
  {
    hide Proper, Whole;
    WithAt(f.kids[p], i, n);
  }

  lemma HangNew(f: Shape, p: XmlNode, i: nat, n: XmlNode)
    requires Proper(f) && n in f.kids && p in f.kids && i <= |f.kids[p]|
    ensures Hang(f, p, i, n).kids[p][i] == n && n in Whole(f, n)
  {
    hide Proper;
    WithAt(f.kids[p], i, n);
    assert n in [n];
  }

  /** What becomes of the marks of a node. */
  lemma HangMarks(f: Shape, p: XmlNode, i: nat, n: XmlNode, k: XmlNode)
    requires Proper(f) && n in f.kids && p in f.kids && i <= |f.kids[p]| && k in f.kids
    ensures SameKeys(Hang(f, p, i, n)) && Hang(f, p, i, n).kids == f.kids[p := With(f.kids[p], i, n)]
    ensures var g := Hang(f, p, i, n);
      && g.up[k] == (if k == n then p else f.up[k])
      && g.at[k] == (if k == n then i else if f.up[k] == p && f.at[k] >= i then f.at[k] + 1 else f.at[k])
      && g.height[k] == (if k in Whole(f, n) then f.height[k] else f.height[k] + f.height[n] + 1)
  {
    hide Downward, Upward, Whole, With;
  }

  lemma HangDown(f: Shape, p: XmlNode, i: nat, n: XmlNode, x: XmlNode, j: nat)
    requires Proper(f) && n in f.kids && f.up[n] == null && p in f.kids && i <= |f.kids[p]|
    requires p !in Whole(f, n) && x in f.kids && j < |Hang(f, p, i, n).kids[x]|
    ensures SameKeys(Hang(f, p, i, n)) && ListedGood(Hang(f, p, i, n), x, j)
  {
    hide Downward, Upward, Hang, Whole;
    HangMarks(f, p, i, n, x);
    if x == p && j == i {
      HangMarks(f, p, i, n, n);
      HangNew(f, p, i, n);
    } else {
      var d := if x == p && j > i then j - 1 else j;
      HangKids(f, p, i, n, x, j);
      DownAt(f, x, d);
      SameSide(f, n, x, d);
      HangMarks(f, p, i, n, f.kids[x][d]);
    }
  }

  lemma HangUp(f: Shape, p: XmlNode, i: nat, n: XmlNode, k: XmlNode)
    requires Proper(f) && n in f.kids && f.up[n] == null && p in f.kids && i <= |f.kids[p]|
    requires k in f.kids
    ensures ParentGood(Hang(f, p, i, n), k)
  {
    hide Downward, Upward, Whole;
    WithAt(f.kids[p], i, n);
    if k != n && f.up[k] != null {
      UpAt(f, k);
    }
  }

  lemma HangProper(f: Shape, p: XmlNode, i: nat, n: XmlNode)
    requires Proper(f) && n in f.kids && f.up[n] == null && p in f.kids && i <= |f.kids[p]|
    requires p !in Whole(f, n)
    ensures Proper(Hang(f, p, i, n))
  {
    hide With, Whole, ListedGood, ParentGood;
    var g := Hang(f, p, i, n);
    assert SameKeys(g);
    forall x, j | x in g.kids && 0 <= j < |g.kids[x]|
      ensures ListedGood(g, x, j)
    {
      HangDown(f, p, i, n, x, j);
    }
    forall k | k in g.kids
      ensures ParentGood(g, k)
    {
      HangUp(f, p, i, n, k);
    }
  }

  // ---- What cutting and hanging mean for the pointers ----

  lemma CutPointers(f: Shape, n: XmlNode, x: XmlNode)
    requires Proper(f) && n in f.kids && f.up[n] != null && Proper(Cut(f, n)) && x in f.kids
    ensures NextOf(Cut(f, n), x) ==
      if x == n then null else if x == PrevOf(f, n) then NextOf(f, n) else NextOf(f, x)
    ensures PrevOf(Cut(f, n), x) ==
      if x == n then null else if x == NextOf(f, n) then PrevOf(f, n) else PrevOf(f, x)
  {
    hide Downward, Upward, NextOf, PrevOf;
    CutNext(f, n, x);
    CutPrev(f, n, x);
  }

  lemma CutNext(f: Shape, n: XmlNode, x: XmlNode)
    requires Proper(f) && n in f.kids && f.up[n] != null && Proper(Cut(f, n)) && x in f.kids
    ensures NextOf(Cut(f, n), x) ==
      if x == n then null else if x == PrevOf(f, n) then NextOf(f, n) else NextOf(f, x)
  {
    hide Downward, Upward;
    var p, i := f.up[n], f.at[n];
    UpAt(f, n);
    if i > 0 {
      DownAt(f, p, i - 1);
    }
    if f.up[x] != null {
      UpAt(f, x);
    }
  }

  lemma CutPrev(f: Shape, n: XmlNode, x: XmlNode)
    requires Proper(f) && n in f.kids && f.up[n] != null && Proper(Cut(f, n)) && x in f.kids
    ensures PrevOf(Cut(f, n), x) ==
      if x == n then null else if x == NextOf(f, n) then PrevOf(f, n) else PrevOf(f, x)
  {
    hide Downward, Upward;
    var p, i := f.up[n], f.at[n];
    UpAt(f, n);
    if i + 1 < |f.kids[p]| {
      DownAt(f, p, i + 1);
    }
    if f.up[x] != null {
      UpAt(f, x);
    }
  }

  lemma CutEnds(f: Shape, n: XmlNode, x: XmlNode)
    requires Proper(f) && n in f.kids && f.up[n] != null && x in f.kids
    ensures First(Cut(f, n).kids[x]) ==
      if x == f.up[n] && PrevOf(f, n) == null then NextOf(f, n) else First(f.kids[x])
    ensures Last(Cut(f, n).kids[x]) ==
      if x == f.up[n] && NextOf(f, n) == null then PrevOf(f, n) else Last(f.kids[x])
  {
    hide Downward, Upward;
    UpAt(f, n);
  }

  ghost function Before(f: Shape, p: XmlNode, i: nat): XmlNode?
    requires p in f.kids && i <= |f.kids[p]|
  {
    if i == 0 then null else f.kids[p][i - 1]
  }

  ghost function Behind(f: Shape, p: XmlNode, i: nat): XmlNode?
    requires p in f.kids && i <= |f.kids[p]|
  {
    if i == |f.kids[p]| then null else f.kids[p][i]
  }

  lemma HangPointers(f: Shape, p: XmlNode, i: nat, n: XmlNode, x: XmlNode)
    requires Proper(f) && n in f.kids && f.up[n] == null && p in f.kids && i <= |f.kids[p]|
    requires Proper(Hang(f, p, i, n)) && x in f.kids
    ensures NextOf(Hang(f, p, i, n), x) ==
      if x == n then Behind(f, p, i) else if x == Before(f, p, i) then n else NextOf(f, x)
    ensures PrevOf(Hang(f, p, i, n), x) ==
      if x == n then Before(f, p, i) else if x == Behind(f, p, i) then n else PrevOf(f, x)
  {
    hide Proper, Hang, NextOf, PrevOf;
    HangNext(f, p, i, n, x);
    HangPrev(f, p, i, n, x);
  }

  lemma HangNext(f: Shape, p: XmlNode, i: nat, n: XmlNode, x: XmlNode)
    requires Proper(f) && n in f.kids && f.up[n] == null && p in f.kids && i <= |f.kids[p]|
    requires Proper(Hang(f, p, i, n)) && x in f.kids
    ensures NextOf(Hang(f, p, i, n), x) ==
      if x == n then Behind(f, p, i) else if x == Before(f, p, i) then n else NextOf(f, x)
  {
    hide Downward, Upward, Hang;
    HangMarks(f, p, i, n, x);
    WithAt(f.kids[p], i, n);
    if i > 0 {
      DownAt(f, p, i - 1);
    }
    if i < |f.kids[p]| {
      DownAt(f, p, i);
    }
    if f.up[x] != null {
      UpAt(f, x);
    }
  }

  lemma HangPrev(f: Shape, p: XmlNode, i: nat, n: XmlNode, x: XmlNode)
    requires Proper(f) && n in f.kids && f.up[n] == null && p in f.kids && i <= |f.kids[p]|
    requires Proper(Hang(f, p, i, n)) && x in f.kids
    ensures PrevOf(Hang(f, p, i, n), x) ==
      if x == n then Before(f, p, i) else if x == Behind(f, p, i) then n else PrevOf(f, x)
  {
    hide Downward, Upward, Hang;
    HangMarks(f, p, i, n, x);
    WithAt(f.kids[p], i, n);
    if i > 0 {
      DownAt(f, p, i - 1);
    }
    if i < |f.kids[p]| {
      DownAt(f, p, i);
    }
    if f.up[x] != null {
      UpAt(f, x);
    }
  }

  lemma HangEnds(f: Shape, p: XmlNode, i: nat, n: XmlNode, x: XmlNode)
    requires Proper(f) && n in f.kids && p in f.kids && i <= |f.kids[p]| && x in f.kids
    ensures First(Hang(f, p, i, n).kids[x]) == if x == p && i == 0 then n else First(f.kids[x])
    ensures Last(Hang(f, p, i, n).kids[x]) == if x == p && i == |f.kids[p]| then n else Last(f.kids[x])
  {
    hide Proper, Whole;
    WithAt(f.kids[p], i, n);
  }
}
