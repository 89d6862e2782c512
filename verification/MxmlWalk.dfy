/** Walking over a tree in document order, forwards and backwards: mxml-search.c. */
module MxmlWalk {
  import opened Sequences
  import opened MxmlSave
  import opened MxmlTree
  import opened MxmlForest

  datatype Descend = Descend | NoDescend | DescendFirst

  // ---- One step forwards ----

  /** The next node that is not below `n`: a sibling, or what follows the parent unless that is `top`. */
  ghost function Follow(f: Shape, n: XmlNode, top: XmlNode?): XmlNode?
    requires Proper(f) && n in f.kids
    decreases Above(f, n)
  {
    if NextOf(f, n) != null then NextOf(f, n)
    else if f.up[n] == null || f.up[n] == top then null
    else AboveUp(f, n); Follow(f, f.up[n], top)
  }

  /** `mxmlWalkNext` when it descends. */
  ghost function Step(f: Shape, n: XmlNode, top: XmlNode?): XmlNode?
    requires Proper(f) && n in f.kids
  {
    if f.kids[n] != [] then f.kids[n][0] else Follow(f, n, top)
  }

  // ---- The nodes that are still ahead ----

  /** All that comes behind the subtree of `n` in document order, up to the end of `top`. */
  ghost function After(f: Shape, n: XmlNode, top: XmlNode?): seq<XmlNode>
    requires Proper(f) && n in f.kids
    decreases Above(f, n)
  {
    if f.up[n] == null then []
    else
      UpAt(f, n);
      AboveUp(f, n);
      BelowFrom(f, f.up[n], f.at[n] + 1) + if f.up[n] == top then [] else After(f, f.up[n], top)
  }

  /** What the walk from `n` has ahead of it. */
  ghost function Ahead(f: Shape, n: XmlNode, top: XmlNode?): seq<XmlNode>
    requires Proper(f) && n in f.kids
  {
    Below(f, n) + if n == top && f.kids[n] != [] then [] else After(f, n, top)
  }

  lemma NextBelow(f: Shape, p: XmlNode, i: nat)
    requires Proper(f) && p in f.kids && i <= |f.kids[p]|
    ensures BelowFrom(f, p, i) ==
      if i == |f.kids[p]| then [] else Whole(f, f.kids[p][i]) + BelowFrom(f, p, i + 1)
  {
    hide Whole;
    if i < |f.kids[p]| {
      DownAt(f, p, i);
    }
  }

  lemma {:induction false} FollowIsAfter(f: Shape, n: XmlNode, top: XmlNode?)
    requires Proper(f) && n in f.kids
    ensures Follow(f, n, top) == First(After(f, n, top))
    ensures Follow(f, n, top) != null ==> var y := Follow(f, n, top);
      y in f.kids && After(f, n, top) == Whole(f, y) + After(f, y, top)
    decreases Above(f, n)
  {
    hide Downward, Upward, Whole, BelowFrom;
    if f.up[n] != null {
      var p, i := f.up[n], f.at[n] + 1;
      UpAt(f, n);
      AboveUp(f, n);
      NextBelow(f, p, i);
      if i < |f.kids[p]| {
        DownAt(f, p, i);
      } else if p != top {
        FollowIsAfter(f, p, top);
      }
    }
  }

  /** One step moves the walk to the first node that is ahead, and leaves the others ahead. */
  lemma StepAhead(f: Shape, n: XmlNode, top: XmlNode?)
    requires Proper(f) && n in f.kids && top !in Ahead(f, n, top)
    ensures Step(f, n, top) == First(Ahead(f, n, top))
    ensures Step(f, n, top) != null ==> var y := Step(f, n, top);
      y in f.kids && Ahead(f, n, top) == [y] + Ahead(f, y, top)
  {
    hide Proper, Follow, After, Below;
    if f.kids[n] != [] {
      FirstAhead(f, n, top);
    } else {
      FollowAhead(f, n, top);
    }
  }

  lemma BelowNone(f: Shape, n: XmlNode)
    requires Proper(f) && n in f.kids && f.kids[n] == []
    ensures Below(f, n) == []
  {
    hide Downward, Upward;
  }

  lemma FollowAhead(f: Shape, n: XmlNode, top: XmlNode?)
    requires Proper(f) && n in f.kids && f.kids[n] == [] && top !in Ahead(f, n, top)
    ensures Step(f, n, top) == First(Ahead(f, n, top))
    ensures Step(f, n, top) != null ==> var y := Step(f, n, top);
      y in f.kids && Ahead(f, n, top) == [y] + Ahead(f, y, top)
  {
    hide Proper, Follow, After, Below;
    BelowNone(f, n);
    FollowIsAfter(f, n, top);
    var y := Follow(f, n, top);
    if y != null {
      assert Ahead(f, n, top)[0] == y;
    }
  }

  /** The first child, and what comes behind it. */
  lemma FirstChild(f: Shape, n: XmlNode, top: XmlNode?)
    requires Proper(f) && n in f.kids && f.kids[n] != []
    ensures var k := f.kids[n][0];
      && k in f.kids
      && Below(f, n) == [k] + Below(f, k) + BelowFrom(f, n, 1)
      && After(f, k, top) == BelowFrom(f, n, 1) + if n == top then [] else After(f, n, top)
  {
    hide Downward, Upward;
    DownAt(f, n, 0);
    assert BelowFrom(f, n, 0) == Whole(f, f.kids[n][0]) + BelowFrom(f, n, 1);
  }

  lemma FirstAhead(f: Shape, n: XmlNode, top: XmlNode?)
    requires Proper(f) && n in f.kids && f.kids[n] != [] && top !in Ahead(f, n, top)
    ensures var k := f.kids[n][0];
      k in f.kids && Ahead(f, n, top) == [k] + Ahead(f, k, top)
  {
    hide Proper, Below, BelowFrom, After;
    FirstChild(f, n, top);
    assert Ahead(f, n, top)[0] == f.kids[n][0];
  }

  // ---- The walk stays clear of its top ----

  /** What comes behind the subtree of `n` holds nothing of that subtree. */
  lemma {:induction false} AfterApart(f: Shape, n: XmlNode, top: XmlNode?, x: XmlNode, y: XmlNode)
    requires Proper(f) && n in f.kids && x in After(f, n, top) && y in f.kids && y in Whole(f, n)
    ensures x in f.kids && y !in Whole(f, x)
    decreases Above(f, n)
  {
    if f.up[n] != null {
      var p, i := f.up[n], f.at[n];
      UpAt(f, n);
      AboveUp(f, n);
      if x in BelowFrom(f, p, i + 1) {
        var j := FromChild(f, p, i + 1, x);
        DownAt(f, p, j);
        WholeUp(f, f.kids[p][j], x);
        Siblings(f, p, i, j, y);
        if y in Whole(f, x) {
          WholeInside(f, f.kids[p][j], x, y);
        }
      } else {
        BelowChild(f, p, 0, i);
        assert y in Whole(f, p);
        AfterApart(f, p, top, x, y);
      }
    }
  }

  lemma AheadClear(f: Shape, n: XmlNode, top: XmlNode)
    requires Proper(f) && n in f.kids && top in f.kids && n in Whole(f, top)
    ensures top !in Ahead(f, n, top)
  {
    hide Downward, Upward, Below, After;
    if top in Below(f, n) {
      BelowLower(f, n, top);
      WholeUp(f, top, n);
    }
    if top in After(f, n, top) {
      assert Whole(f, n)[0] in Whole(f, n);
      AfterApart(f, n, top, top, n);
    }
  }

  /**
   * A walk that starts at its top visits what is below the top, in document order, and nothing
   * else, provided that the top has children. Without children it goes on behind the top, and it
   * has nowhere to go exactly if the top and all nodes around it are last children.
   */
  lemma WholeWalk(f: Shape, top: XmlNode)
    requires Proper(f) && top in f.kids
    ensures Ahead(f, top, top) == Below(f, top) <==>
      f.kids[top] != [] || forall a :: a in f.kids && top in Whole(f, a) ==> NextOf(f, a) == null
  {
    hide Whole;
    if f.kids[top] == [] {
      assert Below(f, top) == [];
      AfterNone(f, top, top);
    }
  }

  lemma {:induction false} AfterNone(f: Shape, n: XmlNode, top: XmlNode)
    requires Proper(f) && n in f.kids && top in f.kids && f.height[n] >= f.height[top]
    ensures After(f, n, top) == [] <==> forall a :: a in f.kids && n in Whole(f, a) ==> NextOf(f, a) == null
    decreases Above(f, n)
  {
    hide Downward, Upward, Whole;
    assert Whole(f, n)[0] in Whole(f, n);
    if f.up[n] != null {
      var p, i := f.up[n], f.at[n] + 1;
      UpAt(f, n);
      AboveUp(f, n);
      AfterNone(f, p, top);
      if i < |f.kids[p]| {
        DownAt(f, p, i);
        assert BelowFrom(f, p, i) == Whole(f, f.kids[p][i]) + BelowFrom(f, p, i + 1);
      }
    }
    forall a | a in f.kids && a != n
      ensures f.up[n] == null ==> n !in Whole(f, a)
      ensures f.up[n] != null ==> (n in Whole(f, a) <==> f.up[n] in Whole(f, a))
    {
      if n in Whole(f, a) {
        WholeUp(f, a, n);
      } else if f.up[n] != null && f.up[n] in Whole(f, a) {
        WholeDown(f, a, f.up[n], n);
      }
    }
  }

  // ---- One step backwards ----

  /** The last node of a subtree in document order. */
  ghost function Deepest(f: Shape, n: XmlNode): XmlNode
    requires Proper(f) && n in f.kids
    decreases f.height[n]
  {
    if f.kids[n] == [] then n else DownAt(f, n, |f.kids[n]| - 1); Deepest(f, f.kids[n][|f.kids[n]| - 1])
  }

  /** `mxmlWalkPrev` when it descends. */
  ghost function StepBack(f: Shape, n: XmlNode, top: XmlNode?): XmlNode?
    requires Proper(f) && n in f.kids
  {
    if PrevOf(f, n) != null then Around(f, n); Deepest(f, PrevOf(f, n))
    else if f.up[n] != top then f.up[n]
    else null
  }

  /** Climbing from the last node of a subtree leads out of the whole subtree. */
  lemma {:induction false} FollowDeepest(f: Shape, n: XmlNode, x: XmlNode, top: XmlNode?)
    requires Proper(f) && n in f.kids && x in f.kids && Deepest(f, n) == x && Follow(f, n, top) != null
    ensures var y := Follow(f, n, top);
      y in f.kids && f.up[y] != null && PrevOf(f, y) != null && PrevOf(f, y) in f.kids
      && Deepest(f, PrevOf(f, y)) == x
    decreases Above(f, n)
  {
    UpAt(f, n);
    AboveUp(f, n);
    if NextOf(f, n) != null {
      DownAt(f, f.up[n], f.at[n] + 1);
    } else {
      FollowDeepest(f, f.up[n], x, top);
    }
  }

  /** A step backwards undoes a step forwards. */
  lemma BackAfterStep(f: Shape, n: XmlNode, top: XmlNode?)
    requires Proper(f) && n in f.kids && n != top && Step(f, n, top) != null
    ensures Step(f, n, top) in f.kids && StepBack(f, Step(f, n, top), top) == n
  {
    if f.kids[n] != [] {
      DownAt(f, n, 0);
    } else {
      FollowDeepest(f, n, n, top);
    }
  }

  /** From the last node of a subtree that is clear of `top`, the walk goes where it goes from its root. */
  lemma {:induction false} DeepestFollow(f: Shape, n: XmlNode, top: XmlNode)
    requires Proper(f) && n in f.kids && top in f.kids && f.height[n] < f.height[top]
    ensures Deepest(f, n) in f.kids && f.kids[Deepest(f, n)] == []
    ensures Follow(f, Deepest(f, n), top) == Follow(f, n, top)
    decreases f.height[n]
  {
    if f.kids[n] != [] {
      DownAt(f, n, |f.kids[n]| - 1);
      DeepestFollow(f, f.kids[n][|f.kids[n]| - 1], top);
    }
  }

  /** A step forwards undoes a step backwards, and a step backwards from the first node leads nowhere. */
  lemma StepAfterBack(f: Shape, n: XmlNode, top: XmlNode)
    requires Proper(f) && n in f.kids && top in f.kids && n in Below(f, top)
    ensures StepBack(f, n, top) == null <==> n == Below(f, top)[0]
    ensures StepBack(f, n, top) != null ==> var y := StepBack(f, n, top);
      y in f.kids && Step(f, y, top) == n
  {
    BelowLower(f, top, n);
    WholeUp(f, top, n);
    WholeUp(f, top, f.up[n]);
    UpAt(f, n);
    if PrevOf(f, n) != null {
      Around(f, n);
      DownAt(f, f.up[n], f.at[n] - 1);
      DeepestFollow(f, PrevOf(f, n), top);
    }
  }

  // ---- No node is met twice ----

  lemma {:induction false} BelowDistinct(f: Shape, n: XmlNode, i: nat)
    requires Proper(f) && n in f.kids && i <= |f.kids[n]|
    ensures Distinct(BelowFrom(f, n, i))
    decreases f.height[n], |f.kids[n]| - i
  {
    if i < |f.kids[n]| {
      var k := f.kids[n][i];
      BelowDistinct(f, k, 0);
      BelowDistinct(f, n, i + 1);
      forall x | x in Whole(f, k)
        ensures x !in BelowFrom(f, n, i + 1)
      {
        WholeUp(f, k, x);
        if x in BelowFrom(f, n, i + 1) {
          var j := FromChild(f, n, i + 1, x);
          Siblings(f, n, i, j, x);
        }
      }
      forall x | x in Below(f, k)
        ensures x != k
      {
        BelowLower(f, k, x);
      }
      DistinctJoin([k], Below(f, k));
      DistinctJoin(Whole(f, k), BelowFrom(f, n, i + 1));
    }
  }

  // ---- The methods ----

  /** `mxmlWalkNext`. */
  method WalkNext(forest: Forest, node: XmlNode?, top: XmlNode?, descend: Descend) returns (r: XmlNode?)
    requires forest.Valid() && forest.Mine(node)
    ensures r ==
      if node == null then null
      else if descend.NoDescend? then Follow(forest.f, node, top)
      else Step(forest.f, node, top)
    ensures forest.Mine(r)
  {
    if node == null {
      return null;
    }
    ghost var f := forest.f;
    Nearby(f, node, top);
    if node.child != null && !descend.NoDescend? {
      return node.child;
    } else if node.next != null {
      return node.next;
    } else if node.parent != null && node.parent != top {
      var n: XmlNode := node.parent;
      AboveUp(f, node);
      while n.next == null
        invariant n in f.kids && Follow(f, n, top) == Follow(f, node, top)
        decreases Above(f, n)
      {
        if n.parent == top || n.parent == null {
          return null;
        }
        AboveUp(f, n);
        n := n.parent;
      }
      Nearby(f, n, top);
      return n.next;
    }
    return null;
  }

  lemma Nearby(f: Shape, n: XmlNode, top: XmlNode?)
    requires Proper(f) && n in f.kids
    ensures f.up[n] != null ==> f.up[n] in f.kids
    ensures NextOf(f, n) != null ==> NextOf(f, n) in f.kids
    ensures PrevOf(f, n) != null ==> PrevOf(f, n) in f.kids
    ensures f.kids[n] != [] ==> First(f.kids[n]) in f.kids && Last(f.kids[n]) in f.kids
  {
    hide Downward, Upward;
    if f.up[n] != null {
      Around(f, n);
    }
    if f.kids[n] != [] {
      DownAt(f, n, 0);
      DownAt(f, n, |f.kids[n]| - 1);
    }
  }

  /** `mxmlWalkPrev`. */
  method WalkPrev(forest: Forest, node: XmlNode?, top: XmlNode?, descend: Descend) returns (r: XmlNode?)
    requires forest.Valid() && forest.Mine(node)
    ensures r ==
      if node == null then null
      else if descend.NoDescend? && PrevOf(forest.f, node) != null then PrevOf(forest.f, node)
      else StepBack(forest.f, node, top)
    ensures forest.Mine(r)
  {
    if node == null {
      return null;
    }
    ghost var f := forest.f;
    Nearby(f, node, top);
    if node.prev != null {
      Nearby(f, node.prev, top);
      if node.prev.lastChild != null && !descend.NoDescend? {
        var n: XmlNode := node.prev.lastChild;
        while n.lastChild != null
          invariant n in f.kids && Deepest(f, n) == Deepest(f, node.prev)
          decreases f.height[n]
        {
          DownAt(f, n, |f.kids[n]| - 1);
          n := n.lastChild;
        }
        return n;
      } else {
        return node.prev;
      }
    } else if node.parent != top {
      return node.parent;
    }
    return null;
  }

  // ---- Searching ----

  /** What is looked for; what is not given is not looked at. */
  datatype Wanted = Wanted(name: Option<string>, attr: Option<string>, value: Option<string>)

  predicate Matches(n: XmlNode, w: Wanted) {
    && n.isElement
    && (w.name.None? || n.name == w.name.value)
    && (w.attr.None? ||
        var found := n.GetAttr(w.attr.value);
        found.Some? && (w.value.None? || w.value == found))
  }

  /** The attribute at `i` is the first one with that name. */
  predicate Named(attrs: seq<Attr>, key: string, i: nat) {
    i < |attrs| && attrs[i].name == key && forall j :: 0 <= j < i ==> attrs[j].name != key
  }

  lemma {:induction false} FirstNamed(attrs: seq<Attr>, key: string, v: string)
    ensures FirstAttr(attrs, key) == Some(v) <==> exists i: nat :: Named(attrs, key, i) && attrs[i].value == Some(v)
  {
    if attrs != [] {
      var rest := attrs[1..];
      FirstNamed(rest, key, v);
      if attrs[0].name == key {
        assert Named(attrs, key, 0);
        assert forall i: nat :: Named(attrs, key, i) ==> i == 0;
      } else {
        if i: nat :| Named(rest, key, i) && rest[i].value == Some(v) {
          assert forall j :: 0 < j <= i + 1 ==> attrs[j] == rest[j - 1];
          assert Named(attrs, key, i + 1);
        }
        if i: nat :| Named(attrs, key, i) && attrs[i].value == Some(v) {
          assert Named(rest, key, i - 1) && rest[i - 1].value == Some(v);
        }
      }
    }
  }

  /** Only elements match. If an attribute is asked for, the first one of that name counts, and it needs a value. */
  lemma MatchesMeans(n: XmlNode, w: Wanted)
    ensures Matches(n, w) <==>
      && n.isElement && (w.name.Some? ==> n.name == w.name.value)
      && (w.attr.Some? ==> exists i: nat ::
          && Named(n.attrs, w.attr.value, i) && n.attrs[i].value.Some?
          && (w.value.Some? ==> n.attrs[i].value == w.value))
  {
    if w.attr.Some? {
      forall v
        ensures FirstAttr(n.attrs, w.attr.value) == Some(v) <==>
          exists i: nat :: Named(n.attrs, w.attr.value, i) && n.attrs[i].value == Some(v)
      {
        FirstNamed(n.attrs, w.attr.value, v);
      }
    }
  }

  ghost function FirstMatch(s: seq<XmlNode>, w: Wanted): XmlNode? {
    if s == [] then null else if Matches(s[0], w) then s[0] else FirstMatch(s[1..], w)
  }

  /** A node and its later siblings. */
  ghost function FromSibling(f: Shape, n: XmlNode): seq<XmlNode>
    requires Proper(f) && n in f.kids
  {
    if f.up[n] == null then [n] else UpAt(f, n); f.kids[f.up[n]][f.at[n]..]
  }

  /** The nodes that a search looks at, in this order. */
  ghost function Searched(f: Shape, n: XmlNode, top: XmlNode?, descend: Descend): seq<XmlNode>
    requires Proper(f) && n in f.kids
  {
    if descend.Descend? then Ahead(f, n, top)
    else
      var y := if descend.NoDescend? then Follow(f, n, top) else Step(f, n, top);
      StepInside(f, n, top);
      if y == null then [] else FromSibling(f, y)
  }

  /** The part of a search from the node `n`, which is looked at next. */
  ghost function Remaining(f: Shape, n: XmlNode, top: XmlNode?, descend: Descend): (s: seq<XmlNode>)
    requires Proper(f) && n in f.kids
    ensures s != [] && s[0] == n
  {
    NextSibling(f, n);
    if descend.Descend? then [n] + Ahead(f, n, top) else FromSibling(f, n)
  }

  lemma {:induction false} StepInside(f: Shape, n: XmlNode, top: XmlNode?)
    requires Proper(f) && n in f.kids
    ensures Follow(f, n, top) != null ==> Follow(f, n, top) in f.kids
    ensures Step(f, n, top) != null ==> Step(f, n, top) in f.kids
  {
    FollowIsAfter(f, n, top);
    if f.kids[n] != [] {
      DownAt(f, n, 0);
    }
  }

  lemma NextSibling(f: Shape, n: XmlNode)
    requires Proper(f) && n in f.kids
    ensures NextOf(f, n) == null ==> FromSibling(f, n) == [n]
    ensures NextOf(f, n) != null ==> NextOf(f, n) in f.kids && FromSibling(f, n) == [n] + FromSibling(f, NextOf(f, n))
  {
    hide Downward, Upward;
    if f.up[n] != null {
      UpAt(f, n);
      if f.at[n] + 1 < |f.kids[f.up[n]]| {
        DownAt(f, f.up[n], f.at[n] + 1);
      }
    }
  }

  /** What is looked at first, and after a node that is looked at. */
  lemma FirstSearched(f: Shape, node: XmlNode, top: XmlNode, descend: Descend)
    requires Proper(f) && node in f.kids && (descend.Descend? ==> top !in Ahead(f, node, top))
    ensures var y := if descend.NoDescend? then Follow(f, node, top) else Step(f, node, top);
      if y == null then Searched(f, node, top, descend) == []
      else
        && y in f.kids && Searched(f, node, top, descend) == Remaining(f, y, top, descend)
        && (descend.Descend? ==> top !in Ahead(f, y, top))
  {
    hide Proper, Ahead, Follow, Step, FromSibling;
    StepInside(f, node, top);
    if descend.Descend? {
      StepAhead(f, node, top);
    }
  }

  lemma NextSearched(f: Shape, n: XmlNode, top: XmlNode, descend: Descend)
    requires Proper(f) && n in f.kids && (descend.Descend? ==> top !in Ahead(f, n, top))
    ensures var y := if descend.Descend? then Step(f, n, top) else NextOf(f, n);
      if y == null then Remaining(f, n, top, descend)[1..] == []
      else
        && y in f.kids && Remaining(f, n, top, descend)[1..] == Remaining(f, y, top, descend)
        && (descend.Descend? ==> top !in Ahead(f, y, top))
  {
    hide Proper, Ahead, Step, NextOf, FromSibling;
    if descend.Descend? {
      StepAhead(f, n, top);
    } else {
      NextSibling(f, n);
    }
  }

  lemma OneMatch(s: seq<XmlNode>, w: Wanted)
    requires s != []
    ensures FirstMatch(s, w) == if Matches(s[0], w) then s[0] else FirstMatch(s[1..], w)
  {
  }

  lemma NoMatch(w: Wanted)
    ensures FirstMatch([], w) == null
  {
  }

  /** `mxmlFindElement`. */
  method FindElement(forest: Forest, node: XmlNode?, top: XmlNode?, w: Wanted, descend: Descend) returns (r: XmlNode?)
    requires forest.Valid() && forest.Mine(node)
    requires node != null && top != null && descend.Descend? ==> top !in Ahead(forest.f, node, top)
    ensures r ==
      if node == null || top == null || (w.attr.None? && w.value.Some?) then null
      else FirstMatch(Searched(forest.f, node, top, descend), w)
  {
    if node == null || top == null || (w.attr.None? && w.value.Some?) {
      return null;
    }
    hide Proper, Pointing, Ahead, After, Below, Follow, Step, NextOf, Searched, Remaining, FirstMatch;
    ghost var f := forest.f;
    ghost var s := Searched(f, node, top, descend);
    FirstSearched(f, node, top, descend);
    r := WalkNext(forest, node, top, descend);
    while r != null
      invariant forest.Mine(r)
      invariant FirstMatch(Searched(f, node, top, descend), w) == FirstMatch(s, w)
      invariant if r == null then s == [] else s == Remaining(f, r, top, descend)
      invariant r != null && descend.Descend? ==> top !in Ahead(f, r, top)
      decreases |s|
    {
      OneMatch(s, w);
      if r.isElement && (w.name.None? || r.name == w.name.value) {
        if w.attr.None? {
          return;
        }
        var found := r.GetAttr(w.attr.value);
        if found.Some? && (w.value.None? || w.value == found) {
          return;
        }
      }
      s := s[1..];
      NextSearched(f, r, top, descend);
      if descend.Descend? {
        r := WalkNext(forest, r, top, Descend);
      } else {
        r := r.next;
      }
    }
    NoMatch(w);
  }

  /** All that matches, in the same order. */
  ghost function AllMatches(s: seq<XmlNode>, w: Wanted): seq<XmlNode> {
    if s == [] then [] else (if Matches(s[0], w) then [s[0]] else []) + AllMatches(s[1..], w)
  }

  /** A search leaves ahead of its result just the later matches. */
  lemma {:induction false} SearchOn(f: Shape, n: XmlNode, top: XmlNode, w: Wanted)
    requires Proper(f) && n in f.kids && top !in Ahead(f, n, top)
    ensures var r := FirstMatch(Ahead(f, n, top), w);
      if r == null then AllMatches(Ahead(f, n, top), w) == []
      else
        && r in f.kids && Matches(r, w) && top !in Ahead(f, r, top)
        && |Ahead(f, r, top)| < |Ahead(f, n, top)|
        && AllMatches(Ahead(f, n, top), w) == [r] + AllMatches(Ahead(f, r, top), w)
    decreases |Ahead(f, n, top)|
  {
    hide Proper, Ahead, Step, Matches;
    StepAhead(f, n, top);
    if Ahead(f, n, top) != [] {
      var y := Step(f, n, top);
      assert Ahead(f, n, top)[1..] == Ahead(f, y, top);
      if !Matches(y, w) {
        SearchOn(f, y, top, w);
      }
    }
  }
}
