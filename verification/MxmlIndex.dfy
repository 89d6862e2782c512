/** The sorted index over the elements of a tree: mxml-index.c. */
module MxmlIndex {
  import opened Sequences
  import opened MxmlSave
  import opened MxmlTree
  import opened MxmlForest
  import opened MxmlWalk
  import opened MxmlEntities

  // ---- The order of the index ----

  /** The value of an attribute that every node in the index has. */
  function Value(attr: string, n: XmlNode): string {
    var v := n.GetAttr(attr);
    if v.Some? then v.value else ""
  }

  /** An element that has the attribute the index is about, if it is about one. */
  predicate Keyed(attr: Option<string>, n: XmlNode) {
    n.isElement && (attr.Some? ==> n.GetAttr(attr.value).Some?)
  }

  /** `index_compare`. */
  function IndexCompare(attr: Option<string>, a: XmlNode, b: XmlNode): int {
    var diff := Compare(a.name, b.name);
    if diff != 0 then diff
    else if attr.Some? then Compare(Value(attr.value, a), Value(attr.value, b))
    else 0
  }

  ghost predicate Le(attr: Option<string>, a: XmlNode, b: XmlNode) {
    IndexCompare(attr, a, b) <= 0
  }

  lemma CompareLe(a: string, b: string, c: string)
    ensures Compare(a, b) <= 0 && Compare(b, c) <= 0 ==> Compare(a, c) <= 0
    ensures Compare(a, b) < 0 && Compare(b, c) <= 0 ==> Compare(a, c) < 0
    ensures Compare(a, b) <= 0 && Compare(b, c) < 0 ==> Compare(a, c) < 0
    ensures Compare(a, b) > 0 <==> Compare(b, a) < 0
  {
    hide Compare;
    CompareEqual(a, b);
    CompareEqual(b, c);
    CompareSwap(b, a);
    if Compare(a, b) < 0 && Compare(b, c) < 0 {
      CompareChain(a, b, c);
    }
  }

  /** The order is total, so that a quicksort can rely on it. */
  lemma LeTotal(attr: Option<string>, a: XmlNode, b: XmlNode)
    ensures Le(attr, a, b) || Le(attr, b, a)
    ensures Le(attr, a, a)
  {
    hide Compare;
    CompareEqual(a.name, a.name);
    CompareEqual(a.name, b.name);
    CompareEqual(b.name, a.name);
    CompareLe(a.name, b.name, a.name);
    if attr.Some? {
      var v, w := Value(attr.value, a), Value(attr.value, b);
      CompareEqual(v, v);
      CompareLe(v, w, v);
    }
  }

  lemma LeTrans(attr: Option<string>, a: XmlNode, b: XmlNode, c: XmlNode)
    requires Le(attr, a, b) && Le(attr, b, c)
    ensures Le(attr, a, c)
  {
    hide Compare;
    CompareEqual(a.name, b.name);
    CompareEqual(b.name, c.name);
    CompareLe(a.name, b.name, c.name);
    if attr.Some? {
      CompareLe(Value(attr.value, a), Value(attr.value, b), Value(attr.value, c));
    }
  }

  ghost predicate Ordered(attr: Option<string>, s: seq<XmlNode>) {
    forall i, j :: 0 <= i < j < |s| ==> Le(attr, s[i], s[j])
  }

  // ---- Finding nodes ----

  /** What is asked of an index over `attr`; what is not given is not looked at. */
  datatype Query = Query(attr: Option<string>, element: Option<string>, value: Option<string>)

  /** `index_find`. */
  function Probe(q: Query, n: XmlNode): int {
    if q.element.Some? && Compare(q.element.value, n.name) != 0 then Compare(q.element.value, n.name)
    else if q.value.Some? && q.attr.Some? then Compare(q.value.value, Value(q.attr.value, n))
    else 0
  }

  /** A node has the name and the value that are asked for. */
  predicate Answers(q: Query, n: XmlNode) {
    && (q.element.Some? ==> n.name == q.element.value)
    && (q.value.Some? && q.attr.Some? ==> Value(q.attr.value, n) == q.value.value)
  }

  lemma ProbeAnswers(q: Query, n: XmlNode)
    ensures Probe(q, n) == 0 <==> Answers(q, n)
  {
    hide Compare, Value;
    if q.element.Some? {
      CompareEqual(q.element.value, n.name);
    }
    if q.value.Some? && q.attr.Some? {
      CompareEqual(q.value.value, Value(q.attr.value, n));
    }
  }

  /** For a node of the index that is what `mxmlFindElement` looks for. */
  lemma AnswersMatches(q: Query, n: XmlNode)
    requires Keyed(q.attr, n) && (q.value.Some? ==> q.attr.Some?)
    ensures Answers(q, n) <==> Matches(n, Wanted(q.element, q.attr, q.value))
  {
  }

  /** All nodes that answer the query, from the `i`-th on. */
  function Matching(q: Query, s: seq<XmlNode>, i: nat): seq<XmlNode>
    requires i <= |s|
    decreases |s| - i
  {
    if i == |s| then [] else (if Answers(q, s[i]) then [s[i]] else []) + Matching(q, s, i + 1)
  }

  /** The nodes that answer the query, up to the first one that does not. */
  function Run(q: Query, s: seq<XmlNode>, i: nat): seq<XmlNode>
    requires i <= |s|
    decreases |s| - i
  {
    if i == |s| || Probe(q, s[i]) != 0 then [] else [s[i]] + Run(q, s, i + 1)
  }

  /** Back to the first one of a run. */
  function Back(q: Query, s: seq<XmlNode>, k: nat): (r: nat)
    requires k < |s|
    ensures r <= k
  {
    if k > 0 && Probe(q, s[k - 1]) == 0 then Back(q, s, k - 1) else k
  }

  /** The first one of a stretch that answers the query, or -1. */
  function Among(q: Query, s: seq<XmlNode>, k: nat, last: nat): (r: int)
    requires k <= last + 1 <= |s|
    ensures -1 <= r <= last && (r >= 0 ==> k <= r && Probe(q, s[r]) == 0)
    ensures forall i :: k <= i <= last && (r < 0 || i < r) ==> Probe(q, s[i]) != 0
    decreases last + 1 - k
  {
    if k > last then -1 else if Probe(q, s[k]) == 0 then k else Among(q, s, k + 1, last)
  }

  /** The modified binary search: the place of the node it finds first, or -1. */
  function Narrow(q: Query, s: seq<XmlNode>, first: nat, last: nat): (r: int)
    requires first <= last < |s|
    ensures -1 <= r <= last
    decreases last - first
  {
    if last - first > 1 then
      var current := (first + last) / 2;
      var diff := Probe(q, s[current]);
      if diff == 0 then Back(q, s, current)
      else if diff < 0 then Narrow(q, s, first, current)
      else Narrow(q, s, current, last)
    else Among(q, s, first, last)
  }

  /** What a call returns, and where it leaves the index. */
  datatype Found = Found(node: XmlNode?, cur: nat)

  function Enumerated(s: seq<XmlNode>, cur: nat): Found {
    if cur < |s| then Found(s[cur], cur + 1) else Found(null, cur)
  }

  /** What `mxmlIndexFind` does in an index that stands at `cur`. */
  function FindFrom(q: Query, s: seq<XmlNode>, cur: nat): Found {
    if q.attr.None? && q.value.Some? then Found(null, cur)
    else if q.element.None? && q.value.None? then Enumerated(s, cur)
    else if s == [] then Found(null, cur)
    else if cur == 0 then
      var k := Narrow(q, s, 0, |s| - 1);
      if k < 0 then Found(null, |s|) else Found(s[k], k + 1)
    else if cur < |s| && Probe(q, s[cur]) == 0 then Found(s[cur], cur + 1)
    else Found(null, |s|)
  }

  /** What `n` calls in a row return. */
  function Calls(q: Query, s: seq<XmlNode>, cur: nat, n: nat): (r: seq<XmlNode?>)
    ensures |r| == n
    decreases n
  {
    if n == 0 then [] else
      var f := FindFrom(q, s, cur);
      [f.node] + Calls(q, s, f.cur, n - 1)
  }

  /** The nodes of a list one by one, and then nothing for ever. */
  function OneByOne(m: seq<XmlNode>, n: nat): (r: seq<XmlNode?>)
    ensures |r| == n
  {
    if n == 0 then [] else if m == [] then [null] + OneByOne(m, n - 1) else [m[0]] + OneByOne(m[1..], n - 1)
  }

  /** After a reset the calls return exactly the nodes that answer the query, in the order of the index. */
  ghost predicate FindsAll(q: Query, s: seq<XmlNode>) {
    forall n :: Calls(q, s, 0, n) == OneByOne(Matching(q, s, 0), n)
  }

  // ---- What the calls return, for any array ----

  /** The run that the calls go through. */
  ghost function Result(q: Query, s: seq<XmlNode>): seq<XmlNode>
    requires s != []
  {
    var k := Narrow(q, s, 0, |s| - 1);
    if k < 0 then [] else Run(q, s, k)
  }

  predicate Searching(q: Query) {
    (q.element.Some? || q.value.Some?) && (q.value.Some? ==> q.attr.Some?)
  }

  lemma {:induction false} CallsRun(q: Query, s: seq<XmlNode>, cur: nat, n: nat)
    requires Searching(q) && 0 < cur <= |s|
    ensures Calls(q, s, cur, n) == OneByOne(Run(q, s, cur), n)
    decreases n
  {
    if n > 0 {
      if cur < |s| && Probe(q, s[cur]) == 0 {
        CallsRun(q, s, cur + 1, n - 1);
      } else {
        CallsRun(q, s, |s|, n - 1);
      }
    }
  }

  lemma {:induction false} NarrowHit(q: Query, s: seq<XmlNode>, first: nat, last: nat)
    requires first <= last < |s| && Narrow(q, s, first, last) >= 0
    ensures Probe(q, s[Narrow(q, s, first, last)]) == 0
    ensures exists m :: first <= m <= last && Probe(q, s[m]) == 0
    decreases last - first
  {
    if last - first > 1 {
      var current := (first + last) / 2;
      var diff := Probe(q, s[current]);
      if diff == 0 {
        BackHit(q, s, current);
      } else if diff < 0 {
        NarrowHit(q, s, first, current);
      } else {
        NarrowHit(q, s, current, last);
      }
    } else {
      assert Among(q, s, first, last) == Narrow(q, s, first, last);
    }
  }

  lemma {:induction false} BackHit(q: Query, s: seq<XmlNode>, k: nat)
    requires k < |s| && Probe(q, s[k]) == 0
    ensures Probe(q, s[Back(q, s, k)]) == 0
    ensures Back(q, s, k) > 0 ==> Probe(q, s[Back(q, s, k) - 1]) != 0
  {
    if k > 0 && Probe(q, s[k - 1]) == 0 {
      BackHit(q, s, k - 1);
    }
  }

  lemma FirstCall(q: Query, s: seq<XmlNode>, n: nat)
    requires Searching(q) && s != [] && n > 0
    ensures var k := Narrow(q, s, 0, |s| - 1);
      Calls(q, s, 0, n) ==
        if k < 0 then [null] + Calls(q, s, |s|, n - 1) else [s[k]] + Calls(q, s, k + 1, n - 1)
  {
    hide Narrow, Probe;
  }

  lemma FirstOfRun(q: Query, s: seq<XmlNode>, k: nat, n: nat)
    requires k < |s| && Probe(q, s[k]) == 0 && n > 0
    ensures OneByOne(Run(q, s, k), n) == [s[k]] + OneByOne(Run(q, s, k + 1), n - 1)
  {
    hide Probe;
    assert Run(q, s, k)[1..] == Run(q, s, k + 1);
  }

  lemma NothingRun(q: Query, s: seq<XmlNode>, n: nat)
    ensures Run(q, s, |s|) == []
    ensures n > 0 ==> OneByOne([], n) == [null] + OneByOne([], n - 1)
  {
  }

  lemma CallsAre(q: Query, s: seq<XmlNode>, n: nat)
    requires Searching(q) && s != []
    ensures Calls(q, s, 0, n) == OneByOne(Result(q, s), n)
  {
    hide Calls, OneByOne, Narrow, Run, Probe, Searching;
    var k := Narrow(q, s, 0, |s| - 1);
    if n > 0 {
      FirstCall(q, s, n);
      NothingRun(q, s, n);
      if k < 0 {
        CallsRun(q, s, |s|, n - 1);
      } else {
        NarrowHit(q, s, 0, |s| - 1);
        CallsRun(q, s, k + 1, n - 1);
        FirstOfRun(q, s, k, n);
      }
    }
  }

  lemma {:induction false} SameOneByOne(a: seq<XmlNode>, b: seq<XmlNode>)
    requires OneByOne(a, |a| + |b| + 1) == OneByOne(b, |a| + |b| + 1)
    ensures a == b
  {
    var n := |a| + |b| + 1;
    assert OneByOne(a, n)[0] == OneByOne(b, n)[0];
    if a != [] && b != [] {
      var x, y := OneByOne(a[1..], n - 1), OneByOne(b[1..], n - 1);
      assert x == OneByOne(a, n)[1..] && y == OneByOne(b, n)[1..];
      Shorter(a[1..], n - 2);
      Shorter(b[1..], n - 2);
      SameOneByOne(a[1..], b[1..]);
      assert a == [a[0]] + a[1..] && b == [b[0]] + b[1..];
    }
  }

  /** Fewer calls return the first part. */
  lemma {:induction false} Shorter(m: seq<XmlNode>, n: nat)
    ensures OneByOne(m, n) == OneByOne(m, n + 1)[..n]
  {
    if n > 0 {
      var rest := if m == [] then m else m[1..];
      Shorter(rest, n - 1);
      assert OneByOne(m, n + 1) == [OneByOne(m, n + 1)[0]] + OneByOne(rest, n);
    }
  }

  /** The calls find everything exactly if the run is everything. */
  lemma FindsAllIs(q: Query, s: seq<XmlNode>)
    requires Searching(q) && s != []
    ensures FindsAll(q, s) <==> Result(q, s) == Matching(q, s, 0)
  {
    hide Result, Matching, OneByOne, Calls;
    forall n: nat
      ensures Calls(q, s, 0, n) == OneByOne(Result(q, s), n)
    {
      CallsAre(q, s, n);
    }
    if FindsAll(q, s) {
      var a, b := Result(q, s), Matching(q, s, 0);
      var n := |a| + |b| + 1;
      assert Calls(q, s, 0, n) == OneByOne(b, n);
      SameOneByOne(a, b);
    }
  }

  // ---- Where everything is found ----

  /** A query about elements of a name, or about names alone, is falling along a sorted array. */
  ghost predicate Falling(q: Query, s: seq<XmlNode>) {
    forall i, j :: 0 <= i < j < |s| ==>
      && (Probe(q, s[i]) < 0 ==> Probe(q, s[j]) < 0)
      && (Probe(q, s[j]) > 0 ==> Probe(q, s[i]) > 0)
  }

  ghost predicate ValuesInOrder(attr: string, s: seq<XmlNode>) {
    forall i, j :: 0 <= i < j < |s| ==> Compare(Value(attr, s[i]), Value(attr, s[j])) <= 0
  }

  lemma OrderedFalls(q: Query, s: seq<XmlNode>)
    requires Ordered(q.attr, s)
    requires q.element.Some? || q.value.None? || (q.attr.Some? && ValuesInOrder(q.attr.value, s))
    ensures Falling(q, s)
  {
    hide Compare, Value;
    forall i, j | 0 <= i < j < |s|
      ensures Probe(q, s[i]) < 0 ==> Probe(q, s[j]) < 0
      ensures Probe(q, s[j]) > 0 ==> Probe(q, s[i]) > 0
    {
      var a, b := s[i], s[j];
      assert Le(q.attr, a, b);
      if q.element.Some? {
        CompareFalls(q.element.value, a.name, b.name);
        CompareEqual(a.name, b.name);
      }
      if q.value.Some? && q.attr.Some? {
        CompareFalls(q.value.value, Value(q.attr.value, a), Value(q.attr.value, b));
      }
    }
  }

  lemma CompareFalls(x: string, a: string, b: string)
    ensures Compare(a, b) <= 0 ==>
      && (Compare(x, a) < 0 ==> Compare(x, b) < 0)
      && (Compare(x, b) > 0 ==> Compare(x, a) > 0)
      && (Compare(x, a) == 0 && Compare(x, b) == 0 ==> a == b)
    ensures Compare(a, b) < 0 ==> !(Compare(x, a) == 0 && Compare(x, b) == 0)
    ensures Compare(a, b) < 0 ==> Compare(x, a) <= 0 ==> Compare(x, b) < 0
  {
    hide Compare;
    CompareLe(x, a, b);
    CompareLe(a, b, x);
    CompareLe(b, x, a);
    CompareEqual(x, a);
    CompareEqual(x, b);
    CompareEqual(b, x);
    CompareEqual(a, x);
    CompareEqual(a, b);
    CompareLe(x, b, x);
    CompareLe(x, a, x);
  }

  lemma {:induction false} NarrowFalling(q: Query, s: seq<XmlNode>, first: nat, last: nat)
    requires first <= last < |s| && Falling(q, s)
    requires forall i :: 0 <= i < first || last < i < |s| ==> Probe(q, s[i]) != 0
    ensures var k := Narrow(q, s, first, last);
      forall i :: 0 <= i < |s| && (k < 0 || i < k) ==> Probe(q, s[i]) != 0
    decreases last - first
  {
    if last - first > 1 {
      var current := (first + last) / 2;
      var diff := Probe(q, s[current]);
      if diff == 0 {
        BackHit(q, s, current);
      } else if diff < 0 {
        NarrowFalling(q, s, first, current);
      } else {
        NarrowFalling(q, s, current, last);
      }
    }
  }

  lemma {:induction false} NoneMatching(q: Query, s: seq<XmlNode>, i: nat, j: nat)
    requires i <= j <= |s| && forall x :: i <= x < j ==> Probe(q, s[x]) != 0
    ensures Matching(q, s, i) == Matching(q, s, j)
    decreases j - i
  {
    if i < j {
      ProbeAnswers(q, s[i]);
      NoneMatching(q, s, i + 1, j);
    }
  }

  lemma {:induction false} RunIsAll(q: Query, s: seq<XmlNode>, k: nat)
    requires k < |s| && Falling(q, s) && Probe(q, s[k]) == 0
    ensures Run(q, s, k) == Matching(q, s, k)
    decreases |s| - k
  {
    ProbeAnswers(q, s[k]);
    if k + 1 < |s| {
      if Probe(q, s[k + 1]) == 0 {
        RunIsAll(q, s, k + 1);
      } else {
        NoneMatching(q, s, k + 1, |s|);
      }
    }
  }

  lemma {:induction false} CallsEnumerate(q: Query, s: seq<XmlNode>, cur: nat, n: nat)
    requires q.element.None? && q.value.None? && cur <= |s|
    ensures Calls(q, s, cur, n) == OneByOne(Matching(q, s, cur), n)
    decreases n
  {
    if n > 0 && cur < |s| {
      CallsEnumerate(q, s, cur + 1, n - 1);
    } else if n > 0 {
      CallsEnumerate(q, s, cur, n - 1);
    }
  }

  lemma {:induction false} CallsNothing(q: Query, n: nat)
    requires Searching(q)
    ensures Calls(q, [], 0, n) == OneByOne([], n)
  {
    if n > 0 {
      CallsNothing(q, n - 1);
    }
  }

  /** In a sorted index a query with an element name, or without a value, finds all it should. */
  lemma FindsEverything(q: Query, s: seq<XmlNode>)
    requires Ordered(q.attr, s) && (q.value.Some? ==> q.attr.Some?)
    requires q.element.Some? || q.value.None? || ValuesInOrder(q.attr.value, s)
    ensures FindsAll(q, s)
  {
    hide Ordered, Probe, ValuesInOrder, OneByOne, Calls, Matching, Falling;
    forall n: nat
      ensures Calls(q, s, 0, n) == OneByOne(Matching(q, s, 0), n)
    {
      if !Searching(q) {
        CallsEnumerate(q, s, 0, n);
      } else if s == [] {
        CallsNothing(q, n);
        NoneMatching(q, s, 0, 0);
        MatchingEmpty(q, s);
      } else {
        OrderedFalls(q, s);
        FallingResult(q, s);
        CallsAre(q, s, n);
      }
    }
  }

  lemma MatchingEmpty(q: Query, s: seq<XmlNode>)
    ensures Matching(q, s, |s|) == []
  {
  }

  lemma FallingResult(q: Query, s: seq<XmlNode>)
    requires s != [] && Falling(q, s)
    ensures Result(q, s) == Matching(q, s, 0)
  {
    var k := Narrow(q, s, 0, |s| - 1);
    NarrowFalling(q, s, 0, |s| - 1);
    if k < 0 {
      NoneMatching(q, s, 0, |s|);
    } else {
      NarrowHit(q, s, 0, |s| - 1);
      NoneMatching(q, s, 0, k);
      RunIsAll(q, s, k);
    }
  }

  /** What an index finds is what a search of its nodes with `mxmlFindElement` collects. */
  lemma {:induction false} MatchingIsSearch(q: Query, s: seq<XmlNode>, i: nat)
    requires i <= |s| && (q.value.Some? ==> q.attr.Some?)
    requires forall k :: 0 <= k < |s| ==> Keyed(q.attr, s[k])
    ensures Matching(q, s, i) == AllMatches(s[i..], Wanted(q.element, q.attr, q.value))
    decreases |s| - i
  {
    hide Keyed, Answers, Matches;
    if i < |s| {
      AnswersMatches(q, s[i]);
      MatchingIsSearch(q, s, i + 1);
      assert s[i..][1..] == s[i + 1..];
    }
  }

  // ---- Values without an element name ----

  function ByValue(attr: string, value: string): Query {
    Query(Some(attr), None, Some(value))
  }

  /** Every value is found everywhere. */
  ghost predicate Works(attr: string, s: seq<XmlNode>) {
    forall v :: FindsAll(ByValue(attr, v), s)
  }

  lemma {:induction false} MatchingGrows(q: Query, s: seq<XmlNode>, i: nat, j: nat)
    requires i <= j <= |s|
    ensures |Matching(q, s, i)| >= |Matching(q, s, j)|
    ensures forall m :: i <= m < j && Probe(q, s[m]) == 0 ==> |Matching(q, s, i)| > |Matching(q, s, j)|
    decreases j - i
  {
    if i < j {
      ProbeAnswers(q, s[i]);
      MatchingGrows(q, s, i + 1, j);
    }
  }

  lemma {:induction false} RunPart(q: Query, s: seq<XmlNode>, k: nat)
    requires k <= |s|
    ensures k + |Run(q, s, k)| <= |s|
    ensures |Matching(q, s, k)| == |Run(q, s, k)| + |Matching(q, s, k + |Run(q, s, k)|)|
    ensures forall i :: k <= i < k + |Run(q, s, k)| ==> Probe(q, s[i]) == 0
    decreases |s| - k
  {
    if k < |s| && Probe(q, s[k]) == 0 {
      ProbeAnswers(q, s[k]);
      RunPart(q, s, k + 1);
    }
  }

  /** If a run is everything, there is no gap between two nodes that answer the query. */
  lemma NoGap(q: Query, s: seq<XmlNode>, i: nat, j: nat, l: nat)
    requires i <= j <= l < |s| && Result(q, s) == Matching(q, s, 0)
    requires Probe(q, s[i]) == 0 && Probe(q, s[l]) == 0
    ensures Probe(q, s[j]) == 0 && Narrow(q, s, 0, |s| - 1) >= 0
  {
    hide Probe, Narrow, Run, Matching;
    var k := Narrow(q, s, 0, |s| - 1);
    MatchingGrows(q, s, 0, |s|);
    if k >= 0 {
      var e := k + |Run(q, s, k)|;
      RunPart(q, s, k);
      MatchingGrows(q, s, 0, k);
      MatchingGrows(q, s, e, |s|);
    }
  }

  /** Nodes with the same value have nodes with that value between them, and the search finds it. */
  lemma Together(attr: string, s: seq<XmlNode>, i: nat, j: nat, l: nat)
    requires Works(attr, s) && i <= j <= l < |s| && Value(attr, s[i]) == Value(attr, s[l])
    ensures Value(attr, s[j]) == Value(attr, s[i])
    ensures Narrow(ByValue(attr, Value(attr, s[i])), s, 0, |s| - 1) >= 0
  {
    hide Result, Matching, Value, Narrow, FindsAll, Compare;
    var v := Value(attr, s[i]);
    var q := ByValue(attr, v);
    CompareEqual(v, v);
    CompareEqual(v, Value(attr, s[j]));
    FindsAllIs(q, s);
    NoGap(q, s, i, j, l);
  }

  /** The values in a stretch that the search gets to, and their order. */
  ghost predicate Reached(attr: string, s: seq<XmlNode>, a: nat, b: nat, i: nat)
    requires a <= b < |s| && i < |s|
  {
    var v := Value(attr, s[i]);
    && (a > 0 ==> Compare(Value(attr, s[a]), v) <= 0)
    && (b < |s| - 1 ==> Compare(v, Value(attr, s[b])) <= 0)
    && ((a > 0 && v == Value(attr, s[a])) || (b < |s| - 1 && v == Value(attr, s[b]))
        || Narrow(ByValue(attr, v), s, a, b) >= 0)
  }

  /** What stands in front of the middle is not greater, and the search for it goes to the front. */
  lemma Left(attr: string, s: seq<XmlNode>, a: nat, b: nat, i: nat)
    requires Works(attr, s) && a + 1 < b < |s| && a <= i <= (a + b) / 2
    requires Reached(attr, s, a, b, i) && Reached(attr, s, a, b, (a + b) / 2)
    ensures Reached(attr, s, a, (a + b) / 2, i)
  {
    hide Works, Value, Compare;
    var c := (a + b) / 2;
    var v, w := Value(attr, s[i]), Value(attr, s[c]);
    CompareEqual(v, w);
    CompareSwap(v, w);
    CompareEqual(w, v);
    if v != w {
      if b < |s| - 1 && v == Value(attr, s[b]) {
        Together(attr, s, i, c, b);
        assert false;
      }
      if Compare(v, w) > 0 && !(a > 0 && v == Value(attr, s[a])) {
        NarrowHit(ByValue(attr, v), s, c, b);
        var m :| c <= m <= b && Probe(ByValue(attr, v), s[m]) == 0;
        CompareEqual(v, Value(attr, s[m]));
        Together(attr, s, i, c, m);
        assert false;
      }
    }
  }

  lemma Right(attr: string, s: seq<XmlNode>, a: nat, b: nat, i: nat)
    requires Works(attr, s) && a + 1 < b < |s| && (a + b) / 2 <= i <= b
    requires Reached(attr, s, a, b, i) && Reached(attr, s, a, b, (a + b) / 2)
    ensures Reached(attr, s, (a + b) / 2, b, i)
  {
    hide Works, Value, Compare;
    var c := (a + b) / 2;
    var v, w := Value(attr, s[i]), Value(attr, s[c]);
    CompareEqual(v, w);
    CompareSwap(w, v);
    CompareSwap(v, w);
    CompareEqual(w, v);
    if v != w {
      if a > 0 && v == Value(attr, s[a]) {
        Together(attr, s, a, c, i);
        assert false;
      }
      if Compare(v, w) < 0 && !(b < |s| - 1 && v == Value(attr, s[b])) {
        NarrowHit(ByValue(attr, v), s, a, c);
        var m :| a <= m <= c && Probe(ByValue(attr, v), s[m]) == 0;
        CompareEqual(v, Value(attr, s[m]));
        Together(attr, s, m, c, i);
        assert false;
      }
    }
  }

  lemma {:induction false} Stretch(attr: string, s: seq<XmlNode>, a: nat, b: nat, i: nat)
    requires Works(attr, s) && |s| > 2 && a <= i < b < |s|
    requires forall j :: a <= j <= b ==> Reached(attr, s, a, b, j)
    ensures Compare(Value(attr, s[i]), Value(attr, s[i + 1])) <= 0
    decreases b - a
  {
    hide Works, Value, Compare;
    if b - a == 1 {
      assert Reached(attr, s, a, b, a) && Reached(attr, s, a, b, b);
    } else {
      hide Reached;
      var c := (a + b) / 2;
      forall j | a <= j <= b
        ensures j <= c ==> Reached(attr, s, a, c, j)
        ensures c <= j ==> Reached(attr, s, c, b, j)
      {
        if j <= c {
          Left(attr, s, a, b, j);
        }
        if c <= j {
          Right(attr, s, a, b, j);
        }
      }
      if i < c {
        Stretch(attr, s, a, c, i);
      } else {
        Stretch(attr, s, c, b, i);
      }
    }
  }

  lemma {:induction false} StepByStep(attr: string, s: seq<XmlNode>, i: nat, j: nat)
    requires i <= j < |s|
    requires forall x :: i <= x < j ==> Compare(Value(attr, s[x]), Value(attr, s[x + 1])) <= 0
    ensures Compare(Value(attr, s[i]), Value(attr, s[j])) <= 0
    decreases j - i
  {
    hide Value, Compare;
    if i == j {
      CompareEqual(Value(attr, s[i]), Value(attr, s[j]));
    } else {
      StepByStep(attr, s, i + 1, j);
      CompareLe(Value(attr, s[i]), Value(attr, s[i + 1]), Value(attr, s[j]));
    }
  }

  lemma MatchingNext(q: Query, s: seq<XmlNode>, k: nat)
    requires k < |s|
    ensures Matching(q, s, k) == (if Probe(q, s[k]) == 0 then [s[k]] else []) + Matching(q, s, k + 1)
    ensures Run(q, s, k) == if Probe(q, s[k]) == 0 then [s[k]] + Run(q, s, k + 1) else []
    ensures Matching(q, s, |s|) == [] && Run(q, s, |s|) == []
  {
    hide Probe, Answers;
    ProbeAnswers(q, s[k]);
  }

  lemma FewFound(q: Query, s: seq<XmlNode>)
    requires 1 <= |s| <= 2
    ensures Result(q, s) == Matching(q, s, 0)
  {
    hide Probe, Matching, Run, Among;
    MatchingNext(q, s, 0);
    if |s| == 2 {
      MatchingNext(q, s, 1);
    }
  }

  /**
   * The array is sorted by element name first, so a query for a value alone need not find all it
   * should: it does for every value exactly if the values happen to be in order, or there are at
   * most two nodes.
   */
  lemma ValuesAlone(attr: string, s: seq<XmlNode>)
    ensures Works(attr, s) <==> |s| <= 2 || ValuesInOrder(attr, s)
  {
    hide FindsAll, Compare, Value, Narrow, Result, Matching;
    if Works(attr, s) && |s| > 2 {
      var b := |s| - 1;
      forall i | 0 <= i <= b
        ensures Reached(attr, s, 0, b, i)
      {
        Together(attr, s, i, i, i);
      }
      forall i | 0 <= i < |s| - 1
        ensures Compare(Value(attr, s[i]), Value(attr, s[i + 1])) <= 0
      {
        Stretch(attr, s, 0, b, i);
      }
      forall i, j | 0 <= i < j < |s|
        ensures Compare(Value(attr, s[i]), Value(attr, s[j])) <= 0
      {
        StepByStep(attr, s, i, j);
      }
    }
    forall v | |s| <= 2 || ValuesInOrder(attr, s)
      ensures FindsAll(ByValue(attr, v), s)
    {
      var q := ByValue(attr, v);
      if s == [] {
        FindsNothing(q);
      } else {
        FindsAllIs(q, s);
        if |s| <= 2 {
          FewFound(q, s);
        } else {
          ValuesFall(attr, s, v);
          FallingResult(q, s);
        }
      }
    }
  }

  lemma FindsNothing(q: Query)
    requires Searching(q)
    ensures FindsAll(q, [])
  {
    forall n: nat
      ensures Calls(q, [], 0, n) == OneByOne(Matching(q, [], 0), n)
    {
      CallsNothing(q, n);
    }
  }

  lemma ValuesFall(attr: string, s: seq<XmlNode>, v: string)
    requires ValuesInOrder(attr, s)
    ensures Falling(ByValue(attr, v), s)
  {
    hide Compare, Value;
    forall i, j | 0 <= i < j < |s|
      ensures Probe(ByValue(attr, v), s[i]) < 0 ==> Probe(ByValue(attr, v), s[j]) < 0
      ensures Probe(ByValue(attr, v), s[j]) > 0 ==> Probe(ByValue(attr, v), s[i]) > 0
    {
      CompareFalls(v, Value(attr, s[i]), Value(attr, s[j]));
    }
  }

  // ---- Sorting in place ----

  /** The same nodes, moved about only between `left` and `right`. */
  ghost predicate Shuffled(s: seq<XmlNode>, t: seq<XmlNode>, left: int, right: int)
    requires 0 <= left <= right + 1 <= |s|
  {
    && |t| == |s|
    && t[..left] == s[..left]
    && t[right + 1..] == s[right + 1..]
    && multiset(t[left..right + 1]) == multiset(s[left..right + 1])
  }

  lemma SwapShuffles(s: seq<XmlNode>, left: int, right: int, i: int, j: int)
    requires 0 <= left <= i <= right < |s| && left <= j <= right
    ensures Shuffled(s, s[i := s[j]][j := s[i]], left, right)
  {
    var t := s[i := s[j]][j := s[i]];
    var m := s[left..right + 1];
    assert t[left..right + 1] == m[i - left := m[j - left]][j - left := m[i - left]];
  }

  lemma ShuffledTwice(s: seq<XmlNode>, t: seq<XmlNode>, u: seq<XmlNode>, left: int, right: int)
    requires 0 <= left <= right + 1 <= |s| && Shuffled(s, t, left, right) && Shuffled(t, u, left, right)
    ensures Shuffled(s, u, left, right)
  {
  }

  lemma ShuffledWider(s: seq<XmlNode>, t: seq<XmlNode>, l: int, r: int, left: int, right: int)
    requires 0 <= left <= l <= r + 1 <= right + 1 <= |s| && Shuffled(s, t, l, r)
    ensures Shuffled(s, t, left, right)
  {
    assert s[left..right + 1] == s[left..l] + s[l..r + 1] + s[r + 1..right + 1];
    assert t[left..right + 1] == t[left..l] + t[l..r + 1] + t[r + 1..right + 1];
    assert t[left..l] == t[..l][left..] && s[left..l] == s[..l][left..];
    assert t[r + 1..right + 1] == t[r + 1..][..right - r] && s[r + 1..right + 1] == s[r + 1..][..right - r];
    assert t[..left] == t[..l][..left] && s[..left] == s[..l][..left];
    assert t[right + 1..] == t[r + 1..][right - r..] && s[right + 1..] == s[r + 1..][right - r..];
  }

  /** What is true of all nodes in a range stays true when they are shuffled. */
  lemma ShuffledKeeps(s: seq<XmlNode>, t: seq<XmlNode>, left: int, right: int, p: XmlNode -> bool)
    requires 0 <= left <= right + 1 <= |s| && Shuffled(s, t, left, right)
    requires forall i :: left <= i <= right ==> p(s[i])
    ensures forall i :: left <= i <= right ==> p(t[i])
  {
    forall i | left <= i <= right
      ensures p(t[i])
    {
      assert t[i] == t[left..right + 1][i - left];
      assert t[i] in multiset(t[left..right + 1]);
      assert t[i] in s[left..right + 1];
    }
  }

  /** The places outside the range are not touched. */
  lemma ShuffledOutside(s: seq<XmlNode>, t: seq<XmlNode>, left: int, right: int)
    requires 0 <= left <= right + 1 <= |s| && Shuffled(s, t, left, right)
    ensures |t| == |s| && forall i :: 0 <= i < left || right < i < |s| ==> t[i] == s[i]
  {
    forall i | 0 <= i < |s|
      ensures i < left ==> t[i] == s[i]
      ensures right < i ==> t[i] == s[i]
    {
      if i < left {
        assert t[i] == t[..left][i] && s[i] == s[..left][i];
      }
      if right < i {
        assert t[i] == t[right + 1..][i - right - 1] && s[i] == s[right + 1..][i - right - 1];
      }
    }
  }

  /** Up to the pivot's place nothing is greater than it, and behind it everything is. */
  ghost predicate Parted(attr: Option<string>, s: seq<XmlNode>, left: int, mid: int, right: int)
    requires 0 <= left <= mid <= right < |s|
  {
    && (forall i :: left <= i <= mid ==> Le(attr, s[i], s[mid]))
    && (forall i :: mid < i <= right ==> !Le(attr, s[i], s[mid]))
  }

  lemma PartedBy(attr: Option<string>, s: seq<XmlNode>, left: int, mid: int, right: int, pivot: XmlNode)
    requires 0 <= left <= mid <= right < |s|
    requires Le(attr, s[mid], pivot) && Le(attr, pivot, s[mid])
    requires forall i :: left <= i < mid ==> Le(attr, s[i], pivot)
    requires forall i :: mid < i <= right ==> !Le(attr, s[i], pivot)
    ensures Parted(attr, s, left, mid, right)
  {
    hide Le;
    forall i | left <= i <= right
      ensures Le(attr, s[i], s[mid]) <==> Le(attr, s[i], pivot)
    {
      if Le(attr, s[i], pivot) {
        LeTrans(attr, s[i], pivot, s[mid]);
      } else if Le(attr, s[i], s[mid]) {
        LeTrans(attr, s[i], s[mid], pivot);
      }
    }
  }

  /** The nodes from `first` up to `left` are in their final places. */
  ghost predicate Settled(attr: Option<string>, s: seq<XmlNode>, first: int, left: int, right: int)
    requires 0 <= first <= left <= right + 1 <= |s|
  {
    forall i, j :: first <= i < left && i < j <= right ==> Le(attr, s[i], s[j])
  }

  lemma NothingSettled(attr: Option<string>, s: seq<XmlNode>, first: int, right: int)
    requires 0 <= first <= right + 1 <= |s|
    ensures Settled(attr, s, first, first, right) && Shuffled(s, s, first, right)
    ensures first >= right ==> Settled(attr, s, first, right + 1, right)
  {
  }

  lemma LastSettled(attr: Option<string>, s: seq<XmlNode>, first: int, left: int, right: int)
    requires 0 <= first <= left <= right + 1 <= |s| && left >= right && Settled(attr, s, first, left, right)
    ensures Settled(attr, s, first, right + 1, right)
  {
  }

  lemma SettledKept(attr: Option<string>, s: seq<XmlNode>, t: seq<XmlNode>, first: int, left: int, right: int)
    requires 0 <= first <= left <= right + 1 <= |s| && Shuffled(s, t, left, right)
    requires Settled(attr, s, first, left, right)
    ensures Settled(attr, t, first, left, right)
  {
    hide Le, Shuffled;
    ShuffledOutside(s, t, left, right);
    forall i, j | first <= i < left && i < j <= right
      ensures Le(attr, t[i], t[j])
    {
      ShuffledKeeps(s, t, left, right, (x: XmlNode) => Le(attr, s[i], x));
    }
  }

  /** Sorting the part in front of the pivot settles that part and the pivot. */
  lemma SettledMore(
    attr: Option<string>, s: seq<XmlNode>, t: seq<XmlNode>, first: int, left: int, mid: int, right: int)
    requires 0 <= first <= left <= mid <= right < |s|
    requires Settled(attr, s, first, left, right) && Parted(attr, s, left, mid, right)
    requires Shuffled(s, t, left, mid - 1) && Settled(attr, t, left, mid, mid - 1)
    ensures Settled(attr, t, first, mid + 1, right)
  {
    hide Le, Shuffled;
    ShuffledWider(s, t, left, mid - 1, left, right);
    SettledKept(attr, s, t, first, left, right);
    ShuffledOutside(s, t, left, mid - 1);
    ShuffledKeeps(s, t, left, mid - 1, (x: XmlNode) => Le(attr, x, s[mid]));
    forall i, j | left <= i < mid + 1 && i < j <= right
      ensures Le(attr, t[i], t[j])
    {
      if mid < j {
        LeTotal(attr, t[mid], t[j]);
        LeTrans(attr, t[i], t[mid], t[j]);
      }
    }
  }

  /** What one round of the sorting loop does. */
  lemma RoundDone(
    attr: Option<string>, was: seq<XmlNode>, before: seq<XmlNode>, parted: seq<XmlNode>, after: seq<XmlNode>,
    first: int, left: int, mid: int, right: int)
    requires 0 <= first <= left <= mid <= right < |was|
    requires Shuffled(was, before, first, right) && Settled(attr, before, first, left, right)
    requires Shuffled(before, parted, left, right) && Parted(attr, parted, left, mid, right)
    requires Shuffled(parted, after, left, mid - 1) && Settled(attr, after, left, mid, mid - 1)
    ensures Shuffled(was, after, first, right) && Settled(attr, after, first, mid + 1, right)
  {
    hide Settled, Parted;
    SettledKept(attr, before, parted, first, left, right);
    SettledMore(attr, parted, after, first, left, mid, right);
    ShuffledWider(before, parted, left, right, first, right);
    ShuffledWider(parted, after, left, mid - 1, first, right);
    ShuffledTwice(before, parted, after, first, right);
    ShuffledTwice(was, before, after, first, right);
  }

  /** A sorted front part, for the whole of which the range stands. */
  lemma SortedPart(attr: Option<string>, s: seq<XmlNode>, t: seq<XmlNode>, n: nat)
    requires 1 < n <= |s| && Shuffled(s, t, 0, n - 1) && Settled(attr, t, 0, n, n - 1)
    ensures n <= |t| && Ordered(attr, t[..n]) && multiset(t[..n]) == multiset(s[..n])
    ensures forall x :: x in t[..n] ==> x in s[..n]
  {
    hide Le;
    assert t[0..n] == t[..n] && s[0..n] == s[..n];
    forall x | x in t[..n]
      ensures x in s[..n]
    {
      assert x in multiset(t[..n]);
    }
  }

  class Index {
    const attr: Option<string>
    var nodes: array<XmlNode>
    var numNodes: nat
    var curNode: nat

    ghost predicate Valid()
      reads this, nodes
    {
      && numNodes <= nodes.Length && curNode <= numNodes
      && Ordered(attr, nodes[..numNodes])
      && forall n :: n in nodes[..numNodes] ==> Keyed(attr, n)
    }

    constructor (attr: Option<string>)
      ensures this.attr == attr && numNodes == 0 && curNode == 0
      ensures fresh(nodes) && nodes.Length == 0
    {
      this.attr := attr;
      nodes := new XmlNode[0];
      numNodes, curNode := 0, 0;
    }

    /** `mxmlIndexReset`. */
    method IndexReset() returns (r: XmlNode?)
      requires Valid()
      modifies this`curNode
      ensures Valid() && curNode == 0
      ensures r == if numNodes == 0 then null else nodes[0]
    {
      curNode := 0;
      return if numNodes > 0 then nodes[0] else null;
    }

    /** `mxmlIndexEnum`. */
    method IndexEnum() returns (r: XmlNode?)
      requires Valid()
      modifies this`curNode
      ensures Valid() && Found(r, curNode) == Enumerated(nodes[..numNodes], old(curNode))
    {
      if curNode < numNodes {
        curNode := curNode + 1;
        return nodes[curNode - 1];
      }
      return null;
    }

    /** `mxmlIndexFind`. */
    method IndexFind(element: Option<string>, value: Option<string>) returns (r: XmlNode?)
      requires Valid()
      modifies this`curNode
      ensures Valid()
      ensures Found(r, curNode) == FindFrom(Query(attr, element, value), nodes[..numNodes], old(curNode))
    {
      hide Ordered, Probe, Narrow;
      var q := Query(attr, element, value);
      if attr.None? && value.Some? {
        return null;
      }
      if element.None? && value.None? {
        r := IndexEnum();
        return;
      }
      if numNodes == 0 {
        return null;
      }
      if curNode == 0 {
        var k := Search(q);
        curNode := if k < 0 then numNodes else k + 1;
        return if k < 0 then null else nodes[k];
      }
      if curNode < numNodes && Probe(q, nodes[curNode]) == 0 {
        curNode := curNode + 1;
        return nodes[curNode - 1];
      }
      curNode := numNodes;
      return null;
    }

    /** The modified binary search in `mxmlIndexFind`. */
    method Search(q: Query) returns (k: int)
      requires 0 < numNodes <= nodes.Length
      ensures k == Narrow(q, nodes[..numNodes], 0, numNodes - 1)
    {
      hide Probe;
      ghost var s := nodes[..numNodes];
      var first, last := 0, numNodes - 1;
      while last - first > 1
        invariant 0 <= first <= last < numNodes
        invariant Narrow(q, s, first, last) == Narrow(q, s, 0, numNodes - 1)
        decreases last - first
      {
        var current := (first + last) / 2;
        var diff := Probe(q, nodes[current]);
        if diff == 0 {
          while current > 0 && Probe(q, nodes[current - 1]) == 0
            invariant 0 <= current < numNodes
            invariant Back(q, s, current) == Narrow(q, s, 0, numNodes - 1)
          {
            current := current - 1;
          }
          return current;
        } else if diff < 0 {
          last := current;
        } else {
          first := current;
        }
      }
      var current := first;
      while current <= last
        invariant first <= current <= last + 1
        invariant Among(q, s, current, last) == Narrow(q, s, 0, numNodes - 1)
      {
        if Probe(q, nodes[current]) == 0 {
          return current;
        }
        current := current + 1;
      }
      return -1;
    }

    /** One more node at the end; the array grows by 64 when it is full. */
    method Append(n: XmlNode)
      requires numNodes <= nodes.Length
      modifies this, nodes
      ensures numNodes == old(numNodes) + 1 <= nodes.Length && curNode == old(curNode)
      ensures nodes == old(nodes) || fresh(nodes)
      ensures nodes[..numNodes] == old(nodes[..numNodes]) + [n]
    {
      if numNodes >= nodes.Length {
        var temp := new XmlNode[nodes.Length + 64](i => n);
        for i := 0 to numNodes
          invariant temp[..i] == nodes[..i]
          modifies temp
        {
          temp[i] := nodes[i];
        }
        nodes := temp;
      }
      nodes[numNodes] := n;
      numNodes := numNodes + 1;
    }

    /** The end of `mxmlIndexNew`. */
    method SortAll()
      requires numNodes <= nodes.Length && curNode == 0
      requires forall n :: n in nodes[..numNodes] ==> Keyed(attr, n)
      modifies nodes
      ensures Valid() && multiset(nodes[..numNodes]) == multiset(old(nodes[..numNodes]))
    {
      hide Le, IndexCompare, Keyed, Shuffled;
      ghost var was := nodes[..];
      if numNodes > 1 {
        IndexSort(0, numNodes - 1);
        SortedPart(attr, was, nodes[..], numNodes);
      }
    }

    method Swap(ghost was: seq<XmlNode>, i: int, j: int, left: int, right: int)
      requires 0 <= left <= i <= right < nodes.Length && left <= j <= right
      requires |was| == nodes.Length && Shuffled(was, nodes[..], left, right)
      modifies nodes
      ensures nodes[..] == old(nodes[..])[i := old(nodes[j])][j := old(nodes[i])]
      ensures Shuffled(was, nodes[..], left, right)
    {
      hide Shuffled;
      ghost var before := nodes[..];
      nodes[i], nodes[j] := nodes[j], nodes[i];
      SwapShuffles(before, left, right, i, j);
      ShuffledTwice(was, before, nodes[..], left, right);
    }

    /** The first part of `index_sort`: the pivot gets its place. */
    method Partition(left: int, right: int) returns (tempr: int)
      requires 0 <= left < right < nodes.Length
      modifies nodes
      ensures left <= tempr <= right && Shuffled(old(nodes[..]), nodes[..], left, right)
      ensures Parted(attr, nodes[..], left, tempr, right)
    {
      hide IndexCompare, Shuffled, Parted;
      ghost var was := nodes[..];
      NothingSettled(attr, was, left, right);
      var pivot := nodes[left];
      var templ;
      templ, tempr := left, right;
      LeTotal(attr, pivot, pivot);
      while templ < tempr
        invariant left <= templ <= right && left <= tempr <= right && nodes[left] == pivot
        invariant Shuffled(was, nodes[..], left, right)
        invariant forall i :: left <= i < templ ==> Le(attr, nodes[i], pivot)
        invariant forall i :: tempr < i <= right ==> !Le(attr, nodes[i], pivot)
        invariant templ < tempr ==> templ == left || (Le(attr, nodes[templ], pivot) && !Le(attr, nodes[tempr], pivot))
        invariant templ >= tempr ==> Le(attr, nodes[tempr], pivot)
        decreases tempr - templ
      {
        while templ < right && IndexCompare(attr, nodes[templ], pivot) <= 0
          invariant left <= templ <= right
          invariant forall i :: left <= i < templ ==> Le(attr, nodes[i], pivot)
        {
          templ := templ + 1;
        }
        while tempr > left && IndexCompare(attr, nodes[tempr], pivot) > 0
          invariant left <= tempr <= right
          invariant forall i :: tempr < i <= right ==> !Le(attr, nodes[i], pivot)
        {
          tempr := tempr - 1;
        }
        if templ < tempr {
          Swap(was, templ, tempr, left, right);
        }
      }
      PlacePivot(was, left, tempr, right);
    }

    /** The second part: the pivot and the last node that is not greater change places. */
    method PlacePivot(ghost was: seq<XmlNode>, left: int, tempr: int, right: int)
      requires 0 <= left <= tempr <= right < nodes.Length
      requires |was| == nodes.Length && Shuffled(was, nodes[..], left, right)
      requires forall i :: left <= i <= tempr ==> Le(attr, nodes[i], nodes[left])
      requires forall i :: tempr < i <= right ==> !Le(attr, nodes[i], nodes[left])
      modifies nodes
      ensures Shuffled(was, nodes[..], left, right) && Parted(attr, nodes[..], left, tempr, right)
    {
      hide IndexCompare, Shuffled, Parted;
      var pivot := nodes[left];
      LeTotal(attr, pivot, pivot);
      if IndexCompare(attr, pivot, nodes[tempr]) > 0 {
        Swap(was, left, tempr, left, right);
      }
      PartedBy(attr, nodes[..], left, tempr, right, pivot);
    }

    /** One round of the loop: the pivot gets its place, and the part in front of it is sorted. */
    method SortFront(left: int, right: int) returns (tempr: int, ghost parted: seq<XmlNode>)
      requires 0 <= left < right < nodes.Length
      modifies nodes
      ensures left <= tempr <= right && Shuffled(old(nodes[..]), parted, left, right)
      ensures Parted(attr, parted, left, tempr, right)
      ensures Shuffled(parted, nodes[..], left, tempr - 1) && Settled(attr, nodes[..], left, tempr, tempr - 1)
      decreases right - left, 0
    {
      hide Le, Shuffled, Parted, Settled;
      tempr := Partition(left, right);
      parted := nodes[..];
      NothingSettled(attr, parted, left, tempr - 1);
      if left < tempr - 1 {
        IndexSort(left, tempr - 1);
      }
    }

    /** `index_sort`: the part in front of the pivot by recursion, the part behind it by the loop. */
    method IndexSort(first: int, right: int)
      requires 0 <= first < right < nodes.Length
      modifies nodes
      ensures Shuffled(old(nodes[..]), nodes[..], first, right)
      ensures Settled(attr, nodes[..], first, right + 1, right)
      decreases right - first, 1
    {
      hide Le, Shuffled, Parted, Settled;
      ghost var was := nodes[..];
      var left := first;
      NothingSettled(attr, was, first, right);
      while left < right
        invariant first <= left <= right + 1
        invariant Shuffled(was, nodes[..], first, right) && Settled(attr, nodes[..], first, left, right)
      {
        ghost var before := nodes[..];
        var tempr;
        ghost var parted;
        tempr, parted := SortFront(left, right);
        RoundDone(attr, was, before, parted, nodes[..], first, left, tempr, right);
        left := tempr + 1;
      }
      assert Settled(attr, nodes[..], first, right + 1, right) by {
        LastSettled(attr, nodes[..], first, left, right);
      }
    }
  }

  // ---- Building an index ----

  /** The nodes that belong into an index. */
  ghost function Chosen(f: Shape, node: XmlNode, w: Wanted): seq<XmlNode>
    requires Proper(f) && node in f.kids
  {
    (if w.name.None? && w.attr.None? then [node] else []) + AllMatches(Ahead(f, node, node), w)
  }

  /** `mxmlIndexNew`. */
  method IndexNew(forest: Forest, node: XmlNode?, element: Option<string>, attr: Option<string>) returns (ind: Index?)
    requires forest.Valid() && forest.Mine(node)
    requires node != null && element.None? && attr.None? ==> node.isElement
    ensures node == null ==> ind == null
    ensures node != null ==>
      && ind != null && fresh(ind) && fresh(ind.nodes)
      && ind.Valid() && ind.attr == attr && ind.curNode == 0
      && multiset(ind.nodes[..ind.numNodes]) == multiset(Chosen(forest.f, node, Wanted(element, attr, None)))
  {
    if node == null {
      return null;
    }
    ind := Collect(forest, node, element, attr);
    ind.SortAll();
  }

  method Collect(forest: Forest, node: XmlNode, element: Option<string>, attr: Option<string>) returns (ind: Index)
    requires forest.Valid() && forest.Mine(node)
    requires element.None? && attr.None? ==> node.isElement
    ensures fresh(ind) && fresh(ind.nodes) && ind.numNodes <= ind.nodes.Length
    ensures ind.attr == attr && ind.curNode == 0
    ensures ind.nodes[..ind.numNodes] == Chosen(forest.f, node, Wanted(element, attr, None))
    ensures forall n :: n in ind.nodes[..ind.numNodes] ==> Keyed(attr, n)
  {
    hide Proper, Ahead, AllMatches, FirstMatch, Rest, Pointing, Chosen;
    ghost var f := forest.f;
    var w := Wanted(element, attr, None);
    AheadTop(f, node);
    FirstRest(f, node, w);
    ind := new Index(attr);
    var current: XmlNode? := node;
    if element.Some? || attr.Some? {
      SearchOn(f, node, node, w);
      current := FindElement(forest, node, node, w, Descend);
    }
    while current != null
      invariant fresh(ind) && fresh(ind.nodes) && ind.numNodes <= ind.nodes.Length
      invariant ind.attr == attr && ind.curNode == 0
      invariant forest.Mine(current)
      invariant ind.nodes[..ind.numNodes] + Rest(f, current, node, w) == Chosen(f, node, w)
      invariant forall n :: n in ind.nodes[..ind.numNodes] ==> Keyed(attr, n)
      invariant current != null ==> node !in Ahead(f, current, node) && Keyed(attr, current)
      decreases if current == null then 0 else 1 + |Ahead(f, current, node)|
    {
      NextRest(f, ind.nodes[..ind.numNodes], current, node, w);
      ind.Append(current);
      SearchOn(f, current, node, w);
      current := FindElement(forest, current, node, w, Descend);
    }
    NoRest(f, ind.nodes[..ind.numNodes], node, w);
  }

  /** The search from the node itself, which is chosen if nothing is wanted in particular. */
  lemma FirstRest(f: Shape, node: XmlNode, w: Wanted)
    requires Proper(f) && node in f.kids && node !in Ahead(f, node, node)
    ensures var r := if w.name.None? && w.attr.None? then node else FirstMatch(Ahead(f, node, node), w);
      (r != null ==> r in f.kids) && [] + Rest(f, r, node, w) == Chosen(f, node, w)
  {
    hide Proper, Ahead, AllMatches, FirstMatch;
    SearchOn(f, node, node, w);
  }

  lemma NextRest(f: Shape, s: seq<XmlNode>, n: XmlNode, top: XmlNode, w: Wanted)
    requires Proper(f) && n in f.kids && top !in Ahead(f, n, top)
    ensures var r := FirstMatch(Ahead(f, n, top), w);
      (r != null ==> r in f.kids) && s + Rest(f, n, top, w) == s + [n] + Rest(f, r, top, w)
  {
    hide Proper, Ahead, AllMatches, FirstMatch;
    SearchOn(f, n, top, w);
  }

  lemma NoRest(f: Shape, s: seq<XmlNode>, top: XmlNode, w: Wanted)
    requires Proper(f)
    ensures s + Rest(f, null, top, w) == s
  {
  }

  /** What is still to be put into the index. */
  ghost function Rest(f: Shape, n: XmlNode?, top: XmlNode, w: Wanted): seq<XmlNode>
    requires Proper(f) && (n != null ==> n in f.kids)
  {
    if n == null then [] else [n] + AllMatches(Ahead(f, n, top), w)
  }

  lemma AheadTop(f: Shape, top: XmlNode)
    requires Proper(f) && top in f.kids
    ensures top !in Ahead(f, top, top)
  {
    assert Whole(f, top)[0] in Whole(f, top);
    AheadClear(f, top, top);
  }

  lemma {:induction false} MatchesOnce(s: seq<XmlNode>, w: Wanted)
    requires Distinct(s)
    ensures Distinct(AllMatches(s, w))
    ensures forall x :: x in AllMatches(s, w) <==> x in s && Matches(x, w)
  {
    hide Matches;
    if s != [] {
      assert s == [s[0]] + s[1..];
      assert forall i :: 0 <= i < |s| - 1 ==> s[1..][i] == s[i + 1];
      MatchesOnce(s[1..], w);
      DistinctJoin(if Matches(s[0], w) then [s[0]] else [], AllMatches(s[1..], w));
    }
  }

  /** An index over a node with children holds the matching nodes below it, each of them once. */
  lemma ChosenOnce(f: Shape, node: XmlNode, w: Wanted)
    requires Proper(f) && node in f.kids && f.kids[node] != []
    ensures Distinct(Chosen(f, node, w))
    ensures forall x :: x in Chosen(f, node, w) <==>
      (x == node && w.name.None? && w.attr.None?) || (x in Below(f, node) && Matches(x, w))
  {
    hide Proper, Matches, Distinct, AllMatches;
    var s := Below(f, node);
    BelowDistinct(f, node, 0);
    assert Ahead(f, node, node) == s;
    MatchesOnce(s, w);
    forall x | x in s
      ensures x != node
    {
      BelowLower(f, node, x);
    }
    OneDistinct(node);
    DistinctJoin([node], AllMatches(s, w));
    assert [] + AllMatches(s, w) == AllMatches(s, w);
  }

  lemma OneDistinct(n: XmlNode)
    ensures Distinct([n])
  {
  }
}
