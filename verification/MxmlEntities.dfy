/** The binary search in the table of named entities, for any table that is sorted by name. */
module MxmlEntities {
  import opened MxmlSave
  import MxmlLoad
  import opened MxmlRoundTrip

  datatype Entity = Entity(name: string, val: nat)

  /** `strcmp`: negative, zero or positive. */
  function Compare(a: string, b: string): int {
    if a == "" && b == "" then 0
    else if a == "" then -1
    else if b == "" then 1
    else if a[0] != b[0] then a[0] as int - b[0] as int
    else Compare(a[1..], b[1..])
  }

  lemma {:induction false} CompareEqual(a: string, b: string)
    ensures Compare(a, b) == 0 <==> a == b
  {
    if a != "" && b != "" {
      CompareEqual(a[1..], b[1..]);
      assert a == [a[0]] + a[1..] && b == [b[0]] + b[1..];
    }
  }

  lemma {:induction false} CompareChain(a: string, b: string, c: string)
    requires Compare(a, b) < 0 && Compare(b, c) < 0
    ensures Compare(a, c) < 0
  {
    if a != "" && c != "" && a[0] == b[0] == c[0] {
      CompareChain(a[1..], b[1..], c[1..]);
    }
  }

  lemma {:induction false} CompareSwap(a: string, b: string)
    ensures Compare(a, b) < 0 <==> Compare(b, a) > 0
  {
    if a != "" && b != "" {
      CompareSwap(a[1..], b[1..]);
    }
  }

  predicate Sorted(t: seq<Entity>) {
    forall i {:trigger t[i]} :: 0 <= i < |t| - 1 ==> Compare(t[i].name, t[i + 1].name) < 0
  }

  lemma {:induction false} InOrder(t: seq<Entity>, i: nat, j: nat)
    requires Sorted(t) && i < j < |t|
    ensures Compare(t[i].name, t[j].name) < 0
    decreases j - i
  {
    if i + 1 < j {
      InOrder(t, i, j - 1);
      CompareChain(t[i].name, t[j - 1].name, t[j].name);
    }
  }

  /** A name in front of one entry is none of the later ones, and the other way round. */
  lemma Elsewhere(t: seq<Entity>, name: string, k: nat, i: nat)
    requires Sorted(t) && k < |t| && i < |t|
    ensures Compare(name, t[k].name) < 0 && k <= i ==> t[i].name != name
    ensures Compare(name, t[k].name) > 0 && i <= k ==> t[i].name != name
  {
    CompareEqual(name, name);
    if i < k {
      InOrder(t, i, k);
    } else if k < i {
      InOrder(t, k, i);
      CompareSwap(t[k].name, t[i].name);
    }
  }

  /** Scanning the table from the front. */
  function Scan(t: seq<Entity>, name: string): int {
    if t == [] then -1 else if t[0].name == name then t[0].val else Scan(t[1..], name)
  }

  lemma {:induction false} ScanAt(t: seq<Entity>, name: string, k: nat)
    requires k < |t| && t[k].name == name && forall i :: 0 <= i < k ==> t[i].name != name
    ensures Scan(t, name) == t[k].val
  {
    if k > 0 {
      assert forall i :: 0 <= i < |t[1..]| ==> t[1..][i] == t[i + 1];
      ScanAt(t[1..], name, k - 1);
    }
  }

  lemma {:induction false} ScanNone(t: seq<Entity>, name: string)
    requires forall i :: 0 <= i < |t| ==> t[i].name != name
    ensures Scan(t, name) == -1
  {
    if t != [] {
      assert forall i :: 0 <= i < |t[1..]| ==> t[1..][i] == t[i + 1];
      ScanNone(t[1..], name);
    }
  }

  /** An entry that has been found is the only one with its name. */
  lemma Unique(t: seq<Entity>, name: string, k: nat)
    requires Sorted(t) && k < |t| && t[k].name == name
    ensures Scan(t, name) == t[k].val
  {
    forall i | 0 <= i < k
      ensures t[i].name != name
    {
      InOrder(t, i, k);
      CompareEqual(t[i].name, name);
    }
    ScanAt(t, name, k);
  }

  /** `default_callback`: the interval is narrowed down to two entries, which are looked at last. */
  method DefaultCallback(t: seq<Entity>, name: string) returns (val: int)
    requires Sorted(t) && t != []
    ensures val == Scan(t, name)
  {
    hide Sorted, Scan, Compare;
    var first, last := 0, |t| - 1;
    while last - first > 1
      invariant 0 <= first <= last < |t|
      invariant forall i :: 0 <= i < |t| && (i < first || last < i) ==> t[i].name != name
    {
      var current := (first + last) / 2;
      var diff := Compare(name, t[current].name);
      CompareEqual(name, t[current].name);
      if diff == 0 {
        Unique(t, name, current);
        return t[current].val;
      }
      forall i | 0 <= i < |t|
        ensures diff < 0 && current <= i ==> t[i].name != name
        ensures diff > 0 && i <= current ==> t[i].name != name
      {
        Elsewhere(t, name, current, i);
      }
      if diff < 0 {
        last := current;
      } else {
        first := current;
      }
    }
    if t[first].name == name {
      Unique(t, name, first);
      val := t[first].val;
    } else if t[last].name == name {
      Unique(t, name, last);
      val := t[last].val;
    } else {
      ScanNone(t, name);
      val := -1;
    }
  }

  /** A sorted table that has the entities of the writer is enough for the round trip. */
  lemma TableSuffices(t: seq<Entity>, top: Node)
    requires Sorted(t) && Document(top)
    requires Entity("amp", '&' as int) in t && Entity("lt", '<' as int) in t
    requires Entity("gt", '>' as int) in t && Entity("quot", '\"' as int) in t
    ensures MxmlLoad.LoadString(SaveText(top), name => Scan(t, name)) == Some(WithoutTail(top))
    ensures MxmlLoad.LoadString(SaveText(top), name => Scan(t, name)) == Some(top) <==> EndsInElement(top.children)
  {
    hide MxmlLoad.LoadString, SaveText, Sorted;
    forall e | e in t
      ensures Scan(t, e.name) == e.val
    {
      var k :| 0 <= k < |t| && t[k] == e;
      Unique(t, e.name, k);
    }
    var lookup := name => Scan(t, name);
    assert Scan(t, Entity("amp", '&' as int).name) == '&' as int;
    assert Scan(t, Entity("lt", '<' as int).name) == '<' as int;
    assert Scan(t, Entity("gt", '>' as int).name) == '>' as int;
    assert Scan(t, Entity("quot", '\"' as int).name) == '\"' as int;
    assert Standard(lookup);
    SaveThenLoad(top, lookup);
  }
}
