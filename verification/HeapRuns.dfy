/** Runs of a heap: what a client has stored in its allocations stays there, as if every allocation
    were a memory of its own, whatever else it allocates, frees and reallocates.
 */
module HeapRuns {
  import opened BlockHeaders
  import opened MemBlock
  import opened HeapLedger
  import opened HeapPlaces
  import opened MemHeap

  /** One call of the client. The step that allocates names the allocation. */
  datatype Op =
    | Acquire(nbytes: nat)
    | Release(which: nat)
    | Regrow(which: nat, nbytes: nat)
    | Write(which: nat, k: nat, c: Cell)

  /** An allocation as the client sees it: the units it asked for, and what it has stored. */
  datatype Region = Region(units: nat, vals: map<nat, Cell>)

  type View = map<nat, Region>

  function UnitsFor(nbytes: nat): nat {
    (nbytes + 7) / 8
  }

  /** What the client has after step `i`; `ok` says whether an allocation succeeded. */
  ghost function After(v: View, i: nat, op: Op, ok: bool): View {
    match op
    case Acquire(n) => if ok then v[i := Region(UnitsFor(n), map[])] else v
    case Release(h) => v - {h}
    case Regrow(h, n) =>
      if h in v && ok then
        v[h := Region(UnitsFor(n), map k | k in v[h].vals && k < UnitsFor(n) :: v[h].vals[k])]
      else v
    case Write(h, k, c) =>
      if h in v && k < v[h].units then v[h := v[h].(vals := v[h].vals[k := c])] else v
  }

  ghost function Final(ops: seq<Op>, oks: seq<bool>): View
    requires |ops| == |oks|
  {
    if ops == [] then map[]
    else After(Final(ops[..|ops| - 1], oks[..|ops| - 1]), |ops| - 1, ops[|ops| - 1], oks[|ops| - 1])
  }

  /** The heap holds what the client expects, each allocation under a pointer of its own. */
  ghost predicate Holds(h: MemHeap, ptrs: map<nat, Ptr>, v: View)
    reads *
  {
    && ptrs.Keys == v.Keys
    && (forall i {:trigger ptrs[i]} :: i in ptrs ==> ptrs[i] in h.live && v[i].units <= h.live[ptrs[i]])
    && (forall i, j {:trigger ptrs[i], ptrs[j]} :: i in ptrs && j in ptrs && ptrs[i] == ptrs[j] ==> i == j)
    && (forall i, k: nat {:trigger Word(ptrs[i], k)} :: i in ptrs && k in v[i].vals ==>
          k < v[i].units && Word(ptrs[i], k) == v[i].vals[k])
  }

  /** There is a new allocation, under `p`. */
  lemma Acquired(h: MemHeap, ptrs: map<nat, Ptr>, v: View, i: nat, p: Ptr, nbytes: nat)
    requires ptrs.Keys == v.Keys && i !in ptrs && p in h.live && UnitsFor(nbytes) <= h.live[p]
    requires forall j {:trigger ptrs[j]} :: j in ptrs ==>
      ptrs[j] != p && ptrs[j] in h.live && v[j].units <= h.live[ptrs[j]]
    requires forall j, k {:trigger ptrs[j], ptrs[k]} :: j in ptrs && k in ptrs && ptrs[j] == ptrs[k] ==> j == k
    requires forall j, k: nat {:trigger Word(ptrs[j], k)} :: j in ptrs && k in v[j].vals ==>
      k < v[j].units && Word(ptrs[j], k) == v[j].vals[k]
    ensures Holds(h, ptrs[i := p], After(v, i, Acquire(nbytes), true))
  {
    hide Word, UnitsFor;
    var r, w := ptrs[i := p], After(v, i, Acquire(nbytes), true);
    forall j, k: nat | j in r && k in w[j].vals
      ensures k < w[j].units && Word(r[j], k) == w[j].vals[k]
    {
      assert j != i && Word(ptrs[j], k) == v[j].vals[k];
    }
  }

  lemma NotAcquired(v: View, i: nat, nbytes: nat)
    ensures After(v, i, Acquire(nbytes), false) == v
  {
  }

  method Get(h: MemHeap, ptrs: map<nat, Ptr>, ghost v: View, i: nat, nbytes: nat, avail: bool)
      returns (r: map<nat, Ptr>, ok: bool)
    requires h.Valid() && Holds(h, ptrs, v) && i !in ptrs
    modifies h, Nodes(h.links), h.layouts.Keys, Datas(h.layouts)
    ensures h.Valid() && Holds(h, r, After(v, i, Acquire(nbytes), ok)) && (avail ==> ok)
    ensures fresh(Nodes(h.links) - old(Nodes(h.links))) && fresh(h.layouts.Keys - old(h.layouts.Keys))
      && fresh(Datas(h.layouts) - old(Datas(h.layouts)))
    ensures forall j :: j in r && r[j].RawMem? ==> (j in ptrs && r[j] == ptrs[j]) || fresh(r[j].mem)
  {
    hide MemHeap.ValidBut, Word, Nodes, Datas, After, Placed, Listed;
    var p := h.Alloc(nbytes, avail);
    ok := !p.Null?;
    r := if ok then ptrs[i := p] else ptrs;
    forall j, k: nat | j in ptrs && k in v[j].vals
      ensures k < v[j].units && Word(ptrs[j], k) == v[j].vals[k]
    {
      assert old(Word(ptrs[j], k)) == v[j].vals[k];
    }
    if ok {
      Acquired(h, ptrs, v, i, p, nbytes);
    } else {
      NotAcquired(v, i, nbytes);
    }
  }

  method Give(h: MemHeap, ptrs: map<nat, Ptr>, ghost v: View, which: nat) returns (r: map<nat, Ptr>)
    requires h.Valid() && Holds(h, ptrs, v)
    modifies h, Nodes(h.links), h.layouts.Keys, Datas(h.layouts)
    ensures h.Valid() && Holds(h, r, v - {which})
    ensures Nodes(h.links) <= old(Nodes(h.links)) && h.layouts.Keys <= old(h.layouts.Keys)
    ensures Datas(h.layouts) <= old(Datas(h.layouts))
    ensures forall j :: j in r ==> j in ptrs && r[j] == ptrs[j]
  {
    hide MemHeap.ValidBut, Word, Nodes, Datas, Released;
    if which in ptrs {
      h.Free(ptrs[which]);
    }
    forall j, k: nat | j in ptrs && j != which && k in v[j].vals
      ensures k < v[j].units && Word(ptrs[j], k) == v[j].vals[k]
    {
      assert old(Word(ptrs[j], k)) == v[j].vals[k];
    }
    r := ptrs - {which};
  }

  /** The allocation `which` is found under `q` now. */
  lemma Replaced(h: MemHeap, ptrs: map<nat, Ptr>, v: View, which: nat, q: Ptr, nbytes: nat)
    requires ptrs.Keys == v.Keys && which in v && q in h.live && UnitsFor(nbytes) <= h.live[q]
    requires forall i {:trigger ptrs[i]} :: i in ptrs && i != which ==>
      ptrs[i] != q && ptrs[i] in h.live && v[i].units <= h.live[ptrs[i]]
    requires forall i, j {:trigger ptrs[i], ptrs[j]} :: i in ptrs && j in ptrs && ptrs[i] == ptrs[j] ==> i == j
    requires forall i, k: nat {:trigger Word(ptrs[i], k)} :: i in ptrs && i != which && k in v[i].vals ==>
      k < v[i].units && Word(ptrs[i], k) == v[i].vals[k]
    requires forall k: nat {:trigger Word(q, k)} :: k in v[which].vals && k < UnitsFor(nbytes) ==>
      Word(q, k) == v[which].vals[k]
    ensures Holds(h, ptrs[which := q], After(v, 0, Regrow(which, nbytes), true))
  {
    hide Word;
    var r, w := ptrs[which := q], After(v, 0, Regrow(which, nbytes), true);
    forall i, k: nat | i in r && k in w[i].vals
      ensures k < w[i].units && Word(r[i], k) == w[i].vals[k]
    {
      if i != which {
        assert Word(ptrs[i], k) == v[i].vals[k];
      }
    }
  }

  method Grow(h: MemHeap, ptrs: map<nat, Ptr>, ghost v: View, which: nat, nbytes: nat, avail: bool)
      returns (r: map<nat, Ptr>, ok: bool)
    requires h.Valid() && Holds(h, ptrs, v) && nbytes > 0
    modifies h, Nodes(h.links), h.layouts.Keys, Datas(h.layouts)
    ensures h.Valid() && Holds(h, r, After(v, 0, Regrow(which, nbytes), ok)) && (avail ==> ok)
    ensures fresh(Nodes(h.links) - old(Nodes(h.links))) && fresh(h.layouts.Keys - old(h.layouts.Keys))
      && fresh(Datas(h.layouts) - old(Datas(h.layouts)))
    ensures forall j :: j in r && r[j].RawMem? ==> (j in ptrs && r[j] == ptrs[j]) || fresh(r[j].mem)
  {
    hide MemHeap.ValidBut, Word, Nodes, Datas, Placed, Listed, Regrown, Released;
    r, ok := ptrs, true;
    if which !in ptrs {
      return;
    }
    var q := h.Realloc(ptrs[which], nbytes, avail);
    ok := !q.Null?;
    forall j, k: nat | j in ptrs && (j != which || !ok) && k in v[j].vals
      ensures k < v[j].units && Word(ptrs[j], k) == v[j].vals[k]
    {
      assert old(Word(ptrs[j], k)) == v[j].vals[k];
    }
    if ok {
      forall k: nat | k in v[which].vals && k < UnitsFor(nbytes)
        ensures Word(q, k) == v[which].vals[k]
      {
        assert old(Word(ptrs[which], k)) == v[which].vals[k];
      }
      r := ptrs[which := q];
      Replaced(h, ptrs, v, which, q, nbytes);
    }
  }

  method Put(h: MemHeap, ptrs: map<nat, Ptr>, ghost v: View, which: nat, k: nat, c: Cell)
    requires h.Valid() && Holds(h, ptrs, v) && which in v && k < v[which].units
    modifies if ptrs[which].InBlock? then {ptrs[which].blk.data} else if ptrs[which].RawMem? then {ptrs[which].mem}
      else {}
    ensures h.Valid() && Holds(h, ptrs, After(v, 0, Write(which, k, c), true))
  {
    hide MemHeap.ValidBut, Word;
    h.Store(ptrs[which], k, c);
    forall j, m: nat | j in ptrs && m in v[j].vals
      ensures m < v[j].units && Word(ptrs[j], m) == if j == which && m == k then c else v[j].vals[m]
    {
      assert old(Word(ptrs[j], m)) == v[j].vals[m];
    }
  }

  /** The client remembers how much it asked for. */
  ghost predicate Asked(units: map<nat, nat>, v: View) {
    units.Keys == v.Keys && forall i {:trigger units[i]} :: i in units ==> units[i] == v[i].units
  }

  function Remember(units: map<nat, nat>, i: nat, op: Op, ok: bool): map<nat, nat> {
    match op
    case Acquire(n) => if ok then units[i := UnitsFor(n)] else units
    case Release(j) => units - {j}
    case Regrow(j, n) => if j in units && ok then units[j := UnitsFor(n)] else units
    case Write(j, k, c) => units
  }

  lemma Remembered(units: map<nat, nat>, v: View, i: nat, op: Op, ok: bool)
    requires Asked(units, v)
    ensures Asked(Remember(units, i, op, ok), After(v, i, op, ok))
    ensures After(v, i, op, ok).Keys <= v.Keys + {i}
  {
  }

  method Step(h: MemHeap, ptrs: map<nat, Ptr>, units: map<nat, nat>, ghost v: View, i: nat, op: Op, avail: bool)
    returns (r: map<nat, Ptr>, u: map<nat, nat>, ok: bool)
    requires h.Valid() && Holds(h, ptrs, v) && Asked(units, v) && i !in v && (op.Regrow? ==> op.nbytes > 0)
    modifies h, Nodes(h.links), h.layouts.Keys, Datas(h.layouts), set j | j in ptrs && ptrs[j].RawMem? :: ptrs[j].mem
    ensures h.Valid() && Holds(h, r, After(v, i, op, ok)) && Asked(u, After(v, i, op, ok)) && (avail ==> ok)
    ensures fresh(Nodes(h.links) - old(Nodes(h.links))) && fresh(h.layouts.Keys - old(h.layouts.Keys))
      && fresh(Datas(h.layouts) - old(Datas(h.layouts)))
    ensures forall j :: j in r && r[j].RawMem? ==> (j in ptrs && r[j] == ptrs[j]) || fresh(r[j].mem)
    ensures After(v, i, op, ok).Keys <= v.Keys + {i}
  {
    hide MemHeap.ValidBut, Word;
    r, ok := ptrs, true;
    match op {
      case Acquire(n) =>
        r, ok := Get(h, ptrs, v, i, n, avail);
      case Release(j) =>
        r := Give(h, ptrs, v, j);
      case Regrow(j, n) =>
        r, ok := Grow(h, ptrs, v, j, n, avail);
      case Write(j, k, c) =>
        if j in units && k < units[j] {
          h.BlockListed(ptrs[j]);
          Put(h, ptrs, v, j, k, c);
        }
    }
    u := Remember(units, i, op, ok);
    Remembered(units, v, i, op, ok);
  }

  /** Runs the client; `avail` says at which steps the system has memory left. */
  method Run(h: MemHeap, ops: seq<Op>, avail: seq<bool>) returns (ptrs: map<nat, Ptr>, oks: seq<bool>)
    requires h.Valid() && |avail| == |ops|
    requires forall i {:trigger ops[i]} :: 0 <= i < |ops| && ops[i].Regrow? ==> ops[i].nbytes > 0
    modifies h, Nodes(h.links), h.layouts.Keys, Datas(h.layouts)
    ensures h.Valid() && |oks| == |ops| && Holds(h, ptrs, Final(ops, oks))
    ensures forall i :: 0 <= i < |ops| && avail[i] ==> oks[i]
  {
    hide MemHeap.ValidBut, Word, Holds, After, Asked, Nodes, Datas;
    ptrs, oks := map[], [];
    var units: map<nat, nat> := map[];
    Nothing(h);
    for i := 0 to |ops|
      invariant h.Valid() && |oks| == i && Holds(h, ptrs, Final(ops[..i], oks)) && Asked(units, Final(ops[..i], oks))
      invariant forall j :: 0 <= j < i && avail[j] ==> oks[j]
      invariant fresh(Nodes(h.links) - old(Nodes(h.links))) && fresh(h.layouts.Keys - old(h.layouts.Keys))
        && fresh(Datas(h.layouts) - old(Datas(h.layouts)))
      invariant forall j :: j in ptrs && ptrs[j].RawMem? ==> fresh(ptrs[j].mem)
      invariant forall j :: j in Final(ops[..i], oks) ==> j < i
    {
      assert ops[..i + 1][..i] == ops[..i];
      var ok;
      label Before:
      ptrs, units, ok := Step(h, ptrs, units, Final(ops[..i], oks), i, ops[i], avail[i]);
      assert forall o: MemLink {:trigger o in Nodes(h.links)} :: old(allocated(o)) ==> old@Before(allocated(o));
      assert (oks + [ok])[..i] == oks;
      oks := oks + [ok];
    }
    assert ops[..|ops|] == ops;
  }

  lemma Nothing(h: MemHeap)
    ensures Holds(h, map[], map[]) && Asked(map[], map[])
  {
  }
}
