/** One call of the dependency check of menuselect: external dependencies first, then a loop over the
    members until nothing changes.

    Members are numbered in the order of the categories. A dependency that is a member is given by its
    number.
 */
module MenuDeps {
  datatype Failure = NoFail | Soft | Hard

  datatype Depend = External(name: string) | Internal(member: nat)

  datatype DepFile = DepFile(name: string, met: bool)

  function Lower(s: string): string {
    if s == "" then "" else [if 'A' <= s[0] <= 'Z' then (s[0] as int + 32) as char else s[0]] + Lower(s[1..])
  }

  /** The first entry with that name decides; a name without an entry is not met. */
  function Met(files: seq<DepFile>, name: string): bool {
    files != [] && if Lower(files[0].name) == Lower(name) then files[0].met else Met(files[1..], name)
  }

  /** The entry at `k` is the first one with that name. */
  predicate Named(files: seq<DepFile>, name: string, k: nat) {
    && k < |files| && Lower(files[k].name) == Lower(name)
    && forall j :: 0 <= j < k ==> Lower(files[j].name) != Lower(name)
  }

  ghost predicate Available(files: seq<DepFile>, name: string) {
    exists k: nat :: Named(files, name, k) && files[k].met
  }

  lemma {:induction false} MetMeans(files: seq<DepFile>, name: string)
    ensures Met(files, name) <==> Available(files, name)
  {
    if files != [] {
      var rest := files[1..];
      MetMeans(rest, name);
      if Lower(files[0].name) == Lower(name) {
        assert Named(files, name, 0);
        assert forall k: nat :: Named(files, name, k) ==> k == 0;
      } else {
        if k: nat :| Named(rest, name, k) && rest[k].met {
          assert forall j :: 0 < j <= k + 1 ==> files[j] == rest[j - 1];
          assert Named(files, name, k + 1);
        }
        if k: nat :| Named(files, name, k) && files[k].met {
          assert Named(rest, name, k - 1) && rest[k - 1].met;
        }
      }
    }
  }

  /** Upper-case letters become lower-case ones, and nothing else changes. */
  lemma {:induction false} LowerMeans(s: string, i: nat)
    requires i < |s|
    ensures |Lower(s)| == |s|
    ensures var c, d := s[i] as int, Lower(s)[i] as int;
      if 'A' as int <= c <= 'Z' as int then d - 'a' as int == c - 'A' as int else d == c
  {
    if i > 0 {
      LowerMeans(s[1..], i - 1);
    } else if |s| > 1 {
      LowerMeans(s[1..], 0);
    }
  }

  predicate HasExternal(ds: seq<Depend>) {
    exists k :: 0 <= k < |ds| && ds[k].External?
  }

  predicate Unmet(files: seq<DepFile>, ds: seq<Depend>) {
    exists k :: 0 <= k < |ds| && ds[k].External? && !Met(files, ds[k].name)
  }

  /** A member's failure after its external dependencies have been looked at. */
  function AfterExternals(files: seq<DepFile>, ds: seq<Depend>, before: Failure): Failure {
    if Unmet(files, ds) then Hard
    else if before == Soft then Soft
    else if HasExternal(ds) then NoFail
    else before
  }

  /** What makes a member hard before the loop: a name outside that is not available; or it was hard before, and
      there is no such name to look at.
   */
  ghost predicate Seed(files: seq<DepFile>, ds: seq<Depend>, before: Failure) {
    || (exists k :: 0 <= k < |ds| && ds[k].External? && !Available(files, ds[k].name))
    || (before == Hard && forall k :: 0 <= k < |ds| ==> !ds[k].External?)
  }

  lemma SeedIs(files: seq<DepFile>, ds: seq<Depend>, before: Failure)
    ensures Seed(files, ds, before) <==> AfterExternals(files, ds, before) == Hard
    ensures !Seed(files, ds, before) ==>
      AfterExternals(files, ds, before) == if before == Soft then Soft else NoFail
  {
    forall k | 0 <= k < |ds| && ds[k].External?
      ensures Met(files, ds[k].name) <==> Available(files, ds[k].name)
    {
      MetMeans(files, ds[k].name);
    }
  }

  predicate Links(deps: seq<seq<Depend>>) {
    forall i, k :: 0 <= i < |deps| && 0 <= k < |deps[i]| && deps[i][k].Internal? ==> deps[i][k].member < |deps|
  }

  /** What the loop over the dependencies of member `i` makes of `acc`. A member that depends on itself
      sees the value that is being computed.
   */
  function Fold(ds: seq<Depend>, i: nat, failed: seq<Failure>, enabled: seq<bool>, acc: Failure): Failure
    requires |enabled| == |failed| && forall k :: 0 <= k < |ds| && ds[k].Internal? ==> ds[k].member < |failed|
  {
    if ds == [] then acc
    else if ds[0].External? then Fold(ds[1..], i, failed, enabled, acc)
    else
      var m := ds[0].member;
      var f := if m == i then acc else failed[m];
      if f == Hard then Hard
      else Fold(ds[1..], i, failed, enabled, if f == Soft || !enabled[m] then Soft else acc)
  }

  predicate DependsOn(ds: seq<Depend>, m: nat) {
    exists k :: 0 <= k < |ds| && ds[k] == Internal(m)
  }

  /** Another member that it depends on is hard. */
  predicate HardBelow(ds: seq<Depend>, i: nat, failed: seq<Failure>) {
    exists k :: 0 <= k < |ds| && ds[k].Internal? && ds[k].member != i && ds[k].member < |failed|
      && failed[ds[k].member] == Hard
  }

  /** Another member that it depends on is soft or disabled. */
  predicate SoftBelow(ds: seq<Depend>, i: nat, failed: seq<Failure>, enabled: seq<bool>)
    requires |enabled| == |failed|
  {
    exists k :: 0 <= k < |ds| && ds[k].Internal? && ds[k].member != i && ds[k].member < |failed|
      && (failed[ds[k].member] == Soft || !enabled[ds[k].member])
  }

  /** Its own flag counts too when a member depends on itself. */
  predicate SoftFor(ds: seq<Depend>, i: nat, failed: seq<Failure>, enabled: seq<bool>)
    requires |enabled| == |failed| && i < |enabled|
  {
    SoftBelow(ds, i, failed, enabled) || (DependsOn(ds, i) && !enabled[i])
  }

  /** A member fails as badly as the others that it depends on; of itself it sees only its flag. */
  lemma {:induction false} FoldMeans(ds: seq<Depend>, i: nat, failed: seq<Failure>, enabled: seq<bool>, acc: Failure)
    requires |enabled| == |failed| && forall k :: 0 <= k < |ds| && ds[k].Internal? ==> ds[k].member < |failed|
    requires i < |failed| && acc != Hard
    ensures Fold(ds, i, failed, enabled, acc) ==
      if HardBelow(ds, i, failed) then Hard
      else if acc == Soft || SoftFor(ds, i, failed, enabled) then Soft else NoFail
  {
    if ds != [] {
      var rest := ds[1..];
      assert forall k :: 0 <= k < |rest| ==> rest[k] == ds[k + 1];
      SelfFirst(ds, i);
      HardFirst(ds, i, failed);
      SoftFirst(ds, i, failed, enabled);
      hide HardBelow, SoftBelow, DependsOn;
      if ds[0].External? {
        FoldMeans(rest, i, failed, enabled, acc);
      } else {
        var m := ds[0].member;
        var f := if m == i then acc else failed[m];
        if f != Hard {
          FoldMeans(rest, i, failed, enabled, if f == Soft || !enabled[m] then Soft else acc);
        }
      }
    }
  }

  lemma SelfFirst(ds: seq<Depend>, i: nat)
    requires ds != []
    ensures DependsOn(ds, i) <==> ds[0] == Internal(i) || DependsOn(ds[1..], i)
  {
    var rest := ds[1..];
    assert forall k :: 0 < k < |ds| ==> ds[k] == rest[k - 1];
    if DependsOn(rest, i) {
      var k :| 0 <= k < |rest| && rest[k] == Internal(i);
      assert ds[k + 1] == rest[k];
    }
  }

  lemma HardFirst(ds: seq<Depend>, i: nat, failed: seq<Failure>)
    requires ds != [] && (ds[0].Internal? ==> ds[0].member < |failed|)
    ensures HardBelow(ds, i, failed) <==>
      (ds[0].Internal? && ds[0].member != i && failed[ds[0].member] == Hard) || HardBelow(ds[1..], i, failed)
  {
    var rest := ds[1..];
    assert forall k :: 0 < k < |ds| ==> ds[k] == rest[k - 1];
    if HardBelow(rest, i, failed) {
      var k :| 0 <= k < |rest| && rest[k].Internal? && rest[k].member != i && rest[k].member < |failed|
        && failed[rest[k].member] == Hard;
      assert ds[k + 1] == rest[k];
    }
  }

  lemma SoftFirst(ds: seq<Depend>, i: nat, failed: seq<Failure>, enabled: seq<bool>)
    requires |enabled| == |failed| && ds != [] && (ds[0].Internal? ==> ds[0].member < |failed|)
    ensures SoftBelow(ds, i, failed, enabled) <==>
      (ds[0].Internal? && ds[0].member != i && (failed[ds[0].member] == Soft || !enabled[ds[0].member]))
      || SoftBelow(ds[1..], i, failed, enabled)
  {
    var rest := ds[1..];
    assert forall k :: 0 < k < |ds| ==> ds[k] == rest[k - 1];
    if SoftBelow(rest, i, failed, enabled) {
      var k :| 0 <= k < |rest| && rest[k].Internal? && rest[k].member != i && rest[k].member < |failed|
        && (failed[rest[k].member] == Soft || !enabled[rest[k].member]);
      assert ds[k + 1] == rest[k];
    }
  }

  /** The value of member `i` is not what its dependencies make of it. */
  predicate Unstable(deps: seq<seq<Depend>>, failed: seq<Failure>, enabled: seq<bool>, i: nat)
    requires Links(deps) && i < |deps| == |failed| == |enabled|
  {
    failed[i] != Hard && failed[i] != Fold(deps[i], i, failed, enabled, NoFail)
  }

  ghost predicate Stable(deps: seq<seq<Depend>>, failed: seq<Failure>, enabled: seq<bool>)
    requires Links(deps) && |deps| == |failed| == |enabled|
  {
    forall i :: 0 <= i < |deps| ==> !Unstable(deps, failed, enabled, i)
  }

  /** The first member from `n` on that is not stable. */
  function FirstUnstable(deps: seq<seq<Depend>>, failed: seq<Failure>, enabled: seq<bool>, n: nat): (r: nat)
    requires Links(deps) && n <= |deps| == |failed| == |enabled|
    ensures n <= r <= |deps| && (r < |deps| ==> Unstable(deps, failed, enabled, r))
    ensures forall i :: n <= i < r ==> !Unstable(deps, failed, enabled, i)
    decreases |deps| - n
  {
    if n == |deps| || Unstable(deps, failed, enabled, n) then n else FirstUnstable(deps, failed, enabled, n + 1)
  }

  /** `order` lists all members, each one behind the others that it depends on. */
  ghost predicate Ordered(deps: seq<seq<Depend>>, order: seq<nat>) {
    && (forall i :: 0 <= i < |deps| ==> i in order)
    && (forall p {:trigger order[p]} :: 0 <= p < |order| ==> order[p] < |deps|)
    && (forall p, q {:trigger order[p], order[q]} :: 0 <= p < q < |order| ==>
      order[p] != order[q] && !DependsOn(deps[order[p]], order[q]))
  }

  /** A number in base three. */
  ghost function Weight(digits: seq<nat>): nat {
    if digits == [] then 0 else 3 * Weight(digits[..|digits| - 1]) + digits[|digits| - 1]
  }

  /** A smaller digit makes the number smaller, whatever happens behind it. */
  lemma {:induction false} WeightLess(u: seq<nat>, v: seq<nat>, p: nat)
    requires |u| == |v| && p < |u| && u[..p] == v[..p] && v[p] < u[p]
    requires forall q :: 0 <= q < |v| ==> v[q] <= 2
    ensures Weight(v) < Weight(u)
  {
    var n := |u| - 1;
    if p < n {
      assert u[..n][..p] == u[..p] && v[..n][..p] == v[..p];
      WeightLess(u[..n], v[..n], p);
    } else {
      assert u[..n] == v[..n];
    }
  }

  /** Only members that depend on `i` can notice that it has changed. */
  lemma {:induction false} FoldFrame(ds: seq<Depend>, j: nat, i: nat, failed: seq<Failure>, enabled: seq<bool>,
      f: Failure, e: bool, acc: Failure)
    requires |enabled| == |failed| && i < |failed|
    requires forall k :: 0 <= k < |ds| && ds[k].Internal? ==> ds[k].member < |failed|
    requires !DependsOn(ds, i)
    ensures Fold(ds, j, failed[i := f], enabled[i := e], acc) == Fold(ds, j, failed, enabled, acc)
  {
    if ds != [] {
      var rest := ds[1..];
      assert forall k :: 0 <= k < |rest| ==> rest[k] == ds[k + 1];
      assert !DependsOn(rest, i);
      if ds[0].External? {
        FoldFrame(rest, j, i, failed, enabled, f, e, acc);
      } else {
        var m := ds[0].member;
        assert m != i by {
          assert ds[0] == Internal(m);
        }
        var g := if m == j then acc else failed[m];
        if g != Hard {
          FoldFrame(rest, j, i, failed, enabled, f, e, if g == Soft || !enabled[m] then Soft else acc);
        }
      }
    }
  }

  /** A chain of dependencies that starts at one member and ends at a member with a `seed`. */
  ghost predicate Path(deps: seq<seq<Depend>>, path: seq<nat>) {
    && path != []
    && (forall k {:trigger path[k]} :: 0 <= k < |path| ==> path[k] < |deps|)
    && (forall k {:trigger path[k]} :: 0 <= k < |path| - 1 ==> DependsOn(deps[path[k]], path[k + 1]))
  }

  ghost predicate Reaches(deps: seq<seq<Depend>>, seeds: seq<bool>, i: nat) {
    exists path :: Path(deps, path) && path[0] == i && path[|path| - 1] < |seeds| && seeds[path[|path| - 1]]
  }

  lemma ReachesMore(deps: seq<seq<Depend>>, seeds: seq<bool>, i: nat, m: nat)
    requires i < |deps| && m < |deps| && DependsOn(deps[i], m) && Reaches(deps, seeds, m)
    ensures Reaches(deps, seeds, i)
  {
    hide DependsOn;
    var path :| Path(deps, path) && path[0] == m && path[|path| - 1] < |seeds| && seeds[path[|path| - 1]];
    PathFront(deps, i, path);
    var more := [i] + path;
    assert more[|more| - 1] == path[|path| - 1];
  }

  lemma PathFront(deps: seq<seq<Depend>>, i: nat, path: seq<nat>)
    requires i < |deps| && path != [] && Path(deps, path) && DependsOn(deps[i], path[0])
    ensures Path(deps, [i] + path)
  {
    hide DependsOn;
    var more := [i] + path;
    forall k {:trigger more[k]} | 0 <= k < |more|
      ensures more[k] < |deps| && (k + 1 < |more| ==> DependsOn(deps[more[k]], more[k + 1]))
    {
      if k > 0 {
        assert more[k] == path[k - 1];
      }
    }
  }

  lemma ReachesSelf(deps: seq<seq<Depend>>, seeds: seq<bool>, i: nat)
    requires i < |deps| == |seeds| && seeds[i]
    ensures Reaches(deps, seeds, i)
  {
    assert Path(deps, [i]);
  }

  /** When nothing is unstable any more, a failure has spread along every chain. */
  lemma {:induction false} Spread(deps: seq<seq<Depend>>, failed: seq<Failure>, enabled: seq<bool>, path: seq<nat>)
    requires Links(deps) && |deps| == |failed| == |enabled| && Path(deps, path)
    requires Stable(deps, failed, enabled) && failed[path[|path| - 1]] == Hard
    ensures failed[path[0]] == Hard
    decreases |path|
  {
    if |path| > 1 {
      var rest := path[1..];
      assert forall k :: 0 <= k < |rest| ==> rest[k] == path[k + 1];
      assert DependsOn(deps[path[0]], path[1]);
      Spread(deps, failed, enabled, rest);
      assert !Unstable(deps, failed, enabled, path[0]);
      FoldMeans(deps[path[0]], path[0], failed, enabled, NoFail);
    }
  }

  /** A member turns hard only when it reaches a seed. */
  lemma HardReaches(deps: seq<seq<Depend>>, seeds: seq<bool>, failed: seq<Failure>, enabled: seq<bool>, i: nat)
    requires Links(deps) && |deps| == |failed| == |enabled| && i < |deps|
    requires forall j :: 0 <= j < |deps| && failed[j] == Hard ==> Reaches(deps, seeds, j)
    requires Fold(deps[i], i, failed, enabled, NoFail) == Hard
    ensures Reaches(deps, seeds, i)
  {
    FoldMeans(deps[i], i, failed, enabled, NoFail);
    var k :| 0 <= k < |deps[i]| && deps[i][k].Internal? && deps[i][k].member != i && deps[i][k].member < |failed|
      && failed[deps[i][k].member] == Hard;
    ReachesMore(deps, seeds, i, deps[i][k].member);
  }

  class Menu {
    const deps: seq<seq<Depend>>
    const files: seq<DepFile>
    const defaultYes: seq<bool>
    const wasDefaulted: seq<bool>
    const wasEnabled: seq<bool>
    const failed: array<Failure>
    const enabled: array<bool>

    ghost predicate Valid()
    {
      && Links(deps)
      && |deps| == |defaultYes| == |wasDefaulted| == |wasEnabled| == failed.Length == enabled.Length
    }

    /** What is hard once the external dependencies have been looked at. */
    ghost function Seeds(before: seq<Failure>): (r: seq<bool>)
      requires |before| == |deps|
      ensures |r| == |deps|
    {
      seq(|deps|, i requires 0 <= i < |deps| => Seed(files, deps[i], before[i]))
    }

    /** Whether a member is enabled after its failure has become `f`. */
    function NewEnabled(i: nat, f: Failure, interactive: bool): bool
      requires i < |wasDefaulted| && i < |defaultYes| && i < |wasEnabled|
    {
      if f == NoFail && wasDefaulted[i] then defaultYes[i] else !interactive && wasEnabled[i]
    }

    method CheckExternals(i: nat)
      requires Valid() && i < |deps|
      modifies failed
      ensures failed[..] == old(failed[..])[i := AfterExternals(files, deps[i], old(failed[i]))]
    {
      var oldFailure := failed[i];
      ghost var d := failed[..];
      var k := 0;
      while k < |deps[i]|
        invariant 0 <= k <= |deps[i]| && failed[..] == d[i := failed[i]]
        invariant forall j :: 0 <= j < k && deps[i][j].External? ==> Met(files, deps[i][j].name)
        invariant failed[i] == if HasExternal(deps[i][..k]) then NoFail else oldFailure
      {
        assert deps[i][..k + 1] == deps[i][..k] + [deps[i][k]];
        assert HasExternal(deps[i][..k]) ==> HasExternal(deps[i][..k + 1]) by {
          if HasExternal(deps[i][..k]) {
            var j :| 0 <= j < k && deps[i][..k][j].External?;
            assert deps[i][..k + 1][j].External?;
          }
        }
        assert deps[i][..k + 1][k] == deps[i][k];
        if deps[i][k].External? {
          failed[i] := Hard;
          if Met(files, deps[i][k].name) {
            failed[i] := NoFail;
          }
          if failed[i] != NoFail {
            break;
          }
        }
        k := k + 1;
      }
      assert k == |deps[i]| ==> deps[i][..k] == deps[i];
      if oldFailure == Soft && failed[i] != Hard {
        failed[i] := Soft;
      }
    }

    /** Computes the failure of member `i` from what it depends on. */
    method Recompute(i: nat)
      requires Valid() && i < |deps|
      modifies failed
      ensures failed[..] == old(failed[..])[i := Fold(deps[i], i, old(failed[..]), enabled[..], NoFail)]
    {
      ghost var d, result := failed[..], Fold(deps[i], i, failed[..], enabled[..], NoFail);
      failed[i] := NoFail;
      var k := 0;
      assert deps[i][0..] == deps[i];
      while k < |deps[i]|
        invariant 0 <= k <= |deps[i]| && failed[..] == d[i := failed[i]]
        invariant result == Fold(deps[i][k..], i, d, enabled[..], failed[i])
      {
        assert deps[i][k..][1..] == deps[i][k + 1..];
        match deps[i][k] {
          case External(_) =>
          case Internal(m) =>
            if failed[m] == Hard {
              failed[i] := Hard;
              break;
            } else if failed[m] == Soft {
              failed[i] := Soft;
            } else if !enabled[m] {
              failed[i] := Soft;
            }
        }
        k := k + 1;
      }
    }

    /** Looks for the first member whose failure changes. */
    method Scan(interactive: bool) returns (changed: bool)
      requires Valid()
      modifies failed, enabled
      ensures changed <==> !Stable(deps, old(failed[..]), old(enabled[..]))
      ensures State(failed[..], enabled[..]) == Round(this, interactive, State(old(failed[..]), old(enabled[..])))
    {
      ghost var d, e := failed[..], enabled[..];
      for n := 0 to |deps|
        invariant failed[..] == d && enabled[..] == e
        invariant forall j :: 0 <= j < n ==> !Unstable(deps, d, e, j)
      {
        var oldFailure := failed[n];
        if oldFailure != Hard {
          Recompute(n);
          if failed[n] != oldFailure {
            if failed[n] == NoFail && wasDefaulted[n] {
              enabled[n] := defaultYes[n];
            } else {
              enabled[n] := if interactive then false else wasEnabled[n];
            }
            assert Unstable(deps, d, e, n);
            assert FirstUnstable(deps, d, e, 0) == n;
            return true;
          }
          assert d[n := oldFailure] == d;
        }
      }
      changed := false;
    }

    /** One call of the dependency check, whatever the members depend on, as long as its loop ends. */
    method CalcDepFailures(interactive: bool) returns (result: bool)
      requires Valid() && Ends(this, interactive, Start(this, failed[..], enabled[..]))
      modifies failed, enabled
      ensures var start := Start(this, old(failed[..]), old(enabled[..]));
        && (exists n: nat :: State(failed[..], enabled[..]) == Rounds(this, interactive, start, n))
        && (result <==> !Stable(deps, start.failed, start.enabled))
      ensures Stable(deps, failed[..], enabled[..])
      ensures var start := Start(this, old(failed[..]), old(enabled[..]));
        forall i :: 0 <= i < |deps| ==> Flagged(this, interactive, start, State(failed[..], enabled[..]), i)
      ensures forall i :: 0 <= i < |deps| ==> (failed[i] == Hard <==> Reaches(deps, Seeds(old(failed[..])), i))
      ensures forall i :: 0 <= i < |deps| && failed[i] != Hard ==>
        failed[i] == if SoftFor(deps[i], i, failed[..], enabled[..]) then Soft else NoFail
    {
      hide Reaches, Seed, AfterExternals, Fold, Unstable, Stable, Round, Flagged;
      ghost var d, e := failed[..], enabled[..];
      ghost var seeds := Seeds(d);
      for i := 0 to |deps|
        invariant enabled[..] == e
        invariant forall j :: 0 <= j < i ==> failed[j] == AfterExternals(files, deps[j], d[j])
        invariant forall j :: i <= j < |deps| ==> failed[j] == d[j]
      {
        CheckExternals(i);
      }
      ghost var start := Start(this, d, e);
      assert failed[..] == start.failed;
      forall j | 0 <= j < |deps|
        ensures seeds[j] <==> failed[j] == Hard
      {
        SeedIs(files, deps[j], d[j]);
      }
      forall j | 0 <= j < |deps| && failed[j] == Hard
        ensures Reaches(deps, seeds, j)
      {
        ReachesSelf(deps, seeds, j);
      }
      ghost var left: nat :| StableAt(this, interactive, start, left);
      ghost var done := 0;
      result := false;
      var changed := true;
      assert forall i :: 0 <= i < |deps| ==> Flagged(this, interactive, start, start, i) by {
        StartFlagged(this, interactive, start);
      }
      while changed
        invariant forall j :: 0 <= j < |deps| && seeds[j] ==> failed[j] == Hard
        invariant forall j :: 0 <= j < |deps| && failed[j] == Hard ==> Reaches(deps, seeds, j)
        invariant State(failed[..], enabled[..]) == Rounds(this, interactive, start, done)
        invariant !changed ==> Stable(deps, failed[..], enabled[..])
        invariant forall i :: 0 <= i < |deps| ==>
          Flagged(this, interactive, start, State(failed[..], enabled[..]), i)
        invariant result <==> done > 0
        invariant done > 0 ==> !Stable(deps, start.failed, start.enabled)
        invariant done <= left
        decreases left - done, changed
      {
        ghost var s := State(failed[..], enabled[..]);
        changed := Scan(interactive);
        RoundKeeps(this, interactive, seeds, s);
        RoundFlags(this, interactive, start, s);
        if changed {
          OneMore(this, interactive, start, done, left);
          done := done + 1;
          result := true;
        }
      }
      Settled(deps, seeds, failed[..], enabled[..]);
    }
  }

  /** What holds when nothing changes any more. */
  lemma Settled(deps: seq<seq<Depend>>, seeds: seq<bool>, failed: seq<Failure>, enabled: seq<bool>)
    requires Links(deps) && |deps| == |failed| == |enabled| == |seeds|
    requires Stable(deps, failed, enabled)
    requires forall i :: 0 <= i < |deps| && seeds[i] ==> failed[i] == Hard
    ensures forall i :: 0 <= i < |deps| && Reaches(deps, seeds, i) ==> failed[i] == Hard
    ensures forall i :: 0 <= i < |deps| && failed[i] != Hard ==>
      failed[i] == if SoftFor(deps[i], i, failed, enabled) then Soft else NoFail
  {
    forall i | 0 <= i < |deps| && Reaches(deps, seeds, i)
      ensures failed[i] == Hard
    {
      var path :| Path(deps, path) && path[0] == i && path[|path| - 1] < |seeds| && seeds[path[|path| - 1]];
      Spread(deps, failed, enabled, path);
    }
    forall i | 0 <= i < |deps| && failed[i] != Hard
      ensures failed[i] == if SoftFor(deps[i], i, failed, enabled) then Soft else NoFail
    {
      assert !Unstable(deps, failed, enabled, i);
      FoldMeans(deps[i], i, failed, enabled, NoFail);
    }
  }

  // ---- The rounds of the loop

  /** The failures and the flags of all members. */
  datatype State = State(failed: seq<Failure>, enabled: seq<bool>)

  ghost predicate Of(m: Menu, s: State) {
    m.Valid() && |s.failed| == |s.enabled| == |m.deps|
  }

  /** What the loop starts with. */
  ghost function Start(m: Menu, failed: seq<Failure>, enabled: seq<bool>): (s: State)
    requires m.Valid() && |failed| == |enabled| == |m.deps|
    ensures Of(m, s)
  {
    State(seq(|m.deps|, i requires 0 <= i < |m.deps| => AfterExternals(m.files, m.deps[i], failed[i])), enabled)
  }

  /** Member `i` takes the failure that its dependencies make of it. */
  ghost function Change(m: Menu, interactive: bool, s: State, i: nat): (t: State)
    requires Of(m, s) && i < |m.deps|
    ensures Of(m, t)
  {
    var f := Fold(m.deps[i], i, s.failed, s.enabled, NoFail);
    State(s.failed[i := f], s.enabled[i := m.NewEnabled(i, f, interactive)])
  }

  /** One scan: the first member that is not stable changes. */
  ghost function Round(m: Menu, interactive: bool, s: State): (t: State)
    requires Of(m, s)
    ensures Of(m, t)
  {
    var i := FirstUnstable(m.deps, s.failed, s.enabled, 0);
    if i == |m.deps| then s else Change(m, interactive, s, i)
  }

  ghost function Rounds(m: Menu, interactive: bool, s: State, n: nat): (t: State)
    requires Of(m, s)
    ensures Of(m, t)
  {
    if n == 0 then s else Round(m, interactive, Rounds(m, interactive, s, n - 1))
  }

  ghost predicate StableAt(m: Menu, interactive: bool, s: State, n: nat)
    requires Of(m, s)
  {
    var t := Rounds(m, interactive, s, n);
    Stable(m.deps, t.failed, t.enabled)
  }

  /** The loop comes to an end. */
  ghost predicate Ends(m: Menu, interactive: bool, s: State)
    requires Of(m, s)
  {
    exists n: nat :: StableAt(m, interactive, s, n)
  }

  /** Hard failures stay, and new ones have a reason. */
  lemma RoundKeeps(m: Menu, interactive: bool, seeds: seq<bool>, s: State)
    requires Of(m, s) && |seeds| == |m.deps|
    requires forall j :: 0 <= j < |m.deps| && s.failed[j] == Hard ==> Reaches(m.deps, seeds, j)
    ensures var t := Round(m, interactive, s);
      && (forall j :: 0 <= j < |m.deps| && s.failed[j] == Hard ==> t.failed[j] == Hard)
      && (forall j :: 0 <= j < |m.deps| && t.failed[j] == Hard ==> Reaches(m.deps, seeds, j))
      && (Stable(m.deps, s.failed, s.enabled) ==> t == s)
  {
    hide Reaches;
    var i := FirstUnstable(m.deps, s.failed, s.enabled, 0);
    if i < |m.deps| && Fold(m.deps[i], i, s.failed, s.enabled, NoFail) == Hard {
      HardReaches(m.deps, seeds, s.failed, s.enabled, i);
    }
  }

  /** A member is as it was at the start, or its flag goes with its failure: a member that had been defaulted
      has its default when it is fine; otherwise it is off in an interactive call, and else as it was before.
   */
  ghost predicate Flagged(m: Menu, interactive: bool, start: State, s: State, i: nat)
    requires Of(m, start) && Of(m, s) && i < |m.deps|
  {
    || (s.failed[i] == start.failed[i] && s.enabled[i] == start.enabled[i])
    || (s.failed[i] == NoFail && m.wasDefaulted[i] && s.enabled[i] == m.defaultYes[i])
    || ((s.failed[i] != NoFail || !m.wasDefaulted[i]) && interactive && !s.enabled[i])
    || ((s.failed[i] != NoFail || !m.wasDefaulted[i]) && !interactive && s.enabled[i] == m.wasEnabled[i])
  }

  lemma StartFlagged(m: Menu, interactive: bool, start: State)
    requires Of(m, start)
    ensures forall i :: 0 <= i < |m.deps| ==> Flagged(m, interactive, start, start, i)
  {
  }

  lemma RoundFlags(m: Menu, interactive: bool, start: State, s: State)
    requires Of(m, start) && Of(m, s)
    requires forall i :: 0 <= i < |m.deps| ==> Flagged(m, interactive, start, s, i)
    ensures forall i :: 0 <= i < |m.deps| ==> Flagged(m, interactive, start, Round(m, interactive, s), i)
  {
    hide Unstable, Fold;
    forall i | 0 <= i < |m.deps|
      ensures Flagged(m, interactive, start, Round(m, interactive, s), i)
    {
      assert Flagged(m, interactive, start, s, i);
    }
  }

  /** Nothing changes behind a stable state. */
  lemma {:induction false} StaysStable(m: Menu, interactive: bool, s: State, k: nat, n: nat)
    requires Of(m, s) && k <= n && StableAt(m, interactive, s, k)
    ensures Rounds(m, interactive, s, n) == Rounds(m, interactive, s, k)
  {
    hide Unstable;
    if k < n {
      StaysStable(m, interactive, s, k, n - 1);
    }
  }

  /** A round that changes something comes before the end. */
  lemma OneMore(m: Menu, interactive: bool, s: State, done: nat, end: nat)
    requires Of(m, s) && StableAt(m, interactive, s, end) && done <= end
    requires !StableAt(m, interactive, s, done)
    ensures done < end && !Stable(m.deps, s.failed, s.enabled)
  {
    hide Unstable, Stable, Round;
    if StableAt(m, interactive, s, 0) {
      StaysStable(m, interactive, s, 0, done);
    }
  }

  // ---- When the loop ends

  /** Its flags put a member off when it is fine, and on when it is soft. */
  ghost predicate Flips(m: Menu, interactive: bool, i: nat)
    requires m.Valid() && i < |m.deps|
  {
    m.wasDefaulted[i] && !m.defaultYes[i] && m.wasEnabled[i] && !interactive
  }

  /** A member depends on itself and on no other. */
  predicate OnlySelf(ds: seq<Depend>, i: nat) {
    DependsOn(ds, i) && forall k :: 0 <= k < |ds| && ds[k].Internal? ==> ds[k].member == i
  }

  /** The failure of such a member does not fit its flag. */
  ghost predicate Spins(m: Menu, interactive: bool, s: State, i: nat)
    requires Of(m, s) && i < |m.deps|
  {
    && OnlySelf(m.deps[i], i) && Flips(m, interactive, i)
    && s.failed[i] != Hard && (s.failed[i] == Soft) == s.enabled[i]
  }

  /** Such a member is never stable, and remains what it is. */
  lemma SpinsOn(m: Menu, interactive: bool, s: State, i: nat)
    requires Of(m, s) && i < |m.deps| && Spins(m, interactive, s, i)
    ensures Unstable(m.deps, s.failed, s.enabled, i)
    ensures Spins(m, interactive, Round(m, interactive, s), i)
  {
    FoldMeans(m.deps[i], i, s.failed, s.enabled, NoFail);
  }

  lemma {:induction false} SpinsForever(m: Menu, interactive: bool, s: State, i: nat, n: nat)
    requires Of(m, s) && i < |m.deps| && Spins(m, interactive, s, i)
    ensures Spins(m, interactive, Rounds(m, interactive, s, n), i) && !StableAt(m, interactive, s, n)
  {
    hide Spins, Unstable, Round;
    if n > 0 {
      SpinsForever(m, interactive, s, i, n - 1);
      SpinsOn(m, interactive, Rounds(m, interactive, s, n - 1), i);
    }
    SpinsOn(m, interactive, Rounds(m, interactive, s, n), i);
  }

  /** Only members that depend on `i` can notice that it has changed. */
  lemma OthersSame(m: Menu, interactive: bool, s: State, i: nat, j: nat)
    requires Of(m, s) && i < |m.deps| && j < |m.deps| && j != i && !DependsOn(m.deps[j], i)
    ensures Turns(m, interactive, Change(m, interactive, s, i), j) == Turns(m, interactive, s, j)
  {
    var t, u := Change(m, interactive, s, i), Change(m, interactive, s, j);
    var f, e := t.failed[i], t.enabled[i];
    FoldFrame(m.deps[j], j, i, s.failed, s.enabled, f, e, NoFail);
    FoldFrame(m.deps[j], j, i, u.failed, u.enabled, f, e, NoFail);
    var w := Change(m, interactive, t, j);
    assert w.failed == u.failed[i := f] && w.enabled == u.enabled[i := e];
  }

  /** How often a member changes before it is stable, as far as it concerns itself. */
  ghost function Turns(m: Menu, interactive: bool, s: State, i: nat): (r: nat)
    requires Of(m, s) && i < |m.deps|
    ensures r <= 2
  {
    if !Unstable(m.deps, s.failed, s.enabled, i) then 0
    else
      var t := Change(m, interactive, s, i);
      if !Unstable(m.deps, t.failed, t.enabled, i) then 1 else 2
  }

  /** What the others make of a member does not depend on itself. */
  lemma BelowSame(ds: seq<Depend>, i: nat, failed: seq<Failure>, enabled: seq<bool>, f: Failure, e: bool)
    requires |enabled| == |failed| && i < |failed|
    ensures HardBelow(ds, i, failed[i := f]) == HardBelow(ds, i, failed)
    ensures SoftBelow(ds, i, failed[i := f], enabled[i := e]) == SoftBelow(ds, i, failed, enabled)
  {
  }

  /** After two changes in a row a member is stable, unless it depends on itself and its flags flip. */
  lemma FewerTurns(m: Menu, interactive: bool, s: State, i: nat)
    requires Of(m, s) && i < |m.deps| && Unstable(m.deps, s.failed, s.enabled, i)
    requires !DependsOn(m.deps[i], i) || !Flips(m, interactive, i)
    ensures Turns(m, interactive, Change(m, interactive, s, i), i) < Turns(m, interactive, s, i)
  {
    var ds, t := m.deps[i], Change(m, interactive, s, i);
    var u := Change(m, interactive, t, i);
    FoldMeans(ds, i, s.failed, s.enabled, NoFail);
    FoldMeans(ds, i, t.failed, t.enabled, NoFail);
    FoldMeans(ds, i, u.failed, u.enabled, NoFail);
    BelowSame(ds, i, s.failed, s.enabled, t.failed[i], t.enabled[i]);
    BelowSame(ds, i, t.failed, t.enabled, u.failed[i], u.enabled[i]);
    hide HardBelow, SoftBelow, DependsOn, Fold;
  }

  /** The changes still to come of all members, in order, as a number in base three. */
  ghost function Measure(m: Menu, interactive: bool, order: seq<nat>, s: State): nat
    requires Of(m, s) && forall p :: 0 <= p < |order| ==> order[p] < |m.deps|
  {
    Weight(seq(|order|, p requires 0 <= p < |order| => Turns(m, interactive, s, order[p])))
  }

  /** Every change brings the loop nearer to its end. */
  lemma ChangeProgress(m: Menu, interactive: bool, order: seq<nat>, s: State, i: nat)
    requires Of(m, s) && Ordered(m.deps, order) && i < |m.deps| && Unstable(m.deps, s.failed, s.enabled, i)
    requires !DependsOn(m.deps[i], i) || !Flips(m, interactive, i)
    ensures Measure(m, interactive, order, Change(m, interactive, s, i)) < Measure(m, interactive, order, s)
  {
    assert i in order;
    var p :| 0 <= p < |order| && order[p] == i;
    var t := Change(m, interactive, s, i);
    var u := seq(|order|, q requires 0 <= q < |order| => Turns(m, interactive, s, order[q]));
    var v := seq(|order|, q requires 0 <= q < |order| => Turns(m, interactive, t, order[q]));
    forall q | 0 <= q < p
      ensures u[q] == v[q]
    {
      assert order[q] != order[p];
      OthersSame(m, interactive, s, i, order[q]);
    }
    FewerTurns(m, interactive, s, i);
    assert u[..p] == v[..p];
    WeightLess(u, v, p);
  }

  /** A member that depends on itself and whose flags flip depends on no other member. */
  ghost predicate FlipsAlone(m: Menu, interactive: bool)
    requires m.Valid()
  {
    forall i :: 0 <= i < |m.deps| && DependsOn(m.deps[i], i) && Flips(m, interactive, i) ==> OnlySelf(m.deps[i], i)
  }

  /** A round leaves a member that does not spin alone. */
  lemma SpinsNever(m: Menu, interactive: bool, s: State, i: nat)
    requires Of(m, s) && FlipsAlone(m, interactive)
    requires forall j :: 0 <= j < |m.deps| ==> !Spins(m, interactive, s, j)
    requires i < |m.deps| && Unstable(m.deps, s.failed, s.enabled, i)
    ensures !DependsOn(m.deps[i], i) || !Flips(m, interactive, i)
    ensures forall j :: 0 <= j < |m.deps| ==> !Spins(m, interactive, Change(m, interactive, s, i), j)
  {
    FoldMeans(m.deps[i], i, s.failed, s.enabled, NoFail);
    if DependsOn(m.deps[i], i) && Flips(m, interactive, i) {
      assert OnlySelf(m.deps[i], i);
      assert Spins(m, interactive, s, i);
    }
    forall j | 0 <= j < |m.deps|
      ensures !Spins(m, interactive, Change(m, interactive, s, i), j)
    {
      assert !Spins(m, interactive, s, j);
    }
  }

  lemma {:induction false} StopsFrom(m: Menu, interactive: bool, order: seq<nat>, s: State, k: nat)
    requires Of(m, s) && Ordered(m.deps, order) && FlipsAlone(m, interactive)
    requires forall i :: 0 <= i < |m.deps| ==> !Spins(m, interactive, Rounds(m, interactive, s, k), i)
    ensures Ends(m, interactive, s)
    decreases Measure(m, interactive, order, Rounds(m, interactive, s, k))
  {
    hide Spins, Unstable, Change, Measure;
    var t := Rounds(m, interactive, s, k);
    var i := FirstUnstable(m.deps, t.failed, t.enabled, 0);
    if i == |m.deps| {
      assert StableAt(m, interactive, s, k);
    } else {
      SpinsNever(m, interactive, t, i);
      ChangeProgress(m, interactive, order, t, i);
      StopsFrom(m, interactive, order, s, k + 1);
    }
  }

  /**
   * Members may depend on themselves but there is no other cycle, and where flags flip there is no
   * other dependency: the loop ends exactly if no member spins at its start.
   */
  lemma SelfLoop(m: Menu, interactive: bool, order: seq<nat>, s: State)
    requires Of(m, s) && Ordered(m.deps, order) && FlipsAlone(m, interactive)
    ensures Ends(m, interactive, s) <==> forall i :: 0 <= i < |m.deps| ==> !Spins(m, interactive, s, i)
  {
    hide Spins, StableAt;
    if i :| 0 <= i < |m.deps| && Spins(m, interactive, s, i) {
      forall n: nat
        ensures !StableAt(m, interactive, s, n)
      {
        SpinsForever(m, interactive, s, i, n);
      }
    } else {
      assert Rounds(m, interactive, s, 0) == s;
      StopsFrom(m, interactive, order, s, 0);
    }
  }

  /** Without any cycle the loop always ends. */
  lemma AcyclicEnds(m: Menu, interactive: bool, order: seq<nat>, s: State)
    requires Of(m, s) && Ordered(m.deps, order) && forall i :: 0 <= i < |m.deps| ==> !DependsOn(m.deps[i], i)
    ensures Ends(m, interactive, s)
  {
    SelfLoop(m, interactive, order, s);
  }

  /** One member that depends on itself, is off by default and was on before: the loop never ends. */
  lemma EndlessInput(m: Menu)
    requires m.Valid() && m.deps == [[Internal(0)]] && m.files == []
    requires m.wasDefaulted == [true] && m.defaultYes == [false] && m.wasEnabled == [true]
    ensures !Ends(m, false, Start(m, [NoFail], [false]))
  {
    var s := Start(m, [NoFail], [false]);
    assert m.deps[0][0] == Internal(0);
    assert Spins(m, false, s, 0);
    forall n: nat
      ensures !StableAt(m, false, s, n)
    {
      SpinsForever(m, false, s, 0, n);
    }
  }
}
