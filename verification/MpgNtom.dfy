/**
 * The sample rate converter of formats/mp3/decode_ntom.c. The 32 values that the filter bank has for
 * a call are given; what is modelled is how often each of them is written. Positions count samples,
 * where the source counts octets.
 */
module MpgNtom {
  import opened BitStrings

  const NTOM_MUL := 32768

  /** How many samples are out once the accumulator has gone from `acc` by `j` steps. */
  function Out(acc: nat, step: nat, j: nat): nat {
    (acc + j * step) / NTOM_MUL
  }

  /** Where the accumulator stands after `j` steps, and after a call. */
  function Acc(acc: nat, step: nat, j: nat): nat {
    (acc + j * step) % NTOM_MUL
  }

  function Left(acc: nat, step: nat): nat {
    Acc(acc, step, 32)
  }

  /** The `i`-th sample of a call is the value during whose step it became due. */
  ghost predicate Due(acc: nat, step: nat, i: nat, j: nat) {
    Out(acc, step, j) <= i < Out(acc, step, j + 1)
  }

  lemma OutGrows(acc: nat, step: nat, j: nat, k: nat)
    requires j <= k
    ensures Out(acc, step, j) <= Out(acc, step, k)
  {
    assert k * step == j * step + (k - j) * step;
  }

  /** Each sample is due at one value only. */
  lemma DueOnce(acc: nat, step: nat, i: nat, j: nat, k: nat)
    requires Due(acc, step, i, j) && Due(acc, step, i, k)
    ensures j == k
  {
    if j < k {
      OutGrows(acc, step, j + 1, k);
    } else if k < j {
      OutGrows(acc, step, k + 1, j);
    }
  }

  /** A call writes at most 256 samples, so that they fit into 512 places with a stride of two. */
  lemma AtMost256(acc: nat, step: nat, j: nat)
    requires acc < NTOM_MUL && step <= 8 * NTOM_MUL && j <= 32
    ensures Out(acc, step, j) <= 256
  {
    OutGrows(acc, step, j, 32);
  }

  // ---- Many calls ----

  datatype Total = Total(written: nat, acc: nat)

  /** What has been written after `n` calls, from a reset. */
  function Run(step: nat, n: nat): Total {
    if n == 0 then Total(0, NTOM_MUL / 2)
    else
      var t := Run(step, n - 1);
      Total(t.written + Out(t.acc, step, 32), Left(t.acc, step))
  }

  /** The converter never drifts: the remainders add up to nothing. */
  lemma {:induction false} NoDrift(step: nat, n: nat)
    ensures Run(step, n).written == (16384 + 32 * (n * step)) / NTOM_MUL
    ensures Run(step, n).acc == (16384 + 32 * (n * step)) % NTOM_MUL
  {
    if n > 0 {
      NoDrift(step, n - 1);
      assert n * step == (n - 1) * step + step;
    }
  }

  /** The samples of `taps` that are due after `j` of them are in `out` from `at` on, two places apart. */
  ghost predicate Written(out: seq<int>, at: nat, taps: seq<int>, acc: nat, step: nat, j: nat)
    requires j <= |taps| && at + 2 * Out(acc, step, j) <= |out| + 1
  {
    forall i, k :: 0 <= k < j && 0 <= i < Out(acc, step, j) && Due(acc, step, i, k) ==> out[at + 2 * i] == taps[k]
  }

  /** Nothing but every other place between `at` and `end` is changed. */
  ghost predicate Strided(was: seq<int>, out: seq<int>, at: nat, end: nat) {
    |out| == |was|
    && forall i :: 0 <= i < |out| && (i < at || end <= i || (i - at) % 2 == 1) ==> out[i] == was[i]
  }

  lemma WrittenMore(was: seq<int>, out: seq<int>, at: nat, taps: seq<int>, acc: nat, step: nat, j: nat)
    requires j < |taps| && Out(acc, step, j) <= Out(acc, step, j + 1)
    requires |was| == |out| && at + 2 * Out(acc, step, j + 1) <= |out| + 1
    requires Written(was, at, taps, acc, step, j)
    requires Strided(was, out, at + 2 * Out(acc, step, j), at + 2 * Out(acc, step, j + 1))
    requires var mid := at + 2 * Out(acc, step, j);
      forall i :: 0 <= i < Out(acc, step, j + 1) - Out(acc, step, j) ==> out[mid + 2 * i] == taps[j]
    ensures Written(out, at, taps, acc, step, j + 1)
  {
    forall i, k | 0 <= k < j + 1 && 0 <= i < Out(acc, step, j + 1) && Due(acc, step, i, k)
      ensures out[at + 2 * i] == taps[k]
    {
      if k < j {
        OutGrows(acc, step, k + 1, j);
        assert out[at + 2 * i] == was[at + 2 * i];
      } else {
        assert out[at + 2 * Out(acc, step, j) + 2 * (i - Out(acc, step, j))] == taps[j];
      }
    }
  }

  lemma StridedMore(a: seq<int>, b: seq<int>, c: seq<int>, at: nat, mid: nat, end: nat)
    requires at <= mid <= end && (mid - at) % 2 == 0 && Strided(a, b, at, mid) && Strided(b, c, mid, end)
    ensures Strided(a, c, at, end)
  {
    forall i | 0 <= i < |c| && (i < at || end <= i || (i - at) % 2 == 1)
      ensures c[i] == a[i]
    {
      assert c[i] == b[i];
    }
  }

  // ---- The converter ----

  /** The rates that are refused: out of range, or a step that is negative or above 1:8. */
  predicate Refused(m: int, n: int) {
    || n >= 96000 || m >= 96000 || m == 0 || n == 0
    || !(0 <= Quotient(n * NTOM_MUL, m) <= 8 * NTOM_MUL)
  }

  /** Rates from 1 on are refused exactly if one is 96000 or more, or if there would be more than eight samples for
      each one.
   */
  lemma RefusedMeans(m: nat, n: nat)
    requires m > 0 && n > 0
    ensures Refused(m, n) <==> m >= 96000 || n >= 96000 || n > 8 * m
  {
    hide Quotient;
    var q := Quotient(n * NTOM_MUL, m);
    QuotientBounds(n * NTOM_MUL, m);
    if q <= 8 * NTOM_MUL {
      Longer(q, 8 * NTOM_MUL, m);
    } else {
      Longer(8 * NTOM_MUL + 1, q, m);
    }
  }

  lemma QuotientBounds(a: nat, m: nat)
    requires m > 0
    ensures var q := Quotient(a, m); q >= 0 && q * m <= a < q * m + m
  {
  }

  lemma Longer(a: nat, b: nat, m: nat)
    requires a <= b
    ensures a * m <= b * m
  {
  }

  class Converter {
    var val0: nat
    var val1: nat
    var step: int

    constructor ()
      ensures Valid() && val0 == NTOM_MUL / 2 && step == NTOM_MUL
    {
      val0, val1, step := NTOM_MUL / 2, NTOM_MUL / 2, NTOM_MUL;
    }

    ghost predicate Valid()
      reads this
    {
      val0 < NTOM_MUL && val1 < NTOM_MUL && 0 <= step <= 8 * NTOM_MUL
    }

    /**
     * `synth_ntom_set_step`: from the rate `m` to the rate `n`. A negative quotient is a huge
     * unsigned number; the step is stored before it is looked at.
     */
    method SetStep(m: int, n: int) returns (err: bool)
      requires Valid()
      modifies this
      ensures err <==> Refused(m, n)
      ensures !err ==> Valid() && step == Quotient(n * NTOM_MUL, m) && val0 == val1 == NTOM_MUL / 2
      ensures err ==> val0 == old(val0) && val1 == old(val1)
    {
      if n >= 96000 || m >= 96000 || m == 0 || n == 0 {
        return true;
      }
      step := Quotient(n * NTOM_MUL, m);
      if step < 0 || step > 8 * NTOM_MUL {
        return true;
      }
      val0, val1 := NTOM_MUL / 2, NTOM_MUL / 2;
      return false;
    }

    /** `synth_ntom`: the left channel hands its accumulator over to the right one. */
    method Synth(channel: nat, taps: seq<int>, out: array<int>, pnt: nat) returns (next: nat)
      requires Valid() && channel < 2 && |taps| == 32
      requires pnt + 2 * Out(if channel == 0 then val0 else val1, step, 32) <= out.Length
      modifies this`val0, this`val1, out
      ensures Valid()
      ensures var acc := old(if channel == 0 then val0 else val1);
        && next == pnt + 2 * Out(acc, step, 32)
        && Written(out[..], pnt + channel, taps, acc, step, 32)
        && val1 == (if channel == 0 then acc else Left(acc, step))
        && val0 == (if channel == 0 then Left(acc, step) else old(val0))
        && Strided(old(out[..]), out[..], pnt + channel, next + channel)
    {
      var samples, ntom := pnt, val1;
      if channel == 0 {
        ntom := val0;
        val1 := val0;
      } else {
        samples := samples + 1;
      }
      samples, ntom := Convert(channel, taps, out, pnt, samples, ntom);
      if channel == 0 {
        val0 := ntom;
      } else {
        val1 := ntom;
      }
      next := samples - channel;
    }

    /** `synth_ntom_mono`: every other place of a temporary of 512 samples is copied out. */
    method SynthMono(taps: seq<int>, out: array<int>, pnt: nat) returns (next: nat)
      requires Valid() && |taps| == 32 && pnt + Out(val0, step, 32) <= out.Length
      modifies this`val0, this`val1, out
      ensures Valid() && next == pnt + Out(old(val0), step, 32)
      ensures val0 == Left(old(val0), step) && val1 == old(val0)
      ensures forall i, k :: 0 <= k < 32 && 0 <= i < next - pnt && Due(old(val0), step, i, k) ==>
        out[pnt + i] == taps[k]
      ensures forall i :: 0 <= i < out.Length && (i < pnt || next <= i) ==> out[i] == old(out[i])
    {
      hide Out, Due;
      ghost var acc := val0;
      AtMost256(acc, step, 32);
      var tmp := new int[512](_ => 0);
      var pnt1 := Synth(0, taps, tmp, 0);
      var i := 0;
      while i < pnt1 / 2
        invariant 0 <= i <= pnt1 / 2 && 2 * (pnt1 / 2) == pnt1
        invariant Valid() && val0 == Left(acc, step) && val1 == acc
        invariant Written(tmp[..], 0, taps, acc, step, 32)
        invariant forall x :: 0 <= x < i ==> out[pnt + x] == tmp[2 * x]
        invariant forall x :: 0 <= x < out.Length && (x < pnt || pnt + i <= x) ==> out[x] == old(out[x])
      {
        out[pnt + i] := tmp[2 * i];
        i := i + 1;
      }
      next := pnt + pnt1 / 2;
      forall x, k | 0 <= k < 32 && 0 <= x < next - pnt && Due(acc, step, x, k)
        ensures out[pnt + x] == taps[k]
      {
        assert tmp[..][0 + 2 * x] == taps[k];
      }
    }

    /** The two loops and the value between them. */
    method Convert(channel: nat, taps: seq<int>, out: array<int>, ghost pnt: nat, first: nat, acc: nat)
      returns (samples: nat, ntom: nat)
      requires Valid() && channel < 2 && |taps| == 32 && acc < NTOM_MUL && first == pnt + channel
      requires pnt + 2 * Out(acc, step, 32) <= out.Length
      modifies out
      ensures Half(taps, out, old(out[..]), pnt, channel, acc, 32, samples, ntom)
    {
      hide Out, Written, Strided;
      OutFirst(acc, step);
      NothingWritten(taps, out, pnt + channel, acc);
      samples, ntom := first, acc;
      var j := 0;
      while j < 16
        invariant 0 <= j <= 16
        invariant Half(taps, out, old(out[..]), pnt, channel, acc, j, samples, ntom)
      {
        samples, ntom := Tap(taps, out, old(out[..]), pnt, channel, acc, j, samples, ntom);
        j := j + 1;
      }
      samples, ntom := Tap(taps, out, old(out[..]), pnt, channel, acc, j, samples, ntom);
      j := j + 1;
      while j < 32
        invariant 17 <= j <= 32
        invariant Half(taps, out, old(out[..]), pnt, channel, acc, j, samples, ntom)
      {
        samples, ntom := Tap(taps, out, old(out[..]), pnt, channel, acc, j, samples, ntom);
        j := j + 1;
      }
    }

    lemma NothingWritten(taps: seq<int>, out: array<int>, at: nat, acc: nat)
      requires acc < NTOM_MUL && step >= 0 && at <= out.Length + 1
      ensures Out(acc, step, 0) == 0 && Written(out[..], at, taps, acc, step, 0) && Strided(out[..], out[..], at, at)
    {
    }

    /** A call after `j` of its values. */
    ghost predicate Half(
        taps: seq<int>, out: array<int>, was: seq<int>, pnt: nat, channel: nat, acc: nat, j: nat, samples: nat,
          ntom: nat)
      reads this`step, out
    {
      && |taps| == 32 && channel < 2 && 0 <= step && j <= 32
      && pnt + 2 * Out(acc, step, 32) <= out.Length == |was|
      && samples == pnt + channel + 2 * Out(acc, step, j) && Out(acc, step, j) <= Out(acc, step, 32)
      && ntom == Acc(acc, step, j)
      && Written(out[..], pnt + channel, taps, acc, step, j)
      && Strided(was, out[..], pnt + channel, samples)
    }

    /** One value: the accumulator takes a step, and the value is written as often as it has run over. */
    method Tap(
        taps: seq<int>, out: array<int>, ghost was: seq<int>, ghost pnt: nat, ghost channel: nat, ghost acc: nat,
        j: nat, at: nat, val: nat)
        returns (samples: nat, ntom: nat)
      requires j < 32 && Half(taps, out, was, pnt, channel, acc, j, at, val)
      modifies out
      ensures Half(taps, out, was, pnt, channel, acc, j + 1, samples, ntom)
    {
      hide Out, Acc, Written, Strided;
      StepOn(acc, step, j);
      OutGrows(acc, step, j + 1, 32);
      ghost var before := out[..];
      samples, ntom := Emit(out, at, val + step, taps[j]);
      WrittenMore(before, out[..], pnt + channel, taps, acc, step, j);
      StridedMore(was, before, out[..], pnt + channel, at, samples);
    }

    /** The loop that writes a value as often as the accumulator has run over. */
    method Emit(out: array<int>, at: nat, val: nat, sum: int) returns (samples: nat, ntom: nat)
      requires at + 2 * (val / NTOM_MUL) <= out.Length + 1
      modifies out
      ensures samples == at + 2 * (val / NTOM_MUL) && ntom == val % NTOM_MUL
      ensures forall i :: 0 <= i < val / NTOM_MUL ==> out[at + 2 * i] == sum
      ensures Strided(old(out[..]), out[..], at, samples)
    {
      samples, ntom := at, val;
      ghost var n := 0;
      while ntom >= NTOM_MUL
        invariant n + ntom / NTOM_MUL == val / NTOM_MUL && samples == at + 2 * n && ntom % NTOM_MUL == val % NTOM_MUL
        invariant forall i :: 0 <= i < n ==> out[at + 2 * i] == sum
        invariant forall i :: 0 <= i < out.Length && (i < at || samples <= i || (i - at) % 2 == 1) ==>
          out[i] == old(out[i])
      {
        out[samples] := sum;
        samples := samples + 2;
        ntom := ntom - NTOM_MUL;
        n := n + 1;
      }
    }
  }

  lemma OutFirst(acc: nat, step: nat)
    requires acc < NTOM_MUL
    ensures Out(acc, step, 0) == 0
    ensures Out(acc, step, 0) <= Out(acc, step, 32)
  {
  }

  /** One step more. */
  lemma StepOn(acc: nat, step: nat, j: nat)
    ensures var ntom := Acc(acc, step, j) + step;
      && Out(acc, step, j + 1) == Out(acc, step, j) + ntom / NTOM_MUL
      && Acc(acc, step, j + 1) == ntom % NTOM_MUL
  {
    assert (j + 1) * step == j * step + step;
  }

  /** What a run does for each of the two channels. */
  datatype Totals = Totals(left: nat, right: nat)

  /**
   * `n` rounds from a change of the rates, each of them a call for the left channel and one for the
   * right one. The two channels get the same number of samples, which is exact at any time.
   */
  method RunStereo(c: Converter, m: int, rate: int, rounds: seq<(seq<int>, seq<int>)>, out: array<int>)
      returns (err: bool, totals: Totals)
    requires c.Valid() && out.Length >= 512
    requires forall r :: r in rounds ==> |r.0| == 32 && |r.1| == 32
    modifies c, out
    ensures err <==> Refused(m, rate)
    ensures !err ==>
      var n, step := |rounds|, c.step;
      && c.Valid() && m != 0 && step == Quotient(rate * NTOM_MUL, m)
      && totals.left == totals.right == (16384 + 32 * (n * step)) / NTOM_MUL
      && c.val0 == (16384 + 32 * (n * step)) % NTOM_MUL
  {
    hide Out, Left, Quotient;
    totals := Totals(0, 0);
    err := c.SetStep(m, rate);
    if err {
      return;
    }
    ghost var step := c.step;
    var n := 0;
    while n < |rounds|
      invariant 0 <= n <= |rounds| && c.Valid() && c.step == step
      invariant Total(totals.left, c.val0) == Run(step, n) && totals.right == totals.left
    {
      assert rounds[n] in rounds;
      AtMost256(c.val0, step, 32);
      var left := c.Synth(0, rounds[n].0, out, 0);
      var right := c.Synth(1, rounds[n].1, out, 0);
      totals := Totals(totals.left + left / 2, totals.right + right / 2);
      n := n + 1;
    }
    NoDrift(step, n);
  }
}
