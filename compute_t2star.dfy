/** The T2* node: its input guard, the construction of the echo-time array
    `TE_arr`, the zero-initialised output maps and the per-voxel initial guess
    handed to the curve fit. The fit itself is not part of this model. */
module ComputeT2star {
  import opened NumPy

  /** The ranges the node's spin boxes allow for the echo schedule. */
  predicate WidgetRanges(te1: real, deltaTE: real, echoes: int) {
    0.0 <= te1 <= 100.0 && 0.0 <= deltaTE <= 100.0 && 1 <= echoes <= 10
  }

  // ---------------------------------------------------------------- validate

  /** `validate` on the shape of the `mgedat` input (`None` when absent):
      1 refuses input of any rank other than 3 or 4, absent data passes. */
  function Validate(shape: Option<seq<nat>>): (code: int)
    ensures code == 0 || code == 1
    ensures code == 1 <==> shape.Some? && |shape.value| != 3 && |shape.value| != 4
  {
    match shape
    case None => 0
    case Some(dims) => if |dims| in {3, 4} then 0 else 1
  }

  /** The four extents `e, z, y, x` that `compute` unpacks from the shape. */
  datatype Extents = Extents(e: nat, z: nat, y: nat, x: nat)

  /** `e, z, y, x = data.shape`: a ValueError (`None`) unless the rank is 4. */
  function UnpackShape(shape: seq<nat>): (r: Option<Extents>)
    ensures r.Some? <==> |shape| == 4
    ensures r.Some? ==> [r.value.e, r.value.z, r.value.y, r.value.x] == shape
  {
    if |shape| == 4 then Some(Extents(shape[0], shape[1], shape[2], shape[3])) else None
  }

  /** An input accepted by `validate` gets past the unpacking exactly when it
      has rank 4; every accepted 3-D input fails there. */
  lemma AcceptedShapeUnpacks(shape: seq<nat>)
    requires Validate(Some(shape)) == 0
    ensures UnpackShape(shape).Some? <==> |shape| == 4
    ensures |shape| == 3 ==> UnpackShape(shape) == None
  {
  }

  /** The guard that matches what `compute` can handle: rank 4 only. */
  function ValidateIntended(shape: Option<seq<nat>>): (code: int)
    ensures code == 0 || code == 1
    ensures code == 1 <==> shape.Some? && |shape.value| != 4
  {
    match shape
    case None => 0
    case Some(dims) => if |dims| == 4 then 0 else 1
  }

  /** Every present input the intended guard accepts unpacks into four
      extents, and the guard refuses only what cannot be unpacked. */
  lemma IntendedValidationUnpacks(shape: seq<nat>)
    ensures ValidateIntended(Some(shape)) == 0 <==> UnpackShape(shape).Some?
  {
  }

  // ------------------------------------------------------------- output maps

  /** `np.zeros([z, y, x])`, as nested rows. */
  function ZeroMap(z: nat, y: nat, x: nat): (m: seq<seq<seq<real>>>) {
    seq(z, _ => seq(y, _ => Zeros(x)))
  }

  /** The two output maps of an unpacked input have its spatial shape
      `(z, y, x)` and hold only zeros before any fit writes to them. */
  lemma OutputMapsFollowSpatialShape(shape: seq<nat>)
    requires |shape| == 4
    ensures var ext := UnpackShape(shape).value;
      var m := ZeroMap(ext.z, ext.y, ext.x);
      |m| == shape[1] &&
      (forall k :: 0 <= k < |m| ==> |m[k]| == shape[2]) &&
      (forall k, j :: 0 <= k < |m| && 0 <= j < |m[k]| ==> |m[k][j]| == shape[3]) &&
      (forall k, j, i :: 0 <= k < |m| && 0 <= j < |m[k]| && 0 <= i < |m[k][j]| ==> m[k][j][i] == 0.0)
  {
  }

  // ---------------------------------------------------------- echo schedule

  /** How the schedule loop ends: the finished array, or the IndexError raised
      by the subscript `index`, with the array as it stood when it was raised. */
  datatype LoopResult =
    | Built(te: seq<real>)
    | IndexError(index: int, partial: seq<real>)

  /** `for i in iterable: TE_arr[i] = TE_arr[i-1] + deltaTE`, with Python
      subscripts. The right-hand side is evaluated first, so a bad `i - 1`
      raises before a bad `i` is looked at. */
  function LoopOver(te: seq<real>, iterable: seq<int>, deltaTE: real): (r: LoopResult)
    ensures r.Built? ==> |r.te| == |te|
    decreases |iterable|
  {
    if iterable == [] then Built(te)
    else
      var i := iterable[0];
      if !InBounds(i - 1, |te|) then IndexError(i - 1, te)
      else if !InBounds(i, |te|) then IndexError(i, te)
      else LoopOver(te[Normalize(i, |te|) := te[Normalize(i - 1, |te|)] + deltaTE], iterable[1..], deltaTE)
  }

  /** `TE_arr = np.zeros(echoes); TE_arr[0] = te1` followed by the loop over
      `iterable`. With no echoes the first assignment already raises. */
  function ScheduleOutcome(te1: real, deltaTE: real, echoes: nat, iterable: seq<int>): LoopResult {
    if echoes == 0 then IndexError(0, [])
    else LoopOver(Zeros(echoes)[0 := te1], iterable, deltaTE)
  }

  /** Builds `TE_arr` in an array, step by step, as the node does, iterating
      over the given sequence of indices. */
  method BuildSchedule(te1: real, deltaTE: real, echoes: nat, iterable: seq<int>) returns (r: LoopResult)
    ensures r == ScheduleOutcome(te1, deltaTE, echoes, iterable)
  {
    var teArr := new real[echoes](_ => 0.0);
    if echoes == 0 {
      return IndexError(0, []);
    }
    assert teArr[..] == Zeros(echoes);
    teArr[0] := te1;
    var k := 0;
    while k < |iterable|
      invariant 0 <= k <= |iterable|
      invariant LoopOver(teArr[..], iterable[k..], deltaTE) == ScheduleOutcome(te1, deltaTE, echoes, iterable)
    {
      var i := iterable[k];
      assert iterable[k..][1..] == iterable[k + 1..];
      if !InBounds(i - 1, echoes) {
        return IndexError(i - 1, teArr[..]);
      }
      if !InBounds(i, echoes) {
        return IndexError(i, teArr[..]);
      }
      teArr[Normalize(i, echoes)] := teArr[Normalize(i - 1, echoes)] + deltaTE;
      k := k + 1;
    }
    return Built(teArr[..]);
  }

  /** The node's iterable: the two-element tuple `(2, echoes)`. */
  function LiteralIterable(echoes: nat): seq<int> {
    [2, echoes]
  }

  /** The schedule the node evidently means: `te1 + i * deltaTE` for every
      echo `i`. */
  function IntendedSchedule(te1: real, deltaTE: real, n: nat): (r: seq<real>)
    ensures |r| == n
    ensures n >= 1 ==> r[0] == te1
  {
    seq(n, i requires 0 <= i < n => te1 + (i as real) * deltaTE)
  }

  /** Each entry of the intended schedule is its predecessor plus `deltaTE`. */
  lemma IntendedScheduleStep(te1: real, deltaTE: real, n: nat, i: nat)
    requires 1 <= i < n
    ensures IntendedSchedule(te1, deltaTE, n)[i] == IntendedSchedule(te1, deltaTE, n)[i - 1] + deltaTE
  {
    var s := IntendedSchedule(te1, deltaTE, n);
    assert s[i] == te1 + (i as real) * deltaTE;
    assert s[i - 1] == te1 + ((i - 1) as real) * deltaTE;
  }

  /** Iterating the tuple `(2, echoes)` never completes: for every echo count
      the subscript `echoes` is out of bounds and raises (for one echo through
      the read `TE_arr[1]`, otherwise through the write). When it raises,
      `TE_arr[1]` has never been written and is still 0, and `TE_arr[2]`, if it
      exists, holds `deltaTE` rather than `te1 + 2 * deltaTE`. */
  lemma LiteralLoopNeverCompletes(te1: real, deltaTE: real, echoes: nat)
    ensures var r := ScheduleOutcome(te1, deltaTE, echoes, LiteralIterable(echoes));
      r.IndexError? && r.index == echoes && |r.partial| == echoes &&
      (echoes >= 1 ==> r.partial[0] == te1) &&
      forall j :: 1 <= j < echoes ==> r.partial[j] == if j == 2 then deltaTE else 0.0
  {
    if echoes >= 1 {
      var start := Zeros(echoes)[0 := te1];
      if echoes >= 3 {
        var next := start[2 := start[1] + deltaTE];
        assert LoopOver(start, [2, echoes], deltaTE) == LoopOver(next, [echoes], deltaTE);
        assert LoopOver(next, [echoes], deltaTE) == IndexError(echoes, next);
      } else {
        assert LoopOver(start, [2, echoes], deltaTE) == IndexError(echoes, start);
      }
    }
  }

  /** For `te1 > 0` or `deltaTE > 0` the array the literal loop leaves behind
      differs from the intended schedule at its second entry. */
  lemma LiteralDiffersFromIntended(te1: real, deltaTE: real, echoes: nat)
    requires echoes >= 2 && 0.0 <= te1 && 0.0 <= deltaTE && (te1 > 0.0 || deltaTE > 0.0)
    ensures var r := ScheduleOutcome(te1, deltaTE, echoes, LiteralIterable(echoes));
      r.IndexError? && |r.partial| == echoes && r.partial[1] != IntendedSchedule(te1, deltaTE, echoes)[1]
  {
    LiteralLoopNeverCompletes(te1, deltaTE, echoes);
  }

  /** One step of the loop over a legal subscript `1 <= i < |te|`. */
  lemma LoopOverStep(te: seq<real>, iterable: seq<int>, deltaTE: real)
    requires iterable != [] && 1 <= iterable[0] < |te|
    ensures LoopOver(te, iterable, deltaTE) ==
      LoopOver(te[iterable[0] := te[iterable[0] - 1] + deltaTE], iterable[1..], deltaTE)
  {
  }

  /** The first `k` entries of `te` already agree with the intended schedule. */
  predicate FollowsSchedule(te: seq<real>, te1: real, deltaTE: real, k: nat)
    requires k <= |te|
  {
    forall j :: 0 <= j < k ==> te[j] == IntendedSchedule(te1, deltaTE, |te|)[j]
  }

  /** Writing `te[k-1] + deltaTE` at `k` extends a prefix that follows the
      schedule by one entry. */
  lemma ExtendSchedule(te: seq<real>, te1: real, deltaTE: real, k: nat)
    requires 1 <= k < |te| && FollowsSchedule(te, te1, deltaTE, k)
    ensures FollowsSchedule(te[k := te[k - 1] + deltaTE], te1, deltaTE, k + 1)
  {
    IntendedScheduleStep(te1, deltaTE, |te|, k);
  }

  /** The first pass of `range(k, n)` writes `te[k-1] + deltaTE` at `k`. */
  lemma RangeLoopStep(te: seq<real>, k: nat, deltaTE: real)
    requires 1 <= k < |te|
    ensures LoopOver(te, Range(k, |te|), deltaTE) ==
      LoopOver(te[k := te[k - 1] + deltaTE], Range(k + 1, |te|), deltaTE)
  {
    var iterable := Range(k, |te|);
    assert iterable[0] == k && iterable[1..] == Range(k + 1, |te|);
    LoopOverStep(te, iterable, deltaTE);
  }

  /** An array that follows the schedule all the way is the schedule. */
  lemma FullPrefixIsSchedule(te: seq<real>, te1: real, deltaTE: real)
    requires FollowsSchedule(te, te1, deltaTE, |te|)
    ensures te == IntendedSchedule(te1, deltaTE, |te|)
  {
  }

  /** Iterating `range(k, n)` over an array whose first `k` entries already
      follow the schedule completes it. */
  lemma {:induction false} RangeLoopCompletes(te: seq<real>, te1: real, deltaTE: real, k: nat)
    requires 1 <= k <= |te| && FollowsSchedule(te, te1, deltaTE, k)
    ensures LoopOver(te, Range(k, |te|), deltaTE) == Built(IntendedSchedule(te1, deltaTE, |te|))
    decreases |te| - k
  {
    var n := |te|;
    if k == n {
      assert Range(k, n) == [];
      assert LoopOver(te, [], deltaTE) == Built(te);
      FullPrefixIsSchedule(te, te1, deltaTE);
    } else {
      var next := te[k := te[k - 1] + deltaTE];
      RangeLoopStep(te, k, deltaTE);
      ExtendSchedule(te, te1, deltaTE, k);
      RangeLoopCompletes(next, te1, deltaTE, k + 1);
      assert LoopOver(next, Range(k + 1, |next|), deltaTE) == Built(IntendedSchedule(te1, deltaTE, n));
    }
  }

  /** Iterating `range(1, echoes)` instead builds exactly the intended schedule
      whenever there is at least one echo. */
  lemma RangeLoopBuildsIntended(te1: real, deltaTE: real, echoes: nat)
    requires echoes >= 1
    ensures ScheduleOutcome(te1, deltaTE, echoes, Range(1, echoes)) == Built(IntendedSchedule(te1, deltaTE, echoes))
  {
    var start := Zeros(echoes)[0 := te1];
    assert FollowsSchedule(start, te1, deltaTE, 1);
    RangeLoopCompletes(start, te1, deltaTE, 1);
  }

  /** The node's construction of `TE_arr`, loop over `(2, echoes)` and all. */
  method BuildScheduleAsWritten(te1: real, deltaTE: real, echoes: nat) returns (r: LoopResult)
    ensures r.IndexError? && r.index == echoes && |r.partial| == echoes
    ensures echoes >= 1 ==> r.partial[0] == te1
    ensures forall j :: 1 <= j < echoes ==> r.partial[j] == if j == 2 then deltaTE else 0.0
  {
    r := BuildSchedule(te1, deltaTE, echoes, LiteralIterable(echoes));
    LiteralLoopNeverCompletes(te1, deltaTE, echoes);
  }

  /** The construction with `range(1, echoes)`: it yields the intended schedule. */
  method BuildScheduleIntended(te1: real, deltaTE: real, echoes: nat) returns (r: LoopResult)
    ensures echoes == 0 ==> r == IndexError(0, [])
    ensures echoes >= 1 ==> r == Built(IntendedSchedule(te1, deltaTE, echoes))
  {
    r := BuildSchedule(te1, deltaTE, echoes, Range(1, echoes));
    if echoes >= 1 {
      RangeLoopBuildsIntended(te1, deltaTE, echoes);
    }
  }

  /** Two entries of the intended schedule with a non-negative step, compared:
      the later one is never smaller, and it is larger exactly when it really
      is later and the step is positive. */
  lemma {:induction false} IntendedPairOrder(te1: real, deltaTE: real, n: nat, i: nat, j: nat)
    requires 0.0 <= deltaTE && i <= j < n
    ensures IntendedSchedule(te1, deltaTE, n)[i] <= IntendedSchedule(te1, deltaTE, n)[j]
    ensures IntendedSchedule(te1, deltaTE, n)[i] < IntendedSchedule(te1, deltaTE, n)[j] <==> i < j && deltaTE > 0.0
    decreases j - i
  {
    if i < j {
      IntendedPairOrder(te1, deltaTE, n, i, j - 1);
      IntendedScheduleStep(te1, deltaTE, n, j);
    }
  }

  /** Within the widget ranges the intended schedule is non-negative and
      non-decreasing, and strictly increasing exactly when `deltaTE > 0`. */
  lemma IntendedScheduleOrder(te1: real, deltaTE: real, echoes: nat)
    requires WidgetRanges(te1, deltaTE, echoes)
    ensures forall i :: 0 <= i < echoes ==> IntendedSchedule(te1, deltaTE, echoes)[i] >= 0.0
    ensures forall i, j :: 0 <= i <= j < echoes ==>
      IntendedSchedule(te1, deltaTE, echoes)[i] <= IntendedSchedule(te1, deltaTE, echoes)[j]
    ensures echoes >= 2 ==>
      ((forall i, j :: 0 <= i < j < echoes ==>
         IntendedSchedule(te1, deltaTE, echoes)[i] < IntendedSchedule(te1, deltaTE, echoes)[j])
       <==> deltaTE > 0.0)
  {
    var s := IntendedSchedule(te1, deltaTE, echoes);
    forall i, j | 0 <= i <= j < echoes
      ensures 0.0 <= s[i] <= s[j]
      ensures s[i] < s[j] <==> i < j && deltaTE > 0.0
    {
      IntendedPairOrder(te1, deltaTE, echoes, 0, i);
      IntendedPairOrder(te1, deltaTE, echoes, i, j);
    }
    if echoes >= 2 {
      IntendedPairOrder(te1, deltaTE, echoes, 0, 1);
    }
  }

  // ----------------------------------------------------------- initial guess

  /** The starting point `(S0, T2*)` of a voxel's fit. */
  datatype Guess = Guess(s0: real, t2star: real)

  /** `x0 = np.array([np.amax(ydata), 30.0])`; `np.amax` of an empty echo
      vector raises (`None`). */
  function InitialGuess(signal: seq<real>): (g: Option<Guess>)
    ensures g.Some? <==> |signal| > 0
    ensures g.Some? ==>
      g.value.t2star == 30.0 && g.value.s0 in signal &&
      forall t :: 0 <= t < |signal| ==> signal[t] <= g.value.s0
  {
    if |signal| == 0 then None else Some(Guess(AMax(signal), 30.0))
  }
}
