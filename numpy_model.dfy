/** The handful of Python and NumPy primitives the two nodes rely on, over exact
    real arithmetic: subscripting with negative indices, `range`, `numpy.zeros`,
    `numpy.linspace`, `numpy.amax` and elementwise (vectorised) arithmetic.
    Floating-point rounding is not modelled. */
module NumPy {

  /** `None` stands for the exception Python raises (IndexError, ValueError). */
  datatype Option<+T> = None | Some(value: T)

  /** A subscript `i` into a sequence of length `n` is legal in Python exactly
      when `-n <= i < n`; negative subscripts count from the end. */
  predicate InBounds(i: int, n: nat) {
    -(n as int) <= i < n
  }

  /** The position a legal Python subscript designates. */
  function Normalize(i: int, n: nat): (k: nat)
    requires InBounds(i, n)
    ensures k < n
    ensures k == i || k == i + n
  {
    if i < 0 then i + n else i
  }

  /** Python `s[i]`, with `None` for the IndexError raised out of range. */
  function At<T>(s: seq<T>, i: int): (r: Option<T>)
    ensures r.Some? <==> InBounds(i, |s|)
    ensures r.Some? ==> r.value == s[Normalize(i, |s|)]
  {
    if InBounds(i, |s|) then Some(s[Normalize(i, |s|)]) else None
  }

  /** `s[-1]` is the last element of a non-empty sequence and fails on an
      empty one. */
  lemma AtMinusOne<T>(s: seq<T>)
    ensures |s| == 0 ==> At(s, -1) == None
    ensures |s| > 0 ==> At(s, -1) == Some(s[|s| - 1])
  {
  }

  /** Python `range(lo, hi)`. */
  function Range(lo: int, hi: int): (r: seq<int>)
    ensures |r| == if lo < hi then hi - lo else 0
    ensures forall k :: 0 <= k < |r| ==> r[k] == lo + k
    decreases hi - lo
  {
    if hi <= lo then [] else [lo] + Range(lo + 1, hi)
  }

  /** `numpy.zeros(n)`. */
  function Zeros(n: nat): (r: seq<real>)
    ensures |r| == n
    ensures forall k :: 0 <= k < n ==> r[k] == 0.0
  {
    if n == 0 then [] else Zeros(n - 1) + [0.0]
  }

  /** Dividing and multiplying back by the same non-zero value cancels. */
  lemma DivideThenScale(a: real, b: real)
    requires b != 0.0
    ensures b * (a / b) == a
  {
  }

  /** The spacing `(hi - lo) / (n - 1)` between samples of `linspace`. */
  function Spacing(lo: real, hi: real, n: nat): real
    requires n >= 2
  {
    (hi - lo) / ((n - 1) as real)
  }

  /** `n - 1` spacings lead from `lo` to `hi`. */
  lemma SpacingSpans(lo: real, hi: real, n: nat)
    requires n >= 2
    ensures lo + ((n - 1) as real) * Spacing(lo, hi, n) == hi
  {
    DivideThenScale(hi - lo, (n - 1) as real);
  }

  /** `numpy.linspace(lo, hi, n)`: `n` evenly spaced samples
      `lo + i * Spacing(lo, hi, n)`, endpoint included. With one sample the
      result is `[lo]`; with none it is empty. */
  function LinSpace(lo: real, hi: real, n: nat): (r: seq<real>)
    ensures |r| == n
    ensures n >= 1 ==> r[0] == lo
    ensures n >= 2 ==> r[n - 1] == hi
  {
    if n == 0 then []
    else if n == 1 then [lo]
    else
      SpacingSpans(lo, hi, n);
      seq(n, i requires 0 <= i < n => lo + (i as real) * Spacing(lo, hi, n))
  }

  /** Consecutive samples of `linspace` differ by the same step,
      `(hi - lo) / (n - 1)`. */
  lemma LinSpaceStep(lo: real, hi: real, n: nat, i: nat)
    requires 2 <= n && 1 <= i < n
    ensures LinSpace(lo, hi, n)[i] - LinSpace(lo, hi, n)[i - 1] == (hi - lo) / ((n - 1) as real)
  {
    var step := Spacing(lo, hi, n);
    var r := LinSpace(lo, hi, n);
    assert r[i] == lo + (i as real) * step;
    assert r[i - 1] == lo + ((i - 1) as real) * step;
  }

  /** For `lo <= hi` a later sample is never below an earlier one. */
  lemma {:induction false} LinSpaceMonotone(lo: real, hi: real, n: nat, i: nat, j: nat)
    requires lo <= hi && 2 <= n && i <= j < n
    ensures LinSpace(lo, hi, n)[i] <= LinSpace(lo, hi, n)[j]
    decreases j - i
  {
    if i < j {
      LinSpaceMonotone(lo, hi, n, i, j - 1);
      LinSpaceStep(lo, hi, n, j);
      assert 0.0 <= (hi - lo) / ((n - 1) as real);
    }
  }

  /** When `lo <= hi` the samples never decrease and stay within `[lo, hi]`. */
  lemma LinSpaceBetween(lo: real, hi: real, n: nat, i: nat, j: nat)
    requires lo <= hi && i <= j < n
    ensures lo <= LinSpace(lo, hi, n)[i] <= LinSpace(lo, hi, n)[j] <= hi
  {
    if n >= 2 {
      LinSpaceMonotone(lo, hi, n, 0, i);
      LinSpaceMonotone(lo, hi, n, i, j);
      LinSpaceMonotone(lo, hi, n, j, n - 1);
    }
  }

  /** Elementwise application, the semantics of a vectorised NumPy expression
      such as `a - c` for a scalar `c`. */
  function Map<A, B>(f: A -> B, s: seq<A>): (r: seq<B>)
    ensures |r| == |s|
    ensures forall k :: 0 <= k < |s| ==> r[k] == f(s[k])
  {
    if s == [] then [] else [f(s[0])] + Map(f, s[1..])
  }

  /** `numpy.amax` of a non-empty sequence: an element that no element exceeds. */
  function AMax(s: seq<real>): (m: real)
    requires |s| > 0
    ensures m in s
    ensures forall k :: 0 <= k < |s| ==> s[k] <= m
  {
    if |s| == 1 then s[0]
    else
      var rest := AMax(s[1..]);
      if s[0] >= rest then s[0] else rest
  }
}
