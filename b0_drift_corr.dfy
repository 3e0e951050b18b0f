/** The B0 drift-correction node: a linear f0 drift series is laid out from
    `f0_min` to `f0_max` over `Total Dynamics` samples, the sample of the
    1-based `correction dynamic` is picked with a Python subscript, and that
    scalar is subtracted from every voxel of the B0 map. The map is taken in
    row-major order as a flat sequence; the subtraction does not depend on its
    shape. */
module B0DriftCorr {
  import opened NumPy

  /** What one run of the node leaves on its output port. */
  datatype Outcome =
    | Refused                        // validate returned 1; compute does not run
    | NothingSet                     // the Compute toggle is off: B0corr is not set
    | Published(b0corr: seq<real>)   // B0corr is set to this map
    | IndexError(index: int)         // the drift series cannot be subscripted

  /** The ranges the node's spin boxes allow. */
  predicate WidgetRanges(f0Min: real, f0Max: real, totalDyns: int, corrDyn: int) {
    0.0 <= f0Min <= 100.0 && 0.0 <= f0Max <= 100.0 &&
    0 <= totalDyns <= 1000 && 0 <= corrDyn <= 1000
  }

  /** `validate`: 1 refuses the run, 0 lets compute go ahead. Only a correction
      dynamic beyond the total is refused; equality, zero dynamics and a zero
      correction dynamic all pass. */
  function Validate(totalDyns: int, corrDyn: int): (code: int)
    ensures code == 0 || code == 1
    ensures code == 1 <==> corrDyn > totalDyns
  {
    if corrDyn > totalDyns then 1 else 0
  }

  /** The drift series: `linspace(f0_min, f0_max, total_dyns)`. */
  function DriftSeries(f0Min: real, f0Max: real, totalDyns: nat): seq<real> {
    LinSpace(f0Min, f0Max, totalDyns)
  }

  /** The vectorised subtraction `b0_data - f0_drift`. */
  function Subtract(b0: seq<real>, drift: real): seq<real> {
    Map(x => x - drift, b0)
  }

  /** `compute`: nothing is set unless the toggle is on; otherwise the series
      is subscripted at `corr_dyn - 1` (so 0 means "the last one") and, if that
      succeeds, the whole map is shifted by the selected drift. */
  function Compute(b0: seq<real>, f0Min: real, f0Max: real, totalDyns: nat, corrDyn: int, computeOn: bool): (o: Outcome)
    ensures o.NothingSet? <==> !computeOn
    ensures o.IndexError? <==> computeOn && !InBounds(corrDyn - 1, totalDyns)
    ensures !o.Refused?
    ensures o.Published? ==>
      |o.b0corr| == |b0| &&
      forall k :: 0 <= k < |b0| ==>
        o.b0corr[k] == b0[k] - DriftSeries(f0Min, f0Max, totalDyns)[Normalize(corrDyn - 1, totalDyns)]
  {
    if !computeOn then NothingSet
    else
      match At(DriftSeries(f0Min, f0Max, totalDyns), corrDyn - 1)
      case None => IndexError(corrDyn - 1)
      case Some(drift) => Published(Subtract(b0, drift))
  }

  /** The node as the framework runs it: compute only after validate passes. */
  function Run(b0: seq<real>, f0Min: real, f0Max: real, totalDyns: nat, corrDyn: int, computeOn: bool): Outcome {
    if Validate(totalDyns, corrDyn) != 0 then Refused
    else Compute(b0, f0Min, f0Max, totalDyns, corrDyn, computeOn)
  }

  /** After validate passes (and with the widget's non-negative correction
      dynamic) the subscript `corr_dyn - 1` is legal exactly when there is at
      least one dynamic, and it picks position `corr_dyn - 1`, or the last
      position when `corr_dyn` is 0. */
  lemma SelectionAfterValidation(totalDyns: nat, corrDyn: int)
    requires 0 <= corrDyn && Validate(totalDyns, corrDyn) == 0
    ensures InBounds(corrDyn - 1, totalDyns) <==> totalDyns > 0
    ensures totalDyns > 0 ==>
      Normalize(corrDyn - 1, totalDyns) == if corrDyn == 0 then totalDyns - 1 else corrDyn - 1
  {
  }

  /** Every published map is the input map moved by one and the same drift,
      a sample of the drift series; the shape is unchanged. */
  lemma PublishedIsUniformShift(b0: seq<real>, f0Min: real, f0Max: real, totalDyns: nat, corrDyn: int, computeOn: bool)
    requires Run(b0, f0Min, f0Max, totalDyns, corrDyn, computeOn).Published?
    ensures var out := Run(b0, f0Min, f0Max, totalDyns, corrDyn, computeOn).b0corr;
      computeOn && 1 <= totalDyns && corrDyn <= totalDyns &&
      |out| == |b0| &&
      exists d :: d in DriftSeries(f0Min, f0Max, totalDyns) && forall k :: 0 <= k < |b0| ==> out[k] == b0[k] - d
  {
    var d := DriftSeries(f0Min, f0Max, totalDyns)[Normalize(corrDyn - 1, totalDyns)];
    assert d in DriftSeries(f0Min, f0Max, totalDyns);
  }

  /** With the toggle off nothing is ever published. */
  lemma ToggleOffPublishesNothing(b0: seq<real>, f0Min: real, f0Max: real, totalDyns: nat, corrDyn: int)
    ensures Run(b0, f0Min, f0Max, totalDyns, corrDyn, false) ==
      if corrDyn > totalDyns then Refused else NothingSet
  {
  }

  /** A correction dynamic beyond the total is refused before anything is
      computed, whatever the toggle. */
  lemma BeyondTotalIsRefused(b0: seq<real>, f0Min: real, f0Max: real, totalDyns: nat, corrDyn: int, computeOn: bool)
    requires corrDyn > totalDyns
    ensures Run(b0, f0Min, f0Max, totalDyns, corrDyn, computeOn) == Refused
  {
  }

  /** Correcting dynamic 1 subtracts `f0_min` from every voxel. */
  lemma FirstDynamicRemovesMinimum(b0: seq<real>, f0Min: real, f0Max: real, totalDyns: nat)
    requires totalDyns >= 1
    ensures Run(b0, f0Min, f0Max, totalDyns, 1, true) == Published(Subtract(b0, f0Min))
    ensures forall k :: 0 <= k < |b0| ==> Subtract(b0, f0Min)[k] == b0[k] - f0Min
  {
  }

  /** Correcting the last dynamic (accepted, since equality passes validate)
      subtracts `f0_max`, except with a single dynamic, where linspace holds
      only `f0_min`. */
  lemma LastDynamicRemovesMaximum(b0: seq<real>, f0Min: real, f0Max: real, totalDyns: nat)
    requires totalDyns >= 1
    ensures Validate(totalDyns, totalDyns) == 0
    ensures Run(b0, f0Min, f0Max, totalDyns, totalDyns, true) ==
      Published(Subtract(b0, if totalDyns == 1 then f0Min else f0Max))
  {
  }

  /** The widget default `corr_dyn = 0` is not refused: the subscript `-1`
      picks the last dynamic, so it behaves exactly like `corr_dyn = total_dyns`. */
  lemma DefaultDynamicActsAsLast(b0: seq<real>, f0Min: real, f0Max: real, totalDyns: nat, computeOn: bool)
    requires totalDyns >= 1
    ensures Validate(totalDyns, 0) == 0
    ensures Run(b0, f0Min, f0Max, totalDyns, 0, computeOn) == Run(b0, f0Min, f0Max, totalDyns, totalDyns, computeOn)
  {
  }

  /** With zero dynamics (the widget minimum) and the default correction
      dynamic, validate passes but the empty series cannot be subscripted. */
  lemma NoDynamicsCannotSelect(b0: seq<real>, f0Min: real, f0Max: real)
    ensures Validate(0, 0) == 0
    ensures Run(b0, f0Min, f0Max, 0, 0, true) == IndexError(-1)
  {
  }

  /** Under the widget ranges, a run with the toggle on fails to publish only
      by refusal or by the empty series: every accepted run with at least one
      dynamic publishes. */
  lemma AcceptedRunPublishes(b0: seq<real>, f0Min: real, f0Max: real, totalDyns: nat, corrDyn: int)
    requires WidgetRanges(f0Min, f0Max, totalDyns, corrDyn)
    ensures Run(b0, f0Min, f0Max, totalDyns, corrDyn, true).Published? <==>
      corrDyn <= totalDyns && totalDyns >= 1
    ensures Run(b0, f0Min, f0Max, totalDyns, corrDyn, true).IndexError? <==>
      totalDyns == 0 && corrDyn == 0
  {
    if corrDyn <= totalDyns {
      SelectionAfterValidation(totalDyns, corrDyn);
    }
  }

  /** Applying the correction to its own output subtracts the drift a second
      time: the correction is one-shot, not idempotent. */
  lemma {:induction false} CorrectionTwice(b0: seq<real>, drift: real)
    ensures Subtract(Subtract(b0, drift), drift) == Subtract(b0, 2.0 * drift)
    ensures drift != 0.0 && |b0| > 0 ==> Subtract(Subtract(b0, drift), drift) != Subtract(b0, drift)
  {
    var twice := Subtract(Subtract(b0, drift), drift);
    assert |twice| == |b0|;
    assert forall k :: 0 <= k < |b0| ==> twice[k] == Subtract(b0, 2.0 * drift)[k];
    if drift != 0.0 && |b0| > 0 {
      assert twice[0] != Subtract(b0, drift)[0];
    }
  }

  /** The intended guard: a 1-based correction dynamic must lie in
      `1..total_dyns`. */
  function ValidateIntended(totalDyns: int, corrDyn: int): (code: int)
    ensures code == 0 || code == 1
    ensures code == 0 <==> 1 <= corrDyn <= totalDyns
  {
    if 1 <= corrDyn <= totalDyns then 0 else 1
  }

  /** The node with the intended guard in place of `Validate`. */
  function RunIntended(b0: seq<real>, f0Min: real, f0Max: real, totalDyns: nat, corrDyn: int, computeOn: bool): Outcome {
    if ValidateIntended(totalDyns, corrDyn) != 0 then Refused
    else Compute(b0, f0Min, f0Max, totalDyns, corrDyn, computeOn)
  }

  /** Under the intended guard every accepted run with the toggle on publishes,
      and it subtracts exactly the `corr_dyn`-th (1-based) drift sample; a zero
      correction dynamic and an empty series are refused. */
  lemma IntendedSelectsDynamic(b0: seq<real>, f0Min: real, f0Max: real, totalDyns: nat, corrDyn: int)
    ensures ValidateIntended(totalDyns, corrDyn) == 0 <==> 1 <= corrDyn <= totalDyns
    ensures corrDyn == 0 || totalDyns == 0 ==> RunIntended(b0, f0Min, f0Max, totalDyns, corrDyn, true) == Refused
    ensures 1 <= corrDyn <= totalDyns ==>
      RunIntended(b0, f0Min, f0Max, totalDyns, corrDyn, true) ==
        Published(Subtract(b0, DriftSeries(f0Min, f0Max, totalDyns)[corrDyn - 1]))
  {
  }
}
