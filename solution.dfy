/** The outer coordinator (Solution.cpp): it advances the parameter W towards
    its target, running the fluid-surface solver and then the field solver at
    each W. When either fails, it rolls both back to snapshots of their last
    valid results and halves that solver's relaxation parameter.

    The two solvers are abstract components here. FluidState and FieldState
    hold only what the coordinator reads or sets through their interfaces.
    What a relaxation run returns, how the grid is regenerated, the
    interpolated field derivative and the norms of result differences are
    arbitrary functions, collected in a Components record. */
module Coordinator {
  import opened Numerics
  import opened ResultCodes
  import OptsHandler
  import Fluid
  import Grids

  /** The MagneticParams the field solver is built from. */
  datatype MagneticParams = MagneticParams(
    chi: real, accuracy: real, gridParams: Grids.STGridParams, iterationsNumMax: int, relaxParamMin: real)

  /** getFluidParams: the fluid starts at w = 0 and takes the problem's
      susceptibility, accuracy, step limit, relaxation parameters, splitting
      and sweep mode. */
  function GetFluidParams(p: OptsHandler.ProblemParams): (fp: Fluid.FluidParams)
    ensures fp.w == 0.0 && fp.chi == p.chi && fp.epsilon == p.accuracy
    ensures fp.iterationsNumMax == p.iterationsMaxNum && fp.splitsNum == p.splitsNum
    ensures fp.relaxParamInitial == p.relaxationParamInitial && fp.relaxParamMin == p.relaxationParamMin
    ensures fp.isRightSweepPedantic == p.isRightSweepPedantic
  {
    Fluid.FluidParams(
      w := 0.0, chi := p.chi, epsilon := p.accuracy, iterationsNumMax := p.iterationsMaxNum,
      relaxParamInitial := p.relaxationParamInitial, relaxParamMin := p.relaxationParamMin,
      splitsNum := p.splitsNum, isRightSweepPedantic := p.isRightSweepPedantic)
  }

  /** getFieldParams: the field solver shares the fluid's susceptibility and
      takes the field options for accuracy, step limit and relaxation. */
  function GetFieldParams(p: OptsHandler.ProblemParams): (mp: MagneticParams)
    ensures mp.chi == GetFluidParams(p).chi
    ensures mp.accuracy == p.fieldAccuracy && mp.gridParams == p.gridParams
    ensures mp.iterationsNumMax == p.fieldIterationsMaxNum && mp.relaxParamMin == p.fieldRelaxParamMin
  {
    MagneticParams(
      chi := p.chi, accuracy := p.fieldAccuracy, gridParams := p.gridParams,
      iterationsNumMax := p.fieldIterationsMaxNum, relaxParamMin := p.fieldRelaxParamMin)
  }

  /** What the coordinator sees of the fluid solver. */
  datatype FluidState = FluidState(
    pointsNum: nat, w: real, chi: real, relaxParam: real, lastValidResult: seq<Vec2>, derivatives: seq<Vec2>)

  /** What the coordinator sees of the field solver. */
  datatype FieldState = FieldState(
    chi: real, relaxParam: real, grid: seq<seq<Vec2>>, lastValidResult: seq<seq<real>>)

  /** The MagneticFluid constructor: splitsNum + 1 points, a zero profile and
      zero derivatives, the initial relaxation parameter. */
  function NewFluid(p: Fluid.FluidParams): (f: FluidState)
    requires p.splitsNum >= 0
    ensures f.pointsNum == p.splitsNum + 1 && f.w == p.w && f.chi == p.chi && f.relaxParam == p.relaxParamInitial
    ensures |f.lastValidResult| == f.pointsNum && |f.derivatives| == f.pointsNum
    ensures forall i :: 0 <= i < f.pointsNum ==> f.lastValidResult[i] == Vec2(0.0, 0.0) && f.derivatives[i] == Vec2(0.0, 0.0)
  {
    var zeros := seq(p.splitsNum + 1, _ => Vec2(0.0, 0.0));
    FluidState(p.splitsNum + 1, p.w, p.chi, p.relaxParamInitial, zeros, zeros)
  }

  /** The behaviour of the two solvers that is not part of this model.
      - fluidInitial: the profile fluid.calcInitialApproximation() computes.
      - fluidRelaxation: fluid.calcRelaxation(), as a result code and the
        profile it reached.
      - newField: the field solver's constructor.
      - gridFor: field.updateGrid(surface), the grid generated around a
        profile.
      - fieldInitial: field.calcInitialApproximation().
      - fieldRelaxation: field.calcRelaxation(), as a result code and the
        potential it reached.
      - innerDerivative: field.calcInnerDerivative(param).
      - surfaceNorm and potentialNorm: the norms of two profiles and of two
        potentials. */
  datatype Components = Components(
    lib: Libm,
    fluidInitial: FluidState -> seq<Vec2>,
    fluidRelaxation: FluidState -> (ResultCode, seq<Vec2>),
    newField: MagneticParams -> FieldState,
    gridFor: (FieldState, seq<Vec2>) -> seq<seq<Vec2>>,
    fieldInitial: FieldState -> seq<seq<real>>,
    fieldRelaxation: FieldState -> (ResultCode, seq<seq<real>>),
    innerDerivative: (FieldState, real) -> Vec2,
    surfaceNorm: (seq<Vec2>, seq<Vec2>) -> real,
    potentialNorm: (seq<seq<real>>, seq<seq<real>>) -> real)

  /** The codes the fluid solver's calcRelaxation returns. */
  predicate IsFluidCode(code: ResultCode)
  {
    code == FluidSuccess || code == FluidIterationsLimitExceeded || code == FluidInvalidResult
  }

  /** The codes the field solver's calcRelaxation returns. */
  predicate IsFieldCode(code: ResultCode)
  {
    code == FieldSuccess || code == FieldIterationsLimitExceeded || code == FieldInvalidResult
  }

  /** Each solver answers with its own result codes. */
  ghost predicate Behaves(comps: Components)
  {
    (forall s :: IsFluidCode(comps.fluidRelaxation(s).0)) &&
    (forall s :: IsFieldCode(comps.fieldRelaxation(s).0))
  }

  /** A relaxation run of the fluid: the profile is replaced only on success. */
  function RunFluid(comps: Components, fluid: FluidState): (f: FluidState)
    ensures f.w == fluid.w && f.chi == fluid.chi && f.relaxParam == fluid.relaxParam
    ensures f.derivatives == fluid.derivatives && f.pointsNum == fluid.pointsNum
  {
    var (code, surface) := comps.fluidRelaxation(fluid);
    if code == FluidSuccess then fluid.(lastValidResult := surface) else fluid
  }

  /** A relaxation run of the field: the potential is replaced only on
      success. */
  function RunField(comps: Components, field: FieldState): (f: FieldState)
    ensures f.chi == field.chi && f.relaxParam == field.relaxParam && f.grid == field.grid
  {
    var (code, potential) := comps.fieldRelaxation(field);
    if code == FieldSuccess then field.(lastValidResult := potential) else field
  }

  /** calcDerivatives: the inner derivative of the field at pointsNum
      parameters spread evenly over [0, 1]. */
  function Derivatives(comps: Components, field: FieldState, pointsNum: nat): seq<Vec2>
  {
    seq(pointsNum, i => comps.innerDerivative(field, Div(comps.lib, i as real, (pointsNum - 1) as real)))
  }

  /** The first derivative is taken at parameter 0 and the last at parameter
      1, as soon as there are two points. */
  lemma DerivativesSpanSurface(comps: Components, field: FieldState, pointsNum: nat)
    requires pointsNum >= 2
    ensures var d := Derivatives(comps, field, pointsNum);
      |d| == pointsNum &&
      d[0] == comps.innerDerivative(field, 0.0) &&
      d[pointsNum - 1] == comps.innerDerivative(field, 1.0)
  {
    var m := (pointsNum - 1) as real;
    assert m != 0.0;
    assert Div(comps.lib, 0 as real, m) == 0.0;
    assert Div(comps.lib, m, m) == 1.0;
  }

  /** The tolerance within which W counts as the target. */
  const TargetTolerance: real := 0.00001

  /** calcResult's target test on the W just reached. */
  predicate IsTargetReached(w: real, wTarget: real): (reached: bool)
    ensures reached <==> w >= wTarget - TargetTolerance
  {
    w >= wTarget || Abs(w - wTarget) <= TargetTolerance
  }

  /** With resultsNum >= 2 and a positive target, the W schedule k * stepW
      stays below the target for k < resultsNum - 1, so the target test holds
      there only within the tolerance, and it holds from k = resultsNum - 1
      on. */
  lemma WSchedule(wTarget: real, resultsNum: int, stepW: real, k: nat)
    requires resultsNum >= 2 && wTarget > 0.0 && stepW * (resultsNum - 1) as real == wTarget
    ensures k < resultsNum - 1 ==> k as real * stepW < wTarget
    ensures IsTargetReached(k as real * stepW, wTarget) <==>
      k >= resultsNum - 1 || wTarget - k as real * stepW <= TargetTolerance
  {
    var m := (resultsNum - 1) as real;
    assert stepW > 0.0 by {
      ProductPositive(stepW, m);
    }
    if k < resultsNum - 1 {
      assert (m - k as real) * stepW > 0.0;
    } else {
      assert (k as real - m) * stepW >= 0.0;
    }
  }

  lemma ProductPositive(x: real, m: real)
    requires m > 0.0 && x * m > 0.0
    ensures x > 0.0
  {
    assert x == (x * m) / m;
  }

  class Solution {
    const comps: Components
    var params: OptsHandler.ProblemParams
    var fluid: FluidState
    var field: FieldState
    var lastValidFluidSurface: seq<Vec2>
    var lastValidFieldGrid: seq<seq<Vec2>>
    var lastValidFieldPotential: seq<seq<real>>
    var curW: real
    const stepW: real

    /** The solvers hold exactly the results the three snapshots record. */
    predicate Consistent()
      reads this
    {
      fluid.lastValidResult == lastValidFluidSurface &&
      field.grid == lastValidFieldGrid &&
      field.lastValidResult == lastValidFieldPotential
    }

    /** Solution(params): the two solvers built from their parameters. W
        starts at the target when a single result is asked for, and otherwise
        at 0 with resultsNum - 1 equal steps up to the target. The snapshots
        are only sized here: their contents are left open until
        calcInitials. */
    constructor(params: OptsHandler.ProblemParams, comps: Components)
      requires params.splitsNum >= 1
      ensures this.params == params && this.comps == comps
      ensures fluid == NewFluid(GetFluidParams(params)) && field == comps.newField(GetFieldParams(params))
      ensures params.resultsNum == 1 ==> stepW == params.wTarget && curW == params.wTarget
      ensures params.resultsNum != 1 ==> stepW * (params.resultsNum - 1) as real == params.wTarget && curW == 0.0
    {
      this.params := params;
      this.comps := comps;
      fluid := NewFluid(GetFluidParams(params));
      field := comps.newField(GetFieldParams(params));
      if params.resultsNum == 1 {
        stepW := params.wTarget;
        curW := params.wTarget;
      } else {
        stepW := params.wTarget / (params.resultsNum - 1) as real;
        curW := 0.0;
      }
    }

    /** setChi: chi changes in the parameters and in both solvers, and
        nothing else changes. */
    method SetChi(chi: real)
      modifies this`params, this`fluid, this`field
      ensures params == old(params).(chi := chi)
      ensures fluid == old(fluid).(chi := chi) && field == old(field).(chi := chi)
      ensures old(Consistent()) ==> Consistent()
    {
      params := params.(chi := chi);
      fluid := fluid.(chi := chi);
      field := field.(chi := chi);
    }

    /** updateLastValidResults: the snapshots taken from the two solvers. */
    method UpdateLastValidResults()
      modifies this`lastValidFluidSurface, this`lastValidFieldGrid, this`lastValidFieldPotential
      ensures Consistent()
      ensures lastValidFluidSurface == fluid.lastValidResult && lastValidFieldGrid == field.grid
      ensures lastValidFieldPotential == field.lastValidResult
    {
      lastValidFluidSurface := fluid.lastValidResult;
      lastValidFieldGrid := field.grid;
      lastValidFieldPotential := field.lastValidResult;
    }

    /** calcDerivatives: the field's inner derivative at the parameters
        i / (pointsNum - 1), one per fluid point. */
    method CalcDerivatives() returns (derivatives: seq<Vec2>)
      ensures derivatives == Derivatives(comps, field, fluid.pointsNum)
      ensures fluid.pointsNum >= 2 ==>
        derivatives[0] == comps.innerDerivative(field, 0.0) &&
        derivatives[fluid.pointsNum - 1] == comps.innerDerivative(field, 1.0)
    {
      var pointsNum: int := fluid.pointsNum;
      var limit := pointsNum - 1;
      var d := new Vec2[pointsNum];
      var i := 0;
      while i < pointsNum
        invariant 0 <= i <= pointsNum
        invariant forall k :: 0 <= k < i ==> d[k] == comps.innerDerivative(field, Div(comps.lib, k as real, limit as real))
      {
        var param := Div(comps.lib, i as real, limit as real);
        d[i] := comps.innerDerivative(field, param);
        i := i + 1;
      }
      derivatives := d[..];
      if pointsNum >= 2 {
        DerivativesSpanSurface(comps, field, pointsNum);
      }
    }

    /** calcInitials: both relaxation parameters back to 1, the fluid at the
        current W and its initial profile, the field on the grid of that
        profile with its initial potential relaxed once (whatever the
        outcome), the fluid's derivatives from that field, and finally all
        three snapshots refreshed. */
    method CalcInitials()
      modifies this`fluid, this`field, this`lastValidFluidSurface, this`lastValidFieldGrid, this`lastValidFieldPotential
      ensures Consistent()
      ensures fluid.relaxParam == 1.0 && field.relaxParam == 1.0 && fluid.w == curW
      ensures fluid.chi == old(fluid.chi) && field.chi == old(field.chi) && fluid.pointsNum == old(fluid.pointsNum)
      ensures var f0 := old(fluid).(relaxParam := 1.0, w := curW);
        var surface := comps.fluidInitial(f0);
        var g0 := old(field).(relaxParam := 1.0, grid := comps.gridFor(old(field).(relaxParam := 1.0), surface));
        fluid.lastValidResult == surface &&
        field == RunField(comps, g0.(lastValidResult := comps.fieldInitial(g0))) &&
        fluid.derivatives == Derivatives(comps, field, fluid.pointsNum)
    {
      fluid := fluid.(relaxParam := 1.0);
      field := field.(relaxParam := 1.0);
      fluid := fluid.(w := curW);
      fluid := fluid.(lastValidResult := comps.fluidInitial(fluid));
      field := field.(grid := comps.gridFor(field, fluid.lastValidResult));
      field := field.(lastValidResult := comps.fieldInitial(field));
      field := RunField(comps, field);
      var derivatives := CalcDerivatives();
      fluid := fluid.(derivatives := derivatives);
      UpdateLastValidResults();
    }

    /** isAccuracyReached: both new results are within their accuracy of the
        snapshots. */
    predicate IsAccuracyReached(): (reached: bool)
      reads this
      ensures reached ==> comps.surfaceNorm(fluid.lastValidResult, lastValidFluidSurface) <= params.accuracy
      ensures reached ==> comps.potentialNorm(field.lastValidResult, lastValidFieldPotential) <= params.fieldAccuracy
      ensures !reached ==>
        comps.surfaceNorm(fluid.lastValidResult, lastValidFluidSurface) > params.accuracy ||
        comps.potentialNorm(field.lastValidResult, lastValidFieldPotential) > params.fieldAccuracy
    {
      comps.surfaceNorm(fluid.lastValidResult, lastValidFluidSurface) <= params.accuracy &&
      comps.potentialNorm(field.lastValidResult, lastValidFieldPotential) <= params.fieldAccuracy
    }

    /** The rollback after a failed relaxation: the profile, the potential
        and the grid go back to the snapshots. */
    method Rollback()
      modifies this`fluid, this`field
      ensures Consistent()
      ensures fluid == old(fluid).(lastValidResult := lastValidFluidSurface)
      ensures field == old(field).(grid := lastValidFieldGrid, lastValidResult := lastValidFieldPotential)
    {
      fluid := fluid.(lastValidResult := lastValidFluidSurface);
      field := field.(lastValidResult := lastValidFieldPotential);
      field := field.(grid := lastValidFieldGrid);
    }

    /** One pass of calcResult's loop. The fluid relaxes; on success the field
        relaxes on the grid of the new profile. When both succeed, the code
        says whether both results are within their accuracy of the snapshots
        taken before the pass, and then the snapshots and the derivatives are
        refreshed. When either fails, the profile, the grid and the potential
        go back to the snapshots and only the failing solver's relaxation
        parameter is halved. In every case the solvers end consistent with
        the snapshots. */
    method Pass() returns (code: ResultCode)
      requires Behaves(comps)
      modifies this`fluid, this`field, this`lastValidFluidSurface, this`lastValidFieldGrid, this`lastValidFieldPotential
      ensures Consistent()
      ensures code == Success || code == AccuracyNotReached || IsFluidCode(code) || IsFieldCode(code)
      ensures var fluidRun := comps.fluidRelaxation(old(fluid));
        fluidRun.0 != FluidSuccess ==>
          code == fluidRun.0 &&
          fluid == old(fluid).(lastValidResult := old(lastValidFluidSurface), relaxParam := 0.5 * old(fluid.relaxParam)) &&
          field == old(field).(grid := old(lastValidFieldGrid), lastValidResult := old(lastValidFieldPotential)) &&
          lastValidFluidSurface == old(lastValidFluidSurface) && lastValidFieldGrid == old(lastValidFieldGrid) &&
          lastValidFieldPotential == old(lastValidFieldPotential)
      ensures var fluidRun := comps.fluidRelaxation(old(fluid));
        var grid := comps.gridFor(old(field), fluidRun.1);
        var fieldRun := comps.fieldRelaxation(old(field).(grid := grid));
        fluidRun.0 == FluidSuccess && fieldRun.0 != FieldSuccess ==>
          code == fieldRun.0 &&
          fluid == old(fluid).(lastValidResult := old(lastValidFluidSurface)) &&
          field == old(field).(grid := old(lastValidFieldGrid), lastValidResult := old(lastValidFieldPotential),
                               relaxParam := 0.5 * old(field.relaxParam)) &&
          lastValidFluidSurface == old(lastValidFluidSurface) && lastValidFieldGrid == old(lastValidFieldGrid) &&
          lastValidFieldPotential == old(lastValidFieldPotential)
      ensures var fluidRun := comps.fluidRelaxation(old(fluid));
        var grid := comps.gridFor(old(field), fluidRun.1);
        var fieldRun := comps.fieldRelaxation(old(field).(grid := grid));
        fluidRun.0 == FluidSuccess && fieldRun.0 == FieldSuccess ==>
          (code == Success || code == AccuracyNotReached) &&
          (code == Success <==>
             comps.surfaceNorm(fluidRun.1, old(lastValidFluidSurface)) <= params.accuracy &&
             comps.potentialNorm(fieldRun.1, old(lastValidFieldPotential)) <= params.fieldAccuracy) &&
          field == old(field).(grid := grid, lastValidResult := fieldRun.1) &&
          fluid == old(fluid).(lastValidResult := fluidRun.1, derivatives := Derivatives(comps, field, fluid.pointsNum)) &&
          lastValidFluidSurface == fluidRun.1 && lastValidFieldGrid == grid && lastValidFieldPotential == fieldRun.1
    {
      var fluidRun := comps.fluidRelaxation(fluid);
      code := fluidRun.0;
      fluid := RunFluid(comps, fluid);
      if code == FluidSuccess {
        field := field.(grid := comps.gridFor(field, fluid.lastValidResult));
        code := comps.fieldRelaxation(field).0;
        field := RunField(comps, field);
        if code == FieldSuccess {
          if IsAccuracyReached() {
            code := Success;
          } else {
            code := AccuracyNotReached;
          }
          UpdateLastValidResults();
          var derivatives := CalcDerivatives();
          fluid := fluid.(derivatives := derivatives);
        } else {
          Rollback();
          field := field.(relaxParam := 0.5 * field.relaxParam);
        }
      } else {
        Rollback();
        fluid := fluid.(relaxParam := 0.5 * fluid.relaxParam);
      }
    }

    /** calcResult(w) with at most `fuel` passes. The fluid is set to w and
        passes run until one succeeds or a relaxation parameter is below its
        minimum. On success W becomes w, and the code is TargetReached exactly
        when w has reached the target. Otherwise W stays and the fluid goes
        back to it. */
    method CalcResult(w: real, fuel: nat) returns (code: ResultCode, passes: nat)
      requires Behaves(comps)
      modifies this`fluid, this`field, this`lastValidFluidSurface, this`lastValidFieldGrid, this`lastValidFieldPotential
      modifies this`curW
      ensures passes <= fuel && fluid.pointsNum == old(fluid.pointsNum)
      ensures passes == 0 <==>
        fuel == 0 || old(fluid.relaxParam) < params.relaxationParamMin || old(field.relaxParam) < params.fieldRelaxParamMin
      ensures passes == 0 ==> code == InvalidResult
      ensures passes >= 1 || old(Consistent()) ==> Consistent()
      ensures code == Success || code == TargetReached ==>
        curW == w && fluid.w == w && (code == TargetReached <==> IsTargetReached(w, params.wTarget))
      ensures code != Success && code != TargetReached ==> curW == old(curW) && fluid.w == old(curW)
      ensures passes < fuel && code != Success && code != TargetReached ==>
        fluid.relaxParam < params.relaxationParamMin || field.relaxParam < params.fieldRelaxParamMin
    {
      code := InvalidResult;
      passes := 0;
      fluid := fluid.(w := w);
      while code != Success && fluid.relaxParam >= params.relaxationParamMin &&
            field.relaxParam >= params.fieldRelaxParamMin && passes < fuel
        invariant passes <= fuel && fluid.w == w && curW == old(curW) && fluid.pointsNum == old(fluid.pointsNum)
        invariant passes == 0 ==>
          code == InvalidResult && fluid.relaxParam == old(fluid.relaxParam) && field.relaxParam == old(field.relaxParam)
        invariant passes >= 1 || old(Consistent()) ==> Consistent()
        invariant passes >= 1 ==>
          old(fluid.relaxParam) >= params.relaxationParamMin && old(field.relaxParam) >= params.fieldRelaxParamMin
        invariant code == Success || code == AccuracyNotReached || code == InvalidResult ||
          IsFluidCode(code) || IsFieldCode(code)
        decreases fuel - passes
      {
        code := Pass();
        passes := passes + 1;
      }
      if code == Success {
        curW := w;
        if IsTargetReached(curW, params.wTarget) {
          code := TargetReached;
        }
      } else {
        fluid := fluid.(w := curW);
      }
    }

    /** calcNextResult: calcResult at the next W of the schedule. */
    method CalcNextResult(fuel: nat) returns (code: ResultCode, passes: nat)
      requires Behaves(comps)
      modifies this`fluid, this`field, this`lastValidFluidSurface, this`lastValidFieldGrid, this`lastValidFieldPotential
      modifies this`curW
      ensures passes <= fuel
      ensures passes >= 1 || old(Consistent()) ==> Consistent()
      ensures code == Success || code == TargetReached ==>
        curW == old(curW) + stepW && (code == TargetReached <==> IsTargetReached(curW, params.wTarget))
      ensures code != Success && code != TargetReached ==> curW == old(curW) && fluid.w == old(curW)
    {
      var nextW := curW + stepW;
      code, passes := CalcResult(nextW, fuel);
    }
  }
}
