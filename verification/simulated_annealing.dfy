/** Simulated annealing as written in sa.py: the two cooling functions, the
    parameter validators, `setParameters`, `initPopulation` and the one-point
    step of `runIteration`. The objective, the bound repair and numpy's `exp`
    are parameters `f`, `repair` and `exp`; random draws are supplied as values. */
module SimulatedAnnealing {
  import opened PyValues
  import opened Vectors

  /** `coolDelta`: lowers the temperature by the fixed step `deltaT`. */
  function CoolDelta(currentT: real, T: real, deltaT: real, nFES: int): (t: real)
    ensures deltaT > 0.0 ==> t < currentT
  {
    currentT - deltaT
  }

  /** `coolLinear`: lowers the temperature by `T / nFES`, so that `nFES` steps
      remove `T` in all. Python's true division fails on a zero `nFES`. */
  function CoolLinear(currentT: real, T: real, deltaT: real, nFES: int): (t: real)
    requires nFES != 0
    ensures (currentT - t) * (nFES as real) == T
    ensures T > 0.0 && nFES > 0 ==> t < currentT
  {
    currentT - T / (nFES as real)
  }

  /** `coolDelta` reads neither the initial temperature nor the budget. */
  lemma CoolDeltaIgnoresTAndBudget(currentT: real, T1: real, T2: real, deltaT: real, n1: int, n2: int)
    ensures CoolDelta(currentT, T1, deltaT, n1) == CoolDelta(currentT, T2, deltaT, n2) == currentT - deltaT
  {
  }

  /** `coolLinear` does not read `deltaT`. */
  lemma CoolLinearIgnoresDeltaT(currentT: real, T: real, d1: real, d2: real, nFES: int)
    requires nFES != 0
    ensures CoolLinear(currentT, T, d1, nFES) == CoolLinear(currentT, T, d2, nFES)
  {
  }

  /** The `coolingMethod` setting: one of the two module functions, or any
      other callable with their signature. */
  datatype Cooling =
    | CoolDeltaMethod
    | CoolLinearMethod
    | CustomCooling(fn: (real, real, real, int) -> real)

  /** The call `self.cool(curT, self.T, self.deltaT, nFES=...)` does not divide by zero. */
  predicate CoolingDefined(m: Cooling, nFES: int) {
    m.CoolLinearMethod? ==> nFES != 0
  }

  /** `self.cool(currentT, T, deltaT, nFES)` */
  function Cool(m: Cooling, currentT: real, T: real, deltaT: real, nFES: int): real
    requires CoolingDefined(m, nFES)
  {
    match m
    case CoolDeltaMethod => CoolDelta(currentT, T, deltaT, nFES)
    case CoolLinearMethod => CoolLinear(currentT, T, deltaT, nFES)
    case CustomCooling(fn) => fn(currentT, T, deltaT, nFES)
  }

  /** The settings `setParameters` stores on the instance. */
  datatype Params = Params(delta: PyValue, T: PyValue, deltaT: PyValue, cool: Cooling, epsilon: PyValue)

  /** The keyword defaults of `setParameters`. */
  const Defaults := Params(PyFloat(0.5), PyInt(2000), PyFloat(0.8), CoolDeltaMethod,
                           PyFloat(0.00000000000000000000001))

  /** `isinstance(x, float) and 0 < x < 1` */
  predicate ValidEpsilon(x: PyValue) {
    IsInstance(x, {FloatType}) && 0.0 < x.f < 1.0
  }

  /** `typeParameters()`: the validity predicate of every parameter, by name.
      The cooling method has none. */
  function TypeParameters(): (tp: map<string, PyValue -> bool>)
    ensures tp.Keys == {"delta", "T", "deltaT", "epsilon"}
  {
    map["delta" := IsPositiveNumber, "T" := IsPositiveNumber, "deltaT" := IsPositiveNumber,
        "epsilon" := ValidEpsilon]
  }

  /** Every validated setting passes the predicate `typeParameters` gives for it. */
  predicate Valid(p: Params) {
    var tp := TypeParameters();
    tp["delta"](p.delta) && tp["T"](p.T) && tp["deltaT"](p.deltaT) && tp["epsilon"](p.epsilon)
  }

  /** What each validator accepts: `delta`, `T` and `deltaT` a positive int or
      float (or `True`); `epsilon` only a float strictly between 0 and 1, so
      no int and no bool. */
  lemma TypeParametersAccept(x: PyValue)
    ensures TypeParameters()["delta"](x) <==>
              x == PyBool(true) || (x.PyInt? && x.i > 0) || (x.PyFloat? && x.f > 0.0)
    ensures TypeParameters()["T"](x) <==> TypeParameters()["delta"](x)
    ensures TypeParameters()["deltaT"](x) <==> TypeParameters()["delta"](x)
    ensures TypeParameters()["epsilon"](x) <==> x.PyFloat? && 0.0 < x.f < 1.0
  {
  }

  /** The defaults pass their own validators. */
  lemma DefaultsValid()
    ensures Valid(Defaults)
  {
  }

  /** `setParameters(delta, T, deltaT, coolingMethod, epsilon, **ukwargs)`
      applied to an instance whose settings were `self`. */
  function SetParameters(self: Params, delta: PyValue, T: PyValue, deltaT: PyValue, coolingMethod: Cooling,
                         epsilon: PyValue, ukwargs: map<string, PyValue>): Params
  {
    Params(delta, T, deltaT, coolingMethod, epsilon)
  }

  /** `setParameters` stores its arguments exactly as given, valid or not;
      the previous settings and the unused keyword arguments have no effect. */
  lemma SetParametersStoresAsGiven(self: Params, delta: PyValue, T: PyValue, deltaT: PyValue,
                                   coolingMethod: Cooling, epsilon: PyValue, ukwargs: map<string, PyValue>)
    ensures var p := SetParameters(self, delta, T, deltaT, coolingMethod, epsilon, ukwargs);
            p.delta == delta && p.T == T && p.deltaT == deltaT && p.cool == coolingMethod && p.epsilon == epsilon
    ensures SetParameters(self, delta, T, deltaT, coolingMethod, epsilon, ukwargs)
            == SetParameters(Defaults, delta, T, deltaT, coolingMethod, epsilon, map[])
  {
  }

  /** The settings the step does arithmetic with are numbers. */
  predicate Numeric(p: Params) {
    IsNumber(p.delta) && IsNumber(p.T) && IsNumber(p.deltaT)
  }

  /** The single search point, its fitness and the current temperature. */
  datatype State = State(x: Vec, xfit: real, curT: real)

  /** A state together with the points passed to `task.eval`, in call order. */
  datatype Outcome = Outcome(state: State, evals: seq<Vec>)

  /** `initPopulation(task)`: `u` is the vector `rand(D)`. */
  function InitPopulation(p: Params, lower: Vec, range: Vec, u: Vec, f: Vec -> real): (o: Outcome)
    requires IsNumber(p.T)
    requires |range| == |lower| == |u|
    ensures |o.state.x| == |lower|
    ensures o.evals == [o.state.x] && o.state.xfit == f(o.state.x)
    ensures o.state.curT == AsReal(p.T)
  {
    var x := Add(lower, Mul(range, u));
    Outcome(State(x, f(x), AsReal(p.T)), [x])
  }

  /** With draws in [0, 1) and a positive range in every dimension, the start
      point lies in `[Lower, Lower + bcRange())`. */
  lemma InitPopulationInBounds(p: Params, lower: Vec, range: Vec, u: Vec, f: Vec -> real)
    requires IsNumber(p.T)
    requires |range| == |lower| == |u|
    requires UnitDraws(u) && forall k :: 0 <= k < |range| ==> range[k] > 0.0
    ensures InBox(InitPopulation(p, lower, range, u, f).state.x, lower, range)
  {
    var x := InitPopulation(p, lower, range, u, f).state.x;
    forall k | 0 <= k < |x|
      ensures lower[k] <= x[k] < lower[k] + range[k]
    {
      assert x[k] == lower[k] + range[k] * u[k];
      assert 0.0 <= u[k] < 1.0;
    }
  }

  /** The unrepaired neighbour `x - delta / 2 + rand(D) * delta`. */
  function Proposal(x: Vec, delta: real, u: Vec): Vec
    requires |u| == |x|
  {
    Add(Shift(x, -(delta / 2.0)), Scale(u, delta))
  }

  /** With draws in [0, 1) and a positive step, every component of the
      unrepaired neighbour lies within half a step of the current point. */
  lemma ProposalWithinHalfStep(x: Vec, delta: real, u: Vec)
    requires |u| == |x| && UnitDraws(u) && delta > 0.0
    ensures forall k :: 0 <= k < |x| ==>
              x[k] - delta / 2.0 <= Proposal(x, delta, u)[k] < x[k] + delta / 2.0
  {
    forall k | 0 <= k < |x|
      ensures x[k] - delta / 2.0 <= Proposal(x, delta, u)[k] < x[k] + delta / 2.0
    {
      assert Proposal(x, delta, u)[k] == x[k] - delta / 2.0 + u[k] * delta;
      assert 0.0 <= u[k] < 1.0;
    }
  }

  /** The random values one step draws: `rand(D)` for the neighbour and the
      scalar `rand()` of the acceptance test. */
  datatype StepDraw = StepDraw(u: Vec, r: real)

  /** `runIteration`: propose, evaluate once, test `deltaFit < 0 or
      r < exp(deltaFit / curT)`, then cool whether or not the move was taken.
      Nothing guards the division `deltaFit / curT`; `or` skips it only when
      the candidate is strictly better, so otherwise the temperature must not
      be zero. */
  function RunIteration(p: Params, nFES: int, st: State, d: StepDraw,
                        f: Vec -> real, repair: Vec -> Vec, exp: real -> real): (o: Outcome)
    requires Numeric(p) && CoolingDefined(p.cool, nFES)
    requires |d.u| == |st.x|
    requires st.curT != 0.0 || f(repair(Proposal(st.x, AsReal(p.delta), d.u))) < st.xfit
    ensures |o.evals| == 1
    ensures o.evals[0] == repair(Proposal(st.x, AsReal(p.delta), d.u))
    ensures (o.state.x == st.x && o.state.xfit == st.xfit) || (o.state.x == o.evals[0] && o.state.xfit == f(o.evals[0]))
    ensures f(o.evals[0]) < st.xfit ==> o.state.x == o.evals[0] && o.state.xfit == f(o.evals[0])
    ensures o.state.curT == Cool(p.cool, st.curT, AsReal(p.T), AsReal(p.deltaT), nFES)
  {
    var c := repair(Proposal(st.x, AsReal(p.delta), d.u));
    var cfit := f(c);
    var deltaFit := cfit - st.xfit;
    var accept := deltaFit < 0.0 || d.r < exp(deltaFit / st.curT);
    var curT := Cool(p.cool, st.curT, AsReal(p.T), AsReal(p.deltaT), nFES);
    if accept then Outcome(State(c, cfit, curT), [c]) else Outcome(State(st.x, st.xfit, curT), [c])
  }

  /** The two laws of the exponential the acceptance test relies on. */
  ghost predicate ExpLaws(exp: real -> real) {
    forall y :: exp(y) > 0.0 && (y >= 0.0 ==> exp(y) >= 1.0)
  }

  /** The acceptance test in both directions: the step moves to the candidate
      exactly when it is strictly better or `r < exp(deltaFit / curT)`. */
  lemma RunIterationAcceptance(p: Params, nFES: int, st: State, d: StepDraw,
                               f: Vec -> real, repair: Vec -> Vec, exp: real -> real)
    requires Numeric(p) && CoolingDefined(p.cool, nFES)
    requires |d.u| == |st.x|
    requires st.curT != 0.0 || f(repair(Proposal(st.x, AsReal(p.delta), d.u))) < st.xfit
    ensures var o := RunIteration(p, nFES, st, d, f, repair, exp);
            var deltaFit := f(o.evals[0]) - st.xfit;
            if deltaFit < 0.0 || d.r < exp(deltaFit / st.curT)
            then o.state.x == o.evals[0] && o.state.xfit == f(o.evals[0])
            else o.state.x == st.x && o.state.xfit == st.xfit
  {
  }

  /** Because the exponent has a positive sign, a candidate that is no better
      gives `exp(deltaFit / curT) >= 1` while the temperature is positive:
      with a draw in [0, 1) every step moves to its candidate. */
  lemma WarmStepAlwaysAccepts(p: Params, nFES: int, st: State, d: StepDraw,
                              f: Vec -> real, repair: Vec -> Vec, exp: real -> real)
    requires Numeric(p) && CoolingDefined(p.cool, nFES)
    requires |d.u| == |st.x| && st.curT > 0.0
    requires ExpLaws(exp) && 0.0 <= d.r < 1.0
    ensures var o := RunIteration(p, nFES, st, d, f, repair, exp);
            o.state.x == o.evals[0] && o.state.xfit == f(o.evals[0])
  {
    var c := repair(Proposal(st.x, AsReal(p.delta), d.u));
    var deltaFit := f(c) - st.xfit;
    if deltaFit >= 0.0 {
      assert deltaFit / st.curT >= 0.0;
      assert exp(deltaFit / st.curT) >= 1.0;
    }
  }

  /** A draw of exactly 0 is below every value of `exp`, so it accepts the
      candidate whenever the step is defined, at negative temperatures too. */
  lemma ZeroDrawAccepts(p: Params, nFES: int, st: State, d: StepDraw,
                        f: Vec -> real, repair: Vec -> Vec, exp: real -> real)
    requires Numeric(p) && CoolingDefined(p.cool, nFES)
    requires |d.u| == |st.x|
    requires st.curT != 0.0 || f(repair(Proposal(st.x, AsReal(p.delta), d.u))) < st.xfit
    requires ExpLaws(exp) && d.r == 0.0
    ensures var o := RunIteration(p, nFES, st, d, f, repair, exp);
            o.state.x == o.evals[0] && o.state.xfit == f(o.evals[0])
  {
    var c := repair(Proposal(st.x, AsReal(p.delta), d.u));
    if f(c) >= st.xfit {
      assert exp((f(c) - st.xfit) / st.curT) > 0.0;
    }
  }

  /** `epsilon` is stored but the step never reads it. */
  lemma EpsilonUnused(p: Params, e: PyValue, nFES: int, st: State, d: StepDraw,
                      f: Vec -> real, repair: Vec -> Vec, exp: real -> real)
    requires Numeric(p) && CoolingDefined(p.cool, nFES)
    requires |d.u| == |st.x|
    requires st.curT != 0.0 || f(repair(Proposal(st.x, AsReal(p.delta), d.u))) < st.xfit
    ensures RunIteration(p, nFES, st, d, f, repair, exp) == RunIteration(p.(epsilon := e), nFES, st, d, f, repair, exp)
  {
  }

  /** The temperature after `k` coolings starting from `curT`. */
  function Temperature(p: Params, nFES: int, curT: real, k: nat): real
    requires IsNumber(p.T) && IsNumber(p.deltaT) && CoolingDefined(p.cool, nFES)
    decreases k
  {
    if k == 0 then curT
    else Temperature(p, nFES, Cool(p.cool, curT, AsReal(p.T), AsReal(p.deltaT), nFES), k - 1)
  }

  /** The repair keeps the dimension of the point it is given. */
  ghost predicate KeepsDimension(repair: Vec -> Vec) {
    forall y :: |repair(y)| == |y|
  }

  /** The run loop calling `runIteration` once per draw. Each step divides by
      the temperature reached so far, which must therefore not be zero. */
  function Anneal(p: Params, nFES: int, st: State, ds: seq<StepDraw>,
                  f: Vec -> real, repair: Vec -> Vec, exp: real -> real): (o: Outcome)
    requires Numeric(p) && CoolingDefined(p.cool, nFES) && KeepsDimension(repair)
    requires forall j :: 0 <= j < |ds| ==> |ds[j].u| == |st.x|
    requires forall j :: 0 <= j < |ds| ==> Temperature(p, nFES, st.curT, j) != 0.0
    ensures |o.evals| == |ds|
    ensures |o.state.x| == |st.x|
    ensures o.state.curT == Temperature(p, nFES, st.curT, |ds|)
    decreases |ds|
  {
    if ds == [] then Outcome(st, [])
    else
      assert Temperature(p, nFES, st.curT, 0) != 0.0;
      var first := RunIteration(p, nFES, st, ds[0], f, repair, exp);
      assert forall j :: 0 <= j < |ds| - 1 ==>
               Temperature(p, nFES, first.state.curT, j) == Temperature(p, nFES, st.curT, j + 1);
      var rest := Anneal(p, nFES, first.state, ds[1..], f, repair, exp);
      Outcome(rest.state, first.evals + rest.evals)
  }

  /** With `coolDelta` the temperature after `k` steps is `curT - k * deltaT`. */
  lemma {:induction false} CoolDeltaSchedule(p: Params, nFES: int, curT: real, k: nat)
    requires IsNumber(p.T) && IsNumber(p.deltaT) && p.cool.CoolDeltaMethod?
    ensures Temperature(p, nFES, curT, k) == curT - (k as real) * AsReal(p.deltaT)
    decreases k
  {
    if k > 0 {
      CoolDeltaSchedule(p, nFES, curT - AsReal(p.deltaT), k - 1);
    }
  }

  /** With `coolLinear` the temperature after `k` steps is `curT - k * T / nFES`. */
  lemma {:induction false} CoolLinearSchedule(p: Params, nFES: int, curT: real, k: nat)
    requires IsNumber(p.T) && IsNumber(p.deltaT) && p.cool.CoolLinearMethod? && nFES != 0
    ensures Temperature(p, nFES, curT, k) == curT - (k as real) * (AsReal(p.T) / (nFES as real))
    decreases k
  {
    if k > 0 {
      CoolLinearSchedule(p, nFES, curT - AsReal(p.T) / (nFES as real), k - 1);
    }
  }

  /** With `coolDelta` and a positive `deltaT` the temperature strictly
      decreases from one step to the next. */
  lemma CoolDeltaStrictlyDecreasing(p: Params, nFES: int, curT: real, k: nat)
    requires IsNumber(p.T) && IsNumber(p.deltaT) && p.cool.CoolDeltaMethod? && AsReal(p.deltaT) > 0.0
    ensures Temperature(p, nFES, curT, k + 1) < Temperature(p, nFES, curT, k)
  {
    CoolDeltaSchedule(p, nFES, curT, k);
    CoolDeltaSchedule(p, nFES, curT, k + 1);
  }

  /** `T - k * deltaT` */
  function DeltaSchedule(T: real, deltaT: real, k: nat): real {
    T - (k as real) * deltaT
  }

  /** A run started by `initPopulation` with `coolDelta` evaluates once at the
      start and once per step, and after `k` steps its temperature is
      `T - k * deltaT`. */
  lemma AnnealFromInit(p: Params, nFES: int, lower: Vec, range: Vec, u: Vec, ds: seq<StepDraw>,
                       f: Vec -> real, repair: Vec -> Vec, exp: real -> real)
    requires Numeric(p) && p.cool.CoolDeltaMethod? && KeepsDimension(repair)
    requires |range| == |lower| == |u|
    requires forall j :: 0 <= j < |ds| ==> |ds[j].u| == |lower|
    requires forall j :: 0 <= j < |ds| ==> DeltaSchedule(AsReal(p.T), AsReal(p.deltaT), j) != 0.0
    ensures var init := InitPopulation(p, lower, range, u, f);
            forall j :: 0 <= j < |ds| ==> Temperature(p, nFES, init.state.curT, j) != 0.0
    ensures var init := InitPopulation(p, lower, range, u, f);
            var o := Anneal(p, nFES, init.state, ds, f, repair, exp);
            |init.evals + o.evals| == 1 + |ds| &&
            o.state.curT == DeltaSchedule(AsReal(p.T), AsReal(p.deltaT), |ds|)
  {
    var init := InitPopulation(p, lower, range, u, f);
    forall j | 0 <= j < |ds|
      ensures Temperature(p, nFES, init.state.curT, j) != 0.0
    {
      assert DeltaSchedule(AsReal(p.T), AsReal(p.deltaT), j) != 0.0;
      CoolDeltaSchedule(p, nFES, init.state.curT, j);
    }
    CoolDeltaSchedule(p, nFES, init.state.curT, |ds|);
  }

  /** While the temperature stays positive and the draws lie in [0, 1), every
      step accepts, so a run ends on the last candidate it evaluated. */
  lemma {:induction false} WarmRunEndsAtLastCandidate(p: Params, nFES: int, st: State, ds: seq<StepDraw>,
                                                      f: Vec -> real, repair: Vec -> Vec, exp: real -> real)
    requires Numeric(p) && CoolingDefined(p.cool, nFES) && KeepsDimension(repair) && ExpLaws(exp)
    requires forall j :: 0 <= j < |ds| ==> |ds[j].u| == |st.x| && 0.0 <= ds[j].r < 1.0
    requires forall j :: 0 <= j < |ds| ==> Temperature(p, nFES, st.curT, j) > 0.0
    requires |ds| > 0
    ensures var o := Anneal(p, nFES, st, ds, f, repair, exp);
            o.state.x == o.evals[|ds| - 1] && o.state.xfit == f(o.evals[|ds| - 1])
    decreases |ds|
  {
    assert Temperature(p, nFES, st.curT, 0) > 0.0;
    var first := RunIteration(p, nFES, st, ds[0], f, repair, exp);
    WarmStepAlwaysAccepts(p, nFES, st, ds[0], f, repair, exp);
    assert forall j :: 0 <= j < |ds| - 1 ==>
             Temperature(p, nFES, first.state.curT, j) == Temperature(p, nFES, st.curT, j + 1);
    if |ds| > 1 {
      WarmRunEndsAtLastCandidate(p, nFES, first.state, ds[1..], f, repair, exp);
    }
  }
}
