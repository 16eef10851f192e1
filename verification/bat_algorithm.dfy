/** The Bat algorithm of ba.py: its parameter validators, `setParameters`,
    `initPopulation` and the per-individual loop of `runIteration`.
    The objective (`task.eval`) and the bound repair (`task.repair`) are
    parameters `f` and `repair`; random draws are supplied as values. */
module BatAlgorithm {
  import opened PyValues
  import opened Vectors

  /** The five settings `setParameters` stores on the instance. */
  datatype Params = Params(NP: PyValue, A: PyValue, r: PyValue, Qmin: PyValue, Qmax: PyValue)

  /** The class attributes, which are also the keyword defaults of `setParameters`. */
  const Defaults := Params(PyInt(40), PyFloat(0.5), PyFloat(0.5), PyFloat(0.0), PyFloat(2.0))

  /** `isinstance(x, int) and x > 0` */
  predicate ValidNP(x: PyValue) {
    IsInt(x) && AsInt(x) > 0
  }

  /** `typeParameters()`: the validity predicate of every parameter, by name. */
  function TypeParameters(): (tp: map<string, PyValue -> bool>)
    ensures tp.Keys == {"NP", "A", "r", "Qmin", "Qmax"}
  {
    map["NP" := ValidNP, "A" := IsPositiveNumber, "r" := IsPositiveNumber,
        "Qmin" := IsNumber, "Qmax" := IsNumber]
  }

  /** Every stored setting passes the predicate `typeParameters` gives for it. */
  predicate Valid(p: Params) {
    var tp := TypeParameters();
    tp["NP"](p.NP) && tp["A"](p.A) && tp["r"](p.r) && tp["Qmin"](p.Qmin) && tp["Qmax"](p.Qmax)
  }

  /** What each validator accepts, in terms of Python values: `NP` a positive
      int (or `True`, since bool is a subclass of int); `A` and `r` a positive
      int or float; `Qmin` and `Qmax` any int or float, negative ones included. */
  lemma TypeParametersAccept(x: PyValue)
    ensures TypeParameters()["NP"](x) <==> x == PyBool(true) || (x.PyInt? && x.i > 0)
    ensures TypeParameters()["A"](x) <==>
              x == PyBool(true) || (x.PyInt? && x.i > 0) || (x.PyFloat? && x.f > 0.0)
    ensures TypeParameters()["r"](x) <==> TypeParameters()["A"](x)
    ensures TypeParameters()["Qmin"](x) <==> !x.PyOther?
    ensures TypeParameters()["Qmax"](x) <==> !x.PyOther?
  {
  }

  /** The built-in defaults pass their own validators. */
  lemma DefaultsValid()
    ensures Valid(Defaults)
  {
  }

  /** `setParameters(NP, A, r, Qmin, Qmax, **ukwargs)` applied to an instance
      whose settings were `self`. */
  function SetParameters(self: Params, NP: PyValue, A: PyValue, r: PyValue, Qmin: PyValue, Qmax: PyValue,
                         ukwargs: map<string, PyValue>): Params
  {
    Params(NP, A, r, Qmin, Qmax)
  }

  /** `setParameters` stores its five arguments exactly as given, valid or not:
      the previous settings and the unused keyword arguments have no effect. */
  lemma SetParametersStoresAsGiven(self: Params, NP: PyValue, A: PyValue, r: PyValue, Qmin: PyValue,
                                   Qmax: PyValue, ukwargs: map<string, PyValue>)
    ensures var p := SetParameters(self, NP, A, r, Qmin, Qmax, ukwargs);
            p.NP == NP && p.A == A && p.r == r && p.Qmin == Qmin && p.Qmax == Qmax
    ensures SetParameters(self, NP, A, r, Qmin, Qmax, ukwargs) == SetParameters(Defaults, NP, A, r, Qmin, Qmax, map[])
  {
  }

  predicate IsMatrix(m: seq<Vec>, rows: nat, cols: nat) {
    |m| == rows && forall i :: 0 <= i < rows ==> |m[i]| == cols
  }

  /** The arrays the algorithm keeps per individual: positions `Sol`, their
      fitness, pulse positions `S`, frequencies `Q` and velocities `v`. */
  datatype Population = Population(Sol: seq<Vec>, Fitness: seq<real>, S: seq<Vec>, Q: seq<real>, v: seq<Vec>)

  /** A population together with the points passed to `task.eval`, in call order. */
  datatype Initialised = Initialised(pop: Population, evals: seq<Vec>)

  /** `initPopulation(task)`: `draws` is the NP x D matrix of `uniform(0, 1)`.
      numpy's `apply_along_axis` refuses an array with no rows, so NP must be
      positive. */
  function InitPopulation(p: Params, lower: Vec, bRange: Vec, draws: seq<Vec>, f: Vec -> real): (r: Initialised)
    requires ValidNP(p.NP)
    requires |bRange| == |lower|
    requires IsMatrix(draws, AsInt(p.NP), |lower|)
    ensures IsMatrix(r.pop.Sol, AsInt(p.NP), |lower|)
    ensures IsMatrix(r.pop.S, AsInt(p.NP), |lower|) && IsMatrix(r.pop.v, AsInt(p.NP), |lower|)
    ensures |r.pop.Fitness| == |r.pop.Q| == AsInt(p.NP)
    ensures forall i :: 0 <= i < AsInt(p.NP) ==>
              r.pop.S[i] == r.pop.v[i] == Zeros(|lower|) && r.pop.Q[i] == 0.0
    ensures r.evals == r.pop.Sol
    ensures forall i :: 0 <= i < AsInt(p.NP) ==> r.pop.Fitness[i] == f(r.pop.Sol[i])
  {
    var n := AsInt(p.NP);
    var Sol := seq(n, i requires 0 <= i < n => Add(lower, Mul(bRange, draws[i])));
    var Fitness := seq(n, i requires 0 <= i < n => f(Sol[i]));
    Initialised(Population(Sol, Fitness, seq(n, _ => Zeros(|lower|)), Zeros(n), seq(n, _ => Zeros(|lower|))), Sol)
  }

  /** With draws in [0, 1) and a positive range in every dimension, each
      initial individual lies in `[Lower, Lower + bRange)`. */
  lemma InitPopulationInBounds(p: Params, lower: Vec, bRange: Vec, draws: seq<Vec>, f: Vec -> real, i: int)
    requires ValidNP(p.NP)
    requires |bRange| == |lower|
    requires IsMatrix(draws, AsInt(p.NP), |lower|)
    requires forall k :: 0 <= k < |bRange| ==> bRange[k] > 0.0
    requires 0 <= i < AsInt(p.NP) && UnitDraws(draws[i])
    ensures InBox(InitPopulation(p, lower, bRange, draws, f).pop.Sol[i], lower, bRange)
  {
    var x := InitPopulation(p, lower, bRange, draws, f).pop.Sol[i];
    forall k | 0 <= k < |x|
      ensures lower[k] <= x[k] < lower[k] + bRange[k]
    {
      assert x[k] == lower[k] + bRange[k] * draws[i][k];
      assert 0.0 <= bRange[k] * draws[i][k] < bRange[k] by {
        assert 0.0 <= draws[i][k] < 1.0;
      }
    }
  }

  /** The state of individual `i`: its row of every array. */
  datatype Bat = Bat(sol: Vec, fit: real, s: Vec, q: real, v: Vec)

  /** The random values the loop body draws for one individual: the frequency
      draw `uniform(0, 1)`, the pulse test `rand()`, the `normal(0, 1, D)` noise
      of the random walk and the loudness test `rand()`. */
  datatype Draw = Draw(freq: real, pulse: real, noise: Vec, loud: real)

  /** One pass of the loop body for one individual. The first statement is a
      tuple assignment: its whole right-hand side is computed before anything
      is stored, so the new velocity uses the old frequency and the pulse
      position uses the old velocity. */
  function MoveBat(A: real, r: real, Qmin: real, Qmax: real, xb: Vec, f: Vec -> real, repair: Vec -> Vec,
                   b: Bat, d: Draw): (b': Bat)
    requires |b.sol| == |xb| && |b.v| == |xb| && |d.noise| == |xb|
    ensures b'.fit <= b.fit
    ensures (b'.sol == b.sol && b'.fit == b.fit) || (b'.sol == b'.s && b'.fit == f(b'.s))
    ensures b.fit == f(b.sol) ==> b'.fit == f(b'.sol)
  {
    var q, v, s0 := Qmin + (Qmax - Qmin) * d.freq, Add(b.v, Scale(Sub(b.sol, xb), b.q)), repair(Add(b.sol, b.v));
    var s := if d.pulse > r then repair(Add(xb, Scale(d.noise, 0.001))) else s0;
    var fnew := f(s);
    if fnew <= b.fit && d.loud < A then Bat(s, fnew, s, q, v) else Bat(b.sol, b.fit, s, q, v)
  }

  /** The greedy, loudness-gated acceptance: the individual moves to the
      evaluated pulse position exactly when that is no worse and the loudness
      draw is below `A`; otherwise position and fitness stay as they were. */
  lemma MoveBatAcceptance(A: real, r: real, Qmin: real, Qmax: real, xb: Vec, f: Vec -> real,
                          repair: Vec -> Vec, b: Bat, d: Draw)
    requires |b.sol| == |xb| && |b.v| == |xb| && |d.noise| == |xb|
    ensures var b' := MoveBat(A, r, Qmin, Qmax, xb, f, repair, b, d);
            if f(b'.s) <= b.fit && d.loud < A then b'.sol == b'.s && b'.fit == f(b'.s)
            else b'.sol == b.sol && b'.fit == b.fit
    ensures var b' := MoveBat(A, r, Qmin, Qmax, xb, f, repair, b, d);
            b'.s == (if d.pulse > r then repair(Add(xb, Scale(d.noise, 0.001))) else repair(Add(b.sol, b.v)))
  {
  }

  /** The frequency and velocity a loop pass stores. */
  lemma MoveBatMotion(A: real, r: real, Qmin: real, Qmax: real, xb: Vec, f: Vec -> real,
                      repair: Vec -> Vec, b: Bat, d: Draw)
    requires |b.sol| == |xb| && |b.v| == |xb| && |d.noise| == |xb|
    ensures MoveBat(A, r, Qmin, Qmax, xb, f, repair, b, d).q == Qmin + (Qmax - Qmin) * d.freq
    ensures MoveBat(A, r, Qmin, Qmax, xb, f, repair, b, d).v == Add(b.v, Scale(Sub(b.sol, xb), b.q))
  {
  }

  /** A frequency draw in [0, 1] gives a frequency in [Qmin, Qmax]. */
  lemma MoveBatFrequencyInRange(A: real, r: real, Qmin: real, Qmax: real, xb: Vec, f: Vec -> real,
                                repair: Vec -> Vec, b: Bat, d: Draw)
    requires |b.sol| == |xb| && |b.v| == |xb| && |d.noise| == |xb|
    requires Qmin <= Qmax && 0.0 <= d.freq <= 1.0
    ensures Qmin <= MoveBat(A, r, Qmin, Qmax, xb, f, repair, b, d).q <= Qmax
  {
    var w := Qmax - Qmin;
    assert 0.0 <= w * d.freq;
    assert w - w * d.freq == w * (1.0 - d.freq);
    assert 0.0 <= w * (1.0 - d.freq);
  }

  /** The new frequency does not reach the velocity or the pulse position of
      the same pass: changing the frequency draw changes only `q`. */
  lemma MoveBatUsesOldFrequency(A: real, r: real, Qmin: real, Qmax: real, xb: Vec, f: Vec -> real,
                                repair: Vec -> Vec, b: Bat, d: Draw, u: real)
    requires |b.sol| == |xb| && |b.v| == |xb| && |d.noise| == |xb|
    ensures var b1, b2 := MoveBat(A, r, Qmin, Qmax, xb, f, repair, b, d),
                          MoveBat(A, r, Qmin, Qmax, xb, f, repair, b, d.(freq := u));
            b1.v == b2.v && b1.s == b2.s && b1.sol == b2.sol && b1.fit == b2.fit
  {
  }

  /** On the first iteration `Q` and `v` are zero: the velocity stays zero and,
      unless the random walk is taken, the pulse position is the repaired
      current position itself. */
  lemma MoveBatFromRest(A: real, r: real, Qmin: real, Qmax: real, xb: Vec, f: Vec -> real,
                        repair: Vec -> Vec, b: Bat, d: Draw)
    requires |b.sol| == |xb| && |d.noise| == |xb|
    requires b.q == 0.0 && b.v == Zeros(|xb|)
    ensures MoveBat(A, r, Qmin, Qmax, xb, f, repair, b, d).v == Zeros(|xb|)
    ensures d.pulse <= r ==> MoveBat(A, r, Qmin, Qmax, xb, f, repair, b, d).s == repair(b.sol)
  {
    assert Add(b.sol, b.v) == b.sol;
    assert Add(b.v, Scale(Sub(b.sol, xb), b.q)) == Zeros(|xb|);
  }

  /** Row `j` of the five parallel arrays. */
  function BatAt(Sol: seq<Vec>, Fitness: seq<real>, S: seq<Vec>, Q: seq<real>, v: seq<Vec>, j: int): Bat
    requires 0 <= j < |Sol| == |Fitness| == |S| == |Q| == |v|
  {
    Bat(Sol[j], Fitness[j], S[j], Q[j], v[j])
  }

  /** How many times `range(NP)` runs the loop body. */
  function Iterations(NP: PyValue): nat
    requires IsInt(NP)
  {
    if AsInt(NP) > 0 then AsInt(NP) else 0
  }

  /** `runIteration`: one pass of the loop over `range(NP)`, on the arrays as
      values. `evals` lists the points passed to `task.eval`, in call order.
      `xb` and `fxb` are only read; the method has no way to change them. */
  method RunIteration(p: Params, xb: Vec, fxb: real,
                      Sol: seq<Vec>, Fitness: seq<real>, S: seq<Vec>, Q: seq<real>, v: seq<Vec>,
                      draws: seq<Draw>, f: Vec -> real, repair: Vec -> Vec)
    returns (Sol': seq<Vec>, Fitness': seq<real>, S': seq<Vec>, Q': seq<real>, v': seq<Vec>, evals: seq<Vec>)
    requires IsInt(p.NP) && IsNumber(p.A) && IsNumber(p.r) && IsNumber(p.Qmin) && IsNumber(p.Qmax)
    requires |Fitness| == |S| == |Q| == |v| == |Sol|
    requires |draws| == Iterations(p.NP) <= |Sol|
    requires forall j :: 0 <= j < |draws| ==> |Sol[j]| == |xb| && |v[j]| == |xb| && |draws[j].noise| == |xb|
    ensures |Sol'| == |Fitness'| == |S'| == |Q'| == |v'| == |Sol|
    ensures |evals| == |draws|
    ensures forall j :: 0 <= j < |draws| ==>
              evals[j] == S'[j] &&
              BatAt(Sol', Fitness', S', Q', v', j)
                == MoveBat(AsReal(p.A), AsReal(p.r), AsReal(p.Qmin), AsReal(p.Qmax), xb, f, repair,
                           BatAt(Sol, Fitness, S, Q, v, j), draws[j])
    ensures forall j :: |draws| <= j < |Sol| ==> BatAt(Sol', Fitness', S', Q', v', j) == BatAt(Sol, Fitness, S, Q, v, j)
    ensures forall j :: 0 <= j < |Sol| ==> Fitness'[j] <= Fitness[j]
    ensures forall j :: 0 <= j < |draws| ==>
              (Sol'[j] == Sol[j] && Fitness'[j] == Fitness[j]) || (Sol'[j] == evals[j] && Fitness'[j] == f(evals[j]))
    ensures (forall j :: 0 <= j < |Sol| ==> Fitness[j] == f(Sol[j])) ==>
              forall j :: 0 <= j < |Sol| ==> Fitness'[j] == f(Sol'[j])
  {
    var A, r, Qmin, Qmax := AsReal(p.A), AsReal(p.r), AsReal(p.Qmin), AsReal(p.Qmax);
    Sol', Fitness', S', Q', v' := Sol, Fitness, S, Q, v;
    evals := [];
    var i := 0;
    while i < |draws|
      invariant 0 <= i <= |draws|
      invariant |Sol'| == |Fitness'| == |S'| == |Q'| == |v'| == |Sol|
      invariant |evals| == i
      invariant forall j :: 0 <= j < i ==>
                  evals[j] == S'[j] &&
                  BatAt(Sol', Fitness', S', Q', v', j)
                    == MoveBat(A, r, Qmin, Qmax, xb, f, repair, BatAt(Sol, Fitness, S, Q, v, j), draws[j])
      invariant forall j :: i <= j < |Sol| ==> BatAt(Sol', Fitness', S', Q', v', j) == BatAt(Sol, Fitness, S, Q, v, j)
    {
      assert BatAt(Sol', Fitness', S', Q', v', i) == BatAt(Sol, Fitness, S, Q, v, i);
      assert Sol'[i] == Sol[i] && Fitness'[i] == Fitness[i] && Q'[i] == Q[i] && v'[i] == v[i];
      ghost var b' := MoveBat(A, r, Qmin, Qmax, xb, f, repair, BatAt(Sol, Fitness, S, Q, v, i), draws[i]);
      MoveBatMotion(A, r, Qmin, Qmax, xb, f, repair, BatAt(Sol, Fitness, S, Q, v, i), draws[i]);
      MoveBatAcceptance(A, r, Qmin, Qmax, xb, f, repair, BatAt(Sol, Fitness, S, Q, v, i), draws[i]);
      var q, vel, s := Qmin + (Qmax - Qmin) * draws[i].freq, Add(v'[i], Scale(Sub(Sol'[i], xb), Q'[i])), repair(Add(Sol'[i], v'[i]));
      assert q == b'.q && vel == b'.v;
      Q', v', S' := Q'[i := q], v'[i := vel], S'[i := s];
      if draws[i].pulse > r {
        S' := S'[i := repair(Add(xb, Scale(draws[i].noise, 0.001)))];
      }
      assert S'[i] == b'.s;
      var Fnew := f(S'[i]);
      evals := evals + [S'[i]];
      if Fnew <= Fitness'[i] && draws[i].loud < A {
        Sol', Fitness' := Sol'[i := S'[i]], Fitness'[i := Fnew];
      }
      assert Sol'[i] == b'.sol && Fitness'[i] == b'.fit;
      assert BatAt(Sol', Fitness', S', Q', v', i) == b';
      i := i + 1;
    }
    forall j | 0 <= j < |Sol|
      ensures Fitness'[j] <= Fitness[j]
      ensures Fitness[j] == f(Sol[j]) ==> Fitness'[j] == f(Sol'[j])
    {
      if j < |draws| {
        assert BatAt(Sol', Fitness', S', Q', v', j)
          == MoveBat(A, r, Qmin, Qmax, xb, f, repair, BatAt(Sol, Fitness, S, Q, v, j), draws[j]);
      } else {
        assert BatAt(Sol', Fitness', S', Q', v', j) == BatAt(Sol, Fitness, S, Q, v, j);
      }
    }
  }
}
