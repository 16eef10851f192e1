# NiaPy: Bat algorithm and simulated annealing, modelled in Dafny

This project models two metaheuristics of NiaPy, a framework of stochastic
minimisers over a box-bounded continuous domain:

- **Bat algorithm** (`BatAlgorithm`): a population of `NP` individuals with
  positions `Sol`, fitness values, frequencies `Q`, velocities `v` and pulse
  positions `S`. Each iteration moves every individual by its velocity, or
  by a small random walk around the best point `xb`. The move is accepted
  greedily, gated by the loudness `A`.
- **Simulated annealing** (`SimulatedAnnealing`): one point `x` with fitness
  `xfit` and a temperature `curT`. Each step proposes a neighbour within
  `delta / 2` per component, evaluates it once, applies the acceptance test,
  and cools with `coolDelta` or `coolLinear`.

Files:

- `python_values.dfy`: module `PyValues`. Python's dynamic scalars (bool, int, float, anything else) and `isinstance`. In Python `bool` is a subclass of `int`.
- `vectors.dfy`: module `Vectors`. Element-wise real vector arithmetic standing in for numpy.
- `bat_algorithm.dfy`: module `BatAlgorithm`. Validators, `setParameters`, `initPopulation` and the `runIteration` loop.
- `simulated_annealing.dfy`: module `SimulatedAnnealing`. Cooling functions, validators, `setParameters`, `initPopulation`, `runIteration`, and the repeated step of a run.

Modelling choices:

- Floats are reals.
- The objective (`task.eval`), the bound repair (`task.repair`) and numpy's `exp` are function parameters `f`, `repair` and `exp`.
- `exp` is only assumed to satisfy `exp(y) > 0`, and `exp(y) >= 1` for `y >= 0` (`ExpLaws`).
- Random draws are given as values: `Draw` per bat, `StepDraw` per annealing step, and matrices or vectors for initialisation.
- Every operation returns the points it passed to `task.eval`, in call order, as `evals`. "Exactly n evaluations" is then a statement about `|evals|`.

Notes on what the code does:

- Annealing acceptance (sa.py:105). Textbook Metropolis acceptance never accepts a worse move at a temperature of zero or below, and it clamps the probability. sa.py:105 tests `r < exp(deltaFit / curT)` with a positive exponent, with no guard and no clamp. So every step accepts while `curT > 0` (`WarmStepAlwaysAccepts`). A negative temperature still runs the same test.
- Zero temperature (sa.py:105). Python's `or` skips the division when the candidate is strictly better. At `curT == 0` such a candidate is accepted and cooled normally. Any other candidate at `curT == 0` divides by zero. `RunIteration` requires `curT != 0` or a strictly better candidate, which is exactly that case split.
- `coolLinear` (sa.py:39). It divides by `task.nFES` without a guard. The model takes `nFES` as a value and requires it to be non-zero only when `coolLinear` is the cooling method.
- No validation in `setParameters`. It stores whatever it is given (`SetParametersStoresAsGiven`). Any fallback to defaults belongs to the base `Algorithm` class, which is not part of this model.

## Model

| member | source | states |
|---|---|---|
| BatAlgorithm.TypeParameters | NiaPy/algorithms/basic/ba.py:46-52 | validators exist for exactly NP, A, r, Qmin and Qmax |
| BatAlgorithm.TypeParametersAccept | NiaPy/algorithms/basic/ba.py:46-52 | NP accepts exactly positive ints (and True). A and r accept exactly positive ints or floats. Qmin and Qmax accept every int or float, negatives included, and nothing else |
| BatAlgorithm.DefaultsValid | NiaPy/algorithms/basic/ba.py:32-54 | the defaults NP=40, A=0.5, r=0.5, Qmin=0.0, Qmax=2.0 pass their own validators |
| BatAlgorithm.SetParametersStoresAsGiven | NiaPy/algorithms/basic/ba.py:54-71 | the five settings are stored exactly as given, valid or not. Neither the previous settings nor the unused keyword arguments affect the result |
| BatAlgorithm.InitPopulation | NiaPy/algorithms/basic/ba.py:88-91 | S and v are NP x D zero matrices and Q is NP zeros. Each of the NP individuals is evaluated exactly once, in index order, and Fitness[i] == f(Sol[i]) |
| BatAlgorithm.InitPopulationInBounds | NiaPy/algorithms/basic/ba.py:89 | with draws in [0,1) and a positive range, every initial individual lies in [Lower, Lower + bRange) |
| BatAlgorithm.MoveBat | NiaPy/algorithms/basic/ba.py:117-120 | one loop pass never raises the fitness. It either keeps position and fitness, or moves to the evaluated pulse position with its fitness. It preserves Fitness == f(Sol) |
| BatAlgorithm.MoveBatAcceptance | NiaPy/algorithms/basic/ba.py:117-120 | the move is taken exactly when f(S[i]) <= Fitness[i] and the loudness draw is < A. S[i] is the repaired random walk around xb when the pulse draw exceeds r, and otherwise repair(Sol[i] + old v[i]) |
| BatAlgorithm.MoveBatMotion | NiaPy/algorithms/basic/ba.py:117 | the new frequency is Qmin + (Qmax - Qmin) * u, and the new velocity is old v[i] + (Sol[i] - xb) * old Q[i] |
| BatAlgorithm.MoveBatFrequencyInRange | NiaPy/algorithms/basic/ba.py:117 | a frequency draw in [0,1] with Qmin <= Qmax gives a new Q[i] in [Qmin, Qmax] |
| BatAlgorithm.MoveBatUsesOldFrequency | NiaPy/algorithms/basic/ba.py:117 | because the tuple assignment evaluates its whole right-hand side first, the new frequency does not reach the new velocity, S[i] or the acceptance |
| BatAlgorithm.MoveBatFromRest | NiaPy/algorithms/basic/ba.py:117 | with Q[i] = 0 and v[i] = 0, as after initialisation, the velocity stays zero. Without the random walk, S[i] = repair(Sol[i]) |
| BatAlgorithm.RunIteration | NiaPy/algorithms/basic/ba.py:116-121 | exactly max(NP, 0) evaluations, one per individual in index order, each of the new S[i]. Row i is updated as one loop pass prescribes and the rows past NP are unchanged. Fitness never increases, and Fitness == f(Sol) is preserved |
| SimulatedAnnealing.CoolDelta | NiaPy/algorithms/other/sa.py:13-25 | with a positive deltaT the new temperature is strictly lower |
| SimulatedAnnealing.CoolDeltaIgnoresTAndBudget | NiaPy/algorithms/other/sa.py:13-25 | coolDelta gives currentT - deltaT whatever T and nFES are |
| SimulatedAnnealing.CoolLinear | NiaPy/algorithms/other/sa.py:27-39 | defined for nFES != 0. nFES such drops add up to exactly T, and the temperature falls when T > 0 and nFES > 0 |
| SimulatedAnnealing.CoolLinearIgnoresDeltaT | NiaPy/algorithms/other/sa.py:27-39 | coolLinear does not depend on deltaT |
| SimulatedAnnealing.TypeParameters | NiaPy/algorithms/other/sa.py:76-81 | validators exist for exactly delta, T, deltaT and epsilon |
| SimulatedAnnealing.TypeParametersAccept | NiaPy/algorithms/other/sa.py:76-81 | delta, T and deltaT accept exactly positive ints or floats (and True). epsilon accepts only floats strictly between 0 and 1, so never an int or a bool |
| SimulatedAnnealing.DefaultsValid | NiaPy/algorithms/other/sa.py:83 | the keyword defaults delta=0.5, T=2000, deltaT=0.8, epsilon=1e-23 pass their validators |
| SimulatedAnnealing.SetParametersStoresAsGiven | NiaPy/algorithms/other/sa.py:83-94 | delta, T, deltaT, the cooling method and epsilon are stored as given, unvalidated. The previous settings and the unused keyword arguments change nothing |
| SimulatedAnnealing.InitPopulation | NiaPy/algorithms/other/sa.py:96-99 | exactly one evaluation, of the start point. xfit == f(x) and curT == T |
| SimulatedAnnealing.InitPopulationInBounds | NiaPy/algorithms/other/sa.py:97 | with draws in [0,1) and a positive range, the start point lies in [Lower, Lower + bcRange()) |
| SimulatedAnnealing.ProposalWithinHalfStep | NiaPy/algorithms/other/sa.py:102 | before repair, each candidate component lies in [x - delta/2, x + delta/2) for draws in [0,1) and delta > 0 |
| SimulatedAnnealing.RunIteration | NiaPy/algorithms/other/sa.py:101-107 | defined at curT == 0 when the candidate is strictly better. Exactly one evaluation, of the repaired neighbour. The new point is either (x, xfit) or (c, f(c)), and a strictly better candidate is always taken. The temperature advances through the cooling method either way |
| SimulatedAnnealing.RunIterationAcceptance | NiaPy/algorithms/other/sa.py:104-105 | the step moves to the candidate if and only if deltaFit < 0 or r < exp(deltaFit / curT) |
| SimulatedAnnealing.WarmStepAlwaysAccepts | NiaPy/algorithms/other/sa.py:104-105 | with curT > 0 and r in [0,1), every candidate is accepted, worse ones included |
| SimulatedAnnealing.ZeroDrawAccepts | NiaPy/algorithms/other/sa.py:104-105 | a draw r == 0 accepts the candidate whenever the step is defined, at negative temperatures too |
| SimulatedAnnealing.EpsilonUnused | NiaPy/algorithms/other/sa.py:93-107 | epsilon is stored but the step's outcome does not depend on it |
| SimulatedAnnealing.Anneal | NiaPy/algorithms/other/sa.py:101-107 | k repeated steps perform exactly k evaluations, and the final temperature is the k-fold cooling of the start temperature, whatever was accepted |
| SimulatedAnnealing.CoolDeltaSchedule | NiaPy/algorithms/other/sa.py:106 | with coolDelta, after k coolings the temperature is curT - k * deltaT |
| SimulatedAnnealing.CoolLinearSchedule | NiaPy/algorithms/other/sa.py:39 | with coolLinear, after k coolings the temperature is curT - k * T / nFES |
| SimulatedAnnealing.CoolDeltaStrictlyDecreasing | NiaPy/algorithms/other/sa.py:25 | with coolDelta and deltaT > 0 the temperature strictly decreases at every step |
| SimulatedAnnealing.AnnealFromInit | NiaPy/algorithms/other/sa.py:96-107 | a run started by initPopulation with coolDelta makes 1 + k evaluations in k steps and ends at temperature T - k * deltaT |
| SimulatedAnnealing.WarmRunEndsAtLastCandidate | NiaPy/algorithms/other/sa.py:101-107 | while every temperature is positive and the draws lie in [0,1), a run ends on the last candidate it evaluated, with that candidate's fitness |

## Left out

- Random number generation (`uniform`, `rand`, `normal`, seeding). Draws are supplied as values, so nothing is said about distributions or reproducibility. Draw consumption is not modelled either. In Python the loudness `rand()` at ba.py:120 is drawn only when `Fnew <= Fitness[i]`, because `and` short-circuits, and the walk's `normal` noise only when the walk is taken. That shifts the positions of later draws in the generator's stream.
- `task.eval`, `task.repair`, `task.Lower`, `task.bRange`, `bcRange()` and `task.nFES`. The Task class is not part of this model. No bound, idempotence or budget property of repair is claimed. The annealing run (`Anneal`) only assumes that repair keeps the dimension.
- The base `Algorithm` class: its run loop, the tracking of `xb` and `fxb`, budget checks, and the fallback to defaults for invalid settings. It is not part of this model. `xb` and `fxb` are passed as values, so `RunIteration` cannot change them. Whether the base class passes `xb` as a copy or as a view of a row of `Sol` is not modelled.
- Floating point: rounding, overflow, infinities and NaN. Reals are used throughout. The default epsilon `1e-23` is the exact decimal, and Python floats are modelled as reals.
- Logging and the "Unused arguments" message. This is output only, with no effect on state. `ukwargs` is a parameter that the result provably ignores.
- numpy shape errors and index errors. Vector operations require equal lengths, and the bat loop requires the rows it touches to have the dimension of `xb`. BatAlgorithm.RunIteration requires at least `NP` rows in the arrays. With fewer rows, Python raises IndexError partway through the loop, and that case is not modelled.
- BatAlgorithm.RunIteration: requires `NP` to be an int and `A`, `r`, `Qmin`, `Qmax` to be numbers. Python would reach a non-numeric `A` only when the loudness test is evaluated.
- SimulatedAnnealing.RunIteration: requires `delta`, `T` and `deltaT` to be numbers, even when a custom cooling method would accept other values.
- SimulatedAnnealing.Anneal: every step receives the same `nFES`. So the closed forms of `CoolLinearSchedule` and `AnnealFromInit` assume that `task.nFES` is a fixed budget and not a running counter of evaluations. The Task class that defines it is not part of this model.
- SimulatedAnnealing.InitPopulation: requires `T` to be a number, although the code only copies it into `curT`.
- Convergence and solution quality are not claimed. They are stochastic, and the code does not promise them.
- NiaPy/tests/test_ts.py: it holds only skipped tests for an unimplemented Tabu Search.
