# GPy constrained-parameter transformations in Dafny

GPy keeps every constrained model parameter in an unconstrained form that the
optimizer moves freely, and maps it onto its constrained value through a
*transformation* (`GPy/core/transformations.py`). Each transformation has a
forward map `f`, an inverse `finv`, a gradient factor `gradfactor(f)` (the
slope `df/dx` written as a function of the constrained value `f`), a repair
`initialize` for user-supplied starting values, a domain tag and a label.
The variants are `Logexp` (softplus), `Negative_logexp`, `LogexpClipped`,
`Exponent`, `NegativeExponent` and `Square`, and `Logistic` onto an interval
`[lower, upper]`.

This project models that family on Dafny `real`s. numpy's `exp`, `log` and
`sqrt` and the threshold `lim_val` are not defined: they are fields of a
`Numerics.Host` record, and every proof that needs them assumes only the
axioms in `Host.Valid()`:

- `exp(x) > 0`, `exp` strictly increasing, `exp(0) == 1`;
- `log(exp(x)) == x`, and `exp(log(y)) == y` for `y > 0`;
- `exp(a) * exp(b) == 1` when `a + b == 0`;
- `sqrt(y) >= 0` and `sqrt(y) * sqrt(y) == y` for `y >= 0`;
- `lim_val > 0`.

`Numerics.ExpLogAxiomsSatisfiable` exhibits a host (the piecewise-rational
`1 + x` / `1 / (1 - x)` and its inverse) that meets all the exp/log axioms, so
they are not contradictory.

Layout: one module per class (`Logexp`, `NegativeLogexp`, `LogexpClipped`,
`Exponent`, `NegativeExponent`, `Square`, `Logistic`), each with `F`, `Finv`,
`Gradfactor` and `Initialize`, the domain tag `DomainTag` and the label `Str`;
`Domains` for the three domain tags; `Arrays` for numpy's elementwise
application and `any` over arrays modelled as `seq<real>`, and the shared
absolute-value repair; `Python` for exceptions and class-level method calls;
and `Transformations`, which dispatches the operations on a chosen variant
and states the properties common to all of them. `f`, `finv` and `gradfactor`
are elementwise in the source and are modelled on one entry; `initialize`
looks at the whole array (its warning depends on `np.any`) and is modelled on
`seq<real>`. The printed warning becomes the `warned` flag of the returned
`Arrays.Repaired`. The source is Python 2 code (its warnings are `print` statements),
and the model follows Python 2's rules for calling a method through its
class.

Each forward map is paired with its inverse (`FinvF`, `FFinv`: round trips,
with the exact set of inputs on which they hold) and with an independent
slope (`GradfactorMatchesSlope`: `gradfactor(f(x))` against the derivative of
`f` written in terms of `exp`), and each repair with the domain it must reach
and the rule "warn exactly when something changes" (`InitializeRepairs`).
Some facts these proofs bring out:

- On the band `x <= lim_val < Logexp.f(x)`, which always contains `lim_val`
  itself, `f(x)` already lies above the threshold, so `finv` returns it
  unchanged and `gradfactor` returns 1 while the slope is the sigmoid, below 1.
- `NegativeExponent.gradfactor` returns `f` unnegated, and that is the slope of
  `-exp(x)`: the sign is carried by `f` itself.
- Where a clip holds `f` flat (`Exponent` and `NegativeExponent` beyond
  `±lim_val`, `LogexpClipped` under its exponent clip), the gradient factor
  is not the zero slope: it is the saturation value, or lies in (0, 1).
- `Square.gradfactor(f(x))` is `2 * |x|`, the slope `2 * x` only for `x >= 0`;
  `Square.initialize` changes negative entries without warning.

In three places the code does not do what its own structure evidently
intends; each is recorded under "## Findings" with a member modelling the code
as written and a corrected one: the negative variants' delegation raises
`TypeError`, their repaired values are right but their warning is inverted,
and `LogexpClipped.finv` is not the softplus inverse. `Transformations`
dispatches to the corrected members.

## Model

| member | source | states |
|---|---|---|
| Python.CallThroughClass | GPy/core/transformations.py:47 | in Python 2, an unbound method called through its class succeeds exactly when its first argument is an instance of the class and the arguments fill every declared parameter, and raises TypeError otherwise |
| Arrays.Any | GPy/core/transformations.py:38 | `np.any` of an elementwise test holds exactly when some entry passes it |
| Arrays.AbsRepair | GPy/core/transformations.py:37-40 | the repair returns the elementwise absolute value: every entry non-negative, non-negative entries kept, negative ones negated; it warns exactly when some entry is negative |
| Arrays.AbsRepairWarnsIffChanged | GPy/core/transformations.py:37-40 | the absolute-value repair warns exactly when its result differs from its input |
| Arrays.AbsRepairIdentityOnDomain | GPy/core/transformations.py:37-40 | an array returns unchanged and without warning exactly when all its entries are non-negative |
| Arrays.NegatedAbsRepair | GPy/core/transformations.py:52-53 | the repair for a negative domain: every entry non-positive, non-positive entries kept, positive ones negated, warning exactly when some entry is positive |
| Arrays.NegatedAbsRepairWarnsIffChanged | GPy/core/transformations.py:52-53 | the negative repair warns exactly when its result differs from its input |
| Logexp.F | GPy/core/transformations.py:31-32 | above `lim_val` the forward map returns its argument unchanged |
| Logexp.Finv | GPy/core/transformations.py:33-34 | above `lim_val` the inverse returns its argument unchanged |
| Logexp.Gradfactor | GPy/core/transformations.py:35-36 | above `lim_val` the gradient factor is exactly 1 |
| Logexp.Initialize | GPy/core/transformations.py:37-40 | initialize returns the elementwise absolute value, all entries non-negative, and warns exactly when some entry is negative |
| Logexp.SoftplusBranch | GPy/core/transformations.py:32 | below the threshold, `log(1 + exp(x))` is positive, exceeds `x`, and its exp is `1 + exp(x)` |
| Logexp.FPositive | GPy/core/transformations.py:31-32 | every value of f is positive, as the POSITIVE domain requires |
| Logexp.FinvF | GPy/core/transformations.py:31-34 | `finv(f(x)) == x` holds exactly when `x > lim_val` or `f(x) <= lim_val` |
| Logexp.FFinv | GPy/core/transformations.py:31-34 | `f(finv(y)) == y` for every positive `y` |
| Logexp.GradfactorMatchesSlope | GPy/core/transformations.py:31-36 | `gradfactor(f(x))` equals the slope of f at `x` (1 above `lim_val`, the sigmoid `exp(x) / (1 + exp(x))` below) exactly when `x > lim_val` or `f(x) <= lim_val`; on the band `x <= lim_val < f(x)` it is 1, above the sigmoid |
| Logexp.ThresholdInBand | GPy/core/transformations.py:31-36 | at `x = lim_val`, `f(x)` exceeds `lim_val`, so there `finv(f(x)) != x` and `gradfactor(f(x))` is not the slope |
| Logexp.GradfactorIsScale | GPy/core/transformations.py:35-36 | on positive values the gradient factor lies in (0, 1] |
| NegativeLogexp.FAsWritten | GPy/core/transformations.py:46-47 | `-Logexp.f(x)` as written raises TypeError for every input |
| NegativeLogexp.FinvAsWritten | GPy/core/transformations.py:48-49 | `Logexp.finv(-f)` as written raises TypeError for every input |
| NegativeLogexp.GradfactorAsWritten | GPy/core/transformations.py:50-51 | `-Logexp.gradfactor(-f)` as written raises TypeError for every input |
| NegativeLogexp.InitializeAsWritten | GPy/core/transformations.py:52-53 | `-Logexp.initialize(f)` as written raises TypeError for every input |
| NegativeLogexp.InitializeReflected | GPy/core/transformations.py:52-53 | with the call repaired, initialize returns `-abs(f)` but warns exactly when some entry is negative |
| NegativeLogexp.InitializeReflectedWarnsBackwards | GPy/core/transformations.py:52-53 | that repair warns on `[-1.0]`, which it leaves unchanged, and is silent on `[1.0]`, which it changes to `[-1.0]` |
| NegativeLogexp.F | GPy/core/transformations.py:46-47 | every value of the reflected f is negative, and above `lim_val` it is `-x` |
| NegativeLogexp.Finv | GPy/core/transformations.py:48-49 | f sends the reflected inverse of every negative `y` back to `y`; below `-lim_val` the inverse is `-y` |
| NegativeLogexp.Gradfactor | GPy/core/transformations.py:50-51 | on negative values the reflected factor lies in [-1, 0), and it is exactly -1 below `-lim_val` |
| NegativeLogexp.Initialize | GPy/core/transformations.py:52-53 | initialize returns minus `Logexp`'s repaired values and warns exactly when some entry is positive |
| NegativeLogexp.FinvF | GPy/core/transformations.py:46-49 | `finv(f(x)) == x` exactly when `x > lim_val` or `Logexp.f(x) <= lim_val` |
| NegativeLogexp.FFinv | GPy/core/transformations.py:46-49 | `f(finv(y)) == y` for every negative `y` |
| NegativeLogexp.GradfactorMatchesSlope | GPy/core/transformations.py:46-51 | `gradfactor(f(x))` equals the slope of `-softplus` at `x` exactly when `x > lim_val` or `Logexp.f(x) <= lim_val`; on the band between, it is -1, below minus the sigmoid |
| NegativeLogexp.InitializeWarnsIffChanged | GPy/core/transformations.py:52-53 | the repaired entries are all non-positive, and the warning is raised exactly when the array changes |
| LogexpClipped.F | GPy/core/transformations.py:58-70 | whatever the input, f lies in `[min_bound, max_bound] = [1e-10, 1e100]` |
| LogexpClipped.FinvAsWritten | GPy/core/transformations.py:71-72 | under `log(exp(y)) == y` the inverse as written reduces to `f - 1` |
| LogexpClipped.FinvAsWrittenMissesRoundTrip | GPy/core/transformations.py:65-72 | the inverse as written fails the round trip for every `x <= -1` |
| LogexpClipped.Finv | GPy/core/transformations.py:71-72 | the corrected inverse `log(exp(y) - 1)`: softplus of it is `y` again for every positive `y` |
| LogexpClipped.FinvF | GPy/core/transformations.py:65-72 | wherever neither clip is active, the corrected inverse undoes f |
| LogexpClipped.Gradfactor | GPy/core/transformations.py:73-76 | `(exp(f) - 1) / exp(f)` lies in [0, 1) for non-negative `f`, and is positive for positive `f` |
| LogexpClipped.GradfactorMatchesSlope | GPy/core/transformations.py:65-76 | wherever neither clip is active, `gradfactor(f(x))` is the slope of softplus at `x`; for every `x` it lies in (0, 1), so it is not the zero slope where a clip holds f flat |
| LogexpClipped.Initialize | GPy/core/transformations.py:77-80 | initialize returns the elementwise absolute value and warns exactly when some entry is negative |
| Exponent.F | GPy/core/transformations.py:87-88 | the nested `where`s compute `exp(clip(x, -lim_val, lim_val))` |
| Exponent.FBounded | GPy/core/transformations.py:87-88 | every value of f lies in `[exp(-lim_val), exp(lim_val)]` |
| Exponent.Finv | GPy/core/transformations.py:89-90 | `exp(finv(y)) == y` for positive `y` |
| Exponent.FinvF | GPy/core/transformations.py:87-90 | `finv(f(x)) == x` exactly when `-lim_val <= x <= lim_val` |
| Exponent.FFinv | GPy/core/transformations.py:87-90 | `f(finv(y)) == y` exactly when `y` lies in `[exp(-lim_val), exp(lim_val)]` |
| Exponent.GradfactorMatchesSlope | GPy/core/transformations.py:87-92 | the identity gradient factor of lines 91-92, at `f(x)`: between the thresholds it is `exp(x)`, the slope of exp; beyond them, where f is flat, it is `exp(±lim_val)`, not zero |
| Exponent.Initialize | GPy/core/transformations.py:93-96 | initialize returns the elementwise absolute value and warns exactly when some entry is negative |
| NegativeExponent.FAsWritten | GPy/core/transformations.py:102-103 | `-Exponent.f(x)` as written raises TypeError for every input |
| NegativeExponent.FinvAsWritten | GPy/core/transformations.py:104-105 | `Exponent.finv(-f)` as written raises TypeError for every input |
| NegativeExponent.InitializeAsWritten | GPy/core/transformations.py:108-109 | `-Exponent.initialize(f)` as written raises TypeError for every input |
| NegativeExponent.InitializeReflected | GPy/core/transformations.py:108-109 | with the call repaired, initialize returns `-abs(f)` but warns exactly when some entry is negative |
| NegativeExponent.InitializeReflectedWarnsBackwards | GPy/core/transformations.py:108-109 | that repair warns on `[-1.0]`, which it leaves unchanged, and is silent on `[1.0]`, which it changes |
| NegativeExponent.F | GPy/core/transformations.py:102-103 | every value of the reflected f lies in `[-exp(lim_val), -exp(-lim_val)]`, below zero |
| NegativeExponent.Finv | GPy/core/transformations.py:104-105 | for every negative `y`, minus the exp of the reflected inverse is `y` again |
| NegativeExponent.Initialize | GPy/core/transformations.py:108-109 | initialize returns minus `Exponent`'s repaired values and warns exactly when some entry is positive |
| NegativeExponent.FinvF | GPy/core/transformations.py:102-105 | `finv(f(x)) == x` exactly when `-lim_val <= x <= lim_val` |
| NegativeExponent.FFinv | GPy/core/transformations.py:102-105 | `f(finv(y)) == y` exactly when `y` lies in `[-exp(lim_val), -exp(-lim_val)]` |
| NegativeExponent.GradfactorMatchesSlope | GPy/core/transformations.py:102-107 | the unnegated gradient factor of lines 106-107, at `f(x)`: between the thresholds it is `-exp(x)`, the slope of `-exp`; beyond them, where f is flat, it is `-exp(±lim_val)`, not zero |
| NegativeExponent.InitializeWarnsIffChanged | GPy/core/transformations.py:108-109 | the repaired entries are all non-positive, and the warning is raised exactly when the array changes |
| Square.F | GPy/core/transformations.py:115-116 | the square is non-negative |
| Square.Finv | GPy/core/transformations.py:117-118 | for non-negative `y`, the inverse is the non-negative root of `y` |
| Square.Gradfactor | GPy/core/transformations.py:119-120 | for non-negative `y`, the factor is non-negative and its square is `4 * y` |
| Square.Initialize | GPy/core/transformations.py:121-122 | initialize returns the elementwise absolute value and never warns |
| Square.FFinv | GPy/core/transformations.py:115-118 | `f(finv(y)) == y` for every non-negative `y` |
| Square.FinvF | GPy/core/transformations.py:115-118 | `finv(f(x)) == x` exactly when `x >= 0` |
| Square.GradfactorMatchesSlope | GPy/core/transformations.py:115-120 | `gradfactor(f(x)) == 2 * abs(x)`, which equals the slope `2 * x` exactly when `x >= 0` |
| Square.InitializeChangesSilently | GPy/core/transformations.py:121-122 | initialize changes the array exactly when some entry is negative, and never warns |
| Logistic.New | GPy/core/transformations.py:128-131 | construction succeeds exactly when `lower < upper`, keeps both bounds and makes `difference` positive; otherwise it raises AssertionError |
| Logistic.Str | GPy/core/transformations.py:142-143 | the label is the two rendered bounds, comma-separated, in parentheses |
| Logistic.F | GPy/core/transformations.py:132-133 | every value of f lies strictly between `lower` and `upper` |
| Logistic.Finv | GPy/core/transformations.py:134-135 | where neither side is raised to `1e-10`, the exp of the inverse is the ratio of the distances from `f` to `lower` and to `upper` |
| Logistic.Gradfactor | GPy/core/transformations.py:136-137 | the factor is positive exactly strictly inside `[lower, upper]` and zero exactly at its two ends |
| Logistic.Initialize | GPy/core/transformations.py:138-141 | in-range entries are kept, out-of-range entries become `f(0)`, and the warning is raised exactly when some entry is out of range |
| Logistic.Midpoint | GPy/core/transformations.py:132-133 | `f(0) = lower + difference / 2` |
| Logistic.InitializeRepairs | GPy/core/transformations.py:138-141 | every repaired entry lies in `[lower, upper]`, and the warning is raised exactly when the array changes |
| Logistic.FinvF | GPy/core/transformations.py:132-135 | wherever neither clip is active, `finv(f(x)) == x` |
| Logistic.FFinv | GPy/core/transformations.py:132-135 | for `y` at least `1e-10` inside both ends, `f(finv(y)) == y` |
| Logistic.GradfactorMatchesSlope | GPy/core/transformations.py:132-137 | `gradfactor(f(x)) == difference * s * (1 - s)` with `s` the sigmoid of `x`, the slope of f |
| Logistic.UnitInterval | GPy/core/transformations.py:132-135 | on `[0, 1]`, `f(0) == 0.5` and `finv(0.5) == 0` |
| Transformations.FInDomain | GPy/core/transformations.py:29-143 | every variant's f maps every real into the domain it declares |
| Transformations.InitializeRepairs | GPy/core/transformations.py:37-141 | every variant's initialize lands in its domain, keeps an in-domain array unchanged without warning, and warns only when it changes something (exactly then, except `Square`) |
| Transformations.LabelShowsSign | GPy/core/transformations.py:41-124 | the label of each fixed-domain variant starts with `(+` exactly when it is positive and `(-` exactly when it is negative |

## Findings

| source | as written | input that shows it | evidently intended | confidence | as-written member | corrected member |
|---|---|---|---|---|---|---|
| GPy/core/transformations.py:46-53 | `Negative_logexp` calls `Logexp.f(x)`, `Logexp.finv(-f)`, `Logexp.gradfactor(-f)` and `Logexp.initialize(f)` through the class; in Python 2 these are unbound methods, and each call raises TypeError because its first argument is a float or an array, not a `Logexp` instance | `f(0.0)`, and every other call | the reflection of a `Logexp` instance's operations | high; not executed | NegativeLogexp.FAsWritten | NegativeLogexp.F |
| GPy/core/transformations.py:102-109 | `NegativeExponent` calls `Exponent.f(x)`, `Exponent.finv(-f)` and `Exponent.initialize(f)` through the class; as unbound methods given a float or an array instead of an `Exponent` instance, each raises TypeError in Python 2 | `f(0.0)`, and every other call except `gradfactor` | the reflection of an `Exponent` instance's operations | high; not executed | NegativeExponent.FAsWritten | NegativeExponent.F |
| GPy/core/transformations.py:52-53 | even with the call repaired, the warning is `Logexp`'s: raised when some entry is negative, which is valid for this domain | `initialize([-1.0])` warns and returns `[-1.0]`; `initialize([1.0])` returns `[-1.0]` silently (`NegativeLogexp.InitializeReflectedWarnsBackwards`) | warn when some entry is positive and so changes | medium; not executed | NegativeLogexp.InitializeReflected | NegativeLogexp.Initialize |
| GPy/core/transformations.py:108-109 | as above, with `Exponent`'s warning | `initialize([-1.0])` warns and returns `[-1.0]` (`NegativeExponent.InitializeReflectedWarnsBackwards`) | warn when some entry is positive and so changes | medium; not executed | NegativeExponent.InitializeReflected | NegativeExponent.Initialize |
| GPy/core/transformations.py:72 | `np.log(np.exp(f - 1.))`, which is `f - 1` | `x = -2.0`: `f(x) >= 1e-10`, so `finv(f(x)) > -1` (`LogexpClipped.FinvAsWrittenMissesRoundTrip`) | `np.log(np.exp(f) - 1.)`, the softplus inverse of line 34, which undoes f wherever no clip is active (`LogexpClipped.FinvF`) | high; not executed | LogexpClipped.FinvAsWritten | LogexpClipped.Finv |

## Left out

- The abstract base class `Transformation`, whose operations raise NotImplementedError: the datatype `Transformations.Transformation` lists only the concrete variants, so there is nothing abstract to call.
- `lim_val = -log(epsilon)`: its value depends on the host's float epsilon; the model takes it as any positive constant.
- IEEE floating point: rounding, overflow, underflow, NaN and infinity. So `finv` or `gradfactor` outside the domain gives whatever the abstract `log` or `sqrt` gives, not NaN, and `f * 0.` in `Logistic.initialize` is 0 for every entry.
- numpy's real `exp`, `log` and `sqrt`, array shapes and broadcasting: the functions are abstract with the axioms listed above, and arrays are flat `seq<real>`. There is no witness for the sqrt axioms, because a real square root cannot be written in Dafny.
- The `print` of the warning: it becomes the `warned` flag.
- `GPy.core.domains` is not part of this model: its three tags are the datatype `Domains.Domain`.
- `LogexpClipped.__init__` and its `lower` attribute: stored but never read by any operation.
- `float(lower)` and `float(upper)` in the `Logistic` constructor: identity on reals.
- How Python renders a float in `Logistic.__str__`: it is the `render` parameter.
- LogexpClipped.FinvF: proved only where neither clip is active; under a clip, f is not one-to-one.
- Logistic.FinvF: proved only where neither `1e-10` clip of `finv` is active.
- `GPy/plotting/__init__.py`: plotting-library selection and wiring, with no part in the transformations.
