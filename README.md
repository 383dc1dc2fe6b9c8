# pygenetics in Dafny

This project models the evolutionary engine of pygenetics, a small genetic-algorithm library. Four parts are modelled:

- **The fitness transform** of a population member: an objective value `v` becomes `1/(v+1)` when `v >= 0` and `1+|v|` when `v < 0`.
- **The parameter domain.**
  - Kind inference and validation from the Python types of the two bounds.
  - Sampling a value from a uniform draw.
  - Mutation: the proposal `dtype(curr + u * (curr - rand_val))` with `u` drawn from `uniform(-1, 1)`, the formula the docstring of `mutate` gives; clamping into the bounds when the parameter is restricted; and retrying until the value changes.
- **The GA operators.**
  - The cumulative selection distribution (CDF).
  - The scan for the best member.
  - Per-locus mutation of a parameter vector.
  - Single-point crossover.
- **The population.** It moves from Empty to Configured once parameters are added, and to Initialized once members exist. Its generation step selects members by bisecting the CDF, crosses them over, mutates them and re-evaluates them.

Randomness is made explicit. Every `random()`, `uniform` and `randint` draw the source makes is an argument:
- `u` for `rand_val`;
- `MutDraw` for one mutation attempt;
- `LocusDraw` for one locus of `mutate_params`;
- `GenDraw` for one iteration of the offspring loop.

Where the source draws a fixed number of values, `requires` clauses give their ranges. The source's two retry loops are unbounded: the recursion in `Parameter.mutate` and the mate-resampling loop. These take a finite sequence of draws. When none of the draws is accepted, the result is `None`, or `Fail(OutOfDraws)` for the population; in that case the source would still be retrying.

The user's objective function, with its keyword arguments already bound, is a parameter of type `seq<Value> -> real`.

Modules, one per file:
- `Wrappers` (wrappers.dfy) holds `Option`, `Result` and `Outcome`.
- `Values` (values.dfy) holds int/float values, with `int()` modelled as truncation toward zero.
- `Members` (member.dfy) follows `pygenetics/member.py`.
- `Parameters` (parameter.dfy) follows `pygenetics/parameter.py`.
- `Utils` (utils.dfy) follows `pygenetics/utils.py`.
- `Populations` (population.dfy) follows `pygenetics/population.py`. It holds the `Population` class, whose `members` and `params` fields its methods update.

Where the code and its documentation disagree, the model follows the code:

- **Population size.** The offspring loop in `next_generation` stops as soon as at least `pop_size` vectors exist. A crossover appends two vectors at once, so a generation can hold `pop_size + 1` members. `OffspringShape` and `Population.Valid` state the range `[pop_size, pop_size + 1]`.
- **Selection.** Selection uses `bisect` (bisect_right). It returns the first index whose CDF entry is strictly greater than the draw, not greater-or-equal.
- **Bound order.** The parameter constructor checks only the types of the bounds. It never checks `min_val <= max_val`. The properties that need ordered bounds therefore assume `Ordered()`.
- **Re-initialization.** `initialize` clears `members` before evaluating the new ones, and it warns when members already existed. The model overwrites the members; the warning is not modelled.
- **Zero-width float parameter.** Take a float parameter, restricted or not, whose two bounds equal the current value. Every `rand_val` is that value, so every proposal is the current value and every attempt of `Parameter.mutate` is rejected. It recurses until Python raises RecursionError, which `next_generation` passes on (`MutateStuckOnPoint` proves that no attempt is accepted). An int parameter in the same situation is accepted, because it falls under the span of at most 2.
- **Sampling an int parameter.** The docstring of `rand_val` promises a value in `[min_val, max_val]`. With `0 <= min_val < max_val` and a draw below 1, the truncation of `int(min + u * (max - min))` never yields `max_val`, so the top of the range is never sampled (`RandValNeverMax`).

## Model

| member | source | states |
|---|---|---|
| Values.Trunc | pygenetics/parameter.py:46-47 | Python `int(x)` on a float: the result is the integer next to `x` on the side of zero. For `x >= 0`, `n <= x < n + 1`; for `x < 0`, `n - 1 < x <= n`. |
| Values.Cast | pygenetics/parameter.py:65-67 | `dtype(x)` yields a value of the requested kind. |
| Values.TruncBetween | pygenetics/parameter.py:46-47 | Truncating a number that lies between two integers keeps it between them. |
| Members.CalcFitness | pygenetics/member.py:40-43 | Fitness is strictly positive. It is at most 1 for a non-negative objective value and above 1 for a negative one. |
| Members.FitnessRoundTrip | pygenetics/member.py:40-43 | The inverse transform recovers every objective value from its fitness, so the transform is injective. |
| Members.FitnessOnto | pygenetics/member.py:40-43 | Every positive score is the fitness of the objective value that the inverse transform gives. |
| Members.FitnessStrictlyDecreasing | pygenetics/member.py:40-43 | A strictly lower objective value gives a strictly higher fitness. |
| Members.Member.FitnessScore | pygenetics/member.py:18-20 | A member's fitness is derived from its stored objective value by the transform: positive, at most 1 for a non-negative value, above 1 for a negative one. The parameters and the objective value are stored unchanged as the datatype's fields. |
| Members.FitnessExamples | tests/test_all.py:11-17 | `calc_fitness(0) = 1`, `calc_fitness(1) = 0.5`, `calc_fitness(-1) = 2`. |
| Parameters.NewParameter | pygenetics/parameter.py:23-36 | Bounds of different types fail with the type-mismatch error. A common type other than int or float fails with the unsupported-type error. Construction succeeds exactly when neither error applies. On success the bounds are stored unchanged, `restrict` is kept (default true), the kind is int exactly when the bounds are ints, and the result is valid. |
| Parameters.RandVal | pygenetics/parameter.py:46-47 | The sample has the parameter's kind. |
| Parameters.RandValWithinBounds | pygenetics/parameter.py:46-47 | For a valid parameter with ordered bounds and a draw in `[0, 1]`, the sample lies in `[min_val, max_val]`, including after int truncation. |
| Parameters.RandValNeverMax | pygenetics/parameter.py:46-47 | For an int parameter with `0 <= min_val < max_val` and a draw in `[0, 1)`, the sample is never `max_val`. |
| Parameters.Proposal | pygenetics/parameter.py:65-67 | The unclamped proposal has the parameter's kind. |
| Parameters.Clamp | pygenetics/parameter.py:69-73 | The result keeps the kind, and it lies within ordered bounds. A value already inside the bounds is returned unchanged. Otherwise the result is one of the two bounds. |
| Parameters.Step | pygenetics/parameter.py:65-73 | One attempt keeps the kind. When the parameter is restricted and its bounds are ordered, the attempt lies within them. Without `restrict` it is the bare proposal. With `restrict` and a proposal inside the bounds, it is also the proposal. |
| Parameters.Accepts | pygenetics/parameter.py:75-77 | Definition: an attempt whose value differs from the current one is accepted. An unchanged value is accepted exactly when the parameter is an int with `max_val - min_val <= 2`. |
| Parameters.Mutate | pygenetics/parameter.py:65-81 | A returned value is an accepted attempt. It differs from the current value unless the parameter is an int with span at most 2. It has the parameter's kind, and it lies within the bounds when the parameter is restricted and ordered. |
| Parameters.MutateReturnsFirstAccepted | pygenetics/parameter.py:75-81 | The recursion returns the first attempt that is accepted. |
| Parameters.MutateNoneIffNoneAccepted | pygenetics/parameter.py:75-81 | No value is returned exactly when no attempt among the draws is accepted. |
| Parameters.MutateStuckOnPoint | pygenetics/parameter.py:65-81 | A float parameter with `min_val == max_val == curr`, restricted or not, never returns from mutation: no attempt is accepted. |
| Utils.FitnessSum | pygenetics/utils.py:16 | The total fitness, `sum(m._fitness_score for m in members)`, defined member by member; its properties are the lemmas below. |
| Utils.FitnessSumPositive | pygenetics/utils.py:16 | The total fitness of a non-empty member list is positive. |
| Utils.PrefixSumIncreasing | pygenetics/utils.py:16-22 | Prefix sums of fitness strictly increase with the prefix length. |
| Utils.Cdf | pygenetics/utils.py:16-23 | The reference distribution has one entry per member. |
| Utils.CdfAt | pygenetics/utils.py:16-22 | Entry `i` of the distribution is the fitness of members `0..i` divided by the total fitness, which is positive. |
| Utils.CdfLastIsOne | pygenetics/utils.py:16-23 | The last entry of the distribution is exactly 1. |
| Utils.CdfIncreasing | pygenetics/utils.py:16-23 | Entries of the distribution are positive and strictly increasing. |
| Utils.CumulativeSharesAreCdf | pygenetics/utils.py:19-23 | A list of cumulative fitness shares is the distribution, ends at 1 and strictly increases. |
| Utils.CalcCdfVals | pygenetics/utils.py:16-23 | The running-sum loop returns exactly `Cdf(members)`. Its last entry is 1 and its entries strictly increase. |
| Utils.BestIndex | pygenetics/utils.py:55-63 | The reference choice: an index whose fitness is at least every member's fitness, with every earlier member strictly worse. |
| Utils.BestHasLowestObjective | pygenetics/utils.py:55-63 | The best member also has the lowest objective value. |
| Utils.BestMemberExample | tests/test_all.py:203-212 | Objective values 0, 1 and 2 make the first member best, with fitness 1. |
| Utils.DetermineBestMember | pygenetics/utils.py:55-63 | The scan returns the fitness, objective value and parameters of the single member `BestIndex(members)`. No member has higher fitness. |
| Utils.MutateLocus | pygenetics/utils.py:81-84 | Definition: a locus whose gate draw is at least `p_mutation` is kept, otherwise it is the result of `mutate` on it. The result keeps the parameter's kind. |
| Utils.Mutated | pygenetics/utils.py:79-85 | A vector is returned exactly when every locus that is gated for mutation returns within its draws. The length is preserved. Each entry is the input value or the result of `mutate` on it. |
| Utils.MutateParams | pygenetics/utils.py:79-85 | The append loop computes exactly `Mutated`. |
| Utils.MutatedZeroRate | pygenetics/utils.py:81-84 | With `p_mutation = 0` the vector comes back unchanged. |
| Utils.MutatedFullRate | pygenetics/utils.py:81-82 | With `p_mutation = 1` every locus goes through `mutate`. Every locus whose parameter is not an int of span at most 2 changes. |
| Utils.MutatedConforms | pygenetics/utils.py:79-85 | Mutation keeps a vector conforming: the same length, the kinds of the parameters, and within restricted ordered bounds. |
| Utils.Take | pygenetics/utils.py:101 | Python's `s[:k]`: the first `min(k, len(s))` entries of `s`. |
| Utils.Drop | pygenetics/utils.py:102 | Python's `s[k:]`: the entries from `k` on, empty when `k` exceeds the length, and `s[:k] + s[k:] == s`. |
| Utils.PerformCrossover | pygenetics/utils.py:100-105 | For equal-length parents, both children have the parents' length. Before the cut each child keeps its own parent's value; from the cut on the values are swapped. |
| Utils.CrossoverInvolution | pygenetics/utils.py:100-105 | Crossing the children again at the same cut gives back the parents. |
| Utils.CrossoverPreservesValues | pygenetics/utils.py:100-105 | The two children together hold exactly the multiset of the parents' values. |
| Utils.CrossoverConforms | pygenetics/utils.py:100-105 | Children of conforming parents conform. |
| Utils.CrossoverExamples | tests/test_all.py:228-246 | `([0,0],[1,1])` becomes `([0,1],[1,0])`. Every cut of `[0,0,0,0]` with `[1,1,1,1]` gives children among the six listed outcomes. |
| Utils.CallObjFn | pygenetics/utils.py:41 | Definition: the parameter vector paired with the objective's value on it. |
| Populations.Bisect | pygenetics/population.py:183 | `bisect` returns an index no greater than the length. Entries before it are at most the draw, and the entry at it exceeds the draw. It falls inside the list when the last entry exceeds the draw. |
| Populations.MateIndex | pygenetics/population.py:187-189 | The mate comes from one of the mate draws, differs from the chosen member, and is a valid index when every draw lies below the last CDF entry. |
| Populations.SelectMate | pygenetics/population.py:187-189 | The resampling loop computes exactly `MateIndex`. |
| Populations.Sample | pygenetics/population.py:126 | Definition: entry `j` is `rand_val` of parameter `j` for draw `j`. The vector has one entry per parameter, each of that parameter's kind. |
| Populations.SampleConforms | pygenetics/population.py:126 | A vector sampled with draws in `[0, 1)` conforms, and it lies within the bounds of every ordered parameter. |
| Populations.Breed | pygenetics/population.py:183-204 | One iteration yields one or two vectors. It yields two exactly when there is more than one parameter and the gate draw falls below `p_crossover`. |
| Populations.BreedStep | pygenetics/population.py:183-204 | The loop body computes exactly `Breed`. |
| Populations.BreedPicksDistinctParents | pygenetics/population.py:183-189 | The chosen index is a member. The mate is a member distinct from the chosen one. |
| Populations.BreedConforms | pygenetics/population.py:185-204 | The offspring of conforming members conform. |
| Populations.Offspring | pygenetics/population.py:181-204 | The offspring loop from the vectors gathered so far. It stops once there are at least `pop_size`, and returns them unchanged when there already are. The gathered vectors are a prefix of the result. The result has at least `pop_size` and at most `pop_size + 1` vectors. |
| Populations.Generation | pygenetics/population.py:178-204 | The offspring vectors of one `next_generation` call on the distribution of the current members: between `pop_size` and `pop_size + 1` of them. |
| Populations.OffspringShape | pygenetics/population.py:181-204 | The offspring loop ends with `pop_size` or `pop_size + 1` vectors, all conforming. |
| Populations.BreedAll | pygenetics/population.py:178-204 | The `while` loop computes exactly the offspring function `Offspring`. |
| Populations.EvaluateAll | pygenetics/population.py:208-219 | One result per vector, in submission order, each pairing the vector with the objective value on it. |
| Populations.Evaluate | pygenetics/population.py:227-230 | Definition: one member per vector, in order, holding the vector and the objective value on it. |
| Populations.ObjSum | pygenetics/population.py:81 | The total objective value, `sum(m._obj_fn_val for m in members)`, defined member by member; its bound is ObjSumAtLeast and AverageRetValBound. |
| Populations.FitnessMeanAtMost | pygenetics/population.py:72-73 | A mean of fitness scores that are all at most `c` is positive and at most `c`. |
| Populations.AverageFitnessBounds | pygenetics/population.py:72-73 | The mean fitness is positive and at most the best member's fitness. |
| Populations.ObjMeanAtLeast | pygenetics/population.py:81 | A mean of objective values that are all at least `c` is at least `c`. |
| Populations.AverageRetValBound | pygenetics/population.py:81 | The mean objective value is at least the best member's objective value. |
| Populations.Population.Create | pygenetics/population.py:35-40 | A new population has the given size and objective, no members and no parameters. |
| Populations.Population.New | pygenetics/population.py:32-40 | The call fails with the population-size error exactly when `pop_size <= 1`. Otherwise it returns a fresh, valid, empty population. |
| Populations.Population.BestFitness | pygenetics/population.py:43-48 | With no members the result is None. Otherwise it is the fitness of `BestIndex(members)`, at least every member's fitness. |
| Populations.Population.BestRetVal | pygenetics/population.py:51-56 | With no members the result is None. Otherwise it is the objective value of `BestIndex(members)`, at most every member's objective value. |
| Populations.Population.BestParams | pygenetics/population.py:59-64 | With no members the result is None. Otherwise it is the parameter vector of `BestIndex(members)`. |
| Populations.Population.AverageFitness | pygenetics/population.py:67-73 | The result is None exactly when there are no members. Otherwise it is positive and at most the best fitness. |
| Populations.Population.AverageRetVal | pygenetics/population.py:76-81 | The result is None exactly when there are no members. Otherwise it is at least the best objective value. |
| Populations.Population.AddParam | pygenetics/population.py:97-102 | Once members exist, it fails with the parameter-after-init error. An invalid parameter fails with that parameter's error. Both failures leave the parameters unchanged. Otherwise exactly the new parameter is appended at the end. Members never change, and the population stays valid. |
| Populations.Population.Initialize | pygenetics/population.py:109-144 | Without parameters it fails and changes nothing. Otherwise there are exactly `pop_size` members. Member `i` has the vector sampled from `draws[i]` and the objective value of that vector. Entries lie within the bounds of ordered parameters. Parameters are unchanged and the population stays valid. |
| Populations.Population.ReplaceMembers | pygenetics/population.py:208-230 | Given `pop_size` or `pop_size + 1` conforming vectors, the members become their evaluation, in order, the parameters are unchanged and the class invariant `Valid` is kept. |
| Populations.Population.NextGeneration | pygenetics/population.py:146-230 | Failure order: the not-initialised error first, then the `p_crossover` error, then the `p_mutation` error. Every failure leaves members and parameters unchanged. On success the members are the evaluated offspring of `Generation` on the old members. The population stays valid, with `pop_size` or `pop_size + 1` conforming members. `p_crossover` defaults to 0.5 and `p_mutation` to 0.01. |

## Left out

- **Multiprocessing.** The `Pool` branches of `initialize` and `next_generation` are left out, along with the `num_processes` attribute. Only the sequential branch is modelled; it keeps submission order.
- **Constructor checks and arguments.**
  - The `callable(objective_fn)` check in the constructor is left out. Its `ReferenceError` depends on dynamic typing; the model's objective is a function by type.
  - `obj_fn_args` is folded into the objective function: `call_obj_fn` is modelled as plain application.
- **The re-initialization warning** in `initialize` is logging; it is not modelled.
- **Probability distributions.** The draws are arguments with stated ranges. The model says nothing about how the draws are distributed or whether the algorithm converges.
- **Mutate:** the mutation recursion is modelled over a finite sequence of attempts. Running out of attempts gives `None`, where the source would keep recursing or hit Python's recursion limit.
- **SelectMate:** the mate-resampling loop is modelled over a finite sequence of draws. Running out of draws makes `NextGeneration` fail with `OutOfDraws` and change nothing. The source would keep drawing.
- **Population.Initialize, Population.NextGeneration and EvaluateAll:** the objective function is total, so an objective call that raises is not modelled. In the source such a call leaves `initialize` with no members, because it clears them before evaluating. `next_generation` only replaces its members after every evaluation succeeded, so they would survive.
- **Floats:** they are modelled as exact reals, so rounding is not modelled. The exact last CDF entry of 1 and the in-range bisect index hold in real arithmetic, not necessarily in IEEE floats. Objective values are reals, even where an objective returns a Python `int`.
- **PerformCrossover:** it requires a cut in `[1, len - 1]`. `randint` raises ValueError for a single-locus parent, but its only caller never reaches that, because it checks for more than one parameter first.
- **DetermineBestMember:** it requires a non-empty list. The source raises IndexError on an empty one, but every caller checks for members first.
- **Mutated:** a vector longer than the parameter list is excluded by `requires`. The source would raise IndexError on it, and no caller produces one.
- **The legacy engine** and its selection functions (`pygenetics/ga_core.py`, `pygenetics/selection_functions.py`) are not part of this model. The example scripts and the packaging are not part of it either.
