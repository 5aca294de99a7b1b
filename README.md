# QuADS sampling and trial bookkeeping, modelled in Dafny

QuADS is a quantum-inspired optimiser. It repeatedly draws a batch of points whose objective
value lies below a moving threshold, then feeds them to an evolution-strategy update of a
normal search distribution. A quantum (Grover-adaptive) sampler finds points below the
threshold. A classical rejection sampler does the same job, and its cost is converted into a
quantum-equivalent count so the two can be compared. Around the optimiser, an experiment
driver runs many independent trials and summarises how often they reach the global optimum
and at what cost.

This project models the sequential bookkeeping of that system and proves its properties:

- `ClassicalSampler` (`classical_sampler.dfy`) models `get_samples_classical`.
  - It pulls batches of 100 candidates and keeps those strictly below the threshold.
  - From the batch that completes the quota, it keeps only the first accepts it needs.
  - It counts 100 evaluations per earlier batch. For the final batch, it counts only up to
    and including the last accept it needed.
  - It times out when the running count passes the per-sample ceiling after a non-final
    batch.
  - Its loop is proved equal to a closed-form specification, `ClassicalSpec`.
- `GroverSampler` (`grover_sampler.dfy`) models `get_samples_grover`.
  - It makes one oracle call per requested sample, all with the same query.
  - It appends the points and values in call order and adds up the evaluation counts.
  - A timeout of any call propagates.
- `QuadsLoop` (`quads_loop.dfy`) models `run_quads`.
  - Each iteration dispatches on the sampler type: quantum, classical, or
    `NotImplementedError`.
  - It keeps a running minimum and appends to four histories.
  - It stops on a sampler timeout, after `max_iter` iterations, or right after the first
    iteration that meets a termination test.
  - The method is proved equal to the recursive specification `RunQuadsSpec`. Lemmas then
    characterise every history that specification produces.
- `RunMethods` (`run_methods.dfy`) models the aggregation in `run_trials` and the statistics
  of `results_postprocess`.
  - The result dictionary is a class with a map field, updated in place.
- `QuadsTypes` (`quads_types.dfy`) holds the data model, and `Wrappers` (`wrappers.dfy`)
  holds `Option`.

Randomness and the numerical collaborators are inputs:

- The classical sampler receives the sequence of batches it draws.
- The quantum sampler receives the oracle as a function of the objective, the query and the
  call number.
- At the level of `run_quads`, `Env` supplies:
  - the batches of every iteration (`draw`);
  - the oracle of every iteration;
  - `optimal_amplify_num`, `update_quads_params` and the distance of the accepted points to
    the target.
- Objective values, costs and statistics are Dafny reals. Evaluation counts are naturals.

Three behaviours of the code the model keeps:

- The classical ceiling is checked only after a batch that did not complete the quota, and
  only as `n_eval > eval_limit_one_sample`. A batch that completes the quota is never checked
  against the ceiling, whatever its count.
- The recorded distance is the minimum distance of any accepted point to the target. It is
  not the distance of the best-valued point.
- Both samplers report their cost in the same history, `eval_num_hist`. The classical
  sampler reports the estimated quantum-equivalent cost `(optimal_amplify_num(p) + 1) * n`.
  The quantum sampler reports its summed oracle count.

## Model

| member | source | states |
|---|---|---|
| `ClassicalSampler.GetSamplesClassical` | models/amp_sim/quads.py:36-72 | The batch loop returns exactly `ClassicalSpec` of the scored batches: a timeout, or the first `n` accepted candidates in stream order with cost `(amplify(n / n_eval) + 1) * n`. On success, its exact evaluation count is `ExactEvals`. |
| `ClassicalSampler.AcceptBatch` | models/amp_sim/quads.py:48-52 | Scoring batch `k` yields the positions `np.where(func_val < threshold)[0]` and the candidates `sample[accept_flag]` with their values. The positions are below 100, strictly increasing, and hold points whose objective value is below the threshold. Every such position of the batch is listed. The `j`-th accepted candidate is the point at the `j`-th position together with its objective value. |
| `ClassicalSampler.AcceptIndicesSpec` | models/amp_sim/quads.py:51-55 | The accepted positions of a batch are in range, strictly increasing, and each holds a value below the threshold. Every position whose value is below the threshold is listed. So the result is `np.sort(np.where(accept_flag)[0])`. |
| `ClassicalSampler.AcceptsBelow` | models/amp_sim/quads.py:51-62 | Every candidate `sample[accept_flag]` keeps lies strictly below the threshold and comes from the batch. |
| `ClassicalSampler.ClassicalSamplesAccepted` | models/amp_sim/quads.py:46-58 | A successful call returns exactly `n_samples` points. Each value is the objective value of its point, and every value is strictly below the threshold. |
| `ClassicalSampler.ClassicalStreamOrder` | models/amp_sim/quads.py:54-63 | The returned candidates are the first `n` of the accepted stream (earlier batches first, batch order within a batch). This holds for every number of batches drawn past the final one. |
| `ClassicalSampler.FinalBatchFirst` | models/amp_sim/quads.py:54-58 | No batch before the final one completes the quota, so the loop breaks at the first batch whose accepts reach `n_samples`. |
| `ClassicalSampler.FinalBatchAccounting` | models/amp_sim/quads.py:55-57 | The final batch is charged up to and including its `need`-th accept. That prefix holds exactly the first `need` accepts, and its last candidate is one of them. |
| `ClassicalSampler.ClassicalEvalBounds` | models/amp_sim/quads.py:55-69 | On success, `n_samples <= n_eval`, so `p = n_samples / n_eval` lies in (0, 1]. |
| `ClassicalSampler.ClassicalTimeout` | models/amp_sim/quads.py:54-67 | The call times out exactly when no batch up to the last one the ceiling allows completes the quota. A timeout comes only after the count exceeds the ceiling. A successful call never passed the ceiling before its final batch. |
| `ClassicalSampler.ClassicalCost` | models/amp_sim/quads.py:69-70 | A successful call reports the cost `(amplify(p) + 1) * n_samples`, where `p = n_samples / n_eval` uses the exact evaluation count. The cost is at least `n_samples` whenever the amplification count is non-negative. |
| `GroverSampler.GetSamplesGrover` | models/amp_sim/quads.py:11-30 | The oracle loop returns exactly `GroverSpec` for the query built from the parameter: the mean, the covariance times `step_size ** 2`, the threshold, and the configured digits, dimension, amplification switch and per-sample ceiling. The returned cost is the summed count `n_eval`. |
| `GroverSampler.GroverOutcome` | models/amp_sim/quads.py:19-28 | The call succeeds exactly when none of its `n_samples` oracle calls times out. It then returns one point and one value per call, those of the `i`-th call at position `i`. |
| `GroverSampler.GroverUsesOnlyItsCalls` | models/amp_sim/quads.py:19-23 | The result depends only on the replies to calls `0 .. n_samples - 1`, all made with the same query. |
| `GroverSampler.SumEvalsBounds` | models/amp_sim/quads.py:25 | The summed count is at least the count of every single call. It is at least `n_samples` when every call spends an evaluation. |
| `GroverSampler.GroverConstantCost` | models/amp_sim/quads.py:18-25 | When every call reports `c` evaluations, the call succeeds with cost `n_samples * c`. |
| `QuadsLoop.Sample` | models/amp_sim/quads.py:96-103 | The sampler selected by `sampler_type` returns `n_samples` points and `n_samples` values whenever it succeeds. |
| `QuadsLoop.SeqMin` | models/amp_sim/quads.py:113 | `np.min(accepted_val)` is at most every value and equal to one of them. |
| `QuadsLoop.Min` | models/amp_sim/quads.py:113 | `min(min_val, v)` is at most both arguments and equal to one of them. |
| `QuadsLoop.RunQuads` | models/amp_sim/quads.py:75-137 | The iteration loop, calling the modelled samplers, returns exactly `RunQuadsSpec`. |
| `QuadsLoop.RunQuadsTrace` | models/amp_sim/quads.py:85-137 | Characterises every result of `run_quads`. The parameter history starts with `init_param` and has one entry more than each of the other three histories, which are equally long and have at most `max_iter` entries. The returned parameter is the last entry of the parameter history. Entry `j` records iteration `j`: a successful sampler call from `params[j]`, the updated parameter, the cost, the distance and the running minimum. Every recorded iteration but the last failed both termination tests. The run stopped at `max_iter`, on a timeout of the next sampler call (not recorded), or right after an iteration meeting a termination test. `NotImplementedError` occurs exactly when an iteration is due and the sampler type is unknown. |
| `QuadsLoop.RunFromTrace` | models/amp_sim/quads.py:93-134 | The same characterisation, for the loop entered at any iteration from any consistent state. |
| `QuadsLoop.AdvanceExplains` | models/amp_sim/quads.py:109-119 | One recorded iteration extends a consistent history to a consistent history one entry longer and leaves the earlier entries unchanged. |
| `QuadsLoop.RecordedSampler` | models/amp_sim/quads.py:96-103 | Every recorded iteration used a known sampler type, and its sampler call is the modelled Grover or classical sampler, and it succeeded. |
| `QuadsLoop.RunningMinimum` | models/amp_sim/quads.py:91-117 | Entry `j` of `min_func_hist` is at most every objective value returned in iterations `0..j`, and equals one of them. The history is non-increasing. |
| `RunMethods.RunTrials` | models/run_methods.py:89-119 | Each trial appends one entry to each of the five lists, so all have `n_trial` entries. Trial `t` keeps its histories with the evaluation counts turned into running totals. Its total is the sum of its per-iteration counts, and it is flagged converged exactly when its last distance is below `terminate_eps`. |
| `RunMethods.CumSumPrefixSums` | models/run_methods.py:106-110 | Entry `j` of `np.cumsum` is the sum of the first `j + 1` counts, so its last entry is the trial's total. |
| `RunMethods.CumSumMonotone` | models/run_methods.py:106 | With non-negative counts the cumulative history is non-decreasing. |
| `RunMethods.Select` | models/run_methods.py:27-34 | `eval_total[mask]` has as many entries as the mask has matching flags, and they add up to the total of the matching trials. |
| `RunMethods.SuccessRate` | models/run_methods.py:24 | `success_rate` times the number of trials is the number of converged trials. The rate lies in [0, 1], is 0 exactly when no trial converged, and is 1 exactly when all did. |
| `RunMethods.MeanEvalSuccess` | models/run_methods.py:26-31 | `mean_eval_success` is `None` exactly when no trial converged. Otherwise it is the total cost of the converged trials over their number. |
| `RunMethods.MeanEvalFailure` | models/run_methods.py:33-38 | `mean_eval_failure` is `None` exactly when every trial converged. Otherwise it is the total cost of the failed trials over their number. |
| `RunMethods.MeanEvalToGlobalCases` | models/run_methods.py:40-45 | `mean_eval_to_global` is `None` at rate 0 and `mean_eval_success` at rate 1. In between, it is `mean_eval_failure * (1 - r) / r + mean_eval_success`, with both means present. |
| `RunMethods.MeanEvalToGlobalTotal` | models/run_methods.py:40-45 | Whenever some trial converged, `mean_eval_to_global` is the total cost of all trials divided by the number of converged trials. This is the expected cost of one success when failed runs are restarted. |
| `RunMethods.RestartAlgebra` | models/run_methods.py:45 | For `c` successes among `n` trials, the restart formula over the failure and success means equals the whole cost divided by `c`. |
| `RunMethods.ResultDict.constructor` | models/run_methods.py:113-119 | The dictionary `run_trials` returns has exactly its five entries. |
| `RunMethods.ResultsPostprocess` | models/run_methods.py:16-56 | Updates `result` in place and returns the same object. The new entries are the old ones overridden by `config` and the six statistics computed from the old `eval_total` and `converged_to_global`. Every other key and value is kept. |

## Left out

- The random normal draws are inputs: `np.linalg.eigh`, the `BD` whitening and `get_normal_samples`. The classical sampler receives its batches. At the `run_quads` level, `draw(i, cma, k)` supplies the `k`-th batch of iteration `i`.
- ClassicalSampler.GetSamplesClassical: requires at least `LastBatch(eval_limit_one_sample) + 1` batches. The source draws without bound, but it can never draw more batches than that before it breaks or raises.
- ClassicalSampler.GetSamplesClassical: requires `n_samples >= 1`. With `n_samples == 0` the source computes `0 / 0` and raises.
- QuadsLoop.RunQuads: requires `n_samples >= 1` even when no iteration runs. With `n_samples == 0`, every iteration of the source fails: the classical sampler divides by zero, and `np.min` of the quantum sampler's empty values raises.
- The quantum simulator is an uninterpreted oracle. `init_normal_state` and `sampling_grover_oracle` are folded into it, and the oracle's own timeout behaviour is not part of this model. The call number stands for the fresh randomness of each call.
- `optimal_amplify_num` is an uninterpreted `amplify: real -> real`. Its arccos/arcsin are floating-point library functions.
- `update_quads_params` (the CMA-style update) is an uninterpreted function argument, and so is the distance `np.min(np.linalg.norm(accepted - target))`.
- `np.std`, used for `std_eval_success` and `std_eval_failure`, is an uninterpreted function argument.
- `get_sample_size` is not modelled: it is a logarithm, and only `main` uses it.
- Floating point is modelled by exact reals: `np.mean`, `n_samples / n_eval`, the comparisons `success_rate > 0`, `< 1`, `== 0` and `== 1`, and the `mean_eval_to_global` formula.
- The model does not represent `.squeeze()` on the quantum values or the `NDArray` shapes. Point lists and value lists are sequences.
- The optimiser each trial runs is a parameter of `run_trials`: `runs(t)` is what the `t`-th call returns. This is for two reasons:
  - `run_trials` reads the method from the module-level `args`, which only the `__main__` block sets (models/run_methods.py:96-101, 203), so it is undefined when the module is imported;
  - its call `method(func, config, verbose=...)` (models/run_methods.py:104) does not match the signature `run_quads(func, init_param, config, verbose)` (models/amp_sim/quads.py:75-80). As written, that call would raise a `TypeError`, since `config` is missing.
- RunMethods.RunTrials: requires every trial's evaluation and distance histories to be non-empty. The source indexes them with `[-1]` and raises otherwise.
- RunMethods.ResultsPostprocess: requires `eval_total` and `converged_to_global` to be present, of equal and non-zero length. With no trials the source ends in `None * ...` and raises a `TypeError`. With lists of different lengths, boolean indexing raises.
- The `config` entry holds the configuration record of the core, not the whole argument dictionary.
- Out of scope:
  - orchestration and telemetry: `main`, `wandb_log`, wandb, pickle, argparse, tqdm;
  - the `verbose` printing, and the unconditional `print` of the total evaluation count at the end of `run_quads` (models/amp_sim/quads.py:136);
  - both `__main__` blocks; the one in quads.py unpacks three names from a four-tuple.
