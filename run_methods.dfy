/**
 * Per-trial aggregation and summary statistics of an experiment (models/run_methods.py):
 * `run_trials` runs the optimiser `n_trial` times and keeps, per trial, the histories,
 * the running total of evaluations, the final total and whether the last distance to the
 * target beat `terminate_eps`; `results_postprocess` adds the success rate and the mean
 * costs of successful, failed and all trials to the result dictionary.
 *
 * The optimiser each trial runs is a parameter: `runs(t)` is what the t-th call returns.
 * Floating-point means are modelled by exact real arithmetic, and `np.std` by an
 * uninterpreted function.
 */
module RunMethods {
  import opened Wrappers
  import opened QuadsTypes

  /** The three histories of one optimiser run that `run_trials` reads:
      `min_func_hist`, `eval_num_hist` and `dist_target_hist`. */
  datatype TrialRun = TrialRun(minFuncHist: seq<real>, evalNumHist: seq<real>, distTargetHist: seq<real>)

  /** The five lists `run_trials` returns, one entry per trial. */
  datatype TrialResults = TrialResults(
    evalHists: seq<seq<real>>,
    minFuncHists: seq<seq<real>>,
    distTargetHists: seq<seq<real>>,
    evalTotal: seq<real>,
    convergedToGlobal: seq<bool>)

  /** The sum of a sequence. */
  function Sum(s: seq<real>): real
  {
    if |s| == 0 then 0.0 else Sum(s[..|s| - 1]) + s[|s| - 1]
  }

  /** `np.cumsum`: the running totals of a sequence. */
  function CumSum(s: seq<real>): (r: seq<real>)
    ensures |r| == |s|
  {
    if |s| == 0 then [] else CumSum(s[..|s| - 1]) + [Sum(s)]
  }

  /** Entry `j` of the running totals is the sum of the first `j + 1` entries; in
      particular the last one is the sum of all. */
  lemma {:induction false} CumSumPrefixSums(s: seq<real>)
    ensures forall j :: 0 <= j < |s| ==> CumSum(s)[j] == Sum(s[..j + 1])
    ensures |s| >= 1 ==> CumSum(s)[|s| - 1] == Sum(s)
  {
    if |s| > 0 {
      var s' := s[..|s| - 1];
      CumSumPrefixSums(s');
      forall j | 0 <= j < |s|
        ensures CumSum(s)[j] == Sum(s[..j + 1])
      {
        if j < |s| - 1 {
          assert CumSum(s)[j] == CumSum(s')[j];
          assert s'[..j + 1] == s[..j + 1];
        } else {
          assert s[..j + 1] == s;
        }
      }
    }
  }

  /** With non-negative entries the running totals never decrease. */
  lemma {:induction false} CumSumMonotone(s: seq<real>)
    requires forall i :: 0 <= i < |s| ==> s[i] >= 0.0
    ensures forall j, k :: 0 <= j <= k < |s| ==> CumSum(s)[j] <= CumSum(s)[k]
  {
    if |s| > 0 {
      var s' := s[..|s| - 1];
      assert forall i :: 0 <= i < |s'| ==> s'[i] == s[i];
      CumSumMonotone(s');
      CumSumPrefixSums(s');
      forall j, k | 0 <= j <= k < |s|
        ensures CumSum(s)[j] <= CumSum(s)[k]
      {
        assert forall i :: 0 <= i < |s'| ==> CumSum(s)[i] == CumSum(s')[i];
        if k == |s| - 1 && j < k {
          assert CumSum(s)[j] <= CumSum(s')[|s'| - 1];
        }
      }
    }
  }

  /** The sum of two concatenated sequences. */
  lemma {:induction false} SumAppend(a: seq<real>, b: seq<real>)
    ensures Sum(a + b) == Sum(a) + Sum(b)
    decreases |b|
  {
    if |b| > 0 {
      var b' := b[..|b| - 1];
      assert (a + b)[..|a + b| - 1] == a + b';
      assert (a + b)[|a + b| - 1] == b[|b| - 1];
      SumAppend(a, b');
    } else {
      assert a + b == a;
    }
  }

  /** The number of entries of `bs` equal to `w`. */
  function Count(bs: seq<bool>, w: bool): nat
  {
    if |bs| == 0 then 0 else Count(bs[..|bs| - 1], w) + (if bs[|bs| - 1] == w then 1 else 0)
  }

  /** Every entry is either true or false. */
  lemma {:induction false} CountSplit(bs: seq<bool>)
    ensures Count(bs, true) + Count(bs, false) == |bs|
  {
    if |bs| > 0 {
      CountSplit(bs[..|bs| - 1]);
    }
  }

  /** The sum of the entries of `xs` whose flag in `bs` is `w`. */
  function SumWhere(xs: seq<real>, bs: seq<bool>, w: bool): real
    requires |xs| == |bs|
  {
    if |xs| == 0 then 0.0
    else SumWhere(xs[..|xs| - 1], bs[..|bs| - 1], w) + (if bs[|bs| - 1] == w then xs[|xs| - 1] else 0.0)
  }

  /** The entries split by their flag add up to the whole sum. */
  lemma {:induction false} SumWhereSplit(xs: seq<real>, bs: seq<bool>)
    requires |xs| == |bs|
    ensures SumWhere(xs, bs, true) + SumWhere(xs, bs, false) == Sum(xs)
  {
    if |xs| > 0 {
      SumWhereSplit(xs[..|xs| - 1], bs[..|bs| - 1]);
    }
  }

  /** `xs[bs]` (or `xs[np.logical_not(bs)]`): the entries of `xs` whose flag is `w`, in
      order; there are `Count(bs, w)` of them and they add up to `SumWhere(xs, bs, w)`. */
  function Select(xs: seq<real>, bs: seq<bool>, w: bool): (r: seq<real>)
    requires |xs| == |bs|
    ensures |r| == Count(bs, w)
    ensures Sum(r) == SumWhere(xs, bs, w)
  {
    if |xs| == 0 then []
    else
      var init := Select(xs[..|xs| - 1], bs[..|bs| - 1], w);
      var last := if bs[|bs| - 1] == w then [xs[|xs| - 1]] else [];
      SumAppend(init, last);
      assert Sum(last) == (if bs[|bs| - 1] == w then xs[|xs| - 1] else 0.0) by {
        if |last| == 1 {
          assert last[..0] == [];
        }
      }
      init + last
  }

  /** `np.mean` of a non-empty sequence. */
  function Mean(xs: seq<real>): real
    requires |xs| >= 1
  {
    Sum(xs) / |xs| as real
  }

  /** The last entry of a non-empty sequence (`s[-1]`). */
  function Last<T>(s: seq<T>): T
    requires |s| >= 1
  {
    s[|s| - 1]
  }

  /** `run_trials`: one optimiser run per trial; every trial appends one entry to each of
      the five lists: its histories, with the evaluation counts turned into running totals,
      its total evaluation count and whether its last distance is below `terminate_eps`. */
  method RunTrials(runs: nat -> TrialRun, nTrial: int, terminateEps: real) returns (res: TrialResults)
    requires forall t :: 0 <= t < nTrial ==> |runs(t).evalNumHist| >= 1 && |runs(t).distTargetHist| >= 1
    ensures |res.evalHists| == |res.minFuncHists| == |res.distTargetHists| == |res.evalTotal| ==
            |res.convergedToGlobal| == (if nTrial < 0 then 0 else nTrial)
    ensures forall t :: 0 <= t < |res.evalTotal| ==>
      res.evalHists[t] == CumSum(runs(t).evalNumHist) &&
      res.minFuncHists[t] == runs(t).minFuncHist &&
      res.distTargetHists[t] == runs(t).distTargetHist
    ensures forall t :: 0 <= t < |res.evalTotal| ==>
      res.evalTotal[t] == Sum(runs(t).evalNumHist) &&
      (res.convergedToGlobal[t] <==> Last(runs(t).distTargetHist) < terminateEps)
  {
    var evalHists: seq<seq<real>> := [];
    var minFuncHists: seq<seq<real>> := [];
    var distTargetHists: seq<seq<real>> := [];
    var evalTotal: seq<real> := [];
    var convergedToGlobal: seq<bool> := [];
    var n: nat := if nTrial < 0 then 0 else nTrial;
    for trial := 0 to n
      invariant |evalHists| == |minFuncHists| == |distTargetHists| == |evalTotal| ==
                |convergedToGlobal| == trial
      invariant forall t :: 0 <= t < trial ==>
        evalHists[t] == CumSum(runs(t).evalNumHist) &&
        minFuncHists[t] == runs(t).minFuncHist &&
        distTargetHists[t] == runs(t).distTargetHist
      invariant forall t :: 0 <= t < trial ==>
        evalTotal[t] == Sum(runs(t).evalNumHist) &&
        (convergedToGlobal[t] <==> Last(runs(t).distTargetHist) < terminateEps)
    {
      var run := runs(trial);
      var evalNumHist := CumSum(run.evalNumHist);
      CumSumPrefixSums(run.evalNumHist);
      minFuncHists := minFuncHists + [run.minFuncHist];
      evalHists := evalHists + [evalNumHist];
      distTargetHists := distTargetHists + [run.distTargetHist];
      evalTotal := evalTotal + [evalNumHist[|evalNumHist| - 1]];
      convergedToGlobal := convergedToGlobal + [run.distTargetHist[|run.distTargetHist| - 1] < terminateEps];
    }
    res := TrialResults(evalHists, minFuncHists, distTargetHists, evalTotal, convergedToGlobal);
  }

  /** The six statistics `results_postprocess` computes; `None` is Python's `None`. */
  datatype Stats = Stats(
    successRate: real,
    meanEvalSuccess: Option<real>,
    stdEvalSuccess: Option<real>,
    meanEvalFailure: Option<real>,
    stdEvalFailure: Option<real>,
    meanEvalToGlobal: Option<real>)

  /** The comparisons `results_postprocess` makes on the rate `c / n` are comparisons of
      the count `c` with 0 and with `n`. */
  lemma {:induction false} RateFacts(c: nat, n: nat)
    requires 1 <= n && c <= n
    ensures 0.0 <= c as real / n as real <= 1.0
    ensures c as real / n as real > 0.0 <==> c > 0
    ensures c as real / n as real == 0.0 <==> c == 0
    ensures c as real / n as real < 1.0 <==> c < n
    ensures c as real / n as real == 1.0 <==> c == n
    ensures (c as real / n as real) * n as real == c as real
  {
    var r := c as real / n as real;
    assert r * n as real == c as real;
    if c > 0 {
      assert r > 0.0;
    }
    if c < n {
      assert r * n as real < n as real;
      assert r < 1.0;
    }
    if c == n {
      assert r == 1.0;
    }
  }

  /** `mean_eval_failure * (1 - success_rate) / success_rate + mean_eval_success`. */
  function Restart(meanFailure: real, meanSuccess: real, rate: real): real
    requires rate != 0.0
  {
    meanFailure * (1.0 - rate) / rate + meanSuccess
  }

  /** The statistics over the trials' total costs `evalTotal` and convergence flags
      `conv`; `std` stands for `np.std`. */
  function Summarize(evalTotal: seq<real>, conv: seq<bool>, std: seq<real> -> real): Stats
    requires |evalTotal| == |conv| >= 1
  {
    var rate := Count(conv, true) as real / |conv| as real;
    CountSplit(conv);
    RateFacts(Count(conv, true), |conv|);
    var success := Select(evalTotal, conv, true);
    var failure := Select(evalTotal, conv, false);
    var meanSuccess := if rate > 0.0 then Some(Mean(success)) else None;
    var stdSuccess := if rate > 0.0 then Some(std(success)) else None;
    var meanFailure := if rate < 1.0 then Some(Mean(failure)) else None;
    var stdFailure := if rate < 1.0 then Some(std(failure)) else None;
    var toGlobal :=
      if rate == 0.0 then None
      else if rate == 1.0 then meanSuccess
      else Some(Restart(meanFailure.value, meanSuccess.value, rate));
    Stats(rate, meanSuccess, stdSuccess, meanFailure, stdFailure, toGlobal)
  }

  /** The success rate is the fraction of converged trials, between 0 and 1; it is 0
      exactly when no trial converged and 1 exactly when all did. */
  lemma {:induction false} SuccessRate(evalTotal: seq<real>, conv: seq<bool>, std: seq<real> -> real)
    requires |evalTotal| == |conv| >= 1
    ensures Summarize(evalTotal, conv, std).successRate * |conv| as real == Count(conv, true) as real
    ensures 0.0 <= Summarize(evalTotal, conv, std).successRate <= 1.0
    ensures Summarize(evalTotal, conv, std).successRate == 0.0 <==> Count(conv, true) == 0
    ensures Summarize(evalTotal, conv, std).successRate == 1.0 <==> Count(conv, true) == |conv|
  {
    CountSplit(conv);
    RateFacts(Count(conv, true), |conv|);
  }

  /** `mean_eval_success` is `None` exactly when no trial converged, and otherwise the
      total cost of the converged trials divided by their number. */
  lemma {:induction false} MeanEvalSuccess(evalTotal: seq<real>, conv: seq<bool>, std: seq<real> -> real)
    requires |evalTotal| == |conv| >= 1
    ensures Summarize(evalTotal, conv, std).meanEvalSuccess.None? <==> Count(conv, true) == 0
    ensures Count(conv, true) > 0 ==>
      Summarize(evalTotal, conv, std).meanEvalSuccess ==
        Some(SumWhere(evalTotal, conv, true) / Count(conv, true) as real)
  {
    SuccessRate(evalTotal, conv, std);
  }

  /** `mean_eval_failure` is `None` exactly when every trial converged, and otherwise the
      total cost of the failed trials divided by their number. */
  lemma {:induction false} MeanEvalFailure(evalTotal: seq<real>, conv: seq<bool>, std: seq<real> -> real)
    requires |evalTotal| == |conv| >= 1
    ensures Summarize(evalTotal, conv, std).meanEvalFailure.None? <==> Count(conv, true) == |conv|
    ensures Count(conv, true) < |conv| ==>
      Summarize(evalTotal, conv, std).meanEvalFailure ==
        Some(SumWhere(evalTotal, conv, false) / (|conv| - Count(conv, true)) as real)
  {
    SuccessRate(evalTotal, conv, std);
    CountSplit(conv);
  }

  /** The three cases of `mean_eval_to_global`: `None` at success rate 0, the success
      mean at rate 1, and `failure * (1 - r) / r + success` in between. */
  lemma {:induction false} MeanEvalToGlobalCases(evalTotal: seq<real>, conv: seq<bool>, std: seq<real> -> real)
    requires |evalTotal| == |conv| >= 1
    ensures Count(conv, true) == 0 ==> Summarize(evalTotal, conv, std).meanEvalToGlobal.None?
    ensures Count(conv, true) == |conv| ==>
      Summarize(evalTotal, conv, std).meanEvalToGlobal.Some? &&
      Summarize(evalTotal, conv, std).meanEvalToGlobal == Summarize(evalTotal, conv, std).meanEvalSuccess
    ensures 0 < Count(conv, true) < |conv| ==>
      Summarize(evalTotal, conv, std).meanEvalSuccess.Some? &&
      Summarize(evalTotal, conv, std).meanEvalFailure.Some? &&
      Summarize(evalTotal, conv, std).successRate != 0.0 &&
      Summarize(evalTotal, conv, std).meanEvalToGlobal ==
        Some(Restart(Summarize(evalTotal, conv, std).meanEvalFailure.value,
                     Summarize(evalTotal, conv, std).meanEvalSuccess.value,
                     Summarize(evalTotal, conv, std).successRate))
  {
    SuccessRate(evalTotal, conv, std);
    CountSplit(conv);
  }

  /** Whenever some trial converged, `mean_eval_to_global` is the total cost of all trials
      divided by the number of converged ones: the expected cost of reaching the global
      optimum when failed runs are restarted. */
  lemma {:induction false} MeanEvalToGlobalTotal(evalTotal: seq<real>, conv: seq<bool>, std: seq<real> -> real)
    requires |evalTotal| == |conv| >= 1 && Count(conv, true) > 0
    ensures Summarize(evalTotal, conv, std).meanEvalToGlobal ==
      Some(Sum(evalTotal) / Count(conv, true) as real)
  {
    SumWhereSplit(evalTotal, conv);
    var c := Count(conv, true);
    var sf := SumWhere(evalTotal, conv, false);
    var ss := SumWhere(evalTotal, conv, true);
    if c < |conv| {
      var n := |conv| as real;
      ToGlobalValue(evalTotal, conv, std);
      RestartAlgebra(sf, ss, c as real, n);
    } else {
      MeanEvalToGlobalCases(evalTotal, conv, std);
      MeanEvalSuccess(evalTotal, conv, std);
      CountSplit(conv);
      assert Select(evalTotal, conv, false) == [];
    }
  }

  /** Between the degenerate rates, `mean_eval_to_global` in terms of the two partial sums. */
  lemma {:induction false} ToGlobalValue(evalTotal: seq<real>, conv: seq<bool>, std: seq<real> -> real)
    requires |evalTotal| == |conv| && 0 < Count(conv, true) < |conv|
    ensures Summarize(evalTotal, conv, std).meanEvalToGlobal ==
      Some(Restart(SumWhere(evalTotal, conv, false) / (|conv| as real - Count(conv, true) as real),
                   SumWhere(evalTotal, conv, true) / Count(conv, true) as real,
                   Count(conv, true) as real / |conv| as real))
  {
    MeanEvalToGlobalCases(evalTotal, conv, std);
    MeanEvalSuccess(evalTotal, conv, std);
    MeanEvalFailure(evalTotal, conv, std);
    var c := Count(conv, true);
    assert (|conv| - c) as real == |conv| as real - c as real;
  }

  /** With `c` of `n` trials converged, failed cost `sf` and successful cost `ss`, the
      restart formula gives the whole cost per success. */
  lemma {:induction false} RestartAlgebra(sf: real, ss: real, c: real, n: real)
    requires 0.0 < c < n
    ensures Restart(sf / (n - c), ss / c, c / n) == (sf + ss) / c
  {
    var r := c / n;
    var mf := sf / (n - c);
    assert r * n == c;
    assert mf * (n - c) == sf;
    var q := 1.0 - r;
    assert q * n == n - c;
    var x := mf * q;
    assert x * n == sf by {
      calc {
        x * n;
        mf * (q * n);
        mf * (n - c);
        sf;
      }
    }
    var y := x / r;
    assert y * r == x;
    assert y * c == sf by {
      calc {
        y * c;
        y * (r * n);
        (y * r) * n;
        x * n;
        sf;
      }
    }
    assert y == sf / c;
    assert sf / c + ss / c == (sf + ss) / c;
  }

  /** A value of the result dictionary. */
  datatype Value =
    | Reals(reals: seq<real>)
    | Bools(bools: seq<bool>)
    | RealLists(lists: seq<seq<real>>)
    | Number(number: real)
    | NoneValue
    | ConfigValue(config: Config)

  /** A Python dictionary from names to values: the `result` of an experiment. */
  class ResultDict {
    var entries: map<string, Value>

    /** The dictionary `run_trials` returns. */
    constructor (res: TrialResults)
      ensures entries == TrialEntries(res)
    {
      entries := TrialEntries(res);
    }
  }

  /** The five entries of the dictionary `run_trials` returns. */
  function TrialEntries(res: TrialResults): map<string, Value>
  {
    map[
      "eval_hists" := RealLists(res.evalHists),
      "min_func_hists" := RealLists(res.minFuncHists),
      "dist_target_hists" := RealLists(res.distTargetHists),
      "eval_total" := Reals(res.evalTotal),
      "converged_to_global" := Bools(res.convergedToGlobal)]
  }

  /** `Some(x)` as a number, `None` as Python's `None`. */
  function OptionValue(o: Option<real>): Value
  {
    if o.Some? then Number(o.value) else NoneValue
  }

  /** The seven entries `results_postprocess` adds. */
  function StatEntries(config: Config, s: Stats): map<string, Value>
  {
    map[
      "config" := ConfigValue(config),
      "success_rate" := Number(s.successRate),
      "mean_eval_success" := OptionValue(s.meanEvalSuccess),
      "std_eval_success" := OptionValue(s.stdEvalSuccess),
      "mean_eval_failure" := OptionValue(s.meanEvalFailure),
      "std_eval_failure" := OptionValue(s.stdEvalFailure),
      "mean_eval_to_global" := OptionValue(s.meanEvalToGlobal)]
  }

  /** The result dictionary has the entries `results_postprocess` reads, of equal, non-zero
      lengths. */
  predicate Postprocessable(entries: map<string, Value>)
  {
    "eval_total" in entries && entries["eval_total"].Reals? &&
    "converged_to_global" in entries && entries["converged_to_global"].Bools? &&
    |entries["eval_total"].reals| == |entries["converged_to_global"].bools| >= 1
  }

  /** `results_postprocess`: updates `result` in place with the configuration and the six
      statistics and returns it; every other entry is kept. */
  method ResultsPostprocess(result: ResultDict, config: Config, std: seq<real> -> real)
    returns (r: ResultDict)
    requires Postprocessable(result.entries)
    modifies result
    ensures r == result
    ensures result.entries == old(result.entries) + StatEntries(config,
      Summarize(old(result.entries)["eval_total"].reals, old(result.entries)["converged_to_global"].bools, std))
  {
    var evalTotal := result.entries["eval_total"].reals;
    var converged := result.entries["converged_to_global"].bools;
    var stats := Summarize(evalTotal, converged, std);
    result.entries := result.entries + StatEntries(config, stats);
    r := result;
  }
}
