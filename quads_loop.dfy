/**
 * The QuADS optimisation loop `run_quads` (models/amp_sim/quads.py).
 *
 * Each iteration draws `n_samples` points below the current threshold with the configured
 * sampler, updates the parameter with the external CMA-style update, and records the
 * running minimum of the objective values, the cost of the sampler call, the distance of
 * the accepted points to the target and the new parameter. The loop ends after `max_iter`
 * iterations, on a sampler timeout (without recording that iteration), or right after an
 * iteration whose distance or step size falls below its termination bound; an unknown
 * sampler type is an error.
 *
 * The environment `Env` gathers what the loop uses but does not define: the objective, the
 * configuration, the random batches of the classical sampler (`draw(i, cma, k)` is the k-th
 * batch of iteration i drawn from the distribution `cma`), the oracle of each iteration,
 * `optimal_amplify_num`, `update_quads_params` and the distance of the accepted points to
 * the target.
 */
module QuadsLoop {
  import opened Wrappers
  import opened QuadsTypes
  import opened ClassicalSampler
  import opened GroverSampler

  /** The external collaborators and inputs of one `run_quads` call. */
  datatype Env = Env(
    f: Point -> real,
    cfg: Config,
    draw: (nat, CmaParam, nat) -> Batch,
    oracle: nat -> Oracle,
    amplify: real -> real,
    update: (seq<Point>, seq<real>, nat, QuadsParam, QuadsHyperParam) -> QuadsParam,
    dist: (seq<Point>, Point) -> real)

  /** The four histories `run_quads` returns: `min_func_hist`, `eval_num_hist`,
      `dist_target_hist` and `param_hist`. */
  datatype History = History(
    minFunc: seq<real>,
    evalNum: seq<real>,
    distTarget: seq<real>,
    params: seq<QuadsParam>)

  /** What `run_quads` returns, or the `NotImplementedError` it raises for an unknown
      sampler type. */
  datatype RunResult =
    | Finished(param: QuadsParam, hist: History)
    | NotImplemented

  /** The variables the loop carries from one iteration to the next; `minVal == None`
      stands for the initial `np.inf`. */
  datatype LoopState = LoopState(param: QuadsParam, minVal: Option<real>, hist: History)

  /** `hp`: the hyper-parameters read from the configuration. */
  function HyperParams(cfg: Config): QuadsHyperParam
  {
    QuadsHyperParam(cfg.quantile, cfg.smoothingTh, CmaHyperParam(cfg.nDim, cfg.nSamples))
  }

  /** The sampler types the loop dispatches on. */
  predicate KnownSampler(cfg: Config)
  {
    cfg.samplerType == "quantum" || cfg.samplerType == "classical"
  }

  /** The batches the classical sampler of iteration `i` may draw: as many as can be drawn
      before the evaluation ceiling is passed. */
  function Draws(env: Env, i: nat, param: QuadsParam): (r: seq<Batch>)
    ensures |r| == LastBatch(env.cfg.evalLimitOneSample) + 1
    ensures forall k :: 0 <= k < |r| ==> r[k] == env.draw(i, param.cma, k)
  {
    seq<Batch>(LastBatch(env.cfg.evalLimitOneSample) + 1, k requires k >= 0 => env.draw(i, param.cma, k))
  }

  /** The result of the sampler call of iteration `i` from parameter `param`. */
  function Sample(env: Env, i: nat, param: QuadsParam): (r: SampleOutcome)
    requires env.cfg.nSamples >= 1 && KnownSampler(env.cfg)
    ensures r.Done? ==> |r.points| == env.cfg.nSamples && |r.values| == env.cfg.nSamples
  {
    var cfg := env.cfg;
    if cfg.samplerType == "quantum" then
      GroverOutcome(env.oracle(i), env.f, GroverQuery(param, cfg), cfg.nSamples);
      GroverSpec(env.oracle(i), env.f, GroverQuery(param, cfg), cfg.nSamples)
    else
      ClassicalSpec(ScoreBatches(env.f, Draws(env, i, param)), param.threshold, cfg.nSamples,
                    cfg.evalLimitOneSample, env.amplify)
  }

  /** The smaller of two reals, the first on a tie (Python's `min(a, b)`). */
  function Min(a: real, b: real): (r: real)
    ensures r <= a && r <= b
    ensures r == a || r == b
  {
    if b < a then b else a
  }

  /** `np.min` of a non-empty sequence. */
  function SeqMin(s: seq<real>): (r: real)
    requires |s| >= 1
    ensures forall t :: 0 <= t < |s| ==> r <= s[t]
    ensures exists t :: 0 <= t < |s| && r == s[t]
  {
    if |s| == 1 then s[0]
    else
      var m := SeqMin(s[..|s| - 1]);
      assert forall t :: 0 <= t < |s| - 1 ==> s[..|s| - 1][t] == s[t];
      Min(m, s[|s| - 1])
  }

  /** `min(min_val, v)` with `min_val` possibly still `np.inf`. */
  function RunningMin(m: Option<real>, v: real): real
  {
    if m.None? then v else Min(m.value, v)
  }

  /** The sampler call of iteration `i` from parameter `p`, as the loop sees it. */
  type Sampler = (nat, QuadsParam) -> SampleOutcome

  /** Every successful call returns `n` points and `n` values. */
  ghost predicate Sized(sample: Sampler, n: nat)
  {
    forall i, p :: sample(i, p).Done? ==> |sample(i, p).points| == n && |sample(i, p).values| == n
  }

  /** What one iteration of the loop uses: the configuration, the sampler calls,
      `update_quads_params` and the distance to the target. */
  datatype Loop = Loop(
    cfg: Config,
    sample: Sampler,
    update: (seq<Point>, seq<real>, nat, QuadsParam, QuadsHyperParam) -> QuadsParam,
    dist: (seq<Point>, Point) -> real)

  /** A loop whose sampler returns at least one value per successful call. */
  ghost predicate WellFormed(lp: Loop)
  {
    lp.cfg.nSamples >= 1 && Sized(lp.sample, lp.cfg.nSamples)
  }

  /** The samplers of `env`'s run: the dispatch of `run_quads` on the sampler type. The
      `TimedOut` fallback stands for nothing in `run_quads`: it is never reached, since
      `LoopOf` needs `n_samples >= 1` and `RunFrom` raises `NotImplemented` for an unknown
      sampler type before it calls a sampler. */
  function SamplerOf(env: Env): (r: Sampler)
  {
    (i: nat, p: QuadsParam) =>
      if env.cfg.nSamples >= 1 && KnownSampler(env.cfg) then Sample(env, i, p) else TimedOut
  }

  /** The loop of `env`'s run. */
  function LoopOf(env: Env): (lp: Loop)
    requires env.cfg.nSamples >= 1
    ensures WellFormed(lp) && lp.cfg == env.cfg
  {
    assert Sized(SamplerOf(env), env.cfg.nSamples);
    Loop(env.cfg, SamplerOf(env), env.update, env.dist)
  }

  /** The two termination tests of an iteration. */
  predicate Converged(cfg: Config, distTarget: real, param: QuadsParam)
  {
    distTarget < cfg.terminateEps || param.cma.stepSize < cfg.terminateStepSize
  }

  /** The loop state after a recorded iteration `i` whose sampler call returned `o`. */
  function Advance(lp: Loop, i: nat, st: LoopState, o: SampleOutcome): LoopState
    requires o.Done? && |o.values| >= 1
  {
    var param := lp.update(o.points, o.values, i, st.param, HyperParams(lp.cfg));
    var m := RunningMin(st.minVal, SeqMin(o.values));
    var d := lp.dist(o.points, lp.cfg.target);
    LoopState(param, Some(m),
      History(st.hist.minFunc + [m], st.hist.evalNum + [o.cost], st.hist.distTarget + [d],
              st.hist.params + [param]))
  }

  /** The loop from iteration `i` on, with state `st`. */
  function RunFrom(lp: Loop, i: nat, st: LoopState): RunResult
    requires WellFormed(lp)
    decreases lp.cfg.maxIter - i
  {
    if i >= lp.cfg.maxIter then Finished(st.param, st.hist)
    else if !KnownSampler(lp.cfg) then NotImplemented
    else
      var o := lp.sample(i, st.param);
      if o.TimedOut? then Finished(st.param, st.hist)
      else
        var st' := Advance(lp, i, st, o);
        if Converged(lp.cfg, lp.dist(o.points, lp.cfg.target), st'.param) then
          Finished(st'.param, st'.hist)
        else RunFrom(lp, i + 1, st')
  }

  /** The state before the first iteration. */
  function InitialState(init: QuadsParam): LoopState
  {
    LoopState(init, None, History([], [], [], [init]))
  }

  /** `run_quads(func, init_param, config)`. */
  function RunQuadsSpec(env: Env, init: QuadsParam): RunResult
    requires env.cfg.nSamples >= 1
  {
    RunFrom(LoopOf(env), 0, InitialState(init))
  }

  /** The four histories have the shapes `run_quads` gives them: one parameter more than
      entries in each of the other three lists. */
  predicate Shaped(h: History)
  {
    |h.params| == |h.minFunc| + 1 && |h.evalNum| == |h.minFunc| && |h.distTarget| == |h.minFunc|
  }

  /** Entry `j` of the histories records iteration `j`: its sampler call from
      `params[j]` succeeded, and the next parameter, the cost, the distance and the running
      minimum are those of that call. */
  predicate Recorded(lp: Loop, h: History, j: nat)
    requires WellFormed(lp) && Shaped(h) && j < |h.minFunc|
  {
    var o := lp.sample(j, h.params[j]);
    o.Done? &&
    h.params[j + 1] == lp.update(o.points, o.values, j, h.params[j], HyperParams(lp.cfg)) &&
    h.evalNum[j] == o.cost &&
    h.distTarget[j] == lp.dist(o.points, lp.cfg.target) &&
    h.minFunc[j] == (if j == 0 then SeqMin(o.values) else Min(h.minFunc[j - 1], SeqMin(o.values)))
  }

  /** `h` is the record of its first `|h.minFunc|` iterations from `init`, none of which but
      possibly the last met a termination test. */
  predicate Explains(lp: Loop, init: QuadsParam, h: History)
    requires WellFormed(lp)
  {
    Shaped(h) && h.params[0] == init &&
    (|h.minFunc| > 0 ==> KnownSampler(lp.cfg)) &&
    (forall j :: 0 <= j < |h.minFunc| ==> Recorded(lp, h, j)) &&
    (forall j :: 0 <= j < |h.minFunc| - 1 ==> !Converged(lp.cfg, h.distTarget[j], h.params[j + 1]))
  }

  /** Why a run that recorded `|h.minFunc|` iterations stopped: it reached `max_iter`, or
      the next sampler call timed out, or the last recorded iteration met a termination
      test. */
  predicate Stopped(lp: Loop, h: History)
    requires Shaped(h)
  {
    var m := |h.minFunc|;
    (m == 0 || m <= lp.cfg.maxIter) &&
    (m < lp.cfg.maxIter ==>
      KnownSampler(lp.cfg) &&
      (lp.sample(m, h.params[m]).TimedOut? ||
       (m >= 1 && Converged(lp.cfg, h.distTarget[m - 1], h.params[m]))))
  }

  /** The invariant of the loop state before iteration `i`. */
  predicate StateInv(lp: Loop, init: QuadsParam, i: nat, st: LoopState)
    requires WellFormed(lp)
  {
    Explains(lp, init, st.hist) && |st.hist.minFunc| == i &&
    (i == 0 || i <= lp.cfg.maxIter) &&
    st.param == st.hist.params[i] &&
    st.minVal == (if i == 0 then None else Some(st.hist.minFunc[i - 1])) &&
    (i >= 1 ==> !Converged(lp.cfg, st.hist.distTarget[i - 1], st.hist.params[i]))
  }

  /** A recorded iteration keeps the record consistent. */
  lemma {:induction false} AdvanceExplains(lp: Loop, init: QuadsParam, i: nat, st: LoopState)
    requires WellFormed(lp) && KnownSampler(lp.cfg)
    requires StateInv(lp, init, i, st)
    requires lp.sample(i, st.param).Done?
    ensures Explains(lp, init, Advance(lp, i, st, lp.sample(i, st.param)).hist)
    ensures |Advance(lp, i, st, lp.sample(i, st.param)).hist.minFunc| == i + 1
    ensures Advance(lp, i, st, lp.sample(i, st.param)).param ==
            Advance(lp, i, st, lp.sample(i, st.param)).hist.params[i + 1]
    ensures Advance(lp, i, st, lp.sample(i, st.param)).minVal ==
            Some(Advance(lp, i, st, lp.sample(i, st.param)).hist.minFunc[i])
  {
    var o := lp.sample(i, st.param);
    var h := st.hist;
    var h' := Advance(lp, i, st, o).hist;
    assert Shaped(h');
    forall j | 0 <= j < |h'.minFunc|
      ensures Recorded(lp, h', j)
    {
      if j < i {
        assert Recorded(lp, h, j);
        assert h'.params[j] == h.params[j] && h'.params[j + 1] == h.params[j + 1];
        assert h'.minFunc[j] == h.minFunc[j];
        assert j > 0 ==> h'.minFunc[j - 1] == h.minFunc[j - 1];
        assert h'.evalNum[j] == h.evalNum[j] && h'.distTarget[j] == h.distTarget[j];
      } else {
        assert h'.params[i] == st.param;
      }
    }
    forall j | 0 <= j < |h'.minFunc| - 1
      ensures !Converged(lp.cfg, h'.distTarget[j], h'.params[j + 1])
    {
      assert h'.distTarget[j] == h.distTarget[j] && h'.params[j + 1] == h.params[j + 1];
    }
  }

  /** Every run from a state satisfying the invariant ends in a record that explains itself
      and says why it stopped; the result's parameter is the last recorded one, and the run
      fails exactly when an iteration is due and the sampler type is unknown. */
  lemma {:induction false} RunFromTrace(lp: Loop, init: QuadsParam, i: nat, st: LoopState)
    requires WellFormed(lp)
    requires StateInv(lp, init, i, st)
    ensures RunFrom(lp, i, st).NotImplemented? <==> i < lp.cfg.maxIter && !KnownSampler(lp.cfg)
    ensures RunFrom(lp, i, st).Finished? ==>
      Explains(lp, init, RunFrom(lp, i, st).hist) &&
      Stopped(lp, RunFrom(lp, i, st).hist) &&
      RunFrom(lp, i, st).param == RunFrom(lp, i, st).hist.params[|RunFrom(lp, i, st).hist.minFunc|]
    decreases lp.cfg.maxIter - i
  {
    if i < lp.cfg.maxIter && KnownSampler(lp.cfg) {
      var o := lp.sample(i, st.param);
      if o.Done? {
        var st' := Advance(lp, i, st, o);
        AdvanceExplains(lp, init, i, st);
        assert st'.hist.distTarget[i] == lp.dist(o.points, lp.cfg.target);
        if !Converged(lp.cfg, st'.hist.distTarget[i], st'.param) {
          RunFromTrace(lp, init, i + 1, st');
        }
      }
    }
  }

  /** The histories `run_quads` returns: the parameter history starts with `init_param` and
      has one entry more than each of the other three, which have equal lengths and at most
      `max_iter` entries; the returned parameter is the last of the parameter history; every
      entry records its iteration; every recorded iteration but the last failed both
      termination tests; and the run stopped at `max_iter`, on a timeout of the next sampler
      call, or after an iteration that met a termination test. `NotImplementedError` is
      raised exactly when an iteration is due and the sampler type is unknown. */
  lemma {:induction false} RunQuadsTrace(env: Env, init: QuadsParam)
    requires env.cfg.nSamples >= 1
    ensures RunQuadsSpec(env, init).NotImplemented? <==> env.cfg.maxIter >= 1 && !KnownSampler(env.cfg)
    ensures RunQuadsSpec(env, init).Finished? ==>
      Explains(LoopOf(env), init, RunQuadsSpec(env, init).hist) &&
      Stopped(LoopOf(env), RunQuadsSpec(env, init).hist) &&
      RunQuadsSpec(env, init).param ==
        RunQuadsSpec(env, init).hist.params[|RunQuadsSpec(env, init).hist.params| - 1]
  {
    RunFromTrace(LoopOf(env), init, 0, InitialState(init));
  }

  /** The sampler call of recorded iteration `j` of `env`'s run is the modelled sampler
      selected by the sampler type, called from the `j`-th recorded parameter. */
  lemma {:induction false} RecordedSampler(env: Env, init: QuadsParam, h: History, j: nat)
    requires env.cfg.nSamples >= 1 && Explains(LoopOf(env), init, h) && j < |h.minFunc|
    ensures KnownSampler(env.cfg)
    ensures LoopOf(env).sample(j, h.params[j]) == Sample(env, j, h.params[j])
    ensures Sample(env, j, h.params[j]).Done?
  {
    assert Recorded(LoopOf(env), h, j);
  }

  /** The values the sampler returned in recorded iteration `j`. */
  function IterValues(lp: Loop, init: QuadsParam, h: History, j: nat): (r: seq<real>)
    requires WellFormed(lp) && Explains(lp, init, h) && j < |h.minFunc|
    ensures |r| == lp.cfg.nSamples
  {
    assert Recorded(lp, h, j);
    lp.sample(j, h.params[j]).values
  }

  /** The running-minimum history: entry `j` is the least objective value returned in
      iterations `0..j` (a lower bound of all of them, attained by one of them), so the
      history is non-increasing. */
  lemma {:induction false} RunningMinimum(lp: Loop, init: QuadsParam, h: History, j: nat)
    requires WellFormed(lp) && Explains(lp, init, h) && j < |h.minFunc|
    ensures j > 0 ==> h.minFunc[j] <= h.minFunc[j - 1]
    ensures forall j', t :: 0 <= j' <= j && 0 <= t < lp.cfg.nSamples ==>
      h.minFunc[j] <= IterValues(lp, init, h, j')[t]
    ensures exists j', t :: (0 <= j' <= j && 0 <= t < lp.cfg.nSamples &&
      h.minFunc[j] == IterValues(lp, init, h, j')[t])
  {
    assert Recorded(lp, h, j);
    var vs := IterValues(lp, init, h, j);
    if j > 0 {
      RunningMinimum(lp, init, h, j - 1);
      forall j', t | 0 <= j' <= j && 0 <= t < lp.cfg.nSamples
        ensures h.minFunc[j] <= IterValues(lp, init, h, j')[t]
      {
        if j' < j {
          assert h.minFunc[j - 1] <= IterValues(lp, init, h, j')[t];
        } else {
          assert SeqMin(vs) <= vs[t];
        }
      }
      if h.minFunc[j] == h.minFunc[j - 1] {
        var j', t :| 0 <= j' <= j - 1 && 0 <= t < lp.cfg.nSamples &&
          h.minFunc[j - 1] == IterValues(lp, init, h, j')[t];
        assert 0 <= j' <= j;
      } else {
        var t :| 0 <= t < |vs| && SeqMin(vs) == vs[t];
        assert h.minFunc[j] == IterValues(lp, init, h, j)[t];
      }
    } else {
      var t :| 0 <= t < |vs| && SeqMin(vs) == vs[t];
      assert h.minFunc[j] == IterValues(lp, init, h, 0)[t];
    }
  }

  /** `run_quads`: the iteration loop. The sampler calls are the modelled samplers. */
  method RunQuads(env: Env, init: QuadsParam) returns (result: RunResult)
    requires env.cfg.nSamples >= 1
    ensures result == RunQuadsSpec(env, init)
  {
    var cfg := env.cfg;
    var hp := HyperParams(cfg);
    var param := init;
    var evalNumHist: seq<real> := [];
    var paramHist: seq<QuadsParam> := [init];
    var minFuncHist: seq<real> := [];
    var distTargetHist: seq<real> := [];
    var minVal: Option<real> := None;
    var i: nat := 0;
    while i < cfg.maxIter
      invariant |distTargetHist| == i
      invariant RunFrom(LoopOf(env), i, LoopState(param, minVal,
                  History(minFuncHist, evalNumHist, distTargetHist, paramHist))) ==
                RunQuadsSpec(env, init)
      decreases cfg.maxIter - i
    {
      var outcome: SampleOutcome;
      if cfg.samplerType == "quantum" {
        var nEval;
        outcome, nEval := GetSamplesGrover(env.f, param, cfg, env.oracle(i));
      } else if cfg.samplerType == "classical" {
        var nEval;
        outcome, nEval := GetSamplesClassical(env.f, param, cfg, Draws(env, i, param), env.amplify);
      } else {
        return NotImplemented;
      }
      assert outcome == LoopOf(env).sample(i, param);
      if outcome.TimedOut? {
        break;
      }
      param := env.update(outcome.points, outcome.values, i, param, hp);
      minVal := Some(RunningMin(minVal, SeqMin(outcome.values)));
      var distTarget := env.dist(outcome.points, cfg.target);
      paramHist := paramHist + [param];
      minFuncHist := minFuncHist + [minVal.value];
      distTargetHist := distTargetHist + [distTarget];
      evalNumHist := evalNumHist + [outcome.cost];
      if distTarget < cfg.terminateEps || param.cma.stepSize < cfg.terminateStepSize {
        break;
      }
      i := i + 1;
    }
    result := Finished(param, History(minFuncHist, evalNumHist, distTargetHist, paramHist));
  }
}
