/**
 * The quantum sampler `get_samples_grover` (models/amp_sim/quads.py).
 *
 * The Grover-adaptive oracle sampler (`init_normal_state` followed by
 * `sampling_grover_oracle`) is an external, uninterpreted function: given the objective,
 * the query the call builds and the number of the call (which stands for the fresh
 * randomness of each call), it returns a point, its value and the number of oracle
 * evaluations it spent, or a timeout. The oracle is meant to return a point below the
 * threshold, but the model does not assume that: nothing here proves the returned values
 * lie below the threshold. The sampler makes one oracle call per requested sample, every
 * call with the same query, and adds up the reported evaluation counts.
 */
module GroverSampler {
  import opened QuadsTypes

  /** `sampling_grover_oracle(func, ...)` for the i-th call of one sampler run. */
  type Oracle = (Point -> real, OracleQuery, nat) -> OracleReply

  /** The query every oracle call of a run receives: the mean, the covariance scaled by
      `step_size ** 2`, the threshold and the configured digits, dimension, amplification
      switch and per-sample evaluation ceiling. */
  function GroverQuery(param: QuadsParam, cfg: Config): OracleQuery
  {
    OracleQuery(
      param.cma.mean,
      ScaleMatrix(param.cma.cov, param.cma.stepSize * param.cma.stepSize),
      cfg.nDigits,
      cfg.nDim,
      param.threshold,
      cfg.optimalAmplifyNum,
      cfg.evalLimitOneSample)
  }

  /** The replies of the first `n` oracle calls with query `q`, in call order. */
  function Replies(oracle: Oracle, f: Point -> real, q: OracleQuery, n: nat): (r: seq<OracleReply>)
    ensures |r| == n
    ensures forall i :: 0 <= i < n ==> r[i] == oracle(f, q, i)
  {
    seq(n, i requires 0 <= i < n => oracle(f, q, i))
  }

  /** No reply is a timeout. */
  predicate AllFound(rs: seq<OracleReply>)
  {
    forall i :: 0 <= i < |rs| ==> rs[i].Found?
  }

  /** The points of the replies, in call order (`accepted`). */
  function FoundPoints(rs: seq<OracleReply>): (r: seq<Point>)
    requires AllFound(rs)
    ensures |r| == |rs|
    ensures forall i :: 0 <= i < |rs| ==> r[i] == rs[i].x
  {
    seq(|rs|, i requires 0 <= i < |rs| => rs[i].x)
  }

  /** The values of the replies, in call order (`accepted_val`). */
  function FoundValues(rs: seq<OracleReply>): (r: seq<real>)
    requires AllFound(rs)
    ensures |r| == |rs|
    ensures forall i :: 0 <= i < |rs| ==> r[i] == rs[i].y
  {
    seq(|rs|, i requires 0 <= i < |rs| => rs[i].y)
  }

  /** The evaluation counts of the replies added up (`n_eval += eval_num`). */
  function SumEvals(rs: seq<OracleReply>): nat
    requires AllFound(rs)
  {
    if |rs| == 0 then 0 else SumEvals(rs[..|rs| - 1]) + rs[|rs| - 1].evalNum
  }

  /** The whole sampler call: the replies of `n` calls with query `q`; the call times out
      when some reply is a timeout, and otherwise returns the points, the values and the
      summed evaluation count. */
  function GroverSpec(oracle: Oracle, f: Point -> real, q: OracleQuery, n: nat): SampleOutcome
  {
    var rs := Replies(oracle, f, q, n);
    if AllFound(rs) then Done(FoundPoints(rs), FoundValues(rs), SumEvals(rs) as real)
    else TimedOut
  }

  /** The call succeeds exactly when none of its `n` oracle calls times out; it then
      returns one point and one value per call, those of the i-th call at position i,
      and every call got the same query `q`. */
  lemma {:induction false} GroverOutcome(oracle: Oracle, f: Point -> real, q: OracleQuery, n: nat)
    ensures GroverSpec(oracle, f, q, n).Done? <==> forall i :: 0 <= i < n ==> oracle(f, q, i).Found?
    ensures GroverSpec(oracle, f, q, n).Done? ==>
      |GroverSpec(oracle, f, q, n).points| == n && |GroverSpec(oracle, f, q, n).values| == n
    ensures GroverSpec(oracle, f, q, n).Done? ==>
      forall i :: 0 <= i < n ==>
        GroverSpec(oracle, f, q, n).points[i] == oracle(f, q, i).x &&
        GroverSpec(oracle, f, q, n).values[i] == oracle(f, q, i).y
  {
    var rs := Replies(oracle, f, q, n);
    if forall i :: 0 <= i < n ==> oracle(f, q, i).Found? {
      assert AllFound(rs);
    } else {
      var j :| 0 <= j < n && !oracle(f, q, j).Found?;
      assert !rs[j].Found?;
    }
  }

  /** The call depends on nothing but the replies to its first `n` calls with query `q`:
      the sampler makes exactly those calls. */
  lemma {:induction false} GroverUsesOnlyItsCalls(o1: Oracle, o2: Oracle, f: Point -> real, q: OracleQuery, n: nat)
    requires forall i :: 0 <= i < n ==> o1(f, q, i) == o2(f, q, i)
    ensures GroverSpec(o1, f, q, n) == GroverSpec(o2, f, q, n)
  {
    assert Replies(o1, f, q, n) == Replies(o2, f, q, n);
  }

  /** The summed count of a prefix extended by one reply. */
  lemma {:induction false} SumEvalsSnoc(rs: seq<OracleReply>, r: OracleReply)
    requires AllFound(rs) && r.Found?
    ensures AllFound(rs + [r])
    ensures SumEvals(rs + [r]) == SumEvals(rs) + r.evalNum
  {
    assert (rs + [r])[..|rs|] == rs;
  }

  /** The summed count is at least the count of every single reply, and at least the
      number of replies when every call spends at least one evaluation. */
  lemma {:induction false} SumEvalsBounds(rs: seq<OracleReply>)
    requires AllFound(rs)
    ensures forall i :: 0 <= i < |rs| ==> rs[i].evalNum <= SumEvals(rs)
    ensures (forall i :: 0 <= i < |rs| ==> rs[i].evalNum >= 1) ==> SumEvals(rs) >= |rs|
  {
    if |rs| > 0 {
      var init := rs[..|rs| - 1];
      assert AllFound(init);
      SumEvalsBounds(init);
      forall i | 0 <= i < |rs|
        ensures rs[i].evalNum <= SumEvals(rs)
      {
        if i < |rs| - 1 {
          assert rs[i] == init[i];
        }
      }
      if forall i :: 0 <= i < |rs| ==> rs[i].evalNum >= 1 {
        assert forall i :: 0 <= i < |init| ==> init[i] == rs[i];
        assert rs[|rs| - 1].evalNum >= 1;
      }
    }
  }

  /** When every oracle call reports the same count `c`, the call reports `n * c`. */
  lemma {:induction false} GroverConstantCost(oracle: Oracle, f: Point -> real, q: OracleQuery, n: nat, c: nat)
    requires forall i :: 0 <= i < n ==> oracle(f, q, i).Found? && oracle(f, q, i).evalNum == c
    ensures GroverSpec(oracle, f, q, n).Done?
    ensures GroverSpec(oracle, f, q, n).cost == (n * c) as real
  {
    GroverOutcome(oracle, f, q, n);
    ConstantSum(Replies(oracle, f, q, n), c);
  }

  /** Replies that all report `c` evaluations add up to `|rs| * c`. */
  lemma {:induction false} ConstantSum(rs: seq<OracleReply>, c: nat)
    requires forall i :: 0 <= i < |rs| ==> rs[i].Found? && rs[i].evalNum == c
    ensures AllFound(rs)
    ensures SumEvals(rs) == |rs| * c
  {
    if |rs| > 0 {
      var init := rs[..|rs| - 1];
      assert forall i :: 0 <= i < |init| ==> init[i] == rs[i];
      ConstantSum(init, c);
    }
  }

  /** `get_samples_grover`: `n_samples` oracle calls, each with the query built from the
      current parameter; the points and values are appended in call order and the
      reported counts added up. A timeout of any call ends the run as a timeout. */
  method GetSamplesGrover(f: Point -> real, param: QuadsParam, cfg: Config, oracle: Oracle)
    returns (outcome: SampleOutcome, nEval: nat)
    ensures outcome == GroverSpec(oracle, f, GroverQuery(param, cfg), cfg.nSamples)
    ensures outcome.Done? ==> outcome.cost == nEval as real
  {
    var q := GroverQuery(param, cfg);
    var accepted: seq<Point> := [];
    var acceptedVal: seq<real> := [];
    nEval := 0;
    for i := 0 to cfg.nSamples
      invariant AllFound(Replies(oracle, f, q, i))
      invariant accepted == FoundPoints(Replies(oracle, f, q, i))
      invariant acceptedVal == FoundValues(Replies(oracle, f, q, i))
      invariant nEval == SumEvals(Replies(oracle, f, q, i))
    {
      ghost var before := Replies(oracle, f, q, i);
      assert Replies(oracle, f, q, i + 1) == before + [oracle(f, q, i)];
      var reply := oracle(f, q, i);
      match reply {
        case OracleTimeout =>
          assert !Replies(oracle, f, q, cfg.nSamples)[i].Found?;
          outcome := TimedOut;
          return;
        case Found(x, y, evalNum) =>
          SumEvalsSnoc(before, reply);
          nEval := nEval + evalNum;
          accepted := accepted + [x];
          acceptedVal := acceptedVal + [y];
      }
    }
    outcome := Done(accepted, acceptedVal, nEval as real);
  }
}
