/**
 * Data model shared by the QuADS samplers and optimisation loop
 * (models/amp_sim/quads.py and the parameter records it uses).
 */
module QuadsTypes {
  /** A point of the search space, a D-vector. */
  type Point = seq<real>

  /** A D x D matrix, row-major. */
  type Matrix = seq<seq<real>>

  /** One batch of normal samples drawn by the classical sampler: `n_parallel = 100`
      points. */
  type Batch = b: seq<Point> | |b| == 100 witness seq(100, _ => [])

  /** A drawn point together with its objective value. */
  datatype Candidate = Candidate(point: Point, value: real)

  /** `CMAParam`: mean, covariance and step size of the search distribution. */
  datatype CmaParam = CmaParam(mean: Point, cov: Matrix, stepSize: real)

  /** `QuadsParam`: the acceptance threshold and the search distribution. */
  datatype QuadsParam = QuadsParam(threshold: real, cma: CmaParam)

  /** `CMAHyperParam(n_dim, n_samples)`. */
  datatype CmaHyperParam = CmaHyperParam(nDim: nat, nSamples: nat)

  /** `QuadsHyperParam`: quantile and threshold smoothing, plus the CMA hyper-parameters. */
  datatype QuadsHyperParam = QuadsHyperParam(quantile: real, smoothingTh: real, cma: CmaHyperParam)

  /** The entries of the run's `config` dictionary that the core reads. */
  datatype Config = Config(
    samplerType: string,
    nDim: nat,
    nDigits: nat,
    maxIter: int,
    nSamples: nat,
    terminateStepSize: real,
    terminateEps: real,
    optimalAmplifyNum: bool,
    quantile: real,
    smoothingTh: real,
    target: Point,
    evalLimitOneSample: int)

  /** What one sampler call produces: accepted points, their objective values and the
      evaluation cost reported for the call; or the `TimeoutError` it raised. */
  datatype SampleOutcome =
    | Done(points: seq<Point>, values: seq<real>, cost: real)
    | TimedOut

  /** The arguments of one `sampling_grover_oracle` call, other than the objective. */
  datatype OracleQuery = OracleQuery(
    mean: Point,
    cov: Matrix,
    nDigits: nat,
    nDim: nat,
    threshold: real,
    optimalAmplifyNum: bool,
    oracleEvalLimit: int)

  /** What one `sampling_grover_oracle` call gives back: a point, its value and the number
      of oracle evaluations spent; or a timeout. */
  datatype OracleReply =
    | Found(x: Point, y: real, evalNum: nat)
    | OracleTimeout

  /** Every entry of `m` multiplied by `c` (`cov * step_size ** 2`). */
  function ScaleMatrix(m: Matrix, c: real): (r: Matrix)
    ensures |r| == |m|
    ensures forall i :: 0 <= i < |m| ==> |r[i]| == |m[i]|
    ensures forall i, j :: 0 <= i < |m| && 0 <= j < |m[i]| ==> r[i][j] == m[i][j] * c
  {
    seq(|m|, i requires 0 <= i < |m| => seq(|m[i]|, j requires 0 <= j < |m[i]| => m[i][j] * c))
  }

  /** The points of a sequence of candidates, in order. */
  function PointsOf(cs: seq<Candidate>): (r: seq<Point>)
    ensures |r| == |cs|
    ensures forall i :: 0 <= i < |cs| ==> r[i] == cs[i].point
  {
    seq(|cs|, i requires 0 <= i < |cs| => cs[i].point)
  }

  /** The objective values of a sequence of candidates, in order. */
  function ValuesOf(cs: seq<Candidate>): (r: seq<real>)
    ensures |r| == |cs|
    ensures forall i :: 0 <= i < |cs| ==> r[i] == cs[i].value
  {
    seq(|cs|, i requires 0 <= i < |cs| => cs[i].value)
  }

  /** The objective evaluated on every point, in order (`func(sample)`). */
  function Evaluate(f: Point -> real, pts: seq<Point>): (r: seq<real>)
    ensures |r| == |pts|
    ensures forall i :: 0 <= i < |pts| ==> r[i] == f(pts[i])
  {
    seq(|pts|, i requires 0 <= i < |pts| => f(pts[i]))
  }
}
