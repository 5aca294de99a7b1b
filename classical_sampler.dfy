/**
 * The classical rejection sampler `get_samples_classical` (models/amp_sim/quads.py).
 *
 * The random normal batches are an input: `batches[k]` is the k-th batch of
 * 100 points (`n_parallel`) the call draws, and scoring a batch pairs every point with its
 * objective value. The specification is a closed form over the scored batches: the
 * call succeeds exactly when the batches up to `LastBatch(limit)` hold at least `n`
 * accepted candidates; it then returns the first `n` accepted candidates in stream
 * order and counts 100 evaluations for every batch before the one that
 * completed the quota, plus the evaluations of that batch up to and including the last
 * accepted candidate it needed.
 */
module ClassicalSampler {
  import opened QuadsTypes

  /** A batch of points paired with their objective values (`sample`, `func(sample)`). */
  function Score(f: Point -> real, b: seq<Point>): (r: seq<Candidate>)
    ensures |r| == |b|
    ensures forall i :: 0 <= i < |b| ==> r[i] == Candidate(b[i], f(b[i]))
  {
    seq(|b|, i requires 0 <= i < |b| => Candidate(b[i], f(b[i])))
  }

  /** Every batch of the stream, scored. */
  function ScoreBatches(f: Point -> real, batches: seq<Batch>): (r: seq<seq<Candidate>>)
    ensures |r| == |batches|
    ensures forall k :: 0 <= k < |batches| ==> r[k] == Score(f, batches[k])
  {
    seq(|batches|, k requires 0 <= k < |batches| => Score(f, batches[k]))
  }

  /** Each scored batch has 100 candidates. */
  predicate WellSized(cs: seq<seq<Candidate>>)
  {
    forall k :: 0 <= k < |cs| ==> |cs[k]| == 100
  }

  /** Every candidate's value is strictly below `th`. */
  predicate AllBelow(b: seq<Candidate>, th: real)
  {
    forall i :: 0 <= i < |b| ==> b[i].value < th
  }

  /** Every candidate carries the objective value of its point. */
  predicate ScoredBy(f: Point -> real, b: seq<Candidate>)
  {
    forall i :: 0 <= i < |b| ==> b[i].value == f(b[i].point)
  }

  /** Positions, in increasing order, of the candidates among the first `m` of `b` whose
      value is below `th` (`np.where(func_val < threshold)[0]` on that prefix). */
  function AcceptIndicesUpTo(b: seq<Candidate>, th: real, m: nat): (r: seq<nat>)
    requires m <= |b|
    ensures |r| <= m
  {
    if m == 0 then []
    else AcceptIndicesUpTo(b, th, m - 1) + (if b[m - 1].value < th then [m - 1] else [])
  }

  /** The accepted positions of a whole batch. */
  function AcceptIndices(b: seq<Candidate>, th: real): (r: seq<nat>)
    ensures |r| <= |b|
  {
    AcceptIndicesUpTo(b, th, |b|)
  }

  /** The accepted candidates of a batch, in batch order (`sample[accept_flag]`). */
  function Accepts(b: seq<Candidate>, th: real): (r: seq<Candidate>)
    ensures |r| == |AcceptIndices(b, th)|
  {
    var idx := AcceptIndices(b, th);
    AcceptIndicesBounds(b, th, |b|);
    seq(|idx|, j requires 0 <= j < |idx| => b[idx[j]])
  }

  /** Every position `AcceptIndicesUpTo` lists lies below `m` and holds a candidate below
      the threshold. */
  lemma {:induction false} AcceptIndicesBounds(b: seq<Candidate>, th: real, m: nat)
    requires m <= |b|
    ensures forall j :: 0 <= j < |AcceptIndicesUpTo(b, th, m)| ==>
      AcceptIndicesUpTo(b, th, m)[j] < m && b[AcceptIndicesUpTo(b, th, m)[j]].value < th
  {
    if m > 0 {
      var r := AcceptIndicesUpTo(b, th, m);
      var r' := AcceptIndicesUpTo(b, th, m - 1);
      AcceptIndicesBounds(b, th, m - 1);
      forall j | 0 <= j < |r|
        ensures r[j] < m && b[r[j]].value < th
      {
        if j < |r'| {
          assert r[j] == r'[j];
        } else {
          assert b[m - 1].value < th && r[j] == m - 1;
        }
      }
    }
  }

  /** `AcceptIndicesUpTo` lists its positions in strictly increasing order. */
  lemma {:induction false} AcceptIndicesSorted(b: seq<Candidate>, th: real, m: nat)
    requires m <= |b|
    ensures forall j, j' :: 0 <= j < j' < |AcceptIndicesUpTo(b, th, m)| ==>
      AcceptIndicesUpTo(b, th, m)[j] < AcceptIndicesUpTo(b, th, m)[j']
  {
    if m > 0 {
      var r := AcceptIndicesUpTo(b, th, m);
      var r' := AcceptIndicesUpTo(b, th, m - 1);
      AcceptIndicesSorted(b, th, m - 1);
      AcceptIndicesBounds(b, th, m - 1);
      forall j, j' | 0 <= j < j' < |r|
        ensures r[j] < r[j']
      {
        assert r[j] == r'[j];
        if j' < |r'| {
          assert r[j'] == r'[j'];
        } else {
          assert r[j'] == m - 1;
        }
      }
    }
  }

  /** Every position below `m` holding a candidate below the threshold is listed by
      `AcceptIndicesUpTo`. */
  lemma {:induction false} AcceptIndicesComplete(b: seq<Candidate>, th: real, m: nat)
    requires m <= |b|
    ensures forall i :: 0 <= i < m && b[i].value < th ==> i in AcceptIndicesUpTo(b, th, m)
  {
    if m > 0 {
      var r := AcceptIndicesUpTo(b, th, m);
      var r' := AcceptIndicesUpTo(b, th, m - 1);
      AcceptIndicesComplete(b, th, m - 1);
      assert r == r' + (if b[m - 1].value < th then [m - 1] else []);
      forall i | 0 <= i < m && b[i].value < th
        ensures i in r
      {
        if i < m - 1 {
          assert i in r';
        }
      }
    }
  }

  /** The accepted positions of a batch are, in strictly increasing order, exactly the
      positions of its candidates below the threshold (`np.sort(np.where(accept_flag)[0])`
      is `np.where(accept_flag)[0]` itself). */
  lemma {:induction false} AcceptIndicesSpec(b: seq<Candidate>, th: real)
    ensures var r := AcceptIndices(b, th);
      && (forall j :: 0 <= j < |r| ==> 0 <= r[j] < |b| && b[r[j]].value < th)
      && (forall j, j' :: 0 <= j < j' < |r| ==> r[j] < r[j'])
      && (forall i :: 0 <= i < |b| && b[i].value < th ==> i in r)
  {
    AcceptIndicesBounds(b, th, |b|);
    AcceptIndicesSorted(b, th, |b|);
    AcceptIndicesComplete(b, th, |b|);
  }

  /** Every accepted candidate is below the threshold and is a candidate of the batch. */
  lemma {:induction false} AcceptsBelow(b: seq<Candidate>, th: real)
    ensures AllBelow(Accepts(b, th), th)
    ensures forall j :: 0 <= j < |Accepts(b, th)| ==> Accepts(b, th)[j] in b
  {
    var idx := AcceptIndices(b, th);
    AcceptIndicesBounds(b, th, |b|);
    forall j | 0 <= j < |Accepts(b, th)|
      ensures Accepts(b, th)[j].value < th && Accepts(b, th)[j] in b
    {
      assert Accepts(b, th)[j] == b[idx[j]];
    }
  }

  /** The accepted candidates of a scored batch carry their points' objective values. */
  lemma {:induction false} AcceptsScored(f: Point -> real, b: seq<Candidate>, th: real)
    requires ScoredBy(f, b)
    ensures ScoredBy(f, Accepts(b, th))
  {
    var idx := AcceptIndices(b, th);
    AcceptIndicesBounds(b, th, |b|);
    forall j | 0 <= j < |Accepts(b, th)|
      ensures Accepts(b, th)[j].value == f(Accepts(b, th)[j].point)
    {
      assert Accepts(b, th)[j] == b[idx[j]];
    }
  }

  /** The accepted candidates of every scored batch, batch by batch. */
  function AcceptsAll(cs: seq<seq<Candidate>>, th: real): (r: seq<seq<Candidate>>)
    ensures |r| == |cs|
    ensures forall k :: 0 <= k < |cs| ==> r[k] == Accepts(cs[k], th)
  {
    seq(|cs|, k requires 0 <= k < |cs| => Accepts(cs[k], th))
  }

  /** No batch accepts more than 100 candidates. */
  predicate Bounded(acs: seq<seq<Candidate>>)
  {
    forall k :: 0 <= k < |acs| ==> |acs[k]| <= 100
  }

  /** The stream layer below works on `acs`, the accepted candidates of each batch in
      turn (`AcceptsAll` of the scored batches). */

  /** The accepted candidates of batches `0 .. k-1`, earlier batches first. */
  function AcceptedUpTo(acs: seq<seq<Candidate>>, k: nat): seq<Candidate>
    requires k <= |acs|
  {
    if k == 0 then [] else AcceptedUpTo(acs, k - 1) + acs[k - 1]
  }

  /** Batches `0 .. k` together hold at least `n` accepted candidates. */
  predicate Full(acs: seq<seq<Candidate>>, n: nat, k: nat)
    requires k < |acs|
  {
    |AcceptedUpTo(acs, k + 1)| >= n
  }

  /** The index of the batch after which a batch that does not complete the quota raises
      the timeout: batch `k` leaves `EvalsAfter(k)` evaluations, which exceed `limit`
      exactly when `k >= LastBatch(limit)` (lemma `TimeoutPosition`). */
  function LastBatch(limit: int): nat
  {
    if limit < 0 then 0 else limit / 100
  }

  /** The evaluations counted once batches `0 .. k` have all been counted in full. */
  function EvalsAfter(k: nat): nat
  {
    100 * (k + 1)
  }

  /** The call completes its quota before any timeout. */
  predicate Succeeds(acs: seq<seq<Candidate>>, n: nat, limit: int)
    requires LastBatch(limit) < |acs|
  {
    Full(acs, n, LastBatch(limit))
  }

  /** The first batch index, from `k` on, at which the quota is complete; batch `k - 1`
      must not complete it. Since `Full` is monotone (lemma `FullMonotone`), this is the
      first completing batch overall (lemma `FinalBatchFirst`). */
  function FirstFull(acs: seq<seq<Candidate>>, n: nat, k: nat, bound: nat): (r: nat)
    requires k <= bound < |acs| && Full(acs, n, bound)
    requires k == 0 || !Full(acs, n, k - 1)
    ensures k <= r <= bound && Full(acs, n, r)
    ensures r == 0 || !Full(acs, n, r - 1)
    decreases bound - k
  {
    if Full(acs, n, k) then k else FirstFull(acs, n, k + 1, bound)
  }

  /** The batch that completes the quota (the one the loop `break`s in). */
  function FinalBatch(acs: seq<seq<Candidate>>, n: nat, limit: int): (r: nat)
    requires LastBatch(limit) < |acs| && Succeeds(acs, n, limit)
    ensures r <= LastBatch(limit) && Full(acs, n, r)
    ensures r == 0 || !Full(acs, n, r - 1)
  {
    FirstFull(acs, n, 0, LastBatch(limit))
  }

  /** Accepted candidates still needed when the final batch is drawn. */
  function Needed(acs: seq<seq<Candidate>>, n: nat, limit: int): (r: nat)
    requires n >= 1 && LastBatch(limit) < |acs| && Succeeds(acs, n, limit)
    ensures var k := FinalBatch(acs, n, limit);
      1 <= r <= |acs[k]| && r == n - |AcceptedUpTo(acs, k)|
  {
    n - |AcceptedUpTo(acs, FinalBatch(acs, n, limit))|
  }

  /** The candidates the call returns: everything accepted before the final batch, then
      the first `Needed` accepted candidates of the final batch. */
  function FirstAccepts(acs: seq<seq<Candidate>>, n: nat, limit: int): (r: seq<Candidate>)
    requires n >= 1 && LastBatch(limit) < |acs| && Succeeds(acs, n, limit)
    ensures |r| == n
  {
    var k := FinalBatch(acs, n, limit);
    AcceptedUpTo(acs, k) + acs[k][..Needed(acs, n, limit)]
  }

  /** Accepted candidates keep stream order: the accepts of the first `j` batches are a
      prefix of those of the first `k` batches. */
  lemma {:induction false} AcceptedPrefix(acs: seq<seq<Candidate>>, j: nat, k: nat)
    requires j <= k <= |acs|
    ensures AcceptedUpTo(acs, j) <= AcceptedUpTo(acs, k)
  {
    if j < k {
      AcceptedPrefix(acs, j, k - 1);
    }
  }

  /** Once some batch completes the quota, every later batch does too. */
  lemma {:induction false} FullMonotone(acs: seq<seq<Candidate>>, n: nat, j: nat, k: nat)
    requires j <= k < |acs| && Full(acs, n, j)
    ensures Full(acs, n, k)
  {
    AcceptedPrefix(acs, j + 1, k + 1);
  }

  /** No batch before the final one completes the quota. */
  lemma {:induction false} FinalBatchFirst(acs: seq<seq<Candidate>>, n: nat, limit: int)
    requires LastBatch(limit) < |acs| && Succeeds(acs, n, limit)
    ensures forall j :: 0 <= j < FinalBatch(acs, n, limit) ==> !Full(acs, n, j)
  {
    var r := FinalBatch(acs, n, limit);
    forall j | 0 <= j < r
      ensures !Full(acs, n, j)
    {
      if Full(acs, n, j) {
        FullMonotone(acs, n, j, r - 1);
      }
    }
  }

  /** At most 100 candidates are accepted per batch. */
  lemma {:induction false} AcceptedCount(acs: seq<seq<Candidate>>, k: nat)
    requires k <= |acs| && Bounded(acs)
    ensures |AcceptedUpTo(acs, k)| <= 100 * k
  {
    if k > 0 {
      AcceptedCount(acs, k - 1);
    }
  }

  /** Scored batches of 100 candidates accept at most 100 each. */
  lemma {:induction false} AcceptsAllBounded(cs: seq<seq<Candidate>>, th: real)
    requires WellSized(cs)
    ensures Bounded(AcceptsAll(cs, th))
  {
    forall k | 0 <= k < |cs|
      ensures |AcceptsAll(cs, th)[k]| <= 100
    {
      assert |AcceptIndices(cs[k], th)| <= |cs[k]|;
    }
  }

  /** A successful call returns the first `n` accepted candidates of the batch stream, in
      stream order: for every batch count `j` past the final batch, they are the first `n`
      candidates accepted in batches `0 .. j-1`. */
  lemma {:induction false} ClassicalStreamOrder(acs: seq<seq<Candidate>>, n: nat, limit: int, j: nat)
    requires n >= 1 && LastBatch(limit) < |acs| && Succeeds(acs, n, limit)
    requires FinalBatch(acs, n, limit) < j <= |acs|
    ensures |AcceptedUpTo(acs, j)| >= n
    ensures FirstAccepts(acs, n, limit) == AcceptedUpTo(acs, j)[..n]
  {
    var k := FinalBatch(acs, n, limit);
    var before := AcceptedUpTo(acs, k);
    var need := Needed(acs, n, limit);
    assert AcceptedUpTo(acs, k + 1) == before + acs[k];
    AcceptedPrefix(acs, k + 1, j);
    PrefixOfExtension(before, acs[k], AcceptedUpTo(acs, j), n);
  }

  /** When `all` extends `a + b` and `|a| <= n <= |a + b|`, the first `n` elements of
      `all` are `a` followed by the first `n - |a|` elements of `b`. */
  lemma {:induction false} PrefixOfExtension<T>(a: seq<T>, b: seq<T>, all: seq<T>, n: nat)
    requires a + b <= all && |a| <= n <= |a| + |b|
    ensures all[..n] == a + b[..n - |a|]
  {
    assert all[..n] == (a + b)[..n];
  }

  /** The finishing step of the loop: when batch `k` is the first to complete the quota,
      the call succeeds with `k` as its final batch, still needing `need` accepts from
      it. */
  lemma {:induction false} FinishStep(acs: seq<seq<Candidate>>, n: nat, limit: int, k: nat, need: nat)
    requires n >= 1 && k <= LastBatch(limit) < |acs| && Full(acs, n, k)
    requires |AcceptedUpTo(acs, k)| < n
    requires need == n - |AcceptedUpTo(acs, k)|
    ensures Succeeds(acs, n, limit) && FinalBatch(acs, n, limit) == k
    ensures 1 <= need <= |acs[k]| && Needed(acs, n, limit) == need
    ensures FirstAccepts(acs, n, limit) == AcceptedUpTo(acs, k) + acs[k][..need]
  {
    FullMonotone(acs, n, k, LastBatch(limit));
    var r := FinalBatch(acs, n, limit);
    if r < k {
      FullMonotone(acs, n, r, k - 1);
    } else if r > k {
      FullMonotone(acs, n, k, r - 1);
    }
    assert r == k;
  }

  /** A non-final batch `k` raises the timeout exactly when `k >= LastBatch(limit)`. */
  lemma {:induction false} TimeoutPosition(limit: int, k: nat)
    ensures (EvalsAfter(k) > limit) <==> (k >= LastBatch(limit))
  {
    if limit >= 0 {
      var t := limit / 100;
      assert 100 * t <= limit < 100 * (t + 1);
      if k >= t {
        assert 100 * (k + 1) >= 100 * (t + 1);
      } else {
        assert 100 * (k + 1) <= 100 * t;
      }
    }
  }

  /** Looking at more candidates of a batch only appends accepted positions. */
  lemma {:induction false} UpToPrefix(b: seq<Candidate>, th: real, m: nat, m': nat)
    requires m <= m' <= |b|
    ensures AcceptIndicesUpTo(b, th, m) <= AcceptIndicesUpTo(b, th, m')
    decreases m' - m
  {
    if m < m' {
      UpToPrefix(b, th, m, m' - 1);
    }
  }

  /** Up to and including the `j`-th accepted position among the first `m` candidates,
      exactly `j + 1` candidates are accepted. */
  lemma {:induction false} CountAtIndex(b: seq<Candidate>, th: real, m: nat, j: nat)
    requires m <= |b| && j < |AcceptIndicesUpTo(b, th, m)|
    ensures AcceptIndicesUpTo(b, th, m)[j] < m
    ensures |AcceptIndicesUpTo(b, th, AcceptIndicesUpTo(b, th, m)[j] + 1)| == j + 1
  {
    var r := AcceptIndicesUpTo(b, th, m);
    var r' := AcceptIndicesUpTo(b, th, m - 1);
    AcceptIndicesBounds(b, th, m);
    if j < |r'| {
      assert r[j] == r'[j];
      CountAtIndex(b, th, m - 1, j);
    } else {
      assert r[j] == m - 1;
    }
  }

  /** What `FinalBatchEvals` counts: with `m` one past the `need`-th accepted position,
      the first `m` candidates of the batch hold exactly `need` accepts, the first `need`
      of the batch, and the last of them is at `m - 1`. */
  lemma {:induction false} FinalBatchAccounting(b: seq<Candidate>, th: real, need: nat)
    requires 1 <= need <= |AcceptIndices(b, th)|
    ensures var m := AcceptIndices(b, th)[need - 1] + 1;
      && need <= m <= |b|
      && b[m - 1].value < th
      && AcceptIndicesUpTo(b, th, m) == AcceptIndices(b, th)[..need]
  {
    AcceptIndicesBounds(b, th, |b|);
    CountAtIndex(b, th, |b|, need - 1);
    var m := AcceptIndices(b, th)[need - 1] + 1;
    UpToPrefix(b, th, m, |b|);
  }

  /** The evaluations counted for the batch that completes the quota when `need` more
      accepts are wanted from it: up to and including its `need`-th accepted candidate
      (`np.sort(np.where(accept_flag)[0])[need - 1] + 1`). Lemma `FinalBatchAccounting`
      shows this is the shortest prefix of the batch holding `need` accepts. */
  function FinalBatchEvals(b: seq<Candidate>, th: real, need: nat): (m: nat)
    requires 1 <= need <= |AcceptIndices(b, th)|
    ensures need <= m <= |b|
  {
    FinalBatchAccounting(b, th, need);
    AcceptIndices(b, th)[need - 1] + 1
  }

  /** The empirical acceptance probability `p = n_samples / n_eval`. */
  function Ratio(n: nat, nEval: nat): real
    requires nEval >= 1
  {
    n as real / nEval as real
  }

  /** `n_eval_estimated`: the quantum-equivalent cost `(amplify(p) + 1) * n` of `n` accepts
      at acceptance probability `p = n / nEval`; `amplify` stands for
      `optimal_amplify_num`. */
  function EstimatedCost(amplify: real -> real, n: nat, nEval: nat): real
    requires nEval >= 1
  {
    (amplify(Ratio(n, nEval)) + 1.0) * n as real
  }

  /** The exact number of objective evaluations the call spends: 100 for every
      batch before the final one, then `FinalBatchEvals` for the final batch. */
  function ExactEvals(cs: seq<seq<Candidate>>, th: real, n: nat, limit: int): (r: nat)
    requires n >= 1 && LastBatch(limit) < |cs| && Succeeds(AcceptsAll(cs, th), n, limit)
    ensures r >= 1
  {
    var acs := AcceptsAll(cs, th);
    var k := FinalBatch(acs, n, limit);
    100 * k + FinalBatchEvals(cs[k], th, Needed(acs, n, limit))
  }

  /** The whole sampler call over the scored batches `cs`: a timeout, or the accepted
      points, their values and the estimated cost. */
  function ClassicalSpec(cs: seq<seq<Candidate>>, th: real, n: nat, limit: int,
                         amplify: real -> real): (r: SampleOutcome)
    requires n >= 1 && LastBatch(limit) < |cs|
    ensures r.Done? <==> Succeeds(AcceptsAll(cs, th), n, limit)
    ensures r.Done? ==> |r.points| == n && |r.values| == n
  {
    var acs := AcceptsAll(cs, th);
    if !Succeeds(acs, n, limit) then TimedOut
    else
      var acc := FirstAccepts(acs, n, limit);
      Done(PointsOf(acc), ValuesOf(acc), EstimatedCost(amplify, n, ExactEvals(cs, th, n, limit)))
  }

  /** Every accepted candidate of the stream is below the threshold. */
  lemma {:induction false} AcceptedBelow(cs: seq<seq<Candidate>>, th: real, k: nat)
    requires k <= |cs|
    ensures AllBelow(AcceptedUpTo(AcceptsAll(cs, th), k), th)
  {
    if k > 0 {
      var before := AcceptedUpTo(AcceptsAll(cs, th), k - 1);
      var last := Accepts(cs[k - 1], th);
      var all: seq<Candidate> := before + last;
      AcceptedBelow(cs, th, k - 1);
      AcceptsBelow(cs[k - 1], th);
      assert AcceptedUpTo(AcceptsAll(cs, th), k) == all;
      forall i | 0 <= i < |all|
        ensures all[i].value < th
      {
        if i < |before| {
          assert all[i] == before[i];
        } else {
          assert all[i] == last[i - |before|];
        }
      }
    }
  }

  /** When the batches were scored by `f`, every accepted candidate of the stream carries
      its point's objective value. */
  lemma {:induction false} AcceptedScored(cs: seq<seq<Candidate>>, th: real, f: Point -> real, k: nat)
    requires k <= |cs|
    requires forall j :: 0 <= j < k ==> ScoredBy(f, cs[j])
    ensures ScoredBy(f, AcceptedUpTo(AcceptsAll(cs, th), k))
  {
    if k > 0 {
      var before := AcceptedUpTo(AcceptsAll(cs, th), k - 1);
      var last := Accepts(cs[k - 1], th);
      var all: seq<Candidate> := before + last;
      AcceptedScored(cs, th, f, k - 1);
      AcceptsScored(f, cs[k - 1], th);
      assert AcceptedUpTo(AcceptsAll(cs, th), k) == all;
      forall i | 0 <= i < |all|
        ensures all[i].value == f(all[i].point)
      {
        if i >= |before| {
          assert all[i] == last[i - |before|];
        }
      }
    }
  }

  /** A successful call returns exactly `n` points, all strictly below the threshold;
      each value is the objective value of its point. */
  lemma {:induction false} ClassicalSamplesAccepted(f: Point -> real, batches: seq<Batch>, th: real, n: nat, limit: int,
                                 amplify: real -> real)
    requires n >= 1 && LastBatch(limit) < |batches|
    ensures var r := ClassicalSpec(ScoreBatches(f, batches), th, n, limit, amplify);
      r.Done? ==>
        && |r.points| == n
        && r.values == Evaluate(f, r.points)
        && forall i :: 0 <= i < n ==> r.values[i] < th
  {
    var cs := ScoreBatches(f, batches);
    var acs := AcceptsAll(cs, th);
    if Succeeds(acs, n, limit) {
      var k := FinalBatch(acs, n, limit);
      var before := AcceptedUpTo(acs, k);
      var last := acs[k];
      var all := FirstAccepts(acs, n, limit);
      assert all == before + last[..Needed(acs, n, limit)];
      assert ScoresScored(f, batches, k + 1);
      AcceptedBelow(cs, th, k);
      AcceptedScored(cs, th, f, k);
      AcceptsBelow(cs[k], th);
      AcceptsScored(f, cs[k], th);
      TakeAppendKeeps(f, th, before, last, Needed(acs, n, limit));
      ScoredEvaluate(f, all);
    }
  }

  /** The first `k` scored batches pair every point with its objective value. */
  predicate ScoresScored(f: Point -> real, batches: seq<Batch>, k: nat)
    requires k <= |batches|
  {
    forall j :: 0 <= j < k ==> ScoredBy(f, ScoreBatches(f, batches)[j])
  }

  /** Appending a prefix of `b` to `a` keeps "below the threshold" and "scored by `f`"
      when both `a` and `b` have them. */
  lemma {:induction false} TakeAppendKeeps(f: Point -> real, th: real, a: seq<Candidate>,
                                           b: seq<Candidate>, m: nat)
    requires m <= |b|
    ensures AllBelow(a, th) && AllBelow(b, th) ==> AllBelow(a + b[..m], th)
    ensures ScoredBy(f, a) && ScoredBy(f, b) ==> ScoredBy(f, a + b[..m])
  {
    var c := a + b[..m];
    forall i | |a| <= i < |c|
      ensures c[i] == b[i - |a|]
    {
    }
  }

  /** Candidates scored by `f` have as values the objective evaluated on their points. */
  lemma {:induction false} ScoredEvaluate(f: Point -> real, s: seq<Candidate>)
    requires ScoredBy(f, s)
    ensures ValuesOf(s) == Evaluate(f, PointsOf(s))
  {
    assert forall i :: 0 <= i < |s| ==> ValuesOf(s)[i] == Evaluate(f, PointsOf(s))[i];
  }

  /** The evaluation count is at least the number of accepted points, so the empirical
      acceptance probability `n / n_eval` lies in `(0, 1]`. */
  lemma {:induction false} ClassicalEvalBounds(cs: seq<seq<Candidate>>, th: real, n: nat, limit: int)
    requires n >= 1 && LastBatch(limit) < |cs| && WellSized(cs)
    requires Succeeds(AcceptsAll(cs, th), n, limit)
    ensures n <= ExactEvals(cs, th, n, limit)
    ensures 0.0 < Ratio(n, ExactEvals(cs, th, n, limit)) <= 1.0
  {
    var acs := AcceptsAll(cs, th);
    var k := FinalBatch(acs, n, limit);
    AcceptsAllBounded(cs, th);
    AcceptedCount(acs, k);
    RatioInUnitInterval(n, ExactEvals(cs, th, n, limit));
  }

  /** `n / e` lies in `(0, 1]` when `1 <= n <= e`. */
  lemma {:induction false} RatioInUnitInterval(n: nat, e: nat)
    requires 1 <= n <= e
    ensures 0.0 < Ratio(n, e) <= 1.0
  {
    assert n as real <= e as real;
  }

  /** The cost a successful call reports is `(optimal_amplify_num(p) + 1) * n` at the
      empirical acceptance probability `p = n / n_eval` of its exact evaluation count; it
      is at least `n` whenever the amplification count is non-negative. */
  lemma {:induction false} ClassicalCost(cs: seq<seq<Candidate>>, th: real, n: nat, limit: int,
                                         amplify: real -> real)
    requires n >= 1 && LastBatch(limit) < |cs|
    requires Succeeds(AcceptsAll(cs, th), n, limit)
    ensures ClassicalSpec(cs, th, n, limit, amplify).Done?
    ensures ClassicalSpec(cs, th, n, limit, amplify).cost ==
      (amplify(Ratio(n, ExactEvals(cs, th, n, limit))) + 1.0) * n as real
    ensures amplify(Ratio(n, ExactEvals(cs, th, n, limit))) >= 0.0 ==>
      ClassicalSpec(cs, th, n, limit, amplify).cost >= n as real
  {
    EstimatedCostProduct(amplify, n, ExactEvals(cs, th, n, limit));
  }

  /** `EstimatedCost` is the product `(amplify(p) + 1) * n`, and at least `n` when the
      amplification count is non-negative. */
  lemma {:induction false} EstimatedCostProduct(amplify: real -> real, n: nat, e: nat)
    requires e >= 1
    ensures EstimatedCost(amplify, n, e) == (amplify(Ratio(n, e)) + 1.0) * n as real
    ensures amplify(Ratio(n, e)) >= 0.0 ==> EstimatedCost(amplify, n, e) >= n as real
  {
    var a := amplify(Ratio(n, e));
    if a >= 0.0 {
      assert (a + 1.0) * n as real == a * n as real + n as real;
    }
  }

  /** The timeout: a call times out exactly when no batch up to `LastBatch(limit)`
      completes the quota; then the last of them left more than `limit` evaluations. A
      call that succeeds never passed the limit after a non-final batch, and its final
      batch is never checked against the limit. */
  lemma {:induction false} ClassicalTimeout(cs: seq<seq<Candidate>>, th: real, n: nat, limit: int, amplify: real -> real)
    requires n >= 1 && LastBatch(limit) < |cs|
    ensures ClassicalSpec(cs, th, n, limit, amplify).TimedOut? <==>
      forall k :: 0 <= k <= LastBatch(limit) ==> !Full(AcceptsAll(cs, th), n, k)
    ensures ClassicalSpec(cs, th, n, limit, amplify).TimedOut? ==>
      EvalsAfter(LastBatch(limit)) > limit
    ensures ClassicalSpec(cs, th, n, limit, amplify).Done? ==>
      forall k :: 0 <= k < FinalBatch(AcceptsAll(cs, th), n, limit) ==> EvalsAfter(k) <= limit
  {
    var acs := AcceptsAll(cs, th);
    var t := LastBatch(limit);
    TimeoutPosition(limit, t);
    if Succeeds(acs, n, limit) {
      var fin := FinalBatch(acs, n, limit);
      forall k | 0 <= k < fin ensures EvalsAfter(k) <= limit {
        TimeoutPosition(limit, k);
      }
    } else {
      forall k | 0 <= k <= t ensures !Full(acs, n, k) {
        if Full(acs, n, k) { FullMonotone(acs, n, k, t); }
      }
    }
  }

  /** The outcome of a call whose batch `k` is the first to complete the quota, with
      `need` accepts still wanted from it: `accepted`, the accepts so far followed by the
      first `need` accepts of batch `k`, at the cost estimated from `nEval`, which is
      `100 * k` plus the evaluations up to the `need`-th accept of batch `k`. */
  lemma {:induction false} FinishOutcome(cs: seq<seq<Candidate>>, th: real, n: nat, limit: int,
                                         amplify: real -> real, k: nat, need: nat,
                                         accepted: seq<Candidate>, nEval: nat)
    requires n >= 1 && k <= LastBatch(limit) < |cs| && Full(AcceptsAll(cs, th), n, k)
    requires |AcceptedUpTo(AcceptsAll(cs, th), k)| < n
    requires need == n - |AcceptedUpTo(AcceptsAll(cs, th), k)|
    requires need <= |AcceptIndices(cs[k], th)|
    requires accepted == AcceptedUpTo(AcceptsAll(cs, th), k) + AcceptsAll(cs, th)[k][..need]
    requires nEval == 100 * k + AcceptIndices(cs[k], th)[need - 1] + 1
    ensures Succeeds(AcceptsAll(cs, th), n, limit)
    ensures ExactEvals(cs, th, n, limit) == nEval
    ensures ClassicalSpec(cs, th, n, limit, amplify) ==
      Done(PointsOf(accepted), ValuesOf(accepted), EstimatedCost(amplify, n, nEval))
  {
    var acs := AcceptsAll(cs, th);
    FinishStep(acs, n, limit, k, need);
    assert FirstAccepts(acs, n, limit) == accepted;
  }

  /** A call times out when batch `k`, reached without completing the quota and not
      completing it either, leaves more than `limit` evaluations. */
  lemma {:induction false} TimeoutOutcome(cs: seq<seq<Candidate>>, th: real, n: nat, limit: int, amplify: real -> real, k: nat)
    requires n >= 1 && k <= LastBatch(limit) < |cs| && EvalsAfter(k) > limit
    requires |AcceptedUpTo(AcceptsAll(cs, th), k + 1)| < n
    ensures ClassicalSpec(cs, th, n, limit, amplify) == TimedOut
  {
    TimeoutPosition(limit, k);
    assert LastBatch(limit) == k;
    assert !Succeeds(AcceptsAll(cs, th), n, limit);
  }

  /** One batch of the classical loop: evaluate the objective on the batch, find the
      positions below the threshold and select the accepted points with their values. */
  method AcceptBatch(f: Point -> real, batches: seq<Batch>, k: nat, th: real)
    returns (acceptIdx: seq<nat>, acc: seq<Candidate>)
    requires k < |batches|
    ensures acceptIdx == AcceptIndices(ScoreBatches(f, batches)[k], th)
    ensures acc == AcceptsAll(ScoreBatches(f, batches), th)[k]
    ensures forall j :: 0 <= j < |acceptIdx| ==>
      acceptIdx[j] < 100 && f(batches[k][acceptIdx[j]]) < th
    ensures forall j, j' :: 0 <= j < j' < |acceptIdx| ==> acceptIdx[j] < acceptIdx[j']
    ensures forall i :: 0 <= i < 100 && f(batches[k][i]) < th ==> i in acceptIdx
    ensures |acc| == |acceptIdx|
    ensures forall j :: 0 <= j < |acc| ==>
      acc[j] == Candidate(batches[k][acceptIdx[j]], f(batches[k][acceptIdx[j]]))
  {
    var sample := batches[k];
    ghost var b := ScoreBatches(f, batches)[k];
    assert b == Score(f, sample);
    var funcVal := Evaluate(f, sample);
    acceptIdx := AcceptIndices(Score(f, sample), th);
    AcceptIndicesBounds(b, th, |sample|);
    var acceptNum := |acceptIdx|;
    acc := seq(acceptNum, j requires 0 <= j < acceptNum => Candidate(sample[acceptIdx[j]], funcVal[acceptIdx[j]]));
    assert acc == Accepts(b, th);
    AcceptIndicesSpec(b, th);
  }

  /** `get_samples_classical`: pull batches, keep the accepted candidates, stop once `n`
      are accepted, and raise the timeout when a batch that did not complete the quota
      leaves more than `eval_limit_one_sample` evaluations. `batches` must be long enough
      to reach a verdict (the loop draws at most `LastBatch + 1` of them). `nEval` is the
      exact evaluation count the returned cost is estimated from. The accepted points
      and their values (`accepted`, `accepted_val`) are kept together as candidates. */
  method GetSamplesClassical(f: Point -> real, param: QuadsParam, cfg: Config, batches: seq<Batch>,
                             amplify: real -> real)
    returns (outcome: SampleOutcome, nEval: nat)
    requires cfg.nSamples >= 1 && LastBatch(cfg.evalLimitOneSample) < |batches|
    ensures outcome ==
      ClassicalSpec(ScoreBatches(f, batches), param.threshold, cfg.nSamples, cfg.evalLimitOneSample, amplify)
    ensures outcome.Done? ==>
      nEval == ExactEvals(ScoreBatches(f, batches), param.threshold, cfg.nSamples, cfg.evalLimitOneSample)
  {
    var n := cfg.nSamples;
    var th := param.threshold;
    var limit := cfg.evalLimitOneSample;
    ghost var cs := ScoreBatches(f, batches);
    ghost var acs := AcceptsAll(cs, th);
    var nSampled: nat := 0;
    nEval := 0;
    var accepted: seq<Candidate> := [];
    var k: nat := 0;
    while nSampled < n
      invariant k <= LastBatch(limit) && nSampled < n
      invariant accepted == AcceptedUpTo(acs, k) && nSampled == |accepted|
      invariant nEval == 100 * k
      decreases LastBatch(limit) - k
    {
      var acceptIdx, acc := AcceptBatch(f, batches, k, th);
      var acceptNum := |acc|;
      assert AcceptedUpTo(acs, k + 1) == accepted + acc;

      if acceptNum + nSampled >= n {
        var need := n - nSampled;
        assert |acc| == |acceptIdx|;
        nEval := nEval + acceptIdx[need - 1] + 1;
        accepted := accepted + acc[..need];
        FinishOutcome(cs, th, n, limit, amplify, k, need, accepted, nEval);
        break;
      }

      nEval := nEval + 100;
      nSampled := nSampled + acceptNum;
      accepted := accepted + acc;

      if nEval > limit {
        TimeoutOutcome(cs, th, n, limit, amplify, k);
        outcome := TimedOut;
        return;
      }
      assert k < LastBatch(limit) by { TimeoutPosition(limit, k); }
      k := k + 1;
    }
    outcome := Done(PointsOf(accepted), ValuesOf(accepted), EstimatedCost(amplify, n, nEval));
  }
}
