/** The engine's aggregation of worker outcomes into one Result
    (internal/engine/engine.go). The worker pool, the shared deadline and the
    channel are not modelled: the outcomes arrive as a sequence, in the order
    the single aggregation loop receives them. */
module Engine {
  import opened Wrappers

  /** One request attempt as a worker reports it (worker.Result): elapsed
      nanoseconds, the HTTP status code, and the transport error's text when
      the request failed before a response arrived. */
  datatype Outcome = Outcome(duration: int, statusCode: int, error: Option<string>)

  /** An attempt counts as failed when it carries an error or a status of 400
      or more. */
  predicate IsFailure(o: Outcome) {
    o.error.Some? || o.statusCode >= 400
  }

  /** The counting fields of a Result, as one value. */
  datatype Tally = Tally(
    totalRequests: int,
    succeeded: int,
    failed: int,
    statusCodes: map<int, int>,
    errors: map<string, int>,
    latencies: seq<int>)

  const EmptyTally: Tally := Tally(0, 0, 0, map[], map[], [])

  /** Go's `m[k]++` on a map whose missing keys read as zero. */
  function Bump<K>(m: map<K, int>, k: K): map<K, int> {
    m[k := (if k in m then m[k] else 0) + 1]
  }

  /** The value `m[k]` has in Go: zero for a missing key. */
  function Get<K>(m: map<K, int>, k: K): int {
    if k in m then m[k] else 0
  }

  /** One iteration of the aggregation loop. */
  function Record(t: Tally, o: Outcome): Tally {
    var total, lats := t.totalRequests + 1, t.latencies + [o.duration];
    if o.error.Some? then
      Tally(total, t.succeeded, t.failed + 1, t.statusCodes, Bump(t.errors, o.error.value), lats)
    else if o.statusCode >= 400 then
      Tally(total, t.succeeded, t.failed + 1, Bump(t.statusCodes, o.statusCode), t.errors, lats)
    else
      Tally(total, t.succeeded + 1, t.failed, Bump(t.statusCodes, o.statusCode), t.errors, lats)
  }

  /** The aggregate after receiving `os` in order, starting from nothing. */
  function Fold(os: seq<Outcome>): Tally {
    if os == [] then EmptyTally else Record(Fold(os[..|os| - 1]), os[|os| - 1])
  }

  /** Receiving one more outcome is one more Record. */
  lemma FoldStep(os: seq<Outcome>, i: int)
    requires 0 <= i < |os|
    ensures Fold(os[..i + 1]) == Record(Fold(os[..i]), os[i])
  {
    assert os[..i + 1][..i] == os[..i];
  }

  /** The elapsed times of `os`, in order. */
  function Durations(os: seq<Outcome>): (ds: seq<int>)
    ensures |ds| == |os|
    ensures forall i :: 0 <= i < |os| ==> ds[i] == os[i].duration
  {
    seq(|os|, i requires 0 <= i < |os| => os[i].duration)
  }

  /** How many of `os` failed. */
  function Failures(os: seq<Outcome>): (n: nat)
    ensures n <= |os|
  {
    if os == [] then 0
    else Failures(os[..|os| - 1]) + (if IsFailure(os[|os| - 1]) then 1 else 0)
  }

  /** How many of `os` carried the transport error `msg`. */
  function ErrorCount(os: seq<Outcome>, msg: string): nat {
    if os == [] then 0
    else ErrorCount(os[..|os| - 1], msg) + (if os[|os| - 1].error == Some(msg) then 1 else 0)
  }

  /** How many of `os` got a response with status `code` (no transport error). */
  function StatusCount(os: seq<Outcome>, code: int): nat {
    if os == [] then 0
    else StatusCount(os[..|os| - 1], code)
         + (if os[|os| - 1].error.None? && os[|os| - 1].statusCode == code then 1 else 0)
  }

  /** The sum of a histogram's counts. */
  ghost function SumValues<K>(m: map<K, int>): int
    decreases |m|
  {
    if m == map[] then 0
    else
      var k :| k in m;
      m[k] + SumValues(m - {k})
  }

  /** Any key may be taken out first when summing a histogram. */
  lemma {:induction false} SumValuesRemove<K>(m: map<K, int>, k: K)
    requires k in m
    ensures SumValues(m) == m[k] + SumValues(m - {k})
    decreases |m|
  {
    var k' :| k' in m && SumValues(m) == m[k'] + SumValues(m - {k'});
    if k' != k {
      SumValuesRemove(m - {k'}, k);
      SumValuesRemove(m - {k}, k');
      assert m - {k'} - {k} == m - {k} - {k'};
    }
  }

  /** Bumping one key adds exactly one to the histogram's total. */
  lemma SumValuesBump<K>(m: map<K, int>, k: K)
    ensures SumValues(Bump(m, k)) == SumValues(m) + 1
  {
    var m' := Bump(m, k);
    SumValuesRemove(m', k);
    assert m' - {k} == m - {k};
    if k in m {
      SumValuesRemove(m, k);
    } else {
      assert m - {k} == m;
    }
  }

  /** How one outcome changes the aggregate: it is counted once, classified
      as failed by an error or a status of 400 or more and as succeeded
      otherwise, filed in exactly one histogram, and its latency appended. */
  lemma RecordClassifies(t: Tally, o: Outcome)
    ensures Record(t, o).totalRequests == t.totalRequests + 1
    ensures Record(t, o).latencies == t.latencies + [o.duration]
    ensures o.error.Some? ==>
      && Record(t, o).failed == t.failed + 1
      && Record(t, o).succeeded == t.succeeded
      && Get(Record(t, o).errors, o.error.value) == Get(t.errors, o.error.value) + 1
      && (forall m :: m != o.error.value ==> Get(Record(t, o).errors, m) == Get(t.errors, m))
      && Record(t, o).statusCodes == t.statusCodes
    ensures o.error.None? && o.statusCode >= 400 ==>
      && Record(t, o).failed == t.failed + 1
      && Record(t, o).succeeded == t.succeeded
      && Get(Record(t, o).statusCodes, o.statusCode) == Get(t.statusCodes, o.statusCode) + 1
      && (forall code :: code != o.statusCode ==> Get(Record(t, o).statusCodes, code) == Get(t.statusCodes, code))
      && Record(t, o).errors == t.errors
    ensures o.error.None? && o.statusCode < 400 ==>
      && Record(t, o).succeeded == t.succeeded + 1
      && Record(t, o).failed == t.failed
      && Get(Record(t, o).statusCodes, o.statusCode) == Get(t.statusCodes, o.statusCode) + 1
      && (forall code :: code != o.statusCode ==> Get(Record(t, o).statusCodes, code) == Get(t.statusCodes, code))
      && Record(t, o).errors == t.errors
  {
  }

  /** After any stream of outcomes: every outcome is counted once, as either
      succeeded or failed, and the latencies are the outcomes' durations in
      receive order. */
  lemma {:induction false} FoldCounts(os: seq<Outcome>)
    ensures Fold(os).totalRequests == |os|
    ensures Fold(os).failed == Failures(os)
    ensures Fold(os).succeeded + Fold(os).failed == Fold(os).totalRequests
    ensures Fold(os).latencies == Durations(os)
  {
    if os != [] {
      var init := os[..|os| - 1];
      FoldCounts(init);
      assert Durations(init) + [os[|os| - 1].duration] == Durations(os);
    }
  }

  /** Each histogram counts exactly the outcomes filed under its key: the
      error histogram by transport error text, the status histogram by the
      code of error-free outcomes; a key is present only with a positive count. */
  lemma {:induction false} FoldHistograms(os: seq<Outcome>)
    ensures forall msg :: Get(Fold(os).errors, msg) == ErrorCount(os, msg)
    ensures forall msg :: msg in Fold(os).errors ==> Fold(os).errors[msg] > 0
    ensures forall code :: Get(Fold(os).statusCodes, code) == StatusCount(os, code)
    ensures forall code :: code in Fold(os).statusCodes ==> Fold(os).statusCodes[code] > 0
  {
    if os != [] {
      FoldHistograms(os[..|os| - 1]);
    }
  }

  /** Every outcome lands in exactly one histogram: the counts of both
      together add up to the number of requests. */
  lemma {:induction false} FoldHistogramTotal(os: seq<Outcome>)
    ensures SumValues(Fold(os).statusCodes) + SumValues(Fold(os).errors) == Fold(os).totalRequests
  {
    if os != [] {
      var t := Fold(os[..|os| - 1]);
      var o := os[|os| - 1];
      FoldHistogramTotal(os[..|os| - 1]);
      if o.error.Some? {
        SumValuesBump(t.errors, o.error.value);
      } else {
        SumValuesBump(t.statusCodes, o.statusCode);
      }
    }
  }

  /** The Result of a run (engine.Result). Only the aggregation loop writes it. */
  class Result {
    var totalRequests: int
    var succeeded: int
    var failed: int
    var statusCodes: map<int, int>
    var errors: map<string, int>
    var latencies: seq<int>
    var totalDuration: int

    /** A result with zero counts, empty histograms and no latencies. */
    constructor ()
      ensures Snapshot() == EmptyTally && totalDuration == 0
    {
      totalRequests, succeeded, failed := 0, 0, 0;
      statusCodes, errors := map[], map[];
      latencies := [];
      totalDuration := 0;
    }

    /** The counting fields as a value. */
    function Snapshot(): Tally
      reads this
    {
      Tally(totalRequests, succeeded, failed, statusCodes, errors, latencies)
    }
  }

  /** The aggregation loop of engine.Run over the outcomes the channel
      delivers, in delivery order; `elapsed` stands for the wall-clock span
      the loop measures. */
  method Run(outcomes: seq<Outcome>, elapsed: int) returns (res: Result)
    ensures fresh(res)
    ensures res.Snapshot() == Fold(outcomes)
    ensures res.totalDuration == elapsed
    ensures res.succeeded + res.failed == res.totalRequests == |outcomes|
    ensures res.latencies == Durations(outcomes)
  {
    res := new Result();
    var i := 0;
    while i < |outcomes|
      invariant 0 <= i <= |outcomes|
      invariant res.Snapshot() == Fold(outcomes[..i])
    {
      var rr := outcomes[i];
      ghost var before := res.Snapshot();
      res.totalRequests := res.totalRequests + 1;
      if rr.error.Some? {
        res.failed := res.failed + 1;
        res.errors := Bump(res.errors, rr.error.value);
      } else if rr.statusCode >= 400 {
        res.failed := res.failed + 1;
        res.statusCodes := Bump(res.statusCodes, rr.statusCode);
      } else {
        res.succeeded := res.succeeded + 1;
        res.statusCodes := Bump(res.statusCodes, rr.statusCode);
      }
      res.latencies := res.latencies + [rr.duration];
      assert res.Snapshot() == Record(before, rr);
      FoldStep(outcomes, i);
      i := i + 1;
    }
    assert outcomes[..i] == outcomes;
    res.totalDuration := elapsed;
    FoldCounts(outcomes);
  }
}
