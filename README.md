# goperf core, modelled in Dafny

goperf is an HTTP load tester. A fixed number of workers send requests to one
target until a shared deadline passes. A single aggregation loop folds every
worker outcome into one `Result`: counts, two histograms and the latency list.
Afterwards the report computes the average and the nearest-rank P50/P90/P99
latencies. This project models three sequential parts of that program:

- `config.dfy` (module `Config`) holds the run configuration. It has the
  seven-method allow-list, the fixed-order validation chain, and the defaults
  that `Parse` fills in (GET, 10 workers, 10 s, 10 s). On failure `Parse`
  returns the zero configuration beside the error. This code is pure, so it is
  written as functions and lemmas.
- `engine.dfy` (module `Engine`) models the aggregation loop of `engine.Run`.
  `Result` is a class whose fields the loop updates in place. The loop's
  invariant ties those fields to `Fold`, a functional fold over the outcomes
  received so far. Lemmas about `Fold` state the counting invariants.
- `report.dfy` (module `Report`) models `Compute` and `percentileIndex`.
  `Compute` is a method: it copies the latencies into a fresh array, sorts the
  copy in place, and sums it in a loop. It is proved equal to `StatsOf`, which
  is defined through `SortedCopy`, an independent functional insertion sort.
  The lemmas about `StatsOf` give the ordering, membership, bounds and the
  exact test values.
- `wrappers.dfy` holds the `Option` type.

Durations are `int` nanosecond counts, as Go's `time.Duration` is.
`Second` and `Millisecond` are 10^9 and 10^6. Go divides durations with
truncation toward zero, so the average uses `TruncDiv` rather than Dafny's
Euclidean `/`. The nearest-rank index `ceil(p/100 * n) - 1` is computed
exactly as `(p * n + 99) / 100 - 1`.

The engine's outcome channel is an input `seq<Outcome>` in receive order.
The wall-clock span that `Run` measures with `time.Now`/`time.Since` is the
parameter `elapsed`. `Compute` takes the engine's `Result` and only reads it.
Its latencies are a Dafny sequence, which is a value, so the caller's
sequence cannot change. The fresh array plays the part of Go's private copy.

## Model

| member | source | states |
|---|---|---|
| `Config.Validate` | internal/config/config.go:53-70 | validation reports no error exactly when the URL is non-empty, the method is in the allow-list and concurrency, duration and timeout are all positive |
| `Config.ValidateReportsFirstFailure` | internal/config/config.go:54-69 | the error reported is that of the first failing guard in the order URL, method, concurrency, duration, timeout |
| `Config.FirstFailure` | internal/config/config.go:54-69 | a guard chain yields nothing iff every guard passes; otherwise it yields the error of a failing guard that only passing guards precede |
| `Config.ValidateRejects` | internal/config/config.go:54-68 | an empty URL gives the URL error; a method outside the allow-list, or concurrency, duration or timeout at most zero, each gives an error |
| `Config.WithDefaults` | internal/config/config.go:35-40 | unset flags take the defaults: empty URL, GET, 10 workers, 10 s duration, 10 s timeout; every given flag value is kept |
| `Config.Parse` | internal/config/config.go:32-51 | the error returned is exactly Validate's error for the defaulted configuration (so the first failing check decides it); no error iff that configuration is valid, and then it is returned; on any error the zero Config is returned beside it |
| `Config.ParseUrlOnly` | internal/config/config.go:36-40 | a non-empty URL alone yields GET, concurrency 10, duration 10 s, timeout 10 s and no error |
| `Config.ParseWithoutUrl` | internal/config/config.go:46-56 | a missing or empty URL gives the URL error and the zero Config, whatever else is set |
| `Config.ParseAllFlags` | internal/config/config_test.go:15-25 | all five flags given and valid yield exactly those values |
| `Config.ParseRejectsBadValues` | internal/config/config_test.go:43-56 | method BANANA is rejected with the method error; zero or negative concurrency is rejected with the concurrency error |
| `Engine.Result.constructor` | internal/engine/engine.go:61-64 | a new Result has zero counts, empty histograms, no latencies and zero duration |
| `Engine.Run` | internal/engine/engine.go:60-79 | after the loop the Result's fields equal the fold of all outcomes in receive order; succeeded + failed == total == number of outcomes; latencies are the outcomes' durations in order; duration is the measured span |
| `Engine.RecordClassifies` | internal/engine/engine.go:66-77 | one outcome adds one request and appends its latency; an error counts as failed and bumps its message in the error histogram, leaving every other message's count and the status codes unchanged; an error-free status of 400 or more counts as failed and bumps its code; a lower status counts as succeeded and bumps its code; in both error-free cases every other code's count and the error histogram are unchanged |
| `Engine.FoldCounts` | internal/engine/engine.go:65-78 | for any outcome stream: total == its length, failed == the number of failing outcomes, succeeded + failed == total, latencies == the durations in order |
| `Engine.FoldHistograms` | internal/engine/engine.go:67-76 | the error histogram counts exactly the outcomes with each error text; the status histogram counts exactly the error-free outcomes with each code; every present key has a positive count |
| `Engine.FoldHistogramTotal` | internal/engine/engine.go:65-78 | the status-code counts and the error counts together sum to the total number of requests |
| `Engine.SumValuesBump` | internal/engine/engine.go:69 | incrementing one key of a histogram raises the sum of its counts by exactly one |
| `Report.PercentileIndex` | internal/report/report.go:52-61 | for n >= 1 the index lies in [0, n-1]; for 0 < p <= 100 it is the nearest rank: index*100 < p*n <= (index+1)*100 |
| `Report.PercentileIndexMonotone` | internal/report/report.go:52-61 | a larger percentile never gives a smaller index |
| `Report.PercentileIndexOfHundred` | internal/report/report_test.go:29-32 | for n = 100 the indices of P50, P90, P99 are 49, 89, 98 |
| `Report.TruncDiv` | internal/report/report.go:42 | duration division truncates toward zero: for a non-negative total q*b <= a < q*b + b, for a negative one q*b - b < a <= q*b |
| `Report.SortedCopy` | internal/report/report.go:31-33 | the sorted copy is ascending, has the same length and is a permutation of the samples |
| `Report.SortInPlace` | internal/report/report.go:33 | sorting the private copy leaves it ascending and a permutation of what it held |
| `Report.SortedUnique` | internal/report/report.go:33 | two ascending arrangements of the same samples are equal, so the sort's result does not depend on the algorithm |
| `Report.SumPermutation` | internal/report/report.go:35-38 | summing the sorted copy gives the same total as summing the samples in their original order |
| `Report.Compute` | internal/report/report.go:26-48 | the returned Stats are StatsOf(latencies): zero for no samples, else the truncated mean and the nearest-rank entries of the sorted samples |
| `Report.StatsOfEmpty` | internal/report/report.go:27-29 | no latencies give average, P50, P90 and P99 all zero |
| `Report.StatsOrdered` | internal/report/report.go:43-45 | for any non-empty sample, P50 <= P90 <= P99 |
| `Report.StatsArePercentilesOfSamples` | internal/report/report.go:31-45 | each reported percentile is one of the input latencies |
| `Report.AverageWithinSamples` | internal/report/report.go:35-42 | the average lies between the smallest and the largest sample |
| `Report.StatsOfSingleton` | internal/report/report_test.go:65-80 | a single latency v gives average = P50 = P90 = P99 = v |
| `Report.SumRamp` | internal/report/report_test.go:14-18 | the latencies 1 ms .. n ms sum to n(n+1)/2 ms |
| `Report.StatsOfHundredMillis` | internal/report/report_test.go:13-49 | latencies 1 ms .. 100 ms give P50 = 50 ms, P90 = 90 ms, P99 = 99 ms and average 50.5 ms |

## Left out

- internal/worker/worker.go is not part of this model. It covers the request loop, cancellation checks, body draining and the best-effort send that drops an outcome when the deadline and a full channel coincide. The engine receives whatever outcomes the workers deliver, as a sequence.
- The goroutines, `sync.WaitGroup`, channel creation and closing, and the `http.Transport`/`http.Client` setup in engine.go:29-58 are concurrency and I/O plumbing. They have no sequential behaviour to state.
- `TotalDuration` comes from the wall clock (`time.Now`/`time.Since`). `Engine.Run` takes it as the parameter `elapsed`.
- The `RPS` field of `Stats` (report.go:46) is a floating-point division of requests by seconds. It is omitted.
- `Print` (report.go:64-114) is text formatting with `fmt` and duration rounding, and it iterates maps in random order. It is omitted.
- Report.PercentileIndex: is the exact nearest rank, with the ceiling taken on integers. The source computes `math.Ceil(float64(p)/100*float64(n))` in double precision, where `p/100` is not exact, so for some percentiles the source's index differs at ordinary sample counts: 0.07 * 100 evaluates to 7.000000000000001, so the source gives index 7 for n = 100, p = 7 where the model gives 6 (likewise n = 25, p = 28; n = 50, p = 14; n = 100, p = 55). Compute only asks for p = 50, 90 and 99, where the tests' values agree with the model; floating-point rounding is not modelled.
- The flag library in `Parse` is not modelled. That covers `flag.NewFlagSet`, parsing strings such as "3s" into durations, and errors for unknown flags (config.go:33-44). The `Flags` record gives each flag as set or unset, with durations already in nanoseconds.
- Go's 64-bit integers are unbounded `int` here. The model does not capture overflow of the latency sum or of the counters.
- Error values are represented by their `Error()` text, used as an opaque histogram key.
