/** The run configuration of the load tester: its fields, the allow-list of
    HTTP methods, the fixed-order validation and the flag defaults that
    parsing fills in (internal/config/config.go). */
module Config {
  import opened Wrappers

  /** Durations are counts of nanoseconds, as Go's time.Duration is. */
  const Second: int := 1_000_000_000

  datatype Config = Config(
    url: string,
    httpMethod: string,
    concurrency: int,
    duration: int,
    timeout: int)

  /** Go's zero value Config{}. */
  const ZeroConfig: Config := Config("", "", 0, 0, 0)

  const ValidMethods: set<string> := {"GET", "POST", "PUT", "DELETE", "PATCH", "HEAD", "OPTIONS"}

  /** The five errors validation can report, each with the value it quotes. */
  datatype ConfigError =
    | UrlRequired
    | UnsupportedMethod(httpMethod: string)
    | NonPositiveConcurrency(concurrency: int)
    | NonPositiveDuration(duration: int)
    | NonPositiveTimeout(timeout: int)

  /** A configuration the core may run: every requirement holds. */
  predicate IsValid(c: Config) {
    && c.url != ""
    && c.httpMethod in ValidMethods
    && c.concurrency > 0
    && c.duration > 0
    && c.timeout > 0
  }

  /** One guard of the validation chain: whether it passes, and what it
      reports when it does not. */
  datatype Guard = Guard(passes: bool, err: ConfigError)

  /** The guards in the order validation evaluates them. */
  function Guards(c: Config): (gs: seq<Guard>)
    ensures |gs| == 5
  {
    [ Guard(c.url != "", UrlRequired),
      Guard(c.httpMethod in ValidMethods, UnsupportedMethod(c.httpMethod)),
      Guard(c.concurrency > 0, NonPositiveConcurrency(c.concurrency)),
      Guard(c.duration > 0, NonPositiveDuration(c.duration)),
      Guard(c.timeout > 0, NonPositiveTimeout(c.timeout)) ]
  }

  /** The error of the first guard in `gs` that fails, if any. */
  function FirstFailure(gs: seq<Guard>): (r: Option<ConfigError>)
    ensures r.None? <==> forall i :: 0 <= i < |gs| ==> gs[i].passes
    ensures r.Some? ==> exists i :: 0 <= i < |gs| && !gs[i].passes && gs[i].err == r.value
                                    && forall j :: 0 <= j < i ==> gs[j].passes
  {
    if gs == [] then None
    else if !gs[0].passes then Some(gs[0].err)
    else
      var r := FirstFailure(gs[1..]);
      assert r.Some? ==> exists i :: 0 <= i < |gs[1..]| && !gs[1..][i].passes && gs[1..][i].err == r.value
                                    && forall j :: 0 <= j < i ==> gs[1..][j].passes;
      assert r.Some? ==> exists i :: 1 <= i < |gs| && !gs[i].passes && gs[i].err == r.value
                                    && forall j :: 0 <= j < i ==> gs[j].passes;
      r
  }

  /** Evaluating the guards from position k on: guard k decides, or passes the
      question on to the rest. */
  lemma FirstFailureStep(gs: seq<Guard>, k: nat)
    requires k < |gs|
    ensures FirstFailure(gs[k..]) == if gs[k].passes then FirstFailure(gs[k + 1..]) else Some(gs[k].err)
  {
    assert gs[k..][1..] == gs[k + 1..];
  }

  /** Config.validate: nothing when the configuration is usable, otherwise the
      error of the first check that fails. */
  function Validate(c: Config): (r: Option<ConfigError>)
    ensures r.None? <==> IsValid(c)
  {
    if c.url == "" then Some(UrlRequired)
    else if c.httpMethod !in ValidMethods then Some(UnsupportedMethod(c.httpMethod))
    else if c.concurrency <= 0 then Some(NonPositiveConcurrency(c.concurrency))
    else if c.duration <= 0 then Some(NonPositiveDuration(c.duration))
    else if c.timeout <= 0 then Some(NonPositiveTimeout(c.timeout))
    else None
  }

  /** Validation reports exactly the first failing guard, in the order URL,
      method, concurrency, duration, timeout. */
  lemma ValidateReportsFirstFailure(c: Config)
    ensures Validate(c) == FirstFailure(Guards(c))
  {
    var gs := Guards(c);
    assert gs[5..] == [];
    FirstFailureStep(gs, 4);
    assert FirstFailure(gs[4..]) == if c.timeout > 0 then None else Some(NonPositiveTimeout(c.timeout));
    FirstFailureStep(gs, 3);
    FirstFailureStep(gs, 2);
    FirstFailureStep(gs, 1);
    FirstFailureStep(gs, 0);
    assert gs[0..] == gs;
  }

  /** Each requirement on its own is enough to reject a configuration. */
  lemma ValidateRejects(c: Config)
    ensures c.url == "" ==> Validate(c) == Some(UrlRequired)
    ensures c.httpMethod !in ValidMethods ==> Validate(c).Some?
    ensures c.concurrency <= 0 ==> Validate(c).Some?
    ensures c.duration <= 0 ==> Validate(c).Some?
    ensures c.timeout <= 0 ==> Validate(c).Some?
  {
  }

  /** The command-line flags as parsed: each is either given or left unset.
      Durations are already nanosecond counts. */
  datatype Flags = Flags(
    url: Option<string>,
    httpMethod: Option<string>,
    concurrency: Option<int>,
    duration: Option<int>,
    timeout: Option<int>)

  const NoFlags: Flags := Flags(None, None, None, None, None)

  function GetOr<T>(o: Option<T>, default: T): T {
    match o
    case Some(v) => v
    case None => default
  }

  /** The configuration a flag set describes, with the defaults of Parse:
      no URL, GET, 10 workers, 10 seconds, 10 seconds. */
  function WithDefaults(f: Flags): (c: Config)
    ensures f.url.Some? ==> c.url == f.url.value
    ensures f.url.None? ==> c.url == ""
    ensures f.httpMethod.Some? ==> c.httpMethod == f.httpMethod.value
    ensures f.httpMethod.None? ==> c.httpMethod == "GET"
    ensures f.concurrency.Some? ==> c.concurrency == f.concurrency.value
    ensures f.concurrency.None? ==> c.concurrency == 10
    ensures f.duration.Some? ==> c.duration == f.duration.value
    ensures f.duration.None? ==> c.duration == 10 * Second
    ensures f.timeout.Some? ==> c.timeout == f.timeout.value
    ensures f.timeout.None? ==> c.timeout == 10 * Second
  {
    Config(
      GetOr(f.url, ""),
      GetOr(f.httpMethod, "GET"),
      GetOr(f.concurrency, 10),
      GetOr(f.duration, 10 * Second),
      GetOr(f.timeout, 10 * Second))
  }

  /** What Parse returns: a configuration and possibly an error. */
  datatype Parsed = Parsed(cfg: Config, err: Option<ConfigError>)

  /** Parse, after the flag library: fill in the defaults, validate, and on
      failure hand back the zero configuration beside the error. */
  function Parse(f: Flags): (r: Parsed)
    ensures r.err == Validate(WithDefaults(f))
    ensures r.err.None? <==> IsValid(WithDefaults(f))
    ensures r.err.None? ==> r.cfg == WithDefaults(f)
    ensures r.err.Some? ==> r.cfg == ZeroConfig
  {
    var c := WithDefaults(f);
    match Validate(c)
    case Some(e) => Parsed(ZeroConfig, Some(e))
    case None => Parsed(c, None)
  }

  /** With only a URL given, the run uses GET, 10 workers, 10s and 10s. */
  lemma ParseUrlOnly(url: string)
    requires url != ""
    ensures Parse(NoFlags.(url := Some(url))) == Parsed(Config(url, "GET", 10, 10 * Second, 10 * Second), None)
  {
  }

  /** Without a URL, Parse fails with the URL error whatever else is given. */
  lemma ParseWithoutUrl(f: Flags)
    requires f.url.None? || f.url == Some("")
    ensures Parse(f) == Parsed(ZeroConfig, Some(UrlRequired))
  {
  }

  /** All five flags given and valid: the configuration is exactly those values. */
  lemma ParseAllFlags()
    ensures Parse(Flags(Some("http://example.com"), Some("POST"), Some(5), Some(3 * Second), Some(5 * Second)))
         == Parsed(Config("http://example.com", "POST", 5, 3 * Second, 5 * Second), None)
  {
  }

  /** An unknown method, zero or negative concurrency are each rejected. */
  lemma ParseRejectsBadValues(url: string, n: int)
    requires url != "" && n <= 0
    ensures Parse(NoFlags.(url := Some(url), httpMethod := Some("BANANA"))) == Parsed(ZeroConfig, Some(UnsupportedMethod("BANANA")))
    ensures Parse(NoFlags.(url := Some(url), concurrency := Some(n))) == Parsed(ZeroConfig, Some(NonPositiveConcurrency(n)))
  {
  }
}
