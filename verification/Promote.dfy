/**
 * The variance-aware promotion gate and its re-derivation from a sealed report. Floating-point
 * subtraction and the band's multiply-add are parameters, so the results hold for any rounding.
 */
module Promote {
  import opened Common

  /** A floating-point value: finite, or NaN or infinite. */
  datatype Num = Finite(value: real) | NonFinite

  /** `sub(c, b)` rounds `c - b`; `affine(d, k, s)` rounds `d + k * s`. */
  datatype Arithmetic = Arithmetic(sub: (real, real) -> Num, affine: (real, real, real) -> Num)

  const AGGREGATE := "eval_results.aggregate"

  function Canonical(metric: string): string {
    if metric == "aggregate" then AGGREGATE else metric
  }

  datatype EvalResults = EvalResults(benchmarks: map<string, Num>, aggregate: Num) {
    function Score(metric: string): Option<Num> {
      if Canonical(metric) == AGGREGATE then Some(aggregate)
      else if metric in benchmarks then Some(benchmarks[metric]) else None
    }
  }

  datatype Config = Config(
    headline: string, minDelta: Num, sigmaK: Num, sigmas: map<string, Num>, driftMustPass: bool)
  {
    /** The prior of a benchmark; the bare alias stands in for a missing headline prior. */
    function Sigma(benchmark: string): real {
      if benchmark in sigmas then Normalized(sigmas[benchmark])
      else if benchmark == AGGREGATE && "aggregate" in sigmas then Normalized(sigmas["aggregate"])
      else 0.0
    }
  }

  /** A malformed prior can never invert the band. */
  function Normalized(sigma: Num): (s: real)
    ensures s >= 0.0
  {
    if sigma.Finite? && sigma.value > 0.0 then sigma.value else 0.0
  }

  /** The half-width of the noise band, unless its arithmetic leaves the finite numbers. */
  function NoiseBand(m: Arithmetic, minDelta: Num, sigmaK: Num, sigma: Num): (band: Option<real>)
    ensures band.Some? <==> minDelta.Finite? && sigmaK.Finite? && sigma.Finite?
                            && m.affine(minDelta.value, sigmaK.value, sigma.value).Finite?
    ensures band.Some? ==>
              var width := m.affine(minDelta.value, sigmaK.value, sigma.value).value;
              band.value >= 0.0 && band.value >= width && (band.value == 0.0 || band.value == width)
  {
    if minDelta.NonFinite? || sigmaK.NonFinite? || sigma.NonFinite? then None
    else
      match m.affine(minDelta.value, sigmaK.value, sigma.value)
      case NonFinite => None
      case Finite(band) => Some(if band > 0.0 then band else 0.0)
  }

  datatype Side = Baseline | Candidate

  datatype Issue =
    | MissingMetric(side: Side, metric: string)
    | ReservedMetricName(side: Side, metric: string)
    | NonFiniteScore(side: Side, metric: string)
    | NonFiniteDelta(metric: string)
    | NonFiniteNoiseBand(metric: string)
    | NonFiniteParameter(parameter: string)
    | ConflictingAggregateSigma

  datatype Outcome = Outcome(
    name: string, baseline: Num, candidate: Num, delta: Num, sigma: Num, noiseBand: real, win: bool, regress: bool)

  datatype Report = Report(
    promote: bool, driftPass: bool, abPass: bool, evidenceValid: bool, issues: seq<Issue>, benchmarks: seq<Outcome>)

  // ---- What valid evidence is ----

  predicate ValidResults(r: EvalResults) {
    r.aggregate.Finite?
    && forall name | name in r.benchmarks :: Canonical(name) != AGGREGATE && r.benchmarks[name].Finite?
  }

  predicate AliasesAgree(cfg: Config) {
    "aggregate" in cfg.sigmas && AGGREGATE in cfg.sigmas ==>
      Normalized(cfg.sigmas["aggregate"]) == Normalized(cfg.sigmas[AGGREGATE])
  }

  predicate ValidConfig(cfg: Config) {
    cfg.minDelta.Finite? && cfg.sigmaK.Finite? && AliasesAgree(cfg)
  }

  /** The required metrics: the headline and every benchmark that either side supplies. */
  function Names(b: EvalResults, c: EvalResults, cfg: Config): set<string> {
    {Canonical(cfg.headline)} + set name | name in b.benchmarks.Keys + c.benchmarks.Keys && Canonical(name) != AGGREGATE
  }

  /** Both scores are there and finite, and so is everything computed from them. */
  predicate Comparable(m: Arithmetic, b: EvalResults, c: EvalResults, cfg: Config, name: string) {
    var x, y := b.Score(name), c.Score(name);
    x.Some? && y.Some? && x.value.Finite? && y.value.Finite?
    && m.sub(y.value.value, x.value.value).Finite?
    && NoiseBand(m, cfg.minDelta, cfg.sigmaK, Finite(cfg.Sigma(name))).Some?
  }

  function Delta(m: Arithmetic, b: EvalResults, c: EvalResults, cfg: Config, name: string): real
    requires Comparable(m, b, c, cfg, name)
  {
    m.sub(c.Score(name).value.value, b.Score(name).value.value).value
  }

  function Band(m: Arithmetic, b: EvalResults, c: EvalResults, cfg: Config, name: string): real
    requires Comparable(m, b, c, cfg, name)
  {
    NoiseBand(m, cfg.minDelta, cfg.sigmaK, Finite(cfg.Sigma(name))).value
  }

  ghost predicate ValidEvidence(m: Arithmetic, b: EvalResults, c: EvalResults, cfg: Config) {
    ValidResults(b) && ValidResults(c) && ValidConfig(cfg) && AllComparable(m, b, c, cfg, Names(b, c, cfg))
  }

  /** The decision rule: valid evidence, no regression, at least one win, and a clean drift gate. */
  ghost predicate Promotes(m: Arithmetic, b: EvalResults, c: EvalResults, driftExit: int, cfg: Config) {
    (!cfg.driftMustPass || driftExit == 0)
    && ValidEvidence(m, b, c, cfg)
    && (forall name | name in Names(b, c, cfg) :: Delta(m, b, c, cfg, name) >= -Band(m, b, c, cfg, name))
    && exists name :: name in Names(b, c, cfg) && Delta(m, b, c, cfg, name) > Band(m, b, c, cfg, name)
  }

  // ---- Why evidence is refused ----

  predicate IsReserved(r: EvalResults, name: string) {
    name in r.benchmarks && Canonical(name) == AGGREGATE
  }

  predicate IsNonFinite(r: EvalResults, name: string) {
    (name == AGGREGATE && r.aggregate.NonFinite?) || (name in r.benchmarks && r.benchmarks[name].NonFinite?)
  }

  predicate ResultIssue(r: EvalResults, side: Side, i: Issue) {
    (i.ReservedMetricName? && i.side == side && IsReserved(r, i.metric))
    || (i.NonFiniteScore? && i.side == side && IsNonFinite(r, i.metric))
  }

  predicate ConfigIssue(cfg: Config, i: Issue) {
    (i == NonFiniteParameter("ab_min_delta") && cfg.minDelta.NonFinite?)
    || (i == NonFiniteParameter("ab_sigma_k") && cfg.sigmaK.NonFinite?)
    || (i == ConflictingAggregateSigma && !AliasesAgree(cfg))
  }

  /** Both sides have a finite score. */
  predicate Scored(b: EvalResults, c: EvalResults, name: string) {
    b.Score(name).Some? && c.Score(name).Some? && b.Score(name).value.Finite? && c.Score(name).value.Finite?
  }

  predicate NameIssue(m: Arithmetic, b: EvalResults, c: EvalResults, cfg: Config, name: string, i: Issue) {
    (i == MissingMetric(Baseline, name) && b.Score(name).None?)
    || (i == MissingMetric(Candidate, name) && c.Score(name).None?)
    || (Scored(b, c, name)
        && var delta := m.sub(c.Score(name).value.value, b.Score(name).value.value);
           (i == NonFiniteDelta(name) && delta.NonFinite?)
           || (i == NonFiniteNoiseBand(name) && delta.Finite? && cfg.minDelta.Finite? && cfg.sigmaK.Finite?
               && NoiseBand(m, cfg.minDelta, cfg.sigmaK, Finite(cfg.Sigma(name))).None?))
  }

  /** Exactly the reasons for which the evidence of an evaluation is refused. */
  ghost predicate IsIssue(m: Arithmetic, b: EvalResults, c: EvalResults, cfg: Config, i: Issue) {
    ResultIssue(b, Baseline, i) || ResultIssue(c, Candidate, i) || ConfigIssue(cfg, i)
    || exists name :: name in Names(b, c, cfg) && NameIssue(m, b, c, cfg, name, i)
  }

  lemma ResultsAreValid(r: EvalResults, side: Side)
    ensures (forall i :: !ResultIssue(r, side, i)) <==> ValidResults(r)
  {
    if forall i :: !ResultIssue(r, side, i) {
      assert !ResultIssue(r, side, NonFiniteScore(side, AGGREGATE));
      forall name | name in r.benchmarks ensures Canonical(name) != AGGREGATE && r.benchmarks[name].Finite? {
        assert !ResultIssue(r, side, ReservedMetricName(side, name));
        assert !ResultIssue(r, side, NonFiniteScore(side, name));
      }
    }
  }

  lemma ConfigIsValid(cfg: Config)
    ensures (forall i :: !ConfigIssue(cfg, i)) <==> ValidConfig(cfg)
  {
    if forall i :: !ConfigIssue(cfg, i) {
      assert !ConfigIssue(cfg, NonFiniteParameter("ab_min_delta"));
      assert !ConfigIssue(cfg, NonFiniteParameter("ab_sigma_k"));
      assert !ConfigIssue(cfg, ConflictingAggregateSigma);
    }
  }

  lemma NameIsComparable(m: Arithmetic, b: EvalResults, c: EvalResults, cfg: Config, name: string)
    requires ValidResults(b) && ValidResults(c) && ValidConfig(cfg)
    ensures (forall i :: !NameIssue(m, b, c, cfg, name, i)) <==> Comparable(m, b, c, cfg, name)
  {
    if forall i :: !NameIssue(m, b, c, cfg, name, i) {
      assert !NameIssue(m, b, c, cfg, name, MissingMetric(Baseline, name));
      assert !NameIssue(m, b, c, cfg, name, MissingMetric(Candidate, name));
      assert !NameIssue(m, b, c, cfg, name, NonFiniteDelta(name));
      assert !NameIssue(m, b, c, cfg, name, NonFiniteNoiseBand(name));
    }
  }

  /** There is no issue exactly when the evidence is valid. */
  lemma NoIssueIffValid(m: Arithmetic, b: EvalResults, c: EvalResults, cfg: Config)
    ensures (forall i :: !IsIssue(m, b, c, cfg, i)) <==> ValidEvidence(m, b, c, cfg)
  {
    ResultsAreValid(b, Baseline);
    ResultsAreValid(c, Candidate);
    ConfigIsValid(cfg);
    if forall i :: !IsIssue(m, b, c, cfg, i) {
      assert forall i :: ResultIssue(b, Baseline, i) ==> IsIssue(m, b, c, cfg, i);
      assert forall i :: ResultIssue(c, Candidate, i) ==> IsIssue(m, b, c, cfg, i);
      assert forall i :: ConfigIssue(cfg, i) ==> IsIssue(m, b, c, cfg, i);
      forall name | name in Names(b, c, cfg) ensures Comparable(m, b, c, cfg, name) {
        assert forall i :: NameIssue(m, b, c, cfg, name, i) ==> IsIssue(m, b, c, cfg, i);
        NameIsComparable(m, b, c, cfg, name);
      }
    }
    if ValidEvidence(m, b, c, cfg) {
      forall name | name in Names(b, c, cfg) ensures forall i :: !NameIssue(m, b, c, cfg, name, i) {
        NameIsComparable(m, b, c, cfg, name);
      }
    }
  }

  // ---- Validation ----

  method ValidateResults(r: EvalResults, side: Side) returns (issues: seq<Issue>)
    ensures forall i :: i in issues <==> ResultIssue(r, side, i)
  {
    issues := if r.aggregate.NonFinite? then [NonFiniteScore(side, AGGREGATE)] else [];
    var rest := r.benchmarks.Keys;
    while rest != {}
      invariant rest <= r.benchmarks.Keys
      invariant forall i :: i in issues <==>
        ResultIssue(r, side, i)
        && ((i == NonFiniteScore(side, AGGREGATE) && r.aggregate.NonFinite?) || i.metric !in rest)
      decreases |rest|
    {
      var name :| name in rest;
      if Canonical(name) == AGGREGATE { issues := issues + [ReservedMetricName(side, name)]; }
      if r.benchmarks[name].NonFinite? { issues := issues + [NonFiniteScore(side, name)]; }
      rest := rest - {name};
    }
  }

  method ValidateConfig(cfg: Config) returns (issues: seq<Issue>)
    ensures forall i :: i in issues <==> ConfigIssue(cfg, i)
  {
    issues := [];
    if cfg.minDelta.NonFinite? { issues := issues + [NonFiniteParameter("ab_min_delta")]; }
    if cfg.sigmaK.NonFinite? { issues := issues + [NonFiniteParameter("ab_sigma_k")]; }
    if !AliasesAgree(cfg) { issues := issues + [ConflictingAggregateSigma]; }
  }

  // ---- The gate ----

  /** The sealed comparison of one metric. */
  ghost predicate OutcomeIs(m: Arithmetic, b: EvalResults, c: EvalResults, cfg: Config, o: Outcome) {
    Comparable(m, b, c, cfg, o.name)
    && o.delta == Finite(Delta(m, b, c, cfg, o.name)) && o.sigma == Finite(cfg.Sigma(o.name))
    && o.noiseBand == Band(m, b, c, cfg, o.name)
    && (o.win <==> o.delta.value > o.noiseBand) && (o.regress <==> o.delta.value < -o.noiseBand)
  }

  /** The comparison of one metric, or the reasons there is none. */
  method Compare(m: Arithmetic, b: EvalResults, c: EvalResults, cfg: Config, name: string)
    returns (o: Option<Outcome>, issues: seq<Issue>)
    ensures o.Some? <==> Comparable(m, b, c, cfg, name)
    ensures o.Some? ==> o.value.name == name && OutcomeIs(m, b, c, cfg, o.value)
    ensures forall i :: i in issues <==> NameIssue(m, b, c, cfg, name, i)
  {
    var x, y := b.Score(name), c.Score(name);
    o, issues := None, [];
    if x.None? { issues := issues + [MissingMetric(Baseline, name)]; }
    if y.None? { issues := issues + [MissingMetric(Candidate, name)]; }
    if x.None? || y.None? { return; }
    if x.value.NonFinite? || y.value.NonFinite? { return; }
    var delta := m.sub(y.value.value, x.value.value);
    if delta.NonFinite? {
      issues := issues + [NonFiniteDelta(name)];
      return;
    }
    var sigma := cfg.Sigma(name);
    if cfg.minDelta.NonFinite? || cfg.sigmaK.NonFinite? { return; }
    var band := NoiseBand(m, cfg.minDelta, cfg.sigmaK, Finite(sigma));
    if band.None? {
      issues := issues + [NonFiniteNoiseBand(name)];
      return;
    }
    o := Some(Outcome(name, x.value, y.value, delta, Finite(sigma), band.value,
                      delta.value > band.value, delta.value < -band.value));
  }

  /** The comparisons of the names done so far. */
  ghost predicate Compared(m: Arithmetic, b: EvalResults, c: EvalResults, cfg: Config, done: set<string>,
                           outcomes: seq<Outcome>) {
    (forall o | o in outcomes :: o.name in done && OutcomeIs(m, b, c, cfg, o))
    && forall name | name in done && Comparable(m, b, c, cfg, name) :: exists o :: o in outcomes && o.name == name
  }

  ghost predicate AllComparable(m: Arithmetic, b: EvalResults, c: EvalResults, cfg: Config, names: set<string>) {
    forall name | name in names :: Comparable(m, b, c, cfg, name)
  }

  /** Some of the names has the issue. */
  ghost predicate NamesIssue(m: Arithmetic, b: EvalResults, c: EvalResults, cfg: Config, names: seq<string>, i: Issue) {
    exists name :: name in names && NameIssue(m, b, c, cfg, name, i)
  }

  lemma ComparedOneMore(m: Arithmetic, b: EvalResults, c: EvalResults, cfg: Config, done: set<string>,
                        outcomes: seq<Outcome>,
                        name: string, o: Option<Outcome>)
    requires Compared(m, b, c, cfg, done, outcomes)
    requires o.Some? <==> Comparable(m, b, c, cfg, name)
    requires o.Some? ==> o.value.name == name && OutcomeIs(m, b, c, cfg, o.value)
    ensures Compared(m, b, c, cfg, done + {name}, if o.Some? then outcomes + [o.value] else outcomes)
  {
    if o.Some? {
      var more := outcomes + [o.value];
      assert forall p :: p in more <==> p in outcomes || p == o.value;
      forall x | x in done && Comparable(m, b, c, cfg, x) ensures exists p :: p in more && p.name == x {
        var p :| p in outcomes && p.name == x;
        assert p in more;
      }
    }
  }

  /** The required names: the headline first, then the others. */
  method RequiredNames(b: EvalResults, c: EvalResults, cfg: Config) returns (names: seq<string>)
    ensures forall name :: name in names <==> name in Names(b, c, cfg)
  {
    var headline := Canonical(cfg.headline);
    names := [headline];
    var supplied := b.benchmarks.Keys + c.benchmarks.Keys;
    var rest := supplied;
    while rest != {}
      invariant rest <= supplied
      invariant forall name :: name in names <==>
        name == headline || (name in supplied && name !in rest && Canonical(name) != AGGREGATE)
      decreases |rest|
    {
      var name :| name in rest;
      rest := rest - {name};
      if name != headline && Canonical(name) != AGGREGATE {
        names := names + [name];
      }
    }
  }

  method CompareAll(m: Arithmetic, b: EvalResults, c: EvalResults, cfg: Config, names: seq<string>)
    returns (outcomes: seq<Outcome>, issues: seq<Issue>)
    ensures Compared(m, b, c, cfg, Elements(names), outcomes)
    ensures forall i :: i in issues <==> NamesIssue(m, b, c, cfg, names, i)
  {
    outcomes, issues := [], [];
    for k := 0 to |names|
      invariant Compared(m, b, c, cfg, Elements(names[..k]), outcomes)
      invariant forall i :: i in issues <==> NamesIssue(m, b, c, cfg, names[..k], i)
    {
      var o, found := Compare(m, b, c, cfg, names[k]);
      ComparedOneMore(m, b, c, cfg, Elements(names[..k]), outcomes, names[k], o);
      ElementsGrow(names, k);
      NamesIssueGrows(m, b, c, cfg, names, k);
      if o.Some? {
        outcomes := outcomes + [o.value];
      }
      issues := issues + found;
    }
    assert names[..|names|] == names;
  }

  lemma NamesIssueGrows(m: Arithmetic, b: EvalResults, c: EvalResults, cfg: Config, names: seq<string>, k: nat)
    requires k < |names|
    ensures forall i :: NamesIssue(m, b, c, cfg, names[..k + 1], i)
              <==> NamesIssue(m, b, c, cfg, names[..k], i) || NameIssue(m, b, c, cfg, names[k], i)
  {
    assert names[..k + 1] == names[..k] + [names[k]];
    assert forall name :: name in names[..k + 1] <==> name in names[..k] || name == names[k];
  }

  ghost function Elements(names: seq<string>): set<string> {
    set name | name in names
  }

  lemma ElementsGrow(names: seq<string>, i: nat)
    requires i < |names|
    ensures Elements(names[..i + 1]) == Elements(names[..i]) + {names[i]}
  {
    assert names[..i + 1] == names[..i] + [names[i]];
  }

  method Promote(m: Arithmetic, b: EvalResults, c: EvalResults, driftExit: int, cfg: Config) returns (report: Report)
    ensures IsReport(m, b, c, driftExit, cfg, report)
    ensures report.promote <==> Promotes(m, b, c, driftExit, cfg)
    ensures forall i :: i in report.issues <==> IsIssue(m, b, c, cfg, i)
    ensures report.promote <==> report.driftPass && report.abPass
  {
    var left := ValidateResults(b, Baseline);
    var right := ValidateResults(c, Candidate);
    var config := ValidateConfig(cfg);
    var names := RequiredNames(b, c, cfg);
    assert Elements(names) == Names(b, c, cfg);
    var outcomes, compared := CompareAll(m, b, c, cfg, names);
    var issues := left + right + config + compared;
    var anyWin := exists o :: o in outcomes && o.win;
    var anyRegress := exists o :: o in outcomes && o.regress;
    var valid := issues == [];
    var abPass := valid && !anyRegress && anyWin;
    var driftPass := !cfg.driftMustPass || driftExit == 0;
    report := Report(driftPass && abPass, driftPass, abPass, valid, issues, outcomes);
    assert forall i :: i in compared <==> exists name :: name in Names(b, c, cfg) && NameIssue(m, b, c, cfg, name, i);
    assert forall i :: i in issues <==> IsIssue(m, b, c, cfg, i);
    NoIssueIffValid(m, b, c, cfg);
    assert issues == [] <==> forall i :: i !in issues by { if issues != [] { assert issues[0] in issues; } }
    Decides(m, b, c, driftExit, cfg, report);
  }

  /** What a report seals of its evaluation. */
  ghost predicate IsReport(m: Arithmetic, b: EvalResults, c: EvalResults, driftExit: int, cfg: Config, report: Report) {
    (report.driftPass <==> !cfg.driftMustPass || driftExit == 0)
    && (report.evidenceValid <==> report.issues == [])
    && (report.evidenceValid <==> ValidEvidence(m, b, c, cfg))
    && Compared(m, b, c, cfg, Names(b, c, cfg), report.benchmarks)
  }

  lemma Decides(m: Arithmetic, b: EvalResults, c: EvalResults, driftExit: int, cfg: Config, report: Report)
    requires IsReport(m, b, c, driftExit, cfg, report)
    ensures Promotes(m, b, c, driftExit, cfg)
            <==> report.driftPass && report.evidenceValid && !(exists o :: o in report.benchmarks && o.regress)
                 && exists o :: o in report.benchmarks && o.win
  {
  }

  // ---- Re-derivation ----

  /** The decision at new thresholds, from the sealed deltas and priors alone. */
  method Rederive(m: Arithmetic, report: Report, minDelta: Num, sigmaK: Num) returns (promote: bool)
    ensures promote <==> Rederives(m, report, minDelta, sigmaK)
  {
    if !report.evidenceValid || report.issues != [] { return false; }
    var anyWin, anyRegress := false, false;
    for i := 0 to |report.benchmarks|
      invariant forall j | 0 <= j < i :: Rebanded(m, report.benchmarks[j], minDelta, sigmaK).Some?
      invariant anyWin <==> exists j :: 0 <= j < i && Wins(m, report.benchmarks[j], minDelta, sigmaK)
      invariant anyRegress <==> exists j :: 0 <= j < i && Loses(m, report.benchmarks[j], minDelta, sigmaK)
    {
      var o := report.benchmarks[i];
      if o.delta.NonFinite? { return false; }
      var band := NoiseBand(m, minDelta, sigmaK, o.sigma);
      if band.None? { return false; }
      if o.delta.value > band.value {
        anyWin := true;
      } else if o.delta.value < -band.value {
        anyRegress := true;
      }
    }
    return report.driftPass && !anyRegress && anyWin;
  }

  ghost function Rebanded(m: Arithmetic, o: Outcome, minDelta: Num, sigmaK: Num): Option<real> {
    if o.delta.NonFinite? then None else NoiseBand(m, minDelta, sigmaK, o.sigma)
  }

  ghost predicate Wins(m: Arithmetic, o: Outcome, minDelta: Num, sigmaK: Num) {
    var band := Rebanded(m, o, minDelta, sigmaK);
    band.Some? && o.delta.value > band.value
  }

  ghost predicate Loses(m: Arithmetic, o: Outcome, minDelta: Num, sigmaK: Num) {
    var band := Rebanded(m, o, minDelta, sigmaK);
    band.Some? && o.delta.value < -band.value
  }

  ghost predicate Rederives(m: Arithmetic, report: Report, minDelta: Num, sigmaK: Num) {
    report.evidenceValid && report.issues == [] && report.driftPass
    && (forall i | 0 <= i < |report.benchmarks| ::
          Rebanded(m, report.benchmarks[i], minDelta, sigmaK).Some?
          && !Loses(m, report.benchmarks[i], minDelta, sigmaK))
    && exists i :: 0 <= i < |report.benchmarks| && Wins(m, report.benchmarks[i], minDelta, sigmaK)
  }

  function Retuned(cfg: Config, minDelta: Num, sigmaK: Num): Config {
    cfg.(minDelta := minDelta, sigmaK := sigmaK)
  }

  /** A sealed comparison holds everything that new thresholds need. */
  lemma SealedSuffices(m: Arithmetic, b: EvalResults, c: EvalResults, cfg: Config, o: Outcome, minDelta: Num,
                       sigmaK: Num)
    requires OutcomeIs(m, b, c, cfg, o)
    ensures Comparable(m, b, c, Retuned(cfg, minDelta, sigmaK), o.name) <==> Rebanded(m, o, minDelta, sigmaK).Some?
    ensures Rebanded(m, o, minDelta, sigmaK).Some? ==>
              Delta(m, b, c, Retuned(cfg, minDelta, sigmaK), o.name) == o.delta.value
              && Band(m, b, c, Retuned(cfg, minDelta, sigmaK), o.name) == Rebanded(m, o, minDelta, sigmaK).value
  {
    assert Retuned(cfg, minDelta, sigmaK).Sigma(o.name) == cfg.Sigma(o.name);
  }

  lemma OutcomeOf(m: Arithmetic, b: EvalResults, c: EvalResults, driftExit: int, cfg: Config, report: Report,
                  name: string)
    returns (i: nat)
    requires IsReport(m, b, c, driftExit, cfg, report) && report.evidenceValid && name in Names(b, c, cfg)
    ensures i < |report.benchmarks| && report.benchmarks[i].name == name
    ensures OutcomeIs(m, b, c, cfg, report.benchmarks[i])
  {
    assert Comparable(m, b, c, cfg, name);
    var o :| o in report.benchmarks && o.name == name;
    i :| i < |report.benchmarks| && report.benchmarks[i] == o;
  }

  lemma RederivedPromotes(m: Arithmetic, b: EvalResults, c: EvalResults, driftExit: int, cfg: Config, report: Report,
                          minDelta: Num, sigmaK: Num)
    requires IsReport(m, b, c, driftExit, cfg, report) && Rederives(m, report, minDelta, sigmaK)
    ensures Promotes(m, b, c, driftExit, Retuned(cfg, minDelta, sigmaK))
  {
    var retuned := Retuned(cfg, minDelta, sigmaK);
    forall name | name in Names(b, c, retuned)
      ensures Comparable(m, b, c, retuned, name) && Delta(m, b, c, retuned, name) >= -Band(m, b, c, retuned, name)
    {
      var i := OutcomeOf(m, b, c, driftExit, cfg, report, name);
      SealedSuffices(m, b, c, cfg, report.benchmarks[i], minDelta, sigmaK);
    }
    var i :| 0 <= i < |report.benchmarks| && Wins(m, report.benchmarks[i], minDelta, sigmaK);
    assert report.benchmarks[i] in report.benchmarks;
    SealedSuffices(m, b, c, cfg, report.benchmarks[i], minDelta, sigmaK);
    assert report.benchmarks[i].name in Names(b, c, retuned);
  }

  lemma PromotedRederives(m: Arithmetic, b: EvalResults, c: EvalResults, driftExit: int, cfg: Config, report: Report,
                          minDelta: Num, sigmaK: Num)
    requires IsReport(m, b, c, driftExit, cfg, report) && report.evidenceValid
    requires Promotes(m, b, c, driftExit, Retuned(cfg, minDelta, sigmaK))
    ensures Rederives(m, report, minDelta, sigmaK)
  {
    var retuned := Retuned(cfg, minDelta, sigmaK);
    forall i | 0 <= i < |report.benchmarks|
      ensures Rebanded(m, report.benchmarks[i], minDelta, sigmaK).Some?
      ensures !Loses(m, report.benchmarks[i], minDelta, sigmaK)
    {
      assert report.benchmarks[i] in report.benchmarks;
      assert report.benchmarks[i].name in Names(b, c, retuned);
      SealedSuffices(m, b, c, cfg, report.benchmarks[i], minDelta, sigmaK);
    }
    var name :| name in Names(b, c, retuned) && Delta(m, b, c, retuned, name) > Band(m, b, c, retuned, name);
    var i := OutcomeOf(m, b, c, driftExit, cfg, report, name);
    SealedSuffices(m, b, c, cfg, report.benchmarks[i], minDelta, sigmaK);
    assert Wins(m, report.benchmarks[i], minDelta, sigmaK);
  }

  /**
   * Re-derivation equals re-evaluation: at any new thresholds, non-finite ones included, the
   * sealed report decides as the gate would on the original inputs, provided its evidence was
   * valid; a report with invalid evidence never promotes.
   */
  lemma RederivationAgrees(m: Arithmetic, b: EvalResults, c: EvalResults, driftExit: int, cfg: Config, report: Report,
                           minDelta: Num, sigmaK: Num)
    requires IsReport(m, b, c, driftExit, cfg, report)
    ensures Rederives(m, report, minDelta, sigmaK)
            <==> report.evidenceValid && Promotes(m, b, c, driftExit, Retuned(cfg, minDelta, sigmaK))
  {
    if Rederives(m, report, minDelta, sigmaK) {
      RederivedPromotes(m, b, c, driftExit, cfg, report, minDelta, sigmaK);
    }
    if report.evidenceValid && Promotes(m, b, c, driftExit, Retuned(cfg, minDelta, sigmaK)) {
      PromotedRederives(m, b, c, driftExit, cfg, report, minDelta, sigmaK);
    }
  }

  /** A promotion never rests on missing, invalid or regressed evidence. */
  lemma PromotionIsSafe(m: Arithmetic, b: EvalResults, c: EvalResults, driftExit: int, cfg: Config, name: string)
    requires Promotes(m, b, c, driftExit, cfg)
    requires name in b.benchmarks || name in c.benchmarks || name == Canonical(cfg.headline)
    ensures b.Score(name).Some? && c.Score(name).Some? && b.Score(name).value.Finite? && c.Score(name).value.Finite?
    ensures Comparable(m, b, c, cfg, name) && Delta(m, b, c, cfg, name) >= -Band(m, b, c, cfg, name)
    ensures b.aggregate.Finite? && c.aggregate.Finite? && (cfg.driftMustPass ==> driftExit == 0)
  {
    assert name in Names(b, c, cfg);
  }
}
