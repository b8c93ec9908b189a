/** Conservation of a retained aggregate report (scripts/collect_ubs_report.py). */
module UbsReport {
  import opened Prelude
  import opened UbsSample

  /** One entry of `findings`; None stands for a value of the wrong shape. */
  datatype Finding = Finding(severity: Option<Severity>, count: Option<nat>, samples: Option<seq<Sample>>,
                             category: string, title: string)

  /** A count for each severity. */
  datatype Counters = Counters(critical: nat, warning: nat, info: nat) {
    function At(s: Severity): nat {
      match s
      case Critical => critical
      case Warning => warning
      case Info => info
    }

    function Add(s: Severity, n: nat): (r: Counters)
      ensures forall t: Severity :: r.At(t) == At(t) + if t == s then n else 0
    {
      match s
      case Critical => this.(critical := critical + n)
      case Warning => this.(warning := warning + n)
      case Info => this.(info := info + n)
    }
  }

  datatype Input = Input(
    declared: Counters,
    files: nat,
    receiptMatches: bool,
    version: string,
    findings: seq<Finding>,
    root: string,
    pins: seq<Pin>,
    disk: string -> Disk)

  datatype Group = Group(severity: Severity, units: nat, emitted: nat, missing: nat, start: nat, end: nat)

  datatype Problem =
    | PinFailed(problem: PinProblem)
    | ReceiptDiffers
    | FileCountDiffers
    | OverEmitted(finding: nat)
    | NotConserved
    | Unverified
    | EmptyCapture

  datatype Report = Report(
    aggregates: Counters,
    emitted: Counters,
    verified: Counters,
    missing: Counters,
    groups: seq<Group>,
    records: seq<Record>,
    errors: seq<Problem>)

  /** The report cannot be interpreted: which finding, or which pin. */
  datatype Rejection = BadFinding(finding: nat) | BadPin(pin: Pin)

  // ---------- Findings ----------

  predicate WellShaped(f: Finding) {
    f.severity.Some? && f.count.Some? && f.samples.Some?
  }

  ghost predicate AllWellShaped(findings: seq<Finding>) {
    forall f | f in findings :: WellShaped(f)
  }

  const ANNOTATED_RULES := {
    "Security token generated with non-cryptographic randomness",
    "Request-derived URL reaches outbound HTTP client",
    "Interpolated SQL reaches execution sink"
  }

  function RuleOf(version: string, f: Finding): Option<string> {
    if version == "3.0.1" && f.severity == Some(Critical) && f.category == "Security Findings" &&
      f.title in ANNOTATED_RULES
    then Some(f.title) else None
  }

  /** Only three critical security rules of one version carry annotations. */
  lemma RuleOfExactly(version: string, f: Finding, rule: string)
    ensures RuleOf(version, f) == Some(rule) <==>
      && version == "3.0.1" && f.severity == Some(Critical) && f.category == "Security Findings" && f.title == rule
      && (rule == "Security token generated with non-cryptographic randomness"
          || rule == "Request-derived URL reaches outbound HTTP client"
          || rule == "Interpolated SQL reaches execution sink")
  {
  }

  function Excess(units: nat, samples: nat): nat { if units > samples then units - samples else 0 }

  /** What one finding adds to a per-severity counter. */
  datatype Measure = Units | Emitted | Missing

  function Adds(m: Measure, s: Severity, f: Finding): nat
    requires WellShaped(f)
  {
    if f.severity != Some(s) then 0 else
      match m
      case Units => f.count.value
      case Emitted => |f.samples.value|
      case Missing => Excess(f.count.value, |f.samples.value|)
  }

  function Total(m: Measure, s: Severity, findings: seq<Finding>): nat
    requires AllWellShaped(findings)
  {
    if findings == [] then 0 else Total(m, s, findings[..|findings| - 1]) + Adds(m, s, findings[|findings| - 1])
  }

  function VerifiedCount(s: Severity, records: seq<Record>): nat {
    if records == [] then 0 else
      VerifiedCount(s, records[..|records| - 1]) +
      if records[|records| - 1].severity == s && records[|records| - 1].verified then 1 else 0
  }

  function RecordCount(s: Severity, records: seq<Record>): nat {
    if records == [] then 0 else
      RecordCount(s, records[..|records| - 1]) + if records[|records| - 1].severity == s then 1 else 0
  }

  ghost predicate Counts(m: Counters, measure: Measure, findings: seq<Finding>)
    requires AllWellShaped(findings)
  {
    forall s: Severity :: m.At(s) == Total(measure, s, findings)
  }

  // ---------- Groups and records ----------

  /** The records of finding `f`, number `at`: one per sample, in order. */
  ghost predicate RecordsOf(t: Text, version: string, sources: seq<Source>, f: Finding, at: nat, records: seq<Record>)
    requires WellShaped(f)
  {
    && |records| == |f.samples.value|
    && forall i | 0 <= i < |records| :: RecordOf(t, version, sources, f, at, i, records[i])
  }

  ghost predicate RecordOf(t: Text, version: string, sources: seq<Source>, f: Finding, at: nat, i: nat, r: Record)
    requires WellShaped(f) && i < |f.samples.value|
  {
    && r.finding == at && r.number == i && r.severity == f.severity.value && r.sample == f.samples.value[i]
    && Describes(t, RuleOf(version, f), sources, r)
  }

  ghost predicate GroupOf(f: Finding, g: Group)
    requires WellShaped(f)
  {
    && g.severity == f.severity.value && g.units == f.count.value && g.emitted == |f.samples.value| == g.end - g.start
    && (if g.units >= g.emitted then g.units == g.emitted + g.missing else g.missing == 0)
  }

  /** The ranges lie end to end from 0 to `n`. */
  ghost predicate Tiles(groups: seq<Group>, n: nat) {
    && (forall i | 0 <= i < |groups| :: groups[i].start <= groups[i].end <= n)
    && (forall i | 0 < i < |groups| :: groups[i].start == groups[i - 1].end)
    && (if groups == [] then n == 0 else groups[0].start == 0 && groups[|groups| - 1].end == n)
  }

  /** Groups and records say exactly what the findings say. */
  ghost predicate Retains(t: Text, version: string, sources: seq<Source>, findings: seq<Finding>,
                          groups: seq<Group>, records: seq<Record>)
  {
    && |groups| == |findings| && Tiles(groups, |records|)
    && forall i | 0 <= i < |findings| :: Retained(t, version, sources, findings[i], i, groups[i], records)
  }

  ghost predicate Retained(t: Text, version: string, sources: seq<Source>, f: Finding, at: nat, g: Group,
                           records: seq<Record>) {
    && WellShaped(f) && GroupOf(f, g) && g.start <= g.end <= |records|
    && RecordsOf(t, version, sources, f, at, records[g.start..g.end])
  }

  // ---------- The collecting loop ----------

  predicate OverEmits(f: Finding)
    requires WellShaped(f)
  {
    |f.samples.value| > f.count.value
  }

  /** Every counter, group and record accounts for exactly these findings. */
  ghost predicate Collected(t: Text, version: string, sources: seq<Source>, findings: seq<Finding>, report: Report)
    requires AllWellShaped(findings)
  {
    && Counts(report.aggregates, Units, findings)
    && Counts(report.emitted, Emitted, findings)
    && Counts(report.missing, Missing, findings)
    && VerifiedPerSeverity(report.verified, report.records)
    && Retains(t, version, sources, findings, report.groups, report.records)
  }

  ghost predicate VerifiedPerSeverity(verified: Counters, records: seq<Record>) {
    forall s: Severity :: verified.At(s) == VerifiedCount(s, records)
  }

  lemma CountsStep(m: Counters, measure: Measure, findings: seq<Finding>, f: Finding, more: nat)
    requires AllWellShaped(findings) && WellShaped(f)
    requires Counts(m, measure, findings) && more == Adds(measure, f.severity.value, f)
    ensures AllWellShaped(findings + [f])
    ensures Counts(m.Add(f.severity.value, more), measure, findings + [f])
  {
    assert (findings + [f])[..|findings|] == findings;
  }

  lemma RetainsStep(t: Text, version: string, sources: seq<Source>, findings: seq<Finding>, f: Finding,
                    groups: seq<Group>, records: seq<Record>, g: Group, added: seq<Record>)
    requires Retains(t, version, sources, findings, groups, records)
    requires WellShaped(f) && GroupOf(f, g) && g.start == |records| && g.end == |records| + |added|
    requires RecordsOf(t, version, sources, f, |findings|, added)
    ensures Retains(t, version, sources, findings + [f], groups + [g], records + added)
  {
    var all := records + added;
    assert all[g.start..g.end] == added;
    forall i | 0 <= i < |findings|
      ensures Retained(t, version, sources, findings[i], i, groups[i], all)
    {
      assert Retained(t, version, sources, findings[i], i, groups[i], records);
      assert all[groups[i].start..groups[i].end] == records[groups[i].start..groups[i].end];
    }
    assert Retained(t, version, sources, f, |findings|, g, all);
  }

  lemma VerifiedStep(verified: Counters, records: seq<Record>, record: Record)
    requires VerifiedPerSeverity(verified, records)
    ensures VerifiedPerSeverity(verified.Add(record.severity, if record.verified then 1 else 0), records + [record])
  {
    assert (records + [record])[..|records|] == records;
  }

  /** The records of one finding, counting the verified ones. */
  method CollectSamples(t: Text, version: string, sources: seq<Source>, f: Finding, at: nat, before: seq<Record>,
                        verified: Counters)
    returns (added: seq<Record>, r: Counters)
    requires WellShaped(f) && VerifiedPerSeverity(verified, before)
    ensures RecordsOf(t, version, sources, f, at, added)
    ensures VerifiedPerSeverity(r, before + added)
  {
    var severity, samples := f.severity.value, f.samples.value;
    added, r := [], verified;
    assert before + [] == before;
    var number := 0;
    while number < |samples|
      invariant 0 <= number <= |samples| && |added| == number
      invariant forall i | 0 <= i < number :: RecordOf(t, version, sources, f, at, i, added[i])
      invariant VerifiedPerSeverity(r, before + added)
    {
      var record := SampleRecord(t, RuleOf(version, f), sources, at, number, severity, samples[number]);
      assert before + (added + [record]) == (before + added) + [record];
      VerifiedStep(r, before + added, record);
      added := added + [record];
      r := r.Add(severity, if record.verified then 1 else 0);
      number := number + 1;
    }
  }

  /** The group entry of one finding. */
  function GroupFor(f: Finding, start: nat): (g: Group)
    requires WellShaped(f)
    ensures GroupOf(f, g) && g.start == start && g.end == start + |f.samples.value|
  {
    var units, emitted := f.count.value, |f.samples.value|;
    Group(f.severity.value, units, emitted, Excess(units, emitted), start, start + emitted)
  }

  lemma WellShapedStep(findings: seq<Finding>, index: nat)
    requires index < |findings| && AllWellShaped(findings[..index]) && WellShaped(findings[index])
    ensures AllWellShaped(findings[..index + 1]) && findings[..index + 1] == findings[..index] + [findings[index]]
  {
    assert findings[..index + 1] == findings[..index] + [findings[index]];
  }

  /** One round of the outer loop. */
  method CollectFinding(t: Text, version: string, sources: seq<Source>, findings: seq<Finding>, index: nat,
                        report: Report)
    returns (r: Report)
    requires index < |findings| && AllWellShaped(findings[..index]) && WellShaped(findings[index])
    requires Collected(t, version, sources, findings[..index], report)
    ensures AllWellShaped(findings[..index + 1])
    ensures Collected(t, version, sources, findings[..index + 1], r)
    ensures r.errors == if OverEmits(findings[index]) then report.errors + [OverEmitted(index)] else report.errors
  {
    var f := findings[index];
    var severity, units, samples := f.severity.value, f.count.value, f.samples.value;
    var added, verified := CollectSamples(t, version, sources, f, index, report.records, report.verified);
    r := Report(
      report.aggregates.Add(severity, units),
      report.emitted.Add(severity, |samples|),
      verified,
      report.missing.Add(severity, Excess(units, |samples|)),
      report.groups + [GroupFor(f, |report.records|)],
      report.records + added,
      if OverEmits(f) then report.errors + [OverEmitted(index)] else report.errors);
    ghost var seen := findings[..index];
    WellShapedStep(findings, index);
    CountsStep(report.aggregates, Units, seen, f, units);
    CountsStep(report.emitted, Emitted, seen, f, |samples|);
    CountsStep(report.missing, Missing, seen, f, Excess(units, |samples|));
    RetainsStep(t, version, sources, seen, f, report.groups, report.records, GroupFor(f, |report.records|), added);
  }

  ghost predicate IsOverEmission(findings: seq<Finding>, p: Problem) {
    p.OverEmitted? && p.finding < |findings| && WellShaped(findings[p.finding]) && OverEmits(findings[p.finding])
  }

  method CollectFindings(t: Text, version: string, sources: seq<Source>, findings: seq<Finding>)
    returns (r: Result<Report, Rejection>)
    ensures r.Success? <==> AllWellShaped(findings)
    ensures r.Failure? ==> r.error.BadFinding? && r.error.finding < |findings| && !WellShaped(findings[r.error.finding])
    ensures r.Success? ==> Collected(t, version, sources, findings, r.value)
    ensures r.Success? ==> forall p :: p in r.value.errors <==> IsOverEmission(findings, p)
  {
    var zero := Counters(0, 0, 0);
    var report := Report(zero, zero, zero, zero, [], [], []);
    var index := 0;
    while index < |findings|
      invariant 0 <= index <= |findings| && AllWellShaped(findings[..index])
      invariant Collected(t, version, sources, findings[..index], report)
      invariant forall p :: p in report.errors <==> IsOverEmission(findings, p) && p.finding < index
    {
      if !WellShaped(findings[index]) { return Failure(BadFinding(index)); }
      report := CollectFinding(t, version, sources, findings, index, report);
      index := index + 1;
    }
    assert findings[..|findings|] == findings;
    r := Success(report);
  }

  // ---------- The verdict ----------

  ghost predicate WellFormedInput(input: Input) {
    && (forall pin | pin in input.pins :: Acceptable(pin, input.disk))
    && AllWellShaped(input.findings)
  }

  function Sources(t: Text, input: Input): seq<Source> {
    Readable(t, input.root, input.pins, input.disk)
  }

  /** The statement the verdict "verified" makes. */
  ghost predicate Verifiable(t: Text, input: Input, records: seq<Record>)
    requires WellFormedInput(input)
  {
    && Intact(t, input.pins, input.disk)
    && input.receiptMatches
    && input.files == |input.pins| > 0
    && (forall f | f in input.findings :: !OverEmits(f))
    && (forall s: Severity :: input.declared.At(s) == Total(Units, s, input.findings))
    && (forall r | r in records :: r.verified)
    && records != []
  }

  /** What each error says. */
  ghost predicate Noticed(t: Text, input: Input, records: seq<Record>, p: Problem)
    requires WellFormedInput(input)
  {
    match p
    case PinFailed(e) => Reported(t, input.pins, input.disk, e)
    case ReceiptDiffers => !input.receiptMatches
    case FileCountDiffers => input.files != |input.pins|
    case OverEmitted(_) => IsOverEmission(input.findings, p)
    case NotConserved => exists s: Severity :: input.declared.At(s) != Total(Units, s, input.findings)
    case Unverified => exists r :: r in records && !r.verified
    case EmptyCapture => records == [] || input.pins == []
  }

  /** The collection fails only on inputs it cannot interpret; otherwise it retains everything, lists
      exactly the errors there are, and its verdict is exactly the declarative statement. */
  method Collect(t: Text, input: Input) returns (r: Result<Report, Rejection>)
    ensures r.Success? <==> WellFormedInput(input)
    ensures r.Success? ==> Collected(t, input.version, Sources(t, input), input.findings, r.value)
    ensures r.Success? ==> forall p :: p in r.value.errors <==> Noticed(t, input, r.value.records, p)
    ensures r.Success? ==> (r.value.errors == [] <==> Verifiable(t, input, r.value.records))
  {
    var pinned := PinnedSources(t, input.root, input.pins, input.disk);
    if pinned.Failure? { return Failure(BadPin(pinned.error)); }
    var (sources, problems) := pinned.value;
    var collected := CollectFindings(t, input.version, sources, input.findings);
    if collected.Failure? { return Failure(collected.error); }
    var report := collected.value;
    var errors := Errors(input, problems, report);
    CountersMean(t, input, report);
    assert forall p :: p in errors <==> Noticed(t, input, report.records, p);
    NothingNoticed(t, input, report.records, errors);
    r := Success(report.(errors := errors));
  }

  /** The list of collection errors, in the order they are noticed. */
  method Errors(input: Input, problems: seq<PinProblem>, report: Report) returns (errors: seq<Problem>)
    requires forall p | p in report.errors :: p.OverEmitted?
    ensures forall p :: p in errors <==> match p
      case PinFailed(e) => e in problems
      case ReceiptDiffers => !input.receiptMatches
      case FileCountDiffers => input.files != |input.pins|
      case OverEmitted(_) => p in report.errors
      case NotConserved => report.aggregates != input.declared
      case Unverified => report.verified.critical + report.verified.warning + report.verified.info != |report.records|
      case EmptyCapture => report.records == [] || input.pins == []
  {
    errors := seq(|problems|, i requires 0 <= i < |problems| => PinFailed(problems[i]));
    assert forall e :: e in problems <==> PinFailed(e) in errors by {
      forall i | 0 <= i < |problems| ensures PinFailed(problems[i]) in errors {
        assert errors[i] == PinFailed(problems[i]);
      }
    }
    if !input.receiptMatches { errors := errors + [ReceiptDiffers]; }
    if input.files != |input.pins| { errors := errors + [FileCountDiffers]; }
    errors := errors + report.errors;
    if report.aggregates != input.declared { errors := errors + [NotConserved]; }
    if report.verified.critical + report.verified.warning + report.verified.info != |report.records| {
      errors := errors + [Unverified];
    }
    if report.records == [] || input.pins == [] { errors := errors + [EmptyCapture]; }
  }

  lemma SameCounters(a: Counters, b: Counters)
    ensures a == b <==> forall s: Severity :: b.At(s) == a.At(s)
  {
    if forall s: Severity :: b.At(s) == a.At(s) {
      assert b.At(Critical) == a.At(Critical) && b.At(Warning) == a.At(Warning) && b.At(Info) == a.At(Info);
    }
  }

  /** The comparisons of totals decide what they are meant to decide. */
  lemma CountersMean(t: Text, input: Input, report: Report)
    requires WellFormedInput(input) && Collected(t, input.version, Sources(t, input), input.findings, report)
    ensures (forall r | r in report.records :: r.verified)
        <==> report.verified.critical + report.verified.warning + report.verified.info == |report.records|
    ensures (forall s: Severity :: input.declared.At(s) == Total(Units, s, input.findings))
        <==> report.aggregates == input.declared
  {
    AllVerified(report.records);
    SameCounters(report.aggregates, input.declared);
    assert report.verified.At(Critical) == VerifiedCount(Critical, report.records);
    assert report.verified.At(Warning) == VerifiedCount(Warning, report.records);
    assert report.verified.At(Info) == VerifiedCount(Info, report.records);
  }

  lemma NothingNoticed(t: Text, input: Input, records: seq<Record>, errors: seq<Problem>)
    requires WellFormedInput(input) && forall p :: p in errors <==> Noticed(t, input, records, p)
    ensures errors == [] <==> Verifiable(t, input, records)
  {
    if errors != [] {
      assert Noticed(t, input, records, errors[0]);
    } else {
      assert forall p :: !Noticed(t, input, records, p);
      assert !Noticed(t, input, records, ReceiptDiffers) && !Noticed(t, input, records, FileCountDiffers);
      assert !Noticed(t, input, records, NotConserved) && !Noticed(t, input, records, Unverified);
      assert !Noticed(t, input, records, EmptyCapture);
      forall pin | pin in input.pins ensures Intact(t, [pin], input.disk) {
        assert !Noticed(t, input, records, PinFailed(Unavailable(pin.relative)));
        assert !Noticed(t, input, records, PinFailed(Changed(pin.relative)));
        assert !Troubled(t, pin, input.disk, Unavailable(pin.relative)) &&
          !Troubled(t, pin, input.disk, Changed(pin.relative));
      }
      forall f | f in input.findings ensures !OverEmits(f) {
        var i :| 0 <= i < |input.findings| && input.findings[i] == f;
        assert !Noticed(t, input, records, OverEmitted(i));
      }
    }
  }

  /** The verified total reaches the number of records exactly when every record is verified. */
  lemma {:induction false} AllVerified(records: seq<Record>)
    ensures VerifiedCount(Critical, records) + VerifiedCount(Warning, records) + VerifiedCount(Info,
      records) <= |records|
    ensures VerifiedCount(Critical, records) + VerifiedCount(Warning, records) + VerifiedCount(Info,
      records) == |records|
        <==> forall r | r in records :: r.verified
  {
    if records != [] {
      var n := |records| - 1;
      AllVerified(records[..n]);
      assert records == records[..n] + [records[n]];
    }
  }

  // ---------- What the totals mean pointwise ----------

  /** Without over-emission, declared units are emitted samples plus missing units. */
  lemma {:induction false} UnitsSplit(s: Severity, findings: seq<Finding>)
    requires AllWellShaped(findings)
    ensures Total(Units, s, findings) <= Total(Emitted, s, findings) + Total(Missing, s, findings)
    ensures Total(Units, s, findings) == Total(Emitted, s, findings) + Total(Missing, s, findings)
        <==> forall f | f in findings && f.severity == Some(s) :: !OverEmits(f)
  {
    if findings != [] {
      var n := |findings| - 1;
      UnitsSplit(s, findings[..n]);
      assert findings == findings[..n] + [findings[n]];
    }
  }

  lemma {:induction false} RecordCountAppend(s: Severity, a: seq<Record>, b: seq<Record>)
    ensures RecordCount(s, a + b) == RecordCount(s, a) + RecordCount(s, b)
  {
    if b == [] {
      assert a + b == a;
    } else {
      RecordCountAppend(s, a, b[..|b| - 1]);
      assert (a + b)[..|a + b| - 1] == a + b[..|b| - 1];
    }
  }

  lemma {:induction false} OneSeverity(s: Severity, records: seq<Record>, t: Severity)
    requires forall i | 0 <= i < |records| :: records[i].severity == t
    ensures RecordCount(s, records) == if s == t then |records| else 0
  {
    if records != [] { OneSeverity(s, records[..|records| - 1], t); }
  }

  /** Every emitted sample has its record: per severity, records and emissions agree. */
  lemma {:induction false} EveryEmissionRecorded(t: Text, version: string, sources: seq<Source>,
                                                 findings: seq<Finding>, groups: seq<Group>, records: seq<Record>,
                                                   s: Severity)
    requires AllWellShaped(findings) && Retains(t, version, sources, findings, groups, records)
    ensures RecordCount(s, records) == Total(Emitted, s, findings)
  {
    if findings != [] {
      var n := |findings| - 1;
      WithoutLast(t, version, sources, findings, groups, records);
      EveryEmissionRecorded(t, version, sources, findings[..n], groups[..n], records[..groups[n].start], s);
      LastGroupCounts(t, version, sources, findings[n], n, groups[n], records, s);
    }
  }

  lemma LastGroupCounts(t: Text, version: string, sources: seq<Source>, f: Finding, at: nat, g: Group,
                        records: seq<Record>, s: Severity)
    requires Retained(t, version, sources, f, at, g, records) && g.end == |records|
    ensures RecordCount(s, records) == RecordCount(s, records[..g.start]) + Adds(Emitted, s, f)
  {
    var mine := records[g.start..g.end];
    assert forall i | 0 <= i < |mine| :: RecordOf(t, version, sources, f, at, i, mine[i]);
    assert records == records[..g.start] + mine;
    RecordCountAppend(s, records[..g.start], mine);
    OneSeverity(s, mine, f.severity.value);
  }

  lemma WithoutLast(t: Text, version: string, sources: seq<Source>, findings: seq<Finding>, groups: seq<Group>,
                    records: seq<Record>)
    requires findings != [] && Retains(t, version, sources, findings, groups, records)
    ensures var n := |findings| - 1;
      Retains(t, version, sources, findings[..n], groups[..n], records[..groups[n].start])
  {
    var n := |findings| - 1;
    var before := records[..groups[n].start];
    forall i | 0 <= i < n ensures groups[i].end <= |before| &&
      Retained(t, version, sources, findings[i], i, groups[i], before) {
      assert Retained(t, version, sources, findings[i], i, groups[i], records);
      GroupsAscend(groups, |records|, i, n);
      assert before[groups[i].start..groups[i].end] == records[groups[i].start..groups[i].end];
    }
    assert Tiles(groups[..n], |before|);
  }

  lemma {:induction false} GroupsAscend(groups: seq<Group>, n: nat, i: nat, j: nat)
    requires Tiles(groups, n) && i < j < |groups|
    ensures groups[i].end <= groups[j].start
    decreases j
  {
    if i < j - 1 { GroupsAscend(groups, n, i, j - 1); }
  }

  lemma {:induction false} AllVerifiedPerSeverity(s: Severity, records: seq<Record>)
    ensures VerifiedCount(s, records) <= RecordCount(s, records)
    ensures VerifiedCount(s, records) == RecordCount(s, records) <==> forall r | r in records && r.severity == s ::
      r.verified
  {
    if records != [] {
      var n := |records| - 1;
      AllVerifiedPerSeverity(s, records[..n]);
      assert records == records[..n] + [records[n]];
    }
  }

  /** What one group says of a measure. */
  function Says(m: Measure, s: Severity, g: Group): nat {
    if g.severity != s then 0 else
      match m
      case Units => g.units
      case Emitted => g.emitted
      case Missing => g.missing
  }

  function GroupTotal(m: Measure, s: Severity, groups: seq<Group>): nat {
    if groups == [] then 0 else GroupTotal(m, s, groups[1..]) + Says(m, s, groups[0])
  }

  lemma {:induction false} GroupTotalSnoc(m: Measure, s: Severity, groups: seq<Group>, g: Group)
    ensures GroupTotal(m, s, groups + [g]) == GroupTotal(m, s, groups) + Says(m, s, g)
  {
    if groups == [] {
      assert ([] + [g])[1..] == [];
    } else {
      GroupTotalSnoc(m, s, groups[1..], g);
      assert (groups + [g])[1..] == groups[1..] + [g];
    }
  }

  lemma GroupSays(f: Finding, g: Group, m: Measure, s: Severity)
    requires WellShaped(f) && GroupOf(f, g)
    ensures Adds(m, s, f) == Says(m, s, g)
  {
  }

  /** Every counter is the sum of what the groups say. */
  lemma {:induction false} GroupsAddUp(findings: seq<Finding>, groups: seq<Group>, m: Measure, s: Severity)
    requires AllWellShaped(findings) && |groups| == |findings|
    requires forall i | 0 <= i < |findings| :: GroupOf(findings[i], groups[i])
    ensures Total(m, s, findings) == GroupTotal(m, s, groups)
  {
    if findings != [] {
      var n := |findings| - 1;
      GroupsAddUp(findings[..n], groups[..n], m, s);
      GroupTotalSnoc(m, s, groups[..n], groups[n]);
      GroupSays(findings[n], groups[n], m, s);
      assert groups == groups[..n] + [groups[n]];
    }
  }

  /** A verified collection conserves every severity: the declared count is the emitted samples plus
      the missing units, and every emitted sample is verified. */
  lemma VerifiedConserves(t: Text, input: Input, report: Report, s: Severity)
    requires WellFormedInput(input) && Collected(t, input.version, Sources(t, input), input.findings, report)
    requires Verifiable(t, input, report.records)
    ensures input.declared.At(s) == report.emitted.At(s) + report.missing.At(s)
    ensures report.verified.At(s) == report.emitted.At(s) == RecordCount(s, report.records)
  {
    UnitsSplit(s, input.findings);
    EveryEmissionRecorded(t, input.version, Sources(t, input), input.findings, report.groups, report.records, s);
    AllVerifiedPerSeverity(s, report.records);
  }

  /** Whatever the verdict, each record lies in exactly one group, whose finding emitted its sample
      at the record's offset. */
  lemma RecordsAreTiled(t: Text, version: string, sources: seq<Source>, findings: seq<Finding>,
                        groups: seq<Group>, records: seq<Record>, k: nat)
    requires Retains(t, version, sources, findings, groups, records) && k < |records|
    ensures exists i :: && 0 <= i < |groups| && groups[i].start <= k < groups[i].end
              && (forall j | 0 <= j < |groups| && j != i :: !(groups[j].start <= k < groups[j].end))
              && records[k].finding == i && records[k].number == k - groups[i].start
              && WellShaped(findings[i]) && records[k].number < |findings[i].samples.value|
              && records[k].sample == findings[i].samples.value[records[k].number]
              && Describes(t, RuleOf(version, findings[i]), sources, records[k])
  {
    var i := GroupHolding(groups, |records|, k, |groups|);
    assert Retained(t, version, sources, findings[i], i, groups[i], records);
    var mine := records[groups[i].start..groups[i].end];
    assert mine[k - groups[i].start] == records[k];
    assert RecordOf(t, version, sources, findings[i], i, k - groups[i].start, mine[k - groups[i].start]);
    forall j | 0 <= j < |groups| && j != i ensures !(groups[j].start <= k < groups[j].end) {
      if j < i { GroupsAscend(groups, |records|, j, i); } else { GroupsAscend(groups, |records|, i, j); }
    }
  }

  lemma {:induction false} GroupHolding(groups: seq<Group>, n: nat, k: nat, upto: nat) returns (i: nat)
    requires Tiles(groups, n) && 0 < upto <= |groups| && k < groups[upto - 1].end
    ensures i < |groups| && groups[i].start <= k < groups[i].end
    decreases upto
  {
    if groups[upto - 1].start <= k {
      i := upto - 1;
    } else {
      i := GroupHolding(groups, n, k, upto - 1);
    }
  }
}
