/** Deterministic risk scoring (packages/watchtower-core/src/scoring/scoreAgent.ts, utils/sort.ts). */
module Scoring {
  import opened Texts
  import opened Json
  import opened Lists
  import opened Sorting
  import Canonical

  datatype Severity = LOW | MEDIUM | HIGH | CRITICAL

  datatype Link = Link(kind: Text, ref: Text)

  datatype Signal = Signal(signalId: Text, severity: Severity, weight: real, evidence: seq<Link>)

  datatype Snapshot = Snapshot(snapshotId: Text, signals: seq<Signal>)

  datatype Summary = Summary(severity: Severity, signalId: Text)

  datatype Confidence = Low | Medium | High

  datatype Report = Report(
    agentId: Text,
    confidence: Confidence,
    evidenceLinks: seq<Link>,
    overallRisk: int,
    reasons: seq<Text>,
    signals: seq<Summary>,
    reportId: Text,
    generatedAt: int)

  datatype Alert = Alert(
    alertId: Text,
    agentId: Text,
    kind: Text,
    severity: Severity,
    description: Text,
    evidenceLinks: seq<Link>,
    createdAt: int,
    isActive: bool)

  /** What the scorer takes as given: the hash, and the sign of `localeCompare`. */
  datatype Host = Host(hash: Text -> Text, locale: (Text, Text) -> int)

  // ---- The two orders ----

  function SeverityRank(s: Severity): nat {
    match s case CRITICAL => 0 case HIGH => 1 case MEDIUM => 2 case LOW => 3
  }

  function CompareSummaries(locale: (Text, Text) -> int, a: Summary, b: Summary): int {
    var sevDiff := SeverityRank(a.severity) - SeverityRank(b.severity);
    if sevDiff != 0 then sevDiff else locale(a.signalId, b.signalId)
  }

  function CompareLinks(locale: (Text, Text) -> int, a: Link, b: Link): int {
    var kindDiff := locale(a.kind, b.kind);
    if kindDiff != 0 then kindDiff else locale(a.ref, b.ref)
  }

  function SummaryOrder(locale: (Text, Text) -> int): (Summary, Summary) -> int {
    (a, b) => CompareSummaries(locale, a, b)
  }

  function SignalOrder(locale: (Text, Text) -> int): (Signal, Signal) -> int {
    (a, b) => CompareSummaries(locale, SummaryOf(a), SummaryOf(b))
  }

  function LinkOrder(locale: (Text, Text) -> int): (Link, Link) -> int {
    (a, b) => CompareLinks(locale, a, b)
  }

  function SortSignals(locale: (Text, Text) -> int, signals: seq<Signal>): seq<Signal> {
    Sort(SignalOrder(locale), signals)
  }

  function SortEvidence(locale: (Text, Text) -> int, links: seq<Link>): seq<Link> {
    Sort(LinkOrder(locale), links)
  }

  // ---- The report, part by part ----

  function AllSignals(snapshots: seq<Snapshot>): seq<Signal> {
    if snapshots == [] then []
    else AllSignals(snapshots[..|snapshots| - 1]) + snapshots[|snapshots| - 1].signals
  }

  function SnapshotIds(snapshots: seq<Snapshot>): set<Text> {
    set s <- snapshots :: s.snapshotId
  }

  function Points(s: Severity): nat {
    match s case LOW => 5 case MEDIUM => 15 case HIGH => 30 case CRITICAL => 60
  }

  function Sum(xs: seq<real>): real {
    if xs == [] then 0.0 else Sum(xs[..|xs| - 1]) + xs[|xs| - 1]
  }

  function Scored(s: Signal): real { Points(s.severity) as real * s.weight }

  function RawScore(signals: seq<Signal>): real { Sum(Map(Scored, signals)) }

  predicate HasCritical(signals: seq<Signal>) {
    exists s <- signals :: s.severity == CRITICAL
  }

  /** `Math.round` */
  function Round(x: real): int { (x + 0.5).Floor }

  function OverallRisk(signals: seq<Signal>): int {
    var rounded := Round(RawScore(signals));
    if HasCritical(signals) then 100 else if rounded < 100 then rounded else 100
  }

  function ConfidenceOf(snapshots: seq<Snapshot>): Confidence {
    var count := |AllSignals(snapshots)|;
    if count >= 5 && |SnapshotIds(snapshots)| >= 2 then High
    else if count >= 2 then Medium
    else Low
  }

  function SeverityName(s: Severity): Text {
    match s
    case LOW => Ascii("LOW")
    case MEDIUM => Ascii("MEDIUM")
    case HIGH => Ascii("HIGH")
    case CRITICAL => Ascii("CRITICAL")
  }

  function ReasonOf(s: Signal): Text { SeverityName(s.severity) + Ascii(" signal: ") + s.signalId }

  /** The dash is U+2014. */
  const CRITICAL_REASON: Text := Ascii("CRITICAL signal detected ") + [0x2014] + Ascii(" risk set to maximum")

  /** `set.add(x)` on a set in insertion order. */
  function Add<T(==)>(xs: seq<T>, x: T): seq<T> { if x in xs then xs else xs + [x] }

  function ReasonSet(signals: seq<Signal>): seq<Text> {
    if signals == [] then [] else Add(ReasonSet(signals[..|signals| - 1]), ReasonOf(signals[|signals| - 1]))
  }

  function Reasons(signals: seq<Signal>): seq<Text> {
    Sort(Compare, if HasCritical(signals) then Add(ReasonSet(signals), CRITICAL_REASON) else ReasonSet(signals))
  }

  function Evidence(signals: seq<Signal>): seq<Link> {
    if signals == [] then [] else Evidence(signals[..|signals| - 1]) + signals[|signals| - 1].evidence
  }

  function CriticalEvidence(signals: seq<Signal>): seq<Link> {
    if signals == [] then []
    else
      var last := signals[|signals| - 1];
      CriticalEvidence(signals[..|signals| - 1]) + (if last.severity == CRITICAL then last.evidence else [])
  }

  function DedupeKey(e: Link): Text { e.kind + [COLON] + e.ref }

  predicate SeenKey(links: seq<Link>, key: Text) { exists e <- links :: DedupeKey(e) == key }

  /** The first link of each key. */
  function Dedupe(links: seq<Link>): seq<Link> {
    if links == [] then []
    else
      var before, last := links[..|links| - 1], links[|links| - 1];
      Dedupe(before) + (if SeenKey(before, DedupeKey(last)) then [] else [last])
  }

  function EvidenceLinks(host: Host, signals: seq<Signal>): seq<Link> {
    SortEvidence(host.locale, Dedupe(Evidence(signals)))
  }

  function SummaryOf(s: Signal): Summary { Summary(s.severity, s.signalId) }

  function Summaries(host: Host, signals: seq<Signal>): seq<Summary> {
    Map(SummaryOf, SortSignals(host.locale, signals))
  }

  function LinkJson(e: Link): Json {
    Obj([Field(Ascii("type"), Str(e.kind)), Field(Ascii("ref"), Str(e.ref))])
  }

  function SummaryJson(s: Summary): Json {
    Obj([Field(Ascii("severity"), Str(SeverityName(s.severity))), Field(Ascii("signalId"), Str(s.signalId))])
  }

  function TextJson(t: Text): Json { Str(t) }

  function ConfidenceName(c: Confidence): Text {
    match c case Low => Ascii("LOW") case Medium => Ascii("MEDIUM") case High => Ascii("HIGH")
  }

  function ReportPayload(r: Report): Json {
    Obj([
      Field(Ascii("agentId"), Str(r.agentId)),
      Field(Ascii("confidence"), Str(ConfidenceName(r.confidence))),
      Field(Ascii("evidenceLinks"), Arr(Map(LinkJson, r.evidenceLinks))),
      Field(Ascii("overallRisk"), Num(r.overallRisk)),
      Field(Ascii("reasons"), Arr(Map(TextJson, r.reasons))),
      Field(Ascii("reportVersion"), Str(Ascii("0.1.0"))),
      Field(Ascii("signals"), Arr(Map(SummaryJson, r.signals)))
    ])
  }

  function RefOf(e: Link): Text { e.ref }

  function TopRefs(links: seq<Link>): seq<Text> {
    Map(RefOf, if |links| < 5 then links else links[..5])
  }

  function AlertId(host: Host, agentId: Text, severity: Severity, links: seq<Link>, kind: Text): Text {
    host.hash(Canonical.CanonicalJson(Obj([
      Field(Ascii("agentId"), Str(agentId)),
      Field(Ascii("severity"), Str(SeverityName(severity))),
      Field(Ascii("topEvidenceRefs"), Arr(Map(TextJson, TopRefs(links)))),
      Field(Ascii("type"), Str(kind))
    ])))
  }

  function NewAlert(host: Host, agentId: Text, kind: Text, severity: Severity, description: Text, links: seq<Link>, now: int): Alert {
    Alert(AlertId(host, agentId, severity, links, kind), agentId, kind, severity, description, links, now, true)
  }

  function Identified(host: Host, draft: Report): Report {
    draft.(reportId := host.hash(Canonical.CanonicalJson(ReportPayload(draft))))
  }

  function ReportOf(host: Host, agentId: Text, snapshots: seq<Snapshot>, now: int): Report {
    var signals := AllSignals(snapshots);
    Identified(host, Report(
      agentId, ConfidenceOf(snapshots), EvidenceLinks(host, signals), OverallRisk(signals), Reasons(signals),
      Summaries(host, signals), [], now))
  }

  function AlertsOf(host: Host, agentId: Text, snapshots: seq<Snapshot>, now: int): seq<Alert> {
    var signals := AllSignals(snapshots);
    var risk := OverallRisk(signals);
    if HasCritical(signals) then
      [NewAlert(host, agentId, Ascii("CRITICAL_SIGNAL_DETECTED"), CRITICAL,
         Ascii("Critical signal detected for agent ") + agentId + Ascii(". Overall risk: ") + Numeral(risk),
         SortEvidence(host.locale, CriticalEvidence(signals)), now)]
    else if risk >= 80 then
      [NewAlert(host, agentId, Ascii("HIGH_RISK_SCORE"), HIGH,
         Ascii("High risk score (") + Numeral(risk) + Ascii(") for agent ") + agentId,
         EvidenceLinks(host, signals), now)]
    else []
  }

  // ---- The procedure of the source ----

  method DedupeEvidence(evidence: seq<Link>) returns (result: seq<Link>)
    ensures result == Dedupe(evidence)
  {
    var seen: set<Text> := {};
    result := [];
    for i := 0 to |evidence|
      invariant forall key :: key in seen <==> SeenKey(evidence[..i], key)
      invariant result == Dedupe(evidence[..i])
    {
      var e := evidence[i];
      assert evidence[..i + 1] == evidence[..i] + [e];
      assert evidence[..i + 1][..i] == evidence[..i];
      var key := DedupeKey(e);
      if key !in seen {
        seen := seen + {key};
        result := result + [e];
      }
    }
    assert evidence[..|evidence|] == evidence;
  }

  method AccumulateRisk(allSignals: seq<Signal>) returns (overallRisk: int, hasCritical: bool)
    ensures overallRisk == OverallRisk(allSignals) && hasCritical == HasCritical(allSignals)
  {
    var rawScore := 0.0;
    hasCritical := false;
    for i := 0 to |allSignals|
      invariant rawScore == RawScore(allSignals[..i])
      invariant hasCritical == HasCritical(allSignals[..i])
    {
      var signal := allSignals[i];
      assert allSignals[..i + 1] == allSignals[..i] + [signal];
      assert Map(Scored, allSignals[..i + 1])[..i] == Map(Scored, allSignals[..i]);
      rawScore := rawScore + Points(signal.severity) as real * signal.weight;
      if signal.severity == CRITICAL {
        hasCritical := true;
      }
    }
    assert allSignals[..|allSignals|] == allSignals;
    overallRisk := if hasCritical then 100 else if Round(rawScore) < 100 then Round(rawScore) else 100;
  }

  method CollectReasons(allSignals: seq<Signal>, hasCritical: bool) returns (reasons: seq<Text>)
    requires hasCritical == HasCritical(allSignals)
    ensures reasons == Reasons(allSignals)
  {
    var reasonSet: seq<Text> := [];
    for i := 0 to |allSignals|
      invariant reasonSet == ReasonSet(allSignals[..i])
    {
      assert allSignals[..i + 1][..i] == allSignals[..i];
      reasonSet := Add(reasonSet, ReasonOf(allSignals[i]));
    }
    assert allSignals[..|allSignals|] == allSignals;
    if hasCritical {
      reasonSet := Add(reasonSet, CRITICAL_REASON);
    }
    reasons := Sort(Compare, reasonSet);
  }

  method CollectEvidence(host: Host, allSignals: seq<Signal>) returns (evidenceLinks: seq<Link>)
    ensures evidenceLinks == EvidenceLinks(host, allSignals)
  {
    var allEvidence: seq<Link> := [];
    for i := 0 to |allSignals|
      invariant allEvidence == Evidence(allSignals[..i])
    {
      assert allSignals[..i + 1][..i] == allSignals[..i];
      allEvidence := allEvidence + allSignals[i].evidence;
    }
    assert allSignals[..|allSignals|] == allSignals;
    var deduped := DedupeEvidence(allEvidence);
    evidenceLinks := SortEvidence(host.locale, deduped);
  }

  method ScoreAgent(host: Host, agentId: Text, snapshots: seq<Snapshot>, generatedAt: int) returns (report: Report, newAlerts: seq<Alert>)
    ensures report == ReportOf(host, agentId, snapshots, generatedAt)
    ensures newAlerts == AlertsOf(host, agentId, snapshots, generatedAt)
  {
    var allSignals := AllSignals(snapshots);
    var overallRisk, hasCritical := AccumulateRisk(allSignals);
    var reasons := CollectReasons(allSignals, hasCritical);
    var evidenceLinks := CollectEvidence(host, allSignals);
    report := Identified(host, Report(
      agentId, ConfidenceOf(snapshots), evidenceLinks, overallRisk, reasons, Summaries(host, allSignals), [], generatedAt));

    newAlerts := [];
    if hasCritical {
      newAlerts := newAlerts + [NewAlert(host, agentId, Ascii("CRITICAL_SIGNAL_DETECTED"), CRITICAL,
        Ascii("Critical signal detected for agent ") + agentId + Ascii(". Overall risk: ") + Numeral(overallRisk),
        SortEvidence(host.locale, CriticalEvidence(allSignals)), generatedAt)];
    }
    if overallRisk >= 80 && !hasCritical {
      newAlerts := newAlerts + [NewAlert(host, agentId, Ascii("HIGH_RISK_SCORE"), HIGH,
        Ascii("High risk score (") + Numeral(overallRisk) + Ascii(") for agent ") + agentId,
        evidenceLinks, generatedAt)];
    }
  }
}
