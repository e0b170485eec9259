/** What a report and its alerts say of the signals (packages/watchtower-core/src/scoring/scoreAgent.ts). */
module ReportMeaning {
  import opened Texts
  import opened Json
  import opened Lists
  import opened Sorting
  import opened Scoring
  import opened ScoringLaws
  import Canonical

  // ---- The signals of the snapshots ----

  predicate Emitted(snapshots: seq<Snapshot>, s: Signal) { exists x <- snapshots :: s in x.signals }

  predicate IsCritical(snapshots: seq<Snapshot>) { exists x <- snapshots :: exists s <- x.signals :: s.severity == CRITICAL }

  /** The signals of this severity in one list, each counted as much as `unit` says. */
  function TotalIn(unit: Signal -> real, signals: seq<Signal>, severity: Severity): real {
    if signals == [] then 0.0
    else (if signals[0].severity == severity then unit(signals[0]) else 0.0) + TotalIn(unit, signals[1..], severity)
  }

  function Total(unit: Signal -> real, snapshots: seq<Snapshot>, severity: Severity): real {
    if snapshots == [] then 0.0 else TotalIn(unit, snapshots[0].signals, severity) + Total(unit, snapshots[1..], severity)
  }

  function WeightOf(s: Signal): real { s.weight }

  function OneEach(s: Signal): real { 1.0 }

  /** 5, 15 and 30 points for the weights of each severity. */
  function Score(unit: Signal -> real, snapshots: seq<Snapshot>): real {
    5.0 * Total(unit, snapshots, LOW) + 15.0 * Total(unit, snapshots, MEDIUM) + 30.0 * Total(unit, snapshots, HIGH)
  }

  lemma {:induction false} TotalInAppend(unit: Signal -> real, xs: seq<Signal>, ys: seq<Signal>, severity: Severity)
    ensures TotalIn(unit, xs + ys, severity) == TotalIn(unit, xs, severity) + TotalIn(unit, ys, severity)
  {
    if xs == [] {
      assert xs + ys == ys;
    } else {
      assert (xs + ys)[1..] == xs[1..] + ys;
      TotalInAppend(unit, xs[1..], ys, severity);
    }
  }

  lemma {:induction false} AllSignalsFirst(snapshots: seq<Snapshot>)
    requires snapshots != []
    ensures AllSignals(snapshots) == snapshots[0].signals + AllSignals(snapshots[1..])
  {
    var last := |snapshots| - 1;
    if last == 0 {
      assert snapshots[..0] == [] && snapshots[1..] == [];
      assert [] + snapshots[0].signals == snapshots[0].signals + [];
    } else {
      AllSignalsFirst(snapshots[..last]);
      assert snapshots[1..][..last - 1] == snapshots[..last][1..];
      Associative(snapshots[0].signals, AllSignals(snapshots[1..last]), snapshots[last].signals);
    }
  }

  lemma {:induction false} TotalOfAll(unit: Signal -> real, snapshots: seq<Snapshot>, severity: Severity)
    ensures TotalIn(unit, AllSignals(snapshots), severity) == Total(unit, snapshots, severity)
  {
    if snapshots != [] {
      AllSignalsFirst(snapshots);
      TotalInAppend(unit, snapshots[0].signals, AllSignals(snapshots[1..]), severity);
      TotalOfAll(unit, snapshots[1..], severity);
    }
  }

  lemma {:induction false} AllAreEmitted(snapshots: seq<Snapshot>)
    ensures forall s :: s in AllSignals(snapshots) <==> Emitted(snapshots, s)
  {
    if snapshots != [] {
      AllSignalsFirst(snapshots);
      AllAreEmitted(snapshots[1..]);
      assert snapshots == [snapshots[0]] + snapshots[1..];
    }
  }

  lemma CriticalIsEmitted(snapshots: seq<Snapshot>)
    ensures HasCritical(AllSignals(snapshots)) <==> IsCritical(snapshots)
  {
    AllAreEmitted(snapshots);
    if x :| x in snapshots && exists s <- x.signals :: s.severity == CRITICAL {
      var s :| s in x.signals && s.severity == CRITICAL;
      assert Emitted(snapshots, s) && s in AllSignals(snapshots);
    }
    if s :| s in AllSignals(snapshots) && s.severity == CRITICAL {
      assert Emitted(snapshots, s);
    }
  }

  // ---- The risk ----

  lemma TotalInLast(unit: Signal -> real, front: seq<Signal>, last: Signal, severity: Severity)
    ensures TotalIn(unit, front + [last], severity) == TotalIn(unit, front, severity) + if last.severity == severity then unit(last) else 0.0
  {
    TotalInAppend(unit, front, [last], severity);
    assert [last][1..] == [];
  }

  /** The points of all levels for a list. */
  function AllPoints(signals: seq<Signal>): real {
    5.0 * TotalIn(WeightOf, signals, LOW) + 15.0 * TotalIn(WeightOf, signals, MEDIUM)
    + 30.0 * TotalIn(WeightOf, signals, HIGH) + 60.0 * TotalIn(WeightOf, signals, CRITICAL)
  }

  lemma PointsLast(front: seq<Signal>, last: Signal)
    ensures AllPoints(front + [last]) == AllPoints(front) + Points(last.severity) as real * last.weight
  {
    TotalInLast(WeightOf, front, last, LOW);
    TotalInLast(WeightOf, front, last, MEDIUM);
    TotalInLast(WeightOf, front, last, HIGH);
    TotalInLast(WeightOf, front, last, CRITICAL);
  }

  lemma RawLast(front: seq<Signal>, last: Signal)
    ensures RawScore(front + [last]) == RawScore(front) + Points(last.severity) as real * last.weight
  {
    MapAppend(Scored, front, last);
    var scores := Map(Scored, front + [last]);
    assert scores[..|front|] == Map(Scored, front) && scores[|front|] == Scored(last);
  }

  lemma {:induction false} RawByLevels(signals: seq<Signal>)
    ensures RawScore(signals) == AllPoints(signals)
  {
    if signals != [] {
      var front, last := signals[..|signals| - 1], signals[|signals| - 1];
      assert signals == front + [last];
      RawByLevels(front);
      PointsLast(front, last);
      RawLast(front, last);
    }
  }

  lemma {:induction false} NoneOfLevel(unit: Signal -> real, signals: seq<Signal>, severity: Severity)
    requires forall s <- signals :: s.severity != severity
    ensures TotalIn(unit, signals, severity) == 0.0
  {
    if signals != [] {
      NoneOfLevel(unit, signals[1..], severity);
    }
  }

  lemma RawIsScore(snapshots: seq<Snapshot>)
    requires !IsCritical(snapshots)
    ensures RawScore(AllSignals(snapshots)) == Score(WeightOf, snapshots)
  {
    var signals := AllSignals(snapshots);
    CriticalIsEmitted(snapshots);
    RawByLevels(signals);
    NoneOfLevel(WeightOf, signals, CRITICAL);
    TotalOfAll(WeightOf, snapshots, LOW);
    TotalOfAll(WeightOf, snapshots, MEDIUM);
    TotalOfAll(WeightOf, snapshots, HIGH);
  }

  /** 100 with a critical signal or from a score of 99.5 on; below, the integer nearest to the score, halves rounded up. */
  predicate IsRisk(snapshots: seq<Snapshot>, risk: int) {
    if IsCritical(snapshots) || Score(WeightOf, snapshots) >= 99.5 then risk == 100
    else risk as real - 0.5 <= Score(WeightOf, snapshots) < risk as real + 0.5
  }

  lemma RiskMeans(host: Host, agentId: Text, snapshots: seq<Snapshot>, now: int)
    ensures IsRisk(snapshots, ReportOf(host, agentId, snapshots, now).overallRisk)
  {
    CriticalIsEmitted(snapshots);
    if !IsCritical(snapshots) {
      RawIsScore(snapshots);
    }
  }

  lemma {:induction false} UnitTotalIn(signals: seq<Signal>, severity: Severity)
    requires forall s <- signals :: s.weight == 1.0
    ensures TotalIn(WeightOf, signals, severity) == TotalIn(OneEach, signals, severity)
  {
    if signals != [] {
      UnitTotalIn(signals[1..], severity);
    }
  }

  lemma {:induction false} UnitTotal(snapshots: seq<Snapshot>, severity: Severity)
    requires forall x <- snapshots :: forall s <- x.signals :: s.weight == 1.0
    ensures Total(WeightOf, snapshots, severity) == Total(OneEach, snapshots, severity)
  {
    if snapshots != [] {
      UnitTotalIn(snapshots[0].signals, severity);
      UnitTotal(snapshots[1..], severity);
    }
  }

  function NumberIn(signals: seq<Signal>, severity: Severity): nat {
    if signals == [] then 0 else (if signals[0].severity == severity then 1 else 0) + NumberIn(signals[1..], severity)
  }

  /** How many signals of this severity the snapshots hold. */
  function Number(snapshots: seq<Snapshot>, severity: Severity): nat {
    if snapshots == [] then 0 else NumberIn(snapshots[0].signals, severity) + Number(snapshots[1..], severity)
  }

  lemma {:induction false} NumberInIsTotal(signals: seq<Signal>, severity: Severity)
    ensures NumberIn(signals, severity) as real == TotalIn(OneEach, signals, severity)
  {
    if signals != [] {
      NumberInIsTotal(signals[1..], severity);
    }
  }

  lemma {:induction false} NumberIsTotal(snapshots: seq<Snapshot>, severity: Severity)
    ensures Number(snapshots, severity) as real == Total(OneEach, snapshots, severity)
  {
    if snapshots != [] {
      NumberInIsTotal(snapshots[0].signals, severity);
      NumberIsTotal(snapshots[1..], severity);
    }
  }

  /** Signals of full weight count 5, 15 and 30 points each, up to 100. */
  lemma FullWeights(host: Host, agentId: Text, snapshots: seq<Snapshot>, now: int)
    requires !IsCritical(snapshots) && forall x <- snapshots :: forall s <- x.signals :: s.weight == 1.0
    ensures
      var points := 5 * Number(snapshots, LOW) + 15 * Number(snapshots, MEDIUM) + 30 * Number(snapshots, HIGH);
      ReportOf(host, agentId, snapshots, now).overallRisk == if points < 100 then points else 100
  {
    RiskMeans(host, agentId, snapshots, now);
    forall severity: Severity ensures Total(WeightOf, snapshots, severity) == Number(snapshots, severity) as real {
      UnitTotal(snapshots, severity);
      NumberIsTotal(snapshots, severity);
    }
  }

  // ---- The alerts ----

  /** `a` may stand before `b`: its type comes first, or the types compare as equal and its reference does not come after. */
  predicate LinkedBefore(locale: (Text, Text) -> int, a: Link, b: Link) {
    locale(a.kind, b.kind) < 0 || (locale(a.kind, b.kind) == 0 && locale(a.ref, b.ref) <= 0)
  }

  ghost predicate LinksAscend(locale: (Text, Text) -> int, links: seq<Link>) {
    forall i, j :: 0 <= i < j < |links| ==> LinkedBefore(locale, links[i], links[j])
  }

  lemma SortedLinks(locale: (Text, Text) -> int, links: seq<Link>)
    requires TotalPreorder(locale)
    ensures LinksAscend(locale, SortEvidence(locale, links))
  {
    LocaleLifts(locale);
    SortSorted(LinkOrder(locale), links);
    var sorted := SortEvidence(locale, links);
    forall i, j | 0 <= i < j < |sorted| ensures LinkedBefore(locale, sorted[i], sorted[j]) {
      assert LinkOrder(locale)(sorted[i], sorted[j]) <= 0;
    }
  }

  /** `links` are, in their order, the evidence of all critical signals. */
  ghost predicate CriticalLinks(host: Host, snapshots: seq<Snapshot>, links: seq<Link>) {
    && LinksAscend(host.locale, links)
    && forall e :: e in links <==> exists s :: Emitted(snapshots, s) && s.severity == CRITICAL && e in s.evidence
  }

  lemma {:induction false} CriticalEvidenceMembers(signals: seq<Signal>)
    ensures forall e :: e in CriticalEvidence(signals) <==> exists s <- signals :: s.severity == CRITICAL && e in s.evidence
  {
    if signals != [] {
      var front, last := signals[..|signals| - 1], signals[|signals| - 1];
      assert signals == front + [last];
      CriticalEvidenceMembers(front);
    }
  }

  /** One alert at most: for a critical signal, or else for a score of at least 79.5. */
  lemma AlertsMean(host: Host, agentId: Text, snapshots: seq<Snapshot>, now: int)
    ensures
      var alerts := AlertsOf(host, agentId, snapshots, now);
      if IsCritical(snapshots) then
        |alerts| == 1 && alerts[0].kind == Ascii("CRITICAL_SIGNAL_DETECTED") && alerts[0].severity == CRITICAL
      else if Score(WeightOf, snapshots) >= 79.5 then
        |alerts| == 1 && alerts[0].kind == Ascii("HIGH_RISK_SCORE") && alerts[0].severity == HIGH
      else alerts == []
    ensures forall a <- AlertsOf(host, agentId, snapshots, now) :: a.agentId == agentId && a.createdAt == now && a.isActive
  {
    CriticalIsEmitted(snapshots);
    if !IsCritical(snapshots) {
      RawIsScore(snapshots);
    }
  }

  lemma CriticalIsLinked(host: Host, snapshots: seq<Snapshot>)
    requires TotalPreorder(host.locale)
    ensures CriticalLinks(host, snapshots, SortEvidence(host.locale, CriticalEvidence(AllSignals(snapshots))))
  {
    var signals := AllSignals(snapshots);
    AllAreEmitted(snapshots);
    CriticalEvidenceMembers(signals);
    SortedLinks(host.locale, CriticalEvidence(signals));
    SortMultiset(LinkOrder(host.locale), CriticalEvidence(signals));
    forall e ensures e in CriticalEvidence(signals) <==> exists s :: Emitted(snapshots, s) && s.severity == CRITICAL && e in s.evidence {
      if s :| Emitted(snapshots, s) && s.severity == CRITICAL && e in s.evidence {
        assert s in signals;
      }
      if s :| s in signals && s.severity == CRITICAL && e in s.evidence {
        assert Emitted(snapshots, s);
      }
    }
  }

  /** The alert shows the critical evidence, or all the evidence of the report. */
  lemma AlertEvidence(host: Host, agentId: Text, snapshots: seq<Snapshot>, now: int)
    requires TotalPreorder(host.locale)
    ensures forall a <- AlertsOf(host, agentId, snapshots, now) ::
              if IsCritical(snapshots) then CriticalLinks(host, snapshots, a.evidenceLinks)
              else a.evidenceLinks == ReportOf(host, agentId, snapshots, now).evidenceLinks
  {
    CriticalIsEmitted(snapshots);
    CriticalIsLinked(host, snapshots);
  }

  /** The alert's text names the agent and the report's risk, 100 where it is critical. */
  lemma AlertTexts(host: Host, agentId: Text, snapshots: seq<Snapshot>, now: int)
    ensures forall a <- AlertsOf(host, agentId, snapshots, now) ::
              a.description ==
                if IsCritical(snapshots) then
                  Ascii("Critical signal detected for agent ") + agentId + Ascii(". Overall risk: ") + Numeral(100)
                else
                  Ascii("High risk score (") + Numeral(ReportOf(host, agentId, snapshots, now).overallRisk) + Ascii(") for agent ") + agentId
  {
    CriticalIsEmitted(snapshots);
  }

  // ---- Confidence ----

  function SignalCount(snapshots: seq<Snapshot>): nat {
    if snapshots == [] then 0 else |snapshots[0].signals| + SignalCount(snapshots[1..])
  }

  predicate Several(snapshots: seq<Snapshot>) {
    exists x <- snapshots, y <- snapshots :: x.snapshotId != y.snapshotId
  }

  lemma {:induction false} CountAll(snapshots: seq<Snapshot>)
    ensures |AllSignals(snapshots)| == SignalCount(snapshots)
  {
    if snapshots != [] {
      AllSignalsFirst(snapshots);
      CountAll(snapshots[1..]);
    }
  }

  lemma TwoElements<T>(s: set<T>, x: T, y: T)
    requires x in s && y in s && x != y
    ensures |s| >= 2
  {
    assert s == {x} + (s - {x});
    assert y in s - {x};
  }

  lemma TwoIds(snapshots: seq<Snapshot>)
    ensures |SnapshotIds(snapshots)| >= 2 <==> Several(snapshots)
  {
    var ids := SnapshotIds(snapshots);
    if x, y :| x in snapshots && y in snapshots && x.snapshotId != y.snapshotId {
      TwoElements(ids, x.snapshotId, y.snapshotId);
    } else if snapshots == [] {
      assert ids == {};
    } else {
      forall id | id in ids ensures id == snapshots[0].snapshotId {
      }
      assert ids == {snapshots[0].snapshotId};
    }
  }

  /** High confidence takes five signals from two snapshots, medium two signals. */
  lemma ConfidenceMeans(host: Host, agentId: Text, snapshots: seq<Snapshot>, now: int)
    ensures
      var confidence := ReportOf(host, agentId, snapshots, now).confidence;
      && (confidence == High <==> SignalCount(snapshots) >= 5 && Several(snapshots))
      && (confidence == Low <==> SignalCount(snapshots) <= 1)
  {
    CountAll(snapshots);
    TwoIds(snapshots);
  }

  // ---- Reasons, links and summaries ----

  /** The text is the reason of a signal. */
  predicate IsReason(snapshots: seq<Snapshot>, t: Text) {
    exists x <- snapshots :: exists s <- x.signals :: t == SeverityName(s.severity) + Ascii(" signal: ") + s.signalId
  }

  lemma ReasonsAreEmitted(snapshots: seq<Snapshot>)
    ensures forall t :: t in ReasonSet(AllSignals(snapshots)) <==> IsReason(snapshots, t)
  {
    var signals := AllSignals(snapshots);
    AllAreEmitted(snapshots);
    ReasonSetMembers(signals);
    forall t ensures t in ReasonSet(signals) <==> IsReason(snapshots, t) {
      if t in ReasonSet(signals) {
        var s :| s in signals && ReasonOf(s) == t;
        assert Emitted(snapshots, s);
      }
      if x :| x in snapshots && exists s <- x.signals :: t == SeverityName(s.severity) + Ascii(" signal: ") + s.signalId {
        var s :| s in x.signals && t == ReasonOf(s);
        assert Emitted(snapshots, s) && s in signals;
      }
    }
  }

  lemma SortedReasons(reasons: seq<Text>)
    requires NoRepeat(reasons)
    ensures Canonical.Increasing(Sort(Compare, reasons))
    ensures forall t :: t in Sort(Compare, reasons) <==> t in reasons
  {
    SortMultiset(Compare, reasons);
    Canonical.CompareIsPreorder();
    SortSorted(Compare, reasons);
    Canonical.DistinctPermutation(reasons, Sort(Compare, reasons));
  }

  /** Each signal gives one reason, a critical one a further one; they ascend in code-unit order. */
  lemma ReasonsMean(host: Host, agentId: Text, snapshots: seq<Snapshot>, now: int)
    ensures
      var reasons := ReportOf(host, agentId, snapshots, now).reasons;
      && Canonical.Increasing(reasons)
      && forall t :: t in reasons <==> IsReason(snapshots, t) || (IsCritical(snapshots) && t == CRITICAL_REASON)
  {
    var signals := AllSignals(snapshots);
    CriticalIsEmitted(snapshots);
    ReasonsAreEmitted(snapshots);
    ReasonSetMembers(signals);
    SortedReasons(if HasCritical(signals) then Add(ReasonSet(signals), CRITICAL_REASON) else ReasonSet(signals));
  }

  predicate Shown(links: seq<Link>, key: Text) { exists e <- links :: e.kind + [COLON] + e.ref == key }

  lemma {:induction false} EvidenceMembers(signals: seq<Signal>)
    ensures forall e :: e in Evidence(signals) <==> exists s <- signals :: e in s.evidence
  {
    if signals != [] {
      var front, last := signals[..|signals| - 1], signals[|signals| - 1];
      assert signals == front + [last];
      EvidenceMembers(front);
    }
  }

  predicate HasEvidence(snapshots: seq<Snapshot>, e: Link) { exists x <- snapshots :: exists s <- x.signals :: e in s.evidence }

  lemma EvidenceIsEmitted(snapshots: seq<Snapshot>)
    ensures forall e :: e in Evidence(AllSignals(snapshots)) <==> HasEvidence(snapshots, e)
  {
    AllAreEmitted(snapshots);
    EvidenceMembers(AllSignals(snapshots));
    forall e ensures e in Evidence(AllSignals(snapshots)) <==> HasEvidence(snapshots, e) {
      if e in Evidence(AllSignals(snapshots)) {
        var s :| s in AllSignals(snapshots) && e in s.evidence;
        assert Emitted(snapshots, s);
      }
      if x :| x in snapshots && exists s <- x.signals :: e in s.evidence {
        var s :| s in x.signals && e in s.evidence;
        assert Emitted(snapshots, s) && s in AllSignals(snapshots);
      }
    }
  }

  /** The links of the report are links of signals, in order, one for every `type:ref` that occurs. */
  lemma LinksMean(host: Host, agentId: Text, snapshots: seq<Snapshot>, now: int)
    requires TotalPreorder(host.locale)
    ensures
      var links := ReportOf(host, agentId, snapshots, now).evidenceLinks;
      && LinksAscend(host.locale, links)
      && (forall e <- links :: HasEvidence(snapshots, e))
      && (forall e :: HasEvidence(snapshots, e) ==> Shown(links, e.kind + [COLON] + e.ref))
      && (forall i, j :: 0 <= i < j < |links| ==> links[i].kind + [COLON] + links[i].ref != links[j].kind + [COLON] + links[j].ref)
  {
    var all := Evidence(AllSignals(snapshots));
    var kept, links := Dedupe(all), EvidenceLinks(host, AllSignals(snapshots));
    EvidenceIsEmitted(snapshots);
    DedupeMembers(all);
    SortedLinks(host.locale, kept);
    SortMultiset(LinkOrder(host.locale), kept);
    forall e | e in all ensures Shown(links, e.kind + [COLON] + e.ref) {
      DedupeKeepsKeys(all, DedupeKey(e));
      var f :| f in kept && DedupeKey(f) == DedupeKey(e);
      assert f in links;
    }
    KeysStayDifferent(kept, links);
  }

  lemma KeysStayDifferent(kept: seq<Link>, links: seq<Link>)
    requires multiset(links) == multiset(kept)
    requires forall i, j :: 0 <= i < j < |kept| ==> DedupeKey(kept[i]) != DedupeKey(kept[j])
    ensures forall i, j :: 0 <= i < j < |links| ==> DedupeKey(links[i]) != DedupeKey(links[j])
  {
    SortedKeysDiffer(Map(DedupeKey, kept), Map(DedupeKey, links)) by {
      MapIsBag(DedupeKey, kept);
      MapIsBag(DedupeKey, links);
      BagIncluded(One(DedupeKey), kept, links);
    }
    forall i, j | 0 <= i < j < |links| ensures DedupeKey(links[i]) != DedupeKey(links[j]) {
      assert Map(DedupeKey, links)[i] != Map(DedupeKey, links)[j];
    }
  }

  lemma SortedKeysDiffer(xs: seq<Text>, ys: seq<Text>)
    requires forall i, j :: 0 <= i < j < |xs| ==> xs[i] != xs[j]
    requires multiset(xs) == multiset(ys)
    ensures forall i, j :: 0 <= i < j < |ys| ==> ys[i] != ys[j]
  {
    Canonical.DistinctPermutation(xs, ys);
  }

  /** From the least severe to the most. */
  function Level(s: Severity): nat { match s case LOW => 0 case MEDIUM => 1 case HIGH => 2 case CRITICAL => 3 }

  /** `a` may stand before `b`: it is more severe, or as severe and its id not after that of `b`. */
  predicate ListedBefore(locale: (Text, Text) -> int, a: Summary, b: Summary) {
    || Level(a.severity) > Level(b.severity)
    || (a.severity == b.severity && locale(a.signalId, b.signalId) <= 0)
  }

  lemma RankIsLevel(locale: (Text, Text) -> int, a: Summary, b: Summary)
    ensures SummaryOrder(locale)(a, b) <= 0 <==> ListedBefore(locale, a, b)
  {
  }

  /** The report lists each signal once, the most severe first, signals of one severity by id. */
  lemma SummariesMean(host: Host, agentId: Text, snapshots: seq<Snapshot>, now: int)
    requires TotalPreorder(host.locale)
    ensures
      var listed := ReportOf(host, agentId, snapshots, now).signals;
      && multiset(listed) == multiset(Map(SummaryOf, AllSignals(snapshots)))
      && forall i, j :: 0 <= i < j < |listed| ==> ListedBefore(host.locale, listed[i], listed[j])
  {
    var order, summaries := SummaryOrder(host.locale), Map(SummaryOf, AllSignals(snapshots));
    SortByKey(SummaryOf, order, SignalOrder(host.locale), AllSignals(snapshots));
    LocaleLifts(host.locale);
    SortSorted(order, summaries);
    SortMultiset(order, summaries);
    var listed := Sort(order, summaries);
    assert ReportOf(host, agentId, snapshots, now).signals == listed;
    forall i, j | 0 <= i < j < |listed| ensures ListedBefore(host.locale, listed[i], listed[j]) {
      RankIsLevel(host.locale, listed[i], listed[j]);
    }
  }
}
