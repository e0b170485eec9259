/**
 Exactly when the risk report does not depend on the order in which signals arrive
 (packages/watchtower-core/src/scoring/scoreAgent.ts, packages/watchtower-core/src/utils/sort.ts).
 */
module ScoringExact {
  import opened Texts
  import opened Lists
  import opened Sorting
  import opened Scoring
  import opened ScoringLaws

  // ---- The two sorts ----

  lemma SignalOrderIsPreorder(locale: (Text, Text) -> int)
    requires TotalPreorder(locale)
    ensures TotalPreorder(SignalOrder(locale))
  {
    LocaleLifts(locale);
    forall a, b ensures Opposite(SignalOrder(locale), a, b) {
      assert Opposite(SummaryOrder(locale), SummaryOf(a), SummaryOf(b));
    }
    forall a, b, c ensures Transitive(SignalOrder(locale), a, b, c) {
      assert Transitive(SummaryOrder(locale), SummaryOf(a), SummaryOf(b), SummaryOf(c));
    }
  }

  /** `sortSignals` and `sortEvidence` give one result for all arrival orders exactly if what they compare as equal is equal. */
  lemma SortsOrderFree(locale: (Text, Text) -> int, signals: seq<Signal>, links: seq<Link>)
    requires TotalPreorder(locale)
    ensures OrderFree(SignalOrder(locale), signals) <==> Separates(SignalOrder(locale), signals)
    ensures OrderFree(LinkOrder(locale), links) <==> Separates(LinkOrder(locale), links)
  {
    SignalOrderIsPreorder(locale);
    LocaleLifts(locale);
    SortOrderFree(SignalOrder(locale), signals);
    SortOrderFree(LinkOrder(locale), links);
  }

  /** Of the elements that compare equal, the one that comes first in the list has this place in the sorted one. */
  lemma FirstOfSort<T(!new)>(cmp: (T, T) -> int, xs: seq<T>)
    requires TotalPreorder(cmp) && xs != []
    ensures Below(cmp, xs[0], xs) < |Sort(cmp, xs)| && Sort(cmp, xs)[Below(cmp, xs[0], xs)] == xs[0]
  {
    SortFronted(cmp, xs, 0);
    assert Fronted(xs, 0) == xs;
  }

  lemma FirstShows<T(!new)>(cmp: (T, T) -> int, us: seq<T>, vs: seq<T>)
    requires TotalPreorder(cmp) && multiset(us) == multiset(vs) && us != [] && vs != []
    requires us[0] != vs[0] && cmp(us[0], vs[0]) == 0
    ensures Sort(cmp, us) != Sort(cmp, vs)
  {
    FirstOfSort(cmp, us);
    FirstOfSort(cmp, vs);
    BelowPermutation(cmp, vs[0], us, vs);
    BelowEquivalent(cmp, us[0], vs[0], us);
  }

  // ---- Any signal, and any link, can arrive first ----

  lemma {:induction false} FindSignal(xs: seq<Snapshot>, s: Signal) returns (i: nat, j: nat)
    requires s in AllSignals(xs)
    ensures i < |xs| && j < |xs[i].signals| && xs[i].signals[j] == s
  {
    var last := |xs| - 1;
    if s in AllSignals(xs[..last]) {
      i, j := FindSignal(xs[..last], s);
    } else {
      i := last;
      j :| 0 <= j < |xs[last].signals| && xs[last].signals[j] == s;
    }
  }

  lemma {:induction false} FindLink(signals: seq<Signal>, e: Link) returns (s: Signal, k: nat)
    requires e in Evidence(signals)
    ensures s in signals && k < |s.evidence| && s.evidence[k] == e
  {
    var last := |signals| - 1;
    if e in Evidence(signals[..last]) {
      s, k := FindLink(signals[..last], e);
    } else {
      s := signals[last];
      k :| 0 <= k < |s.evidence| && s.evidence[k] == e;
    }
  }

  lemma {:induction false} HeadSignal(xs: seq<Snapshot>)
    requires xs != [] && xs[0].signals != []
    ensures AllSignals(xs) != [] && AllSignals(xs)[0] == xs[0].signals[0]
  {
    if |xs| > 1 {
      HeadSignal(xs[..|xs| - 1]);
    } else {
      assert AllSignals(xs[..0]) == [];
    }
  }

  lemma {:induction false} HeadLink(signals: seq<Signal>)
    requires signals != [] && signals[0].evidence != []
    ensures Evidence(signals) != [] && Evidence(signals)[0] == signals[0].evidence[0]
  {
    if |signals| > 1 {
      HeadLink(signals[..|signals| - 1]);
    } else {
      assert Evidence(signals[..0]) == [];
    }
  }

  /** `s` replaced by the same signal in another order of its evidence, and moved to the front. */
  lemma SignalFirst(xs: seq<Snapshot>, s: Signal, t: Signal) returns (ys: seq<Snapshot>)
    requires s in AllSignals(xs) && SameSignal(s, t)
    ensures Rearranged(xs, ys) && AllSignals(ys) != [] && AllSignals(ys)[0] == t
  {
    var i, j := FindSignal(xs, s);
    var zs := Fronted(xs, i);
    var signals := Fronted(xs[i].signals, j);
    var first := Snapshot(xs[i].snapshotId, signals[0 := t]);
    ys := zs[0 := first];
    assert MatchSignals(signals, first.signals);
    assert SameSnapshot(zs[0], first);
    forall k | 0 <= k < |zs| ensures SameSnapshot(zs[k], ys[k]) {
      if k > 0 {
        assert MatchSignals(zs[k].signals, zs[k].signals);
      }
    }
    assert MatchSnapshots(zs, ys);
    HeadSignal(ys);
  }

  lemma LinkFirst(xs: seq<Snapshot>, e: Link) returns (ys: seq<Snapshot>)
    requires e in Evidence(AllSignals(xs))
    ensures Rearranged(xs, ys) && Evidence(AllSignals(ys)) != [] && Evidence(AllSignals(ys))[0] == e
  {
    var s, k := FindLink(AllSignals(xs), e);
    ys := SignalFirst(xs, s, s.(evidence := Fronted(s.evidence, k)));
    HeadLink(AllSignals(ys));
  }

  // ---- The report ----

  /** Report and alerts are the same for every rearrangement of the input. */
  ghost predicate ReportOrderFree(host: Host, agentId: Text, xs: seq<Snapshot>, now: int) {
    forall ys | Rearranged(xs, ys) ::
      ReportOf(host, agentId, ys, now) == ReportOf(host, agentId, xs, now) && AlertsOf(host, agentId, ys, now) == AlertsOf(host, agentId, xs, now)
  }

  /** Two links with one key: whichever arrives first is the one shown. */
  lemma ClashShows(host: Host, xs: seq<Snapshot>, e: Link, f: Link) returns (ys: seq<Snapshot>, zs: seq<Snapshot>)
    requires e in Evidence(AllSignals(xs)) && f in Evidence(AllSignals(xs)) && e != f && DedupeKey(e) == DedupeKey(f)
    ensures Rearranged(xs, ys) && Rearranged(xs, zs)
    ensures EvidenceLinks(host, AllSignals(ys)) != EvidenceLinks(host, AllSignals(zs))
  {
    ys := LinkFirst(xs, e);
    zs := LinkFirst(xs, f);
    OnlyFirst(host, AllSignals(ys), f);
    OnlyFirst(host, AllSignals(zs), e);
    assert e in EvidenceLinks(host, AllSignals(ys)) && e !in EvidenceLinks(host, AllSignals(zs));
  }

  lemma OnlyFirst(host: Host, signals: seq<Signal>, f: Link)
    requires Evidence(signals) != [] && f != Evidence(signals)[0] && DedupeKey(f) == DedupeKey(Evidence(signals)[0])
    ensures Evidence(signals)[0] in EvidenceLinks(host, signals) && f !in EvidenceLinks(host, signals)
  {
    var links := Evidence(signals);
    DedupeMembers(links);
    SortMultiset(LinkOrder(host.locale), Dedupe(links));
    var kept := Dedupe(links);
    assert kept[0] == links[0] && forall i | 0 < i < |kept| :: DedupeKey(kept[i]) != DedupeKey(kept[0]);
  }

  /** Two links that compare equal: they are shown in the order of arrival. */
  lemma TieShows(host: Host, xs: seq<Snapshot>, e: Link, f: Link) returns (ys: seq<Snapshot>, zs: seq<Snapshot>)
    requires TotalPreorder(host.locale) && KeysSeparate(Evidence(AllSignals(xs)))
    requires e in Evidence(AllSignals(xs)) && f in Evidence(AllSignals(xs)) && e != f && LinkOrder(host.locale)(e, f) == 0
    ensures Rearranged(xs, ys) && Rearranged(xs, zs)
    ensures EvidenceLinks(host, AllSignals(ys)) != EvidenceLinks(host, AllSignals(zs))
  {
    ys := LinkFirst(xs, e);
    zs := LinkFirst(xs, f);
    RearrangedEvidence(xs, ys);
    RearrangedEvidence(xs, zs);
    var us, vs := Evidence(AllSignals(ys)), Evidence(AllSignals(zs));
    DedupePermutation(Evidence(AllSignals(xs)), us);
    DedupePermutation(Evidence(AllSignals(xs)), vs);
    DedupeMembers(us);
    DedupeMembers(vs);
    LocaleLifts(host.locale);
    FirstShows(LinkOrder(host.locale), Dedupe(us), Dedupe(vs));
  }

  /** Two summaries that compare equal: they are shown in the order of arrival. */
  lemma SummaryShows(host: Host, xs: seq<Snapshot>, s: Signal, t: Signal) returns (ys: seq<Snapshot>, zs: seq<Snapshot>)
    requires TotalPreorder(host.locale) && s in AllSignals(xs) && t in AllSignals(xs)
    requires SummaryOf(s) != SummaryOf(t) && SummaryOrder(host.locale)(SummaryOf(s), SummaryOf(t)) == 0
    ensures Rearranged(xs, ys) && Rearranged(xs, zs)
    ensures Summaries(host, AllSignals(ys)) != Summaries(host, AllSignals(zs))
  {
    ys := SignalFirst(xs, s, s);
    zs := SignalFirst(xs, t, t);
    RearrangedAlike(xs, ys);
    RearrangedAlike(xs, zs);
    var us, vs := Map(SummaryOf, AllSignals(ys)), Map(SummaryOf, AllSignals(zs));
    SortByKey(SummaryOf, SummaryOrder(host.locale), SignalOrder(host.locale), AllSignals(ys));
    SortByKey(SummaryOf, SummaryOrder(host.locale), SignalOrder(host.locale), AllSignals(zs));
    LocaleLifts(host.locale);
    FirstShows(SummaryOrder(host.locale), us, vs);
  }

  lemma DifferentReports(host: Host, agentId: Text, xs: seq<Snapshot>, ys: seq<Snapshot>, zs: seq<Snapshot>, now: int)
    requires Rearranged(xs, ys) && Rearranged(xs, zs)
    requires
      || EvidenceLinks(host, AllSignals(ys)) != EvidenceLinks(host, AllSignals(zs))
      || Summaries(host, AllSignals(ys)) != Summaries(host, AllSignals(zs))
    ensures !ReportOrderFree(host, agentId, xs, now)
  {
    assert ReportOf(host, agentId, ys, now).evidenceLinks == EvidenceLinks(host, AllSignals(ys));
    assert ReportOf(host, agentId, zs, now).evidenceLinks == EvidenceLinks(host, AllSignals(zs));
    assert ReportOf(host, agentId, ys, now).signals == Summaries(host, AllSignals(ys));
    assert ReportOf(host, agentId, zs, now).signals == Summaries(host, AllSignals(zs));
  }

  /**
   Report, report id and alerts are the same for every order of arrival exactly if links with one key are equal, and
   links and summaries that compare equal are.
   */
  lemma ReportOrderFreeExactly(host: Host, agentId: Text, xs: seq<Snapshot>, now: int)
    requires TotalPreorder(host.locale)
    ensures ReportOrderFree(host, agentId, xs, now) <==> Discerning(host, AllSignals(xs))
  {
    var links := Evidence(AllSignals(xs));
    if Discerning(host, AllSignals(xs)) {
      forall ys | Rearranged(xs, ys)
        ensures ReportOf(host, agentId, ys, now) == ReportOf(host, agentId, xs, now)
        ensures AlertsOf(host, agentId, ys, now) == AlertsOf(host, agentId, xs, now)
      {
        ReportIgnoresArrivalOrder(host, agentId, xs, ys, now);
      }
    } else if !KeysSeparate(links) {
      var e, f :| e in links && f in links && DedupeKey(e) == DedupeKey(f) && e != f;
      var ys, zs := ClashShows(host, xs, e, f);
      DifferentReports(host, agentId, xs, ys, zs, now);
    } else if !Separates(LinkOrder(host.locale), links) {
      var e, f :| e in links && f in links && LinkOrder(host.locale)(e, f) == 0 && e != f;
      var ys, zs := TieShows(host, xs, e, f);
      DifferentReports(host, agentId, xs, ys, zs, now);
    } else {
      var s, t := TiedSignals(host, AllSignals(xs));
      var ys, zs := SummaryShows(host, xs, s, t);
      DifferentReports(host, agentId, xs, ys, zs, now);
    }
  }

  lemma TiedSignals(host: Host, signals: seq<Signal>) returns (s: Signal, t: Signal)
    requires !Separates(SummaryOrder(host.locale), Map(SummaryOf, signals))
    ensures s in signals && t in signals
    ensures SummaryOf(s) != SummaryOf(t) && SummaryOrder(host.locale)(SummaryOf(s), SummaryOf(t)) == 0
  {
    var summaries := Map(SummaryOf, signals);
    var m, n :| m in summaries && n in summaries && SummaryOrder(host.locale)(m, n) == 0 && m != n;
    var i :| 0 <= i < |summaries| && summaries[i] == m;
    var j :| 0 <= j < |summaries| && summaries[j] == n;
    s, t := signals[i], signals[j];
  }
}
