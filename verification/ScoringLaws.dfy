/** What the risk report depends on: its independence of arrival order, and how it grows with the signals. */
module ScoringLaws {
  import opened Texts
  import opened Lists
  import opened Sorting
  import opened Scoring
  import Canonical

  // ---- Multisets gathered over a list ----

  /** The sum of `f` over the list. */
  function Bag<T, U>(f: T -> multiset<U>, xs: seq<T>): multiset<U> {
    if xs == [] then multiset{} else Bag(f, xs[..|xs| - 1]) + f(xs[|xs| - 1])
  }

  lemma {:induction false} BagAppend<T, U>(f: T -> multiset<U>, xs: seq<T>, ys: seq<T>)
    ensures Bag(f, xs + ys) == Bag(f, xs) + Bag(f, ys)
  {
    if ys == [] {
      assert xs + ys == xs;
    } else {
      var last := |ys| - 1;
      assert (xs + ys)[..|xs + ys| - 1] == xs + ys[..last];
      BagAppend(f, xs, ys[..last]);
    }
  }

  lemma {:induction false} BagRemove<T, U>(f: T -> multiset<U>, xs: seq<T>, i: nat)
    requires i < |xs|
    ensures Bag(f, xs) == Bag(f, Removed(xs, i)) + f(xs[i])
  {
    var last := |xs| - 1;
    if i == last {
      assert Removed(xs, i) == xs[..last];
    } else {
      var rest := Removed(xs[..last], i);
      BagRemove(f, xs[..last], i);
      assert Removed(xs, i)[..last - 1] == rest && Removed(xs, i)[last - 1] == xs[last];
    }
  }

  lemma {:induction false} BagIncluded<T, U>(f: T -> multiset<U>, xs: seq<T>, ys: seq<T>)
    requires multiset(xs) <= multiset(ys)
    ensures Bag(f, xs) <= Bag(f, ys)
    ensures multiset(xs) == multiset(ys) ==> Bag(f, xs) == Bag(f, ys)
  {
    if xs == [] {
      assert multiset(xs) == multiset(ys) ==> |ys| == |multiset(ys)| == 0;
    } else {
      var i := Place(xs, ys);
      BagIncluded(f, xs[..|xs| - 1], Removed(ys, i));
      BagRemove(f, ys, i);
    }
  }

  lemma {:induction false} BagPointwise<T, U>(f: T -> multiset<U>, xs: seq<T>, ys: seq<T>)
    requires |xs| == |ys| && forall i :: 0 <= i < |xs| ==> f(xs[i]) == f(ys[i])
    ensures Bag(f, xs) == Bag(f, ys)
  {
    if xs != [] {
      BagPointwise(f, xs[..|xs| - 1], ys[..|ys| - 1]);
    }
  }

  // ---- Rearranging the input ----

  predicate SameSignal(s: Signal, t: Signal) {
    s.signalId == t.signalId && s.severity == t.severity && s.weight == t.weight && multiset(s.evidence) == multiset(t.evidence)
  }

  ghost predicate MatchSignals(xs: seq<Signal>, ys: seq<Signal>) {
    |xs| == |ys| && forall i :: 0 <= i < |xs| ==> SameSignal(xs[i], ys[i])
  }

  /** `t` is `s` with its signals, and the evidence inside them, in another order. */
  ghost predicate SameSnapshot(s: Snapshot, t: Snapshot) {
    && s.snapshotId == t.snapshotId
    && exists zs :: multiset(zs) == multiset(s.signals) && MatchSignals(zs, t.signals)
  }

  ghost predicate MatchSnapshots(xs: seq<Snapshot>, ys: seq<Snapshot>) {
    |xs| == |ys| && forall i :: 0 <= i < |xs| ==> SameSnapshot(xs[i], ys[i])
  }

  /** Snapshots, signals within snapshots and evidence within signals arrive in another order. */
  ghost predicate Rearranged(xs: seq<Snapshot>, ys: seq<Snapshot>) {
    exists zs :: multiset(zs) == multiset(xs) && MatchSnapshots(zs, ys)
  }

  /** A multiset read off a signal that does not depend on the order of its evidence. */
  ghost predicate Orderless<U(!new)>(f: Signal -> multiset<U>) {
    forall s, t :: SameSignal(s, t) ==> f(s) == f(t)
  }

  function OfSnapshot<U>(f: Signal -> multiset<U>): Snapshot -> multiset<U> {
    (s: Snapshot) => Bag(f, s.signals)
  }

  lemma {:induction false} AllSignalsBag<U>(f: Signal -> multiset<U>, xs: seq<Snapshot>)
    ensures Bag(f, AllSignals(xs)) == Bag(OfSnapshot(f), xs)
  {
    if xs != [] {
      var last := |xs| - 1;
      AllSignalsBag(f, xs[..last]);
      BagAppend(f, AllSignals(xs[..last]), xs[last].signals);
    }
  }

  lemma SameSnapshotBag<U(!new)>(f: Signal -> multiset<U>, s: Snapshot, t: Snapshot)
    requires Orderless(f) && SameSnapshot(s, t)
    ensures Bag(f, s.signals) == Bag(f, t.signals)
  {
    var signals :| multiset(signals) == multiset(s.signals) && MatchSignals(signals, t.signals);
    BagIncluded(f, signals, s.signals);
    BagPointwise(f, signals, t.signals);
  }

  /** Everything read off the signals in this way is the same for rearranged input. */
  lemma RearrangedBag<U(!new)>(f: Signal -> multiset<U>, xs: seq<Snapshot>, ys: seq<Snapshot>)
    requires Orderless(f) && Rearranged(xs, ys)
    ensures Bag(f, AllSignals(xs)) == Bag(f, AllSignals(ys))
  {
    AllSignalsBag(f, xs);
    AllSignalsBag(f, ys);
    var zs: seq<Snapshot> :| multiset(zs) == multiset(xs) && MatchSnapshots(zs, ys);
    BagIncluded(OfSnapshot(f), zs, xs);
    forall i | 0 <= i < |zs| ensures OfSnapshot(f)(zs[i]) == OfSnapshot(f)(ys[i]) {
      SameSnapshotBag(f, zs[i], ys[i]);
    }
    BagPointwise(OfSnapshot(f), zs, ys);
  }

  // ---- The parts of the report as multisets ----

  function EvidenceBag(s: Signal): multiset<Link> { multiset(s.evidence) }

  function CriticalBag(s: Signal): multiset<Link> {
    if s.severity == CRITICAL then multiset(s.evidence) else multiset{}
  }

  function One<T, U>(f: T -> U): T -> multiset<U> { x => multiset{f(x)} }

  lemma {:induction false} MapIsBag<T, U>(f: T -> U, xs: seq<T>)
    ensures multiset(Map(f, xs)) == Bag(One(f), xs)
  {
    if xs != [] {
      var last := |xs| - 1;
      MapIsBag(f, xs[..last]);
      assert Map(f, xs) == Map(f, xs[..last]) + [f(xs[last])];
    }
  }

  lemma {:induction false} EvidenceIsBag(signals: seq<Signal>)
    ensures multiset(Evidence(signals)) == Bag(EvidenceBag, signals)
  {
    if signals != [] {
      EvidenceIsBag(signals[..|signals| - 1]);
    }
  }

  lemma {:induction false} CriticalEvidenceIsBag(signals: seq<Signal>)
    ensures multiset(CriticalEvidence(signals)) == Bag(CriticalBag, signals)
  {
    if signals != [] {
      CriticalEvidenceIsBag(signals[..|signals| - 1]);
    }
  }

  // ---- Sums, sets and deduplication ----

  lemma {:induction false} SumRemove(xs: seq<real>, i: nat)
    requires i < |xs|
    ensures Sum(xs) == Sum(Removed(xs, i)) + xs[i]
  {
    var last := |xs| - 1;
    if i == last {
      assert Removed(xs, i) == xs[..last];
    } else {
      SumRemove(xs[..last], i);
      assert Removed(xs, i)[..last - 1] == Removed(xs[..last], i);
    }
  }

  lemma {:induction false} SumPermutation(xs: seq<real>, ys: seq<real>)
    requires multiset(xs) == multiset(ys)
    ensures Sum(xs) == Sum(ys)
  {
    if xs == [] {
      assert |ys| == |multiset(ys)| == 0;
    } else {
      var i := Place(xs, ys);
      SumPermutation(xs[..|xs| - 1], Removed(ys, i));
      SumRemove(ys, i);
    }
  }

  predicate NonNegative(xs: seq<real>) {
    forall i :: 0 <= i < |xs| ==> xs[i] >= 0.0
  }

  lemma {:induction false} SumIncluded(xs: seq<real>, ys: seq<real>)
    requires multiset(xs) <= multiset(ys) && NonNegative(ys)
    ensures 0.0 <= Sum(xs) <= Sum(ys)
  {
    if xs == [] {
      SumNonNegative(ys);
    } else {
      var i := Place(xs, ys);
      SumIncluded(xs[..|xs| - 1], Removed(ys, i));
      SumRemove(ys, i);
    }
  }

  lemma {:induction false} SumNonNegative(xs: seq<real>)
    requires NonNegative(xs)
    ensures Sum(xs) >= 0.0
  {
    if xs != [] {
      SumNonNegative(xs[..|xs| - 1]);
    }
  }

  predicate NoRepeat<T(==)>(xs: seq<T>) {
    forall i, j :: 0 <= i < j < |xs| ==> xs[i] != xs[j]
  }

  lemma {:induction false} CountNoRepeat<T>(xs: seq<T>, x: T)
    requires NoRepeat(xs)
    ensures multiset(xs)[x] == if x in xs then 1 else 0
  {
    if xs != [] {
      var last := |xs| - 1;
      assert xs == xs[..last] + [xs[last]];
      CountNoRepeat(xs[..last], x);
    }
  }

  lemma SameElementsSameMultiset<T(!new)>(xs: seq<T>, ys: seq<T>)
    requires NoRepeat(xs) && NoRepeat(ys) && forall x :: x in xs <==> x in ys
    ensures multiset(xs) == multiset(ys)
  {
    forall x ensures multiset(xs)[x] == multiset(ys)[x] {
      CountNoRepeat(xs, x);
      CountNoRepeat(ys, x);
    }
  }

  /** Links with the same deduplication key are the same link. */
  ghost predicate KeysSeparate(links: seq<Link>) {
    forall e, f :: e in links && f in links && DedupeKey(e) == DedupeKey(f) ==> e == f
  }

  lemma ColonFreeKeysSeparate(links: seq<Link>)
    requires forall e <- links :: COLON !in e.kind
    ensures KeysSeparate(links)
  {
    forall e, f | e in links && f in links && DedupeKey(e) == DedupeKey(f) ensures e == f {
      SplitConcat(e.kind, e.ref, COLON);
      SplitConcat(f.kind, f.ref, COLON);
      assert DedupeKey(e)[|e.kind| + 1..] == e.ref && DedupeKey(f)[|f.kind| + 1..] == f.ref;
      assert Split(DedupeKey(e), COLON)[0] == e.kind && Split(DedupeKey(f), COLON)[0] == f.kind;
    }
  }

  /** The same keys survive, ... */
  lemma {:induction false} DedupeKeepsKeys(links: seq<Link>, key: Text)
    ensures SeenKey(Dedupe(links), key) <==> SeenKey(links, key)
  {
    if links != [] {
      var before, last := links[..|links| - 1], links[|links| - 1];
      assert links == before + [last];
      DedupeKeepsKeys(before, key);
    }
  }

  /** ... each once, and with the first link that had it. */
  lemma {:induction false} DedupeMembers(links: seq<Link>)
    ensures forall e :: e in Dedupe(links) ==> e in links
    ensures forall i, j :: 0 <= i < j < |Dedupe(links)| ==> DedupeKey(Dedupe(links)[i]) != DedupeKey(Dedupe(links)[j])
    ensures links != [] ==> Dedupe(links) != [] && Dedupe(links)[0] == links[0]
  {
    if links != [] {
      var before, last := links[..|links| - 1], links[|links| - 1];
      var kept := Dedupe(before);
      assert links == before + [last];
      DedupeMembers(before);
      forall i | 0 <= i < |kept| && !SeenKey(before, DedupeKey(last)) ensures DedupeKey(kept[i]) != DedupeKey(last) {
        assert kept[i] in kept;
      }
    }
  }

  lemma DedupeIsTheSet(links: seq<Link>)
    requires KeysSeparate(links)
    ensures NoRepeat(Dedupe(links)) && forall e :: e in Dedupe(links) <==> e in links
  {
    DedupeMembers(links);
    forall e | e in links ensures e in Dedupe(links) {
      assert SeenKey(links, DedupeKey(e));
      DedupeKeepsKeys(links, DedupeKey(e));
      var f :| f in Dedupe(links) && DedupeKey(f) == DedupeKey(e);
    }
  }

  ghost predicate DedupeOrderFree(links: seq<Link>) {
    forall other | multiset(other) == multiset(links) :: multiset(Dedupe(other)) == multiset(Dedupe(links))
  }

  /** Which links survive is independent of arrival order exactly when equal keys mean equal links. */
  lemma DedupeOrderFreeExactly(links: seq<Link>)
    ensures DedupeOrderFree(links) <==> KeysSeparate(links)
  {
    if KeysSeparate(links) {
      forall other | multiset(other) == multiset(links) ensures multiset(Dedupe(other)) == multiset(Dedupe(links)) {
        DedupePermutation(links, other);
      }
    } else {
      var e, f :| e in links && f in links && DedupeKey(e) == DedupeKey(f) && e != f;
      var i :| 0 <= i < |links| && links[i] == e;
      var j :| 0 <= j < |links| && links[j] == f;
      FirstWins(links, i, f);
      FirstWins(links, j, e);
      assert e in multiset(Dedupe(Fronted(links, i))) && e !in multiset(Dedupe(Fronted(links, j)));
    }
  }

  lemma FirstWins(links: seq<Link>, i: nat, f: Link)
    requires i < |links| && f != links[i] && DedupeKey(f) == DedupeKey(links[i])
    ensures links[i] in Dedupe(Fronted(links, i)) && f !in Dedupe(Fronted(links, i))
  {
    var kept := Dedupe(Fronted(links, i));
    DedupeMembers(Fronted(links, i));
    assert kept[0] == links[i];
  }

  lemma DedupePermutation(xs: seq<Link>, ys: seq<Link>)
    requires multiset(xs) == multiset(ys) && KeysSeparate(xs)
    ensures multiset(Dedupe(xs)) == multiset(Dedupe(ys))
  {
    SameMembers(xs, ys);
    DedupeIsTheSet(xs);
    DedupeIsTheSet(ys);
    SameElementsSameMultiset(Dedupe(xs), Dedupe(ys));
  }

  lemma SameMembers<T(!new)>(xs: seq<T>, ys: seq<T>)
    requires multiset(xs) == multiset(ys)
    ensures forall x :: x in xs <==> x in ys
  {
    forall x ensures x in xs <==> x in ys {
      assert x in multiset(xs) <==> x in multiset(ys);
    }
  }

  lemma {:induction false} ReasonSetMembers(signals: seq<Signal>)
    ensures NoRepeat(ReasonSet(signals))
    ensures forall r :: r in ReasonSet(signals) <==> exists s <- signals :: ReasonOf(s) == r
  {
    if signals != [] {
      var last := |signals| - 1;
      assert signals == signals[..last] + [signals[last]];
      ReasonSetMembers(signals[..last]);
    }
  }

  // ---- The orders ----

  lemma LocaleLifts(locale: (Text, Text) -> int)
    requires TotalPreorder(locale)
    ensures TotalPreorder(LinkOrder(locale)) && TotalPreorder(SummaryOrder(locale))
  {
    forall a, b ensures Opposite(LinkOrder(locale), a, b) {
      assert Opposite(locale, a.kind, b.kind) && Opposite(locale, b.kind, a.kind) && Opposite(locale, a.ref, b.ref);
    }
    forall a, b, c ensures Transitive(LinkOrder(locale), a, b, c) {
      Chain(locale, a.kind, b.kind, c.kind);
      Chain(locale, a.ref, b.ref, c.ref);
    }
    forall a, b ensures Opposite(SummaryOrder(locale), a, b) {
      assert Opposite(locale, a.signalId, b.signalId);
    }
    forall a, b, c ensures Transitive(SummaryOrder(locale), a, b, c) {
      assert Transitive(locale, a.signalId, b.signalId, c.signalId);
    }
  }

  lemma Chain(locale: (Text, Text) -> int, a: Text, b: Text, c: Text)
    requires TotalPreorder(locale)
    ensures locale(a, b) <= 0 && locale(b, c) <= 0 ==>
      locale(a, c) <= 0 && (locale(a, c) == 0 ==> locale(a, b) == 0 && locale(b, c) == 0)
  {
    assert Transitive(locale, a, b, c);
    assert Transitive(locale, c, a, b) && Transitive(locale, b, c, a);
    assert Opposite(locale, a, c) && Opposite(locale, c, a) && Opposite(locale, a, b) && Opposite(locale, b, c);
    assert Opposite(locale, b, a) && Opposite(locale, c, b);
  }

  // ---- The report is a function of the multiset of signals ----

  /** On this input the comparator and the deduplication key tell different things apart. */
  ghost predicate Discerning(host: Host, signals: seq<Signal>) {
    && KeysSeparate(Evidence(signals))
    && Separates(LinkOrder(host.locale), Evidence(signals))
    && Separates(SummaryOrder(host.locale), Map(SummaryOf, signals))
  }

  /** It suffices that the comparator is antisymmetric and that no evidence type holds a colon. */
  lemma AntisymmetricDiscerns(host: Host, signals: seq<Signal>)
    requires forall a, b :: host.locale(a, b) == 0 ==> a == b
    requires forall e <- Evidence(signals) :: COLON !in e.kind
    ensures Discerning(host, signals)
  {
    ColonFreeKeysSeparate(Evidence(signals));
  }

  /** Two lists of signals that agree in everything but order. */
  ghost predicate Alike(xs: seq<Signal>, ys: seq<Signal>) {
    && multiset(Map(Scored, xs)) == multiset(Map(Scored, ys))
    && multiset(Map(SummaryOf, xs)) == multiset(Map(SummaryOf, ys))
    && multiset(Evidence(xs)) == multiset(Evidence(ys))
    && multiset(CriticalEvidence(xs)) == multiset(CriticalEvidence(ys))
  }

  lemma RearrangedMap<U(!new)>(f: Signal -> U, xs: seq<Snapshot>, ys: seq<Snapshot>)
    requires Rearranged(xs, ys) && Orderless(One(f))
    ensures multiset(Map(f, AllSignals(xs))) == multiset(Map(f, AllSignals(ys)))
  {
    RearrangedBag(One(f), xs, ys);
    MapIsBag(f, AllSignals(xs));
    MapIsBag(f, AllSignals(ys));
  }

  lemma RearrangedEvidence(xs: seq<Snapshot>, ys: seq<Snapshot>)
    requires Rearranged(xs, ys)
    ensures multiset(Evidence(AllSignals(xs))) == multiset(Evidence(AllSignals(ys)))
    ensures multiset(CriticalEvidence(AllSignals(xs))) == multiset(CriticalEvidence(AllSignals(ys)))
  {
    RearrangedBag(EvidenceBag, xs, ys);
    EvidenceIsBag(AllSignals(xs));
    EvidenceIsBag(AllSignals(ys));
    RearrangedBag(CriticalBag, xs, ys);
    CriticalEvidenceIsBag(AllSignals(xs));
    CriticalEvidenceIsBag(AllSignals(ys));
  }

  lemma RearrangedAlike(xs: seq<Snapshot>, ys: seq<Snapshot>)
    requires Rearranged(xs, ys)
    ensures Alike(AllSignals(xs), AllSignals(ys))
  {
    forall s, t | SameSignal(s, t)
      ensures One(Scored)(s) == One(Scored)(t) && One(SummaryOf)(s) == One(SummaryOf)(t)
    {
      assert Scored(s) == Scored(t) && SummaryOf(s) == SummaryOf(t);
      assert One(Scored)(s) == multiset{Scored(s)} && One(Scored)(t) == multiset{Scored(t)};
      assert One(SummaryOf)(s) == multiset{SummaryOf(s)} && One(SummaryOf)(t) == multiset{SummaryOf(t)};
    }
    RearrangedMap(Scored, xs, ys);
    RearrangedMap(SummaryOf, xs, ys);
    RearrangedEvidence(xs, ys);
  }

  lemma SameIds(xs: seq<Snapshot>, ys: seq<Snapshot>)
    requires Rearranged(xs, ys)
    ensures SnapshotIds(xs) == SnapshotIds(ys)
  {
    var zs: seq<Snapshot> :| multiset(zs) == multiset(xs) && MatchSnapshots(zs, ys);
    SameMembers(zs, xs);
    assert SnapshotIds(zs) == SnapshotIds(xs);
    forall id ensures id in SnapshotIds(zs) <==> id in SnapshotIds(ys) {
      if id in SnapshotIds(zs) {
        var i :| 0 <= i < |zs| && zs[i].snapshotId == id;
        assert SameSnapshot(zs[i], ys[i]) && ys[i] in ys;
      }
      if id in SnapshotIds(ys) {
        var i :| 0 <= i < |ys| && ys[i].snapshotId == id;
        assert SameSnapshot(zs[i], ys[i]) && zs[i] in zs;
      }
    }
  }

  /** Every summary of `xs` is one of `ys`. */
  ghost predicate SummariesWithin(xs: seq<Signal>, ys: seq<Signal>) {
    forall s <- xs :: exists t <- ys :: SummaryOf(t) == SummaryOf(s)
  }

  lemma WithinIfIncluded(xs: seq<Signal>, ys: seq<Signal>)
    requires multiset(Map(SummaryOf, xs)) <= multiset(Map(SummaryOf, ys))
    ensures SummariesWithin(xs, ys)
  {
    forall s | s in xs ensures exists t <- ys :: SummaryOf(t) == SummaryOf(s) {
      assert SummaryOf(s) in multiset(Map(SummaryOf, ys));
    }
  }

  function WithCritical(signals: seq<Signal>): seq<Text> {
    if HasCritical(signals) then Add(ReasonSet(signals), CRITICAL_REASON) else ReasonSet(signals)
  }

  lemma WithinKeeps(xs: seq<Signal>, ys: seq<Signal>)
    requires SummariesWithin(xs, ys)
    ensures HasCritical(xs) ==> HasCritical(ys)
    ensures forall r <- WithCritical(xs) :: r in WithCritical(ys)
  {
    if HasCritical(xs) {
      var s :| s in xs && s.severity == CRITICAL;
      var t :| t in ys && SummaryOf(t) == SummaryOf(s);
    }
    ReasonSetMembers(xs);
    ReasonSetMembers(ys);
    forall r | r in ReasonSet(xs) ensures r in ReasonSet(ys) {
      var s :| s in xs && ReasonOf(s) == r;
      var t :| t in ys && SummaryOf(t) == SummaryOf(s);
      assert ReasonOf(t) == r;
    }
  }

  lemma ReasonsAre(signals: seq<Signal>)
    ensures Reasons(signals) == Sort(Compare, WithCritical(signals))
    ensures forall r :: r in Reasons(signals) <==> r in WithCritical(signals)
    ensures NoRepeat(WithCritical(signals))
  {
    SortMultiset(Compare, WithCritical(signals));
    ReasonSetMembers(signals);
  }

  lemma SameReasons(xs: seq<Signal>, ys: seq<Signal>)
    requires SummariesWithin(xs, ys) && SummariesWithin(ys, xs)
    ensures HasCritical(xs) == HasCritical(ys) && Reasons(xs) == Reasons(ys)
  {
    WithinKeeps(xs, ys);
    WithinKeeps(ys, xs);
    ReasonsAre(xs);
    ReasonsAre(ys);
    SortedSet(WithCritical(xs), WithCritical(ys));
  }

  lemma SortedSet(a: seq<Text>, b: seq<Text>)
    requires NoRepeat(a) && NoRepeat(b) && forall r :: r in a <==> r in b
    ensures Sort(Compare, a) == Sort(Compare, b)
  {
    SameElementsSameMultiset(a, b);
    Canonical.CompareIsPreorder();
    SortPermutation(Compare, a, b);
  }

  lemma SameEvidence(host: Host, xs: seq<Signal>, ys: seq<Signal>)
    requires TotalPreorder(host.locale) && Discerning(host, xs) && Alike(xs, ys)
    ensures EvidenceLinks(host, xs) == EvidenceLinks(host, ys)
    ensures SortEvidence(host.locale, CriticalEvidence(xs)) == SortEvidence(host.locale, CriticalEvidence(ys))
  {
    LocaleLifts(host.locale);
    DedupePermutation(Evidence(xs), Evidence(ys));
    DedupeMembers(Evidence(xs));
    SortPermutation(LinkOrder(host.locale), Dedupe(Evidence(xs)), Dedupe(Evidence(ys)));
    CriticalWithin(xs);
    SortPermutation(LinkOrder(host.locale), CriticalEvidence(xs), CriticalEvidence(ys));
  }

  lemma {:induction false} CriticalWithin(signals: seq<Signal>)
    ensures forall e <- CriticalEvidence(signals) :: e in Evidence(signals)
  {
    if signals != [] {
      CriticalWithin(signals[..|signals| - 1]);
    }
  }

  lemma SameSummaries(host: Host, xs: seq<Signal>, ys: seq<Signal>)
    requires TotalPreorder(host.locale) && Discerning(host, xs) && Alike(xs, ys)
    ensures Summaries(host, xs) == Summaries(host, ys)
  {
    LocaleLifts(host.locale);
    SortByKey(SummaryOf, SummaryOrder(host.locale), SignalOrder(host.locale), xs);
    SortByKey(SummaryOf, SummaryOrder(host.locale), SignalOrder(host.locale), ys);
    SortPermutation(SummaryOrder(host.locale), Map(SummaryOf, xs), Map(SummaryOf, ys));
  }

  lemma SameCount(xs: seq<Signal>, ys: seq<Signal>)
    requires multiset(Map(SummaryOf, xs)) <= multiset(Map(SummaryOf, ys))
    ensures |xs| <= |ys|
  {
    var a, b := multiset(Map(SummaryOf, xs)), multiset(Map(SummaryOf, ys));
    assert |b| == |a| + |b - a|;
  }

  lemma SameRisk(a: seq<Signal>, b: seq<Signal>)
    requires Alike(a, b)
    ensures OverallRisk(a) == OverallRisk(b) && HasCritical(a) == HasCritical(b) && Reasons(a) == Reasons(b)
  {
    SumPermutation(Map(Scored, a), Map(Scored, b));
    WithinIfIncluded(a, b);
    WithinIfIncluded(b, a);
    SameReasons(a, b);
  }

  lemma SameConfidence(xs: seq<Snapshot>, ys: seq<Snapshot>)
    requires Rearranged(xs, ys)
    ensures ConfidenceOf(xs) == ConfidenceOf(ys)
  {
    RearrangedAlike(xs, ys);
    SameIds(xs, ys);
    SameCount(AllSignals(xs), AllSignals(ys));
    SameCount(AllSignals(ys), AllSignals(xs));
  }

  /**
   Snapshots, signals within snapshots and evidence within signals may arrive in any order: report,
   report id and alerts stay the same, on every input on which the comparator and the deduplication
   key tell different things apart.
   */
  lemma ReportIgnoresArrivalOrder(host: Host, agentId: Text, xs: seq<Snapshot>, ys: seq<Snapshot>, now: int)
    requires TotalPreorder(host.locale) && Discerning(host, AllSignals(xs)) && Rearranged(xs, ys)
    ensures ReportOf(host, agentId, xs, now) == ReportOf(host, agentId, ys, now)
    ensures AlertsOf(host, agentId, xs, now) == AlertsOf(host, agentId, ys, now)
  {
    var a, b := AllSignals(xs), AllSignals(ys);
    RearrangedAlike(xs, ys);
    SameConfidence(xs, ys);
    SameRisk(a, b);
    SameEvidence(host, a, b);
    SameSummaries(host, a, b);
  }

  // ---- More signals never lower the report ----

  /** Snapshots keep their place and gain signals; more snapshots may follow. */
  ghost predicate Grows(xs: seq<Snapshot>, ys: seq<Snapshot>) {
    && |xs| <= |ys|
    && forall i :: 0 <= i < |xs| ==>
         xs[i].snapshotId == ys[i].snapshotId && multiset(xs[i].signals) <= multiset(ys[i].signals)
  }

  lemma {:induction false} GrowsIncluded(xs: seq<Snapshot>, ys: seq<Snapshot>)
    requires Grows(xs, ys)
    ensures multiset(AllSignals(xs)) <= multiset(AllSignals(ys))
  {
    if |ys| > |xs| {
      GrowsIncluded(xs, ys[..|ys| - 1]);
    } else if xs != [] {
      GrowsIncluded(xs[..|xs| - 1], ys[..|ys| - 1]);
    }
  }

  function Rank(c: Confidence): nat {
    match c case Low => 0 case Medium => 1 case High => 2
  }

  lemma MapIncluded<T, U>(f: T -> U, a: seq<T>, b: seq<T>)
    requires multiset(a) <= multiset(b)
    ensures multiset(Map(f, a)) <= multiset(Map(f, b))
  {
    MapIsBag(f, a);
    MapIsBag(f, b);
    BagIncluded(One(f), a, b);
  }

  lemma ScoreGrows(a: seq<Signal>, b: seq<Signal>)
    requires multiset(a) <= multiset(b) && forall s <- b :: s.weight >= 0.0
    ensures RawScore(a) <= RawScore(b)
  {
    MapIncluded(Scored, a, b);
    SumIncluded(Map(Scored, a), Map(Scored, b));
  }

  lemma RiskGrows(a: seq<Signal>, b: seq<Signal>)
    requires multiset(a) <= multiset(b) && forall s <- b :: s.weight >= 0.0
    ensures OverallRisk(a) <= OverallRisk(b)
  {
    ScoreGrows(a, b);
    MapIncluded(SummaryOf, a, b);
    WithinIfIncluded(a, b);
    WithinKeeps(a, b);
  }

  lemma EvidenceGrows(host: Host, a: seq<Signal>, b: seq<Signal>)
    requires multiset(a) <= multiset(b) && KeysSeparate(Evidence(b))
    ensures forall e <- EvidenceLinks(host, a) :: e in EvidenceLinks(host, b)
  {
    EvidenceIsBag(a);
    EvidenceIsBag(b);
    BagIncluded(EvidenceBag, a, b);
    SortMultiset(LinkOrder(host.locale), Dedupe(Evidence(a)));
    SortMultiset(LinkOrder(host.locale), Dedupe(Evidence(b)));
    DedupeMembers(Evidence(a));
    DedupeIsTheSet(Evidence(b));
    forall e | e in Evidence(a) ensures e in Evidence(b) {
      assert e in multiset(Evidence(a));
      assert e in multiset(Evidence(b));
    }
  }

  /** Adding signals lowers neither risk nor confidence and removes no reason and no evidence link. */
  lemma ReportGrows(host: Host, agentId: Text, xs: seq<Snapshot>, ys: seq<Snapshot>, now: int)
    requires Grows(xs, ys) && KeysSeparate(Evidence(AllSignals(ys)))
    requires forall s <- AllSignals(ys) :: s.weight >= 0.0
    ensures
      var before, after := ReportOf(host, agentId, xs, now), ReportOf(host, agentId, ys, now);
      && before.overallRisk <= after.overallRisk
      && Rank(before.confidence) <= Rank(after.confidence)
      && (forall r <- before.reasons :: r in after.reasons)
      && (forall e <- before.evidenceLinks :: e in after.evidenceLinks)
  {
    var a, b := AllSignals(xs), AllSignals(ys);
    GrowsIncluded(xs, ys);
    RiskGrows(a, b);
    MapIncluded(SummaryOf, a, b);
    WithinIfIncluded(a, b);
    WithinKeeps(a, b);
    ReasonsAre(a);
    ReasonsAre(b);
    EvidenceGrows(host, a, b);
    SameCount(a, b);
    IdsGrow(xs, ys);
  }

  lemma IdsGrow(xs: seq<Snapshot>, ys: seq<Snapshot>)
    requires Grows(xs, ys)
    ensures |SnapshotIds(xs)| <= |SnapshotIds(ys)|
  {
    assert SnapshotIds(xs) <= SnapshotIds(ys) by {
      forall id | id in SnapshotIds(xs) ensures id in SnapshotIds(ys) {
        var i :| 0 <= i < |xs| && xs[i].snapshotId == id;
        assert ys[i] in ys;
      }
    }
    var more := SnapshotIds(ys) - SnapshotIds(xs);
    assert SnapshotIds(ys) == SnapshotIds(xs) + more;
  }

  /** `a:b` for `c`, and `a` for `b:c`: different links with one key. */
  const CLASH_1: Link := Link([0x61, COLON, 0x62], [0x63])
  const CLASH_2: Link := Link([0x61], [0x62, COLON, 0x63])

  function OneSignal(links: seq<Link>): seq<Snapshot> { [Snapshot([], [Signal([], LOW, 1.0, links)])] }

  lemma LinksClash()
    ensures CLASH_1 != CLASH_2 && DedupeKey(CLASH_1) == DedupeKey(CLASH_2)
  {
    assert DedupeKey(CLASH_1) == [0x61, COLON, 0x62, COLON, 0x63] == DedupeKey(CLASH_2);
    assert |CLASH_1.kind| == 3 && |CLASH_2.kind| == 1;
  }

  /** Where two links share a key, as `CLASH_1` and `CLASH_2` do, arrival order decides which one the report shows. */
  lemma ClashingLinksDependOnOrder(host: Host, agentId: Text, e: Link, f: Link, now: int)
    requires DedupeKey(e) == DedupeKey(f)
    ensures ReportOf(host, agentId, OneSignal([e, f]), now).evidenceLinks == [e]
    ensures ReportOf(host, agentId, OneSignal([f, e]), now).evidenceLinks == [f]
  {
    ShowsFirst(host, e, f);
    ShowsFirst(host, f, e);
    ReportShows(host, agentId, [e, f], now);
    ReportShows(host, agentId, [f, e], now);
  }

  lemma ReportShows(host: Host, agentId: Text, links: seq<Link>, now: int)
    ensures ReportOf(host, agentId, OneSignal(links), now).evidenceLinks == SortEvidence(host.locale, Dedupe(links))
  {
    var s := Signal([], LOW, 1.0, links);
    assert AllSignals([Snapshot([], [s])][..0]) == [] && AllSignals([Snapshot([], [s])]) == [s];
    assert Evidence([s][..0]) == [] && Evidence([s]) == links;
  }

  lemma ShowsFirst(host: Host, e: Link, f: Link)
    requires DedupeKey(e) == DedupeKey(f)
    ensures SortEvidence(host.locale, Dedupe([e, f])) == [e]
  {
    assert [e][..0] == [] && Dedupe([e]) == [e];
    assert [e, f][..1] == [e] && e in [e] && SeenKey([e], DedupeKey(f));
    assert Dedupe([e, f]) == Dedupe([e]) + [];
    SortOne(LinkOrder(host.locale), e);
  }
}
