/** What report and alert ids determine (packages/watchtower-core/src/scoring/scoreAgent.ts). */
module ReportIds {
  import opened Texts
  import opened Json
  import opened Lists
  import opened Scoring
  import opened Canonical

  ghost predicate Injective(hash: Text -> Text) {
    forall x, y :: hash(x) == hash(y) ==> x == y
  }

  ghost predicate SameJson(a: Json, b: Json) { SameUpToKeyOrder(a, b, {PROTO}) }

  predicate SameKeys(fs: seq<Field>, gs: seq<Field>) {
    |fs| == |gs| && forall i :: 0 <= i < |fs| ==> fs[i].key == gs[i].key != PROTO
  }

  predicate KeysAlike(fs: seq<Field>, gs: seq<Field>) { Distinct(fs) && SameKeys(fs, gs) }

  lemma SameAtPlace(fs: seq<Field>, gs: seq<Field>, i: nat)
    requires KeysAlike(fs, gs) && i < |fs| && SameJson(Obj(fs), Obj(gs))
    ensures SameJson(fs[i].value, gs[i].value)
  {
    assert fs[i] in fs && Matched(fs[i], gs, {PROTO});
    var g :| g in gs && g.key == fs[i].key && SameUpToKeyOrder(fs[i].value, g.value, {PROTO});
    var j :| 0 <= j < |gs| && gs[j] == g;
    assert fs[j].key == fs[i].key;
  }

  lemma SameEverywhere(fs: seq<Field>, gs: seq<Field>)
    requires KeysAlike(fs, gs) && forall i :: 0 <= i < |fs| ==> SameJson(fs[i].value, gs[i].value)
    ensures SameJson(Obj(fs), Obj(gs))
  {
    forall f | f in fs ensures Matched(f, gs, {PROTO}) {
      var i :| 0 <= i < |fs| && fs[i] == f;
      assert gs[i] in gs && SameJson(f.value, gs[i].value);
    }
    forall g | g in gs ensures HasKey(fs, g.key) {
      var i :| 0 <= i < |gs| && gs[i] == g;
      assert fs[i] in fs;
    }
  }

  /** Objects with the same distinct keys are the same if their values are, place by place. */
  lemma SameByPlace(fs: seq<Field>, gs: seq<Field>)
    requires KeysAlike(fs, gs)
    ensures SameJson(Obj(fs), Obj(gs)) <==> forall i :: 0 <= i < |fs| ==> SameJson(fs[i].value, gs[i].value)
  {
    if SameJson(Obj(fs), Obj(gs)) {
      forall i | 0 <= i < |fs| ensures SameJson(fs[i].value, gs[i].value) {
        SameAtPlace(fs, gs, i);
      }
    }
    if forall i :: 0 <= i < |fs| ==> SameJson(fs[i].value, gs[i].value) {
      SameEverywhere(fs, gs);
    }
  }

  predicate Scalar(v: Json) { !v.Arr? && !v.Obj? }

  lemma SameScalar(a: Json, b: Json)
    requires Scalar(a)
    ensures SameJson(a, b) <==> a == b
  {
  }

  ghost predicate Faithful<T(!new)>(f: T -> Json) {
    forall x, y :: SameJson(f(x), f(y)) ==> x == y
  }

  ghost predicate Reflects<T(!new)>(f: T -> Json) {
    forall x :: SameJson(f(x), f(x))
  }

  lemma SameLists<T(!new)>(f: T -> Json, xs: seq<T>, ys: seq<T>)
    requires Faithful(f) && Reflects(f)
    ensures SameJson(Arr(Map(f, xs)), Arr(Map(f, ys))) <==> xs == ys
  {
    if SameJson(Arr(Map(f, xs)), Arr(Map(f, ys))) {
      forall i | 0 <= i < |xs| ensures xs[i] == ys[i] {
        assert SameJson(Map(f, xs)[i], Map(f, ys)[i]);
      }
    } else if xs == ys {
      forall i | 0 <= i < |xs| ensures SameJson(Map(f, xs)[i], Map(f, ys)[i]) {
        assert SameJson(f(xs[i]), f(xs[i]));
      }
    }
  }

  lemma NamesDiffer()
    ensures forall a: Severity, b: Severity :: SeverityName(a) == SeverityName(b) ==> a == b
    ensures forall a: Confidence, b: Confidence :: ConfidenceName(a) == ConfidenceName(b) ==> a == b
  {
    assert |SeverityName(LOW)| == 3 && |SeverityName(MEDIUM)| == 6 && |SeverityName(HIGH)| == 4 && |SeverityName(CRITICAL)| == 8;
    assert |ConfidenceName(Low)| == 3 && |ConfidenceName(Medium)| == 6 && |ConfidenceName(High)| == 4;
  }

  const TYPE_KEY: Text := Ascii("type")
  const REF_KEY: Text := Ascii("ref")
  const SEVERITY_KEY: Text := Ascii("severity")
  const SIGNAL_ID_KEY: Text := Ascii("signalId")

  lemma LinksAreFaithful()
    ensures Faithful(LinkJson) && Reflects(LinkJson)
  {
    assert |TYPE_KEY| == 4 && |REF_KEY| == 3 && |PROTO| == 9;
    forall a: Link, b: Link ensures SameJson(LinkJson(a), LinkJson(b)) <==> a == b {
      SameByPlace(LinkJson(a).fields, LinkJson(b).fields);
      SameScalar(Str(a.kind), Str(b.kind));
      SameScalar(Str(a.ref), Str(b.ref));
      assert LinkJson(a).fields[0].value == Str(a.kind) && LinkJson(a).fields[1].value == Str(a.ref);
      assert LinkJson(b).fields[0].value == Str(b.kind) && LinkJson(b).fields[1].value == Str(b.ref);
    }
  }

  lemma SummariesAreFaithful()
    ensures Faithful(SummaryJson) && Reflects(SummaryJson)
  {
    NamesDiffer();
    assert |SEVERITY_KEY| == 8 && |SIGNAL_ID_KEY| == 8 && SEVERITY_KEY[1] == 0x65 && SIGNAL_ID_KEY[1] == 0x69 && |PROTO| == 9;
    forall a: Summary, b: Summary ensures SameJson(SummaryJson(a), SummaryJson(b)) <==> a == b {
      SameByPlace(SummaryJson(a).fields, SummaryJson(b).fields);
      SameScalar(Str(SeverityName(a.severity)), Str(SeverityName(b.severity)));
      SameScalar(Str(a.signalId), Str(b.signalId));
      assert SummaryJson(a).fields[0].value == Str(SeverityName(a.severity)) && SummaryJson(a).fields[1].value == Str(a.signalId);
      assert SummaryJson(b).fields[0].value == Str(SeverityName(b.severity)) && SummaryJson(b).fields[1].value == Str(b.signalId);
    }
  }

  lemma TextsAreFaithful()
    ensures Faithful(TextJson) && Reflects(TextJson)
  {
    forall a: Text, b: Text ensures SameJson(TextJson(a), TextJson(b)) <==> a == b {
      SameScalar(TextJson(a), TextJson(b));
    }
  }

  // ---- Reports ----

  const AGENT_ID_KEY: Text := Ascii("agentId")
  const CONFIDENCE_KEY: Text := Ascii("confidence")
  const LINKS_KEY: Text := Ascii("evidenceLinks")
  const RISK_KEY: Text := Ascii("overallRisk")
  const REASONS_KEY: Text := Ascii("reasons")
  const VERSION_KEY: Text := Ascii("reportVersion")
  const SIGNALS_KEY: Text := Ascii("signals")

  lemma KeysDiffer()
    ensures forall r :: Distinct(ReportPayload(r).fields)
    ensures forall f, g :: SameKeys(ReportPayload(f).fields, ReportPayload(g).fields)
  {
    assert |AGENT_ID_KEY| == 7 && |CONFIDENCE_KEY| == 10 && |LINKS_KEY| == 13 && |RISK_KEY| == 11;
    assert |REASONS_KEY| == 7 && |VERSION_KEY| == 13 && |SIGNALS_KEY| == 7 && |PROTO| == 9;
    assert AGENT_ID_KEY[0] == 0x61 && REASONS_KEY[0] == 0x72 && SIGNALS_KEY[0] == 0x73;
    assert LINKS_KEY[0] == 0x65 && VERSION_KEY[0] == 0x72;
  }

  /** All that the report says, the time aside. */
  predicate SaysSame(a: Report, b: Report) {
    && a.agentId == b.agentId && a.confidence == b.confidence && a.evidenceLinks == b.evidenceLinks
    && a.overallRisk == b.overallRisk && a.reasons == b.reasons && a.signals == b.signals
  }

  /** The values of the payload's members. */
  function ValuesOf(r: Report): seq<Json> {
    [ Str(r.agentId), Str(ConfidenceName(r.confidence)), Arr(Map(LinkJson, r.evidenceLinks)), Num(r.overallRisk),
      Arr(Map(TextJson, r.reasons)), Str(Ascii("0.1.0")), Arr(Map(SummaryJson, r.signals)) ]
  }

  lemma PayloadValues(r: Report)
    ensures |ReportPayload(r).fields| == 7 == |ValuesOf(r)|
    ensures forall i :: 0 <= i < 7 ==> ReportPayload(r).fields[i].value == ValuesOf(r)[i]
  {
  }

  lemma PayloadIdentifies(a: Report, b: Report)
    ensures SameJson(ReportPayload(a), ReportPayload(b)) <==> SaysSame(a, b)
  {
    KeysDiffer();
    PayloadValues(a);
    PayloadValues(b);
    SameByPlace(ReportPayload(a).fields, ReportPayload(b).fields);
    ValuesIdentify(a, b, ValuesOf(a), ValuesOf(b));
  }

  lemma ValuesIdentify(a: Report, b: Report, vs: seq<Json>, ws: seq<Json>)
    requires vs == ValuesOf(a) && ws == ValuesOf(b)
    ensures (forall i :: 0 <= i < 7 ==> SameJson(vs[i], ws[i])) <==> SaysSame(a, b)
  {
    TextIdentifies(a.agentId, b.agentId);
    ConfidenceIdentifies(a.confidence, b.confidence);
    SameScalar(Num(a.overallRisk), Num(b.overallRisk));
    TextIdentifies(Ascii("0.1.0"), Ascii("0.1.0"));
    LinksAreFaithful();
    TextsAreFaithful();
    SummariesAreFaithful();
    SameLists(LinkJson, a.evidenceLinks, b.evidenceLinks);
    SameLists(TextJson, a.reasons, b.reasons);
    SameLists(SummaryJson, a.signals, b.signals);
    AllSeven(vs, ws);
  }

  lemma AllSeven(vs: seq<Json>, ws: seq<Json>)
    requires |vs| == |ws| == 7
    ensures (forall i :: 0 <= i < 7 ==> SameJson(vs[i], ws[i])) <==>
              && SameJson(vs[0], ws[0]) && SameJson(vs[1], ws[1]) && SameJson(vs[2], ws[2]) && SameJson(vs[3], ws[3])
              && SameJson(vs[4], ws[4]) && SameJson(vs[5], ws[5]) && SameJson(vs[6], ws[6])
  {
  }

  lemma TextIdentifies(s: Text, t: Text)
    ensures SameJson(Str(s), Str(t)) <==> s == t
  {
    SameScalar(Str(s), Str(t));
  }

  lemma ConfidenceIdentifies(c: Confidence, d: Confidence)
    ensures SameJson(Str(ConfidenceName(c)), Str(ConfidenceName(d))) <==> c == d
  {
    NamesDiffer();
    TextIdentifies(ConfidenceName(c), ConfidenceName(d));
  }

  lemma SeverityIdentifies(c: Severity, d: Severity)
    ensures SameJson(Str(SeverityName(c)), Str(SeverityName(d))) <==> c == d
  {
    NamesDiffer();
    TextIdentifies(SeverityName(c), SeverityName(d));
  }

  lemma ItemsAreValid<T>(f: T -> Json, xs: seq<T>)
    requires forall x :: Valid(f(x))
    ensures Valid(Arr(Map(f, xs)))
  {
  }

  lemma PayloadIsValid(r: Report)
    ensures Valid(ReportPayload(r))
  {
    KeysDiffer();
    PartsAreValid();
    ItemsAreValid(LinkJson, r.evidenceLinks);
    ItemsAreValid(TextJson, r.reasons);
    ItemsAreValid(SummaryJson, r.signals);
  }

  lemma PartsAreValid()
    ensures forall e :: Valid(LinkJson(e))
    ensures forall s :: Valid(SummaryJson(s))
    ensures forall t :: Valid(TextJson(t))
  {
    assert |TYPE_KEY| == 4 && |REF_KEY| == 3;
    assert |SEVERITY_KEY| == 8 && |SIGNAL_ID_KEY| == 8 && SEVERITY_KEY[1] == 0x65 && SIGNAL_ID_KEY[1] == 0x69;
    forall e ensures Valid(LinkJson(e)) {
      assert LinkJson(e).fields[0].key == TYPE_KEY && LinkJson(e).fields[1].key == REF_KEY;
    }
    forall s ensures Valid(SummaryJson(s)) {
      assert SummaryJson(s).fields[0].key == SEVERITY_KEY && SummaryJson(s).fields[1].key == SIGNAL_ID_KEY;
    }
  }

  /** With a collision-free hash two reports have one id exactly if they say the same, whenever they were made. */
  lemma ReportIdIdentifies(host: Host, a: (Text, seq<Snapshot>, int), b: (Text, seq<Snapshot>, int))
    requires Injective(host.hash)
    ensures
      var r, t := ReportOf(host, a.0, a.1, a.2), ReportOf(host, b.0, b.1, b.2);
      r.reportId == t.reportId <==> SaysSame(r, t)
  {
    var r, t := ReportOf(host, a.0, a.1, a.2), ReportOf(host, b.0, b.1, b.2);
    PayloadIsValid(r);
    PayloadIsValid(t);
    CanonicalJsonIdentifies(ReportPayload(r), ReportPayload(t));
    PayloadIdentifies(r, t);
    assert r.reportId == host.hash(CanonicalJson(ReportPayload(r))) && t.reportId == host.hash(CanonicalJson(ReportPayload(t)));
  }

  // ---- Alerts ----

  const TOP_KEY: Text := Ascii("topEvidenceRefs")

  function AlertPayload(agentId: Text, severity: Severity, links: seq<Link>, kind: Text): Json {
    Obj([
      Field(AGENT_ID_KEY, Str(agentId)),
      Field(SEVERITY_KEY, Str(SeverityName(severity))),
      Field(TOP_KEY, Arr(Map(TextJson, TopRefs(links)))),
      Field(TYPE_KEY, Str(kind))
    ])
  }

  predicate SameTop(xs: seq<Link>, ys: seq<Link>) {
    forall i :: 0 <= i < 5 ==> RefAt(xs, i) == RefAt(ys, i)
  }

  /** The reference at this place, if there is one. */
  function RefAt(links: seq<Link>, i: nat): seq<Text> { if i < |links| then [links[i].ref] else [] }

  lemma TopRefsSame(xs: seq<Link>, ys: seq<Link>)
    ensures TopRefs(xs) == TopRefs(ys) <==> SameTop(xs, ys)
  {
    if TopRefs(xs) == TopRefs(ys) {
      forall i: nat | i < 5 ensures RefAt(xs, i) == RefAt(ys, i) {
        assert i < |xs| <==> i < |TopRefs(xs)|;
        assert i < |ys| <==> i < |TopRefs(ys)|;
        if i < |xs| {
          assert TopRefs(xs)[i] == xs[i].ref && TopRefs(ys)[i] == ys[i].ref;
        }
      }
    }
    if SameTop(xs, ys) {
      SameTopLength(xs, ys);
      forall i | 0 <= i < |TopRefs(xs)| ensures TopRefs(xs)[i] == TopRefs(ys)[i] {
        assert RefAt(xs, i) == RefAt(ys, i);
      }
    }
  }

  lemma SameTopLength(xs: seq<Link>, ys: seq<Link>)
    requires SameTop(xs, ys)
    ensures |TopRefs(xs)| == |TopRefs(ys)|
  {
    assert |xs| < 5 ==> RefAt(xs, |xs|) == RefAt(ys, |xs|);
    assert |ys| < 5 ==> RefAt(xs, |ys|) == RefAt(ys, |ys|);
  }

  lemma SameFour(fs: seq<Field>, gs: seq<Field>)
    requires KeysAlike(fs, gs) && |fs| == 4
    ensures SameJson(Obj(fs), Obj(gs)) <==>
              && SameJson(fs[0].value, gs[0].value) && SameJson(fs[1].value, gs[1].value)
              && SameJson(fs[2].value, gs[2].value) && SameJson(fs[3].value, gs[3].value)
  {
    SameByPlace(fs, gs);
  }

  lemma AlertKeysDiffer(p: Json, q: Json)
    requires exists agentId, severity, links, kind :: p == AlertPayload(agentId, severity, links, kind)
    requires exists agentId, severity, links, kind :: q == AlertPayload(agentId, severity, links, kind)
    ensures Distinct(p.fields) && SameKeys(p.fields, q.fields) && |p.fields| == 4
  {
    assert |AGENT_ID_KEY| == 7 && |SEVERITY_KEY| == 8 && |TOP_KEY| == 15 && |TYPE_KEY| == 4 && |PROTO| == 9;
  }

  lemma AlertPayloadIdentifies(agentId: Text, severity: Severity, links: seq<Link>, kind: Text, agentId': Text, severity': Severity, links': seq<Link>, kind': Text)
    ensures
      SameJson(AlertPayload(agentId, severity, links, kind), AlertPayload(agentId', severity', links', kind'))
      <==> agentId == agentId' && severity == severity' && SameTop(links, links') && kind == kind'
  {
    var p, q := AlertPayload(agentId, severity, links, kind), AlertPayload(agentId', severity', links', kind');
    AlertKeysDiffer(p, q);
    SameFour(p.fields, q.fields);
    TextsAreFaithful();
    SameLists(TextJson, TopRefs(links), TopRefs(links'));
    TopRefsSame(links, links');
    TextIdentifies(agentId, agentId');
    SeverityIdentifies(severity, severity');
    TextIdentifies(kind, kind');
  }

  /** The id of an alert is the hash of agent, severity, type and top references. */
  lemma AlertIdOf(host: Host, agentId: Text, snapshots: seq<Snapshot>, now: int, x: Alert)
    requires x in AlertsOf(host, agentId, snapshots, now)
    ensures x.alertId == host.hash(CanonicalJson(AlertPayload(x.agentId, x.severity, x.evidenceLinks, x.kind)))
  {
  }

  lemma AlertPayloadIsValid(agentId: Text, severity: Severity, links: seq<Link>, kind: Text)
    ensures Valid(AlertPayload(agentId, severity, links, kind))
  {
    assert |AGENT_ID_KEY| == 7 && |SEVERITY_KEY| == 8 && |TOP_KEY| == 15 && |TYPE_KEY| == 4;
    PartsAreValid();
    ItemsAreValid(TextJson, TopRefs(links));
  }

  /** Two alerts have one id exactly if agent, severity, type and the references of their first five links are the same. */
  lemma AlertIdIdentifies(host: Host, a: (Text, seq<Snapshot>, int), b: (Text, seq<Snapshot>, int), x: Alert, y: Alert)
    requires Injective(host.hash)
    requires x in AlertsOf(host, a.0, a.1, a.2) && y in AlertsOf(host, b.0, b.1, b.2)
    ensures x.alertId == y.alertId <==>
              x.agentId == y.agentId && x.severity == y.severity && x.kind == y.kind && SameTop(x.evidenceLinks, y.evidenceLinks)
  {
    var p := AlertPayload(x.agentId, x.severity, x.evidenceLinks, x.kind);
    var q := AlertPayload(y.agentId, y.severity, y.evidenceLinks, y.kind);
    AlertIdOf(host, a.0, a.1, a.2, x);
    AlertIdOf(host, b.0, b.1, b.2, y);
    AlertPayloadIsValid(x.agentId, x.severity, x.evidenceLinks, x.kind);
    AlertPayloadIsValid(y.agentId, y.severity, y.evidenceLinks, y.kind);
    CanonicalJsonIdentifies(p, q);
    AlertPayloadIdentifies(x.agentId, x.severity, x.evidenceLinks, x.kind, y.agentId, y.severity, y.evidenceLinks, y.kind);
  }
}
