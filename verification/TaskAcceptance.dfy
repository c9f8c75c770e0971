/** The consumer's constructor, applied to what a selection hands on: which
    selections it accepts, said of the plan and the sources alone. */
module TaskAcceptance {
  import opened Wrappers
  import opened Facts
  import opened SourceBindings
  import opened TaskSelection
  import opened TaskPlanning
  import opened TaskValidation

  const MAX_ID_BYTES: nat := 8192
  const MAX_REPO_BYTES: nat := 256
  const MAX_LABEL_BYTES: nat := 256
  const MAX_PATH_BYTES: nat := 1024
  const MAX_COMMIT_BYTES: nat := 1024
  const MAX_TOTAL_BYTES: nat := 48 * 1024
  const MAX_SUMMARY_BYTES: nat := 128 * 1024
  const MAX_OFFERED: nat := 20
  const MAX_BASIS_BYTES: nat := 64 * 1024
  const ALLOWED_LABELS: set<string> :=
    {"CALLS", "PUBLISHES", "SUBSCRIBES", "FETCHES", "REFERENCES", "BACKS", "DECIDES", "GOVERNS", "MAPS_TO"}

  /** How many bytes a source basis serializes to; nothing below depends on how. */
  type Encoding = Prepared -> nat

  // ---- The constructor's checks ----------------------------------------------------------------

  predicate Space(c: char) { c in {' ', '\t', '\n', '\r', 11 as char, 12 as char} }

  /** Not blank, bounded, and without NUL. */
  predicate Legible(value: string, max: nat) {
    (exists i :: 0 <= i < |value| && !Space(value[i])) && |value| <= max && '\0' !in value
  }

  predicate LegibleCitation(cited: EvidenceRef) {
    Legible(cited.repo, MAX_REPO_BYTES) && Legible(cited.path, MAX_PATH_BYTES)
        && Legible(cited.commit, MAX_COMMIT_BYTES)
  }

  predicate LegibleFact(fact: FactKey) {
    match fact
    case NodeFact(id) => Legible(id, MAX_ID_BYTES)
    case EdgeFact(key) =>
      Legible(key.src, MAX_ID_BYTES) && Legible(key.kind, MAX_LABEL_BYTES) && Legible(key.dst, MAX_ID_BYTES)
  }

  predicate LegibleOffer(offer: Offer) { Legible(offer.node, MAX_ID_BYTES) && Legible(offer.kind, MAX_LABEL_BYTES) }

  predicate LegibleTask(plan: Plan) {
    Legible(plan.actionId, MAX_ID_BYTES) && Legible(plan.gapId, MAX_ID_BYTES) && Legible(plan.sourceId, MAX_ID_BYTES)
  }

  /** A bounded list of legible identities, no two written alike. */
  predicate Membership(ids: seq<EvidenceId>) {
    && |ids| <= MAX_EVIDENCE
    && (forall id :: id in ids ==> Legible(Shown(id), MAX_ID_BYTES))
    && (forall j, k :: 0 <= j < k < |ids| ==> Shown(ids[j]) != Shown(ids[k]))
  }

  predicate Available(evidence: seq<Evidence>, id: EvidenceId) {
    exists k :: 0 <= k < |evidence| && Shown(evidence[k].id) == Shown(id)
  }

  predicate EvidenceBounded(e: Evidence) {
    && |e.text| <= MAX_SPAN_BYTES && Legible(Shown(e.id), MAX_ID_BYTES) && LegibleCitation(e.source)
    && e.source.byteStart < e.source.byteEnd
  }

  /** Checked first, before anything is copied. */
  predicate MetadataBounded(plan: Plan, p: Progress) {
    && |p.evidence| <= MAX_EVIDENCE && |p.candidates| <= MAX_CANDIDATES
    && LegibleTask(plan) && Legible(plan.edgeLabel, MAX_LABEL_BYTES) && Membership(p.sourceEvidence)
    && (forall e :: e in p.evidence ==> EvidenceBounded(e))
    && (forall c :: c in p.candidates ==> LegibleOffer(c.offer) && Membership([c.evidenceId]))
  }

  function TextBytes(evidence: seq<Evidence>): nat {
    if evidence == [] then 0 else TextBytes(evidence[..|evidence| - 1]) + |evidence[|evidence| - 1].text|
  }

  function SummaryBytes(candidates: seq<Candidate>): nat {
    if candidates == [] then 0
    else SummaryBytes(candidates[..|candidates| - 1]) + |candidates[|candidates| - 1].offer.summary|
  }

  /** The broker's own checks of a task. */
  predicate BrokerAccepts(plan: Plan, p: Progress) {
    && plan.edgeLabel in ALLOWED_LABELS
    && 1 <= |p.evidence| <= MAX_EVIDENCE && 1 <= |p.candidates| <= MAX_OFFERED
    && TextBytes(p.evidence) <= MAX_TOTAL_BYTES && (forall e :: e in p.evidence ==> |e.text| <= MAX_SPAN_BYTES)
    && (forall j, k :: 0 <= j < k < |p.evidence| ==> Shown(p.evidence[j].id) != Shown(p.evidence[k].id))
    && (forall j, k :: 0 <= j < k < |p.candidates| ==> p.candidates[j].offer.node != p.candidates[k].offer.node)
    && p.sourceEvidence != [] && (forall id :: id in p.sourceEvidence ==> Available(p.evidence, id))
    && (forall c :: c in p.candidates ==> Available(p.evidence, c.evidenceId))
  }

  predicate SelectionLegible(selected: map<FactKey, Selected>) {
    forall fact :: fact in selected ==>
      && LegibleFact(fact)
      && (selected[fact].binding.Some? ==> Legible(selected[fact].binding.value.repo, MAX_REPO_BYTES))
  }

  predicate TaskAccepted(plan: Plan, p: Progress) {
    MetadataBounded(plan, p) && SummaryBytes(p.candidates) <= MAX_SUMMARY_BYTES && BrokerAccepts(plan, p)
  }

  /** The constructor accepts the task and its source basis. */
  predicate Accepted(plan: Plan, t: Prepared, size: Encoding) {
    && TaskAccepted(plan, t.walk) && SelectionLegible(t.walk.selected) && BasisValid(plan, t)
    && size(t) <= MAX_BASIS_BYTES
  }

  // ---- The same, of the inputs -------------------------------------------------------------------

  function SupplyBytes(supplies: seq<Supply>): nat {
    if supplies == [] then 0 else SupplyBytes(supplies[..|supplies| - 1]) + |supplies[|supplies| - 1].text|
  }

  function OfferBytes(supplies: seq<Supply>): nat {
    if supplies == [] then 0
    else
      var last := supplies[|supplies| - 1];
      OfferBytes(supplies[..|supplies| - 1]) + if last.offer.Some? then |last.offer.value.summary| else 0
  }

  predicate FactNamed(src: Sources, fact: FactKey) {
    && LegibleFact(fact)
    && (fact in src.authoritative && src.authoritative[fact].Present?
        ==> Legible(src.authoritative[fact].binding.repo, MAX_REPO_BYTES))
  }

  /** Every fact the walk admits is legible, and so is its receipt's repository. */
  predicate FactsNamed(plan: Plan, src: Sources, n: nat)
    requires n <= |plan.requests|
  {
    && (forall k :: 0 <= k < n ==> FactNamed(src, plan.requests[k].fact))
    && (plan.slot.Some? ==> FactNamed(src, plan.slot.value.fact))
  }

  predicate LegibleSupplies(supplies: seq<Supply>) {
    forall s :: s in supplies ==> LegibleCitation(s.source) && (s.offer.Some? ==> LegibleOffer(s.offer.value))
  }

  predicate ShortTexts(supplies: seq<Supply>) { forall s :: s in supplies ==> |s.text| <= MAX_SPAN_BYTES }

  /** No text is too long, nor all of them together, nor all the summaries. */
  predicate Sized(supplies: seq<Supply>) {
    ShortTexts(supplies) && SupplyBytes(supplies) <= MAX_TOTAL_BYTES && OfferBytes(supplies) <= MAX_SUMMARY_BYTES
  }

  predicate TaskFits(plan: Plan, supplies: seq<Supply>) {
    plan.edgeLabel in ALLOWED_LABELS && Sized(supplies) && LegibleTask(plan) && LegibleSupplies(supplies)
  }

  /** The first `n` requests supply a task that fits the consumer. */
  predicate Fits(plan: Plan, src: Sources, n: nat)
    requires n <= |plan.requests|
  {
    TaskFits(plan, Supplies(src, plan.requests[..n])) && FactsNamed(plan, src, n)
  }

  // ---- Memberships of what is supplied -------------------------------------------------------------

  ghost predicate CandidateOf(supplies: seq<Supply>, c: Candidate) {
    exists k :: 0 <= k < |supplies| && supplies[k].offer == Some(c.offer) && c.evidenceId == E(k + 1)
  }

  lemma {:induction false} CandidatesAreSupplied(supplies: seq<Supply>)
    ensures forall c :: c in CandidatesOf(supplies) ==> CandidateOf(supplies, c)
    ensures forall j, k :: 0 <= j < k < |CandidatesOf(supplies)| ==>
              CandidatesOf(supplies)[j].evidenceId.number < CandidatesOf(supplies)[k].evidenceId.number
  {
    if supplies != [] {
      var n := |supplies| - 1;
      CandidatesAreSupplied(supplies[..n]);
      forall c | c in CandidatesOf(supplies[..n]) ensures CandidateOf(supplies, c) && c.evidenceId.number <= n {
        var k :| 0 <= k < n && supplies[..n][k].offer == Some(c.offer) && c.evidenceId == E(k + 1);
        assert supplies[k] == supplies[..n][k];
      }
      if supplies[n].offer.Some? {
        assert CandidateOf(supplies, Candidate(supplies[n].offer.value, E(n + 1)));
      }
    }
  }

  lemma {:induction false} OfferIsCandidate(supplies: seq<Supply>, k: nat)
    requires k < |supplies| && supplies[k].offer.Some?
    ensures Candidate(supplies[k].offer.value, E(k + 1)) in CandidatesOf(supplies)
  {
    if k < |supplies| - 1 {
      OfferIsCandidate(supplies[..|supplies| - 1], k);
    }
  }

  lemma {:induction false} SourcesAreSupplied(supplies: seq<Supply>)
    ensures forall id :: id in SourcesOf(supplies) ==> 1 <= id.number <= |supplies|
    ensures forall j, k :: 0 <= j < k < |SourcesOf(supplies)| ==>
              SourcesOf(supplies)[j].number < SourcesOf(supplies)[k].number
  {
    if supplies != [] {
      SourcesAreSupplied(supplies[..|supplies| - 1]);
    }
  }

  lemma {:induction false} SummariesSupplied(supplies: seq<Supply>)
    ensures SummaryBytes(CandidatesOf(supplies)) == OfferBytes(supplies)
  {
    if supplies != [] {
      var n := |supplies| - 1;
      SummariesSupplied(supplies[..n]);
      var before := CandidatesOf(supplies[..n]);
      if supplies[n].offer.Some? {
        var all := before + [Candidate(supplies[n].offer.value, E(n + 1))];
        assert all[..|all| - 1] == before;
      } else {
        assert before + [] == before;
      }
    }
  }

  lemma {:induction false} TextsSupplied(evidence: seq<Evidence>, supplies: seq<Supply>)
    requires |evidence| == |supplies| && forall k :: 0 <= k < |supplies| ==> evidence[k].text == supplies[k].text
    ensures TextBytes(evidence) == SupplyBytes(supplies)
  {
    if supplies != [] {
      TextsSupplied(evidence[..|evidence| - 1], supplies[..|supplies| - 1]);
    }
  }

  // ---- Identities are legible ------------------------------------------------------------------------

  lemma {:induction false} DecimalIsShort(n: nat)
    ensures |Decimal(n)| <= n + 1 && '\0' !in Decimal(n)
  {
    var digits := "0123456789";
    assert digits[n % 10] != '\0';
    if n >= 10 { DecimalIsShort(n / 10); }
  }

  lemma ShownIsLegible(id: EvidenceId)
    requires id.number <= MAX_EVIDENCE
    ensures Legible(Shown(id), MAX_ID_BYTES)
  {
    DecimalIsShort(id.number);
    assert Shown(id)[0] == 'E';
  }

  lemma AllowedIsLegible(relation: string)
    requires relation in ALLOWED_LABELS
    ensures Legible(relation, MAX_LABEL_BYTES)
  {
    assert |relation| > 0 && !Space(relation[0]);
  }

  lemma IncreasingIsMembership(ids: seq<EvidenceId>, n: nat)
    requires n <= MAX_EVIDENCE && |ids| <= MAX_EVIDENCE && forall id :: id in ids ==> id.number <= n
    requires forall j, k :: 0 <= j < k < |ids| ==> ids[j].number < ids[k].number
    ensures Membership(ids)
  {
    forall id | id in ids ensures Legible(Shown(id), MAX_ID_BYTES) { ShownIsLegible(id); }
    forall j, k | 0 <= j < k < |ids| ensures Shown(ids[j]) != Shown(ids[k]) {
      if Shown(ids[j]) == Shown(ids[k]) { ShownDistinct(ids[j], ids[k]); }
    }
  }

  // ---- Acceptance, both ways -------------------------------------------------------------------------

  /** What the walk handed on, and what holds of it whatever was supplied. */
  ghost predicate HandsOn(p: Progress, supplies: seq<Supply>) {
    && Gathered(p, supplies) && (forall k :: 0 <= k < |supplies| ==> p.evidence[k].id == E(k + 1))
    && 1 <= |p.sourceEvidence| <= |p.evidence| <= MAX_EVIDENCE && 1 <= |p.candidates| <= MAX_CANDIDATES
    && (forall k :: 0 <= k < |p.evidence| ==> p.evidence[k].source.byteStart < p.evidence[k].source.byteEnd)
    && (forall i, j :: 0 <= i < j < |p.candidates| ==> p.candidates[i].offer.node != p.candidates[j].offer.node)
  }

  lemma EvidenceOrdered(plan: Plan, src: Sources, t: Prepared, at: seq<nat>, k: nat)
    requires WellPlanned(plan) && Faithful(src) && Accounts(plan, src, t, at) && k < |t.walk.evidence|
    ensures t.walk.evidence[k].source.byteStart < t.walk.evidence[k].source.byteEnd
  {
    OriginPasses(plan, src, t, at, k);
    assert Reads(src, plan.requests[at[k]], t.walk.evidence[k], t.walk.origins[k]);
  }

  lemma CandidatesOfDifferentRequests(plan: Plan, candidates: seq<Candidate>, sourceEvidence: seq<EvidenceId>,
                                      at: seq<nat>, i: nat, j: nat)
    requires WellPlanned(plan) && Attributed(plan.requests, candidates, sourceEvidence, at)
    requires i < j < |candidates| && candidates[i].evidenceId.number < candidates[j].evidenceId.number
    requires forall k, m :: 0 <= k < m < |at| ==> at[k] < at[m]
    ensures candidates[i].offer.node != candidates[j].offer.node
  {
    var k := CandidateFact(plan, candidates, sourceEvidence, at, candidates[i]);
    var m := CandidateFact(plan, candidates, sourceEvidence, at, candidates[j]);
    assert k < m && at[k] < at[m];
  }

  /** No node is offered twice. */
  lemma CandidatesDiffer(plan: Plan, src: Sources, t: Prepared, at: seq<nat>, i: nat, j: nat)
    requires WellPlanned(plan) && Accounts(plan, src, t, at) && i < j < |t.walk.candidates|
    ensures t.walk.candidates[i].offer.node != t.walk.candidates[j].offer.node
  {
    var p := t.walk;
    CandidatesAreSupplied(Supplies(src, plan.requests[..t.report.attempts]));
    CandidatesOfDifferentRequests(plan, p.candidates, p.sourceEvidence, at, i, j);
  }

  lemma WalkHandsOn(plan: Plan, src: Sources, t: Prepared, at: seq<nat>)
    requires WellPlanned(plan) && Faithful(src) && Accounts(plan, src, t, at)
    ensures HandsOn(t.walk, Supplies(src, plan.requests[..t.report.attempts]))
  {
    CountersPass(plan, src, t, at);
    forall k | 0 <= k < |t.walk.evidence|
      ensures t.walk.evidence[k].source.byteStart < t.walk.evidence[k].source.byteEnd
    {
      EvidenceOrdered(plan, src, t, at, k);
    }
    forall i, j | 0 <= i < j < |t.walk.candidates|
      ensures t.walk.candidates[i].offer.node != t.walk.candidates[j].offer.node
    {
      CandidatesDiffer(plan, src, t, at, i, j);
    }
  }

  lemma MembershipsPass(p: Progress, supplies: seq<Supply>)
    requires HandsOn(p, supplies)
    ensures Membership(p.sourceEvidence)
    ensures forall c :: c in p.candidates ==> Membership([c.evidenceId]) && Available(p.evidence, c.evidenceId)
    ensures forall id :: id in p.sourceEvidence ==> Available(p.evidence, id)
    ensures forall k :: 0 <= k < |p.evidence| ==> Legible(Shown(p.evidence[k].id), MAX_ID_BYTES)
    ensures forall j, k :: 0 <= j < k < |p.evidence| ==> Shown(p.evidence[j].id) != Shown(p.evidence[k].id)
  {
    SourcesAreSupplied(supplies);
    CandidatesAreSupplied(supplies);
    IncreasingIsMembership(p.sourceEvidence, |supplies|);
    forall c | c in p.candidates ensures Membership([c.evidenceId]) && Available(p.evidence, c.evidenceId) {
      assert CandidateOf(supplies, c);
      IncreasingIsMembership([c.evidenceId], |supplies|);
      assert p.evidence[c.evidenceId.number - 1].id == c.evidenceId;
    }
    forall id | id in p.sourceEvidence ensures Available(p.evidence, id) {
      assert p.evidence[id.number - 1].id == id;
    }
    forall k | 0 <= k < |p.evidence| ensures Legible(Shown(p.evidence[k].id), MAX_ID_BYTES) {
      ShownIsLegible(p.evidence[k].id);
    }
    forall j, k | 0 <= j < k < |p.evidence| ensures Shown(p.evidence[j].id) != Shown(p.evidence[k].id) {
      if Shown(p.evidence[j].id) == Shown(p.evidence[k].id) { ShownDistinct(p.evidence[j].id, p.evidence[k].id); }
    }
  }

  predicate Short(s: Supply) { |s.text| <= MAX_SPAN_BYTES && LegibleCitation(s.source) }

  lemma EvidenceBoundedIff(p: Progress, supplies: seq<Supply>)
    requires HandsOn(p, supplies)
    ensures (forall e :: e in p.evidence ==> EvidenceBounded(e)) <==> forall s :: s in supplies ==> Short(s)
  {
    MembershipsPass(p, supplies);
    assert forall k :: 0 <= k < |supplies| ==> (EvidenceBounded(p.evidence[k]) <==> Short(supplies[k]));
    if forall e :: e in p.evidence ==> EvidenceBounded(e) {
      forall s | s in supplies ensures Short(s) {
        var k :| 0 <= k < |supplies| && supplies[k] == s;
        assert p.evidence[k] in p.evidence;
      }
    }
  }

  lemma OffersLegibleIff(supplies: seq<Supply>)
    ensures (forall c :: c in CandidatesOf(supplies) ==> LegibleOffer(c.offer))
            <==> forall s :: s in supplies && s.offer.Some? ==> LegibleOffer(s.offer.value)
  {
    CandidatesAreSupplied(supplies);
    if forall c :: c in CandidatesOf(supplies) ==> LegibleOffer(c.offer) {
      forall s | s in supplies && s.offer.Some? ensures LegibleOffer(s.offer.value) {
        var k :| 0 <= k < |supplies| && supplies[k] == s;
        OfferIsCandidate(supplies, k);
      }
    } else {
      var c :| c in CandidatesOf(supplies) && !LegibleOffer(c.offer);
      assert CandidateOf(supplies, c);
    }
  }

  /** The binding a fact was selected with is the one the store holds. */
  lemma SelectionLegibleIff(plan: Plan, src: Sources, n: nat, selected: map<FactKey, Selected>)
    requires Admitted(src, plan.requests, n, plan.slot, selected)
    ensures SelectionLegible(selected) <==> FactsNamed(plan, src, n)
  {
    forall fact | fact in selected
      ensures FactNamed(src, fact)
              <==> LegibleFact(fact)
                   && (selected[fact].binding.Some? ==> Legible(selected[fact].binding.value.repo, MAX_REPO_BYTES))
    {
      assert Include(src, fact, selected[fact].digest) == Some(selected[fact]);
    }
  }

  lemma MetadataBoundedIff(plan: Plan, p: Progress, supplies: seq<Supply>)
    requires HandsOn(p, supplies) && plan.edgeLabel in ALLOWED_LABELS
    ensures MetadataBounded(plan, p) <==>
              LegibleTask(plan) && ShortTexts(supplies) && LegibleSupplies(supplies)
  {
    MembershipsPass(p, supplies);
    EvidenceBoundedIff(p, supplies);
    OffersLegibleIff(supplies);
    AllowedIsLegible(plan.edgeLabel);
  }

  lemma BrokerAcceptsIff(plan: Plan, p: Progress, supplies: seq<Supply>)
    requires HandsOn(p, supplies) && ShortTexts(supplies)
    ensures BrokerAccepts(plan, p) <==> plan.edgeLabel in ALLOWED_LABELS && SupplyBytes(supplies) <= MAX_TOTAL_BYTES
  {
    MembershipsPass(p, supplies);
    TextsSupplied(p.evidence, supplies);
    forall e | e in p.evidence ensures |e.text| <= MAX_SPAN_BYTES {
      var k :| 0 <= k < |p.evidence| && p.evidence[k] == e;
      assert supplies[k] in supplies;
    }
  }

  /** The constructor's checks of the task itself, of what was handed on. */
  lemma TaskAcceptedIff(plan: Plan, p: Progress, supplies: seq<Supply>)
    requires HandsOn(p, supplies)
    ensures TaskAccepted(plan, p) <==> TaskFits(plan, supplies)
  {
    SummariesSupplied(supplies);
    if plan.edgeLabel in ALLOWED_LABELS {
      MetadataBoundedIff(plan, p, supplies);
      if ShortTexts(supplies) { BrokerAcceptsIff(plan, p, supplies); }
    }
  }

  /** A prepared selection is accepted exactly when its plan and sources fit. */
  lemma AcceptedIff(plan: Plan, src: Sources, t: Prepared, at: seq<nat>, size: Encoding)
    requires WellPlanned(plan) && Faithful(src) && Accounts(plan, src, t, at)
    ensures Accepted(plan, t, size) <==> Fits(plan, src, t.report.attempts) && size(t) <= MAX_BASIS_BYTES
  {
    WalkHandsOn(plan, src, t, at);
    PreparedIsValid(plan, src, t, at);
    TaskAcceptedIff(plan, t.walk, Supplies(src, plan.requests[..t.report.attempts]));
    SelectionLegibleIff(plan, src, t.report.attempts, t.walk.selected);
  }

  // ---- Preparation, end to end -------------------------------------------------------------------------

  /** The plan selects, and what it then hands on fits the consumer. */
  ghost predicate Preparable(plan: Plan, src: Sources, n: nat, size: Encoding) {
    Selectable(plan, src, n) && Fits(plan, src, n) && size(HandedOn(plan, src, n)) <= MAX_BASIS_BYTES
  }

  /** The refusal of a selection that was complete: it fitted the walk's limits
      and not the consumer's. */
  ghost predicate Unfit(plan: Plan, src: Sources, r: Report, size: Encoding) {
    && r.stop == InvalidSelection && r.attempts + r.unread == r.lookahead == |plan.requests|
    && r.attempts <= |plan.requests| && r.supplied == |Supplies(src, plan.requests[..r.attempts])|
    && Selectable(plan, src, r.attempts) && !Preparable(plan, src, r.attempts, size)
  }

  lemma AcceptedIffPreparable(plan: Plan, src: Sources, t: Prepared, at: seq<nat>, size: Encoding)
    requires WellPlanned(plan) && Faithful(src) && Accounts(plan, src, t, at)
    requires Selectable(plan, src, t.report.attempts) && t == HandedOn(plan, src, t.report.attempts)
    ensures Accepted(plan, t, size) <==> Preparable(plan, src, t.report.attempts, size)
  {
    AcceptedIff(plan, src, t, at, size);
  }

  /** The walk ends in one place only. */
  lemma PreparableOnce(plan: Plan, src: Sources, n: nat, size: Encoding)
    requires Selectable(plan, src, n)
    ensures (exists m: nat :: Preparable(plan, src, m, size)) <==> Preparable(plan, src, n, size)
  {
    forall m: nat | Preparable(plan, src, m, size) ensures m == n { AttemptsOnce(src, plan.requests, m, n); }
  }

  lemma UnfitReport(plan: Plan, src: Sources, t: Prepared, at: seq<nat>, size: Encoding)
    requires Accounts(plan, src, t, at) && Selectable(plan, src, t.report.attempts)
    requires !Preparable(plan, src, t.report.attempts, size)
    ensures Unfit(plan, src, t.report.(stop := InvalidSelection), size)
  {
  }

  /** Prepare a planned task: it succeeds exactly when the plan can be selected
      from and what is selected fits the consumer, and hands that on. */
  method PrepareTask(plan: Plan, src: Sources, size: Encoding) returns (result: Result<Prepared, Report>)
    requires WellPlanned(plan) && Faithful(src)
    ensures result.Ok? <==> exists n: nat :: Preparable(plan, src, n, size)
    ensures result.Ok? ==>
              && Accepted(plan, result.value, size) && Selectable(plan, src, result.value.report.attempts)
              && result.value == HandedOn(plan, src, result.value.report.attempts)
    ensures result.Err? ==> Refuted(plan, src, result.error) || Unfit(plan, src, result.error, size)
  {
    ghost var at;
    result, at := Prepare(plan, src);
    if result.Err? { return; }
    var t := result.value;
    PreparableOnce(plan, src, t.report.attempts, size);
    AcceptedIffPreparable(plan, src, t, at, size);
    if !Accepted(plan, t, size) {
      UnfitReport(plan, src, t, at, size);
      result := Err(t.report.(stop := InvalidSelection));
    }
  }

  // ---- From the snapshot ---------------------------------------------------------------------------------

  datatype Failure = Unplanned(why: PlanFailure) | Unprepared(report: Report)

  /** A selection that does not fit is not prepared at any length or encoding. */
  lemma UnfitIsRefused(plan: Plan, src: Sources, n: nat)
    requires Selectable(plan, src, n) && !Fits(plan, src, n)
    ensures forall m: nat, size: Encoding :: !Preparable(plan, src, m, size)
  {
    forall m: nat, size: Encoding ensures !Preparable(plan, src, m, size) { PreparableOnce(plan, src, n, size); }
  }

  /** Prepare a task for a gap of a graph snapshot: it succeeds exactly when the
      gap can be planned for and its plan prepared. Then the gap has an edge. */
  method PrepareFromSnapshot(nodes: seq<Node>, edges: seq<Edge>, gapId: string, actionId: string, src: Sources,
                             size: Encoding) returns (result: Result<Prepared, Failure>)
    requires Distinct(nodes) && Faithful(src)
    ensures var planned := PlanOf(nodes, edges, gapId, actionId);
            && (result.Ok? <==> planned.Ok? && exists n: nat :: Preparable(planned.value, src, n, size))
            && (result.Ok? ==>
                  && Accepted(planned.value, result.value, size) && SlotOf(edges, gapId).Some?
                  && src.seen == src.seenAgain == Snapshot(nodes, edges))
            && (planned.Err? ==> result == Err(Unplanned(planned.error)))
            && (planned.Ok? && result.Err? ==>
                  && result.error.Unprepared?
                  && (|| Refuted(planned.value, src, result.error.report)
                      || Unfit(planned.value, src, result.error.report, size)))
  {
    var planned := PlanTask(nodes, edges, gapId, actionId);
    if planned.Err? { return Err(Unplanned(planned.error)); }
    var prepared := PrepareTask(planned.value, src, size);
    if prepared.Err? { return Err(Unprepared(prepared.error)); }
    SelectableHasSlot(nodes, edges, gapId, actionId, src, prepared.value.report.attempts);
    result := Ok(prepared.value);
  }

  // ---- The limits, spelled out -----------------------------------------------------------------------------

  /** A text is legible when some character is no white space, none is NUL, and it
      is short enough. */
  lemma LegibleIff(value: string, max: nat)
    ensures Legible(value, max) <==>
            && |value| <= max && (forall i :: 0 <= i < |value| ==> value[i] as int != 0)
            && exists i :: 0 <= i < |value| && value[i] as int !in {9, 10, 11, 12, 13, 32}
  {
    forall i | 0 <= i < |value| ensures Space(value[i]) <==> value[i] as int in {9, 10, 11, 12, 13, 32} { }
    if forall i :: 0 <= i < |value| ==> value[i] as int != 0 {
      assert forall i :: 0 <= i < |value| ==> value[i] != '\0';
    }
  }

  /** The consumer's limits on what is supplied: a relation it may propose, texts
      of 8192 bytes and 48 KiB in all, summaries of 128 KiB in all, identities of
      8192 bytes and kinds of 256, and citations of 256, 1024 and 1024. */
  lemma TaskFitsIff(plan: Plan, supplies: seq<Supply>)
    ensures TaskFits(plan, supplies) <==>
            && plan.edgeLabel in {"CALLS", "PUBLISHES", "SUBSCRIBES", "FETCHES", "REFERENCES", "BACKS", "DECIDES",
                                  "GOVERNS", "MAPS_TO"}
            && (forall i :: 0 <= i < |supplies| ==> |supplies[i].text| <= 8192)
            && SupplyBytes(supplies) <= 49_152 && OfferBytes(supplies) <= 131_072
            && Legible(plan.actionId, 8192) && Legible(plan.gapId, 8192) && Legible(plan.sourceId, 8192)
            && (forall i :: 0 <= i < |supplies| ==>
                  && Legible(supplies[i].source.repo, 256) && Legible(supplies[i].source.path, 1024)
                  && Legible(supplies[i].source.commit, 1024)
                  && (supplies[i].offer.Some? ==>
                        Legible(supplies[i].offer.value.node, 8192) && Legible(supplies[i].offer.value.kind, 256)))
  {
    assert forall i :: 0 <= i < |supplies| ==> supplies[i] in supplies;
  }

  /** Supplied are exactly the texts of the requests that yield, in order. */
  lemma SuppliesSnoc(src: Sources, rs: seq<Request>, r: Request)
    ensures Supplies(src, rs + [r]) == Supplies(src, rs) + if Yields(src, r) then [SupplyOf(src, r)] else []
    ensures SupplyBytes(Supplies(src, rs + [r]))
            == SupplyBytes(Supplies(src, rs)) + if Yields(src, r) then |SupplyOf(src, r).text| else 0
  {
    var before := Supplies(src, rs);
    assert (rs + [r])[..|rs|] == rs;
    if Yields(src, r) {
      assert (before + [SupplyOf(src, r)])[..|before|] == before;
    } else {
      assert before + [] == before;
    }
  }
}
