/** The source basis a selection hands on: whatever is selected from a planned
    task passes the consumer's own validation of that basis. */
module TaskValidation {
  import opened Wrappers
  import opened Facts
  import opened SourceBindings
  import opened TaskSelection
  import opened TaskPlanning

  // ---- What the sources guarantee --------------------------------------------------------

  const MAX_RANGES: nat := 1024
  const MAX_FILE_BYTES: nat := 16 * 1024 * 1024

  predicate FaithfulRange(receipt: Captured, range: Range) {
    && range.file.sourceId == receipt.sourceId
    && range.evidence.repo == receipt.repo && range.evidence.path == range.file.path
    && range.evidence.byteStart == range.start && range.evidence.byteEnd == range.end
    && range.end <= range.file.byteLen <= MAX_FILE_BYTES
  }

  /** And the working tree is read for non-empty spans only. */
  predicate Faithful(src: Sources) {
    && (forall id :: id in src.receipts ==>
          && |src.receipts[id].ranges| <= MAX_RANGES
          && forall i :: 0 <= i < |src.receipts[id].ranges| ==>
               FaithfulRange(src.receipts[id], src.receipts[id].ranges[i]))
    && (forall cited :: cited in src.workingTree ==> cited.byteStart < cited.byteEnd)
  }

  // ---- The consumer's checks -----------------------------------------------------------------------

  predicate CountersValid(t: Prepared) {
    var r := t.report;
    && r.lookahead <= MAX_REQUESTS && r.attempts <= r.lookahead && r.unread == r.lookahead - r.attempts
    && r.supplied == |t.walk.evidence| == |t.walk.origins| <= MAX_EVIDENCE
    && r.candidates == |t.walk.candidates| <= MAX_CANDIDATES
    && r.charged <= MAX_VALIDATION_BYTES && r.attempts == r.supplied + |r.omissions|
    && |t.walk.selected| <= MAX_SELECTED && |t.walk.selected| <= r.attempts + 1
  }

  predicate StopValid(t: Prepared) {
    match t.report.stop
    case CandidateLimit => t.report.candidates == MAX_CANDIDATES
    case NeighborhoodExhausted => !t.report.tail && t.report.unread == 0
    case AttemptLimit => t.report.attempts == MAX_REQUESTS && t.report.tail
    case _ => false
  }

  predicate FactsValid(plan: Plan, t: Prepared) {
    && NodeFact(plan.sourceId) in t.walk.selected && NodeFact(plan.gapId) in t.walk.selected
    && forall c :: c in t.walk.candidates ==> NodeFact(c.offer.node) in t.walk.selected
  }

  predicate OriginValid(plan: Plan, t: Prepared, k: nat)
    requires k < |t.walk.origins| == |t.walk.evidence|
  {
    var o, e := t.walk.origins[k], t.walk.evidence[k];
    && o.id == e.id && o.fact in t.walk.selected
    && (o.id in t.walk.sourceEvidence ==> o.fact in {NodeFact(plan.sourceId), NodeFact(plan.gapId)})
    && (forall c :: c in t.walk.candidates && c.evidenceId == o.id ==> o.fact == NodeFact(c.offer.node))
    && var binding := t.walk.selected[o.fact].binding;
    match o.origin
    case WorkingTreeUnverified => binding.None?
    case CapturedPrimarySource(sourceId, receipt, index, file, start, end) =>
      && binding.Some? && sourceId == file.sourceId && receipt == binding.value.receipt && index < MAX_RANGES
      && binding.value.repo == e.source.repo && file.path == e.source.path && file.byteLen <= MAX_FILE_BYTES
      && start == e.source.byteStart && end == e.source.byteEnd && start < end <= file.byteLen
      && end - start == |e.text| <= MAX_SPAN_BYTES
  }

  predicate OriginsValid(plan: Plan, t: Prepared)
    requires |t.walk.origins| == |t.walk.evidence|
  {
    && (forall k :: 0 <= k < |t.walk.origins| ==> OriginValid(plan, t, k))
    && (forall j, k :: 0 <= j < k < |t.walk.origins| ==> Shown(t.walk.origins[j].id) != Shown(t.walk.origins[k].id))
    && Charges(t.walk.origins) == t.report.charged
  }

  predicate OmissionsValid(t: Prepared) {
    var os := t.report.omissions;
    && (forall k :: 0 <= k < |os| ==>
          && os[k].request < t.report.attempts && os[k].fact in t.walk.selected
          && (os[k].reason == LegacyReadUnavailable ==> t.walk.selected[os[k].fact].binding.None?))
    && (forall j, k :: 0 <= j < k < |os| ==> os[j].request < os[k].request)
  }

  predicate Justified(t: Prepared, fact: FactKey) {
    || (exists k :: 0 <= k < |t.walk.origins| && t.walk.origins[k].fact == fact)
    || (exists k :: 0 <= k < |t.report.omissions| && t.report.omissions[k].fact == fact)
  }

  /** No fact was selected without being read or reported omitted, but for one
      edge of the task's own relation. */
  predicate NothingSmuggled(plan: Plan, t: Prepared) {
    && (forall fact :: fact in t.walk.selected && !Justified(t, fact) ==>
          fact.EdgeFact? && fact.key.kind == plan.edgeLabel)
    && (forall f, g :: f in t.walk.selected && g in t.walk.selected && !Justified(t, f) && !Justified(t, g) ==> f == g)
  }

  predicate BasisValid(plan: Plan, t: Prepared) {
    && CountersValid(t) && StopValid(t) && FactsValid(plan, t)
    && OriginsValid(plan, t) && OmissionsValid(t) && NothingSmuggled(plan, t)
  }

  // ---- Selections pass ---------------------------------------------------------------------------------

  lemma {:induction false} TwoSourceRequests(plan: Plan, src: Sources, n: nat)
    requires WellPlanned(plan) && n <= |plan.requests|
    ensures Count(src, plan.requests[..n], false) <= if n < 2 then n else 2
  {
    if n > 0 {
      TwoSourceRequests(plan, src, n - 1);
      assert plan.requests[..n][..n - 1] == plan.requests[..n - 1];
    }
  }

  lemma CountersPass(plan: Plan, src: Sources, t: Prepared, at: seq<nat>)
    requires WellPlanned(plan) && Accounts(plan, src, t, at)
    ensures CountersValid(t) && StopValid(t)
  {
    TwoSourceRequests(plan, src, t.report.attempts);
  }

  /** Evidence of a candidate was read for that candidate's own fact. */
  lemma CandidateFact(plan: Plan, candidates: seq<Candidate>, sourceEvidence: seq<EvidenceId>, at: seq<nat>,
                      c: Candidate)
    returns (k: nat)
    requires WellPlanned(plan) && Attributed(plan.requests, candidates, sourceEvidence, at) && c in candidates
    ensures k < |at| && 2 <= at[k] < |plan.requests| && c.evidenceId == E(k + 1)
            && plan.requests[at[k]].fact == NodeFact(c.offer.node)
  {
    k :| 0 <= k < |at| && BelongsTo(plan.requests[at[k]], c, k);
  }

  /** Other evidence was read for the source or the gap. */
  lemma SourceFact(plan: Plan, candidates: seq<Candidate>, sourceEvidence: seq<EvidenceId>, at: seq<nat>,
                   id: EvidenceId)
    returns (k: nat)
    requires WellPlanned(plan) && Attributed(plan.requests, candidates, sourceEvidence, at) && id in sourceEvidence
    ensures k < |at| && at[k] < 2 && id == E(k + 1)
    ensures plan.requests[at[k]].fact in {NodeFact(plan.sourceId), NodeFact(plan.gapId)}
  {
    k :| 0 <= k < |at| && OfSource(plan.requests[at[k]], id, k);
  }

  lemma FactsPass(plan: Plan, src: Sources, t: Prepared, at: seq<nat>)
    requires WellPlanned(plan) && Accounts(plan, src, t, at)
    ensures FactsValid(plan, t)
  {
    forall c | c in t.walk.candidates ensures NodeFact(c.offer.node) in t.walk.selected && t.report.attempts > 2 {
      var k := CandidateFact(plan, t.walk.candidates, t.walk.sourceEvidence, at, c);
      SelectedAsRead(plan, src, t, at, at[k]);
    }
    assert t.walk.candidates[0] in t.walk.candidates;
    SelectedAsRead(plan, src, t, at, 0);
    SelectedAsRead(plan, src, t, at, 1);
  }

  /** The selection recorded for an attempted request is the one it was read under. */
  lemma SelectedAsRead(plan: Plan, src: Sources, t: Prepared, at: seq<nat>, i: nat)
    requires Accounts(plan, src, t, at) && i < t.report.attempts
    ensures var r := plan.requests[i];
            r.fact in t.walk.selected && Include(src, r.fact, r.digest) == Some(t.walk.selected[r.fact])
  {
    var r := plan.requests[i];
    assert r.fact in t.walk.selected && Include(src, r.fact, r.digest).Some?;
    assert Include(src, r.fact, t.walk.selected[r.fact].digest) == Some(t.walk.selected[r.fact]);
  }

  lemma OriginMemberships(plan: Plan, candidates: seq<Candidate>, sourceEvidence: seq<EvidenceId>, at: seq<nat>, k: nat)
    requires WellPlanned(plan) && Attributed(plan.requests, candidates, sourceEvidence, at) && k < |at|
    ensures E(k + 1) in sourceEvidence ==> plan.requests[at[k]].fact in {NodeFact(plan.sourceId), NodeFact(plan.gapId)}
    ensures forall c :: c in candidates && c.evidenceId == E(k + 1) ==>
            plan.requests[at[k]].fact == NodeFact(c.offer.node)
  {
    if E(k + 1) in sourceEvidence {
      var j := SourceFact(plan, candidates, sourceEvidence, at, E(k + 1));
    }
    forall c | c in candidates && c.evidenceId == E(k + 1) ensures plan.requests[at[k]].fact == NodeFact(c.offer.node) {
      var j := CandidateFact(plan, candidates, sourceEvidence, at, c);
    }
  }

  lemma OriginPasses(plan: Plan, src: Sources, t: Prepared, at: seq<nat>, k: nat)
    requires WellPlanned(plan) && Faithful(src) && Accounts(plan, src, t, at) && k < |at|
    ensures OriginValid(plan, t, k)
  {
    var o, e, r := t.walk.origins[k], t.walk.evidence[k], plan.requests[at[k]];
    assert Reads(src, r, e, o);
    SelectedAsRead(plan, src, t, at, at[k]);
    OriginMemberships(plan, t.walk.candidates, t.walk.sourceEvidence, at, k);
    if o.origin.CapturedPrimarySource? {
      var receipt := src.receipts[o.origin.receipt];
      assert FaithfulRange(receipt, receipt.ranges[o.origin.inventoryIndex]);
    }
  }

  lemma OriginsPass(plan: Plan, src: Sources, t: Prepared, at: seq<nat>)
    requires WellPlanned(plan) && Faithful(src) && Accounts(plan, src, t, at)
    ensures OriginsValid(plan, t)
  {
    forall k | 0 <= k < |t.walk.origins| ensures OriginValid(plan, t, k) { OriginPasses(plan, src, t, at, k); }
    forall j, k | 0 <= j < k < |t.walk.origins| ensures Shown(t.walk.origins[j].id) != Shown(t.walk.origins[k].id) {
      assert Reads(src, plan.requests[at[j]], t.walk.evidence[j], t.walk.origins[j]);
      assert Reads(src, plan.requests[at[k]], t.walk.evidence[k], t.walk.origins[k]);
      if Shown(t.walk.origins[j].id) == Shown(t.walk.origins[k].id) {
        ShownDistinct(t.walk.origins[j].id, t.walk.origins[k].id);
      }
    }
  }

  lemma OmissionsPass(plan: Plan, src: Sources, t: Prepared, at: seq<nat>)
    requires Accounts(plan, src, t, at)
    ensures OmissionsValid(t)
  {
    var os := t.report.omissions;
    forall k | 0 <= k < |os|
      ensures os[k].request < t.report.attempts && os[k].fact in t.walk.selected
      ensures os[k].reason == LegacyReadUnavailable ==> t.walk.selected[os[k].fact].binding.None?
    {
      SelectedAsRead(plan, src, t, at, os[k].request);
      assert Skips(src, plan.requests[os[k].request], os[k].reason);
    }
  }

  /** Every attempted request's fact was read or reported omitted. */
  lemma AttemptedIsJustified(plan: Plan, src: Sources, t: Prepared, at: seq<nat>, i: nat)
    requires Accounts(plan, src, t, at) && i < t.report.attempts
    ensures Justified(t, plan.requests[i].fact)
  {
    if i in at {
      var k :| 0 <= k < |at| && at[k] == i;
      assert Reads(src, plan.requests[at[k]], t.walk.evidence[k], t.walk.origins[k]);
    } else {
      assert Omitted(t.report.omissions, i);
      var k :| 0 <= k < |t.report.omissions| && t.report.omissions[k].request == i;
      assert t.report.omissions[k].fact == plan.requests[i].fact;
    }
  }

  lemma NothingIsSmuggled(plan: Plan, src: Sources, t: Prepared, at: seq<nat>)
    requires WellPlanned(plan) && Accounts(plan, src, t, at)
    ensures NothingSmuggled(plan, t)
  {
    forall fact | fact in t.walk.selected && !Justified(t, fact) ensures SlotFact(plan.slot, fact) {
      if Planned(plan.requests, t.report.attempts, fact) {
        var i :| 0 <= i < t.report.attempts && plan.requests[i].fact == fact;
        AttemptedIsJustified(plan, src, t, at, i);
      }
    }
  }

  /** Every selection prepared from a planned task over faithful receipts passes
      the validation of its basis. */
  lemma PreparedIsValid(plan: Plan, src: Sources, t: Prepared, at: seq<nat>)
    requires WellPlanned(plan) && Faithful(src) && Accounts(plan, src, t, at)
    ensures BasisValid(plan, t)
  {
    CountersPass(plan, src, t, at);
    FactsPass(plan, src, t, at);
    OriginsPass(plan, src, t, at);
    OmissionsPass(plan, src, t, at);
    NothingIsSmuggled(plan, src, t, at);
  }

  /** A fact with a receipt binding never yields working-tree text, and every
      admitted fact read the same in both snapshots. */
  lemma BoundNeverWorkingTree(plan: Plan, src: Sources, t: Prepared, at: seq<nat>, k: nat)
    requires Accounts(plan, src, t, at) && k < |t.walk.origins|
    ensures var fact := t.walk.origins[k].fact;
            && fact in src.preliminary && fact in src.authoritative && src.preliminary[fact] == src.authoritative[fact]
            && (src.authoritative[fact].Present? <==> t.walk.origins[k].origin.CapturedPrimarySource?)
  {
    assert Reads(src, plan.requests[at[k]], t.walk.evidence[k], t.walk.origins[k]);
  }
}
