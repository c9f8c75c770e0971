/** Bounded evidence selection for an agent task: a budgeted walk over planned
    requests, whose counters, identities and origins must agree. */
module TaskSelection {
  import opened Wrappers
  import opened Facts
  import opened SourceBindings

  const MAX_REQUESTS: nat := 64
  const MAX_CANDIDATES: nat := 8
  const MAX_EVIDENCE: nat := 12
  const MAX_SELECTED: nat := 65
  const MAX_SPAN_BYTES: nat := 8192
  const MAX_VALIDATION_BYTES: nat := 128 * 1024 * 1024

  datatype Association = Association(repo: string, receipt: string)

  /** What the store observed for one selected fact. */
  datatype SourceState = Missing | Absent(digest: Fact) | Present(digest: Fact, binding: Association) | Invalid

  datatype Selected = Selected(digest: Fact, binding: Option<Association>)

  /** A candidate target as it would be offered. */
  datatype Offer = Offer(node: string, kind: string, summary: string)

  datatype Request = Request(fact: FactKey, digest: Fact, reference: Option<EvidenceRef>, candidate: Option<Offer>)

  datatype Slot = Slot(fact: FactKey, digest: Fact)

  /** The whole graph, as one read saw it. */
  datatype Snapshot = Snapshot(nodes: seq<Node>, edges: seq<Edge>)

  datatype Plan = Plan(
    graph: Snapshot, actionId: string, sourceId: string, gapId: string, edgeLabel: string,
    requests: seq<Request>, slot: Option<Slot>, unplanned: nat)

  datatype File = File(sourceId: string, path: string, byteLen: nat)

  /** One inventoried span; `text` is what reading it back yields, if it can. */
  datatype Range = Range(provenance: bool, index: nat, evidence: EvidenceRef, file: File, start: nat, end: nat,
                         text: Option<string>)

  datatype Captured = Captured(sourceId: string, repo: string, fact: FactKey, digest: Fact, ranges: seq<Range>)

  /** Everything the walk reads: the graph and the selections as seen before and
      after the source guards were taken, the retention guards by repository,
      the retained receipts, and the readable working tree. */
  datatype Sources = Sources(
    seen: Snapshot,
    seenAgain: Snapshot,
    preliminary: map<FactKey, SourceState>,
    authoritative: map<FactKey, SourceState>,
    guards: map<string, string>,
    receipts: map<string, Captured>,
    workingTree: map<EvidenceRef, string>)

  datatype Origin =
    | WorkingTreeUnverified
    | CapturedPrimarySource(sourceId: string, receipt: string, inventoryIndex: nat, file: File, start: nat, end: nat)

  /** The n-th piece of evidence. */
  datatype EvidenceId = E(number: nat)

  datatype Evidence = Evidence(id: EvidenceId, source: EvidenceRef, text: string)

  datatype EvidenceOrigin = EvidenceOrigin(id: EvidenceId, fact: FactKey, origin: Origin)

  datatype Candidate = Candidate(offer: Offer, evidenceId: EvidenceId)

  datatype OmissionReason = MissingCitation | LegacyReadUnavailable

  datatype Omission = Omission(request: nat, fact: FactKey, reason: OmissionReason)

  datatype StopReason =
    | CandidateLimit | NeighborhoodExhausted | AttemptLimit | ValidationByteLimit
    | ParticipatingSourceUnavailable | InvalidSelection | RequiredMembershipMissing

  datatype Report = Report(
    lookahead: nat, attempts: nat, supplied: nat, candidates: nat, charged: nat,
    omissions: seq<Omission>, unread: nat, tail: bool, stop: StopReason)

  // ---- Evidence identities -------------------------------------------------------------------

  function Decimal(n: nat): (s: string)
    ensures if n < 10 then |s| == 1 else |s| >= 2
  {
    var digit := "0123456789"[n % 10];
    if n < 10 then [digit] else Decimal(n / 10) + [digit]
  }

  /** How an evidence identity is written: E1, E2, ... */
  function Shown(id: EvidenceId): string { "E" + Decimal(id.number) }

  lemma {:induction false} DecimalInjective(a: nat, b: nat)
    requires Decimal(a) == Decimal(b)
    ensures a == b
  {
    var da, db := Decimal(a), Decimal(b);
    assert da[|da| - 1] == "0123456789"[a % 10] && db[|db| - 1] == "0123456789"[b % 10];
    assert a % 10 == b % 10;
    if a >= 10 && b >= 10 {
      assert da[..|da| - 1] == Decimal(a / 10) && db[..|db| - 1] == Decimal(b / 10);
      DecimalInjective(a / 10, b / 10);
    }
  }

  /** Different identities are written differently. */
  lemma ShownDistinct(a: EvidenceId, b: EvidenceId)
    requires Shown(a) == Shown(b)
    ensures a == b
  {
    assert Shown(a)[1..] == Decimal(a.number) && Shown(b)[1..] == Decimal(b.number);
    DecimalInjective(a.number, b.number);
  }

  // ---- Admitting one fact -----------------------------------------------------------------------

  function SelectionOf(state: SourceState): Option<Selected> {
    match state
    case Absent(digest) => Some(Selected(digest, None))
    case Present(digest, binding) => Some(Selected(digest, Some(binding)))
    case _ => None
  }

  /** Both reads agree, the fact is there, and it is the planned one. */
  function Include(src: Sources, fact: FactKey, digest: Fact): Option<Selected> {
    if fact !in src.authoritative then None
    else if fact !in src.preliminary || src.preliminary[fact] != src.authoritative[fact] then None
    else
      var entry := SelectionOf(src.authoritative[fact]);
      if entry.Some? && entry.value.digest == digest then entry else None
  }

  /** The first inventoried span that is the fact's first citation. */
  function FindRange(ranges: seq<Range>, reference: EvidenceRef, from: nat): Option<nat>
    requires from <= |ranges|
    ensures var r := FindRange(ranges, reference, from);
            r.Some? ==> r.value < |ranges| && ranges[r.value].provenance && ranges[r.value].index == 0
                        && ranges[r.value].evidence == reference
    decreases |ranges| - from
  {
    if from == |ranges| then None
    else if ranges[from].provenance && ranges[from].index == 0 && ranges[from].evidence == reference then Some(from)
    else FindRange(ranges, reference, from + 1)
  }

  /** The receipt a binding names, as the retention store validates it. */
  predicate Pinned(src: Sources, fact: FactKey, digest: Fact, binding: Association) {
    && binding.repo in src.guards && binding.receipt in src.receipts
    && var receipt := src.receipts[binding.receipt];
    && receipt.sourceId == src.guards[binding.repo] && receipt.repo == binding.repo
    && receipt.fact == fact && receipt.digest == digest
  }

  /** The bound receipt lists the citation, within the span limit. */
  predicate Located(src: Sources, r: Request, binding: Association) {
    && r.reference.Some? && Pinned(src, r.fact, r.digest, binding)
    && var ranges := src.receipts[binding.receipt].ranges;
    && var index := FindRange(ranges, r.reference.value, 0);
    && index.Some?
    && var range := ranges[index.value];
    range.start < range.end <= range.start + MAX_SPAN_BYTES
  }

  function RangeOf(src: Sources, r: Request, binding: Association): Range
    requires Located(src, r, binding)
  {
    var ranges := src.receipts[binding.receipt].ranges;
    ranges[FindRange(ranges, r.reference.value, 0).value]
  }

  /** And its span can be read back whole. */
  predicate Retained(src: Sources, r: Request, binding: Association) {
    && Located(src, r, binding)
    && var range := RangeOf(src, r, binding);
    range.text.Some? && |range.text.value| == range.end - range.start
  }

  /** The request ends the walk: its fact is not the planned one, or its bound
      receipt cannot be read. */
  predicate Blocks(src: Sources, r: Request) {
    var entry := Include(src, r.fact, r.digest);
    entry.None? || (r.reference.Some? && entry.value.binding.Some? && !Retained(src, r, entry.value.binding.value))
  }

  /** The request supplies evidence. */
  predicate Yields(src: Sources, r: Request) {
    !Blocks(src, r) && r.reference.Some?
    && (Include(src, r.fact, r.digest).value.binding.None? ==> r.reference.value in src.workingTree)
  }

  /** The captured-file validation a request costs. */
  function Bytes(src: Sources, r: Request): nat {
    if Yields(src, r) && Include(src, r.fact, r.digest).value.binding.Some?
    then RangeOf(src, r, Include(src, r.fact, r.digest).value.binding.value).file.byteLen
    else 0
  }

  /** What a request supplies: its citation, the text read, and the candidate. */
  datatype Supply = Supply(source: EvidenceRef, text: string, offer: Option<Offer>)

  function SupplyOf(src: Sources, r: Request): Supply
    requires Yields(src, r)
  {
    var binding := Include(src, r.fact, r.digest).value.binding;
    var text := if binding.None? then src.workingTree[r.reference.value] else RangeOf(src, r, binding.value).text.value;
    Supply(r.reference.value, text, r.candidate)
  }

  /** Where what a request supplies was read. */
  function OriginOf(src: Sources, r: Request): Origin
    requires Yields(src, r)
  {
    match Include(src, r.fact, r.digest).value.binding
    case None => WorkingTreeUnverified
    case Some(binding) =>
      var receipt := src.receipts[binding.receipt];
      var index := FindRange(receipt.ranges, r.reference.value, 0).value;
      var range := receipt.ranges[index];
      CapturedPrimarySource(receipt.sourceId, binding.receipt, index, range.file, range.start, range.end)
  }

  /** Everything the requests supply, in order. */
  function Supplies(src: Sources, rs: seq<Request>): seq<Supply> {
    if rs == [] then []
    else
      var r := rs[|rs| - 1];
      Supplies(src, rs[..|rs| - 1]) + if Yields(src, r) then [SupplyOf(src, r)] else []
  }

  function CandidatesOf(supplies: seq<Supply>): seq<Candidate> {
    if supplies == [] then []
    else
      var last := supplies[|supplies| - 1];
      CandidatesOf(supplies[..|supplies| - 1])
      + if last.offer.Some? then [Candidate(last.offer.value, E(|supplies|))] else []
  }

  function SourcesOf(supplies: seq<Supply>): seq<EvidenceId> {
    if supplies == [] then []
    else SourcesOf(supplies[..|supplies| - 1]) + if supplies[|supplies| - 1].offer.None? then [E(|supplies|)] else []
  }

  function ByteSum(src: Sources, rs: seq<Request>): nat {
    if rs == [] then 0 else ByteSum(src, rs[..|rs| - 1]) + Bytes(src, rs[|rs| - 1])
  }

  function Count(src: Sources, rs: seq<Request>, candidate: bool): nat {
    if rs == [] then 0
    else
      var r := rs[|rs| - 1];
      Count(src, rs[..|rs| - 1], candidate) + if Yields(src, r) && r.candidate.Some? == candidate then 1 else 0
  }

  // ---- The walk -------------------------------------------------------------------------------------

  datatype Progress = Progress(
    evidence: seq<Evidence>, origins: seq<EvidenceOrigin>, candidates: seq<Candidate>, sourceEvidence: seq<EvidenceId>,
    omissions: seq<Omission>, charged: nat, selected: map<FactKey, Selected>)

  /** What is handed on: everything gathered, and the report about it. */
  datatype Prepared = Prepared(walk: Progress, report: Report)

  /** Evidence and origin say exactly what was read for the request: retained
      bytes of the bound receipt, or the working tree when no receipt is bound. */
  predicate Reads(src: Sources, r: Request, e: Evidence, o: EvidenceOrigin) {
    && r.reference == Some(e.source) && o.fact == r.fact && o.id == e.id
    && Include(src, r.fact, r.digest).Some?
    && var binding := Include(src, r.fact, r.digest).value.binding;
    match o.origin
    case WorkingTreeUnverified => binding.None? && e.source in src.workingTree && e.text == src.workingTree[e.source]
    case CapturedPrimarySource(sourceId, receipt, index, file, start, end) =>
      && binding.Some? && binding.value.receipt == receipt && Pinned(src, r.fact, r.digest, binding.value)
      && sourceId == src.guards[binding.value.repo]
      && index < |src.receipts[receipt].ranges|
      && src.receipts[receipt].ranges[index] == Range(true, 0, e.source, file, start, end, Some(e.text))
      && 0 < end - start == |e.text| <= MAX_SPAN_BYTES
  }

  predicate Skips(src: Sources, r: Request, reason: OmissionReason) {
    && Include(src, r.fact, r.digest).Some?
    && match reason
       case MissingCitation => r.reference.None?
       case LegacyReadUnavailable =>
         && Include(src, r.fact, r.digest).value.binding.None?
         && r.reference.Some? && r.reference.value !in src.workingTree
  }

  function ChargeOf(o: EvidenceOrigin): nat {
    if o.origin.CapturedPrimarySource? then o.origin.file.byteLen else 0
  }

  function Charges(origins: seq<EvidenceOrigin>): nat {
    if origins == [] then 0 else Charges(origins[..|origins| - 1]) + ChargeOf(origins[|origins| - 1])
  }

  /** `at[k]` is the request evidence `k` was read for. */
  ghost predicate Aligned(src: Sources, rs: seq<Request>, n: nat, es: seq<Evidence>, os: seq<EvidenceOrigin>,
                          at: seq<nat>) {
    && |es| == |os| == |at| && n <= |rs|
    && (forall k :: 0 <= k < |at| ==> at[k] < n)
    && (forall j, k :: 0 <= j < k < |at| ==> at[j] < at[k])
    && (forall k :: 0 <= k < |at| ==> es[k].id == E(k + 1) && Reads(src, rs[at[k]], es[k], os[k]))
  }

  ghost predicate OmissionsRight(src: Sources, rs: seq<Request>, n: nat, omissions: seq<Omission>) {
    && n <= |rs|
    && (forall k :: 0 <= k < |omissions| ==>
          var o := omissions[k];
          o.request < n && o.fact == rs[o.request].fact && Skips(src, rs[o.request], o.reason))
    && (forall j, k :: 0 <= j < k < |omissions| ==> omissions[j].request < omissions[k].request)
  }

  ghost predicate Omitted(omissions: seq<Omission>, i: nat) {
    exists k :: 0 <= k < |omissions| && omissions[k].request == i
  }

  /** Each attempted request was either read or omitted. */
  ghost predicate Covered(omissions: seq<Omission>, n: nat, at: seq<nat>) {
    |at| + |omissions| == n && forall i :: 0 <= i < n ==> i in at || Omitted(omissions, i)
  }

  predicate BelongsTo(r: Request, c: Candidate, k: nat) { r.candidate == Some(c.offer) && c.evidenceId == E(k + 1) }

  predicate OfSource(r: Request, id: EvidenceId, k: nat) { r.candidate.None? && id == E(k + 1) }

  /** Evidence of a candidate belongs to that candidate, the rest to the source. */
  ghost predicate Attributed(rs: seq<Request>, candidates: seq<Candidate>, sourceEvidence: seq<EvidenceId>,
                             at: seq<nat>) {
    && (forall k :: 0 <= k < |at| ==> at[k] < |rs|)
    && |candidates| + |sourceEvidence| == |at|
    && (forall c :: c in candidates ==> exists k :: 0 <= k < |at| && BelongsTo(rs[at[k]], c, k))
    && (forall id :: id in sourceEvidence ==> exists k :: 0 <= k < |at| && OfSource(rs[at[k]], id, k))
  }

  predicate SlotFact(slot: Option<Slot>, fact: FactKey) { slot.Some? && slot.value.fact == fact }

  predicate Planned(rs: seq<Request>, n: nat, fact: FactKey)
    requires n <= |rs|
  {
    exists i :: 0 <= i < n && rs[i].fact == fact
  }

  /** Exactly the slot and the attempted facts were admitted, each as both
      reads saw it and as the plan digested it. */
  ghost predicate Admitted(src: Sources, rs: seq<Request>, n: nat, slot: Option<Slot>,
                           selected: map<FactKey, Selected>) {
    && n <= |rs|
    && (forall i :: 0 <= i < n ==> rs[i].fact in selected && Include(src, rs[i].fact, rs[i].digest).Some?)
    && (slot.Some? ==> slot.value.fact in selected)
    && (forall fact :: fact in selected ==>
          && (SlotFact(slot, fact) || Planned(rs, n, fact))
          && Include(src, fact, selected[fact].digest) == Some(selected[fact]))
    && |selected| <= n + 1
  }

  ghost predicate Good(src: Sources, rs: seq<Request>, n: nat, slot: Option<Slot>, p: Progress, at: seq<nat>) {
    && Aligned(src, rs, n, p.evidence, p.origins, at)
    && OmissionsRight(src, rs, n, p.omissions) && Covered(p.omissions, n, at)
    && Attributed(rs, p.candidates, p.sourceEvidence, at)
    && Admitted(src, rs, n, slot, p.selected)
    && p.charged == Charges(p.origins) <= MAX_VALIDATION_BYTES
    && |p.candidates| <= MAX_CANDIDATES
  }

  // ---- One request -----------------------------------------------------------------------------------

  function Admit(p: Progress, fact: FactKey, entry: Selected): Progress {
    p.(selected := p.selected[fact := entry])
  }

  function Omit(p: Progress, i: nat, r: Request, reason: OmissionReason): Progress {
    p.(omissions := p.omissions + [Omission(i, r.fact, reason)])
  }

  function Add(p: Progress, r: Request, e: Evidence, o: EvidenceOrigin): Progress {
    var q := p.(evidence := p.evidence + [e], origins := p.origins + [o], charged := p.charged + ChargeOf(o));
    if r.candidate.Some? then q.(candidates := p.candidates + [Candidate(r.candidate.value, e.id)])
    else q.(sourceEvidence := p.sourceEvidence + [e.id])
  }

  function ReasonOf(r: Request): OmissionReason {
    if r.reference.None? then MissingCitation else LegacyReadUnavailable
  }

  /** One attempt at a request that does not block. */
  function Attempted(src: Sources, p: Progress, i: nat, r: Request): Progress
    requires !Blocks(src, r)
  {
    var q := Admit(p, r.fact, Include(src, r.fact, r.digest).value);
    if Yields(src, r) then
      var supply, id := SupplyOf(src, r), E(|p.evidence| + 1);
      Add(q, r, Evidence(id, supply.source, supply.text), EvidenceOrigin(id, r.fact, OriginOf(src, r)))
    else Omit(q, i, r, ReasonOf(r))
  }

  /** Both reads saw the graph the plan was made from. */
  predicate Unchanged(plan: Plan, src: Sources) { src.seen == plan.graph && src.seenAgain == plan.graph }

  predicate SlotAdmitted(src: Sources, slot: Option<Slot>) {
    slot.Some? ==> Include(src, slot.value.fact, slot.value.digest).Some?
  }

  /** The whole walk over the first `n` requests, none of which blocks. */
  function WalkOf(src: Sources, rs: seq<Request>, n: nat, slot: Option<Slot>): Progress
    requires n <= |rs| && SlotAdmitted(src, slot) && forall k :: 0 <= k < n ==> !Blocks(src, rs[k])
  {
    if n == 0 then
      var p := Progress([], [], [], [], [], 0, map[]);
      if slot.None? then p else Admit(p, slot.value.fact, Include(src, slot.value.fact, slot.value.digest).value)
    else Attempted(src, WalkOf(src, rs, n - 1, slot), n - 1, rs[n - 1])
  }

  /** What an attempt adds to `at`. */
  function Reached(src: Sources, r: Request, n: nat, at: seq<nat>): seq<nat> { if Yields(src, r) then at + [n] else at }

  /** The requests, among the first `n`, that supply evidence. */
  function Places(src: Sources, rs: seq<Request>, n: nat): seq<nat>
    requires n <= |rs|
  {
    if n == 0 then [] else Reached(src, rs[n - 1], n - 1, Places(src, rs, n - 1))
  }

  lemma AdmittedOne(src: Sources, rs: seq<Request>, n: nat, slot: Option<Slot>, selected: map<FactKey, Selected>,
                    entry: Selected, fact: FactKey)
    requires n < |rs| && Admitted(src, rs, n, slot, selected) && Include(src, rs[n].fact, rs[n].digest) == Some(entry)
    requires fact in selected[rs[n].fact := entry]
    ensures SlotFact(slot, fact) || Planned(rs, n + 1, fact)
    ensures var next := selected[rs[n].fact := entry]; Include(src, fact, next[fact].digest) == Some(next[fact])
  {
    PlannedGrows(rs, n, fact);
    if fact != rs[n].fact { assert fact in selected; }
  }

  lemma AdmitKeeps(src: Sources, rs: seq<Request>, n: nat, slot: Option<Slot>, selected: map<FactKey, Selected>,
                   entry: Selected)
    requires n < |rs| && Admitted(src, rs, n, slot, selected) && Include(src, rs[n].fact, rs[n].digest) == Some(entry)
    ensures Admitted(src, rs, n + 1, slot, selected[rs[n].fact := entry])
  {
    var next := selected[rs[n].fact := entry];
    assert next.Keys == selected.Keys + {rs[n].fact};
    forall fact | fact in next
      ensures SlotFact(slot, fact) || Planned(rs, n + 1, fact)
      ensures Include(src, fact, next[fact].digest) == Some(next[fact])
    {
      AdmittedOne(src, rs, n, slot, selected, entry, fact);
    }
  }

  lemma PlannedGrows(rs: seq<Request>, n: nat, fact: FactKey)
    requires n < |rs|
    ensures Planned(rs, n + 1, fact) <==> Planned(rs, n, fact) || rs[n].fact == fact
  {
  }

  lemma OmitOne(src: Sources, rs: seq<Request>, n: nat, omissions: seq<Omission>, at: seq<nat>, reason: OmissionReason)
    requires n < |rs| && OmissionsRight(src, rs, n, omissions) && Covered(omissions, n, at) && Skips(src, rs[n], reason)
    ensures OmissionsRight(src, rs, n + 1, omissions + [Omission(n, rs[n].fact, reason)])
    ensures Covered(omissions + [Omission(n, rs[n].fact, reason)], n + 1, at)
  {
    var next := omissions + [Omission(n, rs[n].fact, reason)];
    forall i | 0 <= i < n + 1 ensures i in at || Omitted(next, i) {
      if i == n {
        assert next[|omissions|].request == n;
      } else if Omitted(omissions, i) {
        var k :| 0 <= k < |omissions| && omissions[k].request == i;
        assert next[k] == omissions[k];
      }
    }
  }

  lemma AlignedGrows(src: Sources, rs: seq<Request>, n: nat, es: seq<Evidence>, os: seq<EvidenceOrigin>, at: seq<nat>)
    requires n < |rs| && Aligned(src, rs, n, es, os, at)
    ensures Aligned(src, rs, n + 1, es, os, at)
  {
  }

  lemma OmitKeeps(src: Sources, rs: seq<Request>, n: nat, slot: Option<Slot>, p: Progress, at: seq<nat>,
                  entry: Selected, reason: OmissionReason)
    requires n < |rs| && Good(src, rs, n, slot, p, at)
    requires Include(src, rs[n].fact, rs[n].digest) == Some(entry) && Skips(src, rs[n], reason)
    ensures Good(src, rs, n + 1, slot, Omit(Admit(p, rs[n].fact, entry), n, rs[n], reason), at)
  {
    AdmitKeeps(src, rs, n, slot, p.selected, entry);
    OmitOne(src, rs, n, p.omissions, at, reason);
    AlignedGrows(src, rs, n, p.evidence, p.origins, at);
  }

  lemma AddAligned(src: Sources, rs: seq<Request>, n: nat, es: seq<Evidence>, os: seq<EvidenceOrigin>, at: seq<nat>,
                   e: Evidence, o: EvidenceOrigin)
    requires n < |rs| && Aligned(src, rs, n, es, os, at) && e.id == E(|at| + 1) && Reads(src, rs[n], e, o)
    ensures Aligned(src, rs, n + 1, es + [e], os + [o], at + [n])
    ensures Charges(os + [o]) == Charges(os) + ChargeOf(o)
  {
    assert (os + [o])[..|os|] == os;
  }

  lemma AddCovers(src: Sources, rs: seq<Request>, omissions: seq<Omission>, n: nat, at: seq<nat>)
    requires n < |rs| && Covered(omissions, n, at) && OmissionsRight(src, rs, n, omissions)
    ensures Covered(omissions, n + 1, at + [n]) && OmissionsRight(src, rs, n + 1, omissions)
  {
  }

  lemma AddAttributes(rs: seq<Request>, p: Progress, at: seq<nat>, n: nat, e: Evidence, o: EvidenceOrigin)
    requires n < |rs| && Attributed(rs, p.candidates, p.sourceEvidence, at) && e.id == E(|at| + 1)
    ensures var q := Add(p, rs[n], e, o); Attributed(rs, q.candidates, q.sourceEvidence, at + [n])
  {
    var q, all := Add(p, rs[n], e, o), at + [n];
    assert all[|at|] == n;
    forall c | c in q.candidates ensures exists k :: 0 <= k < |all| && BelongsTo(rs[all[k]], c, k) {
      if c in p.candidates {
        var k :| 0 <= k < |at| && BelongsTo(rs[at[k]], c, k);
        assert all[k] == at[k];
      } else {
        assert BelongsTo(rs[all[|at|]], c, |at|);
      }
    }
    forall id | id in q.sourceEvidence ensures exists k :: 0 <= k < |all| && OfSource(rs[all[k]], id, k) {
      if id in p.sourceEvidence {
        var k :| 0 <= k < |at| && OfSource(rs[at[k]], id, k);
        assert all[k] == at[k];
      } else {
        assert OfSource(rs[all[|at|]], id, |at|);
      }
    }
  }

  lemma AddKeeps(src: Sources, rs: seq<Request>, n: nat, slot: Option<Slot>, p: Progress, at: seq<nat>,
                 entry: Selected, e: Evidence, o: EvidenceOrigin, q: Progress)
    requires n < |rs| && Good(src, rs, n, slot, p, at) && |p.candidates| < MAX_CANDIDATES
    requires q == Add(Admit(p, rs[n].fact, entry), rs[n], e, o)
    requires Include(src, rs[n].fact, rs[n].digest) == Some(entry)
    requires e.id == E(|at| + 1) && Reads(src, rs[n], e, o) && p.charged + ChargeOf(o) <= MAX_VALIDATION_BYTES
    ensures Good(src, rs, n + 1, slot, q, at + [n])
  {
    var a := Admit(p, rs[n].fact, entry);
    AddShape(a, rs[n], e, o);
    AdmitKeeps(src, rs, n, slot, p.selected, entry);
    AddAligned(src, rs, n, p.evidence, p.origins, at, e, o);
    AddCovers(src, rs, p.omissions, n, at);
    AddAttributes(rs, a, at, n, e, o);
  }

  lemma AddShape(p: Progress, r: Request, e: Evidence, o: EvidenceOrigin)
    ensures var q := Add(p, r, e, o);
            && q.evidence == p.evidence + [e] && q.origins == p.origins + [o] && q.omissions == p.omissions
            && q.selected == p.selected && q.charged == p.charged + ChargeOf(o) && |q.candidates| <= |p.candidates| + 1
  {
  }

  // ---- The host's loop -----------------------------------------------------------------------------------

  /** A request's read: what to add, what to omit, or why the walk must stop. */
  datatype Outcome =
    | Read(text: string, origin: Origin)
    | Skip(reason: OmissionReason)
    | Stop(why: StopReason, spent: nat)

  /** Why a request stops the walk: a changed fact or a citation the receipt does
      not inventory is invalid, as is text of the wrong length; a receipt or span
      that cannot be had is unavailable; and the budget is asked before the bytes. */
  ghost predicate StopsWith(src: Sources, r: Request, charged: nat, why: StopReason) {
    var entry := Include(src, r.fact, r.digest);
    if entry.None? then why == InvalidSelection
    else if r.reference.None? || entry.value.binding.None? then false
    else if !Pinned(src, r.fact, r.digest, entry.value.binding.value) then why == ParticipatingSourceUnavailable
    else
      var ranges := src.receipts[entry.value.binding.value.receipt].ranges;
      var index := FindRange(ranges, r.reference.value, 0);
      if index.None? then why == InvalidSelection
      else
        var range := ranges[index.value];
        if !(range.start < range.end <= range.start + MAX_SPAN_BYTES) then why == ParticipatingSourceUnavailable
        else if charged + range.file.byteLen > MAX_VALIDATION_BYTES then why == ValidationByteLimit
        else if range.text.None? then why == ParticipatingSourceUnavailable
        else |range.text.value| != range.end - range.start && why == InvalidSelection
  }

  /** Read one admitted request. A bound fact is read from its receipt's
      retained bytes or not at all; the validation budget is charged first. */
  method ReadRequest(src: Sources, r: Request, entry: Selected, id: EvidenceId, charged: nat) returns (outcome: Outcome)
    requires Include(src, r.fact, r.digest) == Some(entry) && charged <= MAX_VALIDATION_BYTES
    ensures outcome.Read? ==> r.reference.Some?
    ensures outcome.Read? ==>
              var o := EvidenceOrigin(id, r.fact, outcome.origin);
              Reads(src, r, Evidence(id, r.reference.value, outcome.text), o)
                  && charged + ChargeOf(o) <= MAX_VALIDATION_BYTES
    ensures outcome.Skip? ==> Skips(src, r, outcome.reason) && !Blocks(src, r) && !Yields(src, r)
    ensures outcome.Skip? ==> outcome.reason == ReasonOf(r)
    ensures outcome.Read? ==>
              && Yields(src, r) && ChargeOf(EvidenceOrigin(id, r.fact, outcome.origin)) == Bytes(src, r)
              && outcome.text == SupplyOf(src, r).text && outcome.origin == OriginOf(src, r)
    ensures outcome.Stop? ==> Blocks(src, r) || charged + Bytes(src, r) > MAX_VALIDATION_BYTES
    ensures outcome.Stop? ==> StopsWith(src, r, charged, outcome.why)
    ensures outcome.Stop? && outcome.why == ValidationByteLimit ==>
              && entry.binding.Some? && Located(src, r, entry.binding.value) && outcome.spent == charged
              && charged + RangeOf(src, r, entry.binding.value).file.byteLen > MAX_VALIDATION_BYTES
    ensures outcome.Stop? && outcome.why != ValidationByteLimit ==>
              && Blocks(src, r)
              && outcome.spent == charged + if Located(src, r, entry.binding.value)
                                            then RangeOf(src, r, entry.binding.value).file.byteLen else 0
    ensures outcome.Stop? ==>
              && entry.binding.Some? && charged <= outcome.spent <= MAX_VALIDATION_BYTES
              && outcome.why in {ParticipatingSourceUnavailable, InvalidSelection, ValidationByteLimit}
  {
    if r.reference.None? { return Skip(MissingCitation); }
    var reference := r.reference.value;
    if entry.binding.None? {
      if reference !in src.workingTree { return Skip(LegacyReadUnavailable); }
      return Read(src.workingTree[reference], WorkingTreeUnverified);
    }
    var binding := entry.binding.value;
    if !Pinned(src, r.fact, r.digest, binding) { return Stop(ParticipatingSourceUnavailable, charged); }
    var receipt := src.receipts[binding.receipt];
    var index := FindRange(receipt.ranges, reference, 0);
    if index.None? { return Stop(InvalidSelection, charged); }
    var range := receipt.ranges[index.value];
    if range.end <= range.start || range.end - range.start > MAX_SPAN_BYTES {
      return Stop(ParticipatingSourceUnavailable, charged);
    }
    var spent := charged + range.file.byteLen;
    if spent > MAX_VALIDATION_BYTES { return Stop(ValidationByteLimit, charged); }
    if range.text.None? { return Stop(ParticipatingSourceUnavailable, spent); }
    if |range.text.value| != range.end - range.start { return Stop(InvalidSelection, spent); }
    outcome := Read(range.text.value,
                    CapturedPrimarySource(receipt.sourceId, binding.receipt, index.value, range.file, range.start,
                                          range.end));
  }

  function ReportOf(plan: Plan, n: nat, p: Progress, stop: StopReason): Report
    requires n <= |plan.requests|
  {
    Report(|plan.requests|, n, |p.evidence|, |p.candidates|, p.charged, p.omissions, |plan.requests| - n,
           plan.unplanned > 0, stop)
  }

  /** Why a selection that supplied everything it could stopped. */
  ghost predicate StopIsExact(plan: Plan, r: Report) {
    && (r.stop == CandidateLimit <==> r.candidates == MAX_CANDIDATES)
    && (r.stop == AttemptLimit <==> r.candidates < MAX_CANDIDATES && r.attempts == MAX_REQUESTS && plan.unplanned > 0)
    && (r.stop == NeighborhoodExhausted <==>
          r.candidates < MAX_CANDIDATES && !(r.attempts == MAX_REQUESTS && plan.unplanned > 0))
  }

  // ---- Exactly when a selection succeeds -----------------------------------------------------------------

  /** The walk attempts `n` requests: it ends with the candidates full or the
      requests exhausted, and not before. */
  ghost predicate Attempts(src: Sources, rs: seq<Request>, n: nat) {
    && n <= |rs| && (n == |rs| || Count(src, rs[..n], true) == MAX_CANDIDATES)
    && forall k :: 0 <= k < n ==> Count(src, rs[..k], true) < MAX_CANDIDATES
  }

  /** The evidence and memberships are exactly what was supplied. */
  ghost predicate Gathered(p: Progress, supplies: seq<Supply>) {
    && |p.evidence| == |supplies|
    && (forall k :: 0 <= k < |supplies| ==>
          p.evidence[k].source == supplies[k].source && p.evidence[k].text == supplies[k].text)
    && p.candidates == CandidatesOf(supplies) && p.sourceEvidence == SourcesOf(supplies)
  }

  /** What the walk has counted is what the requests so far amount to. */
  ghost predicate Tracks(src: Sources, rs: seq<Request>, n: nat, p: Progress) {
    && n <= |rs|
    && |p.candidates| == Count(src, rs[..n], true) && |p.sourceEvidence| == Count(src, rs[..n], false)
    && p.charged == ByteSum(src, rs[..n]) && Gathered(p, Supplies(src, rs[..n]))
    && (forall k :: 0 <= k < n ==> !Blocks(src, rs[k]) && Count(src, rs[..k], true) < MAX_CANDIDATES)
  }

  lemma GatheredMore(p: Progress, supplies: seq<Supply>, r: Request, e: Evidence, o: EvidenceOrigin, supply: Supply)
    requires Gathered(p, supplies) && e.id == E(|p.evidence| + 1)
    requires e.source == supply.source && e.text == supply.text && r.candidate == supply.offer
    ensures Gathered(Add(p, r, e, o), supplies + [supply])
  {
    assert (supplies + [supply])[..|supplies|] == supplies;
  }

  lemma TracksStep(src: Sources, rs: seq<Request>, n: nat, p: Progress, q: Progress)
    requires n < |rs| && Tracks(src, rs, n, p) && |p.candidates| < MAX_CANDIDATES && !Blocks(src, rs[n])
    requires |q.candidates| == |p.candidates| + (if Yields(src, rs[n]) && rs[n].candidate.Some? then 1 else 0)
    requires |q.sourceEvidence| == |p.sourceEvidence| + (if Yields(src, rs[n]) && rs[n].candidate.None? then 1 else 0)
    requires q.charged == p.charged + Bytes(src, rs[n])
    requires Gathered(q, Supplies(src, rs[..n]) + if Yields(src, rs[n]) then [SupplyOf(src, rs[n])] else [])
    ensures Tracks(src, rs, n + 1, q)
  {
    assert rs[..n + 1][..n] == rs[..n];
  }

  /** The plan can be selected from: the graph is unchanged, nothing attempted
      blocks, the captured files fit the budget, and both sides have evidence. */
  ghost predicate Selectable(plan: Plan, src: Sources, n: nat) {
    && Attempts(src, plan.requests, n)
    && Unchanged(plan, src) && SlotAdmitted(src, plan.slot)
    && (forall k :: 0 <= k < n ==> !Blocks(src, plan.requests[k]))
    && ByteSum(src, plan.requests[..n]) <= MAX_VALIDATION_BYTES
    && Count(src, plan.requests[..n], true) > 0 && Count(src, plan.requests[..n], false) > 0
  }

  /** Something attempted blocks, or exhausts the budget. */
  ghost predicate Obstructed(plan: Plan, src: Sources, n: nat) {
    && n < |plan.requests|
    && (forall k :: 0 <= k <= n ==> Count(src, plan.requests[..k], true) < MAX_CANDIDATES)
    && (Blocks(src, plan.requests[n]) || ByteSum(src, plan.requests[..n + 1]) > MAX_VALIDATION_BYTES)
  }

  lemma {:induction false} ByteSumGrows(src: Sources, rs: seq<Request>, m: nat, n: nat)
    requires m <= n <= |rs|
    ensures ByteSum(src, rs[..m]) <= ByteSum(src, rs[..n])
  {
    if m < n {
      ByteSumGrows(src, rs, m, n - 1);
      assert rs[..n][..n - 1] == rs[..n - 1];
    }
  }

  lemma ObstructedIsNotSelectable(plan: Plan, src: Sources, m: nat, n: nat)
    requires Obstructed(plan, src, m)
    ensures !Selectable(plan, src, n)
  {
    if Attempts(src, plan.requests, n) {
      assert m < n;
      ByteSumGrows(src, plan.requests, m + 1, n);
    }
  }

  lemma AttemptsOnce(src: Sources, rs: seq<Request>, m: nat, n: nat)
    requires Attempts(src, rs, m) && Attempts(src, rs, n)
    ensures m == n
  {
  }

  ghost predicate Accounts(plan: Plan, src: Sources, t: Prepared, at: seq<nat>) {
    && t.report.attempts <= |plan.requests|
    && Good(src, plan.requests, t.report.attempts, plan.slot, t.walk, at)
    && Tracks(src, plan.requests, t.report.attempts, t.walk)
    && t.report == ReportOf(plan, t.report.attempts, t.walk, t.report.stop)
    && (t.report.unread > 0 ==> t.report.candidates == MAX_CANDIDATES)
    && t.walk.candidates != [] && t.walk.sourceEvidence != []
    && StopIsExact(plan, t.report)
  }

  /** Why a selection failed, and how far it had got: the graph changed, the slot
      was refused, the last attempted request obstructed it, or a side is without
      evidence. */
  ghost predicate FailsBecause(plan: Plan, src: Sources, r: Report) {
    if r.attempts == 0 && r.stop == InvalidSelection then
      !Unchanged(plan, src) || !SlotAdmitted(src, plan.slot)
    else if r.stop != RequiredMembershipMissing then
      && r.attempts > 0 && Obstructed(plan, src, r.attempts - 1) && r.supplied + |r.omissions| == r.attempts - 1
      && StopsWith(src, plan.requests[r.attempts - 1], ByteSum(src, plan.requests[..r.attempts - 1]), r.stop)
    else
      && Attempts(src, plan.requests, r.attempts) && r.supplied + |r.omissions| == r.attempts
      && (Count(src, plan.requests[..r.attempts], true) == 0 || Count(src, plan.requests[..r.attempts], false) == 0)
  }

  /** What a failed selection still reports truthfully. */
  predicate Reported(plan: Plan, r: Report) {
    && r.attempts + r.unread == r.lookahead == |plan.requests| && r.supplied + |r.omissions| <= r.attempts
    && r.charged <= MAX_VALIDATION_BYTES && r.candidates <= MAX_CANDIDATES
    && r.stop in {InvalidSelection, ParticipatingSourceUnavailable, ValidationByteLimit, RequiredMembershipMissing}
  }

  function StopOf(plan: Plan, n: nat, p: Progress): StopReason {
    if |p.candidates| == MAX_CANDIDATES then CandidateLimit
    else if n == MAX_REQUESTS && plan.unplanned > 0 then AttemptLimit
    else NeighborhoodExhausted
  }

  /** What a selection of the first `n` requests hands on. */
  ghost function HandedOn(plan: Plan, src: Sources, n: nat): Prepared
    requires Selectable(plan, src, n)
  {
    var p := WalkOf(src, plan.requests, n, plan.slot);
    Prepared(p, ReportOf(plan, n, p, StopOf(plan, n, p)))
  }

  method Prepare(plan: Plan, src: Sources) returns (result: Result<Prepared, Report>, ghost at: seq<nat>)
    ensures result.Ok? ==> Accounts(plan, src, result.value, at) && Selectable(plan, src, result.value.report.attempts)
    ensures result.Ok? ==> result.value == HandedOn(plan, src, result.value.report.attempts)
    ensures result.Err? ==> Refuted(plan, src, result.error)
  {
    at := [];
    var failed, i, p := Walk(plan, src);
    if failed.Some? { return Err(failed.value), at; }
    at := Places(src, plan.requests, i);
    WalkKeeps(plan, src, i);
    var stop := NeighborhoodExhausted;
    if |p.candidates| == MAX_CANDIDATES {
      stop := CandidateLimit;
    } else if i == MAX_REQUESTS && plan.unplanned > 0 {
      stop := AttemptLimit;
    }
    if p.sourceEvidence == [] || p.candidates == [] {
      forall n ensures !Selectable(plan, src, n) {
        if Attempts(src, plan.requests, n) { AttemptsOnce(src, plan.requests, i, n); }
      }
      return Err(ReportOf(plan, i, p, RequiredMembershipMissing)), at;
    }
    result := Ok(Prepared(p, ReportOf(plan, i, p, stop)));
  }

  lemma NeverSelectable(plan: Plan, src: Sources, m: nat)
    requires Obstructed(plan, src, m)
    ensures forall n :: !Selectable(plan, src, n)
  {
    forall n ensures !Selectable(plan, src, n) { ObstructedIsNotSelectable(plan, src, m, n); }
  }

  /** Compare the graph with the planned one and admit the planned edge, if there
      is one, before any request. */
  method AdmitSlot(plan: Plan, src: Sources) returns (failed: Option<Report>, p: Progress)
    ensures failed.Some? <==> !Unchanged(plan, src) || !SlotAdmitted(src, plan.slot)
    ensures failed.Some? ==> Refuted(plan, src, failed.value)
    ensures failed.None? ==> p == WalkOf(src, plan.requests, 0, plan.slot)
  {
    failed, p := None, Progress([], [], [], [], [], 0, map[]);
    if src.seen != plan.graph || src.seenAgain != plan.graph {
      failed := Some(ReportOf(plan, 0, p, InvalidSelection));
      return;
    }
    if plan.slot.Some? {
      var entry := Include(src, plan.slot.value.fact, plan.slot.value.digest);
      if entry.None? {
        failed := Some(ReportOf(plan, 0, p, InvalidSelection));
        return;
      }
      p := Admit(p, plan.slot.value.fact, entry.value);
    }
  }

  lemma StartKeeps(src: Sources, rs: seq<Request>, slot: Option<Slot>, selected: map<FactKey, Selected>)
    requires slot.None? ==> selected == map[]
    requires slot.Some? ==>
               && Include(src, slot.value.fact, slot.value.digest).Some?
               && selected == map[slot.value.fact := Include(src, slot.value.fact, slot.value.digest).value]
    ensures Good(src, rs, 0, slot, Progress([], [], [], [], [], 0, selected), [])
  {
  }

  /** The failure is reported truthfully, for its true reason, and no number of
      attempts would have selected. */
  ghost predicate Refuted(plan: Plan, src: Sources, r: Report) {
    Reported(plan, r) && FailsBecause(plan, src, r) && forall n :: !Selectable(plan, src, n)
  }

  /** The walk gets past the first `n` requests. */
  ghost predicate Clear(plan: Plan, src: Sources, n: nat) {
    && Unchanged(plan, src) && SlotAdmitted(src, plan.slot) && n <= |plan.requests|
    && (forall k :: 0 <= k < n ==>
          !Blocks(src, plan.requests[k]) && Count(src, plan.requests[..k], true) < MAX_CANDIDATES)
    && ByteSum(src, plan.requests[..n]) <= MAX_VALIDATION_BYTES
  }

  lemma ClearBefore(plan: Plan, src: Sources, n: nat)
    requires n < |plan.requests| && Clear(plan, src, n + 1)
    ensures Clear(plan, src, n)
    ensures ByteSum(src, plan.requests[..n]) + Bytes(src, plan.requests[n]) <= MAX_VALIDATION_BYTES
  {
    assert plan.requests[..n + 1][..n] == plan.requests[..n];
  }

  lemma ClearAfter(plan: Plan, src: Sources, n: nat)
    requires n < |plan.requests| && Clear(plan, src, n) && !Blocks(src, plan.requests[n])
    requires Count(src, plan.requests[..n], true) < MAX_CANDIDATES
    requires ByteSum(src, plan.requests[..n]) + Bytes(src, plan.requests[n]) <= MAX_VALIDATION_BYTES
    ensures Clear(plan, src, n + 1)
  {
    assert plan.requests[..n + 1][..n] == plan.requests[..n];
  }

  /** Wherever the walk gets, everything it gathered is in step. */
  lemma {:induction false} WalkKeeps(plan: Plan, src: Sources, n: nat)
    requires Clear(plan, src, n)
    ensures Good(src, plan.requests, n, plan.slot, WalkOf(src, plan.requests, n, plan.slot),
                 Places(src, plan.requests, n))
    ensures Tracks(src, plan.requests, n, WalkOf(src, plan.requests, n, plan.slot))
  {
    if n == 0 {
      StartKeeps(src, plan.requests, plan.slot, WalkOf(src, plan.requests, 0, plan.slot).selected);
    } else {
      ClearBefore(plan, src, n - 1);
      WalkKeeps(plan, src, n - 1);
      AttemptKeeps(src, plan.requests, n - 1, plan.slot, WalkOf(src, plan.requests, n - 1, plan.slot),
                   Places(src, plan.requests, n - 1));
    }
  }

  /** What the loop needs to know of where it stands. */
  lemma WalkCounts(plan: Plan, src: Sources, n: nat)
    requires Clear(plan, src, n)
    ensures var p := WalkOf(src, plan.requests, n, plan.slot);
            && |p.candidates| == Count(src, plan.requests[..n], true) <= MAX_CANDIDATES
            && |p.evidence| + |p.omissions| == n && p.charged == ByteSum(src, plan.requests[..n])
  {
    WalkKeeps(plan, src, n);
  }

  /** Walk the requests in order until the candidates are full. */
  method Walk(plan: Plan, src: Sources) returns (failed: Option<Report>, i: nat, p: Progress)
    ensures failed.Some? ==> Refuted(plan, src, failed.value)
    ensures failed.None? ==>
              && Clear(plan, src, i) && p == WalkOf(src, plan.requests, i, plan.slot)
              && Attempts(src, plan.requests, i)
  {
    i := 0;
    failed, p := AdmitSlot(plan, src);
    if failed.Some? { return; }
    while failed.None? && i < |plan.requests| && |p.candidates| < MAX_CANDIDATES
      invariant failed.Some? ==> Refuted(plan, src, failed.value)
      invariant failed.None? ==> Clear(plan, src, i) && p == WalkOf(src, plan.requests, i, plan.slot)
      decreases |plan.requests| - i
    {
      failed, p := Attempt(plan, src, i, p);
      i := i + 1;
    }
    if failed.None? { WalkCounts(plan, src, i); }
  }

  /** A request that cannot be read, or cannot be afforded, refutes the plan. */
  lemma Refutes(plan: Plan, src: Sources, n: nat, p: Progress, spent: nat, why: StopReason)
    requires n < |plan.requests| && Clear(plan, src, n) && p == WalkOf(src, plan.requests, n, plan.slot)
    requires |p.candidates| < MAX_CANDIDATES && spent <= MAX_VALIDATION_BYTES
    requires why in {InvalidSelection, ParticipatingSourceUnavailable, ValidationByteLimit}
    requires Blocks(src, plan.requests[n]) || p.charged + Bytes(src, plan.requests[n]) > MAX_VALIDATION_BYTES
    requires StopsWith(src, plan.requests[n], p.charged, why)
    ensures Refuted(plan, src, ReportOf(plan, n + 1, p.(charged := spent), why))
  {
    WalkCounts(plan, src, n);
    ObstructedHere(plan, src, n);
    ObstructionRefutes(plan, src, n, ReportOf(plan, n + 1, p.(charged := spent), why));
  }

  lemma ObstructionRefutes(plan: Plan, src: Sources, n: nat, r: Report)
    requires Obstructed(plan, src, n) && Reported(plan, r) && r.stop != RequiredMembershipMissing
    requires r.attempts == n + 1 && r.supplied + |r.omissions| == n
    requires StopsWith(src, plan.requests[n], ByteSum(src, plan.requests[..n]), r.stop)
    ensures Refuted(plan, src, r)
  {
    NeverSelectable(plan, src, n);
  }

  lemma ObstructedHere(plan: Plan, src: Sources, n: nat)
    requires n < |plan.requests| && Clear(plan, src, n) && Count(src, plan.requests[..n], true) < MAX_CANDIDATES
    requires || Blocks(src, plan.requests[n])
             || ByteSum(src, plan.requests[..n]) + Bytes(src, plan.requests[n]) > MAX_VALIDATION_BYTES
    ensures Obstructed(plan, src, n)
  {
    assert plan.requests[..n + 1][..n] == plan.requests[..n];
  }

  lemma OmitsGood(src: Sources, rs: seq<Request>, n: nat, slot: Option<Slot>, p: Progress, at: seq<nat>)
    requires n < |rs| && Good(src, rs, n, slot, p, at) && !Blocks(src, rs[n]) && !Yields(src, rs[n])
    ensures Good(src, rs, n + 1, slot, Attempted(src, p, n, rs[n]), at)
  {
    OmitKeeps(src, rs, n, slot, p, at, Include(src, rs[n].fact, rs[n].digest).value, ReasonOf(rs[n]));
  }

  lemma OmitsTracks(src: Sources, rs: seq<Request>, n: nat, p: Progress)
    requires n < |rs| && Tracks(src, rs, n, p) && |p.candidates| < MAX_CANDIDATES
    requires !Blocks(src, rs[n]) && !Yields(src, rs[n])
    ensures Tracks(src, rs, n + 1, Attempted(src, p, n, rs[n]))
  {
    assert Supplies(src, rs[..n]) + [] == Supplies(src, rs[..n]);
    TracksStep(src, rs, n, p, Attempted(src, p, n, rs[n]));
  }

  lemma OriginReads(src: Sources, r: Request, id: EvidenceId)
    requires Yields(src, r)
    ensures var supply, o := SupplyOf(src, r), EvidenceOrigin(id, r.fact, OriginOf(src, r));
            Reads(src, r, Evidence(id, supply.source, supply.text), o) && ChargeOf(o) == Bytes(src, r)
  {
  }

  lemma AddsGood(src: Sources, rs: seq<Request>, n: nat, slot: Option<Slot>, p: Progress, at: seq<nat>)
    requires n < |rs| && Good(src, rs, n, slot, p, at) && |p.candidates| < MAX_CANDIDATES
    requires Yields(src, rs[n]) && p.charged + Bytes(src, rs[n]) <= MAX_VALIDATION_BYTES
    ensures Good(src, rs, n + 1, slot, Attempted(src, p, n, rs[n]), at + [n])
  {
    var r, id := rs[n], E(|p.evidence| + 1);
    var supply := SupplyOf(src, r);
    OriginReads(src, r, id);
    AddKeeps(src, rs, n, slot, p, at, Include(src, r.fact, r.digest).value,
             Evidence(id, supply.source, supply.text), EvidenceOrigin(id, r.fact, OriginOf(src, r)),
             Attempted(src, p, n, r));
  }

  lemma AddsTracks(src: Sources, rs: seq<Request>, n: nat, p: Progress)
    requires n < |rs| && Tracks(src, rs, n, p) && |p.candidates| < MAX_CANDIDATES && Yields(src, rs[n])
    ensures Tracks(src, rs, n + 1, Attempted(src, p, n, rs[n]))
  {
    var r, id := rs[n], E(|p.evidence| + 1);
    var supply := SupplyOf(src, r);
    OriginReads(src, r, id);
    GatheredMore(Admit(p, r.fact, Include(src, r.fact, r.digest).value), Supplies(src, rs[..n]), r,
                 Evidence(id, supply.source, supply.text), EvidenceOrigin(id, r.fact, OriginOf(src, r)), supply);
    TracksStep(src, rs, n, p, Attempted(src, p, n, rs[n]));
  }

  lemma AttemptKeeps(src: Sources, rs: seq<Request>, n: nat, slot: Option<Slot>, p: Progress, at: seq<nat>)
    requires n < |rs| && Good(src, rs, n, slot, p, at) && Tracks(src, rs, n, p) && |p.candidates| < MAX_CANDIDATES
    requires !Blocks(src, rs[n]) && p.charged + Bytes(src, rs[n]) <= MAX_VALIDATION_BYTES
    ensures Good(src, rs, n + 1, slot, Attempted(src, p, n, rs[n]), Reached(src, rs[n], n, at))
    ensures Tracks(src, rs, n + 1, Attempted(src, p, n, rs[n]))
  {
    if Yields(src, rs[n]) {
      AddsGood(src, rs, n, slot, p, at);
      AddsTracks(src, rs, n, p);
    } else {
      OmitsGood(src, rs, n, slot, p, at);
      OmitsTracks(src, rs, n, p);
    }
  }

  /** Attempt the next request of the walk. */
  method Attempt(plan: Plan, src: Sources, i: nat, p: Progress) returns (failed: Option<Report>, q: Progress)
    requires i < |plan.requests| && Clear(plan, src, i) && p == WalkOf(src, plan.requests, i, plan.slot)
    requires |p.candidates| < MAX_CANDIDATES
    ensures failed.Some? ==> Refuted(plan, src, failed.value)
    ensures failed.None? ==> Clear(plan, src, i + 1) && q == WalkOf(src, plan.requests, i + 1, plan.slot)
  {
    WalkCounts(plan, src, i);
    var r := plan.requests[i];
    failed, q := None, p;
    var entry := Include(src, r.fact, r.digest);
    if entry.None? {
      Refutes(plan, src, i, p, p.charged, InvalidSelection);
      failed := Some(ReportOf(plan, i + 1, p, InvalidSelection));
      return;
    }
    var id := E(|p.evidence| + 1);
    var outcome := ReadRequest(src, r, entry.value, id, p.charged);
    match outcome {
      case Stop(why, spent) =>
        Refutes(plan, src, i, p, spent, why);
        failed := Some(ReportOf(plan, i + 1, p.(charged := spent), why));
      case Skip(reason) =>
        q := Omit(Admit(p, r.fact, entry.value), i, r, reason);
      case Read(text, origin) =>
        q := Add(Admit(p, r.fact, entry.value), r, Evidence(id, r.reference.value, text),
                 EvidenceOrigin(id, r.fact, origin));
    }
    if failed.None? { ClearAfter(plan, src, i); }
  }
}
