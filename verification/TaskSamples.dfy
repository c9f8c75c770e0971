/** A family of planned tasks that select: one of them fits the consumer, and
    longer texts, more of them, or another relation make it refuse. */
module TaskSamples {
  import opened Wrappers
  import opened Facts
  import opened SourceBindings
  import opened TaskSelection
  import opened TaskPlanning
  import opened TaskValidation
  import opened TaskAcceptance
  import opened Neighborhood

  // ---- The family ------------------------------------------------------------------------------

  /** The source, the gap, then the neighbours: x, xx, xxx, ... */
  function Name(k: nat): string { seq(k + 1, _ => 'x') }

  function Cited(id: string, bytes: nat): EvidenceRef { EvidenceRef("r", id, 0, bytes, "c") }

  function Sample(id: string, bytes: nat): Node {
    var prov := Provenance(Deterministic, Confirmed, [Cited(id, bytes)], "ts", Plain(id));
    Node(id, if id == Name(1) then "Gap" else "Symbol", Props(Parsed(prov), false, None, None, map[]))
  }

  function Asked(k: nat, bytes: nat): Request { RequestOf(Sample(Name(k), bytes), k >= 2) }

  function Link(src: string, dst: string, kind: string): Edge {
    Edge(src, dst, kind, Props(Unattributed, false, None, None, map[]))
  }

  /** The source stands in the relation to the gap, which calls its neighbours. */
  function SampleGraph(relation: string, bytes: nat, n: nat): Snapshot
    requires n >= 2
  {
    Snapshot(seq(n, k requires 0 <= k => Sample(Name(k), bytes)),
             [Link(Name(0), Name(1), relation)] + seq(n - 2, k requires 0 <= k => Link(Name(1), Name(k + 2), "CALLS")))
  }

  function SampleSlot(relation: string): Slot {
    var edge := Link(Name(0), Name(1), relation);
    Slot(EdgeFact(KeyOf(edge)), EdgeOf(edge))
  }

  /** The task planned for the gap, with `n` requests. */
  function SamplePlan(relation: string, bytes: nat, n: nat): Plan
    requires n >= 2
  {
    Plan(SampleGraph(relation, bytes, n), "act", Name(0), Name(1), relation,
         seq(n, k requires 0 <= k => Asked(k, bytes)), Some(SampleSlot(relation)), 0)
  }

  function Citations(bytes: nat, n: nat): set<EvidenceRef> { set k: nat | k < n :: Cited(Name(k), bytes) }

  /** The graph is unchanged, no fact is bound, and every citation reads `text`
      in the working tree. */
  function SampleSources(relation: string, text: string, n: nat): Sources
    requires n >= 2
  {
    var nodes := map k: nat | k < n :: NodeFact(Name(k)) := Absent(NodeOf(Sample(Name(k), |text|)));
    var facts := nodes[SampleSlot(relation).fact := Absent(SampleSlot(relation).digest)];
    Sources(SampleGraph(relation, |text|, n), SampleGraph(relation, |text|, n), facts, facts, map[], map[],
            map cited | cited in Citations(|text|, n) :: text)
  }

  // ---- The samples are what the planner plans -------------------------------------------------------

  lemma {:induction false} FirstAt<T>(s: seq<T>, p: T -> bool, k: nat)
    requires k < |s| && p(s[k]) && forall i :: 0 <= i < k ==> !p(s[i])
    ensures First(s, p) == Some(s[k])
  {
    if k > 0 { FirstAt(s[1..], p, k - 1); }
  }

  lemma NamesDiffer(j: nat, k: nat)
    requires j != k
    ensures Name(j) != Name(k)
  {
    assert |Name(j)| != |Name(k)|;
  }

  lemma SampleGap(relation: string, bytes: nat, n: nat)
    requires n >= 2
    ensures GapOf(SampleGraph(relation, bytes, n).nodes, Name(1)) == Some(Sample(Name(1), bytes))
  {
    NamesDiffer(0, 1);
    FirstAt(SampleGraph(relation, bytes, n).nodes, (node: Node) => node.id == Name(1) && IsGap(node), 1);
  }

  lemma SampleSource(relation: string, bytes: nat, n: nat, named: Named)
    requires n >= 2
    ensures var g := SampleGraph(relation, bytes, n);
            && SlotOf(g.edges, Name(1)) == Some(Link(Name(0), Name(1), relation))
            && SourceOf(g.nodes, g.edges, Name(1), named) == Some(Sample(Name(0), bytes))
  {
    var g := SampleGraph(relation, bytes, n);
    FirstAt(g.edges, (edge: Edge) => edge.dst == Name(1), 0);
    FirstAt(g.nodes, (node: Node) => node.id == Name(0), 0);
  }

  lemma SampleIsNear(relation: string, bytes: nat, n: nat, k: nat)
    requires 2 <= k < n
    ensures Name(k) in Within(SampleGraph(relation, bytes, n).edges, Name(1), HOPS)
  {
    var edges := SampleGraph(relation, bytes, n).edges;
    assert edges[k - 1] == Link(Name(1), Name(k), "CALLS");
    assert Name(k) in Around(edges, Within(edges, Name(1), 0));
    assert Name(k) in Within(edges, Name(1), 1);
  }

  lemma SampleIsEligible(relation: string, bytes: nat, n: nat, k: nat)
    requires k < n && n >= 2
    ensures var g := SampleGraph(relation, bytes, n);
            Eligible(g.nodes[k], Name(0), Name(1), Within(g.edges, Name(1), HOPS)) <==> k >= 2
  {
    if k >= 2 {
      SampleIsNear(relation, bytes, n, k);
      NamesDiffer(0, k);
      NamesDiffer(1, k);
    }
  }

  function Later(m: nat): seq<nat> { seq(if m < 2 then 0 else m - 2, k requires 0 <= k => k + 2) }

  lemma {:induction false} LaterEligibles(nodes: seq<Node>, m: nat, sourceId: string, gapId: string,
                                          context: set<string>)
    requires m <= |nodes|
    requires forall k: nat :: k < |nodes| ==> (Eligible(nodes[k], sourceId, gapId, context) <==> k >= 2)
    ensures Eligibles(nodes, m, sourceId, gapId, context) == Later(m)
  {
    if m > 0 { LaterEligibles(nodes, m - 1, sourceId, gapId, context); }
  }

  lemma SampleEligibles(relation: string, bytes: nat, n: nat)
    requires n >= 2
    ensures var g := SampleGraph(relation, bytes, n);
            Eligibles(g.nodes, n, Name(0), Name(1), Within(g.edges, Name(1), HOPS)) == Later(n)
  {
    var g := SampleGraph(relation, bytes, n);
    var context := Within(g.edges, Name(1), HOPS);
    forall k: nat | k < n ensures Eligible(g.nodes[k], Name(0), Name(1), context) <==> k >= 2 {
      SampleIsEligible(relation, bytes, n, k);
    }
    LaterEligibles(g.nodes, n, Name(0), Name(1), context);
  }

  lemma SampleRequests(relation: string, bytes: nat, n: nat)
    requires n >= 2
    ensures [Asked(0, bytes), Asked(1, bytes)] + Offers(SampleGraph(relation, bytes, n).nodes, Later(n))
            == SamplePlan(relation, bytes, n).requests
  {
  }

  lemma SampleIsDistinct(relation: string, bytes: nat, n: nat)
    requires n >= 2
    ensures Distinct(SampleGraph(relation, bytes, n).nodes)
  {
    var nodes := SampleGraph(relation, bytes, n).nodes;
    forall i, j | 0 <= i < j < n ensures nodes[i].id != nodes[j].id { NamesDiffer(i, j); }
  }

  lemma SampleIsPlanned(relation: string, bytes: nat, n: nat)
    requires 3 <= n <= MAX_CANDIDATES + 2
    ensures var g := SampleGraph(relation, bytes, n);
            PlanOf(g.nodes, g.edges, Name(1), "act") == Ok(SamplePlan(relation, bytes, n))
  {
    SampleGap(relation, bytes, n);
    SampleSource(relation, bytes, n, NamedBy(Sample(Name(1), bytes)));
    SampleEligibles(relation, bytes, n);
    SampleRequests(relation, bytes, n);
  }

  /** A span read from the working tree is as long as its citation says. */
  predicate ExactlyRead(src: Sources) {
    forall cited :: cited in src.workingTree ==> |src.workingTree[cited]| == cited.byteEnd - cited.byteStart
  }

  // ---- Requests that all supply one text -----------------------------------------------------------

  ghost predicate Supplied(src: Sources, r: Request, text: string) {
    && Yields(src, r) && Bytes(src, r) == 0 && FactNamed(src, r.fact)
    && SuppliedWell(SupplyOf(src, r), r, text)
  }

  ghost predicate SuppliedWell(supply: Supply, r: Request, text: string) {
    && supply.text == text && supply.offer == r.candidate && LegibleCitation(supply.source)
    && (supply.offer.Some? ==> LegibleOffer(supply.offer.value) && |supply.offer.value.summary| <= 32)
  }

  /** Every request supplies `text`, and only the first two are not candidates. */
  ghost predicate Uniform(src: Sources, rs: seq<Request>, text: string) {
    forall k :: 0 <= k < |rs| ==> Supplied(src, rs[k], text) && (rs[k].candidate.Some? <==> k >= 2)
  }

  lemma {:induction false} Counts(src: Sources, rs: seq<Request>, text: string, n: nat)
    requires n <= |rs| && Uniform(src, rs, text)
    ensures Count(src, rs[..n], true) == (if n < 2 then 0 else n - 2) && ByteSum(src, rs[..n]) == 0
    ensures Count(src, rs[..n], false) == (if n < 2 then n else 2)
  {
    if n > 0 {
      Counts(src, rs, text, n - 1);
      assert rs[..n][..n - 1] == rs[..n - 1];
    }
  }

  lemma {:induction false} AllSupply(src: Sources, rs: seq<Request>)
    requires forall k :: 0 <= k < |rs| ==> Yields(src, rs[k])
    ensures |Supplies(src, rs)| == |rs| && forall k :: 0 <= k < |rs| ==> Supplies(src, rs)[k] == SupplyOf(src, rs[k])
  {
    if rs != [] { AllSupply(src, rs[..|rs| - 1]); }
  }

  lemma {:induction false} Totals(supplies: seq<Supply>, rs: seq<Request>, text: string)
    requires |supplies| == |rs| && forall k :: 0 <= k < |rs| ==> SuppliedWell(supplies[k], rs[k], text)
    ensures SupplyBytes(supplies) == |rs| * |text| && OfferBytes(supplies) <= 32 * |rs|
  {
    if supplies != [] { Totals(supplies[..|supplies| - 1], rs[..|rs| - 1], text); }
  }

  lemma SampleYields(relation: string, text: string, n: nat, k: nat)
    requires k < n && n >= 2
    ensures var src, r := SampleSources(relation, text, n), Asked(k, |text|);
            && Yields(src, r) && Bytes(src, r) == 0
            && SupplyOf(src, r) == Supply(Cited(Name(k), |text|), text, r.candidate)
  {
  }

  lemma SampleIsSupplied(relation: string, text: string, n: nat, k: nat)
    requires k < n <= MAX_CANDIDATES + 2 && n >= 2
    ensures Supplied(SampleSources(relation, text, n), Asked(k, |text|), text)
  {
    SampleYields(relation, text, n, k);
    assert !Space(Name(k)[0]) && !Space("r"[0]) && !Space("c"[0]) && !Space("Symbol"[0]);
  }

  // ---- Which of them fit ---------------------------------------------------------------------------------

  lemma UniformSelects(plan: Plan, src: Sources, text: string)
    requires SlotAdmitted(src, plan.slot) && Unchanged(plan, src) && Uniform(src, plan.requests, text)
    requires 3 <= |plan.requests| <= MAX_CANDIDATES + 2
    ensures Selectable(plan, src, |plan.requests|)
  {
    Counts(src, plan.requests, text, |plan.requests|);
    forall k | 0 <= k < |plan.requests| ensures Count(src, plan.requests[..k], true) < MAX_CANDIDATES {
      Counts(src, plan.requests, text, k);
    }
  }

  lemma WellSuppliedFitIff(supplies: seq<Supply>, rs: seq<Request>, text: string)
    requires 0 < |supplies| == |rs| <= MAX_CANDIDATES + 2
    requires forall k :: 0 <= k < |rs| ==> SuppliedWell(supplies[k], rs[k], text)
    ensures LegibleSupplies(supplies)
    ensures Sized(supplies) <==> |text| <= MAX_SPAN_BYTES && |rs| * |text| <= MAX_TOTAL_BYTES
  {
    Totals(supplies, rs, text);
    assert supplies[0] in supplies;
  }

  lemma UniformFitsIff(plan: Plan, src: Sources, text: string, n: nat)
    requires LegibleTask(plan) && Uniform(src, plan.requests, text)
    requires plan.edgeLabel in ALLOWED_LABELS && plan.slot.Some? ==> FactNamed(src, plan.slot.value.fact)
    requires 3 <= |plan.requests| == n <= MAX_CANDIDATES + 2
    ensures Fits(plan, src, n) <==>
              plan.edgeLabel in ALLOWED_LABELS && |text| <= MAX_SPAN_BYTES && n * |text| <= MAX_TOTAL_BYTES
  {
    AllSupply(src, plan.requests);
    WellSuppliedFitIff(Supplies(src, plan.requests), plan.requests, text);
    assert plan.requests[..n] == plan.requests;
  }

  lemma SampleIsLegible(relation: string, text: string, n: nat)
    requires n >= 2
    ensures LegibleTask(SamplePlan(relation, |text|, n))
    ensures relation in ALLOWED_LABELS ==> FactNamed(SampleSources(relation, text, n), SampleSlot(relation).fact)
  {
    assert !Space("act"[0]) && !Space(Name(0)[0]) && !Space(Name(1)[0]);
    if relation in ALLOWED_LABELS { AllowedIsLegible(relation); }
  }

  lemma SampleIsUniform(relation: string, text: string, n: nat)
    requires 2 <= n <= MAX_CANDIDATES + 2 && 0 < |text|
    ensures var src := SampleSources(relation, text, n);
            && Uniform(src, SamplePlan(relation, |text|, n).requests, text) && Faithful(src) && ExactlyRead(src)
            && SlotAdmitted(src, Some(SampleSlot(relation)))
  {
    var src := SampleSources(relation, text, n);
    forall k: nat | k < n ensures Supplied(src, SamplePlan(relation, |text|, n).requests[k], text) {
      SampleIsSupplied(relation, text, n, k);
    }
    assert forall cited :: cited in src.workingTree ==> cited in Citations(|text|, n);
  }

  /** Every sample is planned from its graph and selects; it fits exactly when its
      relation is allowed, its text is short, and its texts together are too. */
  lemma SampleFitsIff(relation: string, text: string, n: nat) returns (plan: Plan, src: Sources)
    requires 3 <= n <= MAX_CANDIDATES + 2 && 0 < |text|
    ensures plan == SamplePlan(relation, |text|, n) && src == SampleSources(relation, text, n)
    ensures Distinct(plan.graph.nodes) && PlanOf(plan.graph.nodes, plan.graph.edges, Name(1), "act") == Ok(plan)
    ensures Faithful(src) && ExactlyRead(src) && Selectable(plan, src, n)
    ensures Fits(plan, src, n) <==>
              relation in ALLOWED_LABELS && |text| <= MAX_SPAN_BYTES && n * |text| <= MAX_TOTAL_BYTES
  {
    plan, src := SamplePlan(relation, |text|, n), SampleSources(relation, text, n);
    SampleIsDistinct(relation, |text|, n);
    SampleIsPlanned(relation, |text|, n);
    SampleIsLegible(relation, text, n);
    SampleIsUniform(relation, text, n);
    UniformSelects(plan, src, text);
    UniformFitsIff(plan, src, text, n);
  }

  /** The gap's task is planned from the graph and selected, and no preparation
      of it succeeds. */
  ghost predicate SelectedAndRefused(graph: Snapshot, gapId: string, src: Sources, n: nat) {
    var planned := PlanOf(graph.nodes, graph.edges, gapId, "act");
    && Distinct(graph.nodes) && planned.Ok? && Selectable(planned.value, src, n) && Faithful(src)
    && ExactlyRead(src)
    && forall m: nat, size: Encoding :: !Preparable(planned.value, src, m, size)
  }

  /** Three 9000-byte spans of the working tree are selected, and refused. */
  lemma LongSpanIsRefused(text: string)
    requires |text| == 9000
    ensures SelectedAndRefused(SampleGraph("CALLS", |text|, 3), Name(1), SampleSources("CALLS", text, 3), 3)
  {
    var plan, src := SampleFitsIff("CALLS", text, 3);
    UnfitIsRefused(plan, src, 3);
  }

  /** So are seven spans that are each within the span limit. */
  lemma ManySpansAreRefused(text: string)
    requires |text| == MAX_SPAN_BYTES
    ensures SelectedAndRefused(SampleGraph("CALLS", |text|, 7), Name(1), SampleSources("CALLS", text, 7), 7)
  {
    var plan, src := SampleFitsIff("CALLS", text, 7);
    UnfitIsRefused(plan, src, 7);
  }

  /** And any text, for a relation that may not be proposed; short texts of an
      allowed one fit. */
  lemma UnlistedRelationIsRefused(text: string)
    requires 0 < |text| <= MAX_SPAN_BYTES
    ensures SelectedAndRefused(SampleGraph("CONTAINS", |text|, 3), Name(1), SampleSources("CONTAINS", text, 3), 3)
    ensures Fits(SamplePlan("CALLS", |text|, 3), SampleSources("CALLS", text, 3), 3)
  {
    assert forall relation :: relation in ALLOWED_LABELS ==> |relation| != |"CONTAINS"|;
    var plan, src := SampleFitsIff("CONTAINS", text, 3);
    UnfitIsRefused(plan, src, 3);
    plan, src := SampleFitsIff("CALLS", text, 3);
  }
}
