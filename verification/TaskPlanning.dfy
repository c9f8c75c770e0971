/** Planning what a task will ask for: the gap, its source, and the eligible
    neighbours, in a bounded list of requests. */
module TaskPlanning {
  import opened Wrappers
  import opened Facts
  import opened SourceBindings
  import opened TaskSelection
  import opened Neighborhood

  function Citations(props: Props): seq<EvidenceRef> {
    if Validated(props) then props.prov.prov.evidence else []
  }

  predicate IsGap(node: Node) {
    node.kind == "Gap" || !Validated(node.props) || node.props.prov.prov.confidence == Confidence.Gap
  }

  /** What a gap's own properties name, for when no edge touches it. */
  datatype Named = Named(source: Option<string>, relation: Option<string>)

  function NamedBy(gap: Node): Named { Named(TextAt(gap.props, "source_id"), TextAt(gap.props, "edge_label")) }

  /** A node's display name. */
  function Title(node: Node): string {
    var name, path := TextAt(node.props, "name"), TextAt(node.props, "path");
    if name.Some? then name.value else if path.Some? then path.value else node.id
  }

  /** The first element that satisfies `p`. */
  function First<T>(s: seq<T>, p: T -> bool): (found: Option<T>)
    ensures found.Some? ==> found.value in s && p(found.value)
    ensures found.None? ==> forall x :: x in s ==> !p(x)
  {
    if s == [] then None else if p(s[0]) then Some(s[0]) else First(s[1..], p)
  }

  lemma {:induction false} FirstIsFirst<T>(s: seq<T>, p: T -> bool) returns (i: nat)
    requires First(s, p).Some?
    ensures i < |s| && s[i] == First(s, p).value && p(s[i]) && forall j :: 0 <= j < i ==> !p(s[j])
  {
    if p(s[0]) {
      i := 0;
    } else {
      i := FirstIsFirst(s[1..], p);
      i := i + 1;
    }
  }

  function GapOf(nodes: seq<Node>, gapId: string): Option<Node> {
    First(nodes, (node: Node) => node.id == gapId && IsGap(node))
  }

  /** An edge into the gap, or else one out of it. */
  function SlotOf(edges: seq<Edge>, gapId: string): Option<Edge> {
    var into := First(edges, (edge: Edge) => edge.dst == gapId);
    if into.Some? then into else First(edges, (edge: Edge) => edge.src == gapId)
  }

  function SourceIdOf(edges: seq<Edge>, gapId: string, named: Named): Option<string> {
    match SlotOf(edges, gapId)
    case Some(edge) => Some(if edge.dst == gapId then edge.src else edge.dst)
    case None => named.source
  }

  function SourceOf(nodes: seq<Node>, edges: seq<Edge>, gapId: string, named: Named): Option<Node> {
    match SourceIdOf(edges, gapId, named)
    case Some(id) => First(nodes, (node: Node) => node.id == id)
    case None => None
  }

  function RelationOf(edges: seq<Edge>, gapId: string, named: Named): string {
    match SlotOf(edges, gapId)
    case Some(edge) => edge.kind
    case None => if named.relation.Some? then named.relation.value else "CALLS"
  }

  /** A neighbour that may be offered as the gap's target. */
  predicate Eligible(node: Node, sourceId: string, gapId: string, context: set<string>) {
    && node.id != sourceId && node.id != gapId && node.id in context
    && !IsGap(node) && Citations(node.props) != []
  }

  function RequestOf(node: Node, candidate: bool): Request {
    var cited := Citations(node.props);
    Request(NodeFact(node.id), NodeOf(node), if cited == [] then None else Some(cited[0]),
            if candidate then Some(Offer(node.id, node.kind, node.kind + ": " + Title(node))) else None)
  }

  /** The requests a plan is made of, and when it leaves candidates out. */
  ghost predicate WellPlanned(plan: Plan) {
    && 2 <= |plan.requests| <= MAX_REQUESTS
    && plan.requests[0].fact == NodeFact(plan.sourceId) && plan.requests[0].candidate.None?
    && plan.requests[1].fact == NodeFact(plan.gapId) && plan.requests[1].candidate.None?
    && (forall k :: 2 <= k < |plan.requests| ==> OffersItself(plan.requests[k]))
    && (forall j, k :: 2 <= j < k < |plan.requests| ==> plan.requests[j].fact != plan.requests[k].fact)
    && (plan.unplanned > 0 ==> |plan.requests| == MAX_REQUESTS)
    && (plan.slot.Some? ==> plan.slot.value.fact.EdgeFact? && plan.slot.value.fact.key.kind == plan.edgeLabel)
  }

  predicate OffersItself(r: Request) { r.candidate.Some? && r.fact == NodeFact(r.candidate.value.node) }

  // ---- The plan ------------------------------------------------------------------------------

  /** How far from the gap candidates are looked for. */
  const HOPS: nat := 2

  const MAX_OFFERS: nat := MAX_REQUESTS - 2

  /** Where, among the first `n` nodes, the eligible ones are. */
  function Eligibles(nodes: seq<Node>, n: nat, sourceId: string, gapId: string, context: set<string>)
    : (places: seq<nat>)
    requires n <= |nodes|
    ensures forall k :: 0 <= k < |places| ==> places[k] < n
  {
    if n == 0 then []
    else Eligibles(nodes, n - 1, sourceId, gapId, context)
         + if Eligible(nodes[n - 1], sourceId, gapId, context) then [n - 1] else []
  }

  /** Exactly the eligible nodes have a place, in snapshot order. */
  lemma {:induction false} EligiblesExact(nodes: seq<Node>, n: nat, sourceId: string, gapId: string,
                                          context: set<string>)
    requires n <= |nodes|
    ensures var places := Eligibles(nodes, n, sourceId, gapId, context);
            && (forall i: nat :: i in places <==> i < n && Eligible(nodes[i], sourceId, gapId, context))
            && (forall j, k :: 0 <= j < k < |places| ==> places[j] < places[k])
  {
    if n > 0 { EligiblesExact(nodes, n - 1, sourceId, gapId, context); }
  }

  lemma {:induction false} NoEligibles(nodes: seq<Node>, n: nat, sourceId: string, gapId: string, context: set<string>)
    requires n <= |nodes| && forall i: nat :: i < n ==> !Eligible(nodes[i], sourceId, gapId, context)
    ensures Eligibles(nodes, n, sourceId, gapId, context) == []
  {
    if n > 0 { NoEligibles(nodes, n - 1, sourceId, gapId, context); }
  }

  function Capped(places: seq<nat>): seq<nat> { if |places| <= MAX_OFFERS then places else places[..MAX_OFFERS] }

  function Offers(nodes: seq<Node>, places: seq<nat>): seq<Request>
    requires forall k :: 0 <= k < |places| ==> places[k] < |nodes|
  {
    seq(|places|, k requires 0 <= k < |places| => RequestOf(nodes[places[k]], true))
  }

  datatype PlanFailure = GapUnavailable | NoSource | SourceUnavailable

  /** The plan for a gap: source and gap first, then the first eligible nodes
      within two hops of the gap. */
  function PlanOf(nodes: seq<Node>, edges: seq<Edge>, gapId: string, actionId: string): Result<Plan, PlanFailure> {
    var gap := GapOf(nodes, gapId);
    if gap.None? then Err(GapUnavailable)
    else
      var named := NamedBy(gap.value);
      var source := SourceOf(nodes, edges, gapId, named);
      if SourceIdOf(edges, gapId, named).None? then Err(NoSource)
      else if source.None? then Err(SourceUnavailable)
      else
        var places := Eligibles(nodes, |nodes|, source.value.id, gapId, Within(edges, gapId, HOPS));
        Ok(PlanWith(nodes, edges, actionId, source.value, gap.value, RelationOf(edges, gapId, named),
                    Offers(nodes, Capped(places)), |places| - |Capped(places)|))
  }

  function PlanWith(nodes: seq<Node>, edges: seq<Edge>, actionId: string, source: Node, gap: Node, relation: string,
                    offers: seq<Request>, unplanned: nat): Plan {
    var slot := SlotOf(edges, gap.id);
    Plan(Snapshot(nodes, edges), actionId, source.id, gap.id, relation,
         [RequestOf(source, false), RequestOf(gap, false)] + offers,
         if slot.Some? then Some(Slot(EdgeFact(KeyOf(slot.value)), EdgeOf(slot.value))) else None, unplanned)
  }

  // ---- What is planned -----------------------------------------------------------------------

  predicate Distinct(nodes: seq<Node>) { forall i, j :: 0 <= i < j < |nodes| ==> nodes[i].id != nodes[j].id }

  lemma OffersDiffer(nodes: seq<Node>, places: seq<nat>)
    requires Distinct(nodes) && forall k :: 0 <= k < |places| ==> places[k] < |nodes|
    requires forall j, k :: 0 <= j < k < |places| ==> places[j] < places[k]
    ensures var offers := Offers(nodes, places);
            && (forall k :: 0 <= k < |offers| ==> OffersItself(offers[k]))
            && (forall j, k :: 0 <= j < k < |offers| ==> offers[j].fact != offers[k].fact)
  {
  }

  lemma PlanWithIsWell(nodes: seq<Node>, edges: seq<Edge>, actionId: string, source: Node, gap: Node,
                       relation: string, offers: seq<Request>, unplanned: nat)
    requires |offers| <= MAX_OFFERS && (unplanned > 0 ==> |offers| == MAX_OFFERS)
    requires forall k :: 0 <= k < |offers| ==> OffersItself(offers[k])
    requires forall j, k :: 0 <= j < k < |offers| ==> offers[j].fact != offers[k].fact
    requires SlotOf(edges, gap.id).Some? ==> relation == SlotOf(edges, gap.id).value.kind
    ensures WellPlanned(PlanWith(nodes, edges, actionId, source, gap, relation, offers, unplanned))
  {
    var rs := PlanWith(nodes, edges, actionId, source, gap, relation, offers, unplanned).requests;
    assert forall k :: 2 <= k < |rs| ==> rs[k] == offers[k - 2];
  }

  /** Every plan is well formed. */
  lemma PlannedIsWell(nodes: seq<Node>, edges: seq<Edge>, gapId: string, actionId: string)
    requires Distinct(nodes) && PlanOf(nodes, edges, gapId, actionId).Ok?
    ensures WellPlanned(PlanOf(nodes, edges, gapId, actionId).value)
  {
    var gap := GapOf(nodes, gapId).value;
    var named := NamedBy(gap);
    var source := SourceOf(nodes, edges, gapId, named).value;
    var places := Eligibles(nodes, |nodes|, source.id, gapId, Within(edges, gapId, HOPS));
    EligiblesExact(nodes, |nodes|, source.id, gapId, Within(edges, gapId, HOPS));
    OffersDiffer(nodes, Capped(places));
    PlanWithIsWell(nodes, edges, actionId, source, gap, RelationOf(edges, gapId, named),
                   Offers(nodes, Capped(places)), |places| - |Capped(places)|);
  }

  /** Every place is asked for, in order, or counted as left out. */
  predicate Asks(nodes: seq<Node>, places: seq<nat>, requests: seq<Request>, unplanned: nat)
    requires forall k :: 0 <= k < |places| ==> places[k] < |nodes|
  {
    && |requests| >= 2 && |requests| - 2 + unplanned == |places|
    && forall k :: 2 <= k < |requests| ==> requests[k] == RequestOf(nodes[places[k - 2]], true)
  }

  predicate PlansEligible(nodes: seq<Node>, edges: seq<Edge>, gapId: string, plan: Plan) {
    && Asks(nodes, Eligibles(nodes, |nodes|, plan.sourceId, gapId, Within(edges, gapId, HOPS)),
            plan.requests, plan.unplanned)
    && (plan.slot.Some? <==> SlotOf(edges, gapId).Some?)
  }

  lemma OffersAsk(nodes: seq<Node>, places: seq<nat>, first: Request, second: Request)
    requires forall k :: 0 <= k < |places| ==> places[k] < |nodes|
    ensures Asks(nodes, places, [first, second] + Offers(nodes, Capped(places)), |places| - |Capped(places)|)
  {
  }

  lemma EligibleIsPlanned(nodes: seq<Node>, edges: seq<Edge>, gapId: string, actionId: string)
    requires PlanOf(nodes, edges, gapId, actionId).Ok?
    ensures PlansEligible(nodes, edges, gapId, PlanOf(nodes, edges, gapId, actionId).value)
  {
    var gap := GapOf(nodes, gapId).value;
    var source := SourceOf(nodes, edges, gapId, NamedBy(gap)).value;
    var places := Eligibles(nodes, |nodes|, source.id, gapId, Within(edges, gapId, HOPS));
    OffersAsk(nodes, places, RequestOf(source, false), RequestOf(gap, false));
  }

  /** Without an edge at the gap nothing but the gap is near it. */
  lemma AloneWithoutSlot(edges: seq<Edge>, gapId: string)
    requires SlotOf(edges, gapId).None?
    ensures Within(edges, gapId, HOPS) == {gapId}
  {
    forall i | 0 <= i < |edges| ensures edges[i].src != gapId && edges[i].dst != gapId {
      assert edges[i] in edges;
    }
    assert Around(edges, {gapId}) == {};
    assert Within(edges, gapId, 1) == {gapId};
  }

  /** So a plan without a slot offers no candidate, and leaves none out. */
  lemma NoSlotNoCandidate(nodes: seq<Node>, edges: seq<Edge>, gapId: string, actionId: string)
    requires PlanOf(nodes, edges, gapId, actionId).Ok? && PlanOf(nodes, edges, gapId, actionId).value.slot.None?
    ensures var plan := PlanOf(nodes, edges, gapId, actionId).value; |plan.requests| == 2 && plan.unplanned == 0
  {
    var plan := PlanOf(nodes, edges, gapId, actionId).value;
    AloneWithoutSlot(edges, gapId);
    NoEligibles(nodes, |nodes|, plan.sourceId, gapId, {gapId});
  }

  lemma {:induction false} NothingOffered(src: Sources, rs: seq<Request>)
    requires forall k :: 0 <= k < |rs| ==> rs[k].candidate.None?
    ensures Count(src, rs, true) == 0
  {
    if rs != [] { NothingOffered(src, rs[..|rs| - 1]); }
  }

  /** And is never selected from, whatever the sources. */
  lemma SelectableHasSlot(nodes: seq<Node>, edges: seq<Edge>, gapId: string, actionId: string, src: Sources, n: nat)
    requires PlanOf(nodes, edges, gapId, actionId).Ok?
    requires Selectable(PlanOf(nodes, edges, gapId, actionId).value, src, n)
    ensures var plan := PlanOf(nodes, edges, gapId, actionId).value; plan.slot.Some? && |plan.requests| > 2
  {
    var plan := PlanOf(nodes, edges, gapId, actionId).value;
    if plan.slot.None? { NoSlotNoCandidate(nodes, edges, gapId, actionId); }
    if |plan.requests| == 2 { NothingOffered(src, plan.requests[..n]); }
  }

  // ---- What is asked for, in the graph's own terms ---------------------------------------------

  /** The node's provenance parses, asserts no more than its tier may, and cites. */
  predicate CitesSoundly(node: Node) {
    && node.props.prov.Parsed? && node.props.prov.prov.evidence != []
    && MayAssert(node.props.prov.prov.tier, node.props.prov.prov.confidence)
  }

  /** The request is for the whole node, by its first sound citation. */
  predicate AsksFor(r: Request, node: Node) {
    && r.fact == NodeFact(node.id) && r.digest == NodeOf(node)
    && r.reference == if CitesSoundly(node) then Some(node.props.prov.prov.evidence[0]) else None
  }

  /** The offer is the node's id and kind, and its kind with its name: the `name`
      property, else `path`, else the id. */
  predicate OffersNode(offer: Offer, node: Node) {
    var rest := node.props.rest;
    && offer.node == node.id && offer.kind == node.kind
    && offer.summary == node.kind + ": " + if "name" in rest && rest["name"].Text? then rest["name"].text
                                           else if "path" in rest && rest["path"].Text? then rest["path"].text
                                           else node.id
  }

  lemma RequestIs(node: Node, candidate: bool)
    ensures AsksFor(RequestOf(node, candidate), node)
    ensures RequestOf(node, candidate).candidate.Some? <==> candidate
    ensures candidate ==> OffersNode(RequestOf(node, candidate).candidate.value, node)
  {
    if node.props.prov.Parsed? { CeilingIff(node.props.prov.prov); }
  }

  /** A node that is a gap, or says nothing that may be relied on. */
  predicate SaysNothing(node: Node) {
    || node.kind == "Gap" || !node.props.prov.Parsed?
    || !MayAssert(node.props.prov.prov.tier, node.props.prov.prov.confidence)
    || node.props.prov.prov.confidence == Confidence.Gap
  }

  lemma EligibleIff(node: Node, sourceId: string, gapId: string, context: set<string>)
    ensures IsGap(node) <==> SaysNothing(node)
    ensures Eligible(node, sourceId, gapId, context) <==>
            && node.id != sourceId && node.id != gapId && node.id in context
            && !SaysNothing(node) && node.props.prov.prov.evidence != []
  {
    if node.props.prov.Parsed? { CeilingIff(node.props.prov.prov); }
  }

  /** Edge `i` is the gap's slot: the first into it, or, when none is, the first
      out of it. */
  ghost predicate IsSlot(edges: seq<Edge>, gapId: string, i: nat) {
    && i < |edges|
    && if exists j :: 0 <= j < |edges| && edges[j].dst == gapId
       then edges[i].dst == gapId && forall j :: 0 <= j < i ==> edges[j].dst != gapId
       else edges[i].src == gapId && forall j :: 0 <= j < i ==> edges[j].src != gapId
  }

  lemma SlotIsFirst(edges: seq<Edge>, gapId: string) returns (i: nat)
    requires SlotOf(edges, gapId).Some?
    ensures IsSlot(edges, gapId, i) && SlotOf(edges, gapId) == Some(edges[i])
  {
    var into, outOf := (edge: Edge) => edge.dst == gapId, (edge: Edge) => edge.src == gapId;
    if First(edges, into).Some? {
      i := FirstIsFirst(edges, into);
    } else {
      assert forall j :: 0 <= j < |edges| ==> edges[j] in edges;
      i := FirstIsFirst(edges, outOf);
    }
  }

  lemma NoSlotIff(edges: seq<Edge>, gapId: string)
    ensures SlotOf(edges, gapId).None? <==>
            forall i :: 0 <= i < |edges| ==> edges[i].src != gapId && edges[i].dst != gapId
  {
    assert forall i :: 0 <= i < |edges| ==> edges[i] in edges;
  }

  predicate SlotSays(edge: Edge, gapId: string, slot: Slot, sourceId: string, relation: string) {
    && slot.fact == EdgeFact(EdgeKey(edge.src, edge.dst, edge.kind)) && slot.digest == EdgeOf(edge)
    && relation == edge.kind && sourceId == if edge.dst == gapId then edge.src else edge.dst
  }

  predicate GapSays(gap: Node, sourceId: string, relation: string) {
    var rest := gap.props.rest;
    && "source_id" in rest && rest["source_id"] == Text(sourceId)
    && relation == if "edge_label" in rest && rest["edge_label"].Text? then rest["edge_label"].text else "CALLS"
  }

  /** The slot, when there is one, gives relation and source; otherwise the gap's
      own properties do. */
  lemma PlanRelates(nodes: seq<Node>, edges: seq<Edge>, gapId: string, actionId: string)
    requires PlanOf(nodes, edges, gapId, actionId).Ok?
    ensures var plan := PlanOf(nodes, edges, gapId, actionId).value;
            match plan.slot
            case Some(slot) =>
              exists i: nat :: IsSlot(edges, gapId, i) && SlotSays(edges[i], gapId, slot, plan.sourceId, plan.edgeLabel)
            case None =>
              && (forall i :: 0 <= i < |edges| ==> edges[i].src != gapId && edges[i].dst != gapId)
              && GapOf(nodes, gapId).Some? && GapSays(GapOf(nodes, gapId).value, plan.sourceId, plan.edgeLabel)
  {
    NoSlotIff(edges, gapId);
    if SlotOf(edges, gapId).Some? { var i := SlotIsFirst(edges, gapId); }
  }

  predicate OffersSome(nodes: seq<Node>, r: Request) {
    exists i :: 0 <= i < |nodes| && AsksFor(r, nodes[i]) && r.candidate.Some? && OffersNode(r.candidate.value, nodes[i])
  }

  /** The gap is the first node of its id that is one; the first two requests ask
      for the source and for it, and every other offers the node it asks for. */
  ghost predicate Requests(nodes: seq<Node>, gapId: string, plan: Plan, source: Node, gap: Node) {
    && source in nodes && source.id == plan.sourceId
    && gap in nodes && gap.id == plan.gapId == gapId && SaysNothing(gap)
    && |plan.requests| >= 2 && AsksFor(plan.requests[0], source) && AsksFor(plan.requests[1], gap)
    && plan.requests[0].candidate.None? && plan.requests[1].candidate.None?
    && forall k :: 2 <= k < |plan.requests| ==> OffersSome(nodes, plan.requests[k])
  }

  lemma PlanRequests(nodes: seq<Node>, edges: seq<Edge>, gapId: string, actionId: string)
    returns (source: Node, gap: Node)
    requires PlanOf(nodes, edges, gapId, actionId).Ok?
    ensures Requests(nodes, gapId, PlanOf(nodes, edges, gapId, actionId).value, source, gap)
  {
    var plan := PlanOf(nodes, edges, gapId, actionId).value;
    gap := GapOf(nodes, gapId).value;
    source := SourceOf(nodes, edges, gapId, NamedBy(gap)).value;
    RequestIs(source, false);
    RequestIs(gap, false);
    EligibleIff(gap, "", "", {});
    EligibleIsPlanned(nodes, edges, gapId, actionId);
    var places := Eligibles(nodes, |nodes|, plan.sourceId, gapId, Within(edges, gapId, HOPS));
    forall k | 2 <= k < |plan.requests| ensures OffersSome(nodes, plan.requests[k]) {
      RequestIs(nodes[places[k - 2]], true);
    }
  }

  /** A plan is missing for one of three reasons: no node of the id is a gap; no
      edge touches it and it names no source; or no node is its source. */
  lemma PlanFailsIff(nodes: seq<Node>, edges: seq<Edge>, gapId: string, actionId: string)
    ensures PlanOf(nodes, edges, gapId, actionId) == Err(GapUnavailable) <==>
            forall node :: node in nodes && node.id == gapId ==> !SaysNothing(node)
    ensures PlanOf(nodes, edges, gapId, actionId) == Err(NoSource) ==>
            && (forall i :: 0 <= i < |edges| ==> edges[i].src != gapId && edges[i].dst != gapId)
            && exists gap :: gap in nodes && gap.id == gapId && SaysNothing(gap)
                             && !("source_id" in gap.props.rest && gap.props.rest["source_id"].Text?)
    ensures PlanOf(nodes, edges, gapId, actionId) == Err(SourceUnavailable) ==>
            && GapOf(nodes, gapId).Some? && SourceIdOf(edges, gapId, NamedBy(GapOf(nodes, gapId).value)).Some?
            && forall node :: node in nodes ==>
                 Some(node.id) != SourceIdOf(edges, gapId, NamedBy(GapOf(nodes, gapId).value))
  {
    forall node ensures IsGap(node) <==> SaysNothing(node) { EligibleIff(node, "", "", {}); }
    NoSlotIff(edges, gapId);
  }

  // ---- A receipt that inventories a node serves it -----------------------------------------------

  /** Every range of the receipt is readable, and its provenance ranges are the
      node's citations, the first included. */
  predicate Inventories(receipt: Captured, node: Node)
    requires node.props.prov.Parsed?
  {
    var cited := node.props.prov.prov.evidence;
    && (forall i :: 0 <= i < |receipt.ranges| ==>
          var range := receipt.ranges[i];
          && range.start < range.end <= range.start + MAX_SPAN_BYTES
          && range.text.Some? && |range.text.value| == range.end - range.start
          && (range.provenance ==> range.index < |cited| && range.evidence == cited[range.index]))
    && exists i :: 0 <= i < |receipt.ranges| && receipt.ranges[i].provenance && receipt.ranges[i].index == 0
  }

  /** Both reads saw the node bound to a receipt its repository's guard retains. */
  predicate BoundTo(src: Sources, node: Node, binding: Association) {
    var fact := NodeFact(node.id);
    && fact in src.preliminary && fact in src.authoritative
    && src.preliminary[fact] == src.authoritative[fact] == Present(NodeOf(node), binding)
    && binding.repo in src.guards && binding.receipt in src.receipts
    && var receipt := src.receipts[binding.receipt];
    && receipt.sourceId == src.guards[binding.repo] && receipt.repo == binding.repo
    && receipt.fact == fact && receipt.digest == NodeOf(node)
  }

  lemma {:induction false} FindsRange(ranges: seq<Range>, reference: EvidenceRef, from: nat, i: nat)
    requires from <= i < |ranges| && ranges[i].provenance && ranges[i].index == 0 && ranges[i].evidence == reference
    ensures FindRange(ranges, reference, from).Some?
    decreases i - from
  {
    if from < i { FindsRange(ranges, reference, from + 1, i); }
  }

  /** A node bound to a retained receipt that inventories it never blocks the walk:
      its request supplies the bytes of its first citation. */
  lemma InventoriedIsServed(src: Sources, node: Node, binding: Association, candidate: bool)
    requires CitesSoundly(node) && BoundTo(src, node, binding)
    requires Inventories(src.receipts[binding.receipt], node)
    ensures !Blocks(src, RequestOf(node, candidate)) && Yields(src, RequestOf(node, candidate))
    ensures SupplyOf(src, RequestOf(node, candidate)).source == node.props.prov.prov.evidence[0]
  {
    var ranges := src.receipts[binding.receipt].ranges;
    RequestIs(node, candidate);
    var i :| 0 <= i < |ranges| && ranges[i].provenance && ranges[i].index == 0;
    FindsRange(ranges, node.props.prov.prov.evidence[0], 0, i);
  }

  /** A node both reads saw without a binding never blocks it either: it supplies
      its first citation's text when the working tree has it. */
  lemma UnboundIsServed(src: Sources, node: Node, candidate: bool)
    requires NodeFact(node.id) in src.preliminary && NodeFact(node.id) in src.authoritative
    requires src.preliminary[NodeFact(node.id)] == src.authoritative[NodeFact(node.id)] == Absent(NodeOf(node))
    ensures !Blocks(src, RequestOf(node, candidate))
    ensures Yields(src, RequestOf(node, candidate)) <==>
            CitesSoundly(node) && node.props.prov.prov.evidence[0] in src.workingTree
    ensures Yields(src, RequestOf(node, candidate)) ==>
            SupplyOf(src, RequestOf(node, candidate)).text == src.workingTree[node.props.prov.prov.evidence[0]]
  {
    RequestIs(node, candidate);
  }

  /** A node the two reads disagree on, or that is not the planned one, blocks. */
  lemma ChangedBlocks(src: Sources, node: Node, candidate: bool)
    requires var fact := NodeFact(node.id);
             || fact !in src.preliminary || fact !in src.authoritative
             || src.preliminary[fact] != src.authoritative[fact]
             || !(src.authoritative[fact].Absent? || src.authoritative[fact].Present?)
             || src.authoritative[fact].digest != NodeOf(node)
    ensures Blocks(src, RequestOf(node, candidate))
  {
    RequestIs(node, candidate);
  }

  // ---- Planning --------------------------------------------------------------------------------

  /** One more eligible node is offered while there is room. */
  lemma OffersSnoc(nodes: seq<Node>, places: seq<nat>, i: nat)
    requires i < |nodes| && forall k :: 0 <= k < |places| ==> places[k] < |nodes|
    ensures var offers, more := Offers(nodes, Capped(places)), Offers(nodes, Capped(places + [i]));
            if |offers| == MAX_OFFERS then more == offers else more == offers + [RequestOf(nodes[i], true)]
    ensures |Capped(places + [i])| == if |places| < MAX_OFFERS then |places| + 1 else MAX_OFFERS
  {
    if |places| >= MAX_OFFERS { assert (places + [i])[..MAX_OFFERS] == Capped(places); }
  }

  lemma OffersNext(nodes: seq<Node>, i: nat, sourceId: string, gapId: string, context: set<string>)
    requires i < |nodes| && Eligible(nodes[i], sourceId, gapId, context)
    ensures var before := Eligibles(nodes, i, sourceId, gapId, context);
            var after := Eligibles(nodes, i + 1, sourceId, gapId, context);
            var offers, more := Offers(nodes, Capped(before)), Offers(nodes, Capped(after));
            && |after| == |before| + 1 && |Capped(after)| == |more| && |Capped(before)| == |offers|
            && if |offers| == MAX_OFFERS then more == offers else more == offers + [RequestOf(nodes[i], true)]
  {
    OffersSnoc(nodes, Eligibles(nodes, i, sourceId, gapId, context), i);
  }

  /** Walk the snapshot, asking for each eligible neighbour while there is room. */
  method OfferNeighbours(nodes: seq<Node>, sourceId: string, gapId: string, context: set<string>)
    returns (offers: seq<Request>, unplanned: nat)
    ensures var places := Eligibles(nodes, |nodes|, sourceId, gapId, context);
            offers == Offers(nodes, Capped(places)) && unplanned == |places| - |Capped(places)|
  {
    offers, unplanned := [], 0;
    for i := 0 to |nodes|
      invariant offers == Offers(nodes, Capped(Eligibles(nodes, i, sourceId, gapId, context)))
      invariant |offers| + unplanned == |Eligibles(nodes, i, sourceId, gapId, context)|
    {
      if Eligible(nodes[i], sourceId, gapId, context) {
        OffersNext(nodes, i, sourceId, gapId, context);
        if |offers| == MAX_OFFERS {
          unplanned := unplanned + 1;
        } else {
          offers := offers + [RequestOf(nodes[i], true)];
        }
      }
    }
  }

  /** Plan a task, with the neighbourhood found breadth first. */
  method PlanTask(nodes: seq<Node>, edges: seq<Edge>, gapId: string, actionId: string)
    returns (result: Result<Plan, PlanFailure>)
    requires Distinct(nodes)
    ensures result == PlanOf(nodes, edges, gapId, actionId)
    ensures result.Ok? <==> GapOf(nodes, gapId).Some?
                            && SourceOf(nodes, edges, gapId, NamedBy(GapOf(nodes, gapId).value)).Some?
    ensures result.Ok? ==> WellPlanned(result.value) && PlansEligible(nodes, edges, gapId, result.value)
  {
    var gap := GapOf(nodes, gapId);
    if gap.None? { return Err(GapUnavailable); }
    var named := NamedBy(gap.value);
    if SourceIdOf(edges, gapId, named).None? { return Err(NoSource); }
    var source := SourceOf(nodes, edges, gapId, named);
    if source.None? { return Err(SourceUnavailable); }
    var distance := Distances(edges, gapId, HOPS);
    var offers, unplanned := OfferNeighbours(nodes, source.value.id, gapId, distance.Keys);
    result := Ok(PlanWith(nodes, edges, actionId, source.value, gap.value, RelationOf(edges, gapId, named),
                          offers, unplanned));
    PlannedIsWell(nodes, edges, gapId, actionId);
    EligibleIsPlanned(nodes, edges, gapId, actionId);
  }
}
