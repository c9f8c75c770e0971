/** Source associations: which captured receipt attests which published fact,
    and how the store keeps the two in step. */
module SourceBindings {
  import opened Wrappers
  import opened Sorting
  import opened Facts
  import opened GraphStore
  import opened Publication
  import opened PublicationTheorems
  import EdgeMerge

  datatype FactKey = NodeFact(id: string) | EdgeFact(key: EdgeKey)

  /** A complete fact; also what the digest of a complete fact stands for. */
  datatype Fact = NodeOf(node: Node) | EdgeOf(edge: Edge)

  datatype Receipt = Receipt(id: string, repo: string, fact: FactKey, digest: Fact, ranges: seq<EvidenceRef>)

  datatype SourceBinding = SourceBinding(fact: FactKey, repo: string, receipt: string, digest: Fact)

  const MAX_BINDINGS: nat := 100_000

  function FactAt(g: Graph, fact: FactKey): Option<Fact> {
    match fact
    case NodeFact(id) => if id in g.nodes then Some(NodeOf(g.nodes[id])) else None
    case EdgeFact(key) => if key in g.edges then Some(EdgeOf(g.edges[key])) else None
  }

  function PropsOf(fact: Fact): Props {
    match fact case NodeOf(node) => node.props case EdgeOf(edge) => edge.props
  }

  // ---- Matching receipts to what publication materializes ----------------------------------

  /** The facts of one extraction, before the Repo node is added. */
  function Extracted(x: Extraction): Graph {
    Graph(LastNodes(x.nodes), EdgeMerge.MergeEdges(x.edges))
  }

  /** The receipt names the fact, digests all of it and inventories its spans. */
  predicate Attests(receipt: Receipt, g: Graph) {
    var fact := FactAt(g, receipt.fact);
    && fact == Some(receipt.digest)
    && Validated(PropsOf(receipt.digest)) && PropsOf(receipt.digest).prov.prov.evidence == receipt.ranges
  }

  function BindingOf(receipt: Receipt): SourceBinding {
    SourceBinding(receipt.fact, receipt.repo, receipt.id, receipt.digest)
  }

  function Matching(g: Graph, receipts: seq<Receipt>): map<FactKey, SourceBinding> {
    if receipts == [] then map[]
    else
      var receipt := receipts[|receipts| - 1];
      var earlier := Matching(g, receipts[..|receipts| - 1]);
      if Attests(receipt, g) then earlier[receipt.fact := BindingOf(receipt)] else earlier
  }

  function MatchingBindings(x: Extraction, receipts: seq<Receipt>): map<FactKey, SourceBinding> {
    Matching(Extracted(x), receipts)
  }

  predicate AttestedBy(g: Graph, receipt: Receipt, fact: FactKey) { receipt.fact == fact && Attests(receipt, g) }

  /** `receipts[i]` is the last one that attests `fact`. */
  predicate LastAttesting(g: Graph, receipts: seq<Receipt>, i: nat, fact: FactKey) {
    && i < |receipts| && AttestedBy(g, receipts[i], fact)
    && forall j :: i < j < |receipts| ==> !AttestedBy(g, receipts[j], fact)
  }

  ghost predicate Attested(g: Graph, receipts: seq<Receipt>, fact: FactKey) {
    exists i :: 0 <= i < |receipts| && AttestedBy(g, receipts[i], fact)
  }

  lemma AttestedSnoc(g: Graph, front: seq<Receipt>, receipt: Receipt, fact: FactKey)
    ensures Attested(g, front + [receipt], fact) <==> Attested(g, front, fact) || AttestedBy(g, receipt, fact)
  {
    var all := front + [receipt];
    assert all[|front|] == receipt;
    if Attested(g, front, fact) {
      var i :| 0 <= i < |front| && AttestedBy(g, front[i], fact);
      assert all[i] == front[i];
    }
  }

  lemma MatchingSnoc(g: Graph, front: seq<Receipt>, receipt: Receipt, fact: FactKey)
    ensures var before, after := Matching(g, front), Matching(g, front + [receipt]);
            if AttestedBy(g, receipt, fact) then fact in after && after[fact] == BindingOf(receipt)
            else (fact in after <==> fact in before) && (fact in before ==> after[fact] == before[fact])
  {
    assert (front + [receipt])[..|front|] == front;
  }

  lemma LastAttestingSnoc(g: Graph, front: seq<Receipt>, receipt: Receipt, i: nat, fact: FactKey)
    requires LastAttesting(g, front, i, fact) && !AttestedBy(g, receipt, fact)
    ensures LastAttesting(g, front + [receipt], i, fact)
  {
  }

  /** A fact is bound exactly when some receipt attests it. */
  lemma {:induction false} BoundIffAttested(g: Graph, receipts: seq<Receipt>, fact: FactKey)
    ensures fact in Matching(g, receipts) <==> Attested(g, receipts, fact)
  {
    if receipts != [] {
      var front, receipt := receipts[..|receipts| - 1], receipts[|receipts| - 1];
      BoundIffAttested(g, front, fact);
      MatchingSnoc(g, front, receipt, fact);
      AttestedSnoc(g, front, receipt, fact);
      assert receipts == front + [receipt];
    }
  }

  /** It is bound to the last receipt that attests it, and so has one binding. */
  lemma {:induction false} BoundToLastAttesting(g: Graph, receipts: seq<Receipt>, fact: FactKey) returns (i: nat)
    requires fact in Matching(g, receipts)
    ensures LastAttesting(g, receipts, i, fact) && Matching(g, receipts)[fact] == BindingOf(receipts[i])
  {
    var front, receipt := receipts[..|receipts| - 1], receipts[|receipts| - 1];
    MatchingSnoc(g, front, receipt, fact);
    assert receipts == front + [receipt];
    if AttestedBy(g, receipt, fact) {
      i := |front|;
    } else {
      i := BoundToLastAttesting(g, front, fact);
      LastAttestingSnoc(g, front, receipt, i, fact);
    }
  }

  lemma {:induction false} BindingsAttested(x: Extraction, receipts: seq<Receipt>, fact: FactKey)
    requires fact in MatchingBindings(x, receipts)
    ensures var binding := MatchingBindings(x, receipts)[fact];
            binding.fact == fact && FactAt(Extracted(x), fact) == Some(binding.digest)
  {
    var i := BoundToLastAttesting(Extracted(x), receipts, fact);
  }

  /** The extraction emitted the repository's own node, unlike the
      registration's, and a receipt attests it. */
  predicate AttestsOwnRepo(x: Extraction, receipts: seq<Receipt>, repo: string, commit: string) {
    exists i :: 0 <= i < |receipts| && AttestedBy(Extracted(x), receipts[i], NodeFact(RepoId(repo)))
                && receipts[i].digest != NodeOf(RepoNode(repo, commit))
  }

  /** Every binding names a fact the load publishes, with its digest, exactly
      when no receipt attests a Repo node the registration's own replaces. */
  lemma BindingsNamePublishedIff(x: Extraction, receipts: seq<Receipt>, repo: string, commit: string)
    ensures var cur := CurrentFacts(x, repo, commit);
            var bindings := MatchingBindings(x, receipts);
            (forall fact :: fact in bindings ==>
                FactAt(Graph(cur.nodes, cur.edges), fact) == Some(bindings[fact].digest))
            <==> !AttestsOwnRepo(x, receipts, repo, commit)
  {
    var cur := CurrentFacts(x, repo, commit);
    var g := Graph(cur.nodes, cur.edges);
    var bindings := MatchingBindings(x, receipts);
    var own := NodeFact(RepoId(repo));
    forall fact | fact in bindings && fact != own ensures FactAt(g, fact) == Some(bindings[fact].digest) {
      BindingsAttested(x, receipts, fact);
    }
    BoundIffAttested(Extracted(x), receipts, own);
    assert FactAt(g, own) == Some(NodeOf(RepoNode(repo, commit)));
    if own in bindings { BindingsAttested(x, receipts, own); }
  }

  /** A `Repo` node an adapter might emit, citing one span, and its receipt. */
  function EmittedRepo(): Node {
    var prov := Provenance(Deterministic, Confirmed, [EvidenceRef("r", "a.ts", 0, 1, "c")], "ts", Plain(""));
    Node("repo:r", "Repo", Props(Parsed(prov), false, None, None, map[]))
  }

  function EmittedReceipt(): Receipt {
    Receipt("id", "r", NodeFact("repo:r"), NodeOf(EmittedRepo()), [EvidenceRef("r", "a.ts", 0, 1, "c")])
  }

  /** Such a receipt exists: the binding it yields digests a node the
      registration's own node has replaced. */
  lemma OwnRepoBindingIsUnpublished()
    ensures var x := Extraction([EmittedRepo()], []);
            && AttestsOwnRepo(x, [EmittedReceipt()], "r", "c")
            && NodeFact("repo:r") in MatchingBindings(x, [EmittedReceipt()])
            && FactAt(Graph(CurrentFacts(x, "r", "c").nodes, map[]), NodeFact("repo:r")) != Some(NodeOf(EmittedRepo()))
  {
    var node, receipt := EmittedRepo(), EmittedReceipt();
    var x := Extraction([node], []);
    assert RepoId("r") == "repo:r";
    assert LastNodes(x.nodes) == map["repo:r" := node];
    assert RepoNode("r", "c").props.rest == map["commit" := Text("c")] && node.props.rest == map[];
    assert [receipt][0] == receipt && Attests(receipt, Extracted(x));
    assert AttestedBy(Extracted(x), [receipt][0], NodeFact("repo:r"));
    BoundIffAttested(Extracted(x), [receipt], NodeFact("repo:r"));
  }

  lemma {:induction false} FilterHas<T>(s: seq<T>, p: T -> bool, x: T)
    requires x in s && p(x)
    ensures x in Filter(s, p)
  {
    assert s == [s[0]] + s[1..];
    if s[0] != x { FilterHas(s[1..], p, x); }
  }

  /** A relation collapsed from several sites publishes unbound: no receipt of a
      single site attests the merged edge. */
  lemma CollapsedPublishesUnbound(x: Extraction, receipts: seq<Receipt>, key: EdgeKey)
    requires EdgeMerge.Collapsed(EdgeMerge.Group(x.edges, key))
    requires forall i :: 0 <= i < |receipts| && receipts[i].fact == EdgeFact(key) ==>
               receipts[i].digest.EdgeOf? && receipts[i].digest.edge in x.edges
    ensures EdgeFact(key) !in MatchingBindings(x, receipts)
  {
    var group := EdgeMerge.Group(x.edges, key);
    EdgeMerge.GroupNonEmpty(x.edges, key);
    BoundIffAttested(Extracted(x), receipts, EdgeFact(key));
    forall i | 0 <= i < |receipts| && receipts[i].fact == EdgeFact(key)
      ensures !AttestedBy(Extracted(x), receipts[i], EdgeFact(key))
    {
      var edge := receipts[i].digest.edge;
      if KeyOf(edge) == key {
        FilterHas(x.edges, e => KeyOf(e) == key, edge);
        var k :| 0 <= k < |group| && group[k] == edge;
        EdgeMerge.CollapsedIsNoOccurrence(group, k);
      } else {
        assert KeyOf(EdgeMerge.MergeGroup(group)) == KeyOf(group[|group| - 1]);
      }
    }
  }

  // ---- The association table --------------------------------------------------------------------

  datatype BoundGraph = BoundGraph(graph: Graph, rows: map<FactKey, SourceBinding>)

  /** Every association describes the current, complete fact it names. */
  ghost predicate InStep(b: BoundGraph) {
    forall fact :: fact in b.rows ==> b.rows[fact].fact == fact && FactAt(b.graph, fact) == Some(b.rows[fact].digest)
  }

  predicate Inserted(g: Graph, patch: Patch, id: string) {
    id in LastNodes(patch.upsertNodes) && (id !in g.nodes || id in patch.deleteNodeIds)
  }

  /** No trigger on the rows a patch touches drops this association. */
  predicate Survives(g: Graph, patch: Patch, fact: FactKey) {
    match fact
    case NodeFact(id) => id !in patch.deleteNodeIds && id !in LastNodes(patch.upsertNodes)
    case EdgeFact(key) =>
      && !Retracts(patch, key) && key !in LastEdges(patch.upsertEdges)
      && !Inserted(g, patch, key.src) && !Inserted(g, patch, key.dst)
  }

  function Rows(bindings: seq<SourceBinding>): map<FactKey, SourceBinding> {
    if bindings == [] then map[]
    else Rows(bindings[..|bindings| - 1])[bindings[|bindings| - 1].fact := bindings[|bindings| - 1]]
  }

  lemma {:induction false} RowsOf(bindings: seq<SourceBinding>, fact: FactKey)
    ensures fact in Rows(bindings) <==> exists i :: 0 <= i < |bindings| && bindings[i].fact == fact
    ensures fact in Rows(bindings) ==> Rows(bindings)[fact] in bindings && Rows(bindings)[fact].fact == fact
  {
    if bindings != [] {
      var front := bindings[..|bindings| - 1];
      RowsOf(front, fact);
      assert bindings == front + [bindings[|bindings| - 1]];
      if i :| 0 <= i < |front| && front[i].fact == fact { assert bindings[i].fact == fact; }
    }
  }

  function Patched(b: BoundGraph, patch: Patch): BoundGraph {
    BoundGraph(Applied(b.graph, patch), map fact | fact in b.rows && Survives(b.graph, patch, fact) :: b.rows[fact])
  }

  /** Drop this repository's associations, apply the patch, write the new ones. */
  function Rebound(b: BoundGraph, patch: Patch, repo: string, bindings: seq<SourceBinding>): BoundGraph {
    var kept := map fact | fact in b.rows && b.rows[fact].repo != repo && Survives(b.graph, patch, fact) ::
        b.rows[fact];
    BoundGraph(Applied(b.graph, patch), kept + Rows(bindings))
  }

  /** One binding per fact, all of this repository. */
  predicate WellOwned(repo: string, bindings: seq<SourceBinding>) {
    && |bindings| <= MAX_BINDINGS
    && (forall i :: 0 <= i < |bindings| ==> bindings[i].repo == repo)
    && (forall i, j :: 0 <= i < j < |bindings| ==> bindings[i].fact != bindings[j].fact)
  }

  predicate Unclaimed(b: BoundGraph, repo: string, bindings: seq<SourceBinding>) {
    forall i :: 0 <= i < |bindings| && bindings[i].fact in b.rows ==> b.rows[bindings[i].fact].repo == repo
  }

  predicate Describes(g: Graph, bindings: seq<SourceBinding>) {
    forall i :: 0 <= i < |bindings| ==> FactAt(g, bindings[i].fact) == Some(bindings[i].digest)
  }

  predicate Bindable(b: BoundGraph, patch: Patch, repo: string, bindings: seq<SourceBinding>) {
    Unclaimed(b, repo, bindings) && Admissible(b.graph, patch) && Describes(Applied(b.graph, patch), bindings)
  }

  class BindingStore {
    var graph: Graph
    var rows: map<FactKey, SourceBinding>

    function View(): BoundGraph
      reads this
    {
      BoundGraph(graph, rows)
    }

    constructor ()
      ensures View() == BoundGraph(Graph(map[], map[]), map[])
    {
      graph, rows := Graph(map[], map[]), map[];
    }

    /** Publish a patch and this repository's associations in one transaction. */
    method ApplyWithBindings(expected: Graph, patch: Patch, repo: string, bindings: seq<SourceBinding>)
      returns (result: Result<bool, string>)
      modifies this
      ensures result == Ok(false) <==> WellOwned(repo, bindings) && old(graph) != expected
      ensures result == Ok(true) <==>
              WellOwned(repo, bindings) && old(graph) == expected && Bindable(old(View()), patch, repo, bindings)
      ensures View() == if result == Ok(true) then Rebound(old(View()), patch, repo, bindings) else old(View())
    {
      var owned := OneOwnerEach(repo, bindings);
      if !owned { return Err("duplicate or wrong-owner association"); }
      if graph != expected { return Ok(false); }
      var free := FreeToBind(View(), repo, bindings);
      if !free { return Err("fact belongs to another source association"); }
      if !Admissible(graph, patch) { return Err("storage: foreign key"); }
      var kept := map fact | fact in rows && rows[fact].repo != repo && Survives(graph, patch, fact) :: rows[fact];
      var written := WriteRows(Applied(graph, patch), kept, bindings);
      if written.None? { return Err("missing fact or complete fact digest mismatch"); }
      graph, rows := Applied(graph, patch), written.value;
      result := Ok(true);
    }
  }

  method FreeToBind(b: BoundGraph, repo: string, bindings: seq<SourceBinding>) returns (free: bool)
    ensures free <==> Unclaimed(b, repo, bindings)
  {
    for i := 0 to |bindings|
      invariant forall k :: 0 <= k < i && bindings[k].fact in b.rows ==> b.rows[bindings[k].fact].repo == repo
    {
      if bindings[i].fact in b.rows && b.rows[bindings[i].fact].repo != repo { return false; }
    }
    free := true;
  }

  /** Write each association whose fact the published graph holds as digested. */
  method WriteRows(published: Graph, kept: map<FactKey, SourceBinding>, bindings: seq<SourceBinding>)
    returns (written: Option<map<FactKey, SourceBinding>>)
    ensures written.Some? <==> Describes(published, bindings)
    ensures written.Some? ==> written.value == kept + Rows(bindings)
  {
    var done := kept;
    for i := 0 to |bindings|
      invariant forall k :: 0 <= k < i ==> FactAt(published, bindings[k].fact) == Some(bindings[k].digest)
      invariant done == kept + Rows(bindings[..i])
    {
      assert bindings[..i + 1][..i] == bindings[..i];
      if FactAt(published, bindings[i].fact) != Some(bindings[i].digest) { return None; }
      done := done[bindings[i].fact := bindings[i]];
    }
    assert bindings[..|bindings|] == bindings;
    written := Some(done);
  }

  method OneOwnerEach(repo: string, bindings: seq<SourceBinding>) returns (owned: bool)
    ensures owned <==> WellOwned(repo, bindings)
  {
    if |bindings| > MAX_BINDINGS { return false; }
    var seen := {};
    for i := 0 to |bindings|
      invariant forall fact :: fact in seen <==> exists k :: 0 <= k < i && bindings[k].fact == fact
      invariant forall k :: 0 <= k < i ==> bindings[k].repo == repo
      invariant forall j, k :: 0 <= j < k < i ==> bindings[j].fact != bindings[k].fact
    {
      if bindings[i].repo != repo || bindings[i].fact in seen { return false; }
      seen := seen + {bindings[i].fact};
    }
    owned := true;
  }

  // ---- Receipts and associations, in the graph's own terms -----------------------------------------

  /** The properties soundly cite exactly the inventoried spans. */
  predicate Inventoried(props: Props, ranges: seq<EvidenceRef>) {
    && props.prov.Parsed? && MayAssert(props.prov.prov.tier, props.prov.prov.confidence)
    && props.prov.prov.evidence == ranges
  }

  /** A receipt attests a fact when the graph holds it whole, as digested, citing
      exactly what the receipt inventories. */
  lemma AttestsIff(receipt: Receipt, g: Graph)
    ensures Attests(receipt, g) <==>
            match receipt.fact
            case NodeFact(id) =>
              id in g.nodes && receipt.digest == NodeOf(g.nodes[id]) && Inventoried(g.nodes[id].props, receipt.ranges)
            case EdgeFact(key) =>
              && key in g.edges && receipt.digest == EdgeOf(g.edges[key])
              && Inventoried(g.edges[key].props, receipt.ranges)
  {
    if PropsOf(receipt.digest).prov.Parsed? { CeilingIff(PropsOf(receipt.digest).prov.prov); }
  }

  predicate Upserts(patch: Patch, id: string) {
    exists i :: 0 <= i < |patch.upsertNodes| && patch.upsertNodes[i].id == id
  }

  /** An association outlives a patch exactly when the patch neither deletes nor
      writes its fact, nor deletes or newly inserts an endpoint of its edge. */
  lemma SurvivesIff(g: Graph, patch: Patch, fact: FactKey)
    ensures Survives(g, patch, fact) <==>
            match fact
            case NodeFact(id) => id !in patch.deleteNodeIds && !Upserts(patch, id)
            case EdgeFact(key) =>
              && key !in patch.deleteEdges && key.src !in patch.deleteNodeIds && key.dst !in patch.deleteNodeIds
              && (forall i :: 0 <= i < |patch.upsertEdges| ==> KeyOf(patch.upsertEdges[i]) != key)
              && (Upserts(patch, key.src) ==> key.src in g.nodes) && (Upserts(patch, key.dst) ==> key.dst in g.nodes)
  {
    LastNodesKeys(patch.upsertNodes);
    LastEdgesKeys(patch.upsertEdges);
  }

  /** After a publication a fact is associated as it was just bound, or as another
      repository had bound it and the patch left it alone. */
  lemma ReboundIff(b: BoundGraph, patch: Patch, repo: string, bindings: seq<SourceBinding>, fact: FactKey)
    requires WellOwned(repo, bindings)
    ensures var after := Rebound(b, patch, repo, bindings);
            var bound := exists i :: 0 <= i < |bindings| && bindings[i].fact == fact;
            && (fact in after.rows <==>
                  bound || (fact in b.rows && b.rows[fact].repo != repo && Survives(b.graph, patch, fact)))
            && (fact in after.rows && !bound ==> after.rows[fact] == b.rows[fact])
            && (forall i :: 0 <= i < |bindings| && bindings[i].fact == fact ==> after.rows[fact] == bindings[i])
  {
    RowsOf(bindings, fact);
  }

  /** What the store accepts: at most 100,000 associations, each of the repository
      and of its own fact, none another repository holds, all describing the graph
      the patch makes, which has no dangling edge. */
  lemma PublicationAcceptedIff(b: BoundGraph, patch: Patch, repo: string, bindings: seq<SourceBinding>)
    ensures WellOwned(repo, bindings) && Bindable(b, patch, repo, bindings) <==>
            && |bindings| <= 100_000
            && (forall i :: 0 <= i < |bindings| ==>
                  && bindings[i].repo == repo
                  && (bindings[i].fact in b.rows ==> b.rows[bindings[i].fact].repo == repo)
                  && match bindings[i].fact
                     case NodeFact(id) =>
                       var h := Applied(b.graph, patch); id in h.nodes && bindings[i].digest == NodeOf(h.nodes[id])
                     case EdgeFact(key) =>
                       var h := Applied(b.graph, patch); key in h.edges && bindings[i].digest == EdgeOf(h.edges[key]))
            && (forall i, j :: 0 <= i < |bindings| && 0 <= j < |bindings| && bindings[i].fact == bindings[j].fact ==>
                  i == j)
            && (forall i :: 0 <= i < |patch.upsertEdges| ==>
                  patch.upsertEdges[i].src in Applied(b.graph, patch).nodes
                  && patch.upsertEdges[i].dst in Applied(b.graph, patch).nodes)
  {
  }

  // ---- Associations never go stale ---------------------------------------------------------------

  /** A fact no trigger noticed is the fact it was. */
  lemma SurvivorUnchanged(g: Graph, patch: Patch, fact: FactKey)
    requires Survives(g, patch, fact) && FactAt(g, fact).Some?
    ensures FactAt(Applied(g, patch), fact) == FactAt(g, fact)
  {
  }

  lemma PatchedInStep(b: BoundGraph, patch: Patch)
    requires InStep(b)
    ensures InStep(Patched(b, patch))
  {
    forall fact | fact in Patched(b, patch).rows
      ensures FactAt(Applied(b.graph, patch), fact) == Some(b.rows[fact].digest)
    {
      SurvivorUnchanged(b.graph, patch, fact);
    }
  }

  lemma ReboundInStep(b: BoundGraph, patch: Patch, repo: string, bindings: seq<SourceBinding>)
    requires InStep(b) && Bindable(b, patch, repo, bindings)
    ensures InStep(Rebound(b, patch, repo, bindings))
  {
    var after := Rebound(b, patch, repo, bindings);
    forall fact | fact in after.rows
      ensures after.rows[fact].fact == fact && FactAt(after.graph, fact) == Some(after.rows[fact].digest)
    {
      RowsOf(bindings, fact);
      if fact !in Rows(bindings) { SurvivorUnchanged(b.graph, patch, fact); }
    }
  }

  /** Either way the graph is written. */
  datatype GraphWrite = PlainWrite(patch: Patch) | BoundWrite(patch: Patch, repo: string, bindings: seq<SourceBinding>)

  predicate Admits(b: BoundGraph, write: GraphWrite) {
    match write
    case PlainWrite(patch) => Admissible(b.graph, patch)
    case BoundWrite(patch, repo, bindings) => WellOwned(repo, bindings) && Bindable(b, patch, repo, bindings)
  }

  /** A write the store refuses leaves everything as it was. */
  function After(b: BoundGraph, writes: seq<GraphWrite>): BoundGraph {
    if writes == [] then b
    else
      var before := After(b, writes[..|writes| - 1]);
      var write := writes[|writes| - 1];
      if !Admits(before, write) then before
      else match write
        case PlainWrite(patch) => Patched(before, patch)
        case BoundWrite(patch, repo, bindings) => Rebound(before, patch, repo, bindings)
  }

  /** Whatever sequence of publications and patches ran, every association
      still describes the complete fact the graph holds, and no edge dangles. */
  lemma {:induction false} AssociationsStayInStep(b: BoundGraph, writes: seq<GraphWrite>)
    requires InStep(b) && Keyed(b.graph) && NoDangling(b.graph)
    ensures var after := After(b, writes); InStep(after) && Keyed(after.graph) && NoDangling(after.graph)
  {
    if writes != [] {
      var before := After(b, writes[..|writes| - 1]);
      var write := writes[|writes| - 1];
      AssociationsStayInStep(b, writes[..|writes| - 1]);
      if Admits(before, write) {
        AppliedKeepsIntegrity(before.graph, write.patch);
        match write
        case PlainWrite(patch) => PatchedInStep(before, patch);
        case BoundWrite(patch, repo, bindings) => ReboundInStep(before, patch, repo, bindings);
      }
    }
  }

  // ---- Publishing an extraction with its receipts ---------------------------------------------------

  /** The sequence form of a load's bindings: one per bound fact. */
  ghost predicate Lists(bindings: seq<SourceBinding>, bound: map<FactKey, SourceBinding>) {
    && (forall i :: 0 <= i < |bindings| ==> bindings[i].fact in bound && bound[bindings[i].fact] == bindings[i])
    && (forall fact :: fact in bound ==> bound[fact] in bindings)
    && (forall i, j :: 0 <= i < j < |bindings| ==> bindings[i].fact != bindings[j].fact)
  }

  lemma ListedRows(bindings: seq<SourceBinding>, bound: map<FactKey, SourceBinding>, fact: FactKey)
    requires Lists(bindings, bound) && (fact in bound ==> bound[fact].fact == fact)
    ensures fact in Rows(bindings) <==> fact in bound
    ensures fact in bound ==> Rows(bindings)[fact] == bound[fact]
  {
    RowsOf(bindings, fact);
  }

  lemma DescribesListed(g: Graph, bindings: seq<SourceBinding>, bound: map<FactKey, SourceBinding>)
    requires Lists(bindings, bound) && forall fact :: fact in bound ==> bound[fact].fact == fact
    ensures Describes(g, bindings) <==> forall fact :: fact in bound ==> FactAt(g, fact) == Some(bound[fact].digest)
  {
    if Describes(g, bindings) {
      forall fact | fact in bound ensures FactAt(g, fact) == Some(bound[fact].digest) {
        assert bound[fact] in bindings;
      }
    }
  }

  /** What the load publishes is what the store then holds. */
  lemma PublishedFactsHeld(g: Graph, x: Extraction, repo: string, commit: string, fact: FactKey)
    requires Keyed(g) && NoDangling(g) && Closed(x) && FactAt(Extracted(x), fact).Some?
    ensures var cur := CurrentFacts(x, repo, commit);
            FactAt(Loaded(g, cur, repo), fact) == FactAt(Graph(cur.nodes, cur.edges), fact)
  {
    LoadPublishesExactly(g, x, repo, commit);
  }

  /** The store accepts a closed extraction's bindings exactly when there are at
      most 100,000, all of this repository, no receipt attests an own Repo node
      and no bound fact is another repository's. */
  lemma LoadBindsIff(b: BoundGraph, x: Extraction, receipts: seq<Receipt>, repo: string, commit: string,
                     patch: Patch, bindings: seq<SourceBinding>)
    requires Keyed(b.graph) && NoDangling(b.graph) && Closed(x)
    requires Applied(b.graph, patch) == Loaded(b.graph, CurrentFacts(x, repo, commit), repo)
             && Admissible(b.graph, patch)
    requires Lists(bindings, MatchingBindings(x, receipts))
    ensures WellOwned(repo, bindings) && Bindable(b, patch, repo, bindings) <==>
            && |bindings| <= MAX_BINDINGS && (forall i :: 0 <= i < |bindings| ==> bindings[i].repo == repo)
            && !AttestsOwnRepo(x, receipts, repo, commit) && Unclaimed(b, repo, bindings)
  {
    var bound := MatchingBindings(x, receipts);
    BindingsNamePublishedIff(x, receipts, repo, commit);
    forall fact | fact in bound
      ensures bound[fact].fact == fact
      ensures FactAt(Applied(b.graph, patch), fact)
              == FactAt(Graph(CurrentFacts(x, repo, commit).nodes, CurrentFacts(x, repo, commit).edges), fact)
    {
      BindingsAttested(x, receipts, fact);
      PublishedFactsHeld(b.graph, x, repo, commit, fact);
    }
    DescribesListed(Applied(b.graph, patch), bindings, bound);
  }

  /** Afterwards this repository's associations are exactly the matching ones,
      and another's are gone only where the patch touched their fact. */
  lemma LoadRebinds(b: BoundGraph, x: Extraction, receipts: seq<Receipt>, repo: string,
                    patch: Patch, bindings: seq<SourceBinding>, fact: FactKey)
    requires Lists(bindings, MatchingBindings(x, receipts)) && Unclaimed(b, repo, bindings)
    requires forall i :: 0 <= i < |receipts| ==> receipts[i].repo == repo
    ensures var bound, rows := MatchingBindings(x, receipts), Rebound(b, patch, repo, bindings).rows;
            && (fact in rows && rows[fact].repo == repo <==> fact in bound)
            && (fact in bound ==> rows[fact] == bound[fact])
            && (fact in b.rows && b.rows[fact].repo != repo ==> (fact in rows <==> Survives(b.graph, patch, fact)))
            && (fact in rows && fact !in bound ==> fact in b.rows && rows[fact] == b.rows[fact])
  {
    var bound := MatchingBindings(x, receipts);
    if fact in bound { var k := BoundToLastAttesting(Extracted(x), receipts, fact); }
    ListedRows(bindings, bound, fact);
    if fact in bound {
      assert bound[fact] in bindings;
      var i :| 0 <= i < |bindings| && bindings[i] == bound[fact];
      assert fact in b.rows ==> b.rows[bindings[i].fact].repo == repo;
    }
  }
}
