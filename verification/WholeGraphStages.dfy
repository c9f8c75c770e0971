/** The stages that run over the whole graph after every load: stitching
    observed infrastructure to channels, and relinking found decision records. */
module WholeGraphStages {
  import opened Wrappers
  import opened Facts
  import opened GraphStore
  import opened Collections
  import OperationFacts
  import Publication

  // ---- BACKS edges ---------------------------------------------------------------------

  const STATE_EXTRACTOR := "t1.terraform-state"
  const PULUMI_EXTRACTOR := "t1.pulumi-deployment"

  function ExtractorOf(props: Props): Option<string> {
    match props.prov
    case Unattributed => None
    case Unparsed(extractor) => extractor
    case Parsed(prov) => Some(prov.extractor)
  }

  predicate ObservedBacking(edge: Edge) {
    edge.kind == "BACKS" && ExtractorOf(edge.props) in {Some(STATE_EXTRACTOR), Some(PULUMI_EXTRACTOR)}
  }

  /** Proposals come from resources of the graph, stating what was observed. */
  predicate Proposals(g: Graph, proposed: seq<Edge>) {
    forall i :: 0 <= i < |proposed| ==> ObservedBacking(proposed[i]) && proposed[i].src in g.nodes
  }

  /** The proposed edges whose channel is in the graph, last one per key. */
  function Candidates(g: Graph, proposed: seq<Edge>): map<EdgeKey, Edge> {
    if proposed == [] then map[]
    else
      var edge := proposed[|proposed| - 1];
      var earlier := Candidates(g, proposed[..|proposed| - 1]);
      if edge.dst in g.nodes then earlier[KeyOf(edge) := edge] else earlier
  }

  predicate Unbacked(g: Graph, candidates: map<EdgeKey, Edge>, key: EdgeKey) {
    key in g.edges && ObservedBacking(g.edges[key]) && key !in candidates
  }

  function Stitched(g: Graph, proposed: seq<Edge>): Graph {
    var candidates := Candidates(g, proposed);
    g.(edges := (map key | key in g.edges && !Unbacked(g, candidates, key) :: g.edges[key]) + candidates)
  }

  function StitchedTally(t: OperationFacts.Tally, g: Graph, proposed: seq<Edge>): OperationFacts.Tally {
    var candidates := Candidates(g, proposed);
    t.(edges := (set key | key in t.edges && !Unbacked(g, candidates, key)) + candidates.Keys)
  }

  method CurrentCandidates(g: Graph, proposed: seq<Edge>) returns (candidates: map<EdgeKey, Edge>)
    ensures candidates == Candidates(g, proposed)
  {
    candidates := map[];
    for i := 0 to |proposed|
      invariant candidates == Candidates(g, proposed[..i])
    {
      assert proposed[..i + 1][..i] == proposed[..i];
      if proposed[i].dst in g.nodes { candidates := candidates[KeyOf(proposed[i]) := proposed[i]]; }
    }
    assert proposed[..|proposed|] == proposed;
  }

  method UnbackedKeys(g: Graph, candidates: map<EdgeKey, Edge>) returns (dropped: seq<EdgeKey>)
    ensures forall key :: key in dropped <==> Unbacked(g, candidates, key)
  {
    dropped := Select(g.edges.Keys, key => Unbacked(g, candidates, key));
  }

  method StitchBackings(store: SqliteGraphStore, facts: OperationFacts.Recorder, proposed: seq<Edge>)
    returns (linked: nat)
    modifies store, facts
    ensures store.graph == Stitched(old(store.graph), proposed)
    ensures facts.View() == StitchedTally(old(facts.View()), old(store.graph), proposed)
    ensures linked == |Candidates(old(store.graph), proposed)|
  {
    var candidates := CurrentCandidates(store.graph, proposed);
    var dropped := UnbackedKeys(store.graph, candidates);
    var edges := DropKeys(store.graph.edges, dropped);
    var published := (set key | key in facts.edges && key !in dropped) + candidates.Keys;
    DroppedRows(facts.View(), store.graph, proposed, dropped);
    store.graph := store.graph.(edges := edges + candidates);
    facts.edges := published;
    linked := |candidates|;
  }

  lemma DroppedRows(t: OperationFacts.Tally, g: Graph, proposed: seq<Edge>, dropped: seq<EdgeKey>)
    requires forall key :: key in dropped <==> Unbacked(g, Candidates(g, proposed), key)
    ensures var candidates := Candidates(g, proposed);
            && Stitched(g, proposed)
               == g.(edges := (map key | key in g.edges && key !in dropped :: g.edges[key]) + candidates)
            && StitchedTally(t, g, proposed)
               == t.(edges := (set key | key in t.edges && key !in dropped) + candidates.Keys)
  {
    var candidates := Candidates(g, proposed);
    assert (map key | key in g.edges && key !in dropped :: g.edges[key])
        == (map key | key in g.edges && !Unbacked(g, candidates, key) :: g.edges[key]);
    assert (set key | key in t.edges && key !in dropped) == (set key | key in t.edges && !Unbacked(g, candidates, key));
  }

  method DropKeys(rows: map<EdgeKey, Edge>, keys: seq<EdgeKey>) returns (kept: map<EdgeKey, Edge>)
    ensures kept == (map key | key in rows && key !in keys :: rows[key])
  {
    kept := rows;
    for i := 0 to |keys|
      invariant kept == (map key | key in rows && key !in keys[..i] :: rows[key])
    {
      assert keys[..i + 1] == keys[..i] + [keys[i]];
      kept := kept - {keys[i]};
    }
    assert keys[..|keys|] == keys;
  }

  lemma {:induction false} CandidatesOf(g: Graph, proposed: seq<Edge>)
    requires Proposals(g, proposed)
    ensures forall key :: key in Candidates(g, proposed) ==>
              var edge := Candidates(g, proposed)[key];
              KeyOf(edge) == key && ObservedBacking(edge) && key.src in g.nodes && key.dst in g.nodes
  {
    if proposed != [] { CandidatesOf(g, proposed[..|proposed| - 1]); }
  }

  /** Proposal `i` names the key and a channel of the graph, and no later one does. */
  ghost predicate LastProposal(g: Graph, proposed: seq<Edge>, key: EdgeKey, i: nat) {
    && i < |proposed| && KeyOf(proposed[i]) == key && proposed[i].dst in g.nodes
    && forall j :: i < j < |proposed| && KeyOf(proposed[j]) == key ==> proposed[j].dst !in g.nodes
  }

  /** Some proposal names the key and a channel of the graph. */
  predicate Linked(g: Graph, proposed: seq<Edge>, key: EdgeKey) {
    exists i :: 0 <= i < |proposed| && KeyOf(proposed[i]) == key && proposed[i].dst in g.nodes
  }

  lemma LinkedSnoc(g: Graph, front: seq<Edge>, edge: Edge, key: EdgeKey)
    ensures Linked(g, front + [edge], key) <==> Linked(g, front, key) || (KeyOf(edge) == key && edge.dst in g.nodes)
  {
    var all := front + [edge];
    assert forall i :: 0 <= i < |front| ==> all[i] == front[i];
    assert all[|front|] == edge;
  }

  /** The candidates are exactly the proposals whose channel is in the graph ... */
  lemma {:induction false} CandidatesIff(g: Graph, proposed: seq<Edge>, key: EdgeKey)
    ensures key in Candidates(g, proposed) <==> Linked(g, proposed, key)
  {
    if proposed != [] {
      var front, last := proposed[..|proposed| - 1], proposed[|proposed| - 1];
      CandidatesIff(g, front, key);
      LinkedSnoc(g, front, last, key);
      assert proposed == front + [last];
    }
  }

  /** ... the last of each key. */
  lemma {:induction false} CandidateIsLast(g: Graph, proposed: seq<Edge>, key: EdgeKey, i: nat)
    requires LastProposal(g, proposed, key, i)
    ensures key in Candidates(g, proposed) && Candidates(g, proposed)[key] == proposed[i]
  {
    if i < |proposed| - 1 { CandidateIsLast(g, proposed[..|proposed| - 1], key, i); }
  }

  /** What counts as observed: a BACKS edge of either state reader, whether or not
      the rest of its provenance parses. */
  lemma ObservedIff(edge: Edge)
    ensures ObservedBacking(edge) <==>
            && edge.kind == "BACKS"
            && match edge.props.prov
               case Parsed(prov) => prov.extractor == "t1.terraform-state" || prov.extractor == "t1.pulumi-deployment"
               case Unparsed(extractor) =>
                 extractor == Some("t1.terraform-state") || extractor == Some("t1.pulumi-deployment")
               case Unattributed => false
  {
  }

  /** Candidates depend on the nodes alone. */
  lemma {:induction false} CandidatesByNodes(g: Graph, h: Graph, proposed: seq<Edge>)
    requires g.nodes == h.nodes
    ensures Candidates(g, proposed) == Candidates(h, proposed)
  {
    if proposed != [] { CandidatesByNodes(g, h, proposed[..|proposed| - 1]); }
  }

  /** Afterwards an edge is there exactly when it is proposed for a channel of the
      graph, and then as last proposed, or was there and not observed. */
  lemma StitchedIff(g: Graph, proposed: seq<Edge>, key: EdgeKey)
    ensures var h := Stitched(g, proposed);
            && h.nodes == g.nodes
            && (key in h.edges <==> Linked(g, proposed, key) || (key in g.edges && !ObservedBacking(g.edges[key])))
            && (key in h.edges && !Linked(g, proposed, key) ==> h.edges[key] == g.edges[key])
            && (forall i: nat :: LastProposal(g, proposed, key, i) ==> key in h.edges && h.edges[key] == proposed[i])
  {
    CandidatesIff(g, proposed, key);
    forall i: nat | LastProposal(g, proposed, key, i)
      ensures key in Candidates(g, proposed) && Candidates(g, proposed)[key] == proposed[i]
    {
      CandidateIsLast(g, proposed, key, i);
    }
  }

  /** The observed BACKS edges are then exactly those proposed for a channel of the
      graph, and the graph stays keyed and closed. */
  lemma StitchingIsExact(g: Graph, proposed: seq<Edge>)
    requires Keyed(g) && NoDangling(g) && Proposals(g, proposed)
    ensures var h := Stitched(g, proposed);
            && Keyed(h) && NoDangling(h)
            && forall key :: key in h.edges && ObservedBacking(h.edges[key]) <==> Linked(g, proposed, key)
  {
    CandidatesOf(g, proposed);
    forall key ensures key in Candidates(g, proposed) <==> Linked(g, proposed, key) { CandidatesIff(g, proposed, key); }
  }

  /** Stitching again with the same observations changes nothing. */
  lemma StitchingIsIdempotent(g: Graph, proposed: seq<Edge>)
    ensures Stitched(Stitched(g, proposed), proposed) == Stitched(g, proposed)
  {
    var h := Stitched(g, proposed);
    CandidatesByNodes(g, h, proposed);
    RestitchedEdges(g.edges, h.edges, Candidates(g, proposed));
  }

  lemma RestitchedEdges(g: map<EdgeKey, Edge>, h: map<EdgeKey, Edge>, candidates: map<EdgeKey, Edge>)
    requires h == (map key | key in g && !(ObservedBacking(g[key]) && key !in candidates) :: g[key]) + candidates
    ensures h == (map key | key in h && !(ObservedBacking(h[key]) && key !in candidates) :: h[key]) + candidates
  {
  }

  lemma StitchKeepsMatch(t: OperationFacts.Tally, g: Graph, proposed: seq<Edge>)
    requires OperationFacts.Matches(t, g)
    ensures OperationFacts.Matches(StitchedTally(t, g, proposed), Stitched(g, proposed))
  {
  }

  // ---- Any sequence of stages -----------------------------------------------------------------

  /** A whole-graph stage of a recovery. */
  datatype Stage = Stitch(proposed: seq<Edge>) | Relink(patch: Patch)

  function StoreAfter(g: Graph, stages: seq<Stage>): Graph {
    if stages == [] then g
    else
      var before := StoreAfter(g, stages[..|stages| - 1]);
      match stages[|stages| - 1]
      case Stitch(proposed) => Stitched(before, proposed)
      case Relink(patch) => Applied(before, patch)
  }

  function TallyAfter(t: OperationFacts.Tally, g: Graph, stages: seq<Stage>): OperationFacts.Tally {
    if stages == [] then t
    else
      var front := stages[..|stages| - 1];
      match stages[|stages| - 1]
      case Stitch(proposed) => StitchedTally(TallyAfter(t, g, front), StoreAfter(g, front), proposed)
      case Relink(patch) => OperationFacts.RecordPatch(TallyAfter(t, g, front), patch)
  }

  lemma {:induction false} StagesKeepMatch(t: OperationFacts.Tally, g: Graph, stages: seq<Stage>)
    requires OperationFacts.Matches(t, g)
    ensures OperationFacts.Matches(TallyAfter(t, g, stages), StoreAfter(g, stages))
  {
    if stages != [] {
      var front := stages[..|stages| - 1];
      StagesKeepMatch(t, g, front);
      match stages[|stages| - 1]
      case Stitch(proposed) => StitchKeepsMatch(TallyAfter(t, g, front), StoreAfter(g, front), proposed);
      case Relink(patch) => OperationFacts.PatchKeepsMatch(TallyAfter(t, g, front), StoreAfter(g, front), patch);
    }
  }

  /** A whole first ingest: however many repositories are loaded and whatever
      stages then run, the operation's key sets are the store's. */
  lemma OperationQuotesStore(loads: seq<OperationFacts.LoadOf>, stages: seq<Stage>)
    requires OperationFacts.FirstIngest(loads)
    ensures var g := OperationFacts.Store(Graph(map[], map[]), loads);
            OperationFacts.Matches(TallyAfter(OperationFacts.Recorded(loads), g, stages), StoreAfter(g, stages))
  {
    OperationFacts.SummaryQuotesStore(loads);
    StagesKeepMatch(OperationFacts.Recorded(loads), OperationFacts.Store(Graph(map[], map[]), loads), stages);
  }

  // ---- Found decision records --------------------------------------------------------------

  datatype Update = Update(repo: string, nodes: seq<Node>, edges: seq<Edge>)

  function AdrPrefix(repo: string): string { "adr:" + repo + "@" }

  predicate FoundAdr(g: Graph, repo: string, id: string) {
    && id in g.nodes && g.nodes[id].kind == "ADR"
    && AdrPrefix(repo) <= id && g.nodes[id].props.origin == Some("found")
  }

  predicate States(u: Update, id: string) {
    exists i :: 0 <= i < |u.nodes| && u.nodes[i].id == id
  }

  /** The link edges an update takes over. */
  predicate Governs(g: Graph, u: Update, key: EdgeKey) {
    key in g.edges && key.kind == "DECIDES" && (FoundAdr(g, u.repo, key.src) || States(u, key.src))
  }

  predicate Gone(g: Graph, u: Update, id: string) {
    FoundAdr(g, u.repo, id) && !States(u, id)
  }

  function AllNodes(updates: seq<Update>): seq<Node> {
    if updates == [] then [] else AllNodes(updates[..|updates| - 1]) + updates[|updates| - 1].nodes
  }

  function AllEdges(updates: seq<Update>): seq<Edge> {
    if updates == [] then [] else AllEdges(updates[..|updates| - 1]) + updates[|updates| - 1].edges
  }

  ghost predicate IsAdrPatch(g: Graph, updates: seq<Update>, patch: Patch) {
    && (forall key :: key in patch.deleteEdges <==> exists k :: 0 <= k < |updates| && Governs(g, updates[k], key))
    && (forall id :: id in patch.deleteNodeIds <==> exists k :: 0 <= k < |updates| && Gone(g, updates[k], id))
    && patch.upsertNodes == AllNodes(updates) && patch.upsertEdges == AllEdges(updates)
  }

  method FoundAdrPatch(g: Graph, updates: seq<Update>) returns (patch: Patch, linked: nat)
    ensures IsAdrPatch(g, updates, patch) && linked == |AllEdges(updates)|
  {
    patch, linked := EMPTY_PATCH, 0;
    for n := 0 to |updates|
      invariant IsAdrPatch(g, updates[..n], patch) && linked == |AllEdges(updates[..n])|
    {
      var u := updates[n];
      var links := Select(g.edges.Keys, key => Governs(g, u, key));
      var gone := Select(g.nodes.Keys, id => Gone(g, u, id));
      var next := Patch(patch.upsertNodes + u.nodes, patch.upsertEdges + u.edges,
                        patch.deleteNodeIds + gone, patch.deleteEdges + links);
      AdrPatchSnoc(g, updates[..n], u, patch, next, links, gone);
      assert updates[..n + 1] == updates[..n] + [u];
      patch, linked := next, linked + |u.edges|;
    }
    assert updates[..|updates|] == updates;
  }

  lemma AdrPatchSnoc(g: Graph, updates: seq<Update>, u: Update, patch: Patch, next: Patch, links: seq<EdgeKey>,
                     gone: seq<string>)
    requires IsAdrPatch(g, updates, patch)
    requires forall key :: key in links <==> Governs(g, u, key)
    requires forall id :: id in gone <==> Gone(g, u, id)
    requires next == Patch(patch.upsertNodes + u.nodes, patch.upsertEdges + u.edges,
                           patch.deleteNodeIds + gone, patch.deleteEdges + links)
    ensures IsAdrPatch(g, updates + [u], next) && |AllEdges(updates + [u])| == |AllEdges(updates)| + |u.edges|
  {
    var all := updates + [u];
    assert all[..|updates|] == updates && all[|updates|] == u;
    forall key ensures key in next.deleteEdges <==> exists k :: 0 <= k < |all| && Governs(g, all[k], key) {
      if k :| 0 <= k < |updates| && Governs(g, updates[k], key) { assert Governs(g, all[k], key); }
    }
    forall id ensures id in next.deleteNodeIds <==> exists k :: 0 <= k < |all| && Gone(g, all[k], id) {
      if k :| 0 <= k < |updates| && Gone(g, updates[k], id) { assert Gone(g, all[k], id); }
    }
  }

  /** Each update states found records of its own repository, and links that
      start at them. */
  ghost predicate FoundUpdates(updates: seq<Update>) {
    && (forall k, i :: 0 <= k < |updates| && 0 <= i < |updates[k].nodes| ==>
          var node := updates[k].nodes[i];
          node.kind == "ADR" && node.props.origin == Some("found") && AdrPrefix(updates[k].repo) <= node.id)
    && (forall k, i :: 0 <= k < |updates| && 0 <= i < |updates[k].edges| ==>
          updates[k].edges[i].kind == "DECIDES" && States(updates[k], updates[k].edges[i].src))
  }

  /** Some update states the record. */
  predicate StatedBySome(updates: seq<Update>, id: string) {
    exists k :: 0 <= k < |updates| && States(updates[k], id)
  }

  /** A stated record that falls under the prefix of a repository which does not
      state it. */
  predicate Overlapped(updates: seq<Update>, id: string) {
    StatedBySome(updates, id)
    && exists k :: 0 <= k < |updates| && AdrPrefix(updates[k].repo) <= id && !States(updates[k], id)
  }

  lemma SharedPrefixOverlaps(a: string, b: string, id: string)
    requires AdrPrefix(a) <= id && AdrPrefix(b) <= id
    ensures ScopesOverlap(a, b)
  {
    assert AdrPrefix(a) == "adr:" + (a + "@") && AdrPrefix(b) == "adr:" + (b + "@");
    assert a + "@" <= id[4..] && b + "@" <= id[4..];
  }

  /** Found updates of different repositories whose keys hold no separator never
      overlap. */
  lemma PlainKeysNeverOverlap(updates: seq<Update>, id: string)
    requires FoundUpdates(updates)
    requires forall k :: 0 <= k < |updates| ==> '@' !in updates[k].repo
    requires forall j, k :: 0 <= j < k < |updates| ==> updates[j].repo != updates[k].repo
    ensures !Overlapped(updates, id)
  {
    forall j, k | 0 <= j < |updates| && 0 <= k < |updates| && States(updates[j], id) && AdrPrefix(updates[k].repo) <= id
      ensures j == k
    {
      var a, b := updates[j].repo, updates[k].repo;
      SharedPrefixOverlaps(a, b, id);
      if a != b {
        if |a| <= |b| { OverlapNeedsSeparator(a, b); } else { OverlapNeedsSeparator(b, a); }
      }
    }
  }

  lemma {:induction false} LastNodesAppend(a: seq<Node>, b: seq<Node>)
    ensures LastNodes(a + b) == LastNodes(a) + LastNodes(b)
  {
    if b == [] {
      assert a + b == a;
    } else {
      assert (a + b)[..|a + b| - 1] == a + b[..|b| - 1];
      LastNodesAppend(a, b[..|b| - 1]);
    }
  }

  lemma {:induction false} LastEdgesAppend(a: seq<Edge>, b: seq<Edge>)
    ensures LastEdges(a + b) == LastEdges(a) + LastEdges(b)
  {
    if b == [] {
      assert a + b == a;
    } else {
      assert (a + b)[..|a + b| - 1] == a + b[..|b| - 1];
      LastEdgesAppend(a, b[..|b| - 1]);
    }
  }

  lemma {:induction false} StatedNodes(updates: seq<Update>, id: string)
    ensures id in LastNodes(AllNodes(updates)) <==> exists k :: 0 <= k < |updates| && States(updates[k], id)
  {
    if updates != [] {
      var front, u := updates[..|updates| - 1], updates[|updates| - 1];
      StatedNodes(front, id);
      LastNodesAppend(AllNodes(front), u.nodes);
      LastNodesKeys(u.nodes);
      if k :| 0 <= k < |front| && States(front[k], id) { assert updates[k] == front[k]; }
    }
  }

  /** Every link the updates write is a decision of a record they state. */
  lemma {:induction false} LinksStartAtRecords(updates: seq<Update>, key: EdgeKey)
    requires FoundUpdates(updates) && key in LastEdges(AllEdges(updates))
    ensures key.kind == "DECIDES" && StatedBySome(updates, key.src)
  {
    LastEdgesKeys(AllEdges(updates));
    var i: nat :| i < |AllEdges(updates)| && KeyOf(AllEdges(updates)[i]) == key;
    var k, j := UpdateOf(updates, i);
    assert States(updates[k], updates[k].edges[j].src);
  }

  /** Record by record: what the patch leaves under a repository's prefix. */
  lemma FoundAfter(g: Graph, updates: seq<Update>, patch: Patch, k: nat, id: string)
    requires Keyed(g) && FoundUpdates(updates) && IsAdrPatch(g, updates, patch) && k < |updates|
    ensures FoundAdr(Applied(g, patch), updates[k].repo, id) <==>
            AdrPrefix(updates[k].repo) <= id && exists j :: 0 <= j < |updates| && States(updates[j], id)
  {
    StatedNodes(updates, id);
    LastNodesKeys(AllNodes(updates));
    if j :| 0 <= j < |updates| && States(updates[j], id) {
      AllFound(updates, LastNodes(AllNodes(updates))[id]);
    } else if FoundAdr(g, updates[k].repo, id) {
      assert Gone(g, updates[k], id);
    }
  }

  lemma {:induction false} AllFound(updates: seq<Update>, node: Node)
    requires FoundUpdates(updates) && node in AllNodes(updates)
    ensures node.kind == "ADR" && node.props.origin == Some("found")
  {
    var front, u := updates[..|updates| - 1], updates[|updates| - 1];
    if node in AllNodes(front) {
      AllFound(front, node);
    } else {
      var i :| 0 <= i < |u.nodes| && u.nodes[i] == node;
    }
  }

  /** Every updated repository is left with exactly its newly found records iff
      no record overlaps. */
  lemma RelinkNodesExactIff(g: Graph, updates: seq<Update>, patch: Patch)
    requires Keyed(g) && FoundUpdates(updates) && IsAdrPatch(g, updates, patch)
    ensures (forall k, id :: 0 <= k < |updates| ==>
               (FoundAdr(Applied(g, patch), updates[k].repo, id) <==> States(updates[k], id)))
            <==>
            (forall id :: !Overlapped(updates, id))
  {
    var h := Applied(g, patch);
    forall k: nat, id | k < |updates|
      ensures (FoundAdr(h, updates[k].repo, id) <==> States(updates[k], id)) <==>
              !(AdrPrefix(updates[k].repo) <= id && StatedBySome(updates, id) && !States(updates[k], id))
    {
      FoundAfter(g, updates, patch, k, id);
      if States(updates[k], id) { assert StatedBySome(updates, id); }
    }
    if !forall id :: !Overlapped(updates, id) {
      var id :| Overlapped(updates, id);
      var k :| 0 <= k < |updates| && AdrPrefix(updates[k].repo) <= id && !States(updates[k], id);
      assert FoundAdr(h, updates[k].repo, id);
    } else {
      forall k: nat, id | k < |updates| ensures FoundAdr(h, updates[k].repo, id) <==> States(updates[k], id) {
        assert !Overlapped(updates, id);
      }
    }
  }

  /** Whatever the updates, the records they state and the links of those records
      are afterwards exactly the stated ones, the last statement winning. */
  lemma RelinkIsUnion(g: Graph, updates: seq<Update>, patch: Patch)
    requires FoundUpdates(updates) && IsAdrPatch(g, updates, patch)
    ensures var h := Applied(g, patch);
            && (forall id :: StatedBySome(updates, id) ==>
                  && id in LastNodes(AllNodes(updates)) && id in h.nodes
                  && h.nodes[id] == LastNodes(AllNodes(updates))[id])
            && (forall key: EdgeKey :: key.kind == "DECIDES" && StatedBySome(updates, key.src) ==>
                  && (key in h.edges <==> key in LastEdges(AllEdges(updates)))
                  && (key in h.edges ==> h.edges[key] == LastEdges(AllEdges(updates))[key]))
  {
    var h := Applied(g, patch);
    forall id | StatedBySome(updates, id) ensures id in LastNodes(AllNodes(updates)) { StatedNodes(updates, id); }
    forall key: EdgeKey | key.kind == "DECIDES" && StatedBySome(updates, key.src)
      ensures key in h.edges <==> key in LastEdges(AllEdges(updates))
    {
      var k :| 0 <= k < |updates| && States(updates[k], key.src);
      assert key in g.edges ==> Governs(g, updates[k], key);
    }
  }

  /** A decision record found in some updated repository's files. */
  predicate FoundInScope(g: Graph, updates: seq<Update>, id: string) {
    && id in g.nodes && g.nodes[id].kind == "ADR" && g.nodes[id].props.origin == Some("found")
    && exists k :: 0 <= k < |updates| && "adr:" + updates[k].repo + "@" <= id
  }

  lemma FoundInScopeIff(g: Graph, updates: seq<Update>, id: string)
    ensures FoundInScope(g, updates, id) <==> exists k :: 0 <= k < |updates| && FoundAdr(g, updates[k].repo, id)
  {
    if FoundInScope(g, updates, id) {
      var k :| 0 <= k < |updates| && "adr:" + updates[k].repo + "@" <= id;
      assert FoundAdr(g, updates[k].repo, id);
    }
  }

  /** Record by record: afterwards a node is there exactly when it is stated, or
      was there and was not a found record of an updated repository. Curated
      records and everything else stay. */
  lemma RelinkedNodeIff(g: Graph, updates: seq<Update>, patch: Patch, id: string)
    requires IsAdrPatch(g, updates, patch)
    ensures id in Applied(g, patch).nodes <==>
            StatedBySome(updates, id) || (id in g.nodes && !FoundInScope(g, updates, id))
  {
    StatedNodes(updates, id);
    FoundInScopeIff(g, updates, id);
    if !StatedBySome(updates, id) {
      assert forall k :: 0 <= k < |updates| ==> (Gone(g, updates[k], id) <==> FoundAdr(g, updates[k].repo, id));
    }
  }

  /** Some update writes the link. */
  predicate Written(updates: seq<Update>, key: EdgeKey) {
    exists k, i :: 0 <= k < |updates| && 0 <= i < |updates[k].edges| && KeyOf(updates[k].edges[i]) == key
  }

  lemma {:induction false} WrittenIff(updates: seq<Update>, key: EdgeKey)
    ensures key in LastEdges(AllEdges(updates)) <==> Written(updates, key)
  {
    LastEdgesKeys(AllEdges(updates));
    if key in LastEdges(AllEdges(updates)) {
      var i: nat :| i < |AllEdges(updates)| && KeyOf(AllEdges(updates)[i]) == key;
      var k, j := UpdateOf(updates, i);
    }
    if Written(updates, key) {
      var k, i :| 0 <= k < |updates| && 0 <= i < |updates[k].edges| && KeyOf(updates[k].edges[i]) == key;
      WrittenIsGathered(updates, k, i);
    }
  }

  lemma {:induction false} WrittenIsGathered(updates: seq<Update>, k: nat, i: nat)
    requires k < |updates| && i < |updates[k].edges|
    ensures updates[k].edges[i] in AllEdges(updates)
  {
    if k < |updates| - 1 { WrittenIsGathered(updates[..|updates| - 1], k, i); }
  }

  /** The record is found in scope and no longer stated by a repository it
      falls under. */
  predicate Withdrawn(g: Graph, updates: seq<Update>, id: string) {
    && id in g.nodes && g.nodes[id].kind == "ADR" && g.nodes[id].props.origin == Some("found")
    && exists k :: 0 <= k < |updates| && "adr:" + updates[k].repo + "@" <= id && !States(updates[k], id)
  }

  lemma WithdrawnIff(g: Graph, updates: seq<Update>, id: string)
    ensures Withdrawn(g, updates, id) <==> exists k :: 0 <= k < |updates| && Gone(g, updates[k], id)
  {
    if Withdrawn(g, updates, id) {
      var k :| 0 <= k < |updates| && "adr:" + updates[k].repo + "@" <= id && !States(updates[k], id);
      assert Gone(g, updates[k], id);
    }
  }

  /** Link by link: afterwards an edge is there exactly when it is written, or was
      there, is no decision of a record found or stated, and touches no withdrawn
      record. */
  lemma RelinkedEdgeIff(g: Graph, updates: seq<Update>, patch: Patch, key: EdgeKey)
    requires IsAdrPatch(g, updates, patch)
    ensures key in Applied(g, patch).edges <==>
            || Written(updates, key)
            || (&& key in g.edges
                && !(key.kind == "DECIDES" && (FoundInScope(g, updates, key.src) || StatedBySome(updates, key.src)))
                && !Withdrawn(g, updates, key.src) && !Withdrawn(g, updates, key.dst))
  {
    WrittenIff(updates, key);
    WithdrawnIff(g, updates, key.src);
    WithdrawnIff(g, updates, key.dst);
    FoundInScopeIff(g, updates, key.src);
    assert key in patch.deleteEdges <==>
           && key in g.edges && key.kind == "DECIDES"
           && (FoundInScope(g, updates, key.src) || StatedBySome(updates, key.src));
  }

  /** No other node changes. */
  lemma RelinkKeepsNodes(g: Graph, updates: seq<Update>, patch: Patch, id: string)
    requires IsAdrPatch(g, updates, patch)
    requires forall k :: 0 <= k < |updates| ==> !FoundAdr(g, updates[k].repo, id) && !States(updates[k], id)
    ensures var h := Applied(g, patch);
            && (id in h.nodes <==> id in g.nodes)
            && (id in g.nodes ==> h.nodes[id] == g.nodes[id])
  {
    StatedNodes(updates, id);
    assert forall k :: 0 <= k < |updates| ==> !Gone(g, updates[k], id);
  }

  /** No other edge changes, but for those incident to removed records. */
  lemma RelinkKeepsEdges(g: Graph, updates: seq<Update>, patch: Patch, key: EdgeKey)
    requires FoundUpdates(updates) && IsAdrPatch(g, updates, patch)
    requires key.kind != "DECIDES"
             || forall k :: 0 <= k < |updates| ==>
                 !FoundAdr(g, updates[k].repo, key.src) && !States(updates[k], key.src)
    ensures var h := Applied(g, patch);
            && (key in h.edges <==>
                  key in g.edges
                  && forall k :: 0 <= k < |updates| ==> !Gone(g, updates[k], key.src) && !Gone(g, updates[k], key.dst))
            && (key in h.edges ==> h.edges[key] == g.edges[key])
  {
    if key in LastEdges(AllEdges(updates)) { LinksStartAtRecords(updates, key); }
    assert forall k :: 0 <= k < |updates| ==> !Governs(g, updates[k], key);
  }

  lemma DeletedAgain(g: Graph, updates: seq<Update>, patch: Patch, id: string)
    requires Keyed(g) && FoundUpdates(updates) && IsAdrPatch(g, updates, patch)
    ensures (exists k :: 0 <= k < |updates| && Gone(Applied(g, patch), updates[k], id)) <==> Overlapped(updates, id)
  {
    forall k: nat | k < |updates|
      ensures Gone(Applied(g, patch), updates[k], id) <==>
              AdrPrefix(updates[k].repo) <= id && StatedBySome(updates, id) && !States(updates[k], id)
    {
      FoundAfter(g, updates, patch, k, id);
    }
  }

  /** The links the second patch takes over are the ones it writes again. */
  lemma GovernedAgain(g: Graph, updates: seq<Update>, patch: Patch, k: nat, key: EdgeKey)
    requires Keyed(g) && FoundUpdates(updates) && IsAdrPatch(g, updates, patch) && k < |updates|
    requires Governs(Applied(g, patch), updates[k], key)
    ensures key in LastEdges(AllEdges(updates))
  {
    FoundAfter(g, updates, patch, k, key.src);
    assert StatedBySome(updates, key.src);
    RelinkIsUnion(g, updates, patch);
  }

  /** A patch that deletes only what it writes again, or edges of `gone` nodes
      that it writes again, changes nothing but the other edges of those nodes. */
  lemma AppliedAgain(h: Graph, patch: Patch)
    requires forall id :: id in patch.deleteNodeIds ==> id in LastNodes(patch.upsertNodes)
    requires forall key :: key in patch.deleteEdges ==> key in LastEdges(patch.upsertEdges)
    requires forall id :: id in LastNodes(patch.upsertNodes) ==>
             id in h.nodes && h.nodes[id] == LastNodes(patch.upsertNodes)[id]
    requires forall key :: key in LastEdges(patch.upsertEdges) ==>
               key in h.edges && h.edges[key] == LastEdges(patch.upsertEdges)[key]
    ensures Applied(h, patch) == h <==>
            forall key :: key in h.edges && key !in LastEdges(patch.upsertEdges) ==>
              key.src !in patch.deleteNodeIds && key.dst !in patch.deleteNodeIds
  {
    var r := Applied(h, patch);
    assert r.nodes == h.nodes;
    if forall key :: key in h.edges && key !in LastEdges(patch.upsertEdges) ==>
         key.src !in patch.deleteNodeIds && key.dst !in patch.deleteNodeIds
    {
      assert r.edges == h.edges;
    } else {
      var key :| key in h.edges && key !in LastEdges(patch.upsertEdges)
                 && (key.src in patch.deleteNodeIds || key.dst in patch.deleteNodeIds);
      assert key !in r.edges;
    }
  }

  /** An edge that survives the first patch without being one of its links. */
  predicate Bystander(g: Graph, updates: seq<Update>, patch: Patch, key: EdgeKey) {
    key in g.edges && !Retracts(patch, key) && key !in LastEdges(AllEdges(updates))
  }

  /** Relinking again with the same updates is a no-op exactly when no other edge
      touches a record that overlaps another updated repository. */
  lemma RelinkIsIdempotentIff(g: Graph, updates: seq<Update>, patch: Patch, again: Patch)
    requires Keyed(g) && FoundUpdates(updates) && IsAdrPatch(g, updates, patch)
    requires IsAdrPatch(Applied(g, patch), updates, again)
    ensures Applied(Applied(g, patch), again) == Applied(g, patch) <==>
            forall key :: Bystander(g, updates, patch, key) ==>
                !Overlapped(updates, key.src) && !Overlapped(updates, key.dst)
  {
    var h := Applied(g, patch);
    forall id ensures id in again.deleteNodeIds <==> Overlapped(updates, id) { DeletedAgain(g, updates, patch, id); }
    forall id | id in again.deleteNodeIds ensures id in LastNodes(again.upsertNodes) { StatedNodes(updates, id); }
    forall key | key in again.deleteEdges ensures key in LastEdges(again.upsertEdges) {
      var k: nat :| k < |updates| && Governs(h, updates[k], key);
      GovernedAgain(g, updates, patch, k, key);
    }
    AppliedAgain(h, again);
    forall key ensures Bystander(g, updates, patch, key) <==> key in h.edges && key !in LastEdges(again.upsertEdges) { }
  }

  // ---- Keys that overlap ---------------------------------------------------------------------------

  function SampleRecord(): Node {
    Node("adr:a@b@x", "ADR", Props(Unattributed, false, Some("found"), None, map[]))
  }

  /** Two updated repositories, one key a prefix of the other at the separator. */
  function OverlappingUpdates(): seq<Update> { [Update("a", [], []), Update("a@b", [SampleRecord()], [])] }

  /** The graph that holds their registrations. */
  function TwoRepos(): Graph {
    Graph(map[Publication.RepoId("a") := Publication.RepoNode("a", "c"),
              Publication.RepoId("a@b") := Publication.RepoNode("a@b", "c")], map[])
  }

  lemma OverlapUnions()
    ensures AllNodes(OverlappingUpdates()) == [SampleRecord()] && AllEdges(OverlappingUpdates()) == []
  {
    var updates := OverlappingUpdates();
    var one := updates[..1];
    assert one == [Update("a", [], [])] && one[..0] == [];
    assert AllNodes(one) == AllNodes([]) + one[0].nodes && AllEdges(one) == AllEdges([]) + one[0].edges;
    assert AllNodes(updates) == AllNodes(one) + updates[1].nodes;
    assert AllEdges(updates) == AllEdges(one) + updates[1].edges;
  }

  lemma OverlapPrefixes()
    ensures AdrPrefix("a") <= "adr:a@b@x" && AdrPrefix("a@b") <= "adr:a@b@x"
    ensures forall id :: !States(OverlappingUpdates()[0], id)
    ensures forall id :: States(OverlappingUpdates()[1], id) <==> id == "adr:a@b@x"
  {
    assert OverlappingUpdates()[1].nodes[0].id == "adr:a@b@x";
  }

  lemma RecordIsLast()
    ensures LastNodes([SampleRecord()]) == map["adr:a@b@x" := SampleRecord()]
  {
    assert [SampleRecord()][..0] == [];
  }

  /** Neither registration is a decision record. */
  lemma OverlapIsPatch()
    ensures FoundUpdates(OverlappingUpdates())
    ensures IsAdrPatch(TwoRepos(), OverlappingUpdates(), Patch([SampleRecord()], [], [], []))
  {
    OverlapUnions();
    OverlapPrefixes();
    assert forall repo, id :: !FoundAdr(TwoRepos(), repo, id);
  }

  /** Repository `a` is then left with a record it does not state. */
  lemma OverlapBreaksExactness()
    ensures var updates, patch := OverlappingUpdates(), Patch([SampleRecord()], [], [], []);
            var g := TwoRepos();
            && (forall u :: u in updates ==> Publication.RepoId(u.repo) in g.nodes)
            && FoundUpdates(updates) && IsAdrPatch(g, updates, patch)
            && FoundAdr(Applied(g, patch), "a", "adr:a@b@x") && !States(updates[0], "adr:a@b@x")
  {
    OverlapIsPatch();
    OverlapPrefixes();
    RecordIsLast();
  }

  /** Links to facts that are in the graph and are no decision records are
      always admitted. */
  lemma RelinkIsAdmissible(g: Graph, updates: seq<Update>, patch: Patch)
    requires FoundUpdates(updates) && IsAdrPatch(g, updates, patch)
    requires forall k, i :: 0 <= k < |updates| && 0 <= i < |updates[k].edges| ==>
               var dst := updates[k].edges[i].dst; dst in g.nodes && g.nodes[dst].kind != "ADR"
    ensures Admissible(g, patch)
  {
    forall i | 0 <= i < |patch.upsertEdges|
      ensures patch.upsertEdges[i].src in Applied(g, patch).nodes && patch.upsertEdges[i].dst in Applied(g, patch).nodes
    {
      var k, j := UpdateOf(updates, i);
      StatedNodes(updates, patch.upsertEdges[i].src);
    }
  }

  lemma {:induction false} UpdateOf(updates: seq<Update>, i: nat) returns (k: nat, j: nat)
    requires i < |AllEdges(updates)|
    ensures k < |updates| && j < |updates[k].edges| && updates[k].edges[j] == AllEdges(updates)[i]
  {
    var front := updates[..|updates| - 1];
    if i < |AllEdges(front)| {
      k, j := UpdateOf(front, i);
    } else {
      k, j := |updates| - 1, i - |AllEdges(front)|;
    }
  }
}
