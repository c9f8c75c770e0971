/** Publishing a repository's re-extraction into the shared graph: what is
    current is written, what the repository no longer states is retracted. */
module Publication {
  import opened Wrappers
  import opened Facts
  import opened GraphStore
  import opened Collections
  import EdgeMerge

  datatype Extraction = Extraction(nodes: seq<Node>, edges: seq<Edge>)

  function RepoId(repo: string): string { "repo:" + repo }

  /** The registration's own node; it cites no evidence. */
  function RepoNode(repo: string, commit: string): Node {
    var prov := Provenance(Deterministic, Confirmed, [], "app.ingest",
                           Plain("registered-repo-v1:" + repo + ":" + commit));
    Node(RepoId(repo), "Repo", Props(Parsed(prov), false, None, None, map["commit" := Text(commit)]))
  }

  /** The facts one load states: last node per id, the Repo node, merged edges. */
  datatype Current = Current(nodes: map<string, Node>, edges: map<EdgeKey, Edge>)

  function CurrentFacts(x: Extraction, repo: string, commit: string): Current {
    Current(LastNodes(x.nodes)[RepoId(repo) := RepoNode(repo, commit)], EdgeMerge.MergeEdges(x.edges))
  }

  predicate NodeId(x: Extraction, id: string) {
    exists i :: 0 <= i < |x.nodes| && x.nodes[i].id == id
  }

  /** Every edge's endpoints are nodes of the same extraction. */
  predicate Closed(x: Extraction) {
    forall i :: 0 <= i < |x.edges| ==> NodeId(x, x.edges[i].src) && NodeId(x, x.edges[i].dst)
  }

  // ---- What a load changes ---------------------------------------------------------------

  predicate Stale(g: Graph, cur: Current, repo: string, key: EdgeKey) {
    key in g.edges && FactOwnedBy(g.edges[key].props, repo) && key !in cur.edges
  }

  function StaleEdges(g: Graph, cur: Current, repo: string): set<EdgeKey> {
    set key | key in g.edges && Stale(g, cur, repo, key)
  }

  /** The edges a load takes to survive it: those it does not retract, and its own. */
  function RemainingKeys(g: Graph, cur: Current, repo: string): set<EdgeKey> {
    (g.edges.Keys - StaleEdges(g, cur, repo)) + cur.edges.Keys
  }

  predicate HasIncident(keys: set<EdgeKey>, id: string) {
    exists key :: key in keys && Touches(key, id)
  }

  /** A node this repository alone cites, or anybody's placeholder. */
  predicate Collectable(node: Node, repo: string) {
    FactOwnedBy(node.props, repo) || node.props.placeholder
  }

  predicate Vanishes(g: Graph, cur: Current, repo: string, remaining: set<EdgeKey>, id: string) {
    && id in g.nodes && id !in cur.nodes
    && (IdOwnedBy(id, repo) || (Collectable(g.nodes[id], repo) && !HasIncident(remaining, id)))
  }

  function VanishedNodes(g: Graph, cur: Current, repo: string): set<string> {
    set id | id in g.nodes && Vanishes(g, cur, repo, RemainingKeys(g, cur, repo), id)
  }

  predicate NodeChanged(g: Graph, cur: Current, id: string) {
    id in cur.nodes && !(id in g.nodes && g.nodes[id] == cur.nodes[id])
  }

  predicate EdgeChanged(g: Graph, cur: Current, key: EdgeKey) {
    key in cur.edges && !(key in g.edges && g.edges[key] == cur.edges[key])
  }

  function NewNodes(g: Graph, cur: Current): map<string, Node> {
    map id | id in cur.nodes && NodeChanged(g, cur, id) :: cur.nodes[id]
  }

  function NewEdges(g: Graph, cur: Current): map<EdgeKey, Edge> {
    map key | key in cur.edges && EdgeChanged(g, cur, key) :: cur.edges[key]
  }

  function Rewritten(g: Graph, gone: set<string>, stale: set<EdgeKey>, nodes: map<string, Node>,
                     edges: map<EdgeKey, Edge>): Graph {
    Graph(
      (map id | id in g.nodes && id !in gone :: g.nodes[id]) + nodes,
      (map key | key in g.edges && key !in stale && key.src !in gone && key.dst !in gone :: g.edges[key]) + edges)
  }

  /** The graph a load leaves. */
  function Loaded(g: Graph, cur: Current, repo: string): Graph {
    Rewritten(g, VanishedNodes(g, cur, repo), StaleEdges(g, cur, repo), NewNodes(g, cur), NewEdges(g, cur))
  }

  lemma PatchRewrites(g: Graph, patch: Patch, gone: set<string>, stale: set<EdgeKey>)
    requires forall id :: id in patch.deleteNodeIds <==> id in gone
    requires forall key :: key in patch.deleteEdges <==> key in stale
    ensures Applied(g, patch) == Rewritten(g, gone, stale, LastNodes(patch.upsertNodes), LastEdges(patch.upsertEdges))
  {
    assert (map id | id in g.nodes && id !in patch.deleteNodeIds :: g.nodes[id])
        == (map id | id in g.nodes && id !in gone :: g.nodes[id]);
    assert (map key | key in g.edges && !Retracts(patch, key) :: g.edges[key])
        == (map key | key in g.edges && key !in stale && key.src !in gone && key.dst !in gone :: g.edges[key]);
  }

  // ---- Counting what was collapsed ---------------------------------------------------------

  datatype MergedFacts = MergedFacts(nodes: int, edges: int, nodeCollisions: int)

  datatype PublishedFacts = PublishedFacts(nodes: set<string>, edges: set<EdgeKey>, merged: MergedFacts)

  datatype Stats = Stats(insertedOrUpdated: nat, kept: nat, deleted: nat, published: PublishedFacts)

  /** Ids emitted with differing facts. */
  ghost predicate Collides(nodes: seq<Node>, id: string) {
    exists i, j :: 0 <= i < j < |nodes| && nodes[i].id == id && nodes[j].id == id && nodes[i] != nodes[j]
  }

  function Merged(x: Extraction, colliding: set<string>): MergedFacts {
    MergedFacts(|x.nodes| - |LastNodes(x.nodes)|, |x.edges| - |EdgeMerge.Keys(x.edges)|, |colliding|)
  }

  function CollidingIds(nodes: seq<Node>): set<string> {
    if nodes == [] then {}
    else
      var front, node := nodes[..|nodes| - 1], nodes[|nodes| - 1];
      CollidingIds(front)
      + (if node.id in LastNodes(front) && LastNodes(front)[node.id] != node then {node.id} else {})
  }

  lemma {:induction false} LastOfAgreeing(nodes: seq<Node>, id: string)
    requires !Collides(nodes, id)
    ensures forall i :: 0 <= i < |nodes| && nodes[i].id == id ==>
            id in LastNodes(nodes) && LastNodes(nodes)[id] == nodes[i]
  {
    if nodes != [] {
      var front := nodes[..|nodes| - 1];
      assert forall i :: 0 <= i < |front| ==> front[i] == nodes[i];
      LastOfAgreeing(front, id);
    }
  }

  lemma CollidesSnoc(front: seq<Node>, node: Node, id: string)
    ensures Collides(front + [node], id) <==>
            Collides(front, id) || (node.id == id && exists i ::
                0 <= i < |front| && front[i].id == id && front[i] != node)
  {
    var nodes := front + [node];
    if Collides(front, id) {
      var i, j :| 0 <= i < j < |front| && front[i].id == id && front[j].id == id && front[i] != front[j];
      assert nodes[i] == front[i] && nodes[j] == front[j];
    }
    if i :| node.id == id && 0 <= i < |front| && front[i].id == id && front[i] != node {
      assert nodes[i] == front[i] && nodes[|front|] == node;
    }
  }

  /** Comparing each node with the one it replaces finds exactly the ids that
      were emitted with differing facts. */
  lemma {:induction false} CollidingIdsCollide(nodes: seq<Node>, id: string)
    ensures id in CollidingIds(nodes) <==> Collides(nodes, id)
  {
    if nodes != [] {
      var front, node := nodes[..|nodes| - 1], nodes[|nodes| - 1];
      CollidingIdsCollide(front, id);
      CollidesSnoc(front, node, id);
      assert nodes == front + [node];
      LastNodesKeys(front);
      if !Collides(front, id) { LastOfAgreeing(front, id); }
    }
  }

  // ---- The host's loops -----------------------------------------------------------------------

  method CollectNodes(nodes: seq<Node>) returns (current: map<string, Node>, colliding: set<string>)
    ensures current == LastNodes(nodes)
    ensures forall id :: id in colliding <==> Collides(nodes, id)
  {
    current, colliding := map[], {};
    for k := 0 to |nodes|
      invariant current == LastNodes(nodes[..k]) && colliding == CollidingIds(nodes[..k])
    {
      var node := nodes[k];
      assert nodes[..k + 1][..k] == nodes[..k];
      if node.id in current && current[node.id] != node { colliding := colliding + {node.id}; }
      current := current[node.id := node];
    }
    assert nodes[..|nodes|] == nodes;
    forall id ensures id in colliding <==> Collides(nodes, id) { CollidingIdsCollide(nodes, id); }
  }

  lemma {:induction false} LastNodesOfDistinct(ids: seq<string>, rows: map<string, Node>)
    requires NoDup(ids) && forall i :: 0 <= i < |ids| ==> ids[i] in rows && rows[ids[i]].id == ids[i]
    ensures LastNodes(seq(|ids|, i requires 0 <= i < |ids| => rows[ids[i]])) == (map id | id in ids :: rows[id])
  {
    if ids != [] {
      var front := ids[..|ids| - 1];
      var all := seq(|ids|, i requires 0 <= i < |ids| => rows[ids[i]]);
      assert all[..|ids| - 1] == seq(|front|, i requires 0 <= i < |front| => rows[front[i]]);
      LastNodesOfDistinct(front, rows);
      assert ids == front + [ids[|ids| - 1]];
    }
  }

  lemma {:induction false} LastEdgesOfDistinct(keys: seq<EdgeKey>, rows: map<EdgeKey, Edge>)
    requires NoDup(keys) && forall i :: 0 <= i < |keys| ==> keys[i] in rows && KeyOf(rows[keys[i]]) == keys[i]
    ensures LastEdges(seq(|keys|, i requires 0 <= i < |keys| => rows[keys[i]])) == (map key | key in keys :: rows[key])
  {
    if keys != [] {
      var front := keys[..|keys| - 1];
      var all := seq(|keys|, i requires 0 <= i < |keys| => rows[keys[i]]);
      assert all[..|keys| - 1] == seq(|front|, i requires 0 <= i < |front| => rows[front[i]]);
      LastEdgesOfDistinct(front, rows);
      assert keys == front + [keys[|keys| - 1]];
    }
  }

  /** The changed nodes, one per id. */
  method ChangedNodes(g: Graph, cur: Current) returns (nodes: seq<Node>)
    requires forall id :: id in cur.nodes ==> cur.nodes[id].id == id
    ensures LastNodes(nodes) == NewNodes(g, cur) && |nodes| == |NewNodes(g, cur)|
  {
    var ids := Select(cur.nodes.Keys, id => NodeChanged(g, cur, id));
    LastNodesOfDistinct(ids, cur.nodes);
    DistinctCount(ids, NewNodes(g, cur).Keys);
    nodes := seq(|ids|, i requires 0 <= i < |ids| => cur.nodes[ids[i]]);
  }

  method ChangedEdges(g: Graph, cur: Current) returns (edges: seq<Edge>)
    requires forall key :: key in cur.edges ==> KeyOf(cur.edges[key]) == key
    ensures LastEdges(edges) == NewEdges(g, cur) && |edges| == |NewEdges(g, cur)|
  {
    var keys := Select(cur.edges.Keys, key => EdgeChanged(g, cur, key));
    LastEdgesOfDistinct(keys, cur.edges);
    DistinctCount(keys, NewEdges(g, cur).Keys);
    edges := seq(|keys|, i requires 0 <= i < |keys| => cur.edges[keys[i]]);
  }

  /** Everything a load retracts. */
  method Retractions(g: Graph, cur: Current, repo: string) returns (stale: seq<EdgeKey>, gone: seq<string>)
    ensures forall key :: key in stale <==> key in StaleEdges(g, cur, repo)
    ensures forall id :: id in gone <==> id in VanishedNodes(g, cur, repo)
    ensures |stale| == |StaleEdges(g, cur, repo)| && |gone| == |VanishedNodes(g, cur, repo)|
  {
    stale := Select(g.edges.Keys, key => Stale(g, cur, repo, key));
    DistinctCount(stale, StaleEdges(g, cur, repo));
    var remaining := (set key | key in g.edges && key !in stale) + cur.edges.Keys;
    assert remaining == RemainingKeys(g, cur, repo);
    gone := Select(g.nodes.Keys, id => Vanishes(g, cur, repo, remaining, id));
    DistinctCount(gone, VanishedNodes(g, cur, repo));
  }

  lemma CurrentKeyed(x: Extraction, repo: string, commit: string)
    ensures var cur := CurrentFacts(x, repo, commit);
            && (forall id :: id in cur.nodes ==> cur.nodes[id].id == id)
            && (forall key :: key in cur.edges ==> KeyOf(cur.edges[key]) == key)
            && (forall key :: key in cur.edges <==> key in EdgeMerge.Keys(x.edges))
            && (Closed(x) ==> forall key :: key in cur.edges ==> key.src in cur.nodes && key.dst in cur.nodes)
  {
    LastNodesKeys(x.nodes);
    forall key | key in EdgeMerge.Keys(x.edges)
      ensures KeyOf(EdgeMerge.MergeEdges(x.edges)[key]) == key
    {
      EdgeMerge.GroupNonEmpty(x.edges, key);
      var group := EdgeMerge.Group(x.edges, key);
      assert KeyOf(EdgeMerge.MergeGroup(group)) == KeyOf(group[|group| - 1]);
    }
  }

  /** Reconcile an extraction with the stored graph. `meanwhile` is the graph at
      the moment of the write: the one just read, unless another writer won. */
  method LoadIntoGraph(store: SqliteGraphStore, x: Extraction, repo: string, commit: string, meanwhile: Graph)
    returns (result: Result<Stats, string>)
    modifies store
    ensures result.Ok? ==> meanwhile == old(store.graph)
    ensures result.Err? ==> store.graph == meanwhile
    ensures Closed(x) ==> (result.Ok? <==> meanwhile == old(store.graph))
    ensures result.Ok? ==>
              var g, cur := old(store.graph), CurrentFacts(x, repo, commit);
              && store.graph == Loaded(g, cur, repo)
              && result.value.published.nodes == cur.nodes.Keys && result.value.published.edges == cur.edges.Keys
              && result.value.insertedOrUpdated == |NewNodes(g, cur)| + |NewEdges(g, cur)|
              && result.value.insertedOrUpdated + result.value.kept == |cur.nodes| + |cur.edges|
              && result.value.deleted == |StaleEdges(g, cur, repo)| + |VanishedNodes(g, cur, repo)|
              && exists colliding :: (forall id :: id in colliding <==> Collides(x.nodes, id))
                                     && result.value.published.merged == Merged(x, colliding)
  {
    var cur, colliding := CollectFacts(x, repo, commit);
    var expected := store.graph;
    var patch := Reconcile(expected, cur, repo);
    LoadIsAdmissible(expected, cur, repo, patch);
    store.graph := meanwhile;
    var applied := store.ApplyPatchIfSnapshotMatches(expected, patch);
    if applied != Ok(true) { return Err("graph changed or rejected the patch"); }
    var written := |patch.upsertNodes| + |patch.upsertEdges|;
    ChangedCount(expected, cur);
    result := Ok(Stats(written, |cur.nodes| + |cur.edges| - written, |patch.deleteEdges| + |patch.deleteNodeIds|,
                       PublishedFacts(cur.nodes.Keys, cur.edges.Keys, Merged(x, colliding))));
  }

  /** What this load states. */
  method CollectFacts(x: Extraction, repo: string, commit: string) returns (cur: Current, colliding: set<string>)
    ensures cur == CurrentFacts(x, repo, commit)
    ensures forall id :: id in colliding <==> Collides(x.nodes, id)
    ensures forall id :: id in cur.nodes ==> cur.nodes[id].id == id
    ensures forall key :: key in cur.edges ==> KeyOf(cur.edges[key]) == key
    ensures Closed(x) ==> forall key :: key in cur.edges ==> key.src in cur.nodes && key.dst in cur.nodes
  {
    var nodes;
    nodes, colliding := CollectNodes(x.nodes);
    var edges := EdgeMerge.MergeEdgeOccurrences(x.edges);
    CurrentKeyed(x, repo, commit);
    cur := Current(nodes[RepoId(repo) := RepoNode(repo, commit)], edges);
  }

  /** The patch that turns the stored graph into the loaded one. */
  method Reconcile(g: Graph, cur: Current, repo: string) returns (patch: Patch)
    requires forall id :: id in cur.nodes ==> cur.nodes[id].id == id
    requires forall key :: key in cur.edges ==> KeyOf(cur.edges[key]) == key
    ensures Applied(g, patch) == Loaded(g, cur, repo)
    ensures LastEdges(patch.upsertEdges) == NewEdges(g, cur)
    ensures |patch.upsertNodes| == |NewNodes(g, cur)| && |patch.upsertEdges| == |NewEdges(g, cur)|
    ensures |patch.deleteEdges| == |StaleEdges(g, cur, repo)| && |patch.deleteNodeIds| == |VanishedNodes(g, cur, repo)|
  {
    var stale, gone := Retractions(g, cur, repo);
    var upsertNodes := ChangedNodes(g, cur);
    var upsertEdges := ChangedEdges(g, cur);
    patch := Patch(upsertNodes, upsertEdges, gone, stale);
    PatchRewrites(g, patch, VanishedNodes(g, cur, repo), StaleEdges(g, cur, repo));
  }

  lemma ChangedCount(g: Graph, cur: Current)
    ensures |NewNodes(g, cur)| <= |cur.nodes| && |NewEdges(g, cur)| <= |cur.edges|
  {
    SubsetCount(NewNodes(g, cur).Keys, cur.nodes.Keys);
    SubsetCount(NewEdges(g, cur).Keys, cur.edges.Keys);
  }

  lemma LoadIsAdmissible(g: Graph, cur: Current, repo: string, patch: Patch)
    requires Applied(g, patch) == Loaded(g, cur, repo) && LastEdges(patch.upsertEdges) == NewEdges(g, cur)
    ensures (forall key :: key in cur.edges ==> key.src in cur.nodes && key.dst in cur.nodes) ==> Admissible(g, patch)
  {
    LastEdgesKeys(patch.upsertEdges);
    CurrentNodesStay(g, cur, repo);
    forall i | 0 <= i < |patch.upsertEdges| ensures KeyOf(patch.upsertEdges[i]) in NewEdges(g, cur) {
      assert KeyOf(patch.upsertEdges[i]) in LastEdges(patch.upsertEdges);
    }
  }

  lemma CurrentNodesStay(g: Graph, cur: Current, repo: string)
    ensures forall id :: id in cur.nodes ==>
            id in Loaded(g, cur, repo).nodes && Loaded(g, cur, repo).nodes[id] == cur.nodes[id]
  {
    forall id | id in cur.nodes
      ensures id in Loaded(g, cur, repo).nodes && Loaded(g, cur, repo).nodes[id] == cur.nodes[id]
    {
      assert NodeChanged(g, cur, id) || (id in g.nodes && g.nodes[id] == cur.nodes[id]);
      assert id !in VanishedNodes(g, cur, repo);
    }
  }
}
