/** The graph store: keyed facts, and patches applied in one transaction
    against an expected snapshot. */
module GraphStore {
  import opened Wrappers
  import opened Facts

  datatype Graph = Graph(nodes: map<string, Node>, edges: map<EdgeKey, Edge>)

  datatype Patch = Patch(
    upsertNodes: seq<Node>,
    upsertEdges: seq<Edge>,
    deleteNodeIds: seq<string>,
    deleteEdges: seq<EdgeKey>)

  const EMPTY_PATCH := Patch([], [], [], [])

  /** Rows are stored under their own keys. */
  predicate Keyed(g: Graph) {
    && (forall id :: id in g.nodes ==> g.nodes[id].id == id)
    && (forall key :: key in g.edges ==> KeyOf(g.edges[key]) == key)
  }

  /** The foreign keys of the edge table. */
  predicate NoDangling(g: Graph) {
    forall key :: key in g.edges ==> key.src in g.nodes && key.dst in g.nodes
  }

  // ---- Last occurrence wins ---------------------------------------------------------

  function LastNodes(nodes: seq<Node>): map<string, Node> {
    if nodes == [] then map[]
    else LastNodes(nodes[..|nodes| - 1])[nodes[|nodes| - 1].id := nodes[|nodes| - 1]]
  }

  function LastEdges(edges: seq<Edge>): map<EdgeKey, Edge> {
    if edges == [] then map[]
    else LastEdges(edges[..|edges| - 1])[KeyOf(edges[|edges| - 1]) := edges[|edges| - 1]]
  }

  lemma {:induction false} LastNodesKeys(nodes: seq<Node>)
    ensures forall id :: id in LastNodes(nodes) <==> exists i :: 0 <= i < |nodes| && nodes[i].id == id
    ensures forall id :: id in LastNodes(nodes) ==> LastNodes(nodes)[id].id == id && LastNodes(nodes)[id] in nodes
  {
    if nodes != [] {
      var front := nodes[..|nodes| - 1];
      LastNodesKeys(front);
      assert nodes == front + [nodes[|nodes| - 1]];
      forall id ensures id in LastNodes(nodes) <==> exists i :: 0 <= i < |nodes| && nodes[i].id == id {
        if i :| 0 <= i < |front| && front[i].id == id { assert nodes[i].id == id; }
      }
    }
  }

  lemma {:induction false} LastEdgesKeys(edges: seq<Edge>)
    ensures forall key :: key in LastEdges(edges) <==> exists i :: 0 <= i < |edges| && KeyOf(edges[i]) == key
    ensures forall key :: key in LastEdges(edges) ==>
            KeyOf(LastEdges(edges)[key]) == key && LastEdges(edges)[key] in edges
  {
    if edges != [] {
      var front := edges[..|edges| - 1];
      LastEdgesKeys(front);
      assert edges == front + [edges[|edges| - 1]];
      forall key ensures key in LastEdges(edges) <==> exists i :: 0 <= i < |edges| && KeyOf(edges[i]) == key {
        if i :| 0 <= i < |front| && KeyOf(front[i]) == key { assert KeyOf(edges[i]) == key; }
      }
    }
  }

  // ---- Patch semantics ------------------------------------------------------------------

  /** The edges a patch retracts: named ones, and those of deleted nodes. */
  predicate Retracts(patch: Patch, key: EdgeKey) {
    key in patch.deleteEdges || key.src in patch.deleteNodeIds || key.dst in patch.deleteNodeIds
  }

  /** Deletions first, then upserts. */
  function Applied(g: Graph, patch: Patch): Graph {
    Graph(
      (map id | id in g.nodes && id !in patch.deleteNodeIds :: g.nodes[id]) + LastNodes(patch.upsertNodes),
      (map key | key in g.edges && !Retracts(patch, key) :: g.edges[key]) + LastEdges(patch.upsertEdges))
  }

  /** Every upserted edge finds both endpoints once the nodes are written. */
  predicate Admissible(g: Graph, patch: Patch) {
    forall i :: 0 <= i < |patch.upsertEdges| ==>
      patch.upsertEdges[i].src in Applied(g, patch).nodes && patch.upsertEdges[i].dst in Applied(g, patch).nodes
  }

  /** No patch the store admits can leave an edge without its endpoints. */
  lemma AppliedKeepsIntegrity(g: Graph, patch: Patch)
    requires Keyed(g) && NoDangling(g) && Admissible(g, patch)
    ensures Keyed(Applied(g, patch)) && NoDangling(Applied(g, patch))
  {
    LastNodesKeys(patch.upsertNodes);
    LastEdgesKeys(patch.upsertEdges);
  }

  /** Node `i` is the last of its id. */
  ghost predicate LastOfId(nodes: seq<Node>, id: string, i: nat) {
    i < |nodes| && nodes[i].id == id && forall j :: i < j < |nodes| ==> nodes[j].id != id
  }

  ghost predicate LastOfKey(edges: seq<Edge>, key: EdgeKey, i: nat) {
    i < |edges| && KeyOf(edges[i]) == key && forall j :: i < j < |edges| ==> KeyOf(edges[j]) != key
  }

  lemma {:induction false} LastNodeIs(nodes: seq<Node>, id: string, i: nat)
    requires LastOfId(nodes, id, i)
    ensures id in LastNodes(nodes) && LastNodes(nodes)[id] == nodes[i]
  {
    if i < |nodes| - 1 { LastNodeIs(nodes[..|nodes| - 1], id, i); }
  }

  lemma {:induction false} LastEdgeIs(edges: seq<Edge>, key: EdgeKey, i: nat)
    requires LastOfKey(edges, key, i)
    ensures key in LastEdges(edges) && LastEdges(edges)[key] == edges[i]
  {
    if i < |edges| - 1 { LastEdgeIs(edges[..|edges| - 1], key, i); }
  }

  /** A node is there afterwards exactly when it is upserted, and then as last
      upserted, or was there and is not deleted, and then unchanged. */
  lemma NodePatched(g: Graph, patch: Patch, id: string)
    ensures var h := Applied(g, patch);
            var upserted := exists i :: 0 <= i < |patch.upsertNodes| && patch.upsertNodes[i].id == id;
            && (id in h.nodes <==> upserted || (id in g.nodes && id !in patch.deleteNodeIds))
            && (id in h.nodes && !upserted ==> h.nodes[id] == g.nodes[id])
            && (forall i: nat :: LastOfId(patch.upsertNodes, id, i) ==> h.nodes[id] == patch.upsertNodes[i])
  {
    LastNodesKeys(patch.upsertNodes);
    forall i: nat | LastOfId(patch.upsertNodes, id, i) ensures Applied(g, patch).nodes[id] == patch.upsertNodes[i] {
      LastNodeIs(patch.upsertNodes, id, i);
    }
  }

  /** An edge is there afterwards exactly when it is upserted, and then as last
      upserted, or was there and neither it nor an endpoint is deleted. */
  lemma EdgePatched(g: Graph, patch: Patch, key: EdgeKey)
    ensures var h := Applied(g, patch);
            var upserted := exists i :: 0 <= i < |patch.upsertEdges| && KeyOf(patch.upsertEdges[i]) == key;
            && (key in h.edges <==>
                  || upserted
                  || (key in g.edges && key !in patch.deleteEdges
                      && key.src !in patch.deleteNodeIds && key.dst !in patch.deleteNodeIds))
            && (key in h.edges && !upserted ==> h.edges[key] == g.edges[key])
            && (forall i: nat :: LastOfKey(patch.upsertEdges, key, i) ==> h.edges[key] == patch.upsertEdges[i])
  {
    LastEdgesKeys(patch.upsertEdges);
    forall i: nat | LastOfKey(patch.upsertEdges, key, i) ensures Applied(g, patch).edges[key] == patch.upsertEdges[i] {
      LastEdgeIs(patch.upsertEdges, key, i);
    }
  }

  class SqliteGraphStore {
    var graph: Graph

    constructor ()
      ensures graph == Graph(map[], map[])
    {
      graph := Graph(map[], map[]);
    }

    /** Apply the patch if the graph is still the one the caller read. A stale
        snapshot returns false; an edge without endpoints rolls everything back. */
    method ApplyPatchIfSnapshotMatches(expected: Graph, patch: Patch) returns (result: Result<bool, string>)
      modifies this
      ensures result == Ok(false) <==> old(graph) != expected
      ensures result == Ok(true) <==> old(graph) == expected && Admissible(expected, patch)
      ensures graph == if result == Ok(true) then Applied(old(graph), patch) else old(graph)
    {
      if graph != expected { return Ok(false); }
      var nodes, edges := DeleteRows(graph, patch);
      nodes := UpsertNodes(nodes, patch.upsertNodes);
      var written := UpsertEdges(edges, nodes, patch.upsertEdges);
      if written.None? { return Err("storage: foreign key"); }
      graph := Graph(nodes, written.value);
      result := Ok(true);
    }
  }

  method UpsertNodes(rows: map<string, Node>, nodes: seq<Node>) returns (written: map<string, Node>)
    ensures written == rows + LastNodes(nodes)
  {
    written := rows;
    for i := 0 to |nodes|
      invariant written == rows + LastNodes(nodes[..i])
    {
      assert nodes[..i + 1][..i] == nodes[..i];
      written := written[nodes[i].id := nodes[i]];
    }
    assert nodes[..|nodes|] == nodes;
  }

  method UpsertEdges(rows: map<EdgeKey, Edge>, nodes: map<string, Node>, edges: seq<Edge>)
    returns (written: Option<map<EdgeKey, Edge>>)
    ensures written.Some? <==> forall i :: 0 <= i < |edges| ==> edges[i].src in nodes && edges[i].dst in nodes
    ensures written.Some? ==> written.value == rows + LastEdges(edges)
  {
    var done := rows;
    for i := 0 to |edges|
      invariant done == rows + LastEdges(edges[..i])
      invariant forall k :: 0 <= k < i ==> edges[k].src in nodes && edges[k].dst in nodes
    {
      if edges[i].src !in nodes || edges[i].dst !in nodes { return None; }
      assert edges[..i + 1][..i] == edges[..i];
      done := done[KeyOf(edges[i]) := edges[i]];
    }
    assert edges[..|edges|] == edges;
    written := Some(done);
  }

  method DeleteEdgeRows(rows: map<EdgeKey, Edge>, keys: seq<EdgeKey>) returns (left: map<EdgeKey, Edge>)
    ensures left == (map key | key in rows && key !in keys :: rows[key])
  {
    left := rows;
    for i := 0 to |keys|
      invariant left == (map key | key in rows && key !in keys[..i] :: rows[key])
    {
      assert keys[..i + 1] == keys[..i] + [keys[i]];
      left := left - {keys[i]};
    }
    assert keys[..|keys|] == keys;
  }

  /** Deleting a node takes its edges along. */
  method DeleteNodeRows(g: Graph, ids: seq<string>) returns (nodes: map<string, Node>, edges: map<EdgeKey, Edge>)
    ensures nodes == (map id | id in g.nodes && id !in ids :: g.nodes[id])
    ensures edges == (map key | key in g.edges && key.src !in ids && key.dst !in ids :: g.edges[key])
  {
    nodes, edges := g.nodes, g.edges;
    for i := 0 to |ids|
      invariant nodes == (map id | id in g.nodes && id !in ids[..i] :: g.nodes[id])
      invariant edges == (map key | key in g.edges && key.src !in ids[..i] && key.dst !in ids[..i] :: g.edges[key])
    {
      assert ids[..i + 1] == ids[..i] + [ids[i]];
      edges := map key | key in edges && !Touches(key, ids[i]) :: edges[key];
      nodes := nodes - {ids[i]};
    }
    assert ids[..|ids|] == ids;
  }

  /** The deletions of a patch, row by row. */
  method DeleteRows(g: Graph, patch: Patch) returns (nodes: map<string, Node>, edges: map<EdgeKey, Edge>)
    ensures nodes == (map id | id in g.nodes && id !in patch.deleteNodeIds :: g.nodes[id])
    ensures edges == (map key | key in g.edges && !Retracts(patch, key) :: g.edges[key])
  {
    var kept := DeleteEdgeRows(g.edges, patch.deleteEdges);
    nodes, edges := DeleteNodeRows(Graph(g.nodes, kept), patch.deleteNodeIds);
  }
}
