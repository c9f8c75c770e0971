/** The fact keys one recovery operation published, across each repository it
    loaded and each whole-graph stage it ran: what every summary quotes. */
module OperationFacts {
  import opened Wrappers
  import opened Facts
  import opened GraphStore
  import opened Publication
  import opened PublicationTheorems
  import EdgeMerge

  datatype Tally = Tally(nodes: set<string>, edges: set<EdgeKey>, merged: MergedFacts)

  const NOTHING := Tally({}, {}, MergedFacts(0, 0, 0))

  /** A key two repositories publish is one stored fact; the repeat is merged. */
  function RecordLoad(t: Tally, loaded: PublishedFacts): Tally {
    Tally(t.nodes + loaded.nodes, t.edges + loaded.edges,
          MergedFacts(t.merged.nodes + loaded.merged.nodes + |t.nodes * loaded.nodes|,
                      t.merged.edges + loaded.merged.edges + |t.edges * loaded.edges|,
                      t.merged.nodeCollisions + loaded.merged.nodeCollisions))
  }

  /** A later stage republishes or retracts keys in the store's own order. */
  function RecordPatch(t: Tally, patch: Patch): Tally {
    t.(nodes := (set id | id in t.nodes && id !in patch.deleteNodeIds) + LastNodes(patch.upsertNodes).Keys,
       edges := (set key | key in t.edges && !Retracts(patch, key)) + LastEdges(patch.upsertEdges).Keys)
  }

  class Recorder {
    var nodes: set<string>
    var edges: set<EdgeKey>
    var merged: MergedFacts

    function View(): Tally
      reads this
    {
      Tally(nodes, edges, merged)
    }

    constructor ()
      ensures View() == NOTHING
    {
      nodes, edges, merged := {}, {}, MergedFacts(0, 0, 0);
    }

    method Load(loaded: PublishedFacts)
      modifies this
      ensures View() == RecordLoad(old(View()), loaded)
    {
      merged := MergedFacts(merged.nodes + loaded.merged.nodes, merged.edges + loaded.merged.edges,
                            merged.nodeCollisions + loaded.merged.nodeCollisions);
      var repeats := 0;
      nodes, repeats := InsertAll(nodes, loaded.nodes);
      merged := merged.(nodes := merged.nodes + repeats);
      edges, repeats := InsertAll(edges, loaded.edges);
      merged := merged.(edges := merged.edges + repeats);
    }

    method Patch(patch: Patch)
      modifies this
      ensures View() == RecordPatch(old(View()), patch)
    {
      for i := 0 to |patch.deleteEdges|
        invariant nodes == old(nodes) && merged == old(merged)
        invariant edges == set key | key in old(edges) && key !in patch.deleteEdges[..i]
      {
        assert patch.deleteEdges[..i + 1] == patch.deleteEdges[..i] + [patch.deleteEdges[i]];
        edges := edges - {patch.deleteEdges[i]};
      }
      for i := 0 to |patch.deleteNodeIds|
        invariant merged == old(merged)
        invariant nodes == set id | id in old(nodes) && id !in patch.deleteNodeIds[..i]
        invariant edges == set key | key in old(edges) && key !in patch.deleteEdges
                                     && key.src !in patch.deleteNodeIds[..i] && key.dst !in patch.deleteNodeIds[..i]
      {
        var id := patch.deleteNodeIds[i];
        assert patch.deleteNodeIds[..i + 1] == patch.deleteNodeIds[..i] + [id];
        nodes := nodes - {id};
        edges := set key | key in edges && !Touches(key, id);
      }
      UpsertedKeys(patch);
      nodes := nodes + set i | 0 <= i < |patch.upsertNodes| :: patch.upsertNodes[i].id;
      edges := edges + set i | 0 <= i < |patch.upsertEdges| :: KeyOf(patch.upsertEdges[i]);
    }
  }

  lemma UpsertedKeys(patch: Patch)
    ensures (set i | 0 <= i < |patch.upsertNodes| :: patch.upsertNodes[i].id) == LastNodes(patch.upsertNodes).Keys
    ensures (set i | 0 <= i < |patch.upsertEdges| :: KeyOf(patch.upsertEdges[i])) == LastEdges(patch.upsertEdges).Keys
  {
    LastNodesKeys(patch.upsertNodes);
    LastEdgesKeys(patch.upsertEdges);
  }

  /** Insert keys one by one, counting those already present. */
  method InsertAll<K>(into: set<K>, keys: set<K>) returns (all: set<K>, repeats: nat)
    ensures all == into + keys && repeats == |into * keys|
  {
    all, repeats := into, 0;
    var todo := keys;
    while todo != {}
      invariant todo <= keys && all == into + (keys - todo)
      invariant repeats == |into * (keys - todo)|
    {
      var key :| key in todo;
      assert keys - (todo - {key}) == (keys - todo) + {key};
      if key in all {
        assert into * (keys - (todo - {key})) == into * (keys - todo) + {key};
        repeats := repeats + 1;
      } else {
        assert into * (keys - (todo - {key})) == into * (keys - todo);
        all := all + {key};
      }
      todo := todo - {key};
    }
    assert keys - {} == keys;
  }

  // ---- Stages keep the tally and the store together -------------------------------------------

  predicate Matches(t: Tally, g: Graph) {
    t.nodes == g.nodes.Keys && t.edges == g.edges.Keys
  }

  lemma PatchKeepsMatch(t: Tally, g: Graph, patch: Patch)
    requires Matches(t, g)
    ensures Matches(RecordPatch(t, patch), Applied(g, patch))
  {
  }

  // ---- A sequence of loads -----------------------------------------------------------------------

  datatype LoadOf = LoadOf(x: Extraction, repo: string, commit: string)

  function FactsOf(l: LoadOf): Current { CurrentFacts(l.x, l.repo, l.commit) }

  ghost function Colliding(x: Extraction): set<string> { CollidingIds(x.nodes) }

  ghost function Published(l: LoadOf): PublishedFacts {
    PublishedFacts(FactsOf(l).nodes.Keys, FactsOf(l).edges.Keys, Merged(l.x, Colliding(l.x)))
  }

  function Store(g: Graph, loads: seq<LoadOf>): Graph {
    if loads == [] then g
    else var front := loads[..|loads| - 1]; var l := loads[|loads| - 1];
         Loaded(Store(g, front), FactsOf(l), l.repo)
  }

  ghost function Recorded(loads: seq<LoadOf>): Tally {
    if loads == [] then NOTHING
    else RecordLoad(Recorded(loads[..|loads| - 1]), Published(loads[|loads| - 1]))
  }

  function RawNodes(loads: seq<LoadOf>): nat {
    if loads == [] then 0 else RawNodes(loads[..|loads| - 1]) + |loads[|loads| - 1].x.nodes|
  }

  function RawEdges(loads: seq<LoadOf>): nat {
    if loads == [] then 0 else RawEdges(loads[..|loads| - 1]) + |loads[|loads| - 1].x.edges|
  }

  predicate EmitsOwnRepo(l: LoadOf) { NodeId(l.x, RepoId(l.repo)) }

  function OwnRepoEmitters(loads: seq<LoadOf>): nat {
    if loads == [] then 0
    else OwnRepoEmitters(loads[..|loads| - 1]) + if EmitsOwnRepo(loads[|loads| - 1]) then 1 else 0
  }

  lemma PublishedCounts(l: LoadOf)
    ensures |Published(l).nodes| + Published(l).merged.nodes == |l.x.nodes| + if EmitsOwnRepo(l) then 0 else 1
    ensures |Published(l).edges| + Published(l).merged.edges == |l.x.edges|
  {
    var last := LastNodes(l.x.nodes);
    LastNodesKeys(l.x.nodes);
    assert EmitsOwnRepo(l) <==> RepoId(l.repo) in last;
    assert FactsOf(l).nodes.Keys == last.Keys + {RepoId(l.repo)};
    assert FactsOf(l).edges.Keys == EdgeMerge.Keys(l.x.edges);
  }

  lemma UnionCount<T>(a: set<T>, b: set<T>)
    ensures |a + b| + |a * b| == |a| + |b|
  {
    assert a + b == a + (b - a) && b == (b - a) + (a * b);
  }

  /** Nothing is collapsed silently: for every sequence of loads, raw occurrences
      plus one Repo node per load equal the published keys plus what is reported
      merged, but for the loads that emitted their own Repo node. */
  lemma {:induction false} OccurrencesConserved(loads: seq<LoadOf>)
    ensures var t := Recorded(loads);
            && RawNodes(loads) + |loads| == |t.nodes| + t.merged.nodes + OwnRepoEmitters(loads)
            && RawEdges(loads) == |t.edges| + t.merged.edges
  {
    if loads != [] {
      var front, l := loads[..|loads| - 1], loads[|loads| - 1];
      OccurrencesConserved(front);
      PublishedCounts(l);
      UnionCount(Recorded(front).nodes, Published(l).nodes);
      UnionCount(Recorded(front).edges, Published(l).edges);
    }
  }

  lemma {:induction false} EmittersCounted(loads: seq<LoadOf>)
    ensures OwnRepoEmitters(loads) == 0 <==> forall i :: 0 <= i < |loads| ==> !EmitsOwnRepo(loads[i])
  {
    if loads != [] {
      var front := loads[..|loads| - 1];
      EmittersCounted(front);
      assert loads == front + [loads[|loads| - 1]];
    }
  }

  /** The published and merged counts account for every occurrence exactly when
      no extraction emitted its own Repo node. */
  lemma ExactAccountingIff(loads: seq<LoadOf>)
    ensures RawNodes(loads) + |loads| == |Recorded(loads).nodes| + Recorded(loads).merged.nodes
            <==> forall i :: 0 <= i < |loads| ==> !EmitsOwnRepo(loads[i])
  {
    OccurrencesConserved(loads);
    EmittersCounted(loads);
  }

  // ---- The summary quotes the store ---------------------------------------------------------------

  predicate CitesOnly(props: Props, repo: string) {
    props.prov.Parsed? ==>
      forall i :: 0 <= i < |props.prov.prov.evidence| ==> props.prov.prov.evidence[i].repo == repo
  }

  predicate SelfCited(l: LoadOf) {
    && (forall i :: 0 <= i < |l.x.nodes| ==> CitesOnly(l.x.nodes[i].props, l.repo))
    && (forall i :: 0 <= i < |l.x.edges| ==> CitesOnly(l.x.edges[i].props, l.repo))
  }

  /** Every placeholder closes some edge of its own extraction. */
  predicate Anchored(l: LoadOf) {
    forall i :: 0 <= i < |l.x.nodes| && l.x.nodes[i].props.placeholder ==>
      exists j :: 0 <= j < |l.x.edges| && Touches(KeyOf(l.x.edges[j]), l.x.nodes[i].id)
  }

  predicate Apart(a: LoadOf, b: LoadOf) {
    && a.repo != b.repo
    && forall i :: 0 <= i < |a.x.nodes| ==> !IdOwnedBy(a.x.nodes[i].id, b.repo)
  }

  predicate FirstIngest(loads: seq<LoadOf>) {
    && (forall i :: 0 <= i < |loads| ==> Closed(loads[i].x) && SelfCited(loads[i]) && Anchored(loads[i]))
    && (forall i, j :: 0 <= i < |loads| && 0 <= j < |loads| && i != j ==> Apart(loads[i], loads[j]))
  }

  /** What the loads so far leave: nothing `repo` could retract. */
  ghost predicate Untouchable(g: Graph, repo: string) {
    && (forall id :: id in g.nodes ==> !IdOwnedBy(id, repo) && !FactOwnedBy(g.nodes[id].props, repo))
    && (forall id :: id in g.nodes && g.nodes[id].props.placeholder ==> HasIncident(g.edges.Keys, id))
    && (forall key :: key in g.edges ==> !FactOwnedBy(g.edges[key].props, repo))
  }

  lemma NothingRetracted(g: Graph, cur: Current, repo: string)
    requires Untouchable(g, repo)
    ensures StaleEdges(g, cur, repo) == {} && VanishedNodes(g, cur, repo) == {}
  {
    assert forall key :: !Stale(g, cur, repo, key);
    assert StaleEdges(g, cur, repo) == {};
    forall id ensures !Vanishes(g, cur, repo, RemainingKeys(g, cur, repo), id) {
      if id in g.nodes && g.nodes[id].props.placeholder {
        var key :| key in g.edges.Keys && Touches(key, id);
        assert key in RemainingKeys(g, cur, repo);
      }
    }
  }

  lemma AddedToUntouched(g: Graph, cur: Current)
    ensures Rewritten(g, {}, {}, NewNodes(g, cur), NewEdges(g, cur)) == Graph(g.nodes + cur.nodes, g.edges + cur.edges)
  {
    var r := Rewritten(g, {}, {}, NewNodes(g, cur), NewEdges(g, cur));
    assert r.nodes == g.nodes + cur.nodes;
    assert r.edges == g.edges + cur.edges;
  }

  lemma LoadOnlyAdds(g: Graph, cur: Current, repo: string)
    requires Untouchable(g, repo)
    ensures Loaded(g, cur, repo) == Graph(g.nodes + cur.nodes, g.edges + cur.edges)
  {
    NothingRetracted(g, cur, repo);
    AddedToUntouched(g, cur);
  }

  lemma CitedElsewhere(props: Props, repo: string, other: string)
    requires CitesOnly(props, repo) && repo != other
    ensures !FactOwnedBy(props, other)
  {
    if props.prov.Parsed? && props.prov.prov.evidence != [] {
      assert props.prov.prov.evidence[0].repo == repo;
    }
  }

  lemma MergedCitesOnly(l: LoadOf, key: EdgeKey)
    requires SelfCited(l) && key in FactsOf(l).edges
    ensures CitesOnly(FactsOf(l).edges[key].props, l.repo)
  {
    EdgeMerge.GroupNonEmpty(l.x.edges, key);
    var group := EdgeMerge.Group(l.x.edges, key);
    var last := group[|group| - 1];
    assert last in l.x.edges;
    if |group| > 1 && last.props.prov.Parsed? {
      var spans := EdgeMerge.MergedEdgeCites(group);
      var kept := EdgeMerge.MergeGroup(group).props.prov.prov.evidence;
      forall i | 0 <= i < |kept| ensures kept[i].repo == l.repo {
        assert kept[i] == spans[i] && spans[i] in spans;
        var j :| 0 <= j < |group| && EdgeMerge.Joins(group[j], last.props.prov.prov)
                 && spans[i] in group[j].props.prov.prov.evidence;
        assert group[j] in l.x.edges;
      }
    }
  }

  lemma CurrentNodeUntouchable(l: LoadOf, repo: string, id: string)
    requires SelfCited(l) && Anchored(l) && l.repo != repo && id in FactsOf(l).nodes
    requires forall i :: 0 <= i < |l.x.nodes| ==> !IdOwnedBy(l.x.nodes[i].id, repo)
    ensures var node := FactsOf(l).nodes[id];
            && !IdOwnedBy(id, repo) && !FactOwnedBy(node.props, repo)
            && (node.props.placeholder ==> HasIncident(FactsOf(l).edges.Keys, id))
  {
    if id == RepoId(l.repo) {
      if IdOwnedBy(id, repo) { RepoIdScopedOnce(id, l.repo, repo); }
    } else {
      LastNodesKeys(l.x.nodes);
      var node := FactsOf(l).nodes[id];
      var i :| 0 <= i < |l.x.nodes| && l.x.nodes[i] == node;
      CitedElsewhere(node.props, l.repo, repo);
      if node.props.placeholder {
        var j :| 0 <= j < |l.x.edges| && Touches(KeyOf(l.x.edges[j]), id);
        assert KeyOf(l.x.edges[j]) in FactsOf(l).edges;
      }
    }
  }

  lemma CurrentUntouchable(l: LoadOf, repo: string)
    requires SelfCited(l) && Anchored(l) && l.repo != repo
    requires forall i :: 0 <= i < |l.x.nodes| ==> !IdOwnedBy(l.x.nodes[i].id, repo)
    ensures Untouchable(Graph(FactsOf(l).nodes, FactsOf(l).edges), repo)
  {
    var cur := FactsOf(l);
    forall id | id in cur.nodes
      ensures !IdOwnedBy(id, repo) && !FactOwnedBy(cur.nodes[id].props, repo)
      ensures cur.nodes[id].props.placeholder ==> HasIncident(cur.edges.Keys, id)
    {
      CurrentNodeUntouchable(l, repo, id);
    }
    forall key | key in cur.edges ensures !FactOwnedBy(cur.edges[key].props, repo) {
      MergedCitesOnly(l, key);
      CitedElsewhere(cur.edges[key].props, l.repo, repo);
    }
  }

  lemma {:induction false} StoreUntouchable(loads: seq<LoadOf>, repo: string)
    requires FirstIngest(loads)
    requires forall i :: 0 <= i < |loads| ==>
               loads[i].repo != repo && forall k :: 0 <= k < |loads[i].x.nodes| ==>
                   !IdOwnedBy(loads[i].x.nodes[k].id, repo)
    ensures Untouchable(Store(Graph(map[], map[]), loads), repo)
  {
    if loads != [] {
      var front, l := loads[..|loads| - 1], loads[|loads| - 1];
      var g := Store(Graph(map[], map[]), front);
      FrontIsFirstIngest(loads);
      StoreUntouchable(front, repo);
      StoreUntouchable(front, l.repo);
      LoadOnlyAdds(g, FactsOf(l), l.repo);
      CurrentUntouchable(l, repo);
      UnionUntouchable(g, Graph(FactsOf(l).nodes, FactsOf(l).edges), repo);
    }
  }

  lemma FrontIsFirstIngest(loads: seq<LoadOf>)
    requires FirstIngest(loads) && loads != []
    ensures var front, l := loads[..|loads| - 1], loads[|loads| - 1];
            FirstIngest(front) && forall i :: 0 <= i < |front| ==> Apart(front[i], l)
  {
  }

  lemma UnionUntouchable(g: Graph, h: Graph, repo: string)
    requires Untouchable(g, repo) && Untouchable(h, repo)
    ensures Untouchable(Graph(g.nodes + h.nodes, g.edges + h.edges), repo)
  {
    assert forall id :: HasIncident(g.edges.Keys, id) ==> HasIncident((g.edges + h.edges).Keys, id);
    assert forall id :: HasIncident(h.edges.Keys, id) ==> HasIncident((g.edges + h.edges).Keys, id);
  }

  /** Ingesting repositories one after another into an empty graph, the
      operation's key sets are the store's. */
  lemma {:induction false} SummaryQuotesStore(loads: seq<LoadOf>)
    requires FirstIngest(loads)
    ensures Matches(Recorded(loads), Store(Graph(map[], map[]), loads))
  {
    if loads != [] {
      var front, l := loads[..|loads| - 1], loads[|loads| - 1];
      FrontIsFirstIngest(loads);
      SummaryQuotesStore(front);
      StoreUntouchable(front, l.repo);
      LoadOnlyAdds(Store(Graph(map[], map[]), front), FactsOf(l), l.repo);
    }
  }

  /** Each load adds its own collisions: the ids it emitted with differing facts. */
  lemma CollisionsAdd(loads: seq<LoadOf>, l: LoadOf) returns (colliding: set<string>)
    ensures forall id :: id in colliding <==> Collides(l.x.nodes, id)
    ensures Recorded(loads + [l]).merged.nodeCollisions == Recorded(loads).merged.nodeCollisions + |colliding|
  {
    colliding := CollidingIds(l.x.nodes);
    forall id ensures id in colliding <==> Collides(l.x.nodes, id) { CollidingIdsCollide(l.x.nodes, id); }
    assert (loads + [l])[..|loads|] == loads;
  }

  // ---- Such a first ingest exists ------------------------------------------------------------------------

  function SampleLoad(repo: string): LoadOf {
    var cited := Provenance(Deterministic, Confirmed, [EvidenceRef(repo, "a.ts", 0, 1, "c")], "ts", Plain(repo));
    var own, shared := Props(Parsed(cited), false, None, None, map[]), Props(Unattributed, true, None, None, map[]);
    LoadOf(Extraction([Node("sym:" + repo + "@f", "Symbol", own), Node("mod:m", "Module", shared)],
                      [Edge("sym:" + repo + "@f", "mod:m", "IMPORTS", own)]), repo, "c")
  }

  lemma NotOwned(repo: string, other: string)
    requires |repo| == |other| && repo != other
    ensures !IdOwnedBy("sym:" + repo + "@f", other) && !IdOwnedBy("mod:m", other)
  {
    var id := "sym:" + repo + "@f";
    IdOwnedIff(id, other);
    IdOwnedIff("mod:m", other);
    assert id[0] == 's' && id[1] == 'y';
    var scope := "sym:" + other + "@";
    assert scope[4..4 + |other|] == other && id[4..4 + |repo|] == repo;
  }

  lemma SampleIsClosed(repo: string)
    ensures Closed(SampleLoad(repo).x) && SelfCited(SampleLoad(repo)) && Anchored(SampleLoad(repo))
  {
    var l := SampleLoad(repo);
    assert l.x.nodes[0].id == l.x.edges[0].src && l.x.nodes[1].id == l.x.edges[0].dst;
    assert Touches(KeyOf(l.x.edges[0]), l.x.nodes[1].id);
  }

  /** Two repositories that share a placeholder module meet every condition. */
  lemma FirstIngestExists()
    ensures FirstIngest([SampleLoad("a"), SampleLoad("b")])
  {
    NotOwned("a", "b");
    NotOwned("b", "a");
    SampleIsClosed("a");
    SampleIsClosed("b");
    assert Apart(SampleLoad("a"), SampleLoad("b")) && Apart(SampleLoad("b"), SampleLoad("a"));
  }
}
