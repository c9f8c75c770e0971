/** What loading an extraction guarantees, and when reloading it settles. */
module PublicationTheorems {
  import opened Wrappers
  import opened Facts
  import opened GraphStore
  import opened Publication

  /** A load's facts refer only to each other. */
  predicate SelfContained(cur: Current) {
    && (forall id :: id in cur.nodes ==> cur.nodes[id].id == id)
    && (forall key :: key in cur.edges ==> KeyOf(cur.edges[key]) == key && key.src in cur.nodes && key.dst in cur.nodes)
  }

  lemma ClosedIsSelfContained(x: Extraction, repo: string, commit: string)
    requires Closed(x)
    ensures SelfContained(CurrentFacts(x, repo, commit))
  {
    CurrentKeyed(x, repo, commit);
  }

  /** The edge of a node that vanishes because its id is scoped to the repo. */
  predicate TouchesVanishedScope(cur: Current, repo: string, key: EdgeKey) {
    (IdOwnedBy(key.src, repo) && key.src !in cur.nodes) || (IdOwnedBy(key.dst, repo) && key.dst !in cur.nodes)
  }

  /** Only id-scoped nodes vanish together with edges the load counted on. */
  lemma VanishedWithEdges(g: Graph, cur: Current, repo: string, key: EdgeKey)
    requires NoDangling(g) && key in g.edges && !Stale(g, cur, repo, key)
    ensures key.src in VanishedNodes(g, cur, repo) || key.dst in VanishedNodes(g, cur, repo)
            <==> TouchesVanishedScope(cur, repo, key)
  {
    var remaining := RemainingKeys(g, cur, repo);
    assert key in remaining;
    assert HasIncident(remaining, key.src) && HasIncident(remaining, key.dst);
  }

  lemma EdgeAfter(g: Graph, cur: Current, repo: string, key: EdgeKey)
    requires NoDangling(g) && SelfContained(cur)
    ensures var h := Loaded(g, cur, repo);
            if key in cur.edges then key in h.edges && h.edges[key] == cur.edges[key]
            else (key in h.edges <==>
                    key in g.edges && !Stale(g, cur, repo, key) && !TouchesVanishedScope(cur, repo, key))
                 && (key in h.edges ==> h.edges[key] == g.edges[key])
  {
    if key in cur.edges {
      assert key.src !in VanishedNodes(g, cur, repo) && key.dst !in VanishedNodes(g, cur, repo);
    } else if key in g.edges && !Stale(g, cur, repo, key) {
      VanishedWithEdges(g, cur, repo, key);
    }
  }

  lemma NodeAfter(g: Graph, cur: Current, repo: string, id: string)
    ensures var h := Loaded(g, cur, repo);
            if id in cur.nodes then id in h.nodes && h.nodes[id] == cur.nodes[id]
            else (id in h.nodes <==> id in g.nodes && !Vanishes(g, cur, repo, RemainingKeys(g, cur, repo), id))
                 && (id in h.nodes ==> h.nodes[id] == g.nodes[id])
  {
    CurrentNodesStay(g, cur, repo);
  }

  /** A load leaves no dangling edge, holds every extracted fact exactly, and
      nothing the repository used to state and no longer does. */
  lemma LoadPublishesExactly(g: Graph, x: Extraction, repo: string, commit: string)
    requires Keyed(g) && NoDangling(g) && Closed(x)
    ensures var cur := CurrentFacts(x, repo, commit);
            var h := Loaded(g, cur, repo);
            && Keyed(h) && NoDangling(h)
            && (forall id :: id in cur.nodes ==> id in h.nodes && h.nodes[id] == cur.nodes[id])
            && (forall key :: key in cur.edges ==> key in h.edges && h.edges[key] == cur.edges[key])
            && (forall id :: id in h.nodes && IdOwnedBy(id, repo) ==> id in cur.nodes)
            && (forall key :: key in h.edges && FactOwnedBy(h.edges[key].props, repo) ==> key in cur.edges)
  {
    var cur := CurrentFacts(x, repo, commit);
    var h := Loaded(g, cur, repo);
    ClosedIsSelfContained(x, repo, commit);
    forall id ensures id in h.nodes ==> h.nodes[id].id == id && (IdOwnedBy(id, repo) ==> id in cur.nodes) {
      NodeAfter(g, cur, repo, id);
    }
    forall key
      ensures key in cur.edges ==> key in h.edges && h.edges[key] == cur.edges[key]
      ensures key in h.edges ==> KeyOf(h.edges[key]) == key && key.src in h.nodes && key.dst in h.nodes
      ensures key in h.edges && FactOwnedBy(h.edges[key].props, repo) ==> key in cur.edges
    {
      EdgeAfter(g, cur, repo, key);
      if key in h.edges {
        NodeAfter(g, cur, repo, key.src);
        NodeAfter(g, cur, repo, key.dst);
        if key !in cur.edges { VanishedWithEdges(g, cur, repo, key); }
      }
    }
    CurrentNodesStay(g, cur, repo);
  }

  /** Another repository's edge is lost exactly when it touches an id-scoped node
      of this repository that vanished; its node exactly when it is a
      placeholder that no edge needs any more. Kept facts are unchanged. */
  lemma ForeignFactsLostIff(g: Graph, x: Extraction, repo: string, commit: string)
    requires NoDangling(g) && Closed(x)
    ensures var cur := CurrentFacts(x, repo, commit);
            var h := Loaded(g, cur, repo);
            && (forall key :: key in g.edges && key !in cur.edges && !FactOwnedBy(g.edges[key].props, repo) ==>
                  && (key !in h.edges <==> TouchesVanishedScope(cur, repo, key))
                  && (key in h.edges ==> h.edges[key] == g.edges[key]))
            && (forall id ::
                  id in g.nodes && id !in cur.nodes && !FactOwnedBy(g.nodes[id].props, repo) && !IdOwnedBy(id, repo) ==>
                  && (id !in h.nodes <==>
                        g.nodes[id].props.placeholder && !HasIncident(RemainingKeys(g, cur, repo), id))
                  && (id in h.nodes ==> h.nodes[id] == g.nodes[id]))
  {
    var cur := CurrentFacts(x, repo, commit);
    var h := Loaded(g, cur, repo);
    ClosedIsSelfContained(x, repo, commit);
    forall key | key in g.edges && key !in cur.edges && !FactOwnedBy(g.edges[key].props, repo)
      ensures key !in h.edges <==> TouchesVanishedScope(cur, repo, key)
      ensures key in h.edges ==> h.edges[key] == g.edges[key]
    {
      EdgeAfter(g, cur, repo, key);
    }
    forall id | id in g.nodes && id !in cur.nodes && !FactOwnedBy(g.nodes[id].props, repo) && !IdOwnedBy(id, repo)
      ensures id !in h.nodes <==> g.nodes[id].props.placeholder && !HasIncident(RemainingKeys(g, cur, repo), id)
      ensures id in h.nodes ==> h.nodes[id] == g.nodes[id]
    {
      NodeAfter(g, cur, repo, id);
    }
  }

  // ---- A load, in the extraction's own terms -------------------------------------------------------

  predicate ExtractsNode(x: Extraction, repo: string, id: string) {
    id == "repo:" + repo || exists i :: 0 <= i < |x.nodes| && x.nodes[i].id == id
  }

  predicate ExtractsEdge(x: Extraction, key: EdgeKey) {
    exists i :: 0 <= i < |x.edges| && KeyOf(x.edges[i]) == key
  }

  lemma CurrentIff(x: Extraction, repo: string, commit: string, id: string, key: EdgeKey)
    ensures id in CurrentFacts(x, repo, commit).nodes <==> ExtractsNode(x, repo, id)
    ensures key in CurrentFacts(x, repo, commit).edges <==> ExtractsEdge(x, key)
  {
    LastNodesKeys(x.nodes);
  }

  /** The edge was the repository's own and is no longer extracted. */
  predicate Outdated(g: Graph, x: Extraction, repo: string, key: EdgeKey) {
    key in g.edges && CitesOnlyOwn(g.edges[key].props, repo) && !ExtractsEdge(x, key)
  }

  /** An edge that is extracted, or stored and not outdated, ends at the node. */
  ghost predicate StillNeeded(g: Graph, x: Extraction, repo: string, id: string) {
    exists key: EdgeKey :: (key.src == id || key.dst == id)
                           && (ExtractsEdge(x, key) || (key in g.edges && !Outdated(g, x, repo, key)))
  }

  /** The id carries the repository, which no longer extracts it. */
  predicate LeftScope(x: Extraction, repo: string, id: string) { IdOwnedBy(id, repo) && !ExtractsNode(x, repo, id) }

  lemma OutdatedIff(g: Graph, x: Extraction, repo: string, commit: string, key: EdgeKey)
    ensures Stale(g, CurrentFacts(x, repo, commit), repo, key) <==> Outdated(g, x, repo, key)
  {
    CurrentIff(x, repo, commit, "", key);
    if key in g.edges { FactOwnedIff(g.edges[key].props, repo); }
  }

  lemma NeededIff(g: Graph, x: Extraction, repo: string, commit: string, id: string)
    ensures HasIncident(RemainingKeys(g, CurrentFacts(x, repo, commit), repo), id) <==> StillNeeded(g, x, repo, id)
  {
    var cur := CurrentFacts(x, repo, commit);
    forall key ensures key in RemainingKeys(g, cur, repo) <==>
                       ExtractsEdge(x, key) || (key in g.edges && !Outdated(g, x, repo, key))
    {
      CurrentIff(x, repo, commit, "", key);
      OutdatedIff(g, x, repo, commit, key);
    }
  }

  /** A stored edge survives a load exactly when it is extracted again, or is not
      the repository's own and ends at no id-scoped node that left. */
  lemma LoadedEdgeIff(g: Graph, x: Extraction, repo: string, commit: string, key: EdgeKey)
    requires NoDangling(g) && Closed(x)
    ensures var h := Loaded(g, CurrentFacts(x, repo, commit), repo);
            && (key in h.edges <==>
                  || ExtractsEdge(x, key)
                  || (&& key in g.edges && !CitesOnlyOwn(g.edges[key].props, repo)
                      && !LeftScope(x, repo, key.src) && !LeftScope(x, repo, key.dst)))
            && (key in h.edges && !ExtractsEdge(x, key) ==> h.edges[key] == g.edges[key])
  {
    ClosedIsSelfContained(x, repo, commit);
    EdgeAfter(g, CurrentFacts(x, repo, commit), repo, key);
    CurrentIff(x, repo, commit, key.src, key);
    CurrentIff(x, repo, commit, key.dst, key);
    OutdatedIff(g, x, repo, commit, key);
  }

  /** A stored node survives exactly when it is extracted again, or does not carry
      the repository and is foreign and no placeholder, or still needed. */
  lemma LoadedNodeIff(g: Graph, x: Extraction, repo: string, commit: string, id: string)
    ensures var h := Loaded(g, CurrentFacts(x, repo, commit), repo);
            && (id in h.nodes <==>
                  || ExtractsNode(x, repo, id)
                  || (&& id in g.nodes && !IdOwnedBy(id, repo)
                      && ((!CitesOnlyOwn(g.nodes[id].props, repo) && !g.nodes[id].props.placeholder)
                          || StillNeeded(g, x, repo, id))))
            && (id in h.nodes && !ExtractsNode(x, repo, id) ==> h.nodes[id] == g.nodes[id])
            && (forall i: nat :: LastOfId(x.nodes, id, i) && id != "repo:" + repo ==> h.nodes[id] == x.nodes[i])
  {
    NodeAfter(g, CurrentFacts(x, repo, commit), repo, id);
    CurrentIff(x, repo, commit, id, EdgeKey("", "", ""));
    NeededIff(g, x, repo, commit, id);
    if id in g.nodes { FactOwnedIff(g.nodes[id].props, repo); }
    forall i: nat | LastOfId(x.nodes, id, i) && id != "repo:" + repo
      ensures CurrentFacts(x, repo, commit).nodes[id] == x.nodes[i] && ExtractsNode(x, repo, id)
    {
      LastNodeIs(x.nodes, id, i);
    }
  }

  /** What a load writes: exactly the extracted facts the graph does not hold as
      extracted. */
  lemma WrittenIff(g: Graph, x: Extraction, repo: string, commit: string, id: string, key: EdgeKey)
    ensures var cur := CurrentFacts(x, repo, commit);
            && (id in NewNodes(g, cur) <==>
                  && ExtractsNode(x, repo, id) && id in cur.nodes
                  && (id !in g.nodes || g.nodes[id] != cur.nodes[id]))
            && (key in NewEdges(g, cur) <==>
                  && ExtractsEdge(x, key) && key in cur.edges
                  && (key !in g.edges || g.edges[key] != cur.edges[key]))
  {
    CurrentIff(x, repo, commit, id, key);
  }

  /** The registration's node: confirmed, citing nothing, naming its commit. */
  lemma RegisteredNode(x: Extraction, repo: string, commit: string)
    ensures var node := CurrentFacts(x, repo, commit).nodes["repo:" + repo];
            && node.id == "repo:" + repo && node.kind == "Repo" && node.props.prov.Parsed?
            && node.props.prov.prov.evidence == [] && node.props.prov.prov.confidence == Confirmed
            && node.props.prov.prov.extractor == "app.ingest" && node.props.rest == map["commit" := Text(commit)]
            && node.props.prov.prov.hash == Plain("registered-repo-v1:" + repo + ":" + commit)
  {
  }

  // ---- Reloading -------------------------------------------------------------------------------

  /** The graph holds the load's facts and nothing it would retract outright. */
  predicate Holds(h: Graph, cur: Current, repo: string) {
    && (forall id :: id in cur.nodes ==> id in h.nodes && h.nodes[id] == cur.nodes[id])
    && (forall key :: key in cur.edges ==> key in h.edges && h.edges[key] == cur.edges[key])
    && (forall id :: id in h.nodes && IdOwnedBy(id, repo) ==> id in cur.nodes)
    && (forall key :: key in h.edges && FactOwnedBy(h.edges[key].props, repo) ==> key in cur.edges)
  }

  /** What reloading drops from such a graph: unneeded collectable nodes. */
  predicate Loose(h: Graph, cur: Current, repo: string, id: string) {
    id in h.nodes && id !in cur.nodes && Collectable(h.nodes[id], repo) && !HasIncident(h.edges.Keys, id)
  }

  lemma NothingNew(h: Graph, cur: Current, repo: string)
    requires Holds(h, cur, repo)
    ensures NewNodes(h, cur) == map[] && NewEdges(h, cur) == map[] && StaleEdges(h, cur, repo) == {}
    ensures RemainingKeys(h, cur, repo) == h.edges.Keys
  {
    assert forall id :: !NodeChanged(h, cur, id);
    assert forall key :: !EdgeChanged(h, cur, key);
    assert forall key :: !Stale(h, cur, repo, key);
  }

  lemma RewrittenByDropping(h: Graph, gone: set<string>)
    requires forall id :: id in gone ==> !HasIncident(h.edges.Keys, id)
    ensures Rewritten(h, gone, {}, map[], map[]).edges == h.edges
    ensures Rewritten(h, gone, {}, map[], map[]).nodes == (map id | id in h.nodes && id !in gone :: h.nodes[id])
  {
    forall key | key in h.edges ensures key.src !in gone && key.dst !in gone {
      assert Touches(key, key.src) && Touches(key, key.dst);
    }
  }

  lemma VanishedIffLoose(h: Graph, cur: Current, repo: string, id: string)
    requires Holds(h, cur, repo)
    ensures id in VanishedNodes(h, cur, repo) <==> Loose(h, cur, repo, id)
  {
    NothingNew(h, cur, repo);
  }

  lemma ReloadDropsLoose(h: Graph, cur: Current, repo: string)
    requires Holds(h, cur, repo)
    ensures NewNodes(h, cur) == map[] && NewEdges(h, cur) == map[] && StaleEdges(h, cur, repo) == {}
    ensures forall id :: id in VanishedNodes(h, cur, repo) <==> Loose(h, cur, repo, id)
    ensures Loaded(h, cur, repo).edges == h.edges
    ensures Loaded(h, cur, repo).nodes == (map id | id in h.nodes && id !in VanishedNodes(h, cur, repo) :: h.nodes[id])
  {
    NothingNew(h, cur, repo);
    forall id ensures id in VanishedNodes(h, cur, repo) <==> Loose(h, cur, repo, id) {
      VanishedIffLoose(h, cur, repo, id);
    }
    RewrittenByDropping(h, VanishedNodes(h, cur, repo));
  }

  /** Dropping loose nodes makes no other node loose. */
  lemma DropSettles(h: Graph, cur: Current, repo: string)
    requires Holds(h, cur, repo)
    ensures Loaded(Loaded(h, cur, repo), cur, repo) == Loaded(h, cur, repo)
  {
    var k := Loaded(h, cur, repo);
    ReloadDropsLoose(h, cur, repo);
    DropHolds(h, cur, repo);
    ReloadDropsLoose(k, cur, repo);
    assert forall id :: !Loose(k, cur, repo, id);
    assert Loaded(k, cur, repo).nodes == k.nodes;
  }

  lemma DropHolds(h: Graph, cur: Current, repo: string)
    requires Holds(h, cur, repo)
    ensures Holds(Loaded(h, cur, repo), cur, repo)
  {
    ReloadDropsLoose(h, cur, repo);
    CurrentNodesStay(h, cur, repo);
  }

  /** For a fixed extraction the first load already holds every fact: the second
      writes nothing, deletes no edge and removes only nodes with no edge at
      all, and the third changes nothing. */
  lemma ReloadsSettle(g: Graph, x: Extraction, repo: string, commit: string)
    requires Keyed(g) && NoDangling(g) && Closed(x)
    ensures var cur := CurrentFacts(x, repo, commit);
            var first := Loaded(g, cur, repo);
            var second := Loaded(first, cur, repo);
            && NewNodes(first, cur) == map[] && NewEdges(first, cur) == map[] && StaleEdges(first, cur, repo) == {}
            && second.edges == first.edges
            && (forall id :: id in VanishedNodes(first, cur, repo) ==> !HasIncident(first.edges.Keys, id))
            && Loaded(second, cur, repo) == second
  {
    var cur := CurrentFacts(x, repo, commit);
    LoadPublishesExactly(g, x, repo, commit);
    ReloadDropsLoose(Loaded(g, cur, repo), cur, repo);
    DropSettles(Loaded(g, cur, repo), cur, repo);
  }

  /** A collectable node all of whose counted edges go with vanished neighbours. */
  predicate Stranded(g: Graph, cur: Current, repo: string, id: string) {
    && id in g.nodes && id !in cur.nodes && !IdOwnedBy(id, repo)
    && Collectable(g.nodes[id], repo)
    && HasIncident(RemainingKeys(g, cur, repo), id)
    && forall key :: key in RemainingKeys(g, cur, repo) && Touches(key, id) ==>
         key !in cur.edges && TouchesVanishedScope(cur, repo, key)
  }

  /** One load is already a fixed point exactly when it strands no node. */
  lemma FirstLoadSettlesIff(g: Graph, x: Extraction, repo: string, commit: string)
    requires Keyed(g) && NoDangling(g) && Closed(x)
    ensures var cur := CurrentFacts(x, repo, commit);
            var first := Loaded(g, cur, repo);
            Loaded(first, cur, repo) == first <==> forall id :: !Stranded(g, cur, repo, id)
  {
    var cur := CurrentFacts(x, repo, commit);
    var first := Loaded(g, cur, repo);
    LoadPublishesExactly(g, x, repo, commit);
    ClosedIsSelfContained(x, repo, commit);
    ReloadIsNoopIff(first, cur, repo);
    forall id ensures Loose(first, cur, repo, id) <==> Stranded(g, cur, repo, id) {
      LooseIffStranded(g, cur, repo, id);
    }
  }

  lemma ReloadIsNoopIff(h: Graph, cur: Current, repo: string)
    requires Holds(h, cur, repo)
    ensures Loaded(h, cur, repo) == h <==> forall id :: !Loose(h, cur, repo, id)
  {
    ReloadDropsLoose(h, cur, repo);
    if id :| Loose(h, cur, repo, id) {
      assert id in h.nodes && id !in Loaded(h, cur, repo).nodes;
    } else {
      assert Loaded(h, cur, repo).nodes == h.nodes;
    }
  }

  lemma LooseIffStranded(g: Graph, cur: Current, repo: string, id: string)
    requires NoDangling(g) && SelfContained(cur)
    ensures Loose(Loaded(g, cur, repo), cur, repo, id) <==> Stranded(g, cur, repo, id)
  {
    var first := Loaded(g, cur, repo);
    var remaining := RemainingKeys(g, cur, repo);
    NodeAfter(g, cur, repo, id);
    forall key
      ensures key in first.edges <==> key in remaining && (key in cur.edges || !TouchesVanishedScope(cur, repo, key))
    {
      EdgeAfter(g, cur, repo, key);
    }
  }

  /** A symbol and a placeholder module that only it imports. */
  function ImportingGraph(): Graph {
    var plain := Props(Unattributed, false, None, None, map[]);
    Graph(map["sym:r@f" := Node("sym:r@f", "Symbol", plain),
              "mod:m" := Node("mod:m", "Module", plain.(placeholder := true))],
          map[EdgeKey("sym:r@f", "mod:m", "IMPORTS") := Edge("sym:r@f", "mod:m", "IMPORTS", plain)])
  }

  lemma ImportIsStranded()
    ensures var g, cur := ImportingGraph(), CurrentFacts(Extraction([], []), "r", "c");
            Keyed(g) && NoDangling(g) && Stranded(g, cur, "r", "mod:m")
  {
    var g, cur := ImportingGraph(), CurrentFacts(Extraction([], []), "r", "c");
    var key := EdgeKey("sym:r@f", "mod:m", "IMPORTS");
    assert RepoId("r")[0] == 'r' && "mod:m"[0] == 'm' && "sym:r@f"[0] == 's';
    assert IdOwnedBy("sym:r@f", "r") by { assert SCOPED_KINDS[1] + "r" + "@" <= "sym:r@f"; }
    assert !IdOwnedBy("mod:m", "r") by {
      assert forall k :: 0 <= k < |SCOPED_KINDS| ==> SCOPED_KINDS[k][0] != 'm';
    }
    assert cur.nodes.Keys == {RepoId("r")};
    assert cur.edges == map[];
    assert RemainingKeys(g, cur, "r") == {key};
    assert Touches(key, "mod:m");
  }

  /** A placeholder whose only edge goes with a vanished symbol survives the
      first load and not the second. */
  lemma OneLoadMayNotSettle()
    ensures var g, x := ImportingGraph(), Extraction([], []);
            var cur := CurrentFacts(x, "r", "c");
            && Keyed(g) && NoDangling(g) && Closed(x)
            && Loaded(Loaded(g, cur, "r"), cur, "r") != Loaded(g, cur, "r")
  {
    ImportIsStranded();
    FirstLoadSettlesIff(ImportingGraph(), Extraction([], []), "r", "c");
  }
}
