/** The neighbourhood of a node: everything within a number of edges of it,
    whichever way the edges point, found breadth first. */
module Neighborhood {
  import opened Facts

  function Neighbours(edges: seq<Edge>, id: string): set<string> {
    (set i | 0 <= i < |edges| && edges[i].src == id :: edges[i].dst)
    + (set i | 0 <= i < |edges| && edges[i].dst == id :: edges[i].src)
  }

  /** All neighbours of all of `ids`. */
  function Around(edges: seq<Edge>, ids: set<string>): set<string> {
    (set i | 0 <= i < |edges| && edges[i].src in ids :: edges[i].dst)
    + (set i | 0 <= i < |edges| && edges[i].dst in ids :: edges[i].src)
  }

  function Within(edges: seq<Edge>, focus: string, k: nat): set<string> {
    if k == 0 then {focus} else Within(edges, focus, k - 1) + Around(edges, Within(edges, focus, k - 1))
  }

  // ---- What being within means ---------------------------------------------------------------------

  /** Each node of the path is a neighbour of the one before. */
  ghost predicate IsPath(edges: seq<Edge>, path: seq<string>) {
    |path| > 0 && forall i :: 0 < i < |path| ==> path[i] in Neighbours(edges, path[i - 1])
  }

  ghost predicate Leads(edges: seq<Edge>, path: seq<string>, focus: string, id: string) {
    IsPath(edges, path) && path[0] == focus && path[|path| - 1] == id
  }

  lemma AroundHas(edges: seq<Edge>, ids: set<string>, id: string)
    ensures id in Around(edges, ids) <==> exists near :: near in ids && id in Neighbours(edges, near)
  {
    if id in Around(edges, ids) {
      var i :| 0 <= i < |edges|
               && ((edges[i].src in ids && edges[i].dst == id) || (edges[i].dst in ids && edges[i].src == id));
      var near := if edges[i].src in ids && edges[i].dst == id then edges[i].src else edges[i].dst;
      assert id in Neighbours(edges, near);
    }
  }

  /** Within `k` are exactly the ends of paths of at most `k` edges. */
  lemma {:induction false} WithinIffPath(edges: seq<Edge>, focus: string, k: nat, id: string)
    ensures id in Within(edges, focus, k) <==> exists path :: |path| <= k + 1 && Leads(edges, path, focus, id)
  {
    if id in Within(edges, focus, k) {
      var path := PathWithin(edges, focus, k, id);
    }
    forall path | |path| <= k + 1 && Leads(edges, path, focus, id) ensures id in Within(edges, focus, k) {
      PathStaysWithin(edges, focus, k, path);
    }
  }

  lemma {:induction false} PathWithin(edges: seq<Edge>, focus: string, k: nat, id: string) returns (path: seq<string>)
    requires id in Within(edges, focus, k)
    ensures |path| <= k + 1 && Leads(edges, path, focus, id)
  {
    if k == 0 {
      path := [focus];
    } else if id in Within(edges, focus, k - 1) {
      path := PathWithin(edges, focus, k - 1, id);
    } else {
      AroundHas(edges, Within(edges, focus, k - 1), id);
      var near :| near in Within(edges, focus, k - 1) && id in Neighbours(edges, near);
      var front := PathWithin(edges, focus, k - 1, near);
      path := front + [id];
      PathSnoc(edges, front, focus, near, id);
    }
  }

  lemma PathSnoc(edges: seq<Edge>, front: seq<string>, focus: string, near: string, id: string)
    requires Leads(edges, front, focus, near) && id in Neighbours(edges, near)
    ensures Leads(edges, front + [id], focus, id)
  {
    var path := front + [id];
    forall i | 0 < i < |path| ensures path[i] in Neighbours(edges, path[i - 1]) {
      assert path[i - 1] == front[i - 1];
      if i < |front| { assert path[i] == front[i]; }
    }
  }

  lemma {:induction false} PathStaysWithin(edges: seq<Edge>, focus: string, k: nat, path: seq<string>)
    requires IsPath(edges, path) && path[0] == focus && |path| <= k + 1
    ensures path[|path| - 1] in Within(edges, focus, k)
  {
    if |path| == 1 {
      WithinGrows(edges, focus, k);
    } else {
      var front := path[..|path| - 1];
      PathStaysWithin(edges, focus, k - 1, front);
      AroundHas(edges, Within(edges, focus, k - 1), path[|path| - 1]);
    }
  }

  lemma {:induction false} WithinGrows(edges: seq<Edge>, focus: string, k: nat)
    ensures focus in Within(edges, focus, k)
  {
    if k > 0 { WithinGrows(edges, focus, k - 1); }
  }

  // ---- Breadth first ---------------------------------------------------------------------------------

  method Adjacency(edges: seq<Edge>) returns (adjacent: map<string, set<string>>)
    ensures forall id :: Near(adjacent, id) == Neighbours(edges, id)
  {
    adjacent := map[];
    for i := 0 to |edges|
      invariant forall id :: Near(adjacent, id) == Neighbours(edges[..i], id)
    {
      var e := edges[i];
      var once := adjacent[e.src := Near(adjacent, e.src) + {e.dst}];
      adjacent := once[e.dst := Near(once, e.dst) + {e.src}];
      forall id ensures Near(adjacent, id) == Neighbours(edges[..i + 1], id) { NeighboursSnoc(edges, i, id); }
    }
    assert edges[..|edges|] == edges;
  }

  function Near(adjacent: map<string, set<string>>, id: string): set<string> {
    if id in adjacent then adjacent[id] else {}
  }

  lemma NeighboursSnoc(edges: seq<Edge>, n: nat, id: string)
    requires n < |edges|
    ensures Neighbours(edges[..n + 1], id)
            == Neighbours(edges[..n], id) + (if edges[n].src == id then {edges[n].dst} else {})
               + (if edges[n].dst == id then {edges[n].src} else {})
  {
    var all, front := edges[..n + 1], edges[..n];
    assert forall i :: 0 <= i < n ==> all[i] == front[i];
    assert all[n] == edges[n];
    forall x ensures x in Neighbours(all, id) <==>
                     x in Neighbours(front, id) || (edges[n].src == id && x == edges[n].dst)
                     || (edges[n].dst == id && x == edges[n].src)
    {
      if x in Neighbours(front, id) {
        var i :| 0 <= i < n && ((front[i].src == id && front[i].dst == x) || (front[i].dst == id && front[i].src == x));
        assert all[i] == front[i];
      }
    }
  }

  /** The neighbours of `frontier` that have no distance yet get the next one. */
  method Expand(adjacent: map<string, set<string>>, frontier: seq<string>, distance: map<string, nat>, hop: nat)
    returns (next: seq<string>, found: map<string, nat>)
    ensures found.Keys == distance.Keys + All(adjacent, frontier)
    ensures forall id :: id in found ==> found[id] == if id in distance then distance[id] else hop
    ensures forall id :: id in next <==> id in found && id !in distance
  {
    next, found := [], distance;
    for i := 0 to |frontier|
      invariant found.Keys == distance.Keys + All(adjacent, frontier[..i])
      invariant forall id :: id in found ==> found[id] == if id in distance then distance[id] else hop
      invariant forall id :: id in next <==> id in found && id !in distance
    {
      var near := Near(adjacent, frontier[i]);
      var left := near;
      ghost var keys := found.Keys;
      while left != {}
        invariant left <= near && found.Keys == keys + (near - left)
        invariant forall id :: id in found ==> found[id] == if id in distance then distance[id] else hop
        invariant forall id :: id in next <==> id in found && id !in distance
      {
        var id :| id in left;
        left := left - {id};
        if id !in found { found, next := found[id := hop], next + [id]; }
      }
      assert frontier[..i + 1][..i] == frontier[..i];
    }
    assert frontier[..|frontier|] == frontier;
  }

  function Members(ids: seq<string>): set<string> { set id | id in ids }

  function All(adjacent: map<string, set<string>>, ids: seq<string>): set<string> {
    if ids == [] then {} else All(adjacent, ids[..|ids| - 1]) + Near(adjacent, ids[|ids| - 1])
  }

  lemma {:induction false} AllIsAround(edges: seq<Edge>, adjacent: map<string, set<string>>, ids: seq<string>)
    requires forall id :: Near(adjacent, id) == Neighbours(edges, id)
    ensures All(adjacent, ids) == Around(edges, Members(ids))
  {
    forall x ensures x in All(adjacent, ids) <==> x in Around(edges, Members(ids)) {
      AroundHas(edges, Members(ids), x);
      AllHas(adjacent, ids, x);
    }
  }

  lemma {:induction false} AllHas(adjacent: map<string, set<string>>, ids: seq<string>, x: string)
    ensures x in All(adjacent, ids) <==> exists id :: id in ids && x in Near(adjacent, id)
  {
    if ids != [] { AllHas(adjacent, ids[..|ids| - 1], x); }
  }

  /** Only the last ring can reach anything new. */
  lemma RingSuffices(edges: seq<Edge>, inner: set<string>, ring: set<string>)
    requires Around(edges, inner) <= inner + ring
    ensures inner + ring + Around(edges, inner + ring) == inner + ring + Around(edges, ring)
  {
    forall x ensures x in Around(edges, inner + ring) ==> x in inner + ring || x in Around(edges, ring) {
      AroundHas(edges, inner + ring, x);
      AroundHas(edges, inner, x);
      AroundHas(edges, ring, x);
    }
    forall x | x in Around(edges, ring) ensures x in Around(edges, inner + ring) {
      AroundHas(edges, ring, x);
      AroundHas(edges, inner + ring, x);
    }
  }

  /** `n` is the first of the growing `levels` that holds `id`. */
  ghost predicate IsDistance(levels: nat -> set<string>, id: string, n: nat) {
    id in levels(n) && (n > 0 ==> id !in levels(n - 1))
  }

  /** After `n` hops the distances are known and the frontier is the last ring. */
  ghost predicate Ringed(levels: nat -> set<string>, n: nat, frontier: seq<string>, distance: map<string, nat>) {
    && distance.Keys == levels(n) == (if n == 0 then {} else levels(n - 1)) + Members(frontier)
    && forall id :: id in distance ==> IsDistance(levels, id, distance[id])
  }

  lemma RingedStart(levels: nat -> set<string>, focus: string)
    requires levels(0) == {focus}
    ensures Ringed(levels, 0, [focus], map[focus := 0])
  {
  }

  lemma RingedOn(levels: nat -> set<string>, n: nat, frontier: seq<string>, distance: map<string, nat>,
                 next: seq<string>, found: map<string, nat>)
    requires Ringed(levels, n, frontier, distance) && found.Keys == levels(n + 1) && distance.Keys <= found.Keys
    requires forall id :: id in found ==> found[id] == if id in distance then distance[id] else n + 1
    requires forall id :: id in next <==> id in found && id !in distance
    ensures Ringed(levels, n + 1, next, found)
  {
  }

  /** Each level is the one before and everything around it. */
  ghost predicate Grows(edges: seq<Edge>, levels: nat -> set<string>, n: nat) {
    levels(n + 1) == levels(n) + Around(edges, levels(n))
  }

  lemma NextLevel(edges: seq<Edge>, levels: nat -> set<string>, n: nat, ring: set<string>)
    requires Grows(edges, levels, n) && (n > 0 ==> Grows(edges, levels, n - 1))
    requires levels(n) == (if n == 0 then {} else levels(n - 1)) + ring
    ensures levels(n + 1) == levels(n) + Around(edges, ring)
  {
    if n == 0 {
      assert levels(n) == ring;
    } else {
      RingSuffices(edges, levels(n - 1), ring);
    }
  }

  method Hop(edges: seq<Edge>, adjacent: map<string, set<string>>, n: nat, frontier: seq<string>,
             distance: map<string, nat>, ghost levels: nat -> set<string>)
    returns (next: seq<string>, found: map<string, nat>)
    requires forall id :: Near(adjacent, id) == Neighbours(edges, id)
    requires forall m: nat :: Grows(edges, levels, m)
    requires Ringed(levels, n, frontier, distance)
    ensures Ringed(levels, n + 1, next, found)
  {
    next, found := Expand(adjacent, frontier, distance, n + 1);
    AllIsAround(edges, adjacent, frontier);
    NextLevel(edges, levels, n, Members(frontier));
    RingedOn(levels, n, frontier, distance, next, found);
  }

  method Search(edges: seq<Edge>, focus: string, k: nat, ghost levels: nat -> set<string>)
    returns (distance: map<string, nat>)
    requires levels(0) == {focus} && forall n: nat :: Grows(edges, levels, n)
    ensures distance.Keys == levels(k)
    ensures forall id :: id in distance ==> IsDistance(levels, id, distance[id])
  {
    var adjacent := Adjacency(edges);
    distance := map[focus := 0];
    var frontier := [focus];
    RingedStart(levels, focus);
    for hop := 0 to k
      invariant Ringed(levels, hop, frontier, distance)
    {
      frontier, distance := Hop(edges, adjacent, hop, frontier, distance, levels);
    }
  }

  ghost function Levels(edges: seq<Edge>, focus: string): nat -> set<string> { (n: nat) => Within(edges, focus, n) }

  /** The least number of edges to each node within `k`. */
  method Distances(edges: seq<Edge>, focus: string, k: nat) returns (distance: map<string, nat>)
    ensures distance.Keys == Within(edges, focus, k)
    ensures forall id :: id in distance ==> IsDistance(Levels(edges, focus), id, distance[id])
  {
    distance := Search(edges, focus, k, Levels(edges, focus));
  }
}
