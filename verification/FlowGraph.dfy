/** One filtered snapshot, reordered to look like a sequence of label queries. */
module FlowGraph {
  import opened Wrappers
  import opened Sorting
  import opened Collections
  import opened Facts

  predicate Labelled(node: Node, labels: seq<string>) { node.kind in labels }

  /** The position of the node's label; past the end when it is not listed. */
  function Rank(node: Node, labels: seq<string>): nat {
    if labels == [] then 0
    else if labels[0] == node.kind then 0
    else 1 + Rank(node, labels[1..])
  }

  function ByRank(labels: seq<string>): (Node, Node) -> bool {
    (a, b) => Rank(a, labels) <= Rank(b, labels)
  }

  /** What one read returns: the listed nodes of an id-ordered snapshot, stably
      sorted by label rank. */
  function ReadFiltered(snapshot: seq<Node>, labels: seq<string>): seq<Node> {
    Sort(Filter(snapshot, node => Labelled(node, labels)), ByRank(labels))
  }

  function OfLabel(nodes: seq<Node>, kind: string): seq<Node> {
    Filter(nodes, (node: Node) => node.kind == kind)
  }

  /** The separate queries, one label after the other, from the i-th on. */
  function QueriesFrom(nodes: seq<Node>, labels: seq<string>, i: nat): seq<Node>
    requires i <= |labels|
    decreases |labels| - i
  {
    if i == |labels| then [] else OfLabel(nodes, labels[i]) + QueriesFrom(nodes, labels, i + 1)
  }

  function Queries(nodes: seq<Node>, labels: seq<string>): seq<Node> { QueriesFrom(nodes, labels, 0) }

  lemma {:induction false} RankIsPosition(node: Node, labels: seq<string>)
    ensures Rank(node, labels) <= |labels|
    ensures Rank(node, labels) < |labels| <==> Labelled(node, labels)
    ensures Labelled(node, labels) ==> labels[Rank(node, labels)] == node.kind
    ensures forall i :: 0 <= i < Rank(node, labels) ==> labels[i] != node.kind
  {
    if labels != [] {
      RankIsPosition(node, labels[1..]);
      assert labels == [labels[0]] + labels[1..];
    }
  }

  lemma RankOrders(labels: seq<string>)
    ensures TotalPreorder(ByRank(labels))
  {
  }

  lemma {:induction false} FilterNone(s: seq<Node>, kind: string)
    requires forall i :: 0 <= i < |s| ==> s[i].kind != kind
    ensures OfLabel(s, kind) == []
  {
    if s != [] { FilterNone(s[1..], kind); }
  }

  predicate Leads(x: Node, rest: seq<Node>, labels: seq<string>) {
    Labelled(x, labels) && forall k :: 0 <= k < |rest| ==> Rank(x, labels) <= Rank(rest[k], labels)
  }

  /** The query a leading node shows up in, and the empty ones before it. */
  lemma LeadingQuery(x: Node, rest: seq<Node>, labels: seq<string>, i: nat)
    requires i < |labels| && NoDup(labels) && Leads(x, rest, labels)
    ensures var with, without := OfLabel([x] + rest, labels[i]), OfLabel(rest, labels[i]);
            && (i < Rank(x, labels) ==> with == without == [])
            && (i == Rank(x, labels) ==> with == [x] + without)
            && (i > Rank(x, labels) ==> with == without)
  {
    RankIsPosition(x, labels);
    FilterCons(x, rest, (node: Node) => node.kind == labels[i]);
    if i < Rank(x, labels) {
      forall k | 0 <= k < |rest| ensures rest[k].kind != labels[i] { RankIsPosition(rest[k], labels); }
      FilterNone(rest, labels[i]);
    }
  }

  lemma QueriesStep(nodes: seq<Node>, labels: seq<string>, i: nat)
    requires i < |labels|
    ensures QueriesFrom(nodes, labels, i) == OfLabel(nodes, labels[i]) + QueriesFrom(nodes, labels, i + 1)
  {
  }

  /** Putting a node of least rank in front puts it in front of every query from
      its own label on back. */
  lemma {:induction false} QueriesCons(x: Node, rest: seq<Node>, labels: seq<string>, i: nat)
    requires i <= |labels| && NoDup(labels) && Leads(x, rest, labels)
    ensures QueriesFrom([x] + rest, labels, i)
            == if i <= Rank(x, labels) then [x] + QueriesFrom(rest, labels, i) else QueriesFrom(rest, labels, i)
    decreases |labels| - i
  {
    if i == |labels| {
      RankIsPosition(x, labels);
    } else {
      QueriesCons(x, rest, labels, i + 1);
      LeadingQuery(x, rest, labels, i);
      Regroup([x], OfLabel(rest, labels[i]), QueriesFrom(rest, labels, i + 1));
      QueriesStep([x] + rest, labels, i);
      QueriesStep(rest, labels, i);
    }
  }

  /** A sequence sorted by rank is its own sequence of label queries. */
  lemma {:induction false} SortedIsQueries(s: seq<Node>, labels: seq<string>)
    requires NoDup(labels) && Sorted(s, ByRank(labels)) && forall k :: 0 <= k < |s| ==> Labelled(s[k], labels)
    ensures s == Queries(s, labels)
  {
    if s == [] {
      NoQueries(labels, 0);
    } else {
      SortedIsQueries(s[1..], labels);
      forall k | 0 <= k < |s[1..]| ensures Rank(s[0], labels) <= Rank(s[1..][k], labels) {
        assert ByRank(labels)(s[0], s[k + 1]);
      }
      QueriesCons(s[0], s[1..], labels, 0);
      assert s == [s[0]] + s[1..];
    }
  }

  lemma {:induction false} NoQueries(labels: seq<string>, i: nat)
    requires i <= |labels|
    ensures QueriesFrom([], labels, i) == []
    decreases |labels| - i
  {
    if i < |labels| { NoQueries(labels, i + 1); }
  }

  lemma {:induction false} FilterTwice(s: seq<Node>, labels: seq<string>, kind: string)
    requires kind in labels
    ensures OfLabel(Filter(s, node => Labelled(node, labels)), kind) == OfLabel(s, kind)
  {
    if s != [] {
      FilterTwice(s[1..], labels, kind);
      var rest := Filter(s[1..], node => Labelled(node, labels));
      FilterCons(s[0], rest, (node: Node) => node.kind == kind);
      assert Filter(s, node => Labelled(node, labels)) == if Labelled(s[0], labels) then [s[0]] + rest else rest;
    }
  }

  /** Sorting keeps each label's nodes in snapshot order. */
  lemma {:induction false} SameQueries(snapshot: seq<Node>, labels: seq<string>, i: nat)
    requires i <= |labels|
    ensures QueriesFrom(ReadFiltered(snapshot, labels), labels, i) == QueriesFrom(snapshot, labels, i)
    decreases |labels| - i
  {
    if i < |labels| {
      SameQueries(snapshot, labels, i + 1);
      var p := (node: Node) => node.kind == labels[i];
      forall a, b | p(a) && p(b) ensures Rank(a, labels) <= Rank(b, labels) {
        RankIsPosition(a, labels);
        RankIsPosition(b, labels);
      }
      SortStable(Filter(snapshot, node => Labelled(node, labels)), ByRank(labels), p);
      FilterTwice(snapshot, labels, labels[i]);
    }
  }

  lemma {:induction false} FilterLabelled(s: seq<Node>, labels: seq<string>)
    ensures forall x :: x in Filter(s, node => Labelled(node, labels)) ==> Labelled(x, labels)
  {
    if s != [] { FilterLabelled(s[1..], labels); }
  }

  /** One sorted read is the concatenation of the label queries it replaces. */
  lemma ReadIsQueries(snapshot: seq<Node>, labels: seq<string>)
    requires NoDup(labels)
    ensures ReadFiltered(snapshot, labels) == Queries(snapshot, labels)
  {
    var listed := Filter(snapshot, node => Labelled(node, labels));
    var s := ReadFiltered(snapshot, labels);
    RankOrders(labels);
    SortSorted(listed, ByRank(labels));
    SortMultiset(listed, ByRank(labels));
    SameElements(s, listed);
    FilterLabelled(snapshot, labels);
    forall k | 0 <= k < |s| ensures Labelled(s[k], labels) { assert s[k] in listed; }
    SortedIsQueries(s, labels);
    SameQueries(snapshot, labels, 0);
  }

  function Occurrences(labels: seq<string>, kind: string, i: nat): nat
    requires i <= |labels|
    decreases |labels| - i
  {
    if i == |labels| then 0 else (if labels[i] == kind then 1 else 0) + Occurrences(labels, kind, i + 1)
  }

  lemma {:induction false} QueriesOfOne(x: Node, labels: seq<string>, i: nat)
    requires i <= |labels|
    ensures |QueriesFrom([x], labels, i)| == Occurrences(labels, x.kind, i)
    decreases |labels| - i
  {
    if i < |labels| {
      QueriesOfOne(x, labels, i + 1);
      assert OfLabel([x], labels[i]) == (if x.kind == labels[i] then [x] else [])
          + Filter([x][1..], (node: Node) => node.kind == labels[i]);
    }
  }

  lemma {:induction false} OccursTwice(labels: seq<string>, i: nat, j: nat, k: nat)
    requires k <= i < j < |labels| && labels[i] == labels[j]
    ensures Occurrences(labels, labels[i], k) >= 2
    decreases |labels| - k
  {
    if k < i {
      OccursTwice(labels, i, j, k + 1);
    } else {
      OccursOnce(labels, j, k + 1);
    }
  }

  lemma {:induction false} OccursOnce(labels: seq<string>, j: nat, k: nat)
    requires k <= j < |labels|
    ensures Occurrences(labels, labels[j], k) >= 1
    decreases |labels| - k
  {
    if k < j { OccursOnce(labels, j, k + 1); }
  }

  /** The single read replaces the queries for every snapshot exactly when no
      label is listed twice. */
  lemma ReadReplacesQueriesIff(labels: seq<string>)
    ensures (forall snapshot :: ReadFiltered(snapshot, labels) == Queries(snapshot, labels)) <==> NoDup(labels)
  {
    if NoDup(labels) {
      forall snapshot
        ensures ReadFiltered(snapshot, labels) == Queries(snapshot, labels)
      {
        ReadIsQueries(snapshot, labels);
      }
    } else {
      var i, j :| 0 <= i < j < |labels| && labels[i] == labels[j];
      var x := Node("", labels[i], Props(Unattributed, false, None, None, map[]));
      OccursTwice(labels, i, j, 0);
      QueriesOfOne(x, labels, 0);
      var listed := Filter([x], node => Labelled(node, labels));
      assert listed == [x] + Filter([x][1..], node => Labelled(node, labels));
      SortMultiset(listed, ByRank(labels));
      SameElements(ReadFiltered([x], labels), listed);
      assert |ReadFiltered([x], labels)| != |Queries([x], labels)|;
    }
  }

  lemma {:induction false} FilterIff<T>(s: seq<T>, p: T -> bool, x: T)
    ensures x in Filter(s, p) <==> x in s && p(x)
  {
    if s != [] {
      FilterIff(s[1..], p, x);
      assert s == [s[0]] + s[1..];
    }
  }

  /** The read holds exactly the nodes of the listed labels. */
  lemma ReadIff(snapshot: seq<Node>, labels: seq<string>, node: Node)
    ensures node in ReadFiltered(snapshot, labels) <==> node in snapshot && node.kind in labels
  {
    var found := Filter(snapshot, (x: Node) => Labelled(x, labels));
    FilterIff(snapshot, (x: Node) => Labelled(x, labels), node);
    SortMultiset(found, ByRank(labels));
    SameElements(Sort(found, ByRank(labels)), found);
  }
}
