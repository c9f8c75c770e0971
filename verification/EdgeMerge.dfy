/** Collapsing repeated `(src, dst, label)` occurrences to one stored edge. */
module EdgeMerge {
  import opened Wrappers
  import opened Sorting
  import opened Facts

  const MAX_MERGED_EVIDENCE: nat := 32

  /** The occurrences whose evidence joins the last one's. */
  predicate Joins(edge: Edge, prov: Provenance) {
    && edge.props.prov.Parsed?
    && edge.props.prov.prov.tier == prov.tier
    && edge.props.prov.prov.confidence == prov.confidence
    && edge.props.prov.prov.extractor == prov.extractor
  }

  function Joined(occurrences: seq<Edge>, prov: Provenance): seq<Edge> {
    Filter(occurrences, edge => Joins(edge, prov))
  }

  function Cited(edges: seq<Edge>): seq<EvidenceRef> {
    if edges == [] then []
    else (if edges[0].props.prov.Parsed? then edges[0].props.prov.prov.evidence else []) + Cited(edges[1..])
  }

  function Hashes(edges: seq<Edge>): set<Digest> {
    set i | 0 <= i < |edges| && edges[i].props.prov.Parsed? :: edges[i].props.prov.prov.hash
  }

  /** The canonical span list: sorted, without repeats, before any bound. */
  function Spans(edges: seq<Edge>): seq<EvidenceRef> {
    Dedup(Sort(Cited(edges), SpanLeq))
  }

  function Omitted(spans: seq<EvidenceRef>): nat {
    if |spans| > MAX_MERGED_EVIDENCE then |spans| - MAX_MERGED_EVIDENCE else 0
  }

  function Bounded(spans: seq<EvidenceRef>): seq<EvidenceRef> {
    if |spans| > MAX_MERGED_EVIDENCE then spans[..MAX_MERGED_EVIDENCE] else spans
  }

  function WithEvidence(last: Edge, prov: Provenance, joined: nat, hashes: set<Digest>, spans: seq<EvidenceRef>): Edge {
    var hash := if joined > 1 then MergedEdge(hashes, spans, Omitted(spans)) else prov.hash;
    var merged := last.props.(prov := Parsed(prov.(hash := hash, evidence := Bounded(spans))));
    last.(props := if Omitted(spans) > 0 then merged.(evidenceOmitted := Some(Omitted(spans))) else merged)
  }

  function MergeGroup(occurrences: seq<Edge>): Edge
    requires occurrences != []
  {
    var last := occurrences[|occurrences| - 1];
    if |occurrences| == 1 || !last.props.prov.Parsed? then last
    else
      var prov := last.props.prov.prov;
      var joined := Joined(occurrences, prov);
      WithEvidence(last, prov, |joined|, Hashes(joined), Spans(joined))
  }

  function Group(edges: seq<Edge>, key: EdgeKey): seq<Edge> {
    Filter(edges, edge => KeyOf(edge) == key)
  }

  function Keys(edges: seq<Edge>): set<EdgeKey> {
    set i | 0 <= i < |edges| :: KeyOf(edges[i])
  }

  lemma {:induction false} GroupNonEmpty(edges: seq<Edge>, key: EdgeKey)
    ensures Group(edges, key) != [] <==> key in Keys(edges)
    ensures forall i :: 0 <= i < |Group(edges, key)| ==>
            KeyOf(Group(edges, key)[i]) == key && Group(edges, key)[i] in edges
  {
    if edges != [] {
      GroupNonEmpty(edges[1..], key);
      assert edges == [edges[0]] + edges[1..];
      assert Keys(edges) == {KeyOf(edges[0])} + Keys(edges[1..]);
    }
  }

  /** One edge per distinct key. */
  function MergeEdges(edges: seq<Edge>): map<EdgeKey, Edge> {
    map key | key in Keys(edges) ::
      (GroupNonEmpty(edges, key); MergeGroup(Group(edges, key)))
  }

  // ---- The host's loops ---------------------------------------------------------

  method MergeEdgeGroup(occurrences: seq<Edge>) returns (merged: Edge)
    requires occurrences != []
    ensures merged == MergeGroup(occurrences)
  {
    var last := occurrences[|occurrences| - 1];
    if |occurrences| == 1 || !last.props.prov.Parsed? { return last; }
    var prov := last.props.prov.prov;
    var evidence, hashes, unioned := [], {}, 0;
    for i := 0 to |occurrences|
      invariant evidence == Cited(Joined(occurrences[..i], prov))
      invariant hashes == Hashes(Joined(occurrences[..i], prov))
      invariant unioned == |Joined(occurrences[..i], prov)|
    {
      var edge := occurrences[i];
      JoinedSnoc(occurrences[..i], edge, prov);
      assert occurrences[..i + 1] == occurrences[..i] + [edge];
      if Joins(edge, prov) {
        evidence := evidence + edge.props.prov.prov.evidence;
        hashes := hashes + {edge.props.prov.prov.hash};
        unioned := unioned + 1;
      }
    }
    assert occurrences[..|occurrences|] == occurrences;
    merged := WithEvidence(last, prov, unioned, hashes, Dedup(Sort(evidence, SpanLeq)));
  }

  lemma JoinedSnoc(edges: seq<Edge>, edge: Edge, prov: Provenance)
    ensures var joined := Joined(edges, prov);
            if Joins(edge, prov) then
              && Joined(edges + [edge], prov) == joined + [edge]
              && Cited(joined + [edge]) == Cited(joined) + edge.props.prov.prov.evidence
              && Hashes(joined + [edge]) == Hashes(joined) + {edge.props.prov.prov.hash}
            else Joined(edges + [edge], prov) == joined
  {
    var p := (e: Edge) => Joins(e, prov);
    FilterAppend(edges, [edge], p);
    assert Filter([edge], p) == (if p(edge) then [edge] else []) + Filter([edge][1..], p);
    if Joins(edge, prov) {
      var joined := Joined(edges, prov);
      CitedAppend(joined, [edge]);
      assert Cited([edge]) == edge.props.prov.prov.evidence + Cited([edge][1..]);
      HashesSnoc(joined, edge);
    }
  }

  lemma HashesSnoc(edges: seq<Edge>, edge: Edge)
    requires edge.props.prov.Parsed?
    ensures Hashes(edges + [edge]) == Hashes(edges) + {edge.props.prov.prov.hash}
  {
    var all := edges + [edge];
    forall h ensures h in Hashes(all) <==> h in Hashes(edges) + {edge.props.prov.prov.hash} {
      if h in Hashes(edges) {
        var i :| 0 <= i < |edges| && edges[i].props.prov.Parsed? && edges[i].props.prov.prov.hash == h;
        assert all[i] == edges[i];
      }
      assert all[|edges|] == edge;
    }
  }

  lemma {:induction false} CitedAppend(a: seq<Edge>, b: seq<Edge>)
    ensures Cited(a + b) == Cited(a) + Cited(b)
  {
    if a == [] {
      assert a + b == b;
    } else {
      assert (a + b)[1..] == a[1..] + b;
      CitedAppend(a[1..], b);
    }
  }

  method MergeEdgeOccurrences(edges: seq<Edge>) returns (merged: map<EdgeKey, Edge>)
    ensures merged == MergeEdges(edges)
  {
    var groups: map<EdgeKey, seq<Edge>> := map[];
    for i := 0 to |edges|
      invariant groups.Keys == Keys(edges[..i])
      invariant forall key :: key in groups ==> groups[key] == Group(edges[..i], key)
    {
      var key := KeyOf(edges[i]);
      assert edges[..i + 1] == edges[..i] + [edges[i]];
      forall k ensures Group(edges[..i + 1], k) == Group(edges[..i], k) + (if k == key then [edges[i]] else []) {
        GroupSnoc(edges[..i], edges[i], k);
      }
      GroupNonEmpty(edges[..i], key);
      groups := groups[key := (if key in groups then groups[key] else []) + [edges[i]]];
    }
    assert edges[..|edges|] == edges;
    merged := map[];
    var todo := groups.Keys;
    while todo != {}
      invariant todo <= groups.Keys
      invariant merged.Keys == groups.Keys - todo
      invariant forall key :: key in merged ==> merged[key] == MergeEdges(edges)[key]
    {
      var key :| key in todo;
      GroupNonEmpty(edges, key);
      var edge := MergeEdgeGroup(groups[key]);
      merged, todo := merged[key := edge], todo - {key};
    }
  }

  lemma GroupSnoc(edges: seq<Edge>, edge: Edge, key: EdgeKey)
    ensures Group(edges + [edge], key) == Group(edges, key) + (if KeyOf(edge) == key then [edge] else [])
  {
    var p := (e: Edge) => KeyOf(e) == key;
    FilterAppend(edges, [edge], p);
    assert Filter([edge], p) == (if p(edge) then [edge] else []) + Filter([edge][1..], p);
  }

  // ---- What a merged edge says ----------------------------------------------------

  /** `span` is cited by an occurrence that joins the last one. */
  ghost predicate CitedBy(occurrences: seq<Edge>, prov: Provenance, span: EvidenceRef) {
    exists i :: 0 <= i < |occurrences| && Joins(occurrences[i], prov) && span in occurrences[i].props.prov.prov.evidence
  }

  ghost predicate HashedBy(occurrences: seq<Edge>, prov: Provenance, hash: Digest) {
    exists i :: 0 <= i < |occurrences| && Joins(occurrences[i], prov) && occurrences[i].props.prov.prov.hash == hash
  }

  lemma {:induction false} JoinedMembers(occurrences: seq<Edge>, prov: Provenance)
    ensures forall edge :: edge in Joined(occurrences, prov) <==> edge in occurrences && Joins(edge, prov)
  {
    if occurrences != [] {
      JoinedMembers(occurrences[1..], prov);
      assert occurrences == [occurrences[0]] + occurrences[1..];
    }
  }

  lemma {:induction false} CitedMembers(edges: seq<Edge>, span: EvidenceRef)
    ensures span in Cited(edges) <==>
            exists edge :: edge in edges && edge.props.prov.Parsed? && span in edge.props.prov.prov.evidence
  {
    if edges != [] {
      CitedMembers(edges[1..], span);
      assert edges == [edges[0]] + edges[1..];
    }
  }

  /** The canonical spans are strictly sorted and are exactly what the joining
      occurrences cite; the hashes are exactly theirs. */
  lemma SpansOfGroup(occurrences: seq<Edge>, prov: Provenance)
    ensures var spans := Spans(Joined(occurrences, prov));
            && Strict(spans, SpanLeq)
            && (forall span :: span in spans <==> CitedBy(occurrences, prov, span))
            && (forall hash :: hash in Hashes(Joined(occurrences, prov)) <==> HashedBy(occurrences, prov, hash))
  {
    var joined := Joined(occurrences, prov);
    var cited := Cited(joined);
    SpanOrder();
    SortSorted(cited, SpanLeq);
    SortMultiset(cited, SpanLeq);
    SameElements(Sort(cited, SpanLeq), cited);
    DedupStrict(Sort(cited, SpanLeq), SpanLeq);
    JoinedMembers(occurrences, prov);
    forall span ensures span in cited <==> CitedBy(occurrences, prov, span) {
      CitedMembers(joined, span);
    }
    forall hash ensures hash in Hashes(joined) <==> HashedBy(occurrences, prov, hash) {
      if hash in Hashes(joined) {
        var i :| 0 <= i < |joined| && joined[i].props.prov.Parsed? && joined[i].props.prov.prov.hash == hash;
        assert joined[i] in occurrences;
      }
      if HashedBy(occurrences, prov, hash) {
        var i :| 0 <= i < |occurrences| && Joins(occurrences[i], prov) && occurrences[i].props.prov.prov.hash == hash;
        assert occurrences[i] in joined;
      }
    }
  }

  /** A collapsed relation keeps the last occurrence's identity and properties
      and cites the first 32 of the sorted distinct spans of every joining
      occurrence; kept plus omitted is the distinct count. */
  lemma MergedEdgeCites(occurrences: seq<Edge>) returns (spans: seq<EvidenceRef>)
    requires |occurrences| > 1 && occurrences[|occurrences| - 1].props.prov.Parsed?
    ensures var last := occurrences[|occurrences| - 1];
            var prov := last.props.prov.prov;
            var merged := MergeGroup(occurrences);
            && Strict(spans, SpanLeq)
            && (forall span :: span in spans <==> CitedBy(occurrences, prov, span))
            && KeyOf(merged) == KeyOf(last)
            && merged.props.placeholder == last.props.placeholder && merged.props.origin == last.props.origin
            && merged.props.rest == last.props.rest
            && merged.props.prov.Parsed? && Joins(merged, prov)
            && var kept := merged.props.prov.prov.evidence;
            && kept <= spans && |kept| <= MAX_MERGED_EVIDENCE
            && (|kept| < |spans| ==> |kept| == MAX_MERGED_EVIDENCE)
            && (|kept| < |spans| ==> merged.props.evidenceOmitted == Some(|spans| - |kept|))
            && (|kept| == |spans| ==> merged.props.evidenceOmitted == last.props.evidenceOmitted)
  {
    var prov := occurrences[|occurrences| - 1].props.prov.prov;
    spans := Spans(Joined(occurrences, prov));
    SpansOfGroup(occurrences, prov);
  }

  /** Both were read alike: parsed, of one tier, confidence and extractor. */
  predicate Alike(a: Edge, b: Edge) {
    && a.props.prov.Parsed? && b.props.prov.Parsed?
    && a.props.prov.prov.tier == b.props.prov.prov.tier
    && a.props.prov.prov.confidence == b.props.prov.prov.confidence
    && a.props.prov.prov.extractor == b.props.prov.prov.extractor
  }

  lemma JoinsIff(edge: Edge, last: Edge)
    requires last.props.prov.Parsed?
    ensures Joins(edge, last.props.prov.prov) <==> Alike(edge, last)
  {
  }

  /** What a group merges to: one occurrence, or a last one that does not parse, is
      itself; otherwise the evidence is the first 32, in order, of all spans that
      occurrences read like the last cite, and the hash is the last's own unless
      another occurrence was read like it. */
  lemma MergedEdgeIs(occurrences: seq<Edge>) returns (spans: seq<EvidenceRef>)
    requires occurrences != []
    ensures var last, merged := occurrences[|occurrences| - 1], MergeGroup(occurrences);
            if |occurrences| == 1 || !last.props.prov.Parsed? then merged == last
            else
              && Strict(spans, SpanLeq)
              && (forall span :: span in spans <==>
                    exists i :: 0 <= i < |occurrences| && Alike(occurrences[i], last)
                                && span in occurrences[i].props.prov.prov.evidence)
              && merged.src == last.src && merged.dst == last.dst && merged.kind == last.kind && Alike(merged, last)
              && merged.props.prov.prov.evidence == (if |spans| > 32 then spans[..32] else spans)
              && ((forall i :: 0 <= i < |occurrences| - 1 ==> !Alike(occurrences[i], last)) ==>
                    merged.props.prov.prov.hash == last.props.prov.prov.hash)
  {
    var last := occurrences[|occurrences| - 1];
    spans := [];
    if |occurrences| > 1 && last.props.prov.Parsed? {
      var prov := last.props.prov.prov;
      spans := Spans(Joined(occurrences, prov));
      SpansOfGroup(occurrences, prov);
      assert forall i :: 0 <= i < |occurrences| ==> (Joins(occurrences[i], prov) <==> Alike(occurrences[i], last));
      if forall i :: 0 <= i < |occurrences| - 1 ==> !Alike(occurrences[i], last) { OnlyLastJoins(occurrences, prov); }
    }
  }

  lemma {:induction false} OnlyLastJoins(occurrences: seq<Edge>, prov: Provenance)
    requires occurrences != [] && forall i :: 0 <= i < |occurrences| - 1 ==> !Joins(occurrences[i], prov)
    ensures |Joined(occurrences, prov)| <= 1
  {
    var rest := occurrences[1..];
    assert Joined(occurrences, prov)
        == (if Joins(occurrences[0], prov) then [occurrences[0]] else []) + Joined(rest, prov);
    if rest == [] {
      assert Joined(rest, prov) == [];
    } else {
      OnlyLastJoins(rest, prov);
    }
  }

  // ---- Order independence ------------------------------------------------------------

  lemma {:induction false} FilterCount<T>(s: seq<T>, p: T -> bool, x: T)
    ensures multiset(Filter(s, p))[x] == if p(x) then multiset(s)[x] else 0
  {
    if s != [] {
      FilterCount(s[1..], p, x);
      assert s == [s[0]] + s[1..];
    }
  }

  lemma MembersOfPermutation(a: seq<Edge>, b: seq<Edge>, prov: Provenance)
    requires multiset(a) == multiset(b)
    ensures |Joined(a, prov)| == |Joined(b, prov)|
    ensures Hashes(Joined(a, prov)) == Hashes(Joined(b, prov))
    ensures Spans(Joined(a, prov)) == Spans(Joined(b, prov))
  {
    var p := (edge: Edge) => Joins(edge, prov);
    forall x ensures multiset(Filter(a, p))[x] == multiset(Filter(b, p))[x] {
      FilterCount(a, p, x);
      FilterCount(b, p, x);
    }
    SameElements(Filter(a, p), Filter(b, p));
    SameElements(a, b);
    SpansOfGroup(a, prov);
    SpansOfGroup(b, prov);
    forall span ensures CitedBy(a, prov, span) <==> CitedBy(b, prov, span) {
      SameCitations(a, b, prov, span);
      SameCitations(b, a, prov, span);
    }
    SpanOrder();
    StrictUnique(Spans(Joined(a, prov)), Spans(Joined(b, prov)), SpanLeq);
    forall hash ensures HashedBy(a, prov, hash) <==> HashedBy(b, prov, hash) {
      SameHashes(a, b, prov, hash);
      SameHashes(b, a, prov, hash);
    }
  }

  lemma SameCitations(a: seq<Edge>, b: seq<Edge>, prov: Provenance, span: EvidenceRef)
    requires forall edge :: edge in a ==> edge in b
    ensures CitedBy(a, prov, span) ==> CitedBy(b, prov, span)
  {
    if CitedBy(a, prov, span) {
      var i :| 0 <= i < |a| && Joins(a[i], prov) && span in a[i].props.prov.prov.evidence;
      assert a[i] in b;
    }
  }

  lemma SameHashes(a: seq<Edge>, b: seq<Edge>, prov: Provenance, hash: Digest)
    requires forall edge :: edge in a ==> edge in b
    ensures HashedBy(a, prov, hash) ==> HashedBy(b, prov, hash)
  {
    if HashedBy(a, prov, hash) {
      var i :| 0 <= i < |a| && Joins(a[i], prov) && a[i].props.prov.prov.hash == hash;
      assert a[i] in b;
    }
  }

  /** Only the last occurrence's place matters: any other reordering of the
      occurrences merges to the same edge. */
  lemma MergeForgetsOrder(a: seq<Edge>, b: seq<Edge>)
    requires a != [] && b != [] && multiset(a) == multiset(b) && a[|a| - 1] == b[|b| - 1]
    ensures MergeGroup(a) == MergeGroup(b)
  {
    SameElements(a, b);
    if a[|a| - 1].props.prov.Parsed? {
      MembersOfPermutation(a, b, a[|a| - 1].props.prov.prov);
    }
  }

  // ---- The merged hash --------------------------------------------------------------------

  /** More than one occurrence's evidence was unioned. */
  predicate Collapsed(occurrences: seq<Edge>) {
    && |occurrences| > 1 && occurrences[|occurrences| - 1].props.prov.Parsed?
    && |Joined(occurrences, occurrences[|occurrences| - 1].props.prov.prov)| > 1
  }

  ghost predicate SameSites(a: seq<Edge>, b: seq<Edge>)
    requires Collapsed(a) && Collapsed(b)
  {
    var p, q := a[|a| - 1].props.prov.prov, b[|b| - 1].props.prov.prov;
    && (forall span :: CitedBy(a, p, span) <==> CitedBy(b, q, span))
    && (forall hash :: HashedBy(a, p, hash) <==> HashedBy(b, q, hash))
  }

  /** Two collapsed relations share a hash exactly when they cite the same spans
      — those beyond the bound included — and union the same fact hashes. */
  lemma MergedHashIff(a: seq<Edge>, b: seq<Edge>)
    requires Collapsed(a) && Collapsed(b)
    ensures MergeGroup(a).props.prov.prov.hash == MergeGroup(b).props.prov.prov.hash <==> SameSites(a, b)
  {
    CollapsedHash(a);
    CollapsedHash(b);
    SameSitesIff(a, b);
  }

  lemma CollapsedHash(occurrences: seq<Edge>)
    requires Collapsed(occurrences)
    ensures var joined := Joined(occurrences, occurrences[|occurrences| - 1].props.prov.prov);
            && MergeGroup(occurrences).props.prov.Parsed?
            && MergeGroup(occurrences).props.prov.prov.hash
                == MergedEdge(Hashes(joined), Spans(joined), Omitted(Spans(joined)))
  {
  }

  lemma SameSitesIff(a: seq<Edge>, b: seq<Edge>)
    requires Collapsed(a) && Collapsed(b)
    ensures var x, y := Joined(a, a[|a| - 1].props.prov.prov), Joined(b, b[|b| - 1].props.prov.prov);
            SameSites(a, b) <==> Hashes(x) == Hashes(y) && Spans(x) == Spans(y)
  {
    var p, q := a[|a| - 1].props.prov.prov, b[|b| - 1].props.prov.prov;
    var x, y := Joined(a, p), Joined(b, q);
    SpansOfGroup(a, p);
    SpansOfGroup(b, q);
    if SameSites(a, b) {
      SpanOrder();
      StrictUnique(Spans(x), Spans(y), SpanLeq);
      assert Hashes(x) == Hashes(y);
    }
    if Hashes(x) == Hashes(y) && Spans(x) == Spans(y) {
      forall span
        ensures CitedBy(a, p, span) <==> CitedBy(b, q, span)
      {
        assert span in Spans(x) <==> span in Spans(y);
      }
      forall hash
        ensures HashedBy(a, p, hash) <==> HashedBy(b, q, hash)
      {
        assert hash in Hashes(x) <==> hash in Hashes(y);
      }
    }
  }

  lemma NotItsOwnSource(digest: Digest)
    requires digest.MergedEdge?
    ensures digest !in digest.sources
  {
  }

  /** A collapsed relation is not the fact any single occurrence stated. */
  lemma CollapsedIsNoOccurrence(occurrences: seq<Edge>, i: nat)
    requires Collapsed(occurrences) && i < |occurrences|
    ensures MergeGroup(occurrences) != occurrences[i]
  {
    var prov := occurrences[|occurrences| - 1].props.prov.prov;
    var merged := MergeGroup(occurrences);
    SpansOfGroup(occurrences, prov);
    NotItsOwnSource(merged.props.prov.prov.hash);
    if Joins(occurrences[i], prov) {
      assert HashedBy(occurrences, prov, occurrences[i].props.prov.prov.hash);
    } else {
      assert Joins(merged, prov);
    }
  }
}
