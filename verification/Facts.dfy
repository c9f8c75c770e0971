/** Graph facts, their provenance, and which repository owns them. */
module Facts {
  import opened Wrappers
  import opened Sorting

  datatype EvidenceRef = EvidenceRef(repo: string, path: string, byteStart: nat, byteEnd: nat, commit: string)

  datatype Tier = Deterministic | Dynamic | Semantic | Agentic

  datatype Confidence = Confirmed | InferredStrong | InferredWeak | Gap

  /** A content hash, as the content it was taken of: equal hashes mean equal
      hashed contents. */
  datatype Digest =
    | Plain(hex: string)
    | MergedEdge(sources: set<Digest>, spans: seq<EvidenceRef>, omitted: nat)

  datatype Provenance = Provenance(
    tier: Tier,
    confidence: Confidence,
    evidence: seq<EvidenceRef>,
    extractor: string,
    hash: Digest)

  function Rank(confidence: Confidence): nat {
    match confidence
    case Confirmed => 3
    case InferredStrong => 2
    case InferredWeak => 1
    case Gap => 0
  }

  function Ceiling(tier: Tier): Confidence {
    match tier
    case Deterministic => Confirmed
    case Dynamic => Confirmed
    case Semantic => InferredStrong
    case Agentic => InferredWeak
  }

  /** The confidence is one the tier may assert. */
  predicate WithinCeiling(prov: Provenance) { Rank(prov.confidence) <= Rank(Ceiling(prov.tier)) }

  /** Which confidence each tier may assert: a semantic reading never confirms, and
      an agent infers weakly at best. */
  predicate MayAssert(tier: Tier, confidence: Confidence) {
    match tier
    case Deterministic => true
    case Dynamic => true
    case Semantic => confidence != Confirmed
    case Agentic => confidence == InferredWeak || confidence == Gap
  }

  lemma CeilingIff(prov: Provenance)
    ensures WithinCeiling(prov) <==> MayAssert(prov.tier, prov.confidence)
  {
  }

  /** The `prov` property of a fact: missing, present but not a provenance
      record, or parsed. */
  datatype Attribution = Unattributed | Unparsed(extractorId: Option<string>) | Parsed(prov: Provenance)

  /** A JSON value: a string, or anything else. */
  datatype Value = Text(text: string) | Other(json: string)

  /** A fact's properties; `rest` holds every key not named here. */
  datatype Props = Props(
    prov: Attribution,
    placeholder: bool,
    origin: Option<string>,
    evidenceOmitted: Option<nat>,
    rest: map<string, Value>)

  /** A property that is present and a string. */
  function TextAt(props: Props, key: string): Option<string> {
    if key in props.rest && props.rest[key].Text? then Some(props.rest[key].text) else None
  }

  /** Present, parsed and within its tier's ceiling; anything else counts as a gap. */
  predicate Validated(props: Props) { props.prov.Parsed? && WithinCeiling(props.prov.prov) }

  datatype Node = Node(id: string, kind: string, props: Props)

  datatype Edge = Edge(src: string, dst: string, kind: string, props: Props)

  datatype EdgeKey = EdgeKey(src: string, dst: string, kind: string)

  function KeyOf(edge: Edge): EdgeKey {
    EdgeKey(edge.src, edge.dst, edge.kind)
  }

  predicate Touches(key: EdgeKey, id: string) {
    key.src == id || key.dst == id
  }

  // ---- Ownership ----------------------------------------------------------------

  /** Every span of a non-empty evidence list lies in `repo`. */
  predicate FactOwnedBy(props: Props, repo: string) {
    && props.prov.Parsed?
    && props.prov.prov.evidence != []
    && forall i :: 0 <= i < |props.prov.prov.evidence| ==> props.prov.prov.evidence[i].repo == repo
  }

  const SCOPED_KINDS: seq<string> :=
    ["file:", "sym:", "ep:", "res:", "screen:", "adr:", "tool:", "gap:call:", "gap:chan:", "gap:fetch:"]

  predicate IdOwnedBy(id: string, repo: string) {
    || id == "repo:" + repo
    || exists k :: 0 <= k < |SCOPED_KINDS| && SCOPED_KINDS[k] + repo + "@" <= id
  }

  /** The kinds of id that carry their repository. */
  lemma IdOwnedIff(id: string, repo: string)
    ensures IdOwnedBy(id, repo) <==>
            || id == "repo:" + repo
            || "file:" + repo + "@" <= id || "sym:" + repo + "@" <= id || "ep:" + repo + "@" <= id
            || "res:" + repo + "@" <= id || "screen:" + repo + "@" <= id || "adr:" + repo + "@" <= id
            || "tool:" + repo + "@" <= id || "gap:call:" + repo + "@" <= id || "gap:chan:" + repo + "@" <= id
            || "gap:fetch:" + repo + "@" <= id
  {
    assert SCOPED_KINDS[0] == "file:" && SCOPED_KINDS[1] == "sym:" && SCOPED_KINDS[2] == "ep:";
    assert SCOPED_KINDS[3] == "res:" && SCOPED_KINDS[4] == "screen:" && SCOPED_KINDS[5] == "adr:";
    assert SCOPED_KINDS[6] == "tool:" && SCOPED_KINDS[7] == "gap:call:" && SCOPED_KINDS[8] == "gap:chan:";
    assert SCOPED_KINDS[9] == "gap:fetch:" && |SCOPED_KINDS| == 10;
  }

  /** The fact cites something, and nothing of another repository. */
  predicate CitesOnlyOwn(props: Props, repo: string) {
    && props.prov.Parsed? && (exists span :: span in props.prov.prov.evidence)
    && !exists span :: span in props.prov.prov.evidence && span.repo != repo
  }

  lemma FactOwnedIff(props: Props, repo: string)
    ensures FactOwnedBy(props, repo) <==> CitesOnlyOwn(props, repo)
  {
    if FactOwnedBy(props, repo) { assert props.prov.prov.evidence[0] in props.prov.prov.evidence; }
    if CitesOnlyOwn(props, repo) {
      forall i | 0 <= i < |props.prov.prov.evidence| ensures props.prov.prov.evidence[i].repo == repo {
        assert props.prov.prov.evidence[i] in props.prov.prov.evidence;
      }
    }
  }

  // ---- Canonical evidence order -----------------------------------------------------

  predicate TextLeq(a: string, b: string) {
    a == [] || (b != [] && (a[0] < b[0] || (a[0] == b[0] && TextLeq(a[1..], b[1..]))))
  }

  lemma {:induction false} TextLeqTotal(a: string, b: string)
    ensures TextLeq(a, b) || TextLeq(b, a)
    ensures TextLeq(a, b) && TextLeq(b, a) ==> a == b
  {
    if a != [] && b != [] {
      TextLeqTotal(a[1..], b[1..]);
      assert a == [a[0]] + a[1..] && b == [b[0]] + b[1..];
    }
  }

  lemma {:induction false} TextLeqTransitive(a: string, b: string, c: string)
    requires TextLeq(a, b) && TextLeq(b, c)
    ensures TextLeq(a, c)
  {
    if a != [] && a[0] == b[0] == c[0] {
      TextLeqTransitive(a[1..], b[1..], c[1..]);
    }
  }

  lemma TextOrder()
    ensures TotalOrder(TextLeq)
  {
    forall a, b ensures (TextLeq(a, b) || TextLeq(b, a)) && (TextLeq(a, b) && TextLeq(b, a) ==> a == b) {
      TextLeqTotal(a, b);
    }
    forall a, b, c | TextLeq(a, b) && TextLeq(b, c) ensures TextLeq(a, c) {
      TextLeqTransitive(a, b, c);
    }
  }

  /** The texts agree up to `k`, where `a` ends or has the smaller character. */
  predicate DecidedAt(a: string, b: string, k: nat) {
    k <= |a| && k <= |b| && a[..k] == b[..k] && (k == |a| || (k < |b| && a[k] < b[k]))
  }

  /** The order of texts is the alphabetical one. */
  lemma {:induction false} TextLeqIff(a: string, b: string)
    ensures TextLeq(a, b) <==> exists k: nat :: DecidedAt(a, b, k)
  {
    if a == [] {
      assert DecidedAt(a, b, 0);
    } else if b != [] && a[0] == b[0] {
      TextLeqIff(a[1..], b[1..]);
      forall k: nat | DecidedAt(a[1..], b[1..], k) ensures DecidedAt(a, b, k + 1) {
        assert a[..k + 1] == [a[0]] + a[1..][..k] && b[..k + 1] == [b[0]] + b[1..][..k];
      }
      forall k: nat | DecidedAt(a, b, k) ensures k > 0 && DecidedAt(a[1..], b[1..], k - 1) {
        assert a[1..][..k - 1] == a[..k][1..] && b[1..][..k - 1] == b[..k][1..];
      }
    } else if b != [] && a[0] < b[0] {
      assert DecidedAt(a, b, 0);
    } else {
      forall k: nat ensures !DecidedAt(a, b, k) {
        if k > 0 && k <= |a| && k <= |b| { assert a[..k][0] == a[0] && b[..k][0] == b[0]; }
      }
    }
  }

  /** By repo, path, start, end and commit, in that order. */
  predicate SpanLeq(a: EvidenceRef, b: EvidenceRef) {
    if a.repo != b.repo then TextLeq(a.repo, b.repo)
    else if a.path != b.path then TextLeq(a.path, b.path)
    else if a.byteStart != b.byteStart then a.byteStart < b.byteStart
    else if a.byteEnd != b.byteEnd then a.byteEnd < b.byteEnd
    else TextLeq(a.commit, b.commit)
  }

  predicate TextLess(a: string, b: string) { a != b && TextLeq(a, b) }

  /** Spans are ordered by the first field they differ in. */
  lemma SpanLeqIff(a: EvidenceRef, b: EvidenceRef)
    ensures SpanLeq(a, b) <==>
            || a == b || TextLess(a.repo, b.repo) || (a.repo == b.repo && TextLess(a.path, b.path))
            || (a.repo == b.repo && a.path == b.path && a.byteStart < b.byteStart)
            || (a.repo == b.repo && a.path == b.path && a.byteStart == b.byteStart && a.byteEnd < b.byteEnd)
            || (a.repo == b.repo && a.path == b.path && a.byteStart == b.byteStart && a.byteEnd == b.byteEnd
                && TextLess(a.commit, b.commit))
  {
    TextOrder();
  }

  lemma SpanOrder()
    ensures TotalOrder(SpanLeq)
  {
    TextOrder();
  }

  // ---- Scoped identities ---------------------------------------------------------------

  lemma KindsIncomparable(i: nat, j: nat, x: string, y: string)
    requires i < |SCOPED_KINDS| && j < |SCOPED_KINDS| && SCOPED_KINDS[i] + x == SCOPED_KINDS[j] + y
    ensures i == j
  {
    var id := SCOPED_KINDS[i] + x;
    assert forall k :: 0 <= k < |SCOPED_KINDS[i]| ==> id[k] == SCOPED_KINDS[i][k];
    assert forall k :: 0 <= k < |SCOPED_KINDS[j]| ==> id[k] == SCOPED_KINDS[j][k];
    assert id[0] == SCOPED_KINDS[i][0] == SCOPED_KINDS[j][0];
    assert id[1] == SCOPED_KINDS[i][1] == SCOPED_KINDS[j][1];
    assert id[2] == SCOPED_KINDS[i][2] == SCOPED_KINDS[j][2];
    if i >= 7 {
      assert id[4] == SCOPED_KINDS[i][4] == SCOPED_KINDS[j][4];
      assert id[5] == SCOPED_KINDS[i][5] == SCOPED_KINDS[j][5];
      assert id[6] == SCOPED_KINDS[i][6] == SCOPED_KINDS[j][6];
    }
  }

  /** Two repositories can claim one id-scoped node exactly when one key, with
      its separator, is a prefix of the other. */
  predicate ScopesOverlap(a: string, b: string) {
    a + "@" <= b + "@" || b + "@" <= a + "@"
  }

  lemma SharedScopeIff(a: string, b: string)
    requires a != b
    ensures (exists id :: IdOwnedBy(id, a) && IdOwnedBy(id, b)) <==> ScopesOverlap(a, b)
  {
    if ScopesOverlap(a, b) {
      var longer := if |a| <= |b| then b else a;
      var id := SCOPED_KINDS[0] + longer + "@";
      assert SCOPED_KINDS[0] + a + "@" <= id && SCOPED_KINDS[0] + b + "@" <= id by {
        assert a + "@" <= longer + "@" && b + "@" <= longer + "@";
        assert SCOPED_KINDS[0] + a + "@" == SCOPED_KINDS[0] + (a + "@");
        assert SCOPED_KINDS[0] + b + "@" == SCOPED_KINDS[0] + (b + "@");
        assert id == SCOPED_KINDS[0] + (longer + "@");
      }
      assert IdOwnedBy(id, a) && IdOwnedBy(id, b);
    }
    if id :| IdOwnedBy(id, a) && IdOwnedBy(id, b) {
      SharedScopeOverlaps(id, a, b);
    }
  }

  lemma SharedScopeOverlaps(id: string, a: string, b: string)
    requires a != b && IdOwnedBy(id, a) && IdOwnedBy(id, b)
    ensures ScopesOverlap(a, b)
  {
    if id == "repo:" + a || id == "repo:" + b {
      RepoIdScopedOnce(id, a, b);
    } else {
      var i :| 0 <= i < |SCOPED_KINDS| && SCOPED_KINDS[i] + a + "@" <= id;
      var j :| 0 <= j < |SCOPED_KINDS| && SCOPED_KINDS[j] + b + "@" <= id;
      var x, y := id[|SCOPED_KINDS[i]|..], id[|SCOPED_KINDS[j]|..];
      assert id == SCOPED_KINDS[i] + x && id == SCOPED_KINDS[j] + y;
      KindsIncomparable(i, j, x, y);
      assert a + "@" <= x && b + "@" <= x;
    }
  }

  lemma ScopedHead(k: nat, repo: string, id: string)
    requires k < |SCOPED_KINDS| && SCOPED_KINDS[k] + repo + "@" <= id
    ensures |id| > 2 && !(id[0] == 'r' && id[1] == 'e' && id[2] == 'p')
  {
    assert id[0] == SCOPED_KINDS[k][0] && id[1] == SCOPED_KINDS[k][1] && id[2] == SCOPED_KINDS[k][2];
  }

  /** A `repo:` id belongs to the repository it names and to no other. */
  lemma RepoIdScopedOnce(id: string, a: string, b: string)
    requires IdOwnedBy(id, a) && IdOwnedBy(id, b) && (id == "repo:" + a || id == "repo:" + b)
    ensures a == b
  {
    assert id[0] == 'r' && id[1] == 'e' && id[2] == 'p';
    if i: nat :| i < |SCOPED_KINDS| && SCOPED_KINDS[i] + a + "@" <= id {
      ScopedHead(i, a, id);
    } else if j: nat :| j < |SCOPED_KINDS| && SCOPED_KINDS[j] + b + "@" <= id {
      ScopedHead(j, b, id);
    } else {
      assert ("repo:" + a)[5..] == a && ("repo:" + b)[5..] == b;
    }
  }

  lemma OverlapNeedsSeparator(a: string, b: string)
    requires a != b && |a| <= |b| && ScopesOverlap(a, b)
    ensures '@' in b
  {
    assert a + "@" <= b + "@";
    assert (b + "@")[|a|] == '@';
    assert a == (a + "@")[..|a|] && a == (b + "@")[..|a|];
    if |a| < |b| { assert b[|a|] == '@'; }
  }

  /** Keys that contain no separator never share an id-scoped node. */
  lemma PlainKeysShareNothing(a: string, b: string, id: string)
    requires a != b && '@' !in a && '@' !in b
    ensures !(IdOwnedBy(id, a) && IdOwnedBy(id, b))
  {
    if IdOwnedBy(id, a) && IdOwnedBy(id, b) {
      SharedScopeOverlaps(id, a, b);
      if |a| <= |b| { OverlapNeedsSeparator(a, b); } else { OverlapNeedsSeparator(b, a); }
    }
  }
}
