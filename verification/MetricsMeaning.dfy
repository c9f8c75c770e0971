/** What the recorded metrics mean, said of the facts themselves: their parsed
    provenance, their cited spans and their identities. */
module MetricsMeaning {
  import opened Wrappers
  import opened Sorting
  import opened Facts
  import opened SourceBindings
  import opened Metrics

  /** The fact's provenance parses and asserts no more than its tier may. */
  predicate Sound(fact: Fact) {
    var attribution := PropsOf(fact).prov;
    attribution.Parsed? && MayAssert(attribution.prov.tier, attribution.prov.confidence)
  }

  /** A fact states its own confidence; one that is unparsed or over its ceiling
      states a gap. */
  predicate States(fact: Fact, confidence: Confidence) {
    if Sound(fact) then PropsOf(fact).prov.prov.confidence == confidence else confidence == Confidence.Gap
  }

  predicate By(fact: Fact, extractor: string) {
    if Sound(fact) then PropsOf(fact).prov.prov.extractor == extractor else extractor == "spec.invalid-provenance"
  }

  /** The fact soundly cites a span of one of the repositories. */
  predicate CitesIn(fact: Fact, repos: set<string>) {
    && Sound(fact)
    && exists j :: 0 <= j < |PropsOf(fact).prov.prov.evidence| && PropsOf(fact).prov.prov.evidence[j].repo in repos
  }

  /** The file is cited, soundly, by a fact of the extractor. */
  ghost predicate CitedFile(fs: seq<Fact>, repos: set<string>, extractor: string, file: string) {
    exists i, j :: 0 <= i < |fs| && Sound(fs[i]) && 0 <= j < |PropsOf(fs[i]).prov.prov.evidence|
                   && PropsOf(fs[i]).prov.prov.extractor == extractor
                   && IsFileOf(PropsOf(fs[i]).prov.prov.evidence[j], repos, file)
  }

  predicate IsFileOf(span: EvidenceRef, repos: set<string>, file: string) {
    span.repo in repos && file == span.repo + ":" + span.path
  }

  /** The line a fact is recorded by: what it is, who it is, and its hash. */
  predicate IsLine(line: string, fact: Fact, hex: Hex) {
    match fact
    case NodeOf(node) =>
      line == "n " + node.id + " " + node.kind + " "
              + hex(if Sound(fact) then node.props.prov.prov.hash else Plain(node.id))
    case EdgeOf(edge) =>
      var identity := edge.src + " " + edge.kind + " " + edge.dst;
      line == "e " + identity + " " + hex(if Sound(fact) then edge.props.prov.prov.hash else Plain(identity))
  }

  /** Recorded are the facts that cite the repositories and the repositories' own
      nodes, or everything when none is declared. */
  predicate OnRecord(fact: Fact, repos: set<string>) {
    || repos == {} || CitesIn(fact, repos)
    || (fact.NodeOf? && exists repo :: repo in repos && fact.node.id == "repo:" + repo)
  }

  /** How many facts satisfy `p`. */
  ghost function Number<T>(s: seq<T>, p: T -> bool): nat { |Where(s, p)| }

  ghost function Where<T>(s: seq<T>, p: T -> bool): set<nat> { set i: nat | i < |s| && p(s[i]) }

  // ---- The reading is right --------------------------------------------------------------------

  lemma {:induction false} FilterNumber<T>(s: seq<T>, p: T -> bool)
    ensures |Filter(s, p)| == Number(s, p)
  {
    if s == [] {
      assert Where(s, p) == {};
    } else {
      var front, x := s[..|s| - 1], s[|s| - 1];
      FilterNumber(front, p);
      FilterSnoc(front, x, p);
      assert s == front + [x];
      assert Where(s, p) == Where(front, p) + if p(x) then {|front|} else {};
    }
  }

  lemma SameNumber<T(!new)>(s: seq<T>, p: T -> bool, q: T -> bool)
    requires forall x :: p(x) <==> q(x)
    ensures Number(s, p) == Number(s, q)
  {
    assert Where(s, p) == Where(s, q);
  }

  lemma ProvIs(fact: Fact)
    ensures Validated(PropsOf(fact)) <==> Sound(fact)
    ensures Sound(fact) ==> ProvOf(fact) == PropsOf(fact).prov.prov
    ensures !Sound(fact) ==> ProvOf(fact).evidence == [] && ProvOf(fact).confidence == Confidence.Gap
                             && ProvOf(fact).extractor == "spec.invalid-provenance"
    ensures States(fact, ProvOf(fact).confidence) && By(fact, ProvOf(fact).extractor)
  {
    if PropsOf(fact).prov.Parsed? { CeilingIff(PropsOf(fact).prov.prov); }
  }

  /** Each tally counts exactly the facts that state its confidence. */
  lemma TallyIs(fs: seq<Fact>, confidence: Confidence)
    ensures Tally(fs, confidence) == Number(fs, (f: Fact) => States(f, confidence))
  {
    var p, q := (f: Fact) => ProvOf(f).confidence == confidence, (f: Fact) => States(f, confidence);
    forall f ensures p(f) <==> q(f) { ProvIs(f); }
    FilterNumber(fs, p);
    SameNumber(fs, p, q);
  }

  lemma InScopeIff(fact: Fact, repos: set<string>)
    ensures InScope(fact, repos) <==> repos == {} || CitesIn(fact, repos)
  {
    ProvIs(fact);
  }

  /** An extractor's row counts exactly its facts in scope; one that is unparsed or
      over its ceiling counts for no extractor but the invalid one. */
  lemma FactsByIs(fs: seq<Fact>, repos: set<string>, extractor: string)
    ensures FactsBy(fs, repos, extractor)
            == Number(fs, (f: Fact) => (repos == {} || CitesIn(f, repos)) && By(f, extractor))
  {
    var p := (f: Fact) => InScope(f, repos) && ProvOf(f).extractor == extractor;
    var q := (f: Fact) => (repos == {} || CitesIn(f, repos)) && By(f, extractor);
    forall f ensures p(f) <==> q(f) {
      ProvIs(f);
      InScopeIff(f, repos);
    }
    FilterNumber(fs, p);
    SameNumber(fs, p, q);
  }

  /** And its files are exactly those its facts soundly cite in the repositories. */
  lemma FilesByIs(fs: seq<Fact>, repos: set<string>, extractor: string, file: string)
    ensures file in FilesBy(fs, repos, extractor) <==> CitedFile(fs, repos, extractor, file)
  {
    if file in FilesBy(fs, repos, extractor) {
      var i :| 0 <= i < |fs| && InScope(fs[i], repos) && ProvOf(fs[i]).extractor == extractor
               && file in FilesOf(fs[i], repos);
      ProvIs(fs[i]);
      var evidence := ProvOf(fs[i]).evidence;
      var j :| 0 <= j < |evidence| && evidence[j].repo in repos && file == evidence[j].repo + ":" + evidence[j].path;
      assert IsFileOf(PropsOf(fs[i]).prov.prov.evidence[j], repos, file);
    }
    if CitedFile(fs, repos, extractor, file) {
      var i, j :| 0 <= i < |fs| && Sound(fs[i]) && 0 <= j < |PropsOf(fs[i]).prov.prov.evidence|
                  && PropsOf(fs[i]).prov.prov.extractor == extractor
                  && IsFileOf(PropsOf(fs[i]).prov.prov.evidence[j], repos, file);
      ProvIs(fs[i]);
      InScopeIff(fs[i], repos);
      assert file in FilesOf(fs[i], repos);
    }
  }

  lemma LineIs(fact: Fact, hex: Hex)
    ensures IsLine(LineOf(fact, hex), fact, hex)
  {
    ProvIs(fact);
  }

  lemma OnRecordIff(fact: Fact, repos: set<string>)
    ensures Recorded(fact, repos) <==> OnRecord(fact, repos)
  {
    InScopeIff(fact, repos);
    if OwnRegistration(fact, repos) { assert fact.node.id == "repo:" + fact.node.id[5..]; }
    if fact.NodeOf? && exists repo :: repo in repos && fact.node.id == "repo:" + repo {
      var repo :| repo in repos && fact.node.id == "repo:" + repo;
      assert fact.node.id[5..] == repo;
    }
  }

  /** `lines` holds one line per recorded fact among the first `n`, in their order;
      `at[k]` is the fact of line `k`. */
  ghost predicate Renders(fs: seq<Fact>, n: nat, repos: set<string>, hex: Hex, lines: seq<string>, at: seq<nat>) {
    && n <= |fs| && |at| == |lines|
    && (forall k :: 0 <= k < |at| ==> at[k] < n && IsLine(lines[k], fs[at[k]], hex))
    && (forall j, k :: 0 <= j < k < |at| ==> at[j] < at[k])
    && (forall i: nat :: i in at <==> i < n && OnRecord(fs[i], repos))
  }

  lemma RendersMore(fs: seq<Fact>, n: nat, repos: set<string>, hex: Hex, lines: seq<string>, at: seq<nat>, line: string)
    requires n < |fs| && Renders(fs, n, repos, hex, lines, at) && IsLine(line, fs[n], hex)
    ensures OnRecord(fs[n], repos) ==> Renders(fs, n + 1, repos, hex, lines + [line], at + [n])
    ensures !OnRecord(fs[n], repos) ==> Renders(fs, n + 1, repos, hex, lines, at)
  {
  }

  /** The hashed text is made of exactly those lines, sorted. */
  lemma {:induction false} LinesAre(fs: seq<Fact>, repos: set<string>, hex: Hex, n: nat) returns (at: seq<nat>)
    requires n <= |fs|
    ensures Renders(fs, n, repos, hex, Lines(fs[..n], repos, hex), at)
  {
    at := [];
    if n > 0 {
      var m := n - 1;
      at := LinesAre(fs, repos, hex, m);
      assert fs[..n][..m] == fs[..m];
      OnRecordIff(fs[m], repos);
      LineIs(fs[m], hex);
      RendersMore(fs, m, repos, hex, Lines(fs[..m], repos, hex), at, LineOf(fs[m], hex));
      if Recorded(fs[m], repos) {
        at := at + [m];
      } else {
        assert Lines(fs[..m], repos, hex) + [] == Lines(fs[..m], repos, hex);
      }
    }
  }

  /** What a record says of its facts. */
  ghost predicate Reports(m: GraphMetrics, fs: seq<Fact>, scope: map<string, nat>, repos: set<string>, hex: Hex) {
    && m.confirmed == Number(fs, (f: Fact) => States(f, Confirmed))
    && m.inferredStrong == Number(fs, (f: Fact) => States(f, InferredStrong))
    && m.inferredWeak == Number(fs, (f: Fact) => States(f, InferredWeak))
    && m.gap == Number(fs, (f: Fact) => States(f, Confidence.Gap))
    && m.graphFacts == |fs|
    && (exists lines, at :: Renders(fs, |fs|, repos, hex, lines, at) && m.hashed == Join(Sort(lines, TextLeq)))
    && forall x :: RowIs(m, fs, scope, repos, x)
  }

  ghost predicate RowIs(m: GraphMetrics, fs: seq<Fact>, scope: map<string, nat>, repos: set<string>, x: string) {
    var facts := Number(fs, (f: Fact) => (repos == {} || CitesIn(f, repos)) && By(f, x));
    && (x in m.coverage <==> x in scope || facts > 0)
    && (x in m.coverage ==>
          && m.coverage[x].facts == facts && m.coverage[x].scoped == (x in scope)
          && m.coverage[x].filesInScope == (if x in scope then scope[x] else 0)
          && exists files: set<string> :: |files| == m.coverage[x].filesWithFacts
                             && forall file :: file in files <==> CitedFile(fs, repos, x, file))
  }

  /** The computed record says exactly that. */
  lemma MeasuresReport(m: GraphMetrics, fs: seq<Fact>, scope: map<string, nat>, repos: set<string>, hex: Hex)
    requires Measures(m, fs, scope, repos, hex)
    ensures Reports(m, fs, scope, repos, hex)
  {
    var at := LinesAre(fs, repos, hex, |fs|);
    assert fs[..|fs|] == fs;
    TallyIs(fs, Confirmed);
    TallyIs(fs, InferredStrong);
    TallyIs(fs, InferredWeak);
    TallyIs(fs, Confidence.Gap);
    forall x ensures RowIs(m, fs, scope, repos, x) {
      FactsByIs(fs, repos, x);
      forall file ensures file in FilesBy(fs, repos, x) <==> CitedFile(fs, repos, x, file) {
        FilesByIs(fs, repos, x, file);
      }
    }
  }
}
