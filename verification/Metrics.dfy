/** Recovery metrics: confidence tallies, per-extractor coverage and the
    recorded content hash of one graph projection. */
module Metrics {
  import opened Wrappers
  import opened Sorting
  import opened Facts
  import opened SourceBindings
  import EdgeMerge

  /** Renders a per-fact content hash; nothing below depends on how. */
  type Hex = Digest -> string

  function Identity(fact: Fact): string {
    match fact
    case NodeOf(node) => node.id
    case EdgeOf(edge) => edge.src + " " + edge.kind + " " + edge.dst
  }

  /** The fact's provenance, or an explicit gap when it carries none that validates. */
  function ProvOf(fact: Fact): Provenance {
    if Validated(PropsOf(fact)) then PropsOf(fact).prov.prov
    else Provenance(Deterministic, Confidence.Gap, [], "spec.invalid-provenance", Plain(Identity(fact)))
  }

  predicate CitesAny(prov: Provenance, repos: set<string>) {
    exists i :: 0 <= i < |prov.evidence| && prov.evidence[i].repo in repos
  }

  /** No declared registration means everything is in scope. */
  predicate InScope(fact: Fact, repos: set<string>) {
    repos == {} || CitesAny(ProvOf(fact), repos)
  }

  predicate OwnRegistration(fact: Fact, repos: set<string>) {
    fact.NodeOf? && "repo:" <= fact.node.id && fact.node.id[5..] in repos
  }

  predicate Recorded(fact: Fact, repos: set<string>) {
    InScope(fact, repos) || OwnRegistration(fact, repos)
  }

  function LineOf(fact: Fact, hex: Hex): string {
    match fact
    case NodeOf(node) => "n " + node.id + " " + node.kind + " " + hex(ProvOf(fact).hash)
    case EdgeOf(_) => "e " + Identity(fact) + " " + hex(ProvOf(fact).hash)
  }

  datatype Row = Row(facts: nat, filesWithFacts: nat, filesInScope: nat, scoped: bool)

  datatype GraphMetrics = GraphMetrics(
    confirmed: nat, inferredStrong: nat, inferredWeak: nat, gap: nat, graphFacts: nat,
    hashed: string, coverage: map<string, Row>)

  // ---- What each metric means ------------------------------------------------------------------

  function Tally(fs: seq<Fact>, tier: Confidence): nat {
    |Filter(fs, f => ProvOf(f).confidence == tier)|
  }

  function FactsBy(fs: seq<Fact>, repos: set<string>, extractor: string): nat {
    |Filter(fs, f => InScope(f, repos) && ProvOf(f).extractor == extractor)|
  }

  function FilesOf(fact: Fact, repos: set<string>): set<string> {
    set i | 0 <= i < |ProvOf(fact).evidence| && ProvOf(fact).evidence[i].repo in repos ::
      ProvOf(fact).evidence[i].repo + ":" + ProvOf(fact).evidence[i].path
  }

  function FilesBy(fs: seq<Fact>, repos: set<string>, extractor: string): set<string> {
    set i, file | 0 <= i < |fs| && InScope(fs[i], repos) && ProvOf(fs[i]).extractor == extractor
        && file in FilesOf(fs[i], repos)
      :: file
  }

  function Lines(fs: seq<Fact>, repos: set<string>, hex: Hex): seq<string> {
    if fs == [] then []
    else Lines(fs[..|fs| - 1], repos, hex) + if Recorded(fs[|fs| - 1], repos) then [LineOf(fs[|fs| - 1], hex)] else []
  }

  function Join(lines: seq<string>): string {
    if lines == [] then "" else if |lines| == 1 then lines[0] else lines[0] + "\n" + Join(lines[1..])
  }

  ghost predicate Covers(coverage: map<string, Row>, fs: seq<Fact>, scope: map<string, nat>, repos: set<string>) {
    forall x ::
      && (x in coverage <==> x in scope || FactsBy(fs, repos, x) > 0)
      && (x in coverage ==>
            coverage[x] == Row(FactsBy(fs, repos, x), |FilesBy(fs, repos, x)|,
                               if x in scope then scope[x] else 0, x in scope))
  }

  ghost predicate Measures(m: GraphMetrics, fs: seq<Fact>, scope: map<string, nat>, repos: set<string>, hex: Hex) {
    && m.confirmed == Tally(fs, Confirmed) && m.inferredStrong == Tally(fs, InferredStrong)
    && m.inferredWeak == Tally(fs, InferredWeak) && m.gap == Tally(fs, Confidence.Gap)
    && m.graphFacts == |fs|
    && m.hashed == Join(Sort(Lines(fs, repos, hex), TextLeq))
    && Covers(m.coverage, fs, scope, repos)
  }

  // ---- The host's walk ------------------------------------------------------------------------------

  datatype Counts = Counts(confirmed: nat, inferredStrong: nat, inferredWeak: nat, gap: nat)

  function CountOne(c: Counts, tier: Confidence): Counts {
    match tier
    case Confirmed => c.(confirmed := c.confirmed + 1)
    case InferredStrong => c.(inferredStrong := c.inferredStrong + 1)
    case InferredWeak => c.(inferredWeak := c.inferredWeak + 1)
    case Gap => c.(gap := c.gap + 1)
  }

  ghost predicate Counted(c: Counts, fs: seq<Fact>) {
    c == Counts(Tally(fs, Confirmed), Tally(fs, InferredStrong), Tally(fs, InferredWeak), Tally(fs, Confidence.Gap))
  }

  lemma FilterSnoc<T>(s: seq<T>, x: T, p: T -> bool)
    ensures Filter(s + [x], p) == Filter(s, p) + if p(x) then [x] else []
  {
    FilterAppend(s, [x], p);
    assert Filter([x], p) == (if p(x) then [x] else []) + Filter([x][1..], p);
  }

  lemma CountedSnoc(c: Counts, fs: seq<Fact>, f: Fact)
    requires Counted(c, fs)
    ensures Counted(CountOne(c, ProvOf(f).confidence), fs + [f])
  {
    FilterSnoc(fs, f, g => ProvOf(g).confidence == Confirmed);
    FilterSnoc(fs, f, g => ProvOf(g).confidence == InferredStrong);
    FilterSnoc(fs, f, g => ProvOf(g).confidence == InferredWeak);
    FilterSnoc(fs, f, g => ProvOf(g).confidence == Confidence.Gap);
  }

  ghost predicate FactsCounted(facts: map<string, nat>, fs: seq<Fact>, repos: set<string>) {
    forall x :: (x in facts <==> FactsBy(fs, repos, x) > 0) && (x in facts ==> facts[x] == FactsBy(fs, repos, x))
  }

  function FilesAt(files: map<string, set<string>>, x: string): set<string> {
    if x in files then files[x] else {}
  }

  ghost predicate FilesGathered(files: map<string, set<string>>, fs: seq<Fact>, repos: set<string>) {
    forall x :: FilesAt(files, x) == FilesBy(fs, repos, x)
  }

  lemma CoverSnoc(fs: seq<Fact>, f: Fact, repos: set<string>, x: string)
    ensures FactsBy(fs + [f], repos, x)
            == FactsBy(fs, repos, x) + if InScope(f, repos) && ProvOf(f).extractor == x then 1 else 0
    ensures FilesBy(fs + [f], repos, x)
            == FilesBy(fs, repos, x) + if InScope(f, repos) && ProvOf(f).extractor == x then FilesOf(f, repos) else {}
  {
    FilterSnoc(fs, f, g => InScope(g, repos) && ProvOf(g).extractor == x);
    var all := fs + [f];
    assert forall i :: 0 <= i < |fs| ==> all[i] == fs[i];
    assert all[|fs|] == f;
    forall file ensures file in FilesBy(all, repos, x) <==>
      file in FilesBy(fs, repos, x) || (InScope(f, repos) && ProvOf(f).extractor == x && file in FilesOf(f, repos))
    {
      if file in FilesBy(fs, repos, x) {
        var i :| 0 <= i < |fs| && InScope(fs[i], repos) && ProvOf(fs[i]).extractor == x
            && file in FilesOf(fs[i], repos);
        assert all[i] == fs[i];
      }
    }
  }

  /** The cited files of one fact that lie in the covered repositories. */
  method CitedFiles(f: Fact, repos: set<string>) returns (files: set<string>)
    ensures files == FilesOf(f, repos)
  {
    files := {};
    var evidence := ProvOf(f).evidence;
    for i := 0 to |evidence|
      invariant files == set k | 0 <= k < i && evidence[k].repo in repos :: evidence[k].repo + ":" + evidence[k].path
    {
      if evidence[i].repo in repos { files := files + {evidence[i].repo + ":" + evidence[i].path}; }
    }
  }

  /** Attribute one fact and its cited files to its extractor. */
  method Cover(facts: map<string, nat>, files: map<string, set<string>>, f: Fact, repos: set<string>,
               ghost front: seq<Fact>)
    returns (facts': map<string, nat>, files': map<string, set<string>>)
    requires FactsCounted(facts, front, repos) && FilesGathered(files, front, repos)
    ensures FactsCounted(facts', front + [f], repos) && FilesGathered(files', front + [f], repos)
  {
    facts', files' := facts, files;
    forall x { CoverSnoc(front, f, repos, x); }
    if InScope(f, repos) {
      var x := ProvOf(f).extractor;
      var cited := CitedFiles(f, repos);
      facts' := facts[x := (if x in facts then facts[x] else 0) + 1];
      if cited != {} { files' := files[x := FilesAt(files, x) + cited]; }
    }
  }

  /** One row per declared or contributing extractor. */
  method Rows(facts: map<string, nat>, files: map<string, set<string>>, scope: map<string, nat>)
    returns (coverage: map<string, Row>)
    ensures coverage.Keys == scope.Keys + facts.Keys
    ensures forall x :: x in coverage ==>
              coverage[x] == Row(if x in facts then facts[x] else 0, |FilesAt(files, x)|,
                                 if x in scope then scope[x] else 0, x in scope)
  {
    coverage := map x | x in scope.Keys + facts.Keys ::
      Row(if x in facts then facts[x] else 0, |FilesAt(files, x)|, if x in scope then scope[x] else 0, x in scope);
  }

  /** Tallies, coverage and hash of a projection, in one walk over its facts:
      nodes first, then edges. */
  method Compute(fs: seq<Fact>, scope: map<string, nat>, repos: set<string>, hex: Hex) returns (m: GraphMetrics)
    ensures Measures(m, fs, scope, repos, hex)
  {
    var c, facts, files, lines := Counts(0, 0, 0, 0), map[], map[], [];
    for i := 0 to |fs|
      invariant Counted(c, fs[..i]) && lines == Lines(fs[..i], repos, hex)
      invariant FactsCounted(facts, fs[..i], repos) && FilesGathered(files, fs[..i], repos)
    {
      assert fs[..i + 1] == fs[..i] + [fs[i]] && fs[..i + 1][..i] == fs[..i];
      CountedSnoc(c, fs[..i], fs[i]);
      c := CountOne(c, ProvOf(fs[i]).confidence);
      facts, files := Cover(facts, files, fs[i], repos, fs[..i]);
      if Recorded(fs[i], repos) { lines := lines + [LineOf(fs[i], hex)]; }
    }
    assert fs[..|fs|] == fs;
    var coverage := Rows(facts, files, scope);
    m := GraphMetrics(c.confirmed, c.inferredStrong, c.inferredWeak, c.gap, |fs|, Join(Sort(lines, TextLeq)), coverage);
  }

  // ---- Every fact is tallied once ---------------------------------------------------------------------

  lemma {:induction false} TalliesSum(fs: seq<Fact>)
    ensures Tally(fs, Confirmed) + Tally(fs, InferredStrong) + Tally(fs, InferredWeak) + Tally(fs, Confidence.Gap)
            == |fs|
  {
    if fs != [] {
      var front, f := fs[..|fs| - 1], fs[|fs| - 1];
      assert fs == front + [f];
      TalliesSum(front);
      FilterSnoc(front, f, g => ProvOf(g).confidence == Confirmed);
      FilterSnoc(front, f, g => ProvOf(g).confidence == InferredStrong);
      FilterSnoc(front, f, g => ProvOf(g).confidence == InferredWeak);
      FilterSnoc(front, f, g => ProvOf(g).confidence == Confidence.Gap);
    }
  }

  // ---- Only the recorded facts, in no order ---------------------------------------------------------------

  lemma SameFilter(a: seq<Fact>, b: seq<Fact>, p: Fact -> bool)
    requires multiset(a) == multiset(b)
    ensures multiset(Filter(a, p)) == multiset(Filter(b, p)) && |Filter(a, p)| == |Filter(b, p)|
  {
    forall x ensures multiset(Filter(a, p))[x] == multiset(Filter(b, p))[x] {
      EdgeMerge.FilterCount(a, p, x);
      EdgeMerge.FilterCount(b, p, x);
    }
    assert multiset(Filter(a, p)) == multiset(Filter(b, p));
    SameElements(Filter(a, p), Filter(b, p));
  }

  lemma {:induction false} FilterAgain(s: seq<Fact>, p: Fact -> bool, q: Fact -> bool)
    requires forall x :: q(x) ==> p(x)
    ensures Filter(Filter(s, p), q) == Filter(s, q)
  {
    if s != [] {
      FilterAgain(s[1..], p, q);
      var rest := Filter(s[1..], p);
      FilterCons(s[0], rest, q);
      assert Filter(s, p) == if p(s[0]) then [s[0]] + rest else rest;
    }
  }

  /** One line per fact. */
  function Rendered(fs: seq<Fact>, hex: Hex): seq<string> {
    if fs == [] then [] else Rendered(fs[..|fs| - 1], hex) + [LineOf(fs[|fs| - 1], hex)]
  }

  lemma {:induction false} RenderedAppend(a: seq<Fact>, b: seq<Fact>, hex: Hex)
    ensures Rendered(a + b, hex) == Rendered(a, hex) + Rendered(b, hex)
  {
    if b == [] {
      assert a + b == a;
    } else {
      assert (a + b)[..|a + b| - 1] == a + b[..|b| - 1];
      RenderedAppend(a, b[..|b| - 1], hex);
    }
  }

  lemma RenderedMoved(a: seq<Fact>, f: Fact, b: seq<Fact>, hex: Hex)
    ensures multiset(Rendered(a + [f] + b, hex)) == multiset(Rendered(a + b, hex)) + multiset{LineOf(f, hex)}
  {
    RenderedAppend(a, b, hex);
    RenderedAppend(a + [f], b, hex);
    RenderedAppend(a, [f], hex);
    assert Rendered([f], hex) == [LineOf(f, hex)];
  }

  lemma SplitAt(b: seq<Fact>, f: Fact) returns (pre: seq<Fact>, post: seq<Fact>)
    requires f in multiset(b)
    ensures b == pre + [f] + post && multiset(pre + post) == multiset(b) - multiset{f}
  {
    var j :| 0 <= j < |b| && b[j] == f;
    pre, post := b[..j], b[j + 1..];
    assert b == pre + [f] + post;
    assert multiset(b) == multiset(pre) + multiset{f} + multiset(post);
  }

  lemma {:induction false} RenderedMultiset(a: seq<Fact>, b: seq<Fact>, hex: Hex)
    requires multiset(a) == multiset(b)
    ensures multiset(Rendered(a, hex)) == multiset(Rendered(b, hex))
    decreases |a|
  {
    if a == [] {
      SameElements(a, b);
    } else {
      assert a[0] in multiset(a);
      var front, back := SplitAt(a, a[0]);
      var pre, post := SplitAt(b, a[0]);
      RenderedMoved(front, a[0], back, hex);
      RenderedMoved(pre, a[0], post, hex);
      RenderedMultiset(front + back, pre + post, hex);
    }
  }

  /** The facts a scope records. */
  function Kept(fs: seq<Fact>, repos: set<string>): seq<Fact> {
    Filter(fs, f => Recorded(f, repos))
  }

  lemma KeptSnoc(front: seq<Fact>, f: Fact, repos: set<string>)
    ensures Kept(front + [f], repos) == Kept(front, repos) + if Recorded(f, repos) then [f] else []
  {
    FilterSnoc(front, f, g => Recorded(g, repos));
  }

  lemma {:induction false} LinesOfKept(fs: seq<Fact>, repos: set<string>, hex: Hex)
    ensures Lines(fs, repos, hex) == Rendered(Kept(fs, repos), hex)
  {
    if fs != [] {
      var front, f := fs[..|fs| - 1], fs[|fs| - 1];
      assert fs == front + [f];
      LinesOfKept(front, repos, hex);
      KeptSnoc(front, f, repos);
      if Recorded(f, repos) {
        RenderedAppend(Kept(front, repos), [f], hex);
        assert Rendered([f], hex) == [LineOf(f, hex)];
      } else {
        assert Kept(front, repos) + [] == Kept(front, repos);
      }
    }
  }

  lemma HashOfKept(a: seq<Fact>, b: seq<Fact>, repos: set<string>, hex: Hex)
    requires multiset(Kept(a, repos)) == multiset(Kept(b, repos))
    ensures Sort(Lines(a, repos, hex), TextLeq) == Sort(Lines(b, repos, hex), TextLeq)
  {
    LinesOfKept(a, repos, hex);
    LinesOfKept(b, repos, hex);
    RenderedMultiset(Kept(a, repos), Kept(b, repos), hex);
    TextOrder();
    SortForgetsOrder(Lines(a, repos, hex), Lines(b, repos, hex), TextLeq);
  }

  lemma {:induction false} KeptHas(fs: seq<Fact>, repos: set<string>, f: Fact)
    ensures f in Kept(fs, repos) <==> f in fs && Recorded(f, repos)
  {
    if fs != [] {
      KeptHas(fs[1..], repos, f);
      FilterCons(fs[0], fs[1..], g => Recorded(g, repos));
      assert fs == [fs[0]] + fs[1..];
    }
  }

  lemma SameFiles(a: seq<Fact>, b: seq<Fact>, repos: set<string>, x: string)
    requires forall f :: f in Kept(a, repos) ==> f in Kept(b, repos)
    ensures FilesBy(a, repos, x) <= FilesBy(b, repos, x)
  {
    forall file | file in FilesBy(a, repos, x) ensures file in FilesBy(b, repos, x) {
      var i :| 0 <= i < |a| && InScope(a[i], repos) && ProvOf(a[i]).extractor == x && file in FilesOf(a[i], repos);
      KeptHas(a, repos, a[i]);
      KeptHas(b, repos, a[i]);
      var j :| 0 <= j < |b| && b[j] == a[i];
    }
  }

  lemma CoverageOfKept(a: seq<Fact>, b: seq<Fact>, repos: set<string>, x: string)
    requires multiset(Kept(a, repos)) == multiset(Kept(b, repos))
    ensures FactsBy(a, repos, x) == FactsBy(b, repos, x) && FilesBy(a, repos, x) == FilesBy(b, repos, x)
  {
    var p, q := (f: Fact) => Recorded(f, repos), (f: Fact) => InScope(f, repos) && ProvOf(f).extractor == x;
    FilterAgain(a, p, q);
    FilterAgain(b, p, q);
    SameFilter(Kept(a, repos), Kept(b, repos), q);
    SameElements(Kept(a, repos), Kept(b, repos));
    SameFiles(a, b, repos, x);
    SameFiles(b, a, repos, x);
  }

  lemma CoversUnique(c: map<string, Row>, d: map<string, Row>, a: seq<Fact>, b: seq<Fact>, scope: map<string, nat>,
                     repos: set<string>)
    requires Covers(c, a, scope, repos) && Covers(d, b, scope, repos)
    requires multiset(Kept(a, repos)) == multiset(Kept(b, repos))
    ensures c == d
  {
    forall x ensures (x in c <==> x in d) && (x in c ==> c[x] == d[x]) { CoverageOfKept(a, b, repos, x); }
  }

  /** The recorded hash and the coverage rows depend only on the facts in scope,
      however many times each occurs and in whatever order: adding, removing or
      altering anything out of scope changes neither. */
  lemma OnlyScopeMatters(m: GraphMetrics, n: GraphMetrics, a: seq<Fact>, b: seq<Fact>, scope: map<string, nat>,
                         repos: set<string>, hex: Hex)
    requires Measures(m, a, scope, repos, hex) && Measures(n, b, scope, repos, hex)
    requires multiset(Kept(a, repos)) == multiset(Kept(b, repos))
    ensures m.hashed == n.hashed && m.coverage == n.coverage
  {
    HashOfKept(a, b, repos, hex);
    CoversUnique(m.coverage, n.coverage, a, b, scope, repos);
  }

  /** The whole record is the same for every order of the projection. */
  lemma OrderDoesNotMatter(m: GraphMetrics, n: GraphMetrics, a: seq<Fact>, b: seq<Fact>, scope: map<string, nat>,
                           repos: set<string>, hex: Hex)
    requires Measures(m, a, scope, repos, hex) && Measures(n, b, scope, repos, hex)
    requires multiset(a) == multiset(b)
    ensures m == n
  {
    SameElements(a, b);
    SameFilter(a, b, f => Recorded(f, repos));
    OnlyScopeMatters(m, n, a, b, scope, repos, hex);
    SameFilter(a, b, f => ProvOf(f).confidence == Confirmed);
    SameFilter(a, b, f => ProvOf(f).confidence == InferredStrong);
    SameFilter(a, b, f => ProvOf(f).confidence == InferredWeak);
    SameFilter(a, b, f => ProvOf(f).confidence == Confidence.Gap);
  }

  /** With no registration declared every fact still counts towards its
      extractor's row, while no file does. */
  lemma UnscopedCoverage(fs: seq<Fact>, extractor: string)
    ensures FactsBy(fs, {}, extractor) == |Filter(fs, f => ProvOf(f).extractor == extractor)|
    ensures FilesBy(fs, {}, extractor) == {}
  {
    SameCount(fs, f => InScope(f, {}) && ProvOf(f).extractor == extractor, f => ProvOf(f).extractor == extractor);
  }

  lemma {:induction false} SameCount(fs: seq<Fact>, p: Fact -> bool, q: Fact -> bool)
    requires forall f :: p(f) <==> q(f)
    ensures Filter(fs, p) == Filter(fs, q)
  {
    if fs != [] { SameCount(fs[1..], p, q); }
  }

  // ---- What the hash distinguishes -----------------------------------------------------------------------

  predicate OneLineEach(lines: seq<string>) { forall i :: 0 <= i < |lines| ==> '\n' !in lines[i] }

  /** The pieces of a text between its newlines. */
  function Split(text: string): (pieces: seq<string>)
    ensures |pieces| > 0
  {
    if text == "" then [""]
    else
      var rest := Split(text[1..]);
      if text[0] == '\n' then [""] + rest else [[text[0]] + rest[0]] + rest[1..]
  }

  /** The lines a reader of the joined text would count. */
  function Physical(lines: seq<string>): seq<string> {
    if lines == [] then [] else Split(lines[0]) + Physical(lines[1..])
  }

  lemma JoinCons(lines: seq<string>)
    requires |lines| > 1
    ensures Join(lines) == lines[0] + "\n" + Join(lines[1..])
  {
  }

  lemma {:induction false} SplitAppend(a: string, b: string)
    ensures Split(a + "\n" + b) == Split(a) + Split(b)
  {
    var text := a + "\n" + b;
    if a == "" {
      assert text[1..] == b;
    } else {
      assert text[1..] == a[1..] + "\n" + b;
      SplitAppend(a[1..], b);
    }
  }

  lemma {:induction false} SplitOfJoin(lines: seq<string>)
    requires lines != []
    ensures Split(Join(lines)) == Physical(lines)
  {
    if |lines| == 1 {
      assert Physical(lines[1..]) == [];
    } else {
      JoinCons(lines);
      SplitOfJoin(lines[1..]);
      SplitAppend(lines[0], Join(lines[1..]));
    }
  }

  lemma {:induction false} JoinOfSplit(text: string)
    ensures Join(Split(text)) == text
  {
    if text != "" {
      var rest := Split(text[1..]);
      JoinOfSplit(text[1..]);
      assert Split(text)[1..] == if text[0] == '\n' then rest else rest[1..];
      if |rest| > 1 { JoinCons(rest); }
      if |Split(text)| > 1 { JoinCons(Split(text)); }
      assert text == [text[0]] + text[1..];
    }
  }

  lemma {:induction false} SplitOneLine(line: string)
    requires '\n' !in line
    ensures Split(line) == [line]
  {
    if line != "" {
      SplitOneLine(line[1..]);
      assert line == [line[0]] + line[1..];
    }
  }

  lemma {:induction false} PhysicalOneLineEach(lines: seq<string>)
    requires OneLineEach(lines)
    ensures Physical(lines) == lines
  {
    if lines != [] {
      SplitOneLine(lines[0]);
      PhysicalOneLineEach(lines[1..]);
    }
  }

  /** Lists of lines that are not blank join to one text exactly when they have
      the same physical lines. */
  lemma SameTextIff(a: seq<string>, b: seq<string>)
    requires forall i :: 0 <= i < |a| ==> a[i] != ""
    requires forall i :: 0 <= i < |b| ==> b[i] != ""
    ensures Join(a) == Join(b) <==> Physical(a) == Physical(b)
  {
    if a != [] { SplitOfJoin(a); }
    if b != [] { SplitOfJoin(b); }
    JoinOfSplit(Join(a));
    JoinOfSplit(Join(b));
  }

  lemma {:induction false} LinesAreShown(fs: seq<Fact>, repos: set<string>, hex: Hex)
    ensures forall i :: 0 <= i < |Lines(fs, repos, hex)| ==> Lines(fs, repos, hex)[i] != ""
  {
    if fs != [] { LinesAreShown(fs[..|fs| - 1], repos, hex); }
  }

  lemma SortedLines(lines: seq<string>)
    ensures (forall i :: 0 <= i < |lines| ==> lines[i] != "") ==>
              forall i :: 0 <= i < |Sort(lines, TextLeq)| ==> Sort(lines, TextLeq)[i] != ""
    ensures OneLineEach(lines) ==> OneLineEach(Sort(lines, TextLeq))
    ensures multiset(Sort(lines, TextLeq)) == multiset(lines)
  {
    SortMultiset(lines, TextLeq);
    SameElements(Sort(lines, TextLeq), lines);
    forall i | 0 <= i < |Sort(lines, TextLeq)| ensures Sort(lines, TextLeq)[i] in lines {
      assert Sort(lines, TextLeq)[i] in Sort(lines, TextLeq);
    }
  }

  /** Two projections record the same hash exactly when their sorted fact lines,
      cut at newlines, are the same; where no identity holds a newline, exactly
      when they record the same fact lines, each as often. */
  lemma SameHashIff(a: seq<Fact>, b: seq<Fact>, repos: set<string>, hex: Hex)
    ensures var x, y := Sort(Lines(a, repos, hex), TextLeq), Sort(Lines(b, repos, hex), TextLeq);
            && (Join(x) == Join(y) <==> Physical(x) == Physical(y))
            && (OneLineEach(Lines(a, repos, hex)) && OneLineEach(Lines(b, repos, hex)) ==>
                  (Join(x) == Join(y) <==> multiset(Lines(a, repos, hex)) == multiset(Lines(b, repos, hex))))
  {
    var u, v := Lines(a, repos, hex), Lines(b, repos, hex);
    var x, y := Sort(u, TextLeq), Sort(v, TextLeq);
    LinesAreShown(a, repos, hex);
    LinesAreShown(b, repos, hex);
    SortedLines(u);
    SortedLines(v);
    SameTextIff(x, y);
    if OneLineEach(u) && OneLineEach(v) {
      PhysicalOneLineEach(x);
      PhysicalOneLineEach(y);
      TextOrder();
      if multiset(u) == multiset(v) { SortForgetsOrder(u, v, TextLeq); }
    }
  }

  /** A node recovered from one piece of content. */
  function Alike(id: string, kind: string): Fact {
    var prov := Provenance(Deterministic, Confirmed, [], "ts", Plain("content"));
    NodeOf(Node(id, kind, Props(Parsed(prov), false, None, None, map[])))
  }

  lemma SortOfEqual(lines: seq<string>, line: string)
    requires forall i :: 0 <= i < |lines| ==> lines[i] == line
    ensures Sort(lines, TextLeq) == lines
  {
    var sorted := Sort(lines, TextLeq);
    SortMultiset(lines, TextLeq);
    SameElements(sorted, lines);
    assert |sorted| == |multiset(sorted)| == |multiset(lines)| == |lines|;
    forall i | 0 <= i < |sorted| ensures sorted[i] == lines[i] { assert sorted[i] in lines; }
  }

  lemma LinesOfTwo(f: Fact, g: Fact, hex: Hex)
    ensures Lines([f], {}, hex) == [LineOf(f, hex)] && Lines([f, g], {}, hex) == [LineOf(f, hex), LineOf(g, hex)]
  {
    assert [f][..0] == [] && [f, g][..1] == [f];
  }

  lemma JoinTwice(line: string)
    ensures Join(Sort([line, line], TextLeq)) == Join(Sort([line + "\n" + line], TextLeq))
    ensures multiset([line, line]) != multiset([line + "\n" + line])
  {
    SortOfEqual([line, line], line);
    SortOfEqual([line + "\n" + line], line + "\n" + line);
    JoinCons([line, line]);
    assert |multiset([line, line])| == 2 && |multiset([line + "\n" + line])| == 1;
  }

  lemma AlikeLine(id: string, kind: string, hex: Hex, h: string)
    requires hex(Plain("content")) == h
    ensures LineOf(Alike(id, kind), hex) == "n " + id + " " + kind + " " + h
  {
  }

  lemma Regrouped(before: string, h: string, middle: string)
    ensures "n " + (before + h + middle) + " " + "K" + " " + h
            == ("n " + before) + h + (middle + " " + "K" + " ") + h
  {
  }

  lemma LinesAlike(hex: Hex, h: string)
    requires hex(Plain("content")) == h
    ensures LineOf(Alike("a", "a K"), hex) == LineOf(Alike("a a", "K"), hex) == "n a a K " + h
    ensures LineOf(Alike("a a K " + h + "\nn a a", "K"), hex) == "n a a K " + h + "\n" + ("n a a K " + h)
  {
    AlikeLine("a", "a K", hex, h);
    AlikeLine("a a", "K", hex, h);
    AlikeLine("a a K " + h + "\nn a a", "K", hex, h);
    assert "n " + "a" + " " + "a K" + " " == "n a a K ";
    assert "n " + "a a" + " " + "K" + " " == "n a a K ";
    Regrouped("a a K ", h, "\nn a a");
    assert "n " + "a a K " == "n a a K ";
    assert "\nn a a" + " " + "K" + " " == "\n" + "n a a K ";
  }

  /** With newlines, different graphs may record one hash: a node whose identity
      spans two lines reads as two nodes. */
  lemma NewlinesCollide(hex: Hex)
    ensures var a := Lines([Alike("a", "a K"), Alike("a a", "K")], {}, hex);
            var b := Lines([Alike("a a K " + hex(Plain("content")) + "\nn a a", "K")], {}, hex);
            Join(Sort(a, TextLeq)) == Join(Sort(b, TextLeq)) && multiset(a) != multiset(b)
  {
    var h := hex(Plain("content"));
    var f, g, both := Alike("a", "a K"), Alike("a a", "K"), Alike("a a K " + h + "\nn a a", "K");
    LinesAlike(hex, h);
    LinesOfTwo(f, g, hex);
    LinesOfTwo(both, g, hex);
    JoinTwice(LineOf(f, hex));
  }
}
