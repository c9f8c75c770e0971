/** The durable findings table: one detector's rows for one repo are replaced
    inside a transaction that is kept or rolled back at its last moment. */
module Findings {
  import opened Wrappers

  datatype Finding = Finding(kind: string, detector: string, path: string, line: int, message: string)

  datatype Row = Row(id: nat, repo: string, finding: Finding)

  /** What storage may do to one replacement: fail at a statement (0 is the
      delete, i + 1 the i-th insert), fail at the commit, or fail to read back. */
  datatype Faults = Faults(statement: Option<nat>, commit: bool, readBack: bool)

  function Without(rows: seq<Row>, repo: string, detector: string): seq<Row> {
    if rows == [] then []
    else if rows[0].repo == repo && rows[0].finding.detector == detector then Without(rows[1..], repo, detector)
    else [rows[0]] + Without(rows[1..], repo, detector)
  }

  function NewRows(batch: seq<Finding>, repo: string, id: nat): seq<Row> {
    seq(|batch|, i requires 0 <= i < |batch| => Row(id + i, repo, batch[i]))
  }

  function Replaced(rows: seq<Row>, id: nat, repo: string, detector: string, batch: seq<Finding>): seq<Row> {
    Without(rows, repo, detector) + NewRows(batch, repo, id)
  }

  function ListFor(rows: seq<Row>, repo: string): seq<Row> {
    if rows == [] then []
    else (if rows[0].repo == repo then [rows[0]] else []) + ListFor(rows[1..], repo)
  }

  /** The findings a repo's register shows for one detector, oldest first. */
  function Contents(rows: seq<Row>, repo: string, detector: string): seq<Finding> {
    if rows == [] then []
    else (if rows[0].repo == repo && rows[0].finding.detector == detector then [rows[0].finding] else [])
         + Contents(rows[1..], repo, detector)
  }

  function Of(batch: seq<Finding>, detector: string): seq<Finding> {
    if batch == [] then []
    else (if batch[0].detector == detector then [batch[0]] else []) + Of(batch[1..], detector)
  }

  predicate AllFrom(batch: seq<Finding>, detector: string) {
    forall i :: 0 <= i < |batch| ==> batch[i].detector == detector
  }

  class FindingStore {
    var rows: seq<Row>
    var nextId: nat

    constructor ()
      ensures rows == [] && nextId == 1
    {
      rows, nextId := [], 1;
    }

    /** Stage the replacement, ask `keep` immediately before the commit, and
        only then make it visible. */
    method ReplaceForIf(repo: string, detector: string, batch: seq<Finding>, keep: bool, faults: Faults)
      returns (result: Result<Option<seq<Row>>, string>)
      modifies this
      ensures var committed := (faults.statement.None? || faults.statement.value > |batch|) && keep && !faults.commit;
              && rows == (if committed then Replaced(old(rows), old(nextId), repo, detector, batch) else old(rows))
              && nextId == (if committed then old(nextId) + |batch| else old(nextId))
              && (result == Ok(None) <==> (faults.statement.None? || faults.statement.value > |batch|) && !keep)
              && (result.Ok? && result.value.Some? <==> committed && !faults.readBack)
              && (result.Ok? && result.value.Some? ==> result.value.value == ListFor(rows, repo))
    {
      if faults.statement == Some(0) { return Err("storage"); }
      var staged := Without(rows, repo, detector);
      var id := nextId;
      for i := 0 to |batch|
        invariant faults.statement.None? || faults.statement.value > i
        invariant id == nextId + i
        invariant staged == Without(rows, repo, detector) + NewRows(batch[..i], repo, nextId)
        invariant rows == old(rows) && nextId == old(nextId)
      {
        if faults.statement == Some(i + 1) { return Err("storage"); }
        assert NewRows(batch[..i + 1], repo, nextId) == NewRows(batch[..i], repo, nextId) + [Row(id, repo, batch[i])];
        staged, id := staged + [Row(id, repo, batch[i])], id + 1;
      }
      assert batch[..|batch|] == batch;
      if !keep { return Ok(None); }
      if faults.commit { return Err("storage"); }
      rows, nextId := staged, id;
      if faults.readBack { return Err("storage"); }
      result := Ok(Some(ListFor(rows, repo)));
    }
  }

  // ---- What a replacement leaves ---------------------------------------------

  lemma {:induction false} ContentsAppend(a: seq<Row>, b: seq<Row>, repo: string, detector: string)
    ensures Contents(a + b, repo, detector) == Contents(a, repo, detector) + Contents(b, repo, detector)
  {
    if a == [] {
      assert a + b == b;
    } else {
      assert (a + b)[1..] == a[1..] + b;
      ContentsAppend(a[1..], b, repo, detector);
    }
  }

  lemma {:induction false} ContentsWithout(rows: seq<Row>, repo: string, detector: string, r: string, d: string)
    ensures Contents(Without(rows, repo, detector), r, d)
            == if r == repo && d == detector then [] else Contents(rows, r, d)
  {
    if rows != [] {
      ContentsWithout(rows[1..], repo, detector, r, d);
      var rest := Without(rows[1..], repo, detector);
      assert ([rows[0]] + rest)[1..] == rest;
    }
  }

  lemma {:induction false} ContentsNew(batch: seq<Finding>, repo: string, id: nat, r: string, d: string)
    ensures Contents(NewRows(batch, repo, id), r, d) == if r == repo then Of(batch, d) else []
    decreases |batch|
  {
    if batch != [] {
      assert NewRows(batch, repo, id)[1..] == NewRows(batch[1..], repo, id + 1);
      ContentsNew(batch[1..], repo, id + 1, r, d);
    }
  }

  lemma {:induction false} OfIsWholeIff(batch: seq<Finding>, detector: string)
    ensures |Of(batch, detector)| <= |batch|
    ensures |Of(batch, detector)| == |batch| <==> AllFrom(batch, detector)
    ensures AllFrom(batch, detector) ==> Of(batch, detector) == batch
  {
    if batch != [] {
      OfIsWholeIff(batch[1..], detector);
      assert AllFrom(batch, detector) <==> batch[0].detector == detector && AllFrom(batch[1..], detector);
    }
  }

  lemma ReplacedContents(rows: seq<Row>, id: nat, repo: string, detector: string, batch: seq<Finding>, r: string,
                         d: string)
    ensures Contents(Replaced(rows, id, repo, detector, batch), r, d)
            == (if r == repo && d == detector then [] else Contents(rows, r, d))
               + (if r == repo then Of(batch, d) else [])
  {
    ContentsAppend(Without(rows, repo, detector), NewRows(batch, repo, id), r, d);
    ContentsWithout(rows, repo, detector, r, d);
    ContentsNew(batch, repo, id, r, d);
  }

  /** The register shows exactly the new report when, and only when, every
      finding names the detector being replaced; other repos are untouched. */
  lemma ReplacementIsExactIff(rows: seq<Row>, id: nat, repo: string, detector: string, batch: seq<Finding>)
    ensures Contents(Replaced(rows, id, repo, detector, batch), repo, detector) == batch <==> AllFrom(batch, detector)
    ensures forall r, d :: r != repo ==>
              Contents(Replaced(rows, id, repo, detector, batch), r, d) == Contents(rows, r, d)
    ensures AllFrom(batch, detector) ==> forall d :: d != detector ==>
              Contents(Replaced(rows, id, repo, detector, batch), repo, d) == Contents(rows, repo, d)
  {
    ReplacedContents(rows, id, repo, detector, batch, repo, detector);
    OfIsWholeIff(batch, detector);
    forall r, d | r != repo
      ensures Contents(Replaced(rows, id, repo, detector, batch), r, d) == Contents(rows, r, d)
    {
      ReplacedContents(rows, id, repo, detector, batch, r, d);
    }
    forall d | AllFrom(batch, detector) && d != detector
      ensures Contents(Replaced(rows, id, repo, detector, batch), repo, d) == Contents(rows, repo, d)
    {
      ReplacedContents(rows, id, repo, detector, batch, repo, d);
      OfOther(batch, detector, d);
    }
  }

  lemma {:induction false} OfOther(batch: seq<Finding>, detector: string, d: string)
    requires AllFrom(batch, detector) && d != detector
    ensures Of(batch, d) == []
  {
    if batch != [] { OfOther(batch[1..], detector, d); }
  }

  lemma {:induction false} OfSome(batch: seq<Finding>, i: nat)
    requires i < |batch|
    ensures Of(batch, batch[i].detector) != []
  {
    if i > 0 { OfSome(batch[1..], i - 1); }
  }

  /** Running the same detector again leaves the same register, rather than
      piling up duplicates, exactly when its report names only itself. */
  lemma RerunIsIdenticalIff(rows: seq<Row>, id: nat, id': nat, repo: string, detector: string, batch: seq<Finding>)
    ensures var once := Replaced(rows, id, repo, detector, batch);
            var twice := Replaced(once, id', repo, detector, batch);
            (forall r, d :: Contents(twice, r, d) == Contents(once, r, d)) <==> AllFrom(batch, detector)
  {
    var once := Replaced(rows, id, repo, detector, batch);
    var twice := Replaced(once, id', repo, detector, batch);
    forall r, d
      ensures Contents(twice, r, d) == Contents(once, r, d) + (if r == repo && d != detector then Of(batch, d) else [])
    {
      ReplacedContents(rows, id, repo, detector, batch, r, d);
      ReplacedContents(once, id', repo, detector, batch, r, d);
    }
    if AllFrom(batch, detector) {
      forall r, d ensures Contents(twice, r, d) == Contents(once, r, d) {
        if d != detector { OfOther(batch, detector, d); }
      }
    } else {
      var i :| 0 <= i < |batch| && batch[i].detector != detector;
      OfSome(batch, i);
      assert |Contents(twice, repo, batch[i].detector)| > |Contents(once, repo, batch[i].detector)|;
    }
  }

  // ---- What a caller reads back -----------------------------------------------

  /** Rows stand in the order of their ids, all of them already handed out. */
  ghost predicate Numbered(rows: seq<Row>, nextId: nat) {
    && (forall i :: 0 <= i < |rows| ==> rows[i].id < nextId)
    && (forall i, j :: 0 <= i < j < |rows| ==> rows[i].id < rows[j].id)
  }

  lemma {:induction false} WithoutIsNumbered(rows: seq<Row>, nextId: nat, repo: string, detector: string)
    requires Numbered(rows, nextId)
    ensures Numbered(Without(rows, repo, detector), nextId)
    ensures forall row :: row in Without(rows, repo, detector) ==> row in rows
  {
    if rows != [] {
      WithoutIsNumbered(rows[1..], nextId, repo, detector);
      var kept := Without(rows[1..], repo, detector);
      forall k | 0 <= k < |kept| ensures rows[0].id < kept[k].id { assert kept[k] in rows[1..]; }
    }
  }

  /** So the table's order is the order of ids, whatever is replaced. */
  lemma ReplacedIsNumbered(rows: seq<Row>, nextId: nat, repo: string, detector: string, batch: seq<Finding>)
    requires Numbered(rows, nextId)
    ensures Numbered(Replaced(rows, nextId, repo, detector, batch), nextId + |batch|)
  {
    WithoutIsNumbered(rows, nextId, repo, detector);
  }

  /** A listing is exactly the repo's rows ... */
  lemma {:induction false} ListedIff(rows: seq<Row>, repo: string, row: Row)
    ensures row in ListFor(rows, repo) <==> row in rows && row.repo == repo
  {
    if rows != [] { ListedIff(rows[1..], repo, row); }
  }

  lemma NumberedCons(row: Row, rest: seq<Row>, nextId: nat)
    requires Numbered(rest, nextId) && row.id < nextId && forall k :: 0 <= k < |rest| ==> row.id < rest[k].id
    ensures Numbered([row] + rest, nextId)
  {
  }

  lemma NumberedTail(rows: seq<Row>, nextId: nat)
    requires Numbered(rows, nextId) && rows != []
    ensures Numbered(rows[1..], nextId) && forall row :: row in rows[1..] ==> rows[0].id < row.id
  {
  }

  /** ... in the order of their ids. */
  lemma {:induction false} ListedInOrder(rows: seq<Row>, nextId: nat, repo: string)
    requires Numbered(rows, nextId)
    ensures Numbered(ListFor(rows, repo), nextId)
  {
    if rows != [] {
      var rest := ListFor(rows[1..], repo);
      NumberedTail(rows, nextId);
      ListedInOrder(rows[1..], nextId, repo);
      forall k | 0 <= k < |rest| ensures rows[0].id < rest[k].id { ListedIff(rows[1..], repo, rest[k]); }
      NumberedCons(rows[0], rest, nextId);
      assert ListFor(rows, repo) == if rows[0].repo == repo then [rows[0]] + rest else rest;
    }
  }

  lemma {:induction false} ListedContents(rows: seq<Row>, repo: string, detector: string)
    ensures Contents(ListFor(rows, repo), repo, detector) == Contents(rows, repo, detector)
  {
    if rows != [] {
      ListedContents(rows[1..], repo, detector);
      var rest := ListFor(rows[1..], repo);
      assert ListFor(rows, repo) == if rows[0].repo == repo then [rows[0]] + rest else rest;
      if rows[0].repo == repo { assert ([rows[0]] + rest)[1..] == rest; }
    }
  }

  /** After a committed replacement by a report that names only the detector, the
      rows read back show exactly that report for the detector, in order, and for
      every other detector what the repo had before. */
  lemma ReadBackIsExact(rows: seq<Row>, id: nat, repo: string, detector: string, batch: seq<Finding>, d: string)
    requires AllFrom(batch, detector)
    ensures Contents(ListFor(Replaced(rows, id, repo, detector, batch), repo), repo, d)
            == if d == detector then batch else Contents(rows, repo, d)
  {
    ListedContents(Replaced(rows, id, repo, detector, batch), repo, d);
    ReplacementIsExactIff(rows, id, repo, detector, batch);
  }
}
