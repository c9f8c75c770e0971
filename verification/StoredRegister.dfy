/** The protocol's register and the rows of the findings table are one: every
    run's commits, replayed on the table, leave exactly what the register says. */
module StoredRegister {
  import opened Wrappers
  import opened Findings
  import opened Register
  import opened RegisterInvariant
  import opened RegisterTheorems
  import opened PreflightRuns

  /** The detector whose rows the register replaces. */
  const DETECTOR: string := "preflight@1"

  datatype Table = Table(rows: seq<Row>, nextId: nat)

  /** What one commit does to the table. */
  function Store(table: Table, write: Write): Table {
    Table(Replaced(table.rows, table.nextId, write.repo, DETECTOR, write.entry.report),
          table.nextId + |write.entry.report|)
  }

  /** The table after every commit of a run, from what earlier sessions left. */
  function Stored(table: Table, log: seq<Write>): Table {
    if log == [] then table else Store(Stored(table, log[..|log| - 1]), log[|log| - 1])
  }

  lemma StoredSnoc(table: Table, log: seq<Write>, write: Write)
    ensures Stored(table, log + [write]) == Store(Stored(table, log), write)
  {
    assert (log + [write])[..|log|] == log;
  }

  // ---- What the rows show ------------------------------------------------------------------------

  /** The rows of a repo are those of its last commit, or what it had before. */
  lemma {:induction false} StoredShows(table: Table, log: seq<Write>, repo: Repo)
    ensures Contents(Stored(table, log).rows, repo, DETECTOR)
            == match LastCommit(log, repo)
               case Some(m) => Of(log[m].entry.report, DETECTOR)
               case None => Contents(table.rows, repo, DETECTOR)
  {
    if log != [] {
      var front, last := log[..|log| - 1], log[|log| - 1];
      var before := Stored(table, front);
      StoredShows(table, front, repo);
      ReplacedContents(before.rows, before.nextId, last.repo, DETECTOR, last.entry.report, repo, DETECTOR);
    }
  }

  /** No commit of a report that names only the detector touches other rows. */
  lemma {:induction false} OthersKept(table: Table, log: seq<Write>, repo: Repo, detector: string)
    requires detector != DETECTOR && forall k :: 0 <= k < |log| ==> AllFrom(log[k].entry.report, DETECTOR)
    ensures Contents(Stored(table, log).rows, repo, detector) == Contents(table.rows, repo, detector)
  {
    if log != [] {
      var front, last := log[..|log| - 1], log[|log| - 1];
      var before := Stored(table, front);
      OthersKept(table, front, repo, detector);
      ReplacedContents(before.rows, before.nextId, last.repo, DETECTOR, last.entry.report, repo, detector);
      OfOther(last.entry.report, DETECTOR, detector);
    }
  }

  /** In every run, the stored rows of every repo the register holds are its
      report, exactly when that report names only the detector; the order
      theorems about the register are about these rows. */
  lemma RowsAreRegisterIff(events: seq<Event>, table: Table, repo: Repo)
    requires Legal(Init(), events)
    ensures var s := Run(Init(), events);
            var shown := Contents(Stored(table, s.log).rows, repo, DETECTOR);
            if repo in s.register then
              && shown == Of(s.register[repo].report, DETECTOR)
              && (shown == s.register[repo].report <==> AllFrom(s.register[repo].report, DETECTOR))
            else shown == Contents(table.rows, repo, DETECTOR)
  {
    var s := Run(Init(), events);
    RegisterHoldsNewest(events, repo);
    StoredShows(table, s.log, repo);
    if repo in s.register { OfIsWholeIff(s.register[repo].report, DETECTOR); }
  }

  // ---- Writing the rows ----------------------------------------------------------------------------

  predicate Holds(store: FindingStore, table: Table)
    reads store
  {
    table == Table(store.rows, store.nextId)
  }

  datatype Refusal = CancelledWrite | StorageFailed

  /** The owner may go on from `s`; others act, and it stands at `t`. */
  ghost predicate Resumes(s: State, t: State, phase: Phase) {
    Reachable(s) && Meanwhile(s, t) && OwnerKnown(s) && s.writes.value.phase == phase
  }

  lemma ResumedOwner(s: State, t: State, phase: Phase)
    requires Resumes(s, t, phase)
    ensures Reachable(t) && OwnerKnown(t) && t.writes == s.writes && t.log == s.log && t.lost == s.lost
    ensures t.writers[t.writes.value.writer].epoch == s.writers[s.writes.value.writer].epoch
  {
    ReachElsewhere(s, t);
  }

  /** The write the lock owner is about. */
  function Owed(s: State): Write
    requires OwnerKnown(s)
  {
    var c := s.writes.value;
    Write(c.writer, c.repo, Entry(s.writers[c.writer].epoch, c.report))
  }

  lemma AbortEnds(s: State) returns (t: State)
    requires Reachable(s) && OwnerKnown(s) && s.writes.value.phase in {Guarded, Claimed}
    ensures Reachable(t) && t.writes.None? && t.log == s.log && t.lost == s.lost && t.writers == s.writers
  {
    t := Step(s, Abort);
    ReachStep(s, Abort, t);
  }

  lemma LostClaimEnds(s: State)
    requires Reachable(s) && OwnerKnown(s) && s.writes.value.phase == Staged && !ClaimWon(s)
    ensures var t := Proceed(s); Reachable(t) && t.writes.None? && t.log == s.log && t.lost == s.lost
  {
    ReachStep(s, Advance, Proceed(s));
  }

  lemma CommitHolds(s: State)
    requires Reachable(s) && OwnerKnown(s) && s.writes.value.phase == Claimed
    ensures var t := Proceed(s);
            && Reachable(t) && OwnerKnown(t) && t.writes.value.phase == Committed && t.lost == s.lost
            && t.log == s.log + [Owed(s)]
  {
    ReachStep(s, Advance, Proceed(s));
  }

  lemma LostReadBackEnds(s: State) returns (t: State)
    requires Reachable(s) && OwnerKnown(s) && s.writes.value.phase == Committed && s.log != []
    ensures Reachable(t) && t.writes.None? && t.log == s.log && t.lost == s.lost + {|s.log| - 1}
  {
    t := Step(s, LoseReadBack);
    ReachStep(s, LoseReadBack, t);
  }

  /** Where the owner stands when it claims and when it commits, whatever others
      did in between. */
  ghost predicate Course(s: State, claim: State, commit: State, won: bool) {
    && Reachable(s) && OwnerKnown(s) && s.writes.value.phase == Guarded
    && Resumes(Proceed(s), claim, Staged) && OwnerKnown(claim) && (won <==> ClaimWon(claim))
    && (won ==> Resumes(Proceed(claim), commit, Claimed))
  }

  lemma CourseKeeps(s: State, claim: State, commit: State, won: bool)
    requires Course(s, claim, commit, won)
    ensures claim.writes.value.phase == Staged && Reachable(claim) && claim.log == s.log && claim.lost == s.lost
    ensures won ==> && Reachable(commit) && OwnerKnown(commit) && commit.writes.value.phase == Claimed
                    && commit.log == s.log && commit.lost == s.lost && Owed(commit) == Owed(s)
  {
    ResumedOwner(Proceed(s), claim, Staged);
    if won { ResumedOwner(Proceed(claim), commit, Claimed); }
  }

  /** There always is such a course: the owner may simply go on. */
  lemma CourseExists(s: State) returns (claim: State, commit: State)
    requires Reachable(s) && OwnerKnown(s) && s.writes.value.phase == Guarded
    ensures OwnerKnown(claim) && Course(s, claim, commit, ClaimWon(claim))
  {
    claim := Proceed(s);
    ReachStep(s, Advance, claim);
    Unhindered(claim);
    commit := Proceed(claim);
    if ClaimWon(claim) {
      ReachStep(claim, Advance, commit);
      Unhindered(commit);
    }
  }

  lemma Unhindered(s: State)
    ensures Meanwhile(s, s)
  {
    assert Legal(s, []) && Run(s, []) == s;
  }

  datatype Fate = Unstaged | Withdrawn | Uncommitted | Unread | Kept

  /** What becomes of a write of `n` findings. */
  function FateOf(n: nat, won: bool, faults: Faults): Fate {
    if faults.statement.Some? && faults.statement.value <= n then Unstaged
    else if !won then Withdrawn
    else if faults.commit then Uncommitted
    else if faults.readBack then Unread
    else Kept
  }

  /** The protocol stands at `t` after a write from `s` that met its fate. */
  ghost predicate Fated(s: State, claim: State, commit: State, t: State, fate: Fate)
    requires OwnerKnown(s) && OwnerKnown(claim)
  {
    && Reachable(t)
    && match fate
       case Unstaged => t.writes.None? && t.log == s.log && t.lost == s.lost && t.writers == s.writers
       case Uncommitted => t.writes.None? && t.log == s.log && t.lost == s.lost && t.writers == commit.writers
       case Withdrawn => t == Proceed(claim) && t.writes.None? && t.log == s.log && t.lost == s.lost
       case Unread => t.writes.None? && t.log == s.log + [Owed(s)] && t.lost == s.lost + {|s.log|}
       case Kept =>
         OwnerKnown(t) && t.writes.value.phase == Committed && t.log == s.log + [Owed(s)] && t.lost == s.lost
  }

  /** Each fate is a legal continuation of the protocol. */
  lemma FateHappens(s: State, claim: State, commit: State, won: bool, fate: Fate) returns (t: State)
    requires Course(s, claim, commit, won) && (fate == Withdrawn ==> !won)
    requires fate in {Uncommitted, Unread, Kept} ==> won
    ensures Fated(s, claim, commit, t, fate)
  {
    CourseKeeps(s, claim, commit, won);
    match fate
    case Unstaged => t := AbortEnds(s);
    case Uncommitted => t := AbortEnds(commit);
    case Withdrawn =>
      LostClaimEnds(claim);
      t := Proceed(claim);
    case Unread =>
      CommitHolds(commit);
      t := LostReadBackEnds(Proceed(commit));
    case Kept =>
      CommitHolds(commit);
      t := Proceed(commit);
  }

  lemma FatedTable(s: State, claim: State, commit: State, t: State, fate: Fate, table: Table)
    requires OwnerKnown(s) && OwnerKnown(claim) && Fated(s, claim, commit, t, fate)
    ensures Stored(table, t.log)
            == if fate in {Unread, Kept} then Store(Stored(table, s.log), Owed(s)) else Stored(table, s.log)
  {
    StoredSnoc(table, s.log, Owed(s));
  }

  /** Write the lock owner's report to the table: the write meets its fate, and
      the table then holds exactly the protocol's commits. */
  method WriteRows(store: FindingStore, repo: Repo, report: Report, won: bool, faults: Faults,
                   ghost table: Table, ghost s: State, ghost claim: State, ghost commit: State)
    returns (result: Result<(), Refusal>, ghost t: State)
    requires Course(s, claim, commit, won)
    requires repo == s.writes.value.repo && report == s.writes.value.report && Holds(store, Stored(table, s.log))
    modifies store
    ensures Fated(s, claim, commit, t, FateOf(|report|, won, faults)) && Holds(store, Stored(table, t.log))
    ensures result == match FateOf(|report|, won, faults)
                      case Kept => Ok(())
                      case Withdrawn => Err(CancelledWrite)
                      case _ => Err(StorageFailed)
  {
    t := FateHappens(s, claim, commit, won, FateOf(|report|, won, faults));
    FatedTable(s, claim, commit, t, FateOf(|report|, won, faults), table);
    var written := store.ReplaceForIf(repo, DETECTOR, report, won, faults);
    match written
    case Err(_) => result := Err(StorageFailed);
    case Ok(None) => result := Err(CancelledWrite);
    case Ok(Some(_)) => result := Ok(());
  }
}
