/** What the callers of the register protocol are told: replies, cancels, and
    the report a client shows. */
module RegisterReplies {
  import opened Wrappers
  import opened Register
  import opened RegisterInvariant
  import opened RegisterTheorems

  // ---- A stamped reply quotes the register ---------------------------------

  /** A report just written is the register's content, whatever was lost before. */
  lemma OwnReplyIsRegister(s: State)
    requires Inv(s) && OwnerKnown(s) && s.writes.value.phase in {Committed, Recorded}
    ensures var c := s.writes.value;
            && c.repo in s.register && s.register[c.repo] == Entry(s.writers[c.writer].epoch, c.report)
            && LastCommit(s.log, c.repo) == Some(|s.log| - 1) && |s.log| - 1 !in s.lost
  {
    RegisterIsLastCommit(s.log, s.writes.value.repo);
  }

  /** Every commit after the one `reconciled` keeps was lost: what refuses a
      preflight is the repo's last recorded write. */
  lemma LaterWasLost(s: State, k: nat, j: nat)
    requires Inv(s) && OwnerKnown(s) && s.writes.value.phase == Alive
    requires s.writers[s.writes.value.writer].Preflight?
    requires Refused(s, s.writers[s.writes.value.writer], s.writes.value.repo)
    requires Quotes(s, s.writes.value.repo, k) && k < j < |s.log| && s.log[j].repo == s.writes.value.repo
    ensures Superseded(s, k, j)
  {
    assert InOrder(s, k, j) && LoggedBy(s, s.log[j]) && k !in s.lost;
  }

  /** A refused preflight is answered with the register's content exactly when
      the register's last write did not lose its read-back. */
  lemma RefusalQuotesRegisterIff(s: State)
    requires Inv(s) && OwnerKnown(s) && s.writes.value.phase == Alive
    requires s.writers[s.writes.value.writer].Preflight?
    requires Refused(s, s.writers[s.writes.value.writer], s.writes.value.repo)
    ensures var repo := s.writes.value.repo;
            && repo in s.register && LastCommit(s.log, repo).Some?
            && (s.register[repo] == s.reconciled[repo] <==> LastCommit(s.log, repo).value !in s.lost)
  {
    var repo := s.writes.value.repo;
    var k: nat :| Quotes(s, repo, k);
    forall j: nat | k < j < |s.log| && s.log[j].repo == repo ensures Superseded(s, k, j) { LaterWasLost(s, k, j); }
    QuotedIsRegisterIff(s, repo, k);
  }

  predicate Superseded(s: State, k: nat, j: nat)
    requires k < |s.log| && j < |s.log|
  {
    j in s.lost && s.log[k].entry.epoch < s.log[j].entry.epoch
  }

  lemma QuotedIsRegisterIff(s: State, repo: Repo, k: nat)
    requires Log(s) && Quotes(s, repo, k)
    requires forall j: nat :: k < j < |s.log| && s.log[j].repo == repo ==> Superseded(s, k, j)
    ensures repo in s.register && LastCommit(s.log, repo).Some?
    ensures s.register[repo] == s.reconciled[repo] <==> LastCommit(s.log, repo).value !in s.lost
  {
    QuotedIsNoLater(s, repo, k);
    var m := LastCommit(s.log, repo).value;
    assert k < m ==> Superseded(s, k, m);
  }

  lemma QuotedIsNoLater(s: State, repo: Repo, k: nat)
    requires Log(s) && Quotes(s, repo, k)
    ensures LastCommit(s.log, repo).Some? && repo in s.register && repo in s.reconciled
    ensures var m := LastCommit(s.log, repo).value;
            && k <= m < |s.log| && s.log[m].repo == repo && k !in s.lost
            && s.register[repo] == s.log[m].entry && s.reconciled[repo] == s.log[k].entry
  {
    RegisterIsLastCommit(s.log, repo);
  }

  lemma StampShape(s: State, e: Event, w: nat, repo: Repo, entry: Entry)
    requires Enabled(s, e) && Step(s, e).replies == s.replies + [Stamped(w, repo, entry)]
    ensures e == Advance && OwnerKnown(s) && Step(s, e).register == s.register
    ensures s.writes.value.writer == w && s.writes.value.repo == repo
    ensures var writer := s.writers[w];
            || (s.writes.value.phase == Alive && writer.Preflight? && Refused(s, writer, repo)
                && entry == s.reconciled[repo])
            || (s.writes.value.phase == Recorded && entry == Entry(writer.epoch, s.writes.value.report))
  {
    assert Step(s, e).replies[|s.replies|] == Stamped(w, repo, entry);
    if e == Advance { StampingPhases(s, w, repo, entry); }
  }

  /** What the lock owner's next action answers, if anything. */
  function Answer(s: State): seq<Reply>
    requires OwnerKnown(s)
  {
    var c := s.writes.value;
    var writer := s.writers[c.writer];
    match c.phase
    case Locked => if writer.Preflight? && writer.status == Cancelled then [ReportedCancelled(c.writer)] else []
    case Alive =>
      if !Refused(s, writer, c.repo) then []
      else if writer.Preflight? then [Stamped(c.writer, c.repo, s.reconciled[c.repo])]
      else [NothingWritten(c.writer, c.repo)]
    case Staged => if writer.Recovery? || writer.status == Running then [] else [ReportedCancelled(c.writer)]
    case Recorded => [Stamped(c.writer, c.repo, Entry(writer.epoch, c.report))]
    case _ => []
  }

  lemma CheckAnswers(s: State)
    requires OwnerKnown(s) && s.writes.value.phase in {Locked, Alive}
    ensures Proceed(s).replies == s.replies + Answer(s) && Proceed(s).register == s.register
  {
  }

  lemma WriteAnswers(s: State)
    requires OwnerKnown(s) && s.writes.value.phase !in {Locked, Alive}
    ensures Proceed(s).replies == s.replies + Answer(s)
    ensures s.writes.value.phase != Claimed ==> Proceed(s).register == s.register
  {
  }

  lemma ProceedAnswers(s: State)
    requires OwnerKnown(s)
    ensures Proceed(s).replies == s.replies + Answer(s)
    ensures s.writes.value.phase != Claimed ==> Proceed(s).register == s.register
  {
    if s.writes.value.phase in {Locked, Alive} { CheckAnswers(s); } else { WriteAnswers(s); }
  }

  lemma StampingPhases(s: State, w: nat, repo: Repo, entry: Entry)
    requires OwnerKnown(s) && Proceed(s).replies == s.replies + [Stamped(w, repo, entry)]
    ensures Proceed(s).register == s.register && s.writes.value.writer == w && s.writes.value.repo == repo
    ensures var writer := s.writers[w];
            || (s.writes.value.phase == Alive && writer.Preflight? && Refused(s, writer, repo)
                && entry == s.reconciled[repo])
            || (s.writes.value.phase == Recorded && entry == Entry(writer.epoch, s.writes.value.report))
  {
    ProceedAnswers(s);
    assert Answer(s) == [Stamped(w, repo, entry)] by {
      assert Answer(s) == Proceed(s).replies[|s.replies|..];
    }
  }

  /** Every stamped reply, in every run, is the register's content and epoch at
      the moment it is given, under the write lock, exactly when the register's
      last write was recorded; an own report always is. */
  lemma StampedReplyIsRegisterIff(s: State, e: Event, w: nat, repo: Repo, entry: Entry)
    requires Reachable(s) && Enabled(s, e)
    requires Step(s, e).replies == s.replies + [Stamped(w, repo, entry)]
    ensures s.writes.Some? && s.writes.value.writer == w && s.writes.value.repo == repo
    ensures var t := Step(s, e);
            && t.register == s.register && repo in t.register && LastCommit(s.log, repo).Some?
            && (t.register[repo] == entry <==> LastCommit(s.log, repo).value !in s.lost)
            && (s.writes.value.phase == Recorded ==> t.register[repo] == entry)
  {
    ReachableInv(s);
    StampShape(s, e, w, repo, entry);
    if s.writes.value.phase == Alive {
      RefusalQuotesRegisterIff(s);
    } else {
      OwnReplyIsRegister(s);
    }
  }

  /** A recovery reconciled; a later one committed and lost its read-back. */
  ghost function Overwritten(): State {
    var s := Init().(epoch := 3, current := Some(0),
                     writers := [Preflight(1, Running), Recovery(2, Completed), Recovery(3, Completed)]);
    AfterLoss(AfterReconcile(s, 1, "r", []), 2, "r", [])
  }

  lemma OverwrittenHappens()
    ensures Reachable(Overwritten())
  {
    PreflightFirstHappens();
    var two := PreflightFirst();
    var three := two.(epoch := 3, writers := two.writers + [Recovery(3, Pending)]);
    ReachStep(two, Reserve, three);
    var s := three.(writers := [Preflight(1, Running), Recovery(2, Completed), Recovery(3, Completed)]);
    ReachStep(three, Settle(2, true), s);
    ReconcileHappens(s, 1, "r", []);
    LossHappens(AfterReconcile(s, 1, "r", []), 2, "r", []);
  }

  /** The preflight is then refused and answered with epoch 2, while the
      register already holds epoch 3. */
  lemma RefusalMayQuoteOlder()
    ensures exists s :: Reachable(s) && OwnerKnown(s) && s.writes.value.phase == Alive
                        && Proceed(s).replies == s.replies + [Stamped(0, "r", Entry(2, []))]
                        && "r" in s.register && s.register["r"].epoch == 3
  {
    OverwrittenHappens();
    var s := Overwritten();
    var c := Section(0, "r", [], Locked);
    ReachStep(s, Acquire(0, "r", []), At(s, c));
    ReachStep(At(s, c), Advance, At(s, c.(phase := Alive)));
    var t := At(s, c.(phase := Alive));
    assert Proceed(t).replies == t.replies + [Stamped(0, "r", Entry(2, []))];
  }

  // ---- The client's view -----------------------------------------------------

  datatype Stamp = Stamp(repo: Repo, entry: Entry)

  /** The client keeps a report unless it already shows a newer one. */
  function Show(known: map<Repo, Entry>, stamp: Stamp): map<Repo, Entry> {
    if stamp.repo in known && known[stamp.repo].epoch > stamp.entry.epoch then known
    else known[stamp.repo := stamp.entry]
  }

  function Deliver(stamps: seq<Stamp>): map<Repo, Entry> {
    if stamps == [] then map[] else Show(Deliver(stamps[..|stamps| - 1]), stamps[|stamps| - 1])
  }

  lemma {:induction false} DeliverKeepsNewest(stamps: seq<Stamp>, repo: Repo)
    ensures repo in Deliver(stamps) ==> Stamp(repo, Deliver(stamps)[repo]) in stamps
    ensures forall i :: 0 <= i < |stamps| && stamps[i].repo == repo ==>
              repo in Deliver(stamps) && stamps[i].entry.epoch <= Deliver(stamps)[repo].epoch
  {
    if stamps != [] {
      var front := stamps[..|stamps| - 1];
      DeliverKeepsNewest(front, repo);
      assert stamps == front + [stamps[|stamps| - 1]];
    }
  }

  /** Every delivered stamp was given by the host in this run. */
  ghost predicate Given(s: State, stamps: seq<Stamp>) {
    forall i :: 0 <= i < |stamps| ==>
      exists w :: Stamped(w, stamps[i].repo, stamps[i].entry) in s.replies
  }

  /** What the client shows is some recorded write. */
  lemma ShownWasRecorded(s: State, stamps: seq<Stamp>, repo: Repo) returns (k: nat)
    requires Answers(s) && Given(s, stamps) && repo in Deliver(stamps)
    ensures k < |s.log| && k !in s.lost && s.log[k].repo == repo && s.log[k].entry == Deliver(stamps)[repo]
  {
    DeliverKeepsNewest(stamps, repo);
    var i :| 0 <= i < |stamps| && stamps[i] == Stamp(repo, Deliver(stamps)[repo]);
    var w :| Stamped(w, stamps[i].repo, stamps[i].entry) in s.replies;
    var j :| 0 <= j < |s.replies| && s.replies[j] == Stamped(w, repo, Deliver(stamps)[repo]);
    assert Truthful(s, s.replies[j]);
    k :| 0 <= k < |s.log| && k !in Unsettled(s) && s.log[k].repo == repo && s.log[k].entry == Deliver(stamps)[repo];
  }

  /** In every run, however replies are delayed, reordered, lost or repeated,
      the client shows the register exactly when the stamp of the register's
      own write is among those that arrived. */
  lemma ClientShowsRegisterIff(events: seq<Event>, stamps: seq<Stamp>, repo: Repo)
    requires Legal(Init(), events) && Given(Run(Init(), events), stamps) && repo in Run(Init(), events).register
    ensures var s := Run(Init(), events);
            (repo in Deliver(stamps) && Deliver(stamps)[repo] == s.register[repo])
            <==> Stamp(repo, s.register[repo]) in stamps
  {
    var s := Run(Init(), events);
    DeliverKeepsNewest(stamps, repo);
    if repo in Deliver(stamps) {
      RegisterHoldsNewest(events, repo);
      RunInv(Init(), events);
      var k := ShownWasRecorded(s, stamps, repo);
    }
  }

  // ---- Cancelling ---------------------------------------------------------------

  /** A preflight leaves `Running` once; what it left to is final. */
  lemma {:induction false} SettledForever(s: State, events: seq<Event>, w: nat)
    requires Legal(s, events)
    requires w < |s.writers| && s.writers[w].Preflight? && s.writers[w].status != Running
    ensures w < |Run(s, events).writers| && Run(s, events).writers[w] == s.writers[w]
    decreases |events|
  {
    if events != [] {
      SettledForever(Step(s, events[0]), events[1..], w);
    }
  }

  /** Only the newest preflight can be running. */
  lemma OnlyNewestRuns(events: seq<Event>, i: nat, j: nat)
    requires Legal(Init(), events)
    requires var s := Run(Init(), events);
             i < j < |s.writers| && s.writers[i].Preflight? && s.writers[j].Preflight?
    ensures Run(Init(), events).writers[i].status != Running
  {
    RunInv(Init(), events);
  }

  lemma CancelledCommitsNothing(t: State, w: nat)
    requires Log(t) && w < |t.writers| && t.writers[w].Preflight? && t.writers[w].status == Cancelled
    ensures forall k :: 0 <= k < |t.log| ==> t.log[k].writer != w
  {
    forall k | 0 <= k < |t.log| ensures t.log[k].writer != w { assert LoggedBy(t, t.log[k]); }
  }

  lemma CommittingIsNotCancelled(t: State, w: nat)
    requires Answers(t) && w < |t.writers| && t.writers[w].Preflight? && t.writers[w].status == Committing
    ensures ReportedCancelled(w) !in t.replies
  {
    forall j | 0 <= j < |t.replies| ensures t.replies[j] != ReportedCancelled(w) { assert Truthful(t, t.replies[j]); }
  }

  /** A preflight that was cancelled, or superseded while running, commits
      nothing at any later time; one that committed is never reported cancelled. */
  lemma CancelAndCommitExclude(before: seq<Event>, after: seq<Event>, w: nat)
    requires Legal(Init(), before) && Legal(Run(Init(), before), after)
    requires var s := Run(Init(), before);
             w < |s.writers| && s.writers[w].Preflight? && s.writers[w].status != Running
    ensures var s := Run(Init(), before);
            var t := Run(s, after);
            && (s.writers[w].status == Cancelled ==> forall k :: 0 <= k < |t.log| ==> t.log[k].writer != w)
            && (s.writers[w].status == Committing ==> ReportedCancelled(w) !in t.replies)
  {
    var s := Run(Init(), before);
    RunInv(Init(), before);
    RunInv(s, after);
    SettledForever(s, after, w);
    if s.writers[w].status == Cancelled {
      CancelledCommitsNothing(Run(s, after), w);
    } else {
      CommittingIsNotCancelled(Run(s, after), w);
    }
  }

  lemma RowsShape(s: State, e: Event)
    requires Enabled(s, e) && Step(s, e).register != s.register
    ensures e == Advance && OwnerKnown(s) && s.writes.value.phase == Claimed
    ensures var c := s.writes.value;
            Step(s, e).register == s.register[c.repo := Entry(s.writers[c.writer].epoch, c.report)]
  {
  }

  /** The rows change only when the lock owner commits; a preflight owner has
      then won its claim, and the row it replaces is older unless that row's
      write was lost and a recovery wrote one of the two. */
  lemma RowsChangeOnlyByCommit(s: State, e: Event)
    requires Reachable(s) && Enabled(s, e) && Step(s, e).register != s.register
    ensures e == Advance && OwnerKnown(s) && s.writes.value.phase == Claimed
    ensures var c := s.writes.value;
            && (s.writers[c.writer].Preflight? ==> s.writers[c.writer].status == Committing)
            && Step(s, e).register == s.register[c.repo := Entry(s.writers[c.writer].epoch, c.report)]
            && (c.repo in s.register ==>
                  || s.register[c.repo].epoch < s.writers[c.writer].epoch
                  || (LastCommit(s.log, c.repo).Some? && Overtakes(s, LastCommit(s.log, c.repo).value)))
  {
    RowsShape(s, e);
    ReachableInv(s);
    var c := s.writes.value;
    RegisterIsLastCommit(s.log, c.repo);
    if c.repo in s.register {
      CommitIsNewer(s, LastCommit(s.log, c.repo).value);
      CommitIsAnother(s, LastCommit(s.log, c.repo).value);
    }
  }

  /** A superseded run that never reached the lock can still report that it was
      cancelled: the report is reachable without any critical section. */
  lemma SupersededReports()
    ensures exists s :: Reachable(s) && ReportedCancelled(0) in s.replies && s.visits == {} && s.log == []
  {
    assert Legal(Init(), []) && Run(Init(), []) == Init();
    var one := Init().(epoch := 1, current := Some(0), writers := [Preflight(1, Running)]);
    ReachStep(Init(), Begin, one);
    var two := one.(epoch := 2, current := Some(1), writers := [Preflight(1, Cancelled), Preflight(2, Running)]);
    ReachStep(one, Begin, two);
    var told := two.(replies := [ReportedCancelled(0)]);
    ReachStep(two, StopScan(0), told);
  }
}
