/** Safety of the findings register over every interleaving of preflights,
    cancels and recoveries. */
module RegisterTheorems {
  import opened Wrappers
  import opened Register
  import opened RegisterInvariant

  lemma {:induction false} RunInv(s: State, events: seq<Event>)
    requires Inv(s) && Legal(s, events)
    ensures Inv(Run(s, events))
    decreases |events|
  {
    if events != [] {
      StepInv(s, events[0]);
      RunInv(Step(s, events[0]), events[1..]);
    }
  }

  lemma {:induction false} RunAppend(s: State, first: seq<Event>, second: seq<Event>)
    requires Legal(s, first) && Legal(Run(s, first), second)
    ensures Legal(s, first + second) && Run(s, first + second) == Run(Run(s, first), second)
    decreases |first|
  {
    if first == [] {
      assert first + second == second;
    } else {
      assert (first + second)[1..] == first[1..] + second;
      RunAppend(Step(s, first[0]), first[1..], second);
    }
  }

  lemma Extend(s: State, events: seq<Event>, t: State, e: Event)
    requires Legal(s, events) && Run(s, events) == t && Enabled(t, e)
    ensures Legal(s, events + [e]) && Run(s, events + [e]) == Step(t, e)
  {
    var rest := [e][1..];
    assert rest == [];
    assert Legal(Step(t, e), rest) && Run(Step(t, e), rest) == Step(t, e);
    assert Legal(t, [e]) && Run(t, [e]) == Run(Step(t, e), rest);
    RunAppend(s, events, [e]);
  }

  ghost predicate Reachable(t: State) {
    exists events :: Legal(Init(), events) && Run(Init(), events) == t
  }

  lemma ReachStep(t: State, e: Event, u: State)
    requires Reachable(t) && Enabled(t, e) && Step(t, e) == u
    ensures Reachable(u)
  {
    var events :| Legal(Init(), events) && Run(Init(), events) == t;
    Extend(Init(), events, t, e);
  }

  lemma ReachableInv(t: State)
    requires Reachable(t)
    ensures Inv(t)
  {
    var events :| Legal(Init(), events) && Run(Init(), events) == t;
    RunInv(Init(), events);
  }

  // ---- The register is its last commit ------------------------------------------

  /** The place of the repo's last commit. */
  function LastCommit(log: seq<Write>, repo: Repo): (m: Option<nat>)
    ensures m.Some? ==> m.value < |log| && log[m.value].repo == repo
  {
    if log == [] then None
    else if log[|log| - 1].repo == repo then Some(|log| - 1)
    else LastCommit(log[..|log| - 1], repo)
  }

  lemma {:induction false} RegisterIsLastCommit(log: seq<Write>, repo: Repo)
    ensures repo in Replay(log) <==> LastCommit(log, repo).Some?
    ensures LastCommit(log, repo).Some? ==>
              var m := LastCommit(log, repo).value;
              m < |log| && log[m].repo == repo && Replay(log)[repo] == log[m].entry
    ensures forall k :: 0 <= k < |log| && log[k].repo == repo ==>
              LastCommit(log, repo).Some? && k <= LastCommit(log, repo).value
  {
    if log != [] {
      var front := log[..|log| - 1];
      RegisterIsLastCommit(front, repo);
      assert log == front + [log[|log| - 1]];
    }
  }

  // ---- The order of commits ---------------------------------------------------------

  /** In every run, a later commit to a repo carries a strictly greater epoch,
      unless the earlier one lost its read-back and a recovery wrote one of
      the two. In particular a recorded commit is never overtaken. */
  lemma CommitsInOrder(events: seq<Event>, i: nat, j: nat)
    requires Legal(Init(), events)
    requires var s := Run(Init(), events); i < j < |s.log| && s.log[i].repo == s.log[j].repo
    ensures var s := Run(Init(), events);
            || s.log[i].entry.epoch < s.log[j].entry.epoch
            || (i in s.lost && (ByRecovery(s, s.log[i]) || ByRecovery(s, s.log[j])))
  {
    RunInv(Init(), events);
    assert InOrder(Run(Init(), events), i, j);
  }

  /** The write a repo's register shows is newer than every recorded write. */
  ghost predicate HoldsNewest(s: State, repo: Repo) {
    forall k :: 0 <= k < |s.log| && s.log[k].repo == repo && k !in s.lost ==>
      && repo in s.register && s.log[k].entry.epoch <= s.register[repo].epoch
      && (s.log[k].entry.epoch == s.register[repo].epoch ==> s.log[k].entry == s.register[repo])
  }

  lemma NewestIsHeld(s: State, repo: Repo)
    requires Log(s) && Order(s)
    ensures HoldsNewest(s, repo)
  {
    RegisterIsLastCommit(s.log, repo);
    forall k: nat | k < |s.log| && s.log[k].repo == repo && k !in s.lost
      ensures repo in s.register && s.log[k].entry.epoch <= s.register[repo].epoch
      ensures s.log[k].entry.epoch == s.register[repo].epoch ==> s.log[k].entry == s.register[repo]
    {
      var m := LastCommit(s.log, repo).value;
      if k < m { assert InOrder(s, k, m); }
    }
  }

  /** In every run the register is the repo's last commit, and no recorded
      commit is newer. */
  lemma RegisterHoldsNewest(events: seq<Event>, repo: Repo)
    requires Legal(Init(), events)
    ensures var s := Run(Init(), events);
            && HoldsNewest(s, repo)
            && (repo in s.register <==> LastCommit(s.log, repo).Some?)
            && (repo in s.register ==> s.register[repo] == s.log[LastCommit(s.log, repo).value].entry)
  {
    RunInv(Init(), events);
    NewestIsHeld(Run(Init(), events), repo);
    RegisterIsLastCommit(Run(Init(), events).log, repo);
  }

  // ---- Without a lost read-back ---------------------------------------------------------

  lemma {:induction false} LostNeedsLostReadBack(s: State, events: seq<Event>)
    requires Legal(s, events) && LoseReadBack !in events
    ensures Run(s, events).lost == s.lost
    decreases |events|
  {
    if events != [] {
      assert events[0] in events;
      LostNeedsLostReadBack(Step(s, events[0]), events[1..]);
    }
  }

  /** Later commits to a repo carry strictly greater epochs. */
  ghost predicate Ordered(log: seq<Write>, repo: Repo) {
    forall i, j :: 0 <= i < j < |log| && log[i].repo == repo && log[j].repo == repo ==>
      log[i].entry.epoch < log[j].entry.epoch
  }

  lemma OrderedWithoutLostReadBack(events: seq<Event>, repo: Repo)
    requires Legal(Init(), events) && LoseReadBack !in events
    ensures Ordered(Run(Init(), events).log, repo)
  {
    LostNeedsLostReadBack(Init(), events);
    var s := Run(Init(), events);
    forall i: nat, j: nat | i < j < |s.log| && s.log[i].repo == repo && s.log[j].repo == repo
      ensures s.log[i].entry.epoch < s.log[j].entry.epoch
    {
      CommitsInOrder(events, i, j);
    }
  }

  // ---- Exactly when a commit keeps the order -------------------------------------------------

  /** A lost commit that the lock owner's commit would overtake, though older. */
  predicate Overtakes(s: State, k: nat)
    requires OwnerKnown(s)
  {
    var c := s.writes.value;
    && k in s.lost && k < |s.log| && s.log[k].repo == c.repo && s.log[k].entry.epoch > s.writers[c.writer].epoch
    && (ByRecovery(s, s.log[k]) || s.writers[c.writer].Recovery?)
  }

  /** Whoever commits, preflight or recovery, its write is newer than all of the
      repo's exactly when no newer commit of the repo lost its read-back
      (a recovery being involved). */
  lemma CommitKeepsOrderIff(s: State)
    requires Reachable(s) && OwnerKnown(s) && s.writes.value.phase == Claimed
    requires Ordered(s.log, s.writes.value.repo)
    ensures Ordered(Proceed(s).log, s.writes.value.repo) <==> forall k: nat :: !Overtakes(s, k)
  {
    ReachableInv(s);
    var c := s.writes.value;
    var epoch := s.writers[c.writer].epoch;
    forall k: nat | k < |s.log| && s.log[k].repo == c.repo ensures s.log[k].entry.epoch < epoch || Overtakes(s, k) {
      CommitIsNewer(s, k);
      CommitIsAnother(s, k);
    }
    AppendOrderedIff(s.log, Write(c.writer, c.repo, Entry(epoch, c.report)));
  }

  /** The owner has committed nothing to the repo yet. */
  lemma CommitIsAnother(s: State, k: nat)
    requires Epochs(s) && Log(s) && Owner(s) && OwnerKnown(s) && s.writes.value.phase == Claimed
    requires k < |s.log| && s.log[k].repo == s.writes.value.repo
    ensures s.log[k].entry.epoch != s.writers[s.writes.value.writer].epoch
  {
    assert LoggedBy(s, s.log[k]) && s.log[k].writer != s.writes.value.writer;
  }

  lemma AppendOrderedIff(log: seq<Write>, write: Write)
    requires Ordered(log, write.repo)
    ensures Ordered(log + [write], write.repo) <==>
            forall k :: 0 <= k < |log| && log[k].repo == write.repo ==> log[k].entry.epoch < write.entry.epoch
  {
    var all := log + [write];
    assert all[|log|] == write && forall k :: 0 <= k < |log| ==> all[k] == log[k];
  }

  // ---- Runs of whole critical sections ----------------------------------------------------------

  ghost function At(s: State, c: Section): State {
    s.(writes := Some(c), visits := s.visits + {Visit(c.writer, c.repo)})
  }

  /** The writer may enter, will not be refused, and will win its claim. */
  ghost predicate Clear(s: State, w: nat, repo: Repo) {
    && MayAcquire(s, w, repo) && !Refused(s, s.writers[w], repo)
    && (s.writers[w].Recovery? || s.writers[w].status == Running)
  }

  ghost function AtClaim(s: State, w: nat, repo: Repo, report: Report): State
    requires w < |s.writers|
  {
    At(s.(writers := LeaveRunning(s.writers, w, Committing)), Section(w, repo, report, Claimed))
  }

  ghost function AtCommit(s: State, w: nat, repo: Repo, report: Report): State
    requires w < |s.writers|
  {
    var entry := Entry(s.writers[w].epoch, report);
    At(s.(writers := LeaveRunning(s.writers, w, Committing), register := s.register[repo := entry],
          log := s.log + [Write(w, repo, entry)]),
       Section(w, repo, report, Committed))
  }

  ghost function AfterLoss(s: State, w: nat, repo: Repo, report: Report): State
    requires w < |s.writers|
  {
    AtCommit(s, w, repo, report).(writes := None, replies := s.replies + [Failed(w)], lost := s.lost + {|s.log|})
  }

  ghost function AfterReconcile(s: State, w: nat, repo: Repo, report: Report): State
    requires w < |s.writers|
  {
    var entry := Entry(s.writers[w].epoch, report);
    AtCommit(s, w, repo, report).(writes := None, replies := s.replies + [Stamped(w, repo, entry)],
                                  reconciled := s.reconciled[repo := entry])
  }

  /** From any reachable state a clear writer goes on to claim its commit. */
  lemma ClaimHappens(s: State, w: nat, repo: Repo, report: Report)
    requires Reachable(s) && Clear(s, w, repo)
    ensures Reachable(AtClaim(s, w, repo, report))
  {
    var c := Section(w, repo, report, Locked);
    ReachStep(s, Acquire(w, repo, report), At(s, c));
    ReachStep(At(s, c), Advance, At(s, c.(phase := Alive)));
    ReachStep(At(s, c.(phase := Alive)), Advance, At(s, c.(phase := Guarded)));
    ReachStep(At(s, c.(phase := Guarded)), Advance, At(s, c.(phase := Staged)));
    ReachStep(At(s, c.(phase := Staged)), Advance, AtClaim(s, w, repo, report));
  }

  lemma CommitHappens(s: State, w: nat, repo: Repo, report: Report)
    requires Reachable(s) && Clear(s, w, repo)
    ensures Reachable(AtCommit(s, w, repo, report))
  {
    ClaimHappens(s, w, repo, report);
    ReachStep(AtClaim(s, w, repo, report), Advance, AtCommit(s, w, repo, report));
  }

  lemma LossHappens(s: State, w: nat, repo: Repo, report: Report)
    requires Reachable(s) && Clear(s, w, repo)
    ensures Reachable(AfterLoss(s, w, repo, report))
  {
    CommitHappens(s, w, repo, report);
    ReachStep(AtCommit(s, w, repo, report), LoseReadBack, AfterLoss(s, w, repo, report));
  }

  lemma ReconcileHappens(s: State, w: nat, repo: Repo, report: Report)
    requires Reachable(s) && Clear(s, w, repo) && s.writers[w].Recovery?
    ensures Reachable(AfterReconcile(s, w, repo, report))
  {
    CommitHappens(s, w, repo, report);
    var t := AtCommit(s, w, repo, report);
    var recorded := Enter(t.(reconciled := s.reconciled[repo := Entry(s.writers[w].epoch, report)]), Recorded);
    ReachStep(t, Advance, recorded);
    ReachStep(recorded, Advance, AfterReconcile(s, w, repo, report));
  }

  // ---- The two ways a lost commit is overtaken ---------------------------------------------------

  /** A fence, then a preflight begun after it; the recovery's job completed. */
  ghost function FenceFirst(): State {
    Init().(epoch := 2, current := Some(1), writers := [Recovery(1, Completed), Preflight(2, Running)])
  }

  lemma FenceFirstHappens()
    ensures Reachable(FenceFirst())
  {
    assert Legal(Init(), []) && Run(Init(), []) == Init();
    var fenced := Init().(epoch := 1, writers := [Recovery(1, Pending)]);
    ReachStep(Init(), Reserve, fenced);
    var begun := fenced.(epoch := 2, current := Some(1), writers := [Recovery(1, Pending), Preflight(2, Running)]);
    ReachStep(fenced, Begin, begun);
    ReachStep(begun, Settle(0, true), FenceFirst());
  }

  /** The preflight's commit loses its read-back, and the older fence writes
      over it. */
  lemma LostPreflightIsOvertaken()
    ensures exists s :: Reachable(s) && !Ordered(s.log, "r") && |s.log| == 2 && s.lost == {0}
                        && !ByRecovery(s, s.log[0]) && ByRecovery(s, s.log[1])
  {
    FenceFirstHappens();
    LossHappens(FenceFirst(), 1, "r", []);
    var lost := AfterLoss(FenceFirst(), 1, "r", []);
    CommitHappens(lost, 0, "r", []);
    var s := AtCommit(lost, 0, "r", []);
    assert s.log == [Write(1, "r", Entry(2, [])), Write(0, "r", Entry(1, []))];
    assert s.log[0].entry.epoch > s.log[1].entry.epoch;
  }

  /** A preflight, then a fence reserved after it; the recovery's job completed. */
  ghost function PreflightFirst(): State {
    Init().(epoch := 2, current := Some(0), writers := [Preflight(1, Running), Recovery(2, Completed)])
  }

  lemma PreflightFirstHappens()
    ensures Reachable(PreflightFirst())
  {
    assert Legal(Init(), []) && Run(Init(), []) == Init();
    var begun := Init().(epoch := 1, current := Some(0), writers := [Preflight(1, Running)]);
    ReachStep(Init(), Begin, begun);
    var fenced := begun.(epoch := 2, writers := [Preflight(1, Running), Recovery(2, Pending)]);
    ReachStep(begun, Reserve, fenced);
    ReachStep(fenced, Settle(1, true), PreflightFirst());
  }

  /** The recovery's commit loses its read-back, and the older preflight, which
      nothing refuses, writes over it. */
  lemma LostRecoveryIsOvertaken()
    ensures exists s :: Reachable(s) && !Ordered(s.log, "r") && |s.log| == 2 && s.lost == {0}
                        && ByRecovery(s, s.log[0]) && !ByRecovery(s, s.log[1])
  {
    PreflightFirstHappens();
    LossHappens(PreflightFirst(), 1, "r", []);
    var lost := AfterLoss(PreflightFirst(), 1, "r", []);
    CommitHappens(lost, 0, "r", []);
    var s := AtCommit(lost, 0, "r", []);
    assert s.log == [Write(1, "r", Entry(2, [])), Write(0, "r", Entry(1, []))];
    assert s.log[0].entry.epoch > s.log[1].entry.epoch;
  }
}
