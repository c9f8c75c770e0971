/** Who is refused: exactly the writers that a newer recorded commit of their
    repo has overtaken, read off the history of commits alone. */
module RegisterRefusals {
  import opened Wrappers
  import opened Register
  import opened RegisterInvariant
  import opened RegisterTheorems

  // ---- Every remembered preflight was recorded ---------------------------------------------------

  /** Commit `k` is the preflight whose epoch `persisted` keeps. */
  ghost predicate Backs(s: State, repo: Repo, k: nat) {
    && k < |s.log| && k !in Unsettled(s) && repo in s.persisted
    && s.log[k].repo == repo && s.log[k].entry.epoch == s.persisted[repo] && !ByRecovery(s, s.log[k])
  }

  ghost predicate Backed(s: State) {
    forall repo :: repo in s.persisted ==> exists k: nat :: Backs(s, repo, k)
  }

  /** A recorded commit stays recorded, and by the same kind of writer. */
  lemma SettledStays(s: State, e: Event, k: nat)
    requires Inv(s) && Enabled(s, e) && k < |s.log| && k !in Unsettled(s)
    ensures var t := Step(s, e);
            && k < |t.log| && t.log[k] == s.log[k] && k !in Unsettled(t)
            && ByRecovery(t, t.log[k]) == ByRecovery(s, s.log[k])
  {
    assert LoggedBy(s, s.log[k]);
    WritersEvolve(s, e);
    LogGrows(s, e, k);
  }

  /** The log only grows, and a recorded commit is not unsettled by an event. */
  ghost predicate StaysRecorded(s: State, t: State, k: nat)
    requires k < |s.log|
  {
    k < |t.log| && t.log[k] == s.log[k] && k !in Unsettled(t)
  }

  lemma CheckGrows(s: State, k: nat)
    requires OwnerKnown(s) && s.writes.value.phase in {Locked, Alive} && k < |s.log| && k !in Unsettled(s)
    ensures StaysRecorded(s, Proceed(s), k)
  {
  }

  lemma WriteGrows(s: State, k: nat)
    requires OwnerKnown(s) && s.writes.value.phase !in {Locked, Alive} && k < |s.log| && k !in Unsettled(s)
    ensures StaysRecorded(s, Proceed(s), k)
  {
  }

  lemma OtherGrows(s: State, e: Event, k: nat)
    requires Enabled(s, e) && e != Advance && k < |s.log| && k !in Unsettled(s)
    ensures StaysRecorded(s, Step(s, e), k)
  {
  }

  lemma LogGrows(s: State, e: Event, k: nat)
    requires Enabled(s, e) && k < |s.log| && k !in Unsettled(s)
    ensures StaysRecorded(s, Step(s, e), k)
  {
    if e != Advance {
      OtherGrows(s, e, k);
    } else if s.writes.value.phase in {Locked, Alive} {
      CheckGrows(s, k);
    } else {
      WriteGrows(s, k);
    }
  }

  lemma WritersEvolve(s: State, e: Event)
    requires Inv(s) && Enabled(s, e)
    ensures Evolve(s.writers, Step(s, e).writers)
  {
    if e == Advance {
      if s.writes.value.phase == Staged { ClaimWriters(s); }
    } else if e in {Begin, Cancel, Reserve} || e.Settle? {
      WritersStep(s, e);
    }
  }

  lemma PersistedStep(s: State, e: Event)
    requires Enabled(s, e)
    ensures (e == Advance && s.writes.value.phase == Committed) || Step(s, e).persisted == s.persisted
  {
  }

  lemma NewlyBacks(s: State)
    requires Inv(s) && OwnerKnown(s) && s.writes.value.phase == Committed
    requires var c := s.writes.value;
             && s.writers[c.writer].Preflight?
             && (c.repo in s.persisted ==> s.persisted[c.repo] < s.writers[c.writer].epoch)
    ensures Backs(Proceed(s), s.writes.value.repo, |s.log| - 1)
  {
    RecordUnsettled(s);
  }

  lemma StillBacks(s: State, repo: Repo, k: nat)
    requires Inv(s) && OwnerKnown(s) && s.writes.value.phase == Committed && Backs(s, repo, k)
    requires Proceed(s).persisted[repo] == s.persisted[repo]
    ensures Backs(Proceed(s), repo, k)
  {
    SettledStays(s, Advance, k);
  }

  /** Recording remembers the commit, or keeps what was remembered. */
  lemma RecordKeeps(s: State, repo: Repo)
    requires OwnerKnown(s) && s.writes.value.phase == Committed && repo in Proceed(s).persisted
    ensures var c := s.writes.value;
            || (repo in s.persisted && Proceed(s).persisted[repo] == s.persisted[repo])
            || (repo == c.repo && s.writers[c.writer].Preflight?
                && (repo in s.persisted ==> s.persisted[repo] < s.writers[c.writer].epoch))
  {
  }

  lemma RecordBacks(s: State, repo: Repo) returns (k: nat)
    requires Inv(s) && Backed(s) && OwnerKnown(s) && s.writes.value.phase == Committed
    requires repo in Proceed(s).persisted
    ensures Backs(Proceed(s), repo, k)
  {
    RecordKeeps(s, repo);
    if repo in s.persisted && Proceed(s).persisted[repo] == s.persisted[repo] {
      k :| Backs(s, repo, k);
      StillBacks(s, repo, k);
    } else {
      k := |s.log| - 1;
      NewlyBacks(s);
    }
  }

  lemma BackedStep(s: State, e: Event)
    requires Inv(s) && Backed(s) && Enabled(s, e)
    ensures Backed(Step(s, e))
  {
    var t := Step(s, e);
    PersistedStep(s, e);
    forall repo | repo in t.persisted ensures exists k: nat :: Backs(t, repo, k) {
      if e == Advance && s.writes.value.phase == Committed {
        var k := RecordBacks(s, repo);
      } else {
        var k: nat :| Backs(s, repo, k);
        SettledStays(s, e, k);
        assert Backs(t, repo, k);
      }
    }
  }

  lemma {:induction false} BackedRun(s: State, events: seq<Event>)
    requires Inv(s) && Backed(s) && Legal(s, events)
    ensures Backed(Run(s, events))
    decreases |events|
  {
    if events != [] {
      StepInv(s, events[0]);
      BackedStep(s, events[0]);
      BackedRun(Step(s, events[0]), events[1..]);
    }
  }

  lemma ReachableBacked(s: State)
    requires Reachable(s)
    ensures Inv(s) && Backed(s)
  {
    var events :| Legal(Init(), events) && Run(Init(), events) == s;
    InitInv();
    BackedRun(Init(), events);
    ReachableInv(s);
  }

  // ---- Exactly who is refused ----------------------------------------------------------------------

  /** Commit `k` of the repo was recorded and is newer than `epoch`. */
  predicate Newer(s: State, repo: Repo, epoch: nat, k: nat) {
    k < |s.log| && k !in s.lost && s.log[k].repo == repo && s.log[k].entry.epoch > epoch
  }

  ghost predicate Overtaken(s: State, repo: Repo, epoch: nat) {
    exists k: nat :: Newer(s, repo, epoch, k)
  }

  ghost predicate OvertakenByRecovery(s: State, repo: Repo, epoch: nat) {
    exists k: nat :: Newer(s, repo, epoch, k) && s.log[k].writer < |s.writers| && s.writers[s.log[k].writer].Recovery?
  }

  /** No commit waits to be recorded. */
  predicate Settled(s: State) { s.writes.Some? ==> s.writes.value.phase != Committed }

  lemma ReconciledIsNewest(s: State, repo: Repo, epoch: nat)
    requires Inv(s) && Settled(s)
    ensures NewerThan(s.reconciled, repo, epoch) <==> OvertakenByRecovery(s, repo, epoch)
  {
    if NewerThan(s.reconciled, repo, epoch) {
      var k: nat :| Quotes(s, repo, k);
      assert Newer(s, repo, epoch, k);
    }
    if OvertakenByRecovery(s, repo, epoch) {
      var k: nat :| Newer(s, repo, epoch, k) && ByRecovery(s, s.log[k]);
      assert Reflected(s, s.log[k]);
    }
  }

  lemma PersistedIsNewest(s: State, repo: Repo, epoch: nat)
    requires Inv(s) && Backed(s) && Settled(s)
    ensures (repo in s.persisted && s.persisted[repo] > epoch) <==>
            exists k: nat :: Newer(s, repo, epoch, k) && !ByRecovery(s, s.log[k])
  {
    if repo in s.persisted && s.persisted[repo] > epoch {
      var k: nat :| Backs(s, repo, k);
      assert Newer(s, repo, epoch, k);
    }
    if k: nat :| Newer(s, repo, epoch, k) && !ByRecovery(s, s.log[k]) {
      assert LoggedBy(s, s.log[k]) && Reflected(s, s.log[k]);
    }
  }

  /** In every reachable state, a recovery is refused iff some recorded commit of
      the repo is newer, a preflight iff some recorded recovery is. */
  lemma RefusedIff(s: State, w: nat, repo: Repo)
    requires Reachable(s) && Settled(s) && w < |s.writers|
    ensures Refused(s, s.writers[w], repo) <==>
              if s.writers[w].Recovery? then Overtaken(s, repo, s.writers[w].epoch)
              else OvertakenByRecovery(s, repo, s.writers[w].epoch)
  {
    var epoch := s.writers[w].epoch;
    ReachableBacked(s);
    ReconciledIsNewest(s, repo, epoch);
    PersistedIsNewest(s, repo, epoch);
    if Overtaken(s, repo, epoch) {
      var k: nat :| Newer(s, repo, epoch, k);
      assert ByRecovery(s, s.log[k]) || !ByRecovery(s, s.log[k]);
    }
  }
}
