/** What every event of the register protocol keeps. */
module RegisterInvariant {
  import opened Wrappers
  import opened Register

  /** Places in the order are handed out once and only grow. */
  ghost predicate Epochs(s: State) {
    && (forall i :: 0 <= i < |s.writers| ==> s.writers[i].epoch <= s.epoch)
    && (forall i, j :: 0 <= i < j < |s.writers| ==> s.writers[i].epoch < s.writers[j].epoch)
  }

  /** The slot names the newest preflight, and no other preflight is running. */
  ghost predicate Slot(s: State) {
    && (s.current.Some? ==> s.current.value < |s.writers| && s.writers[s.current.value].Preflight?)
    && (forall i :: 0 <= i < |s.writers| && s.writers[i].Preflight? ==>
          s.current.Some? && i <= s.current.value)
    && (forall i :: 0 <= i < |s.writers| && s.writers[i].Preflight? && s.writers[i].status == Running ==>
          s.current == Some(i))
  }

  /** A logged write was made by a known writer, at its epoch, after its claim. */
  ghost predicate LoggedBy(s: State, write: Write) {
    && write.writer < |s.writers|
    && write.entry.epoch == s.writers[write.writer].epoch
    && Visit(write.writer, write.repo) in s.visits
    && (s.writers[write.writer].Preflight? ==> s.writers[write.writer].status == Committing)
  }

  /** The commit whose recording the lock owner still owes. */
  function Outstanding(s: State): set<nat> {
    if s.writes.Some? && s.writes.value.phase == Committed && s.log != [] then {|s.log| - 1} else {}
  }

  /** Commits that are not in the in-memory maps: lost ones, and the owner's. */
  function Unsettled(s: State): set<nat> { s.lost + Outstanding(s) }

  ghost predicate Log(s: State) {
    && (forall k :: 0 <= k < |s.log| ==> LoggedBy(s, s.log[k]))
    && (forall v :: v in s.visits ==> v.writer < |s.writers|)
    && s.register == Replay(s.log)
    && (forall k :: k in s.lost ==> k < |s.log|)
  }

  predicate ByRecovery(s: State, write: Write) {
    write.writer < |s.writers| && s.writers[write.writer].Recovery?
  }

  /** A commit the in-memory maps reflect. */
  predicate Reflected(s: State, write: Write) {
    write.writer < |s.writers| &&
    if s.writers[write.writer].Preflight?
    then write.repo in s.persisted && write.entry.epoch <= s.persisted[write.repo]
    else write.repo in s.reconciled && write.entry.epoch <= s.reconciled[write.repo].epoch
  }

  ghost predicate Maps(s: State) {
    forall k :: 0 <= k < |s.log| && k !in Unsettled(s) ==> Reflected(s, s.log[k])
  }

  /** Commit `k` is the repo's last recorded recovery, and what `reconciled` keeps. */
  ghost predicate Quotes(s: State, repo: Repo, k: nat) {
    && k < |s.log| && k !in Unsettled(s) && repo in s.reconciled
    && s.log[k].repo == repo && s.log[k].entry == s.reconciled[repo] && ByRecovery(s, s.log[k])
    && (forall j :: k < j < |s.log| && s.log[j].repo == repo && ByRecovery(s, s.log[j]) ==> j in Unsettled(s))
  }

  ghost predicate Quoted(s: State) {
    forall repo :: repo in s.reconciled ==> exists k: nat :: Quotes(s, repo, k)
  }

  /** Commit `i` may be overtaken by an older `j`: it was lost, and a recovery
      is involved. */
  predicate Excused(s: State, i: nat, j: nat)
    requires i < |s.log| && j < |s.log|
  {
    i in s.lost && (ByRecovery(s, s.log[i]) || ByRecovery(s, s.log[j]))
  }

  predicate InOrder(s: State, i: nat, j: nat)
    requires i < |s.log| && j < |s.log|
  {
    s.log[i].repo == s.log[j].repo ==> s.log[i].entry.epoch < s.log[j].entry.epoch || Excused(s, i, j)
  }

  ghost predicate Order(s: State) {
    forall i: nat, j: nat :: i < j < |s.log| ==> InOrder(s, i, j)
  }

  predicate BeforeCommit(p: Phase) { p in {Locked, Alive, Guarded, Staged, Claimed} }

  /** What the owner of the write lock may rely on, stage by stage. */
  ghost predicate Owner(s: State) {
    s.writes.Some? ==>
      var c := s.writes.value;
      && c.writer < |s.writers|
      && Visit(c.writer, c.repo) in s.visits
      && var writer := s.writers[c.writer];
      && (writer.Preflight? && c.phase in {Locked, Alive, Guarded, Staged} ==> writer.status != Committing)
      && (writer.Preflight? && c.phase in {Claimed, Committed, Recorded} ==> writer.status == Committing)
      && (writer.Preflight? && c.phase != Locked ==>
            forall k :: 0 <= k < |s.log| && s.log[k].writer < |s.writers| && s.writers[s.log[k].writer].Preflight? ==>
              s.log[k].writer <= c.writer)
      && (c.phase in {Guarded, Staged, Claimed, Committed} ==> !Refused(s, writer, c.repo))
      && (BeforeCommit(c.phase) ==>
            forall k :: 0 <= k < |s.log| && s.log[k].writer == c.writer ==> s.log[k].repo != c.repo)
      && (c.phase in {Committed, Recorded} ==>
            && s.log != [] && s.log[|s.log| - 1] == Write(c.writer, c.repo, Entry(writer.epoch, c.report))
            && |s.log| - 1 !in s.lost)
  }

  /** A preflight that has not reached the lock has neither committed nor claimed. */
  ghost predicate Fresh(s: State) {
    forall i :: 0 <= i < |s.writers| && s.writers[i].Preflight? && s.writers[i].status == Committing ==>
      exists r :: Visit(i, r) in s.visits
  }

  /** A commit that was recorded. */
  ghost predicate InRecord(s: State, repo: Repo, entry: Entry) {
    exists k :: 0 <= k < |s.log| && k !in Unsettled(s) && s.log[k].repo == repo && s.log[k].entry == entry
  }

  ghost predicate Truthful(s: State, reply: Reply) {
    match reply
    case ReportedCancelled(w) => w < |s.writers| && s.writers[w].Preflight? && s.writers[w].status == Cancelled
    case Stamped(_, repo, entry) => InRecord(s, repo, entry)
    case _ => true
  }

  ghost predicate Answers(s: State) {
    forall k :: 0 <= k < |s.replies| ==> Truthful(s, s.replies[k])
  }

  ghost predicate Inv(s: State) {
    && Epochs(s) && Slot(s) && Log(s) && Maps(s) && Quoted(s)
    && Order(s) && Owner(s) && Fresh(s) && Answers(s)
  }

  lemma InitInv()
    ensures Inv(Init())
  {
  }

  // ---- Events that commit nothing and record nothing ------------------------------------------

  /** How the writers may change: new ones appear, running ones settle. */
  ghost predicate Evolve(before: seq<Writer>, after: seq<Writer>) {
    && |before| <= |after|
    && forall i :: 0 <= i < |before| ==>
         && before[i].epoch == after[i].epoch
         && (before[i].Preflight? <==> after[i].Preflight?)
         && (before[i].Preflight? && before[i].status != Running ==> after[i].status == before[i].status)
  }

  /** The same commits, recorded alike, by the same writers. */
  ghost predicate SameHistory(s: State, t: State) {
    && t.log == s.log && t.lost == s.lost && t.register == s.register
    && t.reconciled == s.reconciled && t.persisted == s.persisted && s.visits <= t.visits
    && Unsettled(t) == Unsettled(s) && Evolve(s.writers, t.writers)
  }

  lemma SameRecovery(s: State, t: State, k: nat)
    requires Log(s) && SameHistory(s, t) && k < |s.log|
    ensures ByRecovery(t, s.log[k]) <==> ByRecovery(s, s.log[k])
  {
    assert LoggedBy(s, s.log[k]);
  }

  lemma SameLog(s: State, t: State)
    requires Log(s) && SameHistory(s, t) && forall v :: v in t.visits ==> v.writer < |t.writers|
    ensures Log(t)
  {
    forall k | 0 <= k < |s.log| ensures LoggedBy(t, s.log[k]) { assert LoggedBy(s, s.log[k]); }
  }

  lemma SameMaps(s: State, t: State)
    requires Log(s) && Maps(s) && SameHistory(s, t)
    ensures Maps(t)
  {
    forall k | 0 <= k < |t.log| && k !in Unsettled(t) ensures Reflected(t, t.log[k]) {
      assert LoggedBy(s, s.log[k]) && Reflected(s, s.log[k]);
    }
  }

  lemma SameQuotes(s: State, t: State, repo: Repo, k: nat)
    requires Log(s) && SameHistory(s, t) && Quotes(s, repo, k)
    ensures Quotes(t, repo, k)
  {
    SameRecovery(s, t, k);
    forall j: nat | k < j < |t.log| && t.log[j].repo == repo && ByRecovery(t, t.log[j]) ensures j in Unsettled(t) {
      SameRecovery(s, t, j);
    }
  }

  lemma SameQuoted(s: State, t: State)
    requires Log(s) && Quoted(s) && SameHistory(s, t)
    ensures Quoted(t)
  {
    forall repo | repo in t.reconciled ensures exists k: nat :: Quotes(t, repo, k) {
      var k: nat :| Quotes(s, repo, k);
      SameQuotes(s, t, repo, k);
    }
  }

  lemma SameOrder(s: State, t: State)
    requires Log(s) && Order(s) && SameHistory(s, t)
    ensures Order(t)
  {
    forall i: nat, j: nat | i < j < |t.log| ensures InOrder(t, i, j) {
      assert InOrder(s, i, j);
      SameRecovery(s, t, i);
      SameRecovery(s, t, j);
    }
  }

  /** An event that commits nothing and records nothing. */
  lemma FrameInv(s: State, t: State)
    requires Inv(s) && SameHistory(s, t)
    requires forall v :: v in t.visits ==> v.writer < |t.writers|
    requires Epochs(t) && Slot(t) && Owner(t) && Fresh(t) && Answers(t)
    ensures Inv(t)
  {
    SameLog(s, t);
    SameMaps(s, t);
    SameQuoted(s, t);
    SameOrder(s, t);
  }

  lemma SameAnswer(s: State, t: State, reply: Reply)
    requires SameHistory(s, t) && Truthful(s, reply)
    ensures Truthful(t, reply)
  {
    if reply.Stamped? {
      var k :| 0 <= k < |s.log| && k !in Unsettled(s) && s.log[k].repo == reply.repo && s.log[k].entry == reply.entry;
      assert t.log[k] == s.log[k];
    }
  }

  /** Replies only accumulate. */
  lemma SameAnswers(s: State, t: State, added: seq<Reply>)
    requires SameHistory(s, t) && Answers(s) && t.replies == s.replies + added
    requires forall k :: 0 <= k < |added| ==> Truthful(s, added[k])
    ensures Answers(t)
  {
    forall k | 0 <= k < |t.replies| ensures Truthful(t, t.replies[k]) {
      if k < |s.replies| {
        SameAnswer(s, t, s.replies[k]);
      } else {
        SameAnswer(s, t, added[k - |s.replies|]);
      }
    }
  }

  lemma SameWriters(s: State, t: State)
    requires Epochs(s) && Slot(s) && Fresh(s)
    requires t.epoch == s.epoch && t.current == s.current && t.writers == s.writers && t.visits == s.visits
    ensures Epochs(t) && Slot(t) && Fresh(t)
  {
  }

  /** An event that only answers, or moves the lock owner on. */
  lemma QuietInv(s: State, t: State, added: seq<Reply>)
    requires Inv(s) && t == s.(writes := t.writes, replies := s.replies + added) && Unsettled(t) == Unsettled(s)
    requires Owner(t) && forall k :: 0 <= k < |added| ==> Truthful(s, added[k])
    ensures Inv(t)
  {
    SameWriters(s, t);
    SameAnswers(s, t, added);
    FrameInv(s, t);
  }

  lemma OutsideInv(s: State, t: State)
    requires Inv(s) && t == s.(epoch := t.epoch, current := t.current, writers := t.writers)
    requires Epochs(t) && Slot(t) && Evolve(s.writers, t.writers)
    requires forall i :: 0 <= i < |t.writers| && t.writers[i].Preflight? && t.writers[i].status == Committing ==>
               i < |s.writers| && s.writers[i].status == Committing
    ensures Inv(t)
  {
    assert SameHistory(s, t);
    OutsideOwner(s, t);
    assert t.replies == s.replies + [];
    SameAnswers(s, t, []);
    FrameInv(s, t);
  }

  lemma OutsideOwner(s: State, t: State)
    requires Owner(s) && Fresh(s) && Log(s) && t == s.(epoch := t.epoch, current := t.current, writers := t.writers)
    requires Evolve(s.writers, t.writers)
    requires forall i :: 0 <= i < |t.writers| && t.writers[i].Preflight? && t.writers[i].status == Committing ==>
               i < |s.writers| && s.writers[i].status == Committing
    ensures Owner(t) && Fresh(t)
  {
    forall k | 0 <= k < |s.log| ensures LoggedBy(s, s.log[k]) { }
  }

  /** New writers and settled ones keep the order of places and the slot; none
      of them claims a commit. */
  ghost predicate WritersKept(s: State, t: State) {
    && Epochs(t) && Slot(t) && Evolve(s.writers, t.writers)
    && forall i :: 0 <= i < |t.writers| && t.writers[i].Preflight? && t.writers[i].status == Committing ==>
         i < |s.writers| && s.writers[i].status == Committing
  }

  lemma BeginWriters(s: State)
    requires Epochs(s) && Slot(s)
    ensures WritersKept(s, Step(s, Begin))
  {
    CancelSlotStep(s);
  }

  lemma CancelWriters(s: State)
    requires Epochs(s) && Slot(s)
    ensures WritersKept(s, Step(s, Cancel))
  {
    CancelSlotStep(s);
  }

  lemma WritersStep(s: State, e: Event)
    requires Epochs(s) && Slot(s) && Enabled(s, e) && (e in {Begin, Cancel, Reserve} || e.Settle?)
    ensures WritersKept(s, Step(s, e))
  {
    match e
    case Begin => BeginWriters(s);
    case Cancel => CancelWriters(s);
    case Reserve =>
    case Settle(w, _) =>
  }

  /** Emptying the slot leaves no preflight running. */
  lemma CancelSlotStep(s: State)
    requires Slot(s)
    ensures var after := CancelSlot(s);
            && |after| == |s.writers| && Evolve(s.writers, after)
            && forall i :: 0 <= i < |after| && after[i].Preflight? ==>
                 after[i].status != Running && (after[i].status == Committing ==> s.writers[i].status == Committing)
  {
  }

  lemma StopScanInv(s: State, w: nat)
    requires Inv(s) && Enabled(s, StopScan(w))
    ensures Inv(Step(s, StopScan(w)))
  {
    var t := Step(s, StopScan(w));
    StopScanOwner(s, t);
    QuietInv(s, t, [ReportedCancelled(w)]);
  }

  lemma StopScanOwner(s: State, t: State)
    requires Owner(s) && t == s.(replies := t.replies)
    ensures Owner(t)
  {
  }

  lemma AcquireInv(s: State, w: nat, repo: Repo, report: Report)
    requires Inv(s) && Enabled(s, Acquire(w, repo, report))
    ensures Inv(Step(s, Acquire(w, repo, report)))
  {
    var t := Step(s, Acquire(w, repo, report));
    AcquireOwner(s, w, repo, report);
    AcquireFresh(s, t);
    assert t.replies == s.replies + [];
    SameAnswers(s, t, []);
    FrameInv(s, t);
  }

  lemma AcquireFresh(s: State, t: State)
    requires Fresh(s) && t.writers == s.writers && s.visits <= t.visits
    ensures Fresh(t)
  {
    forall i | 0 <= i < |t.writers| && t.writers[i].Preflight? && t.writers[i].status == Committing
      ensures exists r :: Visit(i, r) in t.visits
    {
      var r :| Visit(i, r) in s.visits;
      assert Visit(i, r) in t.visits;
    }
  }

  /** A writer entering the lock has committed nothing to the repo yet. */
  lemma AcquireOwner(s: State, w: nat, repo: Repo, report: Report)
    requires Log(s) && Fresh(s) && Enabled(s, Acquire(w, repo, report))
    ensures Owner(Step(s, Acquire(w, repo, report)))
  {
    forall k | 0 <= k < |s.log| ensures LoggedBy(s, s.log[k]) { }
  }

  // ---- The checks and the claim ---------------------------------------------------------------

  /** Whoever passes the cancellation check is the newest preflight. */
  lemma CheckOwner(s: State)
    requires Slot(s) && Owner(s) && Log(s) && OwnerKnown(s)
    requires s.writes.value.phase in {Locked, Alive, Guarded}
    ensures Owner(Proceed(s))
  {
    forall k | 0 <= k < |s.log| ensures LoggedBy(s, s.log[k]) { }
  }

  lemma CheckReply(s: State) returns (added: seq<Reply>)
    requires Quoted(s) && OwnerKnown(s) && s.writes.value.phase in {Locked, Alive, Guarded}
    ensures Proceed(s).replies == s.replies + added && forall k :: 0 <= k < |added| ==> Truthful(s, added[k])
  {
    var t := Proceed(s);
    var c := s.writes.value;
    if t.writes.Some? {
      added := [];
      assert t.replies == s.replies + [];
    } else {
      added := t.replies[|s.replies|..];
      if c.phase == Alive && s.writers[c.writer].Preflight? {
        var k: nat :| Quotes(s, c.repo, k);
        assert InRecord(s, c.repo, s.reconciled[c.repo]);
      }
    }
  }

  lemma CheckShape(s: State)
    requires OwnerKnown(s) && s.writes.value.phase in {Locked, Alive, Guarded}
    ensures var t := Proceed(s); t == s.(writes := t.writes, replies := t.replies) && Unsettled(t) == Unsettled(s)
  {
  }

  lemma CheckInv(s: State)
    requires Inv(s) && OwnerKnown(s) && s.writes.value.phase in {Locked, Alive, Guarded}
    ensures Inv(Proceed(s))
  {
    CheckOwner(s);
    var added := CheckReply(s);
    CheckShape(s);
    QuietInv(s, Proceed(s), added);
  }

  lemma ClaimKeepsFresh(s: State)
    requires Fresh(s) && Owner(s) && OwnerKnown(s) && s.writes.value.phase == Staged
    ensures Fresh(Proceed(s))
  {
    assert Visit(s.writes.value.writer, s.writes.value.repo) in Proceed(s).visits;
  }

  /** The claim settles the owner's own status and nothing else. */
  lemma ClaimWriters(s: State)
    requires Epochs(s) && Slot(s) && Fresh(s) && Owner(s) && OwnerKnown(s) && s.writes.value.phase == Staged
    ensures var t := Proceed(s); Epochs(t) && Slot(t) && Fresh(t) && Evolve(s.writers, t.writers)
  {
    ClaimKeepsFresh(s);
    var t := Proceed(s);
    assert forall i :: 0 <= i < |s.writers| && i != s.writes.value.writer ==> t.writers[i] == s.writers[i];
  }

  lemma ClaimOwner(s: State)
    requires Owner(s) && OwnerKnown(s) && s.writes.value.phase == Staged
    ensures Owner(Proceed(s))
  {
  }

  predicate ClaimWon(s: State)
    requires OwnerKnown(s)
  {
    s.writers[s.writes.value.writer].Recovery? || s.writers[s.writes.value.writer].status == Running
  }

  lemma ClaimShape(s: State)
    requires Owner(s) && OwnerKnown(s) && s.writes.value.phase == Staged
    ensures var t := Proceed(s);
            if ClaimWon(s) then t == s.(writes := t.writes, writers := t.writers) && Unsettled(t) == Unsettled(s)
            else t == s.(writes := t.writes, replies := s.replies + [ReportedCancelled(s.writes.value.writer)])
                 && Unsettled(t) == Unsettled(s) && Truthful(s, ReportedCancelled(s.writes.value.writer))
  {
  }

  lemma ClaimWonInv(s: State)
    requires Inv(s) && OwnerKnown(s) && s.writes.value.phase == Staged && ClaimWon(s)
    ensures Inv(Proceed(s))
  {
    var t := Proceed(s);
    ClaimShape(s);
    ClaimWriters(s);
    ClaimOwner(s);
    assert t.replies == s.replies + [];
    SameAnswers(s, t, []);
    FrameInv(s, t);
  }

  lemma ClaimInv(s: State)
    requires Inv(s) && OwnerKnown(s) && s.writes.value.phase == Staged
    ensures Inv(Proceed(s))
  {
    if ClaimWon(s) {
      ClaimWonInv(s);
    } else {
      ClaimShape(s);
      ClaimOwner(s);
      QuietInv(s, Proceed(s), [ReportedCancelled(s.writes.value.writer)]);
    }
  }

  // ---- The commit -------------------------------------------------------------------------------

  /** The write about to commit is newer than every write of its repo that was
      recorded, and than every lost one unless a recovery is involved. */
  lemma CommitIsNewer(s: State, k: nat)
    requires Epochs(s) && Log(s) && Maps(s) && Owner(s)
    requires OwnerKnown(s) && s.writes.value.phase == Claimed
    requires k < |s.log| && s.log[k].repo == s.writes.value.repo
    ensures var writer := s.writers[s.writes.value.writer];
            || s.log[k].entry.epoch < writer.epoch
            || (k in s.lost && (ByRecovery(s, s.log[k]) || writer.Recovery?))
  {
    var w := s.log[k].writer;
    assert LoggedBy(s, s.log[k]);
    assert w != s.writes.value.writer;
    assert k !in s.lost ==> Reflected(s, s.log[k]);
  }

  lemma CommitOrder(s: State)
    requires Epochs(s) && Log(s) && Maps(s) && Owner(s) && Order(s)
    requires OwnerKnown(s) && s.writes.value.phase == Claimed
    ensures Order(Proceed(s))
  {
    var t := Proceed(s);
    forall i: nat, j: nat | i < j < |t.log| ensures InOrder(t, i, j) {
      assert t.log[i] == s.log[i];
      if j < |s.log| {
        assert InOrder(s, i, j) && t.log[j] == s.log[j];
      } else if t.log[i].repo == t.log[j].repo {
        CommitIsNewer(s, i);
      }
    }
  }

  lemma CommitLog(s: State)
    requires Log(s) && Owner(s) && OwnerKnown(s) && s.writes.value.phase == Claimed
    ensures Log(Proceed(s))
  {
    var t := Proceed(s);
    assert t.log[..|t.log| - 1] == s.log;
    forall k | 0 <= k < |t.log| ensures LoggedBy(t, t.log[k]) {
      if k < |s.log| { assert LoggedBy(s, s.log[k]); }
    }
  }

  lemma CommitUnsettled(s: State)
    requires OwnerKnown(s) && s.writes.value.phase == Claimed
    ensures var t := Proceed(s);
            Unsettled(s) == s.lost && Unsettled(t) == s.lost + {|s.log|} && |t.log| == |s.log| + 1 && s.log <= t.log
  {
  }

  lemma CommitMaps(s: State)
    requires Maps(s) && OwnerKnown(s) && s.writes.value.phase == Claimed
    ensures Maps(Proceed(s))
  {
    var t := Proceed(s);
    CommitUnsettled(s);
    forall k | 0 <= k < |t.log| && k !in Unsettled(t) ensures Reflected(t, t.log[k]) {
      assert t.log[k] == s.log[k] && Reflected(s, s.log[k]);
    }
  }

  lemma CommitQuotes(s: State, repo: Repo, k: nat)
    requires OwnerKnown(s) && s.writes.value.phase == Claimed && Quotes(s, repo, k)
    ensures Quotes(Proceed(s), repo, k)
  {
    var t := Proceed(s);
    CommitUnsettled(s);
    assert t.log[k] == s.log[k];
    forall j: nat | k < j < |t.log| && t.log[j].repo == repo && ByRecovery(t, t.log[j]) ensures j in Unsettled(t) {
      if j < |s.log| { assert t.log[j] == s.log[j]; }
    }
  }

  lemma CommitQuoted(s: State)
    requires Quoted(s) && OwnerKnown(s) && s.writes.value.phase == Claimed
    ensures Quoted(Proceed(s))
  {
    var t := Proceed(s);
    forall repo | repo in t.reconciled ensures exists k: nat :: Quotes(t, repo, k) {
      var k: nat :| Quotes(s, repo, k);
      CommitQuotes(s, repo, k);
    }
  }

  lemma CommitOwner(s: State)
    requires Log(s) && Owner(s) && OwnerKnown(s) && s.writes.value.phase == Claimed
    ensures Owner(Proceed(s))
  {
  }

  lemma CommitAnswers(s: State)
    requires Answers(s) && OwnerKnown(s) && s.writes.value.phase == Claimed
    ensures Answers(Proceed(s))
  {
    var t := Proceed(s);
    CommitUnsettled(s);
    forall k | 0 <= k < |t.replies| ensures Truthful(t, t.replies[k]) {
      assert Truthful(s, s.replies[k]);
      if s.replies[k].Stamped? {
        var i :| 0 <= i < |s.log| && i !in Unsettled(s) && s.log[i].repo == s.replies[k].repo
            && s.log[i].entry == s.replies[k].entry;
        assert t.log[i] == s.log[i];
      }
    }
  }

  lemma CommitInv(s: State)
    requires Inv(s) && OwnerKnown(s) && s.writes.value.phase == Claimed
    ensures Inv(Proceed(s))
  {
    CommitOrder(s);
    CommitLog(s);
    CommitMaps(s);
    CommitQuoted(s);
    CommitOwner(s);
    CommitAnswers(s);
  }

  // ---- Recording ------------------------------------------------------------------------------------

  lemma RecordUnsettled(s: State)
    requires Owner(s) && OwnerKnown(s) && s.writes.value.phase == Committed
    ensures var t := Proceed(s);
            && t.log == s.log && t.lost == s.lost && t.writers == s.writers
            && Unsettled(t) == s.lost && Unsettled(s) == s.lost + {|s.log| - 1}
  {
  }

  /** Recording never lowers what the maps reflect, and reflects the commit. */
  lemma RecordReflects(s: State, k: nat)
    requires Log(s) && Maps(s) && Owner(s) && OwnerKnown(s) && s.writes.value.phase == Committed
    requires k < |s.log| && k !in s.lost
    ensures Reflected(Proceed(s), s.log[k])
  {
    assert LoggedBy(s, s.log[k]) && LoggedBy(s, s.log[|s.log| - 1]);
    assert k < |s.log| - 1 ==> Reflected(s, s.log[k]);
  }

  lemma RecordMaps(s: State)
    requires Log(s) && Maps(s) && Owner(s) && OwnerKnown(s) && s.writes.value.phase == Committed
    ensures Maps(Proceed(s))
  {
    var t := Proceed(s);
    RecordUnsettled(s);
    forall k | 0 <= k < |t.log| && k !in Unsettled(t) ensures Reflected(t, t.log[k]) { RecordReflects(s, k); }
  }

  lemma RecordQuotes(s: State, repo: Repo) returns (k: nat)
    requires Quoted(s) && Owner(s) && OwnerKnown(s) && s.writes.value.phase == Committed
    requires repo in Proceed(s).reconciled
    ensures Quotes(Proceed(s), repo, k)
  {
    var t, c := Proceed(s), s.writes.value;
    RecordUnsettled(s);
    if repo == c.repo && s.writers[c.writer].Recovery? {
      k := |s.log| - 1;
    } else {
      k :| Quotes(s, repo, k);
      forall j: nat | k < j < |t.log| && t.log[j].repo == repo && ByRecovery(t, t.log[j]) ensures j in Unsettled(t) {
        assert ByRecovery(s, s.log[j]);
      }
    }
  }

  lemma RecordQuoted(s: State)
    requires Quoted(s) && Owner(s) && OwnerKnown(s) && s.writes.value.phase == Committed
    ensures Quoted(Proceed(s))
  {
    forall repo | repo in Proceed(s).reconciled ensures exists k: nat :: Quotes(Proceed(s), repo, k) {
      var k := RecordQuotes(s, repo);
    }
  }

  lemma RecordOwner(s: State)
    requires Owner(s) && OwnerKnown(s) && s.writes.value.phase == Committed
    ensures Owner(Proceed(s))
  {
  }

  lemma MoreAnswers(s: State, t: State)
    requires Answers(s) && t.log == s.log && t.writers == s.writers && t.replies == s.replies
             && Unsettled(t) <= Unsettled(s)
    ensures Answers(t)
  {
    forall k | 0 <= k < |t.replies| ensures Truthful(t, t.replies[k]) {
      assert Truthful(s, s.replies[k]);
      if s.replies[k].Stamped? {
        var i :| 0 <= i < |s.log| && i !in Unsettled(s) && s.log[i].repo == s.replies[k].repo
            && s.log[i].entry == s.replies[k].entry;
        assert t.log[i] == s.log[i];
      }
    }
  }

  lemma LogOf(s: State, t: State)
    requires Log(s) && t.log == s.log && t.writers == s.writers && t.visits == s.visits && t.register == s.register
    requires forall k :: k in t.lost ==> k < |t.log|
    ensures Log(t)
  {
    forall k | 0 <= k < |t.log| ensures LoggedBy(t, t.log[k]) { assert LoggedBy(s, s.log[k]); }
  }

  lemma OrderOf(s: State, t: State)
    requires Order(s) && t.log == s.log && t.writers == s.writers && s.lost <= t.lost
    ensures Order(t)
  {
    forall i: nat, j: nat | i < j < |t.log| ensures InOrder(t, i, j) {
      assert InOrder(s, i, j);
      assert ByRecovery(s, s.log[i]) == ByRecovery(t, t.log[i]) && ByRecovery(s, s.log[j]) == ByRecovery(t, t.log[j]);
    }
  }

  lemma RecordKeepsLog(s: State)
    requires Log(s) && Order(s) && Answers(s) && Owner(s) && OwnerKnown(s) && s.writes.value.phase == Committed
    ensures Log(Proceed(s)) && Order(Proceed(s)) && Answers(Proceed(s))
  {
    var t := Proceed(s);
    RecordUnsettled(s);
    LogOf(s, t);
    OrderOf(s, t);
    MoreAnswers(s, t);
  }

  lemma RecordKeepsWriters(s: State)
    requires Epochs(s) && Slot(s) && Fresh(s) && OwnerKnown(s) && s.writes.value.phase == Committed
    ensures Epochs(Proceed(s)) && Slot(Proceed(s)) && Fresh(Proceed(s))
  {
    SameWriters(s, Proceed(s));
  }

  lemma RecordInv(s: State)
    requires Inv(s) && OwnerKnown(s) && s.writes.value.phase == Committed
    ensures Inv(Proceed(s))
  {
    RecordMaps(s);
    RecordQuoted(s);
    RecordOwner(s);
    RecordKeepsLog(s);
    RecordKeepsWriters(s);
  }

  lemma OwnIsTruthful(s: State, own: Reply)
    requires Owner(s) && OwnerKnown(s) && s.writes.value.phase == Recorded
    requires var c := s.writes.value; own == Stamped(c.writer, c.repo, Entry(s.writers[c.writer].epoch, c.report))
    ensures Truthful(s, own)
  {
    assert s.log[|s.log| - 1].entry == own.entry && |s.log| - 1 !in Unsettled(s);
  }

  lemma ReleaseInv(s: State)
    requires Inv(s) && OwnerKnown(s) && s.writes.value.phase == Recorded
    ensures Inv(Proceed(s))
  {
    var c := s.writes.value;
    var own := Stamped(c.writer, c.repo, Entry(s.writers[c.writer].epoch, c.report));
    OwnIsTruthful(s, own);
    QuietInv(s, Proceed(s), [own]);
  }

  // ---- Failures --------------------------------------------------------------------------------------

  lemma AbortInv(s: State)
    requires Inv(s) && Enabled(s, Abort)
    ensures Inv(Step(s, Abort))
  {
    QuietInv(s, Step(s, Abort), [Failed(s.writes.value.writer)]);
  }

  lemma LoseUnsettled(s: State)
    requires Enabled(s, LoseReadBack)
    ensures var t := Step(s, LoseReadBack);
            && t.log == s.log && t.writers == s.writers && Unsettled(t) == Unsettled(s)
            && t.lost == s.lost + {|s.log| - 1}
  {
  }

  lemma LoseMaps(s: State)
    requires Maps(s) && Quoted(s) && Enabled(s, LoseReadBack)
    ensures var t := Step(s, LoseReadBack); Maps(t) && Quoted(t)
  {
    var t := Step(s, LoseReadBack);
    LoseUnsettled(s);
    forall k | 0 <= k < |t.log| && k !in Unsettled(t) ensures Reflected(t, t.log[k]) { assert Reflected(s, s.log[k]); }
    forall repo | repo in t.reconciled ensures exists k: nat :: Quotes(t, repo, k) {
      var k: nat :| Quotes(s, repo, k);
      LoseQuotes(s, repo, k);
    }
  }

  lemma LoseQuotes(s: State, repo: Repo, k: nat)
    requires Enabled(s, LoseReadBack) && Quotes(s, repo, k)
    ensures Quotes(Step(s, LoseReadBack), repo, k)
  {
    var t := Step(s, LoseReadBack);
    LoseUnsettled(s);
    forall j: nat | k < j < |t.log| && t.log[j].repo == repo && ByRecovery(t, t.log[j]) ensures j in Unsettled(t) {
      assert ByRecovery(s, s.log[j]);
    }
  }

  lemma LoseInv(s: State)
    requires Inv(s) && Enabled(s, LoseReadBack)
    ensures Inv(Step(s, LoseReadBack))
  {
    var t := Step(s, LoseReadBack);
    LoseUnsettled(s);
    LoseMaps(s);
    LogOf(s, t);
    OrderOf(s, t);
    AcquireFresh(s, t);
    MoreAnswers(s, t.(replies := s.replies));
    forall k | 0 <= k < |t.replies| ensures Truthful(t, t.replies[k]) {
      assert k < |s.replies| ==> Truthful(t.(replies := s.replies), s.replies[k]) && t.replies[k] == s.replies[k];
    }
  }

  /** Every event keeps the invariant, whoever takes it and whenever. */
  lemma StepInv(s: State, e: Event)
    requires Inv(s) && Enabled(s, e)
    ensures Inv(Step(s, e))
  {
    match e
    case StopScan(w) => StopScanInv(s, w);
    case Acquire(w, repo, report) => AcquireInv(s, w, repo, report);
    case Advance =>
      match s.writes.value.phase {
        case Staged => ClaimInv(s);
        case Claimed => CommitInv(s);
        case Committed => RecordInv(s);
        case Recorded => ReleaseInv(s);
        case _ => CheckInv(s);
      }
    case Abort => AbortInv(s);
    case LoseReadBack => LoseInv(s);
    case _ => WritersStep(s, e); OutsideInv(s, Step(s, e));
  }
}
