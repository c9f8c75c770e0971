/** The host object behind the protocol. Its two writers run their whole critical
    sections here, while other runs begin, cancel, reserve and settle between
    any two of their steps. */
module PreflightRuns {
  import opened Wrappers
  import opened Register
  import opened RegisterInvariant
  import opened RegisterTheorems
  import opened RegisterReplies
  import opened RegisterRefusals

  // ---- What may happen between two steps of the lock owner ------------------------------------

  /** Events that need no write lock. */
  predicate Elsewhere(e: Event) { e in {Begin, Cancel, Reserve} || e.Settle? || e.StopScan? }

  ghost predicate Meanwhile(s: State, t: State) {
    exists events :: (forall e :: e in events ==> Elsewhere(e)) && Legal(s, events) && Run(s, events) == t
  }

  /** The rest of the host, at each pause of the lock owner. */
  type World = (nat, State) -> State

  ghost predicate Legit(world: World) {
    forall pause, s :: Reachable(s) ==> Meanwhile(s, world(pause, s))
  }

  /** Nothing was written or recorded, and no writer was changed but by settling. */
  ghost predicate Untouched(s: State, t: State) {
    && t.register == s.register && t.log == s.log && t.lost == s.lost
    && t.reconciled == s.reconciled && t.persisted == s.persisted && Evolve(s.writers, t.writers)
  }

  lemma UntouchedTwice(s: State, t: State, u: State)
    requires Untouched(s, t) && Untouched(t, u)
    ensures Untouched(s, u)
  {
  }

  lemma ElsewhereKeeps(s: State, e: Event)
    requires Inv(s) && Elsewhere(e) && Enabled(s, e)
    ensures Untouched(s, Step(s, e)) && Step(s, e).writes == s.writes
  {
    if e.StopScan? {
      assert Step(s, e).writers == s.writers;
    } else {
      WritersStep(s, e);
    }
  }

  lemma {:induction false} RunElsewhere(s: State, events: seq<Event>)
    requires Inv(s) && Legal(s, events) && forall e :: e in events ==> Elsewhere(e)
    ensures var t := Run(s, events); Inv(t) && Untouched(s, t) && t.writes == s.writes
    decreases |events|
  {
    if events != [] {
      assert events[0] in events;
      StepInv(s, events[0]);
      ElsewhereKeeps(s, events[0]);
      RunElsewhere(Step(s, events[0]), events[1..]);
      UntouchedTwice(s, Step(s, events[0]), Run(s, events));
    }
  }

  lemma ReachElsewhere(s: State, t: State)
    requires Reachable(s) && Meanwhile(s, t)
    ensures Reachable(t) && Untouched(s, t) && t.writes == s.writes
  {
    var before :| Legal(Init(), before) && Run(Init(), before) == s;
    var events :| (forall e :: e in events ==> Elsewhere(e)) && Legal(s, events) && Run(s, events) == t;
    RunAppend(Init(), before, events);
    ReachableInv(s);
    RunElsewhere(s, events);
  }

  // ---- What a reachable state tells the host -------------------------------------------------------

  lemma SlotKnown(s: State)
    requires Reachable(s)
    ensures s.current.Some? ==> s.current.value < |s.writers| && s.writers[s.current.value].Preflight?
    ensures forall i :: 0 <= i < |s.writers| && s.writers[i].Preflight? && s.writers[i].status == Running ==>
              s.current == Some(i)
  {
    ReachableInv(s);
  }

  lemma NewestPlace(s: State, w: nat)
    requires Reachable(s) && w < |s.writers|
    ensures forall i :: 0 <= i < w ==> s.writers[i].epoch < s.writers[w].epoch
    ensures s.writers[w].Preflight? && s.writers[w].status == Running ==>
              forall i :: 0 <= i < w && s.writers[i].Preflight? ==> s.writers[i].status != Running
  {
    ReachableInv(s);
  }

  lemma LoserWasCancelled(s: State)
    requires Reachable(s) && OwnerKnown(s) && s.writes.value.phase == Staged
    ensures var writer := s.writers[s.writes.value.writer];
            writer.Preflight? && writer.status != Running ==> writer.status == Cancelled
  {
    ReachableInv(s);
  }

  lemma CommitIsLogged(s: State)
    requires Reachable(s) && OwnerKnown(s) && s.writes.value.phase == Committed
    ensures s.log != []
  {
    ReachableInv(s);
  }

  /** The register's last write was recorded. */
  ghost predicate LastRecorded(s: State, repo: Repo) {
    LastCommit(s.log, repo).Some? && LastCommit(s.log, repo).value !in s.lost
  }

  lemma RefusalQuotes(s: State)
    requires Reachable(s) && OwnerKnown(s) && s.writes.value.phase == Alive
    ensures var c := s.writes.value;
            s.writers[c.writer].Preflight? && Refused(s, s.writers[c.writer], c.repo) ==>
              c.repo in s.register && c.repo in s.reconciled
              && (s.register[c.repo] == s.reconciled[c.repo] <==> LastRecorded(s, c.repo))
  {
    ReachableInv(s);
    if s.writers[s.writes.value.writer].Preflight?
       && Refused(s, s.writers[s.writes.value.writer], s.writes.value.repo) {
      RefusalQuotesRegisterIff(s);
    }
  }

  lemma ClaimEvolves(writers: seq<Writer>, w: nat, to: Status)
    requires w < |writers|
    ensures Evolve(writers, LeaveRunning(writers, w, to))
  {
  }

  // ---- How a critical section may end ------------------------------------------------------------

  ghost predicate Written(s: State, t: State, w: nat, repo: Repo, entry: Entry) {
    && t.register == s.register[repo := entry] && t.log == s.log + [Write(w, repo, entry)]
    && Evolve(s.writers, t.writers)
  }

  lemma WrittenAfter(s: State, t: State, u: State, v: State, w: nat, repo: Repo, entry: Entry)
    requires Untouched(s, t) && Written(t, u, w, repo, entry)
    requires v.register == u.register && v.log == u.log && Evolve(u.writers, v.writers)
    ensures Written(s, v, w, repo, entry)
  {
  }

  /** Later writers older than this one will be refused. */
  ghost predicate RecordedFor(t: State, writer: Writer, repo: Repo, entry: Entry) {
    if writer.Preflight? then repo in t.persisted && writer.epoch <= t.persisted[repo]
    else repo in t.reconciled && t.reconciled[repo] == entry
  }

  /** What a reply says of the state `s` the lock was taken in and the state `t`
      it was released in; `fault` is the phase in which storage failed, if any. */
  ghost predicate Outcome(s: State, t: State, w: nat, repo: Repo, report: Report, fault: Option<Phase>, reply: Reply)
    requires w < |s.writers| <= |t.writers|
  {
    var writer := s.writers[w];
    var own := Entry(writer.epoch, report);
    match reply
    case ReportedCancelled(v) =>
      v == w && writer.Preflight? && t.writers[w].Preflight? && t.writers[w].status == Cancelled && Untouched(s, t)
    case NothingWritten(v, r) => v == w && r == repo && writer.Recovery? && Refused(s, writer, repo) && Untouched(s, t)
    case Stamped(v, r, entry) =>
      && v == w && r == repo
      && (if Refused(s, writer, repo) then writer.Preflight? && entry == s.reconciled[repo] && Untouched(s, t)
          else entry == own && Written(s, t, w, repo, own) && t.lost == s.lost && RecordedFor(t, writer, repo, own))
    case Failed(v) =>
      && v == w && fault.Some? && !Refused(s, writer, repo)
      && (if fault == Some(Committed) then Written(s, t, w, repo, own) && t.lost == s.lost + {|s.log|}
          else Untouched(s, t))
  }

  class RegisterHost {
    var epoch: nat
    var run: Option<nat>
    var writers: seq<Writer>
    var writes: Option<Section>
    var reconciled: map<Repo, Entry>
    var persisted: map<Repo, nat>
    var rows: map<Repo, Entry>
    var log: seq<Write>
    var replies: seq<Reply>
    var visits: set<Visit>
    var lost: set<nat>

    function View(): State
      reads this
    {
      State(epoch, run, writers, writes, reconciled, persisted, rows, log, replies, visits, lost)
    }

    constructor ()
      ensures View() == Init() && Reachable(View())
    {
      epoch, run, writers, writes := 0, None, [], None;
      reconciled, persisted, rows := map[], map[], map[];
      log, replies, visits, lost := [], [], {}, {};
      new;
      assert Legal(Init(), []) && Run(Init(), []) == Init();
    }

    /** The compare-and-swap out of `Running`. */
    method LeaveRunning(w: nat, to: Status) returns (won: bool)
      requires w < |writers|
      modifies this`writers
      ensures writers == Register.LeaveRunning(old(writers), w, to)
      ensures won <==> old(writers)[w].Preflight? && old(writers)[w].status == Running
    {
      won := writers[w].Preflight? && writers[w].status == Running;
      if won { writers := writers[w := writers[w].(status := to)]; }
    }

    /** Register a preflight; every other preflight has then left `Running`. */
    method BeginRun() returns (token: nat)
      requires Reachable(View())
      modifies this
      ensures Reachable(View()) && View() == Step(old(View()), Begin)
      ensures token == old(|writers|) < |writers| && writers[token] == Preflight(epoch, Running)
      ensures forall i :: 0 <= i < token && writers[i].Preflight? ==> writers[i].status != Running
      ensures forall i :: 0 <= i < token ==> writers[i].epoch < epoch
    {
      ghost var s := View();
      SlotKnown(s);
      epoch := epoch + 1;
      token := |writers|;
      if run.Some? { var _ := LeaveRunning(run.value, Cancelled); }
      run := Some(token);
      writers := writers + [Preflight(epoch, Running)];
      ReachStep(s, Begin, View());
      NewestPlace(View(), token);
    }

    /** Cancel the run in flight; false when there is none or its write already
        claimed the commit. No preflight is running afterwards. */
    method CancelRun() returns (stopped: bool)
      requires Reachable(View())
      modifies this
      ensures Reachable(View()) && View() == Step(old(View()), Cancel)
      ensures stopped <==> exists i ::
              0 <= i < |old(writers)| && old(writers)[i].Preflight? && old(writers)[i].status == Running
      ensures forall i :: 0 <= i < |writers| && writers[i].Preflight? ==> writers[i].status != Running
    {
      ghost var s := View();
      SlotKnown(s);
      stopped := false;
      if run.Some? { stopped := LeaveRunning(run.value, Cancelled); }
      ReachStep(s, Cancel, View());
    }

    /** Reserve a place newer than every run begun so far. */
    method ReserveReconcile() returns (fence: nat)
      requires Reachable(View())
      modifies this
      ensures Reachable(View()) && View() == Step(old(View()), Reserve)
      ensures fence == old(|writers|) < |writers| && writers[fence] == Recovery(epoch, Pending)
      ensures forall i :: 0 <= i < fence ==> writers[i].epoch < epoch
    {
      ghost var s := View();
      epoch := epoch + 1;
      fence := |writers|;
      writers := writers + [Recovery(epoch, Pending)];
      ReachStep(s, Reserve, View());
      NewestPlace(View(), fence);
    }

    // ---- The sections of a write ---------------------------------------------------------------

    method Pause(world: World, k: nat)
      requires Reachable(View()) && Legit(world)
      modifies this
      ensures Reachable(View()) && Untouched(old(View()), View()) && writes == old(writes)
    {
      ghost var s := View();
      var t := world(k, View());
      ReachElsewhere(s, t);
      epoch, run, writers, writes := t.epoch, t.current, t.writers, t.writes;
      reconciled, persisted, rows := t.reconciled, t.persisted, t.register;
      log, replies, visits, lost := t.log, t.replies, t.visits, t.lost;
      assert View() == t;
    }

    method AcquireWrites(w: nat, repo: Repo, report: Report)
      requires Reachable(View()) && Enabled(View(), Acquire(w, repo, report))
      modifies this
      ensures Reachable(View()) && Untouched(old(View()), View()) && writers == old(writers)
      ensures writes == Some(Section(w, repo, report, Locked))
    {
      ghost var s := View();
      writes := Some(Section(w, repo, report, Locked));
      visits := visits + {Visit(w, repo)};
      ReachStep(s, Acquire(w, repo, report), View());
    }

    /** The owner's cancellation check, then its lookup in the recorded maps. */
    method CheckNewer() returns (reply: Option<Reply>)
      requires Reachable(View()) && OwnerKnown(View()) && writes.value.phase in {Locked, Alive}
      modifies this
      ensures Reachable(View()) && Untouched(old(View()), View()) && writers == old(writers)
      ensures var c := old(writes.value);
              var writer := writers[c.writer];
              if c.phase == Locked then
                if writer.Preflight? && writer.status == Cancelled
                then reply == Some(ReportedCancelled(c.writer)) && writes.None?
                else reply.None? && writes == Some(c.(phase := Alive))
              else if !Refused(View(), writer, c.repo) then reply.None? && writes == Some(c.(phase := Guarded))
              else if writer.Preflight? then
                c.repo in reconciled && reply == Some(Stamped(c.writer, c.repo, reconciled[c.repo])) && writes.None?
              else reply == Some(NothingWritten(c.writer, c.repo)) && writes.None?
    {
      ghost var s := View();
      var c := writes.value;
      var writer := writers[c.writer];
      reply := None;
      if c.phase == Locked {
        if writer.Preflight? && writer.status == Cancelled { reply := Some(ReportedCancelled(c.writer)); }
      } else {
        var newer := c.repo in reconciled && reconciled[c.repo].epoch > writer.epoch;
        if writer.Preflight? && newer {
          reply := Some(Stamped(c.writer, c.repo, reconciled[c.repo]));
        } else if writer.Recovery? && (newer || (c.repo in persisted && persisted[c.repo] > writer.epoch)) {
          reply := Some(NothingWritten(c.writer, c.repo));
        }
      }
      if reply.Some? {
        writes, replies := None, replies + [reply.value];
      } else {
        writes := Some(c.(phase := if c.phase == Locked then Alive else Guarded));
      }
      ReachStep(s, Advance, View());
    }

    /** Stage the rows inside the transaction. */
    method StageRows()
      requires Reachable(View()) && OwnerKnown(View()) && writes.value.phase == Guarded
      modifies this
      ensures Reachable(View()) && Untouched(old(View()), View()) && writers == old(writers)
      ensures writes == Some(old(writes.value).(phase := Staged))
    {
      ghost var s := View();
      writes := Some(writes.value.(phase := Staged));
      ReachStep(s, Advance, View());
    }

    /** The commit claim, taken inside the transaction just before it commits. */
    method ClaimCommit() returns (won: bool)
      requires Reachable(View()) && OwnerKnown(View()) && writes.value.phase == Staged
      modifies this
      ensures Reachable(View()) && Untouched(old(View()), View())
      ensures won ==> writes == Some(old(writes.value).(phase := Claimed))
      ensures !won ==> writes.None? && writers == old(writers) && writers[old(writes.value.writer)].Preflight?
                       && writers[old(writes.value.writer)].status == Cancelled
    {
      ghost var s := View();
      LoserWasCancelled(s);
      var c := writes.value;
      ClaimEvolves(writers, c.writer, Committing);
      won := true;
      if writers[c.writer].Preflight? { won := LeaveRunning(c.writer, Committing); }
      if won {
        writes := Some(c.(phase := Claimed));
      } else {
        writes, replies := None, replies + [ReportedCancelled(c.writer)];
      }
      ReachStep(s, Advance, View());
    }

    method CommitRows()
      requires Reachable(View()) && OwnerKnown(View()) && writes.value.phase == Claimed
      modifies this
      ensures Reachable(View()) && writes == Some(old(writes.value).(phase := Committed)) && writers == old(writers)
      ensures var c := old(writes.value);
              && Written(old(View()), View(), c.writer, c.repo, Entry(writers[c.writer].epoch, c.report))
              && lost == old(lost) && reconciled == old(reconciled) && persisted == old(persisted)
    {
      ghost var s := View();
      var c := writes.value;
      var entry := Entry(writers[c.writer].epoch, c.report);
      rows := rows[c.repo := entry];
      log := log + [Write(c.writer, c.repo, entry)];
      writes := Some(c.(phase := Committed));
      ReachStep(s, Advance, View());
    }

    /** Record the committed write so that older writers are refused from now on. */
    method Record()
      requires Reachable(View()) && OwnerKnown(View()) && writes.value.phase == Committed
      modifies this
      ensures Reachable(View()) && writes == Some(old(writes.value).(phase := Recorded))
      ensures rows == old(rows) && log == old(log) && lost == old(lost) && writers == old(writers)
      ensures var c := old(writes.value);
              RecordedFor(View(), writers[c.writer], c.repo, Entry(writers[c.writer].epoch, c.report))
    {
      ghost var s := View();
      var c := writes.value;
      var writer := writers[c.writer];
      if writer.Preflight? {
        var latest := if c.repo in persisted then persisted[c.repo] else 0;
        persisted := persisted[c.repo := if latest < writer.epoch then writer.epoch else latest];
      } else {
        reconciled := reconciled[c.repo := Entry(writer.epoch, c.report)];
      }
      writes := Some(c.(phase := Recorded));
      ReachStep(s, Advance, View());
    }

    method AnswerWritten() returns (reply: Reply)
      requires Reachable(View()) && OwnerKnown(View()) && writes.value.phase == Recorded
      modifies this
      ensures Reachable(View()) && Untouched(old(View()), View()) && writers == old(writers) && writes.None?
      ensures var c := old(writes.value);
              reply == Stamped(c.writer, c.repo, Entry(writers[c.writer].epoch, c.report))
    {
      ghost var s := View();
      var c := writes.value;
      reply := Stamped(c.writer, c.repo, Entry(writers[c.writer].epoch, c.report));
      writes, replies := None, replies + [reply];
      ReachStep(s, Advance, View());
    }

    /** Leave the lock on a storage failure: before the commit nothing was
        written; after it the rows stay, and nothing is recorded. */
    method FailWrite() returns (reply: Reply)
      requires Reachable(View()) && OwnerKnown(View()) && writes.value.phase in {Guarded, Staged, Claimed, Committed}
      modifies this
      ensures Reachable(View()) && writes.None? && writers == old(writers) && reply == Failed(old(writes.value.writer))
      ensures rows == old(rows) && log == old(log) && reconciled == old(reconciled) && persisted == old(persisted)
      ensures lost == old(lost) + if old(writes.value.phase) == Committed then {|log| - 1} else {}
    {
      ghost var s := View();
      var c := writes.value;
      if c.phase == Committed {
        CommitIsLogged(s);
        lost := lost + {|log| - 1};
      }
      reply := Failed(c.writer);
      writes, replies := None, replies + [reply];
      ReachStep(s, if c.phase == Committed then LoseReadBack else Abort, View());
    }

    // ---- The two writers -----------------------------------------------------------------------------

    /** Take the lock and check; on no reply the owner stands before its transaction. */
    method EnterAndCheck(w: nat, repo: Repo, report: Report, world: World) returns (reply: Option<Reply>)
      requires Reachable(View()) && Legit(world) && Enabled(View(), Acquire(w, repo, report))
      modifies this
      ensures Reachable(View()) && Untouched(old(View()), View())
      ensures reply.Some? ==> writes.None? && Outcome(old(View()), View(), w, repo, report, None, reply.value)
      ensures reply.None? ==>
                writes == Some(Section(w, repo, report, Guarded)) && !Refused(old(View()), old(writers)[w], repo)
      ensures reply.Some? && reply.value.Stamped? ==>
                repo in rows && (rows[repo] == reply.value.entry <==> LastRecorded(View(), repo))
      ensures old(writers)[w].Preflight? && old(writers)[w].status == Cancelled ==> reply == Some(ReportedCancelled(w))
    {
      AcquireWrites(w, repo, report);
      Pause(world, 0);
      reply := CheckNewer();
      if reply.Some? { return; }
      Pause(world, 1);
      RefusalQuotes(View());
      reply := CheckNewer();
    }

    /** Stage and claim; on no reply the run can no longer be cancelled. */
    method StageAndClaim(world: World, fault: Option<Phase>) returns (reply: Option<Reply>)
      requires Reachable(View()) && Legit(world) && OwnerKnown(View()) && writes.value.phase == Guarded
      modifies this
      ensures Reachable(View()) && Untouched(old(View()), View())
      ensures var c := old(writes.value);
              if reply.None? then writes == Some(c.(phase := Claimed))
              else
                && writes.None?
                && ((reply == Some(Failed(c.writer)) && fault == Some(Guarded))
                    || (reply == Some(ReportedCancelled(c.writer)) && writers[c.writer].Preflight?
                        && writers[c.writer].status == Cancelled))
    {
      Pause(world, 2);
      if fault == Some(Guarded) {
        var failed := FailWrite();
        return Some(failed);
      }
      StageRows();
      Pause(world, 3);
      var w := writes.value.writer;
      var won := ClaimCommit();
      reply := if won then None else Some(ReportedCancelled(w));
    }

    /** Stage, claim and commit; on no reply the write is committed. */
    method StageAndCommit(world: World, fault: Option<Phase>) returns (reply: Option<Reply>)
      requires Reachable(View()) && Legit(world) && OwnerKnown(View()) && writes.value.phase == Guarded
      modifies this
      ensures Reachable(View()) && |old(writers)| <= |writers|
      ensures var c := old(writes.value);
              var own := Entry(old(writers)[c.writer].epoch, c.report);
              if reply.Some? then
                && writes.None? && Untouched(old(View()), View())
                && ((reply == Some(Failed(c.writer)) && fault in {Some(Guarded), Some(Claimed)})
                    || (reply == Some(ReportedCancelled(c.writer)) && writers[c.writer].Preflight?
                        && writers[c.writer].status == Cancelled))
              else
                && writes == Some(c.(phase := Committed)) && Written(old(View()), View(), c.writer, c.repo, own)
                && lost == old(lost) && reconciled == old(reconciled) && persisted == old(persisted)
    {
      reply := StageAndClaim(world, fault);
      if reply.Some? { return; }
      Pause(world, 4);
      if fault == Some(Claimed) {
        var failed := FailWrite();
        return Some(failed);
      }
      CommitRows();
      reply := None;
    }

    /** Read back, record and answer. */
    method RecordAndAnswer(world: World, fault: Option<Phase>) returns (reply: Reply)
      requires Reachable(View()) && Legit(world) && OwnerKnown(View()) && writes.value.phase == Committed
      modifies this
      ensures Reachable(View()) && writes.None? && rows == old(rows) && log == old(log) && Evolve(old(writers), writers)
      ensures var c := old(writes.value);
              var writer := old(writers)[c.writer];
              var own := Entry(writer.epoch, c.report);
              if fault == Some(Committed) then reply == Failed(c.writer) && lost == old(lost) + {|log| - 1}
              else
                && reply == Stamped(c.writer, c.repo, own) && lost == old(lost)
                && RecordedFor(View(), writer, c.repo, own)
    {
      Pause(world, 5);
      if fault == Some(Committed) {
        reply := FailWrite();
        return;
      }
      Record();
      Pause(world, 6);
      reply := AnswerWritten();
    }

    /** The whole critical section of a writer, whatever others do between its
        steps, and wherever `fault` makes storage fail. */
    method RunSection(w: nat, repo: Repo, report: Report, world: World, fault: Option<Phase>) returns (reply: Reply)
      requires Reachable(View()) && Legit(world) && Enabled(View(), Acquire(w, repo, report))
      modifies this
      ensures Reachable(View()) && writes.None? && |old(writers)| <= |writers|
      ensures Outcome(old(View()), View(), w, repo, report, fault, reply)
      ensures reply.Stamped? && Refused(old(View()), old(writers)[w], repo) ==>
                repo in rows && (rows[repo] == reply.entry <==> LastRecorded(View(), repo))
      ensures old(writers)[w].Preflight? && old(writers)[w].status == Cancelled ==> reply == ReportedCancelled(w)
    {
      var early := EnterAndCheck(w, repo, report, world);
      if early.Some? { return early.value; }
      ghost var entered := View();
      early := StageAndCommit(world, fault);
      if early.Some? {
        UntouchedTwice(old(View()), entered, View());
        return early.value;
      }
      ghost var committed := View();
      reply := RecordAndAnswer(world, fault);
      WrittenAfter(old(View()), entered, committed, View(), w, repo, Entry(old(writers)[w].epoch, report));
    }

    /** A preflight's write: under any interference it either leaves the register
        as it was (cancelled, refused, or failed) or makes it exactly its report. */
    method PersistIfCurrent(w: nat, repo: Repo, report: Report, world: World, fault: Option<Phase>)
      returns (reply: Reply)
      requires Reachable(View()) && Legit(world) && Enabled(View(), Acquire(w, repo, report)) && writers[w].Preflight?
      modifies this
      ensures Reachable(View()) && writes.None? && |old(writers)| <= |writers|
      ensures Outcome(old(View()), View(), w, repo, report, fault, reply)
      ensures fault.None? ==> reply.Stamped? || reply.ReportedCancelled?
      ensures var refused := OvertakenByRecovery(old(View()), repo, old(writers)[w].epoch);
              && (reply.Stamped? && !refused ==>
                    repo in rows && rows[repo] == reply.entry && reply.entry == Entry(old(writers)[w].epoch, report))
              && (reply.Stamped? && refused ==>
                    && repo in rows && (rows[repo] == reply.entry <==> LastRecorded(View(), repo))
                    && reply.entry.epoch > old(writers)[w].epoch && rows == old(rows) && log == old(log))
              && (refused ==> !reply.Failed?)
      ensures !reply.Stamped? && fault != Some(Committed) ==> rows == old(rows) && log == old(log)
      ensures old(writers)[w].status == Cancelled ==> reply == ReportedCancelled(w)
    {
      RefusedIff(View(), w, repo);
      reply := RunSection(w, repo, report, world, fault);
    }

    /** A recovery's write: nothing when a newer write was recorded, otherwise its
        report, at its fence's epoch. */
    method Reconcile(w: nat, repo: Repo, report: Report, world: World, fault: Option<Phase>) returns (reply: Reply)
      requires Reachable(View()) && Legit(world) && Enabled(View(), Acquire(w, repo, report)) && writers[w].Recovery?
      modifies this
      ensures Reachable(View()) && writes.None? && |old(writers)| <= |writers|
      ensures Outcome(old(View()), View(), w, repo, report, fault, reply)
      ensures reply.NothingWritten? <==> Overtaken(old(View()), repo, old(writers)[w].epoch)
      ensures fault.None? && (forall k :: 0 <= k < |old(log)| && old(log)[k].repo == repo ==>
                                old(log)[k].entry.epoch < old(writers)[w].epoch) ==>
                reply == Stamped(w, repo, Entry(old(writers)[w].epoch, report))
      ensures fault.None? && !reply.NothingWritten? ==>
                repo in rows && rows[repo] == Entry(old(writers)[w].epoch, report) && repo in reconciled
                && reconciled[repo] == rows[repo]
    {
      RefusedIff(View(), w, repo);
      reply := RunSection(w, repo, report, world, fault);
    }
  }
}
