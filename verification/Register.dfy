/**
 The findings register and everything that races to write it: preflight runs,
 cancels and recoveries. The shared state of `PreflightRuns` and the stages of
 its two writers are a transition system; one event is one atomic action (one
 hold of the `current` lock, one compare-and-swap, one database commit), and
 events of different writers interleave freely.
 */
module Register {
  import opened Wrappers
  import opened Findings

  type Repo = string
  type Report = seq<Finding>

  /** A preflight leaves `Running` by one compare-and-swap. */
  datatype Status = Running | Cancelled | Committing

  /** How a recovery's job ended; only a completed one may reconcile. */
  datatype Settlement = Pending | Completed | Abandoned

  /** The holder of a place in the register order: a preflight's token or a
      recovery's reserved fence. */
  datatype Writer =
    | Preflight(epoch: nat, status: Status)
    | Recovery(epoch: nat, settlement: Settlement)

  /** How far the owner of the `writes` lock has got. */
  datatype Phase = Locked | Alive | Guarded | Staged | Claimed | Committed | Recorded

  datatype Section = Section(writer: nat, repo: Repo, report: Report, phase: Phase)

  /** A report and its place in its repo's register order. */
  datatype Entry = Entry(epoch: nat, report: Report)

  datatype Write = Write(writer: nat, repo: Repo, entry: Entry)

  datatype Reply =
    | Stamped(writer: nat, repo: Repo, entry: Entry)
    | ReportedCancelled(writer: nat)
    | NothingWritten(writer: nat, repo: Repo)
    | Failed(writer: nat)

  datatype Visit = Visit(writer: nat, repo: Repo)

  /** `register` is what the database shows; `log` is every write it ever
      committed, `replies` every answer given, `visits` every critical section
      entered, and `lost` the commits (places in `log`) whose read-back failed
      before they were recorded. */
  datatype State = State(
    epoch: nat,
    current: Option<nat>,
    writers: seq<Writer>,
    writes: Option<Section>,
    reconciled: map<Repo, Entry>,
    persisted: map<Repo, nat>,
    register: map<Repo, Entry>,
    log: seq<Write>,
    replies: seq<Reply>,
    visits: set<Visit>,
    lost: set<nat>)

  /** `Advance` is the lock owner's next action; `Abort` its failing one, in a
      stage that can fail; `LoseReadBack` is a commit that succeeded but whose
      rows could not be read back, so that nothing is recorded. */
  datatype Event =
    | Begin
    | Cancel
    | Reserve
    | Settle(writer: nat, completed: bool)
    | StopScan(writer: nat)
    | Acquire(writer: nat, repo: Repo, report: Report)
    | Advance
    | Abort
    | LoseReadBack

  function Init(): State {
    State(0, None, [], None, map[], map[], map[], [], [], {}, {})
  }

  // ---- Compare-and-swap and the current-run slot -------------------------

  function LeaveRunning(writers: seq<Writer>, w: nat, to: Status): seq<Writer>
    requires w < |writers|
  {
    if writers[w].Preflight? && writers[w].status == Running
    then writers[w := writers[w].(status := to)]
    else writers
  }

  function CancelSlot(s: State): seq<Writer> {
    if s.current.Some? && s.current.value < |s.writers|
    then LeaveRunning(s.writers, s.current.value, Cancelled)
    else s.writers
  }

  // ---- The owner of the write lock ---------------------------------------

  predicate NewerThan(entries: map<Repo, Entry>, repo: Repo, epoch: nat) {
    repo in entries && entries[repo].epoch > epoch
  }

  /** The check that stands between the lock and the transaction. */
  predicate Refused(s: State, writer: Writer, repo: Repo) {
    || NewerThan(s.reconciled, repo, writer.epoch)
    || (writer.Recovery? && repo in s.persisted && s.persisted[repo] > writer.epoch)
  }

  function Enter(s: State, phase: Phase): State
    requires s.writes.Some?
  {
    s.(writes := Some(s.writes.value.(phase := phase)))
  }

  function Leave(s: State, reply: Reply): State {
    s.(writes := None, replies := s.replies + [reply])
  }

  function RecordWrite(s: State, writer: Writer, c: Section): State {
    if writer.Preflight? then
      var latest := if c.repo in s.persisted then s.persisted[c.repo] else 0;
      s.(persisted := s.persisted[c.repo := if latest < writer.epoch then writer.epoch else latest])
    else
      s.(reconciled := s.reconciled[c.repo := Entry(writer.epoch, c.report)])
  }

  predicate OwnerKnown(s: State) {
    s.writes.Some? && s.writes.value.writer < |s.writers|
  }

  function Proceed(s: State): State
    requires OwnerKnown(s)
  {
    var c := s.writes.value;
    var writer := s.writers[c.writer];
    match c.phase
    case Locked =>
      if writer.Preflight? && writer.status == Cancelled
      then Leave(s, ReportedCancelled(c.writer))
      else Enter(s, Alive)
    case Alive =>
      if !Refused(s, writer, c.repo) then Enter(s, Guarded)
      else if writer.Preflight? then Leave(s, Stamped(c.writer, c.repo, s.reconciled[c.repo]))
      else Leave(s, NothingWritten(c.writer, c.repo))
    case Guarded => Enter(s, Staged)
    case Staged =>
      if writer.Recovery? || writer.status == Running
      then Enter(s, Claimed).(writers := LeaveRunning(s.writers, c.writer, Committing))
      else Leave(s, ReportedCancelled(c.writer))
    case Claimed =>
      var entry := Entry(writer.epoch, c.report);
      Enter(s, Committed).(register := s.register[c.repo := entry],
                           log := s.log + [Write(c.writer, c.repo, entry)])
    case Committed => Enter(RecordWrite(s, writer, c), Recorded)
    case Recorded => Leave(s, Stamped(c.writer, c.repo, Entry(writer.epoch, c.report)))
  }

  // ---- Transitions --------------------------------------------------------

  ghost predicate MayAcquire(s: State, w: nat, repo: Repo) {
    && s.writes.None?
    && w < |s.writers| && ReportedCancelled(w) !in s.replies
    && (if s.writers[w].Preflight?
        then forall r :: Visit(w, r) !in s.visits
        else s.writers[w].settlement == Completed && Visit(w, repo) !in s.visits)
  }

  ghost predicate Enabled(s: State, e: Event) {
    match e
    case Begin => true
    case Cancel => true
    case Reserve => true
    case Settle(w, _) => w < |s.writers| && s.writers[w].Recovery? && s.writers[w].settlement == Pending
    case StopScan(w) =>
      && w < |s.writers| && s.writers[w].Preflight? && s.writers[w].status == Cancelled
      && ReportedCancelled(w) !in s.replies && forall r :: Visit(w, r) !in s.visits
    case Acquire(w, repo, _) => MayAcquire(s, w, repo)
    case Advance => OwnerKnown(s)
    case Abort => OwnerKnown(s) && s.writes.value.phase in {Guarded, Staged, Claimed}
    case LoseReadBack => OwnerKnown(s) && s.writes.value.phase == Committed && s.log != []
  }

  ghost function Step(s: State, e: Event): State
    requires Enabled(s, e)
  {
    match e
    case Begin =>
      s.(epoch := s.epoch + 1,
         current := Some(|s.writers|),
         writers := CancelSlot(s) + [Preflight(s.epoch + 1, Running)])
    case Cancel => s.(writers := CancelSlot(s))
    case Reserve =>
      s.(epoch := s.epoch + 1, writers := s.writers + [Recovery(s.epoch + 1, Pending)])
    case Settle(w, completed) =>
      s.(writers := s.writers[w := s.writers[w].(settlement := if completed then Completed else Abandoned)])
    case StopScan(w) => s.(replies := s.replies + [ReportedCancelled(w)])
    case Acquire(w, repo, report) =>
      s.(writes := Some(Section(w, repo, report, Locked)), visits := s.visits + {Visit(w, repo)})
    case Advance => Proceed(s)
    case Abort => Leave(s, Failed(s.writes.value.writer))
    case LoseReadBack =>
      Leave(s, Failed(s.writes.value.writer))
      .(lost := s.lost + {|s.log| - 1})
  }

  // ---- Runs ----------------------------------------------------------------

  ghost predicate Legal(s: State, events: seq<Event>)
    decreases |events|
  {
    events == [] || (Enabled(s, events[0]) && Legal(Step(s, events[0]), events[1..]))
  }

  ghost function Run(s: State, events: seq<Event>): State
    requires Legal(s, events)
    decreases |events|
  {
    if events == [] then s else Run(Step(s, events[0]), events[1..])
  }

  /** The register a sequence of commits leaves: the last write of each repo. */
  function Replay(log: seq<Write>): map<Repo, Entry> {
    if log == [] then map[]
    else Replay(log[..|log| - 1])[log[|log| - 1].repo := log[|log| - 1].entry]
  }
}
