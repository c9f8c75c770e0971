/**
 Source operations over shared checkouts: many try-only lock plans, one durable
 readiness flag per registered source. A transition system over the steps of
 `SourceOperation::acquire`, `finish_source_operation` and the drop of the
 guards; steps of different operations (and of different processes sharing the
 lock files and the registry) interleave freely.
 */
module SourceOperations {
  import opened Wrappers

  type Id = string

  /** How an operation plans to use a source; only a managed one has a lock. */
  datatype Access = Access(managed: bool, write: bool)

  type Plan = map<Id, Access>

  /** `Reserving` takes locks; `Validating` holds them all and has invalidated
      what it will write; `Active` works; `Completed` has its job recorded done;
      `Published` made its sources ready; `Closed` has dropped every guard. */
  datatype Stage = Reserving | Validating | Active | Completed | Published | Closed

  /** `checked` are the sources whose root the operation may already read. */
  datatype Operation = Operation(plan: Plan, held: set<Id>, checked: set<Id>, stage: Stage, done: bool)

  /** One registry transaction: `op` made `ids` ready or unready. */
  datatype Mark = Mark(op: nat, ids: set<Id>, ready: bool)

  datatype State = State(managed: set<Id>, local: set<Id>, ready: set<Id>, ops: seq<Operation>, log: seq<Mark>)

  datatype Event =
    | RegisterLocal(id: Id)
    | RegisterManaged(id: Id)
    | Start(plan: Plan)
    | Reserve(op: nat, id: Id)
    | Invalidate(op: nat)
    | Check(op: nat, id: Id)
    | Activate(op: nat)
    | Complete(op: nat)
    | Publish(op: nat)
    | Drop(op: nat)

  function Writes(plan: Plan): set<Id> {
    set id | id in plan && plan[id].write
  }

  function Locked(plan: Plan): set<Id> {
    set id | id in plan && plan[id].managed
  }

  /** A plan is made of registry records, and direct local sources are never
      replaced. */
  predicate PlanFits(s: State, plan: Plan) {
    forall id :: id in plan ==>
      && (plan[id].managed ==> id in s.managed) && (!plan[id].managed ==> id in s.local)
      && (plan[id].write ==> plan[id].managed)
  }

  /** `op` holds the lock of `id`, exclusively if it plans to write. */
  predicate Holds(s: State, op: nat, id: Id, write: bool) {
    op < |s.ops| && id in s.ops[op].held && id in s.ops[op].plan && (write ==> s.ops[op].plan[id].write)
  }

  /** The OS grants the lock: no holder conflicts. */
  predicate Grants(s: State, id: Id, write: bool) {
    forall p :: 0 <= p < |s.ops| && Holds(s, p, id, false) ==> !write && !Holds(s, p, id, true)
  }

  function With(s: State, op: nat, o: Operation): State
    requires op < |s.ops|
  {
    s.(ops := s.ops[op := o])
  }

  function Released(o: Operation): Operation {
    o.(held := {}, checked := {}, stage := Closed)
  }

  predicate At(s: State, op: nat, stage: Stage) {
    op < |s.ops| && s.ops[op].stage == stage
  }

  predicate Enabled(s: State, e: Event) {
    match e
    case RegisterLocal(id) => id !in s.managed + s.local
    case RegisterManaged(id) => id !in s.managed + s.local
    case Start(plan) => PlanFits(s, plan)
    case Reserve(op, id) => At(s, op, Reserving) && id in Locked(s.ops[op].plan) - s.ops[op].held
    case Invalidate(op) => At(s, op, Reserving) && s.ops[op].held == Locked(s.ops[op].plan)
    case Check(op, id) => At(s, op, Validating) && id in s.ops[op].plan && id !in s.ops[op].checked
    case Activate(op) => At(s, op, Validating) && s.ops[op].checked == s.ops[op].plan.Keys
    case Complete(op) => At(s, op, Active)
    case Publish(op) => At(s, op, Completed)
    case Drop(op) => op < |s.ops|
  }

  function Step(s: State, e: Event): State
    requires Enabled(s, e)
  {
    match e
    case RegisterLocal(id) => s.(local := s.local + {id}, ready := s.ready + {id})
    case RegisterManaged(id) => s.(managed := s.managed + {id})
    case Start(plan) => s.(ops := s.ops + [Operation(plan, {}, {}, Reserving, false)])
    case Reserve(op, id) =>
      var o := s.ops[op];
      if Grants(s, id, o.plan[id].write) then With(s, op, o.(held := o.held + {id})) else With(s, op, Released(o))
    case Invalidate(op) =>
      var o := s.ops[op];
      var writes := Writes(o.plan);
      With(s, op, o.(stage := Validating))
      .(ready := s.ready - writes, log := if writes == {} then s.log else s.log + [Mark(op, writes, false)])
    case Check(op, id) =>
      var o := s.ops[op];
      if o.plan[id].write || id in s.ready then With(s, op, o.(checked := o.checked + {id}))
      else With(s, op, Released(o))
    case Activate(op) => With(s, op, s.ops[op].(stage := Active))
    case Complete(op) => With(s, op, s.ops[op].(stage := Completed, done := true))
    case Publish(op) =>
      var o := s.ops[op];
      var writes := Writes(o.plan);
      With(s, op, o.(stage := Published))
      .(ready := s.ready + writes, log := if writes == {} then s.log else s.log + [Mark(op, writes, true)])
    case Drop(op) => With(s, op, Released(s.ops[op]))
  }

  // ---- Runs ------------------------------------------------------------------------------

  /** The registry as an earlier session left it. */
  predicate Initial(s: State) {
    s.ops == [] && s.log == [] && s.local <= s.ready <= s.managed + s.local && s.managed !! s.local
  }

  predicate Legal(s: State, events: seq<Event>)
    decreases |events|
  {
    events == [] || (Enabled(s, events[0]) && Legal(Step(s, events[0]), events[1..]))
  }

  function Run(s: State, events: seq<Event>): State
    requires Legal(s, events)
    decreases |events|
  {
    if events == [] then s else Run(Step(s, events[0]), events[1..])
  }

  // ---- History of a source -----------------------------------------------------------------

  /** The last transaction that set the source's readiness. */
  function LastMark(log: seq<Mark>, id: Id): Option<Mark> {
    if log == [] then None
    else if id in log[|log| - 1].ids then Some(log[|log| - 1])
    else LastMark(log[..|log| - 1], id)
  }

  /** The last write operation that made the source unready. */
  function LastInvalidator(log: seq<Mark>, id: Id): Option<nat> {
    if log == [] then None
    else if id in log[|log| - 1].ids && !log[|log| - 1].ready then Some(log[|log| - 1].op)
    else LastInvalidator(log[..|log| - 1], id)
  }

  /** A lock is granted exactly when nobody else's use excludes this one: a writer
      needs it free, a reader needs no writer. */
  lemma GrantsIff(s: State, id: Id, write: bool)
    ensures Grants(s, id, write) <==>
            forall p :: 0 <= p < |s.ops| && id in s.ops[p].held && id in s.ops[p].plan ==>
              !write && !s.ops[p].plan[id].write
  {
    assert forall p: nat :: p < |s.ops| ==> (Holds(s, p, id, false) <==> id in s.ops[p].held && id in s.ops[p].plan);
    assert forall p: nat :: Holds(s, p, id, true) <==> Holds(s, p, id, false) && s.ops[p].plan[id].write;
  }

  // ---- What every step keeps --------------------------------------------------------------

  ghost predicate Registry(s: State) {
    && s.managed !! s.local && s.local <= s.ready
    && forall p :: 0 <= p < |s.ops| ==> PlanFits(s, s.ops[p].plan)
  }

  /** Which locks an operation has at each stage. */
  ghost predicate Stages(s: State) {
    forall p :: 0 <= p < |s.ops| ==>
      var o := s.ops[p];
      && o.held <= Locked(o.plan) && o.checked <= o.plan.Keys
      && (o.stage == Reserving ==> o.checked == {})
      && (o.stage in {Validating, Active, Completed, Published} ==> o.held == Locked(o.plan))
      && (o.stage == Closed ==> o.held == {} && o.checked == {})
      && (o.stage in {Completed, Published} ==> o.done)
  }

  /** A held write lock excludes every other holder. */
  ghost predicate Exclusive(s: State) {
    forall p, q, id :: 0 <= p < |s.ops| && 0 <= q < |s.ops| && p != q && Holds(s, p, id, true) ==>
        !Holds(s, q, id, false)
  }

  /** What an operation may already read is ready. */
  ghost predicate ReadsReady(s: State) {
    forall p, id :: 0 <= p < |s.ops| && id in s.ops[p].checked && id in s.ops[p].plan && !s.ops[p].plan[id].write ==>
      id in s.ready
  }

  /** A writer past invalidation is the last to have marked its sources. */
  ghost predicate Marked(s: State) {
    forall p, id :: 0 <= p < |s.ops| && id in Writes(s.ops[p].plan) ==>
      && (s.ops[p].stage in {Validating, Active, Completed} ==>
            LastMark(s.log, id).Some? && LastMark(s.log, id).value.op == p && !LastMark(s.log, id).value.ready)
      && (s.ops[p].stage == Published ==>
            LastMark(s.log, id).Some? && LastMark(s.log, id).value.op == p && LastMark(s.log, id).value.ready)
  }

  /** The flag is what the last mark says, and who made it ready had been the
      last to invalidate it and had completed. */
  ghost predicate History(s: State) {
    forall id :: LastMark(s.log, id).Some? ==>
      var mark := LastMark(s.log, id).value;
      && (id in s.ready <==> mark.ready)
      && mark.op < |s.ops| && id in Writes(s.ops[mark.op].plan)
      && LastInvalidator(s.log, id) == Some(mark.op)
      && (mark.ready ==> s.ops[mark.op].done)
  }

  ghost predicate Inv(s: State) {
    Registry(s) && Stages(s) && Exclusive(s) && ReadsReady(s) && Marked(s) && History(s)
  }

  lemma InitInv(s: State)
    requires Initial(s)
    ensures Inv(s)
  {
  }

  // ---- Preservation, step by step -----------------------------------------------------------

  lemma RegisterInv(s: State, e: Event)
    requires Inv(s) && Enabled(s, e) && (e.RegisterLocal? || e.RegisterManaged? || e.Start?)
    ensures Inv(Step(s, e))
  {
    var t := Step(s, e);
    forall p, q, id | 0 <= p < |t.ops| && 0 <= q < |t.ops| && p != q && Holds(t, p, id, true)
      ensures !Holds(t, q, id, false)
    {
      assert Holds(s, p, id, true) && (Holds(t, q, id, false) ==> Holds(s, q, id, false));
    }
    if e.RegisterLocal? {
      forall id | LastMark(s.log, id).Some? ensures id != e.id {
        assert id in Writes(s.ops[LastMark(s.log, id).value.op].plan);
      }
    }
  }

  /** Steps that only move one operation forward or close it. */
  ghost predicate Moves(s: State, t: State, op: nat) {
    && op < |s.ops| && |t.ops| == |s.ops| && (forall p :: 0 <= p < |s.ops| && p != op ==> t.ops[p] == s.ops[p])
    && t.managed == s.managed && t.local == s.local
    && t.ops[op].plan == s.ops[op].plan && (s.ops[op].done ==> t.ops[op].done)
  }

  lemma ExclusiveKept(s: State, t: State, op: nat)
    requires Exclusive(s) && Moves(s, t, op) && t.ops[op].held <= s.ops[op].held
    ensures Exclusive(t)
  {
    forall p, q, id | 0 <= p < |t.ops| && 0 <= q < |t.ops| && p != q && Holds(t, p, id, true)
      ensures !Holds(t, q, id, false)
    {
      assert Holds(s, p, id, true) && (Holds(t, q, id, false) ==> Holds(s, q, id, false));
    }
  }

  lemma ReserveExclusive(s: State, op: nat, id: Id)
    requires Inv(s) && Enabled(s, Reserve(op, id)) && Grants(s, id, s.ops[op].plan[id].write)
    ensures Exclusive(Step(s, Reserve(op, id)))
  {
    var t := Step(s, Reserve(op, id));
    forall p, q, i | 0 <= p < |t.ops| && 0 <= q < |t.ops| && p != q && Holds(t, p, i, true)
      ensures !Holds(t, q, i, false)
    {
      assert p != op || i != id ==> Holds(s, p, i, true);
      assert Holds(t, q, i, false) && (q != op || i != id) ==> Holds(s, q, i, false);
    }
  }

  lemma ReserveInv(s: State, op: nat, id: Id)
    requires Inv(s) && Enabled(s, Reserve(op, id))
    ensures Inv(Step(s, Reserve(op, id)))
  {
    var t := Step(s, Reserve(op, id));
    if Grants(s, id, s.ops[op].plan[id].write) {
      ReserveExclusive(s, op, id);
    } else {
      ExclusiveKept(s, t, op);
    }
  }

  lemma CheckInv(s: State, op: nat, id: Id)
    requires Inv(s) && Enabled(s, Check(op, id))
    ensures Inv(Step(s, Check(op, id)))
  {
    ExclusiveKept(s, Step(s, Check(op, id)), op);
  }

  lemma MoveInv(s: State, e: Event)
    requires Inv(s) && Enabled(s, e) && (e.Activate? || e.Complete? || e.Drop?)
    ensures Inv(Step(s, e))
  {
    ExclusiveKept(s, Step(s, e), e.op);
  }

  /** A writer past reservation alone holds what it writes. */
  lemma WritesAlone(s: State, op: nat, p: nat, id: Id)
    requires Stages(s) && Exclusive(s) && op < |s.ops| && p < |s.ops| && p != op
    requires Registry(s) && s.ops[op].held == Locked(s.ops[op].plan) && id in Writes(s.ops[op].plan)
    ensures id !in s.ops[p].held
  {
    assert Holds(s, op, id, true);
    assert !Holds(s, p, id, false);
  }

  lemma MarkedBy(log: seq<Mark>, mark: Mark, id: Id)
    ensures LastMark(log + [mark], id) == if id in mark.ids then Some(mark) else LastMark(log, id)
    ensures LastInvalidator(log + [mark], id)
            == if id in mark.ids && !mark.ready then Some(mark.op) else LastInvalidator(log, id)
  {
    assert (log + [mark])[..|log|] == log;
  }

  /** The registry transaction of a writer: its sources all flip together. */
  ghost predicate Flips(s: State, t: State, op: nat, to: bool) {
    && Moves(s, t, op) && t.ops[op].held == s.ops[op].held == Locked(s.ops[op].plan)
    && t.ops[op].checked == s.ops[op].checked
    && var writes := Writes(s.ops[op].plan);
    && t.ready == (if to then s.ready + writes else s.ready - writes)
    && t.log == (if writes == {} then s.log else s.log + [Mark(op, writes, to)])
  }

  lemma FlipReads(s: State, t: State, op: nat, to: bool)
    requires Inv(s) && Flips(s, t, op, to)
    ensures ReadsReady(t)
  {
    forall p, id | 0 <= p < |t.ops| && id in t.ops[p].checked && id in t.ops[p].plan && !t.ops[p].plan[id].write
      ensures id in t.ready
    {
      assert id in s.ready;
      if p != op && id in Writes(s.ops[op].plan) { WritesAlone(s, op, p, id); }
    }
  }

  lemma FlipMark(s: State, t: State, op: nat, to: bool, id: Id)
    requires Flips(s, t, op, to)
    ensures LastMark(t.log, id)
            == if id in Writes(s.ops[op].plan) then Some(Mark(op, Writes(s.ops[op].plan), to)) else LastMark(s.log, id)
    ensures LastInvalidator(t.log, id)
            == if id in Writes(s.ops[op].plan) && !to then Some(op) else LastInvalidator(s.log, id)
  {
    MarkedBy(s.log, Mark(op, Writes(s.ops[op].plan), to), id);
  }

  lemma FlipMarked(s: State, t: State, op: nat, to: bool)
    requires Inv(s) && Flips(s, t, op, to)
    requires t.ops[op].stage == if to then Published else Validating
    ensures Marked(t)
  {
    forall p, id | 0 <= p < |t.ops| && id in Writes(t.ops[p].plan)
      ensures t.ops[p].stage in {Validating, Active, Completed} ==>
                LastMark(t.log, id).Some? && LastMark(t.log, id).value.op == p && !LastMark(t.log, id).value.ready
      ensures t.ops[p].stage == Published ==>
                LastMark(t.log, id).Some? && LastMark(t.log, id).value.op == p && LastMark(t.log, id).value.ready
    {
      FlipMark(s, t, op, to, id);
      if p != op && id in Writes(s.ops[op].plan) { WritesAlone(s, op, p, id); }
    }
  }

  lemma FlipHistory(s: State, t: State, op: nat, to: bool)
    requires Inv(s) && Flips(s, t, op, to)
    requires to ==> s.ops[op].stage == Completed
    ensures History(t)
  {
    forall id | LastMark(t.log, id).Some?
      ensures var mark := LastMark(t.log, id).value;
              && (id in t.ready <==> mark.ready) && mark.op < |t.ops| && id in Writes(t.ops[mark.op].plan)
              && LastInvalidator(t.log, id) == Some(mark.op) && (mark.ready ==> t.ops[mark.op].done)
    {
      FlipMark(s, t, op, to, id);
    }
  }

  lemma FlipInv(s: State, e: Event)
    requires Inv(s) && Enabled(s, e) && (e.Invalidate? || e.Publish?)
    ensures Inv(Step(s, e))
  {
    var t := Step(s, e);
    assert Flips(s, t, e.op, e.Publish?);
    ExclusiveKept(s, t, e.op);
    FlipReads(s, t, e.op, e.Publish?);
    FlipMarked(s, t, e.op, e.Publish?);
    FlipHistory(s, t, e.op, e.Publish?);
  }

  lemma StepInv(s: State, e: Event)
    requires Inv(s) && Enabled(s, e)
    ensures Inv(Step(s, e))
  {
    match e
    case RegisterLocal(_) => RegisterInv(s, e);
    case RegisterManaged(_) => RegisterInv(s, e);
    case Start(_) => RegisterInv(s, e);
    case Reserve(op, id) => ReserveInv(s, op, id);
    case Invalidate(_) => FlipInv(s, e);
    case Check(op, id) => CheckInv(s, op, id);
    case Activate(_) => MoveInv(s, e);
    case Complete(_) => MoveInv(s, e);
    case Publish(_) => FlipInv(s, e);
    case Drop(_) => MoveInv(s, e);
  }

  lemma {:induction false} RunInv(s: State, events: seq<Event>)
    requires Inv(s) && Legal(s, events)
    ensures Inv(Run(s, events))
    decreases |events|
  {
    if events != [] {
      StepInv(s, events[0]);
      RunInv(Step(s, events[0]), events[1..]);
    }
  }

  // ---- Safety over every interleaving ----------------------------------------------------------

  /** Operation `p` may be reading the root of `id` right now. */
  predicate Reading(s: State, p: nat, id: Id) {
    p < |s.ops| && id in s.ops[p].checked && id in s.ops[p].plan && !s.ops[p].plan[id].write
  }

  /** While a guarded read of a managed source is in progress, the source is
      marked ready and nobody holds, or has reserved, its write lock. */
  lemma GuardedReadsAreSafe(init: State, events: seq<Event>, p: nat, id: Id)
    requires Initial(init) && Legal(init, events)
    requires Reading(Run(init, events), p, id) && id in Run(init, events).managed
    ensures var s := Run(init, events);
            id in s.ready && forall q :: 0 <= q < |s.ops| ==> !Holds(s, q, id, true)
  {
    InitInv(init);
    RunInv(init, events);
    var s := Run(init, events);
    forall q | 0 <= q < |s.ops| ensures !Holds(s, q, id, true) {
      assert Holds(s, p, id, false);
    }
  }

  /** A source that some operation ever invalidated is ready exactly when the
      last operation to invalidate it published it, which it did only after its
      job completed. */
  lemma ReadyIffPublished(init: State, events: seq<Event>, id: Id)
    requires Initial(init) && Legal(init, events)
    requires LastInvalidator(Run(init, events).log, id).Some?
    ensures var s := Run(init, events);
            var op := LastInvalidator(s.log, id).value;
            && op < |s.ops|
            && LastMark(s.log, id).Some? && LastMark(s.log, id).value.op == op
            && (id in s.ready <==> LastMark(s.log, id).value.ready)
            && (id in s.ready ==> s.ops[op].done)
  {
    InitInv(init);
    RunInv(init, events);
    MarkedIfInvalidated(Run(init, events).log, id);
  }

  lemma {:induction false} MarkedIfInvalidated(log: seq<Mark>, id: Id)
    requires LastInvalidator(log, id).Some?
    ensures LastMark(log, id).Some?
  {
    if !(id in log[|log| - 1].ids) { MarkedIfInvalidated(log[..|log| - 1], id); }
  }

  /** A source being replaced is unready, and stays so if its operation is
      dropped before it publishes. */
  lemma ReplacedSourceIsUnready(init: State, events: seq<Event>, op: nat, id: Id)
    requires Initial(init) && Legal(init, events)
    requires var s := Run(init, events);
             op < |s.ops| && s.ops[op].stage in {Validating, Active, Completed} && id in Writes(s.ops[op].plan)
    ensures var s := Run(init, events);
            && id !in s.ready && id !in Step(s, Drop(op)).ready
            && forall p :: 0 <= p < |s.ops| ==> !Reading(s, p, id)
  {
    InitInv(init);
    RunInv(init, events);
  }
}
