/** Acquiring and finishing an operation, as the host does them, are legal runs
    of the transition system: its safety is the host's. */
module SourceRuns {
  import opened Wrappers
  import opened SourceOperations
  import Host = SourceAcquire

  // ---- The host's tables, as a state of the system ----------------------------------------------

  function AccessOf(plan: Host.Plan): Plan {
    map id | id in plan :: Access(plan[id].source.managed, plan[id].write)
  }

  function Holders(s: State, id: Id): set<nat> {
    set p: nat | p < |s.ops| && Holds(s, p, id, false)
  }

  ghost predicate Written(s: State, id: Id) { exists p: nat :: Holds(s, p, id, true) }

  /** The entry of the lock table says who holds the lock. */
  ghost predicate LockMirrors(s: State, locks: Host.Locks, id: Id) {
    if id !in locks then Holders(s, id) == {}
    else
      Holders(s, id) != {}
      && match locks[id]
         case Exclusive => Written(s, id)
         case Shared(readers) => !Written(s, id) && readers == |Holders(s, id)|
  }

  ghost predicate RegistryMirrors(s: State, registry: Host.Registry) {
    && s.ready == registry.ready
    && s.managed == (set id | id in registry.sources && registry.sources[id].managed)
    && s.local == (set id | id in registry.sources && !registry.sources[id].managed)
  }

  ghost predicate Mirrors(s: State, registry: Host.Registry, locks: Host.Locks) {
    RegistryMirrors(s, registry) && forall id :: LockMirrors(s, locks, id)
  }

  /** Every request carries the registered record of its source. */
  predicate Registered(registry: Host.Registry, requests: seq<Host.Request>) {
    forall i :: 0 <= i < |requests| ==>
      var source := requests[i].source;
      source.id in registry.sources && registry.sources[source.id] == source
  }

  /** The lock table grants exactly what the system grants. */
  lemma SameGrants(s: State, locks: Host.Locks, id: Id, write: bool)
    requires LockMirrors(s, locks, id)
    ensures Host.Grants(locks, id, write) <==> Grants(s, id, write)
  {
    if id in locks {
      var p :| p in Holders(s, id);
      assert Holds(s, p, id, false);
      if locks[id].Exclusive? {
        var q: nat :| Holds(s, q, id, true);
        assert Holds(s, q, id, false);
      }
    } else {
      assert forall p: nat :: Holds(s, p, id, false) ==> p in Holders(s, id);
    }
  }

  lemma PlanFitsHost(s: State, registry: Host.Registry, requests: seq<Host.Request>)
    requires RegistryMirrors(s, registry) && Registered(registry, requests) && !Host.ReplacesLocal(requests)
    ensures PlanFits(s, AccessOf(Host.PlanOf(requests)))
    ensures Locked(AccessOf(Host.PlanOf(requests))) == Host.LockSet(Host.PlanOf(requests))
    ensures Writes(AccessOf(Host.PlanOf(requests))) == Host.Writes(Host.PlanOf(requests))
    ensures forall id :: id in Host.PlanOf(requests) ==>
              && id in registry.sources && registry.sources[id] == Host.PlanOf(requests)[id].source
              && Host.PlanOf(requests)[id].source.id == id
  {
    var plan := Host.PlanOf(requests);
    forall id | id in plan
      ensures id in registry.sources && registry.sources[id] == plan[id].source && plan[id].source.id == id
      ensures plan[id].write ==> plan[id].source.managed
    {
      Host.PlannedRecord(requests, id);
      Host.WritesAreManaged(requests, id);
    }
  }

  // ---- Runs ---------------------------------------------------------------------------------------

  ghost predicate Leads(s: State, events: seq<Event>, t: State) { Legal(s, events) && Run(s, events) == t }

  lemma {:induction false} LeadsOn(s: State, a: seq<Event>, t: State, b: seq<Event>, u: State)
    requires Leads(s, a, t) && Leads(t, b, u)
    ensures Leads(s, a + b, u)
    decreases |a|
  {
    if a == [] {
      assert a + b == b;
    } else {
      assert (a + b)[0] == a[0] && (a + b)[1..] == a[1..] + b;
      LeadsOn(Step(s, a[0]), a[1..], t, b, u);
    }
  }

  lemma LeadsOne(s: State, e: Event)
    requires Enabled(s, e)
    ensures Leads(s, [e], Step(s, e))
  {
    assert [e][1..] == [];
    assert Legal(Step(s, e), []);
    assert Run(Step(s, e), []) == Step(s, e);
  }

  lemma Extend(s: State, a: seq<Event>, t: State, e: Event)
    requires Leads(s, a, t) && Enabled(t, e)
    ensures Leads(s, a + [e], Step(t, e))
  {
    LeadsOne(t, e);
    LeadsOn(s, a, t, [e], Step(t, e));
  }

  /** Taking one lock does not change who may take another. */
  lemma GrantsKept(s: State, op: nat, id: Id, other: Id, write: bool)
    requires op < |s.ops| && id != other && Grants(s, other, write)
    ensures Grants(With(s, op, s.ops[op].(held := s.ops[op].held + {id})), other, write)
  {
    var t := With(s, op, s.ops[op].(held := s.ops[op].held + {id}));
    assert forall p: nat, w: bool :: Holds(t, p, other, w) ==> Holds(s, p, other, w);
  }

  lemma {:induction false} Reserves(s: State, op: nat, ids: set<Id>) returns (events: seq<Event>)
    requires At(s, op, Reserving) && ids <= Locked(s.ops[op].plan) && ids !! s.ops[op].held
    requires forall id :: id in ids ==> Grants(s, id, s.ops[op].plan[id].write)
    ensures Leads(s, events, With(s, op, s.ops[op].(held := s.ops[op].held + ids)))
    decreases |ids|
  {
    var o := s.ops[op];
    events := [];
    if ids == {} {
      assert o.held + ids == o.held && s.ops[op := o] == s.ops;
    } else {
      var id :| id in ids;
      var t := Step(s, Reserve(op, id));
      forall other | other in ids - {id} ensures Grants(t, other, o.plan[other].write) {
        GrantsKept(s, op, id, other, o.plan[other].write);
      }
      var rest := Reserves(t, op, ids - {id});
      LeadsOne(s, Reserve(op, id));
      events := [Reserve(op, id)] + rest;
      LeadsOn(s, [Reserve(op, id)], t, rest, With(t, op, t.ops[op].(held := t.ops[op].held + (ids - {id}))));
      assert o.held + {id} + (ids - {id}) == o.held + ids;
    }
  }

  lemma {:induction false} Checks(s: State, op: nat, ids: set<Id>) returns (events: seq<Event>)
    requires At(s, op, Validating) && ids <= s.ops[op].plan.Keys && ids !! s.ops[op].checked
    requires forall id :: id in ids ==> s.ops[op].plan[id].write || id in s.ready
    ensures Leads(s, events, With(s, op, s.ops[op].(checked := s.ops[op].checked + ids)))
    decreases |ids|
  {
    var o := s.ops[op];
    events := [];
    if ids == {} {
      assert o.checked + ids == o.checked && s.ops[op := o] == s.ops;
    } else {
      var id :| id in ids;
      var t := Step(s, Check(op, id));
      var rest := Checks(t, op, ids - {id});
      LeadsOne(s, Check(op, id));
      events := [Check(op, id)] + rest;
      LeadsOn(s, [Check(op, id)], t, rest, With(t, op, t.ops[op].(checked := t.ops[op].checked + (ids - {id}))));
      assert o.checked + {id} + (ids - {id}) == o.checked + ids;
    }
  }

  // ---- One operation's course -----------------------------------------------------------------------

  /** The state with one more operation, which holds its locks. */
  function Joined(s: State, o: Operation): State { s.(ops := s.ops + [o]) }

  function Unready(s: State, plan: Plan): State {
    s.(ready := s.ready - Writes(plan),
       log := if Writes(plan) == {} then s.log else s.log + [Mark(|s.ops|, Writes(plan), false)])
  }

  lemma ReservesAll(s: State, plan: Plan) returns (events: seq<Event>)
    requires PlanFits(s, plan) && forall id :: id in Locked(plan) ==> Grants(s, id, plan[id].write)
    ensures Leads(s, events, Joined(s, Operation(plan, Locked(plan), {}, Reserving, false)))
  {
    var t := Step(s, Start(plan));
    var op := |s.ops|;
    LeadsOne(s, Start(plan));
    assert forall p: nat, id, w: bool :: Holds(t, p, id, w) ==> Holds(s, p, id, w);
    var rest := Reserves(t, op, Locked(plan));
    events := [Start(plan)] + rest;
    var u := With(t, op, t.ops[op].(held := t.ops[op].held + Locked(plan)));
    LeadsOn(s, [Start(plan)], t, rest, u);
    assert {} + Locked(plan) == Locked(plan);
    assert u.ops == s.ops + [Operation(plan, Locked(plan), {}, Reserving, false)];
  }

  lemma Invalidates(s: State, plan: Plan) returns (events: seq<Event>)
    requires PlanFits(s, plan) && forall id :: id in Locked(plan) ==> Grants(s, id, plan[id].write)
    ensures Leads(s, events, Joined(Unready(s, plan), Operation(plan, Locked(plan), {}, Validating, false)))
  {
    var t := Joined(s, Operation(plan, Locked(plan), {}, Reserving, false));
    var first := ReservesAll(s, plan);
    Extend(s, first, t, Invalidate(|s.ops|));
    events := first + [Invalidate(|s.ops|)];
    assert Step(t, Invalidate(|s.ops|)).ops == s.ops + [Operation(plan, Locked(plan), {}, Validating, false)];
  }

  lemma Activates(s: State, plan: Plan) returns (events: seq<Event>)
    requires PlanFits(s, plan) && forall id :: id in Locked(plan) ==> Grants(s, id, plan[id].write)
    requires forall id :: id in plan ==> plan[id].write || id in s.ready - Writes(plan)
    ensures Leads(s, events, Joined(Unready(s, plan), Operation(plan, Locked(plan), plan.Keys, Active, false)))
  {
    var op := |s.ops|;
    var t := Joined(Unready(s, plan), Operation(plan, Locked(plan), {}, Validating, false));
    var first := Invalidates(s, plan);
    var checks := Checks(t, op, plan.Keys);
    var u := With(t, op, t.ops[op].(checked := t.ops[op].checked + plan.Keys));
    LeadsOn(s, first, t, checks, u);
    assert {} + plan.Keys == plan.Keys;
    Extend(s, first + checks, u, Activate(op));
    events := first + checks + [Activate(op)];
    assert Step(u, Activate(op)).ops == s.ops + [Operation(plan, Locked(plan), plan.Keys, Active, false)];
  }

  function Ended(plan: Plan): Operation { Operation(plan, {}, {}, Closed, false) }

  /** A lock that is not granted ends the operation with nothing taken. */
  lemma IsRefused(s: State, plan: Plan, id: Id) returns (events: seq<Event>)
    requires PlanFits(s, plan) && id in Locked(plan) && !Grants(s, id, plan[id].write)
    ensures Leads(s, events, Joined(s, Ended(plan)))
  {
    var t, op := Step(s, Start(plan)), |s.ops|;
    LeadsOne(s, Start(plan));
    assert forall p: nat, w: bool :: Holds(s, p, id, w) ==> Holds(t, p, id, w);
    Extend(s, [Start(plan)], t, Reserve(op, id));
    events := [Start(plan)] + [Reserve(op, id)];
    assert Step(t, Reserve(op, id)).ops == s.ops + [Ended(plan)];
  }

  /** Dropping a joined operation's guards ends it. */
  lemma Ends(s: State, first: seq<Event>, t: State, o: Operation) returns (events: seq<Event>)
    requires Leads(s, first, Joined(t, o)) && !o.done
    ensures Leads(s, events, Joined(t, Ended(o.plan)))
  {
    Extend(s, first, Joined(t, o), Drop(|t.ops|));
    events := first + [Drop(|t.ops|)];
    assert Step(Joined(t, o), Drop(|t.ops|)).ops == t.ops + [Ended(o.plan)];
  }

  // ---- Who holds what -----------------------------------------------------------------------------------

  lemma JoinedHolders(s: State, o: Operation, id: Id)
    ensures var mine := id in o.held && id in o.plan;
            && Holders(Joined(s, o), id) == Holders(s, id) + (if mine then {|s.ops|} else {})
            && (Written(Joined(s, o), id) <==> Written(s, id) || (mine && o.plan[id].write))
  {
    var t := Joined(s, o);
    assert forall p: nat, w: bool :: p < |s.ops| ==> (Holds(t, p, id, w) <==> Holds(s, p, id, w));
    if Written(s, id) {
      var p: nat :| Holds(s, p, id, true);
      assert Holds(t, p, id, true);
    }
    if id in o.held && id in o.plan && o.plan[id].write { assert Holds(t, |s.ops|, id, true); }
  }

  lemma EndedMirrors(s: State, plan: Plan, locks: Host.Locks, id: Id)
    requires LockMirrors(s, locks, id)
    ensures LockMirrors(Joined(s, Ended(plan)), locks, id)
  {
    JoinedHolders(s, Ended(plan), id);
    assert Holders(s, id) + {} == Holders(s, id);
  }

  lemma TakenMirrors(s: State, o: Operation, plan: Host.Plan, locks: Host.Locks, id: Id)
    requires LockMirrors(s, locks, id) && o.plan == AccessOf(plan) && o.held == Host.LockSet(plan)
    requires Host.Grantable(locks, plan, Host.LockSet(plan))
    ensures LockMirrors(Joined(s, o), Host.Taken(locks, plan, Host.LockSet(plan)), id)
  {
    JoinedHolders(s, o, id);
    if id in Host.LockSet(plan) {
      assert Host.Grants(locks, id, plan[id].write);
      SameGrants(s, locks, id, plan[id].write);
      assert |s.ops| !in Holders(s, id);
    } else {
      assert Holders(s, id) + {} == Holders(s, id);
    }
  }

  lemma DroppedHolders(s: State, op: nat, o: Operation, id: Id)
    requires op < |s.ops| && o.held == {}
    ensures Holders(With(s, op, o), id) == Holders(s, id) - {op}
    ensures Written(With(s, op, o), id) <==> exists p: nat :: p != op && Holds(s, p, id, true)
  {
    var t := With(s, op, o);
    assert forall p: nat, w: bool :: p != op ==> (Holds(t, p, id, w) <==> Holds(s, p, id, w));
    assert forall w: bool :: !Holds(t, op, id, w);
    if exists p: nat :: p != op && Holds(s, p, id, true) {
      var p: nat :| p != op && Holds(s, p, id, true);
      assert Holds(t, p, id, true);
    }
  }

  lemma DroppedMirrors(s: State, op: nat, o: Operation, plan: Host.Plan, before: Host.Locks, id: Id)
    requires Exclusive(s) && op < |s.ops| && o.held == {}
    requires s.ops[op].plan == AccessOf(plan) && s.ops[op].held == Host.LockSet(plan)
    requires Host.Proper(before) && Host.Grantable(before, plan, Host.LockSet(plan))
    requires LockMirrors(s, Host.Taken(before, plan, Host.LockSet(plan)), id)
    ensures LockMirrors(With(s, op, o), before, id)
  {
    DroppedHolders(s, op, o, id);
    if id in Host.LockSet(plan) {
      assert Holds(s, op, id, false);
      assert Host.Grants(before, id, plan[id].write);
      if plan[id].write {
        assert Holds(s, op, id, true);
        assert forall p: nat :: p in Holders(s, id) ==> p == op;
      } else {
        assert op in Holders(s, id);
        assert |Holders(s, id) - {op}| == |Holders(s, id)| - 1;
      }
    } else {
      assert Holders(s, id) - {op} == Holders(s, id);
      assert !Holds(s, op, id, false);
    }
  }

  // ---- The host follows the system -----------------------------------------------------------------------

  /** What acquiring comes to: the new operation is active with the plan's locks,
      or it ended; a request to replace a local source starts nothing. */
  ghost predicate Settles(s: State, t: State, requests: seq<Host.Request>, result: Result<Host.Plan, Host.Failure>) {
    var op, plan := |s.ops|, AccessOf(Host.PlanOf(requests));
    if result == Err(Host.LocalWrite) then t == s
    else
      && |t.ops| == op + 1 && t.ops[..op] == s.ops
      && t.ops[op] == if result.Ok? then Operation(plan, Locked(plan), plan.Keys, Active, false) else Ended(plan)
  }

  /** Whatever acquiring may end in, a legal run of the system ends in it. */
  lemma AcquireIsRun(s: State, registry: Host.Registry, locks: Host.Locks, requests: seq<Host.Request>, commits: bool,
                     valid: set<Id>, result: Result<Host.Plan, Host.Failure>, after: Host.Registry, held: Host.Locks)
    returns (events: seq<Event>, t: State)
    requires Mirrors(s, registry, locks) && Registered(registry, requests)
    requires Host.Acquires(registry, locks, requests, commits, valid, result, after, held)
    ensures Leads(s, events, t) && Mirrors(t, after, held) && Settles(s, t, requests, result)
  {
    if Host.ReplacesLocal(requests) { return [], s; }
    var plan := Host.PlanOf(requests);
    var access := AccessOf(plan);
    PlanFitsHost(s, registry, requests);
    forall id | id in Locked(access)
      ensures Grants(s, id, access[id].write) <==> Host.Grants(locks, id, plan[id].write)
    {
      SameGrants(s, locks, id, plan[id].write);
    }
    match result
    case Err(Busy) =>
      var id :| id in Locked(access) && !Host.Grants(locks, id, plan[id].write);
      events := IsRefused(s, access, id);
      t := Joined(s, Ended(access));
      forall other ensures LockMirrors(t, locks, other) { EndedMirrors(s, access, locks, other); }
    case Err(Storage) =>
      var first := ReservesAll(s, access);
      events := Ends(s, first, s, Operation(access, Locked(access), {}, Reserving, false));
      t := Joined(s, Ended(access));
      forall other ensures LockMirrors(t, locks, other) { EndedMirrors(s, access, locks, other); }
    case Err(Unavailable) =>
      var first := Invalidates(s, access);
      events := Ends(s, first, Unready(s, access), Operation(access, Locked(access), {}, Validating, false));
      t := Joined(Unready(s, access), Ended(access));
      forall other ensures LockMirrors(t, locks, other) {
        SameOps(s, Unready(s, access), locks, other);
        EndedMirrors(Unready(s, access), access, locks, other);
      }
    case Ok(_) =>
      forall id | id in access ensures access[id].write || id in s.ready - Writes(access) {
        if !plan[id].write { assert Host.ReadyToRead(Host.Set(registry, Host.Writes(plan), false), plan[id].source); }
      }
      events := Activates(s, access);
      var o := Operation(access, Locked(access), access.Keys, Active, false);
      t := Joined(Unready(s, access), o);
      forall id ensures LockMirrors(t, held, id) {
        SameOps(s, Unready(s, access), locks, id);
        TakenMirrors(Unready(s, access), o, plan, locks, id);
      }
  }

  /** And so is finishing: it completes, publishes and drops the operation. */
  lemma FinishIsRun(s: State, op: nat, registry: Host.Registry, locks: Host.Locks, before: Host.Locks, plan: Host.Plan,
                    cancelled: bool, completed: bool, commits: bool, ok: bool, after: Host.Registry, held: Host.Locks)
    returns (events: seq<Event>, t: State)
    requires Inv(s) && Mirrors(s, registry, locks) && At(s, op, Active) && s.ops[op].plan == AccessOf(plan)
    requires Host.Proper(before) && Host.Grantable(before, plan, Host.LockSet(plan))
    requires locks == Host.Taken(before, plan, Host.LockSet(plan))
    requires Host.Finishes(registry, locks, before, plan, cancelled, completed, commits, ok, after, held)
    ensures Leads(s, events, t) && Mirrors(t, after, held)
    ensures t.ops == if cancelled || !completed then s.ops else s.ops[op := Released(s.ops[op]).(done := true)]
  {
    if cancelled || !completed { return [], s; }
    LeadsOne(s, Complete(op));
    events := [Complete(op)];
    t := Step(s, Complete(op));
    if ok {
      Extend(s, events, t, Publish(op));
      events, t := events + [Publish(op)], Step(t, Publish(op));
    }
    Extend(s, events, t, Drop(op));
    events, t := events + [Drop(op)], Step(t, Drop(op));
    var o := Released(s.ops[op]).(done := true);
    assert t.ops == s.ops[op := o];
    forall id ensures LockMirrors(t, before, id) {
      DroppedMirrors(s, op, o, plan, before, id);
      SameOps(With(s, op, o), t, before, id);
    }
    assert Writes(AccessOf(plan)) == Host.Writes(plan);
  }

  lemma SameOps(s: State, t: State, locks: Host.Locks, id: Id)
    requires LockMirrors(s, locks, id) && t.ops == s.ops
    ensures LockMirrors(t, locks, id)
  {
    assert forall p: nat, w: bool :: Holds(t, p, id, w) <==> Holds(s, p, id, w);
    assert Holders(t, id) == Holders(s, id);
  }

  ghost predicate ReadSafely(s: State, id: Id) {
    id in s.ready && forall q :: 0 <= q < |s.ops| ==> !Holds(s, q, id, true)
  }

  /** Once the host has acquired a plan, whatever else happens, each checkout the
      operation is still reading is ready and nobody holds its write lock. */
  lemma AcquiredReadsStaySafe(init: State, prior: seq<Event>, s: State, registry: Host.Registry, locks: Host.Locks,
                              requests: seq<Host.Request>, commits: bool, valid: set<Id>, plan: Host.Plan,
                              after: Host.Registry, held: Host.Locks) returns (t: State)
    requires Initial(init) && Leads(init, prior, s) && Mirrors(s, registry, locks) && Registered(registry, requests)
    requires Host.Acquires(registry, locks, requests, commits, valid, Ok(plan), after, held)
    ensures Mirrors(t, after, held)
    ensures forall id :: id in plan && !plan[id].write ==> Reading(t, |s.ops|, id)
    ensures forall later, id ::
              Legal(t, later) && Reading(Run(t, later), |s.ops|, id) && id in Run(t, later).managed ==>
                ReadSafely(Run(t, later), id)
  {
    var events;
    events, t := AcquireIsRun(s, registry, locks, requests, commits, valid, Ok(plan), after, held);
    LeadsOn(init, prior, s, events, t);
    forall later, id | Legal(t, later) && Reading(Run(t, later), |s.ops|, id) && id in Run(t, later).managed
      ensures ReadSafely(Run(t, later), id)
    {
      LeadsOn(init, prior + events, t, later, Run(t, later));
      GuardedReadsAreSafe(init, prior + events + later, |s.ops|, id);
    }
  }
}
