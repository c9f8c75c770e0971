/** One operation's own view: building the lock plan, taking it all or not at
    all, invalidating what it will write, and publishing it when done. */
module SourceAcquire {
  import opened Wrappers

  type Id = string

  datatype Source = Source(id: Id, repo: string, root: string, managed: bool)

  datatype Request = Request(source: Source, write: bool)

  /** One entry of the plan: the record first requested, and the strongest use. */
  datatype Planned = Planned(source: Source, write: bool)

  type Plan = map<Id, Planned>

  /** Which step failed. */
  datatype Failure = LocalWrite | Busy | Storage | Unavailable

  // ---- The plan -----------------------------------------------------------------------------

  function PlanOf(requests: seq<Request>): Plan {
    if requests == [] then map[]
    else
      var plan := PlanOf(requests[..|requests| - 1]);
      var r := requests[|requests| - 1];
      var id := r.source.id;
      plan[id := if id in plan then plan[id].(write := plan[id].write || r.write) else Planned(r.source, r.write)]
  }

  predicate ReplacesLocal(requests: seq<Request>) {
    exists i :: 0 <= i < |requests| && requests[i].write && !requests[i].source.managed
  }

  predicate Requested(requests: seq<Request>, id: Id) {
    exists i :: 0 <= i < |requests| && requests[i].source.id == id
  }

  predicate WriteRequested(requests: seq<Request>, id: Id) {
    exists i :: 0 <= i < |requests| && requests[i].source.id == id && requests[i].write
  }

  lemma RequestedSnoc(front: seq<Request>, r: Request, id: Id)
    ensures Requested(front + [r], id) <==> Requested(front, id) || r.source.id == id
    ensures WriteRequested(front + [r], id) <==> WriteRequested(front, id) || (r.source.id == id && r.write)
  {
    var all := front + [r];
    assert forall i :: 0 <= i < |front| ==> all[i] == front[i];
    assert all[|front|] == r;
  }

  /** Duplicate requests collapse to one entry; a write request wins over any
      number of reads. */
  lemma {:induction false} PlanCollapses(requests: seq<Request>, id: Id)
    ensures id in PlanOf(requests) <==> Requested(requests, id)
    ensures id in PlanOf(requests) ==> (PlanOf(requests)[id].write <==> WriteRequested(requests, id))
  {
    if requests != [] {
      var front, last := requests[..|requests| - 1], requests[|requests| - 1];
      PlanCollapses(front, id);
      RequestedSnoc(front, last, id);
      assert requests == front + [last];
      if !Requested(front, id) { assert !WriteRequested(front, id); }
    }
  }

  /** The entry keeps the record that was asked for first. */
  lemma {:induction false} PlanKeepsFirst(requests: seq<Request>, i: nat)
    requires i < |requests| && forall j :: 0 <= j < i ==> requests[j].source.id != requests[i].source.id
    ensures requests[i].source.id in PlanOf(requests)
            && PlanOf(requests)[requests[i].source.id].source == requests[i].source
  {
    var front := requests[..|requests| - 1];
    if i < |front| {
      PlanKeepsFirst(front, i);
    } else {
      PlanCollapses(front, requests[i].source.id);
    }
  }

  /** Requests for one source carry the one registered record. */
  predicate OneRecordEach(requests: seq<Request>) {
    forall i, j :: 0 <= i < |requests| && 0 <= j < |requests| && requests[i].source.id == requests[j].source.id ==>
      requests[i].source == requests[j].source
  }

  lemma {:induction false} PlannedRecord(requests: seq<Request>, id: Id)
    requires id in PlanOf(requests)
    ensures exists i :: 0 <= i < |requests|
                        && requests[i].source.id == id && requests[i].source == PlanOf(requests)[id].source
  {
    var front, last := requests[..|requests| - 1], |requests| - 1;
    if id in PlanOf(front) {
      PlannedRecord(front, id);
      var i :| 0 <= i < |front| && front[i].source.id == id && front[i].source == PlanOf(front)[id].source;
      assert requests[i] == front[i];
    } else {
      assert requests[last].source.id == id;
    }
  }

  lemma WritesAreManaged(requests: seq<Request>, id: Id)
    requires OneRecordEach(requests) && !ReplacesLocal(requests) && id in PlanOf(requests)
    ensures PlanOf(requests)[id].source.id == id && (PlanOf(requests)[id].write ==> PlanOf(requests)[id].source.managed)
  {
    PlannedRecord(requests, id);
    PlanCollapses(requests, id);
  }

  method BuildPlan(requests: seq<Request>) returns (plan: Option<Plan>)
    ensures plan.Some? <==> !ReplacesLocal(requests)
    ensures plan.Some? ==> plan.value == PlanOf(requests)
  {
    var entries: Plan := map[];
    for i := 0 to |requests|
      invariant forall k :: 0 <= k < i ==> requests[k].write ==> requests[k].source.managed
      invariant entries == PlanOf(requests[..i])
    {
      var r := requests[i];
      if r.write && !r.source.managed { return None; }
      assert requests[..i + 1][..i] == requests[..i];
      var id := r.source.id;
      if id in entries {
        entries := entries[id := entries[id].(write := entries[id].write || r.write)];
      } else {
        entries := entries[id := Planned(r.source, r.write)];
      }
    }
    assert requests[..|requests|] == requests;
    plan := Some(entries);
  }

  // ---- Locks ----------------------------------------------------------------------------------

  /** A lock somebody holds; a free one has no entry. */
  datatype Lock = Shared(readers: nat) | Exclusive

  type Locks = map<Id, Lock>

  predicate Proper(locks: Locks) {
    forall id :: id in locks && locks[id].Shared? ==> locks[id].readers > 0
  }

  function LockSet(plan: Plan): set<Id> {
    set id | id in plan && plan[id].source.managed
  }

  function Writes(plan: Plan): set<Id> {
    set id | id in plan && plan[id].source.managed && plan[id].write
  }

  predicate Grants(locks: Locks, id: Id, write: bool) {
    id !in locks || (!write && locks[id].Shared?)
  }

  function Take(locks: Locks, id: Id, write: bool): Lock
    requires Grants(locks, id, write)
  {
    if write then Exclusive else if id in locks then Shared(locks[id].readers + 1) else Shared(1)
  }

  predicate Grantable(locks: Locks, plan: Plan, ids: set<Id>)
    requires ids <= plan.Keys
  {
    forall id :: id in ids ==> Grants(locks, id, plan[id].write)
  }

  function Taken(locks: Locks, plan: Plan, ids: set<Id>): Locks
    requires ids <= plan.Keys && Grantable(locks, plan, ids)
  {
    map id | id in locks.Keys + ids :: if id in ids then Take(locks, id, plan[id].write) else locks[id]
  }

  function GiveBack(locks: Locks, id: Id): Locks {
    if id in locks && locks[id].Shared? && locks[id].readers > 1
    then locks[id := Shared(locks[id].readers - 1)]
    else locks - {id}
  }

  /** Taking a lock after others, and giving it back before them. */
  lemma TakeOne(locks: Locks, plan: Plan, ids: set<Id>, id: Id)
    requires Proper(locks) && id in plan && ids <= plan.Keys && id !in ids && Grantable(locks, plan, ids)
    ensures Grants(Taken(locks, plan, ids), id, plan[id].write) <==> Grants(locks, id, plan[id].write)
    ensures Grants(locks, id, plan[id].write) ==>
              && Taken(locks, plan, ids + {id})
                  == Taken(locks, plan, ids)[id := Take(Taken(locks, plan, ids), id, plan[id].write)]
              && GiveBack(Taken(locks, plan, ids + {id}), id) == Taken(locks, plan, ids)
  {
    var before := Taken(locks, plan, ids);
    assert id in before <==> id in locks;
    if Grants(locks, id, plan[id].write) {
      var after := Taken(locks, plan, ids + {id});
      assert after == before[id := Take(before, id, plan[id].write)];
      assert GiveBack(after, id) == before;
    }
  }

  lemma TakenNone(locks: Locks, plan: Plan)
    ensures Taken(locks, plan, {}) == locks
  {
  }

  /** Drop the guards of `ids`, one by one. */
  method Release(locks: Locks, plan: Plan, ids: set<Id>, ghost before: Locks) returns (free: Locks)
    requires Proper(before) && ids <= plan.Keys && Grantable(before, plan, ids) && locks == Taken(before, plan, ids)
    ensures free == before
  {
    free := locks;
    var left := ids;
    while left != {}
      invariant left <= ids && free == Taken(before, plan, left)
    {
      var id :| id in left;
      TakeOne(before, plan, left - {id}, id);
      assert left - {id} + {id} == left;
      free := GiveBack(free, id);
      left := left - {id};
    }
    TakenNone(before, plan);
  }

  /** Try every planned lock; a failure gives back the ones already taken. */
  method ReserveAll(locks: Locks, plan: Plan) returns (reserved: bool, held: Locks)
    requires Proper(locks)
    ensures reserved <==> Grantable(locks, plan, LockSet(plan))
    ensures held == if reserved then Taken(locks, plan, LockSet(plan)) else locks
  {
    held := locks;
    var got := {};
    var left := LockSet(plan);
    TakenNone(locks, plan);
    while left != {}
      invariant left <= LockSet(plan) && got == LockSet(plan) - left
      invariant Grantable(locks, plan, got) && held == Taken(locks, plan, got)
    {
      var id :| id in left;
      TakeOne(locks, plan, got, id);
      if !Grants(held, id, plan[id].write) {
        held := Release(held, plan, got, locks);
        return false, held;
      }
      held := held[id := Take(held, id, plan[id].write)];
      left, got := left - {id}, got + {id};
    }
    reserved := true;
  }

  // ---- Readiness -------------------------------------------------------------------------------

  datatype Registry = Registry(sources: map<Id, Source>, ready: set<Id>)

  predicate Settable(registry: Registry, ids: set<Id>) {
    forall id :: id in ids ==> id in registry.sources && registry.sources[id].managed
  }

  function Set(registry: Registry, ids: set<Id>, ready: bool): Registry {
    registry.(ready := if ready then registry.ready + ids else registry.ready - ids)
  }

  /** One transaction for the whole group: an unknown or local member, or a
      failing commit, changes no flag. */
  method SetReadyBatch(registry: Registry, ids: set<Id>, ready: bool, commits: bool) returns (ok: bool, after: Registry)
    ensures ok <==> Settable(registry, ids) && commits
    ensures after == if ok then Set(registry, ids, ready) else registry
  {
    var staged, left := registry.ready, ids;
    while left != {}
      invariant left <= ids && Settable(registry, ids - left)
      invariant staged == Set(registry, ids - left, ready).ready
    {
      var id :| id in left;
      if id !in registry.sources || !registry.sources[id].managed { return false, registry; }
      assert ids - (left - {id}) == ids - left + {id};
      staged := if ready then staged + {id} else staged - {id};
      left := left - {id};
    }
    assert ids - {} == ids;
    if !commits { return false, registry; }
    return true, registry.(ready := staged);
  }

  predicate ReadyToRead(registry: Registry, source: Source) {
    source.id in registry.sources && registry.sources[source.id] == source && source.id in registry.ready
  }

  /** Every planned checkout validates, and every source to read is ready. */
  predicate Usable(registry: Registry, plan: Plan, valid: set<Id>) {
    forall id :: id in plan ==>
      (plan[id].source.managed ==> id in valid) && (!plan[id].write ==> ReadyToRead(registry, plan[id].source))
  }

  method ValidateAll(registry: Registry, plan: Plan, valid: set<Id>) returns (usable: bool)
    ensures usable <==> Usable(registry, plan, valid)
  {
    var left := plan.Keys;
    while left != {}
      invariant left <= plan.Keys
      invariant forall id :: id in plan && id !in left ==>
                  (plan[id].source.managed ==> id in valid)
                      && (!plan[id].write ==> ReadyToRead(registry, plan[id].source))
    {
      var id :| id in left;
      if plan[id].source.managed && id !in valid { return false; }
      if !plan[id].write && !ReadyToRead(registry, plan[id].source) { return false; }
      left := left - {id};
    }
    usable := true;
  }

  /** Acquiring from `registry` and `locks` may end in `result`, `after`, `held`:
      each failure has its one cause, and leaves the locks as they were. */
  ghost predicate Acquires(registry: Registry, locks: Locks, requests: seq<Request>, commits: bool, valid: set<Id>,
                           result: Result<Plan, Failure>, after: Registry, held: Locks) {
    var plan := PlanOf(requests);
    var flagged := Writes(plan) == {} || (Settable(registry, Writes(plan)) && commits);
    var unready := Set(registry, Writes(plan), false);
    && (result == Err(LocalWrite) <==> ReplacesLocal(requests))
    && (!ReplacesLocal(requests) ==>
          && (result == Err(Busy) <==> !Grantable(locks, plan, LockSet(plan)))
          && (result == Err(Storage) <==> Grantable(locks, plan, LockSet(plan)) && !flagged)
          && (result == Err(Unavailable) <==>
                Grantable(locks, plan, LockSet(plan)) && flagged && !Usable(unready, plan, valid))
          && (result.Ok? ==> result.value == plan && held == Taken(locks, plan, LockSet(plan)))
          && (result.Ok? || result == Err(Unavailable) ==> after == unready))
    && (result.Err? ==> held == locks)
    && (result in {Err(LocalWrite), Err(Busy), Err(Storage)} ==> after == registry)
  }

  /** Finishing publishes what was written as a whole or not at all; the guards
      go back once the job completed, `before` being the locks without them. */
  ghost predicate Finishes(registry: Registry, locks: Locks, before: Locks, plan: Plan, cancelled: bool,
                           completed: bool, commits: bool, ok: bool, after: Registry, held: Locks) {
    && (ok <==> !cancelled && completed && (Writes(plan) == {} || (Settable(registry, Writes(plan)) && commits)))
    && after == (if ok then Set(registry, Writes(plan), true) else registry)
    && held == (if !cancelled && completed then before else locks)
  }

  class SourceHost {
    var registry: Registry
    var locks: Locks

    constructor (sources: map<Id, Source>, ready: set<Id>)
      ensures registry == Registry(sources, ready) && locks == map[]
    {
      registry, locks := Registry(sources, ready), map[];
    }

    /** Acquire a plan. `commits` is whether the readiness transaction can be
        committed, `valid` the managed checkouts whose slot validates. */
    method Acquire(requests: seq<Request>, commits: bool, valid: set<Id>) returns (result: Result<Plan, Failure>)
      requires Proper(locks)
      modifies this
      ensures Acquires(old(registry), old(locks), requests, commits, valid, result, registry, locks)
    {
      var plan := BuildPlan(requests);
      if plan.None? { return Err(LocalWrite); }
      var reserved, held := ReserveAll(locks, plan.value);
      if !reserved { return Err(Busy); }
      ghost var before := locks;
      locks := held;
      var writes := Writes(plan.value);
      if writes != {} {
        var ok, after := SetReadyBatch(registry, writes, false, commits);
        if !ok {
          locks := Release(locks, plan.value, LockSet(plan.value), before);
          return Err(Storage);
        }
        registry := after;
      }
      var usable := ValidateAll(registry, plan.value, valid);
      if !usable {
        locks := Release(locks, plan.value, LockSet(plan.value), before);
        return Err(Unavailable);
      }
      result := Ok(plan.value);
    }

    /** Publish the readiness of what was written, then release the guards; the
        readiness transaction may fail, but only as a whole. */
    method Finish(plan: Plan, cancelled: bool, completed: bool, commits: bool, ghost before: Locks)
      returns (result: Result<(), string>)
      requires Proper(before) && Grantable(before, plan, LockSet(plan)) && locks == Taken(before, plan, LockSet(plan))
      modifies this
      ensures Finishes(old(registry), old(locks), before, plan, cancelled, completed, commits, result.Ok?,
                       registry, locks)
    {
      if cancelled { return Err("cancelled"); }
      if !completed { return Err("job did not complete"); }
      result := Ok(());
      if Writes(plan) != {} {
        var ok, after := SetReadyBatch(registry, Writes(plan), true, commits);
        registry := after;
        if !ok { result := Err("availability was not published"); }
      }
      locks := Release(locks, plan, LockSet(plan), before);
    }
  }

  /** What a successful acquisition lets the operation rely on: every source it
      reads is ready, every source it writes is unready and locked by it alone. */
  lemma AcquiredPlanIsSafe(locks: Locks, registry: Registry, requests: seq<Request>, valid: set<Id>, id: Id)
    requires OneRecordEach(requests) && !ReplacesLocal(requests)
    requires var plan := PlanOf(requests);
             Grantable(locks, plan, LockSet(plan)) && Usable(Set(registry, Writes(plan), false), plan, valid)
    requires Requested(requests, id)
    ensures var plan := PlanOf(requests);
            var after, held := Set(registry, Writes(plan), false), Taken(locks, plan, LockSet(plan));
            && id in plan
            && (if WriteRequested(requests, id) then id !in after.ready && id in held && held[id] == Exclusive
                  && id !in locks
                else id in after.ready && (plan[id].source.managed ==> id in held && held[id].Shared?))
  {
    PlanCollapses(requests, id);
    WritesAreManaged(requests, id);
    assert PlanOf(requests)[id].source.managed ==> id in LockSet(PlanOf(requests));
  }

  // ---- Why an acquisition fails, in the requests' own terms ---------------------------------------------

  lemma RequestedRecord(requests: seq<Request>, i: nat)
    requires OneRecordEach(requests) && i < |requests|
    ensures var id := requests[i].source.id;
            id in PlanOf(requests) && PlanOf(requests)[id].source == requests[i].source
  {
    var id := requests[i].source.id;
    PlanCollapses(requests, id);
    PlannedRecord(requests, id);
  }

  lemma PlannedIsRequested(requests: seq<Request>, id: Id) returns (i: nat)
    requires OneRecordEach(requests) && id in PlanOf(requests)
    ensures i < |requests| && requests[i].source.id == id && requests[i].source == PlanOf(requests)[id].source
  {
    PlannedRecord(requests, id);
    i :| 0 <= i < |requests| && requests[i].source.id == id && requests[i].source == PlanOf(requests)[id].source;
  }

  /** A requested checkout is locked in a way that excludes its use: exclusively, or
      at all when some request would replace it. */
  ghost predicate Contended(locks: Locks, requests: seq<Request>) {
    exists i :: 0 <= i < |requests| && requests[i].source.managed && requests[i].source.id in locks
                && (locks[requests[i].source.id].Exclusive? || WriteRequested(requests, requests[i].source.id))
  }

  /** Acquiring is busy exactly when a requested checkout is contended. */
  lemma BusyIff(locks: Locks, requests: seq<Request>)
    requires OneRecordEach(requests)
    ensures !Grantable(locks, PlanOf(requests), LockSet(PlanOf(requests))) <==> Contended(locks, requests)
  {
    var plan := PlanOf(requests);
    if !Grantable(locks, plan, LockSet(plan)) {
      var id :| id in LockSet(plan) && !Grants(locks, id, plan[id].write);
      var i := PlannedIsRequested(requests, id);
      PlanCollapses(requests, id);
      assert requests[i].source.managed && id in locks;
    }
    if Contended(locks, requests) {
      var i :| 0 <= i < |requests| && requests[i].source.managed && requests[i].source.id in locks
               && (locks[requests[i].source.id].Exclusive? || WriteRequested(requests, requests[i].source.id));
      RequestedRecord(requests, i);
      PlanCollapses(requests, requests[i].source.id);
      assert !Grants(locks, requests[i].source.id, plan[requests[i].source.id].write);
    }
  }

  /** The registry, with everything to be replaced unready, cannot serve a request:
      its checkout does not validate, or it is only to be read and is not
      registered as requested and ready. */
  ghost predicate Unservable(registry: Registry, requests: seq<Request>, valid: set<Id>) {
    exists i :: 0 <= i < |requests|
                && (|| (requests[i].source.managed && requests[i].source.id !in valid)
                    || (&& !WriteRequested(requests, requests[i].source.id)
                        && !(&& requests[i].source.id in registry.sources
                             && registry.sources[requests[i].source.id] == requests[i].source
                             && requests[i].source.id in registry.ready)))
  }

  lemma UnavailableIff(registry: Registry, requests: seq<Request>, valid: set<Id>)
    requires OneRecordEach(requests)
    ensures !Usable(registry, PlanOf(requests), valid) <==> Unservable(registry, requests, valid)
  {
    var plan := PlanOf(requests);
    if !Usable(registry, plan, valid) {
      var id :| id in plan && !((plan[id].source.managed ==> id in valid)
                                && (!plan[id].write ==> ReadyToRead(registry, plan[id].source)));
      var i := PlannedIsRequested(requests, id);
      PlanCollapses(requests, id);
      assert requests[i].source == plan[id].source;
    }
    forall i: nat | i < |requests|
      ensures var id := requests[i].source.id;
              && id in plan && plan[id].source == requests[i].source
              && (plan[id].write <==> WriteRequested(requests, id))
    {
      RequestedRecord(requests, i);
      PlanCollapses(requests, requests[i].source.id);
    }
  }

  /** Flagged unready are exactly the checkouts some request would replace. */
  lemma FlaggedIff(requests: seq<Request>, id: Id)
    requires OneRecordEach(requests) && !ReplacesLocal(requests)
    ensures id in Writes(PlanOf(requests)) <==> WriteRequested(requests, id)
  {
    PlanCollapses(requests, id);
    if id in PlanOf(requests) { WritesAreManaged(requests, id); }
  }

  /** Only replacing a direct local source is refused outright; reading one is not. */
  lemma LocalWriteIff(requests: seq<Request>)
    ensures !ReplacesLocal(requests) <==>
            forall i :: 0 <= i < |requests| ==> requests[i].source.managed || !requests[i].write
  {
  }

  /** The readiness of what is to be replaced can be stored exactly when each is
      registered and managed. */
  lemma SettableIff(registry: Registry, requests: seq<Request>)
    requires OneRecordEach(requests) && !ReplacesLocal(requests)
    ensures Settable(registry, Writes(PlanOf(requests))) <==>
            forall i :: 0 <= i < |requests| && requests[i].write ==>
              requests[i].source.id in registry.sources && registry.sources[requests[i].source.id].managed
  {
    forall id ensures id in Writes(PlanOf(requests)) <==> WriteRequested(requests, id) { FlaggedIff(requests, id); }
    forall i | 0 <= i < |requests| && requests[i].write ensures WriteRequested(requests, requests[i].source.id) { }
  }
}
