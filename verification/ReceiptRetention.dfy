/** The bounded, append-only store of producer receipts. */
module ReceiptRetention {
  import opened Wrappers

  const MAX_RECEIPTS: nat := 100_000
  const MAX_RECEIPT_BYTES: nat := 128 * 1024
  const MAX_RECEIPT_STORE_BYTES: nat := 64 * 1024 * 1024

  type Bytes = seq<bv8>

  /** A receipt as handed over: `captured` when its file reference is the
      capture's own, `readable` when every span it lists can be read back. */
  datatype Receipt = Receipt(id: string, sourceId: string, repo: string, payload: Bytes, captured: bool, readable: bool)

  datatype Stored = Stored(sourceId: string, repo: string, payload: Bytes)

  datatype Source = Source(id: string, repo: string)

  // ---- Sizes ------------------------------------------------------------------------------

  ghost function TotalBytes(rows: map<string, Stored>): nat {
    if rows == map[] then 0
    else
      var id :| id in rows;
      |rows[id].payload| + TotalBytes(rows - {id})
  }

  lemma {:induction false} TotalBytesWithout(rows: map<string, Stored>, id: string)
    requires id in rows
    ensures TotalBytes(rows) == |rows[id].payload| + TotalBytes(rows - {id})
    decreases |rows|
  {
    var other :| other in rows && TotalBytes(rows) == |rows[other].payload| + TotalBytes(rows - {other});
    if other != id {
      TotalBytesWithout(rows - {other}, id);
      TotalBytesWithout(rows - {id}, other);
      assert rows - {other} - {id} == rows - {id} - {other};
    }
  }

  lemma TotalBytesWith(rows: map<string, Stored>, id: string, row: Stored)
    requires id !in rows
    ensures TotalBytes(rows[id := row]) == TotalBytes(rows) + |row.payload|
  {
    TotalBytesWithout(rows[id := row], id);
    assert rows[id := row] - {id} == rows;
  }

  /** Rows only add to the total. */
  lemma {:induction false} TotalBytesGrows(rows: map<string, Stored>, more: map<string, Stored>)
    requires forall id :: id in rows ==> id in more && more[id] == rows[id]
    ensures |rows| <= |more| && TotalBytes(rows) <= TotalBytes(more)
    decreases |more|
  {
    if id :| id in more && id !in rows {
      TotalBytesWithout(more, id);
      TotalBytesGrows(rows, more - {id});
    } else {
      assert rows == more;
    }
  }

  // ---- What the store admits ---------------------------------------------------------------

  predicate RowSound(id: string, row: Stored) {
    && 1 <= |id| <= 256 && |row.sourceId| == 36 && 1 <= |row.repo| <= 256
    && 1 <= |row.payload| <= MAX_RECEIPT_BYTES
  }

  /** The inventory the store insists on before it reads or adds anything. */
  ghost predicate Sound(rows: map<string, Stored>) {
    && |rows| <= MAX_RECEIPTS
    && (forall id :: id in rows ==> RowSound(id, rows[id]))
    && TotalBytes(rows) <= MAX_RECEIPT_STORE_BYTES
  }

  function RowOf(receipt: Receipt): Stored {
    Stored(receipt.sourceId, receipt.repo, receipt.payload)
  }

  /** What a receipt's own validation guarantees when it is serialized: bounded
      identities and a bounded record. */
  predicate WellFormed(receipt: Receipt) { RowSound(receipt.id, RowOf(receipt)) }

  /** The receipt is this source's, its file and spans are the capture's, and it
      serializes within bounds. */
  predicate Acceptable(source: Source, receipt: Receipt) {
    && receipt.sourceId == source.id && receipt.repo == source.repo
    && receipt.captured && receipt.readable && WellFormed(receipt)
  }

  /** Receipts of one id say one thing. */
  predicate Agree(receipts: seq<Receipt>) {
    forall i, j :: 0 <= i < j < |receipts| && receipts[i].id == receipts[j].id ==>
        receipts[i].payload == receipts[j].payload
  }

  function Batch(receipts: seq<Receipt>): map<string, Stored> {
    if receipts == [] then map[]
    else Batch(receipts[..|receipts| - 1])[receipts[|receipts| - 1].id := RowOf(receipts[|receipts| - 1])]
  }

  predicate Named(receipts: seq<Receipt>, id: string) {
    exists i :: 0 <= i < |receipts| && receipts[i].id == id
  }

  lemma {:induction false} BatchKeys(receipts: seq<Receipt>, id: string)
    ensures id in Batch(receipts) <==> Named(receipts, id)
  {
    if receipts != [] {
      var front := receipts[..|receipts| - 1];
      BatchKeys(front, id);
      assert receipts == front + [receipts[|receipts| - 1]];
      if Named(front, id) {
        var i :| 0 <= i < |front| && front[i].id == id;
        assert receipts[i].id == id;
      }
    }
  }

  lemma {:induction false} BatchValue(source: Source, receipts: seq<Receipt>, i: nat)
    requires Agree(receipts) && forall k :: 0 <= k < |receipts| ==> Acceptable(source, receipts[k])
    requires i < |receipts|
    ensures receipts[i].id in Batch(receipts) && Batch(receipts)[receipts[i].id] == RowOf(receipts[i])
  {
    var front, last := receipts[..|receipts| - 1], receipts[|receipts| - 1];
    if i < |front| && receipts[i].id != last.id {
      assert forall k :: 0 <= k < |front| ==> front[k] == receipts[k];
      BatchValue(source, front, i);
    }
  }

  /** The batch holds each receipt's row under its id, and nothing else. */
  lemma BatchOf(source: Source, receipts: seq<Receipt>)
    requires Agree(receipts) && forall i :: 0 <= i < |receipts| ==> Acceptable(source, receipts[i])
    ensures forall id :: id in Batch(receipts) <==> Named(receipts, id)
    ensures forall i :: 0 <= i < |receipts| ==>
            receipts[i].id in Batch(receipts) && Batch(receipts)[receipts[i].id] == RowOf(receipts[i])
  {
    forall id ensures id in Batch(receipts) <==> Named(receipts, id) { BatchKeys(receipts, id); }
    forall i | 0 <= i < |receipts|
      ensures receipts[i].id in Batch(receipts) && Batch(receipts)[receipts[i].id] == RowOf(receipts[i])
    {
      BatchValue(source, receipts, i);
    }
  }

  ghost predicate BatchSound(source: Source, receipts: seq<Receipt>) {
    && (forall i :: 0 <= i < |receipts| ==> Acceptable(source, receipts[i]))
    && Agree(receipts)
    && TotalBytes(Batch(receipts)) <= MAX_RECEIPT_STORE_BYTES
  }

  ghost predicate BatchAccepted(source: Source, receipts: seq<Receipt>) {
    |receipts| <= MAX_RECEIPTS && BatchSound(source, receipts)
  }

  /** No stored receipt is contradicted. */
  predicate Consistent(rows: map<string, Stored>, batch: map<string, Stored>) {
    forall id :: id in batch && id in rows ==> rows[id] == batch[id]
  }

  ghost predicate Fits(rows: map<string, Stored>) {
    |rows| <= MAX_RECEIPTS && TotalBytes(rows) <= MAX_RECEIPT_STORE_BYTES
  }

  ghost predicate Persistable(rows: map<string, Stored>, source: Source, receipts: seq<Receipt>) {
    && BatchAccepted(source, receipts) && Sound(rows)
    && Consistent(rows, Batch(receipts)) && Fits(rows + Batch(receipts))
  }

  // ---- The store ---------------------------------------------------------------------------------

  class ReceiptStore {
    var rows: map<string, Stored>

    constructor ()
      ensures rows == map[]
    {
      rows := map[];
    }

    /** Add a batch, all of it or none. `commits` is whether the database
        transaction that carries it can be committed. */
    method Persist(source: Source, receipts: seq<Receipt>, commits: bool) returns (result: Result<(), string>)
      modifies this
      ensures result.Ok? <==> Persistable(old(rows), source, receipts) && commits
      ensures rows == if result.Ok? then old(rows) + Batch(receipts) else old(rows)
    {
      var batch := CheckBatch(source, receipts);
      if batch.None? { return Err("receipt batch"); }
      var inventory := ReceiptStorage(rows);
      if inventory.None? { return Err("receipt inventory"); }
      var added := AddRows(rows, batch.value, inventory.value);
      if added.None? { return Err("receipt collision or capacity"); }
      if !commits { return Err("storage"); }
      rows := added.value;
      result := Ok(());
    }
  }

  method CheckBatch(source: Source, receipts: seq<Receipt>) returns (batch: Option<map<string, Stored>>)
    ensures batch.Some? <==> BatchAccepted(source, receipts)
    ensures batch.Some? ==> batch.value == Batch(receipts)
  {
    if |receipts| > MAX_RECEIPTS { return None; }
    var rows, bytes := map[], 0;
    for i := 0 to |receipts|
      invariant BatchSound(source, receipts[..i])
      invariant rows == Batch(receipts[..i]) && bytes == TotalBytes(rows)
    {
      var receipt := receipts[i];
      BatchSnoc(source, receipts[..i], receipt);
      PrefixSound(source, receipts, i + 1);
      assert receipts[..i + 1] == receipts[..i] + [receipt];
      if !Acceptable(source, receipt) { return None; }
      if receipt.id in rows {
        if rows[receipt.id].payload != receipt.payload { return None; }
      } else {
        bytes := bytes + |receipt.payload|;
        if bytes > MAX_RECEIPT_STORE_BYTES { return None; }
        rows := rows[receipt.id := RowOf(receipt)];
      }
    }
    assert receipts[..|receipts|] == receipts;
    batch := Some(rows);
  }

  lemma AgreeSnoc(source: Source, front: seq<Receipt>, receipt: Receipt)
    requires Agree(front) && (forall k :: 0 <= k < |front| ==> Acceptable(source, front[k]))
    ensures Agree(front + [receipt]) <==>
            (receipt.id in Batch(front) ==> Batch(front)[receipt.id].payload == receipt.payload)
  {
    BatchKeys(front, receipt.id);
    AgreeAppend(front, receipt);
    forall k: nat | k < |front| && front[k].id == receipt.id
      ensures receipt.id in Batch(front) && Batch(front)[receipt.id].payload == front[k].payload
    {
      BatchValue(source, front, k);
    }
  }

  lemma AgreeAppend(front: seq<Receipt>, receipt: Receipt)
    requires Agree(front)
    ensures Agree(front + [receipt]) <==>
            forall k :: 0 <= k < |front| && front[k].id == receipt.id ==> front[k].payload == receipt.payload
  {
    var all := front + [receipt];
    assert all[|front|] == receipt && forall k :: 0 <= k < |front| ==> all[k] == front[k];
  }

  /** When one more receipt keeps a batch sound, and what it adds. */
  lemma BatchSnoc(source: Source, front: seq<Receipt>, receipt: Receipt)
    requires BatchSound(source, front)
    ensures BatchSound(source, front + [receipt]) <==>
            && Acceptable(source, receipt)
            && (if receipt.id in Batch(front) then Batch(front)[receipt.id].payload == receipt.payload
                else TotalBytes(Batch(front)) + |receipt.payload| <= MAX_RECEIPT_STORE_BYTES)
    ensures BatchSound(source, front + [receipt]) ==>
            if receipt.id in Batch(front) then Batch(front + [receipt]) == Batch(front)
            else && Batch(front + [receipt]) == Batch(front)[receipt.id := RowOf(receipt)]
                 && TotalBytes(Batch(front + [receipt])) == TotalBytes(Batch(front)) + |receipt.payload|
  {
    var all := front + [receipt];
    assert all[..|front|] == front && all[|front|] == receipt;
    AgreeSnoc(source, front, receipt);
    if receipt.id in Batch(front) {
      if Acceptable(source, receipt) && Batch(front)[receipt.id].payload == receipt.payload {
        SameRow(source, front, receipt);
      }
    } else {
      TotalBytesWith(Batch(front), receipt.id, RowOf(receipt));
    }
  }

  lemma SameRow(source: Source, front: seq<Receipt>, receipt: Receipt)
    requires BatchSound(source, front) && Acceptable(source, receipt)
    requires receipt.id in Batch(front) && Batch(front)[receipt.id].payload == receipt.payload
    ensures Batch(front)[receipt.id := RowOf(receipt)] == Batch(front)
  {
    BatchOf(source, front);
    var k :| 0 <= k < |front| && front[k].id == receipt.id;
    assert RowOf(front[k]) == RowOf(receipt);
  }

  /** A prefix of a sound batch is sound. */
  lemma PrefixSound(source: Source, receipts: seq<Receipt>, i: nat)
    requires i <= |receipts|
    ensures BatchSound(source, receipts) ==> BatchSound(source, receipts[..i])
  {
    if BatchSound(source, receipts) {
      var front := receipts[..i];
      BatchOf(source, receipts);
      BatchOf(source, front);
      TotalBytesGrows(Batch(front), Batch(receipts));
    }
  }

  /** Count and size of the stored receipts, if every row is within bounds. */
  method ReceiptStorage(rows: map<string, Stored>) returns (inventory: Option<(nat, nat)>)
    ensures inventory.Some? <==> Sound(rows)
    ensures inventory.Some? ==> inventory.value == (|rows|, TotalBytes(rows))
  {
    if |rows| > MAX_RECEIPTS { return None; }
    var left, bytes := rows, 0;
    while left != map[]
      invariant forall id :: id in left ==> id in rows && left[id] == rows[id]
      invariant forall id :: id in rows && id !in left ==> RowSound(id, rows[id])
      invariant bytes + TotalBytes(left) == TotalBytes(rows)
      decreases |left|
    {
      var id :| id in left;
      if !RowSound(id, left[id]) { return None; }
      TotalBytesWithout(left, id);
      bytes := bytes + |left[id].payload|;
      left := left - {id};
    }
    if bytes > MAX_RECEIPT_STORE_BYTES { return None; }
    inventory := Some((|rows|, bytes));
  }

  /** Insert what is new, with running totals; stop at the first contradiction
      or the first row over a cap. */
  method AddRows(rows: map<string, Stored>, batch: map<string, Stored>, inventory: (nat, nat))
    returns (added: Option<map<string, Stored>>)
    requires inventory == (|rows|, TotalBytes(rows)) && Fits(rows)
    ensures added.Some? <==> Consistent(rows, batch) && Fits(rows + batch)
    ensures added.Some? ==> added.value == rows + batch
  {
    var all, count, bytes := rows, inventory.0, inventory.1;
    var todo := batch.Keys;
    PartEnds(rows, batch);
    while todo != {}
      invariant todo <= batch.Keys && Running(rows, batch, todo, all, count, bytes)
    {
      var id :| id in todo;
      var ok;
      ok, all, count, bytes := AddRow(rows, batch, todo, id, all, count, bytes);
      if !ok { return None; }
      todo := todo - {id};
    }
    added := Some(all);
  }

  /** The store after the rows not in `todo`, and its running totals. */
  ghost predicate Running(rows: map<string, Stored>, batch: map<string, Stored>, todo: set<string>,
                          all: map<string, Stored>, count: nat, bytes: nat) {
    && all == rows + Part(batch, todo) && Consistent(rows, Part(batch, todo))
    && count == |all| && bytes == TotalBytes(all) && Fits(all)
  }

  /** Insert one row unless it is there already; refuse a contradiction or a row
      over a cap, which the whole batch would then also be. */
  method AddRow(ghost rows: map<string, Stored>, batch: map<string, Stored>, ghost todo: set<string>, id: string,
                all: map<string, Stored>, count: nat, bytes: nat)
    returns (ok: bool, all': map<string, Stored>, count': nat, bytes': nat)
    requires id in todo && todo <= batch.Keys && Running(rows, batch, todo, all, count, bytes)
    ensures ok ==> Running(rows, batch, todo - {id}, all', count', bytes')
    ensures !ok ==> !(Consistent(rows, batch) && Fits(rows + batch))
  {
    AddStep(rows, batch, todo, id);
    ok, all', count', bytes' := true, all, count, bytes;
    if id in all {
      ok := all[id] == batch[id];
    } else {
      all', count', bytes' := all[id := batch[id]], count + 1, bytes + |batch[id].payload|;
      ok := count' <= MAX_RECEIPTS && bytes' <= MAX_RECEIPT_STORE_BYTES;
    }
  }

  lemma PartEnds(rows: map<string, Stored>, batch: map<string, Stored>)
    ensures rows + Part(batch, batch.Keys) == rows && Consistent(rows, Part(batch, batch.Keys))
    ensures Part(batch, {}) == batch
  {
  }

  /** What one row does to the running store and its totals. */
  lemma AddStep(rows: map<string, Stored>, batch: map<string, Stored>, todo: set<string>, id: string)
    requires id in todo && todo <= batch.Keys && Consistent(rows, Part(batch, todo))
    ensures var all, next := rows + Part(batch, todo), rows + Part(batch, todo - {id});
            if id in all then
              if all[id] == batch[id] then next == all && Consistent(rows, Part(batch, todo - {id}))
              else !Consistent(rows, batch)
            else
              && next == all[id := batch[id]] && Consistent(rows, Part(batch, todo - {id}))
              && |next| == |all| + 1 && TotalBytes(next) == TotalBytes(all) + |batch[id].payload|
              && (!Fits(next) ==> !(Consistent(rows, batch) && Fits(rows + batch)))
  {
    PartStep(rows, batch, todo, id);
    PartFits(rows, batch, todo - {id});
    if id !in rows { TotalBytesWith(rows + Part(batch, todo), id, batch[id]); }
  }

  /** The rows of a batch that have been handled. */
  function Part(batch: map<string, Stored>, todo: set<string>): map<string, Stored> {
    map id | id in batch && id !in todo :: batch[id]
  }

  lemma PartStep(rows: map<string, Stored>, batch: map<string, Stored>, todo: set<string>, id: string)
    requires id in todo && todo <= batch.Keys && Consistent(rows, Part(batch, todo))
    ensures id in rows + Part(batch, todo) <==> id in rows
    ensures var next := Part(batch, todo - {id});
            && (Consistent(rows, next) <==> (id in rows ==> rows[id] == batch[id]))
            && (id in rows && rows[id] == batch[id] ==> rows + next == rows + Part(batch, todo))
            && (id !in rows ==> rows + next == (rows + Part(batch, todo))[id := batch[id]])
  {
    var next := Part(batch, todo - {id});
    assert next == Part(batch, todo)[id := batch[id]];
  }

  /** Stopping early is never wrong: a batch that fits fits at every step. */
  lemma PartFits(rows: map<string, Stored>, batch: map<string, Stored>, todo: set<string>)
    ensures Consistent(rows, batch) ==> Consistent(rows, Part(batch, todo))
    ensures Consistent(rows, batch) && Fits(rows + batch) ==> Fits(rows + Part(batch, todo))
  {
    if Consistent(rows, batch) { TotalBytesGrows(rows + Part(batch, todo), rows + batch); }
  }

  // ---- Append-only, idempotent, within both caps ---------------------------------------------------

  /** A batch never changes a receipt the store already has; both caps hold; and
      the store stays sound, so that it can always be read and added to. */
  lemma PersistAppends(rows: map<string, Stored>, source: Source, receipts: seq<Receipt>)
    requires Persistable(rows, source, receipts)
    ensures var after := rows + Batch(receipts);
            && (forall id :: id in rows ==> id in after && after[id] == rows[id])
            && (forall id :: id in after <==> id in rows || Named(receipts, id))
            && (forall i :: 0 <= i < |receipts| ==> after[receipts[i].id] == RowOf(receipts[i]))
            && Sound(after)
  {
    var after := rows + Batch(receipts);
    forall i: nat | i < |receipts| ensures receipts[i].id in after && after[receipts[i].id] == RowOf(receipts[i]) {
      BatchValue(source, receipts, i);
    }
    forall id
      ensures id in after <==> id in rows || Named(receipts, id)
      ensures id in after ==> RowSound(id, after[id])
      ensures id in rows ==> after[id] == rows[id]
    {
      RowAfter(rows, source, receipts, id);
    }
  }

  lemma RowAfter(rows: map<string, Stored>, source: Source, receipts: seq<Receipt>, id: string)
    requires Consistent(rows, Batch(receipts)) && Agree(receipts)
    requires forall i :: 0 <= i < |receipts| ==> Acceptable(source, receipts[i])
    requires forall id :: id in rows ==> RowSound(id, rows[id])
    ensures var after := rows + Batch(receipts);
            && (id in after <==> id in rows || Named(receipts, id))
            && (id in after ==> RowSound(id, after[id])) && (id in rows ==> after[id] == rows[id])
  {
    BatchKeys(receipts, id);
    if Named(receipts, id) {
      var i: nat :| i < |receipts| && receipts[i].id == id;
      BatchValue(source, receipts, i);
      assert Acceptable(source, receipts[i]);
    }
  }

  /** Persisting a batch again always succeeds and changes nothing. */
  lemma PersistAgain(rows: map<string, Stored>, source: Source, receipts: seq<Receipt>)
    requires Persistable(rows, source, receipts)
    ensures var after := rows + Batch(receipts);
            Persistable(after, source, receipts) && after + Batch(receipts) == after
  {
    PersistAppends(rows, source, receipts);
    AbsorbedAgain(rows, Batch(receipts));
  }

  lemma AbsorbedAgain(rows: map<string, Stored>, batch: map<string, Stored>)
    ensures rows + batch + batch == rows + batch && Consistent(rows + batch, batch)
  {
  }

  datatype Attempt = Attempt(source: Source, receipts: seq<Receipt>, commits: bool)

  ghost function AfterAll(rows: map<string, Stored>, attempts: seq<Attempt>): map<string, Stored> {
    if attempts == [] then rows
    else
      var before := AfterAll(rows, attempts[..|attempts| - 1]);
      var a := attempts[|attempts| - 1];
      if a.commits && Persistable(before, a.source, a.receipts) then before + Batch(a.receipts) else before
  }

  /** Over any sequence of attempts, accepted or not, what was retained stays as
      it was and the store stays sound. */
  lemma {:induction false} RetainedForever(rows: map<string, Stored>, attempts: seq<Attempt>)
    requires Sound(rows)
    ensures var after := AfterAll(rows, attempts);
            Sound(after) && forall id :: id in rows ==> id in after && after[id] == rows[id]
  {
    if attempts != [] {
      var before := AfterAll(rows, attempts[..|attempts| - 1]);
      var a := attempts[|attempts| - 1];
      RetainedForever(rows, attempts[..|attempts| - 1]);
      if a.commits && Persistable(before, a.source, a.receipts) {
        PersistAppends(before, a.source, a.receipts);
      }
    }
  }

  // ---- What is accepted, in plain terms ----------------------------------------------------------

  /** A batch is accepted when it is bounded and every receipt is the source's own,
      captured, readable and within its sizes; one id names one payload; and all
      payloads fit the store. */
  lemma BatchAcceptedIff(source: Source, receipts: seq<Receipt>)
    ensures BatchAccepted(source, receipts) <==>
            && |receipts| <= 100_000
            && (forall i :: 0 <= i < |receipts| ==>
                  var receipt := receipts[i];
                  && receipt.sourceId == source.id && receipt.repo == source.repo
                  && receipt.captured && receipt.readable
                  && 1 <= |receipt.id| <= 256 && |receipt.sourceId| == 36 && 1 <= |receipt.repo| <= 256
                  && 1 <= |receipt.payload| <= 131_072)
            && (forall i, j :: 0 <= i < |receipts| && 0 <= j < |receipts| && receipts[i].id == receipts[j].id ==>
                  receipts[i].payload == receipts[j].payload)
            && TotalBytes(Batch(receipts)) <= 67_108_864
  {
  }

  /** Stored rows are sound when both totals and every row are within bounds. */
  lemma SoundIff(rows: map<string, Stored>)
    ensures Sound(rows) <==>
            && |rows| <= 100_000 && TotalBytes(rows) <= 67_108_864
            && forall id :: id in rows ==>
                 && 1 <= |id| <= 256 && |rows[id].sourceId| == 36 && 1 <= |rows[id].repo| <= 256
                 && 1 <= |rows[id].payload| <= 131_072
  {
  }

  /** No stored id holds anything but what the batch states under it. */
  ghost predicate NothingElse(rows: map<string, Stored>, receipts: seq<Receipt>) {
    forall i :: 0 <= i < |receipts| && receipts[i].id in rows ==>
      rows[receipts[i].id] == Stored(receipts[i].sourceId, receipts[i].repo, receipts[i].payload)
  }

  lemma ConsistentIff(rows: map<string, Stored>, source: Source, receipts: seq<Receipt>)
    requires Agree(receipts) && forall i :: 0 <= i < |receipts| ==> Acceptable(source, receipts[i])
    ensures Consistent(rows, Batch(receipts)) <==> NothingElse(rows, receipts)
  {
    var batch := Batch(receipts);
    if NothingElse(rows, receipts) {
      forall id | id in batch && id in rows ensures rows[id] == batch[id] {
        BatchKeys(receipts, id);
        var i: nat :| i < |receipts| && receipts[i].id == id;
        BatchValue(source, receipts, i);
      }
    }
    if Consistent(rows, batch) {
      forall i: nat | i < |receipts| && receipts[i].id in rows
        ensures rows[receipts[i].id] == Stored(receipts[i].sourceId, receipts[i].repo, receipts[i].payload)
      {
        BatchValue(source, receipts, i);
      }
    }
  }

  /** An accepted batch persists on sound rows exactly when no stored id holds
      something else and both caps keep. */
  lemma PersistableIff(rows: map<string, Stored>, source: Source, receipts: seq<Receipt>)
    requires BatchAccepted(source, receipts) && Sound(rows)
    ensures Persistable(rows, source, receipts) <==>
            && NothingElse(rows, receipts)
            && |rows + Batch(receipts)| <= 100_000 && TotalBytes(rows + Batch(receipts)) <= 67_108_864
  {
    ConsistentIff(rows, source, receipts);
  }
}
