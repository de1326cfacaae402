/** `generate_embeddings_incrementally`: one expiry cleanup, then batches of
    `batch_embed_tenders` while the count query reports tenders without a
    vector, with an optional cap on batches and a stop after a batch that
    embeds nothing. Sleeps are counted, not performed. */
module Incremental {
  import opened Wrappers
  import opened Dates
  import opened Models
  import opened Embeddings

  const DefaultBatchSize: nat := 50
  const DefaultDelay: nat := 2

  /** `get_unprocessed_count` at `now`: tenders without a vector whose deadline
      is null or after `now`. */
  function UnprocessedCount(db: Db, now: DateTime): nat {
    |set id | id in db.tenders && Eligible(db, id, now)|
  }

  /** The count query and the selection query agree when they use the same
      clock: the count is the number of candidates. */
  lemma CountMatchesCandidates(db: Db, rows: seq<string>, now: DateTime)
    requires Enumerates(rows, db.tenders.Keys)
    ensures UnprocessedCount(db, now) == |Candidates(db, rows, now)|
  {
    var c := Candidates(db, rows, now);
    assert Distinct(rows);
    DistinctCard(c);
    assert (set x | x in c) == (set id | id in db.tenders && Eligible(db, id, now)) by {
      forall id | id in db.tenders && Eligible(db, id, now) ensures id in c {
        var i :| 0 <= i < |rows| && rows[i] == id;
      }
    }
  }

  /** The outcome of a run: the vectors the cleanup removed, the per-batch
      counts (their sum is returned), the sleeps between batches, whether the
      run stopped after a batch that embedded nothing, and the database. */
  datatype Outcome = Outcome(
    removed: nat, perBatch: seq<nat>, sleeps: nat, stalled: bool, db: Db)

  function Sum(s: seq<nat>): nat {
    if s == [] then 0 else Sum(s[..|s| - 1]) + s[|s| - 1]
  }

  /** May another batch run after `batches` batches? */
  predicate WithinBudget(batches: nat, maxBatches: Option<nat>) {
    maxBatches.None? || batches < maxBatches.value
  }

  lemma KeysGained(tenders: set<string>, before: set<string>, after: set<string>, gained: nat)
    requires before <= after && after - before <= tenders && |after| == |before| + gained
    ensures |tenders - after| + gained == |tenders - before|
  {
    var added := after - before;
    assert after == before + added && before !! added;
    assert tenders - before == (tenders - after) + added;
    assert (tenders - after) !! added;
  }

  /** One batch of a driver that reports what its commits stored: each stored
      vector takes one tender off the set of those without a vector, and with
      a reliable service asked for the column's dimension a batch stores
      nothing only when no tender is eligible. */
  method StoredBatch(db: Db, embed: Provider, textOf: Tender -> string, rows: seq<string>,
                     now: DateTime, limit: nat, dim: nat) returns (r: Tally)
    requires Enumerates(rows, db.tenders.Keys) && Consistent(db)
    ensures r.db.tenders == db.tenders && r.db.column == db.column && Consistent(r.db)
    ensures |r.db.vectors| == |db.vectors| + r.persisted
    ensures |r.db.tenders.Keys - r.db.vectors.Keys| + r.persisted == |db.tenders.Keys - db.vectors.Keys|
    ensures Reliable(embed) && db.column.Sized? && dim == db.column.dim && r.persisted == 0 ==>
      UnprocessedCount(r.db, now) == 0
  {
    StoredBatchFacts(db, embed, textOf, rows, now, limit, dim);
    r := BatchEmbed(db, embed, textOf, rows, now, limit, dim);
  }

  lemma StoredBatchFacts(db: Db, embed: Provider, textOf: Tender -> string, rows: seq<string>,
                         now: DateTime, limit: nat, dim: nat)
    requires Enumerates(rows, db.tenders.Keys) && Consistent(db)
    ensures var t := BatchEmbed(db, embed, textOf, rows, now, limit, dim);
      && |t.db.tenders.Keys - t.db.vectors.Keys| + t.persisted == |db.tenders.Keys - db.vectors.Keys|
      && (Reliable(embed) && db.column.Sized? && dim == db.column.dim && t.persisted == 0 ==>
          UnprocessedCount(t.db, now) == 0)
  {
    var t := BatchEmbed(db, embed, textOf, rows, now, limit, dim);
    assert t.db.vectors.Keys - db.vectors.Keys <= db.tenders.Keys by {
      forall k | k in t.db.vectors.Keys - db.vectors.Keys ensures k in db.tenders {
        SelectionIsEligible(db, rows, now, limit, k);
      }
    }
    KeysGained(db.tenders.Keys, db.vectors.Keys, t.db.vectors.Keys, t.persisted);
    if Reliable(embed) && db.column.Sized? && dim == db.column.dim && t.persisted == 0 {
      BatchStoresEverythingWhenDimensionsAgree(db, embed, textOf, rows, now, limit);
      CountMatchesCandidates(db, rows, now);
      assert t.db.vectors.Keys == db.vectors.Keys by {
        assert db.vectors.Keys <= t.db.vectors.Keys;
        SubsetSameSize(db.vectors.Keys, t.db.vectors.Keys);
      }
      assert (set id | id in t.db.tenders && Eligible(t.db, id, now))
        == (set id | id in db.tenders && Eligible(db, id, now));
    }
  }

  lemma SubsetSameSize<T>(a: set<T>, b: set<T>)
    requires a <= b && |a| == |b|
    ensures a == b
  {
    assert a - b == {} && a * b == a && a + b == b;
    assert |b - a| == 0;
  }

  lemma SumSnoc(s: seq<nat>, x: nat)
    ensures Sum(s + [x]) == Sum(s) + x
  {
    assert (s + [x])[..|s|] == s;
  }

  /** The state of the batch loop: the per-batch counts, the sleeps taken,
      whether a batch stored nothing, the last count and the database. */
  datatype Run = Run(perBatch: seq<nat>, sleeps: nat, stalled: bool, count: nat, db: Db)

  /** The loop condition: no stall yet, tenders still pending and the cap not reached. */
  predicate MoreBatches(r: Run, maxBatches: Option<nat>) {
    !r.stalled && r.count > 0 && WithinBudget(|r.perBatch|, maxBatches)
  }

  /** The loop invariant, from the database `db0` the loop started with;
      `ideal` says the service is reliable, asked for the column's dimension,
      and both queries use one clock. */
  ghost predicate Keeps(db0: Db, ideal: bool, countNow: DateTime, maxBatches: Option<nat>, r: Run) {
    && r.db.tenders == db0.tenders && r.db.column == db0.column && Consistent(r.db)
    && (maxBatches.Some? ==> |r.perBatch| <= maxBatches.value)
    && (r.perBatch == [] ==> r.sleeps == 0 && r.db == db0)
    && (r.perBatch != [] ==> r.sleeps + (if MoreBatches(r, maxBatches) then 0 else 1) == |r.perBatch|)
    && Sum(r.perBatch) + |db0.vectors| == |r.db.vectors|
    && (r.stalled <==> r.perBatch != [] && r.perBatch[|r.perBatch| - 1] == 0)
    && (!r.stalled ==> r.count == UnprocessedCount(r.db, countNow))
    && (UnprocessedCount(db0, countNow) == 0 ==> r.perBatch == [])
    && (r.stalled && ideal ==> UnprocessedCount(r.db, countNow) == 0)
  }

  /** What is left to do: the tenders without a vector, plus one until a stall. */
  function Pending(r: Run): nat {
    |r.db.tenders.Keys - r.db.vectors.Keys| + (if r.stalled then 0 else 1)
  }

  /** One pass of the loop body: a batch, its count appended, then either a
      stall or a fresh count and, when another batch will run, a sleep. */
  method Round(
    db0: Db, embed: Provider, textOf: Tender -> string, rows: seq<string>, countNow: DateTime,
    selectNow: DateTime, batchSize: nat, maxBatches: Option<nat>, dim: nat, ghost ideal: bool, cur: Run)
    returns (next: Run)
    requires Enumerates(rows, db0.tenders.Keys)
    requires ideal == (Reliable(embed) && db0.column.Sized? && dim == db0.column.dim && countNow == selectNow)
    requires Keeps(db0, ideal, countNow, maxBatches, cur) && MoreBatches(cur, maxBatches)
    ensures Keeps(db0, ideal, countNow, maxBatches, next)
    ensures |next.perBatch| == |cur.perBatch| + 1
    ensures |cur.db.vectors| + next.perBatch[|cur.perBatch|] == |next.db.vectors|
    ensures Pending(next) < Pending(cur)
  {
    var t := StoredBatch(cur.db, embed, textOf, rows, selectNow, batchSize, dim);
    var processed := t.persisted;
    SumSnoc(cur.perBatch, processed);
    var perBatch := cur.perBatch + [processed];
    if processed == 0 {
      next := Run(perBatch, cur.sleeps, true, cur.count, t.db);
    } else {
      var count := UnprocessedCount(t.db, countNow);
      var more := count > 0 && WithinBudget(|perBatch|, maxBatches);
      next := Run(perBatch, if more then cur.sleeps + 1 else cur.sleeps, false, count, t.db);
    }
  }

  lemma KeepsAtStart(db0: Db, ideal: bool, countNow: DateTime, maxBatches: Option<nat>)
    requires Consistent(db0)
    ensures Keeps(db0, ideal, countNow, maxBatches, Run([], 0, false, UnprocessedCount(db0, countNow), db0))
  {
  }

  /** When the loop stops, the invariant gives what the driver reports. */
  lemma KeepsAtEnd(db0: Db, ideal: bool, countNow: DateTime, maxBatches: Option<nat>, r: Run)
    requires Keeps(db0, ideal, countNow, maxBatches, r) && !MoreBatches(r, maxBatches)
    ensures r.db.tenders == db0.tenders && r.db.column == db0.column && Consistent(r.db)
    ensures maxBatches.Some? ==> |r.perBatch| <= maxBatches.value
    ensures UnprocessedCount(db0, countNow) == 0 ==> r.perBatch == []
    ensures r.sleeps == if r.perBatch == [] then 0 else |r.perBatch| - 1
    ensures Sum(r.perBatch) + |db0.vectors| == |r.db.vectors|
    ensures r.stalled <==> r.perBatch != [] && r.perBatch[|r.perBatch| - 1] == 0
    ensures !r.stalled ==> UnprocessedCount(r.db, countNow) == 0 || !WithinBudget(|r.perBatch|, maxBatches)
    ensures r.stalled && ideal ==> UnprocessedCount(r.db, countNow) == 0
  {
  }

  /** The batch loop of `generate_embeddings_incrementally`, from the count
      taken before it: batches run while the count is positive and the cap
      allows, each followed by a fresh count and, when another batch will run,
      a sleep; a batch that stores nothing ends the loop. */
  method EmbedUntilDone(
    db0: Db, embed: Provider, textOf: Tender -> string, rows: seq<string>,
    countNow: DateTime, selectNow: DateTime, batchSize: nat, maxBatches: Option<nat>, dim: nat)
    returns (perBatch: seq<nat>, sleeps: nat, stalled: bool, db: Db)
    requires Enumerates(rows, db0.tenders.Keys) && Consistent(db0)
    ensures db.tenders == db0.tenders && db.column == db0.column && Consistent(db)
    ensures maxBatches.Some? ==> |perBatch| <= maxBatches.value
    ensures UnprocessedCount(db0, countNow) == 0 ==> perBatch == []
    ensures sleeps == if perBatch == [] then 0 else |perBatch| - 1
    ensures Sum(perBatch) + |db0.vectors| == |db.vectors|
    ensures stalled <==> perBatch != [] && perBatch[|perBatch| - 1] == 0
    ensures !stalled ==> UnprocessedCount(db, countNow) == 0 || !WithinBudget(|perBatch|, maxBatches)
    ensures stalled && Reliable(embed) && db0.column.Sized? && dim == db0.column.dim && countNow == selectNow ==>
      UnprocessedCount(db, countNow) == 0
  {
    ghost var ideal := Reliable(embed) && db0.column.Sized? && dim == db0.column.dim && countNow == selectNow;
    var cur := Run([], 0, false, UnprocessedCount(db0, countNow), db0);
    KeepsAtStart(db0, ideal, countNow, maxBatches);
    while MoreBatches(cur, maxBatches)
      invariant Keeps(db0, ideal, countNow, maxBatches, cur)
      decreases Pending(cur)
    {
      cur := Round(db0, embed, textOf, rows, countNow, selectNow, batchSize, maxBatches, dim, ideal, cur);
    }
    KeepsAtEnd(db0, ideal, countNow, maxBatches, cur);
    perBatch, sleeps, stalled, db := cur.perBatch, cur.sleeps, cur.stalled, cur.db;
  }

  /** `generate_embeddings_incrementally(batch_size, delay, max_batches)` with
      each batch reporting the vectors its commits stored. `countNow` is the
      clock of the count query (Riyadh-aware in the source), `selectNow` the
      naive UTC clock of the cleanup and the selection; `dim` is the dimension
      each batch requests. With a reliable service asked for the column's
      dimension, one clock and no cap, no tender is left without a vector. */
  method GenerateIncrementally(
    db0: Db, embed: Provider, textOf: Tender -> string, rows: seq<string>,
    countNow: DateTime, selectNow: DateTime, batchSize: nat, maxBatches: Option<nat>, dim: nat)
    returns (out: Outcome)
    requires Enumerates(rows, db0.tenders.Keys) && db0.column.Sized? && Consistent(db0)
    ensures out.db.tenders == db0.tenders && out.db.column == db0.column && Consistent(out.db)
    ensures out.removed == Cleanup(db0, selectNow).0
    ensures maxBatches.Some? ==> |out.perBatch| <= maxBatches.value
    ensures UnprocessedCount(Cleanup(db0, selectNow).1, countNow) == 0 ==> out.perBatch == []
    ensures out.sleeps == if out.perBatch == [] then 0 else |out.perBatch| - 1
    ensures Sum(out.perBatch) + |Cleanup(db0, selectNow).1.vectors| == |out.db.vectors|
    ensures !out.stalled ==> UnprocessedCount(out.db, countNow) == 0 || !WithinBudget(|out.perBatch|, maxBatches)
    ensures Reliable(embed) && dim == db0.column.dim && countNow == selectNow && maxBatches.None? ==>
      UnprocessedCount(out.db, countNow) == 0
  {
    var (removed, cleaned) := Cleanup(db0, selectNow);
    var perBatch, sleeps, stalled, db :=
      EmbedUntilDone(cleaned, embed, textOf, rows, countNow, selectNow, batchSize, maxBatches, dim);
    out := Outcome(removed, perBatch, sleeps, stalled, db);
  }

  /** With a reliable service asked for the column's dimension, a batch stores
      every selected tender, and stores nothing only when nothing is eligible. */
  lemma BatchStoresEverythingWhenDimensionsAgree(
    db: Db, embed: Provider, textOf: Tender -> string, rows: seq<string>, now: DateTime, limit: nat)
    requires Enumerates(rows, db.tenders.Keys) && Reliable(embed) && db.column.Sized?
    ensures var r := BatchEmbed(db, embed, textOf, rows, now, limit, db.column.dim);
      && r.persisted == |Selection(db, rows, now, limit)|
      && (r.persisted == 0 ==> Candidates(db, rows, now) == [])
  {
    var selected := Selection(db, rows, now, limit);
    SelectionFresh(db, rows, now, limit);
    GroupsStoredWhenDimensionsAgree(db, embed, textOf, Chunks(selected, MaxBatchSize));
  }

  /** The state of the batch loop as written: the last count, the running
      total, the batches run, the sleeps taken, and the database. */
  datatype Loop = Loop(count: nat, total: nat, batches: nat, sleeps: nat, db: Db)

  /** One batch as the loop sees it: the tally of a `batch_embed_tenders`
      call on the current database. */
  type Step = Db -> Tally

  /** A batch never touches the tenders or the column. */
  ghost predicate KeepsTenders(step: Step) {
    forall db: Db :: step(db).db.tenders == db.tenders && step(db).db.column == db.column
  }

  /** The batch loop as written, over any batch `step`: each batch reports its
      `count`, and the loop stops at a count of 0 or when the cap is reached.
      `fuel` bounds the batches examined; `None` means the loop had not ended
      within it. */
  function LoopWith(fuel: nat, st: Loop, step: Step, countNow: DateTime, maxBatches: Option<nat>): (r: Option<Loop>)
    requires KeepsTenders(step)
    ensures r.Some? ==> st.batches <= r.value.batches
    ensures r.Some? ==> r.value.db.tenders == st.db.tenders && r.value.db.column == st.db.column
    ensures r.Some? && maxBatches.Some? && st.batches <= maxBatches.value ==> r.value.batches <= maxBatches.value
    decreases fuel
  {
    if !(st.count > 0 && WithinBudget(st.batches, maxBatches)) then Some(st)
    else if fuel == 0 then None
    else
      var t := step(st.db);
      if t.count == 0 then Some(st.(batches := st.batches + 1, db := t.db))
      else LoopWith(fuel - 1, AfterBatch(st, t, countNow, maxBatches), step, countNow, maxBatches)
  }

  /** One `batch_embed_tenders(limit)` call as written; it never touches the tenders. */
  function Batch(db: Db, embed: Provider, textOf: Tender -> string, rows: seq<string>,
                 now: DateTime, limit: nat): (t: Tally)
    requires Enumerates(rows, db.tenders.Keys)
    ensures t.db.tenders == db.tenders && t.db.column == db.column
    ensures t.persisted <= t.count <= |Selection(db, rows, now, limit)|
  {
    BatchEmbedTenders(db, embed, textOf, rows, now, limit)
  }

  /** `batch_embed_tenders(batch_size)` as the step of the loop. The rows
      enumerate the tenders the loop starts with, and no batch changes them. */
  function BatchStep(embed: Provider, textOf: Tender -> string, rows: seq<string>, selectNow: DateTime,
                     batchSize: nat): (step: Step)
    ensures KeepsTenders(step)
  {
    (db: Db) => if Enumerates(rows, db.tenders.Keys) then Batch(db, embed, textOf, rows, selectNow, batchSize)
                else Tally(0, 0, db)
  }

  /** The batch loop as written: each batch reports the `count` of
      `batch_embed_tenders`, which includes items whose commit raised. `fuel`
      bounds the batches examined; `None` means the loop had not ended within it. */
  function LoopAsWritten(fuel: nat, st: Loop, embed: Provider, textOf: Tender -> string, rows: seq<string>,
                         countNow: DateTime, selectNow: DateTime, batchSize: nat, maxBatches: Option<nat>)
    : (r: Option<Loop>)
    ensures r.Some? ==> st.batches <= r.value.batches
    ensures r.Some? ==> r.value.db.tenders == st.db.tenders && r.value.db.column == st.db.column
    ensures r.Some? && maxBatches.Some? && st.batches <= maxBatches.value ==> r.value.batches <= maxBatches.value
  {
    LoopWith(fuel, st, BatchStep(embed, textOf, rows, selectNow, batchSize), countNow, maxBatches)
  }

  /** The state after a batch that reported a positive count: the count is
      taken again and, when another batch will run, a sleep follows. */
  function AfterBatch(st: Loop, t: Tally, countNow: DateTime, maxBatches: Option<nat>): (next: Loop)
    ensures next.batches == st.batches + 1 && next.total == st.total + t.count && next.db == t.db
    ensures next.count == UnprocessedCount(t.db, countNow)
    ensures next.sleeps == st.sleeps + (if next.count > 0 && WithinBudget(next.batches, maxBatches) then 1 else 0)
  {
    var count := UnprocessedCount(t.db, countNow);
    var sleeps := if count > 0 && WithinBudget(st.batches + 1, maxBatches) then st.sleeps + 1 else st.sleeps;
    Loop(count, st.total + t.count, st.batches + 1, sleeps, t.db)
  }

  /** `generate_embeddings_incrementally` as written, within `fuel` batches:
      the expiry cleanup, the first count, then the loop. */
  function GenerateAsWritten(fuel: nat, db0: Db, embed: Provider, textOf: Tender -> string, rows: seq<string>,
                             countNow: DateTime, selectNow: DateTime, batchSize: nat, maxBatches: Option<nat>)
    : (r: Option<Loop>)
    requires Enumerates(rows, db0.tenders.Keys) && db0.column.Sized?
    ensures r.Some? && maxBatches.Some? ==> r.value.batches <= maxBatches.value
    ensures r.Some? ==> r.value.db.tenders == db0.tenders && r.value.db.column == db0.column
  {
    var cleaned := Cleanup(db0, selectNow).1;
    LoopAsWritten(fuel, Loop(UnprocessedCount(cleaned, countNow), 0, 0, 0, cleaned), embed, textOf, rows,
                  countNow, selectNow, batchSize, maxBatches)
  }

  /** With a batch cap the loop ends within one more step than the cap. */
  lemma {:induction false} LoopEndsUnderCap(fuel: nat, st: Loop, step: Step, countNow: DateTime, cap: nat)
    requires KeepsTenders(step)
    requires st.batches + fuel >= cap
    ensures LoopWith(fuel, st, step, countNow, Some(cap)).Some?
    decreases fuel
  {
    if st.count > 0 && WithinBudget(st.batches, Some(cap)) && step(st.db).count > 0 {
      LoopEndsUnderCap(fuel - 1, AfterBatch(st, step(st.db), countNow, Some(cap)), step, countNow, cap);
    }
  }

  /** `max_batches=m` bounds the run as written: it ends within `m` batches. */
  lemma GenerateAsWrittenEndsUnderCap(
    db0: Db, embed: Provider, textOf: Tender -> string, rows: seq<string>,
    countNow: DateTime, selectNow: DateTime, batchSize: nat, cap: nat)
    requires Enumerates(rows, db0.tenders.Keys) && db0.column.Sized?
    ensures var r := GenerateAsWritten(cap, db0, embed, textOf, rows, countNow, selectNow, batchSize, Some(cap));
      r.Some? && r.value.batches <= cap
  {
    var cleaned := Cleanup(db0, selectNow).1;
    LoopEndsUnderCap(cap, Loop(UnprocessedCount(cleaned, countNow), 0, 0, 0, cleaned),
                     BatchStep(embed, textOf, rows, selectNow, batchSize), countNow, cap);
  }

  /** A batch that counts something and stores nothing leaves the database
      and the count as they were: without a cap the loop never ends. */
  lemma {:induction false} LoopSpins(fuel: nat, st: Loop, step: Step, countNow: DateTime)
    requires KeepsTenders(step)
    requires st.count > 0 && UnprocessedCount(st.db, countNow) > 0
    requires step(st.db).count > 0 && step(st.db).db == st.db
    ensures LoopWith(fuel, st, step, countNow, None).None?
    decreases fuel
  {
    if fuel > 0 {
      LoopSpins(fuel - 1, AfterBatch(st, step(st.db), countNow, None), step, countNow);
    }
  }

  /** Against a column whose dimension is not 3072, a batch with candidates
      counts them all and leaves the database as it was. */
  lemma BatchSpins(db: Db, embed: Provider, textOf: Tender -> string, rows: seq<string>,
                   selectNow: DateTime, batchSize: nat)
    requires Enumerates(rows, db.tenders.Keys)
    requires Reliable(embed) && db.column.Sized? && db.column.dim != EmbeddingDimension
    requires Candidates(db, rows, selectNow) != []
    ensures var t := BatchStep(embed, textOf, rows, selectNow, batchSize)(db);
      t.count > 0 && t.db == db
  {
    BatchCountExceedsStored(db, embed, textOf, rows, selectNow, batchSize);
  }

  /** The run as written with `max_batches=None` against a column whose
      dimension is not 3072 does not end within any number of batches, as long
      as some tender is eligible at both clocks after the cleanup; the corrected
      driver (`GenerateIncrementally`) always ends. */
  lemma GenerateAsWrittenNeverEnds(
    fuel: nat, db0: Db, embed: Provider, textOf: Tender -> string, rows: seq<string>,
    countNow: DateTime, selectNow: DateTime, batchSize: nat)
    requires Enumerates(rows, db0.tenders.Keys) && db0.column.Sized?
    requires Reliable(embed) && db0.column.dim != EmbeddingDimension
    requires UnprocessedCount(Cleanup(db0, selectNow).1, countNow) > 0
    requires Candidates(Cleanup(db0, selectNow).1, rows, selectNow) != []
    ensures GenerateAsWritten(fuel, db0, embed, textOf, rows, countNow, selectNow, batchSize, None).None?
  {
    var cleaned := Cleanup(db0, selectNow).1;
    BatchSpins(cleaned, embed, textOf, rows, selectNow, batchSize);
    LoopSpins(fuel, Loop(UnprocessedCount(cleaned, countNow), 0, 0, 0, cleaned),
              BatchStep(embed, textOf, rows, selectNow, batchSize), countNow);
  }
}
