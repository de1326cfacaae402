/** The vector-size migration: `migrate_vector_size` (delete every vector, drop
    the `embedding` column, add it back as `vector(1536)`), then
    `regenerate_all_embeddings` (delete again, then an uncapped incremental
    run), sequenced by `run_migration`. Which statement raises is a parameter. */
module Migration {
  import opened Wrappers
  import opened Dates
  import opened Models
  import opened Embeddings
  import opened Incremental

  /** The dimension the migration gives the `embedding` column. */
  const MigratedDimension: nat := 1536

  /** The batch size `regenerate_all_embeddings` passes on. */
  const RegenerateBatchSize: nat := 50

  /** The statement of `migrate_vector_size` that the database or the
      connection makes raise, if any, whatever the state of the table. */
  datatype Fault = NoFault | FailDelete | FailDrop | FailAdd

  /** `migrate_vector_size`: three statements, each committed on its own, so a
      failure keeps the effect of the statements before it. The plain `DROP
      COLUMN` (no `IF EXISTS`) also raises whenever the column is already
      gone. The result is the returned flag and the database afterwards. */
  function MigrateVectorSize(db: Db, fault: Fault): (r: (bool, Db))
    ensures r.0 <==> fault == NoFault && db.column.Sized?
    ensures r.1.tenders == db.tenders
    ensures r.0 ==> r.1.vectors == map[] && r.1.column == Sized(MigratedDimension)
    ensures fault == FailDelete ==> r.1 == db
    ensures fault != FailDelete && (fault == FailDrop || db.column.Dropped?) ==>
      r.1.vectors == map[] && r.1.column == db.column
    ensures fault == FailAdd && db.column.Sized? ==> r.1.vectors == map[] && r.1.column == Dropped
    ensures Consistent(db) ==> Consistent(r.1)
  {
    var emptied := db.(vectors := map[]);
    var dropped := emptied.(column := Dropped);
    match fault
    case FailDelete => (false, db)
    case _ =>
      if fault == FailDrop || db.column.Dropped? then (false, emptied)
      else if fault == FailAdd then (false, dropped)
      else (true, dropped.(column := Sized(MigratedDimension)))
  }

  /** Re-running the migration after it stopped between the drop and the add
      cannot repair the column: the drop raises, and the column stays absent. */
  lemma RerunAfterFailedAddFails(db: Db, fault: Fault)
    requires db.column.Sized?
    ensures var after := MigrateVectorSize(db, FailAdd).1;
      && !MigrateVectorSize(after, fault).0
      && MigrateVectorSize(after, fault).1.column == Dropped
  {
  }

  /** `delete_all_embeddings`: the number of vectors before the delete and an
      empty vector table, or 0 and nothing changed when the delete raises. */
  function DeleteAllEmbeddings(db: Db, fails: bool): (r: (nat, Db))
    ensures !fails ==> r.0 == |db.vectors| && r.1 == db.(vectors := map[])
    ensures fails ==> r == (0, db)
    ensures Consistent(db) ==> Consistent(r.1)
  {
    if fails then (0, db) else (|db.vectors|, db.(vectors := map[]))
  }

  /** The result of `regenerate_all_embeddings`: what the delete reported and
      the incremental run's final state (its `total` is returned). */
  datatype Regenerated = Regenerated(deleted: nat, run: Loop)

  /** `regenerate_all_embeddings` as written, within `fuel` batches: the
      delete (whose failure does not stop it), then the incremental run with
      batch size 50 and no cap, every batch requesting 3072 entries. */
  function RegenerateAll(fuel: nat, db: Db, deleteFails: bool, embed: Provider, textOf: Tender -> string,
                         rows: seq<string>, countNow: DateTime, selectNow: DateTime): (r: Option<Regenerated>)
    requires Enumerates(rows, db.tenders.Keys) && db.column.Sized?
    ensures r.Some? ==> r.value.run.db.tenders == db.tenders && r.value.run.db.column == db.column
    ensures r.Some? ==> r.value.deleted == (if deleteFails then 0 else |db.vectors|)
  {
    var (deleted, cleared) := DeleteAllEmbeddings(db, deleteFails);
    var run := GenerateAsWritten(fuel, cleared, embed, textOf, rows, countNow, selectNow, RegenerateBatchSize, None);
    if run.None? then None else Some(Regenerated(deleted, run.value))
  }

  /** `run_migration` as written, within `fuel` batches: `false` when the
      migration fails (nothing is regenerated), otherwise `true` once the
      regeneration returns. */
  function RunMigration(fuel: nat, db: Db, fault: Fault, deleteFails: bool, embed: Provider,
                        textOf: Tender -> string, rows: seq<string>, countNow: DateTime, selectNow: DateTime)
    : (r: Option<(bool, Db)>)
    requires Enumerates(rows, db.tenders.Keys)
    ensures fault != NoFault || db.column.Dropped? ==> r == Some((false, MigrateVectorSize(db, fault).1))
    ensures r.Some? && r.value.0 ==> fault == NoFault && r.value.1.column == Sized(MigratedDimension)
  {
    var migrated := MigrateVectorSize(db, fault);
    if !migrated.0 then Some((false, migrated.1))
    else
      var regenerated := RegenerateAll(fuel, migrated.1, deleteFails, embed, textOf, rows, countNow, selectNow);
      if regenerated.None? then None else Some((true, regenerated.value.run.db))
  }

  /** A tender that is live at both clocks. */
  predicate LiveAtBoth(db: Db, id: string, countNow: DateTime, selectNow: DateTime) {
    id in db.tenders && Live(db.tenders[id], countNow) && Live(db.tenders[id], selectNow)
  }

  /** On a table with no vectors, a tender live at both clocks is counted by
      the count query and picked by the selection query. */
  lemma LiveTenderIsPending(db: Db, rows: seq<string>, id: string, countNow: DateTime, selectNow: DateTime)
    requires Enumerates(rows, db.tenders.Keys) && db.vectors == map[]
    requires LiveAtBoth(db, id, countNow, selectNow)
    ensures UnprocessedCount(db, countNow) > 0
    ensures Candidates(db, rows, selectNow) != []
  {
    var pending := set k | k in db.tenders && Eligible(db, k, countNow);
    assert id in pending;
    assert UnprocessedCount(db, countNow) == |pending|;
    var i :| 0 <= i < |rows| && rows[i] == id;
    assert Eligible(db, rows[i], selectNow);
  }

  /** After a successful migration the column holds 1536 entries while every
      request asks for 3072: with a reliable service and one tender live at
      both clocks, `run_migration` never returns. */
  lemma RunMigrationNeverEnds(
    fuel: nat, db: Db, deleteFails: bool, embed: Provider, textOf: Tender -> string,
    rows: seq<string>, countNow: DateTime, selectNow: DateTime, id: string)
    requires Enumerates(rows, db.tenders.Keys) && Reliable(embed) && db.column.Sized?
    requires LiveAtBoth(db, id, countNow, selectNow)
    ensures RunMigration(fuel, db, NoFault, deleteFails, embed, textOf, rows, countNow, selectNow).None?
  {
    var migrated := MigrateVectorSize(db, NoFault).1;
    var cleared := DeleteAllEmbeddings(migrated, deleteFails).1;
    assert cleared.vectors == map[] && cleared.column == Sized(MigratedDimension);
    var cleaned := Cleanup(cleared, selectNow).1;
    assert cleaned.vectors == map[];
    LiveTenderIsPending(cleaned, rows, id, countNow, selectNow);
    GenerateAsWrittenNeverEnds(fuel, cleared, embed, textOf, rows, countNow, selectNow, RegenerateBatchSize);
  }

  /** `run_migration` with each request asking for the column's dimension and
      each batch reporting what its commits stored: with a reliable service
      and one clock, a successful migration leaves every live tender with a
      vector of 1536 entries. */
  method RunMigrationCorrected(
    db: Db, fault: Fault, deleteFails: bool, embed: Provider, textOf: Tender -> string,
    rows: seq<string>, countNow: DateTime, selectNow: DateTime)
    returns (ok: bool, out: Db)
    requires Enumerates(rows, db.tenders.Keys) && Consistent(db)
    ensures ok <==> fault == NoFault && db.column.Sized?
    ensures !ok ==> out == MigrateVectorSize(db, fault).1
    ensures out.tenders == db.tenders && Consistent(out)
    ensures ok ==> out.column == Sized(MigratedDimension)
    ensures ok && Reliable(embed) && countNow == selectNow ==> UnprocessedCount(out, countNow) == 0
  {
    var migrated;
    ok, migrated := MigrateVectorSize(db, fault).0, MigrateVectorSize(db, fault).1;
    if !ok {
      out := migrated;
      return;
    }
    var (_, cleared) := DeleteAllEmbeddings(migrated, deleteFails);
    var run := GenerateIncrementally(cleared, embed, textOf, rows, countNow, selectNow,
                                     RegenerateBatchSize, None, cleared.column.dim);
    out := run.db;
  }
}
