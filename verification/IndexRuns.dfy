// Runs of everything that writes the topology tables, in any mix, and whether
// resource_ip stays in step with resource_summary throughout.
module IndexRuns {
  import opened Text
  import opened Tables
  import opened ResourceIp
  import opened Journal

  datatype Change =
    | Names(names: seq<NameRow>)                                  // upsert_name_rows
    | One(resource: ResourceRow)                                  // upsert_resource
    | Batch(resources: seq<ResourceRow>)                          // upsert_resource_rows
    | Single(name: string, answer: Answer, height: int, at: string)  // index_one_name
    | Delete(deleted: string)                                     // a names row and what hangs on it
    | Rebuild                                                     // rebuild of resource_ip
    | NextBlock(block: Block, keep: int)                          // index_changed_names
    | RollBack(to: int, when: string)                             // rollback_to_height

  function UpsertNames(t: Tables, rows: seq<NameRow>): Tables {
    if rows == [] then t else UpsertName(UpsertNames(t, rows[..|rows| - 1]), rows[|rows| - 1])
  }

  predicate AllKnown(t: Tables, rows: seq<ResourceRow>) { forall i :: 0 <= i < |rows| ==> rows[i].name in t.names }

  // A row that violates a foreign key raises, and its transaction leaves no
  // trace.
  ghost function Apply(db: Db, c: Change): Db {
    match c
    case Names(rows) => db.(t := UpsertNames(db.t, rows))
    case One(row) => if row.name in db.t.names then db.(t := UpsertResource(db.t, row)) else db
    case Batch(rows) => if AllKnown(db.t, rows) then db.(t := UpsertBatch(db.t, rows)) else db
    case Single(name, answer, height, at) => db.(t := IndexOneName(db.t, name, answer, height, at))
    case Delete(n) => db.(t := DeleteName(db.t, n))
    case Rebuild => db.(t := db.t.(ips := FlattenAll(db.t.resources)))
    case NextBlock(b, keep) => IndexBlock(db, b, keep)
    case RollBack(h, at) => Rollback(db, h, at)
  }

  // Sound before and after each change.
  ghost predicate SoundThroughout(db: Db, changes: seq<Change>)
    decreases |changes|
  {
    Sound(db) && (changes == [] || SoundThroughout(Apply(db, changes[0]), changes[1..]))
  }

  // No batch that is stored repeats a name with an address the last row of that
  // name lacks.
  ghost predicate BatchesAddNothing(db: Db, changes: seq<Change>)
    decreases |changes|
  {
    changes == []
    || (&& (changes[0].Batch? && AllKnown(db.t, changes[0].resources) ==> RepeatsAddNothing(changes[0].resources))
        && BatchesAddNothing(Apply(db, changes[0]), changes[1..]))
  }

  lemma {:induction false} UpsertNamesKeepsConsistent(t: Tables, rows: seq<NameRow>)
    requires Consistent(t)
    ensures Consistent(UpsertNames(t, rows))
  {
    if rows != [] {
      UpsertNamesKeepsConsistent(t, rows[..|rows| - 1]);
      UpsertNameKeepsConsistent(UpsertNames(t, rows[..|rows| - 1]), rows[|rows| - 1]);
    }
  }

  // Every change but a batch keeps the tables sound.
  lemma {:induction false} OthersKeepSound(db: Db, c: Change)
    requires Sound(db) && !c.Batch?
    ensures Sound(Apply(db, c))
  {
    match c
    case Names(rows) => UpsertNamesKeepsConsistent(db.t, rows);
    case One(row) => if row.name in db.t.names { UpsertResourceKeepsConsistent(db.t, row); }
    case Single(name, answer, height, at) => IndexOneNameLook(db.t, name, answer, height, at);
    case Delete(n) => DeleteNameKeepsConsistent(db.t, n);
    case Rebuild => IndexInStepIsFlatten(db.t);
    case NextBlock(b, keep) => IndexBlockSound(db, b, keep);
    case RollBack(h, at) => RollbackSound(db, h, at);
  }

  lemma {:induction false} BatchKeepsSoundIff(db: Db, c: Change)
    requires Sound(db) && c.Batch?
    ensures Sound(Apply(db, c)) <==> (AllKnown(db.t, c.resources) ==> RepeatsAddNothing(c.resources))
  {
    if AllKnown(db.t, c.resources) { BatchInStepIff(db.t, c.resources); }
  }

  // Over any run of names, single and batched upserts, deletes, rebuilds,
  // blocks and rollbacks, the foreign keys hold and resource_ip is the
  // flattening of resource_summary at every point exactly if no stored batch
  // repeats a name with an address its last row lacks.
  lemma {:induction false} InStepThroughoutIff(db: Db, changes: seq<Change>)
    requires Sound(db)
    ensures SoundThroughout(db, changes) <==> BatchesAddNothing(db, changes)
    decreases |changes|
  {
    if changes != [] {
      var c := changes[0];
      if c.Batch? { BatchKeepsSoundIff(db, c); } else { OthersKeepSound(db, c); }
      if Sound(Apply(db, c)) { InStepThroughoutIff(Apply(db, c), changes[1..]); }
    }
  }
}
