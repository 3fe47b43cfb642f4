/** The deletion of frozen row sets, one model after the other. */
module DeletionRun {
  import opened Prelude
  import opened Deletion
  import DeletionExact

  /** The keys of a remaining row: those set to null on deletion no longer refer to a removed row. */
  function Nullified(keys: Keys, removed: set<RowId>): Keys {
    map r | r in keys && !(r.onDelete == SetNull && keys[r] in removed) :: keys[r]
  }

  /** What remains after some rows are removed. */
  function Without(db: Database, removed: set<RowId>): Database {
    map q | q in db && q !in removed :: Nullified(db[q], removed)
  }

  /** After a deletion no key leads to a row that is gone, and every other key of every remaining row is as it was. */
  lemma NothingDangles(db: Database, rows: set<RowId>, q: RowId)
    requires rows <= db.Keys
    ensures var removed := Closure(db, rows);
      && (q in Without(db, removed) <==> q in db && q !in removed)
      && (q in Without(db, removed) ==>
            forall r :: r in Without(db, removed)[q] <==> r in db[q] && db[q][r] !in removed)
      && (q in Without(db, removed) ==> forall r :: r in Without(db, removed)[q] ==> Without(db, removed)[q][r] == db[q][r])
  {
    var removed := Closure(db, rows);
    if q in Without(db, removed) {
      assert q !in Dependents(db, removed);
    }
  }

  /** The sum of two counts, model by model. */
  function Update(a: map<Model, nat>, b: map<Model, nat>): map<Model, nat> {
    map m | m in a.Keys + b.Keys :: Count(a, m) + Count(b, m)
  }

  lemma CountsOne(q: RowId)
    ensures Counts(map[q.model := 1], {q})
  {
    forall m
      ensures OfModel({q}, m) == if m == q.model then {q} else {}
    {
    }
  }

  method Tally(rows: set<RowId>) returns (counts: map<Model, nat>)
    ensures Counts(counts, rows)
  {
    counts := map[];
    var todo := rows;
    ghost var done: set<RowId> := {};
    while todo != {}
      invariant done !! todo && done + todo == rows
      invariant Counts(counts, done)
    {
      var q :| q in todo;
      CountsOne(q);
      CountsAdd(done, {q}, counts, map[q.model := 1]);
      counts := Update(counts, map[q.model := 1]);
      todo, done := todo - {q}, done + {q};
    }
  }

  /** The sum of the counts of some rows is the number of these rows. */
  method Total(counts: map<Model, nat>, ghost rows: set<RowId>) returns (total: nat)
    requires Counts(counts, rows)
    ensures total == |rows|
  {
    total := 0;
    var todo := counts.Keys;
    ghost var left := rows;
    while todo != {}
      invariant todo <= counts.Keys && left <= rows
      invariant left == set q | q in rows && (q.model in todo || q.model !in counts)
      invariant total + |left| == |rows|
    {
      var m :| m in todo;
      assert left == OfModel(rows, m) + (set q | q in left && q.model != m);
      total := total + counts[m];
      todo := todo - {m};
      left := set q | q in left && q.model != m;
    }
    forall q | q in rows
      ensures q.model in counts
    {
      assert q in OfModel(rows, q.model);
    }
    assert left == {};
  }

  lemma CountsAdd(a: set<RowId>, b: set<RowId>, first: map<Model, nat>, second: map<Model, nat>)
    requires a !! b && Counts(first, a) && Counts(second, b)
    ensures Counts(Update(first, second), a + b)
  {
    forall m
      ensures Count(Update(first, second), m) == |OfModel(a + b, m)|
    {
      assert OfModel(a + b, m) == OfModel(a, m) + OfModel(b, m);
    }
  }

  /** Deleting more rows from what an earlier deletion left removes, in all, what one deletion of both would have removed. */
  lemma DeletionsJoin(db: Database, base: set<RowId>, ids: set<RowId>)
    requires base <= db.Keys && ids <= db.Keys
    ensures var removed := Closure(db, base);
      var left := Without(db, removed);
      var more := Closure(left, ids * left.Keys);
      && removed !! more && removed + more == Closure(db, base + ids)
      && Without(left, more) == Without(db, removed + more)
  {
    var removed := Closure(db, base);
    var left := Without(db, removed);
    var more := Closure(left, ids * left.Keys);
    var all := Closure(db, base + ids);
    NothingElseGoes(db, removed, ids * left.Keys, all);
    NothingStays(db, removed, more);
    assert base + ids <= removed + more;
    NullifiedTwice(db, removed, more);
  }

  lemma NothingElseGoes(db: Database, removed: set<RowId>, ids: set<RowId>, all: set<RowId>)
    requires ids <= Without(db, removed).Keys && ids <= all && Closed(db, all)
    ensures Closure(Without(db, removed), ids) <= all
  {
    var left := Without(db, removed);
    forall q | q in Dependents(left, all)
      ensures q in all
    {
      assert q in Dependents(db, all);
    }
  }

  lemma NothingStays(db: Database, removed: set<RowId>, more: set<RowId>)
    requires Closed(db, removed) && Closed(Without(db, removed), more)
    ensures Closed(db, removed + more)
  {
    forall q | q in Dependents(db, removed + more)
      ensures q in removed + more
    {
      var r :| r in db[q] && r.onDelete == Cascade && db[q][r] in removed + more;
      if db[q][r] in removed {
        assert q in Dependents(db, removed);
      } else if q !in removed {
        assert q in Dependents(Without(db, removed), more);
      }
    }
  }

  lemma NullifiedTwice(db: Database, removed: set<RowId>, more: set<RowId>)
    ensures Without(Without(db, removed), more) == Without(db, removed + more)
  {
    forall q | q in db && q !in removed + more
      ensures Nullified(Nullified(db[q], removed), more) == Nullified(db[q], removed + more)
    {
    }
  }

  lemma NothingRemoved(db: Database)
    ensures Closure(db, {}) == {} && Without(db, {}) == db
  {
    assert Dependents(db, {}) == {};
    forall q | q in db
      ensures Nullified(db[q], {}) == db[q]
    {
    }
  }

  lemma {:induction false} BaseNext(scopes: seq<Scope>, n: nat)
    requires n < |scopes|
    ensures Base(scopes[..n + 1]) == Base(scopes[..n]) + scopes[n].rows <= Base(scopes)
    decreases |scopes|
  {
    assert scopes[..n + 1][..n] == scopes[..n];
    if n + 1 < |scopes| {
      BaseNext(scopes[..|scopes| - 1], n);
      assert scopes[..|scopes| - 1][..n + 1] == scopes[..n + 1];
    } else {
      assert scopes[..n + 1] == scopes;
    }
  }

  /** The tables are those before, without all that depends on the base rows deleted so far. */
  ghost predicate Progress(before: Database, base: set<RowId>, removed: set<RowId>, now: Database) {
    base <= before.Keys && removed == Closure(before, base) && now == Without(before, removed)
  }

  lemma Proceed(before: Database, base: set<RowId>, removed: set<RowId>, now: Database, ids: set<RowId>)
    requires Progress(before, base, removed, now) && ids <= before.Keys
    ensures var more := Closure(now, ids * now.Keys);
      removed !! more && Progress(before, base + ids, removed + more, Without(now, more))
    ensures ids == {} ==> Closure(now, ids * now.Keys) == {} && Without(now, {}) == now
  {
    DeletionsJoin(before, base, ids);
    NothingRemoved(now);
  }

  class Tables {
    var db: Database

    constructor (db: Database)
      ensures this.db == db
    {
      this.db := db;
    }

    /** Deletes rows and their dependents as far as they still exist, and counts the deleted rows of each model. */
    method Delete(ids: set<RowId>) returns (deleted: map<Model, nat>)
      modifies this
      ensures var removed := Closure(old(db), ids * old(db).Keys);
        && db == Without(old(db), removed)
        && Counts(deleted, removed)
    {
      var removed := set q | q in ids && q in db;
      ghost var base := removed;
      assert base == ids * db.Keys;
      while !(Dependents(db, removed) <= removed)
        invariant base <= removed <= Closure(db, base)
        decreases db.Keys - removed
      {
        assert Dependents(db, removed) <= Dependents(db, Closure(db, base));
        removed := removed + Dependents(db, removed);
      }
      assert Closed(db, removed);
      assert removed == Closure(db, base);
      deleted := Tally(removed);
      db := Without(db, removed);
    }

    /** Deletes the frozen rows of every scope in turn; the result is that of one deletion of all of them. */
    method DeletePanels(scopes: seq<Scope>) returns (total: nat, totals: map<Model, nat>)
      requires Base(scopes) <= db.Keys
      modifies this
      ensures var removed := Closure(old(db), Base(scopes));
        && db == Without(old(db), removed)
        && total == |removed|
        && Counts(totals, removed)
    {
      totals := map[];
      ghost var before, base, removed := db, {}, {};
      NothingRemoved(db);
      for i := 0 to |scopes|
        invariant base == Base(scopes[..i]) && Progress(before, base, removed, db) && Counts(totals, removed)
      {
        var ids := scopes[i].rows;
        ghost var more := Closure(db, ids * db.Keys);
        BaseNext(scopes, i);
        Proceed(before, base, removed, db, ids);
        if ids != {} {
          var deleted := Delete(ids);
          CountsAdd(removed, more, totals, deleted);
          totals := Update(totals, deleted);
        } else {
          assert removed + more == removed;
        }
        base, removed := base + ids, removed + more;
      }
      assert scopes[..|scopes|] == scopes;
      total := Total(totals, removed);
    }
  }

  /** Without cascade cycles the preview shows, model by model, the numbers that the deletion then reports. */
  lemma PreviewAgrees(schema: Schema, db: Database, scopes: seq<Scope>, counts: map<Model, nat>, totals: map<Model, nat>)
    requires Scoped(schema, db, scopes) && DeletionExact.Typed(schema, db) && DeletionExact.Acyclic(schema)
    requires Base(scopes) <= db.Keys && Counts(counts, ReachAll(schema, db, scopes)) && Counts(totals, Closure(db, Base(scopes)))
    ensures forall m :: Count(counts, m) == Count(totals, m)
  {
    DeletionExact.AcyclicIsExact(schema, db, scopes);
  }

  /** In any case, the preview never shows more than the deletion reports. */
  lemma PreviewNeverOverstates(schema: Schema, db: Database, scopes: seq<Scope>, counts: map<Model, nat>, totals: map<Model, nat>)
    requires Scoped(schema, db, scopes)
    requires Base(scopes) <= db.Keys && Counts(counts, ReachAll(schema, db, scopes)) && Counts(totals, Closure(db, Base(scopes)))
    ensures forall m :: Count(counts, m) <= Count(totals, m)
  {
    var listed, removed := ReachAll(schema, db, scopes), Closure(db, Base(scopes));
    DeletionExact.PreviewIsPartOfDeletion(schema, db, scopes);
    forall m
      ensures |OfModel(listed, m)| <= |OfModel(removed, m)|
    {
      SubsetSize(OfModel(listed, m), OfModel(removed, m));
    }
  }
}
