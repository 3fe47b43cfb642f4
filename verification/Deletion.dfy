/** The preview of a panel deletion and the deletion itself (store/admin_deletion.py). */
module Deletion {
  import opened Prelude

  type Model = string

  datatype RowId = RowId(model: Model, pk: nat)

  datatype OnDelete = Cascade | SetNull

  // A foreign key of a child model to a parent model.
  datatype Relation = Relation(field: string, child: Model, parent: Model, onDelete: OnDelete)

  // The foreign keys of a row; a null key is absent.
  type Keys = map<Relation, RowId>

  type Database = map<RowId, Keys>

  // For each model, the relations by which other rows refer to its rows.
  type Schema = map<Model, seq<Relation>>

  /** Every relation leads to a model of the schema. */
  predicate WellFormed(schema: Schema) {
    forall m, i :: m in schema && 0 <= i < |schema[m]| ==> schema[m][i].child in schema
  }

  // ---------- What a deletion removes ----------

  /** The rows that a cascade takes along with the given ones. */
  function Dependents(db: Database, rows: set<RowId>): set<RowId> {
    set q | q in db && exists r :: r in db[q] && r.onDelete == Cascade && db[q][r] in rows
  }

  ghost predicate Closed(db: Database, rows: set<RowId>) {
    Dependents(db, rows) <= rows
  }

  /** The least set of rows that contains the given ones and everything a cascade takes along. */
  ghost function Closure(db: Database, rows: set<RowId>): (all: set<RowId>)
    requires rows <= db.Keys
    ensures rows <= all <= db.Keys && Closed(db, all)
    ensures forall s :: rows <= s && Closed(db, s) ==> all <= s
    decreases |db.Keys - rows|
  {
    var next := rows + Dependents(db, rows);
    if next == rows then rows
    else
      assert db.Keys - next < db.Keys - rows;
      SmallerSet(db.Keys - next, db.Keys - rows);
      Closure(db, next)
  }

  lemma SmallerSet<T>(a: set<T>, b: set<T>)
    requires a < b
    ensures |a| < |b|
  {
    var x :| x in b && x !in a;
    SubsetSize(a, b - {x});
  }

  // ---------- The preview ----------

  ghost predicate RowsOf(model: Model, rows: set<RowId>) {
    forall q :: q in rows ==> q.model == model
  }

  /** The rows of a relation's child that refer to the given ones. */
  function Children(db: Database, r: Relation, rows: set<RowId>): (children: set<RowId>)
    ensures RowsOf(r.child, children)
  {
    set q | q in db && q.model == r.child && r in db[q] && db[q][r] in rows
  }

  predicate Followed(r: Relation, ancestors: set<Model>) {
    r.onDelete == Cascade && r.child !in ancestors
  }

  /** All rows that the recursive visit lists from a query on. */
  ghost function Reach(schema: Schema, db: Database, model: Model, rows: set<RowId>, ancestors: set<Model>): set<RowId>
    requires WellFormed(schema) && model in schema && ancestors <= schema.Keys
    decreases |schema.Keys - ancestors|, model in ancestors, |schema[model]| + 1
  {
    rows + ReachBy(schema, db, model, rows, ancestors, |schema[model]|)
  }

  /** The part of it that the first n relations contribute. */
  ghost function ReachBy(schema: Schema, db: Database, model: Model, rows: set<RowId>, ancestors: set<Model>, n: nat): set<RowId>
    requires WellFormed(schema) && model in schema && ancestors <= schema.Keys && n <= |schema[model]|
    decreases |schema.Keys - ancestors|, model in ancestors, n
  {
    if n == 0 then {}
    else
      var r := schema[model][n - 1];
      VisitDecreases(schema, model, ancestors);
      ReachBy(schema, db, model, rows, ancestors, n - 1) + Following(schema, db, r, model, rows, ancestors)
  }

  /** What the visit lists for one relation of a model. */
  ghost function Following(schema: Schema, db: Database, r: Relation, model: Model, rows: set<RowId>, ancestors: set<Model>): set<RowId>
    requires WellFormed(schema) && model in schema && r.child in schema && ancestors <= schema.Keys
    decreases |schema.Keys - ancestors|, model in ancestors, 0
  {
    VisitDecreases(schema, model, ancestors);
    if Followed(r, ancestors) then Reach(schema, db, r.child, Children(db, r, rows), ancestors + {model}) else {}
  }

  /** Each visit either meets a new model or is one that its children cannot repeat. */
  lemma VisitDecreases(schema: Schema, model: Model, ancestors: set<Model>)
    requires model in schema && ancestors <= schema.Keys
    ensures ancestors + {model} <= schema.Keys
    ensures model in ancestors ==> ancestors + {model} == ancestors
    ensures model !in ancestors ==> |schema.Keys - (ancestors + {model})| < |schema.Keys - ancestors|
  {
    if model !in ancestors {
      SmallerSet(schema.Keys - (ancestors + {model}), schema.Keys - ancestors);
    } else {
      assert ancestors + {model} == ancestors;
    }
  }

  class Preview {
    var scopes: map<Model, seq<set<RowId>>>

    constructor ()
      ensures scopes == map[]
    {
      scopes := map[];
    }

    /** Lists the query of a model, then visits the dependents of its rows. */
    method Visit(schema: Schema, db: Database, model: Model, rows: set<RowId>, ancestors: set<Model>)
      requires WellFormed(schema) && model in schema && ancestors <= schema.Keys
      requires RowsOf(model, rows) && Filed(scopes)
      modifies this
      ensures Filed(scopes) && Listed(scopes) == Listed(old(scopes)) + Reach(schema, db, model, rows, ancestors)
      decreases |schema.Keys - ancestors|, model in ancestors
    {
      ListedMore(scopes, model, rows);
      scopes := scopes[model := (if model in scopes then scopes[model] else []) + [rows]];
      var relations := schema[model];
      assert rows + ReachBy(schema, db, model, rows, ancestors, 0) == rows;
      for i := 0 to |relations|
        invariant Filed(scopes)
        invariant Listed(scopes) == Listed(old(scopes)) + (rows + ReachBy(schema, db, model, rows, ancestors, i))
      {
        var r := relations[i];
        ghost var before := Listed(scopes);
        if Followed(r, ancestors) {
          VisitDecreases(schema, model, ancestors);
          Visit(schema, db, r.child, Children(db, r, rows), ancestors + {model});
        }
        VisitNext(schema, db, model, rows, ancestors, i, Listed(old(scopes)), before, Listed(scopes));
      }
    }
  }

  lemma VisitNext(schema: Schema, db: Database, model: Model, rows: set<RowId>, ancestors: set<Model>, i: nat,
                  start: set<RowId>, before: set<RowId>, after: set<RowId>)
    requires WellFormed(schema) && model in schema && ancestors <= schema.Keys && i < |schema[model]|
    requires before == start + (rows + ReachBy(schema, db, model, rows, ancestors, i))
    requires after == if Followed(schema[model][i], ancestors)
                      then before + Following(schema, db, schema[model][i], model, rows, ancestors) else before
    ensures after == start + (rows + ReachBy(schema, db, model, rows, ancestors, i + 1))
  {
    var found, more := ReachBy(schema, db, model, rows, ancestors, i), Following(schema, db, schema[model][i], model, rows, ancestors);
    assert ReachBy(schema, db, model, rows, ancestors, i + 1) == found + more;
    assert start + (rows + found) + more == start + (rows + (found + more)) && found + {} == found;
  }

  function OfModel(rows: set<RowId>, m: Model): set<RowId> {
    set q | q in rows && q.model == m
  }

  /** Every query is listed under the model of its rows. */
  ghost predicate Filed(scopes: map<Model, seq<set<RowId>>>) {
    forall m, i :: m in scopes && 0 <= i < |scopes[m]| ==> RowsOf(m, scopes[m][i])
  }

  /** The rows that some listed query holds. */
  ghost function Listed(scopes: map<Model, seq<set<RowId>>>): set<RowId> {
    set m, i, q | m in scopes && 0 <= i < |scopes[m]| && q in scopes[m][i] :: q
  }

  lemma ListedMore(scopes: map<Model, seq<set<RowId>>>, model: Model, rows: set<RowId>)
    requires Filed(scopes) && RowsOf(model, rows)
    ensures var after := scopes[model := (if model in scopes then scopes[model] else []) + [rows]];
      Filed(after) && Listed(after) == Listed(scopes) + rows
  {
    var after := scopes[model := (if model in scopes then scopes[model] else []) + [rows]];
    forall q | q in Listed(scopes)
      ensures q in Listed(after)
    {
      var m, i :| m in scopes && 0 <= i < |scopes[m]| && q in scopes[m][i];
      assert after[m][i] == scopes[m][i];
    }
    assert after[model][|after[model]| - 1] == rows;
  }

  // A base query of the deletion: a model and rows of it.
  datatype Scope = Scope(model: Model, rows: set<RowId>)

  ghost predicate Scoped(schema: Schema, db: Database, scopes: seq<Scope>) {
    && WellFormed(schema)
    && forall i :: 0 <= i < |scopes| ==>
         scopes[i].model in schema && scopes[i].rows <= db.Keys && RowsOf(scopes[i].model, scopes[i].rows)
  }

  function Base(scopes: seq<Scope>): set<RowId> {
    if scopes == [] then {} else Base(scopes[..|scopes| - 1]) + scopes[|scopes| - 1].rows
  }

  ghost function ReachAll(schema: Schema, db: Database, scopes: seq<Scope>): set<RowId>
    requires Scoped(schema, db, scopes)
  {
    if scopes == [] then {}
    else
      var last := scopes[|scopes| - 1];
      ReachAll(schema, db, scopes[..|scopes| - 1]) + Reach(schema, db, last.model, last.rows, {})
  }

  function Count(counts: map<Model, nat>, m: Model): nat {
    if m in counts then counts[m] else 0
  }

  ghost predicate Counts(counts: map<Model, nat>, rows: set<RowId>) {
    forall m :: Count(counts, m) == |OfModel(rows, m)|
  }

  /** The rows of each model that the preview counts: a union of queries, so no row twice. */
  method CountDeletedObjects(schema: Schema, db: Database, scopes: seq<Scope>) returns (counts: map<Model, nat>)
    requires Scoped(schema, db, scopes)
    ensures Counts(counts, ReachAll(schema, db, scopes))
    ensures forall m :: m in counts ==> counts[m] > 0
  {
    var preview := new Preview();
    for i := 0 to |scopes|
      invariant fresh(preview) && Filed(preview.scopes)
      invariant Listed(preview.scopes) == ReachAll(schema, db, scopes[..i])
    {
      assert scopes[..i + 1][..i] == scopes[..i];
      preview.Visit(schema, db, scopes[i].model, scopes[i].rows, {});
    }
    assert scopes[..|scopes|] == scopes;
    var listed := preview.scopes;
    ghost var reached := Listed(listed);
    counts := map[];
    var todo := listed.Keys;
    while todo != {}
      invariant todo <= listed.Keys && counts.Keys <= listed.Keys - todo
      invariant forall m :: m in listed && m !in todo ==> Count(counts, m) == |OfModel(reached, m)|
      invariant forall m :: m in counts ==> counts[m] > 0
    {
      var m :| m in todo;
      var union := Union(listed[m]);
      UnionIsOfModel(listed, m, union);
      if |union| > 0 {
        counts := counts[m := |union|];
      }
      todo := todo - {m};
    }
    forall m | m !in listed
      ensures OfModel(reached, m) == {}
    {
      UnlistedIsEmpty(listed, m);
    }
  }

  lemma UnionIsOfModel(scopes: map<Model, seq<set<RowId>>>, m: Model, union: set<RowId>)
    requires Filed(scopes) && m in scopes
    requires forall q :: q in union <==> exists i :: 0 <= i < |scopes[m]| && q in scopes[m][i]
    ensures union == OfModel(Listed(scopes), m)
  {
    forall q
      ensures q in union <==> q in OfModel(Listed(scopes), m)
    {
      if q in union {
        var i :| 0 <= i < |scopes[m]| && q in scopes[m][i];
        assert RowsOf(m, scopes[m][i]);
      }
      if q in OfModel(Listed(scopes), m) {
        var n, i :| n in scopes && 0 <= i < |scopes[n]| && q in scopes[n][i];
        assert RowsOf(n, scopes[n][i]);
      }
    }
  }

  lemma UnlistedIsEmpty(scopes: map<Model, seq<set<RowId>>>, m: Model)
    requires Filed(scopes) && m !in scopes
    ensures OfModel(Listed(scopes), m) == {}
  {
    forall q | q in Listed(scopes)
      ensures q.model != m
    {
      var n, i :| n in scopes && 0 <= i < |scopes[n]| && q in scopes[n][i];
      assert RowsOf(n, scopes[n][i]);
    }
  }

  method Union(queries: seq<set<RowId>>) returns (all: set<RowId>)
    ensures forall q :: q in all <==> exists i :: 0 <= i < |queries| && q in queries[i]
  {
    all := {};
    for i := 0 to |queries|
      invariant forall q :: q in all <==> exists j :: 0 <= j < i && q in queries[j]
    {
      all := all + queries[i];
    }
  }
}
