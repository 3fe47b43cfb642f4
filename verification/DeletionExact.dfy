/** When the preview of a deletion counts exactly what the deletion removes. */
module DeletionExact {
  import opened Deletion

  /** Foreign keys are declared in the schema and refer to rows of their parent model. */
  ghost predicate Typed(schema: Schema, db: Database) {
    forall q, r :: q in db && r in db[q] ==>
      r.child == q.model && r.parent == db[q][r].model && r.parent in schema && r in schema[r.parent]
  }

  // ---------- The preview never lists more than the deletion removes ----------

  lemma ChildrenDepend(db: Database, r: Relation, rows: set<RowId>, all: set<RowId>)
    requires r.onDelete == Cascade && rows <= all && Closed(db, all)
    ensures Children(db, r, rows) <= all
  {
    forall q | q in Children(db, r, rows)
      ensures q in Dependents(db, all)
    {
      assert r in db[q] && r.onDelete == Cascade && db[q][r] in all;
    }
  }

  lemma {:induction false} ReachStaysInside(schema: Schema, db: Database, model: Model, rows: set<RowId>, ancestors: set<Model>, all: set<RowId>)
    requires WellFormed(schema) && model in schema && ancestors <= schema.Keys
    requires rows <= all && Closed(db, all)
    ensures Reach(schema, db, model, rows, ancestors) <= all
    decreases |schema.Keys - ancestors|, model in ancestors, |schema[model]| + 1
  {
    ReachByStaysInside(schema, db, model, rows, ancestors, |schema[model]|, all);
  }

  lemma {:induction false} ReachByStaysInside(schema: Schema, db: Database, model: Model, rows: set<RowId>, ancestors: set<Model>, n: nat, all: set<RowId>)
    requires WellFormed(schema) && model in schema && ancestors <= schema.Keys && n <= |schema[model]|
    requires rows <= all && Closed(db, all)
    ensures ReachBy(schema, db, model, rows, ancestors, n) <= all
    decreases |schema.Keys - ancestors|, model in ancestors, n
  {
    if n > 0 {
      var r := schema[model][n - 1];
      ReachByStaysInside(schema, db, model, rows, ancestors, n - 1, all);
      VisitDecreases(schema, model, ancestors);
      if Followed(r, ancestors) {
        ChildrenDepend(db, r, rows, all);
        ReachStaysInside(schema, db, r.child, Children(db, r, rows), ancestors + {model}, all);
      }
    }
  }

  // ---------- Cascade cycles ----------

  // A walk from a model down to its dependents, one cascade after the other.
  ghost predicate Walk(schema: Schema, from: Model, path: seq<Relation>, to: Model)
    decreases |path|
  {
    if path == [] then from == to
    else
      && from in schema && path[0] in schema[from] && path[0].onDelete == Cascade
      && Walk(schema, path[0].child, path[1..], to)
  }

  ghost predicate Leads(schema: Schema, from: Model, to: Model) {
    exists path :: path != [] && Walk(schema, from, path, to)
  }

  ghost predicate Acyclic(schema: Schema) {
    forall m :: m in schema ==> !Leads(schema, m, m)
  }

  lemma {:induction false} WalkExtends(schema: Schema, from: Model, path: seq<Relation>, to: Model, r: Relation)
    requires Walk(schema, from, path, to)
    requires to in schema && r in schema[to] && r.onDelete == Cascade
    ensures Walk(schema, from, path + [r], r.child)
    decreases |path|
  {
    if path == [] {
      assert Walk(schema, r.child, ([r])[1..], r.child);
      assert path + [r] == [r];
    } else {
      WalkExtends(schema, path[0].child, path[1..], to, r);
      assert (path + [r])[1..] == path[1..] + [r];
    }
  }

  /** A visited model can be reached from each of its ancestors. */
  ghost predicate Descends(schema: Schema, ancestors: set<Model>, model: Model) {
    forall a :: a in ancestors ==> Leads(schema, a, model)
  }

  lemma DescendsFurther(schema: Schema, ancestors: set<Model>, model: Model, r: Relation)
    requires Descends(schema, ancestors, model)
    requires model in schema && r in schema[model] && r.onDelete == Cascade
    ensures Descends(schema, ancestors + {model}, r.child)
  {
    forall a | a in ancestors + {model}
      ensures Leads(schema, a, r.child)
    {
      if a == model {
        assert Walk(schema, r.child, ([r])[1..], r.child);
        assert Walk(schema, a, [r], r.child);
      } else {
        var path :| path != [] && Walk(schema, a, path, model);
        WalkExtends(schema, a, path, model, r);
      }
    }
  }

  // ---------- Without cycles the preview lists all of it ----------

  lemma ReachByHolds(schema: Schema, db: Database, model: Model, rows: set<RowId>, ancestors: set<Model>, n: nat, i: nat)
    requires WellFormed(schema) && model in schema && ancestors <= schema.Keys && i < n <= |schema[model]|
    ensures Following(schema, db, schema[model][i], model, rows, ancestors) <= ReachBy(schema, db, model, rows, ancestors, n)
  {
  }

  /** On a schema without cycles, the rows of a visit are closed under cascades. */
  lemma {:induction false} ReachIsClosed(schema: Schema, db: Database, model: Model, rows: set<RowId>, ancestors: set<Model>)
    requires WellFormed(schema) && model in schema && ancestors <= schema.Keys
    requires Typed(schema, db) && RowsOf(model, rows) && Acyclic(schema) && Descends(schema, ancestors, model)
    ensures Closed(db, Reach(schema, db, model, rows, ancestors))
    decreases |schema.Keys - ancestors|, model in ancestors, |schema[model]| + 1
  {
    var all := Reach(schema, db, model, rows, ancestors);
    forall q | q in Dependents(db, all)
      ensures q in all
    {
      var r :| r in db[q] && r.onDelete == Cascade && db[q][r] in all;
      if db[q][r] in rows {
        var i :| 0 <= i < |schema[model]| && schema[model][i] == r;
        DescendsFurther(schema, ancestors, model, r);
        assert r.child !in ancestors by {
          assert r.child in ancestors ==> Leads(schema, r.child, r.child);
        }
        assert q in Children(db, r, rows);
        ReachByHolds(schema, db, model, rows, ancestors, |schema[model]|, i);
      } else {
        ReachByIsClosed(schema, db, model, rows, ancestors, |schema[model]|);
        assert q in Dependents(db, ReachBy(schema, db, model, rows, ancestors, |schema[model]|));
      }
    }
  }

  lemma {:induction false} ReachByIsClosed(schema: Schema, db: Database, model: Model, rows: set<RowId>, ancestors: set<Model>, n: nat)
    requires WellFormed(schema) && model in schema && ancestors <= schema.Keys && n <= |schema[model]|
    requires Typed(schema, db) && Acyclic(schema) && Descends(schema, ancestors, model)
    ensures Closed(db, ReachBy(schema, db, model, rows, ancestors, n))
    decreases |schema.Keys - ancestors|, model in ancestors, n
  {
    if n > 0 {
      var r := schema[model][n - 1];
      var before, more := ReachBy(schema, db, model, rows, ancestors, n - 1), Following(schema, db, r, model, rows, ancestors);
      ReachByIsClosed(schema, db, model, rows, ancestors, n - 1);
      VisitDecreases(schema, model, ancestors);
      if Followed(r, ancestors) {
        DescendsFurther(schema, ancestors, model, r);
        ReachIsClosed(schema, db, r.child, Children(db, r, rows), ancestors + {model});
      }
      ClosedUnion(db, before, more);
    }
  }

  lemma ClosedUnion(db: Database, a: set<RowId>, b: set<RowId>)
    requires Closed(db, a) && Closed(db, b)
    ensures Closed(db, a + b)
  {
    forall q | q in Dependents(db, a + b)
      ensures q in a + b
    {
      var r :| r in db[q] && r.onDelete == Cascade && db[q][r] in a + b;
      assert q in Dependents(db, a) || q in Dependents(db, b);
    }
  }

  lemma {:induction false} BaseInside(schema: Schema, db: Database, scopes: seq<Scope>)
    requires Scoped(schema, db, scopes)
    ensures Base(scopes) <= db.Keys && Base(scopes) <= ReachAll(schema, db, scopes)
    decreases |scopes|
  {
    if scopes != [] {
      BaseInside(schema, db, scopes[..|scopes| - 1]);
    }
  }

  /** On every graph, each row that the preview counts is one that the deletion removes. */
  lemma {:induction false} PreviewIsPartOfDeletion(schema: Schema, db: Database, scopes: seq<Scope>)
    requires Scoped(schema, db, scopes)
    ensures Base(scopes) <= db.Keys && ReachAll(schema, db, scopes) <= Closure(db, Base(scopes))
    decreases |scopes|
  {
    BaseInside(schema, db, scopes);
    if scopes != [] {
      var rest, last := scopes[..|scopes| - 1], scopes[|scopes| - 1];
      PreviewIsPartOfDeletion(schema, db, rest);
      var all := Closure(db, Base(scopes));
      assert Closure(db, Base(rest)) <= all;
      ReachStaysInside(schema, db, last.model, last.rows, {}, all);
    }
  }

  lemma {:induction false} ReachAllIsClosed(schema: Schema, db: Database, scopes: seq<Scope>)
    requires Scoped(schema, db, scopes) && Typed(schema, db) && Acyclic(schema)
    ensures Closed(db, ReachAll(schema, db, scopes))
    decreases |scopes|
  {
    if scopes != [] {
      var rest, last := scopes[..|scopes| - 1], scopes[|scopes| - 1];
      ReachAllIsClosed(schema, db, rest);
      ReachIsClosed(schema, db, last.model, last.rows, {});
      ClosedUnion(db, ReachAll(schema, db, rest), Reach(schema, db, last.model, last.rows, {}));
    }
  }

  /** The preview lists exactly the rows that the deletion removes. */
  ghost predicate Exact(schema: Schema, db: Database, scopes: seq<Scope>)
    requires Scoped(schema, db, scopes)
  {
    Base(scopes) <= db.Keys && ReachAll(schema, db, scopes) == Closure(db, Base(scopes))
  }

  lemma AcyclicIsExact(schema: Schema, db: Database, scopes: seq<Scope>)
    requires Scoped(schema, db, scopes) && Typed(schema, db) && Acyclic(schema)
    ensures Exact(schema, db, scopes)
  {
    PreviewIsPartOfDeletion(schema, db, scopes);
    BaseInside(schema, db, scopes);
    ReachAllIsClosed(schema, db, scopes);
  }

  // ---------- A cycle defeats the preview ----------

  /** How many cascades in a row a visit can follow. */
  ghost function Depth(schema: Schema, model: Model, ancestors: set<Model>): nat {
    2 * |schema.Keys - ancestors| + if model in ancestors then 1 else 0
  }

  /** Each row's cascading keys refer to rows that are numbered one less. */
  ghost predicate Stepwise(db: Database) {
    forall q, r :: q in db && r in db[q] && r.onDelete == Cascade ==> q.pk == db[q][r].pk + 1
  }

  lemma {:induction false} ReachIsShallow(schema: Schema, db: Database, model: Model, rows: set<RowId>, ancestors: set<Model>, d: nat)
    requires WellFormed(schema) && model in schema && ancestors <= schema.Keys
    requires Stepwise(db) && forall q :: q in rows ==> q.pk == d
    ensures forall q :: q in Reach(schema, db, model, rows, ancestors) ==> q.pk <= d + Depth(schema, model, ancestors)
    decreases |schema.Keys - ancestors|, model in ancestors, |schema[model]| + 1
  {
    ReachByIsShallow(schema, db, model, rows, ancestors, |schema[model]|, d);
  }

  lemma {:induction false} ReachByIsShallow(schema: Schema, db: Database, model: Model, rows: set<RowId>, ancestors: set<Model>, n: nat, d: nat)
    requires WellFormed(schema) && model in schema && ancestors <= schema.Keys && n <= |schema[model]|
    requires Stepwise(db) && forall q :: q in rows ==> q.pk == d
    ensures forall q :: q in ReachBy(schema, db, model, rows, ancestors, n) ==> q.pk <= d + Depth(schema, model, ancestors)
    decreases |schema.Keys - ancestors|, model in ancestors, n
  {
    if n > 0 {
      var r := schema[model][n - 1];
      ReachByIsShallow(schema, db, model, rows, ancestors, n - 1, d);
      VisitDecreases(schema, model, ancestors);
      if Followed(r, ancestors) {
        ReachIsShallow(schema, db, r.child, Children(db, r, rows), ancestors + {model}, d + 1);
        assert Depth(schema, r.child, ancestors + {model}) + 1 <= Depth(schema, model, ancestors);
      }
    }
  }

  /** The model that the walk has come to after n relations. */
  ghost function At(from: Model, path: seq<Relation>, n: nat): Model
    requires n <= |path|
  {
    if n == 0 then from else path[n - 1].child
  }

  lemma {:induction false} WalkAt(schema: Schema, from: Model, path: seq<Relation>, to: Model, n: nat)
    requires Walk(schema, from, path, to) && n <= |path|
    ensures n < |path| ==> At(from, path, n) in schema && path[n] in schema[At(from, path, n)] && path[n].onDelete == Cascade
    ensures n == |path| ==> At(from, path, n) == to
    decreases |path|
  {
    if n > 0 {
      WalkAt(schema, path[0].child, path[1..], to, n - 1);
    }
  }

  lemma {:induction false} WalkJoins(schema: Schema, from: Model, first: seq<Relation>, middle: Model, second: seq<Relation>, to: Model)
    requires Walk(schema, from, first, middle) && Walk(schema, middle, second, to)
    ensures Walk(schema, from, first + second, to)
    decreases |first|
  {
    if first == [] {
      assert first + second == second;
    } else {
      WalkJoins(schema, first[0].child, first[1..], middle, second, to);
      assert (first + second)[1..] == first[1..] + second;
    }
  }

  /** A cycle can be walked for as long as one likes. */
  lemma {:induction false} LongWalk(schema: Schema, m: Model, cycle: seq<Relation>, n: nat) returns (path: seq<Relation>)
    requires cycle != [] && Walk(schema, m, cycle, m)
    ensures |path| >= n && Walk(schema, m, path, m)
  {
    if n == 0 {
      path := cycle;
    } else {
      var shorter := LongWalk(schema, m, cycle, n - 1);
      path := shorter + cycle;
      WalkJoins(schema, m, shorter, m, cycle, m);
    }
  }

  /** The n-th row of a chain of rows along a walk. */
  ghost function Chained(from: Model, path: seq<Relation>, n: nat): RowId
    requires n <= |path|
  {
    RowId(At(from, path, n), n)
  }

  /** A row for each model of a walk, each referring to the row before it. */
  ghost function Chain(from: Model, path: seq<Relation>): (db: Database) {
    map q | q in ChainRows(from, path) :: if q.pk == 0 || q.pk > |path| then map[] else map[path[q.pk - 1] := Chained(from, path, q.pk - 1)]
  }

  ghost function ChainRows(from: Model, path: seq<Relation>): set<RowId> {
    set n | 0 <= n <= |path| :: Chained(from, path, n)
  }

  // In a proper schema, the relations listed for a model have that model as their parent.
  ghost predicate Proper(schema: Schema) {
    WellFormed(schema) && forall m, i :: m in schema && 0 <= i < |schema[m]| ==> schema[m][i].parent == m
  }

  /** A row of a chain refers to the row before it, by the relation between them. */
  lemma ChainLink(from: Model, path: seq<Relation>, q: RowId, r: Relation)
    requires q in Chain(from, path) && r in Chain(from, path)[q]
    ensures 0 < q.pk <= |path| && q == Chained(from, path, q.pk)
    ensures r == path[q.pk - 1] && Chain(from, path)[q][r] == Chained(from, path, q.pk - 1)
  {
    assert q in ChainRows(from, path);
  }

  /** What a row of a chain refers to, in the terms of the schema. */
  lemma LinkIsTyped(schema: Schema, from: Model, path: seq<Relation>, to: Model, q: RowId, r: Relation, p: RowId)
    requires Proper(schema) && Walk(schema, from, path, to)
    requires q in Chain(from, path) && r in Chain(from, path)[q] && p == Chain(from, path)[q][r]
    ensures r.child == q.model && r.parent == p.model && r.parent in schema && r in schema[r.parent] && q.pk == p.pk + 1
  {
    ChainLink(from, path, q, r);
    WalkAt(schema, from, path, to, q.pk - 1);
    assert p == RowId(At(from, path, q.pk - 1), q.pk - 1);
    ParentIs(schema, p.model, r);
  }

  lemma ParentIs(schema: Schema, m: Model, r: Relation)
    requires Proper(schema) && m in schema && r in schema[m]
    ensures r.parent == m
  {
  }

  lemma ChainIsTyped(schema: Schema, from: Model, path: seq<Relation>, to: Model)
    requires Proper(schema) && Walk(schema, from, path, to)
    ensures Typed(schema, Chain(from, path)) && Stepwise(Chain(from, path))
  {
    var db: Database := Chain(from, path);
    forall q: RowId, r: Relation | q in db && r in db[q]
      ensures r.child == q.model && r.parent == db[q][r].model && r.parent in schema && r in schema[r.parent]
      ensures q.pk == db[q][r].pk + 1
    {
      LinkIsTyped(schema, from, path, to, q, r, db[q][r]);
    }
  }

  lemma {:induction false} ChainIsRemoved(schema: Schema, from: Model, path: seq<Relation>, to: Model, all: set<RowId>, n: nat)
    requires Walk(schema, from, path, to) && n <= |path|
    requires Chained(from, path, 0) in all && Closed(Chain(from, path), all)
    ensures Chained(from, path, n) in all
  {
    if n > 0 {
      var db: Database := Chain(from, path);
      ChainIsRemoved(schema, from, path, to, all, n - 1);
      WalkAt(schema, from, path, to, n - 1);
      var q, r := Chained(from, path, n), path[n - 1];
      assert q in ChainRows(from, path);
      assert r in db[q] && db[q][r] in all;
      assert q in Dependents(db, all);
    }
  }

  lemma ChainHolds(from: Model, path: seq<Relation>, n: nat)
    requires n <= |path|
    ensures Chained(from, path, n) in Chain(from, path)
  {
    assert Chained(from, path, n) in ChainRows(from, path);
  }

  lemma LastIsUnlisted(schema: Schema, m: Model, path: seq<Relation>, to: Model)
    requires Proper(schema) && m in schema && Walk(schema, m, path, to) && |path| > Depth(schema, m, {})
    ensures Chained(m, path, |path|) !in Reach(schema, Chain(m, path), m, {Chained(m, path, 0)}, {})
  {
    ChainIsTyped(schema, m, path, to);
    ReachIsShallow(schema, Chain(m, path), m, {Chained(m, path, 0)}, {}, 0);
  }

  /** The last row of a long enough chain is removed and yet not listed. */
  lemma ChainIsMissed(schema: Schema, m: Model, path: seq<Relation>, to: Model)
    requires Proper(schema) && m in schema && Walk(schema, m, path, to) && |path| > Depth(schema, m, {})
    ensures {Chained(m, path, 0)} <= Chain(m, path).Keys
    ensures Reach(schema, Chain(m, path), m, {Chained(m, path, 0)}, {}) != Closure(Chain(m, path), {Chained(m, path, 0)})
  {
    ChainHolds(m, path, 0);
    ChainIsRemoved(schema, m, path, to, Closure(Chain(m, path), {Chained(m, path, 0)}), |path|);
    LastIsUnlisted(schema, m, path, to);
  }

  lemma OneScope(schema: Schema, db: Database, scope: Scope)
    requires Scoped(schema, db, [scope])
    ensures Base([scope]) == scope.rows && ReachAll(schema, db, [scope]) == Reach(schema, db, scope.model, scope.rows, {})
  {
    var scopes := [scope];
    assert scopes[..0] == [];
    assert Base(scopes) == Base(scopes[..0]) + scope.rows;
    assert ReachAll(schema, db, scopes) == ReachAll(schema, db, scopes[..0]) + Reach(schema, db, scope.model, scope.rows, {});
  }

  /** A cycle of cascades and a long enough chain of rows along it: the preview misses the last of them. */
  lemma CycleIsMissed(schema: Schema, m: Model, cycle: seq<Relation>) returns (db: Database, scopes: seq<Scope>)
    requires Proper(schema) && m in schema && cycle != [] && Walk(schema, m, cycle, m)
    ensures Scoped(schema, db, scopes) && Typed(schema, db) && !Exact(schema, db, scopes)
  {
    var path := LongWalk(schema, m, cycle, Depth(schema, m, {}) + 1);
    db := Chain(m, path);
    var scope := Scope(m, {Chained(m, path, 0)});
    scopes := [scope];
    ChainIsTyped(schema, m, path, m);
    ChainIsMissed(schema, m, path, m);
    ScopeIsMissed(schema, db, scope);
  }

  lemma ScopeIsMissed(schema: Schema, db: Database, scope: Scope)
    requires Scoped(schema, db, [scope]) && scope.model in schema && scope.rows <= db.Keys
    requires Reach(schema, db, scope.model, scope.rows, {}) != Closure(db, scope.rows)
    ensures !Exact(schema, db, [scope])
  {
    OneScope(schema, db, scope);
  }

  /** The preview is right for every database and every selection exactly when no cascade leads back to its own model. */
  lemma PreviewIsExactExactly(schema: Schema)
    requires Proper(schema)
    ensures Acyclic(schema) <==> forall db, scopes :: Scoped(schema, db, scopes) && Typed(schema, db) ==> Exact(schema, db, scopes)
  {
    if Acyclic(schema) {
      forall db, scopes | Scoped(schema, db, scopes) && Typed(schema, db)
        ensures Exact(schema, db, scopes)
      {
        AcyclicIsExact(schema, db, scopes);
      }
    } else {
      var m :| m in schema && Leads(schema, m, m);
      var cycle :| cycle != [] && Walk(schema, m, cycle, m);
      var db, scopes := CycleIsMissed(schema, m, cycle);
    }
  }
}
