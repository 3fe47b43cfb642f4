/** Attribution gives no byte to two purchases, does not depend on order, and only loses by further claims. */
module AttributionSafety {
  import opened Prelude
  import opened Identities
  import Evidence
  import opened Attribution

  /** The rows that will be measured for a purchase: those of a complete or partial answer. */
  function Measured(answer: Answer): map<RowKey, RemoteRow> {
    if answer.1.Refused? then map[] else answer.0
  }

  /** Measured rows are matched, have counters, and are claimed by their purchase alone. */
  lemma MeasuredIsExclusive(maps: seq<PurchaseMap>, orphans: seq<Source>, rows: seq<RemoteRow>, m: PurchaseMap, answer: Answer)
    requires Answers(maps, orphans, rows, m, answer)
    ensures forall key :: key in Measured(answer) ==>
              && Claimants(maps, orphans, rows, key) == {Some(m.order)}
              && Measured(answer)[key] in Matched(m, rows) && Key(Measured(answer)[key]) == key && Measured(answer)[key].statsAvailable
    ensures Measured(answer) != map[] ==> !m.conflict
  {
    var known :| IsKnown(known, Matched(m, rows))
                 && answer == Judge(m.conflict, Covered(m, rows), known, Unshared(maps, orphans, rows, m.order, known.Keys));
    JudgeMeasuresOnly(m.conflict, Covered(m, rows), known, Unshared(maps, orphans, rows, m.order, known.Keys));
  }

  lemma JudgeMeasuresOnly(conflict: bool, covered: bool, known: map<RowKey, RemoteRow>, single: set<RowKey>)
    ensures var measured := Measured(Judge(conflict, covered, known, single));
      && (measured != map[] ==> !conflict)
      && forall key :: key in measured ==> key in known && measured[key] == known[key] && key in single && known[key].statsAvailable
  {
  }

  /** Nothing measurable is lost: without a conflict, every matched row of an unshared key with counters is measured. */
  lemma MeasuredIsAll(maps: seq<PurchaseMap>, orphans: seq<Source>, rows: seq<RemoteRow>, m: PurchaseMap, answer: Answer, key: RowKey)
    requires Answers(maps, orphans, rows, m, answer) && !m.conflict
    requires Claimants(maps, orphans, rows, key) == {Some(m.order)}
    requires exists row :: row in Matched(m, rows) && Key(row) == key
    requires forall row :: row in Matched(m, rows) && Key(row) == key ==> row.statsAvailable
    ensures key in Measured(answer)
  {
    var known :| IsKnown(known, Matched(m, rows))
                 && answer == Judge(m.conflict, Covered(m, rows), known, Unshared(maps, orphans, rows, m.order, known.Keys));
    assert key in known;
    JudgeMeasures(Covered(m, rows), known, Unshared(maps, orphans, rows, m.order, known.Keys), key);
  }

  lemma JudgeMeasures(covered: bool, known: map<RowKey, RemoteRow>, single: set<RowKey>, key: RowKey)
    requires key in known && key in single && known[key].statsAvailable
    ensures key in Measured(Judge(false, covered, known, single))
  {
    assert key in Exclusive(known, single);
  }

  /** No row is measured for two purchases. */
  lemma NoDoubleCount(maps: seq<PurchaseMap>, orphans: seq<Source>, rows: seq<RemoteRow>, m: PurchaseMap, n: PurchaseMap, a: Answer, b: Answer)
    requires Answers(maps, orphans, rows, m, a) && Answers(maps, orphans, rows, n, b) && m.order != n.order
    ensures Measured(a).Keys !! Measured(b).Keys
  {
    MeasuredIsExclusive(maps, orphans, rows, m, a);
    MeasuredIsExclusive(maps, orphans, rows, n, b);
    assert Some(m.order) !in {Some(n.order)};
  }

  // ---------- Conservation ----------

  ghost function Restrict(weight: map<RowKey, int>, keys: set<RowKey>): map<RowKey, int> {
    map key | key in weight && key in keys :: weight[key]
  }

  ghost function PerPurchase(result: map<nat, Answer>, orders: set<nat>, weight: map<RowKey, int>): map<nat, int> {
    map order | order in orders && order in result :: Sum(Restrict(weight, Measured(result[order]).Keys))
  }

  ghost function MeasuredKeys(result: map<nat, Answer>, orders: set<nat>): set<RowKey> {
    set order, key | order in orders && order in result && key in Measured(result[order]) :: key
  }

  ghost predicate Disjoint(result: map<nat, Answer>) {
    forall a, b :: a in result && b in result && a != b ==> Measured(result[a]).Keys !! Measured(result[b]).Keys
  }

  lemma {:induction false} PurchasesAdd(result: map<nat, Answer>, orders: set<nat>, weight: map<RowKey, int>)
    requires Disjoint(result) && orders <= result.Keys
    ensures Sum(PerPurchase(result, orders, weight)) == Sum(Restrict(weight, MeasuredKeys(result, orders)))
    decreases |orders|
  {
    if orders == {} {
      assert PerPurchase(result, orders, weight) == map[];
      assert Restrict(weight, MeasuredKeys(result, orders)) == map[];
    } else {
      var order := Pick(orders);
      PurchasesAdd(result, orders - {order}, weight);
      SumRemove(PerPurchase(result, orders, weight), order);
      assert PerPurchase(result, orders, weight) - {order} == PerPurchase(result, orders - {order}, weight);
      PurchaseAdds(result, orders, order, weight);
    }
  }

  lemma PurchaseAdds(result: map<nat, Answer>, orders: set<nat>, order: nat, weight: map<RowKey, int>)
    requires Disjoint(result) && orders <= result.Keys && order in orders
    ensures Sum(Restrict(weight, MeasuredKeys(result, orders)))
         == Sum(Restrict(weight, Measured(result[order]).Keys)) + Sum(Restrict(weight, MeasuredKeys(result, orders - {order})))
  {
    var rest, own := MeasuredKeys(result, orders - {order}), Measured(result[order]).Keys;
    assert rest !! own && MeasuredKeys(result, orders) == rest + own;
    SumUnion(Restrict(weight, own), Restrict(weight, rest), Restrict(weight, rest + own));
  }

  lemma RestrictedSum(weight: map<RowKey, int>, keys: set<RowKey>)
    requires forall key :: key in weight ==> weight[key] >= 0
    ensures Sum(Restrict(weight, keys)) <= Sum(weight)
  {
    var rest := Restrict(weight, weight.Keys - keys);
    SumUnion(Restrict(weight, keys), rest, weight);
    SumNonNegative(rest);
  }

  /** The result answers for exactly the given purchases. */
  ghost predicate AnswersAll(maps: seq<PurchaseMap>, orphans: seq<Source>, rows: seq<RemoteRow>, result: map<nat, Answer>) {
    && (forall order :: order in result <==> exists m :: m in maps && m.order == order)
    && (forall m :: m in maps ==> m.order in result && Answers(maps, orphans, rows, m, result[m.order]))
  }

  lemma AnswersAreDisjoint(maps: seq<PurchaseMap>, orphans: seq<Source>, rows: seq<RemoteRow>, result: map<nat, Answer>)
    requires AnswersAll(maps, orphans, rows, result)
    ensures Disjoint(result)
  {
    forall a, b | a in result && b in result && a != b
      ensures Measured(result[a]).Keys !! Measured(result[b]).Keys
    {
      var m :| m in maps && m.order == a;
      var n :| n in maps && n.order == b;
      NoDoubleCount(maps, orphans, rows, m, n, result[a], result[b]);
    }
  }

  /** Whatever the keys weigh, the purchases together get no more than all keys weigh. */
  lemma WeightsAreConserved(result: map<nat, Answer>, weight: map<RowKey, int>)
    requires Disjoint(result) && forall key :: key in weight ==> weight[key] >= 0
    ensures Sum(PerPurchase(result, result.Keys, weight)) <= Sum(weight)
  {
    PurchasesAdd(result, result.Keys, weight);
    RestrictedSum(weight, MeasuredKeys(result, result.Keys));
  }

  /** The bytes that a row reports as used. */
  function Used(row: RemoteRow): nat {
    if row.reading.used.Some? && row.reading.used.value >= 0 then row.reading.used.value else 0
  }

  ghost function UsedBy(answer: Answer): int {
    Sum(map key | key in Measured(answer) :: Used(Measured(answer)[key]))
  }

  ghost function UsedByEach(result: map<nat, Answer>): map<nat, int> {
    map order | order in result :: UsedBy(result[order])
  }

  ghost function UsedByAll(result: map<nat, Answer>): int {
    Sum(UsedByEach(result))
  }

  /** The total over the distinct rows. */
  ghost function UsedByRows(rows: seq<RemoteRow>): int {
    Sum(UsedByEachRow(rows))
  }

  ghost function UsedByEachRow(rows: seq<RemoteRow>): map<RemoteRow, int> {
    map row | row in rows :: Used(row)
  }

  ghost function MeasuredRow(result: map<nat, Answer>, key: RowKey): RemoteRow
    requires key in MeasuredKeys(result, result.Keys)
  {
    var order :| order in result && key in Measured(result[order]);
    Measured(result[order])[key]
  }

  /** A sum of non-negative numbers is no smaller than one over some of its keys under other names. */
  lemma {:induction false} SumRenamed<K, L>(a: map<K, int>, b: map<L, int>, name: map<K, L>)
    requires name.Keys == a.Keys && forall j, k :: j in name && k in name && j != k ==> name[j] != name[k]
    requires forall k :: k in a ==> name[k] in b && b[name[k]] == a[k]
    requires forall l :: l in b ==> b[l] >= 0
    ensures Sum(a) <= Sum(b)
    decreases |a|
  {
    if a == map[] {
      SumNonNegative(b);
    } else {
      var k := Pick(a.Keys);
      SumRemove(b, name[k]);
      SumRenamed(a - {k}, b - {name[k]}, name - {k});
    }
  }

  ghost function MeasuredRows(result: map<nat, Answer>): map<RowKey, RemoteRow> {
    map key | key in MeasuredKeys(result, result.Keys) :: MeasuredRow(result, key)
  }

  ghost function MeasuredWeights(result: map<nat, Answer>): map<RowKey, int> {
    map key | key in MeasuredKeys(result, result.Keys) :: Used(MeasuredRow(result, key))
  }

  lemma MeasuredWeight(result: map<nat, Answer>, order: nat)
    requires Disjoint(result) && order in result
    ensures UsedBy(result[order]) == Sum(Restrict(MeasuredWeights(result), Measured(result[order]).Keys))
  {
    var measured, weight := Measured(result[order]), MeasuredWeights(result);
    forall key | key in measured
      ensures key in weight && weight[key] == Used(measured[key])
    {
      assert key in MeasuredKeys(result, result.Keys);
    }
    assert Restrict(weight, measured.Keys) == map key | key in measured :: Used(measured[key]);
  }

  lemma UsedIsWeighed(result: map<nat, Answer>)
    requires Disjoint(result)
    ensures UsedByAll(result) <= Sum(MeasuredWeights(result))
  {
    var weight := MeasuredWeights(result);
    forall order | order in result
      ensures UsedBy(result[order]) == PerPurchase(result, result.Keys, weight)[order]
    {
      MeasuredWeight(result, order);
    }
    assert PerPurchase(result, result.Keys, weight) == UsedByEach(result);
    WeightsAreConserved(result, weight);
  }

  /** The bytes used that are attributed to all purchases together never exceed those of the distinct remote rows. */
  lemma BytesAreConserved(maps: seq<PurchaseMap>, orphans: seq<Source>, rows: seq<RemoteRow>, result: map<nat, Answer>)
    requires AnswersAll(maps, orphans, rows, result)
    ensures UsedByAll(result) <= UsedByRows(rows)
  {
    AnswersAreDisjoint(maps, orphans, rows, result);
    UsedIsWeighed(result);
    var name := MeasuredRows(result);
    forall key | key in name
      ensures name[key] in rows && Key(name[key]) == key
    {
      MeasuredRowIsThere(maps, orphans, rows, result, key);
    }
    SumRenamed(MeasuredWeights(result), UsedByEachRow(rows), name);
  }

  lemma MeasuredRowIsThere(maps: seq<PurchaseMap>, orphans: seq<Source>, rows: seq<RemoteRow>, result: map<nat, Answer>, key: RowKey)
    requires AnswersAll(maps, orphans, rows, result) && key in MeasuredKeys(result, result.Keys)
    ensures MeasuredRow(result, key) in rows && Key(MeasuredRow(result, key)) == key
  {
    var order :| order in result && key in Measured(result[order]) && MeasuredRow(result, key) == Measured(result[order])[key];
    var m :| m in maps && m.order == order;
    MeasuredIsExclusive(maps, orphans, rows, m, result[order]);
    var s :| s in m.sources && Resolve(s, rows).Some? && Resolve(s, rows).value == MeasuredRow(result, key);
    assert MatchesAt(s, rows) != {};
  }

  // ---------- Order ----------

  ghost function Count(s: Source, rows: seq<RemoteRow>): nat {
    if rows == [] then 0 else Count(s, rows[..|rows| - 1]) + if Matches(s, rows[|rows| - 1]) then 1 else 0
  }

  lemma {:induction false} CountIsSize(s: Source, rows: seq<RemoteRow>)
    ensures |MatchesAt(s, rows)| == Count(s, rows)
  {
    if rows != [] {
      var n := |rows| - 1;
      CountIsSize(s, rows[..n]);
      assert MatchesAt(s, rows) == MatchesAt(s, rows[..n]) + if Matches(s, rows[n]) then {n} else {};
    }
  }

  lemma {:induction false} CountConcat(s: Source, a: seq<RemoteRow>, b: seq<RemoteRow>)
    ensures Count(s, a + b) == Count(s, a) + Count(s, b)
  {
    if b == [] {
      assert a + b == a;
    } else {
      assert (a + b)[..|a + b| - 1] == a + b[..|b| - 1];
      CountConcat(s, a, b[..|b| - 1]);
    }
  }

  /** The last element of a sequence occurs in any permutation of it, and the rest are a permutation of the rest. */
  lemma TakeOut<T>(a: seq<T>, b: seq<T>) returns (left: seq<T>, right: seq<T>)
    requires a != [] && multiset(a) == multiset(b)
    ensures b == left + [a[|a| - 1]] + right
    ensures multiset(a[..|a| - 1]) == multiset(left + right)
  {
    var x, rest := a[|a| - 1], a[..|a| - 1];
    assert a == rest + [x];
    assert multiset(a)[x] > 0;
    left, right := Locate(b, x);
    Insert(left, right, x);
    Cancel(multiset(rest), multiset(left + right), x);
  }

  lemma Locate<T>(s: seq<T>, x: T) returns (left: seq<T>, right: seq<T>)
    requires x in s
    ensures s == left + [x] + right
  {
    var j :| 0 <= j < |s| && s[j] == x;
    left, right := s[..j], s[j + 1..];
  }

  lemma Cancel<T>(a: multiset<T>, b: multiset<T>, x: T)
    requires a + multiset{x} == b + multiset{x}
    ensures a == b
  {
    assert a == a + multiset{x} - multiset{x};
    assert b == b + multiset{x} - multiset{x};
  }

  lemma Insert<T>(left: seq<T>, right: seq<T>, x: T)
    ensures multiset(left + [x] + right) == multiset(left + right) + multiset{x}
  {
  }

  lemma {:induction false} CountPermutes(s: Source, a: seq<RemoteRow>, b: seq<RemoteRow>)
    requires multiset(a) == multiset(b)
    ensures Count(s, a) == Count(s, b)
    decreases |a|
  {
    if a == [] {
      assert |multiset(b)| == 0;
    } else {
      var x := a[|a| - 1];
      var left, right := TakeOut(a, b);
      CountPermutes(s, a[..|a| - 1], left + right);
      CountConcat(s, left, right);
      CountConcat(s, left + [x], right);
      CountConcat(s, left, [x]);
      assert [x][..0] == [];
    }
  }

  lemma SameMembers(a: seq<RemoteRow>, b: seq<RemoteRow>)
    requires multiset(a) == multiset(b)
    ensures forall row :: row in a <==> row in b
  {
    forall row
      ensures row in a <==> row in b
    {
      assert row in multiset(a) <==> row in multiset(b);
    }
  }

  lemma ResolvesToOnlyMatch(s: Source, rows: seq<RemoteRow>, row: RemoteRow)
    requires |MatchesAt(s, rows)| == 1 && row in rows && Matches(s, row)
    ensures rows[Pick(MatchesAt(s, rows))] == row
  {
    var i :| 0 <= i < |rows| && rows[i] == row;
    OnlyMember(MatchesAt(s, rows), i);
  }

  lemma ResolvePermutes(s: Source, a: seq<RemoteRow>, b: seq<RemoteRow>)
    requires multiset(a) == multiset(b)
    ensures Resolve(s, a) == Resolve(s, b)
  {
    CountIsSize(s, a);
    CountIsSize(s, b);
    CountPermutes(s, a, b);
    if |MatchesAt(s, a)| == 1 {
      SameMembers(a, b);
      ResolvesToOnlyMatch(s, b, a[Pick(MatchesAt(s, a))]);
    }
  }

  /** The rows in another order, and the purchases and the orphans as any sequences with the same members. */
  ghost predicate SameInput(maps: seq<PurchaseMap>, maps': seq<PurchaseMap>, orphans: seq<Source>, orphans': seq<Source>,
                            rows: seq<RemoteRow>, rows': seq<RemoteRow>) {
    && (forall m :: m in maps <==> m in maps') && (forall s :: s in orphans <==> s in orphans')
    && multiset(rows) == multiset(rows')
  }

  lemma ClaimantsPermute(maps: seq<PurchaseMap>, maps': seq<PurchaseMap>, orphans: seq<Source>, orphans': seq<Source>,
                         rows: seq<RemoteRow>, rows': seq<RemoteRow>, key: RowKey)
    requires SameInput(maps, maps', orphans, orphans', rows, rows')
    ensures Claimants(maps, orphans, rows, key) == Claimants(maps', orphans', rows', key)
  {
    SameMembers(rows, rows');
    forall s
      ensures Claims(s, rows, key) <==> Claims(s, rows', key)
      ensures Disputes(s, rows, key) <==> Disputes(s, rows', key)
    {
      ResolvePermutes(s, rows, rows');
    }
  }

  /** The answers do not depend on the order of purchases, of orphan sources or of rows. */
  lemma AnswersPermute(maps: seq<PurchaseMap>, maps': seq<PurchaseMap>, orphans: seq<Source>, orphans': seq<Source>,
                       rows: seq<RemoteRow>, rows': seq<RemoteRow>, m: PurchaseMap, answer: Answer)
    requires SameInput(maps, maps', orphans, orphans', rows, rows')
    ensures Answers(maps, orphans, rows, m, answer) <==> Answers(maps', orphans', rows', m, answer)
  {
    forall s
      ensures Resolve(s, rows) == Resolve(s, rows')
    {
      ResolvePermutes(s, rows, rows');
    }
    assert Matched(m, rows) == Matched(m, rows');
    forall keys: set<RowKey>
      ensures Unshared(maps, orphans, rows, m.order, keys) == Unshared(maps', orphans', rows', m.order, keys)
    {
      forall key
        ensures Claimants(maps, orphans, rows, key) == Claimants(maps', orphans', rows', key)
      {
        ClaimantsPermute(maps, maps', orphans, orphans', rows, rows', key);
      }
    }
  }

  /** The dictionary of matched rows does not depend on the order of the sources exactly when no two of them share a key. */
  lemma KnownIsUniqueExactly(matched: set<RemoteRow>)
    ensures (forall a, b :: IsKnown(a, matched) && IsKnown(b, matched) ==> a == b)
            <==> (forall r, q :: r in matched && q in matched && Key(r) == Key(q) ==> r == q)
  {
    if forall a, b :: IsKnown(a, matched) && IsKnown(b, matched) ==> a == b {
      forall r, q | r in matched && q in matched && Key(r) == Key(q)
        ensures r == q
      {
        var base := SomeKnown(matched);
        var a, b := base[Key(r) := r], base[Key(r) := q];
        assert IsKnown(a, matched) && IsKnown(b, matched);
        assert a[Key(r)] == b[Key(r)];
      }
    }
    if forall r, q :: r in matched && q in matched && Key(r) == Key(q) ==> r == q {
      forall a, b | IsKnown(a, matched) && IsKnown(b, matched)
        ensures a == b
      {
        KnownIsUnique(matched, a, b);
      }
    }
  }

  // Two clients of one inbound with the same first identifier and different addresses: their rows share a key.
  const FIRST: RemoteRow := RemoteRow(1, Some(1), "1", "", Hash("id"), {Hash("id"), Hash("a")}, true, Usage(1))
  const SECOND: RemoteRow := RemoteRow(1, Some(1), "1", "", Hash("id"), {Hash("id"), Hash("b")}, true, Usage(2))

  function Usage(used: int): Reading {
    Reading(Some(used), Some(used), Some(0), 0, Some(10), None, OtherRemoteStatus, Some(true))
  }

  function AddressSource(address: string): Source {
    Source(Some(1), Some(1), "", {Hash(address)}, None)
  }

  /** A purchase of both has two answers, one with each of the rows, and the order of its sources decides between them. */
  lemma SharedKeyHasTwoAnswers()
    ensures var m := PurchaseMap(1, {AddressSource("a"), AddressSource("b")}, false);
      && Matched(m, [FIRST, SECOND]) == {FIRST, SECOND} && Key(FIRST) == Key(SECOND)
      && Answers([m], [], [FIRST, SECOND], m, (map[Key(FIRST) := FIRST], Evidence.Complete))
      && Answers([m], [], [FIRST, SECOND], m, (map[Key(FIRST) := SECOND], Evidence.Complete))
  {
    var rows, a, b := [FIRST, SECOND], AddressSource("a"), AddressSource("b");
    var m := PurchaseMap(1, {a, b}, false);
    OneResolves("a", FIRST, SECOND, rows, 0);
    OneResolves("b", SECOND, FIRST, rows, 1);
    assert a in m.sources && b in m.sources;
    assert Matched(m, rows) == {FIRST, SECOND};
    assert Claims(a, rows, Key(FIRST)) && m in [m];
    assert Claimants([m], [], rows, Key(FIRST)) == {Some(1)};
    AnswerWith(m, rows, FIRST);
    AnswerWith(m, rows, SECOND);
  }

  lemma OneResolves(address: string, mine: RemoteRow, other: RemoteRow, rows: seq<RemoteRow>, i: int)
    requires rows == [FIRST, SECOND] && 0 <= i < 2 && rows[i] == mine && rows[1 - i] == other
    requires Hash(address) in mine.aliases && Hash(address) !in other.aliases
    ensures Resolve(AddressSource(address), rows) == Some(mine)
  {
    var s := AddressSource(address);
    assert Hash(address) in s.hashes * mine.aliases;
    assert MatchesAt(s, rows) == {i};
  }

  lemma AnswerWith(m: PurchaseMap, rows: seq<RemoteRow>, row: RemoteRow)
    requires Matched(m, rows) == {FIRST, SECOND} && (row == FIRST || row == SECOND) && !m.conflict && Covered(m, rows)
    requires Claimants([m], [], rows, Key(FIRST)) == {Some(m.order)}
    ensures Answers([m], [], rows, m, (map[Key(FIRST) := row], Evidence.Complete))
  {
    var known := map[Key(FIRST) := row];
    assert IsKnown(known, Matched(m, rows));
    assert Unshared([m], [], rows, m.order, known.Keys) == {Key(FIRST)};
  }

  lemma KnownIsUnique(matched: set<RemoteRow>, a: map<RowKey, RemoteRow>, b: map<RowKey, RemoteRow>)
    requires forall r, q :: r in matched && q in matched && Key(r) == Key(q) ==> r == q
    requires IsKnown(a, matched) && IsKnown(b, matched)
    ensures a == b
  {
    forall key
      ensures key in a <==> key in b
      ensures key in a && key in b ==> a[key] == b[key]
    {
      assert key in a ==> Key(a[key]) in b;
      assert key in b ==> Key(b[key]) in a;
    }
  }

  lemma SomeKnown(matched: set<RemoteRow>) returns (known: map<RowKey, RemoteRow>)
    ensures IsKnown(known, matched)
  {
    known := map[];
    var todo := matched;
    while todo != {}
      invariant todo <= matched
      invariant IsKnown(known, matched - todo)
    {
      var row := Pick(todo);
      known := known[Key(row) := row];
      todo := todo - {row};
    }
    assert matched - todo == matched;
  }

  // ---------- Further claims ----------

  lemma MoreClaimants(maps: seq<PurchaseMap>, orphans: seq<Source>, s: Source, rows: seq<RemoteRow>, key: RowKey)
    ensures Claimants(maps, orphans, rows, key) <= Claimants(maps, orphans + [s], rows, key)
  {
    if exists o :: o in orphans && Disputes(o, rows, key) {
      var o :| o in orphans && Disputes(o, rows, key);
      assert o in orphans + [s];
    }
  }

  /** Another source without an owner can only take measured rows away from a purchase. */
  lemma OrphansOnlyShrink(maps: seq<PurchaseMap>, orphans: seq<Source>, s: Source, rows: seq<RemoteRow>, m: PurchaseMap, known: map<RowKey, RemoteRow>)
    requires m in maps && IsKnown(known, Matched(m, rows))
    ensures
      var before := Judge(m.conflict, Covered(m, rows), known, Unshared(maps, orphans, rows, m.order, known.Keys));
      var after := Judge(m.conflict, Covered(m, rows), known, Unshared(maps, orphans + [s], rows, m.order, known.Keys));
      && Measured(after).Keys <= Measured(before).Keys
      && (after.1 == Evidence.Complete ==> before == after)
  {
    var fewer, more := Unshared(maps, orphans + [s], rows, m.order, known.Keys), Unshared(maps, orphans, rows, m.order, known.Keys);
    forall key | key in fewer
      ensures key in more
    {
      MoreClaimants(maps, orphans, s, rows, key);
      KnownIsClaimed(maps, orphans, rows, m, known, key);
    }
    assert fewer <= more;
    if Exclusive(known, more) == map[] {
      assert Exclusive(known, fewer).Keys <= Exclusive(known, more).Keys;
    }
  }
}
