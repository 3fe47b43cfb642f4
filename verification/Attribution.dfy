/** Which remote rows are measured for which purchase (resolve_maps in customer_activity/mapping.py). */
module Attribution {
  import opened Prelude
  import opened Identities
  import Evidence

  const PASARGUARD := "pasarguard"

  // A delivered source: where it lives and the digests it may be known by.
  datatype Source = Source(panel: Option<nat>, inbound: Option<nat>, node: string, hashes: set<Hash>, required: Option<Hash>)

  // A purchase with its sources; "conflict" is a non-empty set of issues, whose only member is "ownership_conflict".
  datatype PurchaseMap = PurchaseMap(order: nat, sources: set<Source>, conflict: bool)

  // A purchase that claims a row, or None for a source that no purchase owns.
  type Claimant = Option<nat>

  type Answer = (map<RowKey, RemoteRow>, Evidence.Attribution)

  // ---------- One source ----------

  predicate Identifiable(s: Source) {
    s.panel.Some? && (s.inbound.Some? || s.node == PASARGUARD) && s.hashes != {}
  }

  predicate Overlaps(s: Source, row: RemoteRow) {
    s.hashes * row.aliases != {}
  }

  predicate Matches(s: Source, row: RemoteRow) {
    && s.panel == Some(row.panel) && (s.required.None? || s.required.value in row.aliases) && Overlaps(s, row)
    && (s.node == PASARGUARD || row.inbound == s.inbound) && row.node == s.node
  }

  /** An unresolved source casts doubt on every row it might be: on its panel, or on any if it has none. */
  predicate Touches(s: Source, row: RemoteRow) {
    (s.panel.None? || s.panel == Some(row.panel)) && Overlaps(s, row)
  }

  ghost function MatchesAt(s: Source, rows: seq<RemoteRow>): set<int> {
    set i | 0 <= i < |rows| && Matches(s, rows[i])
  }

  /** The only row that matches, if there is exactly one. */
  ghost function Resolve(s: Source, rows: seq<RemoteRow>): Option<RemoteRow> {
    if Identifiable(s) && |MatchesAt(s, rows)| == 1 then Some(rows[Pick(MatchesAt(s, rows))]) else None
  }

  method ResolveSource(s: Source, rows: seq<RemoteRow>) returns (row: Option<RemoteRow>)
    ensures row == Resolve(s, rows)
  {
    if !Identifiable(s) {
      return None;
    }
    var matches: seq<RemoteRow> := [];
    ghost var at: set<int> := {};
    for i := 0 to |rows|
      invariant at == (set j | 0 <= j < i && Matches(s, rows[j]))
      invariant |matches| == |at|
      invariant |matches| == 1 ==> exists j :: j in at && at == {j} && matches[0] == rows[j]
    {
      if Matches(s, rows[i]) {
        if at == {} {
          assert at + {i} == {i};
        }
        matches, at := matches + [rows[i]], at + {i};
      }
    }
    assert at == MatchesAt(s, rows);
    return if |matches| == 1 then Some(matches[0]) else None;
  }

  // ---------- Claims ----------

  /** The source claims the row stored under the key. */
  ghost predicate Claims(s: Source, rows: seq<RemoteRow>, key: RowKey) {
    match Resolve(s, rows)
    case Some(row) => Key(row) == key
    case None => exists row :: row in rows && Touches(s, row) && Key(row) == key
  }

  ghost predicate Disputes(s: Source, rows: seq<RemoteRow>, key: RowKey) {
    exists row :: row in rows && Touches(s, row) && Key(row) == key
  }

  ghost function Claimants(maps: seq<PurchaseMap>, orphans: seq<Source>, rows: seq<RemoteRow>, key: RowKey): set<Claimant> {
    (set m, s | m in maps && s in m.sources && Claims(s, rows, key) :: Some(m.order))
    + (if exists s :: s in orphans && Disputes(s, rows, key) then {None} else {})
  }

  function Lookup(claims: map<RowKey, set<Claimant>>, key: RowKey): set<Claimant> {
    if key in claims then claims[key] else {}
  }

  /** The claim of one unresolved source on every row it touches. */
  method ClaimTouched(claims: map<RowKey, set<Claimant>>, claimant: Claimant, s: Source, rows: seq<RemoteRow>)
    returns (more: map<RowKey, set<Claimant>>)
    ensures forall key :: Lookup(more, key) == Lookup(claims, key) + if Disputes(s, rows, key) then {claimant} else {}
  {
    more := claims;
    for i := 0 to |rows|
      invariant forall key :: Lookup(more, key) == Lookup(claims, key) + if Disputes(s, rows[..i], key) then {claimant} else {}
    {
      assert rows[..i + 1] == rows[..i] + [rows[i]];
      if Touches(s, rows[i]) {
        more := more[Key(rows[i]) := Lookup(more, Key(rows[i])) + {claimant}];
      }
    }
    assert rows[..|rows|] == rows;
  }

  // ---------- The verdict on one purchase ----------

  ghost function Matched(m: PurchaseMap, rows: seq<RemoteRow>): set<RemoteRow> {
    set s | s in m.sources && Resolve(s, rows).Some? :: Resolve(s, rows).value
  }

  ghost predicate Covered(m: PurchaseMap, rows: seq<RemoteRow>) {
    m.sources != {} && forall s :: s in m.sources ==> Resolve(s, rows).Some?
  }

  /** The dictionary of matched rows: when two rows share a key, either may stand for it. */
  ghost predicate IsKnown(known: map<RowKey, RemoteRow>, matched: set<RemoteRow>) {
    && (forall key :: key in known ==> known[key] in matched && Key(known[key]) == key)
    && (forall row :: row in matched ==> Key(row) in known)
  }

  /** The part of the matched rows that only this purchase claims and that has counters. */
  function Exclusive(known: map<RowKey, RemoteRow>, single: set<RowKey>): map<RowKey, RemoteRow> {
    map key | key in known && key in single && known[key].statsAvailable :: known[key]
  }

  function Judge(conflict: bool, covered: bool, known: map<RowKey, RemoteRow>, single: set<RowKey>): Answer {
    if conflict then (known, Evidence.Refused(Evidence.OwnershipConflict))
    else if covered && (forall key :: key in known ==> key in single && known[key].statsAvailable) then (known, Evidence.Complete)
    else if Exclusive(known, single) != map[] then (Exclusive(known, single), Evidence.PartialCoverage)
    else if exists key :: key in known && key !in single then (known, Evidence.Refused(Evidence.SharedIdentity))
    else if !covered then (known, Evidence.Refused(Evidence.UnmappedSource))
    else (known, Evidence.Refused(Evidence.MissingCounters))
  }

  /** The keys of which no one but the purchase is a claimant. */
  ghost function Unshared(maps: seq<PurchaseMap>, orphans: seq<Source>, rows: seq<RemoteRow>, order: nat, keys: set<RowKey>): set<RowKey> {
    set key | key in keys && Claimants(maps, orphans, rows, key) == {Some(order)}
  }

  ghost predicate Answers(maps: seq<PurchaseMap>, orphans: seq<Source>, rows: seq<RemoteRow>, m: PurchaseMap, answer: Answer) {
    exists known :: IsKnown(known, Matched(m, rows))
      && answer == Judge(m.conflict, Covered(m, rows), known, Unshared(maps, orphans, rows, m.order, known.Keys))
  }

  ghost predicate DistinctOrders(maps: seq<PurchaseMap>) {
    forall i, j :: 0 <= i < j < |maps| ==> maps[i].order != maps[j].order
  }

  // ---------- The loops ----------

  /** The rows of one purchase's sources, and its claims on them. */
  method ResolvePurchase(m: PurchaseMap, rows: seq<RemoteRow>, claims: map<RowKey, set<Claimant>>)
    returns (known: map<RowKey, RemoteRow>, covered: bool, more: map<RowKey, set<Claimant>>, unresolved: seq<Source>)
    ensures IsKnown(known, Matched(m, rows)) && (covered <==> Covered(m, rows))
    ensures forall s :: s in unresolved <==> s in m.sources && Resolve(s, rows).None?
    ensures forall key :: Lookup(more, key) == Lookup(claims, key) + if key in known then {Some(m.order)} else {}
  {
    known, covered, more, unresolved := map[], m.sources != {}, claims, [];
    var done: set<Source>, todo := {}, m.sources;
    while todo != {}
      invariant done !! todo && done + todo == m.sources
      invariant IsKnown(known, Matched(PurchaseMap(m.order, done, m.conflict), rows))
      invariant covered <==> m.sources != {} && forall s :: s in done ==> Resolve(s, rows).Some?
      invariant forall s :: s in unresolved <==> s in done && Resolve(s, rows).None?
      invariant Claimed(claims, more, known.Keys, Some(m.order))
    {
      var s :| s in todo;
      var row := ResolveSource(s, rows);
      MatchedStep(m, done, s, rows);
      done, todo := done + {s}, todo - {s};
      if row.Some? {
        var key := Key(row.value);
        ClaimStep(claims, more, known.Keys, key, Some(m.order));
        known := known[key := row.value];
        more := more[key := Lookup(more, key) + {Some(m.order)}];
      } else {
        covered, unresolved := false, unresolved + [s];
      }
    }
    assert done == m.sources;
    assert PurchaseMap(m.order, done, m.conflict) == m;
  }

  ghost predicate Claimed(claims: map<RowKey, set<Claimant>>, more: map<RowKey, set<Claimant>>, keys: set<RowKey>, claimant: Claimant) {
    forall key :: Lookup(more, key) == Lookup(claims, key) + if key in keys then {claimant} else {}
  }

  lemma ClaimStep(claims: map<RowKey, set<Claimant>>, more: map<RowKey, set<Claimant>>, keys: set<RowKey>, key: RowKey, claimant: Claimant)
    requires Claimed(claims, more, keys, claimant)
    ensures Claimed(claims, more[key := Lookup(more, key) + {claimant}], keys + {key}, claimant)
  {
  }

  lemma MatchedStep(m: PurchaseMap, done: set<Source>, s: Source, rows: seq<RemoteRow>)
    ensures Matched(PurchaseMap(m.order, done + {s}, m.conflict), rows)
            == Matched(PurchaseMap(m.order, done, m.conflict), rows) + if Resolve(s, rows).Some? then {Resolve(s, rows).value} else {}
  {
  }

  // The purchases that claim a key by a resolved source.
  ghost function Resolvers(maps: seq<PurchaseMap>, rows: seq<RemoteRow>, key: RowKey): set<Claimant> {
    set m, s | m in maps && s in m.sources && Resolve(s, rows).Some? && Key(Resolve(s, rows).value) == key :: Some(m.order)
  }

  ghost function Disputers(pairs: seq<(Claimant, Source)>, rows: seq<RemoteRow>, key: RowKey): set<Claimant> {
    set p | p in pairs && Disputes(p.1, rows, key) :: p.0
  }

  ghost predicate Unresolved(maps: seq<PurchaseMap>, rows: seq<RemoteRow>, pairs: seq<(Claimant, Source)>) {
    forall c: Claimant, s :: (c, s) in pairs <==> exists m :: m in maps && c == Some(m.order) && s in m.sources && Resolve(s, rows).None?
  }

  lemma ResolversStep(maps: seq<PurchaseMap>, m: PurchaseMap, rows: seq<RemoteRow>, known: map<RowKey, RemoteRow>, key: RowKey)
    requires IsKnown(known, Matched(m, rows))
    ensures Resolvers(maps + [m], rows, key) == Resolvers(maps, rows, key) + if key in known then {Some(m.order)} else {}
  {
    var before, after := Resolvers(maps, rows, key), Resolvers(maps + [m], rows, key);
    if key in known {
      var s :| s in m.sources && Resolve(s, rows).Some? && Resolve(s, rows).value == known[key];
      assert m in maps + [m];
      assert Some(m.order) in after;
    }
    forall c | c in after
      ensures c in before + if key in known then {Some(m.order)} else {}
    {
      var m', s :| m' in maps + [m] && s in m'.sources && Resolve(s, rows).Some? && Key(Resolve(s, rows).value) == key && c == Some(m'.order);
      if m' == m {
        assert Resolve(s, rows).value in Matched(m, rows);
      }
    }
    forall c | c in before
      ensures c in after
    {
      var m', s :| m' in maps && s in m'.sources && Resolve(s, rows).Some? && Key(Resolve(s, rows).value) == key && c == Some(m'.order);
      assert m' in maps + [m];
    }
  }

  lemma UnresolvedStep(maps: seq<PurchaseMap>, m: PurchaseMap, rows: seq<RemoteRow>, pairs: seq<(Claimant, Source)>, unresolved: seq<Source>)
    requires Unresolved(maps, rows, pairs)
    requires forall s :: s in unresolved <==> s in m.sources && Resolve(s, rows).None?
    ensures Unresolved(maps + [m], rows, pairs + Paired(Some(m.order), unresolved))
  {
    forall c: Claimant, s
      ensures (c, s) in pairs + Paired(Some(m.order), unresolved)
              <==> exists m' :: m' in maps + [m] && c == Some(m'.order) && s in m'.sources && Resolve(s, rows).None?
    {
      PairedHolds(Some(m.order), unresolved, c, s);
      if exists m' :: m' in maps && c == Some(m'.order) && s in m'.sources && Resolve(s, rows).None? {
        var m' :| m' in maps && c == Some(m'.order) && s in m'.sources && Resolve(s, rows).None?;
        assert m' in maps + [m];
      }
      assert m in maps + [m];
    }
  }

  function Paired(c: Claimant, sources: seq<Source>): seq<(Claimant, Source)> {
    seq(|sources|, i requires 0 <= i < |sources| => (c, sources[i]))
  }

  lemma PairedHolds(claimant: Claimant, sources: seq<Source>, c: Claimant, s: Source)
    ensures (c, s) in Paired(claimant, sources) <==> c == claimant && s in sources
  {
    var pairs := Paired(claimant, sources);
    if c == claimant && s in sources {
      var i :| 0 <= i < |sources| && sources[i] == s;
      assert pairs[i] == (c, s);
    }
  }

  lemma ClaimantsSplit(maps: seq<PurchaseMap>, orphans: seq<Source>, rows: seq<RemoteRow>, pairs: seq<(Claimant, Source)>, key: RowKey)
    requires Unresolved(maps, rows, pairs)
    ensures Claimants(maps, orphans, rows, key) == Resolvers(maps, rows, key) + Disputers(pairs + Paired(None, orphans), rows, key)
  {
    var all := pairs + Paired(None, orphans);
    var left, right := Claimants(maps, orphans, rows, key), Resolvers(maps, rows, key) + Disputers(all, rows, key);
    forall c | c in left
      ensures c in right
    {
      if c.Some? {
        var m, s :| m in maps && s in m.sources && Claims(s, rows, key) && c == Some(m.order);
        if Resolve(s, rows).None? {
          assert (c, s) in pairs;
          assert (c, s) in all;
        }
      } else {
        var s :| s in orphans && Disputes(s, rows, key);
        PairedHolds(None, orphans, None, s);
        assert (None, s) in all;
      }
    }
    forall c | c in Resolvers(maps, rows, key)
      ensures c in left
    {
      var m, s :| m in maps && s in m.sources && Resolve(s, rows).Some? && Key(Resolve(s, rows).value) == key && c == Some(m.order);
      assert Claims(s, rows, key);
    }
    forall c | c in Disputers(all, rows, key)
      ensures c in left
    {
      var p :| p in all && Disputes(p.1, rows, key) && p.0 == c;
      PairedHolds(None, orphans, p.0, p.1);
      if p in pairs {
        assert (p.0, p.1) in pairs;
        var m :| m in maps && p.0 == Some(m.order) && p.1 in m.sources && Resolve(p.1, rows).None?;
        assert Claims(p.1, rows, key);
      }
    }
  }

  /** A purchase is a claimant of each of its matched rows. */
  lemma KnownIsClaimed(maps: seq<PurchaseMap>, orphans: seq<Source>, rows: seq<RemoteRow>, m: PurchaseMap, known: map<RowKey, RemoteRow>, key: RowKey)
    requires m in maps && IsKnown(known, Matched(m, rows)) && key in known
    ensures Some(m.order) in Claimants(maps, orphans, rows, key)
  {
    var s :| s in m.sources && Resolve(s, rows).Some? && Resolve(s, rows).value == known[key];
    assert Claims(s, rows, key);
  }

  method AnswerPurchase(maps: seq<PurchaseMap>, orphans: seq<Source>, rows: seq<RemoteRow>, m: PurchaseMap,
                        known: map<RowKey, RemoteRow>, covered: bool, claims: map<RowKey, set<Claimant>>) returns (answer: Answer)
    requires m in maps && IsKnown(known, Matched(m, rows)) && covered == Covered(m, rows)
    requires forall key :: Lookup(claims, key) == Claimants(maps, orphans, rows, key)
    ensures Answers(maps, orphans, rows, m, answer)
  {
    SingleIsUnshared(maps, orphans, rows, m, known, claims);
    answer := JudgeKnown(m.conflict, covered, known, claims);
  }

  lemma SingleIsUnshared(maps: seq<PurchaseMap>, orphans: seq<Source>, rows: seq<RemoteRow>, m: PurchaseMap,
                         known: map<RowKey, RemoteRow>, claims: map<RowKey, set<Claimant>>)
    requires m in maps && IsKnown(known, Matched(m, rows))
    requires forall key :: Lookup(claims, key) == Claimants(maps, orphans, rows, key)
    ensures Single(known, claims) == Unshared(maps, orphans, rows, m.order, known.Keys)
    ensures forall key :: key in known ==> Lookup(claims, key) != {}
  {
    forall key | key in known
      ensures |Lookup(claims, key)| == 1 <==> Claimants(maps, orphans, rows, key) == {Some(m.order)}
      ensures Lookup(claims, key) != {}
    {
      KnownIsClaimed(maps, orphans, rows, m, known, key);
      OnlyMember(Claimants(maps, orphans, rows, key), Some(m.order));
    }
  }

  function Single(known: map<RowKey, RemoteRow>, claims: map<RowKey, set<Claimant>>): set<RowKey> {
    set key | key in known && |Lookup(claims, key)| == 1
  }

  /** The reasons in the order in which they are tried, and the fallback to the exclusive part. */
  method JudgeKnown(conflict: bool, covered: bool, known: map<RowKey, RemoteRow>, claims: map<RowKey, set<Claimant>>) returns (answer: Answer)
    requires forall key :: key in known ==> Lookup(claims, key) != {}
    ensures answer == Judge(conflict, covered, known, Single(known, claims))
  {
    var reason := Evidence.Complete;
    if conflict {
      reason := Evidence.Refused(Evidence.OwnershipConflict);
    } else if exists key :: key in known && |Lookup(claims, key)| > 1 {
      reason := Evidence.Refused(Evidence.SharedIdentity);
    } else if !covered {
      reason := Evidence.Refused(Evidence.UnmappedSource);
    } else if exists key :: key in known && !known[key].statsAvailable {
      reason := Evidence.Refused(Evidence.MissingCounters);
    }
    answer := (known, reason);
    if reason != Evidence.Complete && !conflict {
      var exclusive := Exclusive(known, Single(known, claims));
      if exclusive != map[] {
        answer := (exclusive, Evidence.PartialCoverage);
      }
    }
    assert forall key :: key in known ==> (|Lookup(claims, key)| > 1 <==> key !in Single(known, claims));
  }

  lemma OnlyMember<T>(s: set<T>, x: T)
    requires x in s
    ensures |s| >= 1 && (|s| == 1 <==> s == {x})
  {
    SubsetSize({x}, s);
    if |s| == 1 {
      forall y | y in s
        ensures y == x
      {
        SubsetSize({x, y}, s);
      }
    }
  }

  /** Resolve every source, collect every claim, then judge every purchase. */
  method ResolveMaps(maps: seq<PurchaseMap>, orphans: seq<Source>, rows: seq<RemoteRow>) returns (result: map<nat, Answer>)
    requires DistinctOrders(maps)
    ensures forall order :: order in result <==> exists m :: m in maps && m.order == order
    ensures forall m :: m in maps ==> m.order in result && Answers(maps, orphans, rows, m, result[m.order])
  {
    var knowns, covers, claims := CollectClaims(maps, orphans, rows);
    result := map[];
    for i := 0 to |maps|
      invariant forall order :: order in result <==> exists j :: 0 <= j < i && maps[j].order == order
      invariant forall j :: 0 <= j < i ==> maps[j].order in result && Answers(maps, orphans, rows, maps[j], result[maps[j].order])
    {
      var answer := AnswerPurchase(maps, orphans, rows, maps[i], knowns[i], covers[i], claims);
      result := result[maps[i].order := answer];
    }
  }

  method CollectClaims(maps: seq<PurchaseMap>, orphans: seq<Source>, rows: seq<RemoteRow>)
    returns (knowns: seq<map<RowKey, RemoteRow>>, covers: seq<bool>, claims: map<RowKey, set<Claimant>>)
    ensures |knowns| == |covers| == |maps|
    ensures forall j :: 0 <= j < |maps| ==> IsKnown(knowns[j], Matched(maps[j], rows)) && covers[j] == Covered(maps[j], rows)
    ensures forall key :: Lookup(claims, key) == Claimants(maps, orphans, rows, key)
  {
    var pairs: seq<(Claimant, Source)> := [];
    knowns, covers, claims := [], [], map[];
    for i := 0 to |maps|
      invariant |knowns| == |covers| == i
      invariant forall j :: 0 <= j < i ==> IsKnown(knowns[j], Matched(maps[j], rows)) && covers[j] == Covered(maps[j], rows)
      invariant forall key :: Lookup(claims, key) == Resolvers(maps[..i], rows, key)
      invariant Unresolved(maps[..i], rows, pairs)
    {
      var known, covered, more, unresolved := ResolvePurchase(maps[i], rows, claims);
      assert maps[..i + 1] == maps[..i] + [maps[i]];
      forall key
        ensures Lookup(more, key) == Resolvers(maps[..i + 1], rows, key)
      {
        ResolversStep(maps[..i], maps[i], rows, known, key);
      }
      UnresolvedStep(maps[..i], maps[i], rows, pairs, unresolved);
      knowns, covers, claims := knowns + [known], covers + [covered], more;
      pairs := pairs + Paired(Some(maps[i].order), unresolved);
    }
    assert maps[..|maps|] == maps;
    ghost var owned := pairs;
    claims := ClaimDisputed(claims, pairs + Paired(None, orphans), rows);
    forall key
      ensures Lookup(claims, key) == Claimants(maps, orphans, rows, key)
    {
      ClaimantsSplit(maps, orphans, rows, owned, key);
    }
  }

  method ClaimDisputed(claims: map<RowKey, set<Claimant>>, pairs: seq<(Claimant, Source)>, rows: seq<RemoteRow>)
    returns (more: map<RowKey, set<Claimant>>)
    ensures forall key :: Lookup(more, key) == Lookup(claims, key) + Disputers(pairs, rows, key)
  {
    more := claims;
    for i := 0 to |pairs|
      invariant forall key :: Lookup(more, key) == Lookup(claims, key) + Disputers(pairs[..i], rows, key)
    {
      assert pairs[..i + 1] == pairs[..i] + [pairs[i]];
      more := ClaimTouched(more, pairs[i].0, pairs[i].1, rows);
    }
    assert pairs[..|pairs|] == pairs;
  }
}
