/** From the tables of purchases and the rows of the panels to the polls of one collection (collect_activity in customer_activity/services.py). */
module Collection {
  import opened Prelude
  import opened Identities
  import opened Attribution
  import opened AttributionSafety
  import opened Ownership
  import Activity
  import Evidence

  // ---------- The tables and the answers ----------

  /** The loaded purchases as the resolution takes them. */
  ghost predicate MapsOf(loaded: map<nat, Loaded>, maps: seq<PurchaseMap>) {
    && DistinctOrders(maps)
    && forall m :: m in maps <==> m.order in loaded && m == PurchaseMap(m.order, loaded[m.order].sources, loaded[m.order].conflict)
  }

  /** The same of the loaded purchases without those still to do. */
  ghost predicate MapsSoFar(loaded: map<nat, Loaded>, todo: set<nat>, maps: seq<PurchaseMap>) {
    && DistinctOrders(maps)
    && forall m :: m in maps <==>
         m.order in loaded && m.order !in todo && m == PurchaseMap(m.order, loaded[m.order].sources, loaded[m.order].conflict)
  }

  lemma OneMap(loaded: map<nat, Loaded>, todo: set<nat>, maps: seq<PurchaseMap>, o: nat)
    requires MapsSoFar(loaded, todo, maps) && o in todo && o in loaded
    ensures MapsSoFar(loaded, todo - {o}, maps + [PurchaseMap(o, loaded[o].sources, loaded[o].conflict)])
  {
  }

  method MapAll(loaded: map<nat, Loaded>) returns (maps: seq<PurchaseMap>)
    ensures MapsOf(loaded, maps)
  {
    maps := [];
    var todo := loaded.Keys;
    while todo != {}
      invariant todo <= loaded.Keys && MapsSoFar(loaded, todo, maps)
    {
      var o :| o in todo;
      OneMap(loaded, todo, maps, o);
      maps, todo := maps + [PurchaseMap(o, loaded[o].sources, loaded[o].conflict)], todo - {o};
    }
  }

  method AttributeAll(db: Tables, rows: seq<RemoteRow>)
    returns (loaded: map<nat, Loaded>, orphans: seq<Source>, owner: Owners, maps: seq<PurchaseMap>, result: map<nat, Answer>)
    requires Referential(db)
    ensures OwnersOf(db, owner) && Loads(db, owner, loaded, orphans)
    ensures MapsOf(loaded, maps) && AnswersAll(maps, orphans, rows, result)
  {
    loaded, orphans, owner := LoadMaps(db);
    maps := MapAll(loaded);
    result := ResolveMaps(maps, orphans, rows);
  }

  /** From the tables to the answers: no row is measured for two purchases, and no byte is counted twice. */
  lemma TablesAreConserved(loaded: map<nat, Loaded>, orphans: seq<Source>, maps: seq<PurchaseMap>, rows: seq<RemoteRow>, result: map<nat, Answer>)
    requires MapsOf(loaded, maps) && AnswersAll(maps, orphans, rows, result)
    ensures result.Keys == loaded.Keys && Disjoint(result)
    ensures UsedByAll(result) <= UsedByRows(rows)
  {
    forall o
      ensures o in result <==> o in loaded
    {
      if o in loaded {
        assert PurchaseMap(o, loaded[o].sources, loaded[o].conflict) in maps;
      }
    }
    AnswersAreDisjoint(maps, orphans, rows, result);
    BytesAreConserved(maps, orphans, rows, result);
  }

  /** The traffic of a client's remote row is measured for the client's owner or for no purchase, whatever renewals and cups there are. */
  lemma TrafficIsTheOwners(db: Tables, owner: Owners, loaded: map<nat, Loaded>, orphans: seq<Source>, maps: seq<PurchaseMap>,
                           rows: seq<RemoteRow>, result: map<nat, Answer>, c: nat, row: RemoteRow, o: nat)
    requires Referential(db) && OwnersOf(db, owner) && Loads(db, owner, loaded, orphans)
    requires MapsOf(loaded, maps) && AnswersAll(maps, orphans, rows, result)
    requires c in db.clients && Resolve(SourceForClient(db.clients[c]), rows) == Some(row)
    requires o in result && Key(row) in Measured(result[o])
    ensures owner[c] == Some(o)
  {
    OwnerIsClaimant(db, owner, loaded, orphans, maps, rows, c, row);
    MeasuredForItsClaimant(maps, orphans, rows, result, o, Key(row));
  }

  lemma OwnerIsClaimant(db: Tables, owner: Owners, loaded: map<nat, Loaded>, orphans: seq<Source>, maps: seq<PurchaseMap>,
                        rows: seq<RemoteRow>, c: nat, row: RemoteRow)
    requires Referential(db) && OwnersOf(db, owner) && Loads(db, owner, loaded, orphans) && MapsOf(loaded, maps)
    requires c in db.clients && Resolve(SourceForClient(db.clients[c]), rows) == Some(row)
    ensures owner[c] in Claimants(maps, orphans, rows, Key(row))
  {
    if owner[c].Some? {
      OwnerClaims(db, owner, loaded, orphans, maps, rows, c, row);
    } else {
      OrphanDisputes(db, owner, loaded, orphans, maps, rows, c, row);
    }
  }

  lemma MeasuredForItsClaimant(maps: seq<PurchaseMap>, orphans: seq<Source>, rows: seq<RemoteRow>, result: map<nat, Answer>, o: nat, key: RowKey)
    requires AnswersAll(maps, orphans, rows, result) && o in result && key in Measured(result[o])
    ensures Claimants(maps, orphans, rows, key) == {Some(o)}
  {
    var m :| m in maps && m.order == o;
    MeasuredIsExclusive(maps, orphans, rows, m, result[o]);
  }

  lemma OwnerClaims(db: Tables, owner: Owners, loaded: map<nat, Loaded>, orphans: seq<Source>, maps: seq<PurchaseMap>,
                    rows: seq<RemoteRow>, c: nat, row: RemoteRow)
    requires Referential(db) && OwnersOf(db, owner) && Loads(db, owner, loaded, orphans) && MapsOf(loaded, maps)
    requires c in db.clients && owner[c].Some? && Resolve(SourceForClient(db.clients[c]), rows) == Some(row)
    ensures owner[c] in Claimants(maps, orphans, rows, Key(row))
  {
    var s, p := SourceForClient(db.clients[c]), owner[c].value;
    OwnersAreOrders(db, owner);
    assert s in OwnSources(db, owner, p);
    assert Relevant(db, owner, p);
    var m := PurchaseMap(p, loaded[p].sources, loaded[p].conflict);
    assert m in maps && s in m.sources && Claims(s, rows, Key(row));
  }

  lemma OrphanDisputes(db: Tables, owner: Owners, loaded: map<nat, Loaded>, orphans: seq<Source>, maps: seq<PurchaseMap>,
                       rows: seq<RemoteRow>, c: nat, row: RemoteRow)
    requires Referential(db) && OwnersOf(db, owner) && Loads(db, owner, loaded, orphans)
    requires c in db.clients && owner[c].None? && Resolve(SourceForClient(db.clients[c]), rows) == Some(row)
    ensures None in Claimants(maps, orphans, rows, Key(row))
  {
    var s := SourceForClient(db.clients[c]);
    ResolvedMatches(s, rows);
    assert s in OrphansAmong(db, owner, db.clients.Keys);
    assert Touches(s, row) && s in orphans && Disputes(s, rows, Key(row));
  }

  // ---------- The answers and the polls ----------

  function Readings(known: map<RowKey, RemoteRow>): map<RowKey, Reading> {
    map key | key in known :: known[key].reading
  }

  /** What is handed over to be recorded. */
  function PollOf(purchase: Evidence.Purchase, answer: Answer, now: Instant): Activity.Poll {
    Activity.Poll(purchase, Readings(answer.0), answer.1, now)
  }

  /**
   * A purchase whose only row lacks its counters is refused for that reason, but the row is handed over all the same;
   * with a quota and no usage, and neither expired nor limited, it cannot be recorded, whatever the activity row says.
   */
  lemma MissingUsageRaises(maps: seq<PurchaseMap>, orphans: seq<Source>, rows: seq<RemoteRow>, m: PurchaseMap, answer: Answer,
                           row: RemoteRow, purchase: Evidence.Purchase, now: Instant)
    requires Answers(maps, orphans, rows, m, answer) && !m.conflict && Covered(m, rows)
    requires Matched(m, rows) == {row} && Claimants(maps, orphans, rows, Key(row)) == {Some(m.order)}
    requires !row.statsAvailable && Evidence.Unreadable(row.reading, now) && !purchase.superseded
    ensures answer == (map[Key(row) := row], Evidence.Refused(Evidence.MissingCounters))
    ensures forall activity: Activity.Row :: !Activity.Recorded(activity, PollOf(purchase, answer, now))
  {
    MissingCountersAreHandedOver(maps, orphans, rows, m, answer, row);
    UnreadableIsNotRecorded(purchase, answer, now, Key(row));
  }

  lemma MissingCountersAreHandedOver(maps: seq<PurchaseMap>, orphans: seq<Source>, rows: seq<RemoteRow>, m: PurchaseMap, answer: Answer, row: RemoteRow)
    requires Answers(maps, orphans, rows, m, answer) && !m.conflict && Covered(m, rows)
    requires Matched(m, rows) == {row} && Claimants(maps, orphans, rows, Key(row)) == {Some(m.order)} && !row.statsAvailable
    ensures answer == (map[Key(row) := row], Evidence.Refused(Evidence.MissingCounters))
  {
    var known :| IsKnown(known, Matched(m, rows))
                 && answer == Judge(m.conflict, Covered(m, rows), known, Unshared(maps, orphans, rows, m.order, known.Keys));
    OnlyKnown(known, row);
    assert Unshared(maps, orphans, rows, m.order, {Key(row)}) == {Key(row)};
    JudgeMissing(known, {Key(row)}, Key(row));
  }

  lemma OnlyKnown(known: map<RowKey, RemoteRow>, row: RemoteRow)
    requires IsKnown(known, {row})
    ensures known == map[Key(row) := row] && known.Keys == {Key(row)}
  {
    assert row in {row};
  }

  lemma JudgeMissing(known: map<RowKey, RemoteRow>, single: set<RowKey>, key: RowKey)
    requires known.Keys == single == {key} && !known[key].statsAvailable
    ensures Judge(false, true, known, single) == (known, Evidence.Refused(Evidence.MissingCounters))
  {
    assert !known[key].statsAvailable;
    assert Exclusive(known, single) == map[];
  }

  lemma UnreadableIsNotRecorded(purchase: Evidence.Purchase, answer: Answer, now: Instant, key: RowKey)
    requires key in answer.0 && Evidence.Unreadable(answer.0[key].reading, now) && !purchase.superseded
    ensures forall activity: Activity.Row :: !Activity.Recorded(activity, PollOf(purchase, answer, now))
  {
    assert Readings(answer.0)[key] == answer.0[key].reading;
  }

  // A PasarGuard account, as its reader gives it when the panel does not say how much has been used.
  const SOURCE: Source := Source(Some(1), Some(1), PASARGUARD, {Hash("a")}, None)
  const NO_USAGE: RemoteRow :=
    RemoteRow(1, None, "user", PASARGUARD, Hash("b"), {Hash("a")}, false,
              Reading(None, Some(0), None, 0, Some(1), None, OtherRemoteStatus, Some(true)))
  const PURCHASE: PurchaseMap := PurchaseMap(1, {SOURCE}, false)

  /** Such a purchase exists: one PasarGuard account with a quota, of which the panel does not say how much has been used. */
  lemma MissingUsageIsReal(purchase: Evidence.Purchase, now: Instant)
    requires !purchase.superseded
    ensures var answer := (map[Key(NO_USAGE) := NO_USAGE], Evidence.Refused(Evidence.MissingCounters));
      && Answers([PURCHASE], [], [NO_USAGE], PURCHASE, answer)
      && forall activity: Activity.Row :: !Activity.Recorded(activity, PollOf(purchase, answer, now))
  {
    var maps, rows := [PURCHASE], [NO_USAGE];
    assert Hash("a") in SOURCE.hashes * NO_USAGE.aliases;
    assert MatchesAt(SOURCE, rows) == {0};
    assert Resolve(SOURCE, rows) == Some(NO_USAGE);
    assert Matched(PURCHASE, rows) == {NO_USAGE};
    assert PURCHASE in maps && Claims(SOURCE, rows, Key(NO_USAGE));
    assert Claimants(maps, [], rows, Key(NO_USAGE)) == {Some(1)};
    var known := map[Key(NO_USAGE) := NO_USAGE];
    assert IsKnown(known, Matched(PURCHASE, rows));
    var answer := Judge(false, Covered(PURCHASE, rows), known, Unshared(maps, [], rows, 1, known.Keys));
    MissingUsageRaises(maps, [], rows, PURCHASE, answer, NO_USAGE, purchase, now);
  }
}
