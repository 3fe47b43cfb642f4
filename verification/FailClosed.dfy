/** What a measured row excludes, by panels, inbounds, digests and aliases (resolve_maps in customer_activity/mapping.py). */
module FailClosed {
  import opened Prelude
  import opened Identities
  import opened Attribution
  import opened AttributionSafety
  import opened Ownership
  import opened Collection
  import opened RightfulOwners
  import Evidence

  // ---------- Resolving ----------

  /** The row lives where the source says, carries one of its digests, and the required one if there is one. */
  predicate Fits(s: Source, row: RemoteRow) {
    && s.panel == Some(row.panel) && s.node == row.node && (s.node == PASARGUARD || s.inbound == row.inbound)
    && (exists h :: h in s.hashes && h in row.aliases) && (s.required.Some? ==> s.required.value in row.aliases)
  }

  /** The row at place i is the only one that fits a source with a panel and an inbound, or with the node of a PasarGuard panel. */
  ghost predicate OnlyFit(s: Source, rows: seq<RemoteRow>, i: int) {
    && s.panel.Some? && (s.inbound.Some? || s.node == PASARGUARD)
    && 0 <= i < |rows| && Fits(s, rows[i]) && forall j :: 0 <= j < |rows| && Fits(s, rows[j]) ==> j == i
  }

  lemma OverlapsExactly(s: Source, row: RemoteRow)
    ensures Overlaps(s, row) <==> exists h :: h in s.hashes && h in row.aliases
  {
    if h :| h in s.hashes && h in row.aliases {
      assert h in s.hashes * row.aliases;
    }
  }

  lemma MatchesIsFits(s: Source, row: RemoteRow)
    ensures Matches(s, row) <==> Fits(s, row)
  {
    OverlapsExactly(s, row);
  }

  lemma FittingPlaces(s: Source, rows: seq<RemoteRow>, i: int)
    requires 0 <= i < |rows|
    ensures i in MatchesAt(s, rows) <==> Fits(s, rows[i])
  {
    MatchesIsFits(s, rows[i]);
  }

  lemma OnlyPlace(s: Source, rows: seq<RemoteRow>, i: int)
    requires 0 <= i < |rows|
    ensures MatchesAt(s, rows) == {i} <==> Fits(s, rows[i]) && forall j :: 0 <= j < |rows| && Fits(s, rows[j]) ==> j == i
  {
    forall j | 0 <= j < |rows|
      ensures j in MatchesAt(s, rows) <==> Fits(s, rows[j])
    {
      FittingPlaces(s, rows, j);
    }
  }

  /** A source resolves to a row exactly when the row is the only one that fits it. */
  lemma ResolvesExactly(s: Source, rows: seq<RemoteRow>, row: RemoteRow)
    ensures Resolve(s, rows) == Some(row) <==> exists i :: OnlyFit(s, rows, i) && rows[i] == row
  {
    if Resolve(s, rows) == Some(row) {
      var i := Pick(MatchesAt(s, rows));
      OnlyMember(MatchesAt(s, rows), i);
      OnlyPlace(s, rows, i);
      assert OnlyFit(s, rows, i);
    }
    if exists i :: OnlyFit(s, rows, i) && rows[i] == row {
      var i :| OnlyFit(s, rows, i) && rows[i] == row;
      OnlyPlace(s, rows, i);
      assert s.hashes != {};
    }
  }

  // ---------- Claims ----------

  /** The source has a digest of the row, and its panel is unknown or the row's own. */
  predicate MayBe(s: Source, row: RemoteRow) {
    (s.panel.None? || s.panel.value == row.panel) && exists h :: h in s.hashes && h in row.aliases
  }

  /** No row of the reading with this key may be the source's. */
  ghost predicate CannotBe(s: Source, rows: seq<RemoteRow>, key: RowKey) {
    forall i :: 0 <= i < |rows| && Key(rows[i]) == key ==> !MayBe(s, rows[i])
  }

  ghost predicate ResolvesElsewhere(s: Source, rows: seq<RemoteRow>, key: RowKey) {
    exists i :: OnlyFit(s, rows, i) && Key(rows[i]) != key
  }

  /** The source has nothing to do with the key: it resolves to a row with another key, or resolves to none and cannot be a row with this one. */
  ghost predicate Apart(s: Source, rows: seq<RemoteRow>, key: RowKey) {
    ResolvesElsewhere(s, rows, key) || ((forall i :: !OnlyFit(s, rows, i)) && CannotBe(s, rows, key))
  }

  lemma DisputesExactly(s: Source, rows: seq<RemoteRow>, key: RowKey)
    ensures Disputes(s, rows, key) <==> !CannotBe(s, rows, key)
  {
    forall i | 0 <= i < |rows|
      ensures Touches(s, rows[i]) <==> MayBe(s, rows[i])
    {
      TouchesIsMayBe(s, rows[i]);
    }
    if Disputes(s, rows, key) {
      var row :| row in rows && Touches(s, row) && Key(row) == key;
      var i :| 0 <= i < |rows| && rows[i] == row;
      assert MayBe(s, rows[i]);
    }
  }

  lemma TouchesIsMayBe(s: Source, row: RemoteRow)
    ensures Touches(s, row) <==> MayBe(s, row)
  {
    OverlapsExactly(s, row);
  }

  lemma ClaimsExactly(s: Source, rows: seq<RemoteRow>, key: RowKey)
    ensures Claims(s, rows, key) <==> !Apart(s, rows, key)
  {
    match Resolve(s, rows)
    case Some(row) =>
      ResolvesExactly(s, rows, row);
      var i :| OnlyFit(s, rows, i) && rows[i] == row;
    case None =>
      DisputesExactly(s, rows, key);
      if i :| OnlyFit(s, rows, i) {
        ResolvesExactly(s, rows, rows[i]);
      }
  }

  // ---------- What is measured ----------

  /** Some source of the purchase may be the row with this key, or resolves to it. */
  ghost predicate HasClaim(m: PurchaseMap, rows: seq<RemoteRow>, key: RowKey) {
    exists s :: s in m.sources && !Apart(s, rows, key)
  }

  /** Nobody else has anything to do with the key: no other purchase, and no source without an owner that may be its row. */
  ghost predicate NobodyElse(maps: seq<PurchaseMap>, orphans: seq<Source>, rows: seq<RemoteRow>, o: nat, key: RowKey) {
    && (forall m :: m in maps && m.order != o ==> !HasClaim(m, rows, key))
    && (forall s :: s in orphans ==> CannotBe(s, rows, key))
  }

  lemma ClaimantExactly(maps: seq<PurchaseMap>, orphans: seq<Source>, rows: seq<RemoteRow>, key: RowKey, c: Claimant)
    ensures c in Claimants(maps, orphans, rows, key) <==>
              if c.Some? then exists m :: m in maps && m.order == c.value && HasClaim(m, rows, key)
              else exists s :: s in orphans && !CannotBe(s, rows, key)
  {
    forall s
      ensures Claims(s, rows, key) <==> !Apart(s, rows, key)
      ensures Disputes(s, rows, key) <==> !CannotBe(s, rows, key)
    {
      ClaimsExactly(s, rows, key);
      DisputesExactly(s, rows, key);
    }
    if m, s :| m in maps && s in m.sources && Claims(s, rows, key) && c == Some(m.order) {
      assert HasClaim(m, rows, key);
    }
    if c.Some? && exists m :: m in maps && m.order == c.value && HasClaim(m, rows, key) {
      var m :| m in maps && m.order == c.value && HasClaim(m, rows, key);
      var s :| s in m.sources && !Apart(s, rows, key);
      assert Claims(s, rows, key);
    }
  }

  lemma UnsharedExactly(maps: seq<PurchaseMap>, orphans: seq<Source>, rows: seq<RemoteRow>, m: PurchaseMap, key: RowKey)
    requires m in maps && HasClaim(m, rows, key)
    ensures Claimants(maps, orphans, rows, key) == {Some(m.order)} <==> NobodyElse(maps, orphans, rows, m.order, key)
  {
    forall c: Claimant
      ensures c in Claimants(maps, orphans, rows, key) <==>
                if c.Some? then exists n :: n in maps && n.order == c.value && HasClaim(n, rows, key)
                else exists s :: s in orphans && !CannotBe(s, rows, key)
    {
      ClaimantExactly(maps, orphans, rows, key, c);
    }
    if Claimants(maps, orphans, rows, key) == {Some(m.order)} {
      forall n | n in maps && n.order != m.order
        ensures !HasClaim(n, rows, key)
      {
        assert Some(n.order) !in Claimants(maps, orphans, rows, key);
      }
      assert None !in Claimants(maps, orphans, rows, key);
    }
  }

  /** The row at place i is the only one that fits one of the purchase's sources. */
  ghost predicate IsOwnRow(m: PurchaseMap, rows: seq<RemoteRow>, i: int) {
    exists s :: s in m.sources && OnlyFit(s, rows, i)
  }

  lemma MatchedExactly(m: PurchaseMap, rows: seq<RemoteRow>, row: RemoteRow)
    ensures row in Matched(m, rows) <==> exists i :: IsOwnRow(m, rows, i) && rows[i] == row
  {
    if row in Matched(m, rows) {
      var s :| s in m.sources && Resolve(s, rows) == Some(row);
      ResolvesExactly(s, rows, row);
      var i :| OnlyFit(s, rows, i) && rows[i] == row;
      assert IsOwnRow(m, rows, i);
    }
    if i :| IsOwnRow(m, rows, i) && rows[i] == row {
      var s :| s in m.sources && OnlyFit(s, rows, i);
      ResolvesExactly(s, rows, row);
    }
  }

  lemma OwnRowIsClaimed(m: PurchaseMap, rows: seq<RemoteRow>, i: int)
    requires IsOwnRow(m, rows, i)
    ensures HasClaim(m, rows, Key(rows[i]))
  {
    var s :| s in m.sources && OnlyFit(s, rows, i);
    assert !ResolvesElsewhere(s, rows, Key(rows[i]));
    assert !Apart(s, rows, Key(rows[i]));
  }

  /** A row that is measured is the purchase's own, has counters, and nobody else has anything to do with it. */
  lemma MeasuredIsSafe(maps: seq<PurchaseMap>, orphans: seq<Source>, rows: seq<RemoteRow>, m: PurchaseMap, answer: Answer, key: RowKey)
    requires m in maps && Answers(maps, orphans, rows, m, answer) && key in Measured(answer)
    ensures !m.conflict && NobodyElse(maps, orphans, rows, m.order, key)
    ensures exists i :: IsOwnRow(m, rows, i) && rows[i] == Measured(answer)[key] && Key(rows[i]) == key && rows[i].statsAvailable
  {
    MeasuredIsExclusive(maps, orphans, rows, m, answer);
    var row := Measured(answer)[key];
    MatchedExactly(m, rows, row);
    var i :| IsOwnRow(m, rows, i) && rows[i] == row;
    OwnRowIsClaimed(m, rows, i);
    UnsharedExactly(maps, orphans, rows, m, key);
  }

  /** And the other way round: what is safe to measure is measured. */
  lemma SafeIsMeasured(maps: seq<PurchaseMap>, orphans: seq<Source>, rows: seq<RemoteRow>, m: PurchaseMap, answer: Answer, i: int)
    requires m in maps && Answers(maps, orphans, rows, m, answer) && !m.conflict
    requires IsOwnRow(m, rows, i) && NobodyElse(maps, orphans, rows, m.order, Key(rows[i]))
    requires forall j :: IsOwnRow(m, rows, j) && Key(rows[j]) == Key(rows[i]) ==> rows[j].statsAvailable
    ensures Key(rows[i]) in Measured(answer)
  {
    OwnRowIsClaimed(m, rows, i);
    UnsharedExactly(maps, orphans, rows, m, Key(rows[i]));
    MatchedExactly(m, rows, rows[i]);
    forall row | row in Matched(m, rows) && Key(row) == Key(rows[i])
      ensures row.statsAvailable
    {
      MatchedExactly(m, rows, row);
    }
    MeasuredIsAll(maps, orphans, rows, m, answer, Key(rows[i]));
  }

  // ---------- Reasons ----------

  ghost predicate AllFit(m: PurchaseMap, rows: seq<RemoteRow>) {
    m.sources != {} && forall s :: s in m.sources ==> exists i :: OnlyFit(s, rows, i)
  }

  /** The known rows that have counters and that nobody else has anything to do with. */
  ghost function Free(maps: seq<PurchaseMap>, orphans: seq<Source>, rows: seq<RemoteRow>, o: nat, known: map<RowKey, RemoteRow>): set<RowKey> {
    set key | key in known && known[key].statsAvailable && NobodyElse(maps, orphans, rows, o, key)
  }

  ghost predicate SomeShared(maps: seq<PurchaseMap>, orphans: seq<Source>, rows: seq<RemoteRow>, o: nat, known: map<RowKey, RemoteRow>) {
    exists key :: key in known && !NobodyElse(maps, orphans, rows, o, key)
  }

  /** Each answer by what is known: everything, a free part of it, or nothing and why. */
  ghost predicate AnswerSays(m: PurchaseMap, known: map<RowKey, RemoteRow>, free: set<RowKey>, shared: bool, fits: bool, answer: Answer) {
    && (answer.1 == Evidence.Refused(Evidence.OwnershipConflict) <==> m.conflict)
    && (answer.1 == Evidence.Complete <==> !m.conflict && fits && free == known.Keys)
    && (answer.1 == Evidence.PartialCoverage <==> !m.conflict && free != {} && !(fits && free == known.Keys))
    && (answer.1 == Evidence.Refused(Evidence.SharedIdentity) <==> !m.conflict && free == {} && shared)
    && (answer.1 == Evidence.Refused(Evidence.UnmappedSource) <==> !m.conflict && free == {} && !shared && !fits)
    && (answer.1 == Evidence.Refused(Evidence.MissingCounters) <==> !m.conflict && free == {} && !shared && fits)
    && answer.0 == if answer.1 == Evidence.PartialCoverage then map key | key in known && key in free :: known[key] else known
  }

  lemma CoveredExactly(m: PurchaseMap, rows: seq<RemoteRow>, known: map<RowKey, RemoteRow>)
    requires IsKnown(known, Matched(m, rows))
    ensures Covered(m, rows) <==> AllFit(m, rows)
    ensures AllFit(m, rows) ==> known != map[]
  {
    forall s | s in m.sources
      ensures Resolve(s, rows).Some? <==> exists i :: OnlyFit(s, rows, i)
    {
      if Resolve(s, rows).Some? {
        ResolvesExactly(s, rows, Resolve(s, rows).value);
      }
      if i :| OnlyFit(s, rows, i) {
        ResolvesExactly(s, rows, rows[i]);
      }
    }
    if AllFit(m, rows) {
      var s := Pick(m.sources);
      assert Resolve(s, rows).value in Matched(m, rows);
    }
  }

  lemma UnsharedAreFree(maps: seq<PurchaseMap>, orphans: seq<Source>, rows: seq<RemoteRow>, m: PurchaseMap, known: map<RowKey, RemoteRow>)
    requires m in maps && IsKnown(known, Matched(m, rows))
    ensures forall key :: key in known ==>
              (key in Unshared(maps, orphans, rows, m.order, known.Keys) <==> NobodyElse(maps, orphans, rows, m.order, key))
  {
    forall key | key in known
      ensures Claimants(maps, orphans, rows, key) == {Some(m.order)} <==> NobodyElse(maps, orphans, rows, m.order, key)
    {
      MatchedExactly(m, rows, known[key]);
      var i :| IsOwnRow(m, rows, i) && rows[i] == known[key];
      OwnRowIsClaimed(m, rows, i);
      UnsharedExactly(maps, orphans, rows, m, key);
    }
  }

  lemma JudgeSays(m: PurchaseMap, known: map<RowKey, RemoteRow>, single: set<RowKey>, fits: bool)
    requires single <= known.Keys && (fits ==> known != map[])
    ensures var free := set key | key in known && known[key].statsAvailable && key in single;
      AnswerSays(m, known, free, !(known.Keys <= single), fits, Judge(m.conflict, fits, known, single))
  {
    var free := set key | key in known && known[key].statsAvailable && key in single;
    assert Exclusive(known, single) == map key | key in known && key in free :: known[key];
    assert Exclusive(known, single).Keys == free;
  }

  lemma FreeAndShared(maps: seq<PurchaseMap>, orphans: seq<Source>, rows: seq<RemoteRow>, o: nat, known: map<RowKey, RemoteRow>, single: set<RowKey>)
    requires single <= known.Keys && forall key :: key in known ==> (key in single <==> NobodyElse(maps, orphans, rows, o, key))
    ensures Free(maps, orphans, rows, o, known) == set key | key in known && known[key].statsAvailable && key in single
    ensures SomeShared(maps, orphans, rows, o, known) <==> !(known.Keys <= single)
  {
  }

  lemma KnownSays(maps: seq<PurchaseMap>, orphans: seq<Source>, rows: seq<RemoteRow>, m: PurchaseMap, known: map<RowKey, RemoteRow>,
                  single: set<RowKey>, answer: Answer)
    requires m in maps && IsKnown(known, Matched(m, rows)) && single == Unshared(maps, orphans, rows, m.order, known.Keys)
    requires answer == Judge(m.conflict, Covered(m, rows), known, single)
    ensures AnswerSays(m, known, Free(maps, orphans, rows, m.order, known), SomeShared(maps, orphans, rows, m.order, known), AllFit(m, rows), answer)
  {
    CoveredExactly(m, rows, known);
    UnsharedAreFree(maps, orphans, rows, m, known);
    FreeAndShared(maps, orphans, rows, m.order, known, single);
    JudgeSays(m, known, single, AllFit(m, rows));
  }

  /** Every answer of the resolution is the one that its sources, the rows and the other claims call for. */
  lemma AnswersExactly(maps: seq<PurchaseMap>, orphans: seq<Source>, rows: seq<RemoteRow>, m: PurchaseMap, answer: Answer)
    requires m in maps && Answers(maps, orphans, rows, m, answer)
    ensures exists known :: IsKnown(known, Matched(m, rows))
              && AnswerSays(m, known, Free(maps, orphans, rows, m.order, known), SomeShared(maps, orphans, rows, m.order, known), AllFit(m, rows), answer)
  {
    var known :| IsKnown(known, Matched(m, rows))
                 && answer == Judge(m.conflict, Covered(m, rows), known, Unshared(maps, orphans, rows, m.order, known.Keys));
    KnownSays(maps, orphans, rows, m, known, Unshared(maps, orphans, rows, m.order, known.Keys), answer);
  }

  // ---------- From the tables ----------

  /**
   * From the tables: a row that is measured for a purchase is apart from every source of every other loaded purchase and cannot be
   * that of any source without an owner, and the purchase has no conflict.
   */
  lemma TablesFailClosed(loaded: map<nat, Loaded>, orphans: seq<Source>, maps: seq<PurchaseMap>, rows: seq<RemoteRow>,
                         result: map<nat, Answer>, o: nat, key: RowKey)
    requires MapsOf(loaded, maps) && AnswersAll(maps, orphans, rows, result) && o in result && key in Measured(result[o])
    ensures o in loaded && !loaded[o].conflict
    ensures forall p, s :: p in loaded && p != o && s in loaded[p].sources ==> Apart(s, rows, key)
    ensures forall s :: s in orphans ==> CannotBe(s, rows, key)
  {
    var m :| m in maps && m.order == o;
    MeasuredIsSafe(maps, orphans, rows, m, result[o], key);
    forall p, s | p in loaded && p != o && s in loaded[p].sources
      ensures Apart(s, rows, key)
    {
      var n := PurchaseMap(p, loaded[p].sources, loaded[p].conflict);
      assert n in maps && !HasClaim(n, rows, key);
    }
  }

  /** A stale link: it names a client that its credential disagrees with, and that has not moved on from the link's purchase. */
  ghost predicate StaleLink(db: Tables, owner: Owners, cup: Cup, i: int, c: nat)
    requires Referential(db) && cup in db.cups
  {
    && 0 <= i < |cup.items| && cup.items[i].active && cup.items[i].link.active && cup.items[i].link.client == Some(c)
    && c in db.clients && !OfPasarGuard(db.clients[c]) && !AgreesWith(cup.items[i].link, db.clients[c])
    && !(cup.order.Some? && HasLeft(db, owner, c, cup.order.value))
  }

  /**
   * A stale link in a cup of another purchase, or of none, keeps every row that is known by an identifier of its client, or shows
   * its credential, from being measured, on whatever panel the row is.
   */
  lemma StaleLinkBlocks(db: Tables, owner: Owners, loaded: map<nat, Loaded>, orphans: seq<Source>, maps: seq<PurchaseMap>, rows: seq<RemoteRow>,
                        result: map<nat, Answer>, o: nat, row: RemoteRow, cup: Cup, i: int, c: nat)
    requires Referential(db) && OwnersOf(db, owner) && Loads(db, owner, loaded, orphans)
    requires MapsOf(loaded, maps) && AnswersAll(maps, orphans, rows, result) && o in result
    requires row in rows && cup in db.cups && cup.order != Some(o) && StaleLink(db, owner, cup, i, c)
    requires KnownBy(db.clients[c], row) || Shown(cup.items[i].link, row)
    ensures Key(row) !in Measured(result[o])
  {
    if Key(row) in Measured(result[o]) {
      var s := SourceForLink(db, cup.items[i].link);
      TablesFailClosed(loaded, orphans, maps, rows, result, o, Key(row));
      ClientLinkExactly(db, cup.items[i].link, row);
      StaleLinkIsGiven(db, owner, loaded, orphans, cup, i, c);
      PanellessIsNotApart(s, rows, row);
      assert false;
    }
  }

  lemma PanellessIsNotApart(s: Source, rows: seq<RemoteRow>, row: RemoteRow)
    requires s.panel.None? && Overlaps(s, row) && row in rows
    ensures !CannotBe(s, rows, Key(row)) && !Apart(s, rows, Key(row))
  {
    OverlapsExactly(s, row);
    var i :| 0 <= i < |rows| && rows[i] == row;
    assert MayBe(s, rows[i]);
  }

  lemma StaleLinkIsGiven(db: Tables, owner: Owners, loaded: map<nat, Loaded>, orphans: seq<Source>, cup: Cup, i: int, c: nat)
    requires Referential(db) && OwnersOf(db, owner) && Loads(db, owner, loaded, orphans)
    requires cup in db.cups && StaleLink(db, owner, cup, i, c)
    ensures var s := SourceForLink(db, cup.items[i].link);
      if cup.order.Some? then cup.order.value in loaded && s in loaded[cup.order.value].sources else s in orphans
  {
    var s := SourceForLink(db, cup.items[i].link);
    assert ByLink(db, cup, s, i);
    assert Gives(db, owner, cup, s);
    assert GivenByCup(db, owner, cup.order, s);
    if cup.order.Some? {
      GivenExactly(db, owner, loaded, orphans, cup.order.value, s);
    } else {
      OrphansExactly(db, owner, loaded, orphans, s);
    }
  }
}
