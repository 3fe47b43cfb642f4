/** What an inactive verdict says of the collections behind it (collect_activity and activity_status in customer_activity/services.py). */
module Provenance {
  import opened Prelude
  import opened Identities
  import opened Attribution
  import opened AttributionSafety
  import opened Ownership
  import opened Collection
  import Activity
  import ActivityHistory
  import Evidence

  // ---------- One collection ----------

  // What one collection reads and works out, and what it hands over for one of the loaded purchases.
  datatype Round = Round(
    db: Tables, owner: Owners, loaded: map<nat, Loaded>, orphans: seq<Source>,
    maps: seq<PurchaseMap>, rows: seq<RemoteRow>, result: map<nat, Answer>,
    cups: seq<Evidence.Cup>, attribution: Evidence.Attribution, now: Instant)

  /** The answer of the resolution, or the reason of a panel in the place of "unmapped_source". */
  predicate HandsOver(answered: Evidence.Attribution, given: Evidence.Attribution) {
    given == answered || (answered == Evidence.Refused(Evidence.UnmappedSource) && given.Refused?)
  }

  ghost predicate IsRound(r: Round, o: nat) {
    && Referential(r.db) && OwnersOf(r.db, r.owner) && Loads(r.db, r.owner, r.loaded, r.orphans)
    && MapsOf(r.loaded, r.maps) && AnswersAll(r.maps, r.orphans, r.rows, r.result)
    && o in r.loaded && o in r.db.orders && o in r.result && HandsOver(r.result[o].1, r.attribution)
  }

  function PollIn(r: Round, o: nat): Activity.Poll
    requires o in r.loaded && o in r.db.orders && o in r.result
  {
    Activity.Poll(Evidence.Purchase(r.loaded[o].superseded, r.db.orders[o].status, r.db.orders[o].verified, r.cups),
                  Readings(r.result[o].0), r.attribution, r.now)
  }

  ghost predicate AreRounds(rounds: seq<Round>, o: nat) {
    forall k :: 0 <= k < |rounds| ==> IsRound(rounds[k], o)
  }

  /** The polls of one purchase, as the collections that loaded it record them. */
  ghost function PollsIn(rounds: seq<Round>, o: nat): seq<Activity.Poll>
    requires AreRounds(rounds, o)
  {
    seq(|rounds|, k requires 0 <= k < |rounds| => assert IsRound(rounds[k], o); PollIn(rounds[k], o))
  }

  // ---------- Every entry is the record of a poll ----------

  ghost predicate RecordOf(e: Activity.Entry, poll: Activity.Poll) {
    && (poll.purchase.superseded || Evidence.Readable(poll.rows, poll.now))
    && exists row :: e == Activity.Observe(row, poll)
  }

  lemma {:induction false} EntryIsRecord(polls: seq<Activity.Poll>, minimum: int, i: nat) returns (k: nat)
    requires i < |Activity.History(polls, minimum).log|
    ensures k < |polls| && RecordOf(Activity.History(polls, minimum).log[i], polls[k])
  {
    var init, poll := polls[..|polls| - 1], polls[|polls| - 1];
    var before := Activity.History(init, minimum);
    if i < |before.log| {
      k := EntryIsRecord(init, minimum, i);
    } else {
      k := |polls| - 1;
      assert Activity.History(polls, minimum).log[i] == Activity.Observe(before.row, poll);
    }
  }

  /** Counters are kept in full only from a poll whose purchase was measured completely. */
  lemma FullEntryIsComplete(e: Activity.Entry, poll: Activity.Poll)
    requires RecordOf(e, poll) && e.counters != map[] && !e.note.partial
    ensures poll.attribution == Evidence.Complete && e.at == poll.now
    ensures Activity.AllCounted(poll.rows) && e.counters == Activity.SamplesOf(poll.rows)
  {
  }

  // ---------- A complete answer ----------

  lemma JudgedComplete(conflict: bool, covered: bool, known: map<RowKey, RemoteRow>, single: set<RowKey>)
    requires Judge(conflict, covered, known, single).1 == Evidence.Complete
    ensures !conflict && covered && known.Keys <= single && Judge(conflict, covered, known, single).0 == known
  {
  }

  /** A complete answer holds the rows of the purchase's sources, each claimed by it alone. */
  lemma CompleteAnswer(maps: seq<PurchaseMap>, orphans: seq<Source>, rows: seq<RemoteRow>, m: PurchaseMap, answer: Answer)
    requires Answers(maps, orphans, rows, m, answer) && answer.1 == Evidence.Complete
    ensures Covered(m, rows) && IsKnown(answer.0, Matched(m, rows))
    ensures forall key :: key in answer.0 ==> Claimants(maps, orphans, rows, key) == {Some(m.order)}
  {
    var known :| IsKnown(known, Matched(m, rows))
                 && answer == Judge(m.conflict, Covered(m, rows), known, Unshared(maps, orphans, rows, m.order, known.Keys));
    JudgedComplete(m.conflict, Covered(m, rows), known, Unshared(maps, orphans, rows, m.order, known.Keys));
  }

  // ---------- What a full entry rests on ----------

  predicate IsCounterOf(counter: Activity.Sample, row: Option<RemoteRow>, key: RowKey) {
    row.Some? && Key(row.value) == key && Activity.Counted(row.value.reading) && counter == Activity.SampleOf(row.value.reading)
  }

  /** The purchase has sources, and the row of each of them is counted. */
  ghost predicate CountsSources(counters: Activity.Samples, sources: set<Source>, rows: seq<RemoteRow>) {
    sources != {} && forall s :: s in sources ==> Resolve(s, rows).Some? && Key(Resolve(s, rows).value) in counters
  }

  /** What is counted is read from the row of a source. */
  ghost predicate CountsNothingElse(counters: Activity.Samples, sources: set<Source>, rows: seq<RemoteRow>) {
    forall key :: key in counters ==> exists s :: s in sources && IsCounterOf(counters[key], Resolve(s, rows), key)
  }

  /** Only the purchase claims what is counted. */
  ghost predicate ClaimedByOne(counters: Activity.Samples, maps: seq<PurchaseMap>, orphans: seq<Source>, rows: seq<RemoteRow>, o: nat) {
    forall key :: key in counters ==> Claimants(maps, orphans, rows, key) == {Some(o)}
  }

  /** The row of a client that the purchase owns is counted, and that of any other client is not. */
  ghost predicate CountsRightly(counters: Activity.Samples, owned: bool, row: Option<RemoteRow>) {
    (owned ==> row.Some?) && (row.Some? ==> (Key(row.value) in counters <==> owned))
  }

  ghost predicate CountsClients(counters: Activity.Samples, db: Tables, owner: Owners, rows: seq<RemoteRow>, o: nat) {
    forall c :: c in db.clients ==> c in owner && CountsRightly(counters, owner[c] == Some(o), Resolve(SourceForClient(db.clients[c]), rows))
  }

  ghost predicate RestsOn(e: Activity.Entry, r: Round, o: nat) {
    && IsRound(r, o) && e.at == r.now
    && CountsSources(e.counters, r.loaded[o].sources, r.rows) && CountsNothingElse(e.counters, r.loaded[o].sources, r.rows)
    && ClaimedByOne(e.counters, r.maps, r.orphans, r.rows, o)
    && CountsClients(e.counters, r.db, r.owner, r.rows, o)
  }

  lemma SampleIsCounter(rows: seq<RemoteRow>, m: PurchaseMap, known: map<RowKey, RemoteRow>, counters: Activity.Samples, key: RowKey)
    requires IsKnown(known, Matched(m, rows)) && key in known
    requires Activity.AllCounted(Readings(known)) && counters == Activity.SamplesOf(Readings(known))
    ensures key in counters && exists s :: s in m.sources && IsCounterOf(counters[key], Resolve(s, rows), key)
  {
    var row := known[key];
    var s :| s in m.sources && Resolve(s, rows).Some? && Resolve(s, rows).value == row;
    assert Readings(known)[key] == row.reading;
    assert IsCounterOf(counters[key], Some(row), key);
  }

  lemma KnownIsCounted(rows: seq<RemoteRow>, m: PurchaseMap, known: map<RowKey, RemoteRow>, counters: Activity.Samples)
    requires Covered(m, rows) && IsKnown(known, Matched(m, rows)) && counters.Keys == known.Keys
    ensures CountsSources(counters, m.sources, rows)
  {
    forall s | s in m.sources
      ensures Resolve(s, rows).Some? && Key(Resolve(s, rows).value) in counters
    {
      assert Resolve(s, rows).value in Matched(m, rows);
    }
  }

  lemma CountedIsKnown(rows: seq<RemoteRow>, m: PurchaseMap, known: map<RowKey, RemoteRow>, counters: Activity.Samples)
    requires IsKnown(known, Matched(m, rows))
    requires Activity.AllCounted(Readings(known)) && counters == Activity.SamplesOf(Readings(known))
    ensures counters.Keys == known.Keys && CountsNothingElse(counters, m.sources, rows)
  {
    forall key | key in counters
      ensures exists s :: s in m.sources && IsCounterOf(counters[key], Resolve(s, rows), key)
    {
      SampleIsCounter(rows, m, known, counters, key);
    }
  }

  lemma CompleteCountsSources(e: Activity.Entry, r: Round, o: nat)
    requires IsRound(r, o) && RecordOf(e, PollIn(r, o)) && e.counters != map[] && !e.note.partial
    ensures e.at == r.now
    ensures CountsSources(e.counters, r.loaded[o].sources, r.rows) && CountsNothingElse(e.counters, r.loaded[o].sources, r.rows)
    ensures ClaimedByOne(e.counters, r.maps, r.orphans, r.rows, o)
  {
    var m, answer := PurchaseMap(o, r.loaded[o].sources, r.loaded[o].conflict), r.result[o];
    FullEntryIsComplete(e, PollIn(r, o));
    assert m in r.maps;
    CompleteAnswer(r.maps, r.orphans, r.rows, m, answer);
    CountedIsKnown(r.rows, m, answer.0, e.counters);
    KnownIsCounted(r.rows, m, answer.0, e.counters);
  }

  ghost predicate GivenItsClients(db: Tables, owner: Owners, sources: set<Source>, o: nat) {
    forall c :: c in db.clients ==> c in owner && (owner[c] == Some(o) ==> SourceForClient(db.clients[c]) in sources)
  }

  lemma OwnedAreGiven(db: Tables, owner: Owners, o: nat, m: Loaded)
    requires Referential(db) && OwnersOf(db, owner) && o in db.orders && IsLoaded(db, owner, o, m)
    ensures GivenItsClients(db, owner, m.sources, o)
  {
    forall c | c in db.clients && owner[c] == Some(o)
      ensures SourceForClient(db.clients[c]) in m.sources
    {
      assert SourceForClient(db.clients[c]) in OwnSources(db, owner, o);
    }
  }

  lemma CountedIsOwned(r: Round, o: nat, c: nat, row: RemoteRow)
    requires IsRound(r, o) && c in r.db.clients && Resolve(SourceForClient(r.db.clients[c]), r.rows) == Some(row)
    requires Claimants(r.maps, r.orphans, r.rows, Key(row)) == {Some(o)}
    ensures r.owner[c] == Some(o)
  {
    OwnerIsClaimant(r.db, r.owner, r.loaded, r.orphans, r.maps, r.rows, c, row);
  }

  lemma CountedAreOwned(counters: Activity.Samples, r: Round, o: nat)
    requires IsRound(r, o) && ClaimedByOne(counters, r.maps, r.orphans, r.rows, o)
    ensures OnlyItsClients(counters, r.db, r.owner, r.rows, o)
  {
    forall c, row | c in r.db.clients && Resolve(SourceForClient(r.db.clients[c]), r.rows) == Some(row) && Key(row) in counters
      ensures r.owner[c] == Some(o)
    {
      CountedIsOwned(r, o, c, row);
    }
  }

  ghost predicate OnlyItsClients(counters: Activity.Samples, db: Tables, owner: Owners, rows: seq<RemoteRow>, o: nat) {
    forall c, row :: c in db.clients && Resolve(SourceForClient(db.clients[c]), rows) == Some(row) && Key(row) in counters ==>
      c in owner && owner[c] == Some(o)
  }

  lemma ClientIsCounted(counters: Activity.Samples, sources: set<Source>, rows: seq<RemoteRow>, s: Source, owned: bool)
    requires CountsSources(counters, sources, rows) && (owned ==> s in sources)
    requires Resolve(s, rows).Some? && Key(Resolve(s, rows).value) in counters ==> owned
    ensures CountsRightly(counters, owned, Resolve(s, rows))
  {
  }

  lemma ClientsAreCounted(counters: Activity.Samples, db: Tables, owner: Owners, sources: set<Source>, rows: seq<RemoteRow>, o: nat)
    requires GivenItsClients(db, owner, sources, o) && OnlyItsClients(counters, db, owner, rows, o) && CountsSources(counters, sources, rows)
    ensures CountsClients(counters, db, owner, rows, o)
  {
    forall c | c in db.clients
      ensures c in owner && CountsRightly(counters, owner[c] == Some(o), Resolve(SourceForClient(db.clients[c]), rows))
    {
      ClientIsCounted(counters, sources, rows, SourceForClient(db.clients[c]), owner[c] == Some(o));
    }
  }

  lemma CompleteRests(e: Activity.Entry, r: Round, o: nat)
    requires IsRound(r, o) && RecordOf(e, PollIn(r, o)) && e.counters != map[] && !e.note.partial
    ensures RestsOn(e, r, o)
  {
    CompleteCountsSources(e, r, o);
    OwnedAreGiven(r.db, r.owner, o, r.loaded[o]);
    CountedAreOwned(e.counters, r, o);
    ClientsAreCounted(e.counters, r.db, r.owner, r.loaded[o].sources, r.rows, o);
  }

  // ---------- The verdict ----------

  ghost function LogIn(rounds: seq<Round>, o: nat, minimum: int): seq<Activity.Entry>
    requires AreRounds(rounds, o)
  {
    Activity.History(PollsIn(rounds, o), minimum).log
  }

  /** Every entry of the run rests on a collection that measured the purchase completely. */
  ghost predicate RunRestsOn(log: seq<Activity.Entry>, b: int, rounds: seq<Round>, o: nat) {
    forall i :: 0 <= b <= i < |log| ==> exists k :: 0 <= k < |rounds| && RestsOn(log[i], rounds[k], o)
  }

  lemma FullEntryRests(rounds: seq<Round>, o: nat, minimum: int, i: nat, e: Activity.Entry)
    requires AreRounds(rounds, o) && i < |LogIn(rounds, o, minimum)| && e == LogIn(rounds, o, minimum)[i]
    requires e.counters != map[] && !e.note.partial
    ensures exists k :: 0 <= k < |rounds| && RestsOn(e, rounds[k], o)
  {
    var k := EntryIsRecord(PollsIn(rounds, o), minimum, i);
    assert IsRound(rounds[k], o);
    CompleteRests(e, rounds[k], o);
    assert RestsOn(e, rounds[k], o);
  }

  lemma UnbrokenIsFull(log: seq<Activity.Entry>, b: int, i: int)
    requires ActivityHistory.Unbroken(log, b) && b <= i < |log|
    ensures log[i].counters != map[] && !log[i].note.partial
  {
    assert Pick(log[b].counters.Keys) in log[i].counters;
  }

  lemma UnbrokenRests(rounds: seq<Round>, o: nat, minimum: int, b: int)
    requires AreRounds(rounds, o) && ActivityHistory.Unbroken(LogIn(rounds, o, minimum), b)
    ensures RunRestsOn(LogIn(rounds, o, minimum), b, rounds, o)
  {
    var log := LogIn(rounds, o, minimum);
    forall i | b <= i < |log|
      ensures exists k :: 0 <= k < |rounds| && RestsOn(log[i], rounds[k], o)
    {
      UnbrokenIsFull(log, b, i);
      FullEntryRests(rounds, o, minimum, i, log[i]);
    }
  }

  /**
   * A purchase is called inactive only after a quiet run in whose every collection each of its sources resolved to a row that no
   * other purchase claimed; the counters are those of these rows, and the clients counted are exactly the ones it owned.
   */
  lemma InactiveRestsOnItsClients(rounds: seq<Round>, o: nat, minimum: int, t: Instant)
    requires AreRounds(rounds, o)
    requires Activity.ActivityStatus(Activity.History(PollsIn(rounds, o), minimum).row, t) == Activity.IsInactive
    ensures exists b :: ActivityHistory.QuietEvidence(LogIn(rounds, o, minimum), b, t, minimum)
                        && RunRestsOn(LogIn(rounds, o, minimum), b, rounds, o)
  {
    ActivityHistory.InactiveIsSound(PollsIn(rounds, o), minimum, t);
    var b :| ActivityHistory.QuietEvidence(LogIn(rounds, o, minimum), b, t, minimum);
    UnbrokenRests(rounds, o, minimum, b);
  }
}
