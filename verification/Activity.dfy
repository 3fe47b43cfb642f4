/** The activity row of one purchase: how a poll is recorded and how the row is read (customer_activity/services.py). */
module Activity {
  import opened Prelude
  import opened Identities
  import opened Evidence

  // One stored counter. The time is that of the panel's answer, not of the poll.
  datatype Sample = Sample(used: int, up: int, down: int, at: Instant, quota: Option<int>, expiry: Option<Instant>)

  type Samples = map<RowKey, Sample>

  // One call of record_purchase: the purchase, the rows attributed to it, and the clock.
  datatype Poll = Poll(purchase: Purchase, rows: map<RowKey, Reading>, attribution: Attribution, now: Instant)

  // What one accepted poll amounts to.
  datatype Entry = Entry(
    at: Instant, note: Note, state: State, ended: Option<Instant>,
    counters: Samples, sources: nat, start: Option<Instant>, delta: Option<int>)

  // The columns of the stored row.
  datatype Row = Row(
    observedAt: Option<Instant>, state: State, note: Note, counters: Samples,
    continuousSince: Option<Instant>, lastStart: Option<Instant>, lastAt: Option<Instant>,
    sources: nat, cycle: nat, endedAt: Option<Instant>)

  const NEW_ROW := Row(None, Unknown, Note(false, NotObserved), map[], None, None, None, 0, 1, None)

  datatype Observation = Observation(at: Instant, start: Option<Instant>, delta: Option<int>, note: Note)

  // ---------- Comparing two sets of counters ----------

  predicate Counted(row: Reading) {
    && row.used.Some? && row.used.value >= 0
    && row.up.Some? && row.up.value >= 0
    && row.down.Some? && row.down.value >= 0
  }

  function SampleOf(row: Reading): Sample
    requires Counted(row)
  {
    Sample(row.used.value, row.up.value, row.down.value, row.capturedAt, row.quota, row.expiry)
  }

  predicate AllCounted(rows: map<RowKey, Reading>) {
    forall key :: key in rows ==> Counted(rows[key])
  }

  function SamplesOf(rows: map<RowKey, Reading>): Samples
    requires AllCounted(rows)
  {
    map key | key in rows :: SampleOf(rows[key])
  }

  predicate Fresh(counters: Samples, now: Instant) {
    && counters != map[]
    && forall key :: key in counters ==> counters[key].at <= now <= counters[key].at + MAX_GAP
  }

  predicate Spaced(previous: Samples, current: Samples)
    requires previous.Keys == current.Keys
  {
    forall key :: key in current ==> 0 < current[key].at - previous[key].at <= MAX_GAP
  }

  predicate SameTerms(previous: Samples, current: Samples)
    requires previous.Keys == current.Keys
  {
    forall key :: key in current ==> current[key].quota == previous[key].quota && current[key].expiry == previous[key].expiry
  }

  predicate NonDecreasing(previous: Samples, current: Samples)
    requires previous.Keys == current.Keys
  {
    forall key :: key in current ==>
      previous[key].used <= current[key].used && previous[key].up <= current[key].up && previous[key].down <= current[key].down
  }

  ghost function Times(counters: Samples): set<Instant> {
    set key | key in counters :: counters[key].at
  }

  ghost function Latest(counters: Samples): (t: Instant)
    requires counters != map[]
    ensures forall key :: key in counters ==> counters[key].at <= t
    ensures exists key :: key in counters && counters[key].at == t
  {
    assert Pick(counters.Keys) in counters;
    assert forall key :: key in counters ==> counters[key].at in Times(counters);
    Max(Times(counters))
  }

  ghost function Earliest(counters: Samples): (t: Instant)
    requires counters != map[]
    ensures forall key :: key in counters ==> t <= counters[key].at
    ensures exists key :: key in counters && counters[key].at == t
  {
    assert Pick(counters.Keys) in counters;
    assert forall key :: key in counters ==> counters[key].at in Times(counters);
    Min(Times(counters))
  }

  ghost function Usage(counters: Samples): map<RowKey, int> {
    map key | key in counters :: counters[key].used
  }

  ghost function Increments(previous: Samples, current: Samples): map<RowKey, int>
    requires previous.Keys == current.Keys
  {
    map key | key in current :: current[key].used - previous[key].used
  }

  ghost function Growth(previous: Samples, current: Samples): int
    requires previous.Keys == current.Keys
  {
    Sum(Increments(previous, current))
  }

  // ---------- What one poll amounts to ----------

  ghost function Verdict(poll: Poll): Judgement
    requires poll.purchase.superseded || Readable(poll.rows, poll.now)
  {
    Entitlement(poll.purchase, poll.rows, poll.now)
  }

  ghost predicate Partial(poll: Poll)
    requires poll.purchase.superseded || Readable(poll.rows, poll.now)
  {
    Verdict(poll).reason.None? && poll.attribution == PartialCoverage
  }

  /** Why the counters of a poll are not compared at all, if they are not. */
  ghost function Obstacle(poll: Poll): Option<Quality>
    requires poll.purchase.superseded || Readable(poll.rows, poll.now)
  {
    if Verdict(poll).reason.Some? then Verdict(poll).reason
    else if poll.attribution.Refused? then Some(poll.attribution.quality)
    else if !AllCounted(poll.rows) then Some(MissingCounters)
    else None
  }

  /** How the counters of a poll continue those of the row. */
  predicate Continues(row: Row, current: Samples, now: Instant)
  {
    && row.counters.Keys == current.Keys
    && row.observedAt.Some? && now - row.observedAt.value <= MAX_GAP
    && Spaced(row.counters, current)
  }

  function Compare(row: Row, current: Samples, partial: bool, now: Instant): Quality {
    if !Fresh(current, now) then Stale
    else if row.counters == map[] || (!partial && row.note.partial) then Baseline
    else if row.counters.Keys != current.Keys then MappingChanged
    else if !Continues(row, current, now) then Gap
    else if !SameTerms(row.counters, current) then CycleChanged
    else if !NonDecreasing(row.counters, current) then CounterReset
    else Ok
  }

  predicate Voids(quality: Quality) {
    quality == Stale || quality == MissingCounters
  }

  function StateAfter(judged: Judgement, attribution: Attribution, quality: Quality): State {
    var reasoned := judged.reason.Some? || attribution != Complete;
    if judged.state == Closed || judged.state == Conflict then judged.state
    else if reasoned && quality != SupersededBy then Unknown
    else if judged.state != Superseded && Voids(quality) then Unknown
    else judged.state
  }

  ghost function Observe(row: Row, poll: Poll): (e: Entry)
    requires poll.purchase.superseded || Readable(poll.rows, poll.now)
  {
    var judged := Verdict(poll);
    if Obstacle(poll).Some? then
      var quality := Obstacle(poll).value;
      Entry(poll.now, Note(false, quality), StateAfter(judged, poll.attribution, quality), judged.ended,
            map[], |poll.rows|, None, None)
    else
      var current := SamplesOf(poll.rows);
      var quality := Compare(row, current, Partial(poll), poll.now);
      Entry(poll.now, Note(Partial(poll) && quality != Stale, quality), StateAfter(judged, poll.attribution, quality), judged.ended,
            if quality == Stale then map[] else current, |poll.rows|,
            if quality == Ok then Some(Earliest(row.counters)) else None,
            if quality == Ok then Some(Growth(row.counters, current)) else None)
  }

  /** Growth is known exactly when the counters were compared. */
  lemma ObserveShape(row: Row, poll: Poll)
    requires poll.purchase.superseded || Readable(poll.rows, poll.now)
    ensures var e := Observe(row, poll);
      (e.note.quality == Ok <==> e.delta.Some?) && (e.note.quality == Ok ==> e.counters != map[])
  {
  }

  // ---------- How the row follows ----------

  predicate NewCycle(quality: Quality) {
    quality == CounterReset || quality == MappingChanged || quality == CycleChanged
  }

  predicate HasEnded(state: State) {
    state == Expired || state == Exhausted || state == Disabled || state == Ended
  }

  predicate Counts(e: Entry, minimum: int) {
    e.delta.Some? && e.delta.value >= minimum
  }

  ghost function LatestOf(counters: Samples): Option<Instant> {
    if counters == map[] then None else Some(Latest(counters))
  }

  ghost function SinceAfter(since: Option<Instant>, e: Entry): Option<Instant> {
    if e.note.partial then None else if e.note.quality == Ok then since else LatestOf(e.counters)
  }

  ghost function StartAfter(start: Option<Instant>, e: Entry, minimum: int): Option<Instant> {
    if e.note.quality != Ok then None else if Counts(e, minimum) then e.start else start
  }

  ghost function LastAfter(last: Option<Instant>, e: Entry, minimum: int): Option<Instant> {
    if e.note.quality != Ok then None else if Counts(e, minimum) then LatestOf(e.counters) else last
  }

  function EndedAfter(ended: Option<Instant>, e: Entry): Option<Instant> {
    if !HasEnded(e.state) then None
    else if e.ended.Some? then e.ended else if ended.Some? then ended else Some(e.at)
  }

  ghost function Advance(row: Row, e: Entry, minimum: int): Row {
    Row(Some(e.at), e.state, e.note, e.counters,
        SinceAfter(row.continuousSince, e), StartAfter(row.lastStart, e, minimum), LastAfter(row.lastAt, e, minimum),
        e.sources, if NewCycle(e.note.quality) then row.cycle + 1 else row.cycle, EndedAfter(row.endedAt, e))
  }

  // ---------- The row as an object ----------

  class PurchaseActivity {
    var observedAt: Option<Instant>
    var state: State
    var note: Note
    var counters: Samples
    var continuousSince: Option<Instant>
    var lastStart: Option<Instant>
    var lastAt: Option<Instant>
    var sources: nat
    var cycle: nat
    var endedAt: Option<Instant>
    var observations: seq<Observation>
    ghost var log: seq<Entry>

    ghost function Columns(): Row
      reads this
    {
      Row(observedAt, state, note, counters, continuousSince, lastStart, lastAt, sources, cycle, endedAt)
    }

    // The stored observations are the log without its counters.
    ghost predicate Valid()
      reads this
    {
      && |observations| == |log|
      && forall i :: 0 <= i < |log| ==> observations[i] == Observation(log[i].at, log[i].start, log[i].delta, log[i].note)
    }

    constructor ()
      ensures Valid() && Columns() == NEW_ROW && log == []
    {
      observedAt, state, note, counters := None, Unknown, Note(false, NotObserved), map[];
      continuousSince, lastStart, lastAt := None, None, None;
      sources, cycle, endedAt := 0, 1, None;
      observations, log := [], [];
    }

    /** Records one poll. When reading the counters raises, the transaction leaves everything as it was. */
    method RecordPurchase(purchase: Purchase, rows: map<RowKey, Reading>, attribution: Attribution, now: Instant, minimum: int)
      returns (raised: bool)
      requires Valid()
      modifies this
      ensures Valid()
      ensures
        var poll := Poll(purchase, rows, attribution, now);
        var before := old(Trace(Columns(), log));
        && raised == (Newer(before.row, now) && !purchase.superseded && !Readable(rows, now))
        && Trace(Columns(), log) == Record(before, poll, minimum)
    {
      raised := false;
      if observedAt.Some? && now <= observedAt.value {
        return;
      }
      var row := Row(observedAt, state, note, counters, continuousSince, lastStart, lastAt, sources, cycle, endedAt);
      var examined := Examine(row, Poll(purchase, rows, attribution, now));
      if examined.None? {
        return true;
      }
      var e := examined.value;
      ObserveShape(row, Poll(purchase, rows, attribution, now));
      Accept(e, minimum);
    }

    /** One accepted poll: the row follows it, and the observation is added. */
    method Accept(e: Entry, minimum: int)
      requires Valid()
      requires e.note.quality == Ok <==> e.delta.Some?
      requires e.note.quality == Ok ==> e.counters != map[]
      modifies this
      ensures Valid() && Columns() == Advance(old(Columns()), e, minimum) && log == old(log) + [e]
    {
      Apply(e, minimum);
      observations := observations + [Observation(e.at, e.start, e.delta, e.note)];
      log := log + [e];
    }

    /** The field updates of one accepted poll. */
    method Apply(e: Entry, minimum: int)
      requires e.note.quality == Ok <==> e.delta.Some?
      requires e.note.quality == Ok ==> e.counters != map[]
      modifies `observedAt, `state, `note, `counters, `continuousSince, `lastStart, `lastAt, `sources, `cycle, `endedAt
      ensures Columns() == Advance(old(Columns()), e, minimum)
    {
      var next := NextColumns(Row(observedAt, state, note, counters, continuousSince, lastStart, lastAt, sources, cycle, endedAt), e, minimum);
      Save(next);
    }

    method Save(next: Row)
      modifies `observedAt, `state, `note, `counters, `continuousSince, `lastStart, `lastAt, `sources, `cycle, `endedAt
      ensures Columns() == next
    {
      observedAt, state, note, counters, sources := next.observedAt, next.state, next.note, next.counters, next.sources;
      continuousSince, lastStart, lastAt := next.continuousSince, next.lastStart, next.lastAt;
      cycle, endedAt := next.cycle, next.endedAt;
    }
  }

  /** The columns after one accepted poll. */
  method NextColumns(row: Row, e: Entry, minimum: int) returns (next: Row)
    requires e.note.quality == Ok <==> e.delta.Some?
    requires e.note.quality == Ok ==> e.counters != map[]
    ensures next == Advance(row, e, minimum)
  {
    var since, first, last := NextMarks(row.continuousSince, row.lastStart, row.lastAt, e, minimum);
    var cycle := if NewCycle(e.note.quality) then row.cycle + 1 else row.cycle;
    next := Row(Some(e.at), e.state, e.note, e.counters, since, first, last, e.sources, cycle, EndedAfter(row.endedAt, e));
  }

  /** The start of the unbroken run and the last counted growth after a poll. */
  method NextMarks(since: Option<Instant>, start: Option<Instant>, last: Option<Instant>, e: Entry, minimum: int)
    returns (since': Option<Instant>, start': Option<Instant>, last': Option<Instant>)
    requires e.note.quality == Ok <==> e.delta.Some?
    requires e.note.quality == Ok ==> e.counters != map[]
    ensures since' == SinceAfter(since, e) && start' == StartAfter(start, e, minimum) && last' == LastAfter(last, e, minimum)
  {
    var latest := None;
    if e.counters != map[] {
      var t := LatestTime(e.counters);
      latest := Some(t);
    }
    since', start', last' := since, start, last;
    if e.note.quality != Ok {
      since', start', last' := latest, None, None;
    }
    if e.delta.Some? && e.delta.value >= minimum {
      start', last' := e.start, latest;
    }
    if e.note.partial {
      since' := None;
    }
  }

  /** The state before the counters are compared: unknown when there is a reason to doubt it. */
  function Doubted(judged: Judgement, attribution: Attribution, reason: Option<Quality>): State {
    var reasoned := judged.reason.Some? || attribution != Complete;
    if reasoned && reason != Some(SupersededBy) && judged.state != Closed && judged.state != Conflict then Unknown else judged.state
  }

  /** The state after they are compared. */
  function Voided(state: State, quality: Quality): State {
    if Voids(quality) && state != Closed && state != Conflict && state != Superseded then Unknown else state
  }

  lemma StateInTwoSteps(judged: Judgement, attribution: Attribution, reason: Option<Quality>, quality: Quality)
    requires reason == Some(SupersededBy) <==> quality == SupersededBy
    ensures Voided(Doubted(judged, attribution, reason), quality) == StateAfter(judged, attribution, quality)
  {
  }

  /** Why the counters of a poll are not compared, or else the counters. */
  method ReadPoll(poll: Poll, judged: Judgement) returns (reason: Option<Quality>, current: Samples)
    requires (poll.purchase.superseded || Readable(poll.rows, poll.now)) && judged == Verdict(poll)
    ensures reason == Obstacle(poll)
    ensures reason.None? ==> current == SamplesOf(poll.rows)
  {
    current := map[];
    reason := if judged.reason.Some? then judged.reason else if poll.attribution.Refused? then Some(poll.attribution.quality) else None;
    if reason.None? {
      var missing;
      current, missing := ReadCounters(poll.rows);
      if missing {
        reason := Some(MissingCounters);
      }
    }
  }

  /** Classifies one poll against the row. No entry is returned when reading the counters raises. */
  method Examine(row: Row, poll: Poll) returns (e: Option<Entry>)
    ensures e.None? <==> !poll.purchase.superseded && !Readable(poll.rows, poll.now)
    ensures e.Some? ==> e.value == Observe(row, poll)
  {
    var now := poll.now;
    var result := ComputeEntitlement(poll.purchase, poll.rows, now);
    if result.None? {
      return None;
    }
    var judged := result.value;
    var reason, current := ReadPoll(poll, judged);
    var state := Doubted(judged, poll.attribution, reason);
    if reason.Some? {
      var quality := reason.value;
      StateInTwoSteps(judged, poll.attribution, reason, quality);
      return Some(Entry(now, Note(false, quality), Voided(state, quality), judged.ended, map[], |poll.rows|, None, None));
    }
    var partial := judged.reason.None? && poll.attribution == PartialCoverage;
    var quality, delta, start := Measure(row, current, partial, now);
    StateInTwoSteps(judged, poll.attribution, reason, quality);
    return Some(Entry(now, Note(partial && quality != Stale, quality), Voided(state, quality), judged.ended,
                      if quality == Stale then map[] else current, |poll.rows|, start, delta));
  }

  /** Compares the counters of a poll with those of the row; the growth is known when they can be compared. */
  method Measure(row: Row, current: Samples, partial: bool, now: Instant) returns (quality: Quality, delta: Option<int>, start: Option<Instant>)
    ensures quality == Compare(row, current, partial, now)
    ensures quality != Ok ==> delta.None? && start.None?
    ensures quality == Ok ==> row.counters != map[] && row.counters.Keys == current.Keys
    ensures quality == Ok ==> delta == Some(Growth(row.counters, current)) && start == Some(Earliest(row.counters))
  {
    quality, delta, start := Compare(row, current, partial, now), None, None;
    if quality == Ok {
      var grown := TotalGrowth(row.counters, current);
      var earliest := EarliestTime(row.counters);
      delta, start := Some(grown), Some(earliest);
    }
  }

  method ReadCounters(rows: map<RowKey, Reading>) returns (current: Samples, missing: bool)
    ensures missing <==> !AllCounted(rows)
    ensures !missing ==> current == SamplesOf(rows)
  {
    var todo := rows.Keys;
    current := map[];
    while todo != {}
      invariant todo <= rows.Keys
      invariant current.Keys == rows.Keys - todo
      invariant forall key :: key in current ==> Counted(rows[key]) && current[key] == SampleOf(rows[key])
    {
      var key :| key in todo;
      if !Counted(rows[key]) {
        return current, true;
      }
      current := current[key := SampleOf(rows[key])];
      todo := todo - {key};
    }
    missing := false;
  }

  method LatestTime(counters: Samples) returns (t: Instant)
    requires counters != map[]
    ensures t == Latest(counters)
  {
    var todo := counters.Keys;
    var key :| key in todo;
    t := counters[key].at;
    todo := todo - {key};
    while todo != {}
      invariant todo <= counters.Keys
      invariant forall k :: k in counters && k !in todo ==> counters[k].at <= t
      invariant exists k :: k in counters && counters[k].at == t
    {
      var key :| key in todo;
      if counters[key].at > t {
        t := counters[key].at;
      }
      todo := todo - {key};
    }
  }

  method EarliestTime(counters: Samples) returns (t: Instant)
    requires counters != map[]
    ensures t == Earliest(counters)
  {
    var todo := counters.Keys;
    var key :| key in todo;
    t := counters[key].at;
    todo := todo - {key};
    while todo != {}
      invariant todo <= counters.Keys
      invariant forall k :: k in counters && k !in todo ==> t <= counters[k].at
      invariant exists k :: k in counters && counters[k].at == t
    {
      var key :| key in todo;
      if counters[key].at < t {
        t := counters[key].at;
      }
      todo := todo - {key};
    }
  }

  method TotalGrowth(previous: Samples, current: Samples) returns (total: int)
    requires previous.Keys == current.Keys
    ensures total == Growth(previous, current)
  {
    ghost var increments := Increments(previous, current);
    var todo := current.Keys;
    total := 0;
    ghost var rest := increments;
    while todo != {}
      invariant todo <= current.Keys && rest.Keys == todo
      invariant forall k :: k in rest ==> rest[k] == increments[k]
      invariant total + Sum(rest) == Sum(increments)
    {
      var key :| key in todo;
      SumRemove(rest, key);
      total := total + (current[key].used - previous[key].used);
      todo, rest := todo - {key}, rest - {key};
    }
  }

  // ---------- Whole histories ----------

  datatype Trace = Trace(row: Row, log: seq<Entry>)

  predicate Newer(row: Row, now: Instant) {
    row.observedAt.Some? ==> now > row.observedAt.value
  }

  /** A poll that is not newer than the row, or whose counters raise, changes nothing. */
  ghost predicate Recorded(row: Row, poll: Poll) {
    Newer(row, poll.now) && (poll.purchase.superseded || Readable(poll.rows, poll.now))
  }

  ghost function NextRow(row: Row, poll: Poll, minimum: int): Row {
    if Recorded(row, poll) then Advance(row, Observe(row, poll), minimum) else row
  }

  ghost function Record(t: Trace, poll: Poll, minimum: int): Trace {
    Trace(NextRow(t.row, poll, minimum), if Recorded(t.row, poll) then t.log + [Observe(t.row, poll)] else t.log)
  }

  ghost function History(polls: seq<Poll>, minimum: int): Trace {
    if polls == [] then Trace(NEW_ROW, [])
    else Record(History(polls[..|polls| - 1], minimum), polls[|polls| - 1], minimum)
  }

  // ---------- Reading the row ----------

  datatype Status = IsUnknown | IsConflict | IsSuperseded | IsClosed | IsActive | IsInactive | IsCollecting

  function ActivityStatus(row: Row, now: Instant): Status {
    if row.observedAt.None? || now - row.observedAt.value > MAX_GAP then IsUnknown
    else if row.state == Conflict then IsConflict
    else if row.state == Superseded then IsSuperseded
    else if row.state == Closed then IsClosed
    else if !Comparable(row.note.quality) then IsUnknown
    else if row.lastStart.Some? && row.lastStart.value >= now - WINDOW then IsActive
    else if row.note.partial then IsUnknown
    else if Past(row.continuousSince, now - WINDOW) && (row.lastAt.None? || Past(row.lastAt, now - WINDOW)) then IsInactive
    else IsCollecting
  }
}
