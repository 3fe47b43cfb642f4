/** How one poll of the panels becomes evidence about a purchase (customer_activity/services.py). */
module Evidence {
  import opened Prelude
  import opened Identities

  const MAX_GAP: int := 45 * MINUTE
  const WINDOW: int := 48 * HOUR

  // ---------- Entitlement ----------

  datatype OrderStatus = Confirmed | Completed | Cancelled | Rejected | OtherOrderStatus

  datatype Cup = Cup(active: bool, expiresAt: Option<Instant>)

  // What entitlement reads of a purchase: its map's superseded flag, its order and its cups.
  datatype Purchase = Purchase(superseded: bool, status: OrderStatus, verified: bool, cups: seq<Cup>)

  datatype State = Valid | Expired | Exhausted | Disabled | Unknown | Ended | Closed | Conflict | Superseded

  datatype Quality =
    | NotObserved | Ok | Baseline | Gap | CounterReset | MappingChanged | CycleChanged
    | Stale | MissingCounters | SupersededBy | ClosedOrderActive | ClosedCupActive | UnverifiedService
    | UnmappedSource | SharedIdentity | OwnershipConflict
    | PanelUnreachable | PanelPartial | TrackingDisabled | UnsupportedPanel

  predicate Comparable(quality: Quality) {
    quality.Ok? || quality.Baseline? || quality.Gap? || quality.CounterReset? || quality.MappingChanged? || quality.CycleChanged?
  }

  // Those that attribution and the panels give.
  type Refusal = quality: Quality |
    quality in {UnmappedSource, SharedIdentity, OwnershipConflict, MissingCounters, PanelUnreachable, PanelPartial, TrackingDisabled, UnsupportedPanel}
    witness UnmappedSource

  // The reason that attribution hands over: none, "partial_coverage", or a reason that forbids measuring.
  datatype Attribution = Complete | PartialCoverage | Refused(quality: Refusal)

  // A reason as stored: a quality, or a quality with the prefix "partial_".
  datatype Note = Note(partial: bool, quality: Quality)

  datatype Judgement = Judgement(state: State, reason: Option<Quality>, ended: Option<Instant>)

  predicate Fulfilled(status: OrderStatus) {
    status == Confirmed || status == Completed
  }

  predicate Past(at: Option<Instant>, now: Instant) {
    at.Some? && at.value <= now
  }

  /** Comparing a missing counter with a quota raises a TypeError. */
  predicate Unreadable(row: Reading, now: Instant) {
    && row.remoteStatus != ExpiredRemotely && !Past(row.expiry, now)
    && row.remoteStatus != LimitedRemotely
    && row.quota.Some? && row.quota.value > 0 && row.used.None?
  }

  function RowState(row: Reading, now: Instant): State
    requires !Unreadable(row, now)
  {
    if row.remoteStatus == ExpiredRemotely || Past(row.expiry, now) then Expired
    else if row.remoteStatus == LimitedRemotely || (row.quota.Some? && row.quota.value > 0 && row.used.value >= row.quota.value) then Exhausted
    else if row.enabled == Some(false) then Disabled
    else if row.enabled == Some(true) && row.quota.Some? then Valid
    else Unknown
  }

  predicate DatedEnd(row: Reading, now: Instant)
    requires !Unreadable(row, now)
  {
    RowState(row, now) == Expired && row.expiry.Some?
  }

  predicate Readable(rows: map<RowKey, Reading>, now: Instant) {
    forall key :: key in rows ==> !Unreadable(rows[key], now)
  }

  predicate CupsClosed(cups: seq<Cup>, now: Instant) {
    cups != [] && forall cup :: cup in cups ==> !cup.active || Past(cup.expiresAt, now)
  }

  ghost function States(rows: map<RowKey, Reading>, now: Instant): set<State>
    requires Readable(rows, now)
  {
    set key | key in rows :: RowState(rows[key], now)
  }

  /** The latest end of the sources, known only when every source has ended at a known time. */
  ghost function LastEnd(rows: map<RowKey, Reading>, now: Instant): Option<Instant>
    requires Readable(rows, now)
  {
    if rows != map[] && forall key :: key in rows ==> DatedEnd(rows[key], now) then
      var ends := set key | key in rows :: rows[key].expiry.value;
      assert Pick(rows.Keys) in rows && rows[Pick(rows.Keys)].expiry.value in ends;
      Some(Max(ends))
    else None
  }

  /** What the sources of a purchase say together, whatever their order. */
  ghost function Entitlement(p: Purchase, rows: map<RowKey, Reading>, now: Instant): Judgement
    requires p.superseded || Readable(rows, now)
  {
    if p.superseded then Judgement(Superseded, Some(SupersededBy), None)
    else
      var states := States(rows, now);
      if p.status == Cancelled || p.status == Rejected then
        if Valid in states then Judgement(Conflict, Some(ClosedOrderActive), None) else Judgement(Closed, None, None)
      else if !Fulfilled(p.status) || !p.verified then Judgement(Conflict, Some(UnverifiedService), None)
      else if states == {} then Judgement(Unknown, None, None)
      else if CupsClosed(p.cups, now) then
        if Valid in states then Judgement(Conflict, Some(ClosedCupActive), None) else Judgement(Disabled, None, None)
      else if states == {Valid} then Judgement(Valid, None, None)
      else if Valid in states || Unknown in states then Judgement(Unknown, None, None)
      else Judgement(if |states| == 1 then Pick(states) else Ended, None, LastEnd(rows, now))
  }

  /** The states of the sources looked at so far. */
  ghost predicate StatesSeen(rows: map<RowKey, Reading>, done: set<RowKey>, now: Instant, states: seq<State>)
    requires done <= rows.Keys
  {
    && (states == [] <==> done == {})
    && (forall key :: key in done ==> !Unreadable(rows[key], now) && RowState(rows[key], now) in states)
    && (forall s :: s in states ==> exists key :: key in done && !Unreadable(rows[key], now) && RowState(rows[key], now) == s)
  }

  /** The known ends among the sources looked at so far; one is missing when there are fewer of them than sources. */
  ghost predicate EndsSeen(rows: map<RowKey, Reading>, done: set<RowKey>, now: Instant, sources: nat, ends: seq<Instant>)
    requires done <= rows.Keys && forall key :: key in done ==> !Unreadable(rows[key], now)
  {
    && |ends| <= sources
    && (|ends| == sources <==> forall key :: key in done ==> DatedEnd(rows[key], now))
    && (forall key :: key in done && DatedEnd(rows[key], now) ==> rows[key].expiry.value in ends)
    && (forall e :: e in ends ==> exists key :: key in done && DatedEnd(rows[key], now) && rows[key].expiry.value == e)
  }

  lemma StatesSeenStep(rows: map<RowKey, Reading>, done: set<RowKey>, now: Instant, states: seq<State>, key: RowKey)
    requires done <= rows.Keys && key in rows && StatesSeen(rows, done, now, states) && !Unreadable(rows[key], now)
    ensures StatesSeen(rows, done + {key}, now, states + [RowState(rows[key], now)])
  {
  }

  lemma EndsSeenStep(rows: map<RowKey, Reading>, done: set<RowKey>, now: Instant, sources: nat, ends: seq<Instant>, key: RowKey)
    requires done <= rows.Keys && forall k :: k in done ==> !Unreadable(rows[k], now)
    requires EndsSeen(rows, done, now, sources, ends) && key in rows && !Unreadable(rows[key], now)
    ensures EndsSeen(rows, done + {key}, now, sources + 1, if DatedEnd(rows[key], now) then ends + [rows[key].expiry.value] else ends)
  {
    if !DatedEnd(rows[key], now) {
      assert key in done + {key};
    }
  }

  lemma AllSeen(rows: map<RowKey, Reading>, now: Instant, states: seq<State>)
    requires StatesSeen(rows, rows.Keys, now, states)
    ensures Readable(rows, now) && (set s | s in states) == States(rows, now) && (states == [] <==> rows == map[])
  {
  }

  /** The tests on one source, in their order: its state, and its end if that is known. */
  method ClassifySource(row: Reading, now: Instant) returns (state: State, ended: Option<Instant>)
    requires !Unreadable(row, now)
    ensures state == RowState(row, now)
    ensures ended == if DatedEnd(row, now) then row.expiry else None
  {
    ended := None;
    if row.remoteStatus == ExpiredRemotely || Past(row.expiry, now) {
      state, ended := Expired, row.expiry;
    } else if row.remoteStatus == LimitedRemotely || (row.quota.Some? && row.quota.value > 0 && row.used.value >= row.quota.value) {
      state := Exhausted;
    } else if row.enabled == Some(false) {
      state := Disabled;
    } else if row.enabled == Some(true) && row.quota.Some? {
      state := Valid;
    } else {
      state := Unknown;
    }
  }

  /** The loop over the sources: their states and the known ends among them. It stops when a comparison raises. */
  method CollectStates(rows: map<RowKey, Reading>, now: Instant) returns (readable: bool, states: seq<State>, ends: seq<Instant>)
    ensures readable <==> Readable(rows, now)
    ensures readable ==> (set s | s in states) == States(rows, now) && (states == [] <==> rows == map[])
    ensures readable ==> (|ends| == |states| <==> forall key :: key in rows ==> DatedEnd(rows[key], now))
    ensures readable ==> forall key :: key in rows && DatedEnd(rows[key], now) ==> rows[key].expiry.value in ends
    ensures readable ==> forall e :: e in ends ==> exists key :: key in rows && rows[key].expiry == Some(e)
  {
    states, ends := [], [];
    var done: set<RowKey>, todo := {}, rows.Keys;
    while todo != {}
      invariant done !! todo && done + todo == rows.Keys
      invariant StatesSeen(rows, done, now, states)
      invariant EndsSeen(rows, done, now, |states|, ends)
    {
      var key :| key in todo;
      if Unreadable(rows[key], now) {
        return false, states, ends;
      }
      var state, ended := ClassifySource(rows[key], now);
      TakenFrom(rows.Keys, done, todo, key);
      StatesSeenStep(rows, done, now, states, key);
      EndsSeenStep(rows, done, now, |states|, ends, key);
      states := states + [state];
      ends := if ended.Some? then ends + [ended.value] else ends;
      todo, done := todo - {key}, done + {key};
    }
    assert done == rows.Keys;
    AllSeen(rows, now, states);
    readable := true;
  }

  /** What the sources say together, as the program works it out. No value is returned when a comparison raises. */
  method ComputeEntitlement(p: Purchase, rows: map<RowKey, Reading>, now: Instant) returns (r: Option<Judgement>)
    ensures r.Some? <==> p.superseded || Readable(rows, now)
    ensures r.Some? ==> r.value == Entitlement(p, rows, now)
  {
    if p.superseded {
      return Some(Judgement(Superseded, Some(SupersededBy), None));
    }
    var readable, states, ends := CollectStates(rows, now);
    if !readable {
      return None;
    }
    var unique := set s | s in states;
    if p.status == Cancelled || p.status == Rejected {
      return Some(if Valid in states then Judgement(Conflict, Some(ClosedOrderActive), None) else Judgement(Closed, None, None));
    }
    if !Fulfilled(p.status) || !p.verified {
      return Some(Judgement(Conflict, Some(UnverifiedService), None));
    }
    if states == [] {
      assert unique == {};
      return Some(Judgement(Unknown, None, None));
    }
    assert states[0] in unique;
    if CupsClosed(p.cups, now) {
      return Some(if Valid in states then Judgement(Conflict, Some(ClosedCupActive), None) else Judgement(Disabled, None, None));
    }
    if unique == {Valid} {
      return Some(Judgement(Valid, None, None));
    }
    if Valid in unique || Unknown in unique {
      return Some(Judgement(Unknown, None, None));
    }
    var state := Ended;
    if |unique| == 1 {
      state := states[0];
      SingletonPick(unique, states[0]);
    }
    var ended := None;
    if |ends| == |states| {
      var last := Largest(ends);
      ghost var known := set key | key in rows :: rows[key].expiry.value;
      assert last in known && forall e :: e in known ==> e <= last;
      assert last == Max(known);
      ended := Some(last);
    }
    return Some(Judgement(state, None, ended));
  }

  lemma SingletonPick<T>(s: set<T>, x: T)
    requires x in s && |s| == 1
    ensures Pick(s) == x
  {
    if Pick(s) != x {
      SubsetSize({x, Pick(s)}, s);
    }
  }

  method Largest(values: seq<int>) returns (m: int)
    requires values != []
    ensures m in values && forall v :: v in values ==> v <= m
  {
    m := values[0];
    for i := 1 to |values|
      invariant m in values
      invariant forall j :: 0 <= j < i ==> values[j] <= m
    {
      if values[i] > m {
        m := values[i];
      }
    }
  }

  method Smallest(values: seq<int>) returns (m: int)
    requires values != []
    ensures m in values && forall v :: v in values ==> m <= v
  {
    m := values[0];
    for i := 1 to |values|
      invariant m in values
      invariant forall j :: 0 <= j < i ==> m <= values[j]
    {
      if values[i] < m {
        m := values[i];
      }
    }
  }
}
