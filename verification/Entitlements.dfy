/** What entitlement answers, by the columns of the order, its cups and its sources (customer_activity/services.py). */
module Entitlements {
  import opened Prelude
  import opened Identities
  import opened Evidence

  // ---------- The sources ----------

  /** Expired by the panel's word or by the date. */
  predicate TimeIsUp(row: Reading, now: Instant) {
    row.remoteStatus == ExpiredRemotely || (row.expiry.Some? && row.expiry.value <= now)
  }

  /** Limited by the panel's word, or with a positive quota that is reached. */
  predicate QuotaIsUp(row: Reading) {
    row.remoteStatus == LimitedRemotely || (row.quota.Some? && row.quota.value > 0 && row.used.Some? && row.used.value >= row.quota.value)
  }

  /** Enabled with a known quota, neither expired nor used up. */
  predicate Usable(row: Reading, now: Instant) {
    row.enabled == Some(true) && row.quota.Some? && !TimeIsUp(row, now) && !QuotaIsUp(row)
  }

  predicate SwitchedOff(row: Reading, now: Instant) {
    row.enabled == Some(false) && !TimeIsUp(row, now) && !QuotaIsUp(row)
  }

  predicate UsedUp(row: Reading, now: Instant) {
    !TimeIsUp(row, now) && QuotaIsUp(row)
  }

  predicate Over(row: Reading, now: Instant) {
    TimeIsUp(row, now) || QuotaIsUp(row) || row.enabled == Some(false)
  }

  ghost predicate AllUsable(rows: map<RowKey, Reading>, now: Instant) {
    forall key :: key in rows ==> Usable(rows[key], now)
  }

  ghost predicate SomeUsable(rows: map<RowKey, Reading>, now: Instant) {
    exists key :: key in rows && Usable(rows[key], now)
  }

  ghost predicate AllOver(rows: map<RowKey, Reading>, now: Instant) {
    forall key :: key in rows ==> Over(rows[key], now)
  }

  ghost predicate AllExpired(rows: map<RowKey, Reading>, now: Instant) {
    forall key :: key in rows ==> TimeIsUp(rows[key], now)
  }

  ghost predicate AllUsedUp(rows: map<RowKey, Reading>, now: Instant) {
    forall key :: key in rows ==> UsedUp(rows[key], now)
  }

  ghost predicate AllSwitchedOff(rows: map<RowKey, Reading>, now: Instant) {
    forall key :: key in rows ==> SwitchedOff(rows[key], now)
  }

  predicate NeedsUsage(row: Reading, now: Instant) {
    row.quota.Some? && row.quota.value > 0 && !TimeIsUp(row, now) && row.remoteStatus != LimitedRemotely
  }

  // ---------- The order and its cups ----------

  predicate ClosedOrder(p: Purchase) {
    p.status == Cancelled || p.status == Rejected
  }

  predicate Served(p: Purchase) {
    (p.status == Confirmed || p.status == Completed) && p.verified
  }

  /** It has cups, and each of them is inactive or has expired. */
  ghost predicate CupsAreOver(p: Purchase, now: Instant) {
    p.cups != [] && forall i :: 0 <= i < |p.cups| ==> !p.cups[i].active || (p.cups[i].expiresAt.Some? && p.cups[i].expiresAt.value <= now)
  }

  /** Served by sources through no cups or through cups of which one is still open. */
  ghost predicate Delivered(p: Purchase, rows: map<RowKey, Reading>, now: Instant) {
    !p.superseded && Served(p) && rows != map[] && !CupsAreOver(p, now)
  }

  // ---------- From the states to the columns ----------

  lemma StateOfRow(row: Reading, now: Instant)
    requires !Unreadable(row, now)
    ensures RowState(row, now) == Valid <==> Usable(row, now)
    ensures RowState(row, now) == Expired <==> TimeIsUp(row, now)
    ensures RowState(row, now) == Exhausted <==> UsedUp(row, now)
    ensures RowState(row, now) == Disabled <==> SwitchedOff(row, now)
    ensures RowState(row, now) == Valid || RowState(row, now) == Unknown <==> !Over(row, now)
    ensures RowState(row, now) in {Valid, Expired, Exhausted, Disabled, Unknown}
  {
  }

  lemma StatesOfRows(rows: map<RowKey, Reading>, now: Instant)
    requires Readable(rows, now)
    ensures Valid in States(rows, now) <==> SomeUsable(rows, now)
    ensures Valid in States(rows, now) || Unknown in States(rows, now) <==> !AllOver(rows, now)
  {
    forall key | key in rows
      ensures RowState(rows[key], now) in States(rows, now)
      ensures RowState(rows[key], now) == Valid <==> Usable(rows[key], now)
      ensures RowState(rows[key], now) == Valid || RowState(rows[key], now) == Unknown <==> !Over(rows[key], now)
    {
      StateOfRow(rows[key], now);
    }
  }

  /** All sources are in one state. */
  lemma SameStates(rows: map<RowKey, Reading>, now: Instant, state: State)
    requires Readable(rows, now) && rows != map[]
    ensures States(rows, now) == {state} <==> forall key :: key in rows ==> RowState(rows[key], now) == state
  {
    var key := Pick(rows.Keys);
    assert RowState(rows[key], now) in States(rows, now);
    if States(rows, now) == {state} {
      forall k | k in rows
        ensures RowState(rows[k], now) == state
      {
        assert RowState(rows[k], now) in States(rows, now);
      }
    }
  }

  lemma SingleStates(rows: map<RowKey, Reading>, now: Instant)
    requires Readable(rows, now) && rows != map[]
    ensures States(rows, now) == {Valid} <==> AllUsable(rows, now)
    ensures States(rows, now) == {Expired} <==> AllExpired(rows, now)
    ensures States(rows, now) == {Exhausted} <==> AllUsedUp(rows, now)
    ensures States(rows, now) == {Disabled} <==> AllSwitchedOff(rows, now)
  {
    SameStates(rows, now, Valid);
    SameStates(rows, now, Expired);
    SameStates(rows, now, Exhausted);
    SameStates(rows, now, Disabled);
    forall key | key in rows
      ensures RowState(rows[key], now) == Valid <==> Usable(rows[key], now)
      ensures RowState(rows[key], now) == Expired <==> TimeIsUp(rows[key], now)
      ensures RowState(rows[key], now) == Exhausted <==> UsedUp(rows[key], now)
      ensures RowState(rows[key], now) == Disabled <==> SwitchedOff(rows[key], now)
    {
      StateOfRow(rows[key], now);
    }
  }

  lemma CupsAgree(p: Purchase, now: Instant)
    ensures CupsClosed(p.cups, now) <==> CupsAreOver(p, now)
  {
  }

  lemma OverStates(rows: map<RowKey, Reading>, now: Instant)
    requires Readable(rows, now) && AllOver(rows, now)
    ensures States(rows, now) <= {Expired, Exhausted, Disabled}
  {
    forall s | s in States(rows, now)
      ensures s in {Expired, Exhausted, Disabled}
    {
      var key :| key in rows && RowState(rows[key], now) == s;
      StateOfRow(rows[key], now);
    }
  }

  lemma SingleOrMixed(states: set<State>)
    requires states != {} && states <= {Expired, Exhausted, Disabled}
    ensures |states| == 1 <==> states == {Expired} || states == {Exhausted} || states == {Disabled}
    ensures |states| == 1 ==> states == {Pick(states)}
  {
    var s := Pick(states);
    if |states| == 1 {
      SingletonIs(states, s);
    }
  }

  lemma SingletonIs<T>(s: set<T>, x: T)
    requires x in s && |s| == 1
    ensures s == {x}
  {
    forall y | y in s
      ensures y == x
    {
      if y != x {
        SubsetSize({x, y}, s);
      }
    }
  }

  // ---------- The answers ----------

  /** Reading the sources raises exactly when one of them needs its missing usage for the comparison with its quota. */
  lemma RaisesExactly(rows: map<RowKey, Reading>, now: Instant)
    ensures !Readable(rows, now) <==> exists key :: key in rows && NeedsUsage(rows[key], now) && rows[key].used.None?
  {
  }

  /** The purchase cannot be served: its own word, or that of its order, or a contradiction between order and panels. */
  lemma RefusalsExactly(p: Purchase, rows: map<RowKey, Reading>, now: Instant)
    requires p.superseded || Readable(rows, now)
    ensures var r := Entitlement(p, rows, now);
      && (r.state == Superseded <==> p.superseded)
      && (r.state == Closed <==> !p.superseded && ClosedOrder(p) && !SomeUsable(rows, now))
      && (r.state == Conflict <==> r.reason.Some? && r.reason != Some(SupersededBy))
      && (r.reason == Some(SupersededBy) <==> p.superseded)
      && (r.reason == Some(ClosedOrderActive) <==> !p.superseded && ClosedOrder(p) && SomeUsable(rows, now))
      && (r.reason == Some(UnverifiedService) <==> !p.superseded && !ClosedOrder(p) && !Served(p))
      && (r.reason == Some(ClosedCupActive) <==> !p.superseded && Served(p) && CupsAreOver(p, now) && SomeUsable(rows, now))
  {
    if !p.superseded {
      StatesOfRows(rows, now);
      CupsAgree(p, now);
    }
  }

  lemma ServedStates(p: Purchase, rows: map<RowKey, Reading>, now: Instant)
    requires Delivered(p, rows, now) && Readable(rows, now)
    ensures var r := Entitlement(p, rows, now);
      var states := States(rows, now);
      && r.state == (if states == {Valid} then Valid else if Valid in states || Unknown in states then Unknown
                     else if |states| == 1 then Pick(states) else Ended)
      && (r.ended.Some? ==> r.ended == LastEnd(rows, now))
      && (LastEnd(rows, now).Some? && !(Valid in states) && !(Unknown in states) ==> r.ended == LastEnd(rows, now))
  {
    CupsAgree(p, now);
    StatesOfRows(rows, now);
    var key := Pick(rows.Keys);
    assert RowState(rows[key], now) in States(rows, now);
  }

  lemma UsableIsNotOver(rows: map<RowKey, Reading>, now: Instant)
    requires rows != map[]
    ensures !(AllUsable(rows, now) && AllOver(rows, now))
    ensures AllExpired(rows, now) || AllUsedUp(rows, now) || AllSwitchedOff(rows, now) ==> AllOver(rows, now)
    ensures !(AllExpired(rows, now) && AllUsedUp(rows, now)) && !(AllExpired(rows, now) && AllSwitchedOff(rows, now))
            && !(AllUsedUp(rows, now) && AllSwitchedOff(rows, now))
  {
    var key := Pick(rows.Keys);
    assert key in rows;
  }

  /** A delivered purchase: all of its sources usable, all of them over, or something in between. */
  lemma DeliveredStates(p: Purchase, rows: map<RowKey, Reading>, now: Instant)
    requires Delivered(p, rows, now) && Readable(rows, now)
    ensures var state := Entitlement(p, rows, now).state;
      state == (if AllUsable(rows, now) then Valid else if !AllOver(rows, now) then Unknown
                else if AllExpired(rows, now) then Expired else if AllUsedUp(rows, now) then Exhausted
                else if AllSwitchedOff(rows, now) then Disabled else Ended)
  {
    ServedStates(p, rows, now);
    StatesOfRows(rows, now);
    SingleStates(rows, now);
    UsableIsNotOver(rows, now);
    if AllOver(rows, now) {
      OverStates(rows, now);
      var key := Pick(rows.Keys);
      assert RowState(rows[key], now) in States(rows, now);
      SingleOrMixed(States(rows, now));
    }
  }

  /** Each other state by the columns; half a service is never a valid one. */
  lemma StatesExactly(p: Purchase, rows: map<RowKey, Reading>, now: Instant)
    requires p.superseded || Readable(rows, now)
    ensures var state := Entitlement(p, rows, now).state;
      var delivered := Delivered(p, rows, now);
      && (state == Valid <==> delivered && AllUsable(rows, now))
      && (state == Unknown <==> (!p.superseded && Served(p) && rows == map[]) || (delivered && !AllUsable(rows, now) && !AllOver(rows, now)))
      && (state == Disabled <==> (!p.superseded && Served(p) && rows != map[] && CupsAreOver(p, now) && !SomeUsable(rows, now))
                                 || (delivered && AllSwitchedOff(rows, now)))
      && (state == Expired <==> delivered && AllExpired(rows, now))
      && (state == Exhausted <==> delivered && AllUsedUp(rows, now))
      && (state == Ended <==> delivered && AllOver(rows, now)
                              && !AllExpired(rows, now) && !AllUsedUp(rows, now) && !AllSwitchedOff(rows, now))
  {
    if Delivered(p, rows, now) {
      DeliveredStates(p, rows, now);
      UsableIsNotOver(rows, now);
    } else {
      UndeliveredStates(p, rows, now);
    }
  }

  lemma UndeliveredStates(p: Purchase, rows: map<RowKey, Reading>, now: Instant)
    requires (p.superseded || Readable(rows, now)) && !Delivered(p, rows, now)
    ensures var state := Entitlement(p, rows, now).state;
      && state in {Superseded, Closed, Conflict, Unknown, Disabled}
      && (state == Unknown <==> !p.superseded && Served(p) && rows == map[])
      && (state == Disabled <==> !p.superseded && Served(p) && rows != map[] && CupsAreOver(p, now) && !SomeUsable(rows, now))
  {
    if !p.superseded {
      StatesOfRows(rows, now);
      CupsAgree(p, now);
      if rows != map[] {
        assert RowState(rows[Pick(rows.Keys)], now) in States(rows, now);
      }
    }
  }

  /** The time is the last of the dates at which the sources expired. */
  ghost predicate IsLastDate(rows: map<RowKey, Reading>, t: Instant) {
    && (forall key :: key in rows ==> rows[key].expiry.Some? && rows[key].expiry.value <= t)
    && exists key :: key in rows && rows[key].expiry == Some(t)
  }

  lemma LastEndIs(rows: map<RowKey, Reading>, now: Instant, t: Instant)
    requires Readable(rows, now) && rows != map[]
    ensures LastEnd(rows, now) == Some(t) <==> AllExpired(rows, now) && IsLastDate(rows, t)
  {
    forall key | key in rows
      ensures DatedEnd(rows[key], now) <==> TimeIsUp(rows[key], now) && rows[key].expiry.Some?
    {
      StateOfRow(rows[key], now);
    }
    if forall key :: key in rows ==> DatedEnd(rows[key], now) {
      var ends := set key | key in rows :: rows[key].expiry.value;
      assert rows[Pick(rows.Keys)].expiry.value in ends;
      assert LastEnd(rows, now) == Some(Max(ends));
      assert forall key :: key in rows ==> rows[key].expiry.value in ends;
      if IsLastDate(rows, t) {
        assert t in ends && forall e :: e in ends ==> e <= t;
      }
    }
  }

  /** An end is known exactly when all sources of a delivered purchase have expired, each at a known date; it is the last of these. */
  lemma EndExactly(p: Purchase, rows: map<RowKey, Reading>, now: Instant, t: Instant)
    requires p.superseded || Readable(rows, now)
    ensures Entitlement(p, rows, now).ended == Some(t) <==> Delivered(p, rows, now) && AllExpired(rows, now) && IsLastDate(rows, t)
  {
    if Delivered(p, rows, now) {
      ServedStates(p, rows, now);
      LastEndIs(rows, now, t);
      StatesOfRows(rows, now);
      UsableIsNotOver(rows, now);
    } else if !p.superseded {
      CupsAgree(p, now);
      if rows == map[] {
        assert States(rows, now) == {};
      }
    }
  }
}
