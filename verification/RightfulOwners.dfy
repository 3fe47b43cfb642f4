/** Who owns a client and what a purchase is given, by the columns of the tables (load_purchase_maps in customer_activity/mapping.py). */
module RightfulOwners {
  import opened Prelude
  import opened Identities
  import opened Text
  import opened Attribution
  import opened Ownership
  import Evidence

  // ---------- Owners ----------

  /** A confirmed or completed, verified order that names the client in its renewal metadata. */
  predicate RenewalFor(order: Order, c: nat) {
    order.renews == Some(c) && (order.status == Evidence.Confirmed || order.status == Evidence.Completed) && order.verified
  }

  /** The client belongs to an order of the same customer, and is in the same store. */
  predicate SameParty(db: Tables, order: Order, client: Client) {
    && client.order.Some? && client.order.value in db.orders
    && db.orders[client.order.value].customer == order.customer && client.store == order.store
  }

  /** The time of verification, or that of creation where there is none. */
  function TakenAt(order: Order): Instant {
    match order.verifiedAt case Some(t) => t case None => order.createdAt
  }

  predicate NotAfter(db: Tables, p: nat, o: nat)
    requires p in db.orders && o in db.orders
  {
    TakenAt(db.orders[p]) < TakenAt(db.orders[o]) || (TakenAt(db.orders[p]) == TakenAt(db.orders[o]) && p <= o)
  }

  /** A renewal that may take the client over. */
  predicate MayTakeOver(db: Tables, o: nat, c: nat) {
    o in db.orders && c in db.clients && RenewalFor(db.orders[o], c) && SameParty(db, db.orders[o], db.clients[c])
  }

  /** The last of the renewals that may take the client over, by the time of payment and then by key. */
  ghost predicate IsLastRenewal(db: Tables, o: nat, c: nat) {
    MayTakeOver(db, o, c) && forall p :: MayTakeOver(db, p, c) ==> NotAfter(db, p, o)
  }

  lemma TakesOverExactly(db: Tables, o: nat, c: nat)
    requires o in db.orders
    ensures Renews(db, o, c) <==> MayTakeOver(db, o, c)
  {
  }

  /** A client's owner is the last renewal that may take it over, and its own order exactly where there is none. */
  lemma OwnerExactly(db: Tables, owner: Owners, c: nat, o: Option<nat>)
    requires OwnersOf(db, owner) && c in db.clients
    ensures owner[c] == o <==>
              if exists p :: MayTakeOver(db, p, c) then o.Some? && IsLastRenewal(db, o.value, c) else o == db.clients[c].order
  {
    forall p | p in db.orders
      ensures p in Renewals(db, c) <==> MayTakeOver(db, p, c)
    {
      TakesOverExactly(db, p, c);
    }
    if p :| MayTakeOver(db, p, c) {
      assert p in Renewals(db, c);
      OwnerIsLast(db, owner, c);
      if o.Some? && IsLastRenewal(db, o.value, c) {
        assert NotAfter(db, o.value, owner[c].value) && NotAfter(db, owner[c].value, o.value);
      }
    } else {
      assert Renewals(db, c) == {};
    }
  }

  lemma OwnerIsLast(db: Tables, owner: Owners, c: nat)
    requires OwnersOf(db, owner) && c in db.clients && Renewals(db, c) != {}
    requires forall p :: p in db.orders ==> (p in Renewals(db, c) <==> MayTakeOver(db, p, c))
    ensures owner[c].Some? && IsLastRenewal(db, owner[c].value, c)
  {
    assert Owns(db, c, owner[c]);
    var o := owner[c].value;
    forall p | MayTakeOver(db, p, c)
      ensures NotAfter(db, p, o)
    {
      assert p in Renewals(db, c);
      assert p != o ==> Earlier(db, p, o);
    }
  }

  /** Whoever owns a client beside its own order is a paid renewal of the same customer in the same store. */
  lemma OwnerIsRightful(db: Tables, owner: Owners, c: nat, o: nat)
    requires OwnersOf(db, owner) && c in db.clients && owner[c] == Some(o) && db.clients[c].order != Some(o)
    ensures o in db.orders && RenewalFor(db.orders[o], c) && SameParty(db, db.orders[o], db.clients[c])
  {
    OwnerExactly(db, owner, c, Some(o));
  }

  // ---------- Conflicts ----------

  /** A paid renewal that names a client without having a right to it. */
  ghost predicate NamesForeign(db: Tables, o: nat)
    requires o in db.orders
  {
    exists c :: c in db.clients && RenewalFor(db.orders[o], c) && !SameParty(db, db.orders[o], db.clients[c])
  }

  ghost predicate HasForeignCup(db: Tables, o: nat)
    requires o in db.orders
  {
    exists i :: 0 <= i < |db.cups| && db.cups[i].order == Some(o)
                && db.cups[i].customer.Some? && db.cups[i].customer != db.orders[o].customer
  }

  /** A purchase is loaded with a conflict exactly when it names another's client as its renewal or has another customer's cup. */
  lemma ConflictExactly(db: Tables, owner: Owners, loaded: map<nat, Loaded>, orphans: seq<Source>, o: nat)
    requires Referential(db) && OwnersOf(db, owner) && Loads(db, owner, loaded, orphans) && o in loaded
    ensures o in db.orders && (loaded[o].conflict <==> NamesForeign(db, o) || HasForeignCup(db, o))
  {
    assert IsLoaded(db, owner, o, loaded[o]);
    ForeignRenewalExactly(db, o);
    ForeignCupExactly(db, o);
  }

  lemma ForeignRenewalExactly(db: Tables, o: nat)
    requires o in db.orders
    ensures ForeignRenewal(db, o) <==> NamesForeign(db, o)
  {
    if ForeignRenewal(db, o) {
      var c := db.orders[o].renews.value;
      TakesOverExactly(db, o, c);
      assert c in db.clients && RenewalFor(db.orders[o], c);
    }
    if NamesForeign(db, o) {
      var c :| c in db.clients && RenewalFor(db.orders[o], c) && !SameParty(db, db.orders[o], db.clients[c]);
      TakesOverExactly(db, o, c);
    }
  }

  lemma ForeignCupExactly(db: Tables, o: nat)
    requires o in db.orders
    ensures (exists cup :: cup in db.cups && ForeignCup(db, cup, o)) <==> HasForeignCup(db, o)
  {
    if cup :| cup in db.cups && ForeignCup(db, cup, o) {
      var i :| 0 <= i < |db.cups| && db.cups[i] == cup;
    }
    if HasForeignCup(db, o) {
      var i :| 0 <= i < |db.cups| && db.cups[i].order == Some(o)
               && db.cups[i].customer.Some? && db.cups[i].customer != db.orders[o].customer;
      assert db.cups[i] in db.cups;
    }
  }

  /** Such a purchase is always loaded, with the conflict that keeps it from being measured. */
  lemma ForeignRenewalIsLoaded(db: Tables, owner: Owners, loaded: map<nat, Loaded>, orphans: seq<Source>, o: nat, c: nat)
    requires Referential(db) && OwnersOf(db, owner) && Loads(db, owner, loaded, orphans)
    requires o in db.orders && c in db.clients && RenewalFor(db.orders[o], c) && !SameParty(db, db.orders[o], db.clients[c])
    ensures o in loaded && loaded[o].conflict && (owner[c] == Some(o) ==> db.clients[c].order == Some(o))
  {
    assert Relevant(db, owner, o);
    assert NamesForeign(db, o);
    ConflictExactly(db, owner, loaded, orphans, o);
    if owner[c] == Some(o) && db.clients[c].order != Some(o) {
      OwnerIsRightful(db, owner, c, o);
    }
  }

  // ---------- What a purchase is given ----------

  /** The client was the purchase's and has moved on: it now belongs to neither that purchase nor its own order. */
  ghost predicate HasLeft(db: Tables, owner: Owners, c: nat, o: nat) {
    && c in db.clients && c in owner && owner[c] != Some(o) && owner[c] != db.clients[c].order
    && (db.clients[c].order == Some(o) || MayTakeOver(db, o, c))
  }

  /** The cup carries the source by the client that it names. */
  ghost predicate ByClient(db: Tables, cup: Cup, s: Source, c: nat) {
    cup.client == Some(c) && c in db.clients && s == SourceForClient(db.clients[c])
  }

  /** The cup carries the source by an active link in an active item, whether or not the cup itself is active. */
  ghost predicate ByLink(db: Tables, cup: Cup, s: Source, i: int)
    requires 0 <= i < |cup.items|
    requires cup.items[i].link.client.Some? ==> cup.items[i].link.client.value in db.clients
  {
    cup.items[i].active && cup.items[i].link.active && s == SourceForLink(db, cup.items[i].link)
  }

  lemma {:induction false} ItemEntriesExactly(db: Tables, items: seq<Item>, e: (Source, Option<nat>))
    requires forall item :: item in items && item.link.client.Some? ==> item.link.client.value in db.clients
    ensures e in ItemEntries(db, items) <==>
              exists i :: 0 <= i < |items| && items[i].active && items[i].link.active && e == (SourceForLink(db, items[i].link), items[i].link.client)
    decreases |items|
  {
    if items != [] {
      var init := items[..|items| - 1];
      ItemEntriesExactly(db, init, e);
      if i :| 0 <= i < |init| && init[i].active && init[i].link.active && e == (SourceForLink(db, init[i].link), init[i].link.client) {
        assert items[i] == init[i];
      }
      if i :| 0 <= i < |items| && items[i].active && items[i].link.active && e == (SourceForLink(db, items[i].link), items[i].link.client) {
        if i < |init| {
          assert init[i] == items[i];
        }
      }
    }
  }

  /** The cup delivers the source to its purchase, or to none, by a client that has not left it. */
  ghost predicate Gives(db: Tables, owner: Owners, cup: Cup, s: Source)
    requires Referential(db) && cup in db.cups
  {
    || (exists c: nat :: ByClient(db, cup, s, c) && !(cup.order.Some? && HasLeft(db, owner, c, cup.order.value)))
    || (exists i :: 0 <= i < |cup.items| && ByLink(db, cup, s, i)
          && !(cup.order.Some? && cup.items[i].link.client.Some? && HasLeft(db, owner, cup.items[i].link.client.value, cup.order.value)))
  }

  lemma LeavesExactly(db: Tables, owner: Owners, cup: Cup, c: Option<nat>)
    requires Referential(db) && cup in db.cups
    ensures MovedOn(db, owner, cup, c) <==> cup.order.Some? && c.Some? && HasLeft(db, owner, c.value, cup.order.value)
  {
    if cup.order.Some? && c.Some? {
      TakesOverExactly(db, cup.order.value, c.value);
    }
  }

  lemma GivesExactly(db: Tables, owner: Owners, cup: Cup, s: Source)
    requires Referential(db) && cup in db.cups
    ensures s in CupSources(db, owner, cup) <==> Gives(db, owner, cup, s)
  {
    if s in CupSources(db, owner, cup) {
      var e :| e in Entries(db, cup) && !MovedOn(db, owner, cup, e.1) && e.0 == s;
      LeavesExactly(db, owner, cup, e.1);
      EntryGives(db, owner, cup, e);
    }
    if Gives(db, owner, cup, s) {
      var e := GivingEntry(db, owner, cup, s);
      LeavesExactly(db, owner, cup, e.1);
    }
  }

  lemma GivingEntry(db: Tables, owner: Owners, cup: Cup, s: Source) returns (e: (Source, Option<nat>))
    requires Referential(db) && cup in db.cups && Gives(db, owner, cup, s)
    ensures e in Entries(db, cup) && e.0 == s && !(cup.order.Some? && e.1.Some? && HasLeft(db, owner, e.1.value, cup.order.value))
  {
    if c: nat :| ByClient(db, cup, s, c) && !(cup.order.Some? && HasLeft(db, owner, c, cup.order.value)) {
      e := (s, Some(c));
    } else {
      var i :| 0 <= i < |cup.items| && ByLink(db, cup, s, i)
               && !(cup.order.Some? && cup.items[i].link.client.Some? && HasLeft(db, owner, cup.items[i].link.client.value, cup.order.value));
      e := (s, cup.items[i].link.client);
      ItemEntriesExactly(db, cup.items, e);
    }
  }

  lemma EntryGives(db: Tables, owner: Owners, cup: Cup, e: (Source, Option<nat>))
    requires Referential(db) && cup in db.cups && e in Entries(db, cup)
    requires !(cup.order.Some? && e.1.Some? && HasLeft(db, owner, e.1.value, cup.order.value))
    ensures Gives(db, owner, cup, e.0)
  {
    if e in ItemEntries(db, cup.items) {
      ItemEntriesExactly(db, cup.items, e);
      var i :| 0 <= i < |cup.items| && cup.items[i].active && cup.items[i].link.active
               && e == (SourceForLink(db, cup.items[i].link), cup.items[i].link.client);
      assert ByLink(db, cup, e.0, i);
    } else {
      assert ByClient(db, cup, e.0, cup.client.value);
    }
  }

  ghost predicate GivenByClient(db: Tables, owner: Owners, o: Option<nat>, s: Source) {
    exists c :: c in db.clients && c in owner && owner[c] == o && s == SourceForClient(db.clients[c])
  }

  ghost predicate GivenByCup(db: Tables, owner: Owners, o: Option<nat>, s: Source)
    requires Referential(db)
  {
    exists cup :: cup in db.cups && cup.order == o && Gives(db, owner, cup, s)
  }

  lemma CupsGiveExactly(db: Tables, owner: Owners, o: Option<nat>, s: Source)
    requires Referential(db)
    ensures s in Delivered(db, owner, db.cups, o) <==> GivenByCup(db, owner, o, s)
  {
    if s in Delivered(db, owner, db.cups, o) {
      var cup :| cup in db.cups && cup.order == o && s in CupSources(db, owner, cup);
      GivesExactly(db, owner, cup, s);
    }
    if cup :| cup in db.cups && cup.order == o && Gives(db, owner, cup, s) {
      GivesExactly(db, owner, cup, s);
    }
  }

  /** A purchase is given the sources of the clients that it owns and those of its cups, and no others. */
  lemma GivenExactly(db: Tables, owner: Owners, loaded: map<nat, Loaded>, orphans: seq<Source>, o: nat, s: Source)
    requires Referential(db) && OwnersOf(db, owner) && Loads(db, owner, loaded, orphans) && o in db.orders
    ensures o in loaded && s in loaded[o].sources <==> GivenByClient(db, owner, Some(o), s) || GivenByCup(db, owner, Some(o), s)
  {
    CupsGiveExactly(db, owner, Some(o), s);
    OwnGivenExactly(db, owner, o, s);
    if s in Sources(db, owner, o) {
      assert Relevant(db, owner, o);
    }
    if o in loaded {
      assert IsLoaded(db, owner, o, loaded[o]);
    }
  }

  lemma OwnGivenExactly(db: Tables, owner: Owners, o: nat, s: Source)
    ensures s in OwnSources(db, owner, o) <==> GivenByClient(db, owner, Some(o), s)
  {
  }

  /** What no purchase is given by its owner, or a cup of none carries, is left without an owner, and nothing else. */
  lemma OrphansExactly(db: Tables, owner: Owners, loaded: map<nat, Loaded>, orphans: seq<Source>, s: Source)
    requires Referential(db) && OwnersOf(db, owner) && Loads(db, owner, loaded, orphans)
    ensures s in orphans <==> GivenByClient(db, owner, None, s) || GivenByCup(db, owner, None, s)
  {
    CupsGiveExactly(db, owner, None, s);
    assert s in OrphansAmong(db, owner, db.clients.Keys) <==> GivenByClient(db, owner, None, s);
  }

  /** A purchase is loaded exactly when it is fulfilled, has a cup, or is given a source. */
  lemma LoadedExactly(db: Tables, owner: Owners, loaded: map<nat, Loaded>, orphans: seq<Source>, o: nat)
    requires Referential(db) && OwnersOf(db, owner) && Loads(db, owner, loaded, orphans) && o in db.orders
    ensures o in loaded <==>
              || db.orders[o].status == Evidence.Confirmed || db.orders[o].status == Evidence.Completed
              || (exists cup :: cup in db.cups && cup.order == Some(o))
              || exists s :: GivenByClient(db, owner, Some(o), s) || GivenByCup(db, owner, Some(o), s)
  {
    HasCupsExactly(db.cups, o);
    if Sources(db, owner, o) != {} {
      var s := Pick(Sources(db, owner, o));
      CupsGiveExactly(db, owner, Some(o), s);
    }
    if s :| GivenByClient(db, owner, Some(o), s) || GivenByCup(db, owner, Some(o), s) {
      CupsGiveExactly(db, owner, Some(o), s);
      OwnGivenExactly(db, owner, o, s);
      assert s in Sources(db, owner, o);
    }
  }

  lemma {:induction false} HasCupsExactly(cups: seq<Cup>, o: nat)
    ensures CupsOf(cups, o) != [] <==> exists cup :: cup in cups && cup.order == Some(o)
    decreases |cups|
  {
    if cups != [] {
      HasCupsExactly(cups[..|cups| - 1], o);
      assert cups == cups[..|cups| - 1] + [cups[|cups| - 1]];
    }
  }

  /** A loaded purchase is superseded exactly when it has no source, and had a client that is owned by another now. */
  lemma SupersessionExactly(db: Tables, owner: Owners, loaded: map<nat, Loaded>, orphans: seq<Source>, o: nat)
    requires Referential(db) && OwnersOf(db, owner) && Loads(db, owner, loaded, orphans) && o in loaded
    ensures loaded[o].superseded <==>
              && loaded[o].sources == {}
              && exists c :: c in db.clients && owner[c] != Some(o) && (db.clients[c].order == Some(o) || MayTakeOver(db, o, c))
  {
    assert IsLoaded(db, owner, o, loaded[o]);
    forall c | c in db.clients
      ensures o in Renewals(db, c) <==> MayTakeOver(db, o, c)
    {
      TakesOverExactly(db, o, c);
    }
    if c :| c in db.clients && owner[c] != Some(o) && (db.clients[c].order == Some(o) || MayTakeOver(db, o, c)) {
      assert Lost(db, owner, c, o);
    }
  }

  // ---------- What a source stands for ----------

  /** One of the client's identifiers is among the aliases, without the white space around it. */
  predicate KnownBy(client: Client, row: RemoteRow) {
    exists v :: v in [client.uuid, client.email, client.username, client.subscription] && v != "" && Hash(Strip(v)) in row.aliases
  }

  /** The name under which PasarGuard knows the client: the panel's own record of it, or else its email or its username. */
  function AccountName(client: Client): string {
    Strip(if client.account != "" then client.account else if client.email != "" then client.email else client.username)
  }

  function NodeOf(client: Client): string {
    if client.node != "" then client.node else if client.inbound.Some? then client.inbound.value.node else ""
  }

  predicate OfPasarGuard(client: Client) {
    client.inbound.Some? && client.inbound.value.panel.pasarguard
  }

  /** A row fits a client's source exactly when it is on the client's panel, inbound and node and carries one of its identifiers. */
  lemma ClientRowsExactly(client: Client, row: RemoteRow)
    requires !OfPasarGuard(client) && NodeOf(client) != PASARGUARD
    ensures Matches(SourceForClient(client), row) <==>
              && client.inbound.Some? && client.inbound.value.panel.pk == row.panel && row.inbound == Some(client.inbound.value.pk)
              && NodeOf(client) == row.node && KnownBy(client, row)
  {
    KnownExactly(client, row);
  }

  /** A row fits the source of a PasarGuard account exactly when it is the panel's and carries the account's name. */
  lemma AccountRowsExactly(client: Client, row: RemoteRow)
    requires OfPasarGuard(client)
    ensures Matches(SourceForClient(client), row) <==>
              && client.inbound.value.panel.pk == row.panel && row.node == PASARGUARD
              && AccountName(client) != "" && Hash(Strip(AccountName(client))) in row.aliases
  {
    var source := SourceForClient(client);
    if Overlaps(source, row) {
      var h :| h in source.hashes * row.aliases;
      assert source.hashes == {h};
    } else if AccountName(client) != "" {
      assert Hash(Strip(AccountName(client))) in source.hashes;
      assert Hash(Strip(AccountName(client))) !in source.hashes * row.aliases;
    }
  }

  /** The link's credential without the white space around it; nothing where it has none. */
  predicate Shown(link: Link, row: RemoteRow) {
    Strip(link.identifier) != "" && Hash(Strip(link.identifier)) in row.aliases
  }

  lemma ShownExactly(link: Link, row: RemoteRow)
    ensures OneDigest(link.identifier) * row.aliases != {} <==> Shown(link, row)
  {
    if Shown(link, row) {
      assert Digest(link.identifier) in OneDigest(link.identifier) * row.aliases;
    }
  }

  /** A link to a PasarGuard account fits a row that fits the account and carries the link's credential as well. */
  lemma AccountLinkRowsExactly(db: Tables, link: Link, row: RemoteRow)
    requires link.client.Some? && link.client.value in db.clients && OfPasarGuard(db.clients[link.client.value])
    ensures Matches(SourceForLink(db, link), row) <==>
              var client := db.clients[link.client.value];
              && client.inbound.value.panel.pk == row.panel && row.node == PASARGUARD && Shown(link, row)
              && (AccountName(client) != "" ==> Hash(Strip(AccountName(client))) in row.aliases)
  {
    ShownExactly(link, row);
  }

  /** The link's credential is one of the client's identifiers. */
  predicate AgreesWith(link: Link, client: Client) {
    && Strip(link.identifier) != ""
    && exists v :: v in [client.uuid, client.email, client.username, client.subscription] && v != "" && Strip(v) == Strip(link.identifier)
  }

  /**
   * A link to any other client stands for the client exactly when it agrees with it. Otherwise it stands for no row, but may be
   * any row that is known by an identifier of the client or shows the link's credential, on whatever panel.
   */
  lemma ClientLinkExactly(db: Tables, link: Link, row: RemoteRow)
    requires link.client.Some? && link.client.value in db.clients && !OfPasarGuard(db.clients[link.client.value])
    ensures var client, s := db.clients[link.client.value], SourceForLink(db, link);
      if AgreesWith(link, client) then s == SourceForClient(client)
      else s.panel.None? && (Overlaps(s, row) <==> KnownBy(client, row) || Shown(link, row))
  {
    var client := db.clients[link.client.value];
    AgreementExactly(client, link);
    if !AgreesWith(link, client) {
      KnownExactly(client, row);
      ShownExactly(link, row);
      var ids, own := SourceForClient(client).hashes, OneDigest(link.identifier);
      assert (ids + own) * row.aliases == ids * row.aliases + own * row.aliases;
    }
  }

  lemma AgreementExactly(client: Client, link: Link)
    requires !OfPasarGuard(client)
    ensures AgreesWith(link, client) <==> OneDigest(link.identifier) != {} && OneDigest(link.identifier) <= SourceForClient(client).hashes
  {
    var values := [client.uuid, client.email, client.username, client.subscription];
    assert SourceForClient(client).hashes == Digests(values);
    if AgreesWith(link, client) {
      var v :| v in values && v != "" && Strip(v) == Strip(link.identifier);
      assert Digest(v) in Digests(values) && OneDigest(link.identifier) == {Digest(v)};
    }
    if OneDigest(link.identifier) != {} && OneDigest(link.identifier) <= SourceForClient(client).hashes {
      assert Digest(link.identifier) in OneDigest(link.identifier);
      var v :| v in values && v != "" && Digest(v) == Digest(link.identifier);
    }
  }

  lemma KnownExactly(client: Client, row: RemoteRow)
    requires !OfPasarGuard(client)
    ensures SourceForClient(client).hashes * row.aliases != {} <==> KnownBy(client, row)
  {
    var values := [client.uuid, client.email, client.username, client.subscription];
    assert SourceForClient(client).hashes == Digests(values);
    if h :| h in Digests(values) * row.aliases {
      var v :| v in values && v != "" && Digest(v) == h;
    }
    if KnownBy(client, row) {
      var v :| v in values && v != "" && Hash(Strip(v)) in row.aliases;
      assert Digest(v) in Digests(values) * row.aliases;
    }
  }

  /** The panel that a link without a client names, by itself or by its inbound. */
  function PanelOf(link: Link): Option<Panel> {
    match link.panel
    case Some(panel) => Some(panel)
    case None => if link.inbound.Some? then Some(link.inbound.value.panel) else None
  }

  /** A link without a client fits the rows of its own panel and inbound that show its credential. */
  lemma LooseLinkRowsExactly(db: Tables, link: Link, row: RemoteRow)
    requires link.client.None? && (link.inbound.Some? ==> link.inbound.value.node != PASARGUARD)
    ensures Matches(SourceForLink(db, link), row) <==>
              && PanelOf(link).Some? && PanelOf(link).value.pk == row.panel
              && (link.inbound.Some? ==> link.inbound.value.panel.pk == row.panel)
              && link.identifier != "" && Hash(Strip(link.identifier)) in row.aliases
              && if PanelOf(link).value.pasarguard then row.node == PASARGUARD
                 else row.node == (if link.inbound.Some? then link.inbound.value.node else "")
                      && row.inbound == (if link.inbound.Some? then Some(link.inbound.value.pk) else None)
  {
    var h := Digest(link.identifier);
    assert {h} * row.aliases != {} <==> h in row.aliases by {
      if h in row.aliases {
        assert h in {h} * row.aliases;
      }
    }
  }
}
