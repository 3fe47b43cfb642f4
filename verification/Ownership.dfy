/** Which purchase owns which delivered source, after renewals (load_purchase_maps in customer_activity/mapping.py). */
module Ownership {
  import opened Prelude
  import opened Identities
  import opened Text
  import opened Attribution
  import Evidence

  // ---------- The tables ----------

  // "renews" is the client named by the renewal metadata, when it is a number.
  datatype Order = Order(
    customer: Option<nat>, store: nat, createdAt: Instant, verifiedAt: Option<Instant>,
    status: Evidence.OrderStatus, verified: bool, renews: Option<nat>)

  datatype Panel = Panel(pk: nat, pasarguard: bool)

  datatype Inbound = Inbound(pk: nat, panel: Panel, node: string)

  // "account" is the username of the panel's own record of a client.
  datatype Client = Client(
    order: Option<nat>, store: nat, inbound: Option<Inbound>, node: string,
    uuid: string, email: string, username: string, subscription: string, account: string)

  // "identifier" is the credential read from the link, empty when it cannot be read.
  datatype Link = Link(active: bool, identifier: string, client: Option<nat>, inbound: Option<Inbound>, panel: Option<Panel>)

  datatype Item = Item(active: bool, link: Link)

  datatype Cup = Cup(order: Option<nat>, customer: Option<nat>, client: Option<nat>, items: seq<Item>)

  datatype Tables = Tables(orders: map<nat, Order>, clients: map<nat, Client>, cups: seq<Cup>)

  /** Foreign keys lead to rows, and only PasarGuard panels use its name for a node. */
  predicate Referential(db: Tables) {
    && (forall c :: c in db.clients && !OnPasarGuard(db.clients[c]) ==> SourceForClient(db.clients[c]).node != PASARGUARD)
    && (forall c :: c in db.clients && db.clients[c].order.Some? ==> db.clients[c].order.value in db.orders)
    && (forall cup :: cup in db.cups ==>
          && (cup.order.Some? ==> cup.order.value in db.orders)
          && (cup.client.Some? ==> cup.client.value in db.clients)
          && (forall item :: item in cup.items && item.link.client.Some? ==> item.link.client.value in db.clients))
  }

  // ---------- Sources ----------

  function Digest(value: string): Hash {
    Hash(Strip(value))
  }

  function Digests(values: seq<string>): set<Hash> {
    set v | v in values && v != "" :: Digest(v)
  }

  function FirstNonEmpty(a: string, b: string, c: string): string {
    if a != "" then a else if b != "" then b else c
  }

  function OnPasarGuard(c: Client): bool {
    c.inbound.Some? && c.inbound.value.panel.pasarguard
  }

  /** The account name under which PasarGuard knows a client, if any. */
  function AccountDigest(c: Client): Option<Hash> {
    var username := Strip(FirstNonEmpty(c.account, c.email, c.username));
    if username != "" then Some(Digest(username)) else None
  }

  /** A PasarGuard account is known by its username alone, any other client by all of its identifiers. */
  function SourceForClient(c: Client): Source {
    var panel := if c.inbound.Some? then Some(c.inbound.value.panel.pk) else None;
    var inbound := if c.inbound.Some? then Some(c.inbound.value.pk) else None;
    if OnPasarGuard(c) then
      Source(panel, inbound, PASARGUARD, if AccountDigest(c).Some? then {AccountDigest(c).value} else {}, None)
    else
      Source(panel, inbound, FirstNonEmpty(c.node, if c.inbound.Some? then c.inbound.value.node else "", ""),
             Digests([c.uuid, c.email, c.username, c.subscription]), None)
  }

  function OneDigest(identifier: string): set<Hash> {
    if Strip(identifier) != "" then {Digest(identifier)} else {}
  }

  /** A link that names a client must agree with it; otherwise the link says by itself where its account lives. */
  function SourceForLink(db: Tables, link: Link): Source
    requires link.client.Some? ==> link.client.value in db.clients
  {
    if link.client.Some? then
      var client := db.clients[link.client.value];
      var source := SourceForClient(client);
      if OnPasarGuard(client) then source.(hashes := OneDigest(link.identifier), required := AccountDigest(client))
      else if OneDigest(link.identifier) != {} && OneDigest(link.identifier) <= source.hashes then source
      else Source(None, None, "", source.hashes + OneDigest(link.identifier), None)
    else
      var panel := if link.panel.Some? then link.panel else if link.inbound.Some? then Some(link.inbound.value.panel) else None;
      var panelId := if panel.Some? then Some(panel.value.pk) else None;
      var inboundId := if link.inbound.Some? then Some(link.inbound.value.pk) else None;
      var hashes := if link.identifier != "" then {Digest(link.identifier)} else {};
      if link.inbound.Some? && Some(link.inbound.value.panel.pk) != panelId then Source(None, None, "", {}, None)
      else if panel.Some? && panel.value.pasarguard then Source(panelId, inboundId, PASARGUARD, hashes, None)
      else Source(panelId, inboundId, if link.inbound.Some? then link.inbound.value.node else "", hashes, None)
  }

  /** The links that name a client and resolve to a row at all: the client has a place, and the link agrees with its identities. */
  predicate Resolvable(db: Tables, link: Link)
    requires link.client.Some? && link.client.value in db.clients
  {
    var client := db.clients[link.client.value];
    && client.inbound.Some? && OneDigest(link.identifier) != {}
    && (OnPasarGuard(client) || OneDigest(link.identifier) <= SourceForClient(client).hashes)
  }

  /** Every row that such a link may resolve to, among whatever rows, carries the digest. */
  ghost predicate AlwaysCarries(db: Tables, link: Link, digests: set<Hash>)
    requires link.client.Some? ==> link.client.value in db.clients
  {
    forall rows :: Resolve(SourceForLink(db, link), rows).Some? ==> digests * Resolve(SourceForLink(db, link), rows).value.aliases != {}
  }

  /** A row of its own that a source resolves to, known there by one digest and the required one. */
  ghost function RowFor(s: Source, h: Hash): RemoteRow
    requires s.panel.Some?
  {
    RemoteRow(s.panel.value, s.inbound, "", s.node, h, {h} + (if s.required.Some? then {s.required.value} else {}), false,
              Reading(None, None, None, 0, None, None, OtherRemoteStatus, None))
  }

  lemma RowIsResolved(s: Source, h: Hash)
    requires Identifiable(s) && h in s.hashes
    ensures Resolve(s, [RowFor(s, h)]) == Some(RowFor(s, h))
  {
    assert h in s.hashes * RowFor(s, h).aliases;
    assert MatchesAt(s, [RowFor(s, h)]) == {0};
  }

  lemma ResolvedMatches(s: Source, rows: seq<RemoteRow>)
    ensures Resolve(s, rows).Some? ==> Identifiable(s) && Resolve(s, rows).value in rows && Matches(s, Resolve(s, rows).value)
  {
    if Resolve(s, rows).Some? {
      assert MatchesAt(s, rows) != {};
    }
  }

  /**
   * The rows that a link to a client resolves to carry the link's own credential exactly when the client is a PasarGuard
   * account or has no other identity; any identity of another client is enough for a match.
   */
  lemma CredentialIsOnRowExactly(db: Tables, link: Link)
    requires Referential(db) && link.client.Some? && link.client.value in db.clients
    ensures AlwaysCarries(db, link, OneDigest(link.identifier)) <==>
              !Resolvable(db, link) || OnPasarGuard(db.clients[link.client.value])
              || SourceForClient(db.clients[link.client.value]).hashes == OneDigest(link.identifier)
  {
    var source, digests := SourceForLink(db, link), OneDigest(link.identifier);
    forall rows | Resolve(source, rows).Some?
      ensures Resolvable(db, link) && source.hashes * Resolve(source, rows).value.aliases != {}
    {
      ResolvedMatches(source, rows);
    }
    if Resolvable(db, link) && source.hashes != digests {
      var h := Pick(source.hashes - digests);
      RowIsResolved(source, h);
      assert digests * RowFor(source, h).aliases == {};
    }
  }

  /** They carry an identity of the client exactly when it is not a PasarGuard account without a name. */
  lemma IdentityIsOnRowExactly(db: Tables, link: Link)
    requires Referential(db) && link.client.Some? && link.client.value in db.clients
    ensures AlwaysCarries(db, link, SourceForClient(db.clients[link.client.value]).hashes) <==>
              !Resolvable(db, link) || SourceForClient(db.clients[link.client.value]).hashes != {}
  {
    var client := db.clients[link.client.value];
    var source := SourceForLink(db, link);
    forall rows | Resolve(source, rows).Some?
      ensures Resolvable(db, link)
      ensures SourceForClient(client).hashes != {} ==> SourceForClient(client).hashes * Resolve(source, rows).value.aliases != {}
    {
      ResolvedMatches(source, rows);
      if OnPasarGuard(client) && AccountDigest(client).Some? {
        assert AccountDigest(client).value in SourceForClient(client).hashes * Resolve(source, rows).value.aliases;
      }
    }
    if Resolvable(db, link) && SourceForClient(client).hashes == {} {
      RowIsResolved(source, Pick(source.hashes));
    }
  }

  // ---------- Renewals ----------

  function PaidAt(order: Order): Instant {
    if order.verifiedAt.Some? then order.verifiedAt.value else order.createdAt
  }

  /** Orders are taken by the time of payment, then by key. */
  predicate Earlier(db: Tables, a: nat, b: nat)
    requires a in db.orders && b in db.orders
  {
    PaidAt(db.orders[a]) < PaidAt(db.orders[b]) || (PaidAt(db.orders[a]) == PaidAt(db.orders[b]) && a < b)
  }

  /** A successful renewal that names an existing client. */
  predicate Names(db: Tables, o: nat, c: nat)
    requires o in db.orders
  {
    c in db.clients && db.orders[o].renews == Some(c) && Evidence.Fulfilled(db.orders[o].status) && db.orders[o].verified
  }

  /** ... and by the same customer in the same store. */
  predicate Renews(db: Tables, o: nat, c: nat)
    requires o in db.orders
  {
    && Names(db, o, c) && db.clients[c].order.Some? && db.clients[c].order.value in db.orders
    && db.orders[db.clients[c].order.value].customer == db.orders[o].customer && db.clients[c].store == db.orders[o].store
  }

  ghost function Renewals(db: Tables, c: nat): set<nat>
  {
    set o | o in db.orders && Renews(db, o, c)
  }

  /** The owner is the client's own order, or the latest of its renewals. */
  ghost predicate Owns(db: Tables, c: nat, owner: Option<nat>)
    requires c in db.clients
  {
    if Renewals(db, c) == {} then owner == db.clients[c].order
    else owner.Some? && owner.value in Renewals(db, c)
         && forall o :: o in Renewals(db, c) && o != owner.value ==> Earlier(db, o, owner.value)
  }

  type Owners = map<nat, Option<nat>>

  ghost predicate OwnersOf(db: Tables, owner: Owners)
  {
    owner.Keys == db.clients.Keys && forall c :: c in db.clients ==> Owns(db, c, owner[c])
  }

  // ---------- What a purchase is given ----------

  ghost function OwnSources(db: Tables, owner: Owners, o: nat): set<Source> {
    set c | c in db.clients && c in owner && owner[c] == Some(o) :: SourceForClient(db.clients[c])
  }

  function ItemEntries(db: Tables, items: seq<Item>): seq<(Source, Option<nat>)>
    requires forall item :: item in items && item.link.client.Some? ==> item.link.client.value in db.clients
  {
    if items == [] then []
    else
      var item := items[|items| - 1];
      ItemEntries(db, items[..|items| - 1])
      + if item.active && item.link.active then [(SourceForLink(db, item.link), item.link.client)] else []
  }

  /** The sources that a cup delivers, each with the client that it names. */
  function Entries(db: Tables, cup: Cup): seq<(Source, Option<nat>)>
    requires Referential(db) && cup in db.cups
  {
    (if cup.client.Some? then [(SourceForClient(db.clients[cup.client.value]), cup.client)] else []) + ItemEntries(db, cup.items)
  }

  /** A client that has moved on: it is owned by neither the cup's purchase nor its own, and the cup's purchase had it before. */
  ghost predicate MovedOn(db: Tables, owner: Owners, cup: Cup, c: Option<nat>)
  {
    && cup.order.Some? && c.Some? && c.value in db.clients && c.value in owner
    && owner[c.value] != cup.order && owner[c.value] != db.clients[c.value].order
    && (db.clients[c.value].order == cup.order || cup.order.value in Renewals(db, c.value))
  }

  ghost function CupSources(db: Tables, owner: Owners, cup: Cup): set<Source>
    requires Referential(db) && cup in db.cups
  {
    set e | e in Entries(db, cup) && !MovedOn(db, owner, cup, e.1) :: e.0
  }

  ghost function Delivered(db: Tables, owner: Owners, cups: seq<Cup>, o: Option<nat>): set<Source>
    requires Referential(db) && forall cup :: cup in cups ==> cup in db.cups
  {
    set cup, s | cup in cups && cup.order == o && s in CupSources(db, owner, cup) :: s
  }

  ghost function Sources(db: Tables, owner: Owners, o: nat): set<Source>
    requires Referential(db)
  {
    OwnSources(db, owner, o) + Delivered(db, owner, db.cups, Some(o))
  }

  /** A purchase that had the client: its own order or a renewal. */
  ghost predicate InChain(db: Tables, c: nat, o: nat)
    requires c in db.clients
  {
    db.clients[c].order == Some(o) || o in Renewals(db, c)
  }

  ghost predicate Lost(db: Tables, owner: Owners, c: nat, o: nat)
    requires c in db.clients && c in owner
  {
    owner[c] != Some(o) && InChain(db, c, o)
  }

  ghost predicate LostClient(db: Tables, owner: Owners, o: nat)
  {
    exists c :: c in db.clients && c in owner && Lost(db, owner, c, o)
  }

  ghost predicate LostInCup(db: Tables, owner: Owners, cups: seq<Cup>, o: nat)
    requires Referential(db) && forall cup :: cup in cups ==> cup in db.cups
  {
    exists cup, e :: cup in cups && cup.order == Some(o) && e in Entries(db, cup) && MovedOn(db, owner, cup, e.1)
  }

  /** A cup can only lose a client that its purchase has lost already. */
  lemma CupsLoseNothingNew(db: Tables, owner: Owners, o: nat)
    requires Referential(db) && LostInCup(db, owner, db.cups, o)
    ensures LostClient(db, owner, o)
  {
    var cup, e :| cup in db.cups && cup.order == Some(o) && e in Entries(db, cup) && MovedOn(db, owner, cup, e.1);
  }

  predicate ForeignRenewal(db: Tables, o: nat)
    requires o in db.orders
  {
    db.orders[o].renews.Some? && Names(db, o, db.orders[o].renews.value) && !Renews(db, o, db.orders[o].renews.value)
  }

  predicate ForeignCup(db: Tables, cup: Cup, o: nat)
    requires o in db.orders
  {
    cup.order == Some(o) && cup.customer.Some? && cup.customer != db.orders[o].customer
  }

  // ---------- The loops ----------

  // The attributes of the purchase maps, as the loops fill them.
  datatype Loaded = Loaded(sources: set<Source>, cups: seq<Cup>, conflict: bool, superseded: bool)

  predicate InOrder(db: Tables, sorted: seq<nat>) {
    forall i, j :: 0 <= i < j < |sorted| ==> sorted[i] in db.orders && sorted[j] in db.orders && Earlier(db, sorted[i], sorted[j])
  }

  method SortOrders(db: Tables) returns (sorted: seq<nat>)
    ensures forall o :: o in sorted <==> o in db.orders
    ensures InOrder(db, sorted)
  {
    sorted := [];
    var todo := db.orders.Keys;
    while todo != {}
      invariant todo <= db.orders.Keys
      invariant forall o :: o in sorted <==> o in db.orders && o !in todo
      invariant InOrder(db, sorted)
      invariant forall i, o :: 0 <= i < |sorted| && o in todo ==> sorted[i] in db.orders && Earlier(db, sorted[i], o)
    {
      var first := EarliestOf(db, todo);
      sorted, todo := sorted + [first], todo - {first};
    }
  }

  method EarliestOf(db: Tables, orders: set<nat>) returns (first: nat)
    requires orders != {} && orders <= db.orders.Keys
    ensures first in orders && forall o :: o in orders && o != first ==> Earlier(db, first, o)
  {
    first :| first in orders;
    var todo := orders - {first};
    while todo != {}
      invariant todo <= orders && first in orders && first !in todo
      invariant forall o :: o in orders && o !in todo && o != first ==> Earlier(db, first, o)
    {
      var o :| o in todo;
      if Earlier(db, o, first) {
        first := o;
      }
      todo := todo - {o};
    }
  }

  ghost function RenewalsAmong(db: Tables, orders: seq<nat>, c: nat): set<nat>
  {
    set o | o in orders && o in db.orders && Renews(db, o, c)
  }

  /** The owner of a client after the given orders: its own order, or the latest of the renewals among them. */
  ghost predicate OwnsAfter(db: Tables, orders: seq<nat>, c: nat, owner: Option<nat>)
    requires c in db.clients
  {
    var renewals := RenewalsAmong(db, orders, c);
    if renewals == {} then owner == db.clients[c].order
    else owner.Some? && owner.value in renewals
         && forall o :: o in renewals && o != owner.value ==> o in db.orders && owner.value in db.orders && Earlier(db, o, owner.value)
  }

  lemma RenewalsStep(db: Tables, orders: seq<nat>, o: nat, c: nat)
    requires o in db.orders
    ensures RenewalsAmong(db, orders + [o], c) == RenewalsAmong(db, orders, c) + if Renews(db, o, c) then {o} else {}
  {
  }

  lemma OwnerStep(db: Tables, orders: seq<nat>, o: nat, c: nat, owner: Option<nat>)
    requires o in db.orders && c in db.clients && OwnsAfter(db, orders, c, owner)
    requires forall p :: p in orders ==> p in db.orders && Earlier(db, p, o)
    ensures OwnsAfter(db, orders + [o], c, if Renews(db, o, c) then Some(o) else owner)
  {
    RenewalsStep(db, orders, o, c);
  }

  lemma Extend<T>(s: seq<T>, i: nat)
    requires i < |s|
    ensures s[..i + 1] == s[..i] + [s[i]]
  {
  }

  ghost function ForeignAmong(db: Tables, orders: seq<nat>): set<nat> {
    set o | o in orders && o in db.orders && ForeignRenewal(db, o)
  }

  lemma ForeignStep(db: Tables, orders: seq<nat>, o: nat)
    requires o in db.orders
    ensures ForeignAmong(db, orders + [o]) == if ForeignRenewal(db, o) then ForeignAmong(db, orders) + {o} else ForeignAmong(db, orders)
  {
  }

  /** The effect of one order on the owners. */
  method TakeOver(db: Tables, owner: Owners, renewals: map<nat, set<nat>>, o: nat)
    returns (owner': Owners, renewals': map<nat, set<nat>>, refused: bool)
    requires o in db.orders && owner.Keys == renewals.Keys == db.clients.Keys
    ensures owner'.Keys == renewals'.Keys == db.clients.Keys
    ensures forall c :: c in db.clients ==> owner'[c] == if Renews(db, o, c) then Some(o) else owner[c]
    ensures forall c :: c in db.clients ==> renewals'[c] == renewals[c] + if Renews(db, o, c) then {o} else {}
    ensures refused <==> ForeignRenewal(db, o)
  {
    owner', renewals', refused := owner, renewals, false;
    var target := db.orders[o].renews;
    if target.Some? && Names(db, o, target.value) {
      if Renews(db, o, target.value) {
        owner' := owner[target.value := Some(o)];
        renewals' := renewals[target.value := renewals[target.value] + {o}];
      } else {
        refused := true;
      }
    }
  }

  /** Renewals in the order of payment: each takes its client over from the previous owner. */
  method AssignOwners(db: Tables) returns (owner: Owners, renewals: map<nat, set<nat>>, foreign: set<nat>)
    ensures OwnersOf(db, owner)
    ensures renewals.Keys == db.clients.Keys && forall c :: c in db.clients ==> renewals[c] == Renewals(db, c)
    ensures forall o :: o in foreign <==> o in db.orders && ForeignRenewal(db, o)
  {
    var sorted := SortOrders(db);
    owner := map c | c in db.clients :: db.clients[c].order;
    renewals := map c | c in db.clients :: {};
    foreign := {};
    NoneAssigned(db, sorted[..0], owner, renewals);
    for i := 0 to |sorted|
      invariant AssignedAfter(db, sorted[..i], owner, renewals, foreign)
    {
      Extend(sorted, i);
      EarlierBefore(db, sorted, i);
      owner, renewals, foreign := AssignNext(db, sorted[..i], sorted[i], owner, renewals, foreign);
    }
    AssignedByAll(db, sorted, owner, renewals, foreign);
  }

  /** One turn of the loop over the orders. */
  method AssignNext(db: Tables, ghost orders: seq<nat>, o: nat, owner: Owners, renewals: map<nat, set<nat>>, foreign: set<nat>)
    returns (owner': Owners, renewals': map<nat, set<nat>>, foreign': set<nat>)
    requires o in db.orders && AssignedAfter(db, orders, owner, renewals, foreign)
    requires forall p :: p in orders ==> p in db.orders && Earlier(db, p, o)
    ensures AssignedAfter(db, orders + [o], owner', renewals', foreign')
  {
    var refused;
    owner', renewals', refused := TakeOver(db, owner, renewals, o);
    foreign' := if refused then foreign + {o} else foreign;
    AssignStep(db, orders, o, owner, renewals, foreign, owner', renewals', foreign');
  }

  /** Every client's owner and renewals, and the refused renewals, are those that the given orders lead to. */
  ghost predicate AssignedAfter(db: Tables, orders: seq<nat>, owner: Owners, renewals: map<nat, set<nat>>, foreign: set<nat>) {
    && owner.Keys == renewals.Keys == db.clients.Keys
    && (forall c :: c in db.clients ==> OwnsAfter(db, orders, c, owner[c]) && renewals[c] == RenewalsAmong(db, orders, c))
    && foreign == ForeignAmong(db, orders)
  }

  lemma NoneAssigned(db: Tables, orders: seq<nat>, owner: Owners, renewals: map<nat, set<nat>>)
    requires orders == [] && owner.Keys == renewals.Keys == db.clients.Keys
    requires forall c :: c in db.clients ==> owner[c] == db.clients[c].order && renewals[c] == {}
    ensures AssignedAfter(db, orders, owner, renewals, {})
  {
    assert ForeignAmong(db, orders) == {};
    assert forall c :: RenewalsAmong(db, orders, c) == {};
  }

  lemma EarlierBefore(db: Tables, sorted: seq<nat>, i: nat)
    requires i < |sorted| && InOrder(db, sorted) && forall o :: o in sorted ==> o in db.orders
    ensures sorted[i] in db.orders && forall p :: p in sorted[..i] ==> p in db.orders && Earlier(db, p, sorted[i])
  {
  }

  lemma AssignStep(db: Tables, orders: seq<nat>, o: nat, owner: Owners, renewals: map<nat, set<nat>>, foreign: set<nat>,
                   owner': Owners, renewals': map<nat, set<nat>>, foreign': set<nat>)
    requires o in db.orders && AssignedAfter(db, orders, owner, renewals, foreign)
    requires forall p :: p in orders ==> p in db.orders && Earlier(db, p, o)
    requires owner'.Keys == renewals'.Keys == db.clients.Keys
    requires forall c :: c in db.clients ==> owner'[c] == if Renews(db, o, c) then Some(o) else owner[c]
    requires forall c :: c in db.clients ==> renewals'[c] == renewals[c] + if Renews(db, o, c) then {o} else {}
    requires foreign' == if ForeignRenewal(db, o) then foreign + {o} else foreign
    ensures AssignedAfter(db, orders + [o], owner', renewals', foreign')
  {
    ForeignStep(db, orders, o);
    forall c | c in db.clients
      ensures OwnsAfter(db, orders + [o], c, owner'[c]) && renewals'[c] == RenewalsAmong(db, orders + [o], c)
    {
      OwnerStep(db, orders, o, c, owner[c]);
      RenewalsStep(db, orders, o, c);
    }
  }

  lemma AssignedByAll(db: Tables, sorted: seq<nat>, owner: Owners, renewals: map<nat, set<nat>>, foreign: set<nat>)
    requires forall o :: o in sorted <==> o in db.orders
    requires AssignedAfter(db, sorted[..|sorted|], owner, renewals, foreign)
    ensures OwnersOf(db, owner)
    ensures renewals.Keys == db.clients.Keys && forall c :: c in db.clients ==> renewals[c] == Renewals(db, c)
    ensures forall o :: o in foreign <==> o in db.orders && ForeignRenewal(db, o)
  {
    AllOrders(db, sorted);
    forall c | c in db.clients
      ensures Owns(db, c, owner[c])
    {
      assert RenewalsAmong(db, sorted, c) == Renewals(db, c);
    }
  }

  lemma AllOrders(db: Tables, sorted: seq<nat>)
    requires forall o :: o in sorted <==> o in db.orders
    ensures sorted[..|sorted|] == sorted
    ensures forall c :: RenewalsAmong(db, sorted, c) == Renewals(db, c)
  {
  }

  ghost function OwnAmong(db: Tables, owner: Owners, clients: set<nat>, o: nat): set<Source> {
    set c | c in clients && c in db.clients && c in owner && owner[c] == Some(o) :: SourceForClient(db.clients[c])
  }

  ghost function OrphansAmong(db: Tables, owner: Owners, clients: set<nat>): set<Source> {
    set c | c in clients && c in db.clients && c in owner && owner[c].None? :: SourceForClient(db.clients[c])
  }

  lemma AmongStep(db: Tables, owner: Owners, clients: set<nat>, c: nat)
    requires c in db.clients && c in owner
    ensures forall o: nat :: OwnAmong(db, owner, clients + {c}, o)
                        == OwnAmong(db, owner, clients, o) + if owner[c] == Some(o) then {SourceForClient(db.clients[c])} else {}
    ensures OrphansAmong(db, owner, clients + {c})
            == OrphansAmong(db, owner, clients) + if owner[c].None? then {SourceForClient(db.clients[c])} else {}
  {
  }

  /** Every purchase has the sources of those of the given clients that it owns. */
  ghost predicate OwnGiven(db: Tables, owner: Owners, clients: set<nat>, sources: map<nat, set<Source>>) {
    sources.Keys == db.orders.Keys && forall o :: o in db.orders ==> sources[o] == OwnAmong(db, owner, clients, o)
  }

  lemma OwnStep(db: Tables, owner: Owners, clients: set<nat>, c: nat, sources: map<nat, set<Source>>)
    requires c in db.clients && c in owner && OwnGiven(db, owner, clients, sources)
    ensures OwnGiven(db, owner, clients + {c}, WithDelivery(sources, owner[c], {SourceForClient(db.clients[c])}))
  {
    AmongStep(db, owner, clients, c);
  }

  lemma NoneGiven(db: Tables, owner: Owners, sources: map<nat, set<Source>>)
    requires sources.Keys == db.orders.Keys && forall o :: o in db.orders ==> sources[o] == {}
    ensures OwnGiven(db, owner, {}, sources)
  {
  }

  lemma AllGiven(db: Tables, owner: Owners, sources: map<nat, set<Source>>)
    requires OwnGiven(db, owner, db.clients.Keys, sources)
    ensures forall o :: o in db.orders ==> sources[o] == OwnSources(db, owner, o)
  {
  }

  /** Every client gives its source to its owner. */
  method CollectOwn(db: Tables, owner: Owners) returns (sources: map<nat, set<Source>>)
    requires OwnersOf(db, owner) && forall c :: c in owner && owner[c].Some? ==> owner[c].value in db.orders
    ensures sources.Keys == db.orders.Keys && forall o :: o in db.orders ==> sources[o] == OwnSources(db, owner, o)
  {
    sources := map o | o in db.orders :: {};
    var done: set<nat>, todo := {}, db.clients.Keys;
    NoneGiven(db, owner, sources);
    while todo != {}
      invariant done !! todo && done + todo == db.clients.Keys
      invariant OwnGiven(db, owner, done, sources)
    {
      var c :| c in todo;
      TakenFrom(db.clients.Keys, done, todo, c);
      OwnStep(db, owner, done, c, sources);
      if owner[c].Some? {
        sources := WithDelivery(sources, owner[c], {SourceForClient(db.clients[c])});
      }
      done, todo := done + {c}, todo - {c};
    }
    assert done == db.clients.Keys;
    AllGiven(db, owner, sources);
  }

  /** The sources of the clients without a purchase. */
  method CollectOrphans(db: Tables, owner: Owners) returns (orphans: seq<Source>)
    requires OwnersOf(db, owner)
    ensures forall s :: s in orphans <==> s in OrphansAmong(db, owner, db.clients.Keys)
  {
    orphans := [];
    var done: set<nat>, todo := {}, db.clients.Keys;
    while todo != {}
      invariant done !! todo && done + todo == db.clients.Keys
      invariant forall s :: s in orphans <==> s in OrphansAmong(db, owner, done)
    {
      var c :| c in todo;
      AmongStep(db, owner, done, c);
      if owner[c].None? {
        orphans := orphans + [SourceForClient(db.clients[c])];
      }
      done, todo := done + {c}, todo - {c};
    }
    assert done == db.clients.Keys;
  }

  ghost predicate LostAmong(db: Tables, owner: Owners, clients: set<nat>, o: nat)
    requires clients <= db.clients.Keys && clients <= owner.Keys
  {
    exists c :: c in clients && Lost(db, owner, c, o)
  }

  lemma LostStep(db: Tables, owner: Owners, clients: set<nat>, c: nat)
    requires clients <= db.clients.Keys && clients <= owner.Keys && c in db.clients && c in owner
    ensures forall o :: LostAmong(db, owner, clients + {c}, o) <==> LostAmong(db, owner, clients, o) || Lost(db, owner, c, o)
  {
  }

  /** The purchases that had a client and no longer own it. */
  method CollectTransferred(db: Tables, owner: Owners, renewals: map<nat, set<nat>>) returns (transferred: set<nat>)
    requires OwnersOf(db, owner) && renewals.Keys == db.clients.Keys
    requires forall c :: c in db.clients ==> renewals[c] == Renewals(db, c)
    requires forall c :: c in db.clients && db.clients[c].order.Some? ==> db.clients[c].order.value in db.orders
    ensures forall o :: o in transferred <==> o in db.orders && LostClient(db, owner, o)
  {
    transferred := {};
    var todo := db.clients.Keys;
    while todo != {}
      invariant todo <= db.clients.Keys
      invariant forall o :: o in transferred <==> LostAmong(db, owner, db.clients.Keys - todo, o)
    {
      var c :| c in todo;
      assert db.clients.Keys - (todo - {c}) == db.clients.Keys - todo + {c};
      LostStep(db, owner, db.clients.Keys - todo, c);
      var losers := LosersOf(db, owner, renewals[c], c);
      transferred := transferred + losers;
      todo := todo - {c};
    }
    assert db.clients.Keys - todo == db.clients.Keys;
  }

  method LosersOf(db: Tables, owner: Owners, renewals: set<nat>, c: nat) returns (losers: set<nat>)
    requires c in db.clients && c in owner && renewals == Renewals(db, c)
    ensures forall o :: o in losers <==> Lost(db, owner, c, o)
  {
    losers := set o | o in renewals && Some(o) != owner[c];
    if db.clients[c].order.Some? && owner[c] != db.clients[c].order {
      losers := losers + {db.clients[c].order.value};
    }
  }

  ghost function KeptEntries(db: Tables, owner: Owners, cup: Cup, entries: seq<(Source, Option<nat>)>): set<Source> {
    set e | e in entries && !MovedOn(db, owner, cup, e.1) :: e.0
  }

  /** The sources of one cup, leaving out the clients that have moved on. */
  method CollectCup(db: Tables, owner: Owners, renewals: map<nat, set<nat>>, cup: Cup) returns (sources: set<Source>)
    requires Referential(db) && cup in db.cups && OwnersOf(db, owner) && renewals.Keys == db.clients.Keys
    requires forall c :: c in db.clients ==> renewals[c] == Renewals(db, c)
    ensures sources == CupSources(db, owner, cup)
  {
    var entries := Entries(db, cup);
    sources := {};
    for i := 0 to |entries|
      invariant sources == KeptEntries(db, owner, cup, entries[..i])
    {
      Extend(entries, i);
      KeptStep(db, owner, cup, entries[..i], entries[i]);
      var moved := HasMovedOn(db, owner, renewals, cup, entries[i].1);
      if !moved {
        sources := sources + {entries[i].0};
      }
    }
    assert entries[..|entries|] == entries;
  }

  lemma KeptStep(db: Tables, owner: Owners, cup: Cup, entries: seq<(Source, Option<nat>)>, e: (Source, Option<nat>))
    ensures KeptEntries(db, owner, cup, entries + [e]) ==
            if MovedOn(db, owner, cup, e.1) then KeptEntries(db, owner, cup, entries) else KeptEntries(db, owner, cup, entries) + {e.0}
  {
  }

  method HasMovedOn(db: Tables, owner: Owners, renewals: map<nat, set<nat>>, cup: Cup, client: Option<nat>) returns (moved: bool)
    requires owner.Keys == renewals.Keys == db.clients.Keys
    requires forall c :: c in db.clients ==> renewals[c] == Renewals(db, c)
    ensures moved <==> MovedOn(db, owner, cup, client)
  {
    if cup.order.None? || client.None? || client.value !in db.clients {
      return false;
    }
    var c := client.value;
    moved := owner[c] != cup.order && owner[c] != db.clients[c].order
             && (db.clients[c].order == cup.order || cup.order.value in renewals[c]);
  }

  ghost function ForeignCups(db: Tables, cups: seq<Cup>): set<nat> {
    set cup, o | cup in cups && o in db.orders && ForeignCup(db, cup, o) :: o
  }

  function CupsOf(cups: seq<Cup>, o: nat): seq<Cup> {
    if cups == [] then []
    else CupsOf(cups[..|cups| - 1], o) + if cups[|cups| - 1].order == Some(o) then [cups[|cups| - 1]] else []
  }

  lemma DeliveredStep(db: Tables, owner: Owners, cups: seq<Cup>, cup: Cup, o: Option<nat>)
    requires Referential(db) && cup in db.cups && forall c :: c in cups ==> c in db.cups
    ensures Delivered(db, owner, cups + [cup], o) == Delivered(db, owner, cups, o) + if cup.order == o then CupSources(db, owner, cup) else {}
  {
    var more := cups + [cup];
    forall s | s in Delivered(db, owner, cups, o)
      ensures s in Delivered(db, owner, more, o)
    {
      var c :| c in cups && c.order == o && s in CupSources(db, owner, c);
      assert c in more;
    }
    if cup.order == o {
      assert cup in more;
    }
  }

  ghost predicate DeliveredBy(db: Tables, owner: Owners, cups: seq<Cup>, delivered: map<nat, set<Source>>, unowned: set<Source>)
    requires Referential(db) && forall cup :: cup in cups ==> cup in db.cups
  {
    && delivered.Keys == db.orders.Keys && unowned == Delivered(db, owner, cups, None)
    && forall o :: o in db.orders ==> delivered[o] == Delivered(db, owner, cups, Some(o))
  }

  function WithDelivery(delivered: map<nat, set<Source>>, order: Option<nat>, sources: set<Source>): map<nat, set<Source>> {
    if order.Some? && order.value in delivered then delivered[order.value := delivered[order.value] + sources] else delivered
  }

  lemma DeliverStep(db: Tables, owner: Owners, cups: seq<Cup>, cup: Cup, delivered: map<nat, set<Source>>, unowned: set<Source>)
    requires Referential(db) && cup in db.cups && forall c :: c in cups ==> c in db.cups
    requires DeliveredBy(db, owner, cups, delivered, unowned)
    ensures
      var sources := CupSources(db, owner, cup);
      DeliveredBy(db, owner, cups + [cup], WithDelivery(delivered, cup.order, sources), unowned + if cup.order.None? then sources else {})
  {
    DeliveredStep(db, owner, cups, cup, None);
    forall o | o in db.orders
      ensures WithDelivery(delivered, cup.order, CupSources(db, owner, cup))[o] == Delivered(db, owner, cups + [cup], Some(o))
    {
      DeliveredStep(db, owner, cups, cup, Some(o));
    }
  }

  /** The sources of one cup go to its purchase, or to none. */
  method Deliver(delivered: map<nat, set<Source>>, unowned: set<Source>, order: Option<nat>, sources: set<Source>)
    returns (delivered': map<nat, set<Source>>, unowned': set<Source>)
    requires order.Some? ==> order.value in delivered
    ensures delivered' == WithDelivery(delivered, order, sources) && delivered'.Keys == delivered.Keys
    ensures unowned' == unowned + if order.None? then sources else {}
  {
    delivered', unowned' := delivered, unowned;
    if order.Some? {
      delivered' := delivered[order.value := delivered[order.value] + sources];
    } else {
      unowned' := unowned + sources;
    }
  }

  lemma ForeignCupsStep(db: Tables, cups: seq<Cup>, cup: Cup)
    ensures ForeignCups(db, cups + [cup]) ==
            ForeignCups(db, cups) + if cup.order.Some? && cup.order.value in db.orders && ForeignCup(db, cup, cup.order.value) then {cup.order.value} else {}
  {
    var more := cups + [cup];
    assert cup in more;
    forall o | o in ForeignCups(db, cups)
      ensures o in ForeignCups(db, more)
    {
      var c :| c in cups && o in db.orders && ForeignCup(db, c, o);
      assert c in more;
    }
  }

  /** What the cups deliver to each purchase and to no purchase, and the purchases whose cups are another customer's. */
  method CollectCups(db: Tables, owner: Owners, renewals: map<nat, set<nat>>)
    returns (delivered: map<nat, set<Source>>, unowned: set<Source>, foreign: set<nat>)
    requires Referential(db) && OwnersOf(db, owner) && renewals.Keys == db.clients.Keys
    requires forall c :: c in db.clients ==> renewals[c] == Renewals(db, c)
    ensures delivered.Keys == db.orders.Keys && forall o :: o in db.orders ==> delivered[o] == Delivered(db, owner, db.cups, Some(o))
    ensures unowned == Delivered(db, owner, db.cups, None)
    ensures foreign == ForeignCups(db, db.cups)
  {
    delivered := map o | o in db.orders :: {};
    unowned, foreign := {}, {};
    for i := 0 to |db.cups|
      invariant DeliveredBy(db, owner, db.cups[..i], delivered, unowned)
      invariant foreign == ForeignCups(db, db.cups[..i])
    {
      var cup := db.cups[i];
      Extend(db.cups, i);
      var sources := CollectCup(db, owner, renewals, cup);
      DeliverStep(db, owner, db.cups[..i], cup, delivered, unowned);
      delivered, unowned := Deliver(delivered, unowned, cup.order, sources);
      ForeignCupsStep(db, db.cups[..i], cup);
      if cup.order.Some? && cup.customer.Some? && cup.customer != db.orders[cup.order.value].customer {
        foreign := foreign + {cup.order.value};
      }
    }
    assert db.cups[..|db.cups|] == db.cups;
  }

  ghost predicate Relevant(db: Tables, owner: Owners, o: nat)
    requires Referential(db) && o in db.orders
  {
    Sources(db, owner, o) != {} || CupsOf(db.cups, o) != [] || Evidence.Fulfilled(db.orders[o].status)
  }

  ghost predicate IsLoaded(db: Tables, owner: Owners, o: nat, m: Loaded)
    requires Referential(db) && o in db.orders
  {
    && m.sources == Sources(db, owner, o) && m.cups == CupsOf(db.cups, o)
    && (m.conflict <==> ForeignRenewal(db, o) || exists cup :: cup in db.cups && ForeignCup(db, cup, o))
    && (m.superseded <==> LostClient(db, owner, o) && Sources(db, owner, o) == {})
  }

  /** The relevant purchases, each with what it is given, and the sources that no purchase is given. */
  ghost predicate Loads(db: Tables, owner: Owners, loaded: map<nat, Loaded>, orphans: seq<Source>)
    requires Referential(db)
  {
    && (forall o :: o in loaded <==> o in db.orders && Relevant(db, owner, o))
    && (forall o :: o in loaded ==> IsLoaded(db, owner, o, loaded[o]))
    && forall s :: s in orphans <==> s in OrphansAmong(db, owner, db.clients.Keys) + Delivered(db, owner, db.cups, None)
  }

  /** The purchase maps and the sources that no purchase owns. */
  method LoadMaps(db: Tables) returns (loaded: map<nat, Loaded>, orphans: seq<Source>, owner: Owners)
    requires Referential(db)
    ensures OwnersOf(db, owner) && Loads(db, owner, loaded, orphans)
  {
    var owners, renewals, refused := AssignOwners(db);
    owner := owners;
    OwnersAreOrders(db, owners);
    var transferred := CollectTransferred(db, owners, renewals);
    var own := CollectOwn(db, owners);
    var unowned := CollectOrphans(db, owners);
    var delivered, loose, foreign := CollectCups(db, owners, renewals);
    orphans := AppendAll(unowned, loose);
    loaded := map o | o in db.orders && (own[o] + delivered[o] != {} || CupsOf(db.cups, o) != [] || Evidence.Fulfilled(db.orders[o].status)) ::
      Loaded(own[o] + delivered[o], CupsOf(db.cups, o), o in refused || o in foreign, o in transferred && own[o] + delivered[o] == {});
    forall o | o in db.orders
      ensures IsLoaded(db, owner, o, Loaded(own[o] + delivered[o], CupsOf(db.cups, o), o in refused || o in foreign,
                                            o in transferred && own[o] + delivered[o] == {}))
    {
      LoadedHolds(db, owner, o, own[o], delivered[o], refused, foreign, transferred);
    }
  }

  lemma LoadedHolds(db: Tables, owner: Owners, o: nat, own: set<Source>, delivered: set<Source>, refused: set<nat>, foreign: set<nat>, transferred: set<nat>)
    requires Referential(db) && o in db.orders
    requires own == OwnSources(db, owner, o) && delivered == Delivered(db, owner, db.cups, Some(o))
    requires (o in refused <==> ForeignRenewal(db, o)) && foreign == ForeignCups(db, db.cups)
    requires o in transferred <==> LostClient(db, owner, o)
    ensures IsLoaded(db, owner, o, Loaded(own + delivered, CupsOf(db.cups, o), o in refused || o in foreign, o in transferred && own + delivered == {}))
  {
  }

  method AppendAll(list: seq<Source>, sources: set<Source>) returns (all: seq<Source>)
    ensures forall s :: s in all <==> s in list || s in sources
  {
    all := list;
    var todo := sources;
    while todo != {}
      invariant todo <= sources
      invariant forall s :: s in all <==> s in list || (s in sources && s !in todo)
    {
      var s :| s in todo;
      all, todo := all + [s], todo - {s};
    }
  }

  lemma OwnersAreOrders(db: Tables, owner: Owners)
    requires Referential(db) && OwnersOf(db, owner)
    ensures forall c :: c in owner && owner[c].Some? ==> owner[c].value in db.orders
  {
    forall c | c in owner && owner[c].Some?
      ensures owner[c].value in db.orders
    {
      assert Owns(db, c, owner[c]);
    }
  }

  // ---------- What renewals guarantee ----------

  /** A client has exactly one owner: its own order, or the last of its qualifying renewals in order of payment. */
  lemma OneOwner(db: Tables, c: nat, a: Option<nat>, b: Option<nat>)
    requires c in db.clients && Owns(db, c, a) && Owns(db, c, b)
    ensures a == b
    ensures a == db.clients[c].order || (a.Some? && a.value in Renewals(db, c))
    ensures forall o :: o in Renewals(db, c) ==> a.Some? && a.value in db.orders && !Earlier(db, a.value, o)
  {
  }

  /** Some cup of the purchase, or of no purchase, holds the source. */
  ghost predicate Carries(db: Tables, o: Option<nat>, s: Source)
    requires Referential(db)
  {
    exists cup, e :: cup in db.cups && cup.order == o && e in Entries(db, cup) && e.0 == s
  }

  /** The source stands for the client alone: no other client has it, and whatever in a cup has it names the client. */
  ghost predicate StandsFor(db: Tables, s: Source, c: nat)
    requires Referential(db) && c in db.clients
  {
    && (forall other :: other in db.clients && other != c ==> SourceForClient(db.clients[other]) != s)
    && (forall cup, e :: cup in db.cups && e in Entries(db, cup) && e.0 == s ==> e.1 == Some(c))
  }

  /** The client has moved on from the purchase: it belonged there, and is now owned by neither it nor its own order. */
  ghost predicate MovedFrom(db: Tables, owner: Owners, c: nat, o: nat)
    requires c in db.clients && c in owner
  {
    InChain(db, c, o) && owner[c] != Some(o) && owner[c] != db.clients[c].order
  }

  /** A client's own source goes to its owner; any source that stands for it, to a purchase that carries it and that it has not moved on from. */
  ghost predicate Holds(db: Tables, owner: Owners, s: Source, c: nat, o: nat)
    requires Referential(db) && c in db.clients && c in owner
  {
    (s == SourceForClient(db.clients[c]) && owner[c] == Some(o)) || (Carries(db, Some(o), s) && !MovedFrom(db, owner, c, o))
  }

  /** The purchases that are given a source that stands for a client are those that hold it, and no others. */
  lemma SourceLands(db: Tables, owner: Owners, s: Source, c: nat, o: nat)
    requires Referential(db) && OwnersOf(db, owner) && c in db.clients && StandsFor(db, s, c)
    ensures s in Sources(db, owner, o) <==> Holds(db, owner, s, c, o)
  {
    OwnedByClient(db, owner, s, c, o);
    CarriedIsDelivered(db, owner, s, c, Some(o));
  }

  lemma OwnedByClient(db: Tables, owner: Owners, s: Source, c: nat, o: nat)
    requires Referential(db) && OwnersOf(db, owner) && c in db.clients && StandsFor(db, s, c)
    ensures s in OwnSources(db, owner, o) <==> s == SourceForClient(db.clients[c]) && owner[c] == Some(o)
  {
  }

  /** Cups deliver a source that stands for a client unless the client has moved on from their purchase. */
  lemma CarriedIsDelivered(db: Tables, owner: Owners, s: Source, c: nat, o: Option<nat>)
    requires Referential(db) && OwnersOf(db, owner) && c in db.clients && StandsFor(db, s, c)
    ensures s in Delivered(db, owner, db.cups, o) <==> Carries(db, o, s) && (o.None? || !MovedFrom(db, owner, c, o.value))
  {
    if Carries(db, o, s) {
      var cup, e :| cup in db.cups && cup.order == o && e in Entries(db, cup) && e.0 == s;
      assert MovedOn(db, owner, cup, e.1) <==> o.Some? && MovedFrom(db, owner, c, o.value);
      if !MovedOn(db, owner, cup, e.1) {
        assert s in CupSources(db, owner, cup);
      }
    }
    if s in Delivered(db, owner, db.cups, o) {
      var cup :| cup in db.cups && cup.order == o && s in CupSources(db, owner, cup);
      var e :| e in Entries(db, cup) && !MovedOn(db, owner, cup, e.1) && e.0 == s;
      assert e.1 == Some(c);
    }
  }

  /** A client's own source without an owner, or a source in a cup of no purchase, is an orphan, and otherwise it is not. */
  lemma SourceIsOrphanExactly(db: Tables, owner: Owners, s: Source, c: nat)
    requires Referential(db) && OwnersOf(db, owner) && c in db.clients && StandsFor(db, s, c)
    ensures s in OrphansAmong(db, owner, db.clients.Keys) + Delivered(db, owner, db.cups, None)
            <==> (s == SourceForClient(db.clients[c]) && owner[c].None?) || Carries(db, None, s)
  {
    CarriedIsDelivered(db, owner, s, c, None);
    assert s in OrphansAmong(db, owner, db.clients.Keys) <==> s == SourceForClient(db.clients[c]) && owner[c].None?;
  }

  /** A source that stands for a client lands in its owner alone exactly when the client has moved on from all others that carry it. */
  lemma LandsOnceExactly(db: Tables, owner: Owners, s: Source, c: nat)
    requires Referential(db) && OwnersOf(db, owner) && c in db.clients && StandsFor(db, s, c)
    ensures (forall o: nat :: s in Sources(db, owner, o) ==> owner[c] == Some(o))
            <==> forall o: nat :: Carries(db, Some(o), s) && owner[c] != Some(o) ==> MovedFrom(db, owner, c, o)
    ensures s == SourceForClient(db.clients[c]) && owner[c].Some? ==> s in Sources(db, owner, owner[c].value)
  {
    forall o: nat
      ensures s in Sources(db, owner, o) <==> Holds(db, owner, s, c, o)
    {
      SourceLands(db, owner, s, c, o);
    }
  }

  /**
   * A purchase that lost the client and carries a source that stands for it, be it the client's own or that of a link to it,
   * is given the source back exactly when the client's owner is its own order again.
   */
  lemma CupsDoNotBringBackExactly(db: Tables, owner: Owners, s: Source, c: nat, o: nat)
    requires Referential(db) && OwnersOf(db, owner) && c in db.clients && StandsFor(db, s, c)
    requires InChain(db, c, o) && owner[c] != Some(o) && Carries(db, Some(o), s)
    ensures s in Sources(db, owner, o) <==> owner[c] == db.clients[c].order
  {
    SourceLands(db, owner, s, c, o);
  }

  /** The loaded maps and orphans hold a source that stands for a client in exactly the places that the tables say. */
  lemma LoadedSourceLands(db: Tables, owner: Owners, loaded: map<nat, Loaded>, orphans: seq<Source>, s: Source, c: nat)
    requires Referential(db) && OwnersOf(db, owner) && Loads(db, owner, loaded, orphans)
    requires c in db.clients && StandsFor(db, s, c)
    ensures forall o :: o in db.orders ==> (o in loaded && s in loaded[o].sources <==> Holds(db, owner, s, c, o))
    ensures s in orphans <==> (s == SourceForClient(db.clients[c]) && owner[c].None?) || Carries(db, None, s)
  {
    forall o | o in db.orders
      ensures o in loaded && s in loaded[o].sources <==> Holds(db, owner, s, c, o)
    {
      SourceLands(db, owner, s, c, o);
      if s in Sources(db, owner, o) {
        assert Relevant(db, owner, o);
      }
    }
    SourceIsOrphanExactly(db, owner, s, c);
  }

  /** A purchase that lost the client is superseded exactly when it is given nothing but the client's source, and not even that by a cup. */
  lemma SupersededExactly(db: Tables, owner: Owners, loaded: map<nat, Loaded>, orphans: seq<Source>, c: nat, o: nat)
    requires Referential(db) && OwnersOf(db, owner) && Loads(db, owner, loaded, orphans)
    requires c in db.clients && StandsFor(db, SourceForClient(db.clients[c]), c)
    requires InChain(db, c, o) && owner[c] != Some(o) && o in loaded
    ensures loaded[o].superseded <==>
              && loaded[o].sources <= {SourceForClient(db.clients[c])}
              && !(Carries(db, Some(o), SourceForClient(db.clients[c])) && owner[c] == db.clients[c].order)
  {
    assert LostClient(db, owner, o);
    SourceLands(db, owner, SourceForClient(db.clients[c]), c, o);
  }

  const RENEWAL: Order := Order(Some(1), 1, 0, None, Evidence.Completed, true, Some(7))
  const RENEWED: Client := Client(Some(1), 1, None, "", "uuid", "", "", "", "")

  // Order 2 renews the client of order 1 at time 5, order 1 renews it again at time 9, and a cup of order 2 still holds it.
  const RENEWED_TWICE: Tables :=
    Tables(map[1 := RENEWAL.(verifiedAt := Some(9)), 2 := RENEWAL.(verifiedAt := Some(5))], map[7 := RENEWED], [Cup(Some(2), Some(1), Some(7), [])])

  /** The exception: an order that renews its own client after another renewal; both purchases are given the client's source. */
  lemma OwnRenewalBringsBack()
    ensures Referential(RENEWED_TWICE) && OwnersOf(RENEWED_TWICE, map[7 := Some(1)])
    ensures SourceForClient(RENEWED) in Sources(RENEWED_TWICE, map[7 := Some(1)], 1)
    ensures SourceForClient(RENEWED) in Sources(RENEWED_TWICE, map[7 := Some(1)], 2)
  {
    var db, owner := RENEWED_TWICE, map[7 := Some(1)];
    assert Renews(db, 1, 7) && Renews(db, 2, 7);
    assert Renewals(db, 7) == {1, 2};
    var cup := db.cups[0];
    var e := (SourceForClient(RENEWED), Some(7));
    assert Entries(db, cup)[0] == e;
    assert e in Entries(db, cup) && !MovedOn(db, owner, cup, e.1);
    assert SourceForClient(RENEWED) in CupSources(db, owner, cup);
    assert cup in db.cups;
    assert SourceForClient(RENEWED) in OwnSources(db, owner, 1);
  }
}
