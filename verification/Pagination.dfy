/** The all-or-nothing reader of a paginated user list (read_pasarguard in customer_activity/panels.py). */
module Pagination {
  import opened Prelude

  const PAGE_LIMIT: nat := 50

  // A listed user, or an entry without a usable name. "account" stands for everything else that a row is made of.
  datatype User = Malformed | User(name: string, account: nat)

  // An answer of the panel: an error, or a payload whose list or total may be unusable.
  datatype Response = Unreachable | Payload(users: Option<seq<User>>, total: Option<int>)

  // What the panel answers for each page and offset.
  type Server = (nat, nat) -> Response

  datatype Status = Ok | Partial | PanelUnreachable

  datatype Progress = Going(rows: seq<User>) | Done(rows: seq<User>) | Broken(rows: seq<User>)

  // ---------- One page ----------

  predicate Listed(rows: seq<User>, name: string) {
    exists i :: 0 <= i < |rows| && rows[i].User? && rows[i].name == name
  }

  /** The rows after a page, up to the first entry that is malformed or repeated. */
  function Absorb(rows: seq<User>, users: seq<User>): Progress
    decreases |users|
  {
    if users == [] then Going(rows)
    else if users[0].Malformed? || Listed(rows, users[0].name) then Broken(rows)
    else Absorb(rows + [users[0]], users[1..])
  }

  predicate Usable(r: Response) {
    r.Payload? && r.users.Some? && r.total.Some? && r.total.value >= 0
  }

  /** The reported total, where there is one. */
  function Total(r: Response): int {
    if r.Payload? && r.total.Some? && r.total.value >= 0 then r.total.value else -1
  }

  function Page(rows: seq<User>, r: Response): Progress {
    if !Usable(r) then Broken(rows)
    else
      var p := Absorb(rows, r.users.value);
      if p.Broken? then p
      else if |p.rows| >= r.total.value then Done(p.rows)
      else if r.users.value == [] then Broken(p.rows)
      else p
  }

  /** The state after the given number of pages. */
  function Turn(server: Server, n: nat): Progress {
    if n == 0 then Going([])
    else
      var p := Turn(server, n - 1);
      if p.Going? then Page(p.rows, server(n - 1, |p.rows|)) else p
  }

  function Result(p: Progress): (seq<User>, Status) {
    if p.Done? then (p.rows, Ok) else if p.Broken? && p.rows == [] then ([], PanelUnreachable) else ([], Partial)
  }

  lemma {:induction false} TurnStays(server: Server, n: nat, m: nat)
    requires n <= m && !Turn(server, n).Going?
    ensures Turn(server, m) == Turn(server, n)
    decreases m
  {
    if n < m {
      TurnStays(server, n, m - 1);
    }
  }

  // ---------- The loop ----------

  ghost predicate Named(rows: seq<User>, seen: set<string>) {
    && (forall i :: 0 <= i < |rows| ==> rows[i].User? && rows[i].name in seen)
    && (forall name :: name in seen ==> Listed(rows, name))
    && |seen| == |rows|
  }

  lemma NamedStep(rows: seq<User>, seen: set<string>, u: User)
    requires Named(rows, seen) && u.User? && u.name !in seen
    ensures Named(rows + [u], seen + {u.name}) && !Listed(rows, u.name)
  {
    var rows', seen' := rows + [u], seen + {u.name};
    assert rows'[|rows|] == u;
    forall name | name in seen'
      ensures Listed(rows', name)
    {
      if name != u.name {
        var j :| 0 <= j < |rows| && rows[j].User? && rows[j].name == name;
        assert rows'[j] == rows[j];
      }
    }
  }

  method ReadPage(rows: seq<User>, seen: set<string>, users: seq<User>) returns (rows': seq<User>, seen': set<string>, broken: bool)
    requires Named(rows, seen)
    ensures Named(rows', seen')
    ensures Absorb(rows, users) == if broken then Broken(rows') else Going(rows')
    ensures !broken ==> rows' == rows + users
  {
    rows', seen', broken := rows, seen, false;
    for i := 0 to |users|
      invariant Named(rows', seen') && rows' == rows + users[..i]
      invariant Absorb(rows, users) == Absorb(rows', users[i..])
    {
      if users[i].Malformed? || users[i].name in seen' {
        return rows', seen', true;
      }
      assert users[i..][1..] == users[i + 1..];
      NamedStep(rows', seen', users[i]);
      rows', seen' := rows' + [users[i]], seen' + {users[i].name};
    }
    assert users[..|users|] == users;
  }

  /** Bounded pagination; the offset is always the number of rows and of names seen. */
  method ReadUsers(server: Server) returns (rows: seq<User>, status: Status)
    ensures (rows, status) == Result(Turn(server, PAGE_LIMIT))
  {
    rows := [];
    var seen: set<string>, offset := {}, 0;
    for page := 0 to PAGE_LIMIT
      invariant Named(rows, seen) && offset == |seen| == |rows|
      invariant Turn(server, page) == Going(rows)
    {
      var response := server(page, offset);
      if !Usable(response) {
        TurnStays(server, page + 1, PAGE_LIMIT);
        return [], if rows != [] then Partial else PanelUnreachable;
      }
      var users := response.users.value;
      var broken;
      rows, seen, broken := ReadPage(rows, seen, users);
      if broken {
        TurnStays(server, page + 1, PAGE_LIMIT);
        return [], if rows != [] then Partial else PanelUnreachable;
      }
      if |seen| >= response.total.value {
        TurnStays(server, page + 1, PAGE_LIMIT);
        return rows, Ok;
      }
      if users == [] {
        TurnStays(server, page + 1, PAGE_LIMIT);
        return [], if rows != [] then Partial else PanelUnreachable;
      }
      offset := offset + |users|;
    }
    return [], Partial;
  }

  // ---------- What an answer means ----------

  predicate WellNamed(rows: seq<User>) {
    && (forall i :: 0 <= i < |rows| ==> rows[i].User?)
    && (forall i, j :: 0 <= i < j < |rows| ==> rows[i].name != rows[j].name)
  }

  /** The page at cut i of the list: a usable answer that lists exactly the stretch to the next cut. */
  ghost predicate Slice(server: Server, rows: seq<User>, cuts: seq<nat>, i: nat)
    requires i + 1 < |cuts|
  {
    && cuts[i] <= cuts[i + 1] <= |rows| && Total(server(i, cuts[i])) >= 0
    && server(i, cuts[i]).users == Some(rows[cuts[i]..cuts[i + 1]])
  }

  /** The pages before the last are not empty and do not yet reach the total that they report; the last one does. */
  ghost predicate Tiles(server: Server, rows: seq<User>, cuts: seq<nat>) {
    && 2 <= |cuts| <= 51 && cuts[0] == 0 && cuts[|cuts| - 1] == |rows| && WellNamed(rows)
    && (forall i: nat :: i + 1 < |cuts| ==> Slice(server, rows, cuts, i))
    && (forall i: nat :: i + 2 < |cuts| ==> cuts[i] < cuts[i + 1] < Total(server(i, cuts[i])))
    && |rows| >= Total(server(|cuts| - 2, cuts[|cuts| - 2]))
  }

  lemma {:induction false} AbsorbAll(rows: seq<User>, users: seq<User>)
    requires WellNamed(rows)
    ensures Absorb(rows, users).Going? <==> WellNamed(rows + users)
    ensures Absorb(rows, users).Going? ==> Absorb(rows, users).rows == rows + users
    ensures !Absorb(rows, users).Done?
    decreases |users|
  {
    if users == [] {
      assert rows + users == rows;
    } else {
      var u, all := users[0], rows + users;
      assert rows + [u] + users[1..] == all;
      assert all[|rows|] == u;
      if u.User? && !Listed(rows, u.name) {
        AbsorbAll(rows + [u], users[1..]);
      } else if u.User? {
        var i :| 0 <= i < |rows| && rows[i].User? && rows[i].name == u.name;
        assert all[i] == rows[i];
      }
    }
  }

  /** As long as the reading goes on, the pages so far are consecutive slices of the rows so far. */
  lemma {:induction false} GoingTiles(server: Server, n: nat) returns (cuts: seq<nat>)
    requires Turn(server, n).Going?
    ensures
      var rows := Turn(server, n).rows;
      && |cuts| == n + 1 && cuts[0] == 0 && cuts[n] == |rows| && WellNamed(rows)
      && (forall i: nat :: i < n ==> Slice(server, rows, cuts, i) && cuts[i] < cuts[i + 1] < Total(server(i, cuts[i])))
  {
    if n == 0 {
      cuts := [0];
    } else {
      var before := GoingTiles(server, n - 1);
      cuts := LastSlice(server, n, before);
    }
  }

  lemma LastSlice(server: Server, n: nat, before: seq<nat>) returns (cuts: seq<nat>)
    requires n > 0 && Turn(server, n - 1).Going? && !Turn(server, n).Broken?
    requires
      var rows := Turn(server, n - 1).rows;
      && |before| == n && before[0] == 0 && before[n - 1] == |rows| && WellNamed(rows)
      && (forall i: nat :: i < n - 1 ==> Slice(server, rows, before, i) && before[i] < before[i + 1] < Total(server(i, before[i])))
    ensures
      var rows := Turn(server, n).rows;
      && |cuts| == n + 1 && cuts[0] == 0 && cuts[n] == |rows| && WellNamed(rows)
      && (forall i: nat :: i < n ==> Slice(server, rows, cuts, i))
      && (forall i: nat :: i < n - 1 ==> cuts[i] < cuts[i + 1] < Total(server(i, cuts[i])))
      && (if Turn(server, n).Done? then |rows| >= Total(server(n - 1, cuts[n - 1]))
          else cuts[n - 1] < cuts[n] < Total(server(n - 1, cuts[n - 1])))
  {
    var held := Turn(server, n - 1).rows;
    var response := server(n - 1, |held|);
    var rows := Turn(server, n).rows;
    AbsorbAll(held, response.users.value);
    assert rows == held + response.users.value;
    cuts := before + [|rows|];
    forall i: nat | i < n
      ensures Slice(server, rows, cuts, i)
    {
      if i < n - 1 {
        assert Slice(server, held, before, i);
        assert rows[cuts[i]..cuts[i + 1]] == held[before[i]..before[i + 1]];
      } else {
        assert response == server(i, cuts[i]) && Usable(response);
        assert rows[cuts[i]..cuts[i + 1]] == response.users.value;
      }
    }
  }

  /** Tiling pages lead the reading from cut to cut. */
  lemma {:induction false} TilesGo(server: Server, rows: seq<User>, cuts: seq<nat>, n: nat)
    requires Tiles(server, rows, cuts) && n + 1 < |cuts|
    ensures cuts[n] <= |rows| && Turn(server, n) == Going(rows[..cuts[n]])
  {
    if n > 0 {
      TilesGo(server, rows, cuts, n - 1);
      TilesStep(server, rows, cuts, n - 1);
    }
  }

  lemma TilesStep(server: Server, rows: seq<User>, cuts: seq<nat>, i: nat)
    requires Tiles(server, rows, cuts) && i + 1 < |cuts| && cuts[i] <= |rows| && Turn(server, i) == Going(rows[..cuts[i]])
    ensures cuts[i + 1] <= |rows|
    ensures Turn(server, i + 1) == if i + 2 < |cuts| then Going(rows[..cuts[i + 1]]) else Done(rows)
  {
    assert Slice(server, rows, cuts, i);
    var users := rows[cuts[i]..cuts[i + 1]];
    assert rows[..cuts[i]] + users == rows[..cuts[i + 1]];
    AbsorbAll(rows[..cuts[i]], users);
    assert rows[..|rows|] == rows;
  }

  /** Rows are returned exactly when at most fifty consecutive, distinct and well-formed slices make them up to the reported total. */
  lemma ReturnsRowsExactly(server: Server, rows: seq<User>)
    ensures Result(Turn(server, PAGE_LIMIT)) == (rows, Ok) <==> exists cuts :: Tiles(server, rows, cuts)
  {
    if Turn(server, PAGE_LIMIT).Done? && Turn(server, PAGE_LIMIT).rows == rows {
      var n := FirstDone(server, PAGE_LIMIT);
      var before := GoingTiles(server, n - 1);
      var cuts := LastSlice(server, n, before);
      assert Tiles(server, rows, cuts);
    }
    if cuts :| Tiles(server, rows, cuts) {
      TilesGo(server, rows, cuts, |cuts| - 2);
      TilesStep(server, rows, cuts, |cuts| - 2);
      TurnStays(server, |cuts| - 1, PAGE_LIMIT);
    }
  }

  lemma {:induction false} FirstDone(server: Server, m: nat) returns (n: nat)
    requires Turn(server, m).Done?
    ensures 0 < n <= m && Turn(server, n - 1).Going? && Turn(server, n) == Turn(server, m)
  {
    n := m;
    if !Turn(server, m - 1).Going? {
      n := FirstDone(server, m - 1);
    }
  }

  /** Anything but "ok" comes without rows. */
  lemma AllOrNothing(server: Server)
    ensures
      var (rows, status) := Result(Turn(server, PAGE_LIMIT));
      && (status != Ok ==> rows == []) && (status == Ok ==> WellNamed(rows))
  {
    if Turn(server, PAGE_LIMIT).Done? {
      ReturnsRowsExactly(server, Turn(server, PAGE_LIMIT).rows);
    }
  }

  /** The first answer is unusable, begins with a malformed entry, or is empty although users are reported. */
  predicate FailsAtOnce(r: Response) {
    || !r.Payload? || r.users.None? || r.total.None? || r.total.value < 0
    || (r.users.value != [] && r.users.value[0].Malformed?) || (r.users.value == [] && r.total.value > 0)
  }

  lemma {:induction false} AbsorbKeeps(rows: seq<User>, users: seq<User>)
    ensures rows <= Absorb(rows, users).rows
    ensures users != [] && users[0].User? && rows == [] ==> Absorb(rows, users).rows != []
    decreases |users|
  {
    if users != [] && users[0].User? && !Listed(rows, users[0].name) {
      AbsorbKeeps(rows + [users[0]], users[1..]);
    }
  }

  lemma {:induction false} RowsStay(server: Server, n: nat)
    requires n > 0 && Turn(server, 1).rows != []
    ensures Turn(server, n).rows != []
    decreases n
  {
    if n > 1 {
      RowsStay(server, n - 1);
      var p := Turn(server, n - 1);
      if p.Going? && Usable(server(n - 1, |p.rows|)) {
        AbsorbKeeps(p.rows, server(n - 1, |p.rows|).users.value);
      }
    }
  }

  lemma FirstPage(server: Server)
    ensures Turn(server, 0) == Going([]) && Turn(server, 1) == Page([], server(0, 0))
    ensures Turn(server, 1) == Broken([]) <==> FailsAtOnce(server(0, 0))
    ensures Turn(server, 1).rows == [] ==> !Turn(server, 1).Going?
  {
    var r := server(0, 0);
    if Usable(r) {
      AbsorbKeeps([], r.users.value);
    }
  }

  /** The panel counts as unreachable exactly when its first answer fails before any user. */
  lemma UnreachableExactly(server: Server)
    ensures Result(Turn(server, PAGE_LIMIT)).1 == PanelUnreachable <==> FailsAtOnce(server(0, 0))
  {
    FirstPage(server);
    if Turn(server, 1).rows == [] {
      TurnStays(server, 1, PAGE_LIMIT);
    } else {
      RowsStay(server, PAGE_LIMIT);
    }
  }

  // ---------- A list that does not change ----------

  /** The panel answers every offset with a stretch of the list, of any positive length it likes, and with the true total. */
  ghost predicate Stable(server: Server, list: seq<User>) {
    forall page: nat, offset: nat :: offset <= |list| ==>
      && server(page, offset).Payload? && server(page, offset).users.Some? && Total(server(page, offset)) == |list|
      && (offset < |list| ==> server(page, offset).users.value != [])
      && server(page, offset).users.value <= list[offset..]
  }

  /** The offset after the given number of pages. */
  ghost function Reached(server: Server, list: seq<User>, n: nat): (offset: nat)
    requires Stable(server, list)
    ensures offset <= |list|
  {
    if n == 0 then 0
    else
      var offset := Reached(server, list, n - 1);
      assert |server(n - 1, offset).users.value| <= |list[offset..]|;
      offset + |server(n - 1, offset).users.value|
  }

  lemma StableStep(server: Server, list: seq<User>, n: nat, offset: nat)
    requires Stable(server, list) && WellNamed(list) && offset <= |list| && (offset < |list| || offset == 0)
    ensures
      var next := offset + |server(n, offset).users.value|;
      next <= |list| && Page(list[..offset], server(n, offset)) == if next < |list| then Going(list[..next]) else Done(list)
  {
    var users := server(n, offset).users.value;
    assert users == list[offset..][..|users|];
    assert list[..offset] + users == list[..offset + |users|];
    AbsorbAll(list[..offset], users);
    assert list[..|list|] == list;
  }

  lemma {:induction false} StableTurn(server: Server, list: seq<User>, n: nat)
    requires Stable(server, list) && WellNamed(list) && n > 0
    ensures Turn(server, n) == if Reached(server, list, n) < |list| then Going(list[..Reached(server, list, n)]) else Done(list)
  {
    var offset := Reached(server, list, n - 1);
    if n > 1 {
      StableTurn(server, list, n - 1);
    }
    if offset < |list| || n == 1 {
      assert list[..0] == [];
      StableStep(server, list, n - 1, offset);
    } else {
      assert server(n - 1, offset).users.value <= list[offset..];
    }
  }

  /** A stable list is returned whole and in order exactly when fifty pages reach its end; otherwise nothing is returned. */
  lemma StableListExactly(server: Server, list: seq<User>)
    requires Stable(server, list) && WellNamed(list)
    ensures Result(Turn(server, PAGE_LIMIT)) == if Reached(server, list, PAGE_LIMIT) == |list| then (list, Ok) else ([], Partial)
  {
    StableTurn(server, list, PAGE_LIMIT);
  }

  /** Any list of at most fifty users is read whole, and so is one of any length when every page is full. */
  lemma {:induction false} ReachedAtLeast(server: Server, list: seq<User>, n: nat, size: nat)
    requires Stable(server, list) && size > 0
    requires forall page: nat, offset: nat :: offset < |list| ==>
               |server(page, offset).users.value| >= if size <= |list| - offset then size else |list| - offset
    ensures Reached(server, list, n) >= if n * size <= |list| then n * size else |list|
  {
    if n > 0 {
      ReachedAtLeast(server, list, n - 1, size);
      assert n * size == (n - 1) * size + size;
    }
  }
}
