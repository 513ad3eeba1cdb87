/**
 The connections of one circle (internal/realtime/pool.go): an id map and per-user lists that must
 agree, two limits and two counters. Each locked method is one step.
 */
module Pools {
  import opened Connections

  datatype AddResult = Added | MaxConnectionsReached | UserMaxConnectionsReached | ServiceNotEnabled

  type ById = map<string, Connection>
  type ByUser = map<int, seq<Connection>>

  function ListOf(users: ByUser, u: int): seq<Connection> {
    if u in users then users[u] else []
  }

  /** A user's list: that user's connections, all in the id map, none twice. */
  ghost predicate Listed(conns: ById, u: int, list: seq<Connection>) {
    && (forall i :: 0 <= i < |list| ==> list[i].UserID == u && list[i].ID in conns && conns[list[i].ID] == list[i])
    && (forall i, j :: 0 <= i < j < |list| ==> list[i] != list[j])
  }

  ghost predicate Indexed(users: ByUser, id: string, c: Connection) {
    c.ID == id && c.UserID in users && c in users[c.UserID]
  }

  /** The two indices hold exactly the same connections, each once under its own user, and no user
      list is empty. */
  ghost predicate Agree(conns: ById, users: ByUser) {
    && (forall id {:trigger Indexed(users, id, conns[id])} :: id in conns ==> Indexed(users, id, conns[id]))
    && (forall u {:trigger Listed(conns, u, users[u])} :: u in users ==> users[u] != [] && Listed(conns, u, users[u]))
  }

  lemma AddAgrees(conns: ById, users: ByUser, c: Connection)
    requires Agree(conns, users) && c.ID !in conns
    ensures Agree(conns[c.ID := c], users[c.UserID := ListOf(users, c.UserID) + [c]])
  {
    var list := ListOf(users, c.UserID) + [c];
    var conns', users' := conns[c.ID := c], users[c.UserID := list];
    assert list[|list| - 1] == c;
    forall id | id in conns' ensures Indexed(users', id, conns'[id]) {
      if id != c.ID { assert Indexed(users, id, conns[id]); }
    }
    forall u | u in users' ensures users'[u] != [] && Listed(conns', u, users'[u]) {
      if u in users { assert Listed(conns, u, users[u]); }
    }
  }

  /** `i` is where the connection is in its user's list, or the list's length if it is not there. */
  function Removed(users: ByUser, u: int, i: nat): ByUser
    requires i <= |ListOf(users, u)|
  {
    var list := ListOf(users, u);
    if i == |list| then users
    else if |list| == 1 then users - {u}
    else users[u := list[i := list[|list| - 1]][..|list| - 1]]
  }

  /** What the search for a connection by id in its user's list finds. */
  ghost predicate SearchResult(conns: ById, users: ByUser, c: Connection, i: nat) {
    var list := ListOf(users, c.UserID);
    && i <= |list|
    && (i < |list| ==> list[i] == c && c.ID in conns)
    && (i == |list| ==> c.ID !in conns)
  }

  lemma Search(conns: ById, users: ByUser, c: Connection, i: nat)
    requires Agree(conns, users) && (c.ID in conns ==> conns[c.ID] == c)
    requires var list := ListOf(users, c.UserID);
             && i <= |list| && (i < |list| ==> list[i].ID == c.ID)
             && (i == |list| ==> forall j :: 0 <= j < i ==> list[j].ID != c.ID)
    ensures SearchResult(conns, users, c, i)
  {
    var list := ListOf(users, c.UserID);
    assert c.UserID in users ==> Listed(conns, c.UserID, list);
    assert c.ID in conns ==> Indexed(users, c.ID, c);
  }

  lemma RemoveKeepsIds(conns: ById, users: ByUser, c: Connection, i: nat, id: string)
    requires Agree(conns, users) && SearchResult(conns, users, c, i)
    requires id in conns && id != c.ID
    ensures Indexed(Removed(users, c.UserID, i), id, conns[id])
  {
    var d, list := conns[id], ListOf(users, c.UserID);
    assert Indexed(users, id, d);
    if d.UserID == c.UserID && i < |list| {
      var k :| 0 <= k < |list| && list[k] == d;
      var after := Removed(users, c.UserID, i);
      if k == |list| - 1 {
        assert after[c.UserID][i] == d;
      } else {
        assert after[c.UserID][k] == d;
      }
    }
  }

  lemma RemoveKeepsLists(conns: ById, users: ByUser, c: Connection, i: nat, u: int)
    requires Agree(conns, users) && SearchResult(conns, users, c, i)
    requires u in Removed(users, c.UserID, i)
    ensures var list := Removed(users, c.UserID, i)[u]; list != [] && Listed(conns - {c.ID}, u, list)
  {
    assert Listed(conns, u, users[u]);
    if i < |ListOf(users, c.UserID)| {
      assert Listed(conns, c.UserID, users[c.UserID]);
    }
  }

  lemma RemoveAgrees(conns: ById, users: ByUser, c: Connection, i: nat)
    requires Agree(conns, users) && SearchResult(conns, users, c, i)
    ensures Agree(conns - {c.ID}, Removed(users, c.UserID, i))
  {
    var conns', users' := conns - {c.ID}, Removed(users, c.UserID, i);
    forall id | id in conns' ensures Indexed(users', id, conns'[id]) {
      RemoveKeepsIds(conns, users, c, i, id);
    }
    forall u | u in users' ensures users'[u] != [] && Listed(conns', u, users'[u]) {
      RemoveKeepsLists(conns, users, c, i, u);
    }
  }

  lemma AddedValues(conns: ById, c: Connection)
    requires c.ID !in conns
    ensures conns[c.ID := c].Values == conns.Values + {c}
  {
    var after := conns[c.ID := c];
    assert after[c.ID] == c;
    forall d | d in conns.Values ensures d in after.Values {
      var id :| id in conns && conns[id] == d;
      assert after[id] == d;
    }
  }

  lemma RemovedMembers(conns: ById, users: ByUser, c: Connection)
    requires Agree(conns, users) && (c.ID in conns ==> conns[c.ID] == c)
    ensures forall d :: d in (conns - {c.ID}).Values <==> d in conns.Values && d != c
  {
    var after := conns - {c.ID};
    IdsMatch(conns, users);
    forall d | d in conns.Values && d != c ensures d in after.Values {
      var id :| id in conns && conns[id] == d;
      assert after[id] == d;
    }
  }

  lemma IdsMatch(conns: ById, users: ByUser)
    requires Agree(conns, users)
    ensures forall id :: id in conns ==> conns[id].ID == id
  {
    forall id | id in conns ensures conns[id].ID == id { assert Indexed(users, id, conns[id]); }
  }

  lemma MemberById(conns: ById, users: ByUser, c: Connection)
    requires Agree(conns, users) && c in conns.Values
    ensures c.ID in conns && conns[c.ID] == c
  {
    var id :| id in conns && conns[id] == c;
    assert Indexed(users, id, conns[id]);
  }

  /** What agreement means for one user: the list holds that user's connections and no others. */
  lemma ListIsUsersConnections(conns: ById, users: ByUser, u: int, c: Connection)
    requires Agree(conns, users)
    ensures c in ListOf(users, u) <==> c.UserID == u && c.ID in conns && conns[c.ID] == c
    ensures |multiset(ListOf(users, u))| == |ListOf(users, u)| && multiset(ListOf(users, u))[c] <= 1
  {
    assert u in users ==> Listed(conns, u, users[u]);
    assert c.ID in conns ==> Indexed(users, c.ID, conns[c.ID]);
    Once(ListOf(users, u), c);
  }

  lemma {:induction false} Once(list: seq<Connection>, c: Connection)
    requires forall i, j :: 0 <= i < j < |list| ==> list[i] != list[j]
    ensures multiset(list)[c] <= 1
  {
    if list == [] {
    } else {
      var rest, last := list[..|list| - 1], list[|list| - 1];
      Once(rest, c);
      assert list == rest + [last];
      assert last !in rest;
    }
  }

  lemma DropSize(conns: ById, id: string)
    ensures |conns - {id}| == if id in conns then |conns| - 1 else |conns|
  {
    assert (conns - {id}).Keys == conns.Keys - {id};
  }

  lemma SizeWithout(conns: ById, id: string)
    ensures |conns - {id}| == if id in conns then |conns| - 1 else |conns|
    ensures conns == map[] <==> |conns| == 0
    ensures id in conns ==> |conns| > 0
  {
    DropSize(conns, id);
    if |conns| == 0 { assert conns == map[]; }
  }

  /** What a removal does to a counter that is not too high. */
  lemma ExactAfter(conns: ById, id: string, counter: int)
    requires 0 <= counter <= |conns|
    ensures |conns - {id}| <= |conns|
    ensures var exact := (if counter > 0 then counter - 1 else 0) == |conns - {id}|;
            if counter == |conns| then exact <==> id in conns || conns == map[]
            else exact <==> id in conns && |conns| == 1
  {
    SizeWithout(conns, id);
  }

  lemma RemoveShortens(users: ByUser, u: int, i: nat, bound: nat)
    requires i <= |ListOf(users, u)| && forall v :: v in users ==> |users[v]| <= bound
    ensures forall v :: v in Removed(users, u, i) ==> |Removed(users, u, i)[v]| <= bound
    ensures forall v :: v != u ==> ListOf(Removed(users, u, i), v) == ListOf(users, v)
  {
  }

  // ---------- The connection counter ----------

  /** What happens to the pool's size and counter; a removal may be of a connection that is not there. */
  datatype Counting = Joins | Leaves(present: bool) | Empties

  function Size(h: seq<Counting>): int {
    if h == [] then 0
    else
      match h[|h| - 1]
      case Joins => Size(h[..|h| - 1]) + 1
      case Leaves(present) => if present then Size(h[..|h| - 1]) - 1 else Size(h[..|h| - 1])
      case Empties => 0
  }

  function Counter(h: seq<Counting>): int {
    if h == [] then 0
    else
      var before := Counter(h[..|h| - 1]);
      match h[|h| - 1]
      case Joins => before + 1
      case Leaves(_) => if before > 0 then before - 1 else 0
      case Empties => 0
  }

  /** Only a connection that is there leaves as one that is. */
  predicate Proper(h: seq<Counting>) {
    h == [] || (Proper(h[..|h| - 1]) && (h[|h| - 1] == Leaves(true) ==> Size(h[..|h| - 1]) > 0))
  }

  lemma CountOne(h: seq<Counting>, c: Counting)
    ensures (h + [c])[..|h|] == h
    ensures Size(h + [c]) == match c
                             case Joins => Size(h) + 1
                             case Leaves(present) => if present then Size(h) - 1 else Size(h)
                             case Empties => 0
    ensures Counter(h + [c]) == match c
                                case Joins => Counter(h) + 1
                                case Leaves(_) => if Counter(h) > 0 then Counter(h) - 1 else 0
                                case Empties => 0
    ensures Proper(h + [c]) <==> Proper(h) && (c == Leaves(true) ==> Size(h) > 0)
  {
    assert (h + [c])[..|h|] == h;
  }

  function Absent(h: seq<Counting>): nat {
    if h == [] then 0 else Absent(h[..|h| - 1]) + if h[|h| - 1] == Leaves(false) then 1 else 0
  }

  lemma {:induction false} CounterBounds(h: seq<Counting>)
    requires Proper(h)
    ensures 0 <= Counter(h) <= Size(h) <= Counter(h) + Absent(h)
  {
    if h == [] {
    } else {
      CounterBounds(h[..|h| - 1]);
    }
  }

  /** Since step `i` the pool has been empty, before the step or after. */
  predicate EmptySince(h: seq<Counting>, i: nat) {
    exists j :: i <= j <= |h| && Size(h[..j]) == 0
  }

  /** Over every history: the counter is exact exactly when every removal of a connection that was not
      there met an empty pool or has since been followed by one. */
  lemma {:induction false} CounterExact(h: seq<Counting>)
    requires Proper(h)
    ensures Counter(h) == Size(h) <==> forall i :: 0 <= i < |h| && h[i] == Leaves(false) ==> EmptySince(h, i)
  {
    if h == [] {
    } else {
      var last := |h| - 1;
      var before := h[..last];
      CounterExact(before);
      CounterBounds(before);
      assert h[..|h|] == h;
      forall i | 0 <= i < |h|
        ensures EmptySince(h, i) <==>
            Size(h) == 0 || (i < last && EmptySince(before, i)) || (i == last && Size(before) == 0)
      {
        EmptyEarlier(h, i);
      }
      if Size(before) == 0 {
        forall i | 0 <= i < last ensures EmptySince(before, i) { assert before[..last] == before; }
      }
    }
  }

  lemma EmptyEarlier(h: seq<Counting>, i: nat)
    requires i < |h|
    ensures var before := h[..|h| - 1];
            EmptySince(h, i) <==>
              Size(h) == 0 || (i < |before| && EmptySince(before, i)) || (i == |before| && Size(before) == 0)
  {
    var before := h[..|h| - 1];
    assert h[..|h|] == h;
    forall j | 0 <= j <= |before| ensures h[..j] == before[..j] {}
    assert before[..|before|] == before;
  }

  /** Size and counter are what the history makes them; the counter is never too high. */
  ghost predicate Tally(h: seq<Counting>, conns: ById, counter: int) {
    Proper(h) && |conns| == Size(h) && counter == Counter(h) && 0 <= counter <= |conns|
  }

  lemma TallyJoins(h: seq<Counting>, conns: ById, counter: int, c: Connection)
    requires Tally(h, conns, counter) && c.ID !in conns
    ensures Tally(h + [Joins], conns[c.ID := c], counter + 1)
  {
    CountOne(h, Joins);
  }

  lemma TallyLeaves(h: seq<Counting>, conns: ById, counter: int, id: string)
    requires Tally(h, conns, counter)
    ensures Tally(h + [Leaves(id in conns)], conns - {id}, if counter > 0 then counter - 1 else 0)
  {
    CountOne(h, Leaves(id in conns));
    SizeWithout(conns, id);
  }

  lemma TallyEmpties(h: seq<Counting>, conns: ById, counter: int)
    requires Tally(h, conns, counter)
    ensures Tally(h + [Empties], map[], 0)
  {
    CountOne(h, Empties);
  }

  lemma TallyBounds(h: seq<Counting>, conns: ById, counter: int)
    requires Tally(h, conns, counter)
    ensures 0 <= counter <= |conns|
  {}

  function AllLeave(n: nat): seq<Counting> {
    if n == 0 then [] else AllLeave(n - 1) + [Leaves(true)]
  }

  lemma NobodyLeaves()
    ensures AllLeave(0) == []
  {}

  lemma OneMoreLeaves(h: seq<Counting>, n: nat)
    ensures h + AllLeave(n) + [Leaves(true)] == h + AllLeave(n + 1)
  {}

  datatype Filter = Open | Stale(threshold: int, now: Time)

  predicate Selects(f: Filter, c: Connection)
    reads c
  {
    match f
    case Open => !c.closed
    case Stale(threshold, now) => c.IsStale(threshold, now)
  }

  class ConnectionPool {
    const CircleID: int
    const maxConnections: int
    const maxConnectionsPerUser: int
    var connections: map<string, Connection>
    var userConns: map<int, seq<Connection>>
    var activeConnections: int
    var totalMessages: int
    /** What has happened to the pool's size and counter. */
    ghost var counting: seq<Counting>

    function Members(): set<Connection>
      reads `connections
    {
      connections.Values
    }

    /** Size and counter are what the pool's history makes them; the counter is never too high. */
    ghost predicate Counted()
      reads `connections, `activeConnections, `counting
    {
      Tally(counting, connections, activeConnections)
    }

    predicate Exact()
      reads `connections, `activeConnections
    {
      activeConnections == |connections|
    }

    ghost predicate WithinLimits()
      reads `connections, `userConns
    {
      && |connections| <= maxConnections
      && (forall u :: u in userConns ==> |userConns[u]| <= maxConnectionsPerUser)
    }

    ghost predicate Valid()
      reads `connections, `userConns, `activeConnections, `counting
    {
      0 < maxConnections && 0 < maxConnectionsPerUser && Agree(connections, userConns) && WithinLimits() && Counted()
    }

    ghost predicate MembersValid()
      reads `connections, Members()
    {
      forall c :: c in Members() ==> c.Valid()
    }

    /** When the counter is exact, told from the pool's history alone. */
    lemma ExactWhen()
      requires Valid()
      ensures Exact() <==> forall i :: 0 <= i < |counting| && counting[i] == Leaves(false) ==> EmptySince(counting, i)
    {
      CounterExact(counting);
    }

    constructor (circleID: int, maxConnections: int, maxConnectionsPerUser: int)
      requires 0 < maxConnections && 0 < maxConnectionsPerUser
      ensures Valid() && connections == map[] && userConns == map[]
      ensures activeConnections == 0 && totalMessages == 0 && counting == []
      ensures CircleID == circleID
      ensures this.maxConnections == maxConnections && this.maxConnectionsPerUser == maxConnectionsPerUser
    {
      CircleID := circleID;
      this.maxConnections, this.maxConnectionsPerUser := maxConnections, maxConnectionsPerUser;
      connections, userConns := map[], map[];
      activeConnections, totalMessages, counting := 0, 0, [];
    }

    function UserList(u: int): seq<Connection>
      reads `userConns
    {
      ListOf(userConns, u)
    }

    /** Connection ids are random and fresh, so the new one is not in the pool. */
    method AddConnection(conn: Connection) returns (r: AddResult)
      requires Valid() && conn.ID !in connections
      modifies this
      ensures Valid()
      ensures r == if |old(connections)| >= maxConnections then MaxConnectionsReached
                   else if |old(UserList(conn.UserID))| >= maxConnectionsPerUser then UserMaxConnectionsReached
                   else Added
      ensures r == Added ==>
                && connections == old(connections)[conn.ID := conn]
                && (forall c :: c in Members() <==> c in old(Members()) || c == conn)
                && userConns == old(userConns)[conn.UserID := old(UserList(conn.UserID)) + [conn]]
                && activeConnections == old(activeConnections) + 1
      ensures r != Added ==> connections == old(connections) && userConns == old(userConns)
                             && activeConnections == old(activeConnections)
      ensures totalMessages == old(totalMessages) && counting == old(counting) + if r == Added then [Joins] else []
    {
      hide Counted, Agree;
      if |connections| >= maxConnections {
        return MaxConnectionsReached;
      }
      var userConnections := UserList(conn.UserID);
      if |userConnections| >= maxConnectionsPerUser {
        return UserMaxConnectionsReached;
      }
      Enter(conn);
      r := Added;
    }

    /** Puts the connection into both indices and counts it. */
    method Enter(conn: Connection)
      requires Valid() && conn.ID !in connections
      requires |connections| < maxConnections && |UserList(conn.UserID)| < maxConnectionsPerUser
      modifies `connections, `userConns, `activeConnections, `counting
      ensures Valid()
      ensures connections == old(connections)[conn.ID := conn]
      ensures forall c :: c in Members() <==> c in old(Members()) || c == conn
      ensures userConns == old(userConns)[conn.UserID := old(UserList(conn.UserID)) + [conn]]
      ensures activeConnections == old(activeConnections) + 1 && counting == old(counting) + [Joins]
    {
      hide Tally, Agree;
      AddAgrees(connections, userConns, conn);
      AddedValues(connections, conn);
      TallyJoins(counting, connections, activeConnections, conn);
      userConns := userConns[conn.UserID := UserList(conn.UserID) + [conn]];
      connections := connections[conn.ID := conn];
      activeConnections, counting := activeConnections + 1, counting + [Joins];
    }

    /** The connection's place in its user's list, or the list's length. */
    method FindInUserList(conn: Connection) returns (i: nat)
      requires Valid() && (conn.ID in connections ==> connections[conn.ID] == conn)
      ensures SearchResult(connections, userConns, conn, i)
    {
      var userConnections := UserList(conn.UserID);
      i := 0;
      while i < |userConnections| && userConnections[i].ID != conn.ID
        invariant 0 <= i <= |userConnections|
        invariant forall j :: 0 <= j < i ==> userConnections[j].ID != conn.ID
      {
        i := i + 1;
      }
      Search(connections, userConns, conn, i);
    }

    method DropFromUserList(conn: Connection, i: nat)
      requires i <= |UserList(conn.UserID)| && (conn.UserID in userConns ==> userConns[conn.UserID] != [])
      modifies `userConns
      ensures userConns == Removed(old(userConns), conn.UserID, i)
    {
      var userConnections := UserList(conn.UserID);
      if i < |userConnections| {
        var last := |userConnections| - 1;
        userConnections := userConnections[i := userConnections[last]];
        userConns := userConns[conn.UserID := userConnections[..last]];
      }
      if |UserList(conn.UserID)| == 0 {
        userConns := userConns - {conn.UserID};
      }
    }

    /** Takes the connection out of its user's list, and drops the list when it becomes empty. */
    method Unlist(conn: Connection)
      requires Valid() && (conn.ID in connections ==> connections[conn.ID] == conn)
      modifies `userConns
      ensures Agree(connections - {conn.ID}, userConns)
      ensures forall u :: u in userConns ==> |userConns[u]| <= maxConnectionsPerUser
      ensures forall u :: u != conn.UserID ==> UserList(u) == old(UserList(u))
    {
      var i := FindInUserList(conn);
      RemoveAgrees(connections, userConns, conn, i);
      RemoveShortens(userConns, conn.UserID, i, maxConnectionsPerUser);
      assert conn.UserID in userConns ==> Listed(connections, conn.UserID, userConns[conn.UserID]);
      DropFromUserList(conn, i);
    }

    method Uncount(conn: Connection)
      requires Counted()
      modifies `connections, `activeConnections, `counting
      ensures Counted() && connections == old(connections) - {conn.ID}
      ensures activeConnections == if old(activeConnections) > 0 then old(activeConnections) - 1 else 0
      ensures counting == old(counting) + [Leaves(conn.ID in old(connections))]
    {
      hide Tally;
      TallyBounds(counting, connections, activeConnections);
      TallyLeaves(counting, connections, activeConnections, conn.ID);
      counting := counting + [Leaves(conn.ID in connections)];
      connections := connections - {conn.ID};
      if activeConnections > 0 {
        activeConnections := activeConnections - 1;
      }
    }

    /** May be called for a connection that is no longer in the pool. */
    method RemoveConnection(conn: Connection)
      requires Valid() && (conn.ID in connections ==> connections[conn.ID] == conn)
      modifies this
      ensures Valid()
      ensures connections == old(connections) - {conn.ID}
      ensures forall c :: c in Members() <==> c in old(Members()) && c != conn
      ensures forall u :: u != conn.UserID ==> UserList(u) == old(UserList(u))
      ensures activeConnections == if old(activeConnections) > 0 then old(activeConnections) - 1 else 0
      ensures counting == old(counting) + [Leaves(conn.ID in old(connections))]
      ensures old(Exact()) ==> (Exact() <==> conn.ID in old(connections) || old(connections) == map[])
      ensures !old(Exact()) ==> (Exact() <==> conn.ID in old(connections) && |old(connections)| == 1)
      ensures totalMessages == old(totalMessages)
    {
      hide Agree, Tally;
      RemovedMembers(connections, userConns, conn);
      TallyBounds(counting, connections, activeConnections);
      ExactAfter(connections, conn.ID, activeConnections);
      Unlist(conn);
      Uncount(conn);
    }

    /** The members a filter selects, collected under the read lock in arbitrary order. */
    method Select(f: Filter) returns (selected: set<Connection>)
      ensures selected == set c | c in Members() && Selects(f, c)
    {
      selected := {};
      var left := connections.Keys;
      while left != {}
        invariant left <= connections.Keys
        invariant selected == set id | id in connections.Keys - left && Selects(f, connections[id]) :: connections[id]
        decreases left
      {
        var id :| id in left;
        left := left - {id};
        if Selects(f, connections[id]) {
          selected := selected + {connections[id]};
        }
      }
    }

    /** Every member takes exactly one send step, so the event reaches each open member with room
        exactly once, and the counter grows by the number of those. The sends happen outside the
        pool's lock; with no step of another thread in between. */
    method Broadcast(e: Event)
      requires Valid() && MembersValid()
      modifies `totalMessages, Members()
      ensures Valid() && MembersValid()
      ensures forall c :: c in Members() ==>
                if old(c.closed) then unchanged(c)
                else c.log == old(c.log) + [Send(e)] && c.lastActivity == old(c.lastActivity)
      ensures totalMessages == old(totalMessages) + |set c | c in Members() && Roomy(old(c.View()))|
    {
      ghost var roomy := set c | c in Members() && Roomy(c.View());
      var targets := Select(Open);
      ghost var reached := SendAll(targets, e);
      assert reached == roomy;
    }

    method SendAll(targets: set<Connection>, e: Event) returns (ghost reached: set<Connection>)
      requires forall c :: c in targets ==> c.Valid()
      modifies `totalMessages, targets
      ensures forall c :: c in targets ==>
                c.Valid() && c.log == old(c.log) + [Send(e)] && c.lastActivity == old(c.lastActivity)
      ensures reached == set c | c in targets && Roomy(old(c.View()))
      ensures totalMessages == old(totalMessages) + |reached|
    {
      hide *;
      var left := targets;
      reached := {};
      while left != {}
        invariant left <= targets && forall c :: c in reached ==> c in targets && c !in left
        invariant forall c :: c in left ==> c.Valid() && unchanged(c)
        invariant forall c :: c in targets && c !in left ==>
                    c.Valid() && c.log == old(c.log) + [Send(e)] && c.lastActivity == old(c.lastActivity)
        invariant forall c :: c in targets && c !in left ==> (c in reached <==> Roomy(old(c.View())))
        invariant totalMessages == old(totalMessages) + |reached|
        decreases left
      {
        var conn :| conn in left;
        left := left - {conn};
        var sent := conn.SendEvent(e);
        if sent {
          totalMessages := totalMessages + 1;
          reached := reached + {conn};
        }
      }
    }

    /** Closes every member and empties the pool. */
    method Close()
      requires Valid() && MembersValid()
      modifies this, Members()
      ensures Valid() && MembersValid() && connections == map[] && userConns == map[] && Members() == {}
      ensures activeConnections == 0 && totalMessages == old(totalMessages) && counting == old(counting) + [Empties]
      ensures forall c :: c in old(Members()) ==>
                c.Valid() && c.closed && c.log == old(c.log) + [Action.Close] && c.lastActivity == old(c.lastActivity)
    {
      hide Agree, Counted, Connection.Valid;
      CloseAll(Members());
      Clear();
    }

    method Clear()
      requires 0 < maxConnections && 0 < maxConnectionsPerUser && Counted()
      modifies `connections, `userConns, `activeConnections, `counting
      ensures Valid() && connections == map[] && userConns == map[] && Members() == {}
      ensures activeConnections == 0 && counting == old(counting) + [Empties]
    {
      hide Tally;
      TallyEmpties(counting, connections, activeConnections);
      connections, userConns := map[], map[];
      activeConnections, counting := 0, counting + [Empties];
    }

    method CloseAll(targets: set<Connection>)
      requires forall c :: c in targets ==> c.Valid()
      modifies targets
      ensures forall c :: c in targets ==>
                c.Valid() && c.closed && c.log == old(c.log) + [Action.Close] && c.lastActivity == old(c.lastActivity)
    {
      var left := targets;
      while left != {}
        invariant left <= targets
        invariant forall c :: c in left ==> c.Valid() && unchanged(c)
        invariant forall c :: c in targets && c !in left ==>
                    c.Valid() && c.closed && c.log == old(c.log) + [Action.Close]
                        && c.lastActivity == old(c.lastActivity)
        decreases left
      {
        var conn :| conn in left;
        left := left - {conn};
        conn.Close();
      }
    }

    /** Closes and removes the members idle for longer than `threshold`; the others are untouched. */
    method CleanupStaleConnections(threshold: int, now: Time)
      requires Valid() && MembersValid()
      modifies this, Members()
      ensures Valid() && MembersValid()
      ensures forall c :: c in Members() <==> c in old(Members()) && now - old(c.lastActivity) <= threshold
      ensures forall c :: c in old(Members()) ==>
                if now - old(c.lastActivity) > threshold
                then c.Valid() && c.closed && c.log == old(c.log) + [Action.Close]
                    && c.lastActivity == old(c.lastActivity)
                else unchanged(c)
      ensures counting
          == old(counting) + AllLeave(|set c | c in old(Members()) && now - old(c.lastActivity) > threshold|)
      ensures totalMessages == old(totalMessages)
    {
      var stale := Select(Stale(threshold, now));
      ghost var chosen := set c | c in Members() && c.IsStale(threshold, now);
      assert stale == chosen;
      CloseAndRemoveAll(stale);
      assert chosen == set c | c in old(Members()) && now - old(c.lastActivity) > threshold;
    }

    method CloseAndRemoveAll(stale: set<Connection>)
      requires Valid() && MembersValid() && stale <= Members()
      modifies this, Members()
      ensures Valid() && MembersValid()
      ensures forall c :: c in Members() <==> c in old(Members()) && c !in stale
      ensures forall c :: c in old(Members()) ==>
                if c in stale
                then c.Valid() && c.closed && c.log == old(c.log) + [Action.Close]
                    && c.lastActivity == old(c.lastActivity)
                else unchanged(c)
      ensures counting == old(counting) + AllLeave(|stale|) && totalMessages == old(totalMessages)
    {
      hide Connection.Valid, Valid, Agree, Tally, AllLeave;
      NobodyLeaves();
      var left := stale;
      ghost var n: nat := 0;
      while left != {}
        invariant left <= stale && Valid() && MembersValid()
        invariant forall c :: c in Members() <==> c in old(Members()) && (c in stale ==> c in left)
        invariant forall c :: c in old(Members()) ==>
                    if c in stale && c !in left
                    then c.Valid() && c.closed && c.log == old(c.log) + [Action.Close]
                        && c.lastActivity == old(c.lastActivity)
                    else unchanged(c)
        invariant n + |left| == |stale| && counting == old(counting) + AllLeave(n)
            && totalMessages == old(totalMessages)
        decreases left
      {
        var conn :| conn in left;
        left := left - {conn};
        IsUnderItsId(conn);
        CloseAndRemove(conn);
        OneMoreLeaves(old(counting), n);
        n := n + 1;
      }
    }

    lemma IsUnderItsId(conn: Connection)
      requires Valid() && conn in Members()
      ensures conn.ID in connections && connections[conn.ID] == conn
    {
      MemberById(connections, userConns, conn);
    }

    method CloseAndRemove(conn: Connection)
      requires Valid() && MembersValid() && conn.ID in connections && connections[conn.ID] == conn
      modifies this, conn
      ensures Valid() && MembersValid() && forall c :: c in Members() <==> c in old(Members()) && c != conn
      ensures conn.Valid() && conn.closed && conn.log == old(conn.log) + [Action.Close]
      ensures conn.lastActivity == old(conn.lastActivity)
      ensures counting == old(counting) + [Leaves(true)] && totalMessages == old(totalMessages)
    {
      hide Connection.Valid, Agree;
      conn.Close();
      RemoveConnection(conn);
    }

    method IsEmpty() returns (empty: bool)
      ensures empty <==> Members() == {}
    {
      empty := |connections| == 0;
      assert !empty ==> exists id :: id in connections && connections[id] in Members();
    }
  }

  /** Removing one connection twice, as a cleanup and the end of its handler can, leaves a pool with one
      member counted as none. */
  method RemovedTwice(circleID: int, a: Connection, b: Connection) returns (pool: ConnectionPool)
    requires a.ID != b.ID
    ensures fresh(pool) && pool.Valid() && pool.connections == map[b.ID := b] && pool.activeConnections == 0
  {
    hide ConnectionPool.Valid, ConnectionPool.Counted, ConnectionPool.Exact, Agree;
    pool := new ConnectionPool(circleID, 2, 2);
    var r := pool.AddConnection(a);
    assert pool.connections == map[a.ID := a];
    r := pool.AddConnection(b);
    assert pool.connections == map[a.ID := a, b.ID := b];
    pool.RemoveConnection(a);
    assert pool.connections == map[b.ID := b];
    pool.RemoveConnection(a);
    assert pool.connections == map[b.ID := b];
  }
}
