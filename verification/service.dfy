/**
 The real-time service (internal/realtime/service.go): one connection pool per circle. Each service
 call is one step, AddConnection included, although the code looks the pool up and inserts under two locks.
 */
module RealTime {
  import opened Connections
  import opened Pools

  lemma SomeKey(keys: set<int>)
    ensures keys == {} || exists k :: k in keys
  {
    if forall k :: k !in keys { assert keys == {}; }
  }

  class RealTimeService {
    const enabled: bool
    const maxConnections: int
    const maxConnectionsPerUser: int
    const staleThreshold: int
    var connectionPools: map<int, ConnectionPool>
    var started: bool
    var eventsPublished: int
    /** Every connection in some pool. */
    ghost var members: set<Connection>
    /** Every pool the service has made. */
    ghost var pools: set<ConnectionPool>

    ghost function MembersOf(circleID: int): set<Connection>
      reads `members
    {
      set c | c in members && c.CircleID == circleID
    }

    /** A circle's pool holds exactly the service's connections of that circle. */
    ghost predicate PoolOf(circleID: int, pool: ConnectionPool)
      reads `members, pool`connections, pool`userConns, pool`activeConnections, pool`counting
    {
      && pool.CircleID == circleID
      && pool.maxConnections == maxConnections && pool.maxConnectionsPerUser == maxConnectionsPerUser
      && pool.Valid()
      && (forall c :: c in pool.Members() ==> c in members && c.CircleID == circleID)
      && (forall c :: c in members && c.CircleID == circleID ==> c in pool.Members())
    }

    ghost predicate Valid()
      reads `connectionPools, `pools, `members, members
      reads pools`connections, pools`userConns, pools`activeConnections, pools`counting
    {
      && 0 < maxConnections && 0 < maxConnectionsPerUser
      && (forall circle :: circle in connectionPools ==>
            connectionPools[circle] in pools && PoolOf(circle, connectionPools[circle]))
      && (forall c :: c in members ==> c.CircleID in connectionPools && c.Valid())
    }

    /** A step that changes one circle's pool, and leaves it that circle's, keeps the service consistent. */
    twostate lemma OneCircleChanged(circleID: int)
      requires old(Valid()) && unchanged(`connectionPools) && unchanged(`pools)
      requires forall p :: p in pools && p.CircleID != circleID ==>
                 unchanged(p`connections, p`userConns, p`activeConnections, p`counting)
      requires circleID in connectionPools ==> PoolOf(circleID, connectionPools[circleID])
      requires forall c :: c in members ==> c.Valid() && c.CircleID in connectionPools
      requires forall c :: c in members && c.CircleID != circleID ==> c in old(members)
      requires forall c :: c in old(members) && c.CircleID != circleID ==> c in members
      ensures Valid()
    {
      hide Connection.Valid, ConnectionPool.Valid;
      forall circle | circle in connectionPools ensures PoolOf(circle, connectionPools[circle]) {
        var pool := connectionPools[circle];
        assert pool in pools && old(PoolOf(circle, pool));
        if circle != circleID {
          assert unchanged(pool`connections, pool`userConns, pool`activeConnections, pool`counting);
          assert pool.Members() == old(pool.Members()) && pool.Valid();
        }
      }
    }

    /** So does adding an empty pool for a circle without one. */
    twostate lemma EmptyPoolAdded(circleID: int, new pool: ConnectionPool)
      requires old(Valid()) && unchanged(`members) && circleID !in old(connectionPools)
      requires forall p :: p in old(pools) ==> unchanged(p)
      requires forall c :: c in members ==> c.Valid()
      requires connectionPools == old(connectionPools)[circleID := pool] && pools == old(pools) + {pool}
      requires pool.Valid() && pool.connections == map[] && pool.CircleID == circleID
      requires pool.maxConnections == maxConnections && pool.maxConnectionsPerUser == maxConnectionsPerUser
      ensures Valid()
    {
      hide Connection.Valid, ConnectionPool.Valid;
      forall circle | circle in connectionPools ensures PoolOf(circle, connectionPools[circle]) {
        if circle != circleID { assert old(PoolOf(circle, connectionPools[circle])); }
      }
    }

    constructor (enabled: bool, maxConnections: int, maxConnectionsPerUser: int, staleThreshold: int)
      requires 0 < maxConnectionsPerUser <= maxConnections && 0 < staleThreshold
      ensures Valid() && connectionPools == map[] && members == {} && !started
    {
      this.enabled, this.staleThreshold := enabled, staleThreshold;
      this.maxConnections, this.maxConnectionsPerUser := maxConnections, maxConnectionsPerUser;
      connectionPools, members, pools := map[], {}, {};
      started, eventsPublished := false, 0;
    }

    method Start()
      requires Valid()
      modifies `started
      ensures Valid() && started == (old(started) || enabled)
    {
      if !started && enabled {
        started := true;
      }
    }

    method GetConnectionPool(circleID: int) returns (pool: ConnectionPool)
      requires Valid()
      modifies `connectionPools, `pools
      ensures Valid() && old(pools) <= pools && fresh(pools - old(pools))
      ensures circleID in connectionPools && connectionPools[circleID] == pool
      ensures circleID in old(connectionPools) ==> connectionPools == old(connectionPools)
      ensures circleID !in old(connectionPools) ==>
                && fresh(pool) && pool.connections == map[] && pool.userConns == map[]
                && connectionPools == old(connectionPools)[circleID := pool]
    {
      hide Connection.Valid, ConnectionPool.Valid, PoolOf;
      if circleID in connectionPools {
        pool := connectionPools[circleID];
      } else {
        pool := new ConnectionPool(circleID, maxConnections, maxConnectionsPerUser);
        connectionPools := connectionPools[circleID := pool];
        pools := pools + {pool};
        EmptyPoolAdded(circleID, pool);
      }
    }

    /** Connection ids are random and fresh, so the circle's pool does not hold this one. */
    method AddConnection(conn: Connection) returns (r: AddResult)
      requires Valid() && conn.Valid()
      requires conn.CircleID in connectionPools ==> conn.ID !in connectionPools[conn.CircleID].connections
      modifies `connectionPools, `members, `pools, pools
      ensures Valid() && old(pools) <= pools && fresh(pools - old(pools))
      ensures members == old(members) + if r == Added then {conn} else {}
      ensures r == ServiceNotEnabled <==> !(started && enabled)
      ensures r == ServiceNotEnabled ==> unchanged(this) && forall p :: p in pools ==> unchanged(p)
      ensures r != ServiceNotEnabled && conn.CircleID in old(connectionPools) ==>
                var pool := old(connectionPools)[conn.CircleID];
                r == if |old(pool.connections)| >= maxConnections then MaxConnectionsReached
                     else if |old(pool.UserList(conn.UserID))| >= maxConnectionsPerUser then UserMaxConnectionsReached
                     else Added
      ensures r != ServiceNotEnabled && conn.CircleID !in old(connectionPools) ==> r == Added
    {
      hide Connection.Valid;
      if !started || !enabled {
        return ServiceNotEnabled;
      }
      var pool := GetConnectionPool(conn.CircleID);
      r := Insert(pool, conn);
    }

    method Insert(pool: ConnectionPool, conn: Connection) returns (r: AddResult)
      requires Valid() && conn.Valid() && conn.ID !in pool.connections
      requires conn.CircleID in connectionPools && connectionPools[conn.CircleID] == pool
      modifies pool, `members
      ensures Valid() && r != ServiceNotEnabled
      ensures members == old(members) + if r == Added then {conn} else {}
      ensures r == if |old(pool.connections)| >= maxConnections then MaxConnectionsReached
                   else if |old(pool.UserList(conn.UserID))| >= maxConnectionsPerUser then UserMaxConnectionsReached
                   else Added
    {
      hide Connection.Valid, ConnectionPool.Valid;
      assert PoolOf(conn.CircleID, pool);
      r := pool.AddConnection(conn);
      if r == Added {
        members := members + {conn};
      }
      hide ConnectionPool.UserList;
      assert PoolOf(conn.CircleID, pool);
      OneCircleChanged(conn.CircleID);
    }

    /** Connection ids name one connection. May find no pool, or a pool that no longer holds it. */
    method RemoveConnection(conn: Connection)
      requires Valid()
      requires conn.CircleID in connectionPools ==>
                 var known := connectionPools[conn.CircleID].connections; conn.ID in known ==> known[conn.ID] == conn
      modifies `members, pools
      ensures Valid() && members == old(members) - {conn}
      ensures forall circle :: circle in connectionPools && circle != conn.CircleID ==>
          unchanged(connectionPools[circle])
    {
      hide Connection.Valid, ConnectionPool.Valid, ConnectionPool.Exact, ConnectionPool.UserList;
      var circleID := conn.CircleID;
      members := members - {conn};
      if circleID in connectionPools {
        var pool := connectionPools[circleID];
        assert old(PoolOf(circleID, pool));
        pool.RemoveConnection(conn);
        assert PoolOf(circleID, pool);
      }
      OneCircleChanged(circleID);
    }

    /** The service still holds this pool. */
    predicate Holds(pool: ConnectionPool)
      reads `connectionPools
    {
      pool.CircleID in connectionPools && connectionPools[pool.CircleID] == pool
    }

    /** How a read pump ends: it removes its connection from the pool it was started with, which the
        service may have dropped since, and closes it. */
    method ReadPumpEnds(pool: ConnectionPool, conn: Connection)
      requires Valid() && pool.Valid() && conn.Valid() && conn.CircleID == pool.CircleID
      requires conn.ID in pool.connections ==> pool.connections[conn.ID] == conn
      modifies `members, pool, conn
      ensures Valid() && conn.closed && conn.log == old(conn.log) + [Close]
      ensures members == if Holds(pool) then old(members) - {conn} else old(members)
      ensures pool.connections == old(pool.connections) - {conn.ID}
    {
      hide Connection.Valid, ConnectionPool.Valid;
      LeavePool(pool, conn);
      label left:
      conn.Close();
      forall circle | circle in connectionPools ensures PoolOf(circle, connectionPools[circle]) {
        assert old@left(PoolOf(circle, connectionPools[circle]));
      }
    }

    method LeavePool(pool: ConnectionPool, conn: Connection)
      requires Valid() && pool.Valid() && conn.CircleID == pool.CircleID
      requires conn.ID in pool.connections ==> pool.connections[conn.ID] == conn
      modifies `members, pool
      ensures Valid()
      ensures members == if Holds(pool) then old(members) - {conn} else old(members)
      ensures pool.connections == old(pool.connections) - {conn.ID}
    {
      hide Connection.Valid, ConnectionPool.Valid, ConnectionPool.Exact, ConnectionPool.UserList;
      if Holds(pool) { members := members - {conn}; }
      pool.RemoveConnection(conn);
      forall circle | circle in connectionPools ensures PoolOf(circle, connectionPools[circle]) {
        assert old(PoolOf(circle, connectionPools[circle]));
        assert connectionPools[circle] == pool ==> circle == conn.CircleID;
        assert connectionPools[circle] != pool ==> unchanged(connectionPools[circle]);
      }
    }

    /** Reaches every connection of the circle that is not closed, exactly once, and touches no other
        connection. */
    method BroadcastToCircle(circleID: int, e: Event)
      requires Valid()
      modifies `eventsPublished, pools`totalMessages, MembersOf(circleID)
      ensures Valid()
      ensures forall c :: c in MembersOf(circleID) ==>
                if started && enabled && !old(c.closed)
                then c.log == old(c.log) + [Send(e)] && c.lastActivity == old(c.lastActivity)
                else unchanged(c)
      ensures forall circle :: circle in connectionPools ==>
                connectionPools[circle].totalMessages
                == old(connectionPools[circle].totalMessages)
                   + if started && enabled && circle == circleID
                     then |set c | c in MembersOf(circleID) && Roomy(old(c.View()))| else 0
      ensures eventsPublished
           == old(eventsPublished) + if started && enabled && circleID in connectionPools then 1 else 0
    {
      hide Connection.Valid, ConnectionPool.Valid;
      if !started || !enabled {
        return;
      }
      if circleID in connectionPools {
        var pool := connectionPools[circleID];
        assert PoolOf(circleID, pool);
        PoolHasMembers(circleID);
        pool.Broadcast(e);
        eventsPublished := eventsPublished + 1;
        StepsOnConnections();
      }
    }

    /** Closes everything in one circle's pool. */
    method ClosePool(circleID: int)
      requires Valid() && circleID in connectionPools
      modifies `members, connectionPools[circleID], MembersOf(circleID)
      ensures Valid()
      ensures forall c :: c in members <==> c in old(members) && c.CircleID != circleID
      ensures forall c :: c in old(MembersOf(circleID)) ==> c.closed
    {
      hide Connection.Valid, ConnectionPool.Valid;
      var pool := connectionPools[circleID];
      assert PoolOf(circleID, pool);
      PoolHasMembers(circleID);
      members := set c | c in members && c.CircleID != circleID;
      pool.Close();
      assert PoolOf(circleID, pool);
      OneCircleChanged(circleID);
    }

    /** Closes one circle's pool and everything in it, and drops the pool. */
    method DropPool(circleID: int)
      requires Valid() && circleID in connectionPools
      modifies `connectionPools, `members, connectionPools[circleID], MembersOf(circleID)
      ensures Valid() && connectionPools == old(connectionPools) - {circleID}
      ensures forall c :: c in members <==> c in old(members) && c.CircleID != circleID
      ensures forall c :: c in old(MembersOf(circleID)) ==> c.closed
    {
      hide Connection.Valid, ConnectionPool.Valid;
      ClosePool(circleID);
      connectionPools := connectionPools - {circleID};
    }

    /** The next key of a map iteration: any key not yet visited. */
    static method Next(left: set<int>) returns (circleID: int)
      requires left != {}
      ensures circleID in left
    {
      SomeKey(left);
      circleID :| circleID in left;
    }

    /** Closes every connection of every pool and drops the pools. */
    method Stop()
      requires Valid()
      modifies `connectionPools, `members, `started, pools, members
      ensures Valid() && !started
      ensures old(started) ==> connectionPools == map[] && members == {} && forall c :: c in old(members) ==> c.closed
      ensures !old(started) ==> unchanged(this) && forall c :: c in members ==> unchanged(c)
    {
      hide Connection.Valid, ConnectionPool.Valid, PoolOf;
      if !started {
        return;
      }
      var left := connectionPools.Keys;
      while left != {}
        invariant Valid() && forall circle :: circle in connectionPools <==> circle in left
        invariant forall c :: c in members <==> c in old(members) && c.CircleID in left
        invariant forall c :: c in old(members) ==> c in members || c.closed
        decreases left
      {
        var circle := Next(left);
        left := left - {circle};
        DropPool(circle);
      }
      SomeKey(connectionPools.Keys);
      started := false;
    }

    lemma PoolHasMembers(circleID: int)
      requires Valid() && circleID in connectionPools
      ensures connectionPools[circleID].Members() == MembersOf(circleID)
    {
      assert PoolOf(circleID, connectionPools[circleID]);
    }

    /** Closed by one step of its own, and otherwise as it was. */
    twostate predicate Dropped(c: Connection)
      reads c
    {
      c.Valid() && c.closed && c.log == old(c.log) + [Close] && c.lastActivity == old(c.lastActivity)
    }

    /** Closes and drops the stale connections of one circle. */
    method SweepPool(circleID: int, now: Time)
      requires Valid() && circleID in connectionPools
      modifies `members, connectionPools[circleID], MembersOf(circleID)
      ensures Valid()
      ensures forall c :: c in members <==>
                c in old(members) && !(c.CircleID == circleID && now - old(c.lastActivity) > staleThreshold)
      ensures forall c :: c in old(MembersOf(circleID)) ==>
                if now - old(c.lastActivity) > staleThreshold then Dropped(c) else unchanged(c)
    {
      hide Connection.Valid, ConnectionPool.Valid;
      var pool := connectionPools[circleID];
      assert PoolOf(circleID, pool);
      PoolHasMembers(circleID);
      members := set c | c in members && !(c.CircleID == circleID && c.IsStale(staleThreshold, now));
      pool.CleanupStaleConnections(staleThreshold, now);
      assert PoolOf(circleID, pool);
      OneCircleChanged(circleID);
    }

    /** The same, and drops the circle's pool if nothing is left in it. */
    method CleanupPool(circleID: int, now: Time)
      requires Valid() && circleID in connectionPools
      modifies `connectionPools, `members, connectionPools[circleID], MembersOf(circleID)
      ensures Valid()
      ensures connectionPools
           == if MembersOf(circleID) == {} then old(connectionPools) - {circleID} else old(connectionPools)
      ensures forall c :: c in members <==>
                c in old(members) && !(c.CircleID == circleID && now - old(c.lastActivity) > staleThreshold)
      ensures forall c :: c in old(MembersOf(circleID)) ==>
                if now - old(c.lastActivity) > staleThreshold then Dropped(c) else unchanged(c)
    {
      hide Connection.Valid, ConnectionPool.Valid, PoolOf;
      SweepPool(circleID, now);
      PoolHasMembers(circleID);
      var empty := connectionPools[circleID].IsEmpty();
      if empty {
        forall c | c in members ensures c.CircleID != circleID {
          assert c.CircleID == circleID ==> c in MembersOf(circleID);
        }
        DropPool(circleID);
      }
    }

    /** Drops stale connections, then pools left with no connection. */
    method PerformCleanup(now: Time)
      requires Valid()
      modifies `connectionPools, `members, pools, members
      ensures Valid()
      ensures forall circle :: circle in connectionPools ==> MembersOf(circle) != {}
      ensures forall c :: c in members <==> c in old(members) && now - old(c.lastActivity) <= staleThreshold
      ensures forall c :: c in old(members) ==>
                if now - old(c.lastActivity) > staleThreshold then Dropped(c) else unchanged(c)
    {
      hide Connection.Valid, ConnectionPool.Valid, PoolOf;
      var left := connectionPools.Keys;
      while left != {}
        invariant Valid()
        invariant forall circle :: circle in left ==> circle in connectionPools
        invariant forall circle :: circle in connectionPools && circle !in left ==> MembersOf(circle) != {}
        invariant forall c :: c in members <==>
                    c in old(members) && (c.CircleID in left || now - old(c.lastActivity) <= staleThreshold)
        invariant forall c :: c in old(members) ==> if c in members then unchanged(c) else Dropped(c)
        decreases left
      {
        var circle := Next(left);
        left := left - {circle};
        CleanupPool(circle, now);
      }
    }

    /** A read or a pong on one of the service's connections, pooled still or not. */
    method Acted(conn: Connection, at: Time)
      requires Valid() && conn.Valid()
      modifies conn`lastActivity
      ensures Valid() && conn.Valid() && conn.lastActivity == at
    {
      hide Connection.Valid, ConnectionPool.Valid;
      conn.UpdateActivity(at);
      StepsOnConnections();
    }

    /** Steps that senders, closers and readers take on connections directly, pooled or not, and
        broadcasts that add to a pool's message total, leave the service consistent. */
    twostate lemma StepsOnConnections()
      requires old(Valid()) && unchanged(`connectionPools) && unchanged(`pools) && unchanged(`members)
      requires forall p :: p in pools ==>
                 unchanged(p`connections, p`userConns, p`activeConnections, p`counting)
      requires forall c :: c in members ==> c.Valid()
      ensures Valid()
    {
      forall circle | circle in connectionPools ensures PoolOf(circle, connectionPools[circle]) {
        var pool := connectionPools[circle];
        assert old(PoolOf(circle, pool));
        assert pool in pools && pool.Members() == old(pool.Members());
        assert pool.Valid() == old(pool.Valid());
      }
    }
  }

  // ---------- Activity and cleanups ----------

  datatype Happening = Activity(conn: Connection, at: Time) | Cleanup(at: Time)

  /** When a connection was last active, told from what has happened. */
  function LastSeen(c: Connection, first: Time, run: seq<Happening>): Time {
    if run == [] then first
    else
      var last := run[|run| - 1];
      if last.Activity? && last.conn == c then last.at else LastSeen(c, first, run[..|run| - 1])
  }

  /** The i-th happening is a cleanup that finds the connection idle for longer than the threshold. */
  predicate OverdueAt(c: Connection, first: Time, run: seq<Happening>, threshold: int, i: nat)
    requires i < |run|
  {
    run[i].Cleanup? && run[i].at > LastSeen(c, first, run[..i]) + threshold
  }

  predicate Overdue(c: Connection, first: Time, run: seq<Happening>, threshold: int, n: nat)
    requires n <= |run|
  {
    exists i :: 0 <= i < n && OverdueAt(c, first, run, threshold, i)
  }

  /** Any sequence of activity and cleanups: the service drops exactly the connections that some cleanup
      finds idle for longer than the threshold, closed; no cleanup takes a step on any other. */
  method Live(service: RealTimeService, run: seq<Happening>)
    requires service.Valid()
    requires forall i :: 0 <= i < |run| && run[i].Activity? ==> run[i].conn in service.members
    modifies service, service.pools, service.members
    ensures service.Valid()
    ensures forall c :: c in service.members <==>
              c in old(service.members) && !Overdue(c, old(c.lastActivity), run, service.staleThreshold, |run|)
    ensures forall c :: c in old(service.members) ==>
              if Overdue(c, old(c.lastActivity), run, service.staleThreshold, |run|) then c.closed
              else c.log == old(c.log)
  {
    assert forall c :: c in service.members ==> c.Valid();
    hide *;
    ghost var first := map c | c in service.members :: c.lastActivity;
    ghost var logs := map c | c in service.members :: c.log;
    HappenAll(service, run, first, logs);
  }

  method HappenAll(service: RealTimeService, run: seq<Happening>, ghost first: map<Connection, Time>,
                   ghost logs: map<Connection, seq<Action>>)
    requires service.Valid() && first.Keys == logs.Keys == service.members
    requires forall c :: c in first ==> c.Valid() && c.lastActivity == first[c] && c.log == logs[c]
    requires forall i :: 0 <= i < |run| && run[i].Activity? ==> run[i].conn in first
    modifies service, service.pools, service.members
    ensures service.Valid()
    ensures forall c :: c in service.members <==>
              c in first && !Overdue(c, first[c], run, service.staleThreshold, |run|)
    ensures forall c :: c in first ==>
              if Overdue(c, first[c], run, service.staleThreshold, |run|) then c.closed else c.log == logs[c]
  {
    hide *;
    forall c | c in first
      ensures !Overdue(c, first[c], run, service.staleThreshold, 0) && LastSeen(c, first[c], run[..0]) == first[c]
    {
      NeverYet(c, first[c], run, service.staleThreshold);
    }
    for i := 0 to |run|
      invariant service.Valid() && service.pools == old(service.pools)
      invariant forall c :: c in first ==> c.Valid() && c.lastActivity == LastSeen(c, first[c], run[..i])
      invariant forall c :: c in service.members <==>
                  c in first && !Overdue(c, first[c], run, service.staleThreshold, i)
      invariant forall c :: c in first ==>
                  if Overdue(c, first[c], run, service.staleThreshold, i) then c.closed else c.log == logs[c]
    {
      forall c | c in first
        ensures Overdue(c, first[c], run, service.staleThreshold, i + 1) <==>
                Overdue(c, first[c], run, service.staleThreshold, i)
                || (run[i].Cleanup? && run[i].at > LastSeen(c, first[c], run[..i]) + service.staleThreshold)
        ensures LastSeen(c, first[c], run[..i + 1])
             == if run[i] == Activity(c, run[i].at) then run[i].at else LastSeen(c, first[c], run[..i])
      {
        OneMoreHappening(c, first[c], run, service.staleThreshold, i);
      }
      Happen(service, run[i], first.Keys);
    }
  }

  method Happen(service: RealTimeService, h: Happening, ghost all: set<Connection>)
    requires service.Valid() && service.members <= all
    requires (forall c :: c in all ==> c.Valid()) && (h.Activity? ==> h.conn in all)
    modifies service, service.pools, all
    ensures service.Valid() && service.pools == old(service.pools)
    ensures forall c :: c in all ==>
              c.Valid() && c.lastActivity == if h == Activity(c, h.at) then h.at else old(c.lastActivity)
    ensures forall c :: c in service.members <==>
              c in old(service.members) && !(h.Cleanup? && h.at > old(c.lastActivity) + service.staleThreshold)
    ensures forall c :: c in all ==>
              if c in old(service.members) && c !in service.members then c.closed
              else c.log == old(c.log) && c.closed == old(c.closed)
  {
    hide Connection.Valid, ConnectionPool.Valid, RealTimeService.Valid, RealTimeService.PoolOf;
    match h {
      case Activity(conn, at) => service.Acted(conn, at);
      case Cleanup(at) => service.PerformCleanup(at);
    }
  }

  lemma NeverYet(c: Connection, first: Time, run: seq<Happening>, threshold: int)
    ensures !Overdue(c, first, run, threshold, 0) && LastSeen(c, first, run[..0]) == first
  {}

  lemma OneMoreHappening(c: Connection, first: Time, run: seq<Happening>, threshold: int, i: nat)
    requires i < |run|
    ensures Overdue(c, first, run, threshold, i + 1)
       <==> Overdue(c, first, run, threshold, i)
            || (run[i].Cleanup? && run[i].at > LastSeen(c, first, run[..i]) + threshold)
    ensures LastSeen(c, first, run[..i + 1])
         == if run[i] == Activity(c, run[i].at) then run[i].at else LastSeen(c, first, run[..i])
  {
    assert run[..i + 1][..i] == run[..i];
    assert OverdueAt(c, first, run, threshold, i)
      <==> run[i].Cleanup? && run[i].at > LastSeen(c, first, run[..i]) + threshold;
    hide LastSeen;
  }
}
