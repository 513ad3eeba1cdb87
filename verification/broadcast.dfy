/**
 A pool's broadcast and its cleanup with other threads at work (internal/realtime/pool.go, Broadcast and
 CleanupStaleConnections). Both collect connections under the pool's lock and deal with them one by one
 after it is released; before each, other threads may take any steps on any connections and on the pool.
 */
module Broadcasting {
  import opened Connections
  import opened Pools

  /** A step some other thread takes: on a connection, or on the pool. A connection arrives under a fresh id;
      another broadcast counts a message. */
  datatype Turn =
    | Acts(conn: Connection, action: Action)
    | Arrives(conn: Connection)
    | Departs(conn: Connection)
    | Counts

  /** What the turns do to one connection. */
  ghost function On(c: Connection, turns: seq<Turn>): seq<Action> {
    if turns == [] then []
    else
      var before, last := turns[..|turns| - 1], turns[|turns| - 1];
      On(c, before) + if last.Acts? && last.conn == c then [last.action] else []
  }

  ghost function Counted(turns: seq<Turn>): nat {
    if turns == [] then 0 else Counted(turns[..|turns| - 1]) + if turns[|turns| - 1].Counts? then 1 else 0
  }

  ghost function AllCounted(others: seq<seq<Turn>>, n: nat): nat
    requires n <= |others|
  {
    if n == 0 then 0 else AllCounted(others, n - 1) + Counted(others[n - 1])
  }

  /** The steps one connection takes during the first `n` turns of the loop: before each the other threads'
      turns, and then, if it is its own, the loop's step. */
  ghost function Interleaved(c: Connection, order: seq<Connection>, own: Action, others: seq<seq<Turn>>,
                             n: nat): seq<Action>
    requires n <= |order| <= |others|
  {
    if n == 0 then []
    else
      Interleaved(c, order, own, others, n - 1) + On(c, others[n - 1]) + if order[n - 1] == c then [own] else []
  }

  /** The turns touch these connections only. */
  ghost predicate Within(conns: set<Connection>, turns: seq<Turn>) {
    forall t :: t in turns && (t.Acts? || t.Arrives?) ==> t.conn in conns
  }

  /** Connection ids name one connection, so a turn that would contradict that does not come. */
  method Perform(pool: ConnectionPool, t: Turn)
    requires pool.Valid() && (t.Acts? ==> t.conn.Valid())
    modifies pool, if t.Acts? then {t.conn} else {}
    ensures pool.Valid() && pool.totalMessages == old(pool.totalMessages) + if t.Counts? then 1 else 0
    ensures t.Acts? ==> t.conn.Valid() && t.conn.log == old(t.conn.log) + [t.action]
    ensures forall c :: c in pool.Members() ==> c in old(pool.Members()) || t == Arrives(c)
    ensures forall c :: c in old(pool.Members()) ==> c in pool.Members() || t == Departs(c)
  {
    match t {
      case Acts(conn, action) => Act(conn, action);
      case Arrives(conn) =>
        if conn.ID !in pool.connections { var r := pool.AddConnection(conn); }
      case Departs(conn) =>
        if conn.ID in pool.connections ==> pool.connections[conn.ID] == conn { pool.RemoveConnection(conn); }
      case Counts => pool.totalMessages := pool.totalMessages + 1;
    }
  }

  method Act(conn: Connection, action: Action)
    requires conn.Valid()
    modifies conn
    ensures conn.Valid() && conn.log == old(conn.log) + [action]
  {
    match action {
      case Send(e) => var sent := conn.SendEvent(e);
      case Close => conn.Close();
      case Receive => var e, done := conn.Receive();
    }
  }

  method PerformAll(pool: ConnectionPool, turns: seq<Turn>, ghost conns: set<Connection>)
    requires pool.Valid() && Within(conns, turns) && forall c :: c in conns ==> c.Valid()
    modifies pool, conns
    ensures pool.Valid() && pool.totalMessages == old(pool.totalMessages) + Counted(turns)
    ensures forall c :: c in conns ==> c.Valid() && c.log == old(c.log) + On(c, turns)
    ensures forall c :: c in pool.Members() ==> c in old(pool.Members()) || Arrives(c) in turns
    ensures forall c :: c in old(pool.Members()) ==> c in pool.Members() || Departs(c) in turns
  {
    hide Connection.Valid, ConnectionPool.Valid;
    for i := 0 to |turns|
      invariant pool.Valid() && pool.totalMessages == old(pool.totalMessages) + Counted(turns[..i])
      invariant forall c :: c in conns ==> c.Valid() && c.log == old(c.log) + On(c, turns[..i])
      invariant forall c :: c in pool.Members() ==> c in old(pool.Members()) || Arrives(c) in turns
      invariant forall c :: c in old(pool.Members()) ==> c in pool.Members() || Departs(c) in turns
    {
      label before:
      assert turns[i] in turns;
      Perform(pool, turns[i]);
      OneMoreTurn(turns, i);
      forall c | c in conns ensures c.Valid() && c.log == old(c.log) + On(c, turns[..i + 1]) {
        OneMoreTurnOn(c, turns, i);
        assert !(turns[i].Acts? && turns[i].conn == c) ==> unchanged@before(c);
      }
    }
    assert turns[..|turns|] == turns;
  }

  lemma OneMoreTurn(turns: seq<Turn>, i: nat)
    requires i < |turns|
    ensures Counted(turns[..i + 1]) == Counted(turns[..i]) + if turns[i].Counts? then 1 else 0
  {
    assert turns[..i + 1][..i] == turns[..i];
  }

  lemma OneMoreTurnOn(c: Connection, turns: seq<Turn>, i: nat)
    requires i < |turns|
    ensures On(c, turns[..i + 1])
         == On(c, turns[..i]) + if turns[i].Acts? && turns[i].conn == c then [turns[i].action] else []
  {
    assert turns[..i + 1][..i] == turns[..i];
  }

  // ---------- Broadcast ----------

  /** Whether the i-th connection has room when its turn comes, told from its steps until then. */
  ghost predicate Reached(i: nat, order: seq<Connection>, logs: map<Connection, seq<Action>>, e: Event,
                          others: seq<seq<Turn>>)
    requires i < |order| <= |others| && order[i] in logs
  {
    var c := order[i];
    Roomy(Run(INITIAL, logs[c] + Interleaved(c, order, Send(e), others, i) + On(c, others[i])))
  }

  ghost function Accepting(n: nat, order: seq<Connection>, logs: map<Connection, seq<Action>>, e: Event,
                           others: seq<seq<Turn>>): nat
    requires n <= |order| <= |others| && forall c :: c in order ==> c in logs
  {
    if n == 0 then 0
    else Accepting(n - 1, order, logs, e, others) + if Reached(n - 1, order, logs, e, others) then 1 else 0
  }

  /** One send, after the turns the others take first. */
  method SendNext(pool: ConnectionPool, conn: Connection, e: Event, turns: seq<Turn>, ghost conns: set<Connection>)
    returns (ghost sent: bool)
    requires pool.Valid() && conn in conns && Within(conns, turns) && forall c :: c in conns ==> c.Valid()
    modifies pool, conns
    ensures pool.Valid()
    ensures forall c :: c in conns ==>
              c.Valid() && c.log == old(c.log) + On(c, turns) + if c == conn then [Send(e)] else []
    ensures sent == Roomy(Run(INITIAL, old(conn.log) + On(conn, turns)))
    ensures pool.totalMessages == old(pool.totalMessages) + Counted(turns) + if sent then 1 else 0
  {
    hide Connection.Valid, ConnectionPool.Valid, Run, Roomy, On, Counted;
    PerformAll(pool, turns, conns);
    label before:
    ViewOfLog(conn);
    var ok := conn.SendEvent(e);
    sent := ok;
    if ok { pool.totalMessages := pool.totalMessages + 1; }
    forall c | c in conns
      ensures c.Valid() && c.log == old(c.log) + On(c, turns) + if c == conn then [Send(e)] else []
    {
      assert c != conn ==> unchanged@before(c);
    }
  }

  /** Whatever the other threads do in between: every connection takes the others' steps and, if it was
      collected, one send, at its place among them; and the message counter grows by the sends accepted and
      the others' own. */
  method SendAmong(pool: ConnectionPool, order: seq<Connection>, e: Event, others: seq<seq<Turn>>,
                   ghost conns: set<Connection>, ghost logs: map<Connection, seq<Action>>)
    requires |order| <= |others| && pool.Valid()
    requires logs.Keys == conns && forall c :: c in conns ==> logs[c] == c.log
    requires forall c :: c in order ==> c in conns
    requires forall i :: 0 <= i < |others| ==> Within(conns, others[i])
    requires forall c :: c in conns ==> c.Valid()
    modifies pool, conns
    ensures pool.Valid()
    ensures forall c :: c in conns ==> c.Valid() && c.log == logs[c] + Interleaved(c, order, Send(e), others, |order|)
    ensures pool.totalMessages == old(pool.totalMessages) + AllCounted(others, |order|)
                                  + Accepting(|order|, order, logs, e, others)
  {
    hide *;
    NothingYet(conns, order, logs, e, others);
    for i := 0 to |order|
      invariant pool.Valid()
      invariant forall c :: c in conns ==> c.Valid() && c.log == logs[c] + Interleaved(c, order, Send(e), others, i)
      invariant pool.totalMessages
             == old(pool.totalMessages) + AllCounted(others, i) + Accepting(i, order, logs, e, others)
    {
      ghost var was := logs[order[i]] + Interleaved(order[i], order, Send(e), others, i);
      ghost var sent := SendNext(pool, order[i], e, others[i], conns);
      assert sent == Roomy(Run(INITIAL, was + On(order[i], others[i])));
      AcceptingNext(i, order, logs, e, others);
      forall c | c in conns ensures c.log == logs[c] + Interleaved(c, order, Send(e), others, i + 1) {
        InterleavedNext(logs[c], c, order, Send(e), others, i);
      }
    }
  }

  lemma NothingYet(conns: set<Connection>, order: seq<Connection>, logs: map<Connection, seq<Action>>, e: Event,
                   others: seq<seq<Turn>>)
    requires |order| <= |others| && logs.Keys == conns && forall c :: c in order ==> c in conns
    ensures Accepting(0, order, logs, e, others) == AllCounted(others, 0) == 0
    ensures forall c, own :: c in conns ==> logs[c] + Interleaved(c, order, own, others, 0) == logs[c]
  {}

  lemma InterleavedNext(log: seq<Action>, c: Connection, order: seq<Connection>, own: Action,
                        others: seq<seq<Turn>>, i: nat)
    requires i < |order| <= |others|
    ensures log + Interleaved(c, order, own, others, i) + On(c, others[i]) + (if order[i] == c then [own] else [])
         == log + Interleaved(c, order, own, others, i + 1)
  {}

  lemma AcceptingNext(i: nat, order: seq<Connection>, logs: map<Connection, seq<Action>>, e: Event,
                      others: seq<seq<Turn>>)
    requires i < |order| <= |others| && forall c :: c in order ==> c in logs
    ensures var c := order[i];
            Accepting(i + 1, order, logs, e, others)
            == Accepting(i, order, logs, e, others)
               + if Roomy(Run(INITIAL, logs[c] + Interleaved(c, order, Send(e), others, i) + On(c, others[i])))
                 then 1 else 0
    ensures AllCounted(others, i + 1) == AllCounted(others, i) + Counted(others[i])
  {}

  lemma ViewOfLog(c: Connection)
    requires c.Valid()
    ensures c.View() == Run(INITIAL, c.log)
  {}

  /** The members a filter selects, in the order they are visited. */
  method Collected(pool: ConnectionPool, f: Filter) returns (order: seq<Connection>)
    ensures forall c :: c in order <==> c in pool.Members() && Selects(f, c)
    ensures forall i, j :: 0 <= i < j < |order| ==> order[i] != order[j]
    ensures |order| <= |pool.Members()|
  {
    var left := pool.Select(f);
    ghost var all := left;
    order := [];
    while left != {}
      invariant forall c :: c in all <==> c in left || c in order
      invariant forall c :: c in order ==> c !in left
      invariant forall i, j :: 0 <= i < j < |order| ==> order[i] != order[j]
      decreases left
    {
      var conn :| conn in left;
      left := left - {conn};
      order := order + [conn];
    }
    FitsIn(order, pool.Members());
  }

  method Broadcast(pool: ConnectionPool, e: Event, others: seq<seq<Turn>>, ghost conns: set<Connection>)
    returns (order: seq<Connection>, ghost logs: map<Connection, seq<Action>>)
    requires pool.Valid() && |pool.Members()| <= |others| && pool.Members() <= conns
    requires forall i :: 0 <= i < |others| ==> Within(conns, others[i])
    requires forall c :: c in conns ==> c.Valid()
    modifies pool, conns
    ensures pool.Valid() && |order| <= |others| && logs == map c | c in conns :: old(c.log)
    ensures forall c :: c in order <==> c in old(pool.Members()) && !old(c.closed)
    ensures forall i, j :: 0 <= i < j < |order| ==> order[i] != order[j]
    ensures forall c :: c in conns ==>
              c.Valid() && c.log == old(c.log) + Interleaved(c, order, Send(e), others, |order|)
    ensures pool.totalMessages == old(pool.totalMessages) + AllCounted(others, |order|)
                                  + Accepting(|order|, order, logs, e, others)
  {
    hide Connection.Valid, ConnectionPool.Valid, Run, Roomy, On, Interleaved, Accepting, AllCounted;
    logs := map c | c in conns :: c.log;
    order := Collected(pool, Open);
    SendAmong(pool, order, e, others, conns, logs);
  }

  lemma {:induction false} FitsIn(order: seq<Connection>, members: set<Connection>)
    requires forall i, j :: 0 <= i < j < |order| ==> order[i] != order[j]
    requires forall c :: c in order ==> c in members
    ensures |order| <= |members|
  {
    if order == [] {
    } else {
      var rest, last := order[..|order| - 1], order[|order| - 1];
      assert last in order;
      FitsIn(rest, members - {last});
    }
  }

  // ---------- Cleanup ----------

  /** Connection ids name one connection. */
  ghost predicate NamesOne(conns: set<Connection>) {
    forall c, d :: c in conns && d in conns && c.ID == d.ID ==> c == d
  }

  lemma SameUnderItsId(pool: ConnectionPool, conn: Connection, conns: set<Connection>)
    requires pool.Valid() && pool.Members() <= conns && conn in conns && NamesOne(conns)
    ensures conn.ID in pool.connections ==> pool.connections[conn.ID] == conn
    ensures conn in pool.Members() ==> conn.ID in pool.connections
  {
    if conn in pool.Members() { MemberById(pool.connections, pool.userConns, conn); }
    if conn.ID in pool.connections {
      IdsMatch(pool.connections, pool.userConns);
      assert pool.connections[conn.ID] in pool.Members();
    }
  }

  /** One stale connection, after the turns the others take first. */
  method DropNext(pool: ConnectionPool, conn: Connection, turns: seq<Turn>, ghost conns: set<Connection>)
    requires pool.Valid() && pool.Members() <= conns && conn in conns && NamesOne(conns)
    requires Within(conns, turns) && forall c :: c in conns ==> c.Valid()
    modifies pool, conns
    ensures pool.Valid() && pool.Members() <= conns && conn !in pool.Members()
    ensures forall c :: c in conns ==>
              c.Valid() && c.log == old(c.log) + On(c, turns) + if c == conn then [Action.Close] else []
    ensures forall c :: c in pool.Members() ==> c in old(pool.Members()) || Arrives(c) in turns
    ensures forall c :: c in old(pool.Members()) && c != conn ==> c in pool.Members() || Departs(c) in turns
  {
    hide Connection.Valid, ConnectionPool.Valid, On;
    PerformAll(pool, turns, conns);
    label before:
    SameUnderItsId(pool, conn, conns);
    conn.Close();
    pool.RemoveConnection(conn);
    forall c | c in conns
      ensures c.Valid() && c.log == old(c.log) + On(c, turns) + if c == conn then [Action.Close] else []
    {
      assert c != conn ==> unchanged@before(c);
    }
  }

  /** The turn is among the first `n` turns of the others. */
  ghost predicate Among(t: Turn, others: seq<seq<Turn>>, n: nat)
    requires n <= |others|
  {
    exists i :: 0 <= i < n && t in others[i]
  }

  /** Whatever the other threads do in between: every stale member is closed once and out of the pool at the
      end, and no other member leaves it but by a turn of its own. Connections arrive that are not members yet. */
  method CleanupStaleConnections(pool: ConnectionPool, threshold: int, now: Time, others: seq<seq<Turn>>,
                                 ghost conns: set<Connection>)
    returns (order: seq<Connection>)
    requires pool.Valid() && |pool.Members()| <= |others| && pool.Members() <= conns && NamesOne(conns)
    requires forall i :: 0 <= i < |others| ==> Within(conns, others[i])
    requires forall c :: Among(Arrives(c), others, |others|) ==> c !in pool.Members()
    requires forall c :: c in conns ==> c.Valid()
    modifies pool, conns
    ensures pool.Valid() && |order| <= |others|
    ensures forall c :: c in order <==> c in old(pool.Members()) && now - old(c.lastActivity) > threshold
    ensures forall i, j :: 0 <= i < j < |order| ==> order[i] != order[j]
    ensures forall c :: c in conns ==>
              c.Valid() && c.log == old(c.log) + Interleaved(c, order, Action.Close, others, |order|)
    ensures forall c :: c in order ==> c !in pool.Members()
    ensures forall c :: c in pool.Members() ==> c in old(pool.Members()) || Among(Arrives(c), others, |order|)
    ensures forall c :: c in old(pool.Members()) && c !in order ==>
              c in pool.Members() || Among(Departs(c), others, |order|)
  {
    hide Connection.Valid, ConnectionPool.Valid, On, Interleaved, Among, NamesOne, Within;
    order := Collected(pool, Stale(threshold, now));
    DropAll(pool, order, others, conns);
  }

  method DropAll(pool: ConnectionPool, order: seq<Connection>, others: seq<seq<Turn>>, ghost conns: set<Connection>)
    requires pool.Valid() && |order| <= |others| && pool.Members() <= conns && NamesOne(conns)
    requires forall i :: 0 <= i < |others| ==> Within(conns, others[i])
    requires forall c :: c in order ==> c in pool.Members() && !Among(Arrives(c), others, |others|)
    requires forall c :: c in conns ==> c.Valid()
    modifies pool, conns
    ensures pool.Valid()
    ensures forall c :: c in conns ==>
              c.Valid() && c.log == old(c.log) + Interleaved(c, order, Action.Close, others, |order|)
    ensures forall c :: c in order ==> c !in pool.Members()
    ensures forall c :: c in pool.Members() ==> c in old(pool.Members()) || Among(Arrives(c), others, |order|)
    ensures forall c :: c in old(pool.Members()) && c !in order ==>
              c in pool.Members() || Among(Departs(c), others, |order|)
  {
    hide *;
    ghost var was := pool.Members();
    NoneYet(conns, order, others);
    for i := 0 to |order|
      invariant pool.Valid() && pool.Members() <= conns
      invariant forall c :: c in conns ==>
                  c.Valid() && c.log == old(c.log) + Interleaved(c, order, Action.Close, others, i)
      invariant forall j :: 0 <= j < i ==> order[j] !in pool.Members()
      invariant forall c :: c in pool.Members() ==> c in was || Among(Arrives(c), others, i)
      invariant forall c :: c in was && c !in order ==> c in pool.Members() || Among(Departs(c), others, i)
    {
      DropNext(pool, order[i], others[i], conns);
      forall c | c in conns ensures c.log == old(c.log) + Interleaved(c, order, Action.Close, others, i + 1) {
        InterleavedNext(old(c.log), c, order, Action.Close, others, i);
      }
      forall t: Turn ensures Among(t, others, i + 1) <==> Among(t, others, i) || t in others[i] {
        AmongNext(t, others, i);
      }
      forall t: Turn ensures Among(t, others, i + 1) ==> Among(t, others, |others|) {
        AmongAll(t, others, i + 1);
      }
    }
  }

  lemma AmongNext(t: Turn, others: seq<seq<Turn>>, i: nat)
    requires i < |others|
    ensures Among(t, others, i + 1) <==> Among(t, others, i) || t in others[i]
  {}

  lemma AmongAll(t: Turn, others: seq<seq<Turn>>, i: nat)
    requires i <= |others|
    ensures Among(t, others, i) ==> Among(t, others, |others|)
  {}

  lemma NoneYet(conns: set<Connection>, order: seq<Connection>, others: seq<seq<Turn>>)
    requires |order| <= |others|
    ensures forall c, own :: c in conns ==> Interleaved(c, order, own, others, 0) == []
  {}

  // ---------- Once each ----------

  /** All the others' turns on one connection. */
  ghost function Others(c: Connection, others: seq<seq<Turn>>, n: nat): seq<Action>
    requires n <= |others|
  {
    if n == 0 then [] else Others(c, others, n - 1) + On(c, others[n - 1])
  }

  /** The steps are the others' with one of the loop's own among them. */
  ghost predicate OneAmong(steps: seq<Action>, others: seq<Action>, own: Action) {
    exists k :: 0 <= k <= |others| && steps == others[..k] + [own] + others[k..]
  }

  lemma OneAmongMore(steps: seq<Action>, others: seq<Action>, more: seq<Action>, own: Action)
    requires OneAmong(steps, others, own)
    ensures OneAmong(steps + more, others + more, own)
  {
    var k :| 0 <= k <= |others| && steps == others[..k] + [own] + others[k..];
    assert (others + more)[..k] == others[..k] && (others + more)[k..] == others[k..] + more;
    assert steps + more == (others + more)[..k] + [own] + (others + more)[k..];
  }

  lemma OneAtTheEnd(all: seq<Action>, own: Action)
    ensures OneAmong(all + [own], all, own)
  {
    assert all[..|all|] + [own] + all[|all|..] == all + [own];
  }

  /** Exactly once: the steps of a collected connection are the others' with one send, or one close, among
      them. */
  lemma {:induction false} OneStepEach(c: Connection, order: seq<Connection>, own: Action, others: seq<seq<Turn>>,
                                       n: nat, i: nat)
    requires n <= |order| <= |others| && i < |order| && order[i] == c
    requires forall j, k :: 0 <= j < k < |order| ==> order[j] != order[k]
    ensures if n <= i then Interleaved(c, order, own, others, n) == Others(c, others, n)
            else OneAmong(Interleaved(c, order, own, others, n), Others(c, others, n), own)
  {
    hide OneAmong, On;
    if n == 0 {
    } else {
      OneStepEach(c, order, own, others, n - 1, i);
      var steps, all, more := Interleaved(c, order, own, others, n - 1), Others(c, others, n - 1), On(c, others[n - 1]);
      assert Others(c, others, n) == all + more;
      if n - 1 == i {
        OneAtTheEnd(all + more, own);
      } else {
        assert order[n - 1] != c;
        assert Interleaved(c, order, own, others, n) == steps + more + [] == steps + more;
        if n - 1 > i { OneAmongMore(steps, all, more, own); }
      }
    }
  }

  /** On any other connection the steps are the others' alone. */
  lemma {:induction false} NoStepElsewhere(c: Connection, order: seq<Connection>, own: Action,
                                           others: seq<seq<Turn>>, n: nat)
    requires n <= |order| <= |others| && c !in order
    ensures Interleaved(c, order, own, others, n) == Others(c, others, n)
  {
    if n == 0 {
    } else {
      NoStepElsewhere(c, order, own, others, n - 1);
      assert order[n - 1] in order;
    }
  }

  /** A close among a connection's steps leaves it closed, whatever comes after. */
  lemma {:induction false} ClosedByClose(actions: seq<Action>)
    requires Action.Close in actions
    ensures Run(INITIAL, actions).closed
  {
    hide Run;
    var before, last := actions[..|actions| - 1], actions[|actions| - 1];
    LastStep(actions);
    if last != Action.Close {
      ClosedByClose(before);
      NeverPanics(before);
      StepSound(Run(INITIAL, before), last);
    }
  }

  lemma LastStep(actions: seq<Action>)
    requires actions != []
    ensures var before, last := actions[..|actions| - 1], actions[|actions| - 1];
            Run(INITIAL, actions) == Step(Run(INITIAL, before), last)
  {}

  /** So every stale connection that was collected is closed in the end. */
  lemma DroppedIsClosed(c: Connection, log: seq<Action>, order: seq<Connection>, others: seq<seq<Turn>>, i: nat)
    requires |order| <= |others| && i < |order| && order[i] == c
    requires forall j, k :: 0 <= j < k < |order| ==> order[j] != order[k]
    ensures Run(INITIAL, log + Interleaved(c, order, Action.Close, others, |order|)).closed
  {
    hide Run, Interleaved, Others, On;
    var n := |order|;
    OneStepEach(c, order, Action.Close, others, n, i);
    var steps, all := Interleaved(c, order, Action.Close, others, n), Others(c, others, n);
    var k :| 0 <= k <= |all| && steps == all[..k] + [Action.Close] + all[k..];
    assert steps[k] == Action.Close && steps[k] in log + steps;
    ClosedByClose(log + steps);
  }
}
