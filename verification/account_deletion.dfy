/**
 Deleting a user account (internal/user/deletion_service.go): an ordered list of deletes in one
 transaction, and the preview that counts what they would delete. The user has no child users.
 */
module AccountDeletion {
  import opened Common

  type UserId = int
  type ChoreId = int
  type CircleId = int

  datatype Table =
    | MfaSessions
    | ApiTokens
    | PasswordResetTokens
    | NotificationTargets
    | Notifications
    | TimeSessions
    | ChoreHistory
    | ChoreAssignees
    | ChoreLabels
    | Subtasks
    | Chores
    | PointsHistory
    | StorageFiles
    | StorageUsage
    | UserCircles
    | Labels
    | Things

  const STEPS: seq<Table> :=
    [MfaSessions, ApiTokens, PasswordResetTokens, NotificationTargets, Notifications, TimeSessions, ChoreHistory,
     ChoreAssignees, ChoreLabels, Subtasks, Chores, PointsHistory, StorageFiles, StorageUsage, UserCircles,
     Labels, Things]

  /** `user` is the column the queries compare with the user: user_id, created_by, completed_by or
      updated_by; `chore` is the chore_id of the tables that have one. */
  datatype Row = Row(id: int, user: UserId, chore: ChoreId)

  /** A table may be missing; queries on it are taken to find nothing. */
  type Tables = map<Table, seq<Row>>

  datatype Database = Database(tables: Tables, users: set<UserId>, circles: map<CircleId, UserId>)

  datatype Transfer = Transfer(circle: CircleId, newOwner: UserId)

  datatype Result =
    | RequiresTransfer
    | Deleted(counts: map<Table, nat>, user: nat)
    | Failed

  // ---------- What a step selects ----------

  predicate ReadsChores(t: Table) {
    t in {TimeSessions, ChoreHistory, Subtasks}
  }

  predicate Available(tables: Tables, t: Table) {
    t in tables && (ReadsChores(t) ==> Chores in tables)
  }

  function Own(tables: Tables, u: UserId): set<ChoreId> {
    if Chores in tables then set row | row in tables[Chores] && row.user == u :: row.id else {}
  }

  predicate Selects(t: Table, own: set<ChoreId>, u: UserId, row: Row) {
    match t
    case TimeSessions => row.chore in own || row.user == u
    case ChoreHistory => row.user == u || row.chore in own
    case Subtasks => row.chore in own
    case _ => row.user == u
  }

  function Kept(rows: seq<Row>, t: Table, own: set<ChoreId>, u: UserId): (kept: seq<Row>)
    ensures forall row :: row in kept <==> row in rows && !Selects(t, own, u, row)
  {
    if rows == [] then []
    else Kept(rows[..|rows| - 1], t, own, u) + if Selects(t, own, u, rows[|rows| - 1]) then [] else [rows[|rows| - 1]]
  }

  function Count(rows: seq<Row>, t: Table, own: set<ChoreId>, u: UserId): (n: nat)
    ensures n + |Kept(rows, t, own, u)| == |rows|
  {
    if rows == [] then 0
    else Count(rows[..|rows| - 1], t, own, u) + if Selects(t, own, u, rows[|rows| - 1]) then 1 else 0
  }

  function Counted(tables: Tables, t: Table, u: UserId): nat {
    if Available(tables, t) then Count(tables[t], t, Own(tables, u), u) else 0
  }

  function Without(tables: Tables, t: Table, u: UserId): Tables {
    if Available(tables, t) then tables[t := Kept(tables[t], t, Own(tables, u), u)] else tables
  }

  /** The tables after the first `n` of `steps`. */
  function Walk(steps: seq<Table>, tables: Tables, u: UserId, n: nat): (left: Tables)
    requires n <= |steps|
    ensures left.Keys == tables.Keys
  {
    if n == 0 then tables else Without(Walk(steps, tables, u, n - 1), steps[n - 1], u)
  }

  /** The counts a run of the steps reports: the tables with something to report, each as it was found at
      its own step. */
  function Reported(steps: seq<Table>, tables: Tables, u: UserId, n: nat): map<Table, nat>
    requires n <= |steps|
  {
    if n == 0 then map[]
    else
      var count := Counted(Walk(steps, tables, u, n - 1), steps[n - 1], u);
      var before := Reported(steps, tables, u, n - 1);
      if count > 0 then before[steps[n - 1] := count] else before
  }

  /** The preview counts every step on the same tables. */
  function Previewed(steps: seq<Table>, tables: Tables, u: UserId, n: nat): map<Table, nat>
    requires n <= |steps|
  {
    if n == 0 then map[]
    else
      var count := Counted(tables, steps[n - 1], u);
      var before := Previewed(steps, tables, u, n - 1);
      if count > 0 then before[steps[n - 1] := count] else before
  }

  function Transferred(circles: map<CircleId, UserId>, transfers: seq<Transfer>): map<CircleId, UserId> {
    if transfers == [] then circles
    else
      var before, last := Transferred(circles, transfers[..|transfers| - 1]), transfers[|transfers| - 1];
      if last.circle in before then before[last.circle := last.newOwner] else before
  }

  predicate OwnsCircle(circles: map<CircleId, UserId>, u: UserId) {
    exists c :: c in circles && circles[c] == u
  }

  // ---------- The code ----------

  class DeletionService {
    var tables: Tables
    var users: set<UserId>
    var circles: map<CircleId, UserId>

    ghost function View(): Database
      reads this
    {
      Database(tables, users, circles)
    }

    constructor (tables: Tables, users: set<UserId>, circles: map<CircleId, UserId>)
      ensures View() == Database(tables, users, circles)
    {
      this.tables, this.users, this.circles := tables, users, circles;
    }

    method CountSteps(steps: seq<Table>, u: UserId, failing: Option<Table>) returns (counts: Option<map<Table, nat>>)
      ensures counts == if failing.Some? && failing.value in steps then None
                        else Some(Previewed(steps, tables, u, |steps|))
    {
      hide Counted;
      var counted: map<Table, nat> := map[];
      for i := 0 to |steps|
        invariant counted == Previewed(steps, tables, u, i)
        invariant failing.Some? ==> failing.value !in steps[..i]
      {
        if failing == Some(steps[i]) { return None; }
        var count := Counted(tables, steps[i], u);
        if count > 0 { counted := counted[steps[i] := count]; }
      }
      assert steps[..|steps|] == steps;
      counts := Some(counted);
    }

    /** The deletes, on the transaction's own view of the tables. */
    method DeleteSteps(steps: seq<Table>, u: UserId, failing: Option<Table>)
      returns (deleted: Option<(Tables, map<Table, nat>)>)
      ensures deleted == if failing.Some? && failing.value in steps then None
                         else Some((Walk(steps, tables, u, |steps|), Reported(steps, tables, u, |steps|)))
    {
      hide Counted, Without;
      var tx := tables;
      var counts: map<Table, nat> := map[];
      for i := 0 to |steps|
        invariant counts == Reported(steps, tables, u, i) && tx == Walk(steps, tables, u, i)
        invariant failing.Some? ==> failing.value !in steps[..i]
      {
        if failing == Some(steps[i]) { return None; }
        var count := Counted(tx, steps[i], u);
        tx := Without(tx, steps[i], u);
        if count > 0 { counts := counts[steps[i] := count]; }
      }
      assert steps[..|steps|] == steps;
      deleted := Some((tx, counts));
    }

    /** The dry run: counts, on the tables as they are. */
    method CheckUserAccountDeletion(u: UserId, failing: Option<Table>) returns (result: Result)
      ensures result ==
              if OwnsCircle(circles, u) then RequiresTransfer
              else if failing.Some? && failing.value in STEPS then Failed
              else Deleted(Previewed(STEPS, tables, u, |STEPS|), 1)
    {
      if OwnsCircle(circles, u) { return RequiresTransfer; }
      hide *;
      var counts := CountSteps(STEPS, u, failing);
      if counts.None? { return Failed; }
      result := Deleted(counts.value, 1);
    }

    /** Everything happens in one transaction: whatever fails, nothing is changed. */
    method DeleteUserAccount(u: UserId, transfers: seq<Transfer>, failing: Option<Table>, commits: bool)
      returns (result: Result)
      modifies this
      ensures OwnsCircle(old(circles), u) && transfers == [] ==> result == RequiresTransfer
      ensures (!(OwnsCircle(old(circles), u) && transfers == [])
               && ((failing.Some? && failing.value in STEPS) || !commits)) ==> result == Failed
      ensures result.Deleted? ==>
                && result == Deleted(Reported(STEPS, old(tables), u, |STEPS|), if u in old(users) then 1 else 0)
                && tables == Walk(STEPS, old(tables), u, |STEPS|) && users == old(users) - {u}
                && circles == (if OwnsCircle(old(circles), u) then Transferred(old(circles), transfers)
                               else old(circles))
      ensures !result.Deleted? ==> View() == old(View())
      ensures result.Deleted? <==>
              !(OwnsCircle(old(circles), u) && transfers == []) && !(failing.Some? && failing.value in STEPS) && commits
    {
      hide OwnsCircle, Walk, Reported, STEPS;
      if OwnsCircle(circles, u) && |transfers| == 0 { return RequiresTransfer; }
      var txCircles := circles;
      if OwnsCircle(circles, u) {
        for i := 0 to |transfers|
          invariant txCircles == Transferred(circles, transfers[..i])
        {
          assert transfers[..i + 1][..i] == transfers[..i];
          if transfers[i].circle in txCircles { txCircles := txCircles[transfers[i].circle := transfers[i].newOwner]; }
        }
        assert transfers[..|transfers|] == transfers;
      }
      var deleted := DeleteSteps(STEPS, u, failing);
      if deleted.None? { return Failed; }
      var userCount := if u in users then 1 else 0;
      if !commits { return Failed; }
      tables, users, circles := deleted.value.0, users - {u}, txCircles;
      result := Deleted(deleted.value.1, userCount);
    }
  }

  // ---------- The order of the steps ----------

  /** Each table has one step, and the tables whose rows are found through the user's chores come before
      the chores themselves. */
  predicate ReadersFirst(steps: seq<Table>) {
    && (forall i, j :: 0 <= i < j < |steps| ==> steps[i] != steps[j])
    && (forall i, j :: 0 <= i < j < |steps| && ReadsChores(steps[j]) ==> steps[i] != Chores)
  }

  function Place(t: Table): (i: nat)
    ensures i < |STEPS|
  {
    match t
    case MfaSessions => 0
    case ApiTokens => 1
    case PasswordResetTokens => 2
    case NotificationTargets => 3
    case Notifications => 4
    case TimeSessions => 5
    case ChoreHistory => 6
    case ChoreAssignees => 7
    case ChoreLabels => 8
    case Subtasks => 9
    case Chores => 10
    case PointsHistory => 11
    case StorageFiles => 12
    case StorageUsage => 13
    case UserCircles => 14
    case Labels => 15
    case Things => 16
  }

  lemma PlacedThere(t: Table)
    ensures STEPS[Place(t)] == t
  {}

  lemma PlaceOfStep(i: nat)
    requires i < |STEPS|
    ensures Place(STEPS[i]) == i
  {}

  /** The steps reach every table, each once, and the chores after every table found through them. */
  lemma StepsReadChoresFirst()
    ensures ReadersFirst(STEPS)
    ensures forall t: Table :: t in STEPS
  {
    forall t: Table ensures t in STEPS { PlacedThere(t); }
    forall i, j | 0 <= i < j < |STEPS|
      ensures STEPS[i] != STEPS[j] && (ReadsChores(STEPS[j]) ==> STEPS[i] != Chores)
    {
      hide STEPS, Place;
      PlaceOfStep(i);
      PlaceOfStep(j);
      ReadersPlaced(STEPS[j]);
    }
  }

  lemma ReadersPlaced(t: Table)
    ensures ReadsChores(t) ==> Place(t) < Place(Chores)
  {}

  lemma OwnChoresMatterForRow(t: Table, own: set<ChoreId>, now: set<ChoreId>, u: UserId, row: Row)
    requires !ReadsChores(t)
    ensures Selects(t, own, u, row) == Selects(t, now, u, row)
  {}

  lemma {:induction false} OwnChoresMatterOnlyToReaders(rows: seq<Row>, t: Table, own: set<ChoreId>, now: set<ChoreId>,
                                                        u: UserId)
    requires !ReadsChores(t)
    ensures Kept(rows, t, own, u) == Kept(rows, t, now, u) && Count(rows, t, own, u) == Count(rows, t, now, u)
  {
    hide Selects, ReadsChores;
    if rows == [] {
    } else {
      OwnChoresMatterOnlyToReaders(rows[..|rows| - 1], t, own, now, u);
      OwnChoresMatterForRow(t, own, now, u, rows[|rows| - 1]);
    }
  }

  /** A step does what it would have done at the start, if its table is still as it was then, and the
      chores are too or do not matter. */
  lemma StepAsAtStart(now: Tables, start: Tables, t: Table, u: UserId)
    requires now.Keys == start.Keys
    requires t in start ==> now[t] == start[t]
    requires ReadsChores(t) && Chores in start ==> now[Chores] == start[Chores]
    ensures Counted(now, t, u) == Counted(start, t, u)
    ensures Without(now, t, u) ==
            if Available(start, t) then now[t := Kept(start[t], t, Own(start, u), u)] else now
  {
    if t in start && !ReadsChores(t) {
      OwnChoresMatterOnlyToReaders(start[t], t, Own(start, u), Own(now, u), u);
    }
  }

  /** A table after its own step, said of the tables at the start. */
  function OwnStep(tables: Tables, t: Table, u: UserId): seq<Row>
    requires t in tables
  {
    if Available(tables, t) then Kept(tables[t], t, Own(tables, u), u) else tables[t]
  }

  lemma WithoutIsOwnStep(now: Tables, start: Tables, t: Table, u: UserId, k: Table)
    requires now.Keys == start.Keys && k in start
    requires t in start ==> now[t] == start[t]
    requires ReadsChores(t) && Chores in start ==> now[Chores] == start[Chores]
    ensures Without(now, t, u)[k] == if k == t then OwnStep(start, k, u) else now[k]
  {
    StepAsAtStart(now, start, t, u);
  }

  lemma WalkOneMore(steps: seq<Table>, tables: Tables, u: UserId, n: nat)
    requires n < |steps|
    ensures Walk(steps, tables, u, n + 1) == Without(Walk(steps, tables, u, n), steps[n], u)
  {}

  lemma NotYet(steps: seq<Table>, n: nat)
    requires ReadersFirst(steps) && n < |steps|
    ensures steps[n] !in steps[..n] && (ReadsChores(steps[n]) ==> Chores !in steps[..n])
    ensures steps[..n + 1] == steps[..n] + [steps[n]]
  {}

  /** Until its own step a table is as it was, and its own step does what it would have done at the start. */
  lemma {:induction false} WalkStepByStep(steps: seq<Table>, tables: Tables, u: UserId, n: nat, k: Table)
    requires ReadersFirst(steps) && n <= |steps| && k in tables
    ensures Walk(steps, tables, u, n)[k] == if k in steps[..n] then OwnStep(tables, k, u) else tables[k]
  {
    hide Walk, Without, OwnStep, ReadersFirst, ReadsChores;
    if n == 0 {
      WalkBegins(steps, tables, u);
    } else {
      var t, before := steps[n - 1], Walk(steps, tables, u, n - 1);
      NotYet(steps, n - 1);
      WalkStepByStep(steps, tables, u, n - 1, k);
      if t in tables { WalkStepByStep(steps, tables, u, n - 1, t); }
      if ReadsChores(t) && Chores in tables { WalkStepByStep(steps, tables, u, n - 1, Chores); }
      WalkOneMore(steps, tables, u, n - 1);
      WithoutIsOwnStep(before, tables, t, u, k);
    }
  }

  lemma WalkBegins(steps: seq<Table>, tables: Tables, u: UserId)
    ensures Walk(steps, tables, u, 0) == tables
  {}

  /** So each step finds to count what the preview found. */
  lemma {:induction false} ReportedAsPreviewed(steps: seq<Table>, tables: Tables, u: UserId, n: nat)
    requires ReadersFirst(steps) && n <= |steps|
    ensures Reported(steps, tables, u, n) == Previewed(steps, tables, u, n)
  {
    hide Counted, Walk, OwnStep, ReadersFirst, ReadsChores;
    if n == 0 {
    } else {
      var t := steps[n - 1];
      NotYet(steps, n - 1);
      ReportedAsPreviewed(steps, tables, u, n - 1);
      if t in tables { WalkStepByStep(steps, tables, u, n - 1, t); }
      if ReadsChores(t) && Chores in tables { WalkStepByStep(steps, tables, u, n - 1, Chores); }
      StepAsAtStart(Walk(steps, tables, u, n - 1), tables, t, u);
    }
  }

  lemma StepsAreIndependent(steps: seq<Table>, tables: Tables, u: UserId, n: nat)
    requires ReadersFirst(steps) && n <= |steps|
    ensures Walk(steps, tables, u, n).Keys == tables.Keys
    ensures forall t :: t in tables ==>
              Walk(steps, tables, u, n)[t] ==
              if t in steps[..n] && Available(tables, t) then Kept(tables[t], t, Own(tables, u), u) else tables[t]
    ensures Reported(steps, tables, u, n) == Previewed(steps, tables, u, n)
  {
    hide Walk, Reported, Previewed, Kept, Own, Available;
    ReportedAsPreviewed(steps, tables, u, n);
    forall t | t in tables
      ensures Walk(steps, tables, u, n)[t] ==
              if t in steps[..n] && Available(tables, t) then Kept(tables[t], t, Own(tables, u), u) else tables[t]
    {
      WalkStepByStep(steps, tables, u, n, t);
    }
  }

  function AfterDeletion(tables: Tables, u: UserId): Tables {
    Walk(STEPS, tables, u, |STEPS|)
  }

  /** What deletion leaves of each table, said of the tables it started from. */
  lemma WhatIsLeft(tables: Tables, u: UserId, t: Table)
    ensures t in AfterDeletion(tables, u) <==> t in tables
    ensures t in tables ==>
            AfterDeletion(tables, u)[t]
                == if Available(tables, t) then Kept(tables[t], t, Own(tables, u), u) else tables[t]
  {
    StepsReadChoresFirst();
    StepsAreIndependent(STEPS, tables, u, |STEPS|);
    assert STEPS[..|STEPS|] == STEPS;
  }

  /** The preview's counts are the counts deletion reports, and each is the number of rows the table loses. */
  lemma PreviewIsExact(tables: Tables, u: UserId)
    ensures Reported(STEPS, tables, u, |STEPS|) == Previewed(STEPS, tables, u, |STEPS|)
    ensures forall t :: t in Previewed(STEPS, tables, u, |STEPS|) <==>
        t in tables && |AfterDeletion(tables, u)[t]| < |tables[t]|
    ensures forall t :: t in Previewed(STEPS, tables, u, |STEPS|) ==>
              Previewed(STEPS, tables, u, |STEPS|)[t] + |AfterDeletion(tables, u)[t]| == |tables[t]|
  {
    StepsReadChoresFirst();
    StepsAreIndependent(STEPS, tables, u, |STEPS|);
    forall t: Table ensures t in Previewed(STEPS, tables, u, |STEPS|) <==> Counted(tables, t, u) > 0
      ensures t in Previewed(STEPS, tables, u, |STEPS|) ==>
          Previewed(STEPS, tables, u, |STEPS|)[t] == Counted(tables, t, u)
    {
      PreviewCounts(STEPS, tables, u, |STEPS|, t);
      assert STEPS[..|STEPS|] == STEPS;
    }
    forall t | t in tables ensures Counted(tables, t, u) + |AfterDeletion(tables, u)[t]| == |tables[t]| {
      WhatIsLeft(tables, u, t);
    }
  }

  lemma {:induction false} PreviewCounts(steps: seq<Table>, tables: Tables, u: UserId, n: nat, t: Table)
    requires n <= |steps|
    ensures t in Previewed(steps, tables, u, n) <==> t in steps[..n] && Counted(tables, t, u) > 0
    ensures t in Previewed(steps, tables, u, n) ==> Previewed(steps, tables, u, n)[t] == Counted(tables, t, u)
  {
    if n == 0 {
    } else {
      PreviewCounts(steps, tables, u, n - 1, t);
      assert steps[..n] == steps[..n - 1] + [steps[n - 1]];
    }
  }

  /** Only rows of the user go, except where a table is also reached through the user's chores. */
  lemma OthersKeepTheirRows(tables: Tables, u: UserId, t: Table, row: Row)
    requires t in tables && Chores in tables && row in tables[t]
    ensures row in AfterDeletion(tables, u)[t] <==>
            if t == Subtasks then row.chore !in Own(tables, u)
            else if ReadsChores(t) then row.user != u && row.chore !in Own(tables, u)
            else row.user != u
  {
    hide AfterDeletion, STEPS;
    WhatIsLeft(tables, u, t);
  }

  // ---------- References to chores ----------

  predicate ChoreExists(tables: Tables, c: ChoreId) {
    Chores in tables && exists row :: row in tables[Chores] && row.id == c
  }

  predicate RefersToChores(tables: Tables, t: Table) {
    t in tables ==> forall row :: row in tables[t] ==> ChoreExists(tables, row.chore)
  }

  lemma ChoreOfAnother(tables: Tables, u: UserId, c: ChoreId)
    requires ChoreExists(tables, c) && c !in Own(tables, u)
    ensures ChoreExists(AfterDeletion(tables, u), c)
  {
    hide AfterDeletion;
    WhatIsLeft(tables, u, Chores);
    var row :| row in tables[Chores] && row.id == c;
    assert row.user != u;
    assert row in AfterDeletion(tables, u)[Chores];
  }

  lemma OneRowAnId(rows: seq<Row>, a: Row, b: Row)
    requires forall i, j :: 0 <= i < j < |rows| ==> rows[i].id != rows[j].id
    requires a in rows && b in rows && a.id == b.id
    ensures a == b
  {
    var i :| 0 <= i < |rows| && rows[i] == a;
    var j :| 0 <= j < |rows| && rows[j] == b;
    assert !(i < j) && !(j < i);
  }

  lemma OwnChoreGone(tables: Tables, u: UserId, c: ChoreId)
    requires Chores in tables && c in Own(tables, u)
    requires forall i, j :: 0 <= i < j < |tables[Chores]| ==> tables[Chores][i].id != tables[Chores][j].id
    ensures !ChoreExists(AfterDeletion(tables, u), c)
  {
    hide AfterDeletion, Kept, Selects;
    WhatIsLeft(tables, u, Chores);
    var own :| own in tables[Chores] && own.user == u && own.id == c;
    forall row | row in AfterDeletion(tables, u)[Chores] ensures row.id != c {
      OthersKeepTheirRows(tables, u, Chores, row);
      if row.id == c { OneRowAnId(tables[Chores], row, own); }
    }
  }

  lemma ChoresLeft(tables: Tables, u: UserId, c: ChoreId)
    requires ChoreExists(tables, c)
    ensures c !in Own(tables, u) ==> ChoreExists(AfterDeletion(tables, u), c)
    ensures (forall i, j :: 0 <= i < j < |tables[Chores]| ==> tables[Chores][i].id != tables[Chores][j].id) ==>
              (ChoreExists(AfterDeletion(tables, u), c) <==> c !in Own(tables, u))
  {
    hide AfterDeletion, Own;
    if c !in Own(tables, u) {
      ChoreOfAnother(tables, u, c);
    } else if forall i, j :: 0 <= i < j < |tables[Chores]| ==> tables[Chores][i].id != tables[Chores][j].id {
      OwnChoreGone(tables, u, c);
    }
  }

  /** No subtask, time session or history row is left pointing at a deleted chore. */
  lemma NothingDangles(tables: Tables, u: UserId, t: Table)
    requires ReadsChores(t) && RefersToChores(tables, t)
    ensures RefersToChores(AfterDeletion(tables, u), t)
  {
    WhatIsLeft(tables, u, t);
    if t in tables {
      forall row | row in AfterDeletion(tables, u)[t] ensures ChoreExists(AfterDeletion(tables, u), row.chore) {
        assert row in tables[t];
        ChoresLeft(tables, u, row.chore);
      }
    }
  }

  /** Assignee and label rows go by their own user only: some are left pointing at a deleted chore exactly
      when somebody else's row is on one of the user's chores. */
  lemma AssigneesAndLabelsMayDangle(tables: Tables, u: UserId, t: Table)
    requires t in {ChoreAssignees, ChoreLabels} && t in tables && Chores in tables && RefersToChores(tables, t)
    requires forall i, j :: 0 <= i < j < |tables[Chores]| ==> tables[Chores][i].id != tables[Chores][j].id
    ensures RefersToChores(AfterDeletion(tables, u), t) <==>
            forall row :: row in tables[t] && row.user != u ==> row.chore !in Own(tables, u)
  {
    WhatIsLeft(tables, u, t);
    forall row | row in tables[t] && row.user != u
      ensures row in AfterDeletion(tables, u)[t]
      ensures ChoreExists(AfterDeletion(tables, u), row.chore) <==> row.chore !in Own(tables, u)
    {
      ChoresLeft(tables, u, row.chore);
    }
  }

  /** One of the user's chores, with somebody else's row on it. */
  function Example(t: Table, u: UserId): Tables
    requires t != Chores
  {
    map[Chores := [Row(1, u, 0)], t := [Row(2, u + 1, 1)]]
  }

  /** It happens: one row of somebody else's on one of the user's chores is left dangling. */
  lemma OneRowDangles(t: Table, u: UserId)
    requires t in {ChoreAssignees, ChoreLabels}
    ensures RefersToChores(Example(t, u), t) && !RefersToChores(AfterDeletion(Example(t, u), u), t)
  {
    hide AfterDeletion;
    var tables, chore, row := Example(t, u), Row(1, u, 0), Row(2, u + 1, 1);
    assert chore in tables[Chores] && row in tables[t];
    assert ChoreExists(tables, 1) && 1 in Own(tables, u);
    AssigneesAndLabelsMayDangle(tables, u, t);
  }

  // ---------- Why the order matters ----------

  lemma {:induction false} WalkShrinks(steps: seq<Table>, tables: Tables, u: UserId, m: nat, n: nat)
    requires m <= n <= |steps|
    ensures Walk(steps, tables, u, n).Keys == Walk(steps, tables, u, m).Keys
    ensures forall t, row :: t in Walk(steps, tables, u, m) && row in Walk(steps, tables, u, n)[t] ==>
        row in Walk(steps, tables, u, m)[t]
  {
    if m == n {
    } else {
      WalkShrinks(steps, tables, u, m, n - 1);
    }
  }

  lemma {:induction false} OwnStepReports(steps: seq<Table>, tables: Tables, u: UserId, n: nat, j: nat)
    requires j < |steps| && n <= |steps| && forall i, k :: 0 <= i < k < |steps| ==> steps[i] != steps[k]
    ensures steps[j] in Reported(steps, tables, u, n) <==> j < n && Counted(Walk(steps, tables, u, j), steps[j], u) > 0
  {
    hide Counted, Walk;
    if n == 0 {
    } else {
      OwnStepReports(steps, tables, u, n - 1, j);
      assert n - 1 != j ==> steps[n - 1] != steps[j];
    }
  }

  /** After the step on the chores, the user has none. */
  lemma NoChoresAfter(steps: seq<Table>, tables: Tables, u: UserId, i: nat, j: nat)
    requires i < j <= |steps| && steps[i] == Chores && Chores in tables
    ensures Own(Walk(steps, tables, u, j), u) == {}
  {
    var before, after := Walk(steps, tables, u, i), Walk(steps, tables, u, i + 1);
    assert after == Without(before, Chores, u);
    assert forall row: Row :: row in after[Chores] ==> row.user != u;
    WalkShrinks(steps, tables, u, i + 1, j);
  }

  lemma ExampleCounts(t: Table, u: UserId)
    requires ReadsChores(t)
    ensures Counted(Example(t, u), t, u) == 1
  {
    var tables := Example(t, u);
    assert Row(1, u, 0) in tables[Chores] && 1 in Own(tables, u);
    assert tables[t][..0] == [];
  }

  lemma OthersRowIsMissed(tables: Tables, t: Table, u: UserId)
    requires ReadsChores(t) && Own(tables, u) == {}
    requires t in tables ==> forall row :: row in tables[t] ==> row.user != u
    ensures Counted(tables, t, u) == 0
  {
    if Available(tables, t) { NothingSelected(tables[t], t, {}, u); }
  }

  lemma ChoresGoneFirst(steps: seq<Table>, u: UserId, i: nat, j: nat)
    requires i < j < |steps| && steps[i] == Chores && ReadsChores(steps[j])
    requires forall i, k :: 0 <= i < k < |steps| ==> steps[i] != steps[k]
    ensures Reported(steps, Example(steps[j], u), u, |steps|) != Previewed(steps, Example(steps[j], u), u, |steps|)
  {
    hide Counted, Own, Without, Reported, Previewed;
    var t, tables := steps[j], Example(steps[j], u);
    OwnStepReports(steps, tables, u, |steps|, j);
    NoChoresAfter(steps, tables, u, i, j);
    WalkShrinks(steps, tables, u, 0, j);
    OthersRowIsMissed(Walk(steps, tables, u, j), t, u);
    PreviewCounts(steps, tables, u, |steps|, t);
    assert steps[..|steps|] == steps;
    ExampleCounts(t, u);
  }

  lemma {:induction false} NothingSelected(rows: seq<Row>, t: Table, own: set<ChoreId>, u: UserId)
    requires forall row :: row in rows ==> !Selects(t, own, u, row)
    ensures Count(rows, t, own, u) == 0
  {
    if rows == [] {
    } else {
      NothingSelected(rows[..|rows| - 1], t, own, u);
    }
  }

  ghost predicate PreviewAgrees(steps: seq<Table>, tables: Tables, u: UserId) {
    Reported(steps, tables, u, |steps|) == Previewed(steps, tables, u, |steps|)
  }

  /** Among all orders of distinct steps, exactly those that take the chores after every table found
      through them make the preview agree with the deletion on all data. */
  lemma PreviewRestsOnTheOrder(steps: seq<Table>)
    requires forall i, j :: 0 <= i < j < |steps| ==> steps[i] != steps[j]
    ensures ReadersFirst(steps) <==> forall tables, u :: PreviewAgrees(steps, tables, u)
  {
    if ReadersFirst(steps) {
      forall tables, u ensures PreviewAgrees(steps, tables, u) { StepsAreIndependent(steps, tables, u, |steps|); }
    } else {
      var i, j :| 0 <= i < j < |steps| && ReadsChores(steps[j]) && steps[i] == Chores;
      ChoresGoneFirst(steps, 0, i, j);
      assert !PreviewAgrees(steps, Example(steps[j], 0), 0);
    }
  }

  // ---------- Circles ----------

  /** The owner a transfer list leaves a circle with is the one named last for it. */
  predicate NamedLast(transfers: seq<Transfer>, c: CircleId, owner: UserId) {
    exists i :: 0 <= i < |transfers| && transfers[i] == Transfer(c, owner)
                && forall j :: i < j < |transfers| ==> transfers[j].circle != c
  }

  predicate Mentioned(transfers: seq<Transfer>, c: CircleId) {
    exists i :: 0 <= i < |transfers| && transfers[i].circle == c
  }

  lemma {:induction false} LastTransferCounts(circles: map<CircleId, UserId>, transfers: seq<Transfer>, c: CircleId,
                                              owner: UserId)
    requires c in circles
    ensures Transferred(circles, transfers).Keys == circles.Keys
    ensures Transferred(circles, transfers)[c] == owner <==>
            NamedLast(transfers, c, owner) || (!Mentioned(transfers, c) && circles[c] == owner)
  {
    if transfers == [] {
    } else {
      var before, last := transfers[..|transfers| - 1], transfers[|transfers| - 1];
      LastTransferCounts(circles, before, c, owner);
      if last.circle == c {
        assert transfers[|transfers| - 1].circle == c;
      } else {
        assert Mentioned(before, c) <==> Mentioned(transfers, c);
        assert NamedLast(before, c, owner) <==> NamedLast(transfers, c, owner);
      }
    }
  }

  /** A deleted user still owns a circle exactly when the transfer list leaves one out, or hands one back:
      the list is not checked against the circles owned. */
  lemma CirclesLeftBehind(circles: map<CircleId, UserId>, transfers: seq<Transfer>, u: UserId)
    ensures OwnsCircle(Transferred(circles, transfers), u) <==>
            exists c :: c in circles && (NamedLast(transfers, c, u) || (!Mentioned(transfers, c) && circles[c] == u))
  {
    forall c | c in circles
      ensures Transferred(circles, transfers).Keys == circles.Keys
      ensures Transferred(circles, transfers)[c] == u <==>
          NamedLast(transfers, c, u) || (!Mentioned(transfers, c) && circles[c] == u)
    {
      LastTransferCounts(circles, transfers, c, u);
    }
    TransferKeepsKeys(circles, transfers);
  }

  /** It happens: of two circles one is handed over and the other left out. */
  lemma OneCircleLeftOut(u: UserId, c: CircleId, d: CircleId, newOwner: UserId)
    requires c != d && newOwner != u
    ensures OwnsCircle(Transferred(map[c := u, d := u], [Transfer(c, newOwner)]), u)
  {
    var circles, transfers := map[c := u, d := u], [Transfer(c, newOwner)];
    assert d in circles && !Mentioned(transfers, d) && circles[d] == u;
    CirclesLeftBehind(circles, transfers, u);
  }

  /** Only the user's own circles change hands exactly if no circle of anybody else is named last for
      another owner than it has: the list may name any circle. */
  lemma WhoseCirclesChangeHands(circles: map<CircleId, UserId>, transfers: seq<Transfer>, u: UserId)
    ensures Transferred(circles, transfers).Keys == circles.Keys
    ensures (forall c :: c in circles && circles[c] != u ==> Transferred(circles, transfers)[c] == circles[c])
       <==> (forall c, owner :: c in circles && NamedLast(transfers, c, owner) && owner != circles[c] ==>
               circles[c] == u)
  {
    TransferKeepsKeys(circles, transfers);
    forall c, owner | c in circles && NamedLast(transfers, c, owner)
      ensures Transferred(circles, transfers)[c] == owner
    {
      LastTransferCounts(circles, transfers, c, owner);
    }
    forall c | c in circles && Transferred(circles, transfers)[c] != circles[c]
      ensures NamedLast(transfers, c, Transferred(circles, transfers)[c])
    {
      LastTransferCounts(circles, transfers, c, Transferred(circles, transfers)[c]);
    }
  }

  /** It happens: a list that names a circle of somebody else's hands it over. */
  lemma AnothersCircleTaken(u: UserId, other: UserId, c: CircleId)
    requires other != u
    ensures Transferred(map[c := other], [Transfer(c, u)]) == map[c := u]
  {
    var circles, transfers := map[c := other], [Transfer(c, u)];
    assert transfers[0] == Transfer(c, u);
    assert NamedLast(transfers, c, u);
    LastTransferCounts(circles, transfers, c, u);
  }

  lemma {:induction false} TransferKeepsKeys(circles: map<CircleId, UserId>, transfers: seq<Transfer>)
    ensures Transferred(circles, transfers).Keys == circles.Keys
  {
    if transfers == [] {
    } else {
      TransferKeepsKeys(circles, transfers[..|transfers| - 1]);
    }
  }
}
