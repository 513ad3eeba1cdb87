/**
 The hourly job that records missed periods of overdue recurring chores and moves their due date on
 (internal/notifier/scheduler.go, missOverdueChoresJob). The next-date computation is arbitrary, and
 so are the clock and every failure: each turn of a chore's loop meets a `Turn` of its own.
 */
module MissedChores {
  import opened Common

  type Time = int
  type ChoreId = int

  const MAX_MISSED_PER_CHORE: nat := 30
  const DAY: Time := 86_400_000_000_000

  datatype NextDate = Error | Never | At(time: Time)

  /** What one turn meets: the clock, the next-date computation, and whether recording succeeds. */
  datatype Turn = Turn(now: Time, next: Time -> NextDate, recorded: bool)

  /** One run of the job as one chore sees it: the time of the query for overdue chores, and a turn for
      each time round the loop. */
  datatype JobRun = JobRun(asked: Time, turns: seq<Turn>)

  /** A chore's due date, and the due dates its history records as missed. */
  datatype Row = Row(due: Option<Time>, missed: seq<Time>)

  datatype Stop = NotSelected | NotPast | ScheduleError | RecordError | Cap

  // ---------- Specification ----------

  predicate IsPast(row: Row, now: Time) {
    row.due.Some? && row.due.value < now
  }

  /** A date that does not move forward is replaced by a day later. */
  function Advanced(due: Time, next: NextDate): (t: Time)
    ensures t > due
  {
    if next.At? && next.time > due then next.time else due + DAY
  }

  /** The row after the first `n` turns, and what stopped the loop, if anything did. */
  function Turned(row: Row, turns: seq<Turn>, n: nat): (Row, Option<Stop>)
    requires n <= |turns|
  {
    if n == 0 then (row, None)
    else
      var (r, stop) := Turned(row, turns, n - 1);
      var turn := turns[n - 1];
      if stop.Some? then (r, stop)
      else if !IsPast(r, turn.now) then (r, Some(NotPast))
      else if turn.next(r.due.value).Error? then (r, Some(ScheduleError))
      else if !turn.recorded then (r, Some(RecordError))
      else (Row(Some(Advanced(r.due.value, turn.next(r.due.value))), r.missed + [r.due.value]), None)
  }

  function RowAfter(row: Row, run: JobRun): Row {
    if IsPast(row, run.asked) then Turned(row, run.turns, |run.turns|).0 else row
  }

  function StopOf(row: Row, run: JobRun): Stop {
    if !IsPast(row, run.asked) then NotSelected
    else
      var stop := Turned(row, run.turns, |run.turns|).1;
      if stop.Some? then stop.value else Cap
  }

  // ---------- The job ----------

  class Scheduler {
    var rows: map<ChoreId, Row>

    constructor (rows: map<ChoreId, Row>)
      ensures this.rows == rows
    {
      this.rows := rows;
    }

    method MissOne(id: ChoreId, turns: seq<Turn>)
      requires id in rows && |turns| == MAX_MISSED_PER_CHORE
      modifies this
      ensures rows == old(rows)[id := Turned(old(rows[id]), turns, |turns|).0]
    {
      ghost var first := rows[id];
      var nextDueDate := rows[id].due;
      var i := 0;
      while i < MAX_MISSED_PER_CHORE
        invariant 0 <= i <= |turns|
        invariant id in rows && rows == old(rows)[id := rows[id]]
        invariant Turned(first, turns, i) == (rows[id], None) && nextDueDate == rows[id].due
      {
        if nextDueDate.None? || !(nextDueDate.value < turns[i].now) {
          StoppedStays(first, turns, i + 1, |turns|);
          return;
        }
        var next := turns[i].next(nextDueDate.value);
        if next.Error? {
          StoppedStays(first, turns, i + 1, |turns|);
          return;
        }
        if next.Never? || !(next.time > nextDueDate.value) {
          next := At(nextDueDate.value + DAY);
        }
        if !turns[i].recorded {
          StoppedStays(first, turns, i + 1, |turns|);
          return;
        }
        rows := rows[id := Row(Some(next.time), rows[id].missed + [nextDueDate.value])];
        nextDueDate := Some(next.time);
        i := i + 1;
      }
    }

    /** Every chore that is overdue at the query is worked off by itself: what fails for one changes
        nothing for another. */
    method MissOverdueChores(asked: Time, turns: map<ChoreId, seq<Turn>>)
      requires turns.Keys == rows.Keys && forall id :: id in turns ==> |turns[id]| == MAX_MISSED_PER_CHORE
      modifies this
      ensures rows.Keys == old(rows).Keys
      ensures forall id :: id in rows ==> rows[id] == RowAfter(old(rows)[id], JobRun(asked, turns[id]))
    {
      ghost var before := rows;
      var chores := set id | id in rows && IsPast(rows[id], asked);
      while chores != {}
        invariant rows.Keys == before.Keys
        invariant forall id :: id in chores ==> id in rows && rows[id] == before[id] && IsPast(before[id], asked)
        invariant forall id :: id in rows && id !in chores ==>
            rows[id] == RowAfter(before[id], JobRun(asked, turns[id]))
        decreases chores
      {
        SomeChore(chores);
        var id :| id in chores;
        chores := chores - {id};
        MissOne(id, turns[id]);
      }
    }
  }

  lemma SomeChore(chores: set<ChoreId>)
    ensures chores == {} || exists id :: id in chores
  {
    if forall id :: id !in chores { assert chores == {}; }
  }

  lemma {:induction false} StoppedStays(row: Row, turns: seq<Turn>, k: nat, n: nat)
    requires k <= n <= |turns| && Turned(row, turns, k).1.Some?
    ensures Turned(row, turns, n) == Turned(row, turns, k)
  {
    if k == n {
    } else {
      StoppedStays(row, turns, k, n - 1);
    }
  }

  // ---------- One run ----------

  /** `added` starts at `due` and each date is the one the schedule, or the fallback, gives after the one
      before; each was past when its turn came; and `end` is what comes after the last. */
  ghost predicate IsChain(due: Time, turns: seq<Turn>, added: seq<Time>, end: Time) {
    && |added| <= |turns|
    && (forall k :: 0 <= k < |added| ==>
        added[k] < turns[k].now && !turns[k].next(added[k]).Error? && turns[k].recorded)
    && (added != [] ==> added[0] == due)
    && (forall k :: 0 < k < |added| ==> added[k] == Advanced(added[k - 1], turns[k - 1].next(added[k - 1])))
    && end == if added == [] then due else Advanced(added[|added| - 1], turns[|added| - 1].next(added[|added| - 1]))
  }

  function StopAt(due: Time, turn: Turn): Stop {
    if turn.now <= due then NotPast else if turn.next(due).Error? then ScheduleError else RecordError
  }

  lemma ChainStarts(due: Time, turns: seq<Turn>)
    ensures IsChain(due, turns, [], due)
  {}

  lemma ChainGrows(due: Time, turns: seq<Turn>, added: seq<Time>, end: Time)
    requires IsChain(due, turns, added, end) && |added| < |turns|
    requires var turn := turns[|added|]; end < turn.now && !turn.next(end).Error? && turn.recorded
    ensures IsChain(due, turns, added + [end], Advanced(end, turns[|added|].next(end)))
  {
    var more := added + [end];
    forall k | 0 < k < |more| ensures more[k] == Advanced(more[k - 1], turns[k - 1].next(more[k - 1])) {
      assert more[k - 1] == added[k - 1];
    }
  }

  /** One run records such a chain, at most one date a turn, and stops at the first turn that finds the
      due date not past, or fails. */
  lemma {:induction false} MissedDatesFormAChain(row: Row, turns: seq<Turn>, n: nat) returns (added: seq<Time>)
    requires n <= |turns| && row.due.Some?
    ensures var (r, stop) := Turned(row, turns, n);
            && r.due.Some? && r.missed == row.missed + added
            && IsChain(row.due.value, turns, added, r.due.value)
            && (stop.None? ==> |added| == n)
            && (stop.Some? ==> |added| < n && stop.value == StopAt(r.due.value, turns[|added|]))
            && (stop == Some(RecordError) ==> !turns[|added|].recorded)
  {
    hide IsChain, Advanced;
    if n == 0 {
      added := [];
      ChainStarts(row.due.value, turns);
    } else {
      added := MissedDatesFormAChain(row, turns, n - 1);
      var (r, stop) := Turned(row, turns, n - 1);
      if Turned(row, turns, n).1.None? {
        ChainGrows(row.due.value, turns, added, r.due.value);
        added := added + [r.due.value];
      }
    }
  }

  lemma {:induction false} ChainIncreases(due: Time, turns: seq<Turn>, added: seq<Time>, end: Time, j: nat, k: nat)
    requires IsChain(due, turns, added, end) && j < k <= |added|
    ensures added[j] < if k < |added| then added[k] else end
  {
    if k == j + 1 {
    } else {
      ChainIncreases(due, turns, added, end, j, k - 1);
    }
  }

  /** From one date to the next is what the schedule gives, if that is later, or else twenty-four hours. */
  lemma NextInChain(due: Time, turns: seq<Turn>, added: seq<Time>, end: Time, k: nat)
    requires IsChain(due, turns, added, end) && k < |added|
    ensures var next := if k + 1 < |added| then added[k + 1] else end;
            var given := turns[k].next(added[k]);
            if given.At? && added[k] < given.time then next == given.time
            else next - added[k] == 24 * 3600 * 1_000_000_000
  {}

  /** The dates one run adds are strictly increasing, from the old due date, all before the new one,
      each before the clock reading of its turn; at most 30 of them. Without errors the job stops only
      when the due date is no longer past, or at the cap. */
  lemma OneRun(row: Row, run: JobRun) returns (added: seq<Time>)
    requires |run.turns| == MAX_MISSED_PER_CHORE
    ensures RowAfter(row, run).missed == row.missed + added && |added| <= 30
    ensures added != [] ==> Some(added[0]) == row.due
    ensures forall j, k :: 0 <= j < k < |added| ==> added[j] < added[k]
    ensures forall k :: 0 <= k < |added| ==> added[k] < run.turns[k].now
    ensures forall k :: 0 <= k < |added| ==> RowAfter(row, run).due.Some? && added[k] < RowAfter(row, run).due.value
    ensures StopOf(row, run) == NotPast ==> |added| < 30 && !IsPast(RowAfter(row, run), run.turns[|added|].now)
    ensures StopOf(row, run) == Cap <==> |added| == 30
    ensures (forall k, due :: 0 <= k < 30 ==> !run.turns[k].next(due).Error? && run.turns[k].recorded) ==>
              StopOf(row, run) in {NotSelected, NotPast, Cap}
  {
    if !IsPast(row, run.asked) {
      added := [];
    } else {
      added := MissedDatesFormAChain(row, run.turns, |run.turns|);
      var end := RowAfter(row, run).due.value;
      assert IsChain(row.due.value, run.turns, added, end);
      forall j, k | 0 <= j < k <= |added| ensures added[j] < if k < |added| then added[k] else end {
        ChainIncreases(row.due.value, run.turns, added, end, j, k);
      }
      forall k | 0 <= k < |added| ensures added[k] < end {
        ChainIncreases(row.due.value, run.turns, added, end, k, |added|);
      }
    }
  }

  // ---------- Working off a backlog ----------

  /** Every turn works, and moves the due date at least `s` on. */
  ghost predicate Strides(run: JobRun, s: Time) {
    && |run.turns| == MAX_MISSED_PER_CHORE
    && forall k: nat, due: Time {:trigger run.turns[k].next(due)} :: k < |run.turns| ==>
         run.turns[k].recorded && !run.turns[k].next(due).Error? && Advanced(due, run.turns[k].next(due)) >= due + s
  }

  function TableAfter(row: Row, runs: seq<JobRun>, n: nat): Row
    requires n <= |runs|
  {
    if n == 0 then row else RowAfter(TableAfter(row, runs, n - 1), runs[n - 1])
  }

  function Backlog(row: Row, now: Time): Time
    requires row.due.Some?
  {
    now - row.due.value
  }

  /** One more turn moves the due date on by a stride, or finds it no longer past. */
  lemma TurnMovesOn(row: Row, run: JobRun, s: Time, n: nat)
    requires Strides(run, s) && n < |run.turns|
    requires Turned(row, run.turns, n).0.due.Some? && Turned(row, run.turns, n).1.None?
    ensures var (r, stop) := Turned(row, run.turns, n + 1);
            && r.due.Some?
            && (stop.None? ==> r.due.value >= Turned(row, run.turns, n).0.due.value + s)
            && (stop.Some? ==> stop == Some(NotPast))
  {
    var due := Turned(row, run.turns, n).0.due.value;
    var next := run.turns[n].next(due);
    assert run.turns[n].recorded && !next.Error? && Advanced(due, next) >= due + s;
  }

  lemma {:induction false} TurnsMoveOn(row: Row, run: JobRun, s: Time, n: nat)
    requires Strides(run, s) && row.due.Some? && n <= |run.turns|
    ensures var (r, stop) := Turned(row, run.turns, n);
            r.due.Some? && (stop.None? ==> r.due.value >= row.due.value + n * s)
                && (stop.Some? ==> stop == Some(NotPast))
  {
    if n == 0 {
    } else {
      hide Strides;
      TurnsMoveOn(row, run, s, n - 1);
      if Turned(row, run.turns, n - 1).1.None? {
        TurnMovesOn(row, run, s, n - 1);
        OneGain(n, s);
      } else {
        StoppedStays(row, run.turns, n - 1, n);
      }
    }
  }

  /** Up to date: the run finds nothing overdue, or stops because the due date is no longer past. */
  predicate UpToDate(row: Row, run: JobRun) {
    StopOf(row, run) == NotSelected || StopOf(row, run) == NotPast
  }

  lemma CapMovesOn(row: Row, run: JobRun, s: Time)
    requires Strides(run, s) && row.due.Some? && !UpToDate(row, run)
    ensures StopOf(row, run) == Cap && RowAfter(row, run).due.Some?
        && RowAfter(row, run).due.value >= row.due.value + 30 * s
  {
    TurnsMoveOn(row, run, s, |run.turns|);
  }

  lemma {:induction false} BacklogShrinks(row: Row, runs: seq<JobRun>, s: Time, period: Time, n: nat)
    requires row.due.Some? && n < |runs|
    requires forall r :: 0 <= r < |runs| ==> Strides(runs[r], s)
    requires forall r :: 0 < r < |runs| ==> runs[r].asked <= runs[r - 1].asked + period
    requires forall r :: 0 <= r < n ==> !UpToDate(TableAfter(row, runs, r), runs[r])
    ensures TableAfter(row, runs, n).due.Some?
    ensures Backlog(TableAfter(row, runs, n), runs[n].asked) <= Backlog(row, runs[0].asked) - n * (30 * s - period)
  {
    hide Strides, UpToDate, RowAfter, StopOf;
    if n == 0 {
    } else {
      BacklogShrinks(row, runs, s, period, n - 1);
      assert !UpToDate(TableAfter(row, runs, n - 1), runs[n - 1]);
      CapMovesOn(TableAfter(row, runs, n - 1), runs[n - 1], s);
      OneGain(n, 30 * s - period);
      assert runs[n].asked <= runs[n - 1].asked + period;
    }
  }

  lemma OneGain(n: nat, gain: Time)
    requires n > 0
    ensures n * gain == (n - 1) * gain + gain
  {}

  /** A backlog clears: if every step moves the due date at least `s` on, consecutive runs start at most
      `period` apart, and 30 steps cover more than a period, then one of the first n runs brings the
      chore up to date, or the next finds it so, once n gains of 30 * s - period cover the backlog. */
  lemma BacklogClears(row: Row, runs: seq<JobRun>, s: Time, period: Time, n: nat)
    requires row.due.Some? && n < |runs|
    requires forall r :: 0 <= r < |runs| ==> Strides(runs[r], s)
    requires forall r :: 0 < r < |runs| ==> runs[r].asked <= runs[r - 1].asked + period
    requires Backlog(row, runs[0].asked) <= n * (30 * s - period)
    ensures exists r :: 0 <= r <= n && UpToDate(TableAfter(row, runs, r), runs[r])
                        && (r == n ==> StopOf(TableAfter(row, runs, n), runs[n]) == NotSelected)
  {
    if forall r :: 0 <= r < n ==> !UpToDate(TableAfter(row, runs, r), runs[r]) {
      BacklogShrinks(row, runs, s, period, n);
      assert StopOf(TableAfter(row, runs, n), runs[n]) == NotSelected;
      assert UpToDate(TableAfter(row, runs, n), runs[n]);
    }
  }

  // ---------- When it does not clear ----------

  /** Every turn moves the due date exactly `s` on, and the clock is never behind the query. */
  ghost predicate ExactStrides(run: JobRun, s: Time) {
    && |run.turns| == MAX_MISSED_PER_CHORE && 0 < s
    && (forall k :: 0 <= k < |run.turns| ==> run.turns[k].recorded && run.asked <= run.turns[k].now)
    && forall k: nat, due: Time {:trigger run.turns[k].next(due)} :: k < |run.turns| ==>
        run.turns[k].next(due) == At(due + s)
  }

  /** A turn that finds the due date past moves it exactly `s` on. */
  lemma TurnMovesExactly(row: Row, run: JobRun, s: Time, n: nat)
    requires ExactStrides(run, s) && n < |run.turns| && Turned(row, run.turns, n).1.None?
    requires Turned(row, run.turns, n).0.due.Some? && Turned(row, run.turns, n).0.due.value < run.asked
    ensures Turned(row, run.turns, n + 1).1.None?
    ensures Turned(row, run.turns, n + 1).0.due == Some(Turned(row, run.turns, n).0.due.value + s)
  {
    var due := Turned(row, run.turns, n).0.due.value;
    assert run.turns[n].recorded && run.turns[n].next(due) == At(due + s);
  }

  lemma AtMost29(n: nat, s: Time)
    requires n <= 29 && 0 < s
    ensures n * s <= 29 * s
  {
    assert 29 * s == n * s + (29 - n) * s;
  }

  lemma {:induction false} LongBacklogHitsCap(row: Row, run: JobRun, s: Time, n: nat)
    requires ExactStrides(run, s) && row.due.Some? && n <= 30 && Backlog(row, run.asked) > 29 * s
    ensures Turned(row, run.turns, n).1.None? && Turned(row, run.turns, n).0.due == Some(row.due.value + n * s)
  {
    if n == 0 {
    } else {
      hide Turned;
      LongBacklogHitsCap(row, run, s, n - 1);
      OneGain(n, s);
      AtMost29(n - 1, s);
      TurnMovesExactly(row, run, s, n - 1);
    }
  }

  /** The gain is needed: if steps are exactly `s` and 30 of them cover no more than the time between
      runs, a backlog of over 29 steps is never worked off; every run stops at the cap. */
  lemma {:induction false} BacklogStays(row: Row, runs: seq<JobRun>, s: Time, n: nat)
    requires row.due.Some? && n < |runs|
    requires forall r :: 0 <= r < |runs| ==> ExactStrides(runs[r], s)
    requires forall r :: 0 < r < |runs| ==> runs[r].asked >= runs[r - 1].asked + 30 * s
    requires Backlog(row, runs[0].asked) > 29 * s
    ensures TableAfter(row, runs, n).due.Some? && Backlog(TableAfter(row, runs, n), runs[n].asked) > 29 * s
    ensures StopOf(TableAfter(row, runs, n), runs[n]) == Cap
  {
    if n == 0 {
    } else {
      BacklogStays(row, runs, s, n - 1);
      LongBacklogHitsCap(TableAfter(row, runs, n - 1), runs[n - 1], s, 30);
      assert runs[n].asked >= runs[n - 1].asked + 30 * s;
    }
    LongBacklogHitsCap(TableAfter(row, runs, n), runs[n], s, 30);
  }
}
