/**
 The migration runner (migrations/base.go): an in-place exchange sort of the registry, and a runner
 that resumes after any failure.
 */
module Migrations {
  import opened Decimals

  type Id = string
  type Time = int

  datatype Script = Script(id: Id, description: string)

  datatype Record = Record(description: string, appliedAt: Time)

  /** How each step for one migration goes. The error of the count query is not looked at: a failed
      count is a count of 0. */
  datatype Outcome = Outcome(countReads: bool, upWorks: bool, downWorks: bool, recordWorks: bool, at: Time)

  datatype Executed = Up(id: Id) | Down(id: Id)

  /** One run so far: the table, the scripts executed, and the two counters. */
  datatype Progress = Progress(applied: map<Id, Record>, executed: seq<Executed>, succeeded: nat, skipped: nat,
                               failed: bool)

  // ---------- Order of ids ----------

  predicate AtMost(a: Id, b: Id) {
    a == "" || (b != "" && (a[0] < b[0] || (a[0] == b[0] && AtMost(a[1..], b[1..]))))
  }

  lemma {:induction false} Total(a: Id, b: Id)
    ensures AtMost(a, b) || AtMost(b, a)
  {
    if a == "" || b == "" {
    } else {
      Total(a[1..], b[1..]);
    }
  }

  lemma {:induction false} Antisymmetric(a: Id, b: Id)
    requires AtMost(a, b) && AtMost(b, a)
    ensures a == b
  {
    if a == "" || b == "" {
    } else {
      Antisymmetric(a[1..], b[1..]);
      assert a == [a[0]] + a[1..] && b == [b[0]] + b[1..];
    }
  }

  lemma {:induction false} Transitive(a: Id, b: Id, c: Id)
    requires AtMost(a, b) && AtMost(b, c)
    ensures AtMost(a, c)
  {
    if a == "" || a[0] != b[0] || b[0] != c[0] {
    } else {
      Transitive(a[1..], b[1..], c[1..]);
    }
  }

  ghost predicate Sorted(s: seq<Script>) {
    forall p, q :: 0 <= p < q < |s| ==> AtMost(s[p].id, s[q].id)
  }

  /** The order of ids: a prefix comes first, and otherwise the smaller character at the first difference. */
  lemma {:induction false} FirstDifference(a: Id, b: Id)
    ensures AtMost(a, b) <==> a <= b || exists k :: DiffersAt(a, b, k) && a[k] < b[k]
  {
    if a == "" || b == "" {
    } else if a[0] != b[0] {
      assert DiffersAt(a, b, 0);
      assert forall k :: DiffersAt(a, b, k) ==> k == 0;
    } else {
      FirstDifference(a[1..], b[1..]);
      OneFurther(a, b);
    }
  }

  predicate DiffersAt(a: Id, b: Id, k: int) {
    0 <= k < |a| && k < |b| && a[k] != b[k] && forall i :: 0 <= i < k ==> a[i] == b[i]
  }

  lemma OneFurther(a: Id, b: Id)
    requires a != "" && b != "" && a[0] == b[0]
    ensures a <= b <==> a[1..] <= b[1..]
    ensures (exists k :: DiffersAt(a, b, k) && a[k] < b[k])
       <==> (exists k :: DiffersAt(a[1..], b[1..], k) && a[1..][k] < b[1..][k])
  {
    var x, y := a[1..], b[1..];
    assert a == [a[0]] + x && b == [b[0]] + y;
    if a <= b { assert b[..|a|] == a && y[..|x|] == x; }
    if x <= y { assert b[..|a|] == [b[0]] + y[..|x|]; }
    if k :| DiffersAt(a, b, k) && a[k] < b[k] {
      assert DiffersAt(x, y, k - 1) && x[k - 1] == a[k] && y[k - 1] == b[k];
    }
    if k :| DiffersAt(x, y, k) && x[k] < y[k] {
      assert DiffersAt(a, b, k + 1) && a[k + 1] == x[k] && b[k + 1] == y[k];
    }
  }

  lemma {:induction false} AfterPrefix(p: string, x: string, y: string)
    ensures AtMost(p + x, p + y) <==> AtMost(x, y)
  {
    if p == "" {
      assert p + x == x && p + y == y;
    } else {
      AfterPrefix(p[1..], x, y);
      assert (p + x)[1..] == p[1..] + x && (p + y)[1..] == p[1..] + y;
    }
  }

  /** Ids that begin with numbers of one length, such as dates, are ordered by the number first. */
  lemma {:induction false} NumbersFirst(p: string, q: string, x: string, y: string)
    requires |p| == |q| && AllDigits(p) && AllDigits(q) && NumberOf(p) < NumberOf(q)
    ensures AtMost(p + x, q + y) && !AtMost(q + y, p + x)
  {
    if p == "" {
    } else {
      var last := |p| - 1;
      var c, d := [p[last]], [q[last]];
      assert p + x == p[..last] + (c + x) && q + y == q[..last] + (d + y);
      if NumberOf(p[..last]) < NumberOf(q[..last]) {
        NumbersFirst(p[..last], q[..last], c + x, d + y);
      } else {
        SameNumber(p[..last], q[..last]);
        AfterPrefix(p[..last], c + x, d + y);
        AfterPrefix(p[..last], d + y, c + x);
      }
    }
  }

  ghost predicate Dated(scripts: seq<Script>, n: nat) {
    forall k :: 0 <= k < |scripts| ==> |scripts[k].id| >= n && AllDigits(scripts[k].id[..n])
  }

  /** A sorted registry, and so every run, takes them in ascending number. */
  lemma OldestFirst(scripts: seq<Script>, n: nat, i: nat, j: nat)
    requires Sorted(scripts) && Dated(scripts, n) && i < j < |scripts|
    ensures NumberOf(scripts[i].id[..n]) <= NumberOf(scripts[j].id[..n])
  {
    var a, b := scripts[i].id, scripts[j].id;
    assert b[..n] + b[n..] == b && a[..n] + a[n..] == a;
    if NumberOf(b[..n]) < NumberOf(a[..n]) { NumbersFirst(b[..n], a[..n], b[n..], a[n..]); }
  }

  // ---------- The sort ----------

  /** The first `i` places are final: in order, and at most anything after them. */
  ghost predicate Settled(s: seq<Script>, i: nat) {
    forall p, q :: 0 <= p < i && p < q < |s| ==> AtMost(s[p].id, s[q].id)
  }

  method SortMigrations(migrations: array<Script>)
    modifies migrations
    ensures Sorted(migrations[..])
    ensures multiset(migrations[..]) == old(multiset(migrations[..]))
    ensures old(Sorted(migrations[..])) ==> migrations[..] == old(migrations[..])
  {
    var i := 0;
    while i < migrations.Length
      invariant 0 <= i <= migrations.Length && Settled(migrations[..], i)
      invariant multiset(migrations[..]) == old(multiset(migrations[..]))
      invariant old(Sorted(migrations[..])) ==> migrations[..] == old(migrations[..])
    {
      var j := i + 1;
      AtMostItself(migrations[i].id);
      while j < migrations.Length
        invariant i < j <= migrations.Length && Settled(migrations[..], i)
        invariant forall q :: i <= q < j ==> AtMost(migrations[i].id, migrations[q].id)
        invariant multiset(migrations[..]) == old(multiset(migrations[..]))
        invariant old(Sorted(migrations[..])) ==> migrations[..] == old(migrations[..])
      {
        Exchange(migrations, i, j);
        j := j + 1;
      }
      i := i + 1;
    }
  }

  lemma AtMostItself(a: Id)
    ensures AtMost(a, a)
  {
    Total(a, a);
  }

  /** One comparison of the inner loop, with its exchange. */
  method Exchange(migrations: array<Script>, i: nat, j: nat)
    requires i < j < migrations.Length && Settled(migrations[..], i)
    requires forall q :: i <= q < j ==> AtMost(migrations[i].id, migrations[q].id)
    modifies migrations
    ensures Settled(migrations[..], i)
    ensures forall q :: i <= q <= j ==> AtMost(migrations[i].id, migrations[q].id)
    ensures multiset(migrations[..]) == old(multiset(migrations[..]))
    ensures old(AtMost(migrations[i].id, migrations[j].id)) ==> migrations[..] == old(migrations[..])
  {
    ghost var was := migrations[..];
    if !AtMost(migrations[i].id, migrations[j].id) {
      migrations[i], migrations[j] := migrations[j], migrations[i];
      assert migrations[..] == was[i := was[j]][j := was[i]];
      ExchangeSettles(was, i, j);
    }
  }

  lemma ExchangeSettles(was: seq<Script>, i: nat, j: nat)
    requires i < j < |was| && Settled(was, i) && !AtMost(was[i].id, was[j].id)
    requires forall q :: i <= q < j ==> AtMost(was[i].id, was[q].id)
    ensures var s := was[i := was[j]][j := was[i]];
            Settled(s, i) && forall q :: i <= q <= j ==> AtMost(s[i].id, s[q].id)
  {
    hide AtMost;
    Total(was[i].id, was[j].id);
    forall q | i <= q < j ensures AtMost(was[j].id, was[q].id) { Transitive(was[j].id, was[i].id, was[q].id); }
    AtMostItself(was[j].id);
    var s := was[i := was[j]][j := was[i]];
    forall p, q | 0 <= p < i && p < q < |s| ensures AtMost(s[p].id, s[q].id) {
      assert AtMost(was[p].id, was[if q == i then j else if q == j then i else q].id);
    }
  }

  // ---------- The runner ----------

  datatype Verdict = Skipped | Applied | Failed

  datatype Effect = Effect(verdict: Verdict, applied: map<Id, Record>, executed: seq<Executed>)

  function EffectOf(applied: map<Id, Record>, script: Script, o: Outcome): Effect {
    if o.countReads && script.id in applied then Effect(Skipped, applied, [])
    else if !o.upWorks then Effect(Failed, applied, [Up(script.id), Down(script.id)])
    else if !o.recordWorks || script.id in applied then Effect(Failed, applied, [Up(script.id)])
    else Effect(Applied, applied[script.id := Record(script.description, o.at)], [Up(script.id)])
  }

  function Next(p: Progress, script: Script, o: Outcome): Progress {
    var e := EffectOf(p.applied, script, o);
    Progress(e.applied, p.executed + e.executed, p.succeeded + if e.verdict.Applied? then 1 else 0,
             p.skipped + if e.verdict.Skipped? then 1 else 0, e.verdict.Failed?)
  }

  /** The run after its first `n` migrations; nothing more happens after a failure. */
  function Walk(scripts: seq<Script>, outcomes: seq<Outcome>, applied: map<Id, Record>, n: nat): Progress
    requires n <= |scripts| == |outcomes|
  {
    if n == 0 then Progress(applied, [], 0, 0, false)
    else
      var p := Walk(scripts, outcomes, applied, n - 1);
      if p.failed then p else Next(p, scripts[n - 1], outcomes[n - 1])
  }

  function Ran(scripts: seq<Script>, outcomes: seq<Outcome>, applied: map<Id, Record>): Progress
    requires |scripts| == |outcomes|
  {
    Walk(scripts, outcomes, applied, |scripts|)
  }

  class Runner {
    var registry: array<Script>
    var applied: map<Id, Record>
    var executed: seq<Executed>

    constructor ()
      ensures registry[..] == [] && applied == map[] && executed == []
    {
      registry := new Script[0];
      applied, executed := map[], [];
    }

    method Register(migration: Script)
      modifies this`registry
      ensures registry[..] == old(registry[..]) + [migration] && fresh(registry)
    {
      var longer := new Script[registry.Length + 1](i requires 0 <= i <= registry.Length reads this, registry =>
        if i < registry.Length then registry[i] else migration);
      assert longer[..] == registry[..] + [migration];
      registry := longer;
    }

    /** One turn of the loop. The outcome of rolling back is only logged. */
    method RunOne(migration: Script, o: Outcome) returns (verdict: Verdict)
      modifies this`applied, this`executed
      ensures var e := EffectOf(old(applied), migration, o);
              verdict == e.verdict && applied == e.applied && executed == old(executed) + e.executed
    {
      var count := if o.countReads && migration.id in applied then 1 else 0;
      if count > 0 { return Skipped; }
      executed := executed + [Up(migration.id)];
      if !o.upWorks {
        executed := executed + [Down(migration.id)];
        return Failed;
      }
      if !o.recordWorks || migration.id in applied { return Failed; }
      applied := applied[migration.id := Record(migration.description, o.at)];
      return Applied;
    }

    method RunAll(scripts: seq<Script>, outcomes: seq<Outcome>)
      returns (ok: bool, successfulCount: nat, skippedCount: nat)
      requires |scripts| == |outcomes|
      modifies this`applied, this`executed
      ensures var p := Ran(scripts, outcomes, old(applied));
              && applied == p.applied && executed == old(executed) + p.executed
              && successfulCount == p.succeeded && skippedCount == p.skipped && ok == !p.failed
    {
      successfulCount, skippedCount, ok := 0, 0, true;
      ghost var table, p := applied, Progress(applied, [], 0, 0, false);
      hide *;
      var i := 0;
      WalkStarts(scripts, outcomes, table);
      while ok && i < |scripts|
        invariant 0 <= i <= |scripts|
        invariant Walk(scripts, outcomes, table, i) == p && ok == !p.failed
        invariant p.applied == applied && p.succeeded == successfulCount && p.skipped == skippedCount
        invariant executed == old(executed) + p.executed
        decreases |scripts| - i
      {
        WalkStep(scripts, outcomes, table, i);
        NextStep(p, scripts[i], outcomes[i]);
        var verdict := RunOne(scripts[i], outcomes[i]);
        p := Next(p, scripts[i], outcomes[i]);
        match verdict {
          case Skipped => skippedCount := skippedCount + 1;
          case Applied => successfulCount := successfulCount + 1;
          case Failed => ok := false;
        }
        i := i + 1;
      }
      if !ok { FailureStays(scripts, outcomes, table, i, |scripts|); }
      RanIsWalk(scripts, outcomes, table);
    }

    method Run(tableExists: bool, outcomes: seq<Outcome>) returns (ok: bool, successfulCount: nat, skippedCount: nat)
      requires |outcomes| == registry.Length
      modifies this`applied, this`executed, registry
      ensures !tableExists ==>
          !ok && registry[..] == old(registry[..]) && applied == old(applied) && executed == old(executed)
      ensures tableExists ==> Sorted(registry[..]) && multiset(registry[..]) == old(multiset(registry[..]))
      ensures old(Sorted(registry[..])) ==> registry[..] == old(registry[..])
      ensures tableExists ==>
                var p := Ran(registry[..], outcomes, old(applied));
                && applied == p.applied && executed == old(executed) + p.executed
                && successfulCount == p.succeeded && skippedCount == p.skipped && ok == !p.failed
    {
      hide *;
      if !tableExists { return false, 0, 0; }
      SortMigrations(registry);
      ok, successfulCount, skippedCount := RunAll(registry[..], outcomes);
    }
  }

  lemma WalkStarts(scripts: seq<Script>, outcomes: seq<Outcome>, applied: map<Id, Record>)
    requires |scripts| == |outcomes|
    ensures Walk(scripts, outcomes, applied, 0) == Progress(applied, [], 0, 0, false)
  {}

  lemma RanIsWalk(scripts: seq<Script>, outcomes: seq<Outcome>, applied: map<Id, Record>)
    requires |scripts| == |outcomes|
    ensures Ran(scripts, outcomes, applied) == Walk(scripts, outcomes, applied, |scripts|)
  {}

  lemma WalkStep(scripts: seq<Script>, outcomes: seq<Outcome>, applied: map<Id, Record>, n: nat)
    requires n < |scripts| == |outcomes| && !Walk(scripts, outcomes, applied, n).failed
    ensures Walk(scripts, outcomes, applied, n + 1)
        == Next(Walk(scripts, outcomes, applied, n), scripts[n], outcomes[n])
  {}

  lemma NextStep(p: Progress, script: Script, o: Outcome)
    ensures var e := EffectOf(p.applied, script, o);
            var q := Next(p, script, o);
            && q.applied == e.applied && q.executed == p.executed + e.executed && q.failed == e.verdict.Failed?
            && q.succeeded == p.succeeded + (if e.verdict.Applied? then 1 else 0)
            && q.skipped == p.skipped + if e.verdict.Skipped? then 1 else 0
  {}

  lemma {:induction false} FailureStays(scripts: seq<Script>, outcomes: seq<Outcome>, applied: map<Id, Record>, k: nat,
                                        n: nat)
    requires k <= n <= |scripts| == |outcomes| && Walk(scripts, outcomes, applied, k).failed
    ensures Walk(scripts, outcomes, applied, n) == Walk(scripts, outcomes, applied, k)
  {
    if k == n {
    } else {
      FailureStays(scripts, outcomes, applied, k, n - 1);
    }
  }

  // ---------- What is recorded ----------

  predicate Named(scripts: seq<Script>, id: Id) {
    exists k :: 0 <= k < |scripts| && scripts[k].id == id
  }

  /** Only registered migrations are recorded, and with each of them everything that comes before it. */
  ghost predicate PrefixRecorded(scripts: seq<Script>, applied: map<Id, Record>) {
    && (forall id :: id in applied ==> Named(scripts, id))
    && (forall p, q :: (0 <= p < |scripts| && 0 <= q < |scripts| && AtMost(scripts[p].id, scripts[q].id)
                        && scripts[q].id in applied) ==>
          scripts[p].id in applied)
  }

  predicate IsPrefix(scripts: seq<Script>, applied: map<Id, Record>, n: nat) {
    && n <= |scripts|
    && (forall k :: 0 <= k < n ==> scripts[k].id in applied)
    && (forall k :: n <= k < |scripts| ==> scripts[k].id !in applied)
    && (forall id :: id in applied ==> Named(scripts[..n], id))
  }

  lemma RecordedIsPrefix(scripts: seq<Script>, applied: map<Id, Record>) returns (n: nat)
    requires Sorted(scripts) && PrefixRecorded(scripts, applied)
    ensures IsPrefix(scripts, applied, n)
  {
    hide AtMost, FirstUnrecorded, Named;
    n := FirstUnrecorded(scripts, applied, 0);
    forall k | n < k < |scripts| ensures scripts[k].id !in applied {
      assert AtMost(scripts[n].id, scripts[k].id);
    }
    forall id | id in applied ensures Named(scripts[..n], id) {
      assert Named(scripts, id);
      NamedBefore(scripts, n, id);
    }
  }

  lemma NamedBefore(scripts: seq<Script>, n: nat, id: Id)
    requires n <= |scripts| && Named(scripts, id) && forall k :: n <= k < |scripts| ==> scripts[k].id != id
    ensures Named(scripts[..n], id)
  {
    var k :| 0 <= k < |scripts| && scripts[k].id == id;
    assert scripts[..n][k].id == id;
  }

  lemma PrefixIsRecorded(scripts: seq<Script>, applied: map<Id, Record>, n: nat)
    requires Sorted(scripts) && IsPrefix(scripts, applied, n)
    ensures PrefixRecorded(scripts, applied)
  {
    forall id | id in applied ensures Named(scripts, id) {
      var k :| 0 <= k < n && scripts[..n][k].id == id;
      assert scripts[k].id == id;
    }
    forall p, q | 0 <= p < |scripts| && 0 <= q < |scripts| && AtMost(scripts[p].id, scripts[q].id)
        && scripts[q].id in applied
      ensures scripts[p].id in applied
    {
      if p >= n { Antisymmetric(scripts[q].id, scripts[p].id); }
    }
  }

  /** In sorted order, that is to say: the recorded migrations are the first n, for some n. */
  lemma PrefixOfSorted(scripts: seq<Script>, applied: map<Id, Record>)
    requires Sorted(scripts)
    ensures PrefixRecorded(scripts, applied) <==> exists n: nat :: IsPrefix(scripts, applied, n)
  {
    hide *;
    if PrefixRecorded(scripts, applied) {
      var n := RecordedIsPrefix(scripts, applied);
    }
    if n: nat :| IsPrefix(scripts, applied, n) {
      PrefixIsRecorded(scripts, applied, n);
    }
  }

  function FirstUnrecorded(scripts: seq<Script>, applied: map<Id, Record>, from: nat): (n: nat)
    requires from <= |scripts|
    ensures from <= n <= |scripts|
    ensures forall k :: from <= k < n ==> scripts[k].id in applied
    ensures n < |scripts| ==> scripts[n].id !in applied
    decreases |scripts| - from
  {
    if from == |scripts| || scripts[from].id !in applied then from else FirstUnrecorded(scripts, applied, from + 1)
  }

  lemma NextKeeps(p: Progress, script: Script, o: Outcome)
    ensures forall id :: id in p.applied ==>
        id in Next(p, script, o).applied && Next(p, script, o).applied[id] == p.applied[id]
    ensures var q := Next(p, script, o);
            !q.failed ==> q.succeeded + q.skipped == p.succeeded + p.skipped + 1
  {}

  lemma RecordsInOrder(scripts: seq<Script>, p: Progress, n: nat, o: Outcome)
    requires n < |scripts| && Sorted(scripts) && PrefixRecorded(scripts, p.applied) && !p.failed
    requires forall k :: 0 <= k < n ==> scripts[k].id in p.applied
    ensures PrefixRecorded(scripts, Next(p, scripts[n], o).applied)
    ensures !Next(p, scripts[n], o).failed ==> forall k :: 0 <= k <= n ==>
        scripts[k].id in Next(p, scripts[n], o).applied
  {
    var id := scripts[n].id;
    forall q | n < q < |scripts| && AtMost(scripts[q].id, id) ensures scripts[q].id == id {
      Antisymmetric(id, scripts[q].id);
    }
  }

  /** A run loses and changes no record, and counts each migration it gets through once. */
  lemma {:induction false} WalkKeeps(scripts: seq<Script>, outcomes: seq<Outcome>, applied: map<Id, Record>, n: nat)
    requires n <= |scripts| == |outcomes|
    ensures forall id :: id in applied ==>
              id in Walk(scripts, outcomes, applied, n).applied
                  && Walk(scripts, outcomes, applied, n).applied[id] == applied[id]
    ensures var p := Walk(scripts, outcomes, applied, n);
            !p.failed ==> p.succeeded + p.skipped == n
  {
    hide *;
    if n == 0 {
      WalkStarts(scripts, outcomes, applied);
    } else {
      WalkKeeps(scripts, outcomes, applied, n - 1);
      var before := Walk(scripts, outcomes, applied, n - 1);
      if before.failed {
        FailureStays(scripts, outcomes, applied, n - 1, n);
      } else {
        WalkStep(scripts, outcomes, applied, n - 1);
        NextKeeps(before, scripts[n - 1], outcomes[n - 1]);
      }
    }
  }

  /** Whatever fails in it, a run records in order. */
  lemma {:induction false} WalkRecordsInOrder(scripts: seq<Script>, outcomes: seq<Outcome>, applied: map<Id, Record>,
                                              n: nat)
    requires n <= |scripts| == |outcomes| && Sorted(scripts) && PrefixRecorded(scripts, applied)
    ensures PrefixRecorded(scripts, Walk(scripts, outcomes, applied, n).applied)
    ensures var p := Walk(scripts, outcomes, applied, n);
            !p.failed ==> forall k :: 0 <= k < n ==> scripts[k].id in p.applied
  {
    hide *;
    if n == 0 {
      WalkStarts(scripts, outcomes, applied);
    } else {
      WalkRecordsInOrder(scripts, outcomes, applied, n - 1);
      var before := Walk(scripts, outcomes, applied, n - 1);
      if before.failed {
        FailureStays(scripts, outcomes, applied, n - 1, n);
      } else {
        WalkStep(scripts, outcomes, applied, n - 1);
        RecordsInOrder(scripts, before, n - 1, outcomes[n - 1]);
      }
    }
  }

  /** The table after a number of runs, each with its own failures. */
  function Table(scripts: seq<Script>, runs: seq<seq<Outcome>>, n: nat): map<Id, Record>
    requires n <= |runs| && forall r :: 0 <= r < |runs| ==> |runs[r]| == |scripts|
  {
    if n == 0 then map[] else Ran(scripts, runs[n - 1], Table(scripts, runs, n - 1)).applied
  }

  /** Over any number of runs, with any failures, the recorded migrations are a prefix of the sorted
      registry, and no record is ever lost or changed. */
  lemma {:induction false} AlwaysAPrefix(scripts: seq<Script>, runs: seq<seq<Outcome>>, m: nat, n: nat)
    requires m <= n <= |runs| && forall r :: 0 <= r < |runs| ==> |runs[r]| == |scripts|
    requires Sorted(scripts)
    ensures PrefixRecorded(scripts, Table(scripts, runs, n))
    ensures forall id :: id in Table(scripts, runs, m) ==>
              id in Table(scripts, runs, n) && Table(scripts, runs, n)[id] == Table(scripts, runs, m)[id]
  {
    if n == 0 {
    } else {
      if m < n { AlwaysAPrefix(scripts, runs, m, n - 1); } else { AlwaysAPrefix(scripts, runs, n - 1, n - 1); }
      WalkRecordsInOrder(scripts, runs[n - 1], Table(scripts, runs, n - 1), |scripts|);
      WalkKeeps(scripts, runs[n - 1], Table(scripts, runs, n - 1), |scripts|);
    }
  }

  /** A run that reports no error has recorded the whole registry, each migration counted once. */
  lemma ErrorFreeRun(scripts: seq<Script>, outcomes: seq<Outcome>, applied: map<Id, Record>)
    requires |scripts| == |outcomes| && Sorted(scripts) && PrefixRecorded(scripts, applied)
    requires !Ran(scripts, outcomes, applied).failed
    ensures Ran(scripts, outcomes, applied).succeeded + Ran(scripts, outcomes, applied).skipped == |scripts|
    ensures forall k :: 0 <= k < |scripts| ==> scripts[k].id in Ran(scripts, outcomes, applied).applied
  {
    WalkRecordsInOrder(scripts, outcomes, applied, |scripts|);
    WalkKeeps(scripts, outcomes, applied, |scripts|);
  }

  /** A record that a run adds is of a registered migration the run reached and whose script and record
      worked, with its description and the time. */
  lemma {:induction false} NewRecords(scripts: seq<Script>, outcomes: seq<Outcome>, applied: map<Id, Record>, n: nat,
                                      id: Id)
    requires n <= |scripts| == |outcomes| && id !in applied
    ensures var p := Walk(scripts, outcomes, applied, n);
            id in p.applied <==>
            exists k :: 0 <= k < n && Reached(scripts, outcomes, applied, k) && scripts[k].id == id
                        && outcomes[k].upWorks && outcomes[k].recordWorks
    ensures var p := Walk(scripts, outcomes, applied, n);
            id in p.applied ==>
            exists k :: 0 <= k < n && scripts[k].id == id
                        && p.applied[id] == Record(scripts[k].description, outcomes[k].at)
  {
    hide Walk, Next;
    if n == 0 {
      WalkStarts(scripts, outcomes, applied);
    } else {
      NewRecords(scripts, outcomes, applied, n - 1, id);
      var before := Walk(scripts, outcomes, applied, n - 1);
      if before.failed {
        FailureStays(scripts, outcomes, applied, n - 1, n);
      } else {
        assert Reached(scripts, outcomes, applied, n - 1);
        WalkStep(scripts, outcomes, applied, n - 1);
        NextStep(before, scripts[n - 1], outcomes[n - 1]);
      }
    }
  }

  // ---------- What is executed ----------

  predicate Reached(scripts: seq<Script>, outcomes: seq<Outcome>, applied: map<Id, Record>, k: nat)
    requires k < |scripts| == |outcomes|
  {
    !Walk(scripts, outcomes, applied, k).failed
  }

  /** A recorded migration runs again exactly when the run reaches it and its count query fails; such
      a run then fails, since the second record is refused. */
  lemma {:induction false} RunsAgain(scripts: seq<Script>, outcomes: seq<Outcome>, applied: map<Id, Record>, id: Id,
                                     n: nat)
    requires n <= |scripts| == |outcomes| && id in applied
    ensures var p := Walk(scripts, outcomes, applied, n);
            && id in p.applied
            && (Up(id) in p.executed <==>
                exists k :: 0 <= k < n && Reached(scripts, outcomes, applied, k) && scripts[k].id == id
                    && !outcomes[k].countReads)
            && (Up(id) in p.executed ==> p.failed)
  {
    hide Walk, Next;
    if n == 0 {
      WalkStarts(scripts, outcomes, applied);
    } else {
      RunsAgain(scripts, outcomes, applied, id, n - 1);
      var before := Walk(scripts, outcomes, applied, n - 1);
      if before.failed {
        FailureStays(scripts, outcomes, applied, n - 1, n);
      } else {
        assert Reached(scripts, outcomes, applied, n - 1);
        WalkStep(scripts, outcomes, applied, n - 1);
        NextStep(before, scripts[n - 1], outcomes[n - 1]);
      }
    }
  }

  /** It does happen: a recorded migration, and a run whose count query fails. */
  lemma CountFailureRunsAgain(script: Script, applied: map<Id, Record>, o: Outcome)
    requires script.id in applied && !o.countReads && o.upWorks
    ensures Ran([script], [o], applied) == Progress(applied, [Up(script.id)], 0, 0, true)
  {
    WalkStarts([script], [o], applied);
    WalkStep([script], [o], applied, 0);
  }

  /** With working count queries, over any number of runs: a migration recorded by some run is not
      executed by any later one. */
  lemma NeverTwice(scripts: seq<Script>, runs: seq<seq<Outcome>>, m: nat, n: nat, id: Id)
    requires m <= n < |runs| && forall r :: 0 <= r < |runs| ==> |runs[r]| == |scripts|
    requires Sorted(scripts) && id in Table(scripts, runs, m)
    requires forall k :: 0 <= k < |scripts| ==> runs[n][k].countReads
    ensures Up(id) !in Ran(scripts, runs[n], Table(scripts, runs, n)).executed
  {
    AlwaysAPrefix(scripts, runs, m, n);
    RunsAgain(scripts, runs[n], Table(scripts, runs, n), id, |scripts|);
  }

  function Ups(scripts: seq<Script>, from: nat, to: nat): (s: seq<Executed>)
    requires from <= to <= |scripts|
    ensures |s| == to - from
  {
    if from == to then [] else Ups(scripts, from, to - 1) + [Up(scripts[to - 1].id)]
  }

  /** The run was stopped by migration k: its script failed and was rolled back, or its record did. */
  predicate StoppedAt(scripts: seq<Script>, outcomes: seq<Outcome>, executed: seq<Executed>, first: nat, k: nat)
    requires first <= k < |scripts| == |outcomes|
  {
    && !(outcomes[k].upWorks && outcomes[k].recordWorks)
    && executed == Ups(scripts, first, k + 1) + if outcomes[k].upWorks then [] else [Down(scripts[k].id)]
  }

  lemma ResumeSkips(p: Progress, script: Script, o: Outcome)
    requires script.id in p.applied && o.countReads
    ensures Next(p, script, o) == Progress(p.applied, p.executed, p.succeeded, p.skipped + 1, false)
  {}

  /** One turn of a run that has skipped everything recorded and reached migration `n`. */
  lemma ResumeExecutes(scripts: seq<Script>, outcomes: seq<Outcome>, p: Progress, first: nat, n: nat)
    requires first <= n < |scripts| == |outcomes|
    requires p.executed == Ups(scripts, first, n) && scripts[n].id !in p.applied
    ensures var q := Next(p, scripts[n], outcomes[n]);
            && (if q.failed then StoppedAt(scripts, outcomes, q.executed, first, n)
                else q.executed == Ups(scripts, first, n + 1) && q.skipped == p.skipped)
            && (forall id :: id in q.applied ==> id in p.applied || id == scripts[n].id)
  {
    assert Ups(scripts, first, n) + [Up(scripts[n].id), Down(scripts[n].id)]
        == Ups(scripts, first, n + 1) + [Down(scripts[n].id)];
  }

  lemma NoUps(scripts: seq<Script>, n: nat)
    requires n <= |scripts|
    ensures Ups(scripts, n, n) == []
  {}

  /** A run takes up where the records stop: it executes exactly the migrations from the first
      unrecorded one on, in order, up to its end or its first failure. */
  lemma {:induction false} Resumes(scripts: seq<Script>, outcomes: seq<Outcome>, applied: map<Id, Record>, first: nat,
                                   n: nat)
    requires n <= |scripts| == |outcomes| && IsPrefix(scripts, applied, first)
    requires forall p, q :: 0 <= p < q < |scripts| ==> scripts[p].id != scripts[q].id
    requires forall k :: 0 <= k < n ==> outcomes[k].countReads
    ensures var p := Walk(scripts, outcomes, applied, n);
            && (n <= first ==> p == Progress(applied, [], 0, n, false))
            && (first <= n && !p.failed ==> p.executed == Ups(scripts, first, n) && p.skipped == first)
            && (first <= n && !p.failed ==> forall k :: n <= k < |scripts| ==> scripts[k].id !in p.applied)
            && (p.failed ==> exists k :: first <= k < n && StoppedAt(scripts, outcomes, p.executed, first, k))
  {
    hide Walk, Next, Ups, StoppedAt;
    NoUps(scripts, first);
    if n == 0 {
      WalkStarts(scripts, outcomes, applied);
    } else {
      Resumes(scripts, outcomes, applied, first, n - 1);
      var before := Walk(scripts, outcomes, applied, n - 1);
      if before.failed {
        FailureStays(scripts, outcomes, applied, n - 1, n);
      } else {
        WalkStep(scripts, outcomes, applied, n - 1);
        if n <= first {
          ResumeSkips(before, scripts[n - 1], outcomes[n - 1]);
        } else {
          ResumeExecutes(scripts, outcomes, before, first, n - 1);
        }
      }
    }
  }

  // ---------- Migrations registered later ----------

  /** Registering another migration keeps the recorded ones a prefix exactly when it does not sort
      before one already recorded; one that does would be applied out of order. */
  lemma RegisteredLater(scripts: seq<Script>, applied: map<Id, Record>, late: Script)
    requires PrefixRecorded(scripts, applied)
    ensures PrefixRecorded(scripts + [late], applied) <==>
            late.id in applied || forall id :: id in applied ==> !AtMost(late.id, id)
  {
    var more := scripts + [late];
    forall id | Named(scripts, id) ensures Named(more, id) {
      var k :| 0 <= k < |scripts| && scripts[k].id == id;
      assert more[k].id == id;
    }
    if PrefixRecorded(more, applied) && late.id !in applied {
      forall id | id in applied ensures !AtMost(late.id, id) {
        var k :| 0 <= k < |scripts| && scripts[k].id == id;
        assert more[k].id == id && more[|scripts|] == late;
      }
    }
    if late.id in applied || forall id :: id in applied ==> !AtMost(late.id, id) {
      forall p, q | 0 <= p < |more| && 0 <= q < |more| && AtMost(more[p].id, more[q].id) && more[q].id in applied
        ensures more[p].id in applied
      {
        if p < |scripts| && q == |scripts| {
          var k :| 0 <= k < |scripts| && scripts[k].id == late.id;
          assert scripts[k].id in applied;
        }
      }
    }
  }
}
