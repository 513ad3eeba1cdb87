/**
 Choosing the next assignee when a chore is completed (internal/chore/handler.go, checkNextAssignee
 and its helpers), and what the choices add up to over a run of completions.
 */
module Assignment {
  import opened Common

  type UserId = int

  datatype Strategy =
    | LeastAssigned
    | LeastCompleted
    | Random
    | NoAssignee
    | KeepLastAssigned
    | RandomExceptLastAssigned
    | RoundRobin
    | Unknown(name: string)

  datatype Entry = Entry(assignedTo: Option<UserId>, completedBy: UserId)

  datatype Choice = Next(assignee: Option<UserId>) | NoAssigneesAvailable | InvalidStrategy

  const MAX_INT64: int := 0x7FFF_FFFF_FFFF_FFFF

  predicate Distinct(s: seq<UserId>) {
    forall i, j :: 0 <= i < j < |s| ==> s[i] != s[j]
  }

  // ---------- What may be chosen ----------

  function Assigned(h: seq<Entry>, u: UserId): nat {
    if h == [] then 0
    else Assigned(h[..|h| - 1], u) + if h[|h| - 1].assignedTo == Some(u) then 1 else 0
  }

  function Completed(h: seq<Entry>, u: UserId): nat {
    if h == [] then 0
    else Completed(h[..|h| - 1], u) + if h[|h| - 1].completedBy == u then 1 else 0
  }

  /** With no history the current completion stands in for it, as an assignment of the performer;
      its `completedBy` is left at the zero id. */
  function Considered(h: seq<Entry>, performer: UserId): seq<Entry> {
    if h == [] then [Entry(Some(performer), 0)] else h
  }

  function Count(strategy: Strategy, h: seq<Entry>, u: UserId): nat {
    if strategy == LeastCompleted then Completed(h, u) else Assigned(h, u)
  }

  predicate Least(strategy: Strategy, assignees: seq<UserId>, h: seq<Entry>, u: UserId) {
    u in assignees && forall a :: a in assignees ==> Count(strategy, h, u) <= Count(strategy, h, a)
  }

  function IndexIn(s: seq<UserId>, u: UserId): (i: nat)
    ensures i <= |s| && (i < |s| ==> s[i] == u) && (i == |s| <==> u !in s)
  {
    if s == [] then 0 else if s[0] == u then 0 else 1 + IndexIn(s[1..], u)
  }

  /** The assignees after the current one in circular order; the first if there is no current one. */
  function After(assignees: seq<UserId>, current: Option<UserId>): UserId
    requires assignees != []
  {
    if current.None? || current.value !in assignees then assignees[0]
    else assignees[(IndexIn(assignees, current.value) + 1) % |assignees|]
  }

  /** The outcomes the strategy allows, over every random draw and every map iteration order. */
  predicate Allowed(strategy: Strategy, assignees: seq<UserId>, assignedTo: Option<UserId>, h: seq<Entry>,
                    performer: UserId, choice: Choice)
  {
    match strategy
    case Unknown(_) => choice == InvalidStrategy
    case NoAssignee => choice == Next(None)
    case KeepLastAssigned => choice == Next(assignedTo)
    case RoundRobin =>
      if assignees == [] then choice == NoAssigneesAvailable
      else choice == Next(Some(After(assignees, assignedTo)))
    case RandomExceptLastAssigned =>
      if forall a :: a in assignees ==> Some(a) == assignedTo then choice == Next(None)
      else choice.Next? && choice.assignee.Some? && choice.assignee.value in assignees && choice.assignee != assignedTo
    case Random =>
      if assignees == [] then choice == Next(None)
      else choice.Next? && choice.assignee.Some? && choice.assignee.value in assignees
    case _ =>
      if assignees == [] then choice == Next(None)
      else choice.Next? && choice.assignee.Some?
           && Least(strategy, assignees, Considered(h, performer), choice.assignee.value)
  }

  // ---------- The code ----------

  method Intn(n: nat) returns (k: nat)
    requires 0 < n
    ensures k < n
  {
    k :| 0 <= k < n;
  }

  method IndexOf(arr: array<UserId>, value: UserId) returns (i: int)
    ensures if value in arr[..] then i == IndexIn(arr[..], value) else i == -1
  {
    i := 0;
    while i < arr.Length
      invariant 0 <= i <= arr.Length && value !in arr[..i]
    {
      if arr[i] == value {
        FirstIndex(arr[..], i);
        return;
      }
      i := i + 1;
    }
    i := -1;
  }

  lemma {:induction false} FirstIndex(s: seq<UserId>, i: nat)
    requires i < |s| && s[i] !in s[..i]
    ensures IndexIn(s, s[i]) == i
  {
    if i == 0 {
    } else {
      assert s[1..][..i - 1] == s[1..i];
      assert s[0] in s[..i];
      FirstIndex(s[1..], i - 1);
    }
  }

  /** Takes one user out of a slice in place, moving the last element into the gap; the result is the
      first `n` elements. */
  method Remove(s: array<UserId>, u: UserId) returns (n: nat)
    requires Distinct(s[..])
    modifies s
    ensures n <= s.Length
    ensures forall a :: a in s[..n] <==> a in old(s[..]) && a != u
  {
    var target := IndexOf(s, u);
    if target == -1 {
      return s.Length;
    }
    ghost var was := s[..];
    s[target] := s[s.Length - 1];
    n := s.Length - 1;
    forall a | a in was && a != u ensures a in s[..n] {
      var k :| 0 <= k < |was| && was[k] == a;
      if k == n { assert s[..n][target] == a; } else { assert s[..n][k] == a; }
    }
    forall a | a in s[..n] ensures a in was && a != u {
      var k :| 0 <= k < n && s[..n][k] == a;
      assert was[k] == a || was[n] == a;
    }
  }

  lemma {:induction false} CountBound(strategy: Strategy, h: seq<Entry>, u: UserId)
    ensures Count(strategy, h, u) <= |h|
  {
    if h == [] {
    } else {
      CountBound(strategy, h[..|h| - 1], u);
    }
  }

  lemma SomeUser(users: set<UserId>)
    ensures users == {} || exists u :: u in users
  {
    if forall u :: u !in users { assert users == {}; }
  }

  method AnyOf(users: set<UserId>) returns (u: UserId)
    requires users != {}
    ensures u in users
  {
    SomeUser(users);
    u :| u in users;
  }

  /** The assignee with the smallest count, in whatever order the map is walked. */
  method FewestChores(strategy: Strategy, assignees: array<UserId>, h: seq<Entry>) returns (best: Option<UserId>)
    requires strategy.LeastAssigned? || strategy.LeastCompleted?
    requires |h| < MAX_INT64
    ensures if assignees.Length == 0 then best == None
            else best.Some? && Least(strategy, assignees[..], h, best.value)
  {
    var assigneeChores: map<UserId, int> := map[];
    for i := 0 to assignees.Length
      invariant assigneeChores.Keys == set a | a in assignees[..i]
      invariant forall a :: a in assigneeChores ==> assigneeChores[a] == 0
    {
      assert assignees[..i + 1] == assignees[..i] + [assignees[i]];
      assigneeChores := assigneeChores[assignees[i] := 0];
    }
    assert assignees[..assignees.Length] == assignees[..];
    for i := 0 to |h|
      invariant assigneeChores.Keys == set a | a in assignees[..]
      invariant forall a :: a in assigneeChores ==> assigneeChores[a] == Count(strategy, h[..i], a)
    {
      assert h[..i + 1][..i] == h[..i];
      if strategy == LeastAssigned {
        if h[i].assignedTo.Some? && h[i].assignedTo.value in assigneeChores {
          var who := h[i].assignedTo.value;
          assigneeChores := assigneeChores[who := assigneeChores[who] + 1];
        }
      } else {
        if h[i].completedBy in assigneeChores {
          var who := h[i].completedBy;
          assigneeChores := assigneeChores[who := assigneeChores[who] + 1];
        }
      }
    }
    assert h[..|h|] == h;
    var minChores, bestAssignee := MAX_INT64, 0;
    var left := assigneeChores.Keys;
    while left != {}
      invariant left <= assigneeChores.Keys
      invariant forall a :: a in assigneeChores && a !in left ==> minChores <= assigneeChores[a]
      invariant left != assigneeChores.Keys ==>
          bestAssignee in assigneeChores && minChores == assigneeChores[bestAssignee]
      invariant left == assigneeChores.Keys ==> minChores == MAX_INT64
      decreases left
    {
      var a := AnyOf(left);
      left := left - {a};
      CountBound(strategy, h, a);
      if assigneeChores[a] < minChores {
        minChores, bestAssignee := assigneeChores[a], a;
      }
    }
    assert assignees.Length > 0 ==> assignees[0] in assigneeChores;
    if |assigneeChores| > 0 {
      best := Some(bestAssignee);
    } else {
      best := None;
    }
  }

  /** The caller's list is only read: random_except_last works on a copy. */
  method CheckNextAssignee(strategy: Strategy, assignees: array<UserId>, assignedTo: Option<UserId>,
                           choresHistory: seq<Entry>, performer: UserId) returns (choice: Choice)
    requires Distinct(assignees[..]) && |choresHistory| < MAX_INT64
    ensures Allowed(strategy, assignees[..], assignedTo, choresHistory, performer, choice)
  {
    var history := choresHistory;
    if |history| == 0 {
      history := history + [Entry(Some(performer), 0)];
    }
    match strategy {
      case LeastAssigned =>
        var best := FewestChores(strategy, assignees, history);
        choice := Next(best);
      case LeastCompleted =>
        var best := FewestChores(strategy, assignees, history);
        choice := Next(best);
      case Random =>
        choice := Next(None);
        if assignees.Length > 0 {
          var k := Intn(assignees.Length);
          choice := Next(Some(assignees[k]));
        }
      case NoAssignee =>
        choice := Next(None);
      case KeepLastAssigned =>
        choice := Next(assignedTo);
      case RandomExceptLastAssigned =>
        var copied := new UserId[assignees.Length](i requires 0 <= i < assignees.Length reads assignees =>
          assignees[i]);
        assert copied[..] == assignees[..];
        var n := copied.Length;
        if assignedTo.Some? {
          n := Remove(copied, assignedTo.value);
        }
        choice := Next(None);
        if n > 0 {
          var k := Intn(n);
          assert copied[k] in copied[..n];
          choice := Next(Some(copied[k]));
        }
        assert forall a :: a in copied[..n] <==> a in assignees[..] && Some(a) != assignedTo;
        if n > 0 { assert copied[..n][0] in assignees[..]; }
      case RoundRobin =>
        if assignees.Length == 0 {
          return NoAssigneesAvailable;
        }
        var currentIndex := -1;
        if assignedTo.Some? {
          currentIndex := IndexOf(assignees, assignedTo.value);
        }
        if currentIndex == -1 {
          choice := Next(Some(assignees[0]));
        } else {
          choice := Next(Some(assignees[(currentIndex + 1) % assignees.Length]));
        }
      case Unknown(_) =>
        choice := InvalidStrategy;
    }
  }

  // ---------- Runs of completions ----------

  /** What completing a recurring chore reads and writes: the assignee, and the history, to which the
      completion adds an entry for the assignee it had. */
  datatype Chore = Chore(assignedTo: Option<UserId>, history: seq<Entry>)

  /** One completion: the next assignee is chosen from the history before this completion is in it. */
  predicate Completes(strategy: Strategy, assignees: seq<UserId>, c: Chore, performer: UserId, c': Chore) {
    && Allowed(strategy, assignees, c.assignedTo, c.history, performer, Next(c'.assignedTo))
    && c'.history == c.history + [Entry(c.assignedTo, performer)]
  }

  ghost predicate IsRun(strategy: Strategy, assignees: seq<UserId>, chores: seq<Chore>, performers: seq<UserId>) {
    && |chores| == |performers| + 1
    && forall i :: 0 <= i < |performers| ==> Completes(strategy, assignees, chores[i], performers[i], chores[i + 1])
  }

  /** Every strategy keeps the chore unassigned or assigned to a current assignee. */
  lemma {:induction false} StaysAssignable(strategy: Strategy, assignees: seq<UserId>, chores: seq<Chore>,
                                           performers: seq<UserId>, n: nat)
    requires IsRun(strategy, assignees, chores, performers) && n < |chores|
    requires chores[0].assignedTo.Some? ==> chores[0].assignedTo.value in assignees
    ensures chores[n].assignedTo.Some? ==> chores[n].assignedTo.value in assignees
  {
    if n == 0 {
    } else {
      StaysAssignable(strategy, assignees, chores, performers, n - 1);
      assert Completes(strategy, assignees, chores[n - 1], performers[n - 1], chores[n]);
    }
  }

  /** random_except_last never gives a chore to the same person twice running. */
  lemma NeverTwiceRunning(assignees: seq<UserId>, chores: seq<Chore>, performers: seq<UserId>, n: nat)
    requires IsRun(RandomExceptLastAssigned, assignees, chores, performers) && n < |performers|
    ensures chores[n].assignedTo.Some? ==> chores[n + 1].assignedTo != chores[n].assignedTo
    ensures chores[n + 1].assignedTo == None <==> forall a :: a in assignees ==> Some(a) == chores[n].assignedTo
  {
    assert Completes(RandomExceptLastAssigned, assignees, chores[n], performers[n], chores[n + 1]);
  }

  // ---------- What each strategy comes to ----------

  /** An error exactly for a strategy that is not known, or a round with nobody in it. */
  lemma ErrorsExactly(strategy: Strategy, assignees: seq<UserId>, assignedTo: Option<UserId>, h: seq<Entry>,
                      performer: UserId, choice: Choice)
    requires Allowed(strategy, assignees, assignedTo, h, performer, choice)
    ensures choice == InvalidStrategy <==> strategy.Unknown?
    ensures choice == NoAssigneesAvailable <==> strategy == RoundRobin && |assignees| == 0
  {}

  /** Nobody is next exactly under no_assignee, under keep_last if nobody was, and if nobody can be. */
  lemma NobodyExactly(strategy: Strategy, assignees: seq<UserId>, assignedTo: Option<UserId>, h: seq<Entry>,
                      performer: UserId, choice: Choice)
    requires Allowed(strategy, assignees, assignedTo, h, performer, choice)
    ensures choice == Next(None) <==>
            || strategy == NoAssignee
            || (strategy == KeepLastAssigned && assignedTo == None)
            || (strategy in {LeastAssigned, LeastCompleted, Random} && |assignees| == 0)
            || (strategy == RandomExceptLastAssigned && forall i :: 0 <= i < |assignees| ==>
                Some(assignees[i]) == assignedTo)
  {
    assert forall i :: 0 <= i < |assignees| ==> assignees[i] in assignees;
    if strategy == RandomExceptLastAssigned && exists a :: a in assignees && Some(a) != assignedTo {
      var a :| a in assignees && Some(a) != assignedTo;
      var i :| 0 <= i < |assignees| && assignees[i] == a;
    }
  }

  /** keep_last never changes the assignee, over any run. */
  lemma {:induction false} KeptForGood(assignees: seq<UserId>, chores: seq<Chore>, performers: seq<UserId>, n: nat)
    requires IsRun(KeepLastAssigned, assignees, chores, performers) && n < |chores|
    ensures chores[n].assignedTo == chores[0].assignedTo
  {
    if n == 0 {
    } else {
      KeptForGood(assignees, chores, performers, n - 1);
      assert Completes(KeepLastAssigned, assignees, chores[n - 1], performers[n - 1], chores[n]);
    }
  }

  /** The history rows that count for a user: those assigned to them, or completed by them. */
  function RowsOf(strategy: Strategy, h: seq<Entry>, u: UserId): set<nat> {
    if strategy == LeastCompleted then set i: nat | i < |h| && h[i].completedBy == u
    else set i: nat | i < |h| && h[i].assignedTo == Some(u)
  }

  lemma LastRow(strategy: Strategy, h: seq<Entry>, u: UserId)
    requires h != []
    ensures var earlier, last := RowsOf(strategy, h[..|h| - 1], u), |h| - 1;
            && last !in earlier
            && RowsOf(strategy, h, u) == earlier + if last in RowsOf(strategy, h, u) then {last} else {}
  {}

  lemma {:induction false} CountIsRows(strategy: Strategy, h: seq<Entry>, u: UserId)
    ensures Count(strategy, h, u) == |RowsOf(strategy, h, u)|
  {
    if h == [] {
      assert RowsOf(strategy, h, u) == {};
    } else {
      CountIsRows(strategy, h[..|h| - 1], u);
      LastRow(strategy, h, u);
    }
  }

  /** The first completion of all counts for the performer under least_assigned, so the chore goes to somebody
      else if there is anybody; under least_completed it counts for nobody, and may go to anybody. */
  lemma FirstCompletion(assignees: seq<UserId>, assignedTo: Option<UserId>, performer: UserId, next: UserId)
    ensures Allowed(LeastAssigned, assignees, assignedTo, [], performer, Next(Some(next))) <==>
            next in assignees && (next == performer ==> forall a :: a in assignees ==> a == performer)
    ensures 0 !in assignees ==>
              (Allowed(LeastCompleted, assignees, assignedTo, [], performer, Next(Some(next))) <==> next in assignees)
  {
    OneMore([], Entry(Some(performer), 0));
    assert [] + [Entry(Some(performer), 0)] == [Entry(Some(performer), 0)];
    assert forall u :: Assigned([], u) == 0 == Completed([], u);
  }

  /** A round starts at the front if nobody in it has the chore. */
  lemma RoundRobinStart(assignees: seq<UserId>, assignedTo: Option<UserId>, h: seq<Entry>, performer: UserId,
                        choice: Choice)
    requires |assignees| > 0 && forall i :: 0 <= i < |assignees| ==> Some(assignees[i]) != assignedTo
    ensures Allowed(RoundRobin, assignees, assignedTo, h, performer, choice) <==> choice == Next(Some(assignees[0]))
  {
    assert assignedTo.Some? ==> assignedTo.value !in assignees;
  }

  // ---------- Fairness ----------

  /** No two assignees' counts are more than 2 apart, and the one now assigned is at most 1 above any
      other: it was chosen as least before the last completion was counted. */
  ghost predicate Balanced(strategy: Strategy, assignees: seq<UserId>, c: Chore) {
    && (forall a, b :: a in assignees && b in assignees ==>
        Count(strategy, c.history, a) <= Count(strategy, c.history, b) + 2)
    && (forall b :: c.assignedTo.Some? && c.assignedTo.value in assignees && b in assignees ==>
          Count(strategy, c.history, c.assignedTo.value) <= Count(strategy, c.history, b) + 1)
  }

  lemma CompletionKeepsBalance(strategy: Strategy, assignees: seq<UserId>, c: Chore, performer: UserId, c': Chore)
    requires strategy.LeastAssigned? || strategy.LeastCompleted?
    requires strategy.LeastCompleted? ==> c.assignedTo == Some(performer)
    requires Balanced(strategy, assignees, c) && Completes(strategy, assignees, c, performer, c')
    ensures Balanced(strategy, assignees, c')
  {
    assert c'.history[..|c.history|] == c.history;
    assert forall u :: Count(strategy, c'.history, u)
                    == Count(strategy, c.history, u) + if c.assignedTo == Some(u) then 1 else 0;
    if assignees != [] {
      var next := c'.assignedTo.value;
      assert c.history != [] ==> forall b :: b in assignees ==>
          Count(strategy, c.history, next) <= Count(strategy, c.history, b);
      assert c.history == [] ==> forall b :: Count(strategy, c.history, b) == 0;
    }
  }

  lemma {:induction false} RunStaysBalanced(strategy: Strategy, assignees: seq<UserId>, chores: seq<Chore>,
                                            performers: seq<UserId>, n: nat)
    requires strategy.LeastAssigned? || strategy.LeastCompleted?
    requires IsRun(strategy, assignees, chores, performers) && n < |chores| && chores[0].history == []
    requires strategy.LeastCompleted? ==> forall i :: 0 <= i < |performers| ==>
        chores[i].assignedTo == Some(performers[i])
    ensures Balanced(strategy, assignees, chores[n])
  {
    if n == 0 {
    } else {
      RunStaysBalanced(strategy, assignees, chores, performers, n - 1);
      CompletionKeepsBalance(strategy, assignees, chores[n - 1], performers[n - 1], chores[n]);
    }
  }

  /** least_assigned, from an empty history: whoever performs and however ties are broken, no two
      assignees' recorded counts are ever more than 2 apart. */
  lemma LeastAssignedIsFair(assignees: seq<UserId>, chores: seq<Chore>, performers: seq<UserId>, n: nat, a: UserId,
                            b: UserId)
    requires IsRun(LeastAssigned, assignees, chores, performers) && n < |chores| && chores[0].history == []
    requires a in assignees && b in assignees
    ensures -2 <= Assigned(chores[n].history, a) - Assigned(chores[n].history, b) <= 2
  {
    RunStaysBalanced(LeastAssigned, assignees, chores, performers, n);
    assert Count(LeastAssigned, chores[n].history, a) == Assigned(chores[n].history, a);
    assert Count(LeastAssigned, chores[n].history, b) == Assigned(chores[n].history, b);
  }

  /** least_completed is as fair when each completion is by the person assigned. */
  lemma LeastCompletedIsFair(assignees: seq<UserId>, chores: seq<Chore>, performers: seq<UserId>, n: nat, a: UserId,
                             b: UserId)
    requires IsRun(LeastCompleted, assignees, chores, performers) && n < |chores| && chores[0].history == []
    requires forall i :: 0 <= i < |performers| ==> chores[i].assignedTo == Some(performers[i])
    requires a in assignees && b in assignees
    ensures -2 <= Completed(chores[n].history, a) - Completed(chores[n].history, b) <= 2
  {
    RunStaysBalanced(LeastCompleted, assignees, chores, performers, n);
    assert Count(LeastCompleted, chores[n].history, a) == Completed(chores[n].history, a);
    assert Count(LeastCompleted, chores[n].history, b) == Completed(chores[n].history, b);
  }

  /** A difference of 2 does occur: the history is read before the completion is written, so the
      first two choices can both fall on the same person. */
  lemma TwoApart(a: UserId, b: UserId) returns (chores: seq<Chore>)
    requires a != b
    ensures IsRun(LeastAssigned, [a, b], chores, [b, a]) && chores[0].history == []
    ensures Assigned(chores[2].history, a) - Assigned(chores[2].history, b) == 2
  {
    var entry := Entry(Some(a), b);
    var again := Entry(Some(a), a);
    chores := [Chore(Some(a), []), Chore(Some(a), [entry]), Chore(Some(b), [entry, again])];
    OneMore([], Entry(Some(b), 0));
    OneMore([], entry);
    OneMore([entry], again);
    assert [] + [entry] == [entry] && [] + [Entry(Some(b), 0)] == [Entry(Some(b), 0)]
        && [entry] + [again] == [entry, again];
    assert forall u :: u in [a, b] ==> u == a || u == b;
    assert Least(LeastAssigned, [a, b], [Entry(Some(b), 0)], a);
    assert Completes(LeastAssigned, [a, b], chores[0], b, chores[1]);
    assert Least(LeastAssigned, [a, b], [entry], b);
    assert Completes(LeastAssigned, [a, b], chores[1], a, chores[2]);
  }

  function Gap(strategy: Strategy, c: Chore, a: UserId, b: UserId): int {
    Count(strategy, c.history, a) - Count(strategy, c.history, b)
  }

  /** `a` is assigned again although `b` was level with it before its last completion was counted. */
  predicate AssignedAgain(strategy: Strategy, c: Chore, c': Chore, a: UserId, b: UserId) {
    a != b && c.assignedTo == c'.assignedTo == Some(a) && Gap(strategy, c, a, b) == 0
  }

  lemma GapStep(strategy: Strategy, assignees: seq<UserId>, c: Chore, performer: UserId, c': Chore, a: UserId,
                b: UserId)
    requires strategy.LeastAssigned? || strategy.LeastCompleted?
    requires strategy.LeastCompleted? ==> c.assignedTo == Some(performer)
    requires Completes(strategy, assignees, c, performer, c')
    ensures Gap(strategy, c', a, b)
         == Gap(strategy, c, a, b) + (if c.assignedTo == Some(a) then 1 else 0)
            - if c.assignedTo == Some(b) then 1 else 0
    ensures a in assignees && b in assignees && c'.assignedTo == Some(a) ==> Gap(strategy, c, a, b) <= 0
  {
    assert c'.history[..|c.history|] == c.history;
    assert forall u :: Count(strategy, c'.history, u)
                    == Count(strategy, c.history, u) + if c.assignedTo == Some(u) then 1 else 0;
    assert c.history == [] ==> forall u :: Count(strategy, c.history, u) == 0;
  }

  /** Over two completions: a gap comes to 2 exactly when the tie is broken for the person who is just
      completing the chore. */
  lemma GapReachesTwo(strategy: Strategy, assignees: seq<UserId>, c: Chore, p: UserId, c': Chore, q: UserId, c'': Chore,
                      a: UserId, b: UserId)
    requires strategy.LeastAssigned? || strategy.LeastCompleted?
    requires strategy.LeastCompleted? ==> c.assignedTo == Some(p) && c'.assignedTo == Some(q)
    requires Completes(strategy, assignees, c, p, c') && Completes(strategy, assignees, c', q, c'')
    requires a in assignees && b in assignees
    ensures Gap(strategy, c', a, b) < 2 && Gap(strategy, c'', a, b) == 2 <==> AssignedAgain(strategy, c, c', a, b)
  {
    hide Completes, Gap;
    GapStep(strategy, assignees, c, p, c', a, b);
    GapStep(strategy, assignees, c', q, c'', a, b);
  }

  ghost predicate WithinOne(strategy: Strategy, assignees: seq<UserId>, c: Chore) {
    forall a, b :: a in assignees && b in assignees ==> Gap(strategy, c, a, b) <= 1
  }

  ghost predicate TieRepeats(strategy: Strategy, assignees: seq<UserId>, chores: seq<Chore>, n: nat)
    requires n + 1 < |chores|
  {
    exists a, b :: a in assignees && b in assignees && AssignedAgain(strategy, chores[n], chores[n + 1], a, b)
  }

  /** Exactly when a run from an empty history stays within 1: when no tie is broken for the person who is
      just completing the chore, and completes it once more. */
  lemma {:induction false} FairWithinOne(strategy: Strategy, assignees: seq<UserId>, chores: seq<Chore>,
                                         performers: seq<UserId>, m: nat)
    requires strategy.LeastAssigned? || strategy.LeastCompleted?
    requires IsRun(strategy, assignees, chores, performers) && m < |chores| && chores[0].history == []
    requires strategy.LeastCompleted? ==> forall i :: 0 <= i < |performers| ==>
        chores[i].assignedTo == Some(performers[i])
    ensures (forall n :: 0 <= n <= m ==> WithinOne(strategy, assignees, chores[n]))
       <==> (forall n: nat :: n + 2 <= m ==> !TieRepeats(strategy, assignees, chores, n))
  {
    hide Completes, Gap, AssignedAgain;
    if m == 0 {
      NoGapYet(strategy, chores[0]);
    } else {
      FairWithinOne(strategy, assignees, chores, performers, m - 1);
      assert Completes(strategy, assignees, chores[m - 1], performers[m - 1], chores[m]);
      if m == 1 {
        NoGapYet(strategy, chores[0]);
        forall a, b | a in assignees && b in assignees ensures Gap(strategy, chores[1], a, b) <= 1 {
          GapStep(strategy, assignees, chores[0], performers[0], chores[1], a, b);
        }
      } else {
        var n := m - 2;
        assert Completes(strategy, assignees, chores[n], performers[n], chores[m - 1]);
        LastGap(strategy, assignees, chores[n], performers[n], chores[m - 1], performers[m - 1], chores[m]);
        assert TieRepeats(strategy, assignees, chores, n) <==>
               exists a, b :: a in assignees && b in assignees
                   && AssignedAgain(strategy, chores[n], chores[m - 1], a, b);
      }
    }
  }

  lemma LastGap(strategy: Strategy, assignees: seq<UserId>, c: Chore, p: UserId, c': Chore, q: UserId, c'': Chore)
    requires strategy.LeastAssigned? || strategy.LeastCompleted?
    requires strategy.LeastCompleted? ==> c.assignedTo == Some(p) && c'.assignedTo == Some(q)
    requires Completes(strategy, assignees, c, p, c') && Completes(strategy, assignees, c', q, c'')
    ensures WithinOne(strategy, assignees, c') ==>
              (WithinOne(strategy, assignees, c'') <==>
               !exists a, b :: a in assignees && b in assignees && AssignedAgain(strategy, c, c', a, b))
  {
    hide Completes, Gap, AssignedAgain;
    forall a, b | a in assignees && b in assignees
      ensures Gap(strategy, c', a, b) <= 1 ==>
          (Gap(strategy, c'', a, b) <= 1 <==> !AssignedAgain(strategy, c, c', a, b))
    {
      GapReachesTwo(strategy, assignees, c, p, c', q, c'', a, b);
      GapStep(strategy, assignees, c', q, c'', a, b);
    }
  }

  lemma NoGapYet(strategy: Strategy, c: Chore)
    requires c.history == []
    ensures forall a, b :: Gap(strategy, c, a, b) == 0
  {}

  lemma OneMore(h: seq<Entry>, e: Entry)
    ensures forall u :: Assigned(h + [e], u) == Assigned(h, u) + if e.assignedTo == Some(u) then 1 else 0
    ensures forall u :: Completed(h + [e], u) == Completed(h, u) + if e.completedBy == u then 1 else 0
  {
    assert (h + [e])[..|h|] == h;
  }

  // ---------- Round robin ----------

  lemma {:induction false} RoundRobinStep(assignees: seq<UserId>, i: nat)
    requires Distinct(assignees) && i < |assignees|
    ensures After(assignees, Some(assignees[i])) == assignees[Wrap(i + 1, |assignees|)]
  {
    assert assignees[i] !in assignees[..i];
    FirstIndex(assignees, i);
    WrapIsRemainder(i + 1, |assignees|);
  }

  function Wrap(i: nat, n: nat): (r: nat)
    requires i < 2 * n
    ensures r < n
  {
    if i < n then i else i - n
  }

  lemma WrapIsRemainder(i: nat, n: nat)
    requires i < 2 * n
    ensures i % n == Wrap(i, n)
  {}

  predicate Assigns(chores: seq<Chore>, k: nat, a: UserId)
    requires k < |chores|
  {
    chores[k].assignedTo == Some(a)
  }

  /** From any completion on, the assignments go round the list. */
  lemma {:induction false} RoundRobinWalk(assignees: seq<UserId>, chores: seq<Chore>, performers: seq<UserId>,
                                          start: nat, d: nat, q: nat)
    requires IsRun(RoundRobin, assignees, chores, performers) && Distinct(assignees)
    requires d < |assignees| && start + d < |chores| && q < |assignees|
    requires Assigns(chores, start, assignees[q])
    ensures Assigns(chores, start + d, assignees[Wrap(q + d, |assignees|)])
  {
    if d == 0 {
    } else {
      RoundRobinWalk(assignees, chores, performers, start, d - 1, q);
      assert Completes(RoundRobin, assignees, chores[start + d - 1], performers[start + d - 1], chores[start + d]);
      RoundRobinStep(assignees, Wrap(q + d - 1, |assignees|));
    }
  }

  /** Any |assignees| consecutive completions assign every assignee exactly once, wherever in the run
      they fall and whoever the chore was assigned to before. */
  lemma RoundRobinCycle(assignees: seq<UserId>, chores: seq<Chore>, performers: seq<UserId>, start: nat, a: UserId)
    requires IsRun(RoundRobin, assignees, chores, performers) && Distinct(assignees)
    requires start + |assignees| < |chores| && a in assignees
    ensures exists k :: start < k <= start + |assignees| && Assigns(chores, k, a)
                        && forall m :: start < m <= start + |assignees| && m != k ==> !Assigns(chores, m, a)
  {
    var n := |assignees|;
    assert Completes(RoundRobin, assignees, chores[start], performers[start], chores[start + 1]);
    var first := chores[start + 1].assignedTo.value;
    assert first in assignees;
    var q := IndexIn(assignees, first);
    var j := IndexIn(assignees, a);
    var k := start + 1 + if q <= j then j - q else j + n - q;
    RoundRobinWalk(assignees, chores, performers, start + 1, k - start - 1, q);
    assert Assigns(chores, k, a);
    forall m | start < m <= start + n && m != k ensures !Assigns(chores, m, a) {
      RoundRobinWalk(assignees, chores, performers, start + 1, m - start - 1, q);
      assert Wrap(q + m - start - 1, n) != j;
    }
  }
}
