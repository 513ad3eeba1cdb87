/**
 Refreshes that overlap (internal/auth/token_service.go, RefreshTokens): looking the token up, marking it
 used and storing its successor are separate statements, and marking has no guard on the mark
 (internal/user/repo/repository.go, MarkSessionUsed). Here each statement is one step, and the steps of
 any number of requests interleave freely.
 */
module TokenRaces {
  import T = TokenRotation

  type Request = int

  /** What a refresh has done so far: read an unused row, marked it, or found it used. */
  datatype Held =
    | Unmarked(token: T.Hash, row: T.Session)
    | Marked(row: T.Session)
    | Reused(family: T.Family)

  /** The table, what each refresh under way holds, and the tokens and families drawn since the start. */
  datatype State = State(sessions: map<T.Hash, T.Session>, held: map<Request, Held>, tokens: set<T.Hash>,
                         families: set<T.Family>)

  const START := State(map[], map[], {}, {})

  datatype Step =
    | LogIn(user: T.UserId, family: T.Family, issued: T.Hash, expires: T.Time)
    | LookUp(r: Request, token: T.Hash, at: T.Time)
    | Mark(r: Request)
    | Issue(r: Request, issued: T.Hash, expires: T.Time)
    | Fail(r: Request)
    | RevokeFamily(r: Request)
    | Revoke(token: T.Hash)
    | RevokeUser(user: T.UserId)
    | Delete(at: T.Time)

  /** Each request goes through its statements in order, and what is drawn is new. */
  predicate Enabled(s: State, step: Step) {
    match step
    case LogIn(_, family, issued, _) => family !in s.families && issued !in s.tokens
    case LookUp(r, _, _) => r !in s.held
    case Mark(r) => r in s.held && s.held[r].Unmarked?
    case Issue(r, issued, _) => r in s.held && s.held[r].Marked? && issued !in s.tokens
    case Fail(r) => r in s.held
    case RevokeFamily(r) => r in s.held && s.held[r].Reused?
    case _ => true
  }

  function MarkedUsed(sessions: map<T.Hash, T.Session>, token: T.Hash): map<T.Hash, T.Session> {
    if token in sessions then sessions[token := sessions[token].(used := true)] else sessions
  }

  function After(s: State, step: Step): State
    requires Enabled(s, step)
  {
    match step
    case LogIn(user, family, issued, expires) =>
      State(s.sessions[issued := T.Session(user, family, expires, false, false)], s.held,
            s.tokens + {issued}, s.families + {family})
    case LookUp(r, token, at) =>
      if !T.Found(s.sessions, token, at) then s
      else
        var row := s.sessions[token];
        s.(held := s.held[r := if row.used then Reused(row.family) else Unmarked(token, row)])
    case Mark(r) =>
      s.(sessions := MarkedUsed(s.sessions, s.held[r].token), held := s.held[r := Marked(s.held[r].row)])
    case Issue(r, issued, expires) =>
      var row := s.held[r].row;
      s.(sessions := s.sessions[issued := T.Session(row.user, row.family, expires, false, false)], held := s.held - {r},
         tokens := s.tokens + {issued})
    case Fail(r) => s.(held := s.held - {r})
    case RevokeFamily(r) => s.(sessions := T.RevokedFamily(s.sessions, s.held[r].family), held := s.held - {r})
    case Revoke(token) =>
      if token in s.sessions then s.(sessions := s.sessions[token := s.sessions[token].(revoked := true)]) else s
    case RevokeUser(user) => s.(sessions := T.RevokedUser(s.sessions, user))
    case Delete(at) =>
      s.(sessions := map h | h in s.sessions && !(s.sessions[h].expires < at || s.sessions[h].revoked) :: s.sessions[h])
  }

  // ---------- Runs ----------

  predicate IsRun(steps: seq<Step>)
    decreases |steps|, 0
  {
    steps == [] || (IsRun(steps[..|steps| - 1]) && Enabled(Run(steps[..|steps| - 1]), steps[|steps| - 1]))
  }

  function Run(steps: seq<Step>): State
    requires IsRun(steps)
    decreases |steps|, 1
  {
    if steps == [] then START else After(Run(steps[..|steps| - 1]), steps[|steps| - 1])
  }

  /** Every row is of a family that logged in, under a token that was drawn; a held row is the one under
      its token, as long as that is there. */
  ghost predicate Recorded(s: State) {
    && (forall h :: h in s.sessions ==> h in s.tokens && s.sessions[h].family in s.families)
    && (forall r :: r in s.held && s.held[r].Unmarked? ==>
          var token := s.held[r].token;
          && token in s.tokens && s.held[r].row.family in s.families
          && (token in s.sessions ==> s.sessions[token].family == s.held[r].row.family))
    && (forall r :: r in s.held && s.held[r].Marked? ==> s.held[r].row.family in s.families)
  }

  lemma RecordedStep(s: State, step: Step)
    requires Recorded(s) && Enabled(s, step)
    ensures Recorded(After(s, step))
  {}

  lemma {:induction false} RunRecorded(steps: seq<Step>)
    requires IsRun(steps)
    ensures Recorded(Run(steps))
  {
    hide After, Recorded, Enabled;
    if steps == [] {
      StartRecorded();
    } else {
      RunRecorded(steps[..|steps| - 1]);
      RecordedStep(Run(steps[..|steps| - 1]), steps[|steps| - 1]);
    }
  }

  lemma StartRecorded()
    ensures Recorded(START)
  {}

  // ---------- What is conserved ----------

  /** A family's unused rows, live or not. */
  function Unused(s: State, f: T.Family): set<T.Hash> {
    set h | h in s.sessions && s.sessions[h].family == f && !s.sessions[h].used
  }

  /** The refreshes of a family that have marked and not yet issued. */
  function Pending(s: State, f: T.Family): set<Request> {
    set r | r in s.held && s.held[r].Marked? && s.held[r].row.family == f
  }

  /** A mark that comes late: the row it marks has been marked already, or deleted. */
  predicate Late(s: State, step: Step, f: T.Family)
    requires Enabled(s, step)
  {
    && step.Mark? && s.held[step.r].row.family == f
    && !(s.held[step.r].token in s.sessions && !s.sessions[s.held[step.r].token].used)
  }

  /** What a step loses: a rotation given up after its mark, or the unused rows deleted. */
  function Lost(s: State, step: Step, f: T.Family): int
    requires Enabled(s, step)
  {
    if step.Fail? && step.r in Pending(s, f) then 1
    else if step.Delete? then |Unused(s, f)| - |Unused(After(s, step), f)|
    else 0
  }

  function AllLate(steps: seq<Step>, f: T.Family): nat
    requires IsRun(steps)
  {
    if steps == [] then 0
    else
      var before, last := steps[..|steps| - 1], steps[|steps| - 1];
      AllLate(before, f) + if Late(Run(before), last, f) then 1 else 0
  }

  function AllLost(steps: seq<Step>, f: T.Family): int
    requires IsRun(steps)
  {
    if steps == [] then 0
    else AllLost(steps[..|steps| - 1], f) + Lost(Run(steps[..|steps| - 1]), steps[|steps| - 1], f)
  }

  /** The unused rows of a family, and those a refresh is about to add. */
  function Weight(s: State, f: T.Family): nat {
    |Unused(s, f)| + |Pending(s, f)|
  }

  lemma MarkedSets(s: State, r: Request, f: T.Family)
    requires Recorded(s) && Enabled(s, Mark(r))
    ensures var t, held := After(s, Mark(r)), s.held[r];
            && Pending(t, f) == (if held.row.family == f then Pending(s, f) + {r} else Pending(s, f))
            && r !in Pending(s, f)
            && Unused(t, f) == Unused(s, f) - {held.token}
            && (held.token in Unused(s, f) <==> held.row.family == f && !Late(s, Mark(r), f))
  {}

  lemma IssuedSets(s: State, r: Request, issued: T.Hash, expires: T.Time, f: T.Family)
    requires Recorded(s) && Enabled(s, Issue(r, issued, expires))
    ensures var t, ours := After(s, Issue(r, issued, expires)), s.held[r].row.family == f;
            && Pending(t, f) == Pending(s, f) - {r} && (ours <==> r in Pending(s, f))
            && Unused(t, f) == (if ours then Unused(s, f) + {issued} else Unused(s, f)) && issued !in Unused(s, f)
  {
    assert issued !in s.sessions;
  }

  lemma LogInSets(s: State, step: Step, f: T.Family)
    requires Recorded(s) && Enabled(s, step) && step.LogIn?
    ensures var t := After(s, step);
            && Pending(t, f) == Pending(s, f)
            && Unused(t, f) == (if step.family == f then Unused(s, f) + {step.issued} else Unused(s, f))
            && step.issued !in Unused(s, f)
  {
    assert step.issued !in s.sessions;
  }

  lemma OtherSets(s: State, step: Step, f: T.Family)
    requires Enabled(s, step) && !step.Mark? && !step.Issue? && !step.LogIn?
    ensures Pending(After(s, step), f) == if step.Fail? then Pending(s, f) - {step.r} else Pending(s, f)
    ensures !step.Delete? ==> Unused(After(s, step), f) == Unused(s, f)
  {}

  /** One step, weighed. */
  lemma StepWeighs(s: State, step: Step, f: T.Family)
    requires Recorded(s) && Enabled(s, step)
    ensures Weight(After(s, step), f) + Lost(s, step, f)
         == Weight(s, f) + (if Late(s, step, f) then 1 else 0) + if step.LogIn? && step.family == f then 1 else 0
  {
    hide After, Recorded, Unused, Pending;
    match step
    case Mark(r) => MarkedSets(s, r, f);
    case Issue(r, issued, expires) => IssuedSets(s, r, issued, expires, f);
    case LogIn(_, _, _, _) => LogInSets(s, step, f);
    case _ => OtherSets(s, step, f);
  }

  /** Over every interleaving: a family has one unused row for its login and one for each mark that came
      late, less what was lost; the rows about to be added included. */
  lemma {:induction false} RowsConserved(steps: seq<Step>, f: T.Family)
    requires IsRun(steps)
    ensures Weight(Run(steps), f) + AllLost(steps, f)
         == AllLate(steps, f) + if f in Run(steps).families then 1 else 0
  {
    hide After, Weight, Recorded, Late, Lost, Enabled;
    if steps == [] {
      StartWeighs(f);
    } else {
      var before, last := steps[..|steps| - 1], steps[|steps| - 1];
      RowsConserved(before, f);
      RunRecorded(before);
      StepWeighs(Run(before), last, f);
      FamiliesStep(Run(before), last, f);
    }
  }

  lemma StartWeighs(f: T.Family)
    ensures Weight(START, f) == 0 && f !in START.families
  {
    assert Unused(START, f) == {} && Pending(START, f) == {};
  }

  lemma FamiliesStep(s: State, step: Step, f: T.Family)
    requires Enabled(s, step)
    ensures f in After(s, step).families <==> f in s.families || (step.LogIn? && step.family == f)
    ensures step.LogIn? && step.family == f ==> f !in s.families
  {}

  lemma {:induction false} LossesOnly(steps: seq<Step>, f: T.Family)
    requires IsRun(steps)
    ensures AllLost(steps, f) >= 0
  {
    if steps == [] {
    } else {
      var before, last := steps[..|steps| - 1], steps[|steps| - 1];
      LossesOnly(before, f);
      if last.Delete? { Smaller(Unused(After(Run(before), last), f), Unused(Run(before), f)); }
    }
  }

  lemma {:induction false} Smaller<A>(a: set<A>, b: set<A>)
    requires a <= b
    ensures |a| <= |b|
  {
    if a == {} {
    } else {
      var x :| x in a;
      Smaller(a - {x}, b - {x});
    }
  }

  /** So a family never has more unused rows than one and its late marks; without any, it has one. */
  lemma UnusedBound(steps: seq<Step>, f: T.Family)
    requires IsRun(steps)
    ensures |Unused(Run(steps), f)| <= 1 + AllLate(steps, f)
  {
    RowsConserved(steps, f);
    LossesOnly(steps, f);
  }

  // ---------- When a mark comes late ----------

  /** The token's row is there, and unused. */
  predicate Fresh(s: State, token: T.Hash) {
    token in s.sessions && !s.sessions[token].used
  }

  /** The step marks or deletes the token's row. */
  predicate Spends(s: State, step: Step, token: T.Hash)
    requires Enabled(s, step)
  {
    Fresh(s, token) && !Fresh(After(s, step), token)
  }

  /** Only a mark by some refresh or a deletion spends a token. */
  lemma SpentBy(s: State, step: Step, token: T.Hash)
    requires Recorded(s) && Enabled(s, step)
    ensures Spends(s, step, token) <==>
            && Fresh(s, token)
            && if step.Mark? then s.held[step.r].token == token
               else step.Delete? && (s.sessions[token].expires < step.at || s.sessions[token].revoked)
  {}

  lemma NeverFreshAgain(s: State, step: Step, token: T.Hash)
    requires Recorded(s) && Enabled(s, step) && token in s.tokens && !Fresh(s, token)
    ensures !Fresh(After(s, step), token)
  {}

  lemma TokensStay(s: State, step: Step)
    requires Enabled(s, step)
    ensures s.tokens <= After(s, step).tokens
  {}

  /** The state before step `k`. */
  function At(steps: seq<Step>, k: nat): State
    requires IsRun(steps) && k <= |steps|
  {
    Earlier(steps, k);
    Run(steps[..k])
  }

  lemma {:induction false} Earlier(steps: seq<Step>, k: nat)
    requires IsRun(steps) && k <= |steps|
    ensures IsRun(steps[..k])
    decreases |steps|
  {
    if k == |steps| {
      assert steps[..k] == steps;
    } else {
      Earlier(steps[..|steps| - 1], k);
      assert steps[..|steps| - 1][..k] == steps[..k];
    }
  }

  lemma AtNext(steps: seq<Step>, k: nat)
    requires IsRun(steps) && k < |steps|
    ensures Enabled(At(steps, k), steps[k]) && At(steps, k + 1) == After(At(steps, k), steps[k])
    ensures Recorded(At(steps, k))
  {
    Earlier(steps, k + 1);
    Earlier(steps, k);
    assert steps[..k + 1][..k] == steps[..k];
    RunRecorded(steps[..k]);
  }

  ghost predicate SpentIn(steps: seq<Step>, i: nat, j: nat, token: T.Hash)
    requires IsRun(steps) && i <= j <= |steps|
  {
    exists k :: i <= k < j && SpentAt(steps, k, token)
  }

  ghost predicate SpentAt(steps: seq<Step>, k: nat, token: T.Hash)
    requires IsRun(steps) && k < |steps|
  {
    AtNext(steps, k);
    Spends(At(steps, k), steps[k], token)
  }

  /** A token that is fresh stays so until it is spent, and is never fresh again. */
  lemma {:induction false} FreshUntilSpent(steps: seq<Step>, i: nat, j: nat, token: T.Hash)
    requires IsRun(steps) && i <= j <= |steps| && Fresh(At(steps, i), token)
    ensures token in At(steps, j).tokens
    ensures Fresh(At(steps, j), token) <==> !SpentIn(steps, i, j, token)
  {
    hide After, IsRun, Run, At;
    if i == j {
      Earlier(steps, i);
      RunRecorded(steps[..i]);
      AtIs(steps, i);
      InTokens(At(steps, i), token);
    } else {
      FreshUntilSpent(steps, i, j - 1, token);
      AtNext(steps, j - 1);
      var s := At(steps, j - 1);
      TokensStay(s, steps[j - 1]);
      assert SpentAt(steps, j - 1, token) <==> Spends(s, steps[j - 1], token);
      assert SpentIn(steps, i, j, token) <==> SpentIn(steps, i, j - 1, token) || SpentAt(steps, j - 1, token);
      if !Fresh(s, token) { NeverFreshAgain(s, steps[j - 1], token); }
    }
  }

  lemma AtIs(steps: seq<Step>, k: nat)
    requires IsRun(steps) && k <= |steps|
    ensures IsRun(steps[..k]) && At(steps, k) == Run(steps[..k])
  {
    Earlier(steps, k);
  }

  lemma InTokens(s: State, token: T.Hash)
    requires Recorded(s) && Fresh(s, token)
    ensures token in s.tokens
  {}

  /** The request's lookup at step `i` read an unused row, which it still holds before step `j`. */
  ghost predicate Holds(steps: seq<Step>, i: nat, j: nat, r: Request)
    requires IsRun(steps) && i < j <= |steps|
  {
    && steps[i].LookUp? && steps[i].r == r
    && r in At(steps, j).held && At(steps, j).held[r].Unmarked? && At(steps, j).held[r].token == steps[i].token
    && Fresh(At(steps, i), steps[i].token) && Fresh(At(steps, i + 1), steps[i].token)
  }

  lemma LookedUp(s: State, step: Step, r: Request)
    requires Enabled(s, step) && r in After(s, step).held && After(s, step).held[r].Unmarked?
    ensures if r in s.held then s.held[r] == After(s, step).held[r]
            else step.LookUp? && step.r == r && After(s, step).held[r].token == step.token
                 && Fresh(s, step.token) && Fresh(After(s, step), step.token)
  {}

  /** Whatever a request holds unmarked, it read at some lookup. */
  lemma {:induction false} EveryMarkWasRead(steps: seq<Step>, j: nat, r: Request) returns (i: nat)
    requires IsRun(steps) && j <= |steps| && r in At(steps, j).held && At(steps, j).held[r].Unmarked?
    ensures i < j && Holds(steps, i, j, r)
  {
    hide After, IsRun, Run, At;
    if j == 0 {
      AtIs(steps, 0);
      NothingHeld(steps);
    } else {
      AtNext(steps, j - 1);
      LookedUp(At(steps, j - 1), steps[j - 1], r);
      if r in At(steps, j - 1).held {
        i := EveryMarkWasRead(steps, j - 1, r);
      } else {
        i := j - 1;
      }
    }
  }

  lemma NothingHeld(steps: seq<Step>)
    requires IsRun(steps)
    ensures At(steps, 0).held == map[]
  {
    AtIs(steps, 0);
    assert steps[..0] == [];
  }

  /** A mark comes late exactly when, since the same request looked the token up, another refresh has
      marked it or a cleanup has deleted it. */
  lemma LateMeansOverlap(steps: seq<Step>, j: nat) returns (i: nat)
    requires IsRun(steps) && j < |steps| && steps[j].Mark? && Enabled(At(steps, j), steps[j])
    ensures var r := steps[j].r;
            && i < j && Holds(steps, i, j, r)
            && (Late(At(steps, j), steps[j], At(steps, j).held[r].row.family) <==>
                SpentIn(steps, i + 1, j, steps[i].token))
  {
    hide After, IsRun, Run, At, SpentIn;
    i := EveryMarkWasRead(steps, j, steps[j].r);
    FreshUntilSpent(steps, i + 1, j, steps[i].token);
  }

  /** Each refresh marks right after it has looked up. */
  predicate AtomicReads(steps: seq<Step>) {
    forall j :: 0 <= j < |steps| && steps[j].Mark? ==> j > 0 && steps[j - 1].LookUp? && steps[j - 1].r == steps[j].r
  }

  lemma {:induction false} NeverLate(steps: seq<Step>, f: T.Family)
    requires IsRun(steps) && AtomicReads(steps)
    ensures AllLate(steps, f) == 0
  {
    hide Run, After, Enabled;
    if steps == [] {
    } else {
      var j := |steps| - 1;
      NeverLate(steps[..j], f);
      AtIs(steps, j);
      if steps[j].Mark? {
        AtNext(steps, j);
        var i := LateMeansOverlap(steps, j);
        AtNext(steps, j - 1);
        HeldSince(steps, i, j);
      }
    }
  }

  /** If it did, with nothing in between, the lookup it holds is that one. */
  lemma HeldSince(steps: seq<Step>, i: nat, j: nat)
    requires IsRun(steps) && i < j < |steps| && steps[j].Mark? && Holds(steps, i, j, steps[j].r)
    requires steps[j - 1].LookUp? && steps[j - 1].r == steps[j].r
    requires Enabled(At(steps, j - 1), steps[j - 1]) && At(steps, j) == After(At(steps, j - 1), steps[j - 1])
    ensures !SpentIn(steps, i + 1, j, steps[i].token)
  {
    hide IsRun, Run, At;
    var r, token := steps[j].r, steps[i].token;
    assert r !in At(steps, j - 1).held;
    assert Fresh(At(steps, j), token);
    FreshUntilSpent(steps, i + 1, j, token);
  }

  /** With atomic lookups and marks, a family has at most one unused row whatever else interleaves. */
  lemma OneUnusedWhenAtomic(steps: seq<Step>, f: T.Family)
    requires IsRun(steps) && AtomicReads(steps)
    ensures |Unused(Run(steps), f)| <= 1
  {
    NeverLate(steps, f);
    UnusedBound(steps, f);
  }

  // ---------- One refresh at a time ----------

  /** A refresh with nothing in between does what the call does. */
  lemma OneAtATime(s: State, t: T.Store, c: T.Call, r: Request)
    requires c.Refresh? && s.sessions == t.sessions && r !in s.held && c.issued !in s.tokens && c.issued !in s.sessions
    ensures !T.Accepted(t, c) && !T.Replayed(t, c) ==>
              T.After(t, c).sessions == s.sessions && (c.fails != T.Lookup ==> After(s, LookUp(r, c.token, c.at)) == s)
    ensures T.Replayed(t, c) ==>
              var read := After(s, LookUp(r, c.token, c.at));
              var next := if c.fails == T.Revoke then Fail(r) else RevokeFamily(r);
              Enabled(read, next) && After(read, next) == s.(sessions := T.After(t, c).sessions)
    ensures T.Accepted(t, c) && c.fails == T.Mark ==>
              var read := After(s, LookUp(r, c.token, c.at));
              Enabled(read, Fail(r)) && After(read, Fail(r)) == s.(sessions := T.After(t, c).sessions)
    ensures T.Accepted(t, c) && c.fails != T.Mark ==>
              var read := After(s, LookUp(r, c.token, c.at));
              Enabled(read, Mark(r)) &&
              var marked := After(read, Mark(r));
              var next := if T.Issues(t, c) then Issue(r, c.issued, c.expires) else Fail(r);
              && Enabled(marked, next)
              && After(marked, next).sessions == T.After(t, c).sessions && After(marked, next).held == s.held
  {
    if T.Accepted(t, c) || T.Replayed(t, c) {
      var read := After(s, LookUp(r, c.token, c.at));
      assert read.held - {r} == s.held;
      if T.Accepted(t, c) && c.fails != T.Mark {
        assert After(read, Mark(r)).held - {r} == s.held;
      }
    }
  }

  /** So does each statement of the other calls. */
  lemma OthersAsCalls(s: State, t: T.Store, c: T.Call)
    requires s.sessions == t.sessions && s.tokens == t.tokens.Keys && s.families == t.owner.Keys
    requires c.fails == T.Nothing && T.Fresh(t, c) && T.Recorded(t)
    ensures c.Login? ==>
              var step := LogIn(c.user, c.family, c.issued, c.expires);
              && Enabled(s, step) && After(s, step).sessions == T.After(t, c).sessions
              && After(s, step).tokens == T.After(t, c).tokens.Keys
              && After(s, step).families == T.After(t, c).owner.Keys
    ensures c.Logout? ==>
              T.After(t, c).sessions
              == if T.Found(t.sessions, c.token, c.at) then After(s, Revoke(c.token)).sessions else s.sessions
    ensures c.LogoutAll? ==> T.After(t, c).sessions == After(s, RevokeUser(c.user)).sessions
    ensures c.Cleanup? ==> T.After(t, c).sessions == After(s, Delete(c.at)).sessions
  {}

  // ---------- Refreshes that race ----------

  /** The most refreshes ever under way at once. */
  function MostUnderWay(steps: seq<Step>): nat
    requires IsRun(steps)
  {
    if steps == [] then 0
    else
      var before, now := MostUnderWay(steps[..|steps| - 1]), |Run(steps).held|;
      if before < now then now else before
  }

  lemma Appended(steps: seq<Step>, step: Step, f: T.Family, c: nat)
    requires IsRun(steps) && Enabled(Run(steps), step)
    ensures IsRun(steps + [step]) && Run(steps + [step]) == After(Run(steps), step)
    ensures AllLate(steps + [step], f) == AllLate(steps, f) + if Late(Run(steps), step, f) then 1 else 0
    ensures AllLost(steps + [step], f) == AllLost(steps, f) + Lost(Run(steps), step, f)
    ensures MostUnderWay(steps) <= c && |After(Run(steps), step).held| <= c ==> MostUnderWay(steps + [step]) <= c
  {
    assert (steps + [step])[..|steps|] == steps;
  }

  /** The tokens that are drawn, one after another. */
  function Name(k: nat): string {
    if k == 0 then "" else Name(k - 1) + "+"
  }

  lemma {:induction false} NameLength(k: nat)
    ensures |Name(k)| == k
  {
    if k == 0 {
    } else {
      NameLength(k - 1);
    }
  }

  /** A run of the family "f" in which `k` tokens have been drawn, `late` marks came late and nothing was
      lost; the last token is unused. */
  ghost predicate Racing(steps: seq<Step>, k: nat, c: nat, late: nat) {
    && IsRun(steps) && AllLate(steps, "f") == late && AllLost(steps, "f") == 0 && MostUnderWay(steps) <= c
    && Drawn(Run(steps), k)
  }

  ghost predicate Drawn(s: State, k: nat) {
    "f" in s.families && forall h :: h in s.tokens ==> |h| < k
  }

  function Numbered(m: nat, c: nat): (rs: set<Request>)
    ensures forall r :: r in rs <==> m <= r < c
    ensures |rs| <= c
  {
    if c <= m then {} else Numbered(m, c - 1) + {c - 1}
  }

  /** The refreshes numbered below `c` hold the token, those below `m` of them having marked it. */
  function Holding(token: T.Hash, row: T.Session, m: nat, c: nat): map<Request, Held> {
    map r | r in Numbered(0, c) :: if r < m then Marked(row) else Unmarked(token, row)
  }

  function Issuing(row: T.Session, m: nat, c: nat): map<Request, Held> {
    map r | r in Numbered(m, c) :: Marked(row)
  }

  lemma FewHeld(held: map<Request, Held>, m: nat, c: nat)
    requires held.Keys == Numbered(m, c)
    ensures |held| <= c
  {}

  /** The tokens drawn by such a run, and the next one. */
  lemma RacingIsRun(steps: seq<Step>, k: nat, c: nat, late: nat)
    requires Racing(steps, k, c, late)
    ensures IsRun(steps) && Name(k) !in Run(steps).tokens && |Name(k)| == k
  {
    NameLength(k);
  }

  lemma StatementFacts(s: State, step: Step, f: T.Family)
    requires Enabled(s, step) && (step.LookUp? || step.Mark? || step.Issue?)
    ensures Lost(s, step, f) == 0
    ensures forall k: nat :: Drawn(s, k) && (step.Issue? ==> |step.issued| == k) ==>
              Drawn(After(s, step), if step.Issue? then k + 1 else k)
  {}

  /** One more statement of a refresh, which loses nothing. */
  lemma RacingOn(steps: seq<Step>, step: Step, k: nat, c: nat, late: nat, after: State, m: nat, n: nat)
    requires Racing(steps, k, c, late) && Enabled(Run(steps), step) && (step.LookUp? || step.Mark? || step.Issue?)
    requires After(Run(steps), step) == after && after.held.Keys == Numbered(m, n) && n <= c
    requires step.Issue? ==> |step.issued| == k
    ensures IsRun(steps + [step]) && Run(steps + [step]) == after
    ensures Racing(steps + [step], if step.Issue? then k + 1 else k, c,
                   late + if Late(Run(steps), step, "f") then 1 else 0)
  {
    hide IsRun, Run, After, Enabled, AllLate, AllLost, MostUnderWay, Late, Lost, Numbered, Drawn;
    Appended(steps, step, "f", c);
    FewHeld(after.held, m, n);
    StatementFacts(Run(steps), step, "f");
  }

  /** A token of the family that a refresh will find unused. */
  predicate Usable(s: State, token: T.Hash) {
    Fresh(s, token) && T.Found(s.sessions, token, 0) && s.sessions[token].family == "f"
  }

  /** `s`, with `n` refreshes holding the token, `m` of which have marked it. */
  function Midway(s: State, token: T.Hash, m: nat, n: nat): State
    requires token in s.sessions
  {
    s.(sessions := if m == 0 then s.sessions else MarkedUsed(s.sessions, token),
       held := Holding(token, s.sessions[token], m, n))
  }

  lemma NobodyYet(s: State, token: T.Hash)
    requires Usable(s, token) && s.held == map[]
    ensures Midway(s, token, 0, 0) == s
  {}

  lemma OneLookUp(s: State, token: T.Hash, n: nat)
    requires Usable(s, token)
    ensures token in s.sessions &&
            var now, step, then' := Midway(s, token, 0, n), LookUp(n, token, 0), Midway(s, token, 0, n + 1);
            && Enabled(now, step) && After(now, step) == then' && !Late(now, step, "f")
            && then'.held.Keys == Numbered(0, n + 1)
  {
    var row := s.sessions[token];
    assert Holding(token, row, 0, n + 1) == Holding(token, row, 0, n)[n := Unmarked(token, row)];
  }

  lemma OneMark(s: State, token: T.Hash, m: nat, c: nat)
    requires m < c && Usable(s, token)
    ensures token in s.sessions &&
            var now, step, then' := Midway(s, token, m, c), Mark(m), Midway(s, token, m + 1, c);
            && Enabled(now, step) && After(now, step) == then' && (Late(now, step, "f") <==> m > 0)
            && then'.held.Keys == Numbered(0, c)
  {
    var row := s.sessions[token];
    assert Holding(token, row, m + 1, c) == Holding(token, row, m, c)[m := Marked(row)];
    assert MarkedUsed(MarkedUsed(s.sessions, token), token) == MarkedUsed(s.sessions, token);
  }

  lemma OneLess(row: T.Session, m: nat, c: nat)
    requires m < c
    ensures m in Issuing(row, m, c) && Issuing(row, m, c)[m] == Marked(row)
    ensures Issuing(row, m, c) - {m} == Issuing(row, m + 1, c) && Issuing(row, m + 1, c).Keys == Numbered(m + 1, c)
  {}

  lemma OneIssue(s: State, row: T.Session, issued: T.Hash, m: nat, c: nat)
    requires m < c && row.family == "f" && s.held == Issuing(row, m, c) && issued !in s.tokens
    ensures var step := Issue(m, issued, 1);
            && Enabled(s, step) && !Late(s, step, "f")
            && After(s, step).held == Issuing(row, m + 1, c) && After(s, step).held.Keys == Numbered(m + 1, c)
            && Usable(After(s, step), issued)
  {
    hide Issuing, Numbered;
    OneLess(row, m, c);
  }

  /** `n` lookups of one unused token. */
  lemma {:induction false} LookUps(start: seq<Step>, token: T.Hash, k: nat, c: nat, late: nat, n: nat)
    returns (steps: seq<Step>)
    requires Racing(start, k, c, late) && n <= c && Run(start).held == map[] && Usable(Run(start), token)
    ensures Racing(steps, k, c, late) && Run(steps) == Midway(Run(start), token, 0, n)
  {
    hide *;
    RacingIsRun(start, k, c, late);
    var s := Run(start);
    if n == 0 {
      steps := start;
      NobodyYet(s, token);
    } else {
      steps := LookUps(start, token, k, c, late, n - 1);
      RacingIsRun(steps, k, c, late);
      OneLookUp(s, token, n - 1);
      RacingOn(steps, LookUp(n - 1, token, 0), k, c, late, Midway(s, token, 0, n), 0, n);
      steps := steps + [LookUp(n - 1, token, 0)];
    }
  }

  /** Then `n` marks; all but the first come late. */
  lemma {:induction false} Marks(start: seq<Step>, s: State, token: T.Hash, k: nat, c: nat, late: nat, n: nat)
    returns (steps: seq<Step>)
    requires Racing(start, k, c, late) && n <= c && Usable(s, token) && Run(start) == Midway(s, token, 0, c)
    ensures Racing(steps, k, c, late + if n == 0 then 0 else n - 1) && Run(steps) == Midway(s, token, n, c)
  {
    hide *;
    RacingIsRun(start, k, c, late);
    if n == 0 {
      steps := start;
    } else {
      steps := Marks(start, s, token, k, c, late, n - 1);
      var so_far := late + if n == 1 then 0 else n - 2;
      RacingIsRun(steps, k, c, so_far);
      OneMark(s, token, n - 1, c);
      RacingOn(steps, Mark(n - 1), k, c, so_far, Midway(s, token, n, c), 0, c);
      steps := steps + [Mark(n - 1)];
    }
  }

  /** Then each issues a successor. */
  lemma {:induction false} Issues(start: seq<Step>, row: T.Session, k: nat, c: nat, late: nat, n: nat)
    returns (steps: seq<Step>)
    requires Racing(start, k, c, late) && n <= c && row.family == "f" && Run(start).held == Issuing(row, 0, c)
    ensures Racing(steps, k + n, c, late) && Run(steps).held == Issuing(row, n, c)
    ensures n > 0 ==> Usable(Run(steps), Name(k + n - 1))
  {
    hide *;
    RacingIsRun(start, k, c, late);
    if n == 0 {
      steps := start;
    } else {
      steps := Issues(start, row, k, c, late, n - 1);
      RacingIsRun(steps, k + n - 1, c, late);
      var s, step := Run(steps), Issue(n - 1, Name(k + n - 1), 1);
      OneIssue(s, row, Name(k + n - 1), n - 1, c);
      RacingOn(steps, step, k + n - 1, c, late, After(s, step), n, c);
      steps := steps + [step];
    }
  }

  lemma AllMarked(s: State, token: T.Hash, c: nat)
    requires token in s.sessions
    ensures Midway(s, token, c, c).held == Issuing(s.sessions[token], 0, c)
    ensures Issuing(s.sessions[token], c, c) == map[]
  {}

  /** `c` refreshes of one token at once. */
  lemma Round(start: seq<Step>, token: T.Hash, k: nat, c: nat, late: nat) returns (steps: seq<Step>)
    requires 0 < c && Racing(start, k, c, late) && Run(start).held == map[] && Usable(Run(start), token)
    ensures Racing(steps, k + c, c, late + c - 1) && Run(steps).held == map[] && Usable(Run(steps), Name(k + c - 1))
  {
    hide IsRun, Run, After, Issuing, Midway;
    var s := Run(start);
    steps := LookUps(start, token, k, c, late, c);
    steps := Marks(steps, s, token, k, c, late, c);
    AllMarked(s, token, c);
    steps := Issues(steps, s.sessions[token], k, c, late + c - 1, c);
  }

  lemma FirstLogIn(c: nat) returns (steps: seq<Step>)
    ensures Racing(steps, 1, c, 0) && Run(steps).held == map[] && Usable(Run(steps), Name(0))
  {
    steps := [LogIn(1, "f", Name(0), 1)];
    assert steps == [] + steps && IsRun([]);
    assert Run([]) == START;
    Appended([], steps[0], "f", c);
  }

  lemma {:induction false} Rounds(n: nat, c: nat) returns (steps: seq<Step>, token: T.Hash, k: nat)
    requires 0 < c
    ensures Racing(steps, k, c, n * (c - 1)) && Run(steps).held == map[] && Usable(Run(steps), token)
  {
    hide Run, IsRun, Usable;
    if n == 0 {
      steps := FirstLogIn(c);
      token, k := Name(0), 1;
    } else {
      steps, token, k := Rounds(n - 1, c);
      steps := Round(steps, token, k, c, (n - 1) * (c - 1));
      assert (n - 1) * (c - 1) + c - 1 == n * (c - 1);
      token, k := Name(k + c - 1), k + c;
    }
  }

  /** The bound is reached: with never more than `c` refreshes under way a family comes to 1 + n * (c - 1)
      unused rows, for every n, and nothing is detected. Two at a time are enough for any number. */
  lemma RacesAddUp(n: nat, c: nat) returns (steps: seq<Step>)
    requires 0 < c
    ensures IsRun(steps) && MostUnderWay(steps) <= c && AllLate(steps, "f") == n * (c - 1)
    ensures |Unused(Run(steps), "f")| == 1 + AllLate(steps, "f")
  {
    var token, k;
    steps, token, k := Rounds(n, c);
    RowsConserved(steps, "f");
    assert Pending(Run(steps), "f") == {};
  }
}
