/**
 Refresh-token rotation (internal/auth/token_service.go) over the session table of
 internal/user/repo/repository.go: families, single use and reuse detection, the practice of
 section 4.14.2 of RFC 9700.

 A session row is keyed by its token hash, which the table declares unique. Any step of a call can
 fail; a failed step ends the call, so one value names the first step to fail.
 */
module TokenRotation {
  import opened Common

  type Hash = string
  type Family = string
  type UserId = int
  type Time = int

  datatype Session = Session(user: UserId, family: Family, expires: Time, used: bool, revoked: bool)

  datatype Failure =
    | Nothing
    | Lookup
    | Revoke
    | Mark
    | LoadUser
    | AccessToken
    | Random
    | Create
    | Delete

  datatype Call =
    | Login(at: Time, fails: Failure, user: UserId, family: Family, issued: Hash, expires: Time)
    | Refresh(at: Time, fails: Failure, token: Hash, issued: Hash, expires: Time)
    | Logout(at: Time, fails: Failure, token: Hash)
    | LogoutAll(at: Time, fails: Failure, user: UserId)
    | Cleanup(at: Time, fails: Failure)

  datatype Answer =
    | Tokens(issued: Hash)
    | Done
    | InvalidOrExpired
    | ReuseDetected
    | Failed(step: Failure)

  /** The table, with each family's owner and each token's family as recorded since the start. */
  datatype Store = Store(sessions: map<Hash, Session>, owner: map<Family, UserId>, tokens: map<Hash, Family>)

  const EMPTY := Store(map[], map[], map[])

  // ---------- What a call does ----------

  /** The row a lookup by token returns: neither expired nor revoked, used or not. */
  predicate Found(sessions: map<Hash, Session>, token: Hash, now: Time) {
    token in sessions && sessions[token].expires > now && !sessions[token].revoked
  }

  function RevokedFamily(sessions: map<Hash, Session>, family: Family): map<Hash, Session> {
    map h | h in sessions :: if sessions[h].family == family then sessions[h].(revoked := true) else sessions[h]
  }

  function RevokedUser(sessions: map<Hash, Session>, user: UserId): map<Hash, Session> {
    map h | h in sessions :: if sessions[h].user == user then sessions[h].(revoked := true) else sessions[h]
  }

  function Added(s: Store, token: Hash, row: Session): Store {
    Store(s.sessions[token := row], s.owner[row.family := row.user], s.tokens[token := row.family])
  }

  /** The refresh finds an unused token. */
  predicate Accepted(s: Store, c: Call) {
    c.Refresh? && c.fails != Lookup && Found(s.sessions, c.token, c.at) && !s.sessions[c.token].used
  }

  /** The refresh finds a used token. */
  predicate Replayed(s: Store, c: Call) {
    c.Refresh? && c.fails != Lookup && Found(s.sessions, c.token, c.at) && s.sessions[c.token].used
  }

  predicate Issues(s: Store, c: Call) {
    && (c.Login? || Accepted(s, c))
    && (c.Refresh? ==> c.fails != Mark && c.fails != LoadUser)
    && c.fails != AccessToken && c.fails != Random && c.fails != Create
    && c.issued !in s.sessions
  }

  function IssuedRow(s: Store, c: Call): Session
    requires Issues(s, c)
  {
    if c.Login? then Session(c.user, c.family, c.expires, false, false)
    else Session(s.sessions[c.token].user, s.sessions[c.token].family, c.expires, false, false)
  }

  function AfterLogin(s: Store, c: Call): Store
    requires c.Login?
  {
    if Issues(s, c) then Added(s, c.issued, IssuedRow(s, c)) else s
  }

  function AfterRefresh(s: Store, c: Call): Store
    requires c.Refresh?
  {
    if Replayed(s, c) && c.fails != Revoke then
      s.(sessions := RevokedFamily(s.sessions, s.sessions[c.token].family))
    else if Accepted(s, c) && c.fails != Mark then
      var marked := s.(sessions := s.sessions[c.token := s.sessions[c.token].(used := true)]);
      if Issues(s, c) then Added(marked, c.issued, IssuedRow(s, c)) else marked
    else s
  }

  /** The calls that only revoke or delete rows. */
  function RowsAfter(sessions: map<Hash, Session>, c: Call): map<Hash, Session>
    requires c.Logout? || c.LogoutAll? || c.Cleanup?
  {
    match c
    case Logout(at, fails, token) =>
      if fails != Lookup && fails != Revoke && Found(sessions, token, at)
      then sessions[token := sessions[token].(revoked := true)]
      else sessions
    case LogoutAll(_, fails, user) => if fails == Revoke then sessions else RevokedUser(sessions, user)
    case Cleanup(at, fails) =>
      if fails == Delete then sessions
      else map h | h in sessions && !(sessions[h].expires < at || sessions[h].revoked) :: sessions[h]
  }

  function After(s: Store, c: Call): Store {
    match c
    case Login(_, _, _, _, _, _) => AfterLogin(s, c)
    case Refresh(_, _, _, _, _) => AfterRefresh(s, c)
    case _ => s.(sessions := RowsAfter(s.sessions, c))
  }

  function Answered(s: Store, c: Call): Answer {
    match c
    case Login(_, fails, _, _, issued, _) =>
      if fails == AccessToken || fails == Random then Failed(fails)
      else if fails == Create || issued in s.sessions then Failed(Create)
      else Tokens(issued)
    case Refresh(_, fails, token, issued, _) =>
      if Replayed(s, c) then ReuseDetected
      else if !Accepted(s, c) then InvalidOrExpired
      else if fails == Mark || fails == LoadUser || fails == AccessToken || fails == Random then Failed(fails)
      else if fails == Create || issued in s.sessions then Failed(Create)
      else Tokens(issued)
    case Logout(at, fails, token) =>
      if fails != Lookup && Found(s.sessions, token, at) && fails == Revoke then Failed(Revoke) else Done
    case LogoutAll(_, fails, _) => if fails == Revoke then Failed(Revoke) else Done
    case Cleanup(_, fails) => if fails == Delete then Failed(Delete) else Done
  }

  // ---------- The code ----------

  class TokenService {
    var sessions: map<Hash, Session>
    ghost var owner: map<Family, UserId>
    ghost var tokens: map<Hash, Family>

    ghost function View(): Store
      reads this
    {
      Store(sessions, owner, tokens)
    }

    constructor ()
      ensures View() == EMPTY
    {
      sessions, owner, tokens := map[], map[], map[];
    }

    method GetUserSessionByTokenHash(token: Hash, now: Time, fails: Failure) returns (session: Option<Session>)
      ensures session == if fails != Lookup && Found(sessions, token, now) then Some(sessions[token]) else None
    {
      session := None;
      if fails != Lookup && token in sessions && sessions[token].expires > now && !sessions[token].revoked {
        session := Some(sessions[token]);
      }
    }

    method CreateUserSession(token: Hash, session: Session, fails: Failure) returns (ok: bool)
      modifies this
      ensures ok <==> fails != Create && token !in old(sessions)
      ensures View() == if ok then Added(old(View()), token, session) else old(View())
    {
      ok := fails != Create && token !in sessions;
      if ok {
        sessions := sessions[token := session];
        owner, tokens := owner[session.family := session.user], tokens[token := session.family];
      }
    }

    method GenerateTokens(at: Time, fails: Failure, user: UserId, family: Family, issued: Hash, expires: Time)
      returns (answer: Answer)
      modifies this
      ensures var c := Login(at, fails, user, family, issued, expires);
              View() == After(old(View()), c) && answer == Answered(old(View()), c)
    {
      if fails == AccessToken { return Failed(AccessToken); }
      if fails == Random { return Failed(Random); }
      var created := CreateUserSession(issued, Session(user, family, expires, false, false), fails);
      if !created { return Failed(Create); }
      return Tokens(issued);
    }

    method RefreshTokens(at: Time, fails: Failure, token: Hash, issued: Hash, expires: Time) returns (answer: Answer)
      modifies this
      ensures var c := Refresh(at, fails, token, issued, expires);
              View() == After(old(View()), c) && answer == Answered(old(View()), c)
    {
      var session := GetUserSessionByTokenHash(token, at, fails);
      if session.None? { return InvalidOrExpired; }
      if session.value.used {
        if fails != Revoke {
          sessions := RevokedFamily(sessions, session.value.family);
        }
        return ReuseDetected;
      }
      if fails == Mark { return Failed(Mark); }
      sessions := sessions[token := sessions[token].(used := true)];
      if fails == LoadUser { return Failed(LoadUser); }
      if fails == AccessToken { return Failed(AccessToken); }
      if fails == Random { return Failed(Random); }
      var next := Session(session.value.user, session.value.family, expires, false, false);
      var created := CreateUserSession(issued, next, fails);
      if !created { return Failed(Create); }
      return Tokens(issued);
    }

    method RevokeToken(at: Time, fails: Failure, token: Hash) returns (answer: Answer)
      modifies this
      ensures var c := Logout(at, fails, token);
              View() == After(old(View()), c) && answer == Answered(old(View()), c)
    {
      var session := GetUserSessionByTokenHash(token, at, fails);
      if session.None? { return Done; }
      if fails == Revoke { return Failed(Revoke); }
      sessions := sessions[token := sessions[token].(revoked := true)];
      return Done;
    }

    method RevokeAllUserTokens(at: Time, fails: Failure, user: UserId) returns (answer: Answer)
      modifies this
      ensures var c := LogoutAll(at, fails, user);
              View() == After(old(View()), c) && answer == Answered(old(View()), c)
    {
      if fails == Revoke { return Failed(Revoke); }
      sessions := RevokedUser(sessions, user);
      return Done;
    }

    method CleanupExpiredSessions(at: Time, fails: Failure) returns (answer: Answer)
      modifies this
      ensures var c := Cleanup(at, fails);
              View() == After(old(View()), c) && answer == Answered(old(View()), c)
    {
      if fails == Delete { return Failed(Delete); }
      sessions := map h | h in sessions && !(sessions[h].expires < at || sessions[h].revoked) :: sessions[h];
      return Done;
    }
  }

  // ---------- Runs ----------

  ghost function StateAt(calls: seq<Call>, n: nat): Store
    requires n <= |calls|
  {
    if n == 0 then EMPTY else After(StateAt(calls, n - 1), calls[n - 1])
  }

  /** The random values a call draws are new: family ids and token hashes never repeat. */
  predicate Fresh(s: Store, c: Call) {
    && (c.Login? ==> c.family !in s.owner)
    && (c.Login? || c.Refresh? ==> c.issued !in s.tokens)
  }

  /** The first `n` calls are a run: their times do not go back, and what they draw is new. */
  ghost predicate IsRun(calls: seq<Call>, n: nat)
    requires n <= |calls|
  {
    n == 0 ||
    (&& IsRun(calls, n - 1)
     && (n > 1 ==> calls[n - 2].at <= calls[n - 1].at)
     && Fresh(StateAt(calls, n - 1), calls[n - 1]))
  }

  lemma OneMore(calls: seq<Call>, n: nat)
    requires n < |calls| && IsRun(calls, n) && Fresh(StateAt(calls, n), calls[n])
    requires n > 0 ==> calls[n - 1].at <= calls[n].at
    ensures IsRun(calls, n + 1)
  {}

  lemma {:induction false} Shorter(calls: seq<Call>, m: nat, n: nat)
    requires m <= n <= |calls| && IsRun(calls, n)
    ensures IsRun(calls, m)
  {
    hide StateAt, Fresh;
    if m == n {
    } else {
      Shorter(calls, m, n - 1);
    }
  }

  /** Every row belongs to the family's one owner, and a family has at most one unused row, whether or
      not that row is still live. */
  ghost predicate Sound(s: Store) {
    Recorded(s) && OneUnused(s)
  }

  ghost predicate Recorded(s: Store) {
    && (forall h :: h in s.sessions ==> h in s.tokens && s.tokens[h] == s.sessions[h].family)
    && (forall h :: h in s.tokens ==> s.tokens[h] in s.owner)
    && (forall h :: h in s.sessions ==>
        s.sessions[h].family in s.owner && s.owner[s.sessions[h].family] == s.sessions[h].user)
  }

  ghost predicate OneUnused(s: Store) {
    forall h, k :: h in s.sessions && k in s.sessions && h != k && s.sessions[h].family == s.sessions[k].family ==>
      s.sessions[h].used || s.sessions[k].used
  }

  lemma LoginKeepsSound(s: Store, c: Call)
    requires Sound(s) && Fresh(s, c) && c.Login?
    ensures Sound(AfterLogin(s, c))
  {}

  lemma RefreshKeepsRecords(s: Store, c: Call)
    requires Recorded(s) && Fresh(s, c) && c.Refresh?
    ensures Recorded(AfterRefresh(s, c))
  {}

  lemma RefreshKeepsOneUnused(s: Store, c: Call)
    requires Sound(s) && Fresh(s, c) && c.Refresh?
    ensures OneUnused(AfterRefresh(s, c))
  {}

  lemma RevokingKeepsSound(s: Store, c: Call)
    requires Sound(s) && (c.Logout? || c.LogoutAll? || c.Cleanup?)
    ensures Sound(s.(sessions := RowsAfter(s.sessions, c)))
  {}

  lemma RefreshKeepsOwners(s: Store, c: Call)
    requires Recorded(s) && Fresh(s, c) && c.Refresh?
    ensures forall f :: f in s.owner ==> f in AfterRefresh(s, c).owner && AfterRefresh(s, c).owner[f] == s.owner[f]
    ensures forall h :: h in s.tokens ==> h in AfterRefresh(s, c).tokens && AfterRefresh(s, c).tokens[h] == s.tokens[h]
  {
    if Accepted(s, c) { assert s.owner[s.sessions[c.token].family] == s.sessions[c.token].user; }
  }

  lemma LoginKeepsOwners(s: Store, c: Call)
    requires Fresh(s, c) && c.Login?
    ensures forall f :: f in s.owner ==> f in AfterLogin(s, c).owner && AfterLogin(s, c).owner[f] == s.owner[f]
    ensures forall h :: h in s.tokens ==> h in AfterLogin(s, c).tokens && AfterLogin(s, c).tokens[h] == s.tokens[h]
  {}

  lemma CallKeepsSound(s: Store, c: Call)
    requires Sound(s) && Fresh(s, c)
    ensures Sound(After(s, c))
    ensures forall f :: f in s.owner ==> f in After(s, c).owner && After(s, c).owner[f] == s.owner[f]
    ensures forall h :: h in s.tokens ==> h in After(s, c).tokens && After(s, c).tokens[h] == s.tokens[h]
  {
    hide Recorded, OneUnused, Fresh, AfterLogin, AfterRefresh, RowsAfter;
    match c
    case Login(_, _, _, _, _, _) =>
      LoginKeepsSound(s, c);
      LoginKeepsOwners(s, c);
    case Refresh(_, _, _, _, _) =>
      RefreshKeepsRecords(s, c);
      RefreshKeepsOneUnused(s, c);
      RefreshKeepsOwners(s, c);
    case _ => RevokingKeepsSound(s, c);
  }

  /** Over every run of whole calls, with failures anywhere: rows of one family have one user, and at
      most one of them is unused. */
  lemma {:induction false} RunIsSound(calls: seq<Call>, n: nat)
    requires n <= |calls| && IsRun(calls, n)
    ensures Sound(StateAt(calls, n))
  {
    if n == 0 {
    } else {
      RunIsSound(calls, n - 1);
      CallKeepsSound(StateAt(calls, n - 1), calls[n - 1]);
    }
  }

  lemma Step(calls: seq<Call>, n: nat)
    requires n < |calls| && IsRun(calls, n + 1)
    ensures Sound(StateAt(calls, n)) && Fresh(StateAt(calls, n), calls[n])
    ensures StateAt(calls, n + 1) == After(StateAt(calls, n), calls[n])
    ensures n > 0 ==> calls[n - 1].at <= calls[n].at
  {
    RunIsSound(calls, n);
  }

  lemma {:induction false} OwnerNeverChanges(calls: seq<Call>, i: nat, j: nat, f: Family)
    requires i <= j <= |calls| && IsRun(calls, j) && f in StateAt(calls, i).owner
    ensures f in StateAt(calls, j).owner && StateAt(calls, j).owner[f] == StateAt(calls, i).owner[f]
  {
    hide *;
    if i == j {
    } else {
      Shorter(calls, j - 1, j);
      OwnerNeverChanges(calls, i, j - 1, f);
      Step(calls, j - 1);
      CallKeepsSound(StateAt(calls, j - 1), calls[j - 1]);
    }
  }

  // ---------- Single use ----------

  /** A token handed out before, of which no unused row is left. */
  predicate Spent(s: Store, token: Hash) {
    token in s.tokens && (token in s.sessions ==> s.sessions[token].used)
  }

  lemma SpentStep(s: Store, c: Call, token: Hash)
    requires Sound(s) && Fresh(s, c) && Spent(s, token)
    ensures Spent(After(s, c), token)
  {}

  lemma {:induction false} SpentForever(calls: seq<Call>, i: nat, j: nat, token: Hash)
    requires i <= j <= |calls| && IsRun(calls, j) && Spent(StateAt(calls, i), token)
    ensures Spent(StateAt(calls, j), token)
  {
    hide *;
    if i == j {
    } else {
      Shorter(calls, j - 1, j);
      SpentForever(calls, i, j - 1, token);
      Step(calls, j - 1);
      SpentStep(StateAt(calls, j - 1), calls[j - 1], token);
    }
  }

  lemma ExchangeSpends(s: Store, c: Call)
    requires Sound(s) && Fresh(s, c) && c.Refresh? && Answered(s, c).Tokens?
    ensures Spent(After(s, c), c.token)
  {}

  lemma SpentRefused(s: Store, c: Call)
    requires c.Refresh? && Spent(s, c.token)
    ensures !Answered(s, c).Tokens?
  {}

  /** No token is exchanged twice, however many other calls and failures lie between. */
  lemma SingleUse(calls: seq<Call>, i: nat, j: nat)
    requires i < j < |calls| && IsRun(calls, j + 1)
    requires calls[i].Refresh? && calls[j].Refresh? && calls[i].token == calls[j].token
    requires Answered(StateAt(calls, i), calls[i]).Tokens?
    ensures !Answered(StateAt(calls, j), calls[j]).Tokens?
  {
    hide *;
    Shorter(calls, i + 1, j + 1);
    Shorter(calls, j, j + 1);
    Step(calls, i);
    ExchangeSpends(StateAt(calls, i), calls[i]);
    SpentForever(calls, i + 1, j, calls[i].token);
    SpentRefused(StateAt(calls, j), calls[j]);
  }

  // ---------- Families that can no longer be refreshed ----------

  predicate Dead(s: Store, f: Family, now: Time) {
    f in s.owner &&
    forall h :: h in s.sessions && s.sessions[h].family == f ==> s.sessions[h].used || !Found(s.sessions, h, now)
  }

  lemma DeadStep(s: Store, c: Call, f: Family, now: Time)
    requires Sound(s) && Fresh(s, c) && Dead(s, f, now) && now <= c.at
    ensures Dead(After(s, c), f, c.at)
  {
    assert Dead(s, f, c.at);
  }

  lemma {:induction false} DeadForever(calls: seq<Call>, i: nat, j: nat, f: Family, now: Time)
    requires i <= j <= |calls| && IsRun(calls, j) && Dead(StateAt(calls, i), f, now)
    requires i < |calls| ==> now <= calls[i].at
    ensures Dead(StateAt(calls, j), f, if i < j then calls[j - 1].at else now)
  {
    hide *;
    if i == j {
    } else {
      Shorter(calls, j - 1, j);
      DeadForever(calls, i, j - 1, f, now);
      Step(calls, j - 1);
      DeadStep(StateAt(calls, j - 1), calls[j - 1], f, if i < j - 1 then calls[j - 2].at else now);
    }
  }

  /** Exactly the dead families can no longer be refreshed: from a dead one no refresh succeeds, and
      any other has a token with which a refresh does. */
  lemma DeadMeansNoRefresh(s: Store, f: Family, now: Time, issued: Hash, expires: Time)
    requires Sound(s) && f in s.owner && issued !in s.tokens
    ensures Dead(s, f, now) <==>
            forall token :: token in s.sessions && s.sessions[token].family == f ==>
              !Answered(s, Refresh(now, Nothing, token, issued, expires)).Tokens?
  {
    if !Dead(s, f, now) {
      var token :| token in s.sessions && s.sessions[token].family == f && !s.sessions[token].used
          && Found(s.sessions, token, now);
      assert Answered(s, Refresh(now, Nothing, token, issued, expires)).Tokens?;
    }
  }

  /** Presenting a token that has been handed out and is not waiting unused, whether its row is used or
      a cleanup has deleted it: its family is dead afterwards exactly when it was dead already, or the
      token's own row is still found and the revocation is written. */
  lemma ReplayVerdict(s: Store, c: Call)
    requires Sound(s) && c.Refresh? && Spent(s, c.token)
    ensures var f := s.tokens[c.token];
            Dead(After(s, c), f, c.at) <==> Dead(s, f, c.at) || (Replayed(s, c) && c.fails != Revoke)
  {
    var f := s.tokens[c.token];
    if Replayed(s, c) && c.fails != Revoke {
      assert Dead(After(s, c), f, c.at);
    } else {
      assert After(s, c) == s;
    }
  }

  lemma ReplayKills(s: Store, c: Call)
    requires Sound(s) && Replayed(s, c) && c.fails != Revoke
    ensures c.Refresh? && c.token in s.sessions && Dead(After(s, c), s.sessions[c.token].family, c.at)
  {
    ReplayVerdict(s, c);
  }

  lemma DeadRefused(s: Store, c: Call, now: Time)
    requires c.Refresh? && c.token in s.sessions && Dead(s, s.sessions[c.token].family, now) && now <= c.at
    ensures !Answered(s, c).Tokens?
  {}

  /** Once a used token is replayed and the revocation is written, no refresh in that family ever
      succeeds again, whatever calls come after. */
  lemma ReuseEndsFamily(calls: seq<Call>, i: nat, j: nat)
    requires i < j < |calls| && IsRun(calls, j + 1) && calls[j].Refresh?
    requires Replayed(StateAt(calls, i), calls[i]) && calls[i].fails != Revoke
    requires calls[j].token in StateAt(calls, j).sessions
    requires StateAt(calls, j).sessions[calls[j].token].family == StateAt(calls, i).sessions[calls[i].token].family
    ensures !Answered(StateAt(calls, j), calls[j]).Tokens?
  {
    hide *;
    Shorter(calls, i + 1, j + 1);
    Shorter(calls, i + 2, j + 1);
    Shorter(calls, j, j + 1);
    Step(calls, i);
    ReplayKills(StateAt(calls, i), calls[i]);
    var f := StateAt(calls, i).sessions[calls[i].token].family;
    Step(calls, i + 1);
    Step(calls, j);
    DeadForever(calls, i + 1, j, f, calls[i].at);
    DeadRefused(StateAt(calls, j), calls[j], if i + 1 < j then calls[j - 1].at else calls[i].at);
  }

  /** A refresh that fails after the old token is marked leaves the family with nothing to refresh. */
  lemma LostRotation(s: Store, c: Call)
    requires Sound(s) && Accepted(s, c) && c.fails != Mark && !Answered(s, c).Tokens?
    ensures Dead(After(s, c), s.sessions[c.token].family, c.at)
  {}

  /** Reuse detection can miss: logging out with a spent token revokes that one row, so presenting the
      token again is merely invalid and the family's newer token still refreshes. */
  lemma ReplayMissed(t: Time) returns (calls: seq<Call>)
    ensures |calls| == 5 && IsRun(calls, 5)
    ensures calls[3].Refresh? && calls[1].Refresh? && calls[3].token == calls[1].token
    ensures Answered(StateAt(calls, 1), calls[1]).Tokens? && Answered(StateAt(calls, 3), calls[3]) == InvalidOrExpired
    ensures Answered(StateAt(calls, 4), calls[4]).Tokens?
  {
    var login := Login(t, Nothing, 1, "f", "a", t + 9);
    var rotate := Refresh(t, Nothing, "a", "b", t + 9);
    var logout := Logout(t, Nothing, "a");
    var replay := Refresh(t, Nothing, "a", "c", t + 9);
    var again := Refresh(t, Nothing, "b", "c", t + 9);
    calls := [login, rotate, logout, replay, again];
    var s0, s1, s2 := StateAt(calls, 0), StateAt(calls, 1), StateAt(calls, 2);
    var s3, s4 := StateAt(calls, 3), StateAt(calls, 4);
    assert s1 == After(s0, login);
    assert s2 == After(s1, rotate);
    assert s3 == After(s2, logout);
    assert s4 == After(s3, replay);
    OneMore(calls, 0);
    OneMore(calls, 1);
    OneMore(calls, 2);
    OneMore(calls, 3);
    OneMore(calls, 4);
  }

  /** A logout that reports success has made the token unusable, except when the lookup itself failed:
      that is taken for an unknown token, and the row stays live. */
  lemma LogoutVerdict(s: Store, c: Call)
    requires c.Logout? && Answered(s, c) == Done
    ensures Found(After(s, c).sessions, c.token, c.at) <==> Found(s.sessions, c.token, c.at) && c.fails == Lookup
  {}

  /** Reuse is reported exactly for a used token whose row is found: not expired, and not revoked. */
  lemma ReuseReported(s: Store, c: Call)
    requires c.Refresh?
    ensures Answered(s, c) == ReuseDetected <==>
            && c.fails != Lookup && c.token in s.sessions
            && s.sessions[c.token].used && !s.sessions[c.token].revoked && c.at < s.sessions[c.token].expires
  {}

  /** It happens: a login, a logout whose lookup fails, and the token is exchanged after all. */
  lemma LogoutMissed(t: Time) returns (calls: seq<Call>)
    ensures |calls| == 3 && IsRun(calls, 3)
    ensures calls[1].Logout? && calls[2].Refresh? && calls[1].token == calls[2].token
    ensures Answered(StateAt(calls, 1), calls[1]) == Done && Answered(StateAt(calls, 2), calls[2]).Tokens?
  {
    var login := Login(t, Nothing, 1, "f", "a", t + 9);
    var logout := Logout(t, Lookup, "a");
    var exchange := Refresh(t, Nothing, "a", "b", t + 9);
    calls := [login, logout, exchange];
    var s0, s1, s2 := StateAt(calls, 0), StateAt(calls, 1), StateAt(calls, 2);
    assert s1 == After(s0, login);
    assert s2 == After(s1, logout);
    OneMore(calls, 0);
    OneMore(calls, 1);
    OneMore(calls, 2);
  }

  /** A logout from all devices that reports success leaves every family of the user with nothing to refresh,
      and every other family as it was. */
  lemma LogoutAllVerdict(s: Store, c: Call, f: Family)
    requires Sound(s) && c.LogoutAll? && f in s.owner
    ensures Dead(After(s, c), f, c.at) <==>
            Dead(s, f, c.at) || (Answered(s, c) == Done && s.owner[f] == c.user)
    ensures s.owner[f] != c.user ==>
              forall h :: h in s.sessions && s.sessions[h].family == f ==>
                h in After(s, c).sessions && After(s, c).sessions[h] == s.sessions[h]
  {
    var after := After(s, c);
    assert after.owner == s.owner && after.sessions.Keys == s.sessions.Keys;
    if Answered(s, c) == Done && s.owner[f] == c.user {
      assert forall h :: h in after.sessions && after.sessions[h].family == f ==> after.sessions[h].revoked;
    } else {
      assert forall h :: h in s.sessions && s.sessions[h].family == f ==> after.sessions[h] == s.sessions[h];
      assert forall h :: h in after.sessions && after.sessions[h].family == f ==> s.sessions[h].family == f;
    }
  }

  /** So no refresh of any of the user's families ever succeeds again, whatever calls come after. */
  lemma LogoutAllEndsFamilies(calls: seq<Call>, i: nat, j: nat)
    requires i < j < |calls| && IsRun(calls, j + 1) && calls[j].Refresh?
    requires calls[i].LogoutAll? && Answered(StateAt(calls, i), calls[i]) == Done
    requires calls[j].token in StateAt(calls, j).sessions
    requires var f := StateAt(calls, j).sessions[calls[j].token].family;
             f in StateAt(calls, i).owner && StateAt(calls, i).owner[f] == calls[i].user
    ensures !Answered(StateAt(calls, j), calls[j]).Tokens?
  {
    hide *;
    Shorter(calls, i + 1, j + 1);
    Shorter(calls, i + 2, j + 1);
    Shorter(calls, j, j + 1);
    Step(calls, i);
    Step(calls, i + 1);
    Step(calls, j);
    var f := StateAt(calls, j).sessions[calls[j].token].family;
    LogoutAllVerdict(StateAt(calls, i), calls[i], f);
    DeadForever(calls, i + 1, j, f, calls[i].at);
    DeadRefused(StateAt(calls, j), calls[j], if i + 1 < j then calls[j - 1].at else calls[i].at);
  }

  // ---------- What a login or a refresh hands out ----------

  /** A token is handed out exactly when a row was written under it: unused, until its date, for the user of
      the login or of the token presented. */
  lemma HandedOut(s: Store, c: Call)
    requires Sound(s) && Fresh(s, c) && (c.Login? || c.Refresh?)
    ensures Answered(s, c).Tokens? <==> c.issued in After(s, c).sessions
    ensures Answered(s, c).Tokens? ==>
              && Answered(s, c).issued == c.issued
              && !After(s, c).sessions[c.issued].used
              && forall now :: Found(After(s, c).sessions, c.issued, now) <==> now < c.expires
    ensures Answered(s, c).Tokens? && c.Login? ==>
              After(s, c).sessions[c.issued].user == c.user && After(s, c).sessions[c.issued].family == c.family
    ensures Answered(s, c).Tokens? && c.Refresh? ==>
              c.token in s.sessions && After(s, c).sessions[c.issued].user == s.sessions[c.token].user
              && After(s, c).sessions[c.issued].family == s.sessions[c.token].family
  {}

  // ---------- Cleanup ----------

  /** A cleanup that works keeps exactly the rows that are not revoked and expire at its time or later. */
  lemma CleanupKeeps(s: Store, c: Call, h: Hash)
    requires c.Cleanup? && Answered(s, c) == Done
    ensures h in After(s, c).sessions <==>
            h in s.sessions && s.sessions[h].expires >= c.at && !s.sessions[h].revoked
    ensures h in After(s, c).sessions ==> After(s, c).sessions[h] == s.sessions[h]
  {}

  /** The same rows can still be found, now and later. */
  ghost predicate Alike(s: Store, t: Store, now: Time) {
    && s.owner == t.owner && s.tokens == t.tokens
    && forall h :: Found(s.sessions, h, now) || Found(t.sessions, h, now) ==>
         h in s.sessions && h in t.sessions && s.sessions[h] == t.sessions[h]
  }

  lemma AlikeLater(s: Store, t: Store, now: Time, later: Time)
    requires Alike(s, t, now) && now <= later
    ensures Alike(s, t, later)
  {
    assert forall h :: Found(s.sessions, h, later) ==> Found(s.sessions, h, now);
    assert forall h :: Found(t.sessions, h, later) ==> Found(t.sessions, h, now);
  }

  lemma CleanupKeepsAlike(s: Store, t: Store, c: Call)
    requires Alike(s, t, c.at) && c.Cleanup?
    ensures Alike(After(s, c), t, c.at)
  {
    assert forall h :: Found(s.sessions, h, c.at) <==> Found(After(s, c).sessions, h, c.at);
  }

  lemma AnswersAlike(s: Store, t: Store, c: Call)
    requires Sound(s) && Sound(t) && Fresh(s, c) && Alike(s, t, c.at) && !c.Cleanup?
    ensures Answered(s, c) == Answered(t, c)
  {
    if c.Refresh? || c.Logout? {
      assert Found(s.sessions, c.token, c.at) <==> Found(t.sessions, c.token, c.at);
    }
  }

  /** What a refresh does to one row, told from the row it finds and the one it may issue. */
  lemma RefreshedToken(s: Store, t: Store, c: Call)
    requires Recorded(s) && Recorded(t) && Fresh(s, c) && Alike(s, t, c.at) && c.Refresh?
    requires Found(AfterRefresh(s, c).sessions, c.token, c.at) || Found(AfterRefresh(t, c).sessions, c.token, c.at)
    requires c.token != c.issued
    ensures c.token in AfterRefresh(s, c).sessions && c.token in AfterRefresh(t, c).sessions
    ensures AfterRefresh(s, c).sessions[c.token] == AfterRefresh(t, c).sessions[c.token]
  {
    assert Found(s.sessions, c.token, c.at) <==> Found(t.sessions, c.token, c.at);
  }

  lemma RefreshedIssue(s: Store, t: Store, c: Call)
    requires Recorded(s) && Recorded(t) && Fresh(s, c) && Alike(s, t, c.at) && c.Refresh?
    requires Found(AfterRefresh(s, c).sessions, c.issued, c.at) || Found(AfterRefresh(t, c).sessions, c.issued, c.at)
    ensures c.issued in AfterRefresh(s, c).sessions && c.issued in AfterRefresh(t, c).sessions
    ensures AfterRefresh(s, c).sessions[c.issued] == AfterRefresh(t, c).sessions[c.issued]
  {
    assert c.issued !in s.sessions && c.issued !in t.sessions;
    assert Found(s.sessions, c.token, c.at) <==> Found(t.sessions, c.token, c.at);
  }

  /** What a refresh leaves of a row that is neither the token's nor the new one. */
  lemma RefreshLeaves(s: Store, c: Call, h: Hash)
    requires c.Refresh? && h != c.token && h != c.issued
    ensures h in AfterRefresh(s, c).sessions <==> h in s.sessions
    ensures h in s.sessions ==>
              AfterRefresh(s, c).sessions[h] ==
              if Replayed(s, c) && c.fails != Revoke && s.sessions[h].family == s.sessions[c.token].family
              then s.sessions[h].(revoked := true) else s.sessions[h]
  {}

  lemma RefreshedOther(s: Store, t: Store, c: Call, h: Hash)
    requires Alike(s, t, c.at) && c.Refresh? && h != c.token && h != c.issued
    requires Found(AfterRefresh(s, c).sessions, h, c.at) || Found(AfterRefresh(t, c).sessions, h, c.at)
    ensures h in AfterRefresh(s, c).sessions && h in AfterRefresh(t, c).sessions
    ensures AfterRefresh(s, c).sessions[h] == AfterRefresh(t, c).sessions[h]
  {
    hide AfterRefresh;
    assert Found(s.sessions, c.token, c.at) <==> Found(t.sessions, c.token, c.at);
    RefreshLeaves(s, c, h);
    RefreshLeaves(t, c, h);
    assert Found(s.sessions, h, c.at) || Found(t.sessions, h, c.at);
  }

  /** A refresh does the same to a row in both tables. */
  lemma RefreshedRow(s: Store, t: Store, c: Call, h: Hash)
    requires Recorded(s) && Recorded(t) && Fresh(s, c) && Alike(s, t, c.at) && c.Refresh?
    requires Found(AfterRefresh(s, c).sessions, h, c.at) || Found(AfterRefresh(t, c).sessions, h, c.at)
    ensures h in AfterRefresh(s, c).sessions && h in AfterRefresh(t, c).sessions
        && AfterRefresh(s, c).sessions[h] == AfterRefresh(t, c).sessions[h]
  {
    hide *;
    if h == c.issued {
      RefreshedIssue(s, t, c);
    } else if h == c.token {
      RefreshedToken(s, t, c);
    } else {
      RefreshedOther(s, t, c, h);
    }
  }

  lemma RefreshRecordsAlike(s: Store, t: Store, c: Call)
    requires Recorded(s) && Recorded(t) && Fresh(s, c) && Alike(s, t, c.at) && c.Refresh?
    ensures AfterRefresh(s, c).owner == AfterRefresh(t, c).owner
        && AfterRefresh(s, c).tokens == AfterRefresh(t, c).tokens
  {
    assert Found(s.sessions, c.token, c.at) <==> Found(t.sessions, c.token, c.at);
  }

  lemma RefreshKeepsAlike(s: Store, t: Store, c: Call)
    requires Sound(s) && Sound(t) && Fresh(s, c) && Alike(s, t, c.at) && c.Refresh?
    ensures Alike(AfterRefresh(s, c), AfterRefresh(t, c), c.at)
  {
    hide AfterRefresh, Recorded, OneUnused, Found, Fresh;
    RefreshRecordsAlike(s, t, c);
    forall h | Found(AfterRefresh(s, c).sessions, h, c.at) || Found(AfterRefresh(t, c).sessions, h, c.at)
      ensures h in AfterRefresh(s, c).sessions && h in AfterRefresh(t, c).sessions
          && AfterRefresh(s, c).sessions[h] == AfterRefresh(t, c).sessions[h]
    {
      RefreshedRow(s, t, c, h);
    }
  }

  /** So does a login. */
  lemma LoginKeepsAlike(s: Store, t: Store, c: Call)
    requires Alike(s, t, c.at) && Fresh(s, c) && Recorded(s) && Recorded(t) && c.Login?
    ensures Alike(AfterLogin(s, c), AfterLogin(t, c), c.at)
  {
    forall h | Found(AfterLogin(s, c).sessions, h, c.at) || Found(AfterLogin(t, c).sessions, h, c.at)
      ensures h in AfterLogin(s, c).sessions && h in AfterLogin(t, c).sessions
      ensures AfterLogin(s, c).sessions[h] == AfterLogin(t, c).sessions[h]
    {
      assert h == c.issued || Found(s.sessions, h, c.at) || Found(t.sessions, h, c.at);
    }
  }

  predicate AlikeAt(a: map<Hash, Session>, b: map<Hash, Session>, h: Hash, now: Time) {
    Found(a, h, now) || Found(b, h, now) ==> h in a && h in b && a[h] == b[h]
  }

  /** And revoking calls. */
  lemma RevokedAlike(a: map<Hash, Session>, b: map<Hash, Session>, c: Call, h: Hash)
    requires c.Logout? || c.LogoutAll?
    requires AlikeAt(a, b, h, c.at) && (c.Logout? ==> AlikeAt(a, b, c.token, c.at))
    ensures AlikeAt(RowsAfter(a, c), RowsAfter(b, c), h, c.at)
  {}

  lemma CallKeepsAlike(s: Store, t: Store, c: Call)
    requires Sound(s) && Sound(t) && Fresh(s, c) && Alike(s, t, c.at) && !c.Cleanup?
    ensures Alike(After(s, c), After(t, c), c.at)
  {
    hide Recorded, OneUnused, Fresh, Found, AfterLogin, AfterRefresh, RowsAfter;
    if c.Login? {
      LoginKeepsAlike(s, t, c);
    } else if c.Refresh? {
      RefreshKeepsAlike(s, t, c);
    } else {
      var a, b := RowsAfter(s.sessions, c), RowsAfter(t.sessions, c);
      forall h | Found(a, h, c.at) || Found(b, h, c.at) ensures h in a && h in b && a[h] == b[h] {
        RevokedAlike(s.sessions, t.sessions, c, h);
      }
    }
  }

  /** The run with its cleanups left out. */
  ghost function NeverCleaned(calls: seq<Call>, n: nat): Store
    requires n <= |calls|
  {
    if n == 0 then EMPTY
    else if calls[n - 1].Cleanup? then NeverCleaned(calls, n - 1)
    else After(NeverCleaned(calls, n - 1), calls[n - 1])
  }

  lemma StepApart(calls: seq<Call>, n: nat)
    requires n < |calls|
    ensures NeverCleaned(calls, n + 1)
      == if calls[n].Cleanup? then NeverCleaned(calls, n) else After(NeverCleaned(calls, n), calls[n])
  {}

  lemma FreshAlike(s: Store, t: Store, c: Call)
    requires Fresh(s, c) && Alike(s, t, c.at)
    ensures Fresh(t, c)
  {}

  lemma StartAlike(calls: seq<Call>)
    requires calls != []
    ensures Sound(NeverCleaned(calls, 0)) && Alike(StateAt(calls, 0), NeverCleaned(calls, 0), calls[0].at)
  {}

  lemma {:induction false} RunsAlike(calls: seq<Call>, n: nat)
    requires n < |calls| && IsRun(calls, n + 1)
    ensures Sound(NeverCleaned(calls, n))
    ensures Alike(StateAt(calls, n), NeverCleaned(calls, n), calls[n].at)
  {
    hide *;
    if n == 0 {
      StartAlike(calls);
    } else {
      Shorter(calls, n, n + 1);
      RunsAlike(calls, n - 1);
      var s, t, c := StateAt(calls, n - 1), NeverCleaned(calls, n - 1), calls[n - 1];
      Step(calls, n - 1);
      Step(calls, n);
      StepApart(calls, n - 1);
      FreshAlike(s, t, c);
      if c.Cleanup? {
        CleanupKeepsAlike(s, t, c);
      } else {
        CallKeepsAlike(s, t, c);
        CallKeepsSound(t, c);
      }
      AlikeLater(StateAt(calls, n), NeverCleaned(calls, n), c.at, calls[n].at);
    }
  }

  /** Deleting expired and revoked rows changes no answer: every call is answered as in the same run
      without any cleanup. */
  lemma CleanupUnobservable(calls: seq<Call>, n: nat)
    requires n < |calls| && IsRun(calls, n + 1) && !calls[n].Cleanup?
    ensures Answered(StateAt(calls, n), calls[n]) == Answered(NeverCleaned(calls, n), calls[n])
  {
    hide *;
    Step(calls, n);
    RunsAlike(calls, n);
    AnswersAlike(StateAt(calls, n), NeverCleaned(calls, n), calls[n]);
  }
}
