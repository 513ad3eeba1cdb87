/**
 Single-use backup codes (internal/mfa/service.go) and the login step that verifies a code
 (internal/user/mfa_handlers.go): allow, verify, record or reset, store.

 Upper-casing is an arbitrary map from characters to characters, and whether a code is the current
 time-based one is an input.
 */
module BackupCodes {
  import opened Common
  import opened AttemptLimiting

  type Casing = char -> char

  /** A list of codes as stored: an empty column, text that does not parse, or a list. */
  datatype Stored = Empty | Malformed | Codes(list: seq<string>)

  /** What verifying gives: an error, or whether the code is valid and the used codes to store. */
  datatype Verdict = Invalid(used: Stored) | Valid(used: Stored) | Error

  // ---------- Codes that count as the same ----------

  function WithoutHyphens(s: string): string {
    if s == "" then "" else WithoutHyphens(s[..|s| - 1]) + if s[|s| - 1] == '-' then "" else [s[|s| - 1]]
  }

  function Upper(upper: Casing, s: string): (r: string)
    ensures |r| == |s|
  {
    seq(|s|, i requires 0 <= i < |s| => upper(s[i]))
  }

  function Normal(upper: Casing, s: string): string {
    Upper(upper, WithoutHyphens(s))
  }

  /** The characters before position `n` that are no hyphens. */
  function Rank(s: string, n: nat): nat
    requires n <= |s|
  {
    if n == 0 then 0 else Rank(s, n - 1) + if s[n - 1] == '-' then 0 else 1
  }

  lemma {:induction false} RankInPrefix(s: string, m: nat, n: nat)
    requires n <= m <= |s|
    ensures Rank(s[..m], n) == Rank(s, n) <= Rank(s, m)
  {
    if n == 0 {
      RankGrows(s, 0, m);
    } else {
      RankInPrefix(s, m, n - 1);
      RankGrows(s, n, m);
    }
  }

  lemma {:induction false} RankGrows(s: string, n: nat, m: nat)
    requires n <= m <= |s|
    ensures Rank(s, n) <= Rank(s, m)
  {
    if n < m { RankGrows(s, n, m - 1); }
  }

  /** A character that is no hyphen is kept, at its rank. */
  lemma {:induction false} KeptAtRank(s: string, i: nat)
    requires i < |s| && s[i] != '-'
    ensures |WithoutHyphens(s)| == Rank(s, |s|) && Rank(s, i) < |WithoutHyphens(s)|
    ensures WithoutHyphens(s)[Rank(s, i)] == s[i]
  {
    var last := |s| - 1;
    KeptLength(s);
    KeptLength(s[..last]);
    RankInPrefix(s, last, i);
    RankInPrefix(s, last, last);
    if i < last { KeptAtRank(s[..last], i); }
  }

  lemma {:induction false} KeptLength(s: string)
    ensures |WithoutHyphens(s)| == Rank(s, |s|)
  {
    if s == "" {
    } else {
      KeptLength(s[..|s| - 1]);
      RankInPrefix(s, |s| - 1, |s| - 1);
    }
  }

  /** And nothing else is. */
  lemma {:induction false} RankReached(s: string, k: nat) returns (i: nat)
    requires k < Rank(s, |s|)
    ensures i < |s| && s[i] != '-' && Rank(s, i) == k
  {
    var last := |s| - 1;
    if Rank(s, last) == k {
      i := last;
    } else {
      RankInPrefix(s, last, last);
      i := RankReached(s[..last], k);
      RankInPrefix(s, last, i);
    }
  }

  /** Two codes count as the same exactly if they have as many characters that are no hyphens, and those
      agree one by one once cased. */
  lemma SameExactly(upper: Casing, a: string, b: string)
    ensures Normal(upper, a) == Normal(upper, b) <==>
            && Rank(a, |a|) == Rank(b, |b|)
            && forall i, j :: 0 <= i < |a| && 0 <= j < |b| && a[i] != '-' && b[j] != '-' && Rank(a, i) == Rank(b, j) ==>
                 upper(a[i]) == upper(b[j])
  {
    hide WithoutHyphens, Rank;
    var x, y := WithoutHyphens(a), WithoutHyphens(b);
    KeptLength(a);
    KeptLength(b);
    forall i: nat, j: nat | i < |a| && j < |b| && a[i] != '-' && b[j] != '-' && Rank(a, i) == Rank(b, j)
      ensures Rank(a, i) < |x| && Rank(b, j) < |y| && x[Rank(a, i)] == a[i] && y[Rank(b, j)] == b[j]
    {
      KeptAtRank(a, i);
      KeptAtRank(b, j);
    }
    if Normal(upper, a) == Normal(upper, b) {
      assert forall k :: 0 <= k < |x| ==> upper(x[k]) == Normal(upper, a)[k] == Normal(upper, b)[k] == upper(y[k]);
    } else if Rank(a, |a|) == Rank(b, |b|) {
      var k :| 0 <= k < |x| && Normal(upper, a)[k] != Normal(upper, b)[k];
      var i := RankReached(a, k);
      var j := RankReached(b, k);
      assert upper(a[i]) != upper(b[j]);
    }
  }

  /** The list holds a code that counts as `input`. */
  predicate Holds(upper: Casing, codes: seq<string>, input: string) {
    exists i :: 0 <= i < |codes| && Normal(upper, codes[i]) == Normal(upper, input)
  }

  function FirstMatch(upper: Casing, codes: seq<string>, input: string): (i: nat)
    requires Holds(upper, codes, input)
    ensures i < |codes| && Normal(upper, codes[i]) == Normal(upper, input)
  {
    if Normal(upper, codes[0]) == Normal(upper, input) then 0
    else
      assert exists i :: 0 <= i < |codes[1..]| && Normal(upper, codes[1..][i]) == Normal(upper, input) by {
        var i :| 0 <= i < |codes| && Normal(upper, codes[i]) == Normal(upper, input);
        assert codes[1..][i - 1] == codes[i];
      }
      1 + FirstMatch(upper, codes[1..], input)
  }

  // ---------- Verification ----------

  function ListOf(stored: Stored): seq<string> {
    if stored.Codes? then stored.list else []
  }

  /** A backup code is good when it is on the list and nothing that counts as it has been used. */
  predicate Unused(upper: Casing, codes: seq<string>, used: seq<string>, input: string) {
    Holds(upper, codes, input) && !Holds(upper, used, input)
  }

  function BackupVerdict(upper: Casing, codes: Stored, used: Stored, input: string): Verdict {
    if codes.Malformed? || used.Malformed? then Error
    else if Unused(upper, ListOf(codes), ListOf(used), input)
    then Valid(Codes(ListOf(used) + [ListOf(codes)[FirstMatch(upper, ListOf(codes), input)]]))
    else Invalid(Empty)
  }

  function CodeVerdict(upper: Casing, totp: bool, codes: Stored, used: Stored, input: string): Verdict {
    if totp then Valid(used)
    else if codes.Empty? then Invalid(used)
    else BackupVerdict(upper, codes, used, input)
  }

  /** A code is valid exactly if it is time-based, or on the list and unused; it is an error exactly if it is not
      time-based and a list that is looked into does not parse. */
  lemma VerdictExactly(upper: Casing, totp: bool, codes: Stored, used: Stored, input: string)
    ensures CodeVerdict(upper, totp, codes, used, input).Valid? <==>
            totp || (codes.Codes? && used != Malformed && Holds(upper, codes.list, input)
                     && (used.Codes? ==> !Holds(upper, used.list, input)))
    ensures CodeVerdict(upper, totp, codes, used, input).Error? <==>
            !totp && codes != Empty && (codes == Malformed || used == Malformed)
    ensures totp ==> CodeVerdict(upper, totp, codes, used, input).used == used
  {}

  method VerifyBackupCode(upper: Casing, backupCodes: Stored, usedCodes: Stored, inputCode: string)
    returns (verdict: Verdict)
    ensures verdict == BackupVerdict(upper, backupCodes, usedCodes, inputCode)
  {
    var codes, used := [], [];
    if backupCodes != Empty {
      if backupCodes.Malformed? { return Error; }
      codes := backupCodes.list;
    }
    if usedCodes != Empty {
      if usedCodes.Malformed? { return Error; }
      used := usedCodes.list;
    }
    var input := Normal(upper, inputCode);
    for i := 0 to |codes|
      invariant forall k :: 0 <= k < i ==> Normal(upper, codes[k]) != input
    {
      if Normal(upper, codes[i]) == input {
        for j := 0 to |used|
          invariant forall k :: 0 <= k < j ==> Normal(upper, used[k]) != input
        {
          if Normal(upper, used[j]) == input { return Invalid(Empty); }
        }
        FirstMatchIs(upper, codes, inputCode, i);
        return Valid(Codes(used + [codes[i]]));
      }
    }
    return Invalid(Empty);
  }

  lemma {:induction false} FirstMatchIs(upper: Casing, codes: seq<string>, input: string, i: nat)
    requires i < |codes| && Normal(upper, codes[i]) == Normal(upper, input)
    requires forall k :: 0 <= k < i ==> Normal(upper, codes[k]) != Normal(upper, input)
    ensures Holds(upper, codes, input) && FirstMatch(upper, codes, input) == i
  {
    if i == 0 {
    } else {
      assert codes[1..][i - 1] == codes[i];
      forall k | 0 <= k < i - 1 ensures Normal(upper, codes[1..][k]) != Normal(upper, input) {
        assert codes[1..][k] == codes[k + 1];
      }
      FirstMatchIs(upper, codes[1..], input, i - 1);
    }
  }

  method IsCodeValid(upper: Casing, totp: bool, backupCodes: Stored, usedCodes: Stored, inputCode: string)
    returns (verdict: Verdict)
    ensures verdict == CodeVerdict(upper, totp, backupCodes, usedCodes, inputCode)
  {
    if totp { return Valid(usedCodes); }
    if backupCodes != Empty {
      verdict := VerifyBackupCode(upper, backupCodes, usedCodes, inputCode);
      return;
    }
    return Invalid(usedCodes);
  }

  // ---------- The login step ----------

  datatype Reply = TooManyAttempts | FailedToValidate | InvalidCode | Accepted

  /** What the handler tells the limiter, after asking it. */
  function Told(reply: Reply, key: Key, told: Time): seq<Event> {
    match reply
    case TooManyAttempts => []
    case FailedToValidate => [Abandoned(key, told)]
    case InvalidCode => [Failed(key, told)]
    case Accepted => [Cleared(key, told)]
  }

  class Verifier {
    const key: Key
    const limiter: AttemptLimiter
    var backupCodes: Stored
    var recoveryUsed: Stored

    constructor (key: Key, limiter: AttemptLimiter, backupCodes: Stored, recoveryUsed: Stored)
      ensures this.key == key && this.limiter == limiter
      ensures this.backupCodes == backupCodes && this.recoveryUsed == recoveryUsed
    {
      this.key, this.limiter, this.backupCodes, this.recoveryUsed := key, limiter, backupCodes, recoveryUsed;
    }

    /** The limiter is asked at one time and told at a later one. Only an accepted code changes the used
        list, and only a wrong one counts as a failure. */
    method VerifyMFA(upper: Casing, asked: Time, told: Time, totp: bool, input: string, stored: bool)
      returns (reply: Reply)
      requires limiter.Valid() && limiter.clock <= asked <= told
      modifies this`recoveryUsed, limiter
      ensures limiter.Valid() && limiter.clock <= told
      ensures reply == TooManyAttempts <==>
              Refused(FailureTimes(old(limiter.history), key), limiter.maxAttempts, limiter.window, asked)
      ensures var verdict := CodeVerdict(upper, totp, backupCodes, old(recoveryUsed), input);
              && (reply != TooManyAttempts ==>
                    reply == if verdict.Error? then FailedToValidate
                             else if verdict.Valid? then Accepted else InvalidCode)
              && (recoveryUsed == if reply == Accepted && stored then verdict.used else old(recoveryUsed))
      ensures limiter.history == old(limiter.history) + [Asked(key, asked)] + Told(reply, key, told)
      ensures totp && reply != TooManyAttempts ==> reply == Accepted && recoveryUsed == old(recoveryUsed)
    {
      var allowed := limiter.Allow(key, asked);
      if !allowed { return TooManyAttempts; }
      var verdict := IsCodeValid(upper, totp, backupCodes, recoveryUsed, input);
      if verdict.Error? {
        limiter.Note(Abandoned(key, told));
        return FailedToValidate;
      }
      if verdict.Invalid? {
        limiter.RecordFailure(key, told);
        return InvalidCode;
      }
      limiter.Reset(key, told);
      if verdict.used != recoveryUsed {
        if stored { recoveryUsed := verdict.used; }
      }
      return Accepted;
    }
  }

  // ---------- The limiter's protocol, one verification at a time ----------

  /** A whole verification is a run of the protocol that leaves nothing in flight. */
  lemma WholeVerification(h: seq<Event>, key: Key, maxAttempts: int, window: int, asked: Time, told: Time, reply: Reply)
    requires Protocol(h, key, maxAttempts, window, 1) && InFlight(h, key, maxAttempts, window) == 0
    requires (h != [] ==> h[|h| - 1].at <= asked) && asked <= told
    requires reply == TooManyAttempts <==> Refused(FailureTimes(h, key), maxAttempts, window, asked)
    ensures var after := h + [Asked(key, asked)] + Told(reply, key, told);
            Protocol(after, key, maxAttempts, window, 1) && InFlight(after, key, maxAttempts, window) == 0
  {
    hide Protocol, InFlight, Refused;
    var h1 := h + [Asked(key, asked)];
    InFlightOneMore(h, Asked(key, asked), key, maxAttempts, window);
    Extended(h, Asked(key, asked), key, maxAttempts, window, 1);
    if reply == TooManyAttempts {
      assert h1 + [] == h1;
    } else {
      var e := Told(reply, key, told)[0];
      InFlightOneMore(h1, e, key, maxAttempts, window);
      Extended(h1, e, key, maxAttempts, window, 1);
    }
  }

  /** One login attempt and when the limiter is asked and told. */
  datatype Login = Login(asked: Time, told: Time, totp: bool, input: string, stored: bool)

  predicate OneAfterAnother(logins: seq<Login>) {
    && (forall i :: 0 <= i < |logins| ==> 0 <= logins[i].asked <= logins[i].told)
    && (forall i :: 0 < i < |logins| ==> logins[i - 1].told <= logins[i].asked)
  }

  // ---------- Runs of verifications ----------

  /** One verification that the limiter lets through: whether the code is the time-based one, and whether
      storing the used codes works. */
  datatype Attempt = Attempt(totp: bool, input: string, stored: bool)

  function UsedAfter(upper: Casing, codes: Stored, used: Stored, attempts: seq<Attempt>, n: nat): Stored
    requires n <= |attempts|
  {
    if n == 0 then used
    else
      var before, a := UsedAfter(upper, codes, used, attempts, n - 1), attempts[n - 1];
      var verdict := CodeVerdict(upper, a.totp, codes, before, a.input);
      if verdict.Valid? && a.stored then verdict.used else before
  }

  /** The n-th attempt is accepted as a backup code. */
  predicate ByBackupCode(upper: Casing, codes: Stored, used: Stored, attempts: seq<Attempt>, n: nat)
    requires n < |attempts|
  {
    && !attempts[n].totp
    && CodeVerdict(upper, false, codes, UsedAfter(upper, codes, used, attempts, n), attempts[n].input).Valid?
  }

  predicate SameCode(upper: Casing, a: string, b: string) {
    Normal(upper, a) == Normal(upper, b)
  }

  /** One attempt adds its code to the used list exactly when the code is accepted and stored. */
  lemma OneAttempt(upper: Casing, codes: Stored, used: Stored, attempts: seq<Attempt>, n: nat, input: string)
    requires n < |attempts| && !codes.Malformed?
    ensures var before := UsedAfter(upper, codes, used, attempts, n);
            var after := UsedAfter(upper, codes, used, attempts, n + 1);
            !before.Malformed? ==>
              && !after.Malformed? && ListOf(before) <= ListOf(after)
              && (Holds(upper, ListOf(after), input) <==>
                  Holds(upper, ListOf(before), input)
                  || (ByBackupCode(upper, codes, used, attempts, n) && attempts[n].stored
                      && SameCode(upper, attempts[n].input, input)))
  {
    hide Normal, Holds;
    var before, a := UsedAfter(upper, codes, used, attempts, n), attempts[n];
    if !before.Malformed? && ByBackupCode(upper, codes, used, attempts, n) && a.stored {
      var code := ListOf(codes)[FirstMatch(upper, ListOf(codes), a.input)];
      HoldsOneMore(upper, ListOf(before), code, input);
    }
  }

  /** The used list holds exactly what it held at first and the codes accepted and stored since. */
  lemma {:induction false} UsedExactly(upper: Casing, codes: Stored, used: Stored, attempts: seq<Attempt>, n: nat,
                                       input: string)
    requires n <= |attempts| && !codes.Malformed? && !used.Malformed?
    ensures !UsedAfter(upper, codes, used, attempts, n).Malformed?
    ensures ListOf(used) <= ListOf(UsedAfter(upper, codes, used, attempts, n))
    ensures Holds(upper, ListOf(UsedAfter(upper, codes, used, attempts, n)), input) <==>
            Holds(upper, ListOf(used), input)
            || exists i :: 0 <= i < n && ByBackupCode(upper, codes, used, attempts, i) && attempts[i].stored
                           && SameCode(upper, attempts[i].input, input)
  {
    hide ByBackupCode, SameCode, CodeVerdict, Holds, ListOf;
    if n == 0 {
    } else {
      UsedExactly(upper, codes, used, attempts, n - 1, input);
      OneAttempt(upper, codes, used, attempts, n - 1, input);
    }
  }

  lemma HoldsOneMore(upper: Casing, list: seq<string>, code: string, input: string)
    ensures Holds(upper, list + [code], input) <==> Holds(upper, list, input) || SameCode(upper, code, input)
  {
    if Holds(upper, list, input) {
      var i :| 0 <= i < |list| && Normal(upper, list[i]) == Normal(upper, input);
      assert (list + [code])[i] == list[i];
    }
    if SameCode(upper, code, input) { assert (list + [code])[|list|] == code; }
  }

  /** Exactly which attempts a backup code lets in: those with a code on the list that was not used at
      first, and that no earlier attempt used and stored, whatever its case and hyphens. */
  lemma AcceptedExactly(upper: Casing, codes: Stored, used: Stored, attempts: seq<Attempt>, n: nat)
    requires n < |attempts| && !codes.Malformed? && !used.Malformed?
    ensures ByBackupCode(upper, codes, used, attempts, n) <==>
            && !attempts[n].totp && Unused(upper, ListOf(codes), ListOf(used), attempts[n].input)
            && !exists i :: 0 <= i < n && ByBackupCode(upper, codes, used, attempts, i) && attempts[i].stored
                            && SameCode(upper, attempts[i].input, attempts[n].input)
  {
    UsedExactly(upper, codes, used, attempts, n, attempts[n].input);
    if codes.Empty? { assert !Holds(upper, ListOf(codes), attempts[n].input); }
  }

  /** In a run that stores what it uses, no code is accepted twice. */
  lemma SingleUse(upper: Casing, codes: Stored, used: Stored, attempts: seq<Attempt>, i: nat, j: nat)
    requires i < j < |attempts| && !codes.Malformed? && !used.Malformed? && attempts[i].stored
    requires ByBackupCode(upper, codes, used, attempts, i) && SameCode(upper, attempts[i].input, attempts[j].input)
    ensures !ByBackupCode(upper, codes, used, attempts, j)
  {
    AcceptedExactly(upper, codes, used, attempts, j);
  }

  /** If storing fails, the same code is accepted again straight away. */
  lemma NotStoredIsNotUsed(upper: Casing, codes: Stored, used: Stored, attempts: seq<Attempt>, n: nat)
    requires n + 1 < |attempts| && !codes.Malformed? && !used.Malformed? && !attempts[n].stored
    requires ByBackupCode(upper, codes, used, attempts, n) && attempts[n + 1] == attempts[n]
    ensures ByBackupCode(upper, codes, used, attempts, n + 1)
  {}

  // ---------- Any sequence of logins ----------

  /** Some logins so far: the limiter's history, the stored used list, the replies, and the attempts the
      limiter let through. */
  datatype Progress = Progress(history: seq<Event>, used: Stored, replies: seq<Reply>, admitted: seq<Attempt>)

  function OneLogin(p: Progress, upper: Casing, key: Key, maxAttempts: int, window: int, codes: Stored,
                    l: Login): Progress {
    var asked := p.history + [Asked(key, l.asked)];
    if Refused(FailureTimes(p.history, key), maxAttempts, window, l.asked)
    then p.(history := asked, replies := p.replies + [TooManyAttempts])
    else
      var verdict := CodeVerdict(upper, l.totp, codes, p.used, l.input);
      var reply := if verdict.Error? then FailedToValidate else if verdict.Valid? then Accepted else InvalidCode;
      Progress(asked + Told(reply, key, l.told), if verdict.Valid? && l.stored then verdict.used else p.used,
               p.replies + [reply], p.admitted + [Attempt(l.totp, l.input, l.stored)])
  }

  function AfterLogins(upper: Casing, key: Key, maxAttempts: int, window: int, codes: Stored, used: Stored,
                       logins: seq<Login>, n: nat): Progress
    requires n <= |logins|
  {
    if n == 0 then Progress([], used, [], [])
    else OneLogin(AfterLogins(upper, key, maxAttempts, window, codes, used, logins, n - 1), upper, key, maxAttempts,
                  window, codes, logins[n - 1])
  }

  lemma {:induction false} UsedAfterMore(upper: Casing, codes: Stored, used: Stored, attempts: seq<Attempt>,
                                         a: Attempt, n: nat)
    requires n <= |attempts|
    ensures UsedAfter(upper, codes, used, attempts + [a], n) == UsedAfter(upper, codes, used, attempts, n)
  {
    hide CodeVerdict;
    if n == 0 {
    } else {
      UsedAfterMore(upper, codes, used, attempts, a, n - 1);
    }
  }

  /** What is stored in the end is what the attempts the limiter let through have used. */
  lemma {:induction false} UsedByAdmitted(upper: Casing, key: Key, maxAttempts: int, window: int, codes: Stored,
                                          used: Stored, logins: seq<Login>, n: nat)
    requires n <= |logins|
    ensures var p := AfterLogins(upper, key, maxAttempts, window, codes, used, logins, n);
            p.used == UsedAfter(upper, codes, used, p.admitted, |p.admitted|)
  {
    hide CodeVerdict, Refused, FailureTimes, Told;
    if n == 0 {
    } else {
      UsedByAdmitted(upper, key, maxAttempts, window, codes, used, logins, n - 1);
      var p, l := AfterLogins(upper, key, maxAttempts, window, codes, used, logins, n - 1), logins[n - 1];
      UsedAfterMore(upper, codes, used, p.admitted, Attempt(l.totp, l.input, l.stored), |p.admitted|);
    }
  }

  /** The handler follows the limiter's protocol: any sequence of whole verifications against a new limiter
      leaves a history with at most one in flight, and so no window with more failures than allowed. The
      codes used are those of the attempts the limiter let through. */
  method VerifyAll(upper: Casing, key: Key, maxAttempts: int, window: int, codes: Stored, used: Stored,
                   logins: seq<Login>)
    returns (verifier: Verifier, replies: seq<Reply>)
    requires OneAfterAnother(logins)
    ensures fresh(verifier) && verifier.key == key && verifier.backupCodes == codes && verifier.limiter.Valid()
    ensures verifier.limiter.maxAttempts == EffectiveMax(maxAttempts)
        && verifier.limiter.window == EffectiveWindow(window)
    ensures var limiter := verifier.limiter;
            var p := AfterLogins(upper, key, limiter.maxAttempts, limiter.window, codes, used, logins, |logins|);
            && replies == p.replies && limiter.history == p.history
            && verifier.recoveryUsed == p.used == UsedAfter(upper, codes, used, p.admitted, |p.admitted|)
            && Protocol(limiter.history, key, limiter.maxAttempts, limiter.window, 1)
            && WindowFailures(FailureTimes(limiter.history, key), limiter.window) <= limiter.maxAttempts
  {
    var limiter := new AttemptLimiter(maxAttempts, window);
    verifier := new Verifier(key, limiter, codes, used);
    replies := [];
    hide Protocol, InFlight, Refused, FailureTimes, CodeVerdict, UsedAfter, WindowFailures, OneLogin, AfterLogins, Told;
    ghost var m, w := limiter.maxAttempts, limiter.window;
    ghost var p := Progress([], used, [], []);
    NothingAsked(upper, key, m, w, codes, used, logins);
    for i := 0 to |logins|
      invariant fresh(limiter) && fresh(verifier) && verifier.limiter == limiter && verifier.key == key
      invariant verifier.backupCodes == codes && limiter.Valid()
      invariant limiter.clock <= if i == 0 then 0 else logins[i - 1].told
      invariant p == AfterLogins(upper, key, m, w, codes, used, logins, i)
      invariant replies == p.replies && limiter.history == p.history && verifier.recoveryUsed == p.used
      invariant Protocol(limiter.history, key, m, w, 1) && InFlight(limiter.history, key, m, w) == 0
    {
      var l := logins[i];
      var reply := verifier.VerifyMFA(upper, l.asked, l.told, l.totp, l.input, l.stored);
      WholeVerification(p.history, key, m, w, l.asked, l.told, reply);
      OneMoreLogin(upper, key, m, w, codes, used, logins, i, reply);
      p := OneLogin(p, upper, key, m, w, codes, l);
      replies := replies + [reply];
    }
    UsedByAdmitted(upper, key, m, w, codes, used, logins, |logins|);
    SequentialVerifications(limiter.history, key, 0, m, w);
  }

  lemma NothingAsked(upper: Casing, key: Key, maxAttempts: int, window: int, codes: Stored, used: Stored,
                     logins: seq<Login>)
    ensures Protocol([], key, maxAttempts, window, 1) && InFlight([], key, maxAttempts, window) == 0
    ensures AfterLogins(upper, key, maxAttempts, window, codes, used, logins, 0) == Progress([], used, [], [])
  {}

  lemma OneMoreLogin(upper: Casing, key: Key, maxAttempts: int, window: int, codes: Stored, used: Stored,
                     logins: seq<Login>, n: nat, reply: Reply)
    requires n < |logins|
    requires var p, l := AfterLogins(upper, key, maxAttempts, window, codes, used, logins, n), logins[n];
             var verdict := CodeVerdict(upper, l.totp, codes, p.used, l.input);
             reply == if Refused(FailureTimes(p.history, key), maxAttempts, window, l.asked) then TooManyAttempts
                      else if verdict.Error? then FailedToValidate else if verdict.Valid? then Accepted else InvalidCode
    ensures var p, l := AfterLogins(upper, key, maxAttempts, window, codes, used, logins, n), logins[n];
            var q := OneLogin(p, upper, key, maxAttempts, window, codes, l);
            && q == AfterLogins(upper, key, maxAttempts, window, codes, used, logins, n + 1)
            && q.history == p.history + [Asked(key, l.asked)] + Told(reply, key, l.told)
            && q.replies == p.replies + [reply]
            && q.used == if reply == Accepted && l.stored
                         then CodeVerdict(upper, l.totp, codes, p.used, l.input).used else p.used
  {
    hide CodeVerdict, Refused, FailureTimes;
  }

  // ---------- Guessing ----------

  /** The wrong codes among the replies, told of from `from` on and before `to`. */
  function WrongCodes(replies: seq<Reply>, logins: seq<Login>, from: Time, to: Time): nat
    requires |replies| <= |logins|
  {
    if replies == [] then 0
    else
      var last := |replies| - 1;
      WrongCodes(replies[..last], logins, from, to)
      + if replies[last] == InvalidCode && from <= logins[last].told < to then 1 else 0
  }

  lemma NoMoreFailures(h: seq<Event>, e: Event, key: Key, from: Time, to: Time)
    ensures FailuresWithin(h + [e], key, from, to)
         == FailuresWithin(h, key, from, to) + if e.Failed? && e.key == key && from <= e.at < to then 1 else 0
  {
    assert (h + [e])[..|h|] == h;
  }

  /** One more login: a reply, and what it adds to the history. */
  lemma LoginAdds(upper: Casing, key: Key, maxAttempts: int, window: int, codes: Stored, used: Stored,
                  logins: seq<Login>, n: nat) returns (reply: Reply)
    requires n < |logins|
    ensures var p := AfterLogins(upper, key, maxAttempts, window, codes, used, logins, n);
            var q := AfterLogins(upper, key, maxAttempts, window, codes, used, logins, n + 1);
            && q.replies == p.replies + [reply]
            && q.history == p.history + [Asked(key, logins[n].asked)] + Told(reply, key, logins[n].told)
            && (reply == TooManyAttempts <==>
                Refused(FailureTimes(p.history, key), maxAttempts, window, logins[n].asked))
  {
    hide CodeVerdict, Refused, FailureTimes;
    var p, l := AfterLogins(upper, key, maxAttempts, window, codes, used, logins, n), logins[n];
    var verdict := CodeVerdict(upper, l.totp, codes, p.used, l.input);
    reply := if Refused(FailureTimes(p.history, key), maxAttempts, window, l.asked) then TooManyAttempts
             else if verdict.Error? then FailedToValidate else if verdict.Valid? then Accepted else InvalidCode;
  }

  lemma FailuresOfLogin(h: seq<Event>, key: Key, asked: Time, told: Time, reply: Reply, from: Time, to: Time)
    requires Ordered(h) && (h != [] ==> h[|h| - 1].at <= asked) && asked <= told
    ensures var after := h + [Asked(key, asked)] + Told(reply, key, told);
            && FailuresWithin(after, key, from, to)
               == FailuresWithin(h, key, from, to) + (if reply == InvalidCode && from <= told < to then 1 else 0)
            && Ordered(after) && after[|after| - 1].at <= told
  {
    hide FailuresWithin, Ordered;
    var h1 := h + [Asked(key, asked)];
    NoMoreFailures(h, Asked(key, asked), key, from, to);
    OneMoreInOrder(h, Asked(key, asked));
    if reply == TooManyAttempts {
      assert h1 + [] == h1;
    } else {
      var e := Told(reply, key, told)[0];
      NoMoreFailures(h1, e, key, from, to);
      OneMoreInOrder(h1, e);
      assert h1 + Told(reply, key, told) == h1 + [e];
    }
  }

  lemma OneMoreInOrder(h: seq<Event>, e: Event)
    requires Ordered(h) && (h != [] ==> h[|h| - 1].at <= e.at)
    ensures Ordered(h + [e])
  {}

  lemma WrongCodesMore(replies: seq<Reply>, reply: Reply, logins: seq<Login>, from: Time, to: Time)
    requires |replies| < |logins|
    ensures WrongCodes(replies + [reply], logins, from, to)
         == WrongCodes(replies, logins, from, to)
            + if reply == InvalidCode && from <= logins[|replies|].told < to then 1 else 0
  {
    assert (replies + [reply])[..|replies|] == replies;
  }

  /** The failures the limiter has been told of are the wrong codes, one each, and its history is in order. */
  lemma {:induction false} WrongCodesCounted(upper: Casing, key: Key, maxAttempts: int, window: int, codes: Stored,
                                             used: Stored, logins: seq<Login>, n: nat, from: Time, to: Time)
    requires n <= |logins| && OneAfterAnother(logins)
    ensures var p := AfterLogins(upper, key, maxAttempts, window, codes, used, logins, n);
            && |p.replies| == n && FailuresWithin(p.history, key, from, to) == WrongCodes(p.replies, logins, from, to)
            && Ordered(p.history) && (p.history != [] ==> n > 0 && p.history[|p.history| - 1].at <= logins[n - 1].told)
  {
    hide *;
    if n == 0 {
      NoLoginYet(upper, key, maxAttempts, window, codes, used, logins, from, to);
    } else {
      WrongCodesCounted(upper, key, maxAttempts, window, codes, used, logins, n - 1, from, to);
      var p := AfterLogins(upper, key, maxAttempts, window, codes, used, logins, n - 1);
      var reply := LoginAdds(upper, key, maxAttempts, window, codes, used, logins, n - 1);
      InTurn(logins, n - 1);
      FailuresOfLogin(p.history, key, logins[n - 1].asked, logins[n - 1].told, reply, from, to);
      WrongCodesMore(p.replies, reply, logins, from, to);
    }
  }

  lemma InTurn(logins: seq<Login>, n: nat)
    requires OneAfterAnother(logins) && n < |logins|
    ensures logins[n].asked <= logins[n].told && (n > 0 ==> logins[n - 1].told <= logins[n].asked)
  {}

  lemma NoLoginYet(upper: Casing, key: Key, maxAttempts: int, window: int, codes: Stored, used: Stored,
                   logins: seq<Login>, from: Time, to: Time)
    ensures var p := AfterLogins(upper, key, maxAttempts, window, codes, used, logins, 0);
            && p.replies == [] && p.history == [] && Ordered([])
            && FailuresWithin([], key, from, to) == WrongCodes([], logins, from, to) == 0
            && Protocol([], key, maxAttempts, window, 1) && InFlight([], key, maxAttempts, window) == 0
  {}

  lemma {:induction false} FailuresAdd(a: seq<Event>, b: seq<Event>, key: Key, from: Time, to: Time)
    ensures FailuresWithin(a + b, key, from, to) == FailuresWithin(a, key, from, to) + FailuresWithin(b, key, from, to)
  {
    if b == [] {
      assert a + b == a;
    } else {
      assert (a + b)[..|a + b| - 1] == a + b[..|b| - 1];
      FailuresAdd(a, b[..|b| - 1], key, from, to);
    }
  }

  lemma {:induction false} LoginsGoOn(upper: Casing, key: Key, maxAttempts: int, window: int, codes: Stored,
                                      used: Stored, logins: seq<Login>, m: nat, n: nat)
    requires m <= n <= |logins|
    ensures var p := AfterLogins(upper, key, maxAttempts, window, codes, used, logins, m);
            var q := AfterLogins(upper, key, maxAttempts, window, codes, used, logins, n);
            p.history <= q.history && p.replies <= q.replies && |p.replies| == m && |q.replies| == n
  {
    hide *;
    if n == 0 {
      NoLoginYet(upper, key, maxAttempts, window, codes, used, logins, 0, 0);
    } else {
      var reply := LoginAdds(upper, key, maxAttempts, window, codes, used, logins, n - 1);
      LoginsGoOn(upper, key, maxAttempts, window, codes, used, logins, if m < n then m else n - 1, n - 1);
    }
  }

  /** After an accepted login, and at first, only the wrong codes since then count. */
  lemma SinceAccepted(upper: Casing, key: Key, maxAttempts: int, window: int, codes: Stored, used: Stored,
                      logins: seq<Login>, m: nat, n: nat)
    requires m <= n <= |logins|
    requires var p := AfterLogins(upper, key, maxAttempts, window, codes, used, logins, m);
             m > 0 ==> |p.replies| == m && p.replies[m - 1] == Accepted
    ensures var p := AfterLogins(upper, key, maxAttempts, window, codes, used, logins, m);
            var q := AfterLogins(upper, key, maxAttempts, window, codes, used, logins, n);
            && p.history <= q.history
            && FailureTimes(q.history, key) == FailureTimes(q.history[|p.history|..], key)
  {
    hide CodeVerdict, Refused, FailureTimes;
    LoginsGoOn(upper, key, maxAttempts, window, codes, used, logins, m, n);
    var p := AfterLogins(upper, key, maxAttempts, window, codes, used, logins, m);
    var q := AfterLogins(upper, key, maxAttempts, window, codes, used, logins, n);
    var since := q.history[|p.history|..];
    if m == 0 {
      assert since == q.history;
    } else {
      var told := logins[m - 1].told;
      var before := p.history[..|p.history| - 1];
      assert p.history[|p.history| - 1] == Cleared(key, told);
      assert q.history == before + [Cleared(key, told)] + since;
      ClearedStartsOver(before, key, told, since);
    }
  }

  lemma CountedSince(upper: Casing, key: Key, maxAttempts: int, window: int, codes: Stored, used: Stored,
                     logins: seq<Login>, m: nat, n: nat, from: Time, to: Time)
    requires m <= n < |logins| && OneAfterAnother(logins)
    ensures var p := AfterLogins(upper, key, maxAttempts, window, codes, used, logins, m);
            var q := AfterLogins(upper, key, maxAttempts, window, codes, used, logins, n);
            && p.history <= q.history && |p.replies| == m && |q.replies| == n && p.replies <= q.replies
            && var since := q.history[|p.history|..];
               && WrongCodes(q.replies, logins, from, to)
                  == WrongCodes(p.replies, logins, from, to) + FailuresWithin(since, key, from, to)
               && Ordered(since) && (since != [] ==> since[|since| - 1].at <= logins[n].asked)
  {
    hide *;
    var p := AfterLogins(upper, key, maxAttempts, window, codes, used, logins, m);
    var q := AfterLogins(upper, key, maxAttempts, window, codes, used, logins, n);
    LoginsGoOn(upper, key, maxAttempts, window, codes, used, logins, m, n);
    WrongCodesCounted(upper, key, maxAttempts, window, codes, used, logins, m, from, to);
    WrongCodesCounted(upper, key, maxAttempts, window, codes, used, logins, n, from, to);
    assert q.history == p.history + q.history[|p.history|..];
    FailuresAdd(p.history, q.history[|p.history|..], key, from, to);
    RestIsOrdered(q.history, |p.history|, logins, n);
  }

  /** A login is only refused after maxAttempts wrong codes, all in the last window's length and all since the
      last accepted login. */
  lemma RefusedAfterWrongCodes(upper: Casing, key: Key, maxAttempts: int, window: int, codes: Stored, used: Stored,
                               logins: seq<Login>, m: nat, n: nat)
    requires 0 < maxAttempts && m <= n < |logins| && OneAfterAnother(logins)
    requires var replies := AfterLogins(upper, key, maxAttempts, window, codes, used, logins, n + 1).replies;
             |replies| == n + 1 && replies[n] == TooManyAttempts && (m > 0 ==> replies[m - 1] == Accepted)
    ensures var replies := AfterLogins(upper, key, maxAttempts, window, codes, used, logins, n + 1).replies;
            var now := logins[n].asked;
            WrongCodes(replies[..n], logins, now - window + 1, now + 1)
            >= maxAttempts + WrongCodes(replies[..m], logins, now - window + 1, now + 1)
  {
    hide *;
    var p := AfterLogins(upper, key, maxAttempts, window, codes, used, logins, m);
    var q := AfterLogins(upper, key, maxAttempts, window, codes, used, logins, n);
    var now := logins[n].asked;
    LastIsRefused(upper, key, maxAttempts, window, codes, used, logins, n);
    CountedSince(upper, key, maxAttempts, window, codes, used, logins, m, n, now - window + 1, now + 1);
    RepliesGoOn(upper, key, maxAttempts, window, codes, used, logins, m, n);
    SinceAccepted(upper, key, maxAttempts, window, codes, used, logins, m, n);
    RefusedForCause(q.history[|p.history|..], key, maxAttempts, window, now);
  }

  lemma RepliesGoOn(upper: Casing, key: Key, maxAttempts: int, window: int, codes: Stored, used: Stored,
                    logins: seq<Login>, m: nat, n: nat)
    requires m <= n < |logins|
    ensures var replies := AfterLogins(upper, key, maxAttempts, window, codes, used, logins, n + 1).replies;
            && |replies| == n + 1
            && AfterLogins(upper, key, maxAttempts, window, codes, used, logins, m).replies == replies[..m]
            && AfterLogins(upper, key, maxAttempts, window, codes, used, logins, n).replies == replies[..n]
            && (m > 0 ==> replies[m - 1] == replies[..m][m - 1])
  {
    hide *;
    LoginsGoOn(upper, key, maxAttempts, window, codes, used, logins, m, n + 1);
    LoginsGoOn(upper, key, maxAttempts, window, codes, used, logins, n, n + 1);
  }

  lemma LastIsRefused(upper: Casing, key: Key, maxAttempts: int, window: int, codes: Stored, used: Stored,
                      logins: seq<Login>, n: nat)
    requires n < |logins|
    requires var replies := AfterLogins(upper, key, maxAttempts, window, codes, used, logins, n + 1).replies;
             |replies| == n + 1 && replies[n] == TooManyAttempts
    ensures var q := AfterLogins(upper, key, maxAttempts, window, codes, used, logins, n);
            Refused(FailureTimes(q.history, key), maxAttempts, window, logins[n].asked)
  {
    hide *;
    var reply := LoginAdds(upper, key, maxAttempts, window, codes, used, logins, n);
    LoginsGoOn(upper, key, maxAttempts, window, codes, used, logins, n, n);
  }

  lemma RestIsOrdered(h: seq<Event>, k: nat, logins: seq<Login>, n: nat)
    requires Ordered(h) && k <= |h| && n < |logins| && OneAfterAnother(logins)
    requires h != [] ==> n > 0 && h[|h| - 1].at <= logins[n - 1].told
    ensures var since := h[k..]; Ordered(since) && (since != [] ==> since[|since| - 1].at <= logins[n].asked)
  {}

  /** The logins are a run of the limiter's protocol. */
  lemma {:induction false} LoginsFollowProtocol(upper: Casing, key: Key, maxAttempts: int, window: int, codes: Stored,
                                                used: Stored, logins: seq<Login>, n: nat)
    requires n <= |logins| && OneAfterAnother(logins)
    ensures var p := AfterLogins(upper, key, maxAttempts, window, codes, used, logins, n);
            Protocol(p.history, key, maxAttempts, window, 1) && InFlight(p.history, key, maxAttempts, window) == 0
  {
    hide *;
    if n == 0 {
      NoLoginYet(upper, key, maxAttempts, window, codes, used, logins, 0, 0);
    } else {
      LoginsFollowProtocol(upper, key, maxAttempts, window, codes, used, logins, n - 1);
      WrongCodesCounted(upper, key, maxAttempts, window, codes, used, logins, n - 1, 0, 0);
      var p, l := AfterLogins(upper, key, maxAttempts, window, codes, used, logins, n - 1), logins[n - 1];
      InTurn(logins, n - 1);
      var reply := LoginAdds(upper, key, maxAttempts, window, codes, used, logins, n - 1);
      WholeVerification(p.history, key, maxAttempts, window, l.asked, l.told, reply);
    }
  }

  lemma {:induction false} NothingCleared(upper: Casing, key: Key, maxAttempts: int, window: int, codes: Stored,
                                          used: Stored, logins: seq<Login>, n: nat)
    requires n <= |logins| && Accepted !in AfterLogins(upper, key, maxAttempts, window, codes, used, logins, n).replies
    ensures forall e :: e in AfterLogins(upper, key, maxAttempts, window, codes, used, logins, n).history ==>
              e != Cleared(key, e.at)
  {
    hide *;
    if n == 0 {
      NoLoginYet(upper, key, maxAttempts, window, codes, used, logins, 0, 0);
    } else {
      var p := AfterLogins(upper, key, maxAttempts, window, codes, used, logins, n - 1);
      var reply := LoginAdds(upper, key, maxAttempts, window, codes, used, logins, n - 1);
      assert reply != Accepted && Accepted !in p.replies;
      NothingCleared(upper, key, maxAttempts, window, codes, used, logins, n - 1);
      ToldOnlyIfAccepted(reply, key, logins[n - 1].told);
    }
  }

  lemma ToldOnlyIfAccepted(reply: Reply, key: Key, told: Time)
    requires reply != Accepted
    ensures forall e :: e in Told(reply, key, told) ==> e != Cleared(key, e.at)
  {}

  /** As long as no login is accepted, no interval of one window's length sees more than 2 * maxAttempts - 1
      wrong codes checked. */
  lemma GuessesBounded(upper: Casing, key: Key, maxAttempts: int, window: int, codes: Stored, used: Stored,
                       logins: seq<Login>, from: Time)
    requires 0 < maxAttempts && 0 < window && OneAfterAnother(logins)
    requires Accepted !in AfterLogins(upper, key, maxAttempts, window, codes, used, logins, |logins|).replies
    ensures var p := AfterLogins(upper, key, maxAttempts, window, codes, used, logins, |logins|);
            |p.replies| == |logins| && WrongCodes(p.replies, logins, from, from + window) <= 2 * maxAttempts - 1
  {
    hide *;
    var n := |logins|;
    WrongCodesCounted(upper, key, maxAttempts, window, codes, used, logins, n, from, from + window);
    LoginsFollowProtocol(upper, key, maxAttempts, window, codes, used, logins, n);
    NothingCleared(upper, key, maxAttempts, window, codes, used, logins, n);
    SequentialVerifications(AfterLogins(upper, key, maxAttempts, window, codes, used, logins, n).history, key, from,
                            maxAttempts, window);
  }

  // ---------- How many acceptances there can be ----------

  function DistinctCodes(upper: Casing, codes: seq<string>): set<string> {
    set i | 0 <= i < |codes| :: Normal(upper, codes[i])
  }

  function AcceptedCodes(upper: Casing, codes: Stored, used: Stored, attempts: seq<Attempt>, n: nat): seq<string>
    requires n <= |attempts|
  {
    if n == 0 then []
    else AcceptedCodes(upper, codes, used, attempts, n - 1)
         + if ByBackupCode(upper, codes, used, attempts, n - 1) then [Normal(upper, attempts[n - 1].input)] else []
  }

  lemma {:induction false} AcceptedAreAttempted(upper: Casing, codes: Stored, used: Stored, attempts: seq<Attempt>,
                                                n: nat, c: string)
    requires n <= |attempts| && c in AcceptedCodes(upper, codes, used, attempts, n)
    ensures exists i :: 0 <= i < n && ByBackupCode(upper, codes, used, attempts, i)
                        && Normal(upper, attempts[i].input) == c
  {
    if c !in AcceptedCodes(upper, codes, used, attempts, n - 1) {
    } else {
      AcceptedAreAttempted(upper, codes, used, attempts, n - 1, c);
    }
  }

  lemma AcceptedIsNew(upper: Casing, codes: Stored, used: Stored, attempts: seq<Attempt>, n: nat)
    requires n < |attempts| && !codes.Malformed? && !used.Malformed?
    requires forall i :: 0 <= i < |attempts| ==> attempts[i].stored
    requires ByBackupCode(upper, codes, used, attempts, n)
    ensures var c := Normal(upper, attempts[n].input);
            && c in DistinctCodes(upper, ListOf(codes)) && c !in DistinctCodes(upper, ListOf(used))
            && c !in AcceptedCodes(upper, codes, used, attempts, n)
  {
    hide CodeVerdict, AcceptedCodes;
    AcceptedExactly(upper, codes, used, attempts, n);
    var c := Normal(upper, attempts[n].input);
    if c in AcceptedCodes(upper, codes, used, attempts, n) {
      AcceptedAreAttempted(upper, codes, used, attempts, n, c);
    }
  }

  lemma {:induction false} AcceptedAreDistinct(upper: Casing, codes: Stored, used: Stored, attempts: seq<Attempt>,
                                               n: nat)
    requires n <= |attempts| && !codes.Malformed? && !used.Malformed?
    requires forall i :: 0 <= i < |attempts| ==> attempts[i].stored
    ensures forall i, j :: 0 <= i < j < |AcceptedCodes(upper, codes, used, attempts, n)| ==>
              AcceptedCodes(upper, codes, used, attempts, n)[i] != AcceptedCodes(upper, codes, used, attempts, n)[j]
    ensures forall c :: c in AcceptedCodes(upper, codes, used, attempts, n) ==>
              c in DistinctCodes(upper, ListOf(codes)) && c !in DistinctCodes(upper, ListOf(used))
  {
    hide ByBackupCode, DistinctCodes, Normal, ListOf;
    if n == 0 {
    } else {
      AcceptedAreDistinct(upper, codes, used, attempts, n - 1);
      if ByBackupCode(upper, codes, used, attempts, n - 1) {
        AcceptedIsNew(upper, codes, used, attempts, n - 1);
      }
    }
  }

  lemma {:induction false} DistinctFit(s: seq<string>, room: set<string>)
    requires forall i, j :: 0 <= i < j < |s| ==> s[i] != s[j]
    requires forall c :: c in s ==> c in room
    ensures |s| <= |room|
  {
    if s == [] {
    } else {
      var last := s[|s| - 1];
      assert last in s;
      forall c | c in s[..|s| - 1] ensures c in room - {last} {
        var i :| 0 <= i < |s| - 1 && s[..|s| - 1][i] == c;
        assert c in s;
      }
      DistinctFit(s[..|s| - 1], room - {last});
    }
  }

  /** In a run that stores what it uses, backup codes are accepted at most as often as there are distinct
      codes not yet used. */
  lemma NoMoreThanTheCodes(upper: Casing, codes: Stored, used: Stored, attempts: seq<Attempt>)
    requires !codes.Malformed? && !used.Malformed? && forall i :: 0 <= i < |attempts| ==> attempts[i].stored
    ensures |AcceptedCodes(upper, codes, used, attempts, |attempts|)|
         <= |DistinctCodes(upper, ListOf(codes)) - DistinctCodes(upper, ListOf(used))|
  {
    AcceptedAreDistinct(upper, codes, used, attempts, |attempts|);
    DistinctFit(AcceptedCodes(upper, codes, used, attempts, |attempts|),
                DistinctCodes(upper, ListOf(codes)) - DistinctCodes(upper, ListOf(used)));
  }
}
