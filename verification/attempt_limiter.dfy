/**
 The MFA attempt limiter: a fixed-window failure counter per key with lazy deletion and an
 amortised sweep (internal/mfa/attempt_limiter.go), and the allow / verify / record-or-reset
 protocol its callers follow (internal/user/mfa_handlers.go).

 The class is the limiter as written. Its contracts compare every answer with a specification
 that knows nothing of records, deletions or sweeps: it looks only at the times of the key's own
 failures since the key was last cleared.
 */
module AttemptLimiting {

  type Key = string

  /** Nanoseconds since the zero time, which is also the initial `lastSweep`. */
  type Time = int

  const DEFAULT_MAX_ATTEMPTS: int := 5
  const DEFAULT_WINDOW: int := 300_000_000_000
  const SWEEP_INTERVAL: int := 600_000_000_000

  /** What happens to a key. `Abandoned` is a verification that ended in an error: the handler
      returns without telling the limiter, so the class below never sees it. */
  datatype Event =
    | Asked(key: Key, at: Time)
    | Failed(key: Key, at: Time)
    | Cleared(key: Key, at: Time)
    | Abandoned(key: Key, at: Time)

  predicate Ordered(h: seq<Event>) {
    forall i, j :: 0 <= i < j < |h| ==> h[i].at <= h[j].at
  }

  // ---------- Specification: one key's own history ----------

  /** The times of the key's failures since it was last cleared, oldest first. */
  function FailureTimes(h: seq<Event>, key: Key): (ts: seq<Time>) {
    if h == [] then []
    else
      var before := FailureTimes(h[..|h| - 1], key);
      match h[|h| - 1]
      case Failed(k, t) => if k == key then before + [t] else before
      case Cleared(k, _) => if k == key then [] else before
      case _ => before
  }

  /** The index of the failure that opened the window the last failure fell into: a failure opens
      a new window exactly when the previous opening is a full window in the past. */
  function Opening(ts: seq<Time>, window: int): (w: nat)
    requires ts != []
    ensures w < |ts|
  {
    var last := |ts| - 1;
    if last == 0 then 0
    else
      var w := Opening(ts[..last], window);
      if ts[last] - ts[w] >= window then last else w
  }

  function WindowFailures(ts: seq<Time>, window: int): nat {
    if ts == [] then 0 else |ts| - Opening(ts, window)
  }

  /** The window of the last failure is still running at `now`. */
  predicate Running(ts: seq<Time>, window: int, now: Time) {
    ts != [] && now - ts[Opening(ts, window)] < window
  }

  predicate Refused(ts: seq<Time>, maxAttempts: int, window: int, now: Time) {
    Running(ts, window, now) && WindowFailures(ts, window) >= maxAttempts
  }

  // ---------- The limiter ----------

  datatype AttemptRecord = AttemptRecord(failures: int, windowStart: Time)

  /** What the map may hold for a key with failures `ts`: the record of the last window, or nothing
      once that window is over. */
  ghost predicate Agrees(attempts: map<Key, AttemptRecord>, key: Key, ts: seq<Time>, window: int, clock: Time) {
    if key in attempts then
      ts != [] && attempts[key] == AttemptRecord(WindowFailures(ts, window), ts[Opening(ts, window)])
    else
      !Running(ts, window, clock)
  }

  function EffectiveMax(configured: int): int {
    if configured <= 0 then DEFAULT_MAX_ATTEMPTS else configured
  }

  function EffectiveWindow(configured: int): int {
    if configured <= 0 then DEFAULT_WINDOW else configured
  }

  class AttemptLimiter {
    var attempts: map<Key, AttemptRecord>
    const maxAttempts: int
    const window: int
    var lastSweep: Time
    ghost var history: seq<Event>
    ghost var clock: Time

    ghost predicate Valid()
      reads this
    {
      && 0 < maxAttempts && 0 < window
      && Ordered(history)
      && (forall i :: 0 <= i < |history| ==> history[i].at <= clock)
      && forall key :: Agrees(attempts, key, FailureTimes(history, key), window, clock)
    }

    constructor (maxAttempts: int, window: int)
      ensures Valid() && history == [] && clock == 0
      ensures this.maxAttempts == EffectiveMax(maxAttempts) && this.window == EffectiveWindow(window)
      ensures this.maxAttempts == if maxAttempts <= 0 then 5 else maxAttempts
      ensures this.window == if window <= 0 then 300_000_000_000 else window
    {
      this.maxAttempts := if maxAttempts <= 0 then DEFAULT_MAX_ATTEMPTS else maxAttempts;
      this.window := if window <= 0 then DEFAULT_WINDOW else window;
      attempts := map[];
      lastSweep := 0;
      history, clock := [], 0;
    }

    method Allow(key: Key, now: Time) returns (ok: bool)
      requires Valid() && clock <= now
      modifies this
      ensures Valid() && clock == now && history == old(history) + [Asked(key, now)]
      ensures ok == !Refused(FailureTimes(old(history), key), maxAttempts, window, now)
    {
      Sweep(now);
      Note(Asked(key, now));
      if key !in attempts {
        ok := true;
      } else if now - attempts[key].windowStart >= window {
        attempts := attempts - {key};
        ok := true;
      } else {
        ok := attempts[key].failures < maxAttempts;
      }
    }

    method RecordFailure(key: Key, now: Time)
      requires Valid() && clock <= now
      modifies this
      ensures Valid() && clock == now && history == old(history) + [Failed(key, now)]
    {
      Sweep(now);
      ghost var was := attempts;
      var rec;
      if key !in attempts || now - attempts[key].windowStart >= window {
        rec := AttemptRecord(0, now);
      } else {
        rec := attempts[key];
      }
      attempts := attempts[key := rec.(failures := rec.failures + 1)];
      assert Agrees(was, key, FailureTimes(history, key), window, now);
      FailureKeepsAgreement(was, attempts, history, key, now, window);
      history := history + [Failed(key, now)];
    }

    /** The code reads no clock here; `at` only dates the event in the history. */
    method Reset(key: Key, ghost at: Time)
      requires Valid() && clock <= at
      modifies this
      ensures Valid() && clock == at && history == old(history) + [Cleared(key, at)]
      ensures key !in attempts && lastSweep == old(lastSweep)
      ensures forall k :: k != key ==> (k in attempts <==> k in old(attempts))
      ensures forall k :: k in attempts ==> attempts[k] == old(attempts)[k]
    {
      ghost var was := attempts;
      attempts := attempts - {key};
      clock := at;
      history := history + [Cleared(key, at)];
      forall k ensures Agrees(attempts, k, FailureTimes(history, k), window, clock) {
        assert history[..|history| - 1] == old(history);
        assert Agrees(was, k, FailureTimes(old(history), k), window, old(clock));
      }
    }

    /** Drops expired records, at most once per ten minutes. */
    method Sweep(now: Time)
      requires Valid() && clock <= now
      modifies this
      ensures Valid() && clock == now && history == old(history)
      ensures forall k :: k in attempts ==> k in old(attempts) && attempts[k] == old(attempts)[k]
      ensures forall k :: k in old(attempts) && now - old(attempts)[k].windowStart < window ==> k in attempts
      ensures now - old(lastSweep) >= 600_000_000_000 ==>
                lastSweep == now && forall k :: k in attempts ==> now - attempts[k].windowStart < window
      ensures now - old(lastSweep) < 600_000_000_000 ==> lastSweep == old(lastSweep) && attempts == old(attempts)
    {
      ghost var was := attempts;
      ghost var earlier := clock;
      clock := now;
      if now - lastSweep >= SWEEP_INTERVAL {
        lastSweep := now;
        var left := attempts.Keys;
        while left != {}
          invariant left <= attempts.Keys
          invariant clock == now && history == old(history) && lastSweep == now
          invariant forall k :: k in attempts ==> k in was && attempts[k] == was[k]
          invariant forall k :: k in was && now - was[k].windowStart < window ==> k in attempts
          invariant forall k :: k in attempts && k !in left ==> now - attempts[k].windowStart < window
          decreases left
        {
          var k :| k in left;
          left := left - {k};
          if now - attempts[k].windowStart >= window {
            attempts := attempts - {k};
          }
        }
      }
      forall k ensures Agrees(attempts, k, FailureTimes(history, k), window, clock) {
        assert Agrees(was, k, FailureTimes(history, k), window, earlier);
      }
    }

    /** Writes an event that records no failure into the history. */
    ghost method Note(e: Event)
      requires Valid() && clock <= e.at && (e.Asked? || e.Abandoned?)
      modifies `history, `clock
      ensures Valid() && clock == e.at && history == old(history) + [e]
    {
      clock := e.at;
      history := history + [e];
      forall k ensures Agrees(attempts, k, FailureTimes(history, k), window, clock) {
        assert history[..|history| - 1] == old(history);
        assert Agrees(attempts, k, FailureTimes(old(history), k), window, old(clock));
      }
    }
  }

  /** A failure written as RecordFailure writes it keeps the map in agreement for every key. */
  lemma FailureKeepsAgreement(was: map<Key, AttemptRecord>, attempts: map<Key, AttemptRecord>, h: seq<Event>,
                              key: Key, now: Time, window: int)
    requires 0 < window
    requires forall k :: Agrees(was, k, FailureTimes(h, k), window, now)
    requires attempts == if key in was && now - was[key].windowStart < window
                         then was[key := AttemptRecord(was[key].failures + 1, was[key].windowStart)]
                         else was[key := AttemptRecord(1, now)]
    ensures forall k :: Agrees(attempts, k, FailureTimes(h + [Failed(key, now)], k), window, now)
  {
    var after := h + [Failed(key, now)];
    assert after[..|h|] == h;
    forall k ensures Agrees(attempts, k, FailureTimes(after, k), window, now) {
      var ts := FailureTimes(h, k);
      assert Agrees(was, k, ts, window, now);
      OneMoreFailure(ts, now, window);
    }
  }

  lemma OneMoreFailure(ts: seq<Time>, now: Time, window: int)
    requires 0 < window
    ensures WindowFailures(ts + [now], window) == if Running(ts, window, now) then WindowFailures(ts, window) + 1 else 1
    ensures (ts + [now])[Opening(ts + [now], window)]
        == if Running(ts, window, now) then ts[Opening(ts, window)] else now
  {
    assert (ts + [now])[..|ts|] == ts;
  }

  /** One event of a history, as a call on the limiter. */
  method Perform(limiter: AttemptLimiter, e: Event) returns (ok: bool)
    requires limiter.Valid() && limiter.clock <= e.at
    modifies limiter
    ensures limiter.Valid() && limiter.clock == e.at && limiter.history == old(limiter.history) + [e]
    ensures e.Asked? ==>
              ok == !Refused(FailureTimes(old(limiter.history), e.key), limiter.maxAttempts, limiter.window, e.at)
  {
    hide AttemptLimiter.Valid, Refused, FailureTimes;
    ok := true;
    match e {
      case Asked(key, now) => ok := limiter.Allow(key, now);
      case Failed(key, now) => limiter.RecordFailure(key, now);
      case Cleared(key, now) => limiter.Reset(key, now);
      case Abandoned(_, _) => limiter.Note(e);
    }
  }

  /** The i-th answer, if it is one, is what the events before it say of its key. */
  predicate AsHistorySays(h: seq<Event>, i: nat, maxAttempts: int, window: int, answer: bool)
    requires i < |h|
  {
    h[i].Asked? ==> answer == !Refused(FailureTimes(h[..i], h[i].key), maxAttempts, window, h[i].at)
  }

  /** Any sequence of calls over any keys, on a new limiter: every answer is the one the key's own
      history gives. */
  method Replay(maxAttempts: int, window: int, h: seq<Event>) returns (answers: seq<bool>)
    requires Ordered(h) && (h != [] ==> 0 <= h[0].at)
    ensures |answers| == |h|
    ensures forall i :: 0 <= i < |h| ==>
              AsHistorySays(h, i, EffectiveMax(maxAttempts), EffectiveWindow(window), answers[i])
  {
    assert forall n :: 0 < n < |h| ==> h[n - 1].at <= h[n].at;
    var limiter := new AttemptLimiter(maxAttempts, window);
    hide AttemptLimiter.Valid, Ordered, EffectiveMax, EffectiveWindow, FailureTimes, Refused;
    answers := [];
    for n := 0 to |h|
      invariant fresh(limiter) && limiter.Valid() && limiter.history == h[..n] && |answers| == n
      invariant limiter.maxAttempts == EffectiveMax(maxAttempts) && limiter.window == EffectiveWindow(window)
      invariant limiter.clock == if n == 0 then 0 else h[n - 1].at
      invariant forall i :: 0 <= i < n ==>
                  AsHistorySays(h, i, EffectiveMax(maxAttempts), EffectiveWindow(window), answers[i])
    {
      var ok := Perform(limiter, h[n]);
      assert AsHistorySays(h, n, EffectiveMax(maxAttempts), EffectiveWindow(window), ok);
      assert h[..n + 1] == h[..n] + [h[n]];
      answers := answers + [ok];
    }
  }

  function Own(h: seq<Event>, key: Key): seq<Event> {
    if h == [] then []
    else Own(h[..|h| - 1], key) + if h[|h| - 1].key == key then [h[|h| - 1]] else []
  }

  /** Calls for other keys cannot be observed. */
  lemma {:induction false} OtherKeysUnobservable(h: seq<Event>, key: Key)
    ensures FailureTimes(h, key) == FailureTimes(Own(h, key), key)
  {
    if h == [] {
    } else {
      var before, last := h[..|h| - 1], h[|h| - 1];
      OtherKeysUnobservable(before, key);
      if last.key == key {
        assert Own(h, key)[..|Own(h, key)| - 1] == Own(before, key);
      } else {
        assert Own(h, key) == Own(before, key);
      }
    }
  }

  // ---------- The verification protocol: allow, verify, record or reset ----------

  /** Verifications of `key` that were allowed and have not yet reported back. */
  function InFlight(h: seq<Event>, key: Key, maxAttempts: int, window: int): int {
    if h == [] then 0
    else
      var before, last := h[..|h| - 1], h[|h| - 1];
      InFlight(before, key, maxAttempts, window) +
      if last.key != key then 0
      else if !last.Asked? then -1
      else if Refused(FailureTimes(before, key), maxAttempts, window, last.at) then 0
      else 1
  }

  /** A run of the handlers in which at most `c` verifications of `key` overlap: only a verification
      in flight reports back, and none is admitted beyond `c`. Allowing and recording are separate
      steps, so other steps may fall between them. */
  ghost predicate Protocol(h: seq<Event>, key: Key, maxAttempts: int, window: int, c: int) {
    && Ordered(h)
    && forall n :: 0 <= n <= |h| ==> 0 <= InFlight(h[..n], key, maxAttempts, window) <= c
  }

  lemma ProtocolPrefix(h: seq<Event>, key: Key, maxAttempts: int, window: int, c: int)
    requires Protocol(h, key, maxAttempts, window, c) && h != []
    ensures Protocol(h[..|h| - 1], key, maxAttempts, window, c)
    ensures 0 <= InFlight(h, key, maxAttempts, window) <= c
  {
    var before := h[..|h| - 1];
    assert h[..|h|] == h;
    forall n | 0 <= n <= |before| ensures 0 <= InFlight(before[..n], key, maxAttempts, window) <= c {
      assert before[..n] == h[..n];
    }
  }

  lemma Extended(h: seq<Event>, e: Event, key: Key, maxAttempts: int, window: int, c: int)
    requires Protocol(h, key, maxAttempts, window, c) && (h != [] ==> h[|h| - 1].at <= e.at)
    requires 0 <= InFlight(h + [e], key, maxAttempts, window) <= c
    ensures Protocol(h + [e], key, maxAttempts, window, c)
  {
    var after := h + [e];
    assert after[..|after|] == after;
    forall n | 0 <= n <= |after| ensures 0 <= InFlight(after[..n], key, maxAttempts, window) <= c {
      assert n <= |h| ==> after[..n] == h[..n];
    }
  }

  lemma InFlightNow(h: seq<Event>, key: Key, maxAttempts: int, window: int, c: int)
    requires Protocol(h, key, maxAttempts, window, c)
    ensures 0 <= InFlight(h, key, maxAttempts, window) <= c
  {
    assert h[..|h|] == h;
  }

  lemma InFlightOneMore(h: seq<Event>, e: Event, key: Key, maxAttempts: int, window: int)
    requires e.key == key
    ensures InFlight(h + [e], key, maxAttempts, window) ==
            InFlight(h, key, maxAttempts, window) +
            if !e.Asked? then -1 else if Refused(FailureTimes(h, key), maxAttempts, window, e.at) then 0 else 1
  {
    assert (h + [e])[..|h|] == h;
  }

  lemma {:induction false} FailureTimesPast(h: seq<Event>, key: Key)
    requires Ordered(h) && h != []
    ensures forall i :: 0 <= i < |FailureTimes(h, key)| ==> FailureTimes(h, key)[i] <= h[|h| - 1].at
  {
    var before, last := h[..|h| - 1], h[|h| - 1];
    if before == [] {
    } else {
      FailureTimesPast(before, key);
      assert before[|before| - 1] == h[|h| - 2] && h[|h| - 2].at <= last.at;
    }
    var was := FailureTimes(before, key);
    assert FailureTimes(h, key) == was || FailureTimes(h, key) == was + [last.at] || FailureTimes(h, key) == [];
  }

  /** What every step keeps: once the running window is full, its failures and the verifications
      still in flight together stay within the bound. */
  lemma {:induction false} FullWindowBudget(h: seq<Event>, key: Key, maxAttempts: int, window: int, c: int)
    requires 0 < maxAttempts && 0 < window && 0 < c
    requires Protocol(h, key, maxAttempts, window, c)
    ensures WindowFailures(FailureTimes(h, key), window) <= maxAttempts + c - 1
    ensures h != [] && Refused(FailureTimes(h, key), maxAttempts, window, h[|h| - 1].at) ==>
              WindowFailures(FailureTimes(h, key), window) + InFlight(h, key, maxAttempts, window)
              <= maxAttempts + c - 1
  {
    if h == [] {
    } else {
      ProtocolPrefix(h, key, maxAttempts, window, c);
      var before, last := h[..|h| - 1], h[|h| - 1];
      FullWindowBudget(before, key, maxAttempts, window, c);
      var ts := FailureTimes(before, key);
      if last.Failed? && last.key == key {
        OneMoreFailure(ts, last.at, window);
        if before != [] { assert before[|before| - 1] == h[|h| - 2]; }
      }
    }
  }

  /** No window records more than maxAttempts + c - 1 failures, at any moment of any run with at
      most c verifications of the key in flight. */
  lemma WindowBound(h: seq<Event>, n: nat, key: Key, maxAttempts: int, window: int, c: int)
    requires 0 < maxAttempts && 0 < window && 0 < c && n <= |h|
    requires Protocol(h, key, maxAttempts, window, c)
    ensures WindowFailures(FailureTimes(h[..n], key), window) <= maxAttempts + c - 1
    decreases |h|
  {
    if n == |h| {
      assert h[..n] == h;
      FullWindowBudget(h, key, maxAttempts, window, c);
    } else {
      ProtocolPrefix(h, key, maxAttempts, window, c);
      assert h[..|h| - 1][..n] == h[..n];
      WindowBound(h[..|h| - 1], n, key, maxAttempts, window, c);
    }
  }

  // The bound is reached: c verifications admitted together just below the limit may all fail.

  function Zeros(n: nat): seq<Time> {
    if n == 0 then [] else Zeros(n - 1) + [0]
  }

  /** At time zero, with `n` failures recorded and `f` verifications in flight. */
  ghost predicate Racing(h: seq<Event>, key: Key, n: nat, f: nat, maxAttempts: int, window: int, c: int) {
    && Protocol(h, key, maxAttempts, window, c)
    && (forall e :: e in h ==> e.at == 0)
    && FailureTimes(h, key) == Zeros(n)
    && InFlight(h, key, maxAttempts, window) == f
  }

  lemma {:induction false} ZeroTimes(n: nat, window: int)
    requires 0 < window
    ensures WindowFailures(Zeros(n), window) == n
    ensures n > 0 ==> Zeros(n) != [] && Zeros(n)[Opening(Zeros(n), window)] == 0
  {
    hide WindowFailures, Opening;
    if n == 0 {
      NoFailures(window);
    } else {
      ZeroTimes(n - 1, window);
      OneMoreFailure(Zeros(n - 1), 0, window);
      assert Running(Zeros(n - 1), window, 0) <==> n > 1;
    }
  }

  lemma NoFailures(window: int)
    ensures WindowFailures([], window) == 0
  {}

  lemma NotRefusedYet(n: nat, maxAttempts: int, window: int)
    requires 0 < window && n < maxAttempts
    ensures !Refused(Zeros(n), maxAttempts, window, 0)
  {
    ZeroTimes(n, window);
  }

  lemma ZerosGrow(h: seq<Event>, e: Event, n: nat)
    requires FailureTimes(h, e.key) == Zeros(n) && e.at == 0 && (e.Asked? || e.Failed?)
    ensures FailureTimes(h + [e], e.key) == Zeros(if e.Failed? then n + 1 else n)
  {
    assert (h + [e])[..|h|] == h;
  }

  lemma RacingStep(h: seq<Event>, e: Event, n: nat, f: nat, maxAttempts: int, window: int, c: int)
    requires 0 < maxAttempts && 0 < window && 0 < c
    requires Racing(h, e.key, n, f, maxAttempts, window, c) && e.at == 0
    requires (e.Asked? && n < maxAttempts && f < c) || (e.Failed? && f > 0)
    ensures Racing(h + [e], e.key, if e.Failed? then n + 1 else n, if e.Failed? then f - 1 else f + 1, maxAttempts,
                   window, c)
  {
    hide Protocol, InFlight, Refused, WindowFailures, Opening, FailureTimes;
    if e.Asked? { NotRefusedYet(n, maxAttempts, window); }
    ZerosGrow(h, e, n);
    assert forall i :: 0 <= i < |h| ==> h[i] in h;
    InFlightNow(h, e.key, maxAttempts, window, c);
    InFlightOneMore(h, e, e.key, maxAttempts, window);
    Extended(h, e, e.key, maxAttempts, window, c);
  }

  lemma RacingStarts(key: Key, maxAttempts: int, window: int, c: int)
    requires 0 < c
    ensures Racing([], key, 0, 0, maxAttempts, window, c)
  {
  }

  lemma RacingEnds(h: seq<Event>, key: Key, n: nat, f: nat, maxAttempts: int, window: int, c: int)
    requires 0 < window && Racing(h, key, n, f, maxAttempts, window, c)
    ensures Protocol(h, key, maxAttempts, window, c) && WindowFailures(FailureTimes(h, key), window) == n
  {
    ZeroTimes(n, window);
  }

  lemma WindowBoundReached(key: Key, maxAttempts: int, window: int, c: int) returns (h: seq<Event>)
    requires 0 < maxAttempts && 0 < window && 0 < c
    ensures Protocol(h, key, maxAttempts, window, c)
    ensures WindowFailures(FailureTimes(h, key), window) == maxAttempts + c - 1
  {
    hide *;
    RacingStarts(key, maxAttempts, window, c);
    h := [];
    for n := 0 to maxAttempts - 1
      invariant Racing(h, key, n, 0, maxAttempts, window, c)
    {
      RacingStep(h, Asked(key, 0), n, 0, maxAttempts, window, c);
      RacingStep(h + [Asked(key, 0)], Failed(key, 0), n, 1, maxAttempts, window, c);
      h := h + [Asked(key, 0)] + [Failed(key, 0)];
    }
    for f := 0 to c
      invariant Racing(h, key, maxAttempts - 1, f, maxAttempts, window, c)
    {
      RacingStep(h, Asked(key, 0), maxAttempts - 1, f, maxAttempts, window, c);
      h := h + [Asked(key, 0)];
    }
    for f := 0 to c
      invariant Racing(h, key, maxAttempts - 1 + f, c - f, maxAttempts, window, c)
    {
      RacingStep(h, Failed(key, 0), maxAttempts - 1 + f, c - f, maxAttempts, window, c);
      h := h + [Failed(key, 0)];
    }
    RacingEnds(h, key, maxAttempts - 1 + c, 0, maxAttempts, window, c);
  }

  // ---------- Without a reset: any interval of one window's length ----------

  function CountWithin(ts: seq<Time>, from: Time, to: Time): nat {
    if ts == [] then 0
    else CountWithin(ts[..|ts| - 1], from, to) + if from <= ts[|ts| - 1] < to then 1 else 0
  }

  function FailuresWithin(h: seq<Event>, key: Key, from: Time, to: Time): nat {
    if h == [] then 0
    else FailuresWithin(h[..|h| - 1], key, from, to)
         + if h[|h| - 1].Failed? && h[|h| - 1].key == key && from <= h[|h| - 1].at < to then 1 else 0
  }

  /** Ascending times, no part of which has more than `bound` failures in its last window. */
  predicate Bounded(ts: seq<Time>, window: int, bound: int) {
    ts == [] ||
    (&& Bounded(ts[..|ts| - 1], window, bound)
     && (|ts| > 1 ==> ts[|ts| - 2] <= ts[|ts| - 1])
     && WindowFailures(ts, window) <= bound)
  }

  /** An interval one window long meets at most two windows, and if it meets two it misses the
      failure that opened the first. */
  lemma {:induction false} TwoWindows(ts: seq<Time>, from: Time, window: int, bound: int)
    requires 0 < window && ts != [] && Bounded(ts, window, bound)
    ensures ts[Opening(ts, window)] <= ts[|ts| - 1] < ts[Opening(ts, window)] + window
    ensures var s, n := ts[Opening(ts, window)], WindowFailures(ts, window);
            var count := CountWithin(ts, from, from + window);
            && 0 < n <= bound
            && (s + window <= from ==> count == 0)
            && (s < from ==> count <= n - 1)
            && (s == from ==> count <= n)
            && (s < from + window ==> count <= n + bound - 1)
            && count <= 2 * bound - 1
  {
    var before, t := ts[..|ts| - 1], ts[|ts| - 1];
    assert before + [t] == ts;
    OneMoreFailure(before, t, window);
    if before == [] {
    } else {
      assert before[|before| - 1] == ts[|ts| - 2];
      TwoWindows(before, from, window, bound);
    }
  }

  /** Without a reset the key's history is all its failures. */
  lemma {:induction false} UnclearedFailures(h: seq<Event>, key: Key, from: Time, to: Time)
    requires forall e :: e in h ==> e != Cleared(key, e.at)
    ensures FailuresWithin(h, key, from, to) == CountWithin(FailureTimes(h, key), from, to)
  {
    if h == [] {
    } else {
      var before, last := h[..|h| - 1], h[|h| - 1];
      UnclearedFailures(before, key, from, to);
      assert last in h;
      assert (FailureTimes(before, key) + [last.at])[..|FailureTimes(before, key)|] == FailureTimes(before, key);
    }
  }

  lemma NothingCounted(from: Time, to: Time)
    ensures CountWithin([], from, to) == 0
  {}

  lemma {:induction false} FailuresBounded(h: seq<Event>, key: Key, maxAttempts: int, window: int, c: int)
    requires 0 < maxAttempts && 0 < window && 0 < c
    requires Protocol(h, key, maxAttempts, window, c)
    ensures Bounded(FailureTimes(h, key), window, maxAttempts + c - 1)
  {
    if h == [] {
    } else {
      var before, last := h[..|h| - 1], h[|h| - 1];
      ProtocolPrefix(h, key, maxAttempts, window, c);
      FailuresBounded(before, key, maxAttempts, window, c);
      FullWindowBudget(h, key, maxAttempts, window, c);
      if before != [] {
        FailureTimesPast(before, key);
        assert before[|before| - 1] == h[|h| - 2] && h[|h| - 2].at <= last.at;
      }
      var was := FailureTimes(before, key);
      assert (was + [last.at])[..|was|] == was;
    }
  }

  /** With no reset of the key, no interval of one window's length holds more than
      2 * (maxAttempts + c - 1) - 1 failures: one fewer than twice the window bound. */
  lemma IntervalBound(h: seq<Event>, key: Key, from: Time, maxAttempts: int, window: int, c: int)
    requires 0 < maxAttempts && 0 < window && 0 < c
    requires Protocol(h, key, maxAttempts, window, c)
    requires forall e :: e in h ==> e != Cleared(key, e.at)
    ensures FailuresWithin(h, key, from, from + window) <= 2 * (maxAttempts + c - 1) - 1
  {
    hide *;
    NothingCounted(from, from + window);
    UnclearedFailures(h, key, from, from + window);
    FailuresBounded(h, key, maxAttempts, window, c);
    if FailureTimes(h, key) != [] {
      TwoWindows(FailureTimes(h, key), from, window, maxAttempts + c - 1);
    }
  }

  /** One verification at a time: the configured limit is the limit. */
  lemma SequentialVerifications(h: seq<Event>, key: Key, from: Time, maxAttempts: int, window: int)
    requires 0 < maxAttempts && 0 < window
    requires Protocol(h, key, maxAttempts, window, 1)
    ensures WindowFailures(FailureTimes(h, key), window) <= maxAttempts
    ensures (forall e :: e in h ==> e != Cleared(key, e.at)) ==>
              FailuresWithin(h, key, from, from + window) <= 2 * maxAttempts - 1
  {
    FullWindowBudget(h, key, maxAttempts, window, 1);
    if forall e :: e in h ==> e != Cleared(key, e.at) {
      IntervalBound(h, key, from, maxAttempts, window, 1);
    }
  }

  // ---------- What clearing does ----------

  /** After a key is cleared its later answers are those of a limiter that has seen nothing before. */
  lemma {:induction false} ClearedStartsOver(h: seq<Event>, key: Key, t: Time, more: seq<Event>)
    ensures FailureTimes(h + [Cleared(key, t)] + more, key) == FailureTimes(more, key)
  {
    var all := h + [Cleared(key, t)] + more;
    if more == [] {
      assert all[|all| - 1] == Cleared(key, t);
    } else {
      ClearedStartsOver(h, key, t, more[..|more| - 1]);
      assert all[..|all| - 1] == h + [Cleared(key, t)] + more[..|more| - 1];
    }
  }

  lemma AnswersAfterClearing(h: seq<Event>, key: Key, t: Time, more: seq<Event>, maxAttempts: int, window: int,
                             now: Time,
                             answer: bool)
    ensures AsHistorySays(h + [Cleared(key, t)] + more + [Asked(key, now)], |h| + 1 + |more|, maxAttempts, window,
                          answer)
       <==> AsHistorySays(more + [Asked(key, now)], |more|, maxAttempts, window, answer)
  {
    var before, fresh' := h + [Cleared(key, t)] + more, more + [Asked(key, now)];
    assert (before + [Asked(key, now)])[..|before|] == before && fresh'[..|more|] == more;
    ClearedStartsOver(h, key, t, more);
  }

  predicate Ascending(ts: seq<Time>) {
    forall i, j :: 0 <= i < j < |ts| ==> ts[i] <= ts[j]
  }

  lemma {:induction false} FailureTimesAscend(h: seq<Event>, key: Key)
    requires Ordered(h)
    ensures Ascending(FailureTimes(h, key))
  {
    if h == [] {
    } else {
      var before := h[..|h| - 1];
      FailureTimesAscend(before, key);
      if before != [] {
        FailureTimesPast(before, key);
        assert before[|before| - 1] == h[|h| - 2] && h[|h| - 2].at <= h[|h| - 1].at;
      }
    }
  }

  lemma {:induction false} WindowIsWithin(ts: seq<Time>, window: int, from: Time, to: Time)
    requires ts != [] && Ascending(ts) && from <= ts[Opening(ts, window)] && ts[|ts| - 1] < to
    ensures CountWithin(ts, from, to) >= WindowFailures(ts, window)
  {
    var before, last := ts[..|ts| - 1], |ts| - 1;
    assert ts[Opening(ts, window)] <= ts[last];
    if Opening(ts, window) < last {
      assert before[|before| - 1] == ts[last - 1] <= ts[last];
      WindowIsWithin(before, window, from, to);
    }
  }

  lemma {:induction false} FailuresCounted(h: seq<Event>, key: Key, from: Time, to: Time)
    ensures CountWithin(FailureTimes(h, key), from, to) <= FailuresWithin(h, key, from, to)
  {
    if h == [] {
    } else {
      var before, last := h[..|h| - 1], h[|h| - 1];
      FailuresCounted(before, key, from, to);
      var was := FailureTimes(before, key);
      assert (was + [last.at])[..|was|] == was;
    }
  }

  /** A refusal at `now` has maxAttempts failures behind it, all of the last window's length and none
      from before the key was last cleared. */
  lemma RefusedForCause(h: seq<Event>, key: Key, maxAttempts: int, window: int, now: Time)
    requires 0 < maxAttempts && Ordered(h) && (h != [] ==> h[|h| - 1].at <= now)
    requires Refused(FailureTimes(h, key), maxAttempts, window, now)
    ensures FailuresWithin(h, key, now - window + 1, now + 1) >= maxAttempts
  {
    var ts := FailureTimes(h, key);
    FailureTimesAscend(h, key);
    assert h != [];
    FailureTimesPast(h, key);
    WindowIsWithin(ts, window, now - window + 1, now + 1);
    FailuresCounted(h, key, now - window + 1, now + 1);
  }

  /** Nobody is refused early: with fewer than maxAttempts failures of the key in the last window's length,
      counted from any reset of the key on, it is allowed. */
  lemma NotRefusedEarly(h: seq<Event>, i: nat, j: nat, maxAttempts: int, window: int, answer: bool)
    requires 0 < maxAttempts && Ordered(h) && j <= i < |h| && h[i].Asked?
    requires j > 0 ==> h[j - 1].Cleared? && h[j - 1].key == h[i].key
    requires FailuresWithin(h[j..i], h[i].key, h[i].at - window + 1, h[i].at + 1) < maxAttempts
    requires AsHistorySays(h, i, maxAttempts, window, answer)
    ensures answer
  {
    hide FailureTimes, FailuresWithin, Refused;
    SinceCleared(h, i, j);
    SomeIsOrdered(h, j, i);
    if Refused(FailureTimes(h[j..i], h[i].key), maxAttempts, window, h[i].at) {
      RefusedForCause(h[j..i], h[i].key, maxAttempts, window, h[i].at);
    }
  }

  lemma SinceCleared(h: seq<Event>, i: nat, j: nat)
    requires j <= i < |h| && (j > 0 ==> h[j - 1].Cleared? && h[j - 1].key == h[i].key)
    ensures FailureTimes(h[..i], h[i].key) == FailureTimes(h[j..i], h[i].key)
  {
    hide FailureTimes;
    if j > 0 {
      ClearedStartsOver(h[..j - 1], h[i].key, h[j - 1].at, h[j..i]);
      assert h[..j - 1] + [h[j - 1]] + h[j..i] == h[..i];
    } else {
      assert h[j..i] == h[..i];
    }
  }

  lemma SomeIsOrdered(h: seq<Event>, j: nat, i: nat)
    requires Ordered(h) && j <= i < |h|
    ensures Ordered(h[j..i]) && (j < i ==> h[j..i][|h[j..i]| - 1].at <= h[i].at)
  {}
}
