/**
 The token-bucket limiter for real-time connections (internal/realtime/rate_limiter.go): integer
 refill arithmetic on each call, and a background sweep that evicts idle buckets.
 */
module TokenBuckets {

  type Id = string

  /** Nanoseconds. */
  type Time = int

  const IDLE_LIMIT: int := 600_000_000_000

  datatype Bucket = Bucket(tokens: int, maxTokens: int, lastRefill: Time)

  type Buckets = map<Id, Bucket>

  function Min(a: int, b: int): int { if a < b then a else b }

  function Pos(a: int): int { if a < 0 then 0 else a }

  /** Integer division truncated toward zero, as the source language defines it: how many whole
      `b`s there are in `a`. */
  function Quotient(a: int, b: int): int
    requires b != 0
    decreases if a < 0 then 1 else 0, if b < 0 then 1 else 0, a
  {
    if a < 0 then -Quotient(-a, b)
    else if b < 0 then -Quotient(a, -b)
    else if a < b then 0
    else 1 + Quotient(a - b, b)
  }

  lemma {:induction false} QuotientIsDivision(a: nat, b: int)
    requires 0 < b
    ensures Quotient(a, b) == a / b
  {
    if a < b {
      assert a / b == 0;
    } else {
      QuotientIsDivision(a - b, b);
      DivisionBounds(a - b, b);
      DivisionBounds(a, b);
      OneTimeLess(a, b, (a - b) / b, a / b);
    }
  }

  lemma DivisionBounds(a: nat, b: int)
    requires 0 < b
    ensures b * (a / b) <= a < b * (a / b) + b
  {}

  lemma OneTimeLess(a: nat, b: int, q: int, x: int)
    requires 0 < b && b * q <= a - b < b * q + b && b * x <= a < b * x + b
    ensures x == q + 1
  {
    assert b * (q + 1) == b * q + b;
    if x < q + 1 { Scaled(b, x, q + 1); }
    if q + 1 < x { Scaled(b, q + 1, x); }
  }

  lemma Scaled(r: int, x: int, y: int)
    requires 0 < r && x < y
    ensures r * x + r <= r * y
  {
    var d := y - x - 1;
    assert y == x + 1 + d;
    assert r * (x + 1 + d) == r * x + r + r * d;
    assert 0 <= r * d;
  }

  lemma {:induction false} QuotientSum(a: nat, b: nat, r: int)
    requires 0 < r
    ensures 0 <= Quotient(a, r) && 0 <= Quotient(b, r)
    ensures Quotient(a, r) + Quotient(b, r) <= Quotient(a + b, r)
    decreases a + b
  {
    if r <= a {
      QuotientSum(a - r, b, r);
    } else if r <= b {
      QuotientSum(a, b - r, r);
    } else if r <= a + b {
      QuotientSum(a + b - r, 0, r);
    }
  }

  lemma QuotientSign(a: nat, r: int)
    requires 0 < r
    ensures 0 <= Quotient(a, r)
    ensures Quotient(a, r) > 0 <==> r <= a
  {
    if r <= a { QuotientSum(a - r, 0, r); }
  }

  /** For any signs: what is left over is less than one `b`, and has the sign of `a`. */
  lemma {:induction false} Truncated(a: int, b: int)
    requires b != 0
    ensures var rest := a - b * Quotient(a, b);
            -b < rest < b || b < rest < -b
    ensures var rest := a - b * Quotient(a, b);
            if a < 0 then rest <= 0 else rest >= 0
    decreases if a < 0 then 1 else 0, if b < 0 then 1 else 0, a
  {
    if a < 0 {
      Truncated(-a, b);
      assert b * -Quotient(-a, b) == -(b * Quotient(-a, b));
    } else if b < 0 {
      Truncated(a, -b);
      assert b * -Quotient(a, -b) == -b * Quotient(a, -b);
    } else if a < b {
    } else {
      Truncated(a - b, b);
      assert b * (1 + Quotient(a - b, b)) == b + b * Quotient(a - b, b);
    }
  }

  // ---------- One call and one sweep, as functions of the map ----------

  function Refilled(b: Bucket, refillRate: int, now: Time): Bucket
    requires refillRate != 0
  {
    var added := Quotient(now - b.lastRefill, refillRate);
    if added > 0 then b.(tokens := Min(b.maxTokens, b.tokens + added), lastRefill := now) else b
  }

  /** The bucket a call finds: the stored one, or a full one created on the spot. */
  function Found(m: Buckets, id: Id, maxTokens: int, now: Time): Bucket {
    if id in m then m[id] else Bucket(maxTokens, maxTokens, now)
  }

  function Ready(m: Buckets, id: Id, maxTokens: int, refillRate: int, now: Time): Bucket
    requires refillRate != 0
  {
    Refilled(Found(m, id, maxTokens, now), refillRate, now)
  }

  predicate Grants(m: Buckets, id: Id, maxTokens: int, refillRate: int, now: Time)
    requires refillRate != 0
  {
    Ready(m, id, maxTokens, refillRate, now).tokens > 0
  }

  function AfterCall(m: Buckets, id: Id, maxTokens: int, refillRate: int, now: Time): Buckets
    requires refillRate != 0
  {
    var b := Ready(m, id, maxTokens, refillRate, now);
    m[id := if b.tokens > 0 then b.(tokens := b.tokens - 1) else b]
  }

  predicate Idle(b: Bucket, now: Time) {
    now - b.lastRefill > IDLE_LIMIT
  }

  function AfterSweep(m: Buckets, now: Time): Buckets {
    map id | id in m && !Idle(m[id], now) :: m[id]
  }

  // ---------- The limiter ----------

  class RateLimiter {
    var connections: Buckets

    constructor ()
      ensures connections == map[]
    {
      connections := map[];
    }

    /** `now` stands for both clock readings of the call. A zero rate would be a division by zero. */
    method Allow(connectionID: Id, maxTokens: int, refillRate: int, now: Time) returns (granted: bool)
      requires refillRate != 0
      modifies this
      ensures granted == Grants(old(connections), connectionID, maxTokens, refillRate, now)
      ensures connections == AfterCall(old(connections), connectionID, maxTokens, refillRate, now)
    {
      if connectionID !in connections {
        connections := connections[connectionID := Bucket(maxTokens, maxTokens, now)];
      }
      var conn := connections[connectionID];
      var tokensToAdd := Quotient(now - conn.lastRefill, refillRate);
      if tokensToAdd > 0 {
        conn := conn.(tokens := Min(conn.maxTokens, conn.tokens + tokensToAdd), lastRefill := now);
      }
      granted := conn.tokens > 0;
      if granted {
        conn := conn.(tokens := conn.tokens - 1);
      }
      connections := connections[connectionID := conn];
    }

    method Remove(connectionID: Id)
      modifies this
      ensures connections == old(connections) - {connectionID}
    {
      connections := connections - {connectionID};
    }

    method Cleanup(now: Time)
      modifies this
      ensures connections == AfterSweep(old(connections), now)
    {
      var cutoff := now - IDLE_LIMIT;
      var left := connections.Keys;
      while left != {}
        invariant left <= connections.Keys <= old(connections).Keys
        invariant forall id :: id in connections ==> connections[id] == old(connections)[id]
        invariant forall id :: id in old(connections) && !Idle(old(connections)[id], now) ==> id in connections
        invariant forall id :: id in connections && id !in left ==> !Idle(connections[id], now)
        decreases left
      {
        var id :| id in left;
        left := left - {id};
        if connections[id].lastRefill < cutoff {
          connections := connections - {id};
        }
      }
    }
  }

  // ---------- Runs: fixed arguments, any number of connections ----------

  datatype Op = Call(id: Id, at: Time) | Sweep(at: Time)

  predicate Ordered(ops: seq<Op>) {
    |ops| <= 1 || (Ordered(ops[..|ops| - 1]) && ops[|ops| - 2].at <= ops[|ops| - 1].at)
  }

  /** The buckets after `ops`; with `evicting` false the sweeps are skipped. */
  function StateAfter(ops: seq<Op>, maxTokens: int, refillRate: int, evicting: bool): Buckets
    requires refillRate != 0
  {
    if ops == [] then map[]
    else
      var m := StateAfter(ops[..|ops| - 1], maxTokens, refillRate, evicting);
      match ops[|ops| - 1]
      case Call(id, at) => AfterCall(m, id, maxTokens, refillRate, at)
      case Sweep(at) => if evicting then AfterSweep(m, at) else m
  }

  /** The answer a call for `id` at `at` gets after `ops`. */
  predicate Answer(ops: seq<Op>, id: Id, at: Time, maxTokens: int, refillRate: int, evicting: bool)
    requires refillRate != 0
  {
    Grants(StateAfter(ops, maxTokens, refillRate, evicting), id, maxTokens, refillRate, at)
  }

  /** Calls for `id` granted at times from `s` to `t`, both included. */
  function GrantsWithin(ops: seq<Op>, id: Id, s: Time, t: Time, maxTokens: int, refillRate: int, evicting: bool): nat
    requires refillRate != 0
  {
    if ops == [] then 0
    else
      var before, last := ops[..|ops| - 1], ops[|ops| - 1];
      GrantsWithin(before, id, s, t, maxTokens, refillRate, evicting) +
      if last.Call? && last.id == id && s <= last.at <= t
          && Answer(before, id, last.at, maxTokens, refillRate, evicting)
      then 1 else 0
  }

  /** Sweeps from `s` to `t`, both included, that take the connection's bucket away. */
  function Evictions(ops: seq<Op>, id: Id, s: Time, t: Time, maxTokens: int, refillRate: int, evicting: bool): (n: nat)
    requires refillRate != 0
    ensures !evicting ==> n == 0
  {
    if ops == [] then 0
    else
      var before, last := ops[..|ops| - 1], ops[|ops| - 1];
      var m := StateAfter(before, maxTokens, refillRate, evicting);
      Evictions(before, id, s, t, maxTokens, refillRate, evicting)
      + if EvictedIn(m, last, id, s, t, evicting) then 1 else 0
  }

  predicate EvictedIn(m: Buckets, op: Op, id: Id, s: Time, t: Time, evicting: bool) {
    evicting && op.Sweep? && s <= op.at <= t && id in m && Idle(m[id], op.at)
  }

  // ---------- Allowances ----------

  /** `f(n, x)` is never less than a limiter can grant to one connection in `x` nanoseconds with `n`
      evictions: a full bucket at once, a token per refill interval, a full bucket for an eviction, which
      takes longer than the idle limit; and both for an eviction so early that the bucket lost may have
      been filled up to one interval before. */
  ghost predicate Allows(f: (nat, Time) -> int, maxTokens: int, refillRate: int)
    requires 0 < refillRate
  {
    && (forall n: nat, x: Time :: 0 <= x ==> Pos(maxTokens) <= f(n, x))
    && (forall n: nat, x: Time, y: Time :: 0 <= x <= y ==> f(n, x) + Quotient(y - x, refillRate) <= f(n, y))
    && (forall n: nat, k: nat, x: Time, y: Time :: n < k && 0 <= x && x + IDLE_LIMIT < y ==>
        f(n, x) + Pos(maxTokens) <= f(k, y))
    && (forall k: nat, y: Time :: 0 < k && 0 <= y && IDLE_LIMIT + 1 < y + refillRate ==>
        2 * Pos(maxTokens) - 1 <= f(k, y))
  }

  lemma Longer(f: (nat, Time) -> int, n: nat, x: Time, y: Time, maxTokens: int, refillRate: int)
    requires 0 < refillRate && Allows(f, maxTokens, refillRate) && 0 <= x <= y
    ensures Pos(maxTokens) <= f(n, x) <= f(n, y)
    ensures f(n, x) + Quotient(y - x, refillRate) <= f(n, y)
  {
    QuotientSign(y - x, refillRate);
  }

  /** A connection with this bucket and `g` grants since `s` is within its allowance. A bucket last refilled
      before `s` gave a token away then. */
  ghost predicate InBudget(b: Bucket, g: int, n: nat, s: Time, f: (nat, Time) -> int, maxTokens: int, refillRate: int) {
    && b.maxTokens == maxTokens && b.tokens <= maxTokens
    && if b.lastRefill < s
       then Pos(b.tokens) + g <= Pos(Pos(maxTokens) - 1) && (g > 0 ==> s - b.lastRefill < refillRate)
       else Pos(b.tokens) + g <= f(n, b.lastRefill - s)
  }

  /** So is one without a bucket: what has been granted, and what a new bucket holds. */
  ghost predicate WithinBudget(m: Buckets, id: Id, g: int, n: nat, s: Time, clock: Time, f: (nat, Time) -> int,
                               maxTokens: int, refillRate: int)
  {
    if id in m then m[id].lastRefill <= clock && InBudget(m[id], g, n, s, f, maxTokens, refillRate)
    else if clock < s then g == 0
    else g + Pos(maxTokens) <= f(n, clock - s)
  }

  /** A bucket with its refill for a call at `now`, before the call takes a token. */
  ghost predicate Prepared(b: Bucket, g: int, n: nat, s: Time, now: Time, f: (nat, Time) -> int, maxTokens: int,
                           refillRate: int) {
    && b.maxTokens == maxTokens && b.tokens <= maxTokens && b.lastRefill <= now
    && if now < s then g == 0
       else if b.lastRefill < s then Pos(b.tokens) + g <= Pos(Pos(maxTokens) - 1) && now - b.lastRefill < refillRate
       else Pos(b.tokens) + g <= f(n, b.lastRefill - s)
  }

  lemma RefillInBudget(b: Bucket, g: nat, n: nat, s: Time, now: Time, f: (nat, Time) -> int, maxTokens: int,
                       refillRate: int)
    requires 0 < refillRate && Allows(f, maxTokens, refillRate) && b.lastRefill <= now && (g > 0 ==> s <= now)
    requires InBudget(b, g, n, s, f, maxTokens, refillRate)
    ensures Prepared(Refilled(b, refillRate, now), g, n, s, now, f, maxTokens, refillRate)
  {
    hide Allows, Quotient;
    QuotientSign(now - b.lastRefill, refillRate);
    if now >= s {
      if b.lastRefill >= s {
        Longer(f, n, b.lastRefill - s, now - s, maxTokens, refillRate);
      } else {
        Longer(f, n, 0, now - s, maxTokens, refillRate);
        if g > 0 { OneIntervalMore(s - b.lastRefill, now - s, refillRate); }
      }
    }
  }

  lemma OneIntervalMore(a: nat, b: nat, r: int)
    requires 0 < r && a < r
    ensures Quotient(a + b, r) <= 1 + Quotient(b, r)
  {
    QuotientSum(a + b, r - a, r);
    assert Quotient(b + r, r) == 1 + Quotient(b, r);
  }

  lemma TakeInBudget(b: Bucket, g: nat, n: nat, s: Time, now: Time, f: (nat, Time) -> int, maxTokens: int,
                     refillRate: int)
    requires Prepared(b, g, n, s, now, f, maxTokens, refillRate)
    ensures var taken := if b.tokens > 0 then b.(tokens := b.tokens - 1) else b;
            InBudget(taken, g + if s <= now && b.tokens > 0 then 1 else 0, n, s, f, maxTokens, refillRate)
  {}

  /** A call keeps the budget. */
  lemma CallInBudget(m: Buckets, id: Id, g: nat, n: nat, s: Time, clock: Time, now: Time, f: (nat, Time) -> int,
                     maxTokens: int, refillRate: int)
    requires 0 < refillRate && Allows(f, maxTokens, refillRate) && clock <= now && (g > 0 ==> s <= clock)
    requires WithinBudget(m, id, g, n, s, clock, f, maxTokens, refillRate)
    ensures WithinBudget(AfterCall(m, id, maxTokens, refillRate, now), id,
                         g + if s <= now && Grants(m, id, maxTokens, refillRate, now) then 1 else 0,
                         n, s, now, f, maxTokens, refillRate)
  {
    hide Allows, Quotient, Prepared;
    var ready := Ready(m, id, maxTokens, refillRate, now);
    if id in m {
      RefillInBudget(m[id], g, n, s, now, f, maxTokens, refillRate);
    } else {
      NewInBudget(g, n, s, clock, now, f, maxTokens, refillRate);
    }
    TakeInBudget(ready, g, n, s, now, f, maxTokens, refillRate);
    assert ready.lastRefill <= now by { QuotientSign(0, refillRate); }
  }

  lemma NewInBudget(g: nat, n: nat, s: Time, clock: Time, now: Time, f: (nat, Time) -> int, maxTokens: int,
                    refillRate: int)
    requires 0 < refillRate && Allows(f, maxTokens, refillRate) && clock <= now && (g > 0 ==> s <= clock)
    requires if clock < s then g == 0 else g + Pos(maxTokens) <= f(n, clock - s)
    ensures Prepared(Refilled(Bucket(maxTokens, maxTokens, now), refillRate, now), g, n, s, now, f, maxTokens,
                     refillRate)
  {
    hide Allows, Quotient;
    QuotientSign(0, refillRate);
    if now >= s { Longer(f, n, if clock < s then 0 else clock - s, now - s, maxTokens, refillRate); }
  }

  /** An eviction keeps it, at the allowance for one more if it falls at `s` or later. */
  lemma SweptInBudget(m: Buckets, id: Id, g: nat, n: nat, s: Time, clock: Time, now: Time, f: (nat, Time) -> int,
                      maxTokens: int, refillRate: int)
    requires 0 < refillRate && Allows(f, maxTokens, refillRate) && clock <= now && (g > 0 ==> s <= clock)
    requires id in m && Idle(m[id], now) && WithinBudget(m, id, g, n, s, clock, f, maxTokens, refillRate)
    ensures WithinBudget(AfterSweep(m, now), id, g, n + if s <= now then 1 else 0, s, now, f, maxTokens, refillRate)
  {
    var b := m[id];
    if now >= s && b.lastRefill >= s {
      assert f(n, b.lastRefill - s) + Pos(maxTokens) <= f(n + 1, now - s);
    }
  }

  /** What does not touch the bucket keeps the budget. */
  lemma OtherInBudget(m: Buckets, after: Buckets, id: Id, g: nat, n: nat, s: Time, clock: Time, now: Time,
                      f: (nat, Time) -> int, maxTokens: int, refillRate: int)
    requires 0 < refillRate && Allows(f, maxTokens, refillRate) && clock <= now && (g > 0 ==> s <= clock)
    requires WithinBudget(m, id, g, n, s, clock, f, maxTokens, refillRate)
    requires (id in m <==> id in after) && (id in m ==> after[id] == m[id])
    ensures WithinBudget(after, id, g, n, s, now, f, maxTokens, refillRate)
  {
    hide Allows;
    if id !in m && now >= s { Longer(f, n, if clock < s then 0 else clock - s, now - s, maxTokens, refillRate); }
  }

  function AfterOp(m: Buckets, op: Op, maxTokens: int, refillRate: int, evicting: bool): Buckets
    requires refillRate != 0
  {
    match op
    case Call(id, at) => AfterCall(m, id, maxTokens, refillRate, at)
    case Sweep(at) => if evicting then AfterSweep(m, at) else m
  }

  predicate GrantedIn(m: Buckets, op: Op, id: Id, s: Time, maxTokens: int, refillRate: int)
    requires refillRate != 0
  {
    op.Call? && op.id == id && s <= op.at && Grants(m, id, maxTokens, refillRate, op.at)
  }

  /** One more operation keeps the budget. */
  lemma BudgetStep(m: Buckets, op: Op, id: Id, g: nat, n: nat, s: Time, t: Time, clock: Time, f: (nat, Time) -> int,
                   maxTokens: int, refillRate: int, evicting: bool)
    requires 0 < refillRate && Allows(f, maxTokens, refillRate) && clock <= op.at <= t && (g > 0 ==> s <= clock)
    requires WithinBudget(m, id, g, n, s, clock, f, maxTokens, refillRate)
    ensures WithinBudget(AfterOp(m, op, maxTokens, refillRate, evicting), id,
                         g + if GrantedIn(m, op, id, s, maxTokens, refillRate) then 1 else 0,
                         n + if EvictedIn(m, op, id, s, t, evicting) then 1 else 0,
                         s, op.at, f, maxTokens, refillRate)
  {
    hide WithinBudget, InBudget, Quotient, Ready, Found, Refilled, Grants, Allows;
    var after := AfterOp(m, op, maxTokens, refillRate, evicting);
    if op.Call? && op.id == id {
      CallInBudget(m, id, g, n, s, clock, op.at, f, maxTokens, refillRate);
    } else if op.Sweep? && evicting && id in m && Idle(m[id], op.at) {
      SweptInBudget(m, id, g, n, s, clock, op.at, f, maxTokens, refillRate);
    } else {
      OtherInBudget(m, after, id, g, n, s, clock, op.at, f, maxTokens, refillRate);
    }
  }

  lemma LastOp(ops: seq<Op>, id: Id, s: Time, t: Time, maxTokens: int, refillRate: int, evicting: bool)
    requires 0 < refillRate && Ordered(ops) && ops != [] && ops[|ops| - 1].at <= t
    ensures var before, last := ops[..|ops| - 1], ops[|ops| - 1];
            var m := StateAfter(before, maxTokens, refillRate, evicting);
            && StateAfter(ops, maxTokens, refillRate, evicting) == AfterOp(m, last, maxTokens, refillRate, evicting)
            && GrantsWithin(ops, id, s, t, maxTokens, refillRate, evicting)
               == GrantsWithin(before, id, s, t, maxTokens, refillRate, evicting)
                  + (if GrantedIn(m, last, id, s, maxTokens, refillRate) then 1 else 0)
            && Evictions(ops, id, s, t, maxTokens, refillRate, evicting)
               == Evictions(before, id, s, t, maxTokens, refillRate, evicting)
                  + (if EvictedIn(m, last, id, s, t, evicting) then 1 else 0)
            && Ordered(before) && (before != [] ==> before[|before| - 1].at <= last.at)
  {
    hide Grants, Idle, AfterCall, AfterSweep;
    var before, last := ops[..|ops| - 1], ops[|ops| - 1];
    if last.Call? && last.id == id { AnswerIsGrant(before, id, last.at, maxTokens, refillRate, evicting); }
  }

  lemma AnswerIsGrant(ops: seq<Op>, id: Id, at: Time, maxTokens: int, refillRate: int, evicting: bool)
    requires 0 < refillRate
    ensures Answer(ops, id, at, maxTokens, refillRate, evicting)
         == Grants(StateAfter(ops, maxTokens, refillRate, evicting), id, maxTokens, refillRate, at)
  {}

  lemma NothingRun(id: Id, s: Time, t: Time, clock: Time, f: (nat, Time) -> int, maxTokens: int, refillRate: int,
                   evicting: bool)
    requires 0 < refillRate && Allows(f, maxTokens, refillRate)
    ensures StateAfter([], maxTokens, refillRate, evicting) == map[]
    ensures GrantsWithin([], id, s, t, maxTokens, refillRate, evicting) == 0
    ensures Evictions([], id, s, t, maxTokens, refillRate, evicting) == 0
    ensures WithinBudget(map[], id, 0, 0, s, clock, f, maxTokens, refillRate)
  {}

  /** Over every pattern of calls and sweeps, on any number of connections, each connection stays within
      any allowance. */
  lemma {:induction false} Budget(ops: seq<Op>, id: Id, s: Time, t: Time, f: (nat, Time) -> int,
                                  maxTokens: int, refillRate: int, evicting: bool)
    requires 0 < refillRate && Allows(f, maxTokens, refillRate)
    requires Ordered(ops) && ops != [] && ops[|ops| - 1].at <= t
    ensures var m := StateAfter(ops, maxTokens, refillRate, evicting);
            var g := GrantsWithin(ops, id, s, t, maxTokens, refillRate, evicting);
            && (g > 0 ==> s <= ops[|ops| - 1].at)
            && WithinBudget(m, id, g, Evictions(ops, id, s, t, maxTokens, refillRate, evicting),
                            s, ops[|ops| - 1].at, f, maxTokens, refillRate)
  {
    hide *;
    LastOp(ops, id, s, t, maxTokens, refillRate, evicting);
    var before, last := ops[..|ops| - 1], ops[|ops| - 1];
    var m := StateAfter(before, maxTokens, refillRate, evicting);
    var g := GrantsWithin(before, id, s, t, maxTokens, refillRate, evicting);
    var n := Evictions(before, id, s, t, maxTokens, refillRate, evicting);
    var clock := if before == [] then last.at else before[|before| - 1].at;
    if before == [] {
      NothingRun(id, s, t, clock, f, maxTokens, refillRate, evicting);
    } else {
      Budget(before, id, s, t, f, maxTokens, refillRate, evicting);
    }
    BudgetStep(m, last, id, g, n, s, t, clock, f, maxTokens, refillRate, evicting);
    GrantedAt(m, last, id, s, maxTokens, refillRate);
  }

  lemma GrantedAt(m: Buckets, op: Op, id: Id, s: Time, maxTokens: int, refillRate: int)
    requires 0 < refillRate
    ensures GrantedIn(m, op, id, s, maxTokens, refillRate) ==> s <= op.at
  {}

  lemma {:induction false} GrantsAllowed(ops: seq<Op>, id: Id, s: Time, t: Time, f: (nat, Time) -> int,
                                         maxTokens: int, refillRate: int, evicting: bool)
    requires 0 < refillRate && Allows(f, maxTokens, refillRate) && s <= t && Ordered(ops)
    ensures GrantsWithin(ops, id, s, t, maxTokens, refillRate, evicting)
         <= f(Evictions(ops, id, s, t, maxTokens, refillRate, evicting), t - s)
  {
    if ops == [] {
    } else {
      var before, last := ops[..|ops| - 1], ops[|ops| - 1];
      if last.at > t {
        GrantsAllowed(before, id, s, t, f, maxTokens, refillRate, evicting);
      } else {
        hide *;
        Budget(ops, id, s, t, f, maxTokens, refillRate, evicting);
        BudgetBounds(StateAfter(ops, maxTokens, refillRate, evicting), id,
                     GrantsWithin(ops, id, s, t, maxTokens, refillRate, evicting),
                     Evictions(ops, id, s, t, maxTokens, refillRate, evicting), s, last.at, t, f,
                     maxTokens, refillRate);
      }
    }
  }

  lemma BudgetBounds(m: Buckets, id: Id, g: nat, n: nat, s: Time, clock: Time, t: Time, f: (nat, Time) -> int,
                     maxTokens: int, refillRate: int)
    requires 0 < refillRate && Allows(f, maxTokens, refillRate) && clock <= t && s <= t
    requires WithinBudget(m, id, g, n, s, clock, f, maxTokens, refillRate)
    ensures g <= f(n, t - s)
  {
    hide Allows;
    var x := if id in m then m[id].lastRefill - s else clock - s;
    Longer(f, n, if x < 0 then 0 else x, t - s, maxTokens, refillRate);
  }

  // ---------- Counting the evictions ----------

  function PerEviction(maxTokens: int, refillRate: int): (nat, Time) -> int
    requires refillRate != 0
  {
    (n: nat, x: Time) => (1 + n) * Pos(maxTokens) + Quotient(x, refillRate)
  }

  lemma MoreBuckets(n: nat, k: nat, p: nat)
    requires n < k
    ensures p <= (1 + n) * p && (1 + n) * p + p <= (1 + k) * p
  {
    var d := k - n - 1;
    OneMoreBucket(n, p);
    OneMoreBucket(d, p);
    assert (1 + k) * p == (1 + n) * p + (1 + d) * p by { assert 1 + k == (1 + n) + (1 + d); }
  }

  lemma OneMoreBucket(n: nat, p: nat)
    ensures (1 + n) * p == n * p + p && 0 <= n * p
  {}

  lemma PerEvictionAt(n: nat, x: Time, maxTokens: int, refillRate: int)
    requires 0 < refillRate
    ensures PerEviction(maxTokens, refillRate)(n, x) == (1 + n) * Pos(maxTokens) + Quotient(x, refillRate)
  {}

  lemma PerEvictionGrows(n: nat, k: nat, x: Time, y: Time, maxTokens: int, refillRate: int)
    requires 0 < refillRate && n <= k && 0 <= x <= y
    ensures var f := PerEviction(maxTokens, refillRate);
            && Pos(maxTokens) <= f(n, x)
            && f(n, x) + Quotient(y - x, refillRate) <= f(n, y)
            && (n < k ==> f(n, x) + Pos(maxTokens) <= f(k, y))
  {
    hide Quotient, PerEviction, Pos;
    PosIsNat(maxTokens);
    PerEvictionAt(n, x, maxTokens, refillRate);
    PerEvictionAt(n, y, maxTokens, refillRate);
    PerEvictionAt(k, y, maxTokens, refillRate);
    QuotientSum(x, y - x, refillRate);
    MoreBuckets(n, if n < k then k else n + 1, Pos(maxTokens));
  }

  lemma PosIsNat(a: int)
    ensures Pos(a) >= 0
  {}

  lemma PerEvictionAllows(maxTokens: int, refillRate: int)
    requires 0 < refillRate
    ensures Allows(PerEviction(maxTokens, refillRate), maxTokens, refillRate)
  {
    hide Quotient, PerEviction, Pos;
    var f := PerEviction(maxTokens, refillRate);
    PosIsNat(maxTokens);
    forall n: nat, x: Time | 0 <= x ensures Pos(maxTokens) <= f(n, x) {
      PerEvictionGrows(n, n, x, x, maxTokens, refillRate);
    }
    forall n: nat, x: Time, y: Time | 0 <= x <= y ensures f(n, x) + Quotient(y - x, refillRate) <= f(n, y) {
      PerEvictionGrows(n, n, x, y, maxTokens, refillRate);
    }
    forall n: nat, k: nat, x: Time, y: Time | n < k && 0 <= x && x + IDLE_LIMIT < y
      ensures f(n, x) + Pos(maxTokens) <= f(k, y)
    {
      PerEvictionGrows(n, k, x, y, maxTokens, refillRate);
    }
    forall k: nat, y: Time | 0 < k && 0 <= y ensures 2 * Pos(maxTokens) - 1 <= f(k, y) {
      PerEvictionGrows(0, k, 0, y, maxTokens, refillRate);
    }
  }

  /** Over every pattern of calls and sweeps, on any number of connections: the grants to one connection in
      [s, t] are at most its capacity, once and once more for each eviction in [s, t], plus one per full
      refill interval in between, whatever was granted before. */
  lemma GrantBound(ops: seq<Op>, id: Id, s: Time, t: Time, maxTokens: int, refillRate: int, evicting: bool)
    requires 0 < refillRate && s <= t && Ordered(ops)
    ensures GrantsWithin(ops, id, s, t, maxTokens, refillRate, evicting)
            <= (1 + Evictions(ops, id, s, t, maxTokens, refillRate, evicting)) * Pos(maxTokens)
               + Quotient(t - s, refillRate)
  {
    PerEvictionAllows(maxTokens, refillRate);
    GrantsAllowed(ops, id, s, t, PerEviction(maxTokens, refillRate), maxTokens, refillRate, evicting);
  }

  /** Evictions are more than the idle limit apart. */
  lemma {:induction false} EvictionsApart(ops: seq<Op>, id: Id, s: Time, t: Time, maxTokens: int, refillRate: int)
    requires 0 < refillRate && Ordered(ops) && ops != []
    ensures var m := StateAfter(ops, maxTokens, refillRate, true);
            var n := Evictions(ops, id, s, t, maxTokens, refillRate, true);
            && (id in m ==> m[id].lastRefill <= ops[|ops| - 1].at)
            && (n > 0 ==> s + (n - 1) * (IDLE_LIMIT + 1) <= t)
            && (n > 0 ==> s + (n - 1) * (IDLE_LIMIT + 1) <= if id in m then m[id].lastRefill else ops[|ops| - 1].at)
  {
    var before, last := ops[..|ops| - 1], ops[|ops| - 1];
    if before == [] {
      assert Evictions(before, id, s, t, maxTokens, refillRate, true) == 0;
    } else {
      EvictionsApart(before, id, s, t, maxTokens, refillRate);
    }
  }

  /** So an interval meets at most one, and one more for each idle limit it is longer than. */
  lemma EvictionBound(ops: seq<Op>, id: Id, s: Time, t: Time, maxTokens: int, refillRate: int)
    requires 0 < refillRate && Ordered(ops) && s <= t
    ensures Evictions(ops, id, s, t, maxTokens, refillRate, true) <= 1 + (t - s) / (IDLE_LIMIT + 1)
  {
    if ops == [] {
    } else {
      EvictionsApart(ops, id, s, t, maxTokens, refillRate);
    }
  }

  // ---------- Eviction ----------

  lemma {:induction false} QuotientReaches(a: nat, n: nat, r: int)
    requires 0 < r
    ensures Quotient(a, r) >= n <==> a >= n * r
  {
    QuotientSign(a, r);
    if n == 0 {
    } else {
      assert n * r == (n - 1) * r + r;
      if r <= a {
        QuotientReaches(a - r, n - 1, r);
      } else {
        assert (n - 1) * r >= 0;
      }
    }
  }

  /** The two runs, with and without sweeps, at one connection: the same bucket, or none against one
      idle for so long that it will be full again. */
  ghost predicate Alike(evicted: Buckets, kept: Buckets, id: Id, maxTokens: int, clock: Time) {
    && (id in evicted ==> id in kept && evicted[id] == kept[id])
    && (id in kept ==> kept[id].maxTokens == maxTokens && 0 <= kept[id].tokens && kept[id].lastRefill <= clock)
    && (id in kept && id !in evicted ==> Idle(kept[id], clock))
  }

  lemma {:induction false} SweepsKeepAlike(ops: seq<Op>, id: Id, clock: Time, maxTokens: int, refillRate: int)
    requires 0 < refillRate && 0 < maxTokens && maxTokens * refillRate <= IDLE_LIMIT + 1
    requires Ordered(ops) && (ops != [] ==> ops[|ops| - 1].at <= clock)
    ensures Alike(StateAfter(ops, maxTokens, refillRate, true), StateAfter(ops, maxTokens, refillRate, false),
                  id, maxTokens, clock)
  {
    if ops == [] {
    } else {
      var before, last := ops[..|ops| - 1], ops[|ops| - 1];
      SweepsKeepAlike(before, id, last.at, maxTokens, refillRate);
      if last.Call? {
        var kept := StateAfter(before, maxTokens, refillRate, false);
        if last.id == id && id in kept {
          QuotientReaches(last.at - kept[id].lastRefill, maxTokens, refillRate);
          QuotientSign(last.at - kept[id].lastRefill, refillRate);
        }
      }
    }
  }

  lemma {:induction false} EmptyStaysEmpty(ops: seq<Op>, id: Id, maxTokens: int, refillRate: int, evicting: bool)
    requires 0 < refillRate && maxTokens <= 0
    ensures var m := StateAfter(ops, maxTokens, refillRate, evicting);
            id in m ==> m[id].maxTokens == maxTokens && m[id].tokens <= 0
  {
    if ops == [] {
    } else {
      EmptyStaysEmpty(ops[..|ops| - 1], id, maxTokens, refillRate, evicting);
    }
  }

  /** Sweeping changes no answer, whatever the calls and sweeps before it. */
  lemma EvictionUnobservable(ops: seq<Op>, id: Id, at: Time, maxTokens: int, refillRate: int)
    requires 0 < refillRate && Ordered(ops) && (ops != [] ==> ops[|ops| - 1].at <= at)
    requires maxTokens <= 0 || maxTokens * refillRate <= IDLE_LIMIT + 1
    ensures Answer(ops, id, at, maxTokens, refillRate, true) == Answer(ops, id, at, maxTokens, refillRate, false)
  {
    hide StateAfter, Ordered;
    if maxTokens <= 0 {
      EmptyStaysEmpty(ops, id, maxTokens, refillRate, true);
      EmptyStaysEmpty(ops, id, maxTokens, refillRate, false);
    } else {
      SweepsKeepAlike(ops, id, at, maxTokens, refillRate);
      var kept := StateAfter(ops, maxTokens, refillRate, false);
      if id in kept {
        QuotientReaches(at - kept[id].lastRefill, maxTokens, refillRate);
        QuotientSign(at - kept[id].lastRefill, refillRate);
      }
    }
  }

  /** Where eviction cannot be observed, a limiter that sweeps grants what one that does not would. */
  lemma {:induction false} SameGrants(ops: seq<Op>, id: Id, s: Time, t: Time, maxTokens: int, refillRate: int)
    requires 0 < refillRate && Ordered(ops)
    requires maxTokens <= 0 || maxTokens * refillRate <= IDLE_LIMIT + 1
    ensures GrantsWithin(ops, id, s, t, maxTokens, refillRate, true)
        == GrantsWithin(ops, id, s, t, maxTokens, refillRate, false)
  {
    if ops == [] {
    } else {
      var before, last := ops[..|ops| - 1], ops[|ops| - 1];
      SameGrants(before, id, s, t, maxTokens, refillRate);
      if last.Call? { EvictionUnobservable(before, last.id, last.at, maxTokens, refillRate); }
    }
  }

  /** The bound for the limiter as it runs, sweeps and all, where eviction cannot be observed: evictions
      add nothing. */
  lemma SweptGrantBound(ops: seq<Op>, id: Id, s: Time, t: Time, maxTokens: int, refillRate: int)
    requires 0 < refillRate && s <= t && Ordered(ops)
    requires maxTokens <= 0 || maxTokens * refillRate <= IDLE_LIMIT + 1
    ensures GrantsWithin(ops, id, s, t, maxTokens, refillRate, true)
            <= Pos(maxTokens) + Quotient(t - s, refillRate)
  {
    SameGrants(ops, id, s, t, maxTokens, refillRate);
    GrantBound(ops, id, s, t, maxTokens, refillRate, false);
  }

  /** `ops`, then `n` calls at one moment. */
  function WithCalls(ops: seq<Op>, id: Id, at: Time, n: nat): seq<Op> {
    if n == 0 then ops else WithCalls(ops, id, at, n - 1) + [Call(id, at)]
  }

  /** A call now finds the bucket `b`, which has nothing to refill at this moment. */
  ghost predicate Finds(m: Buckets, id: Id, at: Time, b: Bucket, maxTokens: int, refillRate: int)
    requires 0 < refillRate
  {
    Ready(m, id, maxTokens, refillRate, at) == b
  }

  /** A granted call takes one token, and a second refill at the same moment adds nothing. */
  lemma OneCall(m: Buckets, id: Id, at: Time, b: Bucket, maxTokens: int, refillRate: int)
    requires 0 < refillRate && Finds(m, id, at, b, maxTokens, refillRate) && 0 < b.tokens
    ensures var after, less := AfterCall(m, id, maxTokens, refillRate, at), b.(tokens := b.tokens - 1);
            id in after && after[id] == less && Finds(after, id, at, less, maxTokens, refillRate)
  {
    assert Quotient(0, refillRate) == 0;
  }

  lemma Appended(ops: seq<Op>, op: Op, maxTokens: int, refillRate: int, evicting: bool)
    requires 0 < refillRate && Ordered(ops) && (ops != [] ==> ops[|ops| - 1].at <= op.at)
    ensures Ordered(ops + [op])
    ensures op.Call? ==> StateAfter(ops + [op], maxTokens, refillRate, evicting)
                         == AfterCall(StateAfter(ops, maxTokens, refillRate, evicting), op.id, maxTokens, refillRate,
                                      op.at)
    ensures op.Sweep? ==> StateAfter(ops + [op], maxTokens, refillRate, evicting)
                          == if evicting then AfterSweep(StateAfter(ops, maxTokens, refillRate, evicting), op.at)
                             else StateAfter(ops, maxTokens, refillRate, evicting)
  {
    assert (ops + [op])[..|ops|] == ops;
  }

  function AfterCalls(m: Buckets, id: Id, at: Time, n: nat, maxTokens: int, refillRate: int): Buckets
    requires 0 < refillRate
  {
    if n == 0 then m
    else AfterCall(AfterCalls(m, id, at, n - 1, maxTokens, refillRate), id, maxTokens, refillRate, at)
  }

  lemma {:induction false} AppendedCalls(ops: seq<Op>, id: Id, at: Time, n: nat, maxTokens: int, refillRate: int,
                                         evicting: bool)
    requires 0 < refillRate && Ordered(ops) && (ops != [] ==> ops[|ops| - 1].at <= at)
    ensures var all := WithCalls(ops, id, at, n);
            && Ordered(all) && (n > 0 ==> all != []) && (all != [] ==> all[|all| - 1].at <= at)
            && StateAfter(all, maxTokens, refillRate, evicting)
               == AfterCalls(StateAfter(ops, maxTokens, refillRate, evicting), id, at, n, maxTokens, refillRate)
  {
    hide StateAfter, AfterCall, Ordered;
    if n == 0 {
    } else {
      AppendedCalls(ops, id, at, n - 1, maxTokens, refillRate, evicting);
      Appended(WithCalls(ops, id, at, n - 1), Call(id, at), maxTokens, refillRate, evicting);
    }
  }

  /** `n` calls at one moment take `n` tokens, if there are that many. */
  lemma {:induction false} CallsInARow(m: Buckets, id: Id, at: Time, n: nat, b: Bucket, maxTokens: int, refillRate: int)
    requires 0 < refillRate && Finds(m, id, at, b, maxTokens, refillRate) && n <= b.tokens
    ensures var after := AfterCalls(m, id, at, n, maxTokens, refillRate);
            && Finds(after, id, at, b.(tokens := b.tokens - n), maxTokens, refillRate)
            && (n > 0 ==> id in after && after[id] == b.(tokens := b.tokens - n))
  {
    if n == 0 {
    } else {
      CallsInARow(m, id, at, n - 1, b, maxTokens, refillRate);
      OneCall(AfterCalls(m, id, at, n - 1, maxTokens, refillRate), id, at, b.(tokens := b.tokens - (n - 1)), maxTokens,
              refillRate);
    }
  }

  /** All tokens taken at time 0. */
  function Drained(id: Id, maxTokens: nat): seq<Op> {
    WithCalls([], id, 0, maxTokens)
  }

  lemma DrainedIsEmpty(id: Id, maxTokens: int, refillRate: int, evicting: bool)
    requires 0 < refillRate && 0 < maxTokens
    ensures var drained := Drained(id, maxTokens);
            var m := StateAfter(drained, maxTokens, refillRate, evicting);
            && Ordered(drained) && drained != [] && drained[|drained| - 1].at <= 0
            && id in m && m[id] == Bucket(0, maxTokens, 0)
  {
    assert Quotient(0, refillRate) == 0;
    AppendedCalls([], id, 0, maxTokens, maxTokens, refillRate, evicting);
    CallsInARow(map[], id, 0, maxTokens, Bucket(maxTokens, maxTokens, 0), maxTokens, refillRate);
  }

  /** A sweep just over the idle limit later leaves a full bucket to be found if it evicts, and otherwise
      what has been refilled. */
  lemma SweptFinds(id: Id, maxTokens: int, refillRate: int, evicting: bool)
    requires 0 < refillRate && 0 < maxTokens
    ensures var at, swept := IDLE_LIMIT + 1, Drained(id, maxTokens) + [Sweep(IDLE_LIMIT + 1)];
            && Ordered(swept) && swept[|swept| - 1].at <= at
            && Ready(StateAfter(swept, maxTokens, refillRate, evicting), id, maxTokens, refillRate, at) ==
               Refilled(if evicting then Bucket(maxTokens, maxTokens, at) else Bucket(0, maxTokens, 0), refillRate, at)
  {
    DrainedIsEmpty(id, maxTokens, refillRate, evicting);
    Appended(Drained(id, maxTokens), Sweep(IDLE_LIMIT + 1), maxTokens, refillRate, evicting);
  }

  lemma AnswerAfterCalls(ops: seq<Op>, id: Id, at: Time, n: nat, b: Bucket, maxTokens: int, refillRate: int,
                         evicting: bool)
    requires 0 < refillRate && Ordered(ops) && ops != [] && ops[|ops| - 1].at <= at && n <= b.tokens
    requires Ready(StateAfter(ops, maxTokens, refillRate, evicting), id, maxTokens, refillRate, at) == b
    ensures var all := WithCalls(ops, id, at, n);
            && Ordered(all) && all != [] && all[|all| - 1].at <= at
            && (Answer(all, id, at, maxTokens, refillRate, evicting) <==> n < b.tokens)
  {
    AppendedCalls(ops, id, at, n, maxTokens, refillRate, evicting);
    CallsInARow(StateAfter(ops, maxTokens, refillRate, evicting), id, at, n, b, maxTokens, refillRate);
  }

  /** If refilling takes longer than the idle limit, eviction shows: drain the bucket, let a sweep
      pass just over the limit later, and ask again. */
  lemma EvictionObservable(id: Id, maxTokens: int, refillRate: int) returns (ops: seq<Op>, at: Time)
    requires 0 < refillRate && 0 < maxTokens && maxTokens * refillRate > IDLE_LIMIT + 1
    ensures Ordered(ops) && ops != [] && ops[|ops| - 1].at <= at
    ensures Answer(ops, id, at, maxTokens, refillRate, true) && !Answer(ops, id, at, maxTokens, refillRate, false)
  {
    at := IDLE_LIMIT + 1;
    var refill := Quotient(at, refillRate);
    QuotientReaches(at, maxTokens, refillRate);
    QuotientSign(at, refillRate);
    assert Quotient(0, refillRate) == 0;
    var swept := Drained(id, maxTokens) + [Sweep(at)];
    ops := WithCalls(swept, id, at, refill);
    var full, refilled := Bucket(maxTokens, maxTokens, at), Refilled(Bucket(0, maxTokens, 0), refillRate, at);
    assert Refilled(full, refillRate, at) == full && refilled.tokens == refill;
    hide *;
    SweptFinds(id, maxTokens, refillRate, true);
    AnswerAfterCalls(swept, id, at, refill, full, maxTokens, refillRate, true);
    SweptFinds(id, maxTokens, refillRate, false);
    AnswerAfterCalls(swept, id, at, refill, refilled, maxTokens, refillRate, false);
  }

  ghost predicate SweepsNeverShow(maxTokens: int, refillRate: int)
    requires refillRate != 0
  {
    forall ops: seq<Op>, id: Id, at: Time :: Ordered(ops) && (ops != [] ==> ops[|ops| - 1].at <= at) ==>
      Answer(ops, id, at, maxTokens, refillRate, true) == Answer(ops, id, at, maxTokens, refillRate, false)
  }

  /** Exactly when background eviction cannot be observed. */
  lemma EvictionObservability(maxTokens: int, refillRate: int)
    requires 0 < refillRate
    ensures SweepsNeverShow(maxTokens, refillRate) <==> (maxTokens <= 0 || maxTokens * refillRate <= 600_000_000_001)
  {
    if maxTokens <= 0 || maxTokens * refillRate <= IDLE_LIMIT + 1 {
      forall ops: seq<Op>, id: Id, at: Time | Ordered(ops) && (ops != [] ==> ops[|ops| - 1].at <= at)
        ensures Answer(ops, id, at, maxTokens, refillRate, true) == Answer(ops, id, at, maxTokens, refillRate, false)
      {
        EvictionUnobservable(ops, id, at, maxTokens, refillRate);
      }
    } else {
      var ops, at := EvictionObservable("sse", maxTokens, refillRate);
    }
  }

  // ---------- The most that can be granted ----------

  /** Full buckets drained one after another, each as soon as the one before it can be evicted, and what
      the last one is refilled. */
  function Drains(x: Time, maxTokens: int, refillRate: int): int
    requires refillRate != 0
    decreases x
  {
    if x <= IDLE_LIMIT then maxTokens + Quotient(x, refillRate)
    else maxTokens + Drains(x - (IDLE_LIMIT + 1), maxTokens, refillRate)
  }

  function Max(a: int, b: int): int { if a < b then b else a }

  /** How long before an interval its first bucket may have been created and still be full but for one. */
  function Head(refillRate: int): int { Min(refillRate - 1, IDLE_LIMIT + 1) }

  /** The most that one connection can be granted in `x` nanoseconds. */
  function Most(x: Time, maxTokens: int, refillRate: int, evicting: bool): int
    requires 0 < refillRate
  {
    if maxTokens <= 0 then 0
    else if evicting && maxTokens * refillRate > IDLE_LIMIT + 1
    then Max(Drains(x, maxTokens, refillRate), Drains(x + Head(refillRate), maxTokens, refillRate) - 1)
    else maxTokens + Quotient(x, refillRate)
  }

  lemma {:induction false} QuotientPlus(a: nat, n: nat, r: int)
    requires 0 < r
    ensures Quotient(a + n * r, r) == Quotient(a, r) + n
  {
    if n == 0 {
    } else {
      QuotientPlus(a, n - 1, r);
      assert a + n * r == a + (n - 1) * r + r && (n - 1) * r >= 0;
    }
  }

  /** The idle limit refills less than a bucket. */
  lemma LimitRefills(a: nat, maxTokens: int, refillRate: int)
    requires 0 < refillRate && 0 < maxTokens && maxTokens * refillRate > IDLE_LIMIT + 1
    ensures Quotient(a + (IDLE_LIMIT + 1), refillRate) <= Quotient(a, refillRate) + maxTokens
  {
    QuotientPlus(a, maxTokens, refillRate);
    QuotientSum(a + (IDLE_LIMIT + 1), maxTokens * refillRate - (IDLE_LIMIT + 1), refillRate);
  }

  lemma {:induction false} DrainsGrow(x: Time, y: Time, maxTokens: int, refillRate: int)
    requires 0 < refillRate && 0 < maxTokens && maxTokens * refillRate > IDLE_LIMIT + 1 && 0 <= x <= y
    ensures Drains(x, maxTokens, refillRate) + Quotient(y - x, refillRate) <= Drains(y, maxTokens, refillRate)
    ensures maxTokens <= Drains(x, maxTokens, refillRate) <= Drains(y, maxTokens, refillRate)
    decreases y
  {
    hide Quotient;
    var step := IDLE_LIMIT + 1;
    QuotientSign(x, refillRate);
    QuotientSign(y - x, refillRate);
    if x >= step {
      DrainsGrow(x - step, y - step, maxTokens, refillRate);
    } else if y < step {
      QuotientSum(x, y - x, refillRate);
    } else if y - x >= step {
      DrainsGrow(x, y - step, maxTokens, refillRate);
      LimitRefills(y - x - step, maxTokens, refillRate);
    } else {
      QuotientSum(x, y - x, refillRate);
      LimitRefills(y - step, maxTokens, refillRate);
    }
  }

  function Sweeping(maxTokens: int, refillRate: int): (nat, Time) -> int
    requires 0 < refillRate
  {
    (n: nat, x: Time) =>
      Max(Drains(x, maxTokens, refillRate), Drains(x + Head(refillRate), maxTokens, refillRate) - 1)
  }

  lemma SweepingAt(n: nat, x: Time, maxTokens: int, refillRate: int)
    requires 0 < refillRate
    ensures var d, e := Drains(x, maxTokens, refillRate), Drains(x + Head(refillRate), maxTokens, refillRate) - 1;
            Sweeping(maxTokens, refillRate)(n, x) == if d < e then e else d
  {
    hide Quotient, Drains, Head;
  }

  lemma HeadIsNat(refillRate: int)
    requires 0 < refillRate
    ensures 0 <= Head(refillRate) < refillRate && 0 <= IDLE_LIMIT
    ensures Head(refillRate) == refillRate - 1 || Head(refillRate) == IDLE_LIMIT + 1
  {}

  /** A run of drains loses nothing by an interval that is longer. */
  lemma SweepingGrows(n: nat, x: Time, y: Time, maxTokens: int, refillRate: int)
    requires 0 < refillRate && 0 < maxTokens && maxTokens * refillRate > IDLE_LIMIT + 1 && 0 <= x <= y
    ensures var f := Sweeping(maxTokens, refillRate);
            maxTokens <= f(n, x) && f(n, x) + Quotient(y - x, refillRate) <= f(n, y)
  {
    hide *;
    var h := Head(refillRate);
    HeadIsNat(refillRate);
    SweepingAt(n, x, maxTokens, refillRate);
    SweepingAt(n, y, maxTokens, refillRate);
    DrainsGrow(x, y, maxTokens, refillRate);
    DrainsGrow(x + h, y + h, maxTokens, refillRate);
    assert y + h - (x + h) == y - x;
  }

  lemma SweepingWave(n: nat, k: nat, x: Time, y: Time, maxTokens: int, refillRate: int)
    requires 0 < refillRate && 0 < maxTokens && maxTokens * refillRate > IDLE_LIMIT + 1 && 0 <= x && x + IDLE_LIMIT < y
    ensures var f := Sweeping(maxTokens, refillRate); f(n, x) + maxTokens <= f(k, y)
  {
    hide *;
    var h, step := Head(refillRate), IDLE_LIMIT + 1;
    HeadIsNat(refillRate);
    SweepingAt(n, x, maxTokens, refillRate);
    SweepingAt(k, y, maxTokens, refillRate);
    DrainsOnce(x, maxTokens, refillRate);
    DrainsOnce(x + h, maxTokens, refillRate);
    DrainsGrow(x + step, y, maxTokens, refillRate);
    DrainsGrow(x + h + step, y + h, maxTokens, refillRate);
  }

  lemma DrainsOnce(x: Time, maxTokens: int, refillRate: int)
    requires 0 < refillRate && 0 <= x
    ensures Drains(x + (IDLE_LIMIT + 1), maxTokens, refillRate) == maxTokens + Drains(x, maxTokens, refillRate)
  {}

  lemma SweepingEarly(k: nat, y: Time, maxTokens: int, refillRate: int)
    requires 0 < refillRate && 0 < maxTokens && maxTokens * refillRate > IDLE_LIMIT + 1
    requires 0 <= y && IDLE_LIMIT + 1 < y + refillRate
    ensures var f := Sweeping(maxTokens, refillRate); 2 * maxTokens - 1 <= f(k, y)
  {
    hide *;
    HeadIsNat(refillRate);
    SweepingAt(k, y, maxTokens, refillRate);
    DrainsOnce(0, maxTokens, refillRate);
    DrainsGrow(0, 0, maxTokens, refillRate);
    DrainsGrow(IDLE_LIMIT + 1, y + Head(refillRate), maxTokens, refillRate);
  }

  lemma SweepingAllows(maxTokens: int, refillRate: int)
    requires 0 < refillRate && 0 < maxTokens && maxTokens * refillRate > IDLE_LIMIT + 1
    ensures Allows(Sweeping(maxTokens, refillRate), maxTokens, refillRate)
  {
    hide Quotient, Drains, Sweeping;
    var f := Sweeping(maxTokens, refillRate);
    forall n: nat, x: Time | 0 <= x ensures maxTokens <= f(n, x) {
      SweepingGrows(n, x, x, maxTokens, refillRate);
    }
    forall n: nat, x: Time, y: Time | 0 <= x <= y ensures f(n, x) + Quotient(y - x, refillRate) <= f(n, y) {
      SweepingGrows(n, x, y, maxTokens, refillRate);
    }
    forall n: nat, k: nat, x: Time, y: Time | n < k && 0 <= x && x + IDLE_LIMIT < y
      ensures f(n, x) + maxTokens <= f(k, y)
    {
      SweepingWave(n, k, x, y, maxTokens, refillRate);
    }
    forall k: nat, y: Time | 0 < k && 0 <= y && IDLE_LIMIT + 1 < y + refillRate ensures 2 * maxTokens - 1 <= f(k, y) {
      SweepingEarly(k, y, maxTokens, refillRate);
    }
  }

  lemma {:induction false} NoTokensNoGrants(ops: seq<Op>, id: Id, s: Time, t: Time, maxTokens: int, refillRate: int,
                                            evicting: bool)
    requires 0 < refillRate && maxTokens <= 0
    ensures GrantsWithin(ops, id, s, t, maxTokens, refillRate, evicting) == 0
  {
    if ops == [] {
    } else {
      NoTokensNoGrants(ops[..|ops| - 1], id, s, t, maxTokens, refillRate, evicting);
      EmptyStaysEmpty(ops[..|ops| - 1], id, maxTokens, refillRate, evicting);
    }
  }

  lemma MostIs(n: nat, x: Time, maxTokens: int, refillRate: int, evicting: bool)
    requires 0 < refillRate
    ensures Most(x, maxTokens, refillRate, evicting)
         == if maxTokens <= 0 then 0
            else if evicting && maxTokens * refillRate > IDLE_LIMIT + 1 then Sweeping(maxTokens, refillRate)(n, x)
            else Pos(maxTokens) + Quotient(x, refillRate)
  {
    hide Quotient, Drains;
  }

  /** No run grants more, in any interval. */
  lemma MostGranted(ops: seq<Op>, id: Id, s: Time, t: Time, maxTokens: int, refillRate: int, evicting: bool)
    requires 0 < refillRate && s <= t && Ordered(ops)
    ensures GrantsWithin(ops, id, s, t, maxTokens, refillRate, evicting) <= Most(t - s, maxTokens, refillRate, evicting)
  {
    hide *;
    MostIs(Evictions(ops, id, s, t, maxTokens, refillRate, evicting), t - s, maxTokens, refillRate, evicting);
    if maxTokens <= 0 {
      NoTokensNoGrants(ops, id, s, t, maxTokens, refillRate, evicting);
    } else if evicting && maxTokens * refillRate > IDLE_LIMIT + 1 {
      SweepingAllows(maxTokens, refillRate);
      GrantsAllowed(ops, id, s, t, Sweeping(maxTokens, refillRate), maxTokens, refillRate, evicting);
    } else if evicting {
      SweptGrantBound(ops, id, s, t, maxTokens, refillRate);
    } else {
      GrantBound(ops, id, s, t, maxTokens, refillRate, evicting);
    }
  }

  // ---------- Runs that are granted as much ----------

  /** After `ops` the connection has the bucket `b`, and has had `g` grants in [0, t]. */
  ghost predicate Stands(ops: seq<Op>, id: Id, b: Bucket, g: int, at: Time, t: Time, refillRate: int, evicting: bool)
    requires 0 < refillRate
  {
    var m := StateAfter(ops, b.maxTokens, refillRate, evicting);
    && Ordered(ops) && (ops != [] ==> ops[|ops| - 1].at <= at)
    && id in m && m[id] == b && GrantsWithin(ops, id, 0, t, b.maxTokens, refillRate, evicting) == g
  }

  /** One more call, granted. */
  lemma OneGrant(ops: seq<Op>, id: Id, b: Bucket, g: nat, was: Time, at: Time, t: Time, refillRate: int, evicting: bool)
    requires 0 < refillRate && was <= at <= t && Stands(ops, id, b, g, was, t, refillRate, evicting)
    requires Refilled(b, refillRate, at).tokens > 0
    ensures var ready := Refilled(b, refillRate, at);
            Stands(ops + [Call(id, at)], id, ready.(tokens := ready.tokens - 1), g + if 0 <= at then 1 else 0, at, t,
                   refillRate, evicting)
  {
    hide Quotient, AfterSweep;
    Appended(ops, Call(id, at), b.maxTokens, refillRate, evicting);
    assert (ops + [Call(id, at)])[..|ops|] == ops;
  }

  lemma {:induction false} GrantsInARow(ops: seq<Op>, id: Id, b: Bucket, g: nat, was: Time, at: Time, t: Time, n: nat,
                                        refillRate: int, evicting: bool)
    requires 0 < refillRate && was <= at <= t && 0 <= at && Stands(ops, id, b, g, was, t, refillRate, evicting)
    requires Refilled(b, refillRate, at).tokens >= n
    ensures var ready := Refilled(b, refillRate, at);
            Stands(WithCalls(ops, id, at, n), id,
                   if n == 0 then b else ready.(tokens := ready.tokens - n), g + n, at, t, refillRate, evicting)
  {
    hide Stands;
    if n == 0 {
      StandsLater(ops, id, b, g, was, at, t, refillRate, evicting);
    } else {
      GrantsInARow(ops, id, b, g, was, at, t, n - 1, refillRate, evicting);
      var ready := Refilled(b, refillRate, at);
      var before := if n == 1 then b else ready.(tokens := ready.tokens - (n - 1));
      assert Quotient(0, refillRate) == 0;
      OneGrant(WithCalls(ops, id, at, n - 1), id, before, g + n - 1, at, at, t, refillRate, evicting);
    }
  }

  lemma StandsLater(ops: seq<Op>, id: Id, b: Bucket, g: nat, was: Time, at: Time, t: Time, refillRate: int,
                    evicting: bool)
    requires 0 < refillRate && was <= at && Stands(ops, id, b, g, was, t, refillRate, evicting)
    ensures Stands(ops, id, b, g, at, t, refillRate, evicting)
  {}

  lemma FirstCall(id: Id, at: Time, t: Time, maxTokens: int, refillRate: int, evicting: bool)
    requires 0 < refillRate && 0 < maxTokens && at <= t
    ensures Stands([Call(id, at)], id, Bucket(maxTokens - 1, maxTokens, at), if 0 <= at then 1 else 0, at, t,
                   refillRate, evicting)
  {
    assert [Call(id, at)][..0] == [] && Quotient(0, refillRate) == 0;
    assert StateAfter([], maxTokens, refillRate, evicting) == map[];
    assert GrantsWithin([], id, 0, t, maxTokens, refillRate, evicting) == 0;
  }

  /** All tokens at time 0, of a bucket created then or a little before, but for the call that created it. */
  function Opening(id: Id, head: int, maxTokens: int): seq<Op>
    requires 0 < maxTokens
  {
    WithCalls([Call(id, -head)], id, 0, maxTokens - 1)
  }

  lemma OpeningGrants(id: Id, head: int, t: Time, maxTokens: int, refillRate: int, evicting: bool)
    requires 0 < refillRate && 0 < maxTokens && 0 <= head < refillRate && 0 <= t
    ensures Stands(Opening(id, head, maxTokens), id, Bucket(0, maxTokens, -head),
                   maxTokens - if head == 0 then 0 else 1, 0, t, refillRate, evicting)
  {
    hide Stands;
    FirstCall(id, -head, t, maxTokens, refillRate, evicting);
    QuotientSign(head, refillRate);
    var b := Bucket(maxTokens - 1, maxTokens, -head);
    assert Refilled(b, refillRate, 0) == b;
    GrantsInARow([Call(id, -head)], id, b, if head == 0 then 1 else 0, -head, 0, t, maxTokens - 1, refillRate,
                 evicting);
  }

  /** Then a call at each refill. */
  function Steady(id: Id, n: nat, maxTokens: int, refillRate: int): seq<Op>
    requires 0 < maxTokens
  {
    if n == 0 then Opening(id, 0, maxTokens) else Steady(id, n - 1, maxTokens, refillRate) + [Call(id, n * refillRate)]
  }

  lemma {:induction false} SteadyGrants(id: Id, n: nat, t: Time, maxTokens: int, refillRate: int, evicting: bool)
    requires 0 < refillRate && 0 < maxTokens && n * refillRate <= t
    ensures Stands(Steady(id, n, maxTokens, refillRate), id, Bucket(0, maxTokens, n * refillRate), maxTokens + n,
                   n * refillRate, t, refillRate, evicting)
  {
    hide Stands;
    if n == 0 {
      OpeningGrants(id, 0, t, maxTokens, refillRate, evicting);
    } else {
      var was := (n - 1) * refillRate;
      assert n * refillRate == was + refillRate && 0 <= was;
      SteadyGrants(id, n - 1, t, maxTokens, refillRate, evicting);
      assert Quotient(refillRate, refillRate) == 1 + Quotient(0, refillRate) == 1;
      OneGrant(Steady(id, n - 1, maxTokens, refillRate), id, Bucket(0, maxTokens, was), maxTokens + n - 1, was,
               n * refillRate, t, refillRate, evicting);
    }
  }

  /** Or a sweep as soon as the bucket is idle, and all tokens of the next one, time and again. */
  function Waves(id: Id, head: int, n: nat, maxTokens: int): seq<Op>
    requires 0 < maxTokens
  {
    if n == 0 then Opening(id, head, maxTokens)
    else
      var at := n * (IDLE_LIMIT + 1) - head;
      WithCalls(Waves(id, head, n - 1, maxTokens) + [Sweep(at), Call(id, at)], id, at, maxTokens - 1)
  }

  /** A sweep that finds the bucket idle, and the call that creates the next. */
  lemma SweptAway(ops: seq<Op>, id: Id, b: Bucket, g: nat, was: Time, at: Time, t: Time, refillRate: int)
    requires 0 < refillRate && was <= at <= t && 0 <= at && Stands(ops, id, b, g, was, t, refillRate, true)
    requires Idle(b, at) && 0 < b.maxTokens
    ensures Stands(ops + [Sweep(at), Call(id, at)], id, Bucket(b.maxTokens - 1, b.maxTokens, at), g + 1, at, t,
                   refillRate, true)
  {
    hide Quotient;
    var swept := ops + [Sweep(at)];
    Appended(ops, Sweep(at), b.maxTokens, refillRate, true);
    assert swept[..|ops|] == ops;
    assert GrantsWithin(swept, id, 0, t, b.maxTokens, refillRate, true) == g;
    Appended(swept, Call(id, at), b.maxTokens, refillRate, true);
    assert ops + [Sweep(at), Call(id, at)] == swept + [Call(id, at)] && (swept + [Call(id, at)])[..|swept|] == swept;
    QuotientSign(0, refillRate);
  }

  lemma {:induction false} WavesGrant(id: Id, head: int, n: nat, t: Time, maxTokens: int, refillRate: int)
    requires 0 < refillRate && 0 < maxTokens && 0 <= head < refillRate && head <= IDLE_LIMIT + 1 && 0 <= t
    requires n * (IDLE_LIMIT + 1) - head <= t
    ensures var last := n * (IDLE_LIMIT + 1) - head;
            Stands(Waves(id, head, n, maxTokens), id, Bucket(0, maxTokens, last),
                   (n + 1) * maxTokens - (if head == 0 then 0 else 1), Max(0, last), t, refillRate, true)
  {
    hide Stands;
    if n == 0 {
      OpeningGrants(id, head, t, maxTokens, refillRate, true);
    } else {
      WavesGrant(id, head, n - 1, t, maxTokens, refillRate);
      var was, at := (n - 1) * (IDLE_LIMIT + 1) - head, n * (IDLE_LIMIT + 1) - head;
      var g := n * maxTokens - if head == 0 then 0 else 1;
      assert (n + 1) * maxTokens == n * maxTokens + maxTokens && n * maxTokens == (n - 1) * maxTokens + maxTokens;
      assert (n - 1) * maxTokens >= 0;
      var ops, b := Waves(id, head, n - 1, maxTokens), Bucket(maxTokens - 1, maxTokens, at);
      SweptAway(ops, id, Bucket(0, maxTokens, was), g, Max(0, was), at, t, refillRate);
      assert Quotient(0, refillRate) == 0;
      GrantsInARow(ops + [Sweep(at), Call(id, at)], id, b, g + 1, at, at, t, maxTokens - 1, refillRate, true);
    }
  }

  lemma {:induction false} DrainsIs(x: Time, maxTokens: int, refillRate: int) returns (n: nat)
    requires 0 < refillRate && 0 <= x
    ensures n * (IDLE_LIMIT + 1) <= x < (n + 1) * (IDLE_LIMIT + 1)
    ensures Drains(x, maxTokens, refillRate) == (n + 1) * maxTokens + Quotient(x - n * (IDLE_LIMIT + 1), refillRate)
    decreases x
  {
    hide Quotient;
    if x <= IDLE_LIMIT {
      n := 0;
    } else {
      n := DrainsIs(x - (IDLE_LIMIT + 1), maxTokens, refillRate);
      assert (n + 2) * maxTokens == (n + 1) * maxTokens + maxTokens;
      n := n + 1;
    }
  }

  lemma DrainsReached(id: Id, head: int, x: Time, maxTokens: int, refillRate: int) returns (ops: seq<Op>)
    requires 0 < refillRate && 0 < maxTokens && maxTokens * refillRate > IDLE_LIMIT + 1
    requires 0 <= head < refillRate && head <= IDLE_LIMIT + 1 && 0 <= x
    ensures Ordered(ops)
    ensures GrantsWithin(ops, id, 0, x, maxTokens, refillRate, true)
         == Drains(x + head, maxTokens, refillRate) - if head == 0 then 0 else 1
  {
    hide Quotient, Drains, Refilled, StateAfter, GrantsWithin, Ordered, Waves, WithCalls;
    var n := DrainsIs(x + head, maxTokens, refillRate);
    var last, spent := n * (IDLE_LIMIT + 1) - head, if head == 0 then 0 else 1;
    var refill := Quotient(x - last, refillRate);
    WavesGrant(id, head, n, x, maxTokens, refillRate);
    RefillOfEmpty(last, x, maxTokens, refillRate);
    MoreBuckets(n, n + 1, maxTokens);
    assert x - last == x + head - n * (IDLE_LIMIT + 1);
    GrantsInARow(Waves(id, head, n, maxTokens), id, Bucket(0, maxTokens, last), (n + 1) * maxTokens - spent,
                 Max(0, last), x, x, refill, refillRate, true);
    ops := WithCalls(Waves(id, head, n, maxTokens), id, x, refill);
  }

  lemma RefillOfEmpty(last: Time, x: Time, maxTokens: int, refillRate: int)
    requires 0 < refillRate && 0 < maxTokens && last <= x && x - last < maxTokens * refillRate
    ensures var ready := Refilled(Bucket(0, maxTokens, last), refillRate, x);
            0 <= Quotient(x - last, refillRate) == ready.tokens && ready.maxTokens == maxTokens
  {
    hide Quotient;
    QuotientSign(x - last, refillRate);
    QuotientReaches(x - last, maxTokens, refillRate);
  }

  /** And some run is granted exactly as much, for every capacity, rate and length. */
  lemma MostIsReached(id: Id, x: Time, maxTokens: int, refillRate: int, evicting: bool) returns (ops: seq<Op>)
    requires 0 < refillRate && 0 <= x
    ensures Ordered(ops)
    ensures GrantsWithin(ops, id, 0, x, maxTokens, refillRate, evicting) == Most(x, maxTokens, refillRate, evicting)
  {
    hide Quotient, Drains;
    if maxTokens <= 0 {
      ops := [];
    } else if evicting && maxTokens * refillRate > IDLE_LIMIT + 1 {
      var late := Drains(x, maxTokens, refillRate) < Drains(x + Head(refillRate), maxTokens, refillRate) - 1;
      ops := DrainsReached(id, if late then Head(refillRate) else 0, x, maxTokens, refillRate);
    } else {
      var n := Quotient(x, refillRate);
      QuotientSign(x, refillRate);
      QuotientReaches(x, n, refillRate);
      SteadyGrants(id, n, x, maxTokens, refillRate, evicting);
      ops := Steady(id, n, maxTokens, refillRate);
    }
  }

  // ---------- Why a call is refused ----------

  /** A connection's bucket, told from the times of its calls and the sweeps alone: the call that created it,
      and when the last whole refill came in. */
  datatype Life = NoBucket | Living(born: nat, refilled: Time)

  function LifeOf(ops: seq<Op>, id: Id, refillRate: int, evicting: bool): Life
    requires refillRate != 0
  {
    if ops == [] then NoBucket
    else
      var life, last := LifeOf(ops[..|ops| - 1], id, refillRate, evicting), ops[|ops| - 1];
      if last.Call? && last.id == id then
        if life.NoBucket? then Living(|ops| - 1, last.at)
        else if Quotient(last.at - life.refilled, refillRate) > 0 then life.(refilled := last.at)
        else life
      else if evicting && last.Sweep? && life.Living? && last.at - life.refilled > IDLE_LIMIT then NoBucket
      else life
  }

  /** The whole refills a call at `at` brings. */
  function Comes(ops: seq<Op>, id: Id, at: Time, refillRate: int, evicting: bool): nat
    requires refillRate != 0
  {
    var life := LifeOf(ops, id, refillRate, evicting);
    if life.Living? then Pos(Quotient(at - life.refilled, refillRate)) else 0
  }

  /** The whole refills that calls from the i-th operation on have brought. */
  function RefillsFrom(ops: seq<Op>, id: Id, i: nat, refillRate: int, evicting: bool): nat
    requires refillRate != 0
  {
    if |ops| <= i then 0
    else
      var before, last := ops[..|ops| - 1], ops[|ops| - 1];
      RefillsFrom(before, id, i, refillRate, evicting)
      + if last.Call? && last.id == id then Comes(before, id, last.at, refillRate, evicting) else 0
  }

  /** The calls granted from the i-th operation on. */
  function GrantsFrom(ops: seq<Op>, id: Id, i: nat, maxTokens: int, refillRate: int, evicting: bool): nat
    requires refillRate != 0
  {
    if |ops| <= i then 0
    else
      var before, last := ops[..|ops| - 1], ops[|ops| - 1];
      GrantsFrom(before, id, i, maxTokens, refillRate, evicting)
      + if last.Call? && last.id == id && Answer(before, id, last.at, maxTokens, refillRate, evicting) then 1 else 0
  }

  /** The i-th operation is a call on the bucket that is there now. */
  predicate CallOnBucket(ops: seq<Op>, id: Id, i: nat, refillRate: int, evicting: bool)
    requires refillRate != 0
  {
    var life := LifeOf(ops, id, refillRate, evicting);
    life.Living? && life.born <= i < |ops| && ops[i].Call? && ops[i].id == id
  }

  /** Since the i-th operation the grants have used up a full bucket and every refill after it, up to a call
      at `at`. */
  predicate UsedUp(ops: seq<Op>, id: Id, i: nat, at: Time, maxTokens: int, refillRate: int, evicting: bool)
    requires refillRate != 0
  {
    && CallOnBucket(ops, id, i, refillRate, evicting)
    && GrantsFrom(ops, id, i, maxTokens, refillRate, evicting)
       >= maxTokens + RefillsFrom(ops, id, i + 1, refillRate, evicting) + Comes(ops, id, at, refillRate, evicting)
  }

  /** What a bucket holds that was full at the i-th operation and never since. */
  function Level(ops: seq<Op>, id: Id, i: nat, maxTokens: int, refillRate: int, evicting: bool): int
    requires refillRate != 0
  {
    maxTokens + RefillsFrom(ops, id, i + 1, refillRate, evicting) - GrantsFrom(ops, id, i, maxTokens, refillRate,
                                                                               evicting)
  }

  /** The bucket holds the least of these over its calls. */
  ghost predicate AtLeastLevel(ops: seq<Op>, id: Id, b: Bucket, maxTokens: int, refillRate: int, evicting: bool)
    requires refillRate != 0
  {
    && (forall i :: CallOnBucket(ops, id, i, refillRate, evicting) ==>
          b.tokens <= Level(ops, id, i, maxTokens, refillRate, evicting))
    && (exists i :: CallOnBucket(ops, id, i, refillRate, evicting)
          && b.tokens == Level(ops, id, i, maxTokens, refillRate, evicting))
  }

  ghost predicate Explained(ops: seq<Op>, id: Id, m: Buckets, maxTokens: int, refillRate: int, evicting: bool)
    requires refillRate != 0
  {
    var life := LifeOf(ops, id, refillRate, evicting);
    if life.NoBucket? then id !in m
    else
      && id in m && m[id].lastRefill == life.refilled && m[id].maxTokens == maxTokens && m[id].tokens <= maxTokens
      && AtLeastLevel(ops, id, m[id], maxTokens, refillRate, evicting)
  }

  lemma LevelAfterCall(ops: seq<Op>, id: Id, i: nat, maxTokens: int, refillRate: int, evicting: bool)
    requires 0 < refillRate && ops != [] && ops[|ops| - 1].Call? && ops[|ops| - 1].id == id && i < |ops|
    ensures var before, at := ops[..|ops| - 1], ops[|ops| - 1].at;
            var g := if Answer(before, id, at, maxTokens, refillRate, evicting) then 1 else 0;
            Level(ops, id, i, maxTokens, refillRate, evicting)
            == if i == |before| then maxTokens - g
               else Level(before, id, i, maxTokens, refillRate, evicting) + Comes(before, id, at, refillRate,
                   evicting) - g
  {
    hide Answer, LifeOf, Comes;
    if i == |ops| - 1 { assert GrantsFrom(ops[..|ops| - 1], id, i, maxTokens, refillRate, evicting) == 0; }
  }

  lemma LevelAfterOther(ops: seq<Op>, id: Id, i: nat, maxTokens: int, refillRate: int, evicting: bool)
    requires 0 < refillRate && ops != [] && !(ops[|ops| - 1].Call? && ops[|ops| - 1].id == id) && i < |ops| - 1
    ensures Level(ops, id, i, maxTokens, refillRate, evicting)
         == Level(ops[..|ops| - 1], id, i, maxTokens, refillRate, evicting)
  {
    hide Answer, LifeOf, Comes;
  }

  /** A call takes a bucket to the least of: full, and what each level comes to with its refill. */
  lemma CallOnLiving(ops: seq<Op>, id: Id, m: Buckets, maxTokens: int, refillRate: int, evicting: bool)
    requires 0 < maxTokens && 0 < refillRate && ops != [] && ops[|ops| - 1].Call? && ops[|ops| - 1].id == id
    requires m == StateAfter(ops[..|ops| - 1], maxTokens, refillRate, evicting)
    requires Explained(ops[..|ops| - 1], id, m, maxTokens, refillRate, evicting)
    requires LifeOf(ops[..|ops| - 1], id, refillRate, evicting).Living?
    ensures Explained(ops, id, AfterCall(m, id, maxTokens, refillRate, ops[|ops| - 1].at), maxTokens, refillRate,
                      evicting)
  {
    var before, at := ops[..|ops| - 1], ops[|ops| - 1].at;
    var after := AfterCall(m, id, maxTokens, refillRate, at);
    var came := Comes(before, id, at, refillRate, evicting);
    var g := if Answer(before, id, at, maxTokens, refillRate, evicting) then 1 else 0;
    TokensAfterCall(before, id, m, at, maxTokens, refillRate, evicting);
    LifeAfterCall(ops, id, refillRate, evicting);
    hide Quotient, StateAfter, Level, Answer, LifeOf, Comes, AfterCall, CallOnBucket;
    forall i: nat | CallOnBucket(ops, id, i, refillRate, evicting)
      ensures after[id].tokens <= Level(ops, id, i, maxTokens, refillRate, evicting)
    {
      CallsAfterCall(ops, id, i, refillRate, evicting);
      LevelAfterCall(ops, id, i, maxTokens, refillRate, evicting);
    }
    var i := if after[id].tokens == maxTokens - g then |before| else
      var k :| CallOnBucket(before, id, k, refillRate, evicting)
               && m[id].tokens == Level(before, id, k, maxTokens, refillRate, evicting); k;
    CallsAfterCall(ops, id, i, refillRate, evicting);
    LevelAfterCall(ops, id, i, maxTokens, refillRate, evicting);
    assert after[id].tokens == Level(ops, id, i, maxTokens, refillRate, evicting);
  }

  lemma TokensAfterCall(before: seq<Op>, id: Id, m: Buckets, at: Time, maxTokens: int, refillRate: int, evicting: bool)
    requires 0 < maxTokens && 0 < refillRate && m == StateAfter(before, maxTokens, refillRate, evicting)
    requires var life := LifeOf(before, id, refillRate, evicting);
             life.Living? && id in m && m[id].lastRefill == life.refilled && m[id].maxTokens == maxTokens
             && m[id].tokens <= maxTokens
    ensures var after, came := AfterCall(m, id, maxTokens, refillRate, at), Comes(before, id, at, refillRate, evicting);
            var g := if Answer(before, id, at, maxTokens, refillRate, evicting) then 1 else 0;
            && id in after && after[id].tokens == Min(maxTokens, m[id].tokens + came) - g
            && after[id].maxTokens == maxTokens && after[id].lastRefill == if came > 0 then at else m[id].lastRefill
  {
    AnswerIsGrant(before, id, at, maxTokens, refillRate, evicting);
    hide Quotient, StateAfter, Answer, LifeOf;
  }

  lemma LifeAfterCall(ops: seq<Op>, id: Id, refillRate: int, evicting: bool)
    requires 0 < refillRate && ops != [] && ops[|ops| - 1].Call? && ops[|ops| - 1].id == id
    requires LifeOf(ops[..|ops| - 1], id, refillRate, evicting).Living?
    ensures var before, at := ops[..|ops| - 1], ops[|ops| - 1].at;
            var was, came := LifeOf(before, id, refillRate, evicting), Comes(before, id, at, refillRate, evicting);
            LifeOf(ops, id, refillRate, evicting) == if came > 0 then was.(refilled := at) else was
  {
    hide Quotient;
  }

  lemma CallsAfterCall(ops: seq<Op>, id: Id, i: nat, refillRate: int, evicting: bool)
    requires 0 < refillRate && ops != [] && ops[|ops| - 1].Call? && ops[|ops| - 1].id == id
    requires LifeOf(ops[..|ops| - 1], id, refillRate, evicting).Living?
    ensures CallOnBucket(ops, id, i, refillRate, evicting)
       <==> i == |ops| - 1 || CallOnBucket(ops[..|ops| - 1], id, i, refillRate, evicting)
  {
    LifeAfterCall(ops, id, refillRate, evicting);
    BornAtCall(ops[..|ops| - 1], id, refillRate, evicting);
    hide LifeOf, Comes;
  }

  lemma CallThatCreates(ops: seq<Op>, id: Id, m: Buckets, maxTokens: int, refillRate: int, evicting: bool)
    requires 0 < maxTokens && 0 < refillRate && ops != [] && ops[|ops| - 1].Call? && ops[|ops| - 1].id == id
    requires m == StateAfter(ops[..|ops| - 1], maxTokens, refillRate, evicting)
    requires id !in m && LifeOf(ops[..|ops| - 1], id, refillRate, evicting).NoBucket?
    ensures Explained(ops, id, AfterCall(m, id, maxTokens, refillRate, ops[|ops| - 1].at), maxTokens, refillRate,
                      evicting)
  {
    var at := ops[|ops| - 1].at;
    AnswerIsGrant(ops[..|ops| - 1], id, at, maxTokens, refillRate, evicting);
    QuotientSign(0, refillRate);
    hide Quotient, StateAfter, Level, Answer;
    var i := |ops| - 1;
    LevelAfterCall(ops, id, i, maxTokens, refillRate, evicting);
    assert CallOnBucket(ops, id, i, refillRate, evicting);
    assert AfterCall(m, id, maxTokens, refillRate, at)[id].tokens == Level(ops, id, i, maxTokens, refillRate, evicting);
  }

  lemma OtherExplained(ops: seq<Op>, id: Id, m: Buckets, maxTokens: int, refillRate: int, evicting: bool)
    requires 0 < refillRate && ops != [] && !(ops[|ops| - 1].Call? && ops[|ops| - 1].id == id)
    requires Explained(ops[..|ops| - 1], id, m, maxTokens, refillRate, evicting)
    ensures Explained(ops, id, AfterOp(m, ops[|ops| - 1], maxTokens, refillRate, evicting), maxTokens, refillRate,
                      evicting)
  {
    hide Quotient, Level;
    var before := ops[..|ops| - 1];
    if LifeOf(ops, id, refillRate, evicting).Living? {
      forall i | 0 <= i < |before|
        ensures CallOnBucket(ops, id, i, refillRate, evicting) <==> CallOnBucket(before, id, i, refillRate, evicting)
        ensures Level(ops, id, i, maxTokens, refillRate, evicting)
            == Level(before, id, i, maxTokens, refillRate, evicting)
      {
        LevelAfterOther(ops, id, i, maxTokens, refillRate, evicting);
      }
    }
  }

  lemma {:induction false} TokensExplained(ops: seq<Op>, id: Id, maxTokens: int, refillRate: int, evicting: bool)
    requires 0 < maxTokens && 0 < refillRate
    ensures Explained(ops, id, StateAfter(ops, maxTokens, refillRate, evicting), maxTokens, refillRate, evicting)
  {
    if ops == [] {
    } else {
      hide Explained, AtLeastLevel, AfterCall, AfterSweep, LifeOf;
      var before, last := ops[..|ops| - 1], ops[|ops| - 1];
      var m := StateAfter(before, maxTokens, refillRate, evicting);
      TokensExplained(before, id, maxTokens, refillRate, evicting);
      if last.Call? && last.id == id {
        if LifeOf(before, id, refillRate, evicting).Living? {
          CallOnLiving(ops, id, m, maxTokens, refillRate, evicting);
        } else {
          NotThere(before, id, m, maxTokens, refillRate, evicting);
          CallThatCreates(ops, id, m, maxTokens, refillRate, evicting);
        }
      } else {
        OtherExplained(ops, id, m, maxTokens, refillRate, evicting);
      }
    }
  }

  lemma NotThere(ops: seq<Op>, id: Id, m: Buckets, maxTokens: int, refillRate: int, evicting: bool)
    requires 0 < refillRate && Explained(ops, id, m, maxTokens, refillRate, evicting)
    requires LifeOf(ops, id, refillRate, evicting).NoBucket?
    ensures id !in m
  {}

  /** Over every pattern of calls and sweeps: a call is refused exactly when, since some earlier call on the
      bucket there now, the grants have used up a full bucket and every whole refill that came in. */
  lemma RefusedForCause(ops: seq<Op>, id: Id, at: Time, maxTokens: int, refillRate: int, evicting: bool)
    requires 0 < maxTokens && 0 < refillRate
    ensures !Answer(ops, id, at, maxTokens, refillRate, evicting)
       <==> exists i :: UsedUp(ops, id, i, at, maxTokens, refillRate, evicting)
  {
    TokensExplained(ops, id, maxTokens, refillRate, evicting);
    AnswerIsGrant(ops, id, at, maxTokens, refillRate, evicting);
    var m := StateAfter(ops, maxTokens, refillRate, evicting);
    QuotientSign(0, refillRate);
    hide Quotient, StateAfter, LifeOf, RefillsFrom, GrantsFrom, Answer;
    if !Answer(ops, id, at, maxTokens, refillRate, evicting) {
      var i :| CallOnBucket(ops, id, i, refillRate, evicting)
               && m[id].tokens == Level(ops, id, i, maxTokens, refillRate, evicting);
      assert UsedUp(ops, id, i, at, maxTokens, refillRate, evicting);
    }
  }

  /** Grants are in the interval since their operation's time. */
  lemma {:induction false} GrantsFromWithin(ops: seq<Op>, id: Id, i: nat, t: Time, maxTokens: int, refillRate: int,
                                            evicting: bool)
    requires 0 < refillRate && Ordered(ops) && i < |ops| && ops[|ops| - 1].at <= t
    ensures GrantsFrom(ops, id, i, maxTokens, refillRate, evicting)
         <= GrantsWithin(ops, id, ops[i].at, t, maxTokens, refillRate, evicting)
    ensures ops[i].at <= ops[|ops| - 1].at
  {
    hide Answer;
    var before := ops[..|ops| - 1];
    if i < |before| {
      GrantsFromWithin(before, id, i, t, maxTokens, refillRate, evicting);
    } else {
      assert GrantsFrom(before, id, i, maxTokens, refillRate, evicting) == 0;
    }
  }

  lemma {:induction false} FewerLater(ops: seq<Op>, id: Id, i: nat, k: nat, maxTokens: int, refillRate: int,
                                      evicting: bool)
    requires 0 < refillRate && i <= k
    ensures GrantsFrom(ops, id, k, maxTokens, refillRate, evicting)
         <= GrantsFrom(ops, id, i, maxTokens, refillRate, evicting)
  {
    hide Answer;
    if |ops| <= k {
    } else {
      FewerLater(ops[..|ops| - 1], id, i, k, maxTokens, refillRate, evicting);
    }
  }

  lemma {:induction false} BornAtCall(ops: seq<Op>, id: Id, refillRate: int, evicting: bool)
    requires 0 < refillRate && LifeOf(ops, id, refillRate, evicting).Living?
    ensures LifeOf(ops, id, refillRate, evicting).born < |ops|
  {
    hide Quotient;
    if LifeOf(ops[..|ops| - 1], id, refillRate, evicting).Living? {
      BornAtCall(ops[..|ops| - 1], id, refillRate, evicting);
    }
  }

  /** A connection is granted its first calls: as many as a bucket holds, since the call that created it. */
  lemma FirstCallsGranted(ops: seq<Op>, id: Id, at: Time, maxTokens: int, refillRate: int, evicting: bool)
    requires 0 < maxTokens && 0 < refillRate && Ordered(ops) && (ops != [] ==> ops[|ops| - 1].at <= at)
    requires var life := LifeOf(ops, id, refillRate, evicting);
             life.Living? && life.born < |ops| ==>
               GrantsWithin(ops, id, ops[life.born].at, at, maxTokens, refillRate, evicting) < maxTokens
    ensures Answer(ops, id, at, maxTokens, refillRate, evicting)
  {
    hide LifeOf, Answer, GrantsFrom, GrantsWithin, RefillsFrom, Comes, Ordered;
    RefusedForCause(ops, id, at, maxTokens, refillRate, evicting);
    if i: nat :| UsedUp(ops, id, i, at, maxTokens, refillRate, evicting) {
      var born := LifeOf(ops, id, refillRate, evicting).born;
      FewerLater(ops, id, born, i, maxTokens, refillRate, evicting);
      GrantsFromWithin(ops, id, born, at, maxTokens, refillRate, evicting);
      assert false;
    }
  }

  /** What calls bring loses less than one interval each time, and is at least one. */
  lemma {:induction false} RefillsComeIn(ops: seq<Op>, id: Id, i: nat, refillRate: int, evicting: bool)
    requires 0 < refillRate && Ordered(ops) && CallOnBucket(ops, id, i, refillRate, evicting)
    ensures var life, n := LifeOf(ops, id, refillRate, evicting), RefillsFrom(ops, id, i + 1, refillRate, evicting);
            && life.refilled <= ops[|ops| - 1].at
            && life.refilled - ops[i].at <= 2 * (n * refillRate)
  {
    hide Quotient, Comes, RefillsFrom, LifeOf, Ordered;
    var before, last := ops[..|ops| - 1], ops[|ops| - 1];
    RefilledPast(ops, id, refillRate, evicting);
    LifeStep(ops, id, i, refillRate, evicting);
    if i < |before| {
      OrderedBefore(ops);
      RefillsComeIn(before, id, i, refillRate, evicting);
      var life, n := LifeOf(before, id, refillRate, evicting), RefillsFrom(before, id, i + 1, refillRate, evicting);
      var came := Comes(before, id, last.at, refillRate, evicting);
      if last.Call? && last.id == id && came > 0 {
        ComesWhole(before, id, last.at, refillRate, evicting);
        Distribute(n, came, refillRate);
      }
    }
  }

  lemma OrderedBefore(ops: seq<Op>)
    requires Ordered(ops) && ops != []
    ensures Ordered(ops[..|ops| - 1]) && (|ops| > 1 ==> ops[|ops| - 2].at <= ops[|ops| - 1].at)
  {}

  lemma Distribute(a: int, b: int, r: int)
    ensures (a + b) * r == a * r + b * r
  {}

  lemma ComesWhole(ops: seq<Op>, id: Id, at: Time, refillRate: int, evicting: bool)
    requires 0 < refillRate && LifeOf(ops, id, refillRate, evicting).Living?
    ensures var a, n := at - LifeOf(ops, id, refillRate, evicting).refilled, Comes(ops, id, at, refillRate, evicting);
            a < n * refillRate + refillRate && (0 < n ==> a <= 2 * (n * refillRate))
  {
    hide Quotient, LifeOf;
    var life := LifeOf(ops, id, refillRate, evicting);
    WholeRefills(at - life.refilled, Pos(Quotient(at - life.refilled, refillRate)), refillRate);
  }

  /** What the last operation does to a living bucket, told from the operations before. */
  lemma LifeStep(ops: seq<Op>, id: Id, i: nat, refillRate: int, evicting: bool)
    requires 0 < refillRate && CallOnBucket(ops, id, i, refillRate, evicting)
    ensures var before, last := ops[..|ops| - 1], ops[|ops| - 1];
            var life, was := LifeOf(ops, id, refillRate, evicting), LifeOf(before, id, refillRate, evicting);
            var came := if last.Call? && last.id == id then Comes(before, id, last.at, refillRate, evicting) else 0;
            && (i == |before| ==> RefillsFrom(ops, id, i + 1, refillRate, evicting) == 0)
            && (i < |before| ==>
                  && was.Living? && CallOnBucket(before, id, i, refillRate, evicting)
                  && life.refilled == (if came > 0 then last.at else was.refilled)
                  && RefillsFrom(ops, id, i + 1, refillRate, evicting)
                     == RefillsFrom(before, id, i + 1, refillRate, evicting) + came)
  {
    hide Quotient;
  }

  lemma WholeRefills(a: Time, n: nat, r: int)
    requires 0 < r && n == Pos(Quotient(a, r))
    ensures a < n * r + r && (0 < n ==> a <= 2 * (n * r))
  {
    if a >= 0 {
      QuotientReaches(a, n + 1, r);
      assert (n + 1) * r == n * r + r;
      if 0 < n { assert n * r == (n - 1) * r + r && (n - 1) * r >= 0; }
    } else {
      assert n * r >= 0;
      QuotientSign(-a, r);
    }
  }

  lemma {:induction false} RefilledPast(ops: seq<Op>, id: Id, refillRate: int, evicting: bool)
    requires 0 < refillRate && Ordered(ops) && LifeOf(ops, id, refillRate, evicting).Living?
    ensures LifeOf(ops, id, refillRate, evicting).refilled <= ops[|ops| - 1].at
  {
    hide Quotient;
    var before := ops[..|ops| - 1];
    if LifeOf(before, id, refillRate, evicting).Living? {
      RefilledPast(before, id, refillRate, evicting);
    }
  }

  /** In times alone: a refused call comes after a call since which a full bucket was granted, and one more
      for every two refill intervals. */
  lemma RefusedOverTime(ops: seq<Op>, id: Id, at: Time, maxTokens: int, refillRate: int, evicting: bool)
    requires 0 < maxTokens && 0 < refillRate && Ordered(ops) && (ops != [] ==> ops[|ops| - 1].at <= at)
    requires !Answer(ops, id, at, maxTokens, refillRate, evicting)
    ensures exists i :: 0 <= i < |ops| && ops[i].Call? && ops[i].id == id
              && GrantsWithin(ops, id, ops[i].at, at, maxTokens, refillRate, evicting)
                 >= maxTokens + Quotient(at - ops[i].at, 2 * refillRate)
  {
    hide Answer, GrantsFrom, GrantsWithin, RefillsFrom, Ordered, Quotient;
    RefusedForCause(ops, id, at, maxTokens, refillRate, evicting);
    var i: nat :| UsedUp(ops, id, i, at, maxTokens, refillRate, evicting);
    GrantsFromWithin(ops, id, i, at, maxTokens, refillRate, evicting);
    RefillsComeIn(ops, id, i, refillRate, evicting);
    var life, n := LifeOf(ops, id, refillRate, evicting), RefillsFrom(ops, id, i + 1, refillRate, evicting);
    var came := Comes(ops, id, at, refillRate, evicting);
    ComesWhole(ops, id, at, refillRate, evicting);
    TwiceTheTime(at - life.refilled, life.refilled - ops[i].at, came, n, refillRate);
  }

  lemma TwiceTheTime(a: int, b: int, came: nat, n: nat, r: int)
    requires 0 < r && 0 <= a + b && a < came * r + r && b <= 2 * (n * r)
    ensures Quotient(a + b, 2 * r) <= n + came
  {
    QuotientReaches(a + b, n + came + 1, 2 * r);
    QuotientSign(a + b, 2 * r);
    assert (n + came + 1) * (2 * r) == 2 * (n * r) + 2 * (came * r) + 2 * r;
    assert came * r >= 0;
  }
}
