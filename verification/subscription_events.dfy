/**
 RevenueCat webhook deliveries (external/payment/webhook.go): the event log that keeps an event from
 being processed twice, and the handlers that update the subscription table
 (external/payment/repo/repository.go). Creation and update timestamps are left aside.
 */
module SubscriptionEvents {
  import opened Common
  import opened Decimals

  type Id = string

  datatype Kind =
    | InitialPurchase
    | Renewal
    | Cancellation
    | Expiration
    | BillingIssue
    | ProductChange
    | NonRenewingPurchase
    | Transfer
    | VirtualCurrencyTransaction
    | Other(name: string)

  datatype Transaction = Transaction(originalId: Id, expiresMs: Option<int>)

  datatype Event = Event(id: Id, kind: Kind, appUser: string, userAttribute: string, product: string,
                         expirationMs: Option<int>, transactions: seq<Transaction>)

  /** How the database answers during one delivery. */
  datatype Answers = Answers(checked: bool, found: bool, userCircle: Option<int>, written: bool, logged: bool)

  datatype Delivery = Delivery(event: Event, answers: Answers)

  datatype Provider = Stripe | RevenueCat

  datatype Subscription = Subscription(user: int, circle: int, provider: Provider, externalSubscription: string,
                                       externalCustomer: string, product: string, status: string,
                                       expiresAt: Option<int>)

  type Table = map<Id, Subscription>

  datatype State = State(subscriptions: Table, log: set<Id>)

  const MAX_INT64: int := 0x7FFF_FFFF_FFFF_FFFF

  // ---------- Pieces of an event ----------

  /** A positive decimal in range, or nothing. */
  function PositiveInt(s: string): Option<int> {
    var digits := if s != "" && s[0] == '+' then s[1..] else s;
    if digits == "" || !AllDigits(digits) then None
    else
      var n := NumberOf(digits);
      if 0 < n <= MAX_INT64 then Some(n) else None
  }

  function UserOf(e: Event): Option<int> {
    if PositiveInt(e.appUser).Some? then PositiveInt(e.appUser) else PositiveInt(e.userAttribute)
  }

  /** Milliseconds to whole seconds, towards zero. */
  function Seconds(ms: int): int {
    if ms >= 0 then ms / 1000 else -(-ms / 1000)
  }

  function MapSeconds(ms: Option<int>): Option<int> {
    if ms.Some? then Some(Seconds(ms.value)) else None
  }

  /** The row an event is about. */
  function SubscriptionId(e: Event): Id {
    if e.transactions != [] then e.transactions[0].originalId else e.appUser
  }

  function TransactionExpiry(e: Event): Option<int> {
    if e.transactions == [] then None else MapSeconds(e.transactions[0].expiresMs)
  }

  function PurchaseExpiry(e: Event): Option<int> {
    if e.expirationMs.Some? then MapSeconds(e.expirationMs) else TransactionExpiry(e)
  }

  /** The user of an event is the number written in its app user id, or else in its attribute, with a sign or
      without. */
  lemma UserIsNumber(e: Event, n: nat)
    requires 0 < n <= MAX_INT64
    ensures e.appUser == Decimal(n) || e.appUser == "+" + Decimal(n) ==> UserOf(e) == Some(n)
    ensures PositiveInt(e.appUser).None? && (e.userAttribute == Decimal(n) || e.userAttribute == "+" + Decimal(n)) ==>
              UserOf(e) == Some(n)
    ensures UserOf(e) == Some(n) ==> PositiveInt(e.appUser) == Some(n) || PositiveInt(e.userAttribute) == Some(n)
  {
    NumberIsRead(n);
  }

  lemma NumberIsRead(n: nat)
    requires 0 < n <= MAX_INT64
    ensures PositiveInt(Decimal(n)) == Some(n) == PositiveInt("+" + Decimal(n))
  {
    DecimalReads(n);
    assert Decimal(n)[0] != '+';
    assert ("+" + Decimal(n))[1..] == Decimal(n);
  }

  /** A text is read as a number exactly if it is digits, after a sign perhaps, of a positive number in range. */
  lemma ReadExactly(s: string, n: int)
    ensures PositiveInt(s) == Some(n) <==>
            var digits := if "+" <= s then s[1..] else s;
            digits != "" && AllDigits(digits) && NumberOf(digits) == n && 0 < n <= 0x7FFF_FFFF_FFFF_FFFF
  {}

  /** Whole seconds, towards zero. */
  lemma SecondsOf(ms: int)
    ensures ms >= 0 ==> 0 <= ms - 1000 * Seconds(ms) <= 999
    ensures ms <= 0 ==> -999 <= ms - 1000 * Seconds(ms) <= 0
  {}

  /** A purchase runs until the event's own date, or else its transaction's, in seconds. */
  lemma PurchasedUntil(e: Event)
    ensures e.expirationMs.Some? ==>
              PurchaseExpiry(e).Some? && -999 <= e.expirationMs.value - 1000 * PurchaseExpiry(e).value <= 999
    ensures e.expirationMs.None? && e.transactions != [] && e.transactions[0].expiresMs.Some? ==>
              PurchaseExpiry(e).Some?
              && -999 <= e.transactions[0].expiresMs.value - 1000 * PurchaseExpiry(e).value <= 999
    ensures e.expirationMs.None? && (e.transactions == [] || e.transactions[0].expiresMs.None?) ==>
              PurchaseExpiry(e).None?
  {}

  // ---------- What handling an event does to the table ----------

  predicate Purchases(t: Table, e: Event, a: Answers) {
    && UserOf(e).Some? && a.userCircle.Some? && a.written
    && (e.kind == InitialPurchase || (e.kind == Renewal && e.transactions != [] && a.found && SubscriptionId(e) !in t))
  }

  predicate Updates(t: Table, e: Event, a: Answers) {
    && e.kind in {Renewal, Cancellation, Expiration, BillingIssue, ProductChange, Transfer}
    && e.transactions != [] && a.found && a.written && SubscriptionId(e) in t && SubscriptionId(e) != ""
  }

  function Purchased(e: Event, circle: int): Subscription
    requires UserOf(e).Some?
  {
    Subscription(UserOf(e).value, circle, RevenueCat, SubscriptionId(e), e.appUser, e.product, "active",
                 PurchaseExpiry(e))
  }

  /** The row as the handler leaves it. Writing skips empty strings and absent dates, so those keep what
      the row had. */
  function Updated(row: Subscription, e: Event): Subscription {
    match e.kind
    case Renewal => row.(status := "active", expiresAt := Or(TransactionExpiry(e), row.expiresAt))
    case Cancellation => row.(status := "cancelled")
    case Expiration => row.(status := "expired")
    case BillingIssue => row.(status := "billing_issue")
    case ProductChange =>
      row.(product := if e.product != "" then e.product else row.product,
           expiresAt := Or(TransactionExpiry(e), row.expiresAt))
    case Transfer =>
      if UserOf(e).None? then row
      else row.(user := UserOf(e).value,
                externalCustomer := if e.appUser != "" then e.appUser else row.externalCustomer)
    case _ => row
  }

  function Or(first: Option<int>, second: Option<int>): Option<int> {
    if first.Some? then first else second
  }

  function Handled(t: Table, e: Event, a: Answers): Table {
    if Purchases(t, e, a) then t[SubscriptionId(e) := Purchased(e, a.userCircle.value)]
    else if Updates(t, e, a) then t[SubscriptionId(e) := Updated(t[SubscriptionId(e)], e)]
    else t
  }

  /** Nothing happens for an event already logged, or when the log cannot be read. */
  function After(s: State, d: Delivery): State {
    if !d.answers.checked || d.event.id in s.log then s
    else State(Handled(s.subscriptions, d.event, d.answers), if d.answers.logged then s.log + {d.event.id} else s.log)
  }

  // ---------- The code ----------

  class Webhook {
    var subscriptions: Table
    var events: set<Id>

    ghost function View(): State
      reads this
    {
      State(subscriptions, events)
    }

    constructor ()
      ensures View() == State(map[], {})
    {
      subscriptions, events := map[], {};
    }

    method ExtractUserID(event: Event) returns (userID: int)
      ensures userID == if UserOf(event).Some? then UserOf(event).value else 0
    {
      var parsed := PositiveInt(event.appUser);
      if parsed.Some? { return parsed.value; }
      if event.userAttribute != "" {
        parsed := PositiveInt(event.userAttribute);
        if parsed.Some? { return parsed.value; }
      }
      return 0;
    }

    method HandleInitialPurchase(event: Event, a: Answers)
      modifies this`subscriptions
      ensures subscriptions ==
              if UserOf(event).Some? && a.userCircle.Some? && a.written
              then old(subscriptions)[SubscriptionId(event) := Purchased(event, a.userCircle.value)]
              else old(subscriptions)
    {
      var userID := ExtractUserID(event);
      if userID == 0 { return; }
      var subscriptionID := event.appUser;
      if |event.transactions| > 0 { subscriptionID := event.transactions[0].originalId; }
      if a.userCircle.None? { return; }
      var row := Subscription(userID, a.userCircle.value, RevenueCat, subscriptionID, event.appUser, event.product,
                              "active", None);
      if event.expirationMs.Some? { row := row.(expiresAt := Some(Seconds(event.expirationMs.value))); }
      if |event.transactions| > 0 {
        var transaction := event.transactions[0];
        if row.expiresAt.None? && transaction.expiresMs.Some? {
          row := row.(expiresAt := Some(Seconds(transaction.expiresMs.value)));
        }
      }
      if a.written { subscriptions := subscriptions[subscriptionID := row]; }
    }

    /** The lookup and the update that the other handlers share; the row is changed in between. */
    method GetSubscription(event: Event, a: Answers) returns (ok: bool, row: Option<Subscription>)
      ensures ok <==> event.transactions != [] && a.found
      ensures ok ==>
          row == if SubscriptionId(event) in subscriptions then Some(subscriptions[SubscriptionId(event)]) else None
    {
      ok, row := |event.transactions| > 0 && a.found, None;
      if ok && event.transactions[0].originalId in subscriptions {
        row := Some(subscriptions[event.transactions[0].originalId]);
      }
    }

    /** Writes the fields of `row` that are not empty. */
    method UpdateSubscription(id: Id, row: Subscription, a: Answers)
      requires id in subscriptions
      modifies this`subscriptions
      ensures subscriptions == if id == "" || !a.written then old(subscriptions) else
                old(subscriptions)[id := NonZero(old(subscriptions)[id], row)]
    {
      if id == "" { return; }
      if a.written { subscriptions := subscriptions[id := NonZero(subscriptions[id], row)]; }
    }

    method HandleRenewal(event: Event, a: Answers)
      requires event.kind == Renewal
      modifies this`subscriptions
      ensures subscriptions == Handled(old(subscriptions), event, a)
    {
      var ok, row := GetSubscription(event, a);
      if !ok { return; }
      if row.None? {
        HandleInitialPurchase(event, a);
        return;
      }
      var changed := row.value.(status := "active");
      var transaction := event.transactions[0];
      if transaction.expiresMs.Some? { changed := changed.(expiresAt := Some(Seconds(transaction.expiresMs.value))); }
      UpdateSubscription(transaction.originalId, changed, a);
    }

    method HandleCancellation(event: Event, a: Answers)
      requires event.kind == Cancellation
      modifies this`subscriptions
      ensures subscriptions == Handled(old(subscriptions), event, a)
    {
      var ok, row := GetSubscription(event, a);
      if !ok || row.None? { return; }
      UpdateSubscription(event.transactions[0].originalId, row.value.(status := "cancelled"), a);
    }

    method HandleExpiration(event: Event, a: Answers)
      requires event.kind == Expiration
      modifies this`subscriptions
      ensures subscriptions == Handled(old(subscriptions), event, a)
    {
      var ok, row := GetSubscription(event, a);
      if !ok || row.None? { return; }
      UpdateSubscription(event.transactions[0].originalId, row.value.(status := "expired"), a);
    }

    method HandleBillingIssue(event: Event, a: Answers)
      requires event.kind == BillingIssue
      modifies this`subscriptions
      ensures subscriptions == Handled(old(subscriptions), event, a)
    {
      var ok, row := GetSubscription(event, a);
      if !ok || row.None? { return; }
      UpdateSubscription(event.transactions[0].originalId, row.value.(status := "billing_issue"), a);
    }

    method HandleProductChange(event: Event, a: Answers)
      requires event.kind == ProductChange
      modifies this`subscriptions
      ensures subscriptions == Handled(old(subscriptions), event, a)
    {
      var ok, row := GetSubscription(event, a);
      if !ok || row.None? { return; }
      var changed := row.value.(product := event.product);
      var transaction := event.transactions[0];
      if transaction.expiresMs.Some? { changed := changed.(expiresAt := Some(Seconds(transaction.expiresMs.value))); }
      UpdateSubscription(transaction.originalId, changed, a);
    }

    method HandleTransfer(event: Event, a: Answers)
      requires event.kind == Transfer
      modifies this`subscriptions
      ensures subscriptions == Handled(old(subscriptions), event, a)
    {
      var ok, row := GetSubscription(event, a);
      if !ok || row.None? { return; }
      var newUserID := ExtractUserID(event);
      var changed := row.value;
      if newUserID > 0 { changed := changed.(user := newUserID, externalCustomer := event.appUser); }
      UpdateSubscription(event.transactions[0].originalId, changed, a);
    }

    method RevenueCatWebhook(event: Event, a: Answers)
      modifies this
      ensures View() == After(old(View()), Delivery(event, a))
    {
      if !a.checked { return; }
      if event.id in events { return; }
      match event.kind {
        case InitialPurchase => HandleInitialPurchase(event, a);
        case Renewal => HandleRenewal(event, a);
        case Cancellation => HandleCancellation(event, a);
        case Expiration => HandleExpiration(event, a);
        case BillingIssue => HandleBillingIssue(event, a);
        case ProductChange => HandleProductChange(event, a);
        case Transfer => HandleTransfer(event, a);
        case _ =>
      }
      if a.logged { events := events + {event.id}; }
    }
  }

  function NonZero(row: Subscription, changed: Subscription): Subscription {
    Subscription(
      if changed.user != 0 then changed.user else row.user,
      if changed.circle != 0 then changed.circle else row.circle,
      if changed.provider != Stripe then changed.provider else row.provider,
      if changed.externalSubscription != "" then changed.externalSubscription else row.externalSubscription,
      if changed.externalCustomer != "" then changed.externalCustomer else row.externalCustomer,
      if changed.product != "" then changed.product else row.product,
      if changed.status != "" then changed.status else row.status,
      if changed.expiresAt.Some? then changed.expiresAt else row.expiresAt)
  }

  // ---------- Deliveries repeated ----------

  function Run(s: State, ds: seq<Delivery>): State {
    if ds == [] then s else After(Run(s, ds[..|ds| - 1]), ds[|ds| - 1])
  }

  /** The ids that a run has looked up in the log, on top of those in it at the start. */
  function Seen(ds: seq<Delivery>, log: set<Id>): set<Id> {
    if ds == [] then log
    else Seen(ds[..|ds| - 1], log) + if ds[|ds| - 1].answers.checked then {ds[|ds| - 1].event.id} else {}
  }

  /** The first delivery of each event, among those that could look up the log. */
  function Firsts(ds: seq<Delivery>, log: set<Id>): seq<Delivery> {
    if ds == [] then []
    else
      var before, d := ds[..|ds| - 1], ds[|ds| - 1];
      Firsts(before, log) + if d.answers.checked && d.event.id !in Seen(before, log) then [d] else []
  }

  /** With every processed event logged, deliveries repeated any number of times in any positions, with
      whatever answers, leave the same subscriptions and log as the first of each event alone. */
  lemma {:induction false} DuplicatesChangeNothing(s: State, ds: seq<Delivery>)
    requires forall i :: 0 <= i < |ds| ==> ds[i].answers.logged
    ensures Run(s, ds) == Run(s, Firsts(ds, s.log))
    ensures Run(s, ds).log == Seen(ds, s.log)
  {
    if ds == [] {
    } else {
      var before, d := ds[..|ds| - 1], ds[|ds| - 1];
      DuplicatesChangeNothing(s, before);
      var firsts := Firsts(before, s.log);
      assert (firsts + [d])[..|firsts|] == firsts;
      assert firsts + [] == firsts;
    }
  }

  /** The first deliveries are of distinct events, none of them logged before, and are the only ones
      taken from each event's deliveries. */
  lemma {:induction false} FirstsAreDistinct(ds: seq<Delivery>, log: set<Id>, i: nat)
    requires i < |Firsts(ds, log)|
    ensures Firsts(ds, log)[i].event.id !in log && Firsts(ds, log)[i] in ds
    ensures Firsts(ds, log)[i].event.id in Seen(ds, log)
    ensures forall j :: 0 <= j < i ==> Firsts(ds, log)[j].event.id != Firsts(ds, log)[i].event.id
  {
    var before := ds[..|ds| - 1];
    var firsts := Firsts(before, log);
    SeenKeepsLog(before, log);
    if i < |firsts| {
      FirstsAreDistinct(before, log, i);
    } else {
      forall j | 0 <= j < i ensures Firsts(ds, log)[j].event.id != Firsts(ds, log)[i].event.id {
        FirstsAreDistinct(before, log, j);
      }
    }
  }

  lemma {:induction false} SeenKeepsLog(ds: seq<Delivery>, log: set<Id>)
    ensures log <= Seen(ds, log)
  {
    if ds == [] {
    } else {
      SeenKeepsLog(ds[..|ds| - 1], log);
    }
  }

  // ---------- What one event can change ----------

  /** Only the row of the event's own subscription changes, no row is ever removed, and only a purchase
      or the renewal of an unknown subscription adds one. */
  lemma OnlyOwnRow(t: Table, e: Event, a: Answers, id: Id)
    ensures id != SubscriptionId(e) ==> (id in t <==> id in Handled(t, e, a))
    ensures id in t ==> id in Handled(t, e, a) && (id != SubscriptionId(e) ==> Handled(t, e, a)[id] == t[id])
    ensures id in Handled(t, e, a) && id !in t ==> e.kind == InitialPurchase || e.kind == Renewal
  {}

  // ---------- What an event does to a row ----------

  /** The fields a change sets. */
  datatype Change = Change(user: Option<int>, circle: Option<int>, provider: Option<Provider>,
                           externalSubscription: Option<string>, externalCustomer: Option<string>,
                           product: Option<string>, status: Option<string>, expiresAt: Option<Option<int>>)

  const NO_CHANGE := Change(None, None, None, None, None, None, None, None)

  function Pick<T>(change: Option<T>, current: T): T {
    if change.Some? then change.value else current
  }

  function Applied(c: Change, row: Subscription): Subscription {
    Subscription(Pick(c.user, row.user), Pick(c.circle, row.circle), Pick(c.provider, row.provider),
                 Pick(c.externalSubscription, row.externalSubscription), Pick(c.externalCustomer, row.externalCustomer),
                 Pick(c.product, row.product), Pick(c.status, row.status), Pick(c.expiresAt, row.expiresAt))
  }

  function Over<T>(later: Option<T>, earlier: Option<T>): Option<T> {
    if later.Some? then later else earlier
  }

  /** One change, and another after it. */
  function Then(c: Change, d: Change): Change {
    Change(Over(d.user, c.user), Over(d.circle, c.circle), Over(d.provider, c.provider),
           Over(d.externalSubscription, c.externalSubscription), Over(d.externalCustomer, c.externalCustomer),
           Over(d.product, c.product), Over(d.status, c.status), Over(d.expiresAt, c.expiresAt))
  }

  function NonEmpty(s: string): Option<string> {
    if s == "" then None else Some(s)
  }

  function Dated(at: Option<int>): Option<Option<int>> {
    if at.None? then None else Some(at)
  }

  /** What each kind of event sets in a row that is there. */
  function ChangeByKind(e: Event, circle: Option<int>): Change {
    match e.kind
    case InitialPurchase =>
      if UserOf(e).None? || circle.None? then NO_CHANGE
      else Change(UserOf(e), circle, Some(RevenueCat), Some(SubscriptionId(e)), Some(e.appUser), Some(e.product),
                  Some("active"), Some(PurchaseExpiry(e)))
    case Renewal => NO_CHANGE.(status := Some("active"), expiresAt := Dated(TransactionExpiry(e)))
    case Cancellation => NO_CHANGE.(status := Some("cancelled"))
    case Expiration => NO_CHANGE.(status := Some("expired"))
    case BillingIssue => NO_CHANGE.(status := Some("billing_issue"))
    case ProductChange => NO_CHANGE.(product := NonEmpty(e.product), expiresAt := Dated(TransactionExpiry(e)))
    case Transfer =>
      if UserOf(e).None? then NO_CHANGE else NO_CHANGE.(user := UserOf(e), externalCustomer := NonEmpty(e.appUser))
    case _ => NO_CHANGE
  }

  /** The same, with what can keep the event from having an effect on the row. */
  function ChangeOf(e: Event, a: Answers, id: Id): Change {
    if SubscriptionId(e) != id || !a.written then NO_CHANGE
    else if e.kind == InitialPurchase then ChangeByKind(e, a.userCircle)
    else if e.transactions == [] || !a.found || id == "" then NO_CHANGE
    else ChangeByKind(e, None)
  }

  lemma ChangeOnRow(t: Table, e: Event, a: Answers, id: Id)
    requires id in t
    ensures id in Handled(t, e, a) && Handled(t, e, a)[id] == Applied(ChangeOf(e, a, id), t[id])
  {
    AppliedNothing(t[id]);
    if SubscriptionId(e) != id {
      OnlyOwnRow(t, e, a, id);
    } else {
      hide Applied;
      if e.kind != InitialPurchase { UpdatedByKind(t[id], e); }
      if UserOf(e).Some? && a.userCircle.Some? && e.kind == InitialPurchase {
        PurchasedByKind(t[id], e, a.userCircle.value);
      }
    }
  }

  lemma UpdatedByKind(row: Subscription, e: Event)
    requires e.kind != InitialPurchase
    ensures Applied(ChangeByKind(e, None), row) == Updated(row, e)
  {}

  lemma PurchasedByKind(row: Subscription, e: Event, circle: int)
    requires e.kind == InitialPurchase && UserOf(e).Some?
    ensures Applied(ChangeByKind(e, Some(circle)), row) == Purchased(e, circle)
  {}

  // ---------- Redelivery ----------

  /** The change would set only what is there. */
  predicate Holds(c: Change, row: Subscription) {
    && (c.user.Some? ==> c.user.value == row.user)
    && (c.circle.Some? ==> c.circle.value == row.circle)
    && (c.provider.Some? ==> c.provider.value == row.provider)
    && (c.externalSubscription.Some? ==> c.externalSubscription.value == row.externalSubscription)
    && (c.externalCustomer.Some? ==> c.externalCustomer.value == row.externalCustomer)
    && (c.product.Some? ==> c.product.value == row.product)
    && (c.status.Some? ==> c.status.value == row.status)
    && (c.expiresAt.Some? ==> c.expiresAt.value == row.expiresAt)
  }

  /** A known row already holds what the event sets; an unknown one is not bought by it. */
  predicate Absorbed(t: Table, e: Event, a: Answers) {
    var id := SubscriptionId(e);
    if id in t then Holds(ChangeOf(e, a, id), t[id]) else !Purchases(t, e, a)
  }

  /** Delivered to any table, whatever came before, an event changes nothing exactly when it is absorbed. */
  lemma NothingToDo(t: Table, e: Event, a: Answers)
    ensures Handled(t, e, a) == t <==> Absorbed(t, e, a)
  {
    var id := SubscriptionId(e);
    if id in t {
      ChangeOnRow(t, e, a, id);
      HoldsIsFixed(ChangeOf(e, a, id), t[id]);
      forall k ensures k != id ==> (k in t <==> k in Handled(t, e, a)) && (k in t ==> Handled(t, e, a)[k] == t[k]) {
        OnlyOwnRow(t, e, a, k);
      }
      if Handled(t, e, a)[id] == t[id] { assert Handled(t, e, a) == t; }
    } else if Purchases(t, e, a) {
      assert id in Handled(t, e, a);
    }
  }

  lemma HoldsIsFixed(c: Change, row: Subscription)
    ensures Applied(c, row) == row <==> Holds(c, row)
  {}

  /** The status kinds, spelled out: a known subscription absorbs them exactly when it has the status. */
  lemma StatusAbsorbed(t: Table, e: Event, a: Answers)
    requires e.kind in {Cancellation, Expiration, BillingIssue} && Updates(t, e, a)
    ensures Handled(t, e, a) == t <==>
            t[SubscriptionId(e)].status ==
            if e.kind == Cancellation then "cancelled" else if e.kind == Expiration then "expired" else "billing_issue"
  {
    NothingToDo(t, e, a);
  }

  /** What a run of deliveries sets in one row, the later over the earlier. */
  function NetChange(s: State, ds: seq<Delivery>, id: Id): Change {
    if ds == [] then NO_CHANGE
    else
      var before, d := ds[..|ds| - 1], ds[|ds| - 1];
      var earlier := NetChange(s, before, id);
      if !d.answers.checked || d.event.id in Run(s, before).log then earlier
      else Then(earlier, ChangeOf(d.event, d.answers, id))
  }

  lemma ThenApplied(c: Change, d: Change, row: Subscription)
    ensures Applied(Then(c, d), row) == Applied(d, Applied(c, row))
  {}

  lemma {:induction false} NetChangeOnRow(s: State, ds: seq<Delivery>, id: Id)
    requires id in s.subscriptions
    ensures id in Run(s, ds).subscriptions
    ensures Run(s, ds).subscriptions[id] == Applied(NetChange(s, ds, id), s.subscriptions[id])
  {
    hide Applied, Then, Handled, ChangeOf;
    var row := s.subscriptions[id];
    if ds == [] {
      AppliedNothing(row);
    } else {
      var before, d := ds[..|ds| - 1], ds[|ds| - 1];
      NetChangeOnRow(s, before, id);
      ChangeOnRow(Run(s, before).subscriptions, d.event, d.answers, id);
      ThenApplied(NetChange(s, before, id), ChangeOf(d.event, d.answers, id), row);
    }
  }

  lemma AppliedNothing(row: Subscription)
    ensures Applied(NO_CHANGE, row) == row
  {}

  predicate Agree<T(==)>(c: Option<T>, d: Option<T>) {
    c.Some? && d.Some? ==> c == d
  }

  /** Where both changes set a field they set it alike. */
  predicate Compatible(c: Change, d: Change) {
    && Agree(c.user, d.user) && Agree(c.circle, d.circle) && Agree(c.provider, d.provider)
    && Agree(c.externalSubscription, d.externalSubscription) && Agree(c.externalCustomer, d.externalCustomer)
    && Agree(c.product, d.product) && Agree(c.status, d.status) && Agree(c.expiresAt, d.expiresAt)
  }

  lemma HoldsAfter(c: Change, net: Change, row: Subscription)
    requires Holds(c, row)
    ensures Holds(c, Applied(net, row)) <==> Compatible(c, net)
  {}

  /** The event buys, as a renewal, a subscription that was not known, and dates it otherwise than it will
      when it is known. */
  predicate DatedOtherwise(t: Table, e: Event, a: Answers) {
    e.kind == Renewal && Purchases(t, e, a) && SubscriptionId(e) != ""
    && TransactionExpiry(e).Some? && TransactionExpiry(e) != PurchaseExpiry(e)
  }

  lemma {:induction false} RunInTwo(s: State, first: seq<Delivery>, rest: seq<Delivery>)
    ensures Run(s, first + rest) == Run(Run(s, first), rest)
  {
    hide After;
    if rest == [] {
      assert first + rest == first;
    } else {
      assert (first + rest)[..|first + rest| - 1] == first + rest[..|rest| - 1];
      RunInTwo(s, first, rest[..|rest| - 1]);
    }
  }

  /** An event delivered again after any other deliveries, not logged by then, and met with any answers the
      second time. From any point on at which its subscription is known: the redelivery changes nothing
      exactly when the row at that point, with whatever was set in it since, holds what the event now sets.
      If the subscription is still unknown: exactly when the event does not buy it. */
  lemma Redelivered(s: State, d: Delivery, others: seq<Delivery>, again: Answers, n: nat)
    requires again.checked && n <= |others| && d.event.id !in Run(After(s, d), others).log
    ensures var id, known, end := SubscriptionId(d.event), Run(After(s, d), others[..n]), Run(After(s, d), others);
            && (id in known.subscriptions ==>
                  (After(end, Delivery(d.event, again)).subscriptions == end.subscriptions <==>
                   Holds(ChangeOf(d.event, again, id),
                         Applied(NetChange(known, others[n..], id), known.subscriptions[id]))))
            && (id !in end.subscriptions ==>
                  (After(end, Delivery(d.event, again)).subscriptions == end.subscriptions <==>
                   !Purchases(end.subscriptions, d.event, again)))
  {
    hide Holds, Applied, ChangeOf, Handled, NetChange, Run, Purchases, SubscriptionId;
    var id, known, end := SubscriptionId(d.event), Run(After(s, d), others[..n]), Run(After(s, d), others);
    RunInTwo(After(s, d), others[..n], others[n..]);
    assert others[..n] + others[n..] == others;
    if id in known.subscriptions { NetChangeOnRow(known, others[n..], id); }
    NothingToDo(end.subscriptions, d.event, again);
  }

  /** With the answers of the first time, and its subscription known after that: exactly when whatever the
      others set last, in the fields this event sets, is what this event sets; and, if it bought its
      subscription by a renewal that dates it otherwise, one of the others set the date. */
  lemma RedeliveredAlike(s: State, d: Delivery, others: seq<Delivery>)
    requires d.answers.checked && !d.answers.logged && d.event.id !in s.log
    requires SubscriptionId(d.event) in After(s, d).subscriptions
    requires d.event.id !in Run(After(s, d), others).log
    ensures var id, s1 := SubscriptionId(d.event), After(s, d);
            var c, net := ChangeOf(d.event, d.answers, id), NetChange(s1, others, id);
            After(Run(s1, others), d).subscriptions == Run(s1, others).subscriptions <==>
            Compatible(c, net) && (DatedOtherwise(s.subscriptions, d.event, d.answers) ==> net.expiresAt.Some?)
  {
    var id, s1 := SubscriptionId(d.event), After(s, d);
    var c, net, row := ChangeOf(d.event, d.answers, id), NetChange(s1, others, id), s1.subscriptions[id];
    NetChangeOnRow(s1, others, id);
    NothingToDo(Run(s1, others).subscriptions, d.event, d.answers);
    SetByItself(s.subscriptions, d.event, d.answers);
    if DatedOtherwise(s.subscriptions, d.event, d.answers) {
      OtherwiseHolds(c, net, row);
    } else {
      HoldsAfter(c, net, row);
    }
  }

  /** Right after an event its row holds what it sets, but for the date of a renewal that bought it. */
  lemma SetByItself(t: Table, e: Event, a: Answers)
    requires SubscriptionId(e) in Handled(t, e, a)
    ensures var c, row := ChangeOf(e, a, SubscriptionId(e)), Handled(t, e, a)[SubscriptionId(e)];
            && Holds(c.(expiresAt := None), row)
            && (Holds(c, row) <==> !DatedOtherwise(t, e, a))
            && (DatedOtherwise(t, e, a) ==> c.expiresAt.Some? && c.expiresAt.value != row.expiresAt)
  {}

  lemma OtherwiseHolds(c: Change, net: Change, row: Subscription)
    requires c.expiresAt.Some? && c.expiresAt.value != row.expiresAt && Holds(c.(expiresAt := None), row)
    ensures Holds(c, Applied(net, row)) <==> Compatible(c, net) && net.expiresAt.Some?
  {}

  // ---------- Runs in which the log may lose events ----------

  /** The n-th delivery is processed although its event was processed before. */
  predicate Reprocessed(s: State, ds: seq<Delivery>, n: nat)
    requires n < |ds|
  {
    ds[n].answers.checked && ds[n].event.id !in Run(s, ds[..n]).log && ds[n].event.id in Seen(ds[..n], s.log)
  }

  predicate AbsorbedIfReprocessed(s: State, ds: seq<Delivery>, n: nat)
    requires n < |ds|
  {
    Reprocessed(s, ds, n) ==> Absorbed(Run(s, ds[..n]).subscriptions, ds[n].event, ds[n].answers)
  }

  predicate AsFirsts(s: State, ds: seq<Delivery>, n: nat)
    requires n <= |ds|
  {
    Run(s, ds[..n]).subscriptions == Run(s, Firsts(ds[..n], s.log)).subscriptions
  }

  /** Each distinct event is processed at its first delivery, logged or not. */
  lemma {:induction false} FirstsLog(s: State, ds: seq<Delivery>)
    ensures Run(s, Firsts(ds, s.log)).log <= Seen(ds, s.log)
    ensures Run(s, ds).log <= Seen(ds, s.log)
  {
    if ds == [] {
    } else {
      var before, d := ds[..|ds| - 1], ds[|ds| - 1];
      FirstsLog(s, before);
      var firsts := Firsts(before, s.log);
      assert (firsts + [d])[..|firsts|] == firsts;
      assert firsts + [] == firsts;
    }
  }

  /** One more delivery: unless it reprocesses an event, the run and the run of first deliveries take the
      same step, or none. */
  lemma OneMoreDelivery(s: State, ds: seq<Delivery>, n: nat)
    requires n < |ds| && AsFirsts(s, ds, n)
    ensures AsFirsts(s, ds, n + 1) <==> AbsorbedIfReprocessed(s, ds, n)
  {
    hide Handled, Absorbed;
    var before, d := ds[..n], ds[n];
    assert ds[..n + 1][..n] == before && ds[..n + 1][n] == d;
    FirstsLog(s, before);
    SeenKeepsLog(before, s.log);
    NothingToDo(Run(s, before).subscriptions, d.event, d.answers);
    var firsts := Firsts(before, s.log);
    assert (firsts + [d])[..|firsts|] == firsts;
    assert firsts + [] == firsts;
  }

  lemma NoneYet(s: State, ds: seq<Delivery>)
    ensures AsFirsts(s, ds, 0)
  {
    assert ds[..0] == [];
  }

  /** With any failures of the log: at every point up to the m-th delivery the run has the subscriptions
      that the first delivery of each event alone would leave, exactly when every event processed again
      is absorbed. */
  lemma {:induction false} LostLogEntries(s: State, ds: seq<Delivery>, m: nat)
    requires m <= |ds|
    ensures (forall n :: 0 <= n <= m ==> AsFirsts(s, ds, n))
       <==> (forall n :: 0 <= n < m ==> AbsorbedIfReprocessed(s, ds, n))
  {
    hide *;
    if m == 0 {
      NoneYet(s, ds);
    } else {
      LostLogEntries(s, ds, m - 1);
      if AsFirsts(s, ds, m - 1) { OneMoreDelivery(s, ds, m - 1); }
    }
  }

  // ---------- Two cases ----------

  /** Processing an event a second time straight away leaves the table as it was, except when the event
      renews an unknown subscription and dates it differently as a purchase and as a renewal. */
  lemma ReprocessedAtOnce(t: Table, e: Event, a: Answers)
    ensures Handled(Handled(t, e, a), e, a) == Handled(t, e, a) <==>
            !(e.kind == Renewal && Purchases(t, e, a) && SubscriptionId(e) != ""
              && TransactionExpiry(e).Some? && TransactionExpiry(e) != PurchaseExpiry(e))
  {
    var id := SubscriptionId(e);
    var once := Handled(t, e, a);
    var twice := Handled(once, e, a);
    if Purchases(t, e, a) || Updates(t, e, a) {
      assert twice == once <==> twice[id] == once[id] by {
        if twice[id] == once[id] { assert twice == once[id := once[id]] == once; }
      }
    }
  }

  /** Later on it matters: if a purchase is not logged and is delivered again after its cancellation, the
      subscription is active again. */
  lemma LostLogEntryReactivates(purchase: Event, cancel: Event, a: Answers)
    requires purchase.kind == InitialPurchase && cancel.kind == Cancellation && purchase.id != cancel.id
    requires cancel.transactions != [] && SubscriptionId(cancel) == SubscriptionId(purchase) != ""
    requires UserOf(purchase).Some? && a.userCircle.Some? && a.found && a.written && a.checked && !a.logged
    ensures var id, bought, ended := SubscriptionId(purchase), Delivery(purchase, a), Delivery(cancel, a);
            var once, again := Run(State(map[], {}), [bought, ended]), Run(State(map[], {}), [bought, ended, bought]);
            && id in once.subscriptions && once.subscriptions[id].status == "cancelled"
            && id in again.subscriptions && again.subscriptions[id].status == "active"
  {
    var bought, ended := Delivery(purchase, a), Delivery(cancel, a);
    var start := State(map[], {});
    assert [bought][..0] == [] && [bought, ended][..1] == [bought] && [bought, ended, bought][..2] == [bought, ended];
    assert Run(start, []) == start;
    assert Run(start, [bought]) == After(start, bought);
    assert Run(start, [bought, ended]) == After(Run(start, [bought]), ended);
    assert Run(start, [bought, ended, bought]) == After(Run(start, [bought, ended]), bought);
  }
}
