/**
 One real-time connection (internal/realtime/connection.go): a bounded event channel, a `closed`
 flag and the locked methods around them. Each locked method is one step; senders, closers and the
 reader interleave freely between steps.
 */
module Connections {

  const SEND_BUFFER: nat := 256

  /** An event; nothing here looks inside it. */
  datatype Event = Event(kind: string, payload: string)

  type Time = int

  // ---------- Steps, on a channel that can go wrong ----------

  datatype Action = Send(event: Event) | Close | Receive

  /** `panicked` records what the runtime would do on a send to a closed channel or a second close.
      `accepted` and `received` are the events that went in and came out, oldest first. */
  datatype State = State(
    closed: bool,
    buffer: seq<Event>,
    channelClosed: bool,
    panicked: bool,
    accepted: seq<Event>,
    received: seq<Event>)

  const INITIAL := State(false, [], false, false, [], [])

  /** The channel's own send: panics when closed, refuses when full. */
  function ChannelSend(s: State, e: Event): (State, bool) {
    if s.channelClosed then (s.(panicked := true), false)
    else if |s.buffer| < SEND_BUFFER then (s.(buffer := s.buffer + [e], accepted := s.accepted + [e]), true)
    else (s, false)
  }

  function ChannelClose(s: State): State {
    if s.channelClosed then s.(panicked := true) else s.(channelClosed := true)
  }

  function Step(s: State, a: Action): State {
    match a
    case Send(e) =>
      if s.closed then s
      else
        var (sent, ok) := ChannelSend(s, e);
        if ok then sent else sent.(closed := true)
    case Close =>
      if s.closed then s else ChannelClose(s.(closed := true))
    case Receive =>
      if s.buffer == [] then s
      else s.(buffer := s.buffer[1..], received := s.received + [s.buffer[0]])
  }

  function Run(s: State, actions: seq<Action>): State {
    if actions == [] then s else Step(Run(s, actions[..|actions| - 1]), actions[|actions| - 1])
  }

  /** Open, with a free place in the buffer. */
  predicate Roomy(s: State) {
    !s.closed && |s.buffer| < SEND_BUFFER
  }

  ghost predicate Sound(s: State) {
    && !s.panicked
    && |s.buffer| <= SEND_BUFFER
    && s.received + s.buffer == s.accepted
    && (s.channelClosed ==> s.closed)
  }

  lemma StepSound(s: State, a: Action)
    requires Sound(s)
    ensures Sound(Step(s, a))
    ensures s.closed ==> Step(s, a).closed && Step(s, a).accepted == s.accepted
                         && Step(s, a).channelClosed == s.channelClosed
    ensures s.received <= Step(s, a).received && s.accepted <= Step(s, a).accepted
  {
    match a {
      case Send(e) => assert s.received + (s.buffer + [e]) == (s.received + s.buffer) + [e];
      case Close =>
      case Receive =>
        if s.buffer != [] {
          assert s.received + [s.buffer[0]] + s.buffer[1..] == s.received + ([s.buffer[0]] + s.buffer[1..]);
          assert [s.buffer[0]] + s.buffer[1..] == s.buffer;
        }
    }
  }

  /** Under every interleaving: the channel is never sent to after it is closed and never closed
      twice, it holds at most 256 events, and what was received followed by what is buffered is
      exactly what was accepted, in order. */
  lemma {:induction false} NeverPanics(actions: seq<Action>)
    ensures Sound(Run(INITIAL, actions))
  {
    if actions == [] {
    } else {
      NeverPanics(actions[..|actions| - 1]);
      StepSound(Run(INITIAL, actions[..|actions| - 1]), actions[|actions| - 1]);
    }
  }

  lemma {:induction false} ClosedIsFinal(s: State, actions: seq<Action>)
    requires Sound(s) && s.closed
    ensures var t := Run(s, actions);
            Sound(t) && t.closed && t.accepted == s.accepted && t.channelClosed == s.channelClosed
  {
    if actions == [] {
    } else {
      ClosedIsFinal(s, actions[..|actions| - 1]);
      StepSound(Run(s, actions[..|actions| - 1]), actions[|actions| - 1]);
    }
  }

  lemma {:induction false} RunSplit(s: State, first: seq<Action>, rest: seq<Action>)
    ensures Run(s, first + rest) == Run(Run(s, first), rest)
  {
    if rest == [] {
      assert first + rest == first;
    } else {
      assert (first + rest)[..|first + rest| - 1] == first + rest[..|rest| - 1];
      RunSplit(s, first, rest[..|rest| - 1]);
    }
  }

  /** Nothing is accepted once `closed` is set, whatever happens afterwards. */
  lemma NothingAcceptedOnceClosed(actions: seq<Action>, n: nat)
    requires n <= |actions| && Run(INITIAL, actions[..n]).closed
    ensures Run(INITIAL, actions).closed
    ensures Run(INITIAL, actions).accepted == Run(INITIAL, actions[..n]).accepted
  {
    NeverPanics(actions[..n]);
    ClosedIsFinal(Run(INITIAL, actions[..n]), actions[n..]);
    assert actions[..n] + actions[n..] == actions;
    RunSplit(INITIAL, actions[..n], actions[n..]);
  }

  /** Step `n` is a send that finds the channel of an open connection full. */
  ghost predicate OverflowAt(actions: seq<Action>, n: nat) {
    && n < |actions| && actions[n].Send?
    && var s := Run(INITIAL, actions[..n]); !s.closed && |s.buffer| == SEND_BUFFER
  }

  /** Step `n` is a `Close` that finds the connection open. */
  ghost predicate CloseAt(actions: seq<Action>, n: nat) {
    n < |actions| && actions[n].Close? && !Run(INITIAL, actions[..n]).closed
  }

  lemma Earlier(actions: seq<Action>, n: nat)
    requires n < |actions| - 1
    ensures OverflowAt(actions, n) == OverflowAt(actions[..|actions| - 1], n)
    ensures CloseAt(actions, n) == CloseAt(actions[..|actions| - 1], n)
  {
    assert actions[..|actions| - 1][..n] == actions[..n];
  }

  /** Which step closed the connection decides, for good, whether its channel is ever closed: a
      `Close` that came first closes it, but after an overflow every later `Close` returns early, so
      the reader never sees the channel close. `closed` alone does not say which. */
  lemma {:induction false} ChannelFate(actions: seq<Action>)
    ensures var s := Run(INITIAL, actions); s.closed && !s.channelClosed <==> exists n: nat :: OverflowAt(actions, n)
    ensures Run(INITIAL, actions).channelClosed <==> exists n: nat :: CloseAt(actions, n)
  {
    if actions == [] {
      assert forall n: nat :: !OverflowAt(actions, n) && !CloseAt(actions, n);
    } else {
      var last := |actions| - 1;
      var before := actions[..last];
      ChannelFate(before);
      NeverPanics(before);
      forall n: nat | n < last
        ensures OverflowAt(actions, n) == OverflowAt(before, n) && CloseAt(actions, n) == CloseAt(before, n)
      {
        Earlier(actions, n);
      }
      var s := Run(INITIAL, before);
      assert OverflowAt(actions, last) <==> actions[last].Send? && !s.closed && |s.buffer| == SEND_BUFFER;
      assert CloseAt(actions, last) <==> actions[last].Close? && !s.closed;
      assert forall n: nat :: OverflowAt(before, n) ==> OverflowAt(actions, n);
      assert forall n: nat :: CloseAt(before, n) ==> CloseAt(actions, n);
      assert forall n: nat :: OverflowAt(actions, n) ==> n == last || OverflowAt(before, n);
      assert forall n: nat :: CloseAt(actions, n) ==> n == last || CloseAt(before, n);
    }
  }

  function Sends(e: Event, n: nat): seq<Action> {
    if n == 0 then [] else Sends(e, n - 1) + [Send(e)]
  }

  lemma {:induction false} Filling(e: Event, n: nat)
    requires n <= SEND_BUFFER
    ensures |Sends(e, n)| == n
    ensures var s := Run(INITIAL, Sends(e, n)); !s.closed && !s.channelClosed && !s.panicked && |s.buffer| == n
  {
    if n == 0 {
    } else {
      Filling(e, n - 1);
      assert Sends(e, n)[..n - 1] == Sends(e, n - 1);
    }
  }

  /** One send more than the buffer holds, with nobody reading, closes the connection and not its channel;
      a Close after that still does not. */
  lemma OverflowThenClose(e: Event)
    ensures var actions := Sends(e, 257);
            && OverflowAt(actions, 256)
            && Run(INITIAL, actions).closed && !Run(INITIAL, actions).channelClosed
            && !Run(INITIAL, actions + [Close]).channelClosed
  {
    Filling(e, SEND_BUFFER);
    var full, actions := Sends(e, SEND_BUFFER), Sends(e, SEND_BUFFER + 1);
    assert actions == full + [Send(e)] && actions[..SEND_BUFFER] == full;
    assert actions[..|actions| - 1] == full;
    assert (actions + [Close])[..|actions|] == actions;
  }

  function Receives(n: nat): seq<Action> {
    if n == 0 then [] else Receives(n - 1) + [Receive]
  }

  /** Reading takes the buffered events one by one, oldest first; whatever was accepted is received in the end. */
  lemma {:induction false} Draining(s: State, n: nat)
    requires n <= |s.buffer|
    ensures Run(s, Receives(n)) == s.(buffer := s.buffer[n..], received := s.received + s.buffer[..n])
  {
    hide Run, Step;
    if n == 0 {
      NoSteps(s);
    } else {
      Draining(s, n - 1);
      assert Receives(n) == Receives(n - 1) + [Receive];
      LastStepIs(s, Receives(n - 1), Receive);
      OneRead(s, n - 1);
    }
  }

  lemma NoSteps(s: State)
    ensures Run(s, []) == s && s.buffer[0..] == s.buffer && s.received + s.buffer[..0] == s.received
  {}

  lemma LastStepIs(s: State, actions: seq<Action>, a: Action)
    ensures Run(s, actions + [a]) == Step(Run(s, actions), a)
  {
    assert (actions + [a])[..|actions|] == actions;
  }

  lemma OneRead(s: State, n: nat)
    requires n < |s.buffer|
    ensures Step(s.(buffer := s.buffer[n..], received := s.received + s.buffer[..n]), Receive)
         == s.(buffer := s.buffer[n + 1..], received := s.received + s.buffer[..n + 1])
  {
    assert s.buffer[n..][0] == s.buffer[n] && s.buffer[n..][1..] == s.buffer[n + 1..];
    assert s.received + s.buffer[..n] + [s.buffer[n]] == s.received + s.buffer[..n + 1];
  }

  /** After any steps, as many reads as events are buffered hand over everything accepted, and no more. */
  lemma EverythingIsRead(actions: seq<Action>)
    ensures var s := Run(INITIAL, actions);
            var t := Run(s, Receives(|s.buffer|));
            && t.received == s.accepted == t.accepted && t.buffer == []
            && Step(t, Receive) == t && t.closed == s.closed && t.channelClosed == s.channelClosed
  {
    var s := Run(INITIAL, actions);
    NeverPanics(actions);
    Draining(s, |s.buffer|);
    assert s.buffer[..|s.buffer|] == s.buffer;
  }

  // ---------- The connection ----------

  /** The steps taken so far are kept in a ghost log, so the results above speak of every
      connection: its state is always the run of its log. */
  class Connection {
    const ID: string
    const CircleID: int
    const UserID: int
    var closed: bool
    var lastActivity: Time
    /** The `Send` channel: what is buffered, and whether it has been closed. */
    var buffer: seq<Event>
    var channelClosed: bool
    ghost var accepted: seq<Event>
    ghost var received: seq<Event>
    ghost var log: seq<Action>

    ghost function View(): State
      reads this
    {
      State(closed, buffer, channelClosed, false, accepted, received)
    }

    ghost predicate Valid()
      reads this
    {
      View() == Run(INITIAL, log)
    }

    constructor (id: string, circleID: int, userID: int, now: Time)
      ensures Valid() && log == [] && lastActivity == now
      ensures ID == id && CircleID == circleID && UserID == userID
    {
      ID, CircleID, UserID := id, circleID, userID;
      closed, lastActivity := false, now;
      buffer, channelClosed := [], false;
      accepted, received, log := [], [], [];
    }

    predicate IsStale(threshold: int, now: Time)
      reads this
    {
      now - lastActivity > threshold
    }

    /** Sending on a closed channel panics, so the caller must know it is open. */
    method TrySend(e: Event) returns (sent: bool)
      requires !channelClosed
      modifies `buffer, `accepted
      ensures (View(), sent) == ChannelSend(old(View()), e)
    {
      sent := |buffer| < SEND_BUFFER;
      if sent {
        buffer := buffer + [e];
        accepted := accepted + [e];
      }
    }

    /** Closing a closed channel panics. */
    method CloseChannel()
      requires !channelClosed
      modifies `channelClosed
      ensures View() == ChannelClose(old(View()))
    {
      channelClosed := true;
    }

    method Close()
      requires Valid()
      modifies this
      ensures Valid() && closed && log == old(log) + [Action.Close] && lastActivity == old(lastActivity)
    {
      NeverPanics(log);
      log := log + [Action.Close];
      assert log[..|log| - 1] == old(log);
      if closed {
        return;
      }
      closed := true;
      CloseChannel();
    }

    method UpdateActivity(now: Time)
      requires Valid()
      modifies `lastActivity
      ensures Valid() && lastActivity == now
    {
      lastActivity := now;
    }

    method SendEvent(e: Event) returns (sent: bool)
      requires Valid()
      modifies this
      ensures Valid() && log == old(log) + [Send(e)] && lastActivity == old(lastActivity)
      ensures sent == Roomy(old(View())) && accepted == old(accepted) + if sent then [e] else []
      ensures closed == !sent
    {
      NeverPanics(log);
      log := log + [Send(e)];
      assert log[..|log| - 1] == old(log);
      if closed {
        return false;
      }
      sent := TrySend(e);
      if !sent {
        closed := true;
      }
    }

    /** The reader's side of the channel: an event if one is buffered; otherwise the end of the
        stream if the channel is closed, or a wait. */
    method Receive() returns (e: seq<Event>, done: bool)
      requires Valid()
      modifies this
      ensures Valid() && log == old(log) + [Action.Receive] && lastActivity == old(lastActivity)
      ensures old(buffer) != [] ==> e == [old(buffer)[0]] && buffer == old(buffer)[1..]
      ensures old(buffer) == [] ==> e == [] && buffer == []
      ensures received == old(received) + e
      ensures done <==> channelClosed && accepted == old(received)
    {
      NeverPanics(log);
      log := log + [Action.Receive];
      assert log[..|log| - 1] == old(log);
      if buffer == [] {
        e, done := [], channelClosed;
      } else {
        e, done := [buffer[0]], false;
        received := received + e;
        buffer := buffer[1..];
      }
    }
  }
}
