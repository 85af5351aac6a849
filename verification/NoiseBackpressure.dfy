/** When a socket pushes to its consumer: it stops as soon as the consumer wants no more and goes on
    when the consumer reads. */
module NoiseBackpressure {
  import opened Wrappers
  import opened Noise
  import opened NoiseSocket

  /** Of the pushes of one `_onData` all but the last were answered with yes, and the socket is blocked
      if the last one was not. */
  ghost predicate StoppedInTime(ok: PushOk, s: Socket, s': Socket) {
    s'.messagesReceived >= s.messagesReceived &&
    (forall i | s.messagesReceived <= i < s'.messagesReceived - 1 :: ok(i)) &&
    (s'.messagesReceived > s.messagesReceived ==> (s'.readState == Blocked <==> !ok(s'.messagesReceived - 1))) &&
    (s'.messagesReceived == s.messagesReceived ==> (s'.readState == Blocked <==> s.readState == Blocked))
  }

  lemma TurnPushes(c: Crypto, ok: PushOk, s: Socket)
    requires s.handshake != Ready ==> s.readState == ReadyForLen
    ensures var (next, more) := Process(c, ok, s);
      (next.handshake != Ready ==> next.readState == ReadyForLen) &&
      (next.messagesReceived == s.messagesReceived ==> (next.readState == Blocked <==> s.readState == Blocked)) &&
      (next.messagesReceived != s.messagesReceived ==>
         next.messagesReceived == s.messagesReceived + 1 && s.readState != Blocked &&
         (next.readState == Blocked <==> !ok(s.messagesReceived))) &&
      (more ==> next.readState != Blocked) && |next.pushed| - |s.pushed| == next.messagesReceived - s.messagesReceived
  {
    hide ReceiveAct1, ReceiveAct2, ReceiveAct3, InitiatorAct2, InitiatorAct3, DecryptLength, DecryptMessage;
  }

  /** One `_onData` pushes until the consumer wants no more, and each message it counts. */
  lemma {:induction false} OnDataStopsInTime(c: Crypto, ok: PushOk, s: Socket)
    requires s.handshake != Ready ==> s.readState == ReadyForLen
    ensures var s' := OnData(c, ok, s);
      StoppedInTime(ok, s, s') && |s'.pushed| - |s.pushed| == s'.messagesReceived - s.messagesReceived
    decreases |s.input|
  {
    hide Process, OnData;
    TurnPushes(c, ok, s);
    ReadMoreReads(c, ok, s);
    OnDataUnfolds(c, ok, s);
    var (next, more) := Process(c, ok, s);
    if more { OnDataStopsInTime(c, ok, next); }
  }

  /** While it is blocked, a socket reads and pushes nothing. */
  lemma BlockedStep(c: Crypto, ok: PushOk, y: System, e: Event)
    requires y.s.handshake == Ready && y.s.readState == Blocked && !e.Read?
    ensures var s := Step(c, ok, y, e).s;
      s.handshake == Ready && s.readState == Blocked && s.pushed == y.s.pushed && y.s.input <= s.input
  {
    hide EncryptMessage;
  }

  lemma {:induction false} BlockedPushesNothing(c: Crypto, ok: PushOk, y: System, events: seq<Event>)
    requires y.s.handshake == Ready && y.s.readState == Blocked && Event.Read !in events
    ensures var s := Run(c, ok, y, events).s;
      s.readState == Blocked && s.pushed == y.s.pushed && y.s.input <= s.input
    decreases |events|
  {
    hide Step;
    if events != [] {
      assert events[0] != Event.Read;
      BlockedStep(c, ok, y, events[0]);
      BlockedPushesNothing(c, ok, Step(c, ok, y, events[0]), events[1..]);
    }
  }

  /** A read of the consumer unblocks a ready socket and schedules a callback; before the socket is
      ready it does nothing. */
  lemma ReadResumes(c: Crypto, ok: PushOk, y: System)
    ensures var s := Step(c, ok, y, Event.Read).s;
      if y.s.handshake == Ready then
        s.readState == (if y.s.readState == ReadyForBody then ReadyForBody else ReadyForLen) &&
        s.callbacks == y.s.callbacks + 1 && s == y.s.(readState := s.readState, callbacks := s.callbacks)
      else s == y.s
  {}
}
