/** Which two-way runs of the transport succeed. */
module NoiseOrder {
  import opened Wrappers
  import opened Noise
  import opened NoiseRuns

  /** The step reads a packet. */
  predicate Reads(w: World, e: Event) {
    e.Receive? && w.At(e.at).inbox != []
  }

  /** Whenever an end of the run reads a packet, it has rotated in the sender's order up to the
      packet's key. */
  predicate InOrder(c: Crypto, w: World, events: seq<Event>)
    decreases |events|
  {
    events == [] ||
    ((Reads(w, events[0]) ==> SameOrder(w, events[0].at)) &&
     (Step(c, w, events[0]).Ok? ==> InOrder(c, Step(c, w, events[0]).value, events[1..])))
  }

  /** The cipher tells apart the keys that meet when the run reads a packet. */
  ghost predicate ToldApart(c: Crypto, k: Keys, w: World, events: seq<Event>)
    decreases |events|
  {
    events == [] ||
    ((Reads(w, events[0]) ==> KeysToldApart(c, k, w, events[0].at)) &&
     (Step(c, w, events[0]).Ok? ==> ToldApart(c, k, Step(c, w, events[0]).value, events[1..])))
  }

  /** The key of the next packet to `i` and the key that `i` reads it with. */
  ghost predicate KeysToldApart(c: Crypto, k: Keys, w: World, i: Side) {
    var j, r := 1 - i, Epoch(|w.At(i).got|);
    r <= Count(w.At(j).hist, j) ==> Distinguishes(c, EpochKey(c, k, w.At(j).hist, j, r), w.At(i).st.rk)
  }

  lemma StepIff(c: Crypto, rank: Bytes -> nat, k: Keys, w: World, e: Event)
    requires Seals(c) && Free(c, rank) && Started(c, k) && Inv(c, k, w)
    requires Reads(w, e) ==> KeysToldApart(c, k, w, e.at)
    ensures Step(c, w, e).Ok? <==> (Reads(w, e) ==> SameOrder(w, e.at))
    ensures Step(c, w, e).Ok? ==> Inv(c, k, Step(c, w, e).value)
  {
    hide Seals, Free, Started, Inv, SendStep, SameOrder, Distinguishes;
    match e
    case Send(i, m) => SendKeepsInv(c, k, w, i, m);
    case Receive(i) =>
      if Reads(w, e) {
        ReceiveIffSameOrder(c, rank, k, w, i);
        if SameOrder(w, i) { ReceiveKeepsInv(c, k, w, i); }
      }
  }

  /** A run succeeds exactly when every packet in it is read in the sender's order of rotations;
      each end has then decrypted a prefix of what the other sent. */
  lemma {:induction false} RunOkIff(c: Crypto, rank: Bytes -> nat, k: Keys, w: World, events: seq<Event>)
    requires Seals(c) && Free(c, rank) && Started(c, k) && Inv(c, k, w) && ToldApart(c, k, w, events)
    ensures Run(c, w, events).Ok? <==> InOrder(c, w, events)
    ensures Run(c, w, events).Ok? ==>
      var end := Run(c, w, events).value;
      Inv(c, k, end) && end.p1.got <= end.p0.sent && end.p0.got <= end.p1.sent
    decreases |events|
  {
    if events == [] {
      Prefixes(c, k, w);
    } else {
      hide Seals, Free, Started, Inv, SameOrder, KeysToldApart, Step;
      StepIff(c, rank, k, w, events[0]);
      var next := Step(c, w, events[0]);
      if next.Ok? { RunOkIff(c, rank, k, next.value, events[1..]); }
    }
  }

  lemma Prefixes(c: Crypto, k: Keys, w: World)
    requires Inv(c, k, w)
    ensures w.p1.got <= w.p0.sent && w.p0.got <= w.p1.sent
  {}
}
