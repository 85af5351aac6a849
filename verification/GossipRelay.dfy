/** packages/wire/lib/gossip/GossipRelay.ts: the relay's queue of hot messages and each peer's
    position in it. */
module GossipRelay {
  import opened Wrappers
  import opened Sequences

  type Peer = nat
  type NodeId = string

  datatype Message =
    | ChannelAnnouncement(scid: nat)
    | ChannelUpdate(scid: nat, direction: bool, timestamp: nat)
    | NodeAnnouncement(nodeId: NodeId, timestamp: nat)
    | Other

  /** What a message is about; the queue holds at most one message per subject. */
  datatype Subject = OfChannel(scid: nat) | OfDirection(scid: nat, direction: bool) | OfNode(nodeId: NodeId) | Nothing

  function SubjectOf(m: Message): Subject {
    match m
    case ChannelAnnouncement(scid) => OfChannel(scid)
    case ChannelUpdate(scid, direction, _) => OfDirection(scid, direction)
    case NodeAnnouncement(nodeId, _) => OfNode(nodeId)
    case Other => Nothing
  }

  /** A queued message with the number of the `enqueue` call that queued it. */
  datatype Entry = Entry(ticket: nat, msg: Message)

  /** The relay with, for every peer, all it was ever sent. */
  datatype Relay = Relay(
    queue: seq<Entry>, peers: map<Peer, nat>, active: bool, sent: map<Peer, seq<Entry>>, next: nat)
  {
    function SentTo(p: Peer): seq<Entry> {
      if p in sent then sent[p] else []
    }

    /** What the next flush would send to `p`. */
    function Pending(p: Peer): seq<Entry>
      requires p in peers && peers[p] <= |queue|
    {
      queue[peers[p]..]
    }
  }

  function Empty(): Relay {
    Relay([], map[], false, map[], 0)
  }

  // ---------------------------------------------------------------- operations

  /** `find`: the first queued message on the subject. */
  function Find(queue: seq<Entry>, s: Subject): (r: Option<nat>)
    ensures r.Some? ==> r.value < |queue|
  {
    if queue == [] then None
    else if SubjectOf(queue[0].msg) == s then Some(0)
    else match Find(queue[1..], s)
         case None => None
         case Some(i) => Some(i + 1)
  }

  /** A newer message of a kind that is updated replaces the queued one. */
  predicate Supersedes(m: Message, existing: Message) {
    match m
    case ChannelUpdate(_, _, t) => existing.ChannelUpdate? && existing.timestamp < t
    case NodeAnnouncement(_, t) => existing.NodeAnnouncement? && existing.timestamp < t
    case _ => false
  }

  /** `enqueue` */
  function Enqueue(r: Relay, m: Message): Relay {
    if !r.active || m.Other? then r
    else
      var e := Entry(r.next, m);
      match Find(r.queue, SubjectOf(m))
      case None => r.(queue := r.queue + [e], next := r.next + 1)
      case Some(i) =>
        if Supersedes(m, r.queue[i].msg) then r.(queue := Without(r.queue, i) + [e], next := r.next + 1)
        else r
  }

  function AddPeer(r: Relay, p: Peer): Relay {
    r.(peers := r.peers[p := |r.queue|])
  }

  function RemovePeer(r: Relay, p: Peer): Relay {
    r.(peers := r.peers - {p})
  }

  /** Sends the peers in `some` what they have not been sent. */
  function FlushSome(r: Relay, some: set<Peer>): Relay
    requires CursorsInRange(r)
  {
    r.(sent := map p | p in r.sent.Keys + (r.peers.Keys * some) ::
         if p in r.peers && p in some then r.SentTo(p) + r.Pending(p) else r.SentTo(p),
       peers := map p | p in r.peers :: if p in some then |r.queue| else r.peers[p])
  }

  function Flush(r: Relay): Relay
    requires CursorsInRange(r)
  {
    FlushSome(r, r.peers.Keys)
  }

  /** Drops the oldest messages beyond `maxQueueLen` and moves the cursors with them. */
  function Prune(r: Relay, maxQueueLen: nat): Relay
    requires forall p | p in r.peers :: r.peers[p] == |r.queue|
  {
    if |r.queue| <= maxQueueLen then r
    else
      var deleteCount := |r.queue| - maxQueueLen;
      r.(queue := r.queue[deleteCount..], peers := map p | p in r.peers :: r.peers[p] - deleteCount)
  }

  /** `_onTimer` */
  function Tick(r: Relay, maxQueueLen: nat): Relay
    requires CursorsInRange(r)
  {
    Prune(Flush(r), maxQueueLen)
  }

  lemma {:induction false} FindFinds(queue: seq<Entry>, s: Subject)
    ensures Find(queue, s).None? ==> forall i | 0 <= i < |queue| :: SubjectOf(queue[i].msg) != s
    ensures Find(queue, s).Some? ==>
      var k := Find(queue, s).value;
      k < |queue| && SubjectOf(queue[k].msg) == s && forall i | 0 <= i < k :: SubjectOf(queue[i].msg) != s
    decreases |queue|
  {
    if queue != [] && SubjectOf(queue[0].msg) != s {
      FindFinds(queue[1..], s);
      forall i | 0 <= i < |queue|
        ensures i > 0 ==> queue[i] == queue[1..][i - 1]
      {}
    }
  }

  // ---------------------------------------------------------------- what every step keeps

  predicate CursorsInRange(r: Relay) {
    forall p | p in r.peers :: r.peers[p] <= |r.queue|
  }

  predicate OnePerSubject(r: Relay) {
    && (forall i | 0 <= i < |r.queue| :: !r.queue[i].msg.Other?)
    && (forall i, j | 0 <= i < j < |r.queue| :: SubjectOf(r.queue[i].msg) != SubjectOf(r.queue[j].msg))
  }

  /** Tickets rise along the entries and stay below `bound`. */
  predicate Rising(entries: seq<Entry>, bound: nat) {
    && (forall i | 0 <= i < |entries| :: entries[i].ticket < bound)
    && (forall i, j | 0 <= i < j < |entries| :: entries[i].ticket < entries[j].ticket)
  }

  /** What was sent and what is pending are, in this order, rising: nothing is sent twice. */
  predicate Inv(r: Relay) {
    && CursorsInRange(r)
    && OnePerSubject(r)
    && Rising(r.queue, r.next)
    && (forall p | p in r.sent :: Rising(r.sent[p], r.next))
    && (forall p | p in r.peers :: Rising(r.SentTo(p) + r.Pending(p), r.next))
  }

  lemma RisingExtends(a: seq<Entry>, bound: nat, e: Entry)
    requires Rising(a, bound) && e.ticket == bound
    ensures Rising(a + [e], bound + 1)
  {}

  lemma RisingWithout(a: seq<Entry>, bound: nat, i: nat)
    requires Rising(a, bound) && i < |a|
    ensures Rising(Without(a, i), bound)
  {}

  lemma RisingTail(a: seq<Entry>, b: seq<Entry>, bound: nat)
    requires Rising(a + b, bound)
    ensures Rising(b, bound)
  {
    forall i | 0 <= i < |b| ensures b[i] == (a + b)[|a| + i] {}
  }

  lemma SuffixAfterReplace<T>(queue: seq<T>, i: nat, c: nat, e: T)
    requires i < |queue| && c <= |queue|
    ensures (Without(queue, i) + [e])[c..] == Without(queue[c..] + [e], if i >= c then i - c else 0)
  {}

  /** What an accepted message does to a peer's pending messages: it is appended, and the
      message it replaces is taken out; but a replacement in front of the peer's position
      shifts the queue under it, and the oldest pending message goes instead. */
  lemma EnqueuePending(r: Relay, m: Message, p: Peer)
    requires CursorsInRange(r) && p in r.peers && Enqueue(r, m) != r
    ensures var r', longer := Enqueue(r, m), r.Pending(p) + [Entry(r.next, m)];
      CursorsInRange(r') &&
      r'.Pending(p) ==
        match Find(r.queue, SubjectOf(m))
        case None => longer
        case Some(i) => Without(longer, if i >= r.peers[p] then i - r.peers[p] else 0)
  {
    var f := Find(r.queue, SubjectOf(m));
    if f.Some? { SuffixAfterReplace(r.queue, f.value, r.peers[p], Entry(r.next, m)); }
    hide Find, SubjectOf, Supersedes;
  }

  lemma RisingReplace(s: seq<Entry>, pending: seq<Entry>, e: Entry, k: nat, bound: nat)
    requires Rising(s + pending, bound) && e.ticket == bound && k <= |pending|
    ensures Rising(s + (pending + [e]), bound + 1)
    ensures Rising(s + Without(pending + [e], k), bound + 1)
  {
    hide Rising;
    var all := s + pending + [e];
    RisingExtends(s + pending, bound, e);
    RisingWithout(all, bound + 1, |s| + k);
    assert all == s + (pending + [e]);
    assert Without(all, |s| + k) == s + Without(pending + [e], k);
  }

  lemma PendingRises(r: Relay, m: Message, p: Peer)
    requires CursorsInRange(r) && p in r.peers && Enqueue(r, m) != r
    requires Rising(r.SentTo(p) + r.Pending(p), r.next)
    ensures CursorsInRange(Enqueue(r, m))
    ensures Rising(r.SentTo(p) + Enqueue(r, m).Pending(p), r.next + 1)
  {
    hide Rising, Enqueue, Find, Without;
    EnqueuePending(r, m, p);
    var f := Find(r.queue, SubjectOf(m));
    var k := if f.Some? && f.value >= r.peers[p] then f.value - r.peers[p] else 0;
    RisingReplace(r.SentTo(p), r.Pending(p), Entry(r.next, m), k, r.next);
  }

  lemma EnqueueQueue(r: Relay, m: Message)
    requires Enqueue(r, m) != r && OnePerSubject(r) && Rising(r.queue, r.next)
    ensures OnePerSubject(Enqueue(r, m)) && Rising(Enqueue(r, m).queue, r.next + 1)
  {
    hide Rising, Find, SubjectOf, Supersedes;
    var e := Entry(r.next, m);
    FindFinds(r.queue, SubjectOf(m));
    match Find(r.queue, SubjectOf(m)) {
      case None => RisingExtends(r.queue, r.next, e);
      case Some(i) =>
        RisingWithout(r.queue, r.next, i);
        RisingExtends(Without(r.queue, i), r.next, e);
    }
  }

  lemma EnqueueKeepsInv(r: Relay, m: Message)
    requires Inv(r)
    ensures Inv(Enqueue(r, m))
  {
    var r' := Enqueue(r, m);
    if r' != r {
      EnqueueQueue(r, m);
      assert (r'.peers, r'.sent, r'.next) == (r.peers, r.sent, r.next + 1);
      assert CursorsInRange(r');
      hide OnePerSubject, Enqueue;
      forall p | p in r'.peers
        ensures Rising(r'.SentTo(p) + r'.Pending(p), r'.next)
      {
        PendingRises(r, m, p);
      }
    }
  }

  lemma AddPeerKeepsInv(r: Relay, p: Peer)
    requires Inv(r)
    ensures Inv(AddPeer(r, p))
  {
    var r' := AddPeer(r, p);
    assert r'.SentTo(p) + r'.Pending(p) == r.SentTo(p);
    hide OnePerSubject;
  }

  lemma RemovePeerKeepsInv(r: Relay, p: Peer)
    requires Inv(r)
    ensures Inv(RemovePeer(r, p))
  {
    var r' := RemovePeer(r, p);
    hide OnePerSubject, Rising;
    SameQueue(r, r');
    forall q | q in r'.peers
      ensures r'.SentTo(q) + r'.Pending(q) == r.SentTo(q) + r.Pending(q)
    {}
  }

  lemma FlushKeepsInv(r: Relay, some: set<Peer>)
    requires Inv(r)
    ensures Inv(FlushSome(r, some))
  {
    var r' := FlushSome(r, some);
    hide OnePerSubject, Rising;
    assert OnePerSubject(r') by { SameQueue(r, r'); }
    forall p | p in r'.peers
      ensures Rising(r'.SentTo(p) + r'.Pending(p), r'.next)
    {
      assert r'.SentTo(p) + r'.Pending(p) == r.SentTo(p) + r.Pending(p);
    }
  }

  /** Flushing peer by peer is flushing them all. */
  lemma FlushOneMore(r: Relay, some: set<Peer>, p: Peer)
    requires CursorsInRange(r) && p in r.peers && p !in some
    ensures CursorsInRange(FlushSome(r, some)) && FlushSome(r, some).peers.Keys == r.peers.Keys
    ensures FlushSome(FlushSome(r, some), {p}) == FlushSome(r, some + {p})
  {
    FlushOneMoreSent(r, some, p);
    FlushOneMorePeers(r, some, p);
    var r2, r3 := FlushSome(r, some + {p}), FlushSome(FlushSome(r, some), {p});
    assert (r3.queue, r3.active, r3.next) == (r2.queue, r2.active, r2.next);
  }

  lemma FlushOneMorePeers(r: Relay, some: set<Peer>, p: Peer)
    requires CursorsInRange(r) && p in r.peers && p !in some
    ensures CursorsInRange(FlushSome(r, some)) && FlushSome(r, some).peers.Keys == r.peers.Keys
    ensures FlushSome(FlushSome(r, some), {p}).peers == FlushSome(r, some + {p}).peers
  {}

  /** What a flush of some peers sends, peer by peer. */
  lemma FlushSends(r: Relay, some: set<Peer>, q: Peer)
    requires CursorsInRange(r)
    ensures var r' := FlushSome(r, some);
      (q in r'.sent <==> q in r.sent || (q in r.peers && q in some)) &&
      r'.SentTo(q) == r.SentTo(q) + (if q in r.peers && q in some then r.Pending(q) else []) &&
      r'.queue == r.queue && (q in r'.peers <==> q in r.peers) &&
      (q in r.peers && q !in some ==> r'.peers[q] == r.peers[q])
  {}

  lemma FlushOneMoreSent(r: Relay, some: set<Peer>, p: Peer)
    requires CursorsInRange(r) && p in r.peers && p !in some
    ensures CursorsInRange(FlushSome(r, some))
    ensures FlushSome(FlushSome(r, some), {p}).sent == FlushSome(r, some + {p}).sent
  {
    var r1 := FlushSome(r, some);
    FlushOneMorePeers(r, some, p);
    var sent2, sent3 := FlushSome(r, some + {p}).sent, FlushSome(r1, {p}).sent;
    hide FlushSome;
    forall q: Peer ensures (q in sent3 <==> q in sent2) && (q in sent2 ==> sent3[q] == sent2[q]) {
      FlushSends(r, some, q);
      FlushSends(r1, {p}, q);
      FlushSends(r, some + {p}, q);
      if q == p { assert r1.Pending(p) == r.Pending(p); }
    }
  }

  lemma AllFlushed(r: Relay)
    requires CursorsInRange(r)
    ensures var r' := Flush(r); r'.peers.Keys == r.peers.Keys && forall p | p in r'.peers :: r'.peers[p] == |r'.queue|
  {}

  lemma TickSteps(r: Relay, maxQueueLen: nat)
    requires Inv(r)
    ensures CursorsInRange(r) && Inv(Flush(r))
    ensures forall p | p in Flush(r).peers :: Flush(r).peers[p] == |Flush(r).queue|
    ensures Tick(r, maxQueueLen) == Prune(Flush(r), maxQueueLen)
  {
    FlushKeepsInv(r, r.peers.Keys);
    AllFlushed(r);
    hide Inv, FlushSome, Prune;
  }

  lemma FlushNone(r: Relay)
    requires CursorsInRange(r)
    ensures FlushSome(r, {}) == r
  {
    var r' := FlushSome(r, {});
    assert r'.sent == r.sent;
    assert r'.peers == r.peers;
  }

  lemma SameQueue(r: Relay, r': Relay)
    requires r'.queue == r.queue
    ensures OnePerSubject(r') == OnePerSubject(r)
  {}

  lemma SubjectsTail(r: Relay, r': Relay, d: nat)
    requires d <= |r.queue| && r'.queue == r.queue[d..] && OnePerSubject(r)
    ensures OnePerSubject(r')
  {
    hide SubjectOf;
  }

  lemma PruneKeepsInv(r: Relay, maxQueueLen: nat)
    requires Inv(r) && forall p | p in r.peers :: r.peers[p] == |r.queue|
    ensures Inv(Prune(r, maxQueueLen))
  {
    var r' := Prune(r, maxQueueLen);
    if |r.queue| > maxQueueLen {
      hide Rising, OnePerSubject;
      var d := |r.queue| - maxQueueLen;
      assert r.queue == r.queue[..d] + r.queue[d..];
      RisingTail(r.queue[..d], r.queue[d..], r.next);
      SubjectsTail(r, r', d);
      NothingPending(r);
      NothingPending(r');
    }
  }

  /** What a peer at the end of the queue was sent rises by itself. */
  lemma NothingPending(r: Relay)
    requires forall p | p in r.peers :: r.peers[p] == |r.queue|
    ensures forall p | p in r.peers :: r.SentTo(p) + r.Pending(p) == r.SentTo(p)
  {}

  lemma PruneLeaves(r: Relay, maxQueueLen: nat)
    requires forall p | p in r.peers :: r.peers[p] == |r.queue|
    ensures var r' := Prune(r, maxQueueLen);
      |r'.queue| == (if |r.queue| <= maxQueueLen then |r.queue| else maxQueueLen) &&
      r'.queue == r.queue[|r.queue| - |r'.queue|..] &&
      r'.peers.Keys == r.peers.Keys && r'.sent == r.sent && forall p | p in r'.peers :: r'.peers[p] == |r'.queue|
  {}

  /** After a tick every peer has been sent exactly what was pending for it, stands at the end
      of the queue, and the queue has lost its oldest messages beyond the limit and no others. */
  lemma TickFlushes(r: Relay, maxQueueLen: nat)
    requires Inv(r)
    ensures var r' := Tick(r, maxQueueLen);
      |r'.queue| == (if |r.queue| <= maxQueueLen then |r.queue| else maxQueueLen) &&
      r'.queue == r.queue[|r.queue| - |r'.queue|..] &&
      r'.peers.Keys == r.peers.Keys &&
      (forall p | p in r.peers :: r'.peers[p] == |r'.queue| && r'.SentTo(p) == r.SentTo(p) + r.Pending(p)) &&
      (forall p | p !in r.peers :: r'.SentTo(p) == r.SentTo(p))
  {
    hide OnePerSubject, Rising, FlushSome, Prune;
    AllFlushed(r);
    var f := Flush(r);
    PruneLeaves(f, maxQueueLen);
    FlushSends(r, r.peers.Keys, 0);
    forall p: Peer ensures f.SentTo(p) == if p in r.peers then r.SentTo(p) + r.Pending(p) else r.SentTo(p) {
      FlushSends(r, r.peers.Keys, p);
    }
    SameSent(f, Prune(f, maxQueueLen));
  }

  // ---------------------------------------------------------------- runs

  datatype Event = Start | Stop | Join(p: Peer) | Leave(p: Peer) | Hear(m: Message) | Timer

  function Step(r: Relay, maxQueueLen: nat, e: Event): Relay
    requires CursorsInRange(r)
  {
    match e
    case Start => r.(active := true)
    case Stop => r.(active := false)
    case Join(p) => AddPeer(r, p)
    case Leave(p) => RemovePeer(r, p)
    case Hear(m) => Enqueue(r, m)
    case Timer => if r.active then Tick(r, maxQueueLen) else r
  }

  lemma StepKeepsInv(r: Relay, maxQueueLen: nat, e: Event)
    requires Inv(r)
    ensures Inv(Step(r, maxQueueLen, e))
  {
    match e
    case Start => ActiveIrrelevant(r, true);
    case Stop => ActiveIrrelevant(r, false);
    case Join(p) => AddPeerKeepsInv(r, p);
    case Leave(p) => RemovePeerKeepsInv(r, p);
    case Hear(m) => EnqueueKeepsInv(r, m);
    case Timer =>
      FlushKeepsInv(r, r.peers.Keys);
      PruneKeepsInv(Flush(r), maxQueueLen);
  }

  lemma ActiveIrrelevant(r: Relay, active: bool)
    requires Inv(r)
    ensures Inv(r.(active := active))
  {
    var r' := r.(active := active);
    hide OnePerSubject, Rising;
    SameQueue(r, r');
    forall q | q in r'.peers
      ensures r'.SentTo(q) + r'.Pending(q) == r.SentTo(q) + r.Pending(q)
    {}
  }

  /** The relay after a run of events from a new relay. */
  function Run(maxQueueLen: nat, events: seq<Event>): (r: Relay)
    ensures Inv(r)
  {
    if events == [] then Empty()
    else
      var before := Run(maxQueueLen, events[..|events| - 1]);
      StepKeepsInv(before, maxQueueLen, events[|events| - 1]);
      Step(before, maxQueueLen, events[|events| - 1])
  }

  /** In every run no peer is sent the same enqueued message twice, and what it is sent comes
      in the order of enqueueing. */
  lemma SentOnce(maxQueueLen: nat, events: seq<Event>, p: Peer, i: nat, j: nat)
    requires i < j < |Run(maxQueueLen, events).SentTo(p)|
    ensures var sent := Run(maxQueueLen, events).SentTo(p);
      sent[i].ticket < sent[j].ticket && sent[i] != sent[j]
  {
    var r := Run(maxQueueLen, events);
    assert p in r.sent && Rising(r.sent[p], r.next);
  }

  // ---------------------------------------------------------------- what displaces what

  /** Both announce one channel, update one direction of one channel, or announce one node. */
  predicate SameTopic(m: Message, k: Message) {
    || (m.ChannelAnnouncement? && k.ChannelAnnouncement? && m.scid == k.scid)
    || (m.ChannelUpdate? && k.ChannelUpdate? && m.scid == k.scid && m.direction == k.direction)
    || (m.NodeAnnouncement? && k.NodeAnnouncement? && m.nodeId == k.nodeId)
  }

  /** A later update of the same direction, or a later announcement of the same node. */
  predicate Later(m: Message, k: Message) {
    SameTopic(m, k) && !m.ChannelAnnouncement? && m.timestamp > k.timestamp
  }

  lemma TopicIsSubject(m: Message, k: Message)
    requires !m.Other?
    ensures SameTopic(m, k) <==> SubjectOf(m) == SubjectOf(k)
  {}

  /** On an active relay a message is queued at the end if nothing on its topic is queued; otherwise
      there is one message on its topic, whose place it takes at the end if it is later, and nothing
      changes if it is not. */
  lemma EnqueueByTopic(r: Relay, m: Message)
    requires Inv(r) && r.active && !m.Other?
    ensures var r', e := Enqueue(r, m), Entry(r.next, m);
      ((forall i | 0 <= i < |r.queue| :: !SameTopic(m, r.queue[i].msg)) ==> r'.queue == r.queue + [e]) &&
      (forall i | 0 <= i < |r.queue| && SameTopic(m, r.queue[i].msg) ::
         (forall j | 0 <= j < |r.queue| && j != i :: !SameTopic(m, r.queue[j].msg)) &&
         r'.queue == if Later(m, r.queue[i].msg) then r.queue[..i] + r.queue[i + 1..] + [e] else r.queue) &&
      r'.peers == r.peers && r'.sent == r.sent
  {
    forall i | 0 <= i < |r.queue| ensures SameTopic(m, r.queue[i].msg) <==> SubjectOf(m) == SubjectOf(r.queue[i].msg) {
      TopicIsSubject(m, r.queue[i].msg);
    }
    FindFinds(r.queue, SubjectOf(m));
    hide SubjectOf, Find, Rising;
  }

  /** An inactive relay, and a message of no topic, leave everything as it is. */
  lemma EnqueueIgnores(r: Relay, m: Message)
    requires !r.active || !(m.ChannelAnnouncement? || m.ChannelUpdate? || m.NodeAnnouncement?)
    ensures Enqueue(r, m) == r
  {}

  // ---------------------------------------------------------------- what a replacement costs

  /** The messages a peer should get after `m` is accepted: those pending, without the one
      that `m` replaces, and `m`. */
  function Expected(r: Relay, m: Message, p: Peer): seq<Entry>
    requires CursorsInRange(r) && p in r.peers
  {
    var e, c := Entry(r.next, m), r.peers[p];
    match Find(r.queue, SubjectOf(m))
    case None => r.Pending(p) + [e]
    case Some(i) => if i >= c then Without(r.Pending(p), i - c) + [e] else r.Pending(p) + [e]
  }

  /** A peer gets what it should after `m` is accepted exactly when `m` replaces nothing in
      front of the peer's position. */
  lemma DeliveryIff(r: Relay, m: Message, p: Peer)
    requires Inv(r) && p in r.peers && Enqueue(r, m) != r
    ensures CursorsInRange(Enqueue(r, m))
    ensures Enqueue(r, m).Pending(p) == Expected(r, m, p) <==>
      match Find(r.queue, SubjectOf(m))
      case None => true
      case Some(i) => i >= r.peers[p]
  {
    EnqueuePending(r, m, p);
    hide Inv, Enqueue, Find, Without, Rising, OnePerSubject, SubjectOf;
    var e := Entry(r.next, m);
    var f := Find(r.queue, SubjectOf(m));
    if f.Some? && f.value >= r.peers[p] {
      WithoutAppend(r.Pending(p), e, f.value - r.peers[p]);
    } else {
      WithoutFirst(r.Pending(p), e);
    }
  }

  lemma WithoutAppend<T>(s: seq<T>, e: T, k: nat)
    requires k < |s|
    ensures Without(s + [e], k) == Without(s, k) + [e]
  {}

  lemma WithoutFirst<T>(s: seq<T>, e: T)
    ensures |Without(s + [e], 0)| == |s| && |s + [e]| == |s| + 1
  {}

  /** In particular a peer that has been sent the whole queue never gets an update of a queued
      message. */
  lemma UpdateNeverSent(r: Relay, m: Message, p: Peer)
    requires Inv(r) && p in r.peers && r.peers[p] == |r.queue|
    requires Enqueue(r, m) != r && Find(r.queue, SubjectOf(m)).Some?
    ensures CursorsInRange(Enqueue(r, m)) && Enqueue(r, m).Pending(p) == []
  {
    EnqueuePending(r, m, p);
  }

  predicate AtLeastAsNew(queued: Message, m: Message) {
    match m
    case ChannelUpdate(_, _, t) => queued.ChannelUpdate? && queued.timestamp >= t
    case NodeAnnouncement(_, t) => queued.NodeAnnouncement? && queued.timestamp >= t
    case _ => true
  }

  /** After `enqueue` on an active relay the queue holds the newest message on the subject. */
  lemma EnqueueKeepsNewest(r: Relay, m: Message)
    requires Inv(r) && r.active && !m.Other?
    ensures var f := Find(Enqueue(r, m).queue, SubjectOf(m));
      f.Some? &&
      var queued, was := Enqueue(r, m).queue[f.value].msg, Find(r.queue, SubjectOf(m));
      (queued == m || (was.Some? && queued == r.queue[was.value].msg)) &&
      SubjectOf(queued) == SubjectOf(m) && AtLeastAsNew(queued, m)
  {
    var r' := Enqueue(r, m);
    FindFinds(r.queue, SubjectOf(m));
    FindFinds(r'.queue, SubjectOf(m));
    EnqueueKeepsInv(r, m);
    if r' != r {
      assert r'.queue[|r'.queue| - 1] == Entry(r.next, m);
    }
    hide Find, Rising;
  }

  // ---------------------------------------------------------------- the class

  function Messages(entries: seq<Entry>): (ms: seq<Message>)
    ensures |ms| == |entries| && forall i | 0 <= i < |ms| :: ms[i] == entries[i].msg
  {
    seq(|entries|, i requires 0 <= i < |entries| => entries[i].msg)
  }

  lemma SameSent(r: Relay, r': Relay)
    requires r'.sent == r.sent
    ensures forall p: Peer :: r'.SentTo(p) == r.SentTo(p)
  {}

  /** What `enqueue` does to the messages of the queue. */
  lemma EnqueueShown(r: Relay, m: Message)
    requires r.active && !m.Other?
    ensures var r', f := Enqueue(r, m), Find(r.queue, SubjectOf(m));
      (forall p: Peer :: r'.SentTo(p) == r.SentTo(p)) && r'.peers == r.peers && r'.active == r.active &&
      (f.None? ==> r' != r && Messages(r'.queue) == Messages(r.queue) + [m]) &&
      (f.Some? ==>
         (Supersedes(m, r.queue[f.value].msg) <==> r' != r) &&
         (r' != r ==> Messages(r'.queue) == Without(Messages(r.queue), f.value) + [m]))
  {
    hide Find, Supersedes, SubjectOf;
    var e, r' := Entry(r.next, m), Enqueue(r, m);
    MessagesConcat(r.queue, [e]);
    assert Messages([e]) == [m];
    var f := Find(r.queue, SubjectOf(m));
    if f.Some? {
      MessagesConcat(Without(r.queue, f.value), [e]);
      assert Messages(Without(r.queue, f.value)) == Without(Messages(r.queue), f.value);
      assert r' != r ==> r'.next != r.next;
    }
  }

  lemma SupersedesCases(m: Message, existing: Message)
    ensures Supersedes(m, existing) <==>
      (m.ChannelUpdate? && existing.ChannelUpdate? && existing.timestamp < m.timestamp) ||
      (m.NodeAnnouncement? && existing.NodeAnnouncement? && existing.timestamp < m.timestamp)
  {}

  lemma MessagesConcat(a: seq<Entry>, b: seq<Entry>)
    ensures Messages(a + b) == Messages(a) + Messages(b)
  {}

  lemma FlushedTo(r: Relay, peer: Peer)
    requires CursorsInRange(r) && peer in r.peers
    ensures var r' := FlushSome(r, {peer});
      r'.SentTo(peer) == r.SentTo(peer) + r.Pending(peer) && forall p: Peer | p != peer :: r'.SentTo(p) == r.SentTo(p)
  {}

  class GossipRelay {
    const maxQueueLen: nat
    var queue: seq<Message>
    var peers: map<Peer, nat>
    var active: bool
    /** What each peer's `sendMessage` was called with. */
    var outbox: map<Peer, seq<Message>>
    ghost var relay: Relay

    ghost predicate Valid()
      reads this
    {
      Inv(relay) && Shows(relay)
    }

    ghost predicate Shows(r: Relay)
      reads this`queue, this`peers, this`active, this`outbox
    {
      && queue == Messages(r.queue) && peers == r.peers && active == r.active
      && forall p: Peer :: SentMessages(p) == Messages(r.SentTo(p))
    }

    function SentMessages(p: Peer): seq<Message>
      reads this`outbox
    {
      if p in outbox then outbox[p] else []
    }

    constructor (maxQueueLen: nat)
      ensures Valid() && relay == Empty() && this.maxQueueLen == maxQueueLen
    {
      this.maxQueueLen := maxQueueLen;
      queue, peers, active, outbox := [], map[], false, map[];
      relay := Empty();
    }

    method Start()
      requires Valid()
      modifies this
      ensures Valid() && relay == Step(old(relay), maxQueueLen, Event.Start)
    {
      StepKeepsInv(relay, maxQueueLen, Event.Start);
      if active { return; }
      hide Inv;
      active := true;
      relay := relay.(active := true);
      SameSent(old(relay), relay);
      assert forall p: Peer :: SentMessages(p) == old(SentMessages(p));
    }

    method Stop()
      requires Valid()
      modifies this
      ensures Valid() && relay == Step(old(relay), maxQueueLen, Event.Stop)
    {
      StepKeepsInv(relay, maxQueueLen, Event.Stop);
      if !active { return; }
      hide Inv;
      active := false;
      relay := relay.(active := false);
      SameSent(old(relay), relay);
      assert forall p: Peer :: SentMessages(p) == old(SentMessages(p));
    }

    method Add(peer: Peer)
      requires Valid()
      modifies this
      ensures Valid() && relay == AddPeer(old(relay), peer)
    {
      AddPeerKeepsInv(relay, peer);
      hide Inv;
      peers := peers[peer := |queue|];
      relay := AddPeer(relay, peer);
      SameSent(old(relay), relay);
      assert forall p: Peer :: SentMessages(p) == old(SentMessages(p));
    }

    method Remove(peer: Peer)
      requires Valid()
      modifies this
      ensures Valid() && relay == RemovePeer(old(relay), peer)
    {
      RemovePeerKeepsInv(relay, peer);
      hide Inv;
      peers := peers - {peer};
      relay := RemovePeer(relay, peer);
      SameSent(old(relay), relay);
      assert forall p: Peer :: SentMessages(p) == old(SentMessages(p));
    }

    method FindSubject(s: Subject) returns (r: Option<nat>)
      requires queue == Messages(relay.queue)
      ensures r == Find(relay.queue, s)
    {
      for i := 0 to |queue|
        invariant Find(relay.queue, s) ==
          match Find(relay.queue[i..], s)
          case None => None
          case Some(k) => Some(i + k)
      {
        assert relay.queue[i..][1..] == relay.queue[i + 1..];
        if SubjectOf(queue[i]) == s { return Some(i); }
      }
      return None;
    }

    method Append(msg: Message)
      modifies this`queue
      ensures queue == old(queue) + [msg]
    {
      queue := queue + [msg];
    }

    method Splice(idx: nat)
      requires idx < |queue|
      modifies this`queue
      ensures queue == Without(old(queue), idx)
    {
      queue := queue[..idx] + queue[idx + 1..];
    }

    method EnqueueMessage(msg: Message)
      requires Valid()
      modifies this
      ensures Valid() && relay == Enqueue(old(relay), msg)
    {
      if !active || msg.Other? { return; }
      hide Inv, Find, Supersedes, SubjectOf, Without;
      EnqueueKeepsInv(relay, msg);
      EnqueueShown(relay, msg);
      var existing := FindSubject(SubjectOf(msg));
      if existing.None? {
        Append(msg);
        relay := Enqueue(relay, msg);
        assert forall p: Peer :: SentMessages(p) == old(SentMessages(p));
        return;
      }
      var idx := existing.value;
      SupersedesCases(msg, queue[idx]);
      if (msg.ChannelUpdate? && queue[idx].ChannelUpdate? && queue[idx].timestamp < msg.timestamp) ||
         (msg.NodeAnnouncement? && queue[idx].NodeAnnouncement? && queue[idx].timestamp < msg.timestamp) {
        Splice(idx);
        Append(msg);
        relay := Enqueue(relay, msg);
        assert forall p: Peer :: SentMessages(p) == old(SentMessages(p));
      }
    }

    /** Sends `peer` the queue from its position on. */
    method FlushToPeer(peer: Peer)
      requires peer in peers && peers[peer] <= |queue|
      modifies this`peers, this`outbox
      ensures peers == old(peers)[peer := |queue|]
      ensures SentMessages(peer) == old(SentMessages(peer)) + queue[old(peers[peer])..]
      ensures forall p: Peer | p != peer :: SentMessages(p) == old(SentMessages(p))
    {
      var start := peers[peer];
      ghost var cursors, sent := peers, SentMessages(peer);
      for i := start to |queue|
        invariant peers == if i == start then cursors else cursors[peer := |queue|]
        invariant SentMessages(peer) == sent + queue[start..i]
        invariant forall p: Peer | p != peer :: SentMessages(p) == old(SentMessages(p))
      {
        assert queue[start..i + 1] == queue[start..i] + [queue[i]];
        SendMessage(peer, queue[i]);
        peers := peers[peer := |queue|];
      }
      assert cursors[peer := cursors[peer]] == cursors;
    }

    /** What `FlushToPeer` does to the fields is what `FlushSome` does to the relay. */
    ghost method FlushShown(peer: Peer, r: Relay)
      requires CursorsInRange(r) && peer in r.peers
      requires queue == Messages(r.queue) && active == r.active && peers == r.peers[peer := |queue|]
      requires SentMessages(peer) == Messages(r.SentTo(peer)) + queue[r.peers[peer]..]
      requires forall p: Peer | p != peer :: SentMessages(p) == Messages(r.SentTo(p))
      ensures Shows(FlushSome(r, {peer}))
    {
      var r' := FlushSome(r, {peer});
      assert queue[r.peers[peer]..] == Messages(r.Pending(peer));
      MessagesConcat(r.SentTo(peer), r.Pending(peer));
      FlushedTo(r, peer);
      assert r'.peers == r.peers[peer := |queue|];
    }

    method SendMessage(peer: Peer, m: Message)
      modifies this`outbox
      ensures SentMessages(peer) == old(SentMessages(peer)) + [m]
      ensures forall p: Peer | p != peer :: SentMessages(p) == old(SentMessages(p))
    {
      outbox := outbox[peer := SentMessages(peer) + [m]];
    }

    /** `_onTimer` */
    method OnTimer()
      requires Valid()
      modifies this
      ensures Valid() && CursorsInRange(old(relay)) && relay == Tick(old(relay), maxQueueLen)
    {
      ghost var r := relay;
      TickSteps(r, maxQueueLen);
      hide Inv, Flush, Prune, Tick, Shows, CursorsInRange;
      FlushAll(r);
      relay := Flush(r);
      PruneQueue();
    }

    /** The loop of `_onTimer` over the peers. */
    method FlushAll(ghost r: Relay)
      requires CursorsInRange(r) && Shows(r)
      modifies this`peers, this`outbox
      ensures Shows(Flush(r))
    {
      FlushNone(r);
      var left := peers.Keys;
      ghost var done: set<Peer> := {};
      assert Shows(FlushSome(r, done)) && left == r.peers.Keys;
      hide FlushSome, CursorsInRange, Shows;
      while left != {}
        invariant Shows(FlushSome(r, done))
        invariant done !! left && done + left == r.peers.Keys
        decreases left
      {
        var peer :| peer in left;
        FlushNext(peer, r, done);
        left, done := left - {peer}, done + {peer};
      }
      assert done == r.peers.Keys;
    }

    /** Flushes one peer more than `done`. */
    method FlushNext(peer: Peer, ghost r: Relay, ghost done: set<Peer>)
      requires CursorsInRange(r) && peer in r.peers && peer !in done && Shows(FlushSome(r, done))
      modifies this`peers, this`outbox
      ensures Shows(FlushSome(r, done + {peer}))
    {
      hide FlushSome;
      FlushOneMore(r, done, peer);
      ghost var before := FlushSome(r, done);
      FlushToPeer(peer);
      FlushShown(peer, before);
    }

    method PruneQueue()
      requires Valid() && forall p | p in relay.peers :: relay.peers[p] == |relay.queue|
      modifies this
      ensures Valid() && forall p | p in old(relay).peers :: old(relay).peers[p] == |old(relay).queue|
      ensures relay == Prune(old(relay), maxQueueLen)
    {
      hide Inv;
      var deleteCount := if |queue| > maxQueueLen then |queue| - maxQueueLen else 0;
      PruneKeepsInv(relay, maxQueueLen);
      if deleteCount == 0 { return; }
      queue := queue[deleteCount..];
      peers := map p | p in peers :: peers[p] - deleteCount;
      relay := Prune(relay, maxQueueLen);
      SameSent(old(relay), relay);
      assert forall p: Peer :: SentMessages(p) == old(SentMessages(p));
    }
  }
}
