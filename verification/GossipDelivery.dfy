/** Which of the updates and node announcements received are stored after a run, or superseded. */
module GossipDelivery {
  import opened Wrappers
  import opened GossipMemoryStore
  import opened GossipFilter
  import opened GossipFilterRuns
  import opened GossipBroadcasts
  import opened GossipProgress

  // ---------------------------------------------------------------- what one call changes

  /** The announcement that a call adds to the store `g`. */
  ghost predicate Adds(sigs: Signatures, g: Store, call: Call, a: ChannelAnnouncement) {
    call.msg.OfChannel? && Valid(sigs, call.chain, g, call.msg.ann, a)
  }

  predicate IsUpdate(call: Call, s: Scid, d: Direction) {
    call.msg.OfUpdate? && call.msg.upd.scid == s && call.msg.upd.direction == d
  }

  predicate IsNode(call: Call, n: NodeId) {
    call.msg.OfNode? && call.msg.node.nodeId == n
  }

  function After(sigs: Signatures, f: Filter, call: Call): Filter {
    Validate(sigs, call.chain, f, call.msg).0
  }

  /** A call that adds no announcement leaves the channels as they are. */
  lemma AddsNothing(sigs: Signatures, f: Filter, call: Call)
    requires Inv(sigs, call.chain.Some?, f) && forall a: ChannelAnnouncement :: !Adds(sigs, f.gossip, call, a)
    ensures After(sigs, f, call).gossip.anns == f.gossip.anns
    ensures call.msg.OfChannel? ==> After(sigs, f, call) == f
    ensures forall n: NodeId :: HasChannel(After(sigs, f, call).gossip, n) == HasChannel(f.gossip, n)
  {
    hide Inv, Judge, ReleaseUpdates, ReleaseNodes;
    if call.msg.OfChannel? { NothingAccepted(sigs, f, call); }
  }

  lemma NothingAccepted(sigs: Signatures, f: Filter, call: Call)
    requires Inv(sigs, call.chain.Some?, f) && call.msg.OfChannel?
    requires forall a: ChannelAnnouncement :: !Adds(sigs, f.gossip, call, a)
    ensures !Judge(sigs, call.chain, f, call.msg.ann).Accept?
  {
    forall a: ChannelAnnouncement ensures Judge(sigs, call.chain, f, call.msg.ann) != Accept(a) {
      assert !Adds(sigs, f.gossip, call, a);
      AcceptIff(sigs, call.chain, f, call.msg.ann, a);
    }
    hide Inv, Judge;
  }

  /** The update stored for a channel and direction after a call. */
  lemma UpdateStored(sigs: Signatures, f: Filter, call: Call, s: Scid, d: Direction)
    requires Inv(sigs, call.chain.Some?, f)
    ensures var g := After(sigs, f, call);
      if IsUpdate(call, s, d) then
        var u := call.msg.upd;
        g.gossip.Upd(s, d) ==
          if s in f.gossip.anns && !UpdatedSince(f.gossip, s, d, u.timestamp) &&
             sigs.upd(u, NodeOf(f.gossip.anns[s], d)) then Some(u) else f.gossip.Upd(s, d)
      else
        (forall a | Adds(sigs, f.gossip, call, a) :: g.gossip.Upd(s, d) == UpdAfter(sigs, f, a, s, d)) &&
        ((forall a :: !Adds(sigs, f.gossip, call, a)) ==> g.gossip.Upd(s, d) == f.gossip.Upd(s, d))
  {
    hide Inv, Valid, ReleaseUpdates, ReleaseNodes, Judge, NodeAfter, UpdAfter;
    forall a | Adds(sigs, f.gossip, call, a)
      ensures After(sigs, f, call).gossip.Upd(s, d) == UpdAfter(sigs, f, a, s, d)
    {
      AcceptExact(sigs, call.chain, f, call.msg.ann, a);
    }
    if (forall a :: !Adds(sigs, f.gossip, call, a)) { AddsNothing(sigs, f, call); }
    hide ValidateChannel;
  }

  /** The update that waits for a channel that is not announced: the last one received. */
  lemma UpdateWaits(sigs: Signatures, f: Filter, call: Call, s: Scid, d: Direction)
    requires Inv(sigs, call.chain.Some?, f) && s !in After(sigs, f, call).gossip.anns
    ensures s !in f.gossip.anns
    ensures After(sigs, f, call).pending.Upd(s, d) ==
      if IsUpdate(call, s, d) then Some(call.msg.upd) else f.pending.Upd(s, d)
  {
    hide Inv, Valid, ReleaseUpdates, ReleaseNodes, Judge, UpdAfter;
    if a :| Adds(sigs, f.gossip, call, a) {
      AcceptExact(sigs, call.chain, f, call.msg.ann, a);
    } else {
      AddsNothing(sigs, f, call);
    }
    hide ValidateChannel;
  }

  // ---------------------------------------------------------------- updates, over every run

  function StoreAt(sigs: Signatures, calls: seq<Call>, n: nat): Store
    requires n <= |calls|
  {
    Run(sigs, calls[..n]).gossip
  }

  /** Call `k` announces the channel, and looks at the waiting update of direction `d`. */
  ghost predicate Releases(sigs: Signatures, calls: seq<Call>, k: nat, s: Scid, d: Direction)
    requires k < |calls|
  {
    exists a: ChannelAnnouncement :: ReleasesFor(sigs, Run(sigs, calls[..k]), calls[k], s, d, a)
  }

  ghost predicate ReleasesFor(sigs: Signatures, f: Filter, call: Call, s: Scid, d: Direction, a: ChannelAnnouncement) {
    a.scid == s && Adds(sigs, f.gossip, call, a) && ReachesUpdate(sigs, f, a, d)
  }

  /** Update `j` of the run comes to be looked at in the first `n` calls: its channel has been
      announced before, or one of these calls announces it and looks at the update, and no other
      update of the direction is received in between. */
  ghost predicate Heard(sigs: Signatures, calls: seq<Call>, n: nat, j: nat)
    requires j < n <= |calls| && calls[j].msg.OfUpdate?
  {
    var s, d := calls[j].msg.upd.scid, calls[j].msg.upd.direction;
    s in StoreAt(sigs, calls, j).anns || exists k | j < k < n :: ReleasedBy(sigs, calls, k, j, s, d)
  }

  ghost predicate ReleasedBy(sigs: Signatures, calls: seq<Call>, k: nat, j: nat, s: Scid, d: Direction)
    requires j < k < |calls|
  {
    Releases(sigs, calls, k, s, d) && LastUpdate(calls, j, k, s, d)
  }

  lemma CallStep(sigs: Signatures, hasChain: bool, calls: seq<Call>, n: nat)
    requires OneFilter(hasChain, calls) && n < |calls|
    ensures Inv(sigs, calls[n].chain.Some?, Run(sigs, calls[..n]))
    ensures Run(sigs, calls[..n + 1]) == After(sigs, Run(sigs, calls[..n]), calls[n])
  {
    RunKeepsInv(sigs, hasChain, calls[..n]);
    RunStep(sigs, calls, n);
  }

  /** While a channel is not announced, the last update received for it waits. */
  lemma {:induction false} LastWaits(sigs: Signatures, hasChain: bool, calls: seq<Call>, n: nat, s: Scid, d: Direction)
    requires OneFilter(hasChain, calls) && n <= |calls| && s !in StoreAt(sigs, calls, n).anns
    ensures var w := Run(sigs, calls[..n]).pending.Upd(s, d);
      (w.None? ==> forall i | 0 <= i < n :: !IsUpdate(calls[i], s, d)) &&
      (w.Some? ==> exists j | 0 <= j < n :: LastUpdate(calls, j, n, s, d) && calls[j].msg.upd == w.value)
    decreases n
  {
    hide Inv, Run, After;
    if n == 0 {
      assert Run(sigs, calls[..0]) == Filter(Empty(), Empty()) by { NoCalls(sigs, calls); }
    } else {
      CallStep(sigs, hasChain, calls, n - 1);
      UpdateWaits(sigs, Run(sigs, calls[..n - 1]), calls[n - 1], s, d);
      LastWaits(sigs, hasChain, calls, n - 1, s, d);
      if IsUpdate(calls[n - 1], s, d) {
        assert LastUpdate(calls, n - 1, n, s, d);
      } else if Run(sigs, calls[..n]).pending.Upd(s, d).Some? {
        var w := Run(sigs, calls[..n]).pending.Upd(s, d).value;
        var j :| 0 <= j < n - 1 && LastUpdate(calls, j, n - 1, s, d) && calls[j].msg.upd == w;
        assert LastUpdate(calls, j, n, s, d);
      }
    }
  }

  predicate LastUpdate(calls: seq<Call>, j: nat, n: nat, s: Scid, d: Direction)
    requires j < n <= |calls|
  {
    IsUpdate(calls[j], s, d) && forall i | j < i < n :: !IsUpdate(calls[i], s, d)
  }

  lemma NoCalls(sigs: Signatures, calls: seq<Call>)
    ensures Run(sigs, calls[..0]) == Filter(Empty(), Empty())
  {}

  /** A stored update has been received and looked at. */
  lemma {:induction false} StoredWasHeard(sigs: Signatures, hasChain: bool, calls: seq<Call>, n: nat, s: Scid,
      d: Direction) returns (j: nat)
    requires OneFilter(hasChain, calls) && n <= |calls| && StoreAt(sigs, calls, n).Upd(s, d).Some?
    ensures j < n && IsUpdate(calls[j], s, d) && StoreAt(sigs, calls, n).Upd(s, d) == Some(calls[j].msg.upd)
    ensures Heard(sigs, calls, n, j)
    decreases n
  {
    hide Inv, Run, After, Adds, UpdAfter, ReachesUpdate;
    NoCalls(sigs, calls);
    if n > 0 {
      var f, call := Run(sigs, calls[..n - 1]), calls[n - 1];
      CallStep(sigs, hasChain, calls, n - 1);
      UpdateStored(sigs, f, call, s, d);
      if StoreAt(sigs, calls, n).Upd(s, d) == StoreAt(sigs, calls, n - 1).Upd(s, d) {
        j := StoredWasHeard(sigs, hasChain, calls, n - 1, s, d);
      } else if IsUpdate(call, s, d) {
        j := n - 1;
      } else {
        var a :| Adds(sigs, f.gossip, call, a) && StoreAt(sigs, calls, n).Upd(s, d) == UpdAfter(sigs, f, a, s, d);
        j := ReleasedWasHeard(sigs, hasChain, calls, n - 1, s, d, a);
      }
    }
  }

  lemma ReleasedWasHeard(sigs: Signatures, hasChain: bool, calls: seq<Call>, k: nat, s: Scid, d: Direction,
      a: ChannelAnnouncement) returns (j: nat)
    requires OneFilter(hasChain, calls) && k < |calls| && Adds(sigs, StoreAt(sigs, calls, k), calls[k], a)
    requires var f := Run(sigs, calls[..k]);
      UpdAfter(sigs, f, a, s, d).Some? && UpdAfter(sigs, f, a, s, d) != f.gossip.Upd(s, d)
    ensures j < k && IsUpdate(calls[j], s, d) && Heard(sigs, calls, k + 1, j)
    ensures UpdAfter(sigs, Run(sigs, calls[..k]), a, s, d) == Some(calls[j].msg.upd)
  {
    hide Run, ReachesUpdate;
    LastWaits(sigs, hasChain, calls, k, s, d);
    j :| 0 <= j < k && LastUpdate(calls, j, k, s, d) &&
      Run(sigs, calls[..k]).pending.Upd(s, d) == Some(calls[j].msg.upd);
    assert ReleasesFor(sigs, Run(sigs, calls[..k]), calls[k], s, d, a);
    assert Releases(sigs, calls, k, s, d);
    assert ReleasedBy(sigs, calls, k, j, s, d);
  }

  /** A well signed update that was looked at is stored then, or one at least as new is. */
  lemma HeardIsStored(sigs: Signatures, hasChain: bool, calls: seq<Call>, n: nat, j: nat)
    requires OneFilter(hasChain, calls) && j < n <= |calls| && calls[j].msg.OfUpdate? && Heard(sigs, calls, n, j)
    requires var u := calls[j].msg.upd;
      u.scid in StoreAt(sigs, calls, n).anns && sigs.upd(u, NodeOf(StoreAt(sigs, calls, n).anns[u.scid], u.direction))
    ensures var u := calls[j].msg.upd; UpdatedSince(StoreAt(sigs, calls, n), u.scid, u.direction, u.timestamp)
  {
    hide Inv, Run, After, Adds, UpdAfter, ReachesUpdate;
    var u := calls[j].msg.upd;
    if u.scid in StoreAt(sigs, calls, j).anns {
      RunGrows(sigs, hasChain, calls, j, n);
      CallStep(sigs, hasChain, calls, j);
      UpdateStored(sigs, Run(sigs, calls[..j]), calls[j], u.scid, u.direction);
      RunGrows(sigs, hasChain, calls, j + 1, n);
    } else {
      var k :| j < k < n && ReleasedBy(sigs, calls, k, j, u.scid, u.direction);
      WaitingIsStored(sigs, hasChain, calls, k, j, n);
      RunGrows(sigs, hasChain, calls, k + 1, n);
    }
  }

  lemma WaitingIsStored(sigs: Signatures, hasChain: bool, calls: seq<Call>, k: nat, j: nat, n: nat)
    requires OneFilter(hasChain, calls) && j < k < n <= |calls| && calls[j].msg.OfUpdate?
    requires var u := calls[j].msg.upd;
      Releases(sigs, calls, k, u.scid, u.direction) && LastUpdate(calls, j, k, u.scid, u.direction) &&
      u.scid in StoreAt(sigs, calls, n).anns && sigs.upd(u, NodeOf(StoreAt(sigs, calls, n).anns[u.scid], u.direction))
    ensures var u := calls[j].msg.upd; StoreAt(sigs, calls, k + 1).Upd(u.scid, u.direction) == Some(u)
  {
    hide Inv, Run, After, ReachesUpdate, Adds;
    var u := calls[j].msg.upd;
    var f: Filter := Run(sigs, calls[..k]);
    var a :| ReleasesFor(sigs, f, calls[k], u.scid, u.direction, a);
    NotYetAdded(sigs, f, calls[k], a);
    LastWaits(sigs, hasChain, calls, k, u.scid, u.direction);
    var i :| 0 <= i < k && LastUpdate(calls, i, k, u.scid, u.direction) &&
      f.pending.Upd(u.scid, u.direction) == Some(calls[i].msg.upd);
    assert i == j;
    CallStep(sigs, hasChain, calls, k);
    AddedIs(sigs, f, calls[k], a);
    RunGrows(sigs, hasChain, calls, k + 1, n);
    UpdateStored(sigs, f, calls[k], u.scid, u.direction);
  }

  lemma NotYetAdded(sigs: Signatures, f: Filter, call: Call, a: ChannelAnnouncement)
    requires Adds(sigs, f.gossip, call, a)
    ensures a.scid !in f.gossip.anns && call.msg.OfChannel?
  {}

  lemma AddedIs(sigs: Signatures, f: Filter, call: Call, a: ChannelAnnouncement)
    requires Inv(sigs, call.chain.Some?, f) && Adds(sigs, f.gossip, call, a)
    ensures var g := After(sigs, f, call).gossip; a.scid in g.anns && g.anns[a.scid] == a
  {
    AcceptExact(sigs, call.chain, f, call.msg.ann, a);
  }

  /** The update has a timestamp of at least `t` and the signature of its channel's node. */
  predicate WellSigned(sigs: Signatures, g: Store, u: ChannelUpdate, t: nat) {
    u.timestamp >= t && u.scid in g.anns && sigs.upd(u, NodeOf(g.anns[u.scid], u.direction))
  }

  /** Update `j` of the run is well signed and was looked at. */
  ghost predicate Counts(sigs: Signatures, calls: seq<Call>, j: nat, t: nat)
    requires j < |calls| && calls[j].msg.OfUpdate?
  {
    WellSigned(sigs, Run(sigs, calls).gossip, calls[j].msg.upd, t) && Heard(sigs, calls, |calls|, j)
  }

  /** After every run an update with a timestamp of at least `t` is stored if and only if the channel
      is announced and one was received that is well signed and came to be looked at. */
  lemma UpdateStoredIff(sigs: Signatures, hasChain: bool, calls: seq<Call>, s: Scid, d: Direction, t: nat)
    requires OneFilter(hasChain, calls)
    ensures var g := Run(sigs, calls).gossip;
      UpdatedSince(g, s, d, t) <==>
        s in g.anns &&
        exists j | 0 <= j < |calls| && IsUpdate(calls[j], s, d) :: Counts(sigs, calls, j, t)
  {
    hide Heard, Run;
    var n := |calls|;
    assert calls[..n] == calls;
    var g := Run(sigs, calls).gossip;
    if UpdatedSince(g, s, d, t) {
      var j := StoredWasHeard(sigs, hasChain, calls, n, s, d);
      StoredIsSigned(sigs, hasChain, calls, s, d);
      assert Counts(sigs, calls, j, t);
    }
    if j :| 0 <= j < n && IsUpdate(calls[j], s, d) && Counts(sigs, calls, j, t) {
      HeardIsStored(sigs, hasChain, calls, n, j);
    }
  }

  lemma StoredIsSigned(sigs: Signatures, hasChain: bool, calls: seq<Call>, s: Scid, d: Direction)
    requires OneFilter(hasChain, calls) && (s, d) in Run(sigs, calls).gossip.upds
    ensures var g := Run(sigs, calls).gossip; s in g.anns && sigs.upd(g.upds[(s, d)], NodeOf(g.anns[s], d))
  {
    RunKeepsInv(sigs, hasChain, calls);
    hide AnnsOk, NodesOk, LinksOk, OutPointsOk, PendingInv, Run;
  }

  /** An update that waits gives way to whichever comes later: with a valid one of timestamp 2 received
      first and a valid one of timestamp 1 second, the older one is stored once the channel comes. */
  lemma WaitingIsDisplaced(a: ChannelAnnouncement, u: ChannelUpdate, v: ChannelUpdate)
    requires u.scid == v.scid == a.scid && u.direction == v.direction && u.timestamp == 2 && v.timestamp == 1
    ensures var sigs := Signatures(_ => true, (_, _) => true, _ => true);
      var calls := [Call(OfUpdate(u), None), Call(OfUpdate(v), None), Call(OfChannel(a), None)];
      Run(sigs, calls).gossip.Upd(a.scid, u.direction) == Some(v)
  {
    var sigs := Signatures(_ => true, (_, _) => true, _ => true);
    var calls := [Call(OfUpdate(u), None), Call(OfUpdate(v), None), Call(OfChannel(a), None)];
    RunStep(sigs, calls, 0);
    RunStep(sigs, calls, 1);
    RunStep(sigs, calls, 2);
    assert calls[..3] == calls;
    RunKeepsInv(sigs, false, calls[..2]);
    var f := Run(sigs, calls[..2]);
    assert f.pending.Upd(a.scid, u.direction) == Some(v) && f.gossip == Empty();
    assert f.pending.Upd(a.scid, 1 - u.direction).None?;
    hide Run, Inv;
    AcceptExact(sigs, None, f, a, a);
    assert Run(sigs, calls).gossip.Upd(a.scid, u.direction) == UpdAfter(sigs, f, a, a.scid, u.direction);
  }

  // ---------------------------------------------------------------- node announcements, over every run

  /** The announcement stored for a node after a call. */
  lemma NodeStored(sigs: Signatures, f: Filter, call: Call, n: NodeId)
    requires Inv(sigs, call.chain.Some?, f)
    ensures var g := After(sigs, f, call);
      if IsNode(call, n) then
        var w := call.msg.node;
        g.gossip.Node(n) ==
          if HasChannel(f.gossip, n) && !AnnouncedSince(f.gossip, n, w.timestamp) && sigs.node(w) then Some(w)
          else f.gossip.Node(n)
      else
        (forall a | Adds(sigs, f.gossip, call, a) :: g.gossip.Node(n) == NodeAfter(sigs, f, a, n)) &&
        ((forall a :: !Adds(sigs, f.gossip, call, a)) ==> g.gossip.Node(n) == f.gossip.Node(n))
  {
    hide Inv, Valid, ReleaseUpdates, ReleaseNodes, Judge, NodeAfter, UpdAfter;
    forall a | Adds(sigs, f.gossip, call, a)
      ensures After(sigs, f, call).gossip.Node(n) == NodeAfter(sigs, f, a, n)
    {
      AcceptExact(sigs, call.chain, f, call.msg.ann, a);
    }
    if (forall a :: !Adds(sigs, f.gossip, call, a)) { AddsNothing(sigs, f, call); }
    hide ValidateChannel;
  }

  /** The call announces a channel of the node and looks at what waits for it. */
  ghost predicate Frees(sigs: Signatures, f: Filter, call: Call, n: NodeId) {
    exists a: ChannelAnnouncement :: Adds(sigs, f.gossip, call, a) && a.Names(n) && ReachesNode(sigs, f, a, n)
  }

  /** The announcement that waits for a channel of the node. */
  lemma NodeWaits(sigs: Signatures, f: Filter, call: Call, n: NodeId)
    requires Inv(sigs, call.chain.Some?, f)
    ensures After(sigs, f, call).pending.Node(n) ==
      if IsNode(call, n) && !HasChannel(f.gossip, n) then Some(call.msg.node)
      else if Frees(sigs, f, call, n) then None
      else f.pending.Node(n)
  {
    if IsNode(call, n) {
      assert !HasChannel(f.gossip, n) ==> n !in f.gossip.nodes by {
        assert n in f.gossip.nodes ==> f.gossip.ChannelsOf(n) != {};
      }
    } else if a :| Adds(sigs, f.gossip, call, a) {
      AcceptExact(sigs, call.chain, f, call.msg.ann, a);
      forall b | Adds(sigs, f.gossip, call, b) ensures b == a {
        AcceptIff(sigs, call.chain, f, call.msg.ann, a);
        AcceptIff(sigs, call.chain, f, call.msg.ann, b);
      }
    } else {
      AddsNothing(sigs, f, call);
    }
    hide Inv, Valid, ValidateChannel;
  }

  /** Node announcement `j` of the run waits after `n` calls: its node had no channel when it came, and
      since then nothing has been looked at for the node and nothing has taken its place. */
  ghost predicate NodeWaiting(sigs: Signatures, calls: seq<Call>, j: nat, n: nat)
    requires j < n <= |calls| && calls[j].msg.OfNode?
  {
    var id := calls[j].msg.node.nodeId;
    !HasChannel(StoreAt(sigs, calls, j), id) &&
    forall i | j < i < n :: !Replaces(sigs, calls, i, id) && !FreesAt(sigs, calls, i, id)
  }

  predicate Replaces(sigs: Signatures, calls: seq<Call>, i: nat, n: NodeId)
    requires i < |calls|
  {
    IsNode(calls[i], n) && !HasChannel(StoreAt(sigs, calls, i), n)
  }

  ghost predicate FreesAt(sigs: Signatures, calls: seq<Call>, k: nat, n: NodeId)
    requires k < |calls|
  {
    Frees(sigs, Run(sigs, calls[..k]), calls[k], n)
  }

  /** It comes to be looked at in the first `n` calls. */
  ghost predicate NodeHeard(sigs: Signatures, calls: seq<Call>, n: nat, j: nat)
    requires j < n <= |calls| && calls[j].msg.OfNode?
  {
    var id := calls[j].msg.node.nodeId;
    HasChannel(StoreAt(sigs, calls, j), id) || exists k | j < k < n :: NodeFreed(sigs, calls, k, j)
  }

  ghost predicate NodeFreed(sigs: Signatures, calls: seq<Call>, k: nat, j: nat)
    requires j < k < |calls| && calls[j].msg.OfNode?
  {
    FreesAt(sigs, calls, k, calls[j].msg.node.nodeId) && NodeWaiting(sigs, calls, j, k)
  }

  /** What waits for a node is an announcement that was received and has been left waiting. */
  lemma {:induction false} WaitingWasReceived(sigs: Signatures, hasChain: bool, calls: seq<Call>, n: nat, id: NodeId)
      returns (j: nat)
    requires OneFilter(hasChain, calls) && n <= |calls| && Run(sigs, calls[..n]).pending.Node(id).Some?
    ensures j < n && IsNode(calls[j], id) && NodeWaiting(sigs, calls, j, n)
    ensures Run(sigs, calls[..n]).pending.Node(id) == Some(calls[j].msg.node)
    decreases n
  {
    hide Inv, Run, After, Frees;
    NoCalls(sigs, calls);
    if n > 0 {
      CallStep(sigs, hasChain, calls, n - 1);
      NodeWaits(sigs, Run(sigs, calls[..n - 1]), calls[n - 1], id);
      if Replaces(sigs, calls, n - 1, id) {
        j := n - 1;
      } else {
        j := WaitingWasReceived(sigs, hasChain, calls, n - 1, id);
      }
    }
  }

  /** And an announcement that has been left waiting waits. */
  lemma {:induction false} LeftWaiting(sigs: Signatures, hasChain: bool, calls: seq<Call>, j: nat, n: nat)
    requires OneFilter(hasChain, calls) && j < n <= |calls| && calls[j].msg.OfNode? && NodeWaiting(sigs, calls, j, n)
    ensures Run(sigs, calls[..n]).pending.Node(calls[j].msg.node.nodeId) == Some(calls[j].msg.node)
    decreases n
  {
    hide Inv, Run, After, Frees;
    var id := calls[j].msg.node.nodeId;
    CallStep(sigs, hasChain, calls, n - 1);
    NodeWaits(sigs, Run(sigs, calls[..n - 1]), calls[n - 1], id);
    if j < n - 1 {
      LeftWaiting(sigs, hasChain, calls, j, n - 1);
      assert !Replaces(sigs, calls, n - 1, id) && !FreesAt(sigs, calls, n - 1, id);
    }
  }

  lemma {:induction false} StoredNodeWasHeard(sigs: Signatures, hasChain: bool, calls: seq<Call>, n: nat, id: NodeId)
      returns (j: nat)
    requires OneFilter(hasChain, calls) && n <= |calls| && StoreAt(sigs, calls, n).Node(id).Some?
    ensures j < n && IsNode(calls[j], id) && StoreAt(sigs, calls, n).Node(id) == Some(calls[j].msg.node)
    ensures NodeHeard(sigs, calls, n, j)
    decreases n
  {
    hide Inv, Run, After, Adds, NodeAfter, FreesAt;
    NoCalls(sigs, calls);
    if n > 0 {
      var f, call := Run(sigs, calls[..n - 1]), calls[n - 1];
      CallStep(sigs, hasChain, calls, n - 1);
      NodeStored(sigs, f, call, id);
      if StoreAt(sigs, calls, n).Node(id) == StoreAt(sigs, calls, n - 1).Node(id) {
        j := StoredNodeWasHeard(sigs, hasChain, calls, n - 1, id);
      } else if IsNode(call, id) {
        j := n - 1;
      } else {
        var a :| Adds(sigs, f.gossip, call, a) && StoreAt(sigs, calls, n).Node(id) == NodeAfter(sigs, f, a, id);
        j := FreedWasHeard(sigs, hasChain, calls, n - 1, id, a);
      }
    }
  }

  lemma FreedWasHeard(sigs: Signatures, hasChain: bool, calls: seq<Call>, k: nat, id: NodeId, a: ChannelAnnouncement)
      returns (j: nat)
    requires OneFilter(hasChain, calls) && k < |calls| && Adds(sigs, StoreAt(sigs, calls, k), calls[k], a)
    requires var f := Run(sigs, calls[..k]); NodeAfter(sigs, f, a, id) != f.gossip.Node(id)
    ensures j < k && IsNode(calls[j], id) && NodeHeard(sigs, calls, k + 1, j)
    ensures NodeAfter(sigs, Run(sigs, calls[..k]), a, id) == Some(calls[j].msg.node)
  {
    hide Run, ReachesNode, Adds;
    j := WaitingWasReceived(sigs, hasChain, calls, k, id);
    assert FreesAt(sigs, calls, k, id);
    assert NodeFreed(sigs, calls, k, j);
  }

  lemma HeardNodeIsStored(sigs: Signatures, hasChain: bool, calls: seq<Call>, n: nat, j: nat)
    requires OneFilter(hasChain, calls) && j < n <= |calls| && calls[j].msg.OfNode? && NodeHeard(sigs, calls, n, j)
    requires sigs.node(calls[j].msg.node)
    ensures var w := calls[j].msg.node; AnnouncedSince(StoreAt(sigs, calls, n), w.nodeId, w.timestamp)
  {
    hide Inv, Run, After, Adds, NodeAfter, FreesAt, NodeWaiting;
    var w := calls[j].msg.node;
    if HasChannel(StoreAt(sigs, calls, j), w.nodeId) {
      CallStep(sigs, hasChain, calls, j);
      NodeStored(sigs, Run(sigs, calls[..j]), calls[j], w.nodeId);
      RunGrows(sigs, hasChain, calls, j + 1, n);
    } else {
      var k :| j < k < n && NodeFreed(sigs, calls, k, j);
      FreedIsStored(sigs, hasChain, calls, k, j);
      RunGrows(sigs, hasChain, calls, k + 1, n);
    }
  }

  lemma FreedIsStored(sigs: Signatures, hasChain: bool, calls: seq<Call>, k: nat, j: nat)
    requires OneFilter(hasChain, calls) && j < k < |calls| && calls[j].msg.OfNode? && NodeFreed(sigs, calls, k, j)
    requires sigs.node(calls[j].msg.node)
    ensures var w := calls[j].msg.node; AnnouncedSince(StoreAt(sigs, calls, k + 1), w.nodeId, w.timestamp)
  {
    hide Inv, Run, After, Adds, ReachesNode, NodeWaiting;
    var w := calls[j].msg.node;
    var f: Filter := Run(sigs, calls[..k]);
    var a :| Adds(sigs, f.gossip, calls[k], a) && a.Names(w.nodeId) && ReachesNode(sigs, f, a, w.nodeId);
    LeftWaiting(sigs, hasChain, calls, j, k);
    CallStep(sigs, hasChain, calls, k);
    NodeStored(sigs, f, calls[k], w.nodeId);
    NotYetAdded(sigs, f, calls[k], a);
  }

  /** Node announcement `j` of the run is well signed and was looked at. */
  ghost predicate NodeCounts(sigs: Signatures, calls: seq<Call>, j: nat, t: nat)
    requires j < |calls| && calls[j].msg.OfNode?
  {
    var w := calls[j].msg.node;
    w.timestamp >= t && sigs.node(w) && NodeHeard(sigs, calls, |calls|, j)
  }

  /** After every run an announcement of a node with a timestamp of at least `t` is stored if and only
      if one was received that is well signed and came to be looked at. */
  lemma NodeStoredIff(sigs: Signatures, hasChain: bool, calls: seq<Call>, id: NodeId, t: nat)
    requires OneFilter(hasChain, calls)
    ensures AnnouncedSince(Run(sigs, calls).gossip, id, t) <==>
      exists j | 0 <= j < |calls| && IsNode(calls[j], id) :: NodeCounts(sigs, calls, j, t)
  {
    hide NodeHeard, Run;
    var n := |calls|;
    assert calls[..n] == calls;
    if AnnouncedSince(Run(sigs, calls).gossip, id, t) {
      var j := StoredNodeWasHeard(sigs, hasChain, calls, n, id);
      StoredNodeIsSigned(sigs, hasChain, calls, id);
      assert NodeCounts(sigs, calls, j, t);
    }
    if j :| 0 <= j < n && IsNode(calls[j], id) && NodeCounts(sigs, calls, j, t) {
      HeardNodeIsStored(sigs, hasChain, calls, n, j);
    }
  }

  lemma StoredNodeIsSigned(sigs: Signatures, hasChain: bool, calls: seq<Call>, id: NodeId)
    requires OneFilter(hasChain, calls) && id in Run(sigs, calls).gossip.nodes
    ensures sigs.node(Run(sigs, calls).gossip.nodes[id])
  {
    RunKeepsInv(sigs, hasChain, calls);
    hide AnnsOk, UpdsOk, LinksOk, OutPointsOk, PendingInv, Run;
  }

  // ---------------------------------------------------------------- channels, over every run

  /** A call with a validly signed announcement of the channel, whose output is on the chain if there
      is a chain client. */
  ghost predicate Announces(sigs: Signatures, call: Call, s: Scid) {
    call.msg.OfChannel? && call.msg.ann.scid == s && sigs.ann(call.msg.ann) &&
    (call.chain.Some? ==> exists data: OnChain :: FundedBy(call.chain.value, call.msg.ann, data))
  }

  lemma AnnouncedOrKnown(sigs: Signatures, f: Filter, call: Call, s: Scid)
    requires Inv(sigs, call.chain.Some?, f)
    ensures s in After(sigs, f, call).gossip.anns <==> s in f.gossip.anns || Announces(sigs, call, s)
  {
    if Announces(sigs, call, s) && s !in f.gossip.anns {
      var m := call.msg.ann;
      var a := if call.chain.None? then m
        else var data: OnChain :| FundedBy(call.chain.value, m, data); m.(extended := Some(data));
      assert Adds(sigs, f.gossip, call, a);
      AcceptExact(sigs, call.chain, f, m, a);
    } else if a :| Adds(sigs, f.gossip, call, a) {
      AcceptExact(sigs, call.chain, f, call.msg.ann, a);
    } else {
      AddsNothing(sigs, f, call);
    }
    hide Inv, After;
  }

  /** After every run a channel is announced if and only if some call announced it validly. */
  lemma {:induction false} ChannelStoredIff(sigs: Signatures, hasChain: bool, calls: seq<Call>, n: nat, s: Scid)
    requires OneFilter(hasChain, calls) && n <= |calls|
    ensures s in StoreAt(sigs, calls, n).anns <==> exists k | 0 <= k < n :: Announces(sigs, calls[k], s)
    decreases n
  {
    hide Inv, Run, After, Announces;
    NoCalls(sigs, calls);
    if n > 0 {
      ChannelStoredIff(sigs, hasChain, calls, n - 1, s);
      CallStep(sigs, hasChain, calls, n - 1);
      AnnouncedOrKnown(sigs, Run(sigs, calls[..n - 1]), calls[n - 1], s);
    }
  }
}
