/** Which valid messages are stored and never passed on to peers. */
module GossipBroadcasts {
  import opened Wrappers
  import opened GossipMemoryStore
  import opened GossipFilter
  import opened GossipFilterRuns

  // ---------------------------------------------------------------- one call

  /** A call that turned the shared store from `g` into `h` has stored a message that it does not return. */
  ghost predicate Silent(g: Store, h: Store, r: Outcome) {
    exists m: Message :: Stored(h, m) && !Stored(g, m) && (r.Err? || m !in r.value)
  }

  /** A node announcement that is checked when its channel comes, and whose signature is bad. */
  predicate RefusedNode(sigs: Signatures, g: Store, n: Option<NodeAnnouncement>) {
    BadNode(sigs, n) && !NewerStored(g, n.value)
  }

  predicate NewerStored(g: Store, n: NodeAnnouncement) {
    g.Node(n.nodeId).Some? && g.Node(n.nodeId).value.timestamp >= n.timestamp
  }

  /** A badly signed message waits for the channel of `a`. */
  predicate BadWaits(sigs: Signatures, f: Filter, a: ChannelAnnouncement) {
    || BadUpdate(sigs, a, f.pending.Upd(a.scid, 0)) || BadUpdate(sigs, a, f.pending.Upd(a.scid, 1))
    || RefusedNode(sigs, f.gossip, f.pending.Node(a.nodeId1)) || RefusedNode(sigs, f.gossip, f.pending.Node(a.nodeId2))
  }

  /** Validating a waiting node announcement whose node has a channel fails exactly when it is refused;
      it is not refused a second time. */
  lemma ReleaseNodeErr(sigs: Signatures, r: (Filter, Outcome), n: Option<NodeAnnouncement>)
    requires r.1.Ok? && (n.Some? ==> r.0.gossip.ChannelsOf(n.value.nodeId) != {})
    ensures var r' := ReleaseNode(sigs, r, n);
      SameChannels(r.0, r'.0) && (r'.1.Err? <==> RefusedNode(sigs, r.0.gossip, n)) &&
      (n.Some? && r'.1.Ok? ==> NewerStored(r'.0.gossip, n.value)) &&
      forall k: NodeId | n.None? || k != n.value.nodeId :: r'.0.gossip.Node(k) == r.0.gossip.Node(k)
  {}

  lemma TwoNodesErr(sigs: Signatures, r: (Filter, Outcome), n1: Option<NodeAnnouncement>, n2: Option<NodeAnnouncement>)
    requires r.1.Ok?
    requires n1.Some? ==> r.0.gossip.ChannelsOf(n1.value.nodeId) != {}
    requires n2.Some? ==> r.0.gossip.ChannelsOf(n2.value.nodeId) != {}
    requires n1.Some? && n2.Some? && n1.value.nodeId == n2.value.nodeId ==> n1 == n2
    ensures ReleaseNode(sigs, ReleaseNode(sigs, r, n1), n2).1.Err? <==>
      RefusedNode(sigs, r.0.gossip, n1) || RefusedNode(sigs, r.0.gossip, n2)
  {
    ReleaseNodeErr(sigs, r, n1);
    var r1 := ReleaseNode(sigs, r, n1);
    assert n2.Some? ==> r1.0.gossip.ChannelsOf(n2.value.nodeId) == r.0.gossip.ChannelsOf(n2.value.nodeId);
    hide ReleaseNode;
    if r1.1.Ok? {
      ReleaseNodeErr(sigs, r1, n2);
    } else {
      NodeErrStays(sigs, r1, [n2]);
      UnrollNode(sigs, r1, n2);
    }
  }

  /** The messages that wait for a channel are all accepted exactly when none is badly signed. */
  lemma ReleaseErrIff(sigs: Signatures, f: Filter, a: ChannelAnnouncement)
    requires PendingInv(f.pending) && f.gossip.Ann(a.scid) == Some(a)
    requires forall d: Direction :: f.gossip.Upd(a.scid, d).None?
    requires f.gossip.ChannelsOf(a.nodeId1) != {} && f.gossip.ChannelsOf(a.nodeId2) != {}
    ensures ReleaseNodes(sigs, ReleaseUpdates(sigs, f, a), a).1.Err? <==> BadWaits(sigs, f, a)
  {
    var u0, u1 := f.pending.Upd(a.scid, 0), f.pending.Upd(a.scid, 1);
    var n1, n2 := f.pending.Node(a.nodeId1), f.pending.Node(a.nodeId2);
    var r := (f, Ok([OfChannel(a)]));
    assert n1.Some? ==> n1.value.nodeId == a.nodeId1;
    assert n2.Some? ==> n2.value.nodeId == a.nodeId2;
    hide ReleaseUpdate, ReleaseNode, BadUpdate, BadNode, PendingInv, ReleaseEachUpdate, ReleaseEachNode;
    UnrollUpdates(sigs, r, u0, u1);
    ReleaseTwoUpdates(sigs, r, a, u0, u1);
    var r2 := ReleaseUpdates(sigs, f, a);
    if r2.1.Err? {
      NodesErrStays(sigs, r2, a);
    } else {
      assert forall n: NodeId :: r2.0.gossip.ChannelsOf(n) == f.gossip.ChannelsOf(n);
      assert forall n: NodeId :: r2.0.gossip.Node(n) == f.gossip.Node(n);
      assert r2.0.pending.nodes == f.pending.nodes;
      UnrollNodes(sigs, r2, n1, n2);
      TwoNodesErr(sigs, r2, n1, n2);
    }
  }

  lemma AcceptErrIff(sigs: Signatures, hasChain: bool, f: Filter, a: ChannelAnnouncement)
    requires Inv(sigs, hasChain, f) && a.scid !in f.gossip.anns
    ensures var saved := f.(gossip := SaveAnn(f.gossip, a));
      ReleaseNodes(sigs, ReleaseUpdates(sigs, saved, a), a).1.Err? <==> BadWaits(sigs, f, a)
  {
    var saved := f.(gossip := SaveAnn(f.gossip, a));
    SavedFacts(sigs, hasChain, f, a);
    hide Inv, SaveAnn, PendingInv, ReleaseUpdates, ReleaseNodes, BadNode;
    ReleaseErrIff(sigs, saved, a);
  }

  /** A call stores a message without returning it exactly when it accepts an announcement for which
      a badly signed message waits; the announcement is then such a message. */
  lemma SilentIff(sigs: Signatures, chain: Option<Chain>, f: Filter, m: Message)
    requires Inv(sigs, chain.Some?, f)
    ensures var r := Validate(sigs, chain, f, m);
      Silent(f.gossip, r.0.gossip, r.1) <==> Silences(sigs, chain, f, m)
    ensures Silences(sigs, chain, f, m) ==>
      var r, a := Validate(sigs, chain, f, m), OfChannel(Judge(sigs, chain, f, m.ann).ann);
      r.1.Err? && Stored(r.0.gossip, a) && !Stored(f.gossip, a)
  {
    ValidateKeeps(sigs, chain, f, m);
    match m
    case OfChannel(c) =>
      if Judge(sigs, chain, f, c).Accept? {
        AcceptIsNew(sigs, chain, f, c);
        AcceptSilent(sigs, chain.Some?, f, Judge(sigs, chain, f, c).ann);
      }
      hide Inv, Judge, ReleaseUpdates, ReleaseNodes, BadWaits, SaveAnn;
    case OfUpdate(u) =>
    case OfNode(n) =>
    case Other =>
  }

  predicate Silences(sigs: Signatures, chain: Option<Chain>, f: Filter, m: Message) {
    m.OfChannel? && Judge(sigs, chain, f, m.ann).Accept? && BadWaits(sigs, f, Judge(sigs, chain, f, m.ann).ann)
  }

  lemma AcceptSilent(sigs: Signatures, hasChain: bool, f: Filter, a: ChannelAnnouncement)
    requires Inv(sigs, hasChain, f) && a.scid !in f.gossip.anns
    requires Verified(sigs, a) && (hasChain ==> a.extended.Some?)
    ensures var saved := f.(gossip := SaveAnn(f.gossip, a));
      var r := ReleaseNodes(sigs, ReleaseUpdates(sigs, saved, a), a);
      (r.1.Err? <==> BadWaits(sigs, f, a)) && Stored(r.0.gossip, OfChannel(a)) && !Stored(f.gossip, OfChannel(a))
  {
    var saved := f.(gossip := SaveAnn(f.gossip, a));
    AcceptErrIff(sigs, hasChain, f, a);
    SavedProgress(sigs, hasChain, f, a);
    hide Inv, Progress, ReleaseUpdates, ReleaseNodes, Verified, BadWaits;
    ReleaseUpdatesProgress(sigs, hasChain, f.gossip, saved, a);
    ReleaseNodesProgress(sigs, hasChain, f.gossip, ReleaseUpdates(sigs, saved, a), a);
  }

  // ---------------------------------------------------------------- runs

  /** Some call of the run returned `m`. */
  predicate Broadcast(sigs: Signatures, calls: seq<Call>, m: Message) {
    exists i | 0 <= i < |calls| :: Returned(sigs, calls, i).Ok? && m in Returned(sigs, calls, i).value
  }

  /** Everything in the shared store has been broadcast. */
  ghost predicate AllBroadcast(sigs: Signatures, calls: seq<Call>) {
    forall m: Message | Stored(Run(sigs, calls).gossip, m) :: Broadcast(sigs, calls, m)
  }

  predicate NeverSilences(sigs: Signatures, calls: seq<Call>) {
    forall i | 0 <= i < |calls| :: !Silences(sigs, calls[i].chain, Run(sigs, calls[..i]), calls[i].msg)
  }

  lemma CallSilentIff(sigs: Signatures, hasChain: bool, calls: seq<Call>, i: nat)
    requires OneFilter(hasChain, calls) && i < |calls|
    ensures var f, g := Run(sigs, calls[..i]), Run(sigs, calls[..i + 1]);
      Silent(f.gossip, g.gossip, Returned(sigs, calls, i)) <==> Silences(sigs, calls[i].chain, f, calls[i].msg)
    ensures var f, g := Run(sigs, calls[..i]), Run(sigs, calls[..i + 1]);
      Silences(sigs, calls[i].chain, f, calls[i].msg) ==>
        var a := OfChannel(Judge(sigs, calls[i].chain, f, calls[i].msg.ann).ann);
        Returned(sigs, calls, i).Err? && Stored(g.gossip, a) && !Stored(f.gossip, a)
  {
    hide Inv, Validate, Silences, Silent, Judge, Run;
    RunKeepsInv(sigs, hasChain, calls[..i]);
    RunStep(sigs, calls, i);
    SilentIff(sigs, calls[i].chain, Run(sigs, calls[..i]), calls[i].msg);
  }

  /** An announcement that a call stores without returning is never broadcast. */
  lemma SilencedForGood(sigs: Signatures, hasChain: bool, calls: seq<Call>, i: nat, a: ChannelAnnouncement)
    requires OneFilter(hasChain, calls) && i < |calls| && Returned(sigs, calls, i).Err?
    requires Stored(Run(sigs, calls[..i + 1]).gossip, OfChannel(a)) &&
      !Stored(Run(sigs, calls[..i]).gossip, OfChannel(a))
    ensures Stored(Run(sigs, calls).gossip, OfChannel(a)) && !Broadcast(sigs, calls, OfChannel(a))
  {
    hide Run, Returned, Inv;
    assert calls[..|calls|] == calls;
    AnnStays(sigs, hasChain, calls, i + 1, |calls|, a);
    forall j | 0 <= j < |calls| && Returned(sigs, calls, j).Ok?
      ensures OfChannel(a) !in Returned(sigs, calls, j).value
    {
      StepKeeps(sigs, hasChain, calls, j);
      if j < i && Stored(Run(sigs, calls[..j + 1]).gossip, OfChannel(a)) {
        AnnStays(sigs, hasChain, calls, j + 1, i, a);
      }
      if j > i { AnnStays(sigs, hasChain, calls, i + 1, j, a); }
    }
  }

  lemma AnnStays(sigs: Signatures, hasChain: bool, calls: seq<Call>, i: nat, j: nat, a: ChannelAnnouncement)
    requires OneFilter(hasChain, calls) && i <= j <= |calls|
    requires Stored(Run(sigs, calls[..i]).gossip, OfChannel(a))
    ensures Stored(Run(sigs, calls[..j]).gossip, OfChannel(a))
  {
    hide Run;
    RunGrows(sigs, hasChain, calls, i, j);
  }

  /** If no call is silent, whatever is stored after `n` calls has been broadcast by one of them. */
  lemma {:induction false} StoredWasBroadcast(sigs: Signatures, hasChain: bool, calls: seq<Call>, n: nat, m: Message)
      returns (i: nat)
    requires OneFilter(hasChain, calls) && NeverSilences(sigs, calls) && n <= |calls|
    requires Stored(Run(sigs, calls[..n]).gossip, m)
    ensures i < n && Returned(sigs, calls, i).Ok? && m in Returned(sigs, calls, i).value
    decreases n
  {
    NothingStored(m);
    assert Run(sigs, calls[..0]) == Filter(Empty(), Empty());
    hide Returned, Inv, Silences, BroadcastsNew, Run, Stored;
    if n > 0 {
      if Stored(Run(sigs, calls[..n - 1]).gossip, m) {
        i := StoredWasBroadcast(sigs, hasChain, calls, n - 1, m);
      } else {
        i := n - 1;
        CallSilentIff(sigs, hasChain, calls, i);
      }
    }
  }

  lemma NothingStored(m: Message)
    ensures !Stored(Empty(), m)
  {}

  /** After a run everything in the shared store has been broadcast exactly when no call accepted an
      announcement for which a badly signed message waited. */
  lemma AllBroadcastIff(sigs: Signatures, hasChain: bool, calls: seq<Call>)
    requires OneFilter(hasChain, calls)
    ensures AllBroadcast(sigs, calls) <==> NeverSilences(sigs, calls)
  {
    hide Run, Returned, Silences, Stored;
    assert calls[..|calls|] == calls;
    if NeverSilences(sigs, calls) {
      forall m: Message | Stored(Run(sigs, calls).gossip, m) ensures Broadcast(sigs, calls, m) {
        var i := StoredWasBroadcast(sigs, hasChain, calls, |calls|, m);
      }
    } else {
      var i :| 0 <= i < |calls| && Silences(sigs, calls[i].chain, Run(sigs, calls[..i]), calls[i].msg);
      var a := SilencedAnn(sigs, hasChain, calls, i);
      SilencedForGood(sigs, hasChain, calls, i, a);
    }
  }

  lemma SilencedAnn(sigs: Signatures, hasChain: bool, calls: seq<Call>, i: nat) returns (a: ChannelAnnouncement)
    requires OneFilter(hasChain, calls) && i < |calls|
    requires Silences(sigs, calls[i].chain, Run(sigs, calls[..i]), calls[i].msg)
    ensures Returned(sigs, calls, i).Err?
    ensures Stored(Run(sigs, calls[..i + 1]).gossip, OfChannel(a)) &&
      !Stored(Run(sigs, calls[..i]).gossip, OfChannel(a))
  {
    hide Run, Returned, Inv;
    CallSilentIff(sigs, hasChain, calls, i);
    a := Judge(sigs, calls[i].chain, Run(sigs, calls[..i]), calls[i].msg.ann).ann;
  }
}
