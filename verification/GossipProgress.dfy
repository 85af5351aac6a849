/** That valid messages get through: what every call stores and returns, stated on the messages and
    the stores, and what is stored after every run. */
module GossipProgress {
  import opened Wrappers
  import opened GossipMemoryStore
  import opened GossipFilter
  import opened GossipFilterRuns
  import opened GossipBroadcasts

  // ---------------------------------------------------------------- one update, one node announcement

  /** The node that must have signed an update. */
  function NodeOf(a: ChannelAnnouncement, d: Direction): NodeId {
    match d
    case 0 => a.nodeId1
    case 1 => a.nodeId2
  }

  /** An update of the channel and direction with a timestamp of at least `t` is stored. */
  predicate UpdatedSince(g: Store, s: Scid, d: Direction, t: nat) {
    (s, d) in g.upds && g.upds[(s, d)].timestamp >= t
  }

  predicate AnnouncedSince(g: Store, n: NodeId, t: nat) {
    n in g.nodes && g.nodes[n].timestamp >= t
  }

  /** The node has a channel. */
  predicate HasChannel(g: Store, n: NodeId) {
    n in g.nodeChannels && g.nodeChannels[n] != {}
  }

  /** An update becomes the stored one of its channel and direction and is the one message returned if
      and only if its channel is announced, no update at least as new is stored and the node of its
      direction has signed it. */
  lemma UpdateIff(sigs: Signatures, chain: Option<Chain>, f: Filter, u: ChannelUpdate)
    ensures var (f', r) := Validate(sigs, chain, f, OfUpdate(u));
      (r.Ok? && OfUpdate(u) in r.value <==>
        u.scid in f.gossip.anns && !UpdatedSince(f.gossip, u.scid, u.direction, u.timestamp) &&
        sigs.upd(u, NodeOf(f.gossip.anns[u.scid], u.direction))) &&
      (r.Ok? && OfUpdate(u) in r.value ==>
        r.value == [OfUpdate(u)] && f' == f.(gossip := f'.gossip) &&
        f'.gossip == f.gossip.(upds := f.gossip.upds[(u.scid, u.direction) := u]))
  {}

  /** Otherwise it waits if its channel is not announced, in place of any that waited before it, is
      ignored if it is not newer, and is an error if it is badly signed. */
  lemma UpdateElse(sigs: Signatures, chain: Option<Chain>, f: Filter, u: ChannelUpdate)
    ensures var (f', r) := Validate(sigs, chain, f, OfUpdate(u));
      var announced, known := u.scid in f.gossip.anns, UpdatedSince(f.gossip, u.scid, u.direction, u.timestamp);
      (!announced ==>
        r == Ok([]) && f' == f.(pending := f.pending.(upds := f.pending.upds[(u.scid, u.direction) := u]))) &&
      (announced && known ==> f' == f && r == Ok([])) &&
      (announced && !known && !sigs.upd(u, NodeOf(f.gossip.anns[u.scid], u.direction)) ==>
        f' == f && r == Err(WireError(ChanUpdSigFailed, OfUpdate(u))))
  {}

  lemma NodeIff(sigs: Signatures, chain: Option<Chain>, f: Filter, n: NodeAnnouncement)
    ensures var (f', r) := Validate(sigs, chain, f, OfNode(n));
      (r.Ok? && OfNode(n) in r.value <==>
        HasChannel(f.gossip, n.nodeId) && !AnnouncedSince(f.gossip, n.nodeId, n.timestamp) && sigs.node(n)) &&
      (r.Ok? && OfNode(n) in r.value ==>
        r.value == [OfNode(n)] && f' == f.(gossip := f'.gossip) &&
        f'.gossip == f.gossip.(nodes := f.gossip.nodes[n.nodeId := n]))
  {}

  lemma NodeElse(sigs: Signatures, chain: Option<Chain>, f: Filter, n: NodeAnnouncement)
    ensures var (f', r) := Validate(sigs, chain, f, OfNode(n));
      var known, channel := AnnouncedSince(f.gossip, n.nodeId, n.timestamp), HasChannel(f.gossip, n.nodeId);
      (known ==> f' == f && r == Ok([])) &&
      (!known && !channel ==>
        r == Ok([]) && f' == f.(pending := f.pending.(nodes := f.pending.nodes[n.nodeId := n]))) &&
      (!known && channel && !sigs.node(n) ==> f' == f && r == Err(WireError(NodeAnnSigFailed, OfNode(n))))
  {}

  // ---------------------------------------------------------------- an announcement and what waits for it

  /** The announcement is new and valid, and `a` is what is to be stored of it. */
  predicate Valid(sigs: Signatures, chain: Option<Chain>, g: Store, m: ChannelAnnouncement, a: ChannelAnnouncement) {
    m.scid !in g.anns && sigs.ann(m) && a == m.(extended := a.extended) &&
    if chain.None? then a.extended == m.extended else a.extended.Some? && FundedBy(chain.value, m, a.extended.value)
  }

  /** Why the chain does not have the channel's output, if it does not. */
  function Missing(chain: Chain, m: ChannelAnnouncement): Option<Code> {
    var hash := chain.getBlockHash(m.scid.block);
    var block := chain.getBlock(hash);
    var txid := if block.Some? && m.scid.txIdx < |block.value| then block.value[m.scid.txIdx] else "";
    var utxo := chain.getUtxo(txid, m.scid.voutIdx);
    if hash == "" then Some(ChanBadBlockHash)
    else if block.None? then Some(ChanBadBlock)
    else if txid == "" then Some(ChanAnnBadTx)
    else if utxo.None? then Some(ChanUtxoSpent)
    else if utxo.value.script != chain.fundingScript(m.bitcoinKey1, m.bitcoinKey2) then Some(ChanBadScript)
    else None
  }

  /** An announcement of a known channel is ignored; one that is badly signed or whose output is not on
      the chain is refused with its reason; none of them changes anything. */
  lemma AnnouncementElse(sigs: Signatures, chain: Option<Chain>, f: Filter, m: ChannelAnnouncement)
    requires Inv(sigs, chain.Some?, f)
    ensures var (g, r) := Validate(sigs, chain, f, OfChannel(m));
      if m.scid in f.gossip.anns then g == f && r == Ok([])
      else if !sigs.ann(m) then g == f && r == Err(WireError(ChanAnnSigFailed, OfChannel(m)))
      else if chain.Some? && Missing(chain.value, m).Some? then
        g == f && r == Err(WireError(Missing(chain.value, m).value, OfChannel(m)))
      else exists a: ChannelAnnouncement :: Valid(sigs, chain, f.gossip, m, a)
  {
    if m.scid in f.gossip.anns {
      assert f.gossip.anns[m.scid].scid == m.scid;
    } else if sigs.ann(m) {
      if chain.None? {
        assert Valid(sigs, chain, f.gossip, m, m);
      } else if Missing(chain.value, m).None? {
        var data := OnChainData(chain.value, m).value;
        assert Valid(sigs, chain, f.gossip, m, m.(extended := Some(data)));
      }
    }
    hide Inv;
  }

  /** The waiting update of direction `d` is looked at: the other one is looked at first. */
  predicate ReachesUpdate(sigs: Signatures, f: Filter, a: ChannelAnnouncement, d: Direction) {
    d == 0 || !BadUpdate(sigs, a, f.pending.Upd(a.scid, 0))
  }

  /** The waiting announcement of node `n` of the channel is looked at: behind the updates, and that
      of the first node first. */
  predicate ReachesNode(sigs: Signatures, f: Filter, a: ChannelAnnouncement, n: NodeId) {
    !BadUpdate(sigs, a, f.pending.Upd(a.scid, 0)) && !BadUpdate(sigs, a, f.pending.Upd(a.scid, 1)) &&
    (n == a.nodeId1 || !RefusedNode(sigs, f.gossip, f.pending.Node(a.nodeId1)))
  }

  /** The update stored for a channel and direction after `a` has been accepted. */
  function UpdAfter(sigs: Signatures, f: Filter, a: ChannelAnnouncement, s: Scid, d: Direction): Option<ChannelUpdate> {
    var w := f.pending.Upd(s, d);
    if s == a.scid && ReachesUpdate(sigs, f, a, d) && w.Some? && sigs.upd(w.value, NodeOf(a, d)) then w
    else f.gossip.Upd(s, d)
  }

  function NodeAfter(sigs: Signatures, f: Filter, a: ChannelAnnouncement, n: NodeId): Option<NodeAnnouncement> {
    var w := f.pending.Node(n);
    if a.Names(n) && ReachesNode(sigs, f, a, n) && w.Some? && sigs.node(w.value) &&
       !AnnouncedSince(f.gossip, n, w.value.timestamp) then w
    else f.gossip.Node(n)
  }

  /** The updates after `a` was accepted: those of other channels as they were, those of the channel
      the waiting ones that were looked at and are well signed. */
  ghost predicate UpdatesExact(sigs: Signatures, f: Filter, a: ChannelAnnouncement, g: Filter) {
    && (forall s: Scid, d: Direction :: g.gossip.Upd(s, d) == UpdAfter(sigs, f, a, s, d))
    && (forall s: Scid, d: Direction :: g.pending.Upd(s, d) ==
          if s == a.scid && ReachesUpdate(sigs, f, a, d) then None else f.pending.Upd(s, d))
  }

  ghost predicate NodesExact(sigs: Signatures, f: Filter, a: ChannelAnnouncement, g: Filter) {
    && (forall n: NodeId :: g.gossip.Node(n) == NodeAfter(sigs, f, a, n))
    && (forall n: NodeId :: g.pending.Node(n) ==
          if a.Names(n) && ReachesNode(sigs, f, a, n) then None else f.pending.Node(n))
  }

  lemma UpdateStep(sigs: Signatures, r: (Filter, Outcome), a: ChannelAnnouncement, d: Direction,
      u: Option<ChannelUpdate>)
    requires r.1.Ok? && r.0.gossip.Ann(a.scid) == Some(a) && r.0.gossip.Upd(a.scid, d).None?
    requires u == r.0.pending.Upd(a.scid, d) && (u.Some? ==> u.value.scid == a.scid && u.value.direction == d)
    ensures var (g, o) := ReleaseUpdate(sigs, r, u);
      g.pending.nodes == r.0.pending.nodes && g.gossip.nodes == r.0.gossip.nodes && SameChannels(r.0, g) &&
      (o.Err? <==> BadUpdate(sigs, a, u)) &&
      (forall s: Scid, e: Direction :: g.pending.Upd(s, e) ==
         if s == a.scid && e == d then None else r.0.pending.Upd(s, e)) &&
      (forall s: Scid, e: Direction :: g.gossip.Upd(s, e) ==
         if s == a.scid && e == d && u.Some? && sigs.upd(u.value, NodeOf(a, d)) then u else r.0.gossip.Upd(s, e))
  {}

  lemma UpdatesReleased(sigs: Signatures, f: Filter, a: ChannelAnnouncement)
    requires PendingInv(f.pending) && f.gossip.Ann(a.scid) == Some(a)
    requires forall d: Direction :: f.gossip.Upd(a.scid, d).None?
    ensures var (g, o) := ReleaseUpdates(sigs, f, a);
      g.pending.nodes == f.pending.nodes && g.gossip.nodes == f.gossip.nodes && SameChannels(f, g) &&
      UpdatesExact(sigs, f, a, g) &&
      (o.Err? <==> BadUpdate(sigs, a, f.pending.Upd(a.scid, 0)) || BadUpdate(sigs, a, f.pending.Upd(a.scid, 1)))
  {
    var u0, u1 := f.pending.Upd(a.scid, 0), f.pending.Upd(a.scid, 1);
    var r := (f, Ok([OfChannel(a)]));
    assert u0.Some? ==> u0.value.scid == a.scid && u0.value.direction == 0;
    assert u1.Some? ==> u1.value.scid == a.scid && u1.value.direction == 1;
    hide ReleaseUpdate, PendingInv, ReleaseEachUpdate;
    UnrollUpdates(sigs, r, u0, u1);
    UpdateStep(sigs, r, a, 0, u0);
    var r0 := ReleaseUpdate(sigs, r, u0);
    if r0.1.Ok? {
      UpdateStep(sigs, r0, a, 1, u1);
    } else {
      ErrStays(sigs, r0, [u1]);
      UnrollUpdate(sigs, r0, u1);
    }
  }

  lemma NodeStep(sigs: Signatures, r: (Filter, Outcome), w: Option<NodeAnnouncement>)
    requires r.1.Ok? && (w.Some? ==> r.0.gossip.ChannelsOf(w.value.nodeId) != {})
    ensures var (g, o) := ReleaseNode(sigs, r, w);
      g.pending.upds == r.0.pending.upds && g.gossip.upds == r.0.gossip.upds && SameChannels(r.0, g) &&
      (o.Err? <==> RefusedNode(sigs, r.0.gossip, w)) &&
      (forall n: NodeId :: g.pending.Node(n) ==
         if w.Some? && w.value.nodeId == n then None else r.0.pending.Node(n)) &&
      (forall n: NodeId :: g.gossip.Node(n) == Newer(sigs, n, w, r.0.gossip.Node(n)))
  {}

  /** What is stored for node `n` once `w` has been looked at. */
  function Newer(sigs: Signatures, n: NodeId, w: Option<NodeAnnouncement>, stored: Option<NodeAnnouncement>)
    : Option<NodeAnnouncement>
  {
    if w.Some? && w.value.nodeId == n && sigs.node(w.value) &&
       (stored.None? || stored.value.timestamp < w.value.timestamp) then w else stored
  }

  /** The first of the two nodes is looked at, and then the second one unless the first is refused. */
  lemma NewerTwice(sigs: Signatures, f: Filter, a: ChannelAnnouncement, n: NodeId)
    requires PendingInv(f.pending)
    requires !BadUpdate(sigs, a, f.pending.Upd(a.scid, 0)) && !BadUpdate(sigs, a, f.pending.Upd(a.scid, 1))
    ensures var w1, w2 := f.pending.Node(a.nodeId1), f.pending.Node(a.nodeId2);
      var first := Newer(sigs, n, w1, f.gossip.Node(n));
      NodeAfter(sigs, f, a, n) ==
        if RefusedNode(sigs, f.gossip, w1) then first else Newer(sigs, n, w2, first)
  {
    hide BadUpdate;
    var w1, w2 := f.pending.Node(a.nodeId1), f.pending.Node(a.nodeId2);
    assert w1.Some? ==> w1.value.nodeId == a.nodeId1;
    assert w2.Some? ==> w2.value.nodeId == a.nodeId2;
    hide PendingInv;
  }

  lemma NothingReached(sigs: Signatures, f: Filter, a: ChannelAnnouncement)
    requires BadUpdate(sigs, a, f.pending.Upd(a.scid, 0)) || BadUpdate(sigs, a, f.pending.Upd(a.scid, 1))
    ensures forall n: NodeId :: NodeAfter(sigs, f, a, n) == f.gossip.Node(n) && !ReachesNode(sigs, f, a, n)
  {
    hide BadUpdate;
  }

  /** The two slots that were looked at are empty. */
  lemma Looked(sigs: Signatures, f: Filter, a: ChannelAnnouncement, n: NodeId)
    requires PendingInv(f.pending)
    requires !BadUpdate(sigs, a, f.pending.Upd(a.scid, 0)) && !BadUpdate(sigs, a, f.pending.Upd(a.scid, 1))
    ensures var w1, w2 := f.pending.Node(a.nodeId1), f.pending.Node(a.nodeId2);
      (if a.Names(n) && ReachesNode(sigs, f, a, n) then None else f.pending.Node(n)) ==
        if w1.Some? && w1.value.nodeId == n then None
        else if !RefusedNode(sigs, f.gossip, w1) && w2.Some? && w2.value.nodeId == n then None
        else f.pending.Node(n)
  {
    hide BadUpdate, BadNode;
    var w1, w2 := f.pending.Node(a.nodeId1), f.pending.Node(a.nodeId2);
    assert w1.Some? ==> w1.value.nodeId == a.nodeId1;
    assert w2.Some? ==> w2.value.nodeId == a.nodeId2;
    hide PendingInv;
  }

  /** Both nodes' waiting announcements are looked at, the second one unless the first is refused. */
  lemma TwoNodes(sigs: Signatures, r: (Filter, Outcome), a: ChannelAnnouncement, w1: Option<NodeAnnouncement>,
      w2: Option<NodeAnnouncement>)
    requires r.1.Ok? && (w1.Some? ==> r.0.gossip.ChannelsOf(w1.value.nodeId) != {})
    requires w2.Some? ==> r.0.gossip.ChannelsOf(w2.value.nodeId) != {}
    ensures var g := ReleaseNode(sigs, ReleaseNode(sigs, r, w1), w2).0;
      var refused := RefusedNode(sigs, r.0.gossip, w1);
      g.pending.upds == r.0.pending.upds && g.gossip.upds == r.0.gossip.upds && SameChannels(r.0, g) &&
      (forall n: NodeId :: g.pending.Node(n) ==
         if w1.Some? && w1.value.nodeId == n then None
         else if !refused && w2.Some? && w2.value.nodeId == n then None
         else r.0.pending.Node(n)) &&
      (forall n: NodeId :: g.gossip.Node(n) ==
         var first := Newer(sigs, n, w1, r.0.gossip.Node(n));
         if refused then first else Newer(sigs, n, w2, first))
  {
    hide ReleaseNode, RefusedNode, Newer, ReleaseEachNode;
    NodeStep(sigs, r, w1);
    var r1 := ReleaseNode(sigs, r, w1);
    if r1.1.Ok? {
      assert w2.Some? ==> r1.0.gossip.ChannelsOf(w2.value.nodeId) == r.0.gossip.ChannelsOf(w2.value.nodeId);
      NodeStep(sigs, r1, w2);
    } else {
      NodeErrStays(sigs, r1, [w2]);
      UnrollNode(sigs, r1, w2);
    }
  }

  lemma NodesReleased(sigs: Signatures, f: Filter, r: (Filter, Outcome), a: ChannelAnnouncement)
    requires PendingInv(f.pending) && r.0.pending.nodes == f.pending.nodes && r.0.gossip.nodes == f.gossip.nodes
    requires r.0.gossip.ChannelsOf(a.nodeId1) != {} && r.0.gossip.ChannelsOf(a.nodeId2) != {}
    requires r.1.Err? <==> BadUpdate(sigs, a, f.pending.Upd(a.scid, 0)) || BadUpdate(sigs, a, f.pending.Upd(a.scid, 1))
    ensures var g := ReleaseNodes(sigs, r, a).0;
      g.pending.upds == r.0.pending.upds && g.gossip.upds == r.0.gossip.upds && SameChannels(r.0, g) &&
      NodesExact(sigs, f, a, g)
  {
    var w1, w2 := f.pending.Node(a.nodeId1), f.pending.Node(a.nodeId2);
    assert w1.Some? ==> w1.value.nodeId == a.nodeId1;
    assert w2.Some? ==> w2.value.nodeId == a.nodeId2;
    assert w1 == r.0.pending.Node(a.nodeId1) && w2 == r.0.pending.Node(a.nodeId2);
    hide ReleaseNode, PendingInv, ReleaseEachNode, BadUpdate, Newer, NodeAfter, RefusedNode, ReachesNode;
    if r.1.Err? {
      NodesErrStays(sigs, r, a);
      NothingReached(sigs, f, a);
      assert forall n: NodeId :: r.0.gossip.Node(n) == f.gossip.Node(n) && r.0.pending.Node(n) == f.pending.Node(n);
    } else {
      UnrollNodes(sigs, r, w1, w2);
      TwoNodes(sigs, r, a, w1, w2);
      SameRefusal(sigs, r.0.gossip, f.gossip, w1);
      var g := ReleaseNodes(sigs, r, a).0;
      hide ReleaseNodes;
      forall n: NodeId
        ensures g.gossip.Node(n) == NodeAfter(sigs, f, a, n)
        ensures g.pending.Node(n) ==
          if a.Names(n) && ReachesNode(sigs, f, a, n) then None else f.pending.Node(n)
      {
        assert r.0.gossip.Node(n) == f.gossip.Node(n) && r.0.pending.Node(n) == f.pending.Node(n);
        NewerTwice(sigs, f, a, n);
        Looked(sigs, f, a, n);
      }
    }
  }

  lemma SameRefusal(sigs: Signatures, g: Store, h: Store, w: Option<NodeAnnouncement>)
    requires g.nodes == h.nodes
    ensures RefusedNode(sigs, g, w) == RefusedNode(sigs, h, w)
  {}

  /** What the stores hold after a valid new announcement, for every channel, direction and node. */
  lemma AcceptExact(sigs: Signatures, chain: Option<Chain>, f: Filter, m: ChannelAnnouncement, a: ChannelAnnouncement)
    requires Inv(sigs, chain.Some?, f) && Valid(sigs, chain, f.gossip, m, a)
    ensures var g := Validate(sigs, chain, f, OfChannel(m)).0;
      UpdatesExact(sigs, f, a, g) && NodesExact(sigs, f, a, g) && g.gossip.anns == f.gossip.anns[a.scid := a] &&
      forall n: NodeId :: g.gossip.ChannelsOf(n) == f.gossip.ChannelsOf(n) + if a.Names(n) then {a.scid} else {}
  {
    AcceptIff(sigs, chain, f, m, a);
    var saved := f.(gossip := SaveAnn(f.gossip, a));
    SavedStores(sigs, chain.Some?, f, a);
    hide Inv, Judge, SaveAnn, ReleaseUpdates, ReleaseNodes, UpdAfter, NodeAfter, ReachesNode, Valid;
    Released(sigs, saved, a);
    SameAfter(sigs, f, saved, a);
  }

  /** The stores between the saving of an announcement and the release of what waits for it. */
  lemma SavedStores(sigs: Signatures, hasChain: bool, f: Filter, a: ChannelAnnouncement)
    requires Inv(sigs, hasChain, f) && a.scid !in f.gossip.anns
    ensures var g := SaveAnn(f.gossip, a);
      g.anns == f.gossip.anns[a.scid := a] && g.upds == f.gossip.upds && g.nodes == f.gossip.nodes &&
      PendingInv(f.pending) && (forall d: Direction :: g.Upd(a.scid, d).None?) &&
      (forall n: NodeId :: g.ChannelsOf(n) == f.gossip.ChannelsOf(n) + if a.Names(n) then {a.scid} else {})
  {
    SavedFacts(sigs, hasChain, f, a);
  }

  lemma Released(sigs: Signatures, saved: Filter, a: ChannelAnnouncement)
    requires PendingInv(saved.pending) && saved.gossip.Ann(a.scid) == Some(a)
    requires forall d: Direction :: saved.gossip.Upd(a.scid, d).None?
    requires saved.gossip.ChannelsOf(a.nodeId1) != {} && saved.gossip.ChannelsOf(a.nodeId2) != {}
    ensures var g := ReleaseNodes(sigs, ReleaseUpdates(sigs, saved, a), a).0;
      UpdatesExact(sigs, saved, a, g) && NodesExact(sigs, saved, a, g) && SameChannels(saved, g) &&
      forall n: NodeId :: g.gossip.ChannelsOf(n) == saved.gossip.ChannelsOf(n)
  {
    hide BadUpdate, RefusedNode, ReleaseUpdates, ReleaseNodes, PendingInv, UpdatesExact, NodesExact;
    UpdatesReleased(sigs, saved, a);
    var r := ReleaseUpdates(sigs, saved, a);
    SameIndex(saved, r.0);
    NodesReleased(sigs, saved, r, a);
    var g := ReleaseNodes(sigs, r, a).0;
    SameIndex(r.0, g);
    SameUpdates(sigs, saved, a, r.0, g);
  }

  lemma SameIndex(f: Filter, g: Filter)
    requires SameChannels(f, g)
    ensures forall n: NodeId :: g.gossip.ChannelsOf(n) == f.gossip.ChannelsOf(n)
  {}

  lemma SameUpdates(sigs: Signatures, f: Filter, a: ChannelAnnouncement, g: Filter, h: Filter)
    requires UpdatesExact(sigs, f, a, g) && h.pending.upds == g.pending.upds && h.gossip.upds == g.gossip.upds
    ensures UpdatesExact(sigs, f, a, h)
  {
    forall s: Scid, d: Direction
      ensures h.gossip.Upd(s, d) == g.gossip.Upd(s, d) && h.pending.Upd(s, d) == g.pending.Upd(s, d) {}
  }

  /** What is looked at does not depend on the announcement being saved. */
  lemma SameAfter(sigs: Signatures, f: Filter, saved: Filter, a: ChannelAnnouncement)
    requires saved.pending == f.pending && saved.gossip.upds == f.gossip.upds && saved.gossip.nodes == f.gossip.nodes
    ensures forall s: Scid, d: Direction :: UpdAfter(sigs, saved, a, s, d) == UpdAfter(sigs, f, a, s, d)
    ensures forall n: NodeId :: NodeAfter(sigs, saved, a, n) == NodeAfter(sigs, f, a, n)
    ensures forall n: NodeId :: ReachesNode(sigs, saved, a, n) == ReachesNode(sigs, f, a, n)
  {
    hide BadUpdate, BadNode;
  }

  /** A valid new announcement for which no badly signed message waits is stored and returned, and so
      is every message that waits for it, unless a newer announcement of a node is stored already. */
  lemma AcceptReleases(sigs: Signatures, chain: Option<Chain>, f: Filter, m: ChannelAnnouncement,
      a: ChannelAnnouncement)
    requires Inv(sigs, chain.Some?, f) && Valid(sigs, chain, f.gossip, m, a) && !BadWaits(sigs, f, a)
    ensures var (g, r) := Validate(sigs, chain, f, OfChannel(m));
      r.Ok? && Stored(g.gossip, OfChannel(a)) && OfChannel(a) in r.value &&
      (forall d: Direction | (a.scid, d) in f.pending.upds ::
         var u := OfUpdate(f.pending.upds[(a.scid, d)]); Stored(g.gossip, u) && u in r.value) &&
      (forall n: NodeId | a.Names(n) && n in f.pending.nodes ::
         var w := f.pending.nodes[n];
         AnnouncedSince(g.gossip, n, w.timestamp) &&
         (!AnnouncedSince(f.gossip, n, w.timestamp) ==> Stored(g.gossip, OfNode(w)) && OfNode(w) in r.value))
  {
    var (g, r) := Validate(sigs, chain, f, OfChannel(m));
    AcceptExact(sigs, chain, f, m, a);
    AcceptIff(sigs, chain, f, m, a);
    AcceptErrIff(sigs, chain.Some?, f, a);
    ValidateKeeps(sigs, chain, f, OfChannel(m));
    assert r.Ok?;
    hide Validate, Judge, ReleaseUpdates, ReleaseNodes, SaveAnn, Grows;
    forall d: Direction | (a.scid, d) in f.pending.upds
      ensures var u := OfUpdate(f.pending.upds[(a.scid, d)]); Stored(g.gossip, u) && u in r.value
    {
      WaitingUpdate(sigs, chain.Some?, f, a, g, d);
    }
    forall n: NodeId | a.Names(n) && n in f.pending.nodes
      ensures var w := f.pending.nodes[n];
        AnnouncedSince(g.gossip, n, w.timestamp) &&
        (!AnnouncedSince(f.gossip, n, w.timestamp) ==> Stored(g.gossip, OfNode(w)) && OfNode(w) in r.value)
    {
      WaitingNode(sigs, chain.Some?, f, a, g, n);
    }
    hide Inv, BadWaits, UpdatesExact, NodesExact;
    assert Stored(g.gossip, OfChannel(a)) && !Stored(f.gossip, OfChannel(a));
  }

  lemma WaitingUpdate(sigs: Signatures, hasChain: bool, f: Filter, a: ChannelAnnouncement, g: Filter, d: Direction)
    requires Inv(sigs, hasChain, f) && a.scid !in f.gossip.anns && !BadWaits(sigs, f, a) && UpdatesExact(sigs, f, a, g)
    requires (a.scid, d) in f.pending.upds
    ensures var u := OfUpdate(f.pending.upds[(a.scid, d)]); Stored(g.gossip, u) && !Stored(f.gossip, u)
  {
    var u := f.pending.upds[(a.scid, d)];
    assert u.scid == a.scid && u.direction == d;
    assert (a.scid, d) !in f.gossip.upds;
    hide Inv;
    assert g.gossip.Upd(a.scid, d) == UpdAfter(sigs, f, a, a.scid, d);
  }

  lemma WaitingNode(sigs: Signatures, hasChain: bool, f: Filter, a: ChannelAnnouncement, g: Filter, n: NodeId)
    requires Inv(sigs, hasChain, f) && !BadWaits(sigs, f, a) && NodesExact(sigs, f, a, g)
    requires a.Names(n) && n in f.pending.nodes
    ensures var w := f.pending.nodes[n];
      AnnouncedSince(g.gossip, n, w.timestamp) &&
      (!AnnouncedSince(f.gossip, n, w.timestamp) ==> Stored(g.gossip, OfNode(w)) && !Stored(f.gossip, OfNode(w)))
  {
    var w := f.pending.nodes[n];
    assert w.nodeId == n;
    hide Inv, BadUpdate;
    assert g.gossip.Node(n) == NodeAfter(sigs, f, a, n);
  }
}
