/** What holds of the two gossip stores in every run of `validateMessage` from empty stores. */
module GossipFilterRuns {
  import opened Wrappers
  import opened GossipMemoryStore
  import opened GossipFilter

  // ---------------------------------------------------------------- the invariant

  /** A stored announcement is one whose signatures were valid, possibly extended since. */
  ghost predicate Verified(sigs: Signatures, a: ChannelAnnouncement) {
    exists e: Option<OnChain> :: sigs.ann(a.(extended := e))
  }

  ghost predicate AnnsOk(sigs: Signatures, hasChain: bool, g: Store) {
    forall s | s in g.anns ::
      g.anns[s].scid == s && Verified(sigs, g.anns[s]) && (hasChain ==> g.anns[s].extended.Some?)
  }

  ghost predicate UpdsOk(sigs: Signatures, g: Store) {
    forall s: Scid, d: Direction | (s, d) in g.upds ::
      g.upds[(s, d)].scid == s && g.upds[(s, d)].direction == d &&
      s in g.anns && sigs.upd(g.upds[(s, d)], if d == 0 then g.anns[s].nodeId1 else g.anns[s].nodeId2)
  }

  ghost predicate NodesOk(sigs: Signatures, g: Store) {
    forall n | n in g.nodes :: g.nodes[n].nodeId == n && sigs.node(g.nodes[n]) && g.ChannelsOf(n) != {}
  }

  /** The index lists for each node exactly the stored announcements that name it. */
  ghost predicate LinksOk(g: Store) {
    forall n: NodeId, s: Scid :: s in g.ChannelsOf(n) <==> s in g.anns && g.anns[s].Names(n)
  }

  ghost predicate OutPointsOk(g: Store) {
    && (forall o | o in g.byOutPoint ::
          var s := g.byOutPoint[o];
          s in g.anns && g.anns[s].extended.Some? && g.anns[s].extended.value.outpoint == o)
    && forall s | s in g.anns && g.anns[s].extended.Some? :: g.anns[s].extended.value.outpoint in g.byOutPoint
  }

  ghost predicate GossipInv(sigs: Signatures, hasChain: bool, g: Store) {
    AnnsOk(sigs, hasChain, g) && UpdsOk(sigs, g) && NodesOk(sigs, g) && LinksOk(g) && OutPointsOk(g)
  }

  ghost predicate PendingInv(p: Store) {
    && p.anns == map[] && p.byOutPoint == map[] && p.nodeChannels == map[]
    && (forall s: Scid, d: Direction | (s, d) in p.upds :: p.upds[(s, d)].scid == s && p.upds[(s, d)].direction == d)
    && (forall n | n in p.nodes :: p.nodes[n].nodeId == n)
  }

  ghost predicate Inv(sigs: Signatures, hasChain: bool, f: Filter) {
    GossipInv(sigs, hasChain, f.gossip) && PendingInv(f.pending)
  }

  /** Announcements stay, and an update or a node announcement gives way only to a newer one. */
  ghost predicate Grows(g: Store, h: Store) {
    && (forall s | s in g.anns :: s in h.anns && h.anns[s] == g.anns[s])
    && (forall k | k in g.upds :: k in h.upds && (h.upds[k] == g.upds[k] || h.upds[k].timestamp > g.upds[k].timestamp))
    && (forall n | n in g.nodes ::
          n in h.nodes && (h.nodes[n] == g.nodes[n] || h.nodes[n].timestamp > g.nodes[n].timestamp))
  }

  predicate Stored(g: Store, m: Message) {
    match m
    case OfChannel(a) => g.Ann(a.scid) == Some(a)
    case OfUpdate(u) => g.Upd(u.scid, u.direction) == Some(u)
    case OfNode(n) => g.Node(n.nodeId) == Some(n)
    case Other => false
  }

  /** The messages of a call that succeeds are exactly what the call stored. */
  ghost predicate BroadcastsNew(g: Store, h: Store, r: Outcome) {
    r.Ok? ==> forall m: Message :: m in r.value <==> Stored(h, m) && !Stored(g, m)
  }

  // ---------------------------------------------------------------- the three saves

  lemma SaveAnnInv(sigs: Signatures, hasChain: bool, g: Store, a: ChannelAnnouncement)
    requires GossipInv(sigs, hasChain, g) && a.scid !in g.anns
    requires Verified(sigs, a) && (hasChain ==> a.extended.Some?)
    ensures GossipInv(sigs, hasChain, SaveAnn(g, a)) && Grows(g, SaveAnn(g, a))
    ensures SaveAnn(g, a).ChannelsOf(a.nodeId1) != {} && SaveAnn(g, a).ChannelsOf(a.nodeId2) != {}
  {
    SaveAnnLinks(g, a);
    SaveAnnOutPoints(g, a);
    SaveAnnAnns(sigs, hasChain, g, a);
    SaveAnnUpds(sigs, g, a);
    hide AnnsOk, UpdsOk, LinksOk, OutPointsOk, Verified, Link;
    assert forall n: NodeId :: g.ChannelsOf(n) <= SaveAnn(g, a).ChannelsOf(n);
    assert NodesOk(sigs, SaveAnn(g, a));
  }

  lemma SaveAnnAnns(sigs: Signatures, hasChain: bool, g: Store, a: ChannelAnnouncement)
    requires AnnsOk(sigs, hasChain, g) && a.scid !in g.anns
    requires Verified(sigs, a) && (hasChain ==> a.extended.Some?)
    ensures AnnsOk(sigs, hasChain, SaveAnn(g, a)) && Grows(g, SaveAnn(g, a))
  {
    hide Verified, Link;
  }

  lemma SaveAnnUpds(sigs: Signatures, g: Store, a: ChannelAnnouncement)
    requires UpdsOk(sigs, g) && a.scid !in g.anns
    ensures UpdsOk(sigs, SaveAnn(g, a))
  {
    hide Link;
  }

  lemma SaveAnnOutPoints(g: Store, a: ChannelAnnouncement)
    requires OutPointsOk(g) && a.scid !in g.anns
    ensures OutPointsOk(SaveAnn(g, a))
  {
    hide Link;
  }

  lemma SaveAnnLinks(g: Store, a: ChannelAnnouncement)
    requires LinksOk(g) && a.scid !in g.anns
    ensures LinksOk(SaveAnn(g, a))
    ensures forall n: NodeId :: SaveAnn(g, a).ChannelsOf(n) == g.ChannelsOf(n) + if a.Names(n) then {a.scid} else {}
  {
    forall n: NodeId ensures SaveAnn(g, a).ChannelsOf(n) == g.ChannelsOf(n) + if a.Names(n) then {a.scid} else {} {}
  }

  lemma SameLinks(g: Store, h: Store)
    requires h.anns == g.anns && h.nodeChannels == g.nodeChannels && LinksOk(g)
    ensures LinksOk(h) && forall n: NodeId :: h.ChannelsOf(n) == g.ChannelsOf(n)
  {
    assert forall n: NodeId :: h.ChannelsOf(n) == g.ChannelsOf(n);
  }

  lemma SaveUpdInv(sigs: Signatures, hasChain: bool, g: Store, u: ChannelUpdate)
    requires GossipInv(sigs, hasChain, g) && u.scid in g.anns
    requires sigs.upd(u, Signer(g.anns[u.scid], u.direction))
    requires g.Upd(u.scid, u.direction).Some? ==> g.Upd(u.scid, u.direction).value.timestamp < u.timestamp
    ensures GossipInv(sigs, hasChain, SaveUpd(g, u)) && Grows(g, SaveUpd(g, u))
  {
    hide Verified;
    var h := SaveUpd(g, u);
    assert UpdsOk(sigs, h);
    hide UpdsOk;
    SameLinks(g, h);
  }

  lemma SaveNodeInv(sigs: Signatures, hasChain: bool, g: Store, n: NodeAnnouncement)
    requires GossipInv(sigs, hasChain, g) && g.ChannelsOf(n.nodeId) != {} && sigs.node(n)
    requires g.Node(n.nodeId).Some? ==> g.Node(n.nodeId).value.timestamp < n.timestamp
    ensures GossipInv(sigs, hasChain, SaveNode(g, n)) && Grows(g, SaveNode(g, n))
  {
    var h := SaveNode(g, n);
    assert UpdsOk(sigs, h);
    hide Verified, UpdsOk;
    SameLinks(g, h);
    assert NodesOk(sigs, h);
  }

  // ---------------------------------------------------------------- one call

  /** What a call has achieved by some point: it began with the gossip store `g` and is now at `r`. */
  ghost predicate Progress(sigs: Signatures, hasChain: bool, g: Store, r: (Filter, Outcome)) {
    Inv(sigs, hasChain, r.0) && Grows(g, r.0.gossip) && BroadcastsNew(g, r.0.gossip, r.1)
  }

  lemma UpdateProgress(sigs: Signatures, hasChain: bool, f: Filter, m: ChannelUpdate)
    requires Inv(sigs, hasChain, f)
    ensures Progress(sigs, hasChain, f.gossip, ValidateUpdate(sigs, f, m))
    ensures ValidateUpdate(sigs, f, m).0.gossip.anns == f.gossip.anns
  {
    hide GossipInv;
    var r := ValidateUpdate(sigs, f, m);
    if f.gossip.Ann(m.scid).Some? && r.0 != f {
      assert f.gossip.anns[m.scid] == f.gossip.Ann(m.scid).value;
      SaveUpdInv(sigs, hasChain, f.gossip, m);
    }
  }

  lemma NodeProgress(sigs: Signatures, hasChain: bool, f: Filter, m: NodeAnnouncement)
    requires Inv(sigs, hasChain, f)
    ensures Progress(sigs, hasChain, f.gossip, ValidateNode(sigs, f, m))
    ensures ValidateNode(sigs, f, m).0.gossip.anns == f.gossip.anns
  {
    hide GossipInv;
    var r := ValidateNode(sigs, f, m);
    if f.gossip.ChannelsOf(m.nodeId) != {} && r.0 != f {
      SaveNodeInv(sigs, hasChain, f.gossip, m);
    }
  }

  /** A further call extends what was achieved, unless it replaces something broadcast before. */
  lemma Continue(sigs: Signatures, hasChain: bool, g: Store, r: (Filter, Outcome), next: (Filter, Outcome))
    requires Progress(sigs, hasChain, g, r) && r.1.Ok? && Progress(sigs, hasChain, r.0.gossip, next)
    requires forall m | m in r.1.value :: Stored(next.0.gossip, m)
    ensures Progress(sigs, hasChain, g, AfterOk(r.1, next))
  {
    hide Inv, Stored;
    var s := AfterOk(r.1, next);
    GrowsOn(g, r.0.gossip, next.0.gossip);
    if next.1.Ok? {
      forall m: Message
        ensures m in s.1.value <==> Stored(next.0.gossip, m) && !Stored(g, m)
      {
        NotBack(g, r.0.gossip, next.0.gossip, m);
      }
    }
  }

  lemma GrowsOn(g: Store, h: Store, k: Store)
    requires Grows(g, h) && Grows(h, k)
    ensures Grows(g, k)
  {}

  /** What has been replaced does not come back. */
  lemma NotBack(g: Store, h: Store, k: Store, m: Message)
    requires Grows(g, h) && Grows(h, k)
    ensures Stored(g, m) && !Stored(h, m) ==> !Stored(k, m)
  {}

  ghost predicate UpdatesApart(r: Outcome, u: ChannelUpdate)
    requires r.Ok?
  {
    forall m | m in r.value :: m.OfUpdate? ==> (m.upd.scid, m.upd.direction) != (u.scid, u.direction)
  }

  ghost predicate NodesApart(r: Outcome, n: NodeAnnouncement)
    requires r.Ok?
  {
    forall m | m in r.value :: m.OfNode? && m.node.nodeId == n.nodeId ==> m.node == n
  }

  lemma BroadcastIsStored(sigs: Signatures, hasChain: bool, g: Store, r: (Filter, Outcome), m: Message)
    requires Progress(sigs, hasChain, g, r) && r.1.Ok? && m in r.1.value
    ensures Stored(r.0.gossip, m)
  {}

  lemma ReleaseUpdateProgress(sigs: Signatures, hasChain: bool, g: Store, r: (Filter, Outcome),
      waiting: Option<ChannelUpdate>)
    requires Progress(sigs, hasChain, g, r)
    requires r.1.Ok? && waiting.Some? ==> UpdatesApart(r.1, waiting.value)
    ensures var r' := ReleaseUpdate(sigs, r, waiting);
      Progress(sigs, hasChain, g, r') && r'.0.gossip.anns == r.0.gossip.anns &&
      (r'.1.Ok? ==>
         r.1.Ok? &&
         forall m | m in r'.1.value :: m in r.1.value || (waiting.Some? && m == OfUpdate(waiting.value)))
  {
    hide GossipInv, Grows;
    if r.1.Ok? && waiting.Some? {
      var u := waiting.value;
      var f := r.0.(pending := DropUpd(r.0.pending, u.scid, u.direction));
      assert Inv(sigs, hasChain, f);
      UpdateProgress(sigs, hasChain, f, u);
      hide Progress, Inv;
      var next := ValidateUpdate(sigs, f, u);
      forall m | m in r.1.value ensures Stored(next.0.gossip, m) {
        BroadcastIsStored(sigs, hasChain, g, r, m);
      }
      Continue(sigs, hasChain, g, r, next);
    }
  }

  lemma ReleaseNodeProgress(sigs: Signatures, hasChain: bool, g: Store, r: (Filter, Outcome),
      waiting: Option<NodeAnnouncement>)
    requires Progress(sigs, hasChain, g, r)
    requires r.1.Ok? && waiting.Some? ==> NodesApart(r.1, waiting.value)
    ensures var r' := ReleaseNode(sigs, r, waiting);
      Progress(sigs, hasChain, g, r') && r'.0.gossip.anns == r.0.gossip.anns &&
      (r'.1.Ok? ==>
         r.1.Ok? &&
         forall m | m in r'.1.value :: m in r.1.value || (waiting.Some? && m == OfNode(waiting.value)))
  {
    hide GossipInv, Grows;
    if r.1.Ok? && waiting.Some? {
      var n := waiting.value;
      var f := r.0.(pending := DropNode(r.0.pending, n.nodeId));
      assert Inv(sigs, hasChain, f);
      NodeProgress(sigs, hasChain, f, n);
      hide Progress, Inv;
      var next := ValidateNode(sigs, f, n);
      forall m | m in r.1.value ensures Stored(next.0.gossip, m) {
        BroadcastIsStored(sigs, hasChain, g, r, m);
      }
      Continue(sigs, hasChain, g, r, next);
    }
  }

  /** An announcement that is accepted is new, was verified, and is extended if there is a chain client. */
  lemma AcceptIsNew(sigs: Signatures, chain: Option<Chain>, f: Filter, m: ChannelAnnouncement)
    requires Inv(sigs, chain.Some?, f) && Judge(sigs, chain, f, m).Accept?
    ensures var a := Judge(sigs, chain, f, m).ann;
      a.scid == m.scid && a.scid !in f.gossip.anns && Verified(sigs, a) && (chain.Some? ==> a.extended.Some?)
  {
    var a := Judge(sigs, chain, f, m).ann;
    assert a.(extended := m.extended) == m;
  }

  /** The chain has the channel's transaction in the block and place that its id names, with the
      output unspent and locked to both keys; `data` is that output. */
  predicate FundedBy(chain: Chain, m: ChannelAnnouncement, data: OnChain) {
    var block := chain.getBlock(chain.getBlockHash(m.scid.block));
    && chain.getBlockHash(m.scid.block) != "" && block.Some? && m.scid.txIdx < |block.value|
    && data.outpoint == OutPoint(block.value[m.scid.txIdx], m.scid.voutIdx) && data.outpoint.txid != ""
    && chain.getUtxo(data.outpoint.txid, data.outpoint.outputIndex)
         == Some(Utxo(chain.fundingScript(m.bitcoinKey1, m.bitcoinKey2), data.capacity))
  }

  /** An announcement is saved exactly when its channel is new, its signatures are valid and, if
      there is a chain client, its output is there; it is saved with that output. */
  lemma AcceptIff(sigs: Signatures, chain: Option<Chain>, f: Filter, m: ChannelAnnouncement, a: ChannelAnnouncement)
    requires Inv(sigs, chain.Some?, f)
    ensures Judge(sigs, chain, f, m) == Accept(a) <==>
      m.scid !in f.gossip.anns && sigs.ann(m) && a == m.(extended := a.extended) &&
      if chain.None? then a.extended == m.extended else a.extended.Some? && FundedBy(chain.value, m, a.extended.value)
  {
    if m.scid in f.gossip.anns {
      assert f.gossip.anns[m.scid].scid == m.scid;
    }
  }

  lemma {:induction false} ReleaseUpdatesProgress(sigs: Signatures, hasChain: bool, g: Store, f: Filter,
      a: ChannelAnnouncement)
    requires Progress(sigs, hasChain, g, (f, Ok([OfChannel(a)])))
    ensures var r := ReleaseUpdates(sigs, f, a);
      Progress(sigs, hasChain, g, r) && r.0.gossip.anns == f.gossip.anns &&
      (r.1.Ok? ==> forall m | m in r.1.value :: !m.OfNode?)
  {
    var u0, u1 := f.pending.Upd(a.scid, 0), f.pending.Upd(a.scid, 1);
    var r := (f, Ok([OfChannel(a)]));
    assert u0.Some? ==> u0.value.direction == 0;
    assert u1.Some? ==> u1.value.direction == 1;
    hide Progress, ReleaseUpdate;
    ReleaseUpdateProgress(sigs, hasChain, g, r, u0);
    var r0 := ReleaseUpdate(sigs, r, u0);
    ReleaseUpdateProgress(sigs, hasChain, g, r0, u1);
    UnrollUpdates(sigs, r, u0, u1);
  }

  lemma UnrollUpdate(sigs: Signatures, r: (Filter, Outcome), u: Option<ChannelUpdate>)
    ensures ReleaseEachUpdate(sigs, r, [u]) == ReleaseUpdate(sigs, r, u)
  {
    hide ReleaseUpdate;
  }

  lemma UnrollNode(sigs: Signatures, r: (Filter, Outcome), n: Option<NodeAnnouncement>)
    ensures ReleaseEachNode(sigs, r, [n]) == ReleaseNode(sigs, r, n)
  {
    hide ReleaseNode;
  }

  lemma UnrollUpdates(sigs: Signatures, r: (Filter, Outcome), u0: Option<ChannelUpdate>, u1: Option<ChannelUpdate>)
    ensures ReleaseEachUpdate(sigs, r, [u0, u1]) == ReleaseUpdate(sigs, ReleaseUpdate(sigs, r, u0), u1)
  {
    hide ReleaseUpdate;
    assert [u0, u1][1..] == [u1];
    assert ReleaseEachUpdate(sigs, r, [u0, u1]) == ReleaseEachUpdate(sigs, ReleaseUpdate(sigs, r, u0), [u1]);
  }

  lemma UnrollNodes(sigs: Signatures, r: (Filter, Outcome), n1: Option<NodeAnnouncement>, n2: Option<NodeAnnouncement>)
    ensures ReleaseEachNode(sigs, r, [n1, n2]) == ReleaseNode(sigs, ReleaseNode(sigs, r, n1), n2)
  {
    hide ReleaseNode;
    assert [n1, n2][1..] == [n2];
    assert ReleaseEachNode(sigs, r, [n1, n2]) == ReleaseEachNode(sigs, ReleaseNode(sigs, r, n1), [n2]);
  }

  lemma {:induction false} ReleaseNodesProgress(sigs: Signatures, hasChain: bool, g: Store, r: (Filter, Outcome),
      a: ChannelAnnouncement)
    requires Progress(sigs, hasChain, g, r)
    requires r.1.Ok? ==> forall m | m in r.1.value :: !m.OfNode?
    ensures var r' := ReleaseNodes(sigs, r, a);
      Progress(sigs, hasChain, g, r') && r'.0.gossip.anns == r.0.gossip.anns
  {
    var n1, n2 := r.0.pending.Node(a.nodeId1), r.0.pending.Node(a.nodeId2);
    assert n1.Some? ==> n1.value.nodeId == a.nodeId1;
    assert n2.Some? ==> n2.value.nodeId == a.nodeId2;
    hide Progress, ReleaseNode;
    ReleaseNodeProgress(sigs, hasChain, g, r, n1);
    var r1 := ReleaseNode(sigs, r, n1);
    ReleaseNodeProgress(sigs, hasChain, g, r1, n2);
    UnrollNodes(sigs, r, n1, n2);
  }

  lemma SavedProgress(sigs: Signatures, hasChain: bool, f: Filter, a: ChannelAnnouncement)
    requires Inv(sigs, hasChain, f) && a.scid !in f.gossip.anns && Verified(sigs, a) && (hasChain ==> a.extended.Some?)
    ensures Progress(sigs, hasChain, f.gossip, (f.(gossip := SaveAnn(f.gossip, a)), Ok([OfChannel(a)])))
  {
    hide GossipInv, Verified, Link;
    SaveAnnInv(sigs, hasChain, f.gossip, a);
  }

  lemma ChannelProgress(sigs: Signatures, chain: Option<Chain>, f: Filter, m: ChannelAnnouncement)
    requires Inv(sigs, chain.Some?, f)
    ensures Progress(sigs, chain.Some?, f.gossip, ValidateChannel(sigs, chain, f, m))
  {
    if Judge(sigs, chain, f, m).Accept? {
      AcceptIsNew(sigs, chain, f, m);
      hide Inv, Progress, Judge, ReleaseUpdates, ReleaseNodes;
      var a := Judge(sigs, chain, f, m).ann;
      SavedProgress(sigs, chain.Some?, f, a);
      var saved := f.(gossip := SaveAnn(f.gossip, a));
      ReleaseUpdatesProgress(sigs, chain.Some?, f.gossip, saved, a);
      ReleaseNodesProgress(sigs, chain.Some?, f.gossip, ReleaseUpdates(sigs, saved, a), a);
    }
  }

  /** Every call of `validateMessage` keeps the invariant, only adds to the shared store or replaces
      the older by the newer there, and if it succeeds broadcasts exactly what it has stored. */
  lemma ValidateKeeps(sigs: Signatures, chain: Option<Chain>, f: Filter, m: Message)
    requires Inv(sigs, chain.Some?, f)
    ensures var r := Validate(sigs, chain, f, m);
      Inv(sigs, chain.Some?, r.0) && Grows(f.gossip, r.0.gossip) && BroadcastsNew(f.gossip, r.0.gossip, r.1)
  {
    match m
    case OfChannel(a) => ChannelProgress(sigs, chain, f, a);
    case OfUpdate(u) => UpdateProgress(sigs, chain.Some?, f, u);
    case OfNode(n) => NodeProgress(sigs, chain.Some?, f, n);
    case Other =>
  }

  // ---------------------------------------------------------------- messages that wait

  /** Whatever waits still lacks its channel. */
  ghost predicate Awaiting(f: Filter) {
    && (forall s: Scid, d: Direction | (s, d) in f.pending.upds :: s !in f.gossip.anns)
    && (forall n | n in f.pending.nodes :: f.gossip.ChannelsOf(n) == {})
  }

  predicate BadUpdate(sigs: Signatures, a: ChannelAnnouncement, u: Option<ChannelUpdate>) {
    u.Some? && !sigs.upd(u.value, Signer(a, u.value.direction))
  }

  predicate BadNode(sigs: Signatures, n: Option<NodeAnnouncement>) {
    n.Some? && !sigs.node(n.value)
  }

  /** Among the messages that wait for the channel of `a`, one with a bad signature comes before another. */
  predicate Strands(sigs: Signatures, f: Filter, a: ChannelAnnouncement) {
    var u0, u1 := f.pending.Upd(a.scid, 0), f.pending.Upd(a.scid, 1);
    var n1, n2 := f.pending.Node(a.nodeId1), f.pending.Node(a.nodeId2);
    if BadUpdate(sigs, a, u0) then u1.Some? || n1.Some? || n2.Some?
    else if BadUpdate(sigs, a, u1) then n1.Some? || n2.Some?
    else BadNode(sigs, n1) && n2.Some? && a.nodeId1 != a.nodeId2
  }

  /** Nothing waits for the channel of `a`. */
  predicate Clear(p: Store, a: ChannelAnnouncement) {
    p.Upd(a.scid, 0).None? && p.Upd(a.scid, 1).None? && p.Node(a.nodeId1).None? && p.Node(a.nodeId2).None?
  }

  /** `r` and `s` differ at most in stored updates and node announcements. */
  predicate SameChannels(r: Filter, s: Filter) {
    s.gossip.anns == r.gossip.anns && s.gossip.nodeChannels == r.gossip.nodeChannels
  }

  lemma ReleaseUpdateExact(sigs: Signatures, r: (Filter, Outcome), a: ChannelAnnouncement, d: Direction,
      u: Option<ChannelUpdate>)
    requires r.1.Ok? && r.0.gossip.Ann(a.scid) == Some(a) && r.0.gossip.Upd(a.scid, d).None?
    requires u.Some? ==> u.value.scid == a.scid && u.value.direction == d
    ensures var r' := ReleaseUpdate(sigs, r, u);
      SameChannels(r.0, r'.0) && r'.0.gossip.nodes == r.0.gossip.nodes && (r'.1.Err? <==> BadUpdate(sigs, a, u)) &&
      r'.0.pending == (if u.Some? then DropUpd(r.0.pending, a.scid, d) else r.0.pending) &&
      forall e: Direction | e != d :: r'.0.gossip.Upd(a.scid, e) == r.0.gossip.Upd(a.scid, e)
  {}

  lemma ReleaseNodeExact(sigs: Signatures, r: (Filter, Outcome), n: Option<NodeAnnouncement>)
    requires r.1.Ok?
    requires n.Some? ==> r.0.gossip.ChannelsOf(n.value.nodeId) != {}
    requires n.Some? ==> r.0.gossip.Node(n.value.nodeId).None? || r.0.gossip.Node(n.value.nodeId) == n
    ensures var r' := ReleaseNode(sigs, r, n);
      SameChannels(r.0, r'.0) &&
      r'.0.pending == (if n.Some? then DropNode(r.0.pending, n.value.nodeId) else r.0.pending) &&
      (r'.1.Err? <==> BadNode(sigs, n) && r.0.gossip.Node(n.value.nodeId).None?) &&
      (n.Some? && r'.1.Ok? ==> r'.0.gossip.Node(n.value.nodeId) == n) &&
      forall k: NodeId | n.None? || k != n.value.nodeId :: r'.0.gossip.Node(k) == r.0.gossip.Node(k)
  {}

  /** Where the channels of `f` are those of `g` and the channel of `a`, what waits in `f` and not
      for `a` still lacks its channel. */
  lemma AwaitingIffClear(f: Filter, g: Filter, a: ChannelAnnouncement)
    requires Awaiting(f) && g.pending.upds.Keys <= f.pending.upds.Keys && g.pending.nodes.Keys <= f.pending.nodes.Keys
    requires g.gossip.anns.Keys == f.gossip.anns.Keys + {a.scid}
    requires forall n: NodeId :: g.gossip.ChannelsOf(n) == f.gossip.ChannelsOf(n) + if a.Names(n) then {a.scid} else {}
    ensures Awaiting(g) <==> Clear(g.pending, a)
  {
    if Awaiting(g) {
      assert a.scid in g.gossip.ChannelsOf(a.nodeId1) && a.scid in g.gossip.ChannelsOf(a.nodeId2);
    }
    if Clear(g.pending, a) {
      forall s: Scid, d: Direction | (s, d) in g.pending.upds ensures s !in g.gossip.anns {
        assert (s, d) in f.pending.upds && (a.scid, 0) !in g.pending.upds && (a.scid, 1) !in g.pending.upds;
      }
    }
  }

  lemma ReleaseTwoUpdates(sigs: Signatures, r: (Filter, Outcome), a: ChannelAnnouncement, u0: Option<ChannelUpdate>,
      u1: Option<ChannelUpdate>)
    requires r.1.Ok? && r.0.gossip.Ann(a.scid) == Some(a)
    requires u0 == r.0.pending.Upd(a.scid, 0) && u1 == r.0.pending.Upd(a.scid, 1)
    requires PendingInv(r.0.pending) && forall d: Direction :: r.0.gossip.Upd(a.scid, d).None?
    ensures var r' := ReleaseUpdate(sigs, ReleaseUpdate(sigs, r, u0), u1);
      SameChannels(r.0, r'.0) && r'.0.gossip.nodes == r.0.gossip.nodes &&
      r'.0.pending == r.0.pending.(upds := r'.0.pending.upds) && r'.0.pending.upds.Keys <= r.0.pending.upds.Keys &&
      (r'.1.Err? <==> BadUpdate(sigs, a, u0) || BadUpdate(sigs, a, u1)) && r'.0.pending.Upd(a.scid, 0).None? &&
      (r'.0.pending.Upd(a.scid, 1).Some? <==> BadUpdate(sigs, a, u0) && u1.Some?)
  {
    assert u0.Some? ==> u0.value.scid == a.scid && u0.value.direction == 0;
    assert u1.Some? ==> u1.value.scid == a.scid && u1.value.direction == 1;
    hide ReleaseUpdate, BadUpdate, PendingInv;
    ReleaseUpdateExact(sigs, r, a, 0, u0);
    var r0 := ReleaseUpdate(sigs, r, u0);
    if r0.1.Ok? {
      ReleaseUpdateExact(sigs, r0, a, 1, u1);
    } else {
      ErrStays(sigs, r0, [u1]);
      UnrollUpdate(sigs, r0, u1);
    }
  }

  lemma ReleaseTwoNodes(sigs: Signatures, r: (Filter, Outcome), a: ChannelAnnouncement, n1: Option<NodeAnnouncement>,
      n2: Option<NodeAnnouncement>)
    requires n1 == r.0.pending.Node(a.nodeId1) && n2 == r.0.pending.Node(a.nodeId2)
    requires n1.Some? ==> n1.value.nodeId == a.nodeId1
    requires n2.Some? ==> n2.value.nodeId == a.nodeId2
    requires r.0.gossip.ChannelsOf(a.nodeId1) != {} && r.0.gossip.ChannelsOf(a.nodeId2) != {}
    requires n1.Some? ==> r.0.gossip.Node(a.nodeId1).None?
    requires n2.Some? ==> r.0.gossip.Node(a.nodeId2).None?
    ensures var r' := ReleaseNode(sigs, ReleaseNode(sigs, r, n1), n2);
      SameChannels(r.0, r'.0) &&
      r'.0.pending == r.0.pending.(nodes := r'.0.pending.nodes) && r'.0.pending.nodes.Keys <= r.0.pending.nodes.Keys &&
      (r'.0.pending.Node(a.nodeId1).None? && r'.0.pending.Node(a.nodeId2).None? <==>
       if r.1.Err? then n1.None? && n2.None? else !(BadNode(sigs, n1) && n2.Some? && a.nodeId1 != a.nodeId2))
  {
    if r.1.Ok? {
      hide ReleaseNode, BadNode;
      ReleaseNodeExact(sigs, r, n1);
      var r1 := ReleaseNode(sigs, r, n1);
      assert forall n: NodeId :: r1.0.gossip.ChannelsOf(n) == r.0.gossip.ChannelsOf(n);
      if r1.1.Ok? {
        ReleaseNodeExact(sigs, r1, n2);
      } else {
        NodeErrStays(sigs, r1, [n2]);
        UnrollNode(sigs, r1, n2);
      }
    }
  }

  /** What is left waiting for a channel whose announcement has just been saved. */
  lemma ReleaseClears(sigs: Signatures, f: Filter, a: ChannelAnnouncement)
    requires PendingInv(f.pending) && f.gossip.Ann(a.scid) == Some(a)
    requires forall d: Direction :: f.gossip.Upd(a.scid, d).None?
    requires forall n: NodeId | a.Names(n) :: f.gossip.ChannelsOf(n) != {}
    requires forall n: NodeId | a.Names(n) && n in f.pending.nodes :: f.gossip.Node(n).None?
    ensures var g := ReleaseNodes(sigs, ReleaseUpdates(sigs, f, a), a).0;
      SameChannels(f, g) &&
      g.pending.upds.Keys <= f.pending.upds.Keys && g.pending.nodes.Keys <= f.pending.nodes.Keys &&
      (Clear(g.pending, a) <==> !Strands(sigs, f, a))
  {
    var u0, u1 := f.pending.Upd(a.scid, 0), f.pending.Upd(a.scid, 1);
    var n1, n2 := f.pending.Node(a.nodeId1), f.pending.Node(a.nodeId2);
    var r := (f, Ok([OfChannel(a)]));
    assert n1.Some? ==> n1.value.nodeId == a.nodeId1;
    assert n2.Some? ==> n2.value.nodeId == a.nodeId2;
    assert a.Names(a.nodeId1) && a.Names(a.nodeId2);
    hide ReleaseUpdate, ReleaseNode, BadUpdate, BadNode, PendingInv, ReleaseEachUpdate, ReleaseEachNode;
    UnrollUpdates(sigs, r, u0, u1);
    ReleaseTwoUpdates(sigs, r, a, u0, u1);
    var r2 := ReleaseUpdates(sigs, f, a);
    assert forall n: NodeId :: r2.0.gossip.ChannelsOf(n) == f.gossip.ChannelsOf(n);
    assert forall n: NodeId :: r2.0.gossip.Node(n) == f.gossip.Node(n);
    UnrollNodes(sigs, r2, n1, n2);
    ReleaseTwoNodes(sigs, r2, a, n1, n2);
  }

  /** A call leaves a message waiting for a channel that is there exactly when it accepts an
      announcement and a badly signed message waits for it in front of another. */
  lemma AwaitingIff(sigs: Signatures, chain: Option<Chain>, f: Filter, m: Message)
    requires Inv(sigs, chain.Some?, f) && Awaiting(f)
    ensures Awaiting(Validate(sigs, chain, f, m).0) <==>
      !(m.OfChannel? && Judge(sigs, chain, f, m.ann).Accept? && Strands(sigs, f, Judge(sigs, chain, f, m.ann).ann))
  {
    match m
    case OfChannel(c) =>
      if Judge(sigs, chain, f, c).Accept? {
        AcceptIsNew(sigs, chain, f, c);
        AcceptAwaits(sigs, chain.Some?, f, Judge(sigs, chain, f, c).ann);
      }
    case OfUpdate(u) => UpdateAwaits(sigs, f, u);
    case OfNode(n) => NodeAwaits(sigs, f, n);
    case Other =>
  }

  lemma UpdateAwaits(sigs: Signatures, f: Filter, u: ChannelUpdate)
    requires Awaiting(f)
    ensures Awaiting(ValidateUpdate(sigs, f, u).0)
  {
    var g := ValidateUpdate(sigs, f, u).0;
    assert forall n: NodeId :: g.gossip.ChannelsOf(n) == f.gossip.ChannelsOf(n);
  }

  lemma NodeAwaits(sigs: Signatures, f: Filter, n: NodeAnnouncement)
    requires Awaiting(f)
    ensures Awaiting(ValidateNode(sigs, f, n).0)
  {
    var g := ValidateNode(sigs, f, n).0;
    assert forall n: NodeId :: g.gossip.ChannelsOf(n) == f.gossip.ChannelsOf(n);
  }

  lemma AcceptAwaits(sigs: Signatures, hasChain: bool, f: Filter, a: ChannelAnnouncement)
    requires Inv(sigs, hasChain, f) && Awaiting(f) && a.scid !in f.gossip.anns
    ensures var saved := f.(gossip := SaveAnn(f.gossip, a));
      Awaiting(ReleaseNodes(sigs, ReleaseUpdates(sigs, saved, a), a).0) <==> !Strands(sigs, f, a)
  {
    var saved := f.(gossip := SaveAnn(f.gossip, a));
    SavedFacts(sigs, hasChain, f, a);
    hide Inv, SaveAnn, ReleaseUpdates, ReleaseNodes;
    ReleaseClears(sigs, saved, a);
    var g := ReleaseNodes(sigs, ReleaseUpdates(sigs, saved, a), a).0;
    assert forall n: NodeId :: g.gossip.ChannelsOf(n) == saved.gossip.ChannelsOf(n);
    AwaitingIffClear(f, g, a);
  }

  /** The store just after an announcement for a new channel was saved. */
  lemma SavedFacts(sigs: Signatures, hasChain: bool, f: Filter, a: ChannelAnnouncement)
    requires Inv(sigs, hasChain, f) && a.scid !in f.gossip.anns
    ensures var g := SaveAnn(f.gossip, a);
      PendingInv(f.pending) && g.Ann(a.scid) == Some(a) && g.anns.Keys == f.gossip.anns.Keys + {a.scid} &&
      (forall d: Direction :: g.Upd(a.scid, d).None?) && (forall n: NodeId :: g.Node(n) == f.gossip.Node(n)) &&
      (forall n: NodeId :: g.ChannelsOf(n) == f.gossip.ChannelsOf(n) + if a.Names(n) then {a.scid} else {})
    ensures Awaiting(f) ==> forall n | n in f.pending.nodes :: f.gossip.Node(n).None?
  {
    SaveAnnLinks(f.gossip, a);
    hide AnnsOk, LinksOk, OutPointsOk, PendingInv, Link;
    assert forall d: Direction :: (a.scid, d) !in f.gossip.upds;
  }

  // ---------------------------------------------------------------- runs

  /** A call of `validateMessage` and what the chain client answers during it. */
  datatype Call = Call(msg: Message, chain: Option<Chain>)

  /** The filter has a chain client in all calls or in none; its answers may change. */
  predicate OneFilter(hasChain: bool, calls: seq<Call>) {
    forall i | 0 <= i < |calls| :: calls[i].chain.Some? == hasChain
  }

  /** The stores after a run from empty ones. */
  function Run(sigs: Signatures, calls: seq<Call>): Filter {
    if calls == [] then Filter(Empty(), Empty())
    else
      var last := calls[|calls| - 1];
      Validate(sigs, last.chain, Run(sigs, calls[..|calls| - 1]), last.msg).0
  }

  /** What the `i`th call of a run returns. */
  function Returned(sigs: Signatures, calls: seq<Call>, i: nat): Outcome
    requires i < |calls|
  {
    Validate(sigs, calls[i].chain, Run(sigs, calls[..i]), calls[i].msg).1
  }

  lemma RunStep(sigs: Signatures, calls: seq<Call>, i: nat)
    requires i < |calls|
    ensures Run(sigs, calls[..i + 1]) == Validate(sigs, calls[i].chain, Run(sigs, calls[..i]), calls[i].msg).0
  {
    assert calls[..i + 1][..i] == calls[..i];
  }

  /** In every run each stored update has its channel's announcement and a signature of the node on
      its side, each stored node announcement has a channel and a valid signature, and the index
      lists for every node exactly the announcements that name it. */
  lemma {:induction false} RunKeepsInv(sigs: Signatures, hasChain: bool, calls: seq<Call>)
    requires OneFilter(hasChain, calls)
    ensures Inv(sigs, hasChain, Run(sigs, calls))
    decreases |calls|
  {
    if calls != [] {
      var n := |calls| - 1;
      RunKeepsInv(sigs, hasChain, calls[..n]);
      hide Inv, Validate;
      ValidateKeeps(sigs, calls[n].chain, Run(sigs, calls[..n]), calls[n].msg);
    }
  }

  lemma StepKeeps(sigs: Signatures, hasChain: bool, calls: seq<Call>, i: nat)
    requires OneFilter(hasChain, calls) && i < |calls|
    ensures Inv(sigs, hasChain, Run(sigs, calls[..i]))
    ensures Grows(Run(sigs, calls[..i]).gossip, Run(sigs, calls[..i + 1]).gossip)
    ensures BroadcastsNew(Run(sigs, calls[..i]).gossip, Run(sigs, calls[..i + 1]).gossip, Returned(sigs, calls, i))
  {
    hide Inv, Validate, Grows;
    RunKeepsInv(sigs, hasChain, calls[..i]);
    ValidateKeeps(sigs, calls[i].chain, Run(sigs, calls[..i]), calls[i].msg);
    RunStep(sigs, calls, i);
  }

  /** Over a run announcements never change, and per key timestamps only increase. */
  lemma {:induction false} RunGrows(sigs: Signatures, hasChain: bool, calls: seq<Call>, i: nat, j: nat)
    requires OneFilter(hasChain, calls) && i <= j <= |calls|
    ensures Grows(Run(sigs, calls[..i]).gossip, Run(sigs, calls[..j]).gossip)
    decreases j
  {
    hide Run, Inv, BroadcastsNew;
    if i < j {
      RunGrows(sigs, hasChain, calls, i, j - 1);
      StepKeeps(sigs, hasChain, calls, j - 1);
      hide Grows;
      GrowsOn(Run(sigs, calls[..i]).gossip, Run(sigs, calls[..j - 1]).gossip, Run(sigs, calls[..j]).gossip);
    }
  }

  /** No message is broadcast by two calls of a run. */
  lemma BroadcastOnce(sigs: Signatures, hasChain: bool, calls: seq<Call>, i: nat, j: nat, m: Message)
    requires OneFilter(hasChain, calls) && i < j < |calls|
    requires Returned(sigs, calls, i).Ok? && m in Returned(sigs, calls, i).value
    requires Returned(sigs, calls, j).Ok?
    ensures m !in Returned(sigs, calls, j).value
  {
    hide Run, Returned, Inv;
    StepKeeps(sigs, hasChain, calls, i);
    StepKeeps(sigs, hasChain, calls, j);
    RunGrows(sigs, hasChain, calls, i + 1, j);
    NotBack(Run(sigs, calls[..i + 1]).gossip, Run(sigs, calls[..j]).gossip, Run(sigs, calls[..j + 1]).gossip, m);
    hide Grows;
  }

  /** In every run a channel is found by an outpoint exactly when it was extended with it. */
  lemma FoundByOutPoint(sigs: Signatures, hasChain: bool, calls: seq<Call>, o: OutPoint)
    requires OneFilter(hasChain, calls)
    ensures var g := Run(sigs, calls).gossip;
      (g.AnnAt(o).Some? ==> g.AnnAt(o).value.extended.Some? && g.AnnAt(o).value.extended.value.outpoint == o) &&
      (g.AnnAt(o).None? ==>
         forall s | s in g.anns :: g.anns[s].extended.None? || g.anns[s].extended.value.outpoint != o)
  {
    RunKeepsInv(sigs, hasChain, calls);
    hide AnnsOk, UpdsOk, NodesOk, LinksOk, Run;
  }

  /** No call of the run strands a waiting message. */
  predicate NeverStrands(sigs: Signatures, calls: seq<Call>) {
    calls == [] ||
    (var n := |calls| - 1;
     NeverStrands(sigs, calls[..n]) && !StrandsAt(sigs, Run(sigs, calls[..n]), calls[n]))
  }

  /** The call accepts an announcement and strands a message that waits for it. */
  predicate StrandsAt(sigs: Signatures, f: Filter, call: Call) {
    call.msg.OfChannel? && Judge(sigs, call.chain, f, call.msg.ann).Accept? &&
    Strands(sigs, f, Judge(sigs, call.chain, f, call.msg.ann).ann)
  }

  /** After every call of the run, whatever waits still lacks its channel. */
  ghost predicate AlwaysAwaiting(sigs: Signatures, calls: seq<Call>) {
    Awaiting(Run(sigs, calls)) && (calls == [] || AlwaysAwaiting(sigs, calls[..|calls| - 1]))
  }

  /** Nothing ever waits for a channel that is there exactly when no call strands a message. */
  lemma {:induction false} RunAwaits(sigs: Signatures, hasChain: bool, calls: seq<Call>)
    requires OneFilter(hasChain, calls)
    ensures AlwaysAwaiting(sigs, calls) <==> NeverStrands(sigs, calls)
    decreases |calls|
  {
    if calls != [] {
      var n := |calls| - 1;
      var f := Run(sigs, calls[..n]);
      RunAwaits(sigs, hasChain, calls[..n]);
      RunKeepsInv(sigs, hasChain, calls[..n]);
      hide Inv, Awaiting, Validate, Judge, Strands;
      if Awaiting(f) { AwaitingIff(sigs, calls[n].chain, f, calls[n].msg); }
    }
  }

  /** A forged update that waits strands the genuine one of the other direction. */
  lemma ForgedUpdateStrands(s: Scid, d0: ChannelUpdate, d1: ChannelUpdate, a: ChannelAnnouncement)
    requires d0.scid == d1.scid == a.scid == s && d0.direction == 0 && d1.direction == 1
    requires d0.signature != d1.signature
    ensures var sigs := Signatures(_ => true, (u: ChannelUpdate, _) => u.signature == d1.signature, _ => true);
      var calls := [Call(OfUpdate(d0), None), Call(OfUpdate(d1), None), Call(OfChannel(a), None)];
      !Awaiting(Run(sigs, calls)) && (s, 1 as Direction) in Run(sigs, calls).pending.upds
  {
    var sigs := Signatures(_ => true, (u: ChannelUpdate, _) => u.signature == d1.signature, _ => true);
    var calls := [Call(OfUpdate(d0), None), Call(OfUpdate(d1), None), Call(OfChannel(a), None)];
    var waiting := map[(s, 0 as Direction) := d0, (s, 1 as Direction) := d1];
    var f := Filter(Empty(), Empty().(upds := waiting));
    RunStep(sigs, calls, 0);
    RunStep(sigs, calls, 1);
    RunStep(sigs, calls, 2);
    assert calls[..3] == calls;
    assert Run(sigs, calls[..2]) == f;
    var saved := f.(gossip := SaveAnn(f.gossip, a));
    hide Run;
    var r := (saved, Ok([OfChannel(a)]));
    UnrollUpdates(sigs, r, Some(d0), Some(d1));
    var r1 := ReleaseUpdates(sigs, saved, a);
    assert r1.1.Err? && r1.0.pending == DropUpd(f.pending, s, 0);
    NodesErrStays(sigs, r1, a);
    assert Run(sigs, calls) == r1.0;
  }
}
