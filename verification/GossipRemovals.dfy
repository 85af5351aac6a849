/** What is left of a channel that is removed from the store. */
module GossipRemovals {
  import opened Wrappers
  import opened GossipMemoryStore
  import opened GossipFilter
  import opened GossipFilterRuns

  /** Nothing in the store is about the channel. */
  ghost predicate Gone(g: Store, s: Scid) {
    && g.Ann(s).None?
    && (forall d: Direction :: g.Upd(s, d).None?)
    && (forall o: OutPoint | o in g.byOutPoint :: g.byOutPoint[o] != s)
    && (forall n: NodeId :: s !in g.ChannelsOf(n))
  }

  /** Everything about other channels and about nodes is as it was. */
  ghost predicate OthersKept(g: Store, h: Store, s: Scid) {
    && (forall t: Scid | t != s :: h.Ann(t) == g.Ann(t))
    && (forall t: Scid, d: Direction | t != s :: h.Upd(t, d) == g.Upd(t, d))
    && (forall o: OutPoint | o in g.byOutPoint && g.byOutPoint[o] != s ::
          o in h.byOutPoint && h.byOutPoint[o] == g.byOutPoint[o])
    && (forall n: NodeId, t: Scid | t != s :: t in h.ChannelsOf(n) <==> t in g.ChannelsOf(n))
    && h.nodes == g.nodes
  }

  /** The outpoint that the channel was extended with leads to it, and not to another channel that
      was extended with the same one since. */
  predicate OwnsOutPoint(g: Store, s: Scid)
    requires s in g.anns
  {
    var e := g.anns[s].extended;
    e.Some? && e.value.outpoint in g.byOutPoint ==> g.byOutPoint[e.value.outpoint] == s
  }

  lemma RemovedLinks(g: Store, s: Scid)
    requires LinksOk(g) && g.Ann(s).Some?
    ensures var h := DropAnn(g, s);
      forall n: NodeId, t: Scid :: t in h.ChannelsOf(n) <==> t != s && t in g.ChannelsOf(n)
  {
    forall n: NodeId, t: Scid
      ensures t in DropAnn(g, s).ChannelsOf(n) <==> t != s && t in g.ChannelsOf(n)
    {
      assert s in g.ChannelsOf(n) ==> g.anns[s].Names(n);
    }
  }

  lemma RemovedOutPoints(g: Store, s: Scid)
    requires OutPointsOk(g) && g.Ann(s).Some?
    ensures var h := DropAnn(g, s);
      (forall o: OutPoint | o in h.byOutPoint ::
         o in g.byOutPoint && h.byOutPoint[o] == g.byOutPoint[o] && g.byOutPoint[o] != s) &&
      (OwnsOutPoint(g, s) <==> forall o: OutPoint | o in g.byOutPoint && g.byOutPoint[o] != s :: o in h.byOutPoint)
  {
    hide Unlink;
  }

  /** Removing a stored channel removes everything about it exactly when there is no update of its
      second direction; that update stays. Nothing else changes, unless another channel has the
      same outpoint. */
  lemma RemovedIff(sigs: Signatures, hasChain: bool, g: Store, s: Scid)
    requires GossipInv(sigs, hasChain, g) && g.Ann(s).Some?
    ensures var h := DropAnn(g, s);
      (Gone(h, s) <==> g.Upd(s, 1).None?) && h.Upd(s, 1) == g.Upd(s, 1) && (OthersKept(g, h, s) <==> OwnsOutPoint(g, s))
  {
    RemovedLinks(g, s);
    RemovedOutPoints(g, s);
    RemovedUpdates(g, s);
    var h := DropAnn(g, s);
    assert h.Ann(s).None? && h.nodes == g.nodes && forall t: Scid | t != s :: h.Ann(t) == g.Ann(t);
    hide AnnsOk, UpdsOk, NodesOk, LinksOk, OutPointsOk, DropAnn, OwnsOutPoint;
  }

  lemma RemovedUpdates(g: Store, s: Scid)
    requires g.Ann(s).Some?
    ensures var h := DropAnn(g, s);
      h.Upd(s, 0).None? && forall t: Scid, d: Direction | t != s || d == 1 :: h.Upd(t, d) == g.Upd(t, d)
  {
    hide Unlink;
  }

  /** So it is after every run of validations. */
  lemma RunRemovedIff(sigs: Signatures, hasChain: bool, calls: seq<Call>, s: Scid)
    requires OneFilter(hasChain, calls) && Run(sigs, calls).gossip.Ann(s).Some?
    ensures var g := Run(sigs, calls).gossip;
      Gone(DropAnn(g, s), s) <==> g.Upd(s, 1).None?
  {
    RunKeepsInv(sigs, hasChain, calls);
    hide GossipInv, PendingInv, Run;
    RemovedIff(sigs, hasChain, Run(sigs, calls).gossip, s);
  }
}
