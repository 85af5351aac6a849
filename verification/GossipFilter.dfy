/** packages/wire/lib/gossip/GossipFilter.ts: validation of gossip messages over two stores, the one
    that is shared with peers and the one for messages that wait for their channel. */
module GossipFilter {
  import opened Wrappers
  import opened GossipMemoryStore

  datatype Message =
    | OfChannel(ann: ChannelAnnouncement)
    | OfUpdate(upd: ChannelUpdate)
    | OfNode(node: NodeAnnouncement)
    | Other

  datatype Code = NodeAnnSigFailed | ChanAnnSigFailed | ChanUpdSigFailed
    | ChanBadBlockHash | ChanBadBlock | ChanAnnBadTx | ChanUtxoSpent | ChanBadScript

  datatype WireError = WireError(code: Code, msg: Message)

  type Outcome = Result<seq<Message>, WireError>

  /** The signature checks. */
  datatype Signatures = Signatures(
    ann: ChannelAnnouncement -> bool,
    upd: (ChannelUpdate, NodeId) -> bool,
    node: NodeAnnouncement -> bool)

  datatype Utxo = Utxo(script: string, value: nat)

  /** What the chain client answers during one call, and the funding script of two keys. An empty
      hash or transaction id counts as a missing one. */
  datatype Chain = Chain(
    getBlockHash: nat -> string,
    getBlock: string -> Option<seq<string>>,
    getUtxo: (string, nat) -> Option<Utxo>,
    fundingScript: (string, string) -> string)

  datatype Filter = Filter(gossip: Store, pending: Store)

  // ---------------------------------------------------------------- what each call does

  function Signer(ann: ChannelAnnouncement, d: Direction): NodeId {
    if d == 0 then ann.nodeId1 else ann.nodeId2
  }

  /** An update that is no older is stored. */
  predicate HasUpdate(g: Store, m: ChannelUpdate) {
    g.Upd(m.scid, m.direction).Some? && g.Upd(m.scid, m.direction).value.timestamp >= m.timestamp
  }

  /** `_validateChannelUpdate` */
  function ValidateUpdate(sigs: Signatures, f: Filter, m: ChannelUpdate): (Filter, Outcome) {
    var ann := f.gossip.Ann(m.scid);
    if ann.None? then (f.(pending := SaveUpd(f.pending, m)), Ok([]))
    else if HasUpdate(f.gossip, m) then
      (f, Ok([]))
    else if !sigs.upd(m, Signer(ann.value, m.direction)) then (f, Err(WireError(ChanUpdSigFailed, OfUpdate(m))))
    else (f.(gossip := SaveUpd(f.gossip, m)), Ok([OfUpdate(m)]))
  }

  /** `_validateNodeAnnouncement` */
  function ValidateNode(sigs: Signatures, f: Filter, m: NodeAnnouncement): (Filter, Outcome) {
    if f.gossip.Node(m.nodeId).Some? && f.gossip.Node(m.nodeId).value.timestamp >= m.timestamp then (f, Ok([]))
    else if f.gossip.ChannelsOf(m.nodeId) == {} then (f.(pending := SaveNode(f.pending, m)), Ok([]))
    else if !sigs.node(m) then (f, Err(WireError(NodeAnnSigFailed, OfNode(m))))
    else (f.(gossip := SaveNode(f.gossip, m)), Ok([OfNode(m)]))
  }

  /** The on-chain checks of `_validateChannelAnnouncement`. */
  function OnChainData(chain: Chain, m: ChannelAnnouncement): Result<OnChain, WireError> {
    var blockHash := chain.getBlockHash(m.scid.block);
    if blockHash == "" then Err(WireError(ChanBadBlockHash, OfChannel(m)))
    else if chain.getBlock(blockHash).None? then Err(WireError(ChanBadBlock, OfChannel(m)))
    else
      var tx := chain.getBlock(blockHash).value;
      if m.scid.txIdx >= |tx| || tx[m.scid.txIdx] == "" then Err(WireError(ChanAnnBadTx, OfChannel(m)))
      else
        var utxo := chain.getUtxo(tx[m.scid.txIdx], m.scid.voutIdx);
        if utxo.None? then Err(WireError(ChanUtxoSpent, OfChannel(m)))
        else if chain.fundingScript(m.bitcoinKey1, m.bitcoinKey2) != utxo.value.script then
          Err(WireError(ChanBadScript, OfChannel(m)))
        else Ok(OnChain(OutPoint(tx[m.scid.txIdx], m.scid.voutIdx), utxo.value.value))
  }

  /** The announcement that is to be saved, or why none is. */
  datatype Verdict = Ignore | Refuse(error: WireError) | Accept(ann: ChannelAnnouncement)

  function Judge(sigs: Signatures, chain: Option<Chain>, f: Filter, m: ChannelAnnouncement): Verdict {
    var existing := f.gossip.Ann(m.scid);
    if existing.Some? && (existing.value.extended.Some? || chain.None?) then Ignore
    else if !sigs.ann(m) then Refuse(WireError(ChanAnnSigFailed, OfChannel(m)))
    else if chain.None? then Accept(m)
    else match OnChainData(chain.value, m)
         case Err(e) => Refuse(e)
         case Ok(data) => Accept(m.(extended := Some(data)))
  }

  /** Runs a call after one that has already returned `before`. */
  function AfterOk(before: Outcome, r: (Filter, Outcome)): (Filter, Outcome)
    requires before.Ok?
  {
    match r.1
    case Err(e) => r
    case Ok(more) => (r.0, Ok(before.value + more))
  }

  /** One turn of the loop over waiting updates. */
  function ReleaseUpdate(sigs: Signatures, r: (Filter, Outcome), waiting: Option<ChannelUpdate>): (Filter, Outcome) {
    if r.1.Err? || waiting.None? then r
    else
      var m := waiting.value;
      AfterOk(r.1, ValidateUpdate(sigs, r.0.(pending := DropUpd(r.0.pending, m.scid, m.direction)), m))
  }

  /** One turn of the loop over waiting node announcements. */
  function ReleaseNode(sigs: Signatures, r: (Filter, Outcome), waiting: Option<NodeAnnouncement>): (Filter, Outcome) {
    if r.1.Err? || waiting.None? then r
    else
      var m := waiting.value;
      AfterOk(r.1, ValidateNode(sigs, r.0.(pending := DropNode(r.0.pending, m.nodeId)), m))
  }

  function ReleaseEachUpdate(
      sigs: Signatures, r: (Filter, Outcome), waiting: seq<Option<ChannelUpdate>>): (Filter, Outcome)
    decreases |waiting|
  {
    if waiting == [] then r else ReleaseEachUpdate(sigs, ReleaseUpdate(sigs, r, waiting[0]), waiting[1..])
  }

  function ReleaseEachNode(
      sigs: Signatures, r: (Filter, Outcome), waiting: seq<Option<NodeAnnouncement>>): (Filter, Outcome)
    decreases |waiting|
  {
    if waiting == [] then r else ReleaseEachNode(sigs, ReleaseNode(sigs, r, waiting[0]), waiting[1..])
  }

  /** Validates the updates that wait for the channel of `m`, whose announcement has just been saved. */
  function ReleaseUpdates(sigs: Signatures, f: Filter, m: ChannelAnnouncement): (Filter, Outcome) {
    ReleaseEachUpdate(sigs, (f, Ok([OfChannel(m)])), [f.pending.Upd(m.scid, 0), f.pending.Upd(m.scid, 1)])
  }

  function ReleaseNodes(sigs: Signatures, r: (Filter, Outcome), m: ChannelAnnouncement): (Filter, Outcome) {
    ReleaseEachNode(sigs, r, [r.0.pending.Node(m.nodeId1), r.0.pending.Node(m.nodeId2)])
  }

  /** `_validateChannelAnnouncement` */
  function ValidateChannel(
      sigs: Signatures, chain: Option<Chain>, f: Filter, m: ChannelAnnouncement): (Filter, Outcome)
  {
    match Judge(sigs, chain, f, m)
    case Ignore => (f, Ok([]))
    case Refuse(e) => (f, Err(e))
    case Accept(ann) =>
      ReleaseNodes(sigs, ReleaseUpdates(sigs, f.(gossip := SaveAnn(f.gossip, ann)), ann), ann)
  }

  /** `validateMessage` */
  function Validate(sigs: Signatures, chain: Option<Chain>, f: Filter, m: Message): (Filter, Outcome) {
    match m
    case OfChannel(ann) => ValidateChannel(sigs, chain, f, ann)
    case OfUpdate(upd) => ValidateUpdate(sigs, f, upd)
    case OfNode(node) => ValidateNode(sigs, f, node)
    case Other => (f, Ok([]))
  }

  // ---------------------------------------------------------------- the class

  class GossipFilter {
    const gossipStore: GossipMemoryStore
    const pendingStore: GossipMemoryStore
    const sigs: Signatures

    ghost predicate Valid()
      reads this, gossipStore, pendingStore
    {
      gossipStore != pendingStore && gossipStore.Valid() && pendingStore.Valid()
    }

    ghost function State(): Filter
      reads this, gossipStore, pendingStore
    {
      Filter(gossipStore.store, pendingStore.store)
    }

    constructor (gossipStore: GossipMemoryStore, pendingStore: GossipMemoryStore, sigs: Signatures)
      requires gossipStore != pendingStore && gossipStore.Valid() && pendingStore.Valid()
      ensures Valid() && State() == Filter(gossipStore.store, pendingStore.store) && this.sigs == sigs
      ensures this.gossipStore == gossipStore && this.pendingStore == pendingStore
    {
      this.gossipStore, this.pendingStore, this.sigs := gossipStore, pendingStore, sigs;
    }

    /** `chain` holds the chain client's answers during this call. */
    method ValidateMessage(msg: Message, chain: Option<Chain>) returns (r: Outcome)
      requires Valid()
      modifies gossipStore, pendingStore
      ensures Valid() && (State(), r) == Validate(sigs, chain, old(State()), msg)
    {
      match msg
      case OfChannel(ann) => r := ValidateChannelAnnouncement(ann, chain);
      case OfNode(node) => r := ValidateNodeAnnouncement(node);
      case OfUpdate(upd) => r := ValidateChannelUpdate(upd);
      case Other => r := Ok([]);
    }

    method ValidateNodeAnnouncement(msg: NodeAnnouncement) returns (r: Outcome)
      requires Valid()
      modifies gossipStore, pendingStore
      ensures Valid() && (State(), r) == ValidateNode(sigs, old(State()), msg)
    {
      hide GossipMemoryStore.AnnsShown, GossipMemoryStore.UpdsShown, GossipMemoryStore.LinksShown;
      var existing := gossipStore.FindNodeAnnouncement(msg.nodeId);
      if existing.Some? && existing.value.timestamp >= msg.timestamp { return Ok([]); }
      var scids := gossipStore.FindChannelsForNode(msg.nodeId);
      assert scids != [] ==> scids[0] in scids;
      if scids == [] {
        pendingStore.SaveNodeAnnouncement(msg);
        return Ok([]);
      }
      if !sigs.node(msg) { return Err(WireError(NodeAnnSigFailed, OfNode(msg))); }
      gossipStore.SaveNodeAnnouncement(msg);
      return Ok([OfNode(msg)]);
    }

    method ValidateChannelUpdate(msg: ChannelUpdate) returns (r: Outcome)
      requires Valid()
      modifies gossipStore, pendingStore
      ensures Valid() && (State(), r) == ValidateUpdate(sigs, old(State()), msg)
    {
      hide GossipMemoryStore.AnnsShown, GossipMemoryStore.UpdsShown, GossipMemoryStore.LinksShown;
      var channelMessage := gossipStore.FindChannelAnnouncement(msg.scid);
      if channelMessage.None? {
        pendingStore.SaveChannelUpdate(msg);
        return Ok([]);
      }
      var existingUpdate := gossipStore.FindChannelUpdate(msg.scid, msg.direction);
      if existingUpdate.Some? && existingUpdate.value.timestamp >= msg.timestamp { return Ok([]); }
      var nodeId := if msg.direction == 0 then channelMessage.value.nodeId1 else channelMessage.value.nodeId2;
      if !sigs.upd(msg, nodeId) { return Err(WireError(ChanUpdSigFailed, OfUpdate(msg))); }
      gossipStore.SaveChannelUpdate(msg);
      return Ok([OfUpdate(msg)]);
    }

    method ValidateChannelAnnouncement(m: ChannelAnnouncement, chain: Option<Chain>) returns (r: Outcome)
      requires Valid()
      modifies gossipStore, pendingStore
      ensures Valid() && (State(), r) == ValidateChannel(sigs, chain, old(State()), m)
    {
      hide GossipMemoryStore.AnnsShown, GossipMemoryStore.UpdsShown, GossipMemoryStore.LinksShown;
      hide ReleaseUpdates, ReleaseNodes, SaveAnn;
      var msg := m;
      var existing := gossipStore.FindChannelAnnouncement(msg.scid);
      if existing.Some? && existing.value.extended.Some? { return Ok([]); }
      if existing.Some? && chain.None? { return Ok([]); }
      if !sigs.ann(msg) { return Err(WireError(ChanAnnSigFailed, OfChannel(msg))); }
      if chain.Some? {
        var blockHash := chain.value.getBlockHash(msg.scid.block);
        if blockHash == "" { return Err(WireError(ChanBadBlockHash, OfChannel(msg))); }
        var block := chain.value.getBlock(blockHash);
        if block.None? { return Err(WireError(ChanBadBlock, OfChannel(msg))); }
        if msg.scid.txIdx >= |block.value| || block.value[msg.scid.txIdx] == "" {
          return Err(WireError(ChanAnnBadTx, OfChannel(msg)));
        }
        var txId := block.value[msg.scid.txIdx];
        var utxo := chain.value.getUtxo(txId, msg.scid.voutIdx);
        if utxo.None? { return Err(WireError(ChanUtxoSpent, OfChannel(msg))); }
        var expectedScript := chain.value.fundingScript(msg.bitcoinKey1, msg.bitcoinKey2);
        if expectedScript != utxo.value.script { return Err(WireError(ChanBadScript, OfChannel(msg))); }
        msg := msg.(extended := Some(OnChain(OutPoint(txId, msg.scid.voutIdx), utxo.value.value)));
      }
      assert Judge(sigs, chain, State(), m) == Accept(msg);
      gossipStore.SaveChannelAnnouncement(msg);
      r := ReleaseWaitingUpdates(msg);
      if r.Err? {
        NodesErrStays(sigs, (State(), r), msg);
        return r;
      }
      r := ReleaseWaitingNodes(msg, r.value);
    }

    method ReleaseWaitingUpdates(msg: ChannelAnnouncement) returns (r: Outcome)
      requires Valid()
      modifies gossipStore, pendingStore
      ensures Valid() && (State(), r) == ReleaseUpdates(sigs, old(State()), msg)
    {
      ghost var target := ReleaseUpdates(sigs, State(), msg);
      r := Ok([OfChannel(msg)]);
      var pending0 := pendingStore.FindChannelUpdate(msg.scid, 0);
      var pending1 := pendingStore.FindChannelUpdate(msg.scid, 1);
      var pendingUpdates := [pending0, pending1];
      hide ReleaseUpdate, ReleaseUpdates;
      for i := 0 to 2
        invariant Valid() && r.Ok?
        invariant ReleaseEachUpdate(sigs, (State(), r), pendingUpdates[i..]) == target
      {
        assert pendingUpdates[i..][1..] == pendingUpdates[i + 1..];
        r := ReleaseOneUpdate(pendingUpdates[i], r.value);
        if r.Err? {
          ErrStays(sigs, (State(), r), pendingUpdates[i + 1..]);
          return;
        }
      }
    }

    /** One turn of the loop over the waiting updates. */
    method ReleaseOneUpdate(pendingUpdate: Option<ChannelUpdate>, results: seq<Message>) returns (r: Outcome)
      requires Valid()
      modifies gossipStore, pendingStore
      ensures Valid() && (State(), r) == ReleaseUpdate(sigs, (old(State()), Ok(results)), pendingUpdate)
    {
      if pendingUpdate.None? { return Ok(results); }
      hide ValidateUpdate;
      var m := pendingUpdate.value;
      pendingStore.DeleteChannelUpdate(m.scid, m.direction);
      r := ValidateChannelUpdate(m);
      if r.Ok? { r := Ok(results + r.value); }
    }

    method ReleaseWaitingNodes(msg: ChannelAnnouncement, before: seq<Message>) returns (r: Outcome)
      requires Valid()
      modifies gossipStore, pendingStore
      ensures Valid() && (State(), r) == ReleaseNodes(sigs, (old(State()), Ok(before)), msg)
    {
      ghost var target := ReleaseNodes(sigs, (State(), Ok(before)), msg);
      r := Ok(before);
      var pending1 := pendingStore.FindNodeAnnouncement(msg.nodeId1);
      var pending2 := pendingStore.FindNodeAnnouncement(msg.nodeId2);
      var pendingNodeAnns := [pending1, pending2];
      hide ReleaseNode, ReleaseNodes;
      for i := 0 to 2
        invariant Valid() && r.Ok?
        invariant ReleaseEachNode(sigs, (State(), r), pendingNodeAnns[i..]) == target
      {
        assert pendingNodeAnns[i..][1..] == pendingNodeAnns[i + 1..];
        r := ReleaseOneNode(pendingNodeAnns[i], r.value);
        if r.Err? {
          NodeErrStays(sigs, (State(), r), pendingNodeAnns[i + 1..]);
          return;
        }
      }
    }

    /** One turn of the loop over the waiting node announcements. */
    method ReleaseOneNode(pendingNodeAnn: Option<NodeAnnouncement>, results: seq<Message>) returns (r: Outcome)
      requires Valid()
      modifies gossipStore, pendingStore
      ensures Valid() && (State(), r) == ReleaseNode(sigs, (old(State()), Ok(results)), pendingNodeAnn)
    {
      if pendingNodeAnn.None? { return Ok(results); }
      hide ValidateNode;
      var m := pendingNodeAnn.value;
      pendingStore.DeleteNodeAnnouncement(m.nodeId);
      r := ValidateNodeAnnouncement(m);
      if r.Ok? { r := Ok(results + r.value); }
    }
  }

  lemma {:induction false} ErrStays(sigs: Signatures, r: (Filter, Outcome), waiting: seq<Option<ChannelUpdate>>)
    requires r.1.Err?
    ensures ReleaseEachUpdate(sigs, r, waiting) == r
    decreases |waiting|
  {
    if waiting != [] { ErrStays(sigs, r, waiting[1..]); }
  }

  lemma {:induction false} NodeErrStays(sigs: Signatures, r: (Filter, Outcome), waiting: seq<Option<NodeAnnouncement>>)
    requires r.1.Err?
    ensures ReleaseEachNode(sigs, r, waiting) == r
    decreases |waiting|
  {
    if waiting != [] { NodeErrStays(sigs, r, waiting[1..]); }
  }

  lemma NodesErrStays(sigs: Signatures, r: (Filter, Outcome), m: ChannelAnnouncement)
    requires r.1.Err?
    ensures ReleaseNodes(sigs, r, m) == r
  {
    NodeErrStays(sigs, r, [r.0.pending.Node(m.nodeId1), r.0.pending.Node(m.nodeId2)]);
  }
}
