/** packages/wire/lib/gossip/GossipMemoryStore.ts: five maps under numeric and textual keys, proved
    to stand for a store keyed by channels, channel directions and nodes. */
module GossipMemoryStore {
  import opened Wrappers
  import opened Numbers
  import opened Bits

  /** A node's public key, in hex. */
  type NodeId = string

  type Direction = d: nat | d < 2

  datatype ShortChannelId = ShortChannelId(block: nat, txIdx: nat, voutIdx: nat)

  type Scid = s: ShortChannelId | s.block < 0x100_0000 && s.txIdx < 0x100_0000 && s.voutIdx < 0x1_0000
    witness ShortChannelId(0, 0, 0)

  datatype OutPoint = OutPoint(txid: string, outputIndex: nat)

  datatype OnChain = OnChain(outpoint: OutPoint, capacity: nat)

  /** `extended` tells an `ExtendedChannelAnnouncementMessage` from a plain one. */
  datatype ChannelAnnouncement = ChannelAnnouncement(
    scid: Scid, nodeId1: NodeId, nodeId2: NodeId, bitcoinKey1: string, bitcoinKey2: string,
    signatures: seq<string>, extended: Option<OnChain>)
  {
    predicate Names(n: NodeId) {
      n == nodeId1 || n == nodeId2
    }
  }

  datatype ChannelUpdate = ChannelUpdate(scid: Scid, direction: Direction, timestamp: nat, signature: string)

  datatype NodeAnnouncement = NodeAnnouncement(nodeId: NodeId, timestamp: nat, signature: string)

  // ---------------------------------------------------------------- keys

  /** `getChanKey`: the eight bytes of the short channel id as one number. */
  function ChanKey(s: Scid): nat {
    s.block * 0x100_0000_0000 + s.txIdx * 0x1_0000 + s.voutIdx
  }

  /** `shortChannelIdFromNumber` */
  function FromNumber(num: nat): ShortChannelId {
    ShortChannelId(
      Shr(And(num, Shl(Pow2(24) - 1, 40)), 40),
      Shr(And(num, Shl(Pow2(24) - 1, 16)), 16),
      And(num, Pow2(16) - 1))
  }

  /** `getChanUpdKey` */
  function ChanUpdKey(chanKey: nat, direction: nat): nat {
    Or(Shl(chanKey, 8), direction)
  }

  lemma Powers()
    ensures Pow2(8) == 0x100 && Pow2(16) == 0x1_0000 && Pow2(24) == 0x100_0000 && Pow2(40) == 0x100_0000_0000
  {
    assert Pow2(4) == 16;
    PowAdd(2, 4, 4);
    PowAdd(2, 8, 8);
    PowAdd(2, 16, 8);
    PowAdd(2, 24, 16);
  }

  /** The bits of `num` from `b` up, `k` of them. */
  lemma Field(num: nat, k: nat, b: nat)
    ensures Shr(And(num, Shl(Pow2(k) - 1, b)), b) == (num / Pow2(b)) % Pow2(k)
  {
    AndShifted(num, Pow2(k) - 1, b);
    AndLowMask(Shr(num, b), k);
    var v := And(Shr(num, b), Pow2(k) - 1);
    DivUnique(v * Pow2(b), Pow2(b), v);
  }

  /** `shortChannelIdFromNumber` undoes `toNumber`. */
  lemma ScidRoundTrip(s: Scid)
    ensures FromNumber(ChanKey(s)) == s
  {
    hide And, Shr, Shl, Pow2;
    Powers();
    var num := ChanKey(s);
    Field(num, 24, 40);
    Field(num, 24, 16);
    AndLowMask(num, 16);
    DivUnique(num, 0x100_0000_0000, s.block);
    DivUnique(num, 0x1_0000, s.block * 0x100_0000 + s.txIdx);
  }

  /** Two updates share a key only when they are about the same direction of the same channel. */
  lemma UpdKeysDiffer(s: Scid, d: Direction, t: Scid, e: Direction)
    requires ChanUpdKey(ChanKey(s), d) == ChanUpdKey(ChanKey(t), e)
    ensures s == t && d == e
  {
    hide And, Or, Pow2, ChanKey, FromNumber;
    Powers();
    OrDisjoint(ChanKey(s), 8, d);
    OrDisjoint(ChanKey(t), 8, e);
    assert ChanKey(s) * 0x100 + d == ChanKey(t) * 0x100 + e;
    ScidRoundTrip(s);
    ScidRoundTrip(t);
  }

  /** Keys are ordered as short channel ids are: by block, transaction and output. */
  lemma ScidOrder(s: Scid, t: Scid)
    ensures ChanKey(s) < ChanKey(t) <==>
      s.block < t.block || (s.block == t.block &&
        (s.txIdx < t.txIdx || (s.txIdx == t.txIdx && s.voutIdx < t.voutIdx)))
  {}

  // ---------------------------------------------------------------- the store the maps stand for

  datatype Store = Store(
    anns: map<Scid, ChannelAnnouncement>, byOutPoint: map<OutPoint, Scid>,
    upds: map<(Scid, Direction), ChannelUpdate>, nodes: map<NodeId, NodeAnnouncement>,
    nodeChannels: map<NodeId, set<Scid>>)
  {
    function Ann(s: Scid): Option<ChannelAnnouncement> {
      if s in anns then Some(anns[s]) else None
    }

    function Upd(s: Scid, d: Direction): Option<ChannelUpdate> {
      if (s, d) in upds then Some(upds[(s, d)]) else None
    }

    function Node(n: NodeId): Option<NodeAnnouncement> {
      if n in nodes then Some(nodes[n]) else None
    }

    function ChannelsOf(n: NodeId): set<Scid> {
      if n in nodeChannels then nodeChannels[n] else {}
    }

    function AnnAt(o: OutPoint): Option<ChannelAnnouncement> {
      if o in byOutPoint then Ann(byOutPoint[o]) else None
    }
  }

  function Empty(): Store {
    Store(map[], map[], map[], map[], map[])
  }

  /** `_saveNodeChannel` */
  function Link(nodeChannels: map<NodeId, set<Scid>>, n: NodeId, s: Scid): map<NodeId, set<Scid>> {
    nodeChannels[n := (if n in nodeChannels then nodeChannels[n] else {}) + {s}]
  }

  function SaveAnn(store: Store, m: ChannelAnnouncement): Store {
    store.(
      anns := store.anns[m.scid := m],
      byOutPoint :=
        if m.extended.Some? then store.byOutPoint[m.extended.value.outpoint := m.scid] else store.byOutPoint,
      nodeChannels := Link(Link(store.nodeChannels, m.nodeId1, m.scid), m.nodeId2, m.scid))
  }

  function SaveUpd(store: Store, m: ChannelUpdate): Store {
    store.(upds := store.upds[(m.scid, m.direction) := m])
  }

  function SaveNode(store: Store, m: NodeAnnouncement): Store {
    store.(nodes := store.nodes[m.nodeId := m])
  }

  function Unlink(nodeChannels: map<NodeId, set<Scid>>, n: NodeId, s: Scid): map<NodeId, set<Scid>> {
    if n in nodeChannels then nodeChannels[n := nodeChannels[n] - {s}] else nodeChannels
  }

  /** `deleteChannelAnnouncement`, which deletes the update of direction 0 twice. */
  function DropAnn(store: Store, s: Scid): Store {
    if s !in store.anns then store
    else
      var m := store.anns[s];
      store.(
        anns := store.anns - {s},
        byOutPoint := if m.extended.Some? then store.byOutPoint - {m.extended.value.outpoint} else store.byOutPoint,
        upds := store.upds - {(s, 0)},
        nodeChannels := Unlink(Unlink(store.nodeChannels, m.nodeId1, s), m.nodeId2, s))
  }

  /** Both nodes of every announcement have an entry in the node index. */
  ghost predicate Indexed(store: Store) {
    forall s | s in store.anns ::
      store.anns[s].nodeId1 in store.nodeChannels && store.anns[s].nodeId2 in store.nodeChannels
  }

  function DropUpd(store: Store, s: Scid, d: Direction): Store {
    store.(upds := store.upds - {(s, d)})
  }

  function DropNode(store: Store, n: NodeId): Store {
    store.(nodes := store.nodes - {n})
  }

  /** What is found after each kind of saving: what was saved, and otherwise what was found before. */
  lemma FindsSaved(g: Store, a: ChannelAnnouncement, u: ChannelUpdate, n: NodeAnnouncement)
    ensures forall s: Scid :: SaveAnn(g, a).Ann(s) == if s == a.scid then Some(a) else g.Ann(s)
    ensures forall s: Scid, d: Direction ::
      SaveUpd(g, u).Upd(s, d) == if s == u.scid && d == u.direction then Some(u) else g.Upd(s, d)
    ensures forall k: NodeId :: SaveNode(g, n).Node(k) == if k == n.nodeId then Some(n) else g.Node(k)
    ensures forall k: NodeId :: SaveAnn(g, a).ChannelsOf(k) == g.ChannelsOf(k) + if a.Names(k) then {a.scid} else {}
    ensures a.extended.Some? ==> SaveAnn(g, a).AnnAt(a.extended.value.outpoint) == Some(a)
  {
    forall k: NodeId
      ensures SaveAnn(g, a).ChannelsOf(k) == g.ChannelsOf(k) + if a.Names(k) then {a.scid} else {} {}
  }

  /** And after each kind of deletion. */
  lemma FindsDeleted(g: Store, s: Scid, d: Direction, n: NodeId)
    ensures forall t: Scid, e: Direction ::
      DropUpd(g, s, d).Upd(t, e) == if t == s && e == d then None else g.Upd(t, e)
    ensures forall k: NodeId :: DropNode(g, n).Node(k) == if k == n then None else g.Node(k)
    ensures DropUpd(g, s, d) == g.(upds := DropUpd(g, s, d).upds) && DropNode(g, n) == g.(nodes := DropNode(g, n).nodes)
  {}

  // ---------------------------------------------------------------- the class

  class GossipMemoryStore {
    var channelAnn: map<nat, ChannelAnnouncement>
    var channelByOutPoint: map<OutPoint, nat>
    var channelUpd: map<nat, ChannelUpdate>
    var nodeAnn: map<NodeId, NodeAnnouncement>
    /** The channels of each node, in the order in which they were linked. */
    var nodeChannels: map<NodeId, seq<nat>>
    ghost var store: Store

    /** The maps hold what `store` holds, under the keys of the source. */
    ghost predicate Valid()
      reads this
    {
      AnnsShown() && UpdsShown() && LinksShown() && nodeAnn == store.nodes
    }

    ghost predicate AnnsShown()
      reads this
    {
      && AnnsKeyed(channelAnn, store.anns)
      && OutPointsKeyed(channelByOutPoint, store.byOutPoint)
    }

    ghost predicate UpdsShown()
      reads this
    {
      UpdsKeyed(channelUpd, store.upds)
    }

    ghost predicate LinksShown()
      reads this
    {
      Numbered(nodeChannels, store.nodeChannels) && Indexed(store)
    }

    constructor ()
      ensures Valid() && store == Empty()
    {
      channelAnn, channelByOutPoint, channelUpd, nodeAnn, nodeChannels := map[], map[], map[], map[], map[];
      store := Empty();
    }

    method SaveChannelAnnouncement(msg: ChannelAnnouncement)
      requires Valid()
      modifies this
      ensures Valid() && store == SaveAnn(old(store), msg)
    {
      hide ChanKey, ChanUpdKey, Numbered, Indexed, Link, LinkNumbers, AnnsKeyed, UpdsKeyed, OutPointsKeyed;
      var chanKey := ChanKey(msg.scid);
      SaveAnnKeyed(channelAnn, store.anns, msg);
      channelAnn := channelAnn[chanKey := msg];
      if msg.extended.Some? {
        OutPointKeyed(channelByOutPoint, store.byOutPoint, msg.extended.value.outpoint, msg.scid);
        channelByOutPoint := channelByOutPoint[msg.extended.value.outpoint := ChanKey(msg.scid)];
      }
      LinkKeys(nodeChannels, store.nodeChannels, msg.nodeId1, msg.scid);
      SaveNodeChannel(msg.nodeId1, chanKey);
      LinkKeys(nodeChannels, Link(store.nodeChannels, msg.nodeId1, msg.scid), msg.nodeId2, msg.scid);
      SaveNodeChannel(msg.nodeId2, chanKey);
      SavedIndexed(store, msg);
      store := SaveAnn(store, msg);
    }

    method SaveChannelUpdate(msg: ChannelUpdate)
      requires Valid()
      modifies this
      ensures Valid() && store == SaveUpd(old(store), msg)
    {
      hide ChanKey, ChanUpdKey;
      var key := ChanUpdKey(ChanKey(msg.scid), msg.direction);
      OneKey(msg.scid, msg.direction);
      channelUpd := channelUpd[key := msg];
      store := SaveUpd(store, msg);
    }

    method SaveNodeAnnouncement(msg: NodeAnnouncement)
      requires Valid()
      modifies this
      ensures Valid() && store == SaveNode(old(store), msg)
    {
      nodeAnn := nodeAnn[msg.nodeId := msg];
      store := SaveNode(store, msg);
    }

    /** Each channel once, in the order of the index. */
    method FindChannelsForNode(nodeId: NodeId) returns (r: seq<ShortChannelId>)
      requires Valid()
      ensures |r| == (if nodeId in nodeChannels then |nodeChannels[nodeId]| else 0)
      ensures forall i | 0 <= i < |r| :: r[i] == FromNumber(nodeChannels[nodeId][i])
      ensures Distinct(r) && forall s: ShortChannelId :: s in r <==> s in store.ChannelsOf(nodeId)
    {
      r := [];
      if nodeId !in nodeChannels { return; }
      hide FromNumber, ChanKey, Distinct;
      var scidInts := nodeChannels[nodeId];
      for i := 0 to |scidInts|
        invariant |r| == i && forall j | 0 <= j < i :: r[j] == FromNumber(scidInts[j])
      {
        r := r + [FromNumber(scidInts[i])];
      }
      ListedBack(scidInts, store.ChannelsOf(nodeId), r);
    }

    method FindNodeAnnouncement(nodeId: NodeId) returns (r: Option<NodeAnnouncement>)
      requires Valid()
      ensures r == store.Node(nodeId)
    {
      r := if nodeId in nodeAnn then Some(nodeAnn[nodeId]) else None;
    }

    method FindChannelAnnouncement(scid: Scid) returns (r: Option<ChannelAnnouncement>)
      requires Valid()
      ensures r == store.Ann(scid)
    {
      r := if ChanKey(scid) in channelAnn then Some(channelAnn[ChanKey(scid)]) else None;
    }

    method FindChannelAnnouncementByOutpoint(outpoint: OutPoint) returns (r: Option<ChannelAnnouncement>)
      requires Valid()
      ensures r == store.AnnAt(outpoint)
    {
      hide ChanKey;
      if outpoint !in channelByOutPoint { return None; }
      var scidNum := channelByOutPoint[outpoint];
      r := if scidNum in channelAnn then Some(channelAnn[scidNum]) else None;
    }

    method FindChannelUpdate(scid: Scid, dir: Direction) returns (r: Option<ChannelUpdate>)
      requires Valid()
      ensures r == store.Upd(scid, dir)
    {
      hide ChanKey, ChanUpdKey;
      var key := ChanUpdKey(ChanKey(scid), dir);
      r := if key in channelUpd then Some(channelUpd[key]) else None;
    }

    method DeleteChannelAnnouncement(scid: Scid)
      requires Valid()
      modifies this
      ensures Valid() && store == DropAnn(old(store), scid)
    {
      hide ChanKey, ChanUpdKey, Numbered, Indexed, Unlink, AnnsKeyed, UpdsKeyed, OutPointsKeyed;
      var found := FindChannelAnnouncement(scid);
      if found.None? { return; }
      var msg, chanKey := found.value, ChanKey(scid);
      // delete channel
      DropAnnKeyed(channelAnn, store.anns, scid);
      channelAnn := channelAnn - {chanKey};
      // delete outpoint link
      if msg.extended.Some? {
        OutPointDropped(channelByOutPoint, store.byOutPoint, msg.extended.value.outpoint);
        channelByOutPoint := channelByOutPoint - {msg.extended.value.outpoint};
      }
      // delete channel_updates
      DropUpdKeyed(channelUpd, store.upds, scid, 0);
      channelUpd := channelUpd - {ChanUpdKey(ChanKey(scid), 0)};
      assert channelUpd - {ChanUpdKey(ChanKey(scid), 0)} == channelUpd;
      channelUpd := channelUpd - {ChanUpdKey(ChanKey(scid), 0)};
      // delete node links
      BothIndexed(nodeChannels, store, scid);
      UnlinkKeys(nodeChannels, store.nodeChannels, msg.nodeId1, scid);
      DeleteNodeChannel(msg.nodeId1, chanKey);
      UnlinkKeys(nodeChannels, Unlink(store.nodeChannels, msg.nodeId1, scid), msg.nodeId2, scid);
      DeleteNodeChannel(msg.nodeId2, chanKey);
      StaysIndexed(store, scid);
      store := DropAnn(store, scid);
    }

    method DeleteNodeChannel(nodeId: NodeId, chanKey: nat)
      requires nodeId in nodeChannels
      modifies this`nodeChannels
      ensures nodeChannels == UnlinkNumber(old(nodeChannels), nodeId, chanKey)
    {
      nodeChannels := nodeChannels[nodeId := Without(nodeChannels[nodeId], chanKey)];
    }

    method DeleteChannelUpdate(scid: Scid, dir: Direction)
      requires Valid()
      modifies this
      ensures Valid() && store == DropUpd(old(store), scid, dir)
    {
      hide ChanKey, ChanUpdKey;
      OneKey(scid, dir);
      channelUpd := channelUpd - {ChanUpdKey(ChanKey(scid), dir)};
      store := DropUpd(store, scid, dir);
    }

    method DeleteNodeAnnouncement(nodeId: NodeId)
      requires Valid()
      modifies this
      ensures Valid() && store == DropNode(old(store), nodeId)
    {
      nodeAnn := nodeAnn - {nodeId};
      store := DropNode(store, nodeId);
    }

    method SaveNodeChannel(nodeId: NodeId, chanKey: nat)
      modifies this`nodeChannels
      ensures nodeChannels == LinkNumbers(old(nodeChannels), nodeId, chanKey)
    {
      nodeChannels := nodeChannels[nodeId := if nodeId in nodeChannels then nodeChannels[nodeId] else []];
      nodeChannels := nodeChannels[nodeId := Adjoin(nodeChannels[nodeId], chanKey)];
    }
  }

  ghost predicate AnnsKeyed(numbers: map<nat, ChannelAnnouncement>, anns: map<Scid, ChannelAnnouncement>) {
    && (forall s: Scid :: ChanKey(s) in numbers <==> s in anns)
    && (forall s: Scid | s in anns :: numbers[ChanKey(s)] == anns[s])
  }

  lemma SaveAnnKeyed(numbers: map<nat, ChannelAnnouncement>, anns: map<Scid, ChannelAnnouncement>,
      msg: ChannelAnnouncement)
    requires AnnsKeyed(numbers, anns)
    ensures AnnsKeyed(numbers[ChanKey(msg.scid) := msg], anns[msg.scid := msg])
  {
    hide ChanKey;
    forall s: Scid ensures ChanKey(s) == ChanKey(msg.scid) ==> s == msg.scid {
      ScidRoundTrip(s);
      ScidRoundTrip(msg.scid);
    }
  }

  ghost predicate OutPointsKeyed(numbers: map<OutPoint, nat>, channels: map<OutPoint, Scid>) {
    numbers.Keys == channels.Keys && forall o | o in channels :: numbers[o] == ChanKey(channels[o])
  }

  lemma OutPointKeyed(numbers: map<OutPoint, nat>, channels: map<OutPoint, Scid>, o: OutPoint, s: Scid)
    requires OutPointsKeyed(numbers, channels)
    ensures OutPointsKeyed(numbers[o := ChanKey(s)], channels[o := s])
  {
    hide ChanKey;
  }

  ghost predicate UpdsKeyed(numbers: map<nat, ChannelUpdate>, upds: map<(Scid, Direction), ChannelUpdate>) {
    && (forall s: Scid, d: Direction :: ChanUpdKey(ChanKey(s), d) in numbers <==> (s, d) in upds)
    && (forall s: Scid, d: Direction | (s, d) in upds :: numbers[ChanUpdKey(ChanKey(s), d)] == upds[(s, d)])
  }

  lemma DropAnnKeyed(numbers: map<nat, ChannelAnnouncement>, anns: map<Scid, ChannelAnnouncement>, s: Scid)
    requires AnnsKeyed(numbers, anns)
    ensures AnnsKeyed(numbers - {ChanKey(s)}, anns - {s})
  {
    hide ChanKey;
    KeyOfOne(s);
  }

  lemma OutPointDropped(numbers: map<OutPoint, nat>, channels: map<OutPoint, Scid>, o: OutPoint)
    requires OutPointsKeyed(numbers, channels)
    ensures OutPointsKeyed(numbers - {o}, channels - {o})
  {
    hide ChanKey;
  }

  lemma DropUpdKeyed(numbers: map<nat, ChannelUpdate>, upds: map<(Scid, Direction), ChannelUpdate>,
      s: Scid, d: Direction)
    requires UpdsKeyed(numbers, upds)
    ensures UpdsKeyed(numbers - {ChanUpdKey(ChanKey(s), d)}, upds - {(s, d)})
  {
    hide ChanKey, ChanUpdKey;
    OneKey(s, d);
  }

  lemma KeyOfOne(s: Scid)
    ensures forall t: Scid | ChanKey(t) == ChanKey(s) :: t == s
  {
    forall t: Scid | ChanKey(t) == ChanKey(s) ensures t == s {
      ScidRoundTrip(t);
      ScidRoundTrip(s);
    }
  }

  lemma SavedIndexed(store: Store, m: ChannelAnnouncement)
    requires Indexed(store)
    ensures Indexed(SaveAnn(store, m))
  {}

  lemma BothIndexed(numbers: map<NodeId, seq<nat>>, store: Store, s: Scid)
    requires Numbered(numbers, store.nodeChannels) && Indexed(store) && s in store.anns
    ensures store.anns[s].nodeId1 in numbers && store.anns[s].nodeId2 in numbers
  {}

  lemma StaysIndexed(store: Store, s: Scid)
    requires Indexed(store)
    ensures Indexed(DropAnn(store, s))
  {}

  // ---------------------------------------------------------------- the node index

  ghost predicate Distinct<T(!new)>(xs: seq<T>) {
    forall i, j | 0 <= i < j < |xs| :: xs[i] != xs[j]
  }

  /** `Set.add` on a set that keeps its elements in the order in which they came. */
  function Adjoin(xs: seq<nat>, x: nat): seq<nat> {
    if x in xs then xs else xs + [x]
  }

  /** `Set.delete` */
  function Without(xs: seq<nat>, x: nat): seq<nat> {
    if xs == [] then [] else (if xs[0] == x then [] else [xs[0]]) + Without(xs[1..], x)
  }

  /** The numbers are those of the channels, each once. */
  ghost predicate Lists(xs: seq<nat>, channels: set<Scid>) {
    && Distinct(xs)
    && (forall s: Scid :: s in channels <==> ChanKey(s) in xs)
    && forall x | x in xs :: IsKey(x)
  }

  ghost predicate IsKey(x: nat) {
    exists s: Scid :: ChanKey(s) == x
  }

  function LinkNumbers(nodeChannels: map<NodeId, seq<nat>>, n: NodeId, key: nat): map<NodeId, seq<nat>> {
    nodeChannels[n := Adjoin(if n in nodeChannels then nodeChannels[n] else [], key)]
  }

  function UnlinkNumber(nodeChannels: map<NodeId, seq<nat>>, n: NodeId, key: nat): map<NodeId, seq<nat>> {
    if n in nodeChannels then nodeChannels[n := Without(nodeChannels[n], key)] else nodeChannels
  }

  ghost predicate Numbered(numbers: map<NodeId, seq<nat>>, nodeChannels: map<NodeId, set<Scid>>) {
    numbers.Keys == nodeChannels.Keys && forall n | n in nodeChannels :: Lists(numbers[n], nodeChannels[n])
  }

  lemma AdjoinLists(xs: seq<nat>, channels: set<Scid>, s: Scid)
    requires Lists(xs, channels)
    ensures Lists(Adjoin(xs, ChanKey(s)), channels + {s})
  {
    hide ChanKey;
    KeyOfOne(s);
  }

  lemma {:induction false} WithoutIs(xs: seq<nat>, x: nat)
    requires Distinct(xs)
    ensures Distinct(Without(xs, x)) && forall y :: y in Without(xs, x) <==> y in xs && y != x
  {
    if xs != [] {
      var rest := Without(xs[1..], x);
      assert xs == [xs[0]] + xs[1..];
      assert Distinct(xs[1..]);
      WithoutIs(xs[1..], x);
      assert xs[0] !in xs[1..];
      assert xs[0] !in rest;
      assert Distinct([xs[0]] + rest);
      assert [] + rest == rest;
    }
  }

  lemma WithoutLists(xs: seq<nat>, channels: set<Scid>, s: Scid)
    requires Lists(xs, channels)
    ensures Lists(Without(xs, ChanKey(s)), channels - {s})
  {
    hide ChanKey, Distinct, IsKey;
    KeyOfOne(s);
    WithoutIs(xs, ChanKey(s));
  }

  lemma ListedBack(xs: seq<nat>, channels: set<Scid>, r: seq<ShortChannelId>)
    requires Lists(xs, channels) && |r| == |xs| && forall i | 0 <= i < |r| :: r[i] == FromNumber(xs[i])
    ensures Distinct(r) && forall s: ShortChannelId :: s in r <==> s in channels
  {
    hide FromNumber, ChanKey;
    forall s: Scid ensures FromNumber(ChanKey(s)) == s { ScidRoundTrip(s); }
    forall i | 0 <= i < |r| ensures r[i] in channels && ChanKey(r[i]) == xs[i] {
      assert IsKey(xs[i]);
      var s: Scid :| ChanKey(s) == xs[i];
    }
    forall s: Scid | s in channels ensures s in r {
      var i :| 0 <= i < |xs| && xs[i] == ChanKey(s);
      assert r[i] == s;
    }
  }

  lemma LinkKeys(numbers: map<NodeId, seq<nat>>, nodeChannels: map<NodeId, set<Scid>>, n: NodeId, s: Scid)
    requires Numbered(numbers, nodeChannels)
    ensures Numbered(LinkNumbers(numbers, n, ChanKey(s)), Link(nodeChannels, n, s))
  {
    hide ChanKey, Lists, Adjoin;
    assert Lists([], {}) by { NothingListed(); }
    AdjoinLists(if n in numbers then numbers[n] else [], if n in nodeChannels then nodeChannels[n] else {}, s);
  }

  lemma NothingListed()
    ensures Lists([], {})
  {}

  lemma UnlinkKeys(numbers: map<NodeId, seq<nat>>, nodeChannels: map<NodeId, set<Scid>>, n: NodeId, s: Scid)
    requires Numbered(numbers, nodeChannels)
    ensures Numbered(UnlinkNumber(numbers, n, ChanKey(s)), Unlink(nodeChannels, n, s))
  {
    hide ChanKey, Lists, Without;
    if n in nodeChannels { WithoutLists(numbers[n], nodeChannels[n], s); }
  }

  lemma OneKey(s: Scid, d: Direction)
    ensures forall t: Scid, e: Direction | ChanUpdKey(ChanKey(t), e) == ChanUpdKey(ChanKey(s), d) :: t == s && e == d
  {
    forall t: Scid, e: Direction | ChanUpdKey(ChanKey(t), e) == ChanUpdKey(ChanKey(s), d)
      ensures t == s && e == d
    {
      UpdKeysDiffer(t, e, s, d);
    }
  }
}
