/** packages/chainmon/lib/BlockDiffer.ts: the blocks to disconnect and to connect after a reorg. */
module BlockDiffer {
  import opened Wrappers
  import opened Sequences

  type Hash = string

  datatype Header = Header(hash: Hash, height: nat, previousblockhash: Option<Hash>)

  /** The node's block index. */
  type Index = map<Hash, Header>

  datatype Error = NoSuchBlock

  datatype BlockDiffResult =
    BlockDiffResult(commonAncestor: Header, disconnects: seq<Header>, connects: seq<Header>)

  /** Asking the node for a missing hash, such as a genesis block's parent, fails. */
  function GetHeader(index: Index, hash: Option<Hash>): Result<Header, Error> {
    if hash.Some? && hash.value in index then Ok(index[hash.value]) else Err(NoSuchBlock)
  }

  /** Every block but a root, which has height 0, links to a block one lower. */
  predicate Tree(index: Index) {
    forall h | h in index ::
      index[h].hash == h &&
      match index[h].previousblockhash
      case None => index[h].height == 0
      case Some(p) => p in index && index[p].height + 1 == index[h].height
  }

  predicate Known(index: Index, h: Header) {
    h.hash in index && index[h.hash] == h
  }

  /** The chain from the root up to `h`. */
  function Path(index: Index, h: Header): seq<Header>
    requires Tree(index) && Known(index, h)
    decreases h.height
  {
    match h.previousblockhash
    case None => [h]
    case Some(p) => Path(index, index[p]) + [h]
  }

  function Root(index: Index, h: Header): Header
    requires Tree(index) && Known(index, h)
  {
    PathHeights(index, h);
    Path(index, h)[0]
  }

  lemma {:induction false} PathHeights(index: Index, h: Header)
    requires Tree(index) && Known(index, h)
    ensures |Path(index, h)| == h.height + 1 && Path(index, h)[h.height] == h
    ensures forall i | 0 <= i <= h.height :: Known(index, Path(index, h)[i]) && Path(index, h)[i].height == i
    decreases h.height
  {
    if h.previousblockhash.Some? { PathHeights(index, index[h.previousblockhash.value]); }
  }

  /** The chain of a block on a chain is the lower part of that chain. */
  lemma {:induction false} PathOfMember(index: Index, h: Header, i: nat)
    requires Tree(index) && Known(index, h) && i <= h.height
    ensures |Path(index, h)| == h.height + 1 && Known(index, Path(index, h)[i])
    ensures Path(index, Path(index, h)[i]) == Path(index, h)[..i + 1]
    decreases h.height
  {
    PathHeights(index, h);
    if i < h.height {
      PathOfMember(index, index[h.previousblockhash.value], i);
    } else {
      assert Path(index, h)[..i + 1] == Path(index, h);
    }
  }

  /** `a` is on both chains and every block on both chains is on the chain of `a`. */
  ghost predicate LowestCommonAncestor(index: Index, a: Header, h: Header, g: Header)
    requires Tree(index) && Known(index, a) && Known(index, h) && Known(index, g)
  {
    && a in Path(index, h) && a in Path(index, g)
    && forall x | x in Path(index, h) && x in Path(index, g) :: x in Path(index, a)
  }

  lemma ForkIsLowest(index: Index, a: Header, h: Header, g: Header, d: seq<Header>, c: seq<Header>)
    requires Tree(index) && Known(index, a) && Known(index, h) && Known(index, g)
    requires Path(index, h) == Path(index, a) + d && Path(index, g) == Path(index, a) + c
    requires d != [] && c != [] ==> d[0] != c[0]
    ensures LowestCommonAncestor(index, a, h, g)
  {
    var ph, pg := Path(index, h), Path(index, g);
    var k := a.height + 1;
    PathHeights(index, a);
    PathHeights(index, h);
    PathHeights(index, g);
    assert ph[a.height] == a && pg[a.height] == a;
    forall x | x in ph && x in pg
      ensures x in Path(index, a)
    {
      var i :| 0 <= i < |ph| && ph[i] == x;
      assert pg[i] == x;
      PathOfMember(index, h, i);
      PathOfMember(index, g, i);
      EqualBelow(ph, pg, i, k);
      assert x == Path(index, a)[i];
    }
  }

  lemma EqualBelow<T>(s: seq<T>, t: seq<T>, i: nat, k: nat)
    requires i < |s| && i < |t| && s[..i + 1] == t[..i + 1]
    ensures k <= i ==> s[k] == t[k]
  {
    assert k <= i ==> s[..i + 1][k] == s[k] && t[..i + 1][k] == t[k];
  }

  lemma ParentPath(index: Index, h: Header)
    requires Tree(index) && Known(index, h)
    ensures var r := GetHeader(index, h.previousblockhash);
      if r.Err? then h.height == 0 && Path(index, h) == [h]
      else
        Known(index, r.value) && r.value.height + 1 == h.height &&
        Path(index, h) == Path(index, r.value) + [h]
  {}

  /** One side of the walk: it started at `top`, stands at `h` and has collected `steps`. */
  ghost predicate Climbed(index: Index, top: Header, h: Header, steps: seq<Header>)
    requires Tree(index) && Known(index, top)
  {
    Known(index, h) && Path(index, top) == Path(index, h) + Reverse(steps)
  }

  lemma ClimbStep(index: Index, top: Header, h: Header, steps: seq<Header>, p: Header)
    requires Tree(index) && Known(index, top) && Climbed(index, top, h, steps)
    requires GetHeader(index, h.previousblockhash) == Ok(p)
    ensures Climbed(index, top, p, steps + [h]) && p.height + 1 == h.height
  {
    ParentPath(index, h);
    hide Path, Tree;
    assert Reverse(steps + [h]) == [h] + Reverse(steps);
  }

  lemma ClimbRoot(index: Index, top: Header, h: Header, steps: seq<Header>)
    requires Tree(index) && Known(index, top) && Climbed(index, top, h, steps)
    ensures Root(index, top) == Root(index, h)
    ensures GetHeader(index, h.previousblockhash).Err? ==> h == Root(index, top) && h.height == 0
  {
    ParentPath(index, h);
    PathHeights(index, h);
    PathHeights(index, top);
  }

  lemma HeightZeroIsRoot(index: Index, h: Header)
    requires Tree(index) && Known(index, h)
    ensures h.height == 0 ==> Root(index, h) == h
  {
    PathHeights(index, h);
  }

  /** The last blocks collected on the two sides lie at one height and differ. */
  predicate Forked(disconnects: seq<Header>, connects: seq<Header>) {
    disconnects != [] ==> connects != [] && disconnects[|disconnects| - 1] != connects[|connects| - 1]
  }

  lemma WalkEnds(index: Index, current: Header, prior: Header, a: Header, d: seq<Header>, c: seq<Header>)
    requires Tree(index) && Known(index, current) && Known(index, prior)
    requires Climbed(index, prior, a, d) && Climbed(index, current, a, c) && Forked(d, c)
    ensures LowestCommonAncestor(index, a, prior, current)
    ensures Root(index, current) == Root(index, prior)
  {
    ClimbRoot(index, prior, a, d);
    ClimbRoot(index, current, a, c);
    ForkIsLowest(index, a, prior, current, Reverse(d), Reverse(c));
  }

  class BlockDiffer {
    const index: Index

    constructor (index: Index)
      ensures this.index == index
    {
      this.index := index;
    }

    /** The difference exists exactly when the new tip is not lower than the old one and both
        have one root; otherwise the walk runs past a root and fails. */
    method Diff(current: Header, prior: Header) returns (r: Result<BlockDiffResult, Error>)
      requires Tree(index) && Known(index, current) && Known(index, prior)
      ensures r.Ok? <==> current.height >= prior.height && Root(index, current) == Root(index, prior)
      ensures r.Ok? ==>
        Known(index, r.value.commonAncestor) &&
        LowestCommonAncestor(index, r.value.commonAncestor, prior, current)
      ensures r.Ok? ==>
        Path(index, prior) == Path(index, r.value.commonAncestor) + Reverse(r.value.disconnects) &&
        Path(index, current) == Path(index, r.value.commonAncestor) + r.value.connects
    {
      var currentHeader, priorHeader := current, prior;
      var disconnects: seq<Header>, connects: seq<Header> := [], [];
      assert Path(index, prior) + [] == Path(index, prior) && Path(index, current) + [] == Path(index, current);
      ghost var inOrder := current.height >= prior.height;
      hide Path, Root, LowestCommonAncestor, GetHeader;
      while true
        invariant Climbed(index, prior, priorHeader, disconnects)
        invariant Climbed(index, current, currentHeader, connects)
        invariant inOrder <==> currentHeader.height >= priorHeader.height
        invariant inOrder ==> Forked(disconnects, connects)
        invariant inOrder && disconnects != [] ==> currentHeader.height == priorHeader.height
        decreases currentHeader.height + priorHeader.height
      {
        if currentHeader.hash == priorHeader.hash { break; }
        ClimbRoot(index, prior, priorHeader, disconnects);
        ClimbRoot(index, current, currentHeader, connects);
        if priorHeader.height >= currentHeader.height {
          var parent := GetHeader(index, priorHeader.previousblockhash);
          if parent.Err? {
            HeightZeroIsRoot(index, currentHeader);
            return Err(NoSuchBlock);
          }
          ClimbStep(index, prior, priorHeader, disconnects, parent.value);
          disconnects := disconnects + [priorHeader];
          priorHeader := parent.value;
        }
        if currentHeader.height >= priorHeader.height {
          var parent := GetHeader(index, currentHeader.previousblockhash);
          if parent.Err? {
            return Err(NoSuchBlock);
          }
          ClimbStep(index, current, currentHeader, connects, parent.value);
          connects := connects + [currentHeader];
          currentHeader := parent.value;
        }
      }
      WalkEnds(index, current, prior, currentHeader, disconnects, connects);
      connects := Reverse(connects);
      return Ok(BlockDiffResult(currentHeader, disconnects, connects));
    }
  }
}
