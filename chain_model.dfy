/** Data model of the kernel's block tree and the specification functions the
    queries of `FullBlockchainService`
    (AElf.Kernel.Core/Blockchain/Application/IBlockchainService.cs) are proved
    against. The stores behind `IChainManager` and `IBlockManager` are maps:
    hash -> header, hash -> chain block link, height -> irreversible index entry. */
module ChainModel {
  import opened Wrappers
  import opened CheckedMath

  /** `Hash.Genesis` is a sentinel: the parent of the genesis block; no block has it as its own hash. */
  datatype Hash = Genesis | BlockId(id: nat)
  type BlockHash = h: Hash | h.BlockId? witness BlockId(0)

  /** `ChainConsts.GenesisBlockHeight`. */
  const GenesisBlockHeight: nat := 1

  /** `hash` stands for `GetHash()`, the content digest of the header. */
  datatype BlockHeader = BlockHeader(hash: BlockHash, previousBlockHash: Hash, height: UInt64)

  /** `id` stands for the transaction's `GetHash()`. */
  datatype Transaction = Transaction(id: Hash, payload: seq<bv8>)

  /** `transactions` is the persisted list of transaction ids; `transactionList`
      is the in-memory list of full transactions that travels with a new block. */
  datatype BlockBody = BlockBody(transactions: seq<Hash>, transactionList: seq<Transaction>)
  datatype Block = Block(header: BlockHeader, body: BlockBody)

  /** What `GetBlockByHashAsync` hands back: a transaction that is not stored
      is appended as `null` (`None`). */
  datatype LoadedBlock = LoadedBlock(header: BlockHeader, transactionIds: seq<Hash>, transactionList: seq<Option<Transaction>>)

  datatype ChainBlockLink = ChainBlockLink(blockHash: Hash, previousBlockHash: Hash, height: UInt64)

  datatype Chain = Chain(
    genesisBlockHash: Hash,
    bestChainHash: Hash, bestChainHeight: UInt64,
    longestChainHash: Hash, longestChainHeight: UInt64,
    lastIrreversibleBlockHash: Hash, lastIrreversibleBlockHeight: UInt64)

  datatype BranchSwitch = BranchSwitch(rollBack: seq<Hash>, rollForward: seq<Hash>)

  /** The exceptions the queries can raise. `NullReference` is a dereference of a
      missing store entry; `Overflow` the checked cast of a height to `int`. */
  datatype KernelError = NullReference | Overflow | FromBlockNotFound | ToBlockNotFound | NotSupported | HashesMismatch

  /** The link built from a header in `AttachBlockToChainAsync`. */
  function LinkOf(header: BlockHeader): (link: ChainBlockLink)
    ensures link.blockHash == header.hash && link.previousBlockHash == header.previousBlockHash
    ensures link.height == header.height
  {
    ChainBlockLink(header.hash, header.previousBlockHash, header.height)
  }

  // ---------------------------------------------------------------- well-formedness

  /** A header stands at a height of at least the genesis height, and its parent
      is the sentinel exactly when it is the genesis block. */
  ghost predicate HeaderShape(h: BlockHeader) {
    h.height >= GenesisBlockHeight && (h.previousBlockHash == Genesis <==> h.height == GenesisBlockHeight)
  }

  /** Every stored header is stored under its own hash, and a stored parent is one lower. */
  ghost predicate HeadersWellFormed(headers: map<Hash, BlockHeader>) {
    forall k | k in headers ::
      && headers[k].hash == k
      && HeaderShape(headers[k])
      && (headers[k].previousBlockHash in headers ==>
            headers[headers[k].previousBlockHash].height + 1 == headers[k].height)
  }

  /** Every link is the link of a stored header. */
  ghost predicate LinksMatchHeaders(links: map<Hash, ChainBlockLink>, headers: map<Hash, BlockHeader>) {
    forall k | k in links :: k in headers && links[k] == LinkOf(headers[k])
  }

  /** What the link walks need: links keyed by their hash, a stored parent one lower. */
  ghost predicate LinksWellFormed(links: map<Hash, ChainBlockLink>) {
    forall k | k in links ::
      && links[k].blockHash == k
      && (links[k].previousBlockHash in links ==>
            links[links[k].previousBlockHash].height + 1 == links[k].height)
  }

  lemma MatchedLinksAreWellFormed(links: map<Hash, ChainBlockLink>, headers: map<Hash, BlockHeader>)
    requires HeadersWellFormed(headers) && LinksMatchHeaders(links, headers)
    ensures LinksWellFormed(links)
  {
  }

  /** A block whose ancestry is stored all the way down to the genesis block. */
  ghost predicate Rooted(headers: map<Hash, BlockHeader>, h: Hash)
    requires HeadersWellFormed(headers)
    decreases if h in headers then headers[h].height else 0
  {
    h in headers &&
    (headers[h].height > GenesisBlockHeight ==>
      headers[h].previousBlockHash in headers && Rooted(headers, headers[h].previousBlockHash))
  }

  /** At most one stored header is a genesis block. */
  ghost predicate SingleGenesis(headers: map<Hash, BlockHeader>) {
    forall a, b | a in headers && b in headers ::
      headers[a].height == GenesisBlockHeight && headers[b].height == GenesisBlockHeight ==> a == b
  }

  /** Height of a stored header; the sentinel (and any unknown hash) counts as 0. */
  ghost function HeightOf(headers: map<Hash, BlockHeader>, h: Hash): int {
    if h in headers then headers[h].height else 0
  }

  // ---------------------------------------------------------------- paths of headers

  /** `s` is a run of stored headers from height `top` downward, each the parent of the one before. */
  ghost predicate Descends(headers: map<Hash, BlockHeader>, s: seq<Hash>, top: int) {
    && (forall i | 0 <= i < |s| :: s[i] in headers && headers[s[i]].height == top - i)
    && (forall i | 0 <= i < |s| - 1 :: headers[s[i]].previousBlockHash == s[i + 1])
  }

  /** `s` is a run of stored headers from height `base + 1` upward, each the child of the one before. */
  ghost predicate Ascends(headers: map<Hash, BlockHeader>, s: seq<Hash>, base: int) {
    && (forall j | 0 <= j < |s| :: s[j] in headers && headers[s[j]].height == base + 1 + j)
    && (forall j | 0 <= j < |s| - 1 :: headers[s[j + 1]].previousBlockHash == s[j])
  }

  function Reversed<T>(s: seq<T>): (r: seq<T>)
    ensures |r| == |s|
  {
    if s == [] then [] else Reversed(s[1..]) + [s[0]]
  }

  lemma {:induction false} ReversedAt<T>(s: seq<T>, k: nat)
    requires k < |s|
    ensures Reversed(s)[k] == s[|s| - 1 - k]
  {
    if k < |s| - 1 {
      ReversedAt(s[1..], k);
    }
  }

  /** Reading a descending run backwards gives an ascending run ending at its first element. */
  lemma DescendsReversed(headers: map<Hash, BlockHeader>, s: seq<Hash>, top: int)
    requires Descends(headers, s, top)
    ensures Ascends(headers, Reversed(s), top - |s|)
    ensures s != [] ==> Reversed(s)[0] == s[|s| - 1] && Reversed(s)[|s| - 1] == s[0]
  {
    var r := Reversed(s);
    forall j | 0 <= j < |s|
      ensures r[j] == s[|s| - 1 - j]
    {
      ReversedAt(s, j);
    }
  }

  // ---------------------------------------------------------------- link walks

  /** The `n`-step backward walk over stored links from `h`: `[h, parent, ..., n-th ancestor]`,
      or `None` when a link on the way is missing. */
  ghost function LinkAncestry(links: map<Hash, ChainBlockLink>, h: Hash, n: nat): (r: Option<seq<Hash>>)
    ensures r.Some? ==> |r.value| == n + 1 && r.value[0] == h
    ensures r.Some? ==> forall i | 0 <= i <= n :: r.value[i] in links
    ensures r.Some? ==> forall i | 0 <= i < n :: links[r.value[i]].previousBlockHash == r.value[i + 1]
    decreases n
  {
    if n == 0 then
      (if h in links then Some([h]) else None)
    else
      match LinkAncestry(links, h, n - 1)
      case None => None
      case Some(w) =>
        var p := links[w[n - 1]].previousBlockHash;
        if p in links then Some(w + [p]) else None
  }

  /** Along a link walk the height drops by one per step. */
  lemma {:induction false} LinkAncestryHeights(links: map<Hash, ChainBlockLink>, h: Hash, n: nat)
    requires LinksWellFormed(links)
    requires LinkAncestry(links, h, n).Some?
    ensures forall i | 0 <= i <= n ::
      links[LinkAncestry(links, h, n).value[i]].height == links[h].height - i
  {
    if n > 0 {
      LinkAncestryHeights(links, h, n - 1);
    }
  }

  /** A walk one step longer extends the shorter walk. */
  lemma {:induction false} LinkAncestryPrefix(links: map<Hash, ChainBlockLink>, h: Hash, n: nat)
    requires LinkAncestry(links, h, n + 1).Some?
    ensures LinkAncestry(links, h, n).Some?
    ensures LinkAncestry(links, h, n + 1).value[..n + 1] == LinkAncestry(links, h, n).value
  {
  }

  /** `a` lies on the stored link path below (or at) `s`. */
  ghost predicate IsLinkAncestor(links: map<Hash, ChainBlockLink>, a: Hash, s: Hash) {
    exists n: nat :: LinkAncestry(links, s, n).Some? && LinkAncestry(links, s, n).value[n] == a
  }

  // ---------------------------------------------------------------- height resolution

  /** `GetBlockHashByHeightAsync` (lines 134-158): at or below the last irreversible
      height the irreversible index answers; above it the walk starts from
      `startBlockHash` (by default the longest chain's tip) and goes down the links. */
  ghost function HashAtHeight(chain: Chain, links: map<Hash, ChainBlockLink>, index: map<UInt64, Hash>,
                              height: UInt64, startBlockHash: Option<Hash>): (r: Result<Option<Hash>, KernelError>)
    ensures r.Err? ==> r.error == NullReference
  {
    if chain.lastIrreversibleBlockHeight >= height then
      (if height in index then Ok(Some(index[height])) else Err(NullReference))
    else
      var start := startBlockHash.GetOr(chain.longestChainHash);
      if start !in links then Err(NullReference)
      else if links[start].height < height then Ok(None)
      else match LinkAncestry(links, start, links[start].height - height)
        case None => Err(NullReference)
        case Some(w) => Ok(Some(w[|w| - 1]))
  }

  /** In the irreversible section the answer is the index entry, whatever the links and the start. */
  lemma IrreversibleHeightUsesIndex(chain: Chain, links: map<Hash, ChainBlockLink>, links': map<Hash, ChainBlockLink>,
                                    index: map<UInt64, Hash>, height: UInt64, s: Option<Hash>, s': Option<Hash>)
    requires height <= chain.lastIrreversibleBlockHeight
    ensures HashAtHeight(chain, links, index, height, s) == HashAtHeight(chain, links', index, height, s')
    ensures height in index ==> HashAtHeight(chain, links, index, height, s) == Ok(Some(index[height]))
  {
  }

  /** Above the irreversible section a resolved hash is a stored ancestor of the
      start at exactly the requested height; `null` means the start is too low. */
  lemma AboveIrreversibleResolvesAncestor(chain: Chain, links: map<Hash, ChainBlockLink>, index: map<UInt64, Hash>,
                                          height: UInt64, startBlockHash: Option<Hash>)
    requires LinksWellFormed(links)
    requires chain.lastIrreversibleBlockHeight < height
    ensures var start := startBlockHash.GetOr(chain.longestChainHash);
      match HashAtHeight(chain, links, index, height, startBlockHash)
      case Ok(None) => start in links && links[start].height < height
      case Ok(Some(x)) => x in links && links[x].height == height && IsLinkAncestor(links, x, start)
      case Err(_) => true
    ensures var start := startBlockHash.GetOr(chain.longestChainHash);
      start in links && links[start].height < height ==> HashAtHeight(chain, links, index, height, startBlockHash) == Ok(None)
    ensures var start := startBlockHash.GetOr(chain.longestChainHash);
      HashAtHeight(chain, links, index, height, startBlockHash).Err? <==>
        start !in links || (links[start].height >= height && LinkAncestry(links, start, links[start].height - height).None?)
  {
    var start := startBlockHash.GetOr(chain.longestChainHash);
    if start in links && links[start].height >= height {
      var n := links[start].height - height;
      if LinkAncestry(links, start, n).Some? {
        LinkAncestryHeights(links, start, n);
      }
    }
  }

  /** Crossing no boundary: every stored ancestor of the start above the
      irreversible height is what resolution returns for its height. */
  lemma ResolvesEveryAncestor(chain: Chain, links: map<Hash, ChainBlockLink>, index: map<UInt64, Hash>,
                              start: Hash, n: nat)
    requires LinksWellFormed(links)
    requires LinkAncestry(links, start, n).Some?
    requires chain.lastIrreversibleBlockHeight < links[start].height - n
    ensures links[start].height - n >= 0
    ensures HashAtHeight(chain, links, index, links[start].height - n, Some(start))
         == Ok(Some(LinkAncestry(links, start, n).value[n]))
  {
    LinkAncestryHeights(links, start, n);
  }

  // ---------------------------------------------------------------- hash ranges

  /** Number of iterations of `for (var i = 0; i < count - 1; i++)` with `int` wrap-around. */
  function ForIterations(count: Int32): (k: nat)
    ensures count >= 1 ==> k == count - 1
    ensures count == 0 ==> k == 0
    ensures count == MinInt32 ==> k == MaxInt32
    ensures MinInt32 < count < 0 ==> k == 0
  {
    var bound := Wrap32(count - 1);
    if bound > 0 then bound else 0
  }

  /** `GetBlockHashes` (lines 268-299): resolve the hash `count` blocks above
      `firstHash`, walk the links back from it, check that the walk ends just
      above `firstHash`, and return the walk in ascending order. */
  ghost function BlockHashes(chain: Chain, headers: map<Hash, BlockHeader>, links: map<Hash, ChainBlockLink>,
                             index: map<UInt64, Hash>, firstHash: Hash, count: Int32,
                             branch: Option<Hash>): Result<Option<seq<Hash>>, KernelError>
  {
    if firstHash !in headers then Ok(None)
    else
      match HashAtHeight(chain, links, index, Wrap64(headers[firstHash].height + count), branch)
      case Err(e) => Err(e)
      case Ok(None) => Err(NotSupported)
      case Ok(Some(last)) =>
        match LinkAncestry(links, last, ForIterations(count))
        case None => Err(NullReference)
        case Some(w) =>
          if links[w[|w| - 1]].previousBlockHash != firstHash then Err(HashesMismatch)
          else Ok(Some(Reversed(w)))
  }

  /** A returned range is `max(count, 1)` stored blocks in ascending height, the
      first a child of `firstHash`, each later one a child of the one before. */
  lemma BlockHashesAscend(chain: Chain, headers: map<Hash, BlockHeader>, links: map<Hash, ChainBlockLink>,
                          index: map<UInt64, Hash>, firstHash: Hash, count: Int32, branch: Option<Hash>)
    requires HeadersWellFormed(headers) && LinksMatchHeaders(links, headers)
    requires BlockHashes(chain, headers, links, index, firstHash, count, branch).Ok?
    requires BlockHashes(chain, headers, links, index, firstHash, count, branch).value.Some?
    ensures var hs := BlockHashes(chain, headers, links, index, firstHash, count, branch).value.value;
      && |hs| == ForIterations(count) + 1
      && (count >= 1 ==> |hs| == count)
      && (forall j | 0 <= j < |hs| :: hs[j] in links && links[hs[j]].height == headers[firstHash].height + 1 + j)
      && links[hs[0]].previousBlockHash == firstHash
      && (forall j | 0 <= j < |hs| - 1 :: links[hs[j + 1]].previousBlockHash == hs[j])
  {
    MatchedLinksAreWellFormed(links, headers);
    var last := HashAtHeight(chain, links, index, Wrap64(headers[firstHash].height + count), branch).value.value;
    var k := ForIterations(count);
    var w := LinkAncestry(links, last, k).value;
    var hs := Reversed(w);
    LinkAncestryHeights(links, last, k);
    forall j | 0 <= j < |hs|
      ensures hs[j] == w[k - j]
    {
      ReversedAt(w, j);
    }
    assert hs[0] == w[k];
  }

  /** With `count == 0` the walk is the resolved block alone; when that block is
      `firstHash` itself its parent cannot be `firstHash`, so the call throws. */
  lemma BlockHashesZeroCountThrows(chain: Chain, headers: map<Hash, BlockHeader>, links: map<Hash, ChainBlockLink>,
                                   index: map<UInt64, Hash>, firstHash: Hash, branch: Option<Hash>)
    requires LinksWellFormed(links)
    requires firstHash in headers
    requires HashAtHeight(chain, links, index, headers[firstHash].height, branch) == Ok(Some(firstHash))
    ensures BlockHashes(chain, headers, links, index, firstHash, 0, branch).Err?
  {
    assert Wrap64(headers[firstHash].height + 0) == headers[firstHash].height;
  }
}
