/** `FullBlockchainService` (AElf.Kernel.Core/Blockchain/Application/IBlockchainService.cs)
    over map-valued stores: the block headers and bodies of `IBlockManager`, the
    transactions of `ITransactionManager`, and the chain block links and the
    irreversible height index of `IChainManager`. */
module BlockchainService {
  import opened Wrappers
  import opened CheckedMath
  import opened ChainModel

  /** The transaction store after storing `txs` one after another: a later
      transaction with the same id overwrites an earlier one. */
  ghost function StoreAll(store: map<Hash, Transaction>, txs: seq<Transaction>): map<Hash, Transaction>
    decreases |txs|
  {
    if txs == [] then store
    else StoreAll(store, txs[..|txs| - 1])[txs[|txs| - 1].id := txs[|txs| - 1]]
  }

  /** Every stored transaction is retrievable by its id; other entries are untouched. */
  lemma {:induction false} StoreAllKeeps(store: map<Hash, Transaction>, txs: seq<Transaction>)
    ensures forall t | t in txs :: t.id in StoreAll(store, txs)
    ensures forall k | k in StoreAll(store, txs) :: k in store || exists t | t in txs :: t.id == k
    ensures forall k | k in store && (forall t | t in txs :: t.id != k) ::
      k in StoreAll(store, txs) && StoreAll(store, txs)[k] == store[k]
    decreases |txs|
  {
    if txs != [] {
      var init := txs[..|txs| - 1];
      StoreAllKeeps(store, init);
      assert txs == init + [txs[|txs| - 1]];
      forall k | k in StoreAll(store, txs)
        ensures k in store || exists t | t in txs :: t.id == k
      {
        if k != txs[|txs| - 1].id {
          assert k in StoreAll(store, init);
          if k !in store {
            var t :| t in init && t.id == k;
            assert t in txs;
          }
        }
      }
    }
  }

  /** The transaction stored last under an id is the one retrieved. */
  lemma {:induction false} StoreAllLastWins(store: map<Hash, Transaction>, txs: seq<Transaction>, i: nat)
    requires i < |txs|
    requires forall j | i < j < |txs| :: txs[j].id != txs[i].id
    ensures txs[i].id in StoreAll(store, txs) && StoreAll(store, txs)[txs[i].id] == txs[i]
    decreases |txs|
  {
    if i < |txs| - 1 {
      StoreAllLastWins(store, txs[..|txs| - 1], i);
    }
  }

  class FullBlockchainService {
    var headers: map<Hash, BlockHeader>
    /** Persisted block bodies: the list of transaction ids of each block. */
    var bodies: map<Hash, seq<Hash>>
    var transactions: map<Hash, Transaction>
    var links: map<Hash, ChainBlockLink>
    /** The irreversible section: height -> hash of the block indexed there. */
    var index: map<UInt64, Hash>

    ghost predicate WellFormed()
      reads this
    {
      HeadersWellFormed(headers) && LinksMatchHeaders(links, headers)
    }

    /** A header can be added without breaking well-formedness: it has a sound
        shape, does not replace a different header, is not its own parent, and
        agrees in height with its stored parent and its stored children. */
    ghost predicate HeaderFits(h: BlockHeader)
      reads this
    {
      && HeaderShape(h)
      && h.previousBlockHash != h.hash
      && (h.hash in headers ==> headers[h.hash] == h)
      && (h.previousBlockHash in headers ==> headers[h.previousBlockHash].height + 1 == h.height)
      && (forall k | k in headers && headers[k].previousBlockHash == h.hash :: headers[k].height == h.height + 1)
    }

    constructor ()
      ensures headers == map[] && bodies == map[] && transactions == map[]
      ensures links == map[] && index == map[]
      ensures WellFormed()
    {
      headers, bodies, transactions := map[], map[], map[];
      links, index := map[], map[];
    }

    /** `GetBlockHeaderByHashAsync`: `None` is a `null` header. */
    function GetBlockHeaderByHash(blockId: Hash): (r: Option<BlockHeader>)
      reads this
      ensures r.Some? <==> blockId in headers
      ensures r.Some? ==> r.value == headers[blockId]
    {
      if blockId in headers then Some(headers[blockId]) else None
    }

    /** `HasBlockAsync`: a block is known when its header is stored. */
    predicate HasBlock(blockId: Hash)
      reads this
    {
      GetBlockHeaderByHash(blockId).Some?
    }

    /** `AddBlockAsync`: stores the header under its hash, each transaction of the
        block's transaction list under its id, then the body. */
    method AddBlock(block: Block)
      modifies this
      ensures headers == old(headers)[block.header.hash := block.header]
      ensures bodies == old(bodies)[block.header.hash := block.body.transactions]
      ensures transactions == StoreAll(old(transactions), block.body.transactionList)
      ensures links == old(links) && index == old(index)
      ensures HasBlock(block.header.hash)
      ensures GetBlockHeaderByHash(block.header.hash) == Some(block.header)
      ensures forall h | h != block.header.hash :: GetBlockHeaderByHash(h) == old(GetBlockHeaderByHash(h))
      ensures forall t | t in block.body.transactionList :: t.id in transactions
      ensures forall k | k in old(transactions) && (forall t | t in block.body.transactionList :: t.id != k) ::
        k in transactions && transactions[k] == old(transactions)[k]
      ensures old(WellFormed()) && old(HeaderFits(block.header)) ==> WellFormed()
    {
      ghost var wasWellFormed := WellFormed();
      ghost var fits := HeaderFits(block.header);
      headers := headers[block.header.hash := block.header];
      var txs := block.body.transactionList;
      var i := 0;
      while i < |txs|
        invariant 0 <= i <= |txs|
        invariant transactions == StoreAll(old(transactions), txs[..i])
        invariant headers == old(headers)[block.header.hash := block.header]
        invariant bodies == old(bodies) && links == old(links) && index == old(index)
      {
        assert txs[..i + 1][..i] == txs[..i];
        transactions := transactions[txs[i].id := txs[i]];
        i := i + 1;
      }
      assert txs[..i] == txs;
      bodies := bodies[block.header.hash := block.body.transactions];
      StoreAllKeeps(old(transactions), txs);
      if wasWellFormed && fits {
        AddedHeaderKeepsShape(old(headers), links, block.header);
      }
    }

    /** The store part of `CreateChainAsync`: the genesis block is added like any
        other block. Creating the chain object belongs to the chain manager. */
    method CreateChain(block: Block)
      modifies this
      ensures headers == old(headers)[block.header.hash := block.header]
      ensures bodies == old(bodies)[block.header.hash := block.body.transactions]
      ensures transactions == StoreAll(old(transactions), block.body.transactionList)
      ensures links == old(links) && index == old(index)
      ensures HasBlock(block.header.hash)
      ensures GetBlockHeaderByHash(block.header.hash) == Some(block.header)
      ensures forall h | h != block.header.hash :: GetBlockHeaderByHash(h) == old(GetBlockHeaderByHash(h))
      ensures (old(WellFormed()) && old(headers) == map[] && block.header.previousBlockHash == Genesis &&
               block.header.height == GenesisBlockHeight) ==> WellFormed()
    {
      AddBlock(block);
    }

    /** `GetBlockByHashAsync`: `None` when the block is not stored, otherwise the
        block with each listed transaction looked up in order (`None` for one
        that is not stored). */
    method GetBlockByHash(blockId: Hash) returns (r: Option<LoadedBlock>)
      ensures r.None? <==> blockId !in headers || blockId !in bodies
      ensures r.Some? ==> r.value.header == headers[blockId] && r.value.transactionIds == bodies[blockId]
      ensures r.Some? ==> |r.value.transactionList| == |bodies[blockId]|
      ensures r.Some? ==> forall i | 0 <= i < |bodies[blockId]| ::
        (r.value.transactionList[i].Some? <==> bodies[blockId][i] in transactions) &&
        (r.value.transactionList[i].Some? ==> r.value.transactionList[i].value == transactions[bodies[blockId][i]])
    {
      if blockId !in headers || blockId !in bodies {
        return None;
      }
      var ids := bodies[blockId];
      var list: seq<Option<Transaction>> := [];
      for i := 0 to |ids|
        invariant |list| == i
        invariant forall j | 0 <= j < i ::
          (list[j].Some? <==> ids[j] in transactions) &&
          (list[j].Some? ==> list[j].value == transactions[ids[j]])
      {
        var tx := if ids[i] in transactions then Some(transactions[ids[i]]) else None;
        list := list + [tx];
      }
      r := Some(LoadedBlock(headers[blockId], ids, list));
    }

    /** `GetBlockHashByHeightAsync`, proved to compute `HashAtHeight`. */
    method GetBlockHashByHeight(chain: Chain, height: UInt64, startBlockHash: Option<Hash>)
      returns (r: Result<Option<Hash>, KernelError>)
      requires LinksWellFormed(links)
      ensures r == HashAtHeight(chain, links, index, height, startBlockHash)
    {
      if chain.lastIrreversibleBlockHeight >= height {
        if height in index {
          return Ok(Some(index[height]));
        }
        return Err(NullReference);
      }
      var start := startBlockHash.GetOr(chain.longestChainHash);
      if start !in links {
        return Err(NullReference);
      }
      var link := links[start];
      if link.height < height {
        return Ok(None);
      }
      ghost var path := [start];
      while true
        invariant |path| >= 1 && path[|path| - 1] in links && link == links[path[|path| - 1]]
        invariant LinkAncestry(links, start, |path| - 1) == Some(path)
        invariant link.height >= height
        invariant link.height == links[start].height - (|path| - 1)
        decreases link.height
      {
        if link.height == height {
          return Ok(Some(link.blockHash));
        }
        var p := link.previousBlockHash;
        if p !in links {
          LinkAncestryNoneGrows(links, start, |path|, links[start].height - height);
          return Err(NullReference);
        }
        link := links[p];
        path := path + [p];
      }
    }

    /** `GetReversedBlockHashes`: up to `count` ancestors of `lastBlockHash`, nearest
        first, stopping before the sentinel parent of the genesis block or at a
        missing link. */
    method GetReversedBlockHashes(lastBlockHash: Hash, count: Int32) returns (r: Option<seq<Hash>>)
      ensures count == 0 ==> r == Some([])
      ensures count != 0 ==> (r.None? <==> lastBlockHash !in links || links[lastBlockHash].previousBlockHash == Genesis)
      ensures count != 0 && r.Some? ==>
        var hs := r.value;
        && 1 <= |hs| <= ForIterations(count) + 1
        && (count >= 1 ==> |hs| <= count)
        && hs[0] == links[lastBlockHash].previousBlockHash
        && Genesis !in hs
        && (forall i | 0 <= i < |hs| - 1 :: hs[i] in links && links[hs[i]].previousBlockHash == hs[i + 1])
        && (|hs| <= ForIterations(count) ==>
              hs[|hs| - 1] !in links || links[hs[|hs| - 1]].previousBlockHash == Genesis)
    {
      if count == 0 {
        return Some([]);
      }
      if lastBlockHash !in links || links[lastBlockHash].previousBlockHash == Genesis {
        return None;
      }
      var link := links[lastBlockHash];
      var hashes := [link.previousBlockHash];
      var bound := ForIterations(count);
      var i := 0;
      while i < bound
        invariant 0 <= i <= bound
        invariant |hashes| == i + 1
        invariant hashes[0] == links[lastBlockHash].previousBlockHash
        invariant Genesis !in hashes
        invariant hashes[i] == link.previousBlockHash
        invariant forall j | 0 <= j < |hashes| - 1 :: hashes[j] in links && links[hashes[j]].previousBlockHash == hashes[j + 1]
      {
        var next := link.previousBlockHash;
        if next !in links || links[next].previousBlockHash == Genesis {
          return Some(hashes);
        }
        link := links[next];
        hashes := hashes + [link.previousBlockHash];
        i := i + 1;
      }
      return Some(hashes);
    }

    /** The walk of `GetBlockHashes`: the link of `last`, then `n` more links
        reached through the parent hashes; `None` is a missing link. */
    method CollectLinks(last: Hash, n: nat) returns (r: Option<seq<Hash>>)
      requires LinksWellFormed(links)
      ensures r == LinkAncestry(links, last, n)
    {
      if last !in links {
        LinkAncestryNoneGrows(links, last, 0, n);
        return None;
      }
      var link := links[last];
      var hashes := [link.blockHash];
      var i := 0;
      while i < n
        invariant 0 <= i <= n
        invariant LinkAncestry(links, last, i) == Some(hashes)
        invariant link == links[hashes[i]]
      {
        var p := link.previousBlockHash;
        if p !in links {
          LinkAncestryNoneGrows(links, last, i + 1, n);
          return None;
        }
        link := links[p];
        hashes := hashes + [link.blockHash];
        i := i + 1;
      }
      return Some(hashes);
    }

    /** `GetBlockHashes`, proved to compute `BlockHashes`. */
    method GetBlockHashes(chain: Chain, firstHash: Hash, count: Int32, branch: Option<Hash>)
      returns (r: Result<Option<seq<Hash>>, KernelError>)
      requires LinksWellFormed(links)
      ensures r == BlockHashes(chain, headers, links, index, firstHash, count, branch)
    {
      if firstHash !in headers {
        return Ok(None);
      }
      var first := headers[firstHash];
      var height := Wrap64(first.height + count);
      var found := GetBlockHashByHeight(chain, height, branch);
      assert found == HashAtHeight(chain, links, index, Wrap64(headers[firstHash].height + count), branch);
      if found.Err? {
        return Err(found.error);
      }
      if found.value.None? {
        return Err(NotSupported);
      }
      var walked := CollectLinks(found.value.value, ForIterations(count));
      assert walked == LinkAncestry(links, found.value.value, ForIterations(count));
      if walked.None? {
        return Err(NullReference);
      }
      var hashes := walked.value;
      if links[hashes[|hashes| - 1]].previousBlockHash != firstHash {
        return Err(HashesMismatch);
      }
      return Ok(Some(Reversed(hashes)));
    }

    /** The body of one `for` loop of `GetBranchSwitchAsync`: `steps` times, record
        the current header's hash and move to its parent. `nextHash` is the hash
        the walk has arrived at. */
    method WalkBack(start: BlockHeader, steps: nat) returns (r: Result<seq<Hash>, KernelError>, nextHash: Hash)
      requires HeadersWellFormed(headers) && start.hash in headers && headers[start.hash] == start
      requires steps <= start.height
      ensures r.Err? ==> r.error == NullReference
      ensures r.Ok? ==> |r.value| == steps && Descends(headers, r.value, start.height)
      ensures steps == 0 ==> r == Ok([]) && nextHash == start.hash
      ensures r.Ok? && steps > 0 ==> r.value[0] == start.hash && headers[r.value[steps - 1]].previousBlockHash == nextHash
      ensures r.Ok? && nextHash in headers ==> headers[nextHash].height == start.height - steps
      ensures r.Ok? && steps == start.height ==> nextHash == Genesis
      ensures Rooted(headers, start.hash) ==> r.Ok? && (steps < start.height ==> Rooted(headers, nextHash))
    {
      var cur := Some(start);
      nextHash := start.hash;
      var hs: seq<Hash> := [];
      var i := 0;
      while i < steps
        invariant 0 <= i <= steps
        invariant |hs| == i && Descends(headers, hs, start.height)
        invariant i == 0 ==> nextHash == start.hash
        invariant i > 0 ==> hs[0] == start.hash && headers[hs[i - 1]].previousBlockHash == nextHash
        invariant cur == GetBlockHeaderByHash(nextHash)
        invariant nextHash in headers ==> headers[nextHash].height == start.height - i
        invariant i > 0 && i == start.height ==> nextHash == Genesis
        invariant Rooted(headers, start.hash) && i < start.height ==> Rooted(headers, nextHash)
      {
        if cur.None? {
          return Err(NullReference), nextHash;
        }
        var h := cur.value;
        DescendsSnoc(headers, hs, start.height, h.hash);
        hs := hs + [h.hash];
        nextHash := h.previousBlockHash;
        cur := GetBlockHeaderByHash(nextHash);
        i := i + 1;
      }
      r := Ok(hs);
    }

    /** The `while (true)` loop of `GetBranchSwitchAsync`: walk both branches down
        in lockstep from equal heights until they reach the same block. */
    method MeetBack(from: BlockHeader, to: BlockHeader)
      returns (r: Result<(seq<Hash>, seq<Hash>), KernelError>, ghost ancestor: Hash)
      requires HeadersWellFormed(headers)
      requires from.hash in headers && headers[from.hash] == from
      requires to.hash in headers && headers[to.hash] == to
      requires from.height == to.height
      ensures r.Err? ==> r.error == NullReference
      ensures r.Ok? ==> Met(headers, from, to, r.value.0, r.value.1, ancestor)
      ensures from.hash == to.hash ==> r == Ok(([], []))
      ensures SingleGenesis(headers) && Rooted(headers, from.hash) && Rooted(headers, to.hash) ==> r.Ok?
    {
      var f, t := from, to;
      var rb: seq<Hash>, rn: seq<Hash> := [], [];
      ghost var complete := SingleGenesis(headers) && Rooted(headers, from.hash) && Rooted(headers, to.hash);
      while true
        invariant Lockstep(headers, from, to, rb, rn, f, t)
        invariant complete ==> SingleGenesis(headers) && Rooted(headers, f.hash) && Rooted(headers, t.hash)
        decreases f.height
      {
        if f.hash == t.hash {
          ancestor := f.hash;
          return Ok((rb, rn)), ancestor;
        }
        if complete && f.height == GenesisBlockHeight {
          GenesisIsUnique(headers, f.hash, t.hash);
        }
        var nf := GetBlockHeaderByHash(f.previousBlockHash);
        var nt := GetBlockHeaderByHash(t.previousBlockHash);
        if nf.None? || nt.None? {
          return Err(NullReference), Genesis;
        }
        LockstepStep(headers, from, to, rb, rn, f, t);
        rb := rb + [f.hash];
        rn := rn + [t.hash];
        f, t := nf.value, nt.value;
      }
    }

    /** The `fromGenesis` branch of `GetBranchSwitchAsync`: the whole chain below
        `to`, newest first, counted by a checked `int` copy of its height. */
    method WalkFromGenesis(to: BlockHeader) returns (r: Result<seq<Hash>, KernelError>)
      requires HeadersWellFormed(headers) && to.hash in headers && headers[to.hash] == to
      ensures r == Err(Overflow) <==> to.height > MaxInt32
      ensures r.Err? ==> r.error in {Overflow, NullReference}
      ensures r.Ok? ==>
        var rn := r.value;
        && |rn| == to.height && Descends(headers, rn, to.height)
        && rn[0] == to.hash && headers[rn[|rn| - 1]].previousBlockHash == Genesis
      ensures Rooted(headers, to.hash) && to.height <= MaxInt32 ==> r.Ok?
    {
      if to.height > MaxInt32 {
        return Err(Overflow);
      }
      var w, next := WalkBack(to, to.height);
      if w.Err? {
        return Err(NullReference);
      }
      return Ok(w.value);
    }

    /** The general branch of `GetBranchSwitchAsync`: bring the higher side down to
        the other's height, then walk both down in lockstep until they meet. */
    method WalkToFork(from: BlockHeader, to: BlockHeader)
      returns (r: Result<(seq<Hash>, seq<Hash>), KernelError>, ghost ancestor: Hash)
      requires HeadersWellFormed(headers)
      requires from.hash in headers && headers[from.hash] == from
      requires to.hash in headers && headers[to.hash] == to
      ensures r.Err? ==> r.error == NullReference
      ensures r.Ok? ==> Fork(headers, from, to, r.value.0, r.value.1, ancestor)
      ensures from.hash == to.hash ==> r == Ok(([], []))
      ensures SingleGenesis(headers) && Rooted(headers, from.hash) && Rooted(headers, to.hash) ==> r.Ok?
    {
      var level := LevelOff(from, to);
      if level.Err? {
        return Err(NullReference), Genesis;
      }
      var (w1, w2, nf, nt) := level.value;
      var m, a := MeetBack(nf, nt);
      if m.Err? {
        return Err(NullReference), Genesis;
      }
      ForkJoin(headers, from, to, w1, w2, nf, nt, m.value.0, m.value.1, a);
      ancestor := a;
      r := Ok((w1 + m.value.0, w2 + m.value.1));
    }

    /** The two `for` loops of `GetBranchSwitchAsync`: bring the higher of the two
        blocks down to the height of the other. */
    method LevelOff(from: BlockHeader, to: BlockHeader)
      returns (r: Result<(seq<Hash>, seq<Hash>, BlockHeader, BlockHeader), KernelError>)
      requires HeadersWellFormed(headers)
      requires from.hash in headers && headers[from.hash] == from
      requires to.hash in headers && headers[to.hash] == to
      ensures r.Err? ==> r.error == NullReference
      ensures r.Ok? ==> Leveled(headers, from, to, r.value.0, r.value.1, r.value.2, r.value.3)
      ensures from.hash == to.hash ==> r == Ok(([], [], from, to))
      ensures Rooted(headers, from.hash) && Rooted(headers, to.hash) ==>
        r.Ok? && Rooted(headers, r.value.2.hash) && Rooted(headers, r.value.3.hash)
    {
      var s1: nat := if from.height > to.height then from.height - to.height else 0;
      var w1, n1 := WalkBack(from, s1);
      if w1.Err? {
        return Err(NullReference);
      }
      var nf := GetBlockHeaderByHash(n1);
      if nf.None? {
        return Err(NullReference);
      }
      var s2: nat := if to.height > nf.value.height then to.height - nf.value.height else 0;
      var w2, n2 := WalkBack(to, s2);
      if w2.Err? {
        return Err(NullReference);
      }
      var nt := GetBlockHeaderByHash(n2);
      if nt.None? {
        return Err(NullReference);
      }
      r := Ok((w1.value, w2.value, nf.value, nt.value));
    }

    /** `GetBranchSwitchAsync`: the blocks to undo from `fromHash` (newest first)
        and to apply towards `toHash` (oldest first) to move between two branches.
        The ghost `ancestor` is the block where they meet (the sentinel when
        switching away from the genesis parent). */
    method GetBranchSwitch(fromHash: Hash, toHash: Hash) returns (r: Result<BranchSwitch, KernelError>, ghost ancestor: Hash)
      requires HeadersWellFormed(headers)
      ensures r == Err(FromBlockNotFound) <==> fromHash !in headers && fromHash != Genesis
      ensures r == Err(ToBlockNotFound) <==> (fromHash in headers || fromHash == Genesis) && toHash !in headers
      ensures r == Err(Overflow) <==> fromHash == Genesis && toHash in headers && headers[toHash].height > MaxInt32
      ensures r.Ok? ==>
        var rb, rf := r.value.rollBack, r.value.rollForward;
        && Descends(headers, rb, HeightOf(headers, fromHash))
        && Ascends(headers, rf, HeightOf(headers, ancestor))
        && (rb == [] ==> ancestor == fromHash)
        && (rb != [] ==> rb[0] == fromHash && headers[rb[|rb| - 1]].previousBlockHash == ancestor)
        && (rf == [] ==> ancestor == toHash)
        && (rf != [] ==> rf[|rf| - 1] == toHash && headers[rf[0]].previousBlockHash == ancestor)
        && (forall x | x in rb :: x !in rf)
        && ancestor !in rb && ancestor !in rf
      ensures r.Ok? && fromHash == Genesis ==>
        r.value.rollBack == [] && ancestor == Genesis && |r.value.rollForward| == headers[toHash].height
      ensures fromHash == toHash && fromHash in headers ==> r == Ok(BranchSwitch([], []))
      ensures (SingleGenesis(headers) && Rooted(headers, toHash) &&
               (fromHash == Genesis ==> headers[toHash].height <= MaxInt32) &&
               (fromHash != Genesis ==> Rooted(headers, fromHash))) ==> r.Ok?
    {
      var fromHeader := GetBlockHeaderByHash(fromHash);
      var toHeader := GetBlockHeaderByHash(toHash);
      if fromHeader.None? && fromHash != Genesis {
        return Err(FromBlockNotFound), Genesis;
      }
      if toHeader.None? {
        return Err(ToBlockNotFound), Genesis;
      }
      var rollBack: seq<Hash>, reversedNewBranch: seq<Hash>;
      if fromHeader.None? {
        var w := WalkFromGenesis(toHeader.value);
        if w.Err? {
          return Err(w.error), Genesis;
        }
        rollBack, reversedNewBranch := [], w.value;
        ancestor := Genesis;
      } else {
        var w, a := WalkToFork(fromHeader.value, toHeader.value);
        if w.Err? {
          return Err(NullReference), Genesis;
        }
        rollBack, reversedNewBranch := w.value.0, w.value.1;
        ancestor := a;
      }
      DescendsReversed(headers, reversedNewBranch, toHeader.value.height);
      ReversedMembers(reversedNewBranch);
      r := Ok(BranchSwitch(rollBack, Reversed(reversedNewBranch)));
    }
  }

  /** A missing link at step `k` makes every longer link walk fail. */
  lemma {:induction false} LinkAncestryNoneGrows(links: map<Hash, ChainBlockLink>, h: Hash, k: nat, n: nat)
    requires k <= n
    requires LinkAncestry(links, h, k).None?
    ensures LinkAncestry(links, h, n).None?
    decreases n - k
  {
    if k < n {
      LinkAncestryNoneGrows(links, h, k + 1, n);
    }
  }

  /** Inserting a fitting header keeps the header store well-formed and its links mirrored. */
  lemma AddedHeaderKeepsShape(headers: map<Hash, BlockHeader>, links: map<Hash, ChainBlockLink>, h: BlockHeader)
    requires HeadersWellFormed(headers)
    requires HeaderShape(h) && h.previousBlockHash != h.hash
    requires h.hash in headers ==> headers[h.hash] == h
    requires h.previousBlockHash in headers ==> headers[h.previousBlockHash].height + 1 == h.height
    requires forall k | k in headers && headers[k].previousBlockHash == h.hash :: headers[k].height == h.height + 1
    ensures HeadersWellFormed(headers[h.hash := h])
    ensures LinksMatchHeaders(links, headers) ==> LinksMatchHeaders(links, headers[h.hash := h])
  {
  }

  lemma GenesisIsUnique(headers: map<Hash, BlockHeader>, a: Hash, b: Hash)
    requires SingleGenesis(headers)
    requires a in headers && b in headers
    requires headers[a].height == GenesisBlockHeight && headers[b].height == GenesisBlockHeight
    ensures a == b
  {
  }

  /** The state of the lockstep walk: equal-length runs from the two starting
      blocks, different position by position, leading down to `f` and `t`. */
  ghost predicate Lockstep(headers: map<Hash, BlockHeader>, from: BlockHeader, to: BlockHeader,
                           rb: seq<Hash>, rn: seq<Hash>, f: BlockHeader, t: BlockHeader) {
    && f.hash in headers && headers[f.hash] == f
    && t.hash in headers && headers[t.hash] == t
    && from.height == to.height
    && f.height == t.height == from.height - |rb|
    && |rb| == |rn|
    && Descends(headers, rb, from.height) && Descends(headers, rn, to.height)
    && (rb == [] ==> f == from && t == to)
    && (rb != [] ==> rb[0] == from.hash && headers[rb[|rb| - 1]].previousBlockHash == f.hash)
    && (rn != [] ==> rn[0] == to.hash && headers[rn[|rn| - 1]].previousBlockHash == t.hash)
    && (forall i | 0 <= i < |rb| :: rb[i] != rn[i])
  }

  lemma LockstepStep(headers: map<Hash, BlockHeader>, from: BlockHeader, to: BlockHeader,
                     rb: seq<Hash>, rn: seq<Hash>, f: BlockHeader, t: BlockHeader)
    requires HeadersWellFormed(headers)
    requires Lockstep(headers, from, to, rb, rn, f, t) && f.hash != t.hash
    requires f.previousBlockHash in headers && t.previousBlockHash in headers
    ensures Lockstep(headers, from, to, rb + [f.hash], rn + [t.hash],
                     headers[f.previousBlockHash], headers[t.previousBlockHash])
  {
    DescendsSnoc(headers, rb, from.height, f.hash);
    DescendsSnoc(headers, rn, to.height, t.hash);
  }

  /** The result of the lockstep walk from `from` and `to` (of equal height):
      runs of equal length, different position by position, meeting at `a`. */
  ghost predicate Met(headers: map<Hash, BlockHeader>, from: BlockHeader, to: BlockHeader,
                      rb: seq<Hash>, rn: seq<Hash>, a: Hash) {
    && |rb| == |rn|
    && Descends(headers, rb, from.height) && Descends(headers, rn, to.height)
    && a in headers && headers[a].height == from.height - |rb|
    && (rb == [] ==> a == from.hash && a == to.hash)
    && (rb != [] ==> rb[0] == from.hash && headers[rb[|rb| - 1]].previousBlockHash == a)
    && (rn != [] ==> rn[0] == to.hash && headers[rn[|rn| - 1]].previousBlockHash == a)
    && (forall i | 0 <= i < |rb| :: rb[i] != rn[i])
  }

  /** After the two leveling loops: one side was walked down (the other run is
      empty) to the stored blocks `nf` and `nt` of equal height. */
  ghost predicate Leveled(headers: map<Hash, BlockHeader>, from: BlockHeader, to: BlockHeader,
                          w1: seq<Hash>, w2: seq<Hash>, nf: BlockHeader, nt: BlockHeader) {
    && nf.hash in headers && headers[nf.hash] == nf
    && nt.hash in headers && headers[nt.hash] == nt
    && nf.height == nt.height
    && Descends(headers, w1, from.height) && Descends(headers, w2, to.height)
    && nf.height == from.height - |w1| && nt.height == to.height - |w2|
    && (w1 == [] || w2 == [])
    && (w1 == [] ==> nf == from)
    && (w1 != [] ==> w1[0] == from.hash && headers[w1[|w1| - 1]].previousBlockHash == nf.hash)
    && (w2 == [] ==> nt == to)
    && (w2 != [] ==> w2[0] == to.hash && headers[w2[|w2| - 1]].previousBlockHash == nt.hash)
  }

  /** A fork between `from` and `to`: the runs down from each to their meeting
      block `a`, sharing no block and not containing `a`. */
  ghost predicate Fork(headers: map<Hash, BlockHeader>, from: BlockHeader, to: BlockHeader,
                       rb: seq<Hash>, rn: seq<Hash>, a: Hash) {
    && Descends(headers, rb, from.height) && Descends(headers, rn, to.height)
    && a in headers
    && headers[a].height == from.height - |rb| && headers[a].height == to.height - |rn|
    && (rb == [] ==> a == from.hash)
    && (rb != [] ==> rb[0] == from.hash && headers[rb[|rb| - 1]].previousBlockHash == a)
    && (rn == [] ==> a == to.hash)
    && (rn != [] ==> rn[0] == to.hash && headers[rn[|rn| - 1]].previousBlockHash == a)
    && (forall x | x in rb :: x !in rn)
    && a !in rb && a !in rn
  }

  lemma ForkJoin(headers: map<Hash, BlockHeader>, from: BlockHeader, to: BlockHeader,
                 w1: seq<Hash>, w2: seq<Hash>, nf: BlockHeader, nt: BlockHeader,
                 rb: seq<Hash>, rn: seq<Hash>, a: Hash)
    requires Leveled(headers, from, to, w1, w2, nf, nt)
    requires Met(headers, nf, nt, rb, rn, a)
    ensures Fork(headers, from, to, w1 + rb, w2 + rn, a)
  {
    DescendsConcat(headers, w1, rb, from.height);
    DescendsConcat(headers, w2, rn, to.height);
    SwitchDisjoint(headers, w1, rb, w2, rn, from.height, to.height);
    AncestorBelow(headers, w1 + rb, from.height, a);
    AncestorBelow(headers, w2 + rn, to.height, a);
  }

  lemma DescendsSnoc(headers: map<Hash, BlockHeader>, s: seq<Hash>, top: int, x: Hash)
    requires Descends(headers, s, top)
    requires x in headers && headers[x].height == top - |s|
    requires s != [] ==> headers[s[|s| - 1]].previousBlockHash == x
    ensures Descends(headers, s + [x], top)
  {
  }

  lemma DescendsConcat(headers: map<Hash, BlockHeader>, a: seq<Hash>, b: seq<Hash>, top: int)
    requires Descends(headers, a, top) && Descends(headers, b, top - |a|)
    requires a != [] && b != [] ==> headers[a[|a| - 1]].previousBlockHash == b[0]
    ensures Descends(headers, a + b, top)
  {
  }

  /** The common ancestor lies strictly below every block of a run that leads down to it. */
  lemma AncestorBelow(headers: map<Hash, BlockHeader>, s: seq<Hash>, top: int, a: Hash)
    requires Descends(headers, s, top)
    requires a in headers && headers[a].height == top - |s|
    ensures a !in s
  {
    forall i | 0 <= i < |s|
      ensures s[i] != a
    {
      assert headers[s[i]].height > headers[a].height;
    }
  }

  /** The two branches of a switch share no block: equal heights meet only in
      the lockstep part, where the hashes differ position by position. */
  lemma SwitchDisjoint(headers: map<Hash, BlockHeader>, w1: seq<Hash>, rb: seq<Hash>,
                       w2: seq<Hash>, rn: seq<Hash>, fromTop: int, toTop: int)
    requires Descends(headers, w1 + rb, fromTop) && Descends(headers, w2 + rn, toTop)
    requires fromTop - |w1| == toTop - |w2|
    requires w1 == [] || w2 == []
    requires |rb| == |rn| && forall i | 0 <= i < |rb| :: rb[i] != rn[i]
    ensures forall x | x in w1 + rb :: x !in w2 + rn
  {
    var left, right := w1 + rb, w2 + rn;
    forall i, j | 0 <= i < |left| && 0 <= j < |right|
      ensures left[i] != right[j]
    {
      if fromTop - i == toTop - j && i >= |w1| && j >= |w2| {
        assert i - |w1| == j - |w2|;
        assert left[i] == rb[i - |w1|] && right[j] == rn[j - |w2|];
      } else {
        assert headers[left[i]].height != headers[right[j]].height;
      }
    }
  }

  lemma ReversedMembers<T>(s: seq<T>)
    ensures forall x :: x in Reversed(s) <==> x in s
  {
    forall x
      ensures x in Reversed(s) <==> x in s
    {
      if x in s {
        var i :| 0 <= i < |s| && s[i] == x;
        ReversedAt(s, |s| - 1 - i);
      }
      if x in Reversed(s) {
        var k :| 0 <= k < |s| && Reversed(s)[k] == x;
        ReversedAt(s, k);
      }
    }
  }
}
