# AElf kernel queries, NFT token rules and NFT market offers in Dafny

This project models four pieces of the AElf blockchain node and its system contracts and proves properties of them:

- **Block-tree queries of `FullBlockchainService`.** These are:
  - resolving a height to a block hash, across the boundary between the irreversible section (an index from height to hash) and the forkable section (parent links);
  - computing the branch switch between two tips: the blocks to roll back and the blocks to roll forward;
  - enumerating ancestors backwards, and ranges forwards;
  - storing a block and loading it again.

  The chain manager's link store, the block manager's header and body stores, the transaction store and the irreversible index are maps in the class `BlockchainService.FullBlockchainService`.
- **MultiToken NFT rules.** These are:
  - the symbol rules that turn an item `"AAA-5"` into its collection `"AAA-0"` and its collection-wide allowance key `"AAA-*"`;
  - the three-level allowance fallback: the specific symbol, then collection-wide, then global `"*"`;
  - the allowance deduction of `DoTransferFrom`;
  - the checks `CreateNFTInfo` makes before it hands over to `CreateToken`, including the SEED reservation rules.
- **`Int256Value` conversion from a string.** It vets the minus sign and drops `_` digit separators.
- **The NFT market offer book.** This covers:
  - merging an offer into the offerer's list (`PerformMakeOffer`);
  - the list filters of `CancelOffer`;
  - the listing selection and quantity split of `MakeOffer`;
  - the checks and decisions that route an offer on an English or Dutch auction;
  - the Dutch auction's current bidding price.

Modules:

| module | file | role |
|---|---|---|
| `Wrappers` | wrappers.dfy | `Option`, `Result`, `Unit` |
| `CheckedMath` | checked_math.dfy | .NET integer ranges, checked operations as `Option`, truncating division, wrap-around |
| `Strings` | strings.dfy | character counting, `Split`/`Join`, decimal text |
| `Int256` | int256_value.dfy | `Int256Value` from a string |
| `ChainModel` | chain_model.dfy | headers, links, chain, well-formedness, and the specifications of the queries |
| `BlockchainService` | blockchain_service.dfy | the `FullBlockchainService` class, with its loops proved against `ChainModel` |
| `TokenSymbols` | token_symbols.dfy | NFT symbol rules |
| `ContractBase` | contract_base.dfy | addresses, contract context, contract errors |
| `TokenContract` | token_contract.dfy | allowances, `DoTransferFrom`, NFT creation checks |
| `NftMarket` | nft_market.dfy | offers, listings, the `NftMarketState` offer book |
| `NftAuction` | nft_auction.dfy | auction gates and the bidding price |

**Exceptions and nulls.** An exception is an `Err` value:
- `KernelError` in the kernel;
- `ContractError` in the contracts, where a failed `Assert` is `Assertion(message)`.

A `null` result is `None`. A contract call that fails reverts all of its state changes. The contract methods therefore promise unchanged state on `Err`.

**Lookups without a row.** Some members are plain lookups or constants. Their meaning is stated by the members that use them, so they have no row of their own:
- `BlockchainService.FullBlockchainService.GetBlockHeaderByHash` (IBlockchainService.cs:328-331) and `HasBlock` (`HasBlockAsync`, lines 116-119) are read back through `AddBlock`;
- `ChainModel.LinkOf` (the link built from a header, lines 225-230) is covered by `MatchedLinksAreWellFormed`;
- `TokenSymbols.GetGlobalAllowanceSymbol` (`"*"`, TokenContract_NFT_Actions.cs:139-143) is covered by `AllowanceCandidates` and `GetAllowance`.

**Integers.** Integer widths are explicit. `long` arithmetic in `checked` code or through the SDK's `Add`/`Sub`/`Mul`/`Div` returns `Overflow` when it leaves the range. Division truncates toward zero. Timestamps are whole seconds.

## Model

| member | source | states |
|---|---|---|
| `BlockchainService.FullBlockchainService.AddBlock` | AElf.Kernel.Core/Blockchain/Application/IBlockchainService.cs:109-123 | the header and body are stored under the block hash; every transaction of the list is stored in order, the last of equal ids winning; no other entry changes; `GetBlockHeaderByHash` then returns the block's header for its hash and what it returned before for every other hash, so `HasBlock` holds; a header that fits keeps the stores well formed |
| `BlockchainService.FullBlockchainService.CreateChain` | AElf.Kernel.Core/Blockchain/Application/IBlockchainService.cs:96-99 | the stores change as for `AddBlock`; a genesis block added to empty stores leaves them well formed |
| `BlockchainService.FullBlockchainService.GetBlockByHash` | AElf.Kernel.Core/Blockchain/Application/IBlockchainService.cs:309-326 | `None` exactly when the header or the body is missing; otherwise the stored header and ids, with one transaction slot per listed id in body order, each being that id's stored transaction or `None` |
| `BlockchainService.FullBlockchainService.GetBlockHashByHeight` | AElf.Kernel.Core/Blockchain/Application/IBlockchainService.cs:134-158 | the loop computes `HashAtHeight`: the index at or below the irreversible height, otherwise a walk down the links from the start (default: the longest chain's tip) that gives `null` when the start is too low |
| `ChainModel.HashAtHeight` | AElf.Kernel.Core/Blockchain/Application/IBlockchainService.cs:134-158 | the only exception is a dereference of a missing link |
| `ChainModel.IrreversibleHeightUsesIndex` | AElf.Kernel.Core/Blockchain/Application/IBlockchainService.cs:136-140 | at or below the irreversible height the answer is the index entry, independent of the links and the start |
| `ChainModel.AboveIrreversibleResolvesAncestor` | AElf.Kernel.Core/Blockchain/Application/IBlockchainService.cs:142-157 | above the irreversible height a resolved hash is a stored link ancestor of the start at exactly the height asked; `null` exactly when the start link is lower than that height |
| `ChainModel.ResolvesEveryAncestor` | AElf.Kernel.Core/Blockchain/Application/IBlockchainService.cs:142-157 | every link ancestor of the start above the irreversible height is found for its own height |
| `ChainModel.LinkAncestry` | AElf.Kernel.Core/Blockchain/Application/IBlockchainService.cs:285-292 | an `n`-step link walk has `n + 1` stored entries, starting at the given hash, each the parent of the one before |
| `ChainModel.LinkAncestryHeights` | AElf.Kernel.Core/Blockchain/Application/IBlockchainService.cs:285-292 | along a walk over well-formed links the height drops by one per step |
| `ChainModel.LinkAncestryPrefix` | AElf.Kernel.Core/Blockchain/Application/IBlockchainService.cs:288-292 | a longer walk extends the shorter one |
| `BlockchainService.LinkAncestryNoneGrows` | AElf.Kernel.Core/Blockchain/Application/IBlockchainService.cs:288-292 | a walk that hits a missing link stays failed when made longer |
| `ChainModel.ForIterations` | AElf.Kernel.Core/Blockchain/Application/IBlockchainService.cs:254-257 | `for (i = 0; i < count - 1; i++)` with `int` wrap-around runs `count - 1` times for positive counts and never for 0 or any other negative count, except `int.MinValue`, whose `count - 1` wraps to `int.MaxValue` iterations |
| `BlockchainService.FullBlockchainService.GetReversedBlockHashes` | AElf.Kernel.Core/Blockchain/Application/IBlockchainService.cs:240-265 | `[]` for count 0; `null` exactly when the link is unknown or its parent is genesis; otherwise 1 to `count` hashes, the first being the parent of `lastBlockHash` and each later one the parent of the one before, none of them genesis |
| `BlockchainService.FullBlockchainService.CollectLinks` | AElf.Kernel.Core/Blockchain/Application/IBlockchainService.cs:285-292 | the loop computes `LinkAncestry` |
| `BlockchainService.FullBlockchainService.GetBlockHashes` | AElf.Kernel.Core/Blockchain/Application/IBlockchainService.cs:268-299 | the method computes `BlockHashes`: `null` for an unknown first block; `NotSupported` when the target height does not resolve; `HashesMismatch` when the walk does not end at `firstHash` |
| `ChainModel.BlockHashesAscend` | AElf.Kernel.Core/Blockchain/Application/IBlockchainService.cs:268-299 | a returned range holds `count` stored blocks (one for a non-positive count) in ascending height from just above `firstHash`; the first is a child of `firstHash` and each later one a child of the one before |
| `ChainModel.BlockHashesZeroCountThrows` | AElf.Kernel.Core/Blockchain/Application/IBlockchainService.cs:276-295 | with `count == 0` the walk is `firstHash` itself, whose parent is not `firstHash`, so the call throws |
| `BlockchainService.FullBlockchainService.GetBranchSwitch` | AElf.Kernel.Core/Blockchain/Application/IBlockchainService.cs:160-221 | the two not-found exceptions and the `int` overflow of the genesis branch are exact; `RollBack` descends from `fromHash` to just above the common ancestor; `RollForward` ascends from just above it to `toHash`; both follow parent links; they are disjoint and exclude the ancestor; from genesis, `RollBack` is empty and `RollForward` has `toHeight` (= `toHeight - GenesisBlockHeight + 1`) blocks; `fromHash == toHash` gives two empty lists; rooted blocks on a single-genesis tree never fail |
| `BlockchainService.FullBlockchainService.WalkFromGenesis` | AElf.Kernel.Core/Blockchain/Application/IBlockchainService.cs:179-186 | the `(int)` cast overflows exactly above `int.MaxValue`; otherwise the whole chain below `to`, newest first, ending at the genesis block |
| `BlockchainService.FullBlockchainService.LevelOff` | AElf.Kernel.Core/Blockchain/Application/IBlockchainService.cs:189-199 | the higher block is walked down to the other's height, recording the blocks it leaves, in descending height |
| `BlockchainService.FullBlockchainService.MeetBack` | AElf.Kernel.Core/Blockchain/Application/IBlockchainService.cs:201-214 | from equal heights both walks go down in lockstep to the first common block; equal starts record nothing |
| `BlockchainService.FullBlockchainService.WalkToFork` | AElf.Kernel.Core/Blockchain/Application/IBlockchainService.cs:187-215 | levelling and lockstep together reach the common ancestor, with both recorded walks descending and disjoint |
| `BlockchainService.FullBlockchainService.WalkBack` | AElf.Kernel.Core/Blockchain/Application/IBlockchainService.cs:189-193 | `steps` blocks in descending height from `start`, each the parent of the one before, ending above the block reached |
| `BlockchainService.GenesisIsUnique` | AElf.Kernel.Core/Blockchain/Application/IBlockchainService.cs:201-214 | in a single-genesis tree two blocks at the genesis height are the same block, so the lockstep walk always meets |
| `BlockchainService.ForkJoin` | AElf.Kernel.Core/Blockchain/Application/IBlockchainService.cs:189-214 | joining the levelling walks to the lockstep walks gives descending, disjoint walks down to the ancestor |
| `BlockchainService.SwitchDisjoint` | AElf.Kernel.Core/Blockchain/Application/IBlockchainService.cs:189-214 | a block on the rolled-back walk is never on the rolled-forward walk |
| `BlockchainService.StoreAllKeeps` | AElf.Kernel.Core/Blockchain/Application/IBlockchainService.cs:111-114 | storing a transaction list stores every listed id and leaves other ids alone |
| `BlockchainService.StoreAllLastWins` | AElf.Kernel.Core/Blockchain/Application/IBlockchainService.cs:111-114 | of transactions with equal ids the last one listed is stored |
| `ChainModel.DescendsReversed` | AElf.Kernel.Core/Blockchain/Application/IBlockchainService.cs:218-219 | reversing a descending walk gives an ascending one with child links |
| `ChainModel.MatchedLinksAreWellFormed` | AElf.Kernel.Core/Blockchain/Application/IBlockchainService.cs:225-230 | links built from well-formed headers are well formed |
| `Int256.FromString` | src/AElf.Types/Types/Int256Value.cs:8-27 | rejects exactly a string that holds `-` without exactly one `-` in first place, with the message "Invalid big integer string."; otherwise the value is the input with every `_` removed |
| `Int256.CharGuardHoldsForAll` | src/AElf.Types/Types/Int256Value.cs:10-26 | the per-character guard holds for every character, so the final throw is unreachable |
| `Int256.NoMinusNeverThrows` | src/AElf.Types/Types/Int256Value.cs:10-23 | a string without `-` is accepted |
| `Int256.MinusRule` | src/AElf.Types/Types/Int256Value.cs:12-18 | a string with `-` is accepted exactly when it starts with `-` and has no other |
| `Int256.RemoveAllAppend` | src/AElf.Types/Types/Int256Value.cs:19 | removing `_` distributes over concatenation, so the other characters keep their order |
| `Int256.RemoveAllRemoves` | src/AElf.Types/Types/Int256Value.cs:19 | no `_` is left and the length drops by the number of `_` |
| `Int256.RemoveAllKeepsOthers` | src/AElf.Types/Types/Int256Value.cs:19 | every other character keeps its count |
| `Int256.ConversionIsIdempotent` | src/AElf.Types/Types/Int256Value.cs:19-23 | the converted value has no `_` and converts to itself |
| `Int256.AsWrittenGuardAcceptsLetters` | src/AElf.Types/Types/Int256Value.cs:10-26 | the string `"1a2"`, which holds a letter, converts to itself |
| `Int256.IntendedFromString` | src/AElf.Types/Types/Int256Value.cs:8-27 | the conversion with the intended guard accepts exactly the strings of digits, `_` and `-` that the written one accepts, with the same value; an accepted value holds only digits and `-` |
| `Int256.RemoveAllKeepsGuard` | src/AElf.Types/Types/Int256Value.cs:19 | removing `_` from a string of digits, `_` and `-` leaves only digits and `-` |
| `Int256.IntendedGuardRejectsLetters` | src/AElf.Types/Types/Int256Value.cs:10 | the intended conversion rejects `"1a2"` with "Invalid big integer string." |
| `Strings.CountPositiveWhenPresent` | src/AElf.Types/Types/Int256Value.cs:12-14 | `Contains(c)` holds exactly when `Count(x => x == c)` is positive |
| `Strings.Split` | contract/AElf.Contracts.MultiToken/TokenContract_NFT_Actions.cs:136-149 | `Split(sep)` yields at least one piece, and no piece holds the separator |
| `Strings.SplitLength` | contract/AElf.Contracts.MultiToken/TokenContract_NFT_Actions.cs:149-152 | the number of pieces is one more than the number of separators |
| `Strings.JoinSplit` | contract/AElf.Contracts.MultiToken/TokenContract_NFT_Actions.cs:149 | joining the pieces with the separator gives back the string |
| `Strings.SplitJoin` | contract/AElf.Contracts.MultiToken/TokenContract_NFT_Actions.cs:149 | splitting a join of separator-free pieces gives back the pieces |
| `Strings.SplitPair` | contract/AElf.Contracts.MultiToken/TokenContract_NFT_Actions.cs:149-153 | `"a-b"` with separator-free `a` and `b` splits into exactly `[a, b]` |
| `Strings.IndexOf` | contract/AElf.Contracts.MultiToken/TokenContract_NFT_Actions.cs:136 | the position of the first occurrence of a character |
| `Strings.FirstIndexUnique` | contract/AElf.Contracts.MultiToken/TokenContract_NFT_Actions.cs:136 | a position holding the character with none before it is that first position |
| `TokenSymbols.GetNftGlobalAllowanceSymbol` | contract/AElf.Contracts.MultiToken/TokenContract_NFT_Actions.cs:133-137 | the part of the symbol before the first separator, then `"-*"` |
| `TokenSymbols.PrefixIsHead` | contract/AElf.Contracts.MultiToken/TokenContract_NFT_Actions.cs:136 | `Split(sep)[0]` is the part before the first separator |
| `TokenSymbols.GetNftCollectionSymbol` | contract/AElf.Contracts.MultiToken/TokenContract_NFT_Actions.cs:146-154 | no separator gives `null`; more than one separator, or an invalid item-id character, fails the assertion; a collection returned ends in `"-0"` and differs from the input |
| `TokenSymbols.CollectionOfItem` | contract/AElf.Contracts.MultiToken/TokenContract_NFT_Actions.cs:146-154 | for `"X-id"` with a valid id: `"X-0"` gives `null`, any other id gives `"X-0"` |
| `TokenSymbols.ItemSharesCollectionAllowance` | contract/AElf.Contracts.MultiToken/TokenContract_NFT_Actions.cs:133-137 | an item and its collection share the collection-wide allowance key `"X-*"` |
| `TokenContract.SetAllowance` | contract/AElf.Contracts.MultiToken/TokenContract_NFT_Actions.cs:95 | the entry written reads back as the new value, and every other entry is unchanged |
| `TokenContract.AllowanceCandidates` | contract/AElf.Contracts.MultiToken/TokenContract_NFT_Actions.cs:101-114 | the consulted keys start with the symbol and end with `"*"` |
| `TokenContract.FirstCovering` | contract/AElf.Contracts.MultiToken/TokenContract_NFT_Actions.cs:101-116 | picks the first candidate whose allowance covers the amount, or the last candidate |
| `TokenContract.GetAllowance` | contract/AElf.Contracts.MultiToken/TokenContract_NFT_Actions.cs:98-117 | the allowance symbol is the first covering key in the order specific, then collection-wide for NFTs, then `"*"` (the last one when none covers); the value is that key's allowance |
| `TokenContract.SpecificAllowanceFirst` | contract/AElf.Contracts.MultiToken/TokenContract_NFT_Actions.cs:101-103 | a covering specific allowance is always the one used, with the source symbol |
| `TokenContract.TokenSkipsCollectionAllowance` | contract/AElf.Contracts.MultiToken/TokenContract_NFT_Actions.cs:104-108 | a fungible token only ever uses its own or the global allowance |
| `TokenContract.TokenContractState.DoTransferFrom` | contract/AElf.Contracts.MultiToken/TokenContract_NFT_Actions.cs:70-96 | succeeds exactly when the allowance picked covers the amount or the spender is whitelisted; with cover, exactly that allowance entry drops by `amount`; a whitelisted transfer without cover leaves allowances alone; a failure changes nothing |
| `TokenContract.TokenContractState.CheckSymbolSeed` | contract/AElf.Contracts.MultiToken/TokenContract_NFT_Actions.cs:57-67 | passes exactly when there is no earlier SEED, or its expiry time is absent, unparsable or past; a recorded SEED without token info or without external info is a null dereference |
| `TokenContract.TokenContractState.AssertNftCollectionExist` | contract/AElf.Contracts.MultiToken/TokenContract_NFT_Actions.cs:156-163 | `null` exactly for a symbol with no collection; the collection's token info when it is stored; "NFT collection not exist" exactly when it is not |
| `TokenContract.TokenContractState.CheckCollectionRules` | contract/AElf.Contracts.MultiToken/TokenContract_NFT_Actions.cs:18-35 | passes exactly when the issue chain is 0 or the collection's, the create-chain rule holds and the sender and the input owner are the collection's owner; a wrong issue chain fails with its message |
| `TokenContract.TokenContractState.CheckSeedCreation` | contract/AElf.Contracts.MultiToken/TokenContract_NFT_Actions.cs:38-50 | passes exactly when the SEED rules hold, and then yields the symbol the SEED reserves; a SEED that is not a unique token fails with "SEED must be unique." |
| `TokenContract.TokenContractState.CreateNftInfo` | contract/AElf.Contracts.MultiToken/TokenContract_NFT_Actions.cs:15-55 | succeeds exactly when the rules hold, in source order: issue chain 0 or the collection's, the create-chain rule, the sender and the input owner both being the collection's owner (issuer when none), and for SEED the uniqueness, owned-symbol and expiry rules; returns the input with the collection's issue chain; a SEED records the symbol it reserves |
| `NftMarket.MatchPositions` | contract/AElf.Contracts.NFTMarket/NFTMarketContract_Buyers.cs:466-468 | exactly the positions of the offers equal to the new one in price symbol, amount, expiry time, addressee and offerer, in increasing order |
| `NftMarket.UpsertOffer` | contract/AElf.Contracts.NFTMarket/NFTMarketContract_Buyers.cs:464-483 | with no same offer, exactly one new offer is appended, with the requested expiry or the default; with one, only its quantity grows by the input quantity and the length is unchanged, or the checked add overflows; several same offers throw (never for a distinct list); distinct lists stay distinct |
| `NftMarket.AddOfferAddress` | contract/AElf.Contracts.NFTMarket/NFTMarketContract_Buyers.cs:487-493 | the sender is in the list afterwards, nothing else is added, the old list is a prefix, and a duplicate-free list stays duplicate-free |
| `NftMarket.NftMarketState.PerformMakeOffer` | contract/AElf.Contracts.NFTMarket/NFTMarketContract_Buyers.cs:462-493 | the sender's list becomes `UpsertOffer` of it and the address list gains the sender once; a failure changes nothing; the offer-book invariant is kept, so `InvalidOperation` never arises |
| `NftMarket.KeepUnexpired` | contract/AElf.Contracts.NFTMarket/NFTMarketContract_Buyers.cs:200-206 | the loop computes `Unexpired` |
| `NftMarket.UnexpiredKeepsExactly` | contract/AElf.Contracts.NFTMarket/NFTMarketContract_Buyers.cs:200-206 | an offer is kept exactly when it is in the list with `ExpireTime >= now` |
| `NftMarket.UnexpiredAppend` | contract/AElf.Contracts.NFTMarket/NFTMarketContract_Buyers.cs:200-206 | filtering distributes over concatenation, so the original order is kept |
| `NftMarket.UnexpiredKeepsDistinct` | contract/AElf.Contracts.NFTMarket/NFTMarketContract_Buyers.cs:200-208 | filtering keeps a distinct list distinct |
| `NftMarket.KeptPositions` | contract/AElf.Contracts.NFTMarket/NFTMarketContract_Buyers.cs:316-322 | kept positions are below the list length |
| `NftMarket.KeptPositionsExactly` | contract/AElf.Contracts.NFTMarket/NFTMarketContract_Buyers.cs:316-322 | exactly the positions not in the index list are kept, in increasing order |
| `NftMarket.DropPositions` | contract/AElf.Contracts.NFTMarket/NFTMarketContract_Buyers.cs:314-322 | the new list is the offers at the kept positions, in order |
| `NftMarket.DroppedKeepsDistinct` | contract/AElf.Contracts.NFTMarket/NFTMarketContract_Buyers.cs:314-322 | dropping positions keeps a distinct list distinct |
| `NftMarket.NftMarketState.CancelOffer` | contract/AElf.Contracts.NFTMarket/NFTMarketContract_Buyers.cs:183-340 | admin on another offerer: only with the admin check, and that offerer's list becomes its unexpired offers; the owner with a pending request: only as the requester, and the list is removed; otherwise a missing list is a null dereference, an index list drops those positions, and no index list keeps the list whole; the offer-book invariant is kept |
| `NftMarket.ValidPositions` | contract/AElf.Contracts.NFTMarket/NFTMarketContract_Buyers.cs:61-64 | exactly the positions of the valid listings |
| `NftMarket.ValidPositionsOrdered` | contract/AElf.Contracts.NFTMarket/NFTMarketContract_Buyers.cs:61-64 | the valid positions come in increasing order, as `Where` keeps the list order |
| `NftMarket.ValidPositionsStartAtFirst` | contract/AElf.Contracts.NFTMarket/NFTMarketContract_Buyers.cs:61-68 | no listing before the first valid position is valid, so `First()` is the first valid listing |
| `NftMarket.CheckedQuantitySum` | contract/AElf.Contracts.NFTMarket/NFTMarketContract_Buyers.cs:72 | a checked sum that does not overflow is the sum of the quantities |
| `NftMarket.SelectListing` | contract/AElf.Contracts.NFTMarket/NFTMarketContract_Buyers.cs:61-79 | the first valid listing is chosen, or the first listing when none is valid; with several valid listings the chosen one's quantity becomes their total in the written-back list and nothing else changes; otherwise the list is unchanged; the only failure is the overflow of that total |
| `NftMarket.NftMarketState.SplitOfferAtListing` | contract/AElf.Contracts.NFTMarket/NFTMarketContract_Buyers.cs:116-123 | a quantity above the listed one puts the excess into the offer book as `PerformMakeOffer` would, and continues with exactly the listed quantity; otherwise nothing changes |
| `NftAuction.HighestBid` | contract/AElf.Contracts.NFTMarket/NFTMarketContract_Buyers.cs:539-548 | the first of the bids sorted by descending amount is the largest amount |
| `NftAuction.EnglishAuctionGate` | contract/AElf.Contracts.NFTMarket/NFTMarketContract_Buyers.cs:518-553 | a missing auction, a finished auction, a wrong purchase symbol and an NFT price fail in that order, with their messages; otherwise the offer becomes a bid exactly when it reaches the starting price and beats every bid, and an offer otherwise |
| `NftAuction.CalculateCurrentBiddingPrice` | contract/AElf.Contracts.NFTMarket/NFTMarketContract_Buyers.cs:656-667 | the starting price at the start second; otherwise `max(start - (end - start) * durationSeconds / passed, end)`, never below the ending price; a price comes back exactly when the `int` duration in seconds and each checked `long` step (difference, product, quotient, final subtraction) stay in range, and every failure is that overflow |
| `NftAuction.DutchAuctionGate` | contract/AElf.Contracts.NFTMarket/NFTMarketContract_Buyers.cs:622-654 | a missing auction, a finished auction and a wrong purchase symbol fail in that order; an overflowing price fails; otherwise the offer deals exactly when it reaches the current bidding price |
| `NftAuction.AsWrittenPriceNeverFalls` | contract/AElf.Contracts.NFTMarket/NFTMarketContract_Buyers.cs:656-667 | while a falling auction runs, the as-written price is above the starting price |
| `NftAuction.AsWrittenHalfTimePrice` | contract/AElf.Contracts.NFTMarket/NFTMarketContract_Buyers.cs:656-667 | a one-hour auction from 100 to 50 asks 200 after 30 minutes |
| `NftAuction.IntendedBiddingPrice` | contract/AElf.Contracts.NFTMarket/NFTMarketContract_Buyers.cs:656-667 | the corrected price stays between the starting and the ending price, is the starting price up to the start and the ending price from the end of the duration |
| `NftAuction.IntendedPriceWhileRunning` | contract/AElf.Contracts.NFTMarket/NFTMarketContract_Buyers.cs:656-667 | while running, the corrected price is the starting price less the elapsed share of the drop |
| `NftAuction.IntendedPriceFalls` | contract/AElf.Contracts.NFTMarket/NFTMarketContract_Buyers.cs:656-667 | the corrected price of a falling auction never rises over time |
| `CheckedMath.TruncDiv` | contract/AElf.Contracts.NFTMarket/NFTMarketContract_Buyers.cs:666 | C# division: the magnitude is the quotient of the magnitudes; the sign is negative only for operands of opposite signs |
| `CheckedMath.CheckedDiv64` | contract/AElf.Contracts.NFTMarket/NFTMarketContract_Buyers.cs:666 | `long` division throws exactly for a zero divisor and `MinValue / -1`; otherwise it truncates |

## Left out

- Events are not modelled: `LocalEventBus.PublishAsync` and `Context.Fire` have no effect on the modelled state.
- `async`, logging and DI wiring are not modelled.
- Concurrency around the `Chain` object is out of scope; every operation is sequential over its stores.
- The chain manager's own operations are not modelled, because their bodies are not shown. These are `AttachBlockToChainAsync`, `SetBestChainAsync`, `CreateAsync` and LIB promotion. The links and the irreversible index are inputs. `CreateChain` therefore stops after `AddBlock` and returns no `Chain`.
- Some kernel methods require well-formed stores:
  - `BlockchainService.FullBlockchainService.GetBlockHashByHeight`, `CollectLinks` and `GetBlockHashes` require every link to be keyed by its hash, with a stored parent one height lower (`LinksWellFormed`);
  - `GetBranchSwitch` and the branch-switch walks require every header to be stored under its hash, with a stored parent one lower. Each header must also have its shape: its height is at least `GenesisBlockHeight`, and its parent is `Genesis` exactly at that height (`HeaderShape`, part of `HeadersWellFormed`).

  These are store invariants, not caller obligations. On a cyclic store the source's `while (true)` would not terminate.
- `BlockchainService.FullBlockchainService.GetBlockByHash` makes assumptions about code that is not shown:
  - the body persists only its transaction ids, and the loaded `TransactionList` starts empty before the lookups;
  - `_blockManager.GetBlockAsync` returns `null` exactly when the header or the body is missing;
  - a transaction missing from the store becomes a `None` entry in the list. A protobuf repeated field would throw `ArgumentNullException` on `Add(null)` instead.
- `BlockchainService.FullBlockchainService.GetBlockHashes`: the `(ulong) count` in the target height is taken as unchecked, so a negative count wraps. This is the default for code outside a `checked` block.
- Hashes are abstract identities: `Genesis` or a numbered block id. `GetHash()` of a header is its stored `hash` field.
- `Int256.FromString` reads `StartsWith("-")` as an ordinal comparison of the first character. The .NET default is a culture-sensitive comparison that skips ignorable characters, so the source also accepts a string such as a soft hyphen followed by `-5`; the model rejects it.
- Short, int and long to `Int256Value` conversions (src/AElf.Types/Types/Int256Value.cs:29-51) are thin wrappers over .NET `ToString` and are not modelled.
- The following contract code is not shown and is taken as parameters:
  - `IsValidItemIdChar`, `GetSymbolType`, `long.TryParse`, `IsInWhiteList` and `AssertSenderIsAdmin`;
  - `CheckSymbolLength` together with `CheckTokenAndCollectionExists`;
  - `IsListedNftTimedOut`.
- `CreateToken` is not modelled: `CreateNftInfo` returns the input it would receive.
- `ChainModel.GenesisBlockHeight` is assumed to be 1, because the value of `ChainConsts.GenesisBlockHeight` is not shown. The genesis branch of `GetBranchSwitch`, and its count of `toHeight - GenesisBlockHeight + 1` blocks, depend on it.
- The `TokenContractConstants` values are assumed: `"__nft_create_chain_id"`, `"SEED-0"`, `"__seed_owned_symbol"` and `"__seed_exp_time"`. The separator `'-'` and the global identifier `'*'` follow the comments in the source.
- `TokenContract.TokenContractState.DoTransferFrom` does not model the following:
  - balances: `DoTransfer` is recorded as a transfer, not applied;
  - `DealWithExternalInfoDuringTransfer` and `AssertValidInputAddress`;
  - the interpolated text after "[TransferFrom]Insufficient allowance." in the failure message.
- `NftMarket.NftMarketState.CancelOffer` does not model the following:
  - the work that touches other stores or calls other contracts: the request refund and removal, the bid maps, earnest money, and the NFT lookup;
  - the removal at line 280, which has no effect on the final offer list because line 337 writes the list again.

  The pending request is the `requester` parameter.
- `NftMarket.SelectListing` takes the listing list as given. The remaining parts of `MakeOffer` are not modelled:
  - the NFT and protocol lookups and the request path;
  - the white-list prices;
  - the fixed-price deal and the removal of sold listings.
- `NftAuction.EnglishAuctionGate` and `NftAuction.DutchAuctionGate` stop at their decision. Placing the bid (the bid maps, earnest money and the balance and allowance checks) and performing the deal are cross-contract or not modelled. The bids are given as their amounts, from `GetBidList`.
- Timestamps are whole seconds, with no nanoseconds. `AddDays` and `AddHours` are plain additions of seconds. `NftAuction.CalculateCurrentBiddingPrice` treats `DurationHours` as an `int`.
- `NftAuction.IntendedBiddingPrice` computes its intermediate product without a width limit.

## Findings

| source | as written | input that shows it | evidently intended | confidence | as-written member | corrected member |
|---|---|---|---|---|---|---|
| contract/AElf.Contracts.NFTMarket/NFTMarketContract_Buyers.cs:656-667 | the Dutch auction price is `max(start - (end - start) * durationSeconds / passedSeconds, end)`; for a falling auction this adds to the starting price and is largest early on | start 100, end 50, 1 hour, 30 minutes passed: the price is 200 | the price falls linearly from the starting price to the ending price, `start - (start - end) * passedSeconds / durationSeconds` | high, not executed | `NftAuction.AsWrittenHalfTimePrice`, `NftAuction.AsWrittenPriceNeverFalls` | `NftAuction.IntendedBiddingPrice`, `NftAuction.IntendedPriceFalls` |
| src/AElf.Types/Types/Int256Value.cs:10-26 | the character guard joins `'0' <= c` and `c <= '9'` with a logical or, which every character satisfies, so the final `ArgumentException` is unreachable | `"1a2"` converts to `"1a2"` | the guard accepts only decimal digits, `_` and `-`, so `"1a2"` is rejected | high, not executed | `Int256.AsWrittenGuardAcceptsLetters`, `Int256.CharGuardHoldsForAll` | `Int256.IntendedFromString`, `Int256.IntendedGuardRejectsLetters` |

`Int256.FromString` keeps the guard as written; `Int256.IntendedFromString` is the corrected conversion beside it. `NftAuction.DutchAuctionGate` keeps the code as written: it deals against `CalculateCurrentBiddingPrice`. With the price as written, a falling auction that is running sells only at more than its starting price.
