/** The NFT creation checks and the allowance rules of the MultiToken contract
    (contract/AElf.Contracts.MultiToken/TokenContract_NFT_Actions.cs). */
module TokenContract {
  import opened Wrappers
  import opened CheckedMath
  import opened Strings
  import opened TokenSymbols
  import opened ContractBase

  datatype SymbolType = Token | Nft | NftCollection

  /** Keys of `TokenContractConstants` used by the NFT checks. */
  const NftCreateChainIdExternalInfoKey: string := "__nft_create_chain_id"
  const SeedCollectionSymbol: string := "SEED-0"
  const SeedOwnedSymbolExternalInfoKey: string := "__seed_owned_symbol"
  const SeedExpireTimeExternalInfoKey: string := "__seed_exp_time"

  const InsufficientAllowance: string := "[TransferFrom]Insufficient allowance."
  const NftCollectionNotExist: string := "NFT collection not exist"
  const OwnedSymbolHasBeenCreated: string := "OwnedSymbol has been created"

  datatype TokenInfo = TokenInfo(
    symbol: string, issuer: Address, owner: Option<Address>, issueChainId: Int32,
    externalInfo: Option<map<string, string>>)

  datatype CreateInput = CreateInput(
    symbol: string, decimals: Int32, totalSupply: Int64, issuer: Address, owner: Option<Address>,
    issueChainId: Int32, externalInfo: Option<map<string, string>>)

  /** Contract code the NFT checks call but that is not part of this model:
      `IsValidItemIdChar`, `GetSymbolType`, `long.TryParse`, and
      `CheckSymbolLength` with `CheckTokenAndCollectionExists` together. */
  datatype Collaborators = Collaborators(
    isValidItemIdChar: char -> bool,
    symbolTypeOf: string -> SymbolType,
    tryParseLong: string -> Option<Int64>,
    ownedSymbolAccepted: string -> bool)

  // ---------------------------------------------------------------- allowances

  /** `State.Allowances[from][spender][symbol]`: owner -> spender -> symbol -> amount. */
  type Allowances = map<Address, map<Address, map<string, Int64>>>

  /** The stored allowance; an unset entry reads as 0. */
  function AllowanceOf(a: Allowances, from: Address, spender: Address, symbol: string): Int64 {
    if from in a && spender in a[from] && symbol in a[from][spender] then a[from][spender][symbol] else 0
  }

  /** `State.Allowances[from][spender][symbol] = value`. */
  function SetAllowance(a: Allowances, from: Address, spender: Address, symbol: string, value: Int64): (r: Allowances)
    ensures AllowanceOf(r, from, spender, symbol) == value
    ensures forall f, s, y | (f, s, y) != (from, spender, symbol) ::
      AllowanceOf(r, f, s, y) == AllowanceOf(a, f, s, y)
  {
    var bySpender: map<Address, map<string, Int64>> := if from in a then a[from] else map[];
    var bySymbol: map<string, Int64> := if spender in bySpender then bySpender[spender] else map[];
    a[from := bySpender[spender := bySymbol[symbol := value]]]
  }

  /** The symbols whose allowances `GetAllowance` consults, in order: the symbol
      itself, for an NFT or collection the collection-wide `"<x>-*"`, then `"*"`. */
  function AllowanceCandidates(sourceSymbol: string, tokenType: SymbolType): (cs: seq<string>)
    ensures |cs| >= 2 && cs[0] == sourceSymbol && cs[|cs| - 1] == GetGlobalAllowanceSymbol()
  {
    if tokenType == Token then [sourceSymbol, GetGlobalAllowanceSymbol()]
    else [sourceSymbol, GetNftGlobalAllowanceSymbol(sourceSymbol), GetGlobalAllowanceSymbol()]
  }

  /** Position of the first candidate whose allowance covers `amount`, or of the last candidate. */
  function FirstCovering(a: Allowances, from: Address, spender: Address, cs: seq<string>, amount: Int64): (k: nat)
    requires |cs| >= 1
    ensures k < |cs|
    ensures forall j | 0 <= j < k :: AllowanceOf(a, from, spender, cs[j]) < amount
    ensures AllowanceOf(a, from, spender, cs[k]) >= amount || k == |cs| - 1
  {
    if |cs| == 1 || AllowanceOf(a, from, spender, cs[0]) >= amount then 0
    else 1 + FirstCovering(a, from, spender, cs[1..], amount)
  }

  datatype AllowanceLookup = AllowanceLookup(allowance: Int64, allowanceSymbol: string)

  /** `GetAllowance` with its `out` symbol. */
  function GetAllowance(a: Allowances, from: Address, spender: Address, sourceSymbol: string,
                        amount: Int64, tokenType: SymbolType): (r: AllowanceLookup)
    ensures var cs := AllowanceCandidates(sourceSymbol, tokenType);
      r.allowanceSymbol == cs[FirstCovering(a, from, spender, cs, amount)]
    ensures r.allowance == AllowanceOf(a, from, spender, r.allowanceSymbol)
  {
    var cs := AllowanceCandidates(sourceSymbol, tokenType);
    var allowance := AllowanceOf(a, from, spender, sourceSymbol);
    if allowance >= amount then
      assert FirstCovering(a, from, spender, cs, amount) == 0;
      AllowanceLookup(allowance, sourceSymbol)
    else if tokenType == Token then
      assert FirstCovering(a, from, spender, cs, amount) == 1 + FirstCovering(a, from, spender, cs[1..], amount);
      AllowanceLookup(AllowanceOf(a, from, spender, GetGlobalAllowanceSymbol()), GetGlobalAllowanceSymbol())
    else
      var nftGlobal := GetNftGlobalAllowanceSymbol(sourceSymbol);
      var nftAllowance := AllowanceOf(a, from, spender, nftGlobal);
      if nftAllowance >= amount then AllowanceLookup(nftAllowance, nftGlobal)
      else AllowanceLookup(AllowanceOf(a, from, spender, GetGlobalAllowanceSymbol()), GetGlobalAllowanceSymbol())
  }

  /** A specific allowance that covers the amount is always the one used,
      whatever the collection-wide and global allowances are. */
  lemma SpecificAllowanceFirst(a: Allowances, from: Address, spender: Address, symbol: string,
                               amount: Int64, tokenType: SymbolType)
    requires AllowanceOf(a, from, spender, symbol) >= amount
    ensures GetAllowance(a, from, spender, symbol, amount, tokenType) ==
      AllowanceLookup(AllowanceOf(a, from, spender, symbol), symbol)
  {
  }

  /** A fungible token never falls back on the collection-wide allowance. */
  lemma TokenSkipsCollectionAllowance(a: Allowances, from: Address, spender: Address, symbol: string, amount: Int64)
    ensures GetAllowance(a, from, spender, symbol, amount, Token).allowanceSymbol in
      {symbol, GetGlobalAllowanceSymbol()}
  {
  }

  /** The transfer itself (`DoTransfer`), recorded rather than carried out on balances. */
  datatype TransferRecord = TransferRecord(from: Address, to: Address, symbol: string, amount: Int64, memo: string)

  // ---------------------------------------------------------------- SEED checks

  /** The `long` an external-info map declares under `key`: `TryGetValue`, then `long.TryParse`
      (this is how both the SEED expiry time and the NFT create chain id are read). */
  function DeclaredLong(info: map<string, string>, key: string, tryParseLong: string -> Option<Int64>): Option<Int64> {
    if key in info then tryParseLong(info[key]) else None
  }

  class TokenContractState {
    var allowances: Allowances
    var transfers: seq<TransferRecord>
    var tokenInfos: map<string, TokenInfo>
    /** `State.SymbolSeedMap`: owned symbol -> symbol of the SEED NFT reserving it. */
    var symbolSeedMap: map<string, string>
    var sideChainCreator: Option<Address>

    constructor (tokenInfos: map<string, TokenInfo>, sideChainCreator: Option<Address>)
      ensures this.tokenInfos == tokenInfos && this.sideChainCreator == sideChainCreator
      ensures allowances == map[] && transfers == [] && symbolSeedMap == map[]
    {
      this.tokenInfos := tokenInfos;
      this.sideChainCreator := sideChainCreator;
      allowances, transfers, symbolSeedMap := map[], [], map[];
    }

    /** `DoTransferFrom`: the spender moves `amount` of `symbol` from `from` to `to`,
        spending the allowance `GetAllowance` picks; a whitelisted spender may
        move tokens without any allowance. */
    method DoTransferFrom(from: Address, to: Address, spender: Address, symbol: string, amount: Int64,
                          memo: string, symbolType: SymbolType, spenderIsWhitelisted: bool)
      returns (r: Result<Unit, ContractError>)
      modifies this
      ensures tokenInfos == old(tokenInfos) && symbolSeedMap == old(symbolSeedMap)
      ensures sideChainCreator == old(sideChainCreator)
      ensures var g := GetAllowance(old(allowances), from, spender, symbol, amount, symbolType);
        && (r.Ok? <==> (g.allowance < amount ==> spenderIsWhitelisted) &&
                       (g.allowance >= amount ==> MinInt64 <= g.allowance - amount <= MaxInt64))
        && (r.Err? ==> allowances == old(allowances) && transfers == old(transfers))
        && (r.Err? && g.allowance < amount ==> r.error == Assertion(InsufficientAllowance))
        && (r.Ok? ==> transfers == old(transfers) + [TransferRecord(from, to, symbol, amount, memo)])
        && (r.Ok? && g.allowance < amount ==> allowances == old(allowances))
        && (r.Ok? && g.allowance >= amount ==>
              allowances == SetAllowance(old(allowances), from, spender, g.allowanceSymbol, g.allowance - amount))
    {
      var g := GetAllowance(allowances, from, spender, symbol, amount, symbolType);
      if g.allowance < amount {
        if spenderIsWhitelisted {
          transfers := transfers + [TransferRecord(from, to, symbol, amount, memo)];
          return Ok(Unit);
        }
        return Err(Assertion(InsufficientAllowance));
      }
      var rest := Checked64(g.allowance - amount);
      if rest.None? {
        return Err(Overflow);
      }
      transfers := transfers + [TransferRecord(from, to, symbol, amount, memo)];
      allowances := SetAllowance(allowances, from, spender, g.allowanceSymbol, rest.value);
      return Ok(Unit);
    }

    /** `CheckSymbolSeed`: a symbol may be reserved by a new SEED unless an
        earlier SEED reserving it declares an expiry time that has not passed.
        A recorded SEED without token info or without external info is a null
        dereference. */
    function CheckSymbolSeed(ownedSymbol: string, now: Int64, tryParseLong: string -> Option<Int64>): (r: Result<Unit, ContractError>)
      reads this
      ensures ownedSymbol !in symbolSeedMap ==> r.Ok?
      ensures ownedSymbol in symbolSeedMap &&
              (symbolSeedMap[ownedSymbol] !in tokenInfos || tokenInfos[symbolSeedMap[ownedSymbol]].externalInfo.None?) ==>
        r == Err(NullReference)
      ensures r.Err? && ownedSymbol in symbolSeedMap && symbolSeedMap[ownedSymbol] in tokenInfos &&
              tokenInfos[symbolSeedMap[ownedSymbol]].externalInfo.Some? ==>
        r.error == Assertion(OwnedSymbolHasBeenCreated)
      ensures ownedSymbol in symbolSeedMap && symbolSeedMap[ownedSymbol] in tokenInfos &&
              tokenInfos[symbolSeedMap[ownedSymbol]].externalInfo.Some? ==>
        var expiry := DeclaredLong(tokenInfos[symbolSeedMap[ownedSymbol]].externalInfo.value,
                                   SeedExpireTimeExternalInfoKey, tryParseLong);
        (r.Ok? <==> expiry.None? || now > expiry.value)
    {
      if ownedSymbol !in symbolSeedMap then Ok(Unit)
      else
        var oldSeed := symbolSeedMap[ownedSymbol];
        if oldSeed !in tokenInfos || tokenInfos[oldSeed].externalInfo.None? then Err(NullReference)
        else match DeclaredLong(tokenInfos[oldSeed].externalInfo.value, SeedExpireTimeExternalInfoKey, tryParseLong)
          case None => Ok(Unit)
          case Some(expiry) =>
            if now > expiry then Ok(Unit) else Err(Assertion(OwnedSymbolHasBeenCreated))
    }

    /** `AssertNftCollectionExist`: the token info of the symbol's collection;
        `None` when the symbol names no item of a collection. */
    function AssertNftCollectionExist(symbol: string, isValidItemIdChar: char -> bool): (r: Result<Option<TokenInfo>, ContractError>)
      reads this
      ensures r.Ok? && r.value.Some? ==>
        var c := GetNftCollectionSymbol(symbol, isValidItemIdChar);
        c.Ok? && c.value.Some? && c.value.value in tokenInfos && r.value.value == tokenInfos[c.value.value]
      ensures r.Ok? && r.value.None? <==> GetNftCollectionSymbol(symbol, isValidItemIdChar) == Ok(None)
      ensures r == Err(Assertion(NftCollectionNotExist)) <==>
        var c := GetNftCollectionSymbol(symbol, isValidItemIdChar);
        c.Ok? && c.value.Some? && c.value.value !in tokenInfos
    {
      match GetNftCollectionSymbol(symbol, isValidItemIdChar)
      case Err(e) => Err(Assertion(e))
      case Ok(None) => Ok(None)
      case Ok(Some(collection)) =>
        if collection in tokenInfos then Ok(Some(tokenInfos[collection]))
        else Err(Assertion(NftCollectionNotExist))
    }

    /** The NFT-creation rules over the collection `info`, in their source order. */
    ghost predicate CreateRulesHold(input: CreateInput, ctx: Context, c: Collaborators, info: TokenInfo)
      reads this
    {
      && IssueChainAgrees(input, info)
      && CreateChainAllowed(info, ctx, c.tryParseLong, sideChainCreator)
      && OwnerAgrees(input, info, ctx)
      && (info.symbol == SeedCollectionSymbol ==> SeedRulesHold(input, ctx, c))
    }

    /** The SEED rules: a unique token that names the symbol it reserves and an
        unexpired expiry time, for a symbol that is no NFT, passes the symbol
        checks, and is not reserved by an unexpired SEED. */
    ghost predicate SeedRulesHold(input: CreateInput, ctx: Context, c: Collaborators)
      reads this
    {
      && input.decimals == 0 && input.totalSupply == 1
      && input.externalInfo.Some?
      && SeedOwnedSymbolExternalInfoKey in input.externalInfo.value
      && var owned := input.externalInfo.value[SeedOwnedSymbolExternalInfoKey];
         var expiry := DeclaredLong(input.externalInfo.value, SeedExpireTimeExternalInfoKey, c.tryParseLong);
         && expiry.Some? && ctx.currentBlockTime <= expiry.value
         && c.symbolTypeOf(owned) != Nft
         && c.ownedSymbolAccepted(owned)
         && CheckSymbolSeed(owned, ctx.currentBlockTime, c.tryParseLong).Ok?
    }

    /** The checks of `CreateNFTInfo` against the collection, in source order:
        the issue chain, the create chain, the owner. */
    function CheckCollectionRules(input: CreateInput, ctx: Context, c: Collaborators, info: TokenInfo): (r: Result<Unit, ContractError>)
      reads this
      ensures r.Ok? <==> IssueChainAgrees(input, info) && CreateChainAllowed(info, ctx, c.tryParseLong, sideChainCreator)
                         && OwnerAgrees(input, info, ctx)
      ensures !IssueChainAgrees(input, info) ==> r == Err(Assertion("NFT issue ChainId must be collection's issue chainId"))
    {
      var issueChainId := if input.issueChainId == 0 then info.issueChainId else input.issueChainId;
      if issueChainId != info.issueChainId then Err(Assertion("NFT issue ChainId must be collection's issue chainId"))
      else
        var createChainId := if info.externalInfo.Some?
          then DeclaredLong(info.externalInfo.value, NftCreateChainIdExternalInfoKey, c.tryParseLong) else None;
        if createChainId.Some? && createChainId.value != ctx.chainId then
          Err(Assertion("NFT create ChainId must be collection's NFT create chainId"))
        else if createChainId.None? && sideChainCreator.Some? then
          Err(Assertion("Failed to create token if side chain creator already set."))
        else
          var owner := info.owner.GetOr(info.issuer);
          if !(ctx.sender == owner && Some(owner) == input.owner) then Err(Assertion("NFT owner must be collection's owner"))
          else Ok(Unit)
    }

    /** The SEED checks of `CreateNFTInfo`, in source order; the result is the
        symbol the SEED reserves. */
    function CheckSeedCreation(input: CreateInput, ctx: Context, c: Collaborators): (r: Result<string, ContractError>)
      reads this
      ensures r.Ok? <==> SeedRulesHold(input, ctx, c)
      ensures r.Ok? ==> r.value == input.externalInfo.value[SeedOwnedSymbolExternalInfoKey]
      ensures r.Err? && !(input.decimals == 0 && input.totalSupply == 1) ==> r.error == Assertion("SEED must be unique.")
    {
      if !(input.decimals == 0 && input.totalSupply == 1) then Err(Assertion("SEED must be unique."))
      else if input.externalInfo.None? then Err(NullReference)
      else
        var external := input.externalInfo.value;
        if SeedOwnedSymbolExternalInfoKey !in external then Err(Assertion("OwnedSymbol does not exist."))
        else
          var owned := external[SeedOwnedSymbolExternalInfoKey];
          var expiry := DeclaredLong(external, SeedExpireTimeExternalInfoKey, c.tryParseLong);
          if !(expiry.Some? && ctx.currentBlockTime <= expiry.value) then Err(Assertion("Invalid ownedSymbol."))
          else if c.symbolTypeOf(owned) == Nft then Err(Assertion("Invalid OwnedSymbol."))
          else if !c.ownedSymbolAccepted(owned) then Err(Rejected("CheckSymbolLength, CheckTokenAndCollectionExists"))
          else
            var seedCheck := CheckSymbolSeed(owned, ctx.currentBlockTime, c.tryParseLong);
            if seedCheck.Err? then Err(seedCheck.error) else Ok(owned)
    }

    /** `CreateNFTInfo` up to the hand-over to `CreateToken`: the input, with its
        issue chain defaulted to the collection's, that `CreateToken` receives.
        Creating a SEED records the symbol it reserves. */
    method CreateNftInfo(input: CreateInput, ctx: Context, c: Collaborators) returns (r: Result<CreateInput, ContractError>)
      modifies this
      ensures allowances == old(allowances) && transfers == old(transfers) && tokenInfos == old(tokenInfos)
      ensures sideChainCreator == old(sideChainCreator)
      ensures r.Err? ==> symbolSeedMap == old(symbolSeedMap)
      ensures var coll := AssertNftCollectionExist(input.symbol, c.isValidItemIdChar);
        && (coll.Err? ==> r == Err(coll.error))
        && (coll == Ok(None) ==> r == Err(NullReference))
        && (coll.Ok? && coll.value.Some? ==>
              var info := coll.value.value;
              && (r.Ok? <==> old(CreateRulesHold(input, ctx, c, info)))
              && (r.Ok? ==> r.value == input.(issueChainId := info.issueChainId))
              && (r.Ok? && info.symbol == SeedCollectionSymbol ==>
                    symbolSeedMap == old(symbolSeedMap)[input.externalInfo.value[SeedOwnedSymbolExternalInfoKey] := input.symbol])
              && (r.Ok? && info.symbol != SeedCollectionSymbol ==> symbolSeedMap == old(symbolSeedMap)))
    {
      var coll := AssertNftCollectionExist(input.symbol, c.isValidItemIdChar);
      if coll.Err? {
        return Err(coll.error);
      }
      if coll.value.None? {
        return Err(NullReference);
      }
      var info := coll.value.value;
      var rules := CheckCollectionRules(input, ctx, c, info);
      if rules.Err? {
        return Err(rules.error);
      }
      if info.symbol == SeedCollectionSymbol {
        var seed := CheckSeedCreation(input, ctx, c);
        if seed.Err? {
          return Err(seed.error);
        }
        var owned := seed.value;
        symbolSeedMap := symbolSeedMap[owned := input.symbol];
      }
      return Ok(input.(issueChainId := info.issueChainId));
    }
  }

  /** The issue chain, defaulted to the collection's when 0, must be the collection's. */
  predicate IssueChainAgrees(input: CreateInput, info: TokenInfo) {
    input.issueChainId == 0 || input.issueChainId == info.issueChainId
  }

  /** A collection that names the chain its NFTs are created on allows only
      that chain; otherwise no side-chain creator may be set. */
  predicate CreateChainAllowed(info: TokenInfo, ctx: Context, tryParseLong: string -> Option<Int64>,
                               sideChainCreator: Option<Address>) {
    var declared := if info.externalInfo.Some?
      then DeclaredLong(info.externalInfo.value, NftCreateChainIdExternalInfoKey, tryParseLong) else None;
    if declared.Some? then declared.value == ctx.chainId else sideChainCreator.None?
  }

  /** The sender and the declared owner are both the collection's owner (its issuer when it has none). */
  predicate OwnerAgrees(input: CreateInput, info: TokenInfo, ctx: Context) {
    var owner := info.owner.GetOr(info.issuer);
    ctx.sender == owner && input.owner == Some(owner)
  }
}
