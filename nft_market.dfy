/** The offer book of the NFT market contract
    (contract/AElf.Contracts.NFTMarket/NFTMarketContract_Buyers.cs): offers are
    kept per (NFT symbol, token id, offerer) and merged when the same offer is
    made twice; cancelling filters a list by expiry or by position; making an
    offer against listings picks one listing and splits off what it cannot fill. */
module NftMarket {
  import opened Wrappers
  import opened CheckedMath
  import opened ContractBase

  const SecondsPerDay: int := 86400
  const NoPermission: string := "No permission."

  /** The seconds of a protobuf `Timestamp`, whose range is the years 1 to 9999. */
  const MinTimestamp: int := -62_135_596_800
  const MaxTimestamp: int := 253_402_300_799
  type Timestamp = x: int | MinTimestamp <= x <= MaxTimestamp

  datatype Price = Price(symbol: string, tokenId: Int64, amount: Int64)

  /** Timestamps are whole seconds. */
  datatype Offer = Offer(from: Address, to: Option<Address>, price: Price, expireTime: int, quantity: Int64)

  datatype MakeOfferInput = MakeOfferInput(
    symbol: string, tokenId: Int64, offerTo: Option<Address>, price: Price, quantity: Int64,
    expireTime: Option<int>)

  datatype CancelOfferInput = CancelOfferInput(
    symbol: string, tokenId: Int64, offerFrom: Option<Address>, indexList: Option<seq<Int32>>)

  datatype ListType = NotListed | FixedPrice | EnglishAuction | DutchAuction
  datatype ListDuration = ListDuration(startTime: Timestamp, publicTime: Timestamp, durationHours: Int32)
  datatype ListedNftInfo = ListedNftInfo(
    symbol: string, tokenId: Int64, owner: Address, price: Price, quantity: Int64,
    listType: ListType, duration: ListDuration)

  // ---------------------------------------------------------------- the same offer

  /** The fields on which `PerformMakeOffer` recognises an offer made before:
      price symbol and amount, expiry time, addressee and offerer. */
  datatype OfferIdentity = OfferIdentity(priceSymbol: string, priceAmount: Int64, expireTime: int, to: Option<Address>, from: Address)

  function IdentityOf(o: Offer): OfferIdentity {
    OfferIdentity(o.price.symbol, o.price.amount, o.expireTime, o.to, o.from)
  }

  /** The expiry time of a new offer: the requested one, or `DefaultExpireDays` from now. */
  function ExpireTimeOf(input: MakeOfferInput, now: int, defaultExpireDays: int): int {
    input.expireTime.GetOr(now + defaultExpireDays * SecondsPerDay)
  }

  function RequestedIdentity(sender: Address, input: MakeOfferInput, expireTime: int): OfferIdentity {
    OfferIdentity(input.price.symbol, input.price.amount, expireTime, input.offerTo, sender)
  }

  function NewOffer(sender: Address, input: MakeOfferInput, expireTime: int): (o: Offer)
    ensures IdentityOf(o) == RequestedIdentity(sender, input, expireTime)
    ensures o.quantity == input.quantity && o.price == input.price
  {
    Offer(sender, input.offerTo, input.price, expireTime, input.quantity)
  }

  /** No two offers of a list are the same offer. */
  predicate DistinctOffers(offers: seq<Offer>) {
    forall i, j | 0 <= i < j < |offers| :: IdentityOf(offers[i]) != IdentityOf(offers[j])
  }

  /** Positions of the offers with identity `id`, in increasing order. */
  function MatchPositions(offers: seq<Offer>, id: OfferIdentity): (ps: seq<nat>)
    ensures forall k | 0 <= k < |ps| :: ps[k] < |offers| && IdentityOf(offers[ps[k]]) == id
    ensures forall i | 0 <= i < |offers| && IdentityOf(offers[i]) == id :: i in ps
    ensures forall k, l | 0 <= k < l < |ps| :: ps[k] < ps[l]
    decreases |offers|
  {
    if offers == [] then []
    else
      var n := |offers| - 1;
      var init := MatchPositions(offers[..n], id);
      if IdentityOf(offers[n]) == id then init + [n] else init
  }

  /** The offer list after `PerformMakeOffer`: a quantity bump of the one same
      offer, or a new offer at the end. `SingleOrDefault` throws
      `InvalidOperation` on several same offers; the checked `Add` overflows. */
  function UpsertOffer(offers: seq<Offer>, sender: Address, input: MakeOfferInput, expireTime: int): (r: Result<seq<Offer>, ContractError>)
    ensures r.Err? ==> r.error in {InvalidOperation, Overflow}
    ensures (forall i | 0 <= i < |offers| :: IdentityOf(offers[i]) != RequestedIdentity(sender, input, expireTime)) ==>
      r == Ok(offers + [NewOffer(sender, input, expireTime)])
    ensures forall i | 0 <= i < |offers| && IdentityOf(offers[i]) == RequestedIdentity(sender, input, expireTime) &&
        (forall j | 0 <= j < |offers| && j != i :: IdentityOf(offers[j]) != RequestedIdentity(sender, input, expireTime)) ::
      && (r.Ok? <==> MinInt64 <= offers[i].quantity + input.quantity <= MaxInt64)
      && (r.Ok? ==> r.value == offers[i := offers[i].(quantity := offers[i].quantity + input.quantity)])
    ensures r == Err(InvalidOperation) ==> exists i, j | 0 <= i < j < |offers| ::
      IdentityOf(offers[i]) == RequestedIdentity(sender, input, expireTime) &&
      IdentityOf(offers[j]) == RequestedIdentity(sender, input, expireTime)
    ensures |MatchPositions(offers, RequestedIdentity(sender, input, expireTime))| > 1 ==> r == Err(InvalidOperation)
    ensures DistinctOffers(offers) ==> r != Err(InvalidOperation)
    ensures DistinctOffers(offers) && r.Ok? ==> DistinctOffers(r.value)
  {
    var id := RequestedIdentity(sender, input, expireTime);
    var ps := MatchPositions(offers, id);
    if |ps| == 0 then
      Ok(offers + [NewOffer(sender, input, expireTime)])
    else if |ps| > 1 then
      assert IdentityOf(offers[ps[0]]) == id && IdentityOf(offers[ps[1]]) == id;
      Err(InvalidOperation)
    else
      var i := ps[0];
      match Checked64(offers[i].quantity + input.quantity)
      case None => Err(Overflow)
      case Some(q) => Ok(offers[i := offers[i].(quantity := q)])
  }

  /** The offer address list after `PerformMakeOffer`: the sender is added once. */
  function AddOfferAddress(addresses: seq<Address>, sender: Address): (r: seq<Address>)
    ensures sender in r
    ensures forall a :: a in r <==> a in addresses || a == sender
    ensures |addresses| <= |r| <= |addresses| + 1 && r[..|addresses|] == addresses
    ensures NoDuplicates(addresses) ==> NoDuplicates(r)
  {
    if sender in addresses then addresses else addresses + [sender]
  }

  predicate NoDuplicates<T(==)>(s: seq<T>) {
    forall i, j | 0 <= i < j < |s| :: s[i] != s[j]
  }

  // ---------------------------------------------------------------- cancelling

  /** The offers that have not expired at `now`, in their original order. */
  function Unexpired(offers: seq<Offer>, now: int): seq<Offer>
    decreases |offers|
  {
    if offers == [] then []
    else
      var n := |offers| - 1;
      Unexpired(offers[..n], now) + (if offers[n].expireTime >= now then [offers[n]] else [])
  }

  /** Exactly the unexpired offers are kept, each in its original relative order. */
  lemma {:induction false} UnexpiredKeepsExactly(offers: seq<Offer>, now: int)
    ensures forall o :: o in Unexpired(offers, now) <==> o in offers && o.expireTime >= now
    ensures |Unexpired(offers, now)| <= |offers|
    decreases |offers|
  {
    if offers != [] {
      var n := |offers| - 1;
      UnexpiredKeepsExactly(offers[..n], now);
      assert offers == offers[..n] + [offers[n]];
    }
  }

  lemma {:induction false} UnexpiredAppend(a: seq<Offer>, b: seq<Offer>, now: int)
    ensures Unexpired(a + b, now) == Unexpired(a, now) + Unexpired(b, now)
    decreases |b|
  {
    if b != [] {
      var n := |b| - 1;
      assert (a + b)[..|a + b| - 1] == a + b[..n];
      UnexpiredAppend(a, b[..n], now);
    } else {
      assert a + b == a;
    }
  }

  lemma {:induction false} UnexpiredKeepsDistinct(offers: seq<Offer>, now: int)
    requires DistinctOffers(offers)
    ensures DistinctOffers(Unexpired(offers, now))
    decreases |offers|
  {
    if offers != [] {
      var n := |offers| - 1;
      var init := offers[..n];
      UnexpiredKeepsDistinct(init, now);
      UnexpiredKeepsExactly(init, now);
      var kept := Unexpired(init, now);
      forall k | 0 <= k < |kept|
        ensures IdentityOf(kept[k]) != IdentityOf(offers[n])
      {
        assert kept[k] in init;
        var i :| 0 <= i < n && init[i] == kept[k];
      }
    }
  }

  /** Positions below `n` that are not listed in `indices`, in increasing order. */
  function KeptPositions(n: nat, indices: seq<Int32>): (ps: seq<nat>)
    ensures forall k | 0 <= k < |ps| :: ps[k] < n
    decreases n
  {
    if n == 0 then []
    else KeptPositions(n - 1, indices) + (if (n - 1) in indices then [] else [n - 1])
  }

  /** Every unlisted position is kept, no listed one is, and the order is increasing. */
  lemma {:induction false} KeptPositionsExactly(n: nat, indices: seq<Int32>)
    ensures forall k | 0 <= k < |KeptPositions(n, indices)| :: KeptPositions(n, indices)[k] !in indices
    ensures forall i | 0 <= i < n && i !in indices :: i in KeptPositions(n, indices)
    ensures forall k, l | 0 <= k < l < |KeptPositions(n, indices)| ::
      KeptPositions(n, indices)[k] < KeptPositions(n, indices)[l]
    decreases n
  {
    if n > 0 {
      KeptPositionsExactly(n - 1, indices);
    }
  }

  /** The `foreach` of the admin branch of `CancelOffer`. */
  method KeepUnexpired(offers: seq<Offer>, now: int) returns (kept: seq<Offer>)
    ensures kept == Unexpired(offers, now)
  {
    kept := [];
    for i := 0 to |offers|
      invariant kept == Unexpired(offers[..i], now)
    {
      assert offers[..i + 1][..i] == offers[..i];
      if offers[i].expireTime >= now {
        kept := kept + [offers[i]];
      }
    }
    assert offers[..|offers|] == offers;
  }

  /** The `for` loop of the owner branch of `CancelOffer`: every offer whose
      position is not in `indices`, in order. */
  method DropPositions(offers: seq<Offer>, indices: seq<Int32>) returns (kept: seq<Offer>)
    ensures |kept| == |KeptPositions(|offers|, indices)|
    ensures forall k | 0 <= k < |kept| :: kept[k] == offers[KeptPositions(|offers|, indices)[k]]
  {
    kept := [];
    for i := 0 to |offers|
      invariant |kept| == |KeptPositions(i, indices)|
      invariant forall k | 0 <= k < |kept| :: KeptPositions(i, indices)[k] < i && kept[k] == offers[KeptPositions(i, indices)[k]]
    {
      if i !in indices {
        kept := kept + [offers[i]];
      }
    }
  }

  /** Dropping positions keeps a list of distinct offers distinct. */
  lemma DroppedKeepsDistinct(offers: seq<Offer>, indices: seq<Int32>, kept: seq<Offer>)
    requires DistinctOffers(offers)
    requires |kept| == |KeptPositions(|offers|, indices)|
    requires forall k | 0 <= k < |kept| :: kept[k] == offers[KeptPositions(|offers|, indices)[k]]
    ensures DistinctOffers(kept)
  {
    KeptPositionsExactly(|offers|, indices);
  }

  // ---------------------------------------------------------------- listings

  /** The `Where` filter of `MakeOffer`: a fixed-price listing the offer meets
      in symbol and price, or an auction listing, that has not timed out. */
  predicate IsValidListing(l: ListedNftInfo, input: MakeOfferInput, timedOut: ListedNftInfo -> bool) {
    ((l.price.symbol == input.price.symbol && l.price.amount <= input.price.amount) || l.listType != FixedPrice)
    && !timedOut(l)
  }

  /** Positions of the valid listings, in order. */
  function ValidPositions(listed: seq<ListedNftInfo>, input: MakeOfferInput, timedOut: ListedNftInfo -> bool): (ps: seq<nat>)
    ensures forall k | 0 <= k < |ps| :: ps[k] < |listed| && IsValidListing(listed[ps[k]], input, timedOut)
    ensures forall i | 0 <= i < |listed| && IsValidListing(listed[i], input, timedOut) :: i in ps
    decreases |listed|
  {
    if listed == [] then []
    else
      var n := |listed| - 1;
      var init := ValidPositions(listed[..n], input, timedOut);
      assert forall j | 0 <= j < n :: listed[..n][j] == listed[j];
      init + (if IsValidListing(listed[n], input, timedOut) then [n] else [])
  }

  predicate StrictlyIncreasing(ps: seq<nat>) {
    forall k, l | 0 <= k < l < |ps| :: ps[k] < ps[l]
  }

  /** The valid positions come in increasing order. */
  lemma {:induction false} ValidPositionsOrdered(listed: seq<ListedNftInfo>, input: MakeOfferInput, timedOut: ListedNftInfo -> bool)
    ensures StrictlyIncreasing(ValidPositions(listed, input, timedOut))
    decreases |listed|
  {
    if listed != [] {
      var n := |listed| - 1;
      var init := ValidPositions(listed[..n], input, timedOut);
      ValidPositionsOrdered(listed[..n], input, timedOut);
      assert StrictlyIncreasing(init);
      assert forall j | 0 <= j < n :: listed[..n][j] == listed[j];
      var ps := ValidPositions(listed, input, timedOut);
      assert ps == init + (if IsValidListing(listed[n], input, timedOut) then [n] else []);
      assert forall k | 0 <= k < |init| :: init[k] < n;
      forall k, l | 0 <= k < l < |ps|
        ensures ps[k] < ps[l]
      {
        if l < |init| {
          assert ps[k] == init[k] && ps[l] == init[l];
        } else {
          assert ps[k] == init[k] && ps[l] == n;
        }
      }
    }
  }

  /** The first valid position is that of the first valid listing. */
  lemma {:induction false} ValidPositionsStartAtFirst(listed: seq<ListedNftInfo>, input: MakeOfferInput, timedOut: ListedNftInfo -> bool)
    ensures var ps := ValidPositions(listed, input, timedOut);
      |ps| > 0 ==> forall j | 0 <= j < ps[0] :: !IsValidListing(listed[j], input, timedOut)
    decreases |listed|
  {
    if listed != [] {
      var n := |listed| - 1;
      var init := ValidPositions(listed[..n], input, timedOut);
      ValidPositionsStartAtFirst(listed[..n], input, timedOut);
      assert forall j | 0 <= j < n :: listed[..n][j] == listed[j];
      var ps := ValidPositions(listed, input, timedOut);
      assert ps == init + (if IsValidListing(listed[n], input, timedOut) then [n] else []);
      if init != [] {
        assert ps[0] == init[0];
      } else if |ps| > 0 {
        assert ps[0] == n;
        assert forall j | 0 <= j < n :: !IsValidListing(listed[j], input, timedOut);
      }
    }
  }

  /** Sum of the quantities of the listings at positions `ps`. */
  function QuantitySum(listed: seq<ListedNftInfo>, ps: seq<nat>): int
    requires forall k | 0 <= k < |ps| :: ps[k] < |listed|
    decreases |ps|
  {
    if ps == [] then 0
    else QuantitySum(listed, ps[..|ps| - 1]) + listed[ps[|ps| - 1]].quantity
  }

  /** LINQ `Sum` over `long`: a checked running sum. */
  function CheckedQuantitySum(listed: seq<ListedNftInfo>, ps: seq<nat>): (r: Option<Int64>)
    requires forall k | 0 <= k < |ps| :: ps[k] < |listed|
    ensures r.Some? ==> r.value == QuantitySum(listed, ps)
    decreases |ps|
  {
    if ps == [] then Some(0)
    else match CheckedQuantitySum(listed, ps[..|ps| - 1])
      case None => None
      case Some(s) => Checked64(s + listed[ps[|ps| - 1]].quantity)
  }

  /** The listing `MakeOffer` deals against, and the listing list as it is
      written back (the chosen listing is shared with the list, so its new
      quantity shows there). */
  datatype ListingChoice = ListingChoice(position: nat, listed: seq<ListedNftInfo>)

  /** The listing selection of `MakeOffer`: the first valid listing, whose
      quantity becomes the total of all valid listings when there are several;
      with no valid listing, the first listing. */
  function SelectListing(listed: seq<ListedNftInfo>, input: MakeOfferInput, timedOut: ListedNftInfo -> bool)
    : (r: Result<ListingChoice, ContractError>)
    requires listed != []
    ensures r.Err? ==> r.error == Overflow
    ensures r.Err? <==> |ValidPositions(listed, input, timedOut)| > 1 &&
                        CheckedQuantitySum(listed, ValidPositions(listed, input, timedOut)).None?
    ensures r.Ok? ==> r.value.position < |listed| && |r.value.listed| == |listed|
    ensures (forall i | 0 <= i < |listed| :: !IsValidListing(listed[i], input, timedOut)) ==>
      r == Ok(ListingChoice(0, listed))
    ensures r.Ok? && (exists i | 0 <= i < |listed| :: IsValidListing(listed[i], input, timedOut)) ==>
      var p := r.value.position;
      IsValidListing(listed[p], input, timedOut) &&
      forall j | 0 <= j < p :: !IsValidListing(listed[j], input, timedOut)
    ensures r.Ok? && |ValidPositions(listed, input, timedOut)| > 1 ==>
      var p := r.value.position;
      r.value.listed[p].quantity == QuantitySum(listed, ValidPositions(listed, input, timedOut)) &&
      r.value.listed == listed[p := listed[p].(quantity := r.value.listed[p].quantity)]
    ensures r.Ok? && |ValidPositions(listed, input, timedOut)| <= 1 ==> r.value.listed == listed
  {
    var valid := ValidPositions(listed, input, timedOut);
    ValidPositionsOrdered(listed, input, timedOut);
    ValidPositionsStartAtFirst(listed, input, timedOut);
    if |valid| == 0 then Ok(ListingChoice(0, listed))
    else
      var p := valid[0];
      if |valid| > 1 then
        match CheckedQuantitySum(listed, valid)
        case None => Err(Overflow)
        case Some(total) => Ok(ListingChoice(p, listed[p := listed[p].(quantity := total)]))
      else Ok(ListingChoice(p, listed))
  }

  // ---------------------------------------------------------------- the offer book

  class NftMarketState {
    /** `State.OfferListMap[symbol][tokenId][offerer]`. */
    var offerLists: map<(string, Int64, Address), seq<Offer>>
    /** `State.OfferAddressListMap[symbol][tokenId]`. */
    var offerAddressLists: map<(string, Int64), seq<Address>>
    /** `DefaultExpireDays`. */
    const defaultExpireDays: int

    /** Every offer list holds distinct offers; every address list distinct addresses. */
    ghost predicate Valid()
      reads this
    {
      && (forall k | k in offerLists :: DistinctOffers(offerLists[k]))
      && (forall k | k in offerAddressLists :: NoDuplicates(offerAddressLists[k]))
    }

    constructor (defaultExpireDays: int)
      ensures this.defaultExpireDays == defaultExpireDays
      ensures offerLists == map[] && offerAddressLists == map[]
      ensures Valid()
    {
      this.defaultExpireDays := defaultExpireDays;
      offerLists, offerAddressLists := map[], map[];
    }

    function OffersOf(symbol: string, tokenId: Int64, from: Address): seq<Offer>
      reads this
    {
      if (symbol, tokenId, from) in offerLists then offerLists[(symbol, tokenId, from)] else []
    }

    function AddressesOf(symbol: string, tokenId: Int64): seq<Address>
      reads this
    {
      if (symbol, tokenId) in offerAddressLists then offerAddressLists[(symbol, tokenId)] else []
    }

    /** `PerformMakeOffer`: merge the offer into the sender's list and record the
        sender among the offerers of the NFT. */
    method PerformMakeOffer(input: MakeOfferInput, ctx: Context) returns (r: Result<Unit, ContractError>)
      modifies this
      ensures var expire := ExpireTimeOf(input, ctx.currentBlockTime, defaultExpireDays);
        var upsert := UpsertOffer(old(OffersOf(input.symbol, input.tokenId, ctx.sender)), ctx.sender, input, expire);
        && (upsert.Err? ==> r == Err(upsert.error))
        && (upsert.Ok? ==> r.Ok?)
        && (r.Ok? ==> offerLists == old(offerLists)[(input.symbol, input.tokenId, ctx.sender) := upsert.value])
        && (r.Ok? ==> offerAddressLists == old(offerAddressLists)[(input.symbol, input.tokenId) :=
              AddOfferAddress(old(AddressesOf(input.symbol, input.tokenId)), ctx.sender)])
      ensures r.Err? ==> offerLists == old(offerLists) && offerAddressLists == old(offerAddressLists)
      ensures old(Valid()) ==> Valid() && r != Err(InvalidOperation)
    {
      var key := (input.symbol, input.tokenId, ctx.sender);
      var offers := OffersOf(input.symbol, input.tokenId, ctx.sender);
      var expire := ExpireTimeOf(input, ctx.currentBlockTime, defaultExpireDays);
      var upsert := UpsertOffer(offers, ctx.sender, input, expire);
      if upsert.Err? {
        return Err(upsert.error);
      }
      offerLists := offerLists[key := upsert.value];
      var addresses := AddressesOf(input.symbol, input.tokenId);
      if ctx.sender !in addresses {
        offerAddressLists := offerAddressLists[(input.symbol, input.tokenId) := AddOfferAddress(addresses, ctx.sender)];
      }
      return Ok(Unit);
    }

    /** The offer-list part of `CancelOffer`. An administrator naming another
        offerer keeps only that offerer's unexpired offers. An offerer with a
        pending request (`requester`, when one exists) cancels it and drops the
        whole list; otherwise the offerer removes the offers at the listed
        positions, or keeps the list whole when no position is listed. A missing
        list of the offerer's own is a null dereference. */
    method CancelOffer(input: CancelOfferInput, ctx: Context, senderIsAdmin: bool, requester: Option<Address>)
      returns (r: Result<Unit, ContractError>)
      modifies this
      ensures offerAddressLists == old(offerAddressLists)
      ensures r.Err? ==> offerLists == old(offerLists)
      ensures input.offerFrom.Some? && input.offerFrom.value != ctx.sender ==>
        var key := (input.symbol, input.tokenId, input.offerFrom.value);
        && (r.Ok? <==> senderIsAdmin)
        && (r.Ok? && key in old(offerLists) ==>
              offerLists == old(offerLists)[key := Unexpired(old(offerLists)[key], ctx.currentBlockTime)])
        && (r.Ok? && key !in old(offerLists) ==> offerLists == old(offerLists))
      ensures !(input.offerFrom.Some? && input.offerFrom.value != ctx.sender) && requester.Some? ==>
        var key := (input.symbol, input.tokenId, ctx.sender);
        && (r.Ok? <==> requester.value == ctx.sender)
        && (r.Err? ==> r.error == Assertion(NoPermission))
        && (r.Ok? ==> offerLists == old(offerLists) - {key})
      ensures !(input.offerFrom.Some? && input.offerFrom.value != ctx.sender) && requester.None? ==>
        var key := (input.symbol, input.tokenId, ctx.sender);
        && (r.Ok? <==> key in old(offerLists))
        && (r.Err? ==> r.error == NullReference)
        && (r.Ok? && input.indexList.Some? && input.indexList.value != [] ==>
              var offers := old(offerLists)[key];
              var ps := KeptPositions(|offers|, input.indexList.value);
              key in offerLists && |offerLists[key]| == |ps| &&
              (forall k | 0 <= k < |ps| :: offerLists[key][k] == offers[ps[k]]) &&
              offerLists == old(offerLists)[key := offerLists[key]])
        && (r.Ok? && (input.indexList.None? || input.indexList.value == []) ==> offerLists == old(offerLists))
      ensures old(Valid()) ==> Valid()
    {
      if input.offerFrom.Some? && input.offerFrom.value != ctx.sender {
        if !senderIsAdmin {
          return Err(Rejected("AssertSenderIsAdmin"));
        }
        var key := (input.symbol, input.tokenId, input.offerFrom.value);
        if key in offerLists {
          var kept := KeepUnexpired(offerLists[key], ctx.currentBlockTime);
          if Valid() {
            UnexpiredKeepsDistinct(offerLists[key], ctx.currentBlockTime);
          }
          offerLists := offerLists[key := kept];
        }
        return Ok(Unit);
      }
      var key := (input.symbol, input.tokenId, ctx.sender);
      if requester.Some? {
        if requester.value != ctx.sender {
          return Err(Assertion(NoPermission));
        }
        offerLists := offerLists - {key};
        return Ok(Unit);
      }
      if key !in offerLists {
        return Err(NullReference);
      }
      var offers := offerLists[key];
      var newOffers := offers;
      if input.indexList.Some? && input.indexList.value != [] {
        newOffers := DropPositions(offers, input.indexList.value);
        if Valid() {
          DroppedKeepsDistinct(offers, input.indexList.value, newOffers);
        }
      }
      offerLists := offerLists[key := newOffers];
      return Ok(Unit);
    }

    /** The quantity split of `MakeOffer`: what the chosen listing cannot fill
        becomes an offer of its own, and the deal goes on with at most the
        listed quantity. */
    method SplitOfferAtListing(input: MakeOfferInput, listedQuantity: Int64, ctx: Context) returns (r: Result<MakeOfferInput, ContractError>)
      modifies this
      ensures input.quantity <= listedQuantity ==>
        r == Ok(input) && offerLists == old(offerLists) && offerAddressLists == old(offerAddressLists)
      ensures input.quantity > listedQuantity && input.quantity - listedQuantity > MaxInt64 ==>
        r == Err(Overflow) && offerLists == old(offerLists) && offerAddressLists == old(offerAddressLists)
      ensures input.quantity > listedQuantity && input.quantity - listedQuantity <= MaxInt64 ==>
        var excess := input.(quantity := input.quantity - listedQuantity);
        var upsert := UpsertOffer(old(OffersOf(input.symbol, input.tokenId, ctx.sender)), ctx.sender, excess,
                                  ExpireTimeOf(excess, ctx.currentBlockTime, defaultExpireDays));
        && (r.Ok? <==> upsert.Ok?)
        && (r.Ok? ==> r.value == input.(quantity := listedQuantity))
        && (r.Ok? ==> offerLists == old(offerLists)[(input.symbol, input.tokenId, ctx.sender) := upsert.value])
        && (r.Ok? ==> offerAddressLists == old(offerAddressLists)[(input.symbol, input.tokenId) :=
              AddOfferAddress(old(AddressesOf(input.symbol, input.tokenId)), ctx.sender)])
        && (r.Err? ==> r == Err(upsert.error))
      ensures r.Err? ==> offerLists == old(offerLists) && offerAddressLists == old(offerAddressLists)
      ensures r.Ok? ==> r.value.quantity <= listedQuantity && r.value.quantity <= input.quantity
      ensures old(Valid()) ==> Valid()
    {
      if input.quantity > listedQuantity {
        var excess := Checked64(input.quantity - listedQuantity);
        if excess.None? {
          return Err(Overflow);
        }
        var made := PerformMakeOffer(input.(quantity := excess.value), ctx);
        if made.Err? {
          return Err(made.error);
        }
        return Ok(input.(quantity := listedQuantity));
      }
      return Ok(input);
    }
  }
}
