/** How `MakeOffer` treats a listing that is an auction
    (contract/AElf.Contracts.NFTMarket/NFTMarketContract_Buyers.cs): an English
    auction takes the offer as a bid only when it beats the starting price and
    every earlier bid; a Dutch auction deals when the offer reaches the current
    bidding price. Anything else becomes a plain offer. */
module NftAuction {
  import opened Wrappers
  import opened CheckedMath
  import opened ContractBase
  import opened Strings
  import opened NftMarket

  const SecondsPerHour: int := 3600
  const AuctionAlreadyFinished: string := "Auction already finished."
  const IncorrectSymbol: string := "Incorrect symbol."
  const IncorrectSymbolDutch: string := "Incorrect symbol"
  const NftPurchaseUnsupported: string := "Do not support use NFT to purchase auction."

  datatype EnglishAuctionInfo = EnglishAuctionInfo(
    symbol: string, tokenId: Int64, startingPrice: Int64, purchaseSymbol: string,
    duration: ListDuration, earnestMoney: Int64, owner: Address)

  datatype DutchAuctionInfo = DutchAuctionInfo(
    symbol: string, tokenId: Int64, startingPrice: Int64, endingPrice: Int64, purchaseSymbol: string,
    duration: ListDuration, owner: Address)

  /** What the offer turns into: an offer in the offer book, a bid, or a deal. */
  datatype AuctionOutcome = BecomesOffer | PlacesBid | Deals

  function AuctionInfoNotFound(input: MakeOfferInput): string {
    "Auction info of " + input.symbol + "-" + DecimalText(input.tokenId) + " not found."
  }

  /** `CurrentBlockTime <= StartTime.AddHours(DurationHours)` fails. */
  predicate AuctionFinished(d: ListDuration, now: int) {
    now > d.startTime + d.durationHours * SecondsPerHour
  }

  /** The highest bid amount, the head of `OrderByDescending(o => o.Price.Amount)`. */
  function HighestBid(bids: seq<Int64>): (m: Int64)
    requires bids != []
    ensures m in bids
    ensures forall b | b in bids :: b <= m
  {
    if |bids| == 1 then bids[0]
    else
      var rest := HighestBid(bids[1..]);
      assert forall b | b in bids :: b == bids[0] || b in bids[1..];
      if bids[0] >= rest then bids[0] else rest
  }

  /** The checks and the decision of `TryPlaceBidForEnglishAuction`, given the
      auction and the amounts of the bids already placed. */
  function EnglishAuctionGate(auction: Option<EnglishAuctionInfo>, input: MakeOfferInput, now: int, bids: seq<Int64>)
    : (r: Result<AuctionOutcome, ContractError>)
    ensures auction.None? ==> r == Err(Assertion(AuctionInfoNotFound(input)))
    ensures r.Ok? <==>
      && auction.Some?
      && !AuctionFinished(auction.value.duration, now)
      && input.price.symbol == auction.value.purchaseSymbol
      && input.price.tokenId == 0
    ensures auction.Some? && AuctionFinished(auction.value.duration, now) ==> r == Err(Assertion(AuctionAlreadyFinished))
    ensures auction.Some? && !AuctionFinished(auction.value.duration, now) && input.price.symbol != auction.value.purchaseSymbol ==>
      r == Err(Assertion(IncorrectSymbol))
    ensures auction.Some? && !AuctionFinished(auction.value.duration, now) && input.price.symbol == auction.value.purchaseSymbol &&
            input.price.tokenId != 0 ==>
      r == Err(Assertion(NftPurchaseUnsupported))
    ensures r.Ok? ==> r.value != Deals
    ensures r.Ok? ==>
      (r.value == PlacesBid <==>
        input.price.amount >= auction.value.startingPrice && forall b | b in bids :: input.price.amount > b)
  {
    match auction
    case None => Err(Assertion(AuctionInfoNotFound(input)))
    case Some(info) =>
      if AuctionFinished(info.duration, now) then Err(Assertion(AuctionAlreadyFinished))
      else if input.price.symbol != info.purchaseSymbol then Err(Assertion(IncorrectSymbol))
      else if input.price.tokenId != 0 then Err(Assertion(NftPurchaseUnsupported))
      else if input.price.amount < info.startingPrice then Ok(BecomesOffer)
      else if bids != [] && input.price.amount <= HighestBid(bids) then Ok(BecomesOffer)
      else Ok(PlacesBid)
  }

  /** `CalculateCurrentBiddingPrice` as written. The duration in seconds is
      a checked `int` product; the price arithmetic is checked `long`. */
  function CalculateCurrentBiddingPrice(startingPrice: Int64, endingPrice: Int64, duration: ListDuration, now: Timestamp)
    : (r: Result<Int64, ContractError>)
    ensures r.Err? ==> r.error == Overflow
    ensures !(MinInt32 <= duration.durationHours * SecondsPerHour <= MaxInt32) ==> r == Err(Overflow)
    ensures now == duration.startTime && MinInt32 <= duration.durationHours * SecondsPerHour <= MaxInt32 ==>
      r == Ok(startingPrice)
    ensures r.Ok? && now != duration.startTime ==>
      && r.value >= endingPrice
      && r.value == Max(startingPrice - TruncDiv((endingPrice - startingPrice) * (duration.durationHours * SecondsPerHour),
                                                now - duration.startTime), endingPrice)
    ensures var seconds := duration.durationHours * SecondsPerHour;
      var diff := endingPrice - startingPrice;
      r.Ok? <==>
        && MinInt32 <= seconds <= MaxInt32
        && (now == duration.startTime ||
            (&& MinInt64 <= diff <= MaxInt64
             && MinInt64 <= diff * seconds <= MaxInt64
             && MinInt64 <= TruncDiv(diff * seconds, now - duration.startTime) <= MaxInt64
             && MinInt64 <= startingPrice - TruncDiv(diff * seconds, now - duration.startTime) <= MaxInt64))
  {
    var passedSeconds: Int64 := now - duration.startTime;
    match Checked32(duration.durationHours * SecondsPerHour)
    case None => Err(Overflow)
    case Some(durationSeconds) =>
      if passedSeconds == 0 then Ok(startingPrice)
      else match Checked64(endingPrice - startingPrice)
        case None => Err(Overflow)
        case Some(diffPrice) =>
          match Checked64(diffPrice * durationSeconds)
          case None => Err(Overflow)
          case Some(product) =>
            match CheckedDiv64(product, passedSeconds)
            case None => Err(Overflow)
            case Some(quotient) =>
              match Checked64(startingPrice - quotient)
              case None => Err(Overflow)
              case Some(price) => Ok(Max(price, endingPrice))
  }

  function Max(a: int, b: int): (m: int)
    ensures m >= a && m >= b && (m == a || m == b)
  {
    if a >= b then a else b
  }

  /** The checks and the decision of `PerformMakeOfferToDutchAuction`. */
  function DutchAuctionGate(auction: Option<DutchAuctionInfo>, input: MakeOfferInput, now: Timestamp)
    : (r: Result<AuctionOutcome, ContractError>)
    ensures auction.None? ==> r == Err(Assertion(AuctionInfoNotFound(input)))
    ensures auction.Some? && AuctionFinished(auction.value.duration, now) ==> r == Err(Assertion(AuctionAlreadyFinished))
    ensures auction.Some? && !AuctionFinished(auction.value.duration, now) && input.price.symbol != auction.value.purchaseSymbol ==>
      r == Err(Assertion(IncorrectSymbolDutch))
    ensures r.Ok? ==> r.value != PlacesBid
    ensures r.Ok? ==>
      && !AuctionFinished(auction.value.duration, now)
      && input.price.symbol == auction.value.purchaseSymbol
      && var price := CalculateCurrentBiddingPrice(auction.value.startingPrice, auction.value.endingPrice, auction.value.duration, now);
         price.Ok? && (r.value == Deals <==> input.price.amount >= price.value)
    ensures (auction.Some? && !AuctionFinished(auction.value.duration, now) && input.price.symbol == auction.value.purchaseSymbol &&
             CalculateCurrentBiddingPrice(auction.value.startingPrice, auction.value.endingPrice, auction.value.duration, now).Err?) ==>
      r == Err(Overflow)
    ensures (auction.Some? && !AuctionFinished(auction.value.duration, now) && input.price.symbol == auction.value.purchaseSymbol &&
             CalculateCurrentBiddingPrice(auction.value.startingPrice, auction.value.endingPrice, auction.value.duration, now).Ok?) ==>
      r.Ok?
  {
    match auction
    case None => Err(Assertion(AuctionInfoNotFound(input)))
    case Some(info) =>
      if AuctionFinished(info.duration, now) then Err(Assertion(AuctionAlreadyFinished))
      else if input.price.symbol != info.purchaseSymbol then Err(Assertion(IncorrectSymbolDutch))
      else match CalculateCurrentBiddingPrice(info.startingPrice, info.endingPrice, info.duration, now)
        case Err(e) => Err(e)
        case Ok(price) => if input.price.amount < price then Ok(BecomesOffer) else Ok(Deals)
  }

  // ---------------------------------------------------------------- the bidding price

  lemma MultiplicationCancels(a: int, b: int, d: nat)
    requires d > 0 && a * d < b * d
    ensures a < b
  {
  }

  lemma DivisionMonotone(x: nat, y: nat, d: nat)
    requires d > 0 && x <= y
    ensures x / d <= y / d
  {
    var qx, qy := x / d, y / d;
    assert qx * d <= x;
    assert y < (qy + 1) * d;
    MultiplicationCancels(qx, qy + 1, d);
  }

  /** Scaling `a` by `big / small` with `big >= small` does not make it smaller. */
  lemma ScaledAtLeast(a: nat, big: nat, small: nat)
    requires 0 < small <= big
    ensures (a * big) / small >= a
  {
    assert a * big >= a * small;
    assert (a * small) / small == a;
    DivisionMonotone(a * small, a * big, small);
  }

  /** Scaling `a` by `part / whole` with `part <= whole` does not make it larger. */
  lemma ScaledAtMost(a: nat, part: nat, whole: nat)
    requires 0 < whole && part <= whole
    ensures (a * part) / whole <= a
  {
    assert a * part <= a * whole;
    assert (a * whole) / whole == a;
    DivisionMonotone(a * part, a * whole, whole);
  }

  /** A negative amount divided by a positive one, rounded toward zero. */
  lemma TruncDivNegative(n: nat, d: nat)
    requires d > 0
    ensures TruncDiv(-(n as int), d) == -((n / d) as int)
  {
  }

  /** As written, a falling Dutch auction never offers a price below its
      starting price while it runs: the product `(end - start) * duration`
      is divided by the elapsed time instead of multiplying by it. */
  lemma AsWrittenPriceNeverFalls(startingPrice: Int64, endingPrice: Int64, duration: ListDuration, now: Timestamp)
    requires endingPrice < startingPrice
    requires 0 < now - duration.startTime <= duration.durationHours * SecondsPerHour
    requires CalculateCurrentBiddingPrice(startingPrice, endingPrice, duration, now).Ok?
    ensures CalculateCurrentBiddingPrice(startingPrice, endingPrice, duration, now).value > startingPrice
  {
    var passed: nat := now - duration.startTime;
    var seconds: nat := duration.durationHours * SecondsPerHour;
    var drop: nat := startingPrice - endingPrice;
    assert (endingPrice - startingPrice) * seconds == -(drop * seconds);
    ScaledAtLeast(drop, seconds, passed);
    TruncDivNegative(drop * seconds, passed);
  }

  /** The input that shows it: a one-hour auction from 100 down to 50 asks 200
      half-way through, where 75 was meant. */
  lemma AsWrittenHalfTimePrice()
    ensures CalculateCurrentBiddingPrice(100, 50, ListDuration(0, 0, 1), 1800) == Ok(200)
  {
    TruncDivNegative(180000, 1800);
  }

  /** The evidently intended bidding price: it moves linearly from the starting
      price at the start time to the ending price at the end of the duration. */
  function IntendedBiddingPrice(startingPrice: Int64, endingPrice: Int64, duration: ListDuration, now: Timestamp): (p: Int64)
    ensures Min(startingPrice, endingPrice) <= p <= Max(startingPrice, endingPrice)
    ensures now <= duration.startTime ==> p == startingPrice
    ensures now - duration.startTime >= duration.durationHours * SecondsPerHour && now > duration.startTime ==> p == endingPrice
  {
    var passed := now - duration.startTime;
    var seconds := duration.durationHours * SecondsPerHour;
    if passed <= 0 then startingPrice
    else if seconds <= passed then endingPrice
    else
      var diff := endingPrice - startingPrice;
      var q := TruncDiv(diff * passed, seconds);
      ScaledAtMost(Abs(diff), passed, seconds);
      assert Abs(diff * passed) == Abs(diff) * passed;
      startingPrice + q
  }

  function Min(a: int, b: int): (m: int)
    ensures m <= a && m <= b && (m == a || m == b)
  {
    if a <= b then a else b
  }

  /** While a falling auction runs, the intended price is the starting price
      less the elapsed share of the drop. */
  lemma IntendedPriceWhileRunning(startingPrice: Int64, endingPrice: Int64, duration: ListDuration, now: Timestamp)
    requires endingPrice <= startingPrice
    requires 0 < now - duration.startTime < duration.durationHours * SecondsPerHour
    ensures IntendedBiddingPrice(startingPrice, endingPrice, duration, now) ==
      startingPrice - ((startingPrice - endingPrice) * (now - duration.startTime)) / (duration.durationHours * SecondsPerHour)
  {
    var drop: nat := startingPrice - endingPrice;
    var passed: nat := now - duration.startTime;
    assert (endingPrice - startingPrice) * passed == -(drop * passed);
    TruncDivNegative(drop * passed, duration.durationHours * SecondsPerHour);
  }

  /** The intended price of a falling auction never rises as time passes. */
  lemma IntendedPriceFalls(startingPrice: Int64, endingPrice: Int64, duration: ListDuration, earlier: Timestamp, later: Timestamp)
    requires endingPrice <= startingPrice && earlier <= later
    ensures IntendedBiddingPrice(startingPrice, endingPrice, duration, later)
         <= IntendedBiddingPrice(startingPrice, endingPrice, duration, earlier)
  {
    var seconds := duration.durationHours * SecondsPerHour;
    var p1, p2 := earlier - duration.startTime, later - duration.startTime;
    if p1 <= 0 {
      assert IntendedBiddingPrice(startingPrice, endingPrice, duration, earlier) == startingPrice;
    } else if p2 >= seconds {
      assert IntendedBiddingPrice(startingPrice, endingPrice, duration, later) == endingPrice;
    } else {
      var drop: nat := startingPrice - endingPrice;
      ScaleMonotone(drop, p1, p2);
      DivisionMonotone(drop * p1, drop * p2, seconds);
      IntendedPriceWhileRunning(startingPrice, endingPrice, duration, earlier);
      IntendedPriceWhileRunning(startingPrice, endingPrice, duration, later);
    }
  }

  lemma ScaleMonotone(c: nat, x: nat, y: nat)
    requires x <= y
    ensures c * x <= c * y
  {
    var d: nat := y - x;
    assert c * y == c * x + c * d;
  }
}
