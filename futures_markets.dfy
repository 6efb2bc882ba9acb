/**
 * The dashboard's futures markets table
 * (sections/dashboard/FuturesMarketsTable/FuturesMarketsTable.tsx): one table
 * row per market summary, the comparator of the daily-volume column and the
 * route a row click navigates to. Fixed-point amounts are exact reals.
 */
module FuturesMarkets {
  import opened Wrappers
  import opened Seqs

  /** The market summary the table receives. */
  datatype FuturesMarket = FuturesMarket(
    asset: string,
    assetHex: string,
    price: real,
    marketSize: real,
    marketSkew: real,
    currentFundingRate: real,
    isSuspended: bool,
    marketClosureReason: Option<string>)

  /** One entry of the lagged daily prices. */
  datatype Price = Price(synth: string, price: real)

  /** The payload of one average-funding-rate query. */
  datatype FundingRateResponse = FundingRateResponse(
    asset: string,
    fundingTitle: string,
    fundingRate: Option<real>)

  /** One average-funding-rate query result; `data` is absent while it loads or after it fails. */
  datatype FundingRateQuery = FundingRateQuery(data: Option<FundingRateResponse>)

  /** The display helpers the table calls; their definitions are not part of this model. */
  datatype Helpers = Helpers(
    displayAsset: string -> string,
    synthDescription: string -> string)

  /** One table row. */
  datatype MarketRow = MarketRow(
    asset: string,
    market: string,
    description: string,
    price: real,
    volume: real,
    pastPrice: Option<real>,
    fundingRate: Option<real>,
    openInterest: real,
    openInterestNative: real,
    longInterest: real,
    shortInterest: real,
    marketSkew: real,
    isSuspended: bool,
    marketClosureReason: Option<string>)

  function Abs(x: real): (r: real)
    ensures r >= 0.0 && (r == x || r == -x)
  {
    if x < 0.0 then -x else x
  }

  /** `|(size + skew) / 2| * price`: never negative at a non-negative price. */
  function LongInterest(m: FuturesMarket): (r: real)
    ensures m.price >= 0.0 ==> r >= 0.0
  {
    ScaledAbsNonNegative((m.marketSize + m.marketSkew) / 2.0, m.price);
    Abs((m.marketSize + m.marketSkew) / 2.0) * m.price
  }

  /** `|(size - skew) / 2| * price`: never negative at a non-negative price. */
  function ShortInterest(m: FuturesMarket): (r: real)
    ensures m.price >= 0.0 ==> r >= 0.0
  {
    ScaledAbsNonNegative((m.marketSize - m.marketSkew) / 2.0, m.price);
    Abs((m.marketSize - m.marketSkew) / 2.0) * m.price
  }

  /** `futuresVolume[assetHex]?.toNumber() || 0`: a missing entry reads as 0. */
  function VolumeOf(m: FuturesMarket, volumes: map<string, real>): (v: real)
    ensures m.assetHex !in volumes ==> v == 0.0
    ensures m.assetHex in volumes ==> v == volumes[m.assetHex]
  {
    if m.assetHex in volumes && volumes[m.assetHex] != 0.0 then volumes[m.assetHex] else 0.0
  }

  /** `i` is the first daily price entry of `asset`, the one `find` returns. */
  predicate FirstPriceAt(dailyPrices: seq<Price>, asset: string, i: int) {
    && 0 <= i < |dailyPrices|
    && dailyPrices[i].synth == asset
    && forall j :: 0 <= j < i ==> dailyPrices[j].synth != asset
  }

  /**
   * `pastPrice?.price || undefined`: the price of the first entry of the
   * asset, unless there is none or its price is zero.
   */
  function PastPriceOf(m: FuturesMarket, dailyPrices: seq<Price>): (r: Option<real>)
    ensures (forall i :: 0 <= i < |dailyPrices| ==> dailyPrices[i].synth != m.asset) ==> r == None
    ensures forall i :: FirstPriceAt(dailyPrices, m.asset, i) ==>
              r == if dailyPrices[i].price != 0.0 then Some(dailyPrices[i].price) else None
    ensures r.Some? <==> exists i :: FirstPriceAt(dailyPrices, m.asset, i) && dailyPrices[i].price != 0.0
    ensures r.Some? ==> r.value != 0.0
  {
    match First((p: Price) => p.synth == m.asset, dailyPrices)
    case None => None
    case Some(p) => if p.price != 0.0 then Some(p.price) else None
  }

  /** The query result answers for `asset`. */
  predicate AnswersFor(q: FundingRateQuery, asset: string) {
    q.data.Some? && q.data.value.asset == asset
  }

  /** `i` is the first funding query answering for `asset`, the one `find` returns. */
  predicate FirstAnswerAt(fundingRates: seq<FundingRateQuery>, asset: string, i: int) {
    && 0 <= i < |fundingRates|
    && AnswersFor(fundingRates[i], asset)
    && forall j :: 0 <= j < i ==> !AnswersFor(fundingRates[j], asset)
  }

  /**
   * `fundingRate`: the rate of the first funding query that answers for the
   * asset, or null when there is none or it carries no rate.
   */
  function FundingRateOf(m: FuturesMarket, fundingRates: seq<FundingRateQuery>): (r: Option<real>)
    ensures (forall i :: 0 <= i < |fundingRates| ==> !AnswersFor(fundingRates[i], m.asset)) ==> r == None
    ensures forall i :: FirstAnswerAt(fundingRates, m.asset, i) ==> r == fundingRates[i].data.value.fundingRate
    ensures r.Some? <==> exists i :: FirstAnswerAt(fundingRates, m.asset, i) &&
                                     fundingRates[i].data.value.fundingRate.Some?
  {
    match First((q: FundingRateQuery) => AnswersFor(q, m.asset), fundingRates)
    case None => None
    case Some(q) => q.data.value.fundingRate
  }

  /**
   * The row one market summary becomes. Open interest is size times price,
   * natively the size; long and short interest are never negative at a
   * non-negative price, and with `|skew| <= size` they add up to the open
   * interest and differ by the skew times the price.
   */
  function ToMarketRow(m: FuturesMarket, dailyPrices: seq<Price>, volumes: map<string, real>,
                       fundingRates: seq<FundingRateQuery>, h: Helpers): (r: MarketRow)
    ensures r.openInterest == m.marketSize * m.price && r.openInterestNative == m.marketSize
    ensures m.price >= 0.0 ==> r.longInterest >= 0.0 && r.shortInterest >= 0.0
    ensures -m.marketSize <= m.marketSkew <= m.marketSize ==>
              r.longInterest + r.shortInterest == r.openInterest &&
              r.longInterest - r.shortInterest == m.marketSkew * m.price
  {
    MarketInterests(m);
    MarketRow(
      asset := m.asset,
      market := h.displayAsset(m.asset) + "-PERP",
      description := h.synthDescription(m.asset),
      price := m.price,
      volume := VolumeOf(m, volumes),
      pastPrice := PastPriceOf(m, dailyPrices),
      fundingRate := FundingRateOf(m, fundingRates),
      openInterest := m.marketSize * m.price,
      openInterestNative := m.marketSize,
      longInterest := LongInterest(m),
      shortInterest := ShortInterest(m),
      marketSkew := m.marketSkew,
      isSuspended := m.isSuspended,
      marketClosureReason := m.marketClosureReason)
  }

  /**
   * The table data: one row per market, in the order of the markets. Missing
   * query data reads as no prices and no volumes.
   */
  function MarketRows(markets: seq<FuturesMarket>, dailyPrices: Option<seq<Price>>,
                      volumes: Option<map<string, real>>, fundingRates: seq<FundingRateQuery>,
                      h: Helpers): (rows: seq<MarketRow>)
    ensures |rows| == |markets|
    ensures forall i :: 0 <= i < |markets| ==>
              rows[i] == ToMarketRow(markets[i], dailyPrices.GetOr([]), volumes.GetOr(map[]), fundingRates, h)
    ensures forall i :: 0 <= i < |markets| ==> rows[i].asset == markets[i].asset
  {
    Map((m: FuturesMarket) => ToMarketRow(m, dailyPrices.GetOr([]), volumes.GetOr(map[]), fundingRates, h),
        markets)
  }

  /** `|x| * price` is never negative at a non-negative price. */
  lemma ScaledAbsNonNegative(x: real, price: real)
    ensures price >= 0.0 ==> Abs(x) * price >= 0.0
  {
  }

  /** With the skew within the size, the two halves recombine into size and skew. */
  lemma HalvesRecombine(size: real, skew: real, price: real)
    requires -size <= skew <= size
    ensures Abs((size + skew) / 2.0) * price + Abs((size - skew) / 2.0) * price == size * price
    ensures Abs((size + skew) / 2.0) * price - Abs((size - skew) / 2.0) * price == skew * price
  {
    var a, b := (size + skew) / 2.0, (size - skew) / 2.0;
    assert Abs(a) == a && Abs(b) == b;
    assert a + b == size && a - b == skew;
    assert a * price + b * price == (a + b) * price;
    assert a * price - b * price == (a - b) * price;
  }

  /**
   * The interests of a market: long and short interest are never negative at
   * a non-negative price; with `|skew| <= size` they add up to the size times
   * the price, and their difference is the skew times the price.
   */
  lemma MarketInterests(m: FuturesMarket)
    ensures m.price >= 0.0 ==> LongInterest(m) >= 0.0 && ShortInterest(m) >= 0.0
    ensures -m.marketSize <= m.marketSkew <= m.marketSize ==>
              LongInterest(m) + ShortInterest(m) == m.marketSize * m.price &&
              LongInterest(m) - ShortInterest(m) == m.marketSkew * m.price
  {
    if -m.marketSize <= m.marketSkew <= m.marketSize {
      HalvesRecombine(m.marketSize, m.marketSkew, m.price);
    }
  }

  /** The volume of a row is 0 exactly when the volume data has no entry, or a zero entry, for it. */
  lemma RowVolume(m: FuturesMarket, dailyPrices: seq<Price>, volumes: map<string, real>,
                  fundingRates: seq<FundingRateQuery>, h: Helpers)
    ensures var r := ToMarketRow(m, dailyPrices, volumes, fundingRates, h);
            (r.volume == 0.0 <==> m.assetHex !in volumes || volumes[m.assetHex] == 0.0) &&
            (m.assetHex in volumes ==> r.volume == volumes[m.assetHex])
  {
  }

  /** The funding rate of a row is null when no funding query answers for its asset. */
  lemma RowFundingRateNull(m: FuturesMarket, dailyPrices: seq<Price>, volumes: map<string, real>,
                           fundingRates: seq<FundingRateQuery>, h: Helpers)
    requires forall i :: 0 <= i < |fundingRates| ==> !AnswersFor(fundingRates[i], m.asset)
    ensures ToMarketRow(m, dailyPrices, volumes, fundingRates, h).fundingRate == None
  {
  }

  /** The label is the display asset followed by "-PERP"; the flags and the skew are copied. */
  lemma RowLabelAndCopies(m: FuturesMarket, dailyPrices: seq<Price>, volumes: map<string, real>,
                          fundingRates: seq<FundingRateQuery>, h: Helpers)
    ensures var r := ToMarketRow(m, dailyPrices, volumes, fundingRates, h);
            && r.market[..|r.market| - 5] == h.displayAsset(m.asset)
            && r.market[|r.market| - 5..] == "-PERP"
            && r.asset == m.asset && r.price == m.price
            && r.marketSkew == m.marketSkew
            && r.isSuspended == m.isSuspended
            && r.marketClosureReason == m.marketClosureReason
  {
  }

  /** The `sortType` of the daily-volume column: 1 when `a`'s volume is larger, -1 otherwise. */
  function CompareVolume(a: MarketRow, b: MarketRow): (c: int)
    ensures c == 1 <==> a.volume > b.volume
    ensures c == -1 <==> a.volume <= b.volume
  {
    if a.volume > b.volume then 1 else -1
  }

  /**
   * The comparator never reports a tie: on different volumes it is
   * antisymmetric, and rows of equal volume each compare below the other.
   */
  lemma CompareVolumeNeverTies(a: MarketRow, b: MarketRow)
    ensures CompareVolume(a, b) != 0
    ensures a.volume != b.volume ==> CompareVolume(a, b) == -CompareVolume(b, a)
    ensures a.volume == b.volume ==> CompareVolume(a, b) == -1 && CompareVolume(b, a) == -1
  {
  }

  /** The route a click on a row navigates to: `/market/` followed by the asset. */
  function MarketRoute(r: MarketRow): (path: string)
    ensures |path| == 8 + |r.asset|
    ensures path[..8] == "/market/" && path[8..] == r.asset
  {
    "/market/" + r.asset
  }

  /** Rows of different assets lead to different routes. */
  lemma MarketRouteInjective(a: MarketRow, b: MarketRow)
    requires MarketRoute(a) == MarketRoute(b)
    ensures a.asset == b.asset
  {
  }
}
