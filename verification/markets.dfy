/** Market and trade-side resolution done once when the bot is set up. */
module Markets {
  import opened Results

  datatype Side = Buy | Sell

  /** An exchange market: `base` is traded, `quote` prices it. */
  datatype Market = Market(base: string, quote: string)

  datatype SetupError = NoCompatibleMarket

  /** The base currencies of all markets: a currency is listed iff some
      market trades it as its base. */
  function Bases(ms: seq<Market>): (r: seq<string>)
    ensures forall x :: x in r <==> exists m | m in ms :: m.base == x
  {
    var r := seq(|ms|, i requires 0 <= i < |ms| => ms[i].base);
    assert forall i | 0 <= i < |ms| :: r[i] == ms[i].base;
    r
  }

  /** The quote currencies of all markets: a currency is listed iff some
      market prices in it. */
  function Quotes(ms: seq<Market>): (r: seq<string>)
    ensures forall x :: x in r <==> exists m | m in ms :: m.quote == x
  {
    var r := seq(|ms|, i requires 0 <= i < |ms| => ms[i].quote);
    assert forall i | 0 <= i < |ms| :: r[i] == ms[i].quote;
    r
  }

  /** `_get_market` as written: it asks whether the source is SOME market's base
      and the target SOME market's quote, without asking that one market pairs
      them. */
  function GetMarketAsWritten(ms: seq<Market>, from: string, to: string): (r: Result<Market, SetupError>)
    ensures r.Success? <==> (from in Bases(ms) && to in Quotes(ms)) || (from in Quotes(ms) && to in Bases(ms))
    ensures r.Success? && from in Bases(ms) && to in Quotes(ms) ==> r.value == Market(from, to)
    ensures r.Success? && !(from in Bases(ms) && to in Quotes(ms)) ==> r.value == Market(to, from)
  {
    if from in Bases(ms) && to in Quotes(ms) then Success(Market(from, to))
    else if from in Quotes(ms) && to in Bases(ms) then Success(Market(to, from))
    else Failure(NoCompatibleMarket)
  }

  /** `_get_market` with the pair check it evidently intends: the chosen market
      is one the exchange lists and it joins exactly the two currencies. */
  function GetMarket(ms: seq<Market>, from: string, to: string): (r: Result<Market, SetupError>)
    ensures r.Success? <==> Market(from, to) in ms || Market(to, from) in ms
    ensures r.Success? ==> r.value in ms
    ensures r.Success? ==> r.value == Market(from, to) || r.value == Market(to, from)
    ensures Market(from, to) in ms ==> r == Success(Market(from, to))
  {
    if Market(from, to) in ms then Success(Market(from, to))
    else if Market(to, from) in ms then Success(Market(to, from))
    else Failure(NoCompatibleMarket)
  }

  /** The side chosen in `_setup`: sell when the source currency is the base. */
  function SideFor(m: Market, from: string): (side: Side)
    ensures m.base != m.quote && (from == m.base || from == m.quote) ==>
              DepositWallet(m, side) == from && PayoutWallet(m, side) != from
  {
    if m.base == from then Sell else Buy
  }

  /** Wallet the deposits arrive in (`update_deposits`): the currency the
      side spends. */
  function DepositWallet(m: Market, side: Side): (c: string)
    ensures c == m.base || c == m.quote
    ensures m.base != m.quote ==> ((c == m.base) <==> side.Sell?)
  {
    if side == Buy then m.quote else m.base
  }

  /** Wallet the converted value is paid out of (`process_withdrawals`): the
      currency the side obtains, the other currency of the market. */
  function PayoutWallet(m: Market, side: Side): (c: string)
    ensures c == m.base || c == m.quote
    ensures m.base != m.quote ==> c != DepositWallet(m, side)
  {
    if side == Buy then m.base else m.quote
  }

  /** Whichever market either resolver returns, the chosen side spends the
      source currency and obtains the target currency, and the two wallets the
      bot uses are the source and target wallets. */
  lemma ChosenSideConverts(m: Market, from: string, to: string)
    requires m == Market(from, to) || m == Market(to, from)
    ensures DepositWallet(m, SideFor(m, from)) == from
    ensures PayoutWallet(m, SideFor(m, from)) == to
    ensures SideFor(m, from) == Sell <==> m == Market(from, to)
  {
  }

  /** The as-written resolver always returns a market made of the two configured
      currencies. */
  lemma AsWrittenJoinsConfiguredCurrencies(ms: seq<Market>, from: string, to: string)
    requires GetMarketAsWritten(ms, from, to).Success?
    ensures var m := GetMarketAsWritten(ms, from, to).value;
            m == Market(from, to) || m == Market(to, from)
  {
  }

  /** Whenever the corrected resolver finds a market directly listed in the
      source-to-target direction, the as-written resolver agrees with it. */
  lemma ResolversAgreeOnListedPair(ms: seq<Market>, from: string, to: string)
    requires Market(from, to) in ms
    ensures GetMarketAsWritten(ms, from, to) == GetMarket(ms, from, to)
  {
    assert from in Bases(ms) && to in Quotes(ms);
  }

  /** The as-written resolver accepts BTC -> COP on an exchange that lists only
      BTC-CLP and ETH-COP, returning the unlisted market BTC-COP; the corrected
      resolver refuses it. */
  lemma AsWrittenAcceptsUnlistedPair()
    ensures var ms := [Market("BTC", "CLP"), Market("ETH", "COP")];
            && GetMarketAsWritten(ms, "BTC", "COP") == Success(Market("BTC", "COP"))
            && Market("BTC", "COP") !in ms
            && GetMarket(ms, "BTC", "COP") == Failure(NoCompatibleMarket)
  {
    var ms := [Market("BTC", "CLP"), Market("ETH", "COP")];
    assert ms[0] in ms && ms[1] in ms;
    assert "BTC" in Bases(ms) && "COP" in Quotes(ms);
  }
}
