/**
 * The endpoint methods of the client, `markets` through `orderHistory`.
 * Each checks its required arguments in order with JavaScript truthiness
 * (an absent argument is the empty string or zero here), fails with
 * "<field> is required" on the first falsy one, and otherwise names a fixed
 * path and exactly its arguments as parameters, in order. `Invoke` then
 * either throws before any I/O or hands the route to `Ionomy.Request`.
 */
module Endpoints {
  import opened Wrappers
  import opened Ionomy

  /** Where a validated call goes: a path below the base URL and its parameters. */
  datatype Route = Route(path: string, params: Params)

  /** Index of the first falsy field, or `|fields|` when all are truthy. */
  function FirstMissing(fields: Params): (i: nat)
    ensures i <= |fields|
    ensures forall j :: 0 <= j < i ==> Truthy(fields[j].1)
    ensures i < |fields| ==> !Truthy(fields[i].1)
  {
    if fields == [] then 0
    else if !Truthy(fields[0].1) then 0
    else 1 + FirstMissing(fields[1..])
  }

  /**
   * A table-driven statement of the endpoint checks: the first falsy field is
   * named in the error; when there is none, the fields are the parameters.
   */
  function Required(path: string, fields: Params): (r: Result<Route, string>)
    ensures r.Success? <==> forall j :: 0 <= j < |fields| ==> Truthy(fields[j].1)
    ensures r.Success? ==> r.value == Route(path, fields)
    ensures forall k :: 0 <= k < |fields| && !Truthy(fields[k].1) && (forall j :: 0 <= j < k ==> Truthy(fields[j].1))
                        ==> r == Failure(fields[k].0 + " is required")
  {
    var i := FirstMissing(fields);
    if i < |fields| then Failure(fields[i].0 + " is required") else Success(Route(path, fields))
  }

  /** One `if (!field) throw new Error(message)` ahead of `next`. */
  function Need(v: Value, message: string, next: Result<Route, string>): Result<Route, string>
  {
    if Truthy(v) then next else Failure(message)
  }

  // ---- public endpoints ----

  function Markets(): (r: Result<Route, string>)
    ensures r == Required("public/markets", [])
    ensures r.Success? && r.value.params == []
  {
    Success(Route("public/markets", []))
  }

  function Currencies(): (r: Result<Route, string>)
    ensures r == Required("public/currencies", [])
    ensures r.Success? && r.value.params == []
  {
    Success(Route("public/currencies", []))
  }

  /** The order-book sides the method accepts. */
  const TypeChoices: seq<string> := ["ask", "bid", "both"]

  /** `names` listed after the fixed prefix, separated by ", ". */
  function TypeMessage(names: seq<string>): string
  {
    "type must be one of: " + JoinNames(names)
  }

  function JoinNames(names: seq<string>): string
  {
    if names == [] then "" else if |names| == 1 then names[0] else names[0] + ", " + JoinNames(names[1..])
  }

  /**
   * `orderBook`: the market is checked first; an omitted type becomes "both";
   * any other type outside the accepted sides is refused. The refusal lists
   * the accepted sides themselves.
   */
  function OrderBook(market: string, kind: Option<string>): (r: Result<Route, string>)
    ensures market == "" ==> r == Failure("market is required")
    ensures market != "" ==> (r.Success? <==> kind.None? || kind.value in {"ask", "bid", "both"})
    ensures market != "" && r.Failure? ==> r.error == "type must be one of: ask, bid, both"
    ensures r.Success? ==> r.value == Route("public/orderbook", [("market", Str(market)), ("type", Str(if kind.None? then "both" else kind.value))])
  {
    OrderBookChecked(market, kind, TypeMessage(TypeChoices))
  }

  /** `orderBook` as written: its refusal text lists "asks" and "bids", values the check refuses. */
  function OrderBookAsWritten(market: string, kind: Option<string>): (r: Result<Route, string>)
    ensures market == "" ==> r == Failure("market is required")
    ensures market != "" ==> (r.Success? <==> kind.None? || kind.value in {"ask", "bid", "both"})
    ensures market != "" && r.Failure? ==> r.error == "type must be one of: asks, bids, both"
  {
    OrderBookChecked(market, kind, "type must be one of: asks, bids, both")
  }

  function OrderBookChecked(market: string, kind: Option<string>, refusal: string): Result<Route, string>
  {
    var side := match kind case None => "both" case Some(t) => t;
    Need(Str(market), "market is required",
      if side in TypeChoices then Success(Route("public/orderbook", [("market", Str(market)), ("type", Str(side))]))
      else Failure(refusal))
  }

  function MarketSummaries(): (r: Result<Route, string>)
    ensures r == Required("public/markets-summaries", [])
    ensures r.Success? && r.value.params == []
  {
    Success(Route("public/markets-summaries", []))
  }

  function MarketSummary(market: string): (r: Result<Route, string>)
    ensures market == "" ==> r == Failure("market is required")
    ensures market != "" ==> r == Success(Route("public/market-summary", [("market", Str(market))]))
  {
    Need(Str(market), "market is required", Success(Route("public/market-summary", [("market", Str(market))])))
  }

  function MarketHistory(market: string): (r: Result<Route, string>)
    ensures market == "" ==> r == Failure("market is required")
    ensures market != "" ==> r == Success(Route("public/market-history", [("market", Str(market))]))
  {
    Need(Str(market), "market is required", Success(Route("public/market-history", [("market", Str(market))])))
  }

  // ---- market (trading) endpoints ----

  function LimitBuy(market: string, amount: int, price: int): (r: Result<Route, string>)
    ensures market == "" ==> r == Failure("market is required")
    ensures market != "" && amount == 0 ==> r == Failure("amount is required")
    ensures market != "" && amount != 0 && price == 0 ==> r == Failure("price is required")
    ensures market != "" && amount != 0 && price != 0
        ==> r == Success(Route("market/buy-limit", [("market", Str(market)), ("amount", Num(amount)), ("price", Num(price))]))
  {
    Need(Str(market), "market is required", Need(Num(amount), "amount is required", Need(Num(price), "price is required",
      Success(Route("market/buy-limit", [("market", Str(market)), ("amount", Num(amount)), ("price", Num(price))])))))
  }

  function LimitSell(market: string, amount: int, price: int): (r: Result<Route, string>)
    ensures market == "" ==> r == Failure("market is required")
    ensures market != "" && amount == 0 ==> r == Failure("amount is required")
    ensures market != "" && amount != 0 && price == 0 ==> r == Failure("price is required")
    ensures market != "" && amount != 0 && price != 0
        ==> r == Success(Route("market/sell-limit", [("market", Str(market)), ("amount", Num(amount)), ("price", Num(price))]))
  {
    Need(Str(market), "market is required", Need(Num(amount), "amount is required", Need(Num(price), "price is required",
      Success(Route("market/sell-limit", [("market", Str(market)), ("amount", Num(amount)), ("price", Num(price))])))))
  }

  function CancelOrder(orderId: string): (r: Result<Route, string>)
    ensures orderId == "" ==> r == Failure("orderId is required")
    ensures orderId != "" ==> r == Success(Route("market/cancel-order", [("orderId", Str(orderId))]))
  {
    Need(Str(orderId), "orderId is required", Success(Route("market/cancel-order", [("orderId", Str(orderId))])))
  }

  function OpenOrders(market: string): (r: Result<Route, string>)
    ensures market == "" ==> r == Failure("market is required")
    ensures market != "" ==> r == Success(Route("market/open-orders", [("market", Str(market))]))
  {
    Need(Str(market), "market is required", Success(Route("market/open-orders", [("market", Str(market))])))
  }

  // ---- account endpoints ----

  function Balances(): (r: Result<Route, string>)
    ensures r == Required("account/balances", [])
    ensures r.Success? && r.value.params == []
  {
    Success(Route("account/balances", []))
  }

  function Balance(currency: string): (r: Result<Route, string>)
    ensures currency == "" ==> r == Failure("currency is required")
    ensures currency != "" ==> r == Success(Route("account/balance", [("currency", Str(currency))]))
  {
    Need(Str(currency), "currency is required", Success(Route("account/balance", [("currency", Str(currency))])))
  }

  function DepositAddress(currency: string): (r: Result<Route, string>)
    ensures currency == "" ==> r == Failure("currency is required")
    ensures currency != "" ==> r == Success(Route("account/deposit-address", [("currency", Str(currency))]))
  {
    Need(Str(currency), "currency is required", Success(Route("account/deposit-address", [("currency", Str(currency))])))
  }

  function DepositHistory(currency: string): (r: Result<Route, string>)
    ensures currency == "" ==> r == Failure("currency is required")
    ensures currency != "" ==> r == Success(Route("account/deposit-history", [("currency", Str(currency))]))
  {
    Need(Str(currency), "currency is required", Success(Route("account/deposit-history", [("currency", Str(currency))])))
  }

  function Withdraw(currency: string, amount: int, address: string): (r: Result<Route, string>)
    ensures currency == "" ==> r == Failure("currency is required")
    ensures currency != "" && amount == 0 ==> r == Failure("amount is required")
    ensures currency != "" && amount != 0 && address == "" ==> r == Failure("address is required")
    ensures currency != "" && amount != 0 && address != ""
        ==> r == Success(Route("account/withdraw", [("currency", Str(currency)), ("amount", Num(amount)), ("address", Str(address))]))
  {
    Need(Str(currency), "currency is required", Need(Num(amount), "amount is required", Need(Str(address), "address is required",
      Success(Route("account/withdraw", [("currency", Str(currency)), ("amount", Num(amount)), ("address", Str(address))])))))
  }

  function WithdrawalHistory(currency: string): (r: Result<Route, string>)
    ensures currency == "" ==> r == Failure("currency is required")
    ensures currency != "" ==> r == Success(Route("account/withdrawal-history", [("currency", Str(currency))]))
  {
    Need(Str(currency), "currency is required", Success(Route("account/withdrawal-history", [("currency", Str(currency))])))
  }

  function Order(orderId: string): (r: Result<Route, string>)
    ensures orderId == "" ==> r == Failure("orderId is required")
    ensures orderId != "" ==> r == Success(Route("account/order", [("orderId", Str(orderId))]))
  {
    Need(Str(orderId), "orderId is required", Success(Route("account/order", [("orderId", Str(orderId))])))
  }

  function OrderHistory(market: string): (r: Result<Route, string>)
    ensures market == "" ==> r == Failure("market is required")
    ensures market != "" ==> r == Success(Route("account/order-history", [("market", Str(market))]))
  {
    Need(Str(market), "market is required", Success(Route("account/order-history", [("market", Str(market))])))
  }

  // ---- calling an endpoint ----

  /** A method call either throws synchronously, before any I/O, or performs one exchange. */
  datatype Call<T> = Refused(message: string) | Sent(exchange: Exchange<T>)

  function Invoke<T>(cfg: Config, route: Result<Route, string>, ts: int, hmac: Hmac, get: Outgoing -> Envelope<T>): (c: Call<T>)
    ensures c.Refused? <==> route.Failure?
    ensures route.Failure? ==> c.message == route.error
    ensures route.Success? ==> c.exchange.request.path == route.value.path && c.exchange.request.params == route.value.params
    ensures route.Success? ==> c.exchange.reply == Unwrap(get(c.exchange.request))
    ensures route.Success? && Signs(cfg) ==> Verifies(cfg.apiSecret, cfg.baseURL, route.value.path, route.value.params, c.exchange.request.headers, hmac)
    ensures route.Success? && Signs(cfg) ==> c.exchange.request.headers.Keys == {TimeHeader, KeyHeader, TokenHeader}
    ensures route.Success? && Signs(cfg) ==> c.exchange.request.headers[TimeHeader] == Num(ts) && c.exchange.request.headers[KeyHeader] == Str(cfg.apiKey)
    ensures route.Success? && !Signs(cfg) ==> c.exchange.request.headers == map[]
    ensures route.Success? ==> c.exchange == Request(cfg, route.value.path, route.value.params, ts, hmac, get)
  {
    match route
    case Failure(e) => Refused(e)
    case Success(rt) => Sent(Request(cfg, rt.path, rt.params, ts, hmac, get))
  }

  // ---- properties ----

  /** The parameterless methods always route, with no parameters. */
  lemma ParameterlessAreTableDriven()
    ensures Markets() == Required("public/markets", [])
    ensures Currencies() == Required("public/currencies", [])
    ensures MarketSummaries() == Required("public/markets-summaries", [])
    ensures Balances() == Required("account/balances", [])
  {
  }

  lemma OneFieldShape(path: string, name: string, v: Value, message: string)
    requires message == name + " is required"
    ensures Need(v, message, Success(Route(path, [(name, v)]))) == Required(path, [(name, v)])
  {
    var fields := [(name, v)];
    assert fields[0] == (name, v);
  }

  lemma ThreeFieldShape(path: string, n1: string, v1: Value, m1: string, n2: string, v2: Value, m2: string, n3: string, v3: Value, m3: string)
    requires m1 == n1 + " is required" && m2 == n2 + " is required" && m3 == n3 + " is required"
    ensures Need(v1, m1, Need(v2, m2, Need(v3, m3, Success(Route(path, [(n1, v1), (n2, v2), (n3, v3)])))))
         == Required(path, [(n1, v1), (n2, v2), (n3, v3)])
  {
    var fields := [(n1, v1), (n2, v2), (n3, v3)];
    assert fields[0] == (n1, v1) && fields[1] == (n2, v2) && fields[2] == (n3, v3);
  }

  /** Each one-argument method checks exactly the parameter it sends. */
  lemma OneFieldAreTableDriven(v: string)
    ensures MarketSummary(v) == Required("public/market-summary", [("market", Str(v))])
    ensures MarketHistory(v) == Required("public/market-history", [("market", Str(v))])
    ensures CancelOrder(v) == Required("market/cancel-order", [("orderId", Str(v))])
    ensures OpenOrders(v) == Required("market/open-orders", [("market", Str(v))])
    ensures Balance(v) == Required("account/balance", [("currency", Str(v))])
    ensures DepositAddress(v) == Required("account/deposit-address", [("currency", Str(v))])
    ensures DepositHistory(v) == Required("account/deposit-history", [("currency", Str(v))])
    ensures WithdrawalHistory(v) == Required("account/withdrawal-history", [("currency", Str(v))])
    ensures Order(v) == Required("account/order", [("orderId", Str(v))])
    ensures OrderHistory(v) == Required("account/order-history", [("market", Str(v))])
  {
    OneFieldShape("public/market-summary", "market", Str(v), "market is required");
    OneFieldShape("public/market-history", "market", Str(v), "market is required");
    OneFieldShape("market/cancel-order", "orderId", Str(v), "orderId is required");
    OneFieldShape("market/open-orders", "market", Str(v), "market is required");
    OneFieldShape("account/balance", "currency", Str(v), "currency is required");
    OneFieldShape("account/deposit-address", "currency", Str(v), "currency is required");
    OneFieldShape("account/deposit-history", "currency", Str(v), "currency is required");
    OneFieldShape("account/withdrawal-history", "currency", Str(v), "currency is required");
    OneFieldShape("account/order", "orderId", Str(v), "orderId is required");
    OneFieldShape("account/order-history", "market", Str(v), "market is required");
  }

  /** The order and withdrawal methods check their three fields in the order they send them. */
  lemma ThreeFieldAreTableDriven(market: string, currency: string, amount: int, price: int, address: string)
    ensures LimitBuy(market, amount, price) == Required("market/buy-limit", [("market", Str(market)), ("amount", Num(amount)), ("price", Num(price))])
    ensures LimitSell(market, amount, price) == Required("market/sell-limit", [("market", Str(market)), ("amount", Num(amount)), ("price", Num(price))])
    ensures Withdraw(currency, amount, address) == Required("account/withdraw", [("currency", Str(currency)), ("amount", Num(amount)), ("address", Str(address))])
  {
    ThreeFieldShape("market/buy-limit", "market", Str(market), "market is required",
      "amount", Num(amount), "amount is required", "price", Num(price), "price is required");
    ThreeFieldShape("market/sell-limit", "market", Str(market), "market is required",
      "amount", Num(amount), "amount is required", "price", Num(price), "price is required");
    ThreeFieldShape("account/withdraw", "currency", Str(currency), "currency is required",
      "amount", Num(amount), "amount is required", "address", Str(address), "address is required");
  }

  /** A refused call is the same whatever the clock, the signer and the transport would have done. */
  lemma RefusalIsBeforeIo<T>(cfg: Config, m: string, ts1: int, ts2: int, h1: Hmac, h2: Hmac, get1: Outgoing -> Envelope<T>, get2: Outgoing -> Envelope<T>)
    ensures Invoke(cfg, Failure(m), ts1, h1, get1) == Invoke(cfg, Failure(m), ts2, h2, get2) == Refused(m)
  {
  }

  /** `limitBuy({market: "", amount: 1, price: 1})` is refused naming the market. */
  lemma EmptyMarketRefused<T>(cfg: Config, ts: int, hmac: Hmac, get: Outgoing -> Envelope<T>)
    ensures Invoke(cfg, LimitBuy("", 1, 1), ts, hmac, get) == Refused("market is required")
  {
  }

  /** Every side the refusal text lists is a side `orderBook` accepts, and conversely. */
  lemma OrderBookListsAcceptedSides(market: string, t: string)
    requires market != ""
    ensures OrderBook(market, Some(t)).Success? <==> t in TypeChoices
    ensures TypeMessage(TypeChoices) == "type must be one of: ask, bid, both"
  {
  }

  /** As written, asking for "asks" is refused with a text that lists "asks" among the accepted sides. */
  lemma AsWrittenRefusesListedSide(market: string)
    requires market != ""
    ensures OrderBookAsWritten(market, Some("asks")) == Failure(TypeMessage(["asks", "bids", "both"]))
    ensures "asks" !in TypeChoices && "bids" !in TypeChoices
  {
    var listed := ["asks", "bids", "both"];
    assert JoinNames(listed[2..]) == "both";
    assert JoinNames(listed[1..]) == "bids, both";
    assert JoinNames(listed) == "asks, bids, both";
    assert TypeMessage(listed) == "type must be one of: asks, bids, both";
    assert "asks" !in {"ask", "bid", "both"};
  }

  /** The correction changes the refusal text and nothing else. */
  lemma CorrectionOnlyChangesText(market: string, kind: Option<string>)
    ensures OrderBook(market, kind).Success? <==> OrderBookAsWritten(market, kind).Success?
    ensures OrderBook(market, kind).Success? ==> OrderBook(market, kind) == OrderBookAsWritten(market, kind)
    ensures market == "" ==> OrderBook(market, kind) == OrderBookAsWritten(market, kind)
  {
  }

  /** `limitBuy` and `limitSell` send the same parameters to different paths. */
  lemma BuyAndSellDiffer(market: string, amount: int, price: int)
    requires market != "" && amount != 0 && price != 0
    ensures LimitBuy(market, amount, price).value.path != LimitSell(market, amount, price).value.path
    ensures LimitBuy(market, amount, price).value.params == LimitSell(market, amount, price).value.params
  {
  }
}
