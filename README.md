# Ionomy API client — a verified model

This project models the decision logic of the Ionomy exchange client
(`src/Ionomy.ts`), a thin TypeScript wrapper around the exchange's HTTP API.
The logic comes in three parts:

1. **Signing.** `requestSignature` serializes the parameters with
   `URLSearchParams`. That is the application/x-www-form-urlencoded serializer
   of the WHATWG URL Standard, section 5.2. It builds the canonical string
   `baseURL + path + ("?" + query, only when the query is non-empty) + timestamp`
   and applies HMAC-SHA512 to that string, keyed by the API secret.
2. **The `request` primitive.** It attaches the three `api-auth-*` headers only
   when both the API key and the API secret are non-empty. It signs the same
   timestamp it sends. It collapses the `{success, message, data}` envelope to
   `data` or to an error that carries `message`.
3. **The eighteen endpoint methods.** Each checks its required arguments in
   source order, using JavaScript truthiness: an empty string and zero count
   as missing. On the first missing argument it throws `"<field> is required"`.
   Otherwise it calls `request` with a fixed path and exactly its arguments, in
   order. `orderBook` also defaults `type` to `both` and accepts only `ask`,
   `bid` and `both`.

Modules:

- `Wrappers` (`wrappers.dfy`): `Option` and `Result`.
- `Decimal` (`decimal.dfy`): `String(n)` for integral numbers, with a parser that reads it back.
- `Utf8` (`utf8.dfy`): UTF-8 encoding of Unicode scalar values (RFC 3629, section 3), with a strict decoder.
- `FormUrlencoded` (`form_urlencoded.dfy`): the serializer, with a strict parser that inverts it.
- `Ionomy` (`ionomy.dfy`): client configuration, canonical string, signature, headers, envelope unwrapping and `request`.
- `Endpoints` (`endpoints.dfy`): the endpoint methods and the call that either throws or performs one exchange.

The model replaces each effect with a parameter:

- The HMAC-SHA512 hex digest is a function parameter `hmac(key, message)`.
- The clock reading `moment().unix()` is an integer parameter `ts`.
- The HTTP GET is a function `get` from the outgoing request (path, params,
  headers) to the envelope the exchange returns.

A method call is modelled as a `Call`:

- `Refused(message)` is a synchronous throw, before the clock, signer or transport are used.
- `Sent(exchange)` is the one request that was issued, together with how its promise settles.

The code throws a plain `Error` both for a failed argument check and for an
envelope with `success: false`, and lets transport errors propagate. A failed
argument check is a `Refused` call. An envelope with `success: false` is a
`Failure` reply to a sent request.

## Model

| member | source | states |
|---|---|---|
| `Decimal.IntToDecimal` | src/Ionomy.ts:46 | the decimal text of a timestamp or number is non-empty and starts with `-` exactly when the number is negative |
| `Decimal.ParseIntToDecimal` | src/Ionomy.ts:46 | the decimal text reads back as the same integer |
| `Decimal.IntToDecimalInjective` | src/Ionomy.ts:46 | distinct integers have distinct decimal texts |
| `Utf8.EncodeChar` | src/Ionomy.ts:43 | a scalar value encodes as 1 to 4 bytes; only ASCII takes one byte, which is the code point itself; all later bytes are continuation bytes |
| `Utf8.EncodeCharDecodes` | src/Ionomy.ts:43 | each character's bytes form one complete UTF-8 sequence that decodes back to that character |
| `Utf8.DecodeEncode` | src/Ionomy.ts:43 | decoding the UTF-8 encoding of a string gives the string back |
| `Utf8.EncodeInjective` | src/Ionomy.ts:43 | distinct strings have distinct UTF-8 encodings |
| `Utf8.EncodeAscii` | src/Ionomy.ts:43 | ASCII text encodes byte for byte |
| `FormUrlencoded.EncodeByte` | src/Ionomy.ts:43 | one byte becomes 1 to 3 characters, all drawn from the unescaped set, `+`, `%` and upper-case hex digits |
| `FormUrlencoded.EncodeComponent` | src/Ionomy.ts:43 | an encoded name or value contains only unescaped characters, `+`, `%` and upper-case hex digits |
| `FormUrlencoded.Serialize` | src/Ionomy.ts:43 | the query string is empty exactly when there are no parameters |
| `FormUrlencoded.DecodeEncodeComponent` | src/Ionomy.ts:43 | percent-decoding and then UTF-8-decoding an encoded component gives the original text |
| `FormUrlencoded.ComponentHasNoSeparator` | src/Ionomy.ts:43 | an encoded component never contains `&` or `=` |
| `FormUrlencoded.ParseEncodePair` | src/Ionomy.ts:43 | a `name=value` segment parses back to its name and value |
| `FormUrlencoded.ParseSerialize` | src/Ionomy.ts:43 | parsing the query string recovers every pair, in insertion order |
| `FormUrlencoded.SerializeInjective` | src/Ionomy.ts:43 | pair lists that differ in a name, a value or their order give different query strings |
| `FormUrlencoded.EncodeUnescapedText` | src/Ionomy.ts:43 | text made only of ASCII alphanumerics and `*-._` is written unchanged |
| `FormUrlencoded.EncodeMarketName` | src/Ionomy.ts:43 | the market name `BTC-LTC` is written unchanged |
| `FormUrlencoded.EncodeReservedExample` | src/Ionomy.ts:43 | `a b&~` is written `a+b%26%7E`: space as plus, upper-case hex escapes |
| `FormUrlencoded.EncodeNonAsciiExample` | src/Ionomy.ts:43 | `é` is written `%C3%A9`, one escape per UTF-8 byte |
| `Ionomy.NewClient` | src/Ionomy.ts:32-39 | the base URL is `https://ionomy.com/api/v1/` when `api` is empty and `api` verbatim otherwise, so it is never empty; key and secret are kept as given; keep-alive is on when omitted or `true` and off only when `false` is passed |
| `Ionomy.Stringify` | src/Ionomy.ts:43 | each parameter keeps its name and position, and its value becomes `String(value)` |
| `Ionomy.Query` | src/Ionomy.ts:43 | the query is empty exactly when there are no parameters |
| `Ionomy.Canonical` | src/Ionomy.ts:42-46 | with no parameters the signed string is `baseURL + path + decimal(ts)`; otherwise it is `baseURL + path + "?" + query + decimal(ts)`, with no separator before the timestamp |
| `Ionomy.RequestSignature` | src/Ionomy.ts:42-47 | the signature, sent as the token beside its timestamp, passes the recomputation from path, params and time (see also `Ionomy.AuthHeaders` and `Ionomy.SignedHeadersVerify`) |
| `Ionomy.AuthHeaders` | src/Ionomy.ts:50-59 | with both credentials the headers are exactly `api-auth-time` (the signed timestamp), `api-auth-key` (the key) and `api-auth-token` (the signature); otherwise there are none |
| `Ionomy.Unwrap` | src/Ionomy.ts:60-64 | success exactly when the envelope says so; `data` returned verbatim (absent stays absent); on failure the error is `message`, or the empty string when it is absent |
| `Ionomy.Request` | src/Ionomy.ts:49-65 | the GET goes to the endpoint with the given params; a signed request carries headers that pass the exchange's check against that path and those params; an unsigned one carries no headers; the reply is the unwrapped envelope |
| `Ionomy.UnwrapRespond` | src/Ionomy.ts:60-64 | unwrapping inverts the exchange's encoding of an outcome |
| `Ionomy.SignedHeadersVerify` | src/Ionomy.ts:42-59 | the token is the digest, keyed by the API secret, of the canonical string built from the time header, so signed headers pass the exchange's recomputation; headers are empty exactly when a credential is empty |
| `Ionomy.StringifyInjective` | src/Ionomy.ts:43 | equal query strings come only from equal name/text lists |
| `Ionomy.CanonicalDeterminesParams` | src/Ionomy.ts:43-46 | for a fixed base URL, path and timestamp, the signed string determines every name, every value text and their order |
| `Ionomy.OrderMatters` | src/Ionomy.ts:43-46 | `[(a,1),(b,2)]` and `[(b,2),(a,1)]` give different signed strings |
| `Ionomy.MarketsCanonical` | src/Ionomy.ts:43-46 | a parameterless request at time 1000 signs `baseURL + "public/markets" + "1000"` |
| `Ionomy.TimestampAbutsQuery` | src/Ionomy.ts:44-46 | `a=1` at time 23 and `a=12` at time 3 sign the same string, because nothing separates the query from the timestamp |
| `Endpoints.Markets` | src/Ionomy.ts:68-70 | agrees with the table form with no fields: always succeeds, routing to `public/markets` with no params |
| `Endpoints.Currencies` | src/Ionomy.ts:72-74 | agrees with the table form with no fields: always succeeds, routing to `public/currencies` with no params |
| `Endpoints.MarketSummaries` | src/Ionomy.ts:82-84 | agrees with the table form with no fields: always succeeds, routing to `public/markets-summaries` with no params |
| `Endpoints.Balances` | src/Ionomy.ts:122-124 | agrees with the table form with no fields: always succeeds, routing to `account/balances` with no params |
| `Endpoints.FirstMissing` | src/Ionomy.ts:96-99 | the index of the first falsy field: every earlier field is truthy, and the field there is falsy |
| `Endpoints.Required` | src/Ionomy.ts:96-101 | table form of the checks: success exactly when every field is truthy, and then the fields are the params; otherwise the error names the first falsy field |
| `Endpoints.OrderBook` | src/Ionomy.ts:76-79 | an empty market fails with `market is required` before the type is looked at; success exactly when the type is omitted or is `ask`, `bid` or `both`; params are exactly `market` then `type`, with an omitted type sent as `both`; the refusal text lists the accepted sides |
| `Endpoints.OrderBookAsWritten` | src/Ionomy.ts:76-79 | the same acceptance as `OrderBook`, with the refusal text `type must be one of: asks, bids, both` |
| `Endpoints.MarketSummary` | src/Ionomy.ts:86-89 | fails with `market is required` on an empty market; otherwise `public/market-summary` with only `market` |
| `Endpoints.MarketHistory` | src/Ionomy.ts:91-94 | fails with `market is required` on an empty market; otherwise `public/market-history` with only `market` |
| `Endpoints.LimitBuy` | src/Ionomy.ts:96-102 | checks market, amount and price in that order, a zero counting as missing, and names the first missing one; otherwise `market/buy-limit` with exactly those three params in that order |
| `Endpoints.LimitSell` | src/Ionomy.ts:104-110 | like `LimitBuy`, at `market/sell-limit` |
| `Endpoints.CancelOrder` | src/Ionomy.ts:112-115 | fails with `orderId is required` on an empty id; otherwise `market/cancel-order` with only `orderId` |
| `Endpoints.OpenOrders` | src/Ionomy.ts:117-120 | fails with `market is required` on an empty market; otherwise `market/open-orders` with only `market` |
| `Endpoints.Balance` | src/Ionomy.ts:126-129 | fails with `currency is required` on an empty currency; otherwise `account/balance` with only `currency` |
| `Endpoints.DepositAddress` | src/Ionomy.ts:131-134 | fails with `currency is required` on an empty currency; otherwise `account/deposit-address` with only `currency` |
| `Endpoints.DepositHistory` | src/Ionomy.ts:136-139 | fails with `currency is required` on an empty currency; otherwise `account/deposit-history` with only `currency` |
| `Endpoints.Withdraw` | src/Ionomy.ts:141-147 | checks currency, amount and address in that order, a zero amount counting as missing, and names the first missing one; otherwise `account/withdraw` with exactly those three params in that order |
| `Endpoints.WithdrawalHistory` | src/Ionomy.ts:149-152 | fails with `currency is required` on an empty currency; otherwise `account/withdrawal-history` with only `currency` |
| `Endpoints.Order` | src/Ionomy.ts:154-157 | fails with `orderId is required` on an empty id; otherwise `account/order` with only `orderId` |
| `Endpoints.OrderHistory` | src/Ionomy.ts:159-162 | fails with `market is required` on an empty market; otherwise `account/order-history` with only `market` |
| `Endpoints.Invoke` | src/Ionomy.ts:49-65 | a failed check throws its message and sends nothing; a passed check performs exactly the `request` for the route's path and params: with both credentials the headers are the time (`ts`), the key and a token that passes the recomputation; otherwise no headers; it settles with the unwrapped envelope |
| `Endpoints.ParameterlessAreTableDriven` | src/Ionomy.ts:68-124 | `markets`, `currencies`, `marketSummaries` and `balances` always request their fixed path with no params |
| `Endpoints.OneFieldAreTableDriven` | src/Ionomy.ts:86-162 | each one-argument method agrees with the table form: it checks exactly the parameter it sends |
| `Endpoints.ThreeFieldAreTableDriven` | src/Ionomy.ts:96-147 | `limitBuy`, `limitSell` and `withdraw` agree with the table form: they check their fields in the order they send them |
| `Endpoints.RefusalIsBeforeIo` | src/Ionomy.ts:96-101 | a refused call is the same whatever the clock, signer and transport would have done |
| `Endpoints.EmptyMarketRefused` | src/Ionomy.ts:96-101 | `limitBuy` with an empty market, amount 1 and price 1 throws `market is required` and sends nothing |
| `Endpoints.OrderBookListsAcceptedSides` | src/Ionomy.ts:78 | a side is accepted exactly when it is one of those the refusal text lists |
| `Endpoints.AsWrittenRefusesListedSide` | src/Ionomy.ts:78 | as written, `asks` is refused with a text that lists `asks`; neither `asks` nor `bids` is accepted |
| `Endpoints.CorrectionOnlyChangesText` | src/Ionomy.ts:76-79 | the corrected and the as-written `orderBook` accept the same calls with the same route, and agree on the market check |
| `Endpoints.BuyAndSellDiffer` | src/Ionomy.ts:96-110 | buying and selling send the same params to different paths |

## Left out

- HMAC-SHA512 and its hex digest are the `hmac` parameter. No property of the digest is used.
- The clock is the `ts` parameter.
- The HTTP GET is the `get` parameter, a total function from the outgoing request to a parsed envelope. Other parts of the transport are not modelled:
  - the https agent built from `keepAlive` (the flag and its `true` default are kept only as a configuration field);
  - async/await;
  - transport errors, which the code lets propagate unchanged;
  - the query string that axios writes from `params` on its own.
  The model does not claim that this query string equals the signed one.
- Parsing the response as JSON is not modelled. `success` is a boolean, so truthiness of a non-boolean `success` is not modelled.
- Amounts and prices are modelled as integers, so fractional values are left out. So are `NaN` (which is falsy) and the exponent notation `String` uses from 1e21 upwards.
- `Decimal.IntToDecimal`: gives the exact digits of any integer. JavaScript numbers are doubles, so this matches `String(n)` only for magnitudes below 2^53. Integers beyond ±2^53 are not modelled: some of them do not exist as numbers, and others print with zero padding. `±Infinity` is not modelled either; it is truthy, passes the amount and price checks, and serialises as `Infinity`.
- An omitted string or number argument is modelled as `""` or `0`. Both are falsy, so the checks behave the same. `orderBook`'s `type` is an `Option`, because only an omitted (`undefined`) type takes the default. An explicit `""` is refused.
- `null` and other non-string arguments are not modelled.
- Lone UTF-16 surrogates are not modelled, because a Dafny `char` cannot hold one. `URLSearchParams` replaces them with U+FFFD.
- Parameter objects keep insertion order. That holds for all of the client's parameter names, since none looks like an array index.
- `FormUrlencoded.Parse` is a strict inverse used in the proofs, not the lenient parser of section 5.1 of the WHATWG URL Standard.

## Findings

| source | as written | input that shows it | evidently intended | confidence | as-written member | corrected member |
|---|---|---|---|---|---|---|
| src/Ionomy.ts:78 | on a bad `type`, the error text says `type must be one of: asks, bids, both`, but the check accepts only `ask`, `bid` and `both` | `orderBook({market: "BTC-LTC", type: "asks"})` is refused with a text that names `asks` as allowed | the text lists the values the check accepts: `type must be one of: ask, bid, both` | medium, not executed | `Endpoints.OrderBookAsWritten` | `Endpoints.OrderBook` |

`Endpoints.AsWrittenRefusesListedSide` proves the discrepancy.
`Endpoints.OrderBookListsAcceptedSides` proves the corrected text right.
The accepted set itself is unchanged.
