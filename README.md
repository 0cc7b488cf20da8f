# AliExpress affiliate bot: a verified model of its link, request, price and broadcast logic

The bot receives messages on Telegram. It finds the first `http(s)://` link in a message, extracts an
AliExpress product id from it, fetches the product's data, and answers with an Arabic analysis message.
The message holds the prices, the coupons, a final price and a purchase link, which may carry an
affiliate id. An administrator can also broadcast a text to every subscribed user, in batches with a
pause between them. A small client signs requests to the AliExpress Open Platform and reads the product
out of its reply envelope.

This project models that logic in Dafny and proves what the code promises about it. It has these modules:

- `JsText`: JavaScript's `trim`, the ASCII part of `toLowerCase`, and `match(/\d{6,}/)`.
- `PercentEncoding`: UTF-8 encoding and decoding, `encodeURIComponent` and `decodeURIComponent`.
- `Base16`: the upper-case hexadecimal alphabet of section 8 of RFC 4648.
- `UrlParser`: the part of the URL Standard's parser that `new URL` applies to an `http(s)` link. It covers:
  - the host and its domain check;
  - the path state with "." and "..";
  - the query with `URLSearchParams` decoding.
- `ProductId`: `extractProductId`.
- `ValidateLink`: `validateLink`.
- `AffiliateLink`: `buildAffiliateLink`.
- `JsValue`: JSON values with `undefined`, truthiness and property access.
- `PriceFormatting`: `calculateFinalPrice`, `formatCurrencyUSD` and `formatPercentage`.
- `AliexpressClient`: `generateSignature`, `callAliexpressAPI` and `getProductDetails`.
- `AnalyzeProduct`: the endpoint of `fetchProductData`, `buildArabicAnalysisMessage` and `handleAnalyzeProduct`.
- `Broadcast`: `sendBroadcast`.

Some things the source computes with come from outside it. Each becomes a parameter of the member that
needs it:
- the HMAC-SHA256 digest, `JSON.parse`, `Number` on strings and `toFixed`;
- the clock (`Date.now()`);
- the replies of the HTTP endpoints and of Telegram;
- the success of the database update.

The Arabic texts of the analysis message are a `Wording` value; the constant `AnalyzeProduct.Arabic`
holds the source's texts. Methods return the requests and messages they would send, as effect lists,
instead of sending them.

Two loops of the source are kept as loops:
- the `forEach` that builds the string to sign;
- the batching loop of the broadcast.

The `+=` steps that build the analysis message are kept as a method of appends.

Each such method is proved equal to a specification function, and the properties are proved about that
function.

## Model

| member | source | states |
|---|---|---|
| JsText.TrimStart | src/bot/utils/extractProductId.js:24 | the result is a suffix of the input; everything removed is white space; the result does not start with white space |
| JsText.TrimEnd | src/bot/utils/extractProductId.js:24 | the result is a prefix of the input; everything removed is white space; the result does not end with white space |
| JsText.TrimIdentity | src/bot/handlers/validateLink.js:10 | a text with no white space at either end is its own trim |
| JsText.ToLower | src/bot/utils/extractProductId.js:29 | same length, no upper-case letter left, every other character unchanged |
| JsText.RunEnd | src/bot/utils/extractProductId.js:15 | the end of the digit run that starts at i: all digits before it, none at it |
| JsText.FindLongRun | src/bot/utils/extractProductId.js:15 | the leftmost position at or after `from` where six digits begin, and none before it; nothing exactly when there is none |
| JsText.MatchLongRun | src/bot/utils/extractProductId.js:15 | a match exists exactly when six consecutive digits occur; it is the leftmost maximal run, at least six digits long |
| JsText.MatchAllDigits | src/bot/utils/extractProductId.js:45 | a string of six or more digits is its own match |
| JsText.RunEndOfDigits | src/bot/utils/extractProductId.js:45 | a run of digits that reaches the end of the text ends there |
| JsValue.MemberLast | src/bot/utils/aliexpressClient.js:118 | a property read finds the last member with that name, as `JSON.parse` keeps the last duplicate, and nothing when no member has that name |
| Base16.HexDigit | src/bot/utils/aliexpressClient.js:36-37 | every value below 16 has an upper-case digit |
| Base16.HexValue | src/bot/utils/aliexpressClient.js:36-37 | a character has a value exactly when it is a hexadecimal digit of either case, and the value is below 16 |
| Base16.HexValueOfDigit | src/bot/utils/aliexpressClient.js:36-37 | the value of the digit of n is n |
| Base16.Hex2 | src/bot/utils/aliexpressClient.js:36-37 | a byte becomes two upper-case digits |
| Base16.Encode | src/bot/utils/aliexpressClient.js:36-37 | the text is twice as long as the digest and every character is in 0-9A-F |
| Base16.DecodeEncode | src/bot/utils/aliexpressClient.js:36-37 | decoding the upper-case text gives back the digest, so nothing is lost |
| PercentEncoding.Utf8 | src/bot/utils/buildAffiliateLink.js:16 | one to four bytes; one byte exactly for ASCII, and then its code; every later byte is a continuation byte |
| PercentEncoding.SequenceLength | src/bot/utils/buildAffiliateLink.js:16 | a lead byte announces at most four bytes |
| PercentEncoding.LeadByteLength | src/bot/utils/buildAffiliateLink.js:16 | the first byte of an encoding announces the encoding's length |
| PercentEncoding.Utf8Decode | src/bot/utils/buildAffiliateLink.js:16 | only a byte sequence that is exactly the encoding of the decoded character is accepted |
| PercentEncoding.Utf8RoundTrip | src/bot/utils/buildAffiliateLink.js:16 | decoding the encoding of any character gives it back |
| PercentEncoding.PercentBytes | src/bot/utils/buildAffiliateLink.js:16 | three characters per byte, each '%' or an upper-case digit |
| PercentEncoding.EncodeURIComponent | src/bot/utils/buildAffiliateLink.js:16 | the output holds only unreserved characters and '%' |
| PercentEncoding.EncodeSafeIdentity | src/bot/utils/buildAffiliateLink.js:16 | a text made only of unreserved characters is not changed |
| PercentEncoding.ReadBytes | src/bot/utils/buildAffiliateLink.js:16 | reading n "%XX" triples yields n bytes from the first 3n characters |
| PercentEncoding.ReadPercentBytes | src/bot/utils/buildAffiliateLink.js:16 | the triples written for some bytes read back as those bytes |
| PercentEncoding.DecodeOneChar | src/bot/utils/buildAffiliateLink.js:16 | decoding consumes exactly the encoding of one character and yields that character |
| PercentEncoding.DecodeEncodeComponent | src/bot/utils/buildAffiliateLink.js:16 | `decodeURIComponent(encodeURIComponent(s)) == s` for every string |
| UrlParser.IndexOfAny | src/bot/utils/extractProductId.js:29 | the first position holding a stop character, or the length; no stop character before it |
| UrlParser.SplitAny | src/bot/utils/extractProductId.js:39 | at least one piece; every piece is drawn from the input and holds no separator |
| UrlParser.AfterLast | src/bot/utils/extractProductId.js:31 | the suffix after the last c; it holds no c; it is the whole text when c does not occur |
| UrlParser.TrimEndC0 | src/bot/utils/extractProductId.js:29 | a prefix of the input, and the whole input when it ends in a printable character |
| UrlParser.RemoveTabNewline | src/bot/utils/extractProductId.js:29 | the characters kept come from the input; an input without tab or newline is unchanged |
| UrlParser.SkipSlashes | src/bot/utils/extractProductId.js:29 | a suffix of the input that does not start with '/' or '\\' |
| UrlParser.EncodePathSegment | src/bot/utils/extractProductId.js:39 | a segment with nothing to encode is unchanged, and no '/' is introduced |
| UrlParser.ResolvePath | src/bot/utils/extractProductId.js:39 | segments without '/' stay without '/' through "." and ".." handling |
| UrlParser.HostOf | src/bot/utils/extractProductId.js:31 | a host is returned only when it is a valid domain |
| UrlParser.PathOf | src/bot/utils/extractProductId.js:39 | no path segment holds a '/' |
| UrlParser.QueryText | src/bot/utils/extractProductId.js:10 | the query text is drawn from what follows the host |
| UrlParser.Pathname | src/bot/utils/extractProductId.js:39 | a non-empty path list renders as a text that starts with '/' |
| UrlParser.ParseAuthority | src/bot/utils/extractProductId.js:29-31 | a parsed URL has a valid domain as host and a path list without '/' in any segment |
| UrlParser.Parse | src/bot/utils/extractProductId.js:29-31 | the same for `new URL` applied to a lower-case http(s) link |
| UrlParser.SplitPathname | src/bot/utils/extractProductId.js:39 | `pathname.split('/')` gives back the path list behind one empty piece |
| UrlParser.HostOfPlain | src/bot/utils/extractProductId.js:31 | an authority without user info or port is its own host when it is a valid domain |
| UrlParser.ParseProductPage | src/bot/utils/buildAffiliateLink.js:10 | the product page of a digit id parses to host www.aliexpress.com, path ["item", id + ".html"] and an empty query |
| UrlParser.ParsePlainNames | src/bot/utils/extractProductId.js:29 | a lower-case link without '%' parses to a query whose names hold no upper-case letter |
| ProductId.Get | src/bot/utils/extractProductId.js:13-14 | `params.get` finds a value exactly when `params.has` holds, and the value is that of the first pair with the name |
| ProductId.FromQuery | src/bot/utils/extractProductId.js:9-19 | a result of the query tier is at least six digits |
| ProductId.FromQueryFirst | src/bot/utils/extractProductId.js:9-19 | the query tier gives the run of the first key, in list order, that yields one; it gives nothing exactly when no key yields a run; a present key without a run does not stop the scan |
| ProductId.NonEmptyKeeps | src/bot/utils/extractProductId.js:39 | `filter(Boolean)` keeps only non-empty pieces, each from the input, and changes nothing when none is empty |
| ProductId.IndexOf | src/bot/utils/extractProductId.js:42 | `indexOf('item')`: the first position holding "item", or the length when there is none |
| ProductId.FirstSegmentRun | src/bot/utils/extractProductId.js:50-53 | a result of the segment tier is at least six digits |
| ProductId.FirstSegmentRunFirst | src/bot/utils/extractProductId.js:50-53 | the segment tier gives the run of the leftmost segment that has one, and nothing exactly when no segment has one |
| ProductId.FromUrl | src/bot/utils/extractProductId.js:38-59 | a result of the three tiers is at least six digits |
| ProductId.LowerScheme | src/bot/utils/extractProductId.js:25-29 | a link that passes the case-insensitive scheme test starts with http:// or https:// once lower-cased |
| ProductId.ParseLink | src/bot/utils/extractProductId.js:23-29 | a URL is returned exactly when the trimmed link passes the scheme test and its lower-cased form parses, and then it is that parse |
| ProductId.ExtractWith | src/bot/utils/extractProductId.js:22-63 | any result is a run of at least six digits |
| ProductId.ExtractProductId | src/bot/utils/extractProductId.js:22-63 | any result is a run of at least six digits; the function is total, so no input throws |
| ProductId.PathPartsOf | src/bot/utils/extractProductId.js:39 | the parts split from `pathname` are the non-empty segments of the path list |
| ProductId.ItemRunAfter | src/bot/utils/extractProductId.js:42-47 | after the first "item", a non-empty segment gives its run and an empty one gives nothing |
| ProductId.ItemTierWins | src/bot/utils/extractProductId.js:42-47 | when the segment after the first "item" has a run, that run is the result, whatever earlier segments and the query hold |
| ProductId.EmptySegmentsIgnored | src/bot/utils/extractProductId.js:39 | leaving out the empty segments does not change the segment tier |
| ProductId.PathThenQuery | src/bot/utils/extractProductId.js:50-57 | without an item run, the leftmost segment run wins, and the query is consulted only when no segment has a run |
| ProductId.QueryLastResort | src/bot/utils/extractProductId.js:38-59 | when any segment has a run the result is a segment run; when none has, the result is the query tier's; every result comes from one segment or one key's value |
| ProductId.AliHostSubsumed | src/bot/utils/extractProductId.js:32 | the host test passes exactly when the host contains "aliexpress.com"; the "a." and "m." tests add nothing |
| ProductId.LookalikeHostAccepted | src/bot/utils/extractProductId.js:32-36 | any host that starts with "aliexpress.com", such as aliexpress.com.example.org, passes |
| ProductId.ExtractSource | src/bot/utils/extractProductId.js:22-63 | a result needs the scheme and a parsed URL whose host contains "aliexpress.com", and it is the run of one path segment or of one key's value |
| ProductId.SchemeRequired | src/bot/utils/extractProductId.js:24-27 | a link whose trimmed form fails the scheme test has no product id |
| ProductId.NoCamelName | src/bot/utils/extractProductId.js:13 | a key with an upper-case letter is never found among lower-case names |
| ProductId.LowerNamesQuery | src/bot/utils/extractProductId.js:11-16 | with lower-case names only, the five keys give what sku_id and spm alone give |
| ProductId.LinkNamesLower | src/bot/utils/extractProductId.js:29 | a link without '%' parses to query names that are all lower case |
| ProductId.CamelKeysUnreachable | src/bot/utils/extractProductId.js:11 | for a link without '%', extraction with the five keys equals extraction with sku_id and spm only |
| ValidateLink.NonSpaceEnd | src/bot/handlers/validateLink.js:13 | the end of the non-space run at i: no white space before it, white space or the end at it |
| ValidateLink.MatchAt | src/bot/handlers/validateLink.js:13 | a match at i ends after i and within the text |
| ValidateLink.FindFrom | src/bot/handlers/validateLink.js:14 | the leftmost matching position at or after `from`; nothing exactly when none matches |
| ValidateLink.FindUrlFirst | src/bot/handlers/validateLink.js:13-20 | the link is the match at the leftmost matching position, and there is none exactly when the pattern matches nowhere |
| ValidateLink.Validate | src/bot/handlers/validateLink.js:9-33 | one notice exactly on failure; no_url exactly when there is no link; not_aliexpress_or_no_product_id exactly when the first link has no id; on success the url is the first link and the id is its extraction |
| ValidateLink.NoTextNoUrl | src/bot/handlers/validateLink.js:10-18 | a missing or empty message gives no_url and one notice |
| ValidateLink.UrlShape | src/bot/handlers/validateLink.js:13-20 | the link starts with http:// or https:// in any case, holds no white space, and ends at white space or at the end of the text |
| ValidateLink.LaterUrlsIgnored | src/bot/handlers/validateLink.js:14-20 | text appended after the first link and a white space does not change the link found |
| AffiliateLink.BuildAffiliateLink | src/bot/utils/buildAffiliateLink.js:6-19 | without an affiliate id: the product page. With one: the deep-link prefix, the id verbatim, `&dl_target_url=`, then the product page percent-encoded, which decodes back to the product page |
| AffiliateLink.EncodedTargetIsOpaque | src/bot/utils/buildAffiliateLink.js:16 | the deep link's `dl_target_url` value holds none of ':', '/', '?', '&', '=', '#' |
| AffiliateLink.MatchDigitsBeforeDot | src/bot/utils/extractProductId.js:45 | the run in "id.html" is the id |
| AffiliateLink.BaseUrlIsPlain | src/bot/utils/extractProductId.js:24-29 | the product page is its own trim, passes the scheme test and is already lower case |
| AffiliateLink.ProductHostAccepted | src/bot/utils/extractProductId.js:32 | the host of the product page passes the host test |
| AffiliateLink.PageLink | src/bot/utils/buildAffiliateLink.js:10 | the product page is read as host www.aliexpress.com with path ["item", id + ".html"] and no query |
| AffiliateLink.PageRun | src/bot/utils/extractProductId.js:42-46 | the three tiers read the id back from that URL |
| AffiliateLink.AffiliateLinkRoundTrip | src/bot/utils/buildAffiliateLink.js:10-14 | without an affiliate id, extracting from the link of an id of six or more digits gives the id |
| PriceFormatting.CalculateFinalPrice | src/bot/utils/priceFormatting.js:23-29 | never negative; at least p + s - c; equal to 0 or to p + s - c, with NaN counted as 0 |
| PriceFormatting.FinalPriceCases | src/bot/utils/priceFormatting.js:27 | p + s - c when that is not negative, 0 otherwise |
| PriceFormatting.NaNCountsAsZero | src/bot/utils/priceFormatting.js:24-26 | a value that is not a number counts as 0, in each position |
| PriceFormatting.FinalPriceMonotone | src/bot/utils/priceFormatting.js:27 | more price or shipping never lowers the result; more coupon never raises it |
| PriceFormatting.FormatCurrencyUSD | src/bot/utils/priceFormatting.js:5-9 | the "unavailable" text exactly for null, undefined or NaN input |
| PriceFormatting.FormatPercentage | src/bot/utils/priceFormatting.js:11-15 | the "unavailable" text exactly for null, undefined or NaN input |
| AliexpressClient.Keys | src/bot/utils/aliexpressClient.js:21 | `Object.keys`: one key per property, in order |
| AliexpressClient.Lookup | src/bot/utils/aliexpressClient.js:26 | `params[key]` is found exactly when the key is present, and it is a value of that key |
| AliexpressClient.AssignKeys | src/bot/utils/aliexpressClient.js:62-68 | an assigned key keeps its place when present and is appended otherwise |
| AliexpressClient.AssignLookup | src/bot/utils/aliexpressClient.js:62-68 | after an assignment the key reads the new value and every other key is unchanged |
| AliexpressClient.SpreadLookup | src/bot/utils/aliexpressClient.js:62 | the merge is right-biased: a key of the right object reads its value, any other key the left one's |
| AliexpressClient.SpreadKeys | src/bot/utils/aliexpressClient.js:62 | the merged keys are distinct and are exactly the keys of either side |
| AliexpressClient.StrLessTotal | src/bot/utils/aliexpressClient.js:21 | two different strings are ordered one way or the other |
| AliexpressClient.StrLessTransitive | src/bot/utils/aliexpressClient.js:21 | the string order is transitive |
| AliexpressClient.Insert | src/bot/utils/aliexpressClient.js:21 | inserting adds the element and keeps all others |
| AliexpressClient.Sort | src/bot/utils/aliexpressClient.js:21 | `.sort()` returns a permutation of its input |
| AliexpressClient.SortAscending | src/bot/utils/aliexpressClient.js:21 | the sorted distinct keys are strictly ascending |
| AliexpressClient.AscendingUnique | src/bot/utils/aliexpressClient.js:21 | two ascending lists with the same elements are equal |
| AliexpressClient.SortedKeysComplete | src/bot/utils/aliexpressClient.js:21 | every key is signed once, in ascending order; no key is skipped |
| AliexpressClient.LookupFirst | src/bot/utils/aliexpressClient.js:26 | `params[key]` is the value of the first property named key |
| AliexpressClient.Signature | src/bot/utils/aliexpressClient.js:19-40 | 64 characters, each in 0-9A-F |
| AliexpressClient.GenerateSignature | src/bot/utils/aliexpressClient.js:19-40 | the loop builds the string to sign, the API name then every key and its value in ascending key order, and the result is its signature. An unset secret is an error |
| AliexpressClient.SignatureOrderIndependent | src/bot/utils/aliexpressClient.js:21-30 | the string to sign does not depend on the insertion order of the properties |
| AliexpressClient.CheckEnvelope | src/bot/utils/aliexpressClient.js:77-83 | the reply is an error exactly when it and its `error_response` are truthy; the error carries `error_response.msg` when that is truthy and "Unknown error" otherwise; otherwise the data passes unchanged |
| AliexpressClient.CallAliexpressAPI | src/bot/utils/aliexpressClient.js:48-88 | the request goes to the gateway with the merged and signed parameters, and the outcome is the envelope check of the reply. With no secret, no request is made and the call fails |
| AliexpressClient.BaseParamsDistinct | src/bot/utils/aliexpressClient.js:52-59 | the base properties have distinct keys |
| AliexpressClient.SignedRequest | src/bot/utils/aliexpressClient.js:52-68 | the final parameters have distinct keys. `sign` holds the signature over the merged parameters. Every other key reads the caller's value when the caller gives one, and the base value otherwise. No other key appears |
| AliexpressClient.BaseDefaults | src/bot/utils/aliexpressClient.js:55-58 | sign_method sha256, format json, v 2.0, method the API name |
| AliexpressClient.ExtractProduct | src/bot/utils/aliexpressClient.js:112-125 | failures are "no product data" or a parse error; a falsy `resp_result` is "no product data" |
| AliexpressClient.GetProductDetails | src/bot/utils/aliexpressClient.js:98-126 | the request carries the product-detail API name and parameters, signed; the outcome is the extraction from the checked reply |
| AliexpressClient.ErrorResponseThrows | src/bot/utils/aliexpressClient.js:77-81 | a reply with a truthy `error_response` is an API error, and no product is read from it |
| AliexpressClient.EnvelopeResult | src/bot/utils/aliexpressClient.js:112-117 | the envelope built around a result passes the checks and carries that result |
| AliexpressClient.StringOrObjectSame | src/bot/utils/aliexpressClient.js:117-121 | the product is the same whether the result arrives as JSON text or as the object it denotes |
| AliexpressClient.ProductArrayCases | src/bot/utils/aliexpressClient.js:120-125 | no `products` or no `products.product` fails; an empty product array gives `undefined`; otherwise the first product |
| AnalyzeProduct.StripTrailingSlash | src/bot/handlers/analyzeProduct.js:32 | at most one trailing '/' is removed, and one is removed exactly when the text ends in '/' |
| AnalyzeProduct.FetchEndpoint | src/bot/handlers/analyzeProduct.js:28-32 | an endpoint exists exactly when the base URL and the key are set, and it is the base followed by "/product", with the base's trailing '/' removed when it ends in one |
| AnalyzeProduct.NumberOrZero | src/bot/handlers/analyzeProduct.js:49-52 | an absent or falsy field reads as 0 |
| AnalyzeProduct.CouponTotal | src/bot/handlers/analyzeProduct.js:51-53 | the coupon total is the sum of the two coupon fields, each 0 when absent or falsy |
| AnalyzeProduct.ProductFigures | src/bot/handlers/analyzeProduct.js:49-55 | the final price shown is never negative |
| AnalyzeProduct.Title | src/bot/handlers/analyzeProduct.js:57 | a falsy title is shown as the placeholder |
| AnalyzeProduct.BuildArabicAnalysisMessage | src/bot/handlers/analyzeProduct.js:48-83 | the message built by successive appends is the specified message |
| AnalyzeProduct.LinkBlock | src/bot/handlers/analyzeProduct.js:77-80 | the link block is empty exactly when the link is |
| AnalyzeProduct.MessageShape | src/bot/handlers/analyzeProduct.js:60-82 | the message is the body followed by the link block, so the link block is there exactly when the link is non-empty, and it ends the message |
| AnalyzeProduct.AffiliateLinkNotEmpty | src/bot/handlers/analyzeProduct.js:95 | the link the handler builds is never empty, so its message always ends with the link block |
| AnalyzeProduct.Answer | src/bot/handlers/analyzeProduct.js:102-108 | a photo exactly when `image_url` is truthy, with that photo and the message as caption; otherwise the message as text |
| AnalyzeProduct.AnswerProduct | src/bot/handlers/analyzeProduct.js:95-108 | the answer for the product, followed by the generic error reply when that send fails |
| AnalyzeProduct.HandleAnalyzeProduct | src/bot/handlers/analyzeProduct.js:85-116 | the effects of the handler are those of the path its inputs select, as the specification function lists them |
| AnalyzeProduct.HandlerStarts | src/bot/handlers/analyzeProduct.js:89-91 | the user is marked active first; a failed update gives only the generic error reply; otherwise the acknowledgement comes next |
| AnalyzeProduct.HandlerFetches | src/bot/handlers/analyzeProduct.js:28-43 | a request is made exactly when the activity update succeeds and the endpoint is configured, and it comes right after the acknowledgement, with country DZ, currency USD and the bearer key |
| AnalyzeProduct.HandlerAnswers | src/bot/handlers/analyzeProduct.js:93-108 | readable product data is answered right after the request, with the body and the block of the link built for the product |
| AnalyzeProduct.HandlerErrorLast | src/bot/handlers/analyzeProduct.js:109-115 | the generic error reply ends the effects exactly when some step failed |
| AnalyzeProduct.HandlerErrorOnce | src/bot/handlers/analyzeProduct.js:109-115 | the generic error reply appears only as the last effect, so at most once |
| Broadcast.Delivered | src/bot/handlers/broadcast.js:33-35 | the deliveries counted are at most the sends |
| Broadcast.SendBatch | src/bot/handlers/broadcast.js:26-48 | the counters after a batch are the deliveries and failures so far, and the batch's effects are the specified ones |
| Broadcast.SendBroadcast | src/bot/handlers/broadcast.js:14-57 | the report holds the deliveries, the failures (the rest) and the number of users, so sent + failed == total; the effects are the specified batches |
| Broadcast.BatchProjections | src/bot/handlers/broadcast.js:28-46 | a batch sends to its users in order, unsubscribes exactly those refused with 403 or 400, and does not pause |
| Broadcast.BatchesStep | src/bot/handlers/broadcast.js:25-53 | the batches from i are the batch of at most b users at i followed by the batches after it |
| Broadcast.BatchesSends | src/bot/handlers/broadcast.js:25-48 | every user from i on is sent to once, in order; those refused with 403 or 400 are unsubscribed |
| Broadcast.BatchesSleeps | src/bot/handlers/broadcast.js:51-53 | with k pauses from i, k * b < n - i <= (k + 1) * b |
| Broadcast.BroadcastEffects | src/bot/handlers/broadcast.js:25-56 | every user is sent the text once, in order, whatever the outcomes; exactly the refused users are unsubscribed; an empty list does nothing; otherwise the pauses number one less than the batches |

## Left out

- Network, Telegram and the database are left out. The HTTP replies, the send outcomes, the result of the activity update and the list of subscribers are inputs. The 15000 ms timeouts and all logging are not modelled.
- HMAC-SHA256, `JSON.parse`, `Date.now()`, `Number` on strings and `toFixed` are parameters. Prices are reals: neither the infinities nor the rounding of binary floating point are modelled.
- `PriceFormatting.ToNumber` takes arrays and objects as NaN. `Number([])` is 0 and `Number([5])` is 5 in JavaScript; the model does not follow this.
- `UrlParser.Parse` covers domains only. IPv4 and IPv6 hosts, IDNA mapping, percent-decoding of hosts and "#" fragments beyond cutting them off are not modelled; an IPv4 host is taken as a failure, which the extractor rejects either way.
- `JsText.ToLower` lower-cases ASCII letters only. JavaScript also lower-cases other scripts.
- Lone UTF-16 surrogates cannot occur in a Dafny string. With one, `encodeURIComponent` throws; that case is not modelled.
- `AliexpressClient.Sort` compares characters by code point. JavaScript compares UTF-16 code units; the orders differ only between characters above U+FFFF and those in U+E000..U+FFFF.
- `AliexpressClient.Keys` lists properties in insertion order. `Object.keys` puts integer-like keys first, but the order is sorted afterwards either way.
- `AliexpressClient.CallAliexpressAPI` returns the request with every property. axios leaves out properties whose value is `undefined` (an unset app key) when it builds the query string.
- The warning printed at start-up when the app key or secret is missing is not modelled. An unset secret makes signing fail; an unset app key is sent as `undefined`.
- `Broadcast.SendBroadcast` requires a whole batch size of at least 1. In the source a batch size of 0 or below loops forever, a non-numeric one sends nothing and reports every user as neither sent nor failed, and a fractional one makes `slice` round its bounds.
- `Broadcast.SendBroadcast` sends within a batch one after another. In the source `Promise.all` maps every user of the batch through an `async` function, so every `sendMessage` of the batch starts before any `markUserUnsubscribed`, and the unsubscribes run in the order the sends complete. The model's interleaving (the send to one user, then that user's unsubscribe, then the next send) and the order of the unsubscribed ids in `Broadcast.BroadcastEffects` are therefore not captured. Within a batch, only the set of unsubscribed ids carries over to the source, and so do the sends and their order of starting. A `markUserUnsubscribed` that throws is not modelled either; in the source it makes the whole broadcast reject.
- `UrlParser.FormDecode` replaces each percent-escape of an invalid or truncated UTF-8 sequence with one U+FFFD. The WHATWG UTF-8 decoder behind `URLSearchParams` gives one U+FFFD per maximal subpart: `%E2%82` gives two in the model and one in the source. Runs of ASCII digits decode the same either way, so the extracted id does not change.
- `AliexpressClient.CheckEnvelope` returns the message of the API error as a JSON value. The thrown message's `AliExpress API Error: ` prefix and the template literal's conversion of the value to text are not modelled.
- `AliexpressClient.GetProductDetails` takes the currency, language and country as parameters. The source's defaults `'USD'`, `'AR'` and `'DZ'` for omitted arguments are not modelled.
- `AnalyzeProduct.HandleAnalyzeProduct` takes the acknowledgement reply as delivered. In the source a failed acknowledgement also ends in the generic error reply, and a failure of that last reply is unhandled.
- `AnalyzeProduct.CouponTotal` is stated on the values of the two coupon fields rather than on the product object.
- `AnalyzeProduct.Title` renders a title that is not a string with the parameter `show`.
- The texts of the analysis message are the `Wording` parameter of `AnalyzeProduct.Message`, and `AnalyzeProduct.Arabic` holds the source's texts. The replies of src/bot/handlers/unsupportedLink.js and the generic error are event tags.
- `ProductId.CamelKeysUnreachable` holds only for links without '%'. The query parser percent-decodes names after the link is lower-cased, so a name written `product%49d` becomes `productId` and is found.
- The wiring in src/bot/bot.js that passes the result of `validateLink` to `handleAnalyzeProduct` is not part of this model, nor are the server, the admin panel and the database queries.
