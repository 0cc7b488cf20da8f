/** The AliExpress Open Platform client: request signing (`generateSignature`), the
    parameter merge and error-envelope check of `callAliexpressAPI`, and the product
    extraction of `getProductDetails`. HMAC-SHA256, `JSON.parse`, the clock and the
    HTTP exchange are parameters. */
module AliexpressClient {
  import opened Wrappers
  import opened Base16
  import opened JsValue

  // Parameter objects

  /** A parameter value: a string, or `undefined` (an unset environment variable). */
  datatype Value = Str(s: string) | Undefined

  /** `String(value)`, as `key + params[key]` renders it. */
  function ValueText(v: Value): string {
    match v
    case Str(s) => s
    case Undefined => "undefined"
  }

  /** A plain object: its properties in insertion order. */
  type Params = seq<(string, Value)>

  function Keys(p: Params): (ks: seq<string>)
    ensures |ks| == |p| && forall i :: 0 <= i < |p| ==> ks[i] == p[i].0
  {
    if p == [] then [] else [p[0].0] + Keys(p[1..])
  }

  predicate DistinctKeys(p: Params) {
    forall i, j :: 0 <= i < j < |p| ==> p[i].0 != p[j].0
  }

  /** `params[key]`. */
  function Lookup(p: Params, key: string): (r: Option<Value>)
    ensures r.None? <==> key !in Keys(p)
    ensures r.Some? ==> (key, r.value) in p
  {
    if p == [] then None
    else if p[0].0 == key then Some(p[0].1)
    else
      assert Keys(p) == [p[0].0] + Keys(p[1..]);
      Lookup(p[1..], key)
  }

  /** `{ ...o, [key]: v }`: an existing property keeps its place and takes the new value;
      a new one goes last. */
  function Assign(o: Params, key: string, v: Value): Params {
    if o == [] then [(key, v)]
    else if o[0].0 == key then [(key, v)] + o[1..]
    else [o[0]] + Assign(o[1..], key, v)
  }

  /** An assigned key keeps its place when present and is appended otherwise. */
  lemma {:induction false} AssignKeys(o: Params, key: string, v: Value)
    ensures Keys(Assign(o, key, v)) == if key in Keys(o) then Keys(o) else Keys(o) + [key]
  {
    if o != [] {
      assert Keys(o) == [o[0].0] + Keys(o[1..]);
      if o[0].0 != key {
        AssignKeys(o[1..], key, v);
        var rest := Assign(o[1..], key, v);
        assert Keys([o[0]] + rest) == [o[0].0] + Keys(rest);
      } else {
        assert Keys(Assign(o, key, v)) == [key] + Keys(o[1..]);
      }
    }
  }

  /** `{ ...a, ...b }`: b's properties assigned onto a, in b's order. */
  function Spread(a: Params, b: Params): Params
    decreases |b|
  {
    if b == [] then a else Spread(Assign(a, b[0].0, b[0].1), b[1..])
  }

  lemma {:induction false} AssignLookup(o: Params, key: string, v: Value, k: string)
    ensures Lookup(Assign(o, key, v), k) == if k == key then Some(v) else Lookup(o, k)
  {
    if o != [] && o[0].0 != key {
      AssignLookup(o[1..], key, v, k);
    }
  }

  lemma AssignDistinct(o: Params, key: string, v: Value)
    requires DistinctKeys(o)
    ensures DistinctKeys(Assign(o, key, v))
  {
    var r := Assign(o, key, v);
    AssignKeys(o, key, v);
    forall i, j | 0 <= i < j < |r| ensures r[i].0 != r[j].0 {
      assert Keys(r)[i] == r[i].0 && Keys(r)[j] == r[j].0;
      assert Keys(o)[..|o|] == Keys(o);
      if i < |o| && j < |o| {
        assert Keys(o)[i] == o[i].0 && Keys(o)[j] == o[j].0;
      } else {
        assert key !in Keys(o) && Keys(r)[j] == key;
      }
    }
  }

  /** The merge is right-biased: a key of b takes b's value, any other key keeps a's. */
  lemma {:induction false} SpreadLookup(a: Params, b: Params, k: string)
    requires DistinctKeys(b)
    ensures Lookup(Spread(a, b), k) == if k in Keys(b) then Lookup(b, k) else Lookup(a, k)
    decreases |b|
  {
    if b != [] {
      assert Keys(b) == [b[0].0] + Keys(b[1..]);
      assert DistinctKeys(b[1..]);
      SpreadLookup(Assign(a, b[0].0, b[0].1), b[1..], k);
      AssignLookup(a, b[0].0, b[0].1, k);
      if k == b[0].0 {
        assert k !in Keys(b[1..]);
      }
    }
  }

  lemma {:induction false} SpreadKeys(a: Params, b: Params)
    requires DistinctKeys(a)
    ensures DistinctKeys(Spread(a, b))
    ensures forall k :: k in Keys(Spread(a, b)) <==> k in Keys(a) || k in Keys(b)
    decreases |b|
  {
    if b != [] {
      var a' := Assign(a, b[0].0, b[0].1);
      AssignDistinct(a, b[0].0, b[0].1);
      AssignKeys(a, b[0].0, b[0].1);
      SpreadKeys(a', b[1..]);
      assert Keys(b) == [b[0].0] + Keys(b[1..]);
    }
  }

  // Key order

  /** `<` on strings: lexicographic by character. */
  predicate StrLess(a: string, b: string) {
    if a == [] then b != []
    else if b == [] then false
    else if a[0] != b[0] then a[0] < b[0]
    else StrLess(a[1..], b[1..])
  }

  lemma {:induction false} StrLessIrreflexive(a: string)
    ensures !StrLess(a, a)
  {
    if a != [] { StrLessIrreflexive(a[1..]); }
  }

  lemma {:induction false} StrLessTransitive(a: string, b: string, c: string)
    requires StrLess(a, b) && StrLess(b, c)
    ensures StrLess(a, c)
  {
    if a != [] && b != [] && c != [] && a[0] == b[0] && b[0] == c[0] {
      StrLessTransitive(a[1..], b[1..], c[1..]);
    }
  }

  lemma {:induction false} StrLessTotal(a: string, b: string)
    requires a != b
    ensures StrLess(a, b) || StrLess(b, a)
  {
    if a != [] && b != [] && a[0] == b[0] {
      assert a == [a[0]] + a[1..] && b == [b[0]] + b[1..];
      StrLessTotal(a[1..], b[1..]);
    }
  }

  /** Strictly ascending. */
  predicate Ascending(s: seq<string>) {
    forall i, j :: 0 <= i < j < |s| ==> StrLess(s[i], s[j])
  }

  function Insert(x: string, s: seq<string>): (r: seq<string>)
    ensures multiset(r) == multiset(s) + multiset{x}
  {
    if s == [] || StrLess(x, s[0]) then [x] + s
    else
      assert s == [s[0]] + s[1..];
      [s[0]] + Insert(x, s[1..])
  }

  /** `.sort()`, as an insertion sort: the result is ascending and a permutation. */
  function Sort(s: seq<string>): (r: seq<string>)
    ensures multiset(r) == multiset(s)
  {
    if s == [] then []
    else
      assert s == [s[0]] + s[1..];
      Insert(s[0], Sort(s[1..]))
  }

  lemma {:induction false} InsertAscending(x: string, s: seq<string>)
    requires Ascending(s) && x !in s
    ensures Ascending(Insert(x, s))
  {
    if s != [] && !StrLess(x, s[0]) {
      assert x != s[0];
      StrLessTotal(x, s[0]);
      InsertAscending(x, s[1..]);
      var r := Insert(x, s);
      forall j | 0 < j < |r| ensures StrLess(r[0], r[j]) {
        assert r[j] in multiset(Insert(x, s[1..]));
        assert r[j] == x || r[j] in s[1..];
        if r[j] != x {
          var m :| 0 <= m < |s[1..]| && s[1..][m] == r[j];
          assert s[m + 1] == r[j];
        }
      }
    } else if s != [] {
      var r := Insert(x, s);
      forall i, j | 0 <= i < j < |r| ensures StrLess(r[i], r[j]) {
        if i == 0 && j > 1 {
          StrLessTransitive(x, s[0], s[j - 1]);
        }
      }
    }
  }

  lemma {:induction false} SortAscending(s: seq<string>)
    requires forall i, j :: 0 <= i < j < |s| ==> s[i] != s[j]
    ensures Ascending(Sort(s))
  {
    if s != [] {
      SortAscending(s[1..]);
      assert s[0] !in multiset(Sort(s[1..])) by {
        assert multiset(Sort(s[1..])) == multiset(s[1..]);
        assert s[0] !in s[1..];
      }
      InsertAscending(s[0], Sort(s[1..]));
    }
  }

  lemma AscendingHeads(a: seq<string>, b: seq<string>)
    requires Ascending(a) && Ascending(b) && (forall x :: x in a <==> x in b) && a != []
    ensures b != [] && a[0] == b[0]
  {
    assert a[0] in b;
    var k :| 0 <= k < |b| && b[k] == a[0];
    assert b[0] in a;
    var m :| 0 <= m < |a| && a[m] == b[0];
    if k > 0 {
      assert StrLess(b[0], a[0]);
      if m > 0 {
        StrLessTransitive(a[0], b[0], a[0]);
      }
      StrLessIrreflexive(a[0]);
    }
  }

  lemma AscendingTail(a: seq<string>, x: string)
    requires Ascending(a) && a != [] && x in a[1..]
    ensures x != a[0]
  {
    var m :| 0 <= m < |a[1..]| && a[1..][m] == x;
    assert StrLess(a[0], a[m + 1]);
    StrLessIrreflexive(a[0]);
  }

  /** Two ascending sequences with the same elements are equal. */
  lemma {:induction false} AscendingUnique(a: seq<string>, b: seq<string>)
    requires Ascending(a) && Ascending(b) && forall x :: x in a <==> x in b
    ensures a == b
    decreases |a|
  {
    if a == [] {
      if b != [] {
        AscendingHeads(b, a);
      }
    } else {
      AscendingHeads(a, b);
      assert a == [a[0]] + a[1..] && b == [b[0]] + b[1..];
      forall x ensures x in a[1..] <==> x in b[1..] {
        if x in a[1..] { AscendingTail(a, x); assert x in b; }
        if x in b[1..] { AscendingTail(b, x); assert x in a; }
      }
      AscendingUnique(a[1..], b[1..]);
    }
  }

  // Signing

  /** An HMAC-SHA256 digest: 32 bytes. */
  type Digest = d: seq<Byte> | |d| == 32 witness seq(32, i => 0)

  datatype ClientError =
    | MissingSecret
    | RequestFailed(reason: string)
    | ApiError(message: Json)
    | ParseError
    | NoProductData

  /** `Object.keys(params).sort()`. */
  function SortedKeys(p: Params): seq<string> {
    Sort(Keys(p))
  }

  /** `params[key]` rendered by string concatenation. */
  function Entry(p: Params, key: string): string {
    match Lookup(p, key)
    case None => "undefined"
    case Some(v) => ValueText(v)
  }

  /** `key + params[key]` for each key in turn. */
  function Concatenated(ks: seq<string>, p: Params): string {
    if ks == [] then ""
    else Concatenated(ks[..|ks| - 1], p) + ks[|ks| - 1] + Entry(p, ks[|ks| - 1])
  }

  /** The canonical string: the API name, then every key and its value in ascending key order. */
  function StringToSign(apiName: string, p: Params): string {
    apiName + Concatenated(SortedKeys(p), p)
  }

  /** The signature of a request: the upper-case Base16 form of the HMAC-SHA256 of the
      canonical string under the app secret. */
  function Signature(apiName: string, p: Params, secret: string, hmac: (string, string) -> Digest): (r: string)
    ensures |r| == 64 && forall i :: 0 <= i < |r| ==> IsUpperHex(r[i])
  {
    Encode(hmac(secret, StringToSign(apiName, p)))
  }

  /** `generateSignature(apiName, params)`. An unset secret makes `createHmac` throw. */
  method GenerateSignature(apiName: string, params: Params, secret: Option<string>,
                           hmac: (string, string) -> Digest) returns (r: Result<string, ClientError>)
    ensures secret.None? ==> r == Failure(MissingSecret)
    ensures secret.Some? ==> r == Success(Signature(apiName, params, secret.value, hmac))
  {
    var sortedKeys := SortedKeys(params);
    var concatenated := "";
    var i := 0;
    while i < |sortedKeys|
      invariant 0 <= i <= |sortedKeys|
      invariant concatenated == Concatenated(sortedKeys[..i], params)
    {
      var key := sortedKeys[i];
      assert sortedKeys[..i + 1][..i] == sortedKeys[..i];
      concatenated := concatenated + key + Entry(params, key);
      i := i + 1;
    }
    assert sortedKeys[..|sortedKeys|] == sortedKeys;
    var stringToSign := apiName + concatenated;
    if secret.None? {
      return Failure(MissingSecret);
    }
    r := Success(Encode(hmac(secret.value, stringToSign)));
  }

  /** Every key of a parameter object appears once in the signed order, ascending. */
  lemma SortedKeysComplete(p: Params)
    requires DistinctKeys(p)
    ensures Ascending(SortedKeys(p)) && |SortedKeys(p)| == |p|
    ensures forall k :: k in SortedKeys(p) <==> k in Keys(p)
  {
    SortAscending(Keys(p));
    assert multiset(SortedKeys(p)) == multiset(Keys(p));
    assert |SortedKeys(p)| == |multiset(SortedKeys(p))|;
    forall k ensures k in SortedKeys(p) <==> k in Keys(p) {
      assert k in SortedKeys(p) <==> k in multiset(SortedKeys(p));
    }
  }

  lemma LookupOf(p: Params, k: string, v: Value)
    requires DistinctKeys(p) && (k, v) in p
    ensures Lookup(p, k) == Some(v)
  {
    var i :| 0 <= i < |p| && p[i] == (k, v);
    var w := Lookup(p, k).value;
    var j :| 0 <= j < |p| && p[j] == (k, w);
    assert i == j;
  }

  /** `params[key]` is the value of the first property named key. */
  lemma {:induction false} LookupFirst(p: Params, i: nat, k: string)
    requires i < |p| && p[i].0 == k && forall j :: 0 <= j < i ==> p[j].0 != k
    ensures Lookup(p, k) == Some(p[i].1)
  {
    if i > 0 {
      LookupFirst(p[1..], i - 1, k);
    }
  }

  lemma {:induction false} ConcatenatedSame(ks: seq<string>, p: Params, q: Params)
    requires forall k :: k in ks ==> Lookup(p, k) == Lookup(q, k)
    ensures Concatenated(ks, p) == Concatenated(ks, q)
  {
    if ks != [] {
      assert ks[|ks| - 1] in ks;
      ConcatenatedSame(ks[..|ks| - 1], p, q);
    }
  }

  /** The signature depends on the properties of the object, not on their insertion order. */
  lemma SignatureOrderIndependent(apiName: string, p: Params, q: Params)
    requires DistinctKeys(p) && DistinctKeys(q) && multiset(p) == multiset(q)
    ensures StringToSign(apiName, p) == StringToSign(apiName, q)
  {
    SortedKeysComplete(p);
    SortedKeysComplete(q);
    forall k ensures k in Keys(p) <==> k in Keys(q) {
      if k in Keys(p) { assert (k, Lookup(p, k).value) in multiset(q); }
      if k in Keys(q) { assert (k, Lookup(q, k).value) in multiset(p); }
    }
    AscendingUnique(SortedKeys(p), SortedKeys(q));
    forall k ensures Lookup(p, k) == Lookup(q, k) {
      if Lookup(p, k).Some? {
        assert (k, Lookup(p, k).value) in multiset(q);
        LookupOf(q, k, Lookup(p, k).value);
      }
    }
    ConcatenatedSame(SortedKeys(p), p, q);
  }

  // Requests

  /** The environment the client reads: ALIEXPRESS_APP_KEY, ALIEXPRESS_APP_SECRET,
      ALIEXPRESS_API_GATEWAY and ALIEXPRESS_TRACKING_ID, each possibly unset. */
  datatype Config = Config(appKey: Option<string>, appSecret: Option<string>,
                           gateway: Option<string>, trackingId: Option<string>)

  const DefaultGateway := "https://api-sg.aliexpress.com/sync"

  /** `ALIEXPRESS_API_GATEWAY || default`. */
  function Gateway(config: Config): string {
    if config.gateway.Some? && config.gateway.value != "" then config.gateway.value else DefaultGateway
  }

  /** The properties every request carries; an unset app key stays `undefined`. */
  function BaseParams(appKey: Option<string>, timestamp: string, apiName: string): Params {
    [("app_key", if appKey.Some? then Str(appKey.value) else Undefined),
     ("timestamp", Str(timestamp)),
     ("sign_method", Str("sha256")),
     ("format", Str("json")),
     ("v", Str("2.0")),
     ("method", Str(apiName))]
  }

  /** `{ ...baseParams, ...apiParams }`. */
  function AllParams(config: Config, timestamp: string, apiName: string, apiParams: Params): Params {
    Spread(BaseParams(config.appKey, timestamp, apiName), apiParams)
  }

  /** `{ ...allParams, sign }`, the signature taken over allParams. */
  function FinalParams(config: Config, timestamp: string, apiName: string, apiParams: Params,
                       hmac: (string, string) -> Digest): Params
    requires config.appSecret.Some?
  {
    var all := AllParams(config, timestamp, apiName, apiParams);
    Assign(all, "sign", Str(Signature(apiName, all, config.appSecret.value, hmac)))
  }

  /** The GET request sent to the gateway. */
  datatype Request = Request(gateway: string, params: Params)

  /** What the HTTP exchange gave: the reply body (`response.data`), or the reason it failed. */
  type Reply = Result<Option<Json>, string>

  /** The error-envelope check: a truthy `error_response` turns the reply into an error
      carrying its `msg`, or "Unknown error" when that is falsy. */
  function CheckEnvelope(data: Option<Json>): (r: Result<Option<Json>, ClientError>)
    ensures r.Failure? <==> Truthy(data) && Truthy(Get(data, "error_response"))
    ensures r.Success? ==> r.value == data
    ensures r.Failure? ==> r.error.ApiError? && Truthy(Some(r.error.message))
    ensures r.Failure? && Truthy(Get(Get(data, "error_response"), "msg")) ==>
              Some(r.error.message) == Get(Get(data, "error_response"), "msg")
    ensures r.Failure? && !Truthy(Get(Get(data, "error_response"), "msg")) ==>
              r.error.message == JString("Unknown error")
  {
    if Truthy(data) && Truthy(Get(data, "error_response")) then
      var msg := Get(Get(data, "error_response"), "msg");
      Failure(ApiError(if Truthy(msg) then msg.value else JString("Unknown error")))
    else Success(data)
  }

  /** The outcome of a call, once the request has been signed and sent. */
  function CallOutcome(reply: Reply): Result<Option<Json>, ClientError> {
    if reply.Failure? then Failure(RequestFailed(reply.error)) else CheckEnvelope(reply.value)
  }

  /** `callAliexpressAPI(apiName, apiParams)`. `Date.now()` is the timestamp parameter and
      the HTTP exchange is the reply parameter; the request is returned rather than sent.
      No request is made when signing throws. */
  method CallAliexpressAPI(apiName: string, apiParams: Params, config: Config, timestamp: string,
                           hmac: (string, string) -> Digest, reply: Reply)
    returns (sent: Option<Request>, r: Result<Option<Json>, ClientError>)
    ensures config.appSecret.None? ==> sent.None? && r == Failure(MissingSecret)
    ensures config.appSecret.Some? ==>
              && sent == Some(Request(Gateway(config), FinalParams(config, timestamp, apiName, apiParams, hmac)))
              && r == CallOutcome(reply)
  {
    var baseParams := BaseParams(config.appKey, timestamp, apiName);
    var allParams := Spread(baseParams, apiParams);
    var sign := GenerateSignature(apiName, allParams, config.appSecret, hmac);
    if sign.Failure? {
      return None, Failure(sign.error);
    }
    var finalParams := Assign(allParams, "sign", Str(sign.value));
    sent := Some(Request(Gateway(config), finalParams));
    if reply.Failure? {
      r := Failure(RequestFailed(reply.error));
    } else {
      r := CheckEnvelope(reply.value);
    }
  }

  lemma BaseParamsDistinct(appKey: Option<string>, timestamp: string, apiName: string)
    ensures DistinctKeys(BaseParams(appKey, timestamp, apiName))
  {
  }

  /** The signed request: apiParams override the base properties, the base properties
      apiParams leave out keep their defaults, `sign` holds the signature of the merged
      properties and overrides any `sign` of the caller, and nothing else is added. */
  lemma SignedRequest(config: Config, timestamp: string, apiName: string, apiParams: Params,
                      hmac: (string, string) -> Digest, k: string)
    requires config.appSecret.Some? && DistinctKeys(apiParams)
    ensures var all := AllParams(config, timestamp, apiName, apiParams);
            var base := BaseParams(config.appKey, timestamp, apiName);
            var p := FinalParams(config, timestamp, apiName, apiParams, hmac);
            && DistinctKeys(p)
            && Lookup(p, "sign") == Some(Str(Signature(apiName, all, config.appSecret.value, hmac)))
            && (k != "sign" ==> Lookup(p, k) == if k in Keys(apiParams) then Lookup(apiParams, k) else Lookup(base, k))
            && (k in Keys(p) <==> k == "sign" || k in Keys(base) || k in Keys(apiParams))
  {
    var base := BaseParams(config.appKey, timestamp, apiName);
    var all := AllParams(config, timestamp, apiName, apiParams);
    var sig := Str(Signature(apiName, all, config.appSecret.value, hmac));
    BaseParamsDistinct(config.appKey, timestamp, apiName);
    SpreadKeys(base, apiParams);
    AssignDistinct(all, "sign", sig);
    AssignKeys(all, "sign", sig);
    AssignLookup(all, "sign", sig, "sign");
    AssignLookup(all, "sign", sig, k);
    SpreadLookup(base, apiParams, k);
  }

  /** The base properties that do not vary: `sign_method`, `format`, `v` and `method`. */
  lemma BaseDefaults(appKey: Option<string>, timestamp: string, apiName: string)
    ensures var base := BaseParams(appKey, timestamp, apiName);
            && Lookup(base, "sign_method") == Some(Str("sha256"))
            && Lookup(base, "format") == Some(Str("json"))
            && Lookup(base, "v") == Some(Str("2.0"))
            && Lookup(base, "method") == Some(Str(apiName))
  {
    var base := BaseParams(appKey, timestamp, apiName);
    BaseDefault(base, 2, "sign_method");
    BaseDefault(base, 3, "format");
    BaseDefault(base, 4, "v");
    BaseDefault(base, 5, "method");
  }

  lemma BaseDefault(base: Params, i: nat, k: string)
    requires |base| == 6 && i < 6 && base[i].0 == k
    requires Keys(base) == ["app_key", "timestamp", "sign_method", "format", "v", "method"]
    ensures Lookup(base, k) == Some(base[i].1)
  {
    var ks := Keys(base);
    assert ks[0][0] == 'a' && ks[1][0] == 't' && ks[2][0] == 's' && ks[3][0] == 'f' && ks[4][0] == 'v' && ks[5][0] == 'm';
    forall j | 0 <= j < i ensures base[j].0 != k {
      assert ks[j][0] != ks[i][0];
    }
    LookupFirst(base, i, k);
  }

  // Product details

  const ProductDetailApi := "aliexpress.affiliate.productdetail.get"
  const ProductDetailKey := "aliexpress_affiliate_productdetail_get_response"

  /** The parameters of `getProductDetails`; the tracking id is `TRACKING_ID || ''`. */
  function ProductDetailParams(productId: string, currency: string, language: string, country: string,
                               config: Config): Params {
    [("product_ids", Str(productId)),
     ("target_currency", Str(currency)),
     ("target_language", Str(language)),
     ("country", Str(country)),
     ("tracking_id", Str(if config.trackingId.Some? then config.trackingId.value else ""))]
  }

  /** `typeof result.result === 'string' ? JSON.parse(result.result) : result.result`;
      a text `JSON.parse` rejects throws. */
  function ResultData(result: Option<Json>, parseJson: string -> Option<Json>): Result<Option<Json>, ClientError> {
    match result
    case Some(JString(text)) =>
      (match parseJson(text)
       case None => Failure(ParseError)
       case Some(v) => Success(Some(v)))
    case _ => Success(result)
  }

  /** The product of a reply body: `products.product[0]` of the result, when the envelope,
      its `resp_result`, the result, `products` and `products.product` are all truthy. */
  function ExtractProduct(data: Option<Json>, parseJson: string -> Option<Json>): (r: Result<Option<Json>, ClientError>)
    ensures r.Failure? ==> r.error.NoProductData? || r.error.ParseError?
    ensures !Truthy(Get(Get(data, ProductDetailKey), "resp_result")) ==> r == Failure(NoProductData)
  {
    var envelope := Get(data, ProductDetailKey);
    if !(Truthy(data) && Truthy(envelope) && Truthy(Get(envelope, "resp_result"))) then
      Failure(NoProductData)
    else
      match ResultData(Get(Get(envelope, "resp_result"), "result"), parseJson)
      case Failure(e) => Failure(e)
      case Success(d) =>
        var products := Get(d, "products");
        if Truthy(d) && Truthy(products) && Truthy(Get(products, "product")) then
          Success(Index0(Get(products, "product")))
        else Failure(NoProductData)
  }

  /** The outcome of `getProductDetails`, once the request has been signed and sent. */
  function ProductOutcome(reply: Reply, parseJson: string -> Option<Json>): Result<Option<Json>, ClientError> {
    match CallOutcome(reply)
    case Failure(e) => Failure(e)
    case Success(data) => ExtractProduct(data, parseJson)
  }

  /** `getProductDetails(productId, targetCurrency, targetLanguage, country)`, with the
      defaults "USD", "AR" and "DZ" left to the caller. */
  method GetProductDetails(productId: string, currency: string, language: string, country: string,
                           config: Config, timestamp: string, hmac: (string, string) -> Digest,
                           parseJson: string -> Option<Json>, reply: Reply)
    returns (sent: Option<Request>, r: Result<Option<Json>, ClientError>)
    ensures config.appSecret.None? ==> sent.None? && r == Failure(MissingSecret)
    ensures config.appSecret.Some? ==>
              && sent == Some(Request(Gateway(config),
                   FinalParams(config, timestamp, ProductDetailApi,
                               ProductDetailParams(productId, currency, language, country, config), hmac)))
              && r == ProductOutcome(reply, parseJson)
  {
    var apiParams := ProductDetailParams(productId, currency, language, country, config);
    var response;
    sent, response := CallAliexpressAPI(ProductDetailApi, apiParams, config, timestamp, hmac, reply);
    if response.Failure? {
      return sent, Failure(response.error);
    }
    r := ExtractProduct(response.value, parseJson);
  }

  // Properties of the reply handling

  /** A reply whose `error_response` is truthy is an error, and no product is read from it. */
  lemma ErrorResponseThrows(data: Option<Json>, parseJson: string -> Option<Json>)
    requires Truthy(data) && Truthy(Get(data, "error_response"))
    ensures CallOutcome(Success(data)).Failure? && ProductOutcome(Success(data), parseJson).Failure?
    ensures CallOutcome(Success(data)).error.ApiError?
  {
  }

  /** The smallest reply body holding a given `resp_result.result`. */
  function Envelope(result: Json): Json {
    JObject([(ProductDetailKey, JObject([("resp_result", JObject([("result", result)]))]))])
  }

  lemma EnvelopeResult(result: Json)
    ensures var envelope := Get(Some(Envelope(result)), ProductDetailKey);
            Truthy(envelope) && Truthy(Get(envelope, "resp_result"))
            && Get(Get(envelope, "resp_result"), "result") == Some(result)
  {
  }

  /** The result may arrive as JSON text or as the object it denotes: the product read
      from the reply is the same. */
  lemma StringOrObjectSame(text: string, v: Json, parseJson: string -> Option<Json>)
    requires parseJson(text) == Some(v) && !v.JString?
    ensures ExtractProduct(Some(Envelope(JString(text))), parseJson) == ExtractProduct(Some(Envelope(v)), parseJson)
  {
    EnvelopeResult(JString(text));
    EnvelopeResult(v);
  }

  /** Without `products.product` the call throws; an empty product array passes the
      check and gives `undefined`. */
  lemma ProductArrayCases(items: seq<Json>, parseJson: string -> Option<Json>)
    ensures ExtractProduct(Some(Envelope(JObject([]))), parseJson) == Failure(NoProductData)
    ensures ExtractProduct(Some(Envelope(JObject([("products", JObject([]))]))), parseJson) == Failure(NoProductData)
    ensures var products := JObject([("products", JObject([("product", JArray(items))]))]);
            ExtractProduct(Some(Envelope(products)), parseJson) == Success(if items == [] then None else Some(items[0]))
  {
    EnvelopeResult(JObject([]));
    EnvelopeResult(JObject([("products", JObject([]))]));
    EnvelopeResult(JObject([("products", JObject([("product", JArray(items))]))]));
  }
}
