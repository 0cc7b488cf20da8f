/** `handleAnalyzeProduct`: marks the user active, acknowledges, fetches the product
    from the configured endpoint, and answers with the analysis message (as the caption
    of the product photo when there is one); any failure gives one generic error reply.
    The database, the HTTP exchange and the Telegram sends are inputs and outputs: the
    handler returns the events it causes, in order. */
module AnalyzeProduct {
  import opened Wrappers
  import opened JsValue
  import opened PriceFormatting
  import opened AffiliateLink

  // The endpoint

  /** `baseUrl.replace(/\/$/, '')`: one trailing '/' removed, if there is one. */
  function StripTrailingSlash(s: string): (r: string)
    ensures s == r || s == r + "/"
    ensures s == r <==> s == [] || s[|s| - 1] != '/'
  {
    if s != [] && s[|s| - 1] == '/' then
      assert s == s[..|s| - 1] + "/";
      s[..|s| - 1]
    else s
  }

  /** ALIEXPRESS_API_BASE_URL, ALIEXPRESS_API_KEY and AFFILIATE_ID, each possibly unset. */
  datatype AnalyzeConfig = AnalyzeConfig(baseUrl: Option<string>, apiKey: Option<string>, affiliateId: Option<string>)

  predicate Set(v: Option<string>) {
    v.Some? && v.value != ""
  }

  /** The product endpoint of `fetchProductData`, or None when the base URL or the API
      key is unset or empty, in which case it throws before any request. */
  function FetchEndpoint(config: AnalyzeConfig): (r: Option<string>)
    ensures r.Some? <==> Set(config.baseUrl) && Set(config.apiKey)
    ensures r.Some? ==> var b := config.baseUrl.value;
                        && (b[|b| - 1] == '/' ==> r.value == b[..|b| - 1] + "/product")
                        && (b[|b| - 1] != '/' ==> r.value == b + "/product")
  {
    if Set(config.baseUrl) && Set(config.apiKey) then
      Some(StripTrailingSlash(config.baseUrl.value) + "/product")
    else None
  }

  // The analysis message

  /** `Number(v || 0)`. */
  function NumberOrZero(v: Option<Json>, parse: string -> Number): (r: Number)
    ensures !Truthy(v) ==> r == Finite(0.0)
  {
    if Truthy(v) then ToNumber(v, parse) else Finite(0.0)
  }

  /** `Number(productData[key] || 0)`. */
  function FieldNumber(data: Option<Json>, key: string, parse: string -> Number): Number {
    NumberOrZero(Get(data, key), parse)
  }

  /** `+` on numbers: NaN absorbs. */
  function Add(a: Number, b: Number): Number {
    if a.NaN? || b.NaN? then NaN else Finite(a.value + b.value)
  }

  /** `globalCoupon + sellerCoupon`. */
  function Coupons(data: Option<Json>, parse: string -> Number): Number {
    Add(FieldNumber(data, "global_coupon", parse), FieldNumber(data, "seller_coupon", parse))
  }

  /** The figures the message shows. */
  datatype Figures = Figures(price: Number, shipping: Number, coupons: Number, finalPrice: real)

  function ProductFigures(data: Option<Json>, parse: string -> Number): (f: Figures)
    ensures f.finalPrice >= 0.0
  {
    var price := FieldNumber(data, "price", parse);
    var shipping := FieldNumber(data, "shipping_to_dz", parse);
    var coupons := Coupons(data, parse);
    Figures(price, shipping, coupons, CalculateFinalPrice(price, shipping, coupons))
  }

  /** The fixed texts of the analysis message: the heading, the labels of its lines,
      the closing notice, the heading of the purchase link, the title placeholder and
      the currency name. */
  datatype Wording = Wording(
    header: string, idLabel: string, titleLabel: string, pricesHeader: string,
    priceLabel: string, shippingLabel: string, couponsLabel: string, finalHeader: string,
    finalArrow: string, notice: string, linkHeader: string, placeholder: string, currency: string)

  /** The handler's Arabic texts. */
  const Arabic := Wording(
    "✅ تم تحليل رابط المنتج بنجاح.\n\n",
    "معرّف المنتج (productId): ",
    "اسم المنتج: ",
    "🔹 الأسعار بالتفصيل:\n",
    "• السعر الأساسي: ",
    "• تكلفة الشحن إلى الجزائر: ",
    "• مجموع الكوبونات المطبقة: ",
    "💰 السعر النهائي التقريبي بعد احتساب الشحن والكوبونات:\n",
    "→ ",
    "ℹ️ تنبيه مهم:\n"
    + "- قد تختلف الأسعار الفعلية والكوبونات المتاحة حسب حسابك، والمنطقة، وتاريخ الشراء.\n"
    + "- يرجى التأكد من التفاصيل النهائية مباشرة داخل موقع AliExpress قبل إتمام الطلب.\n\n",
    "🔗 رابط الشراء (قد يحتوي على تتبع أفلييت):\n",
    "منتج بدون اسم محدد",
    "دولار أمريكي")

  /** `productData.title || placeholder`, rendered by a template literal; `show` renders
      a value that is not a string. */
  function Title(w: Wording, data: Option<Json>, show: Json -> string): (r: string)
    ensures !Truthy(Get(data, "title")) ==> r == w.placeholder
  {
    var t := Get(data, "title");
    if !Truthy(t) then w.placeholder
    else if t.value.JString? then t.value.s
    else show(t.value)
  }

  /** A figure with two decimals and the currency name. */
  function Amount(w: Wording, x: Number, toFixed: (Number, nat) -> string): string {
    toFixed(x, 2) + " " + w.currency
  }

  /** The message without the purchase-link block. */
  function Body(w: Wording, productId: string, data: Option<Json>, parse: string -> Number,
                show: Json -> string, toFixed: (Number, nat) -> string): string {
    var f := ProductFigures(data, parse);
    w.header
    + (w.idLabel + productId + "\n")
    + (w.titleLabel + Title(w, data, show) + "\n\n")
    + w.pricesHeader
    + (w.priceLabel + Amount(w, f.price, toFixed) + "\n")
    + (w.shippingLabel + Amount(w, f.shipping, toFixed) + "\n")
    + (w.couponsLabel + Amount(w, f.coupons, toFixed) + "\n\n")
    + w.finalHeader
    + (w.finalArrow + Amount(w, Finite(f.finalPrice), toFixed) + "\n\n")
    + w.notice
  }

  /** The whole message for a link: the body, then the purchase-link block when the link
      is not empty. */
  function Message(w: Wording, productId: string, data: Option<Json>, affiliateLink: string,
                   parse: string -> Number, show: Json -> string, toFixed: (Number, nat) -> string): string {
    if affiliateLink != "" then Body(w, productId, data, parse, show, toFixed) + w.linkHeader + affiliateLink + "\n"
    else Body(w, productId, data, parse, show, toFixed)
  }

  /** `buildArabicAnalysisMessage({ productId, productData, affiliateLink })`, with the
      fixed texts `w`. */
  method BuildArabicAnalysisMessage(w: Wording, productId: string, data: Option<Json>, affiliateLink: string,
                                    parse: string -> Number, show: Json -> string,
                                    toFixed: (Number, nat) -> string) returns (message: string)
    ensures message == Message(w, productId, data, affiliateLink, parse, show, toFixed)
  {
    var price := FieldNumber(data, "price", parse);
    var shipping := FieldNumber(data, "shipping_to_dz", parse);
    var globalCoupon := FieldNumber(data, "global_coupon", parse);
    var sellerCoupon := FieldNumber(data, "seller_coupon", parse);
    var totalCoupons := Add(globalCoupon, sellerCoupon);
    var finalPrice := CalculateFinalPrice(price, shipping, totalCoupons);
    var title := Title(w, data, show);

    message := w.header;
    message := message + (w.idLabel + productId + "\n");
    message := message + (w.titleLabel + title + "\n\n");
    message := message + w.pricesHeader;
    message := message + (w.priceLabel + Amount(w, price, toFixed) + "\n");
    message := message + (w.shippingLabel + Amount(w, shipping, toFixed) + "\n");
    message := message + (w.couponsLabel + Amount(w, totalCoupons, toFixed) + "\n\n");
    message := message + w.finalHeader;
    message := message + (w.finalArrow + Amount(w, Finite(finalPrice), toFixed) + "\n\n");
    message := message + w.notice;
    if affiliateLink != "" {
      message := message + w.linkHeader;
      message := message + affiliateLink + "\n";
    }
  }

  /** The purchase-link block: the heading and the link on a line of its own, or nothing
      when the link is empty. */
  function LinkBlock(w: Wording, affiliateLink: string): (r: string)
    ensures r == "" <==> affiliateLink == ""
  {
    if affiliateLink != "" then w.linkHeader + affiliateLink + "\n" else ""
  }

  /** The message is the body followed by the link block: the link is shown exactly when
      it is not empty, after the fixed closing notice. */
  lemma MessageShape(w: Wording, productId: string, data: Option<Json>, affiliateLink: string,
                     parse: string -> Number, show: Json -> string, toFixed: (Number, nat) -> string)
    ensures Message(w, productId, data, affiliateLink, parse, show, toFixed)
            == Body(w, productId, data, parse, show, toFixed) + LinkBlock(w, affiliateLink)
  {
    if affiliateLink != "" {
      var body := Body(w, productId, data, parse, show, toFixed);
      AppendAssoc(body + w.linkHeader, affiliateLink, "\n");
      AppendAssoc(body, w.linkHeader, affiliateLink + "\n");
      AppendAssoc(w.linkHeader, affiliateLink, "\n");
    }
  }

  lemma AppendAssoc(a: string, b: string, c: string)
    ensures a + b + c == a + (b + c)
  {
  }

  /** The value a field is read as when it holds the number x, or is absent or falsy and
      x is 0. */
  predicate ReadsAs(v: Option<Json>, x: real) {
    v == Some(JNumber(x)) || (!Truthy(v) && x == 0.0)
  }

  /** `Number(a || 0) + Number(b || 0)`, as the coupon total adds the global and the seller
      coupon: numbers add up, and an absent or falsy value counts as 0. */
  lemma CouponTotal(globalCoupon: Option<Json>, sellerCoupon: Option<Json>, parse: string -> Number, g: real, c: real)
    requires ReadsAs(globalCoupon, g) && ReadsAs(sellerCoupon, c)
    ensures Add(NumberOrZero(globalCoupon, parse), NumberOrZero(sellerCoupon, parse)) == Finite(g + c)
  {
  }

  /** The handler always has a purchase link: `buildAffiliateLink` never gives "", so the
      link block always ends the message the handler sends. */
  lemma AffiliateLinkNotEmpty(productId: string, env: Option<string>)
    ensures BuildAffiliateLink(productId, env) != ""
  {
    var r := BuildAffiliateLink(productId, env);
    if AffiliateId(env) == "" {
      assert r == "https://www.aliexpress.com/item/" + productId + ".html";
      assert r[0] == 'h';
    }
  }

  // The handler

  /** What the handler does, in order: the activity update, the fixed acknowledgement,
      the GET of the product endpoint (with the product id, the country and currency
      parameters and the bearer key), the answer, and the fixed generic error reply. */
  datatype Event =
    | MarkActive(chatId: int)
    | Acknowledge
    | Fetch(url: string, productId: string, country: string, currency: string, authorization: string)
    | SendText(text: string)
    | SendPhoto(photo: Json, caption: string)
    | GenericError

  /** The answer for a product: the photo with the message as caption when `image_url`
      is truthy, the message alone otherwise. */
  function Answer(data: Option<Json>, message: string): (e: Event)
    ensures e.SendPhoto? <==> Truthy(Get(data, "image_url"))
    ensures e.SendPhoto? ==> Some(e.photo) == Get(data, "image_url") && e.caption == message
    ensures e.SendText? || e.SendPhoto?
    ensures e.SendText? ==> e.text == message
  {
    var image := Get(data, "image_url");
    if Truthy(image) then SendPhoto(image.value, message) else SendText(message)
  }

  /** Reading a property of undefined or null throws. */
  predicate Nullish(data: Option<Json>) {
    data.None? || data == Some(JNull)
  }

  /** The product data was fetched and can be read. */
  predicate Answered(activityOk: bool, config: AnalyzeConfig, response: Result<Option<Json>, string>) {
    activityOk && FetchEndpoint(config).Some? && response.Success? && !Nullish(response.value)
  }

  /** The answer to fetched product data: the analysis message with the purchase link. */
  function ProductAnswer(w: Wording, productId: string, data: Option<Json>, config: AnalyzeConfig,
                         parse: string -> Number, show: Json -> string, toFixed: (Number, nat) -> string): Event {
    Answer(data, Message(w, productId, data, BuildAffiliateLink(productId, config.affiliateId), parse, show, toFixed))
  }

  /** The answer to a fetched product: the analysis message with the purchase link, sent
      as the caption of the product photo or on its own, and the generic error reply when
      that send fails. */
  method AnswerProduct(w: Wording, productId: string, productData: Option<Json>, config: AnalyzeConfig, sendOk: bool,
                       parse: string -> Number, show: Json -> string, toFixed: (Number, nat) -> string)
    returns (events: seq<Event>)
    ensures var answer := ProductAnswer(w, productId, productData, config, parse, show, toFixed);
            events == if sendOk then [answer] else [answer, GenericError]
  {
    var affiliateLink := BuildAffiliateLink(productId, config.affiliateId);
    var message := BuildArabicAnalysisMessage(w, productId, productData, affiliateLink, parse, show, toFixed);
    var image := Get(productData, "image_url");
    var answer := if Truthy(image) then SendPhoto(image.value, message) else SendText(message);
    if sendOk {
      events := [answer];
    } else {
      events := [answer, GenericError];
    }
  }

  /** The GET request of `fetchProductData`. */
  function FetchOf(config: AnalyzeConfig, productId: string): Event
    requires FetchEndpoint(config).Some?
  {
    Fetch(FetchEndpoint(config).value, productId, "DZ", "USD", "Bearer " + config.apiKey.value)
  }

  /** Everything the handler does, in order: the events of every path through its `try`
      and its `catch`. */
  function HandlerEvents(w: Wording, chatId: int, productId: string, config: AnalyzeConfig, activityOk: bool,
                         response: Result<Option<Json>, string>, sendOk: bool,
                         parse: string -> Number, show: Json -> string, toFixed: (Number, nat) -> string): seq<Event> {
    if !activityOk then [MarkActive(chatId), GenericError]
    else if FetchEndpoint(config).None? then [MarkActive(chatId), Acknowledge, GenericError]
    else if response.Failure? || Nullish(response.value) then
      [MarkActive(chatId), Acknowledge, FetchOf(config, productId), GenericError]
    else
      var answer := ProductAnswer(w, productId, response.value, config, parse, show, toFixed);
      [MarkActive(chatId), Acknowledge, FetchOf(config, productId)]
      + (if sendOk then [answer] else [answer, GenericError])
  }

  /** `handleAnalyzeProduct(ctx, { productId, url })` with the fixed texts `w`. Inputs:
      whether the activity update succeeds, the reply of the product endpoint, and whether
      the answer is delivered; the acknowledgement is taken to be delivered. */
  method HandleAnalyzeProduct(w: Wording, chatId: int, productId: string, config: AnalyzeConfig, activityOk: bool,
                              response: Result<Option<Json>, string>, sendOk: bool,
                              parse: string -> Number, show: Json -> string, toFixed: (Number, nat) -> string)
    returns (events: seq<Event>)
    ensures events == HandlerEvents(w, chatId, productId, config, activityOk, response, sendOk, parse, show, toFixed)
  {
    events := [MarkActive(chatId)];
    if !activityOk {
      events := events + [GenericError];
      return;
    }
    events := events + [Acknowledge];
    var endpoint := FetchEndpoint(config);
    if endpoint.None? {
      events := events + [GenericError];
      return;
    }
    events := events + [Fetch(endpoint.value, productId, "DZ", "USD", "Bearer " + config.apiKey.value)];
    if response.Failure? || Nullish(response.value) {
      events := events + [GenericError];
      return;
    }
    assert events == [MarkActive(chatId), Acknowledge, FetchOf(config, productId)];
    var answer := AnswerProduct(w, productId, response.value, config, sendOk, parse, show, toFixed);
    events := events + answer;
  }

  /** The handler first marks the user active; when that fails it only replies with the
      generic error, and otherwise it acknowledges next. */
  lemma HandlerStarts(w: Wording, chatId: int, productId: string, config: AnalyzeConfig, activityOk: bool,
                      response: Result<Option<Json>, string>, sendOk: bool,
                      parse: string -> Number, show: Json -> string, toFixed: (Number, nat) -> string)
    ensures var es := HandlerEvents(w, chatId, productId, config, activityOk, response, sendOk, parse, show, toFixed);
            && |es| >= 2 && es[0] == MarkActive(chatId)
            && (!activityOk ==> es == [MarkActive(chatId), GenericError])
            && (activityOk ==> es[1] == Acknowledge)
  {
  }

  /** A request is made exactly when the activity update succeeds and the endpoint is
      configured, and it is the third event. */
  lemma HandlerFetches(w: Wording, chatId: int, productId: string, config: AnalyzeConfig, activityOk: bool,
                       response: Result<Option<Json>, string>, sendOk: bool,
                       parse: string -> Number, show: Json -> string, toFixed: (Number, nat) -> string)
    ensures var es := HandlerEvents(w, chatId, productId, config, activityOk, response, sendOk, parse, show, toFixed);
            && ((exists k :: 0 <= k < |es| && es[k].Fetch?) <==> activityOk && FetchEndpoint(config).Some?)
            && (activityOk && FetchEndpoint(config).Some? ==> |es| >= 3 && es[2] == FetchOf(config, productId))
  {
    var es := HandlerEvents(w, chatId, productId, config, activityOk, response, sendOk, parse, show, toFixed);
    if activityOk && FetchEndpoint(config).Some? {
      assert es[2].Fetch?;
    } else {
      assert forall k :: 0 <= k < |es| ==> !es[k].Fetch?;
    }
  }

  /** Readable product data is answered, right after the request, with the analysis
      message that ends with the purchase link. */
  lemma HandlerAnswers(w: Wording, chatId: int, productId: string, config: AnalyzeConfig, activityOk: bool,
                       response: Result<Option<Json>, string>, sendOk: bool,
                       parse: string -> Number, show: Json -> string, toFixed: (Number, nat) -> string)
    requires Answered(activityOk, config, response)
    ensures var es := HandlerEvents(w, chatId, productId, config, activityOk, response, sendOk, parse, show, toFixed);
            && |es| >= 4
            && es[3] == Answer(response.value, Body(w, productId, response.value, parse, show, toFixed)
                                               + LinkBlock(w, BuildAffiliateLink(productId, config.affiliateId)))
  {
    MessageShape(w, productId, response.value, BuildAffiliateLink(productId, config.affiliateId), parse, show, toFixed);
  }

  /** The generic error reply ends the events exactly when some step failed. */
  lemma HandlerErrorLast(w: Wording, chatId: int, productId: string, config: AnalyzeConfig, activityOk: bool,
                         response: Result<Option<Json>, string>, sendOk: bool,
                         parse: string -> Number, show: Json -> string, toFixed: (Number, nat) -> string)
    ensures var es := HandlerEvents(w, chatId, productId, config, activityOk, response, sendOk, parse, show, toFixed);
            |es| >= 1 && (es[|es| - 1] == GenericError <==> !(Answered(activityOk, config, response) && sendOk))
  {
  }

  /** The generic error reply is sent at most once: no event but the last is one. */
  lemma HandlerErrorOnce(w: Wording, chatId: int, productId: string, config: AnalyzeConfig, activityOk: bool,
                         response: Result<Option<Json>, string>, sendOk: bool,
                         parse: string -> Number, show: Json -> string, toFixed: (Number, nat) -> string)
    ensures var es := HandlerEvents(w, chatId, productId, config, activityOk, response, sendOk, parse, show, toFixed);
            forall k :: 0 <= k < |es| - 1 ==> es[k] != GenericError
  {
    if Answered(activityOk, config, response) {
      var answer := ProductAnswer(w, productId, response.value, config, parse, show, toFixed);
      assert answer.SendText? || answer.SendPhoto?;
      ErrorOnlyAfter([MarkActive(chatId), Acknowledge, FetchOf(config, productId), answer], sendOk);
    }
  }

  lemma ErrorOnlyAfter(prefix: seq<Event>, sendOk: bool)
    requires GenericError !in prefix
    ensures var es := prefix + (if sendOk then [] else [GenericError]);
            forall k :: 0 <= k < |es| - 1 ==> es[k] != GenericError
  {
    var es := prefix + (if sendOk then [] else [GenericError]);
    forall k | 0 <= k < |es| - 1 ensures es[k] != GenericError {
      assert es[k] == prefix[k];
    }
  }
}
