/** `buildAffiliateLink`: the product page of an id, or, when an affiliate id is
    configured, a deep link that carries the product page percent-encoded. */
module AffiliateLink {
  import opened Wrappers
  import opened JsText
  import opened PercentEncoding
  import opened UrlParser
  import opened ProductId

  const DeepLinkPrefix := "https://s.click.aliexpress.com/deep_link.htm?aff_short_key="
  const TargetKey := "&dl_target_url="

  /** `process.env.AFFILIATE_ID || ''`: unset and empty both give "". */
  function AffiliateId(env: Option<string>): string {
    if env.Some? then env.value else ""
  }

  /** The product page: `https://www.aliexpress.com/item/${productId}.html`. */
  function BaseProductUrl(productId: string): string {
    "https://www.aliexpress.com/item/" + productId + ".html"
  }

  function BuildAffiliateLink(productId: string, env: Option<string>): (r: string)
    ensures AffiliateId(env) == "" ==> r == BaseProductUrl(productId)
    ensures AffiliateId(env) != "" ==>
              && |r| >= |DeepLinkPrefix| + |AffiliateId(env)| + |TargetKey|
              && r[..|DeepLinkPrefix|] == DeepLinkPrefix
              && r[|DeepLinkPrefix|..|DeepLinkPrefix| + |AffiliateId(env)|] == AffiliateId(env)
              && r[|DeepLinkPrefix| + |AffiliateId(env)|..|DeepLinkPrefix| + |AffiliateId(env)| + |TargetKey|] == TargetKey
              && r[|DeepLinkPrefix| + |AffiliateId(env)| + |TargetKey|..] == EncodeURIComponent(BaseProductUrl(productId))
              && DecodeURIComponent(r[|DeepLinkPrefix| + |AffiliateId(env)| + |TargetKey|..]) == Some(BaseProductUrl(productId))
  {
    var affiliateId := AffiliateId(env);
    var baseProductUrl := BaseProductUrl(productId);
    if affiliateId == "" then baseProductUrl
    else
      var encodedTarget := EncodeURIComponent(baseProductUrl);
      var link := DeepLinkPrefix + affiliateId + TargetKey + encodedTarget;
      assert link[|DeepLinkPrefix| + |affiliateId| + |TargetKey|..] == encodedTarget;
      assert link[|DeepLinkPrefix| + |affiliateId|..|DeepLinkPrefix| + |affiliateId| + |TargetKey|] == TargetKey;
      DecodeEncodeComponent(baseProductUrl);
      link
  }

  /** The deep link's target value holds none of the characters that would end the
      query value or start a new parameter: ':', '/', '?', '&', '=', '#'. */
  lemma EncodedTargetIsOpaque(productId: string, env: Option<string>)
    requires AffiliateId(env) != ""
    ensures var r := BuildAffiliateLink(productId, env);
            var t := r[|DeepLinkPrefix| + |AffiliateId(env)| + |TargetKey|..];
            forall i :: 0 <= i < |t| ==> t[i] !in {':', '/', '?', '&', '=', '#'}
  {
    var t := EncodeURIComponent(BaseProductUrl(productId));
    assert forall i :: 0 <= i < |t| ==> t[i] !in {':', '/', '?', '&', '=', '#'};
  }

  lemma MatchDigitsBeforeDot(id: string, tail: string)
    requires |id| >= 6 && AllDigits(id) && tail != [] && !IsDigit(tail[0])
    ensures MatchLongRun(id + tail) == Some(id)
  {
    var s := id + tail;
    assert LongRunAt(s, 0);
    var r := MatchLongRun(s);
    var i, j :| MaximalRun(s, i, j) && r.value == s[i..j] && forall m :: 0 <= m < i ==> !LongRunAt(s, m);
    assert i == 0;
    assert s[|id|] == tail[0];
    assert j == |id|;
    assert s[..|id|] == id;
  }

  lemma PageNoUpper(id: string, page: string)
    requires AllDigits(id) && page == BaseProductUrl(id)
    ensures NoUpper(page)
  {
    var prefix, suffix := "https://www.aliexpress.com/item/", ".html";
    assert NoUpper(prefix) && NoUpper(suffix);
    assert page == prefix + id + suffix;
  }

  lemma PageTrimmed(id: string, page: string)
    requires AllDigits(id) && page == BaseProductUrl(id)
    ensures Trim(page) == page
  {
    assert page[0] == 'h' && page[|page| - 1] == 'l';
    TrimIdentity(page);
  }

  lemma PageScheme(id: string, page: string)
    requires AllDigits(id) && page == BaseProductUrl(id)
    ensures HasHttpSchemeCI(page)
  {
    var scheme := page[..8];
    assert scheme == "https://";
    assert NoUpper(scheme);
    ToLowerIdentity(scheme);
  }

  lemma BaseUrlIsPlain(id: string, page: string)
    requires AllDigits(id) && page == BaseProductUrl(id)
    ensures Trim(page) == page && HasHttpSchemeCI(page) && ToLower(page) == page
  {
    PageTrimmed(id, page);
    PageScheme(id, page);
    PageNoUpper(id, page);
    ToLowerIdentity(page);
  }

  lemma ProductHostAccepted(host: string)
    requires host == ProductHost
    ensures IsAliHost(host)
  {
    assert OccursAt(host, "aliexpress.com", 4);
  }

  lemma PageLink(id: string, page: string)
    requires AllDigits(id) && page == BaseProductUrl(id)
    ensures ParseLink(page) == Some(Url(ProductHost, ["item", id + ".html"], []))
  {
    BaseUrlIsPlain(id, page);
    ParseProductPage(id, page);
  }

  lemma PageRun(id: string, u: Url)
    requires |id| >= 6 && AllDigits(id) && u == Url(ProductHost, ["item", id + ".html"], [])
    ensures FromUrl(u, QueryKeys) == Some(id)
  {
    var seg := id + ".html";
    assert u.path == [] + ["item", seg] + [];
    assert SlashFree(u.path) by {
      DigitsNoneOf(id, {'/'});
      assert '/' !in "item" && '/' !in ".html";
      assert forall c :: c in seg ==> c in id || c in ".html";
    }
    MatchDigitsBeforeDot(id, ".html");
    ItemTierWins(u, QueryKeys, [], seg, []);
  }

  /** Round trip: without an affiliate id, the link of an id of six or more digits
      gives that id back through the extractor, by its item tier. */
  lemma AffiliateLinkRoundTrip(id: string, env: Option<string>)
    requires |id| >= 6 && AllDigits(id) && AffiliateId(env) == ""
    ensures ExtractProductId(BuildAffiliateLink(id, env)) == Some(id)
  {
    var page := BaseProductUrl(id);
    var u := Url(ProductHost, ["item", id + ".html"], []);
    PageLink(id, page);
    ProductHostAccepted(u.host);
    PageRun(id, u);
  }
}
