/** `extractProductId`: the AliExpress product id named by a link, or null (`None`).
    The link is trimmed, must start with http:// or https:// in any case, is
    lower-cased as a whole and parsed; the host must mention "aliexpress.com";
    then three tiers are searched in order: the segment after "item", every path
    segment, and a fixed list of query keys. Each tier takes the first run of six
    or more digits. */
module ProductId {
  import opened Wrappers
  import opened JsText
  import opened UrlParser

  type Query = seq<(string, string)>

  /** The query keys consulted, in the order they are tried. */
  const QueryKeys: seq<string> := ["productId", "itemId", "objId", "sku_id", "spm"]

  /** `params.has(key)`. */
  predicate Has(query: Query, key: string) {
    exists i :: 0 <= i < |query| && query[i].0 == key
  }

  /** `params.get(key)`: the value of the first pair with that name. */
  function Get(query: Query, key: string): (r: Option<string>)
    ensures r.Some? <==> Has(query, key)
    ensures r.Some? ==> exists i :: 0 <= i < |query| && query[i] == (key, r.value)
                                    && forall j :: 0 <= j < i ==> query[j].0 != key
  {
    if query == [] then None
    else if query[0].0 == key then Some(query[0].1)
    else
      var r := Get(query[1..], key);
      assert Has(query, key) ==> Has(query[1..], key) by {
        if Has(query, key) {
          var i :| 0 <= i < |query| && query[i].0 == key;
          assert query[1..][i - 1].0 == key;
        }
      }
      assert r.Some? ==> exists i :: 0 <= i < |query| && query[i] == (key, r.value)
                                     && forall j :: 0 <= j < i ==> query[j].0 != key by {
        if r.Some? {
          var i :| 0 <= i < |query[1..]| && query[1..][i] == (key, r.value)
                   && forall j :: 0 <= j < i ==> query[1..][j].0 != key;
          assert query[i + 1] == (key, r.value);
          forall j | 0 < j < i + 1 ensures query[j].0 != key { assert query[j] == query[1..][j - 1]; }
        }
      }
      r
  }

  /** The run a key yields: none when the key is absent or its value has no run. */
  function KeyRun(query: Query, key: string): Option<string> {
    match Get(query, key)
    case None => None
    case Some(v) => MatchLongRun(v)
  }

  /** `extractProductIdFromQuery`, over a list of keys: the run of the first key, in
      order, that yields one. A key that is present without a run does not stop the scan. */
  function FromQuery(query: Query, keys: seq<string>): (r: Option<string>)
    ensures r.Some? ==> |r.value| >= 6 && AllDigits(r.value)
  {
    if keys == [] then None
    else
      match KeyRun(query, keys[0])
      case Some(run) => Some(run)
      case None => FromQuery(query, keys[1..])
  }

  /** The query tier gives the run of the first key that yields one, and nothing exactly
      when no key does. */
  lemma {:induction false} FromQueryFirst(query: Query, keys: seq<string>)
    ensures var r := FromQuery(query, keys);
            && (r.Some? ==> exists i :: 0 <= i < |keys| && KeyRun(query, keys[i]) == r
                                        && forall j :: 0 <= j < i ==> KeyRun(query, keys[j]).None?)
            && (r.None? <==> forall i :: 0 <= i < |keys| ==> KeyRun(query, keys[i]).None?)
  {
    if keys != [] && KeyRun(query, keys[0]).None? {
      var r := FromQuery(query, keys[1..]);
      FromQueryFirst(query, keys[1..]);
      ShiftedKeys(keys);
      if r.Some? {
        var i :| 0 <= i < |keys[1..]| && KeyRun(query, keys[1..][i]) == r
                 && forall j :: 0 <= j < i ==> KeyRun(query, keys[1..][j]).None?;
        assert KeyRun(query, keys[i + 1]) == r;
      }
    }
  }

  lemma ShiftedKeys(keys: seq<string>)
    requires keys != []
    ensures forall i :: 1 <= i < |keys| ==> keys[i] == keys[1..][i - 1]
  {
  }

  /** `urlObj.pathname.split('/').filter(Boolean)`: the non-empty pieces, in order. */
  function NonEmpty(parts: seq<string>): seq<string> {
    if parts == [] then []
    else if parts[0] == "" then NonEmpty(parts[1..])
    else [parts[0]] + NonEmpty(parts[1..])
  }

  /** The filter keeps the non-empty pieces and only those, and changes nothing when
      no piece is empty. */
  lemma {:induction false} NonEmptyKeeps(parts: seq<string>)
    ensures var r := NonEmpty(parts);
            && (forall i :: 0 <= i < |r| ==> r[i] != "" && r[i] in parts)
            && ((forall i :: 0 <= i < |parts| ==> parts[i] != "") ==> r == parts)
  {
    if parts != [] {
      NonEmptyKeeps(parts[1..]);
      assert forall x :: x in parts[1..] ==> x in parts;
    }
  }

  function PathParts(u: Url): seq<string> {
    NonEmpty(SplitAny(Pathname(u.path), {'/'}))
  }

  /** `pathParts.indexOf('item')`, with |parts| standing for -1. */
  function IndexOf(parts: seq<string>, x: string): (i: nat)
    ensures i <= |parts|
    ensures i < |parts| ==> parts[i] == x
    ensures forall k :: 0 <= k < i ==> parts[k] != x
  {
    if parts == [] || parts[0] == x then 0 else 1 + IndexOf(parts[1..], x)
  }

  /** The first tier: the run in the segment that follows the first "item". */
  function ItemRun(parts: seq<string>): Option<string> {
    var i := IndexOf(parts, "item");
    if i + 1 < |parts| && parts[i + 1] != "" then MatchLongRun(parts[i + 1]) else None
  }

  /** The second tier: the run of the leftmost segment that has one. */
  function FirstSegmentRun(parts: seq<string>): (r: Option<string>)
    ensures r.Some? ==> |r.value| >= 6 && AllDigits(r.value)
  {
    if parts == [] then None
    else if MatchLongRun(parts[0]).Some? then MatchLongRun(parts[0])
    else FirstSegmentRun(parts[1..])
  }

  /** The second tier gives the run of the leftmost segment that has one, and nothing
      exactly when no segment has one. */
  lemma {:induction false} FirstSegmentRunFirst(parts: seq<string>)
    ensures var r := FirstSegmentRun(parts);
            && (r.Some? ==> exists i :: 0 <= i < |parts| && MatchLongRun(parts[i]) == r
                                        && forall j :: 0 <= j < i ==> MatchLongRun(parts[j]).None?)
            && (r.None? <==> forall i :: 0 <= i < |parts| ==> MatchLongRun(parts[i]).None?)
  {
    if parts != [] && MatchLongRun(parts[0]).None? {
      var r := FirstSegmentRun(parts[1..]);
      FirstSegmentRunFirst(parts[1..]);
      ShiftedKeys(parts);
      if r.Some? {
        var i :| 0 <= i < |parts[1..]| && MatchLongRun(parts[1..][i]) == r
                 && forall j :: 0 <= j < i ==> MatchLongRun(parts[1..][j]).None?;
        assert MatchLongRun(parts[i + 1]) == r;
      }
    }
  }

  /** The three tiers, in order of precedence, on a parsed URL. */
  function FromUrl(u: Url, keys: seq<string>): (r: Option<string>)
    ensures r.Some? ==> |r.value| >= 6 && AllDigits(r.value)
  {
    var parts := PathParts(u);
    if ItemRun(parts).Some? then ItemRun(parts)
    else if FirstSegmentRun(parts).Some? then FirstSegmentRun(parts)
    else
      FromQuery(u.query, keys)
  }

  /** `/^https?:\/\//i`: the scheme test, letters in any case. */
  predicate HasHttpSchemeCI(s: string) {
    (|s| >= 7 && ToLower(s[..7]) == "http://") || (|s| >= 8 && ToLower(s[..8]) == "https://")
  }

  /** The host filter: any of three substrings. */
  predicate IsAliHost(host: string) {
    Contains(host, "aliexpress.com") || Contains(host, "a.aliexpress.com") || Contains(host, "m.aliexpress.com")
  }

  lemma LowerPrefix(s: string, n: nat)
    requires n <= |s|
    ensures ToLower(s)[..n] == ToLower(s[..n])
  {
  }

  /** A link that passes the scheme test still starts with http:// or https:// once lower-cased. */
  lemma LowerScheme(s: string)
    requires HasHttpSchemeCI(s)
    ensures HasHttpPrefix(ToLower(s))
  {
    if |s| >= 7 && ToLower(s[..7]) == "http://" {
      LowerPrefix(s, 7);
    } else {
      LowerPrefix(s, 8);
    }
  }

  /** The trimmed link passes the scheme test and its lower-cased form parses to u. */
  predicate ParsesTo(raw: string, u: Url) {
    var lowered := ToLower(Trim(raw));
    HasHttpSchemeCI(Trim(raw)) && HasHttpPrefix(lowered) && Parse(lowered) == Some(u)
  }

  /** Trim, scheme test, lower-casing and `new URL`; `None` covers both the early
      return and the parser's exception. */
  function ParseLink(raw: string): (r: Option<Url>)
    ensures r.Some? ==> ParsesTo(raw, r.value)
    ensures r.None? ==> forall u :: !ParsesTo(raw, u)
  {
    var normalized := Trim(raw);
    if !HasHttpSchemeCI(normalized) then None
    else
      LowerScheme(normalized);
      Parse(ToLower(normalized))
  }

  /** `extractProductId` with the query keys as a parameter. */
  function ExtractWith(raw: string, keys: seq<string>): (r: Option<string>)
    ensures r.Some? ==> |r.value| >= 6 && AllDigits(r.value)
  {
    match ParseLink(raw)
    case None => None
    case Some(u) => if !IsAliHost(u.host) then None else FromUrl(u, keys)
  }

  /** `extractProductId(rawUrl)`. */
  function ExtractProductId(raw: string): (r: Option<string>)
    ensures r.Some? ==> |r.value| >= 6 && AllDigits(r.value)
  {
    ExtractWith(raw, QueryKeys)
  }
  // Path parts

  lemma {:induction false} NonEmptyAppend(a: seq<string>, b: seq<string>)
    ensures NonEmpty(a + b) == NonEmpty(a) + NonEmpty(b)
    decreases |a|
  {
    if a == [] {
      assert a + b == b;
    } else {
      assert (a + b)[0] == a[0] && (a + b)[1..] == a[1..] + b;
      NonEmptyAppend(a[1..], b);
    }
  }

  /** The parts split from `pathname` are the non-empty segments of the path list. */
  lemma PathPartsOf(u: Url)
    requires SlashFree(u.path)
    ensures PathParts(u) == NonEmpty(u.path)
  {
    SplitPathname(u.path);
    NonEmptyAppend([""], u.path);
  }

  lemma {:induction false} IndexOfAfter(pre: seq<string>, x: string, post: seq<string>)
    requires x !in pre
    ensures IndexOf(pre + [x] + post, x) == |pre|
    decreases |pre|
  {
    if pre == [] {
      assert (pre + [x] + post)[0] == x;
    } else {
      assert (pre + [x] + post)[1..] == pre[1..] + [x] + post;
      IndexOfAfter(pre[1..], x, post);
    }
  }

  lemma ItemParts(pre: seq<string>, seg: string, post: seq<string>)
    requires seg != ""
    ensures NonEmpty(pre + ["item", seg] + post) == NonEmpty(pre) + ["item"] + ([seg] + NonEmpty(post))
  {
    NonEmptyAppend(pre + ["item", seg], post);
    NonEmptyAppend(pre, ["item", seg]);
    assert ["item", seg][1..] == [seg];
    NonEmptyKeeps(["item", seg]);
    assert NonEmpty(["item", seg]) == ["item", seg];
  }

  lemma ItemRunAfter(pre: seq<string>, seg: string, post: seq<string>)
    requires "item" !in pre
    ensures ItemRun(pre + ["item"] + ([seg] + post)) == (if seg != "" then MatchLongRun(seg) else None)
  {
    var parts := pre + ["item"] + ([seg] + post);
    IndexOfAfter(pre, "item", [seg] + post);
    assert parts[|pre| + 1] == seg;
  }

  /** The item tier wins: when the first "item" segment is followed by a segment with a
      run, that run is the result, whatever the earlier segments and the query hold. */
  lemma ItemTierWins(u: Url, keys: seq<string>, pre: seq<string>, seg: string, post: seq<string>)
    requires SlashFree(u.path) && u.path == pre + ["item", seg] + post
    requires "item" !in pre && MatchLongRun(seg).Some?
    ensures FromUrl(u, keys) == MatchLongRun(seg)
  {
    PathPartsOf(u);
    assert seg != "";
    ItemParts(pre, seg, post);
    NonEmptyKeeps(pre);
    assert "item" !in NonEmpty(pre);
    ItemRunAfter(NonEmpty(pre), seg, NonEmpty(post));
  }

  /** Empty segments never hold a run, so leaving them out changes nothing. */
  lemma {:induction false} EmptySegmentsIgnored(parts: seq<string>)
    ensures FirstSegmentRun(NonEmpty(parts)) == FirstSegmentRun(parts)
  {
    if parts != [] {
      EmptySegmentsIgnored(parts[1..]);
      if parts[0] == "" {
        assert !LongRunAt(parts[0], 0);
        assert MatchLongRun(parts[0]).None?;
      } else {
        assert NonEmpty(parts)[1..] == NonEmpty(parts[1..]);
      }
    }
  }

  /** The second and third tiers: without an item run, the leftmost segment run of
      the path list wins, and the query is consulted only when no segment has one. */
  lemma PathThenQuery(u: Url, keys: seq<string>)
    requires SlashFree(u.path) && ItemRun(PathParts(u)).None?
    ensures FromUrl(u, keys) == if FirstSegmentRun(u.path).Some? then FirstSegmentRun(u.path) else FromQuery(u.query, keys)
  {
    PathPartsOf(u);
    EmptySegmentsIgnored(u.path);
  }

  lemma ItemRunFromPart(parts: seq<string>)
    requires ItemRun(parts).Some?
    ensures exists k :: 0 <= k < |parts| && MatchLongRun(parts[k]) == ItemRun(parts)
  {
    var i := IndexOf(parts, "item");
    assert MatchLongRun(parts[i + 1]) == ItemRun(parts);
  }

  /** A run found in the path comes from one segment of the path list. */
  lemma PartRunInPath(u: Url, r: Option<string>)
    requires SlashFree(u.path)
    requires exists k :: 0 <= k < |PathParts(u)| && MatchLongRun(PathParts(u)[k]) == r
    ensures exists i :: 0 <= i < |u.path| && MatchLongRun(u.path[i]) == r
  {
    var parts := PathParts(u);
    PathPartsOf(u);
    NonEmptyKeeps(u.path);
    var k :| 0 <= k < |parts| && MatchLongRun(parts[k]) == r;
    assert parts[k] in u.path;
    var i :| 0 <= i < |u.path| && u.path[i] == parts[k];
  }

  /** Where a result comes from: one path segment or the value of one of the keys. */
  predicate RunSource(u: Url, keys: seq<string>, run: string) {
    || (exists i :: 0 <= i < |u.path| && MatchLongRun(u.path[i]) == Some(run))
    || (exists i :: 0 <= i < |keys| && KeyRun(u.query, keys[i]) == Some(run))
  }

  /** The query is a last resort: when some segment has a run, the result is a segment
      run; only when none has one does the result come from the query. */
  lemma QueryLastResort(u: Url, keys: seq<string>)
    requires SlashFree(u.path)
    ensures (exists i :: 0 <= i < |u.path| && MatchLongRun(u.path[i]).Some?) ==>
              FromUrl(u, keys).Some? && exists i :: 0 <= i < |u.path| && MatchLongRun(u.path[i]) == FromUrl(u, keys)
    ensures (forall i :: 0 <= i < |u.path| ==> MatchLongRun(u.path[i]).None?) ==>
              FromUrl(u, keys) == FromQuery(u.query, keys)
    ensures FromUrl(u, keys).Some? ==> RunSource(u, keys, FromUrl(u, keys).value)
  {
    var parts := PathParts(u);
    if ItemRun(parts).Some? {
      ItemRunFromPart(parts);
      PartRunInPath(u, ItemRun(parts));
    } else {
      PathThenQuery(u, keys);
      FirstSegmentRunFirst(u.path);
      FromQueryFirst(u.query, keys);
    }
  }

  // Hosts

  lemma ContainsSuffix(s: string, p: string, t: string)
    requires Contains(s, p + t)
    ensures Contains(s, t)
  {
    var i :| 0 <= i <= |s| - |p + t| && OccursAt(s, p + t, i);
    assert s[i + |p|..i + |p| + |t|] == (p + t)[|p|..];
    assert OccursAt(s, t, i + |p|);
  }

  /** The "a." and "m." tests add nothing: a host passes exactly when it contains
      "aliexpress.com", anywhere. */
  lemma AliHostSubsumed(host: string)
    ensures IsAliHost(host) <==> Contains(host, "aliexpress.com")
  {
    var t := "aliexpress.com";
    assert "a.aliexpress.com" == "a." + t && "m.aliexpress.com" == "m." + t;
    if Contains(host, "a.aliexpress.com") {
      ContainsSuffix(host, "a.", t);
    }
    if Contains(host, "m.aliexpress.com") {
      ContainsSuffix(host, "m.", t);
    }
  }

  /** Any host that begins with "aliexpress.com" passes, such as
      "aliexpress.com.example.org". */
  lemma LookalikeHostAccepted(rest: string)
    ensures IsAliHost("aliexpress.com" + rest)
  {
    var host := "aliexpress.com" + rest;
    assert OccursAt(host, "aliexpress.com", 0);
  }

  // The whole extractor

  /** A result needs the scheme, a parsed URL whose host contains "aliexpress.com",
      and is the run of one path segment or of one key's value in that URL. */
  lemma ExtractSource(raw: string, keys: seq<string>)
    ensures ExtractWith(raw, keys).Some? ==>
              exists u :: ParsesTo(raw, u) && Contains(u.host, "aliexpress.com")
                          && RunSource(u, keys, ExtractWith(raw, keys).value)
  {
    if ExtractWith(raw, keys).Some? {
      var u := ParseLink(raw).value;
      AliHostSubsumed(u.host);
      QueryLastResort(u, keys);
    }
  }

  /** A link whose trimmed form fails the scheme test has no product id. */
  lemma SchemeRequired(raw: string)
    requires !HasHttpSchemeCI(Trim(raw))
    ensures ExtractProductId(raw) == None
  {
  }

  lemma NoCamelName(query: Query, key: string)
    requires LowerNames(query) && !NoUpper(key)
    ensures KeyRun(query, key) == None
  {
  }

  /** With lower-case names only, the camel-case keys are skipped. */
  lemma LowerNamesQuery(query: Query)
    requires LowerNames(query)
    ensures FromQuery(query, QueryKeys) == FromQuery(query, ["sku_id", "spm"])
  {
    assert !IsUpper('d') && IsUpper("productId"[7]);
    assert IsUpper("itemId"[4]) && IsUpper("objId"[3]);
    NoCamelName(query, "productId");
    NoCamelName(query, "itemId");
    NoCamelName(query, "objId");
    var keys := QueryKeys;
    assert FromQuery(query, keys) == FromQuery(query, keys[1..]);
    assert FromQuery(query, keys[1..]) == FromQuery(query, keys[2..]);
    assert FromQuery(query, keys[2..]) == FromQuery(query, keys[3..]);
    assert keys[3..] == ["sku_id", "spm"];
  }

  lemma PlainLowered(raw: string)
    requires '%' !in raw
    ensures PlainText(ToLower(Trim(raw)))
  {
    var t := Trim(raw);
    assert '%' !in t by {
      var t0 := TrimStart(raw);
      assert forall c :: c in t ==> c in t0;
      assert forall c :: c in t0 ==> c in raw;
    }
    var l := ToLower(t);
    forall i | 0 <= i < |l| ensures l[i] != '%' {
      if IsUpper(t[i]) { assert l[i] == LowerChar(t[i]); } else { assert t[i] in t; }
    }
  }

  /** Two key lists that agree on a URL's query give the same result on that URL. */
  lemma FromUrlQueryOnly(u: Url, keys1: seq<string>, keys2: seq<string>)
    requires FromQuery(u.query, keys1) == FromQuery(u.query, keys2)
    ensures FromUrl(u, keys1) == FromUrl(u, keys2)
  {
  }

  /** A link without '%' parses to a URL whose query names are all lower case. */
  lemma LinkNamesLower(raw: string)
    requires '%' !in raw
    ensures ParseLink(raw).Some? ==> LowerNames(ParseLink(raw).value.query)
  {
    if ParseLink(raw).Some? {
      PlainLowered(raw);
      ParsePlainNames(ToLower(Trim(raw)));
    }
  }

  /** The link is lower-cased before parsing, so no query name holds an upper-case letter
      unless it was percent-encoded: for a link without '%' the keys productId, itemId
      and objId never match, and only sku_id and spm are consulted. */
  lemma CamelKeysUnreachable(raw: string)
    requires '%' !in raw
    ensures ExtractProductId(raw) == ExtractWith(raw, ["sku_id", "spm"])
  {
    LinkNamesLower(raw);
    if ParseLink(raw).Some? {
      var u := ParseLink(raw).value;
      LowerNamesQuery(u.query);
      FromUrlQueryOnly(u, QueryKeys, ["sku_id", "spm"]);
    }
  }
}
