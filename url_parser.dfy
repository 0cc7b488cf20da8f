/** The part of the WHATWG URL parser (`new URL(...)`, `hostname`, `pathname`,
    `searchParams`) that the product-id extractor observes, for the special
    schemes http and https. Failure (`None`) stands for the TypeError that
    `new URL` throws. */
module UrlParser {
  import opened Wrappers
  import opened JsText
  import opened Base16
  import opened PercentEncoding

  /** `hostname`, the path list behind `pathname`, and the pairs of `searchParams` in order. */
  datatype Url = Url(host: string, path: seq<string>, query: seq<(string, string)>)

  /** Every character of t occurs in s. */
  predicate CharsFrom(t: string, s: string) {
    forall i :: 0 <= i < |t| ==> t[i] in s
  }

  /** The position of the first character of s that belongs to stops, or |s|. */
  function IndexOfAny(s: string, stops: set<char>): (i: nat)
    ensures i <= |s|
    ensures forall k :: 0 <= k < i ==> s[k] !in stops
    ensures i < |s| ==> s[i] in stops
  {
    if s == [] || s[0] in stops then 0 else 1 + IndexOfAny(s[1..], stops)
  }

  /** `s.split(...)` on a set of separator characters: the pieces between separators, in order. */
  function SplitAny(s: string, seps: set<char>): (r: seq<string>)
    ensures |r| >= 1
    ensures forall p :: p in r ==> CharsFrom(p, s) && forall i :: 0 <= i < |p| ==> p[i] !in seps
    decreases |s|
  {
    var i := IndexOfAny(s, seps);
    if i == |s| then [s] else [s[..i]] + SplitAny(s[i + 1..], seps)
  }

  /** The part of s after its last c, or all of s when c does not occur. */
  function AfterLast(s: string, c: char): (r: string)
    ensures |r| <= |s| && r == s[|s| - |r|..]
    ensures c !in r
    ensures c !in s ==> r == s
  {
    if s == [] then ""
    else if s[|s| - 1] == c then ""
    else
      var r := AfterLast(s[..|s| - 1], c);
      assert s[..|s| - 1][|s| - 1 - |r|..] + [s[|s| - 1]] == s[|s| - 1 - |r|..];
      r + [s[|s| - 1]]
  }

  /** Strips the trailing C0 controls and spaces the URL parser ignores. */
  function TrimEndC0(s: string): (r: string)
    ensures |r| <= |s| && r == s[..|r|]
    ensures s != [] && s[|s| - 1] > ' ' ==> r == s
  {
    if s != [] && s[|s| - 1] <= ' ' then TrimEndC0(s[..|s| - 1]) else s
  }

  predicate IsTabOrNewline(c: char) { c == '\t' || c == '\n' || c == '\r' }

  /** Removes every ASCII tab and newline, wherever it stands. */
  function RemoveTabNewline(s: string): (r: string)
    ensures CharsFrom(r, s)
    ensures (forall i :: 0 <= i < |s| ==> !IsTabOrNewline(s[i])) ==> r == s
  {
    if s == [] then ""
    else if IsTabOrNewline(s[0]) then RemoveTabNewline(s[1..])
    else [s[0]] + RemoveTabNewline(s[1..])
  }

  /** Special schemes ignore any run of '/' and '\' before the authority. */
  function SkipSlashes(s: string): (r: string)
    ensures |r| <= |s| && r == s[|s| - |r|..]
    ensures r == [] || (r[0] != '/' && r[0] != '\\')
  {
    if s != [] && (s[0] == '/' || s[0] == '\\') then SkipSlashes(s[1..]) else s
  }

  function DecimalValue(s: string): nat
    requires AllDigits(s)
  {
    if s == [] then 0 else DecimalValue(s[..|s| - 1]) * 10 + (s[|s| - 1] as int - '0' as int)
  }

  /** Forbidden domain code points: a host holding one makes the parser fail. */
  predicate IsForbiddenDomainChar(c: char) {
    || c <= ' ' || c == '#' || c == '%' || c == '/' || c == ':' || c == '<' || c == '>' || c == '?'
    || c == '@' || c == '[' || c == '\\' || c == ']' || c == '^' || c == '|' || c == '\U{007F}'
  }

  predicate IsLowerHexDigit(c: char) { '0' <= c <= '9' || 'a' <= c <= 'f' }

  /** The URL Standard's "ends in a number" test: the last dot-separated label (one
      trailing dot ignored) is a decimal or "0x" hexadecimal number, which hands the
      host to the IPv4 parser. */
  predicate EndsInNumber(host: string) {
    var trimmed := if host != [] && host[|host| - 1] == '.' then host[..|host| - 1] else host;
    var last := AfterLast(trimmed, '.');
    && last != ""
    && (AllDigits(last) || (|last| >= 2 && last[..2] == "0x" && forall i :: 2 <= i < |last| ==> IsLowerHexDigit(last[i])))
  }

  /** A host the parser accepts as a domain. IPv4 hosts are folded into failure: they
      cannot contain a domain name, so the extractor rejects them either way. */
  predicate IsValidDomain(host: string) {
    && host != ""
    && (forall i :: 0 <= i < |host| ==> !IsForbiddenDomainChar(host[i]))
    && !EndsInNumber(host)
  }

  /** The path percent-encode set: C0 controls, space, `"#<>?^`{}` and everything past '~'. */
  predicate InPathEncodeSet(c: char) {
    || c < ' ' || c as int > 0x7E
    || c == ' ' || c == '"' || c == '#' || c == '<' || c == '>' || c == '?' || c == '^' || c == '`' || c == '{' || c == '}'
  }

  function EncodePathSegment(s: string): (r: string)
    ensures (forall i :: 0 <= i < |s| ==> !InPathEncodeSet(s[i])) ==> r == s
    ensures '/' !in s ==> '/' !in r
  {
    if s == [] then ""
    else
      var rest := EncodePathSegment(s[1..]);
      assert [s[0]] + s[1..] == s;
      (if InPathEncodeSet(s[0]) then PercentBytes(Utf8(s[0])) else [s[0]]) + rest
  }

  /** No path segment holds a '/': each one was cut out between separators. */
  predicate SlashFree(path: seq<string>) {
    forall i :: 0 <= i < |path| ==> '/' !in path[i]
  }

  predicate IsSingleDot(seg: string) {
    var l := ToLower(seg);
    l == "." || l == "%2e"
  }

  predicate IsDoubleDot(seg: string) {
    var l := ToLower(seg);
    l == ".." || l == ".%2e" || l == "%2e." || l == "%2e%2e"
  }

  /** The path state: ".." drops the previous segment, "." vanishes (each leaves an empty
      last segment when it ends the path), every other segment is percent-encoded and kept. */
  function ResolvePath(acc: seq<string>, segs: seq<string>): (r: seq<string>)
    ensures SlashFree(acc) && SlashFree(segs) ==> SlashFree(r)
    decreases |segs|
  {
    if segs == [] then acc
    else
      var seg := segs[0];
      var isLast := |segs| == 1;
      if IsDoubleDot(seg) then
        var shortened := if acc == [] then [] else acc[..|acc| - 1];
        ResolvePath(if isLast then shortened + [""] else shortened, segs[1..])
      else if IsSingleDot(seg) then
        ResolvePath(if isLast then acc + [""] else acc, segs[1..])
      else
        ResolvePath(acc + [EncodePathSegment(seg)], segs[1..])
  }

  const Replacement: char := '\U{FFFD}'

  /** The percent-decoding of the application/x-www-form-urlencoded parser, after '+'
      has become a space. A '%' without two hex digits stays as it is; a byte that
      does not start a valid UTF-8 sequence becomes U+FFFD. */
  function FormDecode(s: string): string
    decreases |s|
  {
    if s == [] then ""
    else if s[0] == '+' then " " + FormDecode(s[1..])
    else if s[0] != '%' then [s[0]] + FormDecode(s[1..])
    else match ReadByte(s)
      case None => "%" + FormDecode(s[1..])
      case Some(b) =>
        if b < 0x80 then [b as char] + FormDecode(s[3..])
        else
          var n := SequenceLength(b);
          var bs := if n >= 2 then ReadBytes(s, n) else None;
          var c := if bs.Some? then Utf8Decode(bs.value) else None;
          if c.Some? then [c.value] + FormDecode(s[3 * n..]) else [Replacement] + FormDecode(s[3..])
  }

  /** One `name=value` piece of a query. */
  function FormPair(piece: string): (string, string) {
    var i := IndexOfAny(piece, {'='});
    (FormDecode(piece[..i]), FormDecode(if i < |piece| then piece[i + 1..] else ""))
  }

  function FormPairsOf(pieces: seq<string>): seq<(string, string)> {
    if pieces == [] then []
    else if pieces[0] == "" then FormPairsOf(pieces[1..])
    else [FormPair(pieces[0])] + FormPairsOf(pieces[1..])
  }

  /** `new URLSearchParams(query)`: split on '&', skip empty pieces, decode name and value. */
  function FormPairs(query: string): seq<(string, string)> {
    FormPairsOf(SplitAny(query, {'&'}))
  }

  const AuthorityEnd: set<char> := {'/', '\\', '?', '#'}
  const PathEnd: set<char> := {'?', '#'}
  const PathSeparator: set<char> := {'/', '\\'}

  /** The input starts with "http://" or "https://", as the extractor has checked. */
  predicate HasHttpPrefix(s: string) {
    (|s| >= 7 && s[..7] == "http://") || (|s| >= 8 && s[..8] == "https://")
  }

  /** The host named by an authority: after any user info, before any port. `None` when
      the host is not a valid domain or the port is not a number up to 65535. */
  function HostOf(authority: string): (r: Option<string>)
    ensures r.Some? ==> IsValidDomain(r.value)
  {
    var hostPort := AfterLast(authority, '@');
    var hEnd := IndexOfAny(hostPort, {':'});
    var host := hostPort[..hEnd];
    var port := if hEnd < |hostPort| then hostPort[hEnd + 1..] else "";
    if !IsValidDomain(host) || !AllDigits(port) || DecimalValue(port) > 65535 then None
    else Some(host)
  }

  /** The path list of what follows the authority: up to '?' or '#', after one leading separator. */
  function PathOf(remainder: string): (r: seq<string>)
    ensures SlashFree(r)
  {
    var rawPath := remainder[..IndexOfAny(remainder, PathEnd)];
    var pathText := if rawPath != [] && rawPath[0] in PathSeparator then rawPath[1..] else rawPath;
    ResolvePath([], SplitAny(pathText, PathSeparator))
  }

  /** The query text of what follows the authority: after '?', up to '#'. */
  function QueryText(remainder: string): (q: string)
    ensures CharsFrom(q, remainder)
  {
    var tail := remainder[IndexOfAny(remainder, PathEnd)..];
    if tail != [] && tail[0] == '?' then tail[1..IndexOfAny(tail, {'#'})] else ""
  }

  /** `pathname`: each segment preceded by '/'. */
  function Pathname(path: seq<string>): (r: string)
    ensures path != [] ==> r != [] && r[0] == '/'
  {
    if path == [] then "" else "/" + path[0] + Pathname(path[1..])
  }

  /** The authority state and everything after it, once the scheme and its slashes are gone. */
  function ParseAuthority(s: string): (r: Option<Url>)
    ensures r.Some? ==> IsValidDomain(r.value.host) && SlashFree(r.value.path)
  {
    var aEnd := IndexOfAny(s, AuthorityEnd);
    match HostOf(s[..aEnd])
    case None => None
    case Some(host) => Some(Url(host, PathOf(s[aEnd..]), FormPairs(QueryText(s[aEnd..]))))
  }

  /** `new URL(input)` for an input that begins with a lower-case http(s) scheme. */
  function Parse(input: string): (r: Option<Url>)
    requires HasHttpPrefix(input)
    ensures r.Some? ==> IsValidDomain(r.value.host) && SlashFree(r.value.path)
  {
    var schemeLen := if input[4] == 's' then 6 else 5;
    ParseAuthority(SkipSlashes(RemoveTabNewline(TrimEndC0(input[schemeLen..]))))
  }

  predicate NoneOf(s: string, stops: set<char>) {
    forall k :: 0 <= k < |s| ==> s[k] !in stops
  }

  lemma NoneOfAppend(a: string, b: string, stops: set<char>)
    requires NoneOf(a, stops) && NoneOf(b, stops)
    ensures NoneOf(a + b, stops)
  {
  }

  lemma {:induction false} IndexOfAnyAfter(p: string, q: string, stops: set<char>)
    requires NoneOf(p, stops)
    ensures IndexOfAny(p + q, stops) == |p| + IndexOfAny(q, stops)
  {
    if p != [] {
      assert (p + q)[0] == p[0] && (p + q)[1..] == p[1..] + q;
      IndexOfAnyAfter(p[1..], q, stops);
    } else {
      assert p + q == q;
    }
  }

  lemma IndexOfAnyNone(s: string, stops: set<char>)
    requires NoneOf(s, stops)
    ensures IndexOfAny(s, stops) == |s|
  {
    IndexOfAnyAfter(s, "", stops);
    assert s + "" == s;
  }

  lemma SplitAnyNone(s: string, seps: set<char>)
    requires NoneOf(s, seps)
    ensures SplitAny(s, seps) == [s]
  {
    IndexOfAnyNone(s, seps);
  }

  lemma SplitAnyStep(p: string, c: char, q: string, seps: set<char>)
    requires NoneOf(p, seps) && c in seps
    ensures SplitAny(p + [c] + q, seps) == [p] + SplitAny(q, seps)
  {
    var s := p + [c] + q;
    IndexOfAnyAfter(p, [c] + q, seps);
    assert s == p + ([c] + q);
    assert s[..|p|] == p && s[|p| + 1..] == q;
  }

  lemma DigitsNoneOf(s: string, stops: set<char>)
    requires AllDigits(s)
    requires forall c :: c in stops ==> !IsDigit(c)
    ensures NoneOf(s, stops)
  {
  }

  const ProductHost := "www.aliexpress.com"

  lemma {:induction false} AfterLastSplit(p: string, c: char, q: string)
    requires c !in q
    ensures AfterLast(p + [c] + q, c) == q
    decreases |q|
  {
    var s := p + [c] + q;
    if q != [] {
      var q' := q[..|q| - 1];
      assert s[..|s| - 1] == p + [c] + q';
      assert s[|s| - 1] == q[|q| - 1];
      AfterLastSplit(p, c, q');
      assert q' + [q[|q| - 1]] == q;
    }
  }

  lemma ProductHostLastLabel(host: string)
    requires host == ProductHost
    ensures AfterLast(host, '.') == "com"
  {
    var p, q := "www.aliexpress", "com";
    assert host == p + ['.'] + q;
    AfterLastSplit(p, '.', q);
  }

  lemma ProductHostChars(host: string)
    requires host == ProductHost
    ensures forall i :: 0 <= i < |host| ==> ('a' <= host[i] <= 'z' || host[i] == '.')
  {
  }

  lemma ProductHostNotNumber(host: string)
    requires host == ProductHost
    ensures !EndsInNumber(host)
  {
    ProductHostLastLabel(host);
    assert host[|host| - 1] == 'm';
    var last := AfterLast(host, '.');
    assert !IsDigit(last[0]);
    assert last[..2] != "0x";
  }

  lemma ProductHostIsDomain(host: string)
    requires host == ProductHost
    ensures IsValidDomain(host)
  {
    ProductHostChars(host);
    ProductHostNotNumber(host);
  }

  /** An authority without user info or port is its own host when that host is a valid domain. */
  lemma HostOfPlain(authority: string)
    requires '@' !in authority && ':' !in authority && IsValidDomain(authority)
    ensures HostOf(authority) == Some(authority)
  {
    assert NoneOf(authority, {':'});
    IndexOfAnyNone(authority, {':'});
    assert authority[..|authority|] == authority;
  }

  /** The authority of a product page names that host, with no user info and no port. */
  lemma ProductHostOf(host: string)
    requires host == ProductHost
    ensures HostOf(host) == Some(host)
  {
    ProductHostChars(host);
    ProductHostIsDomain(host);
    HostOfPlain(host);
  }

  lemma SplitAnyTwo(p: string, c: char, q: string, seps: set<char>)
    requires NoneOf(p, seps) && NoneOf(q, seps) && c in seps
    ensures SplitAny(p + [c] + q, seps) == [p, q]
  {
    SplitAnyStep(p, c, q, seps);
    SplitAnyNone(q, seps);
  }

  lemma ProductSegments(id: string)
    requires AllDigits(id)
    ensures SplitAny("item/" + id + ".html", PathSeparator) == ["item", id + ".html"]
  {
    var item, segment := "item", id + ".html";
    DigitsNoneOf(id, PathSeparator);
    assert NoneOf(".html", PathSeparator);
    NoneOfAppend(id, ".html", PathSeparator);
    assert NoneOf(item, PathSeparator);
    assert "item/" + id + ".html" == item + ['/'] + segment;
    SplitAnyTwo(item, '/', segment, PathSeparator);
  }

  /** A segment holding a character that no spelling of "." or ".." uses is kept. */
  lemma PlainSegmentKept(acc: seq<string>, seg: string, rest: seq<string>, k: nat)
    requires k < |seg| && seg[k] !in {'.', '%', '2', 'e', 'E'}
    ensures ResolvePath(acc, [seg] + rest) == ResolvePath(acc + [EncodePathSegment(seg)], rest)
  {
    var l := ToLower(seg);
    assert l[k] == LowerChar(seg[k]);
    assert l[k] !in {'.', '%', '2', 'e'};
    assert !IsSingleDot(seg) && !IsDoubleDot(seg);
    assert ([seg] + rest)[1..] == rest;
  }

  lemma ItemSegmentKept(rest: seq<string>)
    ensures ResolvePath([], ["item"] + rest) == ResolvePath(["item"], rest)
  {
    var item := "item";
    assert item[0] == 'i';
    assert forall i :: 0 <= i < |item| ==> !InPathEncodeSet(item[i]);
    PlainSegmentKept([], item, rest, 0);
    assert [] + [EncodePathSegment(item)] == [item];
  }

  lemma PageSegmentKept(id: string)
    requires AllDigits(id)
    ensures ResolvePath(["item"], [id + ".html"]) == ["item", id + ".html"]
  {
    var segment := id + ".html";
    PlainSegmentKept(["item"], segment, [], |id| + 1);
    DigitsPathSafe(id);
    assert [segment] + [] == [segment];
    assert ["item"] + [segment] == ["item", segment];
  }

  lemma ProductSegmentsResolve(id: string)
    requires AllDigits(id)
    ensures ResolvePath([], ["item", id + ".html"]) == ["item", id + ".html"]
  {
    assert ["item", id + ".html"] == ["item"] + [id + ".html"];
    ItemSegmentKept([id + ".html"]);
    PageSegmentKept(id);
  }

  lemma ProductPath(id: string)
    requires AllDigits(id)
    ensures PathOf("/item/" + id + ".html") == ["item", id + ".html"]
    ensures QueryText("/item/" + id + ".html") == ""
  {
    var remainder := "/item/" + id + ".html";
    DigitsNoneOf(id, PathEnd);
    NoneOfAppend("/item/" + id, ".html", PathEnd);
    IndexOfAnyNone(remainder, PathEnd);
    assert remainder[..|remainder|] == remainder;
    assert remainder[|remainder|..] == "";
    assert remainder[1..] == "item/" + id + ".html";
    ProductSegments(id);
    ProductSegmentsResolve(id);
  }

  lemma DigitsPathSafe(id: string)
    requires AllDigits(id)
    ensures forall i :: 0 <= i < |id + ".html"| ==> !InPathEncodeSet((id + ".html")[i])
  {
  }

  /** After "https://", an input without tabs, newlines, trailing controls or further
      slashes goes to the authority state unchanged. */
  lemma ParseHttps(scheme: string, rest: string)
    requires scheme == "https://"
    requires rest != [] && rest[|rest| - 1] > ' ' && rest[0] != '/' && rest[0] != '\\'
    requires forall i :: 0 <= i < |rest| ==> !IsTabOrNewline(rest[i])
    ensures HasHttpPrefix(scheme + rest)
    ensures Parse(scheme + rest) == ParseAuthority(rest)
  {
    var input := scheme + rest;
    assert input[..8] == scheme;
    assert input[4] == 's';
    var slashes := "//";
    var r0 := input[6..];
    assert r0 == slashes + rest;
    assert r0[|r0| - 1] == rest[|rest| - 1];
    assert TrimEndC0(r0) == r0;
    assert forall i :: 0 <= i < |r0| ==> !IsTabOrNewline(r0[i]);
    assert RemoveTabNewline(r0) == r0;
    assert r0[1..][1..] == rest;
    assert SkipSlashes(r0) == SkipSlashes(r0[1..]) == SkipSlashes(rest) == rest;
  }

  /** An authority that ends where the remainder begins and names its own host. */
  lemma ParseAuthorityOf(authority: string, remainder: string)
    requires NoneOf(authority, AuthorityEnd) && remainder != [] && remainder[0] in AuthorityEnd
    requires HostOf(authority) == Some(authority)
    ensures ParseAuthority(authority + remainder)
            == Some(Url(authority, PathOf(remainder), FormPairs(QueryText(remainder))))
  {
    var s := authority + remainder;
    IndexOfAnyAfter(authority, remainder, AuthorityEnd);
    assert s[..|authority|] == authority && s[|authority|..] == remainder;
  }

  /** An empty query has no pairs. */
  lemma FormPairsEmpty(query: string)
    requires query == ""
    ensures FormPairs(query) == []
  {
    var pieces := SplitAny(query, {'&'});
    assert pieces == [query];
    assert FormPairsOf(pieces) == FormPairsOf(pieces[1..]);
  }

  lemma ProductHostEndsAuthority(host: string)
    requires host == ProductHost
    ensures NoneOf(host, AuthorityEnd)
    ensures forall i :: 0 <= i < |host| ==> !IsTabOrNewline(host[i])
  {
    ProductHostChars(host);
  }

  lemma ProductAuthority(id: string, host: string, remainder: string)
    requires AllDigits(id) && host == ProductHost && remainder == "/item/" + id + ".html"
    ensures ParseAuthority(host + remainder) == Some(Url(host, ["item", id + ".html"], []))
  {
    ProductHostOf(host);
    ProductHostEndsAuthority(host);
    ParseAuthorityOf(host, remainder);
    ProductPath(id);
    FormPairsEmpty(QueryText(remainder));
  }

  /** The product page of an id made of digits parses to host "www.aliexpress.com",
      path ["item", id + ".html"] and an empty query. */
  lemma ParseProductPage(id: string, page: string)
    requires AllDigits(id) && page == "https://www.aliexpress.com/item/" + id + ".html"
    ensures HasHttpPrefix(page)
    ensures Parse(page) == Some(Url("www.aliexpress.com", ["item", id + ".html"], []))
  {
    var host, remainder := ProductHost, "/item/" + id + ".html";
    var rest := host + remainder;
    ProductPageSplit(id, page);
    ProductRestPlain(id, host, remainder);
    ParseHttps("https://", rest);
    ProductAuthority(id, host, remainder);
  }

  lemma ProductPageSplit(id: string, page: string)
    requires page == "https://www.aliexpress.com/item/" + id + ".html"
    ensures page == "https://" + (ProductHost + ("/item/" + id + ".html"))
  {
    assert "https://www.aliexpress.com/item/" == "https://" + ProductHost + "/item/";
  }

  lemma ProductRestPlain(id: string, host: string, remainder: string)
    requires AllDigits(id) && host == ProductHost && remainder == "/item/" + id + ".html"
    ensures forall i :: 0 <= i < |host + remainder| ==> !IsTabOrNewline((host + remainder)[i])
  {
    ProductHostEndsAuthority(host);
    DigitsNoneOf(id, {'\t', '\n', '\r'});
  }

  lemma {:induction false} SplitJoined(seg: string, rest: seq<string>)
    requires '/' !in seg && SlashFree(rest)
    ensures SplitAny(seg + Pathname(rest), {'/'}) == [seg] + rest
    decreases |rest|
  {
    if rest == [] {
      assert seg + Pathname(rest) == seg;
      assert NoneOf(seg, {'/'});
      SplitAnyNone(seg, {'/'});
    } else {
      var next := rest[0] + Pathname(rest[1..]);
      assert seg + Pathname(rest) == seg + ['/'] + next;
      assert NoneOf(seg, {'/'});
      SplitAnyStep(seg, '/', next, {'/'});
      SplitJoined(rest[0], rest[1..]);
      assert [rest[0]] + rest[1..] == rest;
    }
  }

  /** `pathname.split('/')` gives back the path list behind one leading empty piece. */
  lemma SplitPathname(path: seq<string>)
    requires SlashFree(path)
    ensures SplitAny(Pathname(path), {'/'}) == [""] + path
  {
    SplitJoined("", path);
    assert "" + Pathname(path) == Pathname(path);
  }
  /** Text with no upper-case letter and no '%': nothing in it can decode to upper case. */
  predicate PlainText(s: string) {
    NoUpper(s) && '%' !in s
  }

  /** Every query name is free of upper-case letters. */
  predicate LowerNames(pairs: seq<(string, string)>) {
    forall k :: 0 <= k < |pairs| ==> NoUpper(pairs[k].0)
  }

  lemma PlainChars(t: string, s: string)
    requires CharsFrom(t, s) && PlainText(s)
    ensures PlainText(t)
  {
    forall i | 0 <= i < |t|
      ensures !IsUpper(t[i])
    {
      assert t[i] in s;
      var j :| 0 <= j < |s| && s[j] == t[i];
    }
  }

  lemma PlainSlice(s: string, lo: nat, hi: nat)
    requires lo <= hi <= |s| && PlainText(s)
    ensures PlainText(s[lo..hi])
  {
    assert CharsFrom(s[lo..hi], s) by {
      forall i | 0 <= i < hi - lo ensures s[lo..hi][i] in s { assert s[lo..hi][i] == s[lo + i]; }
    }
    PlainChars(s[lo..hi], s);
  }

  lemma {:induction false} FormDecodePlain(s: string)
    requires PlainText(s)
    ensures NoUpper(FormDecode(s))
    decreases |s|
  {
    if s != [] {
      PlainSlice(s, 1, |s|);
      FormDecodePlain(s[1..]);
    }
  }

  lemma {:induction false} FormPairsOfPlain(pieces: seq<string>, query: string)
    requires PlainText(query) && forall p :: p in pieces ==> CharsFrom(p, query)
    ensures LowerNames(FormPairsOf(pieces))
    decreases |pieces|
  {
    if pieces != [] {
      FormPairsOfPlain(pieces[1..], query);
      if pieces[0] != "" {
        var piece := pieces[0];
        PlainChars(piece, query);
        PlainSlice(piece, 0, IndexOfAny(piece, {'='}));
        FormDecodePlain(piece[..IndexOfAny(piece, {'='})]);
      }
    }
  }

  lemma ParseAuthorityPlain(s: string)
    requires PlainText(s)
    ensures ParseAuthority(s).Some? ==> LowerNames(ParseAuthority(s).value.query)
  {
    var aEnd := IndexOfAny(s, AuthorityEnd);
    PlainSlice(s, aEnd, |s|);
    var q := QueryText(s[aEnd..]);
    PlainChars(q, s[aEnd..]);
    FormPairsOfPlain(SplitAny(q, {'&'}), q);
  }

  /** Plain input gives query names with no upper-case letter. */
  lemma ParsePlainNames(input: string)
    requires HasHttpPrefix(input) && PlainText(input)
    ensures Parse(input).Some? ==> LowerNames(Parse(input).value.query)
  {
    var schemeLen := if input[4] == 's' then 6 else 5;
    PlainSlice(input, schemeLen, |input|);
    var t := TrimEndC0(input[schemeLen..]);
    PlainSlice(input[schemeLen..], 0, |t|);
    var u := RemoveTabNewline(t);
    PlainChars(u, t);
    var v := SkipSlashes(u);
    PlainSlice(u, |u| - |v|, |u|);
    ParseAuthorityPlain(v);
  }
}
