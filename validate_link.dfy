/** `validateLink`: finds the first http(s) link in a message, hands it to the
    product-id extractor and tags the outcome. Each failure sends the unsupported-link
    notice once; the notice is counted rather than sent. */
module ValidateLink {
  import opened Wrappers
  import opened JsText
  import opened ProductId

  datatype Reason = NoUrl | NotAliexpressOrNoProductId

  datatype Outcome = Valid(url: string, productId: string) | Invalid(reason: Reason)

  /** The outcome, and how many unsupported-link notices were sent on the way. */
  datatype LinkCheck = LinkCheck(outcome: Outcome, noticesSent: nat)

  /** The end of the run of non-space characters that starts at i. */
  function NonSpaceEnd(s: string, i: nat): (j: nat)
    requires i <= |s|
    ensures i <= j <= |s|
    ensures forall k :: i <= k < j ==> !IsSpace(s[k])
    ensures j == |s| || IsSpace(s[j])
    decreases |s| - i
  {
    if i < |s| && !IsSpace(s[i]) then NonSpaceEnd(s, i + 1) else i
  }

  /** `s` holds `t` at position i, ASCII letters compared in any case. */
  predicate OccursAtCI(s: string, t: string, i: nat) {
    i + |t| <= |s| && ToLower(s[i..i + |t|]) == t
  }

  /** `/https?:\/\/[^\s]+/i` tried at position i: the end of the match, if any. The
      optional 's' is tried first; without it, "://" would have to follow "http". */
  function MatchAt(s: string, i: nat): (r: Option<nat>)
    ensures r.Some? ==> i < r.value <= |s|
  {
    var start :=
      if OccursAtCI(s, "https://", i) then i + 8
      else if OccursAtCI(s, "http://", i) then i + 7
      else |s|;
    if start < |s| && !IsSpace(s[start]) then Some(NonSpaceEnd(s, start)) else None
  }

  /** The leftmost position at or after `from` where the pattern matches. */
  function FindFrom(s: string, from: nat): (r: Option<nat>)
    ensures r.Some? ==> from <= r.value < |s| && MatchAt(s, r.value).Some?
    ensures r.Some? ==> forall k :: from <= k < r.value ==> MatchAt(s, k).None?
    ensures r.None? ==> forall k :: from <= k ==> MatchAt(s, k).None?
    decreases |s| - from
  {
    if from >= |s| then None
    else if MatchAt(s, from).Some? then Some(from)
    else FindFrom(s, from + 1)
  }

  /** `text.match(urlRegex)?.[0]`: the first link in the text. */
  function FindUrl(text: string): Option<string> {
    match FindFrom(text, 0)
    case None => None
    case Some(i) => Some(text[i..MatchAt(text, i).value])
  }

  /** `FindUrl` returns the match at the leftmost position where the pattern matches,
      and nothing exactly when it matches nowhere. */
  lemma FindUrlFirst(text: string)
    ensures var r := FindUrl(text);
            && (r.Some? ==> exists i: nat :: i < |text| && MatchAt(text, i).Some?
                                       && r.value == text[i..MatchAt(text, i).value]
                                       && forall k :: 0 <= k < i ==> MatchAt(text, k).None?)
            && (r.None? <==> forall k :: 0 <= k ==> MatchAt(text, k).None?)
  {
    if FindFrom(text, 0).Some? {
      var i := FindFrom(text, 0).value;
      assert MatchAt(text, i).Some?;
    }
  }

  /** The text of the message, trimmed; missing or empty text counts as "". */
  function MessageText(message: Option<string>): string {
    match message
    case None => ""
    case Some(text) => if text == "" then "" else Trim(text)
  }

  /** `validateLink(ctx)`. */
  function Validate(message: Option<string>): (r: LinkCheck)
    ensures r.noticesSent == (if r.outcome.Invalid? then 1 else 0)
    ensures r.outcome.Valid? ==> Some(r.outcome.productId) == ExtractProductId(r.outcome.url)
                                 && Some(r.outcome.url) == FindUrl(MessageText(message))
    ensures r.outcome == Invalid(NoUrl) <==> FindUrl(MessageText(message)).None?
    ensures r.outcome == Invalid(NotAliexpressOrNoProductId) <==>
              FindUrl(MessageText(message)).Some? && ExtractProductId(FindUrl(MessageText(message)).value).None?
  {
    match FindUrl(MessageText(message))
    case None => LinkCheck(Invalid(NoUrl), 1)
    case Some(url) =>
      match ExtractProductId(url)
      case None => LinkCheck(Invalid(NotAliexpressOrNoProductId), 1)
      case Some(id) => LinkCheck(Valid(url, id), 0)
  }

  // Properties

  /** A missing or empty message has no link. */
  lemma NoTextNoUrl(message: Option<string>)
    requires message.None? || message == Some("")
    ensures Validate(message) == LinkCheck(Invalid(NoUrl), 1)
  {
    assert FindFrom("", 0).None?;
  }

  lemma MatchScheme(text: string, i: nat)
    requires MatchAt(text, i).Some?
    ensures var url := text[i..MatchAt(text, i).value];
            OccursAtCI(url, "http://", 0) || OccursAtCI(url, "https://", 0)
  {
    var url := text[i..MatchAt(text, i).value];
    if OccursAtCI(text, "https://", i) {
      assert url[..8] == text[i..i + 8];
    } else {
      assert url[..7] == text[i..i + 7];
    }
  }

  lemma MatchNoSpace(text: string, i: nat)
    requires MatchAt(text, i).Some?
    ensures NoSpace(text[i..MatchAt(text, i).value])
  {
    var j := MatchAt(text, i).value;
    var n := if OccursAtCI(text, "https://", i) then 8 else 7;
    assert ToLower(text[i..i + n]) == (if n == 8 then "https://" else "http://");
    forall k | i <= k < j ensures !IsSpace(text[k]) {
      if k < i + n {
        assert ToLower(text[i..i + n])[k - i] == LowerChar(text[k]);
      }
    }
  }

  /** The chosen link starts with http:// or https:// in any case, holds no white
      space and is not followed by a non-space character: the match takes the whole run. */
  lemma UrlShape(text: string)
    requires FindUrl(text).Some?
    ensures var url := FindUrl(text).value;
            && (OccursAtCI(url, "http://", 0) || OccursAtCI(url, "https://", 0))
            && NoSpace(url)
            && exists i :: OccursAt(text, url, i) && (i + |url| == |text| || IsSpace(text[i + |url|]))
  {
    var i := FindFrom(text, 0).value;
    var url := text[i..MatchAt(text, i).value];
    assert FindUrl(text).value == url;
    MatchScheme(text, i);
    MatchNoSpace(text, i);
    MatchWhole(text, i);
    assert i + |url| == MatchAt(text, i).value;
    assert OccursAt(text, url, i) && (i + |url| == |text| || IsSpace(text[i + |url|]));
  }

  lemma MatchWhole(text: string, i: nat)
    requires MatchAt(text, i).Some?
    ensures var j := MatchAt(text, i).value;
            OccursAt(text, text[i..j], i) && (j == |text| || IsSpace(text[j]))
  {
  }

  lemma {:induction false} NonSpaceEndPrefix(t: string, rest: string, i: nat)
    requires i < |t| && IsSpace(t[|t| - 1])
    ensures NonSpaceEnd(t + rest, i) == NonSpaceEnd(t, i)
    decreases |t| - i
  {
    if !IsSpace(t[i]) {
      NonSpaceEndPrefix(t, rest, i + 1);
    }
  }

  lemma MatchAtPrefix(t: string, rest: string, k: nat)
    requires k + 8 < |t| && IsSpace(t[|t| - 1])
    ensures MatchAt(t + rest, k) == MatchAt(t, k)
  {
    var s := t + rest;
    assert s[k..k + 8] == t[k..k + 8] && s[k..k + 7] == t[k..k + 7];
    assert s[k + 7] == t[k + 7] && s[k + 8] == t[k + 8];
    if MatchAt(t, k).Some? {
      NonSpaceEndPrefix(t, rest, if OccursAtCI(t, "https://", k) then k + 8 else k + 7);
    }
  }

  /** A match found in t ends before t's final white space, nine or more places
      after it starts. */
  lemma MatchRoom(t: string, i: nat)
    requires i < |t| && MatchAt(t, i).Some? && IsSpace(t[|t| - 1])
    ensures i + 8 < |t|
  {
    if OccursAtCI(t, "https://", i) {
      assert !IsSpace(t[i + 8]);
    } else {
      assert !IsSpace(t[i + 7]);
    }
  }

  /** Only the first link counts: once a link has been found in t, and t ends in white
      space, whatever text follows leaves the chosen link unchanged. */
  lemma LaterUrlsIgnored(t: string, rest: string)
    requires FindUrl(t).Some? && IsSpace(t[|t| - 1])
    ensures FindUrl(t + rest) == FindUrl(t)
  {
    var i := FindFrom(t, 0).value;
    MatchRoom(t, i);
    forall k | 0 <= k <= i ensures MatchAt(t + rest, k) == MatchAt(t, k) {
      MatchAtPrefix(t, rest, k);
    }
    FindFromSame(t + rest, t, 0, i);
    var j := MatchAt(t, i).value;
    assert (t + rest)[i..j] == t[i..j];
  }

  lemma {:induction false} FindFromSame(s: string, t: string, from: nat, i: nat)
    requires from <= i < |t| <= |s|
    requires forall k :: from <= k <= i ==> MatchAt(s, k) == MatchAt(t, k)
    requires FindFrom(t, from) == Some(i)
    ensures FindFrom(s, from) == Some(i)
    decreases i - from
  {
    if from < i {
      FindFromSame(s, t, from + 1, i);
    }
  }
}
