/** The ECMAScript string built-ins the bot relies on: `\s`, `trim`, ASCII
    case folding, `includes`, and the `\d{6,}` search used on URL parts. */
module JsText {
  import opened Wrappers

  /** WhiteSpace and LineTerminator code points: what `\s` matches and what `trim` removes. */
  predicate IsSpace(c: char) {
    || c == '\t' || c == '\n' || c == '\U{000B}' || c == '\U{000C}' || c == '\r' || c == ' '
    || c == '\U{00A0}' || c == '\U{1680}' || ('\U{2000}' <= c <= '\U{200A}')
    || c == '\U{2028}' || c == '\U{2029}' || c == '\U{202F}' || c == '\U{205F}'
    || c == '\U{3000}' || c == '\U{FEFF}'
  }

  predicate NoSpace(s: string) {
    forall i :: 0 <= i < |s| ==> !IsSpace(s[i])
  }

  /** Removes leading white space. */
  function TrimStart(s: string): (r: string)
    ensures |r| <= |s| && r == s[|s| - |r|..]
    ensures forall k :: 0 <= k < |s| - |r| ==> IsSpace(s[k])
    ensures r == [] || !IsSpace(r[0])
  {
    if s != [] && IsSpace(s[0]) then TrimStart(s[1..]) else s
  }

  /** Removes trailing white space. */
  function TrimEnd(s: string): (r: string)
    ensures |r| <= |s| && r == s[..|r|]
    ensures forall k :: |r| <= k < |s| ==> IsSpace(s[k])
    ensures r == [] || !IsSpace(r[|r| - 1])
  {
    if s != [] && IsSpace(s[|s| - 1]) then TrimEnd(s[..|s| - 1]) else s
  }

  /** `String.prototype.trim`. */
  function Trim(s: string): string {
    TrimEnd(TrimStart(s))
  }

  /** A string with no white space at either end is its own trim. */
  lemma TrimIdentity(s: string)
    requires s == [] || (!IsSpace(s[0]) && !IsSpace(s[|s| - 1]))
    ensures Trim(s) == s
  {
  }

  predicate IsUpper(c: char) { 'A' <= c <= 'Z' }

  predicate NoUpper(s: string) {
    forall i :: 0 <= i < |s| ==> !IsUpper(s[i])
  }

  function LowerChar(c: char): char {
    if IsUpper(c) then (c as int + 32) as char else c
  }

  /** `String.prototype.toLowerCase`, restricted to ASCII letters. */
  function ToLower(s: string): (r: string)
    ensures |r| == |s|
    ensures NoUpper(r)
    ensures forall i :: 0 <= i < |s| && !IsUpper(s[i]) ==> r[i] == s[i]
  {
    seq(|s|, i requires 0 <= i < |s| => LowerChar(s[i]))
  }

  lemma ToLowerIdentity(s: string)
    requires NoUpper(s)
    ensures ToLower(s) == s
  {
  }

  /** t occurs in s at position i. */
  predicate OccursAt(s: string, t: string, i: int) {
    0 <= i <= |s| - |t| && s[i..i + |t|] == t
  }

  /** `s.includes(t)`. */
  predicate Contains(s: string, t: string) {
    exists i | 0 <= i <= |s| - |t| :: OccursAt(s, t, i)
  }

  predicate IsDigit(c: char) { '0' <= c <= '9' }

  predicate AllDigits(s: string) {
    forall i :: 0 <= i < |s| ==> IsDigit(s[i])
  }

  /** `\d{6,}` can begin at position i of s. */
  predicate LongRunAt(s: string, i: int) {
    0 <= i && i + 6 <= |s| && forall k :: i <= k < i + 6 ==> IsDigit(s[k])
  }

  /** s[i..j] is a whole run of at least six ASCII digits: it cannot be extended either way. */
  predicate MaximalRun(s: string, i: int, j: int) {
    && 0 <= i && i + 6 <= j <= |s|
    && (forall k :: i <= k < j ==> IsDigit(s[k]))
    && (i == 0 || !IsDigit(s[i - 1]))
    && (j == |s| || !IsDigit(s[j]))
  }

  /** The end of the run of digits that starts at i. */
  function RunEnd(s: string, i: nat): (j: nat)
    requires i <= |s|
    ensures i <= j <= |s|
    ensures forall k :: i <= k < j ==> IsDigit(s[k])
    ensures j == |s| || !IsDigit(s[j])
    decreases |s| - i
  {
    if i < |s| && IsDigit(s[i]) then RunEnd(s, i + 1) else i
  }

  /** The leftmost position at or after `from` where `\d{6,}` matches. */
  function FindLongRun(s: string, from: nat): (r: Option<nat>)
    ensures r.Some? ==> from <= r.value && LongRunAt(s, r.value)
    ensures r.Some? ==> forall m :: from <= m < r.value ==> !LongRunAt(s, m)
    ensures r.None? ==> forall m :: from <= m ==> !LongRunAt(s, m)
    decreases |s| - from
  {
    if from + 6 > |s| then None
    else if LongRunAt(s, from) then Some(from)
    else FindLongRun(s, from + 1)
  }

  /** `s.match(/\d{6,}/)?.[0]`: the leftmost run of six or more digits, taken whole. */
  function MatchLongRun(s: string): (r: Option<string>)
    ensures r.Some? <==> exists i :: LongRunAt(s, i)
    ensures r.Some? ==> exists i, j :: MaximalRun(s, i, j) && r.value == s[i..j]
                                       && forall m :: 0 <= m < i ==> !LongRunAt(s, m)
    ensures r.Some? ==> |r.value| >= 6 && AllDigits(r.value)
  {
    match FindLongRun(s, 0)
    case None => None
    case Some(i) =>
      var j := RunEnd(s, i);
      assert i > 0 && IsDigit(s[i - 1]) ==> LongRunAt(s, i - 1);
      assert MaximalRun(s, i, j);
      Some(s[i..j])
  }

  /** A string of six or more digits is its own match. */
  lemma MatchAllDigits(s: string)
    requires |s| >= 6 && AllDigits(s)
    ensures MatchLongRun(s) == Some(s)
  {
    assert LongRunAt(s, 0);
    assert FindLongRun(s, 0) == Some(0);
    RunEndOfDigits(s, 0);
    assert s[0..|s|] == s;
  }

  lemma {:induction false} RunEndOfDigits(s: string, i: nat)
    requires i <= |s| && forall k :: i <= k < |s| ==> IsDigit(s[k])
    ensures RunEnd(s, i) == |s|
    decreases |s| - i
  {
    if i < |s| { RunEndOfDigits(s, i + 1); }
  }
}
