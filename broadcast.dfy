/** `sendBroadcast`: sends one text to every active subscriber in fixed-size batches,
    counting deliveries and failures, pausing between batches and unsubscribing users
    whose send was refused with error code 403 or 400. The outcome of each send is an
    input, one per user in list order; the sends of a batch are taken in list order. */
module Broadcast {
  import opened Wrappers

  datatype User = User(chatId: int)

  /** What `sendMessage` did: delivered, or failed with `err.response.error_code` when
      the error carries a truthy one. */
  datatype SendOutcome = Delivered | Failed(errorCode: Option<int>)

  /** The effects of a broadcast, in order. */
  datatype Effect =
    | Send(chatId: int, text: string)
    | Unsubscribe(chatId: int)
    | Sleep(ms: int)

  datatype Report = Report(sentCount: nat, failedCount: nat, total: nat)

  /** A failed send whose error code is 403 or 400 marks the user unsubscribed. */
  predicate Unsubscribes(o: SendOutcome) {
    o.Failed? && o.errorCode.Some? && (o.errorCode.value == 403 || o.errorCode.value == 400)
  }

  function Min(a: int, b: int): int {
    if a < b then a else b
  }

  /** How many of the outcomes are deliveries. */
  function Delivered(os: seq<SendOutcome>): (r: nat)
    ensures r <= |os|
  {
    if os == [] then 0
    else Delivered(os[..|os| - 1]) + (if os[|os| - 1].Delivered? then 1 else 0)
  }

  /** The effects of one user's send. */
  function UserEffects(u: User, text: string, o: SendOutcome): seq<Effect> {
    [Send(u.chatId, text)] + (if Unsubscribes(o) then [Unsubscribe(u.chatId)] else [])
  }

  /** The effects of the sends to users lo .. hi-1. */
  function BatchEffects(users: seq<User>, text: string, outcomes: seq<SendOutcome>, lo: nat, hi: nat): seq<Effect>
    requires lo <= hi <= |users| == |outcomes|
    decreases hi - lo
  {
    if lo == hi then []
    else UserEffects(users[lo], text, outcomes[lo]) + BatchEffects(users, text, outcomes, lo + 1, hi)
  }

  /** What follows the batch starting at i: a pause when another batch comes, then
      the remaining batches. */
  function AfterBatch(users: seq<User>, text: string, outcomes: seq<SendOutcome>, b: nat, delayMs: int, i: nat): seq<Effect>
    requires b >= 1 && |users| == |outcomes|
    decreases |users| - i, 0
  {
    if i + b < |users| then [Sleep(delayMs)] + Batches(users, text, outcomes, b, delayMs, i + b) else []
  }

  /** The effects of the batches from position i on. */
  function Batches(users: seq<User>, text: string, outcomes: seq<SendOutcome>, b: nat, delayMs: int, i: nat): seq<Effect>
    requires b >= 1 && |users| == |outcomes|
    decreases |users| - i, 1
  {
    if i >= |users| then []
    else BatchEffects(users, text, outcomes, i, Min(i + b, |users|)) + AfterBatch(users, text, outcomes, b, delayMs, i)
  }

  /** One batch: the sends to users lo .. hi-1, counting each delivery and failure and
      unsubscribing the users whose send was refused. */
  method SendBatch(users: seq<User>, text: string, outcomes: seq<SendOutcome>, lo: nat, hi: nat,
                   sent0: nat, failed0: nat)
    returns (sentCount: nat, failedCount: nat, batch: seq<Effect>)
    requires lo <= hi <= |users| == |outcomes|
    requires sent0 == Delivered(outcomes[..lo]) && sent0 + failed0 == lo
    ensures sentCount == Delivered(outcomes[..hi]) && sentCount + failedCount == hi
    ensures batch == BatchEffects(users, text, outcomes, lo, hi)
  {
    sentCount, failedCount := sent0, failed0;
    batch := [];
    var j := lo;
    while j < hi
      invariant lo <= j <= hi
      invariant sentCount == Delivered(outcomes[..j]) && sentCount + failedCount == j
      invariant batch + BatchEffects(users, text, outcomes, j, hi) == BatchEffects(users, text, outcomes, lo, hi)
    {
      assert outcomes[..j + 1][..j] == outcomes[..j];
      var e := [Send(users[j].chatId, text)];
      if outcomes[j].Delivered? {
        sentCount := sentCount + 1;
      } else {
        failedCount := failedCount + 1;
        if Unsubscribes(outcomes[j]) {
          e := e + [Unsubscribe(users[j].chatId)];
        }
      }
      assert e == UserEffects(users[j], text, outcomes[j]);
      EffectsAssoc(batch, e, BatchEffects(users, text, outcomes, j + 1, hi));
      batch := batch + e;
      j := j + 1;
    }
  }

  lemma EffectsAssoc(a: seq<Effect>, b: seq<Effect>, c: seq<Effect>)
    ensures a + b + c == a + (b + c)
  {
  }

  /** `sendBroadcast(bot, text)` with the subscriber list, the send outcomes, the batch
      size and the delay as inputs. A batch size of at least 1 is what makes the loop end. */
  method SendBroadcast(users: seq<User>, text: string, outcomes: seq<SendOutcome>, batchSize: int, delayMs: int)
    returns (report: Report, effects: seq<Effect>)
    requires batchSize >= 1 && |outcomes| == |users|
    ensures report == Report(Delivered(outcomes), |users| - Delivered(outcomes), |users|)
    ensures effects == Batches(users, text, outcomes, batchSize, delayMs, 0)
  {
    var sentCount, failedCount := 0, 0;
    effects := [];
    var i := 0;
    while i < |users|
      invariant 0 <= i
      invariant sentCount == Delivered(outcomes[..Min(i, |users|)])
      invariant sentCount + failedCount == Min(i, |users|)
      invariant effects + Batches(users, text, outcomes, batchSize, delayMs, i)
                == Batches(users, text, outcomes, batchSize, delayMs, 0)
      decreases |users| - i
    {
      var hi := Min(i + batchSize, |users|);
      var batch;
      sentCount, failedCount, batch := SendBatch(users, text, outcomes, i, hi, sentCount, failedCount);
      var pause := if i + batchSize < |users| then [Sleep(delayMs)] else [];
      assert pause == AfterBatch(users, text, outcomes, batchSize, delayMs, i)[..|pause|];
      EffectsAssoc(effects, batch, AfterBatch(users, text, outcomes, batchSize, delayMs, i));
      EffectsAssoc(effects + batch, pause, Batches(users, text, outcomes, batchSize, delayMs, i + batchSize));
      effects := effects + batch + pause;
      i := i + batchSize;
    }
    assert outcomes[..|users|] == outcomes;
    report := Report(sentCount, failedCount, |users|);
  }

  // What a run of effects does

  /** The chat ids sent to, in order. */
  function SentTo(es: seq<Effect>): seq<int> {
    if es == [] then [] else (if es[0].Send? then [es[0].chatId] else []) + SentTo(es[1..])
  }

  /** The chat ids marked unsubscribed, in order. */
  function UnsubscribedIds(es: seq<Effect>): seq<int> {
    if es == [] then [] else (if es[0].Unsubscribe? then [es[0].chatId] else []) + UnsubscribedIds(es[1..])
  }

  function SleepCount(es: seq<Effect>): nat {
    if es == [] then 0 else (if es[0].Sleep? then 1 else 0) + SleepCount(es[1..])
  }

  function ChatIds(users: seq<User>): seq<int> {
    if users == [] then [] else [users[0].chatId] + ChatIds(users[1..])
  }

  /** The chat ids of the users whose send was refused with 403 or 400, in order. */
  function RefusedIds(users: seq<User>, outcomes: seq<SendOutcome>): seq<int>
    requires |users| == |outcomes|
  {
    if users == [] then []
    else (if Unsubscribes(outcomes[0]) then [users[0].chatId] else []) + RefusedIds(users[1..], outcomes[1..])
  }

  lemma ProjectAppend(a: seq<Effect>, b: seq<Effect>)
    ensures SentTo(a + b) == SentTo(a) + SentTo(b)
    ensures UnsubscribedIds(a + b) == UnsubscribedIds(a) + UnsubscribedIds(b)
    ensures SleepCount(a + b) == SleepCount(a) + SleepCount(b)
  {
    SentToAppend(a, b);
    UnsubscribedAppend(a, b);
    SleepCountAppend(a, b);
  }

  lemma {:induction false} SentToAppend(a: seq<Effect>, b: seq<Effect>)
    ensures SentTo(a + b) == SentTo(a) + SentTo(b)
  {
    if a != [] {
      assert (a + b)[1..] == a[1..] + b;
      SentToAppend(a[1..], b);
    } else {
      assert a + b == b;
    }
  }

  lemma {:induction false} UnsubscribedAppend(a: seq<Effect>, b: seq<Effect>)
    ensures UnsubscribedIds(a + b) == UnsubscribedIds(a) + UnsubscribedIds(b)
  {
    if a != [] {
      assert (a + b)[1..] == a[1..] + b;
      UnsubscribedAppend(a[1..], b);
    } else {
      assert a + b == b;
    }
  }

  lemma {:induction false} SleepCountAppend(a: seq<Effect>, b: seq<Effect>)
    ensures SleepCount(a + b) == SleepCount(a) + SleepCount(b)
  {
    if a != [] {
      assert (a + b)[1..] == a[1..] + b;
      SleepCountAppend(a[1..], b);
    } else {
      assert a + b == b;
    }
  }

  lemma {:induction false} UsersAppend(users: seq<User>, outcomes: seq<SendOutcome>, k: nat)
    requires k <= |users| == |outcomes|
    ensures ChatIds(users) == ChatIds(users[..k]) + ChatIds(users[k..])
    ensures RefusedIds(users, outcomes) == RefusedIds(users[..k], outcomes[..k]) + RefusedIds(users[k..], outcomes[k..])
  {
    if k > 0 {
      UsersAppend(users[1..], outcomes[1..], k - 1);
      assert users[1..][..k - 1] == users[..k][1..] && users[1..][k - 1..] == users[k..];
      assert outcomes[1..][..k - 1] == outcomes[..k][1..] && outcomes[1..][k - 1..] == outcomes[k..];
    }
  }

  lemma {:induction false} BatchProjections(users: seq<User>, text: string, outcomes: seq<SendOutcome>, lo: nat, hi: nat)
    requires lo <= hi <= |users| == |outcomes|
    ensures var es := BatchEffects(users, text, outcomes, lo, hi);
            && SentTo(es) == ChatIds(users[lo..hi])
            && UnsubscribedIds(es) == RefusedIds(users[lo..hi], outcomes[lo..hi])
            && SleepCount(es) == 0
    decreases hi - lo
  {
    if lo < hi {
      BatchProjections(users, text, outcomes, lo + 1, hi);
      ProjectAppend(UserEffects(users[lo], text, outcomes[lo]), BatchEffects(users, text, outcomes, lo + 1, hi));
      assert users[lo..hi][1..] == users[lo + 1..hi] && outcomes[lo..hi][1..] == outcomes[lo + 1..hi];
    }
  }

  /** The batch at i, then what follows it. */
  lemma BatchesStep(users: seq<User>, text: string, outcomes: seq<SendOutcome>, b: nat, delayMs: int, i: nat)
    requires b >= 1 && |users| == |outcomes| && i < |users|
    ensures var hi := Min(i + b, |users|);
            var es := Batches(users, text, outcomes, b, delayMs, i);
            var rest := Batches(users, text, outcomes, b, delayMs, hi);
            && SentTo(es) == ChatIds(users[i..hi]) + SentTo(rest)
            && UnsubscribedIds(es) == RefusedIds(users[i..hi], outcomes[i..hi]) + UnsubscribedIds(rest)
  {
    var hi := Min(i + b, |users|);
    var batch := BatchEffects(users, text, outcomes, i, hi);
    var after := AfterBatch(users, text, outcomes, b, delayMs, i);
    assert Batches(users, text, outcomes, b, delayMs, i) == batch + after;
    BatchProjections(users, text, outcomes, i, hi);
    ProjectAppend(batch, after);
    AfterBatchProjections(users, text, outcomes, b, delayMs, i);
  }

  /** The pause after a batch sends to no one and unsubscribes no one. */
  lemma AfterBatchProjections(users: seq<User>, text: string, outcomes: seq<SendOutcome>, b: nat, delayMs: int, i: nat)
    requires b >= 1 && |users| == |outcomes|
    ensures var after := AfterBatch(users, text, outcomes, b, delayMs, i);
            var rest := Batches(users, text, outcomes, b, delayMs, Min(i + b, |users|));
            SentTo(after) == SentTo(rest) && UnsubscribedIds(after) == UnsubscribedIds(rest)
  {
    if i + b < |users| {
      ProjectAppend([Sleep(delayMs)], Batches(users, text, outcomes, b, delayMs, i + b));
    }
  }

  lemma RangeSplit(users: seq<User>, outcomes: seq<SendOutcome>, i: nat, hi: nat)
    requires i <= hi <= |users| == |outcomes|
    ensures ChatIds(users[i..]) == ChatIds(users[i..hi]) + ChatIds(users[hi..])
    ensures RefusedIds(users[i..], outcomes[i..]) == RefusedIds(users[i..hi], outcomes[i..hi]) + RefusedIds(users[hi..], outcomes[hi..])
  {
    UsersAppend(users[i..], outcomes[i..], hi - i);
    assert users[i..][..hi - i] == users[i..hi] && users[i..][hi - i..] == users[hi..];
    assert outcomes[i..][..hi - i] == outcomes[i..hi] && outcomes[i..][hi - i..] == outcomes[hi..];
  }

  lemma {:induction false} BatchesSends(users: seq<User>, text: string, outcomes: seq<SendOutcome>, b: nat, delayMs: int, i: nat)
    requires b >= 1 && |users| == |outcomes| && i <= |users|
    ensures var es := Batches(users, text, outcomes, b, delayMs, i);
            && SentTo(es) == ChatIds(users[i..])
            && UnsubscribedIds(es) == RefusedIds(users[i..], outcomes[i..])
    decreases |users| - i
  {
    if i < |users| {
      var hi := Min(i + b, |users|);
      BatchesStep(users, text, outcomes, b, delayMs, i);
      BatchesSends(users, text, outcomes, b, delayMs, hi);
      RangeSplit(users, outcomes, i, hi);
    }
  }

  lemma {:induction false} BatchesSleeps(users: seq<User>, text: string, outcomes: seq<SendOutcome>, b: nat, delayMs: int, i: nat)
    requires b >= 1 && |users| == |outcomes| && i < |users|
    ensures var k := SleepCount(Batches(users, text, outcomes, b, delayMs, i));
            k * b < |users| - i <= (k + 1) * b
    decreases |users| - i
  {
    var n := |users|;
    var hi := Min(i + b, n);
    var batch := BatchEffects(users, text, outcomes, i, hi);
    var after := AfterBatch(users, text, outcomes, b, delayMs, i);
    assert Batches(users, text, outcomes, b, delayMs, i) == batch + after;
    BatchProjections(users, text, outcomes, i, hi);
    SleepCountAppend(batch, after);
    if i + b < n {
      var rest := Batches(users, text, outcomes, b, delayMs, i + b);
      BatchesSleeps(users, text, outcomes, b, delayMs, i + b);
      SleepCountAppend([Sleep(delayMs)], rest);
      NextBatchBound(SleepCount(rest), b, n - i);
    }
  }

  lemma NextBatchBound(k: nat, b: nat, m: int)
    requires k * b < m - b <= (k + 1) * b
    ensures (k + 1) * b < m <= (k + 2) * b
  {
    assert (k + 1) * b == k * b + b;
    assert (k + 2) * b == (k + 1) * b + b;
  }

  /** Every user is sent the text exactly once, in list order, whatever the outcomes; the
      users unsubscribed are exactly those refused with 403 or 400, in order; and with k
      pauses, k * b < n <= (k + 1) * b: there are ceil(n / b) batches and a pause between
      each two of them, none for an empty list. */
  lemma BroadcastEffects(users: seq<User>, text: string, outcomes: seq<SendOutcome>, b: nat, delayMs: int)
    requires b >= 1 && |users| == |outcomes|
    ensures var es := Batches(users, text, outcomes, b, delayMs, 0);
            && SentTo(es) == ChatIds(users)
            && UnsubscribedIds(es) == RefusedIds(users, outcomes)
            && (users == [] ==> es == [])
            && (users != [] ==> SleepCount(es) * b < |users| <= (SleepCount(es) + 1) * b)
  {
    BatchesSends(users, text, outcomes, b, delayMs, 0);
    if users != [] {
      BatchesSleeps(users, text, outcomes, b, delayMs, 0);
    }
    assert users[0..] == users && outcomes[0..] == outcomes;
  }
}
