/**
 * The account worker: which child results may cross back, and how attempts are
 * paced when the site asks for patience.
 */
module AccountWorkers {
  import opened Common
  import opened Utf8Text
  import Sessions = AccountSessions
  import Adapters = EvaluatedReceivers

  const MAX_RETRY := 300
  const MAX_SET := 4096
  const MAX_EXPRESSION := 16384
  const MAX_EXPRESSIONS := 4 * 1024 * 1024
  const MAX_PRIOR := 100000
  const MAX_UNLOCKS := 100000
  const MAX_POINTS := 999999

  datatype Definition = Definition(id: int, expression: Text)

  datatype Metadatum = Metadatum(id: int, points: int, title: Text)

  /** A qualified set as it comes from the child. */
  datatype FetchedSet = FetchedSet(
    context: Adapters.SetContext, title: Text, definitions: seq<Definition>, selected: seq<int>, unofficial: seq<int>,
    prior: seq<int>, metadata: seq<Metadatum>)

  datatype ChildPayload =
    | CredentialsPayload(credentials: Sessions.Credentials)
    | SessionPayload(gameId: int, serverNow: int, unlocks: seq<int>, hardcore: seq<int>)
    | AwardPayload(achievement: int, awarded: bool, score: int, softcoreScore: int, remaining: int)
    | PingPayload(answered: bool)
    | SetPayload(fetched: FetchedSet)

  datatype Status = Fine | Failed | RateLimited

  /** `payloads` are the parts that are present. */
  datatype AccountResult = AccountResult(task: int, epoch: int, status: Status, payloads: seq<ChildPayload>, retryAfter: int)

  // ----- What a valid result is -----

  predicate IsId(n: int) { 1 <= n <= Sessions.MAX_ID }

  predicate AllIds(ids: seq<int>, limit: nat) { |ids| <= limit && forall i | 0 <= i < |ids| :: IsId(ids[i]) }

  /** An account, an epoch, a lower-case image hash, and a game of a console that is supported. */
  predicate ValidContext(c: Adapters.SetContext) {
    && 1 <= |c.account.name| <= 64 && IsId(c.account.epoch) && IsId(c.gameId) && c.consoleId in {12, 21}
    && |c.imageHash| == 32 && forall h | h in c.imageHash :: '0' <= h <= '9' || 'a' <= h <= 'f'
  }

  predicate IsExpression(t: Text) {
    1 <= |t| <= MAX_EXPRESSION && forall i | 0 <= i < |t| :: 0 < t[i] < 128
  }

  function TotalLength(definitions: seq<Definition>): nat {
    if definitions == [] then 0
    else TotalLength(definitions[..|definitions| - 1]) + |definitions[|definitions| - 1].expression|
  }

  predicate DistinctDefinitions(definitions: seq<Definition>) {
    forall i, j | 0 <= i < j < |definitions| :: definitions[i].id != definitions[j].id
  }

  predicate AllDefinitions(definitions: seq<Definition>) {
    forall i | 0 <= i < |definitions| :: IsId(definitions[i].id) && IsExpression(definitions[i].expression)
  }

  predicate IsMetadatum(m: Metadatum) { IsId(m.id) && 0 <= m.points <= MAX_POINTS && |m.title| <= MAX_SET }

  /** Bounded, every achievement defined once, selected, and not unlocked before. */
  predicate ValidSet(s: FetchedSet) {
    && ValidContext(s.context) && |s.title| <= MAX_SET
    && |s.definitions| <= MAX_SET && AllDefinitions(s.definitions) && DistinctDefinitions(s.definitions)
    && TotalLength(s.definitions) <= MAX_EXPRESSIONS
    && AllIds(s.selected, MAX_SET) && AllIds(s.unofficial, MAX_SET) && AllIds(s.prior, MAX_PRIOR)
    && |s.metadata| <= MAX_SET && (forall i | 0 <= i < |s.metadata| :: IsMetadatum(s.metadata[i]))
    && (forall i | 0 <= i < |s.definitions| :: s.definitions[i].id in s.selected && s.definitions[i].id !in s.prior)
    && (forall i | 0 <= i < |s.unofficial| :: s.unofficial[i] in s.selected)
  }

  predicate ValidPayload(p: ChildPayload) {
    match p
    case CredentialsPayload(credentials) => credentials.Valid()
    case SessionPayload(gameId, serverNow, unlocks, hardcore) =>
      IsId(gameId) && serverNow >= 0 && AllIds(unlocks, MAX_UNLOCKS) && AllIds(hardcore, MAX_UNLOCKS)
    case AwardPayload(achievement, _, score, softcoreScore, remaining) =>
      IsId(achievement) && score >= 0 && softcoreScore >= 0 && remaining >= 0
    case PingPayload(answered) => answered
    case SetPayload(fetched) => ValidSet(fetched)
  }

  predicate ValidResult(r: AccountResult) {
    && r.task >= 1 && r.epoch >= 1
    && match r.status
       case Fine => r.retryAfter == 0 && |r.payloads| == 1 && ValidPayload(r.payloads[0])
       case Failed => r.retryAfter == 0 && r.payloads == []
       case RateLimited => 1 <= r.retryAfter <= MAX_RETRY && r.payloads == []
  }

  // ----- The check as it runs -----

  /** One pass over the definitions, adding up lengths and collecting identifiers. */
  method ScanDefinitions(definitions: seq<Definition>) returns (scanned: Option<(nat, set<int>)>)
    ensures scanned.Some? <==> AllDefinitions(definitions) && DistinctDefinitions(definitions)
    ensures scanned.Some? ==> scanned.value.0 == TotalLength(definitions)
                              && forall id :: id in scanned.value.1 <==>
                                   exists i :: 0 <= i < |definitions| && definitions[i].id == id
  {
    var total, seen: set<int> := 0, {};
    for n := 0 to |definitions|
      invariant AllDefinitions(definitions[..n]) && DistinctDefinitions(definitions[..n])
      invariant total == TotalLength(definitions[..n])
      invariant forall id :: id in seen <==> exists i :: 0 <= i < n && definitions[i].id == id
    {
      var d := definitions[n];
      if !IsId(d.id) || d.id in seen || !IsExpression(d.expression) { return None; }
      assert definitions[..n + 1][..n] == definitions[..n];
      total, seen := total + |d.expression|, seen + {d.id};
    }
    assert definitions[..|definitions|] == definitions;
    return Some((total, seen));
  }

  method CheckIds(ids: seq<int>, limit: nat) returns (valid: bool)
    ensures valid == AllIds(ids, limit)
  {
    if |ids| > limit { return false; }
    for i := 0 to |ids|
      invariant forall j | 0 <= j < i :: IsId(ids[j])
    {
      if !IsId(ids[i]) { return false; }
    }
    return true;
  }

  method CheckSet(s: FetchedSet) returns (valid: bool)
    ensures valid == ValidSet(s)
  {
    hide AllDefinitions, DistinctDefinitions, TotalLength, AllIds, IsMetadatum, ValidContext;
    if !ValidContext(s.context) || |s.title| > MAX_SET || |s.definitions| > MAX_SET { return false; }
    var scanned := ScanDefinitions(s.definitions);
    if scanned.None? { return false; }
    var (total, seen) := scanned.value;
    valid := CheckIds(s.selected, MAX_SET);
    if !valid { return false; }
    valid := CheckIds(s.unofficial, MAX_SET);
    if !valid { return false; }
    valid := CheckIds(s.prior, MAX_PRIOR);
    if !valid { return false; }
    if |s.metadata| > MAX_SET { return false; }
    for i := 0 to |s.metadata|
      invariant forall j | 0 <= j < i :: IsMetadatum(s.metadata[j])
    {
      if !IsMetadatum(s.metadata[i]) { return false; }
    }
    DefinitionsWithin(s.definitions, seen, s.selected, s.prior);
    valid := total <= MAX_EXPRESSIONS
             && (forall id | id in seen :: id in s.selected) && (forall id | id in seen :: id !in s.prior)
             && (forall i | 0 <= i < |s.unofficial| :: s.unofficial[i] in s.selected);
  }

  lemma DefinitionsWithin(definitions: seq<Definition>, seen: set<int>, selected: seq<int>, prior: seq<int>)
    requires forall id :: id in seen <==> exists i :: 0 <= i < |definitions| && definitions[i].id == id
    ensures (forall id | id in seen :: id in selected) <==> (forall i | 0 <= i < |definitions| :: definitions[i].id in selected)
    ensures (forall id | id in seen :: id !in prior) <==> (forall i | 0 <= i < |definitions| :: definitions[i].id !in prior)
  {
    forall i | 0 <= i < |definitions|
      ensures definitions[i].id in seen
    {
    }
  }

  /** Exactly one valid payload for a success, none for a failure, and a wait only for a rate limit. */
  method ValidAccountResult(r: AccountResult) returns (valid: bool)
    ensures valid == ValidResult(r)
  {
    hide ValidSet;
    if r.task < 1 || r.epoch < 1 || !(0 <= r.retryAfter <= MAX_RETRY) { return false; }
    var count := |r.payloads|;
    if r.status != Fine {
      return count == 0 && (if r.status == RateLimited then r.retryAfter > 0 else r.retryAfter == 0);
    }
    if r.retryAfter != 0 || count != 1 { return false; }
    match r.payloads[0] {
      case PingPayload(answered) => return answered;
      case CredentialsPayload(credentials) => return credentials.Valid();
      case SessionPayload(gameId, serverNow, unlocks, hardcore) =>
        if !IsId(gameId) || serverNow < 0 { return false; }
        valid := CheckIds(unlocks, MAX_UNLOCKS);
        if valid { valid := CheckIds(hardcore, MAX_UNLOCKS); }
      case AwardPayload(achievement, _, score, softcoreScore, remaining) =>
        return IsId(achievement) && score >= 0 && softcoreScore >= 0 && remaining >= 0;
      case SetPayload(fetched) => valid := CheckSet(fetched);
    }
  }

  // ----- The same rules over sets -----

  function IdsOf(definitions: seq<Definition>): set<int> { set i | 0 <= i < |definitions| :: definitions[i].id }

  /** No identifier is defined twice exactly when there are as many identifiers as definitions. */
  lemma {:induction false} DistinctByCount(definitions: seq<Definition>)
    ensures |IdsOf(definitions)| <= |definitions|
    ensures |IdsOf(definitions)| == |definitions| <==> DistinctDefinitions(definitions)
  {
    if definitions == [] {
      assert IdsOf(definitions) == {};
    } else {
      var front, last := definitions[..|definitions| - 1], definitions[|definitions| - 1];
      DistinctByCount(front);
      assert forall i | 0 <= i < |front| :: front[i] == definitions[i];
      assert IdsOf(definitions) == IdsOf(front) + {last.id};
      if last.id in IdsOf(front) {
        var i :| 0 <= i < |front| && front[i].id == last.id;
        assert definitions[i].id == definitions[|front|].id;
      }
    }
  }

  function Elements(ids: seq<int>): set<int> { set i | 0 <= i < |ids| :: ids[i] }

  lemma ElementsWithin(ids: seq<int>, limit: nat)
    ensures AllIds(ids, limit) <==> |ids| <= limit && forall id | id in Elements(ids) :: 1 <= id <= 0xFFFF_FFFF
  {
    if AllIds(ids, limit) {
      assert forall id | id in Elements(ids) :: IsId(id);
    } else if |ids| <= limit {
      var i :| 0 <= i < |ids| && !IsId(ids[i]);
      assert ids[i] in Elements(ids);
    }
  }

  /**
   * A set is sound, exactly: at most 4096 achievements, none defined twice, each by a short printable expression and
   * all of them by 4 MiB; every one of them selected and none unlocked before, and the unofficial among the selected.
   */
  lemma SetIsSound(s: FetchedSet)
    ensures var ids := IdsOf(s.definitions);
      ValidSet(s) <==>
      && ValidContext(s.context) && |s.title| <= 4096 && |s.definitions| <= 4096 && |s.metadata| <= 4096
      && |ids| == |s.definitions| && (forall i | 0 <= i < |s.definitions| :: IsExpression(s.definitions[i].expression))
      && TotalLength(s.definitions) <= 4194304
      && |s.selected| <= 4096 && |s.unofficial| <= 4096 && |s.prior| <= 100000
      && (forall id | id in Elements(s.selected) :: 1 <= id <= 0xFFFF_FFFF)
      && (forall id | id in Elements(s.prior) :: 1 <= id <= 0xFFFF_FFFF)
      && ids <= Elements(s.selected) && ids !! Elements(s.prior) && Elements(s.unofficial) <= Elements(s.selected)
      && (forall i | 0 <= i < |s.metadata| ::
            1 <= s.metadata[i].id <= 0xFFFF_FFFF && 0 <= s.metadata[i].points <= 999999 && |s.metadata[i].title| <= 4096)
  {
    hide TotalLength, IsExpression, ValidContext, AllIds, Elements, IdsOf, AllDefinitions, DistinctDefinitions;
    var ids := IdsOf(s.definitions);
    DistinctByCount(s.definitions);
    ElementsWithin(s.selected, MAX_SET);
    ElementsWithin(s.unofficial, MAX_SET);
    ElementsWithin(s.prior, MAX_PRIOR);
    DefinitionsByIds(s.definitions, s.selected, s.prior);
    WithinSelected(s.unofficial, s.selected);
    assert forall i | 0 <= i < |s.metadata| :: IsMetadatum(s.metadata[i]) <==>
      1 <= s.metadata[i].id <= 0xFFFF_FFFF && 0 <= s.metadata[i].points <= 999999 && |s.metadata[i].title| <= 4096;
  }

  lemma DefinitionsByIds(definitions: seq<Definition>, selected: seq<int>, prior: seq<int>)
    ensures var ids := IdsOf(definitions);
      && (AllDefinitions(definitions) <==>
            && (forall id | id in ids :: 1 <= id <= 0xFFFF_FFFF)
            && forall i | 0 <= i < |definitions| :: IsExpression(definitions[i].expression))
      && (ids <= Elements(selected) && ids !! Elements(prior) <==>
            forall i | 0 <= i < |definitions| :: definitions[i].id in selected && definitions[i].id !in prior)
  {
    hide IsExpression;
    var ids := IdsOf(definitions);
    assert forall i | 0 <= i < |definitions| :: definitions[i].id in ids;
    assert forall id :: id in Elements(selected) <==> id in selected;
    assert forall id :: id in Elements(prior) <==> id in prior;
    assert ids !! Elements(prior) <==> forall id | id in ids :: id !in Elements(prior);
  }

  lemma WithinSelected(ids: seq<int>, selected: seq<int>)
    ensures Elements(ids) <= Elements(selected) <==> forall i | 0 <= i < |ids| :: ids[i] in selected
  {
    assert forall i | 0 <= i < |ids| :: ids[i] in Elements(ids);
    assert forall id :: id in Elements(selected) <==> id in selected;
  }

  // ----- Pacing -----

  /** What becomes of the child: a result or none in time, or an exception out of the resolver. */
  datatype ResolverOutcome = Delivered(result: Option<AccountResult>) | Broken

  /** A call: the clock at its last check, after the child, and after a rate limit is seen. */
  datatype Call = Call(
    task: int, epoch: int, cancelled: bool, checkedAt: real, doneAt: real, limitedAt: real, outcome: ResolverOutcome)
  {
    predicate Ours() {
      && outcome.Delivered? && outcome.result.Some?
      && outcome.result.value.task == task && outcome.result.value.epoch == epoch
    }

    /** A rate limit that the worker honours. */
    predicate Limited() { Ours() && outcome.result.value.status == RateLimited }

    function Retry(): real
      requires Limited()
    {
      outcome.result.value.retryAfter as real
    }
  }

  predicate Attempts(notBefore: real, c: Call) { !c.cancelled && c.checkedAt >= notBefore }

  /** An exception out of the resolver leaves the earliest next attempt where it was. */
  function Paced(minimum: real, notBefore: real, c: Call): real {
    if !Attempts(notBefore, c) || c.outcome.Broken? then notBefore
    else
      var next := c.doneAt + minimum;
      if c.Limited() && c.limitedAt + c.Retry() > next then c.limitedAt + c.Retry() else next
  }

  function Answered(notBefore: real, c: Call): ResolverOutcome {
    if !Attempts(notBefore, c) then Delivered(None)
    else if c.outcome.Broken? then Broken
    else if c.Ours() then c.outcome
    else Delivered(None)
  }

  class AccountWorker {
    const minimumInterval: real
    var notBefore: real

    constructor (minimumInterval: real)
      requires minimumInterval > 0.0
      ensures this.minimumInterval == minimumInterval && notBefore == 0.0
    {
      this.minimumInterval := minimumInterval;
      notBefore := 0.0;
    }

    /** `c` holds what the clock, the canceller and the child supply while the call runs. */
    method Run(c: Call) returns (answer: ResolverOutcome)
      modifies this
      ensures notBefore == Paced(minimumInterval, old(notBefore), c)
      ensures answer == Answered(old(notBefore), c)
    {
      if c.cancelled || c.checkedAt < notBefore { return Delivered(None); }
      if c.outcome.Broken? { return Broken; }
      var result := c.outcome.result;
      notBefore := c.doneAt + minimumInterval;
      if result.None? || result.value.task != c.task || result.value.epoch != c.epoch { return Delivered(None); }
      if result.value.status == RateLimited {
        var retry := c.limitedAt + result.value.retryAfter as real;
        if retry > notBefore { notBefore := retry; }
      }
      return Delivered(result);
    }
  }

  datatype Calls = Calls(minimum: real, calls: seq<Call>)
  {
    function NotBefore(n: nat): real
      requires n <= |calls|
    {
      if n == 0 then 0.0 else Paced(minimum, NotBefore(n - 1), calls[n - 1])
    }

    predicate Attempted(n: nat)
      requires n < |calls|
    {
      Attempts(NotBefore(n), calls[n])
    }

    function Answer(n: nat): ResolverOutcome
      requires n < |calls|
    {
      Answered(NotBefore(n), calls[n])
    }

    /** Some attempt from i up to n came back from the resolver. */
    predicate CameBack(i: nat, n: nat)
      requires i <= n <= |calls|
    {
      exists k: nat :: i <= k < n && Attempted(k) && calls[k].outcome.Delivered?
    }

    /** Whatever is called next, it is not attempted within the minimum interval after attempt i. */
    ghost predicate Spaces(i: nat, n: nat)
      requires i < n <= |calls|
    {
      forall c: Call | Attempts(NotBefore(n), c) :: c.checkedAt >= calls[i].doneAt + minimum
    }

    /** One call at a time, a clock that does not go back, and children's valid results. */
    predicate Timely() {
      && minimum > 0.0
      && (forall i | 0 <= i < |calls| :: calls[i].checkedAt <= calls[i].doneAt <= calls[i].limitedAt)
      && (forall i, j | 0 <= i < j < |calls| :: calls[i].limitedAt <= calls[j].checkedAt)
      && (forall i | 0 <= i < |calls| && calls[i].Ours() :: ValidResult(calls[i].outcome.result.value))
    }
  }

  lemma {:induction false} NotBeforeGrows(h: Calls, m: nat, n: nat)
    requires h.Timely() && m <= n <= |h.calls|
    ensures h.NotBefore(m) <= h.NotBefore(n)
  {
    hide ValidResult;
    if m < n { NotBeforeGrows(h, m, n - 1); }
  }

  lemma {:induction false} NothingCameBack(h: Calls, i: nat, n: nat)
    requires i <= n <= |h.calls| && !h.CameBack(i, n)
    ensures h.NotBefore(n) == h.NotBefore(i)
  {
    hide ValidResult;
    if i < n {
      assert forall k: nat | i <= k < n - 1 :: !(h.Attempted(k) && h.calls[k].outcome.Delivered?);
      NothingCameBack(h, i, n - 1);
      assert !(h.Attempted(n - 1) && h.calls[n - 1].outcome.Delivered?);
    }
  }

  /** An attempt that came back postpones every later one by the minimum interval. */
  lemma CameBackSpaces(h: Calls, i: nat, k: nat, n: nat)
    requires h.Timely() && i <= k < n <= |h.calls| && h.Attempted(k) && h.calls[k].outcome.Delivered?
    ensures h.NotBefore(n) >= h.calls[i].doneAt + h.minimum
  {
    hide ValidResult;
    NotBeforeGrows(h, k + 1, n);
    assert h.calls[i].doneAt <= h.calls[k].doneAt;
  }

  /**
   * Spacing, exactly: however calls are made and cancelled, the worker keeps the minimum interval after an
   * attempt if and only if that attempt or one since came back from the resolver. An exception out of it
   * leaves no trace.
   */
  lemma AttemptsAreSpacedUnlessBroken(h: Calls, i: nat, n: nat)
    requires h.Timely() && i < n <= |h.calls| && h.Attempted(i)
    ensures h.Spaces(i, n) <==> h.CameBack(i, n)
  {
    hide ValidResult;
    if h.CameBack(i, n) {
      var k: nat :| i <= k < n && h.Attempted(k) && h.calls[k].outcome.Delivered?;
      CameBackSpaces(h, i, k, n);
    } else {
      NothingCameBack(h, i, n);
      var next := Call(1, 1, false, h.calls[i].doneAt, h.calls[i].doneAt, h.calls[i].doneAt, Broken);
      assert Attempts(h.NotBefore(n), next);
    }
  }

  /** So a later attempt is spaced from every attempt that came back, and waits as long as it was told. */
  lemma AttemptsAreSpaced(h: Calls, i: nat, j: nat)
    requires h.Timely() && i < j < |h.calls| && h.Attempted(i) && h.Attempted(j) && h.calls[i].outcome.Delivered?
    ensures h.calls[j].checkedAt >= h.calls[i].doneAt + h.minimum
    ensures h.calls[i].Limited() ==> h.calls[j].checkedAt >= h.calls[i].limitedAt + h.calls[i].Retry()
  {
    hide ValidResult;
    NotBeforeGrows(h, i + 1, j);
  }

  /** Two attempts at one and the same moment, for any interval: the first one's child could not be reaped. */
  lemma BrokenAttemptIsNotSpaced(minimum: real, at: real)
    requires minimum > 0.0 && at >= 0.0
    ensures var broken := Call(1, 1, false, at, at, at, Broken);
      var h := Calls(minimum, [broken, broken.(task := 2)]);
      h.Timely() && h.Attempted(0) && h.Attempted(1) && h.calls[1].checkedAt < h.calls[0].doneAt + minimum
  {
    var broken := Call(1, 1, false, at, at, at, Broken);
    var h := Calls(minimum, [broken, broken.(task := 2)]);
    assert h.NotBefore(0) == 0.0 && h.NotBefore(1) == 0.0;
  }

  /** The moment that attempt i, which came back, allows for the next one. */
  function Allows(h: Calls, i: nat): real
    requires i < |h.calls|
  {
    var next := h.calls[i].doneAt + h.minimum;
    if h.calls[i].Limited() && h.calls[i].limitedAt + h.calls[i].Retry() > next
    then h.calls[i].limitedAt + h.calls[i].Retry() else next
  }

  lemma {:induction false} WaitIsOfSomeAttempt(h: Calls, n: nat)
    requires h.Timely() && n <= |h.calls|
    ensures h.NotBefore(n) == 0.0 ||
            exists i: nat :: i < n && h.Attempted(i) && h.calls[i].outcome.Delivered? && h.NotBefore(n) == Allows(h, i)
  {
    hide ValidResult;
    if n > 0 {
      WaitIsOfSomeAttempt(h, n - 1);
      if h.Attempted(n - 1) && h.calls[n - 1].outcome.Delivered? {
        assert h.NotBefore(n) == Allows(h, n - 1);
      } else if h.NotBefore(n) != 0.0 {
        var i: nat :| i < n - 1 && h.Attempted(i) && h.calls[i].outcome.Delivered? && h.NotBefore(n - 1) == Allows(h, i);
        assert h.NotBefore(n) == Allows(h, i);
      }
    }
  }

  /** Call j keeps the interval and the wait that attempt i asked for. */
  predicate KeepsClear(h: Calls, i: nat, j: nat)
    requires i < |h.calls| && j < |h.calls|
  {
    && h.calls[j].checkedAt >= h.calls[i].doneAt + h.minimum
    && (h.calls[i].Limited() ==> h.calls[j].checkedAt >= h.calls[i].limitedAt + h.calls[i].Retry())
  }

  /** It is not cancelled and keeps clear of every earlier attempt that came back. */
  predicate MayRun(h: Calls, j: nat)
    requires j < |h.calls|
  {
    && !h.calls[j].cancelled && h.calls[j].checkedAt >= 0.0
    && forall i | 0 <= i < j && h.Attempted(i) && h.calls[i].outcome.Delivered? :: KeepsClear(h, i, j)
  }

  lemma AttemptedExactly(h: Calls, j: nat)
    requires h.Timely() && j < |h.calls|
    ensures h.Attempted(j) <==> MayRun(h, j)
  {
    hide ValidResult;
    if h.Attempted(j) {
      forall i | 0 <= i < j && h.Attempted(i) && h.calls[i].outcome.Delivered?
        ensures KeepsClear(h, i, j)
      {
        AttemptsAreSpaced(h, i, j);
      }
      NotBeforeGrows(h, 0, j);
    } else {
      WaitIsOfSomeAttempt(h, j);
      if h.NotBefore(j) != 0.0 && !h.calls[j].cancelled {
        var i: nat :| i < j && h.Attempted(i) && h.calls[i].outcome.Delivered? && h.NotBefore(j) == Allows(h, i);
        assert !KeepsClear(h, i, j);
      }
    }
  }

  /**
   * What a call returns, exactly: the child's result when it may run, the child comes back, and the result names
   * this call's task and epoch; the exception when it may run and its child breaks; and otherwise nothing.
   */
  lemma AnswerIsItsOwn(h: Calls, n: nat)
    requires h.Timely() && n < |h.calls|
    ensures var c, answer := h.calls[n], h.Answer(n);
      && (answer == Broken <==> MayRun(h, n) && c.outcome == Broken)
      && (forall r :: answer == Delivered(Some(r)) <==>
            MayRun(h, n) && c.outcome == Delivered(Some(r)) && r.task == c.task && r.epoch == c.epoch)
  {
    hide ValidResult, MayRun;
    AttemptedExactly(h, n);
  }
}
