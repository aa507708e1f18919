/** Retry and failover of one chat completion over the key pool (core/llm_client.py).

    The provider's answer to each attempt is an input of the call; the time it takes and the jitter
    are left open.
    Nobody else uses the pool during the call. */
module Failover {
  import opened Options
  import opened KeyPool
  import opened KeyPoolHistory

  datatype Outcome = Answered | TimedOut | Errored(category: Category, retryAfter: Option<real>)
  /** What the provider does with each attempt, by number. */
  type Answers = nat -> Outcome

  datatype Attempt = Attempt(key: Option<string>, outcome: Outcome)
  datatype Verdict = Response | Error(at: real)
  datatype Report = Good(key: Option<string>) | Bad(key: Option<string>, category: Category, retryAfter: Option<real>)

  predicate FailoverCategory(c: Category) {
    c == RateLimit || c == ConnectionError || c == ServerError || c == InsufficientBalance
  }

  function Timeouts(log: seq<Attempt>): nat {
    if log == [] then 0
    else Timeouts(log[..|log| - 1]) + if log[|log| - 1].outcome == TimedOut then 1 else 0
  }

  function Positive(x: int): nat {
    if x < 0 then 0 else x
  }

  /** The last attempt of `log` is one that moves on to another key when there is one. */
  predicate WantsFailover(log: seq<Attempt>, retries: int)
    requires log != []
  {
    match log[|log| - 1].outcome
    case Answered => false
    case TimedOut => Timeouts(log) > retries
    case Errored(c, _) => FailoverCategory(c)
  }

  predicate WantsRetry(log: seq<Attempt>, retries: int)
    requires log != []
  {
    log[|log| - 1].outcome == TimedOut && Timeouts(log) <= retries
  }

  ghost predicate Fresh(log: seq<Attempt>, key: Option<string>) {
    key.Some? && forall i :: 0 <= i < |log| ==> log[i].key != key
  }

  /** Every attempt but the first either repeats the key after a timeout within the retry
      budget, or follows a failover error with a key no attempt has used before. */
  ghost predicate LegalLog(log: seq<Attempt>, retries: int) {
    forall i :: 1 <= i < |log| ==> LegalNext(log[..i], log[i].key, retries)
  }

  /** `key` may be tried after the attempts in `log`. */
  ghost predicate LegalNext(log: seq<Attempt>, key: Option<string>, retries: int) {
    log != [] ==>
      if WantsRetry(log, retries) then key == log[|log| - 1].key
      else WantsFailover(log, retries) && Fresh(log, key)
  }

  /** What the pool is told about a finished run of attempts. */
  function Reports(log: seq<Attempt>, retries: int): seq<Report> {
    if log == [] then []
    else
      var before := Reports(log[..|log| - 1], retries);
      var last := log[|log| - 1];
      match last.outcome
      case Answered => before + [Good(last.key)]
      case TimedOut => if Timeouts(log) <= retries then before else before + [Bad(last.key, TransportTimeout, None)]
      case Errored(c, after) => before + [Bad(last.key, c, after)]
  }

  function ReportOf(c: Call): seq<Report> {
    match c
    case Acquire(_) => []
    case ReportSuccess(key) => [Good(key)]
    case ReportFailure(key, category, retryAfter, _) => [Bad(key, category, retryAfter)]
  }

  function ReportsIn(history: seq<Timed>): seq<Report> {
    if history == [] then []
    else ReportsIn(history[..|history| - 1]) + ReportOf(history[|history| - 1].call)
  }

  lemma {:induction false} RunStep(p: Pool, history: seq<Timed>, t: Timed)
    ensures Run(p, history + [t]) == After(Run(p, history), t)
    ensures ReportsIn(history + [t]) == ReportsIn(history) + ReportOf(t.call)
    decreases |history|
  {
    assert (history + [t])[..|history|] == history;
    if history != [] {
      RunStep(After(p, history[0]), history[1..], t);
      assert (history + [t])[1..] == history[1..] + [t];
    }
  }

  /** The times of the calls never run backwards. */
  ghost predicate Chronological(history: seq<Timed>) {
    forall i, j :: 0 <= i < j < |history| ==> history[i].at <= history[j].at
  }

  /** `history` explains how the pool got from `p` to `q`. */
  ghost predicate Explains(history: seq<Timed>, p: Pool, q: Pool) {
    p.Valid() && q.Valid() && Run(p, history) == q && Chronological(history)
  }

  /** The same, with every call made by the time `clock`. */
  ghost predicate ExplainsBy(history: seq<Timed>, p: Pool, q: Pool, clock: real) {
    Explains(history, p, q) && MadeBy(history, clock)
  }

  ghost predicate MadeBy(history: seq<Timed>, clock: real) {
    forall i :: 0 <= i < |history| ==> history[i].at <= clock
  }

  lemma LaterCall(history: seq<Timed>, clock: real, t: Timed)
    requires Chronological(history) && MadeBy(history, clock) && clock <= t.at
    ensures Chronological(history + [t]) && MadeBy(history + [t], t.at)
  {
  }

  lemma Explain(history: seq<Timed>, p: Pool, q: Pool, clock: real, t: Timed)
    requires ExplainsBy(history, p, q, clock) && clock <= t.at
    ensures ExplainsBy(history + [t], p, After(q, t), t.at)
    ensures ReportsIn(history + [t]) == ReportsIn(history) + ReportOf(t.call)
  {
    LaterCall(history, clock, t);
    RunStep(p, history, t);
    AfterIsValid(q, t);
  }

  ghost function Keys(p: Pool): set<string> {
    set i | 0 <= i < |p.states| :: p.states[i].key
  }

  lemma KeyCount(p: Pool)
    requires p.Valid()
    ensures |Keys(p)| == |p.states|
  {
    var names := seq(|p.states|, i requires 0 <= i < |p.states| => p.states[i].key);
    forall x ensures x in names <==> x in Keys(p) {
      if x in Keys(p) {
        var i :| 0 <= i < |p.states| && p.states[i].key == x;
        assert names[i] == x;
      }
    }
    CountMembers(names, Keys(p));
  }

  /** Time passes. */
  method Tick(now: real) returns (later: real)
    ensures now <= later
  {
    var d: real := *;
    later := if d < 0.0 then now else now + d;
  }

  /** One acquire, recorded. */
  method RecordedAcquire(pool: APIKeyPool, used: set<string>, now: real, ghost p0: Pool, ghost history: seq<Timed>)
    returns (key: Option<string>, wait: real, ghost history': seq<Timed>)
    requires pool.clock <= now && ExplainsBy(history, p0, pool.Value(), pool.clock)
    modifies pool`cursor, pool`clock
    ensures pool.clock == now && ExplainsBy(history', p0, pool.Value(), pool.clock)
    ensures ReportsIn(history') == ReportsIn(history)
    ensures key == Acquired(old(pool.Value()), used, now).0 && wait == Acquired(old(pool.Value()), used, now).1
    ensures key.None? ==> pool.Value() == old(pool.Value())
    ensures key.Some? ==> key.value in Keys(pool.Value())
  {
    var t := Timed(now, Acquire(used));
    Explain(history, p0, pool.Value(), pool.clock, t);
    history' := history + [t];
    key, wait := pool.Acquire(used, now);
    if key.Some? {
      AcquiredIsUsable(old(pool.Value()), used, now);
    }
  }

  /** Select a key; when all candidates are cooling, sleep for the suggested wait and ask again. */
  method ClientFromKeyPool(pool: APIKeyPool, used: set<string>, start: real, ghost p0: Pool, ghost history: seq<Timed>)
    returns (key: Option<string>, used': set<string>, now: real, ghost history': seq<Timed>)
    requires pool.clock <= start && ExplainsBy(history, p0, pool.Value(), pool.clock)
    modifies pool`cursor, pool`clock
    ensures pool.clock == now && start <= now && ExplainsBy(history', p0, pool.Value(), pool.clock)
    ensures ReportsIn(history') == ReportsIn(history)
    ensures key.Some? <==> pool.states != []
    ensures used' == if key.Some? then used + {key.value} else used
    ensures key.Some? ==> key.value in Keys(pool.Value())
    ensures Acquired(old(pool.Value()), used, start).0.Some? ==> key == Acquired(old(pool.Value()), used, start).0
  {
    now := start;
    var wait: real;
    key, wait, history' := RecordedAcquire(pool, used, now, p0, history);
    if key.None? && pool.states != [] {
      WaitIsExact(pool.Value(), used, start, start + wait);
    }
    if key.None? && wait > 0.0 {
      now := Tick(now + wait);
      if pool.states != [] {
        WaitIsExact(pool.Value(), used, start, now);
      }
      key, wait, history' := RecordedAcquire(pool, used, now, p0, history');
    }
    used' := if key.Some? then used + {key.value} else used;
  }

  function Lesser(x: nat, y: nat): nat {
    if x < y then x else y
  }

  ghost function KeysUsed(log: seq<Attempt>): set<string> {
    set i | 0 <= i < |log| && log[i].key.Some? :: log[i].key.value
  }

  /** Between two attempts: `key` is next, and `used` holds it and every key tried. */
  ghost predicate Underway(keys: set<string>, log: seq<Attempt>, key: Option<string>, used: set<string>, retries: int) {
    && (key.Some? <==> keys != {})
    && (key.Some? ==> key.value in used)
    && used == KeysUsed(log) + (if key.Some? then {key.value} else {})
    && used <= keys
    && LegalLog(log, retries) && LegalNext(log, key, retries)
    && |log| == Lesser(Timeouts(log), Positive(retries)) + |used| - (if keys == {} then 0 else 1)
  }

  lemma LogGrows(log: seq<Attempt>, a: Attempt, retries: int)
    requires LegalLog(log, retries) && LegalNext(log, a.key, retries)
    ensures LegalLog(log + [a], retries)
    ensures KeysUsed(log + [a]) == KeysUsed(log) + (if a.key.Some? then {a.key.value} else {})
    ensures Timeouts(log + [a]) == Timeouts(log) + if a.outcome == TimedOut then 1 else 0
    ensures a.outcome == Answered ==> Reports(log + [a], retries) == Reports(log, retries) + [Good(a.key)]
    ensures a.outcome == TimedOut ==>
      Reports(log + [a], retries) ==
        Reports(log, retries) + (if Timeouts(log + [a]) <= retries then [] else [Bad(a.key, TransportTimeout, None)])
    ensures a.outcome.Errored? ==>
      Reports(log + [a], retries) == Reports(log, retries) + [Bad(a.key, a.outcome.category, a.outcome.retryAfter)]
  {
    var longer := log + [a];
    assert longer[..|log|] == log;
    forall i | 1 <= i < |longer| ensures LegalNext(longer[..i], longer[i].key, retries) {
      assert longer[..i] == if i < |log| then log[..i] else log;
    }
    forall k ensures k in KeysUsed(longer) <==> k in KeysUsed(log) + (if a.key.Some? then {a.key.value} else {}) {
      if a.key == Some(k) {
        assert longer[|log|].key == Some(k);
      } else if k in KeysUsed(log) {
        var i :| 0 <= i < |log| && log[i].key == Some(k);
        assert longer[i].key == Some(k);
      }
    }
  }

  /** After a timeout within the budget the same key is legal again. */
  lemma RetryIsLegal(keys: set<string>, log: seq<Attempt>, key: Option<string>, used: set<string>, retries: int)
    requires Underway(keys, log, key, used, retries)
    requires Timeouts(log) + 1 <= retries
    ensures Underway(keys, log + [Attempt(key, TimedOut)], key, used, retries)
  {
    LogGrows(log, Attempt(key, TimedOut), retries);
  }

  /** A new key is legal after a failover error. */
  lemma FailoverIsLegal(keys: set<string>, log: seq<Attempt>, key: Option<string>, used: set<string>, retries: int,
                        outcome: Outcome, unused: string)
    requires Underway(keys, log, key, used, retries)
    requires WantsFailover(log + [Attempt(key, outcome)], retries)
    requires unused in keys && unused !in used
    ensures Underway(keys, log + [Attempt(key, outcome)], Some(unused), used + {unused}, retries)
  {
    var a := Attempt(key, outcome);
    LogGrows(log, a, retries);
    var longer := log + [a];
    forall i | 0 <= i < |longer| ensures longer[i].key != Some(unused) {
      if longer[i].key.Some? {
        assert longer[i].key.value in KeysUsed(longer);
      }
    }
  }

  /** No more attempts than keys and retries allow. */
  lemma AttemptBound(p: Pool, log: seq<Attempt>, key: Option<string>, used: set<string>, retries: int)
    requires p.Valid() && Underway(Keys(p), log, key, used, retries)
    ensures |log| + 1 <= (if |p.states| < 1 then 1 else |p.states|) + Positive(retries)
  {
    KeyCount(p);
    var rest := Keys(p) - used;
    assert Keys(p) == used + rest;
  }

  /** The pool after a report: same keys, and the report is in the history. */
  method RecordedFailure(pool: APIKeyPool, key: Option<string>, category: Category, retryAfter: Option<real>,
                         now: real, ghost p0: Pool, ghost history: seq<Timed>)
    returns (ghost history': seq<Timed>)
    requires pool.clock <= now && ExplainsBy(history, p0, pool.Value(), pool.clock)
    modifies pool`states, pool`clock
    ensures pool.clock == now && ExplainsBy(history', p0, pool.Value(), pool.clock)
    ensures ReportsIn(history') == ReportsIn(history) + [Bad(key, category, retryAfter)]
    ensures |pool.states| == |old(pool.states)|
    ensures forall i :: 0 <= i < |pool.states| ==> pool.states[i].key == old(pool.states[i].key)
  {
    var drawn: real := *;
    var noise := if -MAX_JITTER <= drawn <= MAX_JITTER then drawn else 0.0;
    var t := Timed(now, ReportFailure(key, category, retryAfter, noise));
    Explain(history, p0, pool.Value(), pool.clock, t);
    AfterKeepsKeys(pool.Value(), t);
    history' := history + [t];
    pool.ReportFailure(key, category, retryAfter, noise, now);
  }

  /** Report the failure; when another key is available and wanted, switch to it. */
  method FailOver(pool: APIKeyPool, key: Option<string>, used: set<string>, category: Category, retryAfter: Option<real>,
                  wanted: bool, start: real, ghost p0: Pool, ghost history: seq<Timed>)
    returns (next: Option<string>, used': set<string>, now: real, ghost history': seq<Timed>)
    requires pool.clock <= start && ExplainsBy(history, p0, pool.Value(), pool.clock)
    modifies pool
    ensures pool.clock <= now && ExplainsBy(history', p0, pool.Value(), pool.clock)
    ensures ReportsIn(history') == ReportsIn(history) + [Bad(key, category, retryAfter)]
    ensures Keys(pool.Value()) == Keys(old(pool.Value())) && |pool.states| == |old(pool.states)|
    ensures next.Some? ==> wanted && next.value in Keys(pool.Value()) && next.value !in used && used' == used + {next.value}
    ensures next.None? && wanted ==>
      forall i :: 0 <= i < |pool.states| ==> pool.states[i].key in used || pool.states[i].cooldownUntil > now
  {
    history' := RecordedFailure(pool, key, category, retryAfter, start, p0, history);
    used', now := used, start;
    if !wanted {
      return None, used, now, history';
    }
    now := Tick(start);
    var found := pool.HasAlternative(used, now);
    if !found {
      return None, used, now, history';
    }
    ghost var i :| 0 <= i < |pool.states| && pool.states[i].key !in used && pool.states[i].cooldownUntil <= now;
    var asked := Tick(now);
    AlternativeIsAcquired(pool.Value(), used, asked);
    next, used', now, history' := ClientFromKeyPool(pool, used, asked, p0, history');
  }

  /** Each attempt ended as the provider had it. */
  ghost predicate Answering(log: seq<Attempt>, answers: Answers) {
    forall i :: 0 <= i < |log| ==> log[i].outcome == answers(i)
  }

  ghost predicate OneKey(log: seq<Attempt>, key: Option<string>) {
    forall i :: 0 <= i < |log| ==> log[i].key == key
  }

  /** What the call has established before an attempt with `key`. */
  ghost predicate Running(p0: Pool, q: Pool, clock: real, log: seq<Attempt>, key: Option<string>, used: set<string>,
                          answers: Answers, acceptsKey: bool, retries: int, history: seq<Timed>) {
    && ExplainsBy(history, p0, q, clock)
    && ReportsIn(history) == Reports(log, retries)
    && Waiting(Keys(q), log, key, used, answers, acceptsKey, retries)
  }

  ghost predicate Waiting(keys: set<string>, log: seq<Attempt>, key: Option<string>, used: set<string>, answers: Answers,
                          acceptsKey: bool, retries: int) {
    && Answering(log, answers)
    && (!acceptsKey ==> OneKey(log, key))
    && Underway(keys, log, key, used, retries)
  }

  /** What the call has established when it returns or raises. */
  ghost predicate Ended(p0: Pool, q: Pool, log: seq<Attempt>, verdict: Verdict, answers: Answers, acceptsKey: bool,
                        retries: int, history: seq<Timed>) {
    && Explains(history, p0, q)
    && Answering(log, answers)
    && (!acceptsKey ==> log != [] && OneKey(log, log[0].key))
    && ReportsIn(history) == Reports(log, retries)
    && LegalLog(log, retries)
    && log != []
    && (verdict.Response? <==> log[|log| - 1].outcome == Answered)
    && (verdict.Error? ==> !WantsRetry(log, retries))
    && (verdict.Error? && WantsFailover(log, retries) && acceptsKey ==>
         forall i :: 0 <= i < |q.states| ==> q.states[i].key in KeysUsed(log) || q.states[i].cooldownUntil > verdict.at)
  }

  /** What the pool is told about an error that is not retried. */
  function Blamed(key: Option<string>, outcome: Outcome): Report
    requires outcome != Answered
  {
    if outcome.TimedOut? then Bad(key, TransportTimeout, None) else Bad(key, outcome.category, outcome.retryAfter)
  }

  lemma ReportsGrow(log: seq<Attempt>, a: Attempt, retries: int)
    requires a.outcome != Answered && !WantsRetry(log + [a], retries)
    ensures Reports(log + [a], retries) == Reports(log, retries) + [Blamed(a.key, a.outcome)]
  {
    assert (log + [a])[..|log|] == log;
  }

  lemma AnsweringMore(log: seq<Attempt>, a: Attempt, answers: Answers)
    requires Answering(log, answers) && a.outcome == answers(|log|)
    ensures Answering(log + [a], answers)
  {
  }

  lemma GoesOn(p0: Pool, q: Pool, clock: real, before: seq<Attempt>, key: Option<string>, used: set<string>, answers: Answers,
               retries: int, history: seq<Timed>, outcome: Outcome, next: string)
    requires Waiting(Keys(q), before, key, used, answers, true, retries)
    requires outcome == answers(|before|) && outcome != Answered && WantsFailover(before + [Attempt(key, outcome)], retries)
    requires next in Keys(q) && next !in used
    requires ExplainsBy(history, p0, q, clock) && ReportsIn(history) == Reports(before, retries) + [Blamed(key, outcome)]
    ensures Running(p0, q, clock, before + [Attempt(key, outcome)], Some(next), used + {next}, answers, true, retries, history)
  {
    FailoverIsLegal(Keys(q), before, key, used, retries, outcome, next);
    ReportsGrow(before, Attempt(key, outcome), retries);
    AnsweringMore(before, Attempt(key, outcome), answers);
  }

  lemma GivesUp(p0: Pool, q: Pool, before: seq<Attempt>, key: Option<string>, used: set<string>, answers: Answers,
                acceptsKey: bool, retries: int, history: seq<Timed>, outcome: Outcome, now: real)
    requires Waiting(Keys(q), before, key, used, answers, acceptsKey, retries)
    requires outcome == answers(|before|) && outcome != Answered && !WantsRetry(before + [Attempt(key, outcome)], retries)
    requires Explains(history, p0, q) && ReportsIn(history) == Reports(before, retries) + [Blamed(key, outcome)]
    requires WantsFailover(before + [Attempt(key, outcome)], retries) && acceptsKey ==>
      forall i :: 0 <= i < |q.states| ==> q.states[i].key in used || q.states[i].cooldownUntil > now
    ensures Ended(p0, q, before + [Attempt(key, outcome)], Error(now), answers, acceptsKey, retries, history)
  {
    LogGrows(before, Attempt(key, outcome), retries);
    ReportsGrow(before, Attempt(key, outcome), retries);
    AnsweringMore(before, Attempt(key, outcome), answers);
  }

  lemma WantedIs(log: seq<Attempt>, a: Attempt, retries: int)
    requires a.outcome != Answered && !WantsRetry(log + [a], retries)
    ensures WantsFailover(log + [a], retries) <==> a.outcome.TimedOut? || FailoverCategory(a.outcome.category)
  {
  }

  /** Report the error and switch to another key if it is one that another key may not meet. */
  method ReportError(pool: APIKeyPool, acceptsKey: bool, outcome: Outcome, key: Option<string>, used: set<string>, start: real,
                     ghost p0: Pool, ghost history: seq<Timed>)
    returns (next: Option<string>, used': set<string>, now: real, ghost history': seq<Timed>)
    requires pool.clock <= start && ExplainsBy(history, p0, pool.Value(), pool.clock) && outcome != Answered
    modifies pool
    ensures pool.clock <= now && ExplainsBy(history', p0, pool.Value(), pool.clock)
    ensures ReportsIn(history') == ReportsIn(history) + [Blamed(key, outcome)]
    ensures Keys(pool.Value()) == Keys(old(pool.Value())) && |pool.states| == |old(pool.states)|
    ensures next.Some? ==>
      && acceptsKey && (outcome.TimedOut? || FailoverCategory(outcome.category))
      && next.value in Keys(pool.Value()) && next.value !in used && used' == used + {next.value}
    ensures next.None? && acceptsKey && (outcome.TimedOut? || FailoverCategory(outcome.category)) ==>
      forall i :: 0 <= i < |pool.states| ==> pool.states[i].key in used || pool.states[i].cooldownUntil > now
  {
    var category := if outcome.TimedOut? then TransportTimeout else outcome.category;
    var retryAfter := if outcome.TimedOut? then None else outcome.retryAfter;
    var wanted := acceptsKey
      && (outcome.TimedOut? || category in {RateLimit, ConnectionError, ServerError, InsufficientBalance});
    next, used', now, history' := FailOver(pool, key, used, category, retryAfter, wanted, start, p0, history);
  }

  /** A failed attempt that is not repeated: failover, or the error leaves the call. */
  method AfterError(pool: APIKeyPool, ghost answers: Answers, acceptsKey: bool, retries: int, ghost before: seq<Attempt>,
                    outcome: Outcome, key: Option<string>, used: set<string>, start: real, ghost p0: Pool, ghost history: seq<Timed>)
    returns (next: Option<string>, used': set<string>, now: real, ghost history': seq<Timed>)
    requires pool.clock <= start && Running(p0, pool.Value(), pool.clock, before, key, used, answers, acceptsKey, retries, history)
    requires outcome == answers(|before|)
    requires outcome != Answered && !WantsRetry(before + [Attempt(key, outcome)], retries)
    modifies pool
    ensures pool.clock <= now && |pool.states| == |old(pool.states)|
    ensures next.Some? ==>
      Running(p0, pool.Value(), pool.clock, before + [Attempt(key, outcome)], next, used', answers, acceptsKey, retries, history')
    ensures next.None? ==>
      Ended(p0, pool.Value(), before + [Attempt(key, outcome)], Error(now), answers, acceptsKey, retries, history')
  {
    WantedIs(before, Attempt(key, outcome), retries);
    next, used', now, history' := ReportError(pool, acceptsKey, outcome, key, used, start, p0, history);
    if next.Some? {
      GoesOn(p0, pool.Value(), pool.clock, before, key, used, answers, retries, history', outcome, next.value);
    } else {
      GivesUp(p0, pool.Value(), before, key, used, answers, acceptsKey, retries, history', outcome, now);
    }
  }

  lemma TimeoutsGrow(log: seq<Attempt>, a: Attempt)
    ensures Timeouts(log + [a]) == Timeouts(log) + if a.outcome == TimedOut then 1 else 0
  {
    assert (log + [a])[..|log|] == log;
  }

  lemma TriesAgain(p0: Pool, q: Pool, clock: real, log: seq<Attempt>, key: Option<string>, used: set<string>, answers: Answers,
                   acceptsKey: bool, retries: int, history: seq<Timed>)
    requires Running(p0, q, clock, log, key, used, answers, acceptsKey, retries, history)
    requires answers(|log|) == TimedOut && Timeouts(log) + 1 <= retries
    ensures Running(p0, q, clock, log + [Attempt(key, TimedOut)], key, used, answers, acceptsKey, retries, history)
  {
    RetryIsLegal(Keys(q), log, key, used, retries);
    LogGrows(log, Attempt(key, TimedOut), retries);
    AnsweringMore(log, Attempt(key, TimedOut), answers);
  }

  lemma Responds(p0: Pool, q: Pool, q': Pool, clock: real, log: seq<Attempt>, key: Option<string>, used: set<string>,
                 answers: Answers, acceptsKey: bool, retries: int, history: seq<Timed>, history': seq<Timed>)
    requires Running(p0, q, clock, log, key, used, answers, acceptsKey, retries, history) && answers(|log|) == Answered
    requires Explains(history', p0, q') && ReportsIn(history') == ReportsIn(history) + [Good(key)]
    ensures Ended(p0, q', log + [Attempt(key, Answered)], Response, answers, acceptsKey, retries, history')
  {
    LogGrows(log, Attempt(key, Answered), retries);
    AnsweringMore(log, Attempt(key, Answered), answers);
  }

  /** One pass of the loop: None asks for another attempt. */
  method OneAttempt(pool: APIKeyPool, answers: Answers, acceptsKey: bool, retries: int, log: seq<Attempt>, timeouts: nat,
                    key: Option<string>, used: set<string>, start: real, ghost p0: Pool, ghost history: seq<Timed>)
    returns (log': seq<Attempt>, timeouts': nat, next: Option<string>, used': set<string>, now: real,
             verdict: Option<Verdict>, ghost history': seq<Timed>)
    requires pool.clock <= start && Running(p0, pool.Value(), pool.clock, log, key, used, answers, acceptsKey, retries, history)
    requires timeouts == Timeouts(log)
    modifies pool
    ensures pool.clock <= now && |pool.states| == |old(pool.states)|
    ensures |log'| == |log| + 1
    ensures verdict.None? ==>
      Running(p0, pool.Value(), pool.clock, log', next, used', answers, acceptsKey, retries, history') && timeouts' == Timeouts(log')
    ensures verdict.Some? ==> Ended(p0, pool.Value(), log', verdict.value, answers, acceptsKey, retries, history')
  {
    var outcome := answers(|log|);
    now := Tick(start);
    TimeoutsGrow(log, Attempt(key, outcome));
    log' := log + [Attempt(key, outcome)];
    timeouts', next, used', history', verdict := timeouts, key, used, history, None;
    if outcome == Answered {
      history' := RecordedSuccess(pool, key, now, p0, history);
      Responds(p0, old(pool.Value()), pool.Value(), old(pool.clock), log, key, used, answers, acceptsKey, retries, history, history');
      verdict := Some(Response);
      return;
    }
    if outcome == TimedOut {
      timeouts' := timeouts + 1;
      if timeouts' <= retries {
        TriesAgain(p0, pool.Value(), pool.clock, log, key, used, answers, acceptsKey, retries, history);
        return;
      }
    }
    next, used', now, history' := AfterError(pool, answers, acceptsKey, retries, log, outcome, key, used, now, p0, history);
    if next.None? {
      verdict := Some(Error(now));
    }
  }

  method RecordedSuccess(pool: APIKeyPool, key: Option<string>, now: real, ghost p0: Pool, ghost history: seq<Timed>)
    returns (ghost history': seq<Timed>)
    requires pool.clock <= now && ExplainsBy(history, p0, pool.Value(), pool.clock)
    modifies pool`states
    ensures Explains(history', p0, pool.Value())
    ensures ReportsIn(history') == ReportsIn(history) + [Good(key)]
    ensures |pool.states| == |old(pool.states)|
  {
    var t := Timed(now, ReportSuccess(key));
    Explain(history, p0, pool.Value(), pool.clock, t);
    AfterKeepsKeys(pool.Value(), t);
    history' := history + [t];
    pool.ReportSuccess(key);
  }

  /** The whole call. `acceptsKey` says whether the client builder can take another key. */
  method ChatCompletion(pool: APIKeyPool, answers: Answers, acceptsKey: bool, retries: int, start: real)
    returns (log: seq<Attempt>, verdict: Verdict, ghost history: seq<Timed>)
    requires pool.Value().Valid() && pool.clock <= start
    modifies pool
    ensures Ended(old(pool.Value()), pool.Value(), log, verdict, answers, acceptsKey, retries, history)
    ensures |pool.states| == |old(pool.states)|
    ensures 1 <= |log| <= (if |pool.states| < 1 then 1 else |pool.states|) + Positive(retries)
  {
    log, history := [], [];
    var key, used, now, timeouts, result := None, {}, start, 0, None;
    key, used, now, history := ClientFromKeyPool(pool, used, now, old(pool.Value()), history);
    FirstIsUnderway(pool.Value(), key, used, retries);
    while true
      invariant pool.clock <= now && |pool.states| == |old(pool.states)|
      invariant Running(old(pool.Value()), pool.Value(), pool.clock, log, key, used, answers, acceptsKey, retries, history)
      invariant timeouts == Timeouts(log)
      decreases Positive(retries) + |pool.states| - |log|
    {
      AttemptBound(pool.Value(), log, key, used, retries);
      log, timeouts, key, used, now, result, history :=
        OneAttempt(pool, answers, acceptsKey, retries, log, timeouts, key, used, now, old(pool.Value()), history);
      if result.Some? {
        return log, result.value, history;
      }
    }
  }

  lemma FirstIsUnderway(p: Pool, key: Option<string>, used: set<string>, retries: int)
    requires key.Some? <==> p.states != []
    requires key.Some? ==> key.value in Keys(p)
    requires used == if key.Some? then {key.value} else {}
    ensures Underway(Keys(p), [], key, used, retries)
  {
    if p.states != [] {
      assert p.states[0].key in Keys(p);
    }
  }
  // ----- what that means for each kind of error -----

  /** An attempt is followed by another only after a timeout, a rate limit, a connection or server
      error, or an exhausted balance: any other error, like an answer, ends the call at once. */
  lemma OnlyTheseGoOn(log: seq<Attempt>, retries: int, i: nat)
    requires LegalLog(log, retries) && i + 1 < |log|
    ensures var outcome := log[i].outcome;
      outcome == TimedOut
      || (outcome.Errored? && outcome.category in {RateLimit, ConnectionError, ServerError, InsufficientBalance})
    ensures log[i].outcome.Errored? || Timeouts(log[..i + 1]) > retries ==>
      log[i + 1].key.Some? && forall j :: 0 <= j <= i ==> log[j].key != log[i + 1].key
    ensures log[i].outcome == TimedOut && Timeouts(log[..i + 1]) <= retries ==> log[i + 1].key == log[i].key
  {
    var done := log[..i + 1];
    assert LegalNext(done, log[i + 1].key, retries);
    assert done[|done| - 1] == log[i];
    assert forall j :: 0 <= j <= i ==> done[j] == log[j];
  }

  /** When one of these errors, or a timeout past the budget, reaches the caller although another key
      could be taken, every key of the pool has been used in this call or is cooling. */
  lemma RaisedOnlyWhenExhausted(p0: Pool, q: Pool, log: seq<Attempt>, verdict: Verdict, answers: Answers, retries: int,
                                history: seq<Timed>, k: nat)
    requires Ended(p0, q, log, verdict, answers, true, retries, history) && verdict.Error? && k < |q.states|
    requires var outcome := answers(|log| - 1);
      outcome == TimedOut
      || (outcome.Errored? && outcome.category in {RateLimit, ConnectionError, ServerError, InsufficientBalance})
    ensures q.states[k].cooldownUntil > verdict.at
      || exists i :: 0 <= i < |log| && log[i].key == Some(q.states[k].key)
  {
    assert log[|log| - 1].outcome == answers(|log| - 1);
    assert WantsFailover(log, retries);
    if q.states[k].key in KeysUsed(log) {
      var i :| 0 <= i < |log| && log[i].key.Some? && log[i].key.value == q.states[k].key;
      assert log[i].key == Some(q.states[k].key);
    }
  }
}
