/** Properties of the key pool over every history of calls. */
module KeyPoolHistory {
  import opened Options
  import opened Ordering
  import opened KeyPool

  datatype Call =
    | Acquire(exclude: set<string>)
    | ReportSuccess(ok: Option<string>)
    | ReportFailure(failed: Option<string>, category: Category, retryAfter: Option<real>, noise: real)

  datatype Timed = Timed(at: real, call: Call)

  /** The pool after one call; APIKeyPool's methods leave exactly this. */
  function After(p: Pool, t: Timed): Pool {
    match t.call
    case Acquire(exclude) => p.(cursor := Acquired(p, exclude, t.at).2)
    case ReportSuccess(key) => WithSuccess(p, key)
    case ReportFailure(key, category, retryAfter, noise) => WithFailure(p, key, category, retryAfter, noise, t.at)
  }

  function Run(p: Pool, history: seq<Timed>): Pool
    decreases |history|
  {
    if history == [] then p else Run(After(p, history[0]), history[1..])
  }

  lemma AfterIsValid(p: Pool, t: Timed)
    requires p.Valid()
    ensures After(p, t).Valid()
  {
  }

  // ----- cooldowns -----

  /** Same keys in the same slots, and no cooldown shortened. */
  ghost predicate NoEarlier(p: Pool, q: Pool) {
    && |q.states| == |p.states|
    && forall i :: 0 <= i < |p.states| ==>
      q.states[i].key == p.states[i].key && p.states[i].cooldownUntil <= q.states[i].cooldownUntil
  }

  /** Over every history, whatever the times and the jitter, cooldowns only move later. */
  lemma {:induction false} CooldownsOnlyGrow(p: Pool, history: seq<Timed>)
    requires p.Valid()
    ensures Run(p, history).Valid() && NoEarlier(p, Run(p, history))
    decreases |history|
  {
    if history != [] {
      var q := After(p, history[0]);
      assert NoEarlier(p, q);
      CooldownsOnlyGrow(q, history[1..]);
    }
  }

  /** A returned key is configured and not cooling, and it is excluded only if every key is. */
  lemma AcquiredIsUsable(p: Pool, exclude: set<string>, now: real)
    requires p.Valid() && Acquired(p, exclude, now).0.Some?
    ensures var key := Acquired(p, exclude, now).0.value;
      exists i :: 0 <= i < |p.states| && p.states[i].key == key && p.states[i].cooldownUntil <= now
        && (key in exclude ==> AllExcluded(p.states, exclude))
  {
    FreeOffsetIs(p, exclude, now, 0);
    var i := Slot(p, FreeOffset(p, exclude, now, 0));
    assert Free(p.states, exclude, now, i);
  }

  /** A key that is cooling until some time is returned by no acquire before then, whatever
      happens in between. */
  lemma CoolingRests(p: Pool, key: string, until: real, history: seq<Timed>, exclude: set<string>, now: real)
    requires p.Valid() && now < until
    requires forall i :: 0 <= i < |p.states| && p.states[i].key == key ==> p.states[i].cooldownUntil >= until
    ensures Acquired(Run(p, history), exclude, now).0 != Some(key)
  {
    var q := Run(p, history);
    CooldownsOnlyGrow(p, history);
    if Acquired(q, exclude, now).0.Some? {
      AcquiredIsUsable(q, exclude, now);
    }
  }

  /** What the report does to the key it names. */
  lemma FailureCools(p: Pool, key: string, category: Category, retryAfter: Option<real>, noise: real, t: real, i: nat)
    requires p.Valid() && i < |p.states| && p.states[i].key == key
    ensures WithFailure(p, Some(key), category, retryAfter, noise, t).states[i] == Failed(p.states[i], category, retryAfter, noise, p, t)
  {
    IndexUnique(p.states, key, i);
  }

  /** A key that ran out of balance at time t is returned by no acquire before t + 1800. */
  lemma BalanceRest(p: Pool, key: string, t: real, retryAfter: Option<real>, noise: real,
                    history: seq<Timed>, exclude: set<string>, now: real)
    requires p.Valid() && now < t + BALANCE_COOLDOWN
    ensures var q := Run(WithFailure(p, Some(key), InsufficientBalance, retryAfter, noise, t), history);
      Acquired(q, exclude, now).0 != Some(key)
  {
    var rested := WithFailure(p, Some(key), InsufficientBalance, retryAfter, noise, t);
    forall i: nat | i < |p.states| && p.states[i].key == key ensures rested.states[i].cooldownUntil >= t + BALANCE_COOLDOWN {
      FailureCools(p, key, InsufficientBalance, retryAfter, noise, t, i);
    }
    CoolingRests(rested, key, t + BALANCE_COOLDOWN, history, exclude, now);
  }

  lemma LeastJitter(wait: real, noise: real)
    requires wait >= 0.0 && noise >= -MAX_JITTER
    ensures wait * (1.0 + noise) >= 0.75 * wait
  {
    assert wait * (1.0 + noise) == wait + wait * noise;
    assert wait * noise + wait * 0.25 == wait * (noise + 0.25) >= 0.0;
  }

  /** The wait a rate limit asks for. */
  function RateLimitWait(p: Pool, retryAfter: Option<real>): real {
    if retryAfter.Some? then retryAfter.value else p.defaultCooldown
  }

  lemma RateLimitCools(s: KeyState, p: Pool, retryAfter: Option<real>, noise: real, t: real)
    requires noise >= -MAX_JITTER && RateLimitWait(p, retryAfter) >= 0.0
    ensures Failed(s, RateLimit, retryAfter, noise, p, t).cooldownUntil >= t + 0.75 * RateLimitWait(p, retryAfter)
  {
    LeastJitter(RateLimitWait(p, retryAfter), noise);
  }

  /** A key that hit its rate limit rests for at least three quarters of the time the provider
      asked for, or of the default when it asked for none. */
  lemma RateLimitRest(p: Pool, key: string, t: real, retryAfter: Option<real>, noise: real,
                      history: seq<Timed>, exclude: set<string>, now: real)
    requires p.Valid() && noise >= -MAX_JITTER && RateLimitWait(p, retryAfter) >= 0.0
    requires now < t + 0.75 * RateLimitWait(p, retryAfter)
    ensures var q := Run(WithFailure(p, Some(key), RateLimit, retryAfter, noise, t), history);
      Acquired(q, exclude, now).0 != Some(key)
  {
    var rested, until := WithFailure(p, Some(key), RateLimit, retryAfter, noise, t), t + 0.75 * RateLimitWait(p, retryAfter);
    forall i: nat | i < |p.states| && p.states[i].key == key ensures rested.states[i].cooldownUntil >= until {
      FailureCools(p, key, RateLimit, retryAfter, noise, t, i);
      RateLimitCools(p.states[i], p, retryAfter, noise, t);
    }
    CoolingRests(rested, key, until, history, exclude, now);
  }

  lemma MostJitter(wait: real, noise: real)
    requires wait >= 0.0 && noise <= 0.25
    ensures Jittered(wait, noise) <= 1.25 * wait
  {
    assert wait * (1.0 + noise) == wait + wait * noise;
    assert wait * 0.25 - wait * noise == wait * (0.25 - noise) >= 0.0;
  }

  /** `until` is the later of two times. */
  predicate LaterOf(until: real, x: real, y: real) {
    until >= x && until >= y && (until == x || until == y)
  }

  lemma NegativeJitter(wait: real, noise: real)
    requires wait < 0.0 && -0.25 <= noise
    ensures Jittered(wait, noise) < 0.0
  {
    assert (-wait) * (1.0 + noise) > 0.0;
  }

  /** The rest that a rate limit asks for, give or take a quarter, and none when that is negative; an
      earlier rest that lasts longer stands. */
  predicate RestsAbout(until: real, before: real, now: real, wait: real) {
    if wait < 0.0 then LaterOf(until, before, now)
    else until >= before && until >= now + 0.75 * wait && (until == before || until <= now + 1.25 * wait)
  }

  lemma RestRange(before: real, now: real, wait: real, rest: real)
    requires wait < 0.0 ==> rest < 0.0
    requires wait >= 0.0 ==> 0.75 * wait <= rest <= 1.25 * wait
    ensures RestsAbout(Later(before, now + NotNegative(rest)), before, now, wait)
  {
  }

  lemma JitterRange(wait: real, noise: real, rest: real)
    requires -0.25 <= noise <= 0.25 && rest == Jittered(wait, noise)
    ensures wait < 0.0 ==> rest < 0.0
    ensures wait >= 0.0 ==> 0.75 * wait <= rest <= 1.25 * wait
  {
    if wait < 0.0 {
      NegativeJitter(wait, noise);
    } else {
      LeastJitter(wait, noise);
      MostJitter(wait, noise);
    }
  }

  lemma RateLimitRange(s: KeyState, retryAfter: Option<real>, noise: real, p: Pool, now: real)
    requires -0.25 <= noise <= 0.25
    ensures RestsAbout(Failed(s, RateLimit, retryAfter, noise, p, now).cooldownUntil, s.cooldownUntil, now,
      RateLimitWait(p, retryAfter))
  {
    var rest := Jittered(RateLimitWait(p, retryAfter), noise);
    JitterRange(RateLimitWait(p, retryAfter), noise, rest);
    RateLimitUntil(s, retryAfter, noise, p, now, rest);
    RestRange(s.cooldownUntil, now, RateLimitWait(p, retryAfter), rest);
  }

  function Jittered(wait: real, noise: real): real {
    wait * (1.0 + noise)
  }

  lemma RateLimitUntil(s: KeyState, retryAfter: Option<real>, noise: real, p: Pool, now: real, rest: real)
    requires rest == Jittered(RateLimitWait(p, retryAfter), noise)
    ensures Failed(s, RateLimit, retryAfter, noise, p, now).cooldownUntil == Later(s.cooldownUntil, now + NotNegative(rest))
  {
  }

  /** How long the other failures keep a key out of use: half an hour without balance, the configured
      time after a connection or server error, and not at all after a timeout or any other error. */
  lemma FailureRests(s: KeyState, category: Category, retryAfter: Option<real>, noise: real, p: Pool, now: real)
    requires category != RateLimit
    ensures var until := Failed(s, category, retryAfter, noise, p, now).cooldownUntil;
      && (category == InsufficientBalance ==> LaterOf(until, s.cooldownUntil, now + 1800.0))
      && (category in {ConnectionError, ServerError} && p.failureCooldown != 0.0 ==>
            LaterOf(until, s.cooldownUntil, now + p.failureCooldown))
      && (category in {ConnectionError, ServerError} && p.failureCooldown == 0.0 ==> until == s.cooldownUntil)
      && (category in {TransportTimeout, OtherError} ==> until == s.cooldownUntil)
  {
  }

  /** A report concerns the key it names: its failures or successes are counted, a success forgets
      the failures, and nothing else of the pool changes but its cooldown after a failure. */
  lemma ReportConcerns(p: Pool, category: Category, retryAfter: Option<real>, noise: real, now: real, i: nat)
    requires p.Valid() && i < |p.states|
    ensures var s, q := p.states[i], WithFailure(p, Some(p.states[i].key), category, retryAfter, noise, now);
      q == p.(states := p.states[i := KeyState(s.key, Failed(s, category, retryAfter, noise, p, now).cooldownUntil, s.failures + 1, s.successes)])
    ensures var s, q := p.states[i], WithSuccess(p, Some(p.states[i].key));
      q == p.(states := p.states[i := KeyState(s.key, s.cooldownUntil, 0, s.successes + 1)])
  {
    IndexUnique(p.states, p.states[i].key, i);
  }

  /** With None comes the exact wait: earlier, acquiring still fails; from then on it succeeds. */
  lemma WaitIsExact(p: Pool, exclude: set<string>, now: real, later: real)
    requires p.Valid() && p.states != [] && now <= later
    requires Acquired(p, exclude, now).0 == None
    ensures var wait := Acquired(p, exclude, now).1;
      && wait > 0.0
      && (Acquired(p, exclude, later).0.Some? <==> later >= now + wait)
      && (later < now + wait ==> Acquired(p, exclude, later).1 == now + wait - later)
  {
    NoneFree(p, exclude, now);
    NoneFree(p, exclude, later);
    EarliestIs(p.states, exclude, 0);
    SomeCandidate(p, exclude);
    var e := Earliest(p.states, exclude, 0).value;
    var i :| 0 <= i < |p.states| && Candidate(p.states, exclude, i) && p.states[i].cooldownUntil == e;
    assert !Free(p.states, exclude, now, i);
    assert later >= e <==> Free(p.states, exclude, later, i);
    assert later < e ==> forall k :: 0 <= k < |p.states| ==> !Free(p.states, exclude, later, k);
  }

  /** Every slot is some distance after the cursor. */
  lemma Distance(p: Pool, i: nat) returns (d: nat)
    requires p.Valid() && i < |p.states|
    ensures d < |p.states| && Slot(p, d) == i
  {
    RotationMembers(p);
    assert i in Rotation(p);
    d :| 0 <= d < |p.states| && Rotation(p)[d] == i;
  }

  lemma NoneFree(p: Pool, exclude: set<string>, now: real)
    requires p.Valid() && p.states != []
    ensures FreeOffset(p, exclude, now, 0) < |p.states| <==> exists i :: 0 <= i < |p.states| && Free(p.states, exclude, now, i)
  {
    FreeOffsetIs(p, exclude, now, 0);
    if i :| 0 <= i < |p.states| && Free(p.states, exclude, now, i) {
      var d := Distance(p, i);
      assert Free(p.states, exclude, now, Slot(p, d));
    }
  }

  lemma SomeCandidate(p: Pool, exclude: set<string>)
    requires p.states != []
    ensures exists k :: 0 <= k < |p.states| && Candidate(p.states, exclude, k)
  {
    if !AllExcluded(p.states, exclude) {
      var k :| 0 <= k < |p.states| && p.states[k].key !in exclude;
      assert Candidate(p.states, exclude, k);
    } else {
      assert Candidate(p.states, exclude, 0);
    }
  }

  /** What `has_alternative` asks: some unused key is not cooling. */
  ghost predicate HasAlternative(p: Pool, used: set<string>, now: real) {
    exists i :: 0 <= i < |p.states| && p.states[i].key !in used && p.states[i].cooldownUntil <= now
  }

  /** There is an alternative exactly when an acquire that excludes the used keys returns an
      unused one. */
  lemma AlternativeIsAcquired(p: Pool, used: set<string>, now: real)
    requires p.Valid()
    ensures HasAlternative(p, used, now) <==> Acquired(p, used, now).0.Some? && Acquired(p, used, now).0.value !in used
  {
    if i :| 0 <= i < |p.states| && p.states[i].key !in used && p.states[i].cooldownUntil <= now {
      assert Free(p.states, used, now, i);
      NoneFree(p, used, now);
    }
    if Acquired(p, used, now).0.Some? {
      AcquiredIsUsable(p, used, now);
    }
  }

  // ----- round robin -----

  /** The members of `turn` among the positions a, a + 1, ..., b - 1, read modulo n. */
  function Window(n: nat, turn: set<nat>, a: nat, b: nat): seq<nat>
    requires n > 0 && a <= b
    decreases b - a
  {
    if a == b then []
    else if a % n in turn then [a % n] + Window(n, turn, a + 1, b)
    else Window(n, turn, a + 1, b)
  }

  /** The keys of the acquires in a history, in order. */
  function Returned(p: Pool, history: seq<Timed>): seq<Option<string>>
    decreases |history|
  {
    if history == [] then []
    else
      var rest := Returned(After(p, history[0]), history[1..]);
      match history[0].call
      case Acquire(exclude) => [Acquired(p, exclude, history[0].at).0] + rest
      case _ => rest
  }

  /** At every acquire of the history nothing is excluded and exactly the slots in `turn` are
      not cooling; reports of outcomes may come in between. */
  ghost predicate FixedAvailability(p: Pool, history: seq<Timed>, turn: set<nat>)
    decreases |history|
  {
    history == [] || (
      && (history[0].call.Acquire? ==>
        && history[0].call.exclude == {}
        && forall i: nat :: i in turn <==> i < |p.states| && p.states[i].cooldownUntil <= history[0].at)
      && FixedAvailability(After(p, history[0]), history[1..], turn))
  }

  function KeysAt(p: Pool, slots: seq<nat>): seq<Option<string>>
    requires forall s :: s in slots ==> s < |p.states|
  {
    seq(|slots|, k requires 0 <= k < |slots| => assert slots[k] in slots; Some(p.states[slots[k]].key))
  }

  /** The slots acquire passes over are those before the first usable one. */
  lemma PassedOver(p: Pool, now: real, turn: set<nat>, a: nat, e: nat)
    requires p.Valid() && p.states != [] && a % |p.states| == p.cursor
    requires forall i: nat :: i in turn <==> i < |p.states| && p.states[i].cooldownUntil <= now
    requires a <= e < a + FreeOffset(p, {}, now, 0)
    ensures e % |p.states| !in turn
  {
    FreeOffsetIs(p, {}, now, 0);
    ModShift(a, e - a, |p.states|);
    assert Slot(p, e - a) == e % |p.states|;
    assert !Free(p.states, {}, now, Slot(p, e - a));
  }

  lemma TurnIsFree(p: Pool, now: real, turn: set<nat>)
    requires p.Valid() && p.states != [] && turn != {}
    requires forall i: nat :: i in turn <==> i < |p.states| && p.states[i].cooldownUntil <= now
    ensures FreeOffset(p, {}, now, 0) < |p.states| && Slot(p, FreeOffset(p, {}, now, 0)) in turn
  {
    FreeOffsetIs(p, {}, now, 0);
    NoneFree(p, {}, now);
    var i :| i in turn;
    assert Free(p.states, {}, now, i);
  }

  /** With nothing excluded, acquire takes the first member of `turn` from the cursor on. */
  lemma AcquireTakesTurn(p: Pool, now: real, turn: set<nat>, a: nat)
    requires p.Valid() && p.states != [] && a % |p.states| == p.cursor
    requires turn != {} && forall i: nat :: i in turn <==> i < |p.states| && p.states[i].cooldownUntil <= now
    ensures var d := FreeOffset(p, {}, now, 0);
      && d < |p.states|
      && (a + d) % |p.states| == Slot(p, d)
      && Slot(p, d) in turn
      && (forall e :: a <= e < a + d ==> e % |p.states| !in turn)
      && Acquired(p, {}, now) == (Some(p.states[Slot(p, d)].key), 0.0, (a + d + 1) % |p.states|)
  {
    var n, d := |p.states|, FreeOffset(p, {}, now, 0);
    TurnIsFree(p, now, turn);
    ModShift(a, d, n);
    forall e | a <= e < a + d ensures e % n !in turn { PassedOver(p, now, turn, a, e); }
    ModShift(a + d, 1, n);
    AcquiredIs(p, now);
  }

  lemma AcquiredIs(p: Pool, now: real)
    requires p.Valid() && p.states != [] && FreeOffset(p, {}, now, 0) < |p.states|
    ensures var slot := Slot(p, FreeOffset(p, {}, now, 0));
      Acquired(p, {}, now) == (Some(p.states[slot].key), 0.0, (slot + 1) % |p.states|)
  {
  }

  lemma Distribute(n: nat, a: int, b: int)
    ensures n * (a + b) == n * a + n * b
  {
  }

  lemma ModShift(a: nat, e: nat, n: nat)
    requires n > 0
    ensures (a % n + e) % n == (a + e) % n
  {
    var q, r := a / n, a % n;
    var k, s := (r + e) / n, (r + e) % n;
    assert a == n * q + r && r + e == n * k + s;
    assert a + e == n * ((a + e) / n) + (a + e) % n;
    Distribute(n, q, k);
    RemainderUnique(n, (a + e) / n, q + k, (a + e) % n, s);
  }

  lemma AtLeast(n: nat, m: int)
    requires m >= 1
    ensures n * m >= n
  {
  }

  lemma RemainderUnique(n: nat, a: int, b: int, r: nat, s: nat)
    requires r < n && s < n && n * a + r == n * b + s
    ensures r == s
  {
    var d := a - b;
    assert n * a - n * b == n * d;
    assert n * (-d) == -(n * d);
    if d >= 1 {
      AtLeast(n, d);
    } else if d <= -1 {
      AtLeast(n, -d);
    }
  }

  lemma {:induction false} WindowSkips(n: nat, turn: set<nat>, a: nat, d: nat, b: nat)
    requires n > 0 && a + d < b
    requires forall e :: a <= e < a + d ==> e % n !in turn
    requires (a + d) % n in turn
    ensures Window(n, turn, a, b) == [(a + d) % n] + Window(n, turn, a + d + 1, b)
    decreases d
  {
    if d > 0 {
      assert a % n !in turn;
      WindowSkips(n, turn, a + 1, d - 1, b);
    }
  }

  lemma {:induction false} WindowMembers(n: nat, turn: set<nat>, a: nat, b: nat)
    requires n > 0 && a <= b
    ensures forall x :: x in Window(n, turn, a, b) <==> x in turn && exists e :: a <= e < b && e % n == x
    decreases b - a
  {
    if a < b {
      WindowMembers(n, turn, a + 1, b);
      forall x | x in turn && exists e :: a <= e < b && e % n == x ensures x in Window(n, turn, a, b) {
        var e :| a <= e < b && e % n == x;
        if e != a {
          assert a + 1 <= e < b && e % n == x;
        }
      }
    }
  }

  lemma ModApart(a: nat, e: nat, n: nat)
    requires n > 0 && a < e < a + n
    ensures e % n != a % n
  {
    ModShift(a, e - a, n);
    WrapAround(a % n, e - a, n);
  }

  lemma {:induction false} WindowDistinct(n: nat, turn: set<nat>, a: nat, b: nat)
    requires n > 0 && a <= b <= a + n
    ensures Distinct(Window(n, turn, a, b))
    decreases b - a
  {
    if a < b {
      WindowDistinct(n, turn, a + 1, b);
      WindowMembers(n, turn, a + 1, b);
      var rest := Window(n, turn, a + 1, b);
      forall k | 0 <= k < |rest| ensures rest[k] != a % n {
        assert rest[k] in rest;
        var e :| a + 1 <= e < b && e % n == rest[k];
        ModApart(a, e, n);
      }
    }
  }

  /** One full turn of the wheel meets every member of `turn` once. */
  lemma WindowIsTurn(n: nat, turn: set<nat>, a: nat)
    requires n > 0 && forall i :: i in turn ==> i < n
    ensures Distinct(Window(n, turn, a, a + n))
    ensures forall x :: x in Window(n, turn, a, a + n) <==> x in turn
    ensures |Window(n, turn, a, a + n)| == |turn|
  {
    var w := Window(n, turn, a, a + n);
    WindowDistinct(n, turn, a, a + n);
    WindowMembers(n, turn, a, a + n);
    forall x | x in turn ensures x in w {
      var k := if x >= a % n then x - a % n else x + n - a % n;
      ModShift(a, k, n);
      WrapAround(a % n, k, n);
      assert a <= a + k < a + n && (a + k) % n == x;
    }
    CountMembers(w, turn);
  }

  lemma {:induction false} CountMembers<T>(s: seq<T>, members: set<T>)
    requires Distinct(s) && forall x :: x in s <==> x in members
    ensures |s| == |members|
  {
    if s == [] {
      assert members == {};
    } else {
      assert s == [s[0]] + s[1..];
      assert s[0] in s;
      assert members == {s[0]} + (members - {s[0]});
      CountMembers(s[1..], members - {s[0]});
    }
  }

  lemma {:induction false} WindowEmpty(n: nat, turn: set<nat>, a: nat, b: nat)
    requires n > 0 && a <= b && forall e :: a <= e < b ==> e % n !in turn
    ensures Window(n, turn, a, b) == []
    decreases b - a
  {
    if a < b {
      assert a % n !in turn;
      WindowEmpty(n, turn, a + 1, b);
    }
  }

  /** The keys handed out follow the window that starts at the cursor. */
  lemma {:induction false} ReturnsWindow(p: Pool, history: seq<Timed>, turn: set<nat>, a: nat, b: nat)
    requires p.Valid() && p.states != [] && a % |p.states| == p.cursor && a <= b
    requires turn != {} && forall i :: i in turn ==> i < |p.states|
    requires FixedAvailability(p, history, turn)
    requires |Returned(p, history)| <= |Window(|p.states|, turn, a, b)|
    ensures forall x :: x in Window(|p.states|, turn, a, b) ==> x < |p.states|
    ensures Returned(p, history) == KeysAt(p, Window(|p.states|, turn, a, b))[..|Returned(p, history)|]
    decreases |history|
  {
    var n := |p.states|;
    WindowMembers(n, turn, a, b);
    if history != [] {
      var q := After(p, history[0]);
      AfterKeepsKeys(p, history[0]);
      if history[0].call.Acquire? {
        TurnTaken(p, history[0].at, turn, a, b);
        var d := FreeOffset(p, {}, history[0].at, 0);
        ReturnsWindow(q, history[1..], turn, a + d + 1, b);
        FirstOfWindow(p, q, Slot(p, d), Window(n, turn, a, b), Window(n, turn, a + d + 1, b), Returned(q, history[1..]));
      } else {
        ReturnsWindow(q, history[1..], turn, a, b);
        SameKeys(p, q, Window(n, turn, a, b));
      }
    }
  }

  /** The key at the first slot of the window, followed by a part of what the rest returns. */
  lemma FirstOfWindow(p: Pool, q: Pool, slot: nat, w: seq<nat>, rest: seq<nat>, returned: seq<Option<string>>)
    requires |q.states| == |p.states| && forall i :: 0 <= i < |p.states| ==> q.states[i].key == p.states[i].key
    requires forall x :: x in w ==> x < |p.states|
    requires w == [slot] + rest && |returned| <= |rest|
    requires forall x :: x in rest ==> x < |q.states|
    requires returned == KeysAt(q, rest)[..|returned|]
    ensures slot < |p.states| && [Some(p.states[slot].key)] + returned == KeysAt(p, w)[..|returned| + 1]
  {
    assert slot in w;
    SameKeys(p, q, rest);
    PrefixStep(KeysAt(p, w), KeysAt(q, rest), returned);
  }

  lemma AfterKeepsKeys(p: Pool, t: Timed)
    requires p.Valid()
    ensures After(p, t).Valid() && |After(p, t).states| == |p.states|
    ensures forall i :: 0 <= i < |p.states| ==> After(p, t).states[i].key == p.states[i].key
    ensures !t.call.Acquire? ==> After(p, t).cursor == p.cursor
  {
  }

  lemma SameKeys(p: Pool, q: Pool, slots: seq<nat>)
    requires |q.states| == |p.states| && forall i :: 0 <= i < |p.states| ==> q.states[i].key == p.states[i].key
    requires forall s :: s in slots ==> s < |p.states|
    ensures KeysAt(p, slots) == KeysAt(q, slots)
  {
    assert forall k :: 0 <= k < |slots| ==> slots[k] in slots;
  }

  lemma PrefixStep(all: seq<Option<string>>, rest: seq<Option<string>>, returned: seq<Option<string>>)
    requires |all| == |rest| + 1 && all[1..] == rest && |returned| <= |rest| && returned == rest[..|returned|]
    ensures [all[0]] + returned == all[..|returned| + 1]
  {
  }

  /** One acquire moves the window past the slot it took. */
  lemma TurnTaken(p: Pool, now: real, turn: set<nat>, a: nat, b: nat)
    requires p.Valid() && p.states != [] && a % |p.states| == p.cursor && a <= b
    requires turn != {} && forall i: nat :: i in turn <==> i < |p.states| && p.states[i].cooldownUntil <= now
    requires Window(|p.states|, turn, a, b) != []
    ensures var n, d := |p.states|, FreeOffset(p, {}, now, 0);
      && d < n && a + d + 1 <= b
      && Acquired(p, {}, now) == (Some(p.states[Slot(p, d)].key), 0.0, (a + d + 1) % n)
      && Window(n, turn, a, b) == [Slot(p, d)] + Window(n, turn, a + d + 1, b)
  {
    AcquireTakesTurn(p, now, turn, a);
    var n, d := |p.states|, FreeOffset(p, {}, now, 0);
    if a + d >= b {
      WindowEmpty(n, turn, a, b);
    } else {
      WindowSkips(n, turn, a, d, b);
    }
  }

  lemma OneTurn(p: Pool, history: seq<Timed>, turn: set<nat>) returns (w: seq<nat>)
    requires p.Valid() && p.states != []
    requires turn != {} && forall i :: i in turn ==> i < |p.states|
    requires FixedAvailability(p, history, turn)
    requires |Returned(p, history)| == |turn|
    ensures Distinct(w) && forall x :: x in w <==> x in turn
    ensures forall x :: x in w ==> x < |p.states|
    ensures Returned(p, history) == KeysAt(p, w)
  {
    w := Window(|p.states|, turn, p.cursor, p.cursor + |p.states|);
    WindowIsTurn(|p.states|, turn, p.cursor);
    ModSmall(p.cursor, |p.states|);
    ReturnsWindow(p, history, turn, p.cursor, p.cursor + |p.states|);
    WholePrefix(KeysAt(p, w), |Returned(p, history)|);
  }

  lemma ModSmall(c: nat, n: nat)
    requires c < n
    ensures c % n == c
  {
  }

  lemma WholePrefix<T>(s: seq<T>, k: nat)
    requires k == |s|
    ensures s[..k] == s
  {
  }

  /** While the set of non-cooling keys stays fixed and nothing is excluded, as many acquires as
      that set has members return each of its keys exactly once, from any cursor position. */
  lemma RoundRobin(p: Pool, history: seq<Timed>, turn: set<nat>)
    requires p.Valid() && p.states != []
    requires turn != {} && forall i :: i in turn ==> i < |p.states|
    requires FixedAvailability(p, history, turn)
    requires |Returned(p, history)| == |turn|
    ensures Distinct(Returned(p, history))
    ensures forall k :: k in Returned(p, history) <==> exists i :: i in turn && k == Some(p.states[i].key)
  {
    var w := OneTurn(p, history, turn);
    KeysOnce(p, w, turn);
  }

  lemma KeysOnce(p: Pool, slots: seq<nat>, turn: set<nat>)
    requires p.Valid() && Distinct(slots)
    requires forall x :: x in slots <==> x in turn
    requires forall x :: x in slots ==> x < |p.states|
    ensures Distinct(KeysAt(p, slots))
    ensures forall k :: k in KeysAt(p, slots) <==> exists i :: i in turn && k == Some(p.states[i].key)
  {
    var keys := KeysAt(p, slots);
    forall i, j | 0 <= i < j < |keys| ensures keys[i] != keys[j] {
      assert slots[i] in slots && slots[j] in slots;
    }
    forall i | i in turn ensures Some(p.states[i].key) in keys {
      var k :| 0 <= k < |slots| && slots[k] == i;
      assert keys[k] == Some(p.states[i].key);
    }
    forall k | k in keys ensures exists i :: i in turn && k == Some(p.states[i].key) {
      var m :| 0 <= m < |keys| && keys[m] == k;
      assert slots[m] in slots;
    }
  }
}
