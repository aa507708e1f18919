/** The API-key pool (core/llm_key_pool.py): round robin with a cooldown for each key.

    The monotonic clock is a parameter of every call; a ghost clock records that it never
    runs backwards. Random jitter is a parameter too, within its configured bound. */
module KeyPool {
  import opened Options
  import opened Ordering

  datatype KeyState = KeyState(key: string, cooldownUntil: real, failures: nat, successes: nat)

  datatype Category =
    | InsufficientBalance | RateLimit | ConnectionError | ServerError | TransportTimeout | OtherError

  /** The pool as a value: what one call leaves for the next. */
  datatype Pool = Pool(states: seq<KeyState>, cursor: nat, defaultCooldown: real, failureCooldown: real) {
    ghost predicate Valid() {
      && (states == [] ==> cursor == 0)
      && (states != [] ==> cursor < |states|)
      && defaultCooldown >= 1.0 && failureCooldown >= 0.0
      && (forall i :: 0 <= i < |states| ==> states[i].key != "")
      && DistinctKeys(states)
    }
  }

  const BALANCE_COOLDOWN := 1800.0
  const MAX_JITTER := 0.25

  ghost predicate DistinctKeys(states: seq<KeyState>) {
    forall i, j :: 0 <= i < j < |states| ==> states[i].key != states[j].key
  }

  predicate AllExcluded(states: seq<KeyState>, exclude: set<string>) {
    forall i :: 0 <= i < |states| ==> states[i].key in exclude
  }

  /** Excluded keys come back into play only when nothing else is configured. */
  predicate Candidate(states: seq<KeyState>, exclude: set<string>, i: nat)
    requires i < |states|
  {
    states[i].key !in exclude || AllExcluded(states, exclude)
  }

  predicate Free(states: seq<KeyState>, exclude: set<string>, now: real, i: nat)
    requires i < |states|
  {
    Candidate(states, exclude, i) && states[i].cooldownUntil <= now
  }

  /** The position `d` places after the cursor. */
  function Slot(p: Pool, d: nat): (i: nat)
    requires p.states != []
    ensures i < |p.states|
  {
    (p.cursor + d) % |p.states|
  }

  /** The smallest offset from the cursor, at least `d`, that holds a free key; |states| if none. */
  function FreeOffset(p: Pool, exclude: set<string>, now: real, d: nat): (offset: nat)
    requires d <= |p.states|
    ensures d <= offset <= |p.states|
    decreases |p.states| - d
  {
    if d == |p.states| || Free(p.states, exclude, now, Slot(p, d)) then d
    else FreeOffset(p, exclude, now, d + 1)
  }

  lemma {:induction false} FreeOffsetIs(p: Pool, exclude: set<string>, now: real, d: nat)
    requires d <= |p.states| && p.states != []
    ensures var offset := FreeOffset(p, exclude, now, d);
      && (offset < |p.states| ==> Free(p.states, exclude, now, Slot(p, offset)))
      && (forall e :: d <= e < offset ==> !Free(p.states, exclude, now, Slot(p, e)))
    decreases |p.states| - d
  {
    if d < |p.states| && !Free(p.states, exclude, now, Slot(p, d)) {
      FreeOffsetIs(p, exclude, now, d + 1);
    }
  }

  /** The earliest end of a cooldown among the candidates from index `i` on. */
  function Earliest(states: seq<KeyState>, exclude: set<string>, i: nat): Option<real>
    requires i <= |states|
    decreases |states| - i
  {
    if i == |states| then None
    else
      var rest := Earliest(states, exclude, i + 1);
      if !Candidate(states, exclude, i) then rest
      else if rest.Some? && rest.value < states[i].cooldownUntil then rest
      else Some(states[i].cooldownUntil)
  }

  function NotNegative(x: real): real {
    if x < 0.0 then 0.0 else x
  }

  function Later(x: real, y: real): real {
    if x < y then y else x
  }

  /** What `acquire` returns, and the cursor it leaves. */
  function Acquired(p: Pool, exclude: set<string>, now: real): (Option<string>, real, nat) {
    var n := |p.states|;
    if n == 0 then (None, 0.0, p.cursor)
    else
      var d := FreeOffset(p, exclude, now, 0);
      if d < n then
        var i := Slot(p, d);
        (Some(p.states[i].key), 0.0, (i + 1) % n)
      else
        var earliest := Earliest(p.states, exclude, 0);
        (None, if earliest.Some? then NotNegative(earliest.value - now) else 0.0, p.cursor)
  }

  function Succeeded(s: KeyState): KeyState {
    s.(successes := s.successes + 1, failures := 0)
  }

  function Failed(s: KeyState, category: Category, retryAfter: Option<real>, noise: real, p: Pool, now: real): KeyState {
    var until :=
      if category == InsufficientBalance then Later(s.cooldownUntil, now + BALANCE_COOLDOWN)
      else if category == RateLimit then
        var cooldown := (if retryAfter.Some? then retryAfter.value else p.defaultCooldown) * (1.0 + noise);
        Later(s.cooldownUntil, now + NotNegative(cooldown))
      else if (category == ConnectionError || category == ServerError) && p.failureCooldown != 0.0 then
        Later(s.cooldownUntil, now + p.failureCooldown)
      else s.cooldownUntil;
    s.(failures := s.failures + 1, cooldownUntil := until)
  }

  /** The position of a key; |states| when it is not configured. */
  function IndexOf(states: seq<KeyState>, key: string): (i: nat)
    ensures i <= |states|
    ensures i < |states| ==> states[i].key == key
    ensures forall k :: 0 <= k < i ==> states[k].key != key
  {
    if states == [] || states[0].key == key then 0
    else
      var rest := IndexOf(states[1..], key);
      assert forall k :: 1 <= k < |states| ==> states[k] == states[1..][k - 1];
      rest + 1
  }

  function WithSuccess(p: Pool, key: Option<string>): Pool {
    if key.None? || key.value == "" then p
    else
      var i := IndexOf(p.states, key.value);
      if i == |p.states| then p else p.(states := p.states[i := Succeeded(p.states[i])])
  }

  function WithFailure(p: Pool, key: Option<string>, category: Category, retryAfter: Option<real>, noise: real, now: real): Pool {
    if key.None? || key.value == "" then p
    else
      var i := IndexOf(p.states, key.value);
      if i == |p.states| then p
      else p.(states := p.states[i := Failed(p.states[i], category, retryAfter, noise, p, now)])
  }

  /** Key lists are deduplicated before a pool is built: first occurrences, in order. */
  function FirstOccurrences(values: seq<string>, seen: set<string>): seq<string> {
    if values == [] then []
    else if values[0] != "" && values[0] !in seen then
      [values[0]] + FirstOccurrences(values[1..], seen + {values[0]})
    else FirstOccurrences(values[1..], seen)
  }

  lemma {:induction false} FirstOccurrencesDistinct(values: seq<string>, seen: set<string>)
    ensures Distinct(FirstOccurrences(values, seen))
    ensures forall v :: v in FirstOccurrences(values, seen) <==> v in values && v != "" && v !in seen
  {
    if values != [] {
      assert values == [values[0]] + values[1..];
      if values[0] != "" && values[0] !in seen {
        FirstOccurrencesDistinct(values[1..], seen + {values[0]});
      } else {
        FirstOccurrencesDistinct(values[1..], seen);
      }
    }
  }

  method UniqueKeys(values: seq<string>) returns (unique: seq<string>)
    ensures unique == FirstOccurrences(values, {})
    ensures Distinct(unique) && "" !in unique
  {
    unique := [];
    var seen: set<string> := {};
    assert values[0..] == values;
    for i := 0 to |values|
      invariant unique + FirstOccurrences(values[i..], seen) == FirstOccurrences(values, {})
    {
      assert values[i..][0] == values[i] && values[i..][1..] == values[i + 1..];
      if values[i] != "" && values[i] !in seen {
        unique := unique + [values[i]];
        seen := seen + {values[i]};
      }
    }
    FirstOccurrencesDistinct(values, {});
  }

  /** The generator passed to `min`. */
  method EarliestOf(states: seq<KeyState>, exclude: set<string>, candidates: seq<int>) returns (earliest: real)
    requires candidates != []
    requires forall i :: i in candidates <==> 0 <= i < |states| && Candidate(states, exclude, i)
    ensures Earliest(states, exclude, 0) == Some(earliest)
  {
    assert candidates[0] in candidates;
    earliest := states[candidates[0]].cooldownUntil;
    ghost var at := candidates[0];
    for k := 1 to |candidates|
      invariant at in candidates && earliest == states[at].cooldownUntil
      invariant forall m :: 0 <= m < k ==> candidates[m] in candidates && earliest <= states[candidates[m]].cooldownUntil
    {
      assert candidates[k] in candidates;
      if states[candidates[k]].cooldownUntil < earliest {
        at := candidates[k];
        earliest := states[candidates[k]].cooldownUntil;
      }
    }
    EarliestIs(states, exclude, 0);
    forall i | 0 <= i < |states| && Candidate(states, exclude, i) ensures earliest <= states[i].cooldownUntil {
      var m :| 0 <= m < |candidates| && candidates[m] == i;
    }
  }

  class APIKeyPool {
    var states: seq<KeyState>
    var cursor: nat
    const defaultCooldown: real
    const failureCooldown: real
    /** The latest time any call has seen. */
    ghost var clock: real

    constructor (keys: seq<string>, defaultCooldown: real, failureCooldown: real)
      requires Distinct(keys) && "" !in keys
      ensures Value().Valid()
      ensures |states| == |keys| && cursor == 0 && clock == 0.0
      ensures this.defaultCooldown == (if defaultCooldown < 1.0 then 1.0 else defaultCooldown)
      ensures this.failureCooldown == (if failureCooldown < 0.0 then 0.0 else failureCooldown)
      ensures forall i :: 0 <= i < |keys| ==> states[i] == KeyState(keys[i], 0.0, 0, 0)
    {
      this.states := seq(|keys|, i requires 0 <= i < |keys| => KeyState(keys[i], 0.0, 0, 0));
      this.cursor := 0;
      this.defaultCooldown := Later(1.0, defaultCooldown);
      this.failureCooldown := NotNegative(failureCooldown);
      this.clock := 0.0;
    }

    function Value(): Pool
      reads this
    {
      Pool(states, cursor, defaultCooldown, failureCooldown)
    }

    method Acquire(exclude: set<string>, now: real) returns (key: Option<string>, wait: real)
      requires Value().Valid() && clock <= now
      modifies this`cursor, this`clock
      ensures Value().Valid() && clock == now
      ensures (key, wait, cursor) == Acquired(old(Value()), exclude, now)
    {
      clock := now;
      if |states| == 0 {
        return None, 0.0;
      }
      var candidates := Candidates(Value(), exclude);
      var available := Filter(candidates, Cool(states, now));
      CandidatesAre(Value(), exclude, now);
      if available != [] {
        var index := available[0];
        key, wait := Some(states[index].key), 0.0;
        cursor := (index + 1) % |states|;
      } else {
        var earliest := EarliestOf(states, exclude, candidates);
        key, wait := None, NotNegative(earliest - now);
      }
    }

    method ReportSuccess(key: Option<string>)
      requires Value().Valid()
      modifies this`states
      ensures Value() == WithSuccess(old(Value()), key) && Value().Valid()
    {
      if key.None? || key.value == "" {
        return;
      }
      for i := 0 to |states|
        invariant states == old(states)
        invariant forall k :: 0 <= k < i ==> states[k].key != key.value
      {
        if states[i].key == key.value {
          states := states[i := Succeeded(states[i])];
          IndexUnique(old(states), key.value, i);
          return;
        }
      }
      IndexUnique(states, key.value, |states|);
    }

    method ReportFailure(key: Option<string>, category: Category, retryAfter: Option<real>, noise: real, now: real)
      requires Value().Valid() && clock <= now
      requires -MAX_JITTER <= noise <= MAX_JITTER
      modifies this`states, this`clock
      ensures Value() == WithFailure(old(Value()), key, category, retryAfter, noise, now)
      ensures Value().Valid() && clock == now
    {
      clock := now;
      if key.None? || key.value == "" {
        return;
      }
      for i := 0 to |states|
        invariant states == old(states)
        invariant forall k :: 0 <= k < i ==> states[k].key != key.value
      {
        if states[i].key == key.value {
          states := states[i := Failed(states[i], category, retryAfter, noise, Value(), now)];
          IndexUnique(old(states), key.value, i);
          return;
        }
      }
      IndexUnique(states, key.value, |states|);
    }

    method HasAlternative(used: set<string>, now: real) returns (found: bool)
      requires Value().Valid() && clock <= now
      modifies this`clock
      ensures clock == now
      ensures found <==> exists i :: 0 <= i < |states| && states[i].key !in used && states[i].cooldownUntil <= now
    {
      clock := now;
      for i := 0 to |states|
        invariant forall k :: 0 <= k < i ==> states[k].key in used || states[k].cooldownUntil > now
      {
        if states[i].key !in used && states[i].cooldownUntil <= now {
          return true;
        }
      }
      return false;
    }
  }

  lemma IndexUnique(states: seq<KeyState>, key: string, i: nat)
    requires i <= |states| && (i < |states| ==> states[i].key == key)
    requires forall k :: 0 <= k < i ==> states[k].key != key
    ensures IndexOf(states, key) == i
  {
  }

  // The lists built by `acquire`.

  function Rotation(p: Pool): (ordered: seq<int>)
    requires p.states != []
    ensures |ordered| == |p.states| && forall d :: 0 <= d < |ordered| ==> ordered[d] == Slot(p, d)
  {
    seq(|p.states|, d requires 0 <= d < |p.states| => Slot(p, d))
  }

  function Unused(states: seq<KeyState>, exclude: set<string>): int -> bool {
    i => 0 <= i < |states| && states[i].key !in exclude
  }

  function Cool(states: seq<KeyState>, now: real): int -> bool {
    i => 0 <= i < |states| && states[i].cooldownUntil <= now
  }

  function IsCandidate(states: seq<KeyState>, exclude: set<string>): int -> bool {
    i => 0 <= i < |states| && Candidate(states, exclude, i)
  }

  function IsFree(states: seq<KeyState>, exclude: set<string>, now: real): int -> bool {
    i => 0 <= i < |states| && Free(states, exclude, now, i)
  }

  function Candidates(p: Pool, exclude: set<string>): seq<int>
    requires p.states != []
  {
    var kept := Filter(Rotation(p), Unused(p.states, exclude));
    if kept == [] then Rotation(p) else kept
  }

  lemma RotationMembers(p: Pool)
    requires p.Valid() && p.states != []
    ensures forall i :: i in Rotation(p) <==> 0 <= i < |p.states|
  {
    var n := |p.states|;
    forall i | 0 <= i < n ensures i in Rotation(p) {
      var d := if i >= p.cursor then i - p.cursor else i + n - p.cursor;
      WrapAround(p.cursor, d, n);
      assert Rotation(p)[d] == i;
    }
  }

  /** Falling back to every key when all are excluded is the same as filtering candidates. */
  lemma FallbackIsCandidates(p: Pool, exclude: set<string>)
    requires p.Valid() && p.states != []
    ensures Candidates(p, exclude) == Filter(Rotation(p), IsCandidate(p.states, exclude))
  {
    var ordered, unused, isCandidate := Rotation(p), Unused(p.states, exclude), IsCandidate(p.states, exclude);
    RotationMembers(p);
    FilterMembers(ordered, unused);
    var kept := Filter(ordered, unused);
    if kept == [] {
      forall i | 0 <= i < |p.states| ensures p.states[i].key in exclude {
        assert i in ordered && i !in kept;
      }
      FilterAll(ordered, isCandidate);
    } else {
      assert kept[0] in kept;
      FilterSame(ordered, unused, isCandidate);
    }
  }

  /** The lists are the rotated candidates and the free ones among them. */
  lemma CandidatesAre(p: Pool, exclude: set<string>, now: real)
    requires p.Valid() && p.states != []
    ensures var candidates := Candidates(p, exclude);
      && (forall i :: i in candidates <==> 0 <= i < |p.states| && Candidate(p.states, exclude, i))
      && candidates != []
    ensures var available := Filter(Candidates(p, exclude), Cool(p.states, now));
      var d := FreeOffset(p, exclude, now, 0);
      if d < |p.states| then available != [] && available[0] == Slot(p, d) else available == []
  {
    FallbackIsCandidates(p, exclude);
    var ordered := Rotation(p);
    RotationMembers(p);
    FilterMembers(ordered, IsCandidate(p.states, exclude));
    FilterTwice(ordered, IsCandidate(p.states, exclude), Cool(p.states, now), IsFree(p.states, exclude, now));
    FreeOffsetIs(p, exclude, now, 0);
    FilterFirst(ordered, IsFree(p.states, exclude, now), FreeOffset(p, exclude, now, 0));
  }

  lemma WrapAround(c: nat, d: nat, n: nat)
    requires c < n && d < n
    ensures (c + d) % n == if c + d < n then c + d else c + d - n
  {
    if c + d >= n {
      assert (c + d) % n == (c + d - n) % n;
    }
  }

  lemma {:induction false} EarliestIs(states: seq<KeyState>, exclude: set<string>, i: nat)
    requires i <= |states|
    ensures var e := Earliest(states, exclude, i);
      && (e.Some? <==> exists k :: i <= k < |states| && Candidate(states, exclude, k))
      && (e.Some? ==> exists k :: i <= k < |states| && Candidate(states, exclude, k) && states[k].cooldownUntil == e.value)
      && (e.Some? ==> forall k :: i <= k < |states| && Candidate(states, exclude, k) ==> e.value <= states[k].cooldownUntil)
    decreases |states| - i
  {
    if i < |states| {
      EarliestIs(states, exclude, i + 1);
    }
  }
}
