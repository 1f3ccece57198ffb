/** The key service itself: key rows, a clock and the current key (battle-net.service.ts). */
module BattleNetService {
  import opened Wrappers
  import opened KeyHealth
  import opened KeySelection
  import opened KeyQuery

  datatype Saved = Seconds(cooldown: real) | NotFound

  /** keyUuid ?? current, where an empty string counts as missing. */
  function Resolve(keyUuid: Option<string>, current: Option<string>): Option<string> {
    var r := if keyUuid.Some? then keyUuid else current;
    if r == Some("") then None else r
  }

  /** The given id counts, or without one the current id; an empty id never does. */
  lemma ResolveExactly(keyUuid: Option<string>, current: Option<string>, uuid: string)
    ensures Resolve(keyUuid, current) == Some(uuid)
       <==> uuid != "" && (keyUuid == Some(uuid) || (keyUuid == None && current == Some(uuid)))
  {
  }

  /** What a record operation leaves behind. */
  function RecordedIfKnown(h: Health, keys: seq<Key>, uuid: Option<string>, e: Event, now: int): seq<Key> {
    if uuid.Some? && Has(keys, uuid.value) then Recorded(h, keys, uuid.value, e, now) else keys
  }

  /** What it answers. */
  function Answered(keys: seq<Key>, uuid: Option<string>): Saved {
    if uuid.Some? && Find(keys, uuid.value).Some? then Seconds(Find(keys, uuid.value).value.cooldown) else NotFound
  }

  /** The answer is the cooldown of the row with that id, or says that there is no such row. */
  ghost predicate Reports(keys: seq<Key>, uuid: Option<string>, r: Saved) {
    && (r == NotFound <==> uuid == None || forall k :: k in keys ==> k.uuid != uuid.value)
    && forall k :: k in keys && uuid == Some(k.uuid) ==> r == Seconds(k.cooldown)
  }

  lemma AnswerReports(keys: seq<Key>, uuid: Option<string>)
    requires UniqueIds(keys)
    ensures Reports(keys, uuid, Answered(keys, uuid))
  {
    forall k | k in keys && uuid == Some(k.uuid) ensures Answered(keys, uuid) == Seconds(k.cooldown) {
      var i :| 0 <= i < |keys| && keys[i] == k;
      FindAt(keys, i);
    }
  }

  const MAX_INITIALIZE := 10

  /** The delay before attempt n + 1 of initialize. The base delay counts as milliseconds here. */
  function BackoffMs(h: Health, n: nat): int
    requires n >= 1
  {
    Min(h.baseDelay * Pow(h.multiplier, n - 1), h.maxDelay * 1000.0).Floor
  }

  function TotalBackoffMs(h: Health, n: nat): int {
    if n == 0 then 0 else TotalBackoffMs(h, n - 1) + BackoffMs(h, n)
  }

  /** A delay is the whole milliseconds of the lesser of baseDelay * multiplier^(n - 1) and the maximum in seconds. */
  lemma BackoffExactly(h: Health, n: nat)
    requires n >= 1
    ensures var (grown, most) := (h.baseDelay * Pow(h.multiplier, n - 1), h.maxDelay * 1000.0);
            && BackoffMs(h, n) as real <= grown && BackoffMs(h, n) as real <= most
            && (grown < BackoffMs(h, n) as real + 1.0 || most < BackoffMs(h, n) as real + 1.0)
  {
    hide Pow;
  }

  /** The delays before poll n + 1, each with the lateness of its timer. */
  function DelaysMs(h: Health, lag: nat -> nat, n: nat): int {
    if n == 0 then 0 else DelaysMs(h, lag, n - 1) + BackoffMs(h, n) + lag(n)
  }

  /** Polling at start and after each delay stops at the first available key, or after the last poll. */
  ghost predicate StopsAt(h: Health, keys: seq<Key>, tag: Option<string>, lag: nat -> nat, start: int, stop: int) {
    exists n: nat :: StopsAtPoll(h, keys, tag, lag, start, stop, n)
  }

  ghost predicate StopsAtPoll(
    h: Health, keys: seq<Key>, tag: Option<string>, lag: nat -> nat, start: int, stop: int, n: nat)
  {
    && n < MAX_INITIALIZE
    && stop == start + DelaysMs(h, lag, n)
    && (forall m: nat :: m < n ==> GetAvailableKey(keys, tag, start + DelaysMs(h, lag, m)) == None)
    && (GetAvailableKey(keys, tag, stop) == None ==> n == MAX_INITIALIZE - 1)
  }

  lemma StopsHere(h: Health, keys: seq<Key>, tag: Option<string>, lag: nat -> nat, start: int, stop: int, n: nat)
    requires StopsAtPoll(h, keys, tag, lag, start, stop, n)
    ensures StopsAt(h, keys, tag, lag, start, stop)
  {
  }

  /** A key asked for whose remaining cooldown is at most so long. */
  ghost predicate ReadyWithin(keys: seq<Key>, tag: Option<string>, now: int, ms: int) {
    exists k :: k in keys && Asked(tag)(k) && KeyMs(k, now) <= ms
  }

  lemma WaitShrinks(k: Key, now: int, ms: nat)
    ensures KeyMs(k, now + ms) == 0 <==> KeyMs(k, now) <= ms
  {
    hide CooldownEnd;
  }

  /** A key is available some time later exactly when a key asked for has no longer to wait than that. */
  lemma FoundWithin(keys: seq<Key>, tag: Option<string>, now: int, ms: nat)
    ensures GetAvailableKey(keys, tag, now + ms).Some? <==> ReadyWithin(keys, tag, now, ms)
  {
    hide GetAvailableKey, KeyMs, Asked;
    NoneAvailableIffAllWait(keys, tag, now + ms);
    forall k | k in keys ensures KeyMs(k, now + ms) == 0 <==> KeyMs(k, now) <= ms {
      WaitShrinks(k, now, ms);
    }
  }

  lemma {:induction false} DelaysGrow(h: Health, lag: nat -> nat, n: nat, m: nat)
    requires h.Sane() && n <= m
    ensures 0 <= DelaysMs(h, lag, n) <= DelaysMs(h, lag, m)
    ensures TotalBackoffMs(h, m) <= DelaysMs(h, lag, m)
    decreases m
  {
    if m > 0 {
      BackoffNonNegative(h, m);
      DelaysGrow(h, lag, if n < m then n else m - 1, m - 1);
    }
  }

  /** Polling finds a key exactly when one asked for is ready within all the delays. */
  lemma PollingFinds(h: Health, keys: seq<Key>, tag: Option<string>, lag: nat -> nat, start: int, stop: int)
    requires h.Sane() && StopsAt(h, keys, tag, lag, start, stop)
    ensures GetAvailableKey(keys, tag, stop).Some?
       <==> ReadyWithin(keys, tag, start, DelaysMs(h, lag, MAX_INITIALIZE - 1))
  {
    hide GetAvailableKey, KeyMs, Asked, DelaysMs;
    var last := MAX_INITIALIZE - 1;
    var n: nat :| StopsAtPoll(h, keys, tag, lag, start, stop, n);
    DelaysGrow(h, lag, n, last);
    FoundWithin(keys, tag, start, DelaysMs(h, lag, n));
    FoundWithin(keys, tag, start, DelaysMs(h, lag, last));
  }

  lemma BackoffNonNegative(h: Health, n: nat)
    requires h.Sane() && n >= 1
    ensures BackoffMs(h, n) >= 0
  {
    PowNonNegative(h.multiplier, n - 1);
    assert h.baseDelay * Pow(h.multiplier, n - 1) >= 0.0;
  }

  lemma {:induction false} PowNonNegative(m: real, n: nat)
    requires m >= 0.0
    ensures Pow(m, n) >= 0.0
  {
    if n > 0 {
      PowNonNegative(m, n - 1);
    }
  }

  /** With the default settings the first n delays add up to 30 * (2^n - 1) milliseconds, up to the cap. */
  lemma {:induction false} DefaultBackoff(n: nat)
    requires n <= 14
    ensures TotalBackoffMs(DEFAULT_HEALTH, n) as real == 30.0 * (Pow(2.0, n) - 1.0)
  {
    hide BackoffMs, Pow;
    DoubleNext(n);
    if n > 0 {
      DefaultBackoff(n - 1);
      DoubleNext(n - 1);
      DoublesAscend(n - 1, 13);
      PowersUpTo13();
      WholeDelay(n);
    }
  }

  lemma DoubleNext(n: nat)
    ensures Pow(2.0, n + 1) == 2.0 * Pow(2.0, n) && Pow(2.0, 0) == 1.0
  {
  }

  lemma {:induction false} DoublesAscend(n: nat, m: nat)
    requires n <= m
    ensures 1.0 <= Pow(2.0, n) <= Pow(2.0, m)
    decreases m
  {
    if n < m {
      DoublesAscend(n, m - 1);
    } else if m > 0 {
      DoublesAscend(n - 1, m - 1);
    }
  }

  lemma PowersUpTo13()
    ensures Pow(2.0, 1) == 2.0 && Pow(2.0, 9) == 512.0 && Pow(2.0, 13) == 8192.0
  {
    assert Pow(2.0, 3) == 8.0 && Pow(2.0, 6) == 64.0 && Pow(2.0, 9) == 512.0 && Pow(2.0, 11) == 2048.0;
  }

  lemma WholeDelay(n: nat)
    requires 1 <= n && 30.0 * Pow(2.0, n - 1) <= 300000.0
    ensures BackoffMs(DEFAULT_HEALTH, n) as real == 30.0 * Pow(2.0, n - 1)
  {
    hide Pow;
    var m := PowIsWhole(n - 1);
    var delay := 30.0 * Pow(2.0, n - 1);
    assert delay == (30 * m) as real;
    assert BackoffMs(DEFAULT_HEALTH, n) == Min(delay, 300000.0).Floor;
  }

  lemma {:induction false} PowIsWhole(n: nat) returns (m: int)
    ensures Pow(2.0, n) == m as real
  {
    if n == 0 {
      return 1;
    }
    m := PowIsWhole(n - 1);
    m := 2 * m;
  }

  /** All nine delays of initialize, timers on time, are over before the cooldown after any rate limits is. */
  lemma BackoffShorterThanCooldown(k: nat)
    requires k >= 1
    ensures TotalBackoffMs(DEFAULT_HEALTH, MAX_INITIALIZE - 1) == 15330
    ensures TotalBackoffMs(DEFAULT_HEALTH, MAX_INITIALIZE - 1) < Ms(AfterLimits(DEFAULT_HEALTH, 0.0, k))
  {
    hide AfterLimits, TotalBackoffMs, Pow;
    DefaultBackoff(9);
    PowersUpTo13();
    DefaultLimits(k);
    DoublesAscend(1, k);
  }

  /** The whole run is what was sent so far, then the rest. */
  predicate Continues(whole: Trace, sent: seq<Request>, rest: Trace) {
    && whole.result == rest.result && whole.requests == sent + rest.requests
    && whole.keys == rest.keys && whole.now == rest.now
  }

  /** One pass moves the boundary between what was sent and the rest. */
  lemma PassContinues(h: Health, keys: seq<Key>, uuid: Option<string>, now: int, attempt: nat, env: nat -> Attempt,
                      whole: Trace, sent: seq<Request>)
    requires attempt <= MAX_RETRIES + 1
    requires Continues(whole, sent, Query(h, keys, uuid, now, attempt, env))
    ensures var p := OnePass(h, keys, uuid, now, attempt, env(attempt));
            && (p.Stop? ==> whole == whole.(requests := sent + [p.request], keys := p.keys, now := p.now, result := p.result))
            && (p.Again? ==> attempt <= MAX_RETRIES
                             && Continues(whole, sent + [p.request], Query(h, p.keys, uuid, p.now, attempt + 1, env)))
  {
    hide OnePass;
    var p := OnePass(h, keys, uuid, now, attempt, env(attempt));
    if p.Again? {
      if attempt > MAX_RETRIES { PassStops(h, keys, uuid, now, attempt, env(attempt)); }
      Associates(sent, p.request, Query(h, p.keys, uuid, p.now, attempt + 1, env).requests);
    }
  }

  lemma Associates(sent: seq<Request>, r: Request, rest: seq<Request>)
    ensures sent + ([r] + rest) == sent + [r] + rest
  {
  }

  class Service {
    const health: Health
    var keys: seq<Key>
    var clock: int
    var currentKeyUuid: Option<string>

    ghost predicate Valid()
      reads this
    {
      health.Sane() && UniqueIds(keys) && forall k :: k in keys ==> Healthy(health, k)
    }

    constructor (health: Health, keys: seq<Key>, clock: int)
      requires health.Sane() && UniqueIds(keys) && forall k :: k in keys ==> Healthy(health, k)
      ensures Valid() && this.health == health && this.keys == keys && this.clock == clock && currentKeyUuid == None
    {
      this.health, this.keys, this.clock, this.currentKeyUuid := health, keys, clock, None;
    }

    method IndexOf(uuid: string) returns (i: int)
      requires Valid()
      ensures i == -1 ==> !Has(keys, uuid)
      ensures i != -1 ==> 0 <= i < |keys| && keys[i].uuid == uuid
    {
      i := 0;
      while i < |keys|
        invariant 0 <= i <= |keys|
        invariant forall j :: 0 <= j < i ==> keys[j].uuid != uuid
      {
        if keys[i].uuid == uuid { return; }
        i := i + 1;
      }
      i := -1;
    }

    /** save(): row i is replaced; the health of all keys is kept. */
    method Save(i: nat, e: Event)
      requires Valid() && i < |keys|
      modifies this`keys
      ensures Valid()
      ensures keys == Recorded(health, old(keys), old(keys)[i].uuid, e, clock)
    {
      ghost var before := keys;
      ApplyHealthy(health, keys[i], e, clock);
      keys := keys[i := Apply(health, keys[i], e, clock)];
      assert keys == Recorded(health, before, before[i].uuid, e, clock);
    }

    method Record(uuid: Option<string>, e: Event) returns (r: Saved)
      requires Valid()
      modifies this`keys
      ensures Valid()
      ensures keys == RecordedIfKnown(health, old(keys), uuid, e, clock)
      ensures r == Answered(keys, uuid) && Reports(keys, uuid, r)
    {
      hide Healthy, Find;
      if uuid == None { return NotFound; }
      var i := IndexOf(uuid.value);
      if i == -1 { return NotFound; }
      Save(i, e);
      FindAt(keys, i);
      AnswerReports(keys, uuid);
      return Seconds(keys[i].cooldown);
    }

    method RecordKeyRateLimit(keyUuid: Option<string>) returns (r: Saved)
      requires Valid()
      modifies this`keys
      ensures Valid()
      ensures keys == RecordedIfKnown(health, old(keys), Resolve(keyUuid, currentKeyUuid), RateLimit, clock)
      ensures r == Answered(keys, Resolve(keyUuid, currentKeyUuid))
      ensures Reports(keys, Resolve(keyUuid, currentKeyUuid), r)
    {
      r := Record(Resolve(keyUuid, currentKeyUuid), RateLimit);
    }

    method RecordKeyError(keyUuid: Option<string>) returns (r: Saved)
      requires Valid()
      modifies this`keys
      ensures Valid()
      ensures keys == RecordedIfKnown(health, old(keys), Resolve(keyUuid, currentKeyUuid), Error, clock)
      ensures r == Answered(keys, Resolve(keyUuid, currentKeyUuid))
      ensures Reports(keys, Resolve(keyUuid, currentKeyUuid), r)
      ensures forall i :: 0 <= i < |keys| && Resolve(keyUuid, currentKeyUuid) == Some(keys[i].uuid) ==>
                && keys[i].lastFailureAt == Some(clock)
                && keys[i].cooldown == Max(0.0, old(keys)[i].cooldown - health.decayStep)
    {
      hide UniqueIds, Healthy, Find, Answered, Reports, Resolve;
      r := Record(Resolve(keyUuid, currentKeyUuid), Error);
    }

    method RecordKeySuccess(keyUuid: Option<string>) returns (r: Saved)
      requires Valid()
      modifies this`keys
      ensures Valid()
      ensures keys == RecordedIfKnown(health, old(keys), Resolve(keyUuid, currentKeyUuid), Success, clock)
      ensures r == Answered(keys, Resolve(keyUuid, currentKeyUuid))
      ensures Reports(keys, Resolve(keyUuid, currentKeyUuid), r)
    {
      r := Record(Resolve(keyUuid, currentKeyUuid), Success);
    }

    /** update(): silent when the key is unknown. */
    method ResetKeyHealth(keyUuid: string)
      requires Valid()
      modifies this`keys
      ensures Valid()
      ensures keys == RecordedIfKnown(health, old(keys), Some(keyUuid), Reset, clock)
      ensures forall k :: k in keys && k.uuid == keyUuid ==> k.cooldown == 0.0 && k.lastFailureAt == None
    {
      var i := IndexOf(keyUuid);
      if i != -1 {
        Save(i, Reset);
      }
    }

    /** delay(ms), with a timer that may be late by lag. */
    method Delay(ms: nat, lag: nat)
      modifies this`clock
      ensures clock == old(clock) + ms + lag
    {
      clock := clock + ms + lag;
    }

    method WaitForCooldown(keyUuid: string, lag: nat)
      modifies this`clock
      ensures clock == AfterWait(keys, Some(keyUuid), old(clock), lag)
    {
      var cooldownMs := GetKeyCooldownMs(keys, keyUuid, clock);
      if cooldownMs > 0 {
        Delay(cooldownMs, lag);
      }
    }

    /** One pass through the retry loop: wait, send, and deal with the answer. */
    method AttemptOnce(uuid: Option<string>, attempt: nat, step: Attempt)
      returns (done: bool, result: Result, request: Request)
      requires Valid() && uuid == Resolve(uuid, None)
      modifies this`keys, this`clock
      ensures Valid()
      ensures var p := OnePass(health, old(keys), uuid, old(clock), attempt, step);
              request == p.request && keys == p.keys && clock == p.now
              && done == p.Stop? && (p.Stop? ==> result == p.result)
    {
      hide GetKeyCooldownMs, Recorded, Find, Has, UniqueIds, Healthy;
      done, result := true, Answer;
      if uuid.Some? {
        WaitForCooldown(uuid.value, step.waitLag);
      }
      var at := clock;
      clock := clock + step.latency;
      request := Request(at, clock, step.reply, keys);
      if step.reply == Ok {
        if uuid.Some? {
          UnknownUnchanged(health, keys, uuid.value, Success, clock);
          var saved := RecordKeySuccess(uuid);  // its failure is ignored
        }
      } else if step.reply == TooManyRequests {
        if uuid.Some? {
          RecordedKnown(health, keys, uuid.value, RateLimit, clock);
          var saved := RecordKeyRateLimit(uuid);
          if saved == NotFound { return true, KeyNotFound, request; }
        }
        if attempt > MAX_RETRIES {
          return true, Failed(TooManyRequests), request;
        }
        if uuid.Some? {
          WaitForCooldown(uuid.value, step.retryLag);
        }
        done := false;
      } else if step.reply == ServerError {
        if attempt > MAX_RETRIES {
          return true, Failed(ServerError), request;
        }
        Delay(RETRY_DELAY_MS, step.retryLag);
        done := false;
      } else {
        result := Failed(OtherError);
      }
    }

    /** The retry loop. env(i) is what the network does on attempt i. */
    method ExecuteQuery(env: nat -> Attempt) returns (result: Result, sent: seq<Request>)
      requires Valid()
      modifies this`keys, this`clock
      ensures Valid()
      ensures var t := Query(health, old(keys), Resolve(None, currentKeyUuid), old(clock), 1, env);
              result == t.result && sent == t.requests && keys == t.keys && clock == t.now
    {
      hide Query, OnePass, UniqueIds, Healthy;
      var uuid := Resolve(None, currentKeyUuid);
      var attempt := 0;
      sent := [];
      ghost var whole := Query(health, keys, uuid, clock, 1, env);
      while true
        invariant Valid() && 0 <= attempt <= MAX_RETRIES
        invariant Continues(whole, sent, Query(health, keys, uuid, clock, attempt + 1, env))
        decreases MAX_RETRIES - attempt
      {
        attempt := attempt + 1;
        PassContinues(health, keys, uuid, clock, attempt, env, whole, sent);
        var done, request;
        done, result, request := AttemptOnce(uuid, attempt, env(attempt));
        sent := sent + [request];
        if done { return; }
      }
    }

    /** Polls for an available key up to ten times, backing off in between; lag(i) is how late timer i is. */
    method Initialize(tag: Option<string>, lag: nat -> nat) returns (key: Option<Key>)
      requires Valid()
      modifies this`clock, this`currentKeyUuid
      ensures Valid()
      ensures key == GetAvailableKey(keys, tag, clock)
      ensures StopsAt(health, keys, tag, lag, old(clock), clock)
      ensures key.Some? <==> ReadyWithin(keys, tag, old(clock), DelaysMs(health, lag, MAX_INITIALIZE - 1))
      ensures clock >= old(clock)
      ensures key == None ==> clock >= old(clock) + TotalBackoffMs(health, MAX_INITIALIZE - 1)
      ensures currentKeyUuid == if key.Some? then Some(key.value.uuid) else old(currentKeyUuid)
    {
      hide GetAvailableKey, BackoffMs, UniqueIds, Healthy, ReadyWithin, Pow, StopsAt;
      var attempt := 0;
      while true
        invariant 0 <= attempt < MAX_INITIALIZE
        invariant currentKeyUuid == old(currentKeyUuid)
        invariant clock == old(clock) + DelaysMs(health, lag, attempt)
        invariant forall m: nat :: m < attempt ==>
                    GetAvailableKey(keys, tag, old(clock) + DelaysMs(health, lag, m)) == None
        decreases MAX_INITIALIZE - attempt
      {
        attempt := attempt + 1;
        key := GetAvailableKey(keys, tag, clock);
        if key.Some? || attempt >= MAX_INITIALIZE {
          DelaysGrow(health, lag, 0, attempt - 1);
          StopsHere(health, keys, tag, lag, old(clock), clock, attempt - 1);
          PollingFinds(health, keys, tag, lag, old(clock), clock);
        }
        if key.Some? {
          currentKeyUuid := Some(key.value.uuid);
          return;
        }
        if attempt >= MAX_INITIALIZE { return; }
        BackoffNonNegative(health, attempt);
        Delay(BackoffMs(health, attempt), lag(attempt));
      }
    }
  }

  lemma FindAt(keys: seq<Key>, i: nat)
    requires UniqueIds(keys) && i < |keys|
    ensures Find(keys, keys[i].uuid) == Some(keys[i])
  {
  }

  lemma RecordedKnown(h: Health, keys: seq<Key>, uuid: string, e: Event, now: int)
    ensures Has(Recorded(h, keys, uuid, e, now), uuid) <==> Has(keys, uuid)
    ensures !Has(keys, uuid) ==> Recorded(h, keys, uuid, e, now) == keys
  {
  }

  lemma UnknownUnchanged(h: Health, keys: seq<Key>, uuid: string, e: Event, now: int)
    ensures !Has(keys, uuid) ==> Recorded(h, keys, uuid, e, now) == keys
  {
  }
}
