/**
 * The retry loop as a function of what the network does (battle-net.service.ts, executeQuery), for
 * one client with one key set.
 */
module KeyQuery {
  import opened Wrappers
  import opened KeyHealth
  import opened KeySelection

  const MAX_RETRIES := 3
  const RETRY_DELAY_MS := 1000

  datatype Reply = Ok | TooManyRequests | ServerError | OtherError

  /**
   * What happens on one attempt: the answer, how long it takes, and how late the timers fire: the one before
   * the request and the one after a failed answer.
   */
  datatype Attempt = Attempt(reply: Reply, latency: nat, waitLag: nat, retryLag: nat)

  /** A request as sent: when, when answered, how, and the keys at the time of sending. */
  datatype Request = Request(at: int, answeredAt: int, reply: Reply, keys: seq<Key>)

  datatype Result = Answer | Failed(reply: Reply) | KeyNotFound

  datatype Trace = Trace(requests: seq<Request>, recorded: seq<int>, keys: seq<Key>, now: int, result: Result)

  /** save(): one event applied to the key with this uuid. */
  function Recorded(h: Health, keys: seq<Key>, uuid: string, e: Event, now: int): (r: seq<Key>)
    ensures |r| == |keys|
    ensures forall i :: 0 <= i < |keys| ==>
      r[i] == if keys[i].uuid == uuid then Apply(h, keys[i], e, now) else keys[i]
  {
    seq(|keys|, i requires 0 <= i < |keys| =>
      if keys[i].uuid == uuid then Apply(h, keys[i], e, now) else keys[i])
  }

  /** waitForCooldown, with a timer that may fire late but never early. */
  function AfterWait(keys: seq<Key>, uuid: Option<string>, now: int, lag: nat): int {
    if uuid == None || GetKeyCooldownMs(keys, uuid.value, now) == 0 then now
    else now + GetKeyCooldownMs(keys, uuid.value, now) + lag
  }

  /** One pass through the loop: the request, what was recorded, and either the end or the next start. */
  datatype Pass =
    | Stop(request: Request, recorded: seq<int>, keys: seq<Key>, now: int, result: Result)
    | Again(request: Request, recorded: seq<int>, keys: seq<Key>, now: int)

  function OnePass(h: Health, keys: seq<Key>, uuid: Option<string>, now: int, attempt: nat, step: Attempt): Pass {
    var at := AfterWait(keys, uuid, now, step.waitLag);
    var answered := at + step.latency;
    var r := Request(at, answered, step.reply, keys);
    match step.reply
    case Ok =>
      Stop(r, [], if uuid.Some? then Recorded(h, keys, uuid.value, Success, answered) else keys, answered, Answer)
    case OtherError => Stop(r, [], keys, answered, Failed(OtherError))
    case ServerError =>
      if attempt > MAX_RETRIES then Stop(r, [], keys, answered, Failed(ServerError))
      else Again(r, [], keys, answered + RETRY_DELAY_MS + step.retryLag)
    case TooManyRequests =>
      if uuid.Some? && !Has(keys, uuid.value) then Stop(r, [], keys, answered, KeyNotFound)
      else
        var keys' := if uuid.Some? then Recorded(h, keys, uuid.value, RateLimit, answered) else keys;
        var recorded := if uuid.Some? then [answered] else [];
        if attempt > MAX_RETRIES then Stop(r, recorded, keys', answered, Failed(TooManyRequests))
        else Again(r, recorded, keys', AfterWait(keys', uuid, answered, step.retryLag))
  }

  function Query(h: Health, keys: seq<Key>, uuid: Option<string>, now: int, attempt: nat, env: nat -> Attempt): Trace
    requires attempt <= MAX_RETRIES + 1
    decreases MAX_RETRIES + 1 - attempt
  {
    match OnePass(h, keys, uuid, now, attempt, env(attempt))
    case Stop(r, recorded, keys', now', result) => Trace([r], recorded, keys', now', result)
    case Again(r, recorded, keys', now') =>
      var rest := Query(h, keys', uuid, now', attempt + 1, env);
      rest.(requests := [r] + rest.requests, recorded := recorded + rest.recorded)
  }

  /** A run is its first pass, then the rest of the run. */
  lemma QueryStep(h: Health, keys: seq<Key>, uuid: Option<string>, now: int, attempt: nat, env: nat -> Attempt)
    requires attempt <= MAX_RETRIES + 1
    ensures var p := OnePass(h, keys, uuid, now, attempt, env(attempt));
            var t := Query(h, keys, uuid, now, attempt, env);
            && (p.Stop? ==> t == Trace([p.request], p.recorded, p.keys, p.now, p.result))
            && (p.Again? ==>
                  && attempt <= MAX_RETRIES
                  && var rest := Query(h, p.keys, uuid, p.now, attempt + 1, env);
                     t == rest.(requests := [p.request] + rest.requests, recorded := p.recorded + rest.recorded))
  {
    hide AfterWait, Recorded;
  }

  /** What one pass does to one key that exists. */
  lemma PassFacts(h: Health, keys: seq<Key>, uuid: string, now: int, attempt: nat, step: Attempt)
    requires Has(keys, uuid)
    ensures var p := OnePass(h, keys, Some(uuid), now, attempt, step);
            && p.request.reply == step.reply
            && p.request.keys == keys
            && p.recorded == (if step.reply == TooManyRequests then [p.request.answeredAt] else [])
            && p.keys == (if step.reply == TooManyRequests then Recorded(h, keys, uuid, RateLimit, p.request.answeredAt)
                          else if step.reply == Ok then Recorded(h, keys, uuid, Success, p.request.answeredAt)
                          else keys)
            && (p.Stop? ==> p.result == (if step.reply == Ok then Answer else Failed(step.reply))
                            && p.now == p.request.answeredAt)
            && (p.Again? ==> step.reply == TooManyRequests || step.reply == ServerError)
            && (p.Again? <==> attempt <= MAX_RETRIES && (step.reply == TooManyRequests || step.reply == ServerError))
            && Has(p.keys, uuid)
  {
    hide AfterWait, Recorded, Has;
    var p := OnePass(h, keys, Some(uuid), now, attempt, step);
    RecordedHas(h, keys, uuid, RateLimit, p.request.answeredAt);
    RecordedHas(h, keys, uuid, Success, p.request.answeredAt);
  }

  // ----- every run

  lemma PassStops(h: Health, keys: seq<Key>, uuid: Option<string>, now: int, attempt: nat, step: Attempt)
    requires attempt > MAX_RETRIES
    ensures OnePass(h, keys, uuid, now, attempt, step).Stop?
  {
  }

  /** At most maxRetries + 1 requests, whatever the answers and whether or not a key is set. */
  lemma {:induction false} RequestsBounded(
    h: Health, keys: seq<Key>, uuid: Option<string>, now: int, attempt: nat, env: nat -> Attempt)
    requires attempt <= MAX_RETRIES + 1
    ensures 1 <= |Query(h, keys, uuid, now, attempt, env).requests| <= 5 - attempt
    decreases MAX_RETRIES + 1 - attempt
  {
    hide OnePass;
    var p := OnePass(h, keys, uuid, now, attempt, env(attempt));
    if p.Again? {
      if attempt > MAX_RETRIES { PassStops(h, keys, uuid, now, attempt, env(attempt)); }
      RequestsBounded(h, p.keys, uuid, p.now, attempt + 1, env);
    }
  }

  /** When the requests were answered with a 429. */
  function LimitTimes(requests: seq<Request>): seq<int> {
    if requests == [] then []
    else (if requests[0].reply == TooManyRequests then [requests[0].answeredAt] else []) + LimitTimes(requests[1..])
  }

  /** The key table after the given rate limits, in order. */
  function Limited(h: Health, keys: seq<Key>, uuid: string, times: seq<int>): seq<Key>
    decreases |times|
  {
    if times == [] then keys else Limited(h, Recorded(h, keys, uuid, RateLimit, times[0]), uuid, times[1..])
  }

  lemma RecordedHas(h: Health, keys: seq<Key>, uuid: string, e: Event, now: int)
    requires Has(keys, uuid)
    ensures Has(Recorded(h, keys, uuid, e, now), uuid)
  {
  }

  /** The recorded times are those of the 429s, and the keys are what these and a closing success make of them. */
  ghost predicate RecordsLimits(h: Health, keys: seq<Key>, uuid: string, t: Trace) {
    && t.recorded == LimitTimes(t.requests)
    && t.result != KeyNotFound
    && t.keys == (var limited := Limited(h, keys, uuid, t.recorded);
                  if t.result == Answer then Recorded(h, limited, uuid, Success, t.now) else limited)
  }

  /**
   * Each 429 is recorded exactly once, at the time it was answered, and nothing else is: a server
   * error never touches a key, a success decays it once at the end.
   */
  lemma {:induction false} EachLimitRecordedOnce(
    h: Health, keys: seq<Key>, uuid: string, now: int, attempt: nat, env: nat -> Attempt)
    requires attempt <= MAX_RETRIES + 1 && Has(keys, uuid)
    ensures RecordsLimits(h, keys, uuid, Query(h, keys, Some(uuid), now, attempt, env))
    decreases MAX_RETRIES + 1 - attempt
  {
    hide OnePass, Recorded, Query, Has, RecordsLimits;
    var p := OnePass(h, keys, Some(uuid), now, attempt, env(attempt));
    PassFacts(h, keys, uuid, now, attempt, env(attempt));
    QueryStep(h, keys, Some(uuid), now, attempt, env);
    if p.Again? {
      EachLimitRecordedOnce(h, p.keys, uuid, p.now, attempt + 1, env);
      RequestInFront(h, keys, uuid, p.request, p.keys, Query(h, p.keys, Some(uuid), p.now, attempt + 1, env));
    } else {
      LastRequest(h, keys, uuid, p.request, p.keys, p.now, p.result);
    }
  }

  function RecordedFor(r: Request): seq<int> {
    if r.reply == TooManyRequests then [r.answeredAt] else []
  }

  /** One more pass in front of a run that records its limits. */
  lemma RequestInFront(h: Health, keys: seq<Key>, uuid: string, r: Request, keys': seq<Key>, rest: Trace)
    requires r.reply == TooManyRequests || r.reply == ServerError
    requires keys' == if r.reply == TooManyRequests then Recorded(h, keys, uuid, RateLimit, r.answeredAt) else keys
    requires RecordsLimits(h, keys', uuid, rest)
    ensures RecordsLimits(h, keys, uuid, rest.(requests := [r] + rest.requests, recorded := RecordedFor(r) + rest.recorded))
  {
    hide Recorded, LimitTimes, Limited;
    LimitTimesStep(r, rest.requests);
    LimitedStep(h, keys, uuid, RecordedFor(r), rest.recorded);
  }

  /** The last pass of a run. */
  lemma LastRequest(h: Health, keys: seq<Key>, uuid: string, r: Request, keys': seq<Key>, now: int, result: Result)
    requires result == if r.reply == Ok then Answer else Failed(r.reply)
    requires now == r.answeredAt
    requires keys' == if r.reply == TooManyRequests then Recorded(h, keys, uuid, RateLimit, r.answeredAt)
                      else if r.reply == Ok then Recorded(h, keys, uuid, Success, r.answeredAt) else keys
    ensures RecordsLimits(h, keys, uuid, Trace([r], RecordedFor(r), keys', now, result))
  {
    hide Recorded, LimitTimes, Limited;
    LimitTimesStep(r, []);
    LimitedStep(h, keys, uuid, RecordedFor(r), []);
    LimitedStep(h, keys', uuid, [], []);
    assert [r] + [] == [r] && RecordedFor(r) + [] == RecordedFor(r);
  }

  lemma LimitTimesStep(r: Request, rest: seq<Request>)
    ensures LimitTimes([r] + rest) == RecordedFor(r) + LimitTimes(rest)
    ensures LimitTimes([]) == []
  {
    assert ([r] + rest)[1..] == rest;
  }

  lemma LimitedStep(h: Health, keys: seq<Key>, uuid: string, first: seq<int>, rest: seq<int>)
    requires |first| <= 1
    ensures Limited(h, keys, uuid, first + rest)
         == Limited(h, if first == [] then keys else Recorded(h, keys, uuid, RateLimit, first[0]), uuid, rest)
    ensures Limited(h, keys, uuid, []) == keys
  {
    hide Recorded;
    if first == [] {
      assert first + rest == rest;
    } else {
      assert (first + rest)[1..] == rest;
    }
  }

  /** No request is sent while its key is cooling down. */
  lemma {:induction false} NoRequestDuringCooldown(
    h: Health, keys: seq<Key>, uuid: string, now: int, attempt: nat, env: nat -> Attempt)
    requires attempt <= MAX_RETRIES + 1
    ensures forall r :: r in Query(h, keys, Some(uuid), now, attempt, env).requests ==>
              GetKeyCooldownMs(r.keys, uuid, r.at) == 0
    decreases MAX_RETRIES + 1 - attempt
  {
    hide OnePass, GetKeyCooldownMs, Query;
    QueryStep(h, keys, Some(uuid), now, attempt, env);
    var p := OnePass(h, keys, Some(uuid), now, attempt, env(attempt));
    PassWaits(h, keys, uuid, now, attempt, env(attempt));
    if p.Again? {
      NoRequestDuringCooldown(h, p.keys, uuid, p.now, attempt + 1, env);
    }
  }

  lemma PassWaits(h: Health, keys: seq<Key>, uuid: string, now: int, attempt: nat, step: Attempt)
    ensures var r := OnePass(h, keys, Some(uuid), now, attempt, step).request;
            GetKeyCooldownMs(r.keys, uuid, r.at) == 0 && now <= r.at <= r.answeredAt
  {
    hide AfterWait, GetKeyCooldownMs, Recorded, Has;
    WaitEnds(keys, uuid, now, step.waitLag);
  }

  lemma WaitEnds(keys: seq<Key>, uuid: string, now: int, lag: nat)
    ensures GetKeyCooldownMs(keys, uuid, AfterWait(keys, Some(uuid), now, lag)) == 0
    ensures now <= AfterWait(keys, Some(uuid), now, lag)
  {
    hide CooldownEnd, Find;
  }

  // ----- the run as the network sees it

  /** The remaining cooldown of the key in use, none without one. */
  function Remaining(keys: seq<Key>, uuid: Option<string>, now: int): nat {
    if uuid == None then 0 else GetKeyCooldownMs(keys, uuid.value, now)
  }

  /** When a request may go out at the earliest is when it goes out, up to the lateness of a timer that was needed. */
  ghost predicate StartsAfter(r: Request, uuid: Option<string>, ready: int, lag: nat) {
    r.at == ready + Remaining(r.keys, uuid, ready) + if Remaining(r.keys, uuid, ready) > 0 then lag else 0
  }

  /** Request number i of a run whose first attempt has the given number is what the network made of its attempt. */
  ghost predicate AsAnswered(r: Request, step: Attempt) {
    r.reply == step.reply && r.answeredAt == r.at + step.latency
  }

  /** How a retry follows the request before it. */
  ghost predicate Follows(h: Health, uuid: Option<string>, r: Request, step: Attempt, next: Request, nextStep: Attempt) {
    match r.reply
    case ServerError =>
      && next.keys == r.keys
      && StartsAfter(next, uuid, r.answeredAt + 1000 + step.retryLag, nextStep.waitLag)
    case TooManyRequests =>
      && next.keys == (if uuid.Some? then Recorded(h, r.keys, uuid.value, RateLimit, r.answeredAt) else r.keys)
      && var wait := Remaining(next.keys, uuid, r.answeredAt);
         StartsAfter(next, uuid, r.answeredAt + wait + if wait > 0 then step.retryLag else 0, nextStep.waitLag)
    case Ok => false
    case OtherError => false
  }

  lemma PassAnswered(h: Health, keys: seq<Key>, uuid: Option<string>, now: int, attempt: nat, step: Attempt)
    ensures var r := OnePass(h, keys, uuid, now, attempt, step).request;
            AsAnswered(r, step) && r.keys == keys && StartsAfter(r, uuid, now, step.waitLag)
  {
    hide GetKeyCooldownMs, Recorded, Has;
  }

  lemma PassFollows(h: Health, keys: seq<Key>, uuid: Option<string>, now: int, attempt: nat, step: Attempt,
                    next: Request, nextStep: Attempt)
    requires var p := OnePass(h, keys, uuid, now, attempt, step);
             p.Again? && next.keys == p.keys && StartsAfter(next, uuid, p.now, nextStep.waitLag)
    ensures Follows(h, uuid, OnePass(h, keys, uuid, now, attempt, step).request, step, next, nextStep)
  {
    hide GetKeyCooldownMs, Recorded, Has;
  }

  lemma QueryNotEmpty(h: Health, keys: seq<Key>, uuid: Option<string>, now: int, attempt: nat, env: nat -> Attempt)
    requires attempt <= MAX_RETRIES + 1
    ensures Query(h, keys, uuid, now, attempt, env).requests != []
    ensures Query(h, keys, uuid, now, attempt, env).requests[0]
         == OnePass(h, keys, uuid, now, attempt, env(attempt)).request
  {
    hide OnePass;
  }

  /** Every request of a run, answered as its attempt says and following the one before it. */
  ghost predicate Chained(h: Health, uuid: Option<string>, requests: seq<Request>, attempt: nat, env: nat -> Attempt) {
    && (forall i: nat :: i < |requests| ==> AsAnswered(requests[i], env(attempt + i)))
    && (forall i: nat :: i + 1 < |requests| ==>
          Follows(h, uuid, requests[i], env(attempt + i), requests[i + 1], env(attempt + i + 1)))
  }

  lemma ChainedCons(h: Health, uuid: Option<string>, r: Request, rest: seq<Request>, attempt: nat, env: nat -> Attempt)
    requires AsAnswered(r, env(attempt)) && Chained(h, uuid, rest, attempt + 1, env)
    requires rest != [] ==> Follows(h, uuid, r, env(attempt), rest[0], env(attempt + 1))
    ensures Chained(h, uuid, [r] + rest, attempt, env)
  {
    hide AsAnswered, Follows;
    var all := [r] + rest;
    forall i: nat | i < |all| ensures AsAnswered(all[i], env(attempt + i)) {
      if i > 0 {
        assert all[i] == rest[i - 1] && AsAnswered(rest[i - 1], env(attempt + 1 + (i - 1)));
      }
    }
    forall i: nat | i + 1 < |all|
      ensures Follows(h, uuid, all[i], env(attempt + i), all[i + 1], env(attempt + i + 1))
    {
      if i > 0 {
        assert all[i] == rest[i - 1] && all[i + 1] == rest[i];
        assert Follows(h, uuid, rest[i - 1], env(attempt + 1 + (i - 1)), rest[i - 1 + 1], env(attempt + 1 + (i - 1) + 1));
      }
    }
  }

  lemma NoneChained(h: Health, uuid: Option<string>, attempt: nat, env: nat -> Attempt)
    ensures Chained(h, uuid, [], attempt, env)
  {
  }

  /** How a run starts, goes on and ends, for every sequence of answers, with or without a key. */
  lemma {:induction false} RunChained(
    h: Health, keys: seq<Key>, uuid: Option<string>, now: int, attempt: nat, env: nat -> Attempt)
    requires attempt <= MAX_RETRIES + 1
    ensures var rs := Query(h, keys, uuid, now, attempt, env).requests;
            && rs != [] && rs[0].keys == keys && StartsAfter(rs[0], uuid, now, env(attempt).waitLag)
            && Chained(h, uuid, rs, attempt, env)
    decreases MAX_RETRIES + 1 - attempt
  {
    hide OnePass, Query, StartsAfter, AsAnswered, Follows, Chained;
    var p := OnePass(h, keys, uuid, now, attempt, env(attempt));
    QueryStep(h, keys, uuid, now, attempt, env);
    PassAnswered(h, keys, uuid, now, attempt, env(attempt));
    if p.Again? {
      RunChained(h, p.keys, uuid, p.now, attempt + 1, env);
      var rest := Query(h, p.keys, uuid, p.now, attempt + 1, env).requests;
      PassFollows(h, keys, uuid, now, attempt, env(attempt), rest[0], env(attempt + 1));
      ChainedCons(h, uuid, p.request, rest, attempt, env);
    } else {
      NoneChained(h, uuid, attempt + 1, env);
      ChainedCons(h, uuid, p.request, [], attempt, env);
      assert [p.request] + [] == [p.request];
    }
  }

  /** After a server error the next request is sent at least a second later, and no later than it has to. */
  lemma ServerErrorPauses(h: Health, keys: seq<Key>, uuid: Option<string>, now: int, env: nat -> Attempt, i: nat)
    requires var rs := Query(h, keys, uuid, now, 1, env).requests;
             i + 1 < |rs| && rs[i].reply == ServerError
    ensures var rs := Query(h, keys, uuid, now, 1, env).requests;
            var resume := rs[i].answeredAt + 1000 + env(i + 1).retryLag;
            && rs[i + 1].at >= rs[i].answeredAt + 1000
            && (uuid == None || GetKeyCooldownMs(rs[i].keys, uuid.value, resume) == 0 ==> rs[i + 1].at == resume)
  {
    hide Query, GetKeyCooldownMs;
    RunChained(h, keys, uuid, now, 1, env);
    var rs := Query(h, keys, uuid, now, 1, env).requests;
    assert Follows(h, uuid, rs[i], env(1 + i), rs[i + 1], env(1 + i + 1));
  }

  /** How a run ends: with the first answer that is final, or with the fourth request. */
  ghost predicate Ended(keys: seq<Key>, uuid: Option<string>, t: Trace, most: nat) {
    t.requests != [] &&
    var last := t.requests[|t.requests| - 1];
    && t.now == last.answeredAt
    && match last.reply
       case Ok => t.result == Answer
       case OtherError => t.result == Failed(OtherError)
       case ServerError => t.result == Failed(ServerError) && |t.requests| == most
       case TooManyRequests =>
         if uuid.Some? && !Has(keys, uuid.value) then t.result == KeyNotFound
         else t.result == Failed(TooManyRequests) && |t.requests| == most
  }

  lemma {:induction false} RunEnds(
    h: Health, keys: seq<Key>, uuid: Option<string>, now: int, attempt: nat, env: nat -> Attempt)
    requires 1 <= attempt <= MAX_RETRIES + 1
    ensures Ended(keys, uuid, Query(h, keys, uuid, now, attempt, env), 5 - attempt)
    ensures uuid == None ==> Query(h, keys, uuid, now, attempt, env).keys == keys
    decreases MAX_RETRIES + 1 - attempt
  {
    hide OnePass, Query, Ended, Has;
    var p := OnePass(h, keys, uuid, now, attempt, env(attempt));
    var t := Query(h, keys, uuid, now, attempt, env);
    QueryStep(h, keys, uuid, now, attempt, env);
    PassEnds(h, keys, uuid, now, attempt, env(attempt));
    if p.Again? {
      var rest := Query(h, p.keys, uuid, p.now, attempt + 1, env);
      RunEnds(h, p.keys, uuid, p.now, attempt + 1, env);
      EndedLater(keys, p.keys, uuid, p.request, rest, t, 4 - attempt);
    } else {
      EndedNow(keys, uuid, t, 5 - attempt);
    }
  }

  lemma PassEnds(h: Health, keys: seq<Key>, uuid: Option<string>, now: int, attempt: nat, step: Attempt)
    ensures var p := OnePass(h, keys, uuid, now, attempt, step);
            && (uuid.Some? ==> (Has(p.keys, uuid.value) <==> Has(keys, uuid.value)))
            && (uuid == None ==> p.keys == keys)
            && (p.Stop? ==>
                  && p.now == p.request.answeredAt
                  && match p.request.reply
                     case Ok => p.result == Answer
                     case OtherError => p.result == Failed(OtherError)
                     case ServerError => p.result == Failed(ServerError) && attempt > 3
                     case TooManyRequests =>
                       if uuid.Some? && !Has(keys, uuid.value) then p.result == KeyNotFound
                       else p.result == Failed(TooManyRequests) && attempt > 3)
  {
    hide AfterWait, Recorded, Has;
    if uuid.Some? {
      var at := OnePass(h, keys, uuid, now, attempt, step).request.answeredAt;
      RecordedSameIds(h, keys, uuid.value, RateLimit, at);
      RecordedSameIds(h, keys, uuid.value, Success, at);
    }
  }

  lemma RecordedSameIds(h: Health, keys: seq<Key>, uuid: string, e: Event, now: int)
    ensures Has(Recorded(h, keys, uuid, e, now), uuid) <==> Has(keys, uuid)
  {
  }

  lemma EndedLater(keys: seq<Key>, keys': seq<Key>, uuid: Option<string>, r: Request, rest: Trace, t: Trace, most: nat)
    requires Ended(keys', uuid, rest, most) && (uuid.Some? ==> (Has(keys', uuid.value) <==> Has(keys, uuid.value)))
    requires t.requests == [r] + rest.requests && t.result == rest.result && t.now == rest.now
    ensures Ended(keys, uuid, t, most + 1)
  {
    hide Has;
  }

  lemma EndedNow(keys: seq<Key>, uuid: Option<string>, t: Trace, most: nat)
    requires |t.requests| == 1 && t.now == t.requests[0].answeredAt
    requires match t.requests[0].reply
             case Ok => t.result == Answer
             case OtherError => t.result == Failed(OtherError)
             case ServerError => t.result == Failed(ServerError) && most == 1
             case TooManyRequests =>
               if uuid.Some? && !Has(keys, uuid.value) then t.result == KeyNotFound
               else t.result == Failed(TooManyRequests) && most == 1
    ensures Ended(keys, uuid, t, most)
  {
  }

  // ----- a run of rate limits

  lemma FindStep(keys: seq<Key>, uuid: string)
    requires keys != []
    ensures Find(keys, uuid) == if keys[0].uuid == uuid then Some(keys[0]) else Find(keys[1..], uuid)
  {
  }

  lemma RecordedStep(h: Health, keys: seq<Key>, uuid: string, e: Event, now: int)
    requires keys != []
    ensures var r := Recorded(h, keys, uuid, e, now);
            && r[0] == (if keys[0].uuid == uuid then Apply(h, keys[0], e, now) else keys[0])
            && r[1..] == Recorded(h, keys[1..], uuid, e, now)
  {
    hide Apply;
  }

  lemma {:induction false} FindRecorded(h: Health, keys: seq<Key>, uuid: string, e: Event, now: int)
    requires Find(keys, uuid).Some?
    ensures Find(Recorded(h, keys, uuid, e, now), uuid) == Some(Apply(h, Find(keys, uuid).value, e, now))
  {
    hide Apply, Recorded, Find, Has;
    NothingFound(uuid);
    FindStep(keys, uuid);
    RecordedStep(h, keys, uuid, e, now);
    ApplyKeepsId(h, keys[0], e, now);
    FindStep(Recorded(h, keys, uuid, e, now), uuid);
    if keys[0].uuid != uuid {
      FindRecorded(h, keys[1..], uuid, e, now);
    }
  }

  lemma NothingFound(uuid: string)
    ensures Find([], uuid) == None
  {
  }

  lemma ApplyKeepsId(h: Health, k: Key, e: Event, now: int)
    ensures Apply(h, k, e, now).uuid == k.uuid
  {
  }

  /** Milliseconds of a cooldown in seconds, as a Date keeps them. */
  function Ms(seconds: real): int {
    (seconds * 1000.0).Floor
  }

  lemma EndAfter(last: int, cooldown: real)
    ensures CooldownEnd(last, cooldown) == last + Ms(cooldown)
  {
  }

  /** After a recorded rate limit the next request waits out the whole new cooldown. */
  lemma LimitThenWait(h: Health, keys: seq<Key>, uuid: string, answered: int, lag: nat)
    requires Has(keys, uuid) && h.Sane() && Find(keys, uuid).value.cooldown >= 0.0
    ensures var c := NewCooldown(h, Find(keys, uuid).value.cooldown, true);
            c >= 0.0 && AfterWait(Recorded(h, keys, uuid, RateLimit, answered), Some(uuid), answered, lag) >= answered + Ms(c)
  {
    hide Recorded, Find, CooldownEnd, Ms, NewCooldown;
    var c := NewCooldown(h, Find(keys, uuid).value.cooldown, true);
    GrownIsNonNegative(h, Find(keys, uuid).value.cooldown);
    FindRecorded(h, keys, uuid, RateLimit, answered);
    EndAfter(answered, c);
    assert Ms(0.0) == 0 by { EndAfter(0, 0.0); ZeroMs(); }
  }

  lemma ZeroMs()
    ensures Ms(0.0) == 0
  {
  }

  lemma GrownIsNonNegative(h: Health, c: real)
    requires h.Sane() && c >= 0.0
    ensures NewCooldown(h, c, true) >= 0.0
  {
  }

  /** The milliseconds of the cooldowns number 1 to n of a run of rate limits from c. */
  function BurstMs(h: Health, c: real, n: nat): int {
    if n == 0 then 0 else BurstMs(h, c, n - 1) + Ms(AfterLimits(h, c, n))
  }

  lemma {:induction false} AfterLimitsShift(h: Health, c: real, n: nat)
    ensures AfterLimits(h, NewCooldown(h, c, true), n) == AfterLimits(h, c, n + 1)
  {
    if n > 0 {
      AfterLimitsShift(h, c, n - 1);
    }
  }

  lemma {:induction false} BurstShift(h: Health, c: real, n: nat)
    ensures BurstMs(h, c, n + 1) == Ms(NewCooldown(h, c, true)) + BurstMs(h, NewCooldown(h, c, true), n)
  {
    if n == 0 {
      assert AfterLimits(h, c, 1) == NewCooldown(h, c, true);
    } else {
      BurstShift(h, c, n - 1);
      AfterLimitsShift(h, c, n);
    }
  }

  predicate AlwaysLimited(env: nat -> Attempt, attempt: nat)
    requires attempt <= MAX_RETRIES + 1
  {
    forall i :: attempt <= i <= MAX_RETRIES + 1 ==> env(i).reply == TooManyRequests
  }

  lemma LimitedHere(env: nat -> Attempt, attempt: nat)
    requires attempt <= MAX_RETRIES + 1 && AlwaysLimited(env, attempt)
    ensures env(attempt).reply == TooManyRequests
    ensures attempt <= MAX_RETRIES ==> AlwaysLimited(env, attempt + 1)
  {
  }

  /** Request number i is at least the first i cooldowns of a run of rate limits from c after the first one. */
  ghost predicate Spread(h: Health, c: real, requests: seq<Request>) {
    forall i :: 0 < i < |requests| ==> requests[i].at >= requests[0].at + BurstMs(h, c, i)
  }

  /** If every answer is a 429, all attempts are used and the requests are spread over the sum of the cooldowns. */
  lemma {:induction false} BurstIsSpread(
    h: Health, keys: seq<Key>, uuid: string, now: int, attempt: nat, env: nat -> Attempt)
    requires attempt <= MAX_RETRIES + 1 && AlwaysLimited(env, attempt)
    requires h.Sane() && Has(keys, uuid) && Find(keys, uuid).value.cooldown >= 0.0
    ensures var t := Query(h, keys, Some(uuid), now, attempt, env);
            var n := MAX_RETRIES + 2 - attempt;
            && |t.requests| == n && t.result == Failed(TooManyRequests)
            && Spread(h, Find(keys, uuid).value.cooldown, t.requests)
            && t.requests[0].at >= now
            && Find(t.keys, uuid).Some?
            && Find(t.keys, uuid).value.cooldown == AfterLimits(h, Find(keys, uuid).value.cooldown, n)
    decreases MAX_RETRIES + 1 - attempt
  {
    hide OnePass, Recorded, AfterLimits, BurstMs, Find, NewCooldown, Query, Has, Ms, Spread, AlwaysLimited, LimitTimes;
    QueryStep(h, keys, Some(uuid), now, attempt, env);
    var c := Find(keys, uuid).value.cooldown;
    var p := OnePass(h, keys, Some(uuid), now, attempt, env(attempt));
    var t := Query(h, keys, Some(uuid), now, attempt, env);
    PassWaits(h, keys, uuid, now, attempt, env(attempt));
    PassFacts(h, keys, uuid, now, attempt, env(attempt));
    LimitedHere(env, attempt);
    PassLimited(h, keys, uuid, now, attempt, env(attempt));
    AfterLimitsShift(h, c, MAX_RETRIES + 1 - attempt);
    AfterLimitsOnce(h, c);
    if p.Again? {
      BurstIsSpread(h, p.keys, uuid, p.now, attempt + 1, env);
      var rest := Query(h, p.keys, Some(uuid), p.now, attempt + 1, env);
      assert t.requests[1..] == rest.requests;
      SpreadShift(h, c, t.requests, rest.requests, p.request.answeredAt);
    } else {
      OneRequest(h, c, p.request);
    }
  }

  lemma AfterLimitsOnce(h: Health, c: real)
    ensures AfterLimits(h, c, 1) == NewCooldown(h, c, true)
  {
    assert AfterLimits(h, c, 0) == c;
  }

  lemma OneRequest(h: Health, c: real, r: Request)
    ensures Spread(h, c, [r])
  {
  }

  /** A request in front of a spread run, followed by the wait for its own cooldown. */
  lemma SpreadShift(h: Health, c: real, whole: seq<Request>, rest: seq<Request>, answeredAt: int)
    requires rest != [] && |whole| == |rest| + 1 && whole[1..] == rest
    requires whole[0].at <= answeredAt && rest[0].at >= answeredAt + Ms(NewCooldown(h, c, true))
    requires Spread(h, NewCooldown(h, c, true), rest)
    ensures Spread(h, c, whole)
  {
    hide BurstMs, Ms, NewCooldown;
    BurstStart(h, NewCooldown(h, c, true));
    forall i | 0 < i < |whole| ensures whole[i].at >= whole[0].at + BurstMs(h, c, i) {
      assert whole[i] == rest[i - 1];
      BurstShift(h, c, i - 1);
    }
  }

  lemma BurstStart(h: Health, c: real)
    ensures BurstMs(h, c, 0) == 0
  {
  }

  lemma PassRecords(h: Health, keys: seq<Key>, uuid: string, now: int, attempt: nat, step: Attempt)
    requires Has(keys, uuid) && step.reply == TooManyRequests
    ensures var p := OnePass(h, keys, Some(uuid), now, attempt, step);
            && p.keys == Recorded(h, keys, uuid, RateLimit, p.request.answeredAt)
            && (p.Again? ==> p.now == AfterWait(p.keys, Some(uuid), p.request.answeredAt, step.retryLag))
  {
    hide AfterWait, Recorded, Has;
  }

  /** One pass that meets a 429. */
  lemma PassLimited(h: Health, keys: seq<Key>, uuid: string, now: int, attempt: nat, step: Attempt)
    requires h.Sane() && Has(keys, uuid) && Find(keys, uuid).value.cooldown >= 0.0
    requires step.reply == TooManyRequests
    ensures var p := OnePass(h, keys, Some(uuid), now, attempt, step);
            var c := NewCooldown(h, Find(keys, uuid).value.cooldown, true);
            && c >= 0.0
            && Find(p.keys, uuid).Some? && Find(p.keys, uuid).value.cooldown == c
            && (p.Again? ==> p.now >= p.request.answeredAt + Ms(c))
  {
    hide Find, NewCooldown, AfterWait, Recorded, OnePass, Has;
    var p := OnePass(h, keys, Some(uuid), now, attempt, step);
    PassRecords(h, keys, uuid, now, attempt, step);
    FindRecorded(h, keys, uuid, RateLimit, p.request.answeredAt);
    LimitThenWait(h, keys, uuid, p.request.answeredAt, step.retryLag);
  }

  /** With the default settings four 429s in a row from a fresh key take at least five and a half minutes. */
  lemma DefaultBurst(keys: seq<Key>, uuid: string, now: int, env: nat -> Attempt)
    requires Has(keys, uuid) && Find(keys, uuid).value.cooldown == 0.0 && AlwaysLimited(env, 1)
    ensures var t := Query(DEFAULT_HEALTH, keys, Some(uuid), now, 1, env);
            && |t.requests| == 4
            && t.requests[3].at - t.requests[0].at >= 330000
            && Find(t.keys, uuid).Some? && Find(t.keys, uuid).value.cooldown == 300.0
  {
    hide AfterLimits, Query, Find;
    BurstIsSpread(DEFAULT_HEALTH, keys, uuid, now, 1, env);
    DefaultLimits(1);
    DefaultLimits(2);
    DefaultLimits(3);
    DefaultLimits(4);
    PowersOfTwo(1);
    PowersOfTwo(2);
    PowersOfTwo(3);
    assert BurstMs(DEFAULT_HEALTH, 0.0, 3) == Ms(30.0) + Ms(90.0) + Ms(210.0);
  }
}
