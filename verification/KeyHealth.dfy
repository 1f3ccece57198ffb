/** Cooldown arithmetic of one API key (libs/battle-net/src/battle-net.service.ts). */
module KeyHealth {
  import RealFacts
  import opened Wrappers

  /** The configured cooldown law, in seconds. */
  datatype Health = Health(baseDelay: real, multiplier: real, maxDelay: real, decayStep: real) {
    predicate Sane() {
      baseDelay >= 0.0 && multiplier >= 0.0 && maxDelay >= 0.0 && decayStep >= 0.0
    }
  }

  /** The values used when the environment sets none. */
  const DEFAULT_HEALTH := Health(30.0, 2.0, 300.0, 5.0)

  /** A key row; times are milliseconds. */
  datatype Key = Key(uuid: string, cooldown: real, lastFailureAt: Option<int>, tags: Option<seq<string>>)

  datatype Event = RateLimit | Error | Success | Reset

  function Min(a: real, b: real): real {
    if a < b then a else b
  }

  function Max(a: real, b: real): real {
    if a > b then a else b
  }

  function Grow(h: Health, current: real): real {
    current * h.multiplier + h.baseDelay
  }

  function NewCooldown(h: Health, current: real, isRateLimit: bool): real {
    if isRateLimit then Min(h.maxDelay, Grow(h, current))
    else Max(0.0, current - h.decayStep)
  }

  /** What one event does to a key: only rate limits and errors move lastFailureAt. */
  function Apply(h: Health, k: Key, e: Event, now: int): Key {
    match e
    case RateLimit => k.(cooldown := NewCooldown(h, k.cooldown, true), lastFailureAt := Some(now))
    case Error => k.(cooldown := NewCooldown(h, k.cooldown, false), lastFailureAt := Some(now))
    case Success => k.(cooldown := Max(0.0, k.cooldown - h.decayStep))
    case Reset => k.(cooldown := 0.0, lastFailureAt := None)
  }

  function Run(h: Health, k: Key, events: seq<(Event, int)>): Key {
    if events == [] then k
    else
      var n := |events| - 1;
      Apply(h, Run(h, k, events[..n]), events[n].0, events[n].1)
  }

  /** The cooldown is in range, and a key that never failed has none. */
  predicate Healthy(h: Health, k: Key) {
    0.0 <= k.cooldown <= h.maxDelay && (k.lastFailureAt == None ==> k.cooldown == 0.0)
  }

  lemma ApplyHealthy(h: Health, k: Key, e: Event, now: int)
    requires h.Sane() && Healthy(h, k)
    ensures Healthy(h, Apply(h, k, e, now))
  {
  }

  /** Every sequence of events keeps every healthy key healthy. */
  lemma {:induction false} RunHealthy(h: Health, k: Key, events: seq<(Event, int)>)
    requires h.Sane() && Healthy(h, k)
    ensures Healthy(h, Run(h, k, events)) && Run(h, k, events).uuid == k.uuid
  {
    if events != [] {
      var n := |events| - 1;
      RunHealthy(h, k, events[..n]);
      ApplyHealthy(h, Run(h, k, events[..n]), events[n].0, events[n].1);
    }
  }

  /** When the key last failed: the latest rate limit or error, unless a reset came after it. */
  function LastFailure(events: seq<(Event, int)>, before: Option<int>): Option<int> {
    if events == [] then before
    else
      var (e, at) := events[|events| - 1];
      match e
      case RateLimit => Some(at)
      case Error => Some(at)
      case Reset => None
      case Success => LastFailure(events[..|events| - 1], before)
  }

  /** A success shortens the cooldown but does not forget when the key failed. */
  lemma {:induction false} RunRemembersFailure(h: Health, k: Key, events: seq<(Event, int)>)
    ensures Run(h, k, events).lastFailureAt == LastFailure(events, k.lastFailureAt)
    ensures Run(h, k, events).tags == k.tags
  {
    if events != [] {
      RunRemembersFailure(h, k, events[..|events| - 1]);
    }
  }

  // ----- closed forms

  function Pow(m: real, n: nat): real {
    if n == 0 then 1.0 else m * Pow(m, n - 1)
  }

  /** The cooldown after n rate limits in a row, starting from c. */
  function AfterLimits(h: Health, c: real, n: nat): real {
    if n == 0 then c else NewCooldown(h, AfterLimits(h, c, n - 1), true)
  }

  function AfterSuccesses(h: Health, c: real, n: nat): real {
    if n == 0 then c else Max(0.0, AfterSuccesses(h, c, n - 1) - h.decayStep)
  }

  predicate All(events: seq<(Event, int)>, e: Event) {
    forall i :: 0 <= i < |events| ==> events[i].0 == e
  }

  lemma {:induction false} RunOfLimits(h: Health, k: Key, events: seq<(Event, int)>)
    requires All(events, RateLimit)
    ensures Run(h, k, events).cooldown == AfterLimits(h, k.cooldown, |events|)
  {
    if events != [] {
      RunOfLimits(h, k, events[..|events| - 1]);
    }
  }

  lemma {:induction false} RunOfSuccesses(h: Health, k: Key, events: seq<(Event, int)>)
    requires All(events, Success)
    ensures Run(h, k, events).cooldown == AfterSuccesses(h, k.cooldown, |events|)
    ensures Run(h, k, events).lastFailureAt == k.lastFailureAt
  {
    if events != [] {
      RunOfSuccesses(h, k, events[..|events| - 1]);
    }
  }

  /** Growth without the cap. */
  function Uncapped(h: Health, c: real, n: nat): real
    requires h.multiplier > 1.0
  {
    Pow(h.multiplier, n) * c + h.baseDelay * ((Pow(h.multiplier, n) - 1.0) / (h.multiplier - 1.0))
  }

  lemma GeometricStep(m: real, p: real)
    requires m > 1.0
    ensures (m * p - 1.0) / (m - 1.0) == m * ((p - 1.0) / (m - 1.0)) + 1.0
  {
    var q := (p - 1.0) / (m - 1.0);
    assert q * (m - 1.0) == p - 1.0;
    assert (m * q + 1.0) * (m - 1.0) == m * (q * (m - 1.0)) + (m - 1.0);
    assert (m * q + 1.0) * (m - 1.0) == m * p - 1.0;
    RealFacts.DivideBack(m * q + 1.0, m - 1.0, m * p - 1.0);
  }

  lemma UncappedStep(h: Health, c: real, n: nat)
    requires h.multiplier > 1.0
    ensures Uncapped(h, c, n + 1) == Grow(h, Uncapped(h, c, n))
  {
    var m, p, b := h.multiplier, Pow(h.multiplier, n), h.baseDelay;
    var g := (p - 1.0) / (m - 1.0);
    assert Pow(m, n + 1) == m * p;
    GeometricStep(m, p);
    assert (Pow(m, n + 1) - 1.0) / (m - 1.0) == m * g + 1.0;
    Expand(m, p, c, b, g);
  }

  lemma UncappedZero(h: Health, c: real)
    requires h.multiplier > 1.0
    ensures Uncapped(h, c, 0) == c
  {
    RealFacts.DivideBack(0.0, h.multiplier - 1.0, 0.0);
  }

  lemma Expand(m: real, p: real, c: real, b: real, g: real)
    ensures m * p * c + b * (m * g + 1.0) == (p * c + b * g) * m + b
  {
  }

  /** k rate limits in a row: the geometric closed form, cut at the maximum. */
  lemma {:induction false} LimitsClosedForm(h: Health, c: real, n: nat)
    requires h.Sane() && h.multiplier > 1.0 && 0.0 <= c <= h.maxDelay
    ensures AfterLimits(h, c, n) == Min(h.maxDelay, Uncapped(h, c, n))
    ensures Uncapped(h, c, n) >= 0.0
  {
    hide Uncapped, Grow;
    if n == 0 {
      UncappedZero(h, c);
    } else {
      LimitsClosedForm(h, c, n - 1);
      UncappedStep(h, c, n - 1);
      CapStep(h, Uncapped(h, c, n - 1));
    }
  }

  /** Capping before growing changes nothing once the result is capped. */
  lemma CapStep(h: Health, u: real)
    requires h.Sane() && h.multiplier > 1.0 && u >= 0.0
    ensures Min(h.maxDelay, Grow(h, Min(h.maxDelay, u))) == Min(h.maxDelay, Grow(h, u))
    ensures Grow(h, u) >= 0.0
  {
  }

  /** n successes in a row. */
  lemma {:induction false} SuccessesClosedForm(h: Health, c: real, n: nat)
    requires h.Sane() && 0.0 <= c
    ensures AfterSuccesses(h, c, n) == Max(0.0, c - n as real * h.decayStep)
  {
    if n > 0 {
      SuccessesClosedForm(h, c, n - 1);
      assert n as real * h.decayStep == (n - 1) as real * h.decayStep + h.decayStep;
      assert (n - 1) as real * h.decayStep >= 0.0;
    }
  }

  /** n errors in a row shorten the cooldown as successes do, but each of them moves the failure time. */
  lemma {:induction false} RunOfErrors(h: Health, k: Key, events: seq<(Event, int)>)
    requires All(events, Error) && h.Sane() && k.cooldown >= 0.0
    ensures var left := k.cooldown - |events| as real * h.decayStep;
            Run(h, k, events).cooldown == if left < 0.0 then 0.0 else left
    ensures events != [] ==> Run(h, k, events).lastFailureAt == Some(events[|events| - 1].1)
  {
    hide Run;
    if events == [] {
      NoEvents(h, k);
    } else {
      var n := |events| - 1;
      RunOfErrors(h, k, events[..n]);
      RunStep(h, k, events);
      OneMoreDecay(n, h.decayStep);
    }
  }

  lemma NoEvents(h: Health, k: Key)
    ensures Run(h, k, []) == k
  {
  }

  lemma RunStep(h: Health, k: Key, events: seq<(Event, int)>)
    requires events != []
    ensures var n := |events| - 1;
            Run(h, k, events) == Apply(h, Run(h, k, events[..n]), events[n].0, events[n].1)
  {
    hide Apply;
  }

  lemma OneMoreDecay(n: nat, d: real)
    requires d >= 0.0
    ensures (n + 1) as real * d == n as real * d + d && n as real * d >= 0.0
  {
    RealFacts.Distribute(n as real, 1.0, d);
    RealFacts.MulMonotone(0.0, n as real, d);
  }

  /** With the default settings a success takes off 5 seconds, so 60 of them clear every cooldown. */
  lemma DefaultSuccesses(c: real, n: nat)
    requires 0.0 <= c <= 300.0
    ensures AfterSuccesses(DEFAULT_HEALTH, c, n) == if c < 5.0 * n as real then 0.0 else c - 5.0 * n as real
    ensures n >= 60 ==> AfterSuccesses(DEFAULT_HEALTH, c, n) == 0.0
  {
    SuccessesClosedForm(DEFAULT_HEALTH, c, n);
  }

  lemma {:induction false} PowersOfTwo(n: nat)
    ensures Pow(2.0, n) >= 1.0
    ensures n >= 4 ==> Pow(2.0, n) >= 16.0
    ensures n < 4 ==> Pow(2.0, n) <= 8.0
    ensures n == 1 ==> Pow(2.0, n) == 2.0
    ensures n == 2 ==> Pow(2.0, n) == 4.0
    ensures n == 3 ==> Pow(2.0, n) == 8.0
  {
    if n > 0 {
      PowersOfTwo(n - 1);
    }
  }

  /** With the default settings n rate limits give 30 * (2^n - 1) seconds, and the maximum from the fourth on. */
  lemma DefaultLimits(n: nat)
    ensures AfterLimits(DEFAULT_HEALTH, 0.0, n) == Min(300.0, 30.0 * (Pow(2.0, n) - 1.0))
    ensures AfterLimits(DEFAULT_HEALTH, 0.0, n) == 300.0 <==> n >= 4
  {
    hide AfterLimits;
    LimitsClosedForm(DEFAULT_HEALTH, 0.0, n);
    PowersOfTwo(n);
  }
}
