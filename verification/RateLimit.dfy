/** The in-memory token bucket limiter (internal/ratelimit/memory.go). Time is in seconds and,
    like the token counts, an exact real; the burst is a whole number, as the constructor
    takes it. The lock makes calls and evictions a sequence of events. */
module RateLimit {
  import opened Options

  type Key = string
  type Time = real

  const STALE: Time := 600.0

  datatype Limits = Limits(rate: real, burst: int) {
    /** What the configuration check lets through (internal/config/config.go:440-447). */
    predicate Configured() {
      rate > 0.0 && burst >= 1
    }
  }

  datatype Result = Result(allowed: bool, limit: int, remaining: int, resetAt: Option<Time>, retryAfter: Time)

  /** What a bucket holds. */
  datatype Level = Level(tokens: real, lastAccess: Time)

  /** Go's conversion of a float to an int. */
  function Truncate(x: real): int {
    if x >= 0.0 then x.Floor else -((-x).Floor)
  }

  function Ceil(x: real): int {
    -((-x).Floor)
  }

  /** An empty bucket is full after ten idle minutes. */
  predicate RefillsInTime(l: Limits) {
    600.0 * l.rate >= l.burst as real
  }

  /** Tokens that come in over a time. */
  function Gain(l: Limits, t: Time): real {
    t * l.rate
  }

  /** The time in which so many tokens come in. */
  function TimeFor(l: Limits, tokens: real): Time
    requires l.rate > 0.0
  {
    tokens / l.rate
  }

  function ResetAt(l: Limits, now: Time, tokens: real): Option<Time>
    requires l.rate > 0.0
  {
    if tokens >= l.burst as real then None
    else Some(now + Ceil(TimeFor(l, l.burst as real - tokens)) as real)
  }

  function Refilled(l: Limits, b: Level, now: Time): real {
    var tokens := b.tokens + Gain(l, now - b.lastAccess);
    if tokens > l.burst as real then l.burst as real else tokens
  }

  function Admit(l: Limits, now: Time, left: real): (Level, Result)
    requires l.rate > 0.0
  {
    (Level(left, now), Result(true, l.burst, Truncate(left), ResetAt(l, now, left), 0.0))
  }

  /** One call on one key. */
  function TakeFrom(l: Limits, b: Option<Level>, now: Time): (Level, Result)
    requires l.rate > 0.0
  {
    match b
    case None => Admit(l, now, l.burst as real - 1.0)
    case Some(level) =>
      var tokens := Refilled(l, level, now);
      if tokens < 1.0 then
        (Level(tokens, now),
         Result(false, l.burst, 0, ResetAt(l, now, tokens), Ceil(TimeFor(l, 1.0 - tokens)) as real))
      else Admit(l, now, tokens - 1.0)
  }

  type Levels = map<Key, Level>

  function Lookup(m: Levels, key: Key): Option<Level> {
    if key in m then Some(m[key]) else None
  }

  predicate Stale(b: Level, now: Time) {
    b.lastAccess < now - STALE
  }

  function Evicted(m: Levels, now: Time): Levels {
    map key | key in m && !Stale(m[key], now) :: m[key]
  }

  // ---- The limiter ----

  class Bucket {
    var tokens: real
    var lastAccess: Time

    constructor (tokens: real, lastAccess: Time)
      ensures this.tokens == tokens && this.lastAccess == lastAccess
    {
      this.tokens, this.lastAccess := tokens, lastAccess;
    }

    /** The part of Allow that follows the lookup of an existing bucket. */
    method Take(l: Limits, now: Time) returns (r: Result)
      requires l.rate > 0.0
      modifies this
      ensures Level(tokens, lastAccess) == TakeFrom(l, Some(old(Level(tokens, lastAccess))), now).0
      ensures r == TakeFrom(l, Some(old(Level(tokens, lastAccess))), now).1
    {
      var elapsed := now - lastAccess;
      tokens := tokens + Gain(l, elapsed);
      if tokens > l.burst as real {
        tokens := l.burst as real;
      }
      lastAccess := now;
      if tokens < 1.0 {
        var deficit := 1.0 - tokens;
        var retryAfter := Ceil(TimeFor(l, deficit)) as real;
        return Result(false, l.burst, 0, ResetAt(l, now, tokens), retryAfter);
      }
      tokens := tokens - 1.0;
      r := Result(true, l.burst, Truncate(tokens), ResetAt(l, now, tokens), 0.0);
    }
  }

  class MemoryLimiter {
    const limits: Limits
    var buckets: map<Key, Bucket>

    /** Keys do not share buckets. */
    ghost predicate Valid()
      reads this
    {
      && limits.rate > 0.0
      && forall j, k :: j in buckets && k in buckets && j != k ==> buckets[j] != buckets[k]
    }

    ghost function View(): Levels
      reads this, buckets.Values
    {
      map key | key in buckets :: Level(buckets[key].tokens, buckets[key].lastAccess)
    }

    constructor (rate: real, burst: int)
      requires rate > 0.0
      ensures Valid() && View() == map[] && limits == Limits(rate, burst)
    {
      limits := Limits(rate, burst);
      buckets := map[];
    }

    method Allow(now: Time, key: Key) returns (r: Result)
      requires Valid()
      modifies this, buckets.Values
      ensures Valid() && forall b :: b in buckets.Values ==> b in old(buckets.Values) || fresh(b)
      ensures View() == old(View())[key := TakeFrom(limits, Lookup(old(View()), key), now).0]
      ensures r == TakeFrom(limits, Lookup(old(View()), key), now).1
    {
      if key !in buckets {
        var remaining := limits.burst as real - 1.0;
        var b := new Bucket(remaining, now);
        buckets := buckets[key := b];
        return Result(true, limits.burst, Truncate(remaining), ResetAt(limits, now, remaining), 0.0);
      }
      r := buckets[key].Take(limits, now);
    }

    method EvictStale(now: Time)
      requires Valid()
      modifies this
      ensures Valid() && buckets.Values <= old(buckets.Values)
      ensures View() == Evicted(old(View()), now)
      ensures forall key :: key in old(View()) ==> (key in View() <==> now - old(View())[key].lastAccess <= 600.0)
    {
      var cutoff := now - STALE;
      var keys := buckets.Keys;
      while keys != {}
        invariant Valid() && keys <= buckets.Keys
        invariant forall key :: key in buckets ==> key in old(buckets) && buckets[key] == old(buckets[key])
        invariant forall key :: key in old(buckets) && key !in keys ==>
          (key in buckets <==> !(old(buckets[key]).lastAccess < cutoff))
        invariant forall key :: key in keys ==> key in buckets
        decreases keys
      {
        var key :| key in keys;
        if buckets[key].lastAccess < cutoff {
          buckets := buckets - {key};
        }
        keys := keys - {key};
      }
    }
  }

  // ---- Runs ----

  datatype Event = Call(key: Key, at: Time) | Evict(at: Time)

  function Step(l: Limits, m: Levels, e: Event): Levels
    requires l.rate > 0.0
  {
    match e
    case Call(key, now) => m[key := TakeFrom(l, Lookup(m, key), now).0]
    case Evict(now) => Evicted(m, now)
  }

  function Run(l: Limits, events: seq<Event>): Levels
    requires l.rate > 0.0
  {
    if events == [] then map[]
    else Step(l, Run(l, events[..|events| - 1]), events[|events| - 1])
  }

  /** The results of the calls, in order. */
  function Results(l: Limits, events: seq<Event>): seq<Result>
    requires l.rate > 0.0
  {
    if events == [] then []
    else
      var before, e := events[..|events| - 1], events[|events| - 1];
      Results(l, before) + if e.Call? then [TakeFrom(l, Lookup(Run(l, before), e.key), e.at).1] else []
  }

  /** The clock does not run backwards. */
  predicate Timed(events: seq<Event>) {
    forall i :: 1 <= i < |events| ==> events[i - 1].at <= events[i].at
  }

  predicate NoEvictions(events: seq<Event>) {
    forall i :: 0 <= i < |events| ==> events[i].Call?
  }

  function Now(events: seq<Event>): Time
    requires events != []
  {
    events[|events| - 1].at
  }

  lemma Earlier(events: seq<Event>)
    requires Timed(events) && events != []
    ensures Timed(events[..|events| - 1])
    ensures |events| > 1 ==> Now(events[..|events| - 1]) <= Now(events)
  {
  }

  // ---- Token range ----

  predicate InRange(l: Limits, b: Level, now: Time) {
    0.0 <= b.tokens <= l.burst as real && b.lastAccess <= now
  }

  lemma GainSign(l: Limits, t: Time)
    requires l.rate > 0.0
    ensures t >= 0.0 ==> Gain(l, t) >= 0.0
    ensures t == 0.0 ==> Gain(l, t) == 0.0
  {
  }

  lemma GainSum(l: Limits, s: Time, t: Time)
    ensures Gain(l, s + t) == Gain(l, s) + Gain(l, t)
  {
  }

  /** Over two stretches of time as over one. */
  lemma GainSplit(l: Limits, a: Time, b: Time, c: Time)
    ensures Gain(l, c - a) == Gain(l, b - a) + Gain(l, c - b)
  {
    GainSum(l, b - a, c - b);
    assert (b - a) + (c - b) == c - a;
  }

  lemma EnoughTime(l: Limits, tokens: real, t: Time)
    requires l.rate > 0.0
    ensures Gain(l, t) >= tokens <==> t >= TimeFor(l, tokens)
  {
    var d := TimeFor(l, tokens);
    var more := t - d;
    assert d * l.rate == tokens;
    GainSum(l, d, more);
    assert Gain(l, t) == tokens + more * l.rate;
  }

  lemma TakeKeepsRange(l: Limits, b: Option<Level>, now: Time)
    requires l.Configured() && (b.Some? ==> InRange(l, b.value, now))
    ensures InRange(l, TakeFrom(l, b, now).0, now)
    ensures b.Some? ==> 0.0 <= Refilled(l, b.value, now) <= l.burst as real
  {
    if b.Some? {
      GainSign(l, now - b.value.lastAccess);
    }
  }

  /** In every run, with evictions or without, every bucket stays within 0..burst. */
  lemma {:induction false} TokensStayInRange(l: Limits, events: seq<Event>, key: Key)
    requires l.Configured() && Timed(events) && key in Run(l, events)
    ensures events != [] && InRange(l, Run(l, events)[key], Now(events))
  {
    var before, e := events[..|events| - 1], events[|events| - 1];
    Earlier(events);
    if key in Run(l, before) {
      TokensStayInRange(l, before, key);
    }
    if e.Call? && e.key == key {
      TakeKeepsRange(l, Lookup(Run(l, before), key), e.at);
    }
  }

  // ---- The admission bound ----

  /** How many calls on the key were admitted from t1 to t2. */
  function Admitted(l: Limits, events: seq<Event>, key: Key, t1: Time, t2: Time): nat
    requires l.rate > 0.0
  {
    if events == [] then 0
    else
      var before, e := events[..|events| - 1], events[|events| - 1];
      Admitted(l, before, key, t1, t2)
      + if e.Call? && e.key == key && t1 <= e.at <= t2 && TakeFrom(l, Lookup(Run(l, before), key), e.at).1.allowed then 1 else 0
  }

  /** Tokens the key could spend at `now`. */
  function Available(l: Limits, m: Levels, key: Key, now: Time): real {
    if key in m then Refilled(l, m[key], now) else l.burst as real
  }

  lemma AvailableGrowsSlowly(l: Limits, m: Levels, key: Key, now: Time, later: Time)
    requires l.rate > 0.0 && now <= later
    ensures Available(l, m, key, later) <= Available(l, m, key, now) + Gain(l, later - now)
  {
    GainSign(l, later - now);
    if key in m {
      GainSplit(l, m[key].lastAccess, now, later);
    }
  }

  lemma RefilledAtOnce(l: Limits, b: Level)
    requires l.rate > 0.0
    ensures Refilled(l, b, b.lastAccess) == if b.tokens > l.burst as real then l.burst as real else b.tokens
  {
    GainSign(l, b.lastAccess - b.lastAccess);
  }

  lemma AllowedIff(l: Limits, m: Levels, key: Key, now: Time)
    requires l.Configured()
    ensures TakeFrom(l, Lookup(m, key), now).1.allowed <==> Available(l, m, key, now) >= 1.0
  {
  }

  /** A call takes one token of its own key if there is one, and nothing from other keys. */
  lemma CallTakesOne(l: Limits, m: Levels, e: Event, key: Key)
    requires l.Configured() && e.Call?
    ensures
      Available(l, Step(l, m, e), key, e.at) == Spend(e, key, Available(l, m, key, e.at))
  {
    if e.key == key {
      var after := TakeFrom(l, Lookup(m, key), e.at).0;
      assert Step(l, m, e)[key] == after && after.lastAccess == e.at;
      RefilledAtOnce(l, after);
    } else {
      assert Lookup(Step(l, m, e), key) == Lookup(m, key);
    }
  }

  lemma StaleIsFull(l: Limits, b: Level, now: Time)
    requires l.rate > 0.0 && RefillsInTime(l)
    requires Stale(b, now) && b.tokens >= 0.0
    ensures Refilled(l, b, now) == l.burst as real
  {
    GainSplit(l, b.lastAccess, b.lastAccess + STALE, now);
    GainSign(l, now - (b.lastAccess + STALE));
    assert (b.lastAccess + STALE) - b.lastAccess == STALE;
  }

  lemma EvictionKeepsAvailable(l: Limits, m: Levels, key: Key, now: Time)
    requires l.rate > 0.0 && RefillsInTime(l)
    requires key in m ==> m[key].tokens >= 0.0
    ensures Available(l, Evicted(m, now), key, now) == Available(l, m, key, now)
  {
    if key in m && Stale(m[key], now) {
      StaleIsFull(l, m[key], now);
    }
  }

  /** Evictions, if there are any, only hit buckets that are full again. */
  predicate HarmlessEvictions(l: Limits, events: seq<Event>) {
    NoEvictions(events) || RefillsInTime(l)
  }

  /** What an event leaves of what the key could spend. */
  function Spend(e: Event, key: Key, found: real): real {
    if e.Call? && e.key == key && found >= 1.0 then found - 1.0 else found
  }

  lemma StepOnAvailable(l: Limits, before: seq<Event>, e: Event, key: Key)
    requires l.Configured() && Timed(before)
    requires e.Evict? ==> RefillsInTime(l)
    ensures
      Available(l, Step(l, Run(l, before), e), key, e.at) == Spend(e, key, Available(l, Run(l, before), key, e.at))
  {
    if e.Call? {
      CallTakesOne(l, Run(l, before), e, key);
    } else {
      if key in Run(l, before) {
        TokensStayInRange(l, before, key);
      }
      EvictionKeepsAvailable(l, Run(l, before), key, e.at);
    }
  }

  /** The budget at time t: what was admitted so far, and what could be now, against what the
      bound allows. */
  predicate WithinBudget(l: Limits, admitted: nat, available: real, t1: Time, t: Time) {
    admitted as real + available <= l.burst as real + Gain(l, t - t1)
  }

  lemma BudgetOverTime(l: Limits, admitted: nat, available: real, later: real, t1: Time, t: Time, t': Time)
    requires WithinBudget(l, admitted, available, t1, t)
    requires later <= available + Gain(l, t' - t)
    ensures WithinBudget(l, admitted, later, t1, t')
  {
    GainSplit(l, t1, t, t');
  }

  lemma BudgetToTheEnd(l: Limits, admitted: nat, available: real, t1: Time, t: Time, t2: Time)
    requires l.rate > 0.0 && WithinBudget(l, admitted, available, t1, t) && available >= 0.0 && t <= t2
    ensures admitted as real <= l.burst as real + Gain(l, t2 - t1)
  {
    GainSplit(l, t1, t, t2);
    GainSign(l, t2 - t);
  }

  lemma FreshBudget(l: Limits, available: real, t1: Time, t: Time)
    requires l.rate > 0.0 && available <= l.burst as real && t1 <= t
    ensures WithinBudget(l, 0, available, t1, t)
  {
    GainSign(l, t - t1);
  }

  /** The budget as time passes from the last event, if it lies in the window, to `now`. */
  lemma BudgetBeforeCall(l: Limits, m: Levels, key: Key, admitted: nat, last: Option<Time>, t1: Time, now: Time)
    requires l.rate > 0.0 && t1 <= now
    requires match last
      case None => admitted == 0
      case Some(t) => t <= now && WithinBudget(l, admitted, Available(l, m, key, t), t1, t)
    ensures WithinBudget(l, admitted, Available(l, m, key, now), t1, now)
  {
    match last
    case None => FreshBudget(l, Available(l, m, key, now), t1, now);
    case Some(t) =>
      AvailableGrowsSlowly(l, m, key, t, now);
      BudgetOverTime(l, admitted, Available(l, m, key, t), Available(l, m, key, now), t1, t, now);
  }

  /** Admitted calls and available tokens together grow no faster than the refill rate. */
  lemma {:induction false} Budget(l: Limits, events: seq<Event>, key: Key, t1: Time, t2: Time)
    requires l.Configured() && Timed(events) && HarmlessEvictions(l, events) && t1 <= t2
    ensures events != [] && Now(events) < t1 ==> Admitted(l, events, key, t1, t2) == 0
    ensures events != [] && t1 <= Now(events) <= t2 ==>
      WithinBudget(l, Admitted(l, events, key, t1, t2), Available(l, Run(l, events), key, Now(events)), t1, Now(events))
  {
    if events != [] {
      var before, now := events[..|events| - 1], Now(events);
      Earlier(events);
      Budget(l, before, key, t1, t2);
      if t1 <= now <= t2 {
        var last := if before != [] && t1 <= Now(before) then Some(Now(before)) else None;
        BudgetBeforeCall(l, Run(l, before), key, Admitted(l, before, key, t1, t2), last, t1, now);
        StepOnAvailable(l, before, events[|events| - 1], key);
        AllowedIff(l, Run(l, before), key, now);
      }
    }
  }

  /** In every run, a key is admitted at most burst + rate * (t2 - t1) times from t1 to t2. */
  lemma {:induction false} AdmissionBound(l: Limits, events: seq<Event>, key: Key, t1: Time, t2: Time)
    requires l.Configured() && Timed(events) && HarmlessEvictions(l, events) && t1 <= t2
    ensures WithinBound(l, events, key, t1, t2)
  {
    if events == [] {
      GainSign(l, t2 - t1);
    } else {
      var before, now, m := events[..|events| - 1], Now(events), Run(l, events);
      Earlier(events);
      if t1 <= now <= t2 {
        Budget(l, events, key, t1, t2);
        assert Available(l, m, key, now) >= 0.0 by {
          if key in m {
            TokensStayInRange(l, events, key);
            TakeKeepsRange(l, Some(m[key]), now);
          }
        }
        BudgetToTheEnd(l, Admitted(l, events, key, t1, t2), Available(l, m, key, now), t1, now, t2);
      } else {
        AdmissionBound(l, before, key, t1, t2);
      }
    }
  }

  /** Without evictions the bound holds for all runs exactly if the burst is at least 1: the
      first call on a key is admitted whatever the burst. */
  lemma BoundWithoutEvictionsIff(l: Limits)
    requires l.rate > 0.0
    ensures l.burst >= 1 <==>
      forall events: seq<Event>, key, t1, t2 ::
        Timed(events) && NoEvictions(events) && t1 <= t2 ==> WithinBound(l, events, key, t1, t2)
  {
    if l.burst >= 1 {
      forall events: seq<Event>, key, t1, t2 | Timed(events) && NoEvictions(events) && t1 <= t2
        ensures WithinBound(l, events, key, t1, t2)
      {
        AdmissionBound(l, events, key, t1, t2);
      }
    } else {
      var first := FirstCallAdmitted(l);
    }
  }

  /** At most burst + rate * (t2 - t1) calls were admitted. */
  predicate WithinBound(l: Limits, events: seq<Event>, key: Key, t1: Time, t2: Time)
    requires l.rate > 0.0
  {
    Admitted(l, events, key, t1, t2) as real <= l.burst as real + l.rate * (t2 - t1)
  }

  lemma FirstCallAdmitted(l: Limits) returns (first: seq<Event>)
    requires l.rate > 0.0 && l.burst < 1
    ensures Timed(first) && NoEvictions(first) && !WithinBound(l, first, "", 0.0, 0.0)
  {
    first := [Call("", 0.0)];
    assert first[..0] == [] && Admitted(l, [], "", 0.0, 0.0) == 0;
    assert Admitted(l, first, "", 0.0, 0.0) == 1;
    GainSign(l, 0.0 - 0.0);
  }

  // ---- The ideal bucket ----

  /** The key's credit at `now` by the book: a full bucket at first, one token off for every
      call that finds one, and the refill rate in between, up to the burst. It knows no
      records, no first calls and no evictions. */
  function Credit(l: Limits, events: seq<Event>, key: Key, now: Time): real {
    if events == [] then l.burst as real
    else
      var before, e := events[..|events| - 1], events[|events| - 1];
      var found := Credit(l, before, key, e.at);
      Grown(l, Spend(e, key, found), now - e.at)
  }

  function Grown(l: Limits, x: real, t: Time): real {
    var filled := x + l.rate * t;
    if filled > l.burst as real then l.burst as real else filled
  }

  /** Filling up in two steps or in one. */
  lemma AvailableInSteps(l: Limits, m: Levels, key: Key, now: Time, later: Time)
    requires l.rate > 0.0 && now <= later
    ensures Available(l, m, key, later) == Grown(l, Available(l, m, key, now), later - now)
  {
    GainSign(l, later - now);
    if key in m {
      GainSplit(l, m[key].lastAccess, now, later);
    }
  }

  lemma CreditOfMore(l: Limits, before: seq<Event>, e: Event, key: Key, now: Time)
    ensures Credit(l, before + [e], key, now) == Grown(l, Spend(e, key, Credit(l, before, key, e.at)), now - e.at)
  {
    assert (before + [e])[..|before|] == before;
  }

  lemma {:induction false} AvailableIsCredit(l: Limits, events: seq<Event>, key: Key, now: Time)
    requires l.Configured() && Timed(events) && HarmlessEvictions(l, events) && (events != [] ==> Now(events) <= now)
    ensures Available(l, Run(l, events), key, now) == Credit(l, events, key, now)
  {
    if events != [] {
      var before, e := events[..|events| - 1], events[|events| - 1];
      assert events == before + [e];
      Earlier(events);
      AvailableIsCredit(l, before, key, e.at);
      StepOnAvailable(l, before, e, key);
      CreditOfMore(l, before, e, key, now);
      AvailableInSteps(l, Run(l, events), key, e.at, now);
    }
  }

  /** The limiter is the ideal bucket: in every run, a call is admitted exactly when the key has
      a whole token of credit. */
  lemma AdmittedIffCredit(l: Limits, events: seq<Event>, key: Key, now: Time)
    requires l.Configured() && Timed(events) && HarmlessEvictions(l, events) && (events != [] ==> Now(events) <= now)
    ensures TakeFrom(l, Lookup(Run(l, events), key), now).1.allowed <==> Credit(l, events, key, now) >= 1.0
  {
    AvailableIsCredit(l, events, key, now);
    AllowedIff(l, Run(l, events), key, now);
  }

  // ---- One call, in numbers ----

  /** What a call finds: a full bucket at first, later what was left and has come in since, up
      to the burst. */
  function Found(l: Limits, b: Option<Level>, now: Time): real {
    match b
    case None => l.burst as real
    case Some(level) =>
      var filled := level.tokens + l.rate * (now - level.lastAccess);
      if filled > l.burst as real then l.burst as real else filled
  }

  /** A known key is admitted exactly if it finds a token, a new one always; an admitted call
      takes one. The limit of every answer is the burst; a refused call has nothing remaining,
      and an admitted one nothing to wait for. */
  lemma CallIs(l: Limits, b: Option<Level>, now: Time)
    requires l.rate > 0.0
    ensures
      var (after, res) := TakeFrom(l, b, now);
      && (res.allowed <==> b.None? || Found(l, b, now) >= 1.0)
      && after == Level(if res.allowed then Found(l, b, now) - 1.0 else Found(l, b, now), now)
      && res.limit == l.burst
      && (!res.allowed ==> res.remaining == 0)
      && (res.allowed ==> res.retryAfter == 0.0)
  {
  }

  // ---- X-RateLimit-Remaining ----

  /** The level after n more calls at the same moment. */
  function AfterMore(l: Limits, b: Level, n: nat): Level
    requires l.rate > 0.0
  {
    if n == 0 then b else TakeFrom(l, Some(AfterMore(l, b, n - 1)), b.lastAccess).0
  }

  lemma TokensAtOnce(l: Limits, b: Level)
    requires l.rate > 0.0 && b.tokens <= l.burst as real
    ensures
      var (after, res) := TakeFrom(l, Some(b), b.lastAccess);
      && (res.allowed <==> b.tokens >= 1.0)
      && after == Level(if b.tokens >= 1.0 then b.tokens - 1.0 else b.tokens, b.lastAccess)
  {
    RefilledAtOnce(l, b);
  }

  lemma {:induction false} LevelAfterMore(l: Limits, b: Level, n: nat)
    requires l.rate > 0.0 && b.tokens <= l.burst as real && n as real <= b.tokens
    ensures AfterMore(l, b, n) == Level(b.tokens - n as real, b.lastAccess)
  {
    if n > 0 {
      LevelAfterMore(l, b, n - 1);
      TokensAtOnce(l, AfterMore(l, b, n - 1));
    }
  }

  /** After an admitted call, Remaining is the number of further calls that would be admitted at
      the same moment: all before that number, and not the next one. */
  lemma RemainingIsExact(l: Limits, b: Option<Level>, now: Time, n: nat)
    requires l.Configured() && TakeFrom(l, b, now).1.allowed
    requires n <= TakeFrom(l, b, now).1.remaining
    ensures
      var (after, res) := TakeFrom(l, b, now);
      TakeFrom(l, Some(AfterMore(l, after, n)), now).1.allowed <==> n < res.remaining
  {
    var (after, res) := TakeFrom(l, b, now);
    LevelAfterMore(l, after, n);
    TokensAtOnce(l, AfterMore(l, after, n));
  }

  // ---- Retry-After and X-RateLimit-Reset ----

  lemma CeilIsLeast(x: real, n: int)
    ensures n as real >= x <==> n >= Ceil(x)
  {
  }

  /** What any call leaves: a level of this moment, below the burst, and its reset time. */
  lemma AfterCall(l: Limits, b: Option<Level>, now: Time)
    requires l.Configured()
    ensures
      var (after, res) := TakeFrom(l, b, now);
      && after.lastAccess == now && after.tokens < l.burst as real
      && res.resetAt == ResetAt(l, now, after.tokens)
      && (!res.allowed ==> after.tokens < 1.0 && res.retryAfter == Ceil(TimeFor(l, 1.0 - after.tokens)) as real)
  {
  }

  lemma Reaches(l: Limits, b: Level, level: real, s: nat)
    requires l.rate > 0.0 && level <= l.burst as real
    ensures Refilled(l, b, b.lastAccess + s as real) >= level <==> s >= Ceil(TimeFor(l, level - b.tokens))
  {
    assert b.lastAccess + s as real - b.lastAccess == s as real;
    EnoughTime(l, level - b.tokens, s as real);
    CeilIsLeast(TimeFor(l, level - b.tokens), s);
  }

  /** A refused key that stays idle is admitted after s whole seconds exactly when s has
      reached RetryAfter. */
  lemma RetryAfterIsExact(l: Limits, b: Level, now: Time, s: nat)
    requires l.Configured() && !TakeFrom(l, Some(b), now).1.allowed
    ensures
      var (after, refusal) := TakeFrom(l, Some(b), now);
      TakeFrom(l, Some(after), now + s as real).1.allowed <==> s as real >= refusal.retryAfter
  {
    AfterCall(l, Some(b), now);
    Reaches(l, TakeFrom(l, Some(b), now).0, 1.0, s);
  }

  /** Whatever a call's outcome, a key that then stays idle is full after s whole seconds
      exactly when the clock has reached ResetAt. */
  lemma ResetAtIsExact(l: Limits, b: Option<Level>, now: Time, s: nat)
    requires l.Configured()
    ensures
      var (after, res) := TakeFrom(l, b, now);
      res.resetAt.Some? &&
      (Refilled(l, after, now + s as real) == l.burst as real <==> now + s as real >= res.resetAt.value)
  {
    AfterCall(l, b, now);
    Reaches(l, TakeFrom(l, b, now).0, l.burst as real, s);
  }

  // ---- Eviction ----

  function WithoutEvictions(events: seq<Event>): seq<Event> {
    if events == [] then []
    else
      WithoutEvictions(events[..|events| - 1])
      + if events[|events| - 1].Call? then [events[|events| - 1]] else []
  }

  /** A key that is not held by the evicting limiter has been idle in the other one for longer
      than the threshold; the keys that are held agree. */
  predicate Agree(evicting: Levels, keeping: Levels, key: Key, now: Time) {
    if key in evicting then key in keeping && evicting[key] == keeping[key]
    else key in keeping ==> Stale(keeping[key], now) && keeping[key].tokens >= 0.0
  }

  lemma StaleMeansFull(l: Limits, b: Level, now: Time)
    requires l.Configured() && RefillsInTime(l)
    requires Stale(b, now) && b.tokens >= 0.0
    ensures TakeFrom(l, Some(b), now) == TakeFrom(l, None, now)
  {
    StaleIsFull(l, b, now);
  }

  lemma {:induction false} WithoutEvictionsIsTimed(events: seq<Event>)
    requires Timed(events)
    ensures Timed(WithoutEvictions(events)) && NoEvictions(WithoutEvictions(events))
    ensures WithoutEvictions(events) != [] ==> events != [] && Now(WithoutEvictions(events)) <= Now(events)
  {
    if events != [] {
      Earlier(events);
      WithoutEvictionsIsTimed(events[..|events| - 1]);
    }
  }

  lemma {:induction false} EvictionSimulates(l: Limits, events: seq<Event>)
    requires l.Configured() && RefillsInTime(l) && Timed(events)
    ensures events != [] ==> forall key :: Agree(Run(l, events), Run(l, WithoutEvictions(events)), key, Now(events))
    ensures Results(l, events) == Results(l, WithoutEvictions(events))
  {
    if events == [] {
      assert WithoutEvictions(events) == [];
    } else {
      var before, e := events[..|events| - 1], events[|events| - 1];
      var calls := WithoutEvictions(before);
      var a, b := Run(l, before), Run(l, calls);
      Earlier(events);
      EvictionSimulates(l, before);
      if e.Call? {
        assert WithoutEvictions(events) == calls + [e] && (calls + [e])[..|calls|] == calls;
        assert TakeFrom(l, Lookup(a, e.key), e.at) == TakeFrom(l, Lookup(b, e.key), e.at) by {
          if before != [] {
            assert Agree(a, b, e.key, Now(before));
            if e.key !in a && e.key in b {
              StaleMeansFull(l, b[e.key], e.at);
            }
          }
        }
      } else {
        assert WithoutEvictions(events) == calls;
      }
      forall key ensures Agree(Run(l, events), Run(l, WithoutEvictions(events)), key, Now(events)) {
        AgreementKept(l, before, e, key);
      }
    }
  }

  lemma AgreementKept(l: Limits, before: seq<Event>, e: Event, key: Key)
    requires l.Configured() && Timed(before + [e])
    requires before != [] ==> Agree(Run(l, before), Run(l, WithoutEvictions(before)), key, Now(before))
    requires before == [] ==> WithoutEvictions(before) == []
    requires e.Call? ==>
      TakeFrom(l, Lookup(Run(l, before), e.key), e.at) == TakeFrom(l, Lookup(Run(l, WithoutEvictions(before)), e.key), e.at)
    ensures
      var b := Run(l, WithoutEvictions(before));
      Agree(Step(l, Run(l, before), e), if e.Call? then Step(l, b, e) else b, key, e.at)
  {
    var calls := WithoutEvictions(before);
    if before != [] {
      var n := |before|;
      assert (before + [e])[n - 1] == before[n - 1] && (before + [e])[n] == e;
      forall i | 1 <= i < n ensures before[i - 1].at <= before[i].at {
        assert (before + [e])[i - 1] == before[i - 1] && (before + [e])[i] == before[i];
      }
      WithoutEvictionsIsTimed(before);
      if key in Run(l, calls) {
        TokensStayInRange(l, calls, key);
      }
    }
  }

  ghost predicate EvictionIsInvisible(l: Limits)
    requires l.rate > 0.0
  {
    forall events: seq<Event> :: Timed(events) ==> Results(l, events) == Results(l, WithoutEvictions(events))
  }

  /** n calls on one key at one moment. */
  function Calls(n: nat, at: Time): seq<Event> {
    if n == 0 then [] else Calls(n - 1, at) + [Call("", at)]
  }

  lemma TakeAtOnce(l: Limits, b: Option<Level>, now: Time)
    requires l.Configured()
    requires b.Some? ==> b.value.lastAccess == now && 1.0 <= b.value.tokens <= l.burst as real
    ensures TakeFrom(l, b, now).0 == Level((if b.Some? then b.value.tokens else l.burst as real) - 1.0, now)
  {
    if b.Some? {
      RefilledAtOnce(l, b.value);
    }
  }

  lemma OneLater(before: seq<Event>, e: Event)
    requires Timed(before) && (before != [] ==> Now(before) <= e.at)
    ensures Timed(before + [e]) && Now(before + [e]) == e.at
  {
  }

  lemma {:induction false} CallsAreTimed(before: seq<Event>, n: nat, at: Time)
    requires Timed(before) && (before != [] ==> Now(before) <= at)
    ensures Timed(before + Calls(n, at)) && (before + Calls(n, at) != [] ==> Now(before + Calls(n, at)) <= at)
  {
    if n == 0 {
      assert before + Calls(0, at) == before;
    } else {
      CallsAreTimed(before, n - 1, at);
      OneLater(before + Calls(n - 1, at), Call("", at));
      assert before + Calls(n, at) == before + Calls(n - 1, at) + [Call("", at)];
    }
  }

  lemma {:induction false} CallsAreCalls(n: nat, at: Time)
    ensures WithoutEvictions(Calls(n, at)) == Calls(n, at)
  {
    if n > 0 {
      CallsAreCalls(n - 1, at);
    }
  }

  lemma RunOneMore(l: Limits, before: seq<Event>, e: Event, t1: Time, t2: Time)
    requires l.rate > 0.0
    ensures Run(l, before + [e]) == Step(l, Run(l, before), e)
    ensures Admitted(l, before + [e], "", t1, t2) == Admitted(l, before, "", t1, t2)
      + if e.Call? && e.key == "" && t1 <= e.at <= t2 && TakeFrom(l, Lookup(Run(l, before), e.key), e.at).1.allowed then 1 else 0
  {
    assert (before + [e])[..|before|] == before;
  }

  /** `left` tokens are left of the burst at this moment. */
  predicate Left(l: Limits, events: seq<Event>, left: nat, at: Time)
    requires l.rate > 0.0
  {
    Lookup(Run(l, events), "") == if left == l.burst then None else Some(Level(left as real, at))
  }

  /** After `events`, which add n admitted calls to those of `before`. */
  predicate Spent(l: Limits, before: seq<Event>, events: seq<Event>, n: nat, at: Time, t1: Time, t2: Time)
    requires l.rate > 0.0
  {
    n <= l.burst && Left(l, events, l.burst - n, at)
    && Admitted(l, events, "", t1, t2) == Admitted(l, before, "", t1, t2) + n
  }

  lemma OneMoreAdmitted(l: Limits, before: seq<Event>, events: seq<Event>, n: nat, at: Time, t1: Time, t2: Time)
    requires l.Configured() && n < l.burst && Spent(l, before, events, n, at, t1, t2) && t1 <= at <= t2
    ensures Spent(l, before, events + [Call("", at)], n + 1, at, t1, t2)
  {
    var b := Lookup(Run(l, events), "");
    TakeAtOnce(l, b, at);
    AllowedAtOnce(l, b, at);
    RunOneMore(l, events, Call("", at), t1, t2);
  }

  lemma OneCallMore(before: seq<Event>, n: nat, at: Time)
    requires n > 0
    ensures before + Calls(n, at) == before + Calls(n - 1, at) + [Call("", at)]
  {
  }

  /** A key without a bucket is admitted its whole burst at one moment. */
  lemma {:induction false} BurstIsAdmitted(l: Limits, before: seq<Event>, n: nat, at: Time, t1: Time, t2: Time)
    requires l.Configured() && n <= l.burst && "" !in Run(l, before) && t1 <= at <= t2
    ensures Spent(l, before, before + Calls(n, at), n, at, t1, t2)
  {
    if n == 0 {
      assert before + Calls(0, at) == before;
    } else {
      BurstIsAdmitted(l, before, n - 1, at, t1, t2);
      OneMoreAdmitted(l, before, before + Calls(n - 1, at), n - 1, at, t1, t2);
      OneCallMore(before, n, at);
    }
  }

  lemma AllowedAtOnce(l: Limits, b: Option<Level>, now: Time)
    requires l.Configured()
    requires b.Some? ==> b.value.lastAccess == now && 1.0 <= b.value.tokens <= l.burst as real
    ensures TakeFrom(l, b, now).1.allowed
  {
    if b.Some? {
      RefilledAtOnce(l, b.value);
    }
  }

  /** A moment after an empty bucket became stale and before it is full again. */
  function BetweenStaleAndFull(l: Limits): (t: Time)
    requires l.rate > 0.0 && !RefillsInTime(l)
    ensures STALE < t && 0.0 <= Refilled(l, Level(0.0, 0.0), t) < l.burst as real
  {
    var full := TimeFor(l, l.burst as real);
    var t := (STALE + full) / 2.0;
    EnoughTime(l, l.burst as real, STALE);
    EnoughTime(l, l.burst as real, t);
    GainSign(l, t);
    assert t - 0.0 == t;
    t
  }

  lemma FullOrFilling(l: Limits, t: Time)
    requires l.Configured() && 0.0 <= Refilled(l, Level(0.0, 0.0), t) < l.burst as real
    ensures TakeFrom(l, None, t).1 != TakeFrom(l, Some(Level(0.0, 0.0)), t).1
  {
    var full, filling := TakeFrom(l, None, t).1, TakeFrom(l, Some(Level(0.0, 0.0)), t).1;
    assert full.allowed && full.remaining == l.burst - 1;
    assert filling.allowed ==> filling.remaining < l.burst - 1;
  }

  lemma ResultsThenCall(l: Limits, before: seq<Event>, at: Time)
    requires l.rate > 0.0
    ensures Results(l, before + [Call("", at)]) == Results(l, before) + [TakeFrom(l, Lookup(Run(l, before), ""), at).1]
    ensures WithoutEvictions(before + [Call("", at)]) == WithoutEvictions(before) + [Call("", at)]
  {
    assert (before + [Call("", at)])[..|before|] == before;
  }

  lemma ThenEvict(l: Limits, before: seq<Event>, at: Time)
    requires l.rate > 0.0
    ensures Results(l, before + [Evict(at)]) == Results(l, before)
    ensures WithoutEvictions(before + [Evict(at)]) == WithoutEvictions(before)
    ensures Run(l, before + [Evict(at)]) == Evicted(Run(l, before), at)
  {
    assert (before + [Evict(at)])[..|before|] == before;
  }

  lemma EmptyIsStale(l: Limits, m: Levels, t: Time)
    requires STALE < t && Lookup(m, "") == Some(Level(0.0, 0.0))
    ensures Lookup(Evicted(m, t), "") == None
  {
  }

  /** After a run that empties the bucket at time 0, an eviction and a call. */
  lemma EvictedAnswersDiffer(l: Limits, drained: seq<Event>, t: Time)
    requires l.Configured() && WithoutEvictions(drained) == drained
    requires Lookup(Run(l, drained), "") == Some(Level(0.0, 0.0)) && Lookup(Evicted(Run(l, drained), t), "") == None
    requires 0.0 <= Refilled(l, Level(0.0, 0.0), t) < l.burst as real
    ensures
      var events := drained + [Evict(t)] + [Call("", t)];
      Results(l, events) != Results(l, WithoutEvictions(events))
  {
    ThenEvict(l, drained, t);
    ResultsThenCall(l, drained + [Evict(t)], t);
    ResultsThenCall(l, drained, t);
    FullOrFilling(l, t);
    LastDiffers(Results(l, drained), TakeFrom(l, None, t).1, TakeFrom(l, Some(Level(0.0, 0.0)), t).1);
  }

  lemma TimedToTheEnd(drained: seq<Event>, t: Time)
    requires Timed(drained) && (drained != [] ==> Now(drained) <= t)
    ensures Timed(drained + [Evict(t)] + [Call("", t)])
  {
    OneLater(drained, Evict(t));
    OneLater(drained + [Evict(t)], Call("", t));
  }

  lemma DrainedAtZero(l: Limits, t: Time)
    requires l.Configured() && 0.0 <= t
    ensures
      var drained := Calls(l.burst, 0.0);
      && WithoutEvictions(drained) == drained && Timed(drained) && drained != [] && Now(drained) <= 0.0
      && Lookup(Run(l, drained), "") == Some(Level(0.0, 0.0))
      && Admitted(l, drained, "", 0.0, t) == l.burst
  {
    DrainIsTimed(l.burst);
    DrainIsSpent(l, t);
  }

  lemma DrainIsTimed(n: nat)
    requires n > 0
    ensures
      var drained := Calls(n, 0.0);
      WithoutEvictions(drained) == drained && Timed(drained) && drained != [] && Now(drained) <= 0.0
  {
    CallsAreCalls(n, 0.0);
    CallsAreTimed([], n, 0.0);
    assert [] + Calls(n, 0.0) == Calls(n, 0.0);
  }

  lemma DrainIsSpent(l: Limits, t: Time)
    requires l.Configured() && 0.0 <= t
    ensures Lookup(Run(l, Calls(l.burst, 0.0)), "") == Some(Level(0.0, 0.0))
    ensures Admitted(l, Calls(l.burst, 0.0), "", 0.0, t) == l.burst
  {
    BurstIsAdmitted(l, [], l.burst, 0.0, 0.0, t);
    assert [] + Calls(l.burst, 0.0) == Calls(l.burst, 0.0);
    SpentAll(l, Calls(l.burst, 0.0), t);
  }

  lemma SpentAll(l: Limits, events: seq<Event>, t: Time)
    requires l.Configured() && Spent(l, [], events, l.burst, 0.0, 0.0, t)
    ensures Lookup(Run(l, events), "") == Some(Level(0.0, 0.0)) && Admitted(l, events, "", 0.0, t) == l.burst
  {
    assert Admitted(l, [], "", 0.0, t) == 0;
  }

  /** Drain a bucket, evict it a little more than ten minutes later, call again: the evicting
      limiter answers from a full bucket, the other from one that is still filling. */
  lemma EvictionShows(l: Limits) returns (events: seq<Event>)
    requires l.Configured() && !RefillsInTime(l)
    ensures Timed(events) && Results(l, events) != Results(l, WithoutEvictions(events))
  {
    var t := BetweenStaleAndFull(l);
    var drained := Calls(l.burst, 0.0);
    DrainedAtZero(l, t);
    EmptyIsStale(l, Run(l, drained), t);
    TimedToTheEnd(drained, t);
    EvictedAnswersDiffer(l, drained, t);
    events := drained + [Evict(t)] + [Call("", t)];
  }

  lemma LastDiffers(before: seq<Result>, one: Result, other: Result)
    requires one != other
    ensures before + [one] != before + [other]
  {
    assert (before + [one])[|before|] != (before + [other])[|before|];
  }

  /** Evicting stale buckets changes no answer in any run exactly when an idle bucket refills
      within the ten minutes after which it may be evicted. */
  lemma EvictionIsInvisibleIff(l: Limits)
    requires l.Configured()
    ensures EvictionIsInvisible(l) <==> RefillsInTime(l)
  {
    if RefillsInTime(l) {
      forall events: seq<Event> | Timed(events) ensures Results(l, events) == Results(l, WithoutEvictions(events)) {
        EvictionSimulates(l, events);
      }
    } else {
      var events := EvictionShows(l);
    }
  }

  // ---- The admission bound and evictions ----

  /** Drain a bucket, evict it before it is full again, drain it again: two bursts in less time
      than one takes to refill. */
  lemma TwoBursts(l: Limits) returns (events: seq<Event>, t: Time)
    requires l.Configured() && !RefillsInTime(l)
    ensures Timed(events) && 0.0 <= t && !WithinBound(l, events, "", 0.0, t)
  {
    t := BetweenStaleAndFull(l);
    var drained := Calls(l.burst, 0.0);
    DrainedAtZero(l, t);
    EmptyIsStale(l, Run(l, drained), t);
    var evicted := drained + [Evict(t)];
    OneLater(drained, Evict(t));
    RunOneMore(l, drained, Evict(t), 0.0, t);
    BurstIsAdmitted(l, evicted, l.burst, t, 0.0, t);
    CallsAreTimed(evicted, l.burst, t);
    events := evicted + Calls(l.burst, t);
    FillingGains(l, t);
  }

  lemma FillingGains(l: Limits, t: Time)
    requires l.rate > 0.0 && Refilled(l, Level(0.0, 0.0), t) < l.burst as real
    ensures Gain(l, t - 0.0) < l.burst as real
  {
  }

  /** The bound holds of every run, evictions at any moments included. */
  ghost predicate BoundHolds(l: Limits)
    requires l.rate > 0.0
  {
    forall events: seq<Event>, key, t1, t2 :: Timed(events) && t1 <= t2 ==> WithinBound(l, events, key, t1, t2)
  }

  /** With the evictions that the limiter makes, the bound holds of all runs exactly if the burst
      is at least 1 and an idle bucket refills within the ten minutes after which it may be
      evicted. */
  lemma AdmissionBoundIff(l: Limits)
    requires l.rate > 0.0
    ensures BoundHolds(l) <==> l.burst >= 1 && RefillsInTime(l)
  {
    if l.burst < 1 {
      var first := FirstCallAdmitted(l);
      assert !WithinBound(l, first, "", 0.0, 0.0);
    } else if !RefillsInTime(l) {
      var events, t := TwoBursts(l);
      assert !WithinBound(l, events, "", 0.0, t);
    } else {
      forall events: seq<Event>, key, t1, t2 | Timed(events) && t1 <= t2 ensures WithinBound(l, events, key, t1, t2) {
        AdmissionBound(l, events, key, t1, t2);
      }
    }
  }
}
