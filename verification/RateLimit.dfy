/** The authority's token buckets, one per key, with idle eviction and a capacity limit.  Times are
    seconds, in exact reals. */
module RateLimit {
  const MAX_RATE_BUCKETS := 10_000
  const IDLE_TTL := 600.0

  datatype Bucket = Bucket(tokens: real, at: real)

  datatype Config = Config(rate: real, burst: real)

  /** The server replaces non-positive settings by defaults. */
  predicate Sane(c: Config) {
    c.rate > 0.0 && c.burst > 0.0
  }

  /** A bucket idle long enough to be evicted is full again. */
  predicate Harmless(c: Config) {
    Sane(c) && c.rate * IDLE_TTL >= c.burst
  }

  datatype Call = Call(key: string, now: real)

  /** A call is admitted, refused until its bucket has a token, or refused for lack of room. */
  datatype Verdict = Admit | Refuse(wait: real) | Capacity

  function Min(a: real, b: real): real {
    if a < b then a else b
  }

  type Buckets = map<string, Bucket>

  /** Tokens that flow into a bucket in a time. */
  function Gain(c: Config, elapsed: real): real {
    elapsed * c.rate
  }

  /** How long a caller with less than a token has to wait for a whole one. */
  function Wait(c: Config, tokens: real): real
    requires c.rate != 0.0
  {
    (1.0 - tokens) / c.rate
  }

  function Evict(buckets: Buckets, now: real): Buckets {
    map k | k in buckets && buckets[k].at >= now - IDLE_TTL :: buckets[k]
  }

  /** Charge one token to a key's bucket, a new one starting full. */
  function Charge(c: Config, buckets: Buckets, call: Call): (Buckets, Verdict)
    requires c.rate != 0.0
  {
    var bucket := if call.key in buckets then buckets[call.key] else Bucket(c.burst, call.now);
    var tokens := Min(c.burst, bucket.tokens + Gain(c, call.now - bucket.at));
    if tokens >= 1.0 then (buckets[call.key := Bucket(tokens - 1.0, call.now)], Admit)
    else (buckets[call.key := Bucket(tokens, call.now)], Refuse(Wait(c, tokens)))
  }

  /** `rateRegistry.allow`. */
  function Allowed(c: Config, buckets: Buckets, call: Call): (Buckets, Verdict)
    requires c.rate != 0.0
  {
    var room := if call.key !in buckets && |buckets| >= MAX_RATE_BUCKETS then Evict(buckets, call.now) else buckets;
    if call.key !in buckets && |room| >= MAX_RATE_BUCKETS then (room, Capacity) else Charge(c, room, call)
  }

  class RateRegistry {
    const config: Config
    var buckets: Buckets

    constructor (rate: real, burst: real)
      ensures config == Config(rate, burst) && buckets == map[]
    {
      config, buckets := Config(rate, burst), map[];
    }

    method EvictIdle(now: real)
      modifies this
      ensures buckets == Evict(old(buckets), now)
    {
      var cutoff := now - IDLE_TTL;
      var keys := buckets.Keys;
      while keys != {}
        invariant keys <= old(buckets).Keys
        invariant forall k :: k in buckets <==> k in old(buckets) && (k in keys || old(buckets)[k].at >= cutoff)
        invariant forall k :: k in buckets ==> buckets[k] == old(buckets)[k]
        decreases |keys|
      {
        var existing :| existing in keys;
        keys := keys - {existing};
        if existing in buckets && buckets[existing].at < cutoff {
          buckets := buckets - {existing};
        }
      }
      assert buckets == Evict(old(buckets), now);
    }

    method Allow(key: string, now: real) returns (ok: bool, wait: real)
      requires Sane(config)
      modifies this
      ensures buckets == Allowed(config, old(buckets), Call(key, now)).0
      ensures Allowed(config, old(buckets), Call(key, now)).1 ==
              if ok then Admit else if key !in buckets then Capacity else Refuse(wait)
      ensures ok ==> wait == 0.0
      ensures !ok && key !in buckets ==> wait == 1.0
    {
      hide Evict, Gain, Wait;
      EvictKeepsOut(buckets, key, now);
      var known := key in buckets;
      if !known && |buckets| >= MAX_RATE_BUCKETS {
        EvictIdle(now);
        if |buckets| >= MAX_RATE_BUCKETS {
          return false, 1.0;
        }
      }
      var bucket := if known then buckets[key] else Bucket(config.burst, now);
      var elapsed := now - bucket.at;
      bucket := Bucket(Min(config.burst, bucket.tokens + Gain(config, elapsed)), now);
      if bucket.tokens >= 1.0 {
        buckets := buckets[key := Bucket(bucket.tokens - 1.0, now)];
        return true, 0.0;
      }
      buckets := buckets[key := bucket];
      return false, Wait(config, bucket.tokens);
    }
  }

  lemma EvictKeepsOut(buckets: Buckets, key: string, now: real)
    ensures key !in buckets ==> key !in Evict(buckets, now)
  {
  }

  // ---------------------------------------------------------------- runs

  /** A run of the evicting registry from empty. */
  function Evicting(c: Config, calls: seq<Call>): (Buckets, seq<Verdict>)
    requires c.rate != 0.0
  {
    if calls == [] then (map[], [])
    else
      var (buckets, verdicts) := Evicting(c, calls[..|calls| - 1]);
      var (next, verdict) := Allowed(c, buckets, calls[|calls| - 1]);
      (next, verdicts + [verdict])
  }

  /** The reference registry: it forgets nothing and refuses nobody for lack of room. */
  function Remembering(c: Config, calls: seq<Call>): (Buckets, seq<Verdict>)
    requires c.rate != 0.0
  {
    if calls == [] then (map[], [])
    else
      var (buckets, verdicts) := Remembering(c, calls[..|calls| - 1]);
      var (next, verdict) := Charge(c, buckets, calls[|calls| - 1]);
      (next, verdicts + [verdict])
  }

  predicate NonDecreasing(calls: seq<Call>) {
    forall i, j :: 0 <= i <= j < |calls| ==> calls[i].now <= calls[j].now
  }

  /** The calls that were not turned away for lack of room, and the answers to them. */
  function Heard(calls: seq<Call>, verdicts: seq<Verdict>): seq<Call>
    requires |calls| == |verdicts|
  {
    if calls == [] then []
    else Heard(calls[..|calls| - 1], verdicts[..|calls| - 1])
         + if verdicts[|calls| - 1].Capacity? then [] else [calls[|calls| - 1]]
  }

  function Answers(verdicts: seq<Verdict>): seq<Verdict> {
    if verdicts == [] then []
    else Answers(verdicts[..|verdicts| - 1])
         + if verdicts[|verdicts| - 1].Capacity? then [] else [verdicts[|verdicts| - 1]]
  }

  /** Every call that is not turned away for lack of room stands among those heard, behind those heard before it
      and with its answer; and nobody else does. */
  lemma {:induction false} HeardAt(calls: seq<Call>, verdicts: seq<Verdict>, i: nat)
    requires |calls| == |verdicts|
    ensures |Heard(calls, verdicts)| == |Answers(verdicts)| == |set k | 0 <= k < |verdicts| && !verdicts[k].Capacity?|
    ensures i < |calls| && !verdicts[i].Capacity? ==>
              var k := |Answers(verdicts[..i])|;
              k < |Answers(verdicts)| && Heard(calls, verdicts)[k] == calls[i] && Answers(verdicts)[k] == verdicts[i]
  {
    AnswersCount(verdicts);
    if calls != [] {
      var n := |calls| - 1;
      HeardAt(calls[..n], verdicts[..n], i);
      if i < n {
        assert verdicts[..n][..i] == verdicts[..i];
      }
    }
  }

  lemma {:induction false} AnswersCount(verdicts: seq<Verdict>)
    ensures |Answers(verdicts)| == |set k | 0 <= k < |verdicts| && !verdicts[k].Capacity?|
  {
    if verdicts != [] {
      var n := |verdicts| - 1;
      AnswersCount(verdicts[..n]);
      var earlier := set k | 0 <= k < n && !verdicts[..n][k].Capacity?;
      var all := set k | 0 <= k < |verdicts| && !verdicts[k].Capacity?;
      LastOne(earlier, all, n, !verdicts[n].Capacity?);
    }
  }

  /** A set of numbers with the next one, if it is in. */
  lemma LastOne(earlier: set<int>, all: set<int>, n: int, included: bool)
    requires n !in earlier && (n in all <==> included)
    requires forall k :: k in earlier ==> k in all
    requires forall k :: k in all ==> k == n || k in earlier
    ensures |all| == |earlier| + if included then 1 else 0
  {
    var grown := earlier + if included then {n} else {};
    forall k ensures k in all <==> k in grown {
    }
    assert all == grown;
  }

  // ---------------------------------------------------------------- levels

  /** The tokens a key can count on at a time; an unknown key has a full bucket. */
  function Level(c: Config, buckets: Buckets, key: string, t: real): real {
    if key in buckets then Min(c.burst, buckets[key].tokens + Gain(c, t - buckets[key].at)) else c.burst
  }

  predicate Sound(c: Config, buckets: Buckets, now: real) {
    forall k :: k in buckets ==> 0.0 <= buckets[k].tokens <= c.burst && buckets[k].at <= now
  }

  lemma GainAdds(c: Config, a: real, b: real)
    ensures Gain(c, a + b) == Gain(c, a) + Gain(c, b)
  {
  }

  lemma GainZero(c: Config)
    ensures Gain(c, 0.0) == 0.0
  {
  }

  lemma GainMonotone(c: Config, a: real, b: real)
    requires Sane(c) && a <= b
    ensures Gain(c, a) <= Gain(c, b)
  {
  }

  lemma GainOfWait(c: Config, tokens: real)
    requires Sane(c)
    ensures Gain(c, Wait(c, tokens)) == 1.0 - tokens
  {
  }

  lemma GainPositive(c: Config, x: real)
    requires Sane(c) && x > 0.0
    ensures Gain(c, x) > 0.0
  {
  }

  lemma WaitWithin(c: Config, tokens: real, bound: real)
    requires Sane(c) && Gain(c, bound) >= 1.0 - tokens
    ensures Wait(c, tokens) <= bound
  {
    hide Gain, Wait;
    GainOfWait(c, tokens);
    var more := Wait(c, tokens) - bound;
    assert bound + more == Wait(c, tokens);
    GainAdds(c, bound, more);
    if more > 0.0 {
      GainPositive(c, more);
    }
  }

  /** The level at a later time is a function of the level now. */
  lemma LevelLater(c: Config, buckets: Buckets, key: string, t: real, u: real)
    requires Sane(c) && t <= u
    ensures Level(c, buckets, key, u) == Min(c.burst, Level(c, buckets, key, t) + Gain(c, u - t))
  {
    hide Gain;
    GainZero(c);
    GainMonotone(c, 0.0, u - t);
    if key in buckets {
      GainAdds(c, t - buckets[key].at, u - t);
      assert (t - buckets[key].at) + (u - t) == u - buckets[key].at;
    }
  }

  /** Charging a key takes a token off its level if it has one, and leaves the other levels alone. */
  lemma ChargeLevel(c: Config, buckets: Buckets, call: Call, key: string)
    requires Sane(c)
    ensures var (next, verdict) := Charge(c, buckets, call);
            var before := Level(c, buckets, call.key, call.now);
            && verdict == (if before >= 1.0 then Admit else Refuse(Wait(c, before)))
            && Level(c, next, key, call.now) ==
               Level(c, buckets, key, call.now) - (if key == call.key && verdict.Admit? then 1.0 else 0.0)
  {
    hide Gain, Wait;
    GainZero(c);
  }

  lemma ChargeSound(c: Config, buckets: Buckets, call: Call, before: real)
    requires Sane(c) && Sound(c, buckets, before) && before <= call.now
    ensures Sound(c, Charge(c, buckets, call).0, call.now)
  {
    hide Gain, Wait;
    GainZero(c);
    if call.key in buckets {
      GainMonotone(c, 0.0, call.now - buckets[call.key].at);
    }
  }

  /** Evicting idle buckets changes no level. */
  lemma EvictLevel(c: Config, buckets: Buckets, now: real, key: string)
    requires Harmless(c) && Sound(c, buckets, now)
    ensures Level(c, Evict(buckets, now), key, now) == Level(c, buckets, key, now)
  {
    if key in buckets && buckets[key].at < now - IDLE_TTL {
      GainMonotone(c, IDLE_TTL, now - buckets[key].at);
    }
  }

  /** The condition is exact: with a burst that ten minutes do not refill, some eviction raises a level. */
  lemma EvictionIsHarmlessIff(c: Config)
    requires Sane(c)
    ensures Harmless(c) <==>
            forall buckets, now, key :: Sound(c, buckets, now) ==> EvictionKeeps(c, buckets, now, key)
  {
    if Harmless(c) {
      forall buckets, now, key | Sound(c, buckets, now) ensures EvictionKeeps(c, buckets, now, key) {
        EvictLevel(c, buckets, now, key);
      }
    } else {
      RaisedLevel(c);
    }
  }

  predicate EvictionKeeps(c: Config, buckets: Buckets, now: real, key: string) {
    Level(c, Evict(buckets, now), key, now) == Level(c, buckets, key, now)
  }

  lemma RaisedLevel(c: Config)
    requires Sane(c) && !Harmless(c)
    ensures exists buckets, now, key :: Sound(c, buckets, now) && !EvictionKeeps(c, buckets, now, key)
  {
    var spare := Wait(c, 1.0 + Gain(c, IDLE_TTL) - c.burst) / 2.0;
    GainOfWait(c, 1.0 + Gain(c, IDLE_TTL) - c.burst);
    HalfGain(c, Wait(c, 1.0 + Gain(c, IDLE_TTL) - c.burst));
    var now := IDLE_TTL + spare;
    GainAdds(c, IDLE_TTL, spare);
    assert Gain(c, now) < c.burst;
    SparePositive(c, spare);
    var buckets: Buckets := map["" := Bucket(0.0, 0.0)];
    hide Gain;
    assert Sound(c, buckets, now) && Evict(buckets, now) == map[];
    assert !EvictionKeeps(c, buckets, now, "");
  }

  lemma HalfGain(c: Config, x: real)
    ensures Gain(c, x / 2.0) == Gain(c, x) / 2.0
  {
  }

  lemma SparePositive(c: Config, x: real)
    requires Sane(c) && Gain(c, x) > 0.0
    ensures x > 0.0
  {
  }

  lemma AllowedLevel(c: Config, buckets: Buckets, call: Call, before: real, key: string)
    requires Harmless(c) && Sound(c, buckets, before) && before <= call.now
    ensures var (next, verdict) := Allowed(c, buckets, call);
            && Sound(c, next, call.now)
            && AnsweredByLevel(c, buckets, call, verdict)
            && Level(c, next, key, call.now) == Debited(c, buckets, call, verdict, key)
  {
    hide Level, Charge;
    var room := if call.key !in buckets && |buckets| >= MAX_RATE_BUCKETS then Evict(buckets, call.now) else buckets;
    EvictLevel(c, buckets, call.now, key);
    EvictLevel(c, buckets, call.now, call.key);
    ChargeLevel(c, room, call, key);
    ChargeSound(c, room, call, before);
  }

  lemma {:induction false} EvictingSound(c: Config, calls: seq<Call>)
    requires Harmless(c) && NonDecreasing(calls)
    ensures |Evicting(c, calls).1| == |calls|
    ensures |Evicting(c, calls).0| <= MAX_RATE_BUCKETS
    ensures calls != [] ==> Sound(c, Evicting(c, calls).0, calls[|calls| - 1].now)
  {
    if calls != [] {
      var n := |calls| - 1;
      EvictingSound(c, calls[..n]);
      var buckets := Evicting(c, calls[..n]).0;
      AllowedLevel(c, buckets, calls[n], if n == 0 then calls[n].now else calls[n - 1].now, "");
      AllowedFits(c, buckets, calls[n]);
    }
  }

  lemma AllowedFits(c: Config, buckets: Buckets, call: Call)
    requires c.rate != 0.0 && |buckets| <= MAX_RATE_BUCKETS
    ensures |Allowed(c, buckets, call).0| <= MAX_RATE_BUCKETS
  {
    EvictShrinks(buckets, call.now);
    var room := if call.key !in buckets && |buckets| >= MAX_RATE_BUCKETS then Evict(buckets, call.now) else buckets;
    var next := Charge(c, room, call).0;
    assert next.Keys == room.Keys + {call.key};
  }

  lemma EvictShrinks(buckets: Buckets, now: real)
    ensures |Evict(buckets, now)| <= |buckets|
  {
    var kept := Evict(buckets, now).Keys;
    assert |buckets.Keys - kept| == |buckets.Keys| - |kept|;
  }

  /** The time of the call before the i-th, or of the first. */
  function Before(calls: seq<Call>, i: nat): real
    requires i < |calls|
  {
    if i == 0 then calls[0].now else calls[i - 1].now
  }

  /** What the i-th call of a run does to the table and to every key's level. */
  lemma StepOfRun(c: Config, calls: seq<Call>, i: nat)
    requires Harmless(c) && NonDecreasing(calls) && i < |calls|
    ensures var start, next := Evicting(c, calls[..i]), Evicting(c, calls[..i + 1]);
            var (buckets, verdict) := Allowed(c, start.0, calls[i]);
            && |start.1| == i && |next.1| == i + 1
            && next.0 == buckets && next.1 == start.1 + [verdict]
            && Sound(c, start.0, Before(calls, i)) && Sound(c, next.0, calls[i].now)
            && AnsweredByLevel(c, start.0, calls[i], verdict)
            && forall key :: Level(c, next.0, key, calls[i].now) == Debited(c, start.0, calls[i], verdict, key)
  {
    hide Charge, Gain, Wait, Evict, Level;
    EvictingSound(c, calls[..i]);
    assert calls[..i + 1][..i] == calls[..i];
    var start := Evicting(c, calls[..i]).0;
    AllowedLevel(c, start, calls[i], Before(calls, i), calls[i].key);
    forall key ensures Level(c, Allowed(c, start, calls[i]).0, key, calls[i].now) ==
                       Debited(c, start, calls[i], Allowed(c, start, calls[i]).1, key) {
      AllowedLevel(c, start, calls[i], Before(calls, i), key);
    }
  }

  /** A call that is not turned away for lack of room is answered by its key's level. */
  predicate AnsweredByLevel(c: Config, buckets: Buckets, call: Call, verdict: Verdict)
    requires c.rate != 0.0
  {
    verdict.Capacity? ||
    verdict == var level := Level(c, buckets, call.key, call.now);
               if level >= 1.0 then Admit else Refuse(Wait(c, level))
  }

  /** A key's level after a call: one token less if it was the caller and was admitted. */
  function Debited(c: Config, buckets: Buckets, call: Call, verdict: Verdict, key: string): real {
    Level(c, buckets, key, call.now) - if key == call.key && verdict.Admit? then 1.0 else 0.0
  }

  // ---------------------------------------------------------------- main results

  ghost predicate SameLevels(c: Config, a: Buckets, b: Buckets, t: real) {
    forall k :: Level(c, a, k, t) == Level(c, b, k, t)
  }

  lemma SameLevelsLater(c: Config, a: Buckets, b: Buckets, t: real, u: real)
    requires Sane(c) && t <= u && SameLevels(c, a, b, t)
    ensures SameLevels(c, a, b, u)
  {
    forall k ensures Level(c, a, k, u) == Level(c, b, k, u) {
      LevelLater(c, a, k, t, u);
      LevelLater(c, b, k, t, u);
    }
  }

  /** Eviction is unobservable: leaving out the calls turned away for lack of room, every caller gets
      the answers and waits of a registry that never forgets; and the table never outgrows its limit. */
  lemma EvictionIsUnobservable(c: Config, calls: seq<Call>)
    requires Harmless(c) && NonDecreasing(calls)
    ensures |Evicting(c, calls).0| <= MAX_RATE_BUCKETS
    ensures |Evicting(c, calls).1| == |calls|
    ensures Remembering(c, Heard(calls, Evicting(c, calls).1)).1 == Answers(Evicting(c, calls).1)
  {
    EvictingSound(c, calls);
    assert calls[..|calls|] == calls;
    hide Remembering, Evicting;
    RunsAgree(c, calls, |calls|);
  }

  lemma HeardStep(calls: seq<Call>, verdicts: seq<Verdict>, call: Call, verdict: Verdict)
    requires |calls| == |verdicts|
    ensures Heard(calls + [call], verdicts + [verdict]) ==
            if verdict.Capacity? then Heard(calls, verdicts) else Heard(calls, verdicts) + [call]
    ensures Answers(verdicts + [verdict]) ==
            if verdict.Capacity? then Answers(verdicts) else Answers(verdicts) + [verdict]
  {
    assert (calls + [call])[..|calls|] == calls && (verdicts + [verdict])[..|calls|] == verdicts;
  }

  lemma RememberingStep(c: Config, calls: seq<Call>, call: Call)
    requires Sane(c)
    ensures var (buckets, verdicts) := Remembering(c, calls);
            Remembering(c, calls + [call]) ==
            (Charge(c, buckets, call).0, verdicts + [Charge(c, buckets, call).1])
  {
    hide Charge;
    assert (calls + [call])[..|calls|] == calls;
  }

  lemma EmptyRun(c: Config)
    requires Sane(c)
    ensures Evicting(c, []) == (map[], []) && Remembering(c, []) == (map[], [])
    ensures Heard([], []) == [] && Answers([]) == []
    ensures forall now :: SameLevels(c, map[], map[], now)
  {
  }

  lemma {:induction false} RunsAgree(c: Config, calls: seq<Call>, i: nat)
    requires Harmless(c) && NonDecreasing(calls) && i <= |calls|
    ensures var run := Evicting(c, calls[..i]);
            && |run.1| == i
            && var reference := Remembering(c, Heard(calls[..i], run.1));
            && reference.1 == Answers(run.1)
            && (i > 0 ==> SameLevels(c, run.0, reference.0, calls[i - 1].now))
            && (i == 0 ==> run.0 == reference.0)
  {
    if i > 0 {
      hide Allowed, Level, Charge, Gain, Wait, Evicting, Remembering;
      hide Heard, Answers, SameLevels, Sound, AnsweredByLevel, Debited;
      var call := calls[i - 1];
      RunsAgree(c, calls, i - 1);
      StepOfRun(c, calls, i - 1);
      var start, next := Evicting(c, calls[..i - 1]), Evicting(c, calls[..i]);
      if i > 1 {
        SameLevelsLater(c, start.0, Remembering(c, Heard(calls[..i - 1], start.1)).0, calls[i - 2].now, call.now);
      } else {
        EmptyRun(c);
      }
      assert calls[..i] == calls[..i - 1] + [call];
      StepAgrees(c, calls[..i - 1], call, start, next, next.1[i - 1]);
    } else {
      EmptyRun(c);
    }
  }

  lemma StepAgrees(c: Config, calls: seq<Call>, call: Call, start: (Buckets, seq<Verdict>), next: (Buckets,
                   seq<Verdict>), verdict: Verdict)
    requires Sane(c) && |start.1| == |calls| && next.1 == start.1 + [verdict]
    requires AnsweredByLevel(c, start.0, call, verdict)
    requires forall key :: Level(c, next.0, key, call.now) == Debited(c, start.0, call, verdict, key)
    requires var reference := Remembering(c, Heard(calls, start.1));
             reference.1 == Answers(start.1) && SameLevels(c, start.0, reference.0, call.now)
    ensures var reference := Remembering(c, Heard(calls + [call], next.1));
            reference.1 == Answers(next.1) && SameLevels(c, next.0, reference.0, call.now)
  {
    hide Level, Charge, Gain, Wait, Remembering, Heard, Answers, SameLevels, AnsweredByLevel, Debited;
    var heard := Heard(calls, start.1);
    HeardStep(calls, start.1, call, verdict);
    RememberingStep(c, heard, call);
    StepKeepsLevels(c, start.0, next.0, Remembering(c, heard).0, call, verdict);
  }

  lemma StepKeepsLevels(c: Config, buckets: Buckets, next: Buckets, reference: Buckets, call: Call, verdict: Verdict)
    requires Sane(c) && SameLevels(c, buckets, reference, call.now) && AnsweredByLevel(c, buckets, call, verdict)
    requires forall key :: Level(c, next, key, call.now) == Debited(c, buckets, call, verdict, key)
    ensures verdict.Capacity? || verdict == Charge(c, reference, call).1
    ensures SameLevels(c, next, if verdict.Capacity? then reference else Charge(c, reference, call).0, call.now)
  {
    hide Level, Charge, Gain, Wait;
    ChargeLevel(c, reference, call, call.key);
    forall k ensures Level(c, next, k, call.now) ==
                     Level(c, if verdict.Capacity? then reference else Charge(c, reference, call).0, k, call.now) {
      ChargeLevel(c, reference, call, k);
    }
  }

  /** How often a key was admitted. */
  function Admissions(calls: seq<Call>, verdicts: seq<Verdict>, key: string): nat
    requires |calls| == |verdicts|
  {
    if calls == [] then 0
    else Admissions(calls[..|calls| - 1], verdicts[..|calls| - 1], key)
         + if calls[|calls| - 1].key == key && verdicts[|calls| - 1].Admit? then 1 else 0
  }

  lemma {:induction false} AdmissionsAre(calls: seq<Call>, verdicts: seq<Verdict>, key: string)
    requires |calls| == |verdicts|
    ensures Admissions(calls, verdicts, key) ==
            |set i | 0 <= i < |calls| && calls[i].key == key && verdicts[i] == Admit|
  {
    if calls != [] {
      var n := |calls| - 1;
      AdmissionsAre(calls[..n], verdicts[..n], key);
      hide Admissions;
      var earlier := set i | 0 <= i < n && calls[..n][i].key == key && verdicts[..n][i] == Admit;
      var all := set i | 0 <= i < |calls| && calls[i].key == key && verdicts[i] == Admit;
      LastOne(earlier, all, n, calls[n].key == key && verdicts[n] == Admit);
    }
  }

  lemma {:induction false} EvictingPrefix(c: Config, calls: seq<Call>, i: nat)
    requires Harmless(c) && NonDecreasing(calls) && i <= |calls|
    ensures |Evicting(c, calls).1| == |calls| && |Evicting(c, calls[..i]).1| == i
    ensures Evicting(c, calls).1[..i] == Evicting(c, calls[..i]).1
  {
    hide Allowed, Sound, Gain;
    EvictingSound(c, calls);
    EvictingSound(c, calls[..i]);
    if i < |calls| {
      EvictingPrefix(c, calls[..|calls| - 1], i);
      assert calls[..|calls| - 1][..i] == calls[..i];
    } else {
      assert calls[..i] == calls;
    }
  }

  /** Tokens are conserved: what a key was admitted since its i-th call, and what it has left, is no
      more than what it had then and what has flowed in since. */
  lemma {:induction false} TokensAreConserved(c: Config, calls: seq<Call>, i: nat, j: nat, key: string)
    requires Harmless(c) && NonDecreasing(calls) && i < j <= |calls|
    ensures |Evicting(c, calls[..j]).1| == j
    ensures Admissions(calls[i..j], Evicting(c, calls[..j]).1[i..], key) as real
            + Level(c, Evicting(c, calls[..j]).0, key, calls[j - 1].now)
            <= c.burst + Gain(c, calls[j - 1].now - calls[i].now)
    decreases j
  {
    hide Allowed, Level, Charge, Gain, Wait, Evicting;
    var n := j - 1;
    var call := calls[n];
    StepOfRun(c, calls, n);
    var buckets, verdicts := Evicting(c, calls[..n]).0, Evicting(c, calls[..j]).1;
    var window, answers := calls[i..j], verdicts[i..];
    var earlier := Evicting(c, calls[..n]).1;
    assert verdicts == earlier + [verdicts[n]] && |earlier| == n;
    assert window == calls[i..n] + [call] && window[..n - i] == calls[i..n];
    assert answers == earlier[i..] + [verdicts[n]] && answers[..n - i] == earlier[i..];
    LevelNotNegative(c, buckets, key, Before(calls, n));
    LevelLater(c, buckets, key, Before(calls, n), call.now);
    GainZero(c);
    if i < n {
      TokensAreConserved(c, calls, i, n, key);
      GainAdds(c, calls[n - 1].now - calls[i].now, call.now - calls[n - 1].now);
      assert call.now - calls[i].now == (calls[n - 1].now - calls[i].now) + (call.now - calls[n - 1].now);
    }
  }

  /** Rate bound: in any window of a run a key is admitted at most burst + rate * (length of the window) times. */
  lemma AdmissionsAreBounded(c: Config, calls: seq<Call>, i: nat, j: nat, key: string)
    requires Harmless(c) && NonDecreasing(calls) && i < j <= |calls|
    ensures |Evicting(c, calls).1| == |calls|
    ensures Admissions(calls[i..j], Evicting(c, calls).1[i..j], key) as real
            <= c.burst + Gain(c, calls[j - 1].now - calls[i].now)
  {
    hide Level, Gain, Evicting, Admissions;
    EvictingSound(c, calls);
    EvictingPrefix(c, calls, j);
    assert Evicting(c, calls).1[..j][i..] == Evicting(c, calls).1[i..j];
    TokensAreConserved(c, calls, i, j, key);
    EvictingSound(c, calls[..j]);
    LevelNotNegative(c, Evicting(c, calls[..j]).0, key, calls[j - 1].now);
  }

  lemma LevelNotNegative(c: Config, buckets: Buckets, key: string, now: real)
    requires Sane(c) && Sound(c, buckets, now)
    ensures 0.0 <= Level(c, buckets, key, now) <= c.burst
  {
    hide Gain;
    GainZero(c);
    if key in buckets {
      GainMonotone(c, 0.0, now - buckets[key].at);
    }
  }

  /** A caller refused until its bucket has a token, who calls again while others call what they like, is
      admitted once the wait is over and no sooner, if the burst allows a whole token at all. */
  lemma RetryAfterWaitIsAdmitted(c: Config, calls: seq<Call>, i: nat, j: nat)
    requires Harmless(c) && NonDecreasing(calls) && i < j < |calls|
    requires |Evicting(c, calls[..i + 1]).1| == i + 1 && Evicting(c, calls[..i + 1]).1[i].Refuse?
    requires calls[j].key == calls[i].key && calls[j].now <= calls[i].now + Evicting(c, calls[..i + 1]).1[i].wait
    requires forall k :: i < k < j ==> calls[k].key != calls[i].key
    ensures |Evicting(c, calls[..j + 1]).1| == j + 1
    ensures Evicting(c, calls[..j + 1]).1[j] == Admit <==>
              calls[j].now == calls[i].now + Evicting(c, calls[..i + 1]).1[i].wait && c.burst >= 1.0
  {
    hide Allowed, Level, Charge, Gain, Wait, Evicting, Evict;
    var key, t, u := calls[i].key, calls[i].now, calls[j].now;
    StepOfRun(c, calls, i);
    StepOfRun(c, calls, j);
    var start, then', last := Evicting(c, calls[..i]).0, Evicting(c, calls[..i + 1]).0, Evicting(c, calls[..j]).0;
    TokenAfterWait(c, Level(c, start, key, t), u - t);
    UntouchedLevel(c, calls, i + 1, j, key);
    LevelLater(c, last, key, calls[j - 1].now, u);
    LevelLater(c, then', key, t, calls[j - 1].now);
    LevelLater(c, then', key, t, u);
    SameLater(c, then', last, key, calls[j - 1].now, u);
    if c.burst >= 1.0 {
      RefusedKeyStays(c, calls, i, j);
      KnownKeyIsHeard(c, last, calls[j]);
    }
  }

  /** A level below one token reaches it exactly when the wait is over. */
  lemma TokenAfterWait(c: Config, level: real, elapsed: real)
    requires Sane(c) && elapsed <= Wait(c, level)
    ensures level + Gain(c, elapsed) >= 1.0 <==> elapsed == Wait(c, level)
  {
    hide Gain, Wait;
    GainOfWait(c, level);
    GainAdds(c, elapsed, Wait(c, level) - elapsed);
    assert elapsed + (Wait(c, level) - elapsed) == Wait(c, level);
    if elapsed < Wait(c, level) {
      GainPositive(c, Wait(c, level) - elapsed);
    }
  }

  lemma SameLater(c: Config, a: Buckets, b: Buckets, key: string, t: real, u: real)
    requires Sane(c) && t <= u && Level(c, a, key, t) == Level(c, b, key, t)
    ensures Level(c, a, key, u) == Level(c, b, key, u)
  {
    hide Level;
    LevelLater(c, a, key, t, u);
    LevelLater(c, b, key, t, u);
  }

  lemma KnownKeyIsHeard(c: Config, buckets: Buckets, call: Call)
    requires Sane(c) && call.key in buckets
    ensures !Allowed(c, buckets, call).1.Capacity?
  {
  }

  /** Another caller's call leaves a bucket that is not idle alone; a refused caller's bucket is stamped. */
  lemma OthersKeepBucket(c: Config, buckets: Buckets, call: Call, key: string)
    requires Sane(c)
    ensures key in buckets && key != call.key && buckets[key].at >= call.now - IDLE_TTL ==>
              var next := Allowed(c, buckets, call).0;
              key in next && next[key] == buckets[key]
    ensures var (next, verdict) := Allowed(c, buckets, call);
            verdict.Refuse? ==> call.key in next && next[call.key].at == call.now
  {
    hide Gain, Wait;
  }

  /** Calls on other keys move a key's level only with time. */
  lemma {:induction false} UntouchedLevel(c: Config, calls: seq<Call>, i: nat, j: nat, key: string)
    requires Harmless(c) && NonDecreasing(calls) && 0 < i <= j <= |calls|
    requires forall k :: i <= k < j ==> calls[k].key != key
    ensures Level(c, Evicting(c, calls[..j]).0, key, calls[j - 1].now) ==
            Level(c, Evicting(c, calls[..i]).0, key, calls[j - 1].now)
    decreases j
  {
    if i < j {
      hide Allowed, Level, Charge, Gain, Wait, Evicting, Evict;
      UntouchedLevel(c, calls, i, j - 1, key);
      StepOfRun(c, calls, j - 1);
      SameLater(c, Evicting(c, calls[..i]).0, Evicting(c, calls[..j - 1]).0, key, calls[j - 2].now, calls[j - 1].now);
    }
  }

  /** A refused caller's bucket is not evicted before its wait is over, so the retry finds room. */
  lemma {:induction false} RefusedKeyStays(c: Config, calls: seq<Call>, i: nat, j: nat)
    requires Harmless(c) && NonDecreasing(calls) && i < j < |calls|
    requires |Evicting(c, calls[..i + 1]).1| == i + 1 && Evicting(c, calls[..i + 1]).1[i].Refuse?
    requires calls[j].now <= calls[i].now + Evicting(c, calls[..i + 1]).1[i].wait
    requires forall k :: i < k < j ==> calls[k].key != calls[i].key
    ensures c.burst >= 1.0 ==>
              calls[i].key in Evicting(c, calls[..j]).0 && Evicting(c, calls[..j]).0[calls[i].key].at == calls[i].now
    decreases j
  {
    hide Allowed, Level, Charge, Gain, Wait, Evicting, Evict;
    StepOfRun(c, calls, i);
    OthersKeepBucket(c, Evicting(c, calls[..i]).0, calls[i], calls[i].key);
    if c.burst >= 1.0 && i + 1 < j {
      WaitWithinTtl(c, calls, i);
      RefusedKeyStays(c, calls, i, j - 1);
      StepOfRun(c, calls, j - 1);
      OthersKeepBucket(c, Evicting(c, calls[..j - 1]).0, calls[j - 1], calls[i].key);
    }
  }

  lemma WaitWithinTtl(c: Config, calls: seq<Call>, i: nat)
    requires Harmless(c) && NonDecreasing(calls) && i < |calls| && c.burst >= 1.0
    requires |Evicting(c, calls[..i + 1]).1| == i + 1 && Evicting(c, calls[..i + 1]).1[i].Refuse?
    ensures Evicting(c, calls[..i + 1]).1[i].wait <= IDLE_TTL
  {
    StepOfRun(c, calls, i);
    hide Allowed, Level, Charge, Gain, Wait, Evicting, Evict;
    var start, t := Evicting(c, calls[..i]).0, calls[i].now;
    var before := if i == 0 then t else calls[i - 1].now;
    AllowedLevel(c, start, calls[i], before, calls[i].key);
    LevelNotNegative(c, start, calls[i].key, before);
    LevelLater(c, start, calls[i].key, before, t);
    GainZero(c);
    GainMonotone(c, 0.0, t - before);
    FullInTtl(c);
    WaitWithin(c, Level(c, start, calls[i].key, t), IDLE_TTL);
  }

  lemma FullInTtl(c: Config)
    requires Harmless(c)
    ensures Gain(c, IDLE_TTL) >= c.burst
  {
  }

  /** With a burst below one token nobody is ever admitted, in any order of calls; otherwise the first
      caller is. */
  lemma AnyoneAdmittedIff(c: Config)
    requires Sane(c)
    ensures (exists calls :: Admit in Evicting(c, calls).1) <==> c.burst >= 1.0
  {
    if c.burst >= 1.0 {
      FirstIsAdmitted(c);
    } else {
      forall calls ensures Admit !in Evicting(c, calls).1 {
        NobodyIsAdmitted(c, calls);
      }
    }
  }

  lemma FirstIsAdmitted(c: Config)
    requires Sane(c) && c.burst >= 1.0
    ensures Evicting(c, [Call("", 0.0)]).1 == [Admit]
  {
    hide Gain, Wait;
    GainZero(c);
    assert [Call("", 0.0)][..0] == [];
  }

  lemma {:induction false} NobodyIsAdmitted(c: Config, calls: seq<Call>)
    requires c.rate != 0.0 && c.burst < 1.0
    ensures Admit !in Evicting(c, calls).1
  {
    if calls != [] {
      hide Gain, Wait, Evict;
      NobodyIsAdmitted(c, calls[..|calls| - 1]);
    }
  }

  // ---------------------------------------------------------------- when there is no room

  /** The keys heard at or after a time, by calls that were not turned away for lack of room. */
  function HeardSince(calls: seq<Call>, verdicts: seq<Verdict>, since: real): set<string>
    requires |calls| == |verdicts|
  {
    set i | 0 <= i < |calls| && !verdicts[i].Capacity? && calls[i].now >= since :: calls[i].key
  }

  /** Every bucket was stamped by the last call heard on its key, and every key heard within ten minutes has one. */
  ghost predicate Stamped(calls: seq<Call>, verdicts: seq<Verdict>, buckets: Buckets)
    requires |calls| == |verdicts|
  {
    && (forall k :: k in buckets ==> StampedBy(calls, verdicts, k, buckets[k].at))
    && (forall i :: 0 <= i < |calls| && !verdicts[i].Capacity? ==>
          calls[i].now >= calls[|calls| - 1].now - 600.0 ==>
            calls[i].key in buckets && buckets[calls[i].key].at >= calls[i].now)
  }

  ghost predicate StampedBy(calls: seq<Call>, verdicts: seq<Verdict>, key: string, at: real)
    requires |calls| == |verdicts|
  {
    exists i :: 0 <= i < |calls| && !verdicts[i].Capacity? && calls[i].key == key && calls[i].now == at
  }

  lemma StampedMeans(calls: seq<Call>, verdicts: seq<Verdict>, buckets: Buckets, now: real)
    requires |calls| == |verdicts| && Stamped(calls, verdicts, buckets)
    requires calls != [] ==> calls[|calls| - 1].now <= now
    ensures Evict(buckets, now).Keys == HeardSince(calls, verdicts, now - 600.0)
  {
    forall k ensures k in Evict(buckets, now) <==> k in HeardSince(calls, verdicts, now - 600.0) {
      if k in Evict(buckets, now) {
        assert StampedBy(calls, verdicts, k, buckets[k].at);
      }
    }
  }

  lemma StampedStep(calls: seq<Call>, verdicts: seq<Verdict>, buckets: Buckets, c: Config, call: Call)
    requires |calls| == |verdicts| && Stamped(calls, verdicts, buckets) && c.rate != 0.0
    requires forall i :: 0 <= i < |calls| ==> calls[i].now <= call.now
    ensures var (next, verdict) := Allowed(c, buckets, call);
            Stamped(calls + [call], verdicts + [verdict], next)
  {
    var (next, verdict) := Allowed(c, buckets, call);
    BucketsAfter(c, buckets, call);
    hide Allowed, Charge;
    var all, answers := calls + [call], verdicts + [verdict];
    var n := |calls|;
    assert all[n] == call && answers[n] == verdict;
    forall k | k in next ensures StampedBy(all, answers, k, next[k].at) {
      if k in buckets && next[k] == buckets[k] {
        var i :| 0 <= i < n && !verdicts[i].Capacity? && calls[i].key == k && calls[i].now == buckets[k].at;
        assert all[i] == calls[i] && answers[i] == verdicts[i];
      }
    }
    forall i | 0 <= i <= n && !answers[i].Capacity? && all[i].now >= call.now - 600.0
      ensures all[i].key in next && next[all[i].key].at >= all[i].now
    {
      if i < n {
        assert all[i] == calls[i] && answers[i] == verdicts[i];
      }
    }
  }

  /** What one call does to the table: it sweeps, if it has to, and stamps the caller's bucket, if it is heard. */
  lemma BucketsAfter(c: Config, buckets: Buckets, call: Call)
    requires c.rate != 0.0
    ensures var (next, verdict) := Allowed(c, buckets, call);
            && (verdict.Capacity? <==>
                  call.key !in buckets && |buckets| >= 10_000 && |Evict(buckets, call.now)| >= 10_000)
            && (!verdict.Capacity? ==> call.key in next && next[call.key].at == call.now)
            && (forall k :: k in next && (k != call.key || verdict.Capacity?) ==> k in buckets && next[k] == buckets[k])
            && (forall k :: k in buckets && k != call.key && buckets[k].at >= call.now - 600.0 ==>
                  k in next && next[k] == buckets[k])
  {
    hide Gain, Wait;
    EvictShrinks(buckets, call.now);
  }

  lemma {:induction false} RunIsStamped(c: Config, calls: seq<Call>)
    requires c.rate != 0.0 && NonDecreasing(calls)
    ensures |Evicting(c, calls).1| == |calls|
    ensures Stamped(calls, Evicting(c, calls).1, Evicting(c, calls).0)
  {
    if calls != [] {
      hide Allowed, Stamped;
      var n := |calls| - 1;
      RunIsStamped(c, calls[..n]);
      assert calls == calls[..n] + [calls[n]];
      StampedStep(calls[..n], Evicting(c, calls[..n]).1, Evicting(c, calls[..n]).0, c, calls[n]);
    }
  }

  /** In every run whose clock does not go back, a call is turned away for lack of room if and only if its key
      has no bucket and ten thousand other keys were heard within the last six hundred seconds. */
  lemma NoRoomIff(c: Config, calls: seq<Call>, i: nat)
    requires c.rate != 0.0 && NonDecreasing(calls) && i < |calls|
    ensures |Evicting(c, calls[..i]).1| == i && |Evicting(c, calls[..i + 1]).1| == i + 1
    ensures Evicting(c, calls[..i + 1]).1[i].Capacity? <==>
              && calls[i].key !in Evicting(c, calls[..i]).0
              && |HeardSince(calls[..i], Evicting(c, calls[..i]).1, calls[i].now - 600.0) - {calls[i].key}| >= 10_000
  {
    hide Allowed, Stamped, HeardSince, Evicting;
    LastStep(c, calls, i);
    RunIsStamped(c, calls[..i]);
    var (buckets, verdicts) := Evicting(c, calls[..i]);
    hide NonDecreasing;
    NoRoomNow(c, calls[..i], verdicts, buckets, calls[i]);
  }

  lemma NoRoomNow(c: Config, past: seq<Call>, verdicts: seq<Verdict>, buckets: Buckets, call: Call)
    requires c.rate != 0.0 && |past| == |verdicts| && Stamped(past, verdicts, buckets)
    requires past != [] ==> past[|past| - 1].now <= call.now
    ensures Allowed(c, buckets, call).1.Capacity? <==>
              && call.key !in buckets && |HeardSince(past, verdicts, call.now - 600.0) - {call.key}| >= 10_000
  {
    hide Allowed, Stamped, HeardSince, Evict;
    var heard := HeardSince(past, verdicts, call.now - 600.0);
    StampedMeans(past, verdicts, buckets, call.now);
    BucketsAfter(c, buckets, call);
    EvictShrinks(buckets, call.now);
    EvictKeepsOut(buckets, call.key, call.now);
    SizeOfKeys(Evict(buckets, call.now));
    if call.key !in buckets {
      assert call.key !in heard;
      assert heard - {call.key} == heard;
    }
  }

  lemma SizeOfKeys(buckets: Buckets)
    ensures |buckets| == |buckets.Keys|
  {
  }

  lemma LastStep(c: Config, calls: seq<Call>, i: nat)
    requires c.rate != 0.0 && i < |calls|
    ensures var (buckets, verdicts) := Evicting(c, calls[..i]);
            var (next, verdict) := Allowed(c, buckets, calls[i]);
            Evicting(c, calls[..i + 1]) == (next, verdicts + [verdict])
  {
    hide Allowed;
    assert calls[..i + 1][..i] == calls[..i];
  }

  // ---------------------------------------------------------------- what a burst is good for

  function Repeated(key: string, now: real, n: nat): (calls: seq<Call>)
    ensures |calls| == n && forall i :: 0 <= i < n ==> calls[i] == Call(key, now)
  {
    seq(n, i => Call(key, now))
  }

  /** A key that was never heard may call as often as its burst has whole tokens, all at once, and no oftener. */
  lemma BurstIsAvailable(c: Config, key: string, now: real, n: nat)
    requires Sane(c)
    ensures var answers := Evicting(c, Repeated(key, now, n)).1;
            |answers| == n && forall i :: 0 <= i < n ==> (answers[i].Admit? <==> (i + 1) as real <= c.burst)
  {
    var m := AtOnce(c, key, now, n);
  }

  lemma {:induction false} AtOnce(c: Config, key: string, now: real, n: nat) returns (m: nat)
    requires Sane(c)
    ensures m <= n && m as real <= c.burst && (m == n || c.burst - m as real < 1.0)
    ensures var (buckets, answers) := Evicting(c, Repeated(key, now, n));
            && |answers| == n
            && buckets == (if n == 0 then map[] else map[key := Bucket(c.burst - m as real, now)])
            && forall i :: 0 <= i < n ==> (answers[i].Admit? <==> (i + 1) as real <= c.burst)
  {
    hide Allowed, Evicting, Repeated;
    m := 0;
    if n == 0 {
      NothingYet(c, key, now);
    } else {
      m := AtOnce(c, key, now, n - 1);
      OneMoreCall(c, key, now, n - 1);
      OnceMore(c, key, now, Evicting(c, Repeated(key, now, n - 1)).0, m, n - 1);
      if c.burst - m as real >= 1.0 {
        m := m + 1;
      }
    }
  }

  lemma NothingYet(c: Config, key: string, now: real)
    requires c.rate != 0.0
    ensures Evicting(c, Repeated(key, now, 0)) == (map[], [])
  {
  }

  lemma OneMoreCall(c: Config, key: string, now: real, n: nat)
    requires c.rate != 0.0
    ensures var (buckets, verdicts) := Evicting(c, Repeated(key, now, n));
            var (next, verdict) := Allowed(c, buckets, Call(key, now));
            Evicting(c, Repeated(key, now, n + 1)) == (next, verdicts + [verdict])
  {
    hide Allowed, Evicting;
    var calls := Repeated(key, now, n + 1);
    assert calls[..n] == Repeated(key, now, n) && calls[..n + 1] == calls;
    LastStep(c, calls, n);
  }

  lemma OnceMore(c: Config, key: string, now: real, buckets: Buckets, m: nat, n: nat)
    requires Sane(c) && m as real <= c.burst
    requires buckets == if n == 0 then map[] else map[key := Bucket(c.burst - m as real, now)]
    requires n == 0 ==> m == 0
    ensures var (next, verdict) := Allowed(c, buckets, Call(key, now));
            if c.burst - m as real >= 1.0
            then verdict == Admit && next == map[key := Bucket(c.burst - (m + 1) as real, now)]
            else verdict.Refuse? && next == map[key := Bucket(c.burst - m as real, now)]
  {
    hide Gain, Wait, Evict;
    GainZero(c);
  }
}
