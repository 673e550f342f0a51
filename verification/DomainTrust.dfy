/**
 Per-domain trust (src/security/domain_trust.rs) over the reals, with whole
 seconds for time. `decay` is the factor 0.5^(elapsed / half-life); only its
 laws matter here.
 */
module DomainTrusts {

  datatype Autonomy = ReadOnly | Supervised | Full

  datatype DomainTrust = DomainTrust(
    score: real,
    autonomy: Autonomy,
    lastUpdated: int,
    successes: nat,
    violations: nat)

  datatype Config = Config(
    decay: nat -> real,
    successBoost: real,
    violationPenalty: real,
    demotionThreshold: real,
    promotionThreshold: real,
    minInteractions: nat)

  function Scaled(gap: real, f: real): real {
    gap * f
  }

  predicate Exponential(f: nat -> real, s: nat, t: nat) {
    f(s + t) == Scaled(f(s), f(t))
  }

  /** An exponential decay factor, and steps that do not point the wrong way. */
  ghost predicate ValidConfig(c: Config) {
    && c.decay(0) == 1.0
    && (forall s: nat, t: nat :: Exponential(c.decay, s, t))
    && (forall s :: 0.0 <= c.decay(s) <= 1.0)
    && c.successBoost >= 0.0 && c.violationPenalty >= 0.0
  }

  const NEUTRAL := 0.5

  function NewTrust(now: int): DomainTrust {
    DomainTrust(NEUTRAL, Supervised, now, 0, 0)
  }

  /** The gap to neutral shrinks by the factor `f`. */
  function Toward(score: real, f: real): real {
    NEUTRAL + Scaled(score - NEUTRAL, f)
  }

  function Times(x: real, n: nat): real {
    x * n as real
  }

  function ApplyDecay(c: Config, d: DomainTrust, now: int): DomainTrust {
    if now <= d.lastUpdated then d
    else d.(score := Toward(d.score, c.decay(now - d.lastUpdated)), lastUpdated := now)
  }

  function MaybePromote(c: Config, d: DomainTrust): DomainTrust {
    if d.score >= c.promotionThreshold && d.successes >= c.minInteractions then
      d.(autonomy := if d.autonomy.ReadOnly? then Supervised else Full)
    else d
  }

  function MaybeDemote(c: Config, d: DomainTrust): DomainTrust {
    if d.score < c.demotionThreshold then
      d.(autonomy := if d.autonomy.Full? then Supervised else ReadOnly)
    else d
  }

  function Min(a: real, b: real): real { if a <= b then a else b }

  function Max(a: real, b: real): real { if a >= b then a else b }

  /** `record_success` on an entry that exists. */
  function Succeed(c: Config, d: DomainTrust, now: int): DomainTrust {
    var e := ApplyDecay(c, d, now);
    MaybePromote(c, e.(score := Min(e.score + c.successBoost, 1.0), successes := e.successes + 1, lastUpdated := now))
  }

  /** `record_violation` on an entry that exists. */
  function Violate(c: Config, d: DomainTrust, now: int): DomainTrust {
    var e := ApplyDecay(c, d, now);
    MaybeDemote(c, e.(score := Max(e.score - c.violationPenalty, 0.0), violations := e.violations + 1,
                      lastUpdated := now))
  }

  // ----- the tracker -----

  type Domains = map<string, DomainTrust>

  function EntryAt(m: Domains, domain: string, now: int): DomainTrust {
    if domain in m then m[domain] else NewTrust(now)
  }

  datatype Call =
    | GetTrust(domain: string)
    | AllDomains
    | RecordSuccess(domain: string)
    | RecordViolation(domain: string)

  datatype Event = Event(call: Call, now: int)

  function Next(c: Config, m: Domains, e: Event): Domains {
    match e.call
    case GetTrust(d) => m[d := ApplyDecay(c, EntryAt(m, d, e.now), e.now)]
    case AllDomains => map d | d in m :: ApplyDecay(c, m[d], e.now)
    case RecordSuccess(d) => m[d := Succeed(c, EntryAt(m, d, e.now), e.now)]
    case RecordViolation(d) => m[d := Violate(c, EntryAt(m, d, e.now), e.now)]
  }

  function Run(c: Config, m: Domains, es: seq<Event>): Domains
    decreases |es|
  {
    if es == [] then m else Run(c, Next(c, m, es[0]), es[1..])
  }

  class DomainTrustTracker {
    const config: Config
    var domains: Domains

    constructor (config: Config)
      ensures this.config == config && domains == map[]
    {
      this.config := config;
      domains := map[];
    }

    method GetTrust(domain: string, now: int) returns (d: DomainTrust)
      modifies this
      ensures domains == Next(config, old(domains), Event(Call.GetTrust(domain), now))
      ensures domain in domains && d == domains[domain]
    {
      d := ApplyDecay(config, EntryAt(domains, domain, now), now);
      domains := domains[domain := d];
    }

    method RecordSuccess(domain: string, now: int)
      modifies this
      ensures domains == Next(config, old(domains), Event(Call.RecordSuccess(domain), now))
    {
      var entry := ApplyDecay(config, EntryAt(domains, domain, now), now);
      entry := entry.(score := Min(entry.score + config.successBoost, 1.0));
      entry := entry.(successes := entry.successes + 1);
      entry := entry.(lastUpdated := now);
      entry := MaybePromote(config, entry);
      domains := domains[domain := entry];
    }

    method RecordViolation(domain: string, now: int)
      modifies this
      ensures domains == Next(config, old(domains), Event(Call.RecordViolation(domain), now))
    {
      var entry := ApplyDecay(config, EntryAt(domains, domain, now), now);
      entry := entry.(score := Max(entry.score - config.violationPenalty, 0.0));
      entry := entry.(violations := entry.violations + 1);
      entry := entry.(lastUpdated := now);
      entry := MaybeDemote(config, entry);
      domains := domains[domain := entry];
    }

    /** The order in which the entries are visited does not matter. */
    method AllDomains(now: int) returns (snapshot: Domains)
      modifies this
      ensures domains == Next(config, old(domains), Event(Call.AllDomains, now))
      ensures snapshot == domains
    {
      var left := domains.Keys;
      while left != {}
        invariant left <= domains.Keys == old(domains).Keys
        invariant forall d :: d in left ==> domains[d] == old(domains)[d]
        invariant forall d :: d in domains && d !in left ==> domains[d] == ApplyDecay(config, old(domains)[d], now)
        decreases |left|
      {
        var d :| d in left;
        domains := domains[d := ApplyDecay(config, domains[d], now)];
        left := left - {d};
      }
      snapshot := domains;
    }
  }

  // ----- what every run keeps -----

  /** A score is bounded by what has been recorded, and full autonomy has been earned. */
  predicate Earned(c: Config, d: DomainTrust) {
    && 0.0 <= d.score <= 1.0
    && d.score - NEUTRAL <= Times(c.successBoost, d.successes)
    && NEUTRAL - d.score <= Times(c.violationPenalty, d.violations)
    && (d.autonomy.Full? ==>
          d.successes >= c.minInteractions
          && Times(c.successBoost, d.successes) >= c.promotionThreshold - NEUTRAL)
  }

  lemma ScaleDown(gap: real, f: real)
    requires 0.0 <= f <= 1.0
    ensures gap >= 0.0 ==> 0.0 <= Scaled(gap, f) <= gap
    ensures gap <= 0.0 ==> gap <= Scaled(gap, f) <= 0.0
  {
    var g := 1.0 - f;
    assert gap * f + gap * g == gap;
    assert gap >= 0.0 ==> gap * g >= 0.0;
    assert gap <= 0.0 ==> gap * g <= 0.0;
  }

  lemma TowardNeutral(score: real, f: real)
    requires 0.0 <= f <= 1.0
    ensures score >= NEUTRAL ==> NEUTRAL <= Toward(score, f) <= score
    ensures score <= NEUTRAL ==> score <= Toward(score, f) <= NEUTRAL
  {
    hide Scaled;
    ScaleDown(score - NEUTRAL, f);
  }

  lemma TimesFacts(x: real, n: nat)
    requires x >= 0.0
    ensures 0.0 <= Times(x, n)
    ensures Times(x, n + 1) == Times(x, n) + x
  {
    assert (n + 1) as real == n as real + 1.0;
    assert x * (n as real + 1.0) == x * n as real + x;
  }

  lemma DecayKeepsEarned(c: Config, d: DomainTrust, now: int)
    requires ValidConfig(c) && Earned(c, d)
    ensures Earned(c, ApplyDecay(c, d, now))
  {
    hide Toward, Times;
    if now > d.lastUpdated {
      TowardNeutral(d.score, c.decay(now - d.lastUpdated));
      TimesFacts(c.successBoost, d.successes);
      TimesFacts(c.violationPenalty, d.violations);
    }
  }

  lemma StepKeepsEarned(c: Config, d: DomainTrust, now: int)
    requires ValidConfig(c) && Earned(c, d)
    ensures Earned(c, Succeed(c, d, now)) && Earned(c, Violate(c, d, now))
  {
    hide Times, ApplyDecay;
    DecayKeepsEarned(c, d, now);
    var e := ApplyDecay(c, d, now);
    TimesFacts(c.successBoost, e.successes);
    TimesFacts(c.violationPenalty, e.violations);
  }

  lemma NewIsEarned(c: Config, now: int)
    requires ValidConfig(c)
    ensures Earned(c, NewTrust(now))
  {
  }

  lemma NextKeepsEarned(c: Config, m: Domains, e: Event, domain: string)
    requires ValidConfig(c) && (domain in m ==> Earned(c, m[domain]))
    ensures domain in Next(c, m, e) ==> Earned(c, Next(c, m, e)[domain])
  {
    hide Earned, ValidConfig, ApplyDecay, Succeed, Violate;
    NewIsEarned(c, e.now);
    DecayKeepsEarned(c, EntryAt(m, domain, e.now), e.now);
    StepKeepsEarned(c, EntryAt(m, domain, e.now), e.now);
  }

  lemma {:induction false} RunKeepsEarned(c: Config, m: Domains, es: seq<Event>, domain: string)
    requires ValidConfig(c) && (domain in m ==> Earned(c, m[domain]))
    ensures domain in Run(c, m, es) ==> Earned(c, Run(c, m, es)[domain])
    decreases |es|
  {
    hide Earned, ValidConfig, Next;
    if es != [] {
      NextKeepsEarned(c, m, es[0], domain);
      RunKeepsEarned(c, Next(c, m, es[0]), es[1..], domain);
    }
  }

  /** From an empty tracker, whatever the clock does, a domain at full autonomy has earned it. */
  lemma FullAutonomyIsEarned(c: Config, es: seq<Event>, domain: string)
    requires ValidConfig(c) && domain in Run(c, map[], es)
    ensures var d := Run(c, map[], es)[domain];
            && 0.0 <= d.score <= 1.0
            && -Times(c.violationPenalty, d.violations) <= d.score - 0.5 <= Times(c.successBoost, d.successes)
            && (d.autonomy.Full? ==>
                  d.successes >= c.minInteractions
                  && Times(c.successBoost, d.successes) >= c.promotionThreshold - 0.5)
  {
    hide Run, ValidConfig, Times;
    RunKeepsEarned(c, map[], es, domain);
  }

  // ----- observation is neutral -----

  predicate Observes(call: Call) {
    call.GetTrust? || call.AllDomains?
  }

  function RecordsOnly(es: seq<Event>): seq<Event>
    decreases |es|
  {
    if es == [] then []
    else if Observes(es[0].call) then RecordsOnly(es[1..])
    else [es[0]] + RecordsOnly(es[1..])
  }

  predicate MonotoneFrom(t: int, es: seq<Event>)
    decreases |es|
  {
    es != [] ==> t <= es[0].now && MonotoneFrom(es[0].now, es[1..])
  }

  function LastTime(t: int, es: seq<Event>): int
    decreases |es|
  {
    if es == [] then t else LastTime(es[0].now, es[1..])
  }

  predicate NotAfter(m: Domains, t: int) {
    forall d :: d in m ==> m[d].lastUpdated <= t
  }

  /** What a reader sees of a domain at `t`. */
  function Seen(c: Config, m: Domains, domain: string, t: int): DomainTrust {
    ApplyDecay(c, EntryAt(m, domain, t), t)
  }

  ghost predicate SameSeen(c: Config, m: Domains, n: Domains, t: int) {
    forall d :: Seen(c, m, d, t) == Seen(c, n, d, t)
  }

  lemma ScaledAssociates(gap: real, f: real, g: real)
    ensures Scaled(Scaled(gap, f), g) == Scaled(gap, Scaled(f, g))
  {
  }

  lemma TowardComposes(score: real, f: real, g: real)
    ensures Toward(Toward(score, f), g) == Toward(score, Scaled(f, g))
  {
    hide Scaled;
    var gap := score - NEUTRAL;
    assert Toward(score, f) - NEUTRAL == Scaled(gap, f);
    ScaledAssociates(gap, f, g);
  }

  /** Decaying over two stretches of time is decaying over their sum. */
  lemma DecayComposes(c: Config, d: DomainTrust, s: int, t: int)
    requires ValidConfig(c) && d.lastUpdated <= s <= t
    ensures ApplyDecay(c, ApplyDecay(c, d, s), t) == ApplyDecay(c, d, t)
  {
    hide Toward;
    if d.lastUpdated < s < t {
      var a: nat, b: nat := s - d.lastUpdated, t - s;
      assert Exponential(c.decay, a, b);
      assert c.decay(t - d.lastUpdated) == Scaled(c.decay(a), c.decay(b));
      TowardComposes(d.score, c.decay(a), c.decay(b));
    }
  }

  lemma NewStaysNeutral(c: Config, s: int, t: int)
    requires s <= t
    ensures ApplyDecay(c, NewTrust(s), t) == NewTrust(t)
  {
    if s < t {
      assert Scaled(NEUTRAL - NEUTRAL, c.decay(t - s)) == 0.0;
    }
  }

  /** What is seen later depends only on what is seen now. */
  lemma SeenLater(c: Config, m: Domains, domain: string, s: int, t: int)
    requires ValidConfig(c) && NotAfter(m, s) && s <= t
    ensures Seen(c, m, domain, t) == ApplyDecay(c, Seen(c, m, domain, s), t)
  {
    hide ValidConfig, Toward;
    if domain in m {
      DecayComposes(c, m[domain], s, t);
    } else {
      NewStaysNeutral(c, s, t);
    }
  }

  lemma DecayTwiceAtOnce(c: Config, d: DomainTrust, now: int)
    ensures ApplyDecay(c, ApplyDecay(c, d, now), now) == ApplyDecay(c, d, now)
    ensures Succeed(c, ApplyDecay(c, d, now), now) == Succeed(c, d, now)
    ensures Violate(c, ApplyDecay(c, d, now), now) == Violate(c, d, now)
  {
    hide Toward;
  }

  lemma UpToDate(c: Config, d: DomainTrust, now: int)
    requires d.lastUpdated <= now
    ensures ApplyDecay(c, d, now).lastUpdated == Succeed(c, d, now).lastUpdated == Violate(c, d, now).lastUpdated == now
    ensures ApplyDecay(c, Succeed(c, d, now), now) == Succeed(c, d, now)
    ensures ApplyDecay(c, Violate(c, d, now), now) == Violate(c, d, now)
  {
    hide Toward;
  }

  lemma StepNotAfter(c: Config, m: Domains, e: Event)
    requires NotAfter(m, e.now)
    ensures NotAfter(Next(c, m, e), e.now)
  {
    hide ApplyDecay, Succeed, Violate;
    forall d | d in Next(c, m, e)
      ensures Next(c, m, e)[d].lastUpdated <= e.now
    {
      UpToDate(c, EntryAt(m, d, e.now), e.now);
    }
  }

  /** A call changes what is seen only where it records. */
  lemma StepSeen(c: Config, m: Domains, e: Event, domain: string)
    requires NotAfter(m, e.now)
    ensures var before := Seen(c, m, domain, e.now);
            Seen(c, Next(c, m, e), domain, e.now) ==
            match e.call
            case RecordSuccess(d) => if d == domain then Succeed(c, before, e.now) else before
            case RecordViolation(d) => if d == domain then Violate(c, before, e.now) else before
            case _ => before
  {
    hide ApplyDecay, Succeed, Violate;
    DecayTwiceAtOnce(c, EntryAt(m, domain, e.now), e.now);
    UpToDate(c, EntryAt(m, domain, e.now), e.now);
  }

  /** The same step from two states that look alike leaves two states that look alike. */
  lemma StepKeepsSameSeen(c: Config, m: Domains, n: Domains, t: int, e: Event, domain: string)
    requires ValidConfig(c) && NotAfter(m, t) && NotAfter(n, t) && SameSeen(c, m, n, t) && t <= e.now
    ensures Observes(e.call) ==> Seen(c, Next(c, m, e), domain, e.now) == Seen(c, n, domain, e.now)
    ensures Seen(c, Next(c, m, e), domain, e.now) == Seen(c, Next(c, n, e), domain, e.now)
  {
    hide ApplyDecay, Succeed, Violate, ValidConfig, Seen, Next;
    SeenLater(c, m, domain, t, e.now);
    SeenLater(c, n, domain, t, e.now);
    StepSeen(c, m, e, domain);
    StepSeen(c, n, e, domain);
  }

  lemma {:induction false} RecordsDecide(c: Config, m: Domains, n: Domains, t: int, es: seq<Event>, later: int,
                                         domain: string)
    requires ValidConfig(c) && NotAfter(m, t) && NotAfter(n, t) && SameSeen(c, m, n, t)
    requires MonotoneFrom(t, es) && LastTime(t, es) <= later
    ensures Seen(c, Run(c, m, es), domain, later) == Seen(c, Run(c, n, RecordsOnly(es)), domain, later)
    decreases |es|
  {
    hide ApplyDecay, ValidConfig, Seen, Next;
    if es == [] {
      SeenLater(c, m, domain, t, later);
      SeenLater(c, n, domain, t, later);
    } else {
      var e := es[0];
      forall d
        ensures Observes(e.call) ==> Seen(c, Next(c, m, e), d, e.now) == Seen(c, n, d, e.now)
        ensures Seen(c, Next(c, m, e), d, e.now) == Seen(c, Next(c, n, e), d, e.now)
      {
        StepKeepsSameSeen(c, m, n, t, e, d);
      }
      StepNotAfter(c, m, e);
      StepNotAfter(c, n, e);
      if Observes(e.call) {
        RecordsDecide(c, Next(c, m, e), n, e.now, es[1..], later, domain);
      } else {
        assert ([e] + RecordsOnly(es[1..]))[1..] == RecordsOnly(es[1..]);
        RecordsDecide(c, Next(c, m, e), Next(c, n, e), e.now, es[1..], later, domain);
      }
    }
  }

  /** Under a clock that never runs back, reading trust changes nothing that is read later. */
  lemma ObservationIsNeutral(c: Config, m: Domains, t: int, es: seq<Event>, later: int, domain: string)
    requires ValidConfig(c) && NotAfter(m, t) && MonotoneFrom(t, es) && LastTime(t, es) <= later
    ensures Seen(c, Run(c, m, es), domain, later) == Seen(c, Run(c, m, RecordsOnly(es)), domain, later)
  {
    RecordsDecide(c, m, m, t, es, later, domain);
  }

  // ----- which domains are listed -----

  predicate Names(call: Call, domain: string) {
    !call.AllDomains? && call.domain == domain
  }

  /** Every call that names a domain, a mere read too, enters it in the list; nothing removes it. */
  lemma {:induction false} ListedIff(c: Config, m: Domains, es: seq<Event>, domain: string)
    ensures domain in Run(c, m, es) <==> domain in m || exists i :: 0 <= i < |es| && Names(es[i].call, domain)
    decreases |es|
  {
    hide ApplyDecay, Succeed, Violate;
    if es != [] {
      ListedIff(c, Next(c, m, es[0]), es[1..], domain);
      if i :| 0 <= i < |es| && Names(es[i].call, domain) {
        assert i > 0 ==> es[i] == es[1..][i - 1];
      }
      if i :| 0 <= i < |es[1..]| && Names(es[1..][i].call, domain) {
        assert Names(es[i + 1].call, domain);
      }
    }
  }

  // ----- what is read -----

  /** A domain that no call has named is new: neutral, supervised, with nothing recorded. */
  lemma NewDomainIsNeutral(c: Config, m: Domains, es: seq<Event>, domain: string, now: int)
    requires domain !in m && forall i :: 0 <= i < |es| ==> !Names(es[i].call, domain)
    ensures Next(c, Run(c, m, es), Event(GetTrust(domain), now))[domain] == DomainTrust(0.5, Supervised, now, 0, 0)
  {
    hide Run, Names;
    ListedIff(c, m, es, domain);
  }

  /** A read decays a stored entry to the present, and leaves it alone if the clock has not moved on. */
  lemma ReadDecays(c: Config, m: Domains, domain: string, now: int)
    requires domain in m
    ensures var d := m[domain];
            Next(c, m, Event(GetTrust(domain), now))[domain] ==
            if now <= d.lastUpdated then d
            else d.(score := 0.5 + (d.score - 0.5) * c.decay(now - d.lastUpdated), lastUpdated := now)
  {
  }

  /** A listing shows every listed domain as a read of it would. */
  lemma ListingShowsReads(c: Config, m: Domains, now: int)
    ensures Next(c, m, Event(AllDomains, now)).Keys == m.Keys
    ensures forall d :: d in m ==>
              Next(c, m, Event(AllDomains, now))[d] == Next(c, m, Event(GetTrust(d), now))[d]
  {
    hide ApplyDecay;
  }

  // ----- half-lives -----

  /** One half to the power n. */
  function HalfPower(n: nat): real {
    if n == 0 then 1.0 else HalfPower(n - 1) / 2.0
  }

  lemma HalfOf(x: real)
    ensures Scaled(0.5, x) == x / 2.0
  {
  }

  lemma ScaledByOne(x: real)
    ensures Scaled(1.0, x) == x == Scaled(x, 1.0)
  {
  }

  lemma {:induction false} DecayOverHalfLives(c: Config, halfLife: nat, n: nat, rest: nat)
    requires ValidConfig(c) && c.decay(halfLife) == 0.5
    ensures n * halfLife >= 0 && c.decay(n * halfLife + rest) == Scaled(HalfPower(n), c.decay(rest))
  {
    hide Scaled;
    if n == 0 {
      ScaledByOne(c.decay(rest));
    } else {
      DecayOverHalfLives(c, halfLife, n - 1, rest);
      var before: nat := (n - 1) * halfLife + rest;
      assert n * halfLife + rest == halfLife + before;
      assert Exponential(c.decay, halfLife, before);
      assert c.decay(n * halfLife + rest) == Scaled(c.decay(halfLife), c.decay(before));
      HalfOf(HalfPower(n - 1));
      ScaledAssociates(0.5, HalfPower(n - 1), c.decay(rest));
    }
  }

  lemma ScaledInOrder(x: real, f: real, g: real)
    requires x >= 0.0 && f <= g
    ensures Scaled(x, f) <= Scaled(x, g)
  {
    assert x * (g - f) >= 0.0;
  }

  lemma {:induction false} HalfPowerPositive(n: nat)
    ensures HalfPower(n) > 0.0
  {
    if n > 0 {
      HalfPowerPositive(n - 1);
    }
  }

  /** Longer stretches leave less of the gap. */
  lemma DecayInOrder(c: Config, s: nat, t: nat)
    requires ValidConfig(c) && s <= t
    ensures c.decay(t) <= c.decay(s)
  {
    var rest: nat := t - s;
    assert Exponential(c.decay, s, rest);
    ScaledInOrder(c.decay(s), c.decay(rest), 1.0);
    ScaledByOne(c.decay(s));
  }

  lemma ScaledIsHalf(x: real)
    ensures Scaled(x, 0.5) == x / 2.0
  {
  }

  lemma ScaledIsProduct(x: real, f: real)
    ensures Scaled(x, f) == x * f
  {
  }

  /**
   The n-th half-life leaves the gap to neutral halved n times, and between two
   half-lives it lies between the two.
   */
  lemma HalfLifeHalvesGap(c: Config, d: DomainTrust, halfLife: nat, elapsed: nat)
    requires ValidConfig(c) && halfLife > 0 && c.decay(halfLife) == 0.5
    ensures var n, f := elapsed / halfLife, c.decay(elapsed);
            && ApplyDecay(c, d, d.lastUpdated + elapsed).score == 0.5 + (d.score - 0.5) * f
            && HalfPower(n + 1) <= f <= HalfPower(n)
            && (elapsed % halfLife == 0 ==> f == HalfPower(n))
  {
    hide Scaled;
    var n, rest := elapsed / halfLife, elapsed % halfLife;
    assert elapsed == n * halfLife + rest;
    DecayOverHalfLives(c, halfLife, n, rest);
    HalfPowerPositive(n);
    DecayInOrder(c, rest, halfLife);
    ScaledInOrder(HalfPower(n), 0.5, c.decay(rest));
    ScaledInOrder(HalfPower(n), c.decay(rest), 1.0);
    ScaledByOne(HalfPower(n));
    ScaledByOne(d.score - NEUTRAL);
    ScaledIsHalf(HalfPower(n));
    assert d.lastUpdated + elapsed - d.lastUpdated == elapsed;
    ScaledIsProduct(d.score - NEUTRAL, c.decay(elapsed));
  }

  // ----- how autonomy moves -----

  function Rank(a: Autonomy): nat {
    match a
    case ReadOnly => 0
    case Supervised => 1
    case Full => 2
  }

  /** A success raises autonomy by at most one level, a violation lowers it by at most one, and the score decides. */
  lemma OneLevelAtATime(c: Config, d: DomainTrust, now: int)
    ensures var e := Succeed(c, d, now);
            Rank(e.autonomy) == Rank(d.autonomy) +
              (if !d.autonomy.Full? && e.score >= c.promotionThreshold && e.successes >= c.minInteractions
               then 1 else 0)
    ensures var e := Violate(c, d, now);
            Rank(e.autonomy) == Rank(d.autonomy) -
              (if !d.autonomy.ReadOnly? && e.score < c.demotionThreshold then 1 else 0)
  {
    hide Toward;
  }

  /** From `d` to `e` every rise is paid for by a recorded success and every fall by a recorded violation. */
  predicate PaidMoves(c: Config, d: DomainTrust, e: DomainTrust) {
    && Rank(e.autonomy) - Rank(d.autonomy) <= e.successes - d.successes
    && Rank(d.autonomy) - Rank(e.autonomy) <= (if c.demotionThreshold <= 0.0 then 0 else e.violations - d.violations)
    && d.successes <= e.successes && d.violations <= e.violations
  }

  lemma StepIsPaid(c: Config, d: DomainTrust, now: int)
    ensures PaidMoves(c, d, ApplyDecay(c, d, now))
    ensures PaidMoves(c, d, Succeed(c, d, now)) && PaidMoves(c, d, Violate(c, d, now))
  {
    OneLevelAtATime(c, d, now);
    hide Toward, Rank;
  }

  lemma NextIsPaid(c: Config, m: Domains, e: Event, domain: string, t: int)
    ensures PaidMoves(c, EntryAt(m, domain, t), EntryAt(Next(c, m, e), domain, t))
  {
    hide ApplyDecay, Succeed, Violate;
    StepIsPaid(c, EntryAt(m, domain, e.now), e.now);
  }

  /**
   Over every run and under any clock autonomy rises by no more levels than
   successes are recorded, falls by no more than violations are, and with a
   threshold at or below zero does not fall at all.
   */
  lemma {:induction false} RunIsPaid(c: Config, m: Domains, es: seq<Event>, domain: string, t: int)
    ensures PaidMoves(c, EntryAt(m, domain, t), EntryAt(Run(c, m, es), domain, t))
    decreases |es|
  {
    hide Next, Rank;
    if es != [] {
      NextIsPaid(c, m, es[0], domain, t);
      RunIsPaid(c, Next(c, m, es[0]), es[1..], domain, t);
    }
  }

  // ----- repeated violations -----

  lemma NoPenalty(x: real)
    ensures Times(x, 0) == 0.0
  {
  }

  function ViolateTimes(c: Config, d: DomainTrust, now: int, k: nat): DomainTrust {
    if k == 0 then d else Violate(c, ViolateTimes(c, d, now, k - 1), now)
  }

  lemma {:induction false} ViolationsLowerScore(c: Config, d: DomainTrust, now: int, k: nat)
    requires ValidConfig(c) && Earned(c, d)
    ensures var e := ViolateTimes(c, d, now, k);
            Earned(c, e) && (k > 0 ==> e.lastUpdated >= now && e.score <= Max(0.0, 1.0 - Times(c.violationPenalty, k)))
  {
    hide Times, Toward;
    if k > 0 {
      ViolationsLowerScore(c, d, now, k - 1);
      var e := ViolateTimes(c, d, now, k - 1);
      StepKeepsEarned(c, e, now);
      DecayKeepsEarned(c, e, now);
      TimesFacts(c.violationPenalty, k - 1);
      NoPenalty(c.violationPenalty);
    }
  }

  function SucceedTimes(c: Config, d: DomainTrust, now: int, k: nat): DomainTrust {
    if k == 0 then d else Succeed(c, SucceedTimes(c, d, now, k - 1), now)
  }

  /**
   At one instant k successes add k boosts up to 1 to what decay has left, k
   violations take k penalties down to 0, and each is counted.
   */
  lemma {:induction false} RepeatedAtOneInstant(c: Config, d: DomainTrust, now: int, k: nat)
    requires ValidConfig(c) && 0.0 <= d.score <= 1.0 && k > 0
    ensures var e := SucceedTimes(c, d, now, k);
            && e.score == Min(1.0, ApplyDecay(c, d, now).score + Times(c.successBoost, k))
            && e.successes == d.successes + k && e.violations == d.violations && e.lastUpdated == now
    ensures var e := ViolateTimes(c, d, now, k);
            && e.score == Max(0.0, ApplyDecay(c, d, now).score - Times(c.violationPenalty, k))
            && e.violations == d.violations + k && e.successes == d.successes && e.lastUpdated == now
  {
    hide Times, Toward;
    TimesFacts(c.successBoost, k - 1);
    TimesFacts(c.violationPenalty, k - 1);
    if k > 1 {
      RepeatedAtOneInstant(c, d, now, k - 1);
    } else {
      NoPenalty(c.successBoost);
      NoPenalty(c.violationPenalty);
      if now > d.lastUpdated {
        TowardNeutral(d.score, c.decay(now - d.lastUpdated));
      }
    }
  }

  /** Which of `k` successes at one instant reach the score and the count for a promotion. */
  function Promoting(c: Config, d: DomainTrust, now: int, k: nat): set<nat> {
    set j: nat | 1 <= j <= k
      && Min(1.0, ApplyDecay(c, d, now).score + Times(c.successBoost, j)) >= c.promotionThreshold
      && d.successes + j >= c.minInteractions
  }

  /** Which of `k` violations at one instant leave a score below the threshold for a demotion. */
  function Demoting(c: Config, d: DomainTrust, now: int, k: nat): set<nat> {
    set j: nat | 1 <= j <= k
      && Max(0.0, ApplyDecay(c, d, now).score - Times(c.violationPenalty, j)) < c.demotionThreshold
  }

  lemma OneMoreMember(small: set<nat>, large: set<nat>, k: nat)
    requires k !in small && (large == small || large == small + {k})
    ensures |large| == |small| + if k in large then 1 else 0
  {
  }

  lemma StepsOneLevel(c: Config, d: DomainTrust, now: int)
    ensures var e := Succeed(c, d, now);
            Rank(e.autonomy) == if e.score >= c.promotionThreshold && e.successes >= c.minInteractions
                                then (if d.autonomy.Full? then 2 else Rank(d.autonomy) + 1) else Rank(d.autonomy)
    ensures var e := Violate(c, d, now);
            Rank(e.autonomy) == if e.score < c.demotionThreshold
                                then (if d.autonomy.ReadOnly? then 0 else Rank(d.autonomy) - 1) else Rank(d.autonomy)
  {
  }

  lemma {:induction false} LevelsUp(c: Config, d: DomainTrust, now: int, k: nat)
    requires ValidConfig(c) && 0.0 <= d.score <= 1.0
    ensures var up := Rank(d.autonomy) + |Promoting(c, d, now, k)|;
            Rank(SucceedTimes(c, d, now, k).autonomy) == if up > 2 then 2 else up
  {
    hide Times, ApplyDecay, Succeed, Violate, Min, Max;
    if k == 0 {
      assert Promoting(c, d, now, 0) == {};
    } else {
      LevelsUp(c, d, now, k - 1);
      RepeatedAtOneInstant(c, d, now, k);
      OneMoreMember(Promoting(c, d, now, k - 1), Promoting(c, d, now, k), k);
      StepsOneLevel(c, SucceedTimes(c, d, now, k - 1), now);
    }
  }

  lemma {:induction false} LevelsDown(c: Config, d: DomainTrust, now: int, k: nat)
    requires ValidConfig(c) && 0.0 <= d.score <= 1.0
    ensures var down := Rank(d.autonomy) - |Demoting(c, d, now, k)|;
            Rank(ViolateTimes(c, d, now, k).autonomy) == if down < 0 then 0 else down
  {
    hide Times, ApplyDecay, Succeed, Violate, Min, Max;
    if k == 0 {
      assert Demoting(c, d, now, 0) == {};
    } else {
      LevelsDown(c, d, now, k - 1);
      RepeatedAtOneInstant(c, d, now, k);
      OneMoreMember(Demoting(c, d, now, k - 1), Demoting(c, d, now, k), k);
      StepsOneLevel(c, ViolateTimes(c, d, now, k - 1), now);
    }
  }

  /** Each success that reaches both thresholds lifts autonomy by one level, each violation below lowers it by one. */
  lemma LevelsAtOneInstant(c: Config, d: DomainTrust, now: int, k: nat)
    requires ValidConfig(c) && 0.0 <= d.score <= 1.0
    ensures var up := Rank(d.autonomy) + |Promoting(c, d, now, k)|;
            Rank(SucceedTimes(c, d, now, k).autonomy) == if up > 2 then 2 else up
    ensures var down := Rank(d.autonomy) - |Demoting(c, d, now, k)|;
            Rank(ViolateTimes(c, d, now, k).autonomy) == if down < 0 then 0 else down
  {
    LevelsUp(c, d, now, k);
    LevelsDown(c, d, now, k);
  }

  lemma DemotesBelow(c: Config, d: DomainTrust, now: int)
    ensures var e := Violate(c, d, now);
            e.score < c.demotionThreshold ==> e.autonomy == if d.autonomy.Full? then Supervised else ReadOnly
  {
  }

  /** When k penalties use up the whole range above the threshold, k + 1 violations at one instant lead to read-only. */
  lemma ViolationsReachReadOnly(c: Config, d: DomainTrust, now: int, k: nat)
    requires ValidConfig(c) && Earned(c, d)
    requires 0.0 < c.demotionThreshold < 1.0 && Times(c.violationPenalty, k) > 1.0 - c.demotionThreshold
    ensures ViolateTimes(c, d, now, k + 1).autonomy == ReadOnly
  {
    hide Times, ApplyDecay, Earned;
    NoPenalty(c.violationPenalty);
    assert k > 0;
    ViolationsLowerScore(c, d, now, k);
    ViolationsLowerScore(c, d, now, k + 1);
    TimesFacts(c.violationPenalty, k);
    DemotesBelow(c, ViolateTimes(c, d, now, k - 1), now);
    DemotesBelow(c, ViolateTimes(c, d, now, k), now);
  }

  // ----- violations within a window of time -----

  /** Violations at the given times, in this order. */
  function ViolateAt(c: Config, d: DomainTrust, times: seq<int>): DomainTrust {
    if times == [] then d
    else Violate(c, ViolateAt(c, d, times[..|times| - 1]), times[|times| - 1])
  }

  predicate Ordered(lo: int, times: seq<int>, hi: int) {
    && (forall i :: 0 <= i < |times| ==> lo <= times[i] <= hi)
    && (forall i, j :: 0 <= i < j < |times| ==> times[i] <= times[j])
  }

  /** The gap that k penalties leave at most when decay keeps at least the part `kept` of each. */
  function Ceiling(penalty: real, k: nat, kept: real): real {
    Max(NEUTRAL - Scaled(Times(penalty, k), kept), -Scaled(NEUTRAL, kept))
  }

  /** `rest` is the part of a gap that is left at the end of the window. */
  predicate Low(penalty: real, k: nat, kept: real, gap: real, rest: real) {
    && (gap > 0.0 ==> gap <= NEUTRAL - Times(penalty, k))
    && (gap <= 0.0 ==> Scaled(gap, rest) <= Ceiling(penalty, k, kept))
  }

  lemma ScaledAdds(x: real, y: real, f: real)
    ensures Scaled(x + y, f) == Scaled(x, f) + Scaled(y, f)
    ensures Scaled(-x, f) == -Scaled(x, f) && Scaled(x - y, f) == Scaled(x, f) - Scaled(y, f)
  {
  }

  lemma ScaledKeepsOrder(x: real, y: real, f: real)
    requires x <= y && f >= 0.0
    ensures Scaled(x, f) <= Scaled(y, f)
  {
    assert (y - x) * f >= 0.0;
  }

  lemma PenaltyKeepsLow(penalty: real, k: nat, kept: real, gap: real, rest: real)
    requires penalty >= 0.0 && 0.0 <= kept <= rest <= 1.0 && Low(penalty, k, kept, gap, rest)
    ensures Low(penalty, k + 1, kept, Max(gap - penalty, -NEUTRAL), rest)
  {
    hide Scaled, Times;
    TimesFacts(penalty, k);
    TimesFacts(penalty, k + 1);
    ScaledAdds(NEUTRAL, 0.0, rest);
    ScaledInOrder(NEUTRAL, kept, rest);
    if gap > 0.0 {
      var taken := Times(penalty, k + 1);
      ScaledKeepsOrder(gap - penalty, NEUTRAL - taken, rest);
      ScaledAdds(NEUTRAL, taken, rest);
      ScaledInOrder(taken, kept, rest);
      ScaledInOrder(NEUTRAL, rest, 1.0);
      ScaledByOne(NEUTRAL);
    } else {
      ScaledAdds(gap, penalty, rest);
      ScaledInOrder(penalty, kept, rest);
      ScaledAdds(Times(penalty, k), penalty, kept);
      ScaleDown(penalty, kept);
    }
  }

  lemma ScaledKeepsZero(f: real)
    ensures Scaled(0.0, f) == 0.0
  {
  }

  lemma DecayKeepsLow(penalty: real, k: nat, kept: real, gap: real, f: real, rest: real)
    requires penalty >= 0.0 && 0.0 <= kept <= 1.0 && 0.0 <= f <= 1.0
    requires Low(penalty, k, kept, gap, Scaled(f, rest))
    ensures Low(penalty, k, kept, Scaled(gap, f), rest)
  {
    hide Scaled, Times;
    ScaleDown(gap, f);
    ScaledAssociates(gap, f, rest);
    if gap > 0.0 && Scaled(gap, f) <= 0.0 {
      TimesFacts(penalty, k);
      ScaleDown(Times(penalty, k), kept);
      ScaledKeepsZero(rest);
    }
  }

  lemma ViolationLowers(c: Config, e: DomainTrust, now: int, k: nat, kept: real, rest: real)
    requires ValidConfig(c) && 0.0 <= kept <= rest <= 1.0
    requires Low(c.violationPenalty, k, kept, ApplyDecay(c, e, now).score - NEUTRAL, rest)
    ensures Low(c.violationPenalty, k + 1, kept, Violate(c, e, now).score - NEUTRAL, rest)
  {
    hide Low, ApplyDecay;
    PenaltyKeepsLow(c.violationPenalty, k, kept, ApplyDecay(c, e, now).score - NEUTRAL, rest);
  }

  lemma FirstIsLow(c: Config, d: DomainTrust, now: int, kept: real, rest: real)
    requires ValidConfig(c) && Earned(c, d) && 0.0 <= kept <= 1.0 && 0.0 <= rest
    ensures Low(c.violationPenalty, 0, kept, ApplyDecay(c, d, now).score - NEUTRAL, rest)
  {
    hide Scaled, Times, ApplyDecay;
    DecayKeepsEarned(c, d, now);
    NoPenalty(c.violationPenalty);
    ScaledKeepsZero(kept);
    ScaledKeepsZero(rest);
    var gap := ApplyDecay(c, d, now).score - NEUTRAL;
    if gap <= 0.0 {
      ScaledKeepsOrder(gap, 0.0, rest);
    }
  }

  lemma LaterIsLow(c: Config, e: DomainTrust, now: int, hi: int, k: nat, kept: real)
    requires ValidConfig(c) && e.lastUpdated <= now <= hi && 0.0 <= kept <= 1.0
    requires Low(c.violationPenalty, k, kept, e.score - NEUTRAL, c.decay(hi - e.lastUpdated))
    ensures Low(c.violationPenalty, k, kept, ApplyDecay(c, e, now).score - NEUTRAL, c.decay(hi - now))
  {
    hide Low, Scaled;
    if e.lastUpdated < now {
      var a: nat, b: nat := now - e.lastUpdated, hi - now;
      assert Exponential(c.decay, a, b);
      DecayKeepsLow(c.violationPenalty, k, kept, e.score - NEUTRAL, c.decay(a), c.decay(b));
    }
  }

  lemma {:induction false} ViolationsStayLow(c: Config, d: DomainTrust, lo: int, times: seq<int>, hi: int)
    requires ValidConfig(c) && Earned(c, d) && Ordered(lo, times, hi) && times != []
    ensures var e, last := ViolateAt(c, d, times), times[|times| - 1];
            && Earned(c, e) && e.lastUpdated == last
            && Low(c.violationPenalty, |times|, c.decay(hi - lo), e.score - NEUTRAL, c.decay(hi - last))
    decreases |times|
  {
    hide Low, ApplyDecay, Earned;
    var k, kept := |times| - 1, c.decay(hi - lo);
    var now, init := times[k], times[..k];
    DecayInOrder(c, hi - now, hi - lo);
    if init == [] {
      FirstIsLow(c, d, now, kept, c.decay(hi - now));
    } else {
      ViolationsStayLow(c, d, lo, init, hi);
      LaterIsLow(c, ViolateAt(c, d, init), now, hi, k, kept);
    }
    var e := ViolateAt(c, d, init);
    StepKeepsEarned(c, e, now);
    ViolationLowers(c, e, now, k, kept, c.decay(hi - now));
  }

  lemma LowIsBelowCeiling(penalty: real, k: nat, kept: real, gap: real, rest: real)
    requires penalty >= 0.0 && 0.0 <= kept <= 1.0 && 0.0 <= rest <= 1.0 && Low(penalty, k, kept, gap, rest)
    ensures gap <= Ceiling(penalty, k, kept)
  {
    hide Scaled, Times;
    TimesFacts(penalty, k);
    ScaleDown(Times(penalty, k), kept);
    ScaleDown(gap, rest);
  }

  lemma {:induction false} TimesInOrder(x: real, j: nat, k: nat)
    requires x >= 0.0 && j <= k
    ensures Times(x, j) <= Times(x, k)
    decreases k
  {
    hide Times;
    if j < k {
      TimesInOrder(x, j, k - 1);
      TimesFacts(x, k - 1);
    }
  }

  lemma CeilingInOrder(penalty: real, j: nat, k: nat, kept: real)
    requires penalty >= 0.0 && j <= k && kept >= 0.0
    ensures Ceiling(penalty, k, kept) <= Ceiling(penalty, j, kept)
  {
    hide Scaled, Times;
    TimesInOrder(penalty, j, k);
    ScaledKeepsOrder(Times(penalty, j), Times(penalty, k), kept);
  }

  /** k violations within a window leave at most the ceiling. */
  lemma ScoreBelowCeiling(c: Config, d: DomainTrust, lo: int, times: seq<int>, hi: int, k: nat)
    requires ValidConfig(c) && Earned(c, d) && Ordered(lo, times, hi) && times != [] && k <= |times|
    ensures ViolateAt(c, d, times).score <= NEUTRAL + Ceiling(c.violationPenalty, k, c.decay(hi - lo))
  {
    hide Low, Ceiling, Earned;
    var kept, rest := c.decay(hi - lo), c.decay(hi - times[|times| - 1]);
    ViolationsStayLow(c, d, lo, times, hi);
    LowIsBelowCeiling(c.violationPenalty, |times|, kept, ViolateAt(c, d, times).score - NEUTRAL, rest);
    CeilingInOrder(c.violationPenalty, k, |times|, kept);
  }

  /**
   Violations spread over a window with decay in between: when k penalties, less
   what decay takes back, use up the range above the threshold, k + 1 of them
   lead to read-only, and every further one keeps it there.
   */
  lemma {:induction false} ViolationsInWindowReachReadOnly(c: Config, d: DomainTrust, lo: int, times: seq<int>,
                                                           hi: int, k: nat)
    requires ValidConfig(c) && Earned(c, d) && Ordered(lo, times, hi) && lo <= hi
    requires k > 0 && NEUTRAL + Ceiling(c.violationPenalty, k, c.decay(hi - lo)) < c.demotionThreshold
    ensures |times| >= k ==> !ViolateAt(c, d, times).autonomy.Full?
    ensures |times| > k ==> ViolateAt(c, d, times).autonomy.ReadOnly?
    decreases |times|
  {
    hide Ceiling, Earned, Violate;
    if |times| >= k {
      var init := times[..|times| - 1];
      ViolationsInWindowReachReadOnly(c, d, lo, init, hi, k);
      ScoreBelowCeiling(c, d, lo, times, hi, k);
      DemotesBelow(c, ViolateAt(c, d, init), times[|times| - 1]);
    }
  }

  /** With the default penalty and threshold, eleven violations within one half-life lead any domain to read-only. */
  lemma ElevenInAHalfLife(c: Config, d: DomainTrust, lo: int, times: seq<int>, halfLife: nat)
    requires ValidConfig(c) && c.violationPenalty == 0.15 && c.demotionThreshold == 0.3 && c.decay(halfLife) == 0.5
    requires Earned(c, d) && Ordered(lo, times, lo + halfLife) && |times| >= 11
    ensures ViolateAt(c, d, times).autonomy.ReadOnly?
  {
    hide ValidConfig, Earned, Ordered, ViolateAt;
    assert Times(0.15, 10) == 1.5;
    assert lo + halfLife - lo == halfLife;
    ViolationsInWindowReachReadOnly(c, d, lo, times, lo + halfLife, 10);
  }
}
