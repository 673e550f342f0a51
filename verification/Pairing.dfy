/**
 The pairing guard of src/security/pairing.rs, one call at a time. Clocks,
 fresh codes and tokens and the outcome of a file write are inputs; the hash is
 a parameter. `Next` says what each public call does to the guard and its file.
 */
module Pairing {
  import opened Strings

  const MAX_PAIR_ATTEMPTS := 5
  const PAIR_LOCKOUT_SECS := 300
  const DEFAULT_TOKEN_TTL_SECS := 2_592_000
  const MIN_TOKEN_TTL_SECS := 60
  const NANOS_PER_SEC := 1_000_000_000

  type Hash = string -> string

  datatype Attempts = Attempts(count: nat, lockedAt: Option<nat>)

  /** What is at the storage path. */
  datatype FileContent = Missing | Unreadable | Readable(tokens: map<string, nat>)

  datatype Guard = Guard(
    requirePairing: bool,
    ttl: nat,
    hash: Hash,
    code: Option<string>,
    tokens: map<string, nat>,
    attempts: Attempts,
    storage: Option<FileContent>)

  datatype PairResult = LockedOut(seconds: nat) | Rejected | Paired(token: string)

  // ----- the token map -----

  /** `now.saturating_sub(issuedAt)`. */
  function Age(now: nat, issuedAt: nat): nat {
    if now >= issuedAt then now - issuedAt else 0
  }

  function Retain(tokens: map<string, nat>, now: nat, ttl: nat): map<string, nat> {
    map h | h in tokens && Age(now, tokens[h]) < ttl :: tokens[h]
  }

  predicate HasExpired(tokens: map<string, nat>, now: nat, ttl: nat) {
    exists h :: h in tokens && ttl > 0 && Age(now, tokens[h]) > ttl
  }

  predicate IsHexDigit(c: char) {
    IsDigit(c) || 'a' <= c <= 'f' || 'A' <= c <= 'F'
  }

  predicate IsStoredHash(h: string) {
    |h| == 64 && forall i :: 0 <= i < |h| ==> IsHexDigit(h[i])
  }

  function Load(content: FileContent): map<string, nat> {
    if content.Readable? then map h | h in content.tokens && IsStoredHash(h) :: content.tokens[h] else map[]
  }

  /** `persist_tokens`: a failed write leaves the old file. */
  function Persist(g: Guard, writeOk: bool): Guard {
    if g.storage.Some? && writeOk then g.(storage := Some(Readable(g.tokens))) else g
  }

  function Seed(tokens: map<string, nat>, existing: seq<string>, now: nat): map<string, nat>
    decreases |existing|
  {
    if existing == [] then tokens
    else
      var h := existing[0];
      Seed(if h in tokens then tokens else tokens[h := now], existing[1..], now)
  }

  function EffectiveTtl(requested: Option<nat>): (r: nat)
    ensures requested.None? ==> r == 2_592_000
    ensures requested.Some? ==> r == if requested.value < 60 then 60 else requested.value
  {
    var ttl := if requested.Some? then requested.value else DEFAULT_TOKEN_TTL_SECS;
    if ttl < MIN_TOKEN_TTL_SECS then MIN_TOKEN_TTL_SECS else ttl
  }

  /** `new_with_storage`. */
  function NewGuard(requirePairing: bool, existing: seq<string>, ttl: Option<nat>, storage: Option<FileContent>,
                    hash: Hash, now: nat, freshCode: string, writeOk: bool): Guard
  {
    var loaded := if storage.Some? then Load(storage.value) else map[];
    var tokens := Retain(Seed(loaded, existing, now), now, EffectiveTtl(ttl));
    var code := if requirePairing && tokens == map[] then Some(freshCode) else None;
    Persist(Guard(requirePairing, EffectiveTtl(ttl), hash, code, tokens, Attempts(0, None), storage), writeOk)
  }

  // ----- the calls -----

  function ElapsedSecs(at: nat, instant: nat): nat {
    Age(instant, at) / NANOS_PER_SEC
  }

  /** The first block of `try_pair`: the seconds left of a lockout, and the counter after the block. */
  function CheckLockout(a: Attempts, instant: nat): (Option<nat>, Attempts) {
    if a.lockedAt.Some? && a.count >= MAX_PAIR_ATTEMPTS then
      var elapsed := ElapsedSecs(a.lockedAt.value, instant);
      if elapsed < PAIR_LOCKOUT_SECS then (Some(PAIR_LOCKOUT_SECS - elapsed), a) else (None, Attempts(0, None))
    else
      (None, a)
  }

  function CountFailure(a: Attempts, instant: nat): Attempts {
    Attempts(a.count + 1, if a.count + 1 >= MAX_PAIR_ATTEMPTS then Some(instant) else a.lockedAt)
  }

  predicate CodeMatches(code: Option<string>, submitted: string) {
    code.Some? && Trim(submitted) == Trim(code.value)
  }

  /** The monotonic clock is read for the lockout check and again when a failure sets the lock time. */
  function TryPair(g: Guard, submitted: string, checkedAt: nat, failedAt: nat, now: nat, newToken: string,
                   writeOk: bool)
    : (Guard, PairResult)
  {
    var (locked, attempts) := CheckLockout(g.attempts, checkedAt);
    if locked.Some? then
      (g, LockedOut(locked.value))
    else if CodeMatches(g.code, submitted) then
      var paired := g.(attempts := Attempts(0, None), tokens := g.tokens[g.hash(newToken) := now]);
      (Persist(paired, writeOk).(code := None), Paired(newToken))
    else
      (g.(attempts := CountFailure(attempts, failedAt)), Rejected)
  }

  /** `is_paired`, `tokens` and the slow path of `is_accepted_token`: drop expired tokens, save on change. */
  function Prune(g: Guard, now: nat, writeOk: bool): Guard {
    var kept := Retain(g.tokens, now, g.ttl);
    if |kept| != |g.tokens| then Persist(g.(tokens := kept), writeOk) else g.(tokens := kept)
  }

  function IsAccepted(g: Guard, token: string, now: nat, writeOk: bool): (Guard, bool) {
    if token == "" then (g, false)
    else if !HasExpired(g.tokens, now, g.ttl) then (g, g.hash(token) in g.tokens)
    else (Prune(g, now, writeOk), g.hash(token) in Retain(g.tokens, now, g.ttl))
  }

  function RevokeAll(g: Guard, writeOk: bool): Guard {
    Persist(g.(tokens := map[]), writeOk)
  }

  datatype Call =
    | TryPairCall(submitted: string, checkedAt: nat, failedAt: nat, newToken: string)
    | IsAcceptedCall(token: string)
    | IsPairedCall
    | TokensCall
    | RevokeAllCall

  /** A call with the wall clock it reads and the outcome of a write it may make. */
  datatype Event = Event(call: Call, now: nat, writeOk: bool)

  function Next(g: Guard, e: Event): Guard {
    match e.call
    case TryPairCall(submitted, checkedAt, failedAt, newToken) =>
      TryPair(g, submitted, checkedAt, failedAt, e.now, newToken, e.writeOk).0
    case IsAcceptedCall(token) => IsAccepted(g, token, e.now, e.writeOk).0
    case IsPairedCall => Prune(g, e.now, e.writeOk)
    case TokensCall => Prune(g, e.now, e.writeOk)
    case RevokeAllCall => RevokeAll(g, e.writeOk)
  }

  function Run(g: Guard, es: seq<Event>): Guard
    decreases |es|
  {
    if es == [] then g else Run(Next(g, es[0]), es[1..])
  }

  function PairOutcome(g: Guard, e: Event): Option<PairResult> {
    match e.call
    case TryPairCall(submitted, checkedAt, failedAt, newToken) =>
      Some(TryPair(g, submitted, checkedAt, failedAt, e.now, newToken, e.writeOk).1)
    case _ => None
  }

  predicate Rejects(g: Guard, e: Event) {
    PairOutcome(g, e) == Some(Rejected)
  }

  predicate Pairs(g: Guard, e: Event) {
    PairOutcome(g, e).Some? && PairOutcome(g, e).value.Paired?
  }

  /** How many calls of a run return no token without being locked out. */
  function Rejections(g: Guard, es: seq<Event>): nat
    decreases |es|
  {
    if es == [] then 0 else (if Rejects(g, es[0]) then 1 else 0) + Rejections(Next(g, es[0]), es[1..])
  }

  /** How many calls of a run return a token. */
  function Pairings(g: Guard, es: seq<Event>): nat
    decreases |es|
  {
    if es == [] then 0 else (if Pairs(g, es[0]) then 1 else 0) + Pairings(Next(g, es[0]), es[1..])
  }

  // ----- lockout -----

  /** The counter and the lock time of a guard that serves one call at a time. */
  predicate ValidAttempts(a: Attempts) {
    a.count <= MAX_PAIR_ATTEMPTS && (a.lockedAt.Some? <==> a.count == MAX_PAIR_ATTEMPTS)
  }

  /** What one call does to the counter. */
  lemma StepOnAttempts(g: Guard, e: Event)
    ensures !e.call.TryPairCall? ==> Next(g, e).attempts == g.attempts && !Rejects(g, e) && !Pairs(g, e)
    ensures e.call.TryPairCall? ==>
              var (locked, a) := CheckLockout(g.attempts, e.call.checkedAt);
              if locked.Some? then Next(g, e).attempts == g.attempts && !Rejects(g, e) && !Pairs(g, e)
              else if Pairs(g, e) then Next(g, e).attempts == Attempts(0, None) && !Rejects(g, e)
              else Next(g, e).attempts == CountFailure(a, e.call.failedAt) && Rejects(g, e)
  {
  }

  lemma {:induction false} RunKeepsValidAttempts(g: Guard, es: seq<Event>)
    requires ValidAttempts(g.attempts)
    ensures ValidAttempts(Run(g, es).attempts)
    decreases |es|
  {
    hide Next, Rejects, Pairs, ElapsedSecs;
    if es != [] {
      StepOnAttempts(g, es[0]);
      RunKeepsValidAttempts(Next(g, es[0]), es[1..]);
    }
  }

  const WINDOW := PAIR_LOCKOUT_SECS * NANOS_PER_SEC

  /** Five failures, the last of them less than 300 seconds ago; the clock counts nanoseconds. */
  predicate Locked(a: Attempts, instant: nat) {
    a.lockedAt.Some? && a.count >= 5 && instant < a.lockedAt.value + 300_000_000_000
  }

  /**
   A call is locked out exactly while the last of five failures is less than 300
   seconds old, then says how many whole seconds are left and changes nothing;
   otherwise it pairs exactly if it submits the code, up to white space around it.
   */
  lemma OutcomeIff(g: Guard, submitted: string, checkedAt: nat, failedAt: nat, now: nat, newToken: string,
                   writeOk: bool)
    ensures var (g', r) := TryPair(g, submitted, checkedAt, failedAt, now, newToken, writeOk);
            && (r.LockedOut? <==> Locked(g.attempts, checkedAt))
            && (r.LockedOut? ==>
                  var at := g.attempts.lockedAt.value;
                  var since := if checkedAt < at then 0 else checkedAt - at;
                  g' == g && r.seconds == 300 - since / 1_000_000_000 && 1 <= r.seconds <= 300)
            && (r.Paired? <==> !r.LockedOut? && g.code.Some? && Trim(submitted) == Trim(g.code.value))
  {
    hide Trim;
  }

  predicate MonotoneInstants(t: nat, es: seq<Event>)
    decreases |es|
  {
    es != [] ==>
      if es[0].call.TryPairCall? then
        t <= es[0].call.checkedAt <= es[0].call.failedAt && MonotoneInstants(es[0].call.failedAt, es[1..])
      else MonotoneInstants(t, es[1..])
  }

  function InstantAfter(t: nat, e: Event): nat {
    if e.call.TryPairCall? then e.call.failedAt else t
  }

  function LastInstant(t: nat, es: seq<Event>): nat
    decreases |es|
  {
    if es == [] then t
    else LastInstant(InstantAfter(t, es[0]), es[1..])
  }

  /** How many rejections a guard can still hand out between `t` and `last` without a pairing. */
  function Budget(a: Attempts, t: nat, last: nat): nat
    requires ValidAttempts(a)
  {
    match a.lockedAt
    case None => (MAX_PAIR_ATTEMPTS - a.count) + 5 * (Age(last, t) / WINDOW)
    case Some(l) =>
      var open := if t < l + WINDOW then l + WINDOW else t;
      if last < open then 0 else 5 + 5 * ((last - open) / WINDOW)
  }

  lemma LastIsLater(t: nat, es: seq<Event>)
    requires MonotoneInstants(t, es)
    ensures t <= LastInstant(t, es)
    decreases |es|
  {
  }

  lemma DivMonotone(a: nat, b: nat)
    requires a <= b
    ensures a / WINDOW <= b / WINDOW
  {
  }

  lemma BudgetShrinks(a: Attempts, t: nat, t': nat, last: nat)
    requires ValidAttempts(a) && t <= t' <= last
    ensures Budget(a, t', last) <= Budget(a, t, last)
  {
    DivMonotone(last - t', last - t);
    match a.lockedAt
    case None =>
    case Some(l) =>
      if t' >= l + WINDOW && t >= l + WINDOW {
      } else if t' >= l + WINDOW {
        DivMonotone(last - t', last - (l + WINDOW));
      }
  }

  /** An expired lockout leaves a full budget. */
  lemma ExpiredLockout(a: Attempts, instant: nat, last: nat)
    requires ValidAttempts(a) && instant <= last
    ensures var (locked, a') := CheckLockout(a, instant);
            locked.None? ==> ValidAttempts(a') && a'.count < 5 && Budget(a', instant, last) <= Budget(a, instant, last)
  {
  }

  /** The fifth wrong code closes the window for its full length. */
  lemma BudgetOfNewLock(instant: nat, last: nat)
    requires instant <= last
    ensures Budget(Attempts(5, Some(instant)), instant, last) <= 5 * ((last - instant) / WINDOW)
  {
    if last >= instant + WINDOW {
      assert (last - instant) / WINDOW == (last - (instant + WINDOW)) / WINDOW + 1;
    }
  }

  /** A rejection costs one unit of the budget; a pairing refills it by at most five. */
  lemma StepCostsBudget(g: Guard, e: Event, t: nat, last: nat)
    requires ValidAttempts(g.attempts) && t <= last
    requires e.call.TryPairCall? ==> t <= e.call.checkedAt <= e.call.failedAt <= last
    ensures ValidAttempts(Next(g, e).attempts)
    ensures Budget(Next(g, e).attempts, InstantAfter(t, e), last) + (if Rejects(g, e) then 1 else 0)
              <= Budget(g.attempts, t, last) + (if Pairs(g, e) then 5 else 0)
  {
    hide Next, Rejects, Pairs;
    StepOnAttempts(g, e);
    if e.call.TryPairCall? {
      var checkedAt, failedAt := e.call.checkedAt, e.call.failedAt;
      BudgetShrinks(g.attempts, t, checkedAt, last);
      ExpiredLockout(g.attempts, checkedAt, last);
      BudgetShrinks(g.attempts, checkedAt, failedAt, last);
      if CheckLockout(g.attempts, checkedAt).0.None? {
        BudgetShrinks(CheckLockout(g.attempts, checkedAt).1, checkedAt, failedAt, last);
      }
      BudgetOfNewLock(failedAt, last);
    }
  }

  lemma {:induction false} RejectionsWithinBudget(g: Guard, es: seq<Event>, t: nat)
    requires ValidAttempts(g.attempts) && MonotoneInstants(t, es)
    ensures Rejections(g, es) <= Budget(g.attempts, t, LastInstant(t, es)) + 5 * Pairings(g, es)
    decreases |es|
  {
    hide Next, Budget, Rejects, Pairs;
    if es != [] {
      var t' := InstantAfter(t, es[0]);
      LastIsLater(t', es[1..]);
      StepCostsBudget(g, es[0], t, LastInstant(t, es));
      RejectionsWithinBudget(Next(g, es[0]), es[1..], t');
    }
  }

  lemma BudgetBound(a: Attempts, t: nat, last: nat)
    requires ValidAttempts(a) && t <= last
    ensures Budget(a, t, last) <= 5 * ((last - t) / WINDOW + 1)
  {
    if a.lockedAt.Some? {
      var open := if t < a.lockedAt.value + WINDOW then a.lockedAt.value + WINDOW else t;
      if last >= open {
        DivMonotone(last - open, last - t);
      }
    }
  }

  /** From any reachable state: at most five wrong codes per started lockout window, and five more per pairing. */
  lemma RejectionRate(g: Guard, es: seq<Event>, t: nat)
    requires ValidAttempts(g.attempts) && MonotoneInstants(t, es)
    ensures t <= LastInstant(t, es)
    ensures Rejections(g, es) <= 5 * ((LastInstant(t, es) - t) / 300_000_000_000 + 1) + 5 * Pairings(g, es)
  {
    hide Budget, Rejections, Pairings;
    LastIsLater(t, es);
    RejectionsWithinBudget(g, es, t);
    BudgetBound(g.attempts, t, LastInstant(t, es));
  }

  lemma PairingConsumesCode(g: Guard, e: Event)
    ensures Pairs(g, e) ==> g.code.Some? && Next(g, e).code.None?
    ensures g.code.None? ==> Next(g, e).code.None?
  {
  }

  /** A guard pairs at most once in its life. */
  lemma {:induction false} PairsAtMostOnce(g: Guard, es: seq<Event>)
    ensures Pairings(g, es) <= if g.code.Some? then 1 else 0
    decreases |es|
  {
    hide Next, Pairs;
    if es != [] {
      PairingConsumesCode(g, es[0]);
      PairsAtMostOnce(Next(g, es[0]), es[1..]);
    }
  }

  // ----- acceptance -----

  /** Exactly which tokens a call accepts: at age `ttl` it depends on the other tokens stored. */
  lemma AcceptedIff(g: Guard, token: string, now: nat, writeOk: bool)
    ensures var h := g.hash(token);
            IsAccepted(g, token, now, writeOk).1 <==>
              && token != "" && h in g.tokens
              && (g.ttl == 0 || now < g.tokens[h] + g.ttl
                  || (now == g.tokens[h] + g.ttl && forall k :: k in g.tokens ==> now <= g.tokens[k] + g.ttl))
  {
  }

  /** The calls that drop tokens keep exactly the younger ones, with their times. */
  lemma PrunedIff(g: Guard, now: nat, writeOk: bool, h: string)
    requires g.ttl > 0
    ensures var kept := Prune(g, now, writeOk).tokens;
            && (h in kept <==> h in g.tokens && now < g.tokens[h] + g.ttl)
            && (h in kept ==> kept[h] == g.tokens[h])
  {
  }

  /**
   The read path keeps a token of age `ttl`, the write path drops it: with the
   same token stored at the same time one guard accepts it and another, which
   stores one older hash more, does not.
   */
  lemma PathsDifferAtTtl(g: Guard, token: string, now: nat, other: string, writeOk: bool)
    requires token != "" && 0 < g.ttl < now && other != g.hash(token)
    ensures var alone := g.(tokens := map[g.hash(token) := now - g.ttl]);
            var beside := g.(tokens := map[g.hash(token) := now - g.ttl, other := now - g.ttl - 1]);
            IsAccepted(alone, token, now, writeOk).1 && !IsAccepted(beside, token, now, writeOk).1
  {
    var beside := g.(tokens := map[g.hash(token) := now - g.ttl, other := now - g.ttl - 1]);
    assert other in beside.tokens && Age(now, beside.tokens[other]) > g.ttl;
    AcceptedIff(beside, token, now, writeOk);
  }

  /** A call forgets a token it rejects. */
  lemma RejectedIsGone(g: Guard, token: string, now: nat, writeOk: bool)
    requires token != ""
    ensures var (g', accepted) := IsAccepted(g, token, now, writeOk);
            !accepted ==> g.hash(token) !in g'.tokens
  {
  }

  predicate PairsHash(g: Guard, e: Event, h: string) {
    Pairs(g, e) && g.hash(e.call.newToken) == h
  }

  predicate RunPairsHash(g: Guard, es: seq<Event>, h: string)
    decreases |es|
  {
    es != [] && (PairsHash(g, es[0], h) || RunPairsHash(Next(g, es[0]), es[1..], h))
  }

  lemma RetainShrinks(tokens: map<string, nat>, now: nat, ttl: nat, h: string)
    ensures h in Retain(tokens, now, ttl) ==> h in tokens
  {
  }

  ghost predicate SameButFile(g: Guard, g': Guard) {
    g == g'.(storage := g.storage)
  }

  lemma PersistWritesFile(g: Guard, writeOk: bool)
    ensures SameButFile(Persist(g, writeOk), g)
  {
  }

  lemma OnlyPairingInserts(g: Guard, e: Event, h: string)
    requires h !in g.tokens && !PairsHash(g, e, h)
    ensures h !in Next(g, e).tokens && Next(g, e).hash == g.hash && Next(g, e).ttl == g.ttl
  {
    hide CheckLockout, CountFailure, CodeMatches, HasExpired, Retain, Persist;
    RetainShrinks(g.tokens, e.now, g.ttl, h);
    forall changed, writeOk
      ensures SameButFile(Persist(changed, writeOk), changed)
    {
      PersistWritesFile(changed, writeOk);
    }
  }

  /** A rejected token stays rejected, whatever the clock does, until a pairing stores its hash again. */
  lemma {:induction false} RejectedStaysRejected(g: Guard, es: seq<Event>, token: string, now: nat, writeOk: bool)
    requires g.hash(token) !in g.tokens && !RunPairsHash(g, es, g.hash(token))
    ensures g.hash(token) !in Run(g, es).tokens
    ensures !IsAccepted(Run(g, es), token, now, writeOk).1
    decreases |es|
  {
    hide Next, PairsHash;
    if es != [] {
      OnlyPairingInserts(g, es[0], g.hash(token));
      RejectedStaysRejected(Next(g, es[0]), es[1..], token, now, writeOk);
    }
  }

  /** A revocation is final: no token is accepted after it before a pairing stores its hash. */
  lemma RevokedStaysRejected(g: Guard, writeOk: bool, es: seq<Event>, token: string, now: nat, writeOk': bool)
    requires !RunPairsHash(RevokeAll(g, writeOk), es, g.hash(token))
    ensures !IsAccepted(Run(RevokeAll(g, writeOk), es), token, now, writeOk').1
  {
    hide IsAccepted, Run, RunPairsHash;
    RejectedStaysRejected(RevokeAll(g, writeOk), es, token, now, writeOk');
  }

  /** The calls revoke nothing and read clocks at which a token issued at `issuedAt` is younger than the ttl. */
  predicate SparesToken(es: seq<Event>, issuedAt: nat, ttl: nat) {
    forall i :: 0 <= i < |es| ==> !es[i].call.RevokeAllCall? && Age(es[i].now, issuedAt) < ttl
  }

  lemma RetainKeepsYoung(tokens: map<string, nat>, now: nat, ttl: nat, h: string)
    ensures h in tokens && Age(now, tokens[h]) < ttl ==>
              h in Retain(tokens, now, ttl) && Retain(tokens, now, ttl)[h] == tokens[h]
  {
  }

  lemma StepSparesYoung(g: Guard, e: Event, h: string)
    requires h in g.tokens && !PairsHash(g, e, h)
    requires !e.call.RevokeAllCall? && Age(e.now, g.tokens[h]) < g.ttl
    ensures h in Next(g, e).tokens && Next(g, e).tokens[h] == g.tokens[h]
    ensures Next(g, e).hash == g.hash && Next(g, e).ttl == g.ttl
  {
    hide CheckLockout, CountFailure, CodeMatches, HasExpired, Retain, Persist;
    RetainKeepsYoung(g.tokens, e.now, g.ttl, h);
    forall changed, writeOk
      ensures SameButFile(Persist(changed, writeOk), changed)
    {
      PersistWritesFile(changed, writeOk);
    }
  }

  lemma {:induction false} RunSparesYoung(g: Guard, es: seq<Event>, h: string)
    requires h in g.tokens && !RunPairsHash(g, es, h) && SparesToken(es, g.tokens[h], g.ttl)
    ensures h in Run(g, es).tokens && Run(g, es).tokens[h] == g.tokens[h]
    ensures Run(g, es).hash == g.hash && Run(g, es).ttl == g.ttl
    decreases |es|
  {
    hide Next, PairsHash;
    if es != [] {
      StepSparesYoung(g, es[0], h);
      RunSparesYoung(Next(g, es[0]), es[1..], h);
    }
  }

  lemma {:induction false} NoCodeNoHash(g: Guard, es: seq<Event>, h: string)
    requires g.code.None?
    ensures !RunPairsHash(g, es, h)
    decreases |es|
  {
    hide Next, Pairs;
    if es != [] {
      PairingConsumesCode(g, es[0]);
      NoCodeNoHash(Next(g, es[0]), es[1..], h);
    }
  }

  lemma PairedState(g: Guard, submitted: string, checkedAt: nat, failedAt: nat, now: nat, newToken: string,
                    writeOk: bool)
    ensures var (g', r) := TryPair(g, submitted, checkedAt, failedAt, now, newToken, writeOk);
            r.Paired? ==>
              && r.token == newToken && g'.code.None? && g'.hash == g.hash && g'.ttl == g.ttl
              && g'.tokens == g.tokens[g.hash(newToken) := now]
  {
    hide Trim, ElapsedSecs;
  }

  /**
   The token a pairing returns is accepted for the whole of its lifetime, through
   any calls but a revocation; the other tokens stay as they are.
   */
  lemma PairedTokenIsAccepted(g: Guard, submitted: string, checkedAt: nat, failedAt: nat, now: nat, newToken: string,
                              writeOk: bool, es: seq<Event>, later: nat, writeOk': bool, h: string)
    requires newToken != "" && TryPair(g, submitted, checkedAt, failedAt, now, newToken, writeOk).1.Paired?
    requires SparesToken(es, now, g.ttl) && Age(later, now) < g.ttl
    ensures var (g', r) := TryPair(g, submitted, checkedAt, failedAt, now, newToken, writeOk);
            && r.token == newToken
            && IsAccepted(Run(g', es), r.token, later, writeOk').1
            && (h != g.hash(newToken) ==> (h in g'.tokens <==> h in g.tokens))
            && (h != g.hash(newToken) && h in g.tokens ==> g'.tokens[h] == g.tokens[h])
  {
    var (g', r) := TryPair(g, submitted, checkedAt, failedAt, now, newToken, writeOk);
    PairedState(g, submitted, checkedAt, failedAt, now, newToken, writeOk);
    NoCodeNoHash(g', es, g.hash(newToken));
    RunSparesYoung(g', es, g.hash(newToken));
    AcceptedIff(Run(g', es), newToken, later, writeOk');
    hide TryPair, Run, IsAccepted, RunPairsHash, HasExpired;
  }

  // ----- the token file -----

  predicate IsHexText(c: char) {
    c in "0123456789abcdefABCDEF"
  }

  /** 32 bytes in hex. */
  predicate IsHashText(h: string) {
    |h| == 64 && forall i :: 0 <= i < |h| ==> IsHexText(h[i])
  }

  predicate InSync(g: Guard) {
    g.storage.Some? ==> g.storage == Some(Readable(g.tokens))
  }

  /** A write that fails leaves the old file, whatever the call. */
  lemma FailedWriteKeepsFile(g: Guard, e: Event)
    requires !e.writeOk
    ensures Next(g, e).storage == g.storage
  {
  }

  /** A new guard starts with a zero counter, and in sync if its first write succeeds. */
  lemma NewGuardStarts(requirePairing: bool, existing: seq<string>, ttl: Option<nat>, storage: Option<FileContent>,
                       hash: Hash, now: nat, newCode: string, writeOk: bool)
    ensures var g := NewGuard(requirePairing, existing, ttl, storage, hash, now, newCode, writeOk);
            && g.requirePairing == requirePairing && g.ttl == EffectiveTtl(ttl) && g.hash == hash
            && g.attempts == Attempts(0, None)
            && (writeOk ==> InSync(g)) && (!writeOk ==> g.storage == storage)
            && g.code == (if requirePairing && g.tokens == map[] then Some(newCode) else None)
  {
  }

  /** Configured hashes join with the current time; a hash loaded from the file keeps its own. */
  lemma {:induction false} SeedMeaning(tokens: map<string, nat>, existing: seq<string>, now: nat, h: string)
    ensures var seeded := Seed(tokens, existing, now);
            && (h in seeded <==> h in tokens || h in existing)
            && (h in seeded ==> seeded[h] == if h in tokens then tokens[h] else now)
    decreases |existing|
  {
    if existing != [] {
      var k := existing[0];
      SeedMeaning(if k in tokens then tokens else tokens[k := now], existing[1..], now, h);
    }
  }

  /** So from a guard just built no more than 5(T/300 + 2) wrong codes are looked at in T seconds. */
  lemma NewGuardRejectionRate(requirePairing: bool, existing: seq<string>, ttl: Option<nat>,
                              storage: Option<FileContent>, hash: Hash, now: nat, newCode: string, writeOk: bool,
                              es: seq<Event>, t: nat)
    requires MonotoneInstants(t, es)
    ensures var g := NewGuard(requirePairing, existing, ttl, storage, hash, now, newCode, writeOk);
            t <= LastInstant(t, es) && Rejections(g, es) <= 5 * ((LastInstant(t, es) - t) / 300_000_000_000 + 2)
  {
    NewGuardStarts(requirePairing, existing, ttl, storage, hash, now, newCode, writeOk);
    var g := NewGuard(requirePairing, existing, ttl, storage, hash, now, newCode, writeOk);
    hide NewGuard, Rejections, Pairings;
    RejectionRate(g, es, t);
    PairsAtMostOnce(g, es);
  }

  lemma RetainSameSize(tokens: map<string, nat>, now: nat, ttl: nat)
    ensures |Retain(tokens, now, ttl)| == |tokens| ==> Retain(tokens, now, ttl) == tokens
  {
    var kept := Retain(tokens, now, ttl);
    assert kept.Keys <= tokens.Keys;
    if kept.Keys != tokens.Keys {
      assert |tokens.Keys - kept.Keys| == |tokens.Keys| - |kept.Keys|;
    }
  }

  lemma StepKeepsSync(g: Guard, e: Event)
    requires InSync(g) && e.writeOk
    ensures InSync(Next(g, e))
    ensures Next(g, e).storage.Some? <==> g.storage.Some?
  {
    RetainSameSize(g.tokens, e.now, g.ttl);
  }

  /** With every write done, the file holds the token map after every call. */
  lemma {:induction false} RunKeepsSync(g: Guard, es: seq<Event>)
    requires InSync(g)
    requires forall i :: 0 <= i < |es| ==> es[i].writeOk
    ensures InSync(Run(g, es))
    ensures Run(g, es).storage.Some? <==> g.storage.Some?
    decreases |es|
  {
    hide Next;
    if es != [] {
      StepKeepsSync(g, es[0]);
      RunKeepsSync(Next(g, es[0]), es[1..]);
    }
  }

  /** A run with every write done, then a restart on its file without configured tokens. */
  function Restart(g: Guard, es: seq<Event>, requirePairing: bool, ttl: Option<nat>, now: nat, newCode: string,
                   writeOk: bool): Guard
  {
    NewGuard(requirePairing, [], ttl, Run(g, es).storage, g.hash, now, newCode, writeOk)
  }

  lemma HexDigitListed(c: char)
    ensures IsHexDigit(c) <==> IsHexText(c)
  {
  }

  lemma StoredHashIff(h: string)
    ensures IsStoredHash(h) <==> IsHashText(h)
  {
    hide IsHexDigit, IsHexText;
    forall i | 0 <= i < |h|
      ensures IsHexDigit(h[i]) <==> IsHexText(h[i])
    {
      HexDigitListed(h[i]);
    }
  }

  /** What outlives a restart: a hash of 64 hex digits, younger than the ttl. */
  predicate Survives(tokens: map<string, nat>, h: string, ttl: nat, now: nat) {
    h in tokens && IsHashText(h) && now < tokens[h] + ttl
  }

  lemma RestartTokens(g: Guard, es: seq<Event>, requirePairing: bool, ttl: Option<nat>, now: nat, newCode: string,
                      writeOk: bool)
    requires InSync(g) && g.storage.Some? && forall i :: 0 <= i < |es| ==> es[i].writeOk
    ensures var tokens := Run(g, es).tokens;
            (Restart(g, es, requirePairing, ttl, now, newCode, writeOk).tokens
             == map h | h in tokens && Survives(tokens, h, EffectiveTtl(ttl), now) :: tokens[h])
  {
    hide Run, IsStoredHash, IsHashText;
    RunKeepsSync(g, es);
    forall h: string
      ensures IsStoredHash(h) <==> IsHashText(h)
    {
      StoredHashIff(h);
    }
  }

  /** A restart accepts exactly the well-formed stored hashes that are still young enough. */
  lemma RestartAccepts(g: Guard, es: seq<Event>, requirePairing: bool, ttl: Option<nat>, now: nat, newCode: string,
                       token: string, writeOk: bool, writeOk': bool)
    requires InSync(g) && g.storage.Some? && forall i :: 0 <= i < |es| ==> es[i].writeOk
    ensures var restarted := Restart(g, es, requirePairing, ttl, now, newCode, writeOk);
            IsAccepted(restarted, token, now, writeOk').1 <==>
            token != "" && Survives(Run(g, es).tokens, g.hash(token), EffectiveTtl(ttl), now)
  {
    hide Run, IsHashText;
    RestartTokens(g, es, requirePairing, ttl, now, newCode, writeOk);
  }

  /** It issues a pairing code exactly when pairing is required and no stored token survives. */
  lemma RestartIssuesCode(g: Guard, es: seq<Event>, requirePairing: bool, ttl: Option<nat>, now: nat,
                          newCode: string, writeOk: bool)
    requires InSync(g) && g.storage.Some? && forall i :: 0 <= i < |es| ==> es[i].writeOk
    ensures Restart(g, es, requirePairing, ttl, now, newCode, writeOk).code.Some? <==>
            requirePairing && forall h :: !Survives(Run(g, es).tokens, h, EffectiveTtl(ttl), now)
  {
    hide Run, IsHashText;
    RestartTokens(g, es, requirePairing, ttl, now, newCode, writeOk);
    var restarted := Restart(g, es, requirePairing, ttl, now, newCode, writeOk);
    if restarted.tokens != map[] {
      var h :| h in restarted.tokens;
      assert Survives(Run(g, es).tokens, h, EffectiveTtl(ttl), now);
    } else {
      forall h
        ensures !Survives(Run(g, es).tokens, h, EffectiveTtl(ttl), now)
      {
        assert h !in restarted.tokens;
      }
    }
  }
}
