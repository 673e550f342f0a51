/** A pairing guard from its construction on: the tokens it starts with, the drawn code, five wrong codes, a restart. */
module PairingStarts {
  import opened Strings
  import opened Pairing
  import opened PairingCode

  /** What a guard is built from. */
  datatype Setup = Setup(
    existing: seq<string>,
    ttl: Option<nat>,
    storage: Option<FileContent>,
    hash: Hash,
    now: nat,
    writeOk: bool)

  function Built(s: Setup, requirePairing: bool, code: string): Guard {
    NewGuard(requirePairing, s.existing, s.ttl, s.storage, s.hash, s.now, code, s.writeOk)
  }

  // ----- the tokens it starts with -----

  /** The file holds this hash in a form that is read. */
  predicate Stored(s: Setup, h: string) {
    s.storage.Some? && s.storage.value.Readable? && h in s.storage.value.tokens && IsHashText(h)
  }

  /** A stored hash counts while it is younger than the ttl, configured again or not; a configured one joins now. */
  predicate Live(s: Setup, h: string) {
    if Stored(s, h) then s.now < s.storage.value.tokens[h] + EffectiveTtl(s.ttl) else h in s.existing
  }

  /** The guard starts with exactly the live hashes, a stored one with its own time. */
  lemma StartTokensIff(s: Setup, requirePairing: bool, code: string, h: string)
    ensures var tokens := Built(s, requirePairing, code).tokens;
            && (h in tokens <==> Live(s, h))
            && (h in tokens ==> tokens[h] == if Stored(s, h) then s.storage.value.tokens[h] else s.now)
  {
    hide IsStoredHash, IsHashText, Seed;
    StoredHashIff(h);
    SeedMeaning(if s.storage.Some? then Load(s.storage.value) else map[], s.existing, s.now, h);
  }

  ghost predicate NothingLive(s: Setup) {
    forall h :: !Live(s, h)
  }

  lemma NothingLiveIff(s: Setup, requirePairing: bool, code: string)
    ensures Built(s, requirePairing, code).tokens == map[] <==> NothingLive(s)
  {
    hide NewGuard, Live;
    var tokens := Built(s, requirePairing, code).tokens;
    forall h
      ensures h in tokens <==> Live(s, h)
    {
      StartTokensIff(s, requirePairing, code, h);
    }
    if tokens != map[] {
      var h :| h in tokens;
      assert Live(s, h);
    }
  }

  // ----- the drawn code -----

  lemma OnlyPairingTakesCode(g: Guard, e: Event)
    ensures Next(g, e).code == if Pairs(g, e) then None else g.code
  {
    hide CheckLockout, CountFailure, CodeMatches, HasExpired, Retain;
  }

  lemma {:induction false} CodeStays(g: Guard, es: seq<Event>)
    requires Pairings(g, es) == 0
    ensures Run(g, es).code == g.code
    decreases |es|
  {
    hide Next, Pairs;
    if es != [] {
      OnlyPairingTakesCode(g, es[0]);
      CodeStays(Next(g, es[0]), es[1..]);
    }
  }

  /**
   A guard that requires pairing and starts without a live token pairs, as long
   as it has not, exactly with the code it was given, up to white space around it.
   */
  lemma DrawnCodePairsIff(s: Setup, code: string, es: seq<Event>, submitted: string,
                          checkedAt: nat, failedAt: nat, now: nat, newToken: string, writeOk: bool)
    requires NothingLive(s) && Pairings(Built(s, true, code), es) == 0
    ensures var g := Run(Built(s, true, code), es);
            TryPair(g, submitted, checkedAt, failedAt, now, newToken, writeOk).1.Paired? <==>
            !Locked(g.attempts, checkedAt) && Trim(submitted) == Trim(code)
  {
    var start := Built(s, true, code);
    NothingLiveIff(s, true, code);
    assert start.code == Some(code);
    CodeStays(start, es);
    hide Built, Run, Locked, Trim, TryPair;
    OutcomeIff(Run(start, es), submitted, checkedAt, failedAt, now, newToken, writeOk);
  }

  /** A guard that does not require pairing, or starts with a live token, never pairs. */
  lemma NoCodeNoPairing(s: Setup, requirePairing: bool, code: string, es: seq<Event>)
    requires !requirePairing || !NothingLive(s)
    ensures Pairings(Built(s, requirePairing, code), es) == 0
  {
    NothingLiveIff(s, requirePairing, code);
    PairsAtMostOnce(Built(s, requirePairing, code), es);
  }

  lemma CodeIsTrimmed(n: nat)
    requires n < UPPER_BOUND
    ensures Trim(SixDigits(n)) == SixDigits(n)
  {
    hide SixDigits;
    TrimIdentity(SixDigits(n));
  }

  /** Guards with different draws below the bound have no code in common: no one submission pairs with both. */
  lemma DifferentDrawsDifferentCodes(m: nat, n: nat, s: Setup, t: Setup, es: seq<Event>, fs: seq<Event>,
                                     submitted: string, checkedAt: nat, failedAt: nat, now: nat, newToken: string,
                                     writeOk: bool)
    requires m < 1_000_000 && n < 1_000_000 && m != n && NothingLive(s) && NothingLive(t)
    requires Pairings(Built(s, true, SixDigits(m)), es) == 0 && Pairings(Built(t, true, SixDigits(n)), fs) == 0
    ensures var g, h := Run(Built(s, true, SixDigits(m)), es), Run(Built(t, true, SixDigits(n)), fs);
            !(TryPair(g, submitted, checkedAt, failedAt, now, newToken, writeOk).1.Paired?
              && TryPair(h, submitted, checkedAt, failedAt, now, newToken, writeOk).1.Paired?)
  {
    hide Built, Run, Locked, Trim, TryPair, NothingLive, SixDigits, Pairings;
    DrawnCodePairsIff(s, SixDigits(m), es, submitted, checkedAt, failedAt, now, newToken, writeOk);
    DrawnCodePairsIff(t, SixDigits(n), fs, submitted, checkedAt, failedAt, now, newToken, writeOk);
    CodeIsTrimmed(m);
    CodeIsTrimmed(n);
    if SixDigits(m) == SixDigits(n) {
      SixDigitsInjective(m, n);
    }
  }

  // ----- five wrong codes -----

  predicate WrongCode(g: Guard, e: Event) {
    e.call.TryPairCall? && (g.code.None? || Trim(e.call.submitted) != Trim(g.code.value))
  }

  lemma WrongCodeCounts(g: Guard, e: Event)
    requires WrongCode(g, e) && g.attempts.lockedAt.None? && g.attempts.count < 5
    ensures Rejects(g, e) && Next(g, e).code == g.code
    ensures Next(g, e).attempts.count == g.attempts.count + 1
    ensures Next(g, e).attempts.lockedAt == if g.attempts.count == 4 then Some(e.call.failedAt) else None
  {
    hide Trim;
  }

  /** From a zero counter on, the first five wrong codes are looked at, and the fifth sets the lock time. */
  lemma {:induction false} WrongCodesCount(g: Guard, es: seq<Event>)
    requires g.attempts.lockedAt.None? && g.attempts.count + |es| <= 5
    requires forall i :: 0 <= i < |es| ==> es[i].call.TryPairCall? && WrongCode(g, es[i])
    ensures Rejections(g, es) == |es| && Run(g, es).code == g.code
    ensures Run(g, es).attempts.count == g.attempts.count + |es|
    ensures Run(g, es).attempts.lockedAt
         == if es != [] && g.attempts.count + |es| == 5 then Some(es[|es| - 1].call.failedAt) else None
    decreases |es|
  {
    hide Next, Rejects, Trim;
    if es != [] {
      WrongCodeCounts(g, es[0]);
      if |es| > 1 {
        assert es[|es| - 1] == es[1..][|es| - 2];
        WrongCodesCount(Next(g, es[0]), es[1..]);
      } else {
        assert es[1..] == [];
      }
    }
  }

  /**
   Four wrong codes lock nobody out; after the fifth every call is locked out,
   right code or wrong, until 300 seconds have passed, and none is after that.
   */
  lemma FifthWrongCodeLocks(g: Guard, es: seq<Event>, submitted: string,
                            checkedAt: nat, failedAt: nat, now: nat, newToken: string, writeOk: bool)
    requires g.attempts == Attempts(0, None) && |es| <= 5
    requires forall i :: 0 <= i < |es| ==> es[i].call.TryPairCall? && WrongCode(g, es[i])
    ensures TryPair(Run(g, es), submitted, checkedAt, failedAt, now, newToken, writeOk).1.LockedOut? <==>
            |es| == 5 && checkedAt < es[4].call.failedAt + 300_000_000_000
  {
    hide Run, TryPair, WrongCode;
    WrongCodesCount(g, es);
    OutcomeIff(Run(g, es), submitted, checkedAt, failedAt, now, newToken, writeOk);
  }

  // ----- a restart on the same file -----

  lemma PairedThenRun(g: Guard, submitted: string, checkedAt: nat, failedAt: nat, now: nat, newToken: string,
                      es: seq<Event>)
    requires InSync(g) && TryPair(g, submitted, checkedAt, failedAt, now, newToken, true).1.Paired?
    requires SparesToken(es, now, g.ttl)
    ensures var g' := TryPair(g, submitted, checkedAt, failedAt, now, newToken, true).0;
            && InSync(g') && g'.hash == g.hash && (g'.storage.Some? <==> g.storage.Some?)
            && g.hash(newToken) in Run(g', es).tokens && Run(g', es).tokens[g.hash(newToken)] == now
  {
    var g' := TryPair(g, submitted, checkedAt, failedAt, now, newToken, true).0;
    PairedState(g, submitted, checkedAt, failedAt, now, newToken, true);
    StepKeepsSync(g, Event(TryPairCall(submitted, checkedAt, failedAt, newToken), now, true));
    NoCodeNoHash(g', es, g.hash(newToken));
    RunSparesYoung(g', es, g.hash(newToken));
    hide TryPair, Run;
  }

  /** A token handed out is still accepted after a restart with the same file, within its lifetime there. */
  lemma PairedTokenSurvivesRestart(g: Guard, submitted: string, checkedAt: nat, failedAt: nat, now: nat,
                                   newToken: string, es: seq<Event>, requirePairing: bool, ttl: Option<nat>,
                                   later: nat, code: string, writeOk: bool, writeOk': bool)
    requires newToken != "" && InSync(g) && g.storage.Some? && IsHashText(g.hash(newToken))
    requires TryPair(g, submitted, checkedAt, failedAt, now, newToken, true).1.Paired?
    requires SparesToken(es, now, g.ttl) && forall i :: 0 <= i < |es| ==> es[i].writeOk
    requires later < now + EffectiveTtl(ttl)
    ensures var g' := TryPair(g, submitted, checkedAt, failedAt, now, newToken, true).0;
            var restarted := Restart(g', es, requirePairing, ttl, later, code, writeOk);
            IsAccepted(restarted, newToken, later, writeOk').1
  {
    hide Run, TryPair, IsHashText, SparesToken, IsAccepted, Restart;
    var g' := TryPair(g, submitted, checkedAt, failedAt, now, newToken, true).0;
    PairedThenRun(g, submitted, checkedAt, failedAt, now, newToken, es);
    RestartAccepts(g', es, requirePairing, ttl, later, code, newToken, writeOk, writeOk');
  }
}
