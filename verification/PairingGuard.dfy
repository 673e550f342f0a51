/** The guard object of src/security/pairing.rs, its token file, and the two loops beside it. */
module PairingGuards {
  import opened Strings
  import opened Pairing

  /** The file at the storage path; a rename replaces its content in one step. */
  class TokenFile {
    var content: FileContent

    constructor (content: FileContent)
      ensures this.content == content
    {
      this.content := content;
    }
  }

  ghost predicate Injective(utf8: string -> seq<bv8>) {
    forall a, b :: utf8(a) == utf8(b) ==> a == b
  }

  function ByteAt(s: seq<bv8>, i: nat): bv8 {
    if i < |s| then s[i] else 0
  }

  lemma OrXorIsZero(acc: bv8, x: bv8, y: bv8)
    ensures acc | (x ^ y) == 0 <==> acc == 0 && x == y
  {
  }

  /** Compares without an early exit; the longer input sets the number of turns. */
  method ConstantTimeEq(a: seq<bv8>, b: seq<bv8>) returns (equal: bool)
    ensures equal <==> a == b
  {
    var maxLen := if |a| >= |b| then |a| else |b|;
    var acc: bv8 := 0;
    for i := 0 to maxLen
      invariant acc == 0 <==> forall j :: 0 <= j < i ==> ByteAt(a, j) == ByteAt(b, j)
    {
      var x, y := ByteAt(a, i), ByteAt(b, i);
      OrXorIsZero(acc, x, y);
      acc := acc | (x ^ y);
    }
    equal := |a| == |b| && acc == 0;
    if equal {
      forall j | 0 <= j < |a|
        ensures a[j] == b[j]
      {
        assert ByteAt(a, j) == ByteAt(b, j);
      }
    }
  }

  class PairingGuard {
    const requirePairing: bool
    const tokenTtlSecs: nat
    const hash: Hash
    const utf8: string -> seq<bv8>
    const storage: TokenFile?
    var pairingCode: Option<string>
    var pairedTokens: map<string, nat>
    var failedAttempts: Attempts

    ghost predicate Valid()
      reads this
    {
      Injective(utf8)
    }

    /** The guard and its file as one value. */
    ghost function View(): Guard
      reads this, storage
    {
      Guard(requirePairing, tokenTtlSecs, hash, pairingCode, pairedTokens, failedAttempts,
            if storage == null then None else Some(storage.content))
    }

    constructor (requirePairing: bool, existing: seq<string>, ttl: Option<nat>, storage: TokenFile?,
                 hash: Hash, utf8: string -> seq<bv8>, now: nat, newCode: string, writeOk: bool)
      requires Injective(utf8)
      modifies storage
      ensures Valid() && this.storage == storage
      ensures View() == NewGuard(requirePairing, existing, ttl,
                                 old(if storage == null then None else Some(storage.content)),
                                 hash, now, newCode, writeOk)
    {
      var ttlSecs := EffectiveTtl(ttl);
      var tokens: map<string, nat> := if storage == null then map[] else Load(storage.content);
      ghost var loaded := tokens;
      for i := 0 to |existing|
        invariant Seed(tokens, existing[i..], now) == Seed(loaded, existing, now)
      {
        assert existing[i..][1..] == existing[i + 1..];
        if existing[i] !in tokens {
          tokens := tokens[existing[i] := now];
        }
      }
      tokens := Retain(tokens, now, ttlSecs);
      this.requirePairing := requirePairing;
      this.tokenTtlSecs := ttlSecs;
      this.hash := hash;
      this.utf8 := utf8;
      this.storage := storage;
      this.pairingCode := if requirePairing && tokens == map[] then Some(newCode) else None;
      this.pairedTokens := tokens;
      this.failedAttempts := Attempts(0, None);
      new;
      PersistTokens(writeOk);
    }

    method PersistTokens(writeOk: bool)
      modifies storage
      ensures View() == Persist(old(View()), writeOk)
    {
      if storage == null {
        return;
      }
      if writeOk {
        storage.content := Readable(pairedTokens);
      }
    }

    method CheckCode(submitted: string) returns (same: bool)
      requires Valid()
      ensures same <==> CodeMatches(pairingCode, submitted)
    {
      if pairingCode.None? {
        return false;
      }
      same := ConstantTimeEq(utf8(Trim(submitted)), utf8(Trim(pairingCode.value)));
    }

    method TryPair(submitted: string, checkedAt: nat, failedAt: nat, now: nat, newToken: string, writeOk: bool)
      returns (r: PairResult)
      requires Valid()
      modifies this, storage
      ensures Valid()
      ensures (View(), r) == Pairing.TryPair(old(View()), submitted, checkedAt, failedAt, now, newToken, writeOk)
    {
      hide CodeMatches, Injective, ElapsedSecs;
      if failedAttempts.lockedAt.Some? && failedAttempts.count >= MAX_PAIR_ATTEMPTS {
        var elapsed := ElapsedSecs(failedAttempts.lockedAt.value, checkedAt);
        if elapsed < PAIR_LOCKOUT_SECS {
          return LockedOut(PAIR_LOCKOUT_SECS - elapsed);
        }
        failedAttempts := Attempts(0, None);
      }

      var same := CheckCode(submitted);
      if same {
        failedAttempts := Attempts(0, None);
        pairedTokens := pairedTokens[hash(newToken) := now];
        PersistTokens(writeOk);
        pairingCode := None;
        return Paired(newToken);
      }

      var count := failedAttempts.count + 1;
      failedAttempts := Attempts(count, if count >= MAX_PAIR_ATTEMPTS then Some(failedAt) else failedAttempts.lockedAt);
      return Rejected;
    }

    method IsAcceptedToken(token: string, now: nat, writeOk: bool) returns (accepted: bool)
      requires Valid()
      modifies this, storage
      ensures Valid()
      ensures (View(), accepted) == IsAccepted(old(View()), token, now, writeOk)
    {
      if token == "" {
        return false;
      }
      var hashed := hash(token);
      if !HasExpired(pairedTokens, now, tokenTtlSecs) {
        return hashed in pairedTokens;
      }
      var before := |pairedTokens|;
      pairedTokens := Retain(pairedTokens, now, tokenTtlSecs);
      accepted := hashed in pairedTokens;
      if |pairedTokens| != before {
        PersistTokens(writeOk);
      }
    }

    method IsAuthenticated(token: string, now: nat, writeOk: bool) returns (granted: bool)
      requires Valid()
      modifies this, storage
      ensures Valid()
      ensures requirePairing ==> (View(), granted) == IsAccepted(old(View()), token, now, writeOk)
      ensures !requirePairing ==> granted && View() == old(View())
    {
      if !requirePairing {
        return true;
      }
      granted := IsAcceptedToken(token, now, writeOk);
    }

    method IsPaired(now: nat, writeOk: bool) returns (paired: bool)
      requires Valid()
      modifies this, storage
      ensures Valid()
      ensures View() == Prune(old(View()), now, writeOk)
      ensures paired <==> exists h :: h in old(pairedTokens) && Age(now, old(pairedTokens)[h]) < tokenTtlSecs
    {
      var hashes := Tokens(now, writeOk);
      paired := hashes != {};
      if paired {
        var h :| h in hashes;
      }
    }

    method Tokens(now: nat, writeOk: bool) returns (hashes: set<string>)
      requires Valid()
      modifies this, storage
      ensures Valid()
      ensures View() == Prune(old(View()), now, writeOk)
      ensures forall h :: h in hashes <==> h in old(pairedTokens) && Age(now, old(pairedTokens)[h]) < tokenTtlSecs
    {
      var before := |pairedTokens|;
      pairedTokens := Retain(pairedTokens, now, tokenTtlSecs);
      hashes := pairedTokens.Keys;
      if |pairedTokens| != before {
        PersistTokens(writeOk);
      }
    }

    method RevokeAll(writeOk: bool)
      requires Valid()
      modifies this, storage
      ensures Valid()
      ensures View() == Pairing.RevokeAll(old(View()), writeOk)
    {
      pairedTokens := map[];
      PersistTokens(writeOk);
    }
  }
}
