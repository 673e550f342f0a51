/** The token file of the pairing guard under any number of threads: when it agrees with the map, and when not. */
module PairingFiles {
  import opened Strings
  import opened PairingThreads
  import Pairing

  // ----- saves that no change overtakes -----

  /** The step writes its snapshot. */
  predicate WritesFile(s: State, t: nat) {
    t < |s.pcs| && s.pcs[t].Writing?
  }

  /** The step changes the token map. */
  predicate ChangesTokens(cfg: Config, s: State, t: nat, e: Env) {
    Step(cfg, s, t, e).0.mem.tokens != s.mem.tokens
  }

  predicate IsWriting(pc: Pc) {
    pc.Writing?
  }

  predicate WritesDone(cfg: Config, s: State, schedule: Schedule)
    decreases |schedule|
  {
    schedule != [] ==>
      var (t, e) := schedule[0];
      (WritesFile(s, t) ==> e.writeOk) && WritesDone(cfg, Step(cfg, s, t, e).0, schedule[1..])
  }

  /** The map does not change while a snapshot waits to be written. */
  predicate Undisturbed(cfg: Config, s: State, schedule: Schedule)
    decreases |schedule|
  {
    schedule != [] ==>
      var (t, e) := schedule[0];
      && (ChangesTokens(cfg, s, t, e) ==> Nobody(s.pcs, IsWriting))
      && Undisturbed(cfg, Step(cfg, s, t, e).0, schedule[1..])
  }

  /** A snapshot on its way is the map, and so is the file unless a save is still to come. */
  ghost predicate FileFollows(s: State) {
    && (forall i :: 0 <= i < |s.pcs| && s.pcs[i].Writing? ==> s.pcs[i].snapshot == s.mem.tokens)
    && (s.mem.file == Pairing.Readable(s.mem.tokens) || exists i :: 0 <= i < |s.pcs| && Saves(s.pcs[i]))
  }

  /** What a step does to the map, the file and the save it belongs to. */
  lemma MoveOnFile(cfg: Config, pc: Pc, m: Shared, e: Env)
    requires pc.Writing? ==> e.writeOk
    ensures var (pc', m', r) := Move(cfg, pc, m, e);
            && (m'.tokens != m.tokens ==> WritesTokens(pc) && Saves(pc') && !pc'.Writing?)
            && (Saves(pc) ==> m'.tokens == m.tokens)
            && (pc.Writing? ==> m'.file == Pairing.Readable(pc.snapshot) && m'.tokens == m.tokens)
            && (!pc.Writing? ==> m'.file == m.file && (Saves(pc) ==> Saves(pc')))
            && (pc'.Writing? ==> pc'.snapshot == m'.tokens)
  {
    hide Pairing.CheckLockout, Pairing.CountFailure, Pairing.CodeMatches, Pairing.HasExpired, Pairing.Retain;
    if pc.InWrite? && !pc.call.Revoke? {
      Pairing.RetainSameSize(m.tokens, pc.call.now, cfg.ttl);
    }
  }

  lemma StepKeepsFileFollows(cfg: Config, s: State, t: nat, e: Env)
    requires FileFollows(s) && (WritesFile(s, t) ==> e.writeOk)
    requires ChangesTokens(cfg, s, t, e) ==> Nobody(s.pcs, IsWriting)
    ensures FileFollows(Step(cfg, s, t, e).0)
  {
    hide Move, Enabled, Saves;
    if t < |s.pcs| && Enabled(s.pcs, t) {
      MoveOnFile(cfg, s.pcs[t], s.mem, e);
      var s' := Step(cfg, s, t, e).0;
      var pc' := Move(cfg, s.pcs[t], s.mem, e).0;
      assert s'.pcs[t] == pc';
      if i :| 0 <= i < |s.pcs| && Saves(s.pcs[i]) {
        assert i != t ==> s'.pcs[i] == s.pcs[i];
      }
    }
  }

  lemma {:induction false} RunKeepsFileFollows(cfg: Config, s: State, schedule: Schedule)
    requires FileFollows(s) && Undisturbed(cfg, s, schedule) && WritesDone(cfg, s, schedule)
    ensures FileFollows(Run(cfg, s, schedule))
    decreases |schedule|
  {
    hide Step, FileFollows, WritesFile;
    if schedule != [] {
      var (t, e) := schedule[0];
      StepKeepsFileFollows(cfg, s, t, e);
      RunKeepsFileFollows(cfg, Step(cfg, s, t, e).0, schedule[1..]);
    }
  }

  /** While no change of the map overtakes a snapshot, the file holds the map whenever no save is under way. */
  lemma FileIsMapAtRest(cfg: Config, s: State, threads: nat, schedule: Schedule)
    requires Initial(s, threads) && s.mem.file == Pairing.Readable(s.mem.tokens)
    requires Undisturbed(cfg, s, schedule) && WritesDone(cfg, s, schedule)
    ensures var s' := Run(cfg, s, schedule);
            Nobody(s'.pcs, Saves) ==> s'.mem.file == Pairing.Readable(s'.mem.tokens)
  {
    RunKeepsFileFollows(cfg, s, schedule);
  }

  // ----- exactly when the saves under way will settle -----

  lemma RunNothing(cfg: Config, s: State)
    ensures Run(cfg, s, []) == s
  {
  }

  /** A schedule in which only calls that are saving move, and their writes succeed. */
  predicate SavesOnly(cfg: Config, s: State, schedule: Schedule)
    decreases |schedule|
  {
    schedule != [] ==>
      var (t, e) := schedule[0];
      && t < |s.pcs| && Saves(s.pcs[t]) && e.writeOk
      && SavesOnly(cfg, Step(cfg, s, t, e).0, schedule[1..])
  }

  /** Such a schedule after which no save is under way. */
  predicate Completes(cfg: Config, s: State, schedule: Schedule) {
    SavesOnly(cfg, s, schedule) && Nobody(Run(cfg, s, schedule).pcs, Saves)
  }

  /** In whatever order the saves under way end, the file holds the map then. */
  ghost predicate Settles(cfg: Config, s: State) {
    forall schedule :: Completes(cfg, s, schedule) ==>
      Run(cfg, s, schedule).mem.file == Pairing.Readable(s.mem.tokens)
  }

  lemma MoveKeepsTokens(cfg: Config, pc: Pc, m: Shared, e: Env)
    requires Saves(pc)
    ensures Move(cfg, pc, m, e).1.tokens == m.tokens
  {
  }

  lemma SaverStep(cfg: Config, s: State, t: nat, e: Env)
    requires t < |s.pcs| && Saves(s.pcs[t])
    ensures Step(cfg, s, t, e).0.mem.tokens == s.mem.tokens && |Step(cfg, s, t, e).0.pcs| == |s.pcs|
  {
    hide Move, Enabled, Saves;
    MoveOnFile(cfg, s.pcs[t], s.mem, e.(writeOk := true));
    MoveKeepsTokens(cfg, s.pcs[t], s.mem, e);
  }

  /** Saves that follow the map end with the map in the file. */
  lemma {:induction false} FollowingSettles(cfg: Config, s: State, schedule: Schedule)
    requires FileFollows(s) && Completes(cfg, s, schedule)
    ensures Run(cfg, s, schedule).mem.file == Pairing.Readable(s.mem.tokens)
    decreases |schedule|
  {
    hide Step, WritesFile;
    if schedule != [] {
      var (t, e) := schedule[0];
      SaverStep(cfg, s, t, e);
      StepKeepsFileFollows(cfg, s, t, e);
      FollowingSettles(cfg, Step(cfg, s, t, e).0, schedule[1..]);
    }
  }

  lemma FollowsSettles(cfg: Config, s: State)
    requires FileFollows(s)
    ensures Settles(cfg, s)
  {
    hide Run, SavesOnly;
    forall schedule | Completes(cfg, s, schedule)
      ensures Run(cfg, s, schedule).mem.file == Pairing.Readable(s.mem.tokens)
    {
      FollowingSettles(cfg, s, schedule);
    }
  }

  /** One move of a saver while nobody holds the write lock. */
  lemma SaverMoves(cfg: Config, s: State, t: nat, e: Env)
    requires t < |s.pcs| && Saves(s.pcs[t]) && Nobody(s.pcs, WritesTokens)
    ensures var s' := Step(cfg, s, t, e).0;
            && s'.pcs == s.pcs[t := s'.pcs[t]] && s'.mem.tokens == s.mem.tokens
            && Nobody(s'.pcs, WritesTokens) && TotalRank(s'.pcs) < TotalRank(s.pcs)
            && (s.pcs[t].Writing? && e.writeOk ==>
                  !Saves(s'.pcs[t]) && s'.mem.file == Pairing.Readable(s.pcs[t].snapshot))
  {
    hide Rank;
    MoveLowersRank(cfg, s.pcs[t], s.mem, e);
    TotalRankUpdate(s.pcs, t, Move(cfg, s.pcs[t], s.mem, e).0);
    assert Enabled(s.pcs, t);
    hide TotalRank;
  }

  lemma NothingToSave(cfg: Config, s: State)
    requires Nobody(s.pcs, Saves)
    ensures Completes(cfg, s, []) && Run(cfg, s, []) == s
  {
  }

  lemma CompletesFrom(cfg: Config, s: State, t: nat, e: Env, rest: Schedule)
    requires t < |s.pcs| && Saves(s.pcs[t]) && e.writeOk && Completes(cfg, Step(cfg, s, t, e).0, rest)
    ensures Completes(cfg, s, [(t, e)] + rest)
    ensures Run(cfg, s, [(t, e)] + rest) == Run(cfg, Step(cfg, s, t, e).0, rest)
  {
    hide Step;
    assert ([(t, e)] + rest)[1..] == rest;
  }

  /** All saves can be run to their end with a given write last. */
  lemma {:induction false} FinishWithLast(cfg: Config, s: State, last: nat, e: Env) returns (schedule: Schedule)
    requires last < |s.pcs| && s.pcs[last].Writing? && Nobody(s.pcs, WritesTokens) && e.writeOk
    ensures Completes(cfg, s, schedule)
    ensures Run(cfg, s, schedule).mem.file == Pairing.Readable(s.pcs[last].snapshot)
    decreases TotalRank(s.pcs)
  {
    hide Step, Rank, TotalRank, Run, Completes;
    if t :| 0 <= t < |s.pcs| && t != last && Saves(s.pcs[t]) {
      SaverMoves(cfg, s, t, e);
      var rest := FinishWithLast(cfg, Step(cfg, s, t, e).0, last, e);
      CompletesFrom(cfg, s, t, e, rest);
      schedule := [(t, e)] + rest;
    } else {
      SaverMoves(cfg, s, last, e);
      NothingToSave(cfg, Step(cfg, s, last, e).0);
      CompletesFrom(cfg, s, last, e, []);
      schedule := [(last, e)] + [];
    }
  }

  const SOME_ENV := Env(List, 0, 0, "", true)

  /** While nobody holds the write lock, the snapshots and the file decide whether the saves under way settle. */
  lemma FreshIff(cfg: Config, s: State)
    requires Nobody(s.pcs, WritesTokens)
    ensures Settles(cfg, s) <==> FileFollows(s)
  {
    hide Run, SavesOnly;
    if FileFollows(s) {
      FollowsSettles(cfg, s);
    } else if i :| 0 <= i < |s.pcs| && s.pcs[i].Writing? && s.pcs[i].snapshot != s.mem.tokens {
      var schedule := FinishWithLast(cfg, s, i, SOME_ENV);
    } else {
      NothingToSave(cfg, s);
    }
  }

  lemma ChangerReleases(cfg: Config, pc: Pc, m: Shared, e: Env)
    ensures Move(cfg, pc, m, e).1.tokens != m.tokens ==>
              WritesTokens(pc) && !pc.Writing? && !WritesTokens(Move(cfg, pc, m, e).0)
  {
    hide Pairing.CheckLockout, Pairing.CountFailure, Pairing.CodeMatches, Pairing.HasExpired, Pairing.Retain;
  }

  /** A change of the map that overtakes a snapshot leaves saves that may end with a stale file. */
  lemma OvertakenIsStale(cfg: Config, s: State, t: nat, e: Env)
    requires MutualExclusion(s.pcs) && FileFollows(s)
    requires ChangesTokens(cfg, s, t, e) && !Nobody(s.pcs, IsWriting)
    ensures !Settles(cfg, Step(cfg, s, t, e).0)
  {
    hide Move, Enabled, Saves, Settles;
    var s' := Step(cfg, s, t, e).0;
    var i :| 0 <= i < |s.pcs| && s.pcs[i].Writing?;
    ChangerReleases(cfg, s.pcs[t], s.mem, e);
    forall j | 0 <= j < |s.pcs|
      ensures !WritesTokens(s'.pcs[j])
    {
      assert j != t ==> s'.pcs[j] == s.pcs[j];
    }
    assert s'.pcs[i] == s.pcs[i];
    assert !FileFollows(s');
    FreshIff(cfg, s');
  }

  ghost predicate SettlesAt(cfg: Config, s: State, schedule: Schedule, k: nat)
    requires k <= |schedule|
  {
    Settles(cfg, Run(cfg, s, schedule[..k]))
  }

  lemma SettlesLater(cfg: Config, s: State, schedule: Schedule, k: nat)
    requires k < |schedule|
    ensures SettlesAt(cfg, s, schedule, k + 1)
       <==> SettlesAt(cfg, Step(cfg, s, schedule[0].0, schedule[0].1).0, schedule[1..], k)
  {
    hide Step, Settles;
    assert schedule[..k + 1][1..] == schedule[1..][..k] && schedule[..k + 1][0] == schedule[0];
  }

  lemma {:induction false} FollowingPrefixesSettle(cfg: Config, s: State, schedule: Schedule, k: nat)
    requires k <= |schedule| && FileFollows(s)
    requires Undisturbed(cfg, s, schedule) && WritesDone(cfg, s, schedule)
    ensures SettlesAt(cfg, s, schedule, k)
    decreases k
  {
    hide Step, FileFollows, WritesFile, Run;
    if k == 0 {
      assert schedule[..0] == [];
      RunNothing(cfg, s);
      FollowsSettles(cfg, s);
    } else {
      var (t, e) := schedule[0];
      StepKeepsFileFollows(cfg, s, t, e);
      FollowingPrefixesSettle(cfg, Step(cfg, s, t, e).0, schedule[1..], k - 1);
      SettlesLater(cfg, s, schedule, k - 1);
    }
  }

  /** In a run that overtakes a snapshot the saves are open right after it does. */
  lemma {:induction false} DisturbedUnsettles(cfg: Config, s: State, schedule: Schedule) returns (k: nat)
    requires Inv(s) && FileFollows(s) && WritesDone(cfg, s, schedule) && !Undisturbed(cfg, s, schedule)
    ensures k <= |schedule| && !SettlesAt(cfg, s, schedule, k)
    decreases |schedule|
  {
    hide Step, FileFollows, WritesFile, Run, MutualExclusion, WinnerSeesCode, AnswersAreNoOutcomes, CounterBounded;
    var (t, e) := schedule[0];
    var s' := Step(cfg, s, t, e).0;
    if ChangesTokens(cfg, s, t, e) && !Nobody(s.pcs, IsWriting) {
      OvertakenIsStale(cfg, s, t, e);
      assert schedule[1..][..0] == [];
      RunNothing(cfg, s');
      k := 0;
    } else {
      StepKeepsFileFollows(cfg, s, t, e);
      StepKeepsInv(cfg, s, t, e);
      k := DisturbedUnsettles(cfg, s', schedule[1..]);
    }
    SettlesLater(cfg, s, schedule, k);
    k := k + 1;
  }

  /**
   With every write done: no change of the map overtakes a snapshot in a run if
   and only if at each of its points the saves under way, in whatever order they
   end, leave the map in the file.
   */
  lemma UndisturbedIff(cfg: Config, s: State, threads: nat, schedule: Schedule)
    requires Initial(s, threads) && s.mem.file == Pairing.Readable(s.mem.tokens) && WritesDone(cfg, s, schedule)
    ensures Undisturbed(cfg, s, schedule) <==> forall k :: 0 <= k <= |schedule| ==> SettlesAt(cfg, s, schedule, k)
  {
    hide SettlesAt;
    InitialInv(s, threads);
    if Undisturbed(cfg, s, schedule) {
      forall k | 0 <= k <= |schedule|
        ensures SettlesAt(cfg, s, schedule, k)
      {
        FollowingPrefixesSettle(cfg, s, schedule, k);
      }
    } else {
      var k := DisturbedUnsettles(cfg, s, schedule);
    }
  }

  // ----- a save that a revocation overtakes -----

  lemma {:induction false} RunSnoc(cfg: Config, s: State, schedule: Schedule, t: nat, e: Env)
    ensures Run(cfg, s, schedule + [(t, e)]) == Step(cfg, Run(cfg, s, schedule), t, e).0
    decreases |schedule|
  {
    hide Step;
    var longer := schedule + [(t, e)];
    if schedule == [] {
      assert longer[1..] == [];
    } else {
      assert longer[0] == schedule[0] && longer[1..] == schedule[1..] + [(t, e)];
      RunSnoc(cfg, Step(cfg, s, schedule[0].0, schedule[0].1).0, schedule[1..], t, e);
    }
  }

  /** No other thread holds or waits for a lock. */
  ghost predicate OthersQuiet(pcs: seq<Pc>, t: nat) {
    forall i :: 0 <= i < |pcs| && i != t ==> pcs[i].Idle? || (pcs[i].Writing? && pcs[i].saver.Finished?)
  }

  /** One more step of a schedule that leads to `s`, by a thread whose locks are free. */
  lemma Extend(cfg: Config, start: State, schedule: Schedule, s: State, t: nat, e: Env, pc: Pc, m: Shared)
    returns (schedule': Schedule, s': State)
    requires Run(cfg, start, schedule) == s && t < |s.pcs| && OthersQuiet(s.pcs, t)
    requires Move(cfg, s.pcs[t], s.mem, e).0 == pc && Move(cfg, s.pcs[t], s.mem, e).1 == m
    ensures s' == State(s.pcs[t := pc], m) && OthersQuiet(s'.pcs, t)
    ensures Run(cfg, start, schedule') == s'
  {
    assert Enabled(s.pcs, t);
    hide Move, Run, Enabled;
    RunSnoc(cfg, start, schedule, t, e);
    schedule', s' := schedule + [(t, e)], State(s.pcs[t := pc], m);
  }

  lemma CallMoves(cfg: Config, m: Shared, m': Shared, e: Env, call: WriteCall, r: Return)
    ensures Move(cfg, WantWrite(call), m, e) == (InWrite(call), m, NoReturn)
    ensures Move(cfg, WantSnapshot(Finished(r)), m', e) == (InSnapshot(Finished(r)), m', NoReturn)
    ensures Move(cfg, InSnapshot(Finished(r)), m', e) == (Writing(Finished(r), m'.tokens), m', NoReturn)
  {
  }

  /** Runs one call of a thread whose locks are free up to the write of its snapshot. */
  lemma RunUpToWrite(cfg: Config, pcs: seq<Pc>, t: nat, m: Shared, e: Env, call: WriteCall, r: Return, m': Shared)
    returns (schedule: Schedule)
    requires t < |pcs| && pcs[t] == Idle && OthersQuiet(pcs, t)
    requires Move(cfg, Idle, m, e) == (WantWrite(call), m, NoReturn)
    requires Move(cfg, InWrite(call), m, e) == (WantSnapshot(Finished(r)), m', NoReturn)
    ensures Run(cfg, State(pcs, m), schedule) == State(pcs[t := Writing(Finished(r), m'.tokens)], m')
  {
    var start := State(pcs, m);
    CallMoves(cfg, m, m', e, call, r);
    hide Run, Move, OthersQuiet;
    schedule := [];
    var s: State := start;
    RunNothing(cfg, start);
    schedule, s := Extend(cfg, start, schedule, s, t, e, WantWrite(call), m);
    schedule, s := Extend(cfg, start, schedule, s, t, e, InWrite(call), m);
    schedule, s := Extend(cfg, start, schedule, s, t, e, WantSnapshot(Finished(r)), m');
    schedule, s := Extend(cfg, start, schedule, s, t, e, InSnapshot(Finished(r)), m');
    schedule, s := Extend(cfg, start, schedule, s, t, e, Writing(Finished(r), m'.tokens), m');
    assert s.pcs == pcs[t := Writing(Finished(r), m'.tokens)];
  }

  /** Thread 0 lists, and is about to write what it found; thread 1 is idle. */
  lemma ListUpToWrite(cfg: Config, m: Shared, e: Env) returns (schedule: Schedule)
    requires e.request == List && |Pairing.Retain(m.tokens, e.now, cfg.ttl)| != |m.tokens|
    ensures var kept := Pairing.Retain(m.tokens, e.now, cfg.ttl);
            (Run(cfg, State([Idle, Idle], m), schedule)
             == State([Writing(Finished(Listed(kept.Keys)), kept), Idle], m.(tokens := kept)))
  {
    hide Run, Pairing.Retain;
    var kept := Pairing.Retain(m.tokens, e.now, cfg.ttl);
    schedule := RunUpToWrite(cfg, [Idle, Idle], 0, m, e, Prune(e.now), Listed(kept.Keys), m.(tokens := kept));
  }

  /** Meanwhile thread 1 revokes all tokens and returns; then thread 0 writes its snapshot. */
  lemma RevokeThenWrite(cfg: Config, saver: Saver, kept: map<string, nat>, m: Shared, e: Env)
    returns (schedule: Schedule)
    requires e.request == RevokeTokens && e.writeOk && saver.Finished?
    ensures Run(cfg, State([Writing(saver, kept), Idle], m), schedule)
         == State([Idle, Idle], m.(tokens := map[], file := Pairing.Readable(kept)))
  {
    var start := State([Writing(saver, kept), Idle], m);
    var empty := m.(tokens := map[]);
    hide Run;
    schedule := RunUpToWrite(cfg, start.pcs, 1, m, e, Revoke, Done, empty);
    var s := State([Writing(saver, kept), Writing(Finished(Done), map[])], empty);
    assert start.pcs[1 := Writing(Finished(Done), map[])] == s.pcs;
    schedule, s := Extend(cfg, start, schedule, s, 1, e, Idle, empty.(file := Pairing.Readable(map[])));
    schedule, s := Extend(cfg, start, schedule, s, 0, e, Idle, empty.(file := Pairing.Readable(kept)));
  }

  /** The same two calls with the writes in the other order: a run that overtakes a snapshot may end well. */
  lemma RevokeWritesLast(cfg: Config, saver: Saver, kept: map<string, nat>, m: Shared, e: Env)
    returns (schedule: Schedule)
    requires e.request == RevokeTokens && e.writeOk && saver.Finished?
    ensures Run(cfg, State([Writing(saver, kept), Idle], m), schedule)
         == State([Idle, Idle], m.(tokens := map[], file := Pairing.Readable(map[])))
  {
    var start := State([Writing(saver, kept), Idle], m);
    var empty := m.(tokens := map[]);
    hide Run;
    schedule := RunUpToWrite(cfg, start.pcs, 1, m, e, Revoke, Done, empty);
    var s := State([Writing(saver, kept), Writing(Finished(Done), map[])], empty);
    assert start.pcs[1 := Writing(Finished(Done), map[])] == s.pcs;
    schedule, s := Extend(cfg, start, schedule, s, 0, e, Idle, empty.(file := Pairing.Readable(kept)));
    schedule, s := Extend(cfg, start, schedule, s, 1, e, Idle, empty.(file := Pairing.Readable(map[])));
  }

  lemma {:induction false} RunConcat(cfg: Config, s: State, first: Schedule, next: Schedule)
    ensures Run(cfg, s, first + next) == Run(cfg, Run(cfg, s, first), next)
    decreases |first|
  {
    hide Step;
    var both := first + next;
    if first == [] {
      assert both == next;
    } else {
      assert both[0] == first[0] && both[1..] == first[1..] + next;
      RunConcat(cfg, Step(cfg, s, first[0].0, first[0].1).0, first[1..], next);
    }
  }

  lemma RestartedAccepts(cfg: Config, stored: map<string, nat>, token: string, now: nat, newCode: string)
    requires token != "" && cfg.ttl >= Pairing.MIN_TOKEN_TTL_SECS
    requires Pairing.Survives(stored, cfg.hash(token), cfg.ttl, now)
    ensures var file := Pairing.Readable(stored);
            var g := Pairing.NewGuard(true, [], Some(cfg.ttl), Some(file), cfg.hash, now, newCode, true);
            Pairing.IsAccepted(g, token, now, true).1
  {
    hide Pairing.IsStoredHash, Pairing.IsHashText;
    Pairing.StoredHashIff(cfg.hash(token));
  }

  /**
   The file can go stale: a listing that dropped an expired token takes its
   snapshot, a revocation runs from start to end, and the snapshot is written
   last. All calls have returned, the map is empty, the file is not, and a
   restart accepts the revoked token.
   */
  lemma RevokedTokenComesBack(cfg: Config, m: Shared, list: Env, revoke: Env, token: string, later: nat,
                              newCode: string)
    returns (schedule: Schedule)
    requires list.request == List && revoke.request == RevokeTokens && revoke.writeOk
    requires |Pairing.Retain(m.tokens, list.now, cfg.ttl)| != |m.tokens|
    requires token != "" && cfg.hash(token) in Pairing.Retain(m.tokens, list.now, cfg.ttl)
    requires cfg.ttl >= Pairing.MIN_TOKEN_TTL_SECS && Pairing.Survives(m.tokens, cfg.hash(token), cfg.ttl, later)
    ensures var rest := Run(cfg, State([Idle, Idle], m), schedule);
            var kept := Pairing.Retain(m.tokens, list.now, cfg.ttl);
            && rest == State([Idle, Idle], m.(tokens := map[], file := Pairing.Readable(kept)))
            && (var g := Pairing.NewGuard(true, [], Some(cfg.ttl), Some(rest.mem.file), cfg.hash, later, newCode, true);
                Pairing.IsAccepted(g, token, later, true).1)
  {
    hide Run, Pairing.IsHashText;
    var kept := Pairing.Retain(m.tokens, list.now, cfg.ttl);
    var first := ListUpToWrite(cfg, m, list);
    var next := RevokeThenWrite(cfg, Finished(Listed(kept.Keys)), kept, m.(tokens := kept), revoke);
    RunConcat(cfg, State([Idle, Idle], m), first, next);
    schedule := first + next;
    RestartedAccepts(cfg, kept, token, later, newCode);
  }
}
