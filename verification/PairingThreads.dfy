/**
 The pairing guard of src/security/pairing.rs under any number of threads.
 A thread's program point says which locks it holds; one step takes a lock, or
 runs a locked block to its end and releases the lock. A schedule is any
 sequence of thread numbers with what each step reads from outside; a thread
 that waits for a taken lock stays where it is.
 */
module PairingThreads {
  import opened Strings
  import opened Pairing

  datatype Config = Config(ttl: nat, hash: Hash)

  /** The calls that take the write lock on the token map; the clock is read before the lock. */
  datatype WriteCall = Accept(token: string, now: nat) | Prune(now: nat) | Revoke

  datatype Return =
    | NoReturn
    | Outcome(result: PairResult)
    | Answer(yes: bool)
    | Listed(hashes: set<string>)
    | Done

  /** What a call that pruned the map to `kept` returns. */
  function AnswerFrom(cfg: Config, call: WriteCall, kept: map<string, nat>): Return {
    match call
    case Accept(token, _) => Answer(cfg.hash(token) in kept)
    case Prune(_) => Listed(kept.Keys)
    case Revoke => Done
  }

  /** Who saves the tokens: `try_pair`, which holds the code lock meanwhile, or a call with its answer ready. */
  datatype Saver = NewToken(token: string) | Finished(r: Return)

  datatype Pc =
    | Idle
    // try_pair
    | WantLockout(code: string)
    | InLockout(code: string)
    | WantCode(code: string)
    | InCode(code: string)
    | WantReset
    | InReset
    | WantInsert
    | InInsert
    | WantCount
    | InCount
    // persist_tokens
    | WantSnapshot(saver: Saver)
    | InSnapshot(saver: Saver)
    | Writing(saver: Saver, snapshot: map<string, nat>)
    // the fast path of is_accepted_token, then the calls that write the map
    | WantRead(token: string, now: nat)
    | InRead(token: string, now: nat)
    | WantWrite(call: WriteCall)
    | InWrite(call: WriteCall)

  datatype Request = PairWith(code: string) | Check(token: string) | List | RevokeTokens

  /** The call an idle thread starts, two clocks, a token to hand out and the outcome of a write. */
  datatype Env = Env(request: Request, instant: nat, now: nat, newToken: string, writeOk: bool)

  datatype Shared = Shared(code: Option<string>, attempts: Attempts, tokens: map<string, nat>, file: FileContent)

  datatype State = State(pcs: seq<Pc>, mem: Shared)

  // ----- locks -----

  predicate HoldsAttempts(pc: Pc) {
    pc.InLockout? || pc.InReset? || pc.InCount?
  }

  /** Once the code has matched, `try_pair` keeps the code lock until it has cleared the code. */
  predicate Winning(pc: Pc) {
    || pc.WantReset? || pc.InReset? || pc.WantInsert? || pc.InInsert?
    || ((pc.WantSnapshot? || pc.InSnapshot? || pc.Writing?) && pc.saver.NewToken?)
  }

  predicate HoldsCode(pc: Pc) {
    pc.InCode? || Winning(pc)
  }

  predicate WritesTokens(pc: Pc) {
    pc.InInsert? || pc.InWrite?
  }

  predicate ReadsTokens(pc: Pc) {
    pc.InRead? || pc.InSnapshot?
  }

  predicate WaitsForAttempts(pc: Pc) {
    pc.WantLockout? || pc.WantReset? || pc.WantCount?
  }

  predicate Nobody(pcs: seq<Pc>, holds: Pc -> bool) {
    forall i :: 0 <= i < |pcs| ==> !holds(pcs[i])
  }

  /** Thread `t` can move unless it waits for a lock that is taken. */
  predicate Enabled(pcs: seq<Pc>, t: nat)
    requires t < |pcs|
  {
    var pc := pcs[t];
    && (WaitsForAttempts(pc) ==> Nobody(pcs, HoldsAttempts))
    && (pc.WantCode? ==> Nobody(pcs, HoldsCode))
    && (pc.WantSnapshot? || pc.WantRead? ==> Nobody(pcs, WritesTokens))
    && (pc.WantInsert? || pc.WantWrite? ==> Nobody(pcs, WritesTokens) && Nobody(pcs, ReadsTokens))
  }

  // ----- steps -----

  function Start(r: Request, now: nat): (Pc, Return) {
    match r
    case PairWith(code) => (WantLockout(code), NoReturn)
    case Check(token) => if token == "" then (Idle, Answer(false)) else (WantRead(token, now), NoReturn)
    case List => (WantWrite(Prune(now)), NoReturn)
    case RevokeTokens => (WantWrite(Revoke), NoReturn)
  }

  /** What a thread that can move does: its next program point, the shared fields, and a result. */
  function Move(cfg: Config, pc: Pc, m: Shared, e: Env): (Pc, Shared, Return) {
    match pc
    case Idle => var (pc', r) := Start(e.request, e.now); (pc', m, r)
    case WantLockout(code) => (InLockout(code), m, NoReturn)
    case InLockout(code) =>
      var (locked, a) := CheckLockout(m.attempts, e.instant);
      if locked.Some? then (Idle, m, Outcome(LockedOut(locked.value)))
      else (WantCode(code), m.(attempts := a), NoReturn)
    case WantCode(code) => (InCode(code), m, NoReturn)
    case InCode(code) => (if CodeMatches(m.code, code) then WantReset else WantCount, m, NoReturn)
    case WantReset => (InReset, m, NoReturn)
    case InReset => (WantInsert, m.(attempts := Attempts(0, None)), NoReturn)
    case WantInsert => (InInsert, m, NoReturn)
    case InInsert =>
      (WantSnapshot(NewToken(e.newToken)), m.(tokens := m.tokens[cfg.hash(e.newToken) := e.now]), NoReturn)
    case WantCount => (InCount, m, NoReturn)
    case InCount => (Idle, m.(attempts := CountFailure(m.attempts, e.instant)), Outcome(Rejected))
    case WantSnapshot(saver) => (InSnapshot(saver), m, NoReturn)
    case InSnapshot(saver) => (Writing(saver, m.tokens), m, NoReturn)
    case Writing(saver, snapshot) =>
      var m' := if e.writeOk then m.(file := Readable(snapshot)) else m;
      if saver.NewToken? then (Idle, m'.(code := None), Outcome(Paired(saver.token)))
      else (Idle, m', saver.r)
    case WantRead(token, now) => (InRead(token, now), m, NoReturn)
    case InRead(token, now) =>
      if HasExpired(m.tokens, now, cfg.ttl) then (WantWrite(Accept(token, now)), m, NoReturn)
      else (Idle, m, Answer(cfg.hash(token) in m.tokens))
    case WantWrite(call) => (InWrite(call), m, NoReturn)
    case InWrite(call) => (
      match call
      case Revoke => (WantSnapshot(Finished(Done)), m.(tokens := map[]), NoReturn)
      case _ =>
        var kept := Retain(m.tokens, call.now, cfg.ttl);
        var r := AnswerFrom(cfg, call, kept);
        if |kept| != |m.tokens| then (WantSnapshot(Finished(r)), m.(tokens := kept), NoReturn)
        else (Idle, m.(tokens := kept), r)
    )
  }

  function Step(cfg: Config, s: State, t: nat, e: Env): (State, Return) {
    if t < |s.pcs| && Enabled(s.pcs, t) then
      var (pc', m', r) := Move(cfg, s.pcs[t], s.mem, e);
      (State(s.pcs[t := pc'], m'), r)
    else
      (s, NoReturn)
  }

  type Schedule = seq<(nat, Env)>

  function Run(cfg: Config, s: State, schedule: Schedule): State
    decreases |schedule|
  {
    if schedule == [] then s
    else Run(cfg, Step(cfg, s, schedule[0].0, schedule[0].1).0, schedule[1..])
  }

  predicate ReturnsToken(r: Return) {
    r.Outcome? && r.result.Paired?
  }

  /** How many calls return a token along a schedule. */
  function TokensReturned(cfg: Config, s: State, schedule: Schedule): nat
    decreases |schedule|
  {
    if schedule == [] then 0
    else
      var (s', r) := Step(cfg, s, schedule[0].0, schedule[0].1);
      (if ReturnsToken(r) then 1 else 0) + TokensReturned(cfg, s', schedule[1..])
  }

  /** `threads` idle threads around a guard that has just been built. */
  predicate Initial(s: State, threads: nat) {
    && |s.pcs| == threads
    && (forall i :: 0 <= i < threads ==> s.pcs[i] == Idle)
    && s.mem.attempts == Attempts(0, None)
  }

  // ----- the lock discipline -----

  ghost predicate MutualExclusion(pcs: seq<Pc>) {
    forall i, j :: 0 <= i < |pcs| && 0 <= j < |pcs| && i != j ==>
      && !(HoldsAttempts(pcs[i]) && HoldsAttempts(pcs[j]))
      && !(HoldsCode(pcs[i]) && HoldsCode(pcs[j]))
      && !(WritesTokens(pcs[i]) && (WritesTokens(pcs[j]) || ReadsTokens(pcs[j])))
  }

  /** A thread past the code comparison found a code, and the code lock keeps it there. */
  ghost predicate WinnerSeesCode(s: State) {
    forall i :: 0 <= i < |s.pcs| && Winning(s.pcs[i]) ==> s.mem.code.Some?
  }

  predicate Saves(pc: Pc) {
    pc.WantSnapshot? || pc.InSnapshot? || pc.Writing?
  }

  /** The answer a saver has ready is never the outcome of a pairing attempt. */
  ghost predicate AnswersAreNoOutcomes(pcs: seq<Pc>) {
    forall i :: 0 <= i < |pcs| && Saves(pcs[i]) && pcs[i].saver.Finished? ==> !pcs[i].saver.r.Outcome?
  }

  /** Past the lockout check and not yet counted: this thread may still add one failure. */
  predicate MayCount(pc: Pc) {
    pc.WantCode? || pc.InCode? || pc.WantCount? || pc.InCount?
  }

  function Counting(pcs: seq<Pc>): (n: nat)
    ensures n <= |pcs|
  {
    if pcs == [] then 0 else (if MayCount(pcs[0]) then 1 else 0) + Counting(pcs[1..])
  }

  lemma {:induction false} CountingUpdate(pcs: seq<Pc>, t: nat, pc: Pc)
    requires t < |pcs|
    ensures Counting(pcs[t := pc])
         == Counting(pcs) - (if MayCount(pcs[t]) then 1 else 0) + (if MayCount(pc) then 1 else 0)
  {
    if t == 0 {
      assert pcs[0 := pc][1..] == pcs[1..];
    } else {
      assert pcs[t := pc][1..] == pcs[1..][t - 1 := pc];
      CountingUpdate(pcs[1..], t - 1, pc);
    }
  }

  /** The lock time is set exactly at five failures, and every thread adds at most one beyond four. */
  ghost predicate CounterBounded(s: State) {
    && (s.mem.attempts.lockedAt.Some? <==> s.mem.attempts.count >= MAX_PAIR_ATTEMPTS)
    && s.mem.attempts.count + Counting(s.pcs) <= 4 + |s.pcs|
  }

  ghost predicate Inv(s: State) {
    MutualExclusion(s.pcs) && WinnerSeesCode(s) && AnswersAreNoOutcomes(s.pcs) && CounterBounded(s)
  }

  /** A move holds a lock afterwards only if it held it before or waited for it. */
  lemma MoveOnLocks(cfg: Config, pc: Pc, m: Shared, e: Env)
    ensures var pc' := Move(cfg, pc, m, e).0;
            && (HoldsAttempts(pc') ==> WaitsForAttempts(pc))
            && (HoldsCode(pc') ==> HoldsCode(pc) || pc.WantCode?)
            && (WritesTokens(pc') ==> pc.WantInsert? || pc.WantWrite?)
            && (ReadsTokens(pc') ==> pc.WantSnapshot? || pc.WantRead?)
  {
    hide CheckLockout, CountFailure, CodeMatches, HasExpired, Retain;
  }

  lemma StepKeepsExclusion(cfg: Config, s: State, t: nat, e: Env)
    requires MutualExclusion(s.pcs)
    ensures MutualExclusion(Step(cfg, s, t, e).0.pcs)
  {
    hide Move, HoldsAttempts, HoldsCode, WritesTokens, ReadsTokens, WaitsForAttempts;
    if t < |s.pcs| {
      MoveOnLocks(cfg, s.pcs[t], s.mem, e);
    }
  }

  /** A move that takes the code away is made by a winner, and only such a move returns a token. */
  lemma MoveOnCode(cfg: Config, pc: Pc, m: Shared, e: Env)
    requires Winning(pc) ==> m.code.Some?
    requires Saves(pc) && pc.saver.Finished? ==> !pc.saver.r.Outcome?
    ensures var (pc', m', r) := Move(cfg, pc, m, e);
            && (m'.code == m.code || (HoldsCode(pc) && m.code.Some? && m'.code.None?))
            && (Winning(pc') ==> m'.code.Some?)
            && (ReturnsToken(r) ==> m.code.Some? && m'.code.None?)
            && (Saves(pc') && pc'.saver.Finished? ==> !pc'.saver.r.Outcome?)
  {
    hide CheckLockout, CountFailure, HasExpired, Trim;
  }

  lemma StepKeepsCode(cfg: Config, s: State, t: nat, e: Env)
    requires MutualExclusion(s.pcs) && WinnerSeesCode(s) && AnswersAreNoOutcomes(s.pcs)
    ensures var (s', r) := Step(cfg, s, t, e);
            && WinnerSeesCode(s') && AnswersAreNoOutcomes(s'.pcs)
            && (ReturnsToken(r) ==> s.mem.code.Some? && s'.mem.code.None?)
            && (s.mem.code.None? ==> s'.mem.code.None?)
  {
    hide Move, Enabled, Saves, HoldsAttempts, WritesTokens;
    if t < |s.pcs| && Enabled(s.pcs, t) {
      MoveOnCode(cfg, s.pcs[t], s.mem, e);
      var s' := Step(cfg, s, t, e).0;
      forall i | 0 <= i < |s.pcs| && i != t
        ensures s'.pcs[i] == s.pcs[i] && (Winning(s.pcs[i]) ==> s'.mem.code.Some?)
      {
        assert HoldsCode(s.pcs[i]) ==> !HoldsCode(s.pcs[t]);
      }
    }
  }

  /** A move lowers the counter below five, or adds to it no more than it takes from the threads that may count. */
  lemma MoveOnCounter(cfg: Config, pc: Pc, m: Shared, e: Env)
    requires m.attempts.lockedAt.Some? <==> m.attempts.count >= MAX_PAIR_ATTEMPTS
    ensures var (pc', m', r) := Move(cfg, pc, m, e);
            && (m'.attempts.lockedAt.Some? <==> m'.attempts.count >= MAX_PAIR_ATTEMPTS)
            && (m'.attempts.count <= 4
                || m'.attempts.count + (if MayCount(pc') then 1 else 0)
                   <= m.attempts.count + (if MayCount(pc) then 1 else 0))
  {
    hide CodeMatches, HasExpired, ElapsedSecs, Retain;
  }

  lemma StepKeepsCounter(cfg: Config, s: State, t: nat, e: Env)
    requires CounterBounded(s)
    ensures CounterBounded(Step(cfg, s, t, e).0)
  {
    hide Move, MayCount, Enabled;
    if t < |s.pcs| && Enabled(s.pcs, t) {
      MoveOnCounter(cfg, s.pcs[t], s.mem, e);
      CountingUpdate(s.pcs, t, Move(cfg, s.pcs[t], s.mem, e).0);
    }
  }

  lemma StepKeepsInv(cfg: Config, s: State, t: nat, e: Env)
    requires Inv(s)
    ensures var (s', r) := Step(cfg, s, t, e);
            && Inv(s') && |s'.pcs| == |s.pcs|
            && (ReturnsToken(r) ==> s.mem.code.Some? && s'.mem.code.None?)
            && (s.mem.code.None? ==> s'.mem.code.None?)
  {
    assert |Step(cfg, s, t, e).0.pcs| == |s.pcs|;
    hide Step, MutualExclusion, WinnerSeesCode, AnswersAreNoOutcomes, CounterBounded;
    StepKeepsExclusion(cfg, s, t, e);
    StepKeepsCode(cfg, s, t, e);
    StepKeepsCounter(cfg, s, t, e);
  }

  lemma {:induction false} RunKeepsInv(cfg: Config, s: State, schedule: Schedule)
    requires Inv(s)
    ensures Inv(Run(cfg, s, schedule)) && |Run(cfg, s, schedule).pcs| == |s.pcs|
    ensures TokensReturned(cfg, s, schedule) <= if s.mem.code.Some? then 1 else 0
    decreases |schedule|
  {
    hide Step, Inv, ReturnsToken;
    if schedule != [] {
      var (t, e) := schedule[0];
      StepKeepsInv(cfg, s, t, e);
      RunKeepsInv(cfg, Step(cfg, s, t, e).0, schedule[1..]);
    }
  }

  lemma {:induction false} NoneCounting(pcs: seq<Pc>)
    requires forall i :: 0 <= i < |pcs| ==> pcs[i] == Idle
    ensures Counting(pcs) == 0
  {
    if pcs != [] {
      NoneCounting(pcs[1..]);
    }
  }

  lemma InitialInv(s: State, threads: nat)
    requires Initial(s, threads)
    ensures Inv(s)
  {
    NoneCounting(s.pcs);
  }

  // ----- main results -----

  /** In every interleaving of any number of threads, at most one `try_pair` returns a token. */
  lemma AtMostOneToken(cfg: Config, s: State, threads: nat, schedule: Schedule)
    requires Initial(s, threads)
    ensures TokensReturned(cfg, s, schedule) <= 1
  {
    InitialInv(s, threads);
    RunKeepsInv(cfg, s, schedule);
  }

  /** In every reachable state the failure counter stays below five plus the number of threads. */
  lemma CounterStaysBounded(cfg: Config, s: State, threads: nat, schedule: Schedule)
    requires Initial(s, threads)
    ensures var a := Run(cfg, s, schedule).mem.attempts;
            a.count <= 4 + threads && (a.lockedAt.Some? <==> a.count >= MAX_PAIR_ATTEMPTS)
  {
    InitialInv(s, threads);
    RunKeepsInv(cfg, s, schedule);
  }

  /** Code before attempts before tokens: a thread that waits for one of them never holds a later one. */
  lemma SomeThreadCanMove(pcs: seq<Pc>, waiting: nat)
    requires waiting < |pcs| && pcs[waiting] != Idle
    ensures exists t :: 0 <= t < |pcs| && pcs[t] != Idle && Enabled(pcs, t)
  {
    if i :| 0 <= i < |pcs| && (WritesTokens(pcs[i]) || ReadsTokens(pcs[i])) {
      assert Enabled(pcs, i);
    } else if i :| 0 <= i < |pcs| && HoldsAttempts(pcs[i]) {
      assert Enabled(pcs, i);
    } else if i :| 0 <= i < |pcs| && HoldsCode(pcs[i]) {
      assert Enabled(pcs, i);
    } else {
      assert Enabled(pcs, waiting);
    }
  }

  /** No interleaving deadlocks: as long as a call is under way, some call can go on. */
  lemma NoDeadlock(cfg: Config, s: State, threads: nat, schedule: Schedule, waiting: nat)
    requires Initial(s, threads) && waiting < threads
    ensures var pcs := Run(cfg, s, schedule).pcs;
            |pcs| == threads &&
            (pcs[waiting] != Idle ==> exists t :: 0 <= t < threads && pcs[t] != Idle && Enabled(pcs, t))
  {
    InitialInv(s, threads);
    RunKeepsInv(cfg, s, schedule);
    var pcs := Run(cfg, s, schedule).pcs;
    if pcs[waiting] != Idle {
      SomeThreadCanMove(pcs, waiting);
    }
  }

  // ----- the fields under the locks -----

  /** A thread that is about to read or write the counter. */
  predicate AtCounter(pc: Pc) {
    match pc
    case InLockout(_) => true
    case InReset => true
    case InCount => true
    case _ => false
  }

  /** A thread between its look at the code and the end of the attempt. */
  predicate AtCode(pc: Pc) {
    match pc
    case InCode(_) => true
    case WantReset => true
    case InReset => true
    case WantInsert => true
    case InInsert => true
    case WantSnapshot(saver) => saver.NewToken?
    case InSnapshot(saver) => saver.NewToken?
    case Writing(saver, _) => saver.NewToken?
    case _ => false
  }

  /** A thread that is about to change the token map, and one that is about to use it. */
  predicate AtMapChange(pc: Pc) {
    match pc
    case InInsert => true
    case InWrite(_) => true
    case _ => false
  }

  predicate AtMap(pc: Pc) {
    AtMapChange(pc) || match pc
                       case InRead(_, _) => true
                       case InSnapshot(_) => true
                       case _ => false
  }

  /** In no interleaving do two threads use the counter or the code at once, or one the map that another changes. */
  lemma FieldsAreExclusive(cfg: Config, s: State, threads: nat, schedule: Schedule, i: nat, j: nat)
    requires Initial(s, threads) && i < threads && j < threads && i != j
    ensures var pcs := Run(cfg, s, schedule).pcs;
            && |pcs| == threads
            && !(AtCounter(pcs[i]) && AtCounter(pcs[j])) && !(AtCode(pcs[i]) && AtCode(pcs[j]))
            && !(AtMapChange(pcs[i]) && AtMap(pcs[j]))
  {
    InitialInv(s, threads);
    RunKeepsInv(cfg, s, schedule);
  }

  // ----- calls come to an end -----

  /** An upper bound on the moves a call still makes. */
  function Rank(pc: Pc): nat {
    match pc
    case Idle => 0
    case Writing(_, _) => 1
    case InCount => 1
    case InSnapshot(_) => 2
    case WantCount => 2
    case WantSnapshot(_) => 3
    case InInsert => 4
    case InWrite(_) => 4
    case WantInsert => 5
    case WantWrite(_) => 5
    case InReset => 6
    case InRead(_, _) => 6
    case WantReset => 7
    case WantRead(_, _) => 7
    case InCode(_) => 8
    case WantCode(_) => 9
    case InLockout(_) => 10
    case WantLockout(_) => 11
  }

  lemma MoveLowersRank(cfg: Config, pc: Pc, m: Shared, e: Env)
    requires pc != Idle
    ensures Rank(Move(cfg, pc, m, e).0) < Rank(pc)
  {
    hide CheckLockout, CountFailure, CodeMatches, HasExpired, Retain;
  }

  function TotalRank(pcs: seq<Pc>): nat {
    if pcs == [] then 0 else Rank(pcs[0]) + TotalRank(pcs[1..])
  }

  lemma {:induction false} TotalRankUpdate(pcs: seq<Pc>, t: nat, pc: Pc)
    requires t < |pcs|
    ensures TotalRank(pcs[t := pc]) == TotalRank(pcs) - Rank(pcs[t]) + Rank(pc)
    decreases |pcs|
  {
    hide Rank;
    if t == 0 {
      assert pcs[0 := pc][1..] == pcs[1..];
    } else {
      assert pcs[t := pc][1..] == pcs[1..][t - 1 := pc];
      TotalRankUpdate(pcs[1..], t - 1, pc);
    }
  }

  /**
   From every state all calls under way can be run to their end, in at most
   as many steps as their ranks add up to: nothing is ever stuck for good.
   */
  lemma {:induction false} AllCallsCanFinish(cfg: Config, s: State, e: Env) returns (schedule: Schedule)
    ensures |schedule| <= TotalRank(s.pcs)
    ensures forall i :: 0 <= i < |Run(cfg, s, schedule).pcs| ==> Run(cfg, s, schedule).pcs[i] == Idle
    decreases TotalRank(s.pcs)
  {
    hide Rank, Enabled, Move;
    if i :| 0 <= i < |s.pcs| && s.pcs[i] != Idle {
      SomeThreadCanMove(s.pcs, i);
      var t :| 0 <= t < |s.pcs| && s.pcs[t] != Idle && Enabled(s.pcs, t);
      MoveLowersRank(cfg, s.pcs[t], s.mem, e);
      TotalRankUpdate(s.pcs, t, Move(cfg, s.pcs[t], s.mem, e).0);
      var s' := Step(cfg, s, t, e).0;
      var rest := AllCallsCanFinish(cfg, s', e);
      schedule := [(t, e)] + rest;
      assert schedule[1..] == rest;
    } else {
      schedule := [];
    }
  }

  // ----- a call that runs alone is the sequential call -----

  /** Runs one thread until its call returns. */
  function Finish(cfg: Config, pc: Pc, m: Shared, e: Env): (Shared, Return)
    requires pc != Idle
    decreases Rank(pc)
  {
    MoveLowersRank(cfg, pc, m, e);
    var (pc', m', r) := Move(cfg, pc, m, e);
    if pc' == Idle then (m', r) else Finish(cfg, pc', m', e)
  }

  lemma FinishStep(cfg: Config, pc: Pc, m: Shared, e: Env)
    requires pc != Idle
    ensures var (pc', m', r) := Move(cfg, pc, m, e);
            Finish(cfg, pc, m, e) == if pc' == Idle then (m', r) else Finish(cfg, pc', m', e)
  {
    hide Move;
  }

  function AsGuard(cfg: Config, m: Shared): Guard {
    Guard(true, cfg.ttl, cfg.hash, m.code, m.tokens, m.attempts, Some(m.file))
  }

  lemma SavingAlone(cfg: Config, saver: Saver, m: Shared, e: Env)
    ensures var m' := if e.writeOk then m.(file := Readable(m.tokens)) else m;
            Finish(cfg, WantSnapshot(saver), m, e) ==
            if saver.NewToken? then (m'.(code := None), Outcome(Paired(saver.token))) else (m', saver.r)
  {
    hide Finish;
    FinishStep(cfg, WantSnapshot(saver), m, e);
    FinishStep(cfg, InSnapshot(saver), m, e);
    FinishStep(cfg, Writing(saver, m.tokens), m, e);
  }

  lemma MatchedAlone(cfg: Config, m: Shared, e: Env)
    ensures var paired := m.(attempts := Attempts(0, None), tokens := m.tokens[cfg.hash(e.newToken) := e.now]);
            Finish(cfg, WantReset, m, e) == Finish(cfg, WantSnapshot(NewToken(e.newToken)), paired, e)
  {
    hide Finish;
    var reset := m.(attempts := Attempts(0, None));
    FinishStep(cfg, WantReset, m, e);
    FinishStep(cfg, InReset, m, e);
    FinishStep(cfg, WantInsert, reset, e);
    FinishStep(cfg, InInsert, reset, e);
  }

  /** A pairing attempt without interference; the clock goes on after the lockout check. */
  function Attempt(cfg: Config, code: string, m: Shared, early: Env, late: Env): (Shared, Return) {
    var (pc, m', r) := Move(cfg, InLockout(code), m, early);
    if pc == Idle then (m', r) else Finish(cfg, pc, m', late)
  }

  /** `try_pair` without interference does what the sequential model says. */
  lemma TryPairAlone(cfg: Config, code: string, m: Shared, early: Env, late: Env)
    ensures var (m', r) := Attempt(cfg, code, m, early, late);
            var (g, result) :=
              TryPair(AsGuard(cfg, m), code, early.instant, late.instant, late.now, late.newToken, late.writeOk);
            (AsGuard(cfg, m'), r) == (g, Outcome(result))
  {
    hide Finish, CodeMatches, CountFailure, ElapsedSecs;
    var (locked, a) := CheckLockout(m.attempts, early.instant);
    if locked.None? {
      var checked := m.(attempts := a);
      FinishStep(cfg, WantCode(code), checked, late);
      FinishStep(cfg, InCode(code), checked, late);
      if CodeMatches(m.code, code) {
        MatchedAlone(cfg, checked, late);
        SavingAlone(cfg, NewToken(late.newToken),
                    m.(attempts := Attempts(0, None), tokens := m.tokens[cfg.hash(late.newToken) := late.now]), late);
      } else {
        FinishStep(cfg, WantCount, checked, late);
        FinishStep(cfg, InCount, checked, late);
      }
    }
  }

  /** The write path of a check and a listing: prune, save on change, answer. */
  lemma PruningAlone(cfg: Config, call: WriteCall, m: Shared, e: Env)
    requires !call.Revoke?
    ensures var kept := Retain(m.tokens, call.now, cfg.ttl);
            var m' := m.(tokens := kept);
            var r := AnswerFrom(cfg, call, kept);
            Finish(cfg, WantWrite(call), m, e) ==
            (if |kept| != |m.tokens| && e.writeOk then m'.(file := Readable(kept)) else m', r)
  {
    hide Finish, Retain;
    var kept := Retain(m.tokens, call.now, cfg.ttl);
    var r := AnswerFrom(cfg, call, kept);
    FinishStep(cfg, WantWrite(call), m, e);
    FinishStep(cfg, InWrite(call), m, e);
    if |kept| != |m.tokens| {
      SavingAlone(cfg, Finished(r), m.(tokens := kept), e);
    }
  }

  /** So does a token check. */
  lemma CheckAlone(cfg: Config, token: string, m: Shared, e: Env)
    requires token != ""
    ensures var (m', r) := Finish(cfg, WantRead(token, e.now), m, e);
            (AsGuard(cfg, m'), r) ==
            var (g, yes) := IsAccepted(AsGuard(cfg, m), token, e.now, e.writeOk);
            (g, Answer(yes))
  {
    hide Finish, HasExpired, Retain;
    FinishStep(cfg, WantRead(token, e.now), m, e);
    FinishStep(cfg, InRead(token, e.now), m, e);
    hide Move;
    PruningAlone(cfg, Accept(token, e.now), m, e);
  }

  /** So does a listing, which returns exactly the hashes younger than the ttl. */
  lemma ListAlone(cfg: Config, m: Shared, e: Env)
    ensures var (m', r) := Finish(cfg, WantWrite(Prune(e.now)), m, e);
            && AsGuard(cfg, m') == Pairing.Prune(AsGuard(cfg, m), e.now, e.writeOk)
            && r.Listed?
            && forall h :: h in r.hashes <==> h in m.tokens && Age(e.now, m.tokens[h]) < cfg.ttl
  {
    hide Finish;
    PruningAlone(cfg, Prune(e.now), m, e);
  }

  /** So does a revocation. */
  lemma RevokeAlone(cfg: Config, m: Shared, e: Env)
    ensures var (m', r) := Finish(cfg, WantWrite(Revoke), m, e);
            AsGuard(cfg, m') == RevokeAll(AsGuard(cfg, m), e.writeOk) && r == Done
  {
    hide Finish;
    FinishStep(cfg, WantWrite(Revoke), m, e);
    FinishStep(cfg, InWrite(Revoke), m, e);
    SavingAlone(cfg, Finished(Done), m.(tokens := map[]), e);
  }

  lemma EmptyTokenIsRefused(g: Guard, now: nat, writeOk: bool)
    ensures IsAccepted(g, "", now, writeOk) == (g, false)
  {
  }

  /** A whole call of an idle thread without interference and with one clock reading. */
  function WholeCall(cfg: Config, m: Shared, e: Env): (Shared, Return) {
    var (pc, m', r) := Move(cfg, Idle, m, e);
    if pc == Idle then (m', r) else Finish(cfg, pc, m', e)
  }

  /** From its first step on every call that runs alone is the sequential call. */
  lemma CallAlone(cfg: Config, m: Shared, e: Env)
    ensures var (m', r) := WholeCall(cfg, m, e);
            var g := AsGuard(cfg, m);
            match e.request
            case PairWith(code) =>
              var (g', result) := TryPair(g, code, e.instant, e.instant, e.now, e.newToken, e.writeOk);
              (AsGuard(cfg, m'), r) == (g', Outcome(result))
            case Check(token) =>
              var (g', yes) := IsAccepted(g, token, e.now, e.writeOk);
              (AsGuard(cfg, m'), r) == (g', Answer(yes))
            case List => AsGuard(cfg, m') == Pairing.Prune(g, e.now, e.writeOk) && r == Listed(m'.tokens.Keys)
            case RevokeTokens => AsGuard(cfg, m') == RevokeAll(g, e.writeOk) && r == Done
  {
    match e.request
    case PairWith(code) =>
      FinishStep(cfg, WantLockout(code), m, e);
      FinishStep(cfg, InLockout(code), m, e);
      hide Finish, TryPair;
      TryPairAlone(cfg, code, m, e, e);
    case Check(token) =>
      hide Finish, IsAccepted;
      if token != "" {
        CheckAlone(cfg, token, m, e);
      } else {
        EmptyTokenIsRefused(AsGuard(cfg, m), e.now, e.writeOk);
      }
    case List =>
      hide Finish, Retain;
      PruningAlone(cfg, Prune(e.now), m, e);
    case RevokeTokens =>
      hide Finish;
      RevokeAlone(cfg, m, e);
  }

  // ----- acceptance on both lock paths -----

  /** The token and the clock reading of a check that holds the lock it decides under. */
  predicate Decides(pc: Pc, token: string, now: nat) {
    pc == InRead(token, now) || pc == InWrite(Accept(token, now))
  }

  /** The answer a step fixes, whether it returns it at once or after saving. */
  function FixedAnswer(pc': Pc, r: Return): Option<bool> {
    if r.Answer? then Some(r.yes)
    else if pc'.WantSnapshot? && pc'.saver.Finished? && pc'.saver.r.Answer? then Some(pc'.saver.r.yes)
    else None
  }

  /**
   Under the read lock or under the write lock, a yes is for a token stored
   with age at most the ttl, a stored token younger than that gets a yes, and
   only the read path may leave the decision to the write path.
   */
  lemma DecisionIsSound(cfg: Config, pc: Pc, m: Shared, e: Env, token: string, now: nat)
    requires Decides(pc, token, now) && cfg.ttl > 0
    ensures var (pc', m', r) := Move(cfg, pc, m, e);
            var h := cfg.hash(token);
            var answer := FixedAnswer(pc', r);
            && (answer == Some(true) ==> h in m.tokens && Age(now, m.tokens[h]) <= cfg.ttl && h in m'.tokens)
            && (answer == Some(false) ==> h !in m'.tokens)
            && (h in m.tokens && Age(now, m.tokens[h]) < cfg.ttl ==> answer != Some(false))
            && (answer == None <==> pc.InRead? && HasExpired(m.tokens, now, cfg.ttl))
            && (answer == None ==> pc' == WantWrite(Accept(token, now)) && m' == m)
  {
  }

  // ----- a rejected token stays rejected -----

  /** The step in which `try_pair` stores the hash of a new token. */
  predicate Stores(cfg: Config, s: State, t: nat, e: Env, h: string) {
    t < |s.pcs| && s.pcs[t].InInsert? && cfg.hash(e.newToken) == h
  }

  predicate StoresWithin(cfg: Config, s: State, schedule: Schedule, h: string)
    decreases |schedule|
  {
    schedule != [] &&
    var (t, e) := schedule[0];
    Stores(cfg, s, t, e, h) || StoresWithin(cfg, Step(cfg, s, t, e).0, schedule[1..], h)
  }

  lemma OnlyInsertingStores(cfg: Config, s: State, t: nat, e: Env, h: string)
    requires h !in s.mem.tokens && !Stores(cfg, s, t, e, h)
    ensures h !in Step(cfg, s, t, e).0.mem.tokens
  {
    hide CheckLockout, CountFailure, CodeMatches, HasExpired, Enabled;
  }

  lemma {:induction false} AbsentStaysAbsent(cfg: Config, s: State, schedule: Schedule, h: string)
    requires h !in s.mem.tokens && !StoresWithin(cfg, s, schedule, h)
    ensures h !in Run(cfg, s, schedule).mem.tokens
    decreases |schedule|
  {
    hide Step, Stores;
    if schedule != [] {
      var (t, e) := schedule[0];
      OnlyInsertingStores(cfg, s, t, e, h);
      AbsentStaysAbsent(cfg, Step(cfg, s, t, e).0, schedule[1..], h);
    }
  }

  /** Thread `t` decides a check of this token in its next step, and this is the answer it fixes. */
  function DecidedBy(cfg: Config, s: State, t: nat, e: Env, token: string, now: nat): Option<bool> {
    if t < |s.pcs| && Decides(s.pcs[t], token, now) then
      var (s', r) := Step(cfg, s, t, e);
      FixedAnswer(s'.pcs[t], r)
    else None
  }

  lemma DecidedMeans(cfg: Config, s: State, t: nat, e: Env, token: string, now: nat)
    requires cfg.ttl > 0
    ensures var answer := DecidedBy(cfg, s, t, e, token, now);
            && (answer == Some(true) ==> cfg.hash(token) in s.mem.tokens)
            && (answer == Some(false) ==> cfg.hash(token) !in Step(cfg, s, t, e).0.mem.tokens)
  {
    hide Move, FixedAnswer;
    if t < |s.pcs| && Decides(s.pcs[t], token, now) {
      DecisionIsSound(cfg, s.pcs[t], s.mem, e, token, now);
      assert Enabled(s.pcs, t);
    }
  }

  /**
   Once a check has decided no, in every interleaving and under any clocks no
   check decides yes for that token before a pairing stores its hash.
   */
  lemma RejectedStaysRejected(cfg: Config, s: State, t: nat, e: Env, token: string, now: nat,
                              schedule: Schedule, t': nat, e': Env, now': nat)
    requires cfg.ttl > 0 && DecidedBy(cfg, s, t, e, token, now) == Some(false)
    requires !StoresWithin(cfg, Step(cfg, s, t, e).0, schedule, cfg.hash(token))
    ensures DecidedBy(cfg, Run(cfg, Step(cfg, s, t, e).0, schedule), t', e', token, now') != Some(true)
  {
    hide Step, Run, StoresWithin, DecidedBy;
    var s1 := Step(cfg, s, t, e).0;
    DecidedMeans(cfg, s, t, e, token, now);
    AbsentStaysAbsent(cfg, s1, schedule, cfg.hash(token));
    DecidedMeans(cfg, Run(cfg, s1, schedule), t', e', token, now');
  }

  // ----- a stored token stays accepted -----

  /** The step does not revoke or store the hash again, and prunes only while the token is younger than the ttl. */
  predicate Spares(cfg: Config, s: State, t: nat, e: Env, h: string, issuedAt: nat) {
    && !Stores(cfg, s, t, e, h)
    && (t < |s.pcs| && s.pcs[t].InWrite? ==>
          !s.pcs[t].call.Revoke? && Age(s.pcs[t].call.now, issuedAt) < cfg.ttl)
  }

  predicate SparesWithin(cfg: Config, s: State, schedule: Schedule, h: string, issuedAt: nat)
    decreases |schedule|
  {
    schedule != [] ==>
      var (t, e) := schedule[0];
      Spares(cfg, s, t, e, h, issuedAt) && SparesWithin(cfg, Step(cfg, s, t, e).0, schedule[1..], h, issuedAt)
  }

  lemma StepSparesYoung(cfg: Config, s: State, t: nat, e: Env, h: string)
    requires h in s.mem.tokens && Spares(cfg, s, t, e, h, s.mem.tokens[h])
    ensures h in Step(cfg, s, t, e).0.mem.tokens
    ensures Step(cfg, s, t, e).0.mem.tokens[h] == s.mem.tokens[h]
  {
    hide CheckLockout, CountFailure, CodeMatches, HasExpired, Enabled;
  }

  lemma {:induction false} RunSparesYoung(cfg: Config, s: State, schedule: Schedule, h: string)
    requires h in s.mem.tokens && SparesWithin(cfg, s, schedule, h, s.mem.tokens[h])
    ensures h in Run(cfg, s, schedule).mem.tokens
    ensures Run(cfg, s, schedule).mem.tokens[h] == s.mem.tokens[h]
    decreases |schedule|
  {
    hide Step, Spares;
    if schedule != [] {
      var (t, e) := schedule[0];
      StepSparesYoung(cfg, s, t, e, h);
      RunSparesYoung(cfg, Step(cfg, s, t, e).0, schedule[1..], h);
    }
  }

  /**
   A stored token stays accepted: in every interleaving without a revocation, as
   long as every clock reading that prunes or decides makes the token younger
   than the ttl, no check decides no for it.
   */
  lemma StoredStaysAccepted(cfg: Config, s: State, schedule: Schedule, token: string, t: nat, e: Env, now: nat)
    requires var h := cfg.hash(token);
             && h in s.mem.tokens && Age(now, s.mem.tokens[h]) < cfg.ttl
             && SparesWithin(cfg, s, schedule, h, s.mem.tokens[h])
    ensures DecidedBy(cfg, Run(cfg, s, schedule), t, e, token, now) != Some(false)
  {
    RunSparesYoung(cfg, s, schedule, cfg.hash(token));
    var s' := Run(cfg, s, schedule);
    hide Run, Move, FixedAnswer, SparesWithin;
    if t < |s'.pcs| && Decides(s'.pcs[t], token, now) {
      DecisionIsSound(cfg, s'.pcs[t], s'.mem, e, token, now);
      assert Enabled(s'.pcs, t);
    }
  }
}
