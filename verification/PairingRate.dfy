/** The brute-force limit of the pairing guard under any number of threads. */
module PairingRates {
  import opened Strings
  import opened Pairing
  import opened PairingThreads

  /** How many calls return without a token and without a lockout along a schedule. */
  function Rejections(cfg: Config, s: State, schedule: Schedule): nat
    decreases |schedule|
  {
    if schedule == [] then 0
    else
      var (s', r) := Step(cfg, s, schedule[0].0, schedule[0].1);
      (if r == Outcome(Rejected) then 1 else 0) + Rejections(cfg, s', schedule[1..])
  }

  predicate MonotoneFrom(t: nat, schedule: Schedule)
    decreases |schedule|
  {
    schedule != [] ==> t <= schedule[0].1.instant && MonotoneFrom(schedule[0].1.instant, schedule[1..])
  }

  function LastInstant(t: nat, schedule: Schedule): nat
    decreases |schedule|
  {
    if schedule == [] then t else LastInstant(schedule[0].1.instant, schedule[1..])
  }

  lemma {:induction false} LastIsLater(t: nat, schedule: Schedule)
    requires MonotoneFrom(t, schedule)
    ensures t <= LastInstant(t, schedule)
    decreases |schedule|
  {
    if schedule != [] {
      LastIsLater(schedule[0].1.instant, schedule[1..]);
    }
  }

  // ----- how often the counter can still go back to zero -----

  /** By lockouts that run out between `t` and `last`. */
  function Expiries(a: Attempts, t: nat, last: nat): nat {
    match a.lockedAt
    case None => Age(last, t) / WINDOW
    case Some(l) =>
      var open := if t < l + WINDOW then l + WINDOW else t;
      if last < open then 0 else 1 + (last - open) / WINDOW
  }

  predicate PastReset(pc: Pc) {
    Winning(pc) && !pc.WantReset? && !pc.InReset?
  }

  /** By the pairing that is still to come. */
  function Resets(s: State): nat {
    if s.mem.code.Some? && Nobody(s.pcs, PastReset) then 1 else 0
  }

  predicate LockTimeBy(a: Attempts, t: nat) {
    a.lockedAt.Some? ==> a.lockedAt.value <= t
  }

  lemma ExpiriesShrink(a: Attempts, t: nat, t': nat, last: nat)
    requires t <= t' <= last
    ensures Expiries(a, t', last) <= Expiries(a, t, last)
  {
    DivMonotone(last - t', last - t);
    match a.lockedAt
    case None =>
    case Some(l) =>
      if t' >= l + WINDOW && t < l + WINDOW {
        DivMonotone(last - t', last - (l + WINDOW));
      }
  }

  /** A lock time that is not in the future leaves at least as many as none. */
  lemma NoLockIsLeast(a: Attempts, t: nat, last: nat)
    requires t <= last && LockTimeBy(a, t)
    ensures (last - t) / WINDOW <= Expiries(a, t, last)
  {
    match a.lockedAt
    case None =>
    case Some(l) =>
      var open := if t < l + WINDOW then l + WINDOW else t;
      if last >= open {
        DivMonotone(last - t, last - open + WINDOW);
        assert (last - open + WINDOW) / WINDOW == (last - open) / WINDOW + 1;
      } else {
        assert (last - t) / WINDOW == 0;
      }
  }

  /** A fresh lock time leaves exactly as many. */
  lemma FreshLock(count: nat, t: nat, last: nat)
    requires t <= last
    ensures Expiries(Attempts(count, Some(t)), t, last) == (last - t) / WINDOW
  {
    if last >= t + WINDOW {
      assert (last - t) / WINDOW == (last - (t + WINDOW)) / WINDOW + 1;
    } else {
      assert (last - t) / WINDOW == 0;
    }
  }

  // ----- what one step does -----

  lemma NoLock(count: nat, t: nat, last: nat)
    requires t <= last
    ensures Expiries(Attempts(count, None), t, last) == (last - t) / WINDOW
  {
  }

  /** A lockout that has run out counts once. */
  lemma OpenLock(a: Attempts, t: nat, last: nat)
    requires t <= last && a.lockedAt.Some?
    ensures ElapsedSecs(a.lockedAt.value, t) >= PAIR_LOCKOUT_SECS ==> Expiries(a, t, last) == 1 + (last - t) / WINDOW
  {
  }

  lemma MoveOnAttempts(cfg: Config, pc: Pc, m: Shared, e: Env, last: nat)
    requires LockTimeBy(m.attempts, e.instant) && e.instant <= last
    requires m.attempts.lockedAt.Some? <==> m.attempts.count >= MAX_PAIR_ATTEMPTS
    requires Saves(pc) && pc.saver.Finished? ==> !pc.saver.r.Outcome?
    ensures var (pc', m', r) := Move(cfg, pc, m, e);
            var before, after := Expiries(m.attempts, e.instant, last), Expiries(m'.attempts, e.instant, last);
            && LockTimeBy(m'.attempts, e.instant)
            && (r == Outcome(Rejected) ==> m'.attempts.count == m.attempts.count + 1)
            && (if pc.InReset? then after <= before && r != Outcome(Rejected)
                else if m'.attempts.count >= m.attempts.count then after <= before
                else after < before)
  {
    hide CodeMatches, HasExpired, Retain, Expiries;
    NoLockIsLeast(m.attempts, e.instant, last);
    FreshLock(m.attempts.count + 1, e.instant, last);
    NoLock(0, e.instant, last);
    NoLock(m.attempts.count + 1, e.instant, last);
    if pc.InLockout? && m.attempts.lockedAt.Some? {
      OpenLock(m.attempts, e.instant, last);
    }
  }

  lemma MoveOnResets(cfg: Config, pc: Pc, m: Shared, e: Env)
    requires Winning(pc) ==> m.code.Some?
    ensures var (pc', m', r) := Move(cfg, pc, m, e);
            && (m'.code.Some? ==> m.code.Some?)
            && (PastReset(pc) && m'.code.Some? ==> PastReset(pc'))
            && (pc.InReset? ==> PastReset(pc'))
  {
    hide CheckLockout, CountFailure, HasExpired, Trim;
  }

  lemma OnlyOnePastReset(pcs: seq<Pc>, t: nat)
    requires MutualExclusion(pcs) && t < |pcs| && pcs[t].InReset?
    ensures Nobody(pcs, PastReset)
  {
  }

  lemma StepOnResets(cfg: Config, s: State, t: nat, e: Env)
    requires MutualExclusion(s.pcs) && WinnerSeesCode(s) && t < |s.pcs|
    ensures Resets(Step(cfg, s, t, e).0) <= Resets(s)
    ensures s.pcs[t].InReset? && Enabled(s.pcs, t) ==> Resets(Step(cfg, s, t, e).0) < Resets(s)
  {
    hide Move, PastReset;
    MoveOnResets(cfg, s.pcs[t], s.mem, e);
    var s' := Step(cfg, s, t, e).0;
    if Enabled(s.pcs, t) {
      var pc' := Move(cfg, s.pcs[t], s.mem, e).0;
      assert s'.pcs == s.pcs[t := pc'];
      if i :| 0 <= i < |s.pcs| && PastReset(s.pcs[i]) {
        assert s'.pcs[i] == if i == t then pc' else s.pcs[i];
      }
      if s.pcs[t].InReset? {
        OnlyOnePastReset(s.pcs, t);
        assert s'.pcs[t] == pc';
      }
    }
  }

  // ----- the bound -----

  function Fill(cap: nat, periods: nat): nat {
    cap * periods
  }

  lemma FillMonotone(cap: nat, few: nat, many: nat)
    requires few <= many
    ensures Fill(cap, few) <= Fill(cap, many)
    ensures few < many ==> Fill(cap, few) + cap <= Fill(cap, many)
  {
    assert cap * (many - few) == cap * many - cap * few;
    if few < many {
      assert cap * (many - few - 1) == cap * (many - few) - cap;
      assert cap * (many - few - 1) >= 0;
    }
  }

  /** The stretches from one zero of the counter to the next, this one included. */
  function Periods(s: State, t: nat, last: nat): nat {
    1 + Expiries(s.mem.attempts, t, last) + Resets(s)
  }

  /** Either the counter goes up with every rejection, or it goes down and a period is over. */
  lemma StepUsesPeriods(cfg: Config, s: State, t: nat, e: Env, last: nat)
    requires Inv(s) && LockTimeBy(s.mem.attempts, e.instant) && e.instant <= last
    ensures var (s', r) := Step(cfg, s, t, e);
            var rejected := if r == Outcome(Rejected) then 1 else 0;
            && LockTimeBy(s'.mem.attempts, e.instant)
            && Periods(s', e.instant, last) <= Periods(s, e.instant, last)
            && (s'.mem.attempts.count >= s.mem.attempts.count + rejected
                || (rejected == 0 && Periods(s', e.instant, last) < Periods(s, e.instant, last)))
  {
    hide Move, Expiries, Resets, MutualExclusion;
    if t < |s.pcs| && Enabled(s.pcs, t) {
      MoveOnAttempts(cfg, s.pcs[t], s.mem, e, last);
      StepOnResets(cfg, s, t, e);
    }
  }

  lemma FillOne(cap: nat)
    ensures Fill(cap, 1) == cap
  {
  }

  lemma {:induction false} RejectionsWithinPeriods(cfg: Config, s: State, t: nat, schedule: Schedule)
    requires Inv(s) && LockTimeBy(s.mem.attempts, t) && MonotoneFrom(t, schedule)
    ensures Rejections(cfg, s, schedule) + s.mem.attempts.count
         <= Fill(4 + |s.pcs|, Periods(s, t, LastInstant(t, schedule)))
    decreases |schedule|
  {
    hide Step, MutualExclusion, WinnerSeesCode, AnswersAreNoOutcomes, Expiries, Resets, Fill;
    var last, cap := LastInstant(t, schedule), 4 + |s.pcs|;
    if schedule == [] {
      FillMonotone(cap, 1, Periods(s, t, last));
      FillOne(cap);
    } else {
      var (i, e) := schedule[0];
      var s' := Step(cfg, s, i, e).0;
      LastIsLater(e.instant, schedule[1..]);
      ExpiriesShrink(s.mem.attempts, t, e.instant, last);
      StepUsesPeriods(cfg, s, i, e, last);
      StepKeepsInv(cfg, s, i, e);
      RejectionsWithinPeriods(cfg, s', e.instant, schedule[1..]);
      FillMonotone(cap, Periods(s', e.instant, last), Periods(s, t, last));
    }
  }

  /**
   From a guard just built, whatever the interleaving: in T seconds of a
   monotone clock n threads look at no more than (4 + n)(T/300 + 2) wrong codes.
   */
  lemma RejectionRate(cfg: Config, s: State, threads: nat, t: nat, schedule: Schedule)
    requires Initial(s, threads) && MonotoneFrom(t, schedule)
    ensures t <= LastInstant(t, schedule)
    ensures Rejections(cfg, s, schedule) <= (4 + threads) * ((LastInstant(t, schedule) - t) / 300_000_000_000 + 2)
  {
    hide Rejections, Inv;
    var last := LastInstant(t, schedule);
    LastIsLater(t, schedule);
    InitialInv(s, threads);
    RejectionsWithinPeriods(cfg, s, t, schedule);
    FillMonotone(4 + threads, Periods(s, t, last), (last - t) / WINDOW + 2);
  }
}
