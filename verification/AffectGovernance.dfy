/** The bridge from sustained distress to trust violations (src/security/affect_governance.rs). */
module AffectGovernance {
  import opened DomainTrusts

  // ----- the distress score -----

  datatype Activation = Activation(node: string, surfacedIntensity: real, suppressed: bool)

  datatype WeightRow = WeightRow(node: string, weight: real)

  const DISTRESS_WEIGHTS: seq<WeightRow> := [
    WeightRow("anxiety", 0.35),
    WeightRow("anger", 0.30),
    WeightRow("guardedness", 0.15),
    WeightRow("shame", 0.10),
    WeightRow("emptiness", 0.10)
  ]

  /** The weight of a node; rows with the same name add up. */
  function WeightIn(rows: seq<WeightRow>, node: string): real {
    if rows == [] then 0.0
    else WeightIn(rows[..|rows| - 1], node) + (if rows[|rows| - 1].node == node then rows[|rows| - 1].weight else 0.0)
  }

  function Weighted(x: real, w: real): real {
    x * w
  }

  function Distress(activations: seq<Activation>): real {
    if activations == [] then 0.0
    else
      var a := activations[|activations| - 1];
      Distress(activations[..|activations| - 1])
      + (if a.suppressed then 0.0 else Weighted(a.surfacedIntensity, WeightIn(DISTRESS_WEIGHTS, a.node)))
  }

  function Clamp(x: real): (r: real)
    ensures 0.0 <= r <= 1.0 && (0.0 <= x <= 1.0 ==> r == x) && (x < 0.0 ==> r == 0.0) && (x > 1.0 ==> r == 1.0)
  {
    if x < 0.0 then 0.0 else if x > 1.0 then 1.0 else x
  }

  lemma WeightedAdds(x: real, v: real, w: real)
    ensures Weighted(x, v + w) == Weighted(x, v) + Weighted(x, w) && Weighted(x, 0.0) == 0.0
  {
  }

  /** The inner loop: one activation against every row of the weight table. */
  method AddActivation(sum: real, a: Activation, rows: seq<WeightRow>) returns (score: real)
    ensures score == sum + Weighted(a.surfacedIntensity, WeightIn(rows, a.node))
  {
    hide Weighted;
    score := sum;
    WeightedAdds(a.surfacedIntensity, 0.0, 0.0);
    for j := 0 to |rows|
      invariant score == sum + Weighted(a.surfacedIntensity, WeightIn(rows[..j], a.node))
    {
      assert rows[..j + 1][..j] == rows[..j];
      WeightedAdds(a.surfacedIntensity, WeightIn(rows[..j], a.node), rows[j].weight);
      if a.node == rows[j].node {
        score := score + Weighted(a.surfacedIntensity, rows[j].weight);
      }
    }
    assert rows[..|rows|] == rows;
  }

  method ComputeDistressScore(activations: seq<Activation>) returns (score: real)
    ensures score == Clamp(Distress(activations))
  {
    hide Weighted, WeightIn;
    var sum := 0.0;
    for i := 0 to |activations|
      invariant sum == Distress(activations[..i])
    {
      assert activations[..i + 1][..i] == activations[..i];
      if activations[i].suppressed {
        continue;
      }
      sum := AddActivation(sum, activations[i], DISTRESS_WEIGHTS);
    }
    assert activations[..|activations|] == activations;
    score := Clamp(sum);
  }

  /** The score of two parts is the sum of their scores. */
  lemma {:induction false} DistressOfParts(a: seq<Activation>, b: seq<Activation>)
    ensures Distress(a + b) == Distress(a) + Distress(b)
    decreases |b|
  {
    if b == [] {
      assert a + b == a;
    } else {
      assert (a + b)[..|a + b| - 1] == a + b[..|b| - 1];
      DistressOfParts(a, b[..|b| - 1]);
    }
  }

  lemma WithoutOne<T>(a: multiset<T>, b: multiset<T>, x: T)
    requires a + multiset{x} == b + multiset{x}
    ensures a == b
  {
    assert a == a + multiset{x} - multiset{x};
    assert b == b + multiset{x} - multiset{x};
  }

  lemma SameWithout<T>(init: seq<T>, front: seq<T>, back: seq<T>, x: T)
    requires multiset(init + [x]) == multiset((front + [x]) + back)
    ensures multiset(init) == multiset(front + back)
  {
    assert multiset(init + [x]) == multiset(init) + multiset{x};
    assert multiset((front + [x]) + back) == multiset(front + back) + multiset{x};
    WithoutOne(multiset(init), multiset(front + back), x);
  }

  /** The order of the activations does not matter. */
  lemma {:induction false} DistressIgnoresOrder(a: seq<Activation>, b: seq<Activation>)
    requires multiset(a) == multiset(b)
    ensures Distress(a) == Distress(b)
    decreases |a|
  {
    hide Distress;
    assert |a| == |multiset(a)| == |b|;
    if a != [] {
      var init, last := a[..|a| - 1], a[|a| - 1];
      assert a == init + [last];
      assert last in multiset(b);
      var i :| 0 <= i < |b| && b[i] == last;
      var front, back := b[..i], b[i + 1..];
      assert b == (front + [last]) + back;
      SameWithout(init, front, back, last);
      DistressIgnoresOrder(init, front + back);
      DistressOfParts(front, back);
      DistressOfParts(front, [last]);
      DistressOfParts(front + [last], back);
      DistressOfParts(init, [last]);
    }
  }

  /** Every distress node at full intensity. */
  const SATURATED: seq<Activation> := [
    Activation("anxiety", 1.0, false),
    Activation("anger", 1.0, false),
    Activation("guardedness", 1.0, false),
    Activation("shame", 1.0, false),
    Activation("emptiness", 1.0, false)
  ]

  lemma {:induction false} WeightOfAbsent(rows: seq<WeightRow>, node: string)
    requires forall j :: 0 <= j < |rows| ==> rows[j].node != node
    ensures WeightIn(rows, node) == 0.0
    decreases |rows|
  {
    if rows != [] {
      WeightOfAbsent(rows[..|rows| - 1], node);
    }
  }

  lemma {:induction false} WeightOf(rows: seq<WeightRow>, node: string, i: nat)
    requires i < |rows| && rows[i].node == node
    requires forall j :: 0 <= j < |rows| && j != i ==> rows[j].node != node
    ensures WeightIn(rows, node) == rows[i].weight
    decreases |rows|
  {
    var k := |rows| - 1;
    if i == k {
      WeightOfAbsent(rows[..k], node);
    } else {
      WeightOf(rows[..k], node, i);
    }
  }

  lemma NodesDiffer(i: nat, j: nat)
    requires i < j < |DISTRESS_WEIGHTS|
    ensures DISTRESS_WEIGHTS[i].node != DISTRESS_WEIGHTS[j].node
  {
    if i == 1 && j == 3 {
      assert "anger"[0] != "shame"[0];
    } else {
      assert |DISTRESS_WEIGHTS[i].node| != |DISTRESS_WEIGHTS[j].node|;
    }
  }

  lemma WeightOfRow(row: nat)
    requires row < |DISTRESS_WEIGHTS|
    ensures WeightIn(DISTRESS_WEIGHTS, DISTRESS_WEIGHTS[row].node) == DISTRESS_WEIGHTS[row].weight
  {
    hide WeightIn;
    forall j | 0 <= j < |DISTRESS_WEIGHTS| && j != row
      ensures DISTRESS_WEIGHTS[j].node != DISTRESS_WEIGHTS[row].node
    {
      NodesDiffer(if j < row then j else row, if j < row then row else j);
    }
    WeightOf(DISTRESS_WEIGHTS, DISTRESS_WEIGHTS[row].node, row);
  }

  /** The weights, spelled out. */
  function NodeWeight(node: string): real {
    match node
    case "anxiety" => 0.35
    case "anger" => 0.30
    case "guardedness" => 0.15
    case "shame" => 0.10
    case "emptiness" => 0.10
    case _ => 0.0
  }

  predicate IsDistressNode(node: string) {
    node == "anxiety" || node == "anger" || node == "guardedness" || node == "shame" || node == "emptiness"
  }

  lemma RowsListed()
    ensures DISTRESS_WEIGHTS[0] == WeightRow("anxiety", 0.35) && DISTRESS_WEIGHTS[1] == WeightRow("anger", 0.30)
    ensures DISTRESS_WEIGHTS[2] == WeightRow("guardedness", 0.15) && DISTRESS_WEIGHTS[3] == WeightRow("shame", 0.10)
    ensures DISTRESS_WEIGHTS[4] == WeightRow("emptiness", 0.10) && |DISTRESS_WEIGHTS| == 5
  {
  }

  lemma NodeWeightOfRow(row: nat)
    requires row < |DISTRESS_WEIGHTS|
    ensures NodeWeight(DISTRESS_WEIGHTS[row].node) == DISTRESS_WEIGHTS[row].weight
  {
    RowsListed();
  }

  lemma AbsentWeighsNothing(node: string)
    requires forall row :: 0 <= row < |DISTRESS_WEIGHTS| ==> DISTRESS_WEIGHTS[row].node != node
    ensures NodeWeight(node) == 0.0
  {
    RowsListed();
    assert DISTRESS_WEIGHTS[0].node != node && DISTRESS_WEIGHTS[1].node != node && DISTRESS_WEIGHTS[2].node != node;
    assert DISTRESS_WEIGHTS[3].node != node && DISTRESS_WEIGHTS[4].node != node;
  }

  lemma WeightIs(node: string)
    ensures WeightIn(DISTRESS_WEIGHTS, node) == NodeWeight(node)
  {
    hide WeightIn, NodeWeight;
    if row :| 0 <= row < |DISTRESS_WEIGHTS| && DISTRESS_WEIGHTS[row].node == node {
      WeightOfRow(row);
      NodeWeightOfRow(row);
    } else {
      WeightOfAbsent(DISTRESS_WEIGHTS, node);
      AbsentWeighsNothing(node);
    }
  }

  /** One activation that is not suppressed adds its intensity times the weight of its node; other nodes add nothing. */
  lemma DistressOfOne(a: Activation)
    ensures Distress([a]) == if a.suppressed then 0.0 else a.surfacedIntensity * NodeWeight(a.node)
  {
    hide WeightIn;
    WeightIs(a.node);
    assert [a][..0] == [];
  }

  function Unsuppressed(activations: seq<Activation>): seq<Activation> {
    if activations == [] then []
    else
      var init, last := Unsuppressed(activations[..|activations| - 1]), activations[|activations| - 1];
      if last.suppressed then init else init + [last]
  }

  lemma SuppressedScoresZero(a: Activation)
    ensures a.suppressed ==> Distress([a]) == 0.0
  {
    hide NodeWeight;
    DistressOfOne(a);
  }

  /** Suppressed activations do not count. */
  lemma {:induction false} DistressIgnoresSuppressed(activations: seq<Activation>)
    ensures Distress(activations) == Distress(Unsuppressed(activations))
    decreases |activations|
  {
    hide Distress;
    if activations != [] {
      var init, last := activations[..|activations| - 1], activations[|activations| - 1];
      assert activations == init + [last];
      DistressIgnoresSuppressed(init);
      SuppressedScoresZero(last);
      DistressOfParts(init, [last]);
      DistressOfParts(Unsuppressed(init), [last]);
    }
  }

  /** No activation of a distress node that is not suppressed. */
  predicate NoOpenDistress(activations: seq<Activation>) {
    forall i :: 0 <= i < |activations| ==> activations[i].suppressed || !IsDistressNode(activations[i].node)
  }

  lemma NothingScoresZero()
    ensures Distress([]) == 0.0
  {
  }

  lemma OtherNodeWeighsNothing(node: string)
    ensures !IsDistressNode(node) ==> NodeWeight(node) == 0.0
  {
  }

  lemma {:induction false} NoOpenDistressScoresZero(activations: seq<Activation>)
    requires NoOpenDistress(activations)
    ensures Distress(activations) == 0.0
    decreases |activations|
  {
    hide Weighted, WeightIn, NodeWeight, IsDistressNode, Distress;
    if activations == [] {
      NothingScoresZero();
    } else {
      var init, last := activations[..|activations| - 1], activations[|activations| - 1];
      NoOpenDistressScoresZero(init);
      assert activations == init + [last];
      DistressOfParts(init, [last]);
      DistressOfOne(last);
      OtherNodeWeighsNothing(last.node);
    }
  }

  function WeightsUpTo(k: nat): real
    requires k <= |DISTRESS_WEIGHTS|
  {
    if k == 0 then 0.0 else WeightsUpTo(k - 1) + DISTRESS_WEIGHTS[k - 1].weight
  }

  lemma {:induction false} SaturatedPrefix(k: nat)
    requires k <= |DISTRESS_WEIGHTS|
    ensures Distress(SATURATED[..k]) == WeightsUpTo(k)
  {
    hide WeightIn;
    if k > 0 {
      SaturatedPrefix(k - 1);
      WeightOfRow(k - 1);
      assert SATURATED[..k][..k - 1] == SATURATED[..k - 1];
      assert SATURATED[k - 1] == Activation(DISTRESS_WEIGHTS[k - 1].node, 1.0, false);
    }
  }

  /** The weights sum to one: full distress scores exactly 1 without the clamp. */
  lemma SaturatedScoresOne()
    ensures Distress(SATURATED) == 1.0
  {
    hide Distress;
    SaturatedPrefix(5);
    assert SATURATED[..5] == SATURATED;
    assert WeightsUpTo(2) == 0.65;
    assert WeightsUpTo(4) == 0.90;
  }

  // ----- the streak counter -----

  datatype Progress = Progress(count: nat, fired: nat)

  /** One turn: a high one counts, a calm one resets, and a full count fires and resets. */
  function Turn(required: nat, p: Progress, high: bool): Progress {
    var count := if high then p.count + 1 else 0;
    if count >= required then Progress(0, p.fired + 1) else Progress(count, p.fired)
  }

  function After(required: nat, turns: seq<bool>): Progress {
    if turns == [] then Progress(0, 0)
    else Turn(required, After(required, turns[..|turns| - 1]), turns[|turns| - 1])
  }

  /** The lengths of the stretches of high turns between calm ones; the last one is still running. */
  function Streaks(turns: seq<bool>): (r: seq<nat>)
    ensures r != []
  {
    if turns == [] then [0]
    else
      var r := Streaks(turns[..|turns| - 1]);
      if turns[|turns| - 1] then r[..|r| - 1] + [r[|r| - 1] + 1] else r + [0]
  }

  function SumOfQuotients(streaks: seq<nat>, n: nat): nat
    requires n > 0
  {
    if streaks == [] then 0
    else SumOfQuotients(streaks[..|streaks| - 1], n) + streaks[|streaks| - 1] / n
  }

  lemma OneMoreFactor(k: nat, n: nat)
    ensures k * (n + 1) == k * n + k
  {
  }

  lemma AtLeast(a: nat, b: nat, n: nat)
    requires a > b
    ensures a * n >= b * n + n
  {
    var d: nat := a - b - 1;
    assert a == b + 1 + d;
    assert a * n == b * n + n + d * n;
  }

  lemma QuotientIs(x: nat, n: nat, q: nat, r: nat)
    requires n > 0 && x == q * n + r && r < n
    ensures x / n == q && x % n == r
  {
    var q', r' := x / n, x % n;
    assert q * n + r == q' * n + r';
    if q > q' {
      AtLeast(q, q', n);
    } else if q < q' {
      AtLeast(q', q, n);
    }
  }

  lemma Successor(l: nat, n: nat)
    requires n > 0
    ensures l % n + 1 == n ==> (l + 1) % n == 0 && (l + 1) / n == l / n + 1
    ensures l % n + 1 < n ==> (l + 1) % n == l % n + 1 && (l + 1) / n == l / n
  {
    var q, r := l / n, l % n;
    var product := q * n;
    assert l == product + r;
    if r + 1 == n {
      OneMoreFactor(n, q);
      assert l + 1 == (q + 1) * n + 0;
      QuotientIs(l + 1, n, q + 1, 0);
    } else {
      QuotientIs(l + 1, n, q, r + 1);
    }
  }

  /** A high turn makes the streak one longer, and fires when that is a multiple of n. */
  lemma HighTurn(p: Progress, l: nat, n: nat, sum: nat)
    requires n > 0 && p.count == l % n && p.fired == sum + l / n
    ensures Turn(n, p, true) == Progress((l + 1) % n, sum + (l + 1) / n)
  {
    Successor(l, n);
  }

  lemma NoStreak(n: nat)
    requires n > 0
    ensures SumOfQuotients([0], n) == 0
  {
    assert [0][..0] == [];
  }

  lemma OneMoreStreak(streaks: seq<nat>, x: nat, n: nat)
    requires n > 0
    ensures SumOfQuotients(streaks + [x], n) == SumOfQuotients(streaks, n) + x / n
  {
    assert (streaks + [x])[..|streaks|] == streaks;
  }

  /** The counter is the last streak modulo n, and a violation is due for every n high turns of every streak. */
  predicate Counted(p: Progress, streaks: seq<nat>, n: nat)
    requires n > 0 && streaks != []
  {
    p.count == streaks[|streaks| - 1] % n && p.fired == SumOfQuotients(streaks, n)
  }

  lemma CountedStreak(p: Progress, before: seq<nat>, l: nat, n: nat)
    requires n > 0
    ensures Counted(p, before + [l], n) <==> p.count == l % n && p.fired == SumOfQuotients(before, n) + l / n
  {
    hide SumOfQuotients;
    OneMoreStreak(before, l, n);
  }

  lemma HighTurnCounts(p: Progress, before: seq<nat>, l: nat, n: nat)
    requires n > 0 && Counted(p, before + [l], n)
    ensures Counted(Turn(n, p, true), before + [l + 1], n)
  {
    hide SumOfQuotients, Counted, Turn;
    CountedStreak(p, before, l, n);
    HighTurn(p, l, n, SumOfQuotients(before, n));
    CountedStreak(Turn(n, p, true), before, l + 1, n);
  }

  lemma LowTurnCounts(p: Progress, streaks: seq<nat>, n: nat)
    requires n > 0 && streaks != [] && Counted(p, streaks, n)
    ensures Counted(Turn(n, p, false), streaks + [0], n)
  {
    hide SumOfQuotients;
    assert 0 % n == 0 && 0 / n == 0;
    CountedStreak(Turn(n, p, false), streaks, 0, n);
  }

  lemma OneMoreTurn(required: nat, turns: seq<bool>)
    requires turns != []
    ensures var front, high := turns[..|turns| - 1], turns[|turns| - 1];
            var r := Streaks(front);
            && After(required, turns) == Turn(required, After(required, front), high)
            && Streaks(turns) == if high then r[..|r| - 1] + [r[|r| - 1] + 1] else r + [0]
  {
  }

  lemma {:induction false} StreaksCount(required: nat, turns: seq<bool>)
    requires required > 0
    ensures Counted(After(required, turns), Streaks(turns), required)
    decreases |turns|
  {
    if turns == [] {
      NoStreak(required);
    } else {
      hide Counted, Turn;
      var front := turns[..|turns| - 1];
      var r := Streaks(front);
      StreaksCount(required, front);
      OneMoreTurn(required, turns);
      hide Streaks, After;
      if turns[|turns| - 1] {
        assert r == r[..|r| - 1] + [r[|r| - 1]];
        HighTurnCounts(After(required, front), r[..|r| - 1], r[|r| - 1], required);
      } else {
        LowTurnCounts(After(required, front), r, required);
      }
    }
  }

  /** The counter is the running streak modulo n, and the firings are the quotients by n over all streaks. */
  lemma StreaksDecide(required: nat, turns: seq<bool>)
    requires required > 0
    ensures var streaks := Streaks(turns);
            && After(required, turns).count == streaks[|streaks| - 1] % required
            && After(required, turns).fired == SumOfQuotients(streaks, required)
  {
    StreaksCount(required, turns);
    assert Counted(After(required, turns), Streaks(turns), required);
  }

  /** With no turns required, every turn fires. */
  lemma {:induction false} EveryTurnFires(turns: seq<bool>)
    ensures After(0, turns) == Progress(0, |turns|)
    decreases |turns|
  {
    if turns != [] {
      EveryTurnFires(turns[..|turns| - 1]);
    }
  }

  // ----- the bridge and the tracker -----

  datatype BridgeConfig = BridgeConfig(distressThreshold: real, turnsRequired: nat, affectedDomains: seq<string>)

  /** What one evaluation reads: the snapshot, and the clock if a violation is due. */
  datatype Input = Input(snapshot: seq<Activation>, now: int)

  /** The bridge's counter and the tracker's domains. */
  datatype Bridged = Bridged(count: nat, domains: Domains)

  predicate High(b: BridgeConfig, snapshot: seq<Activation>) {
    Clamp(Distress(snapshot)) >= b.distressThreshold
  }

  function ViolateEach(c: Config, m: Domains, affected: seq<string>, now: int): Domains {
    if affected == [] then m
    else
      Next(c, ViolateEach(c, m, affected[..|affected| - 1], now),
           Event(RecordViolation(affected[|affected| - 1]), now))
  }

  function Evaluated(b: BridgeConfig, c: Config, s: Bridged, input: Input): Bridged {
    var p := Turn(b.turnsRequired, Progress(s.count, 0), High(b, input.snapshot));
    Bridged(p.count, if p.fired > 0 then ViolateEach(c, s.domains, b.affectedDomains, input.now) else s.domains)
  }

  class AffectGovernanceBridge {
    const config: BridgeConfig
    var consecutiveDistressCount: nat
    var lastDistressScore: real

    constructor (config: BridgeConfig)
      ensures this.config == config && consecutiveDistressCount == 0
    {
      this.config := config;
      consecutiveDistressCount := 0;
      lastDistressScore := 0.0;
    }

    method Evaluate(snapshot: seq<Activation>, tracker: DomainTrustTracker, now: int)
      returns (violationRecorded: bool)
      modifies this, tracker
      ensures lastDistressScore == Clamp(Distress(snapshot))
      ensures Bridged(consecutiveDistressCount, tracker.domains)
           == Evaluated(config, tracker.config, Bridged(old(consecutiveDistressCount), old(tracker.domains)),
                        Input(snapshot, now))
      ensures violationRecorded <==>
              Turn(config.turnsRequired, Progress(old(consecutiveDistressCount), 0), High(config, snapshot)).fired == 1
    {
      var distress := ComputeDistressScore(snapshot);
      lastDistressScore := distress;

      if distress >= config.distressThreshold {
        consecutiveDistressCount := consecutiveDistressCount + 1;
      } else {
        consecutiveDistressCount := 0;
      }

      violationRecorded := consecutiveDistressCount >= config.turnsRequired;
      if violationRecorded {
        var affected := config.affectedDomains;
        for i := 0 to |affected|
          modifies tracker
          invariant tracker.domains == ViolateEach(tracker.config, old(tracker.domains), affected[..i], now)
        {
          assert affected[..i + 1][..i] == affected[..i];
          tracker.RecordViolation(affected[i], now);
        }
        assert affected[..|affected|] == affected;
        consecutiveDistressCount := 0;
      }
    }
  }

  /** A run of evaluations by a bridge that starts fresh. */
  function EvaluateAll(b: BridgeConfig, c: Config, m: Domains, inputs: seq<Input>): Bridged {
    if inputs == [] then Bridged(0, m)
    else Evaluated(b, c, EvaluateAll(b, c, m, inputs[..|inputs| - 1]), inputs[|inputs| - 1])
  }

  function Highs(b: BridgeConfig, inputs: seq<Input>): (turns: seq<bool>)
    ensures |turns| == |inputs|
  {
    seq(|inputs|, i requires 0 <= i < |inputs| => High(b, inputs[i].snapshot))
  }

  // ----- what a run does to one domain -----

  function Repeat(now: int, n: nat): (times: seq<int>)
    ensures |times| == n && forall i :: 0 <= i < n ==> times[i] == now
  {
    seq(n, _ => now)
  }

  /** When the firings of a run strike a domain: once per listing of it. */
  function StrikeTimes(b: BridgeConfig, inputs: seq<Input>, domain: string): seq<int> {
    if inputs == [] then []
    else
      var k := |inputs| - 1;
      var turns := Highs(b, inputs);
      StrikeTimes(b, inputs[..k], domain)
      + (if After(b.turnsRequired, turns).fired > After(b.turnsRequired, turns[..k]).fired
         then Repeat(inputs[k].now, multiset(b.affectedDomains)[domain]) else [])
  }

  lemma {:induction false} ViolateAtConcat(c: Config, d: DomainTrust, xs: seq<int>, ys: seq<int>)
    ensures ViolateAt(c, d, xs + ys) == ViolateAt(c, ViolateAt(c, d, xs), ys)
    decreases |ys|
  {
    hide Violate;
    if ys == [] {
      assert xs + ys == xs;
    } else {
      assert (xs + ys)[..|xs + ys| - 1] == xs + ys[..|ys| - 1];
      ViolateAtConcat(c, d, xs, ys[..|ys| - 1]);
    }
  }

  /** A domain that a violation creates is as one that was new before. */
  lemma ViolateNew(c: Config, lo: int, now: int)
    requires lo <= now
    ensures Violate(c, NewTrust(lo), now) == Violate(c, NewTrust(now), now)
  {
    hide Toward;
    NewStaysNeutral(c, lo, now);
  }

  lemma {:induction false} EachListingStrikesOnce(c: Config, m: Domains, affected: seq<string>, now: int,
                                                  domain: string, lo: int)
    requires lo <= now
    ensures EntryAt(ViolateEach(c, m, affected, now), domain, lo)
         == ViolateAt(c, EntryAt(m, domain, lo), Repeat(now, multiset(affected)[domain]))
    decreases |affected|
  {
    hide Violate;
    if affected != [] {
      var k := |affected| - 1;
      EachListingStrikesOnce(c, m, affected[..k], now, domain, lo);
      assert affected == affected[..k] + [affected[k]];
      if affected[k] == domain {
        var n := multiset(affected[..k])[domain];
        assert Repeat(now, n + 1)[..n] == Repeat(now, n);
        ViolateNew(c, lo, now);
      }
    }
  }

  lemma NoStrikes(c: Config, d: DomainTrust)
    ensures ViolateAt(c, d, []) == d
  {
  }

  lemma NoTurns(required: nat)
    ensures After(required, []) == Progress(0, 0)
  {
  }

  lemma LastTurn(required: nat, turns: seq<bool>)
    requires turns != []
    ensures var before := After(required, turns[..|turns| - 1]);
            var turn := Turn(required, Progress(before.count, 0), turns[|turns| - 1]);
            turn.fired <= 1 && After(required, turns) == Progress(turn.count, before.fired + turn.fired)
  {
  }

  /** Evaluating turn by turn keeps the counter of the streaks and strikes each domain at its strike times. */
  lemma {:induction false} RunOfEvaluations(b: BridgeConfig, c: Config, m: Domains, inputs: seq<Input>,
                                            domain: string, lo: int)
    requires forall i :: 0 <= i < |inputs| ==> lo <= inputs[i].now
    ensures EvaluateAll(b, c, m, inputs).count == After(b.turnsRequired, Highs(b, inputs)).count
    ensures EntryAt(EvaluateAll(b, c, m, inputs).domains, domain, lo)
         == ViolateAt(c, EntryAt(m, domain, lo), StrikeTimes(b, inputs, domain))
    decreases |inputs|
  {
    hide ViolateEach, ViolateAt, High, Turn, After;
    var n, d := multiset(b.affectedDomains)[domain], EntryAt(m, domain, lo);
    NoStrikes(c, d);
    NoTurns(b.turnsRequired);
    if inputs != [] {
      var k := |inputs| - 1;
      var init := inputs[..k];
      RunOfEvaluations(b, c, m, init, domain, lo);
      assert Highs(b, inputs)[..k] == Highs(b, init);
      LastTurn(b.turnsRequired, Highs(b, inputs));
      var before := EvaluateAll(b, c, m, init);
      EachListingStrikesOnce(c, before.domains, b.affectedDomains, inputs[k].now, domain, lo);
      ViolateAtConcat(c, d, StrikeTimes(b, init, domain), Repeat(inputs[k].now, n));
      assert StrikeTimes(b, init, domain) + [] == StrikeTimes(b, init, domain);
    }
  }

  lemma {:induction false} StrikesPerFiring(b: BridgeConfig, inputs: seq<Input>, domain: string)
    ensures |StrikeTimes(b, inputs, domain)|
         == multiset(b.affectedDomains)[domain] * After(b.turnsRequired, Highs(b, inputs)).fired
    decreases |inputs|
  {
    hide High, Turn, After, Repeat;
    NoTurns(b.turnsRequired);
    if inputs != [] {
      var k := |inputs| - 1;
      StrikesPerFiring(b, inputs[..k], domain);
      LastTurn(b.turnsRequired, Highs(b, inputs));
      assert Highs(b, inputs)[..k] == Highs(b, inputs[..k]);
      OneMoreFactor(multiset(b.affectedDomains)[domain], After(b.turnsRequired, Highs(b, inputs[..k])).fired);
    }
  }

  lemma {:induction false} ViolationsCounted(c: Config, d: DomainTrust, times: seq<int>)
    ensures ViolateAt(c, d, times).violations == d.violations + |times|
    decreases |times|
  {
    hide Toward;
    if times != [] {
      ViolationsCounted(c, d, times[..|times| - 1]);
    }
  }

  lemma OldestTime(inputs: seq<Input>) returns (lo: int)
    ensures forall i :: 0 <= i < |inputs| ==> lo <= inputs[i].now
  {
    lo := 0;
    for k := 0 to |inputs|
      invariant forall i :: 0 <= i < k ==> lo <= inputs[i].now
    {
      lo := if inputs[k].now < lo then inputs[k].now else lo;
    }
  }

  function ViolationsOf(m: Domains, domain: string): nat {
    if domain in m then m[domain].violations else 0
  }

  /** Over any run every listed domain receives one violation per n high turns of each streak, per listing. */
  lemma ViolationsPerStreak(b: BridgeConfig, c: Config, m: Domains, inputs: seq<Input>, domain: string)
    requires b.turnsRequired > 0
    ensures ViolationsOf(EvaluateAll(b, c, m, inputs).domains, domain)
         == ViolationsOf(m, domain)
            + multiset(b.affectedDomains)[domain] * SumOfQuotients(Streaks(Highs(b, inputs)), b.turnsRequired)
  {
    hide EvaluateAll, After, StrikeTimes, ViolateAt, Highs;
    var lo := OldestTime(inputs);
    RunOfEvaluations(b, c, m, inputs, domain, lo);
    StreaksDecide(b.turnsRequired, Highs(b, inputs));
    StrikesPerFiring(b, inputs, domain);
    ViolationsCounted(c, EntryAt(m, domain, lo), StrikeTimes(b, inputs, domain));
  }

  predicate OrderedInputs(lo: int, inputs: seq<Input>, hi: int) {
    && (forall i :: 0 <= i < |inputs| ==> lo <= inputs[i].now <= hi)
    && (forall i, j :: 0 <= i < j < |inputs| ==> inputs[i].now <= inputs[j].now)
  }

  lemma {:induction false} StrikesAreOrdered(b: BridgeConfig, lo: int, inputs: seq<Input>, hi: int, domain: string)
    requires OrderedInputs(lo, inputs, hi)
    ensures Ordered(lo, StrikeTimes(b, inputs, domain), hi)
    ensures inputs != [] ==> forall i :: 0 <= i < |StrikeTimes(b, inputs, domain)| ==>
                               StrikeTimes(b, inputs, domain)[i] <= inputs[|inputs| - 1].now
    decreases |inputs|
  {
    hide Highs, After;
    if inputs != [] {
      StrikesAreOrdered(b, lo, inputs[..|inputs| - 1], hi, domain);
    }
  }

  /**
   Sustained distress ends autonomy: when the streaks of a run within a window
   bring more than k violations to a listed domain, and k of them use up the range
   above the demotion threshold, the domain is read-only at the end.
   */
  lemma DistressLeadsToReadOnly(b: BridgeConfig, c: Config, m: Domains, lo: int, inputs: seq<Input>, hi: int,
                                domain: string, k: nat)
    requires ValidConfig(c) && b.turnsRequired > 0 && lo <= hi && OrderedInputs(lo, inputs, hi)
    requires domain in m ==> Earned(c, m[domain])
    requires k > 0 && NEUTRAL + Ceiling(c.violationPenalty, k, c.decay(hi - lo)) < c.demotionThreshold
    requires multiset(b.affectedDomains)[domain] * SumOfQuotients(Streaks(Highs(b, inputs)), b.turnsRequired) > k
    ensures var after := EvaluateAll(b, c, m, inputs).domains;
            domain in after && after[domain].autonomy.ReadOnly?
  {
    hide EvaluateAll, After, StrikeTimes, ViolateAt, Highs, Ceiling, Earned, Ordered, ValidConfig;
    NewIsEarned(c, lo);
    RunOfEvaluations(b, c, m, inputs, domain, lo);
    StreaksDecide(b.turnsRequired, Highs(b, inputs));
    StrikesPerFiring(b, inputs, domain);
    StrikesAreOrdered(b, lo, inputs, hi, domain);
    ViolationsInWindowReachReadOnly(c, EntryAt(m, domain, lo), lo, StrikeTimes(b, inputs, domain), hi, k);
  }

  lemma WeightedInRange(x: real, node: string)
    requires 0.0 <= x <= 1.0
    ensures 0.0 <= x * NodeWeight(node) <= 1.0
  {
    var w := NodeWeight(node);
    assert w == 0.35 || w == 0.30 || w == 0.15 || w == 0.10 || w == 0.0;
    if w == 0.35 {
      assert x * w == x * 0.35;
    } else if w == 0.30 {
      assert x * w == x * 0.30;
    } else if w == 0.15 {
      assert x * w == x * 0.15;
    } else if w == 0.10 {
      assert x * w == x * 0.10;
    }
  }

  /** A turn is high exactly if the one open distress reaches the threshold. */
  lemma SingleDistressIsHighIff(b: BridgeConfig, node: string, intensity: real)
    requires 0.0 <= intensity <= 1.0
    ensures High(b, [Activation(node, intensity, false)]) <==> intensity * NodeWeight(node) >= b.distressThreshold
  {
    hide Distress;
    DistressOfOne(Activation(node, intensity, false));
    WeightedInRange(intensity, node);
  }

  /** Turns in which all distress is suppressed change nothing, however many there are. */
  lemma {:induction false} SuppressedNeverFires(b: BridgeConfig, c: Config, m: Domains, inputs: seq<Input>)
    requires b.distressThreshold > 0.0 && b.turnsRequired > 0
    requires forall i :: 0 <= i < |inputs| ==> NoOpenDistress(inputs[i].snapshot)
    ensures EvaluateAll(b, c, m, inputs) == Bridged(0, m)
    decreases |inputs|
  {
    hide Distress, ViolateEach, NoOpenDistress;
    if inputs != [] {
      var k := |inputs| - 1;
      SuppressedNeverFires(b, c, m, inputs[..k]);
      NoOpenDistressScoresZero(inputs[k].snapshot);
    }
  }
}
