/** The gate tracker (`createGates`): a fixed row of ring gates along the
    corridor. A gate is passed when the player comes close enough to its
    centre; once every gate is passed the whole row is put back at new random
    positions and the pass counter starts again. */
module Gates {
  import opened Utils
  import opened Events

  /** Every gate is built with radius 3.5. */
  const GateRadius: real := 3.5
  /** A gate counts as passed inside 85% of its radius. */
  const PassRadius: real := GateRadius * 0.85

  datatype Gate = Gate(x: real, y: real, z: real, passed: bool)

  /** The three `Math.random()` draws one gate reset consumes: x, y, z jitter. */
  datatype GateDraw = GateDraw(ux: real, uy: real, uz: real)

  predicate IsGateDraw(d: GateDraw) { IsDraw(d.ux) && IsDraw(d.uy) && IsDraw(d.uz) }

  /** The gate row and the shared `state.passed` counter. */
  datatype Tracker = Tracker(gates: seq<Gate>, passed: int)

  /** The number of gates whose `passed` flag is set. */
  function CountPassed(gs: seq<Gate>): (n: nat)
    ensures n <= |gs|
  {
    if |gs| == 0 then 0 else CountPassed(gs[..|gs| - 1]) + (if gs[|gs| - 1].passed then 1 else 0)
  }

  /** The counter agrees with the flags. */
  ghost predicate Valid(t: Tracker) {
    t.passed == CountPassed(t.gates)
  }

  /** `resetGate(gate, index)`: the flag is cleared and the gate is placed at
      x in [-18, 18), y in [3, 14) and z 60 + 50*index units ahead, minus up to
      25 more. */
  function ResetGate(index: nat, d: GateDraw): (g: Gate)
    ensures !g.passed
    ensures IsGateDraw(d) ==> -18.0 <= g.x < 18.0 && 3.0 <= g.y < 14.0
    ensures IsGateDraw(d) ==> -85.0 - 50.0 * index as real < g.z <= -60.0 - 50.0 * index as real
  {
    Gate(RandomRange(-18.0, 18.0, d.ux), RandomRange(3.0, 14.0, d.uy),
         -60.0 - index as real * 50.0 - RandomRange(0.0, 25.0, d.uz), false)
  }

  /** `resetAll()`: every gate reset in place, the count unchanged. */
  function ResetAll(gs: seq<Gate>, draws: seq<GateDraw>): (r: seq<Gate>)
    requires |draws| == |gs|
    ensures |r| == |gs|
    ensures forall i :: 0 <= i < |r| ==> r[i] == ResetGate(i, draws[i])
    ensures CountPassed(r) == 0
  {
    var r := seq(|gs|, i requires 0 <= i < |gs| => ResetGate(i, draws[i]));
    NoneMarkedCountsZero(r);
    r
  }

  lemma {:induction false} NoneMarkedCountsZero(gs: seq<Gate>)
    requires forall i :: 0 <= i < |gs| ==> !gs[i].passed
    ensures CountPassed(gs) == 0
  {
    if |gs| > 0 {
      NoneMarkedCountsZero(gs[..|gs| - 1]);
    }
  }

  lemma {:induction false} FullCountAllMarked(gs: seq<Gate>)
    requires CountPassed(gs) == |gs|
    ensures forall i :: 0 <= i < |gs| ==> gs[i].passed
  {
    if |gs| > 0 {
      var n := |gs| - 1;
      FullCountAllMarked(gs[..n]);
      assert forall i :: 0 <= i < n ==> gs[..n][i] == gs[i];
    }
  }

  /** The pass test of one gate this tick (`distance < radius * 0.85`). */
  predicate Crosses(dist: real) { dist < PassRadius }

  /** The `forEach` of `update()`: gates already passed are skipped; any other
      gate within range is marked. `n` is the number of gates newly marked. */
  function MarkPassed(gs: seq<Gate>, dist: seq<real>): (r: (seq<Gate>, nat))
    requires |dist| == |gs|
    ensures |r.0| == |gs|
    ensures forall i :: 0 <= i < |gs| ==>
      r.0[i] == gs[i].(passed := gs[i].passed || Crosses(dist[i]))
    ensures CountPassed(r.0) == CountPassed(gs) + r.1
    ensures r.1 == CountNew(gs, dist)
    decreases |gs|
  {
    if |gs| == 0 then ([], 0)
    else
      var k := |gs| - 1;
      var front := MarkPassed(gs[..k], dist[..k]);
      var g := gs[k];
      var isNew := !g.passed && Crosses(dist[k]);
      var r := (front.0 + [g.(passed := g.passed || Crosses(dist[k]))], front.1 + if isNew then 1 else 0);
      MarkStep(gs, dist, front.0, front.1);
      r
  }

  /** The step of `MarkPassed`: marking the last gate extends what the
      others' marking gave. */
  lemma MarkStep(gs: seq<Gate>, dist: seq<real>, front: seq<Gate>, n: nat)
    requires |dist| == |gs| > 0
    requires var k := |gs| - 1;
      && |front| == k
      && (forall i :: 0 <= i < k ==> front[i] == gs[i].(passed := gs[i].passed || Crosses(dist[i])))
      && CountPassed(front) == CountPassed(gs[..k]) + n
      && n == CountNew(gs[..k], dist[..k])
    ensures var k := |gs| - 1;
      var g := gs[k];
      var r := front + [g.(passed := g.passed || Crosses(dist[k]))];
      var m := n + if !g.passed && Crosses(dist[k]) then 1 else 0;
      && |r| == |gs|
      && (forall i :: 0 <= i < |gs| ==> r[i] == gs[i].(passed := gs[i].passed || Crosses(dist[i])))
      && CountPassed(r) == CountPassed(gs) + m
      && m == CountNew(gs, dist)
  {
    var k := |gs| - 1;
    var g := gs[k];
    var r := front + [g.(passed := g.passed || Crosses(dist[k]))];
    assert r[..k] == front;
  }

  /** The result of one `update()`: the tracker and one `onPass` per newly
      passed gate. */
  datatype GateStep = GateStep(tracker: Tracker, events: seq<Event>)

  /** `update()`. `dist[i]` is the distance from gate i to the player this
      tick; `draws` are used only when the row is recycled. */
  function Update(t: Tracker, dist: seq<real>, draws: seq<GateDraw>): (r: GateStep)
    requires |dist| == |t.gates| && |draws| == |t.gates|
    ensures Valid(t) ==> Valid(r.tracker)
    ensures |r.tracker.gates| == |t.gates|
    ensures Valid(t) ==> 0 <= r.tracker.passed < |t.gates| || (|t.gates| == 0 && r.tracker.passed == 0)
    ensures forall k :: 0 <= k < |r.events| ==> r.events[k] == GatePassed
    ensures t.passed + |r.events| == |t.gates| ==>
      r.tracker.passed == 0 && forall i :: 0 <= i < |t.gates| ==> !r.tracker.gates[i].passed
    ensures t.passed + |r.events| == |t.gates| ==>
      forall i :: 0 <= i < |t.gates| ==> r.tracker.gates[i] == ResetGate(i, draws[i])
    ensures t.passed + |r.events| < |t.gates| ==>
      r.tracker.passed == t.passed + |r.events| &&
      forall i :: 0 <= i < |t.gates| ==>
        r.tracker.gates[i] == t.gates[i].(passed := t.gates[i].passed || Crosses(dist[i]))
  {
    var (gs, n) := MarkPassed(t.gates, dist);
    var events := seq(n, _ => GatePassed);
    if t.passed + n == |t.gates| then
      GateStep(Tracker(ResetAll(gs, draws), 0), events)
    else
      GateStep(Tracker(gs, t.passed + n), events)
  }

  /** The gates that are not yet passed and are crossed this tick. */
  function NewlyPassed(gs: seq<Gate>, dist: seq<real>): set<nat>
    requires |dist| == |gs|
  {
    set i: nat | i < |gs| && !gs[i].passed && Crosses(dist[i])
  }

  lemma NewlyPassedStep(gs: seq<Gate>, dist: seq<real>)
    requires |dist| == |gs| && |gs| > 0
    ensures var k := |gs| - 1;
      NewlyPassed(gs, dist) ==
        NewlyPassed(gs[..k], dist[..k]) + (if !gs[k].passed && Crosses(dist[k]) then {k} else {})
  {
    var k := |gs| - 1;
    var front := NewlyPassed(gs[..k], dist[..k]);
    var extra: set<nat> := if !gs[k].passed && Crosses(dist[k]) then {k} else {};
    forall x | x in NewlyPassed(gs, dist) ensures x in front + extra {
      if x < k {
        assert gs[..k][x] == gs[x] && dist[..k][x] == dist[x];
      }
    }
    forall x | x in front + extra ensures x in NewlyPassed(gs, dist) {
      if x < k {
        assert gs[..k][x] == gs[x] && dist[..k][x] == dist[x];
      }
    }
  }

  /** The number of gates not yet passed that are crossed this tick. */
  function CountNew(gs: seq<Gate>, dist: seq<real>): nat
    requires |dist| == |gs|
  {
    if |gs| == 0 then 0
    else
      var k := |gs| - 1;
      CountNew(gs[..k], dist[..k]) + if !gs[k].passed && Crosses(dist[k]) then 1 else 0
  }

  lemma {:induction false} CountNewIsCard(gs: seq<Gate>, dist: seq<real>)
    requires |dist| == |gs|
    ensures CountNew(gs, dist) == |NewlyPassed(gs, dist)|
    decreases |gs|
  {
    if |gs| > 0 {
      var k := |gs| - 1;
      CountNewIsCard(gs[..k], dist[..k]);
      var front := NewlyPassed(gs[..k], dist[..k]);
      NewlyPassedStep(gs, dist);
      if !gs[k].passed && Crosses(dist[k]) {
        assert k !in front;
        assert |front + {k}| == |front| + 1;
      }
    }
  }

  /** Each newly passed gate raises the counter by one and makes exactly one
      `onPass`, and no other gate does. */
  lemma OnePassPerNewGate(t: Tracker, dist: seq<real>, draws: seq<GateDraw>)
    requires |dist| == |t.gates| && |draws| == |t.gates|
    requires Valid(t)
    ensures |Update(t, dist, draws).events| == |NewlyPassed(t.gates, dist)|
  {
    CountNewIsCard(t.gates, dist);
  }

  /** Between two recycles a gate is counted at most once: the gates newly
      passed in one update are not newly passed in the next. */
  lemma CountedAtMostOnce(t: Tracker, d1: seq<real>, w1: seq<GateDraw>, d2: seq<real>)
    requires |d1| == |t.gates| && |w1| == |t.gates| && |d2| == |t.gates|
    requires Valid(t)
    requires t.passed + |Update(t, d1, w1).events| < |t.gates|
    ensures NewlyPassed(t.gates, d1) !! NewlyPassed(Update(t, d1, w1).tracker.gates, d2)
  {
  }
}
