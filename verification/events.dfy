/** The game wires its components together with callbacks (`onPass`, `onHit`,
    `onDisable`). Here each component step returns the callbacks it would have
    made, in order, and the game applies them. */
module Events {

  datatype Event =
    | GatePassed              // `onPass` from the gate tracker
    | PlayerHit               // `onHit` from a ramming enemy or an enemy bullet
    | EnemyDisabled(enemy: nat) // `onDisable` for the enemy at this index

  function CountHits(evs: seq<Event>): nat {
    if |evs| == 0 then 0 else CountHits(evs[..|evs| - 1]) + (if evs[|evs| - 1] == PlayerHit then 1 else 0)
  }

  function CountPasses(evs: seq<Event>): nat {
    if |evs| == 0 then 0 else CountPasses(evs[..|evs| - 1]) + (if evs[|evs| - 1] == GatePassed then 1 else 0)
  }

  function CountDisables(evs: seq<Event>): nat {
    if |evs| == 0 then 0 else CountDisables(evs[..|evs| - 1]) + (if evs[|evs| - 1].EnemyDisabled? then 1 else 0)
  }

  /** Every event of `evs` is an `onDisable`, each for a different enemy. */
  ghost predicate DistinctDisables(evs: seq<Event>) {
    && (forall k :: 0 <= k < |evs| ==> evs[k].EnemyDisabled?)
    && (forall k, l :: 0 <= k < l < |evs| ==> evs[k] != evs[l])
  }

  lemma {:induction false} CountsAppend(a: seq<Event>, b: seq<Event>)
    ensures CountHits(a + b) == CountHits(a) + CountHits(b)
    ensures CountPasses(a + b) == CountPasses(a) + CountPasses(b)
    ensures CountDisables(a + b) == CountDisables(a) + CountDisables(b)
    decreases |b|
  {
    if |b| > 0 {
      var n := |b| - 1;
      assert (a + b)[..|a + b| - 1] == a + b[..n];
      assert (a + b)[|a + b| - 1] == b[n];
      CountsAppend(a, b[..n]);
    } else {
      assert a + b == a;
    }
  }
}
