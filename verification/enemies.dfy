/** The enemy controller (`createEnemies`): a fixed array of enemies of which
    the first `activeCount` take part, their steering, their fire gating, the
    contact (ramming) rule, and the pool of enemy bullets. */
module Enemies {
  import opened Utils
  import opened Wrappers
  import opened Events
  import opened Steering
  import opened Pools

  /** An enemy closer than this to the player rams it. */
  const RamRadius: real := 2.2
  /** An enemy bullet closer than this to the player hits it. */
  const ShotHitRadius: real := 2.2
  /** Lifetime, in seconds, an enemy bullet is given when spawned. */
  const ShotLife: real := 2.2
  /** Enemies fire only within this fraction of their tracking range. */
  const FireRangeFactor: real := 0.9

  /** Position and mesh are left to the renderer; the distance to the player
      is supplied each tick. */
  datatype Enemy = Enemy(active: bool, speed: real, fireCooldown: real, heading: Heading)

  datatype Difficulty = Difficulty(
    trackRange: real, fireInterval: real, bulletSpeed: real,
    turnRate: real, speedMin: real, speedMax: real)

  /** The difficulty the controller starts with. */
  const InitialDifficulty: Difficulty := Difficulty(50.0, 1.6, 28.0, 2.4, 12.0, 18.0)

  /** The fields a `setDifficulty` call supplies. */
  datatype DifficultyPatch = DifficultyPatch(
    trackRange: Option<real>, fireInterval: Option<real>, bulletSpeed: Option<real>,
    turnRate: Option<real>, speedMin: Option<real>, speedMax: Option<real>)

  /** An enemy bullet: only its remaining life matters to the rules. */
  datatype Shot = Shot(life: real)

  datatype Squad = Squad(enemies: seq<Enemy>, activeCount: int, difficulty: Difficulty, shots: Pool<Shot>)

  // ---------------------------------------------------------------------
  // Configuration

  /** `{ ...difficulty, ...next }`. */
  function Merge(d: Difficulty, p: DifficultyPatch): (r: Difficulty)
    ensures p.trackRange.None? ==> r.trackRange == d.trackRange
    ensures p.trackRange.Some? ==> r.trackRange == p.trackRange.value
    ensures p.fireInterval.None? ==> r.fireInterval == d.fireInterval
    ensures p.fireInterval.Some? ==> r.fireInterval == p.fireInterval.value
    ensures p.bulletSpeed.None? ==> r.bulletSpeed == d.bulletSpeed
    ensures p.bulletSpeed.Some? ==> r.bulletSpeed == p.bulletSpeed.value
    ensures p.turnRate.None? ==> r.turnRate == d.turnRate
    ensures p.turnRate.Some? ==> r.turnRate == p.turnRate.value
    ensures p.speedMin.None? ==> r.speedMin == d.speedMin
    ensures p.speedMin.Some? ==> r.speedMin == p.speedMin.value
    ensures p.speedMax.None? ==> r.speedMax == d.speedMax
    ensures p.speedMax.Some? ==> r.speedMax == p.speedMax.value
  {
    Difficulty(
      p.trackRange.GetOr(d.trackRange), p.fireInterval.GetOr(d.fireInterval),
      p.bulletSpeed.GetOr(d.bulletSpeed), p.turnRate.GetOr(d.turnRate),
      p.speedMin.GetOr(d.speedMin), p.speedMax.GetOr(d.speedMax))
  }

  /** `setDifficulty(next)`: merges the supplied fields and gives every enemy
      a new speed drawn from the merged speed range (one draw per enemy). */
  function SetDifficulty(s: Squad, p: DifficultyPatch, draws: seq<real>): (r: Squad)
    requires |draws| == |s.enemies|
    ensures r.difficulty == Merge(s.difficulty, p)
    ensures r.activeCount == s.activeCount && r.shots == s.shots
    ensures |r.enemies| == |s.enemies|
    ensures forall i :: 0 <= i < |r.enemies| ==>
      r.enemies[i] == s.enemies[i].(speed := RandomRange(r.difficulty.speedMin, r.difficulty.speedMax, draws[i]))
    ensures r.difficulty.speedMin < r.difficulty.speedMax ==>
      forall i :: 0 <= i < |r.enemies| && IsDraw(draws[i]) ==>
        r.difficulty.speedMin <= r.enemies[i].speed < r.difficulty.speedMax
  {
    var d := Merge(s.difficulty, p);
    s.(difficulty := d,
       enemies := seq(|s.enemies|, i requires 0 <= i < |s.enemies| =>
         s.enemies[i].(speed := RandomRange(d.speedMin, d.speedMax, draws[i]))))
  }

  /** `setActiveCount(n)`: the window is clamped to the array and exactly the
      enemies inside it become active. */
  function SetActiveCount(s: Squad, next: int): (r: Squad)
    ensures 0 <= r.activeCount <= |s.enemies|
    ensures 0 <= next <= |s.enemies| ==> r.activeCount == next
    ensures next < 0 ==> r.activeCount == 0
    ensures next > |s.enemies| ==> r.activeCount == |s.enemies|
    ensures |r.enemies| == |s.enemies|
    ensures forall i :: 0 <= i < |r.enemies| ==>
      (r.enemies[i].active <==> i < r.activeCount) && r.enemies[i] == s.enemies[i].(active := r.enemies[i].active)
    ensures r.difficulty == s.difficulty && r.shots == s.shots
  {
    var n := if next > |s.enemies| then |s.enemies| else next;
    var ac := if n < 0 then 0 else n;
    s.(activeCount := ac,
       enemies := seq(|s.enemies|, i requires 0 <= i < |s.enemies| => s.enemies[i].(active := i < ac)))
  }

  /** `resetEnemy(enemy, index)`: the enemy is active again with a fire
      cooldown drawn from [0.4, 1.4); speed and direction are kept. */
  function ResetEnemy(e: Enemy, u: real): (r: Enemy)
    ensures r.active && r.speed == e.speed && r.heading == e.heading
    ensures IsDraw(u) ==> 0.4 <= r.fireCooldown < 1.4
  {
    e.(active := true, fireCooldown := RandomRange(0.4, 1.4, u))
  }

  /** `resetAll()`: every enemy reset, the bullet list and the pool emptied.
      The active window is left as it is. */
  function ResetAll(s: Squad, draws: seq<real>): (r: Squad)
    requires |draws| == |s.enemies|
    ensures |r.enemies| == |s.enemies|
    ensures forall i :: 0 <= i < |r.enemies| ==> r.enemies[i] == ResetEnemy(s.enemies[i], draws[i])
    ensures forall i :: 0 <= i < |r.enemies| ==> r.enemies[i].active
    ensures r.shots.active == [] && r.shots.free == []
    ensures r.activeCount == s.activeCount && r.difficulty == s.difficulty
  {
    s.(enemies := seq(|s.enemies|, i requires 0 <= i < |s.enemies| => ResetEnemy(s.enemies[i], draws[i])),
       shots := Clear(s.shots))
  }

  // ---------------------------------------------------------------------
  // Disabling

  /** `disableEnemy(enemy)`: a no-op on an inactive enemy; otherwise the
      enemy is deactivated and `onDisable` is called once. */
  function Disable(es: seq<Enemy>, i: nat): (r: (seq<Enemy>, seq<Event>))
    requires i < |es|
    ensures |r.0| == |es|
    ensures !es[i].active ==> r.0 == es && r.1 == []
    ensures es[i].active ==> r.0 == es[i := es[i].(active := false)] && r.1 == [EnemyDisabled(i)]
  {
    if !es[i].active then (es, []) else (es[i := es[i].(active := false)], [EnemyDisabled(i)])
  }

  /** Disabling twice is disabling once: the second call changes nothing and
      reports nothing, so `enemiesRemaining` drops only once. */
  lemma DisableIdempotent(es: seq<Enemy>, i: nat)
    requires i < |es|
    ensures Disable(Disable(es, i).0, i) == (Disable(es, i).0, [])
    ensures |Disable(es, i).1| <= 1
  {
  }

  /** The hit scan of the projectile loops: the first enemy, in array order,
      that is active and closer than `radius`; `d(j)` is the distance to enemy
      j. Inactive enemies are skipped. */
  function FirstActiveWithin(es: seq<Enemy>, d: nat -> real, radius: real): (r: Option<nat>)
    ensures r.Some? ==> r.value < |es| && es[r.value].active && d(r.value) < radius
    ensures r.Some? ==> forall k :: 0 <= k < r.value ==> !(es[k].active && d(k) < radius)
    ensures r.None? ==> forall k :: 0 <= k < |es| ==> !(es[k].active && d(k) < radius)
  {
    ScanFrom(es, d, radius, 0)
  }

  function ScanFrom(es: seq<Enemy>, d: nat -> real, radius: real, j: nat): (r: Option<nat>)
    requires j <= |es|
    ensures r.Some? ==> j <= r.value < |es| && es[r.value].active && d(r.value) < radius
    ensures r.Some? ==> forall k :: j <= k < r.value ==> !(es[k].active && d(k) < radius)
    ensures r.None? ==> forall k :: j <= k < |es| ==> !(es[k].active && d(k) < radius)
    decreases |es| - j
  {
    if j == |es| then None
    else if es[j].active && d(j) < radius then Some(j)
    else ScanFrom(es, d, radius, j + 1)
  }

  // ---------------------------------------------------------------------
  // Steering, fire gating and ramming

  /** Whether enemy `i` takes part in `update`: active and inside the window. */
  predicate Participates(s: Squad, i: nat) {
    i < |s.enemies| && s.enemies[i].active && i < s.activeCount
  }

  /** The direction an enemy at distance `dist` from the player turns towards. */
  function DesiredAim(d: Difficulty, dist: real): Aim {
    if dist < d.trackRange then AtPlayer else PlayerBackward
  }

  /** `Math.min(1, turnRate * dt)`. */
  function TurnFactor(turnRate: real, dt: real): (f: real)
    ensures f <= 1.0
    ensures turnRate >= 0.0 && dt >= 0.0 ==> 0.0 <= f
    ensures turnRate * dt <= 1.0 ==> f == turnRate * dt
  {
    MulNonNegative(turnRate, dt);
    Min(1.0, turnRate * dt)
  }

  /** The fire gate of `update`, evaluated after the cooldown was lowered by dt. */
  predicate Fires(e: Enemy, d: Difficulty, dist: real, dt: real) {
    dist < d.trackRange * FireRangeFactor && e.fireCooldown - dt <= 0.0
  }

  predicate Rams(dist: real) { dist < RamRadius }

  datatype Turn = Turn(enemy: Enemy, fired: bool, rammed: bool)

  /** One participating enemy's tick. `dist` is its distance to the player
      before it moves. */
  function StepEnemy(e: Enemy, d: Difficulty, dist: real, dt: real): (t: Turn)
    ensures t.enemy.heading == Blend(e.heading, DesiredAim(d, dist), TurnFactor(d.turnRate, dt))
    ensures t.fired <==> Fires(e, d, dist, dt)
    ensures t.enemy.fireCooldown == if t.fired then d.fireInterval else e.fireCooldown - dt
    ensures t.rammed <==> Rams(dist)
    ensures t.enemy.active <==> e.active && !Rams(dist)
    ensures t.enemy.speed == e.speed
  {
    var heading := Blend(e.heading, DesiredAim(d, dist), TurnFactor(d.turnRate, dt));
    var cooldown := e.fireCooldown - dt;
    var fired := dist < d.trackRange * FireRangeFactor && cooldown <= 0.0;
    var rammed := dist < RamRadius;
    Turn(Enemy(e.active && !rammed, e.speed, if fired then d.fireInterval else cooldown, heading), fired, rammed)
  }

  /** Enemy `i` after the steering loop. */
  function Moved(s: Squad, dist: seq<real>, dt: real, i: nat): Enemy
    requires |dist| == |s.enemies| && i < |s.enemies|
  {
    if Participates(s, i) then StepEnemy(s.enemies[i], s.difficulty, dist[i], dt).enemy else s.enemies[i]
  }

  /** The participating enemies below `k` that fire this tick. */
  function Firing(s: Squad, dist: seq<real>, dt: real, k: nat): set<nat>
    requires |dist| == |s.enemies| && k <= |s.enemies|
  {
    set i: nat | i < k && Participates(s, i) && Fires(s.enemies[i], s.difficulty, dist[i], dt)
  }

  /** The participating enemies below `k` that ram the player this tick. */
  function Ramming(s: Squad, dist: seq<real>, dt: real, k: nat): set<nat>
    requires |dist| == |s.enemies| && k <= |s.enemies|
  {
    set i: nat | i < k && Participates(s, i) && Rams(dist[i])
  }

  /** The state of the steering loop after the enemies below some index. */
  datatype Sortie = Sortie(enemies: seq<Enemy>, shots: Pool<Shot>, events: seq<Event>)

  /** The `enemies.forEach` of `update`, run over the indices below `k`. A
      firing enemy spawns one bullet; a ramming enemy is disabled and then
      hits the player. */
  function Advance(s: Squad, dist: seq<real>, dt: real, k: nat): (r: Sortie)
    requires |dist| == |s.enemies| && k <= |s.enemies|
    ensures |r.enemies| == |s.enemies|
    ensures forall i :: k <= i < |s.enemies| ==> r.enemies[i] == s.enemies[i]
    ensures forall i :: 0 <= i < k ==> r.enemies[i] == Moved(s, dist, dt, i)
    decreases k
  {
    if k == 0 then Sortie(s.enemies, s.shots, [])
    else
      var i := k - 1;
      var prev := Advance(s, dist, dt, i);
      if !Participates(s, i) then prev
      else
        var t := StepEnemy(s.enemies[i], s.difficulty, dist[i], dt);
        var shots := if t.fired then Spawn(prev.shots, Shot(ShotLife)) else prev.shots;
        var evs := if t.rammed then [EnemyDisabled(i), PlayerHit] else [];
        Sortie(prev.enemies[i := t.enemy], shots, prev.events + evs)
  }

  lemma FiringStep(s: Squad, dist: seq<real>, dt: real, k: nat)
    requires |dist| == |s.enemies| && k < |s.enemies|
    ensures |Firing(s, dist, dt, k + 1)| == |Firing(s, dist, dt, k)| +
      (if Participates(s, k) && Fires(s.enemies[k], s.difficulty, dist[k], dt) then 1 else 0)
    ensures |Ramming(s, dist, dt, k + 1)| == |Ramming(s, dist, dt, k)| +
      (if Participates(s, k) && Rams(dist[k]) then 1 else 0)
    ensures Ramming(s, dist, dt, k) <= Ramming(s, dist, dt, k + 1)
  {
    if Participates(s, k) && Fires(s.enemies[k], s.difficulty, dist[k], dt) {
      assert Firing(s, dist, dt, k + 1) == Firing(s, dist, dt, k) + {k};
    } else {
      assert Firing(s, dist, dt, k + 1) == Firing(s, dist, dt, k);
    }
    if Participates(s, k) && Rams(dist[k]) {
      assert Ramming(s, dist, dt, k + 1) == Ramming(s, dist, dt, k) + {k};
    } else {
      assert Ramming(s, dist, dt, k + 1) == Ramming(s, dist, dt, k);
    }
  }

  /** The loop spawns one bullet per firing enemy, reusing pooled records
      first and allocating only when the pool is empty. */
  lemma {:induction false} AdvanceShots(s: Squad, dist: seq<real>, dt: real, k: nat)
    requires |dist| == |s.enemies| && k <= |s.enemies|
    ensures Advance(s, dist, dt, k).shots.active == s.shots.active + seq(|Firing(s, dist, dt, k)|, _ => Shot(ShotLife))
    ensures Advance(s, dist, dt, k).shots.Size() == s.shots.Size() +
      (if |Firing(s, dist, dt, k)| > |s.shots.free| then |Firing(s, dist, dt, k)| - |s.shots.free| else 0)
    ensures |Advance(s, dist, dt, k).shots.free| ==
      (if |Firing(s, dist, dt, k)| > |s.shots.free| then 0 else |s.shots.free| - |Firing(s, dist, dt, k)|)
    ensures Advance(s, dist, dt, k).shots.free ==
      (if |Firing(s, dist, dt, k)| > |s.shots.free| then [] else s.shots.free[..|s.shots.free| - |Firing(s, dist, dt, k)|])
    decreases k
  {
    if k == 0 {
      assert Firing(s, dist, dt, 0) == {};
      assert s.shots.active + seq(0, _ => Shot(ShotLife)) == s.shots.active;
    } else {
      var i := k - 1;
      AdvanceShots(s, dist, dt, i);
      FiringStep(s, dist, dt, i);
      var n := |Firing(s, dist, dt, i)|;
      assert seq(n + 1, _ => Shot(ShotLife)) == seq(n, _ => Shot(ShotLife)) + [Shot(ShotLife)];
    }
  }

  /** The loop reports one `onDisable` followed by one `onHit` per ramming
      enemy, and nothing else. */
  lemma {:induction false} AdvanceEvents(s: Squad, dist: seq<real>, dt: real, k: nat)
    requires |dist| == |s.enemies| && k <= |s.enemies|
    ensures CountHits(Advance(s, dist, dt, k).events) == |Ramming(s, dist, dt, k)|
    ensures CountDisables(Advance(s, dist, dt, k).events) == |Ramming(s, dist, dt, k)|
    ensures CountPasses(Advance(s, dist, dt, k).events) == 0
    ensures forall j :: 0 <= j < |Advance(s, dist, dt, k).events| && Advance(s, dist, dt, k).events[j].EnemyDisabled? ==>
      Advance(s, dist, dt, k).events[j].enemy in Ramming(s, dist, dt, k)
    decreases k
  {
    if k == 0 {
      assert Ramming(s, dist, dt, 0) == {};
    } else {
      var i := k - 1;
      AdvanceEvents(s, dist, dt, i);
      FiringStep(s, dist, dt, i);
      var prev := Advance(s, dist, dt, i);
      if Participates(s, i) {
        var evs := if Rams(dist[i]) then [EnemyDisabled(i), PlayerHit] else [];
        assert Advance(s, dist, dt, k).events == prev.events + evs;
        CountsAppend(prev.events, evs);
        if Rams(dist[i]) {
          assert evs[..1] == [EnemyDisabled(i)];
          assert evs[..1][..0] == [];
          assert CountHits(evs[..1]) == 0 && CountDisables(evs[..1]) == 1 && CountPasses(evs[..1]) == 0;
          assert CountHits(evs) == 1 && CountDisables(evs) == 1 && CountPasses(evs) == 0;
        }
      }
    }
  }

  /** The total time that passes over a run of ticks. */
  function Sum(xs: seq<real>): real {
    if |xs| == 0 then 0.0 else xs[0] + Sum(xs[1..])
  }

  /** One enemy driven through consecutive ticks: the final state and the
      number of shots fired. */
  function Patrol(e: Enemy, d: Difficulty, dists: seq<real>, dts: seq<real>): (Enemy, nat)
    requires |dists| == |dts|
    decreases |dts|
  {
    if |dts| == 0 then (e, 0)
    else
      var t := StepEnemy(e, d, dists[0], dts[0]);
      var rest := Patrol(t.enemy, d, dists[1..], dts[1..]);
      (rest.0, rest.1 + if t.fired then 1 else 0)
  }

  lemma {:induction false} SumNonNegative(xs: seq<real>)
    requires forall k :: 0 <= k < |xs| ==> xs[k] >= 0.0
    ensures Sum(xs) >= 0.0
    decreases |xs|
  {
    if |xs| > 0 {
      SumNonNegative(xs[1..]);
    }
  }

  /** Between two shots an enemy waits at least its fire interval: while the
      cooldown is larger than the time that passes, the enemy does not fire
      and the cooldown just runs down. */
  lemma {:induction false} CooldownHoldsFire(e: Enemy, d: Difficulty, dists: seq<real>, dts: seq<real>)
    requires |dists| == |dts|
    requires forall k :: 0 <= k < |dts| ==> dts[k] >= 0.0
    requires e.fireCooldown > Sum(dts)
    ensures Patrol(e, d, dists, dts).1 == 0
    ensures Patrol(e, d, dists, dts).0.fireCooldown == e.fireCooldown - Sum(dts)
    decreases |dts|
  {
    if |dts| > 0 {
      SumNonNegative(dts[1..]);
      var t := StepEnemy(e, d, dists[0], dts[0]);
      assert !t.fired;
      CooldownHoldsFire(t.enemy, d, dists[1..], dts[1..]);
    }
  }

  /** After a shot, an enemy fires again only once at least `fireInterval`
      seconds have gone by: with less time elapsed it holds its fire. */
  lemma FireSpacing(e: Enemy, d: Difficulty, dist: real, dt: real, dists: seq<real>, dts: seq<real>)
    requires |dists| == |dts|
    requires forall k :: 0 <= k < |dts| ==> dts[k] >= 0.0
    requires StepEnemy(e, d, dist, dt).fired
    requires d.fireInterval > Sum(dts)
    ensures Patrol(StepEnemy(e, d, dist, dt).enemy, d, dists, dts).1 == 0
  {
    CooldownHoldsFire(StepEnemy(e, d, dist, dt).enemy, d, dists, dts);
  }

  // ---------------------------------------------------------------------
  // Enemy bullets

  /** `spawnBullet(position, direction)`: a pooled or new record with life 2.2
      appended to the active list. */
  function SpawnShot(p: Pool<Shot>): (q: Pool<Shot>)
    ensures q.active == p.active + [Shot(ShotLife)]
    ensures q.Size() == p.Size() + (if |p.free| == 0 then 1 else 0)
  {
    Spawn(p, Shot(ShotLife))
  }

  /** What happens to one enemy bullet in `updateBullets`. */
  datatype ShotFate = ShotExpired | ShotHitsPlayer | ShotFlying

  /** The life is lowered by dt; an expired bullet is recycled without a hit
      test; a live one within 2.2 of the player hits it. `d` is its distance
      to the player after it moves. */
  function FateOfShot(sh: Shot, dt: real, d: real): ShotFate {
    if sh.life - dt <= 0.0 then ShotExpired
    else if d < ShotHitRadius then ShotHitsPlayer
    else ShotFlying
  }

  /** The fate of every bullet of `active`, by index. */
  function ShotFates(active: seq<Shot>, dt: real, dist: nat -> real): (r: seq<ShotFate>)
    ensures |r| == |active|
    ensures forall i :: 0 <= i < |r| ==> r[i] == FateOfShot(active[i], dt, dist(i))
  {
    seq(|active|, i requires 0 <= i < |active| => FateOfShot(active[i], dt, dist(i)))
  }

  /** The number of bullets meeting fate `f`. */
  function CountFate(fs: seq<ShotFate>, f: ShotFate): nat {
    if |fs| == 0 then 0 else CountFate(fs[..|fs| - 1], f) + (if fs[|fs| - 1] == f then 1 else 0)
  }

  /** The bullets with their life lowered by dt. */
  function AgedShots(active: seq<Shot>, dt: real): (r: seq<Shot>)
    ensures |r| == |active|
    ensures forall i :: 0 <= i < |r| ==> r[i] == Shot(active[i].life - dt)
  {
    seq(|active|, i requires 0 <= i < |active| => Shot(active[i].life - dt))
  }

  datatype ShotSweep = ShotSweep(kept: seq<Shot>, recycled: seq<Shot>, hits: nat)

  /** The reverse loop of `updateBullets`. `dist(i)` is the distance from the
      bullet at index i to the player after it moves. Recycled bullets are
      listed in the order they are pushed onto the pool. */
  function SweepShots(active: seq<Shot>, dt: real, dist: nat -> real): (r: ShotSweep)
    ensures |r.kept| + |r.recycled| == |active|
    ensures r.hits <= |r.recycled|
    ensures forall k :: 0 <= k < |r.kept| ==> r.kept[k].life > 0.0
    ensures multiset(r.kept) + multiset(r.recycled) == multiset(AgedShots(active, dt))
    decreases |active|
  {
    if |active| == 0 then ShotSweep([], [], 0)
    else
      var i := |active| - 1;
      var sh := Shot(active[i].life - dt);
      var rest := SweepShots(active[..i], dt, dist);
      assert AgedShots(active, dt) == AgedShots(active[..i], dt) + [sh];
      AddShot(rest, sh, FateOfShot(active[i], dt, dist(i)))
  }

  /** One turn of the reverse loop: a spent bullet is pushed onto the free
      list (a hit also counts), a flying one stays active. */
  function AddShot(rest: ShotSweep, sh: Shot, f: ShotFate): ShotSweep {
    match f
    case ShotExpired => ShotSweep(rest.kept, [sh] + rest.recycled, rest.hits)
    case ShotHitsPlayer => ShotSweep(rest.kept, [sh] + rest.recycled, rest.hits + 1)
    case ShotFlying => ShotSweep(rest.kept + [sh], rest.recycled, rest.hits)
  }

  /** Every bullet has exactly one of the three fates, so the three counts
      add up to the number of bullets. */
  lemma {:induction false} CountFateTotal(fs: seq<ShotFate>)
    ensures CountFate(fs, ShotFlying) + CountFate(fs, ShotHitsPlayer) + CountFate(fs, ShotExpired) == |fs|
  {
    if |fs| > 0 {
      CountFateTotal(fs[..|fs| - 1]);
    }
  }

  lemma {:induction false} SweepShotsCounts(active: seq<Shot>, dt: real, dist: nat -> real)
    ensures |SweepShots(active, dt, dist).kept| == CountFate(ShotFates(active, dt, dist), ShotFlying)
    ensures SweepShots(active, dt, dist).hits == CountFate(ShotFates(active, dt, dist), ShotHitsPlayer)
    decreases |active|
  {
    if |active| > 0 {
      SweepShotsCounts(active[..|active| - 1], dt, dist);
      ShotsCountStep(active, dt, dist);
    }
  }

  /** The step of `SweepShotsCounts`: the last bullet's fate adds one to
      its own count. */
  lemma ShotsCountStep(active: seq<Shot>, dt: real, dist: nat -> real)
    requires |active| > 0
    requires var i := |active| - 1;
      && |SweepShots(active[..i], dt, dist).kept| == CountFate(ShotFates(active[..i], dt, dist), ShotFlying)
      && SweepShots(active[..i], dt, dist).hits == CountFate(ShotFates(active[..i], dt, dist), ShotHitsPlayer)
    ensures |SweepShots(active, dt, dist).kept| == CountFate(ShotFates(active, dt, dist), ShotFlying)
    ensures SweepShots(active, dt, dist).hits == CountFate(ShotFates(active, dt, dist), ShotHitsPlayer)
  {
    var i := |active| - 1;
    ShotFatesPrefix(active, dt, dist);
    SweepShotsLast(active, dt, dist);
    AddShotCounts(SweepShots(active[..i], dt, dist), Shot(active[i].life - dt), ShotFates(active, dt, dist));
  }

  lemma ShotFatesPrefix(active: seq<Shot>, dt: real, dist: nat -> real)
    requires |active| > 0
    ensures var i := |active| - 1;
      ShotFates(active, dt, dist)[..i] == ShotFates(active[..i], dt, dist)
  {
  }

  /** `SweepShots` unfolded once. */
  lemma SweepShotsLast(active: seq<Shot>, dt: real, dist: nat -> real)
    requires |active| > 0
    ensures var i := |active| - 1;
      SweepShots(active, dt, dist)
        == AddShot(SweepShots(active[..i], dt, dist), Shot(active[i].life - dt), ShotFates(active, dt, dist)[i])
  {
  }

  /** One turn adds the last fate to the counts of the turns before it. */
  lemma AddShotCounts(rest: ShotSweep, sh: Shot, fs: seq<ShotFate>)
    requires |fs| > 0
    requires |rest.kept| == CountFate(fs[..|fs| - 1], ShotFlying)
    requires rest.hits == CountFate(fs[..|fs| - 1], ShotHitsPlayer)
    ensures |AddShot(rest, sh, fs[|fs| - 1]).kept| == CountFate(fs, ShotFlying)
    ensures AddShot(rest, sh, fs[|fs| - 1]).hits == CountFate(fs, ShotHitsPlayer)
  {
  }

  /** Each bullet meets exactly one fate: the kept ones are those still
      flying, the hits are the live ones within range, and every other bullet
      is recycled once. */
  lemma SweepShotsFates(active: seq<Shot>, dt: real, dist: nat -> real)
    ensures |SweepShots(active, dt, dist).kept| == CountFate(ShotFates(active, dt, dist), ShotFlying)
    ensures SweepShots(active, dt, dist).hits == CountFate(ShotFates(active, dt, dist), ShotHitsPlayer)
    ensures |SweepShots(active, dt, dist).recycled| ==
      CountFate(ShotFates(active, dt, dist), ShotExpired) + CountFate(ShotFates(active, dt, dist), ShotHitsPlayer)
  {
    SweepShotsCounts(active, dt, dist);
    CountFateTotal(ShotFates(active, dt, dist));
  }

  /** Which bullets leave the active list: every one that does not fly on. */
  function ShotFlags(active: seq<Shot>, dt: real, dist: nat -> real): (out: seq<bool>)
    ensures |out| == |active|
    ensures forall i :: 0 <= i < |active| ==> (out[i] <==> FateOfShot(active[i], dt, dist(i)) != ShotFlying)
  {
    seq(|active|, i requires 0 <= i < |active| => FateOfShot(active[i], dt, dist(i)) != ShotFlying)
  }

  /** The loop, read bullet by bullet: the bullets kept are the aged ones
      still flying, in their order, and the recycled ones are the others,
      last index first. */
  lemma {:induction false} SweepShotsByFates(active: seq<Shot>, dt: real, dist: nat -> real)
    ensures SweepShots(active, dt, dist).kept == Keep(AgedShots(active, dt), ShotFlags(active, dt, dist))
    ensures SweepShots(active, dt, dist).recycled == Drop(AgedShots(active, dt), ShotFlags(active, dt, dist))
    decreases |active|
  {
    if |active| > 0 {
      SweepShotsByFates(active[..|active| - 1], dt, dist);
      ShotsByFatesStep(active, dt, dist);
    }
  }

  /** The step of `SweepShotsByFates`. */
  lemma ShotsByFatesStep(active: seq<Shot>, dt: real, dist: nat -> real)
    requires |active| > 0
    requires var i := |active| - 1;
      && SweepShots(active[..i], dt, dist).kept == Keep(AgedShots(active[..i], dt), ShotFlags(active[..i], dt, dist))
      && SweepShots(active[..i], dt, dist).recycled == Drop(AgedShots(active[..i], dt), ShotFlags(active[..i], dt, dist))
    ensures SweepShots(active, dt, dist).kept == Keep(AgedShots(active, dt), ShotFlags(active, dt, dist))
    ensures SweepShots(active, dt, dist).recycled == Drop(AgedShots(active, dt), ShotFlags(active, dt, dist))
  {
    var i := |active| - 1;
    var aged := AgedShots(active, dt);
    var out := ShotFlags(active, dt, dist);
    var rest := SweepShots(active[..i], dt, dist);
    ShotsPrefix(active, dt, dist);
    SweepShotsLast(active, dt, dist);
    ShotFlagsLast(active, dt, dist);
    AddShotSplit(rest, aged[i], ShotFates(active, dt, dist)[i]);
    KeepLast(aged, out);
    DropLast(aged, out);
  }

  /** Ageing and flagging commute with dropping the last bullet. */
  lemma ShotsPrefix(active: seq<Shot>, dt: real, dist: nat -> real)
    requires |active| > 0
    ensures var i := |active| - 1;
      && AgedShots(active, dt)[..i] == AgedShots(active[..i], dt)
      && ShotFlags(active, dt, dist)[..i] == ShotFlags(active[..i], dt, dist)
  {
  }

  /** The last bullet's flag is its fate's. */
  lemma ShotFlagsLast(active: seq<Shot>, dt: real, dist: nat -> real)
    requires |active| > 0
    ensures var i := |active| - 1;
      && AgedShots(active, dt)[i] == Shot(active[i].life - dt)
      && (ShotFlags(active, dt, dist)[i] <==> ShotFates(active, dt, dist)[i] != ShotFlying)
  {
  }

  /** One loop turn puts a flying bullet after the kept ones and any other
      bullet before the recycled ones. */
  lemma AddShotSplit(rest: ShotSweep, sh: Shot, f: ShotFate)
    ensures AddShot(rest, sh, f).kept == rest.kept + (if f != ShotFlying then [] else [sh])
    ensures AddShot(rest, sh, f).recycled == (if f != ShotFlying then [sh] else []) + rest.recycled
  {
  }

  /** The pool `updateBullets` leaves behind is the one `recycleBullet` gives
      when it is applied to every bullet that does not fly on, highest index
      first. */
  lemma SweepShotsRecycles(active: seq<Shot>, free: seq<Shot>, dt: real, dist: nat -> real)
    ensures var v := SweepShots(active, dt, dist);
      Pool(v.kept, free + v.recycled)
        == RecycleDown(Pool(AgedShots(active, dt), free), ShotFlags(active, dt, dist), |active|)
  {
    SweepShotsByFates(active, dt, dist);
    RecycleDownAll(AgedShots(active, dt), free, ShotFlags(active, dt, dist));
  }

  // ---------------------------------------------------------------------
  // One tick

  datatype SquadStep = SquadStep(squad: Squad, events: seq<Event>)

  /** `update(dt)`: the steering loop, then `updateBullets(dt)`. `dist[i]` is
      enemy i's distance to the player before it moves; `shotDist(j)` is the
      distance of the j-th enemy bullet (counting those spawned this tick) to
      the player after it moves. */
  function Update(s: Squad, dt: real, dist: seq<real>, shotDist: nat -> real): (r: SquadStep)
    requires |dist| == |s.enemies|
    ensures |r.squad.enemies| == |s.enemies|
    ensures r.squad.activeCount == s.activeCount && r.squad.difficulty == s.difficulty
    ensures forall i :: 0 <= i < |s.enemies| ==> r.squad.enemies[i] == Moved(s, dist, dt, i)
    ensures forall i :: 0 <= i < |s.enemies| && !Participates(s, i) ==> r.squad.enemies[i] == s.enemies[i]
    ensures forall k :: 0 <= k < |r.squad.shots.active| ==> r.squad.shots.active[k].life > 0.0
    ensures var fired := |Firing(s, dist, dt, |s.enemies|)|;
      r.squad.shots.Size() == s.shots.Size() + (if fired > |s.shots.free| then fired - |s.shots.free| else 0)
    ensures var spawned := s.shots.active + seq(|Firing(s, dist, dt, |s.enemies|)|, _ => Shot(ShotLife));
      CountHits(r.events) == |Ramming(s, dist, dt, |s.enemies|)| + CountFate(ShotFates(spawned, dt, shotDist), ShotHitsPlayer)
    ensures var fired := |Firing(s, dist, dt, |s.enemies|)|;
      var spawned := s.shots.active + seq(fired, _ => Shot(ShotLife));
      var free := if fired > |s.shots.free| then [] else s.shots.free[..|s.shots.free| - fired];
      && r.squad.shots.active == Keep(AgedShots(spawned, dt), ShotFlags(spawned, dt, shotDist))
      && r.squad.shots == RecycleDown(Pool(AgedShots(spawned, dt), free), ShotFlags(spawned, dt, shotDist), |spawned|)
    ensures CountDisables(r.events) == |Ramming(s, dist, dt, |s.enemies|)|
    ensures CountPasses(r.events) == 0
  {
    var a := Advance(s, dist, dt, |s.enemies|);
    AdvanceShots(s, dist, dt, |s.enemies|);
    AdvanceEvents(s, dist, dt, |s.enemies|);
    var fired := |Firing(s, dist, dt, |s.enemies|)|;
    assert a.shots == Pool(s.shots.active + seq(fired, _ => Shot(ShotLife)),
                           if fired > |s.shots.free| then [] else s.shots.free[..|s.shots.free| - fired]);
    Land(s, a, dt, shotDist)
  }

  /** The end of `update`: the moved enemies are stored, `updateBullets`
      settles the bullet pool, and one `onHit` is reported per bullet that
      reached the player, after the steering loop's events. */
  function Land(s: Squad, a: Sortie, dt: real, shotDist: nat -> real): (r: SquadStep)
    ensures r.squad == s.(enemies := a.enemies, shots := SettleShots(a.shots, dt, shotDist))
    ensures CountHits(r.events) == CountHits(a.events) + CountFate(ShotFates(a.shots.active, dt, shotDist), ShotHitsPlayer)
    ensures CountDisables(r.events) == CountDisables(a.events)
    ensures CountPasses(r.events) == CountPasses(a.events)
  {
    var sw := SweepShots(a.shots.active, dt, shotDist);
    SweepShotsFates(a.shots.active, dt, shotDist);
    var hits := seq(sw.hits, _ => PlayerHit);
    HitsCount(sw.hits);
    CountsAppend(a.events, hits);
    SquadStep(s.(enemies := a.enemies, shots := SettleShots(a.shots, dt, shotDist)), a.events + hits)
  }

  /** The bullet half of `update` once every enemy has moved and fired: each
      active bullet is aged and tested in `updateBullets`' backward loop, and
      the spent ones go back to the free list. */
  function SettleShots(p: Pool<Shot>, dt: real, dist: nat -> real): (q: Pool<Shot>)
    ensures q.Size() == p.Size()
    ensures forall k :: 0 <= k < |q.active| ==> q.active[k].life > 0.0
    ensures q.active == Keep(AgedShots(p.active, dt), ShotFlags(p.active, dt, dist))
    ensures q == RecycleDown(Pool(AgedShots(p.active, dt), p.free), ShotFlags(p.active, dt, dist), |p.active|)
  {
    var sw := SweepShots(p.active, dt, dist);
    SweepShotsByFates(p.active, dt, dist);
    SweepShotsRecycles(p.active, p.free, dt, dist);
    assert |sw.kept| + |sw.recycled| == |p.active|;
    Pool(sw.kept, p.free + sw.recycled)
  }

  lemma {:induction false} HitsCount(n: nat)
    ensures CountHits(seq(n, _ => PlayerHit)) == n
    ensures CountDisables(seq(n, _ => PlayerHit)) == 0
    ensures CountPasses(seq(n, _ => PlayerHit)) == 0
  {
    if n > 0 {
      assert seq(n, _ => PlayerHit)[..n - 1] == seq(n - 1, _ => PlayerHit);
      HitsCount(n - 1);
    }
  }
}
