/** The player's homing missiles (`createMissiles`): a cooldown-gated spawner
    that needs a locked target, and a pool of missiles that turn towards their
    target while it is active and disable the first active enemy they come
    close to, target or not. */
module Missiles {
  import opened Utils
  import opened Wrappers
  import opened Events
  import opened Steering
  import opened Pools
  import opened Enemies
  import opened Projectiles

  /** Seconds between two launches. */
  const LaunchInterval: real := 0.6
  /** Lifetime, in seconds, of a launched missile. */
  const MissileLife: real := 3.2
  /** A missile closer than this to an active enemy disables it. */
  const MissileHitRadius: real := 2.0
  /** The lerp factor of one homing step. */
  const HomingFactor: real := 0.12

  /** `target` is the index of the enemy the missile was launched at; position
      and the constant speed 42 are left to the renderer. */
  datatype Missile = Missile(life: real, target: Option<nat>, heading: Heading)

  datatype Launcher = Launcher(pool: Pool<Missile>, cooldown: real)

  /** `reset()`: both lists emptied; the cooldown is not touched. */
  function Reset(l: Launcher): (r: Launcher)
    ensures r.pool.active == [] && r.pool.free == []
    ensures r.cooldown == l.cooldown
  {
    l.(pool := Clear(l.pool))
  }

  /** `spawnMissile(target)`: life, target and direction are all overwritten,
      so a reused record is the same value as a fresh one. */
  function Launch(p: Pool<Missile>, target: nat): (q: Pool<Missile>)
    ensures q.active == p.active + [Missile(MissileLife, Some(target), Start)]
    ensures q.Size() == p.Size() + (if |p.free| == 0 then 1 else 0)
  {
    Spawn(p, Missile(MissileLife, Some(target), Start))
  }

  /** Whether the target of `m` is an active enemy of `es`. */
  predicate Homing(m: Missile, es: seq<Enemy>) {
    m.target.Some? && m.target.value < |es| && es[m.target.value].active
  }

  /** The life and direction update at the head of the loop body: life
      lowered by dt, and one homing step towards the target while it is
      active. */
  function Steer(m: Missile, dt: real, es: seq<Enemy>): (r: Missile)
    ensures r.life == m.life - dt && r.target == m.target
    ensures Turns(r.heading) == Turns(m.heading) + (if Homing(m, es) then 1 else 0)
    ensures !Homing(m, es) ==> r.heading == m.heading
    ensures Homing(m, es) ==> r.heading == Blend(m.heading, AtEnemy(m.target.value), HomingFactor)
  {
    var aged := m.(life := m.life - dt);
    if Homing(m, es) then aged.(heading := Blend(m.heading, AtEnemy(m.target.value), HomingFactor))
    else aged
  }

  /** The state of the reverse missile loop: missiles kept in flight, missiles
      recycled (in push order), the enemies, the `onDisable` calls made, and
      each missile's steered record and fate, aligned with the active list. */
  datatype Salvo = Salvo(
    kept: seq<Missile>, recycled: seq<Missile>, enemies: seq<Enemy>,
    events: seq<Event>, steered: seq<Missile>, fates: seq<Fate>)

  /** The reverse loop of `update`. `hit(i, j)` is the distance from missile i
      (after it moves) to enemy j. Each missile is steered against the enemies
      as they are when its turn comes; its `Strike` then decides: one whose
      life runs out is recycled before any hit test, a live one disables the
      first active enemy within 2.0, is recycled and stops scanning, and any
      other flies on. */
  function Sweep(active: seq<Missile>, dt: real, es: seq<Enemy>, hit: (nat, nat) -> real): (r: Salvo)
    ensures |r.kept| + |r.recycled| == |active|
    ensures |r.steered| == |active| && |r.fates| == |active|
    ensures |r.enemies| == |es|
    ensures forall k :: 0 <= k < |r.kept| ==> r.kept[k].life > 0.0
    decreases |active|
  {
    if |active| == 0 then Salvo([], [], es, [], [], [])
    else
      var i := |active| - 1;
      var m := Steer(active[i], dt, es);
      var f := Strike(m.life, es, Row(hit, i), MissileHitRadius);
      var rest := Sweep(active[..i], dt, Left(es, f), hit);
      if Spent(f) then
        Salvo(rest.kept, [m] + rest.recycled, rest.enemies, Reports(es, f) + rest.events,
              rest.steered + [m], rest.fates + [f])
      else
        Salvo(rest.kept + [m], rest.recycled, rest.enemies, rest.events,
              rest.steered + [m], rest.fates + [f])
  }

  /** No missile is lost or duplicated: every steered missile is either kept
      in flight or recycled. */
  lemma {:induction false} SweepConserves(active: seq<Missile>, dt: real, es: seq<Enemy>, hit: (nat, nat) -> real)
    ensures var r := Sweep(active, dt, es, hit);
      multiset(r.kept) + multiset(r.recycled) == multiset(r.steered)
    decreases |active|
  {
    if |active| > 0 {
      var i := |active| - 1;
      var f := Strike(MissileLives(active, dt)[i], es, Row(hit, i), MissileHitRadius);
      SweepConserves(active[..i], dt, Left(es, f), hit);
      ConservesStep(active, dt, es, hit);
    } else {
      ConservesEmpty(active, dt, es, hit);
    }
  }

  /** The induction step of `SweepConserves`: the last missile goes to
      exactly one of the two lists. */
  lemma ConservesStep(active: seq<Missile>, dt: real, es: seq<Enemy>, hit: (nat, nat) -> real)
    requires |active| > 0
    requires var i := |active| - 1;
      var f := Strike(MissileLives(active, dt)[i], es, Row(hit, i), MissileHitRadius);
      var rest := Sweep(active[..i], dt, Left(es, f), hit);
      multiset(rest.kept) + multiset(rest.recycled) == multiset(rest.steered)
    ensures var r := Sweep(active, dt, es, hit);
      multiset(r.kept) + multiset(r.recycled) == multiset(r.steered)
  {
    var i := |active| - 1;
    var f := Strike(MissileLives(active, dt)[i], es, Row(hit, i), MissileHitRadius);
    var rest := Sweep(active[..i], dt, Left(es, f), hit);
    SweepStep(active, dt, es, hit);
    SplitStep(rest.kept, rest.recycled, rest.steered, Steer(active[i], dt, es), Spent(f));
  }

  /** The base case of `SweepConserves`. */
  lemma ConservesEmpty(active: seq<Missile>, dt: real, es: seq<Enemy>, hit: (nat, nat) -> real)
    requires |active| == 0
    ensures var r := Sweep(active, dt, es, hit);
      multiset(r.kept) + multiset(r.recycled) == multiset(r.steered)
  {
  }

  /** The loop changes enemies only by disabling them, one `onDisable` per
      enemy switched off, at most one per recycled missile. */
  lemma {:induction false} SweepDisables(active: seq<Missile>, dt: real, es: seq<Enemy>, hit: (nat, nat) -> real)
    ensures DisablesOnly(es, Sweep(active, dt, es, hit).enemies, Sweep(active, dt, es, hit).events)
    ensures |Sweep(active, dt, es, hit).events| <= |Sweep(active, dt, es, hit).recycled|
    decreases |active|
  {
    if |active| > 0 {
      var i := |active| - 1;
      var f := Strike(MissileLives(active, dt)[i], es, Row(hit, i), MissileHitRadius);
      SweepDisables(active[..i], dt, Left(es, f), hit);
      DisablesStep(active, dt, es, hit);
    } else {
      DisablesEmpty(active, dt, es, hit);
    }
  }

  /** The base case of `SweepDisables`: no missile, no change. */
  lemma DisablesEmpty(active: seq<Missile>, dt: real, es: seq<Enemy>, hit: (nat, nat) -> real)
    requires |active| == 0
    ensures DisablesOnly(es, Sweep(active, dt, es, hit).enemies, Sweep(active, dt, es, hit).events)
    ensures |Sweep(active, dt, es, hit).events| <= |Sweep(active, dt, es, hit).recycled|
  {
    DisablesNone(es);
  }

  /** The induction step of `SweepDisables`: the last missile's turn extends
      the run of disables the others make. */
  lemma DisablesStep(active: seq<Missile>, dt: real, es: seq<Enemy>, hit: (nat, nat) -> real)
    requires |active| > 0
    requires var i := |active| - 1;
      var f := Strike(MissileLives(active, dt)[i], es, Row(hit, i), MissileHitRadius);
      var rest := Sweep(active[..i], dt, Left(es, f), hit);
      DisablesOnly(Left(es, f), rest.enemies, rest.events) && |rest.events| <= |rest.recycled|
    ensures DisablesOnly(es, Sweep(active, dt, es, hit).enemies, Sweep(active, dt, es, hit).events)
    ensures |Sweep(active, dt, es, hit).events| <= |Sweep(active, dt, es, hit).recycled|
  {
    var i := |active| - 1;
    var f := Strike(MissileLives(active, dt)[i], es, Row(hit, i), MissileHitRadius);
    var rest := Sweep(active[..i], dt, Left(es, f), hit);
    SweepStep(active, dt, es, hit);
    TurnDisables(es, f, rest.enemies, rest.events);
  }

  /** Enemies are never switched back on by the loop. */
  lemma SweepMonotone(active: seq<Missile>, dt: real, es: seq<Enemy>, hit: (nat, nat) -> real)
    ensures |Sweep(active, dt, es, hit).enemies| == |es|
    ensures forall j :: 0 <= j < |es| && Sweep(active, dt, es, hit).enemies[j].active ==> es[j].active
  {
    SweepDisables(active, dt, es, hit);
  }

  /** The per-missile statement of `SweepSteers`. */
  ghost predicate SteeredFrom(m: Missile, s: Missile, dt: real, before: seq<Enemy>, after: seq<Enemy>) {
    && s.life == m.life - dt
    && s.target == m.target
    && (!Homing(m, before) ==> s.heading == m.heading)
    && (Homing(m, after) ==> s.heading == Blend(m.heading, AtEnemy(m.target.value), HomingFactor))
  }

  /** Every missile loses dt of life and keeps its target. A missile whose
      target was already inactive when the tick began flies straight on; one
      whose target is still active after the loop made one homing step
      towards it. */
  lemma SweepSteers(active: seq<Missile>, dt: real, es: seq<Enemy>, hit: (nat, nat) -> real)
    ensures var r := Sweep(active, dt, es, hit);
      forall i :: 0 <= i < |active| ==> SteeredFrom(active[i], r.steered[i], dt, es, r.enemies)
  {
    forall i | 0 <= i < |active|
      ensures SteeredFrom(active[i], Sweep(active, dt, es, hit).steered[i], dt, es, Sweep(active, dt, es, hit).enemies)
    {
      SteersOne(active, dt, es, hit, i);
    }
  }

  /** `SweepSteers` for missile i: it was steered against the enemies it
      met, which lie between those before the loop and those after it. */
  lemma SteersOne(active: seq<Missile>, dt: real, es: seq<Enemy>, hit: (nat, nat) -> real, i: nat)
    requires i < |active|
    ensures var r := Sweep(active, dt, es, hit);
      SteeredFrom(active[i], r.steered[i], dt, es, r.enemies)
  {
    var lives := MissileLives(active, dt);
    var met := Seen(lives, es, hit, MissileHitRadius, i);
    var r := Sweep(active, dt, es, hit);
    SweepByFates(active, dt, es, hit);
    assert r.steered[i] == Steer(active[i], dt, met);
    var m := active[i];
    if m.target.Some? && m.target.value < |es| {
      var t := m.target.value;
      if met[t].active {
        SeenBelow(lives, es, hit, MissileHitRadius, i, t);
      }
      if r.enemies[t].active {
        OutcomeAbove(lives, es, hit, MissileHitRadius, i, t);
      }
    }
  }

  datatype LauncherStep = LauncherStep(launcher: Launcher, enemies: seq<Enemy>, events: seq<Event>)

  /** Whether a missile is launched this tick: trigger held, a locked target
      and the cooldown elapsed. */
  predicate Launches(l: Launcher, isFiring: bool, lockTarget: Option<nat>) {
    isFiring && lockTarget.Some? && l.cooldown <= 0.0
  }

  /** The launch step at the head of `update`: with the trigger held, a
      locked target and the cooldown run out, one missile at that target
      joins the end of the active list and the cooldown restarts at 0.6;
      otherwise nothing changes. */
  function Arm(l: Launcher, isFiring: bool, lockTarget: Option<nat>): (r: Launcher)
    ensures Launches(l, isFiring, lockTarget) ==>
      r.pool.active == l.pool.active + [Missile(MissileLife, lockTarget, Start)] && r.cooldown == LaunchInterval
    ensures !Launches(l, isFiring, lockTarget) ==> r == l
  {
    if Launches(l, isFiring, lockTarget) then Launcher(Launch(l.pool, lockTarget.value), LaunchInterval) else l
  }

  /** `update(dt, isFiring, lockTarget, enemies, disableEnemy)`. At most one
      missile is launched, at the locked target, and only when the trigger is
      held, a target is locked and the cooldown has run out; the cooldown is
      then set to 0.6 and, either way, lowered by dt but never below 0. */
  function Update(l: Launcher, dt: real, isFiring: bool, lockTarget: Option<nat>,
                  es: seq<Enemy>, hit: (nat, nat) -> real): (r: LauncherStep)
    ensures r.launcher.cooldown >= 0.0
    ensures Launches(l, isFiring, lockTarget) ==> r.launcher.cooldown == Max(0.0, LaunchInterval - dt)
    ensures !Launches(l, isFiring, lockTarget) ==> r.launcher.cooldown == Max(0.0, l.cooldown - dt)
    ensures r.launcher.pool.Size() ==
      l.pool.Size() + (if Launches(l, isFiring, lockTarget) && |l.pool.free| == 0 then 1 else 0)
    ensures forall k :: 0 <= k < |r.launcher.pool.active| ==> r.launcher.pool.active[k].life > 0.0
    ensures DisablesOnly(es, r.enemies, r.events)
    ensures |r.events| <= |l.pool.active| + (if Launches(l, isFiring, lockTarget) then 1 else 0)
    ensures var a := Arm(l, isFiring, lockTarget);
      Records(r.launcher.pool) == multiset(Sweep(a.pool.active, dt, es, hit).steered) + multiset(a.pool.free)
    ensures var a := Arm(l, isFiring, lockTarget);
      var lives := MissileLives(a.pool.active, dt);
      && r.enemies == Outcome(lives, es, hit, MissileHitRadius)
      && r.launcher.pool == RecycleDown(Pool(Steered(a.pool.active, dt, es, hit), a.pool.free),
                                        SpentFlags(Fates(lives, es, hit, MissileHitRadius)), |a.pool.active|)
  {
    Settle(Arm(l, isFiring, lockTarget), dt, es, hit)
  }

  /** The rest of `update` once the launch step is done: the cooldown runs
      down, every active missile is steered and tested in the backward loop,
      and the spent ones go back to the free list. */
  function Settle(a: Launcher, dt: real, es: seq<Enemy>, hit: (nat, nat) -> real): (r: LauncherStep)
    ensures r.launcher.cooldown == Max(0.0, a.cooldown - dt)
    ensures r.launcher.pool.Size() == a.pool.Size()
    ensures forall k :: 0 <= k < |r.launcher.pool.active| ==> r.launcher.pool.active[k].life > 0.0
    ensures DisablesOnly(es, r.enemies, r.events)
    ensures |r.events| <= |a.pool.active|
    ensures Records(r.launcher.pool) == multiset(Sweep(a.pool.active, dt, es, hit).steered) + multiset(a.pool.free)
    ensures var lives := MissileLives(a.pool.active, dt);
      && r.enemies == Outcome(lives, es, hit, MissileHitRadius)
      && r.launcher.pool == RecycleDown(Pool(Steered(a.pool.active, dt, es, hit), a.pool.free),
                                        SpentFlags(Fates(lives, es, hit, MissileHitRadius)), |a.pool.active|)
  {
    var v := Sweep(a.pool.active, dt, es, hit);
    SweepDisables(a.pool.active, dt, es, hit);
    SweepConserves(a.pool.active, dt, es, hit);
    SweepRecycles(a.pool.active, a.pool.free, dt, es, hit);
    LauncherStep(Launcher(Pool(v.kept, a.pool.free + v.recycled), Max(0.0, a.cooldown - dt)), v.enemies, v.events)
  }

  /** Every missile's life after this tick's decrement. */
  function MissileLives(active: seq<Missile>, dt: real): (r: seq<real>)
    ensures |r| == |active|
    ensures forall i :: 0 <= i < |r| ==> r[i] == active[i].life - dt
  {
    seq(|active|, i requires 0 <= i < |active| => active[i].life - dt)
  }

  /** Every missile after its steering step, each against the enemies it
      meets at its turn. */
  function Steered(active: seq<Missile>, dt: real, es: seq<Enemy>, hit: (nat, nat) -> real): (r: seq<Missile>)
    ensures |r| == |active|
  {
    seq(|active|, i requires 0 <= i < |active| =>
      Steer(active[i], dt, Seen(MissileLives(active, dt), es, hit, MissileHitRadius, i)))
  }

  /** One step of the loop: the last missile is steered against `es`, its
      `Strike` decides where it goes, and the rest of the loop runs on the
      enemies it left. */
  lemma SweepStep(active: seq<Missile>, dt: real, es: seq<Enemy>, hit: (nat, nat) -> real)
    requires |active| > 0
    ensures var n := |active| - 1;
      var f := Strike(MissileLives(active, dt)[n], es, Row(hit, n), MissileHitRadius);
      var m := Steer(active[n], dt, es);
      var r := Sweep(active, dt, es, hit);
      var rest := Sweep(active[..n], dt, Left(es, f), hit);
      && r.enemies == rest.enemies
      && r.steered == rest.steered + [m]
      && r.fates == rest.fates + [f]
      && r.kept == rest.kept + (if Spent(f) then [] else [m])
      && r.recycled == (if Spent(f) then [m] else []) + rest.recycled
      && r.events == Reports(es, f) + rest.events
  {
    assert MissileLives(active, dt)[|active| - 1] == Steer(active[|active| - 1], dt, es).life;
  }

  /** Life decrement and steering commute with taking a prefix, once the
      last missile's turn has been played. */
  lemma SteeredPrefix(active: seq<Missile>, dt: real, es: seq<Enemy>, hit: (nat, nat) -> real)
    requires |active| > 0
    ensures var n := |active| - 1;
      var lives := MissileLives(active, dt);
      var es2 := Left(es, Strike(lives[n], es, Row(hit, n), MissileHitRadius));
      && MissileLives(active[..n], dt) == lives[..n]
      && Steered(active[..n], dt, es2, hit) == Steered(active, dt, es, hit)[..n]
      && Steered(active, dt, es, hit)[n] == Steer(active[n], dt, es)
  {
    var n := |active| - 1;
    var lives := MissileLives(active, dt);
    var es2 := Left(es, Strike(lives[n], es, Row(hit, n), MissileHitRadius));
    assert MissileLives(active[..n], dt) == lives[..n];
    forall i | 0 <= i < n
      ensures Seen(lives[..n], es2, hit, MissileHitRadius, i) == Seen(lives, es, hit, MissileHitRadius, i)
    {
      SeenPrefix(lives, es, hit, MissileHitRadius, i);
    }
  }

  /** The loop, read missile by missile: each missile is steered against
      the enemies it meets, its fate is its `Strike`, the enemies end as
      the `Outcome`, the missiles kept are those still flying, in order, and
      the recycled ones are the others, last index first. */
  lemma {:induction false} SweepByFates(active: seq<Missile>, dt: real, es: seq<Enemy>, hit: (nat, nat) -> real)
    ensures var r := Sweep(active, dt, es, hit);
      var fs := Fates(MissileLives(active, dt), es, hit, MissileHitRadius);
      && r.fates == fs
      && r.steered == Steered(active, dt, es, hit)
      && r.enemies == Outcome(MissileLives(active, dt), es, hit, MissileHitRadius)
      && r.kept == Keep(r.steered, SpentFlags(fs))
      && r.recycled == Drop(r.steered, SpentFlags(fs))
    decreases |active|, 1
  {
    if |active| > 0 {
      var n := |active| - 1;
      var r := Sweep(active, dt, es, hit);
      var fs := Fates(MissileLives(active, dt), es, hit, MissileHitRadius);
      SweepByFatesBelow(active, dt, es, hit);
      SweepStep(active, dt, es, hit);
      var st := Steered(active, dt, es, hit);
      LastSplit(fs);
      LastSplit(st);
      assert r.fates == fs;
      assert r.steered == st;
      KeepLast(st, SpentFlags(fs));
      DropLast(st, SpentFlags(fs));
    } else {
      ByFatesEmpty(active, dt, es, hit);
    }
  }

  /** The base case of `SweepByFates`. */
  lemma ByFatesEmpty(active: seq<Missile>, dt: real, es: seq<Enemy>, hit: (nat, nat) -> real)
    requires |active| == 0
    ensures var r := Sweep(active, dt, es, hit);
      var fs := Fates(MissileLives(active, dt), es, hit, MissileHitRadius);
      && r.fates == fs
      && r.steered == Steered(active, dt, es, hit)
      && r.enemies == Outcome(MissileLives(active, dt), es, hit, MissileHitRadius)
      && r.kept == Keep(r.steered, SpentFlags(fs))
      && r.recycled == Drop(r.steered, SpentFlags(fs))
  {
  }

  /** The induction step of `SweepByFates`. */
  lemma {:induction false} SweepByFatesBelow(active: seq<Missile>, dt: real, es: seq<Enemy>, hit: (nat, nat) -> real)
    requires |active| > 0
    ensures var n := |active| - 1;
      var lives := MissileLives(active, dt);
      var f := Strike(lives[n], es, Row(hit, n), MissileHitRadius);
      var fs := Fates(lives, es, hit, MissileHitRadius);
      var st := Steered(active, dt, es, hit);
      var rest := Sweep(active[..n], dt, Left(es, f), hit);
      && fs[n] == f
      && st[n] == Steer(active[n], dt, es)
      && rest.fates == fs[..n]
      && rest.steered == st[..n]
      && rest.enemies == Outcome(lives, es, hit, MissileHitRadius)
      && rest.kept == Keep(st[..n], SpentFlags(fs)[..n])
      && rest.recycled == Drop(st[..n], SpentFlags(fs)[..n])
    decreases |active|, 0
  {
    var n := |active| - 1;
    var lives := MissileLives(active, dt);
    var f := Strike(lives[n], es, Row(hit, n), MissileHitRadius);
    var fs := Fates(lives, es, hit, MissileHitRadius);
    SteeredPrefix(active, dt, es, hit);
    FatesPrefix(lives, es, hit, MissileHitRadius);
    FlagsPrefix(fs, n);
    SweepByFates(active[..n], dt, Left(es, f), hit);
  }

  /** The pool the loop leaves behind is the one `Recycle` gives when it is
      applied to every spent missile, highest index first. */
  lemma SweepRecycles(active: seq<Missile>, free: seq<Missile>, dt: real, es: seq<Enemy>, hit: (nat, nat) -> real)
    ensures var v := Sweep(active, dt, es, hit);
      var lives := MissileLives(active, dt);
      && v.enemies == Outcome(lives, es, hit, MissileHitRadius)
      && Pool(v.kept, free + v.recycled)
        == RecycleDown(Pool(Steered(active, dt, es, hit), free), SpentFlags(Fates(lives, es, hit, MissileHitRadius)), |active|)
  {
    var st := Steered(active, dt, es, hit);
    var out := SpentFlags(Fates(MissileLives(active, dt), es, hit, MissileHitRadius));
    SweepByFates(active, dt, es, hit);
    RecycleDownAll(st, free, out);
  }

  /** A missile fired at one enemy can take out another: a live missile
      disables the first active enemy within range among those the later
      missiles left active, whichever enemy it was launched at. */
  lemma StrikesFirstInRange(active: seq<Missile>, dt: real, es: seq<Enemy>, hit: (nat, nat) -> real, i: nat, j: nat)
    requires i < |active| && active[i].life - dt > 0.0
    requires FirstActiveWithin(Seen(MissileLives(active, dt), es, hit, MissileHitRadius, i), Row(hit, i), MissileHitRadius) == Some(j)
    ensures Sweep(active, dt, es, hit).fates[i] == Struck(j)
    ensures j < |es| && es[j].active
    ensures !Sweep(active, dt, es, hit).enemies[j].active
    ensures EnemyDisabled(j) in Sweep(active, dt, es, hit).events
  {
    StruckIsDisabled(MissileLives(active, dt), es, hit, MissileHitRadius, i, j);
    SweepByFates(active, dt, es, hit);
    SweepDisables(active, dt, es, hit);
  }

  /** A live missile with no active enemy in range at its turn stays in the
      active list, steered. */
  lemma MissingMissileFlies(active: seq<Missile>, dt: real, es: seq<Enemy>, hit: (nat, nat) -> real, i: nat)
    requires i < |active| && active[i].life - dt > 0.0
    requires FirstActiveWithin(Seen(MissileLives(active, dt), es, hit, MissileHitRadius, i), Row(hit, i), MissileHitRadius).None?
    ensures Sweep(active, dt, es, hit).fates[i] == Flying
  {
    SweepByFates(active, dt, es, hit);
  }

  /** A missile whose life runs out is recycled untested. */
  lemma ExpiredMissileHitsNothing(active: seq<Missile>, dt: real, es: seq<Enemy>, hit: (nat, nat) -> real, i: nat)
    requires i < |active| && active[i].life - dt <= 0.0
    ensures Sweep(active, dt, es, hit).fates[i] == Expired
  {
    SweepByFates(active, dt, es, hit);
  }
}
