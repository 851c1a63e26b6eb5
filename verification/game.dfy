/** The game loop's bookkeeping (`createGame` in the game module): the mission
    state the HUD shows, the callbacks the components report through, the
    completion check, weapon switching and one `animate` tick that runs the
    components in the source's order. */
module Game {
  import opened Utils
  import opened Wrappers
  import opened Events
  import opened Pools
  import Gates
  import Enemies
  import Bullets
  import Missiles
  import opened Lock

  /** Hit points at the start of a run. */
  const StartHp: int := 3
  /** Cruise speed at the start of a run, and its bounds. */
  const StartSpeed: real := 22.0
  const MinSpeed: real := 8.0
  const MaxSpeed: real := 40.0
  /** Speed change per second at full throttle. */
  const Accel: real := 18.0
  /** The longest tick: frame times above 50 ms are cut down. */
  const MaxDt: real := 0.05
  /** Gates the completion check asks for, over the whole run. */
  const GatesToComplete: nat := 2

  /** The part of `state` the rules read and write. `passed` lives with the
      gate tracker; `lockLabel` and `lockPercent` live in the world's
      readout. */
  datatype Mission = Mission(
    hp: int,
    gatesPassedTotal: nat,
    enemiesRemaining: int,
    timerMs: real,
    timerRunning: bool,
    completed: bool,
    over: bool,
    speed: real,
    weapon: Weapon)

  // ---------------------------------------------------------------------
  // Callbacks

  /** `checkCompletion()`: once completed nothing changes; otherwise the run
      completes, and the timer stops, when no enemy remains and at least two
      gates have been passed. (Prompting for a name and submitting the score
      is left to the browser.) */
  function CheckCompletion(m: Mission): (r: Mission)
    ensures m.completed ==> r == m
    ensures r.completed <==> m.completed || (m.enemiesRemaining <= 0 && m.gatesPassedTotal >= GatesToComplete)
    ensures !m.completed && r.completed ==> !r.timerRunning
    ensures r == m.(completed := r.completed, timerRunning := r.timerRunning)
  {
    if m.completed then m
    else if m.enemiesRemaining > 0 then m
    else if m.gatesPassedTotal < GatesToComplete then m
    else m.(completed := true, timerRunning := false)
  }

  lemma CheckCompletionIdempotent(m: Mission)
    ensures CheckCompletion(CheckCompletion(m)) == CheckCompletion(m)
  {
  }

  /** `onPass`: one more gate over the run, then the completion check. */
  function OnPass(m: Mission): (r: Mission)
    ensures r.gatesPassedTotal == m.gatesPassedTotal + 1
    ensures r.hp == m.hp && r.enemiesRemaining == m.enemiesRemaining && r.over == m.over
  {
    CheckCompletion(m.(gatesPassedTotal := m.gatesPassedTotal + 1))
  }

  /** `onHit`: one hit point less, and the run is over once none is left.
      The hit points are not floored at zero. */
  function OnHit(m: Mission): (r: Mission)
    ensures r.hp == m.hp - 1
    ensures r.over <==> m.over || m.hp - 1 <= 0
    ensures r == m.(hp := r.hp, over := r.over)
  {
    var hp := m.hp - 1;
    if hp <= 0 then m.(hp := hp, over := true) else m.(hp := hp)
  }

  /** `onDisable`: one enemy fewer, never below zero, then the completion
      check. */
  function OnDisable(m: Mission): (r: Mission)
    ensures r.enemiesRemaining == if m.enemiesRemaining >= 1 then m.enemiesRemaining - 1 else 0
    ensures r.hp == m.hp && r.gatesPassedTotal == m.gatesPassedTotal && r.over == m.over
  {
    var n := if m.enemiesRemaining - 1 >= 0 then m.enemiesRemaining - 1 else 0;
    CheckCompletion(m.(enemiesRemaining := n))
  }

  /** One callback. */
  function Apply(m: Mission, e: Event): Mission {
    match e
    case GatePassed => OnPass(m)
    case PlayerHit => OnHit(m)
    case EnemyDisabled(_) => OnDisable(m)
  }

  /** The callbacks of one component update, in the order they were made.
      Their effect depends only on how many of each kind there are: hp drops
      by the hits, the gate total rises by the passes, the remaining count
      falls by the disables but not below zero, and the run is over once a
      hit leaves no hit points. The clock, the speed and the weapon are never
      touched. */
  function Dispatch(m: Mission, evs: seq<Event>): (r: Mission)
    ensures r.hp == m.hp - CountHits(evs)
    ensures r.gatesPassedTotal == m.gatesPassedTotal + CountPasses(evs)
    ensures m.enemiesRemaining >= 0 ==>
      r.enemiesRemaining == if m.enemiesRemaining >= CountDisables(evs) then m.enemiesRemaining - CountDisables(evs) else 0
    ensures r.over <==> m.over || (CountHits(evs) > 0 && r.hp <= 0)
    ensures r.weapon == m.weapon && r.speed == m.speed && r.timerMs == m.timerMs
    decreases |evs|
  {
    if |evs| == 0 then m else Apply(Dispatch(m, evs[..|evs| - 1]), evs[|evs| - 1])
  }

  /** The bookkeeping invariant of the callbacks: no remaining count below
      zero, no hit points left means the run is over, and a completed run has
      met its goals and stopped its timer. */
  ghost predicate Sound(m: Mission) {
    && m.enemiesRemaining >= 0
    && (m.hp <= 0 ==> m.over)
    && (m.completed ==> m.enemiesRemaining == 0 && m.gatesPassedTotal >= GatesToComplete && !m.timerRunning)
  }

  /** The callbacks keep the bookkeeping sound and never undo completion. */
  lemma {:induction false} DispatchSound(m: Mission, evs: seq<Event>)
    requires Sound(m)
    ensures Sound(Dispatch(m, evs))
    ensures m.completed ==> Dispatch(m, evs).completed
    ensures !m.timerRunning ==> !Dispatch(m, evs).timerRunning
    decreases |evs|
  {
    if |evs| > 0 {
      DispatchSound(m, evs[..|evs| - 1]);
    }
  }

  /** Completion is not missed: if a run ends the callbacks with no enemy
      remaining and two gates passed, and at least one of them was a pass or
      a disable (the callbacks that run the check), it is complete. */
  lemma {:induction false} CompletionReached(m: Mission, evs: seq<Event>)
    requires m.enemiesRemaining >= 0
    requires CountPasses(evs) + CountDisables(evs) > 0
    requires Dispatch(m, evs).enemiesRemaining == 0
    requires Dispatch(m, evs).gatesPassedTotal >= GatesToComplete
    ensures Dispatch(m, evs).completed
    decreases |evs|
  {
    var n := |evs| - 1;
    var front := Dispatch(m, evs[..n]);
    if evs[n] == PlayerHit {
      CompletionReached(m, evs[..n]);
    }
  }

  /** Hit points are not floored: two hits on the last hit point leave -1. */
  lemma HpNotFloored(m: Mission)
    requires m.hp == 1
    ensures Dispatch(m, [PlayerHit, PlayerHit]).hp == -1
    ensures Dispatch(m, [PlayerHit, PlayerHit]).over
  {
    assert [PlayerHit, PlayerHit][..1] == [PlayerHit];
    assert [PlayerHit][..0] == [];
    assert Dispatch(m, [PlayerHit]) == OnHit(m);
  }

  // ---------------------------------------------------------------------
  // Timer, throttle and weapons

  /** `updateTimer(dt)`: the clock advances only while it runs. */
  function UpdateTimer(m: Mission, dt: real): (r: Mission)
    ensures m.timerRunning ==> r.timerMs == m.timerMs + dt * 1000.0
    ensures !m.timerRunning ==> r == m
    ensures r == m.(timerMs := r.timerMs)
  {
    if m.timerRunning then m.(timerMs := m.timerMs + dt * 1000.0) else m
  }

  /** `Math.min(clock.getDelta(), 0.05)`. */
  function ClampDt(delta: real): (dt: real)
    ensures dt <= MaxDt
    ensures delta <= MaxDt ==> dt == delta
    ensures delta >= 0.0 ==> dt >= 0.0
  {
    Min(delta, MaxDt)
  }

  /** The speed update of `updatePlane`: throttle (up minus down) times the
      acceleration, kept between the speed bounds. */
  function UpdateSpeed(speed: real, throttle: real, dt: real): (r: real)
    ensures MinSpeed <= r <= MaxSpeed
    ensures MinSpeed <= speed + throttle * Accel * dt <= MaxSpeed ==> r == speed + throttle * Accel * dt
  {
    Clamp(speed + throttle * Accel * dt, MinSpeed, MaxSpeed)
  }

  function Toggle(w: Weapon): Weapon {
    match w
    case WeaponGun => WeaponMissile
    case WeaponMissile => WeaponGun
  }

  datatype Arms = Arms(weapon: Weapon, lock: LockState)

  /** `handleWeaponSwitch()`: a switch request toggles the weapon and clears
      the lock; a next-target request then runs `selectNextTarget` with the
      weapon now selected. */
  function HandleWeaponSwitch(weapon: Weapon, l: LockState, switchWeapon: bool, nextTarget: bool,
                              cands: seq<nat>): (r: Arms)
    ensures r.weapon == if switchWeapon then Toggle(weapon) else weapon
    ensures switchWeapon && !nextTarget ==> r.lock == Unlocked
    ensures !switchWeapon && !nextTarget ==> r.lock == l
    ensures nextTarget ==> r.lock == SelectNext(if switchWeapon then Unlocked else l, r.weapon, cands)
  {
    var w := if switchWeapon then Toggle(weapon) else weapon;
    var l1 := if switchWeapon then Unlocked else l;
    Arms(w, if nextTarget then SelectNext(l1, w, cands) else l1)
  }

  /** Switching twice restores the weapon. */
  lemma ToggleTwice(w: Weapon)
    ensures Toggle(Toggle(w)) == w
    ensures Toggle(w) != w
  {
  }

  /** The missile fire request of `animate`: trigger held, missiles selected
      and a full lock. */
  predicate MissileTrigger(fire: bool, weapon: Weapon, l: LockState) {
    fire && weapon == WeaponMissile && l.progress >= LockTime
  }

  /** A fire request only reaches the launcher when the HUD reads "ready". */
  lemma TriggerMeansReady(fire: bool, weapon: Weapon, l: LockState)
    requires MissileTrigger(fire, weapon, l)
    ensures Read(l).key == LockReady && Read(l).percent == 100
  {
  }

  // ---------------------------------------------------------------------
  // The world and one tick

  datatype World = World(
    mission: Mission,
    tracker: Gates.Tracker,
    squad: Enemies.Squad,
    gun: Bullets.Gun,
    launcher: Missiles.Launcher,
    lock: LockState,
    readout: Readout)

  /** The input snapshot of one frame (`input.fire`, the two one-shot
      requests and throttle up minus down). */
  datatype Controls = Controls(fire: bool, switchWeapon: bool, nextTarget: bool, throttle: real)

  /** The geometry of one frame: gate distances to the player and the
      `Math.random` draws a gate recycle would use; enemy distances before
      they move and enemy-bullet distances after; lock-on sights; distances
      from player bullets and missiles to enemies. */
  datatype Frame = Frame(
    gateDist: seq<real>,
    gateDraws: seq<Gates.GateDraw>,
    enemyDist: seq<real>,
    shotDist: nat -> real,
    sights: seq<Sight>,
    bulletHit: (nat, nat) -> real,
    missileHit: (nat, nat) -> real)

  predicate Fits(w: World, f: Frame) {
    && |f.gateDist| == |w.tracker.gates| && |f.gateDraws| == |w.tracker.gates|
    && |f.enemyDist| == |w.squad.enemies| && |f.sights| == |w.squad.enemies|
  }

  /** The result of the weapons phase: the gun, the launcher, the enemies
      and the callbacks made. */
  datatype Volley = Volley(gun: Bullets.Gun, launcher: Missiles.Launcher, enemies: seq<Enemies.Enemy>, events: seq<Event>)

  /** The end of `animate`: `bullets.update` with the gun's trigger, then
      `missiles.update` with the missile trigger and the locked target. A
      weapon that is not selected only lets its cooldown run down, and no
      missile leaves without a full lock. */
  function FireWeapons(gun: Bullets.Gun, launcher: Missiles.Launcher, weapon: Weapon, l: LockState,
                       fire: bool, es: seq<Enemies.Enemy>, f: Frame, dt: real): (r: Volley)
    ensures |r.enemies| == |es|
    ensures weapon != WeaponGun ==>
      r.gun.cooldown == Max(0.0, gun.cooldown - dt) && r.gun.pool.Size() == gun.pool.Size()
    ensures !MissileTrigger(fire, weapon, l) ==>
      r.launcher.cooldown == Max(0.0, launcher.cooldown - dt) && r.launcher.pool.Size() == launcher.pool.Size()
    ensures weapon != WeaponGun ==>
      r.gun == Bullets.Settle(gun, dt, es, f.bulletHit).gun && |r.gun.pool.active| <= |gun.pool.active|
    ensures !MissileTrigger(fire, weapon, l) ==>
      var left := Bullets.Update(gun, dt, fire && weapon == WeaponGun, es, f.bulletHit).enemies;
      r.launcher == Missiles.Settle(launcher, dt, left, f.missileHit).launcher
      && |r.launcher.pool.active| <= |launcher.pool.active|
    ensures r.gun.cooldown >= 0.0 && r.launcher.cooldown >= 0.0
  {
    var b := Bullets.Update(gun, dt, fire && weapon == WeaponGun, es, f.bulletHit);
    var m := Missiles.Update(launcher, dt, MissileTrigger(fire, weapon, l), l.target, b.enemies, f.missileHit);
    Volley(b.gun, m.launcher, m.enemies, b.events + m.events)
  }

  /** The first half of a frame: the timer, the speed, `gates.update()` and
      `enemies.update(dt)`, with their callbacks. */
  function Fly(w: World, c: Controls, f: Frame, dt: real): (r: World)
    requires Fits(w, f)
    ensures Fits(r, f)
    ensures r.gun == w.gun && r.launcher == w.launcher && r.lock == w.lock && r.readout == w.readout
    ensures r.mission.weapon == w.mission.weapon
  {
    var m1 := UpdateTimer(w.mission, dt);
    var m2 := m1.(speed := UpdateSpeed(m1.speed, c.throttle, dt));
    var g := Gates.Update(w.tracker, f.gateDist, f.gateDraws);
    var e := Enemies.Update(w.squad, dt, f.enemyDist, f.shotDist);
    w.(mission := Dispatch(Dispatch(m2, g.events), e.events), tracker := g.tracker, squad := e.squad)
  }

  /** The second half of a frame: `handleWeaponSwitch()`, `updateLock(dt)`
      and the two weapons, with their callbacks. */
  function Fight(w: World, c: Controls, f: Frame, dt: real): (r: World)
    requires Fits(w, f)
    ensures Fits(r, f)
    ensures r.tracker == w.tracker
  {
    var es := w.squad.enemies;
    var arms := HandleWeaponSwitch(w.mission.weapon, w.lock, c.switchWeapon, c.nextTarget, Candidates(es, f.sights));
    var lk := Lock.Update(arms.lock, arms.weapon, es, f.sights, dt);
    var v := FireWeapons(w.gun, w.launcher, arms.weapon, lk.lock, c.fire, es, f, dt);
    var m := Dispatch(w.mission.(weapon := arms.weapon), v.events);
    World(m, w.tracker, w.squad.(enemies := v.enemies), v.gun, v.launcher, lk.lock, lk.readout)
  }

  /** One `animate` frame. While the run is over nothing changes. Otherwise,
      with dt the clamped frame time: the timer, the speed, the gates, the
      enemies, the weapon switch, the lock and the two weapons, each
      component's callbacks applied as they are made. */
  function Tick(w: World, c: Controls, f: Frame, delta: real): (r: World)
    requires Fits(w, f)
    ensures w.mission.over ==> r == w
    ensures Fits(r, f)
  {
    if w.mission.over then w
    else Fight(Fly(w, c, f, ClampDt(delta)), c, f, ClampDt(delta))
  }

  /** What holds of every world the game reaches: sound bookkeeping, a gate
      counter that agrees with the flags, a lock within its range and cleared
      while the gun is selected, a speed within bounds and no negative
      cooldown. */
  ghost predicate WorldInv(w: World) {
    && Sound(w.mission)
    && Gates.Valid(w.tracker)
    && LockInv(w.lock)
    && (w.mission.weapon == WeaponGun ==> w.lock == Unlocked)
    && MinSpeed <= w.mission.speed <= MaxSpeed
    && w.gun.cooldown >= 0.0 && w.launcher.cooldown >= 0.0
  }

  /** Selecting the next target keeps the lock in range. */
  lemma SelectNextKeepsInv(l: LockState, weapon: Weapon, cands: seq<nat>)
    requires LockInv(l)
    ensures LockInv(SelectNext(l, weapon, cands))
  {
  }

  lemma FlyKeepsInv(w: World, c: Controls, f: Frame, dt: real)
    requires Fits(w, f) && WorldInv(w)
    ensures WorldInv(Fly(w, c, f, dt))
  {
    var m1 := UpdateTimer(w.mission, dt);
    var m2 := m1.(speed := UpdateSpeed(m1.speed, c.throttle, dt));
    var g := Gates.Update(w.tracker, f.gateDist, f.gateDraws);
    var e := Enemies.Update(w.squad, dt, f.enemyDist, f.shotDist);
    DispatchSound(m2, g.events);
    DispatchSound(Dispatch(m2, g.events), e.events);
  }

  lemma FightKeepsInv(w: World, c: Controls, f: Frame, dt: real)
    requires Fits(w, f) && WorldInv(w) && dt >= 0.0
    ensures WorldInv(Fight(w, c, f, dt))
  {
    var es := w.squad.enemies;
    var cands := Candidates(es, f.sights);
    var arms := HandleWeaponSwitch(w.mission.weapon, w.lock, c.switchWeapon, c.nextTarget, cands);
    SelectNextKeepsInv(if c.switchWeapon then Unlocked else w.lock, arms.weapon, cands);
    AdvanceKeepsInv(arms.lock, cands, dt);
    var lk := Lock.Update(arms.lock, arms.weapon, es, f.sights, dt);
    var v := FireWeapons(w.gun, w.launcher, arms.weapon, lk.lock, c.fire, es, f, dt);
    DispatchSound(w.mission.(weapon := arms.weapon), v.events);
  }

  /** Every frame keeps the invariant. */
  lemma TickKeepsInv(w: World, c: Controls, f: Frame, delta: real)
    requires Fits(w, f) && WorldInv(w) && delta >= 0.0
    ensures WorldInv(Tick(w, c, f, delta))
  {
    if !w.mission.over {
      FlyKeepsInv(w, c, f, ClampDt(delta));
      FightKeepsInv(Fly(w, c, f, ClampDt(delta)), c, f, ClampDt(delta));
    }
  }

  /** `resetGame()`: full hit points, zeroed counters, a running timer,
      cruise speed, every gate and enemy reset, both weapons emptied and the
      lock cleared. The weapon selection is kept. */
  function ResetGame(w: World, gateDraws: seq<Gates.GateDraw>, enemyDraws: seq<real>): (r: World)
    requires |gateDraws| == |w.tracker.gates| && |enemyDraws| == |w.squad.enemies|
    ensures r.mission == Mission(StartHp, 0, |w.squad.enemies|, 0.0, true, false, false, StartSpeed, w.mission.weapon)
    ensures r.tracker.passed == 0 && Gates.Valid(r.tracker)
    ensures forall i :: 0 <= i < |r.squad.enemies| ==> r.squad.enemies[i].active
    ensures r.gun.pool.Size() == 0 && r.launcher.pool.Size() == 0
    ensures r.lock == Unlocked
  {
    World(
      Mission(StartHp, 0, |w.squad.enemies|, 0.0, true, false, false, StartSpeed, w.mission.weapon),
      Gates.Tracker(Gates.ResetAll(w.tracker.gates, gateDraws), 0),
      Enemies.ResetAll(w.squad, enemyDraws),
      Bullets.Reset(w.gun),
      Missiles.Reset(w.launcher),
      Unlocked,
      w.readout)
  }

  /** A restart reaches the invariant from any world whose cooldowns are not
      negative: the reset does not touch the cooldowns. */
  lemma ResetGameInv(w: World, gateDraws: seq<Gates.GateDraw>, enemyDraws: seq<real>)
    requires |gateDraws| == |w.tracker.gates| && |enemyDraws| == |w.squad.enemies|
    requires w.gun.cooldown >= 0.0 && w.launcher.cooldown >= 0.0
    ensures WorldInv(ResetGame(w, gateDraws, enemyDraws))
  {
  }
}
