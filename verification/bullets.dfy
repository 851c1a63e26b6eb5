/** The player's gun (`createBullets`): a cooldown-gated spawner and a pool of
    bullets that each disable at most one enemy. */
module Bullets {
  import opened Utils
  import opened Wrappers
  import opened Events
  import opened Pools
  import opened Enemies
  import opened Projectiles

  /** Seconds between two shots while the trigger is held. */
  const FireInterval: real := 0.18
  /** Lifetime, in seconds, of a spawned bullet. */
  const BulletLife: real := 1.4
  /** A bullet closer than this to an active enemy disables it. */
  const HitRadius: real := 1.6

  /** Position, direction and the constant speed 75 are left to the renderer. */
  datatype Bullet = Bullet(life: real)

  datatype Gun = Gun(pool: Pool<Bullet>, cooldown: real)

  /** `reset()`: both lists emptied; the cooldown is not touched. */
  function Reset(g: Gun): (r: Gun)
    ensures r.pool.active == [] && r.pool.free == []
    ensures r.cooldown == g.cooldown
  {
    g.(pool := Clear(g.pool))
  }

  /** The bullets with their life lowered by dt. */
  function Aged(active: seq<Bullet>, dt: real): (r: seq<Bullet>)
    ensures |r| == |active|
    ensures forall i :: 0 <= i < |r| ==> r[i] == Bullet(active[i].life - dt)
  {
    seq(|active|, i requires 0 <= i < |active| => Bullet(active[i].life - dt))
  }

  /** The state of the reverse bullet loop: bullets kept in flight, bullets
      recycled (in push order), the enemies and the `onDisable` calls made. */
  datatype Volley = Volley(kept: seq<Bullet>, recycled: seq<Bullet>, enemies: seq<Enemy>, events: seq<Event>)

  /** The reverse loop of `update`. `hit(i, j)` is the distance from bullet i
      (after it moves) to enemy j. A bullet whose life runs out is recycled
      before any hit test; a live bullet disables the first active enemy
      within 1.6, is recycled and stops scanning. */
  function Sweep(active: seq<Bullet>, dt: real, es: seq<Enemy>, hit: (nat, nat) -> real): (r: Volley)
    ensures |r.kept| + |r.recycled| == |active|
    ensures |r.enemies| == |es|
    ensures forall k :: 0 <= k < |r.kept| ==> r.kept[k].life > 0.0
    ensures multiset(r.kept) + multiset(r.recycled) == multiset(Aged(active, dt))
    decreases |active|
  {
    if |active| == 0 then Volley([], [], es, [])
    else
      var i := |active| - 1;
      var b := Bullet(active[i].life - dt);
      assert Aged(active, dt) == Aged(active[..i], dt) + [b];
      if b.life <= 0.0 then
        var rest := Sweep(active[..i], dt, es, hit);
        Volley(rest.kept, [b] + rest.recycled, rest.enemies, rest.events)
      else
        match FirstActiveWithin(es, Row(hit, i), HitRadius)
        case Some(j) =>
          var (es2, ev) := Disable(es, j);
          var rest := Sweep(active[..i], dt, es2, hit);
          Volley(rest.kept, [b] + rest.recycled, rest.enemies, ev + rest.events)
        case None =>
          var rest := Sweep(active[..i], dt, es, hit);
          Volley(rest.kept + [b], rest.recycled, rest.enemies, rest.events)
  }

  /** The loop changes enemies only by disabling them, one `onDisable` per
      enemy switched off, at most one per recycled bullet. */
  lemma {:induction false} SweepDisables(active: seq<Bullet>, dt: real, es: seq<Enemy>, hit: (nat, nat) -> real)
    ensures DisablesOnly(es, Sweep(active, dt, es, hit).enemies, Sweep(active, dt, es, hit).events)
    ensures |Sweep(active, dt, es, hit).events| <= |Sweep(active, dt, es, hit).recycled|
    decreases |active|
  {
    if |active| == 0 {
    } else {
      var i := |active| - 1;
      var b := Bullet(active[i].life - dt);
      if b.life <= 0.0 {
        SweepDisables(active[..i], dt, es, hit);
      } else {
        match FirstActiveWithin(es, Row(hit, i), HitRadius)
        case Some(j) =>
          var es2 := Disable(es, j).0;
          SweepDisables(active[..i], dt, es2, hit);
          var rest := Sweep(active[..i], dt, es2, hit);
          DisableThen(es, j, rest.enemies, rest.events);
        case None =>
          SweepDisables(active[..i], dt, es, hit);
      }
    }
  }

  datatype GunStep = GunStep(gun: Gun, enemies: seq<Enemy>, events: seq<Event>)

  /** Whether the gun fires this tick: trigger held and cooldown elapsed. */
  predicate Fires(g: Gun, isFiring: bool) { isFiring && g.cooldown <= 0.0 }

  /** The fire step at the head of `update`: with the trigger held and the
      cooldown run out, one bullet with full life joins the end of the active
      list and the cooldown restarts at 0.18; otherwise nothing changes. */
  function Arm(g: Gun, isFiring: bool): (r: Gun)
    ensures Fires(g, isFiring) ==>
      r.pool.active == g.pool.active + [Bullet(BulletLife)] && r.cooldown == FireInterval
    ensures !Fires(g, isFiring) ==> r == g
    ensures r.pool.Size() == g.pool.Size() + (if Fires(g, isFiring) && |g.pool.free| == 0 then 1 else 0)
  {
    if Fires(g, isFiring) then Gun(Spawn(g.pool, Bullet(BulletLife)), FireInterval) else g
  }

  /** `update(dt, isFiring, enemies, disableEnemy)`. At most one bullet is
      spawned, only when the trigger is held and the cooldown has run out;
      the cooldown is then set to 0.18 and, either way, lowered by dt but
      never below 0. */
  function Update(g: Gun, dt: real, isFiring: bool, es: seq<Enemy>, hit: (nat, nat) -> real): (r: GunStep)
    ensures r.gun.cooldown >= 0.0
    ensures Fires(g, isFiring) ==> r.gun.cooldown == Max(0.0, FireInterval - dt)
    ensures !Fires(g, isFiring) ==> r.gun.cooldown == Max(0.0, g.cooldown - dt)
    ensures r.gun.pool.Size() == g.pool.Size() + (if Fires(g, isFiring) && |g.pool.free| == 0 then 1 else 0)
    ensures forall k :: 0 <= k < |r.gun.pool.active| ==> r.gun.pool.active[k].life > 0.0
    ensures DisablesOnly(es, r.enemies, r.events)
    ensures |r.events| <= |g.pool.active| + (if Fires(g, isFiring) then 1 else 0)
    ensures var a := Arm(g, isFiring);
      Records(r.gun.pool) == multiset(Aged(a.pool.active, dt)) + multiset(a.pool.free)
    ensures var a := Arm(g, isFiring);
      var lives := Lives(a.pool.active, dt);
      && r.enemies == Outcome(lives, es, hit, HitRadius)
      && r.gun.pool == RecycleDown(Pool(Aged(a.pool.active, dt), a.pool.free),
                                   SpentFlags(Fates(lives, es, hit, HitRadius)), |a.pool.active|)
  {
    Settle(Arm(g, isFiring), dt, es, hit)
  }

  /** The rest of `update` once the fire step is done: the cooldown runs
      down, every active bullet is aged and tested in the backward loop, and
      the spent ones go back to the free list. */
  function Settle(a: Gun, dt: real, es: seq<Enemy>, hit: (nat, nat) -> real): (r: GunStep)
    ensures r.gun.cooldown == Max(0.0, a.cooldown - dt)
    ensures r.gun.pool.Size() == a.pool.Size()
    ensures forall k :: 0 <= k < |r.gun.pool.active| ==> r.gun.pool.active[k].life > 0.0
    ensures DisablesOnly(es, r.enemies, r.events)
    ensures |r.events| <= |a.pool.active|
    ensures Records(r.gun.pool) == multiset(Aged(a.pool.active, dt)) + multiset(a.pool.free)
    ensures var lives := Lives(a.pool.active, dt);
      && r.enemies == Outcome(lives, es, hit, HitRadius)
      && r.gun.pool == RecycleDown(Pool(Aged(a.pool.active, dt), a.pool.free),
                                   SpentFlags(Fates(lives, es, hit, HitRadius)), |a.pool.active|)
  {
    var v := Sweep(a.pool.active, dt, es, hit);
    SweepDisables(a.pool.active, dt, es, hit);
    SweepRecycles(a.pool.active, a.pool.free, dt, es, hit);
    GunStep(Gun(Pool(v.kept, a.pool.free + v.recycled), Max(0.0, a.cooldown - dt)), v.enemies, v.events)
  }

  /** Every bullet's life after this tick's decrement. */
  function Lives(active: seq<Bullet>, dt: real): (r: seq<real>)
    ensures |r| == |active|
    ensures forall i :: 0 <= i < |r| ==> r[i] == active[i].life - dt
  {
    seq(|active|, i requires 0 <= i < |active| => active[i].life - dt)
  }

  /** The loop, read bullet by bullet: its enemies are the `Outcome` of the
      bullets' fates, the bullets kept are those still flying, in order, and
      the recycled ones are the others, last index first. */
  lemma {:induction false} SweepByFates(active: seq<Bullet>, dt: real, es: seq<Enemy>, hit: (nat, nat) -> real)
    ensures var r := Sweep(active, dt, es, hit);
      var out := SpentFlags(Fates(Lives(active, dt), es, hit, HitRadius));
      && r.enemies == Outcome(Lives(active, dt), es, hit, HitRadius)
      && r.kept == Keep(Aged(active, dt), out)
      && r.recycled == Drop(Aged(active, dt), out)
    decreases |active|, 1
  {
    if |active| > 0 {
      var n := |active| - 1;
      var aged := Aged(active, dt);
      var out := SpentFlags(Fates(Lives(active, dt), es, hit, HitRadius));
      SweepByFatesBelow(active, dt, es, hit);
      SweepStep(active, dt, es, hit);
      KeepLast(aged, out);
      DropLast(aged, out);
    }
  }

  /** The pool the loop leaves behind is the one `Recycle` gives when it is
      applied to every spent bullet, highest index first. */
  lemma SweepRecycles(active: seq<Bullet>, free: seq<Bullet>, dt: real, es: seq<Enemy>, hit: (nat, nat) -> real)
    ensures var v := Sweep(active, dt, es, hit);
      var lives := Lives(active, dt);
      && v.enemies == Outcome(lives, es, hit, HitRadius)
      && Pool(v.kept, free + v.recycled)
        == RecycleDown(Pool(Aged(active, dt), free), SpentFlags(Fates(lives, es, hit, HitRadius)), |active|)
  {
    var aged := Aged(active, dt);
    var out := SpentFlags(Fates(Lives(active, dt), es, hit, HitRadius));
    SweepByFates(active, dt, es, hit);
    RecycleDownAll(aged, free, out);
  }

  /** The induction step of `SweepByFates`: the bullets below the last one,
      run against what the last one left, follow their fates in the whole
      list. */
  lemma {:induction false} SweepByFatesBelow(active: seq<Bullet>, dt: real, es: seq<Enemy>, hit: (nat, nat) -> real)
    requires |active| > 0
    ensures var n := |active| - 1;
      var lives := Lives(active, dt);
      var f := Strike(lives[n], es, Row(hit, n), HitRadius);
      var out := SpentFlags(Fates(lives, es, hit, HitRadius));
      var rest := Sweep(active[..n], dt, Left(es, f), hit);
      && out[n] == Spent(f)
      && rest.enemies == Outcome(lives, es, hit, HitRadius)
      && rest.kept == Keep(Aged(active, dt)[..n], out[..n])
      && rest.recycled == Drop(Aged(active, dt)[..n], out[..n])
    decreases |active|, 0
  {
    var n := |active| - 1;
    var lives := Lives(active, dt);
    var f := Strike(lives[n], es, Row(hit, n), HitRadius);
    var fs := Fates(lives, es, hit, HitRadius);
    PrefixLives(active, dt, n);
    FatesPrefix(lives, es, hit, HitRadius);
    FlagsPrefix(fs, n);
    SweepByFates(active[..n], dt, Left(es, f), hit);
  }

  /** Ageing and the life decrement commute with taking a prefix. */
  lemma PrefixLives(active: seq<Bullet>, dt: real, n: nat)
    requires n <= |active|
    ensures Lives(active[..n], dt) == Lives(active, dt)[..n]
    ensures Aged(active[..n], dt) == Aged(active, dt)[..n]
  {
  }

  /** One step of the loop: the last bullet's `Strike` decides where it
      goes, and the rest of the loop runs on the enemies it left. */
  lemma SweepStep(active: seq<Bullet>, dt: real, es: seq<Enemy>, hit: (nat, nat) -> real)
    requires |active| > 0
    ensures var n := |active| - 1;
      var f := Strike(Lives(active, dt)[n], es, Row(hit, n), HitRadius);
      var r := Sweep(active, dt, es, hit);
      var rest := Sweep(active[..n], dt, Left(es, f), hit);
      var b := Aged(active, dt)[n];
      && r.enemies == rest.enemies
      && r.kept == rest.kept + (if Spent(f) then [] else [b])
      && r.recycled == (if Spent(f) then [b] else []) + rest.recycled
  {
  }

  /** A bullet whose life runs out this tick disables nothing, whatever it is
      close to, and goes back to the free list. */
  lemma ExpiredBulletHitsNothing(active: seq<Bullet>, dt: real, es: seq<Enemy>, hit: (nat, nat) -> real, i: nat)
    requires i < |active| && active[i].life - dt <= 0.0
    ensures var fs := Fates(Lives(active, dt), es, hit, HitRadius);
      var met := Seen(Lives(active, dt), es, hit, HitRadius, i);
      fs[i] == Expired && Left(met, fs[i]) == met
    ensures SpentFlags(Fates(Lives(active, dt), es, hit, HitRadius))[i]
  {
  }

  /** A live bullet disables exactly the first active enemy within range
      among those the later bullets left active, and is recycled. */
  lemma LiveBulletHitsFirst(active: seq<Bullet>, dt: real, es: seq<Enemy>, hit: (nat, nat) -> real, i: nat, j: nat)
    requires i < |active| && active[i].life - dt > 0.0
    requires FirstActiveWithin(Seen(Lives(active, dt), es, hit, HitRadius, i), Row(hit, i), HitRadius) == Some(j)
    ensures Fates(Lives(active, dt), es, hit, HitRadius)[i] == Struck(j)
    ensures SpentFlags(Fates(Lives(active, dt), es, hit, HitRadius))[i]
    ensures j < |es| && es[j].active
    ensures !Sweep(active, dt, es, hit).enemies[j].active
    ensures EnemyDisabled(j) in Sweep(active, dt, es, hit).events
  {
    StruckIsDisabled(Lives(active, dt), es, hit, HitRadius, i, j);
    SweepByFates(active, dt, es, hit);
    SweepDisables(active, dt, es, hit);
  }

  /** A live bullet with no active enemy in range at its turn stays in the
      active list. */
  lemma MissingBulletFlies(active: seq<Bullet>, dt: real, es: seq<Enemy>, hit: (nat, nat) -> real, i: nat)
    requires i < |active| && active[i].life - dt > 0.0
    requires FirstActiveWithin(Seen(Lives(active, dt), es, hit, HitRadius, i), Row(hit, i), HitRadius).None?
    ensures Fates(Lives(active, dt), es, hit, HitRadius)[i] == Flying
    ensures !SpentFlags(Fates(Lives(active, dt), es, hit, HitRadius))[i]
  {
  }
}
