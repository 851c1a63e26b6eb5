/** Missile lock-on (`updateLock`, `selectNextTarget`, `getLockCandidates`):
    the enemies in front of the player are the candidates, nearest first; the
    lock stays on its target while that target remains a candidate and fills
    up over 1.3 seconds. */
module Lock {
  import opened Utils
  import opened Wrappers
  import opened Sorting
  import opened Enemies

  /** Farthest distance at which an enemy can be locked. */
  const LockRange: real := 120.0
  /** Least cosine between the player's forward vector and the direction to
      the enemy. */
  const MinDot: real := 0.86
  /** Seconds of continuous lock before a missile may be launched. */
  const LockTime: real := 1.3
  /** Progress drains at 1.5 seconds per second while nothing is in sight. */
  const DrainRate: real := 1.5

  /** The weapon selected (`state.weapon`, "gun" or "missile"). */
  datatype Weapon = WeaponGun | WeaponMissile

  /** The geometry of one enemy relative to the player this tick: its
      distance and the cosine of its bearing off the player's nose. */
  datatype Sight = Sight(distance: real, dot: real)

  /** Neither too far nor too far off the nose (an enemy is dropped when
      `distance > range` or `dot < minDot`). */
  predicate InSight(s: Sight) { s.distance <= LockRange && s.dot >= MinDot }

  predicate Eligible(es: seq<Enemy>, sights: seq<Sight>, i: nat)
    requires |sights| == |es|
  {
    i < |es| && es[i].active && InSight(sights[i])
  }

  /** The eligible indices below n, in enemy order (the `forEach` pass). */
  function Scan(es: seq<Enemy>, sights: seq<Sight>, n: nat): (r: seq<nat>)
    requires |sights| == |es| && n <= |es|
    ensures forall x: nat :: x in r <==> x < n && Eligible(es, sights, x)
    ensures forall a, b :: 0 <= a < b < |r| ==> r[a] < r[b]
  {
    if n == 0 then []
    else
      var front := Scan(es, sights, n - 1);
      assert forall a :: 0 <= a < |front| ==> front[a] in front;
      if Eligible(es, sights, n - 1) then front + [n - 1] else front
  }

  /** The sort key: distance, and among equal distances enemy order, which
      is the order a stable sort by distance leaves them in. */
  function NearestFirst(sights: seq<Sight>): nat -> Key {
    (i: nat) => Key(if i < |sights| then sights[i].distance else 0.0, i as real)
  }

  /** Enemy i is listed before enemy j: it is nearer, or as near and earlier
      in enemy order. */
  predicate Precedes(sights: seq<Sight>, i: nat, j: nat) {
    i < |sights| && j < |sights| &&
    (sights[i].distance < sights[j].distance || (sights[i].distance == sights[j].distance && i < j))
  }

  /** `getLockCandidates()`: exactly the active enemies in sight, each once,
      nearest first and, at equal distance, in enemy order. */
  function Candidates(es: seq<Enemy>, sights: seq<Sight>): (r: seq<nat>)
    requires |sights| == |es|
    ensures forall x: nat :: x in r <==> Eligible(es, sights, x)
    ensures forall a :: 0 <= a < |r| ==> Eligible(es, sights, r[a])
    ensures Distinct(r)
    ensures forall a, b :: 0 <= a < b < |r| ==> Precedes(sights, r[a], r[b])
  {
    var found := Scan(es, sights, |es|);
    var r := SortBy(found, NearestFirst(sights));
    SortedCandidates(es, sights, found, r);
    r
  }

  lemma SortedCandidates(es: seq<Enemy>, sights: seq<Sight>, found: seq<nat>, r: seq<nat>)
    requires |sights| == |es|
    requires found == Scan(es, sights, |es|)
    requires multiset(r) == multiset(found) && SortedBy(r, NearestFirst(sights))
    ensures forall x: nat :: x in r <==> Eligible(es, sights, x)
    ensures forall a :: 0 <= a < |r| ==> Eligible(es, sights, r[a])
    ensures Distinct(r)
    ensures forall a, b :: 0 <= a < b < |r| ==> Precedes(sights, r[a], r[b])
  {
    forall x: nat ensures x in r <==> x in found {
      assert x in r <==> x in multiset(r);
      assert x in found <==> x in multiset(found);
    }
    DistinctPermutation(found, r);
    forall a | 0 <= a < |r| ensures Eligible(es, sights, r[a]) {
      assert r[a] in r;
    }
    forall a, b | 0 <= a < b < |r|
      ensures Precedes(sights, r[a], r[b])
    {
      assert r[a] != r[b];
      var ka := NearestFirst(sights)(r[a]);
      assert KeyLe(ka, NearestFirst(sights)(r[b]));
      assert ka.minor == r[a] as real;
    }
  }

  /** `lockState`: the locked enemy, if any, and seconds of lock built up. */
  datatype LockState = LockState(target: Option<nat>, progress: real)

  const Unlocked: LockState := LockState(None, 0.0)

  /** Progress stays between 0 and the lock time. */
  predicate LockInv(l: LockState) { 0.0 <= l.progress <= LockTime }

  /** The lock update proper: with no candidate the target is dropped and
      progress drains; a target that is still a candidate gains dt of
      progress up to the lock time; otherwise the nearest candidate is
      locked afresh. */
  function Advance(l: LockState, cands: seq<nat>, dt: real): (r: LockState)
    ensures r.target.None? <==> |cands| == 0
    ensures r.target.Some? ==> r.target.value in cands
    ensures |cands| == 0 ==> r.progress == Max(0.0, l.progress - dt * DrainRate)
    ensures |cands| > 0 && l.target.Some? && l.target.value in cands ==>
      r.target == l.target && r.progress == Min(LockTime, l.progress + dt)
    ensures |cands| > 0 && !(l.target.Some? && l.target.value in cands) ==>
      r == LockState(Some(cands[0]), 0.0)
  {
    if |cands| == 0 then LockState(None, Max(0.0, l.progress - dt * DrainRate))
    else if l.target.Some? && l.target.value in cands then l.(progress := Min(LockTime, l.progress + dt))
    else LockState(Some(cands[0]), 0.0)
  }

  /** A tick never leaves the progress range. */
  lemma AdvanceKeepsInv(l: LockState, cands: seq<nat>, dt: real)
    requires LockInv(l) && dt >= 0.0
    ensures LockInv(Advance(l, cands, dt))
  {
  }

  /** The lock label keys of the HUD. */
  datatype LockLabel = LockNone | LockProgress | LockReady

  /** `state.lockLabel` and `state.lockPercent`. */
  datatype Readout = Readout(key: LockLabel, percent: int)

  /** The label after a lock update: ready at full progress, else the
      percentage (rounded down) while a target is held, else none. */
  function Read(l: LockState): (r: Readout)
    ensures r.key == LockReady <==> l.progress >= LockTime
    ensures r.key == LockReady ==> r.percent == 100
    ensures r.key == LockNone <==> l.progress < LockTime && l.target.None?
    ensures r.key == LockNone ==> r.percent == 0
    ensures r.key == LockProgress && LockInv(l) ==> 0 <= r.percent <= 99
    ensures r.key == LockProgress ==>
      r.percent as real <= l.progress / LockTime * 100.0 < r.percent as real + 1.0
  {
    if l.progress >= LockTime then Readout(LockReady, 100)
    else if l.target.Some? then
      var x := l.progress / LockTime * 100.0;
      Readout(LockProgress, x.Floor)
    else Readout(LockNone, 0)
  }

  /** The result of `updateLock(dt)`. */
  datatype LockStep = LockStep(lock: LockState, readout: Readout)

  /** `updateLock(dt)`: with the gun selected the lock is left as it is and
      the label reads none; with missiles the lock advances and the label
      follows it. */
  function Update(l: LockState, weapon: Weapon, es: seq<Enemy>, sights: seq<Sight>, dt: real): (r: LockStep)
    requires |sights| == |es|
    ensures weapon == WeaponGun ==> r == LockStep(l, Readout(LockNone, 0))
    ensures weapon == WeaponMissile ==> r.lock == Advance(l, Candidates(es, sights), dt)
    ensures weapon == WeaponMissile ==> r.readout == Read(r.lock)
    ensures r.lock.target.Some? && r.lock != l ==> Eligible(es, sights, r.lock.target.value)
  {
    if weapon == WeaponGun then LockStep(l, Readout(LockNone, 0))
    else
      var next := Advance(l, Candidates(es, sights), dt);
      LockStep(next, Read(next))
  }

  /** "Ready" always comes with a target while time moves on: when the
      candidates run out the progress drains below the lock time in the same
      tick the target is dropped. */
  lemma ReadyHasTarget(l: LockState, cands: seq<nat>, dt: real)
    requires LockInv(l) && dt > 0.0
    ensures Read(Advance(l, cands, dt)).key == LockReady ==> Advance(l, cands, dt).target.Some?
  {
  }

  /** The progress after n ticks of dt on a target that stays a candidate. */
  function Hold(l: LockState, cands: seq<nat>, dt: real, n: nat): LockState {
    if n == 0 then l else Advance(Hold(l, cands, dt, n - 1), cands, dt)
  }

  /** Holding a candidate for n ticks adds n * dt of progress, up to the lock
      time, and keeps the target. */
  lemma {:induction false} HoldProgress(l: LockState, cands: seq<nat>, dt: real, n: nat)
    requires l.target.Some? && l.target.value in cands
    requires LockInv(l) && dt >= 0.0
    ensures Hold(l, cands, dt, n).target == l.target
    ensures Hold(l, cands, dt, n).progress == Min(LockTime, l.progress + n as real * dt)
  {
    if n > 0 {
      HoldProgress(l, cands, dt, n - 1);
      assert (n - 1) as real * dt + dt == n as real * dt;
    }
  }

  /** A fresh lock on a candidate held long enough is ready: after n ticks
      with n * dt at least the lock time. */
  lemma LockCompletes(t: nat, cands: seq<nat>, dt: real, n: nat)
    requires t in cands && dt >= 0.0 && n as real * dt >= LockTime
    ensures Read(Hold(LockState(Some(t), 0.0), cands, dt, n)).key == LockReady
  {
    HoldProgress(LockState(Some(t), 0.0), cands, dt, n);
  }

  /** `candidates.indexOf(target)`: the first position holding x. */
  function IndexOf(s: seq<nat>, x: nat): (r: Option<nat>)
    ensures r.None? <==> x !in s
    ensures r.Some? ==> r.value < |s| && s[r.value] == x
    ensures r.Some? ==> forall k :: 0 <= k < r.value ==> s[k] != x
  {
    if |s| == 0 then None
    else if s[0] == x then Some(0)
    else
      match IndexOf(s[1..], x)
      case None => None
      case Some(k) => Some(k + 1)
  }

  /** `selectNextTarget()`: with missiles selected, the target moves to the
      candidate after it (wrapping round), or to the nearest candidate when
      nothing is locked or the target is no longer a candidate, and the
      progress restarts; with no candidate the lock is cleared. With the gun
      selected nothing changes. */
  function SelectNext(l: LockState, weapon: Weapon, cands: seq<nat>): (r: LockState)
    ensures weapon == WeaponGun ==> r == l
    ensures weapon == WeaponMissile ==> r.progress == 0.0
    ensures weapon == WeaponMissile ==> (r.target.None? <==> |cands| == 0)
    ensures r.target.Some? && r != l ==> r.target.value in cands
    ensures weapon == WeaponMissile && |cands| > 0 && (l.target.None? || l.target.value !in cands) ==>
      r == LockState(Some(cands[0]), 0.0)
    ensures weapon == WeaponMissile && l.target.Some? && l.target.value in cands ==>
      r == LockState(Some(cands[(IndexOf(cands, l.target.value).value + 1) % |cands|]), 0.0)
  {
    if weapon == WeaponGun then l
    else if |cands| == 0 then Unlocked
    else if l.target.None? then LockState(Some(cands[0]), 0.0)
    else
      match IndexOf(cands, l.target.value)
      case None => LockState(Some(cands[0]), 0.0)
      case Some(k) => LockState(Some(cands[(k + 1) % |cands|]), 0.0)
  }

  /** In a list without repeats `indexOf` finds the position itself. */
  lemma IndexOfDistinct(s: seq<nat>, k: nat)
    requires Distinct(s) && k < |s|
    ensures IndexOf(s, s[k]) == Some(k)
  {
  }

  /** Pressing "next target" n times with missiles selected and the same
      candidates, starting from the nearest, steps through the candidates in
      order and wraps round. */
  function Cycle(l: LockState, cands: seq<nat>, n: nat): LockState {
    if n == 0 then l else SelectNext(Cycle(l, cands, n - 1), WeaponMissile, cands)
  }

  /** Euclidean division has one remainder. */
  lemma ModUnique(n: int, m: int, q: int, k: int)
    requires m > 0 && 0 <= k < m && n == q * m + k
    ensures n % m == k
  {
    var q', k' := n / m, n % m;
    var d := q - q';
    assert d * m == k' - k by {
      assert q * m - q' * m == d * m;
    }
  }

  lemma ModSucc(n: nat, m: nat)
    requires n > 0 && m > 0
    ensures ((n - 1) % m + 1) % m == n % m
  {
    var q, k := (n - 1) / m, (n - 1) % m;
    if k + 1 < m {
      ModUnique(n, m, q, k + 1);
      ModUnique(k + 1, m, 0, k + 1);
    } else {
      assert n == (q + 1) * m + 0;
      ModUnique(n, m, q + 1, 0);
      ModUnique(m, m, 1, 0);
    }
  }

  /** Position k + 1, wrapped round to 0 at m. */
  function Succ(k: nat, m: nat): nat { if k + 1 >= m then 0 else k + 1 }

  /** The position reached after n steps of `Succ` from 0. */
  function Pos(n: nat, m: nat): nat { if n == 0 then 0 else Succ(Pos(n - 1, m), m) }

  /** Stepping and wrapping is counting modulo m. */
  lemma {:induction false} PosIsMod(n: nat, m: nat)
    requires m > 0
    ensures Pos(n, m) == n % m
  {
    if n > 0 {
      PosIsMod(n - 1, m);
      ModSucc(n, m);
      var k := (n - 1) % m;
      if k + 1 < m {
        ModUnique(k + 1, m, 0, k + 1);
      } else {
        ModUnique(k + 1, m, 1, 0);
      }
    }
  }

  /** One press moves a lock on candidate k, at any progress, to the
      candidate after it, wrapping round after the last. */
  lemma SelectNextSteps(cands: seq<nat>, k: nat, p: real)
    requires Distinct(cands) && k < |cands|
    ensures SelectNext(LockState(Some(cands[k]), p), WeaponMissile, cands) ==
      LockState(Some(cands[Succ(k, |cands|)]), 0.0)
  {
    IndexOfDistinct(cands, k);
    if k + 1 < |cands| {
      ModUnique(k + 1, |cands|, 0, k + 1);
    } else {
      ModUnique(k + 1, |cands|, 1, 0);
    }
  }

  lemma {:induction false} CycleSteps(cands: seq<nat>, n: nat)
    requires |cands| > 0 && Distinct(cands)
    ensures Pos(n, |cands|) < |cands|
    ensures Cycle(LockState(Some(cands[0]), 0.0), cands, n) == LockState(Some(cands[Pos(n, |cands|)]), 0.0)
  {
    if n > 0 {
      CycleSteps(cands, n - 1);
      CycleStep(cands, n);
    }
  }

  /** The step of `CycleSteps`: one more switch moves one place on. */
  lemma CycleStep(cands: seq<nat>, n: nat)
    requires |cands| > 0 && Distinct(cands) && n > 0
    requires Pos(n - 1, |cands|) < |cands|
    requires Cycle(LockState(Some(cands[0]), 0.0), cands, n - 1) == LockState(Some(cands[Pos(n - 1, |cands|)]), 0.0)
    ensures Pos(n, |cands|) < |cands|
    ensures Cycle(LockState(Some(cands[0]), 0.0), cands, n) == LockState(Some(cands[Pos(n, |cands|)]), 0.0)
  {
    var k := Pos(n - 1, |cands|);
    assert Pos(n, |cands|) == Succ(k, |cands|);
    SelectNextSteps(cands, k, 0.0);
  }

  lemma CycleVisitsInOrder(cands: seq<nat>, n: nat)
    requires |cands| > 0 && Distinct(cands)
    ensures Cycle(LockState(Some(cands[0]), 0.0), cands, n) == LockState(Some(cands[n % |cands|]), 0.0)
  {
    CycleSteps(cands, n);
    PosIsMod(n, |cands|);
  }
}
