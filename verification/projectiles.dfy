/** What the reverse hit loops of the gun and the missile launcher do to each
    projectile, stated projectile by projectile instead of as a loop. Both
    loops walk the active list from the last index down to 0, so projectile
    i meets the enemies that the projectiles after it left behind. */
module Projectiles {
  import opened Wrappers
  import opened Events
  import opened Enemies

  /** What became of one projectile this tick. */
  datatype Fate = Expired | Struck(enemy: nat) | Flying

  /** The distances from projectile i to every enemy. */
  function Row(hit: (nat, nat) -> real, i: nat): nat -> real {
    (j: nat) => hit(i, j)
  }

  /** One projectile's turn, given its life after this tick's decrement and
      the enemies it meets: a projectile out of life is recycled untested; a
      live one strikes the first active enemy closer than `radius`, and
      otherwise flies on. */
  function Strike(life: real, es: seq<Enemy>, d: nat -> real, radius: real): (f: Fate)
    ensures f == Expired <==> life <= 0.0
    ensures f.Struck? ==> f.enemy < |es| && es[f.enemy].active && d(f.enemy) < radius
    ensures f.Struck? ==> forall k :: 0 <= k < f.enemy ==> !(es[k].active && d(k) < radius)
    ensures f == Flying <==> life > 0.0 && forall k :: 0 <= k < |es| ==> !(es[k].active && d(k) < radius)
  {
    if life <= 0.0 then Expired
    else match FirstActiveWithin(es, d, radius)
      case Some(j) => Struck(j)
      case None => Flying
  }

  /** The enemies once a projectile with fate `f` has had its turn: the one it
      strikes is switched off and nothing else changes. */
  function Left(es: seq<Enemy>, f: Fate): (r: seq<Enemy>)
    ensures |r| == |es|
    ensures forall j :: 0 <= j < |es| ==> r[j] == es[j].(active := r[j].active)
    ensures forall j :: 0 <= j < |es| ==> (r[j].active <==> es[j].active && f != Struck(j))
  {
    if f.Struck? && f.enemy < |es| then Disable(es, f.enemy).0 else es
  }

  /** The `onDisable` call of one turn: one when an active enemy is struck. */
  function Reports(es: seq<Enemy>, f: Fate): seq<Event> {
    if f.Struck? && f.enemy < |es| then Disable(es, f.enemy).1 else []
  }

  /** Only `active` flags change, only from true to false, and the events are
      exactly one `onDisable` per enemy that was switched off. */
  ghost predicate DisablesOnly(es: seq<Enemy>, es': seq<Enemy>, evs: seq<Event>) {
    && |es'| == |es|
    && (forall j :: 0 <= j < |es| ==> es'[j] == es[j].(active := es'[j].active))
    && (forall j :: 0 <= j < |es| && es'[j].active ==> es[j].active)
    && DistinctDisables(evs)
    && (forall k :: 0 <= k < |evs| ==> evs[k].enemy < |es| && es[evs[k].enemy].active && !es'[evs[k].enemy].active)
    && (forall j :: 0 <= j < |es| && es[j].active && !es'[j].active ==> EnemyDisabled(j) in evs)
  }

  /** Disabling enemy j and then making further disables is itself a run of
      disables. */
  lemma DisableThen(es: seq<Enemy>, j: nat, es': seq<Enemy>, evs: seq<Event>)
    requires j < |es| && es[j].active
    requires DisablesOnly(Disable(es, j).0, es', evs)
    ensures DisablesOnly(es, es', [EnemyDisabled(j)] + evs)
  {
    var es2 := Disable(es, j).0;
    var all := [EnemyDisabled(j)] + evs;
    forall k, l | 0 <= k < l < |all| ensures all[k] != all[l] {
      if k == 0 {
        assert all[l] == evs[l - 1];
        assert !es2[j].active;
      } else {
        assert all[k] == evs[k - 1] && all[l] == evs[l - 1];
      }
    }
    forall x | 0 <= x < |es| && es[x].active && !es'[x].active ensures EnemyDisabled(x) in all {
      if x != j {
        assert es2[x] == es[x];
        assert EnemyDisabled(x) in evs;
      }
    }
  }

  /** Disabling nothing is a run of disables. */
  lemma DisablesNone(es: seq<Enemy>)
    ensures DisablesOnly(es, es, [])
  {
  }

  /** One turn as a run of disables: the enemies it leaves and the call it
      reports, followed by any run of disables from there, is a run of
      disables from where it started; a turn reports at most one call, and
      none unless it struck. */
  lemma TurnDisables(es: seq<Enemy>, f: Fate, es': seq<Enemy>, evs: seq<Event>)
    requires f.Struck? ==> f.enemy < |es| && es[f.enemy].active
    requires DisablesOnly(Left(es, f), es', evs)
    ensures DisablesOnly(es, es', Reports(es, f) + evs)
    ensures |Reports(es, f)| <= (if f.Struck? then 1 else 0)
  {
    if f.Struck? {
      DisableThen(es, f.enemy, es', evs);
    } else {
      assert Reports(es, f) + evs == evs;
    }
  }

  /** Whether the projectile leaves the active list. */
  predicate Spent(f: Fate) { !f.Flying? }

  /** The enemies projectile i meets at its turn, `lives` being every
      projectile's life after the decrement and `es` the enemies before the
      loop. */
  function Seen(lives: seq<real>, es: seq<Enemy>, hit: (nat, nat) -> real, radius: real, i: nat): (r: seq<Enemy>)
    requires i < |lives|
    ensures |r| == |es|
    decreases |lives| - i
  {
    if i == |lives| - 1 then es
    else
      var prev := Seen(lives, es, hit, radius, i + 1);
      Left(prev, Strike(lives[i + 1], prev, Row(hit, i + 1), radius))
  }

  /** The fate of every projectile, in list order. */
  function Fates(lives: seq<real>, es: seq<Enemy>, hit: (nat, nat) -> real, radius: real): (fs: seq<Fate>)
    ensures |fs| == |lives|
  {
    seq(|lives|, i requires 0 <= i < |lives| => Strike(lives[i], Seen(lives, es, hit, radius, i), Row(hit, i), radius))
  }

  /** For each projectile, whether it leaves the active list. */
  function SpentFlags(fs: seq<Fate>): (out: seq<bool>)
    ensures |out| == |fs|
    ensures forall i :: 0 <= i < |fs| ==> (out[i] <==> !fs[i].Flying?)
  {
    seq(|fs|, i requires 0 <= i < |fs| => Spent(fs[i]))
  }

  /** The flags of a prefix are the prefix of the flags. */
  lemma FlagsPrefix(fs: seq<Fate>, n: nat)
    requires n <= |fs|
    ensures SpentFlags(fs[..n]) == SpentFlags(fs)[..n]
  {
  }

  /** The enemies once every projectile has had its turn. */
  function Outcome(lives: seq<real>, es: seq<Enemy>, hit: (nat, nat) -> real, radius: real): (r: seq<Enemy>)
    ensures |r| == |es|
  {
    if |lives| == 0 then es
    else
      var first := Seen(lives, es, hit, radius, 0);
      Left(first, Strike(lives[0], first, Row(hit, 0), radius))
  }

  /** The turn of the last projectile comes first: the others then meet what
      it left, exactly as if it had never been in the list. */
  lemma {:induction false} SeenPrefix(lives: seq<real>, es: seq<Enemy>, hit: (nat, nat) -> real, radius: real, i: nat)
    requires i + 1 < |lives|
    ensures var n := |lives| - 1;
      Seen(lives[..n], Left(es, Strike(lives[n], es, Row(hit, n), radius)), hit, radius, i)
        == Seen(lives, es, hit, radius, i)
    decreases |lives| - i
  {
    var n := |lives| - 1;
    var es2 := Left(es, Strike(lives[n], es, Row(hit, n), radius));
    if i + 1 < n {
      SeenPrefix(lives, es, hit, radius, i + 1);
      assert lives[..n][i + 1] == lives[i + 1];
    }
  }

  /** The fates of the projectiles before the last are those of the shorter
      list, run against what the last one left. */
  lemma FatesPrefix(lives: seq<real>, es: seq<Enemy>, hit: (nat, nat) -> real, radius: real)
    requires |lives| > 0
    ensures var n := |lives| - 1;
      && Fates(lives, es, hit, radius)[n] == Strike(lives[n], es, Row(hit, n), radius)
      && Fates(lives[..n], Left(es, Strike(lives[n], es, Row(hit, n), radius)), hit, radius)
        == Fates(lives, es, hit, radius)[..n]
      && Outcome(lives[..n], Left(es, Strike(lives[n], es, Row(hit, n), radius)), hit, radius)
        == Outcome(lives, es, hit, radius)
  {
    FatesInit(lives, es, hit, radius);
    OutcomeInit(lives, es, hit, radius);
  }

  lemma FatesInit(lives: seq<real>, es: seq<Enemy>, hit: (nat, nat) -> real, radius: real)
    requires |lives| > 0
    ensures var n := |lives| - 1;
      Fates(lives[..n], Left(es, Strike(lives[n], es, Row(hit, n), radius)), hit, radius)
        == Fates(lives, es, hit, radius)[..n]
  {
    var n := |lives| - 1;
    var es2 := Left(es, Strike(lives[n], es, Row(hit, n), radius));
    var short := Fates(lives[..n], es2, hit, radius);
    var full := Fates(lives, es, hit, radius);
    forall i | 0 <= i < n
      ensures short[i] == full[i]
    {
      FateInit(lives, es, hit, radius, i);
    }
  }

  /** `FatesInit` for projectile i. */
  lemma FateInit(lives: seq<real>, es: seq<Enemy>, hit: (nat, nat) -> real, radius: real, i: nat)
    requires i + 1 < |lives|
    ensures var n := |lives| - 1;
      Fates(lives[..n], Left(es, Strike(lives[n], es, Row(hit, n), radius)), hit, radius)[i]
        == Fates(lives, es, hit, radius)[i]
  {
    var n := |lives| - 1;
    var es2 := Left(es, Strike(lives[n], es, Row(hit, n), radius));
    SeenPrefix(lives, es, hit, radius, i);
    assert Fates(lives[..n], es2, hit, radius)[i]
      == Strike(lives[i], Seen(lives[..n], es2, hit, radius, i), Row(hit, i), radius);
  }

  lemma OutcomeInit(lives: seq<real>, es: seq<Enemy>, hit: (nat, nat) -> real, radius: real)
    requires |lives| > 0
    ensures var n := |lives| - 1;
      Outcome(lives[..n], Left(es, Strike(lives[n], es, Row(hit, n), radius)), hit, radius)
        == Outcome(lives, es, hit, radius)
  {
    var n := |lives| - 1;
    if n > 0 {
      SeenPrefix(lives, es, hit, radius, 0);
    }
  }

  /** Projectiles only switch enemies off: an enemy active when projectile i
      meets it was active before the loop. */
  lemma {:induction false} SeenBelow(lives: seq<real>, es: seq<Enemy>, hit: (nat, nat) -> real, radius: real, i: nat, j: nat)
    requires i < |lives| && j < |es|
    requires Seen(lives, es, hit, radius, i)[j].active
    ensures es[j].active
    decreases |lives| - i
  {
    if i < |lives| - 1 {
      SeenBelow(lives, es, hit, radius, i + 1, j);
    }
  }

  /** The enemies once projectile i has had its turn. */
  function After(lives: seq<real>, es: seq<Enemy>, hit: (nat, nat) -> real, radius: real, i: nat): (r: seq<Enemy>)
    requires i < |lives|
    ensures |r| == |es|
  {
    var met := Seen(lives, es, hit, radius, i);
    Left(met, Strike(lives[i], met, Row(hit, i), radius))
  }

  /** An enemy still active after the loop was still active after the turn
      of every single projectile. */
  lemma {:induction false} OutcomeAbove(lives: seq<real>, es: seq<Enemy>, hit: (nat, nat) -> real, radius: real, i: nat, j: nat)
    requires i < |lives| && j < |es|
    requires Outcome(lives, es, hit, radius)[j].active
    ensures After(lives, es, hit, radius, i)[j].active
    decreases i
  {
    if i > 0 {
      OutcomeAbove(lives, es, hit, radius, i - 1, j);
      TurnAbove(lives, es, hit, radius, i, j);
    } else {
      OutcomeIsFirstTurn(lives, es, hit, radius);
    }
  }

  /** The loop ends with the turn of projectile 0. */
  lemma OutcomeIsFirstTurn(lives: seq<real>, es: seq<Enemy>, hit: (nat, nat) -> real, radius: real)
    requires |lives| > 0
    ensures Outcome(lives, es, hit, radius) == After(lives, es, hit, radius, 0)
  {
  }

  /** An enemy active after the turn of projectile i - 1 was active after
      the turn of projectile i. */
  lemma TurnAbove(lives: seq<real>, es: seq<Enemy>, hit: (nat, nat) -> real, radius: real, i: nat, j: nat)
    requires 0 < i < |lives| && j < |es|
    requires After(lives, es, hit, radius, i - 1)[j].active
    ensures After(lives, es, hit, radius, i)[j].active
  {
    assert Seen(lives, es, hit, radius, i - 1) == After(lives, es, hit, radius, i);
  }

  /** The projectile-by-projectile reading, as one statement: projectile i
      strikes enemy j exactly when j is the first active enemy in range among
      those it meets, and such an enemy is disabled at the end of the loop. */
  lemma StruckIsDisabled(lives: seq<real>, es: seq<Enemy>, hit: (nat, nat) -> real, radius: real, i: nat, j: nat)
    requires i < |lives| && lives[i] > 0.0
    requires FirstActiveWithin(Seen(lives, es, hit, radius, i), Row(hit, i), radius) == Some(j)
    ensures Fates(lives, es, hit, radius)[i] == Struck(j)
    ensures j < |es| && es[j].active
    ensures !Outcome(lives, es, hit, radius)[j].active
  {
    SeenBelow(lives, es, hit, radius, i, j);
    if Outcome(lives, es, hit, radius)[j].active {
      OutcomeAbove(lives, es, hit, radius, i, j);
    }
    assert Fates(lives, es, hit, radius)[i] == Strike(lives[i], Seen(lives, es, hit, radius, i), Row(hit, i), radius);
  }
}
