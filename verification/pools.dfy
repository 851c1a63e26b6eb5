/** Object pools as the projectile modules keep them: an `active` list of
    records in flight and a `free` list of retired records, reused with
    `pop()` and refilled with `push()`. */
module Pools {

  datatype Pool<T> = Pool(active: seq<T>, free: seq<T>) {
    /** The number of records the pool owns. */
    function Size(): nat { |active| + |free| }
  }

  /** All records the pool owns. */
  function Records<T(==)>(p: Pool<T>): multiset<T> {
    multiset(p.active) + multiset(p.free)
  }

  function Empty<T>(): Pool<T> { Pool([], []) }

  /** `pool.pop() || new record`, reset to `rec`, pushed onto the active list.
      Every field the model keeps is overwritten on spawn, so a reused record
      and a fresh one are the same value. */
  function Spawn<T>(p: Pool<T>, rec: T): (q: Pool<T>)
    ensures q.active == p.active + [rec]
    ensures |p.free| > 0 ==> q.free == p.free[..|p.free| - 1] && q.Size() == p.Size()
    ensures |p.free| == 0 ==> q.free == [] && q.Size() == p.Size() + 1
  {
    if |p.free| > 0 then Pool(p.active + [rec], p.free[..|p.free| - 1])
    else Pool(p.active + [rec], [])
  }

  /** `active.splice(i, 1)` followed by `free.push(record)`. */
  function Recycle<T(==)>(p: Pool<T>, i: nat): (q: Pool<T>)
    requires i < |p.active|
    ensures |q.active| == |p.active| - 1
    ensures q.Size() == p.Size()
    ensures Records(q) == Records(p)
    ensures q.free == p.free + [p.active[i]]
    ensures forall k :: 0 <= k < i ==> q.active[k] == p.active[k]
    ensures forall k :: i <= k < |q.active| ==> q.active[k] == p.active[k + 1]
  {
    assert p.active == p.active[..i] + [p.active[i]] + p.active[i + 1..];
    Pool(p.active[..i] + p.active[i + 1..], p.free + [p.active[i]])
  }

  /** The records of `xs` whose flag in `out` is false, in order: what a
      backward loop that splices out the flagged records leaves in place. */
  function Keep<T>(xs: seq<T>, out: seq<bool>): (r: seq<T>)
    requires |out| == |xs|
    ensures |r| <= |xs|
    decreases |xs|
  {
    if |xs| == 0 then []
    else
      var n := |xs| - 1;
      Keep(xs[..n], out[..n]) + (if out[n] then [] else [xs[n]])
  }

  /** The records of `xs` whose flag in `out` is true, highest index first:
      the order in which a backward loop pushes them onto the free list. */
  function Drop<T>(xs: seq<T>, out: seq<bool>): (r: seq<T>)
    requires |out| == |xs|
    decreases |xs|
  {
    if |xs| == 0 then []
    else
      var n := |xs| - 1;
      (if out[n] then [xs[n]] else []) + Drop(xs[..n], out[..n])
  }

  /** A non-empty list is its prefix followed by its last element. */
  lemma LastSplit<T>(xs: seq<T>)
    requires |xs| > 0
    ensures xs[..|xs| - 1] + [xs[|xs| - 1]] == xs
  {
  }

  /** The last record goes after the kept ones or before the dropped ones. */
  lemma KeepLast<T>(xs: seq<T>, out: seq<bool>)
    requires |out| == |xs| > 0
    ensures var n := |xs| - 1;
      Keep(xs, out) == Keep(xs[..n], out[..n]) + (if out[n] then [] else [xs[n]])
  {
  }

  lemma DropLast<T>(xs: seq<T>, out: seq<bool>)
    requires |out| == |xs| > 0
    ensures var n := |xs| - 1;
      Drop(xs, out) == (if out[n] then [xs[n]] else []) + Drop(xs[..n], out[..n])
  {
  }

  /** Keeping and dropping split the records between them. */
  lemma {:induction false} KeepDropSplit<T>(xs: seq<T>, out: seq<bool>)
    requires |out| == |xs|
    ensures |Keep(xs, out)| + |Drop(xs, out)| == |xs|
    ensures multiset(Keep(xs, out)) + multiset(Drop(xs, out)) == multiset(xs)
    decreases |xs|
  {
    if |xs| > 0 {
      var n := |xs| - 1;
      KeepDropSplit(xs[..n], out[..n]);
      KeepDropStep(xs, out);
    }
  }

  /** The step of `KeepDropSplit`: from the prefix to the whole list. */
  lemma KeepDropStep<T>(xs: seq<T>, out: seq<bool>)
    requires |out| == |xs| > 0
    requires var n := |xs| - 1;
      && |Keep(xs[..n], out[..n])| + |Drop(xs[..n], out[..n])| == n
      && multiset(Keep(xs[..n], out[..n])) + multiset(Drop(xs[..n], out[..n])) == multiset(xs[..n])
    ensures |Keep(xs, out)| + |Drop(xs, out)| == |xs|
    ensures multiset(Keep(xs, out)) + multiset(Drop(xs, out)) == multiset(xs)
  {
    var n := |xs| - 1;
    KeepLast(xs, out);
    DropLast(xs, out);
    LastSplit(xs);
    SplitStep(Keep(xs[..n], out[..n]), Drop(xs[..n], out[..n]), xs[..n], xs[n], out[n]);
  }

  /** One more record goes to exactly one side of the split. */
  lemma SplitStep<T>(k: seq<T>, d: seq<T>, xs: seq<T>, x: T, out: bool)
    requires multiset(k) + multiset(d) == multiset(xs)
    ensures multiset(k + (if out then [] else [x])) + multiset((if out then [x] else []) + d) == multiset(xs + [x])
  {
  }

  /** `Recycle` applied at every flagged index below `i`, from `i - 1` down
      to 0: the splice-and-push of a loop that walks the active list
      backwards. */
  function RecycleDown<T(==)>(p: Pool<T>, out: seq<bool>, i: nat): (q: Pool<T>)
    requires i <= |out| && i <= |p.active|
    ensures q.Size() == p.Size()
    decreases i
  {
    if i == 0 then p
    else
      var k := i - 1;
      RecycleDown(if out[k] then Recycle(p, k) else p, out, k)
  }

  /** Recycling the flagged records among the first |xs| leaves the unflagged
      ones in order, followed by the untouched rest, and appends the flagged
      ones to the free list highest index first. */
  lemma {:induction false} RecycleDownSplits<T>(xs: seq<T>, ys: seq<T>, free: seq<T>, out: seq<bool>)
    requires |xs| <= |out|
    ensures RecycleDown(Pool(xs + ys, free), out, |xs|)
      == Pool(Keep(xs, out[..|xs|]) + ys, free + Drop(xs, out[..|xs|]))
    decreases |xs|
  {
    if |xs| == 0 {
      RecycleDownNone(ys, free, out);
    } else {
      var k := |xs| - 1;
      if out[k] {
        RecycleDownSplits(xs[..k], ys, free + [xs[k]], out);
        RecycleDownFlagged(xs, ys, free, out);
      } else {
        RecycleDownSplits(xs[..k], [xs[k]] + ys, free, out);
        RecycleDownUnflagged(xs, ys, free, out);
      }
    }
  }

  /** `RecycleDownSplits` over the whole active list. */
  lemma RecycleDownAll<T>(xs: seq<T>, free: seq<T>, out: seq<bool>)
    requires |out| == |xs|
    ensures RecycleDown(Pool(xs, free), out, |xs|) == Pool(Keep(xs, out), free + Drop(xs, out))
  {
    assert xs + [] == xs;
    assert out[..|xs|] == out;
    RecycleDownSplits(xs, [], free, out);
    assert Keep(xs, out) + [] == Keep(xs, out);
  }

  lemma RecycleDownNone<T>(ys: seq<T>, free: seq<T>, out: seq<bool>)
    ensures RecycleDown(Pool([] + ys, free), out, 0)
      == Pool(Keep([], out[..0]) + ys, free + Drop([], out[..0]))
  {
    assert [] + ys == ys;
  }

  /** The step of `RecycleDownSplits` when the last record of `xs` is flagged. */
  lemma RecycleDownFlagged<T>(xs: seq<T>, ys: seq<T>, free: seq<T>, out: seq<bool>)
    requires 0 < |xs| <= |out| && out[|xs| - 1]
    requires var k := |xs| - 1;
      RecycleDown(Pool(xs[..k] + ys, free + [xs[k]]), out, k)
        == Pool(Keep(xs[..k], out[..k]) + ys, (free + [xs[k]]) + Drop(xs[..k], out[..k]))
    ensures RecycleDown(Pool(xs + ys, free), out, |xs|)
      == Pool(Keep(xs, out[..|xs|]) + ys, free + Drop(xs, out[..|xs|]))
  {
    var k := |xs| - 1;
    var o := out[..|xs|];
    assert o[..k] == out[..k];
    KeepLast(xs, o);
    DropLast(xs, o);
    RecycleLast(xs, ys, free);
    assert (free + [xs[k]]) + Drop(xs[..k], out[..k]) == free + ([xs[k]] + Drop(xs[..k], out[..k]));
  }

  /** The step of `RecycleDownSplits` when the last record of `xs` is kept. */
  lemma RecycleDownUnflagged<T>(xs: seq<T>, ys: seq<T>, free: seq<T>, out: seq<bool>)
    requires 0 < |xs| <= |out| && !out[|xs| - 1]
    requires var k := |xs| - 1;
      RecycleDown(Pool(xs[..k] + ([xs[k]] + ys), free), out, k)
        == Pool(Keep(xs[..k], out[..k]) + ([xs[k]] + ys), free + Drop(xs[..k], out[..k]))
    ensures RecycleDown(Pool(xs + ys, free), out, |xs|)
      == Pool(Keep(xs, out[..|xs|]) + ys, free + Drop(xs, out[..|xs|]))
  {
    var k := |xs| - 1;
    var o := out[..|xs|];
    assert o[..k] == out[..k];
    var kept := Keep(xs[..k], out[..k]);
    var dropped := Drop(xs[..k], out[..k]);
    assert Keep(xs, o) == kept + [xs[k]] by {
      KeepLast(xs, o);
    }
    assert Drop(xs, o) == dropped by {
      DropLast(xs, o);
    }
    var p := Pool(xs + ys, free);
    assert p == Pool(xs[..k] + ([xs[k]] + ys), free) by {
      LastBeforeRest(xs, ys);
    }
    assert RecycleDown(p, out, |xs|) == RecycleDown(p, out, k);
    Regroup(kept, xs[k], ys);
  }

  /** Moving the last record of `xs` to the front of `ys`. */
  lemma LastBeforeRest<T>(xs: seq<T>, ys: seq<T>)
    requires |xs| > 0
    ensures xs[..|xs| - 1] + ([xs[|xs| - 1]] + ys) == xs + ys
  {
    LastSplit(xs);
  }

  lemma Regroup<T>(xs: seq<T>, x: T, ys: seq<T>)
    ensures xs + ([x] + ys) == (xs + [x]) + ys
  {
  }

  /** Recycling the last record of a prefix. */
  lemma RecycleLast<T>(xs: seq<T>, ys: seq<T>, free: seq<T>)
    requires |xs| > 0
    ensures Recycle(Pool(xs + ys, free), |xs| - 1) == Pool(xs[..|xs| - 1] + ys, free + [xs[|xs| - 1]])
  {
    var k := |xs| - 1;
    var q := Recycle(Pool(xs + ys, free), k);
    assert q.active == xs[..k] + ys;
  }

  /** Empties both lists (`length = 0` on each). */
  function Clear<T>(p: Pool<T>): (q: Pool<T>)
    ensures q.Size() == 0
  {
    Empty()
  }
}
