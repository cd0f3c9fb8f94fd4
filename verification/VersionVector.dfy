/** Per-device version counters: order, merge, and the text form they travel in. */
module VersionVectors {
  type Vector = map<string, int>

  const MAX_INT64: int := 0x7fff_ffff_ffff_ffff

  // ---- order ----

  function Get(v: Vector, device: string): int { if device in v then v[device] else 0 }

  predicate NonNegative(v: Vector) { forall d <- v :: v[d] >= 0 }

  predicate Positive(v: Vector) { forall d <- v :: v[d] > 0 }

  /** Every counter is at least the other's. */
  ghost predicate AtLeast(a: Vector, b: Vector) { forall d: string :: Get(a, d) >= Get(b, d) }

  function Bump(v: Vector, device: string): Vector { v[device := Get(v, device) + 1] }

  /** The other's devices are all entered, at 0 if need be, and hold the larger counter. */
  function Merge(a: Vector, b: Vector): Vector {
    map d | d in a.Keys + b.Keys :: if d in b && b[d] > Get(a, d) then b[d] else Get(a, d)
  }

  ghost predicate DominatesOf(a: Vector, b: Vector) {
    && (forall d <- a :: a[d] >= Get(b, d))
    && (forall d <- b :: b[d] > 0 ==> d in a)
    && (exists d <- a :: a[d] > Get(b, d))
  }

  ghost predicate ConcurrentOf(a: Vector, b: Vector) { !DominatesOf(a, b) && !DominatesOf(b, a) && a != b }

  class VersionVector {
    var entries: Vector

    constructor (entries: Vector)
      ensures this.entries == entries
    {
      this.entries := entries;
    }

    method BumpDevice(device: string)
      modifies this
      ensures entries == Bump(old(entries), device)
    {
      if device !in entries {
        entries := entries[device := 0];
      }
      entries := entries[device := entries[device] + 1];
    }

    method MergeWith(other: Vector)
      modifies this
      ensures entries == Merge(old(entries), other)
    {
      var todo := other.Keys;
      while todo != {}
        invariant todo <= other.Keys
        invariant entries.Keys == old(entries).Keys + (other.Keys - todo)
        invariant forall d <- entries ::
                    entries[d] == if d in todo then Get(old(entries), d) else Get(Merge(old(entries), other), d)
        decreases todo
      {
        var d :| d in todo;
        if d !in entries {
          entries := entries[d := 0];
        }
        if other[d] > entries[d] {
          entries := entries[d := other[d]];
        }
        todo := todo - {d};
      }
    }

    method Dominates(other: Vector) returns (r: bool)
      ensures r <==> DominatesOf(entries, other)
    {
      var greater := false;
      var todo := entries.Keys;
      while todo != {}
        invariant todo <= entries.Keys
        invariant forall d <- entries :: d in todo || entries[d] >= Get(other, d)
        invariant greater <==> exists d <- entries :: d !in todo && entries[d] > Get(other, d)
        decreases todo
      {
        var d :| d in todo;
        if entries[d] < Get(other, d) {
          return false;
        }
        if entries[d] > Get(other, d) {
          greater := true;
        }
        todo := todo - {d};
      }
      todo := other.Keys;
      while todo != {}
        invariant todo <= other.Keys
        invariant forall d <- other :: d in todo || (other[d] > 0 ==> d in entries)
        decreases todo
      {
        var d :| d in todo;
        if other[d] > 0 && d !in entries {
          return false;
        }
        todo := todo - {d};
      }
      return greater;
    }
  }

  /** On counters that are not negative, dominating means at least as large everywhere and larger somewhere. */
  lemma DominatesMeans(a: Vector, b: Vector)
    requires NonNegative(a) && NonNegative(b)
    ensures DominatesOf(a, b) <==> AtLeast(a, b) && !AtLeast(b, a)
  {
    if AtLeast(a, b) && !AtLeast(b, a) {
      var d :| Get(b, d) < Get(a, d);
      assert d in a && a[d] > Get(b, d);
      forall e <- a
        ensures a[e] >= Get(b, e)
      {
        assert Get(a, e) >= Get(b, e);
      }
      forall e <- b | b[e] > 0
        ensures e in a
      {
        assert Get(a, e) >= Get(b, e);
      }
    }
    if DominatesOf(a, b) {
      var d :| d in a && a[d] > Get(b, d);
      assert Get(b, d) < Get(a, d);
    }
  }

  /** So dominating is a strict order: nothing dominates itself, and it is transitive. */
  lemma DominatesIsStrictOrder(a: Vector, b: Vector, c: Vector)
    requires NonNegative(a) && NonNegative(b) && NonNegative(c)
    ensures !DominatesOf(a, a)
    ensures DominatesOf(a, b) && DominatesOf(b, c) ==> DominatesOf(a, c)
    ensures !(DominatesOf(a, b) && DominatesOf(b, a))
  {
    DominatesMeans(a, a);
    DominatesMeans(a, b);
    DominatesMeans(b, a);
    DominatesMeans(b, c);
    DominatesMeans(a, c);
    if DominatesOf(a, b) && DominatesOf(b, c) {
      assert AtLeast(a, c) by {
        forall d: string
          ensures Get(a, d) >= Get(c, d)
        {
          assert Get(a, d) >= Get(b, d) && Get(b, d) >= Get(c, d);
        }
      }
      var d :| Get(c, d) < Get(b, d);
      assert Get(a, d) >= Get(b, d);
      assert Get(c, d) < Get(a, d);
    }
  }

  /** A bumped vector dominates the one it came from. */
  lemma BumpDominates(v: Vector, device: string)
    requires NonNegative(v)
    ensures DominatesOf(Bump(v, device), v) && NonNegative(Bump(v, device))
  {
    assert device in Bump(v, device) && Bump(v, device)[device] > Get(v, device);
  }

  /** `v` has seen one more of `device` than `known`, no more of any other device, and less of some. */
  ghost predicate OneBehind(known: Vector, v: Vector, device: string) {
    && Get(v, device) == Get(known, device) + 1
    && (forall d: string :: d != device ==> Get(known, d) >= Get(v, d))
    && (exists d: string :: d != device && Get(known, d) > Get(v, d))
  }

  /** A vector bumped from `known` dominates `v` exactly when `known` is at least `v`, or is one behind on the
      bumped device only, and ahead on another. */
  lemma BumpedDominatesWhen(known: Vector, v: Vector, device: string)
    requires NonNegative(known) && NonNegative(v)
    ensures DominatesOf(Bump(known, device), v) <==> AtLeast(known, v) || OneBehind(known, v, device)
  {
    var bumped := Bump(known, device);
    DominatesMeans(bumped, v);
    assert forall d: string :: Get(bumped, d) == if d == device then Get(known, d) + 1 else Get(known, d);
    if AtLeast(known, v) {
      assert Get(known, device) >= Get(v, device);
      forall d: string
        ensures Get(bumped, d) >= Get(v, d)
      {
        assert Get(known, d) >= Get(v, d);
      }
      assert Get(v, device) < Get(bumped, device);
    }
    if OneBehind(known, v, device) {
      var d: string :| d != device && Get(known, d) > Get(v, d);
      assert Get(v, d) < Get(bumped, d);
    }
    if AtLeast(bumped, v) && !AtLeast(v, bumped) {
      var ahead: string :| Get(v, ahead) < Get(bumped, ahead);
      forall d: string
        ensures d != device ==> Get(known, d) >= Get(v, d)
        ensures Get(known, device) + 1 >= Get(v, device)
      {
        assert Get(bumped, d) >= Get(v, d) && Get(bumped, device) >= Get(v, device);
      }
    }
  }

  /** A merge is the least vector at least as large as both. */
  lemma MergeIsLeastUpperBound(a: Vector, b: Vector, c: Vector)
    requires NonNegative(a) && NonNegative(b)
    ensures AtLeast(Merge(a, b), a) && AtLeast(Merge(a, b), b)
    ensures AtLeast(c, Merge(a, b)) <==> AtLeast(c, a) && AtLeast(c, b)
    ensures Merge(a, b).Keys == a.Keys + b.Keys
  {
    forall d: string
      ensures Get(Merge(a, b), d) == if Get(a, d) >= Get(b, d) then Get(a, d) else Get(b, d)
    {
    }
    if AtLeast(c, Merge(a, b)) {
      forall d: string
        ensures Get(c, d) >= Get(a, d) && Get(c, d) >= Get(b, d)
      {
        assert Get(c, d) >= Get(Merge(a, b), d);
      }
    }
    if AtLeast(c, a) && AtLeast(c, b) {
      forall d: string
        ensures Get(c, d) >= Get(Merge(a, b), d)
      {
        assert Get(c, d) >= Get(a, d) && Get(c, d) >= Get(b, d);
      }
    }
  }

  /** Vectors count as concurrent when each is ahead somewhere; but so do two different maps with the same
      counters, where one spells out a 0 that the other leaves out. */
  lemma ConcurrentMeans(a: Vector, b: Vector)
    requires NonNegative(a) && NonNegative(b)
    ensures ConcurrentOf(a, b)
            <==> (!AtLeast(a, b) && !AtLeast(b, a)) || (AtLeast(a, b) && AtLeast(b, a) && a != b)
    ensures Positive(a) && Positive(b) ==> (ConcurrentOf(a, b) <==> !AtLeast(a, b) && !AtLeast(b, a))
  {
    DominatesMeans(a, b);
    DominatesMeans(b, a);
    if Positive(a) && Positive(b) && AtLeast(a, b) && AtLeast(b, a) {
      SameCounters(a, b);
    }
    if a == b {
      assert AtLeast(a, b) && AtLeast(b, a);
    }
  }

  lemma SameCounters(a: Vector, b: Vector)
    requires Positive(a) && Positive(b) && AtLeast(a, b) && AtLeast(b, a)
    ensures a == b
  {
    forall d: string
      ensures d in a <==> d in b
      ensures d in a ==> a[d] == Get(b, d)
    {
      assert Get(a, d) >= Get(b, d) && Get(b, d) >= Get(a, d);
    }
  }

  lemma ZeroLooksConcurrent(device: string)
    ensures ConcurrentOf(map[device := 0], map[])
    ensures AtLeast(map[device := 0], map[]) && AtLeast(map[], map[device := 0])
  {
    assert device in map[device := 0];
  }
}
