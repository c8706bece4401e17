/**
 * The anchor search of the `/geo/` route (world/index.js): starting at
 * 20 km, probe `adm5`, `adm4`, `adm3`, `adm2`, `adm1` in turn, over and over,
 * for the nearest place within the current radius; every empty probe doubles
 * the radius, which is never reset; the first place found is the anchor.
 *
 * The geo index is an oracle `within(level, radius)` (the places of `level`
 * within `radius` metres of the fixed query point, nearest first). The
 * source loops for ever when every probe is empty; the model runs at most
 * `sweeps` passes over the five collections.
 */
module Anchor {
  import opened Wrappers
  import opened Places

  /** The collections probed, in order, finest first. */
  const COLLECTIONS: seq<Level> := [Adm5, Adm4, Adm3, Adm2, Adm1]

  /** The first radius, in metres (20 km). */
  const INITIAL_RADIUS: int := 20000

  function Pow2(k: nat): (r: nat)
    ensures r >= 1
  {
    if k == 0 then 1 else 2 * Pow2(k - 1)
  }

  /** `.limit(n).toArray()`: the first `n` results, or all of them if fewer. */
  function Limit<P>(s: seq<P>, n: nat): (r: seq<P>)
    ensures |r| == if |s| < n then |s| else n
    ensures r <= s
  {
    if |s| < n then s else s[..n]
  }

  /** The collection of probe k (0-based). */
  function ProbeLevel(k: nat): Level
  {
    COLLECTIONS[k % |COLLECTIONS|]
  }

  /** The radius of probe k: doubled once per earlier (empty) probe. */
  function ProbeRadius(k: nat): int
  {
    INITIAL_RADIUS * Pow2(k)
  }

  /** What probe k returns. */
  function Nearest<P>(within: (Level, int) -> seq<P>, k: nat): seq<P>
  {
    Limit(within(ProbeLevel(k), ProbeRadius(k)), 1)
  }

  /** Probe k finds a place (`nearest[0]` is a document, hence truthy). */
  predicate Hit<P>(within: (Level, int) -> seq<P>, k: nat)
  {
    |Nearest(within, k)| > 0
  }

  /**
   * A probe returns at most one place, the first (nearest) the geo query
   * returns, and it succeeds exactly when the query returns anything.
   */
  lemma NearestShape<P>(within: (Level, int) -> seq<P>, k: nat)
    ensures |Nearest(within, k)| <= 1
    ensures Nearest(within, k) <= within(ProbeLevel(k), ProbeRadius(k))
    ensures Hit(within, k) <==> |within(ProbeLevel(k), ProbeRadius(k))| > 0
  {
  }

  /** The first probe in `k..n-1` that finds a place. */
  function FirstHit<P>(within: (Level, int) -> seq<P>, k: nat, n: nat): (r: Option<nat>)
    ensures r.Some? ==> k <= r.value < n && Hit(within, r.value)
    decreases n - k
  {
    if k >= n then None
    else if Hit(within, k) then Some(k)
    else FirstHit(within, k + 1, n)
  }

  /**
   * FirstHit finds the earliest successful probe of `k..n-1`, and fails
   * exactly when every one of them is empty.
   */
  lemma {:induction false} FirstHitIsEarliest<P>(within: (Level, int) -> seq<P>, k: nat, n: nat)
    ensures FirstHit(within, k, n).None? <==> forall j :: k <= j < n ==> !Hit(within, j)
    ensures FirstHit(within, k, n).Some? ==>
      var h := FirstHit(within, k, n).value;
      && k <= h < n
      && Hit(within, h)
      && forall j :: k <= j < h ==> !Hit(within, j)
    decreases n - k
  {
    if k < n && !Hit(within, k) {
      FirstHitIsEarliest(within, k + 1, n);
    }
  }

  /**
   * The probe schedule: probe 5s + i of sweep s queries `COLLECTIONS[i]`
   * (adm5 first, adm1 last), and its radius is 20 km doubled once per
   * earlier probe, across sweeps.
   */
  lemma {:induction false} ProbeSchedule(s: nat, i: nat)
    requires i < |COLLECTIONS|
    ensures ProbeLevel(5 * s + i) == COLLECTIONS[i]
    ensures ProbeRadius(5 * s + i + 1) == 2 * ProbeRadius(5 * s + i)
  {
    assert (5 * s + i) % 5 == i by {
      assert 5 * s + i == 5 * s + i % 5;
    }
  }

  /** A sweep costs the radius a factor of 32: the radius is never reset. */
  lemma {:induction false} RadiusNeverReset(k: nat)
    ensures ProbeRadius(k + 5) == 32 * ProbeRadius(k)
  {
    assert Pow2(k + 5) == 2 * Pow2(k + 4);
    assert Pow2(k + 4) == 2 * Pow2(k + 3);
    assert Pow2(k + 3) == 2 * Pow2(k + 2);
    assert Pow2(k + 2) == 2 * Pow2(k + 1);
    assert Pow2(k + 1) == 2 * Pow2(k);
  }

  /**
   * More sweeps never change an anchor already found: the fuel only cuts
   * off the source's endless loop.
   */
  lemma {:induction false} FirstHitStable<P>(within: (Level, int) -> seq<P>, n: nat, m: nat)
    requires n <= m && FirstHit(within, 0, n).Some?
    ensures FirstHit(within, 0, m) == FirstHit(within, 0, n)
  {
    FirstHitIsEarliest(within, 0, n);
    FirstHitIsFirstSuccess(within, 0, m, FirstHit(within, 0, n).value);
  }

  /** A successful probe with no successful probe before it is the first hit. */
  lemma {:induction false} FirstHitIsFirstSuccess<P>(within: (Level, int) -> seq<P>, k: nat, n: nat, h: nat)
    requires k <= h < n && Hit(within, h)
    requires forall j :: k <= j < h ==> !Hit(within, j)
    ensures FirstHit(within, k, n) == Some(h)
    decreases h - k
  {
    if k < h {
      FirstHitIsFirstSuccess(within, k + 1, n, h);
    }
  }

  /**
   * The `while (!startVertex)` loop with its inner `for` over the
   * collections, run for at most `sweeps` passes: returns the anchor, the
   * radius left in `radius` and the number of probes made.
   */
  method FindAnchor<P>(within: (Level, int) -> seq<P>, sweeps: nat)
    returns (anchor: Option<P>, radius: int, probes: nat)
    ensures match FirstHit(within, 0, 5 * sweeps)
      case Some(k) =>
        && probes == k + 1
        && anchor == Some(within(ProbeLevel(k), ProbeRadius(k))[0])
        && radius == ProbeRadius(k)
      case None =>
        && probes == 5 * sweeps
        && anchor == None
        && radius == ProbeRadius(5 * sweeps)
    ensures sweeps > 0 && Hit(within, 0) ==> probes == 1 && radius == INITIAL_RADIUS
  {
    radius := INITIAL_RADIUS;
    anchor := None;
    probes := 0;
    var sweep := 0;
    while anchor.None? && sweep < sweeps
      invariant sweep <= sweeps
      invariant anchor.None? ==>
        && probes == 5 * sweep
        && radius == ProbeRadius(probes)
        && forall j :: 0 <= j < probes ==> !Hit(within, j)
      invariant anchor.Some? ==>
        && 1 <= probes <= 5 * sweeps
        && Hit(within, probes - 1)
        && (forall j :: 0 <= j < probes - 1 ==> !Hit(within, j))
        && anchor.value == Nearest(within, probes - 1)[0]
        && radius == ProbeRadius(probes - 1)
      decreases sweeps - sweep
    {
      var i := 0;
      while i < |COLLECTIONS|
        invariant 0 <= i <= |COLLECTIONS| && anchor.None?
        invariant probes == 5 * sweep + i
        invariant radius == ProbeRadius(probes)
        invariant forall j :: 0 <= j < probes ==> !Hit(within, j)
      {
        ProbeSchedule(sweep, i);
        var nearest := Limit(within(COLLECTIONS[i], radius), 1);
        probes := probes + 1;
        if |nearest| > 0 {
          anchor := Some(nearest[0]);
          break;
        } else {
          radius := radius * 2;
        }
        i := i + 1;
      }
      sweep := sweep + 1;
    }
    if anchor.Some? {
      FirstHitIsFirstSuccess(within, 0, 5 * sweeps, probes - 1);
    } else {
      FirstHitIsEarliest(within, 0, 5 * sweeps);
    }
  }
}
