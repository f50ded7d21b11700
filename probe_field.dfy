/**
 * The probe fan of the autonomous mode: one distance probe per lateral
 * offset, reduced to the nearest qualifying obstacle on the left half of the
 * fan (offset > 0) and on the right half (offset < 0).
 *
 * A probe is given as its lateral offset and the abstract result of its ray
 * cast; the ray geometry and the engine's ray cast are not modelled.
 */
module ProbeField {
  import opened Distances

  /** The distance a ray cast reports for a hit is never negative. */
  type HitDistance = r: real | 0.0 <= r

  /** Result of one ray cast: nothing struck, or the nearest surface struck. */
  datatype RaycastResult = Miss | Hit(distance: HitDistance, isFloor: bool)

  /** One probe of the fan: its lateral offset `d` and what its ray struck. */
  datatype Probe = Probe(offset: real, ray: RaycastResult)

  /** The two running minima of the fan. */
  datatype ProbeResult = ProbeResult(minDistLeft: Dist, minDistRight: Dist)

  datatype Side = Left | Right

  function Get(r: ProbeResult, s: Side): Dist {
    match s
    case Left => r.minDistLeft
    case Right => r.minDistRight
  }

  function Other(s: Side): Side {
    match s
    case Left => Right
    case Right => Left
  }

  /** Both minima start at +infinity. */
  const NONE_SEEN := ProbeResult(Inf, Inf)

  /**
   * A hit counts only if something was struck, the surface is not the
   * floor and the distance is strictly below the ray length.
   */
  predicate Qualifies(p: Probe, rayLength: real) {
    p.ray.Hit? && !p.ray.isFloor && p.ray.distance < rayLength
  }

  /** Positive offsets belong to the left half, negative ones to the right. */
  predicate OnSide(p: Probe, s: Side) {
    match s
    case Left => p.offset > 0.0
    case Right => p.offset < 0.0
  }

  /** `p` is a qualifying hit on side `s`. */
  predicate CountsFor(p: Probe, rayLength: real, s: Side) {
    Qualifies(p, rayLength) && OnSide(p, s)
  }

  /** One iteration of the probe loop: the body of the `for` over `d`. */
  function Step(acc: ProbeResult, p: Probe, rayLength: real): ProbeResult {
    if Qualifies(p, rayLength) then
      if p.offset > 0.0 && Exceeds(acc.minDistLeft, p.ray.distance) then
        acc.(minDistLeft := Finite(p.ray.distance))
      else if p.offset < 0.0 && Exceeds(acc.minDistRight, p.ray.distance) then
        acc.(minDistRight := Finite(p.ray.distance))
      else
        acc
    else
      acc
  }

  /** The probe loop as a fold over the probes, in the order they are cast. */
  function Scan(probes: seq<Probe>, rayLength: real): ProbeResult
    decreases |probes|
  {
    if probes == [] then NONE_SEEN
    else Step(Scan(probes[..|probes| - 1], rayLength), probes[|probes| - 1], rayLength)
  }

  /**
   * `r` is the nearest qualifying distance on side `s` of the fan: +infinity
   * exactly when no probe qualifies on that side, and otherwise the distance
   * of some qualifying probe on that side that no other one undercuts.
   */
  ghost predicate IsNearest(r: Dist, probes: seq<Probe>, rayLength: real, s: Side) {
    && (r.Inf? <==> forall i :: 0 <= i < |probes| ==> !CountsFor(probes[i], rayLength, s))
    && (r.Finite? ==>
          && (exists i :: 0 <= i < |probes| && CountsFor(probes[i], rayLength, s) && probes[i].ray.distance == r.v)
          && (forall i :: 0 <= i < |probes| && CountsFor(probes[i], rayLength, s) ==> r.v <= probes[i].ray.distance))
  }

  /**
   * A probe touches only its own side's minimum, and only when it qualifies:
   * a probe with offset 0, a miss, a floor hit or a hit at or beyond the ray
   * length changes neither minimum.
   */
  lemma StepSide(acc: ProbeResult, p: Probe, rayLength: real, s: Side)
    ensures Get(Step(acc, p, rayLength), s) ==
            if CountsFor(p, rayLength, s) then Lower(Get(acc, s), p.ray.distance) else Get(acc, s)
  {
  }

  lemma StepUnchanged(acc: ProbeResult, p: Probe, rayLength: real)
    requires !Qualifies(p, rayLength) || p.offset == 0.0
    ensures Step(acc, p, rayLength) == acc
  {
  }

  /** The order in which two probes are processed does not matter. */
  lemma StepCommutes(acc: ProbeResult, p: Probe, q: Probe, rayLength: real)
    ensures Step(Step(acc, p, rayLength), q, rayLength) == Step(Step(acc, q, rayLength), p, rayLength)
  {
    var pq := Step(Step(acc, p, rayLength), q, rayLength);
    var qp := Step(Step(acc, q, rayLength), p, rayLength);
    forall s: Side ensures Get(pq, s) == Get(qp, s) {
      StepSide(acc, p, rayLength, s);
      StepSide(Step(acc, p, rayLength), q, rayLength, s);
      StepSide(acc, q, rayLength, s);
      StepSide(Step(acc, q, rayLength), p, rayLength, s);
      if CountsFor(p, rayLength, s) && CountsFor(q, rayLength, s) {
        LowerCommutes(Get(acc, s), p.ray.distance, q.ray.distance);
      }
    }
    assert Get(pq, Left) == Get(qp, Left) && Get(pq, Right) == Get(qp, Right);
  }

  /**
   * Wherever a probe stands in the fan, the result is that of the fan
   * without it, updated by that probe alone.
   */
  lemma {:induction false} ScanInsert(a: seq<Probe>, p: Probe, b: seq<Probe>, rayLength: real)
    ensures Scan(a + [p] + b, rayLength) == Step(Scan(a + b, rayLength), p, rayLength)
    decreases |b|
  {
    if b == [] {
      assert a + [p] + b == a + [p];
      assert (a + [p])[..|a + [p]| - 1] == a;
      assert a + b == a;
    } else {
      var b' := b[..|b| - 1];
      var q := b[|b| - 1];
      var lhs := a + [p] + b;
      var rhs := a + b;
      assert lhs[..|lhs| - 1] == a + [p] + b' && lhs[|lhs| - 1] == q;
      assert rhs[..|rhs| - 1] == a + b' && rhs[|rhs| - 1] == q;
      ScanInsert(a, p, b', rayLength);
      StepCommutes(Scan(a + b', rayLength), p, q, rayLength);
    }
  }

  /**
   * A miss, a floor hit, a hit at or beyond the ray length, or a probe
   * with offset 0, wherever it is inserted, leaves both minima unchanged.
   */
  lemma IgnoredProbe(a: seq<Probe>, p: Probe, b: seq<Probe>, rayLength: real)
    requires !Qualifies(p, rayLength) || p.offset == 0.0
    ensures Scan(a + [p] + b, rayLength) == Scan(a + b, rayLength)
  {
    ScanInsert(a, p, b, rayLength);
    StepUnchanged(Scan(a + b, rayLength), p, rayLength);
  }

  /**
   * A qualifying probe lowers the minimum of its own side to its distance
   * (if that is smaller) and leaves the other side's minimum unchanged.
   */
  lemma SidedProbe(a: seq<Probe>, p: Probe, b: seq<Probe>, rayLength: real, s: Side)
    requires CountsFor(p, rayLength, s)
    ensures Get(Scan(a + [p] + b, rayLength), s) == Lower(Get(Scan(a + b, rayLength), s), p.ray.distance)
    ensures Get(Scan(a + [p] + b, rayLength), Other(s)) == Get(Scan(a + b, rayLength), Other(s))
  {
    ScanInsert(a, p, b, rayLength);
    StepSide(Scan(a + b, rayLength), p, rayLength, s);
    StepSide(Scan(a + b, rayLength), p, rayLength, Other(s));
  }

  /** Each side of the fold is the nearest qualifying distance on that side. */
  lemma {:induction false} ScanIsNearest(probes: seq<Probe>, rayLength: real, s: Side)
    ensures IsNearest(Get(Scan(probes, rayLength), s), probes, rayLength, s)
    decreases |probes|
  {
    if probes != [] {
      var init := probes[..|probes| - 1];
      var p := probes[|probes| - 1];
      ScanIsNearest(init, rayLength, s);
      StepSide(Scan(init, rayLength), p, rayLength, s);
      var prev := Get(Scan(init, rayLength), s);
      var r := Get(Scan(probes, rayLength), s);
      assert forall i :: 0 <= i < |init| ==> probes[i] == init[i];
      if CountsFor(p, rayLength, s) {
        assert r.Finite?;
        if r == Finite(p.ray.distance) {
          assert CountsFor(probes[|probes| - 1], rayLength, s);
        } else {
          assert r == prev;
          var j :| 0 <= j < |init| && CountsFor(init[j], rayLength, s) && init[j].ray.distance == r.v;
          assert probes[j] == init[j];
        }
      } else {
        assert r == prev;
        if r.Finite? {
          var j :| 0 <= j < |init| && CountsFor(init[j], rayLength, s) && init[j].ray.distance == r.v;
          assert probes[j] == init[j];
        }
      }
    }
  }

  /** Every finite minimum lies in `[0, rayLength)`. */
  lemma {:induction false} ScanBounds(probes: seq<Probe>, rayLength: real, s: Side)
    ensures Get(Scan(probes, rayLength), s).Finite? ==>
              0.0 <= Get(Scan(probes, rayLength), s).v < rayLength
  {
    ScanIsNearest(probes, rayLength, s);
  }

  /** A fan in which nothing qualifies, such as an all-miss fan, yields `(Inf, Inf)`. */
  lemma {:induction false} NothingQualifies(probes: seq<Probe>, rayLength: real)
    requires forall i :: 0 <= i < |probes| ==> !Qualifies(probes[i], rayLength)
    ensures Scan(probes, rayLength) == NONE_SEEN
  {
    ScanIsNearest(probes, rayLength, Left);
    ScanIsNearest(probes, rayLength, Right);
  }

  /**
   * The probe loop of Movement.FixedUpdate: two running minima
   * starting at +infinity, updated in place by each probe's hit.
   */
  method ScanProbes(probes: seq<Probe>, rayLength: real) returns (minDistLeft: Dist, minDistRight: Dist)
    ensures ProbeResult(minDistLeft, minDistRight) == Scan(probes, rayLength)
    ensures IsNearest(minDistLeft, probes, rayLength, Left)
    ensures IsNearest(minDistRight, probes, rayLength, Right)
  {
    minDistLeft, minDistRight := Inf, Inf;
    var i := 0;
    while i < |probes|
      invariant 0 <= i <= |probes|
      invariant ProbeResult(minDistLeft, minDistRight) == Scan(probes[..i], rayLength)
    {
      var p := probes[i];
      if p.ray.Hit? && !p.ray.isFloor && p.ray.distance < rayLength {
        if p.offset > 0.0 && Exceeds(minDistLeft, p.ray.distance) {
          minDistLeft := Finite(p.ray.distance);
        } else if p.offset < 0.0 && Exceeds(minDistRight, p.ray.distance) {
          minDistRight := Finite(p.ray.distance);
        }
      }
      assert probes[..i + 1][..i] == probes[..i];
      i := i + 1;
    }
    assert probes[..i] == probes;
    ScanIsNearest(probes, rayLength, Left);
    ScanIsNearest(probes, rayLength, Right);
  }
}
