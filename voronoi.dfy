/**
 * The mixed-Voronoi area split of one triangle among its three corners
 * (`Geometry::compute_face_mixed_voronoi_area`).  The three corner angles
 * (from `acos`), the triangle area (from `acos` and `sin`) and the three
 * values of the cotangent Voronoi formula are transcendental; the model takes
 * them as inputs and states the branch policy exactly.
 */
module Voronoi {
  import opened Linalg

  /** `g_halfPI`: the single-precision value of pi, halved; this is its exact
    * value. */
  const HalfPi: real := 1.57079637050628662109375

  /** The test that selects the Voronoi branch: every corner angle strictly
    * below a right angle. */
  predicate AllAcute(angles: Vec3) {
    angles.x < HalfPi && angles.y < HalfPi && angles.z < HalfPi
  }

  /** The share of the obtuse branch: half the area for a corner whose angle
    * is at least a right angle, a quarter otherwise. */
  function ObtuseShare(angle: real, area: real): real {
    if angle >= HalfPi then area / 2.0 else area / 4.0
  }

  /** The weights written for corners `a`, `b`, `c` (in that order), given
    * their angles, the triangle's area and the per-corner Voronoi formula
    * values. */
  function MixedVoronoiWeights(angles: Vec3, area: real, voronoi: Vec3): Vec3 {
    if AllAcute(angles) then voronoi
    else Vec3(ObtuseShare(angles.x, area), ObtuseShare(angles.y, area), ObtuseShare(angles.z, area))
  }

  /** The Voronoi values are used exactly when all three angles are acute:
    * then they are the weights whatever the area; otherwise the weights do
    * not depend on them at all. */
  lemma VoronoiBranchExactlyWhenAcute(angles: Vec3, area: real, area': real, voronoi: Vec3, voronoi': Vec3)
    ensures AllAcute(angles) ==>
      MixedVoronoiWeights(angles, area, voronoi) == voronoi
      && MixedVoronoiWeights(angles, area', voronoi) == voronoi
    ensures !AllAcute(angles) ==>
      MixedVoronoiWeights(angles, area, voronoi) == MixedVoronoiWeights(angles, area, voronoi')
  {
  }

  /** For positive angles summing to at most two right angles (any
    * triangle, whether its angles are exact or rounded down) the obtuse
    * branch has exactly one corner at or above a right angle: it receives
    * half the area, the other two a quarter each, and the three weights add
    * up to the area. */
  lemma ObtuseSplitSumsToArea(angles: Vec3, area: real, voronoi: Vec3)
    requires angles.x > 0.0 && angles.y > 0.0 && angles.z > 0.0
    requires angles.x + angles.y + angles.z <= 2.0 * HalfPi
    requires !AllAcute(angles)
    ensures var w := MixedVoronoiWeights(angles, area, voronoi);
      && w.x + w.y + w.z == area
      && (|| (w.x == area / 2.0 && w.y == area / 4.0 && w.z == area / 4.0)
          || (w.x == area / 4.0 && w.y == area / 2.0 && w.z == area / 4.0)
          || (w.x == area / 4.0 && w.y == area / 4.0 && w.z == area / 2.0))
  {
    if angles.x >= HalfPi {
      assert angles.y < HalfPi && angles.z < HalfPi;
    } else if angles.y >= HalfPi {
      assert angles.z < HalfPi;
    }
  }

  /** A triangle of positive area gets positive weights in the obtuse branch;
    * in the acute branch the weights are positive when the Voronoi values
    * are. */
  lemma WeightsPositive(angles: Vec3, area: real, voronoi: Vec3)
    requires area > 0.0
    requires AllAcute(angles) ==> voronoi.x > 0.0 && voronoi.y > 0.0 && voronoi.z > 0.0
    ensures var w := MixedVoronoiWeights(angles, area, voronoi);
      w.x > 0.0 && w.y > 0.0 && w.z > 0.0
  {
  }
}
