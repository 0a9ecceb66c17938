/** Planar values and the operations on them that the factors use. The
    closed forms of `oplus`, `ominus`, `transform_to`, `transform_from`,
    `standardRad`, `cos` and `sin` live outside this model (Pose2d.h,
    Point2d.h and util.h are not part of it): a `Planar` value supplies them,
    and the laws they are expected to satisfy are stated as predicates that
    lemmas take as hypotheses. */
module Geometry {

  datatype Point2d = Point2d(x: real, y: real) {
    /** The vector form (x, y). */
    function Vector(): (v: seq<real>)
      ensures |v| == 2
    {
      [x, y]
    }
  }

  datatype Pose2d = Pose2d(x: real, y: real, t: real) {
    /** The vector form (x, y, t). */
    function Vector(): (v: seq<real>)
      ensures |v| == 3
    {
      [x, y, t]
    }
  }

  /** `Pose2d(const Vector&)`: the pose whose vector form is v. */
  function PoseOf(v: seq<real>): (p: Pose2d)
    requires |v| == 3
    ensures p.Vector() == v
  {
    Pose2d(v[0], v[1], v[2])
  }

  /** `Point2d(const Vector&)`: the point whose vector form is v. */
  function PointOf(v: seq<real>): (p: Point2d)
    requires |v| == 2
    ensures p.Vector() == v
  {
    Point2d(v[0], v[1])
  }

  /** The pose at the origin with heading zero. */
  const Origin := Pose2d(0.0, 0.0, 0.0)

  /** The planar operations, receiver first: `oplus(a, d)` is `a.oplus(d)`,
      `ominus(a, b)` is `a.ominus(b)`, `transformTo(p, q)` is
      `p.transform_to(q)`, `transformFrom(p, q)` is `p.transform_from(q)`. */
  datatype Planar = Planar(
    oplus: (Pose2d, Pose2d) -> Pose2d,
    ominus: (Pose2d, Pose2d) -> Pose2d,
    transformTo: (Pose2d, Point2d) -> Point2d,
    transformFrom: (Pose2d, Point2d) -> Point2d,
    standardRad: real -> real,
    cos: real -> real,
    sin: real -> real)

  /** `oplus` is the composition of a group with the origin as identity, and
      `a.ominus(b)` is `a` seen from `b`, that is b^-1 * a. The two laws that
      rewrite one side into a new term fire only when a proof mentions both
      sides, so that the solver does not rewrite without end. */
  ghost predicate GroupLaws(g: Planar)
  {
    && (forall a, b, c {:trigger g.oplus(g.oplus(a, b), c), g.oplus(a, g.oplus(b, c))} ::
          g.oplus(g.oplus(a, b), c) == g.oplus(a, g.oplus(b, c)))
    && (forall a :: g.oplus(Origin, a) == a)
    && (forall a :: g.oplus(a, Origin) == a)
    && (forall a :: g.oplus(g.ominus(Origin, a), a) == Origin)
    && (forall a, b {:trigger g.ominus(a, b), g.oplus(g.ominus(Origin, b), a)} ::
          g.ominus(a, b) == g.oplus(g.ominus(Origin, b), a))
  }

  /** `transform_to` undoes `transform_from` for every pose. */
  ghost predicate TransformLaws(g: Planar)
  {
    forall p, q :: g.transformTo(p, g.transformFrom(p, q)) == q
  }

  /** The closed-form rigid-transform operations in terms of the supplied
      `cos`, `sin` and `standardRad`: rotate by the first pose's heading and
      translate by its position (`oplus`, `transform_from`), or the reverse
      (`ominus`, `transform_to`). */
  function Rigid(cos: real -> real, sin: real -> real, standardRad: real -> real): (g: Planar)
    ensures g.cos == cos && g.sin == sin && g.standardRad == standardRad
  {
    Planar(
      (a: Pose2d, d: Pose2d) =>
        Pose2d(a.x + cos(a.t) * d.x - sin(a.t) * d.y,
               a.y + sin(a.t) * d.x + cos(a.t) * d.y,
               standardRad(a.t + d.t)),
      (a: Pose2d, b: Pose2d) =>
        Pose2d(cos(b.t) * (a.x - b.x) + sin(b.t) * (a.y - b.y),
               -sin(b.t) * (a.x - b.x) + cos(b.t) * (a.y - b.y),
               standardRad(a.t - b.t)),
      (p: Pose2d, q: Point2d) =>
        Point2d(cos(p.t) * (q.x - p.x) + sin(p.t) * (q.y - p.y),
                -sin(p.t) * (q.x - p.x) + cos(p.t) * (q.y - p.y)),
      (p: Pose2d, q: Point2d) =>
        Point2d(p.x + cos(p.t) * q.x - sin(p.t) * q.y,
                p.y + sin(p.t) * q.x + cos(p.t) * q.y),
      standardRad, cos, sin)
  }
}
