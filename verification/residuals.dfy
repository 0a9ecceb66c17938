/** The residuals (`basic_error`) of the four factors and the values their
    `initialize()` writes, as functions of the measurement and the node
    values, with the laws that tie each prediction to its residual. */
module Residuals {
  import opened Geometry
  import opened Matrices

  /** `predicted - target` in vector form, heading passed through
      `standardRad`. */
  function HeadingResidual(g: Planar, predicted: Pose2d, target: Pose2d): (err: seq<real>)
    ensures |err| == 3
    ensures err == Zeros(3) <==>
              predicted.x == target.x && predicted.y == target.y
              && g.standardRad(predicted.t - target.t) == 0.0
  {
    var err := [predicted.x - target.x, predicted.y - target.y, g.standardRad(predicted.t - target.t)];
    assert err == Zeros(3) <==> err[0] == 0.0 && err[1] == 0.0 && err[2] == 0.0;
    err
  }

  /** Point2d_Factor::basic_error: the point minus the prior. */
  function PointPriorError(prior: Point2d, vec: seq<seq<real>>): (err: seq<real>)
    requires |vec| >= 1 && |vec[0]| == 2
    ensures |err| == 2
    ensures err == Zeros(2) <==> vec[0] == prior.Vector()
  {
    var err := [vec[0][0] - prior.x, vec[0][1] - prior.y];
    assert err == Zeros(2) <==> err[0] == 0.0 && err[1] == 0.0;
    assert vec[0] == prior.Vector() <==> vec[0][0] == prior.x && vec[0][1] == prior.y;
    err
  }

  /** Pose2d_Factor::basic_error: the pose minus the prior, heading
      standardised. */
  function PosePriorError(g: Planar, prior: Pose2d, vec: seq<seq<real>>): (err: seq<real>)
    requires |vec| >= 1 && |vec[0]| == 3
    ensures |err| == 3
    ensures err == Zeros(3) <==>
              vec[0][0] == prior.x && vec[0][1] == prior.y
              && g.standardRad(vec[0][2] - prior.t) == 0.0
  {
    HeadingResidual(g, PoseOf(vec[0]), prior)
  }

  predicate RelativeArgs(vec: seq<seq<real>>)
  {
    |vec| >= 2 && |vec[0]| == 3 && |vec[1]| == 3
    && (|vec| == 4 ==> |vec[2]| == 3 && |vec[3]| == 3)
  }

  /** The relative pose Pose2d_Pose2d_Factor predicts from its node values:
      with four values (pose1, pose2, anchor1, anchor2), pose2 placed by its
      anchor seen from pose1 placed by its anchor; otherwise pose2 seen from
      pose1. */
  function PredictedRelative(g: Planar, vec: seq<seq<real>>): Pose2d
    requires RelativeArgs(vec)
  {
    var p1 := PoseOf(vec[0]);
    var p2 := PoseOf(vec[1]);
    if |vec| == 4 then
      g.ominus(g.oplus(PoseOf(vec[3]), p2), g.oplus(PoseOf(vec[2]), p1))
    else
      g.ominus(p2, p1)
  }

  /** Pose2d_Pose2d_Factor::basic_error: predicted relative pose minus the
      measurement, heading standardised. */
  function RelativePoseError(g: Planar, measure: Pose2d, vec: seq<seq<real>>): (err: seq<real>)
    requires RelativeArgs(vec)
    ensures |err| == 3
    ensures err == Zeros(3) <==>
              var p := PredictedRelative(g, vec);
              p.x == measure.x && p.y == measure.y && g.standardRad(p.t - measure.t) == 0.0
  {
    HeadingResidual(g, PredictedRelative(g, vec), measure)
  }

  /** Pose2d_Point2d_Factor::basic_error: the landmark seen from the pose
      minus the observation. */
  function ObservationError(g: Planar, measure: Point2d, vec: seq<seq<real>>): (err: seq<real>)
    requires |vec| >= 2 && |vec[0]| == 3 && |vec[1]| == 2
    ensures |err| == 2
    ensures err == Zeros(2) <==> g.transformTo(PoseOf(vec[0]), PointOf(vec[1])) == measure
  {
    var p := g.transformTo(PoseOf(vec[0]), PointOf(vec[1]));
    var err := [p.x - measure.x, p.y - measure.y];
    assert err == Zeros(2) <==> err[0] == 0.0 && err[1] == 0.0;
    err
  }

  /** The value Pose2d_Pose2d_Factor::initialize() gives an uninitialised
      pose2: pose1 composed with the measurement. */
  function PredictPose2(g: Planar, pose1: Pose2d, measure: Pose2d): (pose2: Pose2d)
    ensures GroupLaws(g) ==> g.ominus(pose2, pose1) == measure
  {
    CancelLeft(g, pose1, measure);
    g.oplus(pose1, measure)
  }

  /** The anchor2 value as the source computes it (a = pose1, b = pose2,
      b1 = anchor1): `measure.ominus(b.ominus(b1.oplus(a)))`. */
  function AnchorAsWritten(g: Planar, measure: Pose2d, a: Pose2d, b: Pose2d, b1: Pose2d): (a2: Pose2d)
    ensures GroupLaws(g) ==> g.oplus(b, a2) == g.oplus(g.oplus(b1, a), measure)
  {
    AsWrittenComposesOnTheRight(g, measure, b, g.oplus(b1, a));
    g.ominus(measure, g.ominus(b, g.oplus(b1, a)))
  }

  /** The anchor2 value that makes the anchored residual vanish:
      (b1 + a + measure) composed with the inverse of b. */
  function AnchorOffset(g: Planar, measure: Pose2d, a: Pose2d, b: Pose2d, b1: Pose2d): (a2: Pose2d)
    ensures GroupLaws(g) ==> g.ominus(g.oplus(a2, b), g.oplus(b1, a)) == measure
  {
    OffsetClosesLoop(g, measure, b, g.oplus(b1, a));
    g.oplus(g.oplus(g.oplus(b1, a), measure), g.ominus(Origin, b))
  }

  /** The value Pose2d_Point2d_Factor::initialize() gives an uninitialised
      point: the observation carried out of the pose's frame. */
  function PredictLandmark(g: Planar, pose: Pose2d, measure: Point2d): (point: Point2d)
    ensures TransformLaws(g) ==> g.transformTo(pose, point) == measure
  {
    g.transformFrom(pose, measure)
  }

  /** In a group, b^-1 * (b * d) == d. */
  lemma CancelLeft(g: Planar, b: Pose2d, d: Pose2d)
    ensures GroupLaws(g) ==> g.ominus(g.oplus(b, d), b) == d
  {
    if GroupLaws(g) {
      var inv := g.ominus(Origin, b);
      calc {
        g.ominus(g.oplus(b, d), b);
        g.oplus(inv, g.oplus(b, d));
        g.oplus(g.oplus(inv, b), d);
        g.oplus(Origin, d);
        d;
      }
    }
  }

  /** In a group, the inverse is also a right inverse: a * a^-1 == e. */
  lemma RightInverse(g: Planar, a: Pose2d)
    requires GroupLaws(g)
    ensures g.oplus(a, g.ominus(Origin, a)) == Origin
  {
    var c := g.ominus(Origin, a);
    var c' := g.ominus(Origin, c);
    calc {
      g.oplus(a, c);
      g.oplus(Origin, g.oplus(a, c));
      g.oplus(g.oplus(c', c), g.oplus(a, c));
      g.oplus(c', g.oplus(c, g.oplus(a, c)));
      g.oplus(c', g.oplus(g.oplus(c, a), c));
      g.oplus(c', g.oplus(Origin, c));
      g.oplus(c', c);
      Origin;
    }
  }

  /** `measure.ominus(b.ominus(q))` is b^-1 * q * measure: composed with b on
      the left it gives q * measure. */
  lemma AsWrittenComposesOnTheRight(g: Planar, measure: Pose2d, b: Pose2d, q: Pose2d)
    ensures GroupLaws(g) ==> g.oplus(b, g.ominus(measure, g.ominus(b, q))) == g.oplus(q, measure)
  {
    if GroupLaws(g) {
      var y := g.ominus(b, q);
      var yi := g.ominus(Origin, y);
      var qi := g.ominus(Origin, q);
      RightInverse(g, q);
      RightInverse(g, y);
      calc {
        g.oplus(q, y);
        g.oplus(q, g.oplus(qi, b));
        g.oplus(g.oplus(q, qi), b);
        g.oplus(Origin, b);
        b;
      }
      calc {
        g.oplus(b, yi);
        g.oplus(g.oplus(q, y), yi);
        g.oplus(q, g.oplus(y, yi));
        g.oplus(q, Origin);
        q;
      }
      calc {
        g.oplus(b, g.ominus(measure, y));
        g.oplus(b, g.oplus(yi, measure));
        g.oplus(g.oplus(b, yi), measure);
        g.oplus(q, measure);
      }
    }
  }

  /** (q * measure) * b^-1, composed with b on the right and seen from q,
      gives back the measurement. */
  lemma OffsetClosesLoop(g: Planar, measure: Pose2d, b: Pose2d, q: Pose2d)
    ensures GroupLaws(g) ==>
              g.ominus(g.oplus(g.oplus(g.oplus(q, measure), g.ominus(Origin, b)), b), q) == measure
  {
    if GroupLaws(g) {
      var x := g.oplus(q, measure);
      var inv := g.ominus(Origin, b);
      calc {
        g.oplus(g.oplus(x, inv), b);
        g.oplus(x, g.oplus(inv, b));
        g.oplus(x, Origin);
        x;
      }
      CancelLeft(g, q, measure);
    }
  }

  /** Seeding pose2 with pose1 composed with the measurement leaves a zero
      unanchored residual. */
  lemma OdometryPredictionZeroesError(g: Planar, pose1: Pose2d, measure: Pose2d)
    requires GroupLaws(g) && g.standardRad(0.0) == 0.0
    ensures RelativePoseError(g, measure, [pose1.Vector(), PredictPose2(g, pose1, measure).Vector()]) == Zeros(3)
  {
    var vec := [pose1.Vector(), PredictPose2(g, pose1, measure).Vector()];
    assert PoseOf(vec[0]) == pose1 && PoseOf(vec[1]) == PredictPose2(g, pose1, measure);
    assert PredictedRelative(g, vec) == measure;
  }

  /** The corrected anchor2 leaves a zero anchored residual, whatever the
      values of pose1, pose2 and anchor1. */
  lemma AnchorOffsetZeroesError(g: Planar, measure: Pose2d, pose1: Pose2d, pose2: Pose2d, anchor1: Pose2d)
    requires GroupLaws(g) && g.standardRad(0.0) == 0.0
    ensures RelativePoseError(g, measure,
              [pose1.Vector(), pose2.Vector(), anchor1.Vector(),
               AnchorOffset(g, measure, pose1, pose2, anchor1).Vector()]) == Zeros(3)
  {
    var a2 := AnchorOffset(g, measure, pose1, pose2, anchor1);
    var vec := [pose1.Vector(), pose2.Vector(), anchor1.Vector(), a2.Vector()];
    assert PoseOf(vec[0]) == pose1 && PoseOf(vec[1]) == pose2;
    assert PoseOf(vec[2]) == anchor1 && PoseOf(vec[3]) == a2;
    assert PredictedRelative(g, vec) == measure;
  }

  /** With the closed-form rigid-transform operations, the anchor2 value the
      source computes does not close the loop: pose1 = anchor1 = origin,
      pose2 turned by a quarter turn h, measurement one unit ahead. The x
      component of the anchored residual is -1, not 0. */
  lemma AnchorAsWrittenMissesMeasurement(cos: real -> real, sin: real -> real, standardRad: real -> real, h: real)
    requires cos(0.0) == 1.0 && sin(0.0) == 0.0 && standardRad(0.0) == 0.0
    requires cos(h) == 0.0 && sin(h) == 1.0 && standardRad(h) == h
    ensures var g := Rigid(cos, sin, standardRad);
            var pose2 := Pose2d(0.0, 0.0, h);
            RelativePoseError(g, Pose2d(1.0, 0.0, 0.0),
              [Origin.Vector(), pose2.Vector(), Origin.Vector(),
               AnchorAsWritten(g, Pose2d(1.0, 0.0, 0.0), Origin, pose2, Origin).Vector()])[0] == -1.0
  {
    var g := Rigid(cos, sin, standardRad);
    var measure := Pose2d(1.0, 0.0, 0.0);
    var pose2 := Pose2d(0.0, 0.0, h);
    var q := g.oplus(Origin, Origin);
    assert q == Origin;
    var y := g.ominus(pose2, q);
    assert y == Pose2d(0.0, 0.0, h);
    var d := g.ominus(measure, y);
    assert d.x == 0.0 && d.y == -1.0;
    assert d == AnchorAsWritten(g, measure, Origin, pose2, Origin);
    var placed := g.oplus(d, pose2);
    assert placed.x == 0.0 && placed.y == -1.0;
    var vec := [Origin.Vector(), pose2.Vector(), Origin.Vector(), d.Vector()];
    assert PoseOf(vec[0]) == Origin && PoseOf(vec[1]) == pose2;
    assert PoseOf(vec[2]) == Origin && PoseOf(vec[3]) == d;
    assert PredictedRelative(g, vec) == g.ominus(placed, q);
    assert g.ominus(placed, q).x == 0.0;
  }

  /** At the same input, the corrected anchor2 leaves an x residual of 0. */
  lemma AnchorOffsetMeetsMeasurement(cos: real -> real, sin: real -> real, standardRad: real -> real, h: real)
    requires cos(0.0) == 1.0 && sin(0.0) == 0.0 && standardRad(0.0) == 0.0
    requires cos(h) == 0.0 && sin(h) == 1.0 && standardRad(h) == h
    ensures var g := Rigid(cos, sin, standardRad);
            var pose2 := Pose2d(0.0, 0.0, h);
            RelativePoseError(g, Pose2d(1.0, 0.0, 0.0),
              [Origin.Vector(), pose2.Vector(), Origin.Vector(),
               AnchorOffset(g, Pose2d(1.0, 0.0, 0.0), Origin, pose2, Origin).Vector()])[0] == 0.0
  {
    var g := Rigid(cos, sin, standardRad);
    var measure := Pose2d(1.0, 0.0, 0.0);
    var pose2 := Pose2d(0.0, 0.0, h);
    var q := g.oplus(Origin, Origin);
    assert q == Origin;
    var inv := g.ominus(Origin, pose2);
    assert inv.x == 0.0 && inv.y == 0.0;
    var x := g.oplus(q, measure);
    assert x.x == 1.0 && x.y == 0.0;
    var a2 := g.oplus(x, inv);
    assert a2.x == 1.0 && a2.y == 0.0;
    assert a2 == AnchorOffset(g, measure, Origin, pose2, Origin);
    var placed := g.oplus(a2, pose2);
    assert placed.x == 1.0 && placed.y == 0.0;
    var vec := [Origin.Vector(), pose2.Vector(), Origin.Vector(), a2.Vector()];
    assert PoseOf(vec[0]) == Origin && PoseOf(vec[1]) == pose2;
    assert PoseOf(vec[2]) == Origin && PoseOf(vec[3]) == a2;
    assert PredictedRelative(g, vec) == g.ominus(placed, q);
    assert g.ominus(placed, q).x == 1.0;
  }

  /** With both anchors at the origin the anchored residual is the plain
      two-node residual. */
  lemma AnchorsAtOriginReduceToOdometry(g: Planar, measure: Pose2d, v1: seq<real>, v2: seq<real>)
    requires GroupLaws(g) && |v1| == 3 && |v2| == 3
    ensures RelativePoseError(g, measure, [v1, v2, Origin.Vector(), Origin.Vector()])
            == RelativePoseError(g, measure, [v1, v2])
  {
    assert PoseOf(Origin.Vector()) == Origin;
    assert g.oplus(Origin, PoseOf(v1)) == PoseOf(v1);
    assert g.oplus(Origin, PoseOf(v2)) == PoseOf(v2);
  }

  /** Seeding the point with the observation carried out of the pose's frame
      leaves a zero observation residual. */
  lemma LandmarkPredictionZeroesError(g: Planar, pose: Pose2d, measure: Point2d)
    requires TransformLaws(g)
    ensures ObservationError(g, measure, [pose.Vector(), PredictLandmark(g, pose, measure).Vector()]) == Zeros(2)
  {
    var vec := [pose.Vector(), PredictLandmark(g, pose, measure).Vector()];
    assert PoseOf(vec[0]) == pose && PointOf(vec[1]) == PredictLandmark(g, pose, measure);
  }
}
