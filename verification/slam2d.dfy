/** The four 2D SLAM factors of include/isam/slam2d.h: their node lists,
    their one-shot `initialize()` protocol, their `write` output and the
    linearisations they supply. Residuals and predicted values are in module
    Residuals. */
module Slam2d {
  import opened Outcomes
  import opened Matrices
  import opened SqrtInf
  import opened Geometry
  import opened Nodes
  import opened Residuals

  const AnchorsMessage := "slam2d: Pose2d_Pose2d_Factor requires either 0 or 2 anchor nodes"
  const Pose1Message := "slam2d: Pose2d_Pose2d_Factor requires pose1 to be initialized"
  const Anchor1Message := "slam2d: Pose2d_Pose2d_Factor requires anchor1 to be initialized"
  const PoseMessage := "slam2d: Pose2d_Point2d_Factor requires pose to be initialized"

  /** The stream formatting `write` relies on: the generic factor header
      (`Factor::write`, from the factor's name and node ids) and the text of
      a pose, a point, a matrix entry and a node id. */
  datatype Formatter = Formatter(
    header: (string, seq<int>) -> string,
    pose: Pose2d -> string,
    point: Point2d -> string,
    entry: real -> string,
    id: int -> string)

  /** The text a factor's `write` appends after the header and measurement:
      the weighting matrix text, then `tail`; the serialiser's failure is
      passed on. */
  function WriteText(head: string, weights: Result<string>, tail: string): Result<string>
  {
    match weights
    case Ok(w) => Ok(head + w + tail)
    case Fail(e) => Fail(e)
  }

  /** One weighted partial derivative of a linearisation, for one node. */
  datatype Term = Term(node: NodeRef, block: Matrix<real>)

  /** A factor's linearisation: either left to the generic numerical
      differentiation of `Factor::jacobian()`, or given analytically as the
      weighted residual and one block per node. */
  datatype Jacobian = Numerical | Analytic(residual: seq<real>, terms: seq<Term>)

  /** The derivative of the relative pose with respect to pose1, for pose1's
      heading cosine c and sine s and relative pose p: its position block is
      the negated rotation of pose2's derivative, and where pose2 sits on
      pose1 at heading zero it is minus the identity. */
  function Pose1Partial(c: real, s: real, p: Pose2d): (d: Matrix<real>)
    ensures d.rows == 3 && d.cols == 3
    ensures forall i, j :: 0 <= i < 2 && 0 <= j < 2 ==> d.entries[i][j] == -Rotation3(c, s).entries[i][j]
    ensures c == 1.0 && s == 0.0 && p.x == 0.0 && p.y == 0.0 ==>
              forall i, j :: 0 <= i < 3 && 0 <= j < 3 ==> d.entries[i][j] == -Identity(3).entries[i][j]
  {
    Mat(3, 3, [[-c, -s, p.y], [s, -c, -p.x], [0.0, 0.0, -1.0]])
  }

  /** The derivative of the relative pose with respect to pose2: a rotation
      by pose1's heading, the identity at heading zero. */
  function Rotation3(c: real, s: real): (d: Matrix<real>)
    ensures d.rows == 3 && d.cols == 3
    ensures c == 1.0 && s == 0.0 ==> d == Identity(3)
  {
    var d: Matrix<real> := Mat(3, 3, [[c, s, 0.0], [-s, c, 0.0], [0.0, 0.0, 1.0]]);
    assert c == 1.0 && s == 0.0 ==> d == Identity(3) by {
      if c == 1.0 && s == 0.0 {
        var e := Identity(3).entries;
        assert d.entries[0] == e[0] && d.entries[1] == e[1] && d.entries[2] == e[2];
      }
    }
    d
  }

  /** Prior on a point. */
  class Point2dFactor {
    const name: string
    const dim: nat
    const sqrtinf: Matrix<real>
    const prior: Point2d
    const nodes: seq<NodeRef>

    ghost predicate Valid()
    {
      |nodes| == 1 && nodes[0].PointRef?
    }

    function Point(): PointNode
      requires Valid()
    {
      nodes[0].point
    }

    constructor (point: PointNode, prior: Point2d, sqrtinf: Matrix<real>)
      ensures Valid() && nodes == [PointRef(point)]
      ensures name == "Point2d_Factor" && dim == 2
      ensures this.prior == prior && this.sqrtinf == sqrtinf
    {
      name, dim := "Point2d_Factor", 2;
      this.prior := prior;
      this.sqrtinf := sqrtinf;
      nodes := [PointRef(point)];
    }

    /** An uninitialised point becomes the prior; an initialised one is left
        alone. */
    method Initialize()
      requires Valid()
      modifies Point()
      ensures Point().initialized
      ensures old(Point().initialized) ==> unchanged(Point())
      ensures !old(Point().initialized) ==> Point().value == prior
    {
      var point := Point();
      if !point.initialized {
        var predict := prior;
        point.Init(predict);
      }
    }

    method Write(fmt: Formatter) returns (r: Result<string>)
      requires Valid()
      ensures r == WriteText(fmt.header(name, Ids(nodes)) + " " + fmt.point(prior) + " ",
                             SqrtInfText(sqrtinf, fmt.entry), "")
    {
      var weights := SqrtInfToString(sqrtinf, fmt.entry);
      r := WriteText(fmt.header(name, Ids(nodes)) + " " + fmt.point(prior) + " ", weights, "");
    }
  }

  /** Prior on a pose. */
  class Pose2dFactor {
    const name: string
    const dim: nat
    const sqrtinf: Matrix<real>
    const prior: Pose2d
    const nodes: seq<NodeRef>

    ghost predicate Valid()
    {
      |nodes| == 1 && nodes[0].PoseRef?
    }

    function Pose(): PoseNode
      requires Valid()
    {
      nodes[0].pose
    }

    constructor (pose: PoseNode, prior: Pose2d, sqrtinf: Matrix<real>)
      ensures Valid() && nodes == [PoseRef(pose)]
      ensures name == "Pose2d_Factor" && dim == 3
      ensures this.prior == prior && this.sqrtinf == sqrtinf
    {
      name, dim := "Pose2d_Factor", 3;
      this.prior := prior;
      this.sqrtinf := sqrtinf;
      nodes := [PoseRef(pose)];
    }

    /** An uninitialised pose becomes the prior; an initialised one is left
        alone. */
    method Initialize()
      requires Valid()
      modifies Pose()
      ensures Pose().initialized
      ensures old(Pose().initialized) ==> unchanged(Pose())
      ensures !old(Pose().initialized) ==> Pose().value == prior
    {
      var pose := Pose();
      if !pose.initialized {
        var predict := prior;
        pose.Init(predict);
      }
    }

    /** The linearisation at the pose's linearisation point `lin`: the
        derivative is the identity, so the single block is the weighting
        matrix itself, and the residual is the weighted basic error. */
    function Jacobian(g: Planar, lin: Pose2d): (j: Jacobian)
      requires Valid() && sqrtinf.cols == 3
      ensures j.Analytic? && |j.terms| == 1 && j.terms[0].node == nodes[0]
      ensures j.terms[0].block == Mul(sqrtinf, Identity(3))
      ensures j.residual == MulVec(sqrtinf, PosePriorError(g, prior, [lin.Vector()]))
    {
      MulIdentity(sqrtinf);
      var err := HeadingResidual(g, lin, prior);
      Analytic(MulVec(sqrtinf, err), [Term(nodes[0], sqrtinf)])
    }

    method Write(fmt: Formatter) returns (r: Result<string>)
      requires Valid()
      ensures r == WriteText(fmt.header(name, Ids(nodes)) + " " + fmt.pose(prior) + " ",
                             SqrtInfText(sqrtinf, fmt.entry), "")
    {
      var weights := SqrtInfToString(sqrtinf, fmt.entry);
      r := WriteText(fmt.header(name, Ids(nodes)) + " " + fmt.pose(prior) + " ", weights, "");
    }
  }

  /** At the prior itself the pose prior's weighted residual is zero. */
  lemma PosePriorResidualVanishesAtPrior(f: Pose2dFactor, g: Planar)
    requires f.Valid() && f.sqrtinf.cols == 3 && g.standardRad(0.0) == 0.0
    ensures f.Jacobian(g, f.prior).residual == Zeros(f.sqrtinf.rows)
  {
    assert PosePriorError(g, f.prior, [f.prior.Vector()]) == Zeros(3);
    MulVecZeros(f.sqrtinf);
  }

  /** Odometry or loop-closing constraint from pose1 to pose2, optionally
      between two trajectories tied together by anchor1 and anchor2. */
  class Pose2dPose2dFactor {
    const name: string
    const dim: nat
    const sqrtinf: Matrix<real>
    const measure: Pose2d
    const nodes: seq<NodeRef>

    ghost predicate Valid()
    {
      (|nodes| == 2 || |nodes| == 4) && forall i :: 0 <= i < |nodes| ==> nodes[i].PoseRef?
    }

    predicate Anchored()
    {
      |nodes| == 4
    }

    function Pose1(): PoseNode
      requires Valid()
    {
      nodes[0].pose
    }

    function Pose2(): PoseNode
      requires Valid()
    {
      nodes[1].pose
    }

    function Anchor1(): PoseNode
      requires Valid() && Anchored()
    {
      nodes[2].pose
    }

    function Anchor2(): PoseNode
      requires Valid() && Anchored()
    {
      nodes[3].pose
    }

    /** The node list is (pose1, pose2) without anchors and
        (pose1, pose2, anchor1, anchor2) with them. */
    constructor (pose1: PoseNode, pose2: PoseNode, measure: Pose2d, sqrtinf: Matrix<real>,
                 anchor1: Node?<Pose2d>, anchor2: Node?<Pose2d>)
      requires (anchor1 == null) == (anchor2 == null)
      ensures Valid()
      ensures anchor1 == null ==> nodes == [PoseRef(pose1), PoseRef(pose2)]
      ensures anchor1 != null ==> nodes == [PoseRef(pose1), PoseRef(pose2), PoseRef(anchor1), PoseRef(anchor2)]
      ensures name == "Pose2d_Pose2d_Factor" && dim == 3
      ensures this.measure == measure && this.sqrtinf == sqrtinf
    {
      name, dim := "Pose2d_Pose2d_Factor", 3;
      this.measure := measure;
      this.sqrtinf := sqrtinf;
      if anchor1 != null {
        nodes := [PoseRef(pose1), PoseRef(pose2), PoseRef(anchor1), PoseRef(anchor2)];
      } else {
        nodes := [PoseRef(pose1), PoseRef(pose2)];
      }
    }

    /** Construction with the anchor check: exactly one anchor is refused
        before any factor exists or any node is touched. */
    static method Make(pose1: PoseNode, pose2: PoseNode, measure: Pose2d, sqrtinf: Matrix<real>,
                       anchor1: Node?<Pose2d>, anchor2: Node?<Pose2d>)
      returns (r: Result<Pose2dPose2dFactor>)
      ensures r.Fail? <==> (anchor1 == null) != (anchor2 == null)
      ensures r.Fail? ==> r.msg == AnchorsMessage
      ensures r.Ok? ==> fresh(r.value) && r.value.Valid() && r.value.measure == measure
                        && r.value.sqrtinf == sqrtinf
                        && r.value.nodes == if anchor1 == null then [PoseRef(pose1), PoseRef(pose2)]
                                            else [PoseRef(pose1), PoseRef(pose2), PoseRef(anchor1), PoseRef(anchor2)]
    {
      if (anchor1 == null) != (anchor2 == null) {
        return Fail(AnchorsMessage);
      }
      var f := new Pose2dPose2dFactor(pose1, pose2, measure, sqrtinf, anchor1, anchor2);
      r := Ok(f);
    }

    /** pose1 (and, with anchors, anchor1) must already be initialised; an
        uninitialised pose2 becomes pose1 composed with the measurement, and
        then an uninitialised anchor2 becomes the anchor offset that closes
        the measurement. Nothing already initialised is written. */
    method Initialize(g: Planar) returns (r: Outcome)
      requires Valid()
      modifies Pose2(), if Anchored() then {Anchor2()} else {}
      ensures unchanged(Pose1())
      ensures !old(Pose1().initialized) ==>
                r == Abort(Pose1Message) && unchanged(Pose2())
                && (Anchored() ==> unchanged(Anchor2()))
      ensures old(Pose1().initialized) ==>
                Pose2().initialized
                && Pose2().value == if old(Pose2().initialized) then old(Pose2().value)
                                    else PredictPose2(g, Pose1().value, measure)
      ensures old(Pose1().initialized) && !Anchored() ==> r == Pass
      ensures Anchored() && Anchor1() != Pose2() ==> unchanged(Anchor1())
      ensures Anchored() && old(Anchor2().initialized) ==> unchanged(Anchor2())
      ensures old(Pose1().initialized) && Anchored() ==>
                r == if Anchor1().initialized then Pass else Abort(Anchor1Message)
      ensures old(Pose1().initialized) && Anchored() && !Anchor1().initialized && Anchor2() != Pose2() ==>
                unchanged(Anchor2())
      ensures old(Pose1().initialized) && Anchored() && Anchor1().initialized
              && !old(Anchor2().initialized) && Anchor2() != Pose2() ==>
                Anchor2().initialized
                && Anchor2().value == AnchorOffset(g, measure, Pose1().value, Pose2().value, Anchor1().value)
    {
      var pose1 := Pose1();
      var pose2 := Pose2();
      if !pose1.initialized {
        return Abort(Pose1Message);
      }
      if !pose2.initialized {
        var a := pose1.value;
        var predict := PredictPose2(g, a, measure);
        pose2.Init(predict);
      }
      if |nodes| == 4 {
        var anchor1 := Anchor1();
        var anchor2 := Anchor2();
        if !anchor1.initialized {
          return Abort(Anchor1Message);
        }
        if !anchor2.initialized {
          var a := pose1.value;
          var b := pose2.value;
          var b1 := anchor1.value;
          var d := AnchorOffset(g, measure, a, b, b1);
          anchor2.Init(d);
        }
      }
      return Pass;
    }

    /** The linearisation at the linearisation points lin1 (pose1) and lin2
        (pose2): with anchors it is left to the generic numerical
        differentiation; without, both blocks are the weighting matrix times
        the analytic derivative, and the residual is the weighted basic
        error. */
    function Jacobian(g: Planar, lin1: Pose2d, lin2: Pose2d): (j: Jacobian)
      requires Valid() && sqrtinf.cols == 3
      ensures j.Numerical? <==> Anchored()
      ensures j.Analytic? ==>
                && j.residual == MulVec(sqrtinf, RelativePoseError(g, measure, [lin1.Vector(), lin2.Vector()]))
                && |j.terms| == 2 && j.terms[0].node == nodes[0] && j.terms[1].node == nodes[1]
                && j.terms[0].block
                   == Mul(sqrtinf, Pose1Partial(g.cos(lin1.t), g.sin(lin1.t), g.ominus(lin2, lin1)))
                && j.terms[1].block == Mul(sqrtinf, Rotation3(g.cos(lin1.t), g.sin(lin1.t)))
    {
      if |nodes| == 4 then Numerical
      else
        var p := g.ominus(lin2, lin1);
        var c := g.cos(lin1.t);
        var s := g.sin(lin1.t);
        var m1 := Mul(sqrtinf, Pose1Partial(c, s, p));
        var m2 := Mul(sqrtinf, Rotation3(c, s));
        var err := HeadingResidual(g, p, measure);
        assert PoseOf(lin1.Vector()) == lin1 && PoseOf(lin2.Vector()) == lin2;
        Analytic(MulVec(sqrtinf, err), [Term(nodes[0], m1), Term(nodes[1], m2)])
    }

    /** `write`: header, measurement, weighting matrix text, and the ids of
        the two anchors only when there are four nodes. */
    method Write(fmt: Formatter) returns (r: Result<string>)
      requires Valid()
      ensures r == WriteText(fmt.header(name, Ids(nodes)) + " " + fmt.pose(measure) + " ",
                             SqrtInfText(sqrtinf, fmt.entry),
                             if Anchored() then " " + fmt.id(nodes[2].Id()) + " " + fmt.id(nodes[3].Id()) else "")
    {
      var weights := SqrtInfToString(sqrtinf, fmt.entry);
      var anchors := "";
      if |nodes| == 4 {
        anchors := " " + fmt.id(nodes[2].Id()) + " " + fmt.id(nodes[3].Id());
      }
      r := WriteText(fmt.header(name, Ids(nodes)) + " " + fmt.pose(measure) + " ", weights, anchors);
    }
  }

  /** At a pose1 heading whose cosine is 1 and sine is 0, the block for
      pose2 is the weighting matrix itself. */
  lemma Pose2BlockAtZeroHeading(f: Pose2dPose2dFactor, g: Planar, lin1: Pose2d, lin2: Pose2d)
    requires f.Valid() && !f.Anchored() && f.sqrtinf.cols == 3
    requires g.cos(lin1.t) == 1.0 && g.sin(lin1.t) == 0.0
    ensures f.Jacobian(g, lin1, lin2).terms[1].block == f.sqrtinf
  {
    MulIdentity(f.sqrtinf);
  }

  /** The derivative of the landmark in the pose's frame with respect to
      the pose, for the pose's heading cosine c and sine s and the landmark
      `local` already in the pose's frame: its position block is the negated
      rotation of the landmark's derivative, and for a landmark on the pose
      at heading zero it is minus the identity on position and zero on
      heading. */
  function LandmarkPosePartial(c: real, s: real, local: Point2d): (d: Matrix<real>)
    ensures d.rows == 2 && d.cols == 3
    ensures forall i, j :: 0 <= i < 2 && 0 <= j < 2 ==> d.entries[i][j] == -Rotation2(c, s).entries[i][j]
    ensures c == 1.0 && s == 0.0 && local == Point2d(0.0, 0.0) ==>
              forall i, j :: 0 <= i < 2 && 0 <= j < 3 ==> d.entries[i][j] == -Identity(3).entries[i][j]
  {
    Mat(2, 3, [[-c, -s, local.y], [s, -c, -local.x]])
  }

  /** The derivative of the landmark in the pose's frame with respect to the
      landmark: a rotation by the pose's heading, the identity at heading
      zero. */
  function Rotation2(c: real, s: real): (d: Matrix<real>)
    ensures d.rows == 2 && d.cols == 2
    ensures c == 1.0 && s == 0.0 ==> d == Identity(2)
  {
    var d: Matrix<real> := Mat(2, 2, [[c, s], [-s, c]]);
    assert c == 1.0 && s == 0.0 ==> d == Identity(2) by {
      if c == 1.0 && s == 0.0 {
        var e := Identity(2).entries;
        assert d.entries[0] == e[0] && d.entries[1] == e[1];
      }
    }
    d
  }

  /** Landmark observation of a point from a pose. */
  class Pose2dPoint2dFactor {
    const name: string
    const dim: nat
    const sqrtinf: Matrix<real>
    const measure: Point2d
    const nodes: seq<NodeRef>

    ghost predicate Valid()
    {
      |nodes| == 2 && nodes[0].PoseRef? && nodes[1].PointRef?
    }

    function Pose(): PoseNode
      requires Valid()
    {
      nodes[0].pose
    }

    function Point(): PointNode
      requires Valid()
    {
      nodes[1].point
    }

    constructor (pose: PoseNode, point: PointNode, measure: Point2d, sqrtinf: Matrix<real>)
      ensures Valid() && nodes == [PoseRef(pose), PointRef(point)]
      ensures name == "Pose2d_Point2d_Factor" && dim == 2
      ensures this.measure == measure && this.sqrtinf == sqrtinf
    {
      name, dim := "Pose2d_Point2d_Factor", 2;
      this.measure := measure;
      this.sqrtinf := sqrtinf;
      nodes := [PoseRef(pose), PointRef(point)];
    }

    /** The pose must already be initialised; an uninitialised point becomes
        the observation carried out of the pose's frame, an initialised one
        is left alone. */
    method Initialize(g: Planar) returns (r: Outcome)
      requires Valid()
      modifies Point()
      ensures unchanged(Pose())
      ensures r == if old(Pose().initialized) then Pass else Abort(PoseMessage)
      ensures r.Abort? || old(Point().initialized) ==> unchanged(Point())
      ensures r.Pass? ==>
                Point().initialized
                && Point().value == if old(Point().initialized) then old(Point().value)
                                    else PredictLandmark(g, Pose().value, measure)
    {
      var pose := Pose();
      var point := Point();
      if !pose.initialized {
        return Abort(PoseMessage);
      }
      if !point.initialized {
        var p := pose.value;
        var predict := PredictLandmark(g, p, measure);
        point.Init(predict);
      }
      return Pass;
    }

    /** The linearisation at the linearisation points `po` (pose) and `pt`
        (point): the landmark is carried into the pose's frame with the
        pose's heading cosine and sine, both blocks are the weighting matrix
        times the analytic derivative, and the residual is the weighted basic
        error under the closed-form rigid transform. */
    function Jacobian(g: Planar, po: Pose2d, pt: Point2d): (j: Jacobian)
      requires Valid() && sqrtinf.cols == 2
      ensures j.Analytic? && |j.terms| == 2 && j.terms[0].node == nodes[0] && j.terms[1].node == nodes[1]
      ensures j.residual
              == MulVec(sqrtinf, ObservationError(Rigid(g.cos, g.sin, g.standardRad), measure,
                                                  [po.Vector(), pt.Vector()]))
      ensures var local := Rigid(g.cos, g.sin, g.standardRad).transformTo(po, pt);
              && j.terms[0].block == Mul(sqrtinf, LandmarkPosePartial(g.cos(po.t), g.sin(po.t), local))
              && j.terms[1].block == Mul(sqrtinf, Rotation2(g.cos(po.t), g.sin(po.t)))
    {
      var c := g.cos(po.t);
      var s := g.sin(po.t);
      var dx := pt.x - po.x;
      var dy := pt.y - po.y;
      var x := c * dx + s * dy;
      var y := -s * dx + c * dy;
      var m1 := Mul(sqrtinf, LandmarkPosePartial(c, s, Point2d(x, y)));
      var m2 := Mul(sqrtinf, Rotation2(c, s));
      var rigid := Rigid(g.cos, g.sin, g.standardRad);
      assert PoseOf(po.Vector()) == po && PointOf(pt.Vector()) == pt;
      assert rigid.transformTo(po, pt) == Point2d(x, y);
      assert ObservationError(rigid, measure, [po.Vector(), pt.Vector()]) == [x - measure.x, y - measure.y];
      Analytic(MulVec(sqrtinf, [x - measure.x, y - measure.y]), [Term(nodes[0], m1), Term(nodes[1], m2)])
    }

    method Write(fmt: Formatter) returns (r: Result<string>)
      requires Valid()
      ensures r == WriteText(fmt.header(name, Ids(nodes)) + " " + fmt.point(measure) + " ",
                             SqrtInfText(sqrtinf, fmt.entry), "")
    {
      var weights := SqrtInfToString(sqrtinf, fmt.entry);
      r := WriteText(fmt.header(name, Ids(nodes)) + " " + fmt.point(measure) + " ", weights, "");
    }
  }

  /** When the closed-form transform carries the point into the pose's frame
      exactly onto the observation, the observation's weighted residual is
      zero. */
  lemma ObservationResidualVanishesWhenConsistent(f: Pose2dPoint2dFactor, g: Planar, po: Pose2d, pt: Point2d)
    requires f.Valid() && f.sqrtinf.cols == 2
    requires Rigid(g.cos, g.sin, g.standardRad).transformTo(po, pt) == f.measure
    ensures f.Jacobian(g, po, pt).residual == Zeros(f.sqrtinf.rows)
  {
    assert PoseOf(po.Vector()) == po && PointOf(pt.Vector()) == pt;
    MulVecZeros(f.sqrtinf);
  }

  /** At a pose heading whose cosine is 1 and sine is 0, the block for the
      point is the weighting matrix itself. */
  lemma PointBlockAtZeroHeading(f: Pose2dPoint2dFactor, g: Planar, po: Pose2d, pt: Point2d)
    requires f.Valid() && f.sqrtinf.cols == 2
    requires g.cos(po.t) == 1.0 && g.sin(po.t) == 0.0
    ensures f.Jacobian(g, po, pt).terms[1].block == f.sqrtinf
  {
    MulIdentity(f.sqrtinf);
  }
}
