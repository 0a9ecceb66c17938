# iSAM planar SLAM factors in Dafny

This project models the 2D SLAM factor layer of iSAM (`include/isam/slam2d.h`).
It covers:

- the weighting-matrix serialiser `sqrtinf_to_string`;
- the four factors (`Point2d_Factor`, `Pose2d_Factor`, `Pose2d_Pose2d_Factor`, `Pose2d_Point2d_Factor`);
- for each factor: its ordered node list, its one-shot `initialize()` protocol over nodes that carry an
  `initialized` flag and a value, its `basic_error` residual, its analytic `jacobian` and its `write` output.

Modules, one per concern:

- `Outcomes`: `Result`, `Outcome` and `Option`. A failed `require(...)` becomes a `Fail`/`Abort` value that carries the
  source's message.
- `Matrices`: the weighting matrix as a value, with `Mul`, `MulVec`, `Identity` and `Zeros`.
- `SqrtInf`: `sqrtinf_to_string`. The imperative nested loop (`SqrtInfToString`, inner loop `EmitRow`) is proved equal
  to a specification function `SqrtInfText`. That function is defined by the list of upper-triangle cells in
  row-major order (`UpperCells`), the text of each entry (`CellTexts`) and the brace-and-comma framing (`Encode`).
  A decoder (`Decode`) is proved to recover the entry texts.
- `Geometry`: `Pose2d`, `Point2d` and their vector forms.
  - The planar operations (`oplus`, `ominus`, `transform_to`, `transform_from`, `standardRad`, `cos`, `sin`) are
    parameters collected in a `Planar` value.
  - The group and transform laws they obey are hypotheses (`GroupLaws`, `TransformLaws`).
  - `Rigid` is the closed-form planar rigid transform built from given `cos`, `sin` and `standardRad`.
- `Nodes`: a node is a class with `initialized` and `value`. `Init` may only be called on an uninitialised node.
- `Residuals`: each factor's `basic_error`, and the values `initialize()` writes. Lemmas show that each
  initialisation zeroes its factor's residual.
- `Slam2d`: the four factors as classes. Their `Initialize` methods change the nodes they name and nothing else.

## Model

| member | source | states |
|---|---|---|
| SqrtInf.SqrtInfToString | include/isam/slam2d.h:47-66 | the nested loop returns exactly `SqrtInfText`: a non-square matrix fails with the `require` message, a square one gives the braced, comma-separated upper-triangle entries |
| SqrtInf.EmitRow | include/isam/slam2d.h:55-62 | one row's inner loop appends the texts of cells (row, row) … (row, n-1) to the output, with a comma before every entry except the very first |
| SqrtInf.SqrtInfText | include/isam/slam2d.h:48-52 | succeeds iff the matrix is square; otherwise fails with "slam2d::sqrtinf_to_string: matrix must be square"; a success starts with `{` and ends with `}`; a 0×0 matrix gives `{}` |
| SqrtInf.UpperCellsExact | include/isam/slam2d.h:54-55 | the visited cells are exactly those (r, c) with r <= c < n, there are n(n+1)/2 of them, and they come in strict row-major order |
| SqrtInf.RowsCount | include/isam/slam2d.h:54-55 | after the first k rows, k(2n-k+1)/2 cells have been visited |
| SqrtInf.RowsMembers | include/isam/slam2d.h:54-55 | after the first k rows, the visited cells are exactly those with r < k and r <= c < n |
| SqrtInf.RowsOrdered | include/isam/slam2d.h:54-55 | the cells of the first k rows are visited in strict row-major order |
| SqrtInf.CellTexts | include/isam/slam2d.h:61 | one text per visited cell, in visiting order; text i is the element text of the entry at cell i |
| SqrtInf.EncodeDecode | include/isam/slam2d.h:52-64 | for non-empty, comma-free entry texts, splitting the braced output at commas gives back exactly the entries: no leading, trailing or doubled comma |
| SqrtInf.SqrtInfEntries | include/isam/slam2d.h:47-66 | for a square matrix whose entry texts are non-empty and comma-free, decoding the output gives exactly the upper-triangle entry texts in row-major order |
| Matrices.MulIdentity | include/isam/slam2d.h:132 | multiplying by the identity leaves a matrix unchanged |
| Matrices.MulVecZeros | include/isam/slam2d.h:135 | a matrix maps the zero vector to the zero vector |
| Residuals.PointPriorError | include/isam/slam2d.h:93-95 | the point prior's residual is the zero 2-vector exactly when the point equals the prior |
| Residuals.PosePriorError | include/isam/slam2d.h:126-130 | the pose prior's residual is zero exactly when x and y match the prior and the heading difference normalises to 0 |
| Residuals.HeadingResidual | include/isam/slam2d.h:213-214 | a pose difference with normalised heading is zero exactly when x, y match and the normalised heading difference is 0 |
| Residuals.RelativePoseError | include/isam/slam2d.h:201-216 | the relative-pose residual is zero exactly when the predicted relative pose matches the measurement. With 4 values the prediction is `(anchor2⊕p2)⊖(anchor1⊕p1)`, otherwise `p2⊖p1` |
| Residuals.ObservationError | include/isam/slam2d.h:289-295 | the observation residual is zero exactly when the point seen from the pose equals the measurement |
| Residuals.OdometryPredictionZeroesError | include/isam/slam2d.h:182-186 | the pose2 that `initialize()` predicts, `pose1⊕measure`, makes the two-node residual zero |
| Residuals.AnchorOffsetZeroesError | include/isam/slam2d.h:192-198 | the anchor2 that `Initialize` writes makes the four-node residual zero for any pose1, pose2 and anchor1 |
| Residuals.PredictPose2 | include/isam/slam2d.h:183-184 | the predicted pose2, `pose1.oplus(measure)`, seen from pose1 is exactly the measurement (in any group) |
| Residuals.AnchorAsWritten | include/isam/slam2d.h:193-196 | the value the source computes for anchor2, `measure.ominus(pose2.ominus(anchor1.oplus(pose1)))`, satisfies pose2 ⊕ anchor2 = (anchor1 ⊕ pose1) ⊕ measure: it composes the anchor on the right of pose2, where the residual at line 208 composes it on the left |
| Residuals.AnchorOffset | include/isam/slam2d.h:193-196 | the corrected anchor2 satisfies ((anchor2 ⊕ pose2) ⊖ (anchor1 ⊕ pose1)) = measure, the relation the anchored residual at line 208 checks (in any group) |
| Residuals.PredictLandmark | include/isam/slam2d.h:284-285 | the predicted point, `pose.transform_from(measure)`, carried back with `transform_to` is exactly the measurement (under the transform round-trip law) |
| Residuals.AnchorAsWrittenMissesMeasurement | include/isam/slam2d.h:196 | for pose1 = anchor1 = origin, measure = (1, 0, 0) and pose2 turned a quarter turn, the source's anchor2 leaves an x residual of -1 |
| Residuals.AnchorOffsetMeetsMeasurement | include/isam/slam2d.h:196 | at the same input, the corrected anchor2 leaves an x residual of 0 |
| Residuals.AnchorsAtOriginReduceToOdometry | include/isam/slam2d.h:205-212 | with both anchors at the origin, the four-node residual equals the two-node residual |
| Residuals.LandmarkPredictionZeroesError | include/isam/slam2d.h:283-287 | the point that `initialize()` predicts, `pose.transform_from(measure)`, makes the observation residual zero |
| Nodes.Node.Init | include/isam/slam2d.h:88-90 | `init()`, called at lines 90, 123, 185, 197 and 286 only on a node found uninitialised, leaves it initialised with exactly the given value |
| Slam2d.Pose1Partial | include/isam/slam2d.h:228-232 | the derivative with respect to pose1 is 3×3; its position block is the negation of the pose2 rotation block; with pose2 on pose1 at heading zero it is minus the identity |
| Slam2d.Rotation3 | include/isam/slam2d.h:234-238 | the derivative with respect to pose2 is 3×3, and it is the identity when the cosine is 1 and the sine 0 |
| Slam2d.LandmarkPosePartial | include/isam/slam2d.h:308-311 | the derivative with respect to the pose is 2×3; its position block is the negation of the point rotation block; for a landmark on the pose at heading zero it is minus the identity on position and zero on heading |
| Slam2d.Rotation2 | include/isam/slam2d.h:313-316 | the derivative with respect to the point is 2×2, and it is the identity when the cosine is 1 and the sine 0 |
| Slam2d.Point2dFactor.constructor | include/isam/slam2d.h:81-85 | the node list is [point]; name "Point2d_Factor", dimension 2 |
| Slam2d.Point2dFactor.Initialize | include/isam/slam2d.h:86-92 | an uninitialised point becomes initialised with value exactly the prior; an initialised one is unchanged |
| Slam2d.Point2dFactor.Write | include/isam/slam2d.h:96-99 | the output is the header, the prior and the `sqrtinf_to_string` text, or that function's failure |
| Slam2d.Pose2dFactor.constructor | include/isam/slam2d.h:114-118 | the node list is [pose]; name "Pose2d_Factor", dimension 3 |
| Slam2d.Pose2dFactor.Initialize | include/isam/slam2d.h:119-125 | an uninitialised pose becomes initialised with value exactly the prior; an initialised one is unchanged |
| Slam2d.Pose2dFactor.Jacobian | include/isam/slam2d.h:131-139 | one analytic term for the pose, whose block is the weighting matrix times the identity; the residual is the weighted basic error at the linearisation point |
| Slam2d.PosePriorResidualVanishesAtPrior | include/isam/slam2d.h:131-139 | linearised at the prior, the weighted residual is the zero vector |
| Slam2d.Pose2dFactor.Write | include/isam/slam2d.h:140-143 | the output is the header, the prior and the `sqrtinf_to_string` text, or that function's failure |
| Slam2d.Pose2dPose2dFactor.constructor | include/isam/slam2d.h:161-176 | requires both anchors absent or both present; the node list is [pose1, pose2], or [pose1, pose2, anchor1, anchor2] with anchors |
| Slam2d.Pose2dPose2dFactor.Make | include/isam/slam2d.h:165-166 | fails with the "either 0 or 2 anchor nodes" message exactly when one anchor is given; no factor is built and no node is touched; otherwise a fresh factor with the ordered node list |
| Slam2d.Pose2dPose2dFactor.Initialize | include/isam/slam2d.h:177-200 | aborts with the pose1 message and changes nothing if pose1 is uninitialised. An uninitialised pose2 becomes `pose1⊕measure`; an initialised one is untouched. With anchors: aborts with the anchor1 message exactly when anchor1 is uninitialised; an uninitialised anchor2 becomes `AnchorOffset` of pose1, pose2's new value and anchor1; an initialised anchor2 is untouched. pose1 is never written |
| Slam2d.Pose2dPose2dFactor.Jacobian | include/isam/slam2d.h:217-248 | generic (numerical) exactly when there are 4 nodes. Otherwise two terms, for pose1 and pose2, each the weighting matrix times the analytic derivative; the residual is the weighted two-node basic error |
| Slam2d.Pose2BlockAtZeroHeading | include/isam/slam2d.h:234-239 | when pose1's heading has cosine 1 and sine 0, the pose2 block is the weighting matrix itself |
| Slam2d.Pose2dPose2dFactor.Write | include/isam/slam2d.h:249-255 | the output is the header, the measurement and the matrix text; the two anchor ids are appended exactly when there are 4 nodes |
| Slam2d.Pose2dPoint2dFactor.constructor | include/isam/slam2d.h:271-277 | the node list is [pose, point]; name "Pose2d_Point2d_Factor", dimension 2 |
| Slam2d.Pose2dPoint2dFactor.Initialize | include/isam/slam2d.h:278-288 | aborts with the pose message and changes nothing exactly when the pose is uninitialised. Otherwise an uninitialised point becomes `pose.transform_from(measure)` and an initialised one is untouched; the pose is never written |
| Slam2d.Pose2dPoint2dFactor.Jacobian | include/isam/slam2d.h:296-324 | two terms, for pose and point, each the weighting matrix times the analytic derivative; the residual is the weighted basic error under the closed-form rigid transform |
| Slam2d.PointBlockAtZeroHeading | include/isam/slam2d.h:313-317 | when the pose's heading has cosine 1 and sine 0, the point block is the weighting matrix itself |
| Slam2d.ObservationResidualVanishesWhenConsistent | include/isam/slam2d.h:318-319 | when the point seen from the pose equals the observation, the weighted residual is the zero vector |
| Slam2d.Pose2dPoint2dFactor.Write | include/isam/slam2d.h:325-328 | the output is the header, the measurement and the `sqrtinf_to_string` text, or that function's failure |

## Left out

- `Factor::write` (the header), `operator<<` for poses, points and node ids, and the stream text of a `double` are
  parameters (`Formatter`). `Factor.h` is not part of this model.
- On a failed `require` in `sqrtinf_to_string`, the source has already written the header to the stream, and (from
  C++17 on, which fixes the left-to-right order of `<<` operands) the measurement as well. The model returns only the
  failure, not that partial output.
- `Pose2d.h`, `Point2d.h`, `Node.h` and `util.h` are not part of this model.
  - `oplus`, `ominus`, `transform_to`, `transform_from`, `standardRad`, `cos` and `sin` are parameters.
  - The group laws of composition and the transform round trip are hypotheses of the lemmas that need them, not
    proved facts.
  - `Rigid` spells out the closed-form rigid transform over the given `cos`, `sin` and `standardRad`. It is used
    only for the counterexample and for the landmark jacobian, whose arithmetic the source writes out inline.
- Floating point: every number is an exact `real`. Rounding, NaN and the numeric values of `cos` and `sin` are not
  modelled.
- Node values before linearisation (`value0()`, `vector0()`): the jacobians take the linearisation points as
  arguments.
- `Factor::jacobian()`, the generic numerical differentiation used for the anchored pose-to-pose factor, is
  represented only by the `Numerical` tag.
- `Residuals.RelativePoseError` and `Residuals.ObservationError` take the node values as a sequence of vectors, as the
  source does. The node-count dispatch is on the length of that sequence.
- Slam2d.Pose2dPose2dFactor.Initialize: writes `Residuals.AnchorOffset`, the value that zeroes the anchored residual,
  not the value the source writes at include/isam/slam2d.h:196; see Findings.
- The constructor's documentation (include/isam/slam2d.h:156-159) makes `measure` pose2 in pose1's frame and the
  anchors the offsets that tie the two trajectories together, so after initialisation the anchored residual at
  line 208 should vanish; the value written at line 196 does not achieve that, and the model keeps the documented
  relation (Findings).
- `include/isam/isam.h` holds only include lines and documentation, so there is nothing to model.

## Findings

| source | as written | input that shows it | evidently intended | confidence | as-written member | corrected member |
|---|---|---|---|---|---|---|
| include/isam/slam2d.h:196 | anchor2 := `measure.ominus(pose2.ominus(anchor1.oplus(pose1)))`, that is pose2⁻¹·(anchor1·pose1)·measure | pose1 = anchor1 = (0,0,0), measure = (1,0,0), pose2 = (0,0,π/2): the anchored residual's x entry is -1, not 0 | anchor2 := (anchor1·pose1·measure)·pose2⁻¹, which makes the anchored residual `(anchor2⊕pose2)⊖(anchor1⊕pose1) - measure` zero | not executed | Residuals.AnchorAsWrittenMissesMeasurement | Residuals.AnchorOffsetZeroesError |
