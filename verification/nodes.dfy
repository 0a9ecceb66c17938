/** The unknowns a factor refers to. Only what the factors use is modelled:
    a unique id, the `initialized` flag and the current value, written once
    by `init` (Node.h is not part of this model). */
module Nodes {
  import opened Geometry

  class Node<V(0)> {
    const uid: int
    var initialized: bool
    var value: V

    constructor (uid: int)
      ensures this.uid == uid && !initialized
    {
      this.uid := uid;
      initialized := false;
    }

    /** One-time initialisation with a value. */
    method Init(v: V)
      requires !initialized
      modifies this
      ensures initialized && value == v
    {
      initialized := true;
      value := v;
    }
  }

  type PoseNode = Node<Pose2d>
  type PointNode = Node<Point2d>

  /** An entry of a factor's node list, tagged with the kind of node it
      refers to (what `dynamic_cast` recovers in the source). */
  datatype NodeRef = PoseRef(pose: PoseNode) | PointRef(point: PointNode) {
    function Obj(): object
    {
      if PoseRef? then pose else point
    }

    function Id(): int
    {
      if PoseRef? then pose.uid else point.uid
    }
  }

  /** The unique ids of a node list, in order. */
  function Ids(refs: seq<NodeRef>): (ids: seq<int>)
    ensures |ids| == |refs|
  {
    seq(|refs|, i requires 0 <= i < |refs| => refs[i].Id())
  }
}
