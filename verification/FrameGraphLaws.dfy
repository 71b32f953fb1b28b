/** What the transforms of a frame graph do to points: they carry coordinates along the stored
    edges, each of which takes coordinates of the child to coordinates of its parent. */
module FrameGraphLaws {
  import opened Wrappers
  import opened Geometry
  import opened FrameGraphs

  lemma OneStep(g: Frames, x: FrameId, p: FrameId)
    requires Edge(g, x, p)
    ensures IsWalk(g, [x, p]) && IsWalk(g, [p]) && Product(g, [x, p]) == g[x].edge
  {
    assert IsWalk(g, [p]);
    ConsWalk(g, x, [p]);
    assert [x] + [p] == [x, p] && [x, p][1..] == [p];
    ComposeIdentity(g[x].edge);
  }

  /** From parent to child the transform is the child's stored edge, in every frame map; from
      child to parent it is the inverse, unless the parent is a child of the child in turn. */
  lemma ParentToChild(g: Frames, x: FrameId, p: FrameId)
    requires x in g && p in g && g[x].parent == p && p != NIL && p != x
    ensures TransformOf(g, p, x) == Ok(g[x].edge)
    ensures !Reaches(g, p, x) && !Loops(g, p) ==> TransformOf(g, x, p) == Ok(Inverse(g[x].edge))
  {
    OneStep(g, x, p);
    assert FirstReach(g, [x, p], x, p);
    ReachValue(g, x, p, [x, p]);
  }

  /** A point in coordinates of the walk's first frame, carried edge by edge to coordinates of
      its last. */
  ghost function Carried(g: Frames, p: seq<FrameId>, v: Vec3): Vec3
    requires IsWalk(g, p)
  {
    if |p| == 1 then v
    else
      assert Edge(g, p[0], p[1]);
      TailIsWalk(g, p);
      Carried(g, p[1..], TransformPoint(g[p[0]].edge, v))
  }

  lemma {:induction false} ProductCarries(g: Frames, p: seq<FrameId>, v: Vec3)
    requires IsWalk(g, p) && RigidEdges(g)
    ensures TransformPoint(Product(g, p), v) == Carried(g, p, v)
    decreases |p|
  {
    if |p| == 1 {
      IdentityActs(v);
    } else {
      TailIsWalk(g, p);
      assert Edge(g, p[0], p[1]);
      var e := g[p[0]].edge;
      ProductRigid(g, p[1..]);
      ComposeActs(Product(g, p[1..]), e, v);
      ProductCarries(g, p[1..], TransformPoint(e, v));
    }
  }

  /** Transform(ancestor, frame) takes a point in coordinates of the frame to the coordinates
      of the ancestor, along the edges between them; Transform(frame, ancestor) takes it back. */
  lemma TransformCarries(g: Frames, order: seq<FrameId>, x: FrameId, top: FrameId, p: seq<FrameId>, v: Vec3)
    requires Topological(g, order) && RigidEdges(g) && x in g && top in g
    requires IsWalk(g, p) && p[0] == x && Last(p) == top
    ensures TransformOf(g, top, x).Ok? && TransformPoint(TransformOf(g, top, x).value, v) == Carried(g, p, v)
    ensures TransformOf(g, x, top).Ok? && TransformPoint(TransformOf(g, x, top).value, Carried(g, p, v)) == v
  {
    if x == top {
      assert IsWalk(g, [x]);
      WalkUnique(g, order, p, [x]);
      IdentityActs(v);
    } else {
      FirstAtTop(g, order, p);
      ReachValue(g, x, top, p);
      ProductCarries(g, p, v);
      ProductRigid(g, p);
      InverseUndoes(Product(g, p), v);
      NothingBelowTop(g, order, x, top, p);
      TopologicalNeverLoops(g, order, top);
    }
  }

  lemma FirstAtTop(g: Frames, order: seq<FrameId>, p: seq<FrameId>)
    requires Topological(g, order) && IsWalk(g, p)
    ensures FirstReach(g, p, p[0], Last(p))
  {
    forall i | 0 <= i < |p| - 1
      ensures p[i] != Last(p)
    {
      WalkDescends(g, order, p, i, |p| - 1);
    }
  }

  lemma NothingBelowTop(g: Frames, order: seq<FrameId>, x: FrameId, top: FrameId, p: seq<FrameId>)
    requires Topological(g, order) && IsWalk(g, p) && p[0] == x && Last(p) == top && x != top
    ensures !Reaches(g, top, x)
  {
    forall q | FirstReach(g, q, top, x)
      ensures false
    {
      WalkDescends(g, order, p, 0, |p| - 1);
      WalkDescends(g, order, q, 0, |q| - 1);
    }
  }
}
