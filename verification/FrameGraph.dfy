/** The frame graph of core/coordinates/frame_graph.cpp: a parent-pointer forest with
    ancestor-path resolution, and the colour-marking cycle checker.

    Everything is stated about an arbitrary finite frame map, so that graphs loaded
    through InsertUnchecked (cycles, dangling parents) are covered. */
module FrameGraphs {
  import opened Wrappers
  import opened Geometry
  import opened Collections

  type FrameId = int

  /** The nil id; a frame with a nil parent is a root. */
  const NIL: FrameId := 0

  datatype Frame = Frame(id: FrameId, name: string, parent: FrameId, edge: SE3)

  datatype CoordError = FrameExists | FrameNotFound | FrameCycle | FrameDisconnected | MultipleRoots

  type Frames = map<FrameId, Frame>

  // ------------------------------------------------------------------------- walks

  /** The parent edge that starts at x exists and leads to y. */
  ghost predicate Edge(g: Frames, x: FrameId, y: FrameId) {
    x in g && g[x].parent != NIL && g[x].parent == y
  }

  /** p follows parent edges from p[0]; the last element need not be a frame. */
  ghost predicate IsWalk(g: Frames, p: seq<FrameId>) {
    && p != []
    && forall i :: 0 <= i < |p| - 1 ==> Edge(g, p[i], p[i + 1])
  }

  ghost function Last<T>(p: seq<T>): T
    requires p != []
  {
    p[|p| - 1]
  }

  /** Composition of the edges of a walk, outermost ancestor first. */
  ghost function Product(g: Frames, p: seq<FrameId>): SE3
    requires IsWalk(g, p)
  {
    if |p| == 1 then IDENTITY
    else
      assert Edge(g, p[0], p[1]);
      assert IsWalk(g, p[1..]) by { TailIsWalk(g, p); }
      Compose(Product(g, p[1..]), g[p[0]].edge)
  }

  lemma TailIsWalk(g: Frames, p: seq<FrameId>)
    requires IsWalk(g, p) && |p| > 1
    ensures IsWalk(g, p[1..])
  {
    var t := p[1..];
    forall i | 0 <= i < |t| - 1
      ensures Edge(g, t[i], t[i + 1])
    {
      assert Edge(g, p[i + 1], p[i + 1 + 1]);
    }
  }

  /** p is the walk from x up to the first occurrence of top. */
  ghost predicate FirstReach(g: Frames, p: seq<FrameId>, x: FrameId, top: FrameId) {
    && IsWalk(g, p) && p[0] == x && Last(p) == top
    && forall i :: 0 <= i < |p| - 1 ==> p[i] != top
  }

  ghost predicate Reaches(g: Frames, x: FrameId, top: FrameId) {
    exists p :: FirstReach(g, p, x, top)
  }

  /** The walk from x runs into itself. */
  ghost predicate Loops(g: Frames, x: FrameId) {
    exists p :: IsWalk(g, p) && p[0] == x && Last(p) in p[..|p| - 1]
  }

  /** The walk from x ends at an existing frame without a parent. */
  ghost predicate Grounded(g: Frames, x: FrameId) {
    exists p :: IsWalk(g, p) && p[0] == x && Last(p) in g && g[Last(p)].parent == NIL
  }

  /** What Transform returns, for every frame map. */
  ghost function TransformOf(g: Frames, from: FrameId, to: FrameId): Result<SE3, CoordError> {
    if from == to then Ok(IDENTITY)
    else if from !in g || to !in g then Err(FrameNotFound)
    else if Reaches(g, to, from) then
      var p :| FirstReach(g, p, to, from);
      Ok(Product(g, p))
    else if Loops(g, to) then Err(FrameCycle)
    else if Reaches(g, from, to) then
      var p :| FirstReach(g, p, from, to);
      Ok(Inverse(Product(g, p)))
    else if Loops(g, from) then Err(FrameCycle)
    else Err(FrameDisconnected)
  }

  // Walks are determined by where they start.

  lemma {:induction false} WalkPrefix(g: Frames, p: seq<FrameId>, q: seq<FrameId>, i: nat)
    requires IsWalk(g, p) && IsWalk(g, q) && p[0] == q[0]
    requires i < |p| && i < |q|
    ensures p[i] == q[i]
  {
    if i > 0 {
      WalkPrefix(g, p, q, i - 1);
      assert Edge(g, p[i - 1], p[i - 1 + 1]) && Edge(g, q[i - 1], q[i - 1 + 1]);
    }
  }

  lemma FirstReachUnique(g: Frames, p: seq<FrameId>, q: seq<FrameId>, x: FrameId, top: FrameId)
    requires FirstReach(g, p, x, top) && FirstReach(g, q, x, top)
    ensures p == q
  {
    forall i | 0 <= i < |p| && i < |q|
      ensures p[i] == q[i]
    {
      WalkPrefix(g, p, q, i);
    }
    assert q[|q| - 1] == top && p[|p| - 1] == top;
  }

  /** A set of frames whose parents are all in the set again. */
  ghost predicate Closed(g: Frames, s: set<FrameId>) {
    forall x :: x in s ==> StaysIn(g, s, x)
  }

  ghost predicate StaysIn(g: Frames, s: set<FrameId>, x: FrameId) {
    x in g && g[x].parent != NIL && g[x].parent in s
  }

  ghost function SetOf(p: seq<FrameId>): set<FrameId> {
    set x | x in p
  }

  lemma {:induction false} ClosedTraps(g: Frames, s: set<FrameId>, p: seq<FrameId>, i: nat)
    requires Closed(g, s) && IsWalk(g, p) && p[0] in s && i < |p|
    ensures p[i] in s
  {
    if i > 0 {
      ClosedTraps(g, s, p, i - 1);
      assert Edge(g, p[i - 1], p[i - 1 + 1]);
    }
  }

  lemma ClosedNotGrounded(g: Frames, s: set<FrameId>, x: FrameId)
    requires Closed(g, s) && x in s
    ensures !Grounded(g, x)
  {
    forall p | IsWalk(g, p) && p[0] == x
      ensures Last(p) in g && g[Last(p)].parent != NIL
    {
      ClosedTraps(g, s, p, |p| - 1);
      assert StaysIn(g, s, Last(p));
    }
  }

  lemma ClosedNotReaching(g: Frames, s: set<FrameId>, x: FrameId, top: FrameId)
    requires Closed(g, s) && x in s && top !in s
    ensures !Reaches(g, x, top)
  {
    forall p | IsWalk(g, p) && p[0] == x
      ensures Last(p) != top
    {
      ClosedTraps(g, s, p, |p| - 1);
    }
  }

  /** A walk that stops at a frame without an outgoing edge is the longest one. */
  lemma StoppedWalk(g: Frames, p: seq<FrameId>, q: seq<FrameId>)
    requires IsWalk(g, p) && IsWalk(g, q) && p[0] == q[0]
    requires Last(p) !in g || g[Last(p)].parent == NIL
    ensures |q| <= |p| && q == p[..|q|]
  {
    var k := |p| - 1;
    if k + 1 < |q| {
      assert Edge(g, q[k], q[k + 1]);
      WalkPrefix(g, p, q, k);
      assert false;
    }
    forall i | 0 <= i < |q|
      ensures q[i] == p[i]
    {
      WalkPrefix(g, q, p, i);
    }
  }

  lemma JoinWalks(g: Frames, p: seq<FrameId>, q: seq<FrameId>)
    requires IsWalk(g, p) && IsWalk(g, q) && Last(p) == q[0]
    ensures IsWalk(g, p + q[1..]) && Last(p + q[1..]) == Last(q)
  {
    var r := p + q[1..];
    forall i | 0 <= i < |r| - 1
      ensures Edge(g, r[i], r[i + 1])
    {
      if i < |p| - 1 {
        assert Edge(g, p[i], p[i + 1]);
      } else {
        var k := i - (|p| - 1);
        assert Edge(g, q[k], q[k + 1]);
        assert r[i] == q[k];
      }
    }
  }

  lemma SuffixIsWalk(g: Frames, p: seq<FrameId>, i: nat)
    requires IsWalk(g, p) && i < |p|
    ensures IsWalk(g, p[i..]) && Last(p[i..]) == Last(p)
  {
    var t := p[i..];
    forall k | 0 <= k < |t| - 1
      ensures Edge(g, t[k], t[k + 1])
    {
      assert Edge(g, p[i + k], p[i + k + 1]);
    }
  }

  /** Everything on a walk to a grounded frame is grounded. */
  lemma GroundedPath(g: Frames, path: seq<FrameId>)
    requires IsWalk(g, path) && Grounded(g, Last(path))
    ensures forall x :: x in SetOf(path) ==> Grounded(g, x)
  {
    var q :| IsWalk(g, q) && q[0] == Last(path) && Last(q) in g && g[Last(q)].parent == NIL;
    forall x | x in SetOf(path)
      ensures Grounded(g, x)
    {
      var i :| 0 <= i < |path| && path[i] == x;
      SuffixIsWalk(g, path, i);
      JoinWalks(g, path[i..], q);
      assert (path[i..] + q[1..])[0] == x;
    }
  }

  /** A walk out of the frame map: its start is not grounded. */
  lemma DanglingNotGrounded(g: Frames, path: seq<FrameId>)
    requires IsWalk(g, path) && Last(path) !in g
    ensures !Grounded(g, path[0])
  {
    forall q | IsWalk(g, q) && q[0] == path[0]
      ensures !(Last(q) in g && g[Last(q)].parent == NIL)
    {
      StoppedWalk(g, path, q);
      if |q| < |path| {
        assert Edge(g, path[|q| - 1], path[|q| - 1 + 1]);
      }
    }
  }

  lemma InitOfExtended(path: seq<FrameId>, y: FrameId)
    requires path != []
    ensures (path + [y])[..|path + [y]| - 1] == path
    ensures path == path[..|path| - 1] + [Last(path)]
    ensures SetOf(path) == SetOf(path[..|path| - 1]) + {Last(path)}
  {
    var init := path[..|path| - 1];
    assert path == init + [Last(path)];
    assert forall x :: x in path <==> x in init || x == Last(path);
  }

  lemma AppendDisjoint(p: seq<FrameId>, q: seq<FrameId>)
    requires NoRepeats(p) && NoRepeats(q) && SetOf(p) !! SetOf(q)
    ensures NoRepeats(p + q) && SetOf(p + q) == SetOf(p) + SetOf(q)
  {
    forall i, j | 0 <= i < j < |p + q|
      ensures (p + q)[i] != (p + q)[j]
    {
      assert i < |p| ==> p[i] in SetOf(p);
      assert j >= |p| ==> q[j - |p|] in SetOf(q);
    }
  }

  lemma GreyOne(g: Frames, marks: seq<FrameId>, grey: set<FrameId>, x: FrameId)
    requires NoRepeats(marks) && SetOf(marks) == grey && x in g && x !in grey
    ensures NoRepeats(marks + [x]) && SetOf(marks + [x]) == grey + {x}
    ensures |g.Keys - (grey + {x})| < |g.Keys - grey|
  {
    AppendDisjoint(marks, [x]);
    assert g.Keys - grey == (g.Keys - (grey + {x})) + {x};
  }

  lemma RootGrounded(g: Frames, x: FrameId)
    requires x in g && g[x].parent == NIL
    ensures Grounded(g, x)
  {
    assert IsWalk(g, [x]) && Last([x]) == x;
  }

  ghost predicate NoRepeats(p: seq<FrameId>) {
    forall i, j :: 0 <= i < j < |p| ==> p[i] != p[j]
  }

  lemma ExtendWalk(g: Frames, p: seq<FrameId>, y: FrameId)
    requires IsWalk(g, p) && Edge(g, Last(p), y)
    ensures IsWalk(g, p + [y])
  {
    var q := p + [y];
    forall i | 0 <= i < |q| - 1
      ensures Edge(g, q[i], q[i + 1])
    {
      if i < |p| - 1 {
        assert Edge(g, p[i], p[i + 1]);
      }
    }
  }

  lemma ConsWalk(g: Frames, x: FrameId, p: seq<FrameId>)
    requires IsWalk(g, p) && Edge(g, x, p[0])
    ensures IsWalk(g, [x] + p)
  {
    var q := [x] + p;
    forall i | 0 <= i < |q| - 1
      ensures Edge(g, q[i], q[i + 1])
    {
      if i > 0 {
        assert Edge(g, p[i - 1], p[i - 1 + 1]);
      }
    }
  }

  lemma {:induction false} ProductExtend(g: Frames, p: seq<FrameId>, q: seq<FrameId>)
    requires IsWalk(g, p) && IsWalk(g, q) && Last(p) == q[0]
    requires RigidEdges(g)
    ensures IsWalk(g, p + q[1..])
    ensures Rigid(Product(g, p)) && Rigid(Product(g, q))
    ensures Product(g, p + q[1..]) == Compose(Product(g, q), Product(g, p))
    decreases |p|
  {
    ProductRigid(g, p);
    ProductRigid(g, q);
    var r := p + q[1..];
    if |p| == 1 {
      assert r == q;
      ComposeIdentity(Product(g, q));
    } else {
      TailIsWalk(g, p);
      assert Edge(g, p[0], p[1]);
      ProductExtend(g, p[1..], q);
      TailOfConcat(p, q[1..]);
      ConsWalk(g, p[0], r[1..]);
      ProductRigid(g, p[1..]);
      ComposeAssoc(Product(g, q), Product(g, p[1..]), g[p[0]].edge);
    }
  }

  ghost predicate RigidEdges(g: Frames) {
    forall x :: x in g ==> Rigid(g[x].edge)
  }

  lemma {:induction false} ProductRigid(g: Frames, p: seq<FrameId>)
    requires IsWalk(g, p) && RigidEdges(g)
    ensures Rigid(Product(g, p))
    decreases |p|
  {
    if |p| > 1 {
      TailIsWalk(g, p);
      assert Edge(g, p[0], p[1]);
      ProductRigid(g, p[1..]);
      ComposeRigid(Product(g, p[1..]), g[p[0]].edge);
    }
  }

  // ------------------------------------------------------- graphs built by AddFrame

  /** The insertion order lists every frame once, parents before children. */
  ghost predicate Topological(g: Frames, order: seq<FrameId>) {
    && NoRepeats(order)
    && (forall x :: x in g <==> x in order)
    && (forall x :: x in g ==> g[x].id == x)
    && (forall i :: 0 <= i < |order| ==> g[order[i]].parent == NIL || g[order[i]].parent in order[..i])
  }

  ghost function Index(order: seq<FrameId>, x: FrameId): (i: nat)
    requires x in order
    ensures i < |order| && order[i] == x
  {
    if order[0] == x then 0 else Index(order[1..], x) + 1
  }

  /** Along a walk the insertion index falls. */
  lemma {:induction false} WalkDescends(g: Frames, order: seq<FrameId>, p: seq<FrameId>, i: nat, j: nat)
    requires Topological(g, order) && IsWalk(g, p) && i < j < |p|
    ensures p[i] in order && p[j] in order && Index(order, p[j]) < Index(order, p[i])
    decreases j
  {
    if i + 1 < j {
      WalkDescends(g, order, p, i, j - 1);
    }
    var x, y := p[j - 1], p[j - 1 + 1];
    assert Edge(g, x, y);
    var k := Index(order, x);
    assert y in order[..k];
    var m :| 0 <= m < k && order[m] == y;
    assert Index(order, y) == m;
  }

  lemma TopologicalNeverLoops(g: Frames, order: seq<FrameId>, x: FrameId)
    requires Topological(g, order)
    ensures !Loops(g, x)
  {
    forall p | IsWalk(g, p) && p[0] == x
      ensures Last(p) !in p[..|p| - 1]
    {
      forall i | 0 <= i < |p| - 1
        ensures p[i] != Last(p)
      {
        WalkDescends(g, order, p, i, |p| - 1);
      }
    }
  }

  /** Every walk can be continued to a root. */
  lemma {:induction false} TopologicalGrounded(g: Frames, order: seq<FrameId>, x: FrameId) returns (p: seq<FrameId>)
    requires Topological(g, order) && x in g
    ensures IsWalk(g, p) && p[0] == x && Last(p) in g && g[Last(p)].parent == NIL
    decreases Index(order, x)
  {
    if g[x].parent == NIL {
      p := [x];
    } else {
      var y := g[x].parent;
      assert Edge(g, x, y);
      ConsWalk(g, x, [y]);
      WalkDescends(g, order, [x, y], 0, 1);
      var q := TopologicalGrounded(g, order, y);
      ConsWalk(g, x, q);
      p := [x] + q;
    }
  }

  // ------------------------------------------------------------- the composition law

  /** The transform from the top of a chain down to x. */
  ghost predicate Below(g: Frames, top: FrameId, x: FrameId, m: SE3) {
    exists p :: IsWalk(g, p) && p[0] == x && Last(p) == top && m == Product(g, p)
  }

  /** Any two walks between the same frames coincide. */
  lemma WalkUnique(g: Frames, order: seq<FrameId>, p: seq<FrameId>, q: seq<FrameId>)
    requires Topological(g, order) && IsWalk(g, p) && IsWalk(g, q) && p[0] == q[0] && Last(p) == Last(q)
    ensures p == q
  {
    if |p| < |q| {
      WalkPrefix(g, p, q, |p| - 1);
      WalkDescends(g, order, q, |p| - 1, |q| - 1);
    } else if |q| < |p| {
      WalkPrefix(g, p, q, |q| - 1);
      WalkDescends(g, order, p, |q| - 1, |p| - 1);
    }
    forall i | 0 <= i < |p| && i < |q|
      ensures p[i] == q[i]
    {
      WalkPrefix(g, p, q, i);
    }
  }

  ghost predicate Up(g: Frames, x: FrameId, top: FrameId) {
    exists m :: Below(g, top, x, m)
  }

  lemma UpByWalk(g: Frames, p: seq<FrameId>)
    requires IsWalk(g, p)
    ensures Up(g, p[0], Last(p))
  {
    assert Below(g, Last(p), p[0], Product(g, p));
  }

  lemma UpTransitive(g: Frames, x: FrameId, y: FrameId, z: FrameId)
    requires RigidEdges(g) && Up(g, x, y) && Up(g, y, z)
    ensures Up(g, x, z)
  {
    var m :| Below(g, y, x, m);
    var n :| Below(g, z, y, n);
    var p :| IsWalk(g, p) && p[0] == x && Last(p) == y && m == Product(g, p);
    var q :| IsWalk(g, q) && q[0] == y && Last(q) == z && n == Product(g, q);
    ProductExtend(g, p, q);
    UpByWalk(g, p + q[1..]);
  }

  /** With the walk p from x to y, the transforms from any common top differ by p's product. */
  lemma ChainSplits(g: Frames, order: seq<FrameId>, top: FrameId, p: seq<FrameId>, a: SE3, b: SE3)
    requires Topological(g, order) && RigidEdges(g) && IsWalk(g, p)
    requires Below(g, top, p[0], a) && Below(g, top, Last(p), b)
    ensures Rigid(a) && Rigid(b) && Rigid(Product(g, p))
    ensures a == Compose(b, Product(g, p))
  {
    var q :| IsWalk(g, q) && q[0] == p[0] && Last(q) == top && a == Product(g, q);
    var r :| IsWalk(g, r) && r[0] == Last(p) && Last(r) == top && b == Product(g, r);
    ProductExtend(g, p, r);
    ProductRigid(g, q);
    WalkUnique(g, order, p + r[1..], q);
  }

  /** Transform(x, y), written with the transforms from a common top. */
  lemma TransformThroughTop(g: Frames, order: seq<FrameId>, top: FrameId,
                            x: FrameId, y: FrameId, a: SE3, b: SE3)
    requires Topological(g, order) && RigidEdges(g)
    requires Below(g, top, x, a) && Below(g, top, y, b) && TransformOf(g, x, y).Ok?
    ensures Rigid(a) && Rigid(b)
    ensures TransformOf(g, x, y).value == Compose(Inverse(a), b)
  {
    TopologicalNeverLoops(g, order, x);
    TopologicalNeverLoops(g, order, y);
    if x == y {
      assert IsWalk(g, [x]);
      ChainSplits(g, order, top, [x], a, b);
      ComposeIdentity(b);
      InverseCancels(a);
    } else if Reaches(g, y, x) {
      var p :| FirstReach(g, p, y, x) && TransformOf(g, x, y) == Ok(Product(g, p));
      ChainSplits(g, order, top, p, b, a);
      InverseCancels(a);
      ComposeAssoc(Inverse(a), a, Product(g, p));
      ComposeIdentity(Product(g, p));
    } else {
      var p :| FirstReach(g, p, x, y) && TransformOf(g, x, y) == Ok(Inverse(Product(g, p)));
      ChainSplits(g, order, top, p, a, b);
      var m := Product(g, p);
      InverseCompose(b, m);
      InverseCancels(b);
      InverseCancels(m);
      ComposeAssoc(Inverse(m), Inverse(b), b);
      ComposeIdentity(Inverse(m));
    }
  }

  lemma TransformComparable(g: Frames, x: FrameId, y: FrameId)
    requires TransformOf(g, x, y).Ok?
    ensures Up(g, x, y) || Up(g, y, x)
  {
    if x == y {
      UpByWalk(g, [x]);
    } else if Reaches(g, y, x) {
      var p :| FirstReach(g, p, y, x);
      UpByWalk(g, p);
    } else {
      var p :| FirstReach(g, p, x, y);
      UpByWalk(g, p);
    }
  }

  /** Three pairwise resolvable frames lie on one ancestor chain. */
  lemma CommonTop(g: Frames, a: FrameId, b: FrameId, c: FrameId) returns (top: FrameId)
    requires RigidEdges(g)
    requires TransformOf(g, a, b).Ok? && TransformOf(g, b, c).Ok? && TransformOf(g, a, c).Ok?
    ensures Up(g, a, top) && Up(g, b, top) && Up(g, c, top)
  {
    TransformComparable(g, a, b);
    TransformComparable(g, b, c);
    TransformComparable(g, a, c);
    UpByWalk(g, [a]);
    UpByWalk(g, [b]);
    UpByWalk(g, [c]);
    if Up(g, b, a) {
      if Up(g, c, a) {
        top := a;
      } else {
        UpTransitive(g, b, a, c);
        top := c;
      }
    } else if Up(g, c, b) {
      top := b;
    } else {
      UpTransitive(g, a, b, c);
      top := c;
    }
  }

  /** On one ancestor chain, in any order: Transform(a, c) = Transform(a, b) * Transform(b, c). */
  lemma CompositionLaw(g: Frames, order: seq<FrameId>, a: FrameId, b: FrameId, c: FrameId)
    requires Topological(g, order) && RigidEdges(g)
    requires TransformOf(g, a, b).Ok? && TransformOf(g, b, c).Ok? && TransformOf(g, a, c).Ok?
    ensures TransformOf(g, a, c).value == Compose(TransformOf(g, a, b).value, TransformOf(g, b, c).value)
  {
    var top := CommonTop(g, a, b, c);
    var x :| Below(g, top, a, x);
    var y :| Below(g, top, b, y);
    var z :| Below(g, top, c, z);
    TransformThroughTop(g, order, top, a, b, x, y);
    TransformThroughTop(g, order, top, b, c, y, z);
    TransformThroughTop(g, order, top, a, c, x, z);
    InverseCancels(x);
    InverseCancels(y);
    ComposeRigid(Inverse(y), z);
    ComposeAssoc(Inverse(x), y, Compose(Inverse(y), z));
    ComposeAssoc(y, Inverse(y), z);
    ComposeIdentity(z);
  }

  /** Reversing the arguments inverts the transform. */
  lemma InverseLaw(g: Frames, order: seq<FrameId>, a: FrameId, b: FrameId)
    requires Topological(g, order) && RigidEdges(g) && TransformOf(g, a, b).Ok?
    ensures TransformOf(g, b, a).Ok?
    ensures Compose(TransformOf(g, a, b).value, TransformOf(g, b, a).value) == IDENTITY
    ensures Compose(TransformOf(g, b, a).value, TransformOf(g, a, b).value) == IDENTITY
  {
    TopologicalNeverLoops(g, order, a);
    TopologicalNeverLoops(g, order, b);
    CompositionLaw(g, order, a, b, a);
    CompositionLaw(g, order, b, a, b);
  }

  // ------------------------------------------------------------------- the graph object

  datatype Climb = Reached | Stopped | Cyclic

  datatype Validation = Accepted | Rejected(error: CoordError)

  ghost predicate IsRoot(g: Frames, x: FrameId) {
    x in g && g[x].parent == NIL
  }

  /** What Root returns or throws, for every frame map. */
  ghost predicate RootOf(g: Frames, r: Result<FrameId, CoordError>) {
    match r
    case Ok(x) => IsRoot(g, x) && forall y :: IsRoot(g, y) ==> y == x
    case Err(FrameNotFound) => forall y :: !IsRoot(g, y)
    case Err(MultipleRoots) => exists x, y :: IsRoot(g, x) && IsRoot(g, y) && x != y
    case Err(_) => false
  }

  class FrameGraph {
    var frames: Frames
    var order: seq<FrameId>

    constructor ()
      ensures frames == map[] && order == [] && Topological(frames, order)
    {
      frames := map[];
      order := [];
    }

    /** Registers a frame. A rejected frame leaves the graph alone; accepted frames keep
        the insertion order topological and duplicate-free. */
    method AddFrame(frame: Frame) returns (r: Result<(), CoordError>)
      modifies this
      ensures r == (if frame.id in old(frames) then Err(FrameExists)
                    else if frame.parent != NIL && frame.parent !in old(frames) then Err(FrameNotFound)
                    else Ok(()))
      ensures r.Err? ==> frames == old(frames) && order == old(order)
      ensures r.Ok? ==> frames == old(frames)[frame.id := frame] && order == old(order) + [frame.id]
      ensures old(Topological(frames, order)) ==> Topological(frames, order)
      ensures old(RigidEdges(frames)) && Rigid(frame.edge) ==> RigidEdges(frames)
    {
      if frame.id in frames {
        return Err(FrameExists);
      }
      if frame.parent != NIL && frame.parent !in frames {
        return Err(FrameNotFound);
      }
      ghost var g, o := frames, order;
      frames := frames[frame.id := frame];
      order := order + [frame.id];
      if Topological(g, o) {
        InsertTopological(g, o, frame);
      }
      return Ok(());
    }

    /** The invariant-bypassing insert: an id that is present keeps its old frame, and the
        id is appended to the order all the same. */
    method InsertUnchecked(frame: Frame)
      modifies this
      ensures frames == if frame.id in old(frames) then old(frames) else old(frames)[frame.id := frame]
      ensures order == old(order) + [frame.id]
    {
      if frame.id !in frames {
        frames := frames[frame.id := frame];
      }
      order := order + [frame.id];
    }

    method Root() returns (r: Result<FrameId, CoordError>)
      ensures RootOf(frames, r)
    {
      var root := NIL;
      var found := false;
      var rest := frames.Keys;
      while rest != {}
        invariant rest <= frames.Keys
        invariant found ==> IsRoot(frames, root) && root !in rest
        invariant forall y :: IsRoot(frames, y) && y !in rest ==> found && y == root
        decreases |rest|
      {
        var id := Pick(rest);
        rest := rest - {id};
        if frames[id].parent == NIL {
          assert IsRoot(frames, id);
          if found {
            return Err(MultipleRoots);
          }
          root := id;
          found := true;
        }
      }
      if !found {
        return Err(FrameNotFound);
      }
      return Ok(root);
    }

    /** The climbing loop of Transform: follows parents from start until target and
        collects the edges bottom-up. */
    method ClimbTo(start: FrameId, target: FrameId)
      returns (outcome: Climb, edges: seq<SE3>, ghost path: seq<FrameId>)
      requires start != target
      ensures outcome.Reached? <==> Reaches(frames, start, target)
      ensures outcome.Reached? ==> FirstReach(frames, path, start, target) && IsEdges(frames, path, edges)
      ensures outcome.Cyclic? ==> Loops(frames, start)
      ensures outcome.Stopped? ==> !Loops(frames, start)
    {
      edges := [];
      var visited: set<FrameId> := {};
      var current := start;
      path := [start];
      while current != target
        invariant Climbing(frames, path, visited, target)
        invariant path[0] == start && Last(path) == current
        invariant IsEdges(frames, path, edges)
        decreases |frames.Keys - visited|
      {
        if current !in frames || frames[current].parent == NIL {
          StoppedNowhere(frames, path, target);
          return Stopped, edges, path;
        }
        if current in visited {
          CyclicNowhere(frames, path, visited, target);
          return Cyclic, edges, path;
        }
        var next := frames[current].parent;
        ClimbStep(frames, path, edges, visited, target);
        edges := edges + [frames[current].edge];
        visited := visited + {current};
        path := path + [next];
        current := next;
      }
      assert FirstReach(frames, path, start, target);
      outcome := Reached;
    }

    /** The composing loop of Transform: the collected edges, last one first. */
    method ComposeEdges(edges: seq<SE3>, ghost path: seq<FrameId>) returns (product: SE3)
      requires IsWalk(frames, path) && IsEdges(frames, path, edges)
      ensures product == Product(frames, path)
    {
      product := IDENTITY;
      var i := |edges|;
      assert path[i..] == [Last(path)];
      while i > 0
        invariant 0 <= i <= |edges|
        invariant IsWalk(frames, path[i..]) && product == Product(frames, path[i..])
      {
        i := i - 1;
        product := Compose(product, edges[i]);
        SuffixIsWalk(frames, path, i);
        assert path[i..][1..] == path[i + 1..];
      }
      assert path[0..] == path;
    }

    /** The inner traversal of ValidateAcyclic: greys frames upwards from start until it
        meets a black frame or a root, or fails on a dangling parent or a grey frame. */
    method GreyPath(start: FrameId, black: set<FrameId>)
      returns (ok: bool, grey: set<FrameId>, ghost marks: seq<FrameId>)
      requires start in frames && start !in black && black <= frames.Keys
      requires forall x :: x in black ==> Grounded(frames, x)
      ensures !ok ==> !Grounded(frames, start)
      ensures ok ==> start in grey && forall x :: x in grey ==> Grounded(frames, x)
      ensures NoRepeats(marks) && SetOf(marks) == grey && grey !! black && grey <= frames.Keys
    {
      grey := {};
      marks := [];
      var current := start;
      while true
        invariant IsWalk(frames, marks + [current]) && (marks + [current])[0] == start
        invariant NoRepeats(marks) && SetOf(marks) == grey && grey !! black && grey <= frames.Keys
        decreases |frames.Keys - grey|
      {
        ghost var path := marks + [current];
        if current !in frames {
          DanglingNotGrounded(frames, path);
          return false, grey, marks;
        }
        if current in black {
          GroundedPath(frames, path);
          assert start in marks;
          return true, grey, marks;
        }
        if current in grey {
          assert path[..|path| - 1] == marks;
          VisitedClosed(frames, path, grey);
          ClosedNotGrounded(frames, grey, start);
          return false, grey, marks;
        }
        GreyOne(frames, marks, grey, current);
        grey := grey + {current};
        marks := path;
        if frames[current].parent == NIL {
          RootGrounded(frames, current);
          GroundedPath(frames, path);
          assert start in marks;
          return true, grey, marks;
        }
        ExtendWalk(frames, path, frames[current].parent);
        current := frames[current].parent;
      }
    }

    /** The colour-marking checker. Each frame is greyed at most once. */
    method ValidateAcyclic() returns (ok: bool, ghost greyed: seq<FrameId>)
      ensures ok <==> forall x :: x in frames ==> Grounded(frames, x)
      ensures NoRepeats(greyed) && SetOf(greyed) <= frames.Keys
    {
      var black: set<FrameId> := {};
      greyed := [];
      var rest := frames.Keys;
      while rest != {}
        invariant rest <= frames.Keys && frames.Keys - rest <= black <= frames.Keys
        invariant forall x :: x in black ==> Grounded(frames, x)
        invariant NoRepeats(greyed) && SetOf(greyed) == black
        decreases |rest|
      {
        var start := Pick(rest);
        rest := rest - {start};
        if start in black {
          continue;
        }
        var fine, grey, marks := GreyPath(start, black);
        AppendDisjoint(greyed, marks);
        greyed := greyed + marks;
        if !fine {
          return false, greyed;
        }
        black := black + grey;
      }
      return true, greyed;
    }

    method Transform(from: FrameId, to: FrameId) returns (r: Result<SE3, CoordError>)
      ensures r == TransformOf(frames, from, to)
    {
      if from == to {
        return Ok(IDENTITY);
      }
      if from !in frames {
        return Err(FrameNotFound);
      }
      if to !in frames {
        return Err(FrameNotFound);
      }
      var outcome, edges, path := ClimbTo(to, from);
      if outcome == Reached {
        var product := ComposeEdges(edges, path);
        forall p | FirstReach(frames, p, to, from)
          ensures p == path
        {
          FirstReachUnique(frames, p, path, to, from);
        }
        return Ok(product);
      }
      if outcome == Cyclic {
        return Err(FrameCycle);
      }
      outcome, edges, path := ClimbTo(from, to);
      if outcome == Reached {
        var product := ComposeEdges(edges, path);
        forall p | FirstReach(frames, p, from, to)
          ensures p == path
        {
          FirstReachUnique(frames, p, path, from, to);
        }
        return Ok(Inverse(product));
      }
      if outcome == Cyclic {
        return Err(FrameCycle);
      }
      return Err(FrameDisconnected);
    }
  }

  /** The edges along a walk, bottom-up. */
  ghost predicate IsEdges(g: Frames, path: seq<FrameId>, edges: seq<SE3>) {
    && |edges| + 1 == |path|
    && forall i :: 0 <= i < |edges| ==> path[i] in g && edges[i] == g[path[i]].edge
  }

  /** The climbing loop's state: the walk so far, its visited frames, the target not met yet. */
  ghost predicate Climbing(g: Frames, path: seq<FrameId>, visited: set<FrameId>, target: FrameId) {
    && IsWalk(g, path)
    && visited == SetOf(path[..|path| - 1]) && visited <= g.Keys
    && target !in path[..|path| - 1]
  }

  lemma EdgesGrow(g: Frames, path: seq<FrameId>, edges: seq<SE3>, y: FrameId)
    requires path != [] && IsEdges(g, path, edges) && Last(path) in g
    ensures IsEdges(g, path + [y], edges + [g[Last(path)].edge])
  {
  }

  lemma FewerLeft<T>(all: set<T>, visited: set<T>, x: T)
    requires x in all && x !in visited
    ensures |all - (visited + {x})| < |all - visited|
  {
    assert all - visited == (all - (visited + {x})) + {x};
  }

  lemma ClimbStep(g: Frames, path: seq<FrameId>, edges: seq<SE3>, visited: set<FrameId>, target: FrameId)
    requires Climbing(g, path, visited, target) && IsEdges(g, path, edges)
    requires Last(path) != target && Last(path) !in visited
    requires Last(path) in g && g[Last(path)].parent != NIL
    ensures Climbing(g, path + [g[Last(path)].parent], visited + {Last(path)}, target)
    ensures IsEdges(g, path + [g[Last(path)].parent], edges + [g[Last(path)].edge])
    ensures |g.Keys - (visited + {Last(path)})| < |g.Keys - visited|
  {
    var next := g[Last(path)].parent;
    ExtendWalk(g, path, next);
    InitOfExtended(path, next);
    EdgesGrow(g, path, edges, next);
    FewerLeft(g.Keys, visited, Last(path));
  }

  lemma InsertTopological(g: Frames, order: seq<FrameId>, frame: Frame)
    requires Topological(g, order) && frame.id !in g
    requires frame.parent == NIL || frame.parent in g
    ensures Topological(g[frame.id := frame], order + [frame.id])
  {
    var h, o := g[frame.id := frame], order + [frame.id];
    forall i | 0 <= i < |o|
      ensures h[o[i]].parent == NIL || h[o[i]].parent in o[..i]
    {
      if i < |order| {
        assert o[..i] == order[..i];
        assert o[i] == order[i] && order[i] in g;
      } else {
        assert o[..i] == order;
      }
    }
  }

  /** The climb ran out of parents: it neither meets the target nor loops. */
  lemma StoppedNowhere(g: Frames, path: seq<FrameId>, target: FrameId)
    requires IsWalk(g, path) && (Last(path) !in g || g[Last(path)].parent == NIL)
    requires target !in path
    ensures !Reaches(g, path[0], target) && !Loops(g, path[0])
  {
    forall p | IsWalk(g, p) && p[0] == path[0]
      ensures Last(p) != target && Last(p) !in p[..|p| - 1]
    {
      StoppedWalk(g, path, p);
      forall i | 0 <= i < |p| - 1
        ensures p[i] != Last(p)
      {
        StoppedRepeats(g, path, i, |p| - 1);
      }
    }
  }

  /** A stopped walk has no repeated frame: the suffixes from equal frames have equal length. */
  lemma StoppedRepeats(g: Frames, path: seq<FrameId>, i: nat, j: nat)
    requires IsWalk(g, path) && (Last(path) !in g || g[Last(path)].parent == NIL)
    requires i < j < |path|
    ensures path[i] != path[j]
  {
    SuffixIsWalk(g, path, i);
    SuffixIsWalk(g, path, j);
    if path[i] == path[j] {
      StoppedWalk(g, path[j..], path[i..]);
    }
  }

  /** The climb came back to a visited frame: it loops and never meets the target. */
  lemma CyclicNowhere(g: Frames, path: seq<FrameId>, visited: set<FrameId>, target: FrameId)
    requires IsWalk(g, path) && visited == SetOf(path[..|path| - 1])
    requires Last(path) in visited && target !in path
    ensures Closed(g, visited) && path[0] in visited
    ensures !Reaches(g, path[0], target) && Loops(g, path[0])
  {
    VisitedClosed(g, path, visited);
    ClosedNotReaching(g, visited, path[0], target);
  }

  lemma VisitedClosed(g: Frames, path: seq<FrameId>, visited: set<FrameId>)
    requires IsWalk(g, path) && visited == SetOf(path[..|path| - 1])
    requires Last(path) in visited
    ensures Closed(g, visited) && path[0] in visited
  {
    forall x | x in visited
      ensures StaysIn(g, visited, x)
    {
      var i :| 0 <= i < |path| - 1 && path[i] == x;
      assert Edge(g, path[i], path[i + 1]);
    }
    assert path[0] in path[..|path| - 1];
  }

  // ------------------------------------------------------------------ the validator

  ghost predicate AllGrounded(g: Frames) {
    forall x :: x in g ==> Grounded(g, x)
  }

  /** FrameGraphValidator::Validate. */
  method Validate(graph: FrameGraph) returns (v: Validation)
    ensures v.Accepted? <==> AllGrounded(graph.frames) && exists r :: RootOf(graph.frames, Ok(r))
    ensures v == Rejected(FrameCycle) <==> !AllGrounded(graph.frames)
    ensures v == Rejected(FrameNotFound) <==> graph.frames == map[]
    ensures v == Rejected(MultipleRoots) <==> AllGrounded(graph.frames) && RootOf(graph.frames, Err(MultipleRoots))
  {
    var ok, _ := graph.ValidateAcyclic();
    if !ok {
      return Rejected(FrameCycle);
    }
    if |graph.frames| == 0 {
      return Rejected(FrameNotFound);
    }
    var root := graph.Root();
    GroundedHasRoot(graph.frames);
    match root {
      case Ok(x) => return Accepted;
      case Err(e) => return Rejected(e);
    }
  }

  lemma GroundedHasRoot(g: Frames)
    requires AllGrounded(g) && |g| > 0
    ensures exists r :: IsRoot(g, r)
  {
    var x := SomeElement(g.Keys);
    var p :| IsWalk(g, p) && p[0] == x && Last(p) in g && g[Last(p)].parent == NIL;
    assert IsRoot(g, Last(p));
  }

  lemma WalkToRoot(g: Frames, r: FrameId, x: FrameId) returns (p: seq<FrameId>)
    requires AllGrounded(g) && RootOf(g, Ok(r)) && x in g
    ensures FirstReach(g, p, x, r)
  {
    p :| IsWalk(g, p) && p[0] == x && Last(p) in g && g[Last(p)].parent == NIL;
    assert IsRoot(g, Last(p));
    forall i | 0 <= i < |p| - 1
      ensures p[i] != r
    {
      assert Edge(g, p[i], p[i + 1]);
    }
  }

  /** The root has no outgoing walk. */
  lemma RootStays(g: Frames, r: FrameId, x: FrameId)
    requires IsRoot(g, r) && x != r
    ensures !Reaches(g, r, x) && !Loops(g, r)
  {
    assert IsWalk(g, [r]) && Last([r]) == r;
    StoppedNowhere(g, [r], x);
  }

  lemma ReachValue(g: Frames, x: FrameId, top: FrameId, p: seq<FrameId>)
    requires FirstReach(g, p, x, top)
    ensures forall q :: FirstReach(g, q, x, top) ==> q == p
  {
    forall q | FirstReach(g, q, x, top)
      ensures q == p
    {
      FirstReachUnique(g, p, q, x, top);
    }
  }

  lemma ResolvesToRoot(g: Frames, r: FrameId, x: FrameId, p: seq<FrameId>)
    requires IsRoot(g, r) && x in g && x != r && FirstReach(g, p, x, r)
    ensures TransformOf(g, r, x) == Ok(Product(g, p)) && TransformOf(g, x, r) == Ok(Inverse(Product(g, p)))
  {
    RootStays(g, r, x);
    ReachValue(g, x, r, p);
  }

  lemma AcceptedBelowRoot(g: Frames, r: FrameId, x: FrameId) returns (m: SE3)
    requires AllGrounded(g) && RootOf(g, Ok(r)) && x in g && RigidEdges(g) && x != r
    ensures TransformOf(g, r, x) == Ok(m) && TransformOf(g, x, r) == Ok(Inverse(m)) && Rigid(m)
  {
    var p := WalkToRoot(g, r, x);
    m := Product(g, p);
    ResolvesToRoot(g, r, x, p);
    ProductRigid(g, p);
  }

  lemma SelfTransform(g: Frames, x: FrameId)
    ensures TransformOf(g, x, x) == Ok(IDENTITY)
  {
  }

  /** In an accepted graph, however it was loaded, every frame resolves against the one
      root in both directions, and the two transforms are inverse to each other. */
  lemma AcceptedGraphResolves(g: Frames, r: FrameId, x: FrameId) returns (m: SE3, w: SE3)
    requires AllGrounded(g) && RootOf(g, Ok(r)) && x in g && RigidEdges(g)
    ensures TransformOf(g, r, x) == Ok(m) && TransformOf(g, x, r) == Ok(w)
    ensures Compose(m, w) == IDENTITY && Compose(w, m) == IDENTITY
  {
    if x == r {
      m, w := IDENTITY, IDENTITY;
      SelfTransform(g, x);
      ComposeIdentity(IDENTITY);
    } else {
      m := AcceptedBelowRoot(g, r, x);
      w := Inverse(m);
      InverseCancels(m);
    }
  }

  /** A graph built by AddFrame is grounded, and Transform never reports a cycle in it. */
  lemma BuiltGraphAcyclic(g: Frames, order: seq<FrameId>, a: FrameId, b: FrameId)
    requires Topological(g, order)
    ensures AllGrounded(g) && TransformOf(g, a, b) != Err(FrameCycle)
  {
    forall x | x in g
      ensures Grounded(g, x)
    {
      var p := TopologicalGrounded(g, order, x);
    }
    TopologicalNeverLoops(g, order, a);
    TopologicalNeverLoops(g, order, b);
  }
}
