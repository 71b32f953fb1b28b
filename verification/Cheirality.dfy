/** Triangulation of matched unit rays and the cheirality vote
    (adapters/visual_geometry/essential_verifier.cpp), over the reals. */
module Cheirality {
  import opened Wrappers
  import opened Geometry

  /** A three by three matrix, by columns. */
  datatype Mat = Mat(c0: Vec3, c1: Vec3, c2: Vec3)

  function Apply(m: Mat, v: Vec3): Vec3 {
    Add(Add(Scale(v.x, m.c0), Scale(v.y, m.c1)), Scale(v.z, m.c2))
  }

  function ApplyTransposed(m: Mat, v: Vec3): Vec3 {
    Vec3(Dot(m.c0, v), Dot(m.c1, v), Dot(m.c2, v))
  }

  datatype Depths = NoDepths | Depths(zs: real, zt: real)

  const PARALLEL := 0.000000000001

  predicate NearZero(x: real) {
    -PARALLEL < x < PARALLEL
  }

  /** The determinant of the normal equations. */
  function Gram(a: real, b: real, c: real): real {
    a * c - b * b
  }

  /** The least-squares depths along the two rays, from their dot products with each other and
      with the offset. */
  function Solve(a: real, b: real, c: real, uw: real, vw: real): Option<(real, real)> {
    var det := Gram(a, b, c);
    if NearZero(det) then None else Some(((c * uw + b * vw) / det, -(b * uw + a * vw) / det))
  }

  function DepthsAt(rs: Vec3, r: Mat, t: Vec3, a: real): Depths {
    var xs := Scale(a, rs);
    Depths(xs.z, Add(Apply(r, xs), t).z)
  }

  function TriangulateUnitRays(rs: Vec3, rt: Vec3, r: Mat, t: Vec3): Depths {
    var v, w := ApplyTransposed(r, rt), Neg(ApplyTransposed(r, t));
    match Solve(Dot(rs, rs), -Dot(rs, v), Dot(v, v), Dot(rs, w), Dot(v, w))
    case None => NoDepths
    case Some(s) => DepthsAt(rs, r, t, s.0)
  }

  /** In front of both cameras. */
  predicate Favours(d: Depths) {
    d.Depths? && d.zs > 0.0 && d.zt > 0.0
  }

  // -------------------------------------------------------------------------------- the vote

  datatype Decomposition = Decomposition(r1: Mat, r2: Mat, t: Vec3)

  /** The matched unit rays, and which of them are inliers. */
  datatype Rays = Rays(source: seq<Vec3>, target: seq<Vec3>, inlier: seq<bool>)

  predicate Valid(m: Rays) {
    |m.source| == |m.target| == |m.inlier|
  }

  datatype Candidate = Candidate(r: Mat, t: Vec3)

  function CandidateAt(d: Decomposition, k: int): Candidate {
    Candidate(if k / 2 == 0 then d.r1 else d.r2, if k % 2 == 0 then d.t else Neg(d.t))
  }

  predicate IsInlier(m: Rays, i: int)
    requires Valid(m)
  {
    0 <= i < |m.inlier| && m.inlier[i]
  }

  /** Inlier i votes for the candidate. */
  predicate VotesFor(m: Rays, c: Candidate, i: int)
    requires Valid(m)
  {
    IsInlier(m, i) && Favours(TriangulateUnitRays(m.source[i], m.target[i], c.r, c.t))
  }

  ghost function Count(p: int -> bool, n: nat): (r: nat)
    ensures r <= n
  {
    if n == 0 then 0 else Count(p, n - 1) + if p(n - 1) then 1 else 0
  }

  ghost function Inliers(m: Rays): nat
    requires Valid(m)
  {
    Count(i => IsInlier(m, i), |m.inlier|)
  }

  ghost function Votes(m: Rays, c: Candidate): nat
    requires Valid(m)
  {
    Count(i => VotesFor(m, c, i), |m.inlier|)
  }

  /** Candidate k alone has the most votes, and more than half of the inliers'. */
  ghost predicate Wins(d: Decomposition, m: Rays, k: int)
    requires Valid(m)
  {
    0 <= k < 4 && Votes(m, CandidateAt(d, k)) * 2 > Inliers(m) &&
    forall j :: 0 <= j < 4 && j != k ==> Votes(m, CandidateAt(d, j)) < Votes(m, CandidateAt(d, k))
  }

  method CountVotes(m: Rays, c: Candidate) returns (votes: nat)
    requires Valid(m)
    ensures votes == Votes(m, c)
  {
    votes := 0;
    ghost var p := i => VotesFor(m, c, i);
    for i := 0 to |m.inlier|
      invariant votes == Count(p, i)
    {
      if !m.inlier[i] {
        continue;
      }
      var d := TriangulateUnitRays(m.source[i], m.target[i], c.r, c.t);
      if d.Depths? && d.zs > 0.0 && d.zt > 0.0 {
        votes := votes + 1;
      }
    }
  }

  method CountInliers(m: Rays) returns (total: nat)
    requires Valid(m)
    ensures total == Inliers(m)
  {
    total := 0;
    ghost var p := i => IsInlier(m, i);
    for i := 0 to |m.inlier|
      invariant total == Count(p, i)
    {
      if m.inlier[i] {
        total := total + 1;
      }
    }
  }

  /** The best of the first n candidates: the most votes, the candidate that first reached
      them (none if nobody has any), and whether another reached them too. */
  ghost predicate Leading(d: Decomposition, m: Rays, n: int, best: nat, k: int, tie: bool)
    requires Valid(m)
  {
    -1 <= k < n && (k == -1 ==> best == 0) && (k >= 0 ==> best > 0 && best == Votes(m, CandidateAt(d, k))) &&
    (forall j :: 0 <= j < n ==> Votes(m, CandidateAt(d, j)) <= best) &&
    (k >= 0 ==> (tie <==> exists j :: 0 <= j < n && j != k && Votes(m, CandidateAt(d, j)) == best))
  }

  /** Succeeds exactly when one candidate alone has the most votes and more than half. */
  method VoteCheirality(d: Decomposition, m: Rays) returns (winner: Option<Candidate>, ghost k: int)
    requires Valid(m)
    ensures winner.Some? ==> Wins(d, m, k) && winner.value == CandidateAt(d, k)
    ensures winner == None ==> forall j :: !Wins(d, m, j)
  {
    var total := CountInliers(m);
    k := -1;
    if total == 0 {
      forall j | 0 <= j < 4
        ensures Votes(m, CandidateAt(d, j)) == 0
      {
        VotesBelowInliers(m, CandidateAt(d, j));
      }
      return None, k;
    }
    var best: nat, bestK, tie := 0, -1, false;
    for j := 0 to 4
      invariant Leading(d, m, j, best, bestK, tie)
    {
      var votes := CountVotes(m, CandidateAt(d, j));
      if votes > best {
        best, bestK, tie := votes, j, false;
      } else if votes == best {
        tie := true;
      }
    }
    k := bestK;
    if bestK < 0 || tie {
      return None, k;
    }
    if best * 2 <= total {
      return None, k;
    }
    winner := Some(CandidateAt(d, bestK));
  }

  // -------------------------------------------------------------------------------- counting

  lemma {:induction false} CountWithin(p: int -> bool, q: int -> bool, n: nat)
    requires forall i :: 0 <= i < n && p(i) ==> q(i)
    ensures Count(p, n) <= Count(q, n)
  {
    if n > 0 {
      CountWithin(p, q, n - 1);
    }
  }

  lemma {:induction false} CountDisjoint(p: int -> bool, q: int -> bool, r: int -> bool, n: nat)
    requires forall i :: 0 <= i < n ==> !(p(i) && q(i)) && (p(i) || q(i) ==> r(i))
    ensures Count(p, n) + Count(q, n) <= Count(r, n)
  {
    if n > 0 {
      CountDisjoint(p, q, r, n - 1);
    }
  }

  lemma VotesBelowInliers(m: Rays, c: Candidate)
    requires Valid(m)
    ensures Votes(m, c) <= Inliers(m)
  {
    CountWithin(i => VotesFor(m, c, i), i => IsInlier(m, i), |m.inlier|);
  }
}
