/** The OFF writer's primitive decomposition (`OffPrimitiveIndexWriter`) and the value
    visitor it reads vertex attributes with (`ValueVisitor`): every GL primitive set becomes
    faces of one, two or three vertices appended to an `off::Model`. */
module OffWriterVisitor {
  import opened Common
  import opened OffTypes
  import opened Off

  // ---------------------------------------------------------------- ValueVisitor

  const DEFAULT_VALUE := Vec4(0.0, 0.0, 0.0, 1.0)

  /** The dimension `display` shows: the forced one unless it is the `(size_t)-1` sentinel. */
  function ShownDim(forced: SizeT, dim: SizeT): (d: SizeT)
    ensures forced == SIZE_T_MAX ==> d == dim
    ensures forced != SIZE_T_MAX ==> d == forced
  {
    if forced != SIZE_T_MAX then forced else dim
  }

  /** The value `display` leaves: component 0 is always x; components 1, 2 and 3 are copied
      from y, z and w when the shown dimension exceeds them and keep (0,0,0,1) otherwise. */
  function Displayed(dim: SizeT, x: real, y: real, z: real, w: real): (v: Vec4)
    ensures forall c :: 0 <= c < 4 ==>
      Component(v, c) == (if c == 0 || c < dim then Component(Vec4(x, y, z, w), c) else Component(DEFAULT_VALUE, c))
  {
    Vec4(x, if dim > 1 then y else 0.0, if dim > 2 then z else 0.0, if dim > 3 then w else 1.0)
  }

  function Minus(a: Vec3, b: Vec3): Vec3
  {
    Vec3(a.x - b.x, a.y - b.y, a.z - b.z)
  }

  /** `ValueVisitor`: the world transform (`v * _m`) is given as a function, and whether it
      is the identity as a flag. */
  class ValueVisitor {
    const transform: Vec3 -> Vec3
    const applyMatrix: bool
    var isNormal: bool
    var origin: Vec3
    var forceVecX: SizeT
    var currentValue: Vec4

    /** `_origin` is the image of (0,0,0) while normals are shown and (0,0,0) otherwise. */
    ghost predicate Valid()
      reads this
    {
      origin == (if isNormal then transform(ZERO3) else ZERO3)
    }

    constructor(transform: Vec3 -> Vec3, isIdentity: bool)
      ensures this.transform == transform && applyMatrix == !isIdentity
      ensures !isNormal && forceVecX == SIZE_T_MAX && currentValue == DEFAULT_VALUE
      ensures Valid()
    {
      this.transform := transform;
      applyMatrix := !isIdentity;
      isNormal := false;
      origin := ZERO3;
      forceVecX := SIZE_T_MAX;
      currentValue := DEFAULT_VALUE;
    }

    /** `setIsNormal`: setting the current value changes nothing; a change moves the origin. */
    method SetIsNormal(normal: bool)
      requires Valid()
      modifies this`isNormal, this`origin
      ensures Valid() && isNormal == normal
      ensures normal == old(isNormal) ==> origin == old(origin)
    {
      if isNormal == normal {
        return;
      }
      isNormal := normal;
      origin := if isNormal then transform(ZERO3) else ZERO3;
    }

    method UnforceVecX()
      modifies this`forceVecX
      ensures forceVecX == SIZE_T_MAX
    {
      forceVecX := SIZE_T_MAX;
    }

    method ForceVecX(dim: SizeT)
      modifies this`forceVecX
      ensures forceVecX == dim
    {
      forceVecX := dim;
    }

    method Display(dim: SizeT, x: real, y: real, z: real, w: real)
      modifies this`currentValue
      ensures currentValue == Displayed(ShownDim(forceVecX, dim), x, y, z, w)
    {
      var dimToDisplay := if forceVecX != SIZE_T_MAX then forceVecX else dim;
      currentValue := DEFAULT_VALUE;
      currentValue := WithComponent(currentValue, 0, x);
      if dimToDisplay > 1 {
        currentValue := WithComponent(currentValue, 1, y);
      }
      if dimToDisplay > 2 {
        currentValue := WithComponent(currentValue, 2, z);
      }
      if dimToDisplay > 3 {
        currentValue := WithComponent(currentValue, 3, w);
      }
    }

    function CurrentValue(): Vec4
      reads this
    {
      currentValue
    }

    /** `apply(osg::Vec2&)`: shown untransformed, as a two-component value by default. */
    method ApplyVec2(v: Vec2)
      modifies this`currentValue
      ensures currentValue == Displayed(ShownDim(forceVecX, 2), v.x, v.y, 0.0, 1.0)
      ensures forceVecX == SIZE_T_MAX ==> currentValue == Vec4(v.x, v.y, 0.0, 1.0)
    {
      Display(2, v.x, v.y, 0.0, 1.0);
    }

    /** `apply(osg::Vec3&)`: transformed when the matrix is not the identity, and then, for a
        normal, moved back by the image of the origin. */
    method ApplyVec3(v: Vec3)
      requires Valid()
      modifies this`currentValue
      ensures var u := if applyMatrix then Minus(transform(v), origin) else v;
        currentValue == Displayed(ShownDim(forceVecX, 3), u.x, u.y, u.z, 1.0)
      ensures applyMatrix && isNormal ==> currentValue.x == transform(v).x - transform(ZERO3).x
      ensures !applyMatrix && forceVecX == SIZE_T_MAX ==> currentValue == Vec4(v.x, v.y, v.z, 1.0)
    {
      var u := v;
      if applyMatrix {
        u := Minus(transform(u), origin);
      }
      Display(3, u.x, u.y, u.z, 1.0);
    }

    /** `apply(osg::Vec4&)`: shown untransformed. */
    method ApplyVec4(v: Vec4)
      modifies this`currentValue
      ensures currentValue == Displayed(ShownDim(forceVecX, 4), v.x, v.y, v.z, v.w)
      ensures forceVecX == SIZE_T_MAX ==> currentValue == v
    {
      Display(4, v.x, v.y, v.z, v.w);
    }
  }

  // ---------------------------------------------------------------- GL decompositions

  const GL_POINTS: nat := 0
  const GL_LINES: nat := 1
  const GL_LINE_LOOP: nat := 2
  const GL_LINE_STRIP: nat := 3
  const GL_TRIANGLES: nat := 4
  const GL_TRIANGLE_STRIP: nat := 5
  const GL_TRIANGLE_FAN: nat := 6
  const GL_QUADS: nat := 7
  const GL_QUAD_STRIP: nat := 8
  const GL_POLYGON: nat := 9

  /** Every vertex number of every face lies in [lo, hi). */
  predicate Within(faces: seq<seq<nat>>, lo: int, hi: int)
  {
    forall j, k :: 0 <= j < |faces| && 0 <= k < |faces[j]| ==> lo <= faces[j][k] < hi
  }

  lemma WithinSnoc(faces: seq<seq<nat>>, face: seq<nat>, lo: int, hi0: int, hi: int)
    requires Within(faces, lo, hi0) && hi0 <= hi
    requires forall k :: 0 <= k < |face| ==> lo <= face[k] < hi
    ensures Within(faces + [face], lo, hi)
  {
    forall j, k | 0 <= j < |faces| + 1 && 0 <= k < |(faces + [face])[j]|
      ensures lo <= (faces + [face])[j][k] < hi
    {
      if j < |faces| {
        assert (faces + [face])[j] == faces[j];
      }
    }
  }

  /** GL_TRIANGLES: n triangles of consecutive vertices from `first`. */
  function Triangles(first: nat, n: nat): (r: seq<seq<nat>>)
    ensures |r| == n
    ensures forall k :: 0 <= k < n ==> r[k] == [first + 3 * k, first + 3 * k + 1, first + 3 * k + 2]
  {
    if n == 0 then []
    else
      var p := first + 3 * (n - 1);
      Triangles(first, n - 1) + [[p, p + 1, p + 2]]
  }

  /** GL_TRIANGLE_STRIP: triangle k covers vertices k..k+2 from `first`, with its last two
      swapped when k is odd so that every triangle keeps the strip's winding. */
  function Strip(first: nat, n: nat): (r: seq<seq<nat>>)
    ensures |r| == n
  {
    if n == 0 then []
    else
      var p := first + (n - 1);
      Strip(first, n - 1) + [if (n - 1) % 2 == 1 then [p, p + 2, p + 1] else [p, p + 1, p + 2]]
  }

  /** GL_QUADS: each quad p..p+3 becomes (p, p+1, p+2) and (p, p+2, p+3). */
  function Quads(first: nat, n: nat): (r: seq<seq<nat>>)
    ensures |r| == 2 * n
  {
    if n == 0 then []
    else
      var p := first + 4 * (n - 1);
      Quads(first, n - 1) + [[p, p + 1, p + 2]] + [[p, p + 2, p + 3]]
  }

  /** GL_QUAD_STRIP: each step of two vertices p..p+3 becomes (p, p+1, p+2) and (p+1, p+3, p+2). */
  function QuadStrip(first: nat, n: nat): (r: seq<seq<nat>>)
    ensures |r| == 2 * n
  {
    if n == 0 then []
    else
      var p := first + 2 * (n - 1);
      QuadStrip(first, n - 1) + [[p, p + 1, p + 2]] + [[p + 1, p + 3, p + 2]]
  }

  /** GL_TRIANGLE_FAN and GL_POLYGON: triangle k is (first, first+k+1, first+k+2). */
  function Fan(first: nat, n: nat): (r: seq<seq<nat>>)
    ensures |r| == n
  {
    if n == 0 then []
    else Fan(first, n - 1) + [[first, first + n, first + n + 1]]
  }

  /** GL_LINES: line k joins vertices 2k and 2k+1 from `first`. */
  function Lines(first: nat, n: nat): (r: seq<seq<nat>>)
    ensures |r| == n
    ensures forall k :: 0 <= k < n ==> r[k] == [first + 2 * k, first + 2 * k + 1]
  {
    if n == 0 then []
    else
      var p := first + 2 * (n - 1);
      Lines(first, n - 1) + [[p, p + 1]]
  }

  /** GL_LINE_STRIP: line k joins vertices k and k+1 from `first`. */
  function LineStrip(first: nat, n: nat): (r: seq<seq<nat>>)
    ensures |r| == n
  {
    if n == 0 then []
    else LineStrip(first, n - 1) + [[first + n - 1, first + n]]
  }

  /** GL_POINTS: point k is vertex k from `first`. */
  function Points(first: nat, n: nat): (r: seq<seq<nat>>)
    ensures |r| == n
    ensures forall k :: 0 <= k < n ==> r[k] == [first + k]
  {
    if n == 0 then []
    else Points(first, n - 1) + [[first + n - 1]]
  }

  /** The line closing a GL_LINE_LOOP: from its last vertex back to its first. The last
      vertex number is an `unsigned int`, so an empty loop closes from 2^32 - 1. */
  function LoopClosing(first: nat, count: Int32): seq<nat>
  {
    [ToU32(first + count - 1), first]
  }

  /** Whole iterations of a loop from `start` while below `count`, stepping by `step`. */
  function Steps(start: nat, count: Int32, step: nat): (n: nat)
    requires step > 0
    ensures count <= start ==> n == 0
    ensures count > start ==> start + step * (n - 1) < count <= start + step * n
    decreases count - start
  {
    if count <= start then 0 else 1 + Steps(start + step, count, step)
  }

  lemma QuadsSnoc(first: nat, n: nat)
    ensures var p := first + 4 * n;
      Quads(first, n + 1) == Quads(first, n) + [[p, p + 1, p + 2]] + [[p, p + 2, p + 3]]
  {
  }

  lemma QuadStripSnoc(first: nat, n: nat)
    ensures var p := first + 2 * n;
      QuadStrip(first, n + 1) == QuadStrip(first, n) + [[p, p + 1, p + 2]] + [[p + 1, p + 3, p + 2]]
  {
  }

  /** A loop that left after `n` whole iterations made exactly `Steps` of them. */
  lemma StepsExact(start: nat, count: Int32, step: nat, n: nat)
    requires step > 0
    requires count <= start + step * n
    requires n == 0 || start + step * (n - 1) < count
    ensures n == Steps(start, count, step)
  {
    var m := Steps(start, count, step);
    if n < m {
      MulMono(step, n, m - 1);
    } else if m < n {
      MulMono(step, m, n - 1);
    }
  }

  lemma MulMono(a: nat, b: nat, c: nat)
    requires b <= c
    ensures a * b <= a * c
  {
    assert a * c == a * b + a * (c - b);
  }

  /** The faces `drawArrays(mode, first, count)` writes, as GL vertex numbers. Lines and points
      are numbered from `first` and need a complete pair of vertices, like the triangles and
      quadrilaterals do; an unknown mode writes nothing. */
  function ArrayFaces(mode: nat, first: nat, count: Int32): (r: seq<seq<nat>>)
    ensures mode == GL_TRIANGLES ==> |r| == Steps(2, count, 3)
    ensures mode == GL_TRIANGLE_STRIP || mode == GL_TRIANGLE_FAN || mode == GL_POLYGON ==>
      |r| == Steps(2, count, 1)
    ensures mode == GL_QUADS ==> |r| == 2 * Steps(3, count, 4)
    ensures mode == GL_QUAD_STRIP ==> |r| == 2 * Steps(3, count, 2)
    ensures mode == GL_LINES ==> |r| == Steps(1, count, 2)
    ensures mode == GL_LINE_STRIP ==> |r| == Steps(1, count, 1)
    ensures mode == GL_LINE_LOOP ==> |r| == Steps(1, count, 1) + 1
    ensures mode == GL_POINTS ==> |r| == Steps(0, count, 1)
    ensures mode > GL_POLYGON ==> r == []
  {
    if mode == GL_TRIANGLES then Triangles(first, Steps(2, count, 3))
    else if mode == GL_TRIANGLE_STRIP then Strip(first, Steps(2, count, 1))
    else if mode == GL_QUADS then Quads(first, Steps(3, count, 4))
    else if mode == GL_QUAD_STRIP then QuadStrip(first, Steps(3, count, 2))
    else if mode == GL_POLYGON || mode == GL_TRIANGLE_FAN then Fan(first, Steps(2, count, 1))
    else if mode == GL_LINES then Lines(first, Steps(1, count, 2))
    else if mode == GL_LINE_STRIP then LineStrip(first, Steps(1, count, 1))
    else if mode == GL_LINE_LOOP then LineStrip(first, Steps(1, count, 1)) + [LoopClosing(first, count)]
    else if mode == GL_POINTS then Points(first, Steps(0, count, 1))
    else []
  }

  // ---------------------------------------------------------------- what the decompositions promise

  /** Triangle `t` runs along the directed edge a -> b. */
  predicate DirectedEdge(t: seq<nat>, a: nat, b: nat)
  {
    |t| == 3 && ((t[0] == a && t[1] == b) || (t[1] == a && t[2] == b) || (t[2] == a && t[0] == b))
  }

  /** Two triangles are wound alike across the edge a -> b of the first that the second
      runs the other way. */
  predicate WoundAlike(t: seq<nat>, u: seq<nat>, a: nat, b: nat)
  {
    DirectedEdge(t, a, b) && DirectedEdge(u, b, a)
  }

  lemma {:induction false} TrianglesAt(first: nat, n: nat, k: nat)
    requires k < n
    ensures Triangles(first, n)[k] == [first + 3 * k, first + 3 * k + 1, first + 3 * k + 2]
    decreases n
  {
    if k < n - 1 {
      TrianglesAt(first, n - 1, k);
    }
  }

  /** Triangle k of a strip covers vertices k, k+1 and k+2, and each triangle is wound like
      the next across the edge they share. */
  lemma {:induction false} StripAt(first: nat, n: nat, k: nat)
    requires k < n
    ensures var p := first + k;
      Strip(first, n)[k] == if k % 2 == 1 then [p, p + 2, p + 1] else [p, p + 1, p + 2]
    decreases n
  {
    if k < n - 1 {
      StripAt(first, n - 1, k);
    }
  }

  lemma StripWinding(first: nat, n: nat, k: nat)
    requires k + 1 < n
    ensures var p := first + k;
      WoundAlike(Strip(first, n)[k], Strip(first, n)[k + 1],
                 if k % 2 == 0 then p + 1 else p + 2, if k % 2 == 0 then p + 2 else p + 1)
  {
    StripAt(first, n, k);
    StripAt(first, n, k + 1);
  }

  /** Triangle k of a fan is (first, first+k+1, first+k+2): all share the first vertex, and
      each is wound like the next across the edge they share. */
  lemma {:induction false} FanAt(first: nat, n: nat, k: nat)
    requires k < n
    ensures Fan(first, n)[k] == [first, first + k + 1, first + k + 2]
    decreases n
  {
    if k < n - 1 {
      FanAt(first, n - 1, k);
    }
  }

  lemma FanWinding(first: nat, n: nat, k: nat)
    requires k + 1 < n
    ensures Fan(first, n)[k] == [first, first + k + 1, first + k + 2]
    ensures WoundAlike(Fan(first, n)[k], Fan(first, n)[k + 1], first + k + 2, first)
  {
    FanAt(first, n, k);
    FanAt(first, n, k + 1);
  }

  /** Quad k (vertices p..p+3) becomes two triangles wound alike across the diagonal p+2 -> p. */
  lemma {:induction false} QuadsAt(first: nat, n: nat, k: nat)
    requires k < n
    ensures var p := first + 4 * k;
      Quads(first, n)[2 * k] == [p, p + 1, p + 2] && Quads(first, n)[2 * k + 1] == [p, p + 2, p + 3]
    ensures WoundAlike(Quads(first, n)[2 * k], Quads(first, n)[2 * k + 1], first + 4 * k + 2, first + 4 * k)
    decreases n
  {
    if k < n - 1 {
      QuadsAt(first, n - 1, k);
    }
  }

  /** Step k of a quad strip (vertices p..p+3, p = first+2k) becomes two triangles wound alike
      across the edge p+1 -> p+2. */
  lemma {:induction false} QuadStripAt(first: nat, n: nat, k: nat)
    requires k < n
    ensures var p := first + 2 * k;
      QuadStrip(first, n)[2 * k] == [p, p + 1, p + 2] && QuadStrip(first, n)[2 * k + 1] == [p + 1, p + 3, p + 2]
    ensures WoundAlike(QuadStrip(first, n)[2 * k], QuadStrip(first, n)[2 * k + 1], first + 2 * k + 1, first + 2 * k + 2)
    decreases n
  {
    if k < n - 1 {
      QuadStripAt(first, n - 1, k);
    }
  }

  /** Line k of a strip joins vertices k and k+1: consecutive lines share a vertex. */
  lemma {:induction false} LineStripAt(first: nat, n: nat, k: nat)
    requires k < n
    ensures LineStrip(first, n)[k] == [first + k, first + k + 1]
    decreases n
  {
    if k < n - 1 {
      LineStripAt(first, n - 1, k);
    }
  }

  lemma {:induction false} TrianglesWithin(first: nat, n: nat)
    ensures Within(Triangles(first, n), first, first + 3 * n)
    decreases n
  {
    if n > 0 {
      TrianglesWithin(first, n - 1);
      var p := first + 3 * (n - 1);
      WithinSnoc(Triangles(first, n - 1), [p, p + 1, p + 2], first, first + 3 * (n - 1), first + 3 * n);
    }
  }

  lemma {:induction false} StripWithin(first: nat, n: nat)
    ensures Within(Strip(first, n), first, first + n + 2)
    decreases n
  {
    if n > 0 {
      StripWithin(first, n - 1);
      var p := first + (n - 1);
      WithinSnoc(Strip(first, n - 1), if (n - 1) % 2 == 1 then [p, p + 2, p + 1] else [p, p + 1, p + 2],
                 first, first + n + 1, first + n + 2);
    }
  }

  lemma {:induction false} QuadsWithin(first: nat, n: nat)
    ensures Within(Quads(first, n), first, first + 4 * n)
    decreases n
  {
    if n > 0 {
      QuadsWithin(first, n - 1);
      var p := first + 4 * (n - 1);
      WithinSnoc(Quads(first, n - 1), [p, p + 1, p + 2], first, first + 4 * (n - 1), first + 4 * n);
      WithinSnoc(Quads(first, n - 1) + [[p, p + 1, p + 2]], [p, p + 2, p + 3], first, first + 4 * n, first + 4 * n);
    }
  }

  lemma {:induction false} QuadStripWithin(first: nat, n: nat)
    ensures Within(QuadStrip(first, n), first, first + 2 * n + 2)
    decreases n
  {
    if n > 0 {
      QuadStripWithin(first, n - 1);
      var p := first + 2 * (n - 1);
      WithinSnoc(QuadStrip(first, n - 1), [p, p + 1, p + 2], first, first + 2 * n, first + 2 * n + 2);
      WithinSnoc(QuadStrip(first, n - 1) + [[p, p + 1, p + 2]], [p + 1, p + 3, p + 2],
                 first, first + 2 * n + 2, first + 2 * n + 2);
    }
  }

  lemma {:induction false} FanWithin(first: nat, n: nat)
    ensures Within(Fan(first, n), first, first + n + 2)
    decreases n
  {
    if n > 0 {
      FanWithin(first, n - 1);
      WithinSnoc(Fan(first, n - 1), [first, first + n, first + n + 1], first, first + n + 1, first + n + 2);
    }
  }

  lemma {:induction false} LinesWithin(first: nat, n: nat)
    ensures Within(Lines(first, n), first, first + 2 * n)
    decreases n
  {
    if n > 0 {
      LinesWithin(first, n - 1);
      var p := first + 2 * (n - 1);
      WithinSnoc(Lines(first, n - 1), [p, p + 1], first, first + 2 * (n - 1), first + 2 * n);
    }
  }

  lemma {:induction false} LineStripWithin(first: nat, n: nat)
    ensures Within(LineStrip(first, n), first, first + n + 1)
    decreases n
  {
    if n > 0 {
      LineStripWithin(first, n - 1);
      WithinSnoc(LineStrip(first, n - 1), [first + n - 1, first + n], first, first + n, first + n + 1);
    }
  }

  lemma {:induction false} PointsWithin(first: nat, n: nat)
    ensures Within(Points(first, n), first, first + n)
    decreases n
  {
    if n > 0 {
      PointsWithin(first, n - 1);
      WithinSnoc(Points(first, n - 1), [first + n - 1], first, first + n - 1, first + n);
    }
  }

  /** Whatever the mode, `drawArrays(mode, first, count)` only names vertices first..first+count-1
      (for a line loop, once the range holds a vertex and fits in an `unsigned int`). */
  lemma ArrayFacesWithin(mode: nat, first: nat, count: Int32)
    requires mode == GL_LINE_LOOP ==> 0 < count && first + count <= 0x1_0000_0000
    ensures Within(ArrayFaces(mode, first, count), first, first + count)
  {
    var r := ArrayFaces(mode, first, count);
    if mode == GL_TRIANGLES {
      TrianglesWithin(first, Steps(2, count, 3));
    } else if mode == GL_TRIANGLE_STRIP {
      StripWithin(first, Steps(2, count, 1));
    } else if mode == GL_QUADS {
      QuadsWithin(first, Steps(3, count, 4));
    } else if mode == GL_QUAD_STRIP {
      QuadStripWithin(first, Steps(3, count, 2));
    } else if mode == GL_POLYGON || mode == GL_TRIANGLE_FAN {
      FanWithin(first, Steps(2, count, 1));
    } else if mode == GL_LINES {
      LinesWithin(first, Steps(1, count, 2));
    } else if mode == GL_LINE_STRIP {
      LineStripWithin(first, Steps(1, count, 1));
    } else if mode == GL_LINE_LOOP {
      LineStripWithin(first, Steps(1, count, 1));
      WithinSnoc(LineStrip(first, Steps(1, count, 1)), LoopClosing(first, count), first, first + count, first + count);
    } else if mode == GL_POINTS {
      PointsWithin(first, Steps(0, count, 1));
    }
  }

  // ---------------------------------------------------------------- index buffers

  /** A face read through an index buffer: GL vertex number v becomes `indices[v]`. */
  function RelabelFace(face: seq<nat>, indices: seq<nat>): (r: seq<nat>)
    requires forall k :: 0 <= k < |face| ==> face[k] < |indices|
  {
    seq(|face|, k requires 0 <= k < |face| => indices[face[k]])
  }

  function Relabel(faces: seq<seq<nat>>, indices: seq<nat>): (r: seq<seq<nat>>)
    requires Within(faces, 0, |indices|)
    ensures |r| == |faces|
  {
    seq(|faces|, j requires 0 <= j < |faces| => RelabelFace(faces[j], indices))
  }

  lemma RelabelSnoc(faces: seq<seq<nat>>, face: seq<nat>, indices: seq<nat>)
    requires Within(faces, 0, |indices|)
    requires forall k :: 0 <= k < |face| ==> face[k] < |indices|
    ensures Within(faces + [face], 0, |indices|)
    ensures Relabel(faces + [face], indices) == Relabel(faces, indices) + [RelabelFace(face, indices)]
  {
    WithinSnoc(faces, face, 0, |indices|, |indices|);
    var a := Relabel(faces + [face], indices);
    var b := Relabel(faces, indices) + [RelabelFace(face, indices)];
    forall j | 0 <= j < |a|
      ensures a[j] == b[j]
    {
      if j < |faces| {
        assert (faces + [face])[j] == faces[j];
      }
    }
  }

  /** The faces `drawElements(mode, count, indices)` writes: the decomposition `drawArrays`
      makes of `count` vertices numbered from 0, read through the index buffer, so that
      only its first `count` entries are ever read. */
  function ElementFaces(mode: nat, indices: seq<nat>): (r: seq<seq<nat>>)
    requires 0 < |indices| < INT32_LIMIT
    ensures |r| == |ArrayFaces(mode, 0, |indices|)|
    ensures forall j :: 0 <= j < |r| ==>
      (|r[j]| == |ArrayFaces(mode, 0, |indices|)[j]| && forall k :: 0 <= k < |r[j]| ==> r[j][k] in indices)
  {
    ArrayFacesWithin(mode, 0, |indices|);
    Relabel(ArrayFaces(mode, 0, |indices|), indices)
  }

  lemma ElementFacesOf(mode: nat, buffer: seq<nat>, faces: seq<seq<nat>>)
    requires 0 < |buffer| < INT32_LIMIT && faces == ArrayFaces(mode, 0, |buffer|)
    ensures Within(faces, 0, |buffer|) && ElementFaces(mode, buffer) == Relabel(faces, buffer)
  {
    ArrayFacesWithin(mode, 0, |buffer|);
  }

  // ---------------------------------------------------------------- the line and point loops as written

  /** GL_LINES, GL_LINE_STRIP, GL_LINE_LOOP and GL_POINTS in `drawArrays` as the source writes
      them: vertex numbers start at 0 whatever `first` is, and GL_LINES pairs an odd last
      vertex with the one after the range. */
  function ArrayLinesAsWritten(mode: nat, count: Int32): seq<seq<nat>>
  {
    if mode == GL_LINES then Lines(0, Steps(0, count, 2))
    else if mode == GL_LINE_STRIP then LineStrip(0, Steps(1, count, 1))
    else if mode == GL_LINE_LOOP then LineStrip(0, Steps(1, count, 1)) + [LoopClosing(0, count)]
    else if mode == GL_POINTS then Points(0, Steps(0, count, 1))
    else []
  }

  /** Two vertices from vertex 4 give the line 0-1 as written, outside the range drawn, where
      `ArrayFaces` gives the line 4-5; three points from vertex 0 give a line to vertex 3. */
  lemma ArrayLinesIgnoreFirst()
    ensures ArrayLinesAsWritten(GL_LINES, 2) == [[0, 1]]
    ensures ArrayFaces(GL_LINES, 4, 2) == [[4, 5]]
    ensures !Within(ArrayLinesAsWritten(GL_LINES, 2), 4, 6)
    ensures !Within(ArrayLinesAsWritten(GL_LINES, 3), 0, 3)
  {
    assert Steps(0, 2, 2) == 1 && Steps(1, 2, 2) == 1;
    assert Lines(0, 1) == [[0, 1]];
    assert Lines(4, 1) == [[4, 5]];
    assert ArrayLinesAsWritten(GL_LINES, 2)[0][0] == 0;
    assert Steps(0, 3, 2) == 2;
    assert Lines(0, 2) == [[0, 1], [2, 3]];
    assert ArrayLinesAsWritten(GL_LINES, 3)[1][1] == 3;
  }

  /** GL_LINE_STRIP in `drawElements` as the source writes it: stepping two indices at a time,
      it joins positions 0-1, 2-3, ... and leaves out every other segment. */
  function ElementLineStripAsWritten(indices: seq<nat>): seq<seq<nat>>
    requires |indices| < INT32_LIMIT
  {
    LinesWithin(0, Steps(1, |indices|, 2));
    Relabel(Lines(0, Steps(1, |indices|, 2)), indices)
  }

  /** Over the indices 7, 8, 9 the strip as written draws only 7-8; `ElementFaces` draws 7-8
      and 8-9. */
  lemma ElementLineStripSkips()
    ensures ElementLineStripAsWritten([7, 8, 9]) == [[7, 8]]
    ensures ElementFaces(GL_LINE_STRIP, [7, 8, 9]) == [[7, 8], [8, 9]]
  {
    var ind := [7, 8, 9];
    assert Steps(1, 3, 2) == 1 && Steps(1, 3, 1) == 2;
    assert Lines(0, 1) == [[0, 1]];
    assert RelabelFace([0, 1], ind) == [7, 8];
    assert LineStrip(0, 2) == [[0, 1], [1, 2]];
    assert RelabelFace([1, 2], ind) == [8, 9];
    ElementFacesOf(GL_LINE_STRIP, ind, LineStrip(0, 2));
  }

  // ---------------------------------------------------------------- faces written to the model

  /** `face` is a fresh `off::Model::Face` (default colour, no colour-map entry) whose vertex k
      is a model vertex holding what the geometry gives for GL vertex `raw[k]` of primitive
      set `primitive`. */
  ghost predicate Depicts(face: Face, vertices: seq<Vertex>, vertexAt: (nat, nat) -> Vertex,
                          primitive: nat, raw: seq<nat>)
  {
    face.color == DEFAULT_FACE.color && face.colormapIndex == NO_COLORMAP && |face.indices| == |raw| &&
    forall k :: 0 <= k < |raw| ==>
      face.indices[k] < |vertices| && vertices[face.indices[k]] == vertexAt(raw[k], primitive)
  }

  /** From `faces0`/`vertices0` to `faces`/`vertices` the model kept its faces and vertices,
      merged new vertices without duplicating any, and gained one face per entry of `raws`. */
  ghost predicate Grew(faces0: seq<Face>, vertices0: seq<Vertex>, faces: seq<Face>, vertices: seq<Vertex>,
                       vertexAt: (nat, nat) -> Vertex, primitive: nat, raws: seq<seq<nat>>)
  {
    |faces| == |faces0| + |raws| && faces[..|faces0|] == faces0 &&
    (forall j :: |faces0| <= j < |faces| ==> Depicts(faces[j], vertices, vertexAt, primitive, raws[j - |faces0|])) &&
    vertices0 <= vertices && (Distinct(vertices0) ==> Distinct(vertices))
  }

  lemma DepictsGrow(face: Face, vertices: seq<Vertex>, vertices': seq<Vertex>, vertexAt: (nat, nat) -> Vertex,
                    primitive: nat, raw: seq<nat>)
    requires Depicts(face, vertices, vertexAt, primitive, raw) && vertices <= vertices'
    ensures Depicts(face, vertices', vertexAt, primitive, raw)
  {
    forall k | 0 <= k < |raw|
      ensures vertices'[face.indices[k]] == vertices[face.indices[k]]
    {
      assert vertices'[..|vertices|][face.indices[k]] == vertices'[face.indices[k]];
    }
  }

  lemma GrewAppend(f0: seq<Face>, v0: seq<Vertex>, f1: seq<Face>, v1: seq<Vertex>, f2: seq<Face>, v2: seq<Vertex>,
                   vertexAt: (nat, nat) -> Vertex, primitive: nat, a: seq<seq<nat>>, b: seq<seq<nat>>)
    requires Grew(f0, v0, f1, v1, vertexAt, primitive, a)
    requires Grew(f1, v1, f2, v2, vertexAt, primitive, b)
    ensures Grew(f0, v0, f2, v2, vertexAt, primitive, a + b)
  {
    assert f2[..|f0|] == f1[..|f0|];
    forall j | |f0| <= j < |f2|
      ensures Depicts(f2[j], v2, vertexAt, primitive, (a + b)[j - |f0|])
    {
      if j < |f1| {
        assert f2[j] == f2[..|f1|][j] == f1[j];
        DepictsGrow(f1[j], v1, v2, vertexAt, primitive, a[j - |f0|]);
      } else {
        assert (a + b)[j - |f0|] == b[j - |f1|];
      }
    }
    assert v0 <= v2 by {
      assert v2[..|v0|] == v2[..|v1|][..|v0|];
    }
  }

  /** What the writer leaves untouched in the model besides its vertex and face lists. */
  datatype Settings = Settings(databasePath: string, haveVertexColors: bool, haveVertexNormals: bool,
                               haveVertexTextureCoordinates: bool, haveFaceColors: bool, numDim: nat)

  function SettingsOf(m: Model): Settings
    reads m
  {
    Settings(m.databasePath, m.haveVertexColors, m.haveVertexNormals, m.haveVertexTextureCoordinates,
             m.haveFaceColors, m.numDim)
  }

  // ---------------------------------------------------------------- OffPrimitiveIndexWriter

  /** `OffPrimitiveIndexWriter`: the geometry's arrays and `mergeVertex`'s reading of them are
      given as `vertexAt(i, primitive)`, the vertex the geometry holds for GL vertex i while
      primitive set `primitive` is drawn. */
  class PrimitiveIndexWriter {
    const model: Model
    const vertexAt: (nat, nat) -> Vertex
    var faceNormalIndex: nat
    var modeCache: nat
    var indexCache: seq<nat>

    /** The model grew by faces depicting `raws` and kept its settings. */
    ghost predicate Emitted(faces0: seq<Face>, vertices0: seq<Vertex>, settings0: Settings, raws: seq<seq<nat>>)
      reads this, model
    {
      Grew(faces0, vertices0, model.faces, model.vertices, vertexAt, faceNormalIndex, raws) &&
      SettingsOf(model) == settings0
    }

    constructor(model: Model, vertexAt: (nat, nat) -> Vertex)
      ensures this.model == model && this.vertexAt == vertexAt
      ensures faceNormalIndex == 0 && modeCache == 0 && indexCache == []
    {
      this.model := model;
      this.vertexAt := vertexAt;
      faceNormalIndex := 0;
      modeCache := 0;
      indexCache := [];
    }

    method NotifyNextPrimitive(primitiveIndex: nat)
      modifies this`faceNormalIndex
      ensures faceNormalIndex == primitiveIndex
    {
      faceNormalIndex := primitiveIndex;
    }

    /** `mergeVertex`: the geometry's vertex i is merged into the model and its index there
        returned. */
    method MergeVertex(i: nat) returns (index: nat)
      modifies model
      ensures old(model.vertices) <= model.vertices
      ensures Distinct(old(model.vertices)) ==> Distinct(model.vertices)
      ensures index < |model.vertices| && model.vertices[index] == vertexAt(i, faceNormalIndex)
      ensures model.faces == old(model.faces) && SettingsOf(model) == old(SettingsOf(model))
    {
      index := model.Merge(vertexAt(i, faceNormalIndex));
    }

    method WriteTriangle(i1: nat, i2: nat, i3: nat)
      modifies model
      ensures Emitted(old(model.faces), old(model.vertices), old(SettingsOf(model)), [[i1, i2, i3]])
    {
      var n1 := MergeVertex(i1);
      var n2 := MergeVertex(i2);
      var n3 := MergeVertex(i3);
      model.faces := model.faces + [DEFAULT_FACE.(indices := [n1, n2, n3])];
    }

    method WriteLine(i1: nat, i2: nat)
      modifies model
      ensures Emitted(old(model.faces), old(model.vertices), old(SettingsOf(model)), [[i1, i2]])
    {
      var n1 := MergeVertex(i1);
      var n2 := MergeVertex(i2);
      model.faces := model.faces + [DEFAULT_FACE.(indices := [n1, n2])];
    }

    method WritePoint(i1: nat)
      modifies model
      ensures Emitted(old(model.faces), old(model.vertices), old(SettingsOf(model)), [[i1]])
    {
      var n1 := MergeVertex(i1);
      model.faces := model.faces + [DEFAULT_FACE.(indices := [n1])];
    }

    // ------------------------------------------------------------ one more face of a decomposition

    method EmitTriangle(ghost faces0: seq<Face>, ghost vertices0: seq<Vertex>, ghost settings0: Settings,
                        ghost raws: seq<seq<nat>>, ghost next: seq<seq<nat>>, i1: nat, i2: nat, i3: nat)
      requires Emitted(faces0, vertices0, settings0, raws) && next == raws + [[i1, i2, i3]]
      modifies model
      ensures Emitted(faces0, vertices0, settings0, next)
    {
      ghost var f1, v1 := model.faces, model.vertices;
      WriteTriangle(i1, i2, i3);
      GrewAppend(faces0, vertices0, f1, v1, model.faces, model.vertices, vertexAt, faceNormalIndex, raws, [[i1, i2, i3]]);
    }

    method EmitLine(ghost faces0: seq<Face>, ghost vertices0: seq<Vertex>, ghost settings0: Settings,
                    ghost raws: seq<seq<nat>>, ghost next: seq<seq<nat>>, i1: nat, i2: nat)
      requires Emitted(faces0, vertices0, settings0, raws) && next == raws + [[i1, i2]]
      modifies model
      ensures Emitted(faces0, vertices0, settings0, next)
    {
      ghost var f1, v1 := model.faces, model.vertices;
      WriteLine(i1, i2);
      GrewAppend(faces0, vertices0, f1, v1, model.faces, model.vertices, vertexAt, faceNormalIndex, raws, [[i1, i2]]);
    }

    method EmitPoint(ghost faces0: seq<Face>, ghost vertices0: seq<Vertex>, ghost settings0: Settings,
                     ghost raws: seq<seq<nat>>, ghost next: seq<seq<nat>>, i1: nat)
      requires Emitted(faces0, vertices0, settings0, raws) && next == raws + [[i1]]
      modifies model
      ensures Emitted(faces0, vertices0, settings0, next)
    {
      ghost var f1, v1 := model.faces, model.vertices;
      WritePoint(i1);
      GrewAppend(faces0, vertices0, f1, v1, model.faces, model.vertices, vertexAt, faceNormalIndex, raws, [[i1]]);
    }

    /** The two triangles of quad `steps`, whose first vertex is `pos`. */
    method EmitQuad(ghost faces0: seq<Face>, ghost vertices0: seq<Vertex>, ghost settings0: Settings,
                    first: nat, ghost steps: nat, pos: nat)
      requires pos == first + 4 * steps && Emitted(faces0, vertices0, settings0, Quads(first, steps))
      modifies model
      ensures Emitted(faces0, vertices0, settings0, Quads(first, steps + 1))
    {
      ghost var done: seq<seq<nat>> := Quads(first, steps);
      ghost var t1: seq<nat> := [pos, pos + 1, pos + 2];
      QuadsSnoc(first, steps);
      EmitTriangle(faces0, vertices0, settings0, done, done + [t1], pos, pos + 1, pos + 2);
      EmitTriangle(faces0, vertices0, settings0, done + [t1], Quads(first, steps + 1), pos, pos + 2, pos + 3);
    }

    /** Triangle `steps` of a strip, whose first vertex is `pos` and whose loop counter is `i`:
        odd counters swap the last two vertices. */
    method EmitStripStep(ghost faces0: seq<Face>, ghost vertices0: seq<Vertex>, ghost settings0: Settings,
                         first: nat, ghost steps: nat, i: int, pos: nat)
      requires i == 2 + steps && pos == first + steps && Emitted(faces0, vertices0, settings0, Strip(first, steps))
      modifies model
      ensures Emitted(faces0, vertices0, settings0, Strip(first, steps + 1))
    {
      if i % 2 == 1 {
        EmitTriangle(faces0, vertices0, settings0, Strip(first, steps), Strip(first, steps + 1), pos, pos + 2, pos + 1);
      } else {
        EmitTriangle(faces0, vertices0, settings0, Strip(first, steps), Strip(first, steps + 1), pos, pos + 1, pos + 2);
      }
    }

    /** The two triangles of quad-strip step `steps`, whose first vertex is `pos`. */
    method EmitQuadStripStep(ghost faces0: seq<Face>, ghost vertices0: seq<Vertex>, ghost settings0: Settings,
                             first: nat, ghost steps: nat, pos: nat)
      requires pos == first + 2 * steps && Emitted(faces0, vertices0, settings0, QuadStrip(first, steps))
      modifies model
      ensures Emitted(faces0, vertices0, settings0, QuadStrip(first, steps + 1))
    {
      ghost var done: seq<seq<nat>> := QuadStrip(first, steps);
      ghost var t1: seq<nat> := [pos, pos + 1, pos + 2];
      QuadStripSnoc(first, steps);
      EmitTriangle(faces0, vertices0, settings0, done, done + [t1], pos, pos + 1, pos + 2);
      EmitTriangle(faces0, vertices0, settings0, done + [t1], QuadStrip(first, steps + 1), pos + 1, pos + 3, pos + 2);
    }

    // ------------------------------------------------------------ drawArrays, mode by mode

    method DrawArrayTriangles(first: nat, count: Int32)
      modifies model
      ensures Emitted(old(model.faces), old(model.vertices), old(SettingsOf(model)), Triangles(first, Steps(2, count, 3)))
    {
      ghost var faces0, vertices0, settings0 := model.faces, model.vertices, SettingsOf(model);
      var pos := first;
      var i := 2;
      ghost var steps: nat := 0;
      while i < count
        invariant i == 2 + 3 * steps && pos == first + 3 * steps
        invariant steps == 0 || i - 3 < count
        invariant Emitted(faces0, vertices0, settings0, Triangles(first, steps))
      {
        EmitTriangle(faces0, vertices0, settings0, Triangles(first, steps), Triangles(first, steps + 1),
          pos, pos + 1, pos + 2);
        i, pos, steps := i + 3, pos + 3, steps + 1;
      }
    }

    /** Odd steps swap the last two vertices so that the strip keeps one winding. */
    method DrawArrayStrip(first: nat, count: Int32)
      modifies model
      ensures Emitted(old(model.faces), old(model.vertices), old(SettingsOf(model)), Strip(first, Steps(2, count, 1)))
    {
      ghost var faces0, vertices0, settings0 := model.faces, model.vertices, SettingsOf(model);
      var pos := first;
      var i := 2;
      ghost var steps: nat := 0;
      while i < count
        invariant i == 2 + steps && pos == first + steps
        invariant steps == 0 || i - 1 < count
        invariant Emitted(faces0, vertices0, settings0, Strip(first, steps))
      {
        EmitStripStep(faces0, vertices0, settings0, first, steps, i, pos);
        i, pos, steps := i + 1, pos + 1, steps + 1;
      }
    }

    method DrawArrayQuads(first: nat, count: Int32)
      modifies model
      ensures Emitted(old(model.faces), old(model.vertices), old(SettingsOf(model)), Quads(first, Steps(3, count, 4)))
    {
      ghost var faces0, vertices0, settings0 := model.faces, model.vertices, SettingsOf(model);
      var pos := first;
      var i := 3;
      ghost var steps: nat := 0;
      while i < count
        invariant i == 3 + 4 * steps && pos == first + 4 * steps
        invariant steps == 0 || i - 4 < count
        invariant Emitted(faces0, vertices0, settings0, Quads(first, steps))
      {
        EmitQuad(faces0, vertices0, settings0, first, steps, pos);
        i, pos, steps := i + 4, pos + 4, steps + 1;
      }
      StepsExact(3, count, 4, steps);
    }

    method DrawArrayQuadStrip(first: nat, count: Int32)
      modifies model
      ensures Emitted(old(model.faces), old(model.vertices), old(SettingsOf(model)), QuadStrip(first, Steps(3, count, 2)))
    {
      ghost var faces0, vertices0, settings0 := model.faces, model.vertices, SettingsOf(model);
      var pos := first;
      var i := 3;
      ghost var steps: nat := 0;
      while i < count
        invariant i == 3 + 2 * steps && pos == first + 2 * steps
        invariant steps == 0 || i - 2 < count
        invariant Emitted(faces0, vertices0, settings0, QuadStrip(first, steps))
      {
        EmitQuadStripStep(faces0, vertices0, settings0, first, steps, pos);
        i, pos, steps := i + 2, pos + 2, steps + 1;
      }
      StepsExact(3, count, 2, steps);
    }

    /** GL_TRIANGLE_FAN, and GL_POLYGON drawn as one. */
    method DrawArrayFan(first: nat, count: Int32)
      modifies model
      ensures Emitted(old(model.faces), old(model.vertices), old(SettingsOf(model)), Fan(first, Steps(2, count, 1)))
    {
      ghost var faces0, vertices0, settings0 := model.faces, model.vertices, SettingsOf(model);
      var pos := first + 1;
      var i := 2;
      ghost var steps: nat := 0;
      while i < count
        invariant i == 2 + steps && pos == first + 1 + steps
        invariant steps == 0 || i - 1 < count
        invariant Emitted(faces0, vertices0, settings0, Fan(first, steps))
      {
        EmitTriangle(faces0, vertices0, settings0, Fan(first, steps), Fan(first, steps + 1),
          first, pos, pos + 1);
        i, pos, steps := i + 1, pos + 1, steps + 1;
      }
    }

    /** GL_LINES, numbered from `first`, one line per complete pair. */
    method DrawArrayLines(first: nat, count: Int32)
      modifies model
      ensures Emitted(old(model.faces), old(model.vertices), old(SettingsOf(model)), Lines(first, Steps(1, count, 2)))
    {
      ghost var faces0, vertices0, settings0 := model.faces, model.vertices, SettingsOf(model);
      var i := 1;
      ghost var steps: nat := 0;
      while i < count
        invariant i == 1 + 2 * steps
        invariant steps == 0 || i - 2 < count
        invariant Emitted(faces0, vertices0, settings0, Lines(first, steps))
      {
        EmitLine(faces0, vertices0, settings0, Lines(first, steps), Lines(first, steps + 1),
          first + i - 1, first + i);
        i, steps := i + 2, steps + 1;
      }
    }

    /** GL_LINE_STRIP, numbered from `first`. */
    method DrawArrayLineStrip(first: nat, count: Int32)
      modifies model
      ensures Emitted(old(model.faces), old(model.vertices), old(SettingsOf(model)), LineStrip(first, Steps(1, count, 1)))
    {
      ghost var faces0, vertices0, settings0 := model.faces, model.vertices, SettingsOf(model);
      var i := 1;
      while i < count
        invariant 1 <= i && (i == 1 || i - 1 < count)
        invariant Emitted(faces0, vertices0, settings0, LineStrip(first, i - 1))
      {
        EmitLine(faces0, vertices0, settings0, LineStrip(first, i - 1), LineStrip(first, i),
          first + i - 1, first + i);
        i := i + 1;
      }
    }

    /** GL_LINE_LOOP, numbered from `first`: the strip, then the line back to the start. */
    method DrawArrayLineLoop(first: nat, count: Int32)
      modifies model
      ensures Emitted(old(model.faces), old(model.vertices), old(SettingsOf(model)), LineStrip(first, Steps(1, count, 1)) + [LoopClosing(first, count)])
    {
      DrawArrayLineStrip(first, count);
      EmitLine(old(model.faces), old(model.vertices), old(SettingsOf(model)), LineStrip(first, Steps(1, count, 1)),
        LineStrip(first, Steps(1, count, 1)) + [LoopClosing(first, count)], ToU32(first + count - 1), first);
    }

    /** GL_POINTS, numbered from `first`. */
    method DrawArrayPoints(first: nat, count: Int32)
      modifies model
      ensures Emitted(old(model.faces), old(model.vertices), old(SettingsOf(model)), Points(first, Steps(0, count, 1)))
    {
      ghost var faces0, vertices0, settings0 := model.faces, model.vertices, SettingsOf(model);
      var i := 0;
      while i < count
        invariant 0 <= i && (i == 0 || i - 1 < count)
        invariant Emitted(faces0, vertices0, settings0, Points(first, i))
      {
        EmitPoint(faces0, vertices0, settings0, Points(first, i), Points(first, i + 1),
          first + i);
        i := i + 1;
      }
    }

    /** `drawArrays`: the faces of `ArrayFaces`, appended in order; an unknown mode writes
        nothing (the source only logs a warning). */
    method DrawArrays(mode: nat, first: nat, count: Int32)
      modifies model
      ensures Emitted(old(model.faces), old(model.vertices), old(SettingsOf(model)), ArrayFaces(mode, first, count))
    {
      if mode == GL_TRIANGLES {
        DrawArrayTriangles(first, count);
      } else if mode == GL_TRIANGLE_STRIP {
        DrawArrayStrip(first, count);
      } else if mode == GL_QUADS {
        DrawArrayQuads(first, count);
      } else if mode == GL_QUAD_STRIP {
        DrawArrayQuadStrip(first, count);
      } else if mode == GL_POLYGON || mode == GL_TRIANGLE_FAN {
        DrawArrayFan(first, count);
      } else if mode == GL_LINES {
        DrawArrayLines(first, count);
      } else if mode == GL_LINE_STRIP {
        DrawArrayLineStrip(first, count);
      } else if mode == GL_LINE_LOOP {
        DrawArrayLineLoop(first, count);
      } else if mode == GL_POINTS {
        DrawArrayPoints(first, count);
      }
    }

    // ------------------------------------------------------------ drawElements, mode by mode

    /** One more face of a decomposition read through the index buffer `buffer`: `face` holds
        positions in the buffer, and the vertices written are the entries found there. */
    method EmitRelabelled(ghost faces0: seq<Face>, ghost vertices0: seq<Vertex>, ghost settings0: Settings,
                          ghost done: seq<seq<nat>>, ghost next: seq<seq<nat>>, face: seq<nat>, buffer: seq<nat>)
      requires 1 <= |face| <= 3 && Within(done, 0, |buffer|) && next == done + [face]
      requires forall k :: 0 <= k < |face| ==> face[k] < |buffer|
      requires Emitted(faces0, vertices0, settings0, Relabel(done, buffer))
      modifies model
      ensures Within(next, 0, |buffer|)
      ensures Emitted(faces0, vertices0, settings0, Relabel(next, buffer))
    {
      RelabelSnoc(done, face, buffer);
      ghost var written := RelabelFace(face, buffer);
      if |face| == 3 {
        assert written == [buffer[face[0]], buffer[face[1]], buffer[face[2]]];
        EmitTriangle(faces0, vertices0, settings0, Relabel(done, buffer), Relabel(next, buffer), buffer[face[0]], buffer[face[1]], buffer[face[2]]);
      } else if |face| == 2 {
        assert written == [buffer[face[0]], buffer[face[1]]];
        EmitLine(faces0, vertices0, settings0, Relabel(done, buffer), Relabel(next, buffer), buffer[face[0]], buffer[face[1]]);
      } else {
        assert written == [buffer[face[0]]];
        EmitPoint(faces0, vertices0, settings0, Relabel(done, buffer), Relabel(next, buffer), buffer[face[0]]);
      }
    }

    /** The two triangles of quad `steps` of an index buffer, whose first position is `iptr`. */
    method EmitElementQuad(ghost faces0: seq<Face>, ghost vertices0: seq<Vertex>, ghost settings0: Settings,
                           ghost steps: nat, iptr: nat, buffer: seq<nat>)
      requires iptr == 4 * steps && iptr + 3 < |buffer| && Within(Quads(0, steps), 0, |buffer|)
      requires Emitted(faces0, vertices0, settings0, Relabel(Quads(0, steps), buffer))
      modifies model
      ensures Within(Quads(0, steps + 1), 0, |buffer|)
      ensures Emitted(faces0, vertices0, settings0, Relabel(Quads(0, steps + 1), buffer))
    {
      ghost var done: seq<seq<nat>> := Quads(0, steps);
      ghost var half := done + [[iptr, iptr + 1, iptr + 2]];
      QuadsSnoc(0, steps);
      EmitRelabelled(faces0, vertices0, settings0, done, half, [iptr, iptr + 1, iptr + 2], buffer);
      EmitRelabelled(faces0, vertices0, settings0, half, Quads(0, steps + 1), [iptr, iptr + 2, iptr + 3], buffer);
    }

    /** The two triangles of quad-strip step `steps` of an index buffer, whose first position
        is `iptr`. */
    method EmitElementQuadStripStep(ghost faces0: seq<Face>, ghost vertices0: seq<Vertex>, ghost settings0: Settings,
                                    ghost steps: nat, iptr: nat, buffer: seq<nat>)
      requires iptr == 2 * steps && iptr + 3 < |buffer| && Within(QuadStrip(0, steps), 0, |buffer|)
      requires Emitted(faces0, vertices0, settings0, Relabel(QuadStrip(0, steps), buffer))
      modifies model
      ensures Within(QuadStrip(0, steps + 1), 0, |buffer|)
      ensures Emitted(faces0, vertices0, settings0, Relabel(QuadStrip(0, steps + 1), buffer))
    {
      ghost var done: seq<seq<nat>> := QuadStrip(0, steps);
      ghost var half := done + [[iptr, iptr + 1, iptr + 2]];
      QuadStripSnoc(0, steps);
      EmitRelabelled(faces0, vertices0, settings0, done, half, [iptr, iptr + 1, iptr + 2], buffer);
      EmitRelabelled(faces0, vertices0, settings0, half, QuadStrip(0, steps + 1), [iptr + 1, iptr + 3, iptr + 2], buffer);
    }

    /** GL_TRIANGLES in `drawElements`: one triangle per complete triple of indices. */
    method DrawElementTriangles(count: Int32, indices: seq<nat>)
      requires 0 < count <= |indices|
      modifies model
      ensures Emitted(old(model.faces), old(model.vertices), old(SettingsOf(model)), ElementFaces(GL_TRIANGLES, indices[..count]))
    {
      ghost var faces0, vertices0, settings0 := model.faces, model.vertices, SettingsOf(model);
      var buffer := indices[..count];
      var iptr := 0;
      ghost var steps: nat := 0;
      while iptr + 2 < count
        invariant iptr == 3 * steps && (steps == 0 || iptr - 1 < count)
        invariant Within(Triangles(0, steps), 0, count)
        invariant Emitted(faces0, vertices0, settings0, Relabel(Triangles(0, steps), buffer))
      {
        EmitRelabelled(faces0, vertices0, settings0, Triangles(0, steps), Triangles(0, steps + 1), [iptr, iptr + 1, iptr + 2], buffer);
        iptr, steps := iptr + 3, steps + 1;
      }
      StepsExact(2, count, 3, steps);
      ElementFacesOf(GL_TRIANGLES, buffer, Triangles(0, steps));
    }

    /** GL_TRIANGLE_STRIP in `drawElements`. */
    method DrawElementStrip(count: Int32, indices: seq<nat>)
      requires 0 < count <= |indices|
      modifies model
      ensures Emitted(old(model.faces), old(model.vertices), old(SettingsOf(model)), ElementFaces(GL_TRIANGLE_STRIP, indices[..count]))
    {
      ghost var faces0, vertices0, settings0 := model.faces, model.vertices, SettingsOf(model);
      var buffer := indices[..count];
      var iptr := 0;
      var i := 2;
      while i < count
        invariant i == 2 + iptr && (iptr == 0 || i - 1 < count)
        invariant Within(Strip(0, iptr), 0, count)
        invariant Emitted(faces0, vertices0, settings0, Relabel(Strip(0, iptr), buffer))
      {
        var face := if i % 2 == 1 then [iptr, iptr + 2, iptr + 1] else [iptr, iptr + 1, iptr + 2];
        EmitRelabelled(faces0, vertices0, settings0, Strip(0, iptr), Strip(0, iptr + 1), face, buffer);
        i, iptr := i + 1, iptr + 1;
      }
      StepsExact(2, count, 1, iptr);
      ElementFacesOf(GL_TRIANGLE_STRIP, buffer, Strip(0, iptr));
    }

    /** GL_QUADS in `drawElements`. */
    method DrawElementQuads(count: Int32, indices: seq<nat>)
      requires 0 < count <= |indices|
      modifies model
      ensures Emitted(old(model.faces), old(model.vertices), old(SettingsOf(model)), ElementFaces(GL_QUADS, indices[..count]))
    {
      ghost var faces0, vertices0, settings0 := model.faces, model.vertices, SettingsOf(model);
      var buffer := indices[..count];
      var iptr := 0;
      var i := 3;
      ghost var steps: nat := 0;
      while i < count
        invariant i == 3 + 4 * steps && iptr == 4 * steps && (steps == 0 || i - 4 < count)
        invariant Within(Quads(0, steps), 0, count)
        invariant Emitted(faces0, vertices0, settings0, Relabel(Quads(0, steps), buffer))
      {
        EmitElementQuad(faces0, vertices0, settings0, steps, iptr, buffer);
        i, iptr, steps := i + 4, iptr + 4, steps + 1;
      }
      StepsExact(3, count, 4, steps);
      ElementFacesOf(GL_QUADS, buffer, Quads(0, steps));
    }

    /** GL_QUAD_STRIP in `drawElements`. */
    method DrawElementQuadStrip(count: Int32, indices: seq<nat>)
      requires 0 < count <= |indices|
      modifies model
      ensures Emitted(old(model.faces), old(model.vertices), old(SettingsOf(model)), ElementFaces(GL_QUAD_STRIP, indices[..count]))
    {
      ghost var faces0, vertices0, settings0 := model.faces, model.vertices, SettingsOf(model);
      var buffer := indices[..count];
      var iptr := 0;
      var i := 3;
      ghost var steps: nat := 0;
      while i < count
        invariant i == 3 + 2 * steps && iptr == 2 * steps && (steps == 0 || i - 2 < count)
        invariant Within(QuadStrip(0, steps), 0, count)
        invariant Emitted(faces0, vertices0, settings0, Relabel(QuadStrip(0, steps), buffer))
      {
        EmitElementQuadStripStep(faces0, vertices0, settings0, steps, iptr, buffer);
        i, iptr, steps := i + 2, iptr + 2, steps + 1;
      }
      StepsExact(3, count, 2, steps);
      ElementFacesOf(GL_QUAD_STRIP, buffer, QuadStrip(0, steps));
    }

    /** GL_TRIANGLE_FAN, and GL_POLYGON drawn as one, in `drawElements`: every triangle starts at the first index. */
    method DrawElementFan(count: Int32, indices: seq<nat>)
      requires 0 < count <= |indices|
      modifies model
      ensures Emitted(old(model.faces), old(model.vertices), old(SettingsOf(model)), ElementFaces(GL_TRIANGLE_FAN, indices[..count]))
    {
      ghost var faces0, vertices0, settings0 := model.faces, model.vertices, SettingsOf(model);
      var buffer := indices[..count];
      var iptr := 1;
      var i := 2;
      while i < count
        invariant i == 1 + iptr && (iptr == 1 || i - 1 < count)
        invariant Within(Fan(0, iptr - 1), 0, count)
        invariant Emitted(faces0, vertices0, settings0, Relabel(Fan(0, iptr - 1), buffer))
      {
        EmitRelabelled(faces0, vertices0, settings0, Fan(0, iptr - 1), Fan(0, iptr), [0, iptr, iptr + 1], buffer);
        i, iptr := i + 1, iptr + 1;
      }
      StepsExact(2, count, 1, iptr - 1);
      ElementFacesOf(GL_TRIANGLE_FAN, buffer, Fan(0, iptr - 1));
    }

    /** GL_LINES in `drawElements`: one line per complete pair of indices. */
    method DrawElementLines(count: Int32, indices: seq<nat>)
      requires 0 < count <= |indices|
      modifies model
      ensures Emitted(old(model.faces), old(model.vertices), old(SettingsOf(model)), ElementFaces(GL_LINES, indices[..count]))
    {
      ghost var faces0, vertices0, settings0 := model.faces, model.vertices, SettingsOf(model);
      var buffer := indices[..count];
      var iptr := 0;
      ghost var steps: nat := 0;
      while iptr + 1 < count
        invariant iptr == 2 * steps && (steps == 0 || iptr - 1 < count)
        invariant Within(Lines(0, steps), 0, count)
        invariant Emitted(faces0, vertices0, settings0, Relabel(Lines(0, steps), buffer))
      {
        EmitRelabelled(faces0, vertices0, settings0, Lines(0, steps), Lines(0, steps + 1), [iptr, iptr + 1], buffer);
        iptr, steps := iptr + 2, steps + 1;
      }
      StepsExact(1, count, 2, steps);
      ElementFacesOf(GL_LINES, buffer, Lines(0, steps));
    }

    /** GL_LINE_STRIP in `drawElements`: a line between every two consecutive indices. */
    method DrawElementLineStrip(count: Int32, indices: seq<nat>)
      requires 0 < count <= |indices|
      modifies model
      ensures Emitted(old(model.faces), old(model.vertices), old(SettingsOf(model)), ElementFaces(GL_LINE_STRIP, indices[..count]))
    {
      ghost var faces0, vertices0, settings0 := model.faces, model.vertices, SettingsOf(model);
      var buffer := indices[..count];
      DrawElementLineRun(count, buffer);
      ElementFacesOf(GL_LINE_STRIP, buffer, LineStrip(0, Steps(1, count, 1)));
    }

    /** GL_LINE_LOOP in `drawElements`: the strip, then the line from the last index back to the first. */
    method DrawElementLineLoop(count: Int32, indices: seq<nat>)
      requires 0 < count <= |indices|
      modifies model
      ensures Emitted(old(model.faces), old(model.vertices), old(SettingsOf(model)), ElementFaces(GL_LINE_LOOP, indices[..count]))
    {
      ghost var faces0, vertices0, settings0 := model.faces, model.vertices, SettingsOf(model);
      var buffer := indices[..count];
      DrawElementLineRun(count, buffer);
      assert LoopClosing(0, count) == [count - 1, 0];
      EmitRelabelled(faces0, vertices0, settings0, LineStrip(0, Steps(1, count, 1)),
        LineStrip(0, Steps(1, count, 1)) + [[count - 1, 0]], [count - 1, 0], buffer);
      ElementFacesOf(GL_LINE_LOOP, buffer, LineStrip(0, Steps(1, count, 1)) + [[count - 1, 0]]);
    }

    /** GL_POINTS in `drawElements`. */
    method DrawElementPoints(count: Int32, indices: seq<nat>)
      requires 0 < count <= |indices|
      modifies model
      ensures Emitted(old(model.faces), old(model.vertices), old(SettingsOf(model)), ElementFaces(GL_POINTS, indices[..count]))
    {
      ghost var faces0, vertices0, settings0 := model.faces, model.vertices, SettingsOf(model);
      var buffer := indices[..count];
      var iptr := 0;
      while iptr < count
        invariant 0 <= iptr <= count
        invariant Within(Points(0, iptr), 0, count)
        invariant Emitted(faces0, vertices0, settings0, Relabel(Points(0, iptr), buffer))
      {
        EmitRelabelled(faces0, vertices0, settings0, Points(0, iptr), Points(0, iptr + 1), [iptr], buffer);
        iptr := iptr + 1;
      }
      ElementFacesOf(GL_POINTS, buffer, Points(0, iptr));
    }

    /** The lines of a strip over `buffer`, shared by GL_LINE_STRIP and GL_LINE_LOOP. */
    method DrawElementLineRun(count: Int32, buffer: seq<nat>)
      requires 0 < count == |buffer|
      modifies model
      ensures Within(LineStrip(0, Steps(1, count, 1)), 0, count)
      ensures Emitted(old(model.faces), old(model.vertices), old(SettingsOf(model)), Relabel(LineStrip(0, Steps(1, count, 1)), buffer))
    {
      ghost var faces0, vertices0, settings0 := model.faces, model.vertices, SettingsOf(model);
      var iptr := 1;
      while iptr < count
        invariant 1 <= iptr <= count
        invariant Within(LineStrip(0, iptr - 1), 0, count)
        invariant Emitted(faces0, vertices0, settings0, Relabel(LineStrip(0, iptr - 1), buffer))
      {
        EmitRelabelled(faces0, vertices0, settings0, LineStrip(0, iptr - 1), LineStrip(0, iptr), [iptr - 1, iptr], buffer);
        iptr := iptr + 1;
      }
    }

    /** `drawElements`: nothing without an index buffer or without indices; otherwise the
        faces of `ElementFaces` over the first `count` indices, appended in order. */
    method DrawElements(mode: nat, count: Int32, indices: Option<seq<nat>>)
      requires indices.Some? ==> 0 <= count <= |indices.value|
      modifies model
      ensures indices.None? || count == 0 ==> Emitted(old(model.faces), old(model.vertices), old(SettingsOf(model)), [])
      ensures indices.Some? && count > 0 ==> Emitted(old(model.faces), old(model.vertices), old(SettingsOf(model)), ElementFaces(mode, indices.value[..count]))
    {
      if indices.None? || count == 0 {
        return;
      }
      var ind := indices.value;
      if mode == GL_TRIANGLES {
        DrawElementTriangles(count, ind);
      } else if mode == GL_TRIANGLE_STRIP {
        DrawElementStrip(count, ind);
      } else if mode == GL_QUADS {
        DrawElementQuads(count, ind);
      } else if mode == GL_QUAD_STRIP {
        DrawElementQuadStrip(count, ind);
      } else if mode == GL_POLYGON || mode == GL_TRIANGLE_FAN {
        DrawElementFan(count, ind);
      } else if mode == GL_LINES {
        DrawElementLines(count, ind);
      } else if mode == GL_LINE_STRIP {
        DrawElementLineStrip(count, ind);
      } else if mode == GL_LINE_LOOP {
        DrawElementLineLoop(count, ind);
      } else if mode == GL_POINTS {
        DrawElementPoints(count, ind);
      } else {
        assert ElementFaces(mode, ind[..count]) == [];
      }
    }

    // ------------------------------------------------------------ begin / vertex / end

    method Begin(mode: nat)
      modifies this`modeCache, this`indexCache
      ensures modeCache == mode && indexCache == []
    {
      modeCache := mode;
      indexCache := [];
    }

    method Vertex(vert: nat)
      modifies this`indexCache
      ensures indexCache == old(indexCache) + [vert]
    {
      indexCache := indexCache + [vert];
    }

    /** `end`: the cached indices are drawn with the cached mode, when there are any. */
    method End()
      requires |indexCache| < INT32_LIMIT
      modifies model
      ensures indexCache == [] ==> Emitted(old(model.faces), old(model.vertices), old(SettingsOf(model)), [])
      ensures indexCache != [] ==> Emitted(old(model.faces), old(model.vertices), old(SettingsOf(model)), ElementFaces(modeCache, indexCache))
    {
      if indexCache != [] {
        DrawElements(modeCache, |indexCache|, Some(indexCache));
        assert indexCache[..|indexCache|] == indexCache;
      }
    }
  }
}
