/** Lossless packing of a triangle index buffer ("simple lossless index buffer
    compression"): two consecutive triangles that share an edge with opposite
    directions become one 4-entry group whose first entry is smaller than its
    second; every other triangle becomes a 3-entry group, rotated so that its first
    entry is not smaller than its second. The decoder tells the two kinds apart by
    that comparison alone. */
module CompressIndices {
  import opened Common

  /** A vertex index. The packer compares indices as `int` in some places and as
      `unsigned int` in others; the two agree for indices below 2^31. */
  type Index = i: int | 0 <= i < 0x8000_0000

  /** The triangle starting at `base`. */
  function Tri(s: seq<Index>, base: nat): (t: seq<Index>)
    requires base + 3 <= |s|
    ensures |t| == 3
  {
    s[base..base + 3]
  }

  /** `u` is one of the three cyclic rotations of the triangle `t`, i.e. the same
      triangle with the same winding. */
  predicate IsRotation(t: seq<Index>, u: seq<Index>)
    requires |t| == 3
  {
    u == t || u == [t[1], t[2], t[0]] || u == [t[2], t[0], t[1]]
  }

  /** The corner after corner `i` of a triangle. */
  function Succ(i: nat): (k: nat)
    requires i < 3
    ensures k < 3
  {
    if i == 2 then 0 else i + 1
  }

  /** The rotation of `t` that starts at corner `i`. */
  function RotateTo(t: seq<Index>, i: nat): (u: seq<Index>)
    requires |t| == 3 && i < 3
    ensures |u| == 3 && u[0] == t[i] && u[1] == t[Succ(i)] && u[2] == t[Succ(Succ(i))]
    ensures IsRotation(t, u)
  {
    [t[i], t[Succ(i)], t[Succ(Succ(i))]]
  }

  predicate Degenerate(t: seq<Index>)
    requires |t| == 3
  {
    t[0] == t[1] || t[1] == t[2] || t[2] == t[0]
  }

  /** Edge `i` of `t` (from corner i to corner i+1) is edge `j` of `n` reversed. */
  predicate EdgeMatch(t: seq<Index>, n: seq<Index>, i: nat, j: nat)
    requires |t| == 3 && |n| == 3 && i < 3 && j < 3
  {
    n[j] == t[Succ(i)] && n[Succ(j)] == t[i]
  }

  /** Search order of `try_merge_with_next`: edges of `t` in the outer loop, edges of
      `n` in the inner loop; the first match wins. `SearchNext(t, n, i, j)` is the
      search resumed at edge `i` of `t` and edge `j` of `n`. */
  function SearchNext(t: seq<Index>, n: seq<Index>, i: nat, j: nat): (r: Option<(nat, nat)>)
    requires |t| == 3 && |n| == 3 && i <= 3 && j <= 3
    ensures r.Some? ==> r.value.0 < 3 && r.value.1 < 3 && EdgeMatch(t, n, r.value.0, r.value.1)
    decreases 3 - i, 3 - j
  {
    if i == 3 then None
    else if j == 3 then SearchNext(t, n, i + 1, 0)
    else if EdgeMatch(t, n, i, j) then Some((i, j))
    else SearchNext(t, n, i, j + 1)
  }

  /** The search finds a match whenever one exists. */
  lemma {:induction false} SearchNextComplete(t: seq<Index>, n: seq<Index>, i: nat, j: nat, i': nat, j': nat)
    requires |t| == 3 && |n| == 3 && i <= 3 && j <= 3
    requires i' < 3 && j' < 3 && EdgeMatch(t, n, i', j')
    requires i < i' || (i == i' && j <= j')
    ensures SearchNext(t, n, i, j).Some?
    decreases 3 - i, 3 - j
  {
    if j == 3 {
      SearchNextComplete(t, n, i + 1, 0, i', j');
    } else if !EdgeMatch(t, n, i, j) {
      SearchNextComplete(t, n, i, j + 1, i', j');
    }
  }

  /** The 4-entry group for a match of edge `i` of `t` with edge `j` of `n`: with
      a = t[i], b = t[i+1], c = t[i+2] and d the corner of `n` off the shared edge,
      it is (a,b,c,d) when a < b and (b,a,d,c) otherwise. */
  function MergedGroup(t: seq<Index>, n: seq<Index>, i: nat, j: nat): (q: seq<Index>)
    requires |t| == 3 && |n| == 3 && i < 3 && j < 3
  {
    var a, b, c, d := t[i], t[Succ(i)], t[Succ(Succ(i))], n[Succ(Succ(j))];
    if a < b then [a, b, c, d] else [b, a, d, c]
  }

  /** Some edge of `t` appears reversed in `n`. */
  predicate HasOppositeEdge(t: seq<Index>, n: seq<Index>)
    requires |t| == 3 && |n| == 3
  {
    exists i, j :: 0 <= i < 3 && 0 <= j < 3 && EdgeMatch(t, n, i, j)
  }

  /** `try_merge_with_next` as a value: the 4-entry group it appends, or None when it
      appends nothing. */
  function TryMerge(s: seq<Index>, base: nat): (r: Option<seq<Index>>)
    ensures r.Some? ==> base + 6 <= |s| && |r.value| == 4
  {
    if base + 6 > |s| then None
    else if Degenerate(Tri(s, base)) then None
    else
      match SearchNext(Tri(s, base), Tri(s, base + 3), 0, 0)
      case None => None
      case Some(m) => Some(MergedGroup(Tri(s, base), Tri(s, base + 3), m.0, m.1))
  }

  /** What `try_merge_with_next` promises: nothing is appended when there is no next
      triangle or the triangle at `base` is degenerate; otherwise a group is appended
      exactly when some edge of the triangle appears reversed in the next one. A group
      (a,b,c,d) has a < b and stands for the triangles (a,b,c) and (a,d,b): one is a
      rotation of the triangle at `base`, the other of the next triangle. */
  lemma TryMergeSpec(s: seq<Index>, base: nat)
    ensures base + 6 > |s| ==> TryMerge(s, base).None?
    ensures base + 6 <= |s| && Degenerate(Tri(s, base)) ==> TryMerge(s, base).None?
    ensures base + 6 <= |s| && !Degenerate(Tri(s, base)) ==>
      (TryMerge(s, base).Some? <==> HasOppositeEdge(Tri(s, base), Tri(s, base + 3)))
    ensures TryMerge(s, base).Some? ==> var q := TryMerge(s, base).value;
      q[0] < q[1] &&
      ((IsRotation(Tri(s, base), q[..3]) && IsRotation(Tri(s, base + 3), [q[0], q[3], q[1]])) ||
       (IsRotation(Tri(s, base + 3), q[..3]) && IsRotation(Tri(s, base), [q[0], q[3], q[1]])))
  {
    if base + 6 <= |s| && !Degenerate(Tri(s, base)) {
      var t, n := Tri(s, base), Tri(s, base + 3);
      match SearchNext(t, n, 0, 0)
      case None =>
        if HasOppositeEdge(t, n) {
          var i, j :| 0 <= i < 3 && 0 <= j < 3 && EdgeMatch(t, n, i, j);
          SearchNextComplete(t, n, 0, 0, i, j);
        }
      case Some(m) =>
        MergedGroupShape(t, n, m.0, m.1);
    }
  }

  /** Which triangle each half of a merged group comes from. */
  lemma MergedGroupShape(t: seq<Index>, n: seq<Index>, i: nat, j: nat)
    requires |t| == 3 && |n| == 3 && i < 3 && j < 3
    requires !Degenerate(t) && EdgeMatch(t, n, i, j)
    ensures var q := MergedGroup(t, n, i, j);
      |q| == 4 && q[0] < q[1] &&
      (t[i] < t[Succ(i)] ==> IsRotation(t, q[..3]) && IsRotation(n, [q[0], q[3], q[1]])) &&
      (t[i] > t[Succ(i)] ==> IsRotation(n, q[..3]) && IsRotation(t, [q[0], q[3], q[1]]))
  {
    var q := MergedGroup(t, n, i, j);
    if t[i] < t[Succ(i)] {
      assert q[..3] == RotateTo(t, i);
      assert [q[0], q[3], q[1]] == RotateTo(n, Succ(j));
    } else {
      assert q[..3] == RotateTo(n, j);
      assert [q[0], q[3], q[1]] == RotateTo(t, Succ(i));
    }
  }

  /** The rotation `pack_inds` emits for a triangle it does not merge: the first of
      (t0,t1,t2), (t1,t2,t0), (t2,t0,t1) whose first entry is not below its second. */
  function Canonical(t: seq<Index>): (u: seq<Index>)
    requires |t| == 3
    ensures |u| == 3 && u[0] >= u[1] && IsRotation(t, u)
  {
    if t[0] >= t[1] then t
    else if t[1] >= t[2] then [t[1], t[2], t[0]]
    else [t[2], t[0], t[1]]
  }

  /** The packed form of the triangles from `base` on. */
  function PackFrom(s: seq<Index>, base: nat): seq<Index>
    requires base <= |s|
    decreases |s| - base
  {
    if base + 3 > |s| then []
    else match TryMerge(s, base)
      case Some(q) => q + PackFrom(s, base + 6)
      case None => Canonical(Tri(s, base)) + PackFrom(s, base + 3)
  }

  function Pack(s: seq<Index>): seq<Index>
    requires |s| % 3 == 0
  {
    PackFrom(s, 0)
  }

  /** The shape of a packed stream: a sequence of 4-entry groups whose first entry is
      below the second and 3-entry groups whose first entry is not. This is exactly
      what `unpack_inds` can read without running past the end. */
  predicate WellFormed(p: seq<Index>)
    decreases |p|
  {
    p == [] ||
    (|p| >= 3 && p[0] >= p[1] && WellFormed(p[3..])) ||
    (|p| >= 4 && p[0] < p[1] && WellFormed(p[4..]))
  }

  /** `unpack_inds` as a value: (a,b,c) for every group, followed by (a,d,b) for a
      4-entry group (a,b,c,d). */
  function Unpack(p: seq<Index>): seq<Index>
    requires WellFormed(p)
    decreases |p|
  {
    if p == [] then []
    else if p[0] < p[1] then [p[0], p[1], p[2], p[0], p[3], p[1]] + Unpack(p[4..])
    else [p[0], p[1], p[2]] + Unpack(p[3..])
  }

  /** Number of merges `pack_inds` performs from `base` on. */
  function MergesFrom(s: seq<Index>, base: nat): nat
    requires base <= |s|
    decreases |s| - base
  {
    if base + 3 > |s| then 0
    else if TryMerge(s, base).Some? then 1 + MergesFrom(s, base + 6)
    else MergesFrom(s, base + 3)
  }

  /** The input triangles in the order in which unpacking returns them: a merged pair
      whose shared edge had a > b comes back swapped. */
  function RestoredFrom(s: seq<Index>, base: nat): seq<Index>
    requires base <= |s|
    decreases |s| - base
  {
    if base + 3 > |s| then []
    else match TryMerge(s, base)
      case Some(q) =>
        if IsRotation(Tri(s, base), q[..3]) then Tri(s, base) + Tri(s, base + 3) + RestoredFrom(s, base + 6)
        else Tri(s, base + 3) + Tri(s, base) + RestoredFrom(s, base + 6)
      case None => Tri(s, base) + RestoredFrom(s, base + 3)
  }

  /** The triangles of an index buffer, one element per triangle. */
  function Triangles(s: seq<Index>): seq<seq<Index>>
    decreases |s|
  {
    if |s| < 3 then [] else [s[..3]] + Triangles(s[3..])
  }

  /** Triangle by triangle, `y` holds a rotation of the triangle of `x` at the same place. */
  predicate RotationWise(x: seq<Index>, y: seq<Index>)
    decreases |x|
  {
    |x| == |y| &&
    (x != [] ==> |x| >= 3 && IsRotation(x[..3], y[..3]) && RotationWise(x[3..], y[3..]))
  }

  // ---------------------------------------------------------------- properties

  /** Every packed stream has the two-kind group structure. */
  lemma {:induction false} PackWellFormed(s: seq<Index>, base: nat)
    requires base <= |s|
    ensures WellFormed(PackFrom(s, base))
    decreases |s| - base
  {
    if base + 3 <= |s| {
      match TryMerge(s, base)
      case Some(q) =>
        PackWellFormed(s, base + 6);
        var p := q + PackFrom(s, base + 6);
        assert p[4..] == PackFrom(s, base + 6);
      case None =>
        PackWellFormed(s, base + 3);
        var p := Canonical(Tri(s, base)) + PackFrom(s, base + 3);
        assert p[3..] == PackFrom(s, base + 3);
    }
  }

  /** Each merge saves two entries: the packed length is the input length minus twice
      the number of merges. */
  lemma {:induction false} PackLength(s: seq<Index>, base: nat)
    requires base <= |s| && (|s| - base) % 3 == 0
    ensures |PackFrom(s, base)| == |s| - base - 2 * MergesFrom(s, base)
    decreases |s| - base
  {
    if base + 3 <= |s| {
      if TryMerge(s, base).Some? {
        PackLength(s, base + 6);
      } else {
        PackLength(s, base + 3);
      }
    }
  }

  /** Unpacking a group followed by a well-formed stream. */
  lemma UnpackGroup(g: seq<Index>, rest: seq<Index>)
    requires WellFormed(rest)
    requires (|g| == 4 && g[0] < g[1]) || (|g| == 3 && g[0] >= g[1])
    ensures WellFormed(g + rest)
    ensures Unpack(g + rest) ==
      (if |g| == 4 then [g[0], g[1], g[2], g[0], g[3], g[1]] else g) + Unpack(rest)
  {
    var p := g + rest;
    assert p[|g|..] == rest;
  }

  lemma RotationWiseAppend(x1: seq<Index>, y1: seq<Index>, x2: seq<Index>, y2: seq<Index>)
    requires |x1| == |y1| == 3 && IsRotation(x1, y1) && RotationWise(x2, y2)
    ensures RotationWise(x1 + x2, y1 + y2)
  {
    assert (x1 + x2)[..3] == x1 && (y1 + y2)[..3] == y1;
    assert (x1 + x2)[3..] == x2 && (y1 + y2)[3..] == y2;
  }

  /** Round trip: unpacking the packed stream gives, triangle by triangle, a rotation
      (same winding) of the input triangles in restored order. */
  lemma {:induction false} RoundTripFrom(s: seq<Index>, base: nat)
    requires base <= |s|
    ensures WellFormed(PackFrom(s, base))
    ensures RotationWise(RestoredFrom(s, base), Unpack(PackFrom(s, base)))
    decreases |s| - base
  {
    PackWellFormed(s, base);
    if base + 3 <= |s| {
      match TryMerge(s, base)
      case Some(q) =>
        RoundTripFrom(s, base + 6);
        TryMergeSpec(s, base);
        var rest := PackFrom(s, base + 6);
        UnpackGroup(q, rest);
        PairRoundTrip(Tri(s, base), Tri(s, base + 3), q, RestoredFrom(s, base + 6), Unpack(rest));
      case None =>
        RoundTripFrom(s, base + 3);
        var rest := PackFrom(s, base + 3);
        var g := Canonical(Tri(s, base));
        UnpackGroup(g, rest);
        RotationWiseAppend(Tri(s, base), g, RestoredFrom(s, base + 3), Unpack(rest));
    }
  }

  /** A merged pair unpacks to rotations of its two triangles, in restored order. */
  lemma PairRoundTrip(t: seq<Index>, n: seq<Index>, q: seq<Index>, r: seq<Index>, u: seq<Index>)
    requires |t| == 3 && |n| == 3 && |q| == 4 && q[0] < q[1] && !Degenerate(t)
    requires (IsRotation(t, q[..3]) && IsRotation(n, [q[0], q[3], q[1]])) ||
             (IsRotation(n, q[..3]) && IsRotation(t, [q[0], q[3], q[1]]))
    requires RotationWise(r, u)
    ensures RotationWise((if IsRotation(t, q[..3]) then t + n else n + t) + r,
                         [q[0], q[1], q[2], q[0], q[3], q[1]] + u)
  {
    var u1, u2 := q[..3], [q[0], q[3], q[1]];
    assert [q[0], q[1], q[2], q[0], q[3], q[1]] == u1 + u2;
    AppendAssoc(u1, u2, u);
    if IsRotation(t, u1) {
      assert IsRotation(n, u2);
      RotationWiseAppend(n, u2, r, u);
      RotationWiseAppend(t, u1, n + r, u2 + u);
      AppendAssoc(t, n, r);
    } else {
      RotationWiseAppend(t, u2, r, u);
      RotationWiseAppend(n, u1, t + r, u2 + u);
      AppendAssoc(n, t, r);
    }
  }

  /** The restored order holds the same triangles as the input: only merged pairs
      may trade places. */
  lemma {:induction false} RestoredIsPermutation(s: seq<Index>, base: nat)
    requires base <= |s| && (|s| - base) % 3 == 0
    ensures |RestoredFrom(s, base)| == |s| - base
    ensures multiset(Triangles(RestoredFrom(s, base))) == multiset(Triangles(s[base..]))
    decreases |s| - base
  {
    if base + 3 <= |s| {
      match TryMerge(s, base)
      case Some(q) =>
        RestoredIsPermutation(s, base + 6);
        MergedPairPermutation(s, base, q);
      case None =>
        RestoredIsPermutation(s, base + 3);
        SinglePermutation(s, base);
    }
  }

  /** A triangle left alone, ahead of a permutation of the rest. */
  lemma SinglePermutation(s: seq<Index>, base: nat)
    requires base + 3 <= |s| && TryMerge(s, base) == None
    requires |RestoredFrom(s, base + 3)| == |s| - base - 3
    requires multiset(Triangles(RestoredFrom(s, base + 3))) == multiset(Triangles(s[base + 3..]))
    ensures |RestoredFrom(s, base)| == |s| - base
    ensures multiset(Triangles(RestoredFrom(s, base))) == multiset(Triangles(s[base..]))
  {
    var t := Tri(s, base);
    TrianglesAt(s, base);
    TrianglesCons(t, RestoredFrom(s, base + 3));
  }

  /** A merged pair, restored in either order ahead of a permutation of the rest. */
  lemma MergedPairPermutation(s: seq<Index>, base: nat, q: seq<Index>)
    requires base + 6 <= |s| && TryMerge(s, base) == Some(q)
    requires (|s| - base) % 3 == 0
    requires |RestoredFrom(s, base + 6)| == |s| - base - 6
    requires multiset(Triangles(RestoredFrom(s, base + 6))) == multiset(Triangles(s[base + 6..]))
    ensures |RestoredFrom(s, base)| == |s| - base
    ensures multiset(Triangles(RestoredFrom(s, base))) == multiset(Triangles(s[base..]))
  {
    var t, n, r, rest := Tri(s, base), Tri(s, base + 3), RestoredFrom(s, base + 6), s[base + 6..];
    assert RestoredFrom(s, base) == t + n + r || RestoredFrom(s, base) == n + t + r;
    TrianglesAt(s, base);
    TrianglesAt(s, base + 3);
    assert Triangles(s[base..]) == [t] + ([n] + Triangles(rest));
    PairPermutation(t, n, r, rest);
  }

  lemma TrianglesAt(s: seq<Index>, base: nat)
    requires base + 3 <= |s|
    ensures Triangles(s[base..]) == [Tri(s, base)] + Triangles(s[base + 3..])
  {
    assert s[base..][..3] == Tri(s, base) && s[base..][3..] == s[base + 3..];
  }

  /** Two triangles followed by a permutation of `rest`, in either order. */
  lemma PairPermutation(t: seq<Index>, n: seq<Index>, r: seq<Index>, rest: seq<Index>)
    requires |t| == 3 && |n| == 3
    requires multiset(Triangles(r)) == multiset(Triangles(rest))
    ensures multiset(Triangles(t + n + r)) == multiset([t] + ([n] + Triangles(rest)))
    ensures multiset(Triangles(n + t + r)) == multiset([t] + ([n] + Triangles(rest)))
  {
    AppendAssoc(t, n, r);
    AppendAssoc(n, t, r);
    TrianglesCons(t, n + r);
    TrianglesCons(n, r);
    TrianglesCons(n, t + r);
    TrianglesCons(t, r);
  }

  lemma TrianglesCons(t: seq<Index>, r: seq<Index>)
    requires |t| == 3
    ensures Triangles(t + r) == [t] + Triangles(r)
  {
    assert (t + r)[..3] == t && (t + r)[3..] == r;
  }

  /** The whole-buffer round trip: as many triangles come back as went in, each one a
      rotation of an input triangle, and the restored order is a permutation of the
      input triangles. */
  lemma RoundTrip(s: seq<Index>)
    requires |s| % 3 == 0
    ensures WellFormed(Pack(s))
    ensures |Unpack(Pack(s))| == |s|
    ensures RotationWise(RestoredFrom(s, 0), Unpack(Pack(s)))
    ensures multiset(Triangles(RestoredFrom(s, 0))) == multiset(Triangles(s))
  {
    RoundTripFrom(s, 0);
    RestoredIsPermutation(s, 0);
    assert s[0..] == s;
  }

  // ---------------------------------------------------------------- the source's procedures

  /** `add_double_tri`: appends a 4-entry group; the caller guarantees a < b. */
  method AddDoubleTri(out: seq<Index>, a: Index, b: Index, c: Index, d: Index) returns (out': seq<Index>)
    requires a < b
    ensures out' == out + [a, b, c, d]
  {
    out' := out + [a, b, c, d];
  }

  /** `add_tri`: appends a 3-entry group; the caller guarantees a >= b. */
  method AddTri(out: seq<Index>, a: Index, b: Index, c: Index) returns (out': seq<Index>)
    requires a >= b
    ensures out' == out + [a, b, c]
  {
    out' := out + [a, b, c];
  }

  /** `try_merge_with_next`: looks for an edge of the triangle at `base` whose reverse
      is an edge of the next triangle, and appends the merged group if it finds one. */
  method TryMergeWithNext(out: seq<Index>, inds: seq<Index>, base: nat) returns (merged: bool, out': seq<Index>)
    requires |inds| % 3 == 0 && base % 3 == 0
    ensures merged <==> TryMerge(inds, base).Some?
    ensures out' == if merged then out + TryMerge(inds, base).value else out
  {
    out' := out;
    if base + 3 >= |inds| {
      return false, out';
    }
    var tri := inds[base..base + 3];
    if tri[0] == tri[1] || tri[1] == tri[2] || tri[2] == tri[0] {
      return false, out';
    }
    var next := inds[base + 3..base + 6];
    var i := 0;
    while i < 3
      invariant 0 <= i <= 3
      invariant SearchNext(tri, next, i, 0) == SearchNext(tri, next, 0, 0)
    {
      var a, b, c := tri[i], tri[Succ(i)], tri[Succ(Succ(i))];
      var j := 0;
      while j < 3
        invariant 0 <= j <= 3
        invariant SearchNext(tri, next, i, j) == SearchNext(tri, next, 0, 0)
      {
        if next[j] == b && next[Succ(j)] == a {
          var d := next[Succ(Succ(j))];
          if a < b {
            out' := AddDoubleTri(out', a, b, c, d);
          } else {
            out' := AddDoubleTri(out', b, a, d, c);
          }
          return true, out';
        }
        j := j + 1;
      }
      i := i + 1;
    }
    return false, out';
  }

  /** `pack_inds`: appends the packed form of `inds` to `out`. */
  method PackInds(out: seq<Index>, inds: seq<Index>) returns (out': seq<Index>)
    requires |inds| % 3 == 0
    ensures out' == out + Pack(inds)
  {
    out' := out;
    var base := 0;
    while base < |inds|
      invariant base % 3 == 0 && base <= |inds|
      invariant out' + PackFrom(inds, base) == out + Pack(inds)
      decreases |inds| - base
    {
      ghost var before := out';
      ghost var b0 := base;
      out', base := PackStep(out', inds, base);
      assert out' + PackFrom(inds, base) == before + PackFrom(inds, b0);
    }
  }

  /** One round of the loop of `pack_inds`. */
  method PackStep(out: seq<Index>, inds: seq<Index>, base: nat) returns (out': seq<Index>, base': nat)
    requires |inds| % 3 == 0 && base % 3 == 0 && base < |inds|
    ensures base' % 3 == 0 && base < base' <= |inds|
    ensures out' + PackFrom(inds, base') == out + PackFrom(inds, base)
  {
    var merged;
    merged, out' := TryMergeWithNext(out, inds, base);
    if merged {
      PackFromMerged(inds, base);
      AppendAssoc(out, TryMerge(inds, base).value, PackFrom(inds, base + 6));
      base' := base + 6;
    } else {
      PackFromSingle(inds, base);
      out' := AddCanonical(out', inds[base..base + 3]);
      AppendAssoc(out, Canonical(Tri(inds, base)), PackFrom(inds, base + 3));
      base' := base + 3;
    }
  }

  /** The non-merging branch of `pack_inds`: appends the triangle in the rotation
      whose first entry is not below its second. */
  method AddCanonical(out: seq<Index>, tri: seq<Index>) returns (out': seq<Index>)
    requires |tri| == 3
    ensures out' == out + Canonical(tri)
  {
    if tri[0] >= tri[1] {
      out' := AddTri(out, tri[0], tri[1], tri[2]);
    } else if tri[1] >= tri[2] {
      out' := AddTri(out, tri[1], tri[2], tri[0]);
    } else {
      out' := AddTri(out, tri[2], tri[0], tri[1]);
    }
  }

  lemma PackFromMerged(s: seq<Index>, base: nat)
    requires base + 3 <= |s|
    requires TryMerge(s, base).Some?
    ensures PackFrom(s, base) == TryMerge(s, base).value + PackFrom(s, base + 6)
  {
  }

  lemma PackFromSingle(s: seq<Index>, base: nat)
    requires base + 3 <= |s|
    requires TryMerge(s, base).None?
    ensures PackFrom(s, base) == Canonical(Tri(s, base)) + PackFrom(s, base + 3)
  {
  }

  /** `unpack_inds`: appends the triangles of the packed stream `inds` to `out`. */
  method UnpackInds(out: seq<Index>, inds: seq<Index>) returns (out': seq<Index>)
    requires WellFormed(inds)
    ensures out' == out + Unpack(inds)
  {
    out' := out;
    var base := 0;
    while base < |inds|
      invariant base <= |inds| && WellFormed(inds[base..])
      invariant out' + Unpack(inds[base..]) == out + Unpack(inds)
      decreases |inds| - base
    {
      ghost var rest := inds[base..];
      var a := inds[base];
      var b := inds[base + 1];
      var c := inds[base + 2];
      base := base + 3;
      out' := out' + [a, b, c];
      if a < b {
        var d := inds[base];
        base := base + 1;
        out' := out' + [a, d, b];
        assert rest[4..] == inds[base..];
      } else {
        assert rest[3..] == inds[base..];
      }
    }
    assert inds[0..] == inds;
  }
}
