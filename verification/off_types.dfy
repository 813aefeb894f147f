/** Value types of the Geomview OFF model (`off::Model::Vertex`, `off::Model::Face`) and the
    numeric text conversions the OFF plug-in takes from the C++ streams. */
module OffTypes {
  import opened Common

  /** `osg::Vec2` with exact (real) components. */
  datatype Vec2 = Vec2(x: real, y: real)

  /** `osg::Vec3` with exact (real) components. */
  datatype Vec3 = Vec3(x: real, y: real, z: real)

  const ZERO3 := Vec3(0.0, 0.0, 0.0)

  /** `osg::Vec4` with exact (real) components. */
  datatype Vec4 = Vec4(x: real, y: real, z: real, w: real)

  /** `v[i]`. */
  function Component(v: Vec4, i: nat): real
    requires i < 4
  {
    if i == 0 then v.x else if i == 1 then v.y else if i == 2 then v.z else v.w
  }

  /** `v[i] = r`. */
  function WithComponent(v: Vec4, i: nat, r: real): (u: Vec4)
    requires i < 4
    ensures Component(u, i) == r
    ensures forall j :: 0 <= j < 4 && j != i ==> Component(u, j) == Component(v, j)
  {
    if i == 0 then v.(x := r) else if i == 1 then v.(y := r) else if i == 2 then v.(z := r) else v.(w := r)
  }

  /** `v[i] = r` on a two-component vector. */
  function WithComponent2(v: Vec2, i: nat, r: real): (u: Vec2)
    requires i < 2
  {
    if i == 0 then v.(x := r) else v.(y := r)
  }

  datatype Vertex = Vertex(position: Vec4, normal: Vec4, color: Vec4, texcoord: Vec2)

  /** What `Vertex()` builds: position and normal (0,0,0,1), colour opaque red, texture
      coordinate (0,0). Components a file does not give keep these values. */
  const DEFAULT_VERTEX := Vertex(Vec4(0.0, 0.0, 0.0, 1.0), Vec4(0.0, 0.0, 0.0, 1.0),
                                 Vec4(1.0, 0.0, 0.0, 1.0), Vec2(0.0, 0.0))

  /** `Vertex::operator==`: position, normal, colour and texture coordinate agree
      component by component. */
  predicate SameVertex(a: Vertex, b: Vertex)
  {
    (forall i :: 0 <= i < 4 ==> Component(a.position, i) == Component(b.position, i)) &&
    (forall i :: 0 <= i < 4 ==> Component(a.normal, i) == Component(b.normal, i)) &&
    (forall i :: 0 <= i < 4 ==> Component(a.color, i) == Component(b.color, i)) &&
    a.texcoord.x == b.texcoord.x && a.texcoord.y == b.texcoord.y
  }

  /** Component-wise equality of vertices is exactly equality of the values, so `merge`
      shares a stored vertex only with an identical one. */
  lemma SameVertexIsEquality(a: Vertex, b: Vertex)
    ensures SameVertex(a, b) <==> a == b
  {
    if SameVertex(a, b) {
      assert Component(a.position, 0) == Component(b.position, 0);
      assert Component(a.position, 1) == Component(b.position, 1);
      assert Component(a.position, 2) == Component(b.position, 2);
      assert Component(a.position, 3) == Component(b.position, 3);
      assert Component(a.normal, 0) == Component(b.normal, 0);
      assert Component(a.normal, 1) == Component(b.normal, 1);
      assert Component(a.normal, 2) == Component(b.normal, 2);
      assert Component(a.normal, 3) == Component(b.normal, 3);
      assert Component(a.color, 0) == Component(b.color, 0);
      assert Component(a.color, 1) == Component(b.color, 1);
      assert Component(a.color, 2) == Component(b.color, 2);
      assert Component(a.color, 3) == Component(b.color, 3);
    }
  }

  /** A face: vertex indices, a colour and an index into a colour map. */
  datatype Face = Face(indices: seq<nat>, color: Vec4, colormapIndex: SizeT)

  /** `(size_t)-1`: the face has no colour-map index and carries its colour itself. */
  const NO_COLORMAP: SizeT := SIZE_T_MAX

  /** What `Face()` builds: no indices, opaque black, no colour-map index. */
  const DEFAULT_FACE := Face([], Vec4(0.0, 0.0, 0.0, 1.0), NO_COLORMAP)

  /** The numeric text and bit conversions the plug-in delegates to the C++ library, taken
      as given functions:
      - `isNumber(s)`: `s` reads completely as a float (`istream >> float`, nothing left);
      - `parseFloat`, `parseInt`, `parseUnsignedInt`: `istream >>` into float, int, unsigned,
        0 when nothing is read;
      - `formatFloat`: `ostream << float` with the default settings;
      - `floatOfBits`, `bitsOfFloat`: reinterpretation between a float and its 32 bits;
      - `scanFloats(s)`: the successive values the `%f` conversions of `sscanf` store before
        the first one that fails. */
  datatype Conv = Conv(
    isNumber: string -> bool,
    parseFloat: string -> real,
    parseInt: string -> Int32,
    parseUnsignedInt: string -> U32,
    formatFloat: real -> string,
    floatOfBits: U32 -> real,
    bitsOfFloat: real -> U32,
    scanFloats: string -> seq<real>)

  /** The integer conversions read back the decimal text the writers print. */
  predicate ReadsBackIntegers(conv: Conv)
  {
    (forall n: nat {:trigger NatToDecimal(n)} :: n < 0x1_0000_0000 ==>
       conv.isNumber(NatToDecimal(n)) && conv.parseUnsignedInt(NatToDecimal(n)) == n) &&
    (forall n: nat {:trigger NatToDecimal(n)} :: n < INT32_LIMIT ==> conv.parseInt(NatToDecimal(n)) == n)
  }

  /** `r` prints as one word of printable ASCII characters, other than '#' and '\\', that
      reads back as `r` (the default six significant digits are enough for it). */
  predicate PrintsExactly(conv: Conv, r: real)
  {
    var s := conv.formatFloat(r);
    s != [] && ' ' !in s && '\t' !in s && '#' !in s && '\0' !in s &&
    (forall i :: 0 <= i < |s| ==> '!' <= s[i] <= '~' && s[i] != '\\') &&
    conv.isNumber(s) && conv.parseFloat(s) == r
  }
}
