/** An encoder for geometries in the well-known binary form (section 8 of OGC 06-103r4, with the
    EWKB flags for SRID, Z and M) and its round trip through the decoder.

    Every node of a geometry chooses its own byte order and its own flags. The decoder computes the
    wrong stride for the flag words that carry exactly one of Z and M and no SRID, and it rejects
    the ISO type codes for Z and M; both are stated exactly.
  */
module WkbRoundTrip {
  import opened Wkb

  /** A position with its Z and M ordinates, if any. */
  datatype Vertex = Vertex(x: Double, y: Double, more: seq<Double>)

  datatype Srid = NoSrid | Srid(code: nat)

  /** How one node is written: byte order, SRID and dimensions. */
  datatype Layout = Layout(le: bool, srid: Srid, z: bool, m: bool)

  datatype Wire =
    | WirePoint(layout: Layout, vertex: Vertex)
    | WireLine(layout: Layout, vertices: seq<Vertex>)
    | WirePolygon(layout: Layout, rings: seq<seq<Vertex>>)
    | WireMulti(layout: Layout, kind: Kind, parts: seq<Wire>)
    | WireCollection(layout: Layout, parts: seq<Wire>)

  const WORD := 0x1_0000_0000

  function TypeWord(l: Layout, baseType: nat): nat {
    baseType + (if l.srid.Srid? then 0x2000_0000 else 0) + (if l.m then 0x4000_0000 else 0)
      + if l.z then 0x8000_0000 else 0
  }

  /** The size of one vertex as written. */
  function Stride(l: Layout): nat {
    (2 + (if l.z then 1 else 0) + (if l.m then 1 else 0)) * 8
  }

  /** The flag words whose dimensions the decoder recognises: not one of Z and M alone without an SRID. */
  predicate Recognised(l: Layout) {
    l.z == l.m || l.srid.Srid?
  }

  // ---------------------------------------------------------------------------------------
  // Encoding
  // ---------------------------------------------------------------------------------------

  /** A 32-bit word, its least significant byte first if little-endian, last if not. */
  function EncodeWord(n: nat, le: bool): (s: seq<Byte>)
    ensures |s| == 4
  {
    if le then [n % 256, n / 256 % 256, n / 0x1_0000 % 256, n / 0x100_0000 % 256]
    else [n / 0x100_0000 % 256, n / 0x1_0000 % 256, n / 256 % 256, n % 256]
  }

  function EncodeDouble(d: Double, le: bool): (s: seq<Byte>)
    ensures |s| == 8
  {
    if le then [d[7], d[6], d[5], d[4], d[3], d[2], d[1], d[0]] else d
  }

  function EncodeHeader(l: Layout, baseType: nat): seq<Byte> {
    [if l.le then 1 else 0] + EncodeWord(TypeWord(l, baseType), l.le)
      + if l.srid.Srid? then EncodeWord(l.srid.code, l.le) else []
  }

  function EncodeDoubles(ds: seq<Double>, le: bool): (s: seq<Byte>)
    ensures |s| == 8 * |ds|
  {
    if ds == [] then [] else EncodeDouble(ds[0], le) + EncodeDoubles(ds[1..], le)
  }

  function EncodeVertex(v: Vertex, le: bool): (s: seq<Byte>)
    ensures |s| == 16 + 8 * |v.more|
  {
    EncodeDouble(v.x, le) + (EncodeDouble(v.y, le) + EncodeDoubles(v.more, le))
  }

  function EncodeVertices(vs: seq<Vertex>, le: bool): seq<Byte> {
    if vs == [] then [] else EncodeVertex(vs[0], le) + EncodeVertices(vs[1..], le)
  }

  function EncodeCoordArray(vs: seq<Vertex>, le: bool): seq<Byte> {
    EncodeWord(|vs|, le) + EncodeVertices(vs, le)
  }

  function EncodeRings(rings: seq<seq<Vertex>>, le: bool): seq<Byte> {
    if rings == [] then [] else EncodeCoordArray(rings[0], le) + EncodeRings(rings[1..], le)
  }

  function BaseTypeOf(w: Wire): nat {
    match w
    case WirePoint(_, _) => 1
    case WireLine(_, _) => 2
    case WirePolygon(_, _) => 3
    case WireMulti(_, kind, _) => if kind == MultiPoint then 4 else if kind == MultiLineString then 5 else 6
    case WireCollection(_, _) => 7
  }

  function Body(w: Wire): seq<Byte>
    decreases w, 0
  {
    match w
    case WirePoint(l, v) => EncodeVertex(v, l.le)
    case WireLine(l, vs) => EncodeCoordArray(vs, l.le)
    case WirePolygon(l, rings) => EncodeWord(|rings|, l.le) + EncodeRings(rings, l.le)
    case WireMulti(l, _, parts) => EncodeWord(|parts|, l.le) + EncodeParts(parts)
    case WireCollection(l, parts) => EncodeWord(|parts|, l.le) + EncodeParts(parts)
  }

  function Encode(w: Wire): seq<Byte>
    decreases w, 1
  {
    EncodeHeader(w.layout, BaseTypeOf(w)) + Body(w)
  }

  function EncodeParts(parts: seq<Wire>): seq<Byte>
    decreases parts, 0
  {
    if parts == [] then [] else Encode(parts[0]) + EncodeParts(parts[1..])
  }

  // ---------------------------------------------------------------------------------------
  // The geometry a node stands for
  // ---------------------------------------------------------------------------------------

  function PositionsOf(vs: seq<Vertex>): (cs: seq<Coords<Double>>)
    ensures |cs| == |vs|
  {
    if vs == [] then [] else [Position(vs[0].x, vs[0].y)] + PositionsOf(vs[1..])
  }

  function RingsOf(rings: seq<seq<Vertex>>): (cs: seq<Coords<Double>>)
    ensures |cs| == |rings|
  {
    if rings == [] then [] else [Array(PositionsOf(rings[0]))] + RingsOf(rings[1..])
  }

  function KindOf(w: Wire): Kind
    requires !w.WireCollection?
  {
    match w
    case WirePoint(_, _) => Point
    case WireLine(_, _) => LineString
    case WirePolygon(_, _) => Polygon
    case WireMulti(_, kind, _) => kind
  }

  /** The coordinates of a node; those of a node with parts are the parts' own, and a collection has none. */
  function CoordinatesOf(w: Wire): Coords<Double>
    decreases w, 0
  {
    match w
    case WirePoint(_, v) => Position(v.x, v.y)
    case WireLine(_, vs) => Array(PositionsOf(vs))
    case WirePolygon(_, rings) => Array(RingsOf(rings))
    case WireMulti(_, _, parts) => Array(CoordinatesOfAll(parts))
    case WireCollection(_, _) => Undefined
  }

  function CoordinatesOfAll(parts: seq<Wire>): seq<Coords<Double>>
    decreases parts, 1
  {
    if parts == [] then [] else [CoordinatesOf(parts[0])] + CoordinatesOfAll(parts[1..])
  }

  function GeometryOf(w: Wire): Geometry
    decreases w, 0
  {
    if w.WireCollection? then Collection(GeometriesOf(w.parts)) else Shape(KindOf(w), CoordinatesOf(w))
  }

  function GeometriesOf(parts: seq<Wire>): (gs: seq<Geometry>)
    ensures |gs| == |parts|
    decreases parts, 1
  {
    if parts == [] then [] else [GeometryOf(parts[0])] + GeometriesOf(parts[1..])
  }

  /** The decoder's coordinates of the parts are the coordinates that the parts were written with. */
  lemma {:induction false} PartsHaveTheirCoordinates(parts: seq<Wire>)
    ensures PartCoordinates(GeometriesOf(parts)) == CoordinatesOfAll(parts)
  {
    if parts != [] {
      assert GeometriesOf(parts)[1..] == GeometriesOf(parts[1..]);
      PartsHaveTheirCoordinates(parts[1..]);
    }
  }

  predicate ValidVertices(l: Layout, vs: seq<Vertex>) {
    |vs| < WORD && forall i :: 0 <= i < |vs| ==> |vs[i].more| == (if l.z then 1 else 0) + if l.m then 1 else 0
  }

  predicate ValidRings(l: Layout, rings: seq<seq<Vertex>>) {
    rings == [] || (ValidVertices(l, rings[0]) && ValidRings(l, rings[1..]))
  }

  predicate ValidParts(parts: seq<Wire>)
    decreases parts, 1
  {
    parts == [] || (Valid(parts[0]) && ValidParts(parts[1..]))
  }

  /** Counts fit in a word, vertices have the dimensions of their node, and every node with vertices
      of its own has a layout that the decoder recognises. */
  predicate Valid(w: Wire)
    decreases w, 0
  {
    && (w.layout.srid.Srid? ==> w.layout.srid.code < WORD)
    && match w
       case WirePoint(l, v) => Recognised(l) && ValidVertices(l, [v])
       case WireLine(l, vs) => Recognised(l) && ValidVertices(l, vs)
       case WirePolygon(l, rings) =>
         Recognised(l) && |rings| < WORD && ValidRings(l, rings)
       case WireMulti(_, kind, parts) =>
         kind in {MultiPoint, MultiLineString, MultiPolygon} && |parts| < WORD && ValidParts(parts)
       case WireCollection(_, parts) => |parts| < WORD && ValidParts(parts)
  }

  // ---------------------------------------------------------------------------------------
  // Type words
  // ---------------------------------------------------------------------------------------

  lemma TypeWordBits(l: Layout, baseType: nat)
    requires 1 <= baseType <= 7
    ensures var t := TypeWord(l, baseType);
            && t < WORD && t % 256 == baseType
            && HasFlag(t, SRID_FLAG) == l.srid.Srid? && HasFlag(t, Z_FLAG) == l.z && HasFlag(t, M_FLAG) == l.m
  {
  }

  /** The thousands digit of every flag word, taken for a dimension by the decoder. */
  function Thousands(l: Layout): nat {
    match (l.srid.Srid?, l.z, l.m)
    case (false, false, false) => 0
    case (true, false, false) => 0
    case (false, true, false) => 3
    case (true, true, false) => 4
    case (false, false, true) => 1
    case (true, false, true) => 2
    case (false, true, true) => 5
    case (true, true, true) => 6
  }

  lemma ThousandsDigit(l: Layout, baseType: nat)
    requires 1 <= baseType <= 7
    ensures TypeWord(l, baseType) / 1000 % 10 == Thousands(l)
  {
    var t := TypeWord(l, baseType);
    match (l.srid.Srid?, l.z, l.m)
    case (false, false, false) => assert t / 1000 == 0;
    case (true, false, false) => assert t / 1000 == 536870;
    case (false, true, false) => assert t / 1000 == 2147483;
    case (true, true, false) => assert t / 1000 == 2684354;
    case (false, false, true) => assert t / 1000 == 1073741;
    case (true, false, true) => assert t / 1000 == 1610612;
    case (false, true, true) => assert t / 1000 == 3221225;
    case (true, true, true) => assert t / 1000 == 3758096;
  }

  /** The decoder finds the base type and the SRID flag of every flag word, and the right stride
      exactly for the recognised ones. */
  lemma TypeWordRead(l: Layout, baseType: nat)
    requires 1 <= baseType <= 7
    ensures TypeWord(l, baseType) < WORD
    ensures BaseType(TypeWord(l, baseType)) == baseType
    ensures HasFlag(TypeWord(l, baseType), SRID_FLAG) == l.srid.Srid?
    ensures CoordSize(TypeWord(l, baseType)) == Stride(l) <==> Recognised(l)
  {
    hide TypeWord, HasFlag;
    TypeWordBits(l, baseType);
    ThousandsDigit(l, baseType);
  }

  /** The stride is 32 for the words it gets wrong. */
  lemma UnrecognisedStride(l: Layout, baseType: nat)
    requires 1 <= baseType <= 7 && !Recognised(l)
    ensures CoordSize(TypeWord(l, baseType)) == 32 && Stride(l) == 24
  {
    hide TypeWord, HasFlag;
    TypeWordBits(l, baseType);
    ThousandsDigit(l, baseType);
  }

  /** Every ISO type code for Z, M or ZM geometries is rejected. */
  lemma IsoCodesRejected(view: seq<Byte>, offset: nat, dimension: nat, baseType: nat)
    requires 1 <= dimension <= 3 && 1 <= baseType <= 7
    requires var h := ReadHeader(view, offset); h.Ok? && h.value.wkbType == 1000 * dimension + baseType
    ensures Decode(view, offset).Error?
  {
    var t := 1000 * dimension + baseType;
    match dimension
    case 1 => assert t % 256 == 232 + baseType;
    case 2 => assert t % 256 == 208 + baseType;
    case 3 => assert t % 256 == 184 + baseType;
  }

  /** So it knows the ISO dimensions all the same, but for a geometry that it then rejects. */
  lemma IsoDimensionsRead(dimension: nat, baseType: nat)
    requires dimension <= 3 && 1 <= baseType <= 7
    ensures CoordSize(1000 * dimension + baseType) == if dimension == 0 then 16 else if dimension == 3 then 32 else 24
    ensures HasZ(1000 * dimension + baseType) <==> dimension in {1, 3}
    ensures HasM(1000 * dimension + baseType) <==> dimension in {2, 3}
  {
  }

  /** The second chance for the base type never finds one. */
  lemma NoBaseTypeInThousands(wkbType: nat)
    requires wkbType % 256 == 0
    ensures BaseType(wkbType) == wkbType % 1000 && !(1 <= BaseType(wkbType) <= 7)
  {
    var a, q, r := wkbType / 256, wkbType / 1000, wkbType % 1000;
    assert wkbType == 256 * a && wkbType == 1000 * q + r;
    NoSmallMultiple(32 * a - 125 * q, r);
  }

  lemma NoSmallMultiple(m: int, r: int)
    requires r == 8 * m
    ensures !(1 <= r <= 7)
  {
  }

  // ---------------------------------------------------------------------------------------
  // Reading back what was written
  // ---------------------------------------------------------------------------------------

  /** The bytes `s` stand at `offset`. */
  predicate At(view: seq<Byte>, offset: nat, s: seq<Byte>) {
    offset + |s| <= |view| && view[offset..offset + |s|] == s
  }

  lemma AtSplit(view: seq<Byte>, offset: nat, a: seq<Byte>, b: seq<Byte>)
    requires At(view, offset, a + b)
    ensures At(view, offset, a) && At(view, offset + |a|, b)
  {
    var s := view[offset..offset + |a + b|];
    assert s[..|a|] == a && s[|a|..] == b;
    assert view[offset..offset + |a|] == s[..|a|];
    assert view[offset + |a|..offset + |a| + |b|] == s[|a|..];
  }

  lemma AtJoined(view: seq<Byte>, offset: nat, whole: seq<Byte>, a: seq<Byte>, b: seq<Byte>)
    requires At(view, offset, whole) && Joined(whole, a, b)
    ensures At(view, offset, a) && At(view, offset + |a|, b) && |whole| == |a| + |b|
  {
    hide At;
    AtSplit(view, offset, a, b);
  }

  lemma {:induction false} ReverseAt(s: seq<Byte>, j: nat)
    requires j < |s|
    ensures Reverse(s)[j] == s[|s| - 1 - j]
  {
    var rest := s[1..];
    assert |Reverse(rest)| == |s| - 1;
    if j < |s| - 1 {
      ReverseAt(rest, j);
    }
  }

  /** Which byte of the buffer counts for what in a 32-bit word. */
  lemma Uint32Layout(view: seq<Byte>, offset: nat, le: bool)
    requires offset + 4 <= |view|
    ensures var a: int, b: int, c: int, d: int := view[offset], view[offset + 1], view[offset + 2], view[offset + 3];
            && GetUint32(view, offset, true) == Ok(a + 256 * b + 0x1_0000 * c + 0x100_0000 * d)
            && GetUint32(view, offset, false) == Ok(0x100_0000 * a + 0x1_0000 * b + 256 * c + d)
  {
    var s := view[offset..offset + 4];
    ReverseAt(s, 0);
    ReverseAt(s, 1);
    ReverseAt(s, 2);
    ReverseAt(s, 3);
    UnsignedFour(s);
    UnsignedFour(Reverse(s));
    hide Unsigned, Reverse;
  }

  lemma UnsignedFour(s: seq<Byte>)
    requires |s| == 4
    ensures var a: int, b: int, c: int, d: int := s[0], s[1], s[2], s[3];
            Unsigned(s) == 0x100_0000 * a + 0x1_0000 * b + 256 * c + d
  {
    var a: int, b: int, c: int, d: int := s[0], s[1], s[2], s[3];
    assert s[..3] == [a, b, c] && [a, b, c][..2] == [a, b] && [a, b][..1] == [a] && [a][..0] == [];
    assert Unsigned([a]) == a;
    assert Unsigned([a, b]) == 256 * a + b;
    assert Unsigned([a, b, c]) == 256 * (256 * a + b) + c;
  }

  /** Which byte of the buffer is which of a double, kept in big-endian order. */
  lemma Float64Layout(view: seq<Byte>, offset: nat, j: nat)
    requires offset + 8 <= |view| && j < 8
    ensures GetFloat64(view, offset, true).Ok? && GetFloat64(view, offset, true).value[j] == view[offset + 7 - j]
    ensures GetFloat64(view, offset, false).Ok? && GetFloat64(view, offset, false).value[j] == view[offset + j]
  {
    var s := view[offset..offset + 8];
    ReverseAt(s, j);
  }

  lemma BytesOfWord(n: nat)
    requires n < WORD
    ensures n == n % 256 + 256 * (n / 256 % 256) + 0x1_0000 * (n / 0x1_0000 % 256) + 0x100_0000 * (n / 0x100_0000 % 256)
  {
    var n1, n2, n3 := n / 256, n / 0x1_0000, n / 0x100_0000;
    assert n2 == n1 / 256 && n3 == n2 / 256 && n3 < 256;
  }

  lemma ByteAt(view: seq<Byte>, offset: nat, s: seq<Byte>, j: nat)
    requires At(view, offset, s) && j < |s|
    ensures offset + j < |view| && view[offset + j] == s[j]
  {
    assert view[offset..offset + |s|][j] == s[j];
  }

  lemma ReadWord(view: seq<Byte>, offset: nat, n: nat, le: bool)
    requires n < WORD && At(view, offset, EncodeWord(n, le))
    ensures GetUint32(view, offset, le) == Ok(n)
  {
    var s := EncodeWord(n, le);
    Uint32Layout(view, offset, le);
    BytesOfWord(n);
    ByteAt(view, offset, s, 0);
    ByteAt(view, offset, s, 1);
    ByteAt(view, offset, s, 2);
    ByteAt(view, offset, s, 3);
    hide GetUint32, At;
  }

  lemma ReadDouble(view: seq<Byte>, offset: nat, d: Double, le: bool)
    requires At(view, offset, EncodeDouble(d, le))
    ensures GetFloat64(view, offset, le) == Ok(d)
  {
    var s := EncodeDouble(d, le);
    var r := GetFloat64(view, offset, le);
    assert offset + 8 <= |view|;
    hide GetFloat64, At;
    forall j: nat | j < 8 ensures r.Ok? && r.value[j] == d[j] {
      Float64Layout(view, offset, j);
      ByteAt(view, offset, s, if le then 7 - j else j);
    }
    assert r.Ok? by {
      Float64Layout(view, offset, 0);
    }
    assert r.value == d;
  }

  /** The first byte of a node says little-endian if it is 1, and big-endian if it is anything else. */
  lemma ByteOrders(view: seq<Byte>, offset: nat)
    requires ReadHeader(view, offset).Ok?
    ensures ReadHeader(view, offset).value.le <==> view[offset] == 1
  {
  }

  lemma ReadVertex(view: seq<Byte>, offset: nat, v: Vertex, le: bool, stride: nat)
    requires At(view, offset, EncodeVertex(v, le))
    ensures ReadCoord(view, offset, le, stride) == Ok(Read(Position(v.x, v.y), offset + stride))
  {
    hide EncodeDouble, EncodeDoubles, At, GetFloat64;
    AtSplit(view, offset, EncodeDouble(v.x, le), EncodeDouble(v.y, le) + EncodeDoubles(v.more, le));
    AtSplit(view, offset + 8, EncodeDouble(v.y, le), EncodeDoubles(v.more, le));
    ReadDouble(view, offset, v.x, le);
    ReadDouble(view, offset + 8, v.y, le);
  }

  lemma VerticesFacts(vs: seq<Vertex>, l: Layout)
    requires vs != [] && ValidVertices(l, vs)
    ensures |EncodeVertex(vs[0], l.le)| == Stride(l) && ValidVertices(l, vs[1..])
    ensures Joined(EncodeVertices(vs, l.le), EncodeVertex(vs[0], l.le), EncodeVertices(vs[1..], l.le))
    ensures Joined(PositionsOf(vs), [Position(vs[0].x, vs[0].y)], PositionsOf(vs[1..]))
  {
    hide EncodeVertex;
  }

  lemma NoVertices(view: seq<Byte>, offset: nat, l: Layout)
    ensures Positions(view, offset, l.le, Stride(l), 0)
         == Ok(Read(PositionsOf([]), offset + |EncodeVertices([], l.le)|))
  {
  }

  lemma {:induction false} ReadVertices(view: seq<Byte>, offset: nat, vs: seq<Vertex>, l: Layout)
    requires ValidVertices(l, vs) && At(view, offset, EncodeVertices(vs, l.le))
    ensures Positions(view, offset, l.le, Stride(l), |vs|)
         == Ok(Read(PositionsOf(vs), offset + |EncodeVertices(vs, l.le)|))
    decreases |vs|
  {
    hide *;
    if vs == [] {
      NoVertices(view, offset, l);
    } else {
      VerticesFacts(vs, l);
      var v, rest := vs[0], vs[1..];
      AtJoined(view, offset, EncodeVertices(vs, l.le), EncodeVertex(v, l.le), EncodeVertices(rest, l.le));
      ReadVertex(view, offset, v, l.le, Stride(l));
      var next := offset + Stride(l);
      ReadVertices(view, next, rest, l);
      PositionsCons(view, offset, l.le, Stride(l), |vs|, next, next + |EncodeVertices(rest, l.le)|,
                    Position(v.x, v.y), PositionsOf(rest), PositionsOf(vs));
    }
  }

  lemma ReadCoords(view: seq<Byte>, offset: nat, vs: seq<Vertex>, l: Layout)
    requires ValidVertices(l, vs) && At(view, offset, EncodeCoordArray(vs, l.le))
    ensures CoordArray(view, offset, l.le, Stride(l))
         == Ok(Read(PositionsOf(vs), offset + |EncodeCoordArray(vs, l.le)|))
  {
    hide At, EncodeVertices, EncodeWord, GetUint32, Positions, Stride;
    AtSplit(view, offset, EncodeWord(|vs|, l.le), EncodeVertices(vs, l.le));
    ReadWord(view, offset, |vs|, l.le);
    ReadVertices(view, offset + 4, vs, l);
  }

  lemma RingsFacts(rings: seq<seq<Vertex>>, l: Layout)
    requires rings != [] && ValidRings(l, rings)
    ensures ValidVertices(l, rings[0]) && ValidRings(l, rings[1..])
    ensures Joined(EncodeRings(rings, l.le), EncodeCoordArray(rings[0], l.le), EncodeRings(rings[1..], l.le))
    ensures Joined(RingsOf(rings), [Array(PositionsOf(rings[0]))], RingsOf(rings[1..]))
  {
    hide EncodeCoordArray, PositionsOf, ValidVertices;
  }

  lemma NoRings(view: seq<Byte>, offset: nat, l: Layout)
    ensures Rings(view, offset, l.le, Stride(l), 0) == Ok(Read(RingsOf([]), offset + |EncodeRings([], l.le)|))
  {
  }

  lemma {:induction false} ReadRings(view: seq<Byte>, offset: nat, rings: seq<seq<Vertex>>, l: Layout)
    requires ValidRings(l, rings) && At(view, offset, EncodeRings(rings, l.le))
    ensures Rings(view, offset, l.le, Stride(l), |rings|)
         == Ok(Read(RingsOf(rings), offset + |EncodeRings(rings, l.le)|))
    decreases |rings|
  {
    hide *;
    if rings == [] {
      NoRings(view, offset, l);
    } else {
      RingsFacts(rings, l);
      var ring, rest := rings[0], rings[1..];
      AtJoined(view, offset, EncodeRings(rings, l.le), EncodeCoordArray(ring, l.le), EncodeRings(rest, l.le));
      ReadCoords(view, offset, ring, l);
      var next := offset + |EncodeCoordArray(ring, l.le)|;
      ReadRings(view, next, rest, l);
      RingsCons(view, offset, l.le, Stride(l), |rings|, next, next + |EncodeRings(rest, l.le)|,
                PositionsOf(ring), RingsOf(rest), RingsOf(rings));
    }
  }

  lemma ReadHeaderBack(view: seq<Byte>, offset: nat, l: Layout, baseType: nat)
    requires 1 <= baseType <= 7 && (l.srid.Srid? ==> l.srid.code < WORD)
    requires At(view, offset, EncodeHeader(l, baseType))
    ensures ReadHeader(view, offset) == Ok(Header(l.le, TypeWord(l, baseType), offset + |EncodeHeader(l, baseType)|))
  {
    hide EncodeWord, HasFlag, TypeWord, GetUint32;
    var order: seq<Byte> := [if l.le then 1 else 0];
    var word := EncodeWord(TypeWord(l, baseType), l.le);
    var srid := if l.srid.Srid? then EncodeWord(l.srid.code, l.le) else [];
    AtSplit(view, offset, order + word, srid);
    AtSplit(view, offset, order, word);
    assert view[offset] == view[offset..offset + 1][0] == order[0];
    TypeWordRead(l, baseType);
    ReadWord(view, offset + 1, TypeWord(l, baseType), l.le);
  }

  lemma PointBack(view: seq<Byte>, start: nat, l: Layout, v: Vertex)
    requires Valid(WirePoint(l, v)) && At(view, start, EncodeVertex(v, l.le))
    ensures DecodeBody(view, Header(l.le, TypeWord(l, 1), start))
         == Ok(Read(GeometryOf(WirePoint(l, v)), start + |EncodeVertex(v, l.le)|))
  {
    TypeWordRead(l, 1);
    assert |[v][0].more| == (if l.z then 1 else 0) + if l.m then 1 else 0;
    assert |EncodeVertex(v, l.le)| == Stride(l);
    hide At, CoordSize, BaseType, TypeWord, Stride, ReadCoord, EncodeVertex;
    ReadVertex(view, start, v, l.le, Stride(l));
  }

  lemma LineBack(view: seq<Byte>, start: nat, l: Layout, vs: seq<Vertex>)
    requires Valid(WireLine(l, vs)) && At(view, start, EncodeCoordArray(vs, l.le))
    ensures DecodeBody(view, Header(l.le, TypeWord(l, 2), start))
         == Ok(Read(GeometryOf(WireLine(l, vs)), start + |EncodeCoordArray(vs, l.le)|))
  {
    TypeWordRead(l, 2);
    hide At, CoordSize, BaseType, TypeWord, Stride, CoordArray, EncodeCoordArray, ValidVertices;
    ReadCoords(view, start, vs, l);
  }

  /** What the dispatch does for a polygon. */
  lemma PolygonDispatch(view: seq<Byte>, h: Header, stride: nat, count: nat, rings: seq<Coords<Double>>, next: nat)
    requires BaseType(h.wkbType) == 3 && CoordSize(h.wkbType) == stride && GetUint32(view, h.body, h.le) == Ok(count)
    requires Rings(view, h.body + 4, h.le, stride, count) == Ok(Read(rings, next))
    ensures DecodeBody(view, h) == Ok(Read(Shape(Polygon, Array(rings)), next))
  {
    hide BaseType, CoordSize, GetUint32, Rings;
  }

  lemma PolygonFacts(l: Layout, rings: seq<seq<Vertex>>)
    requires Valid(WirePolygon(l, rings))
    ensures Recognised(l) && |rings| < WORD && ValidRings(l, rings)
    ensures GeometryOf(WirePolygon(l, rings)) == Shape(Polygon, Array(RingsOf(rings)))
  {
  }

  lemma PolygonBack(view: seq<Byte>, start: nat, l: Layout, rings: seq<seq<Vertex>>)
    requires Valid(WirePolygon(l, rings)) && At(view, start, EncodeWord(|rings|, l.le) + EncodeRings(rings, l.le))
    ensures DecodeBody(view, Header(l.le, TypeWord(l, 3), start))
         == Ok(Read(GeometryOf(WirePolygon(l, rings)), start + |EncodeWord(|rings|, l.le) + EncodeRings(rings, l.le)|))
  {
    hide *;
    TypeWordRead(l, 3);
    PolygonFacts(l, rings);
    AtSplit(view, start, EncodeWord(|rings|, l.le), EncodeRings(rings, l.le));
    ReadWord(view, start, |rings|, l.le);
    ReadRings(view, start + 4, rings, l);
    PolygonDispatch(view, Header(l.le, TypeWord(l, 3), start), Stride(l), |rings|, RingsOf(rings),
                    start + 4 + |EncodeRings(rings, l.le)|);
  }

  /** The body of a node with parts, given that its parts are read back. */
  lemma PartsBack(view: seq<Byte>, start: nat, w: Wire)
    requires (w.WireMulti? || w.WireCollection?) && Valid(w) && At(view, start, EncodeWord(|w.parts|, w.layout.le))
    requires DecodeParts(view, start + 4, |w.parts|)
          == Ok(Read(GeometriesOf(w.parts), start + 4 + |EncodeParts(w.parts)|))
    ensures DecodeBody(view, Header(w.layout.le, TypeWord(w.layout, BaseTypeOf(w)), start))
         == Ok(Read(GeometryOf(w), start + |Body(w)|))
  {
    TypeWordRead(w.layout, BaseTypeOf(w));
    assert Body(w) == EncodeWord(|w.parts|, w.layout.le) + EncodeParts(w.parts);
    PartsHaveTheirCoordinates(w.parts);
    assert GeometryOf(w) == if w.WireCollection? then Collection(GeometriesOf(w.parts))
                            else Shape(w.kind, Array(PartCoordinates(GeometriesOf(w.parts))));
    hide At, CoordSize, BaseType, TypeWord, Body, DecodeParts, EncodeParts, GetUint32, EncodeWord, GeometriesOf,
      GeometryOf, PartCoordinates, ValidParts;
    ReadWord(view, start, |w.parts|, w.layout.le);
  }

  lemma {:induction false} BodyRoundTrip(view: seq<Byte>, start: nat, w: Wire)
    requires Valid(w) && At(view, start, Body(w))
    ensures DecodeBody(view, Header(w.layout.le, TypeWord(w.layout, BaseTypeOf(w)), start))
         == Ok(Read(GeometryOf(w), start + |Body(w)|))
    decreases w, 0
  {
    hide At, DecodeBody, GeometryOf, TypeWord, DecodeParts, EncodeParts, EncodeWord;
    match w
    case WirePoint(l, v) => PointBack(view, start, l, v);
    case WireLine(l, vs) => LineBack(view, start, l, vs);
    case WirePolygon(l, rings) => PolygonBack(view, start, l, rings);
    case WireMulti(l, _, parts) =>
      AtSplit(view, start, EncodeWord(|parts|, l.le), EncodeParts(parts));
      RoundTripParts(view, start + 4, parts);
      PartsBack(view, start, w);
    case WireCollection(l, parts) =>
      AtSplit(view, start, EncodeWord(|parts|, l.le), EncodeParts(parts));
      RoundTripParts(view, start + 4, parts);
      PartsBack(view, start, w);
  }

  lemma NodeFacts(w: Wire)
    requires Valid(w)
    ensures Joined(Encode(w), EncodeHeader(w.layout, BaseTypeOf(w)), Body(w))
    ensures w.layout.srid.Srid? ==> w.layout.srid.code < WORD
    ensures 1 <= BaseTypeOf(w) <= 7
  {
    hide EncodeHeader, Body;
  }

  /** Decoding inverts encoding, whatever stands before and after the encoding in the buffer. */
  lemma {:induction false} RoundTrip(view: seq<Byte>, offset: nat, w: Wire)
    requires Valid(w) && At(view, offset, Encode(w))
    ensures Decode(view, offset) == Ok(Read(GeometryOf(w), offset + |Encode(w)|))
    decreases w, 1
  {
    hide *;
    NodeFacts(w);
    HeaderThenBody(view, offset);
    var header := EncodeHeader(w.layout, BaseTypeOf(w));
    AtJoined(view, offset, Encode(w), header, Body(w));
    ReadHeaderBack(view, offset, w.layout, BaseTypeOf(w));
    BodyRoundTrip(view, offset + |header|, w);
  }

  lemma HeaderThenBody(view: seq<Byte>, offset: nat)
    ensures ReadHeader(view, offset).Ok? ==> Decode(view, offset) == DecodeBody(view, ReadHeader(view, offset).value)
  {
  }

  lemma PartsFacts(parts: seq<Wire>)
    requires parts != [] && ValidParts(parts)
    ensures Valid(parts[0]) && ValidParts(parts[1..])
    ensures Joined(EncodeParts(parts), Encode(parts[0]), EncodeParts(parts[1..]))
    ensures Joined(GeometriesOf(parts), [GeometryOf(parts[0])], GeometriesOf(parts[1..]))
  {
    hide Encode, GeometryOf, Valid;
  }

  lemma NoParts(view: seq<Byte>, offset: nat)
    ensures DecodeParts(view, offset, 0) == Ok(Read(GeometriesOf([]), offset + |EncodeParts([])|))
  {
  }

  lemma {:induction false} RoundTripParts(view: seq<Byte>, offset: nat, parts: seq<Wire>)
    requires ValidParts(parts) && At(view, offset, EncodeParts(parts))
    ensures DecodeParts(view, offset, |parts|) == Ok(Read(GeometriesOf(parts), offset + |EncodeParts(parts)|))
    decreases parts, 2
  {
    hide *;
    if parts == [] {
      NoParts(view, offset);
    } else {
      PartsFacts(parts);
      var part, rest := parts[0], parts[1..];
      AtJoined(view, offset, EncodeParts(parts), Encode(part), EncodeParts(rest));
      RoundTrip(view, offset, part);
      var next := offset + |Encode(part)|;
      RoundTripParts(view, next, rest);
      PartsCons(view, offset, |parts|, next, next + |EncodeParts(rest)|, GeometryOf(part), GeometriesOf(rest),
                GeometriesOf(parts));
    }
  }
}
