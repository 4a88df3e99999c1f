/** What decoding arbitrary bytes can produce: the number of vertices is bounded by the size of the
    buffer, and a geometry without Z and M ends inside it.
  */
module WkbLimits {
  import opened Wkb
  import opened WkbRoundTrip

  function CoordsCount<N>(c: Coords<N>): nat {
    match c
    case Position(_, _) => 1
    case Array(items) => CoordsCountAll(items)
    case Undefined => 0
  }

  function CoordsCountAll<N>(items: seq<Coords<N>>): nat {
    if items == [] then 0 else CoordsCount(items[0]) + CoordsCountAll(items[1..])
  }

  function VertexCount<N>(g: GeoJson<N>): nat
    decreases g, 0
  {
    match g
    case Shape(_, c) => CoordsCount(c)
    case Collection(gs) => VertexCountOfAll(gs)
  }

  function VertexCountOfAll<N>(gs: seq<GeoJson<N>>): nat
    decreases gs, 1
  {
    if gs == [] then 0 else VertexCount(gs[0]) + VertexCountOfAll(gs[1..])
  }

  lemma {:induction false} PositionsCounted(vs: seq<Vertex>)
    ensures CoordsCountAll(PositionsOf(vs)) == |vs|
  {
    if vs != [] {
      PositionsCounted(vs[1..]);
      CountHead(Position(vs[0].x, vs[0].y), PositionsOf(vs[1..]));
    }
  }

  /** The vertices of a line string are as many as were written. */
  lemma VerticesAreCounted(l: Layout, vs: seq<Vertex>)
    ensures VertexCount(GeometryOf(WireLine(l, vs))) == |vs|
  {
    PositionsCounted(vs);
  }

  /** `n` vertices were read from `offset` on: they fit before `next`, and inside the buffer if there are any. */
  predicate Fits(view: seq<Byte>, offset: nat, next: nat, n: nat) {
    offset + 16 * n <= next && (n > 0 ==> offset + 16 * n <= |view|)
  }

  lemma CountHead<N>(first: Coords<N>, rest: seq<Coords<N>>)
    ensures CoordsCountAll([first] + rest) == CoordsCount(first) + CoordsCountAll(rest)
  {
    assert ([first] + rest)[1..] == rest;
  }

  lemma CountHeadGeometry<N>(first: GeoJson<N>, rest: seq<GeoJson<N>>)
    ensures VertexCountOfAll([first] + rest) == VertexCount(first) + VertexCountOfAll(rest)
  {
    assert ([first] + rest)[1..] == rest;
  }

  lemma {:induction false} PositionsFit(view: seq<Byte>, offset: nat, le: bool, coordSize: nat, count: nat)
    requires coordSize >= 16
    ensures var r := Positions(view, offset, le, coordSize, count);
            r.Ok? ==> Fits(view, offset, r.value.next, CoordsCountAll(r.value.value))
    decreases count
  {
    hide GetFloat64;
    if count > 0 {
      var c := ReadCoord(view, offset, le, coordSize);
      if c.Ok? {
        PositionsFit(view, c.value.next, le, coordSize, count - 1);
        var rest := Positions(view, c.value.next, le, coordSize, count - 1);
        if rest.Ok? {
          CountHead(c.value.value, rest.value.value);
        }
      }
    }
  }

  lemma CoordArrayFits(view: seq<Byte>, offset: nat, le: bool, coordSize: nat)
    requires coordSize >= 16
    ensures var r := CoordArray(view, offset, le, coordSize);
            r.Ok? ==> offset + 4 <= |view| && Fits(view, offset + 4, r.value.next, CoordsCountAll(r.value.value))
  {
    hide Positions, CoordsCountAll;
    var count := GetUint32(view, offset, le);
    if count.Ok? {
      PositionsFit(view, offset + 4, le, coordSize, count.value);
    }
  }

  lemma {:induction false} RingsFit(view: seq<Byte>, offset: nat, le: bool, coordSize: nat, count: nat)
    requires coordSize >= 16
    ensures var r := Rings(view, offset, le, coordSize, count);
            r.Ok? ==> Fits(view, offset, r.value.next, CoordsCountAll(r.value.value))
    decreases count
  {
    hide CoordArray;
    if count > 0 {
      CoordArrayFits(view, offset, le, coordSize);
      var ring := CoordArray(view, offset, le, coordSize);
      if ring.Ok? {
        RingsFit(view, ring.value.next, le, coordSize, count - 1);
        var rest := Rings(view, ring.value.next, le, coordSize, count - 1);
        if rest.Ok? {
          CountHead(Array(ring.value.value), rest.value.value);
        }
      }
    }
  }

  /** A part that is a collection loses its vertices in a multi geometry; no part gains any. */
  lemma {:induction false} PartCoordinatesCount(parts: seq<Geometry>)
    ensures CoordsCountAll(PartCoordinates(parts)) <= VertexCountOfAll(parts)
  {
    if parts != [] {
      PartCoordinatesCount(parts[1..]);
      CountHead(parts[0].Coordinates(), PartCoordinates(parts[1..]));
    }
  }

  lemma {:induction false} BodyFits(view: seq<Byte>, h: Header)
    ensures var r := DecodeBody(view, h);
            r.Ok? ==> h.body + 4 <= |view| && Fits(view, h.body, r.value.next, VertexCount(r.value.value))
    decreases |view| - h.body, 0
  {
    hide Positions, CoordArray, Rings, DecodeParts, BaseType, PartCoordinates, GetFloat64;
    var baseType, coordSize := BaseType(h.wkbType), CoordSize(h.wkbType);
    if baseType == 2 {
      CoordArrayFits(view, h.body, h.le, coordSize);
    } else if 3 <= baseType <= 7 {
      var count := GetUint32(view, h.body, h.le);
      if count.Ok? {
        if baseType == 3 {
          RingsFit(view, h.body + 4, h.le, coordSize, count.value);
        } else {
          PartsFit(view, h.body + 4, count.value);
          var parts := DecodeParts(view, h.body + 4, count.value);
          if parts.Ok? {
            PartCoordinatesCount(parts.value.value);
          }
        }
      }
    }
  }

  /** The decoded vertices take up sixteen bytes each of what the geometry was read from. */
  lemma GeometryFits(view: seq<Byte>, offset: nat)
    ensures var r := Decode(view, offset);
            r.Ok? ==> (var end := offset + 5 + 16 * VertexCount(r.value.value); end <= r.value.next && end <= |view|)
    decreases |view| - offset, 0
  {
    hide DecodeBody, VertexCount;
    var h := ReadHeader(view, offset);
    if h.Ok? {
      BodyFits(view, h.value);
    }
  }

  lemma {:induction false} PartsFit(view: seq<Byte>, offset: nat, count: nat)
    ensures var r := DecodeParts(view, offset, count);
            r.Ok? ==> Fits(view, offset, r.value.next, VertexCountOfAll(r.value.value))
    decreases |view| - offset, count + 1
  {
    hide Decode, VertexCount;
    if count > 0 {
      GeometryFits(view, offset);
      var part := Decode(view, offset);
      if part.Ok? {
        PartsFit(view, part.value.next, count - 1);
        var rest := DecodeParts(view, part.value.next, count - 1);
        if rest.Ok? {
          CountHeadGeometry(part.value.value, rest.value.value);
        }
      }
    }
  }

  // ---------------------------------------------------------------------------------------
  // Geometries without Z and M
  // ---------------------------------------------------------------------------------------

  /** Every node the decoder visits from `offset` on has a stride of two doubles. */
  predicate Planar(view: seq<Byte>, offset: nat)
    decreases |view| - offset, 0
  {
    var h := ReadHeader(view, offset);
    h.Ok? ==>
      && CoordSize(h.value.wkbType) == 16
      && (var count := GetUint32(view, h.value.body, h.value.le);
          4 <= BaseType(h.value.wkbType) <= 7 && count.Ok? ==> PlanarParts(view, h.value.body + 4, count.value))
  }

  predicate PlanarParts(view: seq<Byte>, offset: nat, count: nat)
    decreases |view| - offset, count + 1
  {
    count > 0 ==>
      && Planar(view, offset)
      && (var part := Decode(view, offset);
          part.Ok? ==> PlanarParts(view, part.value.next, count - 1))
  }

  /** No node is written with Z or M. */
  predicate Flat(w: Wire)
    decreases w, 0
  {
    !w.layout.z && !w.layout.m && (w.WireMulti? || w.WireCollection? ==> FlatParts(w.parts))
  }

  predicate FlatParts(parts: seq<Wire>)
    decreases parts, 1
  {
    parts == [] || (Flat(parts[0]) && FlatParts(parts[1..]))
  }

  /** Every encoding without Z and M is such a geometry. */
  lemma {:induction false} FlatIsPlanar(view: seq<Byte>, offset: nat, w: Wire)
    requires Valid(w) && Flat(w) && At(view, offset, Encode(w))
    ensures Planar(view, offset)
    decreases w, 1
  {
    hide *;
    FlatNode(w);
    NodeFacts(w);
    var header, l := EncodeHeader(w.layout, BaseTypeOf(w)), w.layout;
    AtJoined(view, offset, Encode(w), header, Body(w));
    ReadHeaderBack(view, offset, l, BaseTypeOf(w));
    TypeWordRead(l, BaseTypeOf(w));
    var start := offset + |header|;
    if w.WireMulti? || w.WireCollection? {
      BodyOfParts(w);
      AtJoined(view, start, Body(w), EncodeWord(|w.parts|, l.le), EncodeParts(w.parts));
      ReadWord(view, start, |w.parts|, l.le);
      FlatPartsArePlanar(view, start + 4, w.parts);
    }
    PlanarNode(view, offset, Header(l.le, TypeWord(l, BaseTypeOf(w)), start));
  }

  lemma FlatNode(w: Wire)
    requires Valid(w) && Flat(w)
    ensures Recognised(w.layout) && Stride(w.layout) == 16
    ensures w.WireMulti? || w.WireCollection? ==> ValidParts(w.parts) && FlatParts(w.parts) && |w.parts| < WORD
    ensures BaseTypeOf(w) >= 4 ==> w.WireMulti? || w.WireCollection?
  {
  }

  lemma BodyOfParts(w: Wire)
    requires w.WireMulti? || w.WireCollection?
    ensures Joined(Body(w), EncodeWord(|w.parts|, w.layout.le), EncodeParts(w.parts))
    ensures |EncodeWord(|w.parts|, w.layout.le)| == 4
  {
    hide EncodeParts;
  }

  lemma PlanarNode(view: seq<Byte>, offset: nat, h: Header)
    requires ReadHeader(view, offset) == Ok(h) && CoordSize(h.wkbType) == 16
    requires 4 <= BaseType(h.wkbType) <= 7 && GetUint32(view, h.body, h.le).Ok? ==>
      PlanarParts(view, h.body + 4, GetUint32(view, h.body, h.le).value)
    ensures Planar(view, offset)
  {
    hide CoordSize, BaseType, GetUint32, PlanarParts;
  }

  lemma {:induction false} FlatPartsArePlanar(view: seq<Byte>, offset: nat, parts: seq<Wire>)
    requires ValidParts(parts) && FlatParts(parts) && At(view, offset, EncodeParts(parts))
    ensures PlanarParts(view, offset, |parts|)
    decreases parts, 2
  {
    hide *;
    if parts == [] {
      NoPlanarParts(view, offset);
    } else {
      FlatPartsFacts(parts);
      PartsFacts(parts);
      var part, rest := parts[0], parts[1..];
      AtJoined(view, offset, EncodeParts(parts), Encode(part), EncodeParts(rest));
      RoundTrip(view, offset, part);
      FlatIsPlanar(view, offset, part);
      FlatPartsArePlanar(view, offset + |Encode(part)|, rest);
      PlanarPartsCons(view, offset, |parts|, offset + |Encode(part)|);
    }
  }

  lemma NoPlanarParts(view: seq<Byte>, offset: nat)
    ensures PlanarParts(view, offset, 0)
  {
  }

  lemma FlatPartsFacts(parts: seq<Wire>)
    requires FlatParts(parts) && parts != []
    ensures Flat(parts[0]) && FlatParts(parts[1..])
  {
    hide Flat;
  }

  lemma PlanarPartsCons(view: seq<Byte>, offset: nat, count: nat, next: nat)
    requires count > 0 && Planar(view, offset) && Decode(view, offset).Ok? && Decode(view, offset).value.next == next
    requires PlanarParts(view, next, count - 1)
    ensures PlanarParts(view, offset, count)
  {
    hide Planar;
  }

  lemma {:induction false} PositionsInside(view: seq<Byte>, offset: nat, le: bool, count: nat)
    requires offset <= |view|
    ensures var r := Positions(view, offset, le, 16, count); r.Ok? ==> r.value.next <= |view|
    decreases count
  {
    hide GetFloat64;
    if count > 0 {
      var c := ReadCoord(view, offset, le, 16);
      if c.Ok? {
        PositionsInside(view, c.value.next, le, count - 1);
      }
    }
  }

  lemma CoordArrayInside(view: seq<Byte>, offset: nat, le: bool)
    ensures var r := CoordArray(view, offset, le, 16); r.Ok? ==> r.value.next <= |view|
  {
    hide Positions;
    var count := GetUint32(view, offset, le);
    if count.Ok? {
      PositionsInside(view, offset + 4, le, count.value);
    }
  }

  lemma {:induction false} RingsInside(view: seq<Byte>, offset: nat, le: bool, count: nat)
    requires offset <= |view|
    ensures var r := Rings(view, offset, le, 16, count); r.Ok? ==> r.value.next <= |view|
    decreases count
  {
    hide CoordArray;
    if count > 0 {
      var ring := CoordArray(view, offset, le, 16);
      CoordArrayInside(view, offset, le);
      if ring.Ok? {
        RingsInside(view, ring.value.next, le, count - 1);
      }
    }
  }

  /** A geometry without Z and M, nested to any depth, is read strictly forward and ends inside the buffer. */
  lemma {:induction false} PlanarEndsInside(view: seq<Byte>, offset: nat)
    requires Planar(view, offset)
    ensures var r := Decode(view, offset); r.Ok? ==> offset < r.value.next <= |view|
    decreases |view| - offset, 0
  {
    hide CoordArray, Rings, DecodeParts, PlanarParts, BaseType, PartCoordinates, GetFloat64, CoordSize;
    var header := ReadHeader(view, offset);
    if header.Ok? {
      var h := header.value;
      CoordArrayInside(view, h.body, h.le);
      var count := GetUint32(view, h.body, h.le);
      if count.Ok? {
        RingsInside(view, h.body + 4, h.le, count.value);
        if 4 <= BaseType(h.wkbType) <= 7 {
          PlanarPartsEndInside(view, h.body + 4, count.value);
        }
      }
    }
  }

  lemma {:induction false} PlanarPartsEndInside(view: seq<Byte>, offset: nat, count: nat)
    requires offset <= |view| && PlanarParts(view, offset, count)
    ensures var r := DecodeParts(view, offset, count); r.Ok? ==> r.value.next <= |view|
    decreases |view| - offset, count + 1
  {
    hide Decode, Planar;
    if count > 0 {
      PlanarEndsInside(view, offset);
      var part := Decode(view, offset);
      if part.Ok? {
        PlanarPartsEndInside(view, part.value.next, count - 1);
      }
    }
  }

  // ---------------------------------------------------------------------------------------
  // Unrecognised flag words
  // ---------------------------------------------------------------------------------------

  /** The conditions of `Valid` for vertices, but for the recognised layout. */
  predicate WrittenAs(l: Layout, vs: seq<Vertex>) {
    (l.srid.Srid? ==> l.srid.code < WORD) && ValidVertices(l, vs)
  }

  /** With an unrecognised layout the vertices are read at a stride of 32 instead of 24. */
  lemma MisreadLine(view: seq<Byte>, start: nat, l: Layout, vs: seq<Vertex>)
    requires !Recognised(l) && |vs| < WORD && At(view, start, EncodeCoordArray(vs, l.le))
    ensures var r := DecodeBody(view, Header(l.le, TypeWord(l, 2), start));
            && (r.Ok? ==> r.value.next == start + 4 + |vs| * 32)
            && (vs == [] ==> r.Ok?)
  {
    TypeWordRead(l, 2);
    UnrecognisedStride(l, 2);
    hide EncodeVertices, EncodeWord, TypeWord, BaseType, CoordSize, GetUint32, Positions, At;
    AtSplit(view, start, EncodeWord(|vs|, l.le), EncodeVertices(vs, l.le));
    ReadWord(view, start, |vs|, l.le);
    PositionsForward(view, start + 4, l.le, 32, |vs|);
    if vs == [] {
      NoPositions(view, start + 4, l.le, 32);
    }
  }

  lemma CoordArrayLength(l: Layout, vs: seq<Vertex>)
    requires ValidVertices(l, vs)
    ensures |EncodeCoordArray(vs, l.le)| == 4 + |vs| * Stride(l)
  {
    hide EncodeVertices, Stride, ValidVertices;
    VerticesLength(l, vs);
  }

  lemma LineNode(l: Layout, vs: seq<Vertex>)
    ensures Joined(Encode(WireLine(l, vs)), EncodeHeader(l, 2), EncodeCoordArray(vs, l.le))
    ensures WrittenAs(l, vs) && Recognised(l) ==> Valid(WireLine(l, vs))
  {
    hide EncodeHeader, EncodeCoordArray, Recognised, ValidVertices;
  }

  /** A line string is read to its end exactly if its layout is recognised or it has no vertices. */
  lemma LineEndsWhereWritten(view: seq<Byte>, offset: nat, l: Layout, vs: seq<Vertex>)
    requires WrittenAs(l, vs) && At(view, offset, Encode(WireLine(l, vs)))
    ensures var r := Decode(view, offset);
            (r.Ok? && r.value.next == offset + |Encode(WireLine(l, vs))|) <==> (Recognised(l) || vs == [])
  {
    LineNode(l, vs);
    if Recognised(l) {
      hide *;
      RoundTrip(view, offset, WireLine(l, vs));
    } else {
      assert ValidVertices(l, vs) && |vs| < WORD && l.srid.NoSrid?;
      UnrecognisedStride(l, 2);
      hide *;
      AtJoined(view, offset, Encode(WireLine(l, vs)), EncodeHeader(l, 2), EncodeCoordArray(vs, l.le));
      ReadHeaderBack(view, offset, l, 2);
      HeaderThenBody(view, offset);
      CoordArrayLength(l, vs);
      MisreadLine(view, offset + |EncodeHeader(l, 2)|, l, vs);
      assert |vs| * 32 == |vs| * 24 <==> vs == [];
    }
  }

  // The same for points and for polygons of one ring. With more rings, the count of a later one is read from the
  // middle of a vertex, so that the end can come out right by accident.

  lemma PointNode(l: Layout, v: Vertex)
    requires WrittenAs(l, [v])
    ensures Joined(Encode(WirePoint(l, v)), EncodeHeader(l, 1), EncodeVertex(v, l.le))
    ensures |EncodeVertex(v, l.le)| == Stride(l)
    ensures Recognised(l) ==> Valid(WirePoint(l, v))
  {
    hide EncodeHeader, Recognised;
    assert 16 + 8 * |[v][0].more| == Stride(l);
  }

  lemma PointDispatch(view: seq<Byte>, h: Header, stride: nat, c: Coords<Double>)
    requires BaseType(h.wkbType) == 1 && CoordSize(h.wkbType) == stride
    requires ReadCoord(view, h.body, h.le, stride) == Ok(Read(c, h.body + stride))
    ensures DecodeBody(view, h) == Ok(Read(Shape(Point, c), h.body + stride))
  {
    hide BaseType, CoordSize, ReadCoord;
  }

  /** A point is read to its end exactly if its layout is recognised. */
  lemma PointEndsWhereWritten(view: seq<Byte>, offset: nat, l: Layout, v: Vertex)
    requires WrittenAs(l, [v]) && At(view, offset, Encode(WirePoint(l, v)))
    ensures var r := Decode(view, offset);
            (r.Ok? && r.value.next == offset + |Encode(WirePoint(l, v))|) <==> Recognised(l)
  {
    PointNode(l, v);
    if Recognised(l) {
      hide *;
      RoundTrip(view, offset, WirePoint(l, v));
    } else {
      assert l.srid.NoSrid?;
      UnrecognisedStride(l, 1);
      TypeWordRead(l, 1);
      hide *;
      var h := Header(l.le, TypeWord(l, 1), offset + |EncodeHeader(l, 1)|);
      AtJoined(view, offset, Encode(WirePoint(l, v)), EncodeHeader(l, 1), EncodeVertex(v, l.le));
      ReadHeaderBack(view, offset, l, 1);
      HeaderThenBody(view, offset);
      ReadVertex(view, h.body, v, l.le, 32);
      PointDispatch(view, h, 32, Position(v.x, v.y));
    }
  }

  lemma RingNode(l: Layout, ring: seq<Vertex>)
    requires WrittenAs(l, ring)
    ensures Joined(Encode(WirePolygon(l, [ring])), EncodeHeader(l, 3),
                   EncodeWord(1, l.le) + EncodeCoordArray(ring, l.le))
    ensures Recognised(l) ==> Valid(WirePolygon(l, [ring]))
  {
    hide EncodeHeader, EncodeWord, EncodeCoordArray, Recognised, ValidVertices;
    var rings := [ring];
    assert rings[1..] == [];
    assert ValidRings(l, rings[1..]) && ValidRings(l, rings);
    assert EncodeRings(rings, l.le) == EncodeCoordArray(ring, l.le) + [];
    assert EncodeCoordArray(ring, l.le) + [] == EncodeCoordArray(ring, l.le);
  }

  /** One ring, read at a stride of 32 instead of 24. */
  lemma MisreadRing(view: seq<Byte>, start: nat, l: Layout, ring: seq<Vertex>)
    requires !Recognised(l) && |ring| < WORD
    requires At(view, start, EncodeWord(1, l.le) + EncodeCoordArray(ring, l.le))
    ensures var r := DecodeBody(view, Header(l.le, TypeWord(l, 3), start));
            && (r.Ok? ==> r.value.next == start + 8 + |ring| * 32)
            && (ring == [] ==> r.Ok?)
  {
    TypeWordRead(l, 3);
    UnrecognisedStride(l, 3);
    hide EncodeWord, TypeWord, BaseType, CoordSize, GetUint32, Positions, At, EncodeVertices;
    AtSplit(view, start, EncodeWord(1, l.le), EncodeCoordArray(ring, l.le));
    AtSplit(view, start + 4, EncodeWord(|ring|, l.le), EncodeVertices(ring, l.le));
    ReadWord(view, start, 1, l.le);
    ReadWord(view, start + 4, |ring|, l.le);
    PositionsForward(view, start + 8, l.le, 32, |ring|);
    OneRing(view, start + 4, l.le, 32);
    if ring == [] {
      NoPositions(view, start + 8, l.le, 32);
    }
  }

  lemma OneRing(view: seq<Byte>, offset: nat, le: bool, coordSize: nat)
    ensures var one, r := CoordArray(view, offset, le, coordSize), Rings(view, offset, le, coordSize, 1);
            && (one.Ok? <==> r.Ok?) && (r.Ok? ==> r.value.next == one.value.next)
  {
    hide CoordArray;
  }

  /** A polygon of one ring is read to its end exactly if its layout is recognised or the ring has no vertices. */
  lemma RingEndsWhereWritten(view: seq<Byte>, offset: nat, l: Layout, ring: seq<Vertex>)
    requires WrittenAs(l, ring) && At(view, offset, Encode(WirePolygon(l, [ring])))
    ensures var r := Decode(view, offset);
            (r.Ok? && r.value.next == offset + |Encode(WirePolygon(l, [ring]))|) <==> (Recognised(l) || ring == [])
  {
    RingNode(l, ring);
    if Recognised(l) {
      hide *;
      RoundTrip(view, offset, WirePolygon(l, [ring]));
    } else {
      assert ValidVertices(l, ring) && |ring| < WORD && l.srid.NoSrid?;
      UnrecognisedStride(l, 3);
      hide *;
      var body := EncodeWord(1, l.le) + EncodeCoordArray(ring, l.le);
      AtJoined(view, offset, Encode(WirePolygon(l, [ring])), EncodeHeader(l, 3), body);
      ReadHeaderBack(view, offset, l, 3);
      HeaderThenBody(view, offset);
      CoordArrayLength(l, ring);
      MisreadRing(view, offset + |EncodeHeader(l, 3)|, l, ring);
      assert |ring| * 32 == |ring| * 24 <==> ring == [];
    }
  }

  lemma NoPositions(view: seq<Byte>, offset: nat, le: bool, coordSize: nat)
    ensures Positions(view, offset, le, coordSize, 0) == Ok(Read([], offset))
  {
  }

  lemma {:induction false} VerticesLength(l: Layout, vs: seq<Vertex>)
    requires ValidVertices(l, vs)
    ensures |EncodeVertices(vs, l.le)| == |vs| * Stride(l)
    decreases |vs|
  {
    if vs != [] {
      assert 16 + 8 * |vs[0].more| == Stride(l);
      assert ValidVertices(l, vs[1..]);
      hide EncodeVertex, Stride, ValidVertices;
      VerticesLength(l, vs[1..]);
      assert |vs| * Stride(l) == Stride(l) + (|vs| - 1) * Stride(l);
    }
  }
}
