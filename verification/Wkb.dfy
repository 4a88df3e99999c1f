/** Model of the geometry decoder of wkb.js (section 8 of OGC 06-103r4, with the EWKB flags).

    The readers that only compute are functions; those that loop are methods, each tied to a
    specification function. An exception is an `Error`. Doubles are opaque groups of eight bytes,
    kept in big-endian order.
  */
module Wkb {

  type Byte = x: int | 0 <= x < 256

  type Double = d: seq<Byte> | |d| == 8 witness [0, 0, 0, 0, 0, 0, 0, 0]

  datatype Result<+T> = Ok(value: T) | Error

  datatype Kind = Point | LineString | Polygon | MultiPoint | MultiLineString | MultiPolygon

  /** A position, an array of coordinates, or JavaScript's `undefined`. */
  datatype Coords<+N> = Position(x: N, y: N) | Array(items: seq<Coords<N>>) | Undefined

  datatype GeoJson<+N> = Shape(kind: Kind, coordinates: Coords<N>) | Collection(geometries: seq<GeoJson<N>>)
  {
    /** JavaScript's `geometry.coordinates`. */
    function Coordinates(): Coords<N> {
      if Shape? then coordinates else Undefined
    }
  }

  type Geometry = GeoJson<Double>

  /** A value read and the offset after it. */
  datatype Read<+T> = Read(value: T, next: nat)

  // ---------------------------------------------------------------------------------------
  // DataView
  // ---------------------------------------------------------------------------------------

  function Reverse(s: seq<Byte>): (r: seq<Byte>)
    ensures |r| == |s|
  {
    if s == [] then [] else Reverse(s[1..]) + [s[0]]
  }

  /** Big-endian value of a byte string. */
  function Unsigned(s: seq<Byte>): (n: nat) {
    if s == [] then 0 else 256 * Unsigned(s[..|s| - 1]) + s[|s| - 1]
  }

  function Ordered(s: seq<Byte>, le: bool): (r: seq<Byte>)
    ensures |r| == |s|
  {
    if le then Reverse(s) else s
  }

  function GetUint8(view: seq<Byte>, offset: nat): Result<Byte> {
    if offset < |view| then Ok(view[offset]) else Error
  }

  function GetUint32(view: seq<Byte>, offset: nat, le: bool): Result<nat> {
    if offset + 4 <= |view| then Ok(Unsigned(Ordered(view[offset..offset + 4], le))) else Error
  }

  function GetFloat64(view: seq<Byte>, offset: nat, le: bool): Result<Double> {
    if offset + 8 <= |view| then Ok(Ordered(view[offset..offset + 8], le)) else Error
  }

  // ---------------------------------------------------------------------------------------
  // Headers
  // ---------------------------------------------------------------------------------------

  predicate HasFlag(wkbType: nat, flag: nat)
    requires flag > 0
  {
    wkbType / flag % 2 == 1
  }

  const SRID_FLAG := 0x2000_0000
  const M_FLAG := 0x4000_0000
  const Z_FLAG := 0x8000_0000

  predicate HasZ(wkbType: nat) {
    HasFlag(wkbType, Z_FLAG) || wkbType / 1000 % 10 == 1 || wkbType / 1000 % 10 == 3
  }

  predicate HasM(wkbType: nat) {
    HasFlag(wkbType, M_FLAG) || wkbType / 1000 % 10 == 2 || wkbType / 1000 % 10 == 3
  }

  function CoordSize(wkbType: nat): (size: nat)
    ensures size == 16 || size == 24 || size == 32
  {
    (2 + (if HasZ(wkbType) then 1 else 0) + (if HasM(wkbType) then 1 else 0)) * 8
  }

  function BaseType(wkbType: nat): nat {
    if wkbType % 256 != 0 then wkbType % 256 else wkbType % 1000
  }

  /** What `readGeometry` knows before it dispatches: the byte order, the type word and where the body starts. */
  datatype Header = Header(le: bool, wkbType: nat, body: nat)

  function ReadHeader(view: seq<Byte>, offset: nat): (r: Result<Header>)
    ensures r.Ok? ==> offset + 5 <= |view| && offset + 5 <= r.value.body <= offset + 9
  {
    match GetUint8(view, offset)
    case Error => Error
    case Ok(byteOrder) =>
      var le := byteOrder == 1;
      match GetUint32(view, offset + 1, le)
      case Error => Error
      case Ok(wkbType) =>
        Ok(Header(le, wkbType, offset + 5 + if HasFlag(wkbType, SRID_FLAG) then 4 else 0))
  }

  function MultiKind(baseType: nat): (kind: Kind)
    requires 4 <= baseType <= 6
  {
    if baseType == 4 then MultiPoint else if baseType == 5 then MultiLineString else MultiPolygon
  }

  // ---------------------------------------------------------------------------------------
  // Decoding
  // ---------------------------------------------------------------------------------------

  function ReadCoord(view: seq<Byte>, offset: nat, le: bool, coordSize: nat): (r: Result<Read<Coords<Double>>>)
    ensures r.Ok? ==> offset + 16 <= |view| && r.value.next == offset + coordSize
  {
    match (GetFloat64(view, offset, le), GetFloat64(view, offset + 8, le))
    case (Ok(x), Ok(y)) => Ok(Read(Position(x, y), offset + coordSize))
    case _ => Error
  }

  function ReadPoint(view: seq<Byte>, offset: nat, le: bool, coordSize: nat): (r: Result<Read<Geometry>>)
    ensures r.Ok? ==> offset + 16 <= |view| && r.value.next == offset + coordSize
  {
    match ReadCoord(view, offset, le, coordSize)
    case Error => Error
    case Ok(c) => Ok(Read(Shape(Point, c.value), c.next))
  }

  /** Values already read, then those of `rest`. */
  function Append<T>(done: seq<T>, rest: Result<Read<seq<T>>>): Result<Read<seq<T>>> {
    match rest
    case Error => Error
    case Ok(r) => Ok(Read(done + r.value, r.next))
  }

  /** `count` positions in a row. */
  function Positions(view: seq<Byte>, offset: nat, le: bool, coordSize: nat, count: nat)
    : (r: Result<Read<seq<Coords<Double>>>>)
    ensures r.Ok? ==> offset <= r.value.next
    decreases count
  {
    if count == 0 then Ok(Read([], offset))
    else
      match ReadCoord(view, offset, le, coordSize)
      case Error => Error
      case Ok(c) => Append([c.value], Positions(view, c.next, le, coordSize, count - 1))
  }

  /** A count and that many positions. */
  function CoordArray(view: seq<Byte>, offset: nat, le: bool, coordSize: nat): (r: Result<Read<seq<Coords<Double>>>>)
    ensures r.Ok? ==> offset + 4 <= |view| && offset + 4 <= r.value.next
  {
    match GetUint32(view, offset, le)
    case Error => Error
    case Ok(count) => Positions(view, offset + 4, le, coordSize, count)
  }

  /** `count` rings in a row. */
  function Rings(view: seq<Byte>, offset: nat, le: bool, coordSize: nat, count: nat)
    : (r: Result<Read<seq<Coords<Double>>>>)
    ensures r.Ok? ==> offset <= r.value.next
    decreases count
  {
    if count == 0 then Ok(Read([], offset))
    else
      match CoordArray(view, offset, le, coordSize)
      case Error => Error
      case Ok(ring) => Append([Array(ring.value)], Rings(view, ring.next, le, coordSize, count - 1))
  }

  function ArrayShape(kind: Kind, r: Result<Read<seq<Coords<Double>>>>): Result<Read<Geometry>> {
    match r
    case Error => Error
    case Ok(cs) => Ok(Read(Shape(kind, Array(cs.value)), cs.next))
  }

  function PartCoordinates(parts: seq<Geometry>): (cs: seq<Coords<Double>>)
    ensures |cs| == |parts|
  {
    if parts == [] then [] else [parts[0].Coordinates()] + PartCoordinates(parts[1..])
  }

  /** The geometry that starts at `offset`, and the offset after it. */
  function Decode(view: seq<Byte>, offset: nat): (r: Result<Read<Geometry>>)
    ensures r.Ok? ==> offset + 9 <= |view| && offset + 9 <= r.value.next
    decreases |view| - offset, 0
  {
    match ReadHeader(view, offset)
    case Error => Error
    case Ok(h) => DecodeBody(view, h)
  }

  /** The dispatch of `readGeometry`. */
  function DecodeBody(view: seq<Byte>, h: Header): (r: Result<Read<Geometry>>)
    ensures r.Ok? ==> h.body + 4 <= |view| && h.body + 4 <= r.value.next
    decreases |view| - h.body, 0
  {
    var coordSize, baseType := CoordSize(h.wkbType), BaseType(h.wkbType);
    if baseType == 1 then ReadPoint(view, h.body, h.le, coordSize)
    else if baseType == 2 then ArrayShape(LineString, CoordArray(view, h.body, h.le, coordSize))
    else if 3 <= baseType <= 7 then
      match GetUint32(view, h.body, h.le)
      case Error => Error
      case Ok(count) =>
        if baseType == 3 then ArrayShape(Polygon, Rings(view, h.body + 4, h.le, coordSize, count))
        else
          match DecodeParts(view, h.body + 4, count)
          case Error => Error
          case Ok(parts) =>
            Ok(Read(if baseType == 7 then Collection(parts.value)
                    else Shape(MultiKind(baseType), Array(PartCoordinates(parts.value))), parts.next))
    else Error
  }

  /** `count` geometries in a row. */
  function DecodeParts(view: seq<Byte>, offset: nat, count: nat): (r: Result<Read<seq<Geometry>>>)
    ensures r.Ok? ==> offset <= r.value.next
    decreases |view| - offset, count + 1
  {
    if count == 0 then Ok(Read([], offset))
    else
      match Decode(view, offset)
      case Error => Error
      case Ok(part) => Append([part.value], DecodeParts(view, part.next, count - 1))
  }

  /** Positions are read one after the other at the given stride. */
  lemma {:induction false} PositionsForward(view: seq<Byte>, offset: nat, le: bool, coordSize: nat, count: nat)
    ensures var r := Positions(view, offset, le, coordSize, count);
            r.Ok? ==> |r.value.value| == count && r.value.next == offset + count * coordSize
    decreases count
  {
    hide ReadCoord;
    if count > 0 {
      var c := ReadCoord(view, offset, le, coordSize);
      assert count * coordSize == coordSize + (count - 1) * coordSize;
      if c.Ok? {
        PositionsForward(view, c.value.next, le, coordSize, count - 1);
      }
    }
  }

  predicate Joined<T(==)>(whole: seq<T>, a: seq<T>, b: seq<T>) {
    whole == a + b
  }

  lemma PositionsCons(view: seq<Byte>, offset: nat, le: bool, coordSize: nat, count: nat, next: nat, end: nat,
                      first: Coords<Double>, rest: seq<Coords<Double>>, all: seq<Coords<Double>>)
    requires count > 0 && Joined(all, [first], rest)
    requires ReadCoord(view, offset, le, coordSize) == Ok(Read(first, next))
    requires Positions(view, next, le, coordSize, count - 1) == Ok(Read(rest, end))
    ensures Positions(view, offset, le, coordSize, count) == Ok(Read(all, end))
  {
  }

  lemma RingsCons(view: seq<Byte>, offset: nat, le: bool, coordSize: nat, count: nat, next: nat, end: nat,
                  first: seq<Coords<Double>>, rest: seq<Coords<Double>>, all: seq<Coords<Double>>)
    requires count > 0 && Joined(all, [Array(first)], rest)
    requires CoordArray(view, offset, le, coordSize) == Ok(Read(first, next))
    requires Rings(view, next, le, coordSize, count - 1) == Ok(Read(rest, end))
    ensures Rings(view, offset, le, coordSize, count) == Ok(Read(all, end))
  {
  }

  lemma PartsCons(view: seq<Byte>, offset: nat, count: nat, next: nat, end: nat,
                  first: Geometry, rest: seq<Geometry>, all: seq<Geometry>)
    requires count > 0 && Joined(all, [first], rest)
    requires Decode(view, offset) == Ok(Read(first, next))
    requires DecodeParts(view, next, count - 1) == Ok(Read(rest, end))
    ensures DecodeParts(view, offset, count) == Ok(Read(all, end))
  {
  }

  // ---------------------------------------------------------------------------------------
  // The readers that loop
  // ---------------------------------------------------------------------------------------

  lemma AppendOne<T>(done: seq<T>, x: T, rest: Result<Read<seq<T>>>)
    ensures Append(done, Append([x], rest)) == Append(done + [x], rest)
  {
    if rest.Ok? {
      assert done + ([x] + rest.value.value) == done + [x] + rest.value.value;
    }
  }

  lemma AppendNothing<T>(rest: Result<Read<seq<T>>>)
    ensures Append([], rest) == rest
  {
    if rest.Ok? {
      assert [] + rest.value.value == rest.value.value;
    }
  }

  lemma AppendEnd<T>(done: seq<T>, next: nat)
    ensures Append(done, Ok(Read([], next))) == Ok(Read(done, next))
  {
    assert done + [] == done;
  }

  method ReadCoordArray(view: seq<Byte>, offset: nat, le: bool, coordSize: nat)
    returns (r: Result<Read<seq<Coords<Double>>>>)
    ensures r == CoordArray(view, offset, le, coordSize)
  {
    hide ReadCoord;
    var count := GetUint32(view, offset, le);
    if count.Error? {
      return Error;
    }
    var next: nat := offset + 4;
    var coords := [];
    var i := 0;
    AppendNothing(Positions(view, next, le, coordSize, count.value));
    while i < count.value
      invariant i <= count.value
      invariant CoordArray(view, offset, le, coordSize)
             == Append(coords, Positions(view, next, le, coordSize, count.value - i))
    {
      var c := ReadCoord(view, next, le, coordSize);
      if c.Error? {
        return Error;
      }
      AppendOne(coords, c.value.value, Positions(view, c.value.next, le, coordSize, count.value - i - 1));
      coords := coords + [c.value.value];
      next := c.value.next;
      i := i + 1;
    }
    AppendEnd(coords, next);
    return Ok(Read(coords, next));
  }

  method ReadPolygon(view: seq<Byte>, offset: nat, le: bool, coordSize: nat) returns (r: Result<Read<Geometry>>)
    ensures r == match GetUint32(view, offset, le)
                 case Error => Error
                 case Ok(count) => ArrayShape(Polygon, Rings(view, offset + 4, le, coordSize, count))
  {
    hide CoordArray;
    var ringCount := GetUint32(view, offset, le);
    if ringCount.Error? {
      return Error;
    }
    var next: nat := offset + 4;
    var rings := [];
    var i := 0;
    ghost var whole := Rings(view, next, le, coordSize, ringCount.value);
    AppendNothing(whole);
    while i < ringCount.value
      invariant i <= ringCount.value
      invariant whole == Append(rings, Rings(view, next, le, coordSize, ringCount.value - i))
    {
      var ring := ReadCoordArray(view, next, le, coordSize);
      if ring.Error? {
        return Error;
      }
      AppendOne(rings, Array(ring.value.value), Rings(view, ring.value.next, le, coordSize, ringCount.value - i - 1));
      rings := rings + [Array(ring.value.value)];
      next := ring.value.next;
      i := i + 1;
    }
    AppendEnd(rings, next);
    return Ok(Read(Shape(Polygon, Array(rings)), next));
  }

  method ReadGeometry(view: seq<Byte>, offset: nat) returns (r: Result<Read<Geometry>>)
    ensures r == Decode(view, offset)
    decreases |view| - offset, 0
  {
    var header := ReadHeader(view, offset);
    if header.Error? {
      return Error;
    }
    var h := header.value;
    var coordSize := CoordSize(h.wkbType);
    var baseType := BaseType(h.wkbType);
    if baseType == 1 {
      r := ReadPoint(view, h.body, h.le, coordSize);
    } else if baseType == 2 {
      var coords := ReadCoordArray(view, h.body, h.le, coordSize);
      r := ArrayShape(LineString, coords);
    } else if baseType == 3 {
      r := ReadPolygon(view, h.body, h.le, coordSize);
    } else if 4 <= baseType <= 6 {
      r := ReadMulti(view, h.body, h.le, MultiKind(baseType));
    } else if baseType == 7 {
      r := ReadGeometryCollection(view, h.body, h.le);
    } else {
      r := Error;
    }
  }

  lemma PartCoordinatesSnoc(parts: seq<Geometry>, part: Geometry)
    ensures PartCoordinates(parts + [part]) == PartCoordinates(parts) + [part.Coordinates()]
  {
    if parts == [] {
      assert parts + [part] == [part];
    } else {
      assert (parts + [part])[1..] == parts[1..] + [part];
      PartCoordinatesSnoc(parts[1..], part);
    }
  }

  method ReadMulti(view: seq<Byte>, offset: nat, le: bool, kind: Kind) returns (r: Result<Read<Geometry>>)
    ensures r == match GetUint32(view, offset, le)
                 case Error => Error
                 case Ok(count) =>
                   match DecodeParts(view, offset + 4, count)
                   case Error => Error
                   case Ok(parts) => Ok(Read(Shape(kind, Array(PartCoordinates(parts.value))), parts.next))
    decreases |view| - offset, 1
  {
    hide Decode, PartCoordinates;
    var count := GetUint32(view, offset, le);
    if count.Error? {
      return Error;
    }
    var next := offset + 4;
    var coordinates := [];
    ghost var parts := [];
    var i := 0;
    ghost var whole := DecodeParts(view, next, count.value);
    AppendNothing(whole);
    NoPartCoordinates();
    while i < count.value
      invariant i <= count.value && next >= offset + 4
      invariant whole == Append(parts, DecodeParts(view, next, count.value - i))
      invariant coordinates == PartCoordinates(parts)
    {
      var part := ReadGeometry(view, next);
      if part.Error? {
        return Error;
      }
      AppendOne(parts, part.value.value, DecodeParts(view, part.value.next, count.value - i - 1));
      PartCoordinatesSnoc(parts, part.value.value);
      coordinates := coordinates + [part.value.value.Coordinates()];
      parts := parts + [part.value.value];
      next := part.value.next;
      i := i + 1;
    }
    AppendEnd(parts, next);
    return Ok(Read(Shape(kind, Array(coordinates)), next));
  }

  lemma NoPartCoordinates()
    ensures PartCoordinates([]) == []
  {
  }

  method ReadGeometryCollection(view: seq<Byte>, offset: nat, le: bool) returns (r: Result<Read<Geometry>>)
    ensures r == match GetUint32(view, offset, le)
                 case Error => Error
                 case Ok(count) =>
                   match DecodeParts(view, offset + 4, count)
                   case Error => Error
                   case Ok(parts) => Ok(Read(Collection(parts.value), parts.next))
    decreases |view| - offset, 1
  {
    hide Decode;
    var count := GetUint32(view, offset, le);
    if count.Error? {
      return Error;
    }
    var next := offset + 4;
    var geometries := [];
    var i := 0;
    ghost var whole := DecodeParts(view, next, count.value);
    AppendNothing(whole);
    while i < count.value
      invariant i <= count.value && next >= offset + 4
      invariant whole == Append(geometries, DecodeParts(view, next, count.value - i))
    {
      var part := ReadGeometry(view, next);
      if part.Error? {
        return Error;
      }
      AppendOne(geometries, part.value.value, DecodeParts(view, part.value.next, count.value - i - 1));
      geometries := geometries + [part.value.value];
      next := part.value.next;
      i := i + 1;
    }
    AppendEnd(geometries, next);
    return Ok(Read(Collection(geometries), next));
  }
}
