/** Model of `collectBounds` of map-utils.js and `vertexAverage` of wkb.js, over real coordinates.

    `collectBounds` has one loop nest per geometry type; `vertexAverage` walks arrays of any depth.
    Both visit the same vertices exactly if the coordinates fit the type, and then the marker that
    `vertexAverage` places lies inside the box that the map is fitted to.
  */
module MapUtils {
  import opened Wkb
  import opened Wrappers

  datatype LngLat = LngLat(x: real, y: real)

  /** The vertices of a coordinate array, in order. */
  function Vertices(c: Coords<real>): seq<LngLat> {
    match c
    case Position(x, y) => [LngLat(x, y)]
    case Array(items) => AllVertices(items)
    case Undefined => []
  }

  function AllVertices(items: seq<Coords<real>>): seq<LngLat> {
    if items == [] then [] else AllVertices(items[..|items| - 1]) + Vertices(items[|items| - 1])
  }

  /** How deep positions are nested in the coordinates of each type. */
  function Depth(kind: Kind): nat {
    match kind
    case Point => 0
    case MultiPoint => 1
    case LineString => 1
    case MultiLineString => 2
    case Polygon => 2
    case MultiPolygon => 3
  }

  predicate Nested(c: Coords<real>, depth: nat) {
    if depth == 0 then c.Position?
    else c.Array? && forall i :: 0 <= i < |c.items| ==> Nested(c.items[i], depth - 1)
  }

  /** The coordinates have the shape that GeoJSON gives to the type. */
  predicate WellTyped(g: GeoJson<real>) {
    match g
    case Shape(kind, c) => Nested(c, Depth(kind))
    case Collection(gs) => forall i :: 0 <= i < |gs| ==> WellTyped(gs[i])
  }

  function VerticesOf(g: GeoJson<real>): seq<LngLat>
    decreases g, 0
  {
    match g
    case Shape(_, c) => Vertices(c)
    case Collection(gs) => VerticesOfAll(gs)
  }

  function VerticesOfAll(gs: seq<GeoJson<real>>): seq<LngLat>
    decreases gs, 1
  {
    if gs == [] then [] else VerticesOfAll(gs[..|gs| - 1]) + VerticesOf(gs[|gs| - 1])
  }

  // ---------------------------------------------------------------------------------------
  // Bounds
  // ---------------------------------------------------------------------------------------

  datatype Box = Empty | Box(west: real, south: real, east: real, north: real)

  function Min(a: real, b: real): real {
    if a <= b then a else b
  }

  function Max(a: real, b: real): real {
    if a >= b then a else b
  }

  function Extended(b: Box, v: LngLat): Box {
    match b
    case Empty => Box(v.x, v.y, v.x, v.y)
    case Box(w, s, e, n) => Box(Min(w, v.x), Min(s, v.y), Max(e, v.x), Max(n, v.y))
  }

  function ExtendedBy(b: Box, vs: seq<LngLat>): Box {
    if vs == [] then b else Extended(ExtendedBy(b, vs[..|vs| - 1]), vs[|vs| - 1])
  }

  lemma {:induction false} ExtendedByConcat(b: Box, us: seq<LngLat>, vs: seq<LngLat>)
    ensures ExtendedBy(b, us + vs) == ExtendedBy(ExtendedBy(b, us), vs)
    decreases |vs|
  {
    if vs == [] {
      assert us + vs == us;
    } else {
      var n := |vs| - 1;
      assert (us + vs)[..|us| + n] == us + vs[..n];
      ExtendedByConcat(b, us, vs[..n]);
    }
  }

  /** What a loop can bind its variable to. */
  datatype Value = Coord(c: Coords<real>) | Number(x: real)

  /** What the map library does with an argument that is no position: new bounds, or an exception. */
  type Library = (Box, Value) -> Option<Box>

  class LngLatBounds {
    var box: Box
    const library: Library

    constructor (library: Library)
      ensures box == Empty && this.library == library
    {
      box := Empty;
      this.library := library;
    }

    method Extend(v: Value) returns (ok: bool)
      modifies this
      ensures ok == ExtendOne(v, old(box), library).Some?
      ensures ok ==> Some(box) == ExtendOne(v, old(box), library)
    {
      if v.Coord? && v.c.Position? {
        box := Extended(box, LngLat(v.c.x, v.c.y));
        return true;
      }
      var extended := library(box, v);
      if extended.Some? {
        box := extended.value;
      }
      ok := extended.Some?;
    }
  }

  function ExtendOne(v: Value, b: Box, library: Library): Option<Box> {
    if v.Coord? && v.c.Position? then Some(Extended(b, LngLat(v.c.x, v.c.y))) else library(b, v)
  }

  function AsValues(items: seq<Coords<real>>): (vs: seq<Value>)
    ensures |vs| == |items|
    ensures forall i :: 0 <= i < |items| ==> vs[i] == Coord(items[i])
  {
    seq(|items|, i requires 0 <= i < |items| => Coord(items[i]))
  }

  /** What `for (const x of v)` goes through; a number or `undefined` is an exception. */
  function Iterated(v: Value): Option<seq<Value>> {
    match v
    case Number(_) => None
    case Coord(Undefined) => None
    case Coord(Position(x, y)) => Some([Number(x), Number(y)])
    case Coord(Array(items)) => Some(AsValues(items))
  }

  /** A nest of `depth` loops around `bounds.extend`. */
  function ExtendNest(depth: nat, v: Value, b: Box, library: Library): Option<Box>
    decreases depth, 0, 0
  {
    if depth == 0 then ExtendOne(v, b, library)
    else
      var vs := Iterated(v);
      if vs.None? then None else ExtendEach(depth - 1, vs.value, b, library)
  }

  function ExtendEach(depth: nat, vs: seq<Value>, b: Box, library: Library): Option<Box>
    decreases depth, 1, |vs|
  {
    if vs == [] then Some(b)
    else
      var before := ExtendEach(depth, vs[..|vs| - 1], b, library);
      if before.None? then None else ExtendNest(depth, vs[|vs| - 1], before.value, library)
  }

  lemma EachSnoc(depth: nat, vs: seq<Value>, i: nat, b: Box, library: Library)
    requires i < |vs|
    ensures var before := ExtendEach(depth, vs[..i], b, library);
            ExtendEach(depth, vs[..i + 1], b, library)
            == if before.None? then None else ExtendNest(depth, vs[i], before.value, library)
  {
    assert vs[..i + 1][..i] == vs[..i];
  }

  /** An exception ends the loop. */
  lemma {:induction false} NoneStays(depth: nat, vs: seq<Value>, i: nat, b: Box, library: Library)
    requires i <= |vs| && ExtendEach(depth, vs[..i], b, library).None?
    ensures ExtendEach(depth, vs, b, library).None?
    decreases |vs| - i
  {
    hide ExtendEach, ExtendNest;
    if i == |vs| {
      assert vs[..i] == vs;
    } else {
      EachSnoc(depth, vs, i, b, library);
      NoneStays(depth, vs, i + 1, b, library);
    }
  }

  /** The innermost loop of `collectBounds`. */
  method ExtendByPositions(v: Value, bounds: LngLatBounds) returns (ok: bool)
    modifies bounds
    ensures ok == ExtendNest(1, v, old(bounds.box), bounds.library).Some?
    ensures ok ==> Some(bounds.box) == ExtendNest(1, v, old(bounds.box), bounds.library)
  {
    hide Iterated, ExtendOne;
    var iterated := Iterated(v);
    if iterated.None? {
      return false;
    }
    var vs := iterated.value;
    for i := 0 to |vs|
      invariant ExtendEach(0, vs[..i], old(bounds.box), bounds.library) == Some(bounds.box)
    {
      EachSnoc(0, vs, i, old(bounds.box), bounds.library);
      ok := bounds.Extend(vs[i]);
      if !ok {
        NoneStays(0, vs, i + 1, old(bounds.box), bounds.library);
        return;
      }
    }
    assert vs[..|vs|] == vs;
    ok := true;
  }

  method ExtendByRings(v: Value, bounds: LngLatBounds) returns (ok: bool)
    modifies bounds
    ensures ok == ExtendNest(2, v, old(bounds.box), bounds.library).Some?
    ensures ok ==> Some(bounds.box) == ExtendNest(2, v, old(bounds.box), bounds.library)
  {
    NestUnfolds(2, v, bounds.box, bounds.library);
    hide Iterated, ExtendNest, ExtendEach;
    var iterated := Iterated(v);
    if iterated.None? {
      return false;
    }
    var vs := iterated.value;
    NoneYet(1, vs, bounds.box, bounds.library);
    for i := 0 to |vs|
      invariant ExtendEach(1, vs[..i], old(bounds.box), bounds.library) == Some(bounds.box)
    {
      EachSnoc(1, vs, i, old(bounds.box), bounds.library);
      ok := ExtendByPositions(vs[i], bounds);
      if !ok {
        NoneStays(1, vs, i + 1, old(bounds.box), bounds.library);
        return;
      }
    }
    assert vs[..|vs|] == vs;
    ok := true;
  }

  method ExtendByPolygons(v: Value, bounds: LngLatBounds) returns (ok: bool)
    modifies bounds
    ensures ok == ExtendNest(3, v, old(bounds.box), bounds.library).Some?
    ensures ok ==> Some(bounds.box) == ExtendNest(3, v, old(bounds.box), bounds.library)
  {
    NestUnfolds(3, v, bounds.box, bounds.library);
    hide Iterated, ExtendNest, ExtendEach;
    var iterated := Iterated(v);
    if iterated.None? {
      return false;
    }
    var vs := iterated.value;
    NoneYet(2, vs, bounds.box, bounds.library);
    for i := 0 to |vs|
      invariant ExtendEach(2, vs[..i], old(bounds.box), bounds.library) == Some(bounds.box)
    {
      EachSnoc(2, vs, i, old(bounds.box), bounds.library);
      ok := ExtendByRings(vs[i], bounds);
      if !ok {
        NoneStays(2, vs, i + 1, old(bounds.box), bounds.library);
        return;
      }
    }
    assert vs[..|vs|] == vs;
    ok := true;
  }

  lemma NestUnfolds(depth: nat, v: Value, b: Box, library: Library)
    requires depth > 0
    ensures ExtendNest(depth, v, b, library)
         == if Iterated(v).None? then None else ExtendEach(depth - 1, Iterated(v).value, b, library)
  {
  }

  lemma NoneYet(depth: nat, vs: seq<Value>, b: Box, library: Library)
    ensures ExtendEach(depth, vs[..0], b, library) == Some(b)
  {
  }

  /** What `collectBounds` makes of the bounds, whatever the shape of the coordinates. */
  function Collected(g: GeoJson<real>, b: Box, library: Library): Option<Box>
    decreases g, 0
  {
    match g
    case Shape(kind, c) => ExtendNest(Depth(kind), Coord(c), b, library)
    case Collection(gs) => CollectedAll(gs, b, library)
  }

  function CollectedAll(gs: seq<GeoJson<real>>, b: Box, library: Library): Option<Box>
    decreases gs, 1
  {
    if gs == [] then Some(b)
    else
      var before := CollectedAll(gs[..|gs| - 1], b, library);
      if before.None? then None else Collected(gs[|gs| - 1], before.value, library)
  }

  lemma CollectedSnoc(gs: seq<GeoJson<real>>, i: nat, b: Box, library: Library)
    requires i < |gs|
    ensures var before := CollectedAll(gs[..i], b, library);
            CollectedAll(gs[..i + 1], b, library)
            == if before.None? then None else Collected(gs[i], before.value, library)
  {
    assert gs[..i + 1][..i] == gs[..i];
  }

  lemma {:induction false} NoneCollected(gs: seq<GeoJson<real>>, i: nat, b: Box, library: Library)
    requires i <= |gs| && CollectedAll(gs[..i], b, library).None?
    ensures CollectedAll(gs, b, library).None?
    decreases |gs| - i
  {
    hide CollectedAll, Collected;
    if i == |gs| {
      assert gs[..i] == gs;
    } else {
      CollectedSnoc(gs, i, b, library);
      NoneCollected(gs, i + 1, b, library);
    }
  }

  method CollectBounds(geometry: GeoJson<real>, bounds: LngLatBounds) returns (ok: bool)
    modifies bounds
    ensures ok == Collected(geometry, old(bounds.box), bounds.library).Some?
    ensures ok ==> Some(bounds.box) == Collected(geometry, old(bounds.box), bounds.library)
    decreases geometry
  {
    match geometry
    case Shape(kind, c) =>
      hide ExtendEach;
      match kind {
        case Point => ok := bounds.Extend(Coord(c));
        case MultiPoint => ok := ExtendByPositions(Coord(c), bounds);
        case LineString => ok := ExtendByPositions(Coord(c), bounds);
        case MultiLineString => ok := ExtendByRings(Coord(c), bounds);
        case Polygon => ok := ExtendByRings(Coord(c), bounds);
        case MultiPolygon => ok := ExtendByPolygons(Coord(c), bounds);
      }
    case Collection(gs) =>
      assert CollectedAll(gs[..0], bounds.box, bounds.library) == Some(bounds.box);
      for i := 0 to |gs|
        invariant CollectedAll(gs[..i], old(bounds.box), bounds.library) == Some(bounds.box)
      {
        hide Collected, CollectedAll;
        CollectedSnoc(gs, i, old(bounds.box), bounds.library);
        ok := CollectBounds(gs[i], bounds);
        if !ok {
          NoneCollected(gs, i + 1, old(bounds.box), bounds.library);
          CollectionMeans(gs, old(bounds.box), bounds.library);
          return;
        }
      }
      assert gs[..|gs|] == gs;
      ok := true;
  }

  lemma CollectionMeans(gs: seq<GeoJson<real>>, b: Box, library: Library)
    ensures Collected(Collection(gs), b, library) == CollectedAll(gs, b, library)
  {
  }

  // ---------------------------------------------------------------------------------------
  // Bounds of well-typed geometries
  // ---------------------------------------------------------------------------------------

  lemma AllVerticesSnoc(items: seq<Coords<real>>, i: nat)
    requires i < |items|
    ensures AllVertices(items[..i + 1]) == AllVertices(items[..i]) + Vertices(items[i])
  {
    assert items[..i + 1][..i] == items[..i];
  }

  lemma ExtendedByOne(b: Box, v: LngLat)
    ensures ExtendedBy(b, [v]) == Extended(b, v)
  {
    assert [v][..0] == [];
  }

  lemma {:induction false} NestExtends(depth: nat, c: Coords<real>, b: Box, library: Library)
    requires Nested(c, depth)
    ensures ExtendNest(depth, Coord(c), b, library) == Some(ExtendedBy(b, Vertices(c)))
    decreases depth, 0, 0
  {
    if depth == 0 {
      ExtendedByOne(b, LngLat(c.x, c.y));
    } else {
      hide ExtendEach, ExtendedBy;
      NestUnfolds(depth, Coord(c), b, library);
      EachExtends(depth - 1, c.items, b, library);
    }
  }

  lemma {:induction false} EachExtends(depth: nat, items: seq<Coords<real>>, b: Box, library: Library)
    requires Nested(Array(items), depth + 1)
    ensures ExtendEach(depth, AsValues(items), b, library) == Some(ExtendedBy(b, AllVertices(items)))
    decreases depth, 1, |items|
  {
    hide ExtendNest, Vertices;
    if items != [] {
      var n := |items| - 1;
      assert Nested(Array(items[..n]), depth + 1);
      assert AsValues(items)[..n] == AsValues(items[..n]);
      EachExtends(depth, items[..n], b, library);
      NestExtends(depth, items[n], ExtendedBy(b, AllVertices(items[..n])), library);
      ExtendedByConcat(b, AllVertices(items[..n]), Vertices(items[n]));
    }
  }

  /** Bounds of a geometry whose coordinates fit its type are extended by exactly its vertices. */
  lemma {:induction false} WellTypedBounds(g: GeoJson<real>, b: Box, library: Library)
    requires WellTyped(g)
    ensures Collected(g, b, library) == Some(ExtendedBy(b, VerticesOf(g)))
    decreases g, 0
  {
    match g
    case Shape(kind, c) => NestExtends(Depth(kind), c, b, library);
    case Collection(gs) => WellTypedBoundsAll(gs, b, library);
  }

  lemma {:induction false} WellTypedBoundsAll(gs: seq<GeoJson<real>>, b: Box, library: Library)
    requires forall i :: 0 <= i < |gs| ==> WellTyped(gs[i])
    ensures CollectedAll(gs, b, library) == Some(ExtendedBy(b, VerticesOfAll(gs)))
    decreases gs, 1
  {
    if gs != [] {
      hide WellTyped, Collected, VerticesOf;
      var n := |gs| - 1;
      assert forall i :: 0 <= i < n ==> gs[..n][i] == gs[i];
      WellTypedBoundsAll(gs[..n], b, library);
      WellTypedBounds(gs[n], ExtendedBy(b, VerticesOfAll(gs[..n])), library);
      ExtendedByConcat(b, VerticesOfAll(gs[..n]), VerticesOf(gs[n]));
    }
  }

  // ---------------------------------------------------------------------------------------
  // Averages
  // ---------------------------------------------------------------------------------------

  /** Sums over a list of vertices, as `vertexAverage` accumulates them. */
  datatype Sums = Sums(sx: real, sy: real, n: nat)

  function Add(s: Sums, v: LngLat): Sums {
    Sums(s.sx + v.x, s.sy + v.y, s.n + 1)
  }

  function AddAll(s: Sums, vs: seq<LngLat>): Sums {
    if vs == [] then s else Add(AddAll(s, vs[..|vs| - 1]), vs[|vs| - 1])
  }

  lemma {:induction false} AddAllConcat(s: Sums, us: seq<LngLat>, vs: seq<LngLat>)
    ensures AddAll(s, us + vs) == AddAll(AddAll(s, us), vs)
    decreases |vs|
  {
    if vs == [] {
      assert us + vs == us;
    } else {
      var n := |vs| - 1;
      assert (us + vs)[..|us| + n] == us + vs[..n];
      AddAllConcat(s, us, vs[..n]);
    }
  }

  lemma AddAllOne(s: Sums, v: LngLat)
    ensures AddAll(s, [v]) == Add(s, v) && AddAll(s, []) == s
  {
    assert [v][..0] == [];
  }

  /** No `undefined` anywhere in the coordinates. */
  predicate Defined(c: Coords<real>) {
    match c
    case Position(_, _) => true
    case Array(items) => forall i :: 0 <= i < |items| ==> Defined(items[i])
    case Undefined => false
  }

  /** The recursive closure of `vertexAverage`; it throws on an `undefined`. */
  method Walk(c: Coords<real>, before: Sums) returns (ok: bool, s: Sums)
    ensures ok == Defined(c)
    ensures ok ==> s == AddAll(before, Vertices(c))
    decreases c
  {
    AddAllOne(before, LngLat(0.0, 0.0));
    match c
    case Undefined => return false, before;
    case Position(x, y) =>
      AddAllOne(before, LngLat(x, y));
      return true, Sums(before.sx + x, before.sy + y, before.n + 1);
    case Array(items) =>
      s := before;
      for i := 0 to |items|
        invariant s == AddAll(before, AllVertices(items[..i]))
        invariant forall j :: 0 <= j < i ==> Defined(items[j])
      {
        AllVerticesSnoc(items, i);
        hide AddAll, AllVertices, Vertices;
        AddAllConcat(before, AllVertices(items[..i]), Vertices(items[i]));
        ok, s := Walk(items[i], s);
        if !ok {
          return;
        }
      }
      assert items[..|items|] == items;
      ok := true;
  }

  /** The average of a geometry's vertices; a collection has no coordinates, so its average is the origin. */
  function Average(g: GeoJson<real>): LngLat {
    var s := AddAll(Sums(0.0, 0.0, 0), if g.Shape? then Vertices(g.coordinates) else []);
    if s.n > 0 then LngLat(s.sx / s.n as real, s.sy / s.n as real) else LngLat(0.0, 0.0)
  }

  method VertexAverage(geometry: GeoJson<real>) returns (ok: bool, v: LngLat)
    ensures ok == (geometry.Shape? && !geometry.coordinates.Undefined? ==> Defined(geometry.coordinates))
    ensures ok ==> v == Average(geometry)
  {
    hide AddAll, Vertices;
    var coordinates := if geometry.Shape? then geometry.coordinates else Undefined;
    EmptyArray();
    var s;
    ok, s := Walk(if coordinates.Undefined? then Array([]) else coordinates, Sums(0.0, 0.0, 0));
    v := if s.n > 0 then LngLat(s.sx / s.n as real, s.sy / s.n as real) else LngLat(0.0, 0.0);
  }

  lemma EmptyArray()
    ensures Vertices(Array([])) == [] && Vertices(Undefined) == [] && Defined(Array([]))
  {
  }

  predicate Inside(v: LngLat, b: Box) {
    b.Box? && b.west <= v.x <= b.east && b.south <= v.y <= b.north
  }

  /** The sums of `n` vertices lie between `n` times the sides of their box. */
  predicate Between(s: Sums, b: Box) {
    && b.Box?
    && s.n as real * b.west <= s.sx <= s.n as real * b.east
    && s.n as real * b.south <= s.sy <= s.n as real * b.north
  }

  lemma OneMore(n: nat, a: real)
    ensures (n + 1) as real * a == n as real * a + a
  {
    var m := n as real;
    assert (n + 1) as real == m + 1.0;
    assert (m + 1.0) * a == m * a + a;
  }

  lemma Scaled(m: real, a: real, b: real)
    requires m >= 0.0 && a <= b
    ensures m * a <= m * b
  {
  }

  lemma ScaleUp(n: nat, low: real, low': real, sum: real, x: real)
    requires n as real * low <= sum && low' <= low && low' <= x
    ensures (n + 1) as real * low' <= sum + x
  {
    OneMore(n, low');
    Scaled(n as real, low', low);
  }

  lemma ScaleDown(n: nat, high: real, high': real, sum: real, x: real)
    requires sum <= n as real * high && high <= high' && x <= high'
    ensures sum + x <= (n + 1) as real * high'
  {
    OneMore(n, high');
    Scaled(n as real, high, high');
  }

  lemma BetweenSnoc(s: Sums, b: Box, v: LngLat)
    requires Between(s, b)
    ensures Between(Add(s, v), Extended(b, v))
  {
    var c := Extended(b, v);
    assert c.west <= b.west && c.west <= v.x && c.south <= b.south && c.south <= v.y;
    assert b.east <= c.east && v.x <= c.east && b.north <= c.north && v.y <= c.north;
    hide Extended;
    ScaleUp(s.n, b.west, c.west, s.sx, v.x);
    ScaleUp(s.n, b.south, c.south, s.sy, v.y);
    ScaleDown(s.n, b.east, c.east, s.sx, v.x);
    ScaleDown(s.n, b.north, c.north, s.sy, v.y);
  }

  lemma {:induction false} SumsBetween(vs: seq<LngLat>)
    requires vs != []
    ensures Between(AddAll(Sums(0.0, 0.0, 0), vs), ExtendedBy(Empty, vs))
    ensures AddAll(Sums(0.0, 0.0, 0), vs).n == |vs|
    decreases |vs|
  {
    var n := |vs| - 1;
    if n == 0 {
      AddAllOne(Sums(0.0, 0.0, 0), vs[0]);
      ExtendedByOne(Empty, vs[0]);
      assert vs == [vs[0]];
      assert 1 as real * vs[0].x == vs[0].x && 1 as real * vs[0].y == vs[0].y;
    } else {
      SumsBetween(vs[..n]);
      hide Between;
      BetweenSnoc(AddAll(Sums(0.0, 0.0, 0), vs[..n]), ExtendedBy(Empty, vs[..n]), vs[n]);
    }
  }

  lemma NegativeTimes(a: real, n: real)
    requires a < 0.0 < n
    ensures a * n < 0.0
  {
  }

  lemma DivideBetween(n: nat, low: real, high: real, sum: real)
    requires n > 0 && n as real * low <= sum <= n as real * high
    ensures low <= sum / n as real <= high
  {
    var m := n as real;
    var q := sum / m;
    assert q * m == sum;
    assert (q - low) * m == sum - m * low;
    assert (high - q) * m == m * high - sum;
    if q < low {
      NegativeTimes(q - low, m);
    }
    if high < q {
      NegativeTimes(high - q, m);
    }
  }

  lemma MeanInside(s: Sums, b: Box)
    requires s.n > 0 && Between(s, b)
    ensures Inside(LngLat(s.sx / s.n as real, s.sy / s.n as real), b)
  {
    DivideBetween(s.n, b.west, b.east, s.sx);
    DivideBetween(s.n, b.south, b.north, s.sy);
  }

  lemma AverageInsideVertices(g: GeoJson<real>)
    requires g.Shape? && VerticesOf(g) != []
    ensures Inside(Average(g), ExtendedBy(Empty, VerticesOf(g)))
  {
    hide AddAll, ExtendedBy, Vertices, Between, Inside;
    var vs := VerticesOf(g);
    SumsBetween(vs);
    MeanInside(AddAll(Sums(0.0, 0.0, 0), vs), ExtendedBy(Empty, vs));
  }

  /** `collectBounds` makes bounds of the geometry, and its marker lies in them, whatever the map library does
      with an argument that is no position. */
  ghost predicate AlwaysIn(g: GeoJson<real>) {
    forall library ::
      var bounds := Collected(g, Empty, library);
      bounds.Some? && Inside(Average(g), bounds.value)
  }

  /** A map library that takes nothing but positions. */
  function Throws(b: Box, v: Value): Option<Box> {
    None
  }

  lemma {:induction false} OnlyNested(depth: nat, c: Coords<real>, b: Box)
    requires ExtendNest(depth, Coord(c), b, Throws).Some?
    ensures Nested(c, depth)
    decreases depth, 0, 0
  {
    if depth > 0 {
      hide ExtendEach;
      NestUnfolds(depth, Coord(c), b, Throws);
      if c.Position? {
        NumberThrows(depth - 1, c, b);
      } else {
        EachNested(depth - 1, c.items, b);
      }
    }
  }

  lemma NumberThrows(depth: nat, c: Coords<real>, b: Box)
    requires c.Position?
    ensures ExtendEach(depth, [Number(c.x), Number(c.y)], b, Throws).None?
  {
    assert [Number(c.x), Number(c.y)][..0] == [];
    assert ExtendEach(depth, [Number(c.x), Number(c.y)][..1], b, Throws).None?;
  }

  lemma {:induction false} EachNested(depth: nat, items: seq<Coords<real>>, b: Box)
    requires ExtendEach(depth, AsValues(items), b, Throws).Some?
    ensures forall i :: 0 <= i < |items| ==> Nested(items[i], depth)
    decreases depth, 1, |items|
  {
    hide ExtendNest, Nested;
    if items != [] {
      var n := |items| - 1;
      assert AsValues(items)[..n] == AsValues(items[..n]);
      EachNested(depth, items[..n], b);
      OnlyNested(depth, items[n], ExtendEach(depth, AsValues(items[..n]), b, Throws).value);
      assert forall i :: 0 <= i < n ==> items[..n][i] == items[i];
    }
  }

  lemma {:induction false} OnlyWellTyped(g: GeoJson<real>, b: Box)
    requires Collected(g, b, Throws).Some?
    ensures WellTyped(g)
    decreases g, 0
  {
    match g
    case Shape(kind, c) => OnlyNested(Depth(kind), c, b);
    case Collection(gs) => OnlyWellTypedAll(gs, b);
  }

  lemma {:induction false} OnlyWellTypedAll(gs: seq<GeoJson<real>>, b: Box)
    requires CollectedAll(gs, b, Throws).Some?
    ensures forall i :: 0 <= i < |gs| ==> WellTyped(gs[i])
    decreases gs, 1
  {
    hide Collected, WellTyped;
    if gs != [] {
      var n := |gs| - 1;
      OnlyWellTypedAll(gs[..n], b);
      OnlyWellTyped(gs[n], CollectedAll(gs[..n], b, Throws).value);
      assert forall i :: 0 <= i < n ==> gs[..n][i] == gs[i];
    }
  }

  /** The marker of a geometry lies in the bounds that `collectBounds` builds for it exactly if the coordinates
      fit the type; the marker of a collection is the origin, wherever its parts lie. */
  lemma AverageInsideBounds(g: GeoJson<real>)
    requires VerticesOf(g) != []
    ensures AlwaysIn(g) <==> WellTyped(g) && (g.Shape? || Inside(LngLat(0.0, 0.0), ExtendedBy(Empty, VerticesOf(g))))
  {
    AverageOfCollection(g);
    var strict: Library := Throws;
    hide Average, Inside, ExtendedBy, VerticesOf, WellTyped;
    if WellTyped(g) {
      forall library ensures Collected(g, Empty, library) == Some(ExtendedBy(Empty, VerticesOf(g))) {
        WellTypedBounds(g, Empty, library);
      }
      if g.Shape? {
        AverageInsideVertices(g);
      }
      if AlwaysIn(g) {
        assert Inside(Average(g), Collected(g, Empty, strict).value);
      }
    } else if AlwaysIn(g) {
      assert Collected(g, Empty, strict).Some?;
      OnlyWellTyped(g, Empty);
    }
  }

  lemma AverageOfCollection(g: GeoJson<real>)
    ensures g.Collection? ==> Average(g) == LngLat(0.0, 0.0)
  {
  }

  /** A collection away from the origin has its marker outside the map. */
  lemma CollectionMarkerOutside()
    ensures var g := Collection([Shape(Point, Position(5.0, 5.0))]);
            WellTyped(g) && VerticesOf(g) != [] && !AlwaysIn(g)
  {
    var point: GeoJson<real> := Shape(Point, Position(5.0, 5.0));
    var g := Collection([point]);
    assert [point][..0] == [];
    assert VerticesOf(g) == VerticesOfAll([point]) == [LngLat(5.0, 5.0)];
    AverageInsideBounds(g);
    ExtendedByOne(Empty, LngLat(5.0, 5.0));
  }

  /** A map library that takes no notice of anything but positions. */
  function Lenient(b: Box, v: Value): Option<Box> {
    Some(b)
  }

  /** A position where an array of positions should be: its two numbers go to the library one by one, and one level
      further down there is nothing to iterate. */
  lemma FlatCoordinates(x: real, y: real, b: Box, library: Library)
    ensures var first := library(b, Number(x));
            Collected(Shape(LineString, Position(x, y)), b, library)
            == if first.None? then None else library(first.value, Number(y))
    ensures Collected(Shape(Polygon, Position(x, y)), b, library) == None
  {
    var vs := [Number(x), Number(y)];
    var v := Coord(Position(x, y));
    assert Iterated(v) == Some(vs);
    NestUnfolds(1, v, b, library);
    NestUnfolds(2, v, b, library);
    EachOfTwo(0, vs, b, library);
    EachOfTwo(1, vs, b, library);
  }

  lemma EachOfTwo(depth: nat, vs: seq<Value>, b: Box, library: Library)
    requires |vs| == 2
    ensures var first := ExtendNest(depth, vs[0], b, library);
            ExtendEach(depth, vs, b, library)
            == if first.None? then None else ExtendNest(depth, vs[1], first.value, library)
  {
    hide ExtendNest;
    NoneYet(depth, vs, b, library);
    EachSnoc(depth, vs, 0, b, library);
    EachSnoc(depth, vs, 1, b, library);
    assert vs[..2] == vs;
  }

  /** Coordinates one level too deep for their type have a vertex and no bounds. */
  lemma TooDeepNoBounds(x: real, y: real)
    ensures var g := Shape(MultiPoint, Array([Array([Position(x, y)])]));
            && !WellTyped(g) && VerticesOf(g) != []
            && forall b :: Collected(g, b, Lenient) == Some(b)
  {
    var inner: Coords<real> := Array([Position(x, y)]);
    OneVertex(Position(x, y));
    OneVertex(inner);
    var g := Shape(MultiPoint, Array([inner]));
    assert !Nested(g.coordinates, 1) by {
      assert !Nested(g.coordinates.items[0], 0);
    }
    forall b ensures Collected(g, b, Lenient) == Some(b) {
      assert AsValues([inner])[..0] == [];
      assert ExtendNest(0, Coord(inner), b, Lenient) == Some(b);
      assert ExtendEach(0, AsValues([inner]), b, Lenient) == Some(b);
    }
  }

  lemma ArrayVertices(items: seq<Coords<real>>)
    ensures Vertices(Array(items)) == AllVertices(items)
  {
  }

  lemma OneVertex(c: Coords<real>)
    ensures Vertices(Array([c])) == Vertices(c)
  {
    hide Vertices;
    AllVerticesSnoc([c], 0);
    assert [c][..0] == [] && [c][..1] == [c];
    ArrayVertices([c]);
  }

  /** A box never shrinks, so the marker also lies in the box of all features of the map. */
  lemma {:induction false} BoundsOnlyGrow(b: Box, vs: seq<LngLat>, v: LngLat)
    requires Inside(v, b)
    ensures Inside(v, ExtendedBy(b, vs))
    decreases |vs|
  {
    if vs != [] {
      BoundsOnlyGrow(b, vs[..|vs| - 1], v);
    }
  }

  lemma MarkerInsideVertices(features: seq<GeoJson<real>>, i: nat)
    requires i < |features| && features[i].Shape? && VerticesOf(features[i]) != []
    ensures Inside(Average(features[i]), ExtendedBy(Empty, VerticesOfAll(features)))
    decreases |features|
  {
    hide Average, Inside, ExtendedBy, VerticesOf;
    var n := |features| - 1;
    var last := VerticesOf(features[n]);
    ExtendedByConcat(Empty, VerticesOfAll(features[..n]), last);
    if i < n {
      MarkerInsideVertices(features[..n], i);
      BoundsOnlyGrow(ExtendedBy(Empty, VerticesOfAll(features[..n])), last, Average(features[i]));
    } else {
      AverageInsideVertices(features[n]);
      StartingBoxGrows(ExtendedBy(Empty, VerticesOfAll(features[..n])), last, Average(features[n]));
    }
  }

  /** The markers of all features but collections and those without a vertex lie in the bounds. */
  ghost predicate MarkersIn(features: seq<GeoJson<real>>, bounds: Option<Box>) {
    && bounds.Some?
    && forall i :: 0 <= i < |features| && features[i].Shape? && VerticesOf(features[i]) != [] ==>
         Inside(Average(features[i]), bounds.value)
  }

  /** The bounds that the map is fitted to exist and hold the markers of the features, whatever the map library
      does with an argument that is no position, exactly if all coordinates fit their type. */
  lemma MarkersInsideFeatureBounds(features: seq<GeoJson<real>>)
    ensures (forall library :: MarkersIn(features, CollectedAll(features, Empty, library)))
       <==> forall i :: 0 <= i < |features| ==> WellTyped(features[i])
  {
    hide Average, Inside, ExtendedBy, VerticesOf, WellTyped;
    var strict: Library := Throws;
    if CollectedAll(features, Empty, strict).Some? {
      OnlyWellTypedAll(features, Empty);
    } else {
      assert !MarkersIn(features, CollectedAll(features, Empty, strict));
    }
    if forall i :: 0 <= i < |features| ==> WellTyped(features[i]) {
      forall library ensures MarkersIn(features, CollectedAll(features, Empty, library)) {
        WellTypedBoundsAll(features, Empty, library);
        forall i | 0 <= i < |features| && features[i].Shape? && VerticesOf(features[i]) != []
          ensures Inside(Average(features[i]), ExtendedBy(Empty, VerticesOfAll(features)))
        {
          MarkerInsideVertices(features, i);
        }
      }
    }
  }

  /** Starting from a larger box gives a larger box. */
  lemma StartingBoxGrows(b: Box, vs: seq<LngLat>, v: LngLat)
    requires Inside(v, ExtendedBy(Empty, vs))
    ensures Inside(v, ExtendedBy(b, vs))
  {
    hide ExtendedBy;
    BoxContains(b, vs);
  }

  predicate Contains(b: Box, c: Box) {
    c.Empty? || (b.Box? && b.west <= c.west && b.south <= c.south && c.east <= b.east && c.north <= b.north)
  }

  lemma {:induction false} BoxContains(b: Box, vs: seq<LngLat>)
    ensures Contains(ExtendedBy(b, vs), ExtendedBy(Empty, vs))
    decreases |vs|
  {
    if vs != [] {
      BoxContains(b, vs[..|vs| - 1]);
    }
  }
}
