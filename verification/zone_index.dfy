/**
 The zone lookup of `js/app.js`: `pontoEmPoligono` tests a GeoJSON geometry ring by ring,
 and `encontrarAreaNoGeoJSON` returns the properties of the first feature of a dataset
 whose geometry contains the query point.
 */
module ZoneIndex {
  import opened Wrappers
  import opened Containment

  /** A feature's attribute record. */
  type Properties = map<string, string>

  /** A GeoJSON geometry: the two polygonal types with their coordinates, any other type
      by its name. A polygon is a list of rings, the first the outer boundary and the
      others holes. */
  datatype Geometry =
    | Polygon(rings: seq<Ring>)
    | MultiPolygon(polygons: seq<seq<Ring>>)
    | Other(kind: string)

  /** A GeoJSON feature; an absent `geometry` and a `null` or absent `properties` are
      `None`. */
  datatype Feature = Feature(geometry: Option<Geometry>, properties: Option<Properties>)

  /** A loaded FeatureCollection; an absent `features` member is `None`. */
  datatype Dataset = Dataset(features: Option<seq<Feature>>)

  /** The inner loop of `pontoEmPoligono`: some ring of one polygon passes `rayCasting`. */
  function AnyRing(p: Point, rings: seq<Ring>): (r: bool)
    ensures r <==> exists k :: 0 <= k < |rings| && Inside(p, rings[k])
  {
    if |rings| == 0 then false
    else Inside(p, rings[0]) || AnyRing(p, rings[1..])
  }

  /** The outer loop of `pontoEmPoligono`: some ring of some polygon passes `rayCasting`. */
  function AnyPolygon(p: Point, polygons: seq<seq<Ring>>): (r: bool)
    ensures r <==> exists i, k :: 0 <= i < |polygons| && 0 <= k < |polygons[i]| && Inside(p, polygons[i][k])
  {
    if |polygons| == 0 then false
    else AnyRing(p, polygons[0]) || AnyPolygon(p, polygons[1..])
  }

  /** `pontoEmPoligono(ponto, geometria)`. No geometry and geometry types other than
      `Polygon` and `MultiPolygon` contain nothing; otherwise the point is contained when
      any ring of any polygon contains it, holes included: a hole is tested as solid and
      never subtracted. */
  function PontoEmPoligono(p: Point, g: Option<Geometry>): (r: bool)
    ensures g.None? ==> !r
    ensures g.Some? && g.value.Other? ==> !r
    ensures g.Some? && g.value.Polygon? ==>
              (r <==> exists k :: 0 <= k < |g.value.rings| && Inside(p, g.value.rings[k]))
    ensures g.Some? && g.value.MultiPolygon? ==>
              (r <==> exists i, k :: 0 <= i < |g.value.polygons| && 0 <= k < |g.value.polygons[i]|
                                     && Inside(p, g.value.polygons[i][k]))
  {
    match g
    case None => false
    case Some(Polygon(rings)) =>
      assert [rings][0] == rings;
      AnyPolygon(p, [rings])
    case Some(MultiPolygon(polygons)) => AnyPolygon(p, polygons)
    case Some(Other(_)) => false
  }

  /** A `Polygon` is tested exactly like the `MultiPolygon` holding it alone. */
  lemma PolygonIsSingletonMultiPolygon(p: Point, rings: seq<Ring>)
    ensures PontoEmPoligono(p, Some(Polygon(rings))) == PontoEmPoligono(p, Some(MultiPolygon([rings])))
  {
  }

  /** Index of the first feature whose geometry contains `p`. */
  function FirstContaining(p: Point, features: seq<Feature>): (r: Option<nat>)
    ensures r.Some? ==> r.value < |features| && PontoEmPoligono(p, features[r.value].geometry)
    ensures r.Some? ==> forall k :: 0 <= k < r.value ==> !PontoEmPoligono(p, features[k].geometry)
    ensures r.None? ==> forall k :: 0 <= k < |features| ==> !PontoEmPoligono(p, features[k].geometry)
  {
    if |features| == 0 then None
    else if PontoEmPoligono(p, features[0].geometry) then Some(0)
    else match FirstContaining(p, features[1..])
      case Some(k) => Some(k + 1)
      case None => None
  }

  /** Some feature of `features` contains `p`. */
  predicate SomeFeatureContains(p: Point, features: seq<Feature>) {
    exists k :: 0 <= k < |features| && PontoEmPoligono(p, features[k].geometry)
  }

  /** `encontrarAreaNoGeoJSON(lat, lon, geoData)`: the point is `[lon, lat]`, so x is the
      longitude. Without a dataset or its feature list the answer is `None`; otherwise it
      is the properties of the first containing feature in list order, which are `None`
      when that feature has none (later features are not consulted), and `None` when no
      feature contains the point. */
  function EncontrarArea(lat: real, lon: real, geoData: Option<Dataset>): (r: Option<Properties>)
    ensures geoData.None? || geoData.value.features.None? ==> r.None?
    ensures geoData.Some? && geoData.value.features.Some? ==>
              !SomeFeatureContains((lon, lat), geoData.value.features.value) ==> r.None?
    ensures geoData.Some? && geoData.value.features.Some? ==>
              SomeFeatureContains((lon, lat), geoData.value.features.value) ==>
              var fs := geoData.value.features.value;
              exists i :: 0 <= i < |fs| && PontoEmPoligono((lon, lat), fs[i].geometry)
                          && r == fs[i].properties
                          && forall k :: 0 <= k < i ==> !PontoEmPoligono((lon, lat), fs[k].geometry)
    ensures r.Some? ==>
              geoData.Some? && geoData.value.features.Some? &&
              var fs := geoData.value.features.value;
              exists i :: 0 <= i < |fs| && PontoEmPoligono((lon, lat), fs[i].geometry)
                          && r == fs[i].properties
                          && forall k :: 0 <= k < i ==> !PontoEmPoligono((lon, lat), fs[k].geometry)
  {
    match geoData
    case None => None
    case Some(Dataset(None)) => None
    case Some(Dataset(Some(features))) =>
      match FirstContaining((lon, lat), features)
      case Some(i) => features[i].properties
      case None => None
  }
}
