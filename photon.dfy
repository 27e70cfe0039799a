/** `photonSearch` (app/services/api.ts:517-539): the query it sends to the
    Photon geocoder and the mapping of the returned GeoJSON features to
    places. */
module Photon {
  import opened JsValues
  import opened QueryStrings

  /** A GeoJSON feature as Photon returns it: its `properties` object and its
      `geometry.coordinates`, longitude first. */
  datatype Feature = Feature(properties: Dict<JsValue>, coordinates: seq<real>)

  datatype Coord = Coord(lat: JsValue, lon: JsValue)

  /** `{ name, sys, coord }`: `sys` is the feature's properties object itself. */
  datatype Place = Place(name: JsValue, sys: Dict<JsValue>, coord: Coord)

  /** `xs[i]`: `undefined` past the end of the array. */
  function At(xs: seq<real>, i: nat): (v: JsValue)
    ensures i < |xs| ==> v == Num(xs[i])
    ensures i >= |xs| ==> v == JsValue.Undefined
  {
    if i < |xs| then Num(xs[i]) else JsValue.Undefined
  }

  /** `properties[k]`: `undefined` when the feature has no such property. */
  function Property(properties: Dict<JsValue>, k: string): JsValue {
    match Lookup(properties, k)
    case Some(v) => v
    case None => JsValue.Undefined
  }

  /** One feature as a place: the feature's own properties as `sys`, its
      `name` property, and a point `[lon, lat]` read back as latitude second
      coordinate, longitude first. */
  function ToPlace(f: Feature): (p: Place)
    ensures p.sys == f.properties
    ensures Lookup(f.properties, "name").Some? ==> p.name == Lookup(f.properties, "name").value
    ensures Lookup(f.properties, "name").None? ==> p.name == JsValue.Undefined
    ensures |f.coordinates| >= 2 ==> p.coord == Coord(Num(f.coordinates[1]), Num(f.coordinates[0]))
    ensures |f.coordinates| < 2 ==> p.coord.lat == JsValue.Undefined
  {
    Place(Property(f.properties, "name"), f.properties, Coord(At(f.coordinates, 1), At(f.coordinates, 0)))
  }

  /** `results.features.map(...)`. */
  function PhotonPlaces(features: seq<Feature>): (places: seq<Place>)
    ensures |places| == |features|
  {
    if features == [] then [] else [ToPlace(features[0])] + PhotonPlaces(features[1..])
  }

  /** The map works feature by feature: the i-th place comes from the i-th
      feature, its latitude is the second coordinate and its longitude the
      first (GeoJSON order), and its name is the feature's `name` property. */
  lemma PlacesFollowFeatures(features: seq<Feature>)
    ensures forall i :: 0 <= i < |features| ==>
      && PhotonPlaces(features)[i].sys == features[i].properties
      && PhotonPlaces(features)[i].name == Property(features[i].properties, "name")
      && PhotonPlaces(features)[i].coord.lat == At(features[i].coordinates, 1)
      && PhotonPlaces(features)[i].coord.lon == At(features[i].coordinates, 0)
  {
    PlacesPointwise(features);
  }

  lemma {:induction false} PlacesPointwise(features: seq<Feature>)
    ensures forall i :: 0 <= i < |features| ==> PhotonPlaces(features)[i] == ToPlace(features[i])
    decreases |features|
  {
    if features != [] {
      PlacesPointwise(features[1..]);
      forall i | 1 <= i < |features|
        ensures PhotonPlaces(features)[i] == ToPlace(features[i])
      {
        assert PhotonPlaces(features)[i] == PhotonPlaces(features[1..])[i - 1];
        assert features[1..][i - 1] == features[i];
      }
    }
  }

  /** Mapping a concatenation is concatenating the mappings, so the places
      come in the order of the features. */
  lemma {:induction false} PlacesAppend(a: seq<Feature>, b: seq<Feature>)
    ensures PhotonPlaces(a + b) == PhotonPlaces(a) + PhotonPlaces(b)
    decreases |a|
  {
    if a == [] {
      assert a + b == b;
    } else {
      var ab := a + b;
      assert ab[0] == a[0] && ab[1..] == a[1..] + b;
      PlacesAppend(a[1..], b);
      calc {
        PhotonPlaces(ab);
        [ToPlace(a[0])] + PhotonPlaces(a[1..] + b);
        [ToPlace(a[0])] + (PhotonPlaces(a[1..]) + PhotonPlaces(b));
        ([ToPlace(a[0])] + PhotonPlaces(a[1..])) + PhotonPlaces(b);
      }
    }
  }

  /** A point feature's coordinates come back in GeoJSON order from the place. */
  lemma PointRoundTrip(f: Feature, lon: real, lat: real)
    requires f.coordinates == [lon, lat]
    ensures ToPlace(f).coord == Coord(Num(lat), Num(lon))
  {
  }

  /** The query parameters `{q, lat, lon, lang, limit: 40}`. */
  function PhotonParams(q: ParamValue, lat: ParamValue, lon: ParamValue, lang: ParamValue): (r: Dict<ParamValue>)
    ensures DistinctKeys(r)
  {
    [("q", q), ("lat", lat), ("lon", lon), ("lang", lang), ("limit", Primitive("40"))]
  }

  /** A search without a position sends only the text, the language and the
      limit. */
  lemma SearchWithoutPosition(q: string, lang: string)
    ensures Keys(DefinedEntries(PhotonParams(Primitive(q), ParamValue.Undefined, ParamValue.Undefined, Primitive(lang))))
      == ["q", "lang", "limit"]
  {
    var fields := PhotonParams(Primitive(q), ParamValue.Undefined, ParamValue.Undefined, Primitive(lang));
    var e := [("q", EncodedValue(Primitive(q)))];
    assert fields[..1][..0] == [];
    assert DefinedEntries(fields[..1]) == e;
    assert fields[..2][..1] == fields[..1];
    assert DefinedEntries(fields[..2]) == e;
    assert fields[..3][..2] == fields[..2];
    assert DefinedEntries(fields[..3]) == e;
    assert fields[..4][..3] == fields[..3];
    assert DefinedEntries(fields[..4]) == e + [("lang", EncodedValue(Primitive(lang)))];
    assert fields[..4] == fields[..|fields| - 1];
  }
}
