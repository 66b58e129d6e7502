/** GeoJSON grave-plot features as the component reads them, and the selection of
    the features of one graveyard (`features.filter(f => f.properties['friedhof'] === name)`). */
module Features {
  import opened Wrappers
  import opened Seqs

  /** A feature's geometry; its `coordinates` are kept as an opaque list of numbers. */
  datatype Geometry = Geometry(coordinates: seq<int>)

  /** A non-null `verstorbene` property value; only its presence matters. */
  datatype Occupant = Occupant(raw: string)

  /** One feature of a collection:
      - `friedhof`: the graveyard name property;
      - `keys`: the property names, in `Object.keys` order;
      - `geometry`: `None` when the feature has no geometry;
      - `nutzungsfristende`: `None` when the property is `null` or absent, `Some(None)`
        when `Date.parse` of it gives `NaN`, `Some(Some(t))` when it parses to time `t`;
      - `verstorbene`: `None` when the property is `null` or absent. */
  datatype Feature = Feature(
    friedhof: string,
    keys: seq<string>,
    geometry: Option<Geometry>,
    nutzungsfristende: Option<Option<int>>,
    verstorbene: Option<Occupant>)

  /** `features.map(f => f.properties['friedhof'])` */
  function Names(fs: seq<Feature>): (r: seq<string>)
    ensures |r| == |fs|
    ensures forall i :: 0 <= i < |fs| ==> r[i] == fs[i].friedhof
  {
    seq(|fs|, i requires 0 <= i < |fs| => fs[i].friedhof)
  }

  lemma NamesSnoc(fs: seq<Feature>, f: Feature)
    ensures Names(fs + [f]) == Names(fs) + [f.friedhof]
  {
  }

  /** The features whose `friedhof` is exactly `name`, in their order. */
  function Matching(fs: seq<Feature>, name: string): (r: seq<Feature>)
    ensures forall i :: 0 <= i < |r| ==> r[i] in fs && r[i].friedhof == name
    ensures |r| == Count(Names(fs), name)
  {
    if fs == [] then []
    else
      var p, f := fs[..|fs| - 1], fs[|fs| - 1];
      assert fs == p + [f];
      NamesSnoc(p, f);
      CountSnoc(Names(p), f.friedhof, name);
      Matching(p, name) + (if f.friedhof == name then [f] else [])
  }

  /** The first feature `Matching` keeps is the first feature of the collection
      whose `friedhof` is `name`, and `Matching` keeps every feature named `name`. */
  lemma {:induction false} MatchingFirst(fs: seq<Feature>, name: string)
    requires name in Names(fs)
    ensures Matching(fs, name) != []
    ensures Matching(fs, name)[0] == fs[FirstIndex(Names(fs), name)]
  {
    var p, f := fs[..|fs| - 1], fs[|fs| - 1];
    assert fs == p + [f];
    NamesSnoc(p, f);
    var k := FirstIndex(Names(fs), name);
    CountZero(Names(fs), name);
    if name in Names(p) {
      MatchingFirst(p, name);
      var kp := FirstIndex(Names(p), name);
      assert Names(fs)[kp] == name;
      assert forall j :: 0 <= j < kp ==> Names(fs)[j] == Names(p)[j];
      assert k == kp;
    } else {
      CountZero(Names(p), name);
      assert forall j :: 0 <= j < |p| ==> Names(fs)[j] == Names(p)[j];
      assert k == |p|;
    }
  }

  /** `Matching` keeps every feature named `name` and no other. */
  lemma {:induction false} MatchingComplete(fs: seq<Feature>, name: string, f: Feature)
    requires f in fs && f.friedhof == name
    ensures f in Matching(fs, name)
  {
    var p, g := fs[..|fs| - 1], fs[|fs| - 1];
    assert fs == p + [g];
    if f != g {
      assert f in p;
      MatchingComplete(p, name, f);
    }
  }

  /** `.map(f => f.geometry['coordinates'])`: throws as soon as a geometry is null. */
  function CoordinatesOf(fs: seq<Feature>): (r: Result<seq<seq<int>>>)
    ensures r.Err? <==> exists i :: 0 <= i < |fs| && fs[i].geometry.None?
    ensures r.Ok? ==> |r.value| == |fs|
    ensures r.Ok? ==> forall i :: 0 <= i < |fs| ==> r.value[i] == fs[i].geometry.value.coordinates
  {
    if fs == [] then Ok([])
    else if fs[0].geometry.None? then Err(PropertyOfNullish)
    else
      match CoordinatesOf(fs[1..])
      case Err(e) =>
        assert exists i :: 0 <= i < |fs| && fs[i].geometry.None? by {
          var i :| 0 <= i < |fs[1..]| && fs[1..][i].geometry.None?;
          assert fs[i + 1] == fs[1..][i];
        }
        Err(e)
      case Ok(cs) => Ok([fs[0].geometry.value.coordinates] + cs)
  }
}
