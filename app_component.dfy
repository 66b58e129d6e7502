/** The root component: the loaded feature collection, the map view, the four
    statistics, and the callbacks and view change that update them. */
module App {
  import opened Wrappers
  import opened Seqs
  import opened Features
  import opened Statistics

  datatype Point = Point(x: real, y: real)

  /** A map view: where it is centred and how far it is zoomed. */
  datatype View = View(center: Point, zoom: int)

  const GrabZoom: int := 19
  const InitialView: View := View(Point(0.0, 0.0), 1)

  class AppComponent {
    const title: string
    /** `undefined` until the collection of available graves arrives. */
    var data: Option<seq<Feature>>
    /** The view of the map; `None` for the default view, with no centre or zoom, that
        the library gives the map the constructor builds without a `view` option. */
    var view: Option<View>
    var numberOfGraveyards: Option<nat>
    var numberOfGravesInBuschhoven: Option<nat>
    var gravePlotFields: Option<seq<string>>
    var graveyardWithMostUnassigned: Option<(string, nat)>

    constructor ()
      ensures title == "Graveyard Viewer"
      ensures data == None && view == None
      ensures numberOfGraveyards == None && numberOfGravesInBuschhoven == None
      ensures gravePlotFields == None && graveyardWithMostUnassigned == None
    {
      title := "Graveyard Viewer";
      data := None;
      view := None;
      numberOfGraveyards := None;
      numberOfGravesInBuschhoven := None;
      gravePlotFields := None;
      graveyardWithMostUnassigned := None;
    }

    /** The `friedhofs` getter: the graveyard names of the loaded features, each once,
        in the order first seen; empty while nothing is loaded. */
    function Friedhofs(): (r: seq<string>)
      reads this
      ensures data.None? ==> r == []
      ensures data.Some? ==> NoDuplicates(r)
      ensures data.Some? ==> forall name :: name in r <==> name in Names(data.value)
      ensures data.Some? ==> forall i, j :: 0 <= i < j < |r| ==>
                FirstIndex(Names(data.value), r[i]) < FirstIndex(Names(data.value), r[j])
    {
      match data
      case None => []
      case Some(fs) =>
        DistinctFirstOccurrenceOrder(Names(fs));
        Distinct(Names(fs))
    }

    /** `friedhofCoordinates(friedhof)`: `[]` while nothing is loaded; otherwise the
        coordinates of the first feature named `friedhof`, or `undefined` (`None`) when
        there is none. Mapping the matches to their coordinates throws when any of
        them has a null geometry. */
    function FriedhofCoordinates(friedhof: string): (r: Result<Option<seq<int>>>)
      reads this
      ensures data.None? ==> r == Ok(Some([]))
      ensures data.Some? ==>
                (r.Err? <==> exists i :: 0 <= i < |data.value| &&
                               data.value[i].friedhof == friedhof && data.value[i].geometry.None?)
      ensures data.Some? ==> (r == Ok(None) <==> friedhof !in Names(data.value))
      ensures data.Some? && r.Ok? && friedhof in Names(data.value) ==>
                var first := data.value[FirstIndex(Names(data.value), friedhof)];
                first.geometry.Some? && r == Ok(Some(first.geometry.value.coordinates))
    {
      match data
      case None => Ok(Some([]))
      case Some(fs) =>
        var ms := Matching(fs, friedhof);
        assert (exists i :: 0 <= i < |fs| && fs[i].friedhof == friedhof && fs[i].geometry.None?) <==>
               (exists i :: 0 <= i < |ms| && ms[i].geometry.None?) by {
          if i :| 0 <= i < |fs| && fs[i].friedhof == friedhof && fs[i].geometry.None? {
            MatchingComplete(fs, friedhof, fs[i]);
          }
          if i :| 0 <= i < |ms| && ms[i].geometry.None? {
            var k :| 0 <= k < |fs| && fs[k] == ms[i];
          }
        }
        assert friedhof in Names(fs) ==> ms != [] && ms[0] == fs[FirstIndex(Names(fs), friedhof)] by {
          if friedhof in Names(fs) {
            MatchingFirst(fs, friedhof);
          }
        }
        match CoordinatesOf(ms)
        case Err(e) => Err(e)
        case Ok(cs) => if cs == [] then Ok(None) else Ok(Some(cs[0]))
    }

    /** The graveyard `changeGrab` looks for: the event target's value when there is
        a target, else `friedhofs[0]`, which is the name of the first loaded feature
        and `undefined` (`None`) when no feature is loaded. */
    function SelectedFriedhof(eventValue: Option<string>): (r: Option<string>)
      reads this
      ensures eventValue.Some? ==> r == eventValue
      ensures eventValue.None? && data.Some? && data.value != [] ==> r == Some(data.value[0].friedhof)
      ensures eventValue.None? && (data.None? || data.value == []) ==> r == None
    {
      if eventValue.Some? then eventValue
      else if |Friedhofs()| > 0 then
        DistinctHead(Names(data.value));
        Some(Friedhofs()[0])
      else None
    }

    /** `changeGrab(eventTarget)`, with the target's value as `eventValue`. With a
        collection loaded, the first feature named after the selection is looked up;
        when there is none, reading its geometry throws. When it has a geometry the
        view becomes zoom 19 centred on `center` of that geometry, which stands for
        `getCenter(geometry.getExtent())`. */
    method ChangeGrab(eventValue: Option<string>, center: Geometry -> Point) returns (outcome: Outcome)
      modifies this
      ensures data == old(data)
      ensures numberOfGraveyards == old(numberOfGraveyards)
      ensures numberOfGravesInBuschhoven == old(numberOfGravesInBuschhoven)
      ensures gravePlotFields == old(gravePlotFields)
      ensures graveyardWithMostUnassigned == old(graveyardWithMostUnassigned)
      ensures data.None? ==> outcome == Pass && view == old(view)
      ensures data.Some? ==>
                var selected := old(SelectedFriedhof(eventValue));
                if selected.None? || selected.value !in Names(data.value) then
                  outcome == Fail(PropertyOfNullish) && view == old(view)
                else
                  var geometry := data.value[FirstIndex(Names(data.value), selected.value)].geometry;
                  outcome == Pass &&
                  view == if geometry.None? then old(view) else Some(View(center(geometry.value), GrabZoom))
    {
      var selected := SelectedFriedhof(eventValue);
      outcome := Pass;
      if data.Some? {
        var fs := data.value;
        if selected.None? {
          outcome := Fail(PropertyOfNullish);
          return;
        }
        var friedhofFeatures := Matching(fs, selected.value);
        CountZero(Names(fs), selected.value);
        if friedhofFeatures == [] {
          outcome := Fail(PropertyOfNullish);
          return;
        }
        MatchingFirst(fs, selected.value);
        var geometry := friedhofFeatures[0].geometry;
        if geometry.Some? {
          view := Some(View(center(geometry.value), GrabZoom));
        }
      }
    }

    /** Callback of the `AllGraveyards()` request. */
    method OnAllGraveyards<G>(graveyards: seq<G>)
      modifies this
      ensures numberOfGraveyards == Some(|graveyards|)
      ensures data == old(data) && view == old(view)
      ensures numberOfGravesInBuschhoven == old(numberOfGravesInBuschhoven)
      ensures gravePlotFields == old(gravePlotFields)
      ensures graveyardWithMostUnassigned == old(graveyardWithMostUnassigned)
    {
      numberOfGraveyards := Some(|graveyards|);
    }

    /** Callback of the `AllAvailableGraveyards(null)` request that counts the graves in
        "Buschhoven". */
    method OnGravesForBuschhoven(fs: seq<Feature>)
      modifies this
      ensures numberOfGravesInBuschhoven == Some(Count(Names(fs), Buschhoven))
      ensures data == old(data) && view == old(view)
      ensures numberOfGraveyards == old(numberOfGraveyards)
      ensures gravePlotFields == old(gravePlotFields)
      ensures graveyardWithMostUnassigned == old(graveyardWithMostUnassigned)
    {
      numberOfGravesInBuschhoven := Some(GravesIn(fs, Buschhoven));
    }

    /** Callback of the `AllunassignedGravePlots()` request that collects the union of the
        property names. The `reduce` throws on an empty collection and nothing is assigned. */
    method OnFieldsOfGravePlots(fs: seq<Feature>) returns (outcome: Outcome)
      modifies this
      ensures fs == [] ==> outcome == Fail(ReduceOfEmptyArray) && gravePlotFields == old(gravePlotFields)
      ensures fs != [] ==> outcome == Pass && gravePlotFields == Some(Distinct(AllKeys(fs)))
      ensures data == old(data) && view == old(view)
      ensures numberOfGraveyards == old(numberOfGraveyards)
      ensures numberOfGravesInBuschhoven == old(numberOfGravesInBuschhoven)
      ensures graveyardWithMostUnassigned == old(graveyardWithMostUnassigned)
    {
      var fields := KeyUnion(fs);
      match fields
      case Err(e) =>
        outcome := Fail(e);
      case Ok(names) =>
        gravePlotFields := Some(names);
        outcome := Pass;
    }

    /** Callback of the separate `AllunassignedGravePlots()` request that groups the plots by graveyard
        and keeps the earliest graveyard with the most plots. The `reduce` throws on
        an empty collection and nothing is assigned. */
    method OnMostUnassigned(fs: seq<Feature>) returns (outcome: Outcome)
      modifies this
      ensures fs == [] ==> outcome == Fail(ReduceOfEmptyArray)
      ensures fs == [] ==> graveyardWithMostUnassigned == old(graveyardWithMostUnassigned)
      ensures fs != [] ==> outcome == Pass
      ensures fs != [] ==> graveyardWithMostUnassigned.Some?
      ensures fs != [] ==> IsEarliestMax(Tally(Names(fs)), graveyardWithMostUnassigned.value)
      ensures data == old(data) && view == old(view)
      ensures numberOfGraveyards == old(numberOfGraveyards)
      ensures numberOfGravesInBuschhoven == old(numberOfGravesInBuschhoven)
      ensures gravePlotFields == old(gravePlotFields)
    {
      var entries := GroupByFriedhof(fs);
      TallyEntries(Names(fs));
      if fs != [] {
        assert Names(fs)[0] in Names(fs);
      }
      var most := MostUnassigned(entries);
      match most
      case Err(e) =>
        outcome := Fail(e);
      case Ok(entry) =>
        graveyardWithMostUnassigned := Some(entry);
        outcome := Pass;
    }

    /** Callback of the separate `AllAvailableGraveyards(null)` request that keeps the collection, replaces
        the map by one with the initial world view, and centres it on the first
        graveyard with `changeGrab(null)`. */
    method OnAvailableGraveyards(fs: seq<Feature>, center: Geometry -> Point) returns (outcome: Outcome)
      modifies this
      ensures data == Some(fs)
      ensures fs == [] ==> outcome == Fail(PropertyOfNullish) && view == Some(InitialView)
      ensures fs != [] ==> outcome == Pass
      ensures fs != [] && fs[0].geometry.None? ==> view == Some(InitialView)
      ensures fs != [] && fs[0].geometry.Some? ==> view == Some(View(center(fs[0].geometry.value), GrabZoom))
      ensures numberOfGraveyards == old(numberOfGraveyards)
      ensures numberOfGravesInBuschhoven == old(numberOfGravesInBuschhoven)
      ensures gravePlotFields == old(gravePlotFields)
      ensures graveyardWithMostUnassigned == old(graveyardWithMostUnassigned)
    {
      data := Some(fs);
      view := Some(InitialView);
      if fs != [] {
        assert Names(fs)[0] == fs[0].friedhof;
      }
      outcome := ChangeGrab(None, center);
    }
  }
}
