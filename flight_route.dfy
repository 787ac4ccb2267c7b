/** `WaylineService.readFlightRoute`: every placemark contributes the point
    `(longitude, latitude, height)` under its waypoint index in a `TreeMap`,
    so a later placemark with the same index replaces an earlier one, and
    the route is the map's values in ascending index order. */
module FlightRoute {
  import opened Wrappers
  import opened KmzDocument
  import JavaStrings
  import opened SortedKeySets

  /** The body of the loop for one placemark: the `Coordinate` it puts in
      the map, or the exception that ends the read (a missing `Point` or
      `coordinates` node, too few comma fields, a field that does not parse). */
  function ReadPoint(p: Placemark, parseDouble: string -> Option<Double>): (r: Result<Coordinate, ReadException>)
    ensures r.Success? ==> r.value.z == p.height
  {
    match p.coordinates
    case None => Failure(NullPointer)
    case Some(text) =>
      var fields := JavaStrings.Split(text, ',');
      if |fields| < 1 then Failure(IndexOutOfBounds)
      else match parseDouble(fields[0])
        case None => Failure(NumberFormat(fields[0]))
        case Some(longitude) =>
          if |fields| < 2 then Failure(IndexOutOfBounds)
          else match parseDouble(fields[1])
            case None => Failure(NumberFormat(fields[1]))
            case Some(latitude) => Success(Coordinate(longitude, latitude, p.height))
  }

  /** The waypoint indices that occur among `ps`. */
  function Indices(ps: seq<Placemark>): set<int>
  {
    set p | p in ps :: p.index
  }

  lemma {:induction false} IndicesOfSnoc(ps: seq<Placemark>, p: Placemark)
    ensures Indices(ps + [p]) == Indices(ps) + {p.index}
  {
    assert forall q :: q in ps + [p] <==> q in ps || q == p;
  }

  /** The `TreeMap` after the loop has put the points of `ps`, in order; or
      the first exception, in document order. */
  function PointsMap(ps: seq<Placemark>, parseDouble: string -> Option<Double>)
    : (r: Result<map<int, Coordinate>, ReadException>)
    ensures r.Success? ==> r.value.Keys == Indices(ps)
  {
    if ps == [] then Success(map[])
    else
      var last := ps[|ps| - 1];
      match PointsMap(ps[..|ps| - 1], parseDouble)
      case Failure(e) => Failure(e)
      case Success(m) =>
        match ReadPoint(last, parseDouble)
        case Failure(e) => Failure(e)
        case Success(c) =>
          assert ps == ps[..|ps| - 1] + [last];
          IndicesOfSnoc(ps[..|ps| - 1], last);
          Success(m[last.index := c])
  }

  /** The position of the last placemark carrying waypoint index `k`. */
  function LastPosition(ps: seq<Placemark>, k: int): (j: nat)
    requires k in Indices(ps)
    ensures j < |ps| && ps[j].index == k
    ensures forall i :: j < i < |ps| ==> ps[i].index != k
  {
    var last := ps[|ps| - 1];
    if last.index == k then |ps| - 1
    else
      assert ps == ps[..|ps| - 1] + [last];
      IndicesOfSnoc(ps[..|ps| - 1], last);
      LastPosition(ps[..|ps| - 1], k)
  }

  /** `new ArrayList<>(pointsMap.values())`. */
  function ValuesInKeyOrder(m: map<int, Coordinate>): (vs: seq<Coordinate>)
    ensures |vs| == |m.Keys|
  {
    var ks := SortedKeys(m.Keys);
    seq(|ks|, i requires 0 <= i < |ks| => m[ks[i]])
  }

  /** The route `readFlightRoute` returns for `ps`, or its exception. */
  function Route(ps: seq<Placemark>, parseDouble: string -> Option<Double>): Result<seq<Coordinate>, ReadException>
  {
    match PointsMap(ps, parseDouble)
    case Failure(e) => Failure(e)
    case Success(m) => Success(ValuesInKeyOrder(m))
  }

  /** The waypoint index behind each point of the route. */
  function RouteIndices(ps: seq<Placemark>): (ks: seq<int>)
    ensures |ks| == |Indices(ps)|
    ensures forall i, j :: 0 <= i < j < |ks| ==> ks[i] < ks[j]
    ensures forall k :: k in Indices(ps) <==> k in ks
  {
    SortedKeys(Indices(ps))
  }

  /** Once a placemark fails, the whole read fails with the first failure. */
  lemma {:induction false} PointsMapFailsFrom(ps: seq<Placemark>, n: nat, parseDouble: string -> Option<Double>)
    requires n <= |ps|
    requires PointsMap(ps[..n], parseDouble).Failure?
    ensures PointsMap(ps, parseDouble) == PointsMap(ps[..n], parseDouble)
    decreases |ps| - n
  {
    if n < |ps| {
      assert ps[..n + 1][..n] == ps[..n];
      PointsMapFailsFrom(ps, n + 1, parseDouble);
    } else {
      assert ps[..n] == ps;
    }
  }

  /** The position of the first placemark that yields no point, or `|ps|`. */
  function FirstFailure(ps: seq<Placemark>, parseDouble: string -> Option<Double>): (i: nat)
    ensures i <= |ps|
    ensures forall j :: 0 <= j < i ==> ReadPoint(ps[j], parseDouble).Success?
    ensures i < |ps| ==> ReadPoint(ps[i], parseDouble).Failure?
  {
    if ps == [] then 0
    else if ReadPoint(ps[0], parseDouble).Failure? then 0
    else
      var i := FirstFailure(ps[1..], parseDouble);
      assert forall j :: 1 <= j < |ps| ==> ps[j] == ps[1..][j - 1];
      1 + i
  }

  /** The route is built exactly when every placemark yields a point; when
      it is not, the exception is that of the first placemark that fails. */
  lemma {:induction false} RouteOutcome(ps: seq<Placemark>, parseDouble: string -> Option<Double>)
    ensures FirstFailure(ps, parseDouble) == |ps| ==> Route(ps, parseDouble).Success?
    ensures FirstFailure(ps, parseDouble) < |ps| ==>
      Route(ps, parseDouble) == Failure(ReadPoint(ps[FirstFailure(ps, parseDouble)], parseDouble).error)
    decreases |ps|
  {
    if ps != [] {
      var init, last := ps[..|ps| - 1], ps[|ps| - 1];
      RouteOutcome(init, parseDouble);
      var a, b := FirstFailure(init, parseDouble), FirstFailure(ps, parseDouble);
      assert forall j :: 0 <= j < |init| ==> init[j] == ps[j];
      if a < |init| {
        assert ReadPoint(ps[a], parseDouble).Failure?;
        assert b == a;
      } else if ReadPoint(last, parseDouble).Failure? {
        assert b == |init|;
      } else {
        assert b == |ps|;
      }
    }
  }

  /** All or nothing: the route is built exactly when every placemark yields
      a point. */
  lemma {:induction false} RouteSucceedsIff(ps: seq<Placemark>, parseDouble: string -> Option<Double>)
    ensures Route(ps, parseDouble).Success? <==> forall i :: 0 <= i < |ps| ==> ReadPoint(ps[i], parseDouble).Success?
  {
    RouteOutcome(ps, parseDouble);
  }

  /** The point stored under index `k` is that of the last placemark with
      index `k`: a later placemark overwrites an earlier one. */
  lemma {:induction false} PointUnderIndex(ps: seq<Placemark>, k: int, parseDouble: string -> Option<Double>)
    requires PointsMap(ps, parseDouble).Success?
    requires k in Indices(ps)
    ensures ReadPoint(ps[LastPosition(ps, k)], parseDouble).Success?
    ensures PointsMap(ps, parseDouble).value[k] == ReadPoint(ps[LastPosition(ps, k)], parseDouble).value
    decreases |ps|
  {
    var init, last := ps[..|ps| - 1], ps[|ps| - 1];
    assert ps == init + [last];
    if last.index != k {
      IndicesOfSnoc(init, last);
      PointUnderIndex(init, k, parseDouble);
    }
  }

  /** The shape of a route that was built: one point per distinct index,
      in strictly ascending index order, each point the last one given for
      its index. */
  lemma {:induction false} RouteShape(ps: seq<Placemark>, parseDouble: string -> Option<Double>)
    requires Route(ps, parseDouble).Success?
    ensures |Route(ps, parseDouble).value| == |RouteIndices(ps)| == |Indices(ps)|
    ensures forall i :: 0 <= i < |RouteIndices(ps)| ==>
      var j := LastPosition(ps, RouteIndices(ps)[i]);
      ReadPoint(ps[j], parseDouble) == Success(Route(ps, parseDouble).value[i])
  {
    var m := PointsMap(ps, parseDouble).value;
    var ks := RouteIndices(ps);
    forall i | 0 <= i < |ks|
      ensures ReadPoint(ps[LastPosition(ps, ks[i])], parseDouble) == Success(Route(ps, parseDouble).value[i])
    {
      PointUnderIndex(ps, ks[i], parseDouble);
    }
  }

  /** No two different placemarks share a waypoint index. */
  ghost predicate DistinctIndices(ps: seq<Placemark>)
  {
    forall p, q :: p in ps && q in ps && p.index == q.index ==> p == q
  }

  lemma {:induction false} SameMembers(ps: seq<Placemark>, qs: seq<Placemark>)
    requires multiset(ps) == multiset(qs)
    ensures forall p :: p in ps <==> p in qs
  {
    forall p ensures p in ps <==> p in qs {
      assert p in ps <==> p in multiset(ps);
      assert p in qs <==> p in multiset(qs);
    }
  }

  /** With distinct indices, the order of the placemarks in the document
      does not matter: any rearrangement gives the same route. */
  lemma {:induction false} RouteIgnoresDocumentOrder(
    ps: seq<Placemark>, qs: seq<Placemark>, parseDouble: string -> Option<Double>)
    requires multiset(ps) == multiset(qs)
    requires DistinctIndices(ps)
    ensures Route(ps, parseDouble).Success? <==> Route(qs, parseDouble).Success?
    ensures Route(ps, parseDouble).Success? ==> Route(ps, parseDouble) == Route(qs, parseDouble)
  {
    SameMembers(ps, qs);
    RouteSucceedsIff(ps, parseDouble);
    RouteSucceedsIff(qs, parseDouble);
    if Route(ps, parseDouble).Success? {
      AllPointsReadTransfers(ps, qs, parseDouble);
      SameMaps(ps, qs, parseDouble);
    }
    if Route(qs, parseDouble).Success? {
      AllPointsReadTransfers(qs, ps, parseDouble);
    }
  }

  lemma {:induction false} AllPointsReadTransfers(
    ps: seq<Placemark>, qs: seq<Placemark>, parseDouble: string -> Option<Double>)
    requires forall p :: p in ps <==> p in qs
    requires forall i :: 0 <= i < |ps| ==> ReadPoint(ps[i], parseDouble).Success?
    ensures forall i :: 0 <= i < |qs| ==> ReadPoint(qs[i], parseDouble).Success?
  {
    forall i | 0 <= i < |qs| ensures ReadPoint(qs[i], parseDouble).Success? {
      assert qs[i] in ps;
      var j :| 0 <= j < |ps| && ps[j] == qs[i];
    }
  }

  lemma {:induction false} SameMaps(ps: seq<Placemark>, qs: seq<Placemark>, parseDouble: string -> Option<Double>)
    requires forall p :: p in ps <==> p in qs
    requires DistinctIndices(ps)
    requires PointsMap(ps, parseDouble).Success? && PointsMap(qs, parseDouble).Success?
    ensures PointsMap(ps, parseDouble) == PointsMap(qs, parseDouble)
  {
    var mp := PointsMap(ps, parseDouble).value;
    var mq := PointsMap(qs, parseDouble).value;
    SameIndices(ps, qs);
    forall k | k in mp.Keys ensures mp[k] == mq[k] {
      SamePointUnderIndex(ps, qs, parseDouble, k);
    }
    assert mp == mq;
  }

  lemma {:induction false} SameIndices(ps: seq<Placemark>, qs: seq<Placemark>)
    requires forall p :: p in ps <==> p in qs
    ensures Indices(ps) == Indices(qs)
  {
  }

  lemma {:induction false} SamePointUnderIndex(
    ps: seq<Placemark>, qs: seq<Placemark>, parseDouble: string -> Option<Double>, k: int)
    requires forall p :: p in ps <==> p in qs
    requires DistinctIndices(ps)
    requires PointsMap(ps, parseDouble).Success? && PointsMap(qs, parseDouble).Success?
    requires k in Indices(ps) && k in Indices(qs)
    ensures PointsMap(ps, parseDouble).value[k] == PointsMap(qs, parseDouble).value[k]
  {
    PointUnderIndex(ps, k, parseDouble);
    PointUnderIndex(qs, k, parseDouble);
    var a, b := LastPosition(ps, k), LastPosition(qs, k);
    assert ps[a] in ps && qs[b] in ps;
  }

  /** A coordinates text `lon,lat[,...]` gives the point of its first two
      comma fields and the placemark's own height. */
  lemma {:induction false} ReadPointFields(
    p: Placemark, lon: string, lat: string, rest: seq<string>, parseDouble: string -> Option<Double>)
    requires ',' !in lon && ',' !in lat && lat != ""
    requires forall i :: 0 <= i < |rest| ==> ',' !in rest[i]
    requires p.coordinates == Some(JavaStrings.Join([lon, lat] + rest, ','))
    requires parseDouble(lon).Some? && parseDouble(lat).Some?
    ensures ReadPoint(p, parseDouble) == Success(Coordinate(parseDouble(lon).value, parseDouble(lat).value, p.height))
  {
    JavaStrings.SplitLeadingFields(lon, lat, rest, ',');
  }

  /** `readFlightRoute(placemarkNodes)`: the loop over the placemarks filling
      the `TreeMap`, then its values in key order. */
  method ReadFlightRoute(placemarkNodes: seq<Placemark>, parseDouble: string -> Option<Double>)
    returns (r: Result<seq<Coordinate>, ReadException>)
    ensures r == Route(placemarkNodes, parseDouble)
  {
    var pointsMap: map<int, Coordinate> := map[];
    for i := 0 to |placemarkNodes|
      invariant PointsMap(placemarkNodes[..i], parseDouble) == Success(pointsMap)
    {
      var node := placemarkNodes[i];
      assert placemarkNodes[..i + 1][..i] == placemarkNodes[..i];
      var point := ReadPoint(node, parseDouble);
      if point.Failure? {
        PointsMapFailsFrom(placemarkNodes, i + 1, parseDouble);
        return Failure(point.error);
      }
      pointsMap := pointsMap[node.index := point.value];
    }
    assert placemarkNodes[..|placemarkNodes|] == placemarkNodes;
    return Success(ValuesInKeyOrder(pointsMap));
  }
}
