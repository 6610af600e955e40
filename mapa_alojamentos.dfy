/** The housing map: the housings with coordinates inside the valid
    latitude and longitude ranges, the centre of the map, and the points
    the map's bounds are fitted to. */
module MapaAlojamentos {
  import opened Optional
  import opened Seqs
  import opened Geo

  datatype Alojamento = Alojamento(id: int, nome: string, latitude: CoordField, longitude: CoordField)

  /** Both coordinates truthy, numbers, latitude in [-90, 90] and longitude
      in [-180, 180]. */
  function ValidCoords(a: Alojamento): (b: bool)
    ensures b ==> HasBothCoords(a)
    ensures b ==> -90.0 <= CoordOrZero(a.latitude) <= 90.0 && -180.0 <= CoordOrZero(a.longitude) <= 180.0
  {
    TruthyCoord(a.latitude) && TruthyCoord(a.longitude)
    && -90.0 <= a.latitude.x <= 90.0 && -180.0 <= a.longitude.x <= 180.0
  }

  /** The housings kept after loading, in the order fetched. */
  function AlojamentosComCoordenadas(list: seq<Alojamento>): (r: seq<Alojamento>)
    ensures |r| <= |list|
    ensures forall i :: 0 <= i < |r| ==> r[i] in list && ValidCoords(r[i])
    ensures forall i :: 0 <= i < |list| && ValidCoords(list[i]) ==> list[i] in r
  {
    Keep(list, ValidCoords)
  }

  /** Every kept housing lies in range, and the kept ones are a
      subsequence of the fetched ones. */
  lemma KeptInRange(list: seq<Alojamento>)
    ensures IsSubseq(AlojamentosComCoordenadas(list), list)
    ensures forall a :: a in AlojamentosComCoordenadas(list) ==>
              -90.0 <= a.latitude.x <= 90.0 && -180.0 <= a.longitude.x <= 180.0
  {
    KeepIsSubseq(list, ValidCoords);
  }

  /** A housing with a zero coordinate is dropped, whatever the other one. */
  lemma ZeroCoordinateDropped(a: Alojamento)
    requires a.latitude == Coord(0.0) || a.longitude == Coord(0.0)
    ensures AlojamentosComCoordenadas([a]) == []
  {
  }

  function LatsOrZero(list: seq<Alojamento>): (r: seq<real>)
    ensures |r| == |list| && forall i :: 0 <= i < |list| ==> r[i] == CoordOrZero(list[i].latitude)
  {
    seq(|list|, i requires 0 <= i < |list| => CoordOrZero(list[i].latitude))
  }

  function LngsOrZero(list: seq<Alojamento>): (r: seq<real>)
    ensures |r| == |list| && forall i :: 0 <= i < |list| ==> r[i] == CoordOrZero(list[i].longitude)
  {
    seq(|list|, i requires 0 <= i < |list| => CoordOrZero(list[i].longitude))
  }

  /** `getMapCenter`: Brasília for no housings, else the mean of
      `latitude || 0` and `longitude || 0`. The averages are never NaN
      here, so the NaN fallback is not reached. */
  function GetMapCenter(list: seq<Alojamento>): (c: LatLng)
    ensures list == [] ==> c == Brasilia
    ensures list != [] ==>
              MinOf(LatsOrZero(list)) <= c.lat <= MaxOf(LatsOrZero(list))
              && MinOf(LngsOrZero(list)) <= c.lng <= MaxOf(LngsOrZero(list))
  {
    if list == [] then Brasilia
    else
      MeanBetweenMinAndMax(LatsOrZero(list));
      MeanBetweenMinAndMax(LngsOrZero(list));
      LatLng(Mean(LatsOrZero(list)), Mean(LngsOrZero(list)))
  }

  /** On kept housings the centre is in range too. */
  lemma CenterOfKeptInRange(list: seq<Alojamento>)
    requires list != [] && forall i :: 0 <= i < |list| ==> ValidCoords(list[i])
    ensures -90.0 <= GetMapCenter(list).lat <= 90.0
    ensures -180.0 <= GetMapCenter(list).lng <= 180.0
  {
    var lats, lngs := LatsOrZero(list), LngsOrZero(list);
    assert MinOf(lats) in lats && MaxOf(lats) in lats;
    assert MinOf(lngs) in lngs && MaxOf(lngs) in lngs;
  }

  /** Both coordinates truthy and numbers. */
  predicate HasBothCoords(a: Alojamento) {
    TruthyCoord(a.latitude) && TruthyCoord(a.longitude)
  }

  function BoundPoints(list: seq<Alojamento>): (r: seq<LatLng>)
    ensures |r| <= |list|
    ensures r == [] <==> forall i :: 0 <= i < |list| ==> !HasBothCoords(list[i])
  {
    if list == [] then []
    else
      (if HasBothCoords(list[0]) then [LatLng(list[0].latitude.x, list[0].longitude.x)] else [])
      + BoundPoints(list[1..])
  }

  /** `getBounds`: the points the view is fitted to, or none when there are
      no housings or none has both coordinates. */
  function GetBounds(list: seq<Alojamento>): (r: Option<seq<LatLng>>)
    ensures r.None? <==> (list == [] || forall i :: 0 <= i < |list| ==> !HasBothCoords(list[i]))
    ensures r.Some? ==> r.value != [] && |r.value| <= |list|
  {
    if list == [] then None
    else
      var coords := BoundPoints(list);
      if coords == [] then None else Some(coords)
  }

  /** After loading, every kept housing contributes a bound point. */
  lemma BoundsOfKept(list: seq<Alojamento>)
    requires forall i :: 0 <= i < |list| ==> ValidCoords(list[i])
    ensures list != [] ==> GetBounds(list).Some? && |GetBounds(list).value| == |list|
  {
    BoundPointsAll(list);
  }

  lemma {:induction false} BoundPointsAll(list: seq<Alojamento>)
    requires forall i :: 0 <= i < |list| ==> HasBothCoords(list[i])
    ensures |BoundPoints(list)| == |list|
  {
    if list != [] {
      BoundPointsAll(list[1..]);
    }
  }
}
