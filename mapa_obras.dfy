/** The work-site map: the sites with usable coordinates, the centre of the
    map and a zoom level chosen from how far apart the sites are. */
module MapaObras {
  import opened Seqs
  import opened Geo

  datatype Obra = Obra(id: int, nome: string, latitude: CoordField, longitude: CoordField)

  /** Latitude and longitude are both present, non-zero and numbers: a
      site is kept exactly when neither coordinate reads as 0. */
  function HasCoords(o: Obra): (b: bool)
    ensures b <==> CoordOrZero(o.latitude) != 0.0 && CoordOrZero(o.longitude) != 0.0
  {
    TruthyCoord(o.latitude) && TruthyCoord(o.longitude)
  }

  /** The sites kept for the map, in the order fetched. */
  function ObrasComCoordenadas(obras: seq<Obra>): (r: seq<Obra>)
    ensures |r| <= |obras|
    ensures forall i :: 0 <= i < |r| ==> r[i] in obras && HasCoords(r[i])
    ensures forall i :: 0 <= i < |obras| && HasCoords(obras[i]) ==> obras[i] in r
  {
    Keep(obras, HasCoords)
  }

  lemma ObrasComCoordenadasIsSubseq(obras: seq<Obra>)
    ensures IsSubseq(ObrasComCoordenadas(obras), obras)
  {
    KeepIsSubseq(obras, HasCoords);
  }

  /** A site exactly on the equator or on the prime meridian is dropped:
      a zero coordinate is falsy. */
  lemma ZeroCoordinateDropped(o: Obra)
    requires o.latitude == Coord(0.0) || o.longitude == Coord(0.0)
    ensures ObrasComCoordenadas([o]) == []
  {
  }

  function Position(o: Obra): LatLng
    requires HasCoords(o)
  {
    LatLng(o.latitude.x, o.longitude.x)
  }

  function Positions(obras: seq<Obra>): (r: seq<LatLng>)
    requires forall i :: 0 <= i < |obras| ==> HasCoords(obras[i])
    ensures |r| == |obras|
    ensures forall i :: 0 <= i < |obras| ==> r[i] == Position(obras[i])
  {
    seq(|obras|, i requires 0 <= i < |obras| && HasCoords(obras[i]) => Position(obras[i]))
  }

  /** `calculateMapCenter` over the kept sites: Brasília when there are
      none, else the mean position. */
  function CalculateMapCenter(obras: seq<Obra>): (c: LatLng)
    requires forall i :: 0 <= i < |obras| ==> HasCoords(obras[i])
    ensures obras == [] ==> c == Brasilia
    ensures obras != [] ==>
              MinOf(Lats(Positions(obras))) <= c.lat <= MaxOf(Lats(Positions(obras)))
              && MinOf(Lngs(Positions(obras))) <= c.lng <= MaxOf(Lngs(Positions(obras)))
  {
    Center(Positions(obras))
  }

  /** The larger of the latitude span and the longitude span. */
  function MaxRange(ps: seq<LatLng>): (r: real)
    requires ps != []
    ensures r >= 0.0
    ensures r >= MaxOf(Lats(ps)) - MinOf(Lats(ps)) && r >= MaxOf(Lngs(ps)) - MinOf(Lngs(ps))
    ensures r == MaxOf(Lats(ps)) - MinOf(Lats(ps)) || r == MaxOf(Lngs(ps)) - MinOf(Lngs(ps))
  {
    var latRange := MaxOf(Lats(ps)) - MinOf(Lats(ps));
    var lngRange := MaxOf(Lngs(ps)) - MinOf(Lngs(ps));
    assert MinOf(Lats(ps)) <= Lats(ps)[0] <= MaxOf(Lats(ps));
    assert MinOf(Lngs(ps)) <= Lngs(ps)[0] <= MaxOf(Lngs(ps));
    if latRange < lngRange then lngRange else latRange
  }

  /** The zoom step function: the wider the spread, the farther out. */
  function ZoomForRange(maxRange: real): (z: int)
    ensures 6 <= z <= 11
  {
    if maxRange > 10.0 then 6
    else if maxRange > 5.0 then 7
    else if maxRange > 2.0 then 8
    else if maxRange > 1.0 then 9
    else if maxRange > 0.5 then 10
    else 11
  }

  /** A wider spread never zooms in closer. */
  lemma ZoomForRangeMonotone(a: real, b: real)
    requires a <= b
    ensures ZoomForRange(b) <= ZoomForRange(a)
  {
  }

  /** `calculateZoom` over the kept sites. */
  function CalculateZoom(obras: seq<Obra>): (z: int)
    requires forall i :: 0 <= i < |obras| ==> HasCoords(obras[i])
    ensures 6 <= z <= 11
    ensures |obras| <= 1 ==> z == 10
    ensures |obras| > 1 ==> z == ZoomForRange(MaxRange(Positions(obras)))
  {
    if |obras| <= 1 then 10 else ZoomForRange(MaxRange(Positions(obras)))
  }

  /** Several sites at one place get the closest zoom. */
  lemma ZoomForOnePlace(obras: seq<Obra>, p: LatLng)
    requires |obras| > 1
    requires forall i :: 0 <= i < |obras| ==> HasCoords(obras[i]) && Position(obras[i]) == p
    ensures CalculateZoom(obras) == 11
  {
    var ps := Positions(obras);
    assert MinOf(Lats(ps)) == p.lat == MaxOf(Lats(ps)) by {
      assert MinOf(Lats(ps)) in Lats(ps) && MaxOf(Lats(ps)) in Lats(ps);
    }
    assert MinOf(Lngs(ps)) == p.lng == MaxOf(Lngs(ps)) by {
      assert MinOf(Lngs(ps)) in Lngs(ps) && MaxOf(Lngs(ps)) in Lngs(ps);
    }
  }
}
