/** The transport route map. A route arrives either as several legs, each
    with its own encoded polyline and stops, or as one polyline with stops to
    spread along it, or only as points given by hand. The map turns it into
    the markers it shows, the decoded points it fits its view to, and a
    distance and time report; a cache key decides whether a route has been
    processed already. Polyline decoding is a library call and is a
    parameter here: `None` stands for a decoder that throws. */
module MapaRotaReal {
  import opened Optional
  import opened Text
  import opened Seqs
  import opened Geo

  datatype PointKind = Origem | Destino | Waypoint | Pickup | Delivery

  /** The kinds a stop can have. */
  datatype StopKind = PickupStop | DeliveryStop

  function KindOf(k: StopKind): (r: PointKind)
    ensures r == Pickup || r == Delivery
  {
    match k
    case PickupStop => Pickup
    case DeliveryStop => Delivery
  }

  /** A marker: position, optional name, kind, optional details and time. */
  datatype Ponto = Ponto(pos: LatLng, nome: Option<string>, tipo: PointKind,
                         detalhes: Option<string>, horario: Option<string>)

  datatype Parada = Parada(nome: string, tipo: StopKind, detalhes: string, horario: string, pos: LatLng)

  /** One leg of a multi-leg route; distances in metres, times in seconds. */
  datatype Trecho = Trecho(polyline: string, distancia: int, tempo: int, paradas: seq<Parada>,
                           tipoTrecho: string, pontoOrigem: Option<Ponto>, pontoDestino: Option<Ponto>)

  /** The route prop; an absent polyline or leg type is the empty string. */
  datatype RotaPolyline = RotaPolyline(polyline: string, paradas: seq<Parada>, tipoTrecho: string,
                                       distancia: int, tempo: int, trechos: Option<seq<Trecho>>)

  /** The component's props: the optional route and the manual points. */
  datatype MapInput = MapInput(rota: Option<RotaPolyline>, pontos: seq<Ponto>)

  type Decoder = string -> Option<seq<LatLng>>

  // ---------------------------------------------------------------- colour

  const IdaColor := "#16a34a"
  const VoltaColor := "#dc2626"

  /** A leg is drawn green when its lower-cased type mentions "ida", red
      otherwise. */
  function LegColor(tipoTrecho: string): (c: string)
    ensures c == IdaColor || c == VoltaColor
    ensures "ida" <= ToLower(tipoTrecho) ==> c == IdaColor
    ensures |tipoTrecho| < 3 ==> c == VoltaColor
  {
    assert "ida" <= ToLower(tipoTrecho) ==> OccursAt(ToLower(tipoTrecho), "ida", 0);
    if Contains(ToLower(tipoTrecho), "ida") then IdaColor else VoltaColor
  }

  /** The colour test inside the `forEach`. */
  method ColorFor(tipoTrecho: string) returns (c: string)
    ensures c == LegColor(tipoTrecho)
    ensures c == IdaColor || c == VoltaColor
  {
    if Contains(ToLower(tipoTrecho), "ida") {
      c := IdaColor;
    } else {
      c := VoltaColor;
    }
  }

  /** The colour does not depend on letter case. */
  lemma LegColorIgnoresCase(tipoTrecho: string)
    ensures LegColor(ToLower(tipoTrecho)) == LegColor(tipoTrecho)
  {
    ToLowerIdempotent(tipoTrecho);
  }

  /** The two leg types the service sends: "IDA" is green, "VOLTA" red. */
  lemma LegColorOfServiceTypes()
    ensures LegColor("IDA") == IdaColor
    ensures LegColor("VOLTA") == VoltaColor
  {
    assert ToLower("IDA") == "ida";
    assert OccursAt("ida", "ida", 0);
    var v := ToLower("VOLTA");
    assert v == "volta";
    forall i | 0 <= i <= |v| - 3
      ensures !OccursAt(v, "ida", i)
    {
      assert v[i] != 'i';
    }
  }

  // ------------------------------------------------------ multi-leg merge

  /** The leg has a polyline and the decoder accepts it: it draws a segment. */
  predicate Decodes(decode: Decoder, t: Trecho) {
    t.polyline != "" && decode(t.polyline).Some?
  }

  /** The leg decodes to at least one point: its markers and totals count. */
  predicate Contributes(decode: Decoder, t: Trecho) {
    Decodes(decode, t) && decode(t.polyline).value != []
  }

  datatype Segment = Segment(points: seq<LatLng>, color: string)

  function OriginMarker(p: Ponto): Ponto {
    Ponto(p.pos, p.nome, Origem, p.detalhes, None)
  }

  function DestinationMarker(p: Ponto): Ponto {
    Ponto(p.pos, p.nome, Destino, p.detalhes, None)
  }

  /** A leg's stop as a marker: the leg type appended to its details. */
  function LegStop(s: Parada, tipoTrecho: string): Ponto {
    Ponto(s.pos, Some(s.nome), KindOf(s.tipo), Some(s.detalhes + " - " + tipoTrecho), Some(s.horario))
  }

  function LegStops(ps: seq<Parada>, tipoTrecho: string): (r: seq<Ponto>)
    ensures |r| == |ps|
  {
    if ps == [] then [] else LegStops(ps[..|ps| - 1], tipoTrecho) + [LegStop(ps[|ps| - 1], tipoTrecho)]
  }

  /** The `j`-th stop marker is the `j`-th stop. */
  lemma {:induction false} LegStopsAt(ps: seq<Parada>, tipoTrecho: string, j: nat)
    requires j < |ps|
    ensures LegStops(ps, tipoTrecho)[j] == LegStop(ps[j], tipoTrecho)
  {
    var init := ps[..|ps| - 1];
    if j < |init| {
      LegStopsAt(init, tipoTrecho, j);
    }
  }

  /** The origin marker leg `i` adds when it is the first leg. */
  function LegHead(ts: seq<Trecho>, i: nat): seq<Ponto>
    requires i < |ts|
  {
    if i == 0 && ts[i].pontoOrigem.Some? then [OriginMarker(ts[i].pontoOrigem.value)] else []
  }

  /** The destination marker leg `i` adds when it is the last leg. */
  function LegTail(ts: seq<Trecho>, i: nat): seq<Ponto>
    requires i < |ts|
  {
    if i == |ts| - 1 && ts[i].pontoDestino.Some? then [DestinationMarker(ts[i].pontoDestino.value)] else []
  }

  /** The markers leg `i` adds: the origin if it is the first leg, its stops,
      the destination if it is the last leg; nothing unless it contributes. */
  function LegPoints(decode: Decoder, ts: seq<Trecho>, i: nat): seq<Ponto>
    requires i < |ts|
  {
    if Contributes(decode, ts[i]) then LegHead(ts, i) + LegStops(ts[i].paradas, ts[i].tipoTrecho) + LegTail(ts, i)
    else []
  }

  /** The markers each leg adds, leg by leg. */
  function Legs(decode: Decoder, ts: seq<Trecho>): (r: seq<seq<Ponto>>)
    ensures |r| == |ts| && forall i :: 0 <= i < |ts| ==> r[i] == LegPoints(decode, ts, i)
  {
    seq(|ts|, i requires 0 <= i < |ts| => LegPoints(decode, ts, i))
  }

  /** The markers of the first `n` legs. */
  function MergedPoints(decode: Decoder, ts: seq<Trecho>, n: nat): seq<Ponto>
    requires n <= |ts|
  {
    Concat(Legs(decode, ts), n)
  }

  function LegSegments(decode: Decoder, t: Trecho): seq<Segment> {
    if Decodes(decode, t) then [Segment(decode(t.polyline).value, LegColor(t.tipoTrecho))] else []
  }

  /** The coloured segments of the first `n` legs. */
  function MergedSegments(decode: Decoder, ts: seq<Trecho>, n: nat): seq<Segment>
    requires n <= |ts|
  {
    if n == 0 then [] else MergedSegments(decode, ts, n - 1) + LegSegments(decode, ts[n - 1])
  }

  /** The distance of the contributing legs among the first `n`. */
  function MergedDistance(decode: Decoder, ts: seq<Trecho>, n: nat): int
    requires n <= |ts|
  {
    if n == 0 then 0
    else MergedDistance(decode, ts, n - 1) + (if Contributes(decode, ts[n - 1]) then ts[n - 1].distancia else 0)
  }

  /** The time of the contributing legs among the first `n`. */
  function MergedTime(decode: Decoder, ts: seq<Trecho>, n: nat): int
    requires n <= |ts|
  {
    if n == 0 then 0
    else MergedTime(decode, ts, n - 1) + (if Contributes(decode, ts[n - 1]) then ts[n - 1].tempo else 0)
  }

  /** `flatMap(t => t.points)`. */
  function Flatten(segs: seq<Segment>): seq<LatLng> {
    if segs == [] then [] else Flatten(segs[..|segs| - 1]) + segs[|segs| - 1].points
  }

  /** The markers one contributing leg adds inside the `forEach`. */
  method LegMarkers(decode: Decoder, ts: seq<Trecho>, i: nat) returns (leg: seq<Ponto>)
    requires i < |ts| && Contributes(decode, ts[i])
    ensures leg == LegPoints(decode, ts, i)
  {
    var t := ts[i];
    leg := [];
    if i == 0 && t.pontoOrigem.Some? {
      leg := [OriginMarker(t.pontoOrigem.value)];
    }
    var j := 0;
    while j < |t.paradas|
      invariant 0 <= j <= |t.paradas|
      invariant leg == LegHead(ts, i) + LegStops(t.paradas[..j], t.tipoTrecho)
    {
      assert t.paradas[..j + 1][..j] == t.paradas[..j];
      leg := leg + [LegStop(t.paradas[j], t.tipoTrecho)];
      j := j + 1;
    }
    assert t.paradas[..j] == t.paradas;
    if i == |ts| - 1 && t.pontoDestino.Some? {
      leg := leg + [DestinationMarker(t.pontoDestino.value)];
    }
  }

  /** Merging one more leg appends the markers that leg adds. */
  lemma MergedPointsStep(decode: Decoder, ts: seq<Trecho>, i: nat)
    requires i < |ts|
    ensures MergedPoints(decode, ts, i + 1) == MergedPoints(decode, ts, i) + LegPoints(decode, ts, i)
  {
    assert Legs(decode, ts)[i] == LegPoints(decode, ts, i);
  }

  /** Merging one more leg appends what that leg adds. */
  lemma MergedStep(decode: Decoder, ts: seq<Trecho>, i: nat)
    requires i < |ts|
    ensures MergedSegments(decode, ts, i + 1) == MergedSegments(decode, ts, i) + LegSegments(decode, ts[i])
    ensures Contributes(decode, ts[i]) ==>
              MergedDistance(decode, ts, i + 1) == MergedDistance(decode, ts, i) + ts[i].distancia
              && MergedTime(decode, ts, i + 1) == MergedTime(decode, ts, i) + ts[i].tempo
    ensures !Contributes(decode, ts[i]) ==>
              MergedDistance(decode, ts, i + 1) == MergedDistance(decode, ts, i)
              && MergedTime(decode, ts, i + 1) == MergedTime(decode, ts, i)
  {
  }

  /** The `forEach` callback for leg `i`: given what the earlier legs
      merged, adds this leg's segment, markers and totals. */
  method MergeLeg(decode: Decoder, ts: seq<Trecho>, i: nat, pontos0: seq<Ponto>, segments0: seq<Segment>,
                  distancia0: int, tempo0: int)
    returns (pontos: seq<Ponto>, segments: seq<Segment>, distancia: int, tempo: int)
    requires i < |ts|
    requires pontos0 == MergedPoints(decode, ts, i) && segments0 == MergedSegments(decode, ts, i)
    requires distancia0 == MergedDistance(decode, ts, i) && tempo0 == MergedTime(decode, ts, i)
    ensures pontos == MergedPoints(decode, ts, i + 1) && segments == MergedSegments(decode, ts, i + 1)
    ensures distancia == MergedDistance(decode, ts, i + 1) && tempo == MergedTime(decode, ts, i + 1)
  {
    MergedStep(decode, ts, i);
    MergedPointsStep(decode, ts, i);
    pontos, segments, distancia, tempo := pontos0, segments0, distancia0, tempo0;
    var t := ts[i];
    if t.polyline != "" {
      var decoded := decode(t.polyline);
      if decoded.Some? {
        var color := ColorFor(t.tipoTrecho);
        segments := segments + [Segment(decoded.value, color)];
        if |decoded.value| > 0 {
          var leg := LegMarkers(decode, ts, i);
          pontos := pontos + leg;
          distancia := distancia + t.distancia;
          tempo := tempo + t.tempo;
        }
      }
    }
  }

  /** The `forEach` over the legs: markers, segments and totals. */
  method MergeTrechos(decode: Decoder, ts: seq<Trecho>)
    returns (pontos: seq<Ponto>, segments: seq<Segment>, distancia: int, tempo: int)
    ensures pontos == MergedPoints(decode, ts, |ts|)
    ensures segments == MergedSegments(decode, ts, |ts|)
    ensures distancia == MergedDistance(decode, ts, |ts|)
    ensures tempo == MergedTime(decode, ts, |ts|)
  {
    pontos, segments, distancia, tempo := [], [], 0, 0;
    var i := 0;
    while i < |ts|
      invariant 0 <= i <= |ts|
      invariant pontos == MergedPoints(decode, ts, i)
      invariant segments == MergedSegments(decode, ts, i)
      invariant distancia == MergedDistance(decode, ts, i)
      invariant tempo == MergedTime(decode, ts, i)
    {
      pontos, segments, distancia, tempo := MergeLeg(decode, ts, i, pontos, segments, distancia, tempo);
      i := i + 1;
    }
  }

  /** Marker `m` of leg `i` is its origin marker, one of its stops, or its
      destination marker, by position. */
  lemma LegPointAt(decode: Decoder, ts: seq<Trecho>, i: nat, m: nat)
    requires i < |ts| && m < |LegPoints(decode, ts, i)|
    ensures Contributes(decode, ts[i])
    ensures |LegPoints(decode, ts, i)| == |LegHead(ts, i)| + |ts[i].paradas| + |LegTail(ts, i)|
    ensures m < |LegHead(ts, i)| ==> LegPoints(decode, ts, i)[m] == LegHead(ts, i)[m]
    ensures |LegHead(ts, i)| <= m < |LegHead(ts, i)| + |ts[i].paradas| ==>
              LegPoints(decode, ts, i)[m] == LegStop(ts[i].paradas[m - |LegHead(ts, i)|], ts[i].tipoTrecho)
    ensures |LegHead(ts, i)| + |ts[i].paradas| <= m ==>
              LegPoints(decode, ts, i)[m] == LegTail(ts, i)[m - |LegHead(ts, i)| - |ts[i].paradas|]
  {
    var head, stops, tail := LegHead(ts, i), LegStops(ts[i].paradas, ts[i].tipoTrecho), LegTail(ts, i);
    var leg := LegPoints(decode, ts, i);
    assert leg == head + stops + tail;
    if |head| <= m < |head| + |stops| {
      LegStopsAt(ts[i].paradas, ts[i].tipoTrecho, m - |head|);
    }
  }

  /** An origin marker is the first marker of the first leg, taken from its
      `ponto_origem`. */
  lemma LegOriginAt(decode: Decoder, ts: seq<Trecho>, i: nat, m: nat)
    requires i < |ts| && m < |LegPoints(decode, ts, i)| && LegPoints(decode, ts, i)[m].tipo == Origem
    ensures m == 0 && i == 0 && Contributes(decode, ts[0]) && ts[0].pontoOrigem.Some?
    ensures LegPoints(decode, ts, i)[m] == OriginMarker(ts[0].pontoOrigem.value)
  {
    LegPointAt(decode, ts, i, m);
  }

  /** A destination marker is the last marker of the last leg, taken from its
      `ponto_destino`. */
  lemma LegDestinationAt(decode: Decoder, ts: seq<Trecho>, i: nat, m: nat)
    requires i < |ts| && m < |LegPoints(decode, ts, i)| && LegPoints(decode, ts, i)[m].tipo == Destino
    ensures m == |LegPoints(decode, ts, i)| - 1 && i == |ts| - 1
    ensures Contributes(decode, ts[|ts| - 1]) && ts[|ts| - 1].pontoDestino.Some?
    ensures LegPoints(decode, ts, i)[m] == DestinationMarker(ts[|ts| - 1].pontoDestino.value)
  {
    LegPointAt(decode, ts, i, m);
  }

  /** A leg before the last adds no destination marker. */
  lemma NoDestinationInEarlierLeg(decode: Decoder, ts: seq<Trecho>, i: nat, m: nat)
    requires i < |ts| - 1 && m < |LegPoints(decode, ts, i)|
    ensures LegPoints(decode, ts, i)[m].tipo != Destino
  {
    LegPointAt(decode, ts, i, m);
  }

  /** Marker `k` of the first `n` legs is marker `m` of some leg `i` before
      `n`, after the markers of the legs before `i`. */
  lemma MergedPointsIndex(decode: Decoder, ts: seq<Trecho>, n: nat, k: nat) returns (i: nat, m: nat)
    requires n <= |ts| && k < |MergedPoints(decode, ts, n)|
    ensures i < n && m < |LegPoints(decode, ts, i)| && k == |MergedPoints(decode, ts, i)| + m
    ensures |MergedPoints(decode, ts, i + 1)| == |MergedPoints(decode, ts, i)| + |LegPoints(decode, ts, i)|
    ensures MergedPoints(decode, ts, n)[k] == LegPoints(decode, ts, i)[m]
  {
    i, m := ConcatIndex(Legs(decode, ts), n, k);
  }

  /** An origin marker can only be the first marker, and only comes from the
      first leg's `ponto_origem`. */
  lemma MergedOriginOnlyFirst(decode: Decoder, ts: seq<Trecho>, n: nat, k: nat)
    requires n <= |ts| && k < |MergedPoints(decode, ts, n)|
    requires MergedPoints(decode, ts, n)[k].tipo == Origem
    ensures k == 0 && Contributes(decode, ts[0]) && ts[0].pontoOrigem.Some?
    ensures MergedPoints(decode, ts, n)[k] == OriginMarker(ts[0].pontoOrigem.value)
  {
    var i, m := MergedPointsIndex(decode, ts, n, k);
    LegOriginAt(decode, ts, i, m);
  }

  /** No destination marker appears before the last leg is merged. */
  lemma NoDestinationBeforeLastLeg(decode: Decoder, ts: seq<Trecho>, n: nat)
    requires n < |ts|
    ensures forall k :: 0 <= k < |MergedPoints(decode, ts, n)| ==> MergedPoints(decode, ts, n)[k].tipo != Destino
  {
    forall k | 0 <= k < |MergedPoints(decode, ts, n)|
      ensures MergedPoints(decode, ts, n)[k].tipo != Destino
    {
      var i, m := MergedPointsIndex(decode, ts, n, k);
      NoDestinationInEarlierLeg(decode, ts, i, m);
    }
  }

  /** A destination marker can only be the last marker, and only comes from
      the last leg's `ponto_destino`. */
  lemma MergedDestinationOnlyLast(decode: Decoder, ts: seq<Trecho>, n: nat, k: nat)
    requires 0 < n == |ts| && k < |MergedPoints(decode, ts, n)|
    requires MergedPoints(decode, ts, n)[k].tipo == Destino
    ensures k == |MergedPoints(decode, ts, n)| - 1
    ensures Contributes(decode, ts[n - 1]) && ts[n - 1].pontoDestino.Some?
    ensures MergedPoints(decode, ts, n)[k] == DestinationMarker(ts[n - 1].pontoDestino.value)
  {
    var i, m := MergedPointsIndex(decode, ts, n, k);
    LegDestinationAt(decode, ts, i, m);
  }

  /** Merging more legs only appends markers. */
  lemma MergedPrefix(decode: Decoder, ts: seq<Trecho>, m: nat, n: nat)
    requires m <= n <= |ts|
    ensures MergedPoints(decode, ts, m) <= MergedPoints(decode, ts, n)
  {
    ConcatPrefix(Legs(decode, ts), m, n);
  }

  /** Every stop of every contributing leg is shown, with the leg type
      appended to its details. */
  lemma EveryStopShown(decode: Decoder, ts: seq<Trecho>, i: nat, j: nat)
    requires i < |ts| && Contributes(decode, ts[i]) && j < |ts[i].paradas|
    ensures LegStop(ts[i].paradas[j], ts[i].tipoTrecho) in MergedPoints(decode, ts, |ts|)
  {
    var head, stops, tail := LegHead(ts, i), LegStops(ts[i].paradas, ts[i].tipoTrecho), LegTail(ts, i);
    assert LegPoints(decode, ts, i) == head + stops + tail;
    LegStopsAt(ts[i].paradas, ts[i].tipoTrecho, j);
    assert LegPoints(decode, ts, i)[|head| + j] == stops[j];
    ConcatContains(Legs(decode, ts), |ts|, i, |head| + j);
  }

  /** The sum of the distances and of the times of some legs. */
  function SumDistancia(ts: seq<Trecho>): int {
    if ts == [] then 0 else ts[0].distancia + SumDistancia(ts[1..])
  }

  function SumTempo(ts: seq<Trecho>): int {
    if ts == [] then 0 else ts[0].tempo + SumTempo(ts[1..])
  }

  lemma {:induction false} SumAppend(a: seq<Trecho>, b: seq<Trecho>)
    ensures SumDistancia(a + b) == SumDistancia(a) + SumDistancia(b)
    ensures SumTempo(a + b) == SumTempo(a) + SumTempo(b)
  {
    if a == [] {
      assert a + b == b;
    } else {
      assert (a + b)[0] == a[0] && (a + b)[1..] == a[1..] + b;
      SumAppend(a[1..], b);
    }
  }

  /** The legs that decode to at least one point, in order. */
  function ContributingLegs(decode: Decoder, legs: seq<Trecho>): seq<Trecho> {
    Keep(legs, t => Contributes(decode, t))
  }

  /** One more leg adds itself to the contributing legs exactly when it
      contributes. */
  lemma ContributingLegsSnoc(decode: Decoder, ts: seq<Trecho>, n: nat)
    requires 0 < n <= |ts|
    ensures ContributingLegs(decode, ts[..n])
         == ContributingLegs(decode, ts[..n - 1]) + (if Contributes(decode, ts[n - 1]) then [ts[n - 1]] else [])
  {
    assert ts[..n] == ts[..n - 1] + [ts[n - 1]];
    KeepSnoc(ts[..n - 1], ts[n - 1], u => Contributes(decode, u));
  }

  /** The reported totals are the sums over exactly the legs that decode to
      at least one point, whatever the others carry. */
  lemma {:induction false} TotalsOverContributingLegs(decode: Decoder, ts: seq<Trecho>, n: nat)
    requires n <= |ts|
    ensures MergedDistance(decode, ts, n) == SumDistancia(ContributingLegs(decode, ts[..n]))
    ensures MergedTime(decode, ts, n) == SumTempo(ContributingLegs(decode, ts[..n]))
  {
    if n == 0 {
      assert ts[..0] == [];
    } else {
      TotalsOverContributingLegs(decode, ts, n - 1);
      var t := ts[n - 1];
      ContributingLegsSnoc(decode, ts, n);
      SumAppend(ContributingLegs(decode, ts[..n - 1]), if Contributes(decode, t) then [t] else []);
    }
  }

  // ---------------------------------------------- single-polyline placement

  /** `Math.floor(len / (stops + 1))`. */
  function StepOf(len: nat, stops: nat): nat {
    len / (stops + 1)
  }

  /** The decoded point stop `n` (from 0) is placed at. */
  function StopIndex(len: nat, stops: nat, n: nat): nat {
    StepOf(len, stops) * (n + 1)
  }

  /** Stop `n` placed on its decoded point, with its own details. */
  function SingleStop(decoded: seq<LatLng>, paradas: seq<Parada>, n: nat): Ponto
    requires n < |paradas| && StopIndex(|decoded|, |paradas|, n) < |decoded|
  {
    var s := paradas[n];
    Ponto(decoded[StopIndex(|decoded|, |paradas|, n)], Some(s.nome), KindOf(s.tipo), Some(s.detalhes), Some(s.horario))
  }

  /** The first `n` stops that fall before the last decoded point. */
  function PlacedStops(decoded: seq<LatLng>, paradas: seq<Parada>, n: nat): seq<Ponto>
    requires n <= |paradas|
  {
    if n == 0 then []
    else
      PlacedStops(decoded, paradas, n - 1)
      + (if StopIndex(|decoded|, |paradas|, n - 1) < |decoded| - 1 then [SingleStop(decoded, paradas, n - 1)] else [])
  }

  const ColetaNome := "Coleta de Funcionários"
  const GaragemNome := "Origem (Garagem/Base)"
  const ColetaDetalhes := "Local onde os funcionários são coletados"
  const GaragemDetalhes := "Início da rota - Local de partida do veículo"
  const CasaNome := "Destino Final (Casa/Origem)"
  const TrabalhoNome := "Destino (Local de Trabalho)"
  const CasaDetalhes := "Local onde os funcionários são deixados - fim da rota"
  const TrabalhoDetalhes := "Local de trabalho - destino final"

  function SingleOrigin(decoded: seq<LatLng>, isVolta: bool): Ponto
    requires decoded != []
  {
    Ponto(decoded[0], Some(if isVolta then ColetaNome else GaragemNome), Origem,
          Some(if isVolta then ColetaDetalhes else GaragemDetalhes), None)
  }

  function SingleDestination(decoded: seq<LatLng>, isVolta: bool): Ponto
    requires decoded != []
  {
    Ponto(decoded[|decoded| - 1], Some(if isVolta then CasaNome else TrabalhoNome), Destino,
          Some(if isVolta then CasaDetalhes else TrabalhoDetalhes), None)
  }

  /** The markers of a route given as one decoded polyline: the origin, the
      stops spread along it when it has more than two points, and the
      destination when it has more than one. */
  function SinglePoints(decoded: seq<LatLng>, rota: RotaPolyline): (r: seq<Ponto>)
    requires decoded != []
    ensures r != [] && r[0].tipo == Origem && r[0].pos == decoded[0]
    ensures |decoded| > 1 ==> r[|r| - 1].tipo == Destino && r[|r| - 1].pos == decoded[|decoded| - 1]
    ensures |r| <= |rota.paradas| + 2
  {
    PlacedStopsArePrefix(decoded, rota.paradas, |rota.paradas|);
    var isVolta := rota.tipoTrecho == "VOLTA";
    [SingleOrigin(decoded, isVolta)]
    + (if |decoded| > 2 then PlacedStops(decoded, rota.paradas, |rota.paradas|) else [])
    + (if |decoded| > 1 then [SingleDestination(decoded, isVolta)] else [])
  }

  /** The single-polyline branch building `pontosDaRota`. */
  method PlaceSingleRoute(decoded: seq<LatLng>, rota: RotaPolyline) returns (pontos: seq<Ponto>)
    requires decoded != []
    ensures pontos == SinglePoints(decoded, rota)
  {
    var isVolta := rota.tipoTrecho == "VOLTA";
    var stops: seq<Ponto> := [];
    if |decoded| > 2 {
      var step := |decoded| / (|rota.paradas| + 1);
      var index := 0;
      while index < |rota.paradas|
        invariant 0 <= index <= |rota.paradas|
        invariant step == StepOf(|decoded|, |rota.paradas|)
        invariant stops == PlacedStops(decoded, rota.paradas, index)
      {
        var pointIndex := step * (index + 1);
        if pointIndex < |decoded| - 1 {
          var parada := rota.paradas[index];
          stops := stops + [Ponto(decoded[pointIndex], Some(parada.nome), KindOf(parada.tipo),
                                  Some(parada.detalhes), Some(parada.horario))];
        }
        index := index + 1;
      }
    }
    pontos := [SingleOrigin(decoded, isVolta)] + stops;
    if |decoded| > 1 {
      pontos := pontos + [SingleDestination(decoded, isVolta)];
    }
  }

  lemma MulMonotone(step: nat, a: nat, b: nat)
    requires a <= b
    ensures step * a <= step * b
  {
  }

  /** The stops placed are the first ones, in order, each on its own point;
      a stop is left out only when every later one is too. */
  lemma {:induction false} PlacedStopsArePrefix(decoded: seq<LatLng>, paradas: seq<Parada>, n: nat)
    requires n <= |paradas|
    ensures |PlacedStops(decoded, paradas, n)| <= n
    ensures forall j :: 0 <= j < |PlacedStops(decoded, paradas, n)| ==>
              StopIndex(|decoded|, |paradas|, j) < |decoded| - 1
              && PlacedStops(decoded, paradas, n)[j] == SingleStop(decoded, paradas, j)
    ensures forall j :: 0 <= j < n && StopIndex(|decoded|, |paradas|, j) < |decoded| - 1 ==>
              j < |PlacedStops(decoded, paradas, n)|
  {
    if n > 0 {
      PlacedStopsArePrefix(decoded, paradas, n - 1);
      var len, k := |decoded|, |paradas|;
      if StopIndex(len, k, n - 1) < len - 1 {
        forall j | 0 <= j < n - 1
          ensures StopIndex(len, k, j) < len - 1
        {
          MulMonotone(StepOf(len, k), j + 1, n);
        }
        assert |PlacedStops(decoded, paradas, n - 1)| == n - 1;
      } else {
        forall j | 0 <= j < n && StopIndex(len, k, j) < len - 1
          ensures j < n - 1
        {
          if j == n - 1 {
            assert false;
          }
        }
      }
    }
  }

  /** The step never overshoots the polyline, and is at least two when
      there are two points per gap. */
  lemma StepBounds(len: nat, stops: nat)
    ensures StepOf(len, stops) * (stops + 1) <= len
    ensures len >= 2 * (stops + 1) ==> StepOf(len, stops) >= 2
  {
    var d, q, r := stops + 1, len / (stops + 1), len % (stops + 1);
    assert len == d * q + r && 0 <= r < d;
    assert q * d == d * q;
  }

  /** With at least two decoded points per gap, every stop is placed. */
  lemma AllStopsPlacedWhenRoomy(decoded: seq<LatLng>, paradas: seq<Parada>)
    requires |decoded| >= 2 * (|paradas| + 1)
    ensures |PlacedStops(decoded, paradas, |paradas|)| == |paradas|
  {
    var len, k := |decoded|, |paradas|;
    PlacedStopsArePrefix(decoded, paradas, k);
    if k > 0 {
      var step := StepOf(len, k);
      StepBounds(len, k);
      assert step * (k + 1) == step * k + step;
      assert StopIndex(len, k, k - 1) == step * k;
    }
  }

  /** With fewer decoded points than gaps the step is zero: every stop is
      placed on the origin's point. */
  lemma CrowdedStopsAtOrigin(decoded: seq<LatLng>, paradas: seq<Parada>)
    requires 2 < |decoded| < |paradas| + 1
    ensures |PlacedStops(decoded, paradas, |paradas|)| == |paradas|
    ensures forall j :: 0 <= j < |paradas| ==> PlacedStops(decoded, paradas, |paradas|)[j].pos == decoded[0]
  {
    var len, k := |decoded|, |paradas|;
    assert StepOf(len, k) == 0;
    PlacedStopsArePrefix(decoded, paradas, k);
    assert StopIndex(len, k, k - 1) == 0;
  }

  // --------------------------------------------------------------- reports

  /** `Math.round(seconds / 60)`: the nearest minute, halves rounded up. */
  function RoundMinutes(seconds: int): (m: int)
    ensures 60 * m - 30 <= seconds < 60 * m + 30
  {
    (seconds + 30) / 60
  }

  /** What `onRotaCalculada` is given: metres and minutes. */
  datatype Report = Report(distancia: int, minutos: int)

  // ------------------------------------------------------------ modes, key

  datatype Mode = MultiLeg | SinglePolyline | Manual | Inert

  /** Which branch of the processing effect an input takes; `Inert` inputs
      (a blank polyline, or an empty leg list without a polyline) leave the
      map as it was. */
  function ModeOf(input: MapInput): (m: Mode)
    ensures m == Manual <==> input.rota.None? || (input.rota.value.polyline == "" && input.rota.value.trechos.None?)
    ensures m == SinglePolyline ==> !AllSpace(input.rota.value.polyline)
    ensures m == Inert ==> input.rota.Some? && AllSpace(input.rota.value.polyline)
  {
    TrimEmptyIffBlank(if input.rota.Some? then input.rota.value.polyline else "");
    if input.rota.Some? && input.rota.value.trechos.Some? && |input.rota.value.trechos.value| > 0 then MultiLeg
    else if input.rota.Some? && input.rota.value.polyline != "" && Trim(input.rota.value.polyline) != "" then SinglePolyline
    else if input.rota.None? || (input.rota.value.polyline == "" && input.rota.value.trechos.None?) then Manual
    else Inert
  }

  /** `rotaKey`, as written: the leg count and the first ten characters of
      each polyline, or of the single polyline, or a constant. The key names
      the branch: multi-leg keys start "trechos-", single polyline keys
      "single-", and manual points get the constant key. */
  function RotaKey(input: MapInput): (k: string)
    ensures ModeOf(input) == MultiLeg ==> "trechos-" <= k
    ensures ModeOf(input) == SinglePolyline ==> "single-" <= k
    ensures ModeOf(input) == Manual ==> k == "pontos-manuais"
  {
    if input.rota.Some? && input.rota.value.trechos.Some? && |input.rota.value.trechos.value| > 0 then
      var ts := input.rota.value.trechos.value;
      "trechos-" + (NatToString(|ts|) + "-"
      + Join(seq(|ts|, i requires 0 <= i < |ts| => Prefix(ts[i].polyline, 10)), "-"))
    else if input.rota.Some? && input.rota.value.polyline != "" then
      "single-" + Prefix(input.rota.value.polyline, 10)
    else "pontos-manuais"
  }

  /** What the map shows for an input: markers and the decoded points the
      view is fitted to; `None` when the input leaves the map as it was. */
  datatype View = View(pontosVisiveis: seq<Ponto>, pontosDecodificados: seq<LatLng>)

  function Rendered(decode: Decoder, input: MapInput): (v: Option<View>)
    ensures v.None? <==> ModeOf(input) == Inert
  {
    match ModeOf(input)
    case MultiLeg =>
      var ts := input.rota.value.trechos.value;
      Some(View(MergedPoints(decode, ts, |ts|), Flatten(MergedSegments(decode, ts, |ts|))))
    case SinglePolyline =>
      var d := decode(input.rota.value.polyline);
      if d.Some? && d.value != [] then Some(View(SinglePoints(d.value, input.rota.value), d.value))
      else Some(View(input.pontos, []))
    case Manual => Some(View(input.pontos, []))
    case Inert => None
  }

  /** The report an input produces, if any: for legs, the distance and time
      summed over the legs that decode to at least one point; for a single
      polyline that decodes to points, the route's own totals. */
  function ReportFor(decode: Decoder, input: MapInput): (r: Option<Report>)
    ensures ModeOf(input) == MultiLeg ==>
              var ts := input.rota.value.trechos.value;
              r == Some(Report(SumDistancia(ContributingLegs(decode, ts)),
                               RoundMinutes(SumTempo(ContributingLegs(decode, ts)))))
    ensures ModeOf(input) == SinglePolyline ==>
              (r.Some? <==> Rendered(decode, input).value.pontosDecodificados != [])
              && (r.Some? ==> r.value.distancia == input.rota.value.distancia)
    ensures ModeOf(input) == Manual || ModeOf(input) == Inert ==> r.None?
  {
    if ModeOf(input) == MultiLeg then
      var ts := input.rota.value.trechos.value;
      TotalsOverContributingLegs(decode, ts, |ts|);
      assert ts[..|ts|] == ts;
      Some(Report(MergedDistance(decode, ts, |ts|), RoundMinutes(MergedTime(decode, ts, |ts|))))
    else if ModeOf(input) == SinglePolyline then
      var d := decode(input.rota.value.polyline);
      if d.Some? && d.value != [] then Some(Report(input.rota.value.distancia, RoundMinutes(input.rota.value.tempo)))
      else None
    else None
  }

  /** The branches that record the input's key as processed, as written: the
      single polyline and the manual points, but not the legs. */
  predicate RecordsAsWritten(input: MapInput) {
    ModeOf(input) == SinglePolyline || ModeOf(input) == Manual
  }

  /** The effect's guard as written: skip when the recorded key equals the
      input's key. */
  predicate SkipsAsWritten(processedKey: Option<string>, input: MapInput) {
    processedKey == Some(RotaKey(input))
  }

  /** With only manual points, every input has the same key: once one set of
      points has been shown, a different set is skipped by the guard as
      written although it renders differently. */
  lemma ManualPointsSkippedAsWritten(decode: Decoder, p: seq<Ponto>, q: seq<Ponto>)
    requires p != q
    ensures SkipsAsWritten(Some(RotaKey(MapInput(None, p))), MapInput(None, q))
    ensures Rendered(decode, MapInput(None, p)) != Rendered(decode, MapInput(None, q))
  {
  }

  /** Two single polylines that agree on their first ten characters share a
      key, so the second is skipped by the guard as written. */
  lemma PolylinePrefixSkippedAsWritten(a: RotaPolyline, b: RotaPolyline, pontos: seq<Ponto>)
    requires a.trechos.None? && b.trechos.None?
    requires |a.polyline| >= 10 && |b.polyline| >= 10 && a.polyline[..10] == b.polyline[..10]
    ensures SkipsAsWritten(Some(RotaKey(MapInput(Some(a), pontos))), MapInput(Some(b), pontos))
  {
  }

  /** One run of the effect as written, on the recorded key and what the map
      shows: skipped when the key matches, otherwise the rendered view, with
      the key recorded by the branches that record it. */
  function StepAsWritten(decode: Decoder, processedKey: Option<string>, shown: View, input: MapInput)
    : (Option<string>, View)
  {
    if SkipsAsWritten(processedKey, input) then (processedKey, shown)
    else match Rendered(decode, input)
      case None => (processedKey, shown)
      case Some(v) => (if RecordsAsWritten(input) then Some(RotaKey(input)) else processedKey, v)
  }

  /** Manual points, then a route with legs, then the same manual points:
      the legs leave the manual key recorded, so the third run is skipped
      and the map keeps showing the legs. */
  lemma ManualAfterLegsSkippedAsWritten(decode: Decoder, key0: Option<string>, shown0: View,
                                        pontos: seq<Ponto>, legs: MapInput)
    requires ModeOf(legs) == MultiLeg
    requires Rendered(decode, legs) != Rendered(decode, MapInput(None, pontos))
    ensures var a := MapInput(None, pontos);
            var s1 := StepAsWritten(decode, key0, shown0, a);
            var s2 := StepAsWritten(decode, s1.0, s1.1, legs);
            var s3 := StepAsWritten(decode, s2.0, s2.1, a);
            s3.1 == Rendered(decode, legs).value && Some(s3.1) != Rendered(decode, a)
  {
    var a := MapInput(None, pontos);
    var s1 := StepAsWritten(decode, key0, shown0, a);
    assert s1.0 == Some("pontos-manuais");
    var s2 := StepAsWritten(decode, s1.0, s1.1, legs);
    assert "trechos-" <= RotaKey(legs);
    assert RotaKey(legs) != "pontos-manuais" by { assert RotaKey(legs)[0] == 't'; }
    assert s2 == (s1.0, Rendered(decode, legs).value);
  }

  /** The map component's state. */
  class MapaRota {
    const decode: Decoder
    var pontosVisiveis: seq<Ponto>
    var pontosDecodificados: seq<LatLng>
    var center: LatLng
    /** The last input recorded as processed (the corrected guard compares
        whole inputs rather than keys, and records every input it renders). */
    var processed: Option<MapInput>

    /** The recorded input is what the map shows, so skipping it again is
        right. */
    predicate Fresh()
      reads this
    {
      processed.Some? ==>
        var v := Rendered(decode, processed.value);
        v.Some? && pontosVisiveis == v.value.pontosVisiveis && pontosDecodificados == v.value.pontosDecodificados
    }

    constructor(decode: Decoder)
      ensures this.decode == decode
      ensures pontosVisiveis == [] && pontosDecodificados == [] && center == Brasilia && processed == None
      ensures Fresh()
    {
      this.decode := decode;
      pontosVisiveis := [];
      pontosDecodificados := [];
      center := Brasilia;
      processed := None;
    }

    /** The processing effect: unless this very input was processed already,
        shows what it renders, records it when it renders something, and
        returns the report it produces. Afterwards the map shows what the
        input renders, whenever it renders anything. */
    method Process(input: MapInput) returns (report: Option<Report>)
      requires Fresh()
      modifies this
      ensures Fresh()
      ensures Rendered(decode, input).Some? ==>
                pontosVisiveis == Rendered(decode, input).value.pontosVisiveis
                && pontosDecodificados == Rendered(decode, input).value.pontosDecodificados
      ensures center == old(center)
      ensures old(processed) == Some(input) ==>
                pontosVisiveis == old(pontosVisiveis) && pontosDecodificados == old(pontosDecodificados)
                && processed == old(processed) && report.None?
      ensures old(processed) != Some(input) ==>
                match Rendered(decode, input)
                case Some(v) => pontosVisiveis == v.pontosVisiveis && pontosDecodificados == v.pontosDecodificados
                case None => pontosVisiveis == old(pontosVisiveis) && pontosDecodificados == old(pontosDecodificados)
      ensures old(processed) != Some(input) ==>
                processed == (if ModeOf(input) != Inert then Some(input) else old(processed))
                && report == ReportFor(decode, input)
    {
      report := None;
      if processed == Some(input) {
        return;
      }
      var mode := ModeOf(input);
      if mode == MultiLeg {
        var ts := input.rota.value.trechos.value;
        var pontos, segments, distancia, tempo := MergeTrechos(decode, ts);
        pontosVisiveis := pontos;
        pontosDecodificados := Flatten(segments);
        report := Some(Report(distancia, RoundMinutes(tempo)));
        processed := Some(input);
        assert Rendered(decode, input) == Some(View(pontos, Flatten(segments)));
        assert ReportFor(decode, input) == report;
      } else if mode == SinglePolyline {
        var rota := input.rota.value;
        var decoded := decode(rota.polyline);
        if decoded.Some? && decoded.value != [] {
          pontosDecodificados := decoded.value;
          var pontos := PlaceSingleRoute(decoded.value, rota);
          pontosVisiveis := pontos;
          report := Some(Report(rota.distancia, RoundMinutes(rota.tempo)));
        } else {
          pontosVisiveis := input.pontos;
          pontosDecodificados := [];
        }
        processed := Some(input);
      } else if mode == Manual {
        pontosVisiveis := input.pontos;
        pontosDecodificados := [];
        processed := Some(input);
      }
    }

    /** The centring effect: the mean marker position, when there are
        markers. */
    method UpdateCenter()
      modifies this
      ensures pontosVisiveis == old(pontosVisiveis) && pontosDecodificados == old(pontosDecodificados)
      ensures processed == old(processed)
      ensures pontosVisiveis != [] ==> center == Center(Positions(pontosVisiveis))
      ensures pontosVisiveis == [] ==> center == old(center)
      ensures Fresh() == old(Fresh())
    {
      if |pontosVisiveis| > 0 {
        center := Center(Positions(pontosVisiveis));
      }
    }
  }

  function Positions(ps: seq<Ponto>): (r: seq<LatLng>)
    ensures |r| == |ps| && forall i :: 0 <= i < |ps| ==> r[i] == ps[i].pos
  {
    seq(|ps|, i requires 0 <= i < |ps| => ps[i].pos)
  }
}
