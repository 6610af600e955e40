/** The route table: one row per generated route, showing its vehicles,
    total time and number of legs, with a search box and deletion through
    a confirmation modal. */
module Rotas {
  import opened Optional
  import opened Text
  import opened Seqs
  import opened TableFilters

  /** One leg of a route, as far as the table uses it. */
  datatype Trecho = Trecho(id: int)

  /** The summary of one vehicle's part of a route. */
  datatype Veiculo = Veiculo(veiculoLabel: string, duracaoSegundos: int, trechos: seq<Trecho>)

  /** A route. `idRota` 0 stands for a missing `id_rota`: both are falsy,
      and the table only compares or sends the id when it is truthy. */
  datatype Rota = Rota(idRota: int, descricao: string, veiculos: seq<Veiculo>)

  // ---------------------------------------------------------------------
  // Columns
  // ---------------------------------------------------------------------

  /** `a % b` in JavaScript, which truncates toward zero. */
  function JsRem(a: int, b: int): (r: int)
    requires b > 0
    ensures a >= 0 ==> 0 <= r < b
    ensures a < 0 ==> -b < r <= 0
    ensures a >= 0 ==> r == a % b
  {
    if a >= 0 then a % b else -((-a) % b)
  }

  datatype Tempo = Tempo(horas: int, minutos: int)

  /** Hours `Math.floor(s / 3600)` and minutes `Math.floor((s % 3600) / 60)`. */
  function SplitSeconds(segundos: int): Tempo {
    Tempo(segundos / 3600, JsRem(segundos, 3600) / 60)
  }

  /** A non-negative duration splits into whole hours and the whole minutes
      left over: the seconds dropped are fewer than 60. */
  lemma SplitSecondsBounds(segundos: int)
    requires segundos >= 0
    ensures var t := SplitSeconds(segundos);
      t.horas >= 0 && 0 <= t.minutos < 60
      && t.horas * 3600 + t.minutos * 60 <= segundos < t.horas * 3600 + t.minutos * 60 + 60
  {
  }

  /** `text` reads "<h>h <m>m" for whole hours and fewer than 60 whole
      minutes that fall short of `segundos` by less than a minute. */
  ghost predicate ShowsDuration(text: string, segundos: int) {
    exists h: nat, m: nat :: m < 60 && text == NatToString(h) + "h " + NatToString(m) + "m"
      && h * 3600 + m * 60 <= segundos < h * 3600 + m * 60 + 60
  }

  /** `formatarTempo`: a non-negative duration shows as hours and minutes,
      rounded down to the minute. */
  function FormatarTempo(segundos: int): (r: string)
    ensures segundos >= 0 ==> ShowsDuration(r, segundos)
  {
    var t := SplitSeconds(segundos);
    var r := IntToString(t.horas) + "h " + IntToString(t.minutos) + "m";
    if segundos < 0 then r
    else
      SplitSecondsBounds(segundos);
      assert r == NatToString(t.horas) + "h " + NatToString(t.minutos) + "m";
      r
  }

  function Labels(vs: seq<Veiculo>): (r: seq<string>)
    ensures |r| == |vs| && forall i :: 0 <= i < |vs| ==> r[i] == vs[i].veiculoLabel
  {
    seq(|vs|, i requires 0 <= i < |vs| => vs[i].veiculoLabel)
  }

  /** `obterVeiculos`: the vehicle labels joined by ", ". Every label of
      the route can be found in it, and a route without vehicles shows an
      empty column. */
  function ObterVeiculos(r: Rota): (s: string)
    ensures forall i :: 0 <= i < |r.veiculos| ==> Contains(s, r.veiculos[i].veiculoLabel)
    ensures r.veiculos == [] ==> s == ""
  {
    JoinContainsEvery(Labels(r.veiculos), ", ");
    Join(Labels(r.veiculos), ", ")
  }

  /** The total of the vehicles' durations; never negative when no
      duration is. */
  function TempoTotal(vs: seq<Veiculo>): (t: int)
    ensures (forall i :: 0 <= i < |vs| ==> vs[i].duracaoSegundos >= 0) ==> t >= 0
  {
    if vs == [] then 0 else vs[0].duracaoSegundos + TempoTotal(vs[1..])
  }

  lemma {:induction false} TempoTotalAppend(a: seq<Veiculo>, b: seq<Veiculo>)
    ensures TempoTotal(a + b) == TempoTotal(a) + TempoTotal(b)
  {
    if a != [] {
      assert (a + b)[0] == a[0] && (a + b)[1..] == a[1..] + b;
      TempoTotalAppend(a[1..], b);
    } else {
      assert a + b == b;
    }
  }

  /** `obterTempoTotal`: the summed durations of the route's vehicles as
      hours and minutes; "0h 0m" for a route without vehicles. */
  function ObterTempoTotal(r: Rota): (s: string)
    ensures (forall i :: 0 <= i < |r.veiculos| ==> r.veiculos[i].duracaoSegundos >= 0) ==>
              ShowsDuration(s, TempoTotal(r.veiculos))
    ensures r.veiculos == [] ==> s == "0h 0m"
  {
    FormatarTempo(TempoTotal(r.veiculos))
  }

  /** The legs column: the number of legs over all vehicles. */
  function LegCount(vs: seq<Veiculo>): nat {
    if vs == [] then 0 else |vs[0].trechos| + LegCount(vs[1..])
  }

  /** All legs of the vehicles, vehicle after vehicle. */
  function AllTrechos(vs: seq<Veiculo>): seq<Trecho> {
    if vs == [] then [] else vs[0].trechos + AllTrechos(vs[1..])
  }

  lemma {:induction false} LegCountCountsAllTrechos(vs: seq<Veiculo>)
    ensures LegCount(vs) == |AllTrechos(vs)|
  {
    if vs != [] {
      LegCountCountsAllTrechos(vs[1..]);
    }
  }

  // ---------------------------------------------------------------------
  // Search
  // ---------------------------------------------------------------------

  /** A route matches when its description or its vehicles column includes
      the search text, ignoring case. */
  function RotaMatches(r: Rota, search: string): (b: bool)
    ensures search == "" ==> b
  {
    ContainsEmpty(ToLower(r.descricao));
    FieldMatches(r.descricao, search) || FieldMatches(ObterVeiculos(r), search)
  }

  function FilterRotas(rows: seq<Rota>, search: string): (r: seq<Rota>)
    ensures |r| <= |rows|
    ensures forall i :: 0 <= i < |r| ==> r[i] in rows && RotaMatches(r[i], search)
    ensures forall i :: 0 <= i < |rows| && RotaMatches(rows[i], search) ==> rows[i] in r
  {
    Keep(rows, (r: Rota) => RotaMatches(r, search))
  }

  lemma EmptySearchKeepsAllRotas(rows: seq<Rota>)
    ensures FilterRotas(rows, "") == rows
  {
    KeepAll(rows, (r: Rota) => RotaMatches(r, ""));
  }

  /** Searching one of a route's vehicle labels keeps the route. */
  lemma SearchLabelFindsRota(rows: seq<Rota>, k: nat, i: nat)
    requires k < |rows| && i < |rows[k].veiculos|
    ensures rows[k] in FilterRotas(rows, rows[k].veiculos[i].veiculoLabel)
  {
    var r := rows[k];
    ContainsLower(ObterVeiculos(r), r.veiculos[i].veiculoLabel);
  }

  // ---------------------------------------------------------------------
  // Deletion
  // ---------------------------------------------------------------------

  /** The id the DELETE request is sent for: the route's id, else the id of
      the first leg of its first vehicle; none when that is falsy too. */
  function DeleteTarget(r: Rota): (id: Option<int>)
    ensures id.Some? ==> id.value != 0
    ensures r.idRota != 0 ==> id == Some(r.idRota)
    ensures r.idRota == 0 && id.Some? ==>
              r.veiculos != [] && r.veiculos[0].trechos != [] && id.value == r.veiculos[0].trechos[0].id
    ensures r.idRota == 0 && r.veiculos != [] && r.veiculos[0].trechos != [] ==>
              id.None? == (r.veiculos[0].trechos[0].id == 0)
  {
    if r.idRota != 0 then Some(r.idRota)
    else if r.veiculos != [] && r.veiculos[0].trechos != [] && r.veiculos[0].trechos[0].id != 0
    then Some(r.veiculos[0].trechos[0].id)
    else None
  }

  /** The local removal as written: routes are told apart by id when both
      have one, otherwise by description. */
  predicate KeepAfterDeleteAsWritten(item: Rota, selected: Rota) {
    if item.idRota != 0 && selected.idRota != 0 then item.idRota != selected.idRota
    else item.descricao != selected.descricao
  }

  /** The local removal, never taking a route that has its own id for the
      deleted one: a deleted route with an id removes that id, one without
      removes the id-less routes with its description. */
  predicate KeepAfterDelete(item: Rota, selected: Rota) {
    if selected.idRota != 0 then item.idRota != selected.idRota
    else item.idRota != 0 || item.descricao != selected.descricao
  }

  function RemoveRotaAsWritten(rows: seq<Rota>, selected: Rota): seq<Rota> {
    Keep(rows, (item: Rota) => KeepAfterDeleteAsWritten(item, selected))
  }

  function RemoveRota(rows: seq<Rota>, selected: Rota): (r: seq<Rota>)
    ensures |r| <= |rows|
    ensures forall i :: 0 <= i < |r| ==> r[i] in rows && KeepAfterDelete(r[i], selected)
    ensures forall i :: 0 <= i < |rows| && KeepAfterDelete(rows[i], selected) ==> rows[i] in r
  {
    Keep(rows, (item: Rota) => KeepAfterDelete(item, selected))
  }

  /** As written, deleting a route without an id also removes from the list
      a route that has an id and shares its description, though the backend
      deleted only one of them. */
  lemma RemoveAsWrittenDropsOtherRoute(desc: string, vs: seq<Veiculo>, ws: seq<Veiculo>, id: int)
    requires id != 0
    ensures RemoveRotaAsWritten([Rota(0, desc, vs), Rota(id, desc, ws)], Rota(0, desc, vs)) == []
  {
    var p := (item: Rota) => KeepAfterDeleteAsWritten(item, Rota(0, desc, vs));
    assert [Rota(0, desc, vs), Rota(id, desc, ws)][1..] == [Rota(id, desc, ws)];
    assert Keep([Rota(id, desc, ws)], p) == [];
  }

  /** The deleted route leaves the list. */
  lemma RemoveRotaRemovesSelected(rows: seq<Rota>, selected: Rota)
    ensures selected !in RemoveRota(rows, selected)
  {
  }

  /** A route with its own id, other than the deleted route's, stays. */
  lemma RemoveRotaKeepsOtherIds(rows: seq<Rota>, selected: Rota, item: Rota)
    requires item in rows && item.idRota != 0 && item.idRota != selected.idRota
    ensures item in RemoveRota(rows, selected)
  {
  }

  /** The removal keeps the surviving routes in order. */
  lemma RemoveRotaIsSubseq(rows: seq<Rota>, selected: Rota)
    ensures IsSubseq(RemoveRota(rows, selected), rows)
  {
    KeepIsSubseq(rows, (item: Rota) => KeepAfterDelete(item, selected));
  }

  // ---------------------------------------------------------------------
  // Loading
  // ---------------------------------------------------------------------

  /** The outcome of the GET request for the routes. */
  datatype Response = Listed(rotas: seq<Rota>) | NotAList | HttpError(status: int) | NetworkError

  function LoadedData(resp: Response): (r: seq<Rota>)
    ensures resp.Listed? ==> r == resp.rotas
    ensures !resp.Listed? ==> r == []
  {
    if resp.Listed? then resp.rotas else []
  }

  /** The message shown for a failed load. */
  function LoadError(resp: Response): (r: string)
    requires !resp.Listed?
    ensures r != ""
  {
    match resp
    case NotAList => "Formato inesperado dos dados da API"
    case HttpError(status) => "Erro ao carregar rotas: " + IntToString(status)
    case NetworkError => "Erro ao carregar rotas"
  }

  /** The error after a load as written: a successful load leaves the
      previous message in place. */
  function ErrorAfterAsWritten(prev: string, resp: Response): string {
    if resp.Listed? then prev else LoadError(resp)
  }

  /** As written, once a load failed the table keeps showing the error
      after a later load succeeds. */
  lemma StaleErrorAsWritten(rotas: seq<Rota>)
    ensures ErrorAfterAsWritten(ErrorAfterAsWritten("", NetworkError), Listed(rotas)) != ""
  {
  }

  /** The error after a load: cleared by a successful load. */
  function ErrorAfter(prev: string, resp: Response): (r: string)
    ensures r == "" <==> resp.Listed?
  {
    if resp.Listed? then "" else LoadError(resp)
  }

  // ---------------------------------------------------------------------
  // The component
  // ---------------------------------------------------------------------

  class RotasTable {
    var data: seq<Rota>
    var error: string
    var filter: string
    var showDeleteModal: bool
    var selectedItem: Option<Rota>
    var isDeleting: bool

    /** The rows on screen: none while an error is shown. */
    function Shown(): (r: seq<Rota>)
      reads this
      ensures error != "" ==> r == []
      ensures error == "" ==> r == FilterRotas(data, filter)
    {
      if error != "" then [] else FilterRotas(data, filter)
    }

    constructor()
      ensures data == [] && error == "" && filter == ""
      ensures !showDeleteModal && selectedItem == None && !isDeleting
    {
      data := [];
      error := "";
      filter := "";
      showDeleteModal := false;
      selectedItem := None;
      isDeleting := false;
    }

    method Load(resp: Response)
      modifies this
      ensures data == LoadedData(resp) && error == ErrorAfter(old(error), resp)
      ensures filter == old(filter) && showDeleteModal == old(showDeleteModal)
      ensures selectedItem == old(selectedItem) && isDeleting == old(isDeleting)
      ensures resp.Listed? ==> Shown() == FilterRotas(resp.rotas, filter)
    {
      data := LoadedData(resp);
      error := ErrorAfter(error, resp);
    }

    method SetFilter(text: string)
      modifies this
      ensures filter == text
      ensures data == old(data) && error == old(error) && showDeleteModal == old(showDeleteModal)
      ensures selectedItem == old(selectedItem) && isDeleting == old(isDeleting)
    {
      filter := text;
    }

    method OpenDeleteModal(item: Rota)
      modifies this
      ensures selectedItem == Some(item) && showDeleteModal
      ensures data == old(data) && error == old(error) && filter == old(filter)
      ensures isDeleting == old(isDeleting)
    {
      selectedItem := Some(item);
      showDeleteModal := true;
    }

    method CloseDeleteModal()
      modifies this
      ensures selectedItem == None && !showDeleteModal
      ensures data == old(data) && error == old(error) && filter == old(filter)
      ensures isDeleting == old(isDeleting)
    {
      selectedItem := None;
      showDeleteModal := false;
    }

    /** Confirming the deletion. `request` is the id a DELETE request is
        sent for; none without a selected route or without an id to send,
        and then the modal stays open. `ok` is whether the backend accepted
        the request. */
    method HandleDelete(ok: bool) returns (request: Option<int>)
      requires !isDeleting
      modifies this
      ensures request == (if old(selectedItem).Some? then DeleteTarget(old(selectedItem).value) else None)
      ensures request.Some? && ok ==>
                data == RemoveRota(old(data), old(selectedItem).value)
                && old(selectedItem).value !in data
                && !showDeleteModal && selectedItem == None
      ensures !(request.Some? && ok) ==>
                data == old(data) && showDeleteModal == old(showDeleteModal)
                && selectedItem == old(selectedItem)
      ensures error == old(error) && filter == old(filter) && !isDeleting
    {
      if selectedItem.None? {
        return None;
      }
      var item := selectedItem.value;
      isDeleting := true;
      request := DeleteTarget(item);
      if request.None? {
        isDeleting := false;
        return;
      }
      if ok {
        data := RemoveRota(data, item);
        RemoveRotaRemovesSelected(old(data), item);
        showDeleteModal := false;
        selectedItem := None;
      }
      isDeleting := false;
    }
  }
}
