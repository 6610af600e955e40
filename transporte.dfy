/** The transport table: fixed sample rows grouped by status tab, filtered
    by description, destination or driver. */
module Transporte {
  import opened Seqs
  import opened TableFilters

  datatype Status = EmAndamento | Concluidos | EmEspera

  datatype Transporte = Transporte(id: int, descricao: string, destino: string, motorista: string)

  /** The rows of one status tab: two fixed transports per tab. */
  function RowsFor(status: Status): (r: seq<Transporte>)
    ensures |r| == 2
  {
    match status
    case EmAndamento => [Transporte(1, "Transporte 1", "Local A", "João"), Transporte(2, "Transporte 2", "Local B", "Maria")]
    case Concluidos => [Transporte(3, "Transporte 3", "Local C", "Carlos"), Transporte(4, "Transporte 4", "Local D", "Ana")]
    case EmEspera => [Transporte(5, "Transporte 5", "Local E", "Pedro"), Transporte(6, "Transporte 6", "Local F", "Clara")]
  }

  /** Each transport belongs to exactly one tab. */
  lemma TabsAreDisjoint(s: Status, t: Status, i: nat, j: nat)
    requires i < 2 && j < 2 && RowsFor(s)[i].id == RowsFor(t)[j].id
    ensures s == t && i == j
  {
  }

  /** A transport matches when its description, destination or driver
      includes the search text, ignoring case; every transport matches the
      empty search. */
  function TransporteMatches(row: Transporte, search: string): (b: bool)
    ensures search == "" ==> b
  {
    Text.ContainsEmpty(Text.ToLower(row.descricao));
    FieldMatches(row.descricao, search) || FieldMatches(row.destino, search)
    || FieldMatches(row.motorista, search)
  }

  /** The rows shown for a tab and a search text. */
  function FilteredRows(status: Status, search: string): (r: seq<Transporte>)
    ensures |r| <= 2
    ensures forall i :: 0 <= i < |r| ==> r[i] in RowsFor(status) && TransporteMatches(r[i], search)
    ensures forall i :: 0 <= i < 2 && TransporteMatches(RowsFor(status)[i], search) ==>
              RowsFor(status)[i] in r
  {
    Keep(RowsFor(status), (row: Transporte) => TransporteMatches(row, search))
  }

  lemma FilteredRowsIsSubseq(status: Status, search: string)
    ensures IsSubseq(FilteredRows(status, search), RowsFor(status))
  {
    KeepIsSubseq(RowsFor(status), (row: Transporte) => TransporteMatches(row, search));
  }

  /** An empty search shows the whole tab. */
  lemma EmptySearchShowsTab(status: Status)
    ensures FilteredRows(status, "") == RowsFor(status)
  {
    KeepAll(RowsFor(status), (row: Transporte) => TransporteMatches(row, ""));
  }

  /** Searching a driver's name, in any letter case, shows their transport. */
  lemma SearchDriverFinds(status: Status, i: nat)
    requires i < 2
    ensures RowsFor(status)[i] in FilteredRows(status, Text.ToLower(RowsFor(status)[i].motorista))
  {
    var m := RowsFor(status)[i].motorista;
    Text.ContainsInfix("", m, "");
    assert "" + m + "" == m;
    Text.ContainsLower(m, m);
    Text.ToLowerIdempotent(m);
  }
}
