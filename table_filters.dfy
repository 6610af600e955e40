/** The search box of each table: the row matches when one of its search
    columns, lower-cased, includes the lower-cased search text. Columns are
    tried left to right, as the `||` chain in the components evaluates
    them. A column whose value cannot be lower-cased throws a TypeError,
    which aborts the whole `filter` call and the render with it. */
module TableFilters {
  import opened Optional
  import opened Text
  import opened JsValue
  import opened ListView

  /** How a search column turns its value into text. */
  datatype Render =
    | OrEmpty    // `(v || "").toLowerCase()`
    | Stringify  // `(v !== undefined && v !== null ? v.toString().toLowerCase() : "")`

  datatype SearchColumn = SearchColumn(key: string, render: Render)

  /** The text of one column, or None where `toLowerCase` is called on a
      number and JavaScript throws. */
  function ColumnText(render: Render, v: Value): (r: Option<string>)
    ensures render == Stringify ==> r == Some(ToStringOf(v))
    ensures render == OrEmpty ==> (r.None? <==> (v.Num? && v.n != 0))
    ensures render == OrEmpty && r.Some? ==> r.value == TextOf(v)
  {
    match render
    case Stringify => Some(ToStringOf(v))
    case OrEmpty =>
      if !Truthy(v) then Some("")
      else if v.Str? then Some(v.s)
      else None
  }

  /** `text.toLowerCase().includes(search.toLowerCase())`. */
  predicate FieldMatches(text: string, search: string) {
    Contains(ToLower(text), ToLower(search))
  }

  /** The `||` chain over the column texts: Some(true) at the first text
      that matches, Some(false) when none does, None when a text before the
      first match cannot be computed. */
  function MatchTexts(texts: seq<Option<string>>, search: string): Option<bool>
  {
    if texts == [] then Some(false)
    else if texts[0].None? then None
    else if FieldMatches(texts[0].value, search) then Some(true)
    else MatchTexts(texts[1..], search)
  }

  /** When every text can be computed, the chain matches exactly when some
      text includes the search. */
  lemma {:induction false} MatchTextsTotal(texts: seq<Option<string>>, search: string)
    requires forall i :: 0 <= i < |texts| ==> texts[i].Some?
    ensures MatchTexts(texts, search).Some?
    ensures MatchTexts(texts, search).value <==>
              exists i :: 0 <= i < |texts| && FieldMatches(texts[i].value, search)
    decreases |texts|
  {
    if texts != [] && !FieldMatches(texts[0].value, search) {
      MatchTextsTotal(texts[1..], search);
      if exists i :: 0 <= i < |texts| && FieldMatches(texts[i].value, search) {
        var i :| 0 <= i < |texts| && FieldMatches(texts[i].value, search);
        assert i != 0;
        assert FieldMatches(texts[1..][i - 1].value, search);
      }
    }
  }

  /** The chain answers whenever every text can be computed, and answers
      yes only at a text that includes the search. */
  lemma {:induction false} MatchTextsFacts(texts: seq<Option<string>>, search: string)
    ensures (forall i :: 0 <= i < |texts| ==> texts[i].Some?) ==> MatchTexts(texts, search).Some?
    ensures MatchTexts(texts, search) == Some(true) ==>
              exists i :: 0 <= i < |texts| && texts[i].Some? && FieldMatches(texts[i].value, search)
    decreases |texts|
  {
    if texts != [] && texts[0].Some? && !FieldMatches(texts[0].value, search) {
      MatchTextsFacts(texts[1..], search);
      if MatchTexts(texts, search) == Some(true) {
        var i :| 0 <= i < |texts[1..]| && texts[1..][i].Some? && FieldMatches(texts[1..][i].value, search);
        assert texts[i + 1] == texts[1..][i];
      }
    }
  }

  /** With an empty search a readable first column already matches, so the
      row is kept and nothing after it is evaluated. */
  lemma EmptySearchMatches(texts: seq<Option<string>>)
    ensures texts != [] && texts[0].Some? ==> MatchTexts(texts, "") == Some(true)
  {
    if texts != [] && texts[0].Some? {
      ContainsEmpty(ToLower(texts[0].value));
    }
  }

  function RowTexts(cols: seq<SearchColumn>, row: Row): (r: seq<Option<string>>)
    ensures |r| == |cols|
    ensures forall i :: 0 <= i < |cols| ==> r[i] == ColumnText(cols[i].render, Get(row, cols[i].key))
  {
    seq(|cols|, i requires 0 <= i < |cols| => ColumnText(cols[i].render, Get(row, cols[i].key)))
  }

  /** The search over one row: throws (None) only where a column cannot be
      read, and matches only where a column includes the search text. */
  function MatchRow(cols: seq<SearchColumn>, row: Row, search: string): (r: Option<bool>)
    ensures Readable(cols, row) ==> r.Some?
    ensures r == Some(true) ==>
              exists i :: 0 <= i < |cols| && ColumnText(cols[i].render, Get(row, cols[i].key)).Some?
                && FieldMatches(ColumnText(cols[i].render, Get(row, cols[i].key)).value, search)
  {
    MatchTextsFacts(RowTexts(cols, row), search);
    MatchTexts(RowTexts(cols, row), search)
  }

  /** The search of a table as a row matcher. */
  function Matcher(cols: seq<SearchColumn>): (Row, string) -> Option<bool> {
    (row: Row, search: string) => MatchRow(cols, row, search)
  }

  /** A row the filter can read: no `||`-rendered column holds a non-zero number. */
  predicate Readable(cols: seq<SearchColumn>, row: Row) {
    forall i :: 0 <= i < |cols| ==> ColumnText(cols[i].render, Get(row, cols[i].key)).Some?
  }

  /** On a readable row the filter answers, and answers yes exactly when
      some search column includes the search text. */
  lemma MatchRowReadable(cols: seq<SearchColumn>, row: Row, search: string)
    requires Readable(cols, row)
    ensures MatchRow(cols, row, search).Some?
    ensures MatchRow(cols, row, search).value <==>
              exists i :: 0 <= i < |cols| && FieldMatches(RowTexts(cols, row)[i].value, search)
  {
    MatchTextsTotal(RowTexts(cols, row), search);
  }

  /** Fields outside the search columns do not affect the filter. */
  lemma MatchRowIgnoresOtherFields(cols: seq<SearchColumn>, row: Row, k: string, v: Value, search: string)
    requires forall i :: 0 <= i < |cols| ==> cols[i].key != k
    ensures MatchRow(cols, row[k := v], search) == MatchRow(cols, row, search)
  {
    assert RowTexts(cols, row[k := v]) == RowTexts(cols, row);
  }

  /** With an empty search the table keeps every row, readable or not, as
      long as the first column of each is readable. */
  lemma EmptySearchKeepsAll(cols: seq<SearchColumn>, rows: seq<Row>)
    requires cols != []
    requires forall r :: r in rows ==> ColumnText(cols[0].render, Get(r, cols[0].key)).Some?
    ensures FilterOrThrow(rows, Matcher(cols), "") == Some(rows)
  {
    forall r | r in rows
      ensures MatchRow(cols, r, "") == Some(true)
    {
      EmptySearchMatches(RowTexts(cols, r));
    }
    FilterOrThrowSpec(rows, Matcher(cols), "");
    Seqs.KeepAll(rows, (row: Row) => Accepts(Matcher(cols))(row, ""));
  }

  /** Searching for (part of) a readable row's column text finds the row. */
  lemma SearchFindsColumn(cols: seq<SearchColumn>, row: Row, i: nat, a: string, b: string, c: string)
    requires Readable(cols, row) && i < |cols|
    requires RowTexts(cols, row)[i] == Some(a + b + c)
    ensures MatchRow(cols, row, b) == Some(true)
  {
    ContainsInfix(a, b, c);
    ContainsLower(a + b + c, b);
    MatchRowReadable(cols, row, b);
  }

  // The search columns of the tables.

  /** Housing table: name, address and city with `||`, the number of
      employees through `toString`. */
  const AlojamentoColumns := [
    SearchColumn("invoice", OrEmpty), SearchColumn("endereco", OrEmpty),
    SearchColumn("cidade", OrEmpty), SearchColumn("qntdFuncionarios", Stringify)]

  const FuncionarioColumns := [
    SearchColumn("nome", OrEmpty), SearchColumn("cargo", OrEmpty), SearchColumn("setor", OrEmpty),
    SearchColumn("email", OrEmpty), SearchColumn("telefone", OrEmpty)]

  const ObraColumns := [
    SearchColumn("descricao", OrEmpty), SearchColumn("localizacao", OrEmpty),
    SearchColumn("dataInicio", OrEmpty), SearchColumn("dataFim", OrEmpty), SearchColumn("status", OrEmpty)]

  /** Vehicle table as written: the year goes through `||` like the text
      columns. */
  const VeiculoColumnsAsWritten := [
    SearchColumn("modelo", OrEmpty), SearchColumn("marca", OrEmpty), SearchColumn("ano", OrEmpty),
    SearchColumn("placa", OrEmpty), SearchColumn("status", OrEmpty)]

  /** Vehicle table with the year read through `toString`, as the housing
      table reads its employee count. */
  const VeiculoColumns := [
    SearchColumn("modelo", OrEmpty), SearchColumn("marca", OrEmpty), SearchColumn("ano", Stringify),
    SearchColumn("placa", OrEmpty), SearchColumn("status", OrEmpty)]

  /** A housing row whose text columns hold no numbers is readable
      whatever number it holds in its employee count. */
  lemma AlojamentoCountAnyNumber(row: Row, n: int)
    requires !Get(row, "invoice").Num? && !Get(row, "endereco").Num? && !Get(row, "cidade").Num?
    ensures Readable(AlojamentoColumns, row["qntdFuncionarios" := Num(n)])
  {
    var r := row["qntdFuncionarios" := Num(n)];
    assert Get(r, "invoice") == Get(row, "invoice");
    assert Get(r, "endereco") == Get(row, "endereco");
    assert Get(r, "cidade") == Get(row, "cidade");
  }

  /** As written, a vehicle with a numeric year makes a search for that
      year throw instead of finding it. */
  lemma VeiculoYearSearchThrows(row: Row)
    requires Get(row, "modelo") == Str("gol") && Get(row, "marca") == Str("vw")
    requires Get(row, "ano") == Num(2020)
    ensures MatchRow(VeiculoColumnsAsWritten, row, "2020") == None
  {
    var t := RowTexts(VeiculoColumnsAsWritten, row);
    assert t[0] == Some("gol") && |ToLower("gol")| == 3 && |ToLower("2020")| == 4;
    assert !FieldMatches("gol", "2020");
    assert t[1..][0] == Some("vw") && |ToLower("vw")| == 2;
    assert !FieldMatches("vw", "2020");
    assert MatchTexts(t, "2020") == MatchTexts(t[1..], "2020");
    assert MatchTexts(t[1..], "2020") == MatchTexts(t[1..][1..], "2020");
    assert t[1..][1..][0] == None;
  }

  /** One such vehicle anywhere in the table makes the whole search for its
      year throw, so nothing of the table is rendered. */
  lemma VeiculoYearSearchCrashesTable(rows: seq<Row>, row: Row)
    requires row in rows
    requires Get(row, "modelo") == Str("gol") && Get(row, "marca") == Str("vw")
    requires Get(row, "ano") == Num(2020)
    ensures FilterOrThrow(rows, Matcher(VeiculoColumnsAsWritten), "2020") == None
  {
    VeiculoYearSearchThrows(row);
    FilterOrThrowSpec(rows, Matcher(VeiculoColumnsAsWritten), "2020");
  }

  /** With the year read through `toString`, a vehicle whose text columns
      hold no numbers is readable whatever its year, and searching for its
      year finds it. */
  lemma VeiculoYearSearchFinds(row: Row, year: int)
    requires !Get(row, "modelo").Num? && !Get(row, "marca").Num?
    requires !Get(row, "placa").Num? && !Get(row, "status").Num?
    requires Get(row, "ano") == Num(year)
    ensures Readable(VeiculoColumns, row)
    ensures MatchRow(VeiculoColumns, row, IntToString(year)) == Some(true)
  {
    var y := IntToString(year);
    assert "" + y + "" == y;
    assert RowTexts(VeiculoColumns, row)[2] == Some("" + y + "");
    SearchFindsColumn(VeiculoColumns, row, 2, "", y, "");
  }
}
