/** The employee table: each employee row refers to a work site (`obra`)
    and a housing (`alojamento`) by id, the table shows and searches their
    names, resolved against the lists fetched alongside the employees. */
module Funcionarios {
  import opened Optional
  import opened Text
  import opened JsValue
  import opened ListView
  import opened TableFilters

  /** A work site or a housing as the lookup lists hold it. */
  datatype Named = Named(id: Value, nome: string)

  /** `list.find(o => o.id == id)`: the first entry whose id is loosely
      equal to `id`. */
  function FindById(list: seq<Named>, id: Value): (r: Option<Named>)
    ensures r.Some? ==> r.value in list && LooseEq(r.value.id, id)
    ensures r.None? ==> forall k :: 0 <= k < |list| ==> !LooseEq(list[k].id, id)
  {
    if list == [] then None
    else if LooseEq(list[0].id, id) then Some(list[0])
    else FindById(list[1..], id)
  }

  /** `getNomeObra` / `getNomeAlojamento`: "N/A" for a missing reference,
      the name of the entry found, or "ID: " and the id when none is. */
  function NomePorId(list: seq<Named>, id: Value): (r: string)
    ensures !Truthy(id) ==> r == "N/A"
    ensures Truthy(id) && FindById(list, id).None? ==> r == "ID: " + Display(id)
  {
    if !Truthy(id) then "N/A"
    else match FindById(list, id)
      case Some(entry) => entry.nome
      case None => "ID: " + Display(id)
  }

  /** The name shown is that of the first entry with a matching id. */
  lemma {:induction false} NomePorIdFirstMatch(list: seq<Named>, id: Value, k: nat)
    requires Truthy(id) && k < |list| && LooseEq(list[k].id, id)
    requires forall j :: 0 <= j < k ==> !LooseEq(list[j].id, id)
    ensures FindById(list, id) == Some(list[k])
    ensures NomePorId(list, id) == list[k].nome
    decreases k
  {
    if k > 0 {
      NomePorIdFirstMatch(list[1..], id, k - 1);
    }
  }

  /** The reference may be the id's decimal text: `==` converts it. */
  lemma NomePorIdTextReference(nome: string, n: int)
    requires n != 0
    ensures NomePorId([Named(Num(n), nome)], Str(IntToString(n))) == nome
  {
  }

  /** `Number` also reads padded text with leading zeros: " 03" refers to
      the entry with id 3. */
  lemma NomePorIdPaddedReference(nome: string)
    ensures NomePorId([Named(Num(3), nome)], Str(" 03")) == nome
  {
    PaddedThree();
    assert LooseEq(Num(3), Str(" 03"));
  }

  lemma PaddedThree()
    ensures StrToNumber(" 03") == Some(3)
  {
    TrimPaddedThree();
    ReadThree();
  }

  lemma ReadThree()
    ensures ReadInteger("03") == Some(3)
  {
    assert ParseNat("03") == 3 by {
      assert "03"[..1] == "0" && "0"[..0] == "";
    }
    assert "03"[0] == '0' && AllDigits("03");
  }

  lemma TrimPaddedThree()
    ensures Trim(" 03") == "03"
  {
    var t := " 03";
    assert TrimStart(t) == "03" by {
      assert IsSpace(t[0]) && t[1..] == "03" && !IsSpace('0');
    }
    assert TrimEnd("03") == "03" by {
      assert !IsSpace('3');
    }
  }

  /** A reference matching no entry shows the raw id. */
  lemma NomePorIdUnknown(list: seq<Named>, n: int)
    requires n != 0
    requires forall k :: 0 <= k < |list| ==> !LooseEq(list[k].id, Num(n))
    ensures NomePorId(list, Num(n)) == "ID: " + IntToString(n)
  {
  }

  /** The texts searched, left to right: full name and CPF with `||`, then
      the housing name and the site name. */
  function FuncionarioTexts(obras: seq<Named>, alojamentos: seq<Named>, row: Row): (r: seq<Option<string>>)
    ensures |r| == 4
    ensures r[2] == Some(NomePorId(alojamentos, Get(row, "alojamento")))
    ensures r[3] == Some(NomePorId(obras, Get(row, "obra")))
  {
    [ColumnText(OrEmpty, Get(row, "nome_completo")), ColumnText(OrEmpty, Get(row, "cpf")),
     Some(NomePorId(alojamentos, Get(row, "alojamento"))), Some(NomePorId(obras, Get(row, "obra")))]
  }

  /** The employee search over one row: it never throws on a readable
      row, where the empty search matches; it matches only where one of the
      four texts includes the search. */
  function MatchFuncionario(obras: seq<Named>, alojamentos: seq<Named>, row: Row, search: string): (r: Option<bool>)
    ensures Readable(row) ==> r.Some?
    ensures Readable(row) && search == "" ==> r == Some(true)
    ensures r == Some(true) ==>
              exists i :: 0 <= i < 4 && FuncionarioTexts(obras, alojamentos, row)[i].Some?
                && FieldMatches(FuncionarioTexts(obras, alojamentos, row)[i].value, search)
  {
    var texts := FuncionarioTexts(obras, alojamentos, row);
    MatchTextsFacts(texts, search);
    EmptySearchMatches(texts);
    MatchTexts(texts, search)
  }

  /** The employee table's search for given lookup lists. */
  function Matcher(obras: seq<Named>, alojamentos: seq<Named>): (Row, string) -> Option<bool> {
    (row: Row, search: string) => MatchFuncionario(obras, alojamentos, row, search)
  }

  /** Name and CPF hold no numbers, so the search never throws. */
  predicate Readable(row: Row) {
    !Get(row, "nome_completo").Num? && !Get(row, "cpf").Num?
  }

  /** Searching a site's name finds every employee assigned to it. */
  lemma SearchSiteNameFinds(obras: seq<Named>, alojamentos: seq<Named>, row: Row, k: nat)
    requires Readable(row)
    requires Truthy(Get(row, "obra")) && k < |obras| && LooseEq(obras[k].id, Get(row, "obra"))
    requires forall j :: 0 <= j < k ==> !LooseEq(obras[j].id, Get(row, "obra"))
    ensures MatchFuncionario(obras, alojamentos, row, obras[k].nome) == Some(true)
  {
    var texts := FuncionarioTexts(obras, alojamentos, row);
    NomePorIdFirstMatch(obras, Get(row, "obra"), k);
    MatchTextsTotal(texts, obras[k].nome);
    ContainsInfix("", ToLower(obras[k].nome), "");
    assert "" + ToLower(obras[k].nome) + "" == ToLower(obras[k].nome);
    assert FieldMatches(texts[3].value, obras[k].nome);
  }

  /** An employee with neither site nor housing is found by searching "N/A". */
  lemma SearchPlaceholderFindsUnassigned(obras: seq<Named>, alojamentos: seq<Named>, row: Row)
    requires Readable(row)
    requires !Truthy(Get(row, "obra")) && !Truthy(Get(row, "alojamento"))
    ensures MatchFuncionario(obras, alojamentos, row, "N/A") == Some(true)
  {
    var texts := FuncionarioTexts(obras, alojamentos, row);
    MatchTextsTotal(texts, "N/A");
    assert ToLower("N/A") == "n/a";
    assert OccursAt(ToLower("N/A"), ToLower("N/A"), 0);
    assert FieldMatches(texts[2].value, "N/A");
  }
}
