/** The list pipeline shared by the dashboard tables: free-text filter, a
    sort on one column chosen by clicking its header, ten rows per page,
    and deletion of the row selected in a confirmation modal. */
module ListView {
  import opened Optional
  import opened Seqs
  import opened JsValue

  /** A row as fetched from the backend: field name to field value. */
  type Row = map<string, Value>

  /** `row[key]`, `undefined` when the field is absent. */
  function Get(row: Row, key: string): (v: Value)
    ensures key !in row ==> v == Undef
  {
    if key in row then row[key] else Undef
  }

  function Max(a: int, b: int): int { if a < b then b else a }
  function Min(a: int, b: int): int { if a < b then a else b }

  // ---------------------------------------------------------------------
  // Sorting
  // ---------------------------------------------------------------------

  datatype Direction = Asc | Desc

  datatype SortConfig = SortConfig(key: string, direction: Direction)

  /** The column whose header does not sort. */
  const ActionsColumn := "actions"

  function Flip(d: Direction): (r: Direction)
    ensures r != d
  {
    if d == Asc then Desc else Asc
  }

  /** A click on the header of column `key`: the actions column is ignored,
      the current sort column flips direction, any other column starts
      ascending. */
  function NextSortConfig(prev: Option<SortConfig>, key: string): (r: Option<SortConfig>)
    ensures key == ActionsColumn ==> r == prev
    ensures key != ActionsColumn ==> r.Some? && r.value.key == key
    ensures key != ActionsColumn && prev.Some? && prev.value.key == key ==>
              r.value.direction == Flip(prev.value.direction)
    ensures key != ActionsColumn && !(prev.Some? && prev.value.key == key) ==>
              r.value.direction == Asc
  {
    if key == ActionsColumn then prev
    else if prev.Some? && prev.value.key == key then Some(SortConfig(key, Flip(prev.value.direction)))
    else Some(SortConfig(key, Asc))
  }

  /** Clicking the sorted column twice restores the sort. */
  lemma SortClickTwiceRestores(prev: Option<SortConfig>, key: string)
    requires prev.Some? && prev.value.key == key
    ensures NextSortConfig(NextSortConfig(prev, key), key) == prev
  {
  }

  /** Two clicks on a column that is not sorted yet sort it descending. */
  lemma SortClickTwiceOnNewColumn(prev: Option<SortConfig>, key: string)
    requires key != ActionsColumn && !(prev.Some? && prev.value.key == key)
    ensures NextSortConfig(NextSortConfig(prev, key), key) == Some(SortConfig(key, Desc))
  {
  }

  /** Under the comparator of the sort, `a` goes strictly before `b`. */
  predicate Before(c: SortConfig, a: Row, b: Row) {
    if c.direction == Asc then Less(Get(a, c.key), Get(b, c.key))
    else Less(Get(b, c.key), Get(a, c.key))
  }

  /** Places `x` after the leading rows that go strictly before it; a row
      equal to `x` under the comparator stays behind `x`, which came first. */
  function Insert(c: SortConfig, x: Row, s: seq<Row>): (r: seq<Row>)
    ensures multiset(r) == multiset(s) + multiset{x}
    ensures |r| == |s| + 1
  {
    if s == [] then [x]
    else if Before(c, s[0], x) then
      (assert s == [s[0]] + s[1..]; [s[0]] + Insert(c, x, s[1..]))
    else (assert [x] + s == [x] + ([s[0]] + s[1..]); [x] + s)
  }

  /** A stable sort under `c`: rows the comparator ties keep their order. */
  function InsertionSort(c: SortConfig, s: seq<Row>): (r: seq<Row>)
    ensures multiset(r) == multiset(s)
    ensures |r| == |s|
  {
    if s == [] then []
    else (assert s == [s[0]] + s[1..]; Insert(c, s[0], InsertionSort(c, s[1..])))
  }

  /** `sortData`: no sort chosen returns the rows as they are. */
  function SortData(rows: seq<Row>, cfg: Option<SortConfig>): (r: seq<Row>)
    ensures multiset(r) == multiset(rows)
    ensures |r| == |rows|
    ensures cfg.None? ==> r == rows
  {
    if cfg.None? then rows else InsertionSort(cfg.value, rows)
  }

  predicate SortedBy(c: SortConfig, s: seq<Row>) {
    forall i, j :: 0 <= i < j < |s| ==> !Before(c, s[j], s[i])
  }

  /** The column `key` holds a number or `null` in every row, or a string
      in every row. */
  predicate UniformColumn(key: string, rows: seq<Row>) {
    (forall r :: r in rows ==> Numeric(Get(r, key))) || (forall r :: r in rows ==> Get(r, key).Str?)
  }

  lemma UniformSub(key: string, small: seq<Row>, big: seq<Row>)
    requires UniformColumn(key, big)
    requires forall r :: r in small ==> r in big
    ensures UniformColumn(key, small)
  {
  }

  lemma BeforeAsymmetric(c: SortConfig, a: Row, b: Row)
    requires Before(c, a, b)
    ensures !Before(c, b, a)
  {
    if c.direction == Asc {
      LessAsymmetric(Get(a, c.key), Get(b, c.key));
    } else {
      LessAsymmetric(Get(b, c.key), Get(a, c.key));
    }
  }

  /** On a uniform column, "not before" chains. */
  lemma NotBeforeTransitive(c: SortConfig, a: Row, b: Row, d: Row, rows: seq<Row>)
    requires UniformColumn(c.key, rows) && a in rows && b in rows && d in rows
    requires !Before(c, b, a) && !Before(c, d, b)
    ensures !Before(c, d, a)
  {
    var ka, kb, kd := Get(a, c.key), Get(b, c.key), Get(d, c.key);
    assert Comparable(ka, kb) && Comparable(kb, kd);
    if c.direction == Asc {
      NotLessTransitive(ka, kb, kd);
    } else {
      NotLessTransitive(kd, kb, ka);
    }
  }

  /** Every row of `Insert(c, x, s)` is `x` or a row of `s`. */
  lemma InsertMembers(c: SortConfig, x: Row, s: seq<Row>, y: Row)
    requires y in Insert(c, x, s)
    ensures y == x || y in s
  {
    assert y in multiset(Insert(c, x, s));
  }

  lemma {:induction false} InsertSorted(c: SortConfig, x: Row, s: seq<Row>)
    requires SortedBy(c, s) && UniformColumn(c.key, [x] + s)
    ensures SortedBy(c, Insert(c, x, s))
    decreases |s|
  {
    if s == [] {
    } else if Before(c, s[0], x) {
      var rest := s[1..];
      UniformSub(c.key, [x] + rest, [x] + s);
      InsertSorted(c, x, rest);
      var t := Insert(c, x, rest);
      forall j | 0 <= j < |t|
        ensures !Before(c, t[j], s[0])
      {
        InsertMembers(c, x, rest, t[j]);
        if t[j] == x {
          BeforeAsymmetric(c, s[0], x);
        } else {
          var k :| 0 <= k < |rest| && rest[k] == t[j];
          assert s[k + 1] == t[j];
        }
      }
      assert Insert(c, x, s) == [s[0]] + t;
    } else {
      forall j | 0 <= j < |s|
        ensures !Before(c, s[j], x)
      {
        if j > 0 {
          NotBeforeTransitive(c, x, s[0], s[j], [x] + s);
        }
      }
    }
  }

  /** On a column of numbers and nulls only, or of strings only, the sort
      orders the rows by that column. */
  lemma {:induction false} InsertionSortSorted(c: SortConfig, s: seq<Row>)
    requires UniformColumn(c.key, s)
    ensures SortedBy(c, InsertionSort(c, s))
    decreases |s|
  {
    if s != [] {
      UniformSub(c.key, s[1..], s);
      InsertionSortSorted(c, s[1..]);
      var t := InsertionSort(c, s[1..]);
      forall r | r in [s[0]] + t
        ensures r in s
      {
        if r != s[0] {
          assert r in multiset(t);
        }
      }
      UniformSub(c.key, [s[0]] + t, s);
      InsertSorted(c, s[0], t);
    }
  }

  lemma SortDataSorted(rows: seq<Row>, c: SortConfig)
    requires UniformColumn(c.key, rows)
    ensures SortedBy(c, SortData(rows, Some(c)))
  {
    InsertionSortSorted(c, rows);
  }

  /** A `null` in a numeric column sorts as 0: 3, null, 1 ascending gives
      null, 1, 3. */
  lemma SortNumbersWithNull(key: string)
    ensures SortData([map[key := Num(3)], map[key := Null], map[key := Num(1)]], Some(SortConfig(key, Asc)))
         == [map[key := Null], map[key := Num(1)], map[key := Num(3)]]
  {
    var c := SortConfig(key, Asc);
    var a, b, d := map[key := Num(3)], map[key := Null], map[key := Num(1)];
    assert InsertionSort(c, [d]) == [d];
    assert [b, d][1..] == [d];
    assert InsertionSort(c, [b, d]) == Insert(c, b, [d]) == [b, d];
    assert Insert(c, a, [d]) == [d, a];
    assert Insert(c, a, [b, d]) == [b] + Insert(c, a, [d]);
    assert [a, b, d][1..] == [b, d];
  }

  /** The rows whose field `key` holds `v`, in order. */
  function WithValue(rows: seq<Row>, key: string, v: Value): (r: seq<Row>)
    ensures forall i :: 0 <= i < |r| ==> Get(r[i], key) == v
  {
    if rows == [] then []
    else (if Get(rows[0], key) == v then [rows[0]] else []) + WithValue(rows[1..], key, v)
  }

  lemma WithValueCons(r: Row, t: seq<Row>, key: string, v: Value)
    ensures WithValue([r] + t, key, v) == (if Get(r, key) == v then [r] else []) + WithValue(t, key, v)
  {
    assert ([r] + t)[1..] == t;
  }

  /** Moving `x` past a row `y` that does not hold the same value keeps
      the order of the rows that hold `v`. */
  lemma WithValuePast(x: Row, y: Row, rest: seq<Row>, t: seq<Row>, key: string, v: Value)
    requires Get(x, key) != v || Get(y, key) != v
    requires WithValue(t, key, v) == (if Get(x, key) == v then [x] else []) + WithValue(rest, key, v)
    ensures WithValue([y] + t, key, v) == (if Get(x, key) == v then [x] else []) + WithValue([y] + rest, key, v)
  {
    WithValueCons(y, t, key, v);
    WithValueCons(y, rest, key, v);
  }

  lemma {:induction false} InsertStable(c: SortConfig, x: Row, s: seq<Row>, v: Value)
    ensures WithValue(Insert(c, x, s), c.key, v)
         == (if Get(x, c.key) == v then [x] else []) + WithValue(s, c.key, v)
    decreases |s|
  {
    if s == [] {
      WithValueCons(x, [], c.key, v);
    } else if Before(c, s[0], x) {
      InsertStable(c, x, s[1..], v);
      // x and s[0] cannot both hold v: s[0] goes strictly before x.
      LessIrreflexive(Get(x, c.key));
      WithValuePast(x, s[0], s[1..], Insert(c, x, s[1..]), c.key, v);
      assert Insert(c, x, s) == [s[0]] + Insert(c, x, s[1..]);
      assert [s[0]] + s[1..] == s;
    } else {
      assert Insert(c, x, s) == [x] + s;
      WithValueCons(x, s, c.key, v);
    }
  }

  /** Stability: among the rows holding the same value in the sort column,
      the sort keeps the original order. */
  lemma {:induction false} InsertionSortStable(c: SortConfig, s: seq<Row>, v: Value)
    ensures WithValue(InsertionSort(c, s), c.key, v) == WithValue(s, c.key, v)
    decreases |s|
  {
    if s != [] {
      InsertionSortStable(c, s[1..], v);
      InsertStable(c, s[0], InsertionSort(c, s[1..]), v);
    }
  }

  lemma SortDataStable(rows: seq<Row>, cfg: Option<SortConfig>, v: Value)
    requires cfg.Some?
    ensures WithValue(SortData(rows, cfg), cfg.value.key, v) == WithValue(rows, cfg.value.key, v)
  {
    InsertionSortStable(cfg.value, rows, v);
  }

  /** Sorting by a column no row has leaves the rows as they are. */
  lemma SortByMissingColumn(rows: seq<Row>, c: SortConfig)
    requires forall r :: r in rows ==> c.key !in r
    ensures SortData(rows, Some(c)) == rows
  {
    InsertionSortStable(c, rows, Undef);
    AllUndef(rows, c.key);
    var sorted := InsertionSort(c, rows);
    forall r | r in sorted
      ensures Get(r, c.key) == Undef
    {
      assert r in multiset(sorted);
    }
    AllUndef(sorted, c.key);
  }

  lemma {:induction false} AllUndef(rows: seq<Row>, key: string)
    requires forall r :: r in rows ==> Get(r, key) == Undef
    ensures WithValue(rows, key, Undef) == rows
    decreases |rows|
  {
    if rows != [] {
      AllUndef(rows[1..], key);
      assert [rows[0]] + rows[1..] == rows;
    }
  }

  // ---------------------------------------------------------------------
  // Pagination
  // ---------------------------------------------------------------------

  const ItemsPerPage := 10

  /** `Math.ceil(n / itemsPerPage)`. */
  function TotalPages(n: nat): (p: nat)
    ensures p * ItemsPerPage >= n
    ensures p > 0 ==> (p - 1) * ItemsPerPage < n
    ensures p == 0 <==> n == 0
  {
    (n + ItemsPerPage - 1) / ItemsPerPage
  }

  /** How `Array.prototype.slice` resolves one of its indices. */
  function SliceIndex(i: int, len: nat): (r: nat)
    ensures r <= len
    ensures 0 <= i ==> r == Min(i, len)
  {
    if i < 0 then (if len + i < 0 then 0 else len + i)
    else if i > len then len
    else i
  }

  /** `s.slice(start, end)`. */
  function Slice<T>(s: seq<T>, start: int, end: int): (r: seq<T>)
    ensures |r| <= |s|
  {
    var from, to := SliceIndex(start, |s|), SliceIndex(end, |s|);
    if from < to then s[from..to] else []
  }

  /** The rows shown on page `page` (counted from 1). */
  function PageSlice<T>(rows: seq<T>, page: int): (r: seq<T>)
    ensures |r| <= ItemsPerPage
    ensures 1 <= page ==>
              r == rows[Min((page - 1) * ItemsPerPage, |rows|)..Min(page * ItemsPerPage, |rows|)]
  {
    Slice(rows, (page - 1) * ItemsPerPage, page * ItemsPerPage)
  }

  /** A page between 1 and the page count shows at least one row; a page
      past the count shows none. */
  lemma PageNonEmpty<T>(rows: seq<T>, page: int)
    requires 1 <= page
    ensures PageSlice(rows, page) != [] <==> page <= TotalPages(|rows|)
  {
  }

  /** Pages 1..k shown one after another. */
  function Pages<T>(rows: seq<T>, k: nat): seq<T> {
    if k == 0 then [] else Pages(rows, k - 1) + PageSlice(rows, k)
  }

  lemma {:induction false} PagesPrefix<T>(rows: seq<T>, k: nat)
    ensures Pages(rows, k) == rows[..Min(k * ItemsPerPage, |rows|)]
  {
    if k > 0 {
      PagesPrefix(rows, k - 1);
      var a, b := Min((k - 1) * ItemsPerPage, |rows|), Min(k * ItemsPerPage, |rows|);
      assert rows[..a] + rows[a..b] == rows[..b];
    }
  }

  /** Paging through every page shows every row once, in order. */
  lemma PagesCoverRows<T>(rows: seq<T>)
    ensures Pages(rows, TotalPages(|rows|)) == rows
  {
    PagesPrefix(rows, TotalPages(|rows|));
  }

  /** The current page is a page the controls can show: between 1 and the
      page count, or 1 when there are no pages. */
  predicate PageInRange(page: int, total: nat) {
    1 <= page <= Max(1, total)
  }

  /** "Anterior": `Math.max(1, p - 1)`, with the button disabled on page 1. */
  function PreviousPage(page: int): (r: int)
    ensures r >= 1
    ensures 1 <= page ==> r == Max(1, page - 1)
    ensures forall total: nat :: PageInRange(page, total) ==> PageInRange(r, total)
  {
    if page == 1 then page else Max(1, page - 1)
  }

  /** "Próxima" as written: `Math.min(totalPages, p + 1)`, with the button
      disabled when the current page equals the page count. */
  function NextPageAsWritten(page: int, total: nat): (r: int)
    ensures page != total ==> r <= total
    ensures page < total ==> r == page + 1
  {
    if page == total then page else Min(total, page + 1)
  }

  /** With no rows the count is 0, the button stays enabled on page 1 and
      a click moves to page 0, before the first page. */
  lemma NextPageAsWrittenLeavesRange()
    ensures PageInRange(1, TotalPages(0))
    ensures NextPageAsWritten(1, TotalPages(0)) == 0
    ensures !PageInRange(NextPageAsWritten(1, TotalPages(0)), TotalPages(0))
  {
  }

  /** "Próxima", never going below page 1. */
  function NextPage(page: int, total: nat): (r: int)
    ensures PageInRange(page, total) ==> PageInRange(r, total)
    ensures 1 <= page < total ==> r == page + 1
    ensures total <= page ==> r == page || r == Max(1, total)
  {
    if page == total then page else Max(1, Min(total, page + 1))
  }

  /** The current page brought back into range after the rows changed. */
  function ClampPage(page: int, total: nat): (r: int)
    ensures PageInRange(r, total)
    ensures PageInRange(page, total) ==> r == page
  {
    Max(1, Min(page, total))
  }

  // ---------------------------------------------------------------------
  // Filtering and deletion
  // ---------------------------------------------------------------------

  /** The rows a search text selects, given a table's row matcher. */
  function FilterRows(rows: seq<Row>, matches: (Row, string) -> bool, search: string): (r: seq<Row>)
    ensures |r| <= |rows|
    ensures forall i :: 0 <= i < |r| ==> r[i] in rows && matches(r[i], search)
    ensures forall i :: 0 <= i < |rows| && matches(rows[i], search) ==> rows[i] in r
  {
    Keep(rows, (row: Row) => matches(row, search))
  }

  lemma FilterRowsIsSubseq(rows: seq<Row>, matches: (Row, string) -> bool, search: string)
    ensures IsSubseq(FilterRows(rows, matches, search), rows)
  {
    KeepIsSubseq(rows, (row: Row) => matches(row, search));
  }

  /** A row matcher that may throw a TypeError, as None, read as a filter
      predicate: the rows it answers yes for. */
  function Accepts(matches: (Row, string) -> Option<bool>): (Row, string) -> bool {
    (row: Row, search: string) => matches(row, search) == Some(true)
  }

  /** `rows.filter(row => matches(row, search))` with a matcher that may
      throw: a throw on any row aborts the whole filter, and with it the
      render. */
  function FilterOrThrow(rows: seq<Row>, matches: (Row, string) -> Option<bool>, search: string): Option<seq<Row>>
    decreases |rows|
  {
    if rows == [] then Some([])
    else
      var rest := FilterOrThrow(rows[1..], matches, search);
      match matches(rows[0], search)
      case None => None
      case Some(b) => if rest.None? then None else Some((if b then [rows[0]] else []) + rest.value)
  }

  /** The filter throws exactly when the matcher throws on some row;
      otherwise it keeps the rows the matcher accepts. */
  lemma {:induction false} FilterOrThrowSpec(rows: seq<Row>, matches: (Row, string) -> Option<bool>, search: string)
    ensures FilterOrThrow(rows, matches, search).Some? <==> forall row :: row in rows ==> matches(row, search).Some?
    ensures FilterOrThrow(rows, matches, search).Some? ==>
              FilterOrThrow(rows, matches, search).value == FilterRows(rows, Accepts(matches), search)
    decreases |rows|
  {
    if rows != [] {
      FilterOrThrowSpec(rows[1..], matches, search);
      assert rows == [rows[0]] + rows[1..];
    }
  }

  /** The list without the deleted item: every row whose `id` differs. */
  function RemoveById(rows: seq<Row>, id: Value): (r: seq<Row>)
    ensures |r| <= |rows|
    ensures forall i :: 0 <= i < |r| ==> r[i] in rows && Get(r[i], "id") != id
    ensures forall i :: 0 <= i < |rows| && Get(rows[i], "id") != id ==> rows[i] in r
  {
    Keep(rows, (row: Row) => Get(row, "id") != id)
  }

  /** Deletion removes exactly the rows carrying the deleted id, and keeps
      the others in order. */
  lemma {:induction false} RemoveByIdCount(rows: seq<Row>, id: Value)
    ensures |RemoveById(rows, id)| + |WithValue(rows, "id", id)| == |rows|
    ensures IsSubseq(RemoveById(rows, id), rows)
    decreases |rows|
  {
    KeepIsSubseq(rows, (row: Row) => Get(row, "id") != id);
    if rows != [] {
      RemoveByIdCount(rows[1..], id);
    }
  }

  /** The page left behind as written: with eleven visible rows on page 2,
      deleting the eleventh keeps page 2, which no longer exists and shows
      nothing though rows remain. */
  lemma DeleteLeavesEmptyPage(first: seq<Row>, last: Row, id: Value)
    requires |first| == ItemsPerPage
    requires forall r :: r in first ==> Get(r, "id") != id
    requires Get(last, "id") == id
    ensures RemoveById(first + [last], id) == first
    ensures !PageInRange(2, TotalPages(|RemoveById(first + [last], id)|))
    ensures PageSlice(RemoveById(first + [last], id), 2) == []
    ensures PageInRange(2, TotalPages(|first + [last]|))
  {
    var p := (row: Row) => Get(row, "id") != id;
    KeepAppend(first, [last], p);
    KeepAll(first, p);
    assert Keep([last], p) == [];
  }

  /** The same deletion with the page clamped lands on the last page, which
      shows rows. */
  lemma DeleteThenClampShowsRows(rows: seq<Row>, id: Value, page: int)
    requires RemoveById(rows, id) != []
    ensures PageSlice(RemoveById(rows, id), ClampPage(page, TotalPages(|RemoveById(rows, id)|))) != []
  {
    var n := |RemoveById(rows, id)|;
    PageNonEmpty(RemoveById(rows, id), ClampPage(page, TotalPages(n)));
  }

  // ---------------------------------------------------------------------
  // The table component
  // ---------------------------------------------------------------------

  /** The outcome of the fetch that loads a table. */
  datatype Fetch =
    | Fetched(rows: seq<Row>)  // the response was ok
    | NotOk                    // the backend answered with an error status
    | Unreachable              // the request threw

  const LoadError := "Erro ao carregar dados"

  /** What a table renders. */
  datatype Screen =
    | Page(rows: seq<Row>)   // the current page of the sorted, filtered rows
    | Message(text: string)  // the load error in place of the list
    | Crashed                // the search threw while filtering

  /** A table component: its rows, search text, sort, current page, delete
      modal and load error, with the handlers that change them. */
  class TableView {
    /** The table's search: does this row match the search text? None
        where it throws. */
    const matches: (Row, string) -> Option<bool>
    /** Whether the table renders its load error in place of the list (the
        employee table does; the tables of the housing page set the error
        and never show it). */
    const showsError: bool
    var data: seq<Row>
    var error: string
    var sortConfig: Option<SortConfig>
    var filter: string
    var currentPage: int
    var showDeleteModal: bool
    var selectedItem: Option<Row>
    var isDeleting: bool

    function Filtered(): Option<seq<Row>>
      reads this`data, this`filter
    {
      FilterOrThrow(data, matches, filter)
    }

    /** The rows the sort and the page count work on: the filtered rows, or
        none when the search throws. */
    function Listed(): seq<Row>
      reads this`data, this`filter
    {
      if Filtered().Some? then Filtered().value else []
    }

    function SortedRows(): seq<Row>
      reads this`data, this`filter, this`sortConfig
    {
      SortData(Listed(), sortConfig)
    }

    function PageCount(): nat
      reads this`data, this`filter
    {
      TotalPages(|Listed()|)
    }

    /** What is on screen. The filter runs before the error is looked at,
        so a throwing search wins over the error message. */
    function Shown(): (r: Screen)
      reads this
      ensures r.Crashed? <==> exists row :: row in data && matches(row, filter).None?
      ensures r.Message? <==> !r.Crashed? && showsError && error != ""
      ensures r.Message? ==> r.text == error
      ensures r.Page? ==> |r.rows| <= ItemsPerPage
    {
      FilterOrThrowSpec(data, matches, filter);
      if Filtered().None? then Crashed
      else if showsError && error != "" then Message(error)
      else Page(PageSlice(SortedRows(), currentPage))
    }

    predicate Valid()
      reads this
    {
      PageInRange(currentPage, PageCount()) && !isDeleting
    }

    /** With rows to list, a valid table never shows an empty page. */
    lemma ShowsRowsWhenAny()
      requires Valid() && Listed() != [] && Shown().Page?
      ensures Shown().rows != []
    {
      PageNonEmpty(SortedRows(), currentPage);
    }

    constructor(matches: (Row, string) -> Option<bool>, showsError: bool)
      ensures this.matches == matches && this.showsError == showsError
      ensures data == [] && error == "" && sortConfig == None && filter == "" && currentPage == 1
      ensures !showDeleteModal && selectedItem == None && !isDeleting
      ensures Valid()
    {
      this.matches := matches;
      this.showsError := showsError;
      data := [];
      error := "";
      sortConfig := None;
      filter := "";
      currentPage := 1;
      showDeleteModal := false;
      selectedItem := None;
      isDeleting := false;
    }

    /** The fetched rows replace the data; a failed request leaves none, and
        one that throws also sets the error, which nothing clears. The page
        is brought back into range. */
    method Load(fetch: Fetch)
      requires Valid()
      modifies this
      ensures data == (if fetch.Fetched? then fetch.rows else [])
      ensures error == (if fetch.Unreachable? then LoadError else old(error))
      ensures currentPage == ClampPage(old(currentPage), PageCount())
      ensures sortConfig == old(sortConfig) && filter == old(filter)
      ensures showDeleteModal == old(showDeleteModal) && selectedItem == old(selectedItem)
      ensures isDeleting == old(isDeleting)
      ensures Valid()
    {
      data := if fetch.Fetched? then fetch.rows else [];
      if fetch.Unreachable? {
        error := LoadError;
      }
      currentPage := ClampPage(currentPage, PageCount());
    }

    /** A click on a column header. */
    method HandleSort(key: string)
      requires Valid()
      modifies this
      ensures sortConfig == NextSortConfig(old(sortConfig), key)
      ensures data == old(data) && error == old(error) && filter == old(filter)
      ensures currentPage == old(currentPage)
      ensures showDeleteModal == old(showDeleteModal) && selectedItem == old(selectedItem)
      ensures isDeleting == old(isDeleting)
      ensures multiset(SortedRows()) == multiset(old(SortedRows()))
      ensures Valid()
    {
      sortConfig := NextSortConfig(sortConfig, key);
    }

    /** Typing in the search box goes back to page 1. */
    method SetFilter(text: string)
      requires Valid()
      modifies this
      ensures filter == text && currentPage == 1
      ensures data == old(data) && error == old(error) && sortConfig == old(sortConfig)
      ensures showDeleteModal == old(showDeleteModal) && selectedItem == old(selectedItem)
      ensures isDeleting == old(isDeleting)
      ensures Valid()
    {
      filter := text;
      currentPage := 1;
    }

    method Previous()
      requires Valid()
      modifies this
      ensures currentPage == PreviousPage(old(currentPage))
      ensures data == old(data) && error == old(error)
      ensures sortConfig == old(sortConfig) && filter == old(filter)
      ensures showDeleteModal == old(showDeleteModal) && selectedItem == old(selectedItem)
      ensures isDeleting == old(isDeleting)
      ensures Valid()
    {
      currentPage := PreviousPage(currentPage);
    }

    method Next()
      requires Valid()
      modifies this
      ensures currentPage == NextPage(old(currentPage), PageCount())
      ensures data == old(data) && error == old(error)
      ensures sortConfig == old(sortConfig) && filter == old(filter)
      ensures showDeleteModal == old(showDeleteModal) && selectedItem == old(selectedItem)
      ensures isDeleting == old(isDeleting)
      ensures Valid()
    {
      currentPage := NextPage(currentPage, PageCount());
    }

    method OpenDeleteModal(item: Row)
      requires Valid()
      modifies this
      ensures selectedItem == Some(item) && showDeleteModal
      ensures data == old(data) && error == old(error)
      ensures sortConfig == old(sortConfig) && filter == old(filter)
      ensures currentPage == old(currentPage) && isDeleting == old(isDeleting)
      ensures Valid()
    {
      selectedItem := Some(item);
      showDeleteModal := true;
    }

    method CloseDeleteModal()
      requires Valid()
      modifies this
      ensures selectedItem == None && !showDeleteModal
      ensures data == old(data) && error == old(error)
      ensures sortConfig == old(sortConfig) && filter == old(filter)
      ensures currentPage == old(currentPage) && isDeleting == old(isDeleting)
      ensures Valid()
    {
      selectedItem := None;
      showDeleteModal := false;
    }

    /** Confirming the deletion. `request` is the id a DELETE request is
        sent for (none without a selected item); `ok` is whether the
        backend accepted it. On success the row leaves the list and the
        modal closes; on failure the modal stays open. */
    method HandleDelete(ok: bool) returns (request: Option<Value>)
      requires Valid()
      modifies this
      ensures old(selectedItem).None? ==> request == None && data == old(data)
      ensures old(selectedItem).Some? ==> request == Some(Get(old(selectedItem).value, "id"))
      ensures request.Some? && ok ==>
                data == RemoveById(old(data), request.value)
                && !showDeleteModal && selectedItem == None
                && currentPage == ClampPage(old(currentPage), PageCount())
      ensures !(request.Some? && ok) ==>
                data == old(data) && showDeleteModal == old(showDeleteModal)
                && selectedItem == old(selectedItem) && currentPage == old(currentPage)
      ensures error == old(error) && sortConfig == old(sortConfig) && filter == old(filter)
      ensures Valid()
    {
      if selectedItem.None? {
        return None;
      }
      var id := Get(selectedItem.value, "id");
      request := Some(id);
      isDeleting := true;
      if ok {
        data := RemoveById(data, id);
        currentPage := ClampPage(currentPage, PageCount());
        showDeleteModal := false;
        selectedItem := None;
      }
      isDeleting := false;
    }
  }
}
