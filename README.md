# 5guys dashboard: a Dafny model of its list, map and form logic

This project models the logic of the 5guys logistics dashboard, a web front end. It covers three groups of components:

- **The tables.**
  - The housing, employee, work-site and vehicle tables (`TabelaAlojamentos`, `TabelaFuncionarios`, `TabelaObras`, `TabelaVeiculos`).
  - The route table (`RotasTable`).
  - The transport table (`TransporteTable`).
  - What they share: a search box, a sort on the clicked column and ten rows per page. The housing and employee tables also delete the row selected in a confirmation modal; the work-site and vehicle tables only list.
  - The employee table shows its loading error in place of the list; a search that throws a TypeError takes the whole table down.
- **The maps.**
  - The work-site map (`MapaObras`): which sites it keeps, its centre and its zoom.
  - The housing map (`MapaAlojamentos`): which housings it keeps, its centre and its bounds.
  - The transport route map (`MapaRotaReal`). It turns a route into markers, coloured segments and a distance and time report. The route arrives in one of three forms: several legs, one encoded polyline with stops to spread along it, or points given by hand.
- **The sign-up form** (`CadastroPage`): field validation and clearing a field's message while typing.

The components keep their state in React hooks and update it from event handlers. Each stateful component is therefore a `class`:

- its fields are the hook variables;
- its methods are the handlers;
- its functions are the values derived while rendering.

The logic underneath is pure and is written as functions:

- filtering;
- sorting;
- paging;
- deletion;
- key computation;
- centring.

Each function comes with lemmas stating what the component promises. The loops of the route map (the `forEach` over the legs and the stop placement along one polyline) are methods. Each is proved against the function that specifies it.

The data model:

- Rows of the untyped tables are maps from field name to a JavaScript value. A value is a string, an integer, `null` or `undefined`.
- Loose equality and `<` convert as JavaScript does for these values: a string meets a number through its numeric reading (blank is 0, an optional sign then decimal digits, surrounding white space ignored), `null` counts as 0 against a number, and strings compare by UTF-16 code unit.
- A table's search may throw; the filtered list is then `None`, and the table renders nothing but the crash (`Screen.Crashed`). A load yields the rows, a failed response, or an unreachable server (`Fetch`).
- Map coordinates are exact reals.
- Polyline decoding is a library call and is a parameter of the route map. `None` stands for a decoder that throws.

Files, one module each:

| file | module | models |
|---|---|---|
| `optional.dfy` | `Optional` | the option type |
| `seqs.dfy` | `Seqs` | `Array.prototype.filter` and concatenation of sequences, with their lemmas |
| `js_value.dfy` | `JsValue` | JavaScript field values: truthiness, `==`, `<`, the empty-string fallback of a falsy value, `toString`, template rendering |
| `text.dfy` | `Text` | `toLowerCase`, `includes`, `trim`, `join`, `substring`, number rendering, UTF-16 `length` |
| `list_view.dfy` | `ListView` | the sort, paging, filter and delete pipeline and the table component's state |
| `table_filters.dfy` | `TableFilters` | the chains of alternatives in the tables' search boxes, including the TypeError a number raises |
| `funcionarios.dfy` | `Funcionarios` | resolving site and housing names of employees, and the employee search |
| `rotas.dfy` | `Rotas` | the route table: time formatting, vehicles column, search, deletion, loading errors |
| `transporte.dfy` | `Transporte` | the transport table's fixed rows and search |
| `geo.dfy` | `Geo` | positions, the Brasília default, means, minima and maxima |
| `mapa_obras.dfy` | `MapaObras` | the work-site map |
| `mapa_alojamentos.dfy` | `MapaAlojamentos` | the housing map |
| `route_map.dfy` | `MapaRotaReal` | the transport route map |
| `signup.dfy` | `SignUp` | the sign-up form |

## Model

| member | source | states |
|---|---|---|
| JsValue.TextOf | src/components/tables/alojamentos/index.tsx:119-121 | reading a field with the empty-string fallback gives "" exactly when the field is falsy, and gives a string unchanged |
| JsValue.StrToNumber | src/components/tables/funcionarios/index.tsx:116 | a string of white space only reads as the number 0 |
| JsValue.StrToNumberRoundTrip | src/components/tables/funcionarios/index.tsx:116 | the decimal text of any integer reads back as that integer |
| JsValue.LooseEq | src/components/tables/funcionarios/index.tsx:116 | `==` is reflexive; `null` and `undefined` equal each other and nothing else; a number equals its own decimal text; a number equals a blank string exactly when it is 0 |
| JsValue.ToStringReadsBack | src/components/tables/alojamentos/index.tsx:122 | the text the guarded `toString` gives a number reads back as that number under `Number`, and a number or a string is `==` to its own text |
| JsValue.LooseEqSymmetric | src/components/tables/funcionarios/index.tsx:116 | `==` between an id and a reference does not depend on which side each is on |
| JsValue.Less | src/components/tables/alojamentos/index.tsx:98-99 | between numbers and nulls `<` compares their numeric values, `null` counting as 0; nothing is `<` or `>` `undefined` |
| JsValue.NullSortsAsZero | src/components/tables/alojamentos/index.tsx:98-99 | `null` sorts below positive numbers and above negative ones |
| JsValue.StrLessByCodeUnit | src/components/tables/alojamentos/index.tsx:98 | strings compare by UTF-16 code unit, so a character outside the Basic Multilingual Plane sorts before U+E000 although its code point is larger |
| JsValue.LessIrreflexive | src/components/tables/alojamentos/index.tsx:98-99 | no value is `<` itself, so the comparator returns 0 for equal keys |
| JsValue.LessAsymmetric | src/components/tables/alojamentos/index.tsx:98-99 | `a < b` and `b < a` never both hold, so the comparator never answers both -1 and 1 for one pair |
| JsValue.LessTransitive | src/components/tables/alojamentos/index.tsx:98-99 | `<` on field values is transitive |
| JsValue.LessTotal | src/components/tables/alojamentos/index.tsx:98-99 | two different strings, or two numbers or nulls of different numeric value, are ordered one way or the other |
| JsValue.NotLessTransitive | src/components/tables/alojamentos/index.tsx:98-99 | on strings, or on numbers and nulls, "not less than" chains, which is what a consistent sort order needs |
| JsValue.StrLessTransitive | src/components/tables/alojamentos/index.tsx:98 | lexicographic `<` on strings is transitive |
| JsValue.StrLessTotal | src/components/tables/alojamentos/index.tsx:98 | two different strings are ordered one way or the other |
| Text.LowerChar | src/components/tables/alojamentos/index.tsx:119 | lower-casing keeps white space white space, and sends exactly the ASCII letters to lower-case ASCII letters |
| Text.ToLower | src/components/tables/alojamentos/index.tsx:117 | `toLowerCase` keeps the length and lower-cases each character on its own |
| Text.ToLowerIdempotent | src/components/tables/alojamentos/index.tsx:117-119 | lower-casing twice is lower-casing once |
| Text.ContainsLower | src/components/tables/alojamentos/index.tsx:119 | an occurrence of the search text survives lower-casing both sides, so the search ignores case |
| Text.ContainsEmpty | src/components/tables/alojamentos/index.tsx:119 | every text `includes` the empty search |
| Text.JoinContainsPart | src/components/tables/rotas/index.tsx:216-218 | every part of a `join` can be found in the joined text |
| Text.Prefix | src/components/maps/modal_mapa_transporte/MapaRotaReal.tsx:155-158 | `substring(0, n)` is a prefix of length `min(n, length)` |
| Text.NatToStringRoundTrip | src/components/tables/funcionarios/index.tsx:117 | reading back the decimal text of a number gives the number |
| Text.IntToStringInjective | src/components/tables/funcionarios/index.tsx:117 | different ids render as different "ID: " texts |
| Text.Utf16Length | src/app/erro/page.tsx:22 | `length` counts between one and two code units per character |
| Text.TrimEmptyIffBlank | src/app/erro/page.tsx:19 | `trim()` gives "" exactly for a string of white space only |
| Text.TrimStart | src/app/erro/page.tsx:19 | trimming the start removes a prefix made only of white space and leaves a text that does not start with white space |
| Text.TrimEnd | src/app/erro/page.tsx:19 | trimming the end removes a suffix made only of white space and leaves a text that does not end with white space |
| Text.Trim | src/app/erro/page.tsx:19 | `trim()` gives a piece of the string that neither starts nor ends with white space |
| Text.TrimUnpadded | src/app/erro/page.tsx:19 | `trim()` leaves a non-empty string without surrounding white space unchanged |
| ListView.NextSortConfig | src/components/tables/alojamentos/index.tsx:105-113 | the actions column never changes the sort; the sorted column flips direction; any other column becomes the sort column, ascending |
| ListView.SortClickTwiceRestores | src/components/tables/alojamentos/index.tsx:107-110 | two clicks on the sorted column give back the original sort |
| ListView.SortClickTwiceOnNewColumn | src/components/tables/alojamentos/index.tsx:105-113 | two clicks on a column not sorted yet sort it descending |
| ListView.SortData | src/components/tables/alojamentos/index.tsx:93-103 | the sort is a permutation of the rows, and no sort chosen returns the rows as they are |
| ListView.InsertionSortSorted | src/components/tables/alojamentos/index.tsx:95-101 | on a column holding only numbers and nulls, or only strings, no row is followed by one the comparator puts strictly before it |
| ListView.SortDataSorted | src/components/tables/alojamentos/index.tsx:93-103 | a sort on a uniform column orders the rows by that column, ascending or descending as chosen |
| ListView.SortNumbersWithNull | src/components/tables/alojamentos/index.tsx:95-101 | a column holding 3, `null` and 1 sorts ascending as `null`, 1, 3 |
| ListView.InsertionSortStable | src/components/tables/alojamentos/index.tsx:95-101 | rows that hold the same value in the sort column keep their relative order (`Array.prototype.sort` is stable) |
| ListView.SortDataStable | src/components/tables/alojamentos/index.tsx:93-103 | the sort is stable for every value of the sort column |
| ListView.SortByMissingColumn | src/components/tables/alojamentos/index.tsx:96-100 | sorting by a column no row has leaves the rows in their order |
| ListView.TotalPages | src/components/tables/alojamentos/index.tsx:126 | the page count is the ceiling of rows over ten: enough pages for every row, no empty last page, and zero exactly when there are no rows |
| ListView.SliceIndex | src/components/tables/alojamentos/index.tsx:127 | `slice` clamps an index into the list, counting a negative one from the end |
| ListView.PageSlice | src/components/tables/alojamentos/index.tsx:127 | a page holds at most ten rows: rows `(page-1)*10` up to `page*10` |
| ListView.PageNonEmpty | src/components/tables/alojamentos/index.tsx:126-127 | a page shows rows exactly when it is between 1 and the page count |
| ListView.PagesCoverRows | src/components/tables/alojamentos/index.tsx:126-127 | paging from the first page to the last shows every row once, in order |
| ListView.PreviousPage | src/components/tables/alojamentos/index.tsx:184 | "Anterior" never leaves page 1 or above, and keeps a page in range in range |
| ListView.NextPageAsWritten | src/components/tables/alojamentos/index.tsx:194-195 | "Próxima" as written moves one page forward before the last page and never past the page count |
| ListView.NextPageAsWrittenLeavesRange | src/components/tables/alojamentos/index.tsx:194-195 | with no rows, "Próxima" is enabled on page 1 and moves to page 0 |
| ListView.NextPage | src/components/tables/alojamentos/index.tsx:194-195 | the corrected "Próxima" moves one page forward before the last page and keeps the page in range |
| ListView.ClampPage | src/components/tables/alojamentos/index.tsx:73 | bringing the page back after the rows change lands in range and leaves a page already in range alone |
| ListView.FilterRows | src/components/tables/alojamentos/index.tsx:116-124 | the filter keeps exactly the rows that match the search |
| ListView.FilterRowsIsSubseq | src/components/tables/alojamentos/index.tsx:116-124 | the rows the filter keeps stay in their order |
| ListView.FilterOrThrowSpec | src/components/tables/alojamentos/index.tsx:116-124 | the filter throws exactly when the search throws on some row, and otherwise keeps exactly the rows the search accepts |
| ListView.RemoveById | src/components/tables/alojamentos/index.tsx:73 | deletion keeps exactly the rows whose `id` differs from the deleted one |
| ListView.RemoveByIdCount | src/components/tables/alojamentos/index.tsx:73 | deletion removes exactly the rows carrying the deleted id, and keeps the others in order |
| ListView.DeleteLeavesEmptyPage | src/components/tables/alojamentos/index.tsx:61-86 | as written, deleting the only row of the last page keeps a page that no longer exists and shows nothing |
| ListView.DeleteThenClampShowsRows | src/components/tables/alojamentos/index.tsx:73 | with the page clamped after a deletion, the table shows rows whenever rows remain |
| ListView.TableView.Shown | src/components/tables/funcionarios/index.tsx:149-183 | the table crashes exactly when the search throws on some row; otherwise a table that shows its error shows only that error while it is set; otherwise it shows a page of at most ten rows |
| ListView.TableView.ShowsRowsWhenAny | src/components/tables/alojamentos/index.tsx:125-127 | a table whose page is in range never shows an empty page while rows match |
| ListView.TableView.constructor | src/components/tables/funcionarios/index.tsx:18-29 | a table starts empty, without error, unsorted, unfiltered, on page 1, with the modal closed |
| ListView.TableView.Load | src/components/tables/funcionarios/index.tsx:57-76 | the fetched rows replace the data and a failed response leaves none; an unreachable server also sets "Erro ao carregar dados", and no load clears it; the page stays in range |
| ListView.TableView.HandleSort | src/components/tables/alojamentos/index.tsx:105-113 | a header click changes only the sort, and the rows shown after it are a permutation of those before |
| ListView.TableView.SetFilter | src/components/tables/alojamentos/index.tsx:136 | typing a search goes back to page 1 and changes nothing else |
| ListView.TableView.Previous | src/components/tables/alojamentos/index.tsx:184 | "Anterior" changes only the page, and keeps it in range |
| ListView.TableView.Next | src/components/tables/alojamentos/index.tsx:194-195 | "Próxima" changes only the page, and keeps it in range |
| ListView.TableView.OpenDeleteModal | src/components/tables/alojamentos/index.tsx:88-91 | the clicked row becomes the selected one and the modal opens |
| ListView.TableView.CloseDeleteModal | src/components/tables/alojamentos/index.tsx:204-207 | closing the modal clears the selection |
| ListView.TableView.HandleDelete | src/components/tables/alojamentos/index.tsx:61-86 | without a selection nothing is sent. Otherwise the selected row's id is sent. On success exactly the rows with that id leave, the modal closes, and the page stays in range. On failure the rows and the modal stay |
| TableFilters.ColumnText | src/components/tables/alojamentos/index.tsx:119-122 | a column read with the empty-string fallback throws exactly on a non-zero number and reads falsy values as ""; a `toString` column never throws |
| TableFilters.MatchTextsTotal | src/components/tables/alojamentos/index.tsx:118-123 | when no column throws, the chain of alternatives matches exactly when some column includes the search text |
| TableFilters.MatchTextsFacts | src/components/tables/alojamentos/index.tsx:118-123 | when every column can be read the chain answers, and a yes always comes from a readable column that includes the search text |
| TableFilters.EmptySearchMatches | src/components/tables/alojamentos/index.tsx:117-119 | an empty search matches at the first column, so later columns are not evaluated |
| TableFilters.RowTexts | src/components/tables/alojamentos/index.tsx:118-122 | each search column is read from its own field with its own rendering |
| TableFilters.MatchRow | src/components/tables/alojamentos/index.tsx:116-124 | a row whose columns can all be read gets an answer, and a yes comes from a search column whose text includes the search |
| TableFilters.MatchRowReadable | src/components/tables/alojamentos/index.tsx:116-124 | on a row whose columns can all be read, the search answers, and answers yes exactly when a column includes the search text |
| TableFilters.MatchRowIgnoresOtherFields | src/components/tables/alojamentos/index.tsx:116-124 | fields outside the search columns do not affect the search |
| TableFilters.EmptySearchKeepsAll | src/components/tables/alojamentos/index.tsx:116-124 | an empty search keeps every row whose first search column can be read, and does not throw |
| TableFilters.SearchFindsColumn | src/components/tables/alojamentos/index.tsx:116-124 | searching any part of a column's text, in any letter case, finds the row |
| TableFilters.AlojamentoCountAnyNumber | src/components/tables/alojamentos/index.tsx:122 | a housing row can be searched whatever number its employee count holds |
| TableFilters.VeiculoYearSearchThrows | src/components/tables/alojamentos/index.tsx:583-592 | as written, a vehicle with a numeric year makes a search for that year throw |
| TableFilters.VeiculoYearSearchCrashesTable | src/components/tables/alojamentos/index.tsx:583-592 | as written, one vehicle with a numeric year makes a search for that year crash the whole vehicle table |
| TableFilters.VeiculoYearSearchFinds | src/components/tables/alojamentos/index.tsx:588 | with the year read through `toString`, searching a vehicle's year finds it |
| Funcionarios.FindById | src/components/tables/funcionarios/index.tsx:116 | `find` returns an entry whose id is `==` the reference, or none when no entry's is |
| Funcionarios.NomePorId | src/components/tables/funcionarios/index.tsx:114-125 | a missing reference shows "N/A", and an unknown one shows "ID: " and the reference |
| Funcionarios.NomePorIdFirstMatch | src/components/tables/funcionarios/index.tsx:114-125 | the name shown is that of the first entry whose id matches |
| Funcionarios.NomePorIdTextReference | src/components/tables/funcionarios/index.tsx:116 | a reference holding a non-zero id's decimal text finds the entry, because `==` converts it |
| Funcionarios.NomePorIdPaddedReference | src/components/tables/funcionarios/index.tsx:116 | a reference " 03" finds the entry with id 3, because `==` reads the string as a number |
| Funcionarios.NomePorIdUnknown | src/components/tables/funcionarios/index.tsx:117 | a numeric reference matching no entry shows "ID: " and its decimal text |
| Funcionarios.FuncionarioTexts | src/components/tables/funcionarios/index.tsx:149-160 | the employee search reads four texts: the name and CPF, then the resolved housing name and the resolved site name |
| Funcionarios.MatchFuncionario | src/components/tables/funcionarios/index.tsx:149-160 | a readable employee row gets an answer, an empty search matches it, and a yes comes from one of the four texts including the search |
| Funcionarios.SearchSiteNameFinds | src/components/tables/funcionarios/index.tsx:149-160 | searching a site's name finds every employee assigned to it |
| Funcionarios.SearchPlaceholderFindsUnassigned | src/components/tables/funcionarios/index.tsx:151-158 | searching "N/A" finds employees with neither site nor housing |
| Rotas.JsRem | src/components/tables/rotas/index.tsx:211 | `%` truncates toward zero: the remainder has the sign of the dividend and is smaller than the divisor |
| Rotas.SplitSecondsBounds | src/components/tables/rotas/index.tsx:209-213 | a duration splits into whole hours and 0 to 59 whole minutes, dropping under a minute of seconds |
| Rotas.FormatarTempo | src/components/tables/rotas/index.tsx:209-213 | for a non-negative duration the text is "<h>h <m>m" with 0 to 59 minutes, and the hours and minutes it names are the duration less under a minute |
| Rotas.ObterVeiculos | src/components/tables/rotas/index.tsx:216-218 | every vehicle label appears in the vehicles column, and a route without vehicles has an empty column |
| Rotas.TempoTotal | src/components/tables/rotas/index.tsx:222 | vehicle durations that are not negative add up to a total that is not negative |
| Rotas.TempoTotalAppend | src/components/tables/rotas/index.tsx:221-224 | the total time of a route adds up the times of its vehicles |
| Rotas.ObterTempoTotal | src/components/tables/rotas/index.tsx:221-224 | with durations that are not negative the text shows the total duration, and a route without vehicles shows "0h 0m" |
| Rotas.LegCountCountsAllTrechos | src/components/tables/rotas/index.tsx:284 | the legs column counts every leg of every vehicle |
| Rotas.RotaMatches | src/components/tables/rotas/index.tsx:226-233 | the empty search matches every route |
| Rotas.FilterRotas | src/components/tables/rotas/index.tsx:226-233 | the search keeps exactly the routes whose description or vehicles column includes the text |
| Rotas.EmptySearchKeepsAllRotas | src/components/tables/rotas/index.tsx:226-233 | an empty search keeps every route |
| Rotas.SearchLabelFindsRota | src/components/tables/rotas/index.tsx:226-233 | searching one of a route's vehicle labels keeps the route |
| Rotas.DeleteTarget | src/components/tables/rotas/index.tsx:127-140 | the DELETE names the route's id, or else the first leg's id; it is never a falsy id, and there is none when both are falsy |
| Rotas.RemoveAsWrittenDropsOtherRoute | src/components/tables/rotas/index.tsx:156-163 | as written, deleting a route without an id also drops a route that has an id and the same description |
| Rotas.RemoveRota | src/components/tables/rotas/index.tsx:156-163 | the corrected local removal keeps exactly the routes that are not the deleted one |
| Rotas.RemoveRotaRemovesSelected | src/components/tables/rotas/index.tsx:156-163 | the deleted route leaves the list |
| Rotas.RemoveRotaKeepsOtherIds | src/components/tables/rotas/index.tsx:156-163 | a route with its own, different id stays |
| Rotas.RemoveRotaIsSubseq | src/components/tables/rotas/index.tsx:156-163 | the remaining routes keep their order |
| Rotas.LoadError | src/components/tables/rotas/index.tsx:88-107 | every failed load produces a message |
| Rotas.StaleErrorAsWritten | src/components/tables/rotas/index.tsx:75-114 | as written, a failed load followed by a successful one still shows the error |
| Rotas.ErrorAfter | src/components/tables/rotas/index.tsx:75-114 | after the corrected load no error is shown exactly when the load succeeded |
| Rotas.RotasTable.Shown | src/components/tables/rotas/index.tsx:245-253 | while an error is shown no rows are, and otherwise the filtered rows are |
| Rotas.RotasTable.constructor | src/components/tables/rotas/index.tsx:66-72 | the table starts empty, without error or search, the modal closed |
| Rotas.RotasTable.Load | src/components/tables/rotas/index.tsx:75-114 | a load sets the data and the error, and after a success the table shows the fetched routes that match the search |
| Rotas.RotasTable.SetFilter | src/components/tables/rotas/index.tsx:262 | typing a search changes only the search text |
| Rotas.RotasTable.OpenDeleteModal | src/components/tables/rotas/index.tsx:196-199 | the clicked route becomes the selected one and the modal opens |
| Rotas.RotasTable.CloseDeleteModal | src/components/tables/rotas/index.tsx:314-316 | closing the modal clears the selection |
| Rotas.RotasTable.HandleDelete | src/components/tables/rotas/index.tsx:117-194 | the request names the selected route's target id. Without a selection or a target nothing is sent and the modal stays. On success the route leaves the list and the modal closes. On failure the list and the modal stay |
| Transporte.RowsFor | src/components/tables/transporte/index.tsx:18-33 | each tab holds two transports |
| Transporte.TabsAreDisjoint | src/components/tables/transporte/index.tsx:18-31 | each transport belongs to exactly one tab |
| Transporte.TransporteMatches | src/components/tables/transporte/index.tsx:35-42 | the empty search matches every transport |
| Transporte.FilteredRows | src/components/tables/transporte/index.tsx:35-42 | the search keeps exactly the tab's transports whose description, destination or driver includes the text |
| Transporte.FilteredRowsIsSubseq | src/components/tables/transporte/index.tsx:35-42 | the rows kept stay in the tab's order |
| Transporte.EmptySearchShowsTab | src/components/tables/transporte/index.tsx:35-42 | an empty search shows the whole tab |
| Transporte.SearchDriverFinds | src/components/tables/transporte/index.tsx:35-42 | searching a driver's name finds their transport |
| Geo.CoordOrZero | src/components/maps/mapa_alojamentos/MapaAlojamentos.tsx:112-113 | the zero fallback of a coordinate is the coordinate when truthy and 0 otherwise |
| Geo.MinOf | src/components/maps/mapa_obras/MapaObras.tsx:102-103 | `Math.min(...xs)` is one of the values and no greater than any |
| Geo.MaxOf | src/components/maps/mapa_obras/MapaObras.tsx:102-103 | `Math.max(...xs)` is one of the values and no smaller than any |
| Geo.SumBounds | src/components/maps/mapa_obras/MapaObras.tsx:89-90 | a sum of values within bounds is within the bounds times the count |
| Geo.MeanBounds | src/components/maps/mapa_obras/MapaObras.tsx:89-90 | values within bounds average to a value within them |
| Geo.MeanBetweenMinAndMax | src/components/maps/mapa_obras/MapaObras.tsx:89-90 | the average lies between the smallest and the largest value |
| Geo.MeanOfConstant | src/components/maps/mapa_obras/MapaObras.tsx:89-90 | equal values average to that value |
| Geo.Center | src/components/maps/mapa_obras/MapaObras.tsx:83-93 | without positions the centre is Brasília; otherwise it lies in the positions' bounding box |
| Geo.CenterOfOnePlace | src/components/maps/mapa_obras/MapaObras.tsx:83-93 | positions all at one place are centred on it |
| MapaObras.HasCoords | src/components/maps/mapa_obras/MapaObras.tsx:62-63 | a site has usable coordinates exactly when both read, with the zero fallback, as non-zero |
| MapaObras.ObrasComCoordenadas | src/components/maps/mapa_obras/MapaObras.tsx:61-66 | the map keeps exactly the sites with both coordinates present, non-zero and numeric |
| MapaObras.ObrasComCoordenadasIsSubseq | src/components/maps/mapa_obras/MapaObras.tsx:61-66 | the kept sites stay in the order fetched |
| MapaObras.ZeroCoordinateDropped | src/components/maps/mapa_obras/MapaObras.tsx:62-63 | a site on the equator or the prime meridian is dropped |
| MapaObras.CalculateMapCenter | src/components/maps/mapa_obras/MapaObras.tsx:83-93 | the centre is Brasília without sites, and otherwise lies in the sites' bounding box |
| MapaObras.MaxRange | src/components/maps/mapa_obras/MapaObras.tsx:102-104 | the range is the larger of the latitude span and the longitude span, and is never negative |
| MapaObras.ZoomForRange | src/components/maps/mapa_obras/MapaObras.tsx:106-111 | the zoom is between 6 and 11 |
| MapaObras.ZoomForRangeMonotone | src/components/maps/mapa_obras/MapaObras.tsx:106-111 | a wider spread never zooms in closer |
| MapaObras.CalculateZoom | src/components/maps/mapa_obras/MapaObras.tsx:96-112 | zoom 10 for at most one site, and otherwise the step zoom of the range, between 6 and 11 |
| MapaObras.ZoomForOnePlace | src/components/maps/mapa_obras/MapaObras.tsx:96-112 | several sites at one place get the closest zoom, 11 |
| MapaAlojamentos.ValidCoords | src/components/maps/mapa_alojamentos/MapaAlojamentos.tsx:73-83 | an accepted housing has both coordinates, a latitude in [-90, 90] and a longitude in [-180, 180] |
| MapaAlojamentos.AlojamentosComCoordenadas | src/components/maps/mapa_alojamentos/MapaAlojamentos.tsx:73-83 | the map keeps exactly the housings with non-zero numeric coordinates in the valid ranges |
| MapaAlojamentos.KeptInRange | src/components/maps/mapa_alojamentos/MapaAlojamentos.tsx:73-83 | every kept housing has latitude in [-90, 90] and longitude in [-180, 180], and the kept ones stay in order |
| MapaAlojamentos.ZeroCoordinateDropped | src/components/maps/mapa_alojamentos/MapaAlojamentos.tsx:77-78 | a housing with a zero coordinate is dropped |
| MapaAlojamentos.GetMapCenter | src/components/maps/mapa_alojamentos/MapaAlojamentos.tsx:107-121 | the centre is Brasília without housings, and otherwise lies between the least and greatest coordinates after the zero fallback |
| MapaAlojamentos.CenterOfKeptInRange | src/components/maps/mapa_alojamentos/MapaAlojamentos.tsx:107-121 | the centre of kept housings is itself a valid latitude and longitude |
| MapaAlojamentos.BoundPoints | src/components/maps/mapa_alojamentos/MapaAlojamentos.tsx:128-135 | there are no bound points exactly when no housing has both coordinates |
| MapaAlojamentos.GetBounds | src/components/maps/mapa_alojamentos/MapaAlojamentos.tsx:124-145 | there are no bounds exactly when there are no housings or none has both coordinates |
| MapaAlojamentos.BoundsOfKept | src/components/maps/mapa_alojamentos/MapaAlojamentos.tsx:124-145 | after loading, every kept housing contributes a bound point |
| MapaRotaReal.KindOf | src/components/maps/modal_mapa_transporte/MapaRotaReal.tsx:201-213 | a stop's marker is a pickup or a delivery |
| MapaRotaReal.LegColor | src/components/maps/modal_mapa_transporte/MapaRotaReal.tsx:182-185 | a leg is green or red; a type starting "ida" in any case is green, and one shorter than three characters red |
| MapaRotaReal.LegColorIgnoresCase | src/components/maps/modal_mapa_transporte/MapaRotaReal.tsx:182-185 | the leg colour does not depend on letter case |
| MapaRotaReal.LegColorOfServiceTypes | src/components/maps/modal_mapa_transporte/MapaRotaReal.tsx:182-185 | "IDA" legs are green and "VOLTA" legs red |
| MapaRotaReal.LegStops | src/components/maps/modal_mapa_transporte/MapaRotaReal.tsx:201-213 | a leg adds one marker per stop |
| MapaRotaReal.LegStopsAt | src/components/maps/modal_mapa_transporte/MapaRotaReal.tsx:201-213 | the j-th stop marker is the j-th stop, with the leg type appended to its details |
| MapaRotaReal.Legs | src/components/maps/modal_mapa_transporte/MapaRotaReal.tsx:176-235 | each leg contributes its own markers, in leg order |
| MapaRotaReal.LegMarkers | src/components/maps/modal_mapa_transporte/MapaRotaReal.tsx:187-226 | a contributing leg adds the origin if it is the first leg, its stops, and the destination if it is the last |
| MapaRotaReal.MergedPointsStep | src/components/maps/modal_mapa_transporte/MapaRotaReal.tsx:176-235 | merging one more leg appends exactly that leg's markers |
| MapaRotaReal.MergedStep | src/components/maps/modal_mapa_transporte/MapaRotaReal.tsx:176-235 | merging one more leg appends its segment, and adds its distance and time exactly when it contributes |
| MapaRotaReal.MergeLeg | src/components/maps/modal_mapa_transporte/MapaRotaReal.tsx:176-235 | the `forEach` callback takes the merge of the earlier legs to the merge including this one |
| MapaRotaReal.MergeTrechos | src/components/maps/modal_mapa_transporte/MapaRotaReal.tsx:168-235 | the loop over the legs yields the merged markers, segments, distance and time of all legs |
| MapaRotaReal.LegPointAt | src/components/maps/modal_mapa_transporte/MapaRotaReal.tsx:187-226 | the markers of a leg are its origin, then its stops, then its destination, by position |
| MapaRotaReal.LegOriginAt | src/components/maps/modal_mapa_transporte/MapaRotaReal.tsx:189-198 | an origin marker is the first marker of the first leg, from its `ponto_origem` |
| MapaRotaReal.LegDestinationAt | src/components/maps/modal_mapa_transporte/MapaRotaReal.tsx:217-226 | a destination marker is the last marker of the last leg, from its `ponto_destino` |
| MapaRotaReal.NoDestinationInEarlierLeg | src/components/maps/modal_mapa_transporte/MapaRotaReal.tsx:217-226 | a leg before the last adds no destination |
| MapaRotaReal.MergedPointsIndex | src/components/maps/modal_mapa_transporte/MapaRotaReal.tsx:176-235 | each merged marker comes from one leg, at an offset after the earlier legs' markers |
| MapaRotaReal.MergedOriginOnlyFirst | src/components/maps/modal_mapa_transporte/MapaRotaReal.tsx:189-198 | the merged route has an origin marker only first, and only from the first leg |
| MapaRotaReal.NoDestinationBeforeLastLeg | src/components/maps/modal_mapa_transporte/MapaRotaReal.tsx:217-226 | no destination appears before the last leg is merged |
| MapaRotaReal.MergedDestinationOnlyLast | src/components/maps/modal_mapa_transporte/MapaRotaReal.tsx:217-226 | the merged route has a destination marker only last, and only from the last leg |
| MapaRotaReal.MergedPrefix | src/components/maps/modal_mapa_transporte/MapaRotaReal.tsx:176-235 | merging more legs only appends markers |
| MapaRotaReal.EveryStopShown | src/components/maps/modal_mapa_transporte/MapaRotaReal.tsx:201-213 | every stop of every contributing leg is on the map |
| MapaRotaReal.SumAppend | src/components/maps/modal_mapa_transporte/MapaRotaReal.tsx:228-229 | distances and times add up over consecutive legs |
| MapaRotaReal.TotalsOverContributingLegs | src/components/maps/modal_mapa_transporte/MapaRotaReal.tsx:187-229 | the reported totals are the sums over exactly the legs that decode to at least one point |
| MapaRotaReal.PlaceSingleRoute | src/components/maps/modal_mapa_transporte/MapaRotaReal.tsx:270-307 | the single-polyline branch builds the origin, the stops placed along the line, and the destination |
| MapaRotaReal.PlacedStopsArePrefix | src/components/maps/modal_mapa_transporte/MapaRotaReal.tsx:282-297 | the stops placed are the first ones, in order, each on its computed point before the last; a stop is skipped only when all later ones are |
| MapaRotaReal.StepBounds | src/components/maps/modal_mapa_transporte/MapaRotaReal.tsx:284 | the step never overshoots the polyline, and is at least 2 with two points per gap |
| MapaRotaReal.AllStopsPlacedWhenRoomy | src/components/maps/modal_mapa_transporte/MapaRotaReal.tsx:282-297 | with at least two decoded points per gap every stop is placed |
| MapaRotaReal.CrowdedStopsAtOrigin | src/components/maps/modal_mapa_transporte/MapaRotaReal.tsx:282-297 | with fewer points than gaps every stop lands on the origin's point |
| MapaRotaReal.SinglePoints | src/components/maps/modal_mapa_transporte/MapaRotaReal.tsx:272-307 | the single route starts with the origin at the first decoded point, ends with the destination at the last when there are two or more, and has at most one marker per stop in between |
| MapaRotaReal.RoundMinutes | src/components/maps/modal_mapa_transporte/MapaRotaReal.tsx:244-246 | `Math.round(s / 60)` is the minute count within half a minute of `s` |
| MapaRotaReal.ModeOf | src/components/maps/modal_mapa_transporte/MapaRotaReal.tsx:168-334 | manual points are taken exactly when there is no route, or one with neither polyline nor legs; the single polyline branch needs a polyline that is not blank; an input that takes no branch has a blank polyline |
| MapaRotaReal.RotaKey | src/components/maps/modal_mapa_transporte/MapaRotaReal.tsx:153-161 | the key names the branch: "trechos-" for legs, "single-" for a polyline, a constant for manual points |
| MapaRotaReal.Rendered | src/components/maps/modal_mapa_transporte/MapaRotaReal.tsx:168-334 | an input changes what the map shows unless it is a blank polyline or an empty leg list |
| MapaRotaReal.ReportFor | src/components/maps/modal_mapa_transporte/MapaRotaReal.tsx:244-322 | legs report the distance and rounded time summed over exactly the legs that decode to at least one point; a single polyline reports its own distance exactly when it decodes to points; manual and inert inputs report nothing |
| MapaRotaReal.ManualPointsSkippedAsWritten | src/components/maps/modal_mapa_transporte/MapaRotaReal.tsx:153-166 | as written, a second set of manual points is skipped although it would render differently |
| MapaRotaReal.ManualAfterLegsSkippedAsWritten | src/components/maps/modal_mapa_transporte/MapaRotaReal.tsx:163-257 | as written, manual points, then a route with legs, then the same manual points leave the map showing the legs, because the legs never record their key |
| MapaRotaReal.PolylinePrefixSkippedAsWritten | src/components/maps/modal_mapa_transporte/MapaRotaReal.tsx:153-166 | as written, a polyline that shares its first ten characters with the last one is skipped |
| MapaRotaReal.MapaRota.constructor | src/components/maps/modal_mapa_transporte/MapaRotaReal.tsx:145 | the map starts at Brasília with nothing shown or processed |
| MapaRotaReal.MapaRota.Process | src/components/maps/modal_mapa_transporte/MapaRotaReal.tsx:163-334 | after processing, the map shows exactly what the input renders whenever it renders anything, and keeps its view otherwise. The same input again changes nothing and reports nothing. Any other input is recorded when it renders something and returns its report. The invariant that the recorded input is what the map shows is kept |
| MapaRotaReal.MapaRota.UpdateCenter | src/components/maps/modal_mapa_transporte/MapaRotaReal.tsx:337-343 | the centre moves to the mean marker position when there are markers, and stays put otherwise |
| SignUp.WithValue | src/app/erro/page.tsx:30 | typing sets the typed field and keeps every other |
| SignUp.EmailShapeIffPattern | src/app/erro/page.tsx:20 | the positional description of the e-mail test accepts exactly the strings `/^\S+@\S+\.\S+$/` matches |
| SignUp.EmailOk | src/app/erro/page.tsx:20 | the e-mail check accepts exactly the strings the pattern matches |
| SignUp.CpfOk | src/app/erro/page.tsx:21 | an accepted CPF is eleven code units long, all decimal digits, so its value is below 10^11 |
| SignUp.Invalid | src/app/erro/page.tsx:19-23 | the name is refused exactly when blank, the e-mail exactly when the pattern fails, and a password of two characters or fewer always |
| SignUp.Message | src/app/erro/page.tsx:19-23 | every field's message is non-empty, so the form shows it |
| SignUp.SenhaLength | src/app/erro/page.tsx:22 | six or more characters of the Basic Multilingual Plane are long enough, and two or fewer never are |
| SignUp.ErrorsOnExactly | src/app/erro/page.tsx:16-27 | after some checks a field has a message exactly when it was checked and is invalid, and the message is its own |
| SignUp.ErrorsForUnrolled | src/app/erro/page.tsx:19-23 | validation is the five checks in order, each adding its message when its field is invalid |
| SignUp.ErrorsFor | src/app/erro/page.tsx:16-27 | a field has a message exactly when it is invalid, and the message is that field's |
| SignUp.ErrorsForEmpty | src/app/erro/page.tsx:26 | there are no messages exactly when every field is valid |
| SignUp.SignUpForm.Shown | src/app/erro/page.tsx:67 | a message is shown under a field only when the field has that message |
| SignUp.SignUpForm.constructor | src/app/erro/page.tsx:6-14 | the form starts with empty fields and no messages |
| SignUp.SignUpForm.Validate | src/app/erro/page.tsx:16-27 | validation keeps the form, records a message for every invalid field and no other, and answers whether every field is valid |
| SignUp.SignUpForm.HandleChange | src/app/erro/page.tsx:29-32 | typing in a field stores the value and clears only that field's message |

## Left out

- Network requests, `localStorage` tokens, `alert`, `console` output, `setTimeout` and the `loading` flags are left out. A request's outcome is a parameter (`Load`'s response, `HandleDelete`'s `ok`).
- Polyline decoding is a parameter. The decoding library is not part of this model.
- Rendering is left out: JSX, Leaflet markers, popups, icons, `FitBounds` and the legend. The model keeps the data they are given.
- Numbers in table rows are integers. Map coordinates are exact reals: floating point, `parseFloat`, `Number()` and NaN are not modelled. A non-numeric coordinate is one value, `NotANumber`.
- JsValue.Less: `<` between a string and a number or `null` converts the string in JavaScript; here that pair compares false. Permutation and stability of the sort hold for every column.
- ListView.InsertionSortSorted, ListView.SortDataSorted: sortedness is proved only for a column of numbers and nulls, or of strings. A column that mixes strings with numbers, or holds `undefined`, has no consistent order under the comparator, and these lemmas say nothing about it.
- JsValue.LooseEq: a string reads as a number only when it holds an integer (optional sign, decimal digits, white space around). Fractions, exponents, hexadecimal and `Infinity` ("3.0", "3e0", "0x3") read as no number here, so they never equal a number.
- `toLowerCase` covers ASCII and the Latin-1 capitals only.
- A leg without `tipo_trecho` makes `toLowerCase` throw a TypeError inside the leg's `try`, so the code drops that whole leg: no segment, no markers, and no distance or time. Here an absent leg type is the empty string, and such a leg is drawn red and counted like any other.
- `onRotaCalculada` is optional in the component. Here the report is always returned, and the caller may ignore it.
- MapaAlojamentos.GetMapCenter: the NaN fallback of `getMapCenter` is not modelled. Kept housings always have numeric coordinates, so it is never reached.
- MapaAlojamentos.GetBounds: returns the points the bounds are fitted to rather than a Leaflet bounds object. The `try`/`catch` around it is not modelled.
- SignUp.SignUpForm.HandleChange: a cleared message is stored as "", not removed. `Shown` treats "" as no message, as the form does.
- The housing, work-site and vehicle tables of `alojamentos/index.tsx` and the employee table share one table component (`ListView.TableView`) for search, sort and paging. Only the housing table and the employee table have the delete button and modal; the work-site and vehicle tables never call `OpenDeleteModal` or `HandleDelete`. Their search columns are modelled apart (`TableFilters`, `Funcionarios`).
- The tables of the housing page set their load error and never render it; the employee table renders it in place of the list. `ListView.TableView` has a `showsError` flag for the difference.
- The employee table's two lookup lists come from requests outside this model. They are parameters of its search.
- ListView.TableView.Load and ListView.TableView.HandleDelete clamp the page after the rows change. The code does not; see Findings.
- Rotas.RotasTable.Load clears the error after a success. The code does not; see Findings.
- ListView.TableView.Next: moves with the corrected `NextPage`, which never leaves page 1 or above. The code as written can go to page 0 with no rows; that behaviour is `NextPageAsWritten`, see Findings.
- MapaRotaReal.MapaRota.Process: skips an input only when the whole input equals the last one processed, and records every input that renders something, legs included. The code compares ten-character keys, and its multi-leg branch records nothing, so it skips some new inputs; that behaviour is `StepAsWritten`, see Findings.
- Rotas.RotasTable.HandleDelete: removes the deleted route with the corrected `RemoveRota`. The code's removal falls back to comparing descriptions; that removal is `RemoveRotaAsWritten`, see Findings.
- MapaRotaReal.ReportFor: the report carries the distance in metres and the time in minutes as integers. The code hands `onRotaCalculada` strings: the distance divided by 1000 with `toFixed(2)` and " km", and "0 km" when a single route's `distancia` is falsy; the time with " min".

## Findings

| source | as written | input that shows it | evidently intended | confidence | as-written member | corrected member |
|---|---|---|---|---|---|---|
| src/components/tables/alojamentos/index.tsx:194-195 | "Próxima" is disabled only when the page equals the page count, and moves to `min(totalPages, page + 1)` | no rows: the count is 0, the button is enabled on page 1, and a click sets page 0 | never leave page 1 or above | not executed | ListView.NextPageAsWrittenLeavesRange | ListView.NextPage |
| src/components/tables/alojamentos/index.tsx:73 | after a deletion the current page is kept | 11 rows on page 2; deleting the eleventh leaves a page 2 that shows nothing | go back to the last page that still exists | not executed | ListView.DeleteLeavesEmptyPage | ListView.DeleteThenClampShowsRows |
| src/components/tables/alojamentos/index.tsx:588 | the vehicle year is lower-cased after the empty-string fallback, like a text column | a vehicle with `ano: 2020` and the search "2020": `toLowerCase` on a number throws, and the filter and the whole vehicle table with it | read the year through `toString`, as the housing table reads its count | not executed | TableFilters.VeiculoYearSearchCrashesTable | TableFilters.VeiculoYearSearchFinds |
| src/components/tables/rotas/index.tsx:156-163 | routes without an id on either side are compared by description | deleting a route without an id also drops a route with an id and the same description | remove only the deleted route | not executed | Rotas.RemoveAsWrittenDropsOtherRoute | Rotas.RemoveRotaKeepsOtherIds |
| src/components/tables/rotas/index.tsx:84-98 | a successful load does not clear the error | a load that fails with a network error, then one that succeeds: the error and no rows stay on screen | clear the error after a successful load | not executed | Rotas.StaleErrorAsWritten | Rotas.ErrorAfter |
| src/components/maps/modal_mapa_transporte/MapaRotaReal.tsx:153-166 | a route counts as processed when its key matches, and the key keeps only ten characters of each polyline and a constant for manual points | two polylines that share their first ten characters, or two different sets of manual points: the second is skipped | process every route that renders differently | not executed | MapaRotaReal.PolylinePrefixSkippedAsWritten | MapaRotaReal.MapaRota.Process |
| src/components/maps/modal_mapa_transporte/MapaRotaReal.tsx:168-257 | the multi-leg branch returns without recording its key, so the key recorded before it stays | manual points, then a route with legs, then the same manual points: the third run matches the stale "pontos-manuais" key and is skipped, and the legs stay on the map | record every route that is rendered | not executed | MapaRotaReal.ManualAfterLegsSkippedAsWritten | MapaRotaReal.MapaRota.Process |
