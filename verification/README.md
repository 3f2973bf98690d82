# Subject listing of kutan, in Dafny

kutan is a single Next.js page, `pages/index.tsx`, that lists academic
subjects with their credit-earn rate. You can filter the list by faculty and
by a fuzzy search on the subject name, and it is shown ten rows at a time.
This project models the page's logic as pure functions over immutable
records and proves properties of it:

- **Query choice** (`SubjectQuery`). `getServerSideProps` picks one of four
  SQL queries from the `faculty` and `searchQuery` URL parameters. The store
  is a sequence of `Subject` rows. The store's fuzzy operator `&@~` is the
  collaborator `matches`, and `parseInt` is the collaborator `parseId`.
- **Pagination** (`Pagination`). The page counts the whole filtered list and
  computes `Math.ceil(counts / 10)` pages. It cuts the current page out with
  `slice(skipNum, skipNum + 10)`, following JavaScript's index rules. It
  converts between the widget's page number and the offset `skipNum`.
- **Projection** (`Projection`). Each row becomes `{id, name, facultyName,
  percentage}`. The faculty is found by a first-match lookup. The
  percentage is `floor(1000 * earnSum / registerSum) / 10`, held as a whole
  number of tenths.
- **Component state** (`Home`). This covers the state `skipNum`, the selected
  faculty and the search text. It also covers the handlers `search`,
  `onChangePage` and `handleSelect`, and the route each handler pushes back
  to the server.
- **Decimal ids** (`Decimal`). The faculty selector's option values are
  `id.toString()`. The module models that rendering and its inverse.

Points worth knowing about the model:

- The code fetches every matching row and slices one page out in the
  browser. It does not page in the store with an offset parameter.
- The code does not trim the search text, so a query of only spaces is an
  active text filter.
- A subject nobody registered for divides by zero in the code (`NaN` or
  `Infinity`). The model answers `None` instead, and this is a modelling
  choice.
- The code never clamps a rate above 100 %. The model passes it through
  unchanged.

## Model

| member | source | states |
|---|---|---|
| SubjectQuery.Where | pages/index.tsx:27-30 | Each `WHERE` query returns every store row that meets its condition, as many times as the store holds it, and no other row. |
| SubjectQuery.SelectSubjects | pages/index.tsx:26-30 | Whichever of the four queries runs, the result holds exactly the rows that pass every active filter, with their store multiplicities. The faculty filter is active iff the parameter is defined and not `''`. The text filter is active iff the query is non-empty. |
| SubjectQuery.FacultyFilterActive | pages/index.tsx:26 | The faculty filter is on only for a defined, non-empty parameter. An `undefined` or `''` parameter turns it off. |
| SubjectQuery.TextFilterActive | pages/index.tsx:27-29 | The text filter is on only for a defined, non-empty `searchQuery`, which is JavaScript truthiness for a string. An `undefined` or `''` query turns it off. |
| SubjectQuery.SubjectsMatchingOfFaculty | pages/index.tsx:27 | The query with both filters returns exactly the store rows whose name matches and whose `facultyId` equals the parsed id, with their store multiplicities. |
| SubjectQuery.SubjectsOfFaculty | pages/index.tsx:28 | The faculty-only query returns exactly the store rows whose `facultyId` equals the parsed id, with their store multiplicities. |
| SubjectQuery.SubjectsMatching | pages/index.tsx:29 | The text-only query returns exactly the store rows whose name matches, with their store multiplicities. |
| SubjectQuery.AllSubjects | pages/index.tsx:30 | The unfiltered query returns the whole store, with the same multiplicities. |
| SubjectQuery.EmptyFacultyIsNoFilter | pages/index.tsx:26 | An empty `faculty` parameter selects exactly what an absent one does. |
| SubjectQuery.NoFilterListsAll | pages/index.tsx:30 | With neither filter active, the page lists the whole store. |
| SubjectQuery.DropFacultyWidens | pages/index.tsx:26-30 | Removing the faculty parameter can only add rows to the result. |
| SubjectQuery.DropTextWidens | pages/index.tsx:26-30 | Removing the search text can only add rows to the result. |
| Pagination.ResolveIndex | pages/index.tsx:55 | A `slice` index is clamped into `[0, len]`. An index already in range is kept. A negative one counts back from the end, and becomes 0 if it reaches past the start. An index past the end becomes `len`. |
| Pagination.Slice | pages/index.tsx:55 | `slice(start, end)` never returns more than the list. For `0 <= start <= end` it returns at most `end - start` elements, exactly `min(end, n) - start` of them when `start < n`, and none otherwise. For `start >= 0` its element `i` is list element `start + i`. |
| Pagination.PageWindow | pages/index.tsx:55 | The page never has more than 10 rows, for any offset. For a non-negative offset it holds rows `skipNum ..` of the list, in order, up to `min(skipNum + 10, n)`, and it is empty once `skipNum >= n`. |
| Pagination.PageCount | pages/index.tsx:53 | The page count is the least number of ten-row pages that holds `n` rows: `10 * pages >= n`, `10 * (pages - 1) < n` when `n > 0`, and `pages = 0` iff `n = 0`. |
| Pagination.SkipForPage | pages/index.tsx:88 | The offset `10 * (val - 1)` is always a multiple of ten, and it is non-negative iff `val >= 1`. |
| Pagination.DisplayedPage | pages/index.tsx:164 | For a multiple-of-ten offset, the shown page `p` satisfies `10 * (p - 1) = skipNum`, and `p >= 1` iff the offset is non-negative. |
| Pagination.PageRoundTrip | pages/index.tsx:87-90 | `onChangePage(val)` sets an offset that is a multiple of ten, and the page number shown for that offset is `val` again. |
| Pagination.OffsetRoundTrip | pages/index.tsx:164 | Converting a multiple-of-ten offset to its shown page number and back gives the same offset. |
| Pagination.SkipForPageValid | pages/index.tsx:88 | The offset that `onChangePage(val)` sets is non-negative iff `val >= 1`. |
| Pagination.NonEmptyPages | pages/index.tsx:53-55 | For a page number of at least one, the page's window is non-empty iff the number is at most the page count. |
| Pagination.RowOnPage | pages/index.tsx:53-55 | Every row `i` is entry `i % 10` of page `i / 10 + 1`, and that page is within the page count. |
| Projection.FacultyIndex | pages/index.tsx:59 | The lookup finds the first faculty with the subject's `facultyId`. It finds nothing iff no faculty has that id. |
| Projection.PercentTenths | pages/index.tsx:60 | The rate in tenths of a percent is truncated, not rounded: `t * register <= 1000 * earn < (t + 1) * register`. There is no value iff `register = 0`. |
| Projection.PercentageBound | pages/index.tsx:60 | When `earn <= register` and `register > 0`, the rate lies between 0 and 1000 tenths, that is 0 % to 100 %. |
| Projection.TruncationExample | pages/index.tsx:60 | 1 of 3 gives 333 tenths (33.3 %, not 33.4). 67 of 200 gives 335. 80 of 100 gives 800. |
| Projection.ProjectSubject | pages/index.tsx:56-61 | A row keeps the subject's `id` and `name`. It takes the name of the first faculty with the subject's `facultyId` and the truncated rate. It fails, as the dereference of `undefined` throws, iff no such faculty exists. |
| Projection.ProjectPage | pages/index.tsx:55-62 | Mapping a page succeeds iff every subject on it has a faculty. It then gives one row per subject, in page order. Otherwise it fails on the first subject without one. |
| Home.Initial | pages/index.tsx:44-49 | A freshly mounted page starts at offset 0, which shows page 1. It has no faculty selected and an empty search text. |
| Home.PushRoute | pages/index.tsx:64-79 | The route carries a faculty iff one is passed, and then carries its id. It carries a non-empty `newSearchQuery` when one is given, and otherwise the box's current text. So it carries an empty text only when the box is empty. |
| Home.RequestOf | pages/index.tsx:71-78 | The server sees an id rendered in decimal, or `faculty=''` when no faculty was pushed. The faculty filter is on iff the route names a faculty. The text filter is on iff the pushed text is non-empty, and it then searches for that text. |
| Home.FindByOptionValue | pages/index.tsx:95 | The lookup finds the first faculty whose decimal id equals the selected value. It finds nothing iff no faculty's decimal id does. |
| Home.Search | pages/index.tsx:81-85 | `search` resets the offset to 0 and keeps the faculty and the text. The route it pushes carries the text and the faculty's id, or no faculty. |
| Home.ChangePage | pages/index.tsx:87-90 | `onChangePage(val)` changes only the offset. The page number shown afterwards is `val`. |
| Home.HandleSelect | pages/index.tsx:93-99 | `handleSelect` resets the offset to 0. `'all'` clears the faculty. Any other selection is a listed faculty whose decimal id is the value. The pushed route carries that id and the current text. |
| Home.Render | pages/index.tsx:51-62 | The total shown is the full filtered length. The page count is `ceil(n/10)`. There are at most 10 rows, and never more than the total. The rows are the projections of the window at `skipNum`. Rendering fails iff a subject on the page has no faculty. |
| Home.OffsetStaysValid | pages/index.tsx:81-99 | Every transition keeps `skipNum` a non-negative multiple of ten: the initial state, `search`, `handleSelect`, and `onChangePage` with `val >= 1`, which is also required. |
| Home.OptionValueIsNotAll | pages/index.tsx:94-95 | No option value rendered from an id equals `'all'`, so the two branches of `handleSelect` never overlap. |
| Home.SelectOption | pages/index.tsx:93-99 | Choosing the option rendered for a listed faculty selects a faculty with that id. The pushed route names that id. |
| Home.SelectNonCanonicalClears | pages/index.tsx:95 | A value that is not a canonical decimal number selects no faculty. |
| Home.SelectThenQuery | pages/index.tsx:26-28 | After choosing a faculty's option, the server's answer to the pushed route lists exactly that faculty's subjects that match the search text, when there is one. |
| Home.SelectAllThenQuery | pages/index.tsx:29-30 | After choosing `'all'`, the server's answer to the pushed route lists exactly the subjects that match the search text, when there is one. |
| Decimal.NatToDecimal | pages/index.tsx:137 | An id renders as a canonical digit string. It starts with `'0'` only for zero, and it has one digit iff the id is below ten. |
| Decimal.DecimalRoundTrip | pages/index.tsx:137 | Reading the rendering of an id gives the id back. |
| Decimal.CanonicalRoundTrip | pages/index.tsx:137 | Rendering the value of a canonical digit string gives the string back. |
| Decimal.DecimalInjective | pages/index.tsx:95 | Two ids render the same iff they are equal, so `handleSelect`'s string comparison compares ids. |
| Decimal.DecimalCharacterisation | pages/index.tsx:95 | A string is the rendering of `n` iff it is canonical and denotes `n`. |

## Left out

- Prisma, the raw SQL text and the database are not modelled. The store is
  a sequence of rows, and each query keeps store order. SQL without
  `ORDER BY` promises no order, so the model fixes one.
- The PGroonga operator `&@~` is not modelled. It is the parameter
  `matches`, which is left unconstrained.
- The string semantics of `parseInt` are not modelled. It is the parameter
  `parseId` from the parameter text to an integer. An unparsable parameter,
  which gives `NaN`, is not modelled.
- `prisma.faculty.findMany()` (line 32) is not modelled. Its result is the
  `faculties` argument.
- Floating point is not modelled. The percentage is a whole number of tenths
  computed with integer division. For operands below 2^53, `Math.floor` of
  the float quotient equals that division. Its display as `value.toString()`
  is not modelled.
- Projection.PercentTenths: returns `None` when `registerSum = 0`, where the
  source produces `NaN` or `Infinity`. This is a modelling choice, not the
  source's behaviour.
- Home.Render: requires `skipNum` to be a multiple of ten, because the page
  number `skipNum / 10 + 1` would otherwise be a fraction. Home.OffsetStaysValid
  shows that every reachable state meets this requirement.
- JSX rendering, Geist widgets and the `useInput` bindings are not modelled.
  The option list at line 137 appears only through its `id.toString()`
  values. These are modelled for ids below 2^53. From 1e21 on, `toString`
  switches to exponent notation, which is not modelled.
- `router.push` and its asynchrony are not modelled. Neither is Next.js's
  serialisation of the query in general. `Home.RequestOf` stands for the
  request the server sees after a push:
  - the id is rendered in decimal;
  - an `undefined` faculty is written as an empty parameter,
    `faculty=''`, which the `!= ''` test at line 26 turns into "no
    filter";
  - the search text is always present.
- Array-valued parameters are not modelled. This covers `string[]` for URL
  parameters and for `handleSelect`'s value.
