/** The `Home` component of the listing page: its state (`skipNum`, the
    selected faculty and the search box text), what it renders from the
    server's subject list, and the three handlers `search`, `onChangePage`
    and `handleSelect` together with the route they push back to the
    server. */
module Home {
  import opened Wrappers
  import opened Catalogue
  import opened Decimal
  import opened SubjectQuery
  import opened Pagination
  import opened Projection

  /** `useState(0)`, `useState(undefined)` and `useInput('')`. */
  datatype UiState = UiState(skipNum: int, faculty: Option<Faculty>, searchText: string)

  /** The `query` object handed to `router.push`: the search text and the
      selected faculty's id, or `undefined`. */
  datatype Route = Route(searchQuery: string, faculty: Option<nat>)

  /** What the page shows: the filtered total `counts`, the number of pages,
      the current page number and the projected rows of that page. */
  datatype Listing = Listing(counts: nat, paginationNum: nat, page: int, rows: seq<SubjectView>)

  /** The state of a freshly mounted page. */
  function Initial(): (st: UiState)
    ensures ValidOffset(st.skipNum) && DisplayedPage(st.skipNum) == 1
    ensures st.faculty.None? && st.searchText == ""
  {
    UiState(0, None, "")
  }

  /** `pushRoute({newFaculty, newSearchQuery})`: a non-empty
      `newSearchQuery` replaces the box's text, and the faculty travels as its
      id. */
  function PushRoute(st: UiState, newFaculty: Option<Faculty>, newSearchQuery: Option<string>): (r: Route)
    ensures r.faculty.Some? <==> newFaculty.Some?
    ensures newFaculty.Some? ==> r.faculty.value == newFaculty.value.id
    ensures r.searchQuery == st.searchText || (newSearchQuery.Some? && r.searchQuery == newSearchQuery.value)
    ensures r.searchQuery == "" ==> st.searchText == ""
    ensures newSearchQuery.Some? && newSearchQuery.value != "" ==> r.searchQuery == newSearchQuery.value
  {
    Route(
      if newSearchQuery.Some? && newSearchQuery.value != "" then newSearchQuery.value else st.searchText,
      if newFaculty.Some? then Some(newFaculty.value.id) else None)
  }

  /** The request `getServerSideProps` receives after the push. The URL
      formatter writes every query value that is not a string, number or
      boolean as an empty parameter, so an `undefined` faculty arrives as
      `faculty=''`; an id arrives rendered in decimal; the search text is
      always present, possibly empty. The faculty filter is on exactly when
      the route names a faculty, the text filter exactly when the text is
      non-empty. */
  function RequestOf(route: Route): (req: Request)
    ensures FacultyFilterActive(req) <==> route.faculty.Some?
    ensures route.faculty.Some? ==> req.faculty == Some(NatToDecimal(route.faculty.value))
    ensures route.faculty.None? ==> req.faculty == Some("")
    ensures TextFilterActive(req) <==> route.searchQuery != ""
    ensures TextFilterActive(req) ==> req.searchQuery.value == route.searchQuery
  {
    Request(
      if route.faculty.Some? then Some(NatToDecimal(route.faculty.value)) else Some(""),
      Some(route.searchQuery))
  }

  /** `faculties.find(f => f.id.toString() === val)`: the first faculty
      whose rendered id is `val`, if any. */
  function FindByOptionValue(faculties: seq<Faculty>, val: string): (r: Option<Faculty>)
    ensures r.None? <==> forall j :: 0 <= j < |faculties| ==> NatToDecimal(faculties[j].id) != val
    ensures r.Some? ==>
              exists k :: 0 <= k < |faculties| && faculties[k] == r.value
                && NatToDecimal(r.value.id) == val
                && forall j :: 0 <= j < k ==> NatToDecimal(faculties[j].id) != val
  {
    if faculties == [] then None
    else if NatToDecimal(faculties[0].id) == val then Some(faculties[0])
    else FindByOptionValue(faculties[1..], val)
  }

  /** `search`: back to the first page, keeping the faculty and the text,
      and push a route carrying both. */
  function Search(st: UiState): (r: (UiState, Route))
    ensures r.0 == st.(skipNum := 0)
    ensures r.1.searchQuery == st.searchText
    ensures r.1.faculty.Some? <==> st.faculty.Some?
    ensures st.faculty.Some? ==> r.1.faculty.value == st.faculty.value.id
  {
    (st.(skipNum := 0), PushRoute(st, st.faculty, None))
  }

  /** `onChangePage(val)`: only the offset changes, and it is the one whose
      displayed page number is `val`. */
  function ChangePage(st: UiState, val: int): (r: UiState)
    ensures r.faculty == st.faculty && r.searchText == st.searchText
    ensures r.skipNum % PageSize == 0 && DisplayedPage(r.skipNum) == val
  {
    PageRoundTrip(val);
    st.(skipNum := SkipForPage(val))
  }

  /** `handleSelect(val)`: `'all'` clears the faculty, any other value
      selects the faculty whose rendered id it is (none if there is no such
      faculty); either way the offset returns to the first page and the route
      carries the new selection. */
  function HandleSelect(st: UiState, val: string, faculties: seq<Faculty>): (r: (UiState, Route))
    ensures r.0.skipNum == 0 && r.0.searchText == st.searchText
    ensures val == "all" ==> r.0.faculty == None
    ensures r.0.faculty.Some? ==> r.0.faculty.value in faculties && NatToDecimal(r.0.faculty.value.id) == val
    ensures r.1.searchQuery == st.searchText
    ensures r.1.faculty.Some? <==> r.0.faculty.Some?
    ensures r.0.faculty.Some? ==> r.1.faculty.value == r.0.faculty.value.id
  {
    var faculty := if val == "all" then None else FindByOptionValue(faculties, val);
    (st.(faculty := faculty, skipNum := 0), PushRoute(st, faculty, None))
  }

  /** The body of `Home`: count the whole list, compute the page count, cut
      out the current page and project it. The total shown is the length of
      the whole list, never more than a page of rows is shown, and the rows
      are the projections of the window at `skipNum`. */
  function Render(subjects: seq<Subject>, faculties: seq<Faculty>, st: UiState): (r: Result<Listing, ProjectionError>)
    requires st.skipNum % PageSize == 0
    ensures r.Failure? <==>
              exists i :: 0 <= i < |PageWindow(subjects, st.skipNum)|
                && !HasFaculty(faculties, PageWindow(subjects, st.skipNum)[i].facultyId)
    ensures r.Success? ==>
              && r.value.counts == |subjects|
              && r.value.paginationNum == PageCount(|subjects|)
              && r.value.page == DisplayedPage(st.skipNum)
              && |r.value.rows| <= PageSize
              && |r.value.rows| <= r.value.counts
              && |r.value.rows| == |PageWindow(subjects, st.skipNum)|
              && forall i :: 0 <= i < |r.value.rows| ==>
                   Success(r.value.rows[i]) == ProjectSubject(PageWindow(subjects, st.skipNum)[i], faculties)
  {
    var counts := |subjects|;
    var paginationNum := PageCount(counts);
    match ProjectPage(PageWindow(subjects, st.skipNum), faculties)
    case Failure(e) => Failure(e)
    case Success(rows) => Success(Listing(counts, paginationNum, DisplayedPage(st.skipNum), rows))
  }

  /** Every transition keeps the offset a non-negative multiple of the page
      size, provided the widget reports a page number of at least one. */
  lemma OffsetStaysValid(st: UiState, val: int, choice: string, faculties: seq<Faculty>)
    ensures ValidOffset(Initial().skipNum)
    ensures ValidOffset(Search(st).0.skipNum)
    ensures ValidOffset(HandleSelect(st, choice, faculties).0.skipNum)
    ensures ValidOffset(ChangePage(st, val).skipNum) <==> val >= 1
  {
  }

  /** An option value is never `'all'`, so the two branches of
      `handleSelect` never compete. */
  lemma OptionValueIsNotAll(f: Faculty)
    ensures NatToDecimal(f.id) != "all"
  {
  }

  /** Choosing the option rendered for `faculties[k]` selects a faculty with
      that id, and the route pushed names that id. */
  lemma SelectOption(st: UiState, faculties: seq<Faculty>, k: nat)
    requires k < |faculties|
    ensures var (st', route) := HandleSelect(st, NatToDecimal(faculties[k].id), faculties);
            && st'.faculty.Some? && st'.faculty.value.id == faculties[k].id
            && route.faculty == Some(faculties[k].id)
  {
    var val := NatToDecimal(faculties[k].id);
    OptionValueIsNotAll(faculties[k]);
    var found := FindByOptionValue(faculties, val);
    assert found.Some?;
    DecimalInjective(found.value.id, faculties[k].id);
  }

  /** A value that is not the decimal rendering of any number (a leading
      zero, a sign, any other text than `'all'`) selects no faculty. */
  lemma SelectNonCanonicalClears(st: UiState, val: string, faculties: seq<Faculty>)
    requires !Canonical(val)
    ensures HandleSelect(st, val, faculties).0.faculty == None
  {
  }

  /** Selecting the option of `faculties[k]` and letting the server answer the
      pushed route lists exactly the subjects of that faculty that the search
      text (when there is one) matches, given that `parseId` reads the
      rendered id back. */
  lemma SelectThenQuery(st: UiState, faculties: seq<Faculty>, k: nat, store: seq<Subject>,
                        parseId: string -> int, matches: (string, string) -> bool)
    requires k < |faculties|
    requires parseId(NatToDecimal(faculties[k].id)) == faculties[k].id
    ensures var route := HandleSelect(st, NatToDecimal(faculties[k].id), faculties).1;
            forall x :: x in SelectSubjects(store, RequestOf(route), parseId, matches) <==>
              && x in store
              && x.facultyId == faculties[k].id
              && (st.searchText != "" ==> matches(x.name, st.searchText))
  {
  }

  /** Choosing `'all'` and letting the server answer the pushed route lists
      every subject the search text (when there is one) matches. */
  lemma SelectAllThenQuery(st: UiState, faculties: seq<Faculty>, store: seq<Subject>,
                           parseId: string -> int, matches: (string, string) -> bool)
    ensures var route := HandleSelect(st, "all", faculties).1;
            forall x :: x in SelectSubjects(store, RequestOf(route), parseId, matches) <==>
              x in store && (st.searchText != "" ==> matches(x.name, st.searchText))
  {
  }
}
