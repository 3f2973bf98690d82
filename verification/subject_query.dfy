/** The server-side half of the listing page: `getServerSideProps` chooses one
    of four store queries from the `faculty` and `searchQuery` URL parameters.
    The store is a sequence of subject rows; the store's fuzzy text operator
    (`name &@~ query`) is the collaborator `matches`, and JavaScript's
    `parseInt` applied to the faculty parameter is the collaborator `parseId`. */
module SubjectQuery {
  import opened Wrappers
  import opened Catalogue

  /** The two URL parameters the query is chosen from; `None` is `undefined`. */
  datatype Request = Request(faculty: Option<string>, searchQuery: Option<string>)

  /** The rows of `store` satisfying `p`, in store order: a `WHERE` clause.
      Each row occurs in the answer as often as in the store if it satisfies
      `p`, and not at all otherwise. */
  function Where(store: seq<Subject>, p: Subject -> bool): (r: seq<Subject>)
    ensures forall x :: multiset(r)[x] == if p(x) then multiset(store)[x] else 0
    ensures forall x :: x in r <==> x in store && p(x)
  {
    if store == [] then []
    else
      assert store == [store[0]] + store[1..];
      (if p(store[0]) then [store[0]] else []) + Where(store[1..], p)
  }

  /** `query.faculty != undefined && query.faculty != ''` */
  predicate FacultyFilterActive(req: Request)
    ensures FacultyFilterActive(req) ==> req.faculty.Some? && |req.faculty.value| >= 1
    ensures req.faculty == None || req.faculty == Some("") ==> !FacultyFilterActive(req)
  {
    req.faculty.Some? && req.faculty.value != ""
  }

  /** The truthiness of `query.searchQuery`: present and non-empty. */
  predicate TextFilterActive(req: Request)
    ensures TextFilterActive(req) ==> req.searchQuery.Some? && |req.searchQuery.value| >= 1
    ensures req.searchQuery == None || req.searchQuery == Some("") ==> !TextFilterActive(req)
  {
    req.searchQuery.Some? && req.searchQuery.value != ""
  }

  /** The reference meaning of a request: a subject is admitted when every
      active filter accepts it. */
  predicate Admits(req: Request, parseId: string -> int,
                   matches: (string, string) -> bool, s: Subject)
  {
    && (FacultyFilterActive(req) ==> s.facultyId == parseId(req.faculty.value))
    && (TextFilterActive(req) ==> matches(s.name, req.searchQuery.value))
  }

  /** `SELECT * FROM "Subject" WHERE name &@~ q AND "facultyId" = id` */
  function SubjectsMatchingOfFaculty(store: seq<Subject>, q: string, id: int,
                                     matches: (string, string) -> bool): (r: seq<Subject>)
    ensures forall x :: x in r <==> x in store && matches(x.name, q) && x.facultyId == id
    ensures forall x :: multiset(r)[x] ==
              if matches(x.name, q) && x.facultyId == id then multiset(store)[x] else 0
  {
    Where(store, (s: Subject) => matches(s.name, q) && s.facultyId == id)
  }

  /** `SELECT * FROM "Subject" WHERE "facultyId" = id` */
  function SubjectsOfFaculty(store: seq<Subject>, id: int): (r: seq<Subject>)
    ensures forall x :: x in r <==> x in store && x.facultyId == id
    ensures forall x :: multiset(r)[x] == if x.facultyId == id then multiset(store)[x] else 0
  {
    Where(store, (s: Subject) => s.facultyId == id)
  }

  /** `SELECT * FROM "Subject" WHERE name &@~ q` */
  function SubjectsMatching(store: seq<Subject>, q: string,
                            matches: (string, string) -> bool): (r: seq<Subject>)
    ensures forall x :: x in r <==> x in store && matches(x.name, q)
    ensures forall x :: multiset(r)[x] == if matches(x.name, q) then multiset(store)[x] else 0
  {
    Where(store, (s: Subject) => matches(s.name, q))
  }

  /** `SELECT * FROM "Subject"` */
  function AllSubjects(store: seq<Subject>): (r: seq<Subject>)
    ensures multiset(r) == multiset(store)
  {
    Where(store, (s: Subject) => true)
  }

  /** The nested conditional of `getServerSideProps`: whichever of the four
      queries runs, the answer holds exactly the admitted rows of the store,
      each as often as the store holds it. */
  function SelectSubjects(store: seq<Subject>, req: Request, parseId: string -> int,
                          matches: (string, string) -> bool): (r: seq<Subject>)
    ensures forall x :: multiset(r)[x] ==
              if Admits(req, parseId, matches, x) then multiset(store)[x] else 0
    ensures forall x :: x in r <==> x in store && Admits(req, parseId, matches, x)
  {
    if req.faculty.Some? && req.faculty.value != "" then
      var id := parseId(req.faculty.value);
      if req.searchQuery.Some? && req.searchQuery.value != "" then
        SubjectsMatchingOfFaculty(store, req.searchQuery.value, id, matches)
      else
        SubjectsOfFaculty(store, id)
    else if req.searchQuery.Some? && req.searchQuery.value != "" then
      SubjectsMatching(store, req.searchQuery.value, matches)
    else
      AllSubjects(store)
  }

  /** With neither filter active the page lists the whole store. */
  lemma NoFilterListsAll(store: seq<Subject>, req: Request, parseId: string -> int,
                         matches: (string, string) -> bool)
    requires !FacultyFilterActive(req) && !TextFilterActive(req)
    ensures multiset(SelectSubjects(store, req, parseId, matches)) == multiset(store)
  {
  }

  /** An empty `faculty` parameter, which is how the URL carries an
      unselected faculty, filters exactly as an absent one does. */
  lemma EmptyFacultyIsNoFilter(store: seq<Subject>, q: Option<string>, parseId: string -> int,
                               matches: (string, string) -> bool)
    ensures SelectSubjects(store, Request(Some(""), q), parseId, matches)
            == SelectSubjects(store, Request(None, q), parseId, matches)
  {
  }

  /** Dropping the faculty parameter never removes a row from the answer. */
  lemma DropFacultyWidens(store: seq<Subject>, req: Request, parseId: string -> int,
                          matches: (string, string) -> bool)
    ensures multiset(SelectSubjects(store, req, parseId, matches))
            <= multiset(SelectSubjects(store, req.(faculty := None), parseId, matches))
  {
  }

  /** Dropping the text query never removes a row from the answer. */
  lemma DropTextWidens(store: seq<Subject>, req: Request, parseId: string -> int,
                       matches: (string, string) -> bool)
    ensures multiset(SelectSubjects(store, req, parseId, matches))
            <= multiset(SelectSubjects(store, req.(searchQuery := None), parseId, matches))
  {
  }
}
