/** The row projection of the listing page: each subject on the current page
    becomes `{id, name, facultyName, percentage}`, the faculty name found by
    looking the subject's `facultyId` up in the faculty list and the
    percentage truncated to one decimal place. */
module Projection {
  import opened Wrappers
  import opened Catalogue

  /** One displayed row. `percentage` is a number of tenths of a percent;
      `None` is the "no data" value for a subject nobody registered for. */
  datatype SubjectView = SubjectView(
    id: nat,
    name: string,
    facultyName: string,
    percentage: Option<nat>
  )

  /** `faculties.find(f => f.id === facultyId).name` throws when no faculty
      carries the id; the failure names the subject and the dangling id. */
  datatype ProjectionError = MissingFaculty(subjectId: nat, facultyId: nat)

  /** Position of the first faculty carrying `id`, as `find` scans. */
  function FacultyIndex(faculties: seq<Faculty>, id: nat): (r: Option<nat>)
    ensures r.None? <==> !HasFaculty(faculties, id)
    ensures r.Some? ==> r.value < |faculties| && faculties[r.value].id == id
    ensures r.Some? ==> forall j :: 0 <= j < r.value ==> faculties[j].id != id
  {
    if faculties == [] then None
    else if faculties[0].id == id then Some(0)
    else
      match FacultyIndex(faculties[1..], id)
      case None => None
      case Some(k) => Some(k + 1)
  }

  /** `Math.floor(1000 * earnSum / registerSum)`: the earn rate in tenths of
      a percent, rounded down. When nobody registered the source divides by
      zero; the model answers `None` there. */
  function PercentTenths(earnSum: nat, registerSum: nat): (r: Option<nat>)
    ensures r.None? <==> registerSum == 0
    ensures r.Some? ==>
              r.value * registerSum <= 1000 * earnSum < (r.value + 1) * registerSum
  {
    if registerSum == 0 then None
    else Some(1000 * earnSum / registerSum)
  }

  /** When no more students earned the credit than registered for it, the
      percentage lies between 0 and 100. */
  lemma PercentageBound(earnSum: nat, registerSum: nat)
    requires 0 < registerSum && earnSum <= registerSum
    ensures PercentTenths(earnSum, registerSum).Some?
    ensures PercentTenths(earnSum, registerSum).value <= 1000
  {
  }

  /** One earned out of three registered shows 33.3, not 33.4: the rate is
      truncated, not rounded. */
  lemma TruncationExample()
    ensures PercentTenths(1, 3) == Some(333)
    ensures PercentTenths(67, 200) == Some(335)
    ensures PercentTenths(80, 100) == Some(800)
  {
  }

  /** The object the `map` callback builds for one subject: it keeps the
      subject's id and name, takes the name of the first faculty carrying the
      subject's `facultyId`, and fails exactly when there is none. */
  function ProjectSubject(s: Subject, faculties: seq<Faculty>): (r: Result<SubjectView, ProjectionError>)
    ensures r.Failure? <==> !HasFaculty(faculties, s.facultyId)
    ensures r.Failure? ==> r.error == MissingFaculty(s.id, s.facultyId)
    ensures r.Success? ==>
              && r.value.id == s.id
              && r.value.name == s.name
              && r.value.percentage == PercentTenths(s.earnSum, s.registerSum)
              && exists k :: 0 <= k < |faculties|
                   && faculties[k].id == s.facultyId
                   && r.value.facultyName == faculties[k].name
                   && forall j :: 0 <= j < k ==> faculties[j].id != s.facultyId
  {
    match FacultyIndex(faculties, s.facultyId)
    case None => Failure(MissingFaculty(s.id, s.facultyId))
    case Some(k) =>
      Success(SubjectView(s.id, s.name, faculties[k].name,
                          PercentTenths(s.earnSum, s.registerSum)))
  }

  /** `page.map(...)`: succeeds exactly when every subject on the page has a
      faculty, producing one row per subject in page order; otherwise it
      fails on the first subject that has none, as the thrown error would. */
  function ProjectPage(page: seq<Subject>, faculties: seq<Faculty>): (r: Result<seq<SubjectView>, ProjectionError>)
    ensures r.Success? <==> forall i :: 0 <= i < |page| ==> HasFaculty(faculties, page[i].facultyId)
    ensures r.Success? ==>
              && |r.value| == |page|
              && forall i :: 0 <= i < |page| ==> Success(r.value[i]) == ProjectSubject(page[i], faculties)
    ensures r.Failure? ==>
              exists k :: 0 <= k < |page|
                && !HasFaculty(faculties, page[k].facultyId)
                && r.error == MissingFaculty(page[k].id, page[k].facultyId)
                && forall j :: 0 <= j < k ==> HasFaculty(faculties, page[j].facultyId)
  {
    if page == [] then Success([])
    else
      match ProjectSubject(page[0], faculties)
      case Failure(e) => Failure(e)
      case Success(v) =>
        match ProjectPage(page[1..], faculties)
        case Failure(e) => Failure(e)
        case Success(vs) => Success([v] + vs)
  }
}
