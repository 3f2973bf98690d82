/** The two records the listing page reads from the store: `Subject` rows and
    `Faculty` rows. Identifiers are store-assigned non-negative integers. */
module Catalogue {

  /** A catalogue entry; `facultyId` points at the faculty that offers it,
      `registerSum` counts students who registered and `earnSum` those who
      earned the credit. */
  datatype Subject = Subject(
    id: nat,
    name: string,
    facultyId: nat,
    registerSum: nat,
    earnSum: nat
  )

  /** An organisational unit offering subjects. */
  datatype Faculty = Faculty(id: nat, name: string)

  /** Some faculty in `faculties` carries the identifier `id`. */
  predicate HasFaculty(faculties: seq<Faculty>, id: nat)
  {
    exists j :: 0 <= j < |faculties| && faculties[j].id == id
  }
}
