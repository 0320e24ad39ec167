/** The job records the pages receive from the server, as far as the pages
    read them. Timestamps are integer milliseconds. */
module JobBoard {

  /** An entry of a job's `applications`: who applied. */
  datatype Application = Application(applicant: string)

  /** A missing text field is "". */
  datatype Job = Job(
    id: string,
    title: string,
    description: string,
    location: string,
    createdAt: int,
    applications: seq<Application>)
}
