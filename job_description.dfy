/** The job description page: whether the signed-in user has applied, the
    apply button's guards, and the local update after a successful
    application. */
module JobDescription {

  import opened Optional
  import opened Session
  import opened JobBoard

  /** `applications.some(a => a.applicant === id)`. */
  function HasApplicant(apps: seq<Application>, id: string): (b: bool)
    ensures b <==> exists i :: 0 <= i < |apps| && apps[i].applicant == id
  {
    if apps == [] then false
    else if apps[0].applicant == id then true
    else
      var b := HasApplicant(apps[1..], id);
      assert b ==> exists i :: 0 <= i < |apps| && apps[i].applicant == id by {
        if b {
          var i :| 0 <= i < |apps[1..]| && apps[1..][i].applicant == id;
          assert apps[i + 1].applicant == id;
        }
      }
      b
  }

  /** Whether the page counts `u` as having applied to `job`: false
      without a job or without a user, whose `_id` is `undefined` and so
      equals no applicant. */
  function AppliedBy(job: Option<Job>, u: AuthUser): (b: bool)
    ensures b <==> job.Some? && u.Present? && HasApplicant(job.value.applications, u.user.id)
    ensures job.Some? && job.value.applications == [] ==> !b
  {
    job.Some? && u.Present? && HasApplicant(job.value.applications, u.user.id)
  }

  /** The job after a successful application: one entry for `id` at the
      end, earlier entries kept in order, every other field kept. */
  function WithApplicant(job: Job, id: string): (j: Job)
    ensures |j.applications| == |job.applications| + 1
    ensures j.applications[..|job.applications|] == job.applications
    ensures j.applications[|job.applications|] == Application(id)
    ensures j.(applications := job.applications) == job
  {
    job.(applications := job.applications + [Application(id)])
  }

  /** Appending an application for `id` makes `id` an applicant and leaves
      every other user's standing as it was. */
  lemma AppendedApplicantFound(apps: seq<Application>, id: string, other: string)
    ensures HasApplicant(apps + [Application(id)], id)
    ensures other != id ==> (HasApplicant(apps + [Application(id)], other) <==> HasApplicant(apps, other))
  {
    var extended := apps + [Application(id)];
    assert extended[|apps|].applicant == id;
    if other != id && HasApplicant(extended, other) {
      var i :| 0 <= i < |extended| && extended[i].applicant == other;
      assert i < |apps| && apps[i].applicant == other;
    }
    if HasApplicant(apps, other) {
      var i :| 0 <= i < |apps| && apps[i].applicant == other;
      assert extended[i].applicant == other;
    }
  }

  /** What pressing the apply button led to. */
  datatype ApplyResult =
    | LoginRequired        // no user: sent to the login page, no request
    | NotAJobSeeker        // a user whose role is not "student": no request
    | Rejected             // the request failed or reported no success
    | Applied              // the request succeeded
    | AppliedWithoutJob    // success, but no job was loaded: the update throws

  /** The page's state: the store's `singleJob` and the local `isApplied`. */
  class JobPage {
    var singleJob: Option<Job>
    var isApplied: bool

    /** The local flag agrees with the store's job for the user. */
    ghost predicate InSync(u: AuthUser)
      reads this
    {
      isApplied == AppliedBy(singleJob, u)
    }

    /** Mounting the page: `isApplied` starts from the job already in the
        store. */
    constructor (job: Option<Job>, u: AuthUser)
      ensures singleJob == job
      ensures isApplied == AppliedBy(job, u)
      ensures InSync(u)
    {
      singleJob := job;
      isApplied := AppliedBy(job, u);
    }

    /** `applyJobHandler`: `accepted` is the server's `success` (false also
        for a failed request). */
    method ApplyJob(u: AuthUser, accepted: bool) returns (r: ApplyResult)
      modifies this
      ensures !u.Truthy() ==> r == LoginRequired
      ensures u.Present? && u.user.role != "student" ==> r == NotAJobSeeker
      ensures u.HasRole("student") && !accepted ==> r == Rejected
      ensures r in {LoginRequired, NotAJobSeeker, Rejected} ==>
        singleJob == old(singleJob) && isApplied == old(isApplied)
      ensures u.HasRole("student") && accepted ==> isApplied
      ensures u.HasRole("student") && accepted && old(singleJob).Some? ==>
        r == Applied && singleJob == Some(WithApplicant(old(singleJob).value, u.user.id))
      ensures u.HasRole("student") && accepted && old(singleJob).None? ==>
        r == AppliedWithoutJob && singleJob == None
      ensures r == Applied ==> InSync(u)
    {
      if !u.Truthy() {
        return LoginRequired;
      }
      if u.user.role != "student" {
        return NotAJobSeeker;
      }
      if !accepted {
        return Rejected;
      }
      isApplied := true;
      if singleJob.None? {
        return AppliedWithoutJob;
      }
      singleJob := Some(WithApplicant(singleJob.value, u.user.id));
      ApplyKeepsInSync(old(singleJob).value, u.user);
      return Applied;
    }

    /** The button: inert while `isApplied` holds. */
    method ClickApply(u: AuthUser, accepted: bool) returns (r: Option<ApplyResult>)
      modifies this
      ensures old(isApplied) ==> r == None && singleJob == old(singleJob) && isApplied
      ensures !old(isApplied) ==> r.Some?
    {
      if isApplied {
        return None;
      }
      var result := ApplyJob(u, accepted);
      return Some(result);
    }

    /** A successful fetch stores the job and recomputes `isApplied`. */
    method FetchSucceeded(job: Job, u: AuthUser)
      modifies this
      ensures singleJob == Some(job)
      ensures isApplied <==> u.Present? && HasApplicant(job.applications, u.user.id)
      ensures InSync(u)
    {
      singleJob := Some(job);
      isApplied := AppliedBy(singleJob, u);
    }
  }

  /** A successful application keeps the flag in step with the stored
      job: after it, a student is counted as having applied, just as a
      fresh fetch reflecting the new entry would say. */
  lemma ApplyKeepsInSync(job: Job, user: User)
    requires user.role == "student"
    ensures AppliedBy(Some(WithApplicant(job, user.id)), Present(user))
  {
    AppendedApplicantFound(job.applications, user.id, user.id);
  }
}
