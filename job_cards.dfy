/** The job cards: the "posted ... ago" label both card kinds compute the
    same way, the location fallbacks, which differ, and the save button. */
module JobCards {

  import opened Strings
  import opened Session
  import opened JobBoard

  const MsPerDay := 1000 * 24 * 60 * 60

  /** Whole days between posting and now, rounded down (`Math.floor`), so
      a timestamp in the future gives a negative count. */
  function DaysAgo(now: int, createdAt: int): (days: int)
    ensures days * MsPerDay <= now - createdAt < (days + 1) * MsPerDay
    ensures days >= 0 <==> createdAt <= now
  {
    (now - createdAt) / MsPerDay
  }

  /** The card's age label. */
  function AgeLabel(now: int, createdAt: int): (text: string)
    ensures text == "Today" <==> 0 <= now - createdAt < MsPerDay
    ensures text == "Yesterday" <==> MsPerDay <= now - createdAt < 2 * MsPerDay
    ensures text != "Today" && text != "Yesterday" ==>
      text == IntToDecimal(DaysAgo(now, createdAt)) + " days ago"
  {
    var days := DaysAgo(now, createdAt);
    if days == 0 then "Today"
    else if days == 1 then "Yesterday"
    else IntToDecimal(days) + " days ago"
  }

  /** A job posted in the future reads "-N days ago". */
  lemma FutureJobNegativeAge(now: int, createdAt: int)
    requires now < createdAt
    ensures AgeLabel(now, createdAt)[0] == '-'
  {
  }

  /** A job exactly one week old. */
  lemma WeekOldLabel(createdAt: int)
    ensures AgeLabel(createdAt + 7 * MsPerDay, createdAt) == "7 days ago"
  {
    assert DaysAgo(createdAt + 7 * MsPerDay, createdAt) == 7;
    assert NatToDecimal(7) == "7";
  }

  /** `location || fallback`. */
  function LocationOr(location: string, fallback: string): (shown: string)
    ensures location != [] ==> shown == location
    ensures location == [] ==> shown == fallback
  {
    if location != [] then location else fallback
  }

  /** Job.jsx falls back to "India". */
  function JobCardLocation(job: Job): (shown: string)
    ensures job.location != [] ==> shown == job.location
    ensures job.location == [] ==> shown == "India"
  {
    LocationOr(job.location, "India")
  }

  /** LatestJobCards.jsx and the description page fall back to "Remote". */
  function LatestCardLocation(job: Job): (shown: string)
    ensures job.location != [] ==> shown == job.location
    ensures job.location == [] ==> shown == "Remote"
  {
    LocationOr(job.location, "Remote")
  }

  /** The two card kinds agree on a job with a location and disagree on
      one without. */
  lemma LocationFallbacksDiffer(job: Job)
    ensures job.location != [] ==> JobCardLocation(job) == LatestCardLocation(job)
    ensures job.location == [] ==> JobCardLocation(job) != LatestCardLocation(job)
  {
  }

  datatype SaveResult = LoginRequired | SavedForLater

  /** The save button: a visitor with no user is sent to log in; for anyone
      else it only reports success. */
  function SaveClicked(u: AuthUser): (r: SaveResult)
    ensures r == LoginRequired <==> !u.Truthy()
  {
    if !u.Truthy() then LoginRequired else SavedForLater
  }

  /** Where the save button navigates. */
  function SaveNavigation(r: SaveResult): (n: Navigation)
    ensures n == NavigateTo("/login") <==> r == LoginRequired
    ensures n != NavigateTo("/login") ==> n == Stay
  {
    if r == LoginRequired then NavigateTo("/login") else Stay
  }
}
