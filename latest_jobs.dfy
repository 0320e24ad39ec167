/** The home page's latest-jobs section. */
module LatestJobs {

  import opened JobBoard

  const CardLimit := 6

  /** `allJobs.slice(0, 6)`. */
  function ShownJobs(all: seq<Job>): (shown: seq<Job>)
    ensures |shown| == if |all| < CardLimit then |all| else CardLimit
    ensures shown == all[..|shown|]
  {
    if |all| <= CardLimit then all else all[..CardLimit]
  }

  /** "No Jobs Available" replaces the cards: exactly when there is no job,
      so exactly when no card would show. */
  predicate ShowsEmptyState(all: seq<Job>): (b: bool)
    ensures b <==> all == []
    ensures b <==> ShownJobs(all) == []
  {
    |all| <= 0
  }

  /** The "View All Jobs" button: shown exactly when some job is left off
      the page. */
  predicate ShowsViewAll(all: seq<Job>): (b: bool)
    ensures b <==> ShownJobs(all) != all
  {
    assert |all| > CardLimit ==> |ShownJobs(all)| < |all|;
    |all| > CardLimit
  }

  /** With exactly six jobs every one is shown and there is no button. */
  lemma SixJobsAllShown(all: seq<Job>)
    requires |all| == CardLimit
    ensures ShownJobs(all) == all && !ShowsViewAll(all)
  {
  }
}
