/** The job list page: the search filter and the result count. */
module JobSearch {

  import opened Strings
  import opened JobBoard

  /** The lower-cased query occurs in the lower-cased title, description
      or location. */
  predicate Matches(job: Job, query: string): (b: bool)
    ensures query == [] ==> b
    ensures b ==> |query| <= |job.title| || |query| <= |job.description| || |query| <= |job.location|
  {
    assert query == [] ==> OccursAt(ToLower(job.title), ToLower(query), 0);
    var q := ToLower(query);
    || Includes(ToLower(job.title), q)
    || Includes(ToLower(job.description), q)
    || Includes(ToLower(job.location), q)
  }

  /** `allJobs.filter(...)` with the matching predicate. */
  function Keep(jobs: seq<Job>, query: string): (r: seq<Job>)
    ensures |r| <= |jobs|
    ensures forall j :: j in r <==> j in jobs && Matches(j, query)
    ensures forall j :: multiset(r)[j] == if Matches(j, query) then multiset(jobs)[j] else 0
  {
    assert jobs != [] ==> jobs == [jobs[0]] + jobs[1..];
    if jobs == [] then []
    else if Matches(jobs[0], query) then [jobs[0]] + Keep(jobs[1..], query)
    else Keep(jobs[1..], query)
  }

  /** The list the page shows: everything for an empty (or absent) query,
      the matching jobs otherwise. */
  function FilterJobs(all: seq<Job>, query: string): (r: seq<Job>)
    ensures query == [] ==> r == all
    ensures query != [] ==> forall j :: j in r <==> j in all && Matches(j, query)
    ensures query != [] ==> forall j :: multiset(r)[j] == if Matches(j, query) then multiset(all)[j] else 0
    ensures |r| <= |all|
  {
    if query == [] then all else Keep(all, query)
  }

  /** `r` is `s` with some elements left out and the rest in order. */
  predicate IsSubsequence<T(==)>(r: seq<T>, s: seq<T>)
    decreases |s|
  {
    if r == [] then true
    else if s == [] then false
    else if r[0] == s[0] then IsSubsequence(r[1..], s[1..])
    else IsSubsequence(r, s[1..])
  }

  /** The filter keeps the order of the full list. */
  lemma {:induction false} KeepIsSubsequence(jobs: seq<Job>, query: string)
    ensures IsSubsequence(Keep(jobs, query), jobs)
  {
    if jobs != [] {
      KeepIsSubsequence(jobs[1..], query);
      var rest := Keep(jobs[1..], query);
      if !Matches(jobs[0], query) && rest != [] {
        // every kept job matches, and jobs[0] does not
        assert rest[0] in rest;
        assert rest[0] != jobs[0];
      }
    }
  }

  lemma FilterIsSubsequence(all: seq<Job>, query: string)
    ensures IsSubsequence(FilterJobs(all, query), all)
  {
    if query == [] {
      SubsequenceOfItself(all);
    } else {
      KeepIsSubsequence(all, query);
    }
  }

  lemma {:induction false} SubsequenceOfItself<T>(s: seq<T>)
    ensures IsSubsequence(s, s)
  {
    if s != [] {
      SubsequenceOfItself(s[1..]);
    }
  }

  /** The search ignores case on both sides. */
  lemma MatchIgnoresQueryCase(job: Job, query: string)
    ensures Matches(job, query) <==> Matches(job, ToLower(query))
  {
    ToLowerIdempotent(query);
  }

  /** "job" for exactly one result, "jobs" otherwise. */
  function JobNoun(count: nat): (noun: string)
    ensures noun == "job" <==> count == 1
    ensures noun != "job" ==> noun == "jobs"
  {
    if count == 1 then "job" else "jobs"
  }
}
