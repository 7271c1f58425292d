/**
 The HeadHunter script: salary estimates for the vacancies of one search, page
 by page, and the statistics record built from them. The HTTP call of
 `fetch_hh_page` is an injected page source from page index to `Fetch<Page>`.
 */
module HhParse {
  import opened PySemantics
  import Utils

  /** A truthy `salary` block of a vacancy: a non-empty dict, read with `.get`. */
  datatype SalaryFork = SalaryFork(currency: Option<string>, salaryFrom: Option<real>, salaryTo: Option<real>)

  /** A vacancy; `None` stands for every falsy `salary` block (missing, `null` or `{}`). */
  datatype Vacancy = Vacancy(salary: Option<SalaryFork>)

  /** One parsed page: `.get("found")` and `.get("items")`. */
  datatype Page = Page(found: Option<int>, items: Option<seq<Vacancy>>)

  type PageSource = nat -> Fetch<Page>

  // ---------------------------------------------------------------------------
  // Salary estimates

  /** `predict_rub_salary_hh` as written: the guard `not currency != "RUB"`
      holds exactly for "RUB", so it is rouble forks that get no estimate,
      while every other (or missing) currency goes on to the heuristic. */
  function PredictRubSalaryHh(fork: SalaryFork): (r: Option<real>)
    ensures fork.currency == Some("RUB") ==> r.None?
    ensures r.Some? <==>
      fork.currency != Some("RUB") && (TruthyNumber(fork.salaryFrom) || TruthyNumber(fork.salaryTo))
    ensures r.Some? ==> r == Utils.PredictSalary(fork.salaryFrom, fork.salaryTo)
  {
    if !(fork.currency != Some("RUB")) then None
    else Utils.PredictSalary(fork.salaryFrom, fork.salaryTo)
  }

  /** The guard the function's name and docstring describe: an estimate in
      roubles only, for forks whose currency is "RUB". */
  function PredictRubSalaryIntended(fork: SalaryFork): (r: Option<real>)
    ensures r.Some? ==> fork.currency == Some("RUB")
    ensures fork.currency == Some("RUB") ==> r == Utils.PredictSalary(fork.salaryFrom, fork.salaryTo)
  {
    if fork.currency != Some("RUB") then None
    else Utils.PredictSalary(fork.salaryFrom, fork.salaryTo)
  }

  /** The literal guard is the complement of the intended one: on every fork
      with a truthy bound, exactly one of the two yields an estimate. */
  lemma GuardIsInverted(fork: SalaryFork)
    requires TruthyNumber(fork.salaryFrom) || TruthyNumber(fork.salaryTo)
    ensures PredictRubSalaryHh(fork).Some? <==> PredictRubSalaryIntended(fork).None?
  {
  }

  /** A rouble fork 100..200 gets no estimate as written, though the intended
      guard gives 150; the same fork in dollars gets 150 as written. */
  lemma RoubleForkRejected()
    ensures PredictRubSalaryHh(SalaryFork(Some("RUB"), Some(100.0), Some(200.0))) == None
    ensures PredictRubSalaryIntended(SalaryFork(Some("RUB"), Some(100.0), Some(200.0))) == Some(150.0)
    ensures PredictRubSalaryHh(SalaryFork(Some("USD"), Some(100.0), Some(200.0))) == Some(150.0)
  {
  }

  /** `calculate_predicted_salaries`: one estimate (possibly `None`) per vacancy
      whose `salary` block is truthy, in the order of the items. */
  function CalculatePredictedSalaries(responseItems: seq<Vacancy>): (r: seq<Option<real>>)
    ensures |r| <= |responseItems|
    ensures (forall j :: 0 <= j < |responseItems| ==> responseItems[j].salary.Some?) ==>
      |r| == |responseItems|
  {
    if responseItems == [] then []
    else
      var first := match responseItems[0].salary
        case None => []
        case Some(fork) => [PredictRubSalaryHh(fork)];
      first + CalculatePredictedSalaries(responseItems[1..])
  }

  /** The estimates of a concatenation of item lists are the concatenation of
      their estimates: the builder keeps the order of the items. */
  lemma {:induction false} CalculatePredictedSalariesAppend(a: seq<Vacancy>, b: seq<Vacancy>)
    ensures CalculatePredictedSalaries(a + b) == CalculatePredictedSalaries(a) + CalculatePredictedSalaries(b)
  {
    if a == [] {
      assert a + b == b;
    } else {
      assert (a + b)[0] == a[0] && (a + b)[1..] == a[1..] + b;
      CalculatePredictedSalariesAppend(a[1..], b);
    }
  }

  /** An estimate is in the list exactly when some vacancy with a truthy
      `salary` block produces it. */
  lemma {:induction false} CalculatePredictedSalariesMembers(responseItems: seq<Vacancy>, x: Option<real>)
    ensures x in CalculatePredictedSalaries(responseItems) <==>
      exists j :: 0 <= j < |responseItems| && responseItems[j].salary.Some? &&
        x == PredictRubSalaryHh(responseItems[j].salary.value)
  {
    if responseItems != [] {
      var tail := responseItems[1..];
      CalculatePredictedSalariesMembers(tail, x);
      if x in CalculatePredictedSalaries(tail) {
        var j :| 0 <= j < |tail| && tail[j].salary.Some? && x == PredictRubSalaryHh(tail[j].salary.value);
        assert responseItems[j + 1] == tail[j];
      }
      if exists j :: 0 <= j < |responseItems| && responseItems[j].salary.Some? &&
          x == PredictRubSalaryHh(responseItems[j].salary.value) {
        var j :| 0 <= j < |responseItems| && responseItems[j].salary.Some? &&
          x == PredictRubSalaryHh(responseItems[j].salary.value);
        if j > 0 {
          assert tail[j - 1] == responseItems[j];
        }
      }
    }
  }

  // ---------------------------------------------------------------------------
  // The page walk of `calculate_salaries_for_pages`

  /** A page ends the walk: its fetch failed, or its `items` are falsy. */
  predicate StopsWalk(x: Fetch<Page>) {
    !x.Fetched? || !TruthyList(x.page.items)
  }

  /** The first page index in `i..numberOfPages` that ends the walk, or
      `numberOfPages` when none does. */
  function FirstStop(fetch: PageSource, numberOfPages: nat, i: nat): (k: nat)
    requires i <= numberOfPages
    ensures i <= k <= numberOfPages
    ensures forall j :: i <= j < k ==> !StopsWalk(fetch(j))
    ensures k < numberOfPages ==> StopsWalk(fetch(k))
    decreases numberOfPages - i
  {
    if i == numberOfPages || StopsWalk(fetch(i)) then i else FirstStop(fetch, numberOfPages, i + 1)
  }

  /** The stop is determined by the pages: any index with no stop before it
      and a stop at it (or the page bound) is the first stop. */
  lemma {:induction false} FirstStopAt(fetch: PageSource, numberOfPages: nat, i: nat, p: nat)
    requires i <= p <= numberOfPages
    requires forall j :: i <= j < p ==> !StopsWalk(fetch(j))
    requires p < numberOfPages ==> StopsWalk(fetch(p))
    ensures FirstStop(fetch, numberOfPages, i) == p
    decreases p - i
  {
    if i < p {
      assert !StopsWalk(fetch(i));
      FirstStopAt(fetch, numberOfPages, i + 1, p);
    }
  }

  /** Number of pages requested: the pages before the stop, and the stopping
      page itself when the stop comes before the page bound. */
  function RequestCount(fetch: PageSource, numberOfPages: nat): (n: nat)
    ensures n <= numberOfPages
    ensures numberOfPages > 0 ==> n > 0
  {
    var k := FirstStop(fetch, numberOfPages, 0);
    if k < numberOfPages then k + 1 else numberOfPages
  }

  /** The estimates a fetched page contributes. */
  function PageSalaries(x: Fetch<Page>): (r: seq<Option<real>>)
    ensures |r| <= PageVacancies(x)
  {
    if x.Fetched? && x.page.items.Some? then CalculatePredictedSalaries(x.page.items.value) else []
  }

  /** The estimates of pages `lo..hi`, concatenated in page order. */
  function SalariesOfPages(fetch: PageSource, lo: nat, hi: nat): seq<Option<real>>
    decreases hi - lo
  {
    if lo >= hi then [] else SalariesOfPages(fetch, lo, hi - 1) + PageSalaries(fetch(hi - 1))
  }

  /** `if not results_found: results_found = page.get("found")` on one fetch. */
  function CaptureFound(found: Option<int>, x: Fetch<Page>): Option<int> {
    if x.Fetched? && !TruthyInt(found) then x.page.found else found
  }

  /** `results_found` after the fetches of pages `lo..hi`, from `found`. */
  function FoundAfter(fetch: PageSource, lo: nat, hi: nat, found: Option<int>): Option<int>
    decreases hi - lo
  {
    if lo >= hi then found else CaptureFound(FoundAfter(fetch, lo, hi - 1, found), fetch(hi - 1))
  }

  /** `calculate_salaries_for_pages`: requests pages `0, 1, ...` in order, at
      most `numberOfPages` of them; stops at the first transport failure or the
      first page with falsy `items`; the estimates are those of the pages
      before the stop, and `results_found` is captured from every fetched page
      while it is falsy. `requested` lists the page indices asked for. */
  method CalculateSalariesForPages(fetch: PageSource, numberOfPages: nat)
    returns (salaries: seq<Option<real>>, resultsFound: Option<int>, ghost requested: seq<nat>)
    ensures requested == Utils.Indices(RequestCount(fetch, numberOfPages))
    ensures salaries == SalariesOfPages(fetch, 0, FirstStop(fetch, numberOfPages, 0))
    ensures resultsFound == FoundAfter(fetch, 0, RequestCount(fetch, numberOfPages), Some(0))
  {
    salaries := [];
    resultsFound := Some(0);
    requested := [];
    for pageNumber := 0 to numberOfPages
      invariant requested == Utils.Indices(pageNumber)
      invariant forall j :: 0 <= j < pageNumber ==> !StopsWalk(fetch(j))
      invariant salaries == SalariesOfPages(fetch, 0, pageNumber)
      invariant resultsFound == FoundAfter(fetch, 0, pageNumber, Some(0))
    {
      requested := requested + [pageNumber];
      var parsedResponse := fetch(pageNumber);
      if !parsedResponse.Fetched? {
        // HTTPError or ConnectionError: give up on the remaining pages
        FirstStopAt(fetch, numberOfPages, 0, pageNumber);
        return;
      }
      if !TruthyInt(resultsFound) {
        resultsFound := parsedResponse.page.found;
      }
      var responseItems := parsedResponse.page.items;
      if !TruthyList(responseItems) {
        FirstStopAt(fetch, numberOfPages, 0, pageNumber);
        return;
      }
      assert PageSalaries(parsedResponse) == CalculatePredictedSalaries(responseItems.value);
      salaries := salaries + CalculatePredictedSalaries(responseItems.value);
    }
    FirstStopAt(fetch, numberOfPages, 0, numberOfPages);
  }

  // ---------------------------------------------------------------------------
  // Properties of the walk

  /** A walk that meets a failed fetch or an empty page at index `p` keeps the
      estimates of pages `0..p` and nothing after. */
  lemma StopKeepsEarlierPages(fetch: PageSource, numberOfPages: nat, p: nat)
    requires p < numberOfPages && StopsWalk(fetch(p))
    requires forall j :: 0 <= j < p ==> !StopsWalk(fetch(j))
    ensures SalariesOfPages(fetch, 0, FirstStop(fetch, numberOfPages, 0)) == SalariesOfPages(fetch, 0, p)
    ensures RequestCount(fetch, numberOfPages) == p + 1
  {
    FirstStopAt(fetch, numberOfPages, 0, p);
  }

  lemma {:induction false} SalariesOfPagesAgree(fetch: PageSource, fetch': PageSource, lo: nat, hi: nat)
    requires forall j :: lo <= j < hi ==> fetch(j) == fetch'(j)
    ensures SalariesOfPages(fetch, lo, hi) == SalariesOfPages(fetch', lo, hi)
    decreases hi - lo
  {
    if lo < hi {
      SalariesOfPagesAgree(fetch, fetch', lo, hi - 1);
    }
  }

  lemma {:induction false} FoundAfterAgree(fetch: PageSource, fetch': PageSource, lo: nat, hi: nat, found: Option<int>)
    requires forall j :: lo <= j < hi ==> fetch(j) == fetch'(j)
    ensures FoundAfter(fetch, lo, hi, found) == FoundAfter(fetch', lo, hi, found)
    decreases hi - lo
  {
    if lo < hi {
      FoundAfterAgree(fetch, fetch', lo, hi - 1, found);
    }
  }

  /** Pages after the stop are never requested, so they cannot change the
      outcome: two page sources that agree on the requested pages give the
      same estimates, the same `found` and the same requests. */
  lemma WalkIgnoresLaterPages(fetch: PageSource, fetch': PageSource, numberOfPages: nat)
    requires forall j :: 0 <= j < RequestCount(fetch, numberOfPages) ==> fetch(j) == fetch'(j)
    ensures RequestCount(fetch', numberOfPages) == RequestCount(fetch, numberOfPages)
    ensures FirstStop(fetch', numberOfPages, 0) == FirstStop(fetch, numberOfPages, 0)
    ensures SalariesOfPages(fetch', 0, FirstStop(fetch', numberOfPages, 0)) ==
      SalariesOfPages(fetch, 0, FirstStop(fetch, numberOfPages, 0))
    ensures FoundAfter(fetch', 0, RequestCount(fetch', numberOfPages), Some(0)) ==
      FoundAfter(fetch, 0, RequestCount(fetch, numberOfPages), Some(0))
  {
    var k := FirstStop(fetch, numberOfPages, 0);
    forall j | 0 <= j < k ensures !StopsWalk(fetch'(j)) {
      assert fetch(j) == fetch'(j);
    }
    if k < numberOfPages {
      assert fetch(k) == fetch'(k);
    }
    FirstStopAt(fetch', numberOfPages, 0, k);
    SalariesOfPagesAgree(fetch, fetch', 0, k);
    FoundAfterAgree(fetch, fetch', 0, RequestCount(fetch, numberOfPages), Some(0));
  }

  /** A page whose `found` is truthy. */
  predicate HasTruthyFound(x: Fetch<Page>) {
    x.Fetched? && TruthyInt(x.page.found)
  }

  /** With no truthy `found` among pages `lo..hi`, `results_found` stays
      falsy, and stays exactly as it was when none of them was fetched. */
  lemma {:induction false} FoundStaysFalsy(fetch: PageSource, lo: nat, hi: nat, found: Option<int>)
    requires !TruthyInt(found)
    requires forall j :: lo <= j < hi ==> !HasTruthyFound(fetch(j))
    ensures !TruthyInt(FoundAfter(fetch, lo, hi, found))
    ensures (forall j :: lo <= j < hi ==> !fetch(j).Fetched?) ==> FoundAfter(fetch, lo, hi, found) == found
    decreases hi - lo
  {
    if lo < hi {
      FoundStaysFalsy(fetch, lo, hi - 1, found);
    }
  }

  /** `results_found` ends up as the first truthy `found` among the fetched
      pages: later pages do not overwrite it. */
  lemma {:induction false} FoundIsFirstTruthy(fetch: PageSource, lo: nat, hi: nat, p: nat, found: Option<int>)
    requires !TruthyInt(found)
    requires lo <= p < hi && HasTruthyFound(fetch(p))
    requires forall j :: lo <= j < p ==> !HasTruthyFound(fetch(j))
    ensures FoundAfter(fetch, lo, hi, found) == fetch(p).page.found
    decreases hi - lo
  {
    if hi == p + 1 {
      FoundStaysFalsy(fetch, lo, p, found);
    } else {
      FoundIsFirstTruthy(fetch, lo, hi - 1, p, found);
    }
  }

  /** The number of vacancies a fetched page lists. */
  function PageVacancies(x: Fetch<Page>): nat {
    if x.Fetched? && x.page.items.Some? then |x.page.items.value| else 0
  }

  /** The number of vacancies on the pages `lo..hi`. */
  function VacanciesOfPages(fetch: PageSource, lo: nat, hi: nat): nat
    decreases hi - lo
  {
    if lo >= hi then 0 else VacanciesOfPages(fetch, lo, hi - 1) + PageVacancies(fetch(hi - 1))
  }

  /** No more estimates are processed than vacancies were fetched. */
  lemma {:induction false} ProcessedAtMostFetched(fetch: PageSource, lo: nat, hi: nat)
    ensures |SalariesOfPages(fetch, lo, hi)| <= VacanciesOfPages(fetch, lo, hi)
    decreases hi - lo
  {
    if lo < hi {
      ProcessedAtMostFetched(fetch, lo, hi - 1);
      var last := PageSalaries(fetch(hi - 1));
      assert SalariesOfPages(fetch, lo, hi) == SalariesOfPages(fetch, lo, hi - 1) + last;
      assert VacanciesOfPages(fetch, lo, hi) == VacanciesOfPages(fetch, lo, hi - 1) + PageVacancies(fetch(hi - 1));
    }
  }

  // ---------------------------------------------------------------------------
  // Statistics

  /** `format_statistics`: the found count as given, the number of estimates,
      and `int(mean(salaries))`. `mean` fails with `StatisticsError` on an
      empty list and with `TypeError` on a list holding a `None` estimate. */
  function FormatStatistics(jobsFound: Option<int>, salaries: seq<Option<real>>): (r: Result<Utils.Statistics, MeanError>)
    ensures r == Err(StatisticsError) <==> |salaries| == 0
    ensures r == Err(TypeError) <==> |salaries| > 0 && !AllNumbers(salaries)
    ensures r.Ok? ==> r.value.vacanciesFound == jobsFound && r.value.vacanciesProcessed == |salaries|
    ensures r.Ok? ==> r.value.averageSalary == Int(Sum(Numbers(salaries)) / |salaries| as real)
  {
    match Mean(salaries)
    case Err(e) => Err(e)
    case Ok(m) => Ok(Utils.Statistics(jobsFound, |salaries|, Int(m)))
  }

  /** On non-negative estimates between `lo` and `hi`, the average salary lies
      between `lo` rounded down and `hi`. */
  lemma AverageSalaryWithinBounds(jobsFound: Option<int>, salaries: seq<Option<real>>, lo: real, hi: real)
    requires 0.0 <= lo && |salaries| > 0
    requires forall i :: 0 <= i < |salaries| ==> salaries[i].Some? && lo <= salaries[i].value <= hi
    ensures FormatStatistics(jobsFound, salaries).Ok?
    ensures var avg := FormatStatistics(jobsFound, salaries).value.averageSalary;
      lo.Floor <= avg && avg as real <= hi
  {
    MeanWithinBounds(salaries, lo, hi);
  }

  /** Estimates 100, 200 and 300 give three processed vacancies and an average of 200. */
  lemma FormatStatisticsExample()
    ensures FormatStatistics(Some(50), [Some(100.0), Some(200.0), Some(300.0)]) ==
      Ok(Utils.Statistics(Some(50), 3, 200))
  {
    var data := [Some(100.0), Some(200.0), Some(300.0)];
    var xs := Numbers(data);
    assert xs == [100.0, 200.0, 300.0];
    assert [100.0][..0] == [];
    assert Sum([100.0]) == 100.0;
    assert [100.0, 200.0][..1] == [100.0];
    assert Sum([100.0, 200.0]) == 300.0;
    assert xs[..2] == [100.0, 200.0];
    assert Sum(xs) == 600.0;
  }
}
