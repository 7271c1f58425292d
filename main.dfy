/**
 The single-file HeadHunter script: the same walk as the HeadHunter module
 with the heuristic inlined and a pause between pages. It reads the same
 responses, so it uses the response shapes of `HhParse`; its walk is
 specified by the HeadHunter walk functions, its adapter, list builder and
 `format_statistics` are proved equal to their `HhParse` counterparts, and
 its language clamp to the one in `Utils`.
 */
module Main {
  import opened PySemantics
  import Utils
  import HhParse

  /** The clamp and slice of `extract_popular_programming_languages`. */
  function ExtractPopularProgrammingLanguages(extracted: seq<string>, number: int): (r: seq<string>)
    ensures |r| <= |extracted| && r == extracted[..|r|]
    ensures 1 <= number < |extracted| ==> |r| == number
    ensures !(1 <= number < |extracted|) ==> r == extracted
  {
    var n := if 1 <= number < |extracted| then number else |extracted|;
    extracted[..n]
  }

  lemma ExtractPopularProgrammingLanguagesAgree(extracted: seq<string>, number: int)
    ensures ExtractPopularProgrammingLanguages(extracted, number) ==
      Utils.ExtractPopularProgrammingLanguages(extracted, number)
  {
  }

  /** `predict_rub_salary`, with the heuristic written out; its guard is the
      same inverted `not currency != "RUB"`. */
  function PredictRubSalary(salaryFork: HhParse.SalaryFork): (r: Option<real>)
    ensures salaryFork.currency == Some("RUB") ==> r.None?
    ensures r.Some? <==>
      (salaryFork.currency != Some("RUB") &&
       (TruthyNumber(salaryFork.salaryFrom) || TruthyNumber(salaryFork.salaryTo)))
  {
    if !(salaryFork.currency != Some("RUB")) then None
    else
      var salaryFrom := salaryFork.salaryFrom;
      var salaryTo := salaryFork.salaryTo;
      if TruthyNumber(salaryFrom) && TruthyNumber(salaryTo) then Some((salaryFrom.value + salaryTo.value) / 2.0)
      else if TruthyNumber(salaryFrom) then Some(salaryFrom.value * 1.2)
      else if TruthyNumber(salaryTo) then Some(salaryTo.value * 0.8)
      else None
  }

  /** The inlined heuristic is the shared one, so the two scripts estimate
      every fork alike. */
  lemma PredictRubSalaryAgrees(salaryFork: HhParse.SalaryFork)
    ensures PredictRubSalary(salaryFork) == HhParse.PredictRubSalaryHh(salaryFork)
  {
  }

  /** `extract_predicted_salaries`: one estimate (possibly `None`) per vacancy
      with a truthy `salary` block, in order. */
  function ExtractPredictedSalaries(responseItems: seq<HhParse.Vacancy>): (r: seq<Option<real>>)
    ensures |r| <= |responseItems|
  {
    if responseItems == [] then []
    else
      var first := match responseItems[0].salary
        case None => []
        case Some(fork) => [PredictRubSalary(fork)];
      first + ExtractPredictedSalaries(responseItems[1..])
  }

  lemma {:induction false} ExtractPredictedSalariesAgree(responseItems: seq<HhParse.Vacancy>)
    ensures ExtractPredictedSalaries(responseItems) == HhParse.CalculatePredictedSalaries(responseItems)
  {
    if responseItems != [] {
      if responseItems[0].salary.Some? {
        PredictRubSalaryAgrees(responseItems[0].salary.value);
      }
      ExtractPredictedSalariesAgree(responseItems[1..]);
    }
  }

  /** `extract_predicted_salaries_from_pages` (without the pause): the same
      requests, estimates and found count as the HeadHunter module's walk. */
  method ExtractPredictedSalariesFromPages(fetch: HhParse.PageSource, numberOfPages: nat)
    returns (salaries: seq<Option<real>>, resultsFound: Option<int>, ghost requested: seq<nat>)
    ensures requested == Utils.Indices(HhParse.RequestCount(fetch, numberOfPages))
    ensures salaries == HhParse.SalariesOfPages(fetch, 0, HhParse.FirstStop(fetch, numberOfPages, 0))
    ensures resultsFound == HhParse.FoundAfter(fetch, 0, HhParse.RequestCount(fetch, numberOfPages), Some(0))
  {
    salaries := [];
    resultsFound := Some(0);
    requested := [];
    for pageNumber := 0 to numberOfPages
      invariant requested == Utils.Indices(pageNumber)
      invariant forall j :: 0 <= j < pageNumber ==> !HhParse.StopsWalk(fetch(j))
      invariant salaries == HhParse.SalariesOfPages(fetch, 0, pageNumber)
      invariant resultsFound == HhParse.FoundAfter(fetch, 0, pageNumber, Some(0))
    {
      requested := requested + [pageNumber];
      var parsedResponse := fetch(pageNumber);
      if !parsedResponse.Fetched? {
        HhParse.FirstStopAt(fetch, numberOfPages, 0, pageNumber);
        return;
      }
      if !TruthyInt(resultsFound) {
        resultsFound := parsedResponse.page.found;
      }
      var responseItems := parsedResponse.page.items;
      if !TruthyList(responseItems) {
        HhParse.FirstStopAt(fetch, numberOfPages, 0, pageNumber);
        return;
      }
      ExtractPredictedSalariesAgree(responseItems.value);
      salaries := salaries + ExtractPredictedSalaries(responseItems.value);
    }
    HhParse.FirstStopAt(fetch, numberOfPages, 0, numberOfPages);
  }

  /** `format_statistics`: the found count, the number of estimates, and
      `int(mean(salaries))`, failing as `mean` does on an empty list or a
      `None` estimate. */
  function FormatStatistics(jobsFound: Option<int>, salaries: seq<Option<real>>): (r: Result<Utils.Statistics, MeanError>)
    ensures r == Err(StatisticsError) <==> |salaries| == 0
    ensures r == Err(TypeError) <==> |salaries| > 0 && !AllNumbers(salaries)
    ensures r.Ok? ==> r.value.vacanciesFound == jobsFound && r.value.vacanciesProcessed == |salaries|
    ensures r.Ok? ==> r.value.averageSalary == Int(Sum(Numbers(salaries)) / |salaries| as real)
  {
    match Mean(salaries)
    case Err(e) => Err(e)
    case Ok(m) => Ok(Utils.Statistics(jobsFound, |salaries|, Int(m)))
  }

  lemma FormatStatisticsAgrees(jobsFound: Option<int>, salaries: seq<Option<real>>)
    ensures FormatStatistics(jobsFound, salaries) == HhParse.FormatStatistics(jobsFound, salaries)
  {
  }
}
