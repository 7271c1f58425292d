/**
 The SuperJob script: salary estimates per language, fetched page by page
 while the API's `more` flag is set. The HTTP call of `get_response` is an
 injected page source per language, from page index to `Fetch<Page>`.
 */
module SuperjobParse {
  import opened PySemantics
  import Utils

  /** One vacancy object, read with `.get`. */
  datatype Vacancy = Vacancy(currency: Option<string>, paymentFrom: Option<real>, paymentTo: Option<real>)

  /** One parsed response: `.get("more")` (a missing flag reads as false),
      `.get("total")` and `.get("objects")`. */
  datatype Page = Page(more: bool, total: Option<int>, objects: Option<seq<Vacancy>>)

  type PageSource = nat -> Fetch<Page>

  /** Ways the script dies: it catches only `HTTPError`, so a
      `ConnectionError` escapes, and iterating a missing `objects` raises `TypeError`. */
  datatype Crash = UncaughtConnectionError | ObjectsNotIterable

  // ---------------------------------------------------------------------------
  // Salary estimates

  /** `predict_rub_salary_sj`: an estimate only for vacancies whose currency is
      exactly "rub" (case-sensitive), by the shared heuristic. */
  function PredictRubSalarySj(vacancyDescription: Vacancy): (r: Option<real>)
    ensures vacancyDescription.currency != Some("rub") ==> r.None?
    ensures r.Some? <==>
      (vacancyDescription.currency == Some("rub") &&
       (TruthyNumber(vacancyDescription.paymentFrom) || TruthyNumber(vacancyDescription.paymentTo)))
    ensures r.Some? ==> r == Utils.PredictSalary(vacancyDescription.paymentFrom, vacancyDescription.paymentTo)
  {
    if vacancyDescription.currency != Some("rub") then None
    else Utils.PredictSalary(vacancyDescription.paymentFrom, vacancyDescription.paymentTo)
  }

  /** `list(filter(None, predictions))` over the objects: the truthy
      predictions, in the order of the objects. */
  function TruthyPredictions(objects: seq<Vacancy>): (r: seq<real>)
    ensures |r| <= |objects|
    ensures forall i :: 0 <= i < |r| ==> r[i] != 0.0
  {
    if objects == [] then []
    else
      var p := PredictRubSalarySj(objects[0]);
      (if TruthyNumber(p) then [p.value] else []) + TruthyPredictions(objects[1..])
  }

  /** The predictions of concatenated object lists are the concatenation of
      their predictions. */
  lemma {:induction false} TruthyPredictionsAppend(a: seq<Vacancy>, b: seq<Vacancy>)
    ensures TruthyPredictions(a + b) == TruthyPredictions(a) + TruthyPredictions(b)
  {
    if a == [] {
      assert a + b == b;
    } else {
      assert (a + b)[0] == a[0] && (a + b)[1..] == a[1..] + b;
      TruthyPredictionsAppend(a[1..], b);
    }
  }

  /** A value is kept exactly when it is a non-zero prediction of some object. */
  lemma {:induction false} TruthyPredictionsMembers(objects: seq<Vacancy>, x: real)
    ensures x in TruthyPredictions(objects) <==>
      x != 0.0 && exists j :: 0 <= j < |objects| && PredictRubSalarySj(objects[j]) == Some(x)
  {
    if objects != [] {
      var tail := objects[1..];
      TruthyPredictionsMembers(tail, x);
      if exists j :: 0 <= j < |tail| && PredictRubSalarySj(tail[j]) == Some(x) {
        var j :| 0 <= j < |tail| && PredictRubSalarySj(tail[j]) == Some(x);
        assert objects[j + 1] == tail[j];
      }
      if exists j :: 0 <= j < |objects| && PredictRubSalarySj(objects[j]) == Some(x) {
        var j :| 0 <= j < |objects| && PredictRubSalarySj(objects[j]) == Some(x);
        if j > 0 {
          assert tail[j - 1] == objects[j];
        }
      }
    }
  }

  /** `calculate_predicted_salaries` on one response: the truthy predictions of
      its objects, or `TypeError` when the response has no `objects`. */
  function CalculatePredictedSalaries(parsedResponse: Page): (r: Result<seq<real>, Crash>)
    ensures r.Err? <==> parsedResponse.objects.None?
    ensures r.Err? ==> r.error == ObjectsNotIterable
    ensures r.Ok? ==> |r.value| <= |parsedResponse.objects.value| && forall x :: x in r.value ==> x != 0.0
    ensures r.Ok? ==> r.value == TruthyPredictions(parsedResponse.objects.value)
  {
    match parsedResponse.objects
    case None => Err(ObjectsNotIterable)
    case Some(objects) => Ok(TruthyPredictions(objects))
  }

  // ---------------------------------------------------------------------------
  // The page walk for one language

  /** A response after which the `while` loop asks for another page. */
  predicate ContinuesWalk(x: Fetch<Page>) {
    x.Fetched? && x.page.more && x.page.objects.Some?
  }

  /** The last page of a walk that ends normally: `more` is falsy. */
  predicate EndsWalk(x: Fetch<Page>) {
    x.Fetched? && !x.page.more && x.page.objects.Some?
  }

  /** The page source eventually gives a response that ends the loop; without
      one the script's loop never terminates. */
  ghost predicate EventuallyStops(fetch: PageSource) {
    exists k: nat :: !ContinuesWalk(fetch(k))
  }

  /** The first index in `i..bound` whose response ends the loop. */
  function FirstStop(fetch: PageSource, bound: nat, i: nat): (k: nat)
    requires i <= bound && !ContinuesWalk(fetch(bound))
    ensures i <= k <= bound && !ContinuesWalk(fetch(k))
    ensures forall j :: i <= j < k ==> ContinuesWalk(fetch(j))
    decreases bound - i
  {
    if !ContinuesWalk(fetch(i)) then i else FirstStop(fetch, bound, i + 1)
  }

  /** Any response that ends the walk with only continuing responses before
      it is the first stop below any bound at or after it. */
  lemma FirstStopAt(fetch: PageSource, bound: nat, p: nat)
    requires p <= bound && !ContinuesWalk(fetch(p)) && !ContinuesWalk(fetch(bound))
    requires forall j :: 0 <= j < p ==> ContinuesWalk(fetch(j))
    ensures FirstStop(fetch, bound, 0) == p
  {
  }

  /** The index of the response that ends the loop. */
  ghost function TheStop(fetch: PageSource): (k: nat)
    requires EventuallyStops(fetch)
    ensures !ContinuesWalk(fetch(k))
    ensures forall j :: 0 <= j < k ==> ContinuesWalk(fetch(j))
  {
    var bound: nat :| !ContinuesWalk(fetch(bound));
    FirstStop(fetch, bound, 0)
  }

  /** The stopping response is the first one that does not continue. */
  lemma TheStopIs(fetch: PageSource, p: nat)
    requires EventuallyStops(fetch)
    requires !ContinuesWalk(fetch(p))
    requires forall j :: 0 <= j < p ==> ContinuesWalk(fetch(j))
    ensures TheStop(fetch) == p
  {
  }

  /** The value of the script's variable `total`: never assigned yet, or the
      `total` of a response. */
  datatype Total = Unbound | Bound(value: Option<int>)

  /** What one language's loop leaves: the accumulated predictions and `total`,
      or a crash of the script. */
  datatype Walk = Walked(predictedSalaries: seq<real>, total: Total) | Crashed(crash: Crash)

  /** The number of objects a fetched response lists. */
  function PageObjects(x: Fetch<Page>): nat {
    if x.Fetched? && x.page.objects.Some? then |x.page.objects.value| else 0
  }

  function PagePredictions(x: Fetch<Page>): (r: seq<real>)
    ensures |r| <= PageObjects(x)
  {
    if x.Fetched? && x.page.objects.Some? then TruthyPredictions(x.page.objects.value) else []
  }

  /** The predictions of pages `lo..hi`, concatenated in page order. */
  function PredictionsOfPages(fetch: PageSource, lo: nat, hi: nat): seq<real>
    decreases hi - lo
  {
    if lo >= hi then [] else PredictionsOfPages(fetch, lo, hi - 1) + PagePredictions(fetch(hi - 1))
  }

  /** The number of objects on the pages `lo..hi`. */
  function ObjectsOfPages(fetch: PageSource, lo: nat, hi: nat): nat
    decreases hi - lo
  {
    if lo >= hi then 0 else ObjectsOfPages(fetch, lo, hi - 1) + PageObjects(fetch(hi - 1))
  }

  /** No more predictions are collected than objects were fetched. */
  lemma {:induction false} PredictionsAtMostFetched(fetch: PageSource, lo: nat, hi: nat)
    ensures |PredictionsOfPages(fetch, lo, hi)| <= ObjectsOfPages(fetch, lo, hi)
    decreases hi - lo
  {
    if lo < hi {
      PredictionsAtMostFetched(fetch, lo, hi - 1);
      var last := PagePredictions(fetch(hi - 1));
      assert PredictionsOfPages(fetch, lo, hi) == PredictionsOfPages(fetch, lo, hi - 1) + last;
      assert ObjectsOfPages(fetch, lo, hi) == ObjectsOfPages(fetch, lo, hi - 1) + PageObjects(fetch(hi - 1));
    }
  }

  /** `total` after pages `0..k`: the `total` of page `k - 1` when it was
      fetched, the value carried in otherwise. */
  function TotalAfter(fetch: PageSource, total: Total, k: nat): Total {
    if k == 0 then total
    else match fetch(k - 1)
      case Fetched(p) => Bound(p.total)
      case _ => total
  }

  /** The outcome of a walk whose first non-continuing response is at `k`:
      an `HTTPError` keeps what pages `0..k` gave; a final page with falsy
      `more` adds its own predictions and `total`; a `ConnectionError` or a
      missing `objects` crashes the script. */
  function WalkOutcome(fetch: PageSource, total: Total, k: nat): Walk {
    match fetch(k)
    case HttpError => Walked(PredictionsOfPages(fetch, 0, k), TotalAfter(fetch, total, k))
    case ConnectionError => Crashed(UncaughtConnectionError)
    case Fetched(p) =>
      if p.objects.None? then Crashed(ObjectsNotIterable)
      else Walked(PredictionsOfPages(fetch, 0, k + 1), Bound(p.total))
  }

  /** The loop of one language (lines 78-92 of the script): pages `0, 1, ...`
      are requested while the last response's `more` is truthy; an `HTTPError`
      breaks out keeping the predictions so far; `total` is overwritten by
      every fetched page. The walk ends at the first response that does not
      continue it, which comes no later than `bound`. */
  method WalkLanguage(fetch: PageSource, total: Total, ghost bound: nat)
    returns (walk: Walk, ghost requested: seq<nat>)
    requires !ContinuesWalk(fetch(bound))
    ensures walk == WalkOutcome(fetch, total, FirstStop(fetch, bound, 0))
    ensures requested == Utils.Indices(FirstStop(fetch, bound, 0) + 1)
  {
    var predictedSalaries := [];
    var lookAnotherPage := true;
    var pageNumber := 0;
    var lastTotal := total;
    requested := [];
    while lookAnotherPage
      invariant requested == Utils.Indices(pageNumber)
      invariant lookAnotherPage ==> pageNumber <= bound
      invariant lookAnotherPage ==> forall j :: 0 <= j < pageNumber ==> ContinuesWalk(fetch(j))
      invariant !lookAnotherPage ==> 0 < pageNumber <= bound + 1 && EndsWalk(fetch(pageNumber - 1))
      invariant !lookAnotherPage ==> forall j :: 0 <= j < pageNumber - 1 ==> ContinuesWalk(fetch(j))
      invariant predictedSalaries == PredictionsOfPages(fetch, 0, pageNumber)
      invariant lastTotal == TotalAfter(fetch, total, pageNumber)
      decreases bound + 1 - pageNumber
    {
      requested := requested + [pageNumber];
      var response := fetch(pageNumber);
      if response.HttpError? {
        break;
      }
      if response.ConnectionError? {
        FirstStopAt(fetch, bound, pageNumber);
        return Crashed(UncaughtConnectionError), requested;
      }
      lookAnotherPage := response.page.more;
      var predictions := CalculatePredictedSalaries(response.page);
      if predictions.Err? {
        FirstStopAt(fetch, bound, pageNumber);
        return Crashed(predictions.error), requested;
      }
      predictedSalaries := predictedSalaries + predictions.value;
      lastTotal := Bound(response.page.total);
      pageNumber := pageNumber + 1;
    }
    FirstStopAt(fetch, bound, if lookAnotherPage then pageNumber else pageNumber - 1);
    walk := Walked(predictedSalaries, lastTotal);
  }

  lemma {:induction false} PredictionsOfPagesAgree(fetch: PageSource, fetch': PageSource, lo: nat, hi: nat)
    requires forall j :: lo <= j < hi ==> fetch(j) == fetch'(j)
    ensures PredictionsOfPages(fetch, lo, hi) == PredictionsOfPages(fetch', lo, hi)
    decreases hi - lo
  {
    if lo < hi {
      PredictionsOfPagesAgree(fetch, fetch', lo, hi - 1);
    }
  }

  /** Two page sources that agree up to index `k` give the same outcome at `k`. */
  lemma OutcomeAgrees(fetch: PageSource, fetch': PageSource, total: Total, k: nat)
    requires forall j :: 0 <= j <= k ==> fetch'(j) == fetch(j)
    ensures WalkOutcome(fetch', total, k) == WalkOutcome(fetch, total, k)
  {
    assert fetch'(k) == fetch(k);
    PredictionsOfPagesAgree(fetch, fetch', 0, k);
    PredictionsOfPagesAgree(fetch, fetch', 0, k + 1);
    if k > 0 {
      assert fetch'(k - 1) == fetch(k - 1);
    }
  }

  /** Responses after the stopping one are never requested, so they cannot
      change where the walk stops or what it leaves. */
  lemma WalkIgnoresLaterPages(fetch: PageSource, fetch': PageSource, total: Total, bound: nat)
    requires !ContinuesWalk(fetch(bound))
    requires forall j :: 0 <= j <= FirstStop(fetch, bound, 0) ==> fetch'(j) == fetch(j)
    ensures var k := FirstStop(fetch, bound, 0);
      !ContinuesWalk(fetch'(k)) && FirstStop(fetch', k, 0) == k &&
      WalkOutcome(fetch', total, k) == WalkOutcome(fetch, total, k)
  {
    var k := FirstStop(fetch, bound, 0);
    assert fetch'(k) == fetch(k);
    forall j | 0 <= j < k ensures ContinuesWalk(fetch'(j)) {
      assert fetch'(j) == fetch(j);
    }
    FirstStopAt(fetch', k, k);
    OutcomeAgrees(fetch, fetch', total, k);
  }

  /** The outcome of one language's loop, at its first stopping response. */
  ghost function LanguageWalk(fetch: PageSource, total: Total): Walk
    requires EventuallyStops(fetch)
  {
    WalkOutcome(fetch, total, TheStop(fetch))
  }

  /** The predictions of a language do not depend on the `total` carried in
      from the previous language, and neither does whether it crashes. */
  lemma PredictionsIgnoreCarriedTotal(fetch: PageSource, total: Total, total': Total)
    requires EventuallyStops(fetch)
    ensures LanguageWalk(fetch, total).Walked? <==> LanguageWalk(fetch, total').Walked?
    ensures LanguageWalk(fetch, total).Walked? ==>
      LanguageWalk(fetch, total).predictedSalaries == LanguageWalk(fetch, total').predictedSalaries
  {
  }

  /** Once a page is fetched, `total` is that of the last fetched page; the
      value carried in survives only when the very first request fails. */
  lemma TotalIsLastFetched(fetch: PageSource, total: Total)
    requires EventuallyStops(fetch)
    requires LanguageWalk(fetch, total).Walked?
    ensures var k := TheStop(fetch);
      var last := if fetch(k).Fetched? then k else k - 1;
      (fetch(0).Fetched? ==>
         (0 <= last && fetch(last).Fetched? &&
          LanguageWalk(fetch, total).total == Bound(fetch(last).page.total))) &&
      (!fetch(0).Fetched? ==> LanguageWalk(fetch, total).total == total)
  {
  }

  // ---------------------------------------------------------------------------
  // The loop over languages

  type LanguageSource = string -> PageSource

  /** `languages[1:]`. */
  function Tail(languages: seq<string>): (r: seq<string>)
    ensures |r| == if |languages| == 0 then 0 else |languages| - 1
    ensures forall i :: 0 <= i < |r| ==> r[i] == languages[i + 1]
  {
    if |languages| == 0 then [] else languages[1..]
  }

  /** The pair the script hands to `format_statistics` for one language. */
  datatype Accumulation = Accumulation(total: Total, predictedSalaries: seq<real>)

  ghost predicate AllStop(fetch: LanguageSource, languages: seq<string>) {
    forall i :: 0 <= i < |languages| ==> EventuallyStops(fetch(languages[i]))
  }

  /** The statistics dict after the languages `languages`, starting from
      `statistics` with `total` carried in. */
  ghost function StatisticsAfter(fetch: LanguageSource, languages: seq<string>,
                                 statistics: Dict<string, Accumulation>, total: Total): Result<Dict<string, Accumulation>, Crash>
    requires AllStop(fetch, languages)
    decreases |languages|
  {
    if languages == [] then Ok(statistics)
    else
      assert EventuallyStops(fetch(languages[0]));
      match LanguageWalk(fetch(languages[0]), total)
      case Crashed(c) => Err(c)
      case Walked(p, t) => StatisticsAfter(fetch, languages[1..], Store(statistics, languages[0], Accumulation(t, p)), t)
  }

  /** The `__main__` loop (lines 77-94): every language but the first is
      walked with fresh predictions and page number, and its accumulation is
      stored under its name; `total` carries over between languages. */
  method CollectStatistics(fetch: LanguageSource, languages: seq<string>)
    returns (r: Result<Dict<string, Accumulation>, Crash>)
    requires AllStop(fetch, Tail(languages))
    ensures r == StatisticsAfter(fetch, Tail(languages), [], Unbound)
  {
    var statistics: Dict<string, Accumulation> := [];
    var total := Unbound;
    var rest := Tail(languages);
    for i := 0 to |rest|
      invariant AllStop(fetch, rest[i..])
      invariant StatisticsAfter(fetch, rest, [], Unbound) == StatisticsAfter(fetch, rest[i..], statistics, total)
    {
      var language := rest[i];
      assert rest[i..][0] == language && rest[i..][1..] == rest[i + 1..];
      assert EventuallyStops(fetch(language));
      ghost var bound: nat :| !ContinuesWalk(fetch(language)(bound));
      var walk, _ := WalkLanguage(fetch(language), total, bound);
      TheStopIs(fetch(language), FirstStop(fetch(language), bound, 0));
      match walk
      case Crashed(c) =>
        return Err(c);
      case Walked(predictedSalaries, t) =>
        statistics := Store(statistics, language, Accumulation(t, predictedSalaries));
        total := t;
    }
    return Ok(statistics);
  }

  // ---------------------------------------------------------------------------
  // Properties of the loop over languages

  /** Every language of the list eventually stops, so the first one and the
      rest do. */
  lemma AllStopTail(fetch: LanguageSource, languages: seq<string>)
    requires AllStop(fetch, languages) && languages != []
    ensures EventuallyStops(fetch(languages[0]))
    ensures AllStop(fetch, languages[1..])
  {
    forall i | 0 <= i < |languages[1..]| ensures EventuallyStops(fetch(languages[1..][i])) {
      assert languages[1..][i] == languages[i + 1];
    }
  }

  /** Storing every walked language keeps the keys distinct. */
  lemma {:induction false} StatisticsKeysDistinct(fetch: LanguageSource, languages: seq<string>,
                                                  statistics: Dict<string, Accumulation>, total: Total)
    requires AllStop(fetch, languages) && DistinctKeys(statistics)
    requires StatisticsAfter(fetch, languages, statistics, total).Ok?
    ensures DistinctKeys(StatisticsAfter(fetch, languages, statistics, total).value)
    decreases |languages|
  {
    if languages != [] {
      AllStopTail(fetch, languages);
      var w := LanguageWalk(fetch(languages[0]), total);
      var a := Accumulation(w.total, w.predictedSalaries);
      StoreKeepsKeysDistinct(statistics, languages[0], a);
      StatisticsKeysDistinct(fetch, languages[1..], Store(statistics, languages[0], a), w.total);
    }
  }

  /** The keys before the loop keep their places: they are a prefix of the
      keys after it. */
  lemma {:induction false} StatisticsKeysPrefix(fetch: LanguageSource, languages: seq<string>,
                                                statistics: Dict<string, Accumulation>, total: Total)
    requires AllStop(fetch, languages)
    requires StatisticsAfter(fetch, languages, statistics, total).Ok?
    ensures |Keys(statistics)| <= |Keys(StatisticsAfter(fetch, languages, statistics, total).value)|
    ensures Keys(StatisticsAfter(fetch, languages, statistics, total).value)[..|Keys(statistics)|] == Keys(statistics)
    decreases |languages|
  {
    if languages != [] {
      AllStopTail(fetch, languages);
      var w := LanguageWalk(fetch(languages[0]), total);
      var next := Store(statistics, languages[0], Accumulation(w.total, w.predictedSalaries));
      StatisticsKeysPrefix(fetch, languages[1..], next, w.total);
      var rest := StatisticsAfter(fetch, languages[1..], next, w.total);
      assert StatisticsAfter(fetch, languages, statistics, total) == rest;
      assert Keys(next)[..|Keys(statistics)|] == Keys(statistics);
      PrefixTransitive(Keys(statistics), Keys(next), Keys(rest.value));
    }
  }

  lemma PrefixTransitive<T>(a: seq<T>, b: seq<T>, c: seq<T>)
    requires |a| <= |b| && b[..|a|] == a
    requires |b| <= |c| && c[..|b|] == b
    ensures |a| <= |c| && c[..|a|] == a
  {
    assert c[..|b|][..|a|] == c[..|a|];
  }

  /** The keys after the loop are the keys before it and the walked
      languages. */
  lemma {:induction false} StatisticsKeys(fetch: LanguageSource, languages: seq<string>,
                                          statistics: Dict<string, Accumulation>, total: Total)
    requires AllStop(fetch, languages)
    requires StatisticsAfter(fetch, languages, statistics, total).Ok?
    ensures forall k :: k in Keys(StatisticsAfter(fetch, languages, statistics, total).value) <==>
      k in Keys(statistics) || k in languages
    decreases |languages|
  {
    if languages != [] {
      AllStopTail(fetch, languages);
      var w := LanguageWalk(fetch(languages[0]), total);
      var next := Store(statistics, languages[0], Accumulation(w.total, w.predictedSalaries));
      StatisticsKeys(fetch, languages[1..], next, w.total);
      assert forall k :: k in languages <==> k == languages[0] || k in languages[1..];
    }
  }

  /** A language the loop does not walk keeps its entry. */
  lemma {:induction false} StatisticsKeepOthers(fetch: LanguageSource, languages: seq<string>,
                                                statistics: Dict<string, Accumulation>, total: Total, language: string)
    requires AllStop(fetch, languages)
    requires StatisticsAfter(fetch, languages, statistics, total).Ok?
    requires language !in languages
    ensures Lookup(StatisticsAfter(fetch, languages, statistics, total).value, language) == Lookup(statistics, language)
    decreases |languages|
  {
    if languages != [] {
      AllStopTail(fetch, languages);
      var w := LanguageWalk(fetch(languages[0]), total);
      StatisticsKeepOthers(fetch, languages[1..], Store(statistics, languages[0], Accumulation(w.total, w.predictedSalaries)),
                           w.total, language);
    }
  }

  /** `predicted_salaries` is reset for each language: the entry stored for a
      walked language holds exactly the predictions of that language's own
      pages, whatever came before it. */
  lemma {:induction false} StatisticsHoldOwnPredictions(fetch: LanguageSource, languages: seq<string>,
                                                        statistics: Dict<string, Accumulation>, total: Total, i: nat)
    requires AllStop(fetch, languages)
    requires StatisticsAfter(fetch, languages, statistics, total).Ok?
    requires i < |languages|
    ensures EventuallyStops(fetch(languages[i]))
    ensures var e := Lookup(StatisticsAfter(fetch, languages, statistics, total).value, languages[i]);
      var w := LanguageWalk(fetch(languages[i]), Unbound);
      e.Some? && w.Walked? && e.value.predictedSalaries == w.predictedSalaries
    decreases |languages|
  {
    var language := languages[i];
    AllStopTail(fetch, languages);
    var w := LanguageWalk(fetch(languages[0]), total);
    var next := Store(statistics, languages[0], Accumulation(w.total, w.predictedSalaries));
    if language in languages[1..] {
      var j :| 0 <= j < |languages[1..]| && languages[1..][j] == language;
      StatisticsHoldOwnPredictions(fetch, languages[1..], next, w.total, j);
    } else {
      assert i == 0;
      StatisticsKeepOthers(fetch, languages[1..], next, w.total, language);
      PredictionsIgnoreCarriedTotal(fetch(language), total, Unbound);
    }
  }

  /** The script's statistics: the first scraped language is skipped, every
      other one has an entry, and each entry
      holds the predictions of that language's pages. */
  lemma ScriptStatistics(fetch: LanguageSource, languages: seq<string>)
    requires AllStop(fetch, Tail(languages))
    requires StatisticsAfter(fetch, Tail(languages), [], Unbound).Ok?
    ensures var d := StatisticsAfter(fetch, Tail(languages), [], Unbound).value;
      DistinctKeys(d) &&
      (forall k :: k in Keys(d) <==> k in Tail(languages)) &&
      (forall i :: 0 <= i < |Tail(languages)| ==>
         EventuallyStops(fetch(Tail(languages)[i])) &&
         var e := Lookup(d, Tail(languages)[i]);
         e.Some? && LanguageWalk(fetch(Tail(languages)[i]), Unbound).Walked? &&
         e.value.predictedSalaries == LanguageWalk(fetch(Tail(languages)[i]), Unbound).predictedSalaries)
  {
    StatisticsKeysDistinct(fetch, Tail(languages), [], Unbound);
    StatisticsKeys(fetch, Tail(languages), [], Unbound);
    forall i | 0 <= i < |Tail(languages)|
      ensures EventuallyStops(fetch(Tail(languages)[i])) &&
        var e := Lookup(StatisticsAfter(fetch, Tail(languages), [], Unbound).value, Tail(languages)[i]);
        e.Some? && LanguageWalk(fetch(Tail(languages)[i]), Unbound).Walked? &&
        e.value.predictedSalaries == LanguageWalk(fetch(Tail(languages)[i]), Unbound).predictedSalaries
    {
      StatisticsHoldOwnPredictions(fetch, Tail(languages), [], Unbound, i);
    }
  }
}
