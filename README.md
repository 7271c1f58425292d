# vacancies_parser, modelled in Dafny

The repository has three scripts, two of them for HeadHunter (`hh_parse.py` and
`main.py`) and one for SuperJob (`superjob_parse.py`). For each popular programming
language, each script requests its vacancy API page by page. It estimates a salary
from the vacancies' salary forks and collects the estimates; which vacancies give an
entry differs between the scripts (see the list of behaviour kept as it is, below).
It then summarises them as "vacancies found", "vacancies processed" and "average
salary". This project models that core:

- the salary heuristic (`utils.predict_salary`);
- the per-provider adapters with their currency guards;
- the list builders;
- the page walks, with the HTTP call replaced by an injected page source;
- the statistics record;
- the clamp on the number of scraped languages;
- the rows of the statistics table.

There are three near-copies of this logic (`hh_parse.py`, `superjob_parse.py`,
`main.py`), each with its own module. Lemmas prove the functions of `main.py` equal
to those of `hh_parse.py` (`Main.*Agree*`) and its clamp equal to the one in
`utils.py`. No lemma relates `SuperjobParse` to `HhParse`; the two share only
`Utils.PredictSalary`.

Modules (one per source file, plus one for the Python semantics they rely on):

- `PySemantics` (`py_semantics.dfy`): `None`/value results of `dict.get`, truthiness,
  the two `requests` failures, `int()` (truncation toward zero), `statistics.mean`
  (exact, failing with `StatisticsError` on `[]` and `TypeError` on a `None`), and a
  `dict` as an insertion-ordered list of items.
- `Utils` (`utils.dfy`): `predict_salary`, the clamp and slice of
  `extract_popular_programming_languages`, and the table rows of `show_pretty_statistics`.
- `HhParse` (`hh_parse.dfy`): `predict_rub_salary_hh`, `calculate_predicted_salaries`,
  `calculate_salaries_for_pages` as a `for` loop over an injected `nat -> Fetch<Page>`,
  and `format_statistics`.
- `SuperjobParse` (`superjob_parse.dfy`): `predict_rub_salary_sj`,
  `calculate_predicted_salaries`, the `while more` loop of one language, and the loop
  over `languages[1:]` that fills the statistics dict.
- `Main` (`main.dfy`): the single-file HeadHunter script. Its page walk is specified
  by `HhParse`'s walk functions (requested pages, estimates up to the stop, found
  count). Its salary adapter, estimate list builder and `format_statistics` are each
  proved equal to their `HhParse` counterparts, and its language clamp to the one in
  `Utils`.

Encoding choices:

- Salary bounds are `Option<real>`. A bound counts as present only when it is truthy,
  so `0` reads as absent, as in the source.
- The factors 1.2 and 0.8 are the exact reals 6/5 and 4/5.
- A falsy `salary` block (missing, `null` or `{}`) is `None`. A truthy block is a
  `SalaryFork` whose fields are read with `.get`.
- A `Page` keeps `found`/`items` (HeadHunter) or `more`/`total`/`objects` (SuperJob)
  as `Option`s. The exception is SuperJob's `more`, a `bool` in which a missing flag
  reads as false.

Behaviour of the code that the model keeps as it is:

- The HeadHunter estimate lists keep `None` entries: a truthy salary block whose
  estimate is `None` still adds an entry (hh_parse.py:58-59).
- `results_found` is also captured from the fetched page with empty `items` that
  ends the walk (hh_parse.py:84-89).
- An empty or `None`-holding estimate list makes `format_statistics` fail, as
  `mean` does (hh_parse.py:106).
- SuperJob's `total` is one variable of the whole `__main__` loop
  (superjob_parse.py:91, 94). A language whose first request raises `HTTPError` is
  stored with the `total` left by the previous language (`SuperjobParse.TotalAfter`,
  `SuperjobParse.TotalIsLastFetched`).
- The currency guard rejects roubles (see Findings).

## Model

| member | source | states |
|---|---|---|
| `PySemantics.Int` | hh_parse.py:106 | `int()` truncates toward zero: the result is within 1 of its argument, on the argument's side of zero |
| `PySemantics.Mean` | hh_parse.py:106 | `mean` fails with `StatisticsError` exactly on an empty list and with `TypeError` exactly on a non-empty list holding `None`; otherwise mean × length = sum |
| `PySemantics.MeanWithinBounds` | hh_parse.py:106 | the mean of numbers between `lo` and `hi` is between `lo` and `hi` |
| `PySemantics.Store` | superjob_parse.py:94 | `d[k] = v` makes `d.get(k)` return `v`, leaves every other key's value alone, keeps an existing key in place and appends a new one |
| `PySemantics.StoreKeepsKeysDistinct` | superjob_parse.py:94 | storing keeps the dict's keys distinct |
| `Utils.PredictSalary` | utils.py:6-21 | both bounds truthy: midpoint; only lower: lower × 1.2; only upper: upper × 0.8; `None` exactly when both are falsy (`None` or 0) |
| `Utils.PredictSalaryWithinFork` | utils.py:14-15 | with both bounds given, the estimate lies between them |
| `Utils.PredictSalaryPositive` | utils.py:14-21 | non-negative bounds never give a zero or negative estimate |
| `Utils.PredictSalaryExamples` | utils.py:14-21 | 100..200 → 150, 100.. → 120, ..200 → 160, 0..200 → 160, 0..0 → `None` |
| `Utils.ExtractPopularProgrammingLanguages` | utils.py:39-43 | the result is a prefix of the scraped list; of length `number` when `1 <= number < len`, the whole list otherwise |
| `Utils.StatisticsRow` | utils.py:56-60 | a row has as many cells as the header |
| `Utils.ShowPrettyStatistics` | utils.py:53-60 | the table data is the header followed by one row `[key, found, processed, average]` per dict entry, in the dict's order |
| `HhParse.PredictRubSalaryHh` | hh_parse.py:34-47 | as written: `None` for every "RUB" fork; an estimate exactly when the currency is not "RUB" and a bound is truthy, and then the heuristic's |
| `HhParse.PredictRubSalaryIntended` | hh_parse.py:34-47 | corrected guard: an estimate only for "RUB" forks, and for those the heuristic's |
| `HhParse.GuardIsInverted` | hh_parse.py:41-42 | on any fork with a truthy bound, exactly one of the as-written and the intended guard lets an estimate through |
| `HhParse.RoubleForkRejected` | hh_parse.py:41-42 | a "RUB" fork 100..200 gets `None` as written and 150 as intended; a "USD" fork gets 150 as written |
| `HhParse.CalculatePredictedSalaries` | hh_parse.py:50-61 | at most one estimate per vacancy, exactly one each when every salary block is truthy |
| `HhParse.CalculatePredictedSalariesAppend` | hh_parse.py:57-61 | the builder distributes over concatenation, so it keeps the items' order |
| `HhParse.CalculatePredictedSalariesMembers` | hh_parse.py:57-61 | an estimate (possibly `None`) is in the list exactly when some vacancy with a truthy salary block produces it |
| `HhParse.FirstStop` | hh_parse.py:74-89 | the first page index whose fetch fails or whose `items` are falsy, or the page bound when there is none |
| `HhParse.FirstStopAt` | hh_parse.py:74-89 | any index with no stop before it and a stop at it (or the bound) is that first stop |
| `HhParse.RequestCount` | hh_parse.py:74-76 | at most `number_of_pages` pages are requested, and at least one when the bound is positive |
| `HhParse.CalculateSalariesForPages` | hh_parse.py:64-92 | pages `0..k` are requested in order (`k` ≤ bound); the estimates are those of the pages before the first failure or empty page, concatenated in page order; `results_found` is captured from every fetched page while falsy |
| `HhParse.StopKeepsEarlierPages` | hh_parse.py:75-92 | a failure or empty page at `p` keeps exactly the estimates of pages `0..p`, after `p + 1` requests, with no retry |
| `HhParse.WalkIgnoresLaterPages` | hh_parse.py:74-92 | page sources that agree on the requested pages give the same requests, estimates and found count |
| `HhParse.FoundStaysFalsy` | hh_parse.py:72-85 | without a truthy `found`, the count stays falsy, and stays 0 when no page was fetched |
| `HhParse.FoundIsFirstTruthy` | hh_parse.py:84-85 | the found count is the first truthy `found` among the fetched pages |
| `HhParse.ProcessedAtMostFetched` | hh_parse.py:87-90 | no more estimates are collected than vacancies were fetched |
| `HhParse.FormatStatistics` | hh_parse.py:95-107 | found count as given, processed = number of estimates, average = `int(mean)`; `StatisticsError` exactly on `[]`, `TypeError` exactly on a `None` estimate |
| `HhParse.AverageSalaryWithinBounds` | hh_parse.py:103-107 | on estimates in `[lo, hi]` with `lo >= 0` the average salary is in `[floor(lo), hi]` |
| `HhParse.FormatStatisticsExample` | hh_parse.py:103-107 | estimates 100, 200, 300 give 3 processed and an average of 200 |
| `SuperjobParse.PredictRubSalarySj` | superjob_parse.py:42-55 | `None` unless the currency is exactly "rub"; an estimate exactly when it is and a payment bound is truthy, and then the heuristic's |
| `SuperjobParse.TruthyPredictions` | superjob_parse.py:65-68 | at most one value per object, and no kept value is zero |
| `SuperjobParse.TruthyPredictionsAppend` | superjob_parse.py:65-68 | the filter distributes over concatenation, so it keeps the objects' order |
| `SuperjobParse.TruthyPredictionsMembers` | superjob_parse.py:65-68 | a value is kept exactly when it is a non-zero prediction of some object |
| `SuperjobParse.CalculatePredictedSalaries` | superjob_parse.py:58-68 | the truthy predictions of the response's objects, or `TypeError` exactly when `objects` is missing |
| `SuperjobParse.FirstStop` | superjob_parse.py:82-92 | the first page index, up to a known stopping one, whose response does not continue the loop |
| `SuperjobParse.TheStop` | superjob_parse.py:82-92 | the index of the first response that does not continue the loop |
| `SuperjobParse.TheStopIs` | superjob_parse.py:82-92 | that index is the only one with every earlier response continuing |
| `SuperjobParse.FirstStopAt` | superjob_parse.py:82-92 | a response that ends the loop with only continuing responses before it is the first stop, whatever the bound after it |
| `SuperjobParse.WalkLanguage` | superjob_parse.py:78-92 | the outcome at the first response `k` that does not continue the loop: exactly pages `0, 1, ..., k` are requested, in order, each once while `more` is truthy; an `HTTPError` keeps the earlier pages' predictions; a final page with falsy `more` adds its own; `total` is that of the last fetched page; a `ConnectionError` or missing `objects` crashes |
| `SuperjobParse.WalkIgnoresLaterPages` | superjob_parse.py:82-92 | responses after the stopping one cannot change where the walk stops or what it leaves |
| `SuperjobParse.PredictionsAtMostFetched` | superjob_parse.py:82-92 | no more predictions are collected than objects were fetched, on any page range |
| `SuperjobParse.PredictionsIgnoreCarriedTotal` | superjob_parse.py:78-91 | a language's predictions, and whether it crashes, do not depend on the `total` left by the previous language |
| `SuperjobParse.TotalIsLastFetched` | superjob_parse.py:91 | once a page is fetched, `total` is that of the last fetched page; only a failure on the very first request leaves the carried value |
| `SuperjobParse.Tail` | superjob_parse.py:77 | `languages[1:]`: one element fewer than a non-empty list (none for an empty one), and element `i` is the list's element `i + 1` |
| `SuperjobParse.CollectStatistics` | superjob_parse.py:75-94 | the statistics dict after walking every language but the first, in order, storing each one's (`total`, predictions) pair; a crash ends the whole run |
| `SuperjobParse.StatisticsKeysDistinct` | superjob_parse.py:77-94 | storing every walked language keeps the dict's keys distinct |
| `SuperjobParse.StatisticsKeysPrefix` | superjob_parse.py:77-94 | the keys before the loop keep their places, as a prefix of the keys after it |
| `SuperjobParse.StatisticsKeys` | superjob_parse.py:77-94 | a key is present after the loop exactly when it was present before or is a walked language |
| `SuperjobParse.StatisticsKeepOthers` | superjob_parse.py:77-94 | a language not walked keeps its entry |
| `SuperjobParse.StatisticsHoldOwnPredictions` | superjob_parse.py:77-94 | each walked language's entry holds exactly its own pages' predictions (reset per language) |
| `SuperjobParse.ScriptStatistics` | superjob_parse.py:76-94 | the keys are exactly the languages after the first, and each entry holds that language's own predictions |
| `Main.ExtractPopularProgrammingLanguages` | main.py:25-29 | a prefix of the scraped list, of length `number` when `1 <= number < len`, the whole list otherwise |
| `Main.ExtractPopularProgrammingLanguagesAgree` | main.py:26-29 | equal to the `utils` clamp on every input |
| `Main.PredictRubSalary` | main.py:54-74 | `None` for every "RUB" fork; an estimate exactly when the currency is not "RUB" and a bound is truthy |
| `Main.PredictRubSalaryAgrees` | main.py:64-74 | equal to `predict_rub_salary_hh` on every fork: the inlined heuristic is `predict_salary` |
| `Main.ExtractPredictedSalaries` | main.py:77-83 | at most one estimate per vacancy |
| `Main.ExtractPredictedSalariesAgree` | main.py:79-83 | equal to the HeadHunter module's list builder on every item list |
| `Main.ExtractPredictedSalariesFromPages` | main.py:86-109 | the same requests, estimates and found count as `calculate_salaries_for_pages` |
| `Main.FormatStatistics` | main.py:112-118 | processed = number of estimates, average = `int(mean)`, failing exactly as `mean` does |
| `Main.FormatStatisticsAgrees` | main.py:112-118 | equal to the HeadHunter module's `format_statistics` |

## Findings

| source | as written | input that shows it | evidently intended | confidence | as-written member | corrected member |
|---|---|---|---|---|---|---|
| hh_parse.py:41-42 | `if not salary_fork.get("currency") != "RUB": return None` returns `None` for rouble forks and estimates every other currency (the same guard is at main.py:61-62) | fork `{"currency": "RUB", "from": 100, "to": 200}` gives `None`; the same fork in "USD" gives 150 | estimate only forks in roubles: 150 for the "RUB" fork, `None` for the "USD" one | high (not executed) | `HhParse.RoubleForkRejected` | `HhParse.PredictRubSalaryIntended` |

The page walks of both HeadHunter scripts keep the as-written guard, because they
model the code as it runs. That choice affects only what an estimate is. The stop
rule, the page order, the found count and the accumulation properties above are
proved for the as-written guard; their proofs do not use the guard itself. With the as-written guard, a page that lists a rouble fork
puts a `None` estimate into the list. `format_statistics` then fails with `TypeError`,
as `FormatStatistics` records.

## Left out

- HTTP: `fetch_hh_page`, `get_response`, `requests.get` and `raise_for_status`
  (hh_parse.py:12-31, superjob_parse.py:16-39, main.py:32-51) are replaced by an
  injected page source. `HTTPError` and `ConnectionError` are values of `Fetch`. The
  request parameters (area, period, page size, API key header) are not modelled.
- Scraping: the page download, BeautifulSoup and the CSS selector (utils.py:31-39,
  main.py:17-25) are left out. Only the clamp and slice over the scraped names are
  modelled.
- `time.sleep(3)` (main.py:107), `load_dotenv`/`os.environ` (superjob_parse.py:72-73),
  `AsciiTable`, the table title and every `print` are left out. None of them affects
  the computed values.
- Missing imports: hh_parse.py:5-7 imports `generate_pretty_statistics` from `utils`,
  and superjob_parse.py:6-11 imports both `format_statistics` and
  `generate_pretty_statistics`. `utils.py` defines neither, so as the files stand
  both `from utils import (...)` statements raise `ImportError` and neither script
  gets past its imports. The model describes the functions of those two modules as
  if the imports succeeded. hh_parse.py defines its own `format_statistics`
  (hh_parse.py:95-107), which is modelled. SuperJob's `format_statistics` is not
  invented: SuperJob is modelled up to the (`total`, predictions) pair stored per
  language.
- The `__main__` blocks of hh_parse.py:110-119 and main.py:121-129 only chain the
  modelled functions and print. They are not modelled as separate operations.
- Float rounding: 1.2, 0.8 and `mean` are exact reals. `int()` is truncation toward
  zero on the exact value.
- JSON values of unexpected types (a string bound, a non-boolean `more`, a non-dict
  salary block) are not modelled. Bounds are numbers, `more` is a boolean, and a
  truthy salary block is a dict.
- `SuperjobParse.CollectStatistics`: Python's `NameError`, raised when the first
  language's first request fails before `total` was ever assigned, is not reproduced.
  The pair is stored with `total` Unbound instead.
- Other failures of a request: `Fetch` can express only `HTTPError`, `ConnectionError`
  and a parsed body. Any other exception, such as `response.json()` raising on a
  non-JSON body (hh_parse.py:31, superjob_parse.py:39, main.py:51), escapes both
  scripts' handlers and ends the run. The model cannot express that outcome.
- `SuperjobParse.LanguageSource`: the responses are a function of the language name
  and the page index. A language that appears twice in `languages[1:]` therefore sees
  the same responses on its second walk, which `SuperjobParse.StatisticsHoldOwnPredictions`
  relies on for such a language; a server that answers differently the second time is
  not modelled.
- `SuperjobParse.WalkLanguage`: the source loop has no page bound and never ends on a
  source that always answers `more`. The model requires a page source that eventually
  gives a non-continuing response (`EventuallyStops`), and takes the index of one such
  response as a ghost termination bound.
