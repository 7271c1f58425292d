/**
 The helpers shared by the HeadHunter and SuperJob scripts: the salary
 heuristic, the clamp on the number of scraped languages, and the rows of the
 statistics table; and the list of page indices both walks request.
 */
module Utils {
  import opened PySemantics

  /** The indices `0, 1, ..., n - 1`, in order: the pages a walk requests. A
      helper shared by the models of both walks; utils.py has no such function. */
  function Indices(n: nat): (r: seq<nat>)
    ensures |r| == n && forall i :: 0 <= i < n ==> r[i] == i
  {
    if n == 0 then [] else Indices(n - 1) + [n - 1]
  }

  /** Salary estimate from a fork whose bounds are read with `.get`: the
      midpoint when both bounds are truthy, the lower bound plus 20% or the
      upper bound minus 20% when only one is, and nothing otherwise. */
  function PredictSalary(salaryFrom: Option<real>, salaryTo: Option<real>): (r: Option<real>)
    ensures TruthyNumber(salaryFrom) && TruthyNumber(salaryTo) ==>
      r == Some((salaryFrom.value + salaryTo.value) / 2.0)
    ensures TruthyNumber(salaryFrom) && !TruthyNumber(salaryTo) ==> r == Some(salaryFrom.value * 1.2)
    ensures !TruthyNumber(salaryFrom) && TruthyNumber(salaryTo) ==> r == Some(salaryTo.value * 0.8)
    ensures r.None? <==> !TruthyNumber(salaryFrom) && !TruthyNumber(salaryTo)
  {
    if TruthyNumber(salaryFrom) && TruthyNumber(salaryTo) then Some((salaryFrom.value + salaryTo.value) / 2.0)
    else if TruthyNumber(salaryFrom) then Some(salaryFrom.value * 1.2)
    else if TruthyNumber(salaryTo) then Some(salaryTo.value * 0.8)
    else None
  }

  /** When both bounds are given, the estimate lies between them. */
  lemma PredictSalaryWithinFork(salaryFrom: real, salaryTo: real)
    requires salaryFrom != 0.0 && salaryTo != 0.0
    ensures var r := PredictSalary(Some(salaryFrom), Some(salaryTo));
      r.Some? &&
      (salaryFrom <= salaryTo ==> salaryFrom <= r.value <= salaryTo) &&
      (salaryTo <= salaryFrom ==> salaryTo <= r.value <= salaryFrom)
  {
  }

  /** Non-negative bounds give a positive estimate whenever there is one, so
      an estimate is never zero on such input. */
  lemma PredictSalaryPositive(salaryFrom: Option<real>, salaryTo: Option<real>)
    requires salaryFrom.Some? ==> salaryFrom.value >= 0.0
    requires salaryTo.Some? ==> salaryTo.value >= 0.0
    ensures var r := PredictSalary(salaryFrom, salaryTo); r.Some? ==> r.value > 0.0
  {
  }

  /** The worked cases of the heuristic, including a zero bound read as absent. */
  lemma PredictSalaryExamples()
    ensures PredictSalary(Some(100.0), Some(200.0)) == Some(150.0)
    ensures PredictSalary(Some(100.0), None) == Some(120.0)
    ensures PredictSalary(None, Some(200.0)) == Some(160.0)
    ensures PredictSalary(Some(0.0), Some(200.0)) == Some(160.0)
    ensures PredictSalary(Some(0.0), Some(0.0)) == None
    ensures PredictSalary(None, None) == None
  {
  }

  /** The clamp and slice of `extract_popular_programming_languages`, on the
      already scraped language names: the first `number` of them when
      `1 <= number < len`, and all of them otherwise. */
  function ExtractPopularProgrammingLanguages(extracted: seq<string>, number: int): (r: seq<string>)
    ensures |r| <= |extracted| && r == extracted[..|r|]
    ensures 1 <= number < |extracted| ==> |r| == number
    ensures !(1 <= number < |extracted|) ==> r == extracted
  {
    var n := if 1 <= number < |extracted| then number else |extracted|;
    extracted[..n]
  }

  /** A statistics record as `format_statistics` builds it. */
  datatype Statistics = Statistics(vacanciesFound: Option<int>, vacanciesProcessed: int, averageSalary: int)

  /** A table cell: a text, or a number read with `.get` (possibly `None`). */
  datatype Cell = Text(text: string) | Number(number: Option<int>)

  type Row = seq<Cell>

  const Header: Row := [
    Text("Язык программирования"), Text("Вакансий найдено"),
    Text("Вакансий обработано"), Text("Средняя зарплата")
  ]

  /** The row of one language: name, vacancies found, processed, average salary. */
  function StatisticsRow(key: string, value: Statistics): (row: Row)
    ensures |row| == |Header|
  {
    [Text(key), Number(value.vacanciesFound), Number(Some(value.vacanciesProcessed)),
     Number(Some(value.averageSalary))]
  }

  /** The table data of `show_pretty_statistics`: the header, then one row per
      entry of the statistics dict in its iteration order. */
  method ShowPrettyStatistics(statistics: Dict<string, Statistics>) returns (tableData: seq<Row>)
    ensures |tableData| == |statistics| + 1
    ensures tableData[0] == Header
    ensures forall i :: 0 <= i < |statistics| ==>
      tableData[i + 1] == StatisticsRow(statistics[i].0, statistics[i].1)
    ensures forall i :: 0 <= i < |tableData| ==> |tableData[i]| == |Header|
  {
    tableData := [Header];
    for i := 0 to |statistics|
      invariant |tableData| == i + 1
      invariant tableData[0] == Header
      invariant forall j :: 0 <= j < i ==> tableData[j + 1] == StatisticsRow(statistics[j].0, statistics[j].1)
      invariant forall j :: 0 <= j < |tableData| ==> |tableData[j]| == |Header|
    {
      var (key, value) := statistics[i];
      tableData := tableData + [StatisticsRow(key, value)];
    }
  }
}
