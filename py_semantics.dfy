/**
 The pieces of Python's semantics that the parsers rely on: `dict.get` results
 (`None` or a value), truthiness, transport failures raised by `requests`,
 `int()` on a float, `statistics.mean`, and the insertion order of a `dict`.
 */
module PySemantics {

  datatype Option<+T> = None | Some(value: T)

  datatype Result<+T, +E> = Ok(value: T) | Err(error: E)

  /** One call to a JSON endpoint: `requests.HTTPError` (raised by
      `raise_for_status`), `requests.exceptions.ConnectionError`, or the parsed body. */
  datatype Fetch<+P> = HttpError | ConnectionError | Fetched(page: P)

  /** Truthiness of a JSON number read with `.get`: `None` and `0` are falsy. */
  predicate TruthyNumber(x: Option<real>) {
    x.Some? && x.value != 0.0
  }

  /** Truthiness of a JSON integer read with `.get`. */
  predicate TruthyInt(x: Option<int>) {
    x.Some? && x.value != 0
  }

  /** Truthiness of a JSON list read with `.get`: `None` and `[]` are falsy. */
  predicate TruthyList<T>(x: Option<seq<T>>) {
    x.Some? && |x.value| > 0
  }

  /** Python's `int()` on a float: truncation toward zero. */
  function Int(x: real): (r: int)
    ensures 0.0 <= x ==> 0 <= r && r as real <= x < r as real + 1.0
    ensures x < 0.0 ==> r <= 0 && r as real - 1.0 < x <= r as real
  {
    if x >= 0.0 then x.Floor else -((-x).Floor)
  }

  function Sum(xs: seq<real>): real {
    if xs == [] then 0.0 else Sum(xs[..|xs| - 1]) + xs[|xs| - 1]
  }

  lemma {:induction false} SumBounds(xs: seq<real>, lo: real, hi: real)
    requires forall i :: 0 <= i < |xs| ==> lo <= xs[i] <= hi
    ensures |xs| as real * lo <= Sum(xs) <= |xs| as real * hi
  {
    if xs != [] {
      var n := |xs| - 1;
      SumBounds(xs[..n], lo, hi);
      assert |xs| as real * lo == n as real * lo + lo;
      assert |xs| as real * hi == n as real * hi + hi;
    }
  }

  /** Every element of a list is a number (no `None`). */
  predicate AllNumbers(data: seq<Option<real>>) {
    forall i :: 0 <= i < |data| ==> data[i].Some?
  }

  /** The numbers of a list with no `None` in it. */
  function Numbers(data: seq<Option<real>>): (xs: seq<real>)
    requires AllNumbers(data)
    ensures |xs| == |data|
    ensures forall i :: 0 <= i < |data| ==> data[i] == Some(xs[i])
  {
    seq(|data|, i requires 0 <= i < |data| && AllNumbers(data) => data[i].value)
  }

  /** The two ways `statistics.mean` fails on these lists. */
  datatype MeanError =
    | StatisticsError  // "mean requires at least one data point"
    | TypeError        // a `None` among the data

  /** `statistics.mean`, with exact arithmetic. */
  function Mean(data: seq<Option<real>>): (r: Result<real, MeanError>)
    ensures r == Err(StatisticsError) <==> |data| == 0
    ensures r == Err(TypeError) <==> |data| > 0 && !AllNumbers(data)
    ensures r.Ok? ==> AllNumbers(data) && r.value * |data| as real == Sum(Numbers(data))
  {
    if |data| == 0 then Err(StatisticsError)
    else if !AllNumbers(data) then Err(TypeError)
    else Ok(Sum(Numbers(data)) / |data| as real)
  }

  /** The mean lies between any lower and upper bound of the data. */
  lemma MeanWithinBounds(data: seq<Option<real>>, lo: real, hi: real)
    requires Mean(data).Ok?
    requires forall i :: 0 <= i < |data| ==> data[i].Some? && lo <= data[i].value <= hi
    ensures lo <= Mean(data).value <= hi
  {
    SumBounds(Numbers(data), lo, hi);
  }

  /** A Python `dict` as its list of items in insertion order. */
  type Dict<K, V> = seq<(K, V)>

  function Keys<K, V>(d: Dict<K, V>): (ks: seq<K>)
    ensures |ks| == |d|
    ensures forall i :: 0 <= i < |d| ==> ks[i] == d[i].0
  {
    if d == [] then [] else [d[0].0] + Keys(d[1..])
  }

  predicate DistinctKeys<K(==), V>(d: Dict<K, V>) {
    forall i, j :: 0 <= i < j < |d| ==> d[i].0 != d[j].0
  }

  /** `d.get(k)`. */
  function Lookup<K(==), V>(d: Dict<K, V>, k: K): (r: Option<V>)
    ensures r.Some? <==> k in Keys(d)
  {
    if d == [] then None
    else if d[0].0 == k then Some(d[0].1)
    else Lookup(d[1..], k)
  }

  /** `d[k] = v`: an existing key keeps its position, a new key goes last. */
  function Store<K(==,!new), V>(d: Dict<K, V>, k: K, v: V): (r: Dict<K, V>)
    ensures Lookup(r, k) == Some(v)
    ensures forall k' :: k' != k ==> Lookup(r, k') == Lookup(d, k')
    ensures Keys(r) == if k in Keys(d) then Keys(d) else Keys(d) + [k]
  {
    if d == [] then [(k, v)]
    else if d[0].0 == k then [(k, v)] + d[1..]
    else
      var rest := Store(d[1..], k, v);
      assert ([d[0]] + rest)[1..] == rest;
      [d[0]] + rest
  }

  /** Storing into a dict with distinct keys keeps its keys distinct. */
  lemma {:induction false} StoreKeepsKeysDistinct<K(!new), V>(d: Dict<K, V>, k: K, v: V)
    requires DistinctKeys(d)
    ensures DistinctKeys(Store(d, k, v))
  {
    var r := Store(d, k, v);
    forall i, j | 0 <= i < j < |r| ensures r[i].0 != r[j].0 {
      assert Keys(r)[i] == r[i].0 && Keys(r)[j] == r[j].0;
      if k !in Keys(d) && j == |d| {
        assert Keys(d)[i] == Keys(r)[i];
      } else {
        assert Keys(d)[i] == Keys(r)[i] && Keys(d)[j] == Keys(r)[j];
      }
    }
  }
}
