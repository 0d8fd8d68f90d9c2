/** The parts of `net/url` the scanner uses: a parsed URL, its query as `url.Values`, `Get` and `Set`. */
module Query {

  /** `url.Values`: each query key maps to the list of its values, in the order they appear. */
  type Values = map<string, seq<string>>

  /** A parsed URL: everything but the query (scheme, host, path, fragment) kept opaque in `rest`,
      and the query string decoded into `Values`. */
  datatype Url = Url(rest: string, query: Values)

  /** `Values.Get`: the first value of `key`, or "" when the key is absent or has no values. */
  function Get(q: Values, key: string): string
  {
    if key in q && |q[key]| > 0 then q[key][0] else ""
  }

  /** `Values.Set`: replaces every value of `key` with the single `value`. */
  function Set(q: Values, key: string, value: string): Values
  {
    q[key := [value]]
  }

  /** The query `checkAppend` builds: `param` is set to its first existing value (or "")
      followed by `suffix`; no other key changes. */
  function Appended(q: Values, param: string, suffix: string): (r: Values)
    ensures r.Keys == q.Keys + {param}
    ensures param in q && |q[param]| > 0 ==> r[param] == [q[param][0] + suffix]
    ensures (param !in q || q[param] == []) ==> r[param] == [suffix]
    ensures forall k :: k in q && k != param ==> r[k] == q[k]
  {
    assert "" + suffix == suffix;
    Set(q, param, Get(q, param) + suffix)
  }
}
