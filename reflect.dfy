/** Reflection detection: fetch a target, classify the response, and list every query key once
    for each of its values that occurs verbatim in the body (`checkReflected`), plus its retry
    wrapper (`checkReflectedWithRetry`). */
module Reflect {
  import opened Wrappers
  import opened Text
  import opened Query
  import opened Retries

  /** The parts of an HTTP response the scanner reads: the status line (such as "302 Found"),
      the Content-Type header ("" when absent) and the body read in full. */
  datatype Response = Response(status: string, contentType: string, body: string)

  /** What sending a GET for one URL gives: a response, a response with a nil body, or an error
      from building the request, sending it, or reading the body. */
  datatype Fetch = Fetched(resp: Response) | NoBody | FetchFailed(err: Error)

  /** The network and the URL library, which the model does not see into:
      `fetch(url, i)` is what the request for `url` gives on attempt `i` of the enclosing retry
      loop, `parse` is `url.Parse` followed by `Query()`, and `render` is `URL.String()` with the
      query re-encoded by `Values.Encode()`. */
  datatype Env = Env(fetch: (string, int) -> Fetch, parse: string -> Result<Url>, render: Url -> string)

  /** `http.NewRequest` parses the target with `url.Parse` before anything is sent, so an
      unparsable target fails every fetch with the parse error. */
  ghost predicate Lawful(env: Env)
  {
    forall u: string, i: int :: env.parse(u).Err? ==> env.fetch(u, i) == FetchFailed(env.parse(u).error)
  }

  /** How many times each query key is to be listed: one per value that occurs in the body. */
  type Counts = map<string, nat>

  /** How many times `key` is listed according to `t`. */
  function Count(t: Counts, key: string): nat
  {
    if key in t then t[key] else 0
  }

  /** `out` lists every key exactly `Count(t, key)` times, in some order. */
  ghost predicate Lists(out: seq<string>, t: Counts)
  {
    forall key :: multiset(out)[key] == Count(t, key)
  }

  /** The number of `values` that occur in `body`. */
  function MatchCount(body: string, values: seq<string>): nat
  {
    if values == [] then 0
    else MatchCount(body, values[..|values| - 1]) + (if Contains(body, values[|values| - 1]) then 1 else 0)
  }

  /** The reflected keys of query `q` against `body`, with their multiplicities. */
  function Tally(body: string, q: Values): Counts
  {
    map key | key in q :: MatchCount(body, q[key])
  }

  /** A redirect: the status line starts with "3". */
  predicate Redirect(resp: Response)
  {
    HasPrefix(resp.status, "3")
  }

  /** A Content-Type is present and does not mention "html"; an absent one does not skip. */
  predicate NotHtml(resp: Response)
  {
    resp.contentType != "" && !Contains(resp.contentType, "html")
  }

  /** The outcome of one `checkReflected` call, given what the fetch and the parse of the
      target give. */
  function Detection(f: Fetch, p: Result<Url>): Attempt<Counts>
  {
    match f
    case FetchFailed(e) => Attempt(map[], Some(e))
    case NoBody => Attempt(map[], None)
    case Fetched(resp) =>
      if Redirect(resp) || NotHtml(resp) then Attempt(map[], None)
      else match p
        case Err(e) => Attempt(map[], Some(e))
        case Ok(u) => Attempt(Tally(resp.body, u.query), None)
  }

  /** The outcomes of attempts 0 .. maxRetries - 1 of `checkReflected(target)`. */
  function DetectionAttempts(env: Env, target: string, maxRetries: int): seq<Attempt<Counts>>
  {
    seq(if maxRetries <= 0 then 0 else maxRetries, i => Detection(env.fetch(target, i), env.parse(target)))
  }

  /** A key is counted at least once exactly when one of its values occurs in the body. */
  lemma {:induction false} MatchCountPositive(body: string, values: seq<string>)
    ensures MatchCount(body, values) > 0 <==> exists i :: 0 <= i < |values| && Contains(body, values[i])
  {
    if values != [] {
      var init := values[..|values| - 1];
      MatchCountPositive(body, init);
      assert forall i :: 0 <= i < |init| ==> init[i] == values[i];
    }
  }

  /** A key is reflected exactly when at least one of its values occurs verbatim in the body. */
  lemma ReflectedIff(body: string, q: Values, key: string)
    ensures Count(Tally(body, q), key) > 0 <==> key in q && exists v :: v in q[key] && Contains(body, v)
  {
    if key in q {
      MatchCountPositive(body, q[key]);
    }
  }

  /** Empty values are not excluded: a key with an empty value is always reflected. */
  lemma EmptyValueReflected(body: string, q: Values, key: string)
    requires key in q && "" in q[key]
    ensures Count(Tally(body, q), key) > 0
  {
    ReflectedIff(body, q, key);
    assert Contains(body, "");
  }

  /** An unparsable target is reported like a transport error: every attempt fails with the parse
      error, so the retry loop makes them all, sleeps after each and returns that error. */
  lemma UnparsableTargetFails(env: Env, target: string, maxRetries: int)
    requires Lawful(env) && env.parse(target).Err? && maxRetries > 0
    ensures Retry(DetectionAttempts(env, target, maxRetries), map[])
         == Retried(map[], Some(env.parse(target).error), maxRetries, maxRetries)
  {
    var attempts := DetectionAttempts(env, target, maxRetries);
    forall i | 0 <= i < |attempts|
      ensures attempts[i] == Attempt(map[], Some(env.parse(target).error))
    {
      assert env.fetch(target, i) == FetchFailed(env.parse(target).error);
    }
    AllFailuresReturnLastError(attempts, map[]);
  }

  /** `checkReflected`: one fetch of `target` (attempt number `attempt`), classification of the
      response, then a scan of every query value against the body. Keys are visited in an
      arbitrary order, as Go's map iteration does. */
  method CheckReflected(env: Env, target: string, attempt: int) returns (out: seq<string>, err: Option<Error>)
    ensures var a := Detection(env.fetch(target, attempt), env.parse(target));
      err == a.err && Lists(out, a.value)
    ensures err.Some? ==> out == []
    ensures env.fetch(target, attempt).FetchFailed? ==> err == Some(env.fetch(target, attempt).err)
    ensures env.fetch(target, attempt).Fetched? && Redirect(env.fetch(target, attempt).resp) ==> out == [] && err == None
    ensures env.fetch(target, attempt).Fetched? && NotHtml(env.fetch(target, attempt).resp) ==> out == [] && err == None
  {
    out := [];
    match env.fetch(target, attempt)
    case FetchFailed(e) =>
      return [], Some(e);
    case NoBody =>
      return [], None;
    case Fetched(resp) =>
      if HasPrefix(resp.status, "3") {
        return [], None;
      }
      var ct := resp.contentType;
      if ct != "" && !Contains(ct, "html") {
        return [], None;
      }
      var body := resp.body;
      var parsed := env.parse(target);
      if parsed.Err? {
        return [], Some(parsed.error);
      }
      var q := parsed.value.query;
      var keys := q.Keys;
      while keys != {}
        invariant keys <= q.Keys
        invariant forall k :: multiset(out)[k] == if k in q && k !in keys then MatchCount(body, q[k]) else 0
        decreases keys
      {
        var key :| key in keys;
        var vv := q[key];
        var j := 0;
        while j < |vv|
          invariant 0 <= j <= |vv|
          invariant forall k :: multiset(out)[k] ==
                      if k == key then MatchCount(body, vv[..j])
                      else if k in q && k !in keys then MatchCount(body, q[k])
                      else 0
        {
          assert vv[..j + 1][..j] == vv[..j];
          if Contains(body, vv[j]) {
            out := out + [key];
          }
          j := j + 1;
        }
        assert vv[..|vv|] == vv;
        keys := keys - {key};
      }
      return out, None;
  }

  /** `checkReflectedWithRetry`: up to `maxRetries` calls of `checkReflected`, sleeping after each
      failure; `calls` counts the calls made. */
  method CheckReflectedWithRetry(env: Env, target: string, maxRetries: int)
    returns (reflected: seq<string>, err: Option<Error>, sleeps: nat, ghost calls: nat)
    ensures var r := Retry(DetectionAttempts(env, target, maxRetries), map[]);
      err == r.err && sleeps == r.sleeps && calls == r.calls && Lists(reflected, r.value)
    ensures err.Some? ==> reflected == []
    ensures maxRetries <= 0 ==> reflected == [] && err == None && sleeps == 0
    ensures calls <= (if maxRetries <= 0 then 0 else maxRetries)
    ensures sleeps == (if err.None? && calls > 0 then calls - 1 else calls)
  {
    ghost var attempts := DetectionAttempts(env, target, maxRetries);
    err := None;
    sleeps := 0;
    var i := 0;
    while i < maxRetries
      invariant |attempts| == if maxRetries <= 0 then 0 else maxRetries
      invariant 0 <= i <= |attempts|
      invariant sleeps == i
      invariant forall j :: 0 <= j < i ==> attempts[j].err.Some?
      invariant err == if i == 0 then None else attempts[i - 1].err
    {
      reflected, err := CheckReflected(env, target, i);
      if err.None? {
        FirstSuccessWins(attempts, map[], i);
        return reflected, None, sleeps, i + 1;
      }
      sleeps := sleeps + 1;
      i := i + 1;
    }
    if i > 0 {
      AllFailuresReturnLastError(attempts, map[]);
    }
    return [], err, sleeps, i;
  }
}
