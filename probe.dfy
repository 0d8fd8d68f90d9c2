/** The injection prober: append a marker suffix to one parameter's existing value, re-run
    detection on the mutated URL, and report whether that parameter is still reflected
    (`checkAppend`), plus its retry wrapper (`checkAppendWithRetry`). */
module Probe {
  import opened Wrappers
  import opened Text
  import opened Query
  import opened Retries
  import opened Reflect

  /** The target with `param` set to its first value (or "") followed by `suffix`. */
  function Mutated(u: Url, param: string, suffix: string): Url
  {
    u.(query := Appended(u.query, param, suffix))
  }

  /** The outcome of one `checkAppend` call on attempt `attempt`: a parse error of the target
      gives false with that error; otherwise detection runs afresh on the rendered mutated URL,
      and the verdict is whether `param` is among the keys it reports. */
  function AppendAttempt(env: Env, target: string, param: string, suffix: string, attempt: int): Attempt<bool>
  {
    match env.parse(target)
    case Err(e) => Attempt(false, Some(e))
    case Ok(u) =>
      var mutated := env.render(Mutated(u, param, suffix));
      var d := Detection(env.fetch(mutated, attempt), env.parse(mutated));
      if d.err.Some? then Attempt(false, d.err) else Attempt(Count(d.value, param) > 0, None)
  }

  /** The outcomes of attempts 0 .. maxRetries - 1 of `checkAppend(target, param, suffix)`. */
  function AppendAttempts(env: Env, target: string, param: string, suffix: string, maxRetries: int): seq<Attempt<bool>>
  {
    seq(if maxRetries <= 0 then 0 else maxRetries, i => AppendAttempt(env, target, param, suffix, i))
  }

  /** Re-parsing the rendered URL gives back the URL that was rendered. */
  ghost predicate RoundTrips(env: Env, u: Url)
  {
    env.parse(env.render(u)) == Ok(u)
  }

  /** When the re-encoded URL parses back to the mutated one and the server answers an HTML page,
      the probe reports `param` exactly when the body contains its first original value (or "")
      followed by the suffix. */
  lemma ProbeVerdict(env: Env, target: string, param: string, suffix: string, attempt: int, u: Url, resp: Response)
    requires env.parse(target) == Ok(u)
    requires RoundTrips(env, Mutated(u, param, suffix))
    requires env.fetch(env.render(Mutated(u, param, suffix)), attempt) == Fetched(resp)
    requires !Redirect(resp) && !NotHtml(resp)
    ensures AppendAttempt(env, target, param, suffix, attempt)
         == Attempt(Contains(resp.body, Get(u.query, param) + suffix), None)
  {
    var m := Mutated(u, param, suffix);
    var value := Get(u.query, param) + suffix;
    assert m.query[param] == [value];
    assert [value][..0] == [];
    assert MatchCount(resp.body, [value]) == if Contains(resp.body, value) then 1 else 0;
    assert Count(Tally(resp.body, m.query), param) == MatchCount(resp.body, [value]);
  }

  /** `checkAppend`: parse the target, set `param` to its first value plus `suffix`, run
      `checkReflected` on the re-rendered URL and search its list for `param`. */
  method CheckAppend(env: Env, target: string, param: string, suffix: string, attempt: int)
    returns (wasReflected: bool, err: Option<Error>)
    ensures Attempt(wasReflected, err) == AppendAttempt(env, target, param, suffix, attempt)
    ensures env.parse(target).Err? ==> !wasReflected && err == Some(env.parse(target).error)
    ensures err.Some? ==> !wasReflected
  {
    var parsed := env.parse(target);
    if parsed.Err? {
      return false, Some(parsed.error);
    }
    var qs := parsed.value.query;
    var val := Get(qs, param);
    qs := Set(qs, param, val + suffix);
    var u := parsed.value.(query := qs);
    assert u == Mutated(parsed.value, param, suffix);
    var reflected;
    reflected, err := CheckReflected(env, env.render(u), attempt);
    if err.Some? {
      return false, err;
    }
    var i := 0;
    while i < |reflected|
      invariant 0 <= i <= |reflected|
      invariant param !in reflected[..i]
    {
      if reflected[i] == param {
        return true, None;
      }
      assert reflected[..i + 1] == reflected[..i] + [reflected[i]];
      i := i + 1;
    }
    assert reflected[..i] == reflected;
    return false, None;
  }

  /** `checkAppendWithRetry`: up to `maxRetries` calls of `checkAppend`, sleeping after each
      failure; `calls` counts the calls made. */
  method CheckAppendWithRetry(env: Env, target: string, param: string, suffix: string, maxRetries: int)
    returns (wasReflected: bool, err: Option<Error>, sleeps: nat, ghost calls: nat)
    ensures var r := Retry(AppendAttempts(env, target, param, suffix, maxRetries), false);
      wasReflected == r.value && err == r.err && sleeps == r.sleeps && calls == r.calls
    ensures maxRetries <= 0 ==> !wasReflected && err == None && sleeps == 0
    ensures calls <= (if maxRetries <= 0 then 0 else maxRetries)
    ensures sleeps == (if err.None? && calls > 0 then calls - 1 else calls)
  {
    ghost var attempts := AppendAttempts(env, target, param, suffix, maxRetries);
    err := None;
    sleeps := 0;
    var i := 0;
    while i < maxRetries
      invariant |attempts| == if maxRetries <= 0 then 0 else maxRetries
      invariant 0 <= i <= |attempts|
      invariant sleeps == i
      invariant forall j :: 0 <= j < i ==> attempts[j].err.Some?
      invariant err == if i == 0 then None else attempts[i - 1].err
    {
      wasReflected, err := CheckAppend(env, target, param, suffix, i);
      if err.None? {
        FirstSuccessWins(attempts, false, i);
        return wasReflected, None, sleeps, i + 1;
      }
      sleeps := sleeps + 1;
      i := i + 1;
    }
    if i > 0 {
      AllFailuresReturnLastError(attempts, false);
    }
    return false, err, sleeps, i;
  }
}
