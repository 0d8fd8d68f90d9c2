/** The per-target pipeline a worker runs: detect the reflected keys of a target
    (`processCheck`), then probe each listed key with the four markup characters
    (`checkParam`), producing report lines. */
module Scan {
  import opened Wrappers
  import opened Retries
  import opened Reflect
  import opened Probe

  /** The probe characters, in the order `checkParam` tries them. */
  const ProbeChars: seq<char> := ['"', '\'', '<', '>']

  /** The marker appended to a parameter's value to probe character `c`. */
  function Suffix(c: char): string
  {
    "aprefix" + [c] + "asuffix"
  }

  /** A report line: a confirmed injection on standard output, or an error on standard error. */
  datatype Line =
    | Allows(param: string, ch: char, url: string)
    | AppendFailed(url: string, param: string, ch: char, err: Error)
    | DetectFailed(err: Error)
  {
    predicate ToStderr()
    {
      !Allows?
    }

    /** The text printed for the line, without its newline. */
    function Text(): string
    {
      match this
      case Allows(param, ch, url) => "param " + param + " is reflected and allows " + [ch] + " on " + url
      case AppendFailed(url, param, ch, err) =>
        "error from checkAppend for url " + url + " with param " + param + " with " + [ch] + ": " + err
      case DetectFailed(err) => "error from checkReflected: " + err
    }
  }

  /** One call of `checkAppendWithRetry` issued by the pipeline: the key probed and the suffix. */
  datatype ProbeCall = ProbeCall(param: string, suffix: string)

  /** The keys probed by `calls`, in order. */
  function Params(calls: seq<ProbeCall>): seq<string>
  {
    seq(|calls|, i requires 0 <= i < |calls| => calls[i].param)
  }

  /** What the retried probe of `param` with character `c` returns. */
  function ProbeOutcome(env: Env, url: string, param: string, c: char, maxRetries: int): Retried<bool>
  {
    Retry(AppendAttempts(env, url, param, Suffix(c), maxRetries), false)
  }

  /** The line, if any, that probing `param` with `c` reports. */
  function ProbeLines(env: Env, url: string, param: string, c: char, maxRetries: int): seq<Line>
  {
    var r := ProbeOutcome(env, url, param, c, maxRetries);
    if r.err.Some? then [AppendFailed(url, param, c, r.err.value)]
    else if r.value then [Allows(param, c, url)]
    else []
  }

  /** The calls that probing `param` with each of `chars` issues. */
  function ParamCalls(param: string, chars: seq<char>): seq<ProbeCall>
  {
    seq(|chars|, i requires 0 <= i < |chars| => ProbeCall(param, Suffix(chars[i])))
  }

  /** The lines that probing `param` with each of `chars` in turn reports. */
  function ParamLines(env: Env, url: string, param: string, chars: seq<char>, maxRetries: int): seq<Line>
  {
    if chars == [] then []
    else ParamLines(env, url, param, chars[..|chars| - 1], maxRetries)
         + ProbeLines(env, url, param, chars[|chars| - 1], maxRetries)
  }

  /** The calls issued for a reflected list: the four probes of each entry, duplicates included. */
  function Schedule(params: seq<string>): seq<ProbeCall>
  {
    if params == [] then []
    else Schedule(params[..|params| - 1]) + ParamCalls(params[|params| - 1], ProbeChars)
  }

  /** The lines reported for a reflected list, entry by entry. */
  function ScheduleLines(env: Env, url: string, params: seq<string>, maxRetries: int): seq<Line>
  {
    if params == [] then []
    else ScheduleLines(env, url, params[..|params| - 1], maxRetries)
         + ParamLines(env, url, params[|params| - 1], ProbeChars, maxRetries)
  }

  /** A probe character is reported as allowed exactly when its own retried probe succeeds with
      a positive verdict, whatever the other characters' probes gave. */
  lemma {:induction false} AllowedIff(env: Env, url: string, param: string, chars: seq<char>, maxRetries: int, c: char)
    ensures Allows(param, c, url) in ParamLines(env, url, param, chars, maxRetries)
        <==> c in chars && ProbeOutcome(env, url, param, c, maxRetries).err.None?
                        && ProbeOutcome(env, url, param, c, maxRetries).value
  {
    if chars != [] {
      var init := chars[..|chars| - 1];
      AllowedIff(env, url, param, init, maxRetries, c);
      assert chars == init + [chars[|chars| - 1]];
    }
  }

  /** A probe character's error is reported exactly when its own retried probe fails with it;
      a failure does not stop the later characters. */
  lemma {:induction false} FailureReportedIff(env: Env, url: string, param: string, chars: seq<char>, maxRetries: int, c: char, e: Error)
    ensures AppendFailed(url, param, c, e) in ParamLines(env, url, param, chars, maxRetries)
        <==> c in chars && ProbeOutcome(env, url, param, c, maxRetries).err == Some(e)
  {
    if chars != [] {
      var init := chars[..|chars| - 1];
      FailureReportedIff(env, url, param, init, maxRetries, c, e);
      assert chars == init + [chars[|chars| - 1]];
    }
  }

  /** Every line probing `param` reports is about `param` and `url`: a confirmed injection or a
      probe error. */
  lemma {:induction false} ParamLinesAreAbout(env: Env, url: string, param: string, chars: seq<char>, maxRetries: int, line: Line)
    requires line in ParamLines(env, url, param, chars, maxRetries)
    ensures line.Allows? || line.AppendFailed?
    ensures line.param == param && line.url == url
  {
    if chars != [] {
      var init := chars[..|chars| - 1];
      if line in ParamLines(env, url, param, init, maxRetries) {
        ParamLinesAreAbout(env, url, param, init, maxRetries, line);
      }
    }
  }

  /** For a whole target, "param p is reflected and allows c" is reported exactly when p is in the
      detected list and p's own retried probe with c returns true without error. */
  lemma {:induction false} ScheduleAllowsIff(env: Env, url: string, params: seq<string>, maxRetries: int, p: string, c: char)
    ensures Allows(p, c, url) in ScheduleLines(env, url, params, maxRetries)
        <==> p in params && c in ProbeChars && ProbeOutcome(env, url, p, c, maxRetries).err.None?
                                            && ProbeOutcome(env, url, p, c, maxRetries).value
  {
    if params != [] {
      var init, last := params[..|params| - 1], params[|params| - 1];
      ScheduleAllowsIff(env, url, init, maxRetries, p, c);
      AllowedIff(env, url, last, ProbeChars, maxRetries, c);
      assert params == init + [last];
      if Allows(p, c, url) in ParamLines(env, url, last, ProbeChars, maxRetries) {
        ParamLinesAreAbout(env, url, last, ProbeChars, maxRetries, Allows(p, c, url));
      }
    }
  }

  /** For a whole target, a probe error for p and c is reported exactly when p is in the detected
      list and p's own retried probe with c fails with that error. */
  lemma {:induction false} ScheduleFailureIff(env: Env, url: string, params: seq<string>, maxRetries: int, p: string, c: char, e: Error)
    ensures AppendFailed(url, p, c, e) in ScheduleLines(env, url, params, maxRetries)
        <==> p in params && c in ProbeChars && ProbeOutcome(env, url, p, c, maxRetries).err == Some(e)
  {
    if params != [] {
      var init, last := params[..|params| - 1], params[|params| - 1];
      ScheduleFailureIff(env, url, init, maxRetries, p, c, e);
      FailureReportedIff(env, url, last, ProbeChars, maxRetries, c, e);
      assert params == init + [last];
      if AppendFailed(url, p, c, e) in ParamLines(env, url, last, ProbeChars, maxRetries) {
        ParamLinesAreAbout(env, url, last, ProbeChars, maxRetries, AppendFailed(url, p, c, e));
      }
    }
  }

  /** Every entry of the reflected list is probed four times: a key listed n times gets 4 * n
      probes and an unlisted key none. */
  lemma {:induction false} ScheduleCounts(params: seq<string>, p: string)
    ensures |Schedule(params)| == 4 * |params|
    ensures multiset(Params(Schedule(params)))[p] == 4 * multiset(params)[p]
  {
    if params != [] {
      var init, last := params[..|params| - 1], params[|params| - 1];
      ScheduleCounts(init, p);
      assert params == init + [last];
      assert Params(Schedule(params)) == Params(Schedule(init)) + [last, last, last, last];
    }
  }

  /** The four calls `checkParam` issues for `param`, spelled out. */
  lemma ProbeSchedule(param: string)
    ensures ParamCalls(param, ProbeChars)
         == [ProbeCall(param, "aprefix\"asuffix"), ProbeCall(param, "aprefix'asuffix"),
             ProbeCall(param, "aprefix<asuffix"), ProbeCall(param, "aprefix>asuffix")]
  {
    assert Suffix('"') == "aprefix\"asuffix";
    assert Suffix('\'') == "aprefix'asuffix";
    assert Suffix('<') == "aprefix<asuffix";
    assert Suffix('>') == "aprefix>asuffix";
  }

  /** Extending the characters probed so far by the next one extends the calls and the lines by
      that character's own. */
  lemma NextChar(env: Env, url: string, param: string, chars: seq<char>, i: nat, maxRetries: int)
    requires i < |chars|
    ensures ParamCalls(param, chars[..i + 1]) == ParamCalls(param, chars[..i]) + [ProbeCall(param, Suffix(chars[i]))]
    ensures ParamLines(env, url, param, chars[..i + 1], maxRetries)
         == ParamLines(env, url, param, chars[..i], maxRetries) + ProbeLines(env, url, param, chars[i], maxRetries)
  {
    assert chars[..i + 1][..i] == chars[..i];
  }

  /** `checkParam`: probe `param` of `url` with each probe character in turn, reporting each
      confirmed injection and each error; an error does not skip the remaining characters. */
  method CheckParam(env: Env, url: string, param: string, maxRetries: int)
    returns (lines: seq<Line>, calls: seq<ProbeCall>)
    ensures calls == [ProbeCall(param, "aprefix\"asuffix"), ProbeCall(param, "aprefix'asuffix"),
                      ProbeCall(param, "aprefix<asuffix"), ProbeCall(param, "aprefix>asuffix")]
    ensures lines == ParamLines(env, url, param, ProbeChars, maxRetries)
  {
    lines, calls := [], [];
    var chars := ProbeChars;
    var i := 0;
    while i < |chars|
      invariant 0 <= i <= |chars|
      invariant calls == ParamCalls(param, chars[..i])
      invariant lines == ParamLines(env, url, param, chars[..i], maxRetries)
    {
      var c := chars[i];
      var wasReflected, err, sleeps;
      ghost var n;
      wasReflected, err, sleeps, n := CheckAppendWithRetry(env, url, param, Suffix(c), maxRetries);
      calls := calls + [ProbeCall(param, Suffix(c))];
      NextChar(env, url, param, chars, i, maxRetries);
      if err.Some? {
        lines := lines + [AppendFailed(url, param, c, err.value)];
      } else if wasReflected {
        lines := lines + [Allows(param, c, url)];
      }
      i := i + 1;
    }
    assert chars[..i] == chars;
    ProbeSchedule(param);
  }

  /** `processCheck`: detect the reflected keys of `url` with retries; on an error report it and
      stop; otherwise run `checkParam` once per entry of the list. `reflected` is the list the
      detection returned, exposed so that the contract can speak of it. */
  method ProcessCheck(env: Env, url: string, maxRetries: int)
    returns (lines: seq<Line>, calls: seq<ProbeCall>, reflected: seq<string>)
    ensures var r := Retry(DetectionAttempts(env, url, maxRetries), map[]);
      && Lists(reflected, r.value)
      && (r.err.Some? ==> lines == [DetectFailed(r.err.value)] && calls == [])
      && (r.err.None? ==> calls == Schedule(reflected) && lines == ScheduleLines(env, url, reflected, maxRetries))
      && (r.err.None? ==> forall p :: multiset(Params(calls))[p] == 4 * Count(r.value, p))
  {
    var err, sleeps;
    ghost var n;
    reflected, err, sleeps, n := CheckReflectedWithRetry(env, url, maxRetries);
    if err.Some? {
      return [DetectFailed(err.value)], [], reflected;
    }
    lines, calls := [], [];
    if |reflected| == 0 {
      return;
    }
    var i := 0;
    while i < |reflected|
      invariant 0 <= i <= |reflected|
      invariant calls == Schedule(reflected[..i])
      invariant lines == ScheduleLines(env, url, reflected[..i], maxRetries)
    {
      var paramLines, paramCalls := CheckParam(env, url, reflected[i], maxRetries);
      ProbeSchedule(reflected[i]);
      assert reflected[..i + 1][..i] == reflected[..i];
      lines, calls := lines + paramLines, calls + paramCalls;
      i := i + 1;
    }
    assert reflected[..i] == reflected;
    forall p
      ensures multiset(Params(calls))[p] == 4 * multiset(reflected)[p]
    {
      ScheduleCounts(reflected, p);
    }
  }
}
