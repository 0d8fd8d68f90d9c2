# sxss reflected-parameter probe: a Dafny model of its decision core

`sx.go` reads URLs from standard input. For each URL it finds the query parameters whose
values are echoed verbatim in the HTTP response body. It then probes each such parameter with
the four markup characters `"`, `'`, `<` and `>`: the parameter's value gets the suffix
`aprefix<c>asuffix`, detection runs again on the mutated URL, and the parameter is reported
when it is still reflected. Every network operation is wrapped in a fixed-attempt retry loop
that sleeps two seconds after each failed attempt.

This project models that decision core. The network and the `net/url` library are
abstracted, and the concurrency is left out.

- `Text` (text.dfy): `strings.HasPrefix` and `strings.Contains`. The lemma
  `ContainsIsSubstring` proves that the scan finds `sub` exactly when it occurs in `s`.
- `Query` (query.dfy): `url.Values` as `map<string, seq<string>>`, with `Get` and `Set` as Go
  defines them, and the query that `checkAppend` builds.
- `Retries` (retries.dfy): the retry loop. It is one generic function over the sequence of
  outcomes the wrapped operation gives on attempts 0 .. maxRetries-1.
- `Reflect` (reflect.dfy): `checkReflected` and `checkReflectedWithRetry`. The network and the
  URL parser are an `Env` value:
  - `fetch(url, i)` is what the GET of `url` gives on attempt `i` of the enclosing retry loop:
    a response (status line, Content-Type, body), a nil body, or an error. The error stands
    for a failure of `http.NewRequest`, `httpClient.Do` or `ioutil.ReadAll`.
  - `parse` is `url.Parse` followed by `Query()`.
  - `render` is `URL.String()` after `RawQuery = Values.Encode()`.
  Go iterates a map in a random order, so the method picks the next key with `:|`. Its contract
  speaks only of how many times each key is listed (`Lists`, `Tally`), never of order.
- `Probe` (probe.dfy): `checkAppend` and `checkAppendWithRetry`.
- `Scan` (scan.dfy): `checkParam` and `processCheck`. Report lines are values of `Line`, and
  `Line.Text` gives the printed text. The probes issued are returned as a trace of
  `ProbeCall`s.

The model keeps these behaviours of the code, some of which a reader might not expect:
- Empty query values are not excluded. `strings.Contains(body, "")` holds, so a key with an
  empty value is always reflected (`EmptyValueReflected`).
- The result is a list, not a set. A key is listed once per matching value, and each entry is
  probed, so a key with two matching values is probed eight times (`ScheduleCounts`).
- The retry loop also sleeps after the last failed attempt. With `maxRetries <= 0` it makes no
  attempt and returns a nil result with a nil error, which `processCheck` treats as "nothing
  reflected".
- A nil response body gives an empty list with a nil error.
- A failure while reading the body is an error even when the status is a redirect, because
  the body is read before the response is classified.

Because `Env.fetch` is a fixed function of the URL and the attempt number, probing twice
against an unchanged service gives the same verdict by construction.

## Model

| member | source | states |
|---|---|---|
| Text.ContainsIsSubstring | sx.go:173-186 | `Contains(s, sub)` holds exactly when `sub` occurs in `s` at some index, so every string contains "". |
| Query.Appended | sx.go:203-211 | The mutated query maps `param` to the single value "first old value (or "" when absent or empty) + suffix". Every other key keeps its values, and the key set grows by `param` only. |
| Retries.Retry | sx.go:110-134 | The loop calls the operation at most once per attempt given. With no attempts (maxRetries <= 0) it returns the zero result and a nil error, with no call and no sleep. |
| Retries.FirstSuccessWins | sx.go:113-117 | If attempt n is the first without error, the result is that attempt's value with a nil error, after n + 1 calls and n sleeps. |
| Retries.AllFailuresReturnLastError | sx.go:113-120 | If every attempt fails, all are made, each is followed by a sleep, and the zero result is returned with the last attempt's error. |
| Reflect.MatchCountPositive | sx.go:185-191 | A key's count is positive exactly when one of its values occurs in the body. |
| Reflect.ReflectedIff | sx.go:184-192 | A key is listed exactly when it is in the query and at least one of its values is a substring of the body. |
| Reflect.EmptyValueReflected | sx.go:184-192 | A key with an empty value is always listed. |
| Reflect.CheckReflected | sx.go:139-195 | A fetch error gives an empty list and that error. A nil body, a status starting with "3", or a non-empty Content-Type without "html" gives an empty list and a nil error. A parse error gives an empty list and that error; in Go that parse (sx.go:179-181) is never reached, because `http.NewRequest` has already failed on an unparsable target (see `UnparsableTargetFails`). Otherwise every key is listed exactly once per value found in the body, in some order, with a nil error. |
| Reflect.UnparsableTargetFails | sx.go:110-121 | When every fetch of an unparsable target fails with its parse error, as `http.NewRequest` at sx.go:143-146 makes it, detection with maxRetries > 0 makes every attempt, sleeps after each and returns an empty list with the parse error. |
| Reflect.CheckReflectedWithRetry | sx.go:110-121 | The result is the retry loop over the per-attempt detections: the first success's list (counted per key), or an empty list with the last error. There is one sleep per failed attempt and at most maxRetries calls. With maxRetries <= 0 the result is an empty list, a nil error and no sleep. |
| Probe.ProbeVerdict | sx.go:197-225 | When the mutated URL parses back to itself and its response is an HTML page, the probe says true exactly when the body contains the parameter's first old value (or "") followed by the suffix. |
| Probe.CheckAppend | sx.go:197-225 | A parse error of the target gives false and that error. Otherwise detection runs afresh on the rendered mutated URL. Its error gives false and that error. Without an error, the verdict is whether `param` is among the listed keys. |
| Probe.CheckAppendWithRetry | sx.go:123-134 | The verdict, error and sleeps are those of the retry loop over the per-attempt `checkAppend` outcomes, with false when every attempt fails. There are at most maxRetries calls. With maxRetries <= 0 the result is false, a nil error and no sleep. |
| Scan.AllowedIff | sx.go:98-107 | A character is reported as allowed exactly when its own retried probe succeeds with a true verdict, whatever the other characters' probes gave. |
| Scan.FailureReportedIff | sx.go:98-103 | A character's error is reported exactly when its own retried probe fails with that error. Later characters are still probed. |
| Scan.ProbeSchedule | sx.go:98-99 | The probes of one parameter are, in order, the suffixes `aprefix"asuffix`, `aprefix'asuffix`, `aprefix<asuffix` and `aprefix>asuffix`. |
| Scan.ScheduleCounts | sx.go:92-94 | A reflected list of n entries yields 4n probes. A key listed k times is probed 4k times, and an unlisted key is not probed. |
| Scan.ParamLinesAreAbout | sx.go:98-107 | Every line probing a parameter reports is a confirmed injection or a probe error for that parameter and URL. |
| Scan.ScheduleAllowsIff | sx.go:92-107 | For a whole target, "param p is reflected and allows c" is reported exactly when p is in the detected list and p's own retried probe with c returns true without error. |
| Scan.ScheduleFailureIff | sx.go:92-103 | For a whole target, a probe error for p and c is reported exactly when p is in the detected list and p's own retried probe with c fails with that error. |
| Scan.CheckParam | sx.go:97-108 | Exactly the four probes are issued, in the fixed character order. The lines reported are each character's own line (error, allowed, or none), in that order. |
| Scan.ProcessCheck | sx.go:82-95 | A detection error is reported as one line, and no probe is issued. Otherwise each entry of the detected list, duplicates included, gets its four probes, and an empty list gets none. Each key is probed four times per value of it that the body reflects. |

## Left out

- HTTP client and transport setup (sx.go:18-28, 48-50): TLS settings, dial timeouts, keep-alive
  and the no-redirect policy. These are library configuration; `Env.fetch` stands for their
  effect.
- Request construction, the User-Agent header, `httpClient.Do` and body reading
  (sx.go:143-165). These are network I/O and are abstracted as the `Fetch` outcome of
  `Env.fetch`.
- `net/url` parsing, `Values.Encode` and `URL.String` (sx.go:179, 198-211). These are library
  code the model does not see. They are the `parse` and `render` functions of `Env`. Key
  sorting in `Encode` is not modelled. `ProbeVerdict` assumes, as a precondition, that
  re-parsing the rendered mutated URL gives it back.
- The worker pool, the bounded channel, the stdin producer and the `WaitGroup` drain protocol
  (sx.go:52-77, 83). Their purpose is concurrency, and the model covers what one worker does
  for one target.
- `time.Sleep` is counted as `sleeps`, not timed. Elapsed-time measurement and its printing
  (sx.go:44, 79-80) and flag parsing (sx.go:33-36, 46) are left out as clock and
  configuration I/O.
- Printing is modelled as a returned sequence of `Line` values. `Line.Text` gives each line's
  text without the trailing newline, and `Line.ToStderr` names its stream.
- Reflect.CheckReflected: the order of the returned list is not stated, only how often each
  key occurs, because Go's map iteration order is random.
- Byte strings: a Go string is a sequence of bytes and `strings.Contains` compares bytes. The
  model's `string` stands for such a byte string, one `char` per byte; read that way it is exact.
  UTF-8 decoding is not modelled.
- Repeated probes: `Env.fetch` depends only on the URL and the attempt number. When a key is listed
  twice, its second round of probes therefore gets the same answers as the first, and
  `ScheduleLines` repeats the same lines. A real server may answer a repeated request differently.
- Parse and fetch are independent functions of `Env`. Only the lemma `UnparsableTargetFails`
  assumes (`Lawful`) that an unparsable target fails every fetch with its parse error, as Go's
  `http.NewRequest` ensures. Without that assumption, the model also allows an unparsable target
  that answers with a redirect or a non-HTML page.
