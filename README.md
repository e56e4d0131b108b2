# CORS header decorator, modelled in Dafny

This project models `cors.go`, a Go middleware for Cross-Origin Resource Sharing. The
header names are the ones in section 3.2.3 of the WHATWG Fetch Standard ("HTTP
responses"). The file has two parts:

- **Policy builder.** `New(configs...)` starts from an empty `Cors` record with four
  string fields. It runs the configuration closures in the order given. `WithOrigins`,
  `WithMethods` and `WithHeaders` each overwrite one field with their list joined by
  `", "`. `WithMaxAge` overwrites `maxAge` with the duration's whole seconds in decimal.
- **Wrapped handler.** `c.Wrap(h)` returns a handler that, on every request, adds
  `Access-Control-Allow-Origin`, `-Methods` and `-Headers` when their fields are
  non-empty. On a non-nil `OPTIONS` request it then adds `Access-Control-Max-Age` (when
  set), writes 204 No Content (section 15.3.5 of RFC 9110) and returns. Any other
  request, or a nil one, goes to the inner handler.

Files and modules:

- `wrappers.dfy`, module `Wrappers`: `Option`.
- `strings.dfy`, module `Strings`: Go's `strings.Join` as a recursive function, with
  lemmas on its length, its emptiness, the position of each element, and left-to-right
  construction.
- `decimal.dfy`, module `Decimal`: `fmt.Sprint` of an `int`, with the inverse parse, the
  round trip and injectivity.
- `durations.dfy`, module `Durations`: `time.Duration` as signed 64-bit nanoseconds, and
  `int(age.Seconds())` as truncation toward zero.
- `http.dfy`, module `Http`: stand-ins for `net/http`. A `ResponseWriter` holds the
  header lines appended so far and the written status. A `Handler` counts its calls.
- `cors.dfy`, module `Cors`: the `Policy` value and the `ConfigOption` datatype; the
  option fold `ApplyAll`/`Configured` and its lemmas; the class `Cors` with `Apply` and
  `Wrap`, and the method `New`; the per-request decision `Decide` and its lemmas; the
  class `WrappedHandler`, whose `ServeHTTP` is proved against `Decide`.

A request is `Option<string>`, its method. `None` stands for a nil `*http.Request`.

## Model

| member | source | states |
|---|---|---|
| Strings.Join | cors.go:64 | the joined string's length is the sum of the element lengths plus one separator per gap |
| Strings.JoinShortLists | cors.go:64 | an empty list joins to "", a one-element list to that element |
| Strings.JoinIsEmpty | cors.go:64 | with a non-empty separator, the result is "" exactly when the list is empty or is the single string "" |
| Strings.JoinSnoc | cors.go:64 | appending an element appends the separator and the element |
| Strings.JoinElement | cors.go:64 | every element appears verbatim at its offset in the joined string |
| Strings.JoinSeparator | cors.go:64 | a separator follows every element except the last |
| Strings.OffsetClosedForm | cors.go:64 | element i starts after the elements before it and i separators |
| Decimal.NatToDecimal | cors.go:82 | a natural number is written as a non-empty string of digits, with no leading zero except for 0 itself |
| Decimal.IntToDecimal | cors.go:82 | an integer is written as a non-empty numeral that starts with '-' exactly when it is negative |
| Decimal.NatToDecimalRoundTrip | cors.go:82 | reading back the digits gives the number |
| Decimal.IntToDecimalRoundTrip | cors.go:82 | parsing what `fmt.Sprint` wrote gives the integer back |
| Decimal.IntToDecimalInjective | cors.go:82 | different seconds counts are written as different strings |
| Durations.WholeSeconds | cors.go:82 | the result is the duration's whole seconds, rounded toward zero, for both signs |
| Durations.TenMinutesWholeSeconds | cors.go:82 | ten minutes give 600 seconds |
| Durations.SubSecondWholeSeconds | cors.go:82 | any duration under one second in magnitude gives 0 |
| Http.ResponseWriter.Add | cors.go:39 | `Header().Add` appends one line after the existing ones and leaves the status alone |
| Http.ResponseWriter.WriteHeader | cors.go:52 | `WriteHeader` records the status when none was written yet, keeps an earlier status otherwise, and leaves the headers alone |
| Http.Handler.ServeHTTP | cors.go:56 | calling the inner handler counts exactly one call and records the headers and status it was handed; nothing is promised about what it does to the response |
| Cors.Stored | cors.go:64 | what an option stores: a max age is always a numeral, never ""; a joined list is as long as its elements plus two characters per gap |
| Cors.Applied | cors.go:62-92 | an option sets its own field to the string it stores and leaves the other three fields unchanged |
| Cors.ListOptionEmpty | cors.go:62-75 | a list option stores "" exactly when its list is empty or is the single string "" |
| Cors.MaxAgeAlwaysSet | cors.go:80-84 | `WithMaxAge` always stores a non-empty numeral, "0" for any duration under one second in magnitude, and the numeral reads back as the duration's whole seconds |
| Cors.ApplyAll | cors.go:29-31 | the options applied first to last: the field of the last option holds what it stored, and a field no option targets keeps its starting value |
| Cors.Configured | cors.go:26-34 | the policy `New` builds from `&Cors{}`: a field no option targets stays "" |
| Cors.ApplyAllAppend | cors.go:29-31 | applying a concatenation of option lists is applying the first list, then the second |
| Cors.ApplyAllField | cors.go:29-31 | after the fold, each field holds the value stored by the last option that targets it, or its starting value if no option does |
| Cors.LastWriteAt | cors.go:29-31 | the last option targeting a field is the one the backward scan finds |
| Cors.LastWriteNone | cors.go:29-31 | when no option targets a field, the backward scan finds nothing |
| Cors.LaterOptionWins | cors.go:29-31 | when several options set the same field, the later one decides its value |
| Cors.UntargetedFieldEmpty | cors.go:26-34 | a field that no option targets stays ""; with no options all four are "" |
| Cors.SwapIndependentOptions | cors.go:29-31 | swapping two neighbouring options that set different fields gives the same policy |
| Cors.Cors.constructor | cors.go:27 | `&Cors{}` holds the empty policy |
| Cors.Cors.Apply | cors.go:30 | running an option's closure changes the fields exactly as `Applied` says |
| Cors.New | cors.go:26-34 | the returned fresh `Cors` holds the fold of the options, in the order given, over the empty policy |
| Cors.Cors.Wrap | cors.go:36-37 | the returned fresh handler reads this `Cors` and delegates to the given inner handler |
| Cors.IsPreflight | cors.go:48 | no contract of its own: true exactly for a non-nil request whose method is exactly `OPTIONS`; PreflightShortCircuits and DecideEmitsIff state what follows from it |
| Cors.Decide | cors.go:38-56 | the Allow-* lines come first on every request, and the wrapper either writes 204 or calls the inner handler, never both; DecideFollowsRules, RulesDetermineHeaders and PreflightShortCircuits characterise it fully |
| Cors.HeaderNamesDistinct | cors.go:38-53 | the four header names are distinct and rank Origin, Methods, Headers, Max-Age |
| Cors.DecideFollowsRules | cors.go:38-53 | each CORS header is written iff its field is non-empty (Max-Age only on a preflight), with the field's value verbatim, at most once, in the order Origin, Methods, Headers, Max-Age |
| Cors.DecideEmitsIff | cors.go:38-51 | a header name is written iff it is one of the four, its field is non-empty and, for Max-Age, the request is a non-nil `OPTIONS` |
| Cors.RulesDetermineHeaders | cors.go:38-53 | any header list that follows those rules is exactly the wrapper's list |
| Cors.PreflightShortCircuits | cors.go:48-56 | a non-nil `OPTIONS` request gets 204 and never reaches the inner handler; any other request, or a nil one, reaches it and the wrapper writes no status |
| Cors.NoOptionsNoHeaders | cors.go:38-53 | with no options, no CORS header is written on any request, and a preflight still gets 204 |
| Cors.OriginsAndMethodsExample | cors.go:38-53 | two origins and two methods are written joined by ", " on a GET and on a preflight; the preflight gets 204 and no Max-Age |
| Cors.MaxAgeExample | cors.go:48-53 | with only a ten-minute max age, a preflight gets just `Access-Control-Max-Age: 600` |
| Cors.WrappedHandler.ServeHTTP | cors.go:37-57 | on a preflight, the decided lines are appended after the headers already present and 204 is written unless a status was written before; on any other request, the inner handler is called once and is handed the existing headers followed by the Allow-* lines, with the status untouched; on a preflight it is never called and left unchanged |

## Left out

- `net/http` itself: `http.Handler`, `http.HandlerFunc` and the `ResponseWriter` interface are foreign types. `Http.ResponseWriter` keeps only the header lines and the status. `Http.Handler` stands for any inner handler, and records only its calls and the response it was handed.
- Http.Handler.ServeHTTP: the inner handler's own effect on the response (its headers, status and body) is unknowable. Its contract therefore promises nothing about the response after it returns, and `Cors.WrappedHandler.ServeHTTP` states the non-preflight response as the inner handler received it.
- Http.ResponseWriter.Add: Go's `http.Header` is a map from canonical names to value lists, so the order between different names is not kept. The model keeps one flat sequence of `(name, value)` lines, which records that order too. The four CORS names are already in canonical form, so no canonicalisation is modelled. Once a status has been written, Go no longer sends lines added to the map. The model keeps such lines in the sequence and does not mark them as unsent.
- Http.ResponseWriter.WriteHeader: Go also logs the ignored second call, lets informational 1xx codes through without fixing the status, and panics on a code outside 100-999. None of that is modelled; the wrapper itself only ever writes 204.
- Durations.WholeSeconds: the result is exact truncation of the nanosecond count. Go computes `age.Seconds()` as a `float64`, `float64(sec) + float64(nsec)/1e9`. From 2^24 seconds (about 194 days) up, doubles near the next whole second are more than 2 ns apart. A fraction within about a nanosecond of the next second then rounds up to it before `int(...)` truncates. That float rounding is not modelled. The round-up window is half the gap between neighbouring doubles, so it widens as the duration grows, to about 0.95 µs near 2^33 seconds, the top of the `Duration` range. The model also assumes Go's `int` is 64 bits wide. On 32-bit targets such as 386 and arm, `int(...)` cannot hold 2^31 seconds (about 68 years) or more, and Go leaves that conversion implementation-dependent. There the model is exact, while Go may store something else, such as "-2147483648".
- Nil values: Go accepts `c.Wrap(nil)`, a nil `ConfigFunc` passed to `New`, and a nil `*Cors` receiver, and panics when it uses them (at cors.go:56 on every non-preflight request, at cors.go:30, and at the first field read). `Http.Handler`, `ConfigOption` and `Cors` are non-null in the model, so these panics are not modelled.
- Request body, response body and any request field other than the method: the wrapper reads none of them.
- Concurrency: `ConfigFunc` is exported, so a caller can run an option on a `Cors` after `Wrap`, and that write races with requests being served. The model is sequential. `Cors.WrappedHandler.ServeHTTP` reads the `Cors` fields on every request, so a change made between requests is seen by the next one. A race within a request is not modelled.
