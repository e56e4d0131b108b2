/** The CORS header decorator of `cors.go`: a policy built by folding configuration options
    over an empty `Cors`, and a wrapped handler that adds the configured
    `Access-Control-*` response headers and answers preflight (`OPTIONS`) requests itself
    with 204 No Content. */
module Cors {
  import opened Wrappers
  import opened Strings
  import opened Decimal
  import opened Durations
  import Http

  // ---------------------------------------------------------------------------------------
  // Policy builder
  // ---------------------------------------------------------------------------------------

  /** The four configured values of a `Cors`, each already in the form written into its
      header; "" means "not configured, do not emit". */
  datatype Policy = Policy(
    allowedOrigins: string,
    allowedHeaders: string,
    allowedMethods: string,
    maxAge: string)

  /** `&Cors{}`: nothing configured. */
  const Empty := Policy("", "", "", "")

  /** The field an option writes. */
  datatype Field = Origins | Headers | Methods | MaxAge

  /** The `ConfigFunc` values the package hands out, by the function that returned them. */
  datatype ConfigOption =
    | WithOrigins(origins: seq<string>)
    | WithMethods(methods: seq<string>)
    | WithMaxAge(age: Duration)
    | WithHeaders(headers: seq<string>)

  /** What `strings.Join` puts between list elements. */
  const ListSeparator := ", "

  function Get(p: Policy, f: Field): string {
    match f
    case Origins => p.allowedOrigins
    case Headers => p.allowedHeaders
    case Methods => p.allowedMethods
    case MaxAge => p.maxAge
  }

  /** Two policies with the same four fields are the same policy. */
  lemma PolicyExtensionality(p: Policy, q: Policy)
    requires forall f :: Get(p, f) == Get(q, f)
    ensures p == q
  {
    assert Get(p, Origins) == Get(q, Origins);
    assert Get(p, Headers) == Get(q, Headers);
    assert Get(p, Methods) == Get(q, Methods);
    assert Get(p, MaxAge) == Get(q, MaxAge);
  }

  function Target(o: ConfigOption): Field {
    match o
    case WithOrigins(_) => Origins
    case WithMethods(_) => Methods
    case WithMaxAge(_) => MaxAge
    case WithHeaders(_) => Headers
  }

  /** The list a list option carries. */
  function ListOf(o: ConfigOption): seq<string>
    requires !o.WithMaxAge?
  {
    match o
    case WithOrigins(origins) => origins
    case WithMethods(methods) => methods
    case WithHeaders(headers) => headers
  }

  /** The string an option stores: a list joined with ", ", or the whole seconds of a
      duration in decimal. A max age is always a numeral, so never ""; a joined list is as
      long as its elements together plus two characters per gap. */
  function Stored(o: ConfigOption): (r: string)
    ensures o.WithMaxAge? ==> IsNumeral(r)
    ensures !o.WithMaxAge? && |ListOf(o)| > 0 ==> |r| == TotalLength(ListOf(o)) + 2 * (|ListOf(o)| - 1)
  {
    match o
    case WithOrigins(origins) => Join(origins, ListSeparator)
    case WithMethods(methods) => Join(methods, ListSeparator)
    case WithMaxAge(age) => IntToDecimal(WholeSeconds(age))
    case WithHeaders(headers) => Join(headers, ListSeparator)
  }

  /** Running the closure of option `o` on a `Cors` holding `p`: it overwrites its own
      field with what it stores and leaves the other three alone. */
  function Applied(p: Policy, o: ConfigOption): (q: Policy)
    ensures Get(q, Target(o)) == Stored(o)
    ensures forall f :: f != Target(o) ==> Get(q, f) == Get(p, f)
  {
    var v := Stored(o);
    match o
    case WithOrigins(_) => p.(allowedOrigins := v)
    case WithMethods(_) => p.(allowedMethods := v)
    case WithMaxAge(_) => p.(maxAge := v)
    case WithHeaders(_) => p.(allowedHeaders := v)
  }

  /** The fields some option in `configs` writes. */
  function Targets(configs: seq<ConfigOption>): set<Field> {
    if configs == [] then {} else {Target(configs[0])} + Targets(configs[1..])
  }

  /** The options applied to `p` one after another, first to last: the last option keeps
      what it stored, and a field no option targets keeps its value from `p`. */
  function ApplyAll(p: Policy, configs: seq<ConfigOption>): (r: Policy)
    ensures configs != [] ==> Get(r, Target(configs[|configs| - 1])) == Stored(configs[|configs| - 1])
    ensures forall f :: f !in Targets(configs) ==> Get(r, f) == Get(p, f)
    decreases configs
  {
    if configs == [] then p else ApplyAll(Applied(p, configs[0]), configs[1..])
  }

  /** The policy `New(configs...)` returns: a field no option targets stays "". */
  function Configured(configs: seq<ConfigOption>): (r: Policy)
    ensures forall f :: f !in Targets(configs) ==> Get(r, f) == ""
  {
    ApplyAll(Empty, configs)
  }

  /** Applying `a ++ b` is applying `a`, then `b`. */
  lemma {:induction false} ApplyAllAppend(p: Policy, a: seq<ConfigOption>, b: seq<ConfigOption>)
    ensures ApplyAll(p, a + b) == ApplyAll(ApplyAll(p, a), b)
    decreases a
  {
    if a == [] {
      assert a + b == b;
    } else {
      assert (a + b)[1..] == a[1..] + b;
      ApplyAllAppend(Applied(p, a[0]), a[1..], b);
    }
  }

  /** Applying one more option after a list applies it to the list's result. */
  lemma ApplyAllSnoc(p: Policy, configs: seq<ConfigOption>, o: ConfigOption)
    ensures ApplyAll(p, configs + [o]) == Applied(ApplyAll(p, configs), o)
  {
    ApplyAllAppend(p, configs, [o]);
    assert [o][1..] == [];
  }

  /** The value stored into field `f` by the last option in `configs` that targets it,
      if any: a reference definition that scans from the end. */
  function LastWrite(configs: seq<ConfigOption>, f: Field): Option<string> {
    if configs == [] then None
    else if Target(configs[|configs| - 1]) == f then Some(Stored(configs[|configs| - 1]))
    else LastWrite(configs[..|configs| - 1], f)
  }

  /** After the fold, each field holds what the last option targeting it stored, and is
      untouched when no option targets it. */
  lemma {:induction false} ApplyAllField(p: Policy, configs: seq<ConfigOption>, f: Field)
    ensures Get(ApplyAll(p, configs), f) == LastWrite(configs, f).GetOr(Get(p, f))
  {
    if configs != [] {
      var init, last := configs[..|configs| - 1], configs[|configs| - 1];
      assert configs == init + [last];
      ApplyAllAppend(p, init, [last]);
      assert ApplyAll(p, configs) == Applied(ApplyAll(p, init), last);
      ApplyAllField(p, init, f);
    }
  }

  lemma {:induction false} LastWriteAt(configs: seq<ConfigOption>, f: Field, i: nat)
    requires i < |configs| && Target(configs[i]) == f
    requires forall j :: i < j < |configs| ==> Target(configs[j]) != f
    ensures LastWrite(configs, f) == Some(Stored(configs[i]))
  {
    if i < |configs| - 1 {
      LastWriteAt(configs[..|configs| - 1], f, i);
    }
  }

  lemma {:induction false} LastWriteNone(configs: seq<ConfigOption>, f: Field)
    requires forall j :: 0 <= j < |configs| ==> Target(configs[j]) != f
    ensures LastWrite(configs, f) == None
  {
    if configs != [] {
      LastWriteNone(configs[..|configs| - 1], f);
    }
  }

  /** Options are applied in order: the last option targeting a field decides its value. */
  lemma LaterOptionWins(configs: seq<ConfigOption>, i: nat)
    requires i < |configs|
    requires forall j :: i < j < |configs| ==> Target(configs[j]) != Target(configs[i])
    ensures Get(Configured(configs), Target(configs[i])) == Stored(configs[i])
  {
    ApplyAllField(Empty, configs, Target(configs[i]));
    LastWriteAt(configs, Target(configs[i]), i);
  }

  /** A field no option targets stays empty; in particular `New()` leaves all four empty. */
  lemma UntargetedFieldEmpty(configs: seq<ConfigOption>, f: Field)
    requires forall j :: 0 <= j < |configs| ==> Target(configs[j]) != f
    ensures Get(Configured(configs), f) == ""
  {
    ApplyAllField(Empty, configs, f);
    LastWriteNone(configs, f);
  }

  /** Neighbouring options that target different fields can be swapped. */
  lemma SwapIndependentOptions(a: seq<ConfigOption>, o1: ConfigOption, o2: ConfigOption, b: seq<ConfigOption>)
    requires Target(o1) != Target(o2)
    ensures Configured(a + [o1, o2] + b) == Configured(a + [o2, o1] + b)
  {
    var p := ApplyAll(Empty, a);
    PolicyExtensionality(Applied(Applied(p, o1), o2), Applied(Applied(p, o2), o1));
    ApplyAllAppend(Empty, a + [o1, o2], b);
    ApplyAllAppend(Empty, a, [o1, o2]);
    ApplyAllAppend(Empty, a + [o2, o1], b);
    ApplyAllAppend(Empty, a, [o2, o1]);
    assert [o1, o2][1..] == [o2];
    assert [o2, o1][1..] == [o1];
  }

  /** A list option stores "" exactly when its list is empty or is the single string "". */
  lemma ListOptionEmpty(o: ConfigOption)
    requires !o.WithMaxAge?
    ensures Stored(o) == "" <==>
      (match o
       case WithOrigins(xs) => |xs| == 0 || (|xs| == 1 && xs[0] == "")
       case WithMethods(xs) => |xs| == 0 || (|xs| == 1 && xs[0] == "")
       case WithHeaders(xs) => |xs| == 0 || (|xs| == 1 && xs[0] == ""))
  {
  }

  /** `WithMaxAge` always stores a non-empty numeral, even for a duration under a second
      ("0"), and the numeral reads back as the whole seconds of the duration. */
  lemma MaxAgeAlwaysSet(age: Duration)
    ensures Stored(WithMaxAge(age)) != ""
    ensures -Second < age < Second ==> Stored(WithMaxAge(age)) == "0"
    ensures DecimalToInt(Stored(WithMaxAge(age))) == WholeSeconds(age)
  {
    IntToDecimalRoundTrip(WholeSeconds(age));
  }

  /** `*Cors`: the four fields the options overwrite in place. */
  class Cors {
    var allowedOrigins: string
    var allowedHeaders: string
    var allowedMethods: string
    var maxAge: string

    /** The policy the fields hold. */
    function AsPolicy(): Policy
      reads this
    {
      Policy(allowedOrigins, allowedHeaders, allowedMethods, maxAge)
    }

    /** `&Cors{}`. */
    constructor ()
      ensures AsPolicy() == Empty
    {
      allowedOrigins, allowedHeaders, allowedMethods, maxAge := "", "", "", "";
    }

    /** `cFn(c)`: runs the closure of option `o` on this `Cors`. */
    method Apply(o: ConfigOption)
      modifies this
      ensures AsPolicy() == Applied(old(AsPolicy()), o)
    {
      match o
      case WithOrigins(origins) =>
        allowedOrigins := Join(origins, ListSeparator);
      case WithMethods(methods) =>
        allowedMethods := Join(methods, ListSeparator);
      case WithMaxAge(age) =>
        maxAge := IntToDecimal(WholeSeconds(age));
      case WithHeaders(headers) =>
        allowedHeaders := Join(headers, ListSeparator);
    }

    /** `c.Wrap(h)`: a handler that reads this `Cors` on every request. */
    method Wrap(h: Http.Handler) returns (wh: WrappedHandler)
      ensures fresh(wh)
      ensures wh.cors == this && wh.inner == h
    {
      wh := new WrappedHandler(this, h);
    }
  }

  /** `New(configs...)`: a fresh `Cors` with the options applied in the order given. */
  method New(configs: seq<ConfigOption>) returns (c: Cors)
    ensures fresh(c)
    ensures c.AsPolicy() == Configured(configs)
  {
    c := new Cors();
    for i := 0 to |configs|
      invariant c.AsPolicy() == ApplyAll(Empty, configs[..i])
    {
      ApplyAllSnoc(Empty, configs[..i], configs[i]);
      assert configs[..i + 1] == configs[..i] + [configs[i]];
      c.Apply(configs[i]);
    }
    assert configs[..|configs|] == configs;
  }

  // ---------------------------------------------------------------------------------------
  // Per-request decision
  // ---------------------------------------------------------------------------------------

  const AllowOriginHeader := "Access-Control-Allow-Origin"
  const AllowMethodsHeader := "Access-Control-Allow-Methods"
  const AllowHeadersHeader := "Access-Control-Allow-Headers"
  const MaxAgeHeader := "Access-Control-Max-Age"

  /** What one request through the wrapped handler does: the headers appended, in order,
      the status the wrapper writes (None: it writes none), and whether the inner handler
      runs. */
  datatype Outcome = Outcome(added: seq<Http.Header>, status: Option<int>, innerCalled: bool)

  /** `r != nil && r.Method == http.MethodOptions`, with None for a nil request. */
  predicate IsPreflight(requestMethod: Option<string>) {
    requestMethod.Some? && requestMethod.value == Http.MethodOptions
  }

  /** The header line for `name`, or nothing when `value` is "". */
  function AddIfSet(name: string, value: string): seq<Http.Header> {
    if value != "" then [(name, value)] else []
  }

  /** The Access-Control-Allow-* lines, written on every request. */
  function AllowLines(p: Policy): seq<Http.Header> {
    AddIfSet(AllowOriginHeader, p.allowedOrigins) +
    AddIfSet(AllowMethodsHeader, p.allowedMethods) +
    AddIfSet(AllowHeadersHeader, p.allowedHeaders)
  }

  /** The wrapped handler's decision for policy `p` and one request. On every request the
      Access-Control-Allow-* lines come first; the wrapper either answers with 204 itself or
      hands over to the inner handler, never both. */
  function Decide(p: Policy, requestMethod: Option<string>): (r: Outcome)
    ensures |AllowLines(p)| <= |r.added| && r.added[..|AllowLines(p)|] == AllowLines(p)
    ensures r.innerCalled <==> r.status == None
    ensures r.status == None || r.status == Some(Http.StatusNoContent)
  {
    if IsPreflight(requestMethod) then
      Outcome(AllowLines(p) + AddIfSet(MaxAgeHeader, p.maxAge), Some(Http.StatusNoContent), false)
    else
      Outcome(AllowLines(p), None, true)
  }

  /** The policy value that belongs in the header called `name` ("" for other names). */
  function HeaderValue(p: Policy, name: string): string {
    if name == AllowOriginHeader then p.allowedOrigins
    else if name == AllowMethodsHeader then p.allowedMethods
    else if name == AllowHeadersHeader then p.allowedHeaders
    else if name == MaxAgeHeader then p.maxAge
    else ""
  }

  /** The position of a CORS header in the order the wrapper writes them; 4 for any other
      name. */
  function Rank(name: string): nat {
    if name == AllowOriginHeader then 0
    else if name == AllowMethodsHeader then 1
    else if name == AllowHeadersHeader then 2
    else if name == MaxAgeHeader then 3
    else 4
  }

  predicate Emitted(hs: seq<Http.Header>, name: string) {
    exists k :: 0 <= k < |hs| && hs[k].0 == name
  }

  /** The header `name` must be written for this request: its value is configured, and for
      `Access-Control-Max-Age` the request is a preflight. */
  predicate ShouldEmit(p: Policy, requestMethod: Option<string>, name: string) {
    Rank(name) < 4 && HeaderValue(p, name) != "" &&
    (name == MaxAgeHeader ==> IsPreflight(requestMethod))
  }

  /** At most one line per name, in the order Origin, Methods, Headers, Max-Age, and only
      those four names. */
  predicate InHeaderOrder(hs: seq<Http.Header>) {
    (forall k :: 0 <= k < |hs| ==> Rank(hs[k].0) < 4) &&
    (forall i, j :: 0 <= i < j < |hs| ==> Rank(hs[i].0) < Rank(hs[j].0))
  }

  /** Each line carries the configured value for its name, verbatim. */
  predicate VerbatimValues(p: Policy, hs: seq<Http.Header>) {
    forall k :: 0 <= k < |hs| ==> hs[k].1 == HeaderValue(p, hs[k].0)
  }

  /** The rules the wrapper's header lines follow, stated without building them. */
  ghost predicate FollowsRules(p: Policy, requestMethod: Option<string>, hs: seq<Http.Header>) {
    InHeaderOrder(hs) && VerbatimValues(p, hs) &&
    forall name :: Emitted(hs, name) <==> ShouldEmit(p, requestMethod, name)
  }

  /** The four header names are different strings. */
  lemma HeaderNamesDistinct()
    ensures Rank(AllowOriginHeader) == 0 && Rank(AllowMethodsHeader) == 1
    ensures Rank(AllowHeadersHeader) == 2 && Rank(MaxAgeHeader) == 3
  {
  }

  /** The Allow-* lines of a decision, then the Max-Age line on a preflight. */
  lemma DecideParts(p: Policy, requestMethod: Option<string>)
    ensures Decide(p, requestMethod).added ==
      AddIfSet(AllowOriginHeader, p.allowedOrigins) +
      AddIfSet(AllowMethodsHeader, p.allowedMethods) +
      AddIfSet(AllowHeadersHeader, p.allowedHeaders) +
      (if IsPreflight(requestMethod) then AddIfSet(MaxAgeHeader, p.maxAge) else [])
  {
  }

  /** The rank and value of each line of a decision, by the part it falls in. */
  lemma DecideLines(p: Policy, requestMethod: Option<string>)
    ensures
      var hs := Decide(p, requestMethod).added;
      var o := |AddIfSet(AllowOriginHeader, p.allowedOrigins)|;
      var m := o + |AddIfSet(AllowMethodsHeader, p.allowedMethods)|;
      var h := m + |AddIfSet(AllowHeadersHeader, p.allowedHeaders)|;
      forall k :: 0 <= k < |hs| ==>
        Rank(hs[k].0) == (if k < o then 0 else if k < m then 1 else if k < h then 2 else 3) &&
        hs[k].1 == HeaderValue(p, hs[k].0) && hs[k].1 != ""
  {
    HeaderNamesDistinct();
    DecideParts(p, requestMethod);
  }

  /** Each of the four headers is written exactly when its value is configured, and
      Max-Age only on a preflight. */
  lemma DecideEmitsIff(p: Policy, requestMethod: Option<string>, name: string)
    ensures Emitted(Decide(p, requestMethod).added, name) <==> ShouldEmit(p, requestMethod, name)
  {
    var hs := Decide(p, requestMethod).added;
    DecideLines(p, requestMethod);
    DecideParts(p, requestMethod);
    HeaderNamesDistinct();
    var o := |AddIfSet(AllowOriginHeader, p.allowedOrigins)|;
    var m := o + |AddIfSet(AllowMethodsHeader, p.allowedMethods)|;
    var h := m + |AddIfSet(AllowHeadersHeader, p.allowedHeaders)|;
    if ShouldEmit(p, requestMethod, name) {
      if name == AllowOriginHeader {
        assert hs[0].0 == name;
      } else if name == AllowMethodsHeader {
        assert hs[o].0 == name;
      } else if name == AllowHeadersHeader {
        assert hs[m].0 == name;
      } else {
        assert hs[h].0 == name;
      }
    }
  }

  /** The decision's header lines follow the rules: each of the four headers is written
      exactly when its value is configured (Max-Age only on a preflight), verbatim, once,
      in the fixed order. */
  lemma DecideFollowsRules(p: Policy, requestMethod: Option<string>)
    ensures FollowsRules(p, requestMethod, Decide(p, requestMethod).added)
  {
    DecideLines(p, requestMethod);
    forall name
      ensures Emitted(Decide(p, requestMethod).added, name) <==> ShouldEmit(p, requestMethod, name)
    {
      DecideEmitsIff(p, requestMethod, name);
    }
  }

  /** Emitting a name in a sorted list means emitting it after the head, or at the head. */
  lemma EmittedTail(hs: seq<Http.Header>, name: string)
    requires InHeaderOrder(hs) && |hs| > 0
    ensures Emitted(hs[1..], name) <==> Emitted(hs, name) && name != hs[0].0
  {
  }

  /** Only one of the four names has a given rank. */
  lemma RankInjective(x: string, y: string)
    requires Rank(x) == Rank(y) < 4
    ensures x == y
  {
  }

  /** Two header lists in the wrapper's order, with verbatim values, each holding the
      other's first name, start with the same line. */
  lemma SameHead(p: Policy, a: seq<Http.Header>, b: seq<Http.Header>)
    requires InHeaderOrder(a) && InHeaderOrder(b)
    requires VerbatimValues(p, a) && VerbatimValues(p, b)
    requires |a| > 0 && |b| > 0
    requires Emitted(b, a[0].0) && Emitted(a, b[0].0)
    ensures a[0] == b[0]
  {
    var k :| 0 <= k < |b| && b[k].0 == a[0].0;
    var m :| 0 <= m < |a| && a[m].0 == b[0].0;
    assert Rank(b[0].0) <= Rank(b[k].0) == Rank(a[0].0) <= Rank(a[m].0) == Rank(b[0].0);
    RankInjective(a[0].0, b[0].0);
  }

  /** Two header lists in the wrapper's order, with verbatim values and the same names,
      are equal. */
  lemma {:induction false} SameNamesSameHeaders(p: Policy, a: seq<Http.Header>, b: seq<Http.Header>)
    requires InHeaderOrder(a) && InHeaderOrder(b)
    requires VerbatimValues(p, a) && VerbatimValues(p, b)
    requires forall name :: Emitted(a, name) <==> Emitted(b, name)
    ensures a == b
  {
    if a == [] || b == [] {
      if a != [] {
        assert Emitted(a, a[0].0);
      } else if b != [] {
        assert Emitted(b, b[0].0);
      }
    } else {
      assert Emitted(a, a[0].0) && Emitted(b, b[0].0);
      SameHead(p, a, b);
      forall name
        ensures Emitted(a[1..], name) <==> Emitted(b[1..], name)
      {
        EmittedTail(a, name);
        EmittedTail(b, name);
      }
      SameNamesSameHeaders(p, a[1..], b[1..]);
      assert a == [a[0]] + a[1..];
      assert b == [b[0]] + b[1..];
    }
  }

  /** The rules leave no choice: any header list that follows them is the decision's. */
  lemma RulesDetermineHeaders(p: Policy, requestMethod: Option<string>, hs: seq<Http.Header>)
    requires FollowsRules(p, requestMethod, hs)
    ensures hs == Decide(p, requestMethod).added
  {
    var d := Decide(p, requestMethod).added;
    DecideFollowsRules(p, requestMethod);
    SameNamesSameHeaders(p, hs, d);
  }

  /** A preflight gets 204 and never reaches the inner handler; any other request, or a nil
      one, reaches it and the wrapper writes no status. */
  lemma PreflightShortCircuits(p: Policy, requestMethod: Option<string>)
    ensures Decide(p, requestMethod).status == Some(204) <==> IsPreflight(requestMethod)
    ensures Decide(p, requestMethod).status == None <==> !IsPreflight(requestMethod)
    ensures Decide(p, requestMethod).innerCalled <==> !IsPreflight(requestMethod)
  {
  }

  /** `New()` with no options: no CORS header on any request, and a preflight is still
      answered with 204. */
  lemma NoOptionsNoHeaders(requestMethod: Option<string>)
    ensures Configured([]) == Empty
    ensures Decide(Configured([]), requestMethod).added == []
    ensures Decide(Configured([]), requestMethod).status == Some(204) <==> IsPreflight(requestMethod)
  {
  }

  /** Two origins and two methods: both lists are written joined, on a GET and on a
      preflight alike; no Max-Age is written since none is configured. */
  lemma OriginsAndMethodsExample()
    ensures
      var p := Configured([WithOrigins(["https://a.com", "https://b.com"]), WithMethods(["GET", "POST"])]);
      var hs := [(AllowOriginHeader, "https://a.com, https://b.com"), (AllowMethodsHeader, "GET, POST")];
      Decide(p, Some("GET")) == Outcome(hs, None, true) &&
      Decide(p, Some("OPTIONS")) == Outcome(hs, Some(204), false)
  {
    var o := WithOrigins(["https://a.com", "https://b.com"]);
    var m := WithMethods(["GET", "POST"]);
    assert [o, m][1..] == [m];
    assert Join(["https://a.com", "https://b.com"], ListSeparator) == "https://a.com, https://b.com";
    assert Join(["GET", "POST"], ListSeparator) == "GET, POST";
  }

  /** Only a ten-minute max age: a preflight gets `Access-Control-Max-Age: 600` and nothing
      else. */
  lemma MaxAgeExample()
    ensures Decide(Configured([WithMaxAge(10 * Minute)]), Some("OPTIONS")).added == [(MaxAgeHeader, "600")]
  {
    assert WholeSeconds(10 * Minute) == 600;
    assert NatToDecimal(6) == "6";
    assert NatToDecimal(60) == "60";
    assert NatToDecimal(600) == "600";
    var o := WithMaxAge(10 * Minute);
    assert [o][1..] == [];
    assert Stored(o) == "600";
    assert Applied(Empty, o) == Empty.(maxAge := "600");
    assert Configured([o]) == ApplyAll(Applied(Empty, o), []);
    assert IsPreflight(Some("OPTIONS"));
  }

  /** Appending a line that may be absent, after lines already appended. */
  lemma AppendLine(before: seq<Http.Header>, sofar: seq<Http.Header>, name: string, value: string)
    ensures (if value != "" then (before + sofar) + [(name, value)] else before + sofar) ==
      before + (sofar + AddIfSet(name, value))
  {
  }

  /** The wrapped handler `c.Wrap(h)` returns. */
  class WrappedHandler {
    const cors: Cors
    const inner: Http.Handler

    constructor (cors: Cors, inner: Http.Handler)
      ensures this.cors == cors && this.inner == inner
    {
      this.cors := cors;
      this.inner := inner;
    }

    /** Serves one request. On a preflight: appends the decided lines after whatever `w`
        already holds and writes 204 unless a status was written already. Otherwise: calls
        the inner handler once, handing it `w` with the Allow-* lines appended and the
        status untouched. */
    method ServeHTTP(w: Http.ResponseWriter, requestMethod: Option<string>)
      modifies w, inner
      ensures IsPreflight(requestMethod) ==>
        w.header == old(w.header) + Decide(cors.AsPolicy(), requestMethod).added
      ensures IsPreflight(requestMethod) ==>
        w.status == if old(w.status) == None then Some(Http.StatusNoContent) else old(w.status)
      ensures !IsPreflight(requestMethod) ==>
        inner.seenHeader == old(w.header) + Decide(cors.AsPolicy(), requestMethod).added &&
        inner.seenStatus == old(w.status)
      ensures inner.calls == old(inner.calls) + (if Decide(cors.AsPolicy(), requestMethod).innerCalled then 1 else 0)
      ensures IsPreflight(requestMethod) ==> unchanged(inner)
    {
      ghost var p := cors.AsPolicy();
      ghost var before := w.header;
      if cors.allowedOrigins != "" {
        w.Add(AllowOriginHeader, cors.allowedOrigins);
      }
      ghost var sofar := AddIfSet(AllowOriginHeader, p.allowedOrigins);
      assert w.header == before + sofar;
      if cors.allowedMethods != "" {
        w.Add(AllowMethodsHeader, cors.allowedMethods);
      }
      AppendLine(before, sofar, AllowMethodsHeader, p.allowedMethods);
      sofar := sofar + AddIfSet(AllowMethodsHeader, p.allowedMethods);
      if cors.allowedHeaders != "" {
        w.Add(AllowHeadersHeader, cors.allowedHeaders);
      }
      AppendLine(before, sofar, AllowHeadersHeader, p.allowedHeaders);
      sofar := sofar + AddIfSet(AllowHeadersHeader, p.allowedHeaders);
      assert sofar == AllowLines(p);
      if requestMethod.Some? && requestMethod.value == Http.MethodOptions {
        if cors.maxAge != "" {
          w.Add(MaxAgeHeader, cors.maxAge);
        }
        AppendLine(before, sofar, MaxAgeHeader, p.maxAge);
        w.WriteHeader(Http.StatusNoContent);
        assert cors.AsPolicy() == p;
        return;
      }
      inner.ServeHTTP(w, requestMethod);
      assert cors.AsPolicy() == p;
    }
  }
}
