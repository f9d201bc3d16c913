/** The older single-file framework, src/JExpress.java. It has no `use`:
    `get/post/put/delete` install a layer that first compares the request
    method, ignoring case, and only then matches the path, which the matcher
    splits on '/' itself. A callback cannot hand the request on, so the
    first layer whose method and path both fit answers it. The response
    helpers `type(t, charset)` and `json(Stream)` build plain text. */
module LegacyRouter {
  import opened Wrappers
  import opened Text
  import opened RouteMatcher
  import opened JsonPrinter
  import Pipeline

  /** One `method(m, path, callback)` registration: the method, the matcher
      compiled from the path pattern when the route is registered, and the
      callback. */
  datatype LegacyRoute = LegacyRoute(verb: string, segs: seq<Segment>, callback: nat)

  /** `matcher(uri)` applied to a raw request path: the pattern and the path
      are both split on '/'; the request matches when it has at least as
      many components and every literal segment equals its component, and
      the map binds each parameter name to the component at the last index
      that names it. */
  function LegacyMatch(pattern: string, path: string): (r: Option<map<string, string>>)
    ensures var segs, comps := Compile(pattern), Components(path);
            r.Some? <==> |comps| >= |segs| && forall j :: 0 <= j < |segs| && segs[j].Literal? ==> segs[j].text == comps[j]
    ensures var segs, comps := Compile(pattern), Components(path);
            r.Some? ==> r.value.Keys == ParamNames(segs, |segs|) &&
                        forall i :: 0 <= i < |segs| && LastBinding(segs, i, |segs|) ==> r.value[segs[i].name] == comps[i]
  {
    MatchSpec(Compile(pattern), Components(path));
    Match(Compile(pattern), Components(path))
  }

  /** `method(m, path, callback)`: the new layer is tried first. */
  function Register(app: seq<LegacyRoute>, verb: string, pattern: string, callback: nat): seq<LegacyRoute> {
    app + [LegacyRoute(verb, Compile(pattern), callback)]
  }

  function Get(app: seq<LegacyRoute>, pattern: string, callback: nat): seq<LegacyRoute> {
    Register(app, "GET", pattern, callback)
  }

  function Post(app: seq<LegacyRoute>, pattern: string, callback: nat): seq<LegacyRoute> {
    Register(app, "POST", pattern, callback)
  }

  function Put(app: seq<LegacyRoute>, pattern: string, callback: nat): seq<LegacyRoute> {
    Register(app, "PUT", pattern, callback)
  }

  function Delete(app: seq<LegacyRoute>, pattern: string, callback: nat): seq<LegacyRoute> {
    Register(app, "DELETE", pattern, callback)
  }

  /** The layer's `Optional` chain: the method filter, then the matcher on
      the path. `None` hands the request to the older pipeline. */
  function Layer(route: LegacyRoute, req: Pipeline.Request): Option<map<string, string>> {
    if EqualsIgnoreCase(req.verb, route.verb) then Match(route.segs, Components(req.path)) else None
  }

  /** The pipeline made of the first `n` registrations, newest first; the
      initial pipeline is the same 404 page the newer variants send. */
  function DispatchUpTo(app: seq<LegacyRoute>, n: nat, req: Pipeline.Request): Pipeline.Outcome
    requires n <= |app|
  {
    if n == 0 then Pipeline.NoMatch(req)
    else
      match Layer(app[n - 1], req)
      case Some(params) => Pipeline.Handled(app[n - 1].callback, params)
      case None => DispatchUpTo(app, n - 1, req)
  }

  function Dispatch(app: seq<LegacyRoute>, req: Pipeline.Request): Pipeline.Outcome {
    DispatchUpTo(app, |app|, req)
  }

  // ---------------------------------------------------------------------
  // Reference description: the newest route whose method and path both fit
  // answers.

  predicate Accepts(route: LegacyRoute, req: Pipeline.Request) {
    EqualsIgnoreCase(req.verb, route.verb) && Match(route.segs, Components(req.path)).Some?
  }

  /** Route `i` accepts and no newer route before `n` does. */
  predicate LastAccepting(app: seq<LegacyRoute>, n: nat, req: Pipeline.Request, i: nat)
    requires n <= |app|
  {
    i < n && Accepts(app[i], req) && forall j :: i < j < n ==> !Accepts(app[j], req)
  }

  /** The 404 page is sent exactly when no route accepts. */
  lemma {:induction false} NotFoundIffNoneAccepts(app: seq<LegacyRoute>, n: nat, req: Pipeline.Request)
    requires n <= |app|
    ensures DispatchUpTo(app, n, req).NotFound? <==> forall i :: 0 <= i < n ==> !Accepts(app[i], req)
  {
    if n > 0 {
      NotFoundIffNoneAccepts(app, n - 1, req);
      if Accepts(app[n - 1], req) {
        assert DispatchUpTo(app, n, req).Handled?;
      } else {
        assert DispatchUpTo(app, n, req) == DispatchUpTo(app, n - 1, req);
        if forall i :: 0 <= i < n - 1 ==> !Accepts(app[i], req) {
          forall i | 0 <= i < n
            ensures !Accepts(app[i], req)
          {
            if i < n - 1 {
              assert !Accepts(app[i], req);
            }
          }
        }
      }
    }
  }

  /** The only 404 page is the initial pipeline's. */
  lemma {:induction false} NotFoundIsNoMatch(app: seq<LegacyRoute>, n: nat, req: Pipeline.Request)
    requires n <= |app|
    ensures DispatchUpTo(app, n, req).NotFound? ==> DispatchUpTo(app, n, req) == Pipeline.NoMatch(req)
  {
    if n > 0 {
      match Layer(app[n - 1], req)
      case Some(_) =>
      case None => NotFoundIsNoMatch(app, n - 1, req);
    }
  }

  /** Otherwise the newest accepting route answers, with its captures. */
  lemma {:induction false} AnsweredByLastAccepting(app: seq<LegacyRoute>, n: nat, req: Pipeline.Request, i: nat)
    requires n <= |app|
    requires LastAccepting(app, n, req, i)
    ensures DispatchUpTo(app, n, req) == Pipeline.Handled(app[i].callback, Match(app[i].segs, Components(req.path)).value)
  {
    if i < n - 1 {
      assert !Accepts(app[n - 1], req);
      AnsweredByLastAccepting(app, n - 1, req, i);
    }
  }

  /** Registrations made later do not change how the first `n` behave. */
  lemma {:induction false} DispatchPrefix(app: seq<LegacyRoute>, later: seq<LegacyRoute>, n: nat, req: Pipeline.Request)
    requires n <= |app|
    ensures DispatchUpTo(app + later, n, req) == DispatchUpTo(app, n, req)
  {
    if n > 0 {
      assert (app + later)[n - 1] == app[n - 1];
      DispatchPrefix(app, later, n - 1, req);
    }
  }

  /** A route for another method, or whose path does not match, leaves the
      request to the routes registered before it; one whose method and path
      fit answers. */
  lemma RegisterSpec(app: seq<LegacyRoute>, verb: string, pattern: string, callback: nat, req: Pipeline.Request)
    ensures EqualsIgnoreCase(req.verb, verb) && LegacyMatch(pattern, req.path).Some? ==>
              Dispatch(Register(app, verb, pattern, callback), req) ==
              Pipeline.Handled(callback, LegacyMatch(pattern, req.path).value)
    ensures !(EqualsIgnoreCase(req.verb, verb) && LegacyMatch(pattern, req.path).Some?) ==>
              Dispatch(Register(app, verb, pattern, callback), req) == Dispatch(app, req)
  {
    var app' := Register(app, verb, pattern, callback);
    assert app'[|app|] == LegacyRoute(verb, Compile(pattern), callback);
    DispatchPrefix(app, [LegacyRoute(verb, Compile(pattern), callback)], |app|, req);
  }

  // ---------------------------------------------------------------------
  // Checking the method before the path gives what the newer variants give
  // with a method filter behind a path match.

  /** The newer variants' registration of the same routes. */
  function AsMethodRoutes(app: seq<LegacyRoute>): (routes: seq<Pipeline.Route>)
    ensures |routes| == |app|
    ensures forall i :: 0 <= i < |app| ==>
              routes[i] == Pipeline.Route(app[i].segs, Pipeline.MethodFilter(app[i].verb, app[i].callback))
  {
    seq(|app|, i requires 0 <= i < |app| => Pipeline.Route(app[i].segs, Pipeline.MethodFilter(app[i].verb, app[i].callback)))
  }

  /** Legacy dispatch and the newer path-first dispatch agree on every
      request. */
  lemma {:induction false} SameAsPathFirst(app: seq<LegacyRoute>, n: nat, req: Pipeline.Request)
    requires n <= |app|
    ensures DispatchUpTo(app, n, req) == Pipeline.DispatchUpTo(AsMethodRoutes(app), n, req)
  {
    if n > 0 {
      LayerAgrees(app[n - 1], req);
      SameAsPathFirst(app, n - 1, req);
    }
  }

  /** One layer: the method check first and the path second answers
      exactly as the path match followed by the method filter. */
  lemma LayerAgrees(route: LegacyRoute, req: Pipeline.Request)
    ensures var modern := Pipeline.Layer(Pipeline.Route(route.segs, Pipeline.MethodFilter(route.verb, route.callback)), req);
            match Layer(route, req)
            case Some(params) => modern == Pipeline.Answer(route.callback, params)
            case None => modern == Pipeline.Defer
  {
    EqualsIgnoreCaseUpper(req.verb, route.verb);
  }

  // ---------------------------------------------------------------------
  // Response helpers.

  /** `type(t, charset)`: the Content-Type value set. */
  function ContentType(t: string, charset: string): (ct: string)
    ensures |ct| == |t| + |"; charset="| + |charset|
  {
    t + "; charset=" + charset
  }

  /** The media type of a Content-Type value: the text before its first ';'. */
  function MediaType(ct: string): string {
    if ';' in ct then ct[..IndexOf(ct, ';')] else ct
  }

  /** The parameters of a Content-Type value: the text after its first ';'. */
  function Parameters(ct: string): string {
    if ';' in ct then ct[IndexOf(ct, ';') + 1..] else ""
  }

  /** A media type without ';' and its charset can be read back from the
      value `type(t, charset)` sets. */
  lemma ContentTypeReadsBack(t: string, charset: string)
    requires ';' !in t
    ensures MediaType(ContentType(t, charset)) == t
    ensures Parameters(ContentType(t, charset)) == " charset=" + charset
  {
    var ct := ContentType(t, charset);
    assert ct == t + (";" + " charset=" + charset);
    assert ct[|t|] == ';';
    assert ct[..|t|] == t;
    IndexOfFirst(ct, ';', |t|);
    assert ct[|t| + 1..] == " charset=" + charset;
  }

  /** `json(String)` sends with `type("application/json", "utf-8")`. */
  lemma JsonContentType()
    ensures MediaType(ContentType("application/json", "utf-8")) == "application/json"
    ensures Parameters(ContentType("application/json", "utf-8")) == " charset=utf-8"
  {
    ContentTypeReadsBack("application/json", "utf-8");
  }

  /** `json(Stream)`: the elements' `toString` texts joined with ", "
      between `[` and `]`. */
  function JsonStream(texts: seq<string>): (body: string)
    ensures |body| >= 2 && body[0] == '[' && body[|body| - 1] == ']'
    ensures texts == [] ==> body == "[]"
    ensures |texts| == 1 ==> body == "[" + texts[0] + "]"
  {
    "[" + Join(texts, ", ") + "]"
  }

  /** The body for a longer stream: the first element's text and ", " go
      in front of what the rest of the stream would give. */
  lemma JsonStreamCons(x: string, xs: seq<string>)
    requires xs != []
    ensures JsonStream([x] + xs) == "[" + x + ", " + JsonStream(xs)[1..]
  {
    JoinCons(x, xs, ", ");
    var j := Join(xs, ", ");
    assert ("[" + j + "]")[1..] == j + "]";
  }

  /** The objects whose `toString` is already their JSON text. */
  predicate SelfPrinting(v: Value) {
    v.VInt? || v.VBool? || v.VDouble?
  }

  /** `toString` of such an object. */
  function ToStringText(v: Value): string
    requires SelfPrinting(v)
  {
    match v
    case VInt(i) => IntToString(i as int)
    case VBool(b) => BoolText(b)
    case VDouble(t) => t
  }

  /** On a stream of numbers and booleans the legacy `json(Stream)` writes
      what the newer serializer writes for the same stream. */
  lemma StreamAgreesWithPrinter(items: seq<Value>, variant: Variant)
    requires forall i :: 0 <= i < |items| ==> SelfPrinting(items[i])
    ensures ToJson(VList(StreamShape, items), variant).Ok?
    ensures JsonStream(seq(|items|, i requires 0 <= i < |items| => ToStringText(items[i]))) ==
            ToJson(VList(StreamShape, items), variant).value
  {
    ItemsOkIff(items, variant);
    ItemsLayout(items, variant);
    var texts := seq(|items|, i requires 0 <= i < |items| => ToStringText(items[i]));
    assert texts == Items(items, variant).value;
  }

  /** A string element is written without quotes, unlike in the newer
      serializer. */
  lemma StringsUnquoted(s: string, variant: Variant)
    ensures JsonStream([s]) == "[" + s + "]"
    ensures ToJson(VList(StreamShape, [VString(s)]), variant) == Ok("[" + ("\"" + s + "\"") + "]")
  {
    var q := "\"" + s + "\"";
    assert ItemJson(VString(s), variant) == Ok(q);
    assert Items([], variant) == Ok([]);
    assert [VString(s)][1..] == [];
    assert [q] + [] == [q];
    assert Items([VString(s)], variant) == Ok([q]);
    assert Join([q], ", ") == q;
  }
}
