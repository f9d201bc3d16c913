/** The handler pipeline of the three framework variants under
    src/main/java. Each `use(path, handler)` wraps the pipeline built so far
    as the fallback of a new head, so the registrations form a list whose
    LAST element is tried first. Dispatch walks that list from the end:
    a route whose pattern does not match hands the request to the older
    routes, and so does a handler that calls `next()`. */
module Pipeline {
  import opened Wrappers
  import opened Text
  import opened RouteMatcher

  /** The two request attributes the pipeline reads: the method as the
      client sent it and the path of the request URI. */
  datatype Request = Request(verb: string, path: string)

  /** What a registered handler does with a matched request.
      - `Respond(id)`: answers the request (callback `id`), never calls `next()`;
      - `CallNext`: a middleware that only calls `next()`;
      - `MethodFilter(m, id)`: the handler `get/post/put/delete` register,
        which runs callback `id` when the request method is `m` ignoring
        case and otherwise calls `next()`. */
  datatype Handler = Respond(id: nat) | CallNext | MethodFilter(verb: string, id: nat)

  /** One `use` registration: the matcher compiled from the pattern when
      the route is registered, and the handler. */
  datatype Route = Route(segs: seq<Segment>, handler: Handler)

  /** How a request ends: the callback that answered it together with the
      parameters `param(name)` reads, or the terminal 404 response. */
  datatype Outcome = Handled(id: nat, params: map<string, string>) | NotFound(status: int, body: string)

  /** `use(path, handler)`: the new route becomes the head of the pipeline. */
  function Use(app: seq<Route>, pattern: string, handler: Handler): seq<Route> {
    app + [Route(Compile(pattern), handler)]
  }

  /** `use(handler)`: registers with the pattern "/". */
  function UseEverywhere(app: seq<Route>, handler: Handler): seq<Route> {
    Use(app, "/", handler)
  }

  /** `method(m, path, callback)` and its four public wrappers. */
  function RegisterMethod(app: seq<Route>, m: string, pattern: string, callback: nat): seq<Route> {
    Use(app, pattern, MethodFilter(m, callback))
  }

  function Get(app: seq<Route>, pattern: string, callback: nat): seq<Route> {
    RegisterMethod(app, "GET", pattern, callback)
  }

  function Post(app: seq<Route>, pattern: string, callback: nat): seq<Route> {
    RegisterMethod(app, "POST", pattern, callback)
  }

  function Put(app: seq<Route>, pattern: string, callback: nat): seq<Route> {
    RegisterMethod(app, "PUT", pattern, callback)
  }

  function Delete(app: seq<Route>, pattern: string, callback: nat): seq<Route> {
    RegisterMethod(app, "DELETE", pattern, callback)
  }

  /** `RequestImpl.method()`: the client's method upper-cased. */
  function RequestMethod(req: Request): string {
    Upper(req.verb)
  }

  /** The initial pipeline: status 404 and a page naming method and path. */
  function NoMatch(req: Request): Outcome {
    NotFound(404, "<html><h2>" + "no match " + RequestMethod(req) + " " + req.path + "</h2></html>")
  }

  /** What one registered layer does with a request: answer it, or hand
      it to the pipeline it wrapped (`oldPipeline`), which happens both when
      the pattern does not match and when the handler calls `next()`. */
  datatype Step = Answer(id: nat, params: map<string, string>) | Defer

  /** The lambda `use(path, handler)` installs, for one request. */
  function Layer(route: Route, req: Request): Step {
    var captured := Match(route.segs, Components(req.path));
    if captured.None? || route.handler.CallNext? then Defer
    else if route.handler.MethodFilter? && !EqualsIgnoreCase(RequestMethod(req), route.handler.verb) then Defer
    else Answer(route.handler.id, captured.value)
  }

  /** Runs the pipeline made of the first `n` registrations of `app`, the
      most recent of them first. */
  function DispatchUpTo(app: seq<Route>, n: nat, req: Request): Outcome
    requires n <= |app|
  {
    if n == 0 then NoMatch(req)
    else
      match Layer(app[n - 1], req)
      case Answer(id, params) => Handled(id, params)
      case Defer => DispatchUpTo(app, n - 1, req)
  }

  /** The installed pipeline, run on one request. */
  function Dispatch(app: seq<Route>, req: Request): Outcome {
    DispatchUpTo(app, |app|, req)
  }

  /** `RequestImpl.param(name)`: the captured value, or "" when the route
      captured no parameter of that name. */
  function ParamValue(params: map<string, string>, name: string): (v: string)
    ensures name !in params ==> v == ""
    ensures name in params ==> v == params[name]
  {
    if name in params then params[name] else ""
  }

  // ---------------------------------------------------------------------
  // A reference description of dispatch: the request is answered by the
  // most recently registered route that accepts it.

  /** A route accepts a request when its pattern matches the path and its
      handler answers rather than calling `next()`. */
  predicate Accepts(route: Route, req: Request) {
    && Match(route.segs, Components(req.path)).Some?
    && !route.handler.CallNext?
    && (route.handler.MethodFilter? ==> EqualsIgnoreCase(req.verb, route.handler.verb))
  }

  /** The callback an accepting route runs. */
  function CallbackOf(h: Handler): nat
    requires !h.CallNext?
  {
    match h
    case Respond(id) => id
    case MethodFilter(_, id) => id
  }

  /** Route `i` accepts the request and no later route before `n` does. */
  predicate LastAccepting(app: seq<Route>, n: nat, req: Request, i: nat)
    requires n <= |app|
  {
    i < n && Accepts(app[i], req) &&
    forall j :: i < j < n ==> !Accepts(app[j], req)
  }

  /** Dispatch reaches the 404 handler exactly when no route accepts. */
  lemma {:induction false} DispatchNotFoundIffNoneAccepts(app: seq<Route>, n: nat, req: Request)
    requires n <= |app|
    ensures DispatchUpTo(app, n, req).NotFound? <==> forall i :: 0 <= i < n ==> !Accepts(app[i], req)
  {
    if n > 0 {
      DispatchNotFoundIffNoneAccepts(app, n - 1, req);
      NotFoundStep(app, n, req);
      NoneAcceptsStep(app, n, req);
    }
  }

  /** One layer more: the 404 page is reached when the new route does not
      accept and the older ones reach it. */
  lemma NotFoundStep(app: seq<Route>, n: nat, req: Request)
    requires 0 < n <= |app|
    ensures DispatchUpTo(app, n, req).NotFound? <==>
            !Accepts(app[n - 1], req) && DispatchUpTo(app, n - 1, req).NotFound?
  {
    LayerAnswersIffAccepts(app[n - 1], req);
  }

  /** No route among the first `n` accepts when the newest does not and
      none of the older ones does. */
  lemma NoneAcceptsStep(app: seq<Route>, n: nat, req: Request)
    requires 0 < n <= |app|
    ensures (forall i :: 0 <= i < n ==> !Accepts(app[i], req)) <==>
            !Accepts(app[n - 1], req) && forall i :: 0 <= i < n - 1 ==> !Accepts(app[i], req)
  {
  }

  /** Dispatch can only end in the 404 page of the initial pipeline. */
  lemma {:induction false} NotFoundIsNoMatch(app: seq<Route>, n: nat, req: Request)
    requires n <= |app|
    ensures DispatchUpTo(app, n, req).NotFound? ==> DispatchUpTo(app, n, req) == NoMatch(req)
  {
    if n > 0 {
      match Layer(app[n - 1], req)
      case Answer(_, _) =>
      case Defer => NotFoundIsNoMatch(app, n - 1, req);
    }
  }

  /** Dispatch answers with the most recent accepting route, with that
      route's own captures as the parameters. */
  lemma {:induction false} DispatchIsLastAccepting(app: seq<Route>, n: nat, req: Request, i: nat)
    requires n <= |app|
    requires LastAccepting(app, n, req, i)
    ensures DispatchUpTo(app, n, req) ==
            Handled(CallbackOf(app[i].handler), Match(app[i].segs, Components(req.path)).value)
  {
    var head := app[n - 1];
    LayerAnswersIffAccepts(head, req);
    if i < n - 1 {
      assert !Accepts(head, req);
      DispatchIsLastAccepting(app, n - 1, req, i);
    }
  }

  /** A layer answers exactly when its route accepts the request, and then
      with the route's callback and captures. */
  lemma LayerAnswersIffAccepts(route: Route, req: Request)
    ensures Layer(route, req).Answer? <==> Accepts(route, req)
    ensures Accepts(route, req) ==>
              Layer(route, req) ==
              Answer(CallbackOf(route.handler), Match(route.segs, Components(req.path)).value)
  {
    if route.handler.MethodFilter? {
      EqualsIgnoreCaseUpper(req.verb, route.handler.verb);
    }
  }

  /** Registrations made later do not change how the first `n` behave. */
  lemma {:induction false} DispatchPrefix(app: seq<Route>, later: seq<Route>, n: nat, req: Request)
    requires n <= |app|
    ensures DispatchUpTo(app + later, n, req) == DispatchUpTo(app, n, req)
  {
    if n > 0 {
      assert (app + later)[n - 1] == app[n - 1];
      DispatchPrefix(app, later, n - 1, req);
    }
  }

  /** The latest registration has priority: an accepting head answers. */
  lemma LatestRouteFirst(app: seq<Route>, route: Route, req: Request)
    requires Accepts(route, req)
    ensures Dispatch(app + [route], req) ==
            Handled(CallbackOf(route.handler), Match(route.segs, Components(req.path)).value)
  {
    LayerAnswersIffAccepts(route, req);
    assert (app + [route])[|app|] == route;
  }

  /** A head that does not accept, whether because its path does not match,
      its method differs, or it only calls `next()`, leaves the request to
      the routes registered before it. */
  lemma FallsThrough(app: seq<Route>, route: Route, req: Request)
    requires !Accepts(route, req)
    ensures Dispatch(app + [route], req) == Dispatch(app, req)
  {
    LayerAnswersIffAccepts(route, req);
    assert (app + [route])[|app|] == route;
    DispatchPrefix(app, [route], |app|, req);
  }

  /** A method route runs its callback only for its method, compared
      ignoring case; for another method it behaves like a path miss. */
  lemma MethodRouteFilters(app: seq<Route>, m: string, pattern: string, callback: nat, req: Request)
    requires MatchPath(pattern, req.path).Some?
    ensures EqualsIgnoreCase(req.verb, m) ==>
              Dispatch(RegisterMethod(app, m, pattern, callback), req) ==
              Handled(callback, MatchPath(pattern, req.path).value)
    ensures !EqualsIgnoreCase(req.verb, m) ==>
              Dispatch(RegisterMethod(app, m, pattern, callback), req) == Dispatch(app, req)
  {
    EqualsIgnoreCaseUpper(req.verb, m);
    var route := Route(Compile(pattern), MethodFilter(m, callback));
    if Accepts(route, req) {
      LatestRouteFirst(app, route, req);
    } else {
      FallsThrough(app, route, req);
    }
  }

  /** `use(handler)` registers a route that every request path reaches. */
  lemma UseEverywhereMatchesAll(app: seq<Route>, callback: nat, req: Request)
    ensures Dispatch(UseEverywhere(app, Respond(callback)), req) == Handled(callback, map[])
  {
    RootPatternMatchesEverything(Components(req.path));
    LatestRouteFirst(app, Route(Compile("/"), Respond(callback)), req);
  }

  /** What `param(name)` returns inside the answering callback: for each
      parameter of that route's pattern, the request component at the last
      index carrying the name; for any other name, "". */
  lemma ParamSeenByCallback(app: seq<Route>, req: Request, i: nat, k: nat, name: string)
    requires LastAccepting(app, |app|, req, i)
    ensures var segs := app[i].segs;
            Dispatch(app, req).Handled? && k < |segs| && LastBinding(segs, k, |segs|) ==>
              ParamValue(Dispatch(app, req).params, segs[k].name) == Components(req.path)[k]
    ensures Dispatch(app, req).Handled? &&
            name !in ParamNames(app[i].segs, |app[i].segs|) ==>
              ParamValue(Dispatch(app, req).params, name) == ""
  {
    DispatchIsLastAccepting(app, |app|, req, i);
    MatchSpec(app[i].segs, Components(req.path));
  }
}
