/**
  The router: routes in registration order, and dispatch to the first one
  whose `matches` accepts the request, with a 404 reply when none does.
  Every attempt runs `matches` on the same request, so the parameters bound
  by routes that were tried and rejected stay in the request.
*/
module Routing {
  import opened Wrappers
  import opened Text
  import opened HttpRequest
  import opened StatusCodes
  import opened HttpResponse
  import opened Routes
  import opened Bytes
  import opened Wire

  /** The request's params after trying every route of `routes` in turn, each rejecting it. */
  function ParamsAfterAttempts(routes: seq<Route>, requestMethod: string, requestPath: string,
                               params: map<string, string>): (p: map<string, string>)
    ensures params.Keys <= p.Keys
  {
    if |routes| == 0 then params
    else
      var n := |routes| - 1;
      MatchOutcome(routes[n], requestMethod, requestPath, ParamsAfterAttempts(routes[..n], requestMethod, requestPath, params)).1
  }

  /** Whether route `i` accepts the request, in the state the earlier attempts left behind. */
  predicate AcceptsAt(routes: seq<Route>, i: nat, requestMethod: string, requestPath: string, params: map<string, string>)
    requires i < |routes|
  {
    MatchOutcome(routes[i], requestMethod, requestPath, ParamsAfterAttempts(routes[..i], requestMethod, requestPath, params)).0
  }

  /** The position, from `from` on, of the first `true` in `flags`, if any. */
  function FirstTrueFrom(flags: seq<bool>, from: nat): Option<nat>
    requires from <= |flags|
    decreases |flags| - from
  {
    if from == |flags| then None
    else if flags[from] then Some(from)
    else FirstTrueFrom(flags, from + 1)
  }

  /** `FirstTrueFrom` finds a `true` with none before it, or reports that there is none from `from` on. */
  lemma {:induction false} FirstTrueFromFinds(flags: seq<bool>, from: nat)
    requires from <= |flags|
    ensures var r := FirstTrueFrom(flags, from);
      && (r.Some? ==> from <= r.value < |flags| && flags[r.value])
      && (r.Some? ==> forall j :: from <= j < r.value ==> !flags[j])
      && (r.None? ==> forall j :: from <= j < |flags| ==> !flags[j])
    decreases |flags| - from
  {
    if from < |flags| && !flags[from] {
      FirstTrueFromFinds(flags, from + 1);
    }
  }

  /** For each route in turn, whether it accepts the request after the attempts before it. */
  function Acceptances(routes: seq<Route>, requestMethod: string, requestPath: string,
                       params: map<string, string>): (flags: seq<bool>)
    ensures |flags| == |routes|
  {
    seq(|routes|, i requires 0 <= i < |routes| => AcceptsAt(routes, i, requestMethod, requestPath, params))
  }

  /** The first route, in registration order, that accepts the request. */
  function FirstMatch(routes: seq<Route>, requestMethod: string, requestPath: string,
                      params: map<string, string>): (r: Option<nat>)
    ensures r.Some? ==> r.value < |routes| && AcceptsAt(routes, r.value, requestMethod, requestPath, params)
    ensures r.Some? ==> forall j :: 0 <= j < r.value ==> !AcceptsAt(routes, j, requestMethod, requestPath, params)
    ensures r.None? ==> forall j :: 0 <= j < |routes| ==> !AcceptsAt(routes, j, requestMethod, requestPath, params)
  {
    var flags := Acceptances(routes, requestMethod, requestPath, params);
    FirstTrueFromFinds(flags, 0);
    assert forall j :: 0 <= j < |routes| ==> flags[j] == AcceptsAt(routes, j, requestMethod, requestPath, params);
    FirstTrueFrom(flags, 0)
  }

  /** The params dispatch leaves in the request: those of every attempt up to and including the accepted one. */
  function ParamsAfterDispatch(routes: seq<Route>, requestMethod: string, requestPath: string,
                               params: map<string, string>): (p: map<string, string>)
    ensures params.Keys <= p.Keys
  {
    match FirstMatch(routes, requestMethod, requestPath, params)
    case Some(j) => ParamsAfterAttempts(routes[..j + 1], requestMethod, requestPath, params)
    case None => ParamsAfterAttempts(routes, requestMethod, requestPath, params)
  }

  /** One more attempt is the previous attempts followed by that route's `matches`. */
  lemma AttemptsStep(routes: seq<Route>, i: nat, requestMethod: string, requestPath: string, params: map<string, string>)
    requires i < |routes|
    ensures ParamsAfterAttempts(routes[..i + 1], requestMethod, requestPath, params)
      == MatchOutcome(routes[i], requestMethod, requestPath, ParamsAfterAttempts(routes[..i], requestMethod, requestPath, params)).1
  {
    assert routes[..i + 1][..i] == routes[..i];
  }

  /**
    Routes registered after the accepted one change nothing: dispatch
    stops at the first match and tries no later route.
  */
  lemma {:induction false} LaterRoutesIgnored(routes: seq<Route>, more: seq<Route>, requestMethod: string, requestPath: string,
                                              params: map<string, string>)
    requires FirstMatch(routes, requestMethod, requestPath, params).Some?
    ensures FirstMatch(routes + more, requestMethod, requestPath, params) == FirstMatch(routes, requestMethod, requestPath, params)
    ensures ParamsAfterDispatch(routes + more, requestMethod, requestPath, params)
      == ParamsAfterDispatch(routes, requestMethod, requestPath, params)
  {
    var all := routes + more;
    var j := FirstMatch(routes, requestMethod, requestPath, params).value;
    forall i | 0 <= i <= j
      ensures AcceptsAt(all, i, requestMethod, requestPath, params) == AcceptsAt(routes, i, requestMethod, requestPath, params)
    {
      assert all[..i] == routes[..i];
    }
    var r := FirstMatch(all, requestMethod, requestPath, params);
    assert r.Some? && r.value == j;
    assert all[..j + 1] == routes[..j + 1];
  }

  /** Adding a route to a table where nothing matched makes dispatch try exactly that route next. */
  lemma NextRouteTried(routes: seq<Route>, route: Route, requestMethod: string, requestPath: string,
                       params: map<string, string>)
    requires FirstMatch(routes, requestMethod, requestPath, params).None?
    ensures var after := ParamsAfterAttempts(routes, requestMethod, requestPath, params);
      FirstMatch(routes + [route], requestMethod, requestPath, params)
        == if MatchOutcome(route, requestMethod, requestPath, after).0 then Some(|routes|) else None
  {
    var all := routes + [route];
    assert all[..|routes|] == routes;
    forall i | 0 <= i < |routes|
      ensures AcceptsAt(all, i, requestMethod, requestPath, params) == AcceptsAt(routes, i, requestMethod, requestPath, params)
    {
      assert all[..i] == routes[..i];
    }
    var after := ParamsAfterAttempts(routes, requestMethod, requestPath, params);
    assert AcceptsAt(all, |routes|, requestMethod, requestPath, params) == MatchOutcome(route, requestMethod, requestPath, after).0;
    var r := FirstMatch(all, requestMethod, requestPath, params);
    if r.Some? {
      assert r.value == |routes|;
    }
  }

  /** A rejected route's partial bindings survive dispatch: with only the route of `PartialBinding`, nothing matches and `name` stays bound. */
  lemma StaleBindingKept(requestMethod: string, lit: string, name: string, value: string, a: string, b: string,
                         handler: HandlerId, params: map<string, string>)
    requires '/' !in lit && '/' !in name && '/' !in value && '/' !in a && '/' !in b && !IsParamSegment(lit)
    requires |name| > 0 ==> name[0] != ':'
    requires value != "" && !IsParamSegment(a) && a != b
    ensures var routes := [Route(ToUpperAscii(requestMethod), "/" + lit + "/:" + name + "/" + a, handler)];
      var path := "/" + lit + "/" + value + "/" + b;
      && FirstMatch(routes, requestMethod, path, params).None?
      && ParamsAfterDispatch(routes, requestMethod, path, params) == params[name := value]
  {
    var routes := [Route(ToUpperAscii(requestMethod), "/" + lit + "/:" + name + "/" + a, handler)];
    PartialBinding(requestMethod, lit, name, value, a, b, handler, params);
    assert routes[..0] == [];
  }

  /** The route table. */
  class Router {
    var routes: seq<Route>

    /** `Router::new`: no routes. */
    constructor ()
      ensures routes == []
    {
      routes := [];
    }

    /** `add_route`: exactly one route, at the end. */
    method AddRoute(httpMethod: string, path: string, handler: HandlerId)
      modifies this
      ensures routes == old(routes) + [Route(httpMethod, path, handler)]
    {
      routes := routes + [Route(httpMethod, path, handler)];
    }

    /**
      `handle`: tries the routes in order and returns the handler of the
      first that matches, for the caller to invoke once; when none matches,
      replies 404 with body `404 Not Found`.  The route table is not changed.
    */
    method Handle(req: Request, res: Response) returns (invoked: Option<HandlerId>)
      requires res.Valid()
      modifies req, res, res.stream
      ensures routes == old(routes)
      ensures req.params == ParamsAfterDispatch(routes, req.httpMethod, req.path, old(req.params))
      ensures match FirstMatch(routes, req.httpMethod, req.path, old(req.params))
        case Some(j) => invoked == Some(routes[j].handler) && unchanged(res) && res.stream.log == old(res.stream.log)
        case None => invoked == None && NotFoundSent(res, old(res.sent), old(res.status), old(res.headers), old(res.stream.log))
      ensures res.Valid()
    {
      ghost var params0 := req.params;
      for i := 0 to |routes|
        invariant req.params == ParamsAfterAttempts(routes[..i], req.httpMethod, req.path, params0)
        invariant forall j :: 0 <= j < i ==> !AcceptsAt(routes, j, req.httpMethod, req.path, params0)
        invariant unchanged(res) && res.stream.log == old(res.stream.log)
      {
        AttemptsStep(routes, i, req.httpMethod, req.path, params0);
        var ok := Matches(routes[i], req);
        if ok {
          assert FirstMatch(routes, req.httpMethod, req.path, params0) == Some(i) by {
            assert AcceptsAt(routes, i, req.httpMethod, req.path, params0);
          }
          return Some(routes[i].handler);
        }
      }
      assert routes[..|routes|] == routes;
      assert FirstMatch(routes, req.httpMethod, req.path, params0).None?;
      ReplyNotFound(res);
      return None;
    }
  }

  /** `res.status(404).send("404 Not Found")`. */
  method ReplyNotFound(res: Response)
    requires res.Valid()
    modifies res, res.stream
    ensures NotFoundSent(res, old(res.sent), old(res.status), old(res.headers), old(res.stream.log))
    ensures res.Valid()
  {
    res.Status(ByCode(404));
    ReasonExamples();
    res.Send("404 Not Found");
  }

  /**
    The 404 reply: status 404 with the table's reason, `text/plain`, and the
    body `404 Not Found` on the wire, unless a response had already been sent.
  */
  ghost predicate NotFoundSent(res: Response, wasSent: bool, oldStatus: HttpStatus, oldHeaders: map<string, string>,
                                  oldLog: seq<IoEvent>)
    reads res, res.stream
  {
    && res.statusCode == 404 && res.statusReason == "Not Found" && res.status == oldStatus
    && (wasSent ==> res.sent && res.headers == oldHeaders && res.stream.log == oldLog)
    && (!wasSent ==>
          && res.sent && res.headers == oldHeaders[ContentTypeKey := TextPlain]
          && Transmits(res.stream.oracle, oldLog, res.stream.log, 404, "Not Found", res.headers, Utf8("404 Not Found")))
  }
}
