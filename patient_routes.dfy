/** backend/routes/patientRoutes.js: the patient router is an ordered list of routes, built
    by successive `router.post/get/put` calls and searched first match first. A route that
    matches decides the answer through its gate (the `auth` and `authorize(...)`
    middleware, or the production check of the dev-only route) before its controller runs.

    Paths are given as their segments below `/api/patients` (`/search` is `["search"]`,
    `/` is `[]`). Express matches literal segments ignoring case; the literals of this table
    are written in lower case, so a segment matches a literal when its lower-cased text is
    the literal. */
module PatientRoutes {
  import opened Wrappers
  import opened Text
  import opened Schemas

  datatype Verb = Get | Post | Put

  datatype Segment = Literal(text: string) | Param

  /** `auth` lets any authenticated user through; `authorize(roles)` also demands one of
      the roles; the dev-only route checks the environment instead. */
  datatype Gate = DevOnly | Authenticated | Authorized(roles: seq<string>)

  /** The controller a route ends in. */
  datatype Handler = RegisterPatient | GetAllPatients | GetPendingCount | SearchPatient
                   | GetPatientById | UpdatePatient | DevUpdatePatient

  datatype Route = Route(verb: Verb, pattern: seq<Segment>, gate: Gate, handler: Handler)

  /** A request: its verb, its path segments, and the role of the user the token
      authenticates (`None` when there is no valid token). */
  datatype Request = Request(verb: Verb, path: seq<string>, user: Option<string>)

  /** No route matched (the server's 404 fallback), a gate answered with a status, or a
      controller runs with the path's parameters. */
  datatype Outcome = NoRoute | Refused(status: int) | Handled(handler: Handler, params: seq<string>)

  predicate SegmentMatches(s: Segment, text: string)
  {
    match s
    case Literal(lit) => ToLower(text) == lit
    case Param => text != []
  }

  predicate PatternMatches(pattern: seq<Segment>, path: seq<string>)
  {
    |pattern| == |path| && forall i :: 0 <= i < |path| ==> SegmentMatches(pattern[i], path[i])
  }

  predicate Applies(r: Route, req: Request)
  {
    r.verb == req.verb && PatternMatches(r.pattern, req.path)
  }

  /** `req.params` in the order the parameters appear. */
  function Params(pattern: seq<Segment>, path: seq<string>): (ps: seq<string>)
    requires |pattern| == |path|
    ensures |ps| <= |path|
  {
    if pattern == [] then []
    else (if pattern[0].Param? then [path[0]] else []) + Params(pattern[1..], path[1..])
  }

  /** What a matched route does: 401 without a user and 403 for a role outside the list
      (the `auth` middleware is not part of this model; these are its usual answers), 403
      for the dev-only route in production, and otherwise the controller. */
  function Gatekeep(r: Route, req: Request, production: bool): (o: Outcome)
    requires Applies(r, req)
    ensures o.Handled? ==> o.handler == r.handler && o.params == Params(r.pattern, req.path)
    ensures !o.NoRoute?
    ensures o.Refused? ==> o.status in {401, 403}
  {
    match r.gate
    case DevOnly => if production then Refused(403) else Handled(r.handler, Params(r.pattern, req.path))
    case Authenticated => if req.user.None? then Refused(401) else Handled(r.handler, Params(r.pattern, req.path))
    case Authorized(roles) =>
      if req.user.None? then Refused(401)
      else if req.user.value !in roles then Refused(403)
      else Handled(r.handler, Params(r.pattern, req.path))
  }

  /** First match wins: the first route that applies decides, and a request no route
      applies to falls through. */
  function Dispatch(routes: seq<Route>, req: Request, production: bool): (o: Outcome)
    ensures o.NoRoute? <==> forall i :: 0 <= i < |routes| ==> !Applies(routes[i], req)
    ensures !o.NoRoute? ==> exists i :: (0 <= i < |routes| && Applies(routes[i], req) &&
      (forall j :: 0 <= j < i ==> !Applies(routes[j], req)) && o == Gatekeep(routes[i], req, production))
  {
    if routes == [] then NoRoute
    else if Applies(routes[0], req) then Gatekeep(routes[0], req, production)
    else
      var o := Dispatch(routes[1..], req, production);
      assert forall i :: 1 <= i < |routes| ==> routes[i] == routes[1..][i - 1];
      o
  }

  /** A route that does not apply is skipped. */
  lemma Skip(routes: seq<Route>, req: Request, production: bool)
    requires routes != [] && !Applies(routes[0], req)
    ensures Dispatch(routes, req, production) == Dispatch(routes[1..], req, production)
  {
  }

  /** The table of backend/routes/patientRoutes.js, in declaration order. */
  const PatientTable: seq<Route> := [
    Route(Post, [Param, Literal("dev-update")], DevOnly, DevUpdatePatient),
    Route(Post, [], Authorized(FrontDeskRoles), RegisterPatient),
    Route(Get, [], Authenticated, GetAllPatients),
    Route(Get, [Literal("pending-count")], Authenticated, GetPendingCount),
    Route(Get, [Literal("search")], Authenticated, SearchPatient),
    Route(Get, [Param], Authenticated, GetPatientById),
    Route(Put, [Param], Authorized(FrontDeskRoles), UpdatePatient)
  ]

  /** `express.Router()` and its registrations. */
  class Router {
    var routes: seq<Route>

    constructor()
      ensures routes == []
    {
      routes := [];
    }

    /** `router.get/post/put(path, ...handlers)`: the route goes after every earlier one. */
    method Add(r: Route)
      modifies this
      ensures routes == old(routes) + [r]
    {
      routes := routes + [r];
    }

    /** Express's dispatch: try the routes in order and let the first that applies answer. */
    method Handle(req: Request, production: bool) returns (o: Outcome)
      ensures o == Dispatch(routes, req, production)
    {
      var i := 0;
      while i < |routes|
        invariant 0 <= i <= |routes|
        invariant Dispatch(routes, req, production) == Dispatch(routes[i..], req, production)
      {
        if Applies(routes[i], req) {
          return Gatekeep(routes[i], req, production);
        }
        Skip(routes[i..], req, production);
        assert routes[i..][1..] == routes[i + 1..];
        i := i + 1;
      }
      return NoRoute;
    }
  }

  /** The router module.exports: the seven registrations in source order. */
  method BuildPatientRouter() returns (router: Router)
    ensures fresh(router) && router.routes == PatientTable
  {
    router := new Router();
    router.Add(Route(Post, [Param, Literal("dev-update")], DevOnly, DevUpdatePatient));
    router.Add(Route(Post, [], Authorized(FrontDeskRoles), RegisterPatient));
    router.Add(Route(Get, [], Authenticated, GetAllPatients));
    router.Add(Route(Get, [Literal("pending-count")], Authenticated, GetPendingCount));
    router.Add(Route(Get, [Literal("search")], Authenticated, SearchPatient));
    router.Add(Route(Get, [Param], Authenticated, GetPatientById));
    router.Add(Route(Put, [Param], Authorized(FrontDeskRoles), UpdatePatient));
  }

  // ---------------------------------------------------------------- properties of the table

  predicate IsFrontDesk(user: Option<string>)
  {
    user.Some? && user.value in FrontDeskRoles
  }

  /** The first route that applies decides. */
  lemma FirstApplying(routes: seq<Route>, req: Request, production: bool, k: nat)
    requires k < |routes| && Applies(routes[k], req)
    requires forall j :: 0 <= j < k ==> !Applies(routes[j], req)
    ensures Dispatch(routes, req, production) == Gatekeep(routes[k], req, production)
  {
    var o := Dispatch(routes, req, production);
    var i :| 0 <= i < |routes| && Applies(routes[i], req) &&
      (forall j :: 0 <= j < i ==> !Applies(routes[j], req)) && o == Gatekeep(routes[i], req, production);
    assert Applies(routes[i], req) && Applies(routes[k], req);
  }

  /** `POST /:id/dev-update` takes no token: outside production it reaches
      devUpdatePatient with the id whoever asks, in production it answers 403. */
  lemma DevUpdateNeedsNoAuth(id: string, tail: string, user: Option<string>, production: bool)
    requires id != [] && ToLower(tail) == "dev-update"
    ensures Dispatch(PatientTable, Request(Post, [id, tail], user), production) ==
      if production then Refused(403) else Handled(DevUpdatePatient, [id])
  {
    var req := Request(Post, [id, tail], user);
    var pattern := [Param, Literal("dev-update")];
    assert PatientTable[0].pattern == pattern;
    assert SegmentMatches(pattern[0], id) && SegmentMatches(pattern[1], tail);
    assert Applies(PatientTable[0], req);
    assert Params(pattern, [id, tail]) == [id] + Params(pattern[1..], [id, tail][1..]);
    assert Params(pattern[1..], [id, tail][1..]) == [];
    FirstApplying(PatientTable, req, production, 0);
  }

  /** `POST /` reaches registerPatient exactly for an Admin or a Receptionist. */
  lemma RegisterNeedsFrontDesk(user: Option<string>, production: bool)
    ensures var o := Dispatch(PatientTable, Request(Post, [], user), production);
      && (o == Handled(RegisterPatient, []) <==> IsFrontDesk(user))
      && (!IsFrontDesk(user) ==> o == Refused(if user.None? then 401 else 403))
  {
    var req := Request(Post, [], user);
    assert !Applies(PatientTable[0], req);
    assert Applies(PatientTable[1], req);
    FirstApplying(PatientTable, req, production, 1);
  }

  /** `PUT /:id` reaches updatePatient with the id exactly for an Admin or a Receptionist. */
  lemma UpdateNeedsFrontDesk(id: string, user: Option<string>, production: bool)
    requires id != []
    ensures var o := Dispatch(PatientTable, Request(Put, [id], user), production);
      && (o == Handled(UpdatePatient, [id]) <==> IsFrontDesk(user))
      && (!IsFrontDesk(user) ==> o == Refused(if user.None? then 401 else 403))
  {
    var req := Request(Put, [id], user);
    var t := PatientTable;
    forall j | 0 <= j < 6 ensures !Applies(t[j], req) {
      assert t[j].verb != Put;
    }
    assert SegmentMatches(t[6].pattern[0], id);
    assert Applies(t[6], req);
    assert Params([Param], [id]) == [id];
    FirstApplying(t, req, production, 6);
  }

  /** `GET /` needs a token and no particular role. */
  lemma ListNeedsAuthOnly(user: Option<string>, production: bool)
    ensures Dispatch(PatientTable, Request(Get, [], user), production) ==
      if user.None? then Refused(401) else Handled(GetAllPatients, [])
  {
    var req := Request(Get, [], user);
    var t := PatientTable;
    assert !Applies(t[0], req) && !Applies(t[1], req);
    assert Applies(t[2], req);
    FirstApplying(t, req, production, 2);
  }

  /** A single-segment GET skips the two POST routes and `GET /`. */
  lemma SingleGetSkipsFirstThree(seg: string, user: Option<string>)
    ensures forall j :: 0 <= j < 3 ==> !Applies(PatientTable[j], Request(Get, [seg], user))
  {
    var t := PatientTable;
    assert t[0].verb == Post && t[1].verb == Post && |t[2].pattern| == 0;
  }

  /** `GET /pending-count` needs a token and no role, and never reaches getPatientById
      although `/:id` would match it too: it is declared earlier. */
  lemma PendingCountComesFirst(seg: string, user: Option<string>, production: bool)
    requires ToLower(seg) == "pending-count"
    ensures Dispatch(PatientTable, Request(Get, [seg], user), production) ==
      if user.None? then Refused(401) else Handled(GetPendingCount, [])
    ensures Applies(PatientTable[5], Request(Get, [seg], user))
  {
    var req := Request(Get, [seg], user);
    var t := PatientTable;
    assert seg != [] by {
      assert |ToLower(seg)| == |seg|;
    }
    SingleGetSkipsFirstThree(seg, user);
    assert SegmentMatches(t[3].pattern[0], seg);
    assert Applies(t[3], req);
    assert SegmentMatches(t[5].pattern[0], seg);
    FirstApplying(t, req, production, 3);
  }

  /** `GET /search` likewise needs only a token and never reaches getPatientById. */
  lemma SearchComesFirst(seg: string, user: Option<string>, production: bool)
    requires ToLower(seg) == "search"
    ensures Dispatch(PatientTable, Request(Get, [seg], user), production) ==
      if user.None? then Refused(401) else Handled(SearchPatient, [])
    ensures Applies(PatientTable[5], Request(Get, [seg], user))
  {
    var req := Request(Get, [seg], user);
    var t := PatientTable;
    assert seg != [] by {
      assert |ToLower(seg)| == |seg|;
    }
    SingleGetSkipsFirstThree(seg, user);
    assert "search" != "pending-count";
    assert !SegmentMatches(t[3].pattern[0], seg);
    assert !Applies(t[3], req);
    assert SegmentMatches(t[4].pattern[0], seg);
    assert Applies(t[4], req);
    assert SegmentMatches(t[5].pattern[0], seg);
    FirstApplying(t, req, production, 4);
  }

  /** Any other single segment is an id for getPatientById, behind a token but no role. */
  lemma OtherSegmentIsAnId(seg: string, user: Option<string>, production: bool)
    requires seg != [] && ToLower(seg) != "pending-count" && ToLower(seg) != "search"
    ensures Dispatch(PatientTable, Request(Get, [seg], user), production) ==
      if user.None? then Refused(401) else Handled(GetPatientById, [seg])
  {
    var req := Request(Get, [seg], user);
    var t := PatientTable;
    SingleGetSkipsFirstThree(seg, user);
    assert !SegmentMatches(t[3].pattern[0], seg) && !SegmentMatches(t[4].pattern[0], seg);
    assert !Applies(t[3], req) && !Applies(t[4], req);
    assert SegmentMatches(t[5].pattern[0], seg);
    assert Applies(t[5], req);
    assert Params([Param], [seg]) == [seg];
    FirstApplying(t, req, production, 5);
  }

  /** Handling a request on the router the module builds is dispatching it on the table. */
  method HandlePatientRequest(req: Request, production: bool) returns (o: Outcome)
    ensures o == Dispatch(PatientTable, req, production)
  {
    var router := BuildPatientRouter();
    o := router.Handle(req, production);
  }
}
