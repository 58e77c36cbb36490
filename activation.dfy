/**
 * Route activation in cmd/gost/main.go: `start` expands the default route and
 * every stored route into routers and `startServe` expands one route. The
 * expansion itself (route.GenRouters) belongs to the proxy engine and is a
 * parameter here; a successful activation is represented by the list of
 * routers that would then be served.
 */
module Activation {
  import opened Wrappers
  import opened RouteModel
  import opened ConfigStore

  /** A runnable listener produced by the engine; opaque to the control plane. */
  type Router

  /** route.GenRouters: a route becomes routers, or an engine error message. */
  type Expander = Route -> Result<seq<Router>, string>

  /** Why an activation serves nothing. */
  datatype Error =
    | Expansion(message: string)  // the error GenRouters returned, passed on unchanged
    | InvalidConfig               // errors.New("invalid config"): the routers add up to none

  /** Expand `rs` left to right, concatenating the routers and stopping at the first error. */
  function ExpandAll(expand: Expander, rs: seq<Route>): (res: Result<seq<Router>, string>)
    ensures res.Ok? ==> forall k :: 0 <= k < |rs| ==> expand(rs[k]).Ok?
    ensures res.Err? ==> exists k :: 0 <= k < |rs| && expand(rs[k]) == Err(res.error)
    decreases |rs|
  {
    if |rs| == 0 then Ok([])
    else
      assert forall k :: 0 <= k < |rs| - 1 ==> rs[..|rs| - 1][k] == rs[k];
      match ExpandAll(expand, rs[..|rs| - 1])
      case Err(e) => Err(e)
      case Ok(acc) =>
        match expand(rs[|rs| - 1])
        case Err(e) => Err(e)
        case Ok(more) => Ok(acc + more)
  }

  /** Activation of a list of routes: an expansion error, "invalid config" for no routers, or the routers to serve. */
  function Activate(expand: Expander, rs: seq<Route>): (res: Result<seq<Router>, Error>)
    ensures res.Ok? ==> |res.value| > 0 && forall k :: 0 <= k < |rs| ==> expand(rs[k]).Ok?
    ensures res == Err(InvalidConfig) ==> ExpandAll(expand, rs) == Ok([])
    ensures res.Err? && res.error.Expansion? ==> exists k :: 0 <= k < |rs| && expand(rs[k]) == Err(res.error.message)
  {
    match ExpandAll(expand, rs)
    case Err(e) => Err(Expansion(e))
    case Ok(routers) => if |routers| == 0 then Err(InvalidConfig) else Ok(routers)
  }

  // ---------------------------------------------------------------------------
  // Properties of the expansion

  /** The first route's routers come first, followed by the expansion of the rest. */
  lemma {:induction false} ExpandAllCons(expand: Expander, r: Route, rs: seq<Route>)
    ensures ExpandAll(expand, [r] + rs) ==
      match expand(r)
      case Err(e) => Err(e)
      case Ok(first) =>
        match ExpandAll(expand, rs)
        case Err(e) => Err(e)
        case Ok(rest) => Ok(first + rest)
  {
    var all := [r] + rs;
    if |rs| == 0 {
      assert all[..0] == [] && all[0] == r;
      match expand(r)
      case Err(_) =>
      case Ok(first) => assert [] + first == first + [];
    } else {
      var init := rs[..|rs| - 1];
      var last := rs[|rs| - 1];
      assert all[..|all| - 1] == [r] + init;
      assert all[|all| - 1] == last;
      ExpandAllCons(expand, r, init);
      match expand(r)
      case Err(_) =>
      case Ok(first) =>
        match ExpandAll(expand, init)
        case Err(_) =>
        case Ok(restInit) =>
          match expand(last)
          case Err(_) =>
          case Ok(more) => assert (first + restInit) + more == first + (restInit + more);
    }
  }

  /** Expansion succeeds exactly when every route expands. */
  lemma {:induction false} ExpandAllOk(expand: Expander, rs: seq<Route>)
    ensures ExpandAll(expand, rs).Ok? <==> forall k :: 0 <= k < |rs| ==> expand(rs[k]).Ok?
  {
    if |rs| > 0 {
      var init := rs[..|rs| - 1];
      ExpandAllOk(expand, init);
      assert forall k :: 0 <= k < |init| ==> init[k] == rs[k];
    }
  }

  /** A failing expansion reports the error of the first route that fails. */
  lemma {:induction false} ExpandAllFirstError(expand: Expander, rs: seq<Route>)
    requires ExpandAll(expand, rs).Err?
    ensures exists k ::
              && 0 <= k < |rs| && expand(rs[k]) == Err(ExpandAll(expand, rs).error)
              && forall j :: 0 <= j < k ==> expand(rs[j]).Ok?
  {
    var init := rs[..|rs| - 1];
    assert forall k :: 0 <= k < |init| ==> init[k] == rs[k];
    if ExpandAll(expand, init).Err? {
      ExpandAllFirstError(expand, init);
      var k :| 0 <= k < |init| && expand(init[k]) == Err(ExpandAll(expand, init).error)
        && forall j :: 0 <= j < k ==> expand(init[j]).Ok?;
      assert expand(rs[k]) == Err(ExpandAll(expand, rs).error);
    } else {
      ExpandAllOk(expand, init);
      assert expand(rs[|rs| - 1]) == Err(ExpandAll(expand, rs).error);
    }
  }

  /** Every router of a successful expansion comes from one of the routes. */
  lemma {:induction false} ExpandAllRouterOrigin(expand: Expander, rs: seq<Route>, x: Router)
    requires ExpandAll(expand, rs).Ok? && x in ExpandAll(expand, rs).value
    ensures exists k :: 0 <= k < |rs| && expand(rs[k]).Ok? && x in expand(rs[k]).value
  {
    var init := rs[..|rs| - 1];
    var last := rs[|rs| - 1];
    if x in ExpandAll(expand, init).value {
      ExpandAllRouterOrigin(expand, init, x);
      var k :| 0 <= k < |init| && expand(init[k]).Ok? && x in expand(init[k]).value;
      assert init[k] == rs[k];
    } else {
      assert x in expand(last).value;
    }
  }

  /** Activation serves nothing unless every route expands and some router results. */
  lemma ActivateOk(expand: Expander, rs: seq<Route>)
    ensures Activate(expand, rs).Ok? <==>
      ExpandAll(expand, rs).Ok? && |ExpandAll(expand, rs).value| > 0
  {
    ExpandAllOk(expand, rs);
  }

  // ---------------------------------------------------------------------------
  // The two activation paths

  /** startServe: activate a single route, as the add handler does for the route it received. */
  method StartServe(expand: Expander, r: Route) returns (res: Result<seq<Router>, Error>)
    ensures expand(r).Err? ==> res == Err(Expansion(expand(r).error))
    ensures expand(r).Ok? && |expand(r).value| == 0 ==> res == Err(InvalidConfig)
    ensures expand(r).Ok? && |expand(r).value| > 0 ==> res == Ok(expand(r).value)
    ensures res == Activate(expand, [r])
  {
    var rs: seq<Router> := [];
    var rts := expand(r);
    if rts.Err? {
      ExpandAllCons(expand, r, []);
      assert [r] + [] == [r];
      return Err(Expansion(rts.error));
    }
    rs := rs + rts.value;
    assert rs == rts.value;
    ExpandAllCons(expand, r, []);
    assert [r] + [] == [r];
    if |rs| == 0 {
      return Err(InvalidConfig);
    }
    res := Ok(rs);
  }

  /** start: activate the default route and then every stored route, in order, all or nothing. */
  method Start(expand: Expander, cfg: BaseConfig) returns (res: Result<seq<Router>, Error>)
    ensures res == Activate(expand, [cfg.route] + cfg.routes)
  {
    var all := [cfg.route] + cfg.routes;
    var routers: seq<Router> := [];
    var rts := expand(cfg.route);
    if rts.Err? {
      assert all[..1] == [cfg.route] && all[..0] == [];
      ExpandAllPrefixErr(expand, all, 1);
      return Err(Expansion(rts.error));
    }
    routers := routers + rts.value;
    var i := 0;
    while i < |cfg.routes|
      invariant 0 <= i <= |cfg.routes|
      invariant ExpandAll(expand, all[..i + 1]) == Ok(routers)
    {
      var route := cfg.routes[i];
      assert all[..i + 2][..i + 1] == all[..i + 1] && all[i + 1] == route;
      var more := expand(route);
      if more.Err? {
        ExpandAllPrefixErr(expand, all, i + 2);
        return Err(Expansion(more.error));
      }
      routers := routers + more.value;
      i := i + 1;
    }
    assert all[..i + 1] == all;
    if |routers| == 0 {
      return Err(InvalidConfig);
    }
    res := Ok(routers);
  }

  /** Once a prefix of the routes fails to expand, the whole list fails with the same error. */
  lemma {:induction false} ExpandAllPrefixErr(expand: Expander, rs: seq<Route>, n: nat)
    requires n <= |rs| && ExpandAll(expand, rs[..n]).Err?
    ensures ExpandAll(expand, rs) == ExpandAll(expand, rs[..n])
    decreases |rs| - n
  {
    if n < |rs| {
      assert rs[..n + 1][..n] == rs[..n];
      ExpandAllPrefixErr(expand, rs, n + 1);
    } else {
      assert rs[..n] == rs;
    }
  }
}
